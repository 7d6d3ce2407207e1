/**
 The server's output helper: a falsy value renders as the empty string;
 anything else is serialised and then rewritten by two global regular
 expression replacements, applied in this order:

   1. every escaped colour code -- the seven characters `\u001b[` (a
      backslash, not the ESC character itself), one or more ASCII digits,
      then `m` -- is deleted;
   2. every two-character escape `\n` (backslash, `n`) becomes a real
      line feed.

 A global replacement scans left to right and never revisits text it has
 already rewritten, which is what the head-first recursion below does.
 */
module CleanOutput {
  import opened Values

  // ---------------------------------------------------------------------
  // Sequences

  /** `a` can be obtained from `b` by deleting characters. */
  predicate IsSubsequence(a: string, b: string)
    decreases |b|
  {
    || |a| == 0
    || (&& |b| > 0
        && ((a[0] == b[0] && IsSubsequence(a[1..], b[1..])) || IsSubsequence(a, b[1..])))
  }

  lemma {:induction false} SubsequenceOfSuffix(a: string, b: string, k: nat)
    requires k <= |b|
    requires IsSubsequence(a, b[k..])
    ensures IsSubsequence(a, b)
    decreases k
  {
    if k > 0 {
      assert b[1..][k - 1..] == b[k..];
      SubsequenceOfSuffix(a, b[1..], k - 1);
    }
  }

  predicate NoBackslash(s: string) {
    forall i :: 0 <= i < |s| ==> s[i] != '\\'
  }

  // ---------------------------------------------------------------------
  // Pass one: escaped colour codes

  /** The seven characters that open an escaped colour code. */
  const ColourIntro: string := "\\u001b["

  /** `\d` of a regular expression without the unicode flag. */
  predicate IsDigit(c: char) {
    '0' <= c <= '9'
  }

  predicate AllDigits(d: string) {
    forall k :: 0 <= k < |d| ==> IsDigit(d[k])
  }

  /** `s` starts with the seven characters of `ColourIntro`. */
  predicate StartsWithIntro(s: string) {
    && |s| >= 7
    && s[0] == '\\' && s[1] == 'u' && s[2] == '0' && s[3] == '0'
    && s[4] == '1' && s[5] == 'b' && s[6] == '['
  }

  /** The number of ASCII digits in `s` from index `i` on, up to the first
      character that is not one. */
  function DigitsFrom(s: string, i: nat): (n: nat)
    requires i <= |s|
    ensures i + n <= |s|
    decreases |s| - i
  {
    if i < |s| && IsDigit(s[i]) then 1 + DigitsFrom(s, i + 1) else 0
  }

  lemma {:induction false} DigitsFromExact(s: string, i: nat, n: nat)
    requires i + n < |s|
    requires forall k :: i <= k < i + n ==> IsDigit(s[k])
    requires !IsDigit(s[i + n])
    ensures DigitsFrom(s, i) == n
    decreases n
  {
    if n > 0 {
      DigitsFromExact(s, i + 1, n - 1);
    }
  }

  /** The length of the colour code `s` starts with, if it starts with one.
      The pattern's `\d+` is greedy, and giving digits back never helps:
      a shorter run is followed by a digit, not by `m`. So a match exists
      exactly when the whole run of digits after the intro is non-empty
      and followed by `m`. */
  function ColourCodeAt(s: string): (r: Option<nat>)
    ensures r.Some? ==> 9 <= r.value <= |s|
  {
    if StartsWithIntro(s) then
      var d := DigitsFrom(s, 7);
      if d > 0 && 7 + d < |s| && s[7 + d] == 'm' then Some(8 + d) else None
    else
      None
  }

  /** A colour code starts at index `i` of `s`. */
  predicate ColourCodeStartsAt(s: string, i: int) {
    0 <= i < |s| && ColourCodeAt(s[i..]).Some?
  }

  predicate NoColourCode(s: string) {
    forall i :: 0 <= i < |s| ==> !ColourCodeStartsAt(s, i)
  }

  /** Pass one: delete every escaped colour code, leftmost first. */
  function StripColourCodes(s: string): (r: string)
    ensures |r| <= |s|
    decreases |s|
  {
    if |s| == 0 then []
    else match ColourCodeAt(s)
      case Some(n) => StripColourCodes(s[n..])
      case None => [s[0]] + StripColourCodes(s[1..])
  }

  /** Pass one only deletes characters. */
  lemma {:induction false} StripIsSubsequence(s: string)
    ensures IsSubsequence(StripColourCodes(s), s)
    decreases |s|
  {
    if |s| > 0 {
      match ColourCodeAt(s)
      case Some(n) =>
        StripIsSubsequence(s[n..]);
        SubsequenceOfSuffix(StripColourCodes(s[n..]), s, n);
      case None =>
        StripIsSubsequence(s[1..]);
        var r := StripColourCodes(s);
        assert r[0] == s[0] && r[1..] == StripColourCodes(s[1..]);
    }
  }

  /** Text that does not start with a backslash is copied through. */
  lemma StripKeepsPlainHead(s: string)
    requires |s| > 0 && s[0] != '\\'
    ensures StripColourCodes(s) == [s[0]] + StripColourCodes(s[1..])
  {
  }

  lemma NoBackslashTail(t: string)
    requires |t| > 0 && NoBackslash(t)
    ensures t[0] != '\\' && NoBackslash(t[1..])
  {
    forall i | 0 <= i < |t[1..]| ensures t[1..][i] != '\\' {
      assert t[1..][i] == t[i + 1];
    }
  }

  lemma StripPlainCons(c: char, u: string)
    requires c != '\\'
    ensures StripColourCodes([c] + u) == [c] + StripColourCodes(u)
  {
    var s := [c] + u;
    assert s[0] == c && s[1..] == u;
    StripKeepsPlainHead(s);
  }

  /** A backslash-free prefix survives pass one unchanged. */
  lemma {:induction false} StripKeepsPlainPrefix(t: string, rest: string)
    requires NoBackslash(t)
    ensures StripColourCodes(t + rest) == t + StripColourCodes(rest)
    decreases |t|
  {
    if |t| == 0 {
      assert t + rest == rest;
    } else {
      NoBackslashTail(t);
      var c, u := t[0], t[1..];
      assert t + rest == [c] + (u + rest);
      StripPlainCons(c, u + rest);
      StripKeepsPlainPrefix(u, rest);
      assert [c] + (u + StripColourCodes(rest)) == t + StripColourCodes(rest);
    }
  }

  /** The escaped colour code that selects SGR parameter `digits`. */
  function ColourCode(digits: string): (r: string)
    requires |digits| > 0
    requires AllDigits(digits)
    ensures |r| == |digits| + 8
    ensures ColourCodeAt(r) == Some(|r|)
  {
    var r := ColourIntro + digits + "m";
    CodeShape(digits, r);
    r
  }

  /** Anything that begins like the code for `digits` is matched by it. */
  lemma CodeShape(digits: string, s: string)
    requires |digits| > 0 && AllDigits(digits)
    requires |s| >= |digits| + 8 && s[..|digits| + 8] == ColourIntro + digits + "m"
    ensures ColourCodeAt(s) == Some(|digits| + 8)
  {
    var code := ColourIntro + digits + "m";
    forall k | 0 <= k < |code| ensures s[k] == code[k] {
      assert s[..|code|][k] == s[k];
    }
    assert StartsWithIntro(s);
    forall k | 7 <= k < 7 + |digits| ensures IsDigit(s[k]) {
      assert code[k] == digits[k - 7];
    }
    DigitsFromExact(s, 7, |digits|);
  }

  /** Pass one deletes a colour code in front of any text, whatever follows. */
  lemma StripDropsLeadingCode(digits: string, rest: string)
    requires |digits| > 0
    requires AllDigits(digits)
    ensures StripColourCodes(ColourCode(digits) + rest) == StripColourCodes(rest)
  {
    var code := ColourCode(digits);
    var s := code + rest;
    assert s[..|code|] == code;
    CodeShape(digits, s);
    assert s[|code|..] == rest;
  }

  /** A stretch of text drawn in one colour, as a terminal program writes
      it and a JSON serialiser escapes it. */
  datatype Span = Span(colour: string, text: string)

  predicate WellFormedSpan(sp: Span) {
    && |sp.colour| > 0
    && AllDigits(sp.colour)
    && NoBackslash(sp.text)
  }

  function Painted(spans: seq<Span>): string
    requires forall j :: 0 <= j < |spans| ==> WellFormedSpan(spans[j])
  {
    if |spans| == 0 then []
    else
      assert WellFormedSpan(spans[0]);
      assert forall j :: 0 <= j < |spans[1..]| ==> spans[1..][j] == spans[j + 1];
      ColourCode(spans[0].colour) + spans[0].text + Painted(spans[1..])
  }

  function PlainText(spans: seq<Span>): string {
    if |spans| == 0 then [] else spans[0].text + PlainText(spans[1..])
  }

  /** Pass one recovers the plain text of coloured, backslash-free output. */
  lemma {:induction false} StripPaintedIsPlain(spans: seq<Span>)
    requires forall j :: 0 <= j < |spans| ==> WellFormedSpan(spans[j])
    ensures StripColourCodes(Painted(spans)) == PlainText(spans)
    decreases |spans|
  {
    if |spans| > 0 {
      var sp := spans[0];
      var tail := Painted(spans[1..]);
      assert Painted(spans) == ColourCode(sp.colour) + (sp.text + tail);
      StripDropsLeadingCode(sp.colour, sp.text + tail);
      StripKeepsPlainPrefix(sp.text, tail);
      StripPaintedIsPlain(spans[1..]);
    }
  }

  /** Pass one changes its input exactly when a colour code occurs in it. */
  lemma {:induction false} StripFixedPoint(s: string)
    ensures StripColourCodes(s) == s <==> NoColourCode(s)
    decreases |s|
  {
    if NoColourCode(s) {
      StripKeepsClean(s);
    } else {
      var i :| 0 <= i < |s| && ColourCodeStartsAt(s, i);
      StripShrinks(s, i);
    }
  }

  lemma {:induction false} StripKeepsClean(s: string)
    requires NoColourCode(s)
    ensures StripColourCodes(s) == s
    decreases |s|
  {
    if |s| > 0 {
      assert !ColourCodeStartsAt(s, 0);
      assert s[0..] == s;
      forall i | 0 <= i < |s[1..]|
        ensures !ColourCodeStartsAt(s[1..], i)
      {
        assert s[1..][i..] == s[i + 1..];
        assert !ColourCodeStartsAt(s, i + 1);
      }
      StripKeepsClean(s[1..]);
    }
  }

  lemma {:induction false} StripShrinks(s: string, i: nat)
    requires ColourCodeStartsAt(s, i)
    ensures |StripColourCodes(s)| < |s|
    decreases |s|
  {
    assert s[0..] == s;
    if ColourCodeAt(s).None? {
      assert i > 0;
      assert s[1..][i - 1..] == s[i..];
      StripShrinks(s[1..], i - 1);
    }
  }

  lemma DigitsThenMHaveNoBackslash(d: string)
    requires AllDigits(d)
    ensures NoBackslash(d + "m")
  {
    forall k | 0 <= k < |d + "m"| ensures (d + "m")[k] != '\\' {
      if k < |d| { assert IsDigit(d[k]); }
    }
  }

  /** An intro followed by a backslash does not start a colour code. */
  lemma IntroThenBackslash(s: string)
    requires StartsWithIntro(s) && |s| > 7 && s[7] == '\\'
    ensures ColourCodeAt(s).None?
  {
  }

  lemma IntroSplit(x: string)
    ensures ColourIntro + x == ['\\'] + ("u001b[" + x)
  {
    assert ColourIntro == ['\\'] + "u001b[";
  }

  /** Inside `\u001b[` + code + tail, only the code is deleted. */
  lemma StripInnerCode(inner: string, outer: string)
    requires |inner| > 0 && AllDigits(inner)
    requires AllDigits(outer)
    ensures StripColourCodes("u001b[" + (ColourCode(inner) + (outer + "m"))) == "u001b[" + (outer + "m")
  {
    var tail := outer + "m";
    DigitsThenMHaveNoBackslash(outer);
    StripKeepsPlainPrefix("u001b[", ColourCode(inner) + tail);
    StripDropsLeadingCode(inner, tail);
    StripKeepsPlainPrefix(tail, []);
    assert tail + [] == tail;
  }

  lemma OuterCodeShape(outer: string)
    requires |outer| > 0 && AllDigits(outer)
    ensures ['\\'] + ("u001b[" + (outer + "m")) == ColourCode(outer)
  {
    IntroSplit(outer + "m");
    assert ColourIntro + (outer + "m") == ColourIntro + outer + "m";
  }

  /** A backslash whose intro is followed by another code is kept. */
  lemma StripKeepsOuterBackslash(code: string, tail: string)
    requires |code| > 0 && code[0] == '\\'
    ensures StripColourCodes(ColourIntro + (code + tail))
         == ['\\'] + StripColourCodes("u001b[" + (code + tail))
  {
    var t := "u001b[" + (code + tail);
    var s := ['\\'] + t;
    IntroSplit(code + tail);
    assert StartsWithIntro(s) && s[7] == code[0];
    IntroThenBackslash(s);
    assert s[1..] == t;
  }

  /** Deleting an inner code joins the two halves of an outer one. */
  lemma StripJoinsHalves(inner: string, outer: string)
    requires |inner| > 0 && AllDigits(inner)
    requires |outer| > 0 && AllDigits(outer)
    ensures StripColourCodes(ColourIntro + (ColourCode(inner) + (outer + "m"))) == ColourCode(outer)
  {
    StripKeepsOuterBackslash(ColourCode(inner), outer + "m");
    StripInnerCode(inner, outer);
    OuterCodeShape(outer);
  }

  /** A single application of pass one can leave a colour code behind, as
      in `\u001b[\u001b[1m1m`, which becomes `\u001b[1m`; a second
      application then deletes it. */
  lemma StripIsNotIdempotent(inner: string, outer: string)
    requires |inner| > 0 && AllDigits(inner)
    requires |outer| > 0 && AllDigits(outer)
    ensures var s := ColourIntro + (ColourCode(inner) + (outer + "m"));
      && StripColourCodes(s) == ColourCode(outer)
      && StripColourCodes(StripColourCodes(s)) == []
  {
    StripJoinsHalves(inner, outer);
    StripDropsLeadingCode(outer, []);
    assert ColourCode(outer) + [] == ColourCode(outer);
  }

  // ---------------------------------------------------------------------
  // Pass two: escaped newlines

  /** An escaped newline (backslash, `n`) starts at index `i` of `s`. */
  predicate EscapedNewlineAt(s: string, i: int) {
    0 <= i && i + 1 < |s| && s[i] == '\\' && s[i + 1] == 'n'
  }

  predicate NoEscapedNewline(s: string) {
    forall i :: 0 <= i < |s| ==> !EscapedNewlineAt(s, i)
  }

  /** Pass two: each escaped newline, leftmost first, becomes a line feed.
      The output never grows, and it starts with `n` exactly when the input
      does (a replaced pair starts with a line feed instead), which is what
      keeps a kept backslash from meeting an `n` in the output. */
  function UnescapeNewlines(s: string): (r: string)
    ensures |r| <= |s|
    ensures |s| > 0 ==> |r| > 0 && (r[0] == 'n' <==> s[0] == 'n')
    decreases |s|
  {
    if |s| == 0 then []
    else if EscapedNewlineAt(s, 0) then ['\n'] + UnescapeNewlines(s[2..])
    else [s[0]] + UnescapeNewlines(s[1..])
  }

  /** Every position at which an escaped newline starts, overlapping or not. */
  function EscapedNewlineCount(s: string): nat {
    if |s| == 0 then 0
    else (if EscapedNewlineAt(s, 0) then 1 else 0) + EscapedNewlineCount(s[1..])
  }

  /** Two escaped newlines can never overlap, so pass two shortens the text
      by exactly one character per escaped newline in it. */
  lemma {:induction false} UnescapeLength(s: string)
    ensures |UnescapeNewlines(s)| == |s| - EscapedNewlineCount(s)
    decreases |s|
  {
    if |s| > 0 {
      if EscapedNewlineAt(s, 0) {
        assert !EscapedNewlineAt(s[1..], 0);
        assert s[1..][1..] == s[2..];
        UnescapeLength(s[2..]);
      } else {
        UnescapeLength(s[1..]);
      }
    }
  }

  lemma {:induction false} NoEscapedNewlineCount(s: string)
    ensures EscapedNewlineCount(s) == 0 <==> NoEscapedNewline(s)
    decreases |s|
  {
    if |s| > 0 {
      NoEscapedNewlineCount(s[1..]);
      forall i | 1 <= i < |s| ensures EscapedNewlineAt(s, i) == EscapedNewlineAt(s[1..], i - 1) { }
      if NoEscapedNewline(s) {
        assert !EscapedNewlineAt(s, 0);
        assert NoEscapedNewline(s[1..]) by {
          forall i | 0 <= i < |s[1..]| ensures !EscapedNewlineAt(s[1..], i) {
            assert !EscapedNewlineAt(s, i + 1);
          }
        }
      }
    }
  }

  /** The output of pass two contains no escaped newline. */
  lemma {:induction false} UnescapeLeavesNone(s: string)
    ensures NoEscapedNewline(UnescapeNewlines(s))
    decreases |s|
  {
    if |s| > 0 {
      var r := UnescapeNewlines(s);
      var k := if EscapedNewlineAt(s, 0) then 2 else 1;
      var tail := UnescapeNewlines(s[k..]);
      assert r == [r[0]] + tail;
      UnescapeLeavesNone(s[k..]);
      forall i | 0 <= i < |r| ensures !EscapedNewlineAt(r, i) {
        if i > 0 {
          assert !EscapedNewlineAt(tail, i - 1);
        } else if k == 1 && |tail| > 0 {
          assert tail[0] == 'n' <==> s[1] == 'n';
        }
      }
    }
  }

  /** Pass two changes its input exactly when an escaped newline occurs in it. */
  lemma UnescapeFixedPoint(s: string)
    ensures UnescapeNewlines(s) == s <==> NoEscapedNewline(s)
  {
    UnescapeLength(s);
    NoEscapedNewlineCount(s);
    if NoEscapedNewline(s) {
      UnescapeKeepsClean(s);
    }
  }

  lemma {:induction false} UnescapeKeepsClean(s: string)
    requires NoEscapedNewline(s)
    ensures UnescapeNewlines(s) == s
    decreases |s|
  {
    if |s| > 0 {
      assert !EscapedNewlineAt(s, 0);
      assert NoEscapedNewline(s[1..]) by {
        forall i | 0 <= i < |s[1..]| ensures !EscapedNewlineAt(s[1..], i) {
          assert !EscapedNewlineAt(s, i + 1);
        }
      }
      UnescapeKeepsClean(s[1..]);
    }
  }

  /** Running pass two twice is the same as running it once. */
  lemma {:induction false} UnescapeIdempotent(s: string)
    ensures UnescapeNewlines(UnescapeNewlines(s)) == UnescapeNewlines(s)
  {
    UnescapeLeavesNone(s);
    UnescapeKeepsClean(UnescapeNewlines(s));
  }

  /** How `JSON.stringify` writes the two characters pass two looks at
      inside a string: a backslash is doubled and a line feed becomes
      backslash, `n`. Every other character is copied. */
  function JsonEscape(t: string): (r: string)
    ensures |t| > 0 ==> |r| > 0 && (r[0] == 'n' <==> t[0] == 'n')
  {
    if |t| == 0 then []
    else if t[0] == '\\' then "\\\\" + JsonEscape(t[1..])
    else if t[0] == '\n' then "\\n" + JsonEscape(t[1..])
    else [t[0]] + JsonEscape(t[1..])
  }

  /** The text with every backslash doubled and everything else, line feeds
      included, left as it is. */
  function DoubleBackslashes(t: string): (r: string)
    ensures NoBackslash(t) ==> r == t
  {
    if |t| == 0 then []
    else if t[0] == '\\' then "\\\\" + DoubleBackslashes(t[1..])
    else (NoBackslashTailOf(t); [t[0]] + DoubleBackslashes(t[1..]))
  }

  lemma NoBackslashTailOf(t: string)
    requires |t| > 0
    ensures NoBackslash(t) ==> NoBackslash(t[1..])
  {
    if NoBackslash(t) {
      NoBackslashTail(t);
    }
  }

  function LineFeedCount(t: string): nat {
    if |t| == 0 then 0
    else (if t[0] == '\n' then 1 else 0) + LineFeedCount(t[1..])
  }

  function BackslashCount(t: string): nat {
    if |t| == 0 then 0
    else (if t[0] == '\\' then 1 else 0) + BackslashCount(t[1..])
  }

  /** Escaping adds one character per backslash and one per line feed. */
  lemma {:induction false} JsonEscapeLength(t: string)
    ensures |JsonEscape(t)| == |t| + BackslashCount(t) + LineFeedCount(t)
    ensures |DoubleBackslashes(t)| == |t| + BackslashCount(t)
    decreases |t|
  {
    if |t| > 0 {
      JsonEscapeLength(t[1..]);
    }
  }

  /** The escaped text holds one backslash-`n` pair per line feed of the
      original and one more per backslash-`n` pair the original held: the
      doubled backslash's second half meets the `n`. */
  lemma {:induction false} JsonEscapeCount(t: string)
    ensures EscapedNewlineCount(JsonEscape(t)) == LineFeedCount(t) + EscapedNewlineCount(t)
    decreases |t|
  {
    if |t| > 0 {
      JsonEscapeCount(t[1..]);
      var e := JsonEscape(t);
      var tail := JsonEscape(t[1..]);
      if t[0] == '\\' {
        assert e == "\\\\" + tail;
        assert !EscapedNewlineAt(e, 0);
        assert e[1..] == "\\" + tail;
        assert e[1..][1..] == tail;
        assert EscapedNewlineAt(e[1..], 0) <==> EscapedNewlineAt(t, 0);
      } else if t[0] == '\n' {
        assert e == "\\n" + tail;
        assert EscapedNewlineAt(e, 0);
        assert e[1..] == "n" + tail;
        assert !EscapedNewlineAt(e[1..], 0);
        assert e[1..][1..] == tail;
      } else {
        assert e == [t[0]] + tail;
        assert !EscapedNewlineAt(e, 0);
        assert e[1..] == tail;
      }
    }
  }

  /** Pass two undoes JSON's line-feed escaping, leaving only the doubled
      backslashes, exactly when the original text held no backslash
      followed by `n`; text without any backslash comes back unchanged. */
  lemma UnescapeUndoesEscape(t: string)
    ensures UnescapeNewlines(JsonEscape(t)) == DoubleBackslashes(t) <==> NoEscapedNewline(t)
    ensures NoBackslash(t) ==> UnescapeNewlines(JsonEscape(t)) == t
  {
    if NoEscapedNewline(t) {
      UnescapeJsonEscape(t);
    } else {
      NoEscapedNewlineCount(t);
      JsonEscapeLength(t);
      JsonEscapeCount(t);
      UnescapeLength(JsonEscape(t));
    }
    if NoBackslash(t) {
      assert NoEscapedNewline(t) by {
        forall i | 0 <= i < |t| ensures !EscapedNewlineAt(t, i) {
          assert t[i] != '\\';
        }
      }
    }
  }

  lemma {:induction false} UnescapeJsonEscape(t: string)
    requires NoEscapedNewline(t)
    ensures UnescapeNewlines(JsonEscape(t)) == DoubleBackslashes(t)
    decreases |t|
  {
    if |t| > 0 {
      assert NoEscapedNewline(t[1..]) by {
        forall i | 0 <= i < |t[1..]| ensures !EscapedNewlineAt(t[1..], i) {
          assert !EscapedNewlineAt(t, i + 1);
        }
      }
      UnescapeJsonEscape(t[1..]);
      var e := JsonEscape(t);
      var tail := JsonEscape(t[1..]);
      if t[0] == '\\' {
        UnescapeDoubledBackslash(t, tail);
      } else if t[0] == '\n' {
        assert e == "\\n" + tail;
        assert EscapedNewlineAt(e, 0);
        assert e[2..] == tail;
      } else {
        assert e == [t[0]] + tail;
        assert !EscapedNewlineAt(e, 0);
        assert e[1..] == tail;
      }
    }
  }

  /** A doubled backslash not followed by `n` passes pass two as two
      backslashes. */
  lemma UnescapeDoubledBackslash(t: string, tail: string)
    requires |t| > 0 && t[0] == '\\' && !EscapedNewlineAt(t, 0)
    requires tail == JsonEscape(t[1..])
    ensures UnescapeNewlines(JsonEscape(t)) == "\\\\" + UnescapeNewlines(tail)
  {
    var e := JsonEscape(t);
    assert e == "\\\\" + tail;
    assert !EscapedNewlineAt(e, 0);
    var e1 := e[1..];
    assert e1 == "\\" + tail;
    assert |tail| > 0 ==> tail[0] != 'n';
    assert !EscapedNewlineAt(e1, 0);
    assert e1[1..] == tail;
    assert UnescapeNewlines(e1) == "\\" + UnescapeNewlines(tail);
  }

  /** A backslash the serialiser doubled still starts an escaped newline
      when an `n` follows: wherever the text `\n` (backslash, `n`) stands
      in a string, its serialised form `\\n` is rendered as a backslash and
      a line feed, and the text around it is processed on its own. */
  lemma LiteralBackslashBecomesLineBreak(p: string, q: string)
    ensures UnescapeNewlines(p + "\\\\n" + q) == UnescapeNewlines(p) + "\\\n" + UnescapeNewlines(q)
  {
    var m := "\\\\n";
    assert p + m + q == p + (m + q);
    UnescapeConcat(p, m + q);
    var s := m + q;
    assert !EscapedNewlineAt(s, 0);
    assert s[1..] == "\\n" + q;
    assert EscapedNewlineAt(s[1..], 0);
    assert s[1..][2..] == q;
  }

  /** Pass two works on the two halves of a text separately when the second
      half does not start with `n`: no escaped newline can straddle them. */
  lemma {:induction false} UnescapeConcat(p: string, r: string)
    requires |r| == 0 || r[0] != 'n'
    ensures UnescapeNewlines(p + r) == UnescapeNewlines(p) + UnescapeNewlines(r)
    decreases |p|
  {
    var s := p + r;
    if |p| == 0 {
      assert s == r;
    } else if EscapedNewlineAt(p, 0) {
      assert EscapedNewlineAt(s, 0);
      assert s[2..] == p[2..] + r;
      UnescapeConcat(p[2..], r);
      assert UnescapeNewlines(s) == ['\n'] + UnescapeNewlines(p[2..] + r);
    } else {
      assert s[0] == p[0];
      assert s[1..] == p[1..] + r;
      assert |s[1..]| > 0 ==> s[1] == s[1..][0];
      assert |p| == 1 ==> s[1..] == r;
      assert |p| > 1 ==> s[1] == p[1];
      assert !EscapedNewlineAt(s, 0);
      UnescapeConcat(p[1..], r);
      assert UnescapeNewlines(s) == [p[0]] + UnescapeNewlines(p[1..] + r);
    }
  }


  // ---------------------------------------------------------------------
  // The helper as a whole

  /** Both passes over already serialised text, colour codes first. */
  function CleanText(json: string): (r: string)
    ensures |r| <= |json|
    ensures NoEscapedNewline(r)
  {
    UnescapeLeavesNone(StripColourCodes(json));
    UnescapeNewlines(StripColourCodes(json))
  }

  /** Clean text comes back unchanged exactly when it holds neither a colour
      code nor an escaped newline. */
  lemma CleanTextFixedPoint(t: string)
    ensures CleanText(t) == t <==> NoColourCode(t) && NoEscapedNewline(t)
  {
    StripFixedPoint(t);
    if NoColourCode(t) {
      UnescapeFixedPoint(t);
    } else {
      var i :| 0 <= i < |t| && ColourCodeStartsAt(t, i);
      StripShrinks(t, i);
    }
  }

  /** Text without a backslash contains neither pattern and passes through. */
  lemma CleanTextKeepsBackslashFree(t: string)
    requires NoBackslash(t)
    ensures CleanText(t) == t
  {
    assert NoColourCode(t) by {
      forall i | 0 <= i < |t| ensures !ColourCodeStartsAt(t, i) {
        assert t[i..][0] == t[i] != '\\';
      }
    }
    CleanTextFixedPoint(t);
  }

  /** A backslash directly before a colour code is kept by pass one. */
  lemma StripKeepsBackslashBeforeCode(code: string, rest: string)
    requires |code| > 0 && code[0] == '\\'
    ensures StripColourCodes(['\\'] + (code + rest)) == ['\\'] + StripColourCodes(code + rest)
  {
    var s := ['\\'] + (code + rest);
    assert s[1] == code[0];
    assert s[1..] == code + rest;
  }

  lemma UnescapeKeepsUnpaired(c: char, x: string)
    requires c != '\\' || |x| == 0 || x[0] != 'n'
    ensures UnescapeNewlines([c] + x) == [c] + UnescapeNewlines(x)
  {
    var s := [c] + x;
    assert !EscapedNewlineAt(s, 0);
    assert s[1..] == x;
  }

  lemma UnescapeKeepsBackslashFree(t: string)
    requires NoBackslash(t)
    ensures UnescapeNewlines(t) == t
  {
    UnescapeKeepsClean(t);
  }

  /** Pass one deletes the code and keeps the backslash before it. */
  lemma StripBackslashCodeN(digits: string)
    requires |digits| > 0 && AllDigits(digits)
    ensures StripColourCodes("\\" + ColourCode(digits) + "n") == "\\n"
  {
    var code := ColourCode(digits);
    assert "\\" + code + "n" == ['\\'] + (code + "n");
    StripKeepsBackslashBeforeCode(code, "n");
    StripDropsLeadingCode(digits, "n");
    StripPlainCons('n', []);
    assert ['n'] + [] == "n";
  }

  /** Pass two finds no backslash followed by `n` and changes nothing. */
  lemma UnescapeBackslashCodeN(digits: string)
    requires |digits| > 0 && AllDigits(digits)
    ensures UnescapeNewlines("\\" + ColourCode(digits) + "n") == "\\" + ColourCode(digits) + "n"
  {
    var p := "u001b[" + (digits + "mn");
    assert NoBackslash(p) by {
      forall k | 0 <= k < |p| ensures p[k] != '\\' {
        if 6 <= k < 6 + |digits| { assert IsDigit(digits[k - 6]); }
      }
    }
    IntroSplit(digits + "mn");
    assert "\\" + ColourCode(digits) + "n" == ['\\'] + (['\\'] + p);
    UnescapeKeepsBackslashFree(p);
    UnescapeKeepsUnpaired('\\', p);
    UnescapeKeepsUnpaired('\\', ['\\'] + p);
  }

  /** Colour stripping first: the backslash left in front of `n` is then
      unescaped into a line feed. */
  lemma CleanTextBackslashCodeN(digits: string)
    requires |digits| > 0 && AllDigits(digits)
    ensures CleanText("\\" + ColourCode(digits) + "n") == "\n"
  {
    StripBackslashCodeN(digits);
    assert EscapedNewlineAt("\\n", 0);
    assert UnescapeNewlines("\\n") == ['\n'] + UnescapeNewlines([]);
  }

  /** Newline unescaping first: nothing changes, and the colour code is then
      deleted, leaving backslash, `n`. */
  lemma SwappedPassesBackslashCodeN(digits: string)
    requires |digits| > 0 && AllDigits(digits)
    ensures StripColourCodes(UnescapeNewlines("\\" + ColourCode(digits) + "n")) == "\\n"
  {
    UnescapeBackslashCodeN(digits);
    StripBackslashCodeN(digits);
  }

  /** The order of the passes is observable: deleting a colour code can bring
      a backslash next to an `n`, which the second pass then turns into a
      line feed (for `\\u001b[1mn`, say); with the passes swapped the
      result would keep the backslash and the `n`. */
  lemma PassOrderMatters(digits: string)
    requires |digits| > 0 && AllDigits(digits)
    ensures var s := "\\" + ColourCode(digits) + "n";
      && CleanText(s) == "\n"
      && StripColourCodes(UnescapeNewlines(s)) == "\\n"
      && CleanText(s) != StripColourCodes(UnescapeNewlines(s))
  {
    CleanTextBackslashCodeN(digits);
    SwappedPassesBackslashCodeN(digits);
  }

  /** The server's output helper. Falsy values skip serialisation; anything
      else is serialised by `serialize` and cleaned. */
  function Clean(v: Value, serialize: Value -> string): (r: string)
    ensures Falsy(v) ==> r == ""
    ensures Truthy(v) ==> |r| <= |serialize(v)| && NoEscapedNewline(r)
    ensures Truthy(v) && NoBackslash(serialize(v)) ==> r == serialize(v)
  {
    if Falsy(v) then ""
    else
      var json := serialize(v);
      assert NoBackslash(json) ==> CleanText(json) == json by {
        if NoBackslash(json) { CleanTextKeepsBackslashFree(json); }
      }
      CleanText(json)
  }
}

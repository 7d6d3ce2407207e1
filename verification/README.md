# ao-mcp server core, in Dafny

This project models the logic in the `ao-mcp` tool server that is not just a network call. The server's tools spawn processes on the AO compute network, send them messages and render what comes back. Four pieces are modelled:

- **The output helper `cleanOutput`.** A falsy value renders as `""`. Any other value is serialised to JSON and then rewritten by two global replacements, in this order:
  1. delete every escaped colour code: the literal text `\u001b[`, one or more ASCII digits, then `m`;
  2. turn every backslash-`n` pair into a real line feed.

  `CleanOutput.StripColourCodes` and `CleanOutput.UnescapeNewlines` model the two passes as left-to-right recursions. `CleanOutput.CleanText` chains them. `CleanOutput.Clean` adds the truthiness test. The JSON serialiser is a function parameter.
- **Rendering a fetched result.** `send-message-to-process` and `run-handler-using-handler-name` handle a result the same way. A truthy `Error` is rendered. Otherwise `Messages[0].Data` is rendered. `Messages[0]` is read without a check, so an empty `Messages` makes the handler throw a `TypeError`. The code does not treat an empty `Messages` as an error of its own. The model keeps the failure as the explicit reply `DataOfUndefined`.
- **Module selection for `spawn`.** The SQLite module is used exactly when `needsSqlite` is `true`. Otherwise, including when the flag is absent, the standard module is used. The scheduler is fixed and the tags are passed on unchanged.
- **The SQLite prelude.** `create-sqlite-based-handler` puts two fixed Lua lines in front of the handler code.

Files:
- `values.dfy`: JavaScript values and their truthiness.
- `clean_output.dfy`: the two passes and the helper.
- `tools.dfy`: the handlers.

What the proofs show about the helper:
- The colour pass only deletes characters, and it changes its input exactly when a colour code is present.
- One colour pass can leave a colour code behind, so the pass is not idempotent.
- The newline pass shortens the text by exactly one character per backslash-`n` pair, and it is idempotent.
- Applied to a string with only its backslashes and line feeds escaped as JSON does, the newline pass gives back the original text with its backslashes still doubled, exactly when that text held no backslash-`n` of its own. A backslash-free string comes back unchanged.
- Anywhere in a string, a literal backslash-`n` ends up as a backslash and a line feed.
- Text without a backslash comes through the helper unchanged.
- The order of the two passes is observable.

## Model

| member | source | states |
|---|---|---|
| Values.Falsy | src/server.ts:14 | JavaScript's `!v`, also used by `if (output.Error)` at src/server.ts:99 and :233: a value is falsy if and only if it is one of `undefined`, `null`, `false`, `0`, `NaN` and the empty string, so every array and object is truthy |
| CleanOutput.Clean | src/server.ts:13-19 | a falsy value yields `""` whatever the serialiser does; otherwise the result is no longer than the serialised text, contains no backslash-`n` pair, and equals the serialised text when that has no backslash |
| CleanOutput.CleanText | src/server.ts:16-18 | after both passes the text is no longer than the serialised text and contains no backslash-`n` pair |
| CleanOutput.CleanTextFixedPoint | src/server.ts:17-18 | the two passes leave a text unchanged if and only if it contains neither an escaped colour code nor a backslash-`n` pair |
| CleanOutput.CleanTextKeepsBackslashFree | src/server.ts:17-18 | a text containing no backslash passes through both passes unchanged |
| CleanOutput.PassOrderMatters | src/server.ts:16-18 | colour codes are stripped before newlines are unescaped, and the order is observable: for every colour code, a backslash, that code and `n` (such as `\\u001b[1mn`) become one line feed, while the swapped order leaves backslash-`n` |
| CleanOutput.UnescapeNewlines | src/server.ts:18 | the newline pass never makes its input longer, and its output starts with `n` exactly when its input does, since a replaced pair starts with a line feed |
| CleanOutput.StripColourCodes | src/server.ts:17 | the colour pass never makes its input longer |
| CleanOutput.StripIsSubsequence | src/server.ts:17 | the colour pass only deletes characters: its output is a subsequence of its input |
| CleanOutput.StripFixedPoint | src/server.ts:17 | the colour pass changes its input if and only if an escaped colour code starts somewhere in it |
| CleanOutput.StripDropsLeadingCode | src/server.ts:17 | a code made of the intro, any non-empty run of digits and `m` is deleted, whatever text follows it |
| CleanOutput.StripPaintedIsPlain | src/server.ts:17 | stripping backslash-free text interleaved with colour codes gives back exactly the text |
| CleanOutput.StripIsNotIdempotent | src/server.ts:17 | one global pass can leave a colour code behind: an intro, a whole inner code, then digits and `m` (such as `\u001b[\u001b[1m1m`) strip to the outer code, which a second pass deletes, so the pass is not idempotent |
| CleanOutput.UnescapeLength | src/server.ts:18 | the newline pass shortens the text by exactly the number of positions where a backslash-`n` pair starts, since such pairs never overlap |
| CleanOutput.UnescapeLeavesNone | src/server.ts:18 | no backslash-`n` pair survives the newline pass |
| CleanOutput.UnescapeFixedPoint | src/server.ts:18 | the newline pass changes its input if and only if a backslash-`n` pair occurs in it |
| CleanOutput.UnescapeIdempotent | src/server.ts:18 | applying the newline pass twice equals applying it once |
| CleanOutput.UnescapeUndoesEscape | src/server.ts:18 | after escaping only backslashes and line feeds as JSON does (a backslash doubled, a line feed written as backslash-`n`), the newline pass restores every line feed and leaves the backslashes doubled if and only if the original text held no backslash-`n` pair of its own; a text without backslashes comes back exactly |
| CleanOutput.LiteralBackslashBecomesLineBreak | src/server.ts:18 | wherever a literal backslash-`n` stands in a string, its serialised form `\\n` is rendered as a backslash and a line feed, and the text on either side is processed on its own |
| CleanOutput.UnescapeConcat | src/server.ts:18 | the newline pass treats two halves of a text independently when the second half does not start with `n`, since no backslash-`n` pair can straddle them |
| Tools.Render | src/server.ts:99-107 | the reply fails by reading `Data` of an undefined first message exactly when `Error` is falsy and `Messages` is empty; a truthy `Error` is cleaned and rendered; otherwise the first message's `Data` is |
| Tools.RenderIgnoresMessagesOnError | src/server.ts:99-103 | with a truthy `Error` the reply is the same whatever `Messages` holds |
| Tools.RenderUsesFirstMessageOnly | src/server.ts:105-107 | messages after the first never affect the reply |
| Tools.FalsyErrorIsAbsent | src/server.ts:99 | a falsy `Error` (empty string, `false`, `0`, `null`) is treated as no error at all |
| Tools.SendMessageToProcess | src/server.ts:86-107 | the rendered result is the one fetched for the message id the submission returned, from the same process, classified as error text, first-message text or the empty-messages fault |
| Tools.RunHandlerUsingHandlerName | src/server.ts:231-241 | the handler's result is classified the same way: error text, first-message text, or the empty-messages fault |
| Tools.SpawnRequestFor | src/server.ts:57-65 | the SQLite module is chosen if and only if `needsSqlite` is `true`, the standard module otherwise (absent included); the scheduler is fixed and the tags are passed on unchanged |
| Tools.SqliteHandlerCode | src/server.ts:137 | the prepared code starts with the fixed `lsqlite3` prelude and ends with the handler code verbatim |
| Tools.SqliteHandlerCodeRoundTrip | src/server.ts:137 | the handler code can always be recovered from the prepared code, and only prepared code yields it |
| Tools.SqliteHandlerCodeInjective | src/server.ts:137 | different handler code never yields the same prepared code |

## Left out

- `JSON.stringify(value, null, 2)` is a parameter `serialize`, not a model. Its escaping and indentation are built into the runtime. Only its escaping of backslashes and line feeds inside a string is modelled, as `CleanOutput.JsonEscape`, for the lemmas about the newline pass. A serialisation that throws, such as on a cyclic object, is not modelled.
- JavaScript values are limited to undefined, null, booleans, numbers, NaN, strings, arrays and objects. BigInt, symbols and functions are left out, because `JSON.stringify` throws or returns nothing for them. Numbers are exact reals, so floating-point precision is not modelled.
- `Tools.Render`: a result whose `Messages` field is missing entirely (not just empty) is not modelled. It also fails with a `TypeError`, one step earlier: reading `[0]` of undefined rather than `Data` of undefined.
- The aoconnect calls `spawn`, `message`, `result` and `createSigner` and the Arweave wallet generation are network and cryptography libraries. `message`, `result` and `runHandler` are fields of `Tools.Network`. The `spawn` call itself is not modelled; `Tools.SpawnRequestFor` builds its argument, and the reply of the `spawn` tool is simply the process id the network returns. The signer, made by `createSigner` from the generated wallet, is left out of every request.
- A failing network call is not modelled. The `Network` functions are total, so `message`, `result` and `runHandler` always return. In the source, a rejected `message` call ends `send-message-to-process` before any result is fetched, and a rejected `result` or `runHandler` call ends its handler before anything is rendered.
- `sleep(100)` between submitting and fetching is a timing delay with no logical content.
- The helper modules `installPackage`, `addBlueprint`, `fetchBlueprintCode`, `runLuaCode`, `listHandlers`, `addHandler` and `runHandler` are not part of this model. They are foreign calls. Most tools built on them only pass their result to `cleanOutput`. There are two exceptions. `run-handler-using-handler-name` applies the `Error`/`Messages[0]` classification to the `runHandler` result, and `Tools.RunHandlerUsingHandlerName` models that. `load-blueprint` passes the code `fetchBlueprintCode` returns on to `runLuaCode` before cleaning the result (src/server.ts:176-177); both calls are foreign.
- Tool registration with the MCP SDK, zod input validation, and how the SDK reports a handler's thrown error are library behaviour.
- `src/index.ts` (the Express routes, CORS, the SSE transport and health endpoints) is I/O plumbing.

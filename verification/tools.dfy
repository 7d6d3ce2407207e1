/**
 The tool handlers of the server that hold logic of their own: how a
 fetched message result becomes the text of a reply, which module a new
 process runs, and how handler code is prepared for an SQLite-enabled
 process. The compute network itself is a parameter: its calls are
 functions the handlers are given, never implemented here.
 */
module Tools {
  import opened Values
  import opened CleanOutput

  /** A name/value pair attached to a process or a message; order matters. */
  datatype Tag = Tag(name: string, value: string)

  /** One message a process emitted while handling a request. */
  datatype Message = Message(data: Value)

  /** What the network returns for a computed message: an `Error` field
      (Undefined when absent) and the emitted `Messages`. */
  datatype FetchedResult = FetchedResult(error: Value, messages: seq<Message>)

  /** What a handler produces: a reply with one text item, or the
      TypeError raised by reading `Data` of the missing first message. */
  datatype Reply = TextContent(text: string) | DataOfUndefined

  /** The network calls the two result-reading tools depend on. */
  datatype Network = Network(
    message: (string, string, Option<seq<Tag>>) -> string,
    result: (string, string) -> FetchedResult,
    runHandler: (string, string, string) -> FetchedResult)

  // ---------------------------------------------------------------------
  // Rendering a fetched result

  /** A truthy `Error` wins; otherwise the first message's `Data` is shown,
      read without checking that a first message exists. */
  function Render(output: FetchedResult, serialize: Value -> string): (r: Reply)
    ensures r.DataOfUndefined? <==> Falsy(output.error) && |output.messages| == 0
    ensures Truthy(output.error) ==> r == TextContent(Clean(output.error, serialize))
    ensures Falsy(output.error) && |output.messages| > 0 ==>
      r == TextContent(Clean(output.messages[0].data, serialize))
  {
    if Truthy(output.error) then TextContent(Clean(output.error, serialize))
    else if |output.messages| == 0 then DataOfUndefined
    else TextContent(Clean(output.messages[0].data, serialize))
  }

  /** With a truthy `Error`, the messages play no part in the reply. */
  lemma RenderIgnoresMessagesOnError(error: Value, ms1: seq<Message>, ms2: seq<Message>, serialize: Value -> string)
    requires Truthy(error)
    ensures Render(FetchedResult(error, ms1), serialize) == Render(FetchedResult(error, ms2), serialize)
  {
  }

  /** Without a truthy `Error`, only the first message matters: messages
      after it never reach the reply. */
  lemma RenderUsesFirstMessageOnly(error: Value, first: Message, rest1: seq<Message>, rest2: seq<Message>, serialize: Value -> string)
    ensures Render(FetchedResult(error, [first] + rest1), serialize) == Render(FetchedResult(error, [first] + rest2), serialize)
    ensures Falsy(error) ==> Render(FetchedResult(error, [first] + rest1), serialize) == TextContent(Clean(first.data, serialize))
  {
  }

  /** A falsy `Error` value other than Undefined (an empty string, `false`,
      `0`, `null`) is treated exactly like a missing one. */
  lemma FalsyErrorIsAbsent(error: Value, messages: seq<Message>, serialize: Value -> string)
    requires Falsy(error)
    ensures Render(FetchedResult(error, messages), serialize) == Render(FetchedResult(Undefined, messages), serialize)
  {
  }

  // ---------------------------------------------------------------------
  // The two tools that read a fetched result

  /** `send-message-to-process`: submit `data` to the process, then fetch
      the result of the very message the submission identified, from the
      same process, and render it. The pause between the two calls has no
      logical content. */
  function SendMessageToProcess(net: Network, processId: string, data: string, tags: Option<seq<Tag>>,
                                serialize: Value -> string): (r: Reply)
    ensures var output := net.result(net.message(processId, data, tags), processId);
      && (r.DataOfUndefined? <==> Falsy(output.error) && output.messages == [])
      && (Truthy(output.error) ==> r.TextContent? && r.text == Clean(output.error, serialize))
      && (Falsy(output.error) && |output.messages| > 0 ==>
            r.TextContent? && r.text == Clean(output.messages[0].data, serialize))
  {
    var messageId := net.message(processId, data, tags);
    var output := net.result(messageId, processId);
    Render(output, serialize)
  }

  /** `run-handler-using-handler-name`: run the named handler with `data`
      and render its result the same way. */
  function RunHandlerUsingHandlerName(net: Network, processId: string, handlerName: string, data: string,
                                      serialize: Value -> string): (r: Reply)
    ensures var output := net.runHandler(processId, handlerName, data);
      && (r.DataOfUndefined? <==> Falsy(output.error) && output.messages == [])
      && (Truthy(output.error) ==> r.TextContent? && r.text == Clean(output.error, serialize))
      && (Falsy(output.error) && |output.messages| > 0 ==>
            r.TextContent? && r.text == Clean(output.messages[0].data, serialize))
  {
    Render(net.runHandler(processId, handlerName, data), serialize)
  }

  // ---------------------------------------------------------------------
  // Spawning a process

  /** The module of processes that can use SQLite. */
  const SqliteModule: string := "33d-3X8mpv6xYBlVB-eXMrPfH5Kzf6Hiwhcv0UA10sw"
  /** The module of every other process. */
  const StandardModule: string := "JArYBF-D8q2OmZ4Mok00sD2Y_6SYEQ7Hjx-6VZ_jl3g"
  /** The scheduler every process is assigned. */
  const Scheduler: string := "_GQ33BkPtZrqxA84vM8Zk-N2aO0toNNu_C-l-rawrBA"

  datatype SpawnRequest = SpawnRequest(moduleId: string, scheduler: string, tags: seq<Tag>)

  /** The request the `spawn` tool sends: the optional flag picks the module,
      the tags are passed on untouched. */
  function SpawnRequestFor(tags: seq<Tag>, needsSqlite: Option<bool>): (r: SpawnRequest)
    ensures r.moduleId == SqliteModule <==> needsSqlite == Some(true)
    ensures r.moduleId == StandardModule <==> needsSqlite != Some(true)
    ensures r.scheduler == Scheduler
    ensures r.tags == tags
  {
    assert SqliteModule[0] != StandardModule[0];
    var moduleId := if needsSqlite == Some(true) then SqliteModule else StandardModule;
    SpawnRequest(moduleId, Scheduler, tags)
  }

  // ---------------------------------------------------------------------
  // Handler code for an SQLite-enabled process

  /** The two Lua lines that open an in-memory database as `Db`. */
  const SqlitePrelude: string := "local sqlite = require('lsqlite3')\nDb = sqlite.open_memory()\n"

  /** The code `create-sqlite-based-handler` evaluates in the process. */
  function SqliteHandlerCode(handlerCode: string): (r: string)
    ensures |r| == |SqlitePrelude| + |handlerCode|
    ensures r[..|SqlitePrelude|] == SqlitePrelude
    ensures r[|SqlitePrelude|..] == handlerCode
  {
    SqlitePrelude + handlerCode
  }

  /** Recovers the handler code from prepared code, if it is prepared code. */
  function HandlerCodeOf(code: string): (r: Option<string>)
    ensures r.Some? <==> |code| >= |SqlitePrelude| && code[..|SqlitePrelude|] == SqlitePrelude
  {
    if |code| >= |SqlitePrelude| && code[..|SqlitePrelude|] == SqlitePrelude then
      Some(code[|SqlitePrelude|..])
    else
      None
  }

  /** Preparing handler code loses nothing: the prelude can always be taken
      off again, and only prepared code has one to take off. */
  lemma SqliteHandlerCodeRoundTrip(handlerCode: string, code: string)
    ensures HandlerCodeOf(SqliteHandlerCode(handlerCode)) == Some(handlerCode)
    ensures HandlerCodeOf(code) == Some(handlerCode) ==> code == SqliteHandlerCode(handlerCode)
  {
    if HandlerCodeOf(code) == Some(handlerCode) {
      assert code == code[..|SqlitePrelude|] + code[|SqlitePrelude|..];
    }
  }

  /** Different handler code never yields the same prepared code. */
  lemma SqliteHandlerCodeInjective(a: string, b: string)
    requires SqliteHandlerCode(a) == SqliteHandlerCode(b)
    ensures a == b
  {
    SqliteHandlerCodeRoundTrip(a, SqliteHandlerCode(b));
    SqliteHandlerCodeRoundTrip(b, SqliteHandlerCode(b));
  }
}

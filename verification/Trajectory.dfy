/**
 The mini SWE runner (mini_swe_runner.py): the loop that builds the message list, and the
 conversion of that list into a trajectory.

 Texts are values; their JSON and XML wrapping is not modelled.
 */
module Trajectory {
  import opened Sequences

  datatype CallId = CallId(value: string)

  datatype Call = Call(id: CallId, name: string, arguments: string)

  datatype Message =
    | User(content: string)
    | Assistant(reasoning: string, content: string, calls: seq<Call>)
    | Tool(content: string, callId: CallId)

  datatype Response = Response(callId: CallId, name: string, content: string)

  datatype Entry =
    | System
    | Human(text: string)
    | Gpt(reasoning: string, text: string, calls: seq<Call>)
    | ToolResults(responses: seq<Response>)

  // ----- The conversion -----

  /** The first index from i on that is not a tool message. */
  function ToolsEnd(messages: seq<Message>, i: nat): (j: nat)
    requires i <= |messages|
    ensures i <= j <= |messages|
    decreases |messages| - i
  {
    if i < |messages| && messages[i].Tool? then ToolsEnd(messages, i + 1) else i
  }

  function ResponseTo(calls: seq<Call>, k: nat, tool: Message): Response
    requires tool.Tool?
  {
    Response(tool.callId, if k < |calls| then calls[k].name else "unknown", tool.content)
  }

  /** The tool messages i..j as responses, numbered from their assistant message. */
  function Responses(messages: seq<Message>, calls: seq<Call>, i: nat, j: nat): (r: seq<Response>)
    requires i <= j <= |messages| && forall k :: i <= k < j ==> messages[k].Tool?
    ensures |r| == j - i
    decreases j - i
  {
    if i == j then [] else Responses(messages, calls, i, j - 1) + [ResponseTo(calls, j - 1 - i, messages[j - 1])]
  }

  lemma {:induction false} ToolsUpToEnd(messages: seq<Message>, i: nat)
    requires i <= |messages|
    ensures forall k :: i <= k < ToolsEnd(messages, i) ==> messages[k].Tool?
    decreases |messages| - i
  {
    if i < |messages| && messages[i].Tool? {
      ToolsUpToEnd(messages, i + 1);
    }
  }

  function Convert(messages: seq<Message>, i: nat): seq<Entry>
    requires i <= |messages|
    decreases |messages| - i
  {
    if i == |messages| then []
    else
      match messages[i]
      case User(text) => [Human(text)] + Convert(messages, i + 1)
      case Tool(_, _) => Convert(messages, i + 1)
      case Assistant(reasoning, text, calls) =>
        if calls == [] then [Gpt(reasoning, text, [])] + Convert(messages, i + 1)
        else
          var j := ToolsEnd(messages, i + 1);
          ToolsUpToEnd(messages, i + 1);
          var responses := Responses(messages, calls, i + 1, j);
          [Gpt(reasoning, text, calls)]
          + (if responses == [] then [] else [ToolResults(responses)])
          + Convert(messages, j)
  }

  lemma {:induction false} ToolsEndAt(messages: seq<Message>, i: nat, j: nat)
    requires i <= j <= |messages| && forall k :: i <= k < j ==> messages[k].Tool?
    requires j == |messages| || !messages[j].Tool?
    ensures ToolsEnd(messages, i) == j
    decreases j - i
  {
    if i < j {
      ToolsEndAt(messages, i + 1, j);
    }
  }

  /** An assistant message with calls, and the inner loop over the tool messages behind it. */
  method ConvertCalls(messages: seq<Message>, i: nat) returns (entries: seq<Entry>, next: nat)
    requires i < |messages| && messages[i].Assistant? && messages[i].calls != []
    ensures i < next <= |messages| && Convert(messages, i) == entries + Convert(messages, next)
  {
    var Assistant(reasoning, text, calls) := messages[i];
    entries := [Gpt(reasoning, text, calls)];
    var responses: seq<Response> := [];
    var j := i + 1;
    while j < |messages| && messages[j].Tool?
      invariant i + 1 <= j <= |messages|
      invariant forall k :: i + 1 <= k < j ==> messages[k].Tool?
      invariant responses == Responses(messages, calls, i + 1, j)
    {
      responses := responses + [ResponseTo(calls, |responses|, messages[j])];
      j := j + 1;
    }
    ToolsEndAt(messages, i + 1, j);
    ConvertAssistant(messages, i, j, responses);
    next := i + 1;
    if responses != [] {
      entries := entries + [ToolResults(responses)];
      next := j;
    } else {
      assert entries + [] == entries;
    }
  }

  method ConvertMessages(messages: seq<Message>, query: string) returns (trajectory: seq<Entry>)
    requires messages != []
    ensures trajectory == [System, Human(query)] + Convert(messages, 1)
  {
    trajectory := [System, Human(query)];
    var i := 1;
    while i < |messages|
      invariant 1 <= i <= |messages|
      invariant trajectory + Convert(messages, i) == [System, Human(query)] + Convert(messages, 1)
    {
      var entries: seq<Entry> := [];
      var next := i + 1;
      match messages[i] {
        case Assistant(reasoning, text, calls) =>
          if calls != [] {
            entries, next := ConvertCalls(messages, i);
          } else {
            entries := [Gpt(reasoning, text, [])];
          }
        case User(text) => entries := [Human(text)];
        case Tool(_, _) => assert [] + Convert(messages, next) == Convert(messages, next);
      }
      Regroup(trajectory, entries, Convert(messages, next));
      trajectory := trajectory + entries;
      i := next;
    }
    assert trajectory + [] == trajectory;
  }

  lemma Regroup(a: seq<Entry>, b: seq<Entry>, c: seq<Entry>)
    ensures a + (b + c) == a + b + c
  {
  }

  // ----- What run_task builds -----

  datatype Output = Output(text: string, signalsEnd: bool)

  /** A call and the output of running it. */
  datatype Executed = Executed(call: Call, output: Output)

  /** One round: what the model said, and its calls with their outputs. */
  datatype Turn = Turn(content: string, results: seq<Executed>)

  datatype Ending = NoAnswer | FinalAnswer(content: string)

  function CallsOf(results: seq<Executed>): (r: seq<Call>)
    ensures |r| == |results| && forall k :: 0 <= k < |r| ==> r[k] == results[k].call
  {
    seq(|results|, k requires 0 <= k < |results| => results[k].call)
  }

  function ToolMessages(results: seq<Executed>): (r: seq<Message>)
    ensures |r| == |results| && forall k :: 0 <= k < |r| ==> r[k] == Tool(results[k].output.text, results[k].call.id)
  {
    seq(|results|, k requires 0 <= k < |results| => Tool(results[k].output.text, results[k].call.id))
  }

  function TurnMessages(t: Turn): seq<Message> {
    [Assistant("", t.content, CallsOf(t.results))] + ToolMessages(t.results)
  }

  function EndingMessages(e: Ending): seq<Message> {
    match e
    case NoAnswer => []
    case FinalAnswer(text) => [Assistant("", text, [])]
  }

  function Conversation(turns: seq<Turn>): seq<Message> {
    if turns == [] then [] else Conversation(turns[..|turns| - 1]) + TurnMessages(turns[|turns| - 1])
  }

  /** Each call with its own output, in order, under its own name and id. */
  function PairedResults(results: seq<Executed>): (r: seq<Response>)
    ensures |r| == |results|
    ensures forall k :: 0 <= k < |r| ==>
              r[k] == Response(results[k].call.id, results[k].call.name, results[k].output.text)
  {
    seq(|results|, k requires 0 <= k < |results| =>
      Response(results[k].call.id, results[k].call.name, results[k].output.text))
  }

  function TurnEntries(t: Turn): seq<Entry> {
    [Gpt("", t.content, CallsOf(t.results)), ToolResults(PairedResults(t.results))]
  }

  function TurnsEntries(turns: seq<Turn>): seq<Entry> {
    if turns == [] then [] else TurnsEntries(turns[..|turns| - 1]) + TurnEntries(turns[|turns| - 1])
  }

  function EndingEntries(e: Ending): seq<Entry> {
    match e
    case NoAnswer => []
    case FinalAnswer(text) => [Gpt("", text, [])]
  }

  // ----- The trajectory of a conversation -----

  lemma {:induction false} ResponsesArePaired(messages: seq<Message>, results: seq<Executed>, i: nat, j: nat)
    requires i <= j <= i + |results| && j <= |messages|
    requires forall k :: i <= k < j ==> messages[k].Tool? && messages[k] == ToolMessages(results)[k - i]
    ensures Responses(messages, CallsOf(results), i, j) == PairedResults(results)[..j - i]
    decreases j - i
  {
    if i < j {
      ResponsesArePaired(messages, results, i, j - 1);
      var paired := PairedResults(results);
      assert paired[..j - i] == paired[..j - 1 - i] + [paired[j - 1 - i]];
    }
  }

  /** messages[i..j] are those of turn t. */
  ghost predicate TurnStands(messages: seq<Message>, t: Turn, i: nat, j: nat) {
    && j == i + 1 + |t.results| <= |messages|
    && messages[i] == Assistant("", t.content, CallsOf(t.results))
    && forall k :: i + 1 <= k < j ==> messages[k].Tool? && messages[k] == ToolMessages(t.results)[k - (i + 1)]
  }

  lemma TurnInPlace(before: seq<Message>, t: Turn, after: seq<Message>)
    ensures TurnStands(before + TurnMessages(t) + after, t, |before|, |before + TurnMessages(t)|)
  {
    var messages, i, j := before + TurnMessages(t) + after, |before|, |before + TurnMessages(t)|;
    assert messages[i..j] == TurnMessages(t);
    assert messages[i] == messages[i..j][0];
    forall k | i + 1 <= k < j
      ensures messages[k] == ToolMessages(t.results)[k - (i + 1)]
    {
      assert messages[k] == messages[i..j][k - i];
    }
  }

  /** One assistant message with calls, when its tool messages end at j. */
  lemma ConvertAssistant(messages: seq<Message>, i: nat, j: nat, responses: seq<Response>)
    requires i < j <= |messages| && messages[i].Assistant? && messages[i].calls != []
    requires forall k :: i + 1 <= k < j ==> messages[k].Tool?
    requires ToolsEnd(messages, i + 1) == j && responses == Responses(messages, messages[i].calls, i + 1, j)
    ensures Convert(messages, i) == AssistantEntries(messages[i], responses) + Convert(messages, j)
  {
  }

  /** What an assistant message and the responses behind it are converted to. */
  function AssistantEntries(message: Message, responses: seq<Response>): seq<Entry>
    requires message.Assistant?
  {
    [Gpt(message.reasoning, message.content, message.calls)] + if responses == [] then [] else [ToolResults(responses)]
  }

  lemma ConvertAt(messages: seq<Message>, t: Turn, i: nat, j: nat)
    requires t.results != [] && TurnStands(messages, t, i, j)
    requires j == |messages| || !messages[j].Tool?
    ensures Convert(messages, i) == TurnEntries(t) + Convert(messages, j)
  {
    ToolsEndAt(messages, i + 1, j);
    TurnResponses(messages, t, i, j);
    ConvertAssistant(messages, i, j, PairedResults(t.results));
    TurnIsShown(messages[i], t);
  }

  lemma TurnIsShown(message: Message, t: Turn)
    requires t.results != [] && message == Assistant("", t.content, CallsOf(t.results))
    ensures message.calls != [] && AssistantEntries(message, PairedResults(t.results)) == TurnEntries(t)
  {
  }

  lemma TurnResponses(messages: seq<Message>, t: Turn, i: nat, j: nat)
    requires TurnStands(messages, t, i, j)
    ensures Responses(messages, CallsOf(t.results), i + 1, j) == PairedResults(t.results)
  {
    ResponsesArePaired(messages, t.results, i + 1, j);
    assert PairedResults(t.results)[..|t.results|] == PairedResults(t.results);
  }

  /** One turn in front of a message that is no tool message. */
  lemma ConvertTurn(before: seq<Message>, t: Turn, after: seq<Message>)
    requires t.results != [] && (after == [] || !after[0].Tool?)
    ensures Convert(before + TurnMessages(t) + after, |before|)
         == TurnEntries(t) + Convert(before + TurnMessages(t) + after, |before + TurnMessages(t)|)
  {
    TurnInPlace(before, t, after);
    ConvertAt(before + TurnMessages(t) + after, t, |before|, |before + TurnMessages(t)|);
  }

  ghost predicate WithCalls(turns: seq<Turn>) {
    forall i :: 0 <= i < |turns| ==> turns[i].results != []
  }

  /** Converting the turns in front of anything that is no tool message. */
  lemma {:induction false} ConvertTurns(before: seq<Message>, turns: seq<Turn>, after: seq<Message>)
    requires WithCalls(turns) && (after == [] || !after[0].Tool?)
    ensures Convert(before + Conversation(turns) + after, |before|)
         == TurnsEntries(turns) + Convert(before + Conversation(turns) + after, |before + Conversation(turns)|)
    decreases |turns|
  {
    if turns == [] {
      assert before + [] == before;
    } else {
      var init, t := turns[..|turns| - 1], turns[|turns| - 1];
      var tail := TurnMessages(t) + after;
      ConvertTurns(before, init, tail);
      ConvertTurn(before + Conversation(init), t, after);
      Reassociate(before, Conversation(init), TurnMessages(t), after);
      var rest := Convert(before + Conversation(turns) + after, |before + Conversation(turns)|);
      assert TurnsEntries(init) + (TurnEntries(t) + rest) == TurnsEntries(init) + TurnEntries(t) + rest;
    }
  }

  lemma Reassociate(a: seq<Message>, b: seq<Message>, c: seq<Message>, d: seq<Message>)
    ensures a + b + (c + d) == a + b + c + d == a + (b + c) + d
    ensures |a + b + c| == |a + (b + c)|
  {
  }

  /** Any conversation the runner can build converts to its turns, calls paired with their results. */
  lemma ConvertPairsCalls(task: string, turns: seq<Turn>, e: Ending)
    requires WithCalls(turns)
    ensures Convert([User(task)] + Conversation(turns) + EndingMessages(e), 1) == TurnsEntries(turns) + EndingEntries(e)
  {
    var messages := [User(task)] + Conversation(turns) + EndingMessages(e);
    ConvertTurns([User(task)], turns, EndingMessages(e));
    var end := |[User(task)] + Conversation(turns)|;
    if e.FinalAnswer? {
      assert messages[end] == Assistant("", e.content, []);
      assert Convert(messages, end + 1) == [];
    } else {
      assert Convert(messages, end) == [];
    }
  }

  // ----- The loop of run_task -----

  /** What one API call brings: an exception, or a message whose calls have these outputs when run. */
  datatype ApiReply = ApiError | Reply(content: string, results: seq<Executed>)

  ghost predicate Signals(t: Turn) {
    exists k :: 0 <= k < |t.results| && t.results[k].output.signalsEnd
  }

  method RunCalls(t: Turn) returns (tools: seq<Message>, signalled: bool)
    ensures tools == ToolMessages(t.results) && (signalled <==> Signals(t))
  {
    tools, signalled := [], false;
    for k := 0 to |t.results|
      invariant |tools| == k
      invariant forall j :: 0 <= j < k ==> tools[j] == ToolMessages(t.results)[j]
      invariant signalled <==> exists j :: 0 <= j < k && t.results[j].output.signalsEnd
    {
      if t.results[k].output.signalsEnd {
        signalled := true;
      }
      tools := tools + [Tool(t.results[k].output.text, t.results[k].call.id)];
    }
  }

  /** The turns are the replies with calls, and none but the last may have signalled the end. */
  ghost predicate TurnsOf(turns: seq<Turn>, replies: seq<ApiReply>) {
    && |turns| <= |replies|
    && (forall i :: 0 <= i < |turns| ==>
          replies[i] == Reply(turns[i].content, turns[i].results) && turns[i].results != [])
    && (forall i :: 0 <= i < |turns| - 1 ==> !Signals(turns[i]))
  }

  /** A call beyond the turns brought the answer or an exception; without one, a signal or the limit ended the run. */
  ghost predicate StopsInTime(turns: seq<Turn>, ending: Ending, apiCalls: nat, limit: int, replies: seq<ApiReply>) {
    var signalled := turns != [] && Signals(turns[|turns| - 1]);
    && (apiCalls == |turns| ==> ending.NoAnswer? && (signalled || apiCalls >= limit))
    && (apiCalls == |turns| + 1 ==> !signalled)
    && (apiCalls == |turns| + 1 <= |replies| ==> ending.FinalAnswer? || replies[apiCalls - 1].ApiError?)
  }

  /** replies[k] is what API call k brings; the calls made never exceed the limit. */
  method BuildMessages(task: string, maxIterations: int, replies: seq<ApiReply>)
    returns (messages: seq<Message>, completed: bool, apiCalls: nat, ghost turns: seq<Turn>, ghost ending: Ending)
    requires |replies| >= maxIterations
    ensures messages == [User(task)] + Conversation(turns) + EndingMessages(ending)
    ensures apiCalls <= if maxIterations < 0 then 0 else maxIterations
    ensures TurnsOf(turns, replies) && |turns| <= apiCalls <= |turns| + 1
    ensures completed <==> ending.FinalAnswer? || (turns != [] && Signals(turns[|turns| - 1]))
    ensures ending.FinalAnswer? ==> apiCalls > 0 && replies[apiCalls - 1] == Reply(ending.content, [])
    ensures !completed && apiCalls < maxIterations ==> apiCalls > 0 && replies[apiCalls - 1].ApiError?
    ensures StopsInTime(turns, ending, apiCalls, maxIterations, replies)
  {
    messages := [User(task)];
    apiCalls, completed, turns, ending := 0, false, [], NoAnswer;
    while apiCalls < maxIterations
      invariant apiCalls <= if maxIterations < 0 then 0 else maxIterations
      invariant TurnsOf(turns, replies) && |turns| == apiCalls && !completed
      invariant turns != [] ==> !Signals(turns[|turns| - 1])
      invariant messages == [User(task)] + Conversation(turns)
    {
      var reply := replies[apiCalls];
      apiCalls := apiCalls + 1;
      if reply.ApiError? {
        NoEnding(task, turns);
        return;
      }
      if reply.results != [] {
        var t := Turn(reply.content, reply.results);
        var tools, signalled := RunCalls(t);
        AppendTurn(task, turns, t);
        NextTurn(turns, replies, t);
        messages := messages + [Assistant("", reply.content, CallsOf(reply.results))] + tools;
        turns := turns + [t];
        if signalled {
          completed := true;
          NoEnding(task, turns);
          return;
        }
      } else {
        messages := messages + [Assistant("", reply.content, [])];
        ending := FinalAnswer(reply.content);
        completed := true;
        return;
      }
    }
    NoEnding(task, turns);
  }

  lemma NoEnding(task: string, turns: seq<Turn>)
    ensures [User(task)] + Conversation(turns) == [User(task)] + Conversation(turns) + EndingMessages(NoAnswer)
  {
  }

  lemma NextTurn(turns: seq<Turn>, replies: seq<ApiReply>, t: Turn)
    requires TurnsOf(turns, replies) && (turns != [] ==> !Signals(turns[|turns| - 1]))
    requires |turns| < |replies| && replies[|turns|] == Reply(t.content, t.results) && t.results != []
    ensures TurnsOf(turns + [t], replies)
  {
  }

  lemma AppendTurn(task: string, turns: seq<Turn>, t: Turn)
    ensures [User(task)] + Conversation(turns)
            + [Assistant("", t.content, CallsOf(t.results))] + ToolMessages(t.results)
         == [User(task)] + Conversation(turns + [t])
  {
    assert (turns + [t])[..|turns|] == turns;
  }

  /** The trajectory shows every turn of the run with its calls and results paired. */
  method RunTask(task: string, maxIterations: int, replies: seq<ApiReply>)
    returns (trajectory: seq<Entry>, completed: bool, apiCalls: nat, ghost turns: seq<Turn>, ghost ending: Ending)
    requires |replies| >= maxIterations
    ensures trajectory == [System, Human(task)] + (TurnsEntries(turns) + EndingEntries(ending))
    ensures apiCalls <= if maxIterations < 0 then 0 else maxIterations
    ensures TurnsOf(turns, replies) && |turns| <= apiCalls <= |turns| + 1
    ensures completed <==> ending.FinalAnswer? || (turns != [] && Signals(turns[|turns| - 1]))
    ensures ending.FinalAnswer? ==> apiCalls > 0 && replies[apiCalls - 1] == Reply(ending.content, [])
    ensures !completed && apiCalls < maxIterations ==> apiCalls > 0 && replies[apiCalls - 1].ApiError?
    ensures StopsInTime(turns, ending, apiCalls, maxIterations, replies)
  {
    var messages;
    messages, completed, apiCalls, turns, ending := BuildMessages(task, maxIterations, replies);
    ConvertPairsCalls(task, turns, ending);
    trajectory := ConvertMessages(messages, task);
  }

  // ----- Conversions of any message list -----

  /** What somebody says, other than the results of tools. */
  predicate IsSpeech(m: Message) {
    !m.Tool?
  }

  predicate IsSpoken(e: Entry) {
    !e.ToolResults?
  }

  function Speech(m: Message): Entry {
    match m
    case User(text) => Human(text)
    case Assistant(reasoning, text, calls) => Gpt(reasoning, text, calls)
    case Tool(_, _) => System
  }

  lemma {:induction false} NoSpeechInTools(messages: seq<Message>, i: nat, j: nat)
    requires i <= j <= |messages| && forall k :: i <= k < j ==> messages[k].Tool?
    ensures Filter(IsSpeech, messages[i..]) == Filter(IsSpeech, messages[j..])
    decreases j - i
  {
    if i < j {
      NoSpeechInTools(messages, i + 1, j);
      assert messages[i..] == [messages[i]] + messages[i + 1..];
      FilterCons(IsSpeech, messages[i], messages[i + 1..]);
    }
  }

  lemma SpokenCons(e: Entry, tools: seq<Entry>, rest: seq<Entry>)
    requires IsSpoken(e) && (tools == [] || (|tools| == 1 && !IsSpoken(tools[0])))
    ensures Filter(IsSpoken, [e] + tools + rest) == [e] + Filter(IsSpoken, rest)
  {
    assert [e] + tools + rest == [e] + (tools + rest);
    FilterCons(IsSpoken, e, tools + rest);
    if tools == [] {
      assert tools + rest == rest;
    } else {
      assert tools + rest == [tools[0]] + rest;
      FilterCons(IsSpoken, tools[0], rest);
    }
  }

  /** One thing said, perhaps the results of tools behind it, and the rest. */
  lemma ConvertOne(messages: seq<Message>, i: nat) returns (j: nat, tools: seq<Entry>)
    requires i < |messages| && !messages[i].Tool?
    ensures i < j <= |messages| && forall k :: i + 1 <= k < j ==> messages[k].Tool?
    ensures tools == [] || (|tools| == 1 && !IsSpoken(tools[0]))
    ensures Convert(messages, i) == [Speech(messages[i])] + tools + Convert(messages, j)
  {
    var m := messages[i];
    if m.Assistant? && m.calls != [] {
      j := ToolsEnd(messages, i + 1);
      ToolsUpToEnd(messages, i + 1);
      var responses := Responses(messages, m.calls, i + 1, j);
      tools := if responses == [] then [] else [ToolResults(responses)];
    } else {
      j, tools := i + 1, [];
      assert [Speech(m)] + tools == [Speech(m)];
    }
  }

  /** Whatever was said from message i on is in the conversion, in order, and nothing else is. */
  ghost predicate AllSaid(messages: seq<Message>, i: nat)
    requires i <= |messages|
  {
    Filter(IsSpoken, Convert(messages, i)) == Map(Speech, Filter(IsSpeech, messages[i..]))
  }

  lemma SpeechFrom(messages: seq<Message>, i: nat)
    requires i < |messages|
    ensures Filter(IsSpeech, messages[i..])
         == if IsSpeech(messages[i]) then [messages[i]] + Filter(IsSpeech, messages[i + 1..])
            else Filter(IsSpeech, messages[i + 1..])
  {
    assert messages[i..] == [messages[i]] + messages[i + 1..];
    FilterCons(IsSpeech, messages[i], messages[i + 1..]);
  }

  lemma OneMoreSaid(messages: seq<Message>, i: nat, j: nat, tools: seq<Entry>)
    requires i < j <= |messages| && !messages[i].Tool? && AllSaid(messages, j)
    requires forall k :: i + 1 <= k < j ==> messages[k].Tool?
    requires tools == [] || (|tools| == 1 && !IsSpoken(tools[0]))
    requires Convert(messages, i) == [Speech(messages[i])] + tools + Convert(messages, j)
    ensures AllSaid(messages, i)
  {
    SpeechFrom(messages, i);
    NoSpeechInTools(messages, i + 1, j);
    MapCons(Speech, messages[i], Filter(IsSpeech, messages[j..]));
    SpokenCons(Speech(messages[i]), tools, Convert(messages, j));
  }

  /** For any messages at all. */
  lemma {:induction false} NothingSaidIsLost(messages: seq<Message>, i: nat)
    requires i <= |messages|
    ensures AllSaid(messages, i)
    decreases |messages| - i
  {
    if i < |messages| {
      if messages[i].Tool? {
        SpeechFrom(messages, i);
        NothingSaidIsLost(messages, i + 1);
      } else {
        var j, tools := ConvertOne(messages, i);
        NothingSaidIsLost(messages, j);
        OneMoreSaid(messages, i, j, tools);
      }
    }
  }

  /** A tool message beyond the calls of its turn is kept, under the name of an unknown tool. */
  lemma ExtraToolIsUnknown(calls: seq<Call>, k: nat, content: string, id: CallId)
    ensures ResponseTo(calls, k, Tool(content, id)) ==
            Response(id, if k < |calls| then calls[k].name else "unknown", content)
  {
  }
}

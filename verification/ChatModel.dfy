/**
  The chat session of the terminal app as values: what one operation does to it, and, said of the
  whole history at once, what it then holds.
 */
module ChatModel {
  import opened Wrappers

  datatype BlockType = TEXT | REASONING | TOOL_CALL

  datatype ToolState = STARTED | COMPLETED | FAILED

  type Arguments = map<string, string>

  /** Normalized runtime events; `Other` stands for block starts and ends and tool updates. */
  datatype Event =
    | RunStart(query: string)
    | BlockDelta(blockType: BlockType, text: string)
    | ToolStart(id: string, name: string, arguments: Arguments)
    | ToolEnd(id: string, name: string, state: ToolState, summary: Option<string>)
    | ErrorEvent(error: string)
    | RunEnd(message: string)
    | Other

  datatype Op = StartTurn(userText: string) | ClearAll | Apply(event: Event)

  datatype Message = Message(role: string, content: string)

  datatype TranscriptTurn = TranscriptTurn(role: string, content: string)

  datatype Tool = Tool(id: string, name: string, status: ToolState, arguments: Arguments, summary: Option<string>)

  datatype Run = Run(
    query: string,
    response: string,
    reasoning: string,
    tools: seq<Tool>,
    isStreaming: bool,
    error: Option<string>,
    result: Option<string>)

  datatype Chat = Chat(messages: seq<Message>, transcript: seq<TranscriptTurn>, run: Option<Run>)

  const USER := "user"
  const ASSISTANT := "assistant"

  // ---- one operation ----

  function NewRun(query: string): Run {
    Run(query, "", "", [], true, None, None)
  }

  /** Index of the tool with this id, or the number of tools. */
  function FindTool(tools: seq<Tool>, id: string): (i: nat)
    ensures i <= |tools|
    ensures i < |tools| ==> tools[i].id == id
    ensures forall k :: 0 <= k < i ==> tools[k].id != id
  {
    if tools == [] || tools[0].id == id then 0 else 1 + FindTool(tools[1..], id)
  }

  /** The tools with the one called `id` changed, or `added` appended when there is none. */
  function WithTool(tools: seq<Tool>, id: string, changed: Tool -> Tool, added: Tool): seq<Tool> {
    var i := FindTool(tools, id);
    if i < |tools| then tools[i := changed(tools[i])] else tools + [added]
  }

  function Started(e: Event): Tool -> Tool
    requires e.ToolStart?
  {
    (t: Tool) => t.(name := e.name, status := STARTED, arguments := e.arguments)
  }

  function Ended(e: Event): Tool -> Tool
    requires e.ToolEnd?
  {
    (t: Tool) => t.(status := e.state, summary := e.summary)
  }

  /** What an event does to the run that is live. */
  function NextRun(run: Run, e: Event): Run {
    match e
    case RunStart(query) => if run.query == "" then run.(query := query) else run
    case BlockDelta(blockType, text) =>
      if blockType.REASONING? then run.(reasoning := run.reasoning + text) else run.(response := run.response + text)
    case ToolStart(id, name, arguments) =>
      run.(tools := WithTool(run.tools, id, Started(e), Tool(id, name, STARTED, arguments, None)))
    case ToolEnd(id, name, state, summary) =>
      run.(tools := WithTool(run.tools, id, Ended(e), Tool(id, name, state, map[], summary)))
    case ErrorEvent(error) => run.(error := Some(error), isStreaming := false)
    case RunEnd(message) => run.(isStreaming := false, result := Some(message), response := message)
    case Other => run
  }

  function Say(chat: Chat, role: string, content: string): Chat {
    chat.(messages := chat.messages + [Message(role, content)],
          transcript := chat.transcript + [TranscriptTurn(role, content)])
  }

  function Step(chat: Chat, op: Op): Chat {
    match op
    case StartTurn(text) => Say(chat, USER, text).(run := Some(NewRun(text)))
    case ClearAll => Chat([], [], None)
    case Apply(e) =>
      var run := if chat.run.Some? then chat.run.value else NewRun("");
      var after := chat.(run := Some(NextRun(run, e)));
      if e.RunEnd? && e.message != "" then Say(after, ASSISTANT, e.message) else after
  }

  const EMPTY := Chat([], [], None)

  function After(history: seq<Op>): Chat {
    if history == [] then EMPTY else Step(After(history[..|history| - 1]), history[|history| - 1])
  }

  // ---- the history as a whole ----

  /** The operations since the chat was last cleared. */
  function SinceClear(history: seq<Op>): seq<Op> {
    if history == [] || history[|history| - 1].ClearAll? then []
    else SinceClear(history[..|history| - 1]) + [history[|history| - 1]]
  }

  /** The events since the last turn was started or the chat cleared. */
  function LiveEvents(history: seq<Op>): seq<Event> {
    if history == [] || !history[|history| - 1].Apply? then []
    else LiveEvents(history[..|history| - 1]) + [history[|history| - 1].event]
  }

  /** The text that opened the live turn, if a turn did. */
  function Opening(history: seq<Op>): Option<string> {
    if history == [] then None
    else
      match history[|history| - 1]
      case StartTurn(text) => Some(text)
      case ClearAll => None
      case Apply(_) => Opening(history[..|history| - 1])
  }

  /** What one operation says, if it says anything. */
  function Said(op: Op): seq<Message> {
    match op
    case StartTurn(text) => [Message(USER, text)]
    case Apply(RunEnd(message)) => if message != "" then [Message(ASSISTANT, message)] else []
    case _ => []
  }

  function Conversation(ops: seq<Op>): seq<Message> {
    if ops == [] then [] else Conversation(ops[..|ops| - 1]) + Said(ops[|ops| - 1])
  }

  /** Just after the last run end; 0 if there is none. */
  function AfterLastRunEnd(events: seq<Event>): (k: nat)
    ensures k <= |events|
    ensures k > 0 ==> events[k - 1].RunEnd?
    ensures forall i :: k <= i < |events| ==> !events[i].RunEnd?
  {
    if events == [] then 0
    else if events[|events| - 1].RunEnd? then |events|
    else AfterLastRunEnd(events[..|events| - 1])
  }

  /** The deltas of one kind, in order. */
  function Deltas(events: seq<Event>, reasoning: bool): string {
    if events == [] then ""
    else
      var e := events[|events| - 1];
      Deltas(events[..|events| - 1], reasoning)
      + (if e.BlockDelta? && e.blockType.REASONING? == reasoning then e.text else "")
  }

  /** The last run end's message, if any, followed by the response deltas after it. */
  function Response(events: seq<Event>): string {
    var k := AfterLastRunEnd(events);
    (if k > 0 then events[k - 1].message else "") + Deltas(events[k..], false)
  }

  /** The first text that is not empty: the turn's own, or else a run start's. */
  function Query(opening: string, events: seq<Event>): string
    decreases |events|
  {
    if opening != "" then opening
    else if events == [] then ""
    else Query(if events[0].RunStart? then events[0].query else "", events[1..])
  }

  predicate ToolEvent(e: Event) {
    e.ToolStart? || e.ToolEnd?
  }

  predicate About(e: Event, id: string) {
    ToolEvent(e) && e.id == id
  }

  /** The ids of tool events in order of first appearance. */
  function ToolIds(events: seq<Event>): seq<string> {
    if events == [] then []
    else
      var ids := ToolIds(events[..|events| - 1]);
      var e := events[|events| - 1];
      if ToolEvent(e) && e.id !in ids then ids + [e.id] else ids
  }

  /** Index of the last start (or end) of `id`, -1 if there is none. */
  function LastStart(events: seq<Event>, id: string): (k: int)
    ensures -1 <= k < |events|
    ensures k >= 0 ==> events[k].ToolStart? && events[k].id == id
    ensures forall i :: k < i < |events| ==> !(events[i].ToolStart? && events[i].id == id)
  {
    if events == [] then -1
    else
      var e := events[|events| - 1];
      if e.ToolStart? && e.id == id then |events| - 1 else LastStart(events[..|events| - 1], id)
  }

  function LastEnd(events: seq<Event>, id: string): (k: int)
    ensures -1 <= k < |events|
    ensures k >= 0 ==> events[k].ToolEnd? && events[k].id == id
    ensures forall i :: k < i < |events| ==> !(events[i].ToolEnd? && events[i].id == id)
  {
    if events == [] then -1
    else
      var e := events[|events| - 1];
      if e.ToolEnd? && e.id == id then |events| - 1 else LastEnd(events[..|events| - 1], id)
  }

  function FirstEndName(events: seq<Event>, id: string): string {
    if events == [] then ""
    else if events[0].ToolEnd? && events[0].id == id then events[0].name
    else FirstEndName(events[1..], id)
  }

  /**
    A tool's record: status from its latest event, name and arguments from its latest start, or
    the name of its first end if it never started, summary from its latest end.
   */
  function ToolRecord(events: seq<Event>, id: string): Tool {
    RecordOf(events, id, LastStart(events, id), LastEnd(events, id), FirstEndName(events, id))
  }

  /** At `k` is a tool's start, or else its end; at -1 there is nothing. */
  predicate EventAt(events: seq<Event>, k: int, start: bool) {
    -1 <= k < |events| && (k >= 0 ==> if start then events[k].ToolStart? else events[k].ToolEnd?)
  }

  function RecordOf(events: seq<Event>, id: string, s: int, e: int, firstEndName: string): Tool
    requires EventAt(events, s, true) && EventAt(events, e, false)
  {
    Tool(id,
         if s >= 0 then events[s].name else firstEndName,
         if e > s then events[e].state else STARTED,
         if s >= 0 then events[s].arguments else map[],
         if e >= 0 then events[e].summary else None)
  }

  function ToolRecords(events: seq<Event>): seq<Tool> {
    var ids := ToolIds(events);
    seq(|ids|, i requires 0 <= i < |ids| => ToolRecord(events, ids[i]))
  }

  predicate Finishes(e: Event) {
    e.ErrorEvent? || e.RunEnd?
  }

  function LastError(events: seq<Event>): Option<string> {
    if events == [] then None
    else if events[|events| - 1].ErrorEvent? then Some(events[|events| - 1].error)
    else LastError(events[..|events| - 1])
  }

  function LastResult(events: seq<Event>): Option<string> {
    var k := AfterLastRunEnd(events);
    if k > 0 then Some(events[k - 1].message) else None
  }

  function DeclaredRun(opening: string, events: seq<Event>): Run {
    Run(Query(opening, events),
        Response(events),
        Deltas(events, true),
        ToolRecords(events),
        forall i :: 0 <= i < |events| ==> !Finishes(events[i]),
        LastError(events),
        LastResult(events))
  }

  function Mirror(messages: seq<Message>): seq<TranscriptTurn> {
    seq(|messages|, i requires 0 <= i < |messages| => TranscriptTurn(messages[i].role, messages[i].content))
  }

  /** The live run: none before a turn has opened it or an event has come. */
  function LiveRun(opening: Option<string>, events: seq<Event>): Option<Run> {
    match opening
    case Some(text) => Some(DeclaredRun(text, events))
    case None => if events == [] then None else Some(DeclaredRun("", events))
  }

  /** What the session holds after `history`. */
  function Declared(history: seq<Op>): Chat {
    var messages := Conversation(SinceClear(history));
    Chat(messages, Mirror(messages), LiveRun(Opening(history), LiveEvents(history)))
  }

  // ---- one more event ----

  lemma {:induction false} QueryNext(opening: string, events: seq<Event>, e: Event)
    ensures Query(opening, events + [e])
         == if Query(opening, events) == "" && e.RunStart? then e.query else Query(opening, events)
    decreases |events|
  {
    if opening == "" && events != [] {
      assert (events + [e])[1..] == events[1..] + [e];
      QueryNext(if events[0].RunStart? then events[0].query else "", events[1..], e);
    } else if events == [] {
      assert (events + [e])[1..] == [];
    }
  }

  lemma DeltasNext(events: seq<Event>, e: Event, reasoning: bool)
    ensures Deltas(events + [e], reasoning)
         == Deltas(events, reasoning) + (if e.BlockDelta? && e.blockType.REASONING? == reasoning then e.text else "")
  {
    assert (events + [e])[..|events|] == events;
  }

  lemma AfterLastRunEndNext(events: seq<Event>, e: Event)
    ensures AfterLastRunEnd(events + [e]) == if e.RunEnd? then |events| + 1 else AfterLastRunEnd(events)
  {
    assert (events + [e])[..|events|] == events;
  }

  lemma ResponseNext(events: seq<Event>, e: Event)
    ensures Response(events + [e])
         == if e.RunEnd? then e.message
            else Response(events) + (if e.BlockDelta? && !e.blockType.REASONING? then e.text else "")
    ensures LastResult(events + [e]) == if e.RunEnd? then Some(e.message) else LastResult(events)
  {
    AfterLastRunEndNext(events, e);
    if e.RunEnd? {
      NothingAfter(events + [e]);
    } else {
      SinceRunEndNext(events, e, AfterLastRunEnd(events));
    }
  }

  lemma NothingAfter(events: seq<Event>)
    ensures Deltas(events[|events|..], false) == ""
  {
  }

  lemma SinceRunEndNext(events: seq<Event>, e: Event, k: nat)
    requires k <= |events|
    requires k > 0 ==> events[k - 1].RunEnd?
    ensures k > 0 ==> (events + [e])[k - 1] == events[k - 1]
    ensures var message := if k > 0 then events[k - 1].message else "";
            message + Deltas((events + [e])[k..], false)
            == message + Deltas(events[k..], false)
               + (if e.BlockDelta? && !e.blockType.REASONING? then e.text else "")
  {
    assert (events + [e])[k..] == events[k..] + [e];
    DeltasNext(events[k..], e, false);
    ConcatAssoc(if k > 0 then events[k - 1].message else "", Deltas(events[k..], false),
                if e.BlockDelta? && !e.blockType.REASONING? then e.text else "");
  }

  lemma ConcatAssoc(a: string, b: string, c: string)
    ensures (a + b) + c == a + (b + c)
  {
  }

  lemma FinishedNext(events: seq<Event>, e: Event)
    ensures LastError(events + [e]) == if e.ErrorEvent? then Some(e.error) else LastError(events)
    ensures (forall i :: 0 <= i < |events + [e]| ==> !Finishes((events + [e])[i]))
            <==> (forall i :: 0 <= i < |events| ==> !Finishes(events[i])) && !Finishes(e)
  {
    var l := events + [e];
    assert l[..|events|] == events;
    assert l[|events|] == e;
    assert forall i :: 0 <= i < |events| ==> l[i] == events[i];
  }

  /** The ids are pairwise distinct and are those of the tool events. */
  lemma {:induction false} ToolIdsDistinct(events: seq<Event>)
    ensures forall i, j :: 0 <= i < j < |ToolIds(events)| ==> ToolIds(events)[i] != ToolIds(events)[j]
    ensures forall id :: id in ToolIds(events) <==> exists k :: 0 <= k < |events| && About(events[k], id)
  {
    if events == [] {
    } else {
      var n := |events| - 1;
      ToolIdsDistinct(events[..n]);
      forall id ensures id in ToolIds(events) <==> exists k :: 0 <= k < |events| && About(events[k], id) {
        if exists k :: 0 <= k < |events| && About(events[k], id) {
          var k :| 0 <= k < |events| && About(events[k], id);
          assert k < n ==> About(events[..n][k], id);
        }
        if id in ToolIds(events[..n]) {
          var k :| 0 <= k < n && About(events[..n][k], id);
          assert About(events[k], id);
        }
        assert ToolEvent(events[n]) ==> About(events[n], events[n].id);
      }
    }
  }

  // ---- the tools after one more event ----

  lemma LastNext(events: seq<Event>, e: Event, id: string)
    ensures LastStart(events + [e], id) == if e.ToolStart? && e.id == id then |events| else LastStart(events, id)
    ensures LastEnd(events + [e], id) == if e.ToolEnd? && e.id == id then |events| else LastEnd(events, id)
    ensures ToolIds(events + [e])
         == if ToolEvent(e) && e.id !in ToolIds(events) then ToolIds(events) + [e.id] else ToolIds(events)
  {
    assert (events + [e])[..|events|] == events;
  }

  lemma {:induction false} FirstEndNameNext(events: seq<Event>, e: Event, id: string)
    ensures FirstEndName(events + [e], id)
         == if LastEnd(events, id) < 0 && e.ToolEnd? && e.id == id then e.name else FirstEndName(events, id)
  {
    var l := events + [e];
    if events == [] {
      assert l[1..] == [];
    } else {
      assert l[1..] == events[1..] + [e];
      FirstEndNameNext(events[1..], e, id);
      LastEndTail(events, id);
    }
  }

  lemma {:induction false} LastEndTail(events: seq<Event>, id: string)
    requires events != []
    ensures LastEnd(events, id) < 0 <==> !(events[0].ToolEnd? && events[0].id == id) && LastEnd(events[1..], id) < 0
  {
    var k, m := LastEnd(events, id), LastEnd(events[1..], id);
    if m >= 0 {
      assert events[m + 1] == events[1..][m];
    }
    if k > 0 {
      assert events[1..][k - 1] == events[k];
    }
  }

  /** A tool is listed exactly when one of its events has come. */
  lemma {:induction false} ListedIffSeen(events: seq<Event>, id: string)
    ensures id in ToolIds(events) <==> LastStart(events, id) >= 0 || LastEnd(events, id) >= 0
  {
    if events == [] {
    } else {
      ListedIffSeen(events[..|events| - 1], id);
    }
  }

  lemma OlderRecord(events: seq<Event>, e: Event, id: string, s: int, k: int, name: string)
    requires EventAt(events, s, true) && EventAt(events, k, false)
    ensures EventAt(events + [e], s, true) && EventAt(events + [e], k, false)
    ensures RecordOf(events + [e], id, s, k, name) == RecordOf(events, id, s, k, name)
  {
    var l := events + [e];
    assert forall i :: 0 <= i < |events| ==> l[i] == events[i];
  }

  lemma NewStart(events: seq<Event>, e: Event, id: string, k: int, name: string)
    requires e.ToolStart? && EventAt(events, k, false)
    ensures EventAt(events + [e], |events|, true) && EventAt(events + [e], k, false)
    ensures RecordOf(events + [e], id, |events|, k, name)
         == Tool(id, e.name, STARTED, e.arguments, if k >= 0 then events[k].summary else None)
  {
    var l := events + [e];
    assert l[|events|] == e && forall i :: 0 <= i < |events| ==> l[i] == events[i];
  }

  lemma NewEnd(events: seq<Event>, e: Event, id: string, s: int, name: string)
    requires e.ToolEnd? && EventAt(events, s, true)
    ensures EventAt(events + [e], s, true) && EventAt(events + [e], |events|, false)
    ensures RecordOf(events + [e], id, s, |events|, name)
         == Tool(id, if s >= 0 then events[s].name else name, e.state,
                 if s >= 0 then events[s].arguments else map[], e.summary)
  {
    var l := events + [e];
    assert l[|events|] == e && forall i :: 0 <= i < |events| ==> l[i] == events[i];
  }

  /** An event about another tool leaves the record as it was. */
  lemma OtherRecordNext(events: seq<Event>, e: Event, id: string)
    requires !About(e, id)
    ensures ToolRecord(events + [e], id) == ToolRecord(events, id)
  {
    LastNext(events, e, id);
    FirstEndNameNext(events, e, id);
    OlderRecord(events, e, id, LastStart(events, id), LastEnd(events, id), FirstEndName(events, id));
  }

  lemma StartRecordNext(events: seq<Event>, e: Event)
    requires e.ToolStart?
    ensures ToolRecord(events + [e], e.id)
         == if e.id !in ToolIds(events) then Tool(e.id, e.name, STARTED, e.arguments, None)
            else Started(e)(ToolRecord(events, e.id))
  {
    LastNext(events, e, e.id);
    FirstEndNameNext(events, e, e.id);
    ListedIffSeen(events, e.id);
    NewStart(events, e, e.id, LastEnd(events, e.id), FirstEndName(events, e.id));
  }

  lemma EndRecordNext(events: seq<Event>, e: Event)
    requires e.ToolEnd?
    ensures ToolRecord(events + [e], e.id)
         == if e.id !in ToolIds(events) then Tool(e.id, e.name, e.state, map[], e.summary)
            else Ended(e)(ToolRecord(events, e.id))
  {
    LastNext(events, e, e.id);
    FirstEndNameNext(events, e, e.id);
    ListedIffSeen(events, e.id);
    NewEnd(events, e, e.id, LastStart(events, e.id), FirstEndName(events + [e], e.id));
  }

  /** What one more event does to the record of one tool. */
  lemma ToolRecordNext(events: seq<Event>, e: Event, id: string)
    ensures ToolRecord(events + [e], id)
         == if !About(e, id) then ToolRecord(events, id)
            else if id !in ToolIds(events) then
              if e.ToolStart? then Tool(id, e.name, STARTED, e.arguments, None)
              else Tool(id, e.name, e.state, map[], e.summary)
            else if e.ToolStart? then Started(e)(ToolRecord(events, id))
            else Ended(e)(ToolRecord(events, id))
  {
    if !About(e, id) {
      OtherRecordNext(events, e, id);
    } else if e.ToolStart? {
      StartRecordNext(events, e);
    } else {
      EndRecordNext(events, e);
    }
  }

  lemma FindRecord(events: seq<Event>, id: string)
    ensures var ids := ToolIds(events);
            var f := FindTool(ToolRecords(events), id);
            f <= |ids| && (f < |ids| <==> id in ids) && (f < |ids| ==> ids[f] == id)
  {
    var ids := ToolIds(events);
    if id in ids {
      var i :| 0 <= i < |ids| && ids[i] == id;
      assert ToolRecords(events)[i].id == id;
    }
  }

  /** One more event about `id` leaves the records of the other tools as they were. */
  lemma OtherRecordsStay(events: seq<Event>, e: Event, i: nat)
    requires i < |ToolIds(events)|
    ensures ToolIds(events) <= ToolIds(events + [e])
    ensures !About(e, ToolIds(events)[i]) ==> ToolRecords(events + [e])[i] == ToolRecords(events)[i]
  {
    LastNext(events, e, "");
    ToolRecordNext(events, e, ToolIds(events)[i]);
  }

  lemma NewToolNext(events: seq<Event>, e: Event)
    requires ToolEvent(e) && e.id !in ToolIds(events)
    ensures ToolRecords(events + [e]) == ToolRecords(events) + [ToolRecord(events + [e], e.id)]
  {
    LastNext(events, e, e.id);
    forall i | 0 <= i < |ToolIds(events)| ensures ToolRecords(events + [e])[i] == ToolRecords(events)[i] {
      OtherRecordsStay(events, e, i);
    }
  }

  lemma OldToolNext(events: seq<Event>, e: Event, f: nat)
    requires ToolEvent(e) && f < |ToolIds(events)| && ToolIds(events)[f] == e.id
    ensures ToolRecords(events + [e]) == ToolRecords(events)[f := ToolRecord(events + [e], e.id)]
  {
    LastNext(events, e, e.id);
    ToolIdsDistinct(events);
    forall i | 0 <= i < |ToolIds(events)| && i != f ensures ToolRecords(events + [e])[i] == ToolRecords(events)[i] {
      OtherRecordsStay(events, e, i);
    }
  }

  lemma ToolRecordsNext(events: seq<Event>, e: Event)
    requires ToolEvent(e)
    ensures ToolRecords(events + [e])
         == if e.ToolStart?
            then WithTool(ToolRecords(events), e.id, Started(e), Tool(e.id, e.name, STARTED, e.arguments, None))
            else WithTool(ToolRecords(events), e.id, Ended(e), Tool(e.id, e.name, e.state, map[], e.summary))
  {
    FindRecord(events, e.id);
    ToolRecordNext(events, e, e.id);
    var f := FindTool(ToolRecords(events), e.id);
    if f < |ToolIds(events)| {
      OldToolNext(events, e, f);
    } else {
      NewToolNext(events, e);
    }
  }

  lemma OtherToolsStay(events: seq<Event>, e: Event)
    requires !ToolEvent(e)
    ensures ToolRecords(events + [e]) == ToolRecords(events)
  {
    LastNext(events, e, "");
    var ids := ToolIds(events);
    forall i | 0 <= i < |ids| ensures ToolRecords(events + [e])[i] == ToolRecords(events)[i] {
      ToolRecordNext(events, e, ids[i]);
    }
  }

  lemma DeclaredToolsNext(run: Run, events: seq<Event>, e: Event)
    requires run.tools == ToolRecords(events)
    ensures ToolRecords(events + [e]) == NextRun(run, e).tools
  {
    if ToolEvent(e) {
      ToolRecordsNext(events, e);
    } else {
      OtherToolsStay(events, e);
    }
  }

  /** One more event changes the declared run as the event reducer changes the live one. */
  lemma DeclaredRunNext(opening: string, events: seq<Event>, e: Event)
    ensures DeclaredRun(opening, events + [e]) == NextRun(DeclaredRun(opening, events), e)
  {
    DeclaredToolsNext(DeclaredRun(opening, events), events, e);
    QueryNext(opening, events, e);
    ResponseNext(events, e);
    DeltasNext(events, e, true);
    FinishedNext(events, e);
  }

  // ---- every history ----

  lemma MirrorNext(messages: seq<Message>, m: Message)
    ensures Mirror(messages + [m]) == Mirror(messages) + [TranscriptTurn(m.role, m.content)]
  {
  }

  lemma ConversationNext(history: seq<Op>, op: Op)
    ensures Conversation(SinceClear(history + [op]))
         == if op.ClearAll? then [] else Conversation(SinceClear(history)) + Said(op)
  {
    assert (history + [op])[..|history|] == history;
    if !op.ClearAll? {
      assert SinceClear(history + [op])[..|SinceClear(history)|] == SinceClear(history);
    }
  }

  lemma DeclaredTurn(history: seq<Op>, text: string)
    ensures Declared(history + [StartTurn(text)]) == Step(Declared(history), StartTurn(text))
  {
    assert (history + [StartTurn(text)])[..|history|] == history;
    ConversationNext(history, StartTurn(text));
    MirrorNext(Conversation(SinceClear(history)), Message(USER, text));
    EmptyRun(text);
  }

  lemma LiveRunNext(opening: Option<string>, events: seq<Event>, e: Event)
    ensures var run := LiveRun(opening, events);
            LiveRun(opening, events + [e]) == Some(NextRun(if run.Some? then run.value else NewRun(""), e))
  {
    EmptyRun("");
    DeclaredRunNext(if opening.Some? then opening.value else "", events, e);
  }

  lemma DeclaredRunOf(history: seq<Op>, e: Event)
    ensures var run := Declared(history).run;
            Declared(history + [Apply(e)]).run == Some(NextRun(if run.Some? then run.value else NewRun(""), e))
  {
    assert (history + [Apply(e)])[..|history|] == history;
    LiveRunNext(Opening(history), LiveEvents(history), e);
  }

  lemma DeclaredEvent(history: seq<Op>, e: Event)
    ensures Declared(history + [Apply(e)]) == Step(Declared(history), Apply(e))
  {
    DeclaredRunOf(history, e);
    ConversationNext(history, Apply(e));
    var messages := Conversation(SinceClear(history));
    if e.RunEnd? && e.message != "" {
      MirrorNext(messages, Message(ASSISTANT, e.message));
    } else {
      assert messages + Said(Apply(e)) == messages;
    }
  }

  lemma DeclaredNext(history: seq<Op>, op: Op)
    ensures Declared(history + [op]) == Step(Declared(history), op)
  {
    match op
    case StartTurn(text) => DeclaredTurn(history, text);
    case ClearAll => ConversationNext(history, op);
    case Apply(e) => DeclaredEvent(history, e);
  }

  lemma EmptyRun(query: string)
    ensures DeclaredRun(query, []) == NewRun(query)
  {
  }

  /** After any sequence of operations the session holds what its history says. */
  lemma {:induction false} AfterIsDeclared(history: seq<Op>)
    ensures After(history) == Declared(history)
  {
    if history == [] {
    } else {
      var before, op := history[..|history| - 1], history[|history| - 1];
      AfterIsDeclared(before);
      AfterNext(before, op);
      DeclaredNext(before, op);
      assert before + [op] == history;
    }
  }

  lemma AfterNext(history: seq<Op>, op: Op)
    ensures After(history + [op]) == Step(After(history), op)
  {
    assert (history + [op])[..|history|] == history;
  }

  /** Messages and transcript agree entry by entry, and tool ids are pairwise distinct. */
  lemma MessagesAgree(history: seq<Op>)
    ensures var chat := After(history);
            && |chat.messages| == |chat.transcript|
            && (forall i :: 0 <= i < |chat.messages| ==>
                  chat.transcript[i] == TranscriptTurn(chat.messages[i].role, chat.messages[i].content))
            && (chat.run.Some? ==> forall i, j :: 0 <= i < j < |chat.run.value.tools| ==>
                  chat.run.value.tools[i].id != chat.run.value.tools[j].id)
  {
    AfterIsDeclared(history);
    ToolIdsDistinct(LiveEvents(history));
  }

  /** The last run end of `events` is the one at `k`. */
  predicate IsLastRunEnd(events: seq<Event>, k: int) {
    0 <= k < |events| && events[k].RunEnd? && forall i :: k < i < |events| ==> !events[i].RunEnd?
  }

  /**
    After any history the response text of the live run is the last run end's message followed by
    the response deltas after it, or all response deltas when no run has ended.
   */
  lemma ResponseIsLastMessage(history: seq<Op>)
    requires After(history).run.Some?
    ensures var events, response := LiveEvents(history), After(history).run.value.response;
            && (forall k :: IsLastRunEnd(events, k) ==> response == events[k].message + Deltas(events[k + 1..], false))
            && ((forall i :: 0 <= i < |events| ==> !events[i].RunEnd?) ==> response == Deltas(events, false))
  {
    AfterIsDeclared(history);
    var events := LiveEvents(history);
    forall k | IsLastRunEnd(events, k) ensures Response(events) == events[k].message + Deltas(events[k + 1..], false) {
      SinceRunEnd(events, k);
    }
    if forall i :: 0 <= i < |events| ==> !events[i].RunEnd? {
      NoRunEnd(events);
    }
  }

  lemma SinceRunEnd(events: seq<Event>, k: int)
    requires IsLastRunEnd(events, k)
    ensures Response(events) == events[k].message + Deltas(events[k + 1..], false)
  {
    assert AfterLastRunEnd(events) == k + 1;
  }

  lemma NoRunEnd(events: seq<Event>)
    requires forall i :: 0 <= i < |events| ==> !events[i].RunEnd?
    ensures Response(events) == Deltas(events, false)
  {
    assert AfterLastRunEnd(events) == 0;
    assert events[0..] == events;
  }
}

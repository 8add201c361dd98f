/** `ChatState` and the records it updates in place, each method proved to take its step of `ChatModel`. */
module ChatState {
  import opened Wrappers
  import M = ChatModel

  class ToolActivity {
    const id: string
    var name: string
    var status: M.ToolState
    var arguments: M.Arguments
    var summary: Option<string>

    constructor (id: string, name: string, status: M.ToolState, arguments: M.Arguments)
      ensures View() == M.Tool(id, name, status, arguments, None)
    {
      this.id, this.name, this.status, this.arguments, summary := id, name, status, arguments, None;
    }

    function View(): M.Tool
      reads this
    {
      M.Tool(id, name, status, arguments, summary)
    }

    method Start(name: string, arguments: M.Arguments)
      modifies this
      ensures View() == old(View()).(name := name, status := M.STARTED, arguments := arguments)
    {
      this.name, status, this.arguments := name, M.STARTED, arguments;
    }

    method End(state: M.ToolState, summary: Option<string>)
      modifies this
      ensures View() == old(View()).(status := state, summary := summary)
    {
      status, this.summary := state, summary;
    }
  }

  class LiveRunState {
    var query: string
    var responseText: string
    var reasoningText: string
    var tools: seq<ToolActivity>
    var isStreaming: bool
    var error: Option<string>
    var result: Option<string>

    constructor (query: string)
      ensures Valid() && tools == [] && View() == M.NewRun(query)
    {
      this.query, responseText, reasoningText, tools := query, "", "", [];
      isStreaming, error, result := true, None, None;
    }

    ghost predicate Valid()
      reads this
    {
      forall i, j :: 0 <= i < j < |tools| ==> tools[i] != tools[j]
    }

    function ToolViews(): (r: seq<M.Tool>)
      reads this, tools
      ensures |r| == |tools| && forall i :: 0 <= i < |tools| ==> r[i] == tools[i].View()
    {
      seq(|tools|, i requires 0 <= i < |tools| reads this, tools => tools[i].View())
    }

    function View(): M.Run
      reads this, tools
    {
      M.Run(query, responseText, reasoningText, ToolViews(), isStreaming, error, result)
    }

    ghost function Parts(): set<object>
      reads this
    {
      {this} + set i | 0 <= i < |tools| :: tools[i]
    }

    method FindTool(id: string) returns (i: nat)
      ensures i == M.FindTool(ToolViews(), id)
    {
      i := 0;
      while i < |tools| && tools[i].id != id
        invariant i <= |tools| && forall k :: 0 <= k < i ==> tools[k].id != id
      {
        i := i + 1;
      }
      FirstIsFound(ToolViews(), id, i);
    }

    method Append(activity: ToolActivity)
      requires Valid() && activity !in tools
      modifies this`tools
      ensures Valid() && tools == old(tools) + [activity]
      ensures View() == old(View()).(tools := old(ToolViews()) + [activity.View()])
    {
      tools := tools + [activity];
      assert ToolViews() == old(ToolViews()) + [activity.View()];
    }

    /** A change to one tool's object changes that tool's record and no other. */
    twostate lemma OneToolChanged(i: nat)
      requires old(Valid()) && unchanged(this) && i < |tools|
      requires forall k :: 0 <= k < |tools| && k != i ==> unchanged(tools[k])
      ensures View() == old(View()).(tools := old(ToolViews())[i := tools[i].View()])
    {
      assert ToolViews() == old(ToolViews())[i := tools[i].View()];
    }

    method StartTool(e: M.Event)
      requires Valid() && e.ToolStart?
      modifies this, tools
      ensures Valid() && fresh(Parts() - old(Parts()))
      ensures View() == M.NextRun(old(View()), e)
    {
      var i := FindTool(e.id);
      if i == |tools| {
        var activity := new ToolActivity(e.id, e.name, M.STARTED, e.arguments);
        Append(activity);
      } else {
        tools[i].Start(e.name, e.arguments);
        OneToolChanged(i);
      }
    }

    method EndTool(e: M.Event)
      requires Valid() && e.ToolEnd?
      modifies this, tools
      ensures Valid() && fresh(Parts() - old(Parts()))
      ensures View() == M.NextRun(old(View()), e)
    {
      var i := FindTool(e.id);
      if i == |tools| {
        AddEnded(e);
      } else {
        tools[i].End(e.state, e.summary);
        OneToolChanged(i);
      }
    }

    /** A tool first heard of when it ends. */
    method AddEnded(e: M.Event)
      requires Valid() && e.ToolEnd?
      modifies this`tools
      ensures Valid() && fresh(Parts() - old(Parts()))
      ensures View() == old(View()).(tools := old(ToolViews()) + [M.Tool(e.id, e.name, e.state, map[], e.summary)])
    {
      var activity := new ToolActivity(e.id, e.name, e.state, map[]);
      activity.End(e.state, e.summary);
      Append(activity);
    }

    /** A run start names a run that has no query yet. */
    method Named(query: string)
      requires Valid()
      modifies this`query
      ensures Valid()
      ensures View() == M.NextRun(old(View()), M.RunStart(query))
    {
      if this.query == "" {
        this.query := query;
      }
      assert ToolViews() == old(ToolViews());
    }

    /** What an event does to the run that is live. */
    method Apply(e: M.Event)
      requires Valid() && !e.RunStart?
      modifies this, tools
      ensures Valid() && fresh(Parts() - old(Parts()))
      ensures View() == M.NextRun(old(View()), e)
    {
      match e
      case BlockDelta(blockType, text) =>
        if blockType.REASONING? {
          reasoningText := reasoningText + text;
        } else {
          responseText := responseText + text;
        }
      case ToolStart(_, _, _) => StartTool(e);
      case ToolEnd(_, _, _, _) => EndTool(e);
      case ErrorEvent(error) => this.error, isStreaming := Some(error), false;
      case RunEnd(message) => isStreaming, result, responseText := false, Some(message), message;
      case Other =>
    }
  }

  lemma {:induction false} FirstIsFound(tools: seq<M.Tool>, id: string, i: nat)
    requires i <= |tools| && (forall k :: 0 <= k < i ==> tools[k].id != id) && (i < |tools| ==> tools[i].id == id)
    ensures M.FindTool(tools, id) == i
  {
  }

  class ChatState {
    var messages: seq<M.Message>
    var transcript: seq<M.TranscriptTurn>
    var currentRun: LiveRunState?

    ghost predicate Valid()
      reads this, if currentRun != null then {currentRun} else {}
    {
      currentRun != null ==> currentRun.Valid()
    }

    /** The objects that an event may change. */
    ghost function Parts(): set<object>
      reads this, if currentRun != null then {currentRun} else {}
    {
      {this} + if currentRun == null then {} else currentRun.Parts()
    }

    function View(): M.Chat
      reads this, Parts()
    {
      M.Chat(messages, transcript, if currentRun == null then None else Some(currentRun.View()))
    }

    constructor ()
      ensures Valid() && View() == M.EMPTY
    {
      messages, transcript, currentRun := [], [], null;
    }

    method StartTurn(userText: string)
      requires Valid()
      modifies this
      ensures Valid() && fresh(Parts() - {this})
      ensures View() == M.Step(old(View()), M.StartTurn(userText))
    {
      Say(M.USER, userText);
      currentRun := new LiveRunState(userText);
    }

    method Clear()
      requires Valid()
      modifies this
      ensures Valid() && View() == M.Step(old(View()), M.ClearAll)
    {
      messages, transcript, currentRun := [], [], null;
    }

    /** The live run, made on the spot when there is none. */
    method EnsureRun(query: string) returns (made: bool)
      requires Valid()
      modifies this`currentRun
      ensures Valid() && currentRun != null && made == (old(currentRun) == null)
      ensures made ==> fresh(currentRun.Parts())
      ensures !made ==> currentRun == old(currentRun)
      ensures View() == old(View()).(run := if made then Some(M.NewRun(query)) else old(View()).run)
    {
      made := currentRun == null;
      if made {
        currentRun := new LiveRunState(query);
      }
    }

    method Say(role: string, content: string)
      requires Valid()
      modifies this`messages, this`transcript
      ensures Valid() && View() == M.Say(old(View()), role, content)
    {
      messages := messages + [M.Message(role, content)];
      transcript := transcript + [M.TranscriptTurn(role, content)];
    }

    /** A run that starts names the live run, or becomes it. */
    method RunStarted(query: string)
      requires Valid()
      modifies Parts()
      ensures Valid() && fresh(Parts() - old(Parts()))
      ensures View() == M.Step(old(View()), M.Apply(M.RunStart(query)))
    {
      var made := EnsureRun(query);
      if !made {
        currentRun.Named(query);
      }
    }

    /** Every other event reaches the live run, and a run that ends may say something. */
    method Progressed(e: M.Event)
      requires Valid() && currentRun != null && !e.RunStart?
      modifies Parts()
      ensures Valid() && fresh(Parts() - old(Parts()))
      ensures View() == M.Step(old(View()), M.Apply(e))
    {
      currentRun.Apply(e);
      if e.RunEnd? && e.message != "" {
        Say(M.ASSISTANT, e.message);
      }
    }

    method ApplyEvent(e: M.Event)
      requires Valid()
      modifies Parts()
      ensures Valid() && fresh(Parts() - old(Parts()))
      ensures View() == M.Step(old(View()), M.Apply(e))
    {
      if e.RunStart? {
        RunStarted(e.query);
        return;
      }
      var _ := EnsureRun("");
      Progressed(e);
    }
  }
}

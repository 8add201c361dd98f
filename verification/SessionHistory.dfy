/**
  What the history of steps says of the session, all of it: the link, the connection and its locks,
  which actors there are and where each stands, and what was done to the chat state. Nothing here
  reads the state.
 */
module SessionHistory {
  import opened Wrappers
  import opened Session

  // ---- the link ----

  ghost function LinkSaid(log: seq<Action>): Link {
    if log == [] then Down
    else
      match log[|log| - 1]
      case Open => Handshake
      case HandshakeOk => Up
      case HandshakeFailed => Down
      case Disconnect => Draining
      case Closed => Down
      case _ => LinkSaid(log[..|log| - 1])
  }

  /** How many connections have been opened. */
  ghost function Opened(log: seq<Action>): nat {
    if log == [] then 0 else Opened(log[..|log| - 1]) + if log[|log| - 1].Open? then 1 else 0
  }

  /** The connection whose locks are in place: the last one, until it is closed. */
  ghost function LocksSaid(log: seq<Action>): Option<nat> {
    if log == [] then None
    else if log[|log| - 1].Open? then Some(Opened(log))
    else if log[|log| - 1].Closed? then None
    else LocksSaid(log[..|log| - 1])
  }

  /** The connection that the approval handler is bound to: from the handshake to the disconnect. */
  ghost function BoundSaid(log: seq<Action>): Option<nat> {
    if log == [] then None
    else if log[|log| - 1].HandshakeOk? then Some(Opened(log))
    else if log[|log| - 1].Disconnect? then None
    else BoundSaid(log[..|log| - 1])
  }

  // ---- one actor ----

  ghost predicate Present(log: seq<Action>, id: nat) {
    log != [] &&
    var a := log[|log| - 1];
    if a == Dispatch(id) || a == BeginApproval(id) then true
    else if a == Finish(id) || a == CancelTask(id) then false
    else Present(log[..|log| - 1], id)
  }

  /** What `id` last entered as, and the connection of that time. */
  ghost function Entry(log: seq<Action>, id: nat): (bool, nat) {
    if log == [] then (false, 0)
    else if log[|log| - 1] == Dispatch(id) then (false, Opened(log))
    else if log[|log| - 1] == BeginApproval(id) then (true, Opened(log))
    else Entry(log[..|log| - 1], id)
  }

  ghost function TurnSaid(log: seq<Action>, id: nat): Turn {
    if log == [] then Over
    else
      var a := log[|log| - 1];
      if a == Dispatch(id) then Fresh
      else if a == StartChat(id) then AwaitingLock(Entry(log, id).1)
      else if a == AcquireChat(id) then InTurn(Some(Entry(log, id).1))
      else if a == EndTurn(id) || a == Reset(id) || a == Frame(id) || a == BeginApproval(id) then Over
      else TurnSaid(log[..|log| - 1], id)
  }

  ghost function SendSaid(log: seq<Action>, id: nat): Send {
    if log == [] then Idle
    else
      var a := log[|log| - 1];
      if a == Dispatch(id) || a == SendDone(id) then Idle
      else if a == Event(id) || a == Reset(id) || a == Frame(id) || a == BeginApproval(id) then Queued(Entry(log, id).1)
      else if a == AcquireSend(id) then OnWire(Some(Entry(log, id).1))
      else SendSaid(log[..|log| - 1], id)
  }

  ghost function ActorSaid(log: seq<Action>, id: nat): Actor {
    Actor(Entry(log, id).1, Entry(log, id).0, TurnSaid(log, id), SendSaid(log, id))
  }

  // ---- the chat state ----

  /** What was done to the chat state: a cancelled task ends its turn if it is in one. */
  ghost function OpsSaid(log: seq<Action>): seq<Op> {
    if log == [] then []
    else
      var before := OpsSaid(log[..|log| - 1]);
      match log[|log| - 1]
      case AcquireChat(id) => before + [Start(id)]
      case Event(id) => before + [Apply(id)]
      case Reset(_) => before + [Clear]
      case EndTurn(id) => before + [End(id)]
      case CancelTask(id) => if Running(before, id) then before + [End(id)] else before
      case _ => before
  }

  // ---- the state is what was said ----

  ghost predicate LinkTold(log: seq<Action>, s: State) {
    && s.link == LinkSaid(log) && s.conn == Opened(log)
    && s.sendLock == LocksSaid(log) && s.chatLock == LocksSaid(log)
    && s.bound == BoundSaid(log)
  }

  ghost predicate ActorTold(log: seq<Action>, s: State, id: nat) {
    && (id in s.actors <==> Present(log, id))
    && (id in s.actors ==> s.actors[id] == ActorSaid(log, id))
  }

  lemma LinkStep(log: seq<Action>, s: State, a: Action)
    requires LinkTold(log, s) && LinkInv(s) && Enabled(s, a)
    ensures LinkTold(log + [a], Step(s, a))
  {
    assert (log + [a])[..|log|] == log;
  }

  predicate About(a: Action, id: nat) {
    && !a.Open? && !a.HandshakeOk? && !a.HandshakeFailed? && !a.Disconnect? && !a.Closed?
    && a.id == id
  }

  lemma OtherActorStep(log: seq<Action>, s: State, a: Action, id: nat)
    requires ActorTold(log, s, id) && Enabled(s, a) && !About(a, id)
    ensures ActorTold(log + [a], Step(s, a), id)
  {
    assert (log + [a])[..|log|] == log;
  }

  lemma EntryStep(log: seq<Action>, s: State, a: Action, id: nat)
    requires LinkTold(log, s) && LinkInv(s) && Enabled(s, a) && (a == Dispatch(id) || a == BeginApproval(id))
    ensures ActorTold(log + [a], Step(s, a), id)
  {
    assert (log + [a])[..|log|] == log;
  }

  lemma OwnActorStep(log: seq<Action>, s: State, a: Action, id: nat)
    requires ActorTold(log, s, id) && LinkInv(s) && ActorsInv(s) && Enabled(s, a) && About(a, id)
    requires !a.Dispatch? && !a.BeginApproval?
    ensures ActorTold(log + [a], Step(s, a), id)
  {
    assert (log + [a])[..|log|] == log;
    assert ActorInv(s, id);
  }

  lemma ActorStep(log: seq<Action>, s: State, a: Action, id: nat)
    requires ActorTold(log, s, id) && LinkTold(log, s) && LinkInv(s) && ActorsInv(s) && Enabled(s, a)
    ensures ActorTold(log + [a], Step(s, a), id)
  {
    if !About(a, id) {
      OtherActorStep(log, s, a, id);
    } else if a.Dispatch? || a.BeginApproval? {
      EntryStep(log, s, a, id);
    } else {
      OwnActorStep(log, s, a, id);
    }
  }

  lemma OpsStep(log: seq<Action>, s: State, a: Action)
    requires s.ops == OpsSaid(log) && Inv(s) && Enabled(s, a)
    ensures Step(s, a).ops == OpsSaid(log + [a])
  {
    assert (log + [a])[..|log|] == log;
  }

  lemma {:induction false} RunIsTold(log: seq<Action>, id: nat)
    requires Run(log).Some?
    ensures LinkTold(log, Run(log).value) && ActorTold(log, Run(log).value, id)
    ensures Run(log).value.ops == OpsSaid(log)
  {
    if log == [] {
    } else {
      var before, a := log[..|log| - 1], log[|log| - 1];
      RunIsTold(before, id);
      RunKeepsInv(before);
      LinkStep(before, Run(before).value, a);
      ActorStep(before, Run(before).value, a, id);
      OpsStep(before, Run(before).value, a);
      assert before + [a] == log;
    }
  }

  /** After every run the whole state is what the log says, lock holders aside. */
  lemma StateIsHistory(log: seq<Action>)
    requires Run(log).Some?
    ensures LinkTold(log, Run(log).value)
    ensures forall id :: ActorTold(log, Run(log).value, id)
    ensures Run(log).value.ops == OpsSaid(log)
  {
    RunIsTold(log, 0);
    forall id ensures ActorTold(log, Run(log).value, id) {
      RunIsTold(log, id);
    }
  }

  // ---- which steps can come ----

  /** `id` is a dispatched task. */
  ghost predicate TaskSaid(log: seq<Action>, id: nat) {
    Present(log, id) && !Entry(log, id).0
  }

  ghost predicate NobodyInTurn(log: seq<Action>) {
    forall t :: Present(log, t) ==> !TurnSaid(log, t).InTurn?
  }

  /** No frame is on the wire of the connection `conn`. */
  ghost predicate WireFree(log: seq<Action>, conn: nat) {
    forall t :: Present(log, t) && Entry(log, t).1 == conn ==> !SendSaid(log, t).OnWire?
  }

  ghost predicate CanCome(log: seq<Action>, a: Action) {
    match a
    case Open => LinkSaid(log).Down?
    case HandshakeOk => LinkSaid(log).Handshake?
    case HandshakeFailed => LinkSaid(log).Handshake?
    case Dispatch(id) => LinkSaid(log).Up? && !Present(log, id)
    case StartChat(id) => TaskSaid(log, id) && TurnSaid(log, id).Fresh?
    case AcquireChat(id) => TaskSaid(log, id) && TurnSaid(log, id).AwaitingLock? && NobodyInTurn(log)
    case Event(id) => TaskSaid(log, id) && TurnSaid(log, id).InTurn? && SendSaid(log, id).Idle?
    case EndTurn(id) => TaskSaid(log, id) && TurnSaid(log, id).InTurn? && SendSaid(log, id).Idle?
    case Reset(id) => TaskSaid(log, id) && TurnSaid(log, id).Fresh?
    case Frame(id) =>
      TaskSaid(log, id) && (TurnSaid(log, id).Fresh? || TurnSaid(log, id).Over?) && SendSaid(log, id).Idle?
    case AcquireSend(id) => Present(log, id) && SendSaid(log, id).Queued? && WireFree(log, Entry(log, id).1)
    case SendDone(id) => Present(log, id) && SendSaid(log, id).OnWire?
    case Finish(id) =>
      Present(log, id) && (TurnSaid(log, id).Fresh? || TurnSaid(log, id).Over?) && SendSaid(log, id).Idle?
    case CancelTask(id) => Present(log, id)
    case BeginApproval(id) => BoundSaid(log).Some? && !Present(log, id)
    case Disconnect => LinkSaid(log).Up?
    case Closed => LinkSaid(log).Draining? && forall id :: !TaskSaid(log, id)
  }

  lemma ChatLockFree(s: State, id: nat)
    requires ActorsInv(s) && HoldersInv(s) && IsTask(s, id) && s.actors[id].turn.AwaitingLock?
    ensures s.actors[id].turn.lock !in s.chatHolders <==> forall t :: t in s.actors ==> !s.actors[t].turn.InTurn?
  {
    assert ActorInv(s, id);
    if s.actors[id].turn.lock in s.chatHolders {
      assert s.actors[s.chatHolders[s.actors[id].turn.lock]].turn.InTurn?;
    }
    forall t | t in s.actors && s.actors[t].turn.InTurn? ensures s.actors[id].turn.lock in s.chatHolders {
      assert ActorInv(s, t);
    }
  }

  lemma SendLockFree(s: State, id: nat)
    requires ActorsInv(s) && HoldersInv(s) && id in s.actors && s.actors[id].send.Queued?
    ensures s.actors[id].send.lock !in s.sendHolders
            <==> forall t :: t in s.actors && s.actors[t].socket == s.actors[id].socket ==> !s.actors[t].send.OnWire?
  {
    assert ActorInv(s, id);
    if s.actors[id].send.lock in s.sendHolders {
      var h := s.sendHolders[s.actors[id].send.lock];
      assert ActorInv(s, h) && s.actors[h].send.OnWire? && s.actors[h].socket == s.actors[id].socket;
    }
    forall t | t in s.actors && s.actors[t].socket == s.actors[id].socket && s.actors[t].send.OnWire?
      ensures s.actors[id].send.lock in s.sendHolders
    {
      assert ActorInv(s, t);
    }
  }

  lemma NobodyIff(log: seq<Action>, s: State)
    requires forall id :: ActorTold(log, s, id)
    ensures NobodyInTurn(log) <==> forall t :: t in s.actors ==> !s.actors[t].turn.InTurn?
  {
    if NobodyInTurn(log) {
      forall t | t in s.actors ensures !s.actors[t].turn.InTurn? {
        assert ActorTold(log, s, t);
      }
    }
    if forall t :: t in s.actors ==> !s.actors[t].turn.InTurn? {
      forall t | Present(log, t) ensures !TurnSaid(log, t).InTurn? {
        assert ActorTold(log, s, t);
      }
    }
  }

  lemma WireFreeIff(log: seq<Action>, s: State, conn: nat)
    requires forall id :: ActorTold(log, s, id)
    ensures WireFree(log, conn)
            <==> forall t :: t in s.actors && s.actors[t].socket == conn ==> !s.actors[t].send.OnWire?
  {
    if WireFree(log, conn) {
      forall t | t in s.actors && s.actors[t].socket == conn ensures !s.actors[t].send.OnWire? {
        assert ActorTold(log, s, t);
      }
    }
    if forall t :: t in s.actors && s.actors[t].socket == conn ==> !s.actors[t].send.OnWire? {
      forall t | Present(log, t) && Entry(log, t).1 == conn ensures !SendSaid(log, t).OnWire? {
        assert ActorTold(log, s, t);
      }
    }
  }

  lemma TasksIff(log: seq<Action>, s: State)
    requires forall id :: ActorTold(log, s, id)
    ensures (forall id :: !TaskSaid(log, id)) <==> forall id :: id in s.actors ==> s.actors[id].approval
  {
    forall id ensures TaskSaid(log, id) <==> id in s.actors && !s.actors[id].approval {
      assert ActorTold(log, s, id);
    }
  }

  /** Which steps can come next is decided by the log. */
  lemma StepsAreTold(log: seq<Action>, a: Action)
    requires Run(log).Some?
    ensures Enabled(Run(log).value, a) <==> CanCome(log, a)
  {
    RunKeepsInv(log);
    StateIsHistory(log);
    StepIsTold(log, Run(log).value, a);
  }

  lemma StepIsTold(log: seq<Action>, s: State, a: Action)
    requires LinkTold(log, s) && ActorsInv(s) && HoldersInv(s) && forall id :: ActorTold(log, s, id)
    ensures Enabled(s, a) <==> CanCome(log, a)
  {
    if a.AcquireChat? {
      assert ActorTold(log, s, a.id);
      if IsTask(s, a.id) && s.actors[a.id].turn.AwaitingLock? {
        ChatLockFree(s, a.id);
      }
      NobodyIff(log, s);
    } else if a.AcquireSend? {
      assert ActorTold(log, s, a.id);
      if a.id in s.actors && s.actors[a.id].send.Queued? {
        SendLockFree(s, a.id);
        WireFreeIff(log, s, s.actors[a.id].socket);
      }
    } else if a.Closed? {
      TasksIff(log, s);
    } else if !a.Open? && !a.HandshakeOk? && !a.HandshakeFailed? && !a.Disconnect? {
      assert ActorTold(log, s, a.id);
    }
  }
}

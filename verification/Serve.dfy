/**
  The serve session and the approval relay together: which turn a call belongs to, which of the
  session's senders is its request, and which dispatched frame is its reply. A turn awaits its tool
  calls, so it ends, or its task is cancelled, only when they have returned or been cancelled.
 */
module Serve {
  import opened Wrappers
  import Session
  import Relay
  import RelayHistory

  /** The turn that a call belongs to, and the sender of its request. */
  datatype Ask = Ask(task: nat, sender: nat)

  datatype State = State(session: Session.State, relay: Relay.State, asks: map<string, Ask>)

  datatype Action =
    | Talk(step: Session.Action)
    | Connect
    | Disconnect
    | Call(call: string, ask: Ask)
    | Sent(call: string)
    | SendFailed(call: string)
    | Reply(id: nat, call: string, allowed: bool)
    | Expire(call: string)
    | Resume(call: string)
    | Cancel(call: string)

  const INITIAL := State(Session.INITIAL, Relay.INITIAL, map[])

  predicate Sending(s: State, call: string) {
    call in s.asks && Relay.InPhase(s.relay, call, Relay.Sending)
  }

  predicate Waiting(s: State, call: string) {
    call in s.asks && Relay.InPhase(s.relay, call, Relay.Waiting)
  }

  predicate Unfinished(s: State, call: string) {
    Sending(s, call) || Waiting(s, call)
  }

  predicate InTurn(s: State, id: nat) {
    Session.IsTask(s.session, id) && s.session.actors[id].turn.InTurn?
  }

  predicate CallsReturned(s: State, id: nat) {
    forall call :: call in s.asks && s.asks[call].task == id ==> !Unfinished(s, call)
  }

  /** The session's own steps: not those of a call, and none that leaves a call behind. */
  predicate Talks(s: State, a: Session.Action) {
    match a
    case HandshakeOk => false
    case Disconnect => false
    case BeginApproval(_) => false
    case SendDone(id) => Session.IsTask(s.session, id)
    case Finish(id) => Session.IsTask(s.session, id)
    case EndTurn(id) => CallsReturned(s, id)
    case CancelTask(id) => Session.IsTask(s.session, id) && CallsReturned(s, id)
    case _ => true
  }

  predicate OnWire(s: State, id: nat) {
    id in s.session.actors && s.session.actors[id].send.OnWire?
  }

  predicate Enabled(s: State, a: Action) {
    match a
    case Talk(step) => Talks(s, step) && Session.Enabled(s.session, step)
    case Connect => Session.Enabled(s.session, Session.HandshakeOk)
    case Disconnect => Session.Enabled(s.session, Session.Disconnect)
    case Call(call, ask) =>
      && InTurn(s, ask.task) && Relay.Enabled(s.relay, Relay.Begin(call))
      && (s.session.bound.Some? ==> ask.sender !in s.session.actors)
    case Sent(call) => Sending(s, call) && OnWire(s, s.asks[call].sender)
    case SendFailed(call) => Sending(s, call) && OnWire(s, s.asks[call].sender)
    case Reply(id, _, _) =>
      Session.IsTask(s.session, id) && s.session.actors[id].turn.Fresh? && s.session.actors[id].send.Idle?
    case Expire(call) => Relay.Enabled(s.relay, Relay.Expire(call))
    case Resume(call) => Relay.Enabled(s.relay, Relay.Resume(call))
    case Cancel(call) => Unfinished(s, call)
  }

  /** A sender gives back what it holds and is gone. */
  function Leave(s: Session.State, id: nat): Session.State {
    if id in s.actors then Session.Step(s, Session.CancelTask(id)) else s
  }

  function Step(s: State, a: Action): State
    requires Enabled(s, a)
  {
    match a
    case Talk(step) => s.(session := Session.Step(s.session, step))
    case Connect =>
      s.(session := Session.Step(s.session, Session.HandshakeOk),
         relay := Relay.Step(s.relay, Relay.Bind(s.session.conn)))
    case Disconnect =>
      s.(session := Session.Step(s.session, Session.Disconnect), relay := Relay.Step(s.relay, Relay.Unbind))
    case Call(call, ask) =>
      State(if s.session.bound.Some? then Session.Step(s.session, Session.BeginApproval(ask.sender)) else s.session,
            Relay.Step(s.relay, Relay.Begin(call)),
            s.asks[call := ask])
    case Sent(call) =>
      s.(session := Leave(s.session, s.asks[call].sender), relay := Relay.Step(s.relay, Relay.Sent(call)))
    case SendFailed(call) =>
      s.(session := Leave(s.session, s.asks[call].sender), relay := Relay.Step(s.relay, Relay.SendFailed(call)))
    case Reply(id, call, allowed) =>
      s.(session := Session.Step(s.session, Session.Finish(id)),
         relay := Relay.Step(s.relay, Relay.Reply(call, allowed)))
    case Expire(call) => s.(relay := Relay.Step(s.relay, Relay.Expire(call)))
    case Resume(call) => s.(relay := Relay.Step(s.relay, Relay.Resume(call)))
    case Cancel(call) =>
      s.(session := if Sending(s, call) then Leave(s.session, s.asks[call].sender) else s.session,
         relay := Relay.Step(s.relay, Relay.Cancel(call)))
  }

  /** The state that `log` leads to from `s`, or nothing if one of its steps cannot happen. */
  function RunFrom(s: State, log: seq<Action>): Option<State> {
    if log == [] then Some(s)
    else
      match RunFrom(s, log[..|log| - 1])
      case Some(t) => if Enabled(t, log[|log| - 1]) then Some(Step(t, log[|log| - 1])) else None
      case None => None
  }

  function Run(log: seq<Action>): Option<State> {
    RunFrom(INITIAL, log)
  }

  // ---- what every step keeps ----

  predicate IsSender(s: State, id: nat) {
    id in s.session.actors && s.session.actors[id].approval
  }

  predicate Busy(s: State, id: nat) {
    IsSender(s, id) && !s.session.actors[id].send.Idle?
  }

  /** `id` is sending the request of `call`. */
  predicate SendsFor(s: State, id: nat, call: string) {
    Sending(s, call) && s.asks[call].sender == id
  }

  /** A request that is being sent has its sender, which sends and is no other's. */
  ghost predicate SendersInv(s: State) {
    && (forall id, c :: SendsFor(s, id, c) ==> Busy(s, id))
    && (forall id, c, d :: SendsFor(s, id, c) && SendsFor(s, id, d) ==> c == d)
    && (forall id :: IsSender(s, id) ==> exists c :: SendsFor(s, id, c))
  }

  /** A call that has not returned has its turn. */
  ghost predicate CallsInv(s: State) {
    && s.asks.Keys == s.relay.calls.Keys
    && (forall c :: Unfinished(s, c) ==> InTurn(s, s.asks[c].task))
  }

  ghost predicate Joint(s: State) {
    s.relay.socket == s.session.bound && SendersInv(s) && CallsInv(s)
  }

  ghost predicate Inv(s: State) {
    Session.Inv(s.session) && Relay.Inv(s.relay) && Joint(s)
  }

  lemma SessionKeeps(s: State, a: Action)
    requires Session.Inv(s.session) && Enabled(s, a)
    ensures Session.Inv(Step(s, a).session)
  {
    match a
    case Talk(step) => Session.StepKeepsInv(s.session, step);
    case Connect => Session.StepKeepsInv(s.session, Session.HandshakeOk);
    case Disconnect => Session.StepKeepsInv(s.session, Session.Disconnect);
    case Call(_, ask) =>
      if s.session.bound.Some? {
        Session.StepKeepsInv(s.session, Session.BeginApproval(ask.sender));
      }
    case Sent(call) => LeaveKeeps(s.session, s.asks[call].sender);
    case SendFailed(call) => LeaveKeeps(s.session, s.asks[call].sender);
    case Reply(id, _, _) => Session.StepKeepsInv(s.session, Session.Finish(id));
    case Cancel(call) => LeaveKeeps(s.session, s.asks[call].sender);
    case _ =>
  }

  lemma LeaveKeeps(s: Session.State, id: nat)
    requires Session.Inv(s)
    ensures Session.Inv(Leave(s, id))
  {
    if id in s.actors {
      Session.StepKeepsInv(s, Session.CancelTask(id));
    }
  }

  /** The relay's side of a step, if it has one. */
  function RelayStep(s: State, a: Action): Option<Relay.Action> {
    match a
    case Talk(_) => None
    case Connect => Some(Relay.Bind(s.session.conn))
    case Disconnect => Some(Relay.Unbind)
    case Call(call, _) => Some(Relay.Begin(call))
    case Sent(call) => Some(Relay.Sent(call))
    case SendFailed(call) => Some(Relay.SendFailed(call))
    case Reply(_, call, allowed) => Some(Relay.Reply(call, allowed))
    case Expire(call) => Some(Relay.Expire(call))
    case Resume(call) => Some(Relay.Resume(call))
    case Cancel(call) => Some(Relay.Cancel(call))
  }

  lemma RelayTakesStep(s: State, a: Action)
    requires Enabled(s, a)
    ensures match RelayStep(s, a)
            case Some(b) => Relay.Enabled(s.relay, b) && Step(s, a).relay == Relay.Step(s.relay, b)
            case None => Step(s, a).relay == s.relay
  {
  }

  lemma RelayKeeps(s: State, a: Action)
    requires Relay.Inv(s.relay) && Enabled(s, a)
    ensures Relay.Inv(Step(s, a).relay)
  {
    RelayTakesStep(s, a);
    if RelayStep(s, a).Some? {
      Relay.StepKeepsInv(s.relay, RelayStep(s, a).value);
    }
  }

  /** A sender that leaves takes no turn with it. */
  lemma SenderLeaves(s: Session.State, id: nat)
    requires Session.ActorsInv(s) && id in s.actors && s.actors[id].approval
    ensures Leave(s, id).actors == s.actors - {id}
    ensures Leave(s, id).bound == s.bound && Leave(s, id).link == s.link
    ensures Leave(s, id).chatHolders == s.chatHolders
    ensures s.actors[id].send.OnWire? ==> s.actors[id].socket !in Leave(s, id).sendHolders
  {
    assert Session.ActorInv(s, id);
  }

  lemma SendersStay(s: State, s': State)
    requires SendersInv(s)
    requires forall id, c :: SendsFor(s', id, c) <==> SendsFor(s, id, c)
    requires forall id :: IsSender(s', id) <==> IsSender(s, id)
    requires forall id :: Busy(s, id) ==> Busy(s', id)
    ensures SendersInv(s')
  {
    forall id | IsSender(s', id) ensures exists c :: SendsFor(s', id, c) {
      var c :| SendsFor(s, id, c);
      assert SendsFor(s', id, c);
    }
  }

  lemma SenderGoes(s: State, s': State, sender: nat, call: string)
    requires SendersInv(s) && SendsFor(s, sender, call)
    requires forall id, c :: SendsFor(s', id, c) <==> SendsFor(s, id, c) && c != call
    requires forall id :: IsSender(s', id) <==> IsSender(s, id) && id != sender
    requires forall id :: Busy(s, id) && id != sender ==> Busy(s', id)
    ensures SendersInv(s')
  {
    forall id | IsSender(s', id) ensures exists c :: SendsFor(s', id, c) {
      var c :| SendsFor(s, id, c);
      assert SendsFor(s', id, c);
    }
  }

  lemma SenderComes(s: State, s': State, sender: nat, call: string)
    requires SendersInv(s) && !IsSender(s, sender)
    requires forall id, c :: SendsFor(s', id, c) <==> SendsFor(s, id, c) || (id == sender && c == call)
    requires forall id :: IsSender(s', id) <==> IsSender(s, id) || id == sender
    requires forall id :: Busy(s, id) || id == sender ==> Busy(s', id)
    ensures SendersInv(s')
  {
    assert SendsFor(s', sender, call);
    forall id | IsSender(s', id) ensures exists c :: SendsFor(s', id, c) {
      if id != sender {
        var c :| SendsFor(s, id, c);
        assert SendsFor(s', id, c);
      }
    }
  }

  /** No call returns to life, and each that lives keeps its turn. */
  lemma CallsStay(s: State, s': State)
    requires CallsInv(s) && s'.asks.Keys == s'.relay.calls.Keys
    requires forall c :: Unfinished(s', c) ==> Unfinished(s, c) && s'.asks[c] == s.asks[c]
    requires forall c :: Unfinished(s', c) && InTurn(s, s.asks[c].task) ==> InTurn(s', s.asks[c].task)
    ensures CallsInv(s')
  {
  }

  lemma TalkKeepsSenders(s: State, step: Session.Action)
    requires Session.ActorsInv(s.session) && SendersInv(s) && Enabled(s, Talk(step))
    ensures SendersInv(Step(s, Talk(step)))
  {
    SendersStay(s, Step(s, Talk(step)));
  }

  lemma TalkKeepsCalls(s: State, step: Session.Action)
    requires CallsInv(s) && Enabled(s, Talk(step))
    ensures CallsInv(Step(s, Talk(step)))
  {
    CallsStay(s, Step(s, Talk(step)));
  }

  lemma TalkKeepsBound(s: State, step: Session.Action)
    requires Enabled(s, Talk(step))
    ensures Step(s, Talk(step)).session.bound == s.session.bound
  {
  }

  lemma LinkKeepsJoint(s: State, a: Action)
    requires Joint(s) && Enabled(s, a) && (a.Connect? || a.Disconnect?)
    ensures Joint(Step(s, a))
  {
    SendersStay(s, Step(s, a));
    CallsStay(s, Step(s, a));
  }

  lemma CallKeepsSenders(s: State, a: Action)
    requires Joint(s) && Enabled(s, a) && a.Call?
    ensures SendersInv(Step(s, a))
  {
    if s.session.bound.Some? {
      SenderComes(s, Step(s, a), a.ask.sender, a.call);
    } else {
      SendersStay(s, Step(s, a));
    }
  }

  lemma CallKeepsCalls(s: State, a: Action)
    requires Joint(s) && Enabled(s, a) && a.Call?
    ensures CallsInv(Step(s, a))
  {
  }

  /** The sender of a request leaves with the call's step. */
  predicate Leaves(s: State, a: Action) {
    a.Sent? || a.SendFailed? || (a.Cancel? && Sending(s, a.call))
  }

  lemma LeaveKeepsSenders(s: State, a: Action)
    requires Session.ActorsInv(s.session) && SendersInv(s) && Enabled(s, a) && Leaves(s, a)
    ensures SendersInv(Step(s, a))
  {
    var sender := s.asks[a.call].sender;
    assert SendsFor(s, sender, a.call);
    SenderLeaves(s.session, sender);
    SenderGoes(s, Step(s, a), sender, a.call);
  }

  lemma LeaveKeepsCalls(s: State, a: Action)
    requires Session.ActorsInv(s.session) && SendersInv(s) && CallsInv(s) && Enabled(s, a) && Leaves(s, a)
    ensures CallsInv(Step(s, a))
  {
    var sender := s.asks[a.call].sender;
    assert SendsFor(s, sender, a.call);
    SenderLeaves(s.session, sender);
    LeaveEndsNoTurn(s, Step(s, a), sender);
    CallsStay(s, Step(s, a));
  }

  lemma LeaveEndsNoTurn(s: State, s': State, sender: nat)
    requires Session.ActorsInv(s.session) && IsSender(s, sender)
    requires s'.session.actors == s.session.actors - {sender}
    ensures forall id :: InTurn(s, id) ==> InTurn(s', id)
  {
  }

  lemma LeaveKeepsBound(s: State, a: Action)
    requires Session.ActorsInv(s.session) && Joint(s) && Enabled(s, a) && Leaves(s, a)
    ensures Step(s, a).relay.socket == Step(s, a).session.bound
  {
    assert SendsFor(s, s.asks[a.call].sender, a.call);
    SenderLeaves(s.session, s.asks[a.call].sender);
  }

  lemma ReplyKeepsJoint(s: State, a: Action)
    requires Joint(s) && Enabled(s, a) && a.Reply?
    ensures Joint(Step(s, a))
  {
    SendersStay(s, Step(s, a));
    CallsStay(s, Step(s, a));
  }

  lemma ReturnKeepsJoint(s: State, a: Action)
    requires Joint(s) && Enabled(s, a) && (a.Expire? || a.Resume? || (a.Cancel? && Waiting(s, a.call)))
    ensures Joint(Step(s, a))
  {
    SendersStay(s, Step(s, a));
    CallsStay(s, Step(s, a));
  }

  lemma LeaveKeepsJoint(s: State, a: Action)
    requires Session.ActorsInv(s.session) && Joint(s) && Enabled(s, a) && Leaves(s, a)
    ensures Joint(Step(s, a))
  {
    LeaveKeepsSenders(s, a);
    LeaveKeepsCalls(s, a);
    LeaveKeepsBound(s, a);
  }

  lemma CallKeepsJoint(s: State, a: Action)
    requires Joint(s) && Enabled(s, a) && a.Call?
    ensures Joint(Step(s, a))
  {
    CallKeepsSenders(s, a);
    CallKeepsCalls(s, a);
  }

  lemma TalkKeepsJoint(s: State, step: Session.Action)
    requires Session.ActorsInv(s.session) && Joint(s) && Enabled(s, Talk(step))
    ensures Joint(Step(s, Talk(step)))
  {
    TalkKeepsSenders(s, step);
    TalkKeepsCalls(s, step);
    TalkKeepsBound(s, step);
  }

  lemma StepKeepsJoint(s: State, a: Action)
    requires Session.ActorsInv(s.session) && Joint(s) && Enabled(s, a)
    ensures Joint(Step(s, a))
  {
    match a
    case Talk(step) => TalkKeepsJoint(s, step);
    case Connect => LinkKeepsJoint(s, a);
    case Disconnect => LinkKeepsJoint(s, a);
    case Call(_, _) => CallKeepsJoint(s, a);
    case Reply(_, _, _) => ReplyKeepsJoint(s, a);
    case _ =>
      if Leaves(s, a) {
        LeaveKeepsJoint(s, a);
      } else {
        ReturnKeepsJoint(s, a);
      }
  }

  lemma StepKeepsInv(s: State, a: Action)
    requires Inv(s) && Enabled(s, a)
    ensures Inv(Step(s, a))
  {
    SessionKeeps(s, a);
    RelayKeeps(s, a);
    StepKeepsJoint(s, a);
  }

  lemma {:induction false} RunKeepsInv(s: State, log: seq<Action>)
    requires Inv(s) && RunFrom(s, log).Some?
    ensures Inv(RunFrom(s, log).value)
  {
    if log == [] {
    } else {
      RunKeepsInv(s, log[..|log| - 1]);
      StepKeepsInv(RunFrom(s, log[..|log| - 1]).value, log[|log| - 1]);
    }
  }

  lemma InitialInv()
    ensures Inv(INITIAL)
  {
  }

  lemma RunFromExtends(s: State, log: seq<Action>, a: Action)
    requires RunFrom(s, log).Some? && Enabled(RunFrom(s, log).value, a)
    ensures RunFrom(s, log + [a]) == Some(Step(RunFrom(s, log).value, a))
  {
    assert (log + [a])[..|log + [a]| - 1] == log;
  }

  lemma {:induction false} RunFromConcat(s: State, a: seq<Action>, b: seq<Action>)
    requires RunFrom(s, a).Some?
    ensures RunFrom(s, a + b) == RunFrom(RunFrom(s, a).value, b)
  {
    if b == [] {
      assert a + b == a;
    } else {
      var n := |b| - 1;
      RunFromConcat(s, a, b[..n]);
      assert (a + b)[..|a + b| - 1] == a + b[..n];
    }
  }

  // ---- both parts run as they do alone ----

  /** The session's side of a step: itself, the sender's arrival or departure, or the end of a reply's task. */
  function SessionStep(s: State, a: Action): Option<Session.Action>
    requires Enabled(s, a)
  {
    match a
    case Talk(step) => Some(step)
    case Connect => Some(Session.HandshakeOk)
    case Disconnect => Some(Session.Disconnect)
    case Call(_, ask) => if s.session.bound.Some? then Some(Session.BeginApproval(ask.sender)) else None
    case Reply(id, _, _) => Some(Session.Finish(id))
    case Expire(_) => None
    case Resume(_) => None
    case _ => if Leaves(s, a) then Some(Session.CancelTask(s.asks[a.call].sender)) else None
  }

  lemma SessionTakesStep(s: State, a: Action)
    requires Inv(s) && Enabled(s, a)
    ensures match SessionStep(s, a)
            case Some(b) => Session.Enabled(s.session, b) && Step(s, a).session == Session.Step(s.session, b)
            case None => Step(s, a).session == s.session
  {
    if Leaves(s, a) {
      assert SendsFor(s, s.asks[a.call].sender, a.call);
    }
  }

  /** How many connections have been opened. */
  ghost function Opened(log: seq<Action>): nat {
    if log == [] then 0
    else Opened(log[..|log| - 1]) + if log[|log| - 1] == Talk(Session.Open) then 1 else 0
  }

  /** The turn and the sender that `call` was begun with. */
  ghost function AskSaid(log: seq<Action>, call: string): Ask {
    if log == [] then Ask(0, 0)
    else if log[|log| - 1].Call? && log[|log| - 1].call == call then log[|log| - 1].ask
    else AskSaid(log[..|log| - 1], call)
  }

  /** What the log says of the relay. */
  ghost function RelayLog(log: seq<Action>): seq<Relay.Action> {
    if log == [] then []
    else
      var last := match log[|log| - 1]
        case Talk(_) => []
        case Connect => [Relay.Bind(Opened(log))]
        case Disconnect => [Relay.Unbind]
        case Call(call, _) => [Relay.Begin(call)]
        case Sent(call) => [Relay.Sent(call)]
        case SendFailed(call) => [Relay.SendFailed(call)]
        case Reply(_, call, allowed) => [Relay.Reply(call, allowed)]
        case Expire(call) => [Relay.Expire(call)]
        case Resume(call) => [Relay.Resume(call)]
        case Cancel(call) => [Relay.Cancel(call)];
      RelayLog(log[..|log| - 1]) + last
  }

  /** What the log says of the session: a call brings a sender if a socket is bound, gone when its send is over. */
  ghost function SessionLog(log: seq<Action>): seq<Session.Action> {
    if log == [] then []
    else
      var before := log[..|log| - 1];
      var last := match log[|log| - 1]
        case Talk(step) => [step]
        case Connect => [Session.HandshakeOk]
        case Disconnect => [Session.Disconnect]
        case Call(_, ask) => if Relay.Bound(RelayLog(before)) then [Session.BeginApproval(ask.sender)] else []
        case Sent(call) => [Session.CancelTask(AskSaid(before, call).sender)]
        case SendFailed(call) => [Session.CancelTask(AskSaid(before, call).sender)]
        case Reply(id, _, _) => [Session.Finish(id)]
        case Cancel(call) =>
          if RelayHistory.Stands(RelayLog(before), call) == Relay.Sending
          then [Session.CancelTask(AskSaid(before, call).sender)] else []
        case _ => [];
      SessionLog(before) + last
  }

  ghost predicate PartsTold(log: seq<Action>, s: State) {
    && Session.Run(SessionLog(log)) == Some(s.session) && Relay.Run(RelayLog(log)) == Some(s.relay)
    && s.session.conn == Opened(log)
    && forall call :: call in s.asks ==> s.asks[call] == AskSaid(log, call)
  }

  function AsList<T>(step: Option<T>): seq<T> {
    match step case Some(a) => [a] case None => []
  }

  lemma RelayLogStep(log: seq<Action>, s: State, a: Action)
    requires s.session.conn == Opened(log) && Enabled(s, a)
    ensures RelayLog(log + [a]) == RelayLog(log) + AsList(RelayStep(s, a))
  {
    assert (log + [a])[..|log|] == log;
  }

  lemma SessionLogStep(log: seq<Action>, s: State, a: Action)
    requires Inv(s) && PartsTold(log, s) && Enabled(s, a)
    ensures SessionLog(log + [a]) == SessionLog(log) + AsList(SessionStep(s, a))
  {
    assert (log + [a])[..|log|] == log;
    if a.Call? || a.Cancel? {
      RelayTold(log, s, a.call);
    }
  }

  lemma RelayTold(log: seq<Action>, s: State, call: string)
    requires Inv(s) && PartsTold(log, s)
    ensures s.session.bound.Some? <==> Relay.Bound(RelayLog(log))
    ensures call in s.asks ==> s.relay.calls[call].phase == RelayHistory.Stands(RelayLog(log), call)
  {
    Relay.StateIsHistory(RelayLog(log), call);
    RelayHistory.CallIsHistory(RelayLog(log), call);
  }

  lemma ConnStep(s: Session.State, b: Session.Action)
    requires Session.Enabled(s, b)
    ensures Session.Step(s, b).conn == s.conn + if b.Open? then 1 else 0
  {
  }

  lemma OpenedStep(log: seq<Action>, s: State, a: Action)
    requires Inv(s) && s.session.conn == Opened(log) && Enabled(s, a)
    ensures Step(s, a).session.conn == Opened(log + [a])
  {
    assert (log + [a])[..|log|] == log;
    SessionTakesStep(s, a);
    if SessionStep(s, a).Some? {
      ConnStep(s.session, SessionStep(s, a).value);
    }
  }

  lemma AsksStep(log: seq<Action>, s: State, a: Action)
    requires Enabled(s, a) && forall call :: call in s.asks ==> s.asks[call] == AskSaid(log, call)
    ensures forall call :: call in Step(s, a).asks ==> Step(s, a).asks[call] == AskSaid(log + [a], call)
  {
    assert (log + [a])[..|log|] == log;
  }

  lemma RelayPart(log: seq<Action>, s: State, a: Action)
    requires s.session.conn == Opened(log) && Relay.Run(RelayLog(log)) == Some(s.relay) && Enabled(s, a)
    ensures Relay.Run(RelayLog(log + [a])) == Some(Step(s, a).relay)
  {
    RelayTakesStep(s, a);
    RelayLogStep(log, s, a);
    match RelayStep(s, a)
    case Some(b) => RelayRuns(RelayLog(log), b);
    case None => assert RelayLog(log) + [] == RelayLog(log);
  }

  lemma SessionPart(log: seq<Action>, s: State, a: Action)
    requires Inv(s) && PartsTold(log, s) && Enabled(s, a)
    ensures Session.Run(SessionLog(log + [a])) == Some(Step(s, a).session)
  {
    SessionTakesStep(s, a);
    SessionLogStep(log, s, a);
    match SessionStep(s, a)
    case Some(b) => SessionRuns(SessionLog(log), b);
    case None => assert SessionLog(log) + [] == SessionLog(log);
  }

  lemma PartsStep(log: seq<Action>, s: State, a: Action)
    requires Inv(s) && PartsTold(log, s) && Enabled(s, a)
    ensures PartsTold(log + [a], Step(s, a))
  {
    RelayPart(log, s, a);
    SessionPart(log, s, a);
    OpenedStep(log, s, a);
    AsksStep(log, s, a);
  }

  lemma StartIsTold(log: seq<Action>)
    requires log == []
    ensures PartsTold(log, INITIAL)
  {
  }

  lemma LastStep(log: seq<Action>) returns (before: seq<Action>, a: Action)
    requires log != [] && Run(log).Some?
    ensures log == before + [a] && |before| < |log| && Run(before).Some? && Enabled(Run(before).value, a)
    ensures Run(log) == Some(Step(Run(before).value, a))
  {
    before, a := log[..|log| - 1], log[|log| - 1];
  }

  lemma {:induction false} RunIsTold(log: seq<Action>)
    requires Run(log).Some?
    ensures Inv(Run(log).value) && PartsTold(log, Run(log).value)
    decreases |log|
  {
    if log == [] {
      InitialInv();
      StartIsTold(log);
    } else {
      var before, a := LastStep(log);
      RunIsTold(before);
      StepKeepsInv(Run(before).value, a);
      PartsStep(before, Run(before).value, a);
    }
  }

  /**
    Both parts run as the log says: what is proved of every run of the session and of the relay
    holds here, and nothing else happens.
   */
  lemma PartsRun(log: seq<Action>)
    requires Run(log).Some?
    ensures Session.Run(SessionLog(log)) == Some(Run(log).value.session)
    ensures Relay.Run(RelayLog(log)) == Some(Run(log).value.relay)
    ensures PartsTold(log, Run(log).value)
  {
    RunIsTold(log);
  }

  lemma SessionRuns(log: seq<Session.Action>, a: Session.Action)
    requires Session.Run(log).Some? && Session.Enabled(Session.Run(log).value, a)
    ensures Session.Run(log + [a]) == Some(Session.Step(Session.Run(log).value, a))
  {
    assert (log + [a])[..|log + [a]| - 1] == log;
  }

  lemma RelayRuns(log: seq<Relay.Action>, a: Relay.Action)
    requires Relay.Run(log).Some? && Relay.Enabled(Relay.Run(log).value, a)
    ensures Relay.Run(log + [a]) == Some(Relay.Step(Relay.Run(log).value, a))
  {
    assert (log + [a])[..|log + [a]| - 1] == log;
  }
}

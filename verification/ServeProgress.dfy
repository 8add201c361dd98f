/**
  Nobody waits for ever: from every reachable state of the serve session, replies and the frames
  that are already due are enough to finish every call and to give every waiting chat its turn.
 */
module ServeProgress {
  import opened Wrappers
  import opened Serve
  import Session
  import Relay

  /** Nothing is cancelled, fails or runs out of time, and the connection stays. */
  predicate Helps(a: Action) {
    match a
    case Talk(step) => step.Dispatch? || step.AcquireChat? || step.AcquireSend? || step.SendDone? || step.EndTurn?
    case Sent(_) => true
    case Reply(_, _, _) => true
    case Resume(_) => true
    case _ => false
  }

  ghost predicate Leads(s: State, more: seq<Action>, s': State) {
    RunFrom(s, more) == Some(s') && forall a :: a in more ==> Helps(a)
  }

  /** Every task is where it was in its turn, no lock on the chat moved, and no call has begun. */
  ghost predicate Keeps(s: State, s': State) {
    && (forall id :: Session.IsTask(s.session, id) ==>
          && Session.IsTask(s'.session, id)
          && s'.session.actors[id].socket == s.session.actors[id].socket
          && s'.session.actors[id].turn == s.session.actors[id].turn)
    && s'.session.chatHolders == s.session.chatHolders
    && (forall c :: c in s.asks ==> c in s'.asks && s'.asks[c] == s.asks[c])
    && (forall c :: Unfinished(s', c) ==> Unfinished(s, c))
  }

  lemma OneStep(s: State, a: Action)
    requires Inv(s) && Enabled(s, a) && Helps(a)
    ensures Leads(s, [a], Step(s, a)) && Inv(Step(s, a))
  {
    RunFromExtends(s, [], a);
    assert [] + [a] == [a];
    StepKeepsInv(s, a);
  }

  lemma ThenLeads(s: State, a: seq<Action>, t: State, b: seq<Action>, u: State)
    requires Leads(s, a, t) && Leads(t, b, u)
    ensures Leads(s, a + b, u)
  {
    RunFromConcat(s, a, b);
  }

  lemma KeepsTrans(s: State, t: State, u: State)
    requires Keeps(s, t) && Keeps(t, u)
    ensures Keeps(s, u)
  {
  }

  // ---- the wire ----

  predicate Queued(s: State, id: nat) {
    id in s.session.actors && s.session.actors[id].send.Queued?
  }

  /** Whoever waits for the wire still does. */
  ghost predicate KeepsQueue(s: State, s': State) {
    forall id :: Queued(s, id) ==>
      && Queued(s', id) && s'.session.actors[id] == s.session.actors[id]
      && forall c :: SendsFor(s, id, c) ==> SendsFor(s', id, c)
  }

  lemma DoneKeeps(s: State, id: nat)
    requires Enabled(s, Talk(Session.SendDone(id)))
    ensures Keeps(s, Step(s, Talk(Session.SendDone(id))))
  {
  }

  lemma DoneKeepsQueue(s: State, id: nat)
    requires Enabled(s, Talk(Session.SendDone(id)))
    ensures KeepsQueue(s, Step(s, Talk(Session.SendDone(id))))
  {
  }

  lemma TaskFrees(s: State, id: nat)
    requires Inv(s) && Session.IsTask(s.session, id) && OnWire(s, id)
    ensures var a := Talk(Session.SendDone(id));
            && Enabled(s, a) && Keeps(s, Step(s, a)) && KeepsQueue(s, Step(s, a))
            && s.session.actors[id].socket !in Step(s, a).session.sendHolders
            && Step(s, a).session.actors[id].send.Idle?
  {
    assert Session.ActorInv(s.session, id);
    DoneKeeps(s, id);
    DoneKeepsQueue(s, id);
  }

  lemma SentKeeps(s: State, call: string)
    requires Session.ActorsInv(s.session) && Enabled(s, Sent(call)) && IsSender(s, s.asks[call].sender)
    ensures Keeps(s, Step(s, Sent(call)))
  {
    SenderLeaves(s.session, s.asks[call].sender);
  }

  lemma SentKeepsQueue(s: State, call: string)
    requires Session.ActorsInv(s.session) && Enabled(s, Sent(call)) && IsSender(s, s.asks[call].sender)
    ensures KeepsQueue(s, Step(s, Sent(call)))
  {
    SenderLeaves(s.session, s.asks[call].sender);
  }

  lemma SenderFrees(s: State, id: nat, call: string)
    requires Inv(s) && SendsFor(s, id, call) && OnWire(s, id)
    ensures var a := Sent(call);
            && Enabled(s, a) && Keeps(s, Step(s, a)) && KeepsQueue(s, Step(s, a))
            && s.session.actors[id].socket !in Step(s, a).session.sendHolders
            && Waiting(Step(s, a), call)
  {
    assert Busy(s, id);
    SentKeeps(s, call);
    SentKeepsQueue(s, call);
    SenderLeaves(s.session, id);
  }

  /** Whoever holds the wire can finish its frame. */
  lemma WireFrees(s: State, lock: nat) returns (a: Action)
    requires Inv(s) && lock in s.session.sendHolders
    ensures Enabled(s, a) && Helps(a) && Keeps(s, Step(s, a)) && KeepsQueue(s, Step(s, a))
    ensures lock !in Step(s, a).session.sendHolders
  {
    var id := s.session.sendHolders[lock];
    assert Session.ActorInv(s.session, id);
    if Session.IsTask(s.session, id) {
      a := Talk(Session.SendDone(id));
      TaskFrees(s, id);
    } else {
      assert IsSender(s, id);
      var call :| SendsFor(s, id, call);
      a := Sent(call);
      SenderFrees(s, id, call);
    }
  }

  /** Whoever waits for the wire can have it. */
  lemma WireComes(s: State, id: nat) returns (more: seq<Action>, s': State)
    requires Inv(s) && Queued(s, id)
    ensures Leads(s, more, s') && Inv(s') && Keeps(s, s')
    ensures OnWire(s', id) && s'.session.actors[id] == s.session.actors[id].(send := s'.session.actors[id].send)
    ensures forall c :: SendsFor(s, id, c) ==> SendsFor(s', id, c)
  {
    var lock := s.session.actors[id].send.lock;
    if lock in s.session.sendHolders {
      var a := WireFrees(s, lock);
      var t := Step(s, a);
      OneStep(s, a);
      s' := TakesWire(t, id);
      ThenLeads(s, [a], t, [Talk(Session.AcquireSend(id))], s');
      KeepsTrans(s, t, s');
      more := [a] + [Talk(Session.AcquireSend(id))];
    } else {
      s' := TakesWire(s, id);
      more := [Talk(Session.AcquireSend(id))];
    }
  }

  lemma TakesWire(s: State, id: nat) returns (s': State)
    requires Inv(s) && Queued(s, id) && s.session.actors[id].send.lock !in s.session.sendHolders
    ensures Leads(s, [Talk(Session.AcquireSend(id))], s') && Inv(s') && Keeps(s, s')
    ensures OnWire(s', id) && s'.session.actors[id] == s.session.actors[id].(send := s'.session.actors[id].send)
    ensures forall c :: SendsFor(s, id, c) ==> SendsFor(s', id, c)
  {
    s' := Step(s, Talk(Session.AcquireSend(id)));
    TakeKeeps(s, id);
    OneStep(s, Talk(Session.AcquireSend(id)));
  }

  lemma TakeKeeps(s: State, id: nat)
    requires Enabled(s, Talk(Session.AcquireSend(id)))
    ensures Keeps(s, Step(s, Talk(Session.AcquireSend(id))))
  {
  }

  // ---- a call's request goes out ----

  /** A request that waits for the wire, or is on it, goes out. */
  lemma RequestGoesOut(s: State, call: string) returns (more: seq<Action>, s': State)
    requires Inv(s) && Sending(s, call)
    ensures Leads(s, more, s') && Inv(s') && Keeps(s, s') && Waiting(s', call)
  {
    var id := s.asks[call].sender;
    assert SendsFor(s, id, call);
    assert Busy(s, id);
    if OnWire(s, id) {
      more, s' := [Sent(call)], Step(s, Sent(call));
      SenderFrees(s, id, call);
      OneStep(s, Sent(call));
    } else {
      var before, t := WireComes(s, id);
      s' := Step(t, Sent(call));
      SenderFrees(t, id, call);
      OneStep(t, Sent(call));
      ThenLeads(s, before, t, [Sent(call)], s');
      KeepsTrans(s, t, s');
      more := before + [Sent(call)];
    }
  }

  // ---- its reply comes in ----

  predicate Decided(s: State, call: string)
    requires Waiting(s, call)
  {
    s.relay.calls[call].fired
  }

  /** Only a live connection has undecided calls. */
  lemma UndecidedIsUp(s: State, call: string)
    requires Inv(s) && Waiting(s, call) && !Decided(s, call)
    ensures call in s.relay.pending && s.session.link.Up?
  {
  }

  function Answer(id: nat, call: string, allowed: bool): seq<Action> {
    [Talk(Session.Dispatch(id)), Reply(id, call, allowed), Resume(call)]
  }

  predicate Returned(s: State, call: string, allowed: bool) {
    Relay.InPhase(s.relay, call, Relay.Returned(allowed))
  }

  lemma FrameComesAndGoes(s: Session.State, id: nat)
    requires s.link.Up? && id !in s.actors
    ensures Session.Enabled(s, Session.Dispatch(id))
    ensures var t := Session.Step(s, Session.Dispatch(id));
            && Session.IsTask(t, id) && t.actors[id].turn.Fresh? && t.actors[id].send.Idle?
            && Session.Step(t, Session.Finish(id)) == s
  {
    var t := Session.Step(s, Session.Dispatch(id));
    assert t.actors - {id} == s.actors;
  }

  lemma ReplyPasses(s: State, call: string, id: nat, allowed: bool) returns (s': State)
    requires Inv(s) && s.session.link.Up? && id !in s.session.actors
    ensures Leads(s, [Talk(Session.Dispatch(id)), Reply(id, call, allowed)], s') && Inv(s')
    ensures s' == s.(relay := Relay.Step(s.relay, Relay.Reply(call, allowed)))
  {
    FrameComesAndGoes(s.session, id);
    var a, b := Talk(Session.Dispatch(id)), Reply(id, call, allowed);
    var t := Step(s, a);
    OneStep(s, a);
    s' := Step(t, b);
    OneStep(t, b);
    ThenLeads(s, [a], t, [b], s');
    assert [a] + [b] == [a, b];
  }

  /** The calls are as they were, except `call`. */
  ghost predicate OthersStay(s: State, s': State, call: string) {
    && s'.session == s.session && s'.asks == s.asks
    && forall c :: c != call ==> (Unfinished(s', c) <==> Unfinished(s, c))
  }

  lemma ResumeReturns(s: State, call: string)
    requires Waiting(s, call) && Decided(s, call)
    ensures Enabled(s, Resume(call))
    ensures var s' := Step(s, Resume(call));
            Returned(s', call, s.relay.calls[call].allowed) && OthersStay(s, s', call)
  {
  }

  lemma ReplyDecides(s: State, call: string, allowed: bool)
    requires Waiting(s, call) && call in s.relay.pending
    ensures var s' := s.(relay := Relay.Step(s.relay, Relay.Reply(call, allowed)));
            && Waiting(s', call) && Decided(s', call) && s'.relay.calls[call].allowed == allowed
            && OthersStay(s, s', call)
  {
  }

  /** A call that is decided returns, and nothing else changes. */
  lemma CallReturns(s: State, call: string) returns (s': State)
    requires Inv(s) && Waiting(s, call) && Decided(s, call)
    ensures Leads(s, [Resume(call)], s') && Inv(s')
    ensures Returned(s', call, s.relay.calls[call].allowed) && OthersStay(s, s', call)
  {
    ResumeReturns(s, call);
    s' := Step(s, Resume(call));
    OneStep(s, Resume(call));
  }

  /** A frame that answers a waiting call is dispatched, taken and obeyed, and holds nothing up on its way. */
  lemma AnswerPasses(s: State, call: string, id: nat, allowed: bool) returns (s': State)
    requires Inv(s) && Waiting(s, call) && !Decided(s, call) && id !in s.session.actors
    ensures Leads(s, Answer(id, call, allowed), s') && Inv(s')
    ensures Returned(s', call, allowed) && OthersStay(s, s', call)
  {
    UndecidedIsUp(s, call);
    var t := ReplyPasses(s, call, id, allowed);
    ReplyDecides(s, call, allowed);
    s' := CallReturns(t, call);
    var reply := [Talk(Session.Dispatch(id)), Reply(id, call, allowed)];
    ThenLeads(s, reply, t, [Resume(call)], s');
    assert reply + [Resume(call)] == Answer(id, call, allowed);
  }

  lemma {:induction false} Unused(ids: set<nat>) returns (id: nat)
    ensures forall i :: i in ids ==> i < id
  {
    id := 0;
    if ids != {} {
      var i :| i in ids;
      id := Unused(ids - {i});
      assert forall j :: j in ids ==> j == i || j in ids - {i};
      id := if id <= i then i + 1 else id;
    }
  }

  // ---- calls finish, turns end ----

  /** Every call finishes, answered with `allowed` if it is still undecided. */
  lemma CallFinishes(s: State, call: string, allowed: bool) returns (more: seq<Action>, s': State)
    requires Inv(s) && Unfinished(s, call)
    ensures Leads(s, more, s') && Inv(s') && Keeps(s, s') && !Unfinished(s', call)
  {
    if Sending(s, call) {
      var sent, t := RequestGoesOut(s, call);
      var rest;
      rest, s' := WaitingCallFinishes(t, call, allowed);
      ThenLeads(s, sent, t, rest, s');
      KeepsTrans(s, t, s');
      more := sent + rest;
    } else {
      more, s' := WaitingCallFinishes(s, call, allowed);
    }
  }

  lemma WaitingCallFinishes(s: State, call: string, allowed: bool) returns (more: seq<Action>, s': State)
    requires Inv(s) && Waiting(s, call)
    ensures Leads(s, more, s') && Inv(s') && Keeps(s, s') && !Unfinished(s', call)
  {
    if Decided(s, call) {
      more := [Resume(call)];
      s' := CallReturns(s, call);
    } else {
      var id := Unused(s.session.actors.Keys);
      more := Answer(id, call, allowed);
      s' := AnswerPasses(s, call, id, allowed);
    }
  }

  function OpenCalls(s: State, id: nat): set<string> {
    set c | c in s.asks && s.asks[c].task == id && Unfinished(s, c)
  }

  lemma SubsetIsSmaller(a: set<string>, b: set<string>, x: string)
    requires a <= b && x in b && x !in a
    ensures |a| < |b|
  {
    assert b == a + (b - a) && x in b - a;
  }

  lemma FewerOpen(s: State, s': State, id: nat, call: string)
    requires CallsInv(s) && CallsInv(s') && Keeps(s, s') && call in OpenCalls(s, id) && !Unfinished(s', call)
    ensures |OpenCalls(s', id)| < |OpenCalls(s, id)|
  {
    SubsetIsSmaller(OpenCalls(s', id), OpenCalls(s, id), call);
  }

  /** All calls of a turn finish. */
  lemma {:induction false} CallsFinish(s: State, id: nat, answers: string -> bool)
      returns (more: seq<Action>, s': State)
    requires Inv(s)
    ensures Leads(s, more, s') && Inv(s') && Keeps(s, s') && CallsReturned(s', id)
    decreases |OpenCalls(s, id)|
  {
    if OpenCalls(s, id) == {} {
      more, s' := [], s;
      assert forall c :: c in s.asks && s.asks[c].task == id ==> c !in OpenCalls(s, id);
    } else {
      var call :| call in OpenCalls(s, id);
      var first, t := CallFinishes(s, call, answers(call));
      FewerOpen(s, t, id, call);
      var rest;
      rest, s' := CallsFinish(t, id, answers);
      ThenLeads(s, first, t, rest, s');
      KeepsTrans(s, t, s');
      more := first + rest;
    }
  }

  lemma TurnCanEnd(s: State, id: nat)
    requires Session.ActorsInv(s.session) && InTurn(s, id) && CallsReturned(s, id)
    requires s.session.actors[id].send.Idle?
    ensures var a := Talk(Session.EndTurn(id));
            && Enabled(s, a)
            && s.session.actors[id].socket !in Step(s, a).session.chatHolders
            && forall t :: t != id && t in s.session.actors ==>
                 t in Step(s, a).session.actors && Step(s, a).session.actors[t] == s.session.actors[t]
  {
    assert Session.ActorInv(s.session, id);
  }

  /** The frame that a turn sends or waits to send goes out. */
  lemma FrameGoesOut(s: State, id: nat) returns (more: seq<Action>, s': State)
    requires Inv(s) && InTurn(s, id)
    ensures Leads(s, more, s') && Inv(s') && Keeps(s, s') && s'.session.actors[id].send.Idle?
  {
    if OnWire(s, id) {
      TaskFrees(s, id);
      more, s' := [Talk(Session.SendDone(id))], Step(s, Talk(Session.SendDone(id)));
      OneStep(s, Talk(Session.SendDone(id)));
    } else if Queued(s, id) {
      var before, t := WireComes(s, id);
      TaskFrees(t, id);
      s' := Step(t, Talk(Session.SendDone(id)));
      OneStep(t, Talk(Session.SendDone(id)));
      ThenLeads(s, before, t, [Talk(Session.SendDone(id))], s');
      KeepsTrans(s, t, s');
      more := before + [Talk(Session.SendDone(id))];
    } else {
      more, s' := [], s;
    }
  }

  /** A running turn ends: its calls are answered, its frame goes out, and it gives back the chat lock. */
  lemma TurnEnds(s: State, id: nat, answers: string -> bool) returns (more: seq<Action>, s': State)
    requires Inv(s) && InTurn(s, id)
    ensures Leads(s, more, s') && Inv(s')
    ensures s.session.actors[id].socket !in s'.session.chatHolders
    ensures forall t :: t != id && Session.IsTask(s.session, t) ==>
              Session.IsTask(s'.session, t) && s'.session.actors[t].turn == s.session.actors[t].turn
  {
    var calls, t := CallsFinish(s, id, answers);
    var frame, u := FrameGoesOut(t, id);
    KeepsTrans(s, t, u);
    TurnCanEnd(u, id);
    s' := Step(u, Talk(Session.EndTurn(id)));
    OneStep(u, Talk(Session.EndTurn(id)));
    ThenLeads(s, calls, t, frame, u);
    ThenLeads(s, calls + frame, u, [Talk(Session.EndTurn(id))], s');
    more := calls + frame + [Talk(Session.EndTurn(id))];
  }

  // ---- in every run ----

  predicate AwaitsTurn(s: State, id: nat) {
    Session.IsTask(s.session, id) && s.session.actors[id].turn.AwaitingLock?
  }

  lemma TakesTurn(s: State, id: nat) returns (s': State)
    requires Inv(s) && AwaitsTurn(s, id) && s.session.actors[id].turn.lock !in s.session.chatHolders
    ensures Leads(s, [Talk(Session.AcquireChat(id))], s') && Inv(s') && InTurn(s', id)
  {
    s' := Step(s, Talk(Session.AcquireChat(id)));
    OneStep(s, Talk(Session.AcquireChat(id)));
  }

  lemma TurnFollows(s: State, id: nat, answers: string -> bool) returns (more: seq<Action>, s': State)
    requires Inv(s) && AwaitsTurn(s, id)
    ensures Leads(s, more, s') && InTurn(s', id)
  {
    var lock := s.session.actors[id].turn.lock;
    if lock in s.session.chatHolders {
      var holder := s.session.chatHolders[lock];
      assert Session.ActorInv(s.session, holder);
      var before, t := TurnEnds(s, holder, answers);
      s' := TakesTurn(t, id);
      ThenLeads(s, before, t, [Talk(Session.AcquireChat(id))], s');
      more := before + [Talk(Session.AcquireChat(id))];
    } else {
      more := [Talk(Session.AcquireChat(id))];
      s' := TakesTurn(s, id);
    }
  }

  lemma ReachableInv(log: seq<Action>)
    requires Run(log).Some?
    ensures Inv(Run(log).value)
  {
    InitialInv();
    RunKeepsInv(INITIAL, log);
  }

  /**
    No deadlock. After every run, a chat that waits for its turn can get it, whatever answers the
    open calls of the turn before it are given: by frames that are due and by replies, without a
    call being denied by a deadline, a failure or a disconnect and without a task being cancelled.
   */
  lemma TurnComes(log: seq<Action>, id: nat, answers: string -> bool) returns (more: seq<Action>)
    requires Run(log).Some? && AwaitsTurn(Run(log).value, id)
    ensures Run(log + more).Some? && InTurn(Run(log + more).value, id)
    ensures forall a :: a in more ==> Helps(a)
  {
    ReachableInv(log);
    var s': State;
    more, s' := TurnFollows(Run(log).value, id, answers);
    RunFromConcat(INITIAL, log, more);
  }

  /**
    After every run, a call that waits undecided can be answered at once, whoever holds which lock:
    the reply's frame is dispatched and taken, the call returns what it allows, and the session is
    left as it was. One that is decided can return.
   */
  lemma AnswerArrives(log: seq<Action>, call: string, id: nat, allowed: bool)
    requires Run(log).Some? && Waiting(Run(log).value, call) && id !in Run(log).value.session.actors
    ensures Decided(Run(log).value, call) ==> Enabled(Run(log).value, Resume(call))
    ensures !Decided(Run(log).value, call) ==>
              var after := Run(log + Answer(id, call, allowed));
              && after.Some? && Returned(after.value, call, allowed)
              && after.value.session == Run(log).value.session
  {
    ReachableInv(log);
    var s := Run(log).value;
    if Decided(s, call) {
      ResumeReturns(s, call);
    } else {
      var s' := AnswerPasses(s, call, id, allowed);
      RunFromConcat(INITIAL, log, Answer(id, call, allowed));
    }
  }
}

/**
  The end of a connection: after every run a disconnect can be followed through to the end,
  cancelling what still runs, and then nothing of the connection is left and the next one can open.
 */
module ServeTeardown {
  import opened Wrappers
  import opened Serve
  import opened ServeProgress
  import Session
  import Relay

  /** What teardown does: disconnect, cancel, close. */
  predicate TearsDown(a: Action) {
    a.Disconnect? || a.Cancel? || (a.Talk? && (a.step.CancelTask? || a.step.Closed?))
  }

  ghost predicate TornDown(s: State, more: seq<Action>, s': State) {
    RunFrom(s, more) == Some(s') && forall a :: a in more ==> TearsDown(a)
  }

  lemma Teardown1(s: State, a: Action)
    requires Inv(s) && Enabled(s, a) && TearsDown(a)
    ensures TornDown(s, [a], Step(s, a)) && Inv(Step(s, a))
  {
    RunFromExtends(s, [], a);
    assert [] + [a] == [a];
    StepKeepsInv(s, a);
  }

  lemma TeardownThen(s: State, a: seq<Action>, t: State, b: seq<Action>, u: State)
    requires TornDown(s, a, t) && TornDown(t, b, u)
    ensures TornDown(s, a + b, u)
  {
    RunFromConcat(s, a, b);
  }

  function Unreturned(s: State): set<string> {
    set c | c in s.asks && Unfinished(s, c)
  }

  function Tasks(s: State): set<nat> {
    set id | id in s.session.actors && !s.session.actors[id].approval
  }

  lemma CancelReturns(s: State, call: string)
    requires Session.ActorsInv(s.session) && SendersInv(s) && Unfinished(s, call)
    ensures Enabled(s, Cancel(call))
    ensures Unreturned(Step(s, Cancel(call))) == Unreturned(s) - {call}
    ensures Tasks(Step(s, Cancel(call))) == Tasks(s) && Step(s, Cancel(call)).session.link == s.session.link
  {
    if Sending(s, call) {
      assert SendsFor(s, s.asks[call].sender, call);
      SenderLeaves(s.session, s.asks[call].sender);
    }
  }

  /** Every call that has not returned is cancelled. */
  lemma {:induction false} CallsAreCancelled(s: State) returns (more: seq<Action>, s': State)
    requires Inv(s)
    ensures TornDown(s, more, s') && Inv(s') && Unreturned(s') == {}
    ensures s'.session.link == s.session.link
    decreases |Unreturned(s)|
  {
    if Unreturned(s) == {} {
      more, s' := [], s;
    } else {
      var call :| call in Unreturned(s);
      CancelReturns(s, call);
      Teardown1(s, Cancel(call));
      var rest;
      rest, s' := CallsAreCancelled(Step(s, Cancel(call)));
      TeardownThen(s, [Cancel(call)], Step(s, Cancel(call)), rest, s');
      more := [Cancel(call)] + rest;
    }
  }

  lemma CancelEnds(s: State, id: nat)
    requires Unreturned(s) == {} && id in Tasks(s)
    ensures var a := Talk(Session.CancelTask(id));
            && Enabled(s, a) && Tasks(Step(s, a)) == Tasks(s) - {id} && Unreturned(Step(s, a)) == {}
            && Step(s, a).session.link == s.session.link
  {
    assert forall c :: c in s.asks && Unfinished(s, c) ==> c in Unreturned(s);
  }

  /** Every task is cancelled. */
  lemma {:induction false} TasksAreCancelled(s: State) returns (more: seq<Action>, s': State)
    requires Inv(s) && Unreturned(s) == {}
    ensures TornDown(s, more, s') && Inv(s') && Tasks(s') == {}
    ensures s'.session.link == s.session.link
    decreases |Tasks(s)|
  {
    if Tasks(s) == {} {
      more, s' := [], s;
    } else {
      var id :| id in Tasks(s);
      var a := Talk(Session.CancelTask(id));
      CancelEnds(s, id);
      Teardown1(s, a);
      var rest;
      rest, s' := TasksAreCancelled(Step(s, a));
      TeardownThen(s, [a], Step(s, a), rest, s');
      more := [a] + rest;
    }
  }

  /** Nothing of a connection is left: no lock, no task, no socket, no pending request; the next one can open. */
  ghost predicate Gone(s: State) {
    && s.session.link.Down? && s.session.sendLock == None && s.session.chatLock == None
    && s.relay.socket == None && s.relay.pending == {}
    && (forall id :: !Session.IsTask(s.session, id))
    && Enabled(s, Talk(Session.Open))
  }

  lemma CloseEnds(s: State)
    requires Inv(s) && s.session.link.Draining? && Tasks(s) == {}
    ensures Enabled(s, Talk(Session.Closed)) && Gone(Step(s, Talk(Session.Closed)))
  {
    assert forall id :: id in s.session.actors && !s.session.actors[id].approval ==> id in Tasks(s);
  }

  lemma TeardownFinishes(s: State) returns (more: seq<Action>, s': State)
    requires Inv(s) && s.session.link.Up?
    ensures TornDown(s, more, s') && Gone(s')
  {
    var t := Step(s, Disconnect);
    Teardown1(s, Disconnect);
    var calls, u := CallsAreCancelled(t);
    TeardownThen(s, [Disconnect], t, calls, u);
    var tasks, v := TasksAreCancelled(u);
    TeardownThen(s, [Disconnect] + calls, u, tasks, v);
    CloseEnds(v);
    s' := Step(v, Talk(Session.Closed));
    Teardown1(v, Talk(Session.Closed));
    TeardownThen(s, [Disconnect] + calls + tasks, v, [Talk(Session.Closed)], s');
    more := [Disconnect] + calls + tasks + [Talk(Session.Closed)];
  }

  /** After every run on a live connection, teardown can be seen through, and leaves nothing behind. */
  lemma ConnectionEnds(log: seq<Action>) returns (more: seq<Action>)
    requires Run(log).Some? && Run(log).value.session.link.Up?
    ensures Run(log + more).Some? && Gone(Run(log + more).value)
    ensures forall a :: a in more ==> TearsDown(a)
  {
    ReachableInv(log);
    var s': State;
    more, s' := TeardownFinishes(Run(log).value);
    RunFromConcat(INITIAL, log, more);
  }

  /** After every run, the deadline of a waiting call can pass, and then it returns what its box holds. */
  lemma DeadlineArrives(log: seq<Action>, call: string)
    requires Run(log).Some? && Waiting(Run(log).value, call)
    ensures var after := Run(log + [Expire(call), Resume(call)]);
            && after.Some? && Returned(after.value, call, Run(log).value.relay.calls[call].allowed)
            && after.value.session == Run(log).value.session
  {
    var s := Run(log).value;
    assert (log + [Expire(call)])[..|log|] == log;
    assert Run(log + [Expire(call)]) == Some(Step(s, Expire(call)));
    var l := log + [Expire(call), Resume(call)];
    assert l[..|l| - 1] == log + [Expire(call)];
  }
}

/**
  What the history of steps says of one call, all of it: where the call stands, whether its
  deadline has passed, and which steps can come next. Nothing here reads the state.
 */
module RelayHistory {
  import opened Wrappers
  import opened Relay

  /** `id` began when a socket was bound. */
  ghost predicate BegunBound(log: seq<Action>, id: string) {
    exists b :: 0 <= b < |log| && log[b] == Begin(id) && Bound(log[..b])
  }

  /** Where a call that has begun stands. */
  ghost function Stands(log: seq<Action>, id: string): Phase {
    if Cancel(id) in log then Cancelled
    else if Resume(id) in log then Returned(Approved(log, id))
    else if SendFailed(id) in log then Returned(false)
    else if Sent(id) in log then Waiting
    else if BegunBound(log, id) then Sending
    else Returned(false)
  }

  /** The step can come after `log`. */
  ghost predicate CanCome(log: seq<Action>, a: Action) {
    match a
    case Begin(id) => Begin(id) !in log
    case Sent(id) => Begin(id) in log && Stands(log, id) == Sending
    case SendFailed(id) => Begin(id) in log && Stands(log, id) == Sending
    case Expire(id) => Begin(id) in log && Stands(log, id) == Waiting
    case Resume(id) =>
      Begin(id) in log && Stands(log, id) == Waiting && (Settled(log, id) || Expire(id) in log)
    case Cancel(id) => Begin(id) in log && (Stands(log, id) == Sending || Stands(log, id) == Waiting)
    case _ => true
  }

  // ---- one more step ----

  lemma BegunBoundExtends(log: seq<Action>, a: Action, id: string)
    ensures BegunBound(log + [a], id) <==> BegunBound(log, id) || (a == Begin(id) && Bound(log))
  {
    var l := log + [a];
    assert l[..|log|] == log;
    if BegunBound(l, id) {
      var b :| 0 <= b < |l| && l[b] == Begin(id) && Bound(l[..b]);
      if b < |log| {
        assert l[..b] == log[..b] && log[b] == Begin(id);
      }
    }
    if BegunBound(log, id) {
      var b :| 0 <= b < |log| && log[b] == Begin(id) && Bound(log[..b]);
      assert l[..b] == log[..b] && l[b] == Begin(id);
    }
    if a == Begin(id) && Bound(log) {
      assert l[|log|] == Begin(id);
    }
  }

  /** What the log says of `id` that a state also holds. */
  ghost predicate Told(log: seq<Action>, s: State, id: string) {
    && (id in s.calls ==> s.calls[id].phase == Stands(log, id) && (s.calls[id].expired <==> Expire(id) in log))
    && (id !in s.calls ==>
          Sent(id) !in log && SendFailed(id) !in log && Expire(id) !in log && Resume(id) !in log && Cancel(id) !in log)
    && (BegunBound(log, id) ==> Begin(id) in log)
  }

  lemma Extended(log: seq<Action>, a: Action)
    ensures forall x :: x in log + [a] <==> x in log || x == a
  {
  }

  lemma ToldStep(log: seq<Action>, s: State, a: Action, id: string)
    requires Inv(s) && Agrees(log, s, id) && Told(log, s, id) && Enabled(s, a)
    ensures Told(log + [a], Step(s, a), id)
  {
    Extended(log, a);
    BegunBoundExtends(log, a, id);
    ApprovedExtends(log, a, id);
  }

  lemma {:induction false} StateIsTold(log: seq<Action>, id: string)
    requires Valid(log)
    ensures Told(log, After(log), id)
  {
    if log == [] {
    } else {
      var n := |log| - 1;
      StateIsTold(log[..n], id);
      StateIsHistory(log[..n], id);
      RunKeepsInv(log[..n]);
      ToldStep(log[..n], After(log[..n]), log[n], id);
      assert log[..n] + [log[n]] == log;
    }
  }

  // ---- the whole call ----

  /** A call stands where the log says, and its deadline has passed exactly when the log says so. */
  lemma CallIsHistory(log: seq<Action>, id: string)
    requires Valid(log)
    ensures id in After(log).calls <==> Begin(id) in log
    ensures id in After(log).calls ==>
              && After(log).calls[id].phase == Stands(log, id)
              && (After(log).calls[id].expired <==> Expire(id) in log)
  {
    StateIsHistory(log, id);
    StateIsTold(log, id);
  }

  /** Which steps can come next is decided by the log. */
  lemma StepsAreTold(log: seq<Action>, a: Action)
    requires Valid(log)
    ensures Enabled(After(log), a) <==> CanCome(log, a)
  {
    if !a.Bind? && !a.Unbind? {
      StateIsHistory(log, a.id);
      StateIsTold(log, a.id);
    }
  }

  /**
    A call that waits when its deadline passes can return, and returns False unless an allowing
    reply came while its request was open: then it returns True, even if the deadline came first.
   */
  lemma DeadlineEnds(log: seq<Action>, id: string, s: nat, e: nat)
    requires Valid(log) && s < e < |log| && log[s] == Sent(id) && log[e] == Expire(id)
    requires Resume(id) !in log && Cancel(id) !in log
    ensures Valid(log + [Resume(id)])
    ensures InPhase(After(log + [Resume(id)]), id, Returned(Approved(log, id)))
  {
    var l := log + [Resume(id)];
    assert l[..|l| - 1] == log;
    ValidPrefix(log, s);
    StateIsHistory(log, id);
    StateIsTold(log, id);
    NoFailureAfter(log, id);
  }

  /** A request that was sent has not failed to send. */
  lemma {:induction false} NoFailureAfter(log: seq<Action>, id: string)
    requires Valid(log) && Sent(id) in log
    ensures SendFailed(id) !in log
  {
    var n := |log| - 1;
    ValidPrefix(log, n);
    StateIsTold(log[..n], id);
    StateIsHistory(log[..n], id);
    assert log[..n] + [log[n]] == log;
    Extended(log[..n], log[n]);
    if Sent(id) in log[..n] {
      NoFailureAfter(log[..n], id);
    }
  }
}

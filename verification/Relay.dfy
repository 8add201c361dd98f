/**
  The approval relay (`RelayApprovalHandler`) as a state machine. The code of a call between two
  awaits is one step, so any two calls interleave freely, and so do replies, deadlines,
  disconnects and send failures. Decision ids are fresh.
 */
module Relay {
  import opened Wrappers

  /** Where a call stands: waiting to send or sending, waiting for its event, or finished. */
  datatype Phase = Sending | Waiting | Returned(result: bool) | Cancelled

  /** One call of the handler: its box, its event, its deadline. */
  datatype Call = Call(phase: Phase, allowed: bool, fired: bool, expired: bool)

  /** The handler's fields; `pending` keeps the ids, each standing for its call's event and box. */
  datatype State = State(socket: Option<nat>, pending: set<string>, calls: map<string, Call>)

  datatype Action =
    | Bind(socket: nat)
    | Unbind
    | Begin(id: string)
    | Sent(id: string)
    | SendFailed(id: string)
    | Reply(id: string, allowed: bool)
    | Expire(id: string)
    | Resume(id: string)
    | Cancel(id: string)

  const INITIAL := State(None, {}, map[])

  predicate InPhase(s: State, id: string, phase: Phase) {
    id in s.calls && s.calls[id].phase == phase
  }

  predicate Enabled(s: State, a: Action) {
    match a
    case Bind(_) => true
    case Unbind => true
    case Begin(id) => id !in s.calls
    case Sent(id) => InPhase(s, id, Sending)
    case SendFailed(id) => InPhase(s, id, Sending)
    case Reply(_, _) => true
    case Expire(id) => InPhase(s, id, Waiting)
    case Resume(id) => InPhase(s, id, Waiting) && (s.calls[id].fired || s.calls[id].expired)
    case Cancel(id) => InPhase(s, id, Sending) || InPhase(s, id, Waiting)
  }

  /** A call leaves: its entry is popped if it is still there. */
  function Finish(s: State, id: string, phase: Phase): State
    requires id in s.calls
  {
    s.(pending := s.pending - {id}, calls := s.calls[id := s.calls[id].(phase := phase)])
  }

  /** Every pending entry's box set to false and its event set. */
  function Denied(s: State): map<string, Call> {
    map id | id in s.calls :: if id in s.pending then s.calls[id].(allowed := false, fired := true) else s.calls[id]
  }

  function Step(s: State, a: Action): State
    requires Enabled(s, a)
  {
    match a
    case Bind(socket) => s.(socket := Some(socket))
    case Unbind => State(None, {}, Denied(s))
    case Begin(id) =>
      if s.socket.None? then s.(calls := s.calls[id := Call(Returned(false), false, false, false)])
      else s.(pending := s.pending + {id}, calls := s.calls[id := Call(Sending, false, false, false)])
    case Sent(id) => s.(calls := s.calls[id := s.calls[id].(phase := Waiting)])
    case SendFailed(id) => Finish(s, id, Returned(false))
    case Reply(id, allowed) =>
      if id in s.pending && id in s.calls
      then s.(pending := s.pending - {id}, calls := s.calls[id := s.calls[id].(allowed := allowed, fired := true)])
      else s
    case Expire(id) => s.(calls := s.calls[id := s.calls[id].(expired := true)])
    case Resume(id) => Finish(s, id, Returned(s.calls[id].allowed))
    case Cancel(id) => Finish(s, id, Cancelled)
  }

  // ---- runs ----

  /** The state that a sequence of steps leads to, or nothing if one of them cannot happen. */
  function Run(log: seq<Action>): Option<State> {
    if log == [] then Some(INITIAL)
    else
      match Run(log[..|log| - 1])
      case Some(s) => if Enabled(s, log[|log| - 1]) then Some(Step(s, log[|log| - 1])) else None
      case None => None
  }

  predicate Valid(log: seq<Action>) {
    Run(log).Some?
  }

  function After(log: seq<Action>): State
    requires Valid(log)
  {
    Run(log).value
  }

  // ---- the history, said without the state ----

  /** The step ends a pending request: answered, disconnected or given up. */
  predicate Closes(a: Action, id: string) {
    a.Unbind? || a == SendFailed(id) || a == Resume(id) || a == Cancel(id) || (a.Reply? && a.id == id)
  }

  /** A socket is bound: some bind has no later unbind. */
  ghost predicate Bound(log: seq<Action>) {
    exists k :: 0 <= k < |log| && log[k].Bind? && forall m :: k < m < |log| ==> !log[m].Unbind?
  }

  /** `id` was begun at `b` on a bound socket and no step of `log` closed it since. */
  ghost predicate OpenSince(log: seq<Action>, id: string, b: int) {
    && 0 <= b < |log|
    && log[b] == Begin(id)
    && Bound(log[..b])
    && forall m :: b < m < |log| ==> !Closes(log[m], id)
  }

  ghost predicate Open(log: seq<Action>, id: string) {
    exists b :: OpenSince(log, id, b)
  }

  /** A reply that allows `id` arrived while its request was open. */
  ghost predicate ApprovedAt(log: seq<Action>, id: string, j: int) {
    0 <= j < |log| && log[j] == Reply(id, true) && Open(log[..j], id)
  }

  ghost predicate Approved(log: seq<Action>, id: string) {
    exists j :: ApprovedAt(log, id, j)
  }

  /** A disconnect or a reply to `id` came while its request was open. */
  ghost predicate SettledAt(log: seq<Action>, id: string, j: int) {
    && 0 <= j < |log|
    && (log[j].Unbind? || (log[j].Reply? && log[j].id == id))
    && Open(log[..j], id)
  }

  ghost predicate Settled(log: seq<Action>, id: string) {
    exists j :: SettledAt(log, id, j)
  }

  // ---- what every step keeps ----

  ghost predicate Inv(s: State) {
    && s.pending <= s.calls.Keys
    && (forall id :: id in s.calls && (s.calls[id].phase.Sending? || s.calls[id].phase.Waiting?) ==>
          (id in s.pending <==> !s.calls[id].fired))
    && (forall id :: id in s.pending ==>
          (s.calls[id].phase.Sending? || s.calls[id].phase.Waiting?) && !s.calls[id].allowed)
    && (s.pending != {} ==> s.socket.Some?)
  }

  lemma StepKeepsInv(s: State, a: Action)
    requires Inv(s) && Enabled(s, a)
    ensures Inv(Step(s, a))
  {
  }

  lemma {:induction false} RunKeepsInv(log: seq<Action>)
    requires Valid(log)
    ensures Inv(After(log))
  {
    if log == [] {
    } else {
      RunKeepsInv(log[..|log| - 1]);
      StepKeepsInv(After(log[..|log| - 1]), log[|log| - 1]);
    }
  }

  /** Once an entry is popped, its box, its event and its absence are final. */
  lemma PoppedIsFinal(s: State, a: Action, id: string)
    requires Inv(s) && Enabled(s, a) && id in s.calls && id !in s.pending
    ensures id in Step(s, a).calls && id !in Step(s, a).pending
    ensures Step(s, a).calls[id].allowed == s.calls[id].allowed
    ensures Step(s, a).calls[id].fired == s.calls[id].fired
  {
  }

  lemma {:induction false} OutcomeIsFinal(log: seq<Action>, more: seq<Action>, id: string)
    requires Valid(log + more) && Valid(log)
    requires id in After(log).calls && id !in After(log).pending
    ensures id in After(log + more).calls && id !in After(log + more).pending
    ensures After(log + more).calls[id].allowed == After(log).calls[id].allowed
    ensures After(log + more).calls[id].fired == After(log).calls[id].fired
  {
    if more == [] {
      assert log + more == log;
    } else {
      var n := |more| - 1;
      assert (log + more)[..|log + more| - 1] == log + more[..n];
      OutcomeIsFinal(log, more[..n], id);
      RunKeepsInv(log + more[..n]);
      PoppedIsFinal(After(log + more[..n]), more[n], id);
    }
  }

  /** One disconnect: nothing is left pending, what was is denied, and no other call is touched. */
  lemma UnbindDenies(s: State)
    requires Inv(s)
    ensures Step(s, Unbind).pending == {} && Step(s, Unbind).socket.None?
    ensures forall id :: id in s.pending ==> !Step(s, Unbind).calls[id].allowed && Step(s, Unbind).calls[id].fired
    ensures forall id :: id in s.calls && id !in s.pending ==> Step(s, Unbind).calls[id] == s.calls[id]
  {
  }

  // ---- the state is what the history says ----

  lemma BoundExtends(log: seq<Action>, a: Action)
    ensures Bound(log + [a]) <==> a.Bind? || (Bound(log) && !a.Unbind?)
  {
    var l := log + [a];
    if a.Bind? {
      assert l[|log|].Bind?;
    } else {
      if Bound(l) {
        var k :| 0 <= k < |l| && l[k].Bind? && forall m :: k < m < |l| ==> !l[m].Unbind?;
        assert log[k].Bind? && forall m :: k < m < |log| ==> !log[m].Unbind? by {
          assert forall m :: 0 <= m < |log| ==> l[m] == log[m];
        }
        assert l[|log|] == a;
      }
      if Bound(log) && !a.Unbind? {
        var k :| 0 <= k < |log| && log[k].Bind? && forall m :: k < m < |log| ==> !log[m].Unbind?;
        assert l[k].Bind? && forall m :: k < m < |l| ==> !l[m].Unbind?;
      }
    }
  }

  lemma OpenExtends(log: seq<Action>, a: Action, id: string)
    ensures Open(log + [a], id) <==> (a == Begin(id) && Bound(log)) || (Open(log, id) && !Closes(a, id))
  {
    var l := log + [a];
    assert l[..|log|] == log;
    if Open(l, id) {
      var b :| OpenSince(l, id, b);
      if b < |log| {
        assert l[..b] == log[..b];
        assert OpenSince(log, id, b);
        assert l[|log|] == a;
      }
    }
    if a == Begin(id) && Bound(log) {
      assert OpenSince(l, id, |log|);
    }
    if Open(log, id) && !Closes(a, id) {
      var b :| OpenSince(log, id, b);
      assert l[..b] == log[..b];
      assert OpenSince(l, id, b);
    }
  }

  lemma ApprovedExtends(log: seq<Action>, a: Action, id: string)
    ensures Approved(log + [a], id) <==> Approved(log, id) || (a == Reply(id, true) && Open(log, id))
  {
    var l := log + [a];
    assert l[..|log|] == log;
    if Approved(l, id) {
      var j :| ApprovedAt(l, id, j);
      if j < |log| {
        assert l[..j] == log[..j];
        assert ApprovedAt(log, id, j);
      }
    }
    if Approved(log, id) {
      var j :| ApprovedAt(log, id, j);
      assert l[..j] == log[..j];
      assert ApprovedAt(l, id, j);
    }
    if a == Reply(id, true) && Open(log, id) {
      assert ApprovedAt(l, id, |log|);
    }
  }

  lemma SettledExtends(log: seq<Action>, a: Action, id: string)
    ensures Settled(log + [a], id)
            <==> Settled(log, id) || ((a.Unbind? || (a.Reply? && a.id == id)) && Open(log, id))
  {
    var l := log + [a];
    assert l[..|log|] == log;
    if Settled(l, id) {
      var j :| SettledAt(l, id, j);
      if j < |log| {
        assert l[..j] == log[..j];
        assert SettledAt(log, id, j);
      }
    }
    if Settled(log, id) {
      var j :| SettledAt(log, id, j);
      assert l[..j] == log[..j];
      assert SettledAt(l, id, j);
    }
    if (a.Unbind? || (a.Reply? && a.id == id)) && Open(log, id) {
      assert SettledAt(l, id, |log|);
    }
  }

  /** What the history says of one call. */
  ghost predicate Agrees(log: seq<Action>, s: State, id: string) {
    && (s.socket.Some? <==> Bound(log))
    && (id in s.calls <==> Begin(id) in log)
    && (id in s.pending <==> Open(log, id))
    && (id in s.calls ==> (s.calls[id].allowed <==> Approved(log, id)))
    && (id in s.calls ==> (s.calls[id].fired <==> Settled(log, id)))
    && (Approved(log, id) || Settled(log, id) || Open(log, id) ==> id in s.calls)
    && (InPhase(s, id, Waiting) ==> Sent(id) in log)
  }

  lemma AgreesStep(log: seq<Action>, s: State, a: Action, id: string)
    requires Inv(s) && Agrees(log, s, id) && Enabled(s, a)
    ensures Agrees(log + [a], Step(s, a), id)
  {
    BoundExtends(log, a);
    OpenExtends(log, a, id);
    ApprovedExtends(log, a, id);
    SettledExtends(log, a, id);
    assert forall x :: x in log + [a] <==> x in log || x == a;
  }

  lemma {:induction false} StateIsHistory(log: seq<Action>, id: string)
    requires Valid(log)
    ensures Agrees(log, After(log), id)
  {
    if log == [] {
    } else {
      var n := |log| - 1;
      StateIsHistory(log[..n], id);
      RunKeepsInv(log[..n]);
      AgreesStep(log[..n], After(log[..n]), log[n], id);
      assert log[..n] + [log[n]] == log;
    }
  }

  // ---- what the history decides ----

  lemma {:induction false} ValidPrefix(log: seq<Action>, n: nat)
    requires Valid(log) && n < |log|
    ensures Valid(log[..n]) && Enabled(After(log[..n]), log[n])
    ensures Valid(log[..n + 1]) && After(log[..n + 1]) == Step(After(log[..n]), log[n])
    decreases |log|
  {
    if n == |log| - 1 {
      assert log[..n + 1] == log;
    } else {
      var shorter := log[..|log| - 1];
      ValidPrefix(shorter, n);
      assert shorter[..n] == log[..n] && shorter[..n + 1] == log[..n + 1];
    }
  }

  lemma NotBegunBefore(log: seq<Action>, id: string, n: nat)
    requires Valid(log) && n < |log| && log[n] == Begin(id)
    ensures forall m :: 0 <= m < n ==> log[m] != Begin(id)
  {
    ValidPrefix(log, n);
    StateIsHistory(log[..n], id);
    assert forall m :: 0 <= m < n ==> log[..n][m] == log[m];
  }

  /** Ids are fresh: a call begins once. */
  lemma BeginsOnce(log: seq<Action>, id: string, a: nat, b: nat)
    requires Valid(log) && a < |log| && b < |log| && log[a] == Begin(id) == log[b]
    ensures a == b
  {
    NotBegunBefore(log, id, a);
    NotBegunBefore(log, id, b);
  }

  /** A reply to a call begun before the last disconnect changes nothing. */
  lemma StaleReplyIgnored(log: seq<Action>, id: string, allowed: bool, b: nat, u: nat)
    requires Valid(log) && b < u < |log| && log[b] == Begin(id) && log[u] == Unbind
    ensures Step(After(log), Reply(id, allowed)) == After(log)
  {
    StateIsHistory(log, id);
    if Open(log, id) {
      var b' :| OpenSince(log, id, b');
      BeginsOnce(log, id, b, b');
      assert Closes(log[u], id);
    }
  }

  /** A reply to an id that never began changes nothing. */
  lemma UnknownReplyIgnored(log: seq<Action>, id: string, allowed: bool)
    requires Valid(log) && Begin(id) !in log
    ensures Step(After(log), Reply(id, allowed)) == After(log)
  {
    StateIsHistory(log, id);
  }

  /** The history behind an approved call: begun at `b`, sent at `s`, allowed at `j`, resumed at `k`. */
  ghost predicate Story(log: seq<Action>, id: string, b: int, s: int, j: int, k: int) {
    && 0 <= b < s < k < |log|
    && b < j < k
    && log[b] == Begin(id) && Bound(log[..b])
    && log[s] == Sent(id)
    && log[j] == Reply(id, true)
    && log[k] == Resume(id)
    && forall m :: b < m < j ==> !Closes(log[m], id)
  }

  /** A call's phase changes only by its own steps. */
  lemma {:induction false} ResumedAt(log: seq<Action>, id: string) returns (k: nat)
    requires Valid(log) && InPhase(After(log), id, Returned(true))
    ensures k < |log| && log[k] == Resume(id) && Valid(log[..k])
    ensures InPhase(After(log[..k]), id, Waiting) && After(log[..k]).calls[id].allowed
  {
    var n := |log| - 1;
    ValidPrefix(log, n);
    assert log[..n + 1] == log;
    if InPhase(After(log[..n]), id, Returned(true)) {
      k := ResumedAt(log[..n], id);
      assert log[..n][..k] == log[..k];
    } else {
      k := n;
    }
  }

  lemma {:induction false} ReturnedIsFinal(log: seq<Action>, id: string, k: nat, result: bool)
    requires Valid(log) && k <= |log| && Valid(log[..k]) && InPhase(After(log[..k]), id, Returned(result))
    ensures InPhase(After(log), id, Returned(result))
    decreases |log|
  {
    if k < |log| {
      var n := |log| - 1;
      ValidPrefix(log, n);
      assert log[..n + 1] == log && log[..n][..k] == log[..k];
      ReturnedIsFinal(log[..n], id, k, result);
    } else {
      assert log[..k] == log;
    }
  }

  lemma AfterUnbind(log: seq<Action>, id: string)
    requires Valid(log) && Valid(log + [Unbind]) && id in After(log).pending
    ensures var s := After(log + [Unbind]);
            id in s.calls && id !in s.pending && !s.calls[id].allowed && s.calls[id].fired
  {
    RunKeepsInv(log);
    UnbindDenies(After(log));
    assert (log + [Unbind])[..|log + [Unbind]| - 1] == log;
  }

  /**
    A disconnect denies for good: a call that is pending when it comes keeps a false box and a set
    event through every later run, is never pending again and never returns True.
   */
  lemma UnbindDeniesForGood(log: seq<Action>, more: seq<Action>, id: string)
    requires Valid(log) && Valid(log + [Unbind]) && Valid(log + [Unbind] + more)
    requires id in After(log).pending
    ensures var s := After(log + [Unbind] + more);
            && id in s.calls && id !in s.pending
            && !s.calls[id].allowed && s.calls[id].fired
            && s.calls[id].phase != Returned(true)
  {
    var cut := log + [Unbind];
    var all := cut + more;
    AfterUnbind(log, id);
    OutcomeIsFinal(cut, more, id);
    if InPhase(After(all), id, Returned(true)) {
      var k := ResumedAt(all, id);
      if k < |log| {
        ReturnedBefore(all, log, id, k);
      } else {
        assert all[k] != Unbind && all[|log|] == Unbind;
        assert all[..k] == cut + more[..k - |cut|];
        OutcomeIsFinal(cut, more[..k - |cut|], id);
      }
    }
  }

  /** A call that has resumed is not pending. */
  lemma ReturnedBefore(all: seq<Action>, log: seq<Action>, id: string, k: nat)
    requires Valid(all) && Valid(log) && log <= all && k < |log| && all[k] == Resume(id)
    requires Valid(all[..k]) && InPhase(After(all[..k]), id, Waiting) && After(all[..k]).calls[id].allowed
    ensures id !in After(log).pending
  {
    ValidPrefix(log, k);
    assert log[..k] == all[..k];
    ReturnedIsFinal(log, id, k + 1, true);
    RunKeepsInv(log);
  }

  lemma FindStory(log: seq<Action>, id: string) returns (b: int, s: int, j: int, k: int)
    requires Valid(log) && InPhase(After(log), id, Returned(true))
    ensures Story(log, id, b, s, j, k)
  {
    k := ResumedAt(log, id);
    var before := log[..k];
    StateIsHistory(before, id);
    j :| ApprovedAt(before, id, j);
    assert before[..j] == log[..j];
    b :| OpenSince(log[..j], id, b);
    assert log[..j][..b] == log[..b];
    s :| 0 <= s < |before| && before[s] == Sent(id);
    ValidPrefix(log, s);
    StateIsHistory(log[..s], id);
    var b' :| 0 <= b' < |log[..s]| && log[..s][b'] == Begin(id);
    BeginsOnce(log, id, b, b');
  }

  lemma StoryReturnsTrue(log: seq<Action>, id: string, b: int, s: int, j: int, k: int)
    requires Valid(log) && Story(log, id, b, s, j, k)
    ensures InPhase(After(log), id, Returned(true))
  {
    ValidPrefix(log, k);
    StateIsHistory(log[..k], id);
    assert log[..k][..j] == log[..j] && log[..j][..b] == log[..b];
    assert OpenSince(log[..j], id, b);
    assert ApprovedAt(log[..k], id, j);
    ReturnedIsFinal(log, id, k + 1, true);
  }

  /**
    In every run, a call returns True exactly when its request was begun on a bound socket and
    sent, an allowing reply for its own id came while it was open (so before any disconnect),
    and the call then resumed.
   */
  lemma TrueIffApproved(log: seq<Action>, id: string)
    requires Valid(log)
    ensures InPhase(After(log), id, Returned(true)) <==> exists b, s, j, k :: Story(log, id, b, s, j, k)
  {
    if InPhase(After(log), id, Returned(true)) {
      var b, s, j, k := FindStory(log, id);
    }
    if exists b, s, j, k :: Story(log, id, b, s, j, k) {
      var b, s, j, k :| Story(log, id, b, s, j, k);
      StoryReturnsTrue(log, id, b, s, j, k);
    }
  }

  /** Nobody is lost: a call that has not finished is pending, or its event is set and it can resume. */
  lemma NobodyIsLost(log: seq<Action>, id: string)
    requires Valid(log) && (InPhase(After(log), id, Waiting) || InPhase(After(log), id, Sending))
    ensures id in After(log).pending <==> !After(log).calls[id].fired
    ensures InPhase(After(log), id, Waiting) && id !in After(log).pending ==> Enabled(After(log), Resume(id))
  {
    RunKeepsInv(log);
  }
}

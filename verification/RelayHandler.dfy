/**
  `RelayApprovalHandler` itself: one object per call for its event and box, shared between the
  call and the handler's table. Every method is proved to take the step of `Relay` it stands for.
 */
module RelayHandler {
  import opened Wrappers
  import R = Relay

  /** The event and the box of one call, with the point its coroutine has reached. */
  class Call {
    const id: string
    var phase: R.Phase
    var allowed: bool
    var fired: bool
    var expired: bool

    constructor (id: string, phase: R.Phase)
      ensures this.id == id && View() == R.Call(phase, false, false, false)
    {
      this.id := id;
      this.phase := phase;
      allowed, fired, expired := false, false, false;
    }

    method Deny()
      modifies this
      ensures View() == old(View()).(allowed := false, fired := true)
    {
      allowed := false;
      fired := true;
    }

    function View(): R.Call
      reads this
    {
      R.Call(phase, allowed, fired, expired)
    }
  }

  class RelayApprovalHandler {
    var pending: map<string, Call>
    var ws: Option<nat>
    var sendLock: Option<nat>
    /** Every call made so far; the coroutines hold them, the handler does not. */
    ghost var calls: map<string, Call>

    ghost predicate Valid()
      reads this
    {
      && pending.Keys <= calls.Keys
      && (forall id :: id in pending ==> pending[id] == calls[id])
      && (forall id :: id in calls ==> calls[id].id == id)
      && (ws.Some? <==> sendLock.Some?)
    }

    ghost function CallViews(): map<string, R.Call>
      reads `calls, calls.Values
    {
      map id | id in calls :: calls[id].View()
    }

    ghost function View(): R.State
      reads this, calls.Values
    {
      R.State(ws, pending.Keys, CallViews())
    }

    constructor ()
      ensures Valid() && View() == R.INITIAL
    {
      pending, ws, sendLock, calls := map[], None, None, map[];
    }

    method BindSocket(socket: nat, lock: nat)
      requires Valid()
      modifies this
      ensures Valid() && calls == old(calls) && pending == old(pending)
      ensures ws == Some(socket) && sendLock == Some(lock)
      ensures View() == R.Step(old(View()), R.Bind(socket))
    {
      ws, sendLock := Some(socket), Some(lock);
    }

    /** Drops the entry of `id`, if there is one. */
    method Pop(id: string)
      requires Valid()
      modifies `pending
      ensures Valid() && pending == old(pending) - {id}
      ensures CallViews() == old(CallViews())
    {
      pending := pending - {id};
    }

    /** A change to one call's object changes that call's record and no other. */
    twostate lemma OneCallChanged(call: Call)
      requires old(Valid()) && unchanged(`calls) && call.id in calls && calls[call.id] == call
      requires forall c :: c in calls.Values && c != call ==> unchanged(c)
      ensures CallViews() == old(CallViews())[call.id := call.View()]
    {
      assert forall id :: id in calls && id != call.id ==> calls[id] in calls.Values;
    }

    /** The calls of `was`, with those pending but not in `rest` denied. */
    ghost predicate DeniedBut(was: map<string, R.Call>, rest: set<string>)
      reads this, calls.Values
    {
      && was.Keys == calls.Keys
      && forall id :: id in calls ==>
           calls[id].View()
           == if id in pending && id !in rest then was[id].(allowed := false, fired := true) else was[id]
    }

    lemma DeniedViews(was: R.State)
      requires DeniedBut(was.calls, {}) && pending.Keys == was.pending
      ensures CallViews() == R.Denied(was)
    {
      assert CallViews().Keys == R.Denied(was).Keys;
      forall id | id in calls ensures CallViews()[id] == R.Denied(was)[id] {
      }
    }

    /** Sets every pending box to false and its event. */
    method DenyPending()
      requires Valid()
      modifies pending.Values
      ensures Valid() && CallViews() == R.Denied(old(View()))
    {
      ghost var was := View();
      var rest := pending.Keys;
      while rest != {}
        invariant rest <= pending.Keys && Valid() && DeniedBut(was.calls, rest)
        decreases rest
      {
        var id :| id in rest;
        var entry := pending[id];
        entry.Deny();
        rest := rest - {id};
      }
      DeniedViews(was);
    }

    method UnbindSocket()
      requires Valid()
      modifies this, pending.Values
      ensures Valid() && calls == old(calls)
      ensures View() == R.Step(old(View()), R.Unbind)
    {
      ghost var was := View();
      DenyPending();
      pending, ws, sendLock := map[], None, None;
      assert CallViews() == R.Denied(was);
    }

    /** The code of a call up to the send: denied on the spot when no socket is bound. */
    method Begin(id: string) returns (call: Call)
      requires Valid() && id !in calls
      modifies this
      ensures Valid() && fresh(call) && calls == old(calls)[id := call]
      ensures R.Enabled(old(View()), R.Begin(id)) && View() == R.Step(old(View()), R.Begin(id))
      ensures call.phase == (if old(ws).None? then R.Returned(false) else R.Sending)
    {
      if ws.None? || sendLock.None? {
        call := new Call(id, R.Returned(false));
      } else {
        call := new Call(id, R.Sending);
        pending := pending[id := call];
      }
      calls := calls[id := call];
    }

    /** The send came back and the call goes on to wait. */
    method SendSucceeded(id: string, call: Call)
      requires Valid() && id in calls && calls[id] == call && call.phase == R.Sending
      modifies call
      ensures Valid()
      ensures View() == R.Step(old(View()), R.Sent(id))
    {
      call.phase := R.Waiting;
    }

    /** The send raised: the call is denied, whatever its box holds. */
    method SendRaised(id: string, call: Call) returns (allowed: bool)
      requires Valid() && id in calls && calls[id] == call && call.phase == R.Sending
      modifies this, call
      ensures Valid() && calls == old(calls)
      ensures View() == R.Step(old(View()), R.SendFailed(id))
      ensures !allowed
    {
      Pop(id);
      label popped:
      call.phase := R.Returned(false);
      OneCallChanged@popped(call);
      allowed := false;
    }

    /** The wait ended, by the event or by the deadline: the call returns what its box holds. */
    method Resume(id: string, call: Call) returns (allowed: bool)
      requires Valid() && id in calls && calls[id] == call
      requires call.phase == R.Waiting && (call.fired || call.expired)
      modifies this, call
      ensures Valid() && calls == old(calls)
      ensures View() == R.Step(old(View()), R.Resume(id))
      ensures call.phase == R.Returned(allowed) && allowed == old(call.allowed)
    {
      Pop(id);
      label popped:
      allowed := call.allowed;
      call.phase := R.Returned(allowed);
      OneCallChanged@popped(call);
    }

    method Expire(id: string, call: Call)
      requires Valid() && id in calls && calls[id] == call && call.phase == R.Waiting
      modifies call
      ensures Valid() && call.View() == old(call.View()).(expired := true)
      ensures View() == R.Step(old(View()), R.Expire(id))
    {
      call.expired := true;
    }

    /** The deadline passes while the call waits: it leaves the table and returns what its box holds. */
    method TimeOut(id: string, call: Call) returns (allowed: bool)
      requires Valid() && id in calls && calls[id] == call && call.phase == R.Waiting
      modifies this, call
      ensures Valid() && id !in pending
      ensures R.Enabled(R.Step(old(View()), R.Expire(id)), R.Resume(id))
      ensures View() == R.Step(R.Step(old(View()), R.Expire(id)), R.Resume(id))
      ensures call.phase == R.Returned(allowed) && allowed == old(call.allowed)
    {
      Expire(id, call);
      allowed := Resume(id, call);
    }

    method Cancel(id: string, call: Call)
      requires Valid() && id in calls && calls[id] == call && (call.phase == R.Sending || call.phase == R.Waiting)
      modifies this, call
      ensures Valid() && calls == old(calls)
      ensures View() == R.Step(old(View()), R.Cancel(id))
    {
      Pop(id);
      label popped:
      call.phase := R.Cancelled;
      OneCallChanged@popped(call);
    }

    method Resolve(id: string, allowed: bool)
      requires Valid()
      modifies this, pending.Values
      ensures Valid() && calls == old(calls)
      ensures View() == R.Step(old(View()), R.Reply(id, allowed))
    {
      if id !in pending {
        return;
      }
      var entry := pending[id];
      Pop(id);
      label popped:
      entry.allowed := allowed;
      entry.fired := true;
      OneCallChanged@popped(entry);
    }
  }
}

/**
  Which steps of the serve session can come next, said by the log alone: those that both parts
  allow, with a turn that waits for its calls and a call whose sender is its own.
 */
module ServeHistory {
  import opened Wrappers
  import opened Serve
  import opened ServeProgress
  import Session
  import Relay
  import SH = SessionHistory
  import RH = RelayHistory

  ghost predicate BegunIn(log: seq<Action>, call: string) {
    Relay.Begin(call) in RelayLog(log)
  }

  ghost predicate UnfinishedIn(log: seq<Action>, call: string) {
    && BegunIn(log, call)
    && (RH.Stands(RelayLog(log), call) == Relay.Sending || RH.Stands(RelayLog(log), call) == Relay.Waiting)
  }

  /** No call of the turn `id` is unfinished. */
  ghost predicate TurnIsFree(log: seq<Action>, id: nat) {
    forall call :: UnfinishedIn(log, call) ==> AskSaid(log, call).task != id
  }

  /** The request of `call` is on the wire. */
  ghost predicate OnItsWay(log: seq<Action>, call: string) {
    && BegunIn(log, call) && RH.Stands(RelayLog(log), call) == Relay.Sending
    && SH.SendSaid(SessionLog(log), AskSaid(log, call).sender).OnWire?
  }

  ghost predicate TalkCanCome(log: seq<Action>, step: Session.Action) {
    && SH.CanCome(SessionLog(log), step)
    && match step
       case HandshakeOk => false
       case Disconnect => false
       case BeginApproval(_) => false
       case SendDone(id) => SH.TaskSaid(SessionLog(log), id)
       case EndTurn(id) => TurnIsFree(log, id)
       case CancelTask(id) => SH.TaskSaid(SessionLog(log), id) && TurnIsFree(log, id)
       case _ => true
  }

  ghost predicate CanCome(log: seq<Action>, a: Action) {
    match a
    case Talk(step) => TalkCanCome(log, step)
    case Connect => SH.LinkSaid(SessionLog(log)).Handshake?
    case Disconnect => SH.LinkSaid(SessionLog(log)).Up?
    case Call(call, ask) =>
      && SH.TaskSaid(SessionLog(log), ask.task) && SH.TurnSaid(SessionLog(log), ask.task).InTurn?
      && !BegunIn(log, call)
      && (SH.BoundSaid(SessionLog(log)).Some? ==> !SH.Present(SessionLog(log), ask.sender))
    case Sent(call) => OnItsWay(log, call)
    case SendFailed(call) => OnItsWay(log, call)
    case Reply(id, _, _) => SH.TaskSaid(SessionLog(log), id) && SH.TurnSaid(SessionLog(log), id).Fresh?
    case Expire(call) => RH.CanCome(RelayLog(log), Relay.Expire(call))
    case Resume(call) => RH.CanCome(RelayLog(log), Relay.Resume(call))
    case Cancel(call) => UnfinishedIn(log, call)
  }

  // ---- proofs ----

  /** The state of both parts is what the log says. */
  ghost predicate Told(log: seq<Action>, s: State) {
    && Inv(s) && PartsTold(log, s)
    && SH.LinkTold(SessionLog(log), s.session) && forall id :: SH.ActorTold(SessionLog(log), s.session, id)
  }

  lemma RunIsTold(log: seq<Action>)
    requires Run(log).Some?
    ensures Told(log, Run(log).value)
  {
    ReachableInv(log);
    PartsRun(log);
    SH.StateIsHistory(SessionLog(log));
  }

  lemma CallTold(log: seq<Action>, s: State, call: string)
    requires Told(log, s)
    ensures call in s.asks <==> BegunIn(log, call)
    ensures call in s.asks ==> s.relay.calls[call].phase == RH.Stands(RelayLog(log), call)
    ensures call in s.asks ==> s.asks[call] == AskSaid(log, call)
  {
    RH.CallIsHistory(RelayLog(log), call);
  }

  lemma UnfinishedTold(log: seq<Action>, s: State, call: string)
    requires Told(log, s)
    ensures Unfinished(s, call) <==> UnfinishedIn(log, call)
  {
    CallTold(log, s, call);
  }

  lemma FreeTold(log: seq<Action>, s: State, id: nat)
    requires Told(log, s)
    ensures CallsReturned(s, id) <==> TurnIsFree(log, id)
  {
    forall call
      ensures (call in s.asks && s.asks[call].task == id && Unfinished(s, call))
              <==> UnfinishedIn(log, call) && AskSaid(log, call).task == id
    {
      CallTold(log, s, call);
      UnfinishedTold(log, s, call);
    }
  }

  lemma TaskTold(log: seq<Action>, s: State, id: nat)
    requires Told(log, s)
    ensures Session.IsTask(s.session, id) <==> SH.TaskSaid(SessionLog(log), id)
    ensures id in s.session.actors <==> SH.Present(SessionLog(log), id)
    ensures id in s.session.actors ==> s.session.actors[id] == SH.ActorSaid(SessionLog(log), id)
  {
    assert SH.ActorTold(SessionLog(log), s.session, id);
  }

  /** A sender is never idle, so it never just finishes. */
  lemma SendersAreBusy(s: State, id: nat)
    requires Inv(s) && IsSender(s, id)
    ensures !Session.Enabled(s.session, Session.Finish(id))
  {
    var call :| SendsFor(s, id, call);
    assert Busy(s, id);
  }

  lemma TalkIsTold(log: seq<Action>, s: State, step: Session.Action)
    requires Told(log, s)
    ensures Enabled(s, Talk(step)) <==> TalkCanCome(log, step)
  {
    SH.StepIsTold(SessionLog(log), s.session, step);
    if step.SendDone? || step.EndTurn? || step.CancelTask? {
      TaskTold(log, s, step.id);
      FreeTold(log, s, step.id);
    } else if step.Finish? && IsSender(s, step.id) {
      SendersAreBusy(s, step.id);
    }
  }

  lemma SendingTold(log: seq<Action>, s: State, call: string)
    requires Told(log, s)
    ensures Sending(s, call) <==> BegunIn(log, call) && RH.Stands(RelayLog(log), call) == Relay.Sending
    ensures Sending(s, call) ==> s.asks[call] == AskSaid(log, call) && s.asks[call].sender in s.session.actors
  {
    CallTold(log, s, call);
    if Sending(s, call) {
      assert SendsFor(s, s.asks[call].sender, call);
      assert Busy(s, s.asks[call].sender);
    }
  }

  lemma WireTold(log: seq<Action>, s: State, id: nat)
    requires Told(log, s) && id in s.session.actors
    ensures OnWire(s, id) <==> SH.SendSaid(SessionLog(log), id).OnWire?
  {
    TaskTold(log, s, id);
  }

  lemma OnItsWayTold(log: seq<Action>, s: State, call: string)
    requires Told(log, s)
    ensures Sending(s, call) && OnWire(s, s.asks[call].sender) <==> OnItsWay(log, call)
  {
    SendingTold(log, s, call);
    if Sending(s, call) {
      WireTold(log, s, s.asks[call].sender);
    }
  }

  lemma CallIsTold(log: seq<Action>, s: State, call: string, ask: Ask)
    requires Told(log, s)
    ensures Enabled(s, Call(call, ask)) <==> CanCome(log, Call(call, ask))
  {
    CallTold(log, s, call);
    TaskTold(log, s, ask.task);
    TaskTold(log, s, ask.sender);
  }

  lemma ReplyIsTold(log: seq<Action>, s: State, a: Action)
    requires Told(log, s) && a.Reply?
    ensures Enabled(s, a) <==> CanCome(log, a)
  {
    TaskTold(log, s, a.id);
    if Session.IsTask(s.session, a.id) {
      assert Session.ActorInv(s.session, a.id);
    }
  }

  lemma LinkIsTold(log: seq<Action>, s: State, a: Action)
    requires Told(log, s) && (a.Connect? || a.Disconnect?)
    ensures Enabled(s, a) <==> CanCome(log, a)
  {
  }

  lemma SendIsTold(log: seq<Action>, s: State, a: Action)
    requires Told(log, s) && (a.Sent? || a.SendFailed?)
    ensures Enabled(s, a) <==> CanCome(log, a)
  {
    OnItsWayTold(log, s, a.call);
  }

  lemma RelayIsTold(log: seq<Action>, s: State, b: Relay.Action)
    requires Told(log, s)
    ensures Relay.Enabled(s.relay, b) <==> RH.CanCome(RelayLog(log), b)
  {
    RH.StepsAreTold(RelayLog(log), b);
  }

  lemma ExpireIsTold(log: seq<Action>, s: State, call: string)
    requires Relay.Enabled(s.relay, Relay.Expire(call)) <==> RH.CanCome(RelayLog(log), Relay.Expire(call))
    ensures Enabled(s, Expire(call)) <==> CanCome(log, Expire(call))
  {
  }

  lemma ResumeIsTold(log: seq<Action>, s: State, call: string)
    requires Relay.Enabled(s.relay, Relay.Resume(call)) <==> RH.CanCome(RelayLog(log), Relay.Resume(call))
    ensures Enabled(s, Resume(call)) <==> CanCome(log, Resume(call))
  {
  }

  lemma CancelIsTold(log: seq<Action>, s: State, call: string)
    requires Unfinished(s, call) <==> UnfinishedIn(log, call)
    ensures Enabled(s, Cancel(call)) <==> CanCome(log, Cancel(call))
  {
  }

  lemma StepIsTold(log: seq<Action>, s: State, a: Action)
    requires Told(log, s)
    ensures Enabled(s, a) <==> CanCome(log, a)
  {
    if a.Talk? {
      TalkIsTold(log, s, a.step);
    } else if a.Connect? || a.Disconnect? {
      LinkIsTold(log, s, a);
    } else if a.Call? {
      CallIsTold(log, s, a.call, a.ask);
    } else if a.Sent? || a.SendFailed? {
      SendIsTold(log, s, a);
    } else if a.Reply? {
      ReplyIsTold(log, s, a);
    } else if a.Cancel? {
      UnfinishedTold(log, s, a.call);
      CancelIsTold(log, s, a.call);
    } else if a.Expire? {
      RelayIsTold(log, s, Relay.Expire(a.call));
      ExpireIsTold(log, s, a.call);
    } else {
      RelayIsTold(log, s, Relay.Resume(a.call));
      ResumeIsTold(log, s, a.call);
    }
  }

  /** Which steps can come next is decided by the log. */
  lemma StepsAreTold(log: seq<Action>, a: Action)
    requires Run(log).Some?
    ensures Enabled(Run(log).value, a) <==> CanCome(log, a)
  {
    RunIsTold(log);
    StepIsTold(log, Run(log).value, a);
  }
}

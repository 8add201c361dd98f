/**
  The serve session: connections, dispatched tasks, the two per-connection locks, and the order in
  which a connection is torn down. Code between two awaits is one step; a lock is named by the
  connection it was made for. `ops` records what is done to the chat state, in order.
 */
module Session {
  import opened Wrappers

  /** The serve loop: between connections, in the handshake, reading frames, or tearing down. */
  datatype Link = Down | Handshake | Up | Draining

  datatype Turn = Fresh | AwaitingLock(lock: nat) | InTurn(chat: Option<nat>) | Over

  datatype Send = Idle | Queued(lock: nat) | OnWire(wire: Option<nat>)

  /** A dispatched task, or an approval request sending on the socket that was bound when it began. */
  datatype Actor = Actor(socket: nat, approval: bool, turn: Turn, send: Send)

  datatype Op = Start(task: nat) | Apply(task: nat) | End(task: nat) | Clear

  datatype State = State(
    link: Link,
    conn: nat,
    sendLock: Option<nat>,
    chatLock: Option<nat>,
    bound: Option<nat>,
    sendHolders: map<nat, nat>,
    chatHolders: map<nat, nat>,
    actors: map<nat, Actor>,
    ops: seq<Op>)

  datatype Action =
    | Open
    | HandshakeOk
    | HandshakeFailed
    | Dispatch(id: nat)
    | StartChat(id: nat)
    | AcquireChat(id: nat)
    | Event(id: nat)
    | EndTurn(id: nat)
    | Reset(id: nat)
    | Frame(id: nat)
    | AcquireSend(id: nat)
    | SendDone(id: nat)
    | Finish(id: nat)
    | CancelTask(id: nat)
    | BeginApproval(id: nat)
    | Disconnect
    | Closed

  const INITIAL := State(Down, 0, None, None, None, map[], map[], map[], [])

  predicate IsTask(s: State, id: nat) {
    id in s.actors && !s.actors[id].approval
  }

  predicate Enabled(s: State, a: Action) {
    match a
    case Open => s.link.Down?
    case HandshakeOk => s.link.Handshake?
    case HandshakeFailed => s.link.Handshake?
    case Dispatch(id) => s.link.Up? && id !in s.actors
    case StartChat(id) => IsTask(s, id) && s.actors[id].turn.Fresh?
    case AcquireChat(id) =>
      IsTask(s, id) && s.actors[id].turn.AwaitingLock? && s.actors[id].turn.lock !in s.chatHolders
    case Event(id) => IsTask(s, id) && s.actors[id].turn.InTurn? && s.actors[id].send.Idle?
    case EndTurn(id) => IsTask(s, id) && s.actors[id].turn.InTurn? && s.actors[id].send.Idle?
    case Reset(id) => IsTask(s, id) && s.actors[id].turn.Fresh?
    case Frame(id) =>
      IsTask(s, id) && (s.actors[id].turn.Fresh? || s.actors[id].turn.Over?) && s.actors[id].send.Idle?
    case AcquireSend(id) => id in s.actors && s.actors[id].send.Queued? && s.actors[id].send.lock !in s.sendHolders
    case SendDone(id) => id in s.actors && s.actors[id].send.OnWire?
    case Finish(id) =>
      id in s.actors && (s.actors[id].turn.Fresh? || s.actors[id].turn.Over?) && s.actors[id].send.Idle?
    case CancelTask(id) => id in s.actors
    case BeginApproval(id) => s.bound.Some? && id !in s.actors
    case Disconnect => s.link.Up?
    case Closed => s.link.Draining? && forall id :: id in s.actors ==> s.actors[id].approval
  }

  /** Sending through the context's lock as it is now; without one the frame goes straight out. */
  function SendVia(lock: Option<nat>): Send {
    match lock
    case Some(l) => Queued(l)
    case None => OnWire(None)
  }

  function Release(holders: map<nat, nat>, lock: Option<nat>): map<nat, nat> {
    match lock
    case Some(l) => holders - {l}
    case None => holders
  }

  function StopTurn(s: State, id: nat): State
    requires id in s.actors
  {
    if s.actors[id].turn.InTurn?
    then s.(chatHolders := Release(s.chatHolders, s.actors[id].turn.chat), ops := s.ops + [End(id)])
    else s
  }

  function StopSend(s: State, id: nat): State
    requires id in s.actors
  {
    if s.actors[id].send.OnWire? then s.(sendHolders := Release(s.sendHolders, s.actors[id].send.wire)) else s
  }

  function WithTurn(s: State, id: nat, turn: Turn): State
    requires id in s.actors
  {
    s.(actors := s.actors[id := s.actors[id].(turn := turn)])
  }

  function WithSend(s: State, id: nat, send: Send): State
    requires id in s.actors
  {
    s.(actors := s.actors[id := s.actors[id].(send := send)])
  }

  function Step(s: State, a: Action): State
    requires Enabled(s, a)
  {
    match a
    case Open =>
      s.(link := Handshake, conn := s.conn + 1, sendLock := Some(s.conn + 1), chatLock := Some(s.conn + 1))
    case HandshakeOk => s.(link := Up, bound := Some(s.conn))
    case HandshakeFailed => s.(link := Down)
    case Dispatch(id) => s.(actors := s.actors[id := Actor(s.conn, false, Fresh, Idle)])
    case StartChat(id) =>
      (match s.chatLock
       case Some(l) => WithTurn(s, id, AwaitingLock(l))
       case None => WithTurn(s, id, InTurn(None)).(ops := s.ops + [Start(id)]))
    case AcquireChat(id) =>
      var l := s.actors[id].turn.lock;
      WithTurn(s, id, InTurn(Some(l))).(chatHolders := s.chatHolders[l := id], ops := s.ops + [Start(id)])
    case Event(id) => WithSend(s, id, SendVia(s.sendLock)).(ops := s.ops + [Apply(id)])
    case EndTurn(id) => WithTurn(StopTurn(s, id), id, Over)
    case Reset(id) => WithSend(WithTurn(s, id, Over), id, SendVia(s.sendLock)).(ops := s.ops + [Clear])
    case Frame(id) => WithSend(WithTurn(s, id, Over), id, SendVia(s.sendLock))
    case AcquireSend(id) =>
      var l := s.actors[id].send.lock;
      WithSend(s, id, OnWire(Some(l))).(sendHolders := s.sendHolders[l := id])
    case SendDone(id) => WithSend(StopSend(s, id), id, Idle)
    case Finish(id) => s.(actors := s.actors - {id})
    case CancelTask(id) =>
      var stopped := StopSend(StopTurn(s, id), id);
      stopped.(actors := s.actors - {id})
    case BeginApproval(id) =>
      s.(actors := s.actors[id := Actor(s.bound.value, true, Over, Queued(s.bound.value))])
    case Disconnect => s.(link := Draining, bound := None)
    case Closed => s.(link := Down, sendLock := None, chatLock := None)
  }

  function Run(log: seq<Action>): Option<State> {
    if log == [] then Some(INITIAL)
    else
      match Run(log[..|log| - 1])
      case Some(s) => if Enabled(s, log[|log| - 1]) then Some(Step(s, log[|log| - 1])) else None
      case None => None
  }

  // ---- what is to hold ----

  /** The turn of `t` has started and not ended. */
  ghost predicate Running(ops: seq<Op>, t: nat) {
    exists i :: 0 <= i < |ops| && ops[i] == Start(t) && forall m :: i < m < |ops| ==> ops[m] != End(t)
  }

  ghost predicate NobodyElse(ops: seq<Op>, t: nat) {
    forall u :: Running(ops, u) ==> u == t
  }

  /** `op` comes at a moment when its turn, and no other, is running; a start when none is. */
  ghost predicate InOrder(ops: seq<Op>, op: Op) {
    match op
    case Start(_) => forall u :: !Running(ops, u)
    case Apply(t) => Running(ops, t) && NobodyElse(ops, t)
    case End(t) => Running(ops, t) && NobodyElse(ops, t)
    case Clear => true
  }

  /** Turns never interleave: from a start to its end only that turn's events, resets aside. */
  ghost predicate Serialized(ops: seq<Op>) {
    forall j :: 0 <= j < |ops| ==> InOrder(ops[..j], ops[j])
  }

  /** At most one frame is on the wire of any socket. */
  ghost predicate OneFrame(s: State) {
    forall a, b ::
      (&& a in s.actors && b in s.actors
       && s.actors[a].send.OnWire? && s.actors[b].send.OnWire?
       && s.actors[a].socket == s.actors[b].socket)
      ==> a == b
  }

  // ---- the invariant ----

  ghost predicate LinkInv(s: State) {
    && (s.bound.Some? ==> s.link.Up? && s.bound == Some(s.conn))
    && (s.link.Up? || s.link.Draining? ==> s.sendLock == Some(s.conn) && s.chatLock == Some(s.conn))
    && (s.link.Down? || s.link.Handshake? ==> forall id :: id in s.actors ==> s.actors[id].approval)
    && (s.link.Handshake? ==> s.sendLock == Some(s.conn) && s.chatLock == Some(s.conn))
  }

  ghost predicate ActorInv(s: State, id: nat)
    requires id in s.actors
  {
    var x := s.actors[id];
    && (x.approval ==> x.turn.Over?)
    && (!x.approval ==> x.socket == s.conn)
    && (x.turn.Fresh? || x.turn.AwaitingLock? ==> x.send.Idle?)
    && (x.turn.AwaitingLock? ==> x.turn.lock == x.socket)
    && (x.turn.InTurn? ==> x.turn.chat == Some(x.socket) && x.socket in s.chatHolders && s.chatHolders[x.socket] == id)
    && (x.send.Queued? ==> x.send.lock == x.socket)
    && (x.send.OnWire? ==> x.send.wire == Some(x.socket) && x.socket in s.sendHolders && s.sendHolders[x.socket] == id)
  }

  ghost predicate ActorsInv(s: State) {
    forall id :: id in s.actors ==> ActorInv(s, id)
  }

  /** A lock is held only by an actor that is using it. */
  ghost predicate HoldersInv(s: State) {
    && (forall l :: l in s.sendHolders ==>
          s.sendHolders[l] in s.actors && s.actors[s.sendHolders[l]].send == OnWire(Some(l)))
    && (forall l :: l in s.chatHolders ==>
          s.chatHolders[l] in s.actors && s.actors[s.chatHolders[l]].turn == InTurn(Some(l)))
  }

  ghost predicate TurnsInv(s: State) {
    && Serialized(s.ops)
    && forall t :: Running(s.ops, t) <==> t in s.actors && s.actors[t].turn.InTurn?
  }

  ghost predicate Inv(s: State) {
    LinkInv(s) && ActorsInv(s) && HoldersInv(s) && TurnsInv(s)
  }

  lemma InvOneFrame(s: State)
    requires ActorsInv(s)
    ensures OneFrame(s)
  {
  }

  /** Only tasks of the current connection run turns, and only one at a time. */
  lemma OneTurn(s: State, a: nat, b: nat)
    requires ActorsInv(s) && a in s.actors && b in s.actors
    requires s.actors[a].turn.InTurn? && s.actors[b].turn.InTurn?
    ensures a == b && s.actors[a].socket == s.conn
  {
  }

  lemma StepKeepsLinks(s: State, a: Action)
    requires LinkInv(s) && Enabled(s, a)
    ensures LinkInv(Step(s, a))
  {
  }

  /** The step takes or gives back a lock. */
  predicate MovesLock(a: Action) {
    a.AcquireChat? || a.AcquireSend? || a.EndTurn? || a.SendDone? || a.CancelTask?
  }

  lemma AcquireKeepsLocks(s: State, a: Action)
    requires ActorsInv(s) && HoldersInv(s) && Enabled(s, a) && (a.AcquireChat? || a.AcquireSend?)
    ensures ActorsInv(Step(s, a)) && HoldersInv(Step(s, a))
  {
  }

  lemma ReleaseKeepsLocks(s: State, a: Action)
    requires ActorsInv(s) && HoldersInv(s) && Enabled(s, a) && (a.EndTurn? || a.SendDone?)
    ensures ActorsInv(Step(s, a)) && HoldersInv(Step(s, a))
  {
  }

  lemma CancelKeepsLocks(s: State, a: Action)
    requires ActorsInv(s) && HoldersInv(s) && Enabled(s, a) && a.CancelTask?
    ensures ActorsInv(Step(s, a)) && HoldersInv(Step(s, a))
  {
  }

  lemma OtherKeepsActors(s: State, a: Action)
    requires LinkInv(s) && ActorsInv(s) && Enabled(s, a) && !MovesLock(a)
    ensures ActorsInv(Step(s, a))
  {
  }

  lemma OtherKeepsHolders(s: State, a: Action)
    requires LinkInv(s) && ActorsInv(s) && HoldersInv(s) && Enabled(s, a) && !MovesLock(a)
    ensures HoldersInv(Step(s, a))
  {
  }

  lemma StepKeepsLocks(s: State, a: Action)
    requires LinkInv(s) && ActorsInv(s) && HoldersInv(s) && Enabled(s, a)
    ensures ActorsInv(Step(s, a)) && HoldersInv(Step(s, a))
  {
    match a
    case AcquireChat(_) => AcquireKeepsLocks(s, a);
    case AcquireSend(_) => AcquireKeepsLocks(s, a);
    case EndTurn(_) => ReleaseKeepsLocks(s, a);
    case SendDone(_) => ReleaseKeepsLocks(s, a);
    case CancelTask(_) => CancelKeepsLocks(s, a);
    case _ => OtherKeepsActors(s, a); OtherKeepsHolders(s, a);
  }

  lemma RunningExtends(ops: seq<Op>, op: Op, t: nat)
    ensures Running(ops + [op], t) <==> op == Start(t) || (Running(ops, t) && op != End(t))
  {
    var l := ops + [op];
    if op == Start(t) {
      assert l[|ops|] == Start(t);
    } else {
      if Running(l, t) {
        var i :| 0 <= i < |l| && l[i] == Start(t) && forall m :: i < m < |l| ==> l[m] != End(t);
        assert l[|ops|] == op;
        assert forall m :: 0 <= m < |ops| ==> l[m] == ops[m];
        assert ops[i] == Start(t);
      }
      if Running(ops, t) && op != End(t) {
        var i :| 0 <= i < |ops| && ops[i] == Start(t) && forall m :: i < m < |ops| ==> ops[m] != End(t);
        assert l[i] == Start(t);
      }
    }
  }

  lemma SerializedExtends(ops: seq<Op>, op: Op)
    requires Serialized(ops) && InOrder(ops, op)
    ensures Serialized(ops + [op])
  {
    var l := ops + [op];
    forall j | 0 <= j < |l| ensures InOrder(l[..j], l[j]) {
      if j < |ops| {
        assert l[..j] == ops[..j];
      } else {
        assert l[..j] == ops;
      }
    }
  }

  /** One more operation in order keeps the turns serialized and the running turn known. */
  lemma TurnsExtend(s: State, s': State, op: Op)
    requires TurnsInv(s) && s'.ops == s.ops + [op] && InOrder(s.ops, op)
    requires forall t :: t in s'.actors && s'.actors[t].turn.InTurn? <==>
               op == Start(t) || (t in s.actors && s.actors[t].turn.InTurn? && op != End(t))
    ensures TurnsInv(s')
  {
    SerializedExtends(s.ops, op);
    forall t ensures Running(s'.ops, t) <==> t in s'.actors && s'.actors[t].turn.InTurn? {
      RunningExtends(s.ops, op, t);
    }
  }

  lemma TurnsStay(s: State, s': State)
    requires TurnsInv(s) && s'.ops == s.ops
    requires forall t :: t in s'.actors && s'.actors[t].turn.InTurn? <==> t in s.actors && s.actors[t].turn.InTurn?
    ensures TurnsInv(s')
  {
  }

  /** The step starts, continues, ends or clears: exactly one operation on the chat state. */
  predicate Operates(s: State, a: Action)
    requires Enabled(s, a)
  {
    a.AcquireChat? || a.Event? || a.EndTurn? || a.Reset? || (a.CancelTask? && s.actors[a.id].turn.InTurn?)
  }

  lemma AcquireKeepsTurns(s: State, a: Action)
    requires Inv(s) && Enabled(s, a) && a.AcquireChat?
    ensures TurnsInv(Step(s, a))
  {
    TurnsExtend(s, Step(s, a), Start(a.id));
  }

  lemma EventKeepsTurns(s: State, a: Action)
    requires Inv(s) && Enabled(s, a) && a.Event?
    ensures TurnsInv(Step(s, a))
  {
    TurnsExtend(s, Step(s, a), Apply(a.id));
  }

  lemma EndKeepsTurns(s: State, a: Action)
    requires Inv(s) && Enabled(s, a) && a.EndTurn?
    ensures TurnsInv(Step(s, a))
  {
    TurnsExtend(s, Step(s, a), End(a.id));
  }

  lemma ResetKeepsTurns(s: State, a: Action)
    requires Inv(s) && Enabled(s, a) && a.Reset?
    ensures TurnsInv(Step(s, a))
  {
    TurnsExtend(s, Step(s, a), Clear);
  }

  lemma CancelKeepsTurns(s: State, a: Action)
    requires Inv(s) && Enabled(s, a) && Operates(s, a) && a.CancelTask?
    ensures TurnsInv(Step(s, a))
  {
    TurnsExtend(s, Step(s, a), End(a.id));
  }

  lemma OperatingStepKeepsTurns(s: State, a: Action)
    requires Inv(s) && Enabled(s, a) && Operates(s, a)
    ensures TurnsInv(Step(s, a))
  {
    match a
    case AcquireChat(_) => AcquireKeepsTurns(s, a);
    case Event(_) => EventKeepsTurns(s, a);
    case EndTurn(_) => EndKeepsTurns(s, a);
    case Reset(_) => ResetKeepsTurns(s, a);
    case CancelTask(_) => CancelKeepsTurns(s, a);
  }

  /** Any other step leaves every turn, and what was done to the chat state, as it was. */
  lemma OtherStepKeepsRunning(s: State, a: Action)
    requires LinkInv(s) && ActorsInv(s) && Enabled(s, a) && !Operates(s, a)
    ensures Step(s, a).ops == s.ops
    ensures forall t :: t in Step(s, a).actors && Step(s, a).actors[t].turn.InTurn?
                        <==> t in s.actors && s.actors[t].turn.InTurn?
  {
  }

  lemma OtherStepKeepsTurns(s: State, a: Action)
    requires Inv(s) && Enabled(s, a) && !Operates(s, a)
    ensures TurnsInv(Step(s, a))
  {
    OtherStepKeepsRunning(s, a);
    TurnsStay(s, Step(s, a));
  }

  lemma StepKeepsInv(s: State, a: Action)
    requires Inv(s) && Enabled(s, a)
    ensures Inv(Step(s, a))
  {
    StepKeepsLinks(s, a);
    StepKeepsLocks(s, a);
    if Operates(s, a) {
      OperatingStepKeepsTurns(s, a);
    } else {
      OtherStepKeepsTurns(s, a);
    }
  }

  lemma {:induction false} RunKeepsInv(log: seq<Action>)
    requires Run(log).Some?
    ensures Inv(Run(log).value)
  {
    if log == [] {
    } else {
      RunKeepsInv(log[..|log| - 1]);
      StepKeepsInv(Run(log[..|log| - 1]).value, log[|log| - 1]);
    }
  }

  /**
    In every run: what was done to the chat state is serialized turn by turn, no socket ever
    carries two frames at once, one task at most is in a turn, and only the current connection's
    tasks exist.
   */
  lemma RunIsSerialized(log: seq<Action>)
    requires Run(log).Some?
    ensures Serialized(Run(log).value.ops)
    ensures OneFrame(Run(log).value)
    ensures var actors := Run(log).value.actors;
            forall a, b :: a in actors && b in actors && actors[a].turn.InTurn? && actors[b].turn.InTurn? ==> a == b
    ensures forall id :: IsTask(Run(log).value, id) ==> Run(log).value.actors[id].socket == Run(log).value.conn
  {
    RunKeepsInv(log);
    InvOneFrame(Run(log).value);
    var s := Run(log).value;
    forall a, b | a in s.actors && b in s.actors && s.actors[a].turn.InTurn? && s.actors[b].turn.InTurn?
      ensures a == b
    {
      OneTurn(s, a, b);
    }
  }

  /** A dispatched task never finds a lock missing, so no turn and no frame goes unserialized. */
  lemma LocksAreThere(log: seq<Action>, id: nat)
    requires Run(log).Some? && IsTask(Run(log).value, id)
    ensures var s := Run(log).value;
            s.sendLock == Some(s.actors[id].socket) && s.chatLock == Some(s.actors[id].socket)
  {
    RunKeepsInv(log);
  }

  // ---- nobody waits for ever ----

  /** The frame that `id` sends or waits to send can go on: it takes the free lock, is sent, or the holder's is. */
  ghost predicate SendMoves(s: State, id: nat)
    requires id in s.actors
  {
    || Enabled(s, AcquireSend(id))
    || Enabled(s, SendDone(id))
    || exists h :: h in s.sendHolders.Values && Enabled(s, SendDone(h)) && s.actors[h].socket == s.actors[id].socket
  }

  /** In every run, whoever waits to send can send, or the frame that is on the wire can finish. */
  lemma SendersMove(log: seq<Action>, id: nat)
    requires Run(log).Some? && id in Run(log).value.actors && !Run(log).value.actors[id].send.Idle?
    ensures SendMoves(Run(log).value, id)
  {
    RunKeepsInv(log);
    var s := Run(log).value;
    var x := s.actors[id];
    if x.send.Queued? && x.socket in s.sendHolders {
      var h := s.sendHolders[x.socket];
      assert h in s.sendHolders.Values && Enabled(s, SendDone(h));
    }
  }

  /** The turn that `id` holds can go on: it ends, or its frame moves. */
  ghost predicate TurnMoves(s: State, id: nat)
    requires id in s.actors
  {
    Enabled(s, EndTurn(id)) || SendMoves(s, id)
  }

  /**
    In every run, a chat task that waits for its turn can have it, or the task in a turn can go on.
   */
  lemma TurnsMove(log: seq<Action>, id: nat)
    requires Run(log).Some? && id in Run(log).value.actors && Run(log).value.actors[id].turn.AwaitingLock?
    ensures var s := Run(log).value;
            || Enabled(s, AcquireChat(id))
            || exists h :: h in s.chatHolders.Values && h in s.actors && s.actors[h].turn.InTurn? && TurnMoves(s, h)
  {
    RunKeepsInv(log);
    var s := Run(log).value;
    var x := s.actors[id];
    if x.socket in s.chatHolders {
      var h := s.chatHolders[x.socket];
      assert h in s.chatHolders.Values && s.actors[h].turn.InTurn?;
      if !s.actors[h].send.Idle? {
        SendersMove(log, h);
      }
      assert TurnMoves(s, h);
    }
  }

  /**
    In every run, whatever locks are held: a task that has done nothing yet sends nothing and waits
    for nothing, so it can answer, clear the chat or end at once. A reply is such a task.
   */
  lemma FramesAreTaken(log: seq<Action>, id: nat)
    requires Run(log).Some? && IsTask(Run(log).value, id) && Run(log).value.actors[id].turn.Fresh?
    ensures var s := Run(log).value; Enabled(s, Frame(id)) && Enabled(s, Reset(id)) && Enabled(s, Finish(id))
  {
    RunKeepsInv(log);
  }
}

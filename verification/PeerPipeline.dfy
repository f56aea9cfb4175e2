/**
 The send pipeline of a peer: queueHandler and outHandler with the channels between them (peer/peer.go), one
 channel operation per step, in every interleaving.
 */
module PeerPipeline {

  /**
   A message to send; wantsDone says whether somebody waits on its done channel, trickled whether queueHandler made it
   from collected inventory.
   */
  datatype Msg = Msg(id: nat, wantsDone: bool, trickled: bool)

  /** Where queueHandler stands: its select loop, draining its list, draining the channel, or gone. */
  datatype QueuePc = QueueRunning | QueueDraining | QueueCleaning | QueueExited

  /** Where outHandler stands; a message being written is held until it is signalled. */
  datatype OutPc = OutIdle | OutWriting(msg: Msg) | OutReporting | OutWaiting | OutCleaning | OutExited

  /**
   The channels and local variables, then the history: the messages enqueued, those queueHandler accepted, those
   outHandler received, those dropped from the list and from the channel on the way out, and the done signals given.
   */
  datatype State = State(
    outputQueue: seq<Msg>, pending: seq<Msg>, waiting: bool, sendQueue: seq<Msg>, sendDone: nat, quit: bool,
    queue: QueuePc, out: OutPc,
    enqueued: seq<Msg>, accepted: seq<Msg>, received: seq<Msg>, dropped: seq<Msg>, late: seq<Msg>, signalled: seq<Msg>)

  const INITIAL: State := State([], [], false, [], 0, false, QueueRunning, OutIdle, [], [], [], [], [], [])

  datatype Action =
    | Enqueue(msg: Msg) | Disconnect
    | QueueTake | QueueInventory(inv: Msg) | QueueDone | QueueQuit | QueueDrop | QueueDropEnd | QueueClean | QueueCleanEnd
    | OutTake | OutWritten | OutFailed | OutReport | OutQuit | OutCleanStart | OutClean | OutCleanEnd

  /** What an action does: it is not possible now, it would block its handler on a full channel, or it leads on. */
  datatype Effect = Disabled | Blocks | To(state: State)

  /** sendQueue and sendDoneQueue have room for one. */
  const CAPACITY: nat := 1

  function Signal(s: State, m: Msg): State {
    if m.wantsDone then s.(signalled := s.signalled + [m]) else s
  }

  function Send(s: State, m: Msg): Effect {
    if |s.sendQueue| >= CAPACITY then Blocks else To(s.(sendQueue := s.sendQueue + [m]))
  }

  /** queuePacket: straight to outHandler, or into the list while one message is under way. */
  function QueuePacket(s: State, m: Msg): Effect {
    var taken := s.(accepted := s.accepted + [m], waiting := true);
    if !s.waiting then Send(taken, m) else To(taken.(pending := taken.pending + [m]))
  }

  function QueueStep(s: State, a: Action): Effect {
    match a
    case QueueTake =>
      if s.queue != QueueRunning || s.outputQueue == [] then Disabled
      else QueuePacket(s.(outputQueue := s.outputQueue[1..]), s.outputQueue[0])
    case QueueInventory(inv) => if s.queue != QueueRunning || inv.wantsDone || !inv.trickled then Disabled else QueuePacket(s, inv)
    case QueueDone =>
      if s.queue != QueueRunning || s.sendDone == 0 then Disabled
      else
        var t := s.(sendDone := s.sendDone - 1);
        if s.pending == [] then To(t.(waiting := false)) else Send(t.(pending := t.pending[1..]), t.pending[0])
    case QueueQuit => if s.queue != QueueRunning || !s.quit then Disabled else To(s.(queue := QueueDraining))
    case QueueDrop =>
      if s.queue != QueueDraining || s.pending == [] then Disabled
      else To(Signal(s.(pending := s.pending[1..], dropped := s.dropped + [s.pending[0]]), s.pending[0]))
    case QueueDropEnd => if s.queue != QueueDraining || s.pending != [] then Disabled else To(s.(queue := QueueCleaning))
    case QueueClean =>
      if s.queue != QueueCleaning || s.outputQueue == [] then Disabled
      else To(Signal(s.(outputQueue := s.outputQueue[1..], late := s.late + [s.outputQueue[0]]), s.outputQueue[0]))
    case QueueCleanEnd => if s.queue != QueueCleaning || s.outputQueue != [] then Disabled else To(s.(queue := QueueExited))
    case _ => Disabled
  }

  function OutStep(s: State, a: Action): Effect {
    match a
    case OutTake =>
      if s.out != OutIdle || s.sendQueue == [] then Disabled
      else To(s.(sendQueue := s.sendQueue[1..], out := OutWriting(s.sendQueue[0]), received := s.received + [s.sendQueue[0]]))
    case OutWritten => if !s.out.OutWriting? then Disabled else To(Signal(s.(out := OutReporting), s.out.msg))
    case OutFailed => if !s.out.OutWriting? then Disabled else To(Signal(s.(out := OutIdle, quit := true), s.out.msg))
    case OutReport =>
      if s.out != OutReporting then Disabled
      else if s.sendDone >= CAPACITY then Blocks
      else To(s.(sendDone := s.sendDone + 1, out := OutIdle))
    case OutQuit => if s.out != OutIdle || !s.quit then Disabled else To(s.(out := OutWaiting))
    case OutCleanStart => if s.out != OutWaiting || s.queue != QueueExited then Disabled else To(s.(out := OutCleaning))
    case OutClean =>
      if s.out != OutCleaning || s.sendQueue == [] then Disabled
      else To(Signal(s.(sendQueue := s.sendQueue[1..], received := s.received + [s.sendQueue[0]]), s.sendQueue[0]))
    case OutCleanEnd => if s.out != OutCleaning || s.sendQueue != [] then Disabled else To(s.(out := OutExited))
    case _ => Disabled
  }

  function Step(s: State, a: Action): Effect {
    match a
    case Enqueue(m) =>
      if m.trickled then Disabled else To(s.(outputQueue := s.outputQueue + [m], enqueued := s.enqueued + [m]))
    case Disconnect => To(s.(quit := true))
    case _ =>
      var e := QueueStep(s, a);
      if e.Disabled? then OutStep(s, a) else e
  }

  /* The invariant */

  /** The message under way between the handlers, or the report that it is done. */
  function UnderWay(s: State): nat {
    |s.sendQueue| + (if s.out.OutWriting? || s.out.OutReporting? then 1 else 0) + s.sendDone
  }

  function Wanting(ms: seq<Msg>): multiset<Msg> {
    if ms == [] then multiset{} else Wanting(ms[..|ms| - 1]) + (if ms[|ms| - 1].wantsDone then multiset{ms[|ms| - 1]} else multiset{})
  }

  /** Messages taken over but not signalled yet. */
  function Unsignalled(s: State): multiset<Msg> {
    Wanting(s.sendQueue) + Wanting(s.pending) + (if s.out.OutWriting? then Wanting([s.out.msg]) else multiset{})
  }

  /** At most one message is under way; none while queueHandler is not waiting; and what the handlers' places imply. */
  ghost predicate Flow(s: State) {
    UnderWay(s) <= 1 && (!s.waiting ==> UnderWay(s) == 0 && s.pending == []) &&
    (s.queue.QueueRunning? ==> s.dropped == []) &&
    (s.queue.QueueCleaning? || s.queue.QueueExited? ==> s.pending == []) &&
    (s.out.OutCleaning? || s.out.OutExited? ==> s.queue.QueueExited?) && (s.out.OutExited? ==> s.sendQueue == [])
  }

  /** What was accepted is, in order, what was received, what is on its way, what was dropped and what is listed. */
  ghost predicate InOrder(s: State) {
    s.accepted == s.received + s.sendQueue + s.dropped + s.pending
  }

  /** The messages that were enqueued, not made from inventory. */
  function Direct(ms: seq<Msg>): seq<Msg> {
    if ms == [] then [] else Direct(ms[..|ms| - 1]) + (if ms[|ms| - 1].trickled then [] else [ms[|ms| - 1]])
  }

  /** What was enqueued is, in order, what was accepted of it, what was drained from the channel and what is still in it. */
  ghost predicate Queued(s: State) {
    s.enqueued == Direct(s.accepted) + s.late + s.outputQueue &&
    (forall i :: 0 <= i < |s.outputQueue| ==> !s.outputQueue[i].trickled) &&
    (s.queue.QueueRunning? || s.queue.QueueDraining? ==> s.late == [])
  }

  /** Every message taken over has either been signalled or still will be. */
  ghost predicate Accounted(s: State) {
    multiset(s.signalled) + Unsignalled(s) == Wanting(s.accepted) + Wanting(s.late)
  }

  ghost predicate Inv(s: State) {
    Flow(s) && InOrder(s) && Queued(s) && Accounted(s)
  }

  lemma {:induction false} WantingSnoc(ms: seq<Msg>, m: Msg)
    ensures Wanting(ms + [m]) == Wanting(ms) + Wanting([m])
  {
    assert (ms + [m])[..|ms|] == ms && [m][..0] == [];
    assert Wanting([m]) == Wanting([]) + if m.wantsDone then multiset{m} else multiset{};
  }

  lemma {:induction false} WantingNothing(a: seq<Msg>)
    ensures Wanting(a + []) == Wanting(a) + Wanting([])
  {
    assert a + [] == a;
  }

  lemma {:induction false} LastOfJoin(a: seq<Msg>, b: seq<Msg>)
    requires b != []
    ensures var c, m := b[..|b| - 1], b[|b| - 1]; a + b == (a + c) + [m] && b == c + [m]
  {
  }

  lemma {:induction false} Regroup(a: multiset<Msg>, b: multiset<Msg>, c: multiset<Msg>)
    ensures (a + b) + c == a + (b + c)
  {
  }

  lemma {:induction false} WantingJoin(a: seq<Msg>, b: seq<Msg>)
    ensures Wanting(a + b) == Wanting(a) + Wanting(b)
  {
    hide Wanting;
    if b == [] {
      WantingNothing(a);
    } else {
      var c, m := b[..|b| - 1], b[|b| - 1];
      WantingJoin(a, c);
      LastOfJoin(a, b);
      WantingSnoc(a + c, m);
      WantingSnoc(c, m);
      Regroup(Wanting(a), Wanting(c), Wanting([m]));
    }
  }

  lemma {:induction false} WantingOne(m: Msg)
    ensures Wanting([m]) == if m.wantsDone then multiset{m} else multiset{}
  {
    assert [m][..0] == [];
  }

  lemma {:induction false} WantingPop(ms: seq<Msg>)
    requires ms != []
    ensures Wanting(ms) == Wanting([ms[0]]) + Wanting(ms[1..])
  {
    assert ms == [ms[0]] + ms[1..];
    WantingJoin([ms[0]], ms[1..]);
  }

  lemma {:induction false} Signalled(s: State, m: Msg)
    ensures multiset(Signal(s, m).signalled) == multiset(s.signalled) + Wanting([m])
  {
    WantingOne(m);
  }

  /* At most one under way, and nothing blocks */

  lemma {:induction false} PacketFlows(s: State, m: Msg)
    requires Flow(s) && s.queue.QueueRunning?
    ensures QueuePacket(s, m).To? && Flow(QueuePacket(s, m).state)
  {
  }

  lemma {:induction false} QueueFlows(s: State, a: Action)
    requires Flow(s) && !QueueStep(s, a).Disabled?
    ensures QueueStep(s, a).To? && Flow(QueueStep(s, a).state)
  {
    match a
    case QueueTake =>
      var t := s.(outputQueue := s.outputQueue[1..]);
      assert Flow(t);
      hide Flow, QueuePacket;
      PacketFlows(t, s.outputQueue[0]);
    case QueueInventory(inv) =>
      hide Flow, QueuePacket;
      PacketFlows(s, inv);
    case _ =>
  }

  lemma {:induction false} OutFlows(s: State, a: Action)
    requires Flow(s) && !OutStep(s, a).Disabled?
    ensures OutStep(s, a).To? && Flow(OutStep(s, a).state)
  {
  }

  /* Order */

  lemma {:induction false} PacketInOrder(s: State, m: Msg)
    requires Flow(s) && InOrder(s) && s.queue.QueueRunning? && QueuePacket(s, m).To?
    ensures InOrder(QueuePacket(s, m).state)
  {
    if s.waiting {
      assert s.received + s.sendQueue + s.dropped + (s.pending + [m]) == s.received + s.sendQueue + s.dropped + s.pending + [m];
    } else {
      assert s.received + (s.sendQueue + [m]) + s.dropped + s.pending == s.received + s.sendQueue + s.dropped + s.pending + [m];
    }
  }

  lemma {:induction false} PopMoves(a: seq<Msg>, b: seq<Msg>)
    requires b != []
    ensures a + [b[0]] + b[1..] == a + b
  {
  }

  lemma {:induction false} QueueInOrder(s: State, a: Action)
    requires Flow(s) && InOrder(s) && QueueStep(s, a).To?
    ensures InOrder(QueueStep(s, a).state)
  {
    match a
    case QueueTake =>
      hide Flow, QueuePacket;
      assert Flow(s.(outputQueue := s.outputQueue[1..])) by { SameFlow(s); }
      PacketInOrder(s.(outputQueue := s.outputQueue[1..]), s.outputQueue[0]);
    case QueueInventory(inv) =>
      hide Flow, QueuePacket;
      PacketInOrder(s, inv);
    case QueueDone =>
      if s.pending != [] {
        PopMoves(s.received, s.pending);
        assert s.sendQueue == [] && s.dropped == [] && [] + [s.pending[0]] == [s.pending[0]];
        assert s.received + [s.pending[0]] + [] + s.pending[1..] == s.received + [s.pending[0]] + s.pending[1..];
        assert s.received + [] + [] + s.pending == s.received + s.pending;
      }
    case QueueDrop =>
      hide Flow;
      PopMoves(s.received + s.sendQueue + s.dropped, s.pending);
      assert s.received + s.sendQueue + (s.dropped + [s.pending[0]]) == s.received + s.sendQueue + s.dropped + [s.pending[0]];
    case _ =>
  }

  lemma {:induction false} SameFlow(s: State)
    requires Flow(s) && s.outputQueue != []
    ensures Flow(s.(outputQueue := s.outputQueue[1..]))
  {
  }

  lemma {:induction false} OutInOrder(s: State, a: Action)
    requires InOrder(s) && OutStep(s, a).To?
    ensures InOrder(OutStep(s, a).state)
  {
    if a.OutTake? || a.OutClean? {
      PopMoves(s.received, s.sendQueue);
    }
  }

  /* Enqueue order */

  lemma {:induction false} DirectJoin(a: seq<Msg>, b: seq<Msg>)
    ensures Direct(a + b) == Direct(a) + Direct(b)
  {
    if b == [] {
      assert a + b == a;
    } else {
      DirectJoin(a, b[..|b| - 1]);
      assert (a + b)[..|a + b| - 1] == a + b[..|b| - 1];
    }
  }

  lemma {:induction false} DirectOne(ms: seq<Msg>, m: Msg)
    ensures Direct(ms + [m]) == if m.trickled then Direct(ms) else Direct(ms) + [m]
  {
    assert (ms + [m])[..|ms|] == ms;
  }

  lemma {:induction false} PacketAccepts(s: State, m: Msg)
    requires QueuePacket(s, m).To?
    ensures var t := QueuePacket(s, m).state;
            t.accepted == s.accepted + [m] && t.enqueued == s.enqueued && t.late == s.late &&
            t.outputQueue == s.outputQueue && t.queue == s.queue
  {
  }

  lemma {:induction false} QueueQueued(s: State, a: Action)
    requires Queued(s) && QueueStep(s, a).To?
    ensures Queued(QueueStep(s, a).state)
  {
    hide Direct;
    match a
    case QueueTake =>
      var m, rest := s.outputQueue[0], s.outputQueue[1..];
      PacketAccepts(s.(outputQueue := rest), m);
      DirectOne(s.accepted, m);
      PopMoves(Direct(s.accepted), s.outputQueue);
      assert Direct(s.accepted) + [] + s.outputQueue == Direct(s.accepted) + s.outputQueue;
      assert Direct(s.accepted) + [m] + [] + rest == Direct(s.accepted) + [m] + rest;
    case QueueInventory(inv) =>
      PacketAccepts(s, inv);
      DirectOne(s.accepted, inv);
    case QueueClean =>
      var m, rest := s.outputQueue[0], s.outputQueue[1..];
      PopMoves(Direct(s.accepted) + s.late, s.outputQueue);
      assert Direct(s.accepted) + (s.late + [m]) == Direct(s.accepted) + s.late + [m];
    case _ =>
  }

  lemma {:induction false} OutQueued(s: State, a: Action)
    requires Queued(s) && OutStep(s, a).To?
    ensures Queued(OutStep(s, a).state)
  {
    hide Direct;
  }

  /* Signals */

  lemma {:induction false} PacketAccounted(s: State, m: Msg)
    requires Accounted(s) && QueuePacket(s, m).To?
    ensures Accounted(QueuePacket(s, m).state)
  {
    hide Wanting;
    WantingJoin(s.accepted, [m]);
    WantingJoin(s.pending, [m]);
    WantingJoin(s.sendQueue, [m]);
    var t := QueuePacket(s, m).state;
    assert Unsignalled(t) == Unsignalled(s) + Wanting([m]);
    assert multiset(t.signalled) + Unsignalled(t) == multiset(s.signalled) + Unsignalled(s) + Wanting([m]);
  }

  lemma {:induction false} DoneAccounted(s: State)
    requires Accounted(s) && QueueStep(s, QueueDone).To?
    ensures Accounted(QueueStep(s, QueueDone).state)
  {
    hide Wanting;
    if s.pending != [] {
      WantingPop(s.pending);
      WantingJoin(s.sendQueue, [s.pending[0]]);
    }
  }

  lemma {:induction false} SignalMoves(signalled: multiset<Msg>, one: multiset<Msg>, left: multiset<Msg>)
    ensures (signalled + one) + left == signalled + (left + one)
  {
  }

  lemma {:induction false} LateMoves(signalled: multiset<Msg>, left: multiset<Msg>, taken: multiset<Msg>,
      late: multiset<Msg>, one: multiset<Msg>)
    requires signalled + left == taken + late
    ensures signalled + (left + one) == taken + (late + one)
  {
    Regroup(signalled, left, one);
    Regroup(taken, late, one);
  }

  lemma {:induction false} PendingPop(w: multiset<Msg>, p: multiset<Msg>, o: multiset<Msg>, m: multiset<Msg>)
    ensures w + (m + p) + o == w + p + o + m && (m + w) + p + o == w + p + o + m
  {
  }

  lemma {:induction false} DropAccounted(s: State)
    requires Accounted(s) && QueueStep(s, QueueDrop).To?
    ensures Accounted(QueueStep(s, QueueDrop).state)
  {
    hide Wanting;
    var m, t := s.pending[0], QueueStep(s, QueueDrop).state;
    var o := if s.out.OutWriting? then Wanting([s.out.msg]) else multiset{};
    WantingPop(s.pending);
    Signalled(s.(pending := s.pending[1..], dropped := s.dropped + [m]), m);
    PendingPop(Wanting(s.sendQueue), Wanting(s.pending[1..]), o, Wanting([m]));
    SignalMoves(multiset(s.signalled), Wanting([m]), Unsignalled(t));
  }

  lemma {:induction false} CleanAccounted(s: State)
    requires Accounted(s) && QueueStep(s, QueueClean).To?
    ensures Accounted(QueueStep(s, QueueClean).state)
  {
    hide Wanting;
    var m := s.outputQueue[0];
    WantingJoin(s.late, [m]);
    Signalled(s.(outputQueue := s.outputQueue[1..], late := s.late + [m]), m);
    var t := QueueStep(s, QueueClean).state;
    assert Unsignalled(t) == Unsignalled(s);
    hide Unsignalled;
    SignalMoves(multiset(s.signalled), Wanting([m]), Unsignalled(s));
    LateMoves(multiset(s.signalled), Unsignalled(s), Wanting(s.accepted), Wanting(s.late), Wanting([m]));
  }

  lemma {:induction false} QueueAccounted(s: State, a: Action)
    requires Accounted(s) && QueueStep(s, a).To?
    ensures Accounted(QueueStep(s, a).state)
  {
    match a
    case QueueTake =>
      assert Accounted(s.(outputQueue := s.outputQueue[1..]));
      hide Accounted, QueuePacket;
      PacketAccounted(s.(outputQueue := s.outputQueue[1..]), s.outputQueue[0]);
    case QueueInventory(inv) =>
      hide Accounted, QueuePacket;
      PacketAccounted(s, inv);
    case QueueDone =>
      hide Accounted;
      DoneAccounted(s);
    case QueueDrop =>
      hide Accounted;
      DropAccounted(s);
    case QueueClean =>
      hide Accounted;
      CleanAccounted(s);
    case _ =>
  }

  lemma {:induction false} TakeAccounted(s: State)
    requires Accounted(s) && OutStep(s, OutTake).To?
    ensures Accounted(OutStep(s, OutTake).state)
  {
    hide Wanting;
    WantingPop(s.sendQueue);
  }

  lemma {:induction false} WriteAccounted(s: State, a: Action)
    requires Accounted(s) && (a.OutWritten? || a.OutFailed?) && OutStep(s, a).To?
    ensures Accounted(OutStep(s, a).state)
  {
    hide Wanting;
    Signalled(s.(out := OutReporting), s.out.msg);
    Signalled(s.(out := OutIdle, quit := true), s.out.msg);
  }

  lemma {:induction false} OutCleanAccounted(s: State)
    requires Accounted(s) && OutStep(s, OutClean).To?
    ensures Accounted(OutStep(s, OutClean).state)
  {
    hide Wanting;
    var m, t := s.sendQueue[0], OutStep(s, OutClean).state;
    WantingPop(s.sendQueue);
    Signalled(s.(sendQueue := s.sendQueue[1..], received := s.received + [m]), m);
    PendingPop(Wanting(s.sendQueue[1..]), Wanting(s.pending), multiset{}, Wanting([m]));
    SignalMoves(multiset(s.signalled), Wanting([m]), Unsignalled(t));
  }

  lemma {:induction false} OutAccounted(s: State, a: Action)
    requires Accounted(s) && OutStep(s, a).To?
    ensures Accounted(OutStep(s, a).state)
  {
    match a
    case OutTake =>
      hide Accounted;
      TakeAccounted(s);
    case OutWritten =>
      hide Accounted;
      WriteAccounted(s, a);
    case OutFailed =>
      hide Accounted;
      WriteAccounted(s, a);
    case OutClean =>
      hide Accounted;
      OutCleanAccounted(s);
    case _ =>
  }

  lemma {:induction false} OutsideKeeps(s: State, a: Action)
    requires Inv(s) && (a.Enqueue? || a.Disconnect?)
    ensures !Step(s, a).Blocks? && (Step(s, a).To? ==> Inv(Step(s, a).state))
  {
    hide Wanting, Direct;
    if a.Enqueue? {
      assert Direct(s.accepted) + s.late + (s.outputQueue + [a.msg]) == Direct(s.accepted) + s.late + s.outputQueue + [a.msg];
    }
  }

  /** No step blocks, and every step keeps the invariant. */
  lemma {:induction false} StepKeeps(s: State, a: Action)
    requires Inv(s)
    ensures !Step(s, a).Blocks? && (Step(s, a).To? ==> Inv(Step(s, a).state))
  {
    if a.Enqueue? || a.Disconnect? {
      OutsideKeeps(s, a);
    } else {
      hide Flow, InOrder, Queued, Accounted, QueueStep, OutStep;
      if !QueueStep(s, a).Disabled? {
        QueueFlows(s, a);
        QueueInOrder(s, a);
        QueueQueued(s, a);
        QueueAccounted(s, a);
      } else if !OutStep(s, a).Disabled? {
        OutFlows(s, a);
        OutInOrder(s, a);
        OutQueued(s, a);
        OutAccounted(s, a);
      }
    }
  }

  /* Runs */

  /** The state after a run, if every action of it was possible and none blocked. */
  function Run(actions: seq<Action>): Effect {
    if actions == [] then To(INITIAL)
    else
      match Run(actions[..|actions| - 1])
      case To(s) => Step(s, actions[|actions| - 1])
      case other => other
  }

  /** In every run nothing ever blocks, and the invariant holds all along. */
  lemma {:induction false} RunsNeverBlock(actions: seq<Action>)
    ensures !Run(actions).Blocks? && (Run(actions).To? ==> Inv(Run(actions).state))
  {
    hide Inv, Step;
    if actions == [] {
      InitialState();
    } else {
      var before := Run(actions[..|actions| - 1]);
      RunsNeverBlock(actions[..|actions| - 1]);
      if before.To? {
        StepKeeps(before.state, actions[|actions| - 1]);
      }
    }
  }

  lemma {:induction false} InitialState()
    ensures Inv(INITIAL)
  {
  }

  /**
   Messages reach outHandler in the order they were enqueued, with the messages made from inventory in between, and at
   most one is between the handlers.
   */
  lemma {:induction false} OneAtATimeInOrder(actions: seq<Action>)
    requires Run(actions).To?
    ensures var s := Run(actions).state;
            Direct(s.received) <= s.enqueued && s.received <= s.accepted && UnderWay(s) <= 1
    ensures var s := Run(actions).state; s.enqueued == Direct(s.accepted) + s.late + s.outputQueue
  {
    hide Run, Accounted, Direct;
    RunsNeverBlock(actions);
    var s := Run(actions).state;
    ReceivedFirst(s.received, s.sendQueue, s.dropped, s.pending);
    var rest := s.accepted[|s.received|..];
    assert s.accepted == s.received + rest;
    DirectJoin(s.received, rest);
    ReceivedFirst(Direct(s.received), Direct(rest), s.late, s.outputQueue);
  }

  lemma {:induction false} ReceivedFirst(a: seq<Msg>, b: seq<Msg>, c: seq<Msg>, d: seq<Msg>)
    ensures a <= a + b + c + d
  {
  }

  /** Once both handlers are gone, every message they took over was signalled as often as it was taken over. */
  lemma {:induction false} EveryTakenMessageIsSignalled(actions: seq<Action>)
    requires Run(actions).To? && Run(actions).state.queue.QueueExited? && Run(actions).state.out.OutExited?
    ensures var s := Run(actions).state; multiset(s.signalled) == Wanting(s.accepted) + Wanting(s.late)
  {
    hide Run, Queued;
    RunsNeverBlock(actions);
    assert Wanting([]) == multiset{};
  }

  /**
   Of what was enqueued with somebody waiting, everything the handlers took out of the channel has been signalled as
   often as it was enqueued: enqueued once and taken out means signalled once.
   */
  lemma {:induction false} SignalledExactlyOnce(actions: seq<Action>, m: Msg)
    requires Run(actions).To? && Run(actions).state.queue.QueueExited? && Run(actions).state.out.OutExited?
    requires m.wantsDone
    ensures var s := Run(actions).state;
            multiset(s.signalled)[m] + multiset(s.outputQueue)[m] == multiset(s.enqueued)[m]
  {
    hide Run, Direct;
    var s := Run(actions).state;
    RunsNeverBlock(actions);
    EveryTakenMessageIsSignalled(actions);
    WantingCounts(s.accepted, m);
    WantingCounts(s.late, m);
    NoneWaitForTrickled(actions, m);
    assert multiset(s.enqueued) == multiset(Direct(s.accepted)) + multiset(s.late) + multiset(s.outputQueue);
  }

  /** Nobody waits for a message made from inventory. */
  ghost predicate TrickledUnwanted(ms: seq<Msg>) {
    forall i :: 0 <= i < |ms| && ms[i].trickled ==> !ms[i].wantsDone
  }

  lemma {:induction false} StepUnwanted(s: State, a: Action)
    requires TrickledUnwanted(s.accepted) && Queued(s) && Step(s, a).To?
    ensures TrickledUnwanted(Step(s, a).state.accepted)
  {
    hide Direct, Wanting;
  }

  lemma {:induction false} RunUnwanted(actions: seq<Action>)
    requires Run(actions).To?
    ensures TrickledUnwanted(Run(actions).state.accepted)
  {
    hide Step, TrickledUnwanted, Flow, InOrder, Accounted, Queued;
    if actions == [] {
      NoneUnwanted();
    } else {
      var before := actions[..|actions| - 1];
      RunUnwanted(before);
      RunsNeverBlock(before);
      StepUnwanted(Run(before).state, actions[|actions| - 1]);
    }
  }

  lemma {:induction false} NoneUnwanted()
    ensures TrickledUnwanted(INITIAL.accepted)
  {
  }

  lemma {:induction false} NoneWaitForTrickled(actions: seq<Action>, m: Msg)
    requires Run(actions).To? && m.wantsDone
    ensures multiset(Direct(Run(actions).state.accepted))[m] == multiset(Run(actions).state.accepted)[m]
  {
    hide Run;
    RunUnwanted(actions);
    DirectCounts(Run(actions).state.accepted, m);
  }

  lemma {:induction false} DirectCounts(ms: seq<Msg>, m: Msg)
    requires m.wantsDone && TrickledUnwanted(ms)
    ensures multiset(Direct(ms))[m] == multiset(ms)[m]
  {
    if ms != [] {
      hide Direct;
      var c, x := ms[..|ms| - 1], ms[|ms| - 1];
      DirectCounts(c, m);
      assert ms == c + [x];
      DirectOne(c, x);
    }
  }

  lemma {:induction false} WantingCounts(ms: seq<Msg>, m: Msg)
    requires m.wantsDone
    ensures Wanting(ms)[m] == multiset(ms)[m]
  {
    if ms != [] {
      WantingCounts(ms[..|ms| - 1], m);
      assert ms == ms[..|ms| - 1] + [ms[|ms| - 1]];
    }
  }
}

/** Every run of a safe pair is finite, and stops only when there is nothing left to do. */
module ConnectionLiveness {
  import opened Arithmetic
  import opened Configuration
  import opened SessionModel
  import opened Connection
  import opened ConnectionEffects
  import opened ConnectionIntegrity
  import opened ConnectionSafety

  /** In the directions in use, a bandwidth of at least the sampling frequency and room for one byte on the wire. */
  ghost predicate Paced(me: Side) {
    && (!me.session.config.direction.Rx? ==> me.session.tx.counter.slice > 0 && me.capacity > 0)
    && (!me.session.config.direction.Tx? ==> me.session.rx.counter.slice > 0)
  }

  ghost predicate Quiescent(p: Pair) {
    forall m :: !CanMove(p, m)
  }

  /** The configurations whose every run ends in success: safe, and at least one end half-closes on its own. */
  predicate Completing(a: Config, b: Config) {
    SafePolicies(a, b) && !BothWait(a, b)
  }

  /** What the program calls a good end: the socket was closed and no failure was recorded. */
  ghost predicate ReportsSuccess(me: Side) {
    Closed(me.session) && me.session.log.failure == None
  }

  ghost predicate Reported(p: Pair) {
    ReportsSuccess(p.a) && ReportsSuccess(p.b)
  }

  /** Everything was transferred as well, and nothing more. */
  ghost predicate Succeeded(me: Side) {
    var s := me.session;
    && ReportsSuccess(me)
    && s.tx.counter.bytes == OutSize(s.config)
    && s.rx.counter.bytes == InSize(s.config)
    && me.wire == []
  }

  ghost predicate Success(p: Pair) {
    Succeeded(p.a) && Succeeded(p.b)
  }

  // ---------- deadlock freedom ----------

  /** A time at which a waiting throttle may fire. */
  function Due(s: Session, next: int): int {
    Max(s.clock, next)
  }

  /** While one end still reads, one of the two halves of that direction can act. */
  lemma FlowCanAct(src: Side, dst: Side) returns (bySrc: bool, now: int, action: Action)
    requires EndsInv(src, dst) && Paced(src)
    requires OutSize(src.session.config) == InSize(dst.session.config)
    requires src.session.started && !src.session.tx.op.SendStopped?
    requires dst.session.rx.op.ReceiveThrottled? || dst.session.rx.op.ReceivePending?
    requires src.sendDone.Some? ==> src.sendDone.value.Transferred?
    requires Fin(src.session) ==> Pushed(src) == OutSize(src.session.config)
    ensures bySrc ==> CanAct(src, dst, now, action) && (action.SendSlice? || action.KernelSend? || action.RunSend?)
    ensures !bySrc ==> CanAct(dst, src, now, action) && (action.ReceiveSlice? || action.KernelRead? || action.RunRead?)
  {
    var d := dst.session;
    if d.rx.op.ReceiveThrottled? {
      return false, Due(d, d.rx.counter.next), ReceiveSlice;
    }
    if dst.readDone.Some? {
      return false, d.clock, RunRead;
    }
    if src.wire != [] {
      return false, d.clock, KernelRead(1);
    }
    var s := src.session;
    PushedBound(src);
    if s.tx.op.SendThrottled? {
      return true, Due(s, s.tx.counter.next), SendSlice;
    }
    if src.sendDone.Some? {
      return true, s.clock, RunSend;
    }
    return true, s.clock, KernelSend(1);
  }

  /** With both streams read to their size, an unfinished send half can still act. */
  lemma SendCanAct(me: Side, peer: Side) returns (now: int, action: Action)
    requires Clean(me, peer) && me.session.started
    requires peer.session.rx.op.EofPending? || peer.session.rx.op.ReceiveFinished?
    requires !me.session.tx.op.SendFinished?
    ensures CanAct(me, peer, now, action)
  {
    Drained(peer, me);
    var s := me.session;
    if s.tx.op.SendThrottled? {
      return Due(s, s.tx.counter.next), SendSlice;
    }
    return s.clock, RunSend;
  }

  lemma EndCanAct(me: Side, peer: Side) returns (action: Action)
    requires Clean(me, peer) && me.session.rx.op.EofPending?
    requires me.readDone.Some? || Fin(peer.session)
    ensures CanAct(me, peer, me.session.clock, action)
  {
    Drained(me, peer);
    return if me.readDone.Some? then RunRead else KernelEnd;
  }

  /** Both ends have transferred everything and only wait for the other to half-close first. */
  ghost predicate Waiting(me: Side, peer: Side) {
    && me.session.tx.op.SendFinished? && me.session.rx.op.EofPending? && me.readDone.None?
    && me.wire == []
    && me.session.tx.counter.bytes == OutSize(me.session.config)
    && me.session.rx.counter.bytes == InSize(me.session.config)
    && me.session.log.failure == None && !Fin(me.session)
  }

  /** An end with both halves at their end, whose closing read cannot return: its peer has not half-closed. */
  lemma StuckPeerWaits(me: Side, peer: Side)
    requires Clean(me, peer)
    requires me.session.rx.op.EofPending? && !Fin(peer.session)
    requires peer.session.tx.op.SendFinished?
    requires peer.session.rx.op.EofPending? || peer.session.rx.op.ReceiveFinished?
    ensures peer.session.config.policy.WaitForPeer? && peer.session.rx.op.EofPending?
  {
    FinByPolicy(peer.session);
  }

  /** The only states without a move: both ends succeeded, or both wait for each other. */
  lemma QuiescentCases(p: Pair)
    requires Clean(p.a, p.b) && Paced(p.a) && Paced(p.b)
    requires Quiescent(p)
    ensures Success(p) || (BothWait(p.a.session.config, p.b.session.config) && Waiting(p.a, p.b) && Waiting(p.b, p.a))
  {
    BothStarted(p);
    BothRead(p);
    BothSent(p);
    Drained(p.a, p.b);
    Drained(p.b, p.a);
    if p.a.session.rx.op.EofPending? {
      if p.a.readDone.Some? || Fin(p.b.session) {
        var action := EndCanAct(p.a, p.b);
        assert CanMove(p, Move(true, p.a.session.clock, action));
      }
      StuckPeerWaits(p.a, p.b);
    }
    if p.b.session.rx.op.EofPending? {
      if p.b.readDone.Some? || Fin(p.a.session) {
        var action := EndCanAct(p.b, p.a);
        assert CanMove(p, Move(false, p.b.session.clock, action));
      }
      StuckPeerWaits(p.b, p.a);
    }
  }

  lemma BothStarted(p: Pair)
    requires Quiescent(p) && Clean(p.a, p.b)
    ensures p.a.session.started && p.b.session.started
  {
    assert !CanMove(p, Move(true, p.a.session.clock, Start(p.a.session.clock)));
    assert !CanMove(p, Move(false, p.b.session.clock, Start(p.b.session.clock)));
  }

  lemma BothRead(p: Pair)
    requires Quiescent(p) && Clean(p.a, p.b) && Paced(p.a) && Paced(p.b)
    requires p.a.session.started && p.b.session.started
    ensures p.a.session.rx.op.EofPending? || p.a.session.rx.op.ReceiveFinished?
    ensures p.b.session.rx.op.EofPending? || p.b.session.rx.op.ReceiveFinished?
  {
    if p.a.session.rx.op.ReceiveThrottled? || p.a.session.rx.op.ReceivePending? {
      var bySrc, now, action := FlowCanAct(p.b, p.a);
      assert CanMove(p, Move(!bySrc, now, action));
    }
    if p.b.session.rx.op.ReceiveThrottled? || p.b.session.rx.op.ReceivePending? {
      var bySrc, now, action := FlowCanAct(p.a, p.b);
      assert CanMove(p, Move(bySrc, now, action));
    }
  }

  lemma BothSent(p: Pair)
    requires Quiescent(p) && Clean(p.a, p.b)
    requires p.a.session.started && p.b.session.started
    requires p.a.session.rx.op.EofPending? || p.a.session.rx.op.ReceiveFinished?
    requires p.b.session.rx.op.EofPending? || p.b.session.rx.op.ReceiveFinished?
    ensures p.a.session.tx.op.SendFinished? && p.b.session.tx.op.SendFinished?
  {
    if !p.a.session.tx.op.SendFinished? {
      var now, action := SendCanAct(p.a, p.b);
      assert CanMove(p, Move(true, now, action));
    }
    if !p.b.session.tx.op.SendFinished? {
      var now, action := SendCanAct(p.b, p.a);
      assert CanMove(p, Move(false, now, action));
    }
  }

  // ---------- termination ----------

  /** Work left in a send half: bytes not yet pushed, then the stage of the chain. */
  function SendWork(me: Side): int {
    var left := OutSize(me.session.config) - Pushed(me);
    match me.session.tx.op
    case SendIdle => 4 * left + 5
    case SendThrottled => 4 * left + 3
    case SendPending(_, _, _) =>
      if me.sendDone.None? then 4 * left + 2 else if me.sendDone.value.Transferred? then 4 * left + 4 else 1
    case _ => 0
  }

  /** Work left in a receive half: bytes not yet taken, then the stage; an overshoot leaves none. */
  function ReceiveWork(me: Side): int {
    var left := Max(0, InSize(me.session.config) - Taken(me));
    match me.session.rx.op
    case ReceiveIdle => 4 * left + 9
    case ReceiveThrottled => 4 * left + 5
    case ReceivePending(_) =>
      if me.readDone.None? then 4 * left + 4 else if me.readDone.value.Bytes? then 4 * left + 6 else 1
    case EofPending => if me.readDone.None? then 2 else 1
    case _ => 0
  }

  function Work(p: Pair): int {
    SendWork(p.a) + ReceiveWork(p.a) + SendWork(p.b) + ReceiveWork(p.b)
  }

  lemma WorkNatural(p: Pair)
    requires EndsInv(p.a, p.b)
    ensures Work(p) >= 0
  {
    PushedBound(p.a);
    PushedBound(p.b);
  }

  /** An action of `me` uses up some of its own work and leaves that of the other end alone. */
  ghost predicate Works(me: Side, r: (Side, Side), peer: Side) {
    && SendWork(r.0) + ReceiveWork(r.0) < SendWork(me) + ReceiveWork(me)
    && SendWork(r.1) + ReceiveWork(r.1) == SendWork(peer) + ReceiveWork(peer)
  }

  lemma RunSendWorks(me: Side, peer: Side, now: int)
    requires SideInv(me) && CanAct(me, peer, now, RunSend)
    ensures Works(me, Act(me, peer, now, RunSend), peer)
  {
    PushedBound(me);
    var t := Act(me, peer, now, RunSend).0;
    match me.sendDone.value
    case Transferred(n) =>
      SendAcceptedEffect(me.session, now, n);
      assert Pushed(t) == Pushed(me);
    case Failed(e) => SendRefusedEffect(me.session, now, e);
    assert ReceiveWork(t) == ReceiveWork(me);
  }

  lemma RunDataWorks(me: Side, peer: Side, now: int)
    requires SideInv(me) && CanAct(me, peer, now, RunRead)
    requires me.session.rx.op.ReceivePending? && me.readDone.value.Bytes?
    ensures Works(me, Act(me, peer, now, RunRead), peer)
  {
    var t := Act(me, peer, now, RunRead).0;
    ReadAcceptedEffect(me.session, now, me.readDone.value.data);
    assert Taken(t) == Taken(me);
    assert SendWork(t) == SendWork(me);
  }

  lemma RunReadWorks(me: Side, peer: Side, now: int)
    requires SideInv(me) && CanAct(me, peer, now, RunRead)
    ensures Works(me, Act(me, peer, now, RunRead), peer)
  {
    var t := Act(me, peer, now, RunRead).0;
    var e := ReadEvent(me.session, me.readDone.value);
    if e.ReceiveDone? && e.read.Transferred? {
      RunDataWorks(me, peer, now);
    } else if e.EofDone? && e.end == Failed(EndOfFile) {
      EndReachedEffect(me.session, now);
      assert SendWork(t) == SendWork(me);
    } else {
      ReadRefusedEffect(me.session, now, e);
      assert SendWork(t) == SendWork(me);
    }
  }

  lemma KernelSendWorks(me: Side, peer: Side, now: int, action: Action)
    requires SideInv(me) && CanAct(me, peer, now, action)
    requires action.KernelSend? || action.KernelRefuse?
    ensures Works(me, Act(me, peer, now, action), peer)
  {
    PushedBound(me);
  }

  lemma KernelReadWorks(me: Side, peer: Side, now: int, n: nat)
    requires SideInv(me) && CanAct(me, peer, now, KernelRead(n))
    ensures Works(me, Act(me, peer, now, KernelRead(n)), peer)
  {
    var r := Act(me, peer, now, KernelRead(n));
    assert SendWork(r.0) == SendWork(me);
    assert SendWork(r.1) == SendWork(peer) && ReceiveWork(r.1) == ReceiveWork(peer);
    if me.session.rx.op.ReceivePending? {
      assert Taken(me) < InSize(me.session.config);
      assert Taken(r.0) == Taken(me) + n;
    }
  }

  lemma KernelEndWorks(me: Side, peer: Side, now: int, action: Action)
    requires SideInv(me) && CanAct(me, peer, now, action)
    requires action.KernelEnd? || action.KernelReset?
    ensures Works(me, Act(me, peer, now, action), peer)
  {
  }

  lemma StartWorks(me: Side, peer: Side, now: int, later: int)
    requires SideInv(me) && CanAct(me, peer, now, Start(later))
    ensures Works(me, Act(me, peer, now, Start(later)), peer)
  {
    BegunEffect(me.session, now, later);
  }

  lemma SliceWorks(me: Side, peer: Side, now: int, action: Action)
    requires SideInv(me) && Paced(me) && CanAct(me, peer, now, action)
    requires action.SendSlice? || action.ReceiveSlice?
    ensures Works(me, Act(me, peer, now, action), peer)
  {
    if action.SendSlice? {
      SendSliceEffect(me.session, now);
    } else {
      ReceiveSliceEffect(me.session, now);
    }
  }

  lemma ActWorks(me: Side, peer: Side, now: int, action: Action)
    requires SideInv(me) && Paced(me) && CanAct(me, peer, now, action)
    ensures Works(me, Act(me, peer, now, action), peer)
  {
    match action
    case Start(later) => StartWorks(me, peer, now, later);
    case SendSlice => SliceWorks(me, peer, now, action);
    case ReceiveSlice => SliceWorks(me, peer, now, action);
    case RunSend => RunSendWorks(me, peer, now);
    case RunRead => RunReadWorks(me, peer, now);
    case KernelSend(n) => KernelSendWorks(me, peer, now, action);
    case KernelRefuse => KernelSendWorks(me, peer, now, action);
    case KernelRead(n) => KernelReadWorks(me, peer, now, n);
    case _ => KernelEndWorks(me, peer, now, action);
  }

  lemma NextWorks(p: Pair, m: Move)
    requires EndsInv(p.a, p.b) && Paced(p.a) && Paced(p.b) && CanMove(p, m)
    ensures Work(Next(p, m)) < Work(p)
  {
    if m.byA {
      ActWorks(p.a, p.b, m.now, m.action);
    } else {
      ActWorks(p.b, p.a, m.now, m.action);
    }
  }

  /** Every run of any two sessions is bounded: each move uses up some of the work there was at the start. */
  lemma {:induction false} PathWorks(p: Pair, ms: seq<Move>, q: Pair)
    requires EndsInv(p.a, p.b) && Paced(p.a) && Paced(p.b) && Path(p, ms, q)
    ensures |ms| + Work(q) <= Work(p)
    decreases |ms|
  {
    if ms != [] {
      var before, last := ms[..|ms| - 1], ms[|ms| - 1];
      var r :| Path(p, before, r) && CanMove(r, last) && q == Next(r, last);
      PathWorks(p, before, r);
      PathFlows(p, before, r);
      PathConfigs(p, before, r);
      NextWorks(r, last);
    }
  }

  /** Two fresh ends that can make progress. */
  ghost predicate Startable(p: Pair) {
    Fresh(p) && Paced(p.a) && Paced(p.b)
  }

  /** Whatever the two configurations, no run is longer than the work there was at the start. */
  lemma EveryRunIsBounded(p: Pair, ms: seq<Move>, q: Pair)
    requires Startable(p) && Path(p, ms, q)
    ensures |ms| <= Work(p)
  {
    FreshFlows(p);
    PathWorks(p, ms, q);
    PathFlows(p, ms, q);
    WorkNatural(q);
  }

  /**
   * The main result. Two fresh matched sessions of completing policies: every run, under every
   * interleaving and chunking, is at most Work(p) moves long, never records a failure, and can only
   * stop with both sockets closed and everything sent and received.
   */
  lemma EveryRunSucceeds(p: Pair, ms: seq<Move>, q: Pair)
    requires Startable(p) && Matched(p.a.session.config, p.b.session.config)
    requires Completing(p.a.session.config, p.b.session.config)
    requires Path(p, ms, q)
    ensures |ms| <= Work(p)
    ensures q.a.session.log.failure == None && q.b.session.log.failure == None
    ensures Quiescent(q) ==> Success(q)
  {
    EveryRunIsBounded(p, ms, q);
    FreshClean(p);
    PathClean(p, ms, q);
    PathConfigs(p, ms, q);
    if Quiescent(q) {
      QuiescentCases(q);
    }
  }

  /** Two sessions that both wait for the peer transfer everything, then wait for each other without half-closing. */
  lemma BothWaitStall(p: Pair, ms: seq<Move>, q: Pair)
    requires Startable(p) && Matched(p.a.session.config, p.b.session.config)
    requires BothWait(p.a.session.config, p.b.session.config)
    requires Path(p, ms, q)
    ensures |ms| <= Work(p)
    ensures !Fin(q.a.session) && !Fin(q.b.session)
    ensures Quiescent(q) ==> Waiting(q.a, q.b) && Waiting(q.b, q.a)
  {
    EveryRunIsBounded(p, ms, q);
    FreshClean(p);
    PathClean(p, ms, q);
    PathConfigs(p, ms, q);
    if Quiescent(q) {
      QuiescentCases(q);
    }
  }
}

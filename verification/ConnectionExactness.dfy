/**
 * The configurations decide everything: two sessions report success in every run exactly when they
 * are matched and completing; every other pair has a run that records a failure, or that stops with
 * an end still open.
 */
module ConnectionExactness {
  import opened Arithmetic
  import opened Configuration
  import opened SessionModel
  import opened SessionInvariant
  import opened Connection
  import opened ConnectionEffects
  import opened ConnectionIntegrity
  import opened ConnectionSafety
  import opened ConnectionLiveness

  // ---------- a run in which one end reads everything before it sends anything ----------

  /** The reader has not granted itself its first slice to send; the writer sends and does not read. */
  ghost predicate Lazy(reader: Side, writer: Side) {
    var x, y := reader.session, writer.session;
    && EndsInv(reader, writer)
    && Matched(x.config, y.config) && x.config.direction.Both?
    && x.started && y.started
    && x.tx.op.SendThrottled?
    && (x.rx.op.ReceiveThrottled? || x.rx.op.ReceivePending? || x.rx.op.EofPending?)
    && (reader.readDone.Some? ==> x.rx.op.ReceivePending? && reader.readDone.value.Bytes?)
    && (y.tx.op.SendThrottled? || y.tx.op.SendPending? || y.tx.op.SendFinished?)
    && (writer.sendDone.Some? ==> writer.sendDone.value.Transferred?)
    && y.rx.op.ReceiveThrottled?
  }

  function FlowWork(reader: Side, writer: Side): int {
    ReceiveWork(reader) + SendWork(writer)
  }

  lemma WriterAct(x: Side, y: Side, now: int, action: Action)
    requires Lazy(x, y) && Paced(y) && CanAct(y, x, now, action)
    requires action.SendSlice? || action.KernelSend? || action.RunSend?
    ensures var r := Act(y, x, now, action); Lazy(r.1, r.0) && FlowWork(r.1, r.0) < FlowWork(x, y)
  {
    ActFlows(y, x, now, action);
    match action
    case SendSlice => SendSliceEffect(y.session, now); SliceWorks(y, x, now, action);
    case KernelSend(n) => KernelSendWorks(y, x, now, action);
    case RunSend => SendAcceptedEffect(y.session, now, y.sendDone.value.count); RunSendWorks(y, x, now);
  }

  lemma ReaderAct(x: Side, y: Side, now: int, action: Action)
    requires Lazy(x, y) && Paced(x) && CanAct(x, y, now, action)
    requires !x.session.rx.op.EofPending?
    requires action.ReceiveSlice? || action.KernelRead? || action.RunRead?
    ensures var r := Act(x, y, now, action); Lazy(r.0, r.1) && FlowWork(r.0, r.1) < FlowWork(x, y)
  {
    ActFlows(x, y, now, action);
    match action
    case ReceiveSlice => ReceiveSliceEffect(x.session, now); SliceWorks(x, y, now, action);
    case KernelRead(n) => KernelReadWorks(x, y, now, n);
    case RunRead => ReadAcceptedEffect(x.session, now, x.readDone.value.data); RunReadWorks(x, y, now);
  }

  /** One move of the direction that is still being read. */
  lemma LazyMove(p: Pair) returns (m: Move)
    requires Lazy(p.a, p.b) && Paced(p.a) && Paced(p.b)
    requires !p.a.session.rx.op.EofPending?
    ensures CanMove(p, m)
    ensures Lazy(Next(p, m).a, Next(p, m).b)
    ensures FlowWork(Next(p, m).a, Next(p, m).b) < FlowWork(p.a, p.b)
  {
    PushedBound(p.b);
    FinByPolicy(p.b.session);
    var bySrc, now, action := FlowCanAct(p.b, p.a);
    if bySrc {
      WriterAct(p.a, p.b, now, action);
    } else {
      ReaderAct(p.a, p.b, now, action);
    }
    m := Move(!bySrc, now, action);
  }

  /** From a lazy state the reader reaches its closing read without having sent anything. */
  lemma {:induction false} ReadEverything(p0: Pair, p: Pair) returns (q: Pair)
    requires Leads(p0, p) && Lazy(p.a, p.b) && Paced(p.a) && Paced(p.b)
    ensures Leads(p0, q) && Lazy(q.a, q.b) && q.a.session.rx.op.EofPending?
    ensures Paced(q.a) && Paced(q.b)
    ensures q.a.session.config == p.a.session.config && q.b.session.config == p.b.session.config
    decreases FlowWork(p.a, p.b) + 1
  {
    if p.a.session.rx.op.EofPending? {
      return p;
    }
    var m := LazyMove(p);
    PushedBound(p.b);
    LeadsStep(p0, p, m);
    MoveKeepsPace(p, m);
    q := ReadEverything(p0, Next(p, m));
  }

  lemma MoveKeepsPace(p: Pair, m: Move)
    requires CanMove(p, m)
    ensures var q := Next(p, m);
            && (Paced(p.a) ==> Paced(q.a)) && (Paced(p.b) ==> Paced(q.b))
            && q.a.session.config == p.a.session.config && q.b.session.config == p.b.session.config
  {
    LeadsSelf(p);
    assert Path(p, [], p);
    var ms := [m];
    assert ms[..|ms| - 1] == [];
    assert Path(p, ms, Next(p, m));
    PathConfigs(p, ms, Next(p, m));
  }

  /** A session that half-closed before its first send records a failure when it sends. */
  lemma SendAfterHalfClose(p0: Pair, p: Pair) returns (q: Pair)
    requires Leads(p0, p) && SideInv(p.a) && Paced(p.a)
    requires p.a.session.tx.op.SendThrottled? && Fin(p.a.session)
    ensures Leads(p0, q) && q.a.session.log.failure.Some?
  {
    var s := p.a.session;
    var granted := Move(true, Due(s, s.tx.counter.next), SendSlice);
    SendSliceEffect(s, granted.now);
    StepMonotone(s, granted.now, SendSliceStart(0));
    LeadsStep(p0, p, granted);
    var p1 := Next(p, granted);
    assert Fin(p1.a.session) && p1.a.session.tx.op.SendPending?;
    var refused := Move(true, p1.a.session.clock, KernelRefuse);
    LeadsStep(p0, p1, refused);
    var p2 := Next(p1, refused);
    var run := Move(true, p2.a.session.clock, RunSend);
    assert CanMove(p2, run);
    LeadsStep(p0, p2, run);
    SendRefusedEffect(p2.a.session, run.now, Other(BROKEN_PIPE));
    q := Next(p2, run);
  }

  /** The writer of a lazy run that has been read to the end completes its send half. */
  lemma WriterFinishes(p0: Pair, p: Pair) returns (q: Pair)
    requires Leads(p0, p) && Lazy(p.a, p.b) && Paced(p.a) && Paced(p.b) && p.a.session.rx.op.EofPending?
    ensures Leads(p0, q) && Lazy(q.a, q.b) && q.a.session.rx.op.EofPending? && q.b.session.tx.op.SendFinished?
    ensures Paced(q.a)
    ensures q.a.session.config == p.a.session.config && q.b.session.config == p.b.session.config
  {
    PushedBound(p.b);
    if p.b.session.tx.op.SendFinished? {
      return p;
    }
    var run := Move(false, p.b.session.clock, RunSend);
    assert Taken(p.a) + |p.b.wire| == Pushed(p.b);
    assert p.b.sendDone.Some?;
    WriterAct(p.a, p.b, run.now, RunSend);
    SendAcceptedEffect(p.b.session, run.now, p.b.sendDone.value.count);
    LeadsStep(p0, p, run);
    MoveKeepsPace(p, run);
    q := Next(p, run);
  }

  /** The reader meets the end of the stream and, waiting for its peer, half-closes with its data unsent. */
  lemma AnswersEnd(p0: Pair, p: Pair) returns (q: Pair)
    requires Leads(p0, p) && Lazy(p.a, p.b) && Paced(p.a) && p.a.session.rx.op.EofPending?
    requires Fin(p.b.session) && Pushed(p.b) == p.b.session.config.size
    requires p.a.session.config.policy.WaitForPeer?
    ensures Leads(p0, q) && SideInv(q.a) && Paced(q.a) && q.a.session.tx.op.SendThrottled? && Fin(q.a.session)
  {
    assert Taken(p.a) + |p.b.wire| == Pushed(p.b);
    assert p.b.wire == [];
    var end := Move(true, p.a.session.clock, KernelEnd);
    ActFlows(p.a, p.b, end.now, KernelEnd);
    LeadsStep(p0, p, end);
    var p1 := Next(p, end);
    var run := Move(true, p1.a.session.clock, RunRead);
    assert CanMove(p1, run);
    ActFlows(p1.a, p1.b, run.now, RunRead);
    EndReachedEffect(p1.a.session, run.now);
    LeadsStep(p0, p1, run);
    MoveKeepsPace(p1, run);
    q := Next(p1, run);
    FinByPolicy(q.a.session);
  }

  /** Both ends learn of the connection, and nothing else happens. */
  lemma BothStart(p: Pair) returns (q: Pair)
    requires Startable(p) && Matched(p.a.session.config, p.b.session.config)
    requires p.a.session.config.direction.Both?
    ensures Leads(p, q) && Lazy(q.a, q.b) && Paced(q.a) && Paced(q.b)
    ensures q.a.session.config == p.a.session.config && q.b.session.config == p.b.session.config
  {
    FreshFlows(p);
    LeadsSelf(p);
    var startA := Move(true, p.a.session.clock, Start(p.a.session.clock));
    assert CanMove(p, startA);
    ActFlows(p.a, p.b, startA.now, startA.action);
    BegunEffect(p.a.session, startA.now, startA.now);
    LeadsStep(p, p, startA);
    MoveKeepsPace(p, startA);
    var p1 := Next(p, startA);
    var startB := Move(false, p1.b.session.clock, Start(p1.b.session.clock));
    assert CanMove(p1, startB);
    ActFlows(p1.b, p1.a, startB.now, startB.action);
    BegunEffect(p1.b.session, startB.now, startB.now);
    LeadsStep(p, p1, startB);
    MoveKeepsPace(p1, startB);
    q := Next(p1, startB);
  }

  /** If the half-close of the first end does not wait for its own data, some run fails. */
  lemma FailingRun(p: Pair) returns (q: Pair)
    requires Startable(p) && Matched(p.a.session.config, p.b.session.config)
    requires !ClosesAfterSending(p.a.session.config, p.b.session.config)
    ensures Leads(p, q) && q.a.session.log.failure.Some?
  {
    var p1 := BothStart(p);
    var p2 := ReadEverything(p, p1);
    FinByPolicy(p2.a.session);
    if p2.a.session.config.policy.ReceiveComplete? {
      q := SendAfterHalfClose(p, p2);
    } else {
      var p3 := WriterFinishes(p, p2);
      FinByPolicy(p3.b.session);
      PushedBound(p3.b);
      var p4 := AnswersEnd(p, p3);
      q := SendAfterHalfClose(p, p4);
    }
  }

  // ---------- either end may be the first ----------

  function Swap(p: Pair): Pair {
    Pair(p.b, p.a)
  }

  function SwapMove(m: Move): Move {
    m.(byA := !m.byA)
  }

  lemma {:induction false} PathSwaps(p: Pair, ms: seq<Move>, q: Pair)
    requires Path(p, ms, q)
    ensures Leads(Swap(p), Swap(q))
    decreases |ms|
  {
    if ms == [] {
      LeadsSelf(Swap(p));
    } else {
      var before, last := ms[..|ms| - 1], ms[|ms| - 1];
      var r :| Path(p, before, r) && CanMove(r, last) && q == Next(r, last);
      PathSwaps(p, before, r);
      assert CanMove(Swap(r), SwapMove(last)) && Next(Swap(r), SwapMove(last)) == Swap(q);
      LeadsStep(Swap(p), Swap(r), SwapMove(last));
    }
  }

  // ---------- a kernel that returns one byte per read ----------

  /** What a session has read is complete: the peer's stream is empty and will stay so. */
  ghost predicate EndSeen(me: Side, peer: Side) {
    me.readDone == Some(End) || me.session.rx.op.ReceiveFinished? ==> peer.wire == [] && Fin(peer.session)
  }

  /** With single-byte reads no session takes more than it expects. */
  ghost predicate Frugal(me: Side, peer: Side) {
    && EndSeen(me, peer) && EndSeen(peer, me)
    && Taken(me) <= InSize(me.session.config)
    && Taken(peer) <= InSize(peer.session.config)
  }

  predicate SingleByte(action: Action) {
    action.KernelRead? ==> action.n == 1
  }

  lemma FinStays(s: Session, now: int, e: Event)
    requires Enabled(s, now, e)
    ensures Fin(s) ==> Fin(Step(s, now, e))
  {
    StepMonotone(s, now, e);
  }

  lemma RunDataFrugal(me: Side, peer: Side, now: int)
    requires EndsInv(me, peer) && Frugal(me, peer) && CanAct(me, peer, now, RunRead)
    requires me.session.rx.op.ReceivePending? && me.readDone.value.Bytes?
    ensures var r := Act(me, peer, now, RunRead); Frugal(r.0, r.1)
  {
    var e := ReadEvent(me.session, me.readDone.value);
    FinStays(me.session, now, e);
    ReadAcceptedEffect(me.session, now, e.buffer);
    assert Taken(Act(me, peer, now, RunRead).0) == Taken(me);
  }

  lemma RunReadFrugal(me: Side, peer: Side, now: int)
    requires EndsInv(me, peer) && Frugal(me, peer) && CanAct(me, peer, now, RunRead)
    ensures var r := Act(me, peer, now, RunRead); Frugal(r.0, r.1)
  {
    var e := ReadEvent(me.session, me.readDone.value);
    FinStays(me.session, now, e);
    if e.ReceiveDone? && e.read.Transferred? {
      RunDataFrugal(me, peer, now);
    } else if e.EofDone? && e.end == Failed(EndOfFile) {
      EndReachedEffect(me.session, now);
    } else {
      ReadRefusedEffect(me.session, now, e);
    }
  }

  lemma HandlerFrugal(me: Side, peer: Side, now: int, action: Action)
    requires EndsInv(me, peer) && Frugal(me, peer) && CanAct(me, peer, now, action)
    requires action.Start? || action.SendSlice? || action.ReceiveSlice? || action.RunSend?
    ensures var r := Act(me, peer, now, action); Frugal(r.0, r.1)
  {
    FinStays(me.session, now, EventOf(me, action).value);
    match action
    case Start(later) => BegunEffect(me.session, now, later);
    case SendSlice => SendSliceEffect(me.session, now);
    case ReceiveSlice => ReceiveSliceEffect(me.session, now);
    case RunSend =>
      match me.sendDone.value
      case Transferred(n) => SendAcceptedEffect(me.session, now, n);
      case Failed(e) => SendRefusedEffect(me.session, now, e);
  }

  lemma KernelFrugal(me: Side, peer: Side, now: int, action: Action)
    requires EndsInv(me, peer) && Frugal(me, peer) && CanAct(me, peer, now, action) && SingleByte(action)
    requires !action.RunRead? && !action.RunSend? && EventOf(me, action).None?
    ensures var r := Act(me, peer, now, action); Frugal(r.0, r.1)
  {
    if action.KernelRead? && me.session.rx.op.ReceivePending? {
      assert Taken(me) == me.session.rx.counter.bytes < InSize(me.session.config);
    }
  }

  lemma ActFrugal(me: Side, peer: Side, now: int, action: Action)
    requires EndsInv(me, peer) && Frugal(me, peer) && CanAct(me, peer, now, action) && SingleByte(action)
    ensures var r := Act(me, peer, now, action); Frugal(r.0, r.1)
  {
    match action
    case RunRead => RunReadFrugal(me, peer, now);
    case KernelSend(_) => KernelFrugal(me, peer, now, action);
    case KernelRead(_) => KernelFrugal(me, peer, now, action);
    case KernelRefuse => KernelFrugal(me, peer, now, action);
    case KernelEnd => KernelFrugal(me, peer, now, action);
    case KernelReset => KernelFrugal(me, peer, now, action);
    case _ => HandlerFrugal(me, peer, now, action);
  }

  /** A pair that can move can move with single-byte reads. */
  lemma SingleByteMove(p: Pair) returns (m: Move)
    requires EndsInv(p.a, p.b) && Frugal(p.a, p.b) && !Quiescent(p)
    ensures CanMove(p, m)
    ensures Frugal(Next(p, m).a, Next(p, m).b)
  {
    m :| CanMove(p, m);
    if m.action.KernelRead? {
      m := m.(action := KernelRead(1));
    }
    if m.byA {
      ActFrugal(p.a, p.b, m.now, m.action);
    } else {
      ActFrugal(p.b, p.a, m.now, m.action);
    }
  }

  /** Any pair can be run, a byte at a time, until nothing is left to do. */
  lemma {:induction false} RunsDry(p0: Pair, p: Pair) returns (q: Pair)
    requires Leads(p0, p) && EndsInv(p.a, p.b) && Frugal(p.a, p.b) && Paced(p.a) && Paced(p.b)
    ensures Leads(p0, q) && EndsInv(q.a, q.b) && Frugal(q.a, q.b) && Quiescent(q)
    decreases Work(p) + 1
  {
    WorkNatural(p);
    if Quiescent(p) {
      return p;
    }
    var m := SingleByteMove(p);
    NextFlows(p, m);
    NextWorks(p, m);
    LeadsStep(p0, p, m);
    MoveKeepsPace(p, m);
    q := RunsDry(p0, Next(p, m));
  }

  /** A closed end has pushed all its data and read its peer's stream to the end. */
  lemma ClosedConserves(me: Side, peer: Side)
    requires EndsInv(me, peer) && EndSeen(me, peer) && Closed(me.session)
    ensures Pushed(me) == me.session.tx.counter.bytes == OutSize(me.session.config)
    ensures Taken(me) == me.session.rx.counter.bytes == Pushed(peer) && peer.wire == []
    ensures Taken(me) >= InSize(me.session.config)
  {
  }

  /**
   * Bytes are conserved, so a pair that was read a byte at a time and then reports success on both
   * sides has exchanged exactly what each end asked for, and its configurations match.
   */
  lemma FrugalReportIsMatched(q: Pair)
    requires EndsInv(q.a, q.b) && Frugal(q.a, q.b) && Reported(q)
    ensures Success(q)
    ensures Matched(q.a.session.config, q.b.session.config)
  {
    ClosedConserves(q.a, q.b);
    ClosedConserves(q.b, q.a);
  }

  // ---------- the table ----------

  /** No run records a failure, and no run stops before both ends report success. */
  ghost predicate AlwaysReports(p: Pair) {
    forall q | Leads(p, q) ::
      && q.a.session.log.failure == None && q.b.session.log.failure == None
      && (Quiescent(q) ==> Reported(q))
  }

  /** The same, with everything sent and received, and nothing more. */
  ghost predicate AlwaysSucceeds(p: Pair) {
    forall q | Leads(p, q) ::
      && q.a.session.log.failure == None && q.b.session.log.failure == None
      && (Quiescent(q) ==> Success(q))
  }

  lemma CompletingSucceeds(p: Pair)
    requires Startable(p)
    requires Matched(p.a.session.config, p.b.session.config) && Completing(p.a.session.config, p.b.session.config)
    ensures AlwaysSucceeds(p)
  {
    forall q | Leads(p, q)
      ensures q.a.session.log.failure == None && q.b.session.log.failure == None
      ensures Quiescent(q) ==> Success(q)
    {
      var ms :| Path(p, ms, q);
      EveryRunSucceeds(p, ms, q);
    }
  }

  /** Unless the pair is matched and completing, some run fails or stops before both ends report success. */
  lemma OtherwiseSomeRunDoesNot(p: Pair) returns (q: Pair)
    requires Startable(p)
    requires !(Matched(p.a.session.config, p.b.session.config) && Completing(p.a.session.config, p.b.session.config))
    ensures Leads(p, q)
    ensures q.a.session.log.failure.Some? || q.b.session.log.failure.Some? || (Quiescent(q) && !Reported(q))
  {
    var a, b := p.a.session.config, p.b.session.config;
    if !Matched(a, b) || BothWait(a, b) {
      LeadsSelf(p);
      FreshFlows(p);
      q := RunsDry(p, p);
      var ms :| Path(p, ms, q);
      PathConfigs(p, ms, q);
      if Reported(q) {
        FrugalReportIsMatched(q);
        BothWaitStall(p, ms, q);
      }
    } else if !ClosesAfterSending(a, b) {
      q := FailingRun(p);
    } else {
      assert Matched(b, a) && !ClosesAfterSending(b, a);
      var r := FailingRun(Swap(p));
      var ms :| Path(Swap(p), ms, r);
      PathSwaps(Swap(p), ms, r);
      q := Swap(r);
    }
  }

  /**
   * For any two accepted TCP configurations with room to move, what is known before anything is
   * connected decides whether every run ends with both ends closed and no failure recorded:
   * directions that face each other, equal sizes, and completing shutdown policies. Every such run
   * then also transfers everything, and nothing more.
   */
  lemma SucceedsExactlyWhenCompleting(p: Pair)
    requires Startable(p)
    ensures AlwaysReports(p) <==>
            Matched(p.a.session.config, p.b.session.config) && Completing(p.a.session.config, p.b.session.config)
    ensures AlwaysReports(p) <==> AlwaysSucceeds(p)
  {
    var a, b := p.a.session.config, p.b.session.config;
    if Matched(a, b) && Completing(a, b) {
      CompletingSucceeds(p);
    } else {
      var q := OtherwiseSomeRunDoesNot(p);
    }
  }

  /**
   * The same table spelled out: two-way sessions must both half-close when they have sent; one-way
   * ones must not both wait.
   */
  lemma CompletingTable(a: Config, b: Config)
    requires Acceptable(a) && Acceptable(b) && Matched(a, b)
    ensures Completing(a, b) <==>
            if a.direction.Both? then a.policy.SendComplete? && b.policy.SendComplete?
            else !(a.policy.WaitForPeer? && b.policy.WaitForPeer?)
  {
  }
}

/** Which sessions can finish at all: as long as nothing has failed, exactly those with room to move. */
module SessionCompletion {
  import opened Arithmetic
  import opened Configuration
  import opened Stream
  import opened SessionModel
  import opened SessionInvariant
  import opened SessionTheorems
  import opened SessionPacing

  /** Every direction in use is granted slices that are not empty, and datagrams that are not. */
  predicate Finishable(c: Config) {
    && (!c.direction.Rx? ==> c.frequency <= c.sendBandwidth)
    && (!c.direction.Tx? ==> c.frequency <= c.receiveBandwidth)
    && (c.protocol.Udp? ==> c.packetLow <= c.packetHigh)
    && (c.protocol.Udp? && !c.direction.Rx? ==> c.packetHigh > 0)
  }

  /** A session that has room to move, and neither failed nor lost a half to a cancelled operation. */
  ghost predicate Unhindered(s: Session) {
    && Inv(s) && Wired(s) && InRange(s.config) && Finishable(s.config)
    && s.log.failure.None? && StopsRecorded(s)
  }

  /** What is left for each half to do, in handler executions. */
  function SendRest(s: Session): int {
    match s.tx.op
    case SendThrottled => 3 * (s.config.size - s.tx.counter.bytes) + 2
    case SendPending(_, _, length) => 3 * (s.config.size - s.tx.counter.bytes) + if length == 0 then 1 else 0
    case _ => 0
  }

  function ReceiveRest(s: Session): int {
    match s.rx.op
    case ReceiveThrottled => 2 * (s.config.size - s.rx.counter.bytes) + 3
    case ReceivePending(_) => 2 * (s.config.size - s.rx.counter.bytes) + 2
    case EofPending => 1
    case _ => 0
  }

  /** A draw that moves a datagram. */
  function LargestDraw(c: Config): nat {
    if c.protocol.Udp? then c.packetHigh else 0
  }

  /** The step of a successful event leaves less to do. */
  ghost predicate Advances(s: Session, t: Session) {
    && Unhindered(t) && t.config == s.config && t.started
    && (s.started ==> SendRest(t) + ReceiveRest(t) < SendRest(s) + ReceiveRest(s))
  }

  lemma SlicesNotEmpty(s: Session)
    requires Unhindered(s)
    ensures !s.config.direction.Rx? ==> s.tx.counter.slice > 0
    ensures !s.config.direction.Tx? ==> s.rx.counter.slice > 0
  {
    var c := s.config;
    if !c.direction.Rx? {
      SlicePositive(c.sendBandwidth, c.frequency);
    }
    if !c.direction.Tx? {
      SlicePositive(c.receiveBandwidth, c.frequency);
    }
  }

  lemma BeginAdvances(s: Session)
    requires Unhindered(s) && !s.started
    ensures var e := Connected(s.clock, LargestDraw(s.config));
            Enabled(s, s.clock, e) && Advances(s, Step(s, s.clock, e))
  {
    StepKeeps(s, s.clock, Connected(s.clock, LargestDraw(s.config)));
  }

  lemma SendGrantAdvances(s: Session)
    requires Unhindered(s) && s.started && s.tx.op.SendThrottled?
    ensures var now, e := Max(s.clock, s.tx.counter.next), SendSliceStart(LargestDraw(s.config));
            Enabled(s, now, e) && Advances(s, Step(s, now, e))
  {
    SlicesNotEmpty(s);
    StepKeeps(s, Max(s.clock, s.tx.counter.next), SendSliceStart(LargestDraw(s.config)));
  }

  lemma SendLeavesLess(s: Session)
    requires Unhindered(s) && s.started && s.tx.op.SendPending?
    ensures SendRest(AfterSend(s, s.tx.op.length, LargestDraw(s.config))) < SendRest(s)
    ensures var t := AfterSend(s, s.tx.op.length, LargestDraw(s.config));
            t.rx == s.rx && t.config == s.config && t.started && t.log.failure == s.log.failure && !t.tx.op.SendStopped?
  {
    Sub64Exact(s.tx.op.slice, s.tx.op.length);
    Sub64Exact(s.config.size, s.tx.counter.bytes);
  }

  lemma SendAdvances(s: Session)
    requires Unhindered(s) && s.started && s.tx.op.SendPending?
    ensures var e := SendDone(Transferred(s.tx.op.length), LargestDraw(s.config));
            Enabled(s, s.clock, e) && Advances(s, Step(s, s.clock, e))
  {
    var e := SendDone(Transferred(s.tx.op.length), LargestDraw(s.config));
    assert s.(clock := s.clock) == s;
    SendLeavesLess(s);
    StepKeeps(s, s.clock, e);
    StepMonotone(s, s.clock, e);
  }

  lemma ReceiveGrantAdvances(s: Session)
    requires Unhindered(s) && s.started && s.rx.op.ReceiveThrottled?
    ensures var now := Max(s.clock, s.rx.counter.next);
            Enabled(s, now, ReceiveSliceStart) && Advances(s, Step(s, now, ReceiveSliceStart))
  {
    SlicesNotEmpty(s);
    StepKeeps(s, Max(s.clock, s.rx.counter.next), ReceiveSliceStart);
  }

  /** One byte of the pattern is read. */
  lemma ReadAdvances(s: Session)
    requires Unhindered(s) && s.started && s.rx.op.ReceivePending?
    ensures var e := ReceiveDone(Transferred(1), [Low8(s.rx.counter.bytes)]);
            Enabled(s, s.clock, e) && Advances(s, Step(s, s.clock, e))
  {
    var e := ReceiveDone(Transferred(1), [Low8(s.rx.counter.bytes)]);
    StepKeeps(s, s.clock, e);
    StepMonotone(s, s.clock, e);
  }

  lemma EndAdvances(s: Session)
    requires Unhindered(s) && s.started && s.rx.op.EofPending?
    ensures var e := EofDone(Failed(EndOfFile));
            Enabled(s, s.clock, e) && Advances(s, Step(s, s.clock, e))
  {
    StepKeeps(s, s.clock, EofDone(Failed(EndOfFile)));
  }

  /** An event after which less is left to do. */
  lemma NextEvent(s: Session) returns (e: Timed)
    requires Unhindered(s) && s.log.finishes == 0
    ensures Enabled(s, e.now, e.event) && Advances(s, Step(s, e.now, e.event))
  {
    var draw := LargestDraw(s.config);
    if !s.started {
      BeginAdvances(s);
      e := Timed(s.clock, Connected(s.clock, draw));
    } else if s.tx.op.SendThrottled? {
      SendGrantAdvances(s);
      e := Timed(Max(s.clock, s.tx.counter.next), SendSliceStart(draw));
    } else if s.tx.op.SendPending? {
      SendAdvances(s);
      e := Timed(s.clock, SendDone(Transferred(s.tx.op.length), draw));
    } else if s.rx.op.ReceiveThrottled? {
      ReceiveGrantAdvances(s);
      e := Timed(Max(s.clock, s.rx.counter.next), ReceiveSliceStart);
    } else if s.rx.op.ReceivePending? {
      ReadAdvances(s);
      e := Timed(s.clock, ReceiveDone(Transferred(1), [Low8(s.rx.counter.bytes)]));
    } else {
      EndAdvances(s);
      e := Timed(s.clock, EofDone(Failed(EndOfFile)));
    }
  }

  lemma RestNatural(s: Session)
    requires Inv(s)
    ensures SendRest(s) >= 0 && ReceiveRest(s) >= 0
  {
  }

  lemma RunExtends(s: Session, es: seq<Timed>, m: Session, e: Timed)
    requires Run(s, es, m) && Enabled(m, e.now, e.event)
    ensures Run(s, es + [e], Step(m, e.now, e.event))
  {
    var longer := es + [e];
    assert longer[..|longer| - 1] == es && longer[|longer| - 1] == e;
    assert Run(s, longer, Step(m, e.now, e.event));
  }

  /** From any unhindered state the session can still finish without a failure. */
  lemma {:induction false} CanStillFinish(s: Session, es: seq<Timed>, m: Session) returns (all: seq<Timed>, t: Session)
    requires Run(s, es, m) && Unhindered(m)
    ensures Run(s, all, t) && t.log.finishes > 0 && t.log.failure.None? && t.config == m.config
    decreases if m.started then 0 else 1, SendRest(m) + ReceiveRest(m)
  {
    RestNatural(m);
    if m.log.finishes > 0 {
      return es, m;
    }
    var e := NextEvent(m);
    RunExtends(s, es, m, e);
    var next := Step(m, e.now, e.event);
    RestNatural(next);
    all, t := CanStillFinish(s, es + [e], next);
  }

  /** No run that has neither failed nor been cancelled is a dead end. */
  lemma NoDeadEnd(c: Config, start: int, es: seq<Timed>, s: Session) returns (more: seq<Timed>, t: Session)
    requires Accepted(c) && InRange(c) && Finishable(c)
    requires Run(Initial(c, start), es, s) && Uncancelled(es) && s.log.failure.None?
    ensures Run(s, more, t) && t.log.finishes > 0 && t.log.failure.None?
  {
    InitialInv(c, start);
    RunKeeps(Initial(c, start), es, s);
    RunRecordsStops(Initial(c, start), es, s);
    var none: seq<Timed> := [];
    assert Run(s, none, s);
    more, t := CanStillFinish(s, none, s);
  }

  lemma FinishingRun(c: Config, start: int) returns (es: seq<Timed>, s: Session)
    requires Accepted(c) && InRange(c) && Finishable(c)
    ensures Run(Initial(c, start), es, s) && s.log.finishes > 0 && s.log.failure.None?
  {
    InitialInv(c, start);
    var first := Initial(c, start);
    assert Run(first, [], first);
    es, s := CanStillFinish(first, [], first);
  }

  /** Without a datagram size to draw, a session never starts; with empty datagrams, it never sends. */
  lemma {:induction false} NothingToDraw(c: Config, start: int, es: seq<Timed>, s: Session)
    requires Accepted(c) && InRange(c) && c.protocol.Udp?
    requires Run(Initial(c, start), es, s)
    ensures c.packetLow > c.packetHigh ==> !s.started
    ensures c.packetHigh == 0 ==> s.tx.counter.bytes == 0
    decreases |es|
  {
    if es != [] {
      var before, last := es[..|es| - 1], es[|es| - 1];
      var m :| Run(Initial(c, start), before, m)
               && Enabled(m, last.now, last.event) && s == Step(m, last.now, last.event);
      NothingToDraw(c, start, before, m);
      InitialInv(c, start);
      RunKeeps(Initial(c, start), before, m);
      StepStarts(m, last.now, last.event);
      StepCounts(m, last.now, last.event);
    }
  }

  lemma FinishedWasFinishable(c: Config, start: int, es: seq<Timed>, s: Session)
    requires Accepted(c) && InRange(c)
    requires Run(Initial(c, start), es, s) && s.log.finishes > 0
    ensures Finishable(c)
  {
    InitialInv(c, start);
    RunKeeps(Initial(c, start), es, s);
    assert Reachable(s);
    EmptySlicesNeverMove(s);
    JoinCorrect(s);
    FinishedMeansTransferred(s);
    if c.protocol.Udp? {
      NothingToDraw(c, start, es, s);
    }
  }

  ghost predicate FinishesBy(c: Config, start: int, es: seq<Timed>, s: Session)
    requires c.frequency > 0
  {
    Run(Initial(c, start), es, s) && s.log.finishes > 0
  }

  /** A session has a run in which it finishes exactly when it is finishable, and then one without a failure. */
  lemma FinishableExactly(c: Config, start: int)
    requires Accepted(c) && InRange(c)
    ensures Finishable(c) <==> exists es, s :: FinishesBy(c, start, es, s)
    ensures Finishable(c) ==> exists es, s :: FinishesBy(c, start, es, s) && s.log.failure.None?
  {
    if Finishable(c) {
      var es, s := FinishingRun(c, start);
      assert FinishesBy(c, start, es, s);
    }
    forall es, s | FinishesBy(c, start, es, s) ensures Finishable(c) {
      FinishedWasFinishable(c, start, es, s);
    }
  }
}

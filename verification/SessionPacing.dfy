/**
 * Pacing over whole runs. The throttles are reset when the session learns of its connection, and from
 * that moment on the slices are scheduled one duration apart, however late the timers were.
 */
module SessionPacing {
  import opened Arithmetic
  import opened Configuration
  import opened SessionModel
  import opened SessionInvariant
  import opened SessionTheorems

  /**
   * The k-th grant never fires before k - 1 slice durations after the reset, however late other
   * timers were: the bytes moved by the time of the latest handler stay under the granted rate.
   */
  lemma RateBound(k: Counter, clock: int)
    requires ThrottleInv(k, clock) && k.duration > 0
    requires k.bytes <= Blocks(k.grants, k.slice)
    ensures k.grants > 0 ==> clock >= k.start + (k.grants - 1) * k.duration
    ensures k.bytes <= ((clock - k.start) / k.duration + 1) * k.slice
  {
    BlocksProduct(k.grants, k.duration);
    BlocksProduct(k.grants, k.slice);
    var elapsed := (clock - k.start) / k.duration;
    if k.grants > 0 {
      assert (k.grants - 1) * k.duration == k.grants * k.duration - k.duration;
      assert clock - k.start < (elapsed + 1) * k.duration;
      MulCancel(k.grants - 1, elapsed + 1, k.duration);
    }
    MulMonotone(k.grants, elapsed + 1, k.slice);
  }

  // ---------- what a run counts ----------

  /** The grants that the send throttle has made in a run. */
  function SendGrants(es: seq<Timed>): nat {
    if es == [] then 0 else SendGrants(es[..|es| - 1]) + if es[|es| - 1].event.SendSliceStart? then 1 else 0
  }

  function ReceiveGrants(es: seq<Timed>): nat {
    if es == [] then 0 else ReceiveGrants(es[..|es| - 1]) + if es[|es| - 1].event.ReceiveSliceStart? then 1 else 0
  }

  function SentBy(e: Event): nat {
    if e.SendDone? && e.sent.Transferred? then e.sent.count else 0
  }

  /** The bytes that the kernel has accepted in a run. */
  function Sent(es: seq<Timed>): nat {
    if es == [] then 0 else Sent(es[..|es| - 1]) + SentBy(es[|es| - 1].event)
  }

  lemma StepCounts(s: Session, now: int, e: Event)
    requires Enabled(s, now, e)
    ensures var t := Step(s, now, e);
            && t.tx.counter.grants == s.tx.counter.grants + (if e.SendSliceStart? then 1 else 0)
            && t.rx.counter.grants == s.rx.counter.grants + (if e.ReceiveSliceStart? then 1 else 0)
            && t.tx.counter.bytes == s.tx.counter.bytes + SentBy(e)
  {
  }

  /** The counters of a session are the counts of its run. */
  lemma {:induction false} CountersCount(c: Config, start: int, es: seq<Timed>, s: Session)
    requires Accepted(c) && InRange(c)
    requires Run(Initial(c, start), es, s)
    ensures s.tx.counter.grants == SendGrants(es) && s.rx.counter.grants == ReceiveGrants(es)
    ensures s.tx.counter.bytes == Sent(es)
    decreases |es|
  {
    if es != [] {
      var before, last := es[..|es| - 1], es[|es| - 1];
      var m :| Run(Initial(c, start), before, m)
               && Enabled(m, last.now, last.event) && s == Step(m, last.now, last.event);
      CountersCount(c, start, before, m);
      StepCounts(m, last.now, last.event);
    }
  }

  // ---------- the connection starts the schedule ----------

  ghost predicate ConnectedAt(es: seq<Timed>, k: nat) {
    k < |es| && es[k].event.Connected?
  }

  /** The events that need no connection. */
  predicate FailsFromOutside(e: Event) {
    e.Timeout? || e.Signal?
  }

  /** What an event does to the start of the transfer. */
  ghost predicate StartStep(s: Session, now: int, e: Event, t: Session) {
    && t.config == s.config
    && (t.started <==> s.started || e.Connected?)
    && (e.Connected? ==> !s.started)
    && (!s.started && !e.Connected? ==> FailsFromOutside(e))
    && (e.Connected? && !s.config.direction.Rx? ==> t.tx.counter.start == e.later)
    && (e.Connected? && !s.config.direction.Tx? ==> t.rx.counter.start == now)
    && (!e.Connected? ==> t.tx.counter.start == s.tx.counter.start && t.rx.counter.start == s.rx.counter.start)
  }

  lemma StepStarts(s: Session, now: int, e: Event)
    requires Inv(s) && Enabled(s, now, e)
    ensures StartStep(s, now, e, Step(s, now, e))
  {
  }

  /**
   * The run connects at most once; before, nothing but the timeout and the signals can happen; and
   * the two schedules start at the times that the connection read from the clock.
   */
  ghost predicate StartedBy(es: seq<Timed>, s: Session) {
    && (s.started <==> exists k: nat :: ConnectedAt(es, k))
    && (!s.started ==> forall j :: 0 <= j < |es| ==> FailsFromOutside(es[j].event))
    && forall k: nat :: ConnectedAt(es, k) ==>
         && (forall j :: 0 <= j < k ==> FailsFromOutside(es[j].event))
         && (forall j :: k < j < |es| ==> !es[j].event.Connected?)
         && (!s.config.direction.Rx? ==> s.tx.counter.start == es[k].event.later)
         && (!s.config.direction.Tx? ==> s.rx.counter.start == es[k].now)
  }

  lemma StartedExtends(es: seq<Timed>, s: Session, last: Timed, t: Session)
    requires StartedBy(es, s) && StartStep(s, last.now, last.event, t)
    ensures StartedBy(es + [last], t)
  {
    var longer := es + [last];
    assert forall k: nat :: k < |es| ==> (ConnectedAt(longer, k) <==> ConnectedAt(es, k));
    assert ConnectedAt(longer, |es|) <==> last.event.Connected?;
    assert forall k: nat :: ConnectedAt(longer, k) ==> k <= |es|;
  }

  lemma {:induction false} ConnectionStarts(c: Config, start: int, es: seq<Timed>, s: Session)
    requires Accepted(c) && InRange(c)
    requires Run(Initial(c, start), es, s)
    ensures StartedBy(es, s)
    decreases |es|
  {
    if es != [] {
      var before, last := es[..|es| - 1], es[|es| - 1];
      var m :| Run(Initial(c, start), before, m)
               && Enabled(m, last.now, last.event) && s == Step(m, last.now, last.event);
      ConnectionStarts(c, start, before, m);
      InitialInv(c, start);
      RunKeeps(Initial(c, start), before, m);
      StepStarts(m, last.now, last.event);
      StartedExtends(before, m, last, s);
      assert es == before + [last];
    }
  }

  /** So no byte moves before the connection. */
  lemma NothingBeforeConnection(c: Config, start: int, es: seq<Timed>, s: Session)
    requires Accepted(c) && InRange(c)
    requires Run(Initial(c, start), es, s) && !s.started
    ensures Sent(es) == 0 && Delivered(es) == []
  {
    RunFacts(c, start, es, s);
  }

  /**
   * The grant after n others may fire n slice durations after the connection, as soon as the half
   * waits for it, and never earlier.
   */
  lemma SendSchedule(c: Config, start: int, es: seq<Timed>, k: nat, s: Session, now: int, draw: nat)
    requires Accepted(c) && InRange(c) && !c.direction.Rx?
    requires Run(Initial(c, start), es, s) && ConnectedAt(es, k)
    requires s.tx.op.SendThrottled? && s.clock <= now && DrawAllowed(c, draw)
    ensures Enabled(s, now, SendSliceStart(draw))
            <==> now >= es[k].event.later + SendGrants(es) * SliceDuration(c.frequency)
  {
    RunFacts(c, start, es, s);
    BlocksProduct(s.tx.counter.grants, s.tx.counter.duration);
  }

  lemma ReceiveSchedule(c: Config, start: int, es: seq<Timed>, k: nat, s: Session, now: int)
    requires Accepted(c) && InRange(c) && !c.direction.Tx?
    requires Run(Initial(c, start), es, s) && ConnectedAt(es, k)
    requires s.rx.op.ReceiveThrottled? && s.clock <= now
    ensures Enabled(s, now, ReceiveSliceStart)
            <==> now >= es[k].now + ReceiveGrants(es) * SliceDuration(c.frequency)
  {
    RunFacts(c, start, es, s);
    BlocksProduct(s.rx.counter.grants, s.rx.counter.duration);
  }

  lemma RunFacts(c: Config, start: int, es: seq<Timed>, s: Session)
    requires Accepted(c) && InRange(c)
    requires Run(Initial(c, start), es, s)
    ensures s.config == c && Inv(s) && Wired(s) && StartedBy(es, s)
    ensures s.tx.counter.grants == SendGrants(es) && s.rx.counter.grants == ReceiveGrants(es)
    ensures s.tx.counter.bytes == Sent(es) && s.rx.counter.bytes == |Delivered(es)|
  {
    InitialInv(c, start);
    RunKeeps(Initial(c, start), es, s);
    ConnectionStarts(c, start, es, s);
    CountersCount(c, start, es, s);
    VerifyAllIsWholeStream(c, start, es, s);
  }

  /** The send throttle reads the clock after the receive throttle. */
  lemma {:induction false} ConnectedInOrder(c: Config, start: int, es: seq<Timed>, k: nat, s: Session)
    requires c.frequency > 0 && Run(Initial(c, start), es, s) && ConnectedAt(es, k)
    ensures es[k].now <= es[k].event.later
    decreases |es|
  {
    var before, last := es[..|es| - 1], es[|es| - 1];
    var m :| Run(Initial(c, start), before, m)
             && Enabled(m, last.now, last.event) && s == Step(m, last.now, last.event);
    if k < |before| {
      ConnectedInOrder(c, start, before, k, m);
    }
  }

  // ---------- the rate, from the connection on ----------

  /** What may have moved by `clock` on a schedule that began at `start`: one slice per started duration. */
  ghost predicate WithinRate(bytes: nat, start: int, clock: int, duration: nat, slice: nat) {
    duration > 0 && bytes <= ((clock - start) / duration + 1) * slice
  }

  /** The last slice that a size needs has been reached on that schedule. */
  ghost predicate LastSliceReached(size: nat, start: int, clock: int, duration: nat, slice: nat) {
    slice > 0 && clock >= start + (CeilDiv(size, slice) - 1) * duration
  }

  lemma CounterRate(k: Counter, clock: int)
    requires ThrottleInv(k, clock) && k.duration > 0
    requires k.bytes <= Blocks(k.grants, k.slice)
    ensures WithinRate(k.bytes, k.start, clock, k.duration, k.slice)
    ensures forall size: nat :: size > 0 && SlicesUsed(size, k)
                                ==> LastSliceReached(size, k.start, clock, k.duration, k.slice)
  {
    RateBound(k, clock);
    forall size: nat | size > 0 && SlicesUsed(size, k)
      ensures LastSliceReached(size, k.start, clock, k.duration, k.slice)
    {
      BlocksBelow(size, k);
    }
  }

  /**
   * The bytes sent never exceed one slice per started slice duration since the connection, and the
   * send half is not complete before its last scheduled slice.
   */
  lemma SendRateBound(c: Config, start: int, es: seq<Timed>, k: nat, s: Session)
    requires Accepted(c) && InRange(c) && !c.direction.Rx? && c.frequency <= SECOND
    requires Run(Initial(c, start), es, s) && ConnectedAt(es, k)
    ensures var d, b := SliceDuration(c.frequency), SliceBytes(c.sendBandwidth, c.frequency);
            var connected := es[k].event.later;
            && WithinRate(Sent(es), connected, s.clock, d, b)
            && (s.tx.complete ==> LastSliceReached(c.size, connected, s.clock, d, b))
  {
    RunFacts(c, start, es, s);
    DurationPositive(c.frequency);
    CounterRate(s.tx.counter, s.clock);
  }

  /** The same for the receive half, which is over as soon as it has reached its size. */
  lemma ReceiveRateBound(c: Config, start: int, es: seq<Timed>, k: nat, s: Session)
    requires Accepted(c) && InRange(c) && !c.direction.Tx? && c.frequency <= SECOND
    requires Run(Initial(c, start), es, s) && ConnectedAt(es, k)
    ensures var d, b := SliceDuration(c.frequency), SliceBytes(c.receiveBandwidth, c.frequency);
            var connected := es[k].now;
            && WithinRate(|Delivered(es)|, connected, s.clock, d, b)
            && (s.rx.op.EofPending? || s.rx.complete ==> LastSliceReached(c.size, connected, s.clock, d, b))
  {
    RunFacts(c, start, es, s);
    DurationPositive(c.frequency);
    CounterRate(s.rx.counter, s.clock);
  }

  lemma DurationPositive(frequency: nat)
    requires 0 < frequency <= SECOND
    ensures SliceDuration(frequency) > 0
  {
  }
}

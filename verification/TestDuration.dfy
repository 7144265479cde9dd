/** The test timeout against the schedule of the throttles. */
module TestDuration {
  import opened Arithmetic
  import opened Configuration
  import opened SessionModel
  import opened SessionTheorems
  import opened SessionPacing

  /** The timeout in nanoseconds: whole seconds at the smaller bandwidth, plus the margin. */
  function Estimate(c: Config): nat
    requires c.receiveBandwidth > 0 && c.sendBandwidth > 0
  {
    var bandwidth := Min(c.receiveBandwidth, c.sendBandwidth);
    var duration := (c.size / bandwidth + 1) * SECOND;
    duration + match c.margin { case Some(m) => m case None => duration / 10 }
  }

  /** When the last slice of a transfer is scheduled, counted from the reset of its throttle. */
  function LastSlice(size: nat, bandwidth: nat, frequency: nat): int
    requires 0 < frequency <= bandwidth
  {
    SlicePositive(bandwidth, frequency);
    (CeilDiv(size, SliceBytes(bandwidth, frequency)) - 1) * SliceDuration(frequency)
  }

  // ---------- the general shape ----------

  /** A schedule of whole slices stays under an allowance of `pace` per `bandwidth` bytes. */
  ghost predicate Sufficient(size: nat, slice: nat, duration: nat, bandwidth: nat, pace: nat, margin: nat)
    requires slice > 0 && bandwidth > 0
  {
    (CeilDiv(size, slice) - 1) * duration < (size / bandwidth + 1) * pace + margin
  }

  lemma SufficientAtRate(size: nat, slice: nat, duration: nat, bandwidth: nat, pace: nat, margin: nat)
    requires size > 0 && slice > 0 && bandwidth > 0 && pace > 0
    requires duration * bandwidth <= pace * slice
    ensures Sufficient(size, slice, duration, bandwidth, pace, margin)
  {
    var last := CeilDiv(size, slice) - 1;
    var q := size / bandwidth;
    CeilDivUnique(size, slice, last + 1);
    DivBound(size, bandwidth);
    PaceBound(last, slice, duration, bandwidth, pace, q + 1);
  }

  lemma PaceBound(last: nat, slice: nat, duration: nat, bandwidth: nat, pace: nat, seconds: nat)
    requires pace > 0
    requires last * slice < seconds * bandwidth
    requires duration * bandwidth <= pace * slice
    ensures last * duration < seconds * pace
  {
    calc {
      (last * duration) * bandwidth;
      { MulRegroup(last, duration, bandwidth); }
      last * (duration * bandwidth);
    <= { MulMonotone(duration * bandwidth, pace * slice, last); }
      last * (pace * slice);
      { MulRegroup(last, pace, slice); }
      pace * (last * slice);
    < { MulStrict(last * slice, seconds * bandwidth, pace); }
      pace * (seconds * bandwidth);
      { MulRegroup(pace, seconds, bandwidth); }
      (seconds * pace) * bandwidth;
    }
    MulCancel(last * duration, seconds * pace, bandwidth);
  }

  /**
   * A transfer long enough to outlast the allowance when the truncated slices are too small: every
   * `bandwidth * slice` bytes lose the difference of the two rates, until it exceeds the margin and two paces.
   */
  function Outlasting(slice: nat, duration: nat, bandwidth: nat, pace: nat, margin: nat): nat
    requires duration * bandwidth > pace * slice
  {
    Blocks(Blocks((2 * pace + margin) / (duration * bandwidth - pace * slice) + 1, bandwidth), slice) + 1
  }

  lemma InsufficientBelowRate(slice: nat, duration: nat, bandwidth: nat, pace: nat, margin: nat)
    requires slice > 0 && bandwidth > 0
    requires duration * bandwidth > pace * slice
    ensures !Sufficient(Outlasting(slice, duration, bandwidth, pace, margin), slice, duration, bandwidth, pace, margin)
  {
    var lost := duration * bandwidth - pace * slice;
    var n := (2 * pace + margin) / lost + 1;
    DivBound(2 * pace + margin, lost);
    BlocksProduct(n, bandwidth);
    BlocksProduct(n * bandwidth, slice);
    InsufficientAfter(n, slice, duration, bandwidth, pace, margin, lost);
  }

  /** After n times `bandwidth` slices, with n times the loss above the margin and two paces. */
  lemma InsufficientAfter(n: nat, slice: nat, duration: nat, bandwidth: nat, pace: nat, margin: nat, lost: nat)
    requires slice > 0 && bandwidth > 0
    requires duration * bandwidth == pace * slice + lost
    requires n * lost >= 2 * pace + margin
    ensures !Sufficient((n * bandwidth) * slice + 1, slice, duration, bandwidth, pace, margin)
  {
    var last := n * bandwidth;
    var size := last * slice + 1;
    assert (last + 1) * slice == last * slice + slice;
    CeilDivUnique(size, slice, last + 1);
    MulRegroup(n, bandwidth, slice);
    MulRegroup(n, slice, bandwidth);
    QuotientBound(n * slice, bandwidth);
    PaceExceeded(n, slice, duration, bandwidth, pace, margin, lost, size / bandwidth + 1);
  }

  lemma PaceExceeded(n: nat, slice: nat, duration: nat, bandwidth: nat, pace: nat, margin: nat, lost: nat, seconds: nat)
    requires duration * bandwidth == pace * slice + lost
    requires n * lost >= 2 * pace + margin && seconds <= n * slice + 2
    ensures (n * bandwidth) * duration >= seconds * pace + margin
  {
    calc {
      (n * bandwidth) * duration;
      { MulRegroup(n, bandwidth, duration); }
      n * (duration * bandwidth);
      n * (pace * slice) + n * lost;
      { MulRegroup(n, slice, pace); }
      (n * slice) * pace + n * lost;
    >= (n * slice) * pace + 2 * pace + margin;
      (n * slice + 2) * pace + margin;
    >= { MulMonotone(seconds, n * slice + 2, pace); }
      seconds * pace + margin;
    }
  }

  lemma QuotientBound(k: nat, b: nat)
    requires b > 0
    ensures (k * b + 1) / b <= k + 1
  {
    var q := (k * b + 1) / b;
    assert q * b <= k * b + 1 <= (k + 1) * b;
    if q > k + 1 {
      MulMonotone(k + 2, q, b);
      assert false;
    }
  }

  // ---------- the timeout ----------

  /** The nanoseconds allowed per second's worth of data: a tenth more without an explicit margin. */
  function Pace(margin: Option<nat>): nat {
    if margin.None? then 1_100_000_000 else SECOND
  }

  lemma EstimateShape(c: Config)
    requires c.receiveBandwidth > 0 && c.sendBandwidth > 0
    ensures Estimate(c) == (c.size / Min(c.receiveBandwidth, c.sendBandwidth) + 1) * Pace(c.margin) + GetOr(c.margin, 0)
  {
    var q := c.size / Min(c.receiveBandwidth, c.sendBandwidth);
    assert (q + 1) * SECOND / 10 == (q + 1) * 100_000_000;
  }

  /** The scheduled starts of the last slices of both directions, against the timeout of the same session. */
  ghost predicate CoversSchedule(c: Config)
    requires 0 < c.frequency <= c.sendBandwidth && c.frequency <= c.receiveBandwidth
  {
    && LastSlice(c.size, c.sendBandwidth, c.frequency) < Estimate(c)
    && LastSlice(c.size, c.receiveBandwidth, c.frequency) < Estimate(c)
  }

  /** The rate left by truncating slice and duration is at least the smaller bandwidth, margin included. */
  ghost predicate TruncationHarmless(c: Config)
    requires c.frequency > 0
  {
    var b := Min(c.receiveBandwidth, c.sendBandwidth);
    SliceDuration(c.frequency) * b <= Pace(c.margin) * SliceBytes(b, c.frequency)
  }

  /** One size: both directions are covered exactly when the smaller bandwidth alone is. */
  lemma CoversAtSmaller(c: Config)
    requires c.size > 0
    requires 0 < c.frequency <= c.sendBandwidth && c.frequency <= c.receiveBandwidth
    ensures var b, f := Min(c.receiveBandwidth, c.sendBandwidth), c.frequency;
            && SliceBytes(b, f) > 0
            && (CoversSchedule(c) <==>
                  Sufficient(c.size, SliceBytes(b, f), SliceDuration(f), b, Pace(c.margin), GetOr(c.margin, 0)))
  {
    var b, f := Min(c.receiveBandwidth, c.sendBandwidth), c.frequency;
    SlicePositive(b, f);
    EstimateShape(c);
    LastSliceAntitone(c.size, b, c.sendBandwidth, f);
    LastSliceAntitone(c.size, b, c.receiveBandwidth, f);
  }

  /** A size that the timeout does not cover when truncation is harmful; it may not fit in 64 bits. */
  function OutlastingSize(c: Config): nat
    requires c.frequency > 0
    requires !TruncationHarmless(c)
  {
    var b := Min(c.receiveBandwidth, c.sendBandwidth);
    Outlasting(SliceBytes(b, c.frequency), SliceDuration(c.frequency), b, Pace(c.margin), GetOr(c.margin, 0))
  }

  /** The timeout covers the schedule of every size that the configuration can carry. */
  ghost predicate CoversEverySize(c: Config)
    requires 0 < c.frequency <= c.sendBandwidth && c.frequency <= c.receiveBandwidth
  {
    forall size: nat :: 0 < size < WORD ==> CoversSchedule(c.(size := size))
  }

  lemma HarmlessCovers(c: Config)
    requires c.size > 0
    requires 0 < c.frequency <= c.sendBandwidth && c.frequency <= c.receiveBandwidth
    requires TruncationHarmless(c)
    ensures CoversSchedule(c)
  {
    var b, f := Min(c.receiveBandwidth, c.sendBandwidth), c.frequency;
    CoversAtSmaller(c);
    SufficientAtRate(c.size, SliceBytes(b, f), SliceDuration(f), b, Pace(c.margin), GetOr(c.margin, 0));
  }

  lemma HarmfulDoesNot(c: Config)
    requires 0 < c.frequency <= c.sendBandwidth && c.frequency <= c.receiveBandwidth
    requires !TruncationHarmless(c)
    ensures !CoversSchedule(c.(size := OutlastingSize(c)))
  {
    var b, f := Min(c.receiveBandwidth, c.sendBandwidth), c.frequency;
    SlicePositive(b, f);
    InsufficientBelowRate(SliceBytes(b, f), SliceDuration(f), b, Pace(c.margin), GetOr(c.margin, 0));
    CoversAtSmaller(c.(size := OutlastingSize(c)));
  }

  /**
   * Harmless truncation covers every 64-bit size, and more. Harmful truncation leaves the size
   * `OutlastingSize` uncovered: so, wherever that size fits in 64 bits, the timeout exceeds the
   * scheduled start of the last slice of both directions, for every 64-bit size, exactly when
   * truncation is harmless.
   */
  lemma EstimateExact(c: Config)
    requires 0 < c.frequency <= c.sendBandwidth && c.frequency <= c.receiveBandwidth
    ensures TruncationHarmless(c) ==> CoversEverySize(c)
    ensures !TruncationHarmless(c) ==> !CoversSchedule(c.(size := OutlastingSize(c)))
    ensures !TruncationHarmless(c) && OutlastingSize(c) < WORD ==> !CoversEverySize(c)
  {
    if TruncationHarmless(c) {
      forall size: nat | 0 < size < WORD ensures CoversSchedule(c.(size := size)) {
        HarmlessCovers(c.(size := size));
      }
    } else {
      HarmfulDoesNot(c);
    }
  }

  /**
   * The bound matters: a truncation that loses one byte in a thousand million is harmful only to
   * sizes beyond 64 bits when the margin is twenty seconds.
   */
  lemma HarmfulBeyondWordsExample(c: Config)
    requires c.sendBandwidth == c.receiveBandwidth == 1_000_000_001 && c.frequency == 1000
    requires c.margin == Some(20 * SECOND)
    ensures !TruncationHarmless(c) && OutlastingSize(c) >= WORD
    ensures CoversEverySize(c)
  {
    BlocksProduct(22_001, 1_000_000_001);
    BlocksProduct(22_001 * 1_000_000_001, 1_000_000);
    forall size: nat | 0 < size < WORD ensures CoversSchedule(c.(size := size)) {
      NearlyExact(c.(size := size));
    }
  }

  /** The slices of a million bytes per millisecond lag behind by less than nineteen seconds. */
  lemma NearlyExact(c: Config)
    requires c.sendBandwidth == c.receiveBandwidth == 1_000_000_001 && c.frequency == 1000
    requires c.margin == Some(20 * SECOND) && 0 < c.size < WORD
    ensures CoversSchedule(c)
  {
    var last := CeilDiv(c.size, 1_000_000) - 1;
    assert last * 1_000_000 < c.size;
    assert LastSlice(c.size, 1_000_000_001, 1000) == last * 1_000_000;
    var q := c.size / 1_000_000_001;
    assert Estimate(c) == (q + 1) * SECOND + 20 * SECOND;
  }

  /** When the frequency divides the smaller bandwidth, the timeout covers both directions, with any margin. */
  lemma DivisibleCoversSchedule(c: Config)
    requires Accepted(c)
    requires c.frequency <= c.sendBandwidth && c.frequency <= c.receiveBandwidth
    requires Min(c.receiveBandwidth, c.sendBandwidth) % c.frequency == 0
    ensures CoversSchedule(c)
  {
    var b, f := Min(c.receiveBandwidth, c.sendBandwidth), c.frequency;
    var slice, d, pace := SliceBytes(b, f), SliceDuration(f), Pace(c.margin);
    assert b == slice * f;
    assert d * f <= SECOND <= pace;
    calc {
      d * b;
      (d * f) * slice;
    <= { MulMonotone(d * f, pace, slice); }
      pace * slice;
    }
    CoversAtSmaller(c);
    SufficientAtRate(c.size, slice, d, b, pace, GetOr(c.margin, 0));
  }

  /** A larger bandwidth never schedules its last slice later. */
  lemma LastSliceAntitone(size: nat, low: nat, high: nat, frequency: nat)
    requires size > 0 && 0 < frequency <= low <= high
    ensures LastSlice(size, high, frequency) <= LastSlice(size, low, frequency)
  {
    var l, h := SliceBytes(low, frequency), SliceBytes(high, frequency);
    SlicePositive(low, frequency);
    SlicePositive(high, frequency);
    QuotientMonotone(low, high, frequency);
    var few, many := CeilDiv(size, h), CeilDiv(size, l);
    CeilDivUnique(size, h, few);
    CeilDivUnique(size, l, many);
    MulMonotone(l, h, many);
    MulCancel(few - 1, many, h);
    MulMonotone(few - 1, many - 1, SliceDuration(frequency));
  }

  lemma QuotientMonotone(x: nat, y: nat, d: nat)
    requires x <= y && d > 0
    ensures x / d <= y / d
  {
    assert x / d * d <= x <= y < (y / d + 1) * d;
    MulCancel(x / d, y / d + 1, d);
  }

  // ---------- what the schedule does to a run ----------

  /** When the timeout of a timer started at `timerStart` strikes. */
  function Deadline(c: Config, timerStart: int): int
    requires c.receiveBandwidth > 0 && c.sendBandwidth > 0
  {
    timerStart + Estimate(c)
  }

  /**
   * If the last slice is scheduled at or after the timeout, no run gets all of its bytes through
   * before the deadline of a timer that was started no later than the session was connected.
   */
  lemma TooSlowToFinish(c: Config, start: int, es: seq<Timed>, k: nat, s: Session, timerStart: int)
    requires Accepted(c) && InRange(c) && c.frequency <= SECOND
    requires c.frequency <= c.sendBandwidth && c.frequency <= c.receiveBandwidth
    requires Run(Initial(c, start), es, s) && ConnectedAt(es, k) && timerStart <= es[k].now
    ensures !c.direction.Rx? && LastSlice(c.size, c.sendBandwidth, c.frequency) >= Estimate(c) && s.tx.complete
            ==> s.clock >= Deadline(c, timerStart)
    ensures !c.direction.Tx? && LastSlice(c.size, c.receiveBandwidth, c.frequency) >= Estimate(c)
            && (s.rx.op.EofPending? || s.rx.complete)
            ==> s.clock >= Deadline(c, timerStart)
  {
    if !c.direction.Rx? {
      SendRateBound(c, start, es, k, s);
      ReachedLate(c.size, c.sendBandwidth, c.frequency, es[k].event.later, s.clock);
      ConnectedInOrder(c, start, es, k, s);
    }
    if !c.direction.Tx? {
      ReceiveRateBound(c, start, es, k, s);
      ReachedLate(c.size, c.receiveBandwidth, c.frequency, es[k].now, s.clock);
    }
  }

  lemma ReachedLate(size: nat, bandwidth: nat, frequency: nat, start: int, clock: int)
    requires 0 < frequency <= bandwidth
    ensures LastSliceReached(size, start, clock, SliceDuration(frequency), SliceBytes(bandwidth, frequency))
            ==> clock >= start + LastSlice(size, bandwidth, frequency)
  {
  }

  /** A bandwidth of 1999 sampled at 1000 Hz is served at 1000: 100000 bytes cannot pass in time. */
  lemma TruncationExample(c: Config)
    requires c.sendBandwidth == c.receiveBandwidth == 1999 && c.frequency == 1000
    requires c.size == 100_000 && c.margin == None
    ensures LastSlice(c.size, c.sendBandwidth, c.frequency) == 99_999_000_000
    ensures Estimate(c) == 56_100_000_000
    ensures !TruncationHarmless(c) && OutlastingSize(c) == 5998
  {
    BlocksProduct(3, 1999);
    BlocksProduct(3 * 1999, 1);
  }
}

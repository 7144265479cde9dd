/** What the invariant means: accounting, join, half-close, outgoing data and verification over whole runs. */
module SessionTheorems {
  import opened Arithmetic
  import opened Configuration
  import opened Stream
  import opened SessionModel
  import opened SessionInvariant

  /** A session of an accepted configuration, after any run against any kernel and any peer. */
  ghost predicate Live(s: Session) {
    Accepted(s.config) && InRange(s.config) && Reachable(s)
  }

  // ---------- accounting ----------

  /**
   * While a send is pending, the sent bytes and the clamped rest of the slice add up to what was
   * granted, cut at the size. So no subtraction wraps, nothing is sent beyond the size, and a full
   * send uses exactly the rounded-up number of slices.
   */
  lemma SenderAccounting(s: Session)
    requires Live(s) && !s.config.direction.Rx?
    ensures var c := s.config; var k := s.tx.counter; var b := SliceBytes(c.sendBandwidth, c.frequency);
            && k.slice == b
            && k.bytes <= Min(k.grants * b, c.size)
            && (s.tx.op.SendPending? ==>
                  && k.bytes < c.size
                  && k.bytes + s.tx.op.slice == Min(k.grants * b, c.size)
                  && s.tx.op.length <= s.tx.op.slice)
            && (s.tx.op.SendThrottled? ==> k.bytes == k.grants * b < c.size)
            && (s.tx.complete ==> b > 0 && k.bytes == c.size && k.grants == CeilDiv(c.size, b))
  {
    ReachableInv(s);
    var k := s.tx.counter;
    BlocksProduct(k.grants, k.slice);
    if s.tx.complete {
      BlocksBelow(s.config.size, k);
    }
  }

  /**
   * The receiver does not clamp its reads: received bytes and the rest of the slice add up to
   * everything granted, and reaching the size may overshoot it by less than one read.
   */
  lemma ReceiverAccounting(s: Session)
    requires Live(s) && !s.config.direction.Tx?
    ensures var c := s.config; var k := s.rx.counter; var b := SliceBytes(c.receiveBandwidth, c.frequency);
            && k.slice == b
            && k.bytes <= k.grants * b
            && k.bytes <= c.size - 1 + Min(b, BUFFER_SIZE)
            && (s.rx.op.ReceivePending? ==> k.bytes < c.size && k.bytes + s.rx.op.slice == k.grants * b)
            && (s.rx.op.ReceiveThrottled? ==> k.bytes == k.grants * b < c.size)
            && (s.rx.op.EofPending? || s.rx.complete ==>
                  && b > 0
                  && c.size <= k.bytes <= c.size - 1 + Min(b, BUFFER_SIZE)
                  && k.grants == CeilDiv(c.size, b))
  {
    ReachableInv(s);
    var k := s.rx.counter;
    BlocksProduct(k.grants, k.slice);
    if s.rx.op.EofPending? || s.rx.complete {
      BlocksBelow(s.config.size, k);
    }
  }

  lemma BlocksBelow(size: nat, k: Counter)
    requires size > 0 && SlicesUsed(size, k)
    ensures k.slice > 0 && k.grants == CeilDiv(size, k.slice)
  {
    BlocksProduct(k.grants, k.slice);
    CeilDivUnique(size, k.slice, k.grants);
  }

  /** A bandwidth below the sampling frequency grants empty slices: the half waits forever at zero bytes. */
  lemma EmptySlicesNeverMove(s: Session)
    requires Live(s)
    ensures s.config.sendBandwidth < s.config.frequency ==> s.tx.counter.bytes == 0
    ensures s.config.sendBandwidth < s.config.frequency && !s.config.direction.Rx? ==> !s.tx.complete
    ensures s.config.receiveBandwidth < s.config.frequency ==> s.rx.counter.bytes == 0
    ensures s.config.receiveBandwidth < s.config.frequency && !s.config.direction.Tx? ==> !s.rx.complete
  {
    ReachableInv(s);
    if s.config.sendBandwidth < s.config.frequency {
      NoSlice(s.config.sendBandwidth, s.config.frequency, s.tx.counter);
    }
    if s.config.receiveBandwidth < s.config.frequency {
      NoSlice(s.config.receiveBandwidth, s.config.frequency, s.rx.counter);
    }
  }

  lemma NoSlice(bandwidth: nat, frequency: nat, k: Counter)
    requires bandwidth < frequency && k.slice == SliceBytes(bandwidth, frequency)
    ensures k.slice == 0 && Blocks(k.grants, k.slice) == 0
  {
    BlocksProduct(k.grants, k.slice);
  }

  /** A bandwidth of at least the sampling frequency grants slices that are not empty. */
  lemma SlicePositive(bandwidth: nat, frequency: nat)
    requires 0 < frequency <= bandwidth
    ensures SliceBytes(bandwidth, frequency) > 0
  {
    assert bandwidth == SliceBytes(bandwidth, frequency) * frequency + bandwidth % frequency;
    if SliceBytes(bandwidth, frequency) == 0 {
      assert false;
    }
  }

  // ---------- join and half-close ----------

  /**
   * on_finish runs at most once, exactly when both halves are complete, in either order; nothing
   * is pending then, so no later event exists for the close to abort.
   */
  lemma JoinCorrect(s: Session)
    requires Live(s)
    ensures s.log.finishes <= 1
    ensures s.log.finishes == 1 <==> s.tx.complete && s.rx.complete
    ensures s.log.finishes == 1 ==> s.tx.op.SendFinished? && s.rx.op.ReceiveFinished?
    ensures s.log.finishes == 1 ==> forall now, e :: !Enabled(s, now, e)
  {
    ReachableInv(s);
  }

  /** The handler that closes the socket is the one that completes the second half. */
  lemma ClosesAtSecondCompletion(s: Session, now: int, e: Event)
    requires Live(s) && Enabled(s, now, e)
    ensures var t := Step(s, now, e);
            t.log.finishes == 1 <==> (t.tx.complete && t.rx.complete)
    ensures var t := Step(s, now, e);
            t.log.finishes == 1 ==> (e.SendDone? && s.rx.complete) || ((e.EofDone? || e.ReceiveDone?) && s.tx.complete)
  {
    ReachableInv(s);
    StepKeeps(s, now, e);
    assert !(s.tx.complete && s.rx.complete);
    match e
    case SendDone(c, draw) =>
    case ReceiveDone(c, buffer) =>
    case EofDone(c) =>
    case Connected(later, draw) =>
    case _ =>
  }

  /**
   * A TCP session half-closes at most once in any run, has done so before the only close, and under
   * SEND_COMPLETE, or without a send half, never starts a send afterwards.
   */
  lemma HalfClosedOnceBeforeClose(s: Session)
    requires Live(s)
    ensures s.log.shutdowns <= 1
    ensures s.config.protocol.Tcp? && s.log.finishes > 0 ==> s.log.closedAfter == s.log.shutdowns == 1
    ensures s.config.protocol.Udp? ==> s.log.shutdowns == 0
    ensures s.config.policy.SendComplete? || s.config.direction.Rx? ==> s.log.lateSends == 0
  {
    ReachableInv(s);
  }

  /**
   * The one handler that half-closes: under SEND_COMPLETE the one that completes the send half, under
   * RECEIVE_COMPLETE the one that starts the closing read, under WAIT_FOR_PEER the one of that read.
   */
  lemma HalfCloseMoment(s: Session, now: int, e: Event)
    requires Live(s) && Enabled(s, now, e) && s.config.protocol.Tcp?
    ensures var t := Step(s, now, e);
            t.log.shutdowns > s.log.shutdowns <==>
            match s.config.policy
            case SendComplete => !s.tx.complete && t.tx.complete
            case ReceiveComplete => !s.rx.op.EofPending? && t.rx.op.EofPending?
            case WaitForPeer => e.EofDone?
  {
    ReachableInv(s);
    StepKeeps(s, now, e);
    StepMonotone(s, now, e);
  }

  /** The handler has started a send. */
  predicate StartsSend(e: Event, t: Session) {
    (e.SendSliceStart? || e.SendDone?) && t.tx.op.SendPending?
  }

  /** Late sends are those started with the sending direction half-closed. */
  lemma LateSendsCounted(s: Session, now: int, e: Event)
    requires Live(s) && Enabled(s, now, e)
    ensures var t := Step(s, now, e);
            t.log.lateSends == s.log.lateSends + if StartsSend(e, t) && s.log.shutdowns > 0 then 1 else 0
  {
    ReachableInv(s);
  }

  // ---------- what is pending ----------

  predicate SendHalfWaits(s: Session) {
    s.tx.op.SendThrottled? || s.tx.op.SendPending?
  }

  predicate ReceiveHalfWaits(s: Session) {
    s.rx.op.ReceiveThrottled? || s.rx.op.ReceivePending? || s.rx.op.EofPending?
  }

  /** No operation of the run was cancelled; by `JoinCorrect` the session's own close never cancels one. */
  ghost predicate Uncancelled(es: seq<Timed>) {
    forall k :: 0 <= k < |es| ==> Completes(es[k].event)
  }

  predicate Completes(e: Event) {
    match e
    case SendDone(c, _) => c != Failed(OperationAborted)
    case ReceiveDone(c, _) => c != Failed(OperationAborted)
    case _ => true
  }

  /** A chain that ended without completing has recorded a failure. */
  predicate StopsRecorded(s: Session) {
    s.tx.op.SendStopped? || s.rx.op.ReceiveStopped? || s.rx.op.EofStopped? ==> s.log.failure.Some?
  }

  lemma StepRecordsStops(s: Session, now: int, e: Event)
    requires Inv(s) && StopsRecorded(s) && Enabled(s, now, e) && Completes(e)
    ensures StopsRecorded(Step(s, now, e))
  {
    StepKeeps(s, now, e);
    StepMonotone(s, now, e);
  }

  lemma {:induction false} RunRecordsStops(s: Session, es: seq<Timed>, t: Session)
    requires Inv(s) && StopsRecorded(s) && Uncancelled(es) && Run(s, es, t)
    ensures StopsRecorded(t)
    decreases |es|
  {
    if es != [] {
      var before, last := es[..|es| - 1], es[|es| - 1];
      var m :| Run(s, before, m) && Enabled(m, last.now, last.event) && t == Step(m, last.now, last.event);
      assert Uncancelled(before) && Completes(last.event);
      RunRecordsStops(s, before, m);
      RunKeeps(s, before, m);
      StepRecordsStops(m, last.now, last.event);
    }
  }

  /**
   * In a run without cancelled operations, each half of a started session that has not failed waits
   * for its throttle, for its I/O or for the closing read, or is complete; so the session is
   * finished exactly when neither half waits for anything.
   */
  lemma HalvesPending(c: Config, start: int, es: seq<Timed>, s: Session)
    requires Accepted(c) && InRange(c)
    requires Run(Initial(c, start), es, s) && Uncancelled(es)
    requires s.started && s.log.failure.None?
    ensures SendHalfWaits(s) != s.tx.complete
    ensures ReceiveHalfWaits(s) != s.rx.complete
    ensures s.log.finishes > 0 <==> !SendHalfWaits(s) && !ReceiveHalfWaits(s)
  {
    InitialInv(c, start);
    RunKeeps(Initial(c, start), es, s);
    RunRecordsStops(Initial(c, start), es, s);
  }

  /** The work that a session gives its io_service: connecting, an operation of a half, the wait for signals. */
  predicate HasWork(s: Session) {
    !s.started || SendHalfWaits(s) || ReceiveHalfWaits(s) || SignalWait(s)
  }

  /** A session that has run out of work has finished or failed, and a finished one has none. */
  lemma OutOfWork(s: Session)
    requires Inv(s)
    ensures !HasWork(s) ==> s.log.finishes > 0 || s.log.failure.Some?
    ensures s.log.finishes > 0 ==> !HasWork(s)
  {
  }

  // ---------- transferred sizes ----------

  /** What a finished session has transferred, whatever failures it recorded on the way. */
  lemma FinishedMeansTransferred(s: Session)
    requires Live(s) && s.log.finishes > 0
    ensures s.tx.counter.bytes == (if s.config.direction.Rx? then 0 else s.config.size)
    ensures !s.config.direction.Tx? ==> s.rx.counter.bytes >= s.config.size
  {
    ReachableInv(s);
  }

  /** What the errors of the protocol say about the transfer when they are the one on record. */
  lemma FailureExplained(s: Session)
    requires Live(s)
    ensures s.log.failure == Some(UnexpectedEof) ==>
              !s.config.direction.Tx? && s.rx.counter.bytes < s.config.size && !s.rx.complete
    ensures s.log.failure == Some(UnexpectedData) ==>
              s.config.protocol.Tcp? && !s.rx.complete
              && (s.config.direction.Tx? || s.rx.counter.bytes >= s.config.size)
    ensures s.log.failure == Some(DataMismatch) ==> s.log.mismatched && !s.config.verify.VerifyNone?
    ensures s.log.mismatched ==> s.log.failure.Some?
  {
    ReachableInv(s);
  }

  // ---------- outgoing data ----------

  /** The buffer is large enough for every datagram size and every stream position exactly when the
      largest datagram leaves room for the 255 possible byte offsets. */
  lemma DatagramFits(high: nat)
    ensures (forall slice: nat, sent: nat, draw: nat | draw <= high ::
               SendLength(Udp, slice, Low8(sent), draw) <= BUFFER_SIZE - Low8(sent))
            <==> high <= BUFFER_SIZE - 255
  {
    if high > BUFFER_SIZE - 255 {
      assert SendLength(Udp, high, Low8(255), high) > BUFFER_SIZE - Low8(255);
    }
  }

  /**
   * A pending send lies in the buffer over TCP, and over UDP whenever the largest datagram leaves
   * room for every offset; and a chunk that lies in the buffer is the pattern from the sent count on.
   */
  lemma OutgoingChunk(s: Session)
    requires Live(s) && s.tx.op.SendPending?
    ensures s.config.protocol.Tcp? || s.config.packetHigh <= BUFFER_SIZE - 255 ==> InBuffer(s.tx.op)
    ensures InBuffer(s.tx.op) ==>
              IsStream(SendBuffer()[s.tx.op.offset..s.tx.op.offset + s.tx.op.length], s.tx.counter.bytes)
    ensures s.config.protocol.Tcp? ==> s.tx.op.length > 0
  {
    ReachableInv(s);
    if InBuffer(s.tx.op) {
      ChunkIsStream(s.tx.counter.bytes, s.tx.op.length);
    }
  }

  /** So no handler ever meets the assertion with a larger chunk. */
  lemma AssertionHolds(s: Session, now: int, e: Event)
    requires Inv(s) && Enabled(s, now, e)
    requires s.config.protocol.Tcp? || s.config.packetHigh <= BUFFER_SIZE - 255
    ensures InBuffer(Step(s, now, e).tx.op)
  {
    StepKeeps(s, now, e);
    StepMonotone(s, now, e);
  }

  /** A datagram has the size drawn for it, or what is left of the slice. */
  lemma DatagramDrawn(s: Session, now: int, e: Event)
    requires Live(s) && Enabled(s, now, e) && s.config.protocol.Udp?
    ensures var t := Step(s, now, e);
            StartsSend(e, t) ==>
              t.tx.op.length == Min(t.tx.op.slice, e.draw)
  {
    ReachableInv(s);
  }

  /** With one datagram size configured, every datagram has it, or is what is left of the slice. */
  lemma DatagramFixed(s: Session)
    requires Live(s) && s.config.protocol.Udp? && s.config.packetLow == s.config.packetHigh
    ensures s.tx.op.SendPending? ==> s.tx.op.length == Min(s.tx.op.slice, s.config.packetLow)
  {
    ReachableInv(s);
  }

  // ---------- progress ----------

  /** Decreases at every grant and at every successful transfer of the send half. */
  function SendMeasure(s: Session): int {
    2 * (s.config.size - s.tx.counter.bytes) + if s.tx.op.SendThrottled? then 1 else 0
  }

  function ReceiveMeasure(s: Session): int {
    2 * (s.config.size - s.rx.counter.bytes) + if s.rx.op.ReceiveThrottled? then 1 else 0
  }

  lemma SendProgress(s: Session, now: int, e: Event)
    requires Live(s) && Enabled(s, now, e)
    requires e.SendSliceStart? ==> s.tx.counter.slice > 0
    requires e.SendSliceStart? || (e.SendDone? && e.sent.Transferred? && e.sent.count > 0)
    ensures 0 <= SendMeasure(Step(s, now, e)) < SendMeasure(s)
  {
    ReachableInv(s);
    StepKeeps(s, now, e);
  }

  lemma ReceiveProgress(s: Session, now: int, e: Event)
    requires Live(s) && Enabled(s, now, e)
    requires e.ReceiveSliceStart? ==> s.rx.counter.slice > 0
    requires e.ReceiveSliceStart? || (e.ReceiveDone? && e.read.Transferred? && e.read.count > 0)
    ensures ReceiveMeasure(Step(s, now, e)) < ReceiveMeasure(s)
    ensures ReceiveMeasure(s) > 0
  {
    ReachableInv(s);
  }

  // ---------- verification of received data ----------

  ghost function DeliveredBy(e: Event): seq<Byte> {
    if e.ReceiveDone? && e.read.Transferred? && e.read.count <= |e.buffer| then e.buffer[..e.read.count] else []
  }

  /** The bytes that a run has delivered to the session, in order. */
  ghost function Delivered(es: seq<Timed>): seq<Byte>
    decreases |es|
  {
    if es == [] then [] else Delivered(es[..|es| - 1]) + DeliveredBy(es[|es| - 1].event)
  }

  /**
   * Over any sequence of reads, mode ALL has recorded a mismatch exactly when the bytes delivered
   * so far, taken as one stream, are not the pattern; mode NONE never records one.
   */
  lemma {:induction false} VerifyAllIsWholeStream(c: Config, start: int, es: seq<Timed>, s: Session)
    requires Accepted(c) && InRange(c)
    requires Run(Initial(c, start), es, s)
    ensures |Delivered(es)| == s.rx.counter.bytes
    ensures c.verify.VerifyAll? ==> (s.log.mismatched <==> !IsStream(Delivered(es), 0))
    ensures c.verify.VerifyNone? ==> !s.log.mismatched
    decreases |es|
  {
    InitialInv(c, start);
    if es != [] {
      var prefix, last := es[..|es| - 1], es[|es| - 1];
      var m :| Run(Initial(c, start), prefix, m)
               && Enabled(m, last.now, last.event) && s == Step(m, last.now, last.event);
      VerifyAllIsWholeStream(c, start, prefix, m);
      RunKeeps(Initial(c, start), prefix, m);
      StepExtendsStream(m, last, Delivered(prefix));
      assert Delivered(es) == Delivered(prefix) + DeliveredBy(last.event);
    }
  }

  lemma StepExtendsStream(m: Session, e: Timed, before: seq<Byte>)
    requires Enabled(m, e.now, e.event)
    requires |before| == m.rx.counter.bytes
    ensures var t := Step(m, e.now, e.event);
            && t.rx.counter.bytes == |before + DeliveredBy(e.event)|
            && (m.config.verify.VerifyAll? && (m.log.mismatched <==> !IsStream(before, 0)) ==>
                  (t.log.mismatched <==> !IsStream(before + DeliveredBy(e.event), 0)))
            && (m.config.verify.VerifyNone? ==> t.log.mismatched == m.log.mismatched)
  {
    if e.event.ReceiveDone? && e.event.read.Transferred? {
      ReadExtendsStream(m.(clock := e.now), e.event.buffer, e.event.read.count, before);
    } else {
      OnlyReadsDeliver(m, e.now, e.event);
      assert before + [] == before;
    }
  }

  /** Some read of the run started with a byte that is not the pattern at the position it was read for. */
  ghost predicate WrongStart(es: seq<Timed>) {
    exists k :: 0 <= k < |es| && WrongStartAt(es, k)
  }

  /** Mode FIRST looks at the start of the buffer, which an empty read leaves as it was. */
  ghost predicate WrongStartAt(es: seq<Timed>, k: nat)
    requires k < |es|
  {
    var e := es[k].event;
    e.ReceiveDone? && e.read.Transferred? && e.buffer != [] && e.buffer[0] != Low8(|Delivered(es[..k])|)
  }

  lemma WrongStartExtends(es: seq<Timed>)
    requires es != []
    ensures WrongStart(es) <==> WrongStart(es[..|es| - 1]) || WrongStartAt(es, |es| - 1)
  {
    var before := es[..|es| - 1];
    forall k | 0 <= k < |before| ensures WrongStartAt(es, k) <==> WrongStartAt(before, k) {
      assert es[..k] == before[..k];
    }
  }

  /**
   * Mode FIRST has recorded a mismatch exactly when some read of the run started with a wrong byte;
   * over TCP, where no read is empty, that byte is the first one that the read delivered.
   */
  lemma {:induction false} VerifyFirstIsReadStarts(c: Config, start: int, es: seq<Timed>, s: Session)
    requires Accepted(c) && InRange(c) && c.verify.VerifyFirst?
    requires Run(Initial(c, start), es, s)
    ensures s.log.mismatched <==> WrongStart(es)
    decreases |es|
  {
    InitialInv(c, start);
    if es != [] {
      var prefix, last := es[..|es| - 1], es[|es| - 1];
      var m :| Run(Initial(c, start), prefix, m)
               && Enabled(m, last.now, last.event) && s == Step(m, last.now, last.event);
      VerifyFirstIsReadStarts(c, start, prefix, m);
      VerifyAllIsWholeStream(c, start, prefix, m);
      RunKeeps(Initial(c, start), prefix, m);
      WrongStartExtends(es);
      if !(last.event.ReceiveDone? && last.event.read.Transferred?) {
        OnlyReadsDeliver(m, last.now, last.event);
      } else {
        OnReceiveMismatches(m.(clock := last.now), last.event.read.count, last.event.buffer);
      }
    }
  }

  lemma OnReceiveMismatches(s: Session, n: nat, buffer: seq<Byte>)
    requires s.rx.op.ReceivePending? && 0 < |buffer| && n <= |buffer|
    ensures OnReceive(s, Transferred(n), buffer).log.mismatched
            <==> s.log.mismatched || Mismatch(s.config.verify, s.rx.counter.bytes, buffer, n)
  {
  }

  lemma OnlyReadsDeliver(s: Session, now: int, e: Event)
    requires Enabled(s, now, e)
    requires !(e.ReceiveDone? && e.read.Transferred?)
    ensures Step(s, now, e).rx.counter.bytes == s.rx.counter.bytes
    ensures Step(s, now, e).log.mismatched == s.log.mismatched
  {
  }

  lemma ReadExtendsStream(s: Session, buffer: seq<Byte>, n: nat, before: seq<Byte>)
    requires s.rx.op.ReceivePending? && 0 < |buffer| && n <= |buffer|
    requires |before| == s.rx.counter.bytes
    ensures var t := OnReceive(s, Transferred(n), buffer);
            && t.rx.counter.bytes == |before + buffer[..n]|
            && (s.config.verify.VerifyAll? && (s.log.mismatched <==> !IsStream(before, 0)) ==>
                  (t.log.mismatched <==> !IsStream(before + buffer[..n], 0)))
            && (s.config.verify.VerifyNone? ==> t.log.mismatched == s.log.mismatched)
  {
    var all := before + buffer[..n];
    if IsStream(all, 0) {
      StreamSplit(all, |before|, 0);
      assert all[..|before|] == before && all[|before|..] == buffer[..n];
      assert forall i :: 0 <= i < n ==> buffer[i] == buffer[..n][i];
    }
    if IsStream(before, 0) && !Mismatch(VerifyAll, |before|, buffer, n) {
      StreamAppend(before, buffer[..n], 0);
    }
  }
}

/** The invariant of one session under every kernel, every peer and every schedule. */
module SessionInvariant {
  import opened Arithmetic
  import opened Configuration
  import opened Stream
  import opened SessionModel

  /** Every slice is scheduled a whole number of durations after the reset, and none has fired early. */
  ghost predicate ThrottleInv(k: Counter, clock: int) {
    && k.next == k.start + Blocks(k.grants, k.duration)
    && k.start <= clock
    && (k.grants > 0 ==> k.next - k.duration <= clock)
  }

  /** A half that reached its size used exactly the rounded-up number of slices. */
  ghost predicate SlicesUsed(size: nat, k: Counter) {
    Blocks(k.grants, k.slice) - k.slice < size <= Blocks(k.grants, k.slice)
  }

  ghost predicate SendInv(c: Config, op: SendOp, k: Counter) {
    var granted := Blocks(k.grants, k.slice);
    match op
    case SendIdle => false
    case SendThrottled => k.bytes == granted < c.size
    case SendPending(slice, offset, length) =>
      && k.bytes < c.size
      && k.bytes + slice == Min(granted, c.size)
      && granted - k.slice <= k.bytes
      && slice > 0
      && length <= slice
      && offset == Low8(k.bytes)
      && match c.protocol {
           case Tcp => length == Min(slice, BUFFER_SIZE - offset)
           case Udp => Min(slice, c.packetLow) <= length <= c.packetHigh
         }
    case SendFinished => k.bytes == c.size && SlicesUsed(c.size, k)
    case SendStopped => k.bytes <= Min(granted, c.size)
  }

  /** The largest overshoot: one byte was missing and a whole read arrived. */
  function ReceiveBound(size: nat, slice: nat): int {
    size - 1 + Min(slice, BUFFER_SIZE)
  }

  ghost predicate ReceiveDoneInv(c: Config, k: Counter) {
    && c.size <= k.bytes <= Min(Blocks(k.grants, k.slice), ReceiveBound(c.size, k.slice))
    && SlicesUsed(c.size, k)
  }

  ghost predicate ReceiveInv(c: Config, op: ReceiveOp, k: Counter) {
    var granted := Blocks(k.grants, k.slice);
    match op
    case ReceiveIdle => false
    case ReceiveThrottled => k.bytes == granted < c.size
    case ReceivePending(slice) =>
      && k.bytes < c.size
      && k.bytes + slice == granted
      && granted - k.slice <= k.bytes
      && slice > 0
    case ReceiveStopped => k.bytes < c.size && k.bytes <= granted
    case EofPending => c.protocol.Tcp? && ReceiveDoneInv(c, k)
    case EofStopped => c.protocol.Tcp? && ReceiveDoneInv(c, k)
    case ReceiveFinished => ReceiveDoneInv(c, k)
  }

  /** How often the sending direction has been half-closed, as the state of the two halves determines it. */
  function ExpectedShutdowns(c: Config, sendOp: SendOp, receiveOp: ReceiveOp): nat {
    if c.protocol.Udp? then 0
    else
      match c.policy
      case SendComplete => if sendOp.SendFinished? then 1 else 0
      case ReceiveComplete =>
        if receiveOp.EofPending? || receiveOp.ReceiveFinished? || receiveOp.EofStopped? then 1 else 0
      case WaitForPeer => if receiveOp.ReceiveFinished? || receiveOp.EofStopped? then 1 else 0
  }

  ghost predicate SendHalfInv(c: Config, clock: int, tx: SendHalf) {
    && tx.complete == tx.op.SendFinished?
    && if c.direction.Rx? then tx.op.SendFinished? && tx.counter.bytes == tx.counter.grants == 0
       else SendInv(c, tx.op, tx.counter) && ThrottleInv(tx.counter, clock)
  }

  ghost predicate ReceiveHalfInv(c: Config, clock: int, rx: ReceiveHalf) {
    && rx.complete == rx.op.ReceiveFinished?
    && if c.direction.Tx?
       then
         && rx.counter.bytes == rx.counter.grants == 0
         && (rx.op.ReceiveFinished? || (c.protocol.Tcp? && (rx.op.EofPending? || rx.op.EofStopped?)))
       else ReceiveInv(c, rx.op, rx.counter) && ThrottleInv(rx.counter, clock)
  }

  /** The join of the two halves, and what was done to the socket. */
  ghost predicate LogInv(c: Config, tx: SendHalf, rx: ReceiveHalf, log: Log) {
    && log.finishes == (if tx.complete && rx.complete then 1 else 0)
    && log.shutdowns == ExpectedShutdowns(c, tx.op, rx.op)
    && (c.policy.SendComplete? || c.direction.Rx? ==> log.lateSends == 0)
    && (log.finishes > 0 ==> log.closedAfter == log.shutdowns)
  }

  ghost predicate FailureInv(c: Config, rx: ReceiveHalf, log: Log) {
    && (log.mismatched ==> log.failure.Some? && !c.verify.VerifyNone?)
    && (rx.op.EofStopped? ==> log.failure.Some?)
    && (log.signalled ==> log.failure.Some?)
    && (log.failure == Some(DataMismatch) ==> log.mismatched)
    && (log.failure == Some(UnexpectedEof) ==> rx.op.ReceiveStopped?)
    && (log.failure == Some(UnexpectedData) ==> rx.op.EofStopped?)
  }

  ghost predicate Unstarted(s: Session) {
    && s.tx.op.SendIdle? && s.rx.op.ReceiveIdle?
    && !s.tx.complete && !s.rx.complete
    && s.tx.counter.bytes == s.tx.counter.grants == 0
    && s.rx.counter.bytes == s.rx.counter.grants == 0
    && s.log.shutdowns == s.log.lateSends == s.log.finishes == 0
    && !s.log.mismatched
  }

  ghost predicate Inv(s: Session) {
    && Accepted(s.config)
    && s.config.size < WORD && s.rx.counter.slice < WORD
    && FailureInv(s.config, s.rx, s.log)
    && if s.started then
         && SendHalfInv(s.config, s.clock, s.tx)
         && ReceiveHalfInv(s.config, s.clock, s.rx)
         && LogInv(s.config, s.tx, s.rx, s.log)
       else Unstarted(s)
  }

  // ---------- preservation ----------

  /** The state of a half just before its chain continues with the rest of a slice. */
  ghost predicate SendReady(c: Config, k: Counter, slice: nat) {
    var granted := Blocks(k.grants, k.slice);
    && k.bytes < c.size
    && granted - k.slice <= k.bytes
    && Min(k.bytes + slice, c.size) == Min(granted, c.size)
    && (slice == 0 ==> k.bytes == granted)
  }

  lemma SendRequestInv(c: Config, k: Counter, slice: nat, draw: nat)
    requires c.size < WORD && DrawAllowed(c, draw)
    requires SendReady(c, k, slice) && slice > 0
    ensures SendRequest(c, k.bytes, slice, draw).SendPending?
    ensures SendInv(c, SendRequest(c, k.bytes, slice, draw), k)
  {
    Sub64Exact(c.size, k.bytes);
  }

  lemma OnSendSliceKeeps(s: Session, draw: nat)
    requires Inv(s) && s.started && s.tx.op.SendThrottled? && s.tx.counter.next <= s.clock
    requires DrawAllowed(s.config, draw)
    ensures Inv(OnSendSlice(s, draw))
  {
    if s.tx.counter.slice > 0 {
      SendRequestInv(s.config, Grant(s.tx.counter), s.tx.counter.slice, draw);
    }
  }

  /** The send half has just reached its size: completing it keeps everything. */
  lemma FinishSendKeeps(s: Session, before: SendOp)
    requires s.started && Accepted(s.config) && s.config.size < WORD && s.rx.counter.slice < WORD
    requires !before.SendFinished? && !s.tx.complete
    requires !s.config.direction.Rx?
    requires SendInv(s.config, SendFinished, s.tx.counter) && ThrottleInv(s.tx.counter, s.clock)
    requires ReceiveHalfInv(s.config, s.clock, s.rx)
    requires LogInv(s.config, s.tx.(op := before), s.rx, s.log)
    requires FailureInv(s.config, s.rx, s.log)
    ensures Inv(FinishSend(s))
  {
    var t := FinishSend(s);
    assert t.tx == s.tx.(op := SendFinished, complete := true) && t.rx == s.rx;
    assert LogInv(t.config, t.tx, t.rx, t.log);
  }

  /** The send half goes on with the rest of a slice, or waits for the next one. */
  lemma AsyncSendKeeps(s: Session, before: SendOp, slice: nat, draw: nat)
    requires s.started && Accepted(s.config) && s.config.size < WORD && s.rx.counter.slice < WORD
    requires before.SendPending? && !s.tx.complete && !s.config.direction.Rx?
    requires SendReady(s.config, s.tx.counter, slice) && ThrottleInv(s.tx.counter, s.clock)
    requires ReceiveHalfInv(s.config, s.clock, s.rx)
    requires LogInv(s.config, s.tx.(op := before), s.rx, s.log)
    requires FailureInv(s.config, s.rx, s.log)
    requires DrawAllowed(s.config, draw)
    ensures Inv(AsyncSend(s, slice, draw))
  {
    if slice > 0 {
      SendRequestInv(s.config, s.tx.counter, slice, draw);
    }
    var t := AsyncSend(s, slice, draw);
    assert t.rx == s.rx && t.tx.counter == s.tx.counter;
    assert LogInv(t.config, t.tx, t.rx, t.log);
  }

  lemma AfterSendKeeps(s: Session, n: nat, draw: nat)
    requires Inv(s) && s.started && s.tx.op.SendPending?
    requires n <= s.tx.op.length
    requires DrawAllowed(s.config, draw)
    ensures Inv(AfterSend(s, n, draw))
  {
    Sub64Exact(s.tx.op.slice, n);
    var t := CountSent(s, n);
    if t.tx.counter.bytes >= t.config.size {
      FinishSendKeeps(t, s.tx.op);
    } else {
      AsyncSendKeeps(t, s.tx.op, s.tx.op.slice - n, draw);
    }
  }

  lemma OnSendKeeps(s: Session, c: Completion, draw: nat)
    requires Inv(s) && s.started && s.tx.op.SendPending?
    requires c.Transferred? ==> c.count <= s.tx.op.length
    requires DrawAllowed(s.config, draw)
    ensures Inv(OnSend(s, c, draw))
  {
    if c.Transferred? {
      AfterSendKeeps(s, c.count, draw);
    }
  }

  lemma OnReceiveSliceKeeps(s: Session)
    requires Inv(s) && s.started && s.rx.op.ReceiveThrottled? && s.rx.counter.next <= s.clock
    ensures Inv(OnReceiveSlice(s))
  {
  }

  /** The receive half has just reached its size: finishing it keeps everything. */
  lemma FinishReceiveKeeps(s: Session, before: ReceiveOp)
    requires s.started && Accepted(s.config) && s.config.size < WORD && s.rx.counter.slice < WORD
    requires before.ReceivePending? && !s.rx.complete
    requires !s.config.direction.Tx?
    requires ReceiveDoneInv(s.config, s.rx.counter) && ThrottleInv(s.rx.counter, s.clock)
    requires SendHalfInv(s.config, s.clock, s.tx)
    requires LogInv(s.config, s.tx, s.rx.(op := before), s.log)
    requires FailureInv(s.config, s.rx.(op := before), s.log)
    ensures Inv(FinishReceive(s))
  {
    var t := FinishReceive(s);
    assert t.rx.counter == s.rx.counter && t.tx == s.tx;
    assert LogInv(t.config, t.tx, t.rx, t.log);
  }

  lemma AfterReadKeeps(s: Session, n: nat)
    requires Inv(s) && s.started && s.rx.op.ReceivePending?
    requires n <= Min(s.rx.op.slice, BUFFER_SIZE)
    ensures Inv(AfterRead(s, n))
  {
    Sub64Exact(s.rx.op.slice, n);
    var t := CountReceived(s, n);
    if t.rx.counter.bytes >= t.config.size {
      FinishReceiveKeeps(t, s.rx.op);
    }
  }

  lemma OnReceiveKeeps(s: Session, c: Completion, buffer: seq<Byte>)
    requires Inv(s) && s.started && s.rx.op.ReceivePending?
    requires 0 < |buffer| <= BUFFER_SIZE
    requires c.Transferred? ==> c.count <= Min(s.rx.op.slice, |buffer|)
    ensures Inv(OnReceive(s, c, buffer))
  {
    if c.Transferred? {
      AfterReadKeeps(VerifyRead(s, buffer, c.count), c.count);
    }
  }

  lemma StartTransferKeeps(s: Session, now: int, later: int, draw: nat)
    requires Inv(s) && !s.started && s.clock <= now <= later
    ensures Inv(StartTransfer(s, now, later, draw))
  {
  }

  lemma EndReachedKeeps(s: Session)
    requires Inv(s) && s.started && s.rx.op.EofPending?
    ensures Inv(OnEof(s, Failed(EndOfFile)))
  {
    var t := OnEof(s, Failed(EndOfFile));
    assert t.rx.counter == s.rx.counter && t.tx == s.tx;
    assert LogInv(t.config, t.tx, t.rx, t.log);
  }

  lemma EndMissedKeeps(s: Session, c: Completion)
    requires Inv(s) && s.started && s.rx.op.EofPending? && c != Failed(EndOfFile)
    ensures Inv(OnEof(s, c))
  {
    var t := OnEof(s, c);
    assert t.rx.counter == s.rx.counter && t.tx == s.tx && t.rx.op.EofStopped?;
    assert LogInv(t.config, t.tx, t.rx, t.log);
  }

  lemma OnEofKeeps(s: Session, c: Completion)
    requires Inv(s) && s.started && s.rx.op.EofPending?
    ensures Inv(OnEof(s, c))
  {
    if c == Failed(EndOfFile) {
      EndReachedKeeps(s);
    } else {
      EndMissedKeeps(s, c);
    }
  }

  lemma StepKeeps(s: Session, now: int, e: Event)
    requires Inv(s)
    requires Enabled(s, now, e)
    ensures Inv(Step(s, now, e))
  {
    var t := s.(clock := now);
    match e
    case Connected(later, draw) => StartTransferKeeps(t, now, later, draw);
    case SendSliceStart(draw) => OnSendSliceKeeps(t, draw);
    case ReceiveSliceStart => OnReceiveSliceKeeps(t);
    case SendDone(c, draw) => OnSendKeeps(t, c, draw);
    case ReceiveDone(c, buffer) => OnReceiveKeeps(t, c, buffer);
    case EofDone(c) => OnEofKeeps(t, c);
    case Timeout =>
    case Signal(_) =>
  }

  /** What no handler changes or takes back. */
  ghost predicate Monotone(s: Session, t: Session) {
    && t.config == s.config
    && t.tx.counter.slice == s.tx.counter.slice && t.tx.counter.duration == s.tx.counter.duration
    && t.rx.counter.slice == s.rx.counter.slice && t.rx.counter.duration == s.rx.counter.duration
    && (s.log.failure.Some? ==> t.log.failure.Some?)
    && (s.log.mismatched ==> t.log.mismatched)
    && s.log.finishes <= t.log.finishes
    && s.log.shutdowns <= t.log.shutdowns
    && s.clock <= t.clock
  }

  lemma OnReceiveMonotone(s: Session, c: Completion, buffer: seq<Byte>)
    requires s.rx.op.ReceivePending? && 0 < |buffer| && (c.Transferred? ==> c.count <= |buffer|)
    ensures Monotone(s, OnReceive(s, c, buffer))
  {
  }

  lemma OnEofMonotone(s: Session, c: Completion)
    ensures Monotone(s, OnEof(s, c))
  {
  }

  lemma OnSendMonotone(s: Session, c: Completion, draw: nat)
    requires s.tx.op.SendPending?
    ensures Monotone(s, OnSend(s, c, draw))
  {
  }

  lemma StartTransferMonotone(s: Session, now: int, later: int, draw: nat)
    requires s.clock <= later
    ensures Monotone(s, StartTransfer(s, now, later, draw))
  {
    var t := StartReceiving(s.(started := true, clock := later), now);
    assert Monotone(s, t);
  }

  lemma StepMonotone(s: Session, now: int, e: Event)
    requires Enabled(s, now, e)
    ensures Monotone(s, Step(s, now, e))
  {
    var t := s.(clock := now);
    match e
    case Connected(later, draw) => StartTransferMonotone(t, now, later, draw);
    case ReceiveDone(c, buffer) => OnReceiveMonotone(t, c, buffer);
    case SendDone(c, draw) => OnSendMonotone(t, c, draw);
    case EofDone(c) => OnEofMonotone(t, c);
    case _ =>
  }

  lemma {:induction false} RunKeeps(s: Session, es: seq<Timed>, t: Session)
    requires Inv(s)
    requires Run(s, es, t)
    ensures Inv(t) && Monotone(s, t)
    decreases |es|
  {
    if es != [] {
      var last := es[|es| - 1];
      var m :| Run(s, es[..|es| - 1], m) && Enabled(m, last.now, last.event) && t == Step(m, last.now, last.event);
      RunKeeps(s, es[..|es| - 1], m);
      StepKeeps(m, last.now, last.event);
      StepMonotone(m, last.now, last.event);
    }
  }

  /** The two throttles are those of the configuration. */
  ghost predicate Wired(s: Session) {
    && s.config.frequency > 0
    && s.tx.counter.slice == SliceBytes(s.config.sendBandwidth, s.config.frequency)
    && s.rx.counter.slice == SliceBytes(s.config.receiveBandwidth, s.config.frequency)
    && s.tx.counter.duration == s.rx.counter.duration == SliceDuration(s.config.frequency)
  }

  lemma InitialInv(c: Config, now: int)
    requires Accepted(c) && InRange(c)
    ensures Inv(Initial(c, now)) && Wired(Initial(c, now))
  {
    SliceWithinBandwidth(c.receiveBandwidth, c.frequency);
  }

  lemma SliceWithinBandwidth(bandwidth: nat, frequency: nat)
    requires frequency > 0
    ensures SliceBytes(bandwidth, frequency) <= bandwidth
  {
    var b := SliceBytes(bandwidth, frequency);
    MulMonotone(1, frequency, b);
    assert bandwidth == b * frequency + bandwidth % frequency;
  }

  lemma ReachableInv(s: Session)
    requires Accepted(s.config) && InRange(s.config)
    requires Reachable(s)
    ensures Inv(s) && Wired(s)
  {
    var now, es :| Run(Initial(s.config, now), es, s);
    InitialInv(s.config, now);
    RunKeeps(Initial(s.config, now), es, s);
  }
}

/**
 * One transfer session as a value, and its handlers as functions on that value.
 *
 * A session runs two independent halves. Each half is a chain of completions: a throttle wait,
 * an I/O of a size chosen by the kernel, accounting, then another I/O, another wait, or the end.
 * The class Sessions.Session carries these handlers out on mutable fields; this module says what
 * they do, and the modules that follow prove what that guarantees over whole runs.
 */
module SessionModel {
  import opened Arithmetic
  import opened Configuration
  import opened Stream

  // ---------- completions and errors ----------

  datatype IoError = OperationAborted | EndOfFile | Other(code: nat)

  datatype Error =
    | UnexpectedEof
    | DataMismatch
    | TestTimeout
    | UnexpectedData
    | UserInterrupt
    | ProgramTermination
    | UnknownSignal
    | Io(cause: IoError)

  /** The result that the kernel hands to a completion handler. */
  datatype Completion = Transferred(count: nat) | Failed(error: IoError)

  // ---------- throttle arithmetic ----------

  const SECOND: nat := 1_000_000_000

  function SliceBytes(bandwidth: nat, frequency: nat): nat
    requires frequency > 0
  {
    bandwidth / frequency
  }

  function SliceDuration(frequency: nat): nat
    requires frequency > 0
  {
    SECOND / frequency
  }

  // ---------- state ----------

  /** What the send half is waiting for. Stopped: its chain ended without completing. */
  datatype SendOp =
    | SendIdle
    | SendThrottled
    | SendPending(slice: nat, offset: nat, length: nat)
    | SendFinished
    | SendStopped

  /** What the receive half is waiting for. EofPending: the final one-byte TCP read. */
  datatype ReceiveOp =
    | ReceiveIdle
    | ReceiveThrottled
    | ReceivePending(slice: nat)
    | EofPending
    | ReceiveFinished
    | ReceiveStopped
    | EofStopped

  /**
   * A transferred count and the throttle that feeds it: `slice` bytes are granted every `duration`,
   * the next grant being scheduled at `next`; `grants` counts those made since the reset at `start`.
   */
  datatype Counter = Counter(bytes: nat, grants: nat, start: int, next: int, slice: nat, duration: nat)

  datatype SendHalf = SendHalf(op: SendOp, counter: Counter, complete: bool)

  datatype ReceiveHalf = ReceiveHalf(op: ReceiveOp, counter: Counter, complete: bool)

  /** What the session has recorded and done to its socket. */
  datatype Log = Log(
    failure: Option<Error>,
    mismatched: bool,  // a data mismatch was recorded, even if overwritten since
    signalled: bool,   // the one wait for signals was used up by a signal
    shutdowns: nat,    // half-closes of the sending direction
    lateSends: nat,    // sends started after a half-close
    finishes: nat,     // executions of on_finish, each closing the socket
    closedAfter: nat)  // half-closes made before the latest close

  datatype Session = Session(
    config: Config,
    clock: int,        // steady clock, in nanoseconds, of the latest handler
    started: bool,
    tx: SendHalf,
    rx: ReceiveHalf,
    log: Log)

  function NewCounter(bandwidth: nat, frequency: nat, now: int): Counter
    requires frequency > 0
  {
    Counter(0, 0, now, now, SliceBytes(bandwidth, frequency), SliceDuration(frequency))
  }

  function Initial(c: Config, now: int): Session
    requires c.frequency > 0
  {
    Session(c, now, false,
            SendHalf(SendIdle, NewCounter(c.sendBandwidth, c.frequency, now), false),
            ReceiveHalf(ReceiveIdle, NewCounter(c.receiveBandwidth, c.frequency, now), false),
            Log(None, false, false, 0, 0, 0, 0))
  }

  function Reset(k: Counter, now: int): Counter {
    k.(start := now, next := now)
  }

  /** One slice granted: the next one starts a slice duration after the scheduled start of this one. */
  function Grant(k: Counter): Counter {
    k.(grants := k.grants + 1, next := k.next + k.duration)
  }

  // ---------- handlers ----------

  function Abort(s: Session, e: Error): Session {
    s.(log := s.log.(failure := Some(e)))
  }

  /** The signals that a session waits for. */
  datatype SignalNumber = SigInt | SigTerm | SigHup

  function SignalError(signal: SignalNumber): Error {
    match signal
    case SigInt => UserInterrupt
    case SigTerm => ProgramTermination
    case SigHup => UnknownSignal
  }

  /** A signal fails the session; the wait for it is not started again. */
  function OnSignal(s: Session, signal: SignalNumber): Session {
    s.(log := s.log.(failure := Some(SignalError(signal)), signalled := true))
  }

  function ShutdownSend(s: Session): Session {
    s.(log := s.log.(shutdowns := s.log.shutdowns + 1))
  }

  function OnFinish(s: Session): Session {
    s.(log := s.log.(finishes := s.log.finishes + 1, closedAfter := s.log.shutdowns))
  }

  function SetReceiveOp(s: Session, op: ReceiveOp): Session {
    s.(rx := s.rx.(op := op))
  }

  function SetSendOp(s: Session, op: SendOp): Session {
    s.(tx := s.tx.(op := op))
  }

  function OnReceiveComplete(s: Session): Session {
    var t := s.(rx := s.rx.(op := ReceiveFinished, complete := true));
    if t.tx.complete then OnFinish(t) else t
  }

  function OnSendComplete(s: Session): Session {
    var t := s.(tx := s.tx.(op := SendFinished, complete := true));
    if t.rx.complete then OnFinish(t) else t
  }

  function AsyncReceive(s: Session, slice: nat): Session {
    SetReceiveOp(s, if slice == 0 then ReceiveThrottled else ReceivePending(slice))
  }

  function FinishReceive(s: Session): Session {
    if s.config.protocol.Udp? then OnReceiveComplete(s)
    else
      var t := if s.config.policy.ReceiveComplete? then ShutdownSend(s) else s;
      SetReceiveOp(t, EofPending)
  }

  /** The length of one send: TCP stays inside the buffer, UDP draws a datagram size. */
  function SendLength(protocol: Protocol, slice: nat, offset: Byte, draw: nat): nat {
    match protocol
    case Tcp => Min(slice, BUFFER_SIZE - offset)
    case Udp => Min(slice, draw)
  }

  /** What the source asserts of a datagram before sending it: the chunk lies inside the buffer. */
  predicate InBuffer(op: SendOp) {
    op.SendPending? ==> op.offset + op.length <= BUFFER_SIZE
  }

  /** The send that continues a non-empty slice once `sent` bytes have gone. */
  function SendRequest(c: Config, sent: nat, slice: nat, draw: nat): SendOp {
    var clamped := Min(slice, Sub64(c.size, sent));
    SendPending(clamped, Low8(sent), SendLength(c.protocol, clamped, Low8(sent), draw))
  }

  function AsyncSend(s: Session, slice: nat, draw: nat): Session {
    if slice == 0 then SetSendOp(s, SendThrottled)
    else
      var late := if s.log.shutdowns > 0 then s.log.lateSends + 1 else s.log.lateSends;
      SetSendOp(s, SendRequest(s.config, s.tx.counter.bytes, slice, draw)).(log := s.log.(lateSends := late))
  }

  function FinishSend(s: Session): Session {
    if s.config.protocol.Udp? then OnSendComplete(s)
    else
      var t := if s.config.policy.SendComplete? then ShutdownSend(s) else s;
      OnSendComplete(t)
  }

  /**
   * A read is verified against the absolute stream position. In mode FIRST only the first byte of
   * the buffer is looked at, whatever the size of the read.
   */
  ghost predicate Mismatch(mode: Verify, received: nat, buffer: seq<Byte>, n: nat)
    requires n <= |buffer| && 0 < |buffer|
  {
    match mode
    case VerifyNone => false
    case VerifyFirst => buffer[0] != Low8(received)
    case VerifyAll => exists i :: 0 <= i < n && buffer[i] != Low8(received + i)
  }

  ghost function VerifyRead(s: Session, buffer: seq<Byte>, n: nat): Session
    requires n <= |buffer| && 0 < |buffer|
  {
    if Mismatch(s.config.verify, s.rx.counter.bytes, buffer, n)
    then s.(log := s.log.(failure := Some(DataMismatch), mismatched := true))
    else s
  }

  function CountReceived(s: Session, n: nat): Session {
    s.(rx := s.rx.(counter := s.rx.counter.(bytes := s.rx.counter.bytes + n)))
  }

  function CountSent(s: Session, n: nat): Session {
    s.(tx := s.tx.(counter := s.tx.counter.(bytes := s.tx.counter.bytes + n)))
  }

  /** A read of n bytes is counted; the same slice goes on, or the half is over. */
  function AfterRead(s: Session, n: nat): Session
    requires s.rx.op.ReceivePending?
  {
    var t := CountReceived(s, n);
    if t.rx.counter.bytes < t.config.size
    then AsyncReceive(t, Sub64(s.rx.op.slice, n))
    else FinishReceive(t)
  }

  /** A mismatch is recorded, but the bytes are still counted and reception goes on. */
  ghost function OnReceive(s: Session, c: Completion, buffer: seq<Byte>): Session
    requires s.rx.op.ReceivePending?
    requires 0 < |buffer| && (c.Transferred? ==> c.count <= |buffer|)
  {
    match c
    case Failed(OperationAborted) => SetReceiveOp(s, ReceiveStopped)
    case Failed(EndOfFile) => SetReceiveOp(Abort(s, UnexpectedEof), ReceiveStopped)
    case Failed(e) => SetReceiveOp(Abort(s, Io(e)), ReceiveStopped)
    case Transferred(n) => AfterRead(VerifyRead(s, buffer, n), n)
  }

  function OnEof(s: Session, c: Completion): Session {
    var t := if s.config.policy.WaitForPeer? then ShutdownSend(s) else s;
    match c
    case Failed(EndOfFile) => OnReceiveComplete(t)
    case Failed(e) => SetReceiveOp(Abort(t, Io(e)), EofStopped)
    case Transferred(_) => SetReceiveOp(Abort(t, UnexpectedData), EofStopped)
  }

  /** A send of n bytes is counted; the same slice goes on, or the half is over. */
  function AfterSend(s: Session, n: nat, draw: nat): Session
    requires s.tx.op.SendPending?
  {
    var t := CountSent(s, n);
    if t.tx.counter.bytes < t.config.size
    then AsyncSend(t, Sub64(s.tx.op.slice, n), draw)
    else FinishSend(t)
  }

  function OnSend(s: Session, c: Completion, draw: nat): Session
    requires s.tx.op.SendPending?
  {
    match c
    case Failed(OperationAborted) => SetSendOp(s, SendStopped)
    case Failed(e) => SetSendOp(Abort(s, Io(e)), SendStopped)
    case Transferred(n) => AfterSend(s, n, draw)
  }

  function StartReceiving(s: Session, now: int): Session {
    if s.config.direction.Tx? then FinishReceive(s)
    else AsyncReceive(s.(rx := s.rx.(counter := Reset(s.rx.counter, now))), 0)
  }

  function StartSending(s: Session, now: int, draw: nat): Session {
    if s.config.direction.Rx? then FinishSend(s)
    else AsyncSend(s.(tx := s.tx.(counter := Reset(s.tx.counter, now))), 0, draw)
  }

  /** The two throttles read the clock one after the other. */
  function StartTransfer(s: Session, now: int, later: int, draw: nat): Session {
    StartSending(StartReceiving(s.(started := true, clock := later), now), later, draw)
  }

  function OnSendSlice(s: Session, draw: nat): Session {
    AsyncSend(s.(tx := s.tx.(counter := Grant(s.tx.counter))), s.tx.counter.slice, draw)
  }

  function OnReceiveSlice(s: Session): Session {
    AsyncReceive(s.(rx := s.rx.(counter := Grant(s.rx.counter))), s.rx.counter.slice)
  }

  // ---------- runs against any kernel and any peer ----------

  /**
   * One handler execution. `draw` is the datagram size that a send started by the handler uses.
   * Timeout and Signal are the two asynchronous ways to fail.
   */
  datatype Event =
    | Connected(later: int, draw: nat)
    | SendSliceStart(draw: nat)
    | ReceiveSliceStart
    | SendDone(sent: Completion, draw: nat)
    | ReceiveDone(read: Completion, buffer: seq<Byte>)
    | EofDone(end: Completion)
    | Timeout
    | Signal(signal: SignalNumber)

  /** The wait for signals, started with the session and cancelled when it finishes. */
  predicate SignalWait(s: Session) {
    s.log.finishes == 0 && !s.log.signalled
  }

  ghost predicate DrawAllowed(c: Config, draw: nat) {
    c.protocol.Udp? ==> c.packetLow <= draw <= c.packetHigh
  }

  /**
   * The environment: handlers run at non-decreasing times, a throttle never fires early, a transfer
   * is no longer than requested, and a TCP transfer moves at least one byte. A finished session has
   * cancelled its timer and its signals.
   */
  ghost predicate Enabled(s: Session, now: int, e: Event) {
    && s.clock <= now
    && match e
       case Connected(later, draw) => !s.started && now <= later && DrawAllowed(s.config, draw)
       case SendSliceStart(draw) => s.tx.op.SendThrottled? && s.tx.counter.next <= now && DrawAllowed(s.config, draw)
       case ReceiveSliceStart => s.rx.op.ReceiveThrottled? && s.rx.counter.next <= now
       case SendDone(c, draw) =>
         && s.tx.op.SendPending?
         && DrawAllowed(s.config, draw)
         && (c.Transferred? ==> c.count <= s.tx.op.length && (s.config.protocol.Tcp? ==> c.count >= 1))
       case ReceiveDone(c, buffer) =>
         && s.rx.op.ReceivePending?
         && 0 < |buffer| <= BUFFER_SIZE
         && (c.Transferred? ==>
               && c.count <= Min(s.rx.op.slice, |buffer|)
               && (s.config.protocol.Tcp? ==> c.count >= 1))
       case EofDone(c) => s.rx.op.EofPending? && (c.Transferred? ==> c.count == 1)
       case Timeout => s.log.finishes == 0
       case Signal(_) => SignalWait(s)
  }

  ghost function Step(s: Session, now: int, e: Event): Session
    requires Enabled(s, now, e)
  {
    var t := s.(clock := now);
    match e
    case Connected(later, draw) => StartTransfer(t, now, later, draw)
    case SendSliceStart(draw) => OnSendSlice(t, draw)
    case ReceiveSliceStart => OnReceiveSlice(t)
    case SendDone(c, draw) => OnSend(t, c, draw)
    case ReceiveDone(c, buffer) => OnReceive(t, c, buffer)
    case EofDone(c) => OnEof(t, c)
    case Timeout => Abort(t, TestTimeout)
    case Signal(signal) => OnSignal(t, signal)
  }

  datatype Timed = Timed(now: int, event: Event)

  /** es is a run from s that ends in t. */
  ghost predicate Run(s: Session, es: seq<Timed>, t: Session)
    decreases |es|
  {
    if es == [] then s == t
    else
      var last := es[|es| - 1];
      exists m :: Run(s, es[..|es| - 1], m)
                  && Enabled(m, last.now, last.event) && t == Step(m, last.now, last.event)
  }

  ghost predicate Reachable(s: Session) {
    s.config.frequency > 0 && exists now, es :: Run(Initial(s.config, now), es, s)
  }
}

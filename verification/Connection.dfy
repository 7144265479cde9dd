/**
 * Two connected TCP sessions. Each direction is a bounded FIFO of bytes with an end-of-stream mark,
 * as the half-close of section 3.6 of RFC 9293 gives it: data sent before the mark is still
 * delivered after it. The kernel completes an operation in one step and the session runs the
 * handler in a later one, so both sides and both kernels interleave freely.
 */
module Connection {
  import opened Arithmetic
  import opened Configuration
  import opened Stream
  import opened SessionModel

  datatype Read = Bytes(data: seq<Byte>) | End | Reset

  /** One end: its session, the results its kernel has queued, and at most `capacity` bytes in flight. */
  datatype Side = Side(
    session: Session,
    sendDone: Option<Completion>,
    readDone: Option<Read>,
    wire: seq<Byte>,
    capacity: nat)

  datatype Pair = Pair(a: Side, b: Side)

  datatype Action =
    | Start(later: int)
    | SendSlice
    | ReceiveSlice
    | KernelSend(n: nat)
    | KernelRefuse
    | KernelRead(n: nat)
    | KernelEnd
    | KernelReset
    | RunSend
    | RunRead

  const BROKEN_PIPE: nat := 32
  const CONNECTION_RESET: nat := 104

  /** The sending direction carries the end-of-stream mark: it was half-closed, or closed. */
  ghost predicate Fin(s: Session) {
    s.log.shutdowns > 0 || s.log.finishes > 0
  }

  ghost predicate Closed(s: Session) {
    s.log.finishes > 0
  }

  ghost predicate Reading(s: Session) {
    s.rx.op.ReceivePending? || s.rx.op.EofPending?
  }

  /** The longest read that the session has asked for. */
  function ReadLimit(s: Session): nat {
    if s.rx.op.ReceivePending? then Min(s.rx.op.slice, BUFFER_SIZE) else 1
  }

  function ReadCompletion(r: Read): Completion {
    match r
    case Bytes(data) => Transferred(|data|)
    case End => Failed(EndOfFile)
    case Reset => Failed(Other(CONNECTION_RESET))
  }

  /** The handler that a completed read runs. */
  function ReadEvent(s: Session, r: Read): Event {
    if s.rx.op.EofPending? then EofDone(ReadCompletion(r))
    else ReceiveDone(ReadCompletion(r), if r.Bytes? then r.data else [0])
  }

  /** The handler execution that an action stands for, if it is one. */
  function EventOf(me: Side, action: Action): Option<Event> {
    match action
    case Start(later) => Some(Connected(later, 0))
    case SendSlice => Some(SendSliceStart(0))
    case ReceiveSlice => Some(ReceiveSliceStart)
    case RunSend => if me.sendDone.Some? then Some(SendDone(me.sendDone.value, 0)) else None
    case RunRead => if me.readDone.Some? then Some(ReadEvent(me.session, me.readDone.value)) else None
    case _ => None
  }

  ghost predicate CanAct(me: Side, peer: Side, now: int, action: Action) {
    var s := me.session;
    match action
    case KernelSend(n) =>
      && s.tx.op.SendPending? && me.sendDone.None?
      && !Fin(s) && !Closed(peer.session)
      && 1 <= n <= s.tx.op.length && |me.wire| + n <= me.capacity
    case KernelRefuse =>
      && s.tx.op.SendPending? && me.sendDone.None?
      && (Fin(s) || Closed(peer.session))
    case KernelRead(n) =>
      && Reading(s) && me.readDone.None?
      && 1 <= n <= Min(ReadLimit(s), |peer.wire|)
    case KernelEnd =>
      && Reading(s) && me.readDone.None?
      && peer.wire == [] && Fin(peer.session)
    case KernelReset =>
      // The peer closed without having read everything.
      && Reading(s) && me.readDone.None?
      && Closed(peer.session) && me.wire != []
    case _ =>
      var e := EventOf(me, action);
      e.Some? && Enabled(s, now, e.value)
  }

  /** The two ends after an action of `me`. */
  ghost function Act(me: Side, peer: Side, now: int, action: Action): (r: (Side, Side))
    requires CanAct(me, peer, now, action)
  {
    var s := me.session;
    match action
    case KernelSend(n) =>
      // The kernel copies from the pattern buffer; inside the buffer for every TCP request.
      var end := Min(s.tx.op.offset + n, BUFFER_SIZE);
      var start := Min(s.tx.op.offset, end);
      (me.(sendDone := Some(Transferred(n)), wire := me.wire + SendBuffer()[start..end]), peer)
    case KernelRefuse => (me.(sendDone := Some(Failed(Other(BROKEN_PIPE)))), peer)
    case KernelRead(n) => (me.(readDone := Some(Bytes(peer.wire[..n]))), peer.(wire := peer.wire[n..]))
    case KernelEnd => (me.(readDone := Some(End)), peer)
    case KernelReset => (me.(readDone := Some(Reset)), peer)
    case RunSend => (me.(session := Step(s, now, EventOf(me, action).value), sendDone := None), peer)
    case RunRead => (me.(session := Step(s, now, EventOf(me, action).value), readDone := None), peer)
    case _ => (me.(session := Step(s, now, EventOf(me, action).value)), peer)
  }

  /** An action of either end. */
  datatype Move = Move(byA: bool, now: int, action: Action)

  ghost predicate CanMove(p: Pair, m: Move) {
    if m.byA then CanAct(p.a, p.b, m.now, m.action)
    else CanAct(p.b, p.a, m.now, m.action)
  }

  ghost function Next(p: Pair, m: Move): Pair
    requires CanMove(p, m)
  {
    if m.byA then var r := Act(p.a, p.b, m.now, m.action); Pair(r.0, r.1)
    else var r := Act(p.b, p.a, m.now, m.action); Pair(r.1, r.0)
  }

  ghost predicate Path(p: Pair, ms: seq<Move>, q: Pair)
    decreases |ms|
  {
    if ms == [] then p == q
    else
      var before, last := ms[..|ms| - 1], ms[|ms| - 1];
      exists r :: Path(p, before, r) && CanMove(r, last) && q == Next(r, last)
  }

  ghost predicate Leads(p: Pair, q: Pair) {
    exists ms :: Path(p, ms, q)
  }

  function Opened(c: Config, now: int, capacity: nat): Side
    requires c.frequency > 0
  {
    Side(Initial(c, now), None, None, [], capacity)
  }

  lemma LeadsStep(p: Pair, q: Pair, m: Move)
    requires Leads(p, q) && CanMove(q, m)
    ensures Leads(p, Next(q, m))
  {
    var ms :| Path(p, ms, q);
    var longer := ms + [m];
    assert longer[..|longer| - 1] == ms;
    assert Path(p, longer, Next(q, m));
  }

  lemma LeadsSelf(p: Pair)
    ensures Leads(p, p)
  {
    assert Path(p, [], p);
  }
}

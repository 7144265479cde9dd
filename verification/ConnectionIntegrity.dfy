/** End-to-end integrity: what one TCP session reads is what the other one sent, in any run of any pair. */
module ConnectionIntegrity {
  import opened Configuration
  import opened Stream
  import opened SessionModel
  import opened SessionInvariant
  import opened Connection
  import opened ConnectionEffects

  /** Bytes handed to the kernel, counted by the session or not yet. */
  function Pushed(me: Side): nat {
    me.session.tx.counter.bytes +
    if me.sendDone.Some? && me.sendDone.value.Transferred? then me.sendDone.value.count else 0
  }

  /** Bytes taken from the kernel by data reads, counted by the session or not yet. */
  function Taken(me: Side): nat {
    me.session.rx.counter.bytes +
    if me.session.rx.op.ReceivePending? && me.readDone.Some? && me.readDone.value.Bytes?
    then |me.readDone.value.data|
    else 0
  }

  /** The read that should have met the end of the stream has met data instead. */
  predicate Overrun(me: Side) {
    || me.session.rx.op.EofStopped?
    || (me.session.rx.op.EofPending? && me.readDone.Some? && me.readDone.value.Bytes?)
  }

  ghost predicate SideInv(me: Side) {
    && TcpInv(me.session)
    && (me.sendDone.Some? ==>
          && me.session.tx.op.SendPending?
          && match me.sendDone.value {
               case Transferred(n) => 1 <= n <= me.session.tx.op.length
               case Failed(e) => e == Other(BROKEN_PIPE)
             })
    && (me.readDone.Some? ==>
          && Reading(me.session)
          && (me.readDone.value.Bytes? ==> 1 <= |me.readDone.value.data| <= ReadLimit(me.session)))
  }

  /** The bytes between the two sessions are the stretch of the pattern from `taken` to `pushed`. */
  ghost predicate FlowInv(src: Side, dst: Side) {
    && (!Overrun(dst) ==> IsStream(src.wire, Taken(dst)) && Taken(dst) + |src.wire| == Pushed(src))
    && (dst.session.rx.op.ReceivePending? && dst.readDone.Some? && dst.readDone.value.Bytes? ==>
          IsStream(dst.readDone.value.data, dst.session.rx.counter.bytes))
    && !dst.session.log.mismatched
  }

  ghost predicate EndsInv(me: Side, peer: Side) {
    SideInv(me) && SideInv(peer) && FlowInv(me, peer) && FlowInv(peer, me)
  }

  lemma KernelSendFlows(me: Side, peer: Side, now: int, n: nat)
    requires EndsInv(me, peer) && CanAct(me, peer, now, KernelSend(n))
    ensures var r := Act(me, peer, now, KernelSend(n)); EndsInv(r.0, r.1)
  {
    var op := me.session.tx.op;
    assert op.offset + n <= BUFFER_SIZE && op.offset == Low8(me.session.tx.counter.bytes);
    ChunkIsStream(me.session.tx.counter.bytes, n);
    var chunk := SendBuffer()[op.offset..op.offset + n];
    if !Overrun(peer) {
      StreamAppend(me.wire, chunk, Taken(peer));
    }
  }

  lemma KernelReadFlows(me: Side, peer: Side, now: int, n: nat)
    requires EndsInv(me, peer) && CanAct(me, peer, now, KernelRead(n))
    ensures var r := Act(me, peer, now, KernelRead(n)); EndsInv(r.0, r.1)
  {
    if !Overrun(me) {
      StreamSplit(peer.wire, n, Taken(me));
    }
  }

  lemma RunSendFlows(me: Side, peer: Side, now: int)
    requires EndsInv(me, peer) && CanAct(me, peer, now, RunSend)
    ensures var r := Act(me, peer, now, RunSend); EndsInv(r.0, r.1)
  {
    match me.sendDone.value
    case Transferred(n) => SendAcceptedEffect(me.session, now, n);
    case Failed(e) => SendRefusedEffect(me.session, now, e);
  }

  lemma RunDataFlows(me: Side, peer: Side, now: int)
    requires EndsInv(me, peer) && CanAct(me, peer, now, RunRead)
    requires me.session.rx.op.ReceivePending? && me.readDone.value.Bytes?
    ensures var r := Act(me, peer, now, RunRead); EndsInv(r.0, r.1)
  {
    ReadAcceptedEffect(me.session, now, me.readDone.value.data);
  }

  lemma RunReadFlows(me: Side, peer: Side, now: int)
    requires EndsInv(me, peer) && CanAct(me, peer, now, RunRead)
    ensures var r := Act(me, peer, now, RunRead); EndsInv(r.0, r.1)
  {
    var e := ReadEvent(me.session, me.readDone.value);
    if e.ReceiveDone? && e.read.Transferred? {
      RunDataFlows(me, peer, now);
    } else if e.EofDone? && e.end == Failed(EndOfFile) {
      EndReachedEffect(me.session, now);
    } else {
      ReadRefusedEffect(me.session, now, e);
    }
  }

  lemma StartFlows(me: Side, peer: Side, now: int, later: int)
    requires EndsInv(me, peer) && CanAct(me, peer, now, Start(later))
    ensures var r := Act(me, peer, now, Start(later)); EndsInv(r.0, r.1)
  {
    BegunEffect(me.session, now, later);
  }

  lemma SliceFlows(me: Side, peer: Side, now: int, action: Action)
    requires EndsInv(me, peer) && CanAct(me, peer, now, action)
    requires action.SendSlice? || action.ReceiveSlice?
    ensures var r := Act(me, peer, now, action); EndsInv(r.0, r.1)
  {
    if action.SendSlice? {
      SendSliceEffect(me.session, now);
    } else {
      ReceiveSliceEffect(me.session, now);
    }
  }

  lemma ActFlows(me: Side, peer: Side, now: int, action: Action)
    requires EndsInv(me, peer) && CanAct(me, peer, now, action)
    ensures var r := Act(me, peer, now, action); EndsInv(r.0, r.1)
  {
    match action
    case Start(later) => StartFlows(me, peer, now, later);
    case SendSlice => SliceFlows(me, peer, now, action);
    case ReceiveSlice => SliceFlows(me, peer, now, action);
    case KernelSend(n) => KernelSendFlows(me, peer, now, n);
    case KernelRead(n) => KernelReadFlows(me, peer, now, n);
    case RunSend => RunSendFlows(me, peer, now);
    case RunRead => RunReadFlows(me, peer, now);
    case _ =>
  }

  lemma NextFlows(p: Pair, m: Move)
    requires EndsInv(p.a, p.b) && CanMove(p, m)
    ensures EndsInv(Next(p, m).a, Next(p, m).b)
  {
    if m.byA {
      ActFlows(p.a, p.b, m.now, m.action);
    } else {
      ActFlows(p.b, p.a, m.now, m.action);
    }
  }

  lemma {:induction false} PathFlows(p: Pair, ms: seq<Move>, q: Pair)
    requires EndsInv(p.a, p.b) && Path(p, ms, q)
    ensures EndsInv(q.a, q.b)
    decreases |ms|
  {
    if ms != [] {
      var before, last := ms[..|ms| - 1], ms[|ms| - 1];
      var r :| Path(p, before, r) && CanMove(r, last) && q == Next(r, last);
      PathFlows(p, before, r);
      NextFlows(r, last);
    }
  }

  ghost predicate Acceptable(c: Config) {
    Accepted(c) && InRange(c) && c.protocol.Tcp?
  }

  /** Two fresh ends of accepted TCP configurations. */
  ghost predicate Fresh(p: Pair) {
    && Acceptable(p.a.session.config) && Acceptable(p.b.session.config)
    && p.a == Opened(p.a.session.config, p.a.session.clock, p.a.capacity)
    && p.b == Opened(p.b.session.config, p.b.session.clock, p.b.capacity)
  }

  lemma FreshFlows(p: Pair)
    requires Fresh(p)
    ensures EndsInv(p.a, p.b)
  {
    InitialInv(p.a.session.config, p.a.session.clock);
    InitialInv(p.b.session.config, p.b.session.clock);
  }

  /**
   * Whatever the two configurations, the chunking, the slices and the interleaving, neither session
   * ever records a data mismatch, and the bytes in flight to a session that still reads are exactly
   * the pattern between what it has taken and what the other one has pushed.
   */
  lemma NeverMismatched(p: Pair, q: Pair)
    requires Fresh(p) && Leads(p, q)
    ensures !q.a.session.log.mismatched && !q.b.session.log.mismatched
    ensures !Overrun(q.b) ==> IsStream(q.a.wire, Taken(q.b)) && Taken(q.b) + |q.a.wire| == Pushed(q.a)
    ensures !Overrun(q.a) ==> IsStream(q.b.wire, Taken(q.a)) && Taken(q.a) + |q.b.wire| == Pushed(q.b)
  {
    var ms :| Path(p, ms, q);
    FreshFlows(p);
    PathFlows(p, ms, q);
  }
}

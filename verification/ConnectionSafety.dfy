/** The pairs of TCP configurations whose runs never record a failure. */
module ConnectionSafety {
  import opened Arithmetic
  import opened Configuration
  import opened SessionModel
  import opened SessionInvariant
  import opened Connection
  import opened ConnectionEffects
  import opened ConnectionIntegrity

  function OutSize(c: Config): nat {
    if c.direction.Rx? then 0 else c.size
  }

  function InSize(c: Config): nat {
    if c.direction.Tx? then 0 else c.size
  }

  /** Each end expects what the other one sends. */
  ghost predicate Matched(a: Config, b: Config) {
    && a.size == b.size
    && match a.direction {
         case Both => b.direction.Both?
         case Tx => b.direction.Rx?
         case Rx => b.direction.Tx?
       }
  }

  /** The half-close of `me` waits for its own data, whatever `peer` does. */
  predicate ClosesAfterSending(me: Config, peer: Config) {
    || me.direction.Rx?
    || me.policy.SendComplete?
    || (me.policy.WaitForPeer? && !peer.policy.SendComplete?)
  }

  /** Decided by the two configurations alone: both two-way and SEND_COMPLETE, both WAIT_FOR_PEER, or one-way. */
  predicate SafePolicies(a: Config, b: Config) {
    ClosesAfterSending(a, b) && ClosesAfterSending(b, a)
  }

  predicate BothWait(a: Config, b: Config) {
    a.policy.WaitForPeer? && b.policy.WaitForPeer?
  }

  ghost predicate Paired(me: Side, peer: Side) {
    && EndsInv(me, peer)
    && Matched(me.session.config, peer.session.config)
    && SafePolicies(me.session.config, peer.session.config)
  }

  /** Nothing has gone wrong at this end, and its end-of-stream mark follows all of its data. */
  ghost predicate CleanEnd(me: Side, peer: Side) {
    var s := me.session;
    && s.log.failure.None?
    && !s.tx.op.SendStopped? && !s.rx.op.ReceiveStopped? && !s.rx.op.EofStopped?
    && (me.sendDone.Some? ==> me.sendDone.value.Transferred?)
    && (me.readDone.Some? ==> if s.rx.op.EofPending? then me.readDone.value.End? else me.readDone.value.Bytes?)
    && (me.readDone == Some(End) ==> Fin(peer.session))
    && (Fin(s) ==> Pushed(me) == OutSize(s.config))
    && (BothWait(s.config, peer.session.config) ==> !Fin(s))
  }

  ghost predicate Clean(me: Side, peer: Side) {
    Paired(me, peer) && CleanEnd(me, peer) && CleanEnd(peer, me)
  }

  /** When a TCP session has half-closed, told from what its halves are doing. */
  lemma FinByPolicy(s: Session)
    requires TcpInv(s)
    ensures Fin(s) <==> s.started && ExpectedShutdowns(s.config, s.tx.op, s.rx.op) > 0
  {
  }

  lemma PushedBound(me: Side)
    requires SideInv(me)
    ensures Pushed(me) <= OutSize(me.session.config)
    ensures me.session.tx.op.SendFinished? ==> Pushed(me) == OutSize(me.session.config)
  {
  }

  /** A session that has reached its size has drained the stream of a matched peer. */
  lemma Drained(me: Side, peer: Side)
    requires Clean(me, peer)
    requires me.session.rx.op.EofPending? || me.session.rx.op.ReceiveFinished?
    ensures peer.wire == [] && Pushed(peer) == OutSize(peer.session.config)
    ensures me.session.rx.counter.bytes == InSize(me.session.config)
  {
    PushedBound(peer);
    assert !Overrun(me);
  }

  /** Nothing goes wrong in the kernel of a clean pair: no refusal, no reset, no data after the end, no early end. */
  lemma NoKernelFault(me: Side, peer: Side, now: int, action: Action)
    requires Clean(me, peer) && CanAct(me, peer, now, action)
    ensures !action.KernelRefuse? && !action.KernelReset?
    ensures action.KernelRead? ==> me.session.rx.op.ReceivePending?
    ensures action.KernelEnd? ==> me.session.rx.op.EofPending?
  {
    PushedBound(me);
    PushedBound(peer);
    match action
    case KernelRefuse =>
      if Closed(peer.session) {
        Drained(peer, me);
      }
    case KernelReset => Drained(peer, me);
    case KernelRead(n) =>
      if me.session.rx.op.EofPending? {
        Drained(me, peer);
      }
    case _ =>
  }

  lemma StartClean(me: Side, peer: Side, now: int, later: int)
    requires Clean(me, peer) && CanAct(me, peer, now, Start(later))
    ensures var r := Act(me, peer, now, Start(later)); Clean(r.0, r.1)
  {
    ActFlows(me, peer, now, Start(later));
    BegunEffect(me.session, now, later);
    var t := Act(me, peer, now, Start(later)).0.session;
    FinByPolicy(t);
    FinByPolicy(me.session);
  }

  lemma SliceClean(me: Side, peer: Side, now: int, action: Action)
    requires Clean(me, peer) && CanAct(me, peer, now, action)
    requires action.SendSlice? || action.ReceiveSlice?
    ensures var r := Act(me, peer, now, action); Clean(r.0, r.1)
  {
    ActFlows(me, peer, now, action);
    if action.SendSlice? {
      SendSliceEffect(me.session, now);
    } else {
      ReceiveSliceEffect(me.session, now);
    }
    FinByPolicy(me.session);
    FinByPolicy(Act(me, peer, now, action).0.session);
  }

  lemma KernelClean(me: Side, peer: Side, now: int, action: Action)
    requires Clean(me, peer) && CanAct(me, peer, now, action)
    requires action.KernelSend? || action.KernelRead? || action.KernelEnd?
    ensures var r := Act(me, peer, now, action); Clean(r.0, r.1)
  {
    ActFlows(me, peer, now, action);
    NoKernelFault(me, peer, now, action);
  }

  lemma RunSendClean(me: Side, peer: Side, now: int)
    requires Clean(me, peer) && CanAct(me, peer, now, RunSend)
    ensures var r := Act(me, peer, now, RunSend); Clean(r.0, r.1)
  {
    ActFlows(me, peer, now, RunSend);
    SendAcceptedEffect(me.session, now, me.sendDone.value.count);
    var r := Act(me, peer, now, RunSend);
    FinByPolicy(me.session);
    FinByPolicy(r.0.session);
    PushedBound(r.0);
  }

  /** The only half-close that does not follow the session's own data answers a peer that has read all of it. */
  lemma RunReadClean(me: Side, peer: Side, now: int)
    requires Clean(me, peer) && CanAct(me, peer, now, RunRead)
    ensures var r := Act(me, peer, now, RunRead); Clean(r.0, r.1)
  {
    ActFlows(me, peer, now, RunRead);
    var r := Act(me, peer, now, RunRead);
    FinByPolicy(me.session);
    FinByPolicy(r.0.session);
    FinByPolicy(peer.session);
    PushedBound(r.0);
    if me.session.rx.op.EofPending? {
      EndReachedEffect(me.session, now);
      if me.session.config.policy.WaitForPeer? && !me.session.config.direction.Rx? {
        Drained(peer, me);
      }
    } else {
      ReadAcceptedEffect(me.session, now, me.readDone.value.data);
    }
  }

  lemma ActClean(me: Side, peer: Side, now: int, action: Action)
    requires Clean(me, peer) && CanAct(me, peer, now, action)
    ensures var r := Act(me, peer, now, action); Clean(r.0, r.1)
  {
    NoKernelFault(me, peer, now, action);
    match action
    case Start(later) => StartClean(me, peer, now, later);
    case SendSlice => SliceClean(me, peer, now, action);
    case ReceiveSlice => SliceClean(me, peer, now, action);
    case RunSend => RunSendClean(me, peer, now);
    case RunRead => RunReadClean(me, peer, now);
    case _ => KernelClean(me, peer, now, action);
  }

  lemma NextClean(p: Pair, m: Move)
    requires Clean(p.a, p.b) && CanMove(p, m)
    ensures Clean(Next(p, m).a, Next(p, m).b)
  {
    if m.byA {
      ActClean(p.a, p.b, m.now, m.action);
    } else {
      ActClean(p.b, p.a, m.now, m.action);
    }
  }

  lemma {:induction false} PathClean(p: Pair, ms: seq<Move>, q: Pair)
    requires Clean(p.a, p.b) && Path(p, ms, q)
    ensures Clean(q.a, q.b)
    decreases |ms|
  {
    if ms != [] {
      var before, last := ms[..|ms| - 1], ms[|ms| - 1];
      var r :| Path(p, before, r) && CanMove(r, last) && q == Next(r, last);
      PathClean(p, before, r);
      NextClean(r, last);
    }
  }

  lemma FreshClean(p: Pair)
    requires Fresh(p)
    requires Matched(p.a.session.config, p.b.session.config)
    requires SafePolicies(p.a.session.config, p.b.session.config)
    ensures Clean(p.a, p.b)
  {
    FreshFlows(p);
  }

  /** Matched sessions of safe policies never record a failure, in any interleaving and any chunking. */
  lemma NeverFails(p: Pair, q: Pair)
    requires Fresh(p) && Leads(p, q)
    requires Matched(p.a.session.config, p.b.session.config)
    requires SafePolicies(p.a.session.config, p.b.session.config)
    ensures q.a.session.log.failure == None && q.b.session.log.failure == None
    ensures BothWait(p.a.session.config, p.b.session.config) ==> !Fin(q.a.session) && !Fin(q.b.session)
  {
    var ms :| Path(p, ms, q);
    FreshClean(p);
    PathClean(p, ms, q);
    PathFlows(p, ms, q);
    PathConfigs(p, ms, q);
  }

  lemma {:induction false} PathConfigs(p: Pair, ms: seq<Move>, q: Pair)
    requires Path(p, ms, q)
    ensures q.a.session.config == p.a.session.config && q.b.session.config == p.b.session.config
    ensures q.a.session.tx.counter.slice == p.a.session.tx.counter.slice
    ensures q.a.session.rx.counter.slice == p.a.session.rx.counter.slice
    ensures q.b.session.tx.counter.slice == p.b.session.tx.counter.slice
    ensures q.b.session.rx.counter.slice == p.b.session.rx.counter.slice
    ensures q.a.capacity == p.a.capacity && q.b.capacity == p.b.capacity
    decreases |ms|
  {
    if ms != [] {
      var before, last := ms[..|ms| - 1], ms[|ms| - 1];
      var r :| Path(p, before, r) && CanMove(r, last) && q == Next(r, last);
      PathConfigs(p, before, r);
      var me := if last.byA then r.a else r.b;
      var e := EventOf(me, last.action);
      if e.Some? {
        StepMonotone(me.session, last.now, e.value);
      }
    }
  }
}

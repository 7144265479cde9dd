/** What each handler does to a TCP session, as far as the other end can tell. */
module ConnectionEffects {
  import opened Stream
  import opened SessionModel
  import opened SessionInvariant

  ghost predicate TcpInv(s: Session) {
    Inv(s) && s.config.protocol.Tcp?
  }

  /** The parts of a session that a handler of the other half leaves alone. */
  ghost predicate Quiet(s: Session, t: Session) {
    TcpInv(t) && t.config == s.config && t.started && t.log.mismatched == s.log.mismatched
  }

  ghost predicate SendAccepted(s: Session, t: Session, n: nat) {
    && Quiet(s, t) && t.rx == s.rx && t.log.failure == s.log.failure
    && t.tx.counter.bytes == s.tx.counter.bytes + n
    && (t.tx.op.SendThrottled? || t.tx.op.SendPending? || t.tx.op.SendFinished?)
    && (t.tx.op.SendFinished? <==> t.tx.counter.bytes >= s.config.size)
  }

  lemma SendAcceptedEffect(s: Session, now: int, n: nat)
    requires TcpInv(s) && Enabled(s, now, SendDone(Transferred(n), 0))
    ensures SendAccepted(s, Step(s, now, SendDone(Transferred(n), 0)), n)
  {
    StepKeeps(s, now, SendDone(Transferred(n), 0));
  }

  ghost predicate SendRefused(s: Session, t: Session) {
    && Quiet(s, t) && t.rx == s.rx && t.tx.op.SendStopped? && t.tx.counter == s.tx.counter
  }

  lemma SendRefusedEffect(s: Session, now: int, e: IoError)
    requires TcpInv(s) && Enabled(s, now, SendDone(Failed(e), 0))
    ensures SendRefused(s, Step(s, now, SendDone(Failed(e), 0)))
    ensures !e.OperationAborted? ==> Step(s, now, SendDone(Failed(e), 0)).log.failure.Some?
  {
    StepKeeps(s, now, SendDone(Failed(e), 0));
  }

  ghost predicate ReadAccepted(s: Session, t: Session, data: seq<Byte>) {
    && TcpInv(t) && t.config == s.config && t.started && t.tx == s.tx
    && t.rx.counter.bytes == s.rx.counter.bytes + |data|
    && (IsStream(data, s.rx.counter.bytes) ==> t.log.mismatched == s.log.mismatched && t.log.failure == s.log.failure)
    && (t.rx.op.ReceiveThrottled? || t.rx.op.ReceivePending? || t.rx.op.EofPending?)
    && (t.rx.op.EofPending? <==> t.rx.counter.bytes >= s.config.size)
  }

  lemma ReadAcceptedEffect(s: Session, now: int, data: seq<Byte>)
    requires TcpInv(s) && Enabled(s, now, ReceiveDone(Transferred(|data|), data))
    ensures ReadAccepted(s, Step(s, now, ReceiveDone(Transferred(|data|), data)), data)
  {
    StepKeeps(s, now, ReceiveDone(Transferred(|data|), data));
  }

  /** A read that ended the chain: by an error, by data after the end, or by an early end. */
  ghost predicate ReadRefused(s: Session, t: Session) {
    && Quiet(s, t) && t.tx == s.tx && t.rx.counter == s.rx.counter
    && (t.rx.op.ReceiveStopped? || t.rx.op.EofStopped?)
  }

  lemma ReadRefusedEffect(s: Session, now: int, e: Event)
    requires TcpInv(s) && Enabled(s, now, e)
    requires (e.ReceiveDone? && e.read.Failed?) || (e.EofDone? && e.end != Failed(EndOfFile))
    ensures ReadRefused(s, Step(s, now, e))
  {
    StepKeeps(s, now, e);
  }

  ghost predicate EndReached(s: Session, t: Session) {
    && Quiet(s, t) && t.tx == s.tx && t.rx.counter == s.rx.counter
    && t.log.failure == s.log.failure && t.rx.op.ReceiveFinished?
  }

  lemma EndReachedEffect(s: Session, now: int)
    requires TcpInv(s) && Enabled(s, now, EofDone(Failed(EndOfFile)))
    ensures EndReached(s, Step(s, now, EofDone(Failed(EndOfFile))))
  {
    StepKeeps(s, now, EofDone(Failed(EndOfFile)));
  }

  /** A throttle fired: the half goes from its wait to an operation, or back to the wait. */
  ghost predicate SliceGranted(s: Session, t: Session) {
    && Quiet(s, t) && t.log.failure == s.log.failure
    && t.tx.counter.bytes == s.tx.counter.bytes && t.rx.counter.bytes == s.rx.counter.bytes
    && (t.tx.op == s.tx.op || (s.tx.op.SendThrottled? && (t.tx.op.SendPending? || t.tx.op.SendThrottled?)))
    && (t.rx.op == s.rx.op || (s.rx.op.ReceiveThrottled? && (t.rx.op.ReceivePending? || t.rx.op.ReceiveThrottled?)))
  }

  lemma SendSliceEffect(s: Session, now: int)
    requires TcpInv(s) && Enabled(s, now, SendSliceStart(0))
    ensures SliceGranted(s, Step(s, now, SendSliceStart(0)))
    ensures Step(s, now, SendSliceStart(0)).rx == s.rx
    ensures s.tx.counter.slice > 0 ==> Step(s, now, SendSliceStart(0)).tx.op.SendPending?
  {
    StepKeeps(s, now, SendSliceStart(0));
  }

  lemma ReceiveSliceEffect(s: Session, now: int)
    requires TcpInv(s) && Enabled(s, now, ReceiveSliceStart)
    ensures SliceGranted(s, Step(s, now, ReceiveSliceStart))
    ensures Step(s, now, ReceiveSliceStart).tx == s.tx
    ensures s.rx.counter.slice > 0 ==> Step(s, now, ReceiveSliceStart).rx.op.ReceivePending?
  {
    StepKeeps(s, now, ReceiveSliceStart);
  }

  ghost predicate Begun(s: Session, t: Session) {
    && TcpInv(t) && t.config == s.config && t.started && t.log.mismatched == s.log.mismatched
    && t.log.failure == s.log.failure
    && t.tx.counter.bytes == t.rx.counter.bytes == 0
    && t.tx.op == (if s.config.direction.Rx? then SendFinished else SendThrottled)
    && t.rx.op == (if s.config.direction.Tx? then EofPending else ReceiveThrottled)
  }

  lemma BegunEffect(s: Session, now: int, later: int)
    requires TcpInv(s) && Enabled(s, now, Connected(later, 0))
    ensures Begun(s, Step(s, now, Connected(later, 0)))
  {
    StepKeeps(s, now, Connected(later, 0));
  }
}

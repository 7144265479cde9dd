/** The failure that a run leaves on record, told from the events of the run alone. */
module SessionVerdict {
  import opened Arithmetic
  import opened Configuration
  import opened Stream
  import opened SessionModel
  import opened SessionInvariant
  import opened SessionTheorems

  /** The bytes of a read are not what the mode looks for at that position of the stream. */
  ghost predicate WrongData(mode: Verify, position: nat, read: seq<Byte>, buffer: seq<Byte>) {
    match mode
    case VerifyNone => false
    case VerifyFirst => buffer != [] && buffer[0] != Low8(position)
    case VerifyAll => !IsStream(read, position)
  }

  /**
   * Why an event fails the session, if it does. A cancelled transfer does not, and neither does the
   * end of the stream where it is expected; a cancelled closing read does.
   */
  ghost function Cause(c: Config, e: Event, position: nat): Option<Error> {
    match e
    case Connected(_, _) => None
    case SendSliceStart(_) => None
    case ReceiveSliceStart => None
    case SendDone(Transferred(_), _) => None
    case SendDone(Failed(io), _) => if io.OperationAborted? then None else Some(Io(io))
    case ReceiveDone(Failed(io), _) =>
      if io.OperationAborted? then None else if io.EndOfFile? then Some(UnexpectedEof) else Some(Io(io))
    case ReceiveDone(Transferred(_), buffer) =>
      if WrongData(c.verify, position, DeliveredBy(e), buffer) then Some(DataMismatch) else None
    case EofDone(Failed(io)) => if io.EndOfFile? then None else Some(Io(io))
    case EofDone(Transferred(_)) => Some(UnexpectedData)
    case Timeout => Some(TestTimeout)
    case Signal(signal) =>
      Some(if signal == SigInt then UserInterrupt else if signal == SigTerm then ProgramTermination else UnknownSignal)
  }

  /** The cause of each event of a run, at the position of the stream that the run had reached before it. */
  ghost function Causes(c: Config, es: seq<Timed>): (causes: seq<Option<Error>>)
    ensures |causes| == |es|
    ensures forall k :: 0 <= k < |es| ==> causes[k] == Cause(c, es[k].event, |Delivered(es[..k])|)
  {
    seq(|es|, k requires 0 <= k < |es| => Cause(c, es[k].event, |Delivered(es[..k])|))
  }

  /** The verdict on a run: the last of the causes, and nothing exactly when there is none. */
  ghost predicate Verdict(causes: seq<Option<Error>>, failure: Option<Error>) {
    && (failure == None <==> forall k :: 0 <= k < |causes| ==> causes[k] == None)
    && forall k :: 0 <= k < |causes| && causes[k].Some? && (forall j :: k < j < |causes| ==> causes[j] == None)
                   ==> failure == causes[k]
  }

  lemma VerdictExtends(causes: seq<Option<Error>>, failure: Option<Error>, cause: Option<Error>)
    requires Verdict(causes, failure)
    ensures Verdict(causes + [cause], if cause.Some? then cause else failure)
  {
    var longer := causes + [cause];
    assert forall k :: 0 <= k < |causes| ==> longer[k] == causes[k];
    assert longer[|causes|] == cause;
    if cause == None && failure != None {
      forall k | 0 <= k < |longer| && longer[k].Some? && forall j :: k < j < |longer| ==> longer[j] == None
        ensures failure == longer[k]
      {
        assert forall j :: k < j < |causes| ==> causes[j] == longer[j];
      }
    }
  }

  lemma CausesExtend(c: Config, es: seq<Timed>, last: Timed)
    ensures Causes(c, es + [last]) == Causes(c, es) + [Cause(c, last.event, |Delivered(es)|)]
  {
    var longer := es + [last];
    assert longer[..|es|] == es;
    forall k | 0 <= k < |es| ensures longer[..k] == es[..k] {
    }
  }

  lemma StepVerdict(s: Session, now: int, e: Event)
    requires Enabled(s, now, e)
    ensures var cause := Cause(s.config, e, s.rx.counter.bytes);
            Step(s, now, e).log.failure == if cause.Some? then cause else s.log.failure
  {
    if e.ReceiveDone? && e.read.Transferred? {
      var n := e.read.count;
      assert DeliveredBy(e) == e.buffer[..n];
      assert forall i :: 0 <= i < n ==> e.buffer[..n][i] == e.buffer[i];
      assert WrongData(s.config.verify, s.rx.counter.bytes, DeliveredBy(e), e.buffer)
          <==> Mismatch(s.config.verify, s.rx.counter.bytes, e.buffer, n);
    }
  }

  lemma LastEventVerdict(c: Config, start: int, es: seq<Timed>, s: Session)
    returns (m: Session, cause: Option<Error>)
    requires Accepted(c) && InRange(c) && es != []
    requires Run(Initial(c, start), es, s)
    ensures Run(Initial(c, start), es[..|es| - 1], m)
    ensures Causes(c, es) == Causes(c, es[..|es| - 1]) + [cause]
    ensures s.log.failure == if cause.Some? then cause else m.log.failure
  {
    var before, last := es[..|es| - 1], es[|es| - 1];
    m :| Run(Initial(c, start), before, m)
         && Enabled(m, last.now, last.event) && s == Step(m, last.now, last.event);
    InitialInv(c, start);
    RunKeeps(Initial(c, start), before, m);
    VerifyAllIsWholeStream(c, start, before, m);
    cause := Cause(c, last.event, |Delivered(before)|);
    StepVerdict(m, last.now, last.event);
    CausesExtend(c, before, last);
    assert es == before + [last];
  }

  /** Over any run, the failure on record is the verdict on its events. */
  lemma {:induction false} VerdictIsLastCause(c: Config, start: int, es: seq<Timed>, s: Session)
    requires Accepted(c) && InRange(c)
    requires Run(Initial(c, start), es, s)
    ensures Verdict(Causes(c, es), s.log.failure)
    decreases |es|
  {
    if es != [] {
      var m, cause := LastEventVerdict(c, start, es, s);
      VerdictIsLastCause(c, start, es[..|es| - 1], m);
      VerdictExtends(Causes(c, es[..|es| - 1]), m.log.failure, cause);
    }
  }

  /** The wait for signals is used up by the first one: no run sees a second. */
  lemma {:induction false} OneSignal(c: Config, start: int, es: seq<Timed>, s: Session)
    requires c.frequency > 0 && Run(Initial(c, start), es, s)
    ensures s.log.signalled <==> exists k: nat :: SignalAt(es, k)
    ensures forall j: nat, k: nat :: SignalAt(es, j) && SignalAt(es, k) ==> j == k
    decreases |es|
  {
    if es != [] {
      var before, last := es[..|es| - 1], es[|es| - 1];
      var m :| Run(Initial(c, start), before, m)
               && Enabled(m, last.now, last.event) && s == Step(m, last.now, last.event);
      OneSignal(c, start, before, m);
      StepSignals(m, last.now, last.event);
      SignalsOfPrefix(before, last);
      assert es == before + [last];
      assert last.event.Signal? ==> SignalAt(es, |before|);
    }
  }

  lemma SignalsOfPrefix(es: seq<Timed>, last: Timed)
    ensures forall k: nat :: SignalAt(es + [last], k) <==> SignalAt(es, k) || (k == |es| && last.event.Signal?)
  {
  }

  ghost predicate SignalAt(es: seq<Timed>, k: nat) {
    k < |es| && es[k].event.Signal?
  }

  lemma StepSignals(s: Session, now: int, e: Event)
    requires Enabled(s, now, e)
    ensures Step(s, now, e).log.signalled <==> s.log.signalled || e.Signal?
    ensures e.Signal? ==> !s.log.signalled
  {
  }
}

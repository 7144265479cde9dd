/** How the application ends: when threads leave their loops, and which applications can end quietly. */
module ApplicationExit {
  import opened Arithmetic
  import opened SessionModel
  import opened SessionInvariant
  import opened SessionTheorems
  import opened SessionCompletion
  import opened Application

  lemma TurnsExtend(app: App, ts: seq<Turn>, mid: App, t: Turn)
    requires Turns(app, ts, mid) && CanTurn(mid, t)
    ensures Turns(app, ts + [t], Turned(mid, t))
  {
    var longer := ts + [t];
    assert longer[..|longer| - 1] == ts;
    assert Turns(app, longer, Turned(mid, t));
  }

  // ---------- leaving the loop ----------

  predicate OfThread(t: Turn, i: nat) {
    !t.ProcessSignal? && t.i == i
  }

  /** The turns that thread i takes in a sequence of turns. */
  function TurnsOf(ts: seq<Turn>, i: nat): nat {
    if ts == [] then 0 else TurnsOf(ts[..|ts| - 1], i) + if OfThread(ts[|ts| - 1], i) then 1 else 0
  }

  /** The turns that a thread has left once its loop must end: one poll at most, and the check that ends it. */
  function TurnsLeft(thread: Thread): nat {
    match thread
    case Polling => 2
    case Checking => 1
    case Exited => 0
  }

  /** The loop of thread i must end: exit is requested, or its io_service has stopped. */
  ghost predicate MustLeave(app: App, i: nat) {
    i < |app.threads| == |app.stopped| && (app.exitRequested || app.stopped[i])
  }

  lemma TurnLeaves(app: App, t: Turn, i: nat)
    requires MustLeave(app, i) && CanTurn(app, t)
    ensures MustLeave(Turned(app, t), i)
    ensures TurnsLeft(Turned(app, t).threads[i]) == TurnsLeft(app.threads[i]) - if OfThread(t, i) then 1 else 0
  {
  }

  /** Once its loop must end, a thread takes at most two more turns in any sequence, and has exited after as many. */
  lemma {:induction false} LeavesLoop(app: App, ts: seq<Turn>, end: App, i: nat)
    requires MustLeave(app, i) && Turns(app, ts, end)
    ensures MustLeave(end, i)
    ensures TurnsOf(ts, i) == TurnsLeft(app.threads[i]) - TurnsLeft(end.threads[i])
    decreases |ts|
  {
    if ts != [] {
      var before, last := ts[..|ts| - 1], ts[|ts| - 1];
      var mid :| Turns(app, before, mid) && CanTurn(mid, last) && end == Turned(mid, last);
      LeavesLoop(app, before, mid, i);
      TurnLeaves(mid, last, i);
    }
  }

  /** A thread can take a turn exactly until it has exited. */
  lemma ExitedExactly(app: App, i: nat)
    requires i < |app.threads| == |app.stopped|
    ensures app.threads[i].Exited? <==> forall t :: OfThread(t, i) ==> !CanTurn(app, t)
  {
    if app.threads[i].Checking? {
      assert OfThread(Check(i), i) && CanTurn(app, Check(i));
    } else if app.threads[i].Polling? {
      assert OfThread(PollNothing(i), i) && CanTurn(app, PollNothing(i));
    }
  }

  /** Handlers that thread i runs in a sequence of turns. */
  function HandlersRun(ts: seq<Turn>, i: nat): nat
    decreases |ts|
  {
    if ts == [] then 0
    else HandlersRun(ts[..|ts| - 1], i) + if ts[|ts| - 1].PollHandler? && ts[|ts| - 1].i == i then 1 else 0
  }

  /** Once exit is requested, each thread runs at most the one handler it was about to poll for. */
  lemma {:induction false} OneHandlerAfterExit(app: App, ts: seq<Turn>, end: App, i: nat)
    requires app.exitRequested && i < |app.threads| && |app.threads| == |app.stopped|
    requires Turns(app, ts, end)
    ensures end.exitRequested && |end.threads| == |app.threads| == |end.stopped|
    ensures HandlersRun(ts, i) + (if end.threads[i].Polling? then 1 else 0)
            <= (if app.threads[i].Polling? then 1 else 0)
    decreases |ts|
  {
    if ts != [] {
      var before, last := ts[..|ts| - 1], ts[|ts| - 1];
      var mid :| Turns(app, before, mid) && CanTurn(mid, last) && end == Turned(mid, last);
      OneHandlerAfterExit(app, before, mid, i);
    }
  }

  // ---------- a process signal ----------

  /** With exit requested, the threads from k on leave their loops one after the other. */
  lemma {:induction false} LeaveLoops(app: App, ts: seq<Turn>, mid: App, k: nat) returns (all: seq<Turn>, end: App)
    requires Turns(app, ts, mid) && mid.exitRequested
    requires k <= |mid.threads| == |mid.stopped| && |mid.threads| > 0
    requires forall i :: 0 <= i < k ==> mid.threads[i].Exited?
    requires forall i :: k <= i < |mid.threads| ==> mid.threads[i].Checking?
    ensures Turns(app, all, end) && Joined(end) && end.sessions == mid.sessions
    decreases |mid.threads| - k
  {
    if k == |mid.threads| {
      return ts, mid;
    }
    TurnsExtend(app, ts, mid, Check(k));
    all, end := LeaveLoops(app, ts + [Check(k)], Turned(mid, Check(k)), k + 1);
  }

  /**
   * Without that proviso it is false: a process signal can end any application that has a session
   * quietly, with no failure to report and no session even started.
   */
  lemma ProcessSignalExitsQuietly(app: App) returns (ts: seq<Turn>, end: App)
    requires Startup(app) && app.sessions != []
    ensures Turns(app, ts, end) && Joined(end)
    ensures IsFirstFailure(Failures(end), None)
    ensures |end.sessions| == |app.sessions| && forall j :: 0 <= j < |end.sessions| ==> !end.sessions[j].started
    ensures exists j :: 0 <= j < |end.sessions| && !Finished(end.sessions[j])
  {
    var none: seq<Turn> := [];
    assert Turns(app, none, app);
    TurnsExtend(app, none, app, ProcessSignal);
    ts, end := LeaveLoops(app, none + [ProcessSignal], Turned(app, ProcessSignal), 0);
    assert !Finished(end.sessions[0]);
  }

  // ---------- a quiet end ----------

  /** Nothing has failed, nobody asked for an exit, and no session has anything pending. */
  ghost predicate AllIdle(app: App) {
    && AppInv(app) && !app.osExit
    && forall j :: 0 <= j < |app.sessions| ==> app.sessions[j].log.failure.None? && !HasWork(app.sessions[j])
  }

  /** The turns that thread k needs to see its io_service stop and leave. */
  function TurnsNeeded(thread: Thread, stopped: bool): nat {
    match thread
    case Exited => 0
    case Checking => if stopped then 1 else 3
    case Polling => 2
  }

  /** Threads from k on find their io_services out of work and leave. */
  lemma {:induction false} LeaveWhenIdle(app: App, ts: seq<Turn>, mid: App, k: nat) returns (all: seq<Turn>, end: App)
    requires Turns(app, ts, mid) && AllIdle(mid) && k <= |mid.threads|
    requires forall i :: 0 <= i < k ==> mid.threads[i].Exited?
    ensures Turns(app, all, end) && Joined(end) && AllIdle(end) && end.sessions == mid.sessions
    decreases |mid.threads| - k, if k < |mid.threads| then TurnsNeeded(mid.threads[k], mid.stopped[k]) else 0
  {
    if k == |mid.threads| {
      return ts, mid;
    }
    if mid.threads[k].Exited? {
      all, end := LeaveWhenIdle(app, ts, mid, k + 1);
      return;
    }
    var t := if mid.threads[k].Checking? then Check(k) else PollStops(k);
    assert MayStop(mid, k);
    TurnsExtend(app, ts, mid, t);
    TurnKeeps(mid, t);
    all, end := LeaveWhenIdle(app, ts + [t], Turned(mid, t), k);
  }

  /** With nothing failed and nothing pending, some turns lead to a quiet end: threads joined, no failure to report. */
  lemma IdleCanExit(app: App) returns (ts: seq<Turn>, end: App)
    requires AllIdle(app)
    ensures Turns(app, ts, end) && Joined(end) && !end.osExit
    ensures IsFirstFailure(Failures(end), None)
  {
    var none: seq<Turn> := [];
    assert Turns(app, none, app);
    ts, end := LeaveWhenIdle(app, none, app, 0);
  }

  // ---------- every session at its turn ----------

  /** All threads are about to check, and have nothing to leave for. */
  ghost predicate Running(app: App) {
    && |app.threads| == |app.stopped| > 0
    && (forall i :: 0 <= i < |app.threads| ==> app.threads[i].Checking? && !app.stopped[i])
    && !app.exitRequested && !app.osExit
  }

  function WithSession(app: App, j: nat, s: Session): App
    requires j < |app.sessions|
  {
    app.(sessions := app.sessions[j := s])
  }

  /** The thread of session j checks, and polls one handler of it that does not fail. */
  lemma PollOnce(app: App, ts: seq<Turn>, mid: App, j: nat, e: Timed) returns (longer: seq<Turn>)
    requires Turns(app, ts, mid) && Running(mid) && j < |mid.sessions|
    requires Enabled(mid.sessions[j], e.now, e.event)
    requires Step(mid.sessions[j], e.now, e.event).log.failure.None?
    ensures Turns(app, longer, WithSession(mid, j, Step(mid.sessions[j], e.now, e.event)))
  {
    var i := j % |mid.threads|;
    TurnsExtend(app, ts, mid, Check(i));
    var polling := Turned(mid, Check(i));
    var poll := PollHandler(i, j, e.now, e.event);
    TurnsExtend(app, ts + [Check(i)], polling, poll);
    longer := ts + [Check(i)] + [poll];
    assert Turned(polling, poll).threads == mid.threads;
    assert Turned(polling, poll) == WithSession(mid, j, Step(mid.sessions[j], e.now, e.event));
  }

  /** A run of session j without a failure is a sequence of turns of its thread. */
  lemma {:induction false} RunAsTurns(app: App, ts: seq<Turn>, mid: App, j: nat, es: seq<Timed>, s: Session)
    returns (longer: seq<Turn>)
    requires Turns(app, ts, mid) && Running(mid) && j < |mid.sessions|
    requires Run(mid.sessions[j], es, s) && s.log.failure.None?
    ensures Turns(app, longer, WithSession(mid, j, s))
    decreases |es|
  {
    if es == [] {
      assert WithSession(mid, j, s) == mid;
      return ts;
    }
    var before, last := es[..|es| - 1], es[|es| - 1];
    var m :| Run(mid.sessions[j], before, m) && Enabled(m, last.now, last.event) && s == Step(m, last.now, last.event);
    StepMonotone(m, last.now, last.event);
    longer := RunAsTurns(app, ts, mid, j, before, m);
    longer := PollOnce(app, longer, WithSession(mid, j, m), j, last);
    assert WithSession(WithSession(mid, j, m), j, s) == WithSession(mid, j, s);
  }

  /** Sessions from j on finish one after the other. */
  lemma {:induction false} FinishAll(app: App, ts: seq<Turn>, mid: App, j: nat) returns (all: seq<Turn>, end: App)
    requires Startup(app) && Turns(app, ts, mid) && Running(mid)
    requires j <= |mid.sessions| == |app.sessions|
    requires forall k :: 0 <= k < j ==> Finished(mid.sessions[k]) && mid.sessions[k].log.failure.None?
    requires forall k :: j <= k < |mid.sessions| ==>
               mid.sessions[k] == app.sessions[k] && Finishable(app.sessions[k].config)
    ensures Turns(app, all, end) && Running(end)
    ensures forall k :: 0 <= k < |end.sessions| ==> Finished(end.sessions[k]) && end.sessions[k].log.failure.None?
    decreases |mid.sessions| - j
  {
    if j == |mid.sessions| {
      return ts, mid;
    }
    var s := app.sessions[j];
    var es, t := FinishingRun(s.config, s.clock);
    var longer := RunAsTurns(app, ts, mid, j, es, t);
    all, end := FinishAll(app, longer, WithSession(mid, j, t), j + 1);
  }

  ghost predicate QuietEnd(app: App, ts: seq<Turn>, end: App) {
    Turns(app, ts, end) && Joined(end) && !end.osExit && IsFirstFailure(Failures(end), None)
  }

  lemma CanEndQuietly(app: App) returns (ts: seq<Turn>, end: App)
    requires Startup(app) && forall j :: 0 <= j < |app.sessions| ==> Finishable(app.sessions[j].config)
    ensures QuietEnd(app, ts, end)
  {
    StartupInv(app);
    var none: seq<Turn> := [];
    assert Turns(app, none, app);
    var some, mid := FinishAll(app, none, app, 0);
    TurnsKeep(app, some, mid);
    forall j | 0 <= j < |mid.sessions| ensures !HasWork(mid.sessions[j]) {
      OutOfWork(mid.sessions[j]);
    }
    ts, end := LeaveWhenIdle(app, some, mid, 0);
  }

  /** What the turns of the threads do to one session is a run of that session. */
  lemma {:induction false} SessionRuns(app: App, ts: seq<Turn>, end: App, j: nat)
    requires Turns(app, ts, end) && j < |app.sessions|
    ensures j < |end.sessions| && exists es :: Run(app.sessions[j], es, end.sessions[j])
    decreases |ts|
  {
    if ts == [] {
      assert Run(app.sessions[j], [], end.sessions[j]);
    } else {
      var before, last := ts[..|ts| - 1], ts[|ts| - 1];
      var mid :| Turns(app, before, mid) && CanTurn(mid, last) && end == Turned(mid, last);
      SessionRuns(app, before, mid, j);
      var es :| Run(app.sessions[j], es, mid.sessions[j]);
      if last.PollHandler? && last.j == j {
        RunExtends(app.sessions[j], es, mid.sessions[j], Timed(last.now, last.event));
        assert Run(app.sessions[j], es + [Timed(last.now, last.event)], end.sessions[j]);
      } else {
        assert end.sessions[j] == mid.sessions[j];
      }
    }
  }

  lemma QuietEndFinishable(app: App, ts: seq<Turn>, end: App, j: nat)
    requires Startup(app) && QuietEnd(app, ts, end) && j < |app.sessions|
    ensures Finishable(app.sessions[j].config)
  {
    var s := app.sessions[j];
    QuietExitMeansAllDone(app, ts, end, None);
    SessionRuns(app, ts, end, j);
    var es :| Run(s, es, end.sessions[j]);
    assert Done(s.config, end.sessions[j]);
    FinishedWasFinishable(s.config, s.clock, es, end.sessions[j]);
  }

  /**
   * An application can end without a failure and without a process signal exactly when each of its
   * sessions has room to move.
   */
  lemma QuietEndExactly(app: App)
    requires Startup(app)
    ensures (exists ts, end :: QuietEnd(app, ts, end))
            <==> forall j :: 0 <= j < |app.sessions| ==> Finishable(app.sessions[j].config)
  {
    if forall j :: 0 <= j < |app.sessions| ==> Finishable(app.sessions[j].config) {
      var ts, end := CanEndQuietly(app);
      assert QuietEnd(app, ts, end);
    }
    if exists ts, end :: QuietEnd(app, ts, end) {
      var ts, end :| QuietEnd(app, ts, end);
      forall j | 0 <= j < |app.sessions| ensures Finishable(app.sessions[j].config) {
        QuietEndFinishable(app, ts, end, j);
      }
    }
  }
}

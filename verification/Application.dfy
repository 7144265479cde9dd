/**
 * The application: sessions spread over single-threaded io_services, threads that poll until exit
 * is requested or their io_service has run out of work, and the outcome reported after joining them.
 */
module Application {
  import opened Arithmetic
  import opened Configuration
  import opened SessionModel
  import opened SessionInvariant
  import opened SessionTheorems

  // ---------- placement ----------

  /** How many sessions are placed on io_service i. */
  function Load(placement: seq<nat>, i: nat): nat {
    if placement == [] then 0
    else Load(placement[..|placement| - 1], i) + if placement[|placement| - 1] == i then 1 else 0
  }

  /**
   * One io_service, with its thread, per listed core, to which the thread is pinned, or a single one
   * that is not pinned; the m sessions go to them in turn, so their loads differ by at most one.
   */
  method Place(m: nat, cores: seq<nat>) returns (placement: seq<nat>, pins: seq<Option<nat>>)
    ensures cores == [] ==> pins == [None]
    ensures cores != [] ==> |pins| == |cores| && forall i :: 0 <= i < |pins| ==> pins[i] == Some(cores[i])
    ensures |placement| == m && forall k :: 0 <= k < m ==> placement[k] == k % |pins|
    ensures forall i: nat :: i < |pins| ==> Load(placement, i) == m / |pins| + if i < m % |pins| then 1 else 0
  {
    var n := if cores == [] then 1 else |cores|;
    placement := [];
    var i := 0;
    while |placement| != m
      invariant i == |placement| <= m
      invariant forall k :: 0 <= k < i ==> placement[k] == k % n
    {
      placement := placement + [i % n];
      i := i + 1;
    }
    pins := [];
    i := 0;
    while i != n
      invariant i == |pins| <= n
      invariant forall k :: 0 <= k < i ==> pins[k] == if k < |cores| then Some(cores[k]) else None
    {
      pins := pins + [if i >= |cores| then None else Some(cores[i])];
      i := i + 1;
    }
    forall i: nat | i < n ensures Load(placement, i) == m / n + if i < m % n then 1 else 0 {
      LoadBalanced(placement, n, i);
    }
  }

  lemma DivModSuccessor(m: nat, n: nat)
    requires n > 0
    ensures if m % n + 1 == n then (m + 1) % n == 0 && (m + 1) / n == m / n + 1
            else (m + 1) % n == m % n + 1 && (m + 1) / n == m / n
  {
    var q, r := m / n, m % n;
    DivBound(m, n);
    assert m == q * n + r;
    if r + 1 == n {
      assert (q + 1) * n == q * n + n;
      DivModUnique(m + 1, n, q + 1, 0);
    } else {
      DivModUnique(m + 1, n, q, r + 1);
    }
  }

  lemma DivModUnique(m: nat, n: nat, q: nat, r: nat)
    requires n > 0 && r < n && m == q * n + r
    ensures m / n == q && m % n == r
  {
    var p := m / n;
    DivBound(m, n);
    assert (p + 1) * n == p * n + n && (q + 1) * n == q * n + n;
    if p < q {
      MulMonotone(p + 1, q, n);
    } else if p > q {
      MulMonotone(q + 1, p, n);
    }
  }

  /** Round robin gives the first io_services, as many as are left over, one session more than the others. */
  lemma {:induction false} LoadBalanced(placement: seq<nat>, n: nat, i: nat)
    requires i < n && forall k :: 0 <= k < |placement| ==> placement[k] == k % n
    ensures Load(placement, i) == |placement| / n + if i < |placement| % n then 1 else 0
  {
    if placement == [] {
      DivModUnique(0, n, 0, 0);
    } else {
      var m := |placement| - 1;
      LoadBalanced(placement[..m], n, i);
      DivModSuccessor(m, n);
    }
  }

  // ---------- reporting ----------

  /** The failure reported: that of the first failed session in configuration order. */
  ghost predicate IsFirstFailure(failures: seq<Option<Error>>, result: Option<Error>) {
    match result
    case None => forall k :: 0 <= k < |failures| ==> failures[k] == None
    case Some(e) => exists k :: 0 <= k < |failures| && failures[k] == Some(e)
                                && forall j :: 0 <= j < k ==> failures[j] == None
  }

  method FirstFailure(failures: seq<Option<Error>>) returns (first: Option<Error>)
    ensures IsFirstFailure(failures, first)
  {
    first := None;
    ghost var at := 0;
    for i := 0 to |failures|
      invariant 0 <= at <= i
      invariant forall j :: 0 <= j < at ==> failures[j] == None
      invariant if first.Some? then at < i && failures[at] == first else at == i
    {
      var failure := failures[i];
      if failure != None && first == None {
        first := failure;
      }
      if first == None {
        at := i + 1;
      }
    }
  }

  // ---------- threads ----------

  /** Where a thread is in its polling loop. */
  datatype Thread = Checking | Polling | Exited

  datatype App = App(
    sessions: seq<Session>,
    threads: seq<Thread>,
    stopped: seq<bool>,   // per io_service
    exitRequested: bool,  // shared by every thread
    osExit: bool)         // exit was requested by a process signal, not by a session

  datatype Turn =
    | Check(i: nat)
    | PollHandler(i: nat, j: nat, now: int, event: Event)
    | PollNothing(i: nat)
    | PollStops(i: nat)
    | ProcessSignal

  ghost predicate Finished(s: Session) {
    s.log.finishes > 0
  }

  /** An io_service stops when none of its sessions has anything pending. */
  ghost predicate MayStop(app: App, i: nat)
    requires |app.threads| > 0
  {
    forall j :: 0 <= j < |app.sessions| && j % |app.threads| == i ==> !HasWork(app.sessions[j])
  }

  ghost predicate CanTurn(app: App, t: Turn) {
    && |app.threads| == |app.stopped| > 0
    && match t
       case Check(i) => i < |app.threads| && app.threads[i].Checking?
       case PollHandler(i, j, now, e) =>
         && i < |app.threads| && app.threads[i].Polling? && !app.stopped[i]
         && j < |app.sessions| && j % |app.threads| == i
         && Enabled(app.sessions[j], now, e)
       case PollNothing(i) => i < |app.threads| && app.threads[i].Polling?
       case PollStops(i) => i < |app.threads| && app.threads[i].Polling? && MayStop(app, i)
       case ProcessSignal => !app.exitRequested // otherwise the handler aborts the whole process
  }

  /** A handler that fails its session requests the exit of the application. */
  ghost function Turned(app: App, t: Turn): App
    requires CanTurn(app, t)
  {
    match t
    case Check(i) =>
      app.(threads := app.threads[i := if !app.exitRequested && !app.stopped[i] then Polling else Exited])
    case PollHandler(i, j, now, e) =>
      var s := Step(app.sessions[j], now, e);
      app.(sessions := app.sessions[j := s],
           threads := app.threads[i := Checking],
           exitRequested := app.exitRequested || s.log.failure.Some?)
    case PollNothing(i) => app.(threads := app.threads[i := Checking])
    case PollStops(i) => app.(threads := app.threads[i := Checking], stopped := app.stopped[i := true])
    case ProcessSignal => app.(exitRequested := true, osExit := true)
  }

  ghost predicate Turns(app: App, ts: seq<Turn>, end: App)
    decreases |ts|
  {
    if ts == [] then app == end
    else
      var before, last := ts[..|ts| - 1], ts[|ts| - 1];
      exists mid :: Turns(app, before, mid) && CanTurn(mid, last) && end == Turned(mid, last)
  }

  ghost predicate Startup(app: App) {
    && |app.threads| == |app.stopped| > 0
    && (forall i :: 0 <= i < |app.threads| ==> app.threads[i].Checking? && !app.stopped[i])
    && !app.exitRequested && !app.osExit
    && forall j :: 0 <= j < |app.sessions| ==>
         var s := app.sessions[j];
         Accepted(s.config) && InRange(s.config) && s == Initial(s.config, s.clock)
  }

  ghost predicate Joined(app: App) {
    forall i :: 0 <= i < |app.threads| ==> app.threads[i].Exited?
  }

  function Failures(app: App): (f: seq<Option<Error>>)
    ensures |f| == |app.sessions|
    ensures forall j :: 0 <= j < |f| ==> f[j] == app.sessions[j].log.failure
  {
    seq(|app.sessions|, j requires 0 <= j < |app.sessions| => app.sessions[j].log.failure)
  }

  ghost predicate AppInv(app: App) {
    && |app.threads| == |app.stopped| > 0
    && (forall j :: 0 <= j < |app.sessions| ==> Inv(app.sessions[j]))
    && (forall j :: 0 <= j < |app.sessions| && app.sessions[j].log.failure.Some? ==> app.exitRequested)
    && (app.exitRequested ==> app.osExit || exists j :: 0 <= j < |app.sessions| && app.sessions[j].log.failure.Some?)
    && (forall i :: 0 <= i < |app.threads| && app.stopped[i] ==> MayStop(app, i))
    && (forall i :: 0 <= i < |app.threads| && app.threads[i].Exited? ==> app.exitRequested || app.stopped[i])
  }

  lemma HandlerKeeps(app: App, i: nat, j: nat, now: int, e: Event)
    requires AppInv(app) && CanTurn(app, PollHandler(i, j, now, e))
    ensures AppInv(Turned(app, PollHandler(i, j, now, e)))
  {
    var s := app.sessions[j];
    StepKeeps(s, now, e);
    StepMonotone(s, now, e);
    var end := Turned(app, PollHandler(i, j, now, e));
    forall k | 0 <= k < |end.threads| && end.stopped[k] ensures MayStop(end, k) {
      assert MayStop(app, k);
    }
    if end.exitRequested && !end.osExit {
      if app.exitRequested {
        var k :| 0 <= k < |app.sessions| && app.sessions[k].log.failure.Some?;
        assert end.sessions[k].log.failure.Some?;
      } else {
        assert end.sessions[j].log.failure.Some?;
      }
    }
  }

  lemma TurnKeeps(app: App, t: Turn)
    requires AppInv(app) && CanTurn(app, t)
    ensures AppInv(Turned(app, t))
  {
    var end := Turned(app, t);
    if t.PollHandler? {
      HandlerKeeps(app, t.i, t.j, t.now, t.event);
    } else {
      assert end.sessions == app.sessions;
      forall k | 0 <= k < |end.threads| && end.stopped[k] ensures MayStop(end, k) {
        assert app.stopped[k] ==> MayStop(app, k);
      }
    }
  }

  /** What no turn takes back: configurations, and failures once recorded. */
  ghost predicate Advances(app: App, end: App) {
    && |end.sessions| == |app.sessions| && |end.threads| == |app.threads|
    && (app.exitRequested ==> end.exitRequested)
    && forall j :: 0 <= j < |app.sessions| ==> Monotone(app.sessions[j], end.sessions[j])
  }

  lemma TurnAdvances(app: App, t: Turn)
    requires CanTurn(app, t)
    ensures Advances(app, Turned(app, t))
  {
    if t.PollHandler? {
      StepMonotone(app.sessions[t.j], t.now, t.event);
    }
  }

  lemma AdvancesTransitive(a: App, b: App, c: App)
    requires Advances(a, b) && Advances(b, c)
    ensures Advances(a, c)
  {
    forall j | 0 <= j < |a.sessions| ensures Monotone(a.sessions[j], c.sessions[j]) {
      assert Monotone(a.sessions[j], b.sessions[j]) && Monotone(b.sessions[j], c.sessions[j]);
    }
  }

  lemma {:induction false} TurnsKeep(app: App, ts: seq<Turn>, end: App)
    requires AppInv(app) && Turns(app, ts, end)
    ensures AppInv(end) && Advances(app, end)
    decreases |ts|
  {
    if ts != [] {
      var before, last := ts[..|ts| - 1], ts[|ts| - 1];
      var mid :| Turns(app, before, mid) && CanTurn(mid, last) && end == Turned(mid, last);
      TurnsKeep(app, before, mid);
      TurnKeeps(mid, last);
      TurnAdvances(mid, last);
      AdvancesTransitive(app, mid, end);
    }
  }

  lemma StartupInv(app: App)
    requires Startup(app)
    ensures AppInv(app)
  {
    forall j | 0 <= j < |app.sessions| ensures Inv(app.sessions[j]) && app.sessions[j].log.failure.None? {
      InitialInv(app.sessions[j].config, app.sessions[j].clock);
    }
  }

  /**
   * If every thread has been joined without a process signal and no failure is reported, every
   * session has finished, and has transferred its size in each of its directions.
   */
  lemma QuietExitMeansAllDone(app: App, ts: seq<Turn>, end: App, result: Option<Error>)
    requires Startup(app) && Turns(app, ts, end) && Joined(end)
    requires IsFirstFailure(Failures(end), result)
    ensures |end.sessions| == |app.sessions|
    ensures result == None && !end.osExit ==>
              forall j :: 0 <= j < |end.sessions| ==> Done(app.sessions[j].config, end.sessions[j])
    ensures result.Some? ==> exists j :: 0 <= j < |end.sessions| && end.sessions[j].log.failure == result
    ensures result == None <==> forall j :: 0 <= j < |end.sessions| ==> end.sessions[j].log.failure == None
  {
    StartupInv(app);
    TurnsKeep(app, ts, end);
    assert forall j :: 0 <= j < |end.sessions| ==> Failures(end)[j] == end.sessions[j].log.failure;
    if result == None && !end.osExit {
      assert !end.exitRequested;
      forall j | 0 <= j < |end.sessions| ensures Done(app.sessions[j].config, end.sessions[j]) {
        assert Failures(end)[j] == None;
        assert Monotone(app.sessions[j], end.sessions[j]);
        var i := j % |end.threads|;
        assert end.threads[i].Exited? && end.stopped[i];
        assert MayStop(end, i);
        OutOfWork(end.sessions[j]);
      }
    } else if result.Some? {
      var k :| 0 <= k < |Failures(end)| && Failures(end)[k] == Some(result.value);
      assert end.sessions[k].log.failure == result;
    }
  }

  ghost predicate Done(c: Config, s: Session) {
    && s.config == c
    && Finished(s)
    && s.tx.counter.bytes == (if c.direction.Rx? then 0 else c.size)
    && (!c.direction.Tx? ==> s.rx.counter.bytes >= c.size)
  }
}

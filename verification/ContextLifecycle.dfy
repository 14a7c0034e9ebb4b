/** The order of a run's events, what a shutdown reports, and when a start is announced. */
module ContextLifecycle {
  import opened ContextSteps
  import opened ContextInvariants
  import opened ContextProper

  // ----- the theorem -----

  /** In every interleaving, every event has behind it what it must have. */
  lemma {:induction false} EveryRunIsProper(c: Config, actions: seq<Action>, s: State)
    requires Run(c, actions, s)
    ensures AllProper(c, s.log)
    ensures InitInvariant(c, s) && RunInvariant(c, s) && ShutInvariant(c, s) && BootInvariant(s)
    ensures WorkFits(c, s.log, s.inFlight) && DrainFits(c, s.log, s.drained)
    decreases |actions|
  {
    if actions != [] {
      var n := |actions| - 1;
      var before :| Run(c, actions[..n], before) && Enabled(c, before, actions[n]) && s == Next(c, before, actions[n]);
      EveryRunIsProper(c, actions[..n], before);
      InitStep(c, before, actions[n]);
      BootStep(c, before, actions[n]);
      RunStep(c, before, actions[n]);
      ShutStep(c, before, actions[n]);
      WorkStep(c, before, actions[n]);
      DrainStep(c, before, actions[n]);
      if Bootstraps(actions[n]) { ProperBootstraps(c, before, actions[n]); }
      else if Runs(actions[n]) { ProperRuns(c, before, actions[n]); }
      else { ProperWorld(c, before, actions[n]); }
    }
  }

  // ----- consequences for whole runs -----

  lemma {:induction false} ProperAt(c: Config, actions: seq<Action>, s: State, n: nat)
    requires Run(c, actions, s) && n < |s.log|
    ensures Proper(c, s.log[..n], s.log[n])
  {
    EveryRunIsProper(c, actions, s);
    ProperEverywhere(c, s.log, n);
  }

  /** Teardowns come in strictly descending plugin order, so none happens twice. */
  lemma {:induction false} TeardownsDescend(c: Config, actions: seq<Action>, s: State, p: nat, q: nat)
    requires Run(c, actions, s) && p < q < |s.log|
    requires s.log[p].PluginStopping? && s.log[q].PluginStopping?
    ensures s.log[q].i < s.log[p].i
    ensures PluginApplied(s.log[q].i) in s.log[..q] && PluginApplied(s.log[p].i) in s.log[..p]
  {
    ProperAt(c, actions, s, p);
    ProperAt(c, actions, s, q);
    assert s.log[..q][p] == s.log[p];
  }

  /** Start hooks are launched in strictly ascending order, after the gate and before any stop. */
  lemma {:induction false} HooksAscend(c: Config, actions: seq<Action>, s: State, p: nat, q: nat)
    requires Run(c, actions, s) && p < q < |s.log|
    requires s.log[q].PluginStarting?
    ensures s.log[p].PluginStarting? ==> s.log[p].i < s.log[q].i
    ensures s.log[p] != ContextStopping
    ensures GateSettled in s.log[..q]
  {
    ProperAt(c, actions, s, q);
    assert s.log[..q][p] == s.log[p];
  }

  /** Readiness settles at most once. */
  lemma {:induction false} ReadinessSettlesOnce(c: Config, actions: seq<Action>, s: State, p: nat, q: nat)
    requires Run(c, actions, s) && p < q < |s.log|
    requires s.log[q] == ReadyResolved || s.log[q] == ReadyRejected
    ensures s.log[p] != ReadyResolved && s.log[p] != ReadyRejected
  {
    ProperAt(c, actions, s, q);
    assert s.log[..q][p] == s.log[p];
  }

  /** `run` has left its boot, one way or the other. */
  predicate PastBoot(run: RunPc) {
    run.RunRoutes? || run.RunStopping? || run.RunReturned? || run.RunUnwinding? || run.RunThrew?
  }

  /**
   * Readiness settles exactly once on every way out of the boot and on every
   * stop: rejected when `run` throws or unwinds, resolved only when every start
   * hook has returned, and, when `run` goes on to its routes, resolved unless a
   * stop came first.
   */
  lemma {:induction false} ReadinessSettles(c: Config, actions: seq<Action>, s: State)
    requires Run(c, actions, s)
    ensures PastBoot(s.run) || Stopped(s.log) ==> (ReadyResolved in s.log <==> ReadyRejected !in s.log)
    ensures !PastBoot(s.run) && !Stopped(s.log) ==> !Settled(s.log)
    ensures s.run.RunThrew? || s.run.RunUnwinding? ==> ReadyRejected in s.log
    ensures ReadyResolved in s.log ==> AllHooksStarted(c, s.log)
    ensures PastBoot(s.run) && ReadyRejected in s.log ==> Stopped(s.log) || s.run.RunThrew?
  {
    EveryRunIsProper(c, actions, s);
    if PastBoot(s.run) { ExitSettles(c, actions, s); }
  }

  lemma {:induction false} StoppedPrefix(log: Log, q: nat, p: nat)
    requires q < p < |log| && !Stopped(log[..p])
    ensures !Stopped(log[..q])
  {
    assert log[..q] <= log[..p];
  }

  lemma {:induction false} NothingTornDownBeforeStop(c: Config, actions: seq<Action>, s: State, p: nat, q: nat)
    requires Run(c, actions, s) && q < p < |s.log| && s.log[p] == ContextStopping
    ensures !s.log[q].PluginStopping? && !s.log[q].CallbackRun? && !s.log[q].ContextStopped?
  {
    ProperAt(c, actions, s, p);
    StoppedPrefix(s.log, q, p);
    ProperAt(c, actions, s, q);
    if RaceDecided(s.log[..q]) { DecidedAfterStop(c, actions, s, q); }
    TearsAfterStop(c, s.log[..q], s.log[q]);
  }

  lemma {:induction false} TearsAfterStop(c: Config, before: Log, e: Event)
    requires Proper(c, before, e) && !Stopped(before) && !RaceDecided(before)
    ensures !e.PluginStopping? && !e.CallbackRun? && !e.ContextStopped?
  {
  }

  /** The race is only ever decided after the stop began. */
  lemma {:induction false} DecidedAfterStop(c: Config, actions: seq<Action>, s: State, q: nat)
    requires Run(c, actions, s) && q < |s.log| && RaceDecided(s.log[..q])
    ensures Stopped(s.log[..q])
  {
    var k :| 0 <= k < q && (s.log[k].DrainSettled? || s.log[k].DrainFailed? || s.log[k].DeadlineFired?);
    ProperAt(c, actions, s, k);
    assert s.log[..k] <= s.log[..q];
  }

  /** Once the context has stopped, every plugin applied before `stop()` has been torn down. */
  lemma {:induction false} AppliedBeforeStopIsTornDown(c: Config, actions: seq<Action>, s: State, i: nat,
      applied: nat, stopping: nat, end: nat)
    requires Run(c, actions, s) && applied < stopping < end < |s.log|
    requires s.log[applied] == PluginApplied(i) && s.log[stopping] == ContextStopping && s.log[end].ContextStopped?
    requires i < |c.plugins| && c.plugins[i].hasTeardown
    ensures TornDown(s.log[..end], i)
  {
    ProperAt(c, actions, s, end);
    var before := s.log[..end];
    forall q | 0 <= q < applied ensures !Passes(before[q], i) {
      NothingTornDownBeforeStop(c, actions, s, stopping, q);
    }
    assert before[applied] == PluginApplied(i);
    assert AppliedInTime(before, i);
  }

  /** A shutdown reported as not forced never aborted any route's execution, and never will. */
  lemma {:induction false} GracefulNeverAborts(c: Config, actions: seq<Action>, s: State, end: nat, q: nat)
    requires Run(c, actions, s) && end < |s.log| && q < |s.log|
    requires s.log[end].ContextStopped? && !s.log[end].forced
    ensures !s.log[q].ExecutionAborted?
  {
    ProperAt(c, actions, s, end);
    ProperAt(c, actions, s, q);
    if q < end {
      assert s.log[..end][q] == s.log[q];
    } else if end < q {
      assert s.log[..q][end] == s.log[end];
    }
  }

  /** Forcing happens once and after the deadline: the instant whose busy routes a forced shutdown reports. */
  ghost predicate ForcedAt(log: Log, k: nat) {
    && k < |log| && log[k].StageTwo? && DeadlineFired in log[..k]
    && forall j: nat | j < |log| && log[j].StageTwo? :: j == k
  }

  /**
   * What a shutdown reports: forced exactly when the deadline fired before the
   * drain settled, with exactly the routes that had more arrivals than
   * settlements when it was forced, and `context:stopped` comes once, after
   * every teardown and callback.
   */
  lemma {:induction false} StoppedReportsTheRace(c: Config, actions: seq<Action>, s: State, end: nat, q: nat)
    requires Run(c, actions, s) && end < |s.log| && q < |s.log|
    requires s.log[end].ContextStopped?
    ensures s.log[end].forced <==> DeadlineFired in s.log[..end]
    ensures s.log[end].forced ==> DrainSettled !in s.log[..end] && DrainFailed !in s.log[..end]
    ensures s.log[end].forced ==>
              exists k: nat | k < end :: ForcedAt(s.log, k) && NamesBusyRoutes(c, s.log[..k], s.log[end].pending)
    ensures !s.log[end].forced ==> s.log[end].pending == []
    ensures end < q ==> !s.log[q].PluginStopping? && !s.log[q].CallbackRun? && !s.log[q].ContextStopped?
  {
    ProperAt(c, actions, s, end);
    ProperAt(c, actions, s, q);
    if end < q {
      assert s.log[..q][end] == s.log[end];
    }
    if s.log[end].forced {
      OneVerdict(c, actions, s, end);
      var inFlight :| StageTwo(inFlight) in s.log[..end] && s.log[end].pending == Busy(inFlight);
      var k: nat :| k < end && s.log[..end][k] == StageTwo(inFlight);
      ForcedOnce(c, actions, s, k);
      PendingAt(c, actions, s, k);
    }
  }

  lemma {:induction false} ForcedBefore(c: Config, actions: seq<Action>, s: State, j: nat, k: nat)
    requires Run(c, actions, s) && j < k < |s.log| && s.log[k].StageTwo?
    ensures !s.log[j].StageTwo?
  {
    ProperAt(c, actions, s, k);
    assert s.log[..k][j] == s.log[j];
  }

  lemma {:induction false} ForcedOnce(c: Config, actions: seq<Action>, s: State, k: nat)
    requires Run(c, actions, s) && k < |s.log| && s.log[k].StageTwo?
    ensures ForcedAt(s.log, k)
  {
    ProperAt(c, actions, s, k);
    forall j: nat | j < |s.log| && s.log[j].StageTwo? ensures j == k {
      if j < k {
        ForcedBefore(c, actions, s, j, k);
      } else if k < j {
        ForcedBefore(c, actions, s, k, j);
      }
    }
  }

  lemma {:induction false} PendingAt(c: Config, actions: seq<Action>, s: State, k: nat)
    requires Run(c, actions, s) && k < |s.log| && s.log[k].StageTwo?
    ensures NamesBusyRoutes(c, s.log[..k], Busy(s.log[k].inFlight))
  {
    ProperAt(c, actions, s, k);
    BusyNamed(c, s.log[..k], s.log[k].inFlight);
  }

  lemma {:induction false} BusyNamed(c: Config, log: Log, inFlight: seq<nat>)
    requires WorkFits(c, log, inFlight)
    ensures NamesBusyRoutes(c, log, Busy(inFlight))
  {
    forall i, j | 0 <= i < j < |Busy(inFlight)| ensures Busy(inFlight)[i] < Busy(inFlight)[j] {
      BusyAscends(inFlight, i, j);
    }
    forall r: nat ensures r in Busy(inFlight) <==> r < c.routes && Balance(log, r) > 0 {
      BusyMember(inFlight, r);
    }
  }

  /** A shutdown is over exactly when it has announced `context:stopped`. */
  lemma {:induction false} ClosedIsAnnounced(c: Config, actions: seq<Action>, s: State)
    requires Run(c, actions, s)
    ensures s.shut.Closed? <==> exists e :: e in s.log && e.ContextStopped?
  {
    if s.shut.Closed? {
      ClosingAnnounces(c, actions, s);
    } else {
      EveryRunIsProper(c, actions, s);
    }
  }

  /**
   * A drain that settles before the deadline, and without failing, has seen
   * every route without work in flight, at some instant after the stop began.
   */
  lemma {:induction false} SettledDrainSawEveryRouteIdle(c: Config, actions: seq<Action>, s: State, end: nat, r: nat)
    returns (k: nat)
    requires Run(c, actions, s) && end < |s.log| && r < c.routes
    requires s.log[end].ContextStopped? && !s.log[end].forced && DrainFailed !in s.log[..end]
    ensures k < end && Stopped(s.log[..k]) && Balance(s.log[..k], r) == 0
  {
    ProperAt(c, actions, s, end);
    var d: nat :| d < end && s.log[..end][d] == DrainSettled;
    ProperAt(c, actions, s, d);
    k :| k < d && s.log[..d][k] == RouteDrained(r);
    ProperAt(c, actions, s, k);
  }

  /** The race between drain and deadline is decided once. */
  lemma {:induction false} OneVerdict(c: Config, actions: seq<Action>, s: State, end: nat)
    requires Run(c, actions, s) && end < |s.log| && DeadlineFired in s.log[..end]
    ensures DrainSettled !in s.log[..end] && DrainFailed !in s.log[..end]
  {
    var before := s.log[..end];
    var k: nat :| k < end && before[k] == DeadlineFired;
    forall j: nat | j < end ensures s.log[j] != DrainSettled && s.log[j] != DrainFailed {
      if j != k { OneOfTwo(c, actions, s, j, k); }
    }
  }

  lemma {:induction false} OneOfTwo(c: Config, actions: seq<Action>, s: State, j: nat, k: nat)
    requires Run(c, actions, s) && j < |s.log| && k < |s.log| && j != k && s.log[k] == DeadlineFired
    ensures s.log[j] != DrainSettled && s.log[j] != DrainFailed
  {
    ProperAt(c, actions, s, if j < k then k else j);
    if j < k {
      assert s.log[..k][j] == s.log[j];
    } else {
      assert s.log[..j][k] == DeadlineFired;
    }
  }

  // ----- when a start is announced too late, or too early -----

  /** The log of the run goes on to announce a start although `stop()` has been called. */
  ghost predicate AnnouncedAfterStop(log: Log) {
    exists p, q :: 0 <= p < q < |log| && log[p] == ContextStopping && log[q] == ContextStarting
  }

  /** The `n`th action is the first `stop()`, and finds `run` waiting for `initPlugins`. */
  ghost predicate StopsWhileInitialising(c: Config, actions: seq<Action>, n: nat) {
    && n < |actions| && actions[n].Stop?
    && exists b :: Run(c, actions[..n], b) && b.run.RunInit? && !Stopped(b.log)
  }

  /** With the `m`th action `run` goes on after `initPlugins`, and nothing refuses the start. */
  ghost predicate GoesOnAfterInit(c: Config, actions: seq<Action>, m: nat) {
    && m < |actions| && actions[m].InitContinues? && c.suspensionConfigured
    && exists b :: Run(c, actions[..m], b) && b.init.InitDone?
  }

  /**
   * A start is announced on a stopped context if and only if the stop found
   * `run` waiting for `initPlugins`, which then came to a good end.
   */
  lemma {:induction false} AnnouncedAfterStopIff(c: Config, actions: seq<Action>, s: State)
    requires Run(c, actions, s)
    ensures AnnouncedAfterStop(s.log) <==>
            exists n: nat, m: nat | n < m :: StopsWhileInitialising(c, actions, n) && GoesOnAfterInit(c, actions, m)
  {
    if AnnouncedAfterStop(s.log) {
      var n, m := LateAnnouncement(c, actions, s);
    }
    if n: nat, m: nat :| n < m && StopsWhileInitialising(c, actions, n) && GoesOnAfterInit(c, actions, m) {
      AnnouncesLate(c, actions, s, n, m);
    }
  }

  /** The log announces a start while the `apply` of some plugin has not returned. */
  ghost predicate AnnouncedUnapplied(c: Config, log: Log) {
    exists q :: 0 <= q < |log| && log[q] == ContextStarting && !AllApplied(c, log[..q])
  }

  /** The `n`th action is the first `start()`, and comes while plugins are being applied, or after one failed. */
  ghost predicate StartsWhileInitialising(c: Config, actions: seq<Action>, n: nat) {
    && n < |actions| && actions[n].Start? && c.suspensionConfigured
    && exists b ::
         Run(c, actions[..n], b) && b.run.RunIdle? && !Stopped(b.log) && (b.init.Applying? || b.init.InitFailed?)
  }

  /**
   * A start is announced before every plugin has applied if and only if
   * `start()` is called while `initPlugins`, called by somebody else, is under
   * way or has failed: `run` looks only at whether it was called.
   */
  lemma {:induction false} AnnouncedUnappliedIff(c: Config, actions: seq<Action>, s: State)
    requires Run(c, actions, s)
    ensures AnnouncedUnapplied(c, s.log) <==> exists n: nat :: StartsWhileInitialising(c, actions, n)
  {
    if AnnouncedUnapplied(c, s.log) {
      var n := EarlyAnnouncement(c, actions, s);
    }
    if n: nat :| StartsWhileInitialising(c, actions, n) {
      AnnouncesEarly(c, actions, s, n);
    }
  }

  /** In all other runs every plugin has applied before the first start hook is launched. */
  lemma {:induction false} HooksFollowApply(c: Config, actions: seq<Action>, s: State, q: nat)
    requires Run(c, actions, s) && q < |s.log| && s.log[q].PluginStarting?
    requires forall n: nat :: !StartsWhileInitialising(c, actions, n)
    ensures AllApplied(c, s.log[..q])
  {
    AnnouncedUnappliedIff(c, actions, s);
    var k := AnnouncedBefore(c, actions, s, q);
    forall j: nat | j < |c.plugins| ensures PluginApplied(j) in s.log[..q] {
      assert PluginApplied(j) in s.log[..k];
      assert s.log[..k] <= s.log[..q];
    }
  }

  /** A start hook has the announcement of the start behind it. */
  lemma {:induction false} AnnouncedBefore(c: Config, actions: seq<Action>, s: State, q: nat) returns (k: nat)
    requires Run(c, actions, s) && q < |s.log| && s.log[q].PluginStarting?
    ensures k < q && s.log[k] == ContextStarting
  {
    ProperAt(c, actions, s, q);
    var gate: nat :| gate < q && s.log[..q][gate] == GateSettled;
    ProperAt(c, actions, s, gate);
    var started: nat :| started < gate && s.log[..gate][started] == ContextStarted;
    ProperAt(c, actions, s, started);
    k :| k < started && s.log[..started][k] == ContextStarting;
  }

  // ----- a run in which the teardown walk is too early -----

  lemma {:induction false} RunExtends(c: Config, actions: seq<Action>, s: State, a: Action)
    requires Run(c, actions, s) && Enabled(c, s, a)
    ensures Run(c, actions + [a], Next(c, s, a))
  {
    assert (actions + [a])[..|actions|] == actions;
  }

  const LATE_CONFIG := Config([Plugin(true, false, true, false)], 0, true)

  const LATE_LOG := [
    PluginApplying(0), ReadyRejected, ContextStopping, DrainSettled, ContextStopped(false, []),
    PluginApplied(0), ContextStarting, ContextStarted]

  /** The states of the run below, after 0 to 6 actions. */
  function LateState(n: nat): State {
    if n == 0 then State(InitIdle, RunIdle, Open, [], [], 0, [])
    else if n == 1 then State(Applying(0), RunInit, Open, [], [], 0, LATE_LOG[..1])
    else if n == 2 then State(Applying(0), RunInit, Draining, [], [], 0, LATE_LOG[..3])
    else if n == 3 then State(Applying(0), RunInit, Draining, [], [], 0, LATE_LOG[..4])
    else if n == 4 then State(Applying(0), RunInit, Closed, [], [], 0, LATE_LOG[..5])
    else if n == 5 then State(InitDone, RunInit, Closed, [], [], 0, LATE_LOG[..6])
    else State(InitDone, RunGate, Closed, [], [], 0, LATE_LOG)
  }

  const LATE_ACTIONS := [Start, Stop, DrainSettles, ShutdownContinues, ApplyReturns, InitContinues]

  lemma {:induction false} LateBegins()
    ensures LateState(0) == Initial(LATE_CONFIG)
    ensures Enabled(LATE_CONFIG, LateState(0), Start) && Next(LATE_CONFIG, LateState(0), Start) == LateState(1)
  {
  }

  lemma {:induction false} LateStops()
    ensures Enabled(LATE_CONFIG, LateState(1), Stop) && Next(LATE_CONFIG, LateState(1), Stop) == LateState(2)
    ensures Enabled(LATE_CONFIG, LateState(2), DrainSettles)
            && Next(LATE_CONFIG, LateState(2), DrainSettles) == LateState(3)
  {
    assert ForRoutes(0, (r: nat) => IntakeAborted(r)) == [];
  }

  lemma {:induction false} LateCloses()
    ensures Enabled(LATE_CONFIG, LateState(3), ShutdownContinues)
    ensures Next(LATE_CONFIG, LateState(3), ShutdownContinues) == LateState(4)
  {
    var s := LateState(3);
    assert s.log[3] == DrainSettled;
    assert NextTeardown(LATE_CONFIG.plugins, s.log, 1) == -1;
    assert TeardownBelow(LATE_CONFIG, s, 1, Closing(true, false, [])) == LateState(4);
  }

  lemma {:induction false} LateApplies()
    ensures Enabled(LATE_CONFIG, LateState(4), ApplyReturns)
            && Next(LATE_CONFIG, LateState(4), ApplyReturns) == LateState(5)
    ensures Enabled(LATE_CONFIG, LateState(5), InitContinues)
            && Next(LATE_CONFIG, LateState(5), InitContinues) == LateState(6)
  {
  }

  lemma {:induction false} LateStep(n: nat)
    requires n < 6
    ensures Enabled(LATE_CONFIG, LateState(n), LATE_ACTIONS[n])
    ensures Next(LATE_CONFIG, LateState(n), LATE_ACTIONS[n]) == LateState(n + 1)
  {
    if n == 0 { LateBegins(); }
    else if n <= 2 { LateStops(); }
    else if n == 3 { LateCloses(); }
    else { LateApplies(); }
  }

  lemma {:induction false} RunReaches(n: nat)
    requires n <= 6
    ensures Run(LATE_CONFIG, LATE_ACTIONS[..n], LateState(n))
  {
    if n == 0 {
      LateBegins();
    } else {
      RunReaches(n - 1);
      LateStep(n - 1);
      RunExtends(LATE_CONFIG, LATE_ACTIONS[..n - 1], LateState(n - 1), LATE_ACTIONS[n - 1]);
      assert LATE_ACTIONS[..n - 1] + [LATE_ACTIONS[n - 1]] == LATE_ACTIONS[..n];
    }
  }

  /**
   * `initPlugins` does not look at `hasStopped`. A stop that completes while a
   * plugin is still in `apply` leaves that plugin applied and never torn down,
   * and the boot goes on to announce a start on the stopped context.
   */
  lemma {:induction false} LateApplyIsNeverTornDown()
    ensures var s := LateState(6);
            && Run(LATE_CONFIG, LATE_ACTIONS, s) && s.shut.Closed?
            && PluginApplied(0) in s.log && LATE_CONFIG.plugins[0].hasTeardown && !TornDown(s.log, 0)
            && s.log[4] == ContextStopped(false, []) && s.log[7] == ContextStarted
  {
    RunReaches(6);
    assert LATE_ACTIONS[..6] == LATE_ACTIONS;
    LateLog();
  }

  lemma {:induction false} LateLog()
    ensures PluginApplied(0) in LATE_LOG && !TornDown(LATE_LOG, 0)
  {
    assert LATE_LOG[5] == PluginApplied(0);
  }

  // ----- a run in which a start hook is too early -----

  const EARLY_CONFIG := Config([Plugin(true, true, true, false)], 0, true)

  const EARLY_ACTIONS := [BuildApplies, Start, GateSettles, GateContinues]

  const EARLY_LOG := [PluginApplying(0), ContextStarting, ContextStarted, GateSettled, PluginStarting(0)]

  /** The states of the run below, after 0 to 4 actions. */
  function EarlyState(n: nat): State {
    if n == 0 then State(InitIdle, RunIdle, Open, [], [], 0, [])
    else if n == 1 then State(Applying(0), RunIdle, Open, [], [], 0, EARLY_LOG[..1])
    else if n == 2 then State(Applying(0), RunGate, Open, [], [], 0, EARLY_LOG[..3])
    else if n == 3 then State(Applying(0), RunGate, Open, [], [], 0, EARLY_LOG[..4])
    else State(Applying(0), RunHook(0), Open, [], [], 0, EARLY_LOG)
  }

  lemma {:induction false} EarlyStep(n: nat)
    requires n < 4
    ensures EarlyState(0) == Initial(EARLY_CONFIG)
    ensures Enabled(EARLY_CONFIG, EarlyState(n), EARLY_ACTIONS[n])
    ensures Next(EARLY_CONFIG, EarlyState(n), EARLY_ACTIONS[n]) == EarlyState(n + 1)
  {
    if n == 3 {
      assert EarlyState(3).log[3] == GateSettled;
    }
  }

  lemma {:induction false} EarlyReaches(n: nat)
    requires n <= 4
    ensures Run(EARLY_CONFIG, EARLY_ACTIONS[..n], EarlyState(n))
  {
    if n == 0 {
      EarlyStep(0);
    } else {
      EarlyReaches(n - 1);
      EarlyStep(n - 1);
      RunExtends(EARLY_CONFIG, EARLY_ACTIONS[..n - 1], EarlyState(n - 1), EARLY_ACTIONS[n - 1]);
      assert EARLY_ACTIONS[..n - 1] + [EARLY_ACTIONS[n - 1]] == EARLY_ACTIONS[..n];
    }
  }

  /**
   * `run` asks only whether `initPlugins` was called. A `start()` that comes
   * while a plugin is still in `apply` goes straight on, and the plugin's
   * start hook is launched before its `apply` has returned.
   */
  lemma {:induction false} HookBeforeApply()
    ensures var s := EarlyState(4);
            && Run(EARLY_CONFIG, EARLY_ACTIONS, s)
            && s.log[4] == PluginStarting(0) && PluginApplied(0) !in s.log
  {
    EarlyReaches(4);
    assert EARLY_ACTIONS[..4] == EARLY_ACTIONS;
  }

  // ----- runs and their prefixes -----

  lemma {:induction false} RunUnique(c: Config, actions: seq<Action>, a: State, b: State)
    requires Run(c, actions, a) && Run(c, actions, b)
    ensures a == b
    decreases |actions|
  {
    if actions != [] {
      var n := |actions| - 1;
      var x :| Run(c, actions[..n], x) && Enabled(c, x, actions[n]) && a == Next(c, x, actions[n]);
      var y :| Run(c, actions[..n], y) && Enabled(c, y, actions[n]) && b == Next(c, y, actions[n]);
      RunUnique(c, actions[..n], x, y);
    }
  }

  /** The last step of a run. */
  lemma {:induction false} LastStep(c: Config, actions: seq<Action>, s: State) returns (n: nat, before: State)
    requires Run(c, actions, s) && actions != []
    ensures n == |actions| - 1 && Run(c, actions[..n], before) && Enabled(c, before, actions[n])
    ensures s == Next(c, before, actions[n]) && before.log <= s.log
  {
    n := |actions| - 1;
    before :| Run(c, actions[..n], before) && Enabled(c, before, actions[n]) && s == Next(c, before, actions[n]);
    Emits(c, before, actions[n]);
  }

  /** The `n`th step of a run, and what its log starts with. */
  lemma {:induction false} StepAt(c: Config, actions: seq<Action>, s: State, n: nat) returns (b: State)
    requires Run(c, actions, s) && n < |actions|
    ensures Run(c, actions[..n], b) && Enabled(c, b, actions[n])
    ensures b.log <= Next(c, b, actions[n]).log <= s.log
    decreases |actions|
  {
    var m, before := LastStep(c, actions, s);
    if n == m {
      b := before;
    } else {
      b := StepAt(c, actions[..m], before, n);
      assert actions[..m][..n] == actions[..n];
    }
  }

  /** Of two steps the earlier one's log is behind the later one. */
  lemma {:induction false} StepsInOrder(c: Config, actions: seq<Action>, s: State, n: nat, m: nat)
    returns (b: State, d: State)
    requires Run(c, actions, s) && n < m < |actions|
    ensures Run(c, actions[..n], b) && Enabled(c, b, actions[n])
    ensures Run(c, actions[..m], d) && Enabled(c, d, actions[m])
    ensures Next(c, b, actions[n]).log <= d.log && Next(c, d, actions[m]).log <= s.log
  {
    d := StepAt(c, actions, s, m);
    b := StepAt(c, actions[..m], d, n);
    assert actions[..m][..n] == actions[..n];
  }

  // ----- late announcements -----

  lemma {:induction false} PrefixActions(actions: seq<Action>, m: nat, n: nat)
    requires n < m <= |actions|
    ensures actions[..m][..n] == actions[..n] && actions[..m][n] == actions[n]
  {
  }

  lemma {:induction false} OnlyStopWhileWaiting(c: Config, s: State, a: Action)
    requires Enabled(c, s, a) && !(Stopped(s.log) && s.run.RunInit?)
    requires Stopped(Next(c, s, a).log) && Next(c, s, a).run.RunInit?
    ensures a.Stop? && s.run.RunInit? && !Stopped(s.log)
  {
    Emits(c, s, a);
    var events := NewEvents(s.log, Next(c, s, a).log);
    assert !Stopped(s.log) ==> ContextStopping in events;
  }

  /** A stopped `run` still waiting for `initPlugins` was found so by the stop. */
  lemma {:induction false} StoppedWaiting(c: Config, actions: seq<Action>, s: State) returns (n: nat)
    requires Run(c, actions, s) && Stopped(s.log) && s.run.RunInit?
    ensures StopsWhileInitialising(c, actions, n)
    decreases |actions|
  {
    var m, before := LastStep(c, actions, s);
    if Stopped(before.log) && before.run.RunInit? {
      n := StoppedWaiting(c, actions[..m], before);
      PrefixActions(actions, m, n);
    } else {
      OnlyStopWhileWaiting(c, before, actions[m]);
      n := m;
    }
  }

  /** The step that announces a start on a stopped context. */
  lemma {:induction false} LateStart(c: Config, s: State, a: Action, p: nat, q: nat)
    requires Enabled(c, s, a) && !AnnouncedAfterStop(s.log)
    requires p < q < |Next(c, s, a).log|
    requires Next(c, s, a).log[p] == ContextStopping && Next(c, s, a).log[q] == ContextStarting
    ensures a.InitContinues? && s.init.InitDone? && c.suspensionConfigured && Stopped(s.log)
  {
    Emits(c, s, a);
    if q < |s.log| {
      AnnouncedInPrefix(s.log, Next(c, s, a).log, p, q);
    } else {
      BootsOnlyThen(c, s, a, q);
      assert s.log[p] == ContextStopping;
    }
  }

  lemma {:induction false} AnnouncedInPrefix(log: Log, more: Log, p: nat, q: nat)
    requires log <= more && p < q < |log| && more[p] == ContextStopping && more[q] == ContextStarting
    ensures AnnouncedAfterStop(log)
  {
    assert log[p] == ContextStopping && log[q] == ContextStarting;
  }

  lemma {:induction false} UnappliedInPrefix(c: Config, log: Log, more: Log, q: nat)
    requires log <= more && q < |log| && more[q] == ContextStarting && !AllApplied(c, more[..q])
    ensures AnnouncedUnapplied(c, log)
  {
    assert log[q] == ContextStarting && log[..q] == more[..q];
  }

  /** Where booting announces the start, when it does. */
  lemma {:induction false} BootAnnouncesAt(c: Config, s: State, q: nat)
    requires |s.log| <= q < |Boot(c, s).log| && Boot(c, s).log[q] == ContextStarting
    ensures c.suspensionConfigured && q == |s.log|
  {
  }

  lemma {:induction false} StartAnnouncesAt(c: Config, s: State, q: nat)
    requires |s.log| <= q < |Next(c, s, Start).log| && Next(c, s, Start).log[q] == ContextStarting
    ensures s.run.RunIdle? && !Stopped(s.log) && !s.init.InitIdle?
    ensures Next(c, s, Start) == Boot(c, s)
  {
  }

  lemma {:induction false} EmittedAt(a: Action, before: Log, after: Log, q: nat)
    requires Extends(a, before, after) && |before| <= q < |after|
    ensures MayEmit(a, after[q])
  {
    assert after[|before|..][q - |before|] == after[q];
  }

  lemma {:induction false} OnlyBootsAnnounce(a: Action)
    requires MayEmit(a, ContextStarting)
    ensures Boots(a)
  {
  }

  /** What the step that announces a start finds. */
  lemma {:induction false} BootsOnlyThen(c: Config, s: State, a: Action, q: nat)
    requires Enabled(c, s, a) && |s.log| <= q < |Next(c, s, a).log| && Next(c, s, a).log[q] == ContextStarting
    ensures c.suspensionConfigured && q == |s.log|
    ensures (a.Start? && s.run.RunIdle? && !Stopped(s.log) && !s.init.InitIdle?)
            || (a.InitContinues? && s.init.InitDone?)
  {
    Emits(c, s, a);
    EmittedAt(a, s.log, Next(c, s, a).log, q);
    OnlyBootsAnnounce(a);
    if a.Start? { StartAnnouncesAt(c, s, q); }
    BootAnnouncesAt(c, s, q);
  }

  lemma {:induction false} LateAnnouncement(c: Config, actions: seq<Action>, s: State) returns (n: nat, m: nat)
    requires Run(c, actions, s) && AnnouncedAfterStop(s.log)
    ensures n < m && StopsWhileInitialising(c, actions, n) && GoesOnAfterInit(c, actions, m)
    decreases |actions|
  {
    var last, before := LastStep(c, actions, s);
    if AnnouncedAfterStop(before.log) {
      n, m := LateAnnouncement(c, actions[..last], before);
      PrefixActions(actions, last, n);
      PrefixActions(actions, last, m);
    } else {
      var p, q :| 0 <= p < q < |s.log| && s.log[p] == ContextStopping && s.log[q] == ContextStarting;
      LateStart(c, before, actions[last], p, q);
      m := last;
      n := StoppedWaiting(c, actions[..last], before);
      PrefixActions(actions, last, n);
    }
  }

  lemma {:induction false} StopIsLogged(c: Config, s: State)
    ensures Stopped(Next(c, s, Stop).log)
  {
    if !Stopped(s.log) { StopMembers(c, s); }
  }

  lemma {:induction false} AnnouncesLate(c: Config, actions: seq<Action>, s: State, n: nat, m: nat)
    requires Run(c, actions, s)
    requires n < m && StopsWhileInitialising(c, actions, n) && GoesOnAfterInit(c, actions, m)
    ensures AnnouncedAfterStop(s.log)
  {
    var b, d := StepsInOrder(c, actions, s, n, m);
    StopIsLogged(c, b);
    var p: nat :| p < |Next(c, b, Stop).log| && Next(c, b, Stop).log[p] == ContextStopping;
    var x :| Run(c, actions[..m], x) && x.init.InitDone?;
    RunUnique(c, actions[..m], d, x);
    assert Next(c, d, InitContinues).log[|d.log|] == ContextStarting;
    assert s.log[p] == ContextStopping && s.log[|d.log|] == ContextStarting;
  }

  // ----- early announcements -----

  lemma {:induction false} EarlyAnnouncement(c: Config, actions: seq<Action>, s: State) returns (n: nat)
    requires Run(c, actions, s) && AnnouncedUnapplied(c, s.log)
    ensures StartsWhileInitialising(c, actions, n)
    decreases |actions|
  {
    var last, before := LastStep(c, actions, s);
    if AnnouncedUnapplied(c, before.log) {
      n := EarlyAnnouncement(c, actions[..last], before);
      PrefixActions(actions, last, n);
    } else {
      var q: nat :| q < |s.log| && s.log[q] == ContextStarting && !AllApplied(c, s.log[..q]);
      if q < |before.log| {
        UnappliedInPrefix(c, before.log, s.log, q);
      } else {
        BootsOnlyThen(c, before, actions[last], q);
        EveryRunIsProper(c, actions[..last], before);
        assert s.log[..q] == before.log;
        n := last;
      }
    }
  }

  lemma {:induction false} AnnouncesEarly(c: Config, actions: seq<Action>, s: State, n: nat)
    requires Run(c, actions, s) && StartsWhileInitialising(c, actions, n)
    ensures AnnouncedUnapplied(c, s.log)
  {
    var b := StepAt(c, actions, s, n);
    var x :| Run(c, actions[..n], x) && x.run.RunIdle? && !Stopped(x.log) && (x.init.Applying? || x.init.InitFailed?);
    RunUnique(c, actions[..n], b, x);
    EveryRunIsProper(c, actions[..n], b);
    NotAllApplied(c, b);
    assert Next(c, b, Start).log[|b.log|] == ContextStarting;
    assert s.log[|b.log|] == ContextStarting && s.log[..|b.log|] == b.log;
  }

  // ----- the ends of a run -----

  lemma {:induction false} KeptBy(c: Config, s: State, a: Action)
    requires Enabled(c, s, a)
    ensures forall e | e in s.log :: e in Next(c, s, a).log
  {
    Emits(c, s, a);
  }

  lemma {:induction false} Ends(log: Log, e: Event)
    ensures e in log + [e]
  {
  }

  lemma {:induction false} ClosingStep(c: Config, s: State, a: Action)
    requires Enabled(c, s, a) && Next(c, s, a).shut.Closed? && !s.shut.Closed?
    ensures exists e :: e in Next(c, s, a).log && e.ContextStopped?
  {
    var log := Next(c, s, a).log;
    assert |log| > 0 && log[|log| - 1].ContextStopped?;
  }

  lemma {:induction false} ClosingAnnounces(c: Config, actions: seq<Action>, s: State)
    requires Run(c, actions, s) && s.shut.Closed?
    ensures exists e :: e in s.log && e.ContextStopped?
    decreases |actions|
  {
    var n := |actions| - 1;
    var before :| Run(c, actions[..n], before) && Enabled(c, before, actions[n]) && s == Next(c, before, actions[n]);
    if before.shut.Closed? {
      ClosingAnnounces(c, actions[..n], before);
      KeptBy(c, before, actions[n]);
    } else {
      ClosingStep(c, before, actions[n]);
    }
  }

  lemma {:induction false} ExitStep(c: Config, s: State, a: Action)
    requires Enabled(c, s, a) && PastBoot(Next(c, s, a).run) && !PastBoot(s.run)
    ensures Settled(Next(c, s, a).log)
  {
    SettledByRejecting(s.log);
    if a.FailureContinues? {
      var s1 := Emit(s.(run := RunUnwinding), Rejected(s.log));
      StopNowEmits(c, s1, a);
      assert s1.log <= Next(c, s, a).log;
    } else {
      Ends(s.log, ReadyResolved);
    }
  }

  lemma {:induction false} ExitSettles(c: Config, actions: seq<Action>, s: State)
    requires Run(c, actions, s) && PastBoot(s.run)
    ensures Settled(s.log)
    decreases |actions|
  {
    var n := |actions| - 1;
    var before :| Run(c, actions[..n], before) && Enabled(c, before, actions[n]) && s == Next(c, before, actions[n]);
    if PastBoot(before.run) {
      ExitSettles(c, actions[..n], before);
      KeptBy(c, before, actions[n]);
    } else {
      ExitStep(c, before, actions[n]);
    }
  }
}

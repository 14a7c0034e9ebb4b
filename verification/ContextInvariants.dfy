/**
 * What every state of a run satisfies, part by part: the plugins being applied,
 * the start and its hooks, what is announced, the shutdown and its teardown walk,
 * and the work in flight. Every action keeps each part, which is proved by saying
 * what the action emits and which parts of the state it leaves alone.
 */
module ContextInvariants {
  import opened ContextSteps

  // ----- invariant: initPlugins -----

  ghost predicate AllApplied(c: Config, log: Log) {
    forall j: nat | j < |c.plugins| :: PluginApplied(j) in log
  }

  ghost predicate InitInvariant(c: Config, s: State) {
    && (forall j: nat | PluginApplied(j) in s.log :: PluginApplying(j) in s.log)
    && match s.init
       case InitIdle => s.run.RunIdle? && forall j: nat :: PluginApplying(j) !in s.log
       case Applying(i) =>
         && i < |c.plugins|
         && forall j: nat :: (PluginApplying(j) in s.log <==> j <= i) && (PluginApplied(j) in s.log <==> j < i)
       case InitDone => AllApplied(c, s.log)
       case InitFailed => !AllApplied(c, s.log)
  }

  predicate InitQuiet(e: Event) {
    !e.PluginApplying? && !e.PluginApplied?
  }

  /** Plugins still to be applied, or never to be. */
  lemma {:induction false} NotAllApplied(c: Config, s: State)
    requires InitInvariant(c, s) && (s.init.Applying? || s.init.InitFailed?)
    ensures !AllApplied(c, s.log)
  {
    assert s.init.Applying? ==> PluginApplied(s.init.at) !in s.log;
  }

  // ----- invariant: run, hooks and readiness -----

  ghost predicate HooksStartedBelow(c: Config, log: Log, i: nat) {
    forall j: nat | j < i && j < |c.plugins| && c.plugins[j].hasStart :: PluginStarted(j) in log
  }

  ghost predicate NoHookYet(log: Log) {
    forall j: nat :: PluginStarting(j) !in log
  }

  ghost predicate HookAt(c: Config, log: Log, i: nat) {
    && i < |c.plugins| && c.plugins[i].hasStart
    && PluginStarting(i) in log && PluginStarted(i) !in log
    && (forall j: nat | PluginStarting(j) in log :: j <= i)
    && HooksStartedBelow(c, log, i)
  }

  ghost predicate ReadinessInvariant(c: Config, s: State) {
    && (ReadyResolved in s.log ==> ReadyRejected !in s.log && AllHooksStarted(c, s.log))
    && (ReadyResolved in s.log ==> s.run.RunRoutes? || s.run.RunStopping? || s.run.RunReturned?)
    && (ReadyRejected in s.log ==> Stopped(s.log) || s.run.RunThrew?)
    && (Stopped(s.log) ==> Settled(s.log))
  }

  ghost predicate RunInvariant(c: Config, s: State) {
    && ReadinessInvariant(c, s)
    && (forall j: nat | PluginStarted(j) in s.log :: PluginStarting(j) in s.log)
    && (s.run.RunIdle? || s.run.RunInit? || s.run.RunGate? ==> NoHookYet(s.log))
    && (s.run.RunHook? ==> HookAt(c, s.log, s.run.at))
    && (s.run.RunHook? || s.run.RunHooksDone? ==> GateSettled in s.log)
    && (s.run.RunHooksDone? && !Stopped(s.log) ==> AllHooksStarted(c, s.log))
  }

  predicate RunQuiet(e: Event) {
    !e.PluginStarting? && !e.PluginStarted? && !e.ReadyResolved? && !e.ReadyRejected? && !e.ContextStopping?
  }

  // ----- invariant: what is announced -----

  ghost predicate BootInvariant(s: State) {
    && (s.run.RunIdle? || s.run.RunInit? ==> ContextStarting !in s.log && ContextStarted !in s.log)
    && (!s.run.RunIdle? && !s.run.RunInit? && !s.run.RunThrew? ==> ContextStarted in s.log)
  }

  predicate Boots(a: Action) {
    a.Start? || a.InitContinues?
  }

  // ----- invariant: shutdown -----

  ghost predicate NoTeardownYet(log: Log) {
    forall e | e in log :: !e.PluginStopping? && !e.PluginStopped? && !e.CallbackRun? && !e.ContextStopped?
  }

  ghost predicate NoForceYet(log: Log) {
    forall e | e in log :: !e.StageTwo? && !e.ExecutionAborted?
  }

  ghost predicate ClosingFits(log: Log, closing: Closing) {
    && Stopped(log) && RaceDecided(log)
    && (closing.partial <==> ReadyResolved !in log)
    && (closing.forced <==> DeadlineFired in log)
    && (!closing.forced ==> closing.pending == [] && NoForceYet(log))
    && (closing.forced ==> exists inFlight :: StageTwo(inFlight) in log && closing.pending == Busy(inFlight))
  }

  /** From plugin `i` up, exactly the plugins that applied in time have been torn down. */
  ghost predicate WalkExact(c: Config, log: Log, i: nat) {
    forall j: nat | i <= j < |c.plugins| :: TornDown(log, j) <==> c.plugins[j].hasTeardown && AppliedInTime(log, j)
  }

  ghost predicate WalkAt(c: Config, log: Log, i: nat) {
    && i < |c.plugins| && TornDown(log, i)
    && (forall e | e in log && e.PluginStopping? :: i <= e.i)
    && (forall e | e in log && e.PluginStopped? :: i < e.i)
    && (forall e | e in log :: !e.CallbackRun? && !e.ContextStopped?)
    && WalkExact(c, log, i)
  }

  ghost predicate CallbacksAt(c: Config, s: State, k: nat) {
    && k < s.callbacks && CallbackRun(k) in s.log
    && (forall j: nat | CallbackRun(j) in s.log :: k <= j)
    && (forall e | e in s.log :: !e.ContextStopped?)
    && WalkExact(c, s.log, 0)
  }

  ghost predicate ShutInvariant(c: Config, s: State) {
    && (Stopped(s.log) <==> !s.shut.Open?)
    && (s.shut.Open? ==> !RaceDecided(s.log))
    && (s.shut.Open? || s.shut.Draining? ==> NoTeardownYet(s.log) && NoForceYet(s.log))
    && (forall j: nat :: CallbackRegistered(j) in s.log <==> j < s.callbacks)
    && (s.shut.Teardown? ==> ClosingFits(s.log, s.shut.closing) && WalkAt(c, s.log, s.shut.at))
    && (s.shut.Callback? ==> ClosingFits(s.log, s.shut.closing) && CallbacksAt(c, s, s.shut.k))
  }

  predicate ShutQuiet(e: Event) {
    || e.PluginApplying? || e.PluginApplied? || e.ContextStarting? || e.ContextStarted? || e.GateSettled?
    || e.PluginStarting? || e.PluginStarted? || e.ReadyRejected? || e.WorkArrived? || e.WorkSettled?
    || e.RouteDrained?
  }

  // ----- events that leave a part of the invariant alone -----

  lemma {:induction false} InitKept(c: Config, s: State, s': State, events: Log)
    requires InitInvariant(c, s) && s'.init == s.init && s'.log == s.log + events
    requires forall e | e in events :: InitQuiet(e)
    requires s'.run == s.run || !s.init.InitIdle?
    ensures InitInvariant(c, s')
  {
  }

  lemma {:induction false} RunKept(c: Config, s: State, s': State, events: Log)
    requires RunInvariant(c, s) && s'.run == s.run && s'.log == s.log + events
    requires forall e | e in events :: RunQuiet(e)
    ensures RunInvariant(c, s')
  {
  }

  lemma {:induction false} NothingPassed(log: Log, e: Event, j: nat)
    requires forall q | 0 <= q < |log| :: !Passes((log + [e])[q], j)
    ensures forall e' | e' in log :: !Passes(e', j)
  {
    forall e' | e' in log ensures !Passes(e', j) {
      var q :| 0 <= q < |log| && log[q] == e';
      assert (log + [e])[q] == e';
    }
  }

  lemma {:induction false} InTimeAppend(log: Log, e: Event, j: nat)
    requires e == PluginApplied(j) ==> AppliedInTime(log, j) || exists p :: p in log && Passes(p, j)
    ensures AppliedInTime(log + [e], j) <==> AppliedInTime(log, j)
  {
    var more := log + [e];
    if AppliedInTime(log, j) {
      var p :| 0 <= p < |log| && log[p] == PluginApplied(j) && forall q | 0 <= q < p :: !Passes(log[q], j);
      assert more[p] == PluginApplied(j) && forall q | 0 <= q < p :: !Passes(more[q], j);
    }
    if AppliedInTime(more, j) {
      var p :| 0 <= p < |more| && more[p] == PluginApplied(j) && forall q | 0 <= q < p :: !Passes(more[q], j);
      if p == |log| && !AppliedInTime(log, j) {
        NothingPassed(log, e, j);
      } else if p < |log| {
        assert forall q | 0 <= q < p :: !Passes(log[q], j) by {
          forall q | 0 <= q < p ensures !Passes(log[q], j) { assert more[q] == log[q]; }
        }
      }
    }
  }

  lemma {:induction false} TornDownAppend(log: Log, e: Event, j: nat)
    ensures TornDown(log + [e], j) <==> TornDown(log, j) || (e.PluginStopping? && e.i == j)
  {
    if TornDown(log, j) {
      var e' :| e' in log && e'.PluginStopping? && e'.i == j;
      assert e' in log + [e];
    }
    if e.PluginStopping? && e.i == j {
      assert e in log + [e];
    }
  }

  /** An event that tears nothing down keeps the walk exact, wherever the walk has already passed. */
  lemma {:induction false} WalkExactAppend(c: Config, log: Log, e: Event, i: nat)
    requires WalkExact(c, log, i) && !e.PluginStopping?
    requires e.PluginApplied? && e.i >= i ==> AppliedInTime(log, e.i) || exists p :: p in log && Passes(p, e.i)
    ensures WalkExact(c, log + [e], i)
  {
    forall j: nat | i <= j < |c.plugins|
      ensures TornDown(log + [e], j) <==> c.plugins[j].hasTeardown && AppliedInTime(log + [e], j)
    {
      InTimeAppend(log, e, j);
      TornDownAppend(log, e, j);
    }
  }

  lemma {:induction false} PassedAbove(c: Config, log: Log, i: nat, j: nat)
    requires WalkAt(c, log, i) && i < j
    ensures exists p :: p in log && Passes(p, j)
  {
    var e :| e in log && e.PluginStopping? && e.i == i;
    assert Passes(e, j);
  }

  lemma {:induction false} ShutKept(c: Config, s: State, s': State, events: Log)
    requires ShutInvariant(c, s) && s'.shut == s.shut && s'.callbacks == s.callbacks && s'.log == s.log + events
    requires forall e | e in events :: ShutQuiet(e)
    ensures ShutInvariant(c, s')
    decreases |events|
  {
    if events == [] {
      assert s'.log == s.log;
    } else {
      var e := events[0];
      var m := s'.(log := s.log + [e]);
      ShutKeptOne(c, s, m, e);
      assert m.log + events[1..] == s'.log;
      ShutKept(c, m, s', events[1..]);
    }
  }

  lemma {:induction false} ShutKeptOne(c: Config, s: State, s': State, e: Event)
    requires ShutInvariant(c, s) && s'.shut == s.shut && s'.callbacks == s.callbacks && s'.log == s.log + [e]
    requires ShutQuiet(e)
    ensures ShutInvariant(c, s')
  {
    assert forall x :: x in s'.log <==> x in s.log || x == e;
    if s.shut.Teardown? {
      TeardownKept(c, s.log, s.shut.at, s.shut.closing, e);
    } else if s.shut.Callback? {
      assert Passes(CallbackRun(s.shut.k), if e.PluginApplied? then e.i else 0);
      WalkExactAppend(c, s.log, e, 0);
      ClosingKept(s.log, s.shut.closing, e);
    }
  }

  lemma {:induction false} ClosingKept(log: Log, closing: Closing, e: Event)
    requires ClosingFits(log, closing)
    requires !e.ReadyResolved? && !e.DeadlineFired? && !e.StageTwo? && !e.ExecutionAborted?
    ensures ClosingFits(log + [e], closing)
  {
    if closing.forced {
      var inFlight :| StageTwo(inFlight) in log && closing.pending == Busy(inFlight);
      assert StageTwo(inFlight) in log + [e];
    }
  }

  lemma {:induction false} TeardownKept(c: Config, log: Log, i: nat, closing: Closing, e: Event)
    requires WalkAt(c, log, i) && ClosingFits(log, closing) && ShutQuiet(e)
    ensures WalkAt(c, log + [e], i) && ClosingFits(log + [e], closing)
  {
    WalkAtKept(c, log, i, e);
    ClosingKept(log, closing, e);
  }

  lemma {:induction false} WalkAtKept(c: Config, log: Log, i: nat, e: Event)
    requires WalkAt(c, log, i) && ShutQuiet(e)
    ensures WalkAt(c, log + [e], i)
  {
    TeardownWalkKept(c, log, i, e);
    TornDownAppend(log, e, i);
  }

  lemma {:induction false} TeardownWalkKept(c: Config, log: Log, i: nat, e: Event)
    requires WalkAt(c, log, i) && ShutQuiet(e)
    ensures WalkExact(c, log + [e], i)
  {
    if e.PluginApplied? && e.i > i {
      PassedAbove(c, log, i, e.i);
    }
    assert TornDown(log, i) && AppliedInTime(log, i);
    WalkExactAppend(c, log, e, i);
  }

  // ----- initPlugins -----

  lemma {:induction false} ApplyingListed(log: Log, i: nat)
    requires forall j: nat :: (PluginApplying(j) in log <==> j < i) && (PluginApplied(j) in log <==> j < i)
    ensures forall j: nat :: (PluginApplying(j) in log + [PluginApplying(i)] <==> j <= i)
    ensures forall j: nat :: (PluginApplied(j) in log + [PluginApplying(i)] <==> j < i)
  {
  }

  lemma {:induction false} ApplyFromInit(c: Config, s: State, i: nat)
    requires i <= |c.plugins|
    requires forall j: nat :: (PluginApplying(j) in s.log <==> j < i) && (PluginApplied(j) in s.log <==> j < i)
    ensures InitInvariant(c, ApplyFrom(c, s, i))
  {
    ApplyingListed(s.log, i);
    assert PluginApplied(i) !in s.log;
  }

  lemma {:induction false} InitBootstraps(c: Config, s: State, a: Action)
    requires Enabled(c, s, a) && InitInvariant(c, s) && Bootstraps(a) && !a.Start?
    ensures InitInvariant(c, Next(c, s, a))
  {
    if a.BuildApplies? {
      ApplyFromInit(c, s, 0);
    } else if a.ApplyReturns? {
      ApplyFromInit(c, Emit(s, [PluginApplied(s.init.at)]), s.init.at + 1);
    } else {
      NotAllApplied(c, s);
    }
  }

  lemma {:induction false} InitStart(c: Config, s: State)
    requires Enabled(c, s, Start) && InitInvariant(c, s)
    ensures InitInvariant(c, Next(c, s, Start))
  {
    if !Stopped(s.log) && s.run.RunIdle? {
      if s.init.InitIdle? {
        ApplyFromInit(c, s.(run := RunInit), 0);
        assert Next(c, s, Start) == ApplyFrom(c, s.(run := RunInit), 0);
      } else {
        BootEmits(c, s, Start);
        InitKept(c, s, Boot(c, s), NewEvents(s.log, Boot(c, s).log));
      }
    }
  }

  lemma {:induction false} InitStep(c: Config, s: State, a: Action)
    requires Enabled(c, s, a) && InitInvariant(c, s)
    ensures InitInvariant(c, Next(c, s, a))
  {
    if a.Start? {
      InitStart(c, s);
    } else if Bootstraps(a) {
      InitBootstraps(c, s, a);
    } else {
      var s' := Next(c, s, a);
      Emits(c, s, a);
      InitUntouched(c, s, a);
      if !Runs(a) { RunUntouched(c, s, a); }
      InitKept(c, s, s', NewEvents(s.log, s'.log));
    }
  }

  // ----- run, hooks and readiness -----

  lemma {:induction false} HooksFromRun(c: Config, s: State, i: nat)
    requires i <= |c.plugins| && GateSettled in s.log && ReadinessInvariant(c, s)
    requires ReadyResolved !in s.log && (s.run.RunGate? || s.run.RunHook?)
    requires forall j: nat | PluginStarted(j) in s.log :: PluginStarting(j) in s.log
    requires forall j: nat | PluginStarting(j) in s.log :: j < i
    requires HooksStartedBelow(c, s.log, i)
    ensures RunInvariant(c, HooksFrom(c, s, i))
  {
  }

  lemma {:induction false} StartedListed(c: Config, log: Log, i: nat)
    requires HookAt(c, log, i)
    requires forall j: nat | PluginStarted(j) in log :: PluginStarting(j) in log
    ensures var more := log + [PluginStarted(i)];
            && (forall j: nat | PluginStarted(j) in more :: PluginStarting(j) in more)
            && (forall j: nat | PluginStarting(j) in more :: j < i + 1)
            && HooksStartedBelow(c, more, i + 1)
  {
  }

  lemma {:induction false} HookReady(c: Config, s: State)
    requires RunInvariant(c, s) && s.run.RunHook?
    ensures ReadinessInvariant(c, Emit(s, [PluginStarted(s.run.at)]))
    ensures GateSettled in s.log + [PluginStarted(s.run.at)] && ReadyResolved !in s.log + [PluginStarted(s.run.at)]
  {
  }

  lemma {:induction false} RunHookReturns(c: Config, s: State)
    requires RunInvariant(c, s) && s.run.RunHook?
    ensures RunInvariant(c, Next(c, s, HookReturns))
  {
    HookReady(c, s);
    StartedListed(c, s.log, s.run.at);
    HooksFromRun(c, Emit(s, [PluginStarted(s.run.at)]), s.run.at + 1);
  }

  lemma {:induction false} RunFinishes(c: Config, s: State)
    requires RunInvariant(c, s) && (s.run.RunHooksDone? || (s.run.RunGate? && Stopped(s.log)))
    ensures RunInvariant(c, FinishStart(s))
  {
    if Stopped(s.log) {
      assert Rejected(s.log) == [] && FinishStart(s).log == s.log;
    }
  }

  lemma {:induction false} RunGivesUp(c: Config, s: State)
    requires RunInvariant(c, s) && (s.run.RunIdle? || s.run.RunInit?)
    ensures RunInvariant(c, Emit(s.(run := RunThrew), Rejected(s.log)))
  {
  }

  lemma {:induction false} RunBoots(c: Config, s: State)
    requires RunInvariant(c, s) && (s.run.RunIdle? || s.run.RunInit?)
    ensures RunInvariant(c, Boot(c, s))
  {
    if !c.suspensionConfigured {
      RunGivesUp(c, s);
    }
  }

  lemma {:induction false} RunStarts(c: Config, s: State)
    requires RunInvariant(c, s) && Enabled(c, s, Start)
    ensures RunInvariant(c, Next(c, s, Start))
  {
    if !Stopped(s.log) && s.run.RunIdle? {
      if s.init.InitIdle? {
        var s1 := s.(run := RunInit);
        assert RunInvariant(c, s1);
        var s' := ApplyFrom(c, s1, 0);
        assert Next(c, s, Start) == s';
        ApplyFromEmits(c, s1, 0, Start);
        RunKept(c, s1, s', if s'.init.Applying? then [PluginApplying(0)] else []);
      } else {
        RunBoots(c, s);
      }
    }
  }

  lemma {:induction false} StopKeepsRun(c: Config, s: State)
    requires RunInvariant(c, s)
    ensures RunInvariant(c, StopNow(c, s))
  {
    if !Stopped(s.log) { StopMembers(c, s); }
  }

  lemma {:induction false} RunFails(c: Config, s: State)
    requires RunInvariant(c, s) && s.run.RunHookFailed?
    ensures RunInvariant(c, Next(c, s, FailureContinues))
  {
    var s1 := Emit(s.(run := RunUnwinding), Rejected(s.log));
    if Stopped(s.log) {
      assert s1.log == s.log;
    } else {
      StopMembers(c, s1);
      assert s1.log == s.log + [ReadyRejected];
    }
  }

  lemma {:induction false} RunQuietStep(c: Config, s: State, a: Action)
    requires Enabled(c, s, a) && RunInvariant(c, s) && !Runs(a) && !a.Stop?
    ensures RunInvariant(c, Next(c, s, a))
  {
    var s' := Next(c, s, a);
    Emits(c, s, a);
    RunUntouched(c, s, a);
    RunKept(c, s, s', NewEvents(s.log, s'.log));
  }

  lemma {:induction false} RunInitContinues(c: Config, s: State)
    requires Enabled(c, s, InitContinues) && RunInvariant(c, s)
    ensures RunInvariant(c, Next(c, s, InitContinues))
  {
    RunGivesUp(c, s);
    RunBoots(c, s);
  }

  lemma {:induction false} RunGateContinues(c: Config, s: State)
    requires Enabled(c, s, GateContinues) && RunInvariant(c, s)
    ensures RunInvariant(c, Next(c, s, GateContinues))
  {
    if Stopped(s.log) { RunFinishes(c, s); } else { HooksFromRun(c, s, 0); }
  }

  lemma {:induction false} RunEnds(c: Config, s: State, a: Action)
    requires Enabled(c, s, a) && RunInvariant(c, s)
    requires a.HookThrows? || a.UnwindContinues? || a.RoutesSettle? || a.RunStopReturns?
    ensures RunInvariant(c, Next(c, s, a))
  {
    if a.RoutesSettle? { StopKeepsRun(c, s.(run := RunStopping)); }
  }

  lemma {:induction false} RunStep(c: Config, s: State, a: Action)
    requires Enabled(c, s, a) && RunInvariant(c, s)
    ensures RunInvariant(c, Next(c, s, a))
  {
    match a
    case Start => RunStarts(c, s);
    case InitContinues => RunInitContinues(c, s);
    case GateContinues => RunGateContinues(c, s);
    case HookReturns => RunHookReturns(c, s);
    case HooksContinue => RunFinishes(c, s);
    case FailureContinues => RunFails(c, s);
    case Stop => StopKeepsRun(c, s);
    case _ => if Runs(a) { RunEnds(c, s, a); } else { RunQuietStep(c, s, a); }
  }

  // ----- shutdown -----

  /** The teardown walk is done with plugin `i` and above, and with nothing below. */
  ghost predicate WalkBelow(c: Config, log: Log, i: nat) {
    && i <= |c.plugins|
    && (forall e | e in log && e.PluginStopping? :: i <= e.i)
    && (forall e | e in log && e.PluginStopped? :: i <= e.i)
    && (forall e | e in log :: !e.CallbackRun? && !e.ContextStopped?)
    && WalkExact(c, log, i)
  }

  lemma {:induction false} NotPassedInTime(log: Log, i: nat)
    requires forall e | e in log :: !Passes(e, i)
    ensures AppliedInTime(log, i) <==> PluginApplied(i) in log
  {
    if PluginApplied(i) in log {
      var p :| 0 <= p < |log| && log[p] == PluginApplied(i);
      assert forall q | 0 <= q < p :: log[q] in log;
    }
  }

  /** Plugins the walk skips were neither torn down nor to be torn down. */
  lemma {:induction false} SkippedExact(c: Config, log: Log, i: nat, j: int)
    requires WalkBelow(c, log, i) && j == NextTeardown(c.plugins, log, i)
    ensures forall k: nat | j < k < i :: !TornDown(log, k) && !(c.plugins[k].hasTeardown && AppliedInTime(log, k))
  {
  }

  lemma {:induction false} WalkMoves(c: Config, log: Log, i: nat, e: Event)
    requires WalkBelow(c, log, i) && e.PluginStopping? && e.i == NextTeardown(c.plugins, log, i)
    ensures WalkAt(c, log + [e], e.i)
  {
    var j := e.i;
    SkippedExact(c, log, i, j);
    NotPassedInTime(log, j);
    forall k: nat | j <= k < |c.plugins|
      ensures TornDown(log + [e], k) <==> c.plugins[k].hasTeardown && AppliedInTime(log + [e], k)
    {
      InTimeAppend(log, e, k);
      TornDownAppend(log, e, k);
    }
    TornDownAppend(log, e, j);
  }

  lemma {:induction false} WalkEnds(c: Config, log: Log, i: nat)
    requires WalkBelow(c, log, i) && NextTeardown(c.plugins, log, i) == -1
    ensures WalkExact(c, log, 0)
  {
    SkippedExact(c, log, i, -1);
  }

  ghost predicate CallbacksRunDownTo(c: Config, s: State, k: nat) {
    && k <= s.callbacks
    && (forall j: nat | CallbackRun(j) in s.log :: k <= j)
    && (forall e | e in s.log :: !e.ContextStopped?)
    && WalkExact(c, s.log, 0)
  }

  ghost predicate ShutFrame(s: State) {
    && !s.shut.Open? && Stopped(s.log)
    && forall j: nat :: CallbackRegistered(j) in s.log <==> j < s.callbacks
  }

  lemma {:induction false} CallbacksBelowShut(c: Config, s: State, k: nat, closing: Closing)
    requires ShutFrame(s) && ClosingFits(s.log, closing) && CallbacksRunDownTo(c, s, k)
    ensures ShutInvariant(c, CallbacksBelow(s, k, closing))
  {
    if k > 0 {
      var e := CallbackRun(k - 1);
      ClosingKept(s.log, closing, e);
      WalkExactAppend(c, s.log, e, 0);
    }
  }

  lemma {:induction false} TeardownBelowShut(c: Config, s: State, i: nat, closing: Closing)
    requires ShutFrame(s) && ClosingFits(s.log, closing) && WalkBelow(c, s.log, i)
    ensures ShutInvariant(c, TeardownBelow(c, s, i, closing))
  {
    var j := NextTeardown(c.plugins, s.log, i);
    if j >= 0 {
      var e := PluginStopping(j, closing.partial, PluginStarted(j) in s.log);
      WalkMoves(c, s.log, i, e);
      ClosingKept(s.log, closing, e);
    } else {
      WalkEnds(c, s.log, i);
      CallbacksBelowShut(c, s, s.callbacks, closing);
    }
  }

  lemma {:induction false} WalkBelowAt(c: Config, log: Log, i: nat)
    requires WalkAt(c, log, i)
    ensures WalkBelow(c, log, i)
    ensures WalkBelow(c, log + [PluginStopped(i)], i)
  {
    WalkExactAppend(c, log, PluginStopped(i), i);
  }

  lemma {:induction false} ShutTeardownContinues(c: Config, s: State, a: Action)
    requires Enabled(c, s, a) && ShutInvariant(c, s) && (a.TeardownReturns? || a.TeardownThrows?)
    ensures ShutInvariant(c, Next(c, s, a))
  {
    var i, closing := s.shut.at, s.shut.closing;
    WalkBelowAt(c, s.log, i);
    ClosingKept(s.log, closing, PluginStopped(i));
    if a.TeardownReturns? {
      TeardownBelowShut(c, Emit(s, [PluginStopped(i)]), i, closing);
    } else {
      TeardownBelowShut(c, s, i, closing);
    }
  }

  lemma {:induction false} WalkFromTop(c: Config, log: Log)
    requires NoTeardownYet(log)
    ensures WalkBelow(c, log, |c.plugins|)
  {
  }

  function ForceEvents(c: Config, inFlight: seq<nat>): Log {
    [StageTwo(inFlight)] + ForRoutes(c.routes, (r: nat) => ExecutionAborted(r))
  }

  lemma {:induction false} ForceListed(c: Config, inFlight: seq<nat>)
    ensures forall e | e in ForceEvents(c, inFlight) :: e.StageTwo? || e.ExecutionAborted?
    ensures forall e | e in ForceEvents(c, inFlight) && e.StageTwo? :: e == StageTwo(inFlight)
    ensures StageTwo(inFlight) in ForceEvents(c, inFlight)
  {
    assert ForceEvents(c, inFlight)[0] == StageTwo(inFlight);
  }

  lemma {:induction false} ShutAfterRace(c: Config, s: State)
    requires Enabled(c, s, ShutdownContinues) && ShutInvariant(c, s)
    ensures ShutInvariant(c, AfterRace(c, s))
  {
    var partial := ReadyResolved !in s.log;
    if DeadlineFired in s.log {
      var forced := Emit(s, ForceEvents(c, s.inFlight));
      ForceListed(c, s.inFlight);
      assert StageTwo(s.inFlight) in forced.log;
      WalkFromTop(c, forced.log);
      TeardownBelowShut(c, forced, |c.plugins|, Closing(partial, true, Busy(s.inFlight)));
    } else {
      WalkFromTop(c, s.log);
      TeardownBelowShut(c, s, |c.plugins|, Closing(partial, false, []));
    }
  }

  lemma {:induction false} StopKeepsShut(c: Config, s: State)
    requires ShutInvariant(c, s)
    ensures ShutInvariant(c, StopNow(c, s))
  {
    if !Stopped(s.log) { StopMembers(c, s); }
  }

  lemma {:induction false} ShutFails(c: Config, s: State)
    requires ShutInvariant(c, s) && s.run.RunHookFailed?
    ensures ShutInvariant(c, Next(c, s, FailureContinues))
  {
    var s1 := Emit(s.(run := RunUnwinding), Rejected(s.log));
    ShutKept(c, s, s1, Rejected(s.log));
    StopKeepsShut(c, s1);
  }

  /** Before anything is torn down, the events of booting and of the race change nothing for the walk. */
  lemma {:induction false} ShutEarly(c: Config, s: State, s': State, e: Event)
    requires ShutInvariant(c, s) && s'.shut == s.shut && s'.callbacks == s.callbacks && s'.log == s.log + [e]
    requires (s.shut.Open? && e.ReadyResolved?)
             || (s.shut.Draining? && (e.DrainSettled? || e.DrainFailed? || e.DeadlineFired?))
    ensures ShutInvariant(c, s')
  {
  }

  lemma {:induction false} ShutHooksContinue(c: Config, s: State)
    requires ShutInvariant(c, s)
    ensures ShutInvariant(c, FinishStart(s))
  {
    if Stopped(s.log) {
      ShutKept(c, s, FinishStart(s), Rejected(s.log));
    } else {
      ShutEarly(c, s, FinishStart(s), ReadyResolved);
    }
  }

  lemma {:induction false} ShutRegisters(c: Config, s: State)
    requires ShutInvariant(c, s)
    ensures ShutInvariant(c, Next(c, s, RegisterTeardown))
  {
    var e := CallbackRegistered(s.callbacks);
    if s.shut.Teardown? {
      WalkExactAppend(c, s.log, e, s.shut.at);
      TornDownAppend(s.log, e, s.shut.at);
      ClosingKept(s.log, s.shut.closing, e);
    } else if s.shut.Callback? {
      WalkExactAppend(c, s.log, e, 0);
      ClosingKept(s.log, s.shut.closing, e);
    }
  }

  lemma {:induction false} ShutQuietStep(c: Config, s: State, a: Action)
    requires Enabled(c, s, a) && ShutInvariant(c, s) && !Shuts(a)
    requires !a.HooksContinue? && !a.DrainSettles? && !a.DrainFails? && !a.DeadlineFires?
    ensures ShutInvariant(c, Next(c, s, a))
  {
    var s' := Next(c, s, a);
    Emits(c, s, a);
    ShutUntouched(c, s, a);
    ShutKept(c, s, s', NewEvents(s.log, s'.log));
  }

  lemma {:induction false} ShutStep(c: Config, s: State, a: Action)
    requires Enabled(c, s, a) && ShutInvariant(c, s)
    ensures ShutInvariant(c, Next(c, s, a))
  {
    match a
    case HooksContinue => ShutHooksContinue(c, s);
    case DrainSettles => ShutEarly(c, s, Next(c, s, a), DrainSettled);
    case DrainFails => ShutEarly(c, s, Next(c, s, a), DrainFailed);
    case DeadlineFires => ShutEarly(c, s, Next(c, s, a), DeadlineFired);
    case Stop => StopKeepsShut(c, s);
    case FailureContinues => ShutFails(c, s);
    case RoutesSettle(_) => ShutRoutesSettle(c, s, a);
    case ShutdownContinues => ShutAfterRace(c, s);
    case CallbackReturns => CallbacksBelowShut(c, s, s.shut.k, s.shut.closing);
    case RegisterTeardown => ShutRegisters(c, s);
    case _ => if Tears(a) { ShutTeardownContinues(c, s, a); } else { ShutQuietStep(c, s, a); }
  }

  lemma {:induction false} ShutRoutesSettle(c: Config, s: State, a: Action)
    requires ShutInvariant(c, s) && a.RoutesSettle? && Enabled(c, s, a)
    ensures ShutInvariant(c, Next(c, s, a))
  {
    StopKeepsShut(c, s.(run := RunStopping));
  }

  // ----- what is announced -----

  lemma {:induction false} BootAnnounces(c: Config, s: State)
    requires BootInvariant(s) && (s.run.RunIdle? || s.run.RunInit?)
    ensures BootInvariant(Boot(c, s))
  {
    if c.suspensionConfigured {
      assert Boot(c, s).log[|s.log| + 1] == ContextStarted;
    }
  }

  lemma {:induction false} BootStart(c: Config, s: State)
    requires BootInvariant(s)
    ensures BootInvariant(Next(c, s, Start))
  {
    if !Stopped(s.log) && s.run.RunIdle? && !s.init.InitIdle? { BootAnnounces(c, s); }
  }

  /** Only `start()` and the end of `initPlugins` move `run` towards its announcements. */
  lemma {:induction false} WaitingKept(c: Config, s: State, a: Action)
    requires Enabled(c, s, a) && !Boots(a)
    ensures var run := Next(c, s, a).run;
            && (run.RunIdle? || run.RunInit? ==> run == s.run)
            && (s.run.RunIdle? || s.run.RunInit? || s.run.RunThrew? ==> run == s.run)
  {
  }

  lemma {:induction false} BootKept(s: State, s': State, events: Log)
    requires BootInvariant(s) && s'.log == s.log + events
    requires forall e | e in events :: !e.ContextStarting? && !e.ContextStarted?
    requires s'.run.RunIdle? || s'.run.RunInit? ==> s'.run == s.run
    requires s.run.RunIdle? || s.run.RunInit? || s.run.RunThrew? ==> s'.run == s.run
    ensures BootInvariant(s')
  {
  }

  lemma {:induction false} BootStep(c: Config, s: State, a: Action)
    requires Enabled(c, s, a) && BootInvariant(s)
    ensures BootInvariant(Next(c, s, a))
  {
    if a.Start? {
      BootStart(c, s);
    } else if a.InitContinues? {
      BootAnnounces(c, s);
    } else {
      Emits(c, s, a);
      WaitingKept(c, s, a);
      BootKept(s, Next(c, s, a), NewEvents(s.log, Next(c, s, a).log));
    }
  }

  // ----- work in flight -----

  lemma {:induction false} BalanceOn(log: Log, e: Event, r: nat)
    ensures Balance(log + [e], r)
            == Balance(log, r) + if e == WorkArrived(r) then 1 else if e == WorkSettled(r) then -1 else 0
  {
    assert (log + [e])[..|log|] == log;
  }

  lemma {:induction false} BalanceKept(log: Log, events: Log, r: nat)
    requires forall e | e in events :: !e.WorkArrived? && !e.WorkSettled?
    ensures Balance(log + events, r) == Balance(log, r)
    decreases |events|
  {
    if events == [] {
      assert log + events == log;
    } else {
      var n := |events| - 1;
      BalanceKept(log, events[..n], r);
      BalanceOn(log + events[..n], events[n], r);
      BurstSplit(log, events);
    }
  }

  lemma {:induction false} InFlightUntouched(c: Config, s: State, a: Action)
    requires Enabled(c, s, a) && !a.WorkArrives? && !a.WorkSettles?
    ensures Next(c, s, a).inFlight == s.inFlight
  {
  }

  /** What one piece of work does to the count of its route. */
  function Delta(e: Event): int {
    if e.WorkArrived? then 1 else if e.WorkSettled? then -1 else 0
  }

  lemma {:induction false} WorkCounted(c: Config, log: Log, inFlight: seq<nat>, e: Event, after: seq<nat>)
    requires WorkFits(c, log, inFlight) && (e.WorkArrived? || e.WorkSettled?) && e.route < c.routes
    requires |after| == c.routes && after[e.route] == inFlight[e.route] + Delta(e)
    requires forall r: nat | r < c.routes && r != e.route :: after[r] == inFlight[r]
    ensures WorkFits(c, log + [e], after)
  {
    forall r: nat | r < c.routes ensures after[r] == Balance(log + [e], r) {
      BalanceOn(log, e, r);
    }
  }

  lemma {:induction false} WorkStep(c: Config, s: State, a: Action)
    requires Enabled(c, s, a) && WorkFits(c, s.log, s.inFlight)
    ensures WorkFits(c, Next(c, s, a).log, Next(c, s, a).inFlight)
  {
    var s' := Next(c, s, a);
    if a.WorkArrives? {
      WorkCounted(c, s.log, s.inFlight, WorkArrived(a.route), s'.inFlight);
    } else if a.WorkSettles? {
      WorkCounted(c, s.log, s.inFlight, WorkSettled(a.route), s'.inFlight);
    } else {
      Emits(c, s, a);
      InFlightUntouched(c, s, a);
      var events := NewEvents(s.log, s'.log);
      forall r: nat | r < c.routes ensures s'.inFlight[r] == Balance(s'.log, r) {
        BalanceKept(s.log, events, r);
      }
    }
  }

  lemma {:induction false} DrainedUntouched(c: Config, s: State, a: Action)
    requires Enabled(c, s, a) && !a.RouteDrains?
    ensures Next(c, s, a).drained == s.drained
  {
  }

  lemma {:induction false} DrainStep(c: Config, s: State, a: Action)
    requires Enabled(c, s, a) && DrainFits(c, s.log, s.drained)
    ensures DrainFits(c, Next(c, s, a).log, Next(c, s, a).drained)
  {
    if !a.RouteDrains? {
      Emits(c, s, a);
      DrainedUntouched(c, s, a);
      DrainKept(c, s.log, NewEvents(s.log, Next(c, s, a).log), s.drained);
    }
  }

  lemma {:induction false} DrainKept(c: Config, log: Log, events: Log, drained: seq<bool>)
    requires DrainFits(c, log, drained) && forall e | e in events :: !e.RouteDrained?
    ensures DrainFits(c, log + events, drained)
  {
  }

  /** Which routes `forceStageTwo` lists. */
  lemma {:induction false} BusyMember(inFlight: seq<nat>, r: nat)
    ensures r in Busy(inFlight) <==> r < |inFlight| && inFlight[r] > 0
    decreases |inFlight|
  {
    if inFlight != [] {
      BusyMember(inFlight[..|inFlight| - 1], r);
    }
  }

  /** In which order. */
  lemma {:induction false} BusyAscends(inFlight: seq<nat>, i: nat, j: nat)
    requires i < j < |Busy(inFlight)|
    ensures Busy(inFlight)[i] < Busy(inFlight)[j]
    decreases |inFlight|
  {
    var front := inFlight[..|inFlight| - 1];
    if j < |Busy(front)| {
      BusyAscends(front, i, j);
    } else {
      BusyMember(front, Busy(front)[i]);
    }
  }
}

/**
 * Every step emits only events that have behind them what they must have. The
 * invariants of the state before the step say what has happened so far; a burst
 * of events is proper when each is proper behind the ones before it, so a step
 * that emits several is taken apart into its events, one after the other.
 */
module ContextProper {
  import opened ContextSteps
  import opened ContextInvariants

  lemma {:induction false} ProperApplyFrom(c: Config, s: State, i: nat)
    requires AllProper(c, s.log) && i <= |c.plugins|
    requires forall j: nat :: (PluginApplying(j) in s.log <==> j < i) && (PluginApplied(j) in s.log <==> j < i)
    ensures AllProper(c, ApplyFrom(c, s, i).log)
  {
    if i < |c.plugins| && c.plugins[i].valid {
      ProperAppend(c, s.log, PluginApplying(i));
    }
  }

  /** Plugin `i` is being applied, those below it have been. */
  ghost predicate ApplyingOnly(log: Log, i: nat) {
    forall j: nat :: (PluginApplying(j) in log <==> j <= i) && (PluginApplied(j) in log <==> j < i)
  }

  lemma {:induction false} ProperApplyReturns(c: Config, log: Log, s1: State, i: nat)
    requires AllProper(c, log) && i < |c.plugins| && ApplyingOnly(log, i)
    requires s1.log == log + [PluginApplied(i)]
    ensures AllProper(c, ApplyFrom(c, s1, i + 1).log)
  {
    ProperAppliedEvent(c, log, i);
    AppliedListed(log, i);
    ProperApplyFrom(c, s1, i + 1);
  }

  lemma {:induction false} AppliedListed(log: Log, i: nat)
    requires forall j: nat :: (PluginApplying(j) in log <==> j <= i) && (PluginApplied(j) in log <==> j < i)
    ensures forall j: nat :: (PluginApplying(j) in log + [PluginApplied(i)] <==> j < i + 1)
    ensures forall j: nat :: (PluginApplied(j) in log + [PluginApplied(i)] <==> j < i + 1)
  {
  }

  lemma {:induction false} ProperAppliedEvent(c: Config, log: Log, i: nat)
    requires AllProper(c, log) && PluginApplying(i) in log && PluginApplied(i) !in log
    ensures AllProper(c, log + [PluginApplied(i)])
  {
    ProperAppend(c, log, PluginApplied(i));
  }

  lemma {:induction false} ProperRejected(c: Config, log: Log)
    requires AllProper(c, log)
    ensures AllProper(c, log + Rejected(log))
  {
    if Settled(log) {
      assert log + [] == log;
    } else {
      ProperAppend(c, log, ReadyRejected);
    }
  }

  lemma {:induction false} ProperBoot(c: Config, s: State)
    requires AllProper(c, s.log) && ContextStarting !in s.log && ContextStarted !in s.log
    ensures AllProper(c, Boot(c, s).log)
  {
    ProperRejected(c, s.log);
    ProperAppend(c, s.log, ContextStarting);
    ProperAppend(c, s.log + [ContextStarting], ContextStarted);
    assert s.log + [ContextStarting] + [ContextStarted] == s.log + [ContextStarting, ContextStarted];
  }

  lemma {:induction false} ProperHooksFrom(c: Config, s: State, i: nat)
    requires i <= |c.plugins| && AllProper(c, s.log) && GateSettled in s.log
    requires forall j: nat | PluginStarting(j) in s.log :: j < i
    requires HooksStartedBelow(c, s.log, i)
    ensures AllProper(c, HooksFrom(c, s, i).log)
  {
    var j := NextHook(c.plugins, i);
    if !Stopped(s.log) && j < |c.plugins| {
      ProperAppend(c, s.log, PluginStarting(j));
    }
  }

  lemma {:induction false} ProperHookReturns(c: Config, s: State, s1: State, i: nat)
    requires AllProper(c, s.log) && HookAt(c, s.log, i) && GateSettled in s.log
    requires forall j: nat | PluginStarted(j) in s.log :: PluginStarting(j) in s.log
    requires s1 == Emit(s, [PluginStarted(i)])
    ensures AllProper(c, HooksFrom(c, s1, i + 1).log)
  {
    ProperHookStarted(c, s.log, i);
    StartedListed(c, s.log, i);
    ProperHooksFrom(c, s1, i + 1);
  }

  lemma {:induction false} ProperHookStarted(c: Config, log: Log, i: nat)
    requires AllProper(c, log) && HookAt(c, log, i)
    ensures AllProper(c, log + [PluginStarted(i)])
  {
    ProperAppend(c, log, PluginStarted(i));
  }

  lemma {:induction false} ProperFinishStart(c: Config, s: State)
    requires AllProper(c, s.log) && RunInvariant(c, s) && (s.run.RunHooksDone? || Stopped(s.log))
    ensures AllProper(c, FinishStart(s).log)
  {
    if Stopped(s.log) {
      ProperRejected(c, s.log);
    } else {
      ProperAppend(c, s.log, ReadyResolved);
    }
  }

  /** Each event of a burst is proper after the ones before it. */
  ghost predicate ProperBurst(c: Config, log: Log, events: Log) {
    forall k | 0 <= k < |events| :: Proper(c, log + events[..k], events[k])
  }

  lemma {:induction false} ProperBurstFront(c: Config, log: Log, events: Log)
    requires ProperBurst(c, log, events) && events != []
    ensures ProperBurst(c, log, events[..|events| - 1])
  {
    var front := events[..|events| - 1];
    forall k | 0 <= k < |front| ensures Proper(c, log + front[..k], front[k]) {
      assert front[..k] == events[..k] && Proper(c, log + events[..k], events[k]);
    }
  }

  lemma {:induction false} ProperAppendAll(c: Config, log: Log, events: Log)
    requires AllProper(c, log) && ProperBurst(c, log, events)
    ensures AllProper(c, log + events)
    decreases |events|
  {
    if events == [] {
      assert log + events == log;
    } else {
      var n := |events| - 1;
      ProperBurstFront(c, log, events);
      ProperAppendAll(c, log, events[..n]);
      ProperAppend(c, log + events[..n], events[n]);
      BurstSplit(log, events);
    }
  }

  lemma {:induction false} IntakeBurst(c: Config, log: Log, routes: nat)
    requires Stopped(log) && !RaceDecided(log) && routes <= c.routes
    ensures ProperBurst(c, log, ForRoutes(routes, (r: nat) => IntakeAborted(r)))
  {
  }

  lemma {:induction false} ForceBurst(c: Config, log: Log, routes: nat)
    requires DeadlineFired in log && NoTeardownYet(log) && routes <= c.routes
    ensures ProperBurst(c, log, ForRoutes(routes, (r: nat) => ExecutionAborted(r)))
  {
  }

  lemma {:induction false} StopPrefixListed(log: Log, more: Log)
    requires more == log + Rejected(log) + [ContextStopping]
    ensures Settled(more) && Stopped(more)
    ensures RaceDecided(more) ==> RaceDecided(log)
  {
    assert forall e | e in Rejected(log) :: e == ReadyRejected;
    assert forall e | e in more :: e in log || e in Rejected(log) || e == ContextStopping;
    assert more[|more| - 1] == ContextStopping;
    if !Settled(log) {
      assert more[|log|] == ReadyRejected;
    }
  }

  lemma {:induction false} SettledByRejecting(log: Log)
    ensures Settled(log + Rejected(log))
    ensures Stopped(log + Rejected(log)) <==> Stopped(log)
  {
    if !Settled(log) {
      assert (log + [ReadyRejected])[|log|] == ReadyRejected;
    }
  }

  lemma {:induction false} ProperStopEvents(c: Config, log: Log)
    requires AllProper(c, log) && !Stopped(log) && !RaceDecided(log)
    ensures AllProper(c, log + StopEvents(c, log))
  {
    var more := log + Rejected(log) + [ContextStopping];
    var intake := ForRoutes(c.routes, (r: nat) => IntakeAborted(r));
    ProperRejected(c, log);
    SettledByRejecting(log);
    ProperAppend(c, log + Rejected(log), ContextStopping);
    StopPrefixListed(log, more);
    IntakeBurst(c, more, c.routes);
    ProperAppendAll(c, more, intake);
    Regroup(log, Rejected(log), [ContextStopping], intake);
  }

  lemma {:induction false} ProperStop(c: Config, s: State)
    requires AllProper(c, s.log) && ShutInvariant(c, s)
    ensures AllProper(c, StopNow(c, s).log)
  {
    if !Stopped(s.log) {
      ProperStopEvents(c, s.log);
      StopMembers(c, s);
    }
  }

  lemma {:induction false} ProperFails(c: Config, s: State, s1: State)
    requires AllProper(c, s.log) && ShutInvariant(c, s)
    requires s1 == Emit(s.(run := RunUnwinding), Rejected(s.log))
    ensures AllProper(c, StopNow(c, s1).log)
  {
    ProperRejected(c, s.log);
    ShutKept(c, s, s1, Rejected(s.log));
    ProperStop(c, s1);
  }

  lemma {:induction false} ProperCallbacksBelow(c: Config, s: State, k: nat, closing: Closing)
    requires AllProper(c, s.log) && ShutFrame(s) && ClosingFits(s.log, closing) && CallbacksRunDownTo(c, s, k)
    ensures AllProper(c, CallbacksBelow(s, k, closing).log)
  {
    if k > 0 {
      ProperAppend(c, s.log, CallbackRun(k - 1));
    } else {
      ProperAppend(c, s.log, ContextStopped(closing.forced, closing.pending));
    }
  }

  lemma {:induction false} ProperTeardownBelow(c: Config, s: State, i: nat, closing: Closing)
    requires AllProper(c, s.log) && ShutFrame(s) && ClosingFits(s.log, closing) && WalkBelow(c, s.log, i)
    requires ReadyResolved in s.log ==> AllHooksStarted(c, s.log)
    ensures AllProper(c, TeardownBelow(c, s, i, closing).log)
  {
    var j := NextTeardown(c.plugins, s.log, i);
    if j >= 0 {
      ProperAppend(c, s.log, PluginStopping(j, closing.partial, PluginStarted(j) in s.log));
    } else {
      WalkEnds(c, s.log, i);
      ProperCallbacksBelow(c, s, s.callbacks, closing);
    }
  }

  lemma {:induction false} ProperStopped(c: Config, log: Log, i: nat)
    requires AllProper(c, log) && WalkAt(c, log, i)
    ensures AllProper(c, log + [PluginStopped(i)])
  {
    ProperAppend(c, log, PluginStopped(i));
  }

  lemma {:induction false} StoppedReady(c: Config, s: State, s1: State)
    requires s.shut.Teardown? && s1 == Emit(s, [PluginStopped(s.shut.at)]) && ShutInvariant(c, s)
    ensures ShutFrame(s1) && ClosingFits(s1.log, s.shut.closing) && WalkBelow(c, s1.log, s.shut.at)
  {
    WalkBelowAt(c, s.log, s.shut.at);
    ClosingKept(s.log, s.shut.closing, PluginStopped(s.shut.at));
  }

  lemma {:induction false} ProperTeardownReturns(c: Config, s: State, s1: State)
    requires s.shut.Teardown? && s1 == Emit(s, [PluginStopped(s.shut.at)])
    requires AllProper(c, s.log) && ReadinessInvariant(c, s) && ShutInvariant(c, s)
    requires s.shut.at <= |c.plugins|
    ensures AllProper(c, TeardownBelow(c, s1, s.shut.at, s.shut.closing).log)
  {
    StoppedReady(c, s, s1);
    ProperStopped(c, s.log, s.shut.at);
    ProperTeardownBelow(c, s1, s.shut.at, s.shut.closing);
  }

  lemma {:induction false} ProperTeardownThrows(c: Config, s: State)
    requires s.shut.Teardown? && s.shut.at <= |c.plugins|
    requires AllProper(c, s.log) && ReadinessInvariant(c, s) && ShutInvariant(c, s)
    ensures AllProper(c, TeardownBelow(c, s, s.shut.at, s.shut.closing).log)
  {
    WalkBelowAt(c, s.log, s.shut.at);
    ProperTeardownBelow(c, s, s.shut.at, s.shut.closing);
  }

  lemma {:induction false} ProperStageTwo(c: Config, log: Log, inFlight: seq<nat>)
    requires AllProper(c, log) && DeadlineFired in log && NoForceYet(log) && WorkFits(c, log, inFlight)
    ensures AllProper(c, log + [StageTwo(inFlight)])
  {
    ProperAppend(c, log, StageTwo(inFlight));
  }

  lemma {:induction false} ForceSplit(c: Config, log: Log, inFlight: seq<nat>)
    ensures log + ForceEvents(c, inFlight)
            == log + [StageTwo(inFlight)] + ForRoutes(c.routes, (r: nat) => ExecutionAborted(r))
  {
  }

  lemma {:induction false} ProperForce(c: Config, log: Log, inFlight: seq<nat>)
    requires AllProper(c, log) && DeadlineFired in log && NoForceYet(log) && NoTeardownYet(log)
    requires WorkFits(c, log, inFlight)
    ensures AllProper(c, log + ForceEvents(c, inFlight))
  {
    ProperStageTwo(c, log, inFlight);
    ForceBurst(c, log + [StageTwo(inFlight)], c.routes);
    ProperAppendAll(c, log + [StageTwo(inFlight)], ForRoutes(c.routes, (r: nat) => ExecutionAborted(r)));
    ForceSplit(c, log, inFlight);
  }

  /** What forcing leaves for the teardown to start from. */
  lemma {:induction false} ForcedReady(c: Config, log: Log, more: Log, inFlight: seq<nat>, closing: Closing)
    requires more == log + ForceEvents(c, inFlight)
    requires Stopped(log) && DeadlineFired in log && NoTeardownYet(log) && NoForceYet(log)
    requires closing == Closing(ReadyResolved !in log, true, Busy(inFlight))
    ensures NoTeardownYet(more) && ClosingFits(more, closing)
    ensures ReadyResolved in more <==> ReadyResolved in log
  {
    ForceListed(c, inFlight);
    assert forall e :: e in more <==> e in log || e in ForceEvents(c, inFlight);
    assert StageTwo(inFlight) in more;
  }

  lemma {:induction false} ForcedFrame(c: Config, s: State, forced: State)
    requires ShutInvariant(c, s) && s.shut.Draining? && forced == Emit(s, ForceEvents(c, s.inFlight))
    ensures ShutFrame(forced)
  {
    ForceListed(c, s.inFlight);
  }

  lemma {:induction false} ProperForced(c: Config, s: State, forced: State, closing: Closing)
    requires s.shut.Draining? && DeadlineFired in s.log
    requires AllProper(c, s.log) && ShutInvariant(c, s) && WorkFits(c, s.log, s.inFlight)
    requires ReadyResolved in s.log ==> AllHooksStarted(c, s.log)
    requires forced == Emit(s, ForceEvents(c, s.inFlight))
    requires closing == Closing(ReadyResolved !in s.log, true, Busy(s.inFlight))
    ensures AllProper(c, TeardownBelow(c, forced, |c.plugins|, closing).log)
  {
    ProperForce(c, s.log, s.inFlight);
    ForcedReady(c, s.log, forced.log, s.inFlight, closing);
    ForcedFrame(c, s, forced);
    WalkFromTop(c, forced.log);
    ProperTeardownBelow(c, forced, |c.plugins|, closing);
  }

  lemma {:induction false} ProperAfterRace(c: Config, s: State)
    requires s.shut.Draining? && RaceDecided(s.log)
    requires AllProper(c, s.log) && ReadinessInvariant(c, s) && ShutInvariant(c, s) && WorkFits(c, s.log, s.inFlight)
    ensures AllProper(c, AfterRace(c, s).log)
  {
    var partial := ReadyResolved !in s.log;
    if DeadlineFired in s.log {
      ProperForced(c, s, Emit(s, ForceEvents(c, s.inFlight)), Closing(partial, true, Busy(s.inFlight)));
    } else {
      WalkFromTop(c, s.log);
      ProperTeardownBelow(c, s, |c.plugins|, Closing(partial, false, []));
    }
  }

  lemma {:induction false} ProperStart(c: Config, s: State)
    requires Enabled(c, s, Start) && AllProper(c, s.log) && InitInvariant(c, s) && BootInvariant(s)
    ensures AllProper(c, Next(c, s, Start).log)
  {
    if !Stopped(s.log) && s.run.RunIdle? {
      if s.init.InitIdle? { ProperApplyFrom(c, s, 0); } else { ProperBoot(c, s); }
    }
  }

  lemma {:induction false} ProperInitContinues(c: Config, s: State)
    requires AllProper(c, s.log) && ContextStarting !in s.log && ContextStarted !in s.log
    ensures AllProper(c, Emit(s.(run := RunThrew), Rejected(s.log)).log)
    ensures AllProper(c, Boot(c, s).log)
  {
    ProperRejected(c, s.log);
    ProperBoot(c, s);
  }

  lemma {:induction false} ProperGateContinues(c: Config, s: State)
    requires AllProper(c, s.log) && RunInvariant(c, s) && s.run.RunGate? && GateSettled in s.log
    ensures AllProper(c, if Stopped(s.log) then FinishStart(s).log else HooksFrom(c, s, 0).log)
  {
    if Stopped(s.log) { ProperFinishStart(c, s); } else { ProperHooksFrom(c, s, 0); }
  }

  lemma {:induction false} NextHookReturns(c: Config, s: State, s1: State)
    requires s.run.RunHook? && s.run.at < |c.plugins| && s1 == Emit(s, [PluginStarted(s.run.at)])
    ensures Next(c, s, HookReturns) == HooksFrom(c, s1, s.run.at + 1)
  {
  }

  lemma {:induction false} ProperHook(c: Config, s: State)
    requires AllProper(c, s.log) && s.run.RunHook? && HookAt(c, s.log, s.run.at) && GateSettled in s.log
    requires forall j: nat | PluginStarted(j) in s.log :: PluginStarting(j) in s.log
    ensures AllProper(c, Next(c, s, HookReturns).log)
  {
    var s1 := Emit(s, [PluginStarted(s.run.at)]);
    NextHookReturns(c, s, s1);
    ProperHookReturns(c, s, s1, s.run.at);
  }

  lemma {:induction false} ProperRuns(c: Config, s: State, a: Action)
    requires Enabled(c, s, a) && Runs(a) && !a.Start?
    requires AllProper(c, s.log) && RunInvariant(c, s) && ShutInvariant(c, s) && BootInvariant(s)
    ensures AllProper(c, Next(c, s, a).log)
  {
    if a.HookReturns? {
      ProperHook(c, s);
    } else if a.FailureContinues? {
      ProperFails(c, s, Emit(s.(run := RunUnwinding), Rejected(s.log)));
    } else if a.RoutesSettle? {
      ProperStop(c, s.(run := RunStopping));
    } else {
      ProperRunsOn(c, s, a);
    }
  }

  lemma {:induction false} ProperRunsOn(c: Config, s: State, a: Action)
    requires Enabled(c, s, a) && Runs(a) && !a.Start? && !a.HookReturns? && !a.FailureContinues? && !a.RoutesSettle?
    requires AllProper(c, s.log) && RunInvariant(c, s) && BootInvariant(s)
    ensures AllProper(c, Next(c, s, a).log)
  {
    match a
    case InitContinues => ProperInitContinues(c, s);
    case GateContinues => ProperGateContinues(c, s);
    case HooksContinue => ProperFinishStart(c, s);
    case _ =>
  }

  lemma {:induction false} ProperWorld(c: Config, s: State, a: Action)
    requires Enabled(c, s, a) && !Runs(a) && !Bootstraps(a)
    requires AllProper(c, s.log) && RunInvariant(c, s) && ShutInvariant(c, s)
    requires WorkFits(c, s.log, s.inFlight) && DrainFits(c, s.log, s.drained) && BootInvariant(s)
    ensures AllProper(c, Next(c, s, a).log)
  {
    if a.Stop? {
      ProperStop(c, s);
    } else if Tears(a) || a.CallbackReturns? {
      ProperTears(c, s, a);
    } else {
      ProperOutside(c, s, a);
    }
  }

  lemma {:induction false} ProperTears(c: Config, s: State, a: Action)
    requires Enabled(c, s, a) && (Tears(a) || a.CallbackReturns?)
    requires AllProper(c, s.log) && ReadinessInvariant(c, s) && ShutInvariant(c, s) && WorkFits(c, s.log, s.inFlight)
    ensures AllProper(c, Next(c, s, a).log)
  {
    if a.TeardownReturns? {
      NextTeardownReturns(c, s, Emit(s, [PluginStopped(s.shut.at)]));
      ProperTeardownReturns(c, s, Emit(s, [PluginStopped(s.shut.at)]));
    } else if a.TeardownThrows? {
      ProperTeardownThrows(c, s);
    } else if a.CallbackReturns? {
      ProperCallbackReturns(c, s);
    } else {
      ProperAfterRace(c, s);
    }
  }

  lemma {:induction false} NextTeardownReturns(c: Config, s: State, s1: State)
    requires Enabled(c, s, TeardownReturns) && s1 == Emit(s, [PluginStopped(s.shut.at)])
    ensures Next(c, s, TeardownReturns) == TeardownBelow(c, s1, s.shut.at, s.shut.closing)
  {
  }

  lemma {:induction false} ProperCallbackReturns(c: Config, s: State)
    requires s.shut.Callback? && AllProper(c, s.log) && ShutInvariant(c, s)
    ensures AllProper(c, CallbacksBelow(s, s.shut.k, s.shut.closing).log)
  {
    ProperCallbacksBelow(c, s, s.shut.k, s.shut.closing);
  }

  lemma {:induction false} ProperOutside(c: Config, s: State, a: Action)
    requires Enabled(c, s, a) && !Runs(a) && !Bootstraps(a) && !Tears(a) && !a.CallbackReturns? && !a.Stop?
    requires AllProper(c, s.log) && ShutInvariant(c, s)
    requires WorkFits(c, s.log, s.inFlight) && DrainFits(c, s.log, s.drained) && BootInvariant(s)
    ensures AllProper(c, Next(c, s, a).log)
  {
    match a
    case GateSettles => ProperAppend(c, s.log, GateSettled);
    case RouteDrains(r) => ProperDrained(c, s, r);
    case DrainSettles => ProperDrainSettled(c, s);
    case DrainFails => ProperAppend(c, s.log, DrainFailed);
    case DeadlineFires => ProperAppend(c, s.log, DeadlineFired);
    case RegisterTeardown => ProperAppend(c, s.log, CallbackRegistered(s.callbacks));
    case WorkArrives(r) => ProperAppend(c, s.log, WorkArrived(r));
    case WorkSettles(r) => ProperAppend(c, s.log, WorkSettled(r));
  }

  lemma {:induction false} ProperDrained(c: Config, s: State, r: nat)
    requires Enabled(c, s, RouteDrains(r)) && AllProper(c, s.log) && ShutInvariant(c, s)
    requires WorkFits(c, s.log, s.inFlight) && DrainFits(c, s.log, s.drained)
    ensures AllProper(c, s.log + [RouteDrained(r)])
  {
    ProperAppend(c, s.log, RouteDrained(r));
  }

  lemma {:induction false} ProperDrainSettled(c: Config, s: State)
    requires Enabled(c, s, DrainSettles) && AllProper(c, s.log) && ShutInvariant(c, s)
    requires DrainFits(c, s.log, s.drained)
    ensures AllProper(c, s.log + [DrainSettled])
  {
    forall r: nat | r < c.routes ensures RouteDrained(r) in s.log {
      assert s.drained[r] in s.drained;
    }
    ProperAppend(c, s.log, DrainSettled);
  }

  lemma {:induction false} ProperBuilds(c: Config, s: State)
    requires s.init.InitIdle? && AllProper(c, s.log) && InitInvariant(c, s)
    ensures AllProper(c, Next(c, s, BuildApplies).log)
  {
    ProperApplyFrom(c, s, 0);
  }

  lemma {:induction false} ProperApplied(c: Config, s: State)
    requires s.init.Applying? && AllProper(c, s.log) && InitInvariant(c, s)
    ensures AllProper(c, Next(c, s, ApplyReturns).log)
  {
    var i := s.init.at;
    var s1 := Emit(s, [PluginApplied(i)]);
    ApplyingAt(c, s, i);
    ProperApplyReturns(c, s.log, s1, i);
    ProperOnwards(c, s, s1, i);
  }

  lemma {:induction false} ProperOnwards(c: Config, s: State, s1: State, i: nat)
    requires s.init == Applying(i) && s1 == Emit(s, [PluginApplied(i)])
    requires AllProper(c, ApplyFrom(c, s1, i + 1).log)
    ensures AllProper(c, Next(c, s, ApplyReturns).log)
  {
    NextApplies(c, s, s1);
  }

  lemma {:induction false} ApplyingAt(c: Config, s: State, i: nat)
    requires s.init == Applying(i) && InitInvariant(c, s)
    ensures i < |c.plugins| && ApplyingOnly(s.log, i)
  {
  }

  lemma {:induction false} NextApplies(c: Config, s: State, s1: State)
    requires s.init.Applying? && s1 == Emit(s, [PluginApplied(s.init.at)])
    ensures Next(c, s, ApplyReturns) == ApplyFrom(c, s1, s.init.at + 1)
  {
  }

  lemma {:induction false} ProperBootstraps(c: Config, s: State, a: Action)
    requires Enabled(c, s, a) && Bootstraps(a) && AllProper(c, s.log) && InitInvariant(c, s) && BootInvariant(s)
    ensures AllProper(c, Next(c, s, a).log)
  {
    match a
    case Start => ProperStart(c, s);
    case BuildApplies => ProperBuilds(c, s);
    case ApplyReturns => ProperApplied(c, s);
    case ApplyThrows =>
  }
}

/** What stopping a context is bound to bring about, and what brings a stop about. */
module ContextPromises {
  import opened ContextSteps
  import opened ContextInvariants
  import opened ContextProper
  import opened ContextLifecycle

  // ----- stage one: intake -----

  /** A context that is stopping has closed the intake of every route. */
  lemma {:induction false} StopClosesIntake(c: Config, actions: seq<Action>, s: State, r: nat)
    requires Run(c, actions, s) && Stopped(s.log) && r < c.routes
    ensures IntakeAborted(r) in s.log
    decreases |actions|
  {
    var n, before := LastStep(c, actions, s);
    if Stopped(before.log) {
      StopClosesIntake(c, actions[..n], before, r);
    } else {
      StoppingStep(c, before, actions[n], r);
    }
  }

  lemma {:induction false} ListedForRoutes(routes: nat, event: nat -> Event, r: nat)
    requires r < routes
    ensures event(r) in ForRoutes(routes, event)
  {
    assert ForRoutes(routes, event)[r] == event(r);
  }

  lemma {:induction false} StopNowCloses(c: Config, s: State, r: nat)
    requires !Stopped(s.log) && r < c.routes
    ensures IntakeAborted(r) in StopNow(c, s).log
  {
    ListedForRoutes(c.routes, (r: nat) => IntakeAborted(r), r);
  }

  /** Which actions can stop a context. */
  lemma {:induction false} StoppingActions(c: Config, s: State, a: Action)
    requires Enabled(c, s, a) && !Stopped(s.log) && Stopped(Next(c, s, a).log)
    ensures a.Stop? || a.FailureContinues? || (a.RoutesSettle? && SettlesForGood(c, a))
  {
    Emits(c, s, a);
    assert ContextStopping in NewEvents(s.log, Next(c, s, a).log);
  }

  lemma {:induction false} StoppingStep(c: Config, s: State, a: Action, r: nat)
    requires Enabled(c, s, a) && !Stopped(s.log) && Stopped(Next(c, s, a).log) && r < c.routes
    ensures IntakeAborted(r) in Next(c, s, a).log
  {
    StoppingActions(c, s, a);
    if a.FailureContinues? {
      SettledByRejecting(s.log);
      StopNowCloses(c, Emit(s.(run := RunUnwinding), Rejected(s.log)), r);
    } else {
      StopNowCloses(c, if a.Stop? then s else s.(run := RunStopping), r);
    }
  }

  // ----- stage two: execution -----

  lemma {:induction false} ForcedAborts(c: Config, s: State, r: nat)
    requires DeadlineFired in s.log && r < c.routes
    ensures ExecutionAborted(r) in AfterRace(c, s).log
  {
    ListedForRoutes(c.routes, (r: nat) => ExecutionAborted(r), r);
    var forced := Emit(s, [StageTwo(s.inFlight)] + ForRoutes(c.routes, (r: nat) => ExecutionAborted(r)));
    assert ExecutionAborted(r) in forced.log;
    var closing := Closing(ReadyResolved !in s.log, true, Busy(s.inFlight));
    TeardownBelowEmits(c, forced, |c.plugins|, closing, ShutdownContinues);
    assert forced.log <= AfterRace(c, s).log;
  }

  lemma {:induction false} OnlyRaceForces(c: Config, s: State, a: Action, e: Event)
    requires Enabled(c, s, a) && e !in s.log && e in Next(c, s, a).log && e.StageTwo?
    ensures a == ShutdownContinues
  {
    Emits(c, s, a);
    assert e in NewEvents(s.log, Next(c, s, a).log);
  }

  lemma {:induction false} StageTwoAborts(c: Config, actions: seq<Action>, s: State, e: Event, r: nat)
    requires Run(c, actions, s) && e in s.log && e.StageTwo? && r < c.routes
    ensures ExecutionAborted(r) in s.log
    decreases |actions|
  {
    var n, before := LastStep(c, actions, s);
    if e in before.log {
      StageTwoAborts(c, actions[..n], before, e, r);
    } else {
      OnlyRaceForces(c, before, actions[n], e);
      ForcesOnlyPastDeadline(c, before, e);
      ForcedAborts(c, before, r);
    }
  }

  lemma {:induction false} ForcesOnlyPastDeadline(c: Config, s: State, e: Event)
    requires e !in s.log && e in AfterRace(c, s).log && e.StageTwo?
    ensures DeadlineFired in s.log
  {
    if DeadlineFired !in s.log {
      NeverForces(c, s, Closing(ReadyResolved !in s.log, false, []), e);
    }
  }

  lemma {:induction false} NeverForces(c: Config, s: State, closing: Closing, e: Event)
    requires e in TeardownBelow(c, s, |c.plugins|, closing).log && e.StageTwo?
    ensures e in s.log
  {
  }

  /** A shutdown reported as forced has aborted the execution of every route before it says so. */
  lemma {:induction false} ForcedAbortsEveryRoute(c: Config, actions: seq<Action>, s: State, end: nat, r: nat)
    requires Run(c, actions, s) && end < |s.log| && s.log[end].ContextStopped? && s.log[end].forced && r < c.routes
    ensures ExecutionAborted(r) in s.log[..end]
  {
    ProperAt(c, actions, s, end);
    var inFlight :| StageTwo(inFlight) in s.log[..end];
    assert StageTwo(inFlight) in s.log;
    StageTwoAborts(c, actions, s, StageTwo(inFlight), r);
    var q: nat :| q < |s.log| && s.log[q] == ExecutionAborted(r);
    AbortsBefore(c, actions, s, end, q);
    assert s.log[..end][q] == ExecutionAborted(r);
  }

  lemma {:induction false} AbortsEarly(c: Config, before: Log, e: Event, e': Event)
    requires Proper(c, before, e) && e.ExecutionAborted? && e' in before
    ensures !e'.ContextStopped?
  {
  }

  lemma {:induction false} AbortsBefore(c: Config, actions: seq<Action>, s: State, end: nat, q: nat)
    requires Run(c, actions, s) && end < |s.log| && s.log[end].ContextStopped?
    requires q < |s.log| && s.log[q].ExecutionAborted?
    ensures q < end
  {
    ProperAt(c, actions, s, q);
    if s.log[end] in s.log[..q] {
      AbortsEarly(c, s.log[..q], s.log[q], s.log[end]);
    }
    BehindIsBefore(s.log, end, q);
  }

  lemma {:induction false} BehindIsBefore(log: Log, end: nat, q: nat)
    requires end < |log| && q < |log| && log[end] !in log[..q]
    ensures q <= end
  {
  }

  // ----- what stops a context -----

  /** Every route has fulfilled its start, and no plugin keeps the context alive. */
  predicate SettlesForGood(c: Config, a: Action) {
    a == RoutesSettle(true) && forall p | p in c.plugins :: !p.keepsAlive
  }

  predicate Stops(c: Config, a: Action) {
    a.Stop? || a.FailureContinues? || SettlesForGood(c, a)
  }

  /**
   * A context is stopped if and only if somebody called `stop()`, a start hook
   * failed, or every route came to its end and no plugin keeps it alive.
   */
  lemma {:induction false} StoppedIff(c: Config, actions: seq<Action>, s: State)
    requires Run(c, actions, s)
    ensures Stopped(s.log) <==> exists a :: a in actions && Stops(c, a)
    decreases |actions|
  {
    if actions != [] {
      var n, before := LastStep(c, actions, s);
      StoppedIff(c, actions[..n], before);
      StepStops(c, before, actions[n]);
      assert actions == actions[..n] + [actions[n]];
    }
  }

  lemma {:induction false} StepStops(c: Config, s: State, a: Action)
    requires Enabled(c, s, a)
    ensures Stopped(Next(c, s, a).log) <==> Stopped(s.log) || Stops(c, a)
  {
    KeptBy(c, s, a);
    if !Stopped(s.log) && Stops(c, a) {
      if a.FailureContinues? {
        SettledByRejecting(s.log);
        StopMembers(c, Emit(s.(run := RunUnwinding), Rejected(s.log)));
      } else {
        StopMembers(c, s);
      }
    } else if !Stopped(s.log) && Stopped(Next(c, s, a).log) {
      StoppingActions(c, s, a);
    }
  }

  // ----- teardown callbacks -----

  /** The callback loop has begun, or the shutdown is over without one. */
  predicate Begun(e: Event) {
    e.CallbackRun? || e.ContextStopped?
  }

  predicate HasBegun(log: Log) {
    exists e :: e in log && Begun(e)
  }

  /** Callback `k` was registered before the callback loop began. */
  predicate RegisteredInTime(log: Log, k: nat) {
    exists p: nat | p < |log| :: log[p] == CallbackRegistered(k) && !HasBegun(log[..p])
  }

  /** From `k` up exactly the callbacks registered in time have run; those below are still to run. */
  ghost predicate CallbacksExact(log: Log, k: nat) {
    forall j: nat ::
      && (j < k ==> RegisteredInTime(log, j))
      && (CallbackRun(j) in log <==> k <= j && RegisteredInTime(log, j))
  }

  ghost predicate CallbackInvariant(s: State) {
    && (s.shut.Callback? ==> HasBegun(s.log) && CallbacksExact(s.log, s.shut.k))
    && (s.shut.Closed? ==> HasBegun(s.log) && CallbacksExact(s.log, 0))
  }

  /** A completed shutdown has run exactly the callbacks registered before their turn came. */
  lemma {:induction false} CallbacksRunIff(c: Config, actions: seq<Action>, s: State, k: nat)
    requires Run(c, actions, s) && s.shut.Closed?
    ensures CallbackRun(k) in s.log <==> RegisteredInTime(s.log, k)
  {
    CallbacksKept(c, actions, s);
  }

  lemma {:induction false} CallbacksKept(c: Config, actions: seq<Action>, s: State)
    requires Run(c, actions, s)
    ensures CallbackInvariant(s)
    decreases |actions|
  {
    if actions != [] {
      var n, before := LastStep(c, actions, s);
      CallbacksKept(c, actions[..n], before);
      EveryRunIsProper(c, actions[..n], before);
      CallbackStep(c, before, actions[n]);
    }
  }

  lemma {:induction false} RegisteredOn(log: Log, more: Log, j: nat)
    requires log <= more
    requires HasBegun(log) || CallbackRegistered(j) !in more[|log|..]
    ensures RegisteredInTime(more, j) <==> RegisteredInTime(log, j)
  {
    if RegisteredInTime(log, j) {
      var p: nat :| p < |log| && log[p] == CallbackRegistered(j) && !HasBegun(log[..p]);
      assert more[p] == log[p] && more[..p] == log[..p];
    }
    if RegisteredInTime(more, j) {
      var p: nat :| p < |more| && more[p] == CallbackRegistered(j) && !HasBegun(more[..p]);
      BegunStays(log, more[..p]);
      TailMembers(log, more);
      if p < |log| {
        assert log[p] == more[p] && log[..p] == more[..p];
      }
    }
  }

  lemma {:induction false} BegunStays(log: Log, more: Log)
    ensures log <= more && HasBegun(log) ==> HasBegun(more)
  {
  }

  lemma {:induction false} TailMembers(log: Log, more: Log)
    requires log <= more
    ensures forall p | |log| <= p < |more| :: more[p] in more[|log|..]
  {
    assert forall p | |log| <= p < |more| :: more[p] == more[|log|..][p - |log|];
  }

  lemma {:induction false} ExactKept(log: Log, events: Log, k: nat)
    requires CallbacksExact(log, k) && HasBegun(log) && forall e | e in events :: !e.CallbackRun?
    ensures CallbacksExact(log + events, k) && HasBegun(log + events)
  {
    BegunStays(log, log + events);
    forall j: nat ensures RegisteredInTime(log + events, j) <==> RegisteredInTime(log, j) {
      RegisteredOn(log, log + events, j);
    }
  }

  /** One more callback runs, or the shutdown ends with none left. */
  lemma {:induction false} CallbackRuns(s: State, k: nat, closing: Closing)
    requires CallbacksExact(s.log, k)
    ensures CallbackInvariant(CallbacksBelow(s, k, closing))
  {
    var e := if k > 0 then CallbackRun(k - 1) else ContextStopped(closing.forced, closing.pending);
    assert Begun(e) && e in s.log + [e];
    forall j: nat ensures RegisteredInTime(s.log + [e], j) <==> RegisteredInTime(s.log, j) {
      RegisteredOn(s.log, s.log + [e], j);
    }
    forall j: nat ensures CallbackRun(j) in s.log + [e] <==> CallbackRun(j) in s.log || (k > 0 && j == k - 1) {
    }
  }

  /** When the callbacks' turn comes, all that are registered are registered in time. */
  lemma {:induction false} AllInTime(log: Log, callbacks: nat)
    requires !HasBegun(log) && forall j: nat :: CallbackRegistered(j) in log <==> j < callbacks
    ensures CallbacksExact(log, callbacks)
  {
    forall j: nat
      ensures CallbackRun(j) !in log
      ensures RegisteredInTime(log, j) <==> j < callbacks
    {
      assert Begun(CallbackRun(j));
      if j < callbacks {
        var p: nat :| p < |log| && log[p] == CallbackRegistered(j);
        NotBegunBefore(log, p);
      }
    }
  }

  lemma {:induction false} NotBegunBefore(log: Log, p: nat)
    requires !HasBegun(log) && p <= |log|
    ensures !HasBegun(log[..p])
  {
    BegunStays(log[..p], log);
  }

  lemma {:induction false} TeardownEnds(c: Config, s: State, i: nat, closing: Closing)
    requires i <= |c.plugins| && !HasBegun(s.log)
    requires forall j: nat :: CallbackRegistered(j) in s.log <==> j < s.callbacks
    ensures CallbackInvariant(TeardownBelow(c, s, i, closing))
  {
    if NextTeardown(c.plugins, s.log, i) < 0 {
      AllInTime(s.log, s.callbacks);
      CallbackRuns(s, s.callbacks, closing);
    }
  }

  lemma {:induction false} NotBegunOn(log: Log, events: Log)
    requires !HasBegun(log) && forall e | e in events :: !Begun(e) && !e.CallbackRegistered?
    ensures !HasBegun(log + events)
    ensures forall j: nat :: CallbackRegistered(j) in log + events <==> CallbackRegistered(j) in log
  {
  }

  lemma {:induction false} CallbackTears(c: Config, s: State, a: Action)
    requires Enabled(c, s, a) && ShutInvariant(c, s) && Tears(a)
    ensures CallbackInvariant(Next(c, s, a))
  {
    var at := if s.shut.Teardown? then s.shut.at else 0;
    if a.TeardownReturns? {
      NotBegunOn(s.log, [PluginStopped(at)]);
      TeardownEnds(c, Emit(s, [PluginStopped(at)]), at, s.shut.closing);
    } else if a.TeardownThrows? {
      TeardownEnds(c, s, at, s.shut.closing);
    } else {
      RaceTears(c, s);
    }
  }

  lemma {:induction false} RaceTears(c: Config, s: State)
    requires !HasBegun(s.log) && forall j: nat :: CallbackRegistered(j) in s.log <==> j < s.callbacks
    ensures CallbackInvariant(AfterRace(c, s))
  {
    var partial := ReadyResolved !in s.log;
    if DeadlineFired in s.log {
      ForceListed(c, s.inFlight);
      NotBegunOn(s.log, ForceEvents(c, s.inFlight));
      var forced := Emit(s, ForceEvents(c, s.inFlight));
      TeardownEnds(c, forced, |c.plugins|, Closing(partial, true, Busy(s.inFlight)));
    } else {
      TeardownEnds(c, s, |c.plugins|, Closing(partial, false, []));
    }
  }

  lemma {:induction false} ShutStays(c: Config, s: State, a: Action)
    requires Enabled(c, s, a) && (s.shut.Callback? || s.shut.Closed?) && Stopped(s.log)
    requires !Tears(a) && !a.CallbackReturns?
    ensures Next(c, s, a).shut == s.shut
  {
    if a.FailureContinues? { assert Rejected(s.log) == [] || Stopped(s.log + Rejected(s.log)); }
  }

  lemma {:induction false} CallbackStep(c: Config, s: State, a: Action)
    requires Enabled(c, s, a) && ShutInvariant(c, s) && CallbackInvariant(s)
    ensures CallbackInvariant(Next(c, s, a))
  {
    if a.CallbackReturns? {
      CallbackRuns(s, s.shut.k, s.shut.closing);
    } else if Tears(a) {
      CallbackTears(c, s, a);
    } else {
      Emits(c, s, a);
      var events := NewEvents(s.log, Next(c, s, a).log);
      if s.shut.Callback? || s.shut.Closed? {
        ShutStays(c, s, a);
        ExactKept(s.log, events, if s.shut.Callback? then s.shut.k else 0);
      } else {
        StaysBefore(c, s, a);
      }
    }
  }

  lemma {:induction false} StaysBefore(c: Config, s: State, a: Action)
    requires Enabled(c, s, a) && !s.shut.Callback? && !s.shut.Closed? && !Tears(a)
    ensures !Next(c, s, a).shut.Callback? && !Next(c, s, a).shut.Closed?
  {
  }

  // ----- teardowns that return, and runs that end -----

  /** When no teardown throws, every plugin torn down is announced as stopped by the time the shutdown is over. */
  lemma {:induction false} TeardownsAnnounced(c: Config, actions: seq<Action>, s: State, i: nat)
    requires Run(c, actions, s) && TeardownThrows !in actions && TornDown(s.log, i)
    ensures PluginStopped(i) in s.log || (s.shut.Teardown? && s.shut.at == i)
    decreases |actions|
  {
    var n, before := LastStep(c, actions, s);
    if TornDown(before.log, i) {
      assert actions[n] != TeardownThrows;
      TeardownsAnnounced(c, actions[..n], before, i);
      EveryRunIsProper(c, actions[..n], before);
      AnnouncedStep(c, before, actions[n], i);
    } else {
      TornDownNow(c, before, actions[n], i);
    }
  }

  lemma {:induction false} AnnouncedStep(c: Config, s: State, a: Action, i: nat)
    requires Enabled(c, s, a) && !a.TeardownThrows? && (s.shut.Teardown? ==> Stopped(s.log))
    requires PluginStopped(i) in s.log || (s.shut.Teardown? && s.shut.at == i)
    ensures PluginStopped(i) in Next(c, s, a).log || (Next(c, s, a).shut.Teardown? && Next(c, s, a).shut.at == i)
  {
    KeptBy(c, s, a);
    if a.TeardownReturns? {
      var s1 := Emit(s, [PluginStopped(s.shut.at)]);
      TeardownBelowEmits(c, s1, s.shut.at, s.shut.closing, a);
      assert s1.log[|s.log|] == PluginStopped(s.shut.at);
    } else if s.shut.Teardown? && PluginStopped(i) !in s.log {
      TeardownWaits(c, s, a);
    }
  }

  /** Only a teardown that returns or throws lets the shutdown go on. */
  lemma {:induction false} TeardownWaits(c: Config, s: State, a: Action)
    requires Enabled(c, s, a) && s.shut.Teardown? && !a.TeardownThrows? && !a.TeardownReturns?
    requires Stopped(s.log)
    ensures Next(c, s, a).shut == s.shut
  {
    if a.FailureContinues? { assert Stopped(s.log + Rejected(s.log)); }
  }

  lemma {:induction false} TornDownNow(c: Config, s: State, a: Action, i: nat)
    requires Enabled(c, s, a) && !TornDown(s.log, i) && TornDown(Next(c, s, a).log, i)
    ensures Next(c, s, a).shut.Teardown? && Next(c, s, a).shut.at == i
  {
    OnlyTearsTearDown(c, s, a, i);
    if a.TeardownReturns? {
      TornDownAppend(s.log, PluginStopped(s.shut.at), i);
      TornDownBelow(c, Emit(s, [PluginStopped(s.shut.at)]), s.shut.at, s.shut.closing, i);
    } else if a.TeardownThrows? {
      TornDownBelow(c, s, s.shut.at, s.shut.closing, i);
    } else {
      TornDownByRace(c, s, i);
    }
  }

  lemma {:induction false} OnlyTearsTearDown(c: Config, s: State, a: Action, i: nat)
    requires Enabled(c, s, a) && !TornDown(s.log, i) && TornDown(Next(c, s, a).log, i)
    ensures Tears(a)
  {
    Emits(c, s, a);
    var e :| e in Next(c, s, a).log && e.PluginStopping? && e.i == i;
    assert e !in s.log && e in NewEvents(s.log, Next(c, s, a).log);
  }

  lemma {:induction false} TornDownBelow(c: Config, s: State, i: nat, closing: Closing, j: nat)
    requires i <= |c.plugins| && !TornDown(s.log, j) && TornDown(TeardownBelow(c, s, i, closing).log, j)
    ensures TeardownBelow(c, s, i, closing).shut == Teardown(j, closing)
  {
    var next := NextTeardown(c.plugins, s.log, i);
    if next >= 0 {
      TornDownAppend(s.log, PluginStopping(next, closing.partial, PluginStarted(next) in s.log), j);
    } else if s.callbacks > 0 {
      TornDownAppend(s.log, CallbackRun(s.callbacks - 1), j);
    } else {
      TornDownAppend(s.log, ContextStopped(closing.forced, closing.pending), j);
    }
  }

  lemma {:induction false} TornDownByRace(c: Config, s: State, i: nat)
    requires !TornDown(s.log, i) && TornDown(AfterRace(c, s).log, i)
    ensures AfterRace(c, s).shut.Teardown? && AfterRace(c, s).shut.at == i
  {
    var partial := ReadyResolved !in s.log;
    if DeadlineFired in s.log {
      ForceListed(c, s.inFlight);
      var forced := Emit(s, ForceEvents(c, s.inFlight));
      assert !TornDown(forced.log, i);
      TornDownBelow(c, forced, |c.plugins|, Closing(partial, true, Busy(s.inFlight)), i);
    } else {
      TornDownBelow(c, s, |c.plugins|, Closing(partial, false, []), i);
    }
  }

  lemma {:induction false} ClosedStays(c: Config, s: State, a: Action)
    requires Enabled(c, s, a) && s.shut.Closed? && Stopped(s.log)
    ensures Next(c, s, a).shut.Closed?
  {
    if a.FailureContinues? { assert Stopped(s.log + Rejected(s.log)); }
  }

  /**
   * `start()` comes back only when the shutdown it belongs to is over: always
   * when it throws behind the announcement, and when it returns unless the
   * routes ended, or failed, in a context that stays alive.
   */
  lemma {:induction false} RunOutlastsShutdown(c: Config, actions: seq<Action>, s: State)
    requires Run(c, actions, s)
    ensures s.run.RunThrew? && ContextStarted in s.log ==> s.shut.Closed?
    ensures s.run.RunReturned? ==> s.shut.Closed? || exists a :: a in actions && a.RoutesSettle? && !SettlesForGood(c, a)
    decreases |actions|
  {
    if actions != [] {
      var n, before := LastStep(c, actions, s);
      EveryRunIsProper(c, actions[..n], before);
      RunOutlastsShutdown(c, actions[..n], before);
      if before.shut.Closed? {
        ClosedStays(c, before, actions[n]);
      } else {
        EndsStep(c, before, actions[n]);
        assert actions[n] in actions;
      }
    }
  }

  lemma {:induction false} EndsStep(c: Config, s: State, a: Action)
    requires Enabled(c, s, a) && !s.shut.Closed? && BootInvariant(s)
    ensures var s' := Next(c, s, a);
            && (s'.run.RunThrew? && ContextStarted in s'.log ==> s.run.RunThrew? && ContextStarted in s.log)
            && (s'.run.RunReturned? ==> s.run.RunReturned? || (a.RoutesSettle? && !SettlesForGood(c, a)))
  {
    Emits(c, s, a);
    var events := NewEvents(s.log, Next(c, s, a).log);
    assert ContextStarted in events ==> Boots(a);
  }
}

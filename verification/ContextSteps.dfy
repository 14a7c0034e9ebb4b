/**
 * The life of a context as a transition system: a boot task (`initPlugins`,
 * `start`/`run`), a shutdown task (`stop`, `performShutdown`, teardown) and the
 * world around them. Each action is one stretch of code between two awaits, so
 * a run is any interleaving of the two tasks with callers and routes.
 * Automatic induction is off throughout: lemmas recurse explicitly or not at all.
 */
module ContextSteps {
  datatype Plugin = Plugin(valid: bool, hasStart: bool, hasTeardown: bool, keepsAlive: bool)

  /** What stays fixed: the plugins, the number of routes, and whether the suspension check passes. */
  datatype Config = Config(plugins: seq<Plugin>, routes: nat, suspensionConfigured: bool)

  /** Everything observable, in the order it happens. */
  datatype Event =
    | PluginApplying(i: nat)
    | PluginApplied(i: nat)
    | ContextStarting
    | ContextStarted
    | GateSettled
    | PluginStarting(i: nat)
    | PluginStarted(i: nat)
    | ReadyResolved
    | ReadyRejected
    | ContextStopping
    | IntakeAborted(route: nat)
    | DrainSettled
    | DrainFailed
    | DeadlineFired
    | StageTwo(inFlight: seq<nat>)
    | ExecutionAborted(route: nat)
    | PluginStopping(i: nat, partial: bool, started: bool)
    | PluginStopped(i: nat)
    | CallbackRegistered(k: nat)
    | CallbackRun(k: nat)
    | ContextStopped(forced: bool, pending: seq<nat>)
    | WorkArrived(route: nat)
    | WorkSettled(route: nat)
    | RouteDrained(route: nat)

  type Log = seq<Event>

  /** Where `initPlugins` is: awaiting the `apply` of one plugin, or over. */
  datatype InitPc = InitIdle | Applying(at: nat) | InitDone | InitFailed

  /** Where `run` is waiting. */
  datatype RunPc =
    | RunIdle
    | RunInit
    | RunGate
    | RunHook(at: nat)
    | RunHooksDone
    | RunHookFailed
    | RunUnwinding
    | RunRoutes
    | RunStopping
    | RunReturned
    | RunThrew

  /** The outcome a shutdown carries through its teardown. */
  datatype Closing = Closing(partial: bool, forced: bool, pending: seq<nat>)

  /** Where `performShutdown` is waiting. */
  datatype ShutPc =
    | Open
    | Draining
    | Teardown(at: nat, closing: Closing)
    | Callback(k: nat, closing: Closing)
    | Closed

  datatype State = State(
    init: InitPc, run: RunPc, shut: ShutPc, inFlight: seq<nat>, drained: seq<bool>, callbacks: nat, log: Log)

  datatype Action =
    | BuildApplies            // build() calls initPlugins()
    | ApplyReturns
    | ApplyThrows
    | Start                   // a caller calls start()
    | InitContinues           // run() resumes once initPlugins() is over
    | GateSettles             // every route is ready, failed, completed, or the bound elapsed
    | GateContinues
    | HookReturns
    | HookThrows
    | HooksContinue           // run() resumes once startPlugins() returned
    | FailureContinues        // run() resumes in its catch block
    | UnwindContinues
    | RoutesSettle(allFulfilled: bool)
    | RunStopReturns
    | Stop                    // a caller calls stop()
    | RouteDrains(route: nat)
    | DrainSettles
    | DrainFails
    | DeadlineFires
    | ShutdownContinues       // performShutdown() resumes after the race
    | TeardownReturns
    | TeardownThrows
    | CallbackReturns
    | WorkArrives(route: nat)
    | WorkSettles(route: nat)
    | RegisterTeardown

  predicate Stopped(log: Log) {
    ContextStopping in log
  }

  predicate Settled(log: Log) {
    ReadyResolved in log || ReadyRejected in log
  }

  predicate RaceDecided(log: Log) {
    DrainSettled in log || DrainFailed in log || DeadlineFired in log
  }

  function Emit(s: State, events: Log): State {
    s.(log := s.log + events)
  }

  function Rejected(log: Log): Log {
    if Settled(log) then [] else [ReadyRejected]
  }

  function ForRoutes(routes: nat, event: nat -> Event): Log {
    seq(routes, r requires 0 <= r < routes => event(r))
  }

  /** Routes with work in flight, in registration order. */
  function Busy(inFlight: seq<nat>): seq<nat> {
    if inFlight == [] then []
    else
      var n := |inFlight| - 1;
      Busy(inFlight[..n]) + if inFlight[n] > 0 then [n] else []
  }

  // ----- the stretches -----

  /** The `initPlugins` loop from plugin `i` to its next await. */
  function ApplyFrom(c: Config, s: State, i: nat): State {
    if i >= |c.plugins| then s.(init := InitDone)
    else if !c.plugins[i].valid then s.(init := InitFailed)
    else Emit(s.(init := Applying(i)), [PluginApplying(i)])
  }

  /** `run` from the suspension check to the readiness gate. */
  function Boot(c: Config, s: State): State {
    if !c.suspensionConfigured then Emit(s.(run := RunThrew), Rejected(s.log))
    else Emit(s.(run := RunGate), [ContextStarting, ContextStarted])
  }

  /** First plugin from `i` on with a `start` hook. */
  function NextHook(plugins: seq<Plugin>, i: nat): (j: nat)
    requires i <= |plugins|
    ensures i <= j <= |plugins|
    ensures j < |plugins| ==> plugins[j].hasStart
    ensures forall k | i <= k < j :: !plugins[k].hasStart
    decreases |plugins| - i
  {
    if i == |plugins| || plugins[i].hasStart then i else NextHook(plugins, i + 1)
  }

  /** The `startPlugins` loop from plugin `i` to its next await or its end. */
  function HooksFrom(c: Config, s: State, i: nat): State
    requires i <= |c.plugins|
  {
    var j := NextHook(c.plugins, i);
    if Stopped(s.log) || j == |c.plugins| then s.(run := RunHooksDone)
    else Emit(s.(run := RunHook(j)), [PluginStarting(j)])
  }

  /** `run` after the hooks: it settles readiness and waits for the routes. */
  function FinishStart(s: State): State {
    Emit(s.(run := RunRoutes), if Stopped(s.log) then Rejected(s.log) else [ReadyResolved])
  }

  /** `stop()` up to its first await; a second call joins the shutdown under way. */
  function StopNow(c: Config, s: State): State {
    if Stopped(s.log) then s
    else
      Emit(s.(shut := Draining),
           Rejected(s.log) + [ContextStopping] + ForRoutes(c.routes, (r: nat) => IntakeAborted(r)))
  }

  /** Next plugin below `i`, descending, that applied and has a `teardown`; -1 when there is none. */
  function NextTeardown(plugins: seq<Plugin>, log: Log, i: nat): (j: int)
    requires i <= |plugins|
    ensures -1 <= j < i
    ensures j >= 0 ==> plugins[j].hasTeardown && PluginApplied(j) in log
    ensures forall k: nat | j < k < i :: !(plugins[k].hasTeardown && PluginApplied(k) in log)
  {
    if i == 0 then -1
    else if plugins[i - 1].hasTeardown && PluginApplied(i - 1) in log then i - 1
    else NextTeardown(plugins, log, i - 1)
  }

  /** The teardown loop from just below plugin `i` to its next await, or on to the callbacks. */
  function TeardownBelow(c: Config, s: State, i: nat, closing: Closing): State
    requires i <= |c.plugins|
  {
    var j := NextTeardown(c.plugins, s.log, i);
    if j >= 0 then
      Emit(s.(shut := Teardown(j, closing)), [PluginStopping(j, closing.partial, PluginStarted(j) in s.log)])
    else CallbacksBelow(s, s.callbacks, closing)
  }

  /** The callback loop from just below `k`, or the end of the shutdown. */
  function CallbacksBelow(s: State, k: nat, closing: Closing): State {
    if k > 0 then Emit(s.(shut := Callback(k - 1, closing)), [CallbackRun(k - 1)])
    else Emit(s.(shut := Closed), [ContextStopped(closing.forced, closing.pending)])
  }

  /** `performShutdown` once the race is decided: the forced stage when the deadline won, then teardown. */
  function AfterRace(c: Config, s: State): State {
    var partial := ReadyResolved !in s.log;
    if DeadlineFired in s.log then
      var forced := Emit(s, [StageTwo(s.inFlight)] + ForRoutes(c.routes, (r: nat) => ExecutionAborted(r)));
      TeardownBelow(c, forced, |c.plugins|, Closing(partial, true, Busy(s.inFlight)))
    else TeardownBelow(c, s, |c.plugins|, Closing(partial, false, []))
  }

  // ----- the transition system -----

  predicate Enabled(c: Config, s: State, a: Action) {
    match a
    case BuildApplies => s.init.InitIdle? && s.run.RunIdle?
    case ApplyReturns => s.init.Applying?
    case ApplyThrows => s.init.Applying?
    case Start => true
    case InitContinues => s.run.RunInit? && (s.init.InitDone? || s.init.InitFailed?)
    case GateSettles => s.run.RunGate? && GateSettled !in s.log
    case GateContinues => s.run.RunGate? && GateSettled in s.log
    case HookReturns => s.run.RunHook?
    case HookThrows => s.run.RunHook?
    case HooksContinue => s.run.RunHooksDone?
    case FailureContinues => s.run.RunHookFailed?
    case UnwindContinues => s.run.RunUnwinding? && s.shut.Closed?
    case RoutesSettle(_) => s.run.RunRoutes?
    case RunStopReturns => s.run.RunStopping? && s.shut.Closed?
    case Stop => true
    case RouteDrains(r) =>
      s.shut.Draining? && r < |s.inFlight| && r < |s.drained| && s.inFlight[r] == 0 && !s.drained[r]
    case DrainSettles => s.shut.Draining? && !RaceDecided(s.log) && forall r | r in s.drained :: r
    case DrainFails => s.shut.Draining? && !RaceDecided(s.log)
    case DeadlineFires => s.shut.Draining? && !RaceDecided(s.log)
    case ShutdownContinues => s.shut.Draining? && RaceDecided(s.log)
    case TeardownReturns => s.shut.Teardown? && s.shut.at <= |c.plugins|
    case TeardownThrows => s.shut.Teardown? && s.shut.at <= |c.plugins|
    case CallbackReturns => s.shut.Callback?
    case WorkArrives(r) => r < |s.inFlight|
    case WorkSettles(r) => r < |s.inFlight| && s.inFlight[r] > 0
    case RegisterTeardown => true
  }

  function Next(c: Config, s: State, a: Action): State
    requires Enabled(c, s, a)
  {
    match a
    case BuildApplies => ApplyFrom(c, s, 0)
    case ApplyReturns => ApplyFrom(c, Emit(s, [PluginApplied(s.init.at)]), s.init.at + 1)
    case ApplyThrows => s.(init := InitFailed)
    case Start =>
      if Stopped(s.log) || !s.run.RunIdle? then s  // refused with RC1004, or joined
      else if s.init.InitIdle? then ApplyFrom(c, s, 0).(run := RunInit)
      else Boot(c, s)
    case InitContinues =>
      if s.init.InitFailed? then Emit(s.(run := RunThrew), Rejected(s.log)) else Boot(c, s)
    case GateSettles => Emit(s, [GateSettled])
    case GateContinues => if Stopped(s.log) then FinishStart(s) else HooksFrom(c, s, 0)
    case HookReturns =>
      HooksFrom(c, Emit(s, [PluginStarted(s.run.at)]), if s.run.at < |c.plugins| then s.run.at + 1 else |c.plugins|)
    case HookThrows => s.(run := RunHookFailed)
    case HooksContinue => FinishStart(s)
    case FailureContinues => StopNow(c, Emit(s.(run := RunUnwinding), Rejected(s.log)))
    case UnwindContinues => s.(run := RunThrew)
    case RoutesSettle(allFulfilled) =>
      if Stopped(s.log) then s.(run := RunStopping)
      else if allFulfilled && forall p | p in c.plugins :: !p.keepsAlive then StopNow(c, s.(run := RunStopping))
      else s.(run := RunReturned)
    case RunStopReturns => s.(run := RunReturned)
    case Stop => StopNow(c, s)
    case RouteDrains(r) => Emit(s.(drained := s.drained[r := true]), [RouteDrained(r)])
    case DrainSettles => Emit(s, [DrainSettled])
    case DrainFails => Emit(s, [DrainFailed])
    case DeadlineFires => Emit(s, [DeadlineFired])
    case ShutdownContinues => AfterRace(c, s)
    case TeardownReturns => TeardownBelow(c, Emit(s, [PluginStopped(s.shut.at)]), s.shut.at, s.shut.closing)
    case TeardownThrows => TeardownBelow(c, s, s.shut.at, s.shut.closing)
    case CallbackReturns => CallbacksBelow(s, s.shut.k, s.shut.closing)
    case WorkArrives(r) => Emit(s.(inFlight := s.inFlight[r := s.inFlight[r] + 1]), [WorkArrived(r)])
    case WorkSettles(r) => Emit(s.(inFlight := s.inFlight[r := s.inFlight[r] - 1]), [WorkSettled(r)])
    case RegisterTeardown => Emit(s.(callbacks := s.callbacks + 1), [CallbackRegistered(s.callbacks)])
  }

  function Initial(c: Config): State {
    State(InitIdle, RunIdle, Open, seq(c.routes, _ => 0), seq(c.routes, _ => false), 0, [])
  }

  /** `s` can be reached by some run. */
  ghost predicate Run(c: Config, actions: seq<Action>, s: State)
    decreases |actions|
  {
    if actions == [] then s == Initial(c)
    else
      var n := |actions| - 1;
      exists before ::
        Run(c, actions[..n], before) && Enabled(c, before, actions[n]) && s == Next(c, before, actions[n])
  }

  // ----- what every event in a run has behind it -----

  ghost predicate AllHooksStarted(c: Config, log: Log) {
    forall i | 0 <= i < |c.plugins| && c.plugins[i].hasStart :: PluginStarted(i) in log
  }

  predicate TornDown(log: Log, i: nat) {
    exists e :: e in log && e.PluginStopping? && e.i == i
  }

  /** The teardown walk is past plugin `i` once it touches a lower one, runs a callback or ends. */
  predicate Passes(e: Event, i: nat) {
    (e.PluginStopping? && e.i < i) || e.CallbackRun? || e.ContextStopped?
  }

  /** The `apply` of plugin `i` returned while the teardown walk could still reach it. */
  ghost predicate AppliedInTime(log: Log, i: nat) {
    exists p :: 0 <= p < |log| && log[p] == PluginApplied(i) && forall q | 0 <= q < p :: !Passes(log[q], i)
  }

  /** Work in flight on route `r`: what arrived there less what has settled. */
  function Balance(log: Log, r: nat): int {
    if log == [] then 0
    else
      var n := |log| - 1;
      Balance(log[..n], r) + if log[n] == WorkArrived(r) then 1 else if log[n] == WorkSettled(r) then -1 else 0
  }

  /** The counts say, route by route, what is in flight. */
  ghost predicate WorkFits(c: Config, log: Log, inFlight: seq<nat>) {
    |inFlight| == c.routes && forall r: nat | r < c.routes :: inFlight[r] == Balance(log, r)
  }

  /** The flags of the drain say which routes have drained. */
  ghost predicate DrainFits(c: Config, log: Log, drained: seq<bool>) {
    |drained| == c.routes && forall r: nat | r < c.routes :: drained[r] <==> RouteDrained(r) in log
  }

  /** `pending` lists, in ascending order, the routes with more arrivals than settlements in `log`. */
  ghost predicate NamesBusyRoutes(c: Config, log: Log, pending: seq<nat>) {
    && (forall i, j | 0 <= i < j < |pending| :: pending[i] < pending[j])
    && forall r: nat :: r in pending <==> r < c.routes && Balance(log, r) > 0
  }

  /** What must have happened, and must not have happened, before an event. */
  ghost predicate Proper(c: Config, before: Log, e: Event) {
    match e
    case PluginApplying(i) =>
      && i < |c.plugins| && c.plugins[i].valid && PluginApplying(i) !in before
      && forall j: nat | j < i :: PluginApplied(j) in before
    case PluginApplied(i) => PluginApplying(i) in before && PluginApplied(i) !in before
    case ContextStarting => ContextStarting !in before
    case ContextStarted => ContextStarting in before && ContextStarted !in before
    case GateSettled => ContextStarted in before && GateSettled !in before
    case PluginStarting(i) =>
      && i < |c.plugins| && c.plugins[i].hasStart
      && GateSettled in before && !Stopped(before)
      && (forall j: nat | PluginStarting(j) in before :: j < i)
      && forall j: nat | j < i && c.plugins[j].hasStart :: PluginStarted(j) in before
    case PluginStarted(i) => PluginStarting(i) in before && PluginStarted(i) !in before
    case ReadyResolved => !Settled(before) && !Stopped(before) && AllHooksStarted(c, before)
    case ReadyRejected => !Settled(before)
    case ContextStopping => !Stopped(before) && Settled(before)
    case IntakeAborted(r) => r < c.routes && Stopped(before) && !RaceDecided(before)
    case RouteDrained(r) => r < c.routes && Stopped(before) && Balance(before, r) == 0 && RouteDrained(r) !in before
    case DrainSettled =>
      Stopped(before) && !RaceDecided(before) && forall r: nat | r < c.routes :: RouteDrained(r) in before
    case DrainFailed => Stopped(before) && !RaceDecided(before)
    case DeadlineFired => Stopped(before) && !RaceDecided(before)
    case StageTwo(inFlight) =>
      DeadlineFired in before && (forall e' | e' in before :: !e'.StageTwo?) && WorkFits(c, before, inFlight)
    case ExecutionAborted(r) =>
      && r < c.routes && DeadlineFired in before
      && forall e' | e' in before :: !e'.PluginStopping? && !e'.CallbackRun? && !e'.ContextStopped?
    case PluginStopping(i, partial, started) =>
      && i < |c.plugins| && c.plugins[i].hasTeardown && PluginApplied(i) in before
      && Stopped(before) && RaceDecided(before)
      && (forall e' | e' in before && e'.PluginStopping? :: i < e'.i)
      && (forall e' | e' in before :: !e'.CallbackRun? && !e'.ContextStopped?)
      && (started <==> PluginStarted(i) in before)
      && (partial <==> ReadyResolved !in before)
      && (!partial && c.plugins[i].hasStart ==> started)
    case PluginStopped(i) => TornDown(before, i) && PluginStopped(i) !in before
    case CallbackRegistered(k) => CallbackRegistered(k) !in before
    case CallbackRun(k) =>
      && RaceDecided(before) && CallbackRegistered(k) in before
      && (forall j: nat | CallbackRun(j) in before :: k < j)
      && forall e' | e' in before :: !e'.ContextStopped?
    case ContextStopped(forced, pending) =>
      && Stopped(before) && RaceDecided(before)
      && (forall e' | e' in before :: !e'.ContextStopped?)
      && (forced <==> DeadlineFired in before)
      && (!forced ==> pending == [] && forall e' | e' in before :: !e'.ExecutionAborted?)
      && (forced ==> exists inFlight :: StageTwo(inFlight) in before && pending == Busy(inFlight))
      && (forall i: nat | i < |c.plugins| ::
            TornDown(before, i) <==> c.plugins[i].hasTeardown && AppliedInTime(before, i))
    case WorkArrived(r) => r < c.routes
    case WorkSettled(r) => r < c.routes && Balance(before, r) > 0
  }

  ghost predicate AllProper(c: Config, log: Log)
    decreases |log|
  {
    log != [] ==>
      var n := |log| - 1;
      AllProper(c, log[..n]) && Proper(c, log[..n], log[n])
  }

  lemma {:induction false} ProperEverywhere(c: Config, log: Log, n: nat)
    requires AllProper(c, log) && n < |log|
    ensures Proper(c, log[..n], log[n])
    decreases |log|
  {
    var m := |log| - 1;
    if n < m {
      ProperEverywhere(c, log[..m], n);
      assert log[..m][..n] == log[..n] && log[..m][n] == log[n];
    }
  }

  lemma {:induction false} ProperAppend(c: Config, log: Log, e: Event)
    requires AllProper(c, log) && Proper(c, log, e)
    ensures AllProper(c, log + [e])
  {
    assert (log + [e])[..|log|] == log;
  }

  // ----- which events each action can emit -----

  predicate MayEmit(a: Action, e: Event) {
    match a
    case BuildApplies => e.PluginApplying?
    case ApplyReturns => e.PluginApplying? || e.PluginApplied?
    case Start => e.PluginApplying? || e.ReadyRejected? || e.ContextStarting? || e.ContextStarted?
    case InitContinues => e.ReadyRejected? || e.ContextStarting? || e.ContextStarted?
    case GateSettles => e.GateSettled?
    case GateContinues => e.PluginStarting? || e.ReadyRejected?
    case HookReturns => e.PluginStarted? || e.PluginStarting?
    case HooksContinue => e.ReadyResolved? || e.ReadyRejected?
    case FailureContinues => e.ReadyRejected? || e.ContextStopping? || e.IntakeAborted?
    case RoutesSettle(_) => e.ReadyRejected? || e.ContextStopping? || e.IntakeAborted?
    case Stop => e.ReadyRejected? || e.ContextStopping? || e.IntakeAborted?
    case DrainSettles => e.DrainSettled?
    case DrainFails => e.DrainFailed?
    case DeadlineFires => e.DeadlineFired?
    case ShutdownContinues =>
      e.StageTwo? || e.ExecutionAborted? || e.PluginStopping? || e.CallbackRun? || e.ContextStopped?
    case TeardownReturns => e.PluginStopped? || e.PluginStopping? || e.CallbackRun? || e.ContextStopped?
    case TeardownThrows => e.PluginStopping? || e.CallbackRun? || e.ContextStopped?
    case CallbackReturns => e.CallbackRun? || e.ContextStopped?
    case RouteDrains(_) => e.RouteDrained?
    case WorkArrives(_) => e.WorkArrived?
    case WorkSettles(_) => e.WorkSettled?
    case RegisterTeardown => e.CallbackRegistered?
    case _ => false
  }

  ghost predicate Extends(a: Action, before: Log, after: Log) {
    before <= after && forall e | e in after[|before|..] :: MayEmit(a, e)
  }

  lemma {:induction false} ExtendsBy(a: Action, before: Log, events: Log)
    requires forall e | e in events :: MayEmit(a, e)
    ensures Extends(a, before, before + events)
  {
    assert (before + events)[|before|..] == events;
  }

  lemma {:induction false} ExtendsTwice(a: Action, before: Log, middle: Log, after: Log)
    requires Extends(a, before, middle) && Extends(a, middle, after)
    ensures Extends(a, before, after)
  {
    assert after[|before|..] == middle[|before|..] + after[|middle|..];
  }

  lemma {:induction false} ApplyFromEmits(c: Config, s: State, i: nat, a: Action)
    requires a.BuildApplies? || a.ApplyReturns? || a.Start?
    ensures Extends(a, s.log, ApplyFrom(c, s, i).log)
  {
    ExtendsBy(a, s.log, []);
    assert s.log + [] == s.log;
    ExtendsBy(a, s.log, [PluginApplying(i)]);
  }

  lemma {:induction false} BootEmits(c: Config, s: State, a: Action)
    requires a.Start? || a.InitContinues?
    ensures Extends(a, s.log, Boot(c, s).log)
  {
    ExtendsBy(a, s.log, Rejected(s.log));
    ExtendsBy(a, s.log, [ContextStarting, ContextStarted]);
  }

  lemma {:induction false} HooksFromEmits(c: Config, s: State, i: nat, a: Action)
    requires i <= |c.plugins| && (a.GateContinues? || a.HookReturns?)
    ensures Extends(a, s.log, HooksFrom(c, s, i).log)
  {
    ExtendsBy(a, s.log, []);
    assert s.log + [] == s.log;
    ExtendsBy(a, s.log, [PluginStarting(NextHook(c.plugins, i))]);
  }

  lemma {:induction false} FinishStartEmits(s: State, a: Action)
    requires a.HooksContinue? || (a.GateContinues? && Stopped(s.log))
    ensures Extends(a, s.log, FinishStart(s).log)
  {
    ExtendsBy(a, s.log, if Stopped(s.log) then Rejected(s.log) else [ReadyResolved]);
  }

  function StopEvents(c: Config, log: Log): Log {
    Rejected(log) + [ContextStopping] + ForRoutes(c.routes, (r: nat) => IntakeAborted(r))
  }

  lemma {:induction false} Regroup(a: Log, b: Log, c: Log, d: Log)
    ensures a + (b + c + d) == a + b + c + d
  {
  }

  lemma {:induction false} StopMembers(c: Config, s: State)
    requires !Stopped(s.log)
    ensures StopNow(c, s).log == s.log + StopEvents(c, s.log)
    ensures forall e | e in StopEvents(c, s.log) :: e == ReadyRejected || e == ContextStopping || e.IntakeAborted?
    ensures ReadyRejected in StopEvents(c, s.log) ==> !Settled(s.log)
    ensures ContextStopping in StopEvents(c, s.log)
    ensures Settled(s.log + StopEvents(c, s.log))
  {
    var events := StopEvents(c, s.log);
    assert events[|Rejected(s.log)|] == ContextStopping;
    if !Settled(s.log) {
      assert events[0] == ReadyRejected;
    }
  }

  lemma {:induction false} StopNowEmits(c: Config, s: State, a: Action)
    requires a.FailureContinues? || a.RoutesSettle? || a.Stop?
    ensures Extends(a, s.log, StopNow(c, s).log)
  {
    if Stopped(s.log) {
      ExtendsBy(a, s.log, []);
      assert s.log + [] == s.log;
    } else {
      StopMembers(c, s);
      ExtendsBy(a, s.log, StopEvents(c, s.log));
    }
  }

  predicate Tears(a: Action) {
    a.ShutdownContinues? || a.TeardownReturns? || a.TeardownThrows?
  }

  lemma {:induction false} CallbacksBelowEmits(s: State, k: nat, closing: Closing, a: Action)
    requires Tears(a) || a.CallbackReturns?
    ensures Extends(a, s.log, CallbacksBelow(s, k, closing).log)
  {
    ExtendsBy(a, s.log, [ContextStopped(closing.forced, closing.pending)]);
    if k > 0 {
      ExtendsBy(a, s.log, [CallbackRun(k - 1)]);
    }
  }

  lemma {:induction false} TeardownBelowEmits(c: Config, s: State, i: nat, closing: Closing, a: Action)
    requires i <= |c.plugins| && Tears(a)
    ensures Extends(a, s.log, TeardownBelow(c, s, i, closing).log)
  {
    var j := NextTeardown(c.plugins, s.log, i);
    if j >= 0 {
      ExtendsBy(a, s.log, [PluginStopping(j, closing.partial, PluginStarted(j) in s.log)]);
    } else {
      CallbacksBelowEmits(s, s.callbacks, closing, a);
    }
  }

  lemma {:induction false} AfterRaceEmits(c: Config, s: State)
    ensures Extends(ShutdownContinues, s.log, AfterRace(c, s).log)
  {
    var partial := ReadyResolved !in s.log;
    if DeadlineFired in s.log {
      var events := [StageTwo(s.inFlight)] + ForRoutes(c.routes, (r: nat) => ExecutionAborted(r));
      var forced := Emit(s, events);
      ExtendsBy(ShutdownContinues, s.log, events);
      TeardownBelowEmits(c, forced, |c.plugins|, Closing(partial, true, Busy(s.inFlight)), ShutdownContinues);
      ExtendsTwice(ShutdownContinues, s.log, forced.log, AfterRace(c, s).log);
    } else {
      TeardownBelowEmits(c, s, |c.plugins|, Closing(partial, false, []), ShutdownContinues);
    }
  }

  predicate Bootstraps(a: Action) {
    a.BuildApplies? || a.ApplyReturns? || a.ApplyThrows? || a.Start?
  }

  predicate Runs(a: Action) {
    || a.Start? || a.InitContinues? || a.GateContinues? || a.HookReturns? || a.HookThrows? || a.HooksContinue?
    || a.FailureContinues? || a.UnwindContinues? || a.RoutesSettle? || a.RunStopReturns?
  }

  predicate Shuts(a: Action) {
    || a.Stop? || a.FailureContinues? || a.RoutesSettle? || Tears(a) || a.CallbackReturns? || a.RegisterTeardown?
  }

  lemma {:induction false} BootstrapEmits(c: Config, s: State, a: Action)
    requires Enabled(c, s, a) && Bootstraps(a)
    ensures Extends(a, s.log, Next(c, s, a).log)
  {
    ExtendsBy(a, s.log, []);
    assert s.log + [] == s.log;
    match a
    case BuildApplies => ApplyFromEmits(c, s, 0, a);
    case ApplyReturns =>
      var s1 := Emit(s, [PluginApplied(s.init.at)]);
      ExtendsBy(a, s.log, [PluginApplied(s.init.at)]);
      ApplyFromEmits(c, s1, s.init.at + 1, a);
      ExtendsTwice(a, s.log, s1.log, ApplyFrom(c, s1, s.init.at + 1).log);
    case ApplyThrows =>
    case Start =>
      ApplyFromEmits(c, s, 0, a);
      BootEmits(c, s, a);
  }

  lemma {:induction false} RunEmits(c: Config, s: State, a: Action)
    requires Enabled(c, s, a) && Runs(a) && !a.Start?
    ensures Extends(a, s.log, Next(c, s, a).log)
  {
    ExtendsBy(a, s.log, []);
    assert s.log + [] == s.log;
    match a
    case InitContinues =>
      ExtendsBy(a, s.log, Rejected(s.log));
      BootEmits(c, s, a);
    case GateContinues =>
      if Stopped(s.log) { FinishStartEmits(s, a); } else { HooksFromEmits(c, s, 0, a); }
    case HookReturns =>
      var s1, i := Emit(s, [PluginStarted(s.run.at)]), if s.run.at < |c.plugins| then s.run.at + 1 else |c.plugins|;
      ExtendsBy(a, s.log, [PluginStarted(s.run.at)]);
      HooksFromEmits(c, s1, i, a);
      ExtendsTwice(a, s.log, s1.log, HooksFrom(c, s1, i).log);
    case HooksContinue => FinishStartEmits(s, a);
    case FailureContinues =>
      var s1 := Emit(s.(run := RunUnwinding), Rejected(s.log));
      ExtendsBy(a, s.log, Rejected(s.log));
      StopNowEmits(c, s1, a);
      ExtendsTwice(a, s.log, s1.log, StopNow(c, s1).log);
    case RoutesSettle(_) => StopNowEmits(c, s.(run := RunStopping), a);
    case _ =>
  }

  lemma {:induction false} WorldEmits(c: Config, s: State, a: Action)
    requires Enabled(c, s, a) && !Bootstraps(a) && !Runs(a)
    ensures Extends(a, s.log, Next(c, s, a).log)
  {
    ExtendsBy(a, s.log, []);
    assert s.log + [] == s.log;
    match a
    case GateSettles => ExtendsBy(a, s.log, [GateSettled]);
    case Stop => StopNowEmits(c, s, a);
    case DrainSettles => ExtendsBy(a, s.log, [DrainSettled]);
    case DrainFails => ExtendsBy(a, s.log, [DrainFailed]);
    case DeadlineFires => ExtendsBy(a, s.log, [DeadlineFired]);
    case ShutdownContinues => AfterRaceEmits(c, s);
    case TeardownReturns =>
      var s1 := Emit(s, [PluginStopped(s.shut.at)]);
      ExtendsBy(a, s.log, [PluginStopped(s.shut.at)]);
      TeardownBelowEmits(c, s1, s.shut.at, s.shut.closing, a);
      ExtendsTwice(a, s.log, s1.log, TeardownBelow(c, s1, s.shut.at, s.shut.closing).log);
    case TeardownThrows => TeardownBelowEmits(c, s, s.shut.at, s.shut.closing, a);
    case CallbackReturns => CallbacksBelowEmits(s, s.shut.k, s.shut.closing, a);
    case RegisterTeardown => ExtendsBy(a, s.log, [CallbackRegistered(s.callbacks)]);
    case RouteDrains(r) => ExtendsBy(a, s.log, [RouteDrained(r)]);
    case WorkArrives(r) => ExtendsBy(a, s.log, [WorkArrived(r)]);
    case WorkSettles(r) => ExtendsBy(a, s.log, [WorkSettled(r)]);
    case _ =>
  }

  /** Every action only appends events, of its own kinds. */
  lemma {:induction false} Emits(c: Config, s: State, a: Action)
    requires Enabled(c, s, a)
    ensures Extends(a, s.log, Next(c, s, a).log)
  {
    if Bootstraps(a) { BootstrapEmits(c, s, a); }
    else if Runs(a) { RunEmits(c, s, a); }
    else { WorldEmits(c, s, a); }
  }

  lemma {:induction false} InitUntouched(c: Config, s: State, a: Action)
    requires Enabled(c, s, a) && !Bootstraps(a)
    ensures Next(c, s, a).init == s.init
  {
  }

  lemma {:induction false} RunUntouched(c: Config, s: State, a: Action)
    requires Enabled(c, s, a) && !Runs(a)
    ensures Next(c, s, a).run == s.run
  {
  }

  lemma {:induction false} ShutUntouched(c: Config, s: State, a: Action)
    requires Enabled(c, s, a) && !Shuts(a)
    ensures Next(c, s, a).shut == s.shut && Next(c, s, a).callbacks == s.callbacks
  {
  }

  function NewEvents(before: Log, after: Log): (events: Log)
    requires before <= after
    ensures after == before + events
  {
    after[|before|..]
  }

  lemma {:induction false} BurstSplit(log: Log, events: Log)
    requires events != []
    ensures log + events[..|events| - 1] + [events[|events| - 1]] == log + events
  {
  }
}

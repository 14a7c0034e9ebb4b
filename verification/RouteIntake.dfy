/** The ingresses of one route: readiness, per-source lifetimes, and what aborts intake and execution. */
module RouteIntake {
  import opened Basics

  /** Why a route's intake or execution was aborted. */
  datatype Cause = SourceDone | AllSourcesDone | StartFailed | RouteStopped | Outside

  datatype Event =
    | Marked(i: nat)              // markReady(i), by ready() or by a first emit()
    | RouteStarted
    | Completed(i: nat)           // the source called complete()
    | Resolved(i: nat)            // its subscribe() resolved
    | Rejected(i: nat)            // its subscribe() rejected
    | WiringThrew                 // subscribing threw synchronously
    | SourceFailed(i: nat)        // route:source:failed
    | IntakeAborted(cause: Cause)
    | ExecutionAborted(cause: Cause)

  type Log = seq<Event>

  ghost predicate AllMarked(total: nat, log: Log) {
    forall i: nat | i < total :: Marked(i) in log
  }

  predicate IntakeClosed(log: Log) {
    exists e :: e in log && e.IntakeAborted?
  }

  predicate ExecutionDropped(log: Log) {
    exists e :: e in log && e.ExecutionAborted?
  }

  predicate Broken(log: Log) {
    exists e :: e in log && (e.Rejected? || e.WiringThrew?)
  }

  /** When a source has been told to stop: its route's intake is closed, or, beside siblings, it completed. */
  predicate SourceTold(total: nat, log: Log, i: nat) {
    IntakeClosed(log) || (total > 1 && Completed(i) in log)
  }

  /** What must have happened, and must not have happened, before an event. */
  ghost predicate Proper(total: nat, before: Log, e: Event) {
    match e
    case RouteStarted =>
      && RouteStarted !in before && AllMarked(total, before)
      && before != [] && before[|before| - 1].Marked? && before[|before| - 1] !in before[..|before| - 1]
    case SourceFailed(i) => Rejected(i) in before && SourceFailed(i) !in before && !SourceTold(total, before, i)
    case IntakeAborted(cause) =>
      && !IntakeClosed(before)
      && (cause == SourceDone ==> total == 1 && Completed(0) in before)
      && (cause == AllSourcesDone ==>
            total > 1 && !Broken(before) && forall i: nat | i < total :: Resolved(i) in before)
      && (cause == StartFailed ==> Broken(before))
    case ExecutionAborted(cause) =>
      && !ExecutionDropped(before) && IntakeClosedUnless(before, cause)
      && cause != SourceDone && cause != AllSourcesDone
      && (cause == StartFailed ==> Broken(before))
    case Resolved(i) => Resolved(i) !in before && Rejected(i) !in before
    case Rejected(i) => Resolved(i) !in before && Rejected(i) !in before
    case _ => true
  }

  /** Only an abort from outside may drop execution while intake is still open. */
  predicate IntakeClosedUnless(before: Log, cause: Cause) {
    cause == Outside || IntakeClosed(before)
  }

  ghost predicate AllProper(total: nat, log: Log)
    decreases |log|
  {
    log != [] ==>
      var n := |log| - 1;
      AllProper(total, log[..n]) && Proper(total, log[..n], log[n])
  }

  lemma ProperAppend(total: nat, log: Log, e: Event)
    requires AllProper(total, log) && Proper(total, log, e)
    ensures AllProper(total, log + [e])
  {
    assert (log + [e])[..|log|] == log;
  }

  lemma {:induction false} ProperEverywhere(total: nat, log: Log, n: nat)
    requires AllProper(total, log) && n < |log|
    ensures Proper(total, log[..n], log[n])
    decreases |log|
  {
    var m := |log| - 1;
    if n < m {
      ProperEverywhere(total, log[..m], n);
      assert log[..m][..n] == log[..n] && log[..m][n] == log[n];
    }
  }

  ghost function Below(n: nat): (s: set<nat>)
    ensures |s| == n && forall i: nat :: i in s <==> i < n
  {
    if n == 0 then {} else Below(n - 1) + {n - 1}
  }

  lemma {:induction false} SubsetSize(a: set<nat>, b: set<nat>)
    requires a <= b
    ensures |a| <= |b| && (|a| == |b| ==> a == b)
  {
    if a != {} {
      var x :| x in a;
      SubsetSize(a - {x}, b - {x});
    }
  }

  /** `readyIndices.size === total` says that every source is ready. */
  lemma FullWhenCounted(ready: set<nat>, n: nat)
    requires ready <= Below(n)
    ensures |ready| == n <==> ready == Below(n)
  {
    SubsetSize(ready, Below(n));
  }

  lemma ToldAppend(total: nat, log: Log, e: Event, i: nat)
    ensures SourceTold(total, log + [e], i) <==>
            SourceTold(total, log, i) || e.IntakeAborted? || (total > 1 && e == Completed(i))
    ensures IntakeClosed(log + [e]) <==> IntakeClosed(log) || e.IntakeAborted?
    ensures ExecutionDropped(log + [e]) <==> ExecutionDropped(log) || e.ExecutionAborted?
    ensures Broken(log + [e]) <==> Broken(log) || e.Rejected? || e.WiringThrew?
  {
    var more := log + [e];
    assert e in more && forall x | x in log :: x in more;
  }

  /** The flags `start()` keeps besides the child controllers. */
  datatype Flags = Flags(
    total: nat, wired: nat, ready: set<nat>, started: bool, intake: bool, execution: bool, resolved: set<nat>, failed: bool)

  /** The flags say what the log says, and the log is in order. */
  ghost predicate Fits(f: Flags, log: Log) {
    AllProper(f.total, log) && FlagsFit(f, log)
  }

  ghost predicate FlagsFit(f: Flags, log: Log) {
    && f.wired <= f.total && f.ready <= Below(f.total)
    && (forall i: nat :: i in f.ready <==> Marked(i) in log)
    && (forall i: nat | Completed(i) in log :: i < f.wired)
    && (f.started <==> RouteStarted in log)
    && (f.started <==> f.total > 0 && AllMarked(f.total, log))
    && (f.intake <==> IntakeClosed(log))
    && (f.execution <==> ExecutionDropped(log))
    && (forall i: nat :: i in f.resolved <==> Resolved(i) in log)
    && (f.failed <==> Broken(log))
  }

  /** Each wired source's signal is aborted exactly when the source has been told to stop. */
  ghost predicate SignalsFit(f: Flags, children: seq<bool>, log: Log) {
    && |children| == (if f.total == 1 then 0 else f.wired)
    && forall i: nat | i < f.wired :: (if f.total == 1 then f.intake else children[i]) <==> SourceTold(f.total, log, i)
  }

  lemma SignalsAppend(f: Flags, children: seq<bool>, log: Log, f': Flags, e: Event)
    requires SignalsFit(f, children, log) && !e.IntakeAborted? && !(f.total > 1 && e.Completed?)
    requires f'.total == f.total && f'.wired == f.wired && f'.intake == f.intake
    ensures SignalsFit(f', children, log + [e])
  {
    forall i: nat ensures SourceTold(f.total, log + [e], i) <==> SourceTold(f.total, log, i) {
      ToldAppend(f.total, log, e, i);
    }
  }

  /** Counting the ready sources tells whether all of them are marked. */
  lemma MarkedCount(f: Flags, log: Log, i: nat)
    requires Fits(f, log) && i < f.wired
    ensures |f.ready + {i}| == f.total <==> AllMarked(f.total, log + [Marked(i)])
  {
    FullWhenCounted(f.ready + {i}, f.total);
    forall j: nat ensures j in f.ready + {i} <==> Marked(j) in log + [Marked(i)] {
      assert j in f.ready <==> Marked(j) in log;
    }
    if AllMarked(f.total, log + [Marked(i)]) {
      forall j: nat | j < f.total ensures j in f.ready + {i} { assert Marked(j) in log + [Marked(i)]; }
      assert f.ready + {i} == Below(f.total);
    }
  }

  lemma FitsMarked(f: Flags, log: Log, i: nat)
    requires Fits(f, log) && i < f.wired
    requires f.started || !AllMarked(f.total, log + [Marked(i)])
    ensures Fits(f.(ready := f.ready + {i}), log + [Marked(i)])
  {
    ProperAppend(f.total, log, Marked(i));
    FlagsMarked(f, log, i);
  }

  lemma FlagsMarked(f: Flags, log: Log, i: nat)
    requires FlagsFit(f, log) && i < f.wired
    requires f.started || !AllMarked(f.total, log + [Marked(i)])
    ensures FlagsFit(f.(ready := f.ready + {i}), log + [Marked(i)])
  {
    ToldAppend(f.total, log, Marked(i), 0);
    MarkedOn(log, i);
    assert AllMarked(f.total, log) ==> AllMarked(f.total, log + [Marked(i)]);
  }

  lemma MarkedOn(log: Log, i: nat)
    ensures forall j: nat :: Marked(j) in log + [Marked(i)] <==> Marked(j) in log || j == i
    ensures forall j: nat :: Completed(j) in log + [Marked(i)] <==> Completed(j) in log
    ensures forall j: nat :: Resolved(j) in log + [Marked(i)] <==> Resolved(j) in log
    ensures RouteStarted in log + [Marked(i)] <==> RouteStarted in log
  {
  }

  lemma FitsStarted(f: Flags, log: Log, i: nat)
    requires Fits(f, log) && i < f.wired && !f.started
    requires AllMarked(f.total, log + [Marked(i)])
    ensures Fits(f.(ready := f.ready + {i}, started := true), log + [Marked(i)] + [RouteStarted])
  {
    StartedProper(f, log, i);
    FitsWithout(f, log, i);
    ToldAppend(f.total, log + [Marked(i)], RouteStarted, 0);
  }

  /** Everything but the announcement already fits once the last source is marked. */
  lemma FitsWithout(f: Flags, log: Log, i: nat)
    requires Fits(f, log) && i < f.wired && !f.started
    ensures var more := log + [Marked(i)];
            && (forall j: nat :: j in f.ready + {i} <==> Marked(j) in more)
            && (forall j: nat | Completed(j) in more :: j < f.wired)
            && (f.intake <==> IntakeClosed(more)) && (f.execution <==> ExecutionDropped(more))
            && (forall j: nat :: j in f.resolved <==> Resolved(j) in more)
            && (f.failed <==> Broken(more))
  {
    ToldAppend(f.total, log, Marked(i), 0);
  }

  lemma StartedProper(f: Flags, log: Log, i: nat)
    requires Fits(f, log) && i < f.wired && !f.started
    requires AllMarked(f.total, log + [Marked(i)])
    ensures AllProper(f.total, log + [Marked(i)] + [RouteStarted])
  {
    var more := log + [Marked(i)];
    ProperAppend(f.total, log, Marked(i));
    assert more[..|more| - 1] == log;
    ProperAppend(f.total, more, RouteStarted);
  }

  lemma MarkingFits(f: Flags, children: seq<bool>, log: Log, i: nat)
    requires Fits(f, log) && SignalsFit(f, children, log) && i < f.wired
    ensures |f.ready + {i}| == f.total <==> AllMarked(f.total, log + [Marked(i)])
    ensures var now := !f.started && |f.ready + {i}| == f.total;
            var f' := f.(ready := f.ready + {i}, started := f.started || now);
            var log' := if now then log + [Marked(i)] + [RouteStarted] else log + [Marked(i)];
            Fits(f', log') && SignalsFit(f', children, log')
  {
    MarkedCount(f, log, i);
    SignalsAppend(f, children, log, f.(ready := f.ready + {i}), Marked(i));
    if !f.started && |f.ready + {i}| == f.total {
      FitsStarted(f, log, i);
      SignalsAppend(f.(ready := f.ready + {i}), children, log + [Marked(i)],
                    f.(ready := f.ready + {i}, started := true), RouteStarted);
    } else {
      FitsMarked(f, log, i);
    }
  }

  lemma FitsIntake(f: Flags, log: Log, cause: Cause)
    requires Fits(f, log) && Proper(f.total, log, IntakeAborted(cause))
    ensures Fits(f.(intake := true), log + [IntakeAborted(cause)])
  {
    ProperAppend(f.total, log, IntakeAborted(cause));
    FlagsOn(f, log, IntakeAborted(cause));
  }

  lemma FitsExecution(f: Flags, log: Log, cause: Cause)
    requires Fits(f, log) && Proper(f.total, log, ExecutionAborted(cause))
    ensures Fits(f.(execution := true), log + [ExecutionAborted(cause)])
  {
    ProperAppend(f.total, log, ExecutionAborted(cause));
    FlagsOn(f, log, ExecutionAborted(cause));
  }

  lemma FitsCompleted(f: Flags, log: Log, i: nat)
    requires Fits(f, log) && i < f.wired
    ensures Fits(f, log + [Completed(i)])
  {
    ProperAppend(f.total, log, Completed(i));
    FlagsOn(f, log, Completed(i));
  }

  lemma FitsSettled(f: Flags, log: Log, e: Event)
    requires Fits(f, log) && Proper(f.total, log, e)
    requires e.Resolved? || e.Rejected? || e.WiringThrew? || e.SourceFailed?
    ensures Fits(f.(resolved := if e.Resolved? then f.resolved + {e.i} else f.resolved,
                    failed := f.failed || e.Rejected? || e.WiringThrew?), log + [e])
  {
    ProperAppend(f.total, log, e);
    FlagsOn(f, log, e);
  }

  /** What one more event makes of the flags, unless it marks a source or announces the start. */
  lemma FlagsOn(f: Flags, log: Log, e: Event)
    requires FlagsFit(f, log) && !e.Marked? && e != RouteStarted && (e.Completed? ==> e.i < f.wired)
    ensures FlagsFit(f.(intake := f.intake || e.IntakeAborted?, execution := f.execution || e.ExecutionAborted?,
                        resolved := if e.Resolved? then f.resolved + {e.i} else f.resolved,
                        failed := f.failed || e.Rejected? || e.WiringThrew?), log + [e])
  {
    ToldAppend(f.total, log, e, 0);
    forall i: nat ensures Marked(i) in log + [e] <==> Marked(i) in log {
    }
  }

  // ----- what happens to a route -----

  /** What happens to a route from outside: its sources, its subscriptions, its owner. */
  datatype Stimulus =
    | Ready(i: nat)               // ready(), or a first emit()
    | Complete(i: nat)
    | Resolve(i: nat)
    | Reject(i: nat)
    | WiringThrow
    | GiveUp                      // start() reaches its catch block
    | AllDone                     // Promise.all resolved
    | StopRoute
    | AbortFrom(execution: bool)  // an abort of intake or execution by the context

  /** When a stimulus can come. */
  ghost predicate Possible(total: nat, log: Log, x: Stimulus) {
    match x
    case Ready(i) => i < total
    case Complete(i) => i < total
    case Resolve(i) => i < total && Resolved(i) !in log && Rejected(i) !in log
    case Reject(i) => i < total && Resolved(i) !in log && Rejected(i) !in log
    case GiveUp => Broken(log)
    case AllDone => !Broken(log) && forall i: nat | i < total :: Resolved(i) in log
    case _ => true
  }

  function Closing(log: Log, cause: Cause): Log {
    if IntakeClosed(log) then [] else [IntakeAborted(cause)]
  }

  function Dropping(log: Log, cause: Cause): Log {
    if ExecutionDropped(log) then [] else [ExecutionAborted(cause)]
  }

  /** The events a stimulus brings about. */
  ghost function Response(total: nat, log: Log, x: Stimulus): Log {
    match x
    case Ready(i) =>
      [Marked(i)] + if RouteStarted !in log && total > 0 && AllMarked(total, log + [Marked(i)]) then [RouteStarted] else []
    case Complete(i) => [Completed(i)] + if total == 1 then Closing(log, SourceDone) else []
    case Resolve(i) => [Resolved(i)]
    case Reject(i) => [Rejected(i)] + if SourceTold(total, log, i) then [] else [SourceFailed(i)]
    case WiringThrow => [WiringThrew]
    case GiveUp => Closing(log, StartFailed) + Dropping(log, StartFailed)
    case AllDone => if total > 1 then Closing(log, AllSourcesDone) else []
    case StopRoute => Closing(log, RouteStopped) + Dropping(log, RouteStopped)
    case AbortFrom(execution) => if execution then Dropping(log, Outside) else Closing(log, Outside)
  }

  lemma MarkingResponds(f: Flags, log: Log, i: nat)
    requires Fits(f, log) && i < f.wired
    ensures [Marked(i)] + (if !f.started && |f.ready + {i}| == f.total then [RouteStarted] else [])
            == Response(f.total, log, Ready(i))
  {
    MarkedCount(f, log, i);
  }

  /** The runtime of `start()` on one route, with the controllers it owns. */
  class Route {
    const total: nat
    var wired: nat
    var readyIndices: set<nat>
    var startedEmitted: bool
    var intakeAborted: bool
    var executionAborted: bool
    /** Aborted flags of the child controllers, one per source wired; a single source has none. */
    var children: seq<bool>
    var resolved: set<nat>
    var failed: bool
    var log: Log

    function State(): Flags
      reads this
    {
      Flags(total, wired, readyIndices, startedEmitted, intakeAborted, executionAborted, resolved, failed)
    }

    ghost predicate Valid()
      reads this
    {
      Fits(State(), log) && SignalsFit(State(), children, log)
    }

    /** The signal a source was handed: the route's own for a single source, else its child's. */
    predicate SourceSignal(i: nat)
      requires total != 1 ==> i < |children|
      reads this
    {
      if total == 1 then intakeAborted else children[i]
    }

    constructor (total: nat)
      ensures Valid() && this.total == total && log == [] && wired == 0
    {
      this.total := total;
      wired, readyIndices, startedEmitted := 0, {}, false;
      intakeAborted, executionAborted, children := false, false, [];
      resolved, failed, log := {}, false, [];
      new;
      assert Marked(0) !in log;
    }

    /** Subscribing the next source: beside siblings it gets a child controller linked to the route's. */
    method Wire()
      requires Valid() && wired < total
      modifies this`wired, this`children
      ensures Valid() && wired == old(wired) + 1
      ensures SourceSignal(old(wired)) == intakeAborted
    {
      if total != 1 {
        children := children + [intakeAborted];
      }
      wired := wired + 1;
    }

    /** `markReady`: the first time every source is ready, the route announces that it started. */
    method MarkReady(i: nat)
      requires Valid() && i < wired
      modifies this`log, this`readyIndices, this`startedEmitted
      ensures Valid()
      ensures log == old(log) + Response(total, old(log), Ready(i))
    {
      ghost var f, before := State(), log;
      ghost var now := !f.started && |f.ready + {i}| == f.total;
      ghost var f' := f.(ready := f.ready + {i}, started := f.started || now);
      ghost var log' := if now then before + [Marked(i)] + [RouteStarted] else before + [Marked(i)];
      readyIndices := readyIndices + {i};
      log := log + [Marked(i)];
      if !startedEmitted && |readyIndices| == total {
        startedEmitted := true;
        log := log + [RouteStarted];
      }
      assert State() == f' && log == log';
      MarkingResponds(f, before, i);
      Regroup(before, [Marked(i)], [RouteStarted]);
      assert Fits(f', log') && SignalsFit(f', children, log') by { MarkingFits(f, children, before, i); }
      MarkedCount(f, before, i);
    }

    method AbortChildren()
      modifies this`children
      ensures |children| == old(|children|) && forall j | 0 <= j < |children| :: children[j]
    {
      var i := 0;
      while i < |children|
        invariant 0 <= i <= |children| == old(|children|)
        invariant forall j | 0 <= j < i :: children[j]
      {
        children := children[i := true];
        i := i + 1;
      }
    }

    /** `controller.abort()` on the route: intake closes once, and every child hears it. */
    method AbortIntake(cause: Cause)
      requires Valid()
      requires !intakeAborted ==> Proper(total, log, IntakeAborted(cause))
      modifies this`log, this`intakeAborted, this`children
      ensures Valid() && intakeAborted
      ensures log == old(log) + Closing(old(log), cause)
    {
      if !intakeAborted {
        CloseIntake(cause);
      }
    }

    method CloseIntake(cause: Cause)
      requires Valid() && !intakeAborted && Proper(total, log, IntakeAborted(cause))
      modifies this`log, this`intakeAborted, this`children
      ensures Valid() && intakeAborted && log == old(log) + [IntakeAborted(cause)]
    {
      ghost var closed, more := State().(intake := true), log + [IntakeAborted(cause)];
      FitsIntake(State(), log, cause);
      AbortChildren();
      AbortedSignals(State(), children, log, cause);
      intakeAborted := true;
      log := log + [IntakeAborted(cause)];
      assert State() == closed && log == more;
    }

    /** `abortExecution`: idempotent. */
    method AbortExecution(cause: Cause)
      requires Valid()
      requires !executionAborted ==> Proper(total, log, ExecutionAborted(cause))
      modifies this`log, this`executionAborted
      ensures Valid() && executionAborted
      ensures log == old(log) + Dropping(old(log), cause)
    {
      if !executionAborted {
        FitsExecution(State(), log, cause);
        ghost var before := State();
        executionAborted := true;
        SignalsAppend(before, children, log, State(), ExecutionAborted(cause));
        log := log + [ExecutionAborted(cause)];
      }
    }

    /** A source calls `complete()`: it ends its own lifetime, which for a single source is the route's. */
    method Complete(i: nat)
      requires Valid() && i < wired
      modifies this`log, this`intakeAborted, this`children
      ensures Valid() && SourceSignal(i)
      ensures log == old(log) + Response(total, old(log), Stimulus.Complete(i))
      ensures total > 1 ==> intakeAborted == old(intakeAborted) && children == old(children)[i := true]
    {
      if total == 1 {
        CompleteAlone(i);
      } else {
        ghost var f := State();
        FitsCompleted(f, log, i);
        CompletedSignals(f, children, log, i);
        log := log + [Completed(i)];
        children := children[i := true];
        assert State() == f;
      }
    }

    /** A single source's `complete()` aborts the route's own controller. */
    method CompleteAlone(i: nat)
      requires Valid() && total == 1 && i < wired
      modifies this`log, this`intakeAborted, this`children
      ensures Valid() && intakeAborted
      ensures log == old(log) + ([Completed(i)] + Closing(old(log), SourceDone))
    {
      ghost var before := log;
      FitsCompleted(State(), before, i);
      ToldAppend(total, before, Completed(i), 0);
      SignalsAppend(State(), children, before, State(), Completed(i));
      log := log + [Completed(i)];
      assert Completed(0) in log;
      AbortIntake(SourceDone);
      Regroup(before, [Completed(i)], Closing(before, SourceDone));
    }

    /** A subscription settles; a rejection is announced unless the source had been told to stop. */
    method Settle(i: nat, ok: bool)
      requires Valid() && i < wired && Resolved(i) !in log && Rejected(i) !in log
      modifies this`log, this`resolved, this`failed
      ensures Valid()
      ensures log == old(log) + Response(total, old(log), if ok then Resolve(i) else Reject(i))
    {
      if ok {
        Note(Resolved(i));
      } else {
        ghost var before := log;
        ToldAppend(total, before, Rejected(i), i);
        NeverAnnounced(i);
        Note(Rejected(i));
        if !SourceSignal(i) {
          Announce(i);
          Regroup(before, [Rejected(i)], [SourceFailed(i)]);
        }
      }
    }

    /** The outcome of a subscription, or of wiring one. */
    method Note(e: Event)
      requires Valid() && (e.Resolved? || e.Rejected? || e.WiringThrew?) && Proper(total, log, e)
      modifies this`log, this`resolved, this`failed
      ensures Valid() && log == old(log) + [e] && failed == (old(failed) || !e.Resolved?)
    {
      ghost var before := State();
      FitsSettled(before, log, e);
      resolved := if e.Resolved? then resolved + {e.i} else resolved;
      failed := failed || !e.Resolved?;
      SignalsAppend(before, children, log, State(), e);
      log := log + [e];
    }

    /** `route:source:failed` */
    method Announce(i: nat)
      requires Valid() && Proper(total, log, SourceFailed(i))
      modifies this`log
      ensures Valid() && log == old(log) + [SourceFailed(i)]
    {
      FitsSettled(State(), log, SourceFailed(i));
      SignalsAppend(State(), children, log, State(), SourceFailed(i));
      log := log + [SourceFailed(i)];
    }

    lemma NeverAnnounced(i: nat)
      requires Valid() && Rejected(i) !in log
      ensures SourceFailed(i) !in log
    {
      forall n | 0 <= n < |log| ensures log[n] != SourceFailed(i) {
        ProperEverywhere(total, log, n);
      }
    }

    /** Subscribing a source threw before any promise was made. */
    method WiringFails()
      requires Valid()
      modifies this`log, this`resolved, this`failed
      ensures Valid() && failed && log == old(log) + Response(total, old(log), WiringThrow)
    {
      Note(WiringThrew);
    }

    /** Intake first, then execution. */
    method GiveUpRoute(cause: Cause)
      requires Valid() && (cause == RouteStopped || (cause == StartFailed && Broken(log)))
      modifies this`log, this`intakeAborted, this`children, this`executionAborted
      ensures Valid() && intakeAborted && executionAborted
      ensures log == old(log) + (Closing(old(log), cause) + Dropping(old(log), cause))
    {
      ghost var before := log;
      ClosingMembers(before, cause);
      AbortIntake(cause);
      AbortExecution(cause);
      Regroup(before, Closing(before, cause), Dropping(before, cause));
    }

    /** The catch block of `start()`: a source that could not subscribe gives up intake and execution. */
    method StartFails()
      requires Valid() && failed
      modifies this`log, this`intakeAborted, this`children, this`executionAborted
      ensures Valid() && intakeAborted && executionAborted
      ensures log == old(log) + Response(total, old(log), GiveUp)
    {
      GiveUpRoute(StartFailed);
    }

    /** `Promise.all` resolved: beside siblings, the last completion closes intake, and only intake. */
    method StartCompletes()
      requires Valid() && !failed && forall i: nat | i < total :: i in resolved
      modifies this`log, this`intakeAborted, this`children
      ensures Valid() && (total > 1 ==> intakeAborted) && executionAborted == old(executionAborted)
      ensures log == old(log) + Response(total, old(log), AllDone)
    {
      if total > 1 && !intakeAborted {
        AbortIntake(AllSourcesDone);
      }
    }

    /** `stop()`: gives up on the route. */
    method Stop()
      requires Valid()
      modifies this`log, this`intakeAborted, this`children, this`executionAborted
      ensures Valid() && intakeAborted && executionAborted
      ensures log == old(log) + Response(total, old(log), StopRoute)
    {
      GiveUpRoute(RouteStopped);
    }
  }

  lemma AbortedSignals(f: Flags, children: seq<bool>, log: Log, cause: Cause)
    requires |children| == (if f.total == 1 then 0 else f.wired) && forall j | 0 <= j < |children| :: children[j]
    ensures SignalsFit(f.(intake := true), children, log + [IntakeAborted(cause)])
  {
    forall i: nat ensures SourceTold(f.total, log + [IntakeAborted(cause)], i) {
      ToldAppend(f.total, log, IntakeAborted(cause), i);
    }
  }

  lemma CompletedSignals(f: Flags, children: seq<bool>, log: Log, i: nat)
    requires SignalsFit(f, children, log) && f.total > 1 && i < f.wired
    ensures SignalsFit(f, children[i := true], log + [Completed(i)])
  {
    forall j: nat ensures SourceTold(f.total, log + [Completed(i)], j) <==> SourceTold(f.total, log, j) || j == i {
      ToldAppend(f.total, log, Completed(i), j);
    }
  }

  // ----- whole traces -----

  /** `log` is what the route has to show after the stimuli. */
  ghost predicate Traced(total: nat, stimuli: seq<Stimulus>, log: Log)
    decreases |stimuli|
  {
    if stimuli == [] then log == []
    else
      var n := |stimuli| - 1;
      exists before ::
        && Traced(total, stimuli[..n], before) && Possible(total, before, stimuli[n])
        && log == before + Response(total, before, stimuli[n])
  }

  /** What the log and the stimuli have to say about each other. */
  ghost predicate Tells(total: nat, stimuli: seq<Stimulus>, log: Log) {
    && AllProper(total, log)
    && (forall i: nat :: Marked(i) in log <==> Ready(i) in stimuli)
    && (forall i: nat :: Completed(i) in log <==> Complete(i) in stimuli)
    && (forall i: nat | SourceFailed(i) in log :: Rejected(i) in log)
    && (RouteStarted in log <==> total > 0 && AllMarked(total, log))
    && (IntakeClosed(log) <==> exists x :: x in stimuli && ClosesIntake(total, x))
    && (ExecutionDropped(log) <==> exists x :: x in stimuli && DropsExecution(x))
  }

  predicate ClosesIntake(total: nat, x: Stimulus) {
    x == GiveUp || x == StopRoute || x == AbortFrom(false) || (total > 1 && x == AllDone) || (total == 1 && x.Complete?)
  }

  predicate DropsExecution(x: Stimulus) {
    x == GiveUp || x == StopRoute || x == AbortFrom(true)
  }

  lemma ClosingMembers(log: Log, cause: Cause)
    ensures IntakeClosed(log + Closing(log, cause))
    ensures forall e | e in Closing(log, cause) :: e == IntakeAborted(cause)
    ensures ExecutionDropped(log + Closing(log, cause)) == ExecutionDropped(log)
  {
    if !IntakeClosed(log) {
      ToldAppend(0, log, IntakeAborted(cause), 0);
    } else {
      assert log + [] == log;
    }
  }

  lemma DroppingMembers(log: Log, cause: Cause)
    ensures ExecutionDropped(log + Dropping(log, cause))
    ensures forall e | e in Dropping(log, cause) :: e == ExecutionAborted(cause)
    ensures IntakeClosed(log + Dropping(log, cause)) == IntakeClosed(log)
  {
    if !ExecutionDropped(log) {
      ToldAppend(0, log, ExecutionAborted(cause), 0);
    } else {
      assert log + [] == log;
    }
  }

  /** What a stimulus adds to the log, event kind by event kind. */
  lemma ResponseMembers(total: nat, log: Log, x: Stimulus)
    requires Possible(total, log, x)
    ensures forall i: nat :: Marked(i) in Response(total, log, x) <==> x == Ready(i)
    ensures forall i: nat :: Completed(i) in Response(total, log, x) <==> x == Complete(i)
    ensures forall i: nat :: SourceFailed(i) in Response(total, log, x) ==> Rejected(i) in Response(total, log, x)
    ensures RouteStarted in Response(total, log, x) <==>
            x.Ready? && RouteStarted !in log && total > 0 && AllMarked(total, log + [Marked(x.i)])
  {
  }

  lemma ResponseAborts(total: nat, log: Log, x: Stimulus)
    requires Possible(total, log, x)
    ensures IntakeClosed(log + Response(total, log, x)) <==> IntakeClosed(log) || ClosesIntake(total, x)
    ensures ExecutionDropped(log + Response(total, log, x)) <==> ExecutionDropped(log) || DropsExecution(x)
  {
    match x
    case GiveUp => ClosesAndDrops(log, StartFailed);
    case StopRoute => ClosesAndDrops(log, RouteStopped);
    case AbortFrom(execution) =>
      if execution { DroppingMembers(log, Outside); } else { ClosingMembers(log, Outside); }
    case AllDone => if total > 1 { ClosingMembers(log, AllSourcesDone); }
    case Complete(i) =>
      if total == 1 {
        ClosingMembers(log, SourceDone);
      }
    case _ =>
  }

  lemma ClosesAndDrops(log: Log, cause: Cause)
    ensures IntakeClosed(log + (Closing(log, cause) + Dropping(log, cause)))
    ensures ExecutionDropped(log + (Closing(log, cause) + Dropping(log, cause)))
  {
    ClosingMembers(log, cause);
    DroppingMembers(log, cause);
  }

  lemma ResponseTells(total: nat, stimuli: seq<Stimulus>, log: Log, x: Stimulus)
    requires Tells(total, stimuli, log) && Possible(total, log, x)
    requires AllProper(total, log + Response(total, log, x))
    ensures Tells(total, stimuli + [x], log + Response(total, log, x))
  {
    ResponseMembers(total, log, x);
    ResponseAborts(total, log, x);
  }

  lemma ClosingProper(total: nat, log: Log, cause: Cause)
    requires AllProper(total, log)
    requires !IntakeClosed(log) ==> Proper(total, log, IntakeAborted(cause))
    ensures AllProper(total, log + Closing(log, cause))
  {
    if IntakeClosed(log) {
      assert log + [] == log;
    } else {
      ProperAppend(total, log, IntakeAborted(cause));
    }
  }

  lemma DroppingProper(total: nat, log: Log, cause: Cause)
    requires AllProper(total, log)
    requires !ExecutionDropped(log) ==> Proper(total, log, ExecutionAborted(cause))
    ensures AllProper(total, log + Dropping(log, cause))
  {
    if ExecutionDropped(log) {
      assert log + [] == log;
    } else {
      ProperAppend(total, log, ExecutionAborted(cause));
    }
  }

  lemma GivingUpProper(total: nat, log: Log, cause: Cause)
    requires AllProper(total, log)
    requires cause == RouteStopped || (cause == StartFailed && Broken(log))
    ensures AllProper(total, log + (Closing(log, cause) + Dropping(log, cause)))
  {
    var closing := Closing(log, cause);
    ClosingProper(total, log, cause);
    ClosingMembers(log, cause);
    DroppingProper(total, log + closing, cause);
    Regroup(log, closing, Dropping(log, cause));
  }

  lemma ReadyProper(total: nat, stimuli: seq<Stimulus>, log: Log, i: nat)
    requires Tells(total, stimuli, log) && i < total
    ensures AllProper(total, log + Response(total, log, Ready(i)))
  {
    var more := log + [Marked(i)];
    ProperAppend(total, log, Marked(i));
    if RouteStarted !in log && AllMarked(total, more) {
      assert more[..|more| - 1] == log;
      ProperAppend(total, more, RouteStarted);
      Regroup(log, [Marked(i)], [RouteStarted]);
    }
  }

  lemma RejectProper(total: nat, stimuli: seq<Stimulus>, log: Log, i: nat)
    requires Tells(total, stimuli, log) && Possible(total, log, Reject(i))
    ensures AllProper(total, log + Response(total, log, Reject(i)))
  {
    var more := log + [Rejected(i)];
    ProperAppend(total, log, Rejected(i));
    if !SourceTold(total, log, i) {
      ToldAppend(total, log, Rejected(i), i);
      assert Rejected(i) in more && SourceFailed(i) !in more;
      ProperAppend(total, more, SourceFailed(i));
      Regroup(log, [Rejected(i)], [SourceFailed(i)]);
    }
  }

  lemma CompleteProper(total: nat, log: Log, i: nat)
    requires AllProper(total, log) && i < total
    ensures AllProper(total, log + Response(total, log, Complete(i)))
  {
    var more := log + [Completed(i)];
    ProperAppend(total, log, Completed(i));
    if total == 1 {
      ToldAppend(total, log, Completed(i), 0);
      assert Completed(0) in more;
      ClosingProper(total, more, SourceDone);
      Regroup(log, [Completed(i)], Closing(log, SourceDone));
    }
  }

  lemma ResponseProper(total: nat, stimuli: seq<Stimulus>, log: Log, x: Stimulus)
    requires Tells(total, stimuli, log) && Possible(total, log, x)
    ensures AllProper(total, log + Response(total, log, x))
  {
    match x
    case Ready(i) => ReadyProper(total, stimuli, log, i);
    case Complete(i) => CompleteProper(total, log, i);
    case Resolve(i) => ProperAppend(total, log, Resolved(i));
    case Reject(i) => RejectProper(total, stimuli, log, i);
    case WiringThrow => ProperAppend(total, log, WiringThrew);
    case GiveUp => GivingUpProper(total, log, StartFailed);
    case AllDone =>
      if total > 1 { ClosingProper(total, log, AllSourcesDone); } else { assert log + [] == log; }
    case StopRoute => GivingUpProper(total, log, RouteStopped);
    case AbortFrom(execution) =>
      if execution { DroppingProper(total, log, Outside); } else { ClosingProper(total, log, Outside); }
  }

  lemma TraceGoesOn(total: nat, stimuli: seq<Stimulus>, log: Log, x: Stimulus, longer: seq<Stimulus>, more: Log)
    requires Tells(total, stimuli, log) && Possible(total, log, x)
    requires longer == stimuli + [x] && more == log + Response(total, log, x)
    ensures Tells(total, longer, more)
  {
    ResponseProper(total, stimuli, log, x);
    ResponseTells(total, stimuli, log, x);
  }

  lemma NothingTold(total: nat)
    ensures Tells(total, [], [])
  {
    assert Marked(0) !in [];
  }

  lemma LogBefore(total: nat, stimuli: seq<Stimulus>, log: Log) returns (before: Log)
    requires Traced(total, stimuli, log) && stimuli != []
    ensures var n := |stimuli| - 1;
            && Traced(total, stimuli[..n], before) && Possible(total, before, stimuli[n])
            && log == before + Response(total, before, stimuli[n])
            && stimuli == stimuli[..n] + [stimuli[n]]
  {
    var n := |stimuli| - 1;
    before :|
      && Traced(total, stimuli[..n], before) && Possible(total, before, stimuli[n])
      && log == before + Response(total, before, stimuli[n]);
  }

  /** What the log tells holds of every trace. */
  lemma {:induction false} EveryTraceTells(total: nat, stimuli: seq<Stimulus>, log: Log)
    requires Traced(total, stimuli, log)
    ensures Tells(total, stimuli, log)
    decreases |stimuli|
  {
    if stimuli == [] {
      NothingTold(total);
    } else {
      var n := |stimuli| - 1;
      var before := LogBefore(total, stimuli, log);
      EveryTraceTells(total, stimuli[..n], before);
      TraceGoesOn(total, stimuli[..n], before, stimuli[n], stimuli, log);
    }
  }

  // ----- consequences -----

  lemma TracedProperAt(total: nat, stimuli: seq<Stimulus>, log: Log, q: nat)
    requires Traced(total, stimuli, log) && q < |log|
    ensures Proper(total, log[..q], log[q])
  {
    EveryTraceTells(total, stimuli, log);
    ProperEverywhere(total, log, q);
  }

  /** `route:started` fires once every source has become ready, and otherwise never. */
  lemma {:induction false} StartedIffAllReady(total: nat, stimuli: seq<Stimulus>, log: Log)
    requires Traced(total, stimuli, log)
    ensures RouteStarted in log <==> total > 0 && forall i: nat | i < total :: Ready(i) in stimuli
  {
    EveryTraceTells(total, stimuli, log);
    forall i: nat ensures Marked(i) in log <==> Ready(i) in stimuli {
    }
  }

  lemma StartedBehind(total: nat, before: Log)
    requires Proper(total, before, RouteStarted)
    ensures RouteStarted !in before && before != [] && AllMarked(total, before)
    ensures var last := before[|before| - 1];
            last.Marked? && (last.i < total ==> !AllMarked(total, before[..|before| - 1]))
  {
  }

  /** It fires at most once, right behind the readiness of the last source, which no earlier moment had. */
  lemma {:induction false} StartedWithTheLastSource(total: nat, stimuli: seq<Stimulus>, log: Log, p: nat, q: nat)
    requires Traced(total, stimuli, log) && p < q < |log| && log[q] == RouteStarted
    ensures log[p] != RouteStarted
    ensures log[q - 1].Marked? && AllMarked(total, log[..q])
    ensures log[q - 1].i < total ==> !AllMarked(total, log[..q - 1])
  {
    TracedProperAt(total, stimuli, log, q);
    StartedBehind(total, log[..q]);
    assert log[..q][p] == log[p];
    assert log[..q][q - 1] == log[q - 1];
    assert log[..q][..q - 1] == log[..q - 1];
  }

  /**
   * Beside siblings, a source is told to stop exactly by its own completion or
   * by what closes the whole route's intake; a single source's completion is
   * one of those.
   */
  lemma {:induction false} SourceToldIff(total: nat, stimuli: seq<Stimulus>, log: Log, i: nat)
    requires Traced(total, stimuli, log)
    ensures SourceTold(total, log, i) <==>
            (total > 1 && Complete(i) in stimuli) || exists x :: x in stimuli && ClosesIntake(total, x)
  {
    EveryTraceTells(total, stimuli, log);
  }

  /** Sources that complete, all of them or any, never drop execution: only a failed start, a stop or an outside abort does. */
  lemma {:induction false} ExecutionDroppedIff(total: nat, stimuli: seq<Stimulus>, log: Log)
    requires Traced(total, stimuli, log)
    ensures ExecutionDropped(log) <==>
            exists x :: x in stimuli && (x == GiveUp || x == StopRoute || x == AbortFrom(true))
  {
    EveryTraceTells(total, stimuli, log);
    assert forall x :: DropsExecution(x) <==> x == GiveUp || x == StopRoute || x == AbortFrom(true);
  }

  /** A source that failed is announced at most once, and never after it was told to stop. */
  lemma {:induction false} FailureAnnouncedWhileWanted(
      total: nat, stimuli: seq<Stimulus>, log: Log, p: nat, q: nat, i: nat)
    requires Traced(total, stimuli, log) && p < q < |log| && log[q] == SourceFailed(i)
    ensures log[p] != SourceFailed(i) && !log[p].IntakeAborted?
    ensures total > 1 ==> log[p] != Completed(i)
  {
    TracedProperAt(total, stimuli, log, q);
    assert log[..q][p] == log[p];
  }

  /** The subscription of source `i` was rejected when nobody had told the source to stop. */
  ghost predicate RejectedWhileWanted(total: nat, log: Log, i: nat) {
    exists p: nat | p < |log| :: log[p] == Rejected(i) && !SourceTold(total, log[..p], i)
  }

  /** A failed source is announced if and only if its subscription was rejected while it was still wanted. */
  lemma {:induction false} FailureAnnouncedIff(total: nat, stimuli: seq<Stimulus>, log: Log, i: nat)
    requires Traced(total, stimuli, log)
    ensures SourceFailed(i) in log <==> RejectedWhileWanted(total, log, i)
    ensures Rejected(i) in log <==> Reject(i) in stimuli
  {
    if SourceFailed(i) in log {
      var q: nat :| q < |log| && log[q] == SourceFailed(i);
      AnnouncedBehind(total, stimuli, log, q, i);
    }
    if RejectedWhileWanted(total, log, i) {
      var p: nat :| p < |log| && log[p] == Rejected(i) && !SourceTold(total, log[..p], i);
      WantedIsAnnounced(total, stimuli, log, p, i);
    }
    RejectionsTold(total, stimuli, log, i);
  }

  /** The announcement comes right behind the rejection, of a source still wanted. */
  lemma {:induction false} AnnouncedBehind(total: nat, stimuli: seq<Stimulus>, log: Log, q: nat, i: nat)
    requires Traced(total, stimuli, log) && q < |log| && log[q] == SourceFailed(i)
    ensures q > 0 && log[q - 1] == Rejected(i) && !SourceTold(total, log[..q - 1], i)
    decreases |stimuli|
  {
    var before := LogBefore(total, stimuli, log);
    var n := |stimuli| - 1;
    var more := Response(total, before, stimuli[n]);
    if q < |before| {
      EarlierPart(before, more, q);
      AnnouncedBehind(total, stimuli[..n], before, q, i);
      EarlierPart(before, more, q - 1);
    } else {
      AnnouncedNow(total, before, stimuli[n], more, q, i);
    }
  }

  lemma AnnouncedNow(total: nat, before: Log, x: Stimulus, more: Log, q: nat, i: nat)
    requires Possible(total, before, x) && more == Response(total, before, x)
    requires |before| <= q < |before + more| && (before + more)[q] == SourceFailed(i)
    ensures q > 0 && (before + more)[q - 1] == Rejected(i) && !SourceTold(total, (before + more)[..q - 1], i)
  {
    LaterPart(before, more, q - |before|);
    AnnouncementAt(total, before, x, more, q - |before|, i);
    LaterPart(before, more, 0);
  }

  lemma EarlierPart(before: Log, more: Log, q: nat)
    requires q < |before|
    ensures (before + more)[q] == before[q] && (before + more)[..q] == before[..q]
  {
  }

  lemma LaterPart(before: Log, more: Log, k: nat)
    requires k < |more|
    ensures (before + more)[|before| + k] == more[k] && (before + more)[..|before|] == before
  {
  }

  lemma AnnouncementAt(total: nat, log: Log, x: Stimulus, more: Log, k: nat, i: nat)
    requires Possible(total, log, x) && more == Response(total, log, x) && k < |more| && more[k] == SourceFailed(i)
    ensures k == 1 && more[0] == Rejected(i) && !SourceTold(total, log, i)
  {
  }

  lemma {:induction false} WantedIsAnnounced(total: nat, stimuli: seq<Stimulus>, log: Log, p: nat, i: nat)
    requires Traced(total, stimuli, log) && p < |log| && log[p] == Rejected(i) && !SourceTold(total, log[..p], i)
    ensures SourceFailed(i) in log
    decreases |stimuli|
  {
    var before := LogBefore(total, stimuli, log);
    var n := |stimuli| - 1;
    var more := Response(total, before, stimuli[n]);
    if p < |before| {
      EarlierPart(before, more, p);
      WantedIsAnnounced(total, stimuli[..n], before, p, i);
    } else {
      RejectedNow(total, before, stimuli[n], more, p, i);
    }
  }

  lemma RejectedNow(total: nat, before: Log, x: Stimulus, more: Log, p: nat, i: nat)
    requires Possible(total, before, x) && more == Response(total, before, x)
    requires |before| <= p < |before + more| && (before + more)[p] == Rejected(i)
    requires !SourceTold(total, (before + more)[..p], i)
    ensures SourceFailed(i) in before + more
  {
    LaterPart(before, more, p - |before|);
    RejectionAt(total, before, x, more, p - |before|, i);
    LaterPart(before, more, 1);
  }

  /** A rejection is the first thing to show for a stimulus, and is announced at once while the source is wanted. */
  lemma RejectionAt(total: nat, log: Log, x: Stimulus, more: Log, k: nat, i: nat)
    requires Possible(total, log, x) && more == Response(total, log, x) && k < |more| && more[k] == Rejected(i)
    ensures k == 0 && x == Reject(i)
    ensures !SourceTold(total, log, i) ==> more == [Rejected(i), SourceFailed(i)]
  {
  }

  lemma {:induction false} RejectionsTold(total: nat, stimuli: seq<Stimulus>, log: Log, i: nat)
    requires Traced(total, stimuli, log)
    ensures Rejected(i) in log <==> Reject(i) in stimuli
    ensures Resolved(i) in log <==> Resolve(i) in stimuli
    ensures WiringThrew in log <==> WiringThrow in stimuli
    decreases |stimuli|
  {
    if stimuli != [] {
      var n := |stimuli| - 1;
      var before := LogBefore(total, stimuli, log);
      RejectionsTold(total, stimuli[..n], before, i);
      OutcomeMembers(total, before, stimuli[n], i);
    }
  }

  lemma OutcomeMembers(total: nat, log: Log, x: Stimulus, i: nat)
    requires Possible(total, log, x)
    ensures Rejected(i) in Response(total, log, x) <==> x == Reject(i)
    ensures Resolved(i) in Response(total, log, x) <==> x == Resolve(i)
    ensures WiringThrew in Response(total, log, x) <==> x == WiringThrow
  {
  }

  // ----- why intake was closed, or execution dropped -----

  /** Why a stimulus closes intake or drops execution. */
  function CauseOf(x: Stimulus): Cause {
    match x
    case GiveUp => StartFailed
    case StopRoute => RouteStopped
    case AllDone => AllSourcesDone
    case Complete(_) => SourceDone
    case _ => Outside
  }

  /** The `n`th stimulus is the first to close intake. */
  predicate FirstToClose(total: nat, stimuli: seq<Stimulus>, n: nat) {
    && n < |stimuli| && ClosesIntake(total, stimuli[n])
    && forall m | 0 <= m < n :: !ClosesIntake(total, stimuli[m])
  }

  predicate FirstToDrop(stimuli: seq<Stimulus>, n: nat) {
    n < |stimuli| && DropsExecution(stimuli[n]) && forall m | 0 <= m < n :: !DropsExecution(stimuli[m])
  }

  /** Intake is closed for the reason of the first stimulus that closes it, and execution likewise. */
  lemma {:induction false} AbortedForTheFirstReason(total: nat, stimuli: seq<Stimulus>, log: Log, cause: Cause)
    requires Traced(total, stimuli, log)
    ensures IntakeAborted(cause) in log <==>
            exists n: nat :: FirstToClose(total, stimuli, n) && CauseOf(stimuli[n]) == cause
    ensures ExecutionAborted(cause) in log <==>
            exists n: nat :: FirstToDrop(stimuli, n) && CauseOf(stimuli[n]) == cause
    decreases |stimuli|
  {
    if stimuli != [] {
      var n := |stimuli| - 1;
      var before := LogBefore(total, stimuli, log);
      AbortedForTheFirstReason(total, stimuli[..n], before, cause);
      EveryTraceTells(total, stimuli[..n], before);
      FirstOn(total, stimuli[..n], stimuli[n], stimuli, cause);
      AbortMembers(total, before, stimuli[n], cause);
    }
  }

  lemma AbortMembers(total: nat, log: Log, x: Stimulus, cause: Cause)
    requires Possible(total, log, x)
    ensures IntakeAborted(cause) in Response(total, log, x) <==>
            ClosesIntake(total, x) && !IntakeClosed(log) && CauseOf(x) == cause
    ensures ExecutionAborted(cause) in Response(total, log, x) <==>
            DropsExecution(x) && !ExecutionDropped(log) && CauseOf(x) == cause
  {
  }

  lemma FirstOn(total: nat, stimuli: seq<Stimulus>, x: Stimulus, more: seq<Stimulus>, cause: Cause)
    requires more == stimuli + [x]
    ensures (exists n: nat :: FirstToClose(total, more, n) && CauseOf(more[n]) == cause) <==>
            || (exists n: nat :: FirstToClose(total, stimuli, n) && CauseOf(stimuli[n]) == cause)
            || ((forall y | y in stimuli :: !ClosesIntake(total, y)) && ClosesIntake(total, x) && CauseOf(x) == cause)
    ensures (exists n: nat :: FirstToDrop(more, n) && CauseOf(more[n]) == cause) <==>
            || (exists n: nat :: FirstToDrop(stimuli, n) && CauseOf(stimuli[n]) == cause)
            || ((forall y | y in stimuli :: !DropsExecution(y)) && DropsExecution(x) && CauseOf(x) == cause)
  {
    forall n: nat | n < |stimuli|
      ensures FirstToClose(total, more, n) <==> FirstToClose(total, stimuli, n)
      ensures FirstToDrop(more, n) <==> FirstToDrop(stimuli, n)
    {
      assert more[..n] == stimuli[..n] && more[n] == stimuli[n];
      assert forall m | 0 <= m < n :: more[m] == stimuli[m];
    }
    assert more[|stimuli|] == x;
    assert forall m | 0 <= m < |stimuli| :: more[m] == stimuli[m] && stimuli[m] in stimuli;
    assert FirstToClose(total, more, |stimuli|) <==>
           (forall y | y in stimuli :: !ClosesIntake(total, y)) && ClosesIntake(total, x);
    assert FirstToDrop(more, |stimuli|) <==> (forall y | y in stimuli :: !DropsExecution(y)) && DropsExecution(x);
  }
}

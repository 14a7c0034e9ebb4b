/** The context object, whose methods are the stretches between awaits. */
module ContextObject {
  import opened ContextSteps
  import opened ContextInvariants

  datatype Readiness = Unsettled | Resolved | Refused

  /**
   * The context object. `init`, `run` and `shut` say where its suspended
   * functions are waiting; every method is one stretch up to the next await.
   */
  class CraftContext {
    const config: Config
    var appliedPlugins: set<nat>
    var startedPlugins: set<nat>
    var startCompleted: bool
    var hasStopped: bool
    var readiness: Readiness
    var intakeAborted: seq<bool>
    var executionAborted: seq<bool>
    var teardownCallbacks: nat
    var inFlight: seq<nat>
    var drained: seq<bool>
    var init: InitPc
    var run: RunPc
    var shut: ShutPc
    var log: Log

    function Snapshot(): State
      reads this
    {
      State(init, run, shut, inFlight, drained, teardownCallbacks, log)
    }

    /** The flags say what the log says. */
    ghost predicate Valid()
      reads this
    {
      && (forall i: nat :: i in appliedPlugins <==> PluginApplied(i) in log)
      && (forall i: nat :: i in startedPlugins <==> PluginStarted(i) in log)
      && (startCompleted <==> ReadyResolved in log)
      && (hasStopped <==> Stopped(log))
      && (readiness == Resolved <==> ReadyResolved in log)
      && (readiness == Refused <==> ReadyRejected in log)
      && |intakeAborted| == config.routes && |executionAborted| == config.routes
      && (forall r: nat | r < config.routes :: intakeAborted[r] <==> IntakeAborted(r) in log)
      && (forall r: nat | r < config.routes :: executionAborted[r] <==> ExecutionAborted(r) in log)
    }

    constructor (config: Config)
      ensures Valid() && this.config == config && Snapshot() == Initial(config)
    {
      this.config := config;
      appliedPlugins, startedPlugins, startCompleted, hasStopped := {}, {}, false, false;
      readiness := Unsettled;
      intakeAborted := seq(config.routes, _ => false);
      executionAborted := seq(config.routes, _ => false);
      teardownCallbacks := 0;
      inFlight, drained := seq(config.routes, _ => 0), seq(config.routes, _ => false);
      init, run, shut, log := InitIdle, RunIdle, Open, [];
    }

    /** Append an event that no flag records. */
    method EmitPlain(e: Event)
      requires Valid()
      requires !e.PluginApplied? && !e.PluginStarted? && !e.ReadyResolved? && !e.ReadyRejected? && !e.ContextStopping?
      requires !e.IntakeAborted? && !e.ExecutionAborted?
      modifies this`log
      ensures Valid() && log == old(log) + [e]
    {
      log := log + [e];
    }

    method InitPlugins(i: nat)
      requires Valid()
      modifies this`init, this`log
      ensures Valid() && Snapshot() == ApplyFrom(config, old(Snapshot()), i)
    {
      if i >= |config.plugins| {
        init := InitDone;
      } else if !config.plugins[i].valid {
        init := InitFailed;
      } else {
        init := Applying(i);
        EmitPlain(PluginApplying(i));
      }
    }

    method ApplyReturned()
      requires Valid() && init.Applying?
      modifies this`init, this`log, this`appliedPlugins
      ensures Valid() && Snapshot() == Next(config, old(Snapshot()), ApplyReturns)
    {
      appliedPlugins := appliedPlugins + {init.at};
      log := log + [PluginApplied(init.at)];
      InitPlugins(init.at + 1);
    }

    method Reject()
      requires Valid()
      modifies this`log, this`readiness
      ensures Valid() && log == old(log) + Rejected(old(log))
      ensures readiness == if old(readiness) == Unsettled then Refused else old(readiness)
    {
      if readiness == Unsettled {
        readiness := Refused;
        log := log + [ReadyRejected];
      }
    }

    /** `start()`: refused once stopped, joined once under way, else the boot begins. */
    method StartContext() returns (refused: bool)
      requires Valid()
      modifies this
      ensures Valid() && Snapshot() == Next(config, old(Snapshot()), Start)
      ensures refused <==> old(hasStopped)
    {
      if hasStopped {
        return true;
      }
      if run.RunIdle? {
        if init.InitIdle? {
          run := RunInit;
          InitPlugins(0);
        } else {
          BootRoutes();
        }
      }
      return false;
    }

    method BootRoutes()
      requires Valid()
      modifies this
      ensures Valid() && Snapshot() == Boot(config, old(Snapshot()))
    {
      if !config.suspensionConfigured {
        run := RunThrew;
        Reject();
      } else {
        run := RunGate;
        EmitPlain(ContextStarting);
        EmitPlain(ContextStarted);
      }
    }

    /** The `startPlugins` loop, from plugin `from` to the next hook it awaits. */
    method StartPlugins(from: nat)
      requires Valid() && from <= |config.plugins|
      modifies this`run, this`log
      ensures Valid() && Snapshot() == HooksFrom(config, old(Snapshot()), from)
    {
      var i := from;
      while i < |config.plugins|
        invariant from <= i <= |config.plugins|
        invariant NextHook(config.plugins, i) == NextHook(config.plugins, from)
      {
        if hasStopped {
          run := RunHooksDone;
          return;
        }
        if config.plugins[i].hasStart {
          run := RunHook(i);
          EmitPlain(PluginStarting(i));
          return;
        }
        i := i + 1;
      }
      run := RunHooksDone;
    }

    method HookReturned()
      requires Valid() && run.RunHook? && run.at < |config.plugins|
      modifies this`run, this`log, this`startedPlugins
      ensures Valid() && Snapshot() == Next(config, old(Snapshot()), HookReturns)
    {
      startedPlugins := startedPlugins + {run.at};
      log := log + [PluginStarted(run.at)];
      StartPlugins(run.at + 1);
    }

    /** `run` past the hooks: readiness is resolved unless a stop came first. */
    method FinishStarting()
      requires Valid() && (!hasStopped ==> readiness == Unsettled)
      modifies this
      ensures Valid() && Snapshot() == FinishStart(old(Snapshot()))
      ensures !old(hasStopped) ==> readiness == Resolved && startCompleted
      ensures old(hasStopped) ==>
                readiness == (if old(readiness) == Unsettled then Refused else old(readiness))
                && startCompleted == old(startCompleted)
    {
      run := RunRoutes;
      if hasStopped {
        Reject();
      } else {
        startCompleted := true;
        readiness := Resolved;
        log := log + [ReadyResolved];
      }
    }

    /** `stop()`: the first call closes intake on every route, later ones join. */
    method StopContext()
      requires Valid()
      modifies this
      ensures Valid() && Snapshot() == StopNow(config, old(Snapshot()))
      ensures hasStopped
      ensures !old(hasStopped) ==> shut == Draining && forall r | 0 <= r < config.routes :: intakeAborted[r]
    {
      if !hasStopped {
        Reject();
        hasStopped := true;
        shut := Draining;
        log := log + [ContextStopping];
        AbortIntake();
        Regroup(old(log), Rejected(old(log)), [ContextStopping],
                ForRoutes(config.routes, (r: nat) => IntakeAborted(r)));
      }
    }

    method AbortIntake()
      requires Valid()
      modifies this`log, this`intakeAborted
      ensures Valid() && log == old(log) + ForRoutes(config.routes, (r: nat) => IntakeAborted(r))
      ensures forall r | 0 <= r < config.routes :: intakeAborted[r]
    {
      var r := 0;
      while r < config.routes
        invariant 0 <= r <= config.routes
        invariant log == old(log) + ForRoutes(r, (r: nat) => IntakeAborted(r))
        invariant Valid() && forall k | 0 <= k < r :: intakeAborted[k]
      {
        intakeAborted := intakeAborted[r := true];
        log := log + [IntakeAborted(r)];
        r := r + 1;
      }
    }

    /** The teardown loop, from below plugin `from` to the next teardown it awaits, or on to the callbacks. */
    method TeardownPlugins(from: nat, closing: Closing)
      requires Valid() && from <= |config.plugins|
      modifies this`shut, this`log
      ensures Valid() && Snapshot() == TeardownBelow(config, old(Snapshot()), from, closing)
    {
      var i: int := from - 1;
      while i >= 0
        invariant -1 <= i < from
        invariant NextTeardown(config.plugins, log, i + 1) == NextTeardown(config.plugins, log, from)
      {
        if i in appliedPlugins && config.plugins[i].hasTeardown {
          shut := Teardown(i, closing);
          EmitPlain(PluginStopping(i, closing.partial, i in startedPlugins));
          return;
        }
        i := i - 1;
      }
      RunCallbacks(teardownCallbacks, closing);
    }

    method RunCallbacks(k: nat, closing: Closing)
      requires Valid()
      modifies this`shut, this`log
      ensures Valid() && Snapshot() == CallbacksBelow(old(Snapshot()), k, closing)
    {
      if k > 0 {
        shut := Callback(k - 1, closing);
        EmitPlain(CallbackRun(k - 1));
      } else {
        shut := Closed;
        EmitPlain(ContextStopped(closing.forced, closing.pending));
      }
    }

    method TeardownReturned()
      requires Valid() && shut.Teardown? && shut.at <= |config.plugins|
      modifies this`shut, this`log
      ensures Valid() && Snapshot() == Next(config, old(Snapshot()), TeardownReturns)
    {
      EmitPlain(PluginStopped(shut.at));
      TeardownPlugins(shut.at, shut.closing);
    }

    /** `forceStageTwo`: report the routes still busy, then abort execution on all of them. */
    method ForceStageTwo() returns (pending: seq<nat>)
      requires Valid()
      modifies this`log, this`executionAborted
      ensures Valid() && log == old(log) + ForceEvents(config, inFlight)
      ensures pending == Busy(inFlight)
      ensures forall r | 0 <= r < config.routes :: executionAborted[r]
    {
      pending := [];
      var r := 0;
      while r < |inFlight|
        invariant 0 <= r <= |inFlight|
        invariant pending == Busy(inFlight[..r])
      {
        assert inFlight[..r + 1][..r] == inFlight[..r];
        if inFlight[r] > 0 {
          pending := pending + [r];
        }
        r := r + 1;
      }
      assert inFlight[..r] == inFlight;
      EmitPlain(StageTwo(inFlight));
      ghost var before := log;
      r := 0;
      while r < config.routes
        invariant 0 <= r <= config.routes
        invariant log == before + ForRoutes(r, (r: nat) => ExecutionAborted(r))
        invariant Valid() && forall k | 0 <= k < r :: executionAborted[k]
      {
        executionAborted := executionAborted[r := true];
        log := log + [ExecutionAborted(r)];
        r := r + 1;
      }
    }

    /** `performShutdown` after the race between the drain and the deadline. */
    method ContinueShutdown()
      requires Valid()
      modifies this`shut, this`log, this`executionAborted
      ensures Valid() && Snapshot() == AfterRace(config, old(Snapshot()))
      ensures DeadlineFired in old(log) ==> forall r | 0 <= r < config.routes :: executionAborted[r]
    {
      var forced, pending: seq<nat> := DeadlineFired in log, [];
      if forced {
        pending := ForceStageTwo();
      }
      TeardownPlugins(|config.plugins|, Closing(!startCompleted, forced, pending));
    }
  }
}

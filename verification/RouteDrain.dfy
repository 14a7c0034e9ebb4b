/** Draining a route: in-flight work, deferred holds, and the loop that waits for both. */
module RouteDrain {
  import opened Basics

  /**
   * What a piece of work still has to do: track further work (a tap, a
   * continuation), or leave an exchange held outside the queue (a debounce)
   * whose release is a piece of work of its own.
   */
  datatype Job = Done | Track(child: Job, rest: Job) | Hold(held: Job, rest: Job)

  /** A tracked promise: its identity, and what is left of the work behind it. */
  datatype Task = Task(id: nat, job: Job)

  // ----- measures -----

  /** How many pieces of work a job stands for, itself and everything it leads to. */
  function Size(job: Job): nat {
    match job
    case Done => 1
    case Track(child, rest) => Size(child) + Size(rest)
    case Hold(held, rest) => Size(held) + Size(rest)
  }

  /** Every piece of work counts: the job itself, what it tracks, and what it leaves held. */
  lemma EveryPieceCounts(first: Job, rest: Job)
    ensures Size(Done) == 1
    ensures Size(Track(first, rest)) == Size(first) + Size(rest)
    ensures Size(Hold(first, rest)) == Size(first) + Size(rest)
    ensures Size(first) >= 1
  {
    AtLeastOne(first);
  }

  lemma {:induction false} AtLeastOne(job: Job)
    ensures Size(job) >= 1
  {
    match job
    case Done =>
    case Track(child, rest) => AtLeastOne(child); AtLeastOne(rest);
    case Hold(held, rest) => AtLeastOne(held); AtLeastOne(rest);
  }

  function TasksSize(tasks: seq<Task>): nat {
    if tasks == [] then 0 else Size(tasks[0].job) + TasksSize(tasks[1..])
  }

  function HoldsSize(holds: seq<Job>): nat {
    if holds == [] then 0 else Size(holds[0]) + HoldsSize(holds[1..])
  }

  /** Steps left: one to settle, one per effect, and one to release each hold. */
  function Steps(job: Job): nat {
    match job
    case Done => 1
    case Track(child, rest) => 1 + Steps(child) + Steps(rest)
    case Hold(held, rest) => 2 + Steps(held) + Steps(rest)
  }

  function TasksSteps(tasks: seq<Task>): nat {
    if tasks == [] then 0 else Steps(tasks[0].job) + TasksSteps(tasks[1..])
  }

  function HoldsSteps(holds: seq<Job>): nat {
    if holds == [] then 0 else 1 + Steps(holds[0]) + HoldsSteps(holds[1..])
  }

  lemma {:induction false} TasksConcat(a: seq<Task>, b: seq<Task>)
    ensures TasksSize(a + b) == TasksSize(a) + TasksSize(b)
    ensures TasksSteps(a + b) == TasksSteps(a) + TasksSteps(b)
  {
    if a == [] {
      assert a + b == b;
    } else {
      assert (a + b)[1..] == a[1..] + b;
      TasksConcat(a[1..], b);
    }
  }

  lemma {:induction false} HoldsConcat(a: seq<Job>, b: seq<Job>)
    ensures HoldsSize(a + b) == HoldsSize(a) + HoldsSize(b)
    ensures HoldsSteps(a + b) == HoldsSteps(a) + HoldsSteps(b)
  {
    if a == [] {
      assert a + b == b;
    } else {
      assert (a + b)[1..] == a[1..] + b;
      HoldsConcat(a[1..], b);
    }
  }

  lemma TaskBetween(a: seq<Task>, t: Task, b: seq<Task>)
    ensures TasksSize(a + ([t] + b)) == Size(t.job) + TasksSize(a + b)
    ensures TasksSteps(a + ([t] + b)) == Steps(t.job) + TasksSteps(a + b)
  {
    TasksConcat(a, [t] + b);
    assert ([t] + b)[1..] == b;
    TasksConcat(a, b);
  }

  lemma TaskOut(tasks: seq<Task>, k: nat)
    requires k < |tasks|
    ensures TasksSize(tasks) == Size(tasks[k].job) + TasksSize(Without(tasks, k))
    ensures TasksSteps(tasks) == Steps(tasks[k].job) + TasksSteps(Without(tasks, k))
  {
    TaskBetween(tasks[..k], tasks[k], tasks[k + 1..]);
    Parted(tasks, k);
  }

  lemma TaskChanged(tasks: seq<Task>, k: nat, t: Task)
    requires k < |tasks|
    ensures TasksSize(tasks[k := t]) == Size(t.job) + TasksSize(Without(tasks, k))
    ensures TasksSteps(tasks[k := t]) == Steps(t.job) + TasksSteps(Without(tasks, k))
  {
    TaskOut(tasks[k := t], k);
    assert Without(tasks[k := t], k) == Without(tasks, k);
  }

  lemma HoldBetween(a: seq<Job>, held: Job, b: seq<Job>)
    ensures HoldsSize(a + ([held] + b)) == Size(held) + HoldsSize(a + b)
    ensures HoldsSteps(a + ([held] + b)) == 1 + Steps(held) + HoldsSteps(a + b)
  {
    HoldsConcat(a, [held] + b);
    assert ([held] + b)[1..] == b;
    HoldsConcat(a, b);
  }

  lemma HoldOut(holds: seq<Job>, k: nat)
    requires k < |holds|
    ensures HoldsSize(holds) == Size(holds[k]) + HoldsSize(Without(holds, k))
    ensures HoldsSteps(holds) == 1 + Steps(holds[k]) + HoldsSteps(Without(holds, k))
  {
    HoldBetween(holds[..k], holds[k], holds[k + 1..]);
    Parted(holds, k);
  }

  lemma SameIds(tasks: seq<Task>, k: nat, t: Task)
    requires k < |tasks| && t.id == tasks[k].id
    ensures (set x | x in tasks[k := t] :: x.id) == (set x | x in tasks :: x.id)
  {
    var after := tasks[k := t];
    forall x | x in tasks ensures exists y :: y in after && y.id == x.id {
      var i :| 0 <= i < |tasks| && tasks[i] == x;
      assert after[i] in after && after[i].id == x.id;
    }
    forall y | y in after ensures exists x :: x in tasks && x.id == y.id {
      var i :| 0 <= i < |after| && after[i] == y;
      assert tasks[i] in tasks && tasks[i].id == y.id;
    }
  }

  class Route {
    var inFlight: seq<Task>
    var holds: seq<Job>
    var nextId: nat
    /** Pieces of work that ran to their end. */
    var finished: nat

    ghost predicate Valid()
      reads this
    {
      && (forall i, j | 0 <= i < j < |inFlight| :: inFlight[i].id != inFlight[j].id)
      && forall t | t in inFlight :: t.id < nextId
    }

    /** Everything the route has done or still answers for. */
    function Account(): nat
      reads this
    {
      finished + TasksSize(inFlight) + HoldsSize(holds)
    }

    function StepsLeft(): nat
      reads this
    {
      TasksSteps(inFlight) + HoldsSteps(holds)
    }

    function Ids(): set<nat>
      reads this
    {
      set t | t in inFlight :: t.id
    }

    constructor ()
      ensures Valid() && inFlight == [] && holds == [] && Account() == 0
    {
      inFlight, holds, nextId, finished := [], [], 0, 0;
    }

    /** `trackTask`: the promise joins the in-flight set under an identity of its own. */
    method TrackTask(job: Job)
      requires Valid()
      modifies this`inFlight, this`nextId
      ensures Valid() && inFlight == old(inFlight) + [Task(old(nextId), job)] && nextId == old(nextId) + 1
      ensures TasksSize(inFlight) == TasksSize(old(inFlight)) + Size(job)
      ensures TasksSteps(inFlight) == TasksSteps(old(inFlight)) + Steps(job)
    {
      TasksConcat(inFlight, [Task(nextId, job)]);
      inFlight := inFlight + [Task(nextId, job)];
      nextId := nextId + 1;
    }

    /** The work behind an in-flight promise ends: `finally` takes it out of the set. */
    method Settle(k: nat)
      requires Valid() && k < |inFlight| && inFlight[k].job.Done?
      modifies this`inFlight, this`finished
      ensures Valid() && inFlight == Without(old(inFlight), k)
      ensures StepsLeft() < old(StepsLeft()) && Account() == old(Account()) && finished == old(finished) + 1
    {
      TaskOut(inFlight, k);
      assert forall x | x in Without(inFlight, k) :: x in inFlight;
      inFlight := inFlight[..k] + inFlight[k + 1..];
      finished := finished + 1;
    }

    /** What is left of the work behind an in-flight promise becomes `rest`. */
    method Continue(k: nat, rest: Job)
      requires Valid() && k < |inFlight|
      modifies this`inFlight
      ensures Valid() && Ids() == old(Ids())
      ensures inFlight == old(inFlight)[k := Task(old(inFlight)[k].id, rest)]
      ensures TasksSize(inFlight) + Size(old(inFlight)[k].job) == TasksSize(old(inFlight)) + Size(rest)
      ensures TasksSteps(inFlight) + Steps(old(inFlight)[k].job) == TasksSteps(old(inFlight)) + Steps(rest)
    {
      var now := inFlight[k].(job := rest);
      TaskOut(inFlight, k);
      TaskChanged(inFlight, k, now);
      SameIds(inFlight, k, now);
      inFlight := inFlight[k := now];
    }

    /** The work behind an in-flight promise does its next thing: tracks a task, or leaves a hold. */
    method Perform(k: nat)
      requires Valid() && k < |inFlight| && !inFlight[k].job.Done?
      modifies this`inFlight, this`holds, this`nextId
      ensures Valid() && nextId >= old(nextId)
      ensures StepsLeft() < old(StepsLeft()) && Account() == old(Account())
      ensures forall id | id in Ids() :: id in old(Ids()) || id >= old(nextId)
      ensures old(inFlight)[k].job.Track? ==>
                && inFlight == old(inFlight)[k := Task(old(inFlight)[k].id, old(inFlight)[k].job.rest)]
                               + [Task(old(nextId), old(inFlight)[k].job.child)]
                && holds == old(holds)
      ensures old(inFlight)[k].job.Hold? ==>
                && inFlight == old(inFlight)[k := Task(old(inFlight)[k].id, old(inFlight)[k].job.rest)]
                && holds == old(holds) + [old(inFlight)[k].job.held]
    {
      match inFlight[k].job
      case Track(child, rest) =>
        Continue(k, rest);
        TrackTask(child);
      case Hold(held, rest) =>
        Continue(k, rest);
        HoldsConcat(holds, [held]);
        holds := holds + [held];
    }

    /** A hold's timer fires: the held exchange becomes in-flight work. */
    method Release(k: nat)
      requires Valid() && k < |holds|
      modifies this
      ensures Valid() && holds == Without(old(holds), k) && nextId == old(nextId) + 1
      ensures inFlight == old(inFlight) + [Task(old(nextId), old(holds)[k])]
      ensures StepsLeft() < old(StepsLeft()) && Account() == old(Account())
    {
      HoldOut(holds, k);
      var held := holds[k];
      holds := holds[..k] + holds[k + 1..];
      TrackTask(held);
    }

    /** `runDrainCallbacks`: every deferred hold is flushed into in-flight work. */
    method RunDrainCallbacks()
      requires Valid()
      modifies this
      ensures Valid() && holds == []
      ensures StepsLeft() <= old(StepsLeft()) && Account() == old(Account())
      ensures |inFlight| == old(|inFlight|) + old(|holds|) && old(inFlight) <= inFlight
      ensures forall k | 0 <= k < old(|holds|) :: inFlight[old(|inFlight|) + k].job == old(holds)[k]
    {
      ghost var released := 0;
      while |holds| > 0
        invariant Valid()
        invariant StepsLeft() <= old(StepsLeft()) && Account() == old(Account())
        invariant released <= old(|holds|) && holds == old(holds)[released..]
        invariant |inFlight| == old(|inFlight|) + released && old(inFlight) <= inFlight
        invariant forall k | 0 <= k < released :: inFlight[old(|inFlight|) + k].job == old(holds)[k]
        decreases |holds|
      {
        Release(0);
        released := released + 1;
      }
    }

    /** One thing happens, whichever: a timer fires, or work behind an in-flight promise goes on or ends. */
    method Happen()
      requires Valid() && (inFlight != [] || holds != [])
      modifies this
      ensures Valid() && nextId >= old(nextId)
      ensures StepsLeft() < old(StepsLeft()) && Account() == old(Account())
      ensures forall id | id in Ids() :: id in old(Ids()) || id >= old(nextId)
    {
      var timer: bool := *;
      if |inFlight| == 0 || (timer && |holds| > 0) {
        var k: nat :| k < |holds|;
        Release(k);
      } else {
        var k: nat :| k < |inFlight|;
        if inFlight[k].job.Done? {
          Settle(k);
        } else {
          Perform(k);
        }
      }
    }

    /**
     * `await Promise.allSettled(current)`: meanwhile the world goes on in any
     * order, work advancing and timers firing, until all of `current` is done,
     * and for any number of steps more before the continuation gets to run.
     */
    method AwaitAllSettled(current: set<nat>)
      requires Valid() && forall id | id in current :: id < nextId
      modifies this
      ensures Valid() && current * Ids() == {}
      ensures StepsLeft() <= old(StepsLeft()) && Account() == old(Account())
      ensures current * old(Ids()) != {} ==> StepsLeft() < old(StepsLeft())
    {
      while current * Ids() != {}
        invariant Valid() && (forall id | id in current :: id < nextId)
        invariant StepsLeft() <= old(StepsLeft()) && Account() == old(Account())
        invariant StepsLeft() == old(StepsLeft()) ==> Ids() == old(Ids())
        decreases StepsLeft()
      {
        Happen();
      }
      var later: bool := *;
      while later && (|inFlight| > 0 || |holds| > 0)
        invariant Valid() && (forall id | id in current :: id < nextId)
        invariant StepsLeft() <= old(StepsLeft()) && Account() == old(Account())
        invariant current * old(Ids()) != {} ==> StepsLeft() < old(StepsLeft())
        invariant current * Ids() == {}
        decreases StepsLeft()
      {
        Happen();
        later := *;
      }
    }

    /**
     * `drain()`: returns only when nothing is in flight and nothing is held,
     * and always returns, since holds created by released exchanges are flushed
     * again after every round. Every piece of work has then run to its end.
     */
    method Drain()
      requires Valid()
      modifies this
      ensures Valid() && inFlight == [] && holds == []
      ensures finished == old(finished + TasksSize(inFlight) + HoldsSize(holds))
    {
      RunDrainCallbacks();
      while |inFlight| > 0
        invariant Valid() && holds == []
        invariant Account() == old(Account())
        decreases StepsLeft()
      {
        var current := Ids();
        assert inFlight[0].id in current * Ids();
        AwaitAllSettled(current);
        RunDrainCallbacks();
      }
    }
  }
}

/** The registry of project discoverers: registration, run order and cycle reporting. */
module ProjectDiscoverers {
  import opened Basics
  import opened JsText

  /** One registered discoverer; `discover` stands for the function it carries. */
  datatype Entry = Entry(folder: JsString, after: seq<JsString>, discover: nat)

  /** What asking for the run order yields: the order, or the RC5003 report of a cycle. */
  datatype Outcome = Ordered(run: seq<Entry>) | Cycle(members: seq<JsString>)

  function Folders(entries: seq<Entry>): set<JsString> {
    set e | e in entries :: e.folder
  }

  ghost predicate DistinctFolders(entries: seq<Entry>) {
    forall i, j | 0 <= i < j < |entries| :: entries[i].folder != entries[j].folder
  }

  /** `Map.set`: a known key keeps its position, a new one goes last. */
  function Registered(entries: seq<Entry>, e: Entry): seq<Entry> {
    if entries == [] then [e]
    else if entries[0].folder == e.folder then [e] + entries[1..]
    else [entries[0]] + Registered(entries[1..], e)
  }

  /**
   * Registering replaces the entry of a known folder where it stands and
   * appends an unknown one; every other entry keeps its place.
   */
  lemma {:induction false} RegisteredPositions(entries: seq<Entry>, e: Entry)
    requires DistinctFolders(entries)
    ensures var r := Registered(entries, e);
            && |r| == |entries| + (if e.folder in Folders(entries) then 0 else 1)
            && (forall i | 0 <= i < |entries| ::
                  r[i] == if entries[i].folder == e.folder then e else entries[i])
            && (e.folder !in Folders(entries) ==> r[|entries|] == e)
  {
    if entries != [] {
      if entries[0].folder == e.folder {
        assert forall i | 1 <= i < |entries| :: entries[i].folder != entries[0].folder;
      } else {
        TailDistinct(entries);
        RegisteredPositions(entries[1..], e);
        var r, rest := Registered(entries, e), Registered(entries[1..], e);
        assert forall i | 1 <= i < |entries| :: entries[i] == entries[1..][i - 1] && r[i] == rest[i - 1];
      }
    }
  }

  lemma {:induction false} RegisteredDistinct(entries: seq<Entry>, e: Entry)
    requires DistinctFolders(entries)
    ensures DistinctFolders(Registered(entries, e))
    ensures Folders(Registered(entries, e)) == Folders(entries) + {e.folder}
  {
    if entries == [] {
      assert Folders([e]) == {e.folder};
    } else {
      var tail := entries[1..];
      TailDistinct(entries);
      if entries[0].folder == e.folder {
        ConsDistinct(e, tail);
      } else {
        RegisteredDistinct(tail, e);
        ConsDistinct(entries[0], Registered(tail, e));
      }
    }
  }

  lemma ConsDistinct(e: Entry, rest: seq<Entry>)
    requires DistinctFolders(rest) && e.folder !in Folders(rest)
    ensures DistinctFolders([e] + rest)
    ensures Folders([e] + rest) == {e.folder} + Folders(rest)
  {
    assert ([e] + rest)[1..] == rest;
    forall j | 0 <= j < |rest| ensures rest[j].folder in Folders(rest) { assert rest[j] in rest; }
  }

  lemma TailDistinct(entries: seq<Entry>)
    requires entries != [] && DistinctFolders(entries)
    ensures DistinctFolders(entries[1..])
    ensures entries[0].folder !in Folders(entries[1..])
  {
  }

  // ----- the sort -----

  /** Every dependency has run, or was registered by nobody. */
  predicate Ready(e: Entry, registered: set<JsString>, done: set<JsString>) {
    forall d | d in e.after :: d !in registered || d in done
  }

  /** Position of the earliest ready entry, `|pending|` when there is none. */
  function FirstReady(pending: seq<Entry>, registered: set<JsString>, done: set<JsString>): (k: nat)
    ensures k <= |pending|
    ensures k < |pending| ==> Ready(pending[k], registered, done)
    ensures forall i | 0 <= i < k :: !Ready(pending[i], registered, done)
  {
    if pending == [] then 0
    else if Ready(pending[0], registered, done) then 0
    else
      var k := FirstReady(pending[1..], registered, done);
      assert forall i | 1 <= i <= k :: pending[i] == pending[1..][i - 1];
      k + 1
  }

  datatype Progress = Complete(run: seq<Entry>) | Deadlock(run: seq<Entry>, blocked: seq<Entry>)

  function Prepend(e: Entry, p: Progress): Progress {
    p.(run := [e] + p.run)
  }

  /** The sort as a recursion: run the earliest ready entry, then sort what is left. */
  function Schedule(pending: seq<Entry>, registered: set<JsString>, done: set<JsString>): Progress
    decreases |pending|
  {
    if pending == [] then Complete([])
    else
      var k := FirstReady(pending, registered, done);
      if k == |pending| then Deadlock([], pending)
      else Prepend(pending[k], Schedule(Without(pending, k), registered, done + {pending[k].folder}))
  }

  function Sorting(entries: seq<Entry>): Progress {
    Schedule(entries, Folders(entries), {})
  }

  // ----- what a run order is -----

  /** Running `run` after `done` meets every entry with its dependencies already run. */
  ghost predicate DependenciesMet(run: seq<Entry>, registered: set<JsString>, done: set<JsString>) {
    run != [] ==>
      Ready(run[0], registered, done) && DependenciesMet(run[1..], registered, done + {run[0].folder})
  }

  /** A rearrangement of the registry in which every dependency runs first. */
  ghost predicate IsRunOrder(run: seq<Entry>, entries: seq<Entry>) {
    multiset(run) == multiset(entries) && DependenciesMet(run, Folders(entries), {})
  }

  /** `DependenciesMet`, said by position: every registered dependency stands at an earlier one. */
  lemma {:induction false} DependenciesMetByPosition(run: seq<Entry>, registered: set<JsString>, done: set<JsString>)
    ensures DependenciesMet(run, registered, done) <==>
            forall i, d | 0 <= i < |run| && d in run[i].after && d in registered ::
              d in done || exists j | 0 <= j < i :: run[j].folder == d
  {
    if run != [] {
      var done', tail := done + {run[0].folder}, run[1..];
      DependenciesMetByPosition(tail, registered, done');
      if DependenciesMet(run, registered, done) {
        forall i, d | 0 <= i < |run| && d in run[i].after && d in registered
          ensures d in done || exists j | 0 <= j < i :: run[j].folder == d
        {
          if i > 0 {
            assert tail[i - 1] == run[i];
            if d !in done' {
              var j :| 0 <= j < i - 1 && tail[j].folder == d;
              assert run[j + 1].folder == d;
            } else if d !in done {
              assert run[0].folder == d;
            }
          }
        }
      }
      if forall i, d | 0 <= i < |run| && d in run[i].after && d in registered ::
           d in done || exists j | 0 <= j < i :: run[j].folder == d
      {
        forall i, d | 0 <= i < |tail| && d in tail[i].after && d in registered
          ensures d in done' || exists j | 0 <= j < i :: tail[j].folder == d
        {
          assert run[i + 1] == tail[i];
          if d !in done' {
            var j :| 0 <= j < i + 1 && run[j].folder == d;
            assert tail[j - 1].folder == d;
          }
        }
      }
    }
  }

  /** Registration index. */
  function Index(entries: seq<Entry>, e: Entry): (i: nat)
    requires e in entries
    ensures i < |entries| && entries[i] == e
  {
    if entries[0] == e then 0 else 1 + Index(entries[1..], e)
  }

  /** Lexicographic order by registration index: at the first difference, `a` runs the earlier registration. */
  ghost predicate Precedes(a: seq<Entry>, b: seq<Entry>, entries: seq<Entry>)
    requires forall e | e in a || e in b :: e in entries
  {
    a != [] && b != [] &&
    if a[0] == b[0] then Precedes(a[1..], b[1..], entries)
    else Index(entries, a[0]) < Index(entries, b[0])
  }

  // ----- the dependency graph -----

  ghost predicate Edge(entries: seq<Entry>, a: JsString, b: JsString) {
    exists e :: e in entries && e.folder == a && b in e.after
  }

  ghost predicate Walk(entries: seq<Entry>, p: seq<JsString>) {
    forall i | 0 <= i < |p| - 1 :: Edge(entries, p[i], p[i + 1])
  }

  ghost predicate WalkBetween(entries: seq<Entry>, p: seq<JsString>, a: JsString, b: JsString) {
    |p| >= 2 && p[0] == a && p[|p| - 1] == b && Walk(entries, p)
  }

  /** `b` can be reached from `a` by following one or more `after` edges. */
  ghost predicate CanReach(entries: seq<Entry>, a: JsString, b: JsString) {
    exists p :: WalkBetween(entries, p, a, b)
  }

  ghost predicate OnCycle(entries: seq<Entry>, f: JsString) {
    CanReach(entries, f, f)
  }

  ghost predicate Acyclic(entries: seq<Entry>) {
    forall f :: !OnCycle(entries, f)
  }

  // ----- the order is sound and least -----

  lemma WithoutFacts(s: seq<Entry>, k: nat)
    requires k < |s| && DistinctFolders(s)
    ensures DistinctFolders(Without(s, k))
    ensures multiset(s) == multiset{s[k]} + multiset(Without(s, k))
    ensures Folders(s) == Folders(Without(s, k)) + {s[k].folder}
    ensures s[k].folder !in Folders(Without(s, k))
    ensures forall e | e in Without(s, k) :: e in s
  {
    assert s == s[..k] + [s[k]] + s[k + 1..];
    assert forall e :: e in s <==> e == s[k] || e in Without(s, k);
  }

  /** A completed sort is a rearrangement that meets every dependency. */
  lemma {:induction false} ScheduleSound(pending: seq<Entry>, registered: set<JsString>, done: set<JsString>)
    requires DistinctFolders(pending)
    ensures var r := Schedule(pending, registered, done);
            && DependenciesMet(r.run, registered, done)
            && (r.Complete? ==> multiset(r.run) == multiset(pending))
    decreases |pending|
  {
    if pending != [] {
      var k := FirstReady(pending, registered, done);
      if k < |pending| {
        var e := pending[k];
        WithoutFacts(pending, k);
        ScheduleSound(Without(pending, k), registered, done + {e.folder});
        var rest := Schedule(Without(pending, k), registered, done + {e.folder}).run;
        assert ([e] + rest)[1..] == rest;
      }
    }
  }

  /** The entries stand in registration order. */
  ghost predicate Rising(pending: seq<Entry>, entries: seq<Entry>) {
    && (forall e | e in pending :: e in entries)
    && forall i, j | 0 <= i < j < |pending| :: Index(entries, pending[i]) < Index(entries, pending[j])
  }

  lemma RisingSelf(entries: seq<Entry>)
    requires DistinctFolders(entries)
    ensures Rising(entries, entries)
  {
    forall i, j | 0 <= i < j < |entries| ensures Index(entries, entries[i]) < Index(entries, entries[j]) {
    }
  }

  lemma MembersOf(a: seq<Entry>, b: seq<Entry>)
    requires multiset(a) == multiset(b)
    ensures |a| == |b| && forall e :: e in a <==> e in b
  {
    assert |multiset(a)| == |a| && |multiset(b)| == |b|;
    assert forall e :: e in a <==> e in multiset(a);
    assert forall e :: e in b <==> e in multiset(b);
  }

  lemma WithoutSplit(s: seq<Entry>, k: nat)
    requires k < |s|
    ensures multiset(s) == multiset{s[k]} + multiset(Without(s, k))
  {
    assert s == s[..k] + [s[k]] + s[k + 1..];
  }

  /** Taking the same entry out of two arrangements of each other leaves two arrangements of each other. */
  lemma WithoutSame(a: seq<Entry>, n: nat, b: seq<Entry>, k: nat)
    requires multiset(a) == multiset(b) && n < |a| && k < |b| && a[n] == b[k]
    ensures multiset(Without(a, n)) == multiset(Without(b, k))
  {
    WithoutSplit(a, n);
    WithoutSplit(b, k);
    assert multiset(Without(a, n)) == multiset(a) - multiset{a[n]};
    assert multiset(Without(b, k)) == multiset(b) - multiset{b[k]};
  }

  /** A list in which something is ready at the head cannot find every pending entry blocked. */
  lemma HeadIsPending(rival: seq<Entry>, pending: seq<Entry>, registered: set<JsString>, done: set<JsString>)
      returns (j: nat)
    requires multiset(rival) == multiset(pending) && pending != []
    requires DependenciesMet(rival, registered, done)
    ensures |rival| == |pending| && j < |pending| && pending[j] == rival[0]
    ensures FirstReady(pending, registered, done) <= j
  {
    MembersOf(rival, pending);
    assert rival[0] in pending;
    j :| 0 <= j < |pending| && pending[j] == rival[0];
  }

  /** Swapping in: if `rival` meets its dependencies and `e` is ready now, `rival` still does after `e` runs. */
  lemma {:induction false} MoreDone(run: seq<Entry>, registered: set<JsString>, done: set<JsString>,
      more: set<JsString>)
    requires DependenciesMet(run, registered, done) && done <= more
    ensures DependenciesMet(run, registered, more)
  {
    if run != [] {
      MoreDone(run[1..], registered, done + {run[0].folder}, more + {run[0].folder});
    }
  }

  /** `e` taken out of `run` leaves the dependencies met, once `e` counts as done. */
  lemma {:induction false} MetWithout(run: seq<Entry>, registered: set<JsString>, done: set<JsString>, n: nat)
    requires DependenciesMet(run, registered, done) && n < |run|
    ensures DependenciesMet(Without(run, n), registered, done + {run[n].folder})
  {
    var more := done + {run[n].folder};
    if n == 0 {
      assert Without(run, 0) == run[1..];
    } else {
      MetWithout(run[1..], registered, done + {run[0].folder}, n - 1);
      assert Without(run, n)[1..] == Without(run[1..], n - 1);
      assert done + {run[0].folder} + {run[n].folder} == more + {run[0].folder};
    }
  }

  /** When some arrangement meets every dependency, the sort completes. */
  lemma {:induction false} ScheduleCompletes(pending: seq<Entry>, registered: set<JsString>, done: set<JsString>,
      rival: seq<Entry>)
    requires DistinctFolders(pending)
    requires multiset(rival) == multiset(pending) && DependenciesMet(rival, registered, done)
    ensures Schedule(pending, registered, done).Complete?
    decreases |pending|
  {
    if pending != [] {
      var j := HeadIsPending(rival, pending, registered, done);
      var k := FirstReady(pending, registered, done);
      WithoutFacts(pending, k);
      MembersOf(rival, pending);
      var n :| 0 <= n < |rival| && rival[n] == pending[k];
      MetWithout(rival, registered, done, n);
      WithoutSame(rival, n, pending, k);
      ScheduleCompletes(Without(pending, k), registered, done + {pending[k].folder}, Without(rival, n));
    }
  }

  lemma ScheduleMembers(pending: seq<Entry>, registered: set<JsString>, done: set<JsString>, run: seq<Entry>)
    requires DistinctFolders(pending) && Schedule(pending, registered, done) == Complete(run)
    ensures |run| == |pending| && forall e :: e in run <==> e in pending
  {
    ScheduleSound(pending, registered, done);
    MembersOf(run, pending);
  }

  /** Rival and sort start alike: compare what follows, where the first entry is out of the way. */
  lemma RivalAgrees(pending: seq<Entry>, entries: seq<Entry>, registered: set<JsString>, done: set<JsString>,
      rival: seq<Entry>, k: nat)
    requires DistinctFolders(pending) && Rising(pending, entries) && k < |pending|
    requires multiset(rival) == multiset(pending) && DependenciesMet(rival, registered, done)
    requires rival != [] && rival[0] == pending[k]
    ensures DistinctFolders(Without(pending, k)) && Rising(Without(pending, k), entries)
    ensures multiset(rival[1..]) == multiset(Without(pending, k))
    ensures DependenciesMet(rival[1..], registered, done + {pending[k].folder})
  {
    WithoutFacts(pending, k);
    WithoutSame(rival, 0, pending, k);
    assert Without(rival, 0) == rival[1..];
  }

  /** Against any arrangement that meets every dependency, the sort is that arrangement or precedes it. */
  lemma {:induction false} ScheduleLeast(pending: seq<Entry>, entries: seq<Entry>, registered: set<JsString>,
      done: set<JsString>, rival: seq<Entry>, run: seq<Entry>)
    requires DistinctFolders(pending) && Rising(pending, entries)
    requires multiset(rival) == multiset(pending) && DependenciesMet(rival, registered, done)
    requires Schedule(pending, registered, done) == Complete(run)
    ensures forall e | e in run || e in rival :: e in entries
    ensures rival == run || Precedes(run, rival, entries)
    decreases |pending|
  {
    ScheduleMembers(pending, registered, done, run);
    MembersOf(rival, pending);
    if pending != [] {
      var k := FirstReady(pending, registered, done);
      var j := HeadIsPending(rival, pending, registered, done);
      if j == k {
        RivalAgrees(pending, entries, registered, done, rival, k);
        ScheduleLeast(Without(pending, k), entries, registered, done + {pending[k].folder}, rival[1..], run[1..]);
        PrecedesCons(run, rival, entries);
      }
    }
  }

  lemma PrecedesCons(a: seq<Entry>, b: seq<Entry>, entries: seq<Entry>)
    requires forall e | e in a || e in b :: e in entries
    requires a != [] && b != [] && a[0] == b[0]
    ensures b == a <==> b[1..] == a[1..]
    ensures Precedes(a, b, entries) <==> Precedes(a[1..], b[1..], entries)
  {
    assert a == [a[0]] + a[1..] && b == [b[0]] + b[1..];
  }

  /**
   * When the sort returns, it returns a rearrangement of the registry with
   * every dependency first, and among all such arrangements the
   * lexicographically least by registration index.
   */
  lemma RunOrderLeast(entries: seq<Entry>)
    requires DistinctFolders(entries) && Sorting(entries).Complete?
    ensures var run := Sorting(entries).run;
            && IsRunOrder(run, entries)
            && (forall e | e in run :: e in entries)
            && forall rival | IsRunOrder(rival, entries) && rival != run ::
                 (forall e | e in rival :: e in entries) && Precedes(run, rival, entries)
  {
    ScheduleSound(entries, Folders(entries), {});
    MembersOf(Sorting(entries).run, entries);
    RisingSelf(entries);
    forall rival | IsRunOrder(rival, entries) && rival != Sorting(entries).run
      ensures (forall e | e in rival :: e in entries) && Precedes(Sorting(entries).run, rival, entries)
    {
      ScheduleLeast(entries, entries, Folders(entries), {}, rival, Sorting(entries).run);
    }
  }

  // ----- deadlock and cycles -----

  /** A deadlock splits the registry into what ran and what is still blocked once that has run. */
  lemma {:induction false} DeadlockBlocked(pending: seq<Entry>, registered: set<JsString>, done: set<JsString>)
    requires DistinctFolders(pending) && Schedule(pending, registered, done).Deadlock?
    ensures var r := Schedule(pending, registered, done);
            && r.blocked != [] && DistinctFolders(r.blocked)
            && (forall e | e in r.blocked :: !Ready(e, registered, done + Folders(r.run)))
            && multiset(pending) == multiset(r.run) + multiset(r.blocked)
    decreases |pending|
  {
    var k := FirstReady(pending, registered, done);
    if k < |pending| {
      var e := pending[k];
      WithoutFacts(pending, k);
      DeadlockBlocked(Without(pending, k), registered, done + {e.folder});
      var rest := Schedule(Without(pending, k), registered, done + {e.folder}).run;
      assert ([e] + rest)[1..] == rest;
      assert done + {e.folder} + Folders(rest) == done + Folders([e] + rest);
    } else {
      assert done + Folders([]) == done;
    }
  }

  ghost predicate Split(entries: seq<Entry>, run: seq<Entry>, blocked: seq<Entry>) {
    && DistinctFolders(entries)
    && multiset(entries) == multiset(run) + multiset(blocked)
    && DependenciesMet(run, Folders(entries), {})
    && forall e | e in blocked :: !Ready(e, Folders(entries), Folders(run))
  }

  lemma SortingSplits(entries: seq<Entry>)
    requires DistinctFolders(entries)
    ensures var r := Sorting(entries);
            Split(entries, r.run, if r.Deadlock? then r.blocked else [])
            && (r.Deadlock? ==> r.blocked != [] && DistinctFolders(r.blocked))
  {
    var r := Sorting(entries);
    ScheduleSound(entries, Folders(entries), {});
    if r.Deadlock? {
      DeadlockBlocked(entries, Folders(entries), {});
      assert {} + Folders(r.run) == Folders(r.run);
    }
  }

  lemma SplitMembers(entries: seq<Entry>, run: seq<Entry>, blocked: seq<Entry>)
    requires Split(entries, run, blocked)
    ensures forall e :: e in entries <==> e in run || e in blocked
    ensures DistinctFolders(run) && DistinctFolders(blocked)
    ensures Folders(run) !! Folders(blocked)
  {
    MembersOf(entries, run + blocked);
    EntriesDistinct(entries);
    MultisetDistinct(entries, run + blocked);
    DistinctParts(entries, run, blocked);
  }

  lemma DistinctParts(entries: seq<Entry>, run: seq<Entry>, blocked: seq<Entry>)
    requires DistinctFolders(entries) && Distinct(run + blocked)
    requires forall e :: e in entries <==> e in run + blocked
    ensures DistinctFolders(run) && DistinctFolders(blocked)
    ensures Folders(run) !! Folders(blocked)
  {
    var all := run + blocked;
    forall i, j | 0 <= i < j < |all| ensures all[i].folder != all[j].folder {
      assert all[i] in all && all[j] in all;
      if all[i].folder == all[j].folder {
        SameFolderSameEntry(entries, all[i], all[j]);
      }
    }
    assert forall i | 0 <= i < |run| :: all[i] == run[i];
    assert forall i | 0 <= i < |blocked| :: all[|run| + i] == blocked[i];
  }

  lemma EntriesDistinct(entries: seq<Entry>)
    requires DistinctFolders(entries)
    ensures Distinct(entries)
  {
  }

  lemma SameFolderSameEntry(entries: seq<Entry>, a: Entry, b: Entry)
    requires DistinctFolders(entries) && a in entries && b in entries && a.folder == b.folder
    ensures a == b
  {
  }

  /** A walk from an entry that ran leads only to entries that ran before it. */
  lemma {:induction false} WalkDescends(entries: seq<Entry>, run: seq<Entry>, blocked: seq<Entry>, p: seq<JsString>,
      i: nat)
    requires Split(entries, run, blocked)
    requires Walk(entries, p) && |p| >= 2 && forall f | f in p :: f in Folders(entries)
    requires i < |run| && run[i].folder == p[0]
    ensures exists j | 0 <= j < i :: run[j].folder == p[|p| - 1]
    decreases |p|
  {
    assert Edge(entries, p[0], p[1]) && p[1] in p;
    var j := StepDescends(entries, run, blocked, p[0], p[1], i);
    if |p| > 2 {
      WalkTail(entries, p);
      WalkDescends(entries, run, blocked, p[1..], j);
    }
  }

  lemma WalkTail(entries: seq<Entry>, p: seq<JsString>)
    requires Walk(entries, p) && |p| >= 2
    ensures Walk(entries, p[1..])
  {
    var q := p[1..];
    forall k | 0 <= k < |q| - 1 ensures Edge(entries, q[k], q[k + 1]) {
      assert Edge(entries, p[k + 1], p[k + 2]);
    }
  }

  lemma RanBefore(run: seq<Entry>, registered: set<JsString>, i: nat, d: JsString) returns (j: nat)
    requires DependenciesMet(run, registered, {}) && i < |run| && d in run[i].after && d in registered
    ensures j < i && run[j].folder == d
  {
    DependenciesMetByPosition(run, registered, {});
    j :| 0 <= j < i && run[j].folder == d;
  }

  lemma StepDescends(entries: seq<Entry>, run: seq<Entry>, blocked: seq<Entry>, f: JsString, g: JsString, i: nat)
      returns (j: nat)
    requires Split(entries, run, blocked) && Edge(entries, f, g) && g in Folders(entries)
    requires i < |run| && run[i].folder == f
    ensures j < i && run[j].folder == g
  {
    var e :| e in entries && e.folder == f && g in e.after;
    assert run[i] in entries by { SplitMembers(entries, run, blocked); }
    SameFolderSameEntry(entries, e, run[i]);
    j := RanBefore(run, Folders(entries), i, g);
  }

  lemma WalkRegistered(entries: seq<Entry>, p: seq<JsString>, f: JsString)
    requires WalkBetween(entries, p, f, f)
    ensures forall x | x in p :: x in Folders(entries)
  {
    forall i | 0 <= i < |p| - 1 ensures p[i] in Folders(entries) {
      assert Edge(entries, p[i], p[i + 1]);
    }
  }

  /** What ran lies on no cycle, and neither does anything from which it is reached. */
  lemma CycleAvoidsRun(entries: seq<Entry>, run: seq<Entry>, blocked: seq<Entry>, p: seq<JsString>, f: JsString)
    requires Split(entries, run, blocked) && WalkBetween(entries, p, f, f)
    ensures forall x | x in p :: x in Folders(blocked)
  {
    SplitMembers(entries, run, blocked);
    WalkRegistered(entries, p, f);
    forall m | 0 <= m < |p| ensures p[m] in Folders(blocked) {
      assert p[m] in p;
      if p[m] in Folders(run) {
        EndsInRun(entries, run, blocked, p, f, m);
        RunNotOnCycle(entries, run, blocked, p, f);
      }
    }
  }

  lemma EndsInRun(entries: seq<Entry>, run: seq<Entry>, blocked: seq<Entry>, p: seq<JsString>, f: JsString, m: nat)
    requires Split(entries, run, blocked) && WalkBetween(entries, p, f, f)
    requires m < |p| && p[m] in Folders(run)
    ensures f in Folders(run)
  {
    if m < |p| - 1 {
      WalkRegistered(entries, p, f);
      var e :| e in run && e.folder == p[m];
      var i :| 0 <= i < |run| && run[i] == e;
      var q := p[m..];
      forall k | 0 <= k < |q| - 1 ensures Edge(entries, q[k], q[k + 1]) {
        assert Edge(entries, p[m + k], p[m + k + 1]);
      }
      WalkDescends(entries, run, blocked, q, i);
    }
  }

  lemma RunNotOnCycle(entries: seq<Entry>, run: seq<Entry>, blocked: seq<Entry>, p: seq<JsString>, f: JsString)
    requires Split(entries, run, blocked) && WalkBetween(entries, p, f, f)
    ensures f !in Folders(run)
  {
    if f in Folders(run) {
      SplitMembers(entries, run, blocked);
      WalkRegistered(entries, p, f);
      var e :| e in run && e.folder == f;
      var i :| 0 <= i < |run| && run[i] == e;
      WalkDescends(entries, run, blocked, p, i);
    }
  }

  /** The cycles of the whole registry are the cycles among the blocked entries. */
  lemma CyclesAreBlocked(entries: seq<Entry>, run: seq<Entry>, blocked: seq<Entry>, f: JsString)
    requires Split(entries, run, blocked)
    ensures OnCycle(entries, f) <==> OnCycle(blocked, f)
  {
    SplitMembers(entries, run, blocked);
    if OnCycle(entries, f) {
      var p :| WalkBetween(entries, p, f, f);
      CycleAvoidsRun(entries, run, blocked, p, f);
      forall i | 0 <= i < |p| - 1 ensures Edge(blocked, p[i], p[i + 1]) {
        assert Edge(entries, p[i], p[i + 1]);
        var e :| e in entries && e.folder == p[i] && p[i + 1] in e.after;
        assert p[i] in p && e !in run;
      }
      assert WalkBetween(blocked, p, f, f);
    }
    if OnCycle(blocked, f) {
      var p :| WalkBetween(blocked, p, f, f);
      forall i | 0 <= i < |p| - 1 ensures Edge(entries, p[i], p[i + 1]) {
        assert Edge(blocked, p[i], p[i + 1]);
      }
      assert WalkBetween(entries, p, f, f);
    }
  }

  /** Every blocked entry waits on a blocked entry. */
  lemma BlockedWaits(entries: seq<Entry>, run: seq<Entry>, blocked: seq<Entry>, f: JsString) returns (d: JsString)
    requires Split(entries, run, blocked) && f in Folders(blocked)
    ensures Edge(blocked, f, d) && d in Folders(blocked)
  {
    SplitMembers(entries, run, blocked);
    var e :| e in blocked && e.folder == f;
    d :| d in e.after && d in Folders(entries) && d !in Folders(run);
    var x :| x in entries && x.folder == d;
    assert x in blocked;
  }

  lemma {:induction false} BlockedWalk(entries: seq<Entry>, run: seq<Entry>, blocked: seq<Entry>, f: JsString, n: nat)
      returns (p: seq<JsString>)
    requires Split(entries, run, blocked) && f in Folders(blocked)
    ensures |p| == n + 1 && p[0] == f && Walk(blocked, p)
    ensures forall x | x in p :: x in Folders(blocked)
    decreases n
  {
    if n == 0 {
      p := [f];
    } else {
      var d := BlockedWaits(entries, run, blocked, f);
      var q := BlockedWalk(entries, run, blocked, d, n - 1);
      p := [f] + q;
      forall i | 0 <= i < |p| - 1 ensures Edge(blocked, p[i], p[i + 1]) {
        if i > 0 { assert Edge(blocked, q[i - 1], q[i]); }
      }
    }
  }

  /** More elements than the set they are drawn from: some element comes twice. */
  lemma {:induction false} Pigeonhole(p: seq<JsString>, s: set<JsString>) returns (i: nat, j: nat)
    requires |p| > |s| && forall x | x in p :: x in s
    ensures i < j < |p| && p[i] == p[j]
    decreases |p|
  {
    assert p[0] in p;
    if k :| 1 <= k < |p| && p[k] == p[0] {
      i, j := 0, k;
    } else {
      assert forall x | x in p[1..] :: x in s - {p[0]};
      i, j := Pigeonhole(p[1..], s - {p[0]});
      i, j := i + 1, j + 1;
    }
  }

  /** A deadlock means some blocked entry really lies on a cycle. */
  lemma DeadlockHasCycle(entries: seq<Entry>, run: seq<Entry>, blocked: seq<Entry>) returns (f: JsString)
    requires Split(entries, run, blocked) && blocked != []
    ensures OnCycle(blocked, f)
  {
    assert blocked[0].folder in Folders(blocked);
    var p := BlockedWalk(entries, run, blocked, blocked[0].folder, |Folders(blocked)|);
    var i, j := Pigeonhole(p, Folders(blocked));
    f := p[i];
    var q := p[i..j + 1];
    forall k | 0 <= k < |q| - 1 ensures Edge(blocked, q[k], q[k + 1]) {
      assert Edge(blocked, p[i + k], p[i + k + 1]);
    }
    assert WalkBetween(blocked, q, f, f);
  }

  lemma NoEntriesNoCycle(f: JsString)
    ensures !OnCycle([], f)
  {
    forall p: seq<JsString> ensures !WalkBetween([], p, f, f) {
      if |p| >= 2 {
        assert !Edge([], p[0], p[1]);
      }
    }
  }

  /** The sort returns exactly when the dependency graph has no cycle. */
  lemma ReturnsIffAcyclic(entries: seq<Entry>)
    requires DistinctFolders(entries)
    ensures Sorting(entries).Complete? <==> Acyclic(entries)
  {
    SortingSplits(entries);
    var r := Sorting(entries);
    if r.Complete? {
      forall f ensures !OnCycle(entries, f) {
        CyclesAreBlocked(entries, r.run, [], f);
        NoEntriesNoCycle(f);
      }
    } else {
      var f := DeadlockHasCycle(entries, r.run, r.blocked);
      CyclesAreBlocked(entries, r.run, r.blocked, f);
    }
  }

  // ----- stability under unrelated registrations -----

  function Inserted(s: seq<Entry>, e: Entry, p: nat): (r: seq<Entry>)
    requires p <= |s|
    ensures |r| == |s| + 1
  {
    s[..p] + [e] + s[p..]
  }

  ghost predicate Unnamed(f: JsString, entries: seq<Entry>) {
    forall x | x in entries :: f !in x.after
  }

  lemma {:induction false} FirstReadyUnaware(pending: seq<Entry>, registered: set<JsString>, done: set<JsString>,
      f: JsString)
    requires Unnamed(f, pending)
    ensures FirstReady(pending, registered + {f}, done) == FirstReady(pending, registered, done)
    ensures FirstReady(pending, registered + {f}, done + {f}) == FirstReady(pending, registered, done)
  {
    if pending != [] {
      FirstReadyUnaware(pending[1..], registered, done, f);
      assert pending[0] in pending;
      assert Ready(pending[0], registered + {f}, done) == Ready(pending[0], registered, done);
      assert Ready(pending[0], registered + {f}, done + {f}) == Ready(pending[0], registered, done);
    }
  }

  /** Once `f` has run, entries that never name it are sorted as if it had never registered. */
  lemma {:induction false} ScheduleUnaware(pending: seq<Entry>, registered: set<JsString>, done: set<JsString>,
      f: JsString)
    requires Unnamed(f, pending)
    ensures Schedule(pending, registered + {f}, done + {f}) == Schedule(pending, registered, done)
    decreases |pending|
  {
    if pending != [] {
      FirstReadyUnaware(pending, registered, done, f);
      var k := FirstReady(pending, registered, done);
      if k < |pending| {
        var g := pending[k].folder;
        assert done + {f} + {g} == done + {g} + {f};
        ScheduleUnaware(Without(pending, k), registered, done + {g}, f);
      }
    }
  }

  /** Inserting an entry in front of the first ready one makes it the first if it is ready itself. */
  lemma {:induction false} FirstReadyInserted(pending: seq<Entry>, e: Entry, p: nat, registered: set<JsString>,
      done: set<JsString>)
    requires p <= |pending|
    ensures var k := FirstReady(pending, registered, done);
            FirstReady(Inserted(pending, e, p), registered, done) ==
              if p <= k && Ready(e, registered, done) then p else if k < p then k else k + 1
  {
    if p == 0 {
      assert Inserted(pending, e, 0) == [e] + pending;
    } else {
      assert Inserted(pending, e, p)[1..] == Inserted(pending[1..], e, p - 1);
      FirstReadyInserted(pending[1..], e, p - 1, registered, done);
    }
  }

  lemma InsertedWithout(s: seq<Entry>, e: Entry, p: nat, k: nat)
    requires p <= |s| && k < |s|
    ensures var k' := if k < p then k else k + 1;
            && Inserted(s, e, p)[k'] == s[k]
            && Without(Inserted(s, e, p), k') == Inserted(Without(s, k), e, if k < p then p - 1 else p)
  {
    var k', w := if k < p then k else k + 1, Inserted(s, e, p);
    var l, r := Without(w, k'), Inserted(Without(s, k), e, if k < p then p - 1 else p);
    assert |l| == |r|;
    forall i | 0 <= i < |l| ensures l[i] == r[i] {
      assert l[i] == w[if i < k' then i else i + 1];
    }
  }

  lemma InsertedAlone(s: seq<Entry>, e: Entry, p: nat)
    requires p <= |s|
    ensures Inserted(s, e, p)[p] == e && Without(Inserted(s, e, p), p) == s
  {
  }

  /** The newcomer is first in line and ready: it runs, and the rest is sorted as before. */
  lemma ScheduleNewcomer(pending: seq<Entry>, e: Entry, p: nat, registered: set<JsString>, done: set<JsString>)
    requires p <= |pending| && Unnamed(e.folder, pending)
    requires FirstReady(Inserted(pending, e, p), registered + {e.folder}, done) == p
    ensures Schedule(Inserted(pending, e, p), registered + {e.folder}, done)
         == Prepend(e, Schedule(pending, registered, done))
  {
    InsertedAlone(pending, e, p);
    ScheduleUnaware(pending, registered, done, e.folder);
  }

  lemma PrependInserted(x: Entry, rest: seq<Entry>, e: Entry, q: nat)
    requires q <= |rest|
    ensures [x] + Inserted(rest, e, q) == Inserted([x] + rest, e, q + 1)
  {
    assert ([x] + rest)[..q + 1] == [x] + rest[..q];
    assert ([x] + rest)[q + 1..] == rest[q..];
  }

  /** With everything registered either done or pending, someone is first: the newcomer or the former first. */
  lemma FirstOfInserted(pending: seq<Entry>, e: Entry, p: nat, registered: set<JsString>, done: set<JsString>)
      returns (newcomer: bool)
    requires p <= |pending| && Unnamed(e.folder, pending) && e.folder !in e.after
    requires registered <= done + Folders(pending)
    requires Schedule(pending, registered, done).Complete?
    ensures var k := FirstReady(pending, registered, done);
            var k' := FirstReady(Inserted(pending, e, p), registered + {e.folder}, done);
            && (newcomer ==> k' == p)
            && (!newcomer ==> k < |pending| && k' == if k < p then k else k + 1)
  {
    FirstReadyInserted(pending, e, p, registered + {e.folder}, done);
    FirstReadyUnaware(pending, registered, done, e.folder);
    newcomer := p <= FirstReady(pending, registered, done) && Ready(e, registered + {e.folder}, done);
    assert pending == [] ==> Folders(pending) == {};
  }

  /** The former first still runs first; the newcomer stays among what is left. */
  lemma ScheduleOther(pending: seq<Entry>, e: Entry, p: nat, k: nat, registered: set<JsString>, done: set<JsString>)
    requires p <= |pending| && k < |pending|
    requires FirstReady(Inserted(pending, e, p), registered, done) == if k < p then k else k + 1
    ensures Schedule(Inserted(pending, e, p), registered, done)
         == Prepend(pending[k], Schedule(Inserted(Without(pending, k), e, if k < p then p - 1 else p),
                                         registered, done + {pending[k].folder}))
  {
    InsertedWithout(pending, e, p, k);
  }

  /** The induction step: insertion below the first entry is insertion one place further on. */
  lemma ScheduleInsertedStep(pending: seq<Entry>, e: Entry, p: nat, k: nat, registered: set<JsString>,
      done: set<JsString>, rest: seq<Entry>, q: nat)
    requires p <= |pending| && k < |pending| && q <= |rest|
    requires FirstReady(Inserted(pending, e, p), registered, done) == if k < p then k else k + 1
    requires Schedule(Inserted(Without(pending, k), e, if k < p then p - 1 else p), registered,
        done + {pending[k].folder})
          == Complete(Inserted(rest, e, q))
    ensures Schedule(Inserted(pending, e, p), registered, done) == Complete(Inserted([pending[k]] + rest, e, q + 1))
  {
    ScheduleOther(pending, e, p, k, registered, done);
    PrependInserted(pending[k], rest, e, q);
  }

  lemma LeftAfterFirst(pending: seq<Entry>, e: Entry, k: nat, registered: set<JsString>, done: set<JsString>,
      run: seq<Entry>)
    requires k < |pending| && k == FirstReady(pending, registered, done) && DistinctFolders(pending)
    requires Unnamed(e.folder, pending) && registered <= done + Folders(pending)
    requires Schedule(pending, registered, done) == Complete(run)
    ensures DistinctFolders(Without(pending, k)) && Unnamed(e.folder, Without(pending, k))
    ensures registered <= done + {pending[k].folder} + Folders(Without(pending, k))
    ensures run != [] && run == [pending[k]] + run[1..]
    ensures Schedule(Without(pending, k), registered, done + {pending[k].folder}) == Complete(run[1..])
  {
    WithoutFacts(pending, k);
  }

  lemma {:induction false} ScheduleInserted(pending: seq<Entry>, e: Entry, p: nat, registered: set<JsString>,
      done: set<JsString>, run: seq<Entry>) returns (q: nat)
    requires p <= |pending| && DistinctFolders(pending)
    requires Unnamed(e.folder, pending) && e.folder !in e.after
    requires registered <= done + Folders(pending)
    requires Schedule(pending, registered, done) == Complete(run)
    ensures q <= |run|
    ensures Schedule(Inserted(pending, e, p), registered + {e.folder}, done) == Complete(Inserted(run, e, q))
    decreases |pending|
  {
    var newcomer := FirstOfInserted(pending, e, p, registered, done);
    if newcomer {
      q := 0;
      ScheduleNewcomer(pending, e, p, registered, done);
      assert Inserted(run, e, 0) == [e] + run;
    } else {
      var k := FirstReady(pending, registered, done);
      LeftAfterFirst(pending, e, k, registered, done, run);
      q := ScheduleInserted(Without(pending, k), e, if k < p then p - 1 else p, registered,
          done + {pending[k].folder}, run[1..]);
      ScheduleInsertedStep(pending, e, p, k, registered + {e.folder}, done, run[1..], q);
      q := q + 1;
    }
  }

  lemma InsertedFacts(entries: seq<Entry>, e: Entry, p: nat)
    requires p <= |entries| && DistinctFolders(entries) && e.folder !in Folders(entries)
    ensures DistinctFolders(Inserted(entries, e, p))
    ensures forall x :: x in Inserted(entries, e, p) <==> x == e || x in entries
    ensures Folders(Inserted(entries, e, p)) == Folders(entries) + {e.folder}
  {
    var w := Inserted(entries, e, p);
    InsertedMembers(entries, e, p);
    forall i, j | 0 <= i < j < |w| ensures w[i].folder != w[j].folder {
      if i == p {
        assert w[j] == entries[j - 1];
      } else if j == p {
        assert w[i] == entries[i];
      } else {
        assert w[i] == entries[if i < p then i else i - 1];
        assert w[j] == entries[if j < p then j else j - 1];
      }
    }
  }

  lemma InsertedMembers(entries: seq<Entry>, e: Entry, p: nat)
    requires p <= |entries|
    ensures forall x :: x in Inserted(entries, e, p) <==> x == e || x in entries
    ensures Folders(Inserted(entries, e, p)) == Folders(entries) + {e.folder}
  {
    assert entries == entries[..p] + entries[p..];
  }

  /**
   * A new folder that nobody names in `after` can register at any position:
   * the sort still returns unless the newcomer waits on itself, and the
   * relative order of all the others is untouched.
   */
  lemma UnnamedRegistrationIsStable(entries: seq<Entry>, e: Entry, p: nat)
    requires p <= |entries| && DistinctFolders(entries)
    requires e.folder !in Folders(entries) && Unnamed(e.folder, entries)
    requires Sorting(entries).Complete?
    ensures var wider := Sorting(Inserted(entries, e, p));
            && (wider.Complete? <==> e.folder !in e.after)
            && (wider.Complete? ==>
                  exists q: nat :: q <= |Sorting(entries).run| && wider.run == Inserted(Sorting(entries).run, e, q))
  {
    InsertedFacts(entries, e, p);
    if e.folder in e.after {
      SelfDependencyDeadlocks(Inserted(entries, e, p), e);
    } else {
      var q := ScheduleInserted(entries, e, p, Folders(entries), {}, Sorting(entries).run);
      assert Sorting(Inserted(entries, e, p)) == Complete(Inserted(Sorting(entries).run, e, q));
    }
  }

  lemma SelfDependencyDeadlocks(entries: seq<Entry>, e: Entry)
    requires DistinctFolders(entries) && e in entries && e.folder in e.after
    ensures Sorting(entries).Deadlock?
  {
    ReturnsIffAcyclic(entries);
    assert Edge(entries, e.folder, e.folder);
    assert WalkBetween(entries, [e.folder, e.folder], e.folder, e.folder);
    assert OnCycle(entries, e.folder);
  }

  // ----- the code -----

  /** The depth-first search behind `cycleMembers`, with its visited set shared by the recursion. */
  class CycleSearch {
    const pending: seq<Entry>
    var seen: set<JsString>

    constructor (pending: seq<Entry>)
      ensures this.pending == pending && seen == {}
    {
      this.pending := pending;
      seen := {};
    }

    /** `byFolder.get(folder)`, as the position of the entry. */
    method Lookup(folder: JsString) returns (k: nat)
      requires DistinctFolders(pending)
      ensures k <= |pending|
      ensures k < |pending| ==> pending[k].folder == folder
      ensures k == |pending| ==> folder !in Folders(pending)
    {
      k := 0;
      while k < |pending| && pending[k].folder != folder
        invariant k <= |pending|
        invariant forall i | 0 <= i < k :: pending[i].folder != folder
      {
        k := k + 1;
      }
    }

    /** Nodes visited since `before` have been searched: their edges lead to visited nodes and miss the target. */
    ghost predicate Searched(n: JsString, target: JsString)
      reads this
    {
      forall d | Edge(pending, n, d) :: d != target && d in seen
    }

    /**
     * True when `target` can be reached from `from` by one or more edges
     * through nodes not visited before. On false, everything newly visited has
     * been searched completely.
     */
    method Reaches(from: JsString, target: JsString, ghost universe: set<JsString>) returns (found: bool)
      requires DistinctFolders(pending)
      requires from in universe && forall e, d | e in pending && d in e.after :: d in universe
      modifies this`seen
      ensures old(seen) <= seen <= old(seen) + universe
      ensures found ==> CanReach(pending, from, target)
      ensures !found ==> from in seen && forall n | n in seen - old(seen) :: Searched(n, target)
      decreases universe - seen
    {
      if from in seen { return false; }
      seen := seen + {from};
      var at := Lookup(from);
      if at == |pending| {
        return false;
      }
      var entry := pending[at];
      var i := 0;
      while i < |entry.after|
        invariant i <= |entry.after|
        invariant old(seen) + {from} <= seen <= old(seen) + universe
        invariant forall j | 0 <= j < i :: entry.after[j] != target && entry.after[j] in seen
        invariant forall n | n in seen - old(seen) - {from} :: Searched(n, target)
      {
        var folder := entry.after[i];
        assert Edge(pending, from, folder);
        if folder == target {
          assert WalkBetween(pending, [from, target], from, target);
          return true;
        }
        label before:
        found := Reaches(folder, target, universe);
        if found {
          ghost var p :| WalkBetween(pending, p, folder, target);
          ghost var q := [from] + p;
          assert forall k | 0 <= k < |p| - 1 :: Edge(pending, p[k], p[k + 1]);
          assert forall k | 1 <= k < |q| - 1 :: q[k] == p[k - 1] && q[k + 1] == p[k];
          assert WalkBetween(pending, q, from, target);
          return true;
        }
        forall n | n in seen - old(seen) - {from} ensures Searched(n, target) {
          if n in old@before(seen) { assert old@before(Searched(n, target)); }
        }
        i := i + 1;
      }
      assert Searched(from, target) by {
        forall d | Edge(pending, from, d) ensures d != target && d in seen {
          var e :| e in pending && e.folder == from && d in e.after;
          SameFolderSameEntry(pending, e, entry);
        }
      }
      return false;
    }
  }

  /** A completed false search that started with nothing visited rules the target out. */
  lemma {:induction false} SearchedFromStart(pending: seq<Entry>, seen: set<JsString>, p: seq<JsString>,
      from: JsString, target: JsString)
    requires from in seen
    requires forall n, d | n in seen && Edge(pending, n, d) :: d != target && d in seen
    ensures !WalkBetween(pending, p, from, target)
    decreases |p|
  {
    if WalkBetween(pending, p, from, target) {
      assert Edge(pending, p[0], p[1]);
      WalkTail(pending, p);
      SearchedFromStart(pending, seen, p[1..], p[1], target);
    }
  }

  method FolderOnCycle(pending: seq<Entry>, folder: JsString) returns (found: bool)
    requires DistinctFolders(pending)
    ensures found <==> OnCycle(pending, folder)
  {
    var search := new CycleSearch(pending);
    ghost var universe := {folder} + set e, d | e in pending && d in e.after :: d;
    found := search.Reaches(folder, folder, universe);
    if !found {
      forall p ensures !WalkBetween(pending, p, folder, folder) {
        assert forall n | n in search.seen :: search.Searched(n, folder);
        SearchedFromStart(pending, search.seen, p, folder, folder);
      }
    }
  }

  /** `cycleMembers`: the folders of `pending` that reach themselves, sorted. */
  method CycleMembers(pending: seq<Entry>) returns (members: seq<JsString>)
    requires DistinctFolders(pending)
    ensures StrictlySorted(members)
    ensures forall f :: f in members <==> OnCycle(pending, f)
  {
    var names: seq<JsString> := [];
    var i := 0;
    while i < |pending|
      invariant i <= |pending|
      invariant forall n | n in names :: exists j | 0 <= j < i :: pending[j].folder == n
      invariant forall n | n in names :: OnCycle(pending, n)
      invariant forall j | 0 <= j < i && OnCycle(pending, pending[j].folder) :: pending[j].folder in names
      invariant Distinct(names)
    {
      var found := FolderOnCycle(pending, pending[i].folder);
      if found {
        assert pending[i].folder !in names;
        names := names + [pending[i].folder];
      }
      i := i + 1;
    }
    members := Sort(names);
    SortDistinct(names);
    forall f | OnCycle(pending, f) ensures f in names {
      var p :| WalkBetween(pending, p, f, f);
      assert Edge(pending, p[0], p[1]);
    }
  }

  function AfterRunning(out: seq<Entry>, p: Progress): Progress {
    p.(run := out + p.run)
  }

  lemma AfterNothing(p: Progress)
    ensures AfterRunning([], p) == p
  {
    assert [] + p.run == p.run;
  }

  lemma WithoutDistinct(s: seq<Entry>, k: nat)
    requires k < |s| && DistinctFolders(s)
    ensures DistinctFolders(Without(s, k))
  {
    WithoutFacts(s, k);
  }

  lemma AfterRunningStep(out: seq<Entry>, pending: seq<Entry>, registered: set<JsString>, done: set<JsString>)
    requires pending != []
    ensures var k := FirstReady(pending, registered, done);
            AfterRunning(out, Schedule(pending, registered, done)) ==
              if k == |pending| then Deadlock(out, pending)
              else AfterRunning(out + [pending[k]], Schedule(Without(pending, k), registered, done + {pending[k].folder}))
  {
    var k := FirstReady(pending, registered, done);
    if k < |pending| {
      var rest := Schedule(Without(pending, k), registered, done + {pending[k].folder}).run;
      assert out + ([pending[k]] + rest) == out + [pending[k]] + rest;
    } else {
      assert out + [] == out;
    }
  }

  /** At a deadlock, the cycles found among the blocked entries are those of the whole registry, and there is one. */
  lemma DeadlockNamesCycles(entries: seq<Entry>, out: seq<Entry>, pending: seq<Entry>, members: seq<JsString>)
    requires DistinctFolders(entries) && Sorting(entries) == Deadlock(out, pending)
    requires forall f :: f in members <==> OnCycle(pending, f)
    ensures members != [] && forall f :: f in members <==> OnCycle(entries, f)
  {
    SortingSplits(entries);
    var f := DeadlockHasCycle(entries, out, pending);
    assert f in members;
    forall g ensures g in members <==> OnCycle(entries, g) {
      CyclesAreBlocked(entries, out, pending, g);
    }
  }

  class Registry {
    var entries: seq<Entry>

    ghost predicate Valid()
      reads this
    {
      DistinctFolders(entries)
    }

    constructor ()
      ensures Valid() && entries == []
    {
      entries := [];
    }

    /** `registerProjectDiscoverer`: the last registration of a folder wins and keeps the first one's position. */
    method Register(folder: JsString, discover: nat, after: seq<JsString>)
      requires Valid()
      modifies this
      ensures Valid()
      ensures entries == Registered(old(entries), Entry(folder, after, discover))
    {
      RegisteredDistinct(entries, Entry(folder, after, discover));
      RegisteredPositions(entries, Entry(folder, after, discover));
      var i := 0;
      while i < |entries| && entries[i].folder != folder
        invariant i <= |entries|
        invariant forall j | 0 <= j < i :: entries[j].folder != folder
      {
        i := i + 1;
      }
      ghost var r := Registered(entries, Entry(folder, after, discover));
      if i < |entries| {
        assert entries[i] in entries;
        assert r == entries[i := Entry(folder, after, discover)];
        entries := entries[i := Entry(folder, after, discover)];
      } else {
        assert r == entries + [Entry(folder, after, discover)];
        entries := entries + [Entry(folder, after, discover)];
      }
    }

    /** `pending.findIndex(...)`: the earliest entry all of whose dependencies are met, -1 when there is none. */
    method FindReady(pending: seq<Entry>, done: set<JsString>) returns (index: int)
      ensures index == if FirstReady(pending, Folders(entries), done) == |pending| then -1
                       else FirstReady(pending, Folders(entries), done)
    {
      index := 0;
      while index < |pending|
        invariant 0 <= index <= |pending|
        invariant forall i | 0 <= i < index :: !Ready(pending[i], Folders(entries), done)
      {
        if Ready(pending[index], Folders(entries), done) {
          return;
        }
        index := index + 1;
      }
      return -1;
    }

    /**
     * The run order. It is returned exactly when the dependency graph has no
     * cycle; otherwise the report names exactly the folders on a cycle of the
     * whole registry, of which there is at least one.
     */
    method GetProjectDiscoverers() returns (r: Outcome)
      requires Valid()
      ensures r.Ordered? <==> Acyclic(entries)
      ensures r.Ordered? ==> Sorting(entries) == Complete(r.run)
      ensures r.Cycle? ==> r.members != [] && StrictlySorted(r.members)
      ensures r.Cycle? ==> forall f :: f in r.members <==> OnCycle(entries, f)
    {
      ReturnsIffAcyclic(entries);
      AfterNothing(Sorting(entries));
      var pending := entries;
      var out: seq<Entry> := [];
      var done: set<JsString> := {};
      while |pending| > 0
        invariant DistinctFolders(pending)
        invariant Sorting(entries) == AfterRunning(out, Schedule(pending, Folders(entries), done))
        decreases |pending|
      {
        var index := FindReady(pending, done);
        AfterRunningStep(out, pending, Folders(entries), done);
        if index == -1 {
          var members := CycleMembers(pending);
          DeadlockNamesCycles(entries, out, pending, members);
          return Cycle(members);
        }
        var entry := pending[index];
        WithoutDistinct(pending, index);
        pending := pending[..index] + pending[index + 1..];
        done := done + {entry.folder};
        out := out + [entry];
      }
      return Ordered(out);
    }
  }
}

/** The split/aggregate depth counter behind route-scope caching and the placing of suspends. */
module SplitBalance {

  /** The operation of a pipeline step, as far as building a route looks at it. */
  datatype Operation = Split | Aggregate | Debounce | Suspend | Other(id: nat)

  function Splits(ops: seq<Operation>): nat {
    if ops == [] then 0 else (if ops[0] == Split then 1 else 0) + Splits(ops[1..])
  }

  function Aggregates(ops: seq<Operation>): nat {
    if ops == [] then 0 else (if ops[0] == Aggregate then 1 else 0) + Aggregates(ops[1..])
  }

  /** Splits minus aggregates. */
  function Excess(ops: seq<Operation>): int {
    Splits(ops) - Aggregates(ops)
  }

  /** The counter after one more step: it never goes below zero. */
  function Count(depth: nat, op: Operation): nat {
    if op == Split then depth + 1
    else if op == Aggregate && depth > 0 then depth - 1
    else depth
  }

  function Depth(ops: seq<Operation>): nat {
    if ops == [] then 0 else Count(Depth(ops[..|ops| - 1]), ops[|ops| - 1])
  }

  /** The loop of `assertRouteScopeCacheCompatibility`. */
  method CountDepth(ops: seq<Operation>) returns (depth: nat)
    ensures depth == Depth(ops)
  {
    depth := 0;
    for i := 0 to |ops|
      invariant depth == Depth(ops[..i])
    {
      assert ops[..i + 1][..i] == ops[..i];
      if ops[i] == Split {
        depth := depth + 1;
      } else if ops[i] == Aggregate && depth > 0 {
        depth := depth - 1;
      }
    }
    assert ops[..|ops|] == ops;
  }

  // ----- the counter is the largest excess of any suffix -----

  lemma {:induction false} ExcessAppend(a: seq<Operation>, b: seq<Operation>)
    ensures Splits(a + b) == Splits(a) + Splits(b)
    ensures Aggregates(a + b) == Aggregates(a) + Aggregates(b)
  {
    if a == [] {
      assert a + b == b;
    } else {
      assert (a + b)[1..] == a[1..] + b;
      ExcessAppend(a[1..], b);
    }
  }

  lemma ExcessOne(op: Operation)
    ensures Excess([op]) == if op == Split then 1 else if op == Aggregate then -1 else 0
  {
    assert [op][1..] == [];
    assert Splits([op]) == (if op == Split then 1 else 0) + Splits([]);
    assert Aggregates([op]) == (if op == Aggregate then 1 else 0) + Aggregates([]);
  }

  lemma ExcessLast(ops: seq<Operation>, i: nat)
    requires i < |ops|
    ensures Excess(ops[i..]) == Excess(ops[i..|ops| - 1]) + Excess([ops[|ops| - 1]])
  {
    assert ops[i..] == ops[i..|ops| - 1] + [ops[|ops| - 1]];
    ExcessAppend(ops[i..|ops| - 1], [ops[|ops| - 1]]);
  }

  /** The counter ends at the maximum, over all suffixes, of splits minus aggregates. */
  lemma {:induction false} DepthIsLargestSuffixExcess(ops: seq<Operation>)
    ensures forall i | 0 <= i <= |ops| :: Excess(ops[i..]) <= Depth(ops)
    ensures exists i | 0 <= i <= |ops| :: Excess(ops[i..]) == Depth(ops)
  {
    if ops == [] {
      assert Excess(ops[0..]) == 0;
    } else {
      var n := |ops| - 1;
      var front, last := ops[..n], ops[n];
      DepthIsLargestSuffixExcess(front);
      ExcessOne(last);
      forall i | 0 <= i <= n
        ensures Excess(ops[i..]) == Excess(front[i..]) + Excess([last])
      {
        ExcessLast(ops, i);
        assert front[i..] == ops[i..n];
      }
      assert ops[n + 1..] == [] && Excess(ops[n + 1..]) == 0;
      var i :| 0 <= i <= n && Excess(front[i..]) == Depth(front);
      if last == Aggregate && Depth(front) == 0 {
        assert Excess(ops[n + 1..]) == Depth(ops);
      } else {
        assert Excess(ops[i..]) == Depth(ops);
      }
    }
  }

  // ----- zero means every split has its own later aggregate -----

  /** `m` sends every split to an aggregate of its own further down the route. */
  ghost predicate Matches(ops: seq<Operation>, m: map<nat, nat>) {
    && (forall i | 0 <= i < |ops| && ops[i] == Split ::
          i in m && i < m[i] < |ops| && ops[m[i]] == Aggregate)
    && (forall i, j | 0 <= i < j < |ops| && ops[i] == Split && ops[j] == Split :: i in m && j in m && m[i] != m[j])
  }

  ghost predicate SplitsMatched(ops: seq<Operation>) {
    exists m :: Matches(ops, m)
  }

  /** `open` lists the splits still waiting; `m` matches all the others. */
  ghost predicate MatchesBut(ops: seq<Operation>, m: map<nat, nat>, open: seq<nat>) {
    && (forall i | i in open :: 0 <= i < |ops| && ops[i] == Split && i !in m)
    && (forall a, b | 0 <= a < b < |open| :: open[a] != open[b])
    && (forall i | 0 <= i < |ops| && ops[i] == Split && i !in open ::
          i in m && i < m[i] < |ops| && ops[m[i]] == Aggregate)
    && (forall i | i in m :: 0 <= i < |ops| && ops[i] == Split && i < m[i] < |ops|)
    && (forall i, j | i in m && j in m && i != j :: m[i] != m[j])
  }

  /** Closing the innermost open split at every aggregate leaves exactly `Depth` splits open. */
  lemma {:induction false} CloseInnermost(ops: seq<Operation>) returns (m: map<nat, nat>, open: seq<nat>)
    ensures MatchesBut(ops, m, open) && |open| == Depth(ops)
  {
    if ops == [] {
      m, open := map[], [];
      assert MatchesBut(ops, m, open);
    } else {
      var n := |ops| - 1;
      var m', open' := CloseInnermost(ops[..n]);
      m, open := CloseLast(ops, m', open');
    }
  }

  lemma CloseLast(ops: seq<Operation>, m: map<nat, nat>, open: seq<nat>) returns (m': map<nat, nat>, open': seq<nat>)
    requires ops != [] && MatchesBut(ops[..|ops| - 1], m, open)
    ensures MatchesBut(ops, m', open')
    ensures |open'| == Count(|open|, ops[|ops| - 1])
  {
    var n := |ops| - 1;
    var front := ops[..n];
    assert forall i | 0 <= i < n :: front[i] == ops[i];
    if ops[n] == Split {
      m', open' := m, open + [n];
      assert forall i | i in open' :: i in open || i == n;
    } else if ops[n] == Aggregate && open != [] {
      var last := |open| - 1;
      var k := open[last];
      assert k in open;
      m', open' := m[k := n], open[..last];
      assert forall i | i in open :: i in open' || i == k;
      assert forall i | i in open' :: i in open && i != k;
    } else {
      m', open' := m, open;
    }
  }

  ghost function SplitsFrom(ops: seq<Operation>, i: nat): set<nat>
    requires i <= |ops|
  {
    set k: nat | i <= k < |ops| && ops[k] == Split
  }

  ghost function AggregatesFrom(ops: seq<Operation>, i: nat): set<nat>
    requires i <= |ops|
  {
    set k: nat | i <= k < |ops| && ops[k] == Aggregate
  }

  lemma SetFrom(ops: seq<Operation>, i: nat)
    requires i < |ops|
    ensures |SplitsFrom(ops, i)| == |SplitsFrom(ops, i + 1)| + if ops[i] == Split then 1 else 0
    ensures |AggregatesFrom(ops, i)| == |AggregatesFrom(ops, i + 1)| + if ops[i] == Aggregate then 1 else 0
  {
    assert SplitsFrom(ops, i) == SplitsFrom(ops, i + 1) + if ops[i] == Split then {i} else {};
    assert AggregatesFrom(ops, i) == AggregatesFrom(ops, i + 1) + if ops[i] == Aggregate then {i} else {};
  }

  lemma {:induction false} CountFrom(ops: seq<Operation>, i: nat)
    requires i <= |ops|
    ensures |SplitsFrom(ops, i)| == Splits(ops[i..])
    ensures |AggregatesFrom(ops, i)| == Aggregates(ops[i..])
    decreases |ops| - i
  {
    if i < |ops| {
      CountFrom(ops, i + 1);
      assert ops[i..][1..] == ops[i + 1..];
      SetFrom(ops, i);
    } else {
      assert SplitsFrom(ops, i) == {} && AggregatesFrom(ops, i) == {};
    }
  }

  lemma {:induction false} InjectionSize(from: set<nat>, into: set<nat>, m: map<nat, nat>)
    requires forall i | i in from :: i in m && m[i] in into
    requires forall i, j | i in from && j in from && i != j :: m[i] != m[j]
    ensures |from| <= |into|
    decreases |from|
  {
    if from != {} {
      var i :| i in from;
      InjectionSize(from - {i}, into - {m[i]}, m);
      assert |from - {i}| == |from| - 1 && |into - {m[i]}| == |into| - 1;
    }
  }

  /** Route-scope caching passes this check exactly when every split can be matched to its own later aggregate. */
  lemma DepthZeroIffMatched(ops: seq<Operation>)
    ensures Depth(ops) == 0 <==> SplitsMatched(ops)
  {
    DepthIsLargestSuffixExcess(ops);
    if Depth(ops) == 0 {
      var m, open := CloseInnermost(ops);
      assert Matches(ops, m);
    }
    if SplitsMatched(ops) {
      var m :| Matches(ops, m);
      forall i | 0 <= i <= |ops| ensures Excess(ops[i..]) <= 0 {
        CountFrom(ops, i);
        InjectionSize(SplitsFrom(ops, i), AggregatesFrom(ops, i), m);
      }
    }
  }

  // ----- where a suspend may stand -----

  /** No suspend stands inside a fan-out: the counter is at zero wherever one does. */
  predicate Revivable(ops: seq<Operation>) {
    forall i | 0 <= i < |ops| && ops[i] == Suspend :: Depth(ops[..i]) == 0
  }

  /** A suspend may stand exactly where every split before it has met an aggregate of its own before it. */
  lemma RevivableIffMatchedBefore(ops: seq<Operation>)
    ensures Revivable(ops) <==> forall i | 0 <= i < |ops| && ops[i] == Suspend :: SplitsMatched(ops[..i])
  {
    forall i | 0 <= i < |ops| ensures Depth(ops[..i]) == 0 <==> SplitsMatched(ops[..i]) {
      DepthZeroIffMatched(ops[..i]);
    }
  }

  /** The walk of `resolveSuspendSites` over the steps of a route: where its suspends stand, or a refusal. */
  method ResolveSuspends(ops: seq<Operation>) returns (refused: bool, sites: seq<nat>)
    ensures refused <==> !Revivable(ops)
    ensures !refused ==>
              && (forall i: nat :: i in sites <==> i < |ops| && ops[i] == Suspend)
              && forall j, k | 0 <= j < k < |sites| :: sites[j] < sites[k]
  {
    var splitDepth := 0;
    sites := [];
    for i := 0 to |ops|
      invariant splitDepth == Depth(ops[..i])
      invariant forall k | 0 <= k < i && ops[k] == Suspend :: Depth(ops[..k]) == 0
      invariant forall k: nat :: k in sites <==> k < i && ops[k] == Suspend
      invariant forall j, k | 0 <= j < k < |sites| :: sites[j] < sites[k]
    {
      assert ops[..i + 1][..i] == ops[..i];
      if ops[i] == Split {
        splitDepth := splitDepth + 1;
      } else if ops[i] == Aggregate && splitDepth > 0 {
        splitDepth := splitDepth - 1;
      }
      if ops[i] == Suspend {
        if splitDepth > 0 {
          return true, sites;
        }
        assert forall j | 0 <= j < |sites| :: sites[j] in sites;
        sites := sites + [i];
      }
    }
    return false, sites;
  }
}

/**
 * JavaScript strings: sequences of 16-bit code units, compared by code unit, and
 * the sorting of an array of them by that order. Which sorting algorithm runs is
 * no matter: a sorted arrangement of distinct strings is the only one there is.
 */
module JsText {
  type CodeUnit = u: int | 0 <= u < 0x1_0000
  type JsString = seq<CodeUnit>

  /** The code units of an ASCII literal. */
  function Ascii(literal: string): (s: JsString)
    requires forall i | 0 <= i < |literal| :: literal[i] as int < 0x80
    ensures |s| == |literal| && forall i | 0 <= i < |s| :: s[i] == literal[i] as int
  {
    seq(|literal|, i requires 0 <= i < |literal| => literal[i] as int)
  }

  /** The `<` operator on strings: the first differing code unit decides, a proper prefix is smaller. */
  predicate Less(a: JsString, b: JsString) {
    if b == [] then false
    else if a == [] then true
    else if a[0] != b[0] then a[0] < b[0]
    else Less(a[1..], b[1..])
  }

  /** The first `k` code units agree, and then the smaller one decides, or `a` has come to its end. */
  predicate DecidedAt(a: JsString, b: JsString, k: nat) {
    && k <= |a| && k < |b| && a[..k] == b[..k]
    && (k == |a| || a[k] < b[k])
  }

  lemma {:induction false} LessIff(a: JsString, b: JsString)
    ensures Less(a, b) <==> exists k: nat :: DecidedAt(a, b, k)
  {
    if Less(a, b) {
      var k := Decides(a, b);
    }
    if k: nat :| DecidedAt(a, b, k) {
      DecidedIsLess(a, b, k);
    }
  }

  lemma {:induction false} Decides(a: JsString, b: JsString) returns (k: nat)
    requires Less(a, b)
    ensures DecidedAt(a, b, k)
  {
    if a == [] || a[0] != b[0] {
      k := 0;
    } else {
      k := Decides(a[1..], b[1..]);
      assert a[..k + 1] == [a[0]] + a[1..][..k] && b[..k + 1] == [b[0]] + b[1..][..k];
      k := k + 1;
    }
  }

  lemma {:induction false} DecidedIsLess(a: JsString, b: JsString, k: nat)
    requires DecidedAt(a, b, k)
    ensures Less(a, b)
    decreases k
  {
    if k > 0 {
      assert a[0] == a[..k][0] == b[..k][0] == b[0];
      assert a[1..][..k - 1] == a[..k][1..] && b[1..][..k - 1] == b[..k][1..];
      DecidedIsLess(a[1..], b[1..], k - 1);
    }
  }

  lemma {:induction false} LessIrreflexive(a: JsString)
    ensures !Less(a, a)
  {
    if a != [] {
      LessIrreflexive(a[1..]);
    }
  }

  lemma {:induction false} LessTransitive(a: JsString, b: JsString, c: JsString)
    requires Less(a, b) && Less(b, c)
    ensures Less(a, c)
  {
    if a != [] && a[0] == b[0] && b[0] == c[0] {
      LessTransitive(a[1..], b[1..], c[1..]);
    }
  }

  lemma {:induction false} LessTotal(a: JsString, b: JsString)
    ensures a == b || Less(a, b) || Less(b, a)
  {
    if a != [] && b != [] && a[0] == b[0] {
      LessTotal(a[1..], b[1..]);
      assert a == [a[0]] + a[1..] && b == [b[0]] + b[1..];
    }
  }

  ghost predicate Sorted(names: seq<JsString>) {
    forall i, j | 0 <= i < j < |names| :: !Less(names[j], names[i])
  }

  ghost predicate StrictlySorted(names: seq<JsString>) {
    forall i, j | 0 <= i < j < |names| :: Less(names[i], names[j])
  }

  ghost predicate Distinct<T>(s: seq<T>) {
    forall i, j | 0 <= i < j < |s| :: s[i] != s[j]
  }

  function Insert(name: JsString, names: seq<JsString>): (r: seq<JsString>)
    requires Sorted(names)
    ensures Sorted(r)
    ensures multiset(r) == multiset(names) + multiset{name}
  {
    if names == [] then [name]
    else if !Less(names[0], name) then
      InsertFront(name, names);
      [name] + names
    else
      var rest := Insert(name, names[1..]);
      InsertLater(name, names, rest);
      [names[0]] + rest
  }

  lemma InsertFront(name: JsString, names: seq<JsString>)
    requires Sorted(names) && names != [] && !Less(names[0], name)
    ensures Sorted([name] + names)
    ensures multiset([name] + names) == multiset(names) + multiset{name}
  {
    var r := [name] + names;
    forall i, j | 0 <= i < j < |r| ensures !Less(r[j], r[i]) {
      if i == 0 && j > 1 && Less(names[j - 1], name) {
        LessTotal(names[0], name);
        if names[0] != name {
          LessTransitive(names[j - 1], name, names[0]);
        }
      }
    }
  }

  lemma InsertLater(name: JsString, names: seq<JsString>, rest: seq<JsString>)
    requires Sorted(names) && names != [] && Less(names[0], name)
    requires Sorted(rest) && multiset(rest) == multiset(names[1..]) + multiset{name}
    ensures Sorted([names[0]] + rest)
    ensures multiset([names[0]] + rest) == multiset(names) + multiset{name}
  {
    assert names == [names[0]] + names[1..];
    var r := [names[0]] + rest;
    forall i, j | 0 <= i < j < |r| ensures !Less(r[j], r[i]) {
      if i == 0 {
        assert r[j] in multiset(rest);
        assert r[j] in names[1..] || r[j] == name;
        if r[j] == name {
          if Less(name, names[0]) {
            LessTransitive(names[0], name, names[0]);
            LessIrreflexive(names[0]);
          }
        } else {
          var k :| 0 <= k < |names[1..]| && names[1..][k] == r[j];
          assert names[k + 1] == r[j];
        }
      }
    }
  }

  /** `Array.prototype.sort` on strings: ascending by code unit, nothing lost or added. */
  function Sort(names: seq<JsString>): (r: seq<JsString>)
    ensures Sorted(r)
    ensures multiset(r) == multiset(names)
    ensures |r| == |names|
    ensures forall n :: n in r <==> n in names
  {
    if names == [] then []
    else
      var r := Insert(names[0], Sort(names[1..]));
      assert names == [names[0]] + names[1..];
      assert multiset(r) == multiset(names);
      assert |multiset(r)| == |r| && |multiset(names)| == |names|;
      assert forall n :: n in r <==> n in multiset(r);
      assert forall n :: n in names <==> n in multiset(names);
      r
  }

  /** Sorting distinct names leaves no ties. */
  lemma SortDistinct(names: seq<JsString>)
    requires Distinct(names)
    ensures StrictlySorted(Sort(names))
  {
    var r := Sort(names);
    MultisetDistinct(names, r);
    forall i, j | 0 <= i < j < |r| ensures Less(r[i], r[j]) {
      LessTotal(r[i], r[j]);
    }
  }

  lemma {:induction false} DistinctMultiplicity<T>(s: seq<T>, x: T)
    requires Distinct(s)
    ensures multiset(s)[x] <= 1
  {
    if s != [] {
      assert s == [s[0]] + s[1..];
      assert forall i, j | 0 <= i < j < |s[1..]| :: s[1..][i] == s[i + 1] && s[1..][j] == s[j + 1];
      DistinctMultiplicity(s[1..], x);
      forall k | 0 <= k < |s[1..]| ensures s[1..][k] != s[0] {
        assert s[1..][k] == s[k + 1];
      }
    }
  }

  lemma RepeatCounted<T>(r: seq<T>, i: nat, j: nat)
    requires i < j < |r| && r[i] == r[j]
    ensures multiset(r)[r[i]] >= 2
  {
    assert r == r[..j] + [r[j]] + r[j + 1..];
    assert r[..j][i] == r[i];
    assert multiset(r[..j])[r[i]] >= 1;
  }

  /** A rearrangement of a sequence without repeats has no repeats. */
  lemma MultisetDistinct<T>(s: seq<T>, r: seq<T>)
    requires Distinct(s) && multiset(s) == multiset(r)
    ensures Distinct(r)
  {
    forall i, j | 0 <= i < j < |r| ensures r[i] != r[j] {
      if r[i] == r[j] {
        RepeatCounted(r, i, j);
        DistinctMultiplicity(s, r[i]);
      }
    }
  }

  /** Two strictly sorted listings of the same names are the same listing. */
  lemma {:induction false} SortedUnique(a: seq<JsString>, b: seq<JsString>)
    requires StrictlySorted(a) && StrictlySorted(b)
    requires forall n :: n in a <==> n in b
    ensures a == b
  {
    assert a != [] ==> a[0] in a;
    assert b != [] ==> b[0] in b;
    if a != [] && b != [] {
      SameHead(a, b);
      TailMembers(a, b);
      TailMembers(b, a);
      forall i, j | 0 <= i < j < |a[1..]| ensures Less(a[1..][i], a[1..][j]) { assert Less(a[i + 1], a[j + 1]); }
      forall i, j | 0 <= i < j < |b[1..]| ensures Less(b[1..][i], b[1..][j]) { assert Less(b[i + 1], b[j + 1]); }
      SortedUnique(a[1..], b[1..]);
      assert a == [a[0]] + a[1..] && b == [b[0]] + b[1..];
    }
  }

  lemma SameHead(a: seq<JsString>, b: seq<JsString>)
    requires StrictlySorted(a) && StrictlySorted(b) && a != [] && b != []
    requires forall n :: n in a <==> n in b
    ensures a[0] == b[0]
  {
    assert a[0] in b && b[0] in a;
    var i :| 0 <= i < |b| && b[i] == a[0];
    var j :| 0 <= j < |a| && a[j] == b[0];
    if a[0] != b[0] {
      assert Less(b[0], b[i]) && Less(a[0], a[j]);
      LessTransitive(a[0], b[0], a[0]);
      LessIrreflexive(a[0]);
    }
  }

  lemma TailMembers(a: seq<JsString>, b: seq<JsString>)
    requires StrictlySorted(a) && a != [] && b != [] && a[0] == b[0]
    requires forall n :: n in a <==> n in b
    ensures forall n :: n in a[1..] ==> n in b[1..]
  {
    forall n | n in a[1..] ensures n in b[1..] {
      var i :| 0 <= i < |a[1..]| && a[1..][i] == n;
      assert Less(a[0], a[i + 1]);
      LessIrreflexive(a[0]);
      assert n in a;
      var k :| 0 <= k < |b| && b[k] == n;
      assert b[1..][k - 1] == n;
    }
  }
}

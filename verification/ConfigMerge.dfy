/** Merging a discoverer's configuration fragment into the configuration so far. */
module ConfigMerge {
  import opened JsText

  datatype Key = Name(name: JsString) | Symbol(id: nat)

  datatype Proto = ObjectProto | NullProto | OtherProto

  /** A configuration value; `Atom` stands for everything that is neither an array nor an object. */
  datatype Value =
    | Undefined
    | Atom(id: nat)
    | List(items: seq<Value>)
    | Object(proto: Proto, fields: map<Key, Value>)

  const PROTO_KEY: Key := Name(Ascii("__proto__"))

  /** `Object.prototype` as the merge sees it: a null-prototype object with nothing enumerable. */
  const OBJECT_PROTOTYPE: Value := Object(NullProto, map[])

  /** `isMergeableRecord`: an object literal or a null-prototype record without symbol keys. */
  predicate IsMergeableRecord(v: Value) {
    && v.Object?
    && v.proto != OtherProto
    && forall k | k in v.fields :: k.Name?
  }

  /**
   * Reading `target[key]`. An own key wins; the inherited `__proto__` getter
   * answers `Object.prototype`. Other inherited names answer functions, which
   * the merge treats exactly like a missing value.
   */
  function Lookup(v: Value, k: Key): Value
    requires v.Object?
  {
    if k in v.fields then v.fields[k]
    else if k == PROTO_KEY then OBJECT_PROTOTYPE
    else Undefined
  }

  /** The value `v` gives for `k` as a fragment: its own one, or nothing. */
  function Given(v: Value, k: Key): Value
    requires v.Object?
  {
    if k in v.fields then v.fields[k] else Undefined
  }

  function Merge(base: Value, fragment: Value): (r: Value)
    requires base.Object? && fragment.Object?
    ensures r.Object? && r.proto == ObjectProto
    decreases fragment, 0
  {
    Object(ObjectProto,
           map k | k in base.fields.Keys + fragment.fields.Keys && (k in base.fields || fragment.fields[k] != Undefined) ::
             if k in fragment.fields && fragment.fields[k] != Undefined
             then Combine(Lookup(base, k), fragment.fields[k])
             else base.fields[k])
  }

  /** What a fragment's value makes of the current one. */
  function Combine(current: Value, value: Value): Value
    decreases value, 1
  {
    if IsMergeableRecord(current) && IsMergeableRecord(value) then Merge(current, value)
    else if current.List? && value.List? then List(current.items + value.items)
    else value
  }

  // ----- one key at a time -----

  lemma MergeAt(base: Value, fragment: Value, k: Key)
    requires base.Object? && fragment.Object?
    ensures k in Merge(base, fragment).fields <==> k in base.fields || Given(fragment, k) != Undefined
    ensures Given(Merge(base, fragment), k) ==
              if Given(fragment, k) != Undefined then Combine(Lookup(base, k), Given(fragment, k)) else Given(base, k)
  {
  }

  /** An object literal or a null-prototype record, named keys only. */
  ghost predicate Plain(v: Value) {
    && v.Object? && (v.proto == ObjectProto || v.proto == NullProto)
    && forall k | k in v.fields :: exists s :: k == Name(s)
  }

  /** The fragment gives a value for `k`, and so does the base. */
  predicate BothGive(base: Value, fragment: Value, k: Key) {
    base.Object? && fragment.Object? && k in base.fields && k in fragment.fields && fragment.fields[k] != Undefined
  }

  /** The rules of the merge, key by key. */
  lemma MergeRules(base: Value, fragment: Value, k: Key)
    requires base.Object? && fragment.Object?
    ensures k !in fragment.fields || fragment.fields[k] == Undefined ==>
              (k in Merge(base, fragment).fields <==> k in base.fields)
              && (k in base.fields ==> Merge(base, fragment).fields[k] == base.fields[k])
    ensures k !in base.fields && k != PROTO_KEY && k in fragment.fields && fragment.fields[k] != Undefined ==>
              k in Merge(base, fragment).fields && Merge(base, fragment).fields[k] == fragment.fields[k]
    ensures BothGive(base, fragment, k) ==> k in Merge(base, fragment).fields
    ensures BothGive(base, fragment, k) && Plain(base.fields[k]) && Plain(fragment.fields[k]) ==>
              Merge(base, fragment).fields[k] == Merge(base.fields[k], fragment.fields[k])
    ensures BothGive(base, fragment, k) && base.fields[k].List? && fragment.fields[k].List? ==>
              Merge(base, fragment).fields[k] == List(base.fields[k].items + fragment.fields[k].items)
    ensures BothGive(base, fragment, k) && !(Plain(base.fields[k]) && Plain(fragment.fields[k]))
            && !(base.fields[k].List? && fragment.fields[k].List?) ==>
              Merge(base, fragment).fields[k] == fragment.fields[k]
  {
    if k in base.fields { PlainIsMergeable(base.fields[k]); }
    if k in fragment.fields { PlainIsMergeable(fragment.fields[k]); }
  }

  lemma PlainIsMergeable(v: Value)
    ensures Plain(v) <==> IsMergeableRecord(v)
  {
    if v.Object? {
      forall k | k in v.fields ensures k.Name? <==> exists s :: k == Name(s) {
        if k.Name? { assert k == Name(k.name); }
      }
    }
  }

  /** `path` leads from `v` through plain records to `leaf`. */
  ghost predicate Leads(v: Value, path: seq<Key>, leaf: Value)
    decreases |path|
  {
    if path == [] then v == leaf
    else
      && v.Object? && path[0] in v.fields && (|path| > 1 ==> Plain(v.fields[path[0]]))
      && Leads(v.fields[path[0]], path[1..], leaf)
  }

  /** `v` says nothing about `path`: it leaves out some key on it, with only plain records above. */
  ghost predicate Silent(v: Value, path: seq<Key>)
    decreases |path|
  {
    && path != [] && v.Object?
    && (path[0] !in v.fields || v.fields[path[0]] == Undefined
        || (|path| > 1 && Plain(v.fields[path[0]]) && Silent(v.fields[path[0]], path[1..])))
  }

  /** What the fragment says nothing about stays as it was, at any depth. */
  lemma {:induction false} SilentKeeps(base: Value, fragment: Value, path: seq<Key>, leaf: Value)
    requires base.Object? && fragment.Object? && Leads(base, path, leaf) && Silent(fragment, path)
    ensures Leads(Merge(base, fragment), path, leaf)
    decreases |path|
  {
    var k := path[0];
    MergeRules(base, fragment, k);
    if k in fragment.fields && fragment.fields[k] != Undefined {
      SilentKeeps(base.fields[k], fragment.fields[k], path[1..], leaf);
      MergedIsPlain(base.fields[k], fragment.fields[k]);
    }
  }

  lemma MergedIsPlain(x: Value, y: Value)
    requires Plain(x) && Plain(y)
    ensures Plain(Merge(x, y))
  {
    PlainIsMergeable(x);
    PlainIsMergeable(y);
    MergeKeepsMergeable(x, y);
    PlainIsMergeable(Merge(x, y));
  }

  /** A scalar the fragment gives, at any depth, is in force afterwards, whatever stood there. */
  lemma {:induction false} GivenPrevails(base: Value, fragment: Value, path: seq<Key>, leaf: Value)
    requires base.Object? && fragment.Object? && path != [] && Leads(fragment, path, leaf) && leaf.Atom?
    ensures Leads(Merge(base, fragment), path, leaf)
    decreases |path|
  {
    var k := path[0];
    PlainIsMergeable(fragment.fields[k]);
    PlainIsMergeable(Lookup(base, k));
    MergeAt(base, fragment, k);
    if |path| > 1 && Plain(Lookup(base, k)) {
      GivenPrevails(Lookup(base, k), fragment.fields[k], path[1..], leaf);
      MergedIsPlain(Lookup(base, k), fragment.fields[k]);
    }
  }

  // ----- when a value is absorbed -----

  /** Merging `z` onto `x` adds nothing to `z`, read off the two values. */
  ghost predicate Absorbed(x: Value, z: Value)
    requires x.Object? && z.Object?
    decreases z, 0
  {
    && z.proto == ObjectProto
    && x.fields.Keys <= z.fields.Keys
    && forall k | k in z.fields ::
         if z.fields[k] == Undefined then k in x.fields && x.fields[k] == Undefined
         else AbsorbedValue(Lookup(x, k), z.fields[k])
  }

  ghost predicate AbsorbedValue(x: Value, z: Value)
    decreases z, 1
  {
    if IsMergeableRecord(x) && IsMergeableRecord(z) then Absorbed(x, z)
    else if x.List? && z.List? then x.items == []
    else true
  }

  lemma {:induction false} AbsorbedIff(x: Value, z: Value)
    requires x.Object? && z.Object?
    ensures Merge(x, z) == z <==> Absorbed(x, z)
    decreases z, 0
  {
    forall k | k in z.fields && z.fields[k] != Undefined
      ensures Combine(Lookup(x, k), z.fields[k]) == z.fields[k] <==> AbsorbedValue(Lookup(x, k), z.fields[k])
    {
      AbsorbedValueIff(Lookup(x, k), z.fields[k]);
    }
    forall k ensures k in Merge(x, z).fields <==> k in x.fields || Given(z, k) != Undefined
             ensures Given(Merge(x, z), k) ==
                       if Given(z, k) != Undefined then Combine(Lookup(x, k), Given(z, k)) else Given(x, k)
    {
      MergeAt(x, z, k);
    }
    if Merge(x, z) == z {
      forall k | k in x.fields ensures k in z.fields {
        assert k in Merge(x, z).fields;
      }
    }
  }

  lemma {:induction false} AbsorbedValueIff(x: Value, z: Value)
    ensures Combine(x, z) == z <==> AbsorbedValue(x, z)
    decreases z, 1
  {
    if IsMergeableRecord(x) && IsMergeableRecord(z) {
      AbsorbedIff(x, z);
    } else if x.List? && z.List? {
      assert |x.items + z.items| == |x.items| + |z.items|;
      assert x.items == [] ==> x.items + z.items == z.items;
    }
  }

  // ----- associativity -----

  /**
   * Nothing in `a`, `b` and `c` clashes: wherever `b` puts something of another
   * kind between two records or two arrays, what `a` had there would be
   * absorbed by `c` anyway.
   */
  ghost predicate Harmless(a: Value, b: Value, c: Value)
    requires a.Object? && b.Object? && c.Object?
    decreases c, 1
  {
    forall k | k in c.fields && c.fields[k] != Undefined :: HarmlessAt(a, b, c, k)
  }

  ghost predicate HarmlessAt(a: Value, b: Value, c: Value, k: Key)
    requires a.Object? && b.Object? && c.Object? && k in c.fields
    decreases c, 0
  {
    if Given(b, k) != Undefined then HarmlessValues(Lookup(a, k), b.fields[k], c.fields[k])
    else if k in b.fields then true
    else HarmlessGetter(a, c, k)
  }

  /** Only an own key `__proto__` that `b` lacks: merging `b` and `c` first meets the inherited getter. */
  ghost predicate HarmlessGetter(a: Value, c: Value, k: Key)
    requires a.Object? && c.Object? && k in c.fields
    decreases c, 0, 0
  {
    k == PROTO_KEY && IsMergeableRecord(c.fields[k]) ==>
      if IsMergeableRecord(Lookup(a, k)) then Harmless(Lookup(a, k), OBJECT_PROTOTYPE, c.fields[k])
      else Absorbed(OBJECT_PROTOTYPE, c.fields[k])
  }

  ghost predicate HarmlessValues(x: Value, y: Value, z: Value)
    decreases z, 2
  {
    if IsMergeableRecord(x) && IsMergeableRecord(z) then
      if IsMergeableRecord(y) then Harmless(x, y, z) else Absorbed(x, z)
    else x.List? && z.List? && !y.List? ==> x.items == []
  }

  lemma {:induction false} CombineAssociativeIff(x: Value, y: Value, z: Value)
    requires y != Undefined && z != Undefined
    ensures Combine(x, Combine(y, z)) == Combine(Combine(x, y), z) <==> HarmlessValues(x, y, z)
    decreases z, 2
  {
    if IsMergeableRecord(x) && IsMergeableRecord(z) {
      if IsMergeableRecord(y) {
        MergeKeepsMergeable(y, z);
        MergeKeepsMergeable(x, y);
        MergeAssociativeIff(x, y, z);
      } else {
        AbsorbedIff(x, z);
      }
    } else if x.List? && z.List? {
      if y.List? {
        assert x.items + (y.items + z.items) == x.items + y.items + z.items;
      } else {
        AbsorbedValueIff(x, z);
      }
    } else if IsMergeableRecord(z) && IsMergeableRecord(y) {
      MergeKeepsMergeable(y, z);
    }
  }

  lemma MergeKeepsMergeable(x: Value, y: Value)
    requires IsMergeableRecord(x) && IsMergeableRecord(y)
    ensures IsMergeableRecord(Merge(x, y))
  {
  }

  /** The prototype of the base never matters. */
  lemma BasePrototypeIrrelevant(x: Value, z: Value)
    requires x.Object? && z.Object?
    ensures Merge(Merge(x, OBJECT_PROTOTYPE), z) == Merge(x, z)
  {
    var y := Merge(x, OBJECT_PROTOTYPE);
    assert y.fields == x.fields;
    forall k ensures Lookup(y, k) == Lookup(x, k) { MergeAt(x, OBJECT_PROTOTYPE, k); }
    forall k ensures (k in Merge(y, z).fields <==> k in Merge(x, z).fields)
             ensures Given(Merge(y, z), k) == Given(Merge(x, z), k)
    {
      MergeAt(y, z, k);
      MergeAt(x, z, k);
    }
  }

  lemma {:induction false} AssociativeAt(a: Value, b: Value, c: Value, k: Key)
    requires a.Object? && b.Object? && c.Object?
    ensures Given(Merge(a, Merge(b, c)), k) == Given(Merge(Merge(a, b), c), k)
      <==> (Given(c, k) != Undefined ==> HarmlessAt(a, b, c, k))
    decreases c, 0
  {
    MergeAt(a, Merge(b, c), k);
    MergeAt(b, c, k);
    MergeAt(Merge(a, b), c, k);
    MergeAt(a, b, k);
    var z := Given(c, k);
    if z != Undefined {
      if Given(b, k) != Undefined {
        CombineAssociativeIff(Lookup(a, k), Given(b, k), z);
      } else if k !in b.fields {
        assert Lookup(Merge(a, b), k) == Lookup(a, k);
        GetterAssociativeIff(a, c, k);
      }
    }
  }

  lemma {:induction false} GetterAssociativeIff(a: Value, c: Value, k: Key)
    requires a.Object? && c.Object? && k in c.fields && c.fields[k] != Undefined
    ensures Combine(Lookup(a, k), Combine(Lookup(Object(ObjectProto, map[]), k), c.fields[k]))
            == Combine(Lookup(a, k), c.fields[k])
      <==> HarmlessGetter(a, c, k)
    decreases c, 0, 0
  {
    var x, z := Lookup(a, k), c.fields[k];
    if k == PROTO_KEY && IsMergeableRecord(z) {
      MergeKeepsMergeable(OBJECT_PROTOTYPE, z);
      if IsMergeableRecord(x) {
        MergeAssociativeIff(x, OBJECT_PROTOTYPE, z);
        BasePrototypeIrrelevant(x, z);
      } else {
        AbsorbedIff(OBJECT_PROTOTYPE, z);
      }
    }
  }

  /** Merging is associative exactly on the triples without a clash. */
  lemma {:induction false} MergeAssociativeIff(a: Value, b: Value, c: Value)
    requires a.Object? && b.Object? && c.Object?
    ensures Merge(a, Merge(b, c)) == Merge(Merge(a, b), c) <==> Harmless(a, b, c)
    decreases c, 1
  {
    var l, r := Merge(a, Merge(b, c)), Merge(Merge(a, b), c);
    forall k ensures k in l.fields <==> k in r.fields
             ensures Given(l, k) == Given(r, k) <==> (Given(c, k) != Undefined ==> HarmlessAt(a, b, c, k))
    {
      MergeAt(a, Merge(b, c), k);
      MergeAt(b, c, k);
      MergeAt(Merge(a, b), c, k);
      MergeAt(a, b, k);
      AssociativeAt(a, b, c, k);
    }
    if Harmless(a, b, c) {
      forall k ensures Given(l, k) == Given(r, k) {}
    }
  }

  /**
   * The hypothesis is needed: a scalar between two records at one key makes
   * the grouping visible.
   */
  lemma ClashBreaksAssociativity(key: Key, inner: Key)
    requires key.Name? && inner.Name?
    ensures var record := Object(ObjectProto, map[inner := Atom(0)]);
            var a := Object(ObjectProto, map[key := record]);
            var b := Object(ObjectProto, map[key := Atom(1)]);
            var c := Object(ObjectProto, map[key := Object(ObjectProto, map[])]);
            Merge(a, Merge(b, c)) != Merge(Merge(a, b), c)
  {
    var record := Object(ObjectProto, map[inner := Atom(0)]);
    var a := Object(ObjectProto, map[key := record]);
    var b := Object(ObjectProto, map[key := Atom(1)]);
    var c := Object(ObjectProto, map[key := Object(ObjectProto, map[])]);
    assert inner in record.fields && inner !in c.fields[key].fields;
    assert !Absorbed(record, c.fields[key]);
    assert !HarmlessAt(a, b, c, key);
    MergeAssociativeIff(a, b, c);
  }

  // ----- shape-compatible configurations -----

  type Record = v: Value | v.Object? witness Object(ObjectProto, map[])

  /** At every key both own, the two give values of the same shape, or one of them gives nothing. */
  ghost predicate Compatible(a: Record, b: Record)
    decreases b, 0
  {
    forall k | k in a.fields && k in b.fields ::
      && CompatibleValues(a.fields[k], b.fields[k])
      && (k == PROTO_KEY ==> a.fields[k] != Undefined && b.fields[k] != Undefined)
  }

  ghost predicate CompatibleValues(x: Value, y: Value)
    decreases y, 1
  {
    || x == Undefined || y == Undefined
    || (IsMergeableRecord(x) && IsMergeableRecord(y) && Compatible(x, y))
    || (x.List? && y.List?)
    || (!IsMergeableRecord(x) && !x.List? && !IsMergeableRecord(y) && !y.List?)
  }

  lemma {:induction false} CompatibleHarmless(a: Record, b: Record, c: Record)
    requires Compatible(a, b) && Compatible(b, c) && Compatible(a, c)
    ensures Harmless(a, b, c)
    decreases c
  {
    forall k | k in c.fields && c.fields[k] != Undefined ensures HarmlessAt(a, b, c, k) {
      var x, z := Lookup(a, k), c.fields[k];
      if IsMergeableRecord(x) && IsMergeableRecord(z) {
        if Given(b, k) != Undefined {
          CompatibleHarmless(x, b.fields[k], z);
        } else if k !in b.fields && k == PROTO_KEY {
          CompatibleHarmless(x, OBJECT_PROTOTYPE, z);
        }
      }
    }
  }

  /** Pairwise shape-compatible configurations merge associatively. */
  lemma CompatibleMergeAssociative(a: Record, b: Record, c: Record)
    requires Compatible(a, b) && Compatible(b, c) && Compatible(a, c)
    ensures Merge(a, Merge(b, c)) == Merge(Merge(a, b), c)
  {
    CompatibleHarmless(a, b, c);
    MergeAssociativeIff(a, b, c);
  }

  lemma {:induction false} CompatibleWithMerge(a: Record, b: Record, c: Record)
    requires Compatible(a, b) && Compatible(a, c)
    ensures Compatible(a, Merge(b, c))
    decreases c
  {
    var m := Merge(b, c);
    forall k | k in a.fields && k in m.fields
      ensures CompatibleValues(a.fields[k], m.fields[k])
      ensures k == PROTO_KEY ==> a.fields[k] != Undefined && m.fields[k] != Undefined
    {
      MergeAt(b, c, k);
      if Given(c, k) != Undefined {
        var y, z := Lookup(b, k), c.fields[k];
        if IsMergeableRecord(a.fields[k]) && IsMergeableRecord(z) && IsMergeableRecord(y) {
          CompatibleWithMerge(a.fields[k], y, z);
          MergeKeepsMergeable(y, z);
        }
      }
    }
  }

  lemma {:induction false} MergeCompatibleWith(a: Record, b: Record, c: Record)
    requires Compatible(a, c) && Compatible(b, c)
    ensures Compatible(Merge(a, b), c)
    decreases c
  {
    var m := Merge(a, b);
    forall k | k in m.fields && k in c.fields
      ensures CompatibleValues(m.fields[k], c.fields[k])
      ensures k == PROTO_KEY ==> m.fields[k] != Undefined && c.fields[k] != Undefined
    {
      MergeAt(a, b, k);
      if Given(b, k) != Undefined {
        var x, y := Lookup(a, k), b.fields[k];
        if IsMergeableRecord(x) && IsMergeableRecord(y) && IsMergeableRecord(c.fields[k]) {
          MergeCompatibleWith(x, y, c.fields[k]);
          MergeKeepsMergeable(x, y);
        }
      }
    }
  }

  // ----- threading fragments through discovery -----

  function Threaded(base: Record, fragments: seq<Record>): Record
    decreases |fragments|
  {
    if fragments == [] then base else Threaded(Merge(base, fragments[0]), fragments[1..])
  }

  ghost predicate PairwiseCompatible(configs: seq<Record>) {
    forall i, j | 0 <= i < j < |configs| :: Compatible(configs[i], configs[j])
  }

  lemma PairwiseMergeFirst(configs: seq<Record>)
    requires |configs| >= 2 && PairwiseCompatible(configs)
    ensures PairwiseCompatible([Merge(configs[0], configs[1])] + configs[2..])
  {
    var r := [Merge(configs[0], configs[1])] + configs[2..];
    forall i, j | 0 <= i < j < |r| ensures Compatible(r[i], r[j]) {
      assert r[j] == configs[j + 1];
      if i == 0 {
        MergeCompatibleWith(configs[0], configs[1], configs[j + 1]);
      } else {
        assert r[i] == configs[i + 1];
      }
    }
  }

  lemma {:induction false} CompatibleWithThreaded(x: Record, fragments: seq<Record>)
    requires fragments != [] && PairwiseCompatible(fragments)
    requires forall f | f in fragments :: Compatible(x, f)
    ensures Compatible(x, Threaded(fragments[0], fragments[1..]))
    decreases |fragments|
  {
    if |fragments| > 1 {
      var next := [Merge(fragments[0], fragments[1])] + fragments[2..];
      PairwiseMergeFirst(fragments);
      CompatibleWithMerge(x, fragments[0], fragments[1]);
      assert next[1..] == fragments[1..][1..];
      CompatibleWithThreaded(x, next);
    }
  }

  /**
   * Threading the fragments through the configuration one by one equals merging
   * the fragments among themselves first and applying the result once.
   */
  lemma {:induction false} ThreadingIsMergingFirst(base: Record, fragments: seq<Record>)
    requires fragments != [] && PairwiseCompatible([base] + fragments)
    ensures Threaded(base, fragments) == Merge(base, Threaded(fragments[0], fragments[1..]))
    decreases |fragments|
  {
    var all := [base] + fragments;
    if |fragments| > 1 {
      var f, tail := fragments[0], fragments[1..];
      forall i, j | 0 <= i < j < |fragments| ensures Compatible(fragments[i], fragments[j]) {
        assert all[i + 1] == fragments[i] && all[j + 1] == fragments[j];
      }
      forall i | 0 <= i < |tail| ensures Compatible(base, tail[i]) && Compatible(f, tail[i]) {
        assert all[i + 2] == tail[i] && all[1] == f && all[0] == base;
        assert Compatible(all[0], all[i + 2]) && Compatible(all[1], all[i + 2]);
      }
      assert Compatible(all[0], all[1]);
      PairwiseMergeFirst(all);
      assert [Merge(all[0], all[1])] + all[2..] == [Merge(base, f)] + tail;
      ThreadingIsMergingFirst(Merge(base, f), tail);
      assert PairwiseCompatible([f] + tail) by { assert [f] + tail == fragments; }
      ThreadingIsMergingFirst(f, tail);
      assert PairwiseCompatible(tail);
      CompatibleWithThreaded(base, tail);
      CompatibleWithThreaded(f, tail);
      CompatibleMergeAssociative(base, f, Threaded(tail[0], tail[1..]));
    }
  }

  /** Nothing the project declared disappears, however many fragments follow. */
  lemma {:induction false} NoBaseKeyLost(base: Record, fragments: seq<Record>)
    ensures base.fields.Keys <= Threaded(base, fragments).fields.Keys
    decreases |fragments|
  {
    if fragments != [] {
      forall k | k in base.fields ensures k in Merge(base, fragments[0]).fields { MergeAt(base, fragments[0], k); }
      NoBaseKeyLost(Merge(base, fragments[0]), fragments[1..]);
    }
  }

  /** An array the project declared is a prefix of the result while fragments give arrays or nothing there. */
  lemma {:induction false} BaseArrayIsPrefix(base: Record, fragments: seq<Record>, k: Key)
    requires Given(base, k).List?
    requires forall f | f in fragments :: Given(f, k) == Undefined || Given(f, k).List?
    ensures Given(Threaded(base, fragments), k).List?
    ensures Given(base, k).items <= Given(Threaded(base, fragments), k).items
    decreases |fragments|
  {
    if fragments != [] {
      assert fragments[0] in fragments;
      MergeAt(base, fragments[0], k);
      BaseArrayIsPrefix(Merge(base, fragments[0]), fragments[1..], k);
    }
  }

  // ----- the code -----

  /** `mergeRecords`: the keys of the fragment are written over a copy of the base, in any order. */
  method MergeRecords(base: Record, fragment: Record) returns (out: Record)
    ensures out == Merge(base, fragment)
    decreases fragment
  {
    var target := base.fields;
    var keys := fragment.fields.Keys;
    while keys != {}
      invariant keys <= fragment.fields.Keys
      invariant forall k :: k in target <==> k in base.fields || (k !in keys && Given(fragment, k) != Undefined)
      invariant forall k | k in target ::
                  target[k] == if k !in keys && Given(fragment, k) != Undefined
                               then Combine(Lookup(base, k), Given(fragment, k)) else base.fields[k]
      decreases keys
    {
      var key :| key in keys;
      keys := keys - {key};
      var value := fragment.fields[key];
      if value == Undefined {
        continue;
      }
      var current := Lookup(Object(ObjectProto, target), key);
      if IsMergeableRecord(current) && IsMergeableRecord(value) {
        var merged := MergeRecords(current, value);
        target := target[key := merged];
      } else if current.List? && value.List? {
        target := target[key := List(current.items + value.items)];
      } else {
        target := target[key := value];
      }
    }
    out := Object(ObjectProto, target);
    assert target == Merge(base, fragment).fields;
  }

  /** A registered discoverer: its folder, and what it answers to the configuration so far and the declared one. */
  datatype Discovery = Discovery(folder: JsString, discover: (Record, Record) -> Record)

  /** The folders somebody has to know how to load. */
  const DISCOVERED_FOLDERS: seq<JsString> := [Ascii("skills"), Ascii("agents")]

  datatype Outcome = Applied(config: Record) | Unclaimed(folder: JsString)

  /** The fragments actually contributed, each computed from the configuration accumulated before it. */
  ghost function Contributions(
      config: Record, declared: Record, discoveries: seq<Discovery>, present: set<JsString>): seq<Record>
    decreases |discoveries|
  {
    if discoveries == [] then []
    else if discoveries[0].folder !in present then Contributions(config, declared, discoveries[1..], present)
    else
      var fragment := discoveries[0].discover(config, declared);
      [fragment] + Contributions(Merge(config, fragment), declared, discoveries[1..], present)
  }

  /**
   * The configurations the discoverers make one after the other: an absent
   * folder changes nothing, and the fragment of a present one, computed from the
   * configuration reached so far, is merged into that.
   */
  ghost predicate Grows(
      declared: Record, discoveries: seq<Discovery>, present: set<JsString>, configs: seq<Record>)
  {
    && |configs| == |discoveries| + 1 && configs[0] == declared
    && forall i | 0 <= i < |discoveries| ::
         configs[i + 1] == if discoveries[i].folder in present
                           then Merge(configs[i], discoveries[i].discover(configs[i], declared)) else configs[i]
  }

  /** A present folder that needs a discoverer and has none. */
  predicate IsUnclaimed(discoveries: seq<Discovery>, present: set<JsString>, folder: JsString) {
    && folder in DISCOVERED_FOLDERS && folder in present
    && forall i | 0 <= i < |discoveries| :: discoveries[i].folder != folder
  }

  lemma GrowsOn(declared: Record, discoveries: seq<Discovery>, present: set<JsString>, i: nat,
      configs: seq<Record>, next: Record)
    requires i < |discoveries| && Grows(declared, discoveries[..i], present, configs)
    requires next == if discoveries[i].folder in present
                     then Merge(configs[i], discoveries[i].discover(configs[i], declared)) else configs[i]
    ensures Grows(declared, discoveries[..i + 1], present, configs + [next])
  {
    var more := configs + [next];
    forall j | 0 <= j < i + 1
      ensures more[j + 1] == if discoveries[..i + 1][j].folder in present
                             then Merge(more[j], discoveries[..i + 1][j].discover(more[j], declared)) else more[j]
    {
      if j < i {
        assert discoveries[..i][j] == discoveries[j];
      }
    }
  }

  /**
   * `applyDiscoverers`: every present folder's fragment is merged into the growing
   * configuration; then a present folder nobody knows how to load is refused.
   */
  method ApplyDiscoverers(config: Record, discoveries: seq<Discovery>, present: set<JsString>)
    returns (outcome: Outcome)
    ensures outcome.Unclaimed? ==> IsUnclaimed(discoveries, present, outcome.folder)
    ensures outcome.Applied? ==>
              && (forall folder :: !IsUnclaimed(discoveries, present, folder))
              && (exists configs ::
                    Grows(config, discoveries, present, configs) && configs[|discoveries|] == outcome.config)
              && outcome.config == Threaded(config, Contributions(config, config, discoveries, present))
  {
    var declared := config;
    var out := config;
    ghost var configs := [config];
    var registered: set<JsString> := {};
    var i := 0;
    while i < |discoveries|
      invariant i <= |discoveries|
      invariant forall folder :: folder in registered <==> exists j | 0 <= j < i :: discoveries[j].folder == folder
      invariant Grows(declared, discoveries[..i], present, configs) && configs[i] == out
      invariant Threaded(config, Contributions(config, declared, discoveries, present))
             == Threaded(out, Contributions(out, declared, discoveries[i..], present))
    {
      ghost var before := out;
      if discoveries[i].folder in present {
        var fragment := discoveries[i].discover(out, declared);
        out := MergeRecords(out, fragment);
      }
      GrowsOn(declared, discoveries, present, i, configs, out);
      configs := configs + [out];
      registered := registered + {discoveries[i].folder};
      i := i + 1;
    }
    assert discoveries[..i] == discoveries;
    for k := 0 to |DISCOVERED_FOLDERS|
      invariant forall j | 0 <= j < k :: !IsUnclaimed(discoveries, present, DISCOVERED_FOLDERS[j])
    {
      var folder := DISCOVERED_FOLDERS[k];
      if folder !in registered && folder in present {
        return Unclaimed(folder);
      }
    }
    return Applied(out);
  }
}

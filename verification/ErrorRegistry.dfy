/** The process-wide registry of error codes: one namespace per owner, one namespace per code. */
module ErrorRegistry {
  import opened Basics
  import opened JsText

  datatype Meta = Meta(category: JsString, message: JsString, suggestion: Option<JsString>, docs: JsString,
                       retryable: bool)

  type Codes = map<JsString, Meta>

  const CORE_OWNER := Ascii("@routecraft/routecraft")
  const RC := Ascii("RC")
  const RC1003 := Ascii("RC1003")
  const RC9901 := Ascii("RC9901")

  predicate IsUpper(u: CodeUnit) {
    'A' as int <= u <= 'Z' as int
  }

  predicate IsDigit(u: CodeUnit) {
    '0' as int <= u <= '9' as int
  }

  /** `/^[A-Z][A-Z0-9]{1,7}$/` */
  predicate IsNamespace(name: JsString) {
    2 <= |name| <= 8 && IsUpper(name[0]) && forall u | u in name[1..] :: IsUpper(u) || IsDigit(u)
  }

  /** `^NAMESPACE\d{4}$` */
  predicate IsCodeOf(namespace: JsString, code: JsString) {
    && |code| == |namespace| + 4 && code[..|namespace|] == namespace
    && forall i | |namespace| <= i < |code| :: IsDigit(code[i])
  }

  /** A namespace is two to eight characters, capital letters and digits, a letter first. */
  lemma NamespaceShape(name: JsString)
    ensures IsNamespace(name) <==>
            exists first, rest ::
              && name == [first] + rest && 'A' as int <= first <= 'Z' as int && 1 <= |rest| <= 7
              && forall u | u in rest :: 'A' as int <= u <= 'Z' as int || '0' as int <= u <= '9' as int
  {
    if IsNamespace(name) {
      assert name == [name[0]] + name[1..];
    }
    if first: CodeUnit, rest: JsString :|
        && name == [first] + rest && 'A' as int <= first <= 'Z' as int && 1 <= |rest| <= 7
        && forall u | u in rest :: 'A' as int <= u <= 'Z' as int || '0' as int <= u <= '9' as int {
      assert name[1..] == rest;
    }
  }

  /** A code is its namespace and exactly four digits. */
  lemma CodeShape(namespace: JsString, code: JsString)
    ensures IsCodeOf(namespace, code) <==>
            exists digits ::
              code == namespace + digits && |digits| == 4 && forall u | u in digits :: '0' as int <= u <= '9' as int
  {
    if IsCodeOf(namespace, code) {
      var digits := code[|namespace|..];
      assert code == namespace + digits;
      assert forall k | 0 <= k < |digits| :: digits[k] == code[|namespace| + k];
    }
    if digits: JsString :|
        code == namespace + digits && |digits| == 4 && forall u | u in digits :: '0' as int <= u <= '9' as int {
      assert forall i | |namespace| <= i < |code| :: code[i] == digits[i - |namespace|] && code[i] in digits;
    }
  }

  /** One copy of the package brings its own table of core codes. */
  type CoreTable = t: Codes | forall code | code in t :: IsCodeOf(RC, code) witness map[]

  // ----- the registry as a value -----

  datatype State = Uninitialised | State(codes: Codes, namespaces: map<JsString, JsString>)

  /** What code does with the registry, in the copy of the package whose core table is `core`. */
  datatype Call =
    | Register(core: CoreTable, namespace: JsString, codes: Codes, owner: JsString)
    | Lookup(core: CoreTable, code: JsString)

  /** `getErrorRegistry`: the first copy to ask puts its own core codes in. */
  function Ensured(s: State, core: CoreTable): (r: State)
    ensures r.State?
  {
    if s.Uninitialised? then State(core, map[RC := CORE_OWNER]) else s
  }

  /** What `registerErrorCodes` demands of a registration. */
  predicate Accepts(s: State, call: Call)
    requires s.State? && call.Register?
  {
    && IsNamespace(call.namespace) && call.namespace != RC
    && (call.namespace in s.namespaces ==> s.namespaces[call.namespace] == call.owner)
    && forall code | code in call.codes :: IsCodeOf(call.namespace, code)
  }

  function Outside(codes: Codes, namespace: JsString): Codes {
    map code | code in codes && !IsCodeOf(namespace, code) :: codes[code]
  }

  function After(s: State, call: Call): (r: State)
    ensures r.State?
  {
    var ready := Ensured(s, call.core);
    if call.Register? && Accepts(ready, call)
    then State(Outside(ready.codes, call.namespace) + call.codes, ready.namespaces[call.namespace := call.owner])
    else ready
  }

  /** The registry after a run of calls, by any number of copies of the package. */
  function Run(calls: seq<Call>): (r: State)
    ensures calls != [] ==> r.State?
  {
    if calls == [] then Uninitialised else After(Run(calls[..|calls| - 1]), calls[|calls| - 1])
  }

  /** The `i`th call is a registration that went through. */
  predicate WentThrough(calls: seq<Call>, i: nat)
    requires i < |calls|
  {
    calls[i].Register? && Accepts(Ensured(Run(calls[..i]), calls[i].core), calls[i])
  }

  predicate Claims(calls: seq<Call>, i: nat, namespace: JsString)
    requires i < |calls|
  {
    WentThrough(calls, i) && calls[i].namespace == namespace
  }

  /** The registration of `namespace` in force after the calls. */
  predicate InForce(calls: seq<Call>, i: nat, namespace: JsString)
    requires i < |calls|
  {
    Claims(calls, i, namespace) && forall j | i < j < |calls| :: !Claims(calls, j, namespace)
  }

  lemma ClaimsBefore(calls: seq<Call>, i: nat, namespace: JsString)
    requires i < |calls| - 1
    ensures Claims(calls[..|calls| - 1], i, namespace) == Claims(calls, i, namespace)
  {
    assert calls[..|calls| - 1][..i] == calls[..i];
  }

  // ----- what holds of every reachable registry -----

  /** Every registered code belongs to a claimed namespace, and to no other. */
  lemma {:induction false} EveryCodeHasOneNamespace(calls: seq<Call>, code: JsString)
    requires calls != [] && code in Run(calls).codes
    ensures exists namespace :: namespace in Run(calls).namespaces && IsCodeOf(namespace, code)
    ensures forall a, b | IsCodeOf(a, code) && IsCodeOf(b, code) :: a == b
  {
    var before, call := calls[..|calls| - 1], calls[|calls| - 1];
    forall a, b | IsCodeOf(a, code) && IsCodeOf(b, code) ensures a == b {
    }
    if call.Register? && code in call.codes && Accepts(Ensured(Run(before), call.core), call) {
      assert IsCodeOf(call.namespace, code) && call.namespace in Run(calls).namespaces;
    } else if before == [] {
      assert IsCodeOf(RC, code) && RC in Run(calls).namespaces;
    } else {
      EveryCodeHasOneNamespace(before, code);
      var namespace :| namespace in Run(before).namespaces && IsCodeOf(namespace, code);
      assert namespace in Run(calls).namespaces;
    }
  }

  /** Core's namespace stays core's, and a claimed namespace is a well-formed one. */
  lemma {:induction false} NamespacesAreWellFormed(calls: seq<Call>)
    requires calls != []
    ensures RC in Run(calls).namespaces && Run(calls).namespaces[RC] == CORE_OWNER
    ensures forall namespace | namespace in Run(calls).namespaces :: IsNamespace(namespace)
  {
    var before := calls[..|calls| - 1];
    if before != [] {
      NamespacesAreWellFormed(before);
    }
    assert IsNamespace(RC);
  }

  lemma {:induction false} ClaimFixesOwner(calls: seq<Call>, namespace: JsString, i: nat)
    requires i < |calls| && Claims(calls, i, namespace)
    ensures namespace in Run(calls).namespaces && Run(calls).namespaces[namespace] == calls[i].owner
    decreases |calls|
  {
    var n := |calls| - 1;
    var before := calls[..n];
    if i < n {
      ClaimsBefore(calls, i, namespace);
      ClaimFixesOwner(before, namespace, i);
    }
  }

  lemma {:induction false} OwnedIsClaimed(calls: seq<Call>, namespace: JsString) returns (i: nat)
    requires calls != [] && namespace != RC && namespace in Run(calls).namespaces
    ensures i < |calls| && Claims(calls, i, namespace)
  {
    var n := |calls| - 1;
    var before := calls[..n];
    if Claims(calls, n, namespace) {
      i := n;
    } else {
      i := OwnedIsClaimed(before, namespace);
      ClaimsBefore(calls, i, namespace);
    }
  }

  /** A namespace belongs to whoever claimed it, and every accepted claim of it was that owner's. */
  lemma {:induction false} OwnerNeverChanges(calls: seq<Call>, namespace: JsString)
    requires calls != [] && namespace != RC
    ensures namespace in Run(calls).namespaces <==> exists i: nat | i < |calls| :: Claims(calls, i, namespace)
    ensures forall i: nat | i < |calls| && Claims(calls, i, namespace) ::
              Run(calls).namespaces[namespace] == calls[i].owner
  {
    if namespace in Run(calls).namespaces {
      var i := OwnedIsClaimed(calls, namespace);
    }
    forall i: nat | i < |calls| && Claims(calls, i, namespace)
      ensures namespace in Run(calls).namespaces && Run(calls).namespaces[namespace] == calls[i].owner
    {
      ClaimFixesOwner(calls, namespace, i);
    }
  }

  /**
   * The codes of a namespace are exactly those of its registration in force:
   * nothing of an earlier registration lingers, and no other namespace's
   * registration touches them.
   */
  lemma {:induction false} CodesAreThoseInForce(calls: seq<Call>, namespace: JsString, code: JsString)
    requires calls != [] && namespace != RC && IsCodeOf(namespace, code)
    ensures code in Run(calls).codes <==>
            exists i: nat | i < |calls| :: InForce(calls, i, namespace) && code in calls[i].codes
    ensures forall i: nat | i < |calls| && InForce(calls, i, namespace) && code in calls[i].codes ::
              Run(calls).codes[code] == calls[i].codes[code]
  {
    var n := |calls| - 1;
    var before, call := calls[..n], calls[n];
    forall i: nat | i < n ensures Claims(before, i, namespace) == Claims(calls, i, namespace) {
      ClaimsBefore(calls, i, namespace);
    }
    if Claims(calls, n, namespace) {
      assert InForce(calls, n, namespace);
    } else if before != [] {
      CodesAreThoseInForce(before, namespace, code);
      forall i: nat | i < n ensures InForce(before, i, namespace) == InForce(calls, i, namespace) {
      }
    }
  }

  /** Core codes are those of the copy that initialised the registry, for ever. */
  lemma {:induction false} CoreNeverAltered(calls: seq<Call>, code: JsString)
    requires calls != [] && IsCodeOf(RC, code)
    ensures code in Run(calls).codes <==> code in calls[0].core
    ensures code in calls[0].core ==> Run(calls).codes[code] == calls[0].core[code]
  {
    var n := |calls| - 1;
    var before, call := calls[..n], calls[n];
    if before != [] {
      CoreNeverAltered(before, code);
    }
  }

  /**
   * `rcError` finds one of its own copy's core codes exactly when the copy that
   * initialised the registry has that code too: always, with one copy of the
   * package, and not for a code a second, newer copy added.
   */
  lemma CoreCodeFoundIff(calls: seq<Call>, core: CoreTable, code: JsString)
    requires code in core
    ensures code in Ensured(Run(calls), core).codes <==> (calls == [] || code in calls[0].core)
  {
    if calls != [] {
      CoreNeverAltered(calls, code);
    }
  }

  /** A second copy with a code the first lacks: its own lookup fails. */
  lemma NewerCopyMayMissItsCode(calls: seq<Call>, older: CoreTable, newer: CoreTable, code: JsString)
    requires code in newer && code !in older
    requires calls == [Lookup(older, RC1003)]
    ensures code !in Ensured(Run(calls), newer).codes
  {
    CoreCodeFoundIff(calls, newer, code);
  }

  /**
   * A registration goes through exactly when its namespace is well-formed and
   * not core's, its codes carry that namespace, and nobody else claimed it first.
   */
  lemma GoesThroughIff(calls: seq<Call>, i: nat)
    requires i < |calls| && calls[i].Register?
    ensures WentThrough(calls, i) <==>
              && IsNamespace(calls[i].namespace) && calls[i].namespace != RC
              && (forall code | code in calls[i].codes :: IsCodeOf(calls[i].namespace, code))
              && forall j: nat | j < i && Claims(calls, j, calls[i].namespace) :: calls[j].owner == calls[i].owner
  {
    var namespace := calls[i].namespace;
    var before := calls[..i];
    forall j: nat | j < i ensures Claims(before, j, namespace) == Claims(calls, j, namespace) {
      assert before[..j] == calls[..j];
    }
    if before != [] && namespace != RC {
      OwnerNeverChanges(before, namespace);
    }
  }

  lemma RunOn(calls: seq<Call>, call: Call)
    ensures Run(calls + [call]) == After(Run(calls), call)
    ensures call.Register? ==>
              (WentThrough(calls + [call], |calls|) <==> Accepts(Ensured(Run(calls), call.core), call))
  {
    assert (calls + [call])[..|calls|] == calls;
  }

  // ----- the registry object -----

  /** The object all copies of the package share. */
  class Registry {
    var codes: Codes
    var namespaces: map<JsString, JsString>

    constructor (core: CoreTable)
      ensures codes == core && namespaces == map[RC := CORE_OWNER]
    {
      codes, namespaces := core, map[RC := CORE_OWNER];
    }

    /** The claim is recorded, the namespace's earlier codes go, the new ones come in. */
    method Install(namespace: JsString, added: Codes, owner: JsString)
      modifies this
      ensures namespaces == old(namespaces)[namespace := owner]
      ensures codes == Outside(old(codes), namespace) + added
    {
      namespaces := namespaces[namespace := owner];
      codes := DeleteCodes(namespace, codes);
      codes := AddCodes(codes, added);
    }
  }

  datatype Overrides = Overrides(message: Option<JsString>, suggestion: Option<JsString>, docs: Option<JsString>,
                                 retryable: Option<bool>)

  /** A `RoutecraftError`: its code and its metadata. */
  datatype Error = Error(rc: JsString, meta: Meta)

  /** `globalThis`, as far as the registry is concerned. */
  class Global {
    var registry: Registry?
    ghost var calls: seq<Call>

    ghost function View(): State
      reads this, registry
    {
      if registry == null then Uninitialised else State(registry.codes, registry.namespaces)
    }

    ghost predicate Valid()
      reads this, registry
    {
      View() == Run(calls)
    }

    constructor ()
      ensures Valid() && calls == []
    {
      registry, calls := null, [];
    }

    method GetErrorRegistry(core: CoreTable) returns (state: Registry)
      modifies this`registry
      ensures registry == state && View() == Ensured(old(View()), core)
      ensures old(registry) != null ==> registry == old(registry)
      ensures old(registry) == null ==> fresh(registry)
    {
      if registry == null {
        registry := new Registry(core);
      }
      state := registry;
    }

    /** The lookup inside `getErrorMeta`, and inside every `rcError`. */
    method FindMeta(core: CoreTable, rc: JsString) returns (meta: Option<Meta>)
      modifies this`registry
      ensures View() == Ensured(old(View()), core)
      ensures old(registry) != null ==> registry == old(registry)
      ensures old(registry) == null ==> fresh(registry)
      ensures meta == if rc in View().codes then Some(View().codes[rc]) else None
    {
      var state := GetErrorRegistry(core);
      meta := if rc in state.codes then Some(state.codes[rc]) else None;
    }

    /** `rcError`: the error made of the code, or the RC9901 thrown instead when nobody registered it. */
    method RcError(core: CoreTable, rc: JsString, overrides: Overrides) returns (error: Error, threw: bool)
      requires Valid() && RC9901 in core
      modifies this
      ensures Valid() && calls == old(calls) + [Lookup(core, rc)]
      ensures threw <==> rc !in View().codes
      ensures threw ==> error == Error(RC9901, core[RC9901])
      ensures !threw ==> error == Error(rc, Overridden(View().codes[rc], overrides))
      ensures rc in core ==> (threw <==> old(calls) != [] && rc !in old(calls)[0].core)
    {
      RunOn(calls, Lookup(core, rc));
      if rc in core {
        CoreCodeFoundIff(calls, core, rc);
      }
      calls := calls + [Lookup(core, rc)];
      var meta := FindMeta(core, rc);
      match meta
      case None => error, threw := Error(RC9901, core[RC9901]), true;
      case Some(base) => error, threw := Error(rc, Overridden(base, overrides)), false;
    }

    /** The code of the error a refused registration throws. */
    method Refuse(core: CoreTable) returns (rc: JsString)
      modifies this`registry
      ensures View() == Ensured(old(View()), core)
      ensures old(registry) != null ==> registry == old(registry)
      ensures rc == if RC1003 in View().codes then RC1003 else RC9901
    {
      var meta := FindMeta(core, RC1003);
      rc := if meta.Some? then RC1003 else RC9901;
    }

    /** The checks of `registerErrorCodes`, none of which changes anything. */
    method Check(core: CoreTable, namespace: JsString, added: Codes, owner: JsString) returns (fits: bool)
      modifies this`registry
      ensures View() == Ensured(old(View()), core) || (View() == old(View()) && !fits)
      ensures old(registry) != null ==> registry == old(registry)
      ensures old(registry) == null && registry != null ==> fresh(registry)
      ensures fits ==> registry != null
      ensures fits <==> Accepts(Ensured(old(View()), core), Register(core, namespace, added, owner))
    {
      if !IsNamespace(namespace) || namespace == RC {
        return false;
      }
      var state := GetErrorRegistry(core);
      if namespace in state.namespaces && state.namespaces[namespace] != owner {
        return false;
      }
      fits := AllCodesOf(namespace, added);
    }

    /**
     * `registerErrorCodes`: a refused registration leaves the registry as it
     * was, once initialised; an accepted one replaces its namespace's codes.
     */
    method RegisterErrorCodes(core: CoreTable, namespace: JsString, added: Codes, owner: JsString)
      returns (thrown: Option<JsString>)
      requires Valid()
      modifies this, registry
      ensures Valid() && calls == old(calls) + [Register(core, namespace, added, owner)]
      ensures thrown == None <==> WentThrough(calls, |old(calls)|)
      ensures thrown.Some? ==>
                && View() == Ensured(old(View()), core)
                && thrown.value == if RC1003 in View().codes then RC1003 else RC9901
    {
      RunOn(calls, Register(core, namespace, added, owner));
      calls := calls + [Register(core, namespace, added, owner)];
      var fits := Check(core, namespace, added, owner);
      if fits {
        registry.Install(namespace, added, owner);
        thrown := None;
      } else {
        var rc := Refuse(core);
        thrown := Some(rc);
      }
    }
  }

  function Overridden(base: Meta, overrides: Overrides): Meta {
    Meta(base.category,
         if overrides.message.Some? then overrides.message.value else base.message,
         if overrides.suggestion.Some? then overrides.suggestion else base.suggestion,
         if overrides.docs.Some? then overrides.docs.value else base.docs,
         if overrides.retryable.Some? then overrides.retryable.value else base.retryable)
  }

  /** What an override gives wins, what it does not give stays, and the category always does. */
  lemma OverridesWin(base: Meta, overrides: Overrides)
    ensures var meta := Overridden(base, overrides);
            && meta.category == base.category
            && (forall v :: overrides.message == Some(v) ==> meta.message == v)
            && (overrides.message == None ==> meta.message == base.message)
            && (forall v :: overrides.suggestion == Some(v) ==> meta.suggestion == Some(v))
            && (overrides.suggestion == None ==> meta.suggestion == base.suggestion)
            && (forall v :: overrides.docs == Some(v) ==> meta.docs == v)
            && (overrides.docs == None ==> meta.docs == base.docs)
            && (forall v :: overrides.retryable == Some(v) ==> meta.retryable == v)
            && (overrides.retryable == None ==> meta.retryable == base.retryable)
  {
  }

  /** The loop that checks every code against its namespace. */
  method AllCodesOf(namespace: JsString, added: Codes) returns (fits: bool)
    ensures fits <==> forall code | code in added :: IsCodeOf(namespace, code)
  {
    var unchecked := added.Keys;
    while unchecked != {}
      invariant unchecked <= added.Keys
      invariant forall code | code in added && code !in unchecked :: IsCodeOf(namespace, code)
      decreases |unchecked|
    {
      var code :| code in unchecked;
      if !IsCodeOf(namespace, code) {
        return false;
      }
      unchecked := unchecked - {code};
    }
    return true;
  }

  /** The loop that deletes the codes of an earlier registration. */
  method DeleteCodes(namespace: JsString, codes: Codes) returns (rest: Codes)
    ensures rest == Outside(codes, namespace)
  {
    rest := codes;
    var unseen := codes.Keys;
    while unseen != {}
      invariant unseen <= codes.Keys
      invariant forall code | code in codes ::
                  code in rest <==> code in unseen || !IsCodeOf(namespace, code)
      invariant forall code | code in rest :: code in codes && rest[code] == codes[code]
      decreases |unseen|
    {
      var code :| code in unseen;
      if IsCodeOf(namespace, code) {
        rest := rest - {code};
      }
      unseen := unseen - {code};
    }
  }

  /** The loop that puts the new codes in. */
  method AddCodes(codes: Codes, added: Codes) returns (all: Codes)
    ensures all == codes + added
  {
    all := codes;
    var unseen := added.Keys;
    while unseen != {}
      invariant unseen <= added.Keys
      invariant forall code :: code in all <==> code in codes || (code in added && code !in unseen)
      invariant forall code | code in all ::
                  all[code] == if code in added && code !in unseen then added[code] else codes[code]
      decreases |unseen|
    {
      var code :| code in unseen;
      all := all[code := added[code]];
      unseen := unseen - {code};
    }
  }
}

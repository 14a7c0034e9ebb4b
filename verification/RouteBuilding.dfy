/** The fluent route builder: when a chain of calls builds, and which routes it builds. */
module RouteBuilding {
  import opened Basics
  import opened SplitBalance
  import opened RouteCalls
  import opened RouteReading

  // ----- the theorem -----

  ghost predicate Denotes(segments: seq<Segment>, calls: seq<Call>, routes: seq<Route>) {
    && Calls(segments) == calls
    && WellFormed(segments)
    && Buildable(segments)
    && routes == Meanings(segments)
  }

  lemma CacheableIffMatched(g: Segment)
    ensures Cacheable(Meaning(g)) <==> CachesOneResult(g)
  {
    DeclaredAt(g.staging, Cache);
    DepthZeroIffMatched(Operations(Steps(g.body)));
  }

  /** The checks of `build()` pass exactly when suspends stand on the main flow and cached routes end in one result. */
  lemma NoObjectionIffBuildable(segments: seq<Segment>)
    ensures FirstSome(Objections(Meanings(segments))) == None <==> Buildable(segments)
  {
    var answers := Objections(Meanings(segments));
    forall i | 0 <= i < |segments|
      ensures answers[i] == None <==> SuspendsOnMainFlow(segments[i]) && CachesOneResult(segments[i])
    {
      CacheableIffMatched(segments[i]);
      RevivableIffMatchedBefore(Operations(Steps(segments[i].body)));
    }
    assert forall i | 0 <= i < |segments| :: segments[i] in segments;
  }

  /**
   * `build()` succeeds on a chain exactly when the chain reads as segments
   * `staging* .from() (wrapper* step)*` with `.input()` and `.output()` at most
   * once each, every suspend on the main flow, and cached routes ending in one
   * result; and then the routes are those the segments describe.
   */
  lemma ChainIsItsReading(calls: seq<Call>, routes: seq<Route>)
    ensures Chain(calls) == Ok(routes) <==> exists segments :: Denotes(segments, calls, routes)
  {
    if Chain(calls) == Ok(routes) {
      var s := Run(START, calls).value;
      var segments, staging, wrappers := Reading(calls, s);
      assert WrapperCalls([]) == [];
      assert Calls(segments) + [] + [] == Calls(segments);
      NoObjectionIffBuildable(segments);
      assert Denotes(segments, calls, routes);
    }
    if segments :| Denotes(segments, calls, routes) {
      RunSegments(START, segments);
      assert START.routes + Meanings(segments) == Meanings(segments);
      NoObjectionIffBuildable(segments);
    }
  }

  /** A chain has at most one reading as far as the routes can tell. */
  lemma ReadingsAgree(a: seq<Segment>, b: seq<Segment>)
    requires WellFormed(a) && WellFormed(b) && Calls(a) == Calls(b)
    ensures Meanings(a) == Meanings(b)
  {
    RunSegments(START, a);
    RunSegments(START, b);
    assert START.routes + Meanings(a) == Meanings(a) && START.routes + Meanings(b) == Meanings(b);
  }

  /**
   * What an accepted chain makes of each route, setting by setting: authorizers,
   * throttles and concurrency limits collect all values in order, of the others
   * the last one counts, and a step has its wrappers from the outside in.
   */
  lemma RouteIsAsSaid(segments: seq<Segment>, calls: seq<Call>, routes: seq<Route>, i: nat, kind: Setting)
    requires Denotes(segments, calls, routes) && i < |segments|
    ensures |routes| == |segments| && routes[i].sources == segments[i].sources
    ensures kind == Authorize || kind == Throttle || kind == Concurrency ==>
              && kind !in routes[i].options.single
              && StackAt(routes[i].options, kind) == Values(segments[i].staging, kind)
    ensures kind != Authorize && kind != Throttle && kind != Concurrency ==>
              var values := Values(segments[i].staging, kind);
              && kind !in routes[i].options.stacked
              && (kind in routes[i].options.single <==> values != [])
              && (values != [] ==> routes[i].options.single[kind] == values[|values| - 1])
    ensures forall schema :: routes[i].options.input == Some(schema) <==> Inputs(segments[i].staging) == [schema]
    ensures Layered(segments[i].body, routes[i].steps)
  {
    DeclaredAt(segments[i].staging, kind);
    var inputs := Inputs(segments[i].staging);
    assert SegmentWellFormed(segments[i], i == 0);
    assert inputs == [] || inputs == [inputs[0]];
    forall k | 0 <= k < |segments[i].body| ensures LayeredAt(segments[i].body[k], routes[i].steps[k]) {
      LayersInOrder(segments[i].body[k].wrappers, segments[i].body[k].op);
    }
  }

  ghost predicate LayeredAt(item: Item, step: Step) {
    && step.Operation() == item.op && Layers(step) == |item.wrappers|
    && forall k | 0 <= k < |item.wrappers| :: Layer(step, k) == item.wrappers[k]
  }

  ghost predicate Layered(body: seq<Item>, steps: seq<Step>) {
    |steps| == |body| && forall k | 0 <= k < |body| :: LayeredAt(body[k], steps[k])
  }

  /** Why a chain is refused: the first call that is refused says so, or, when none is, `build()`. */
  lemma ChainRefusedBy(calls: seq<Call>, code: Code)
    ensures Chain(calls) == Refused(code) <==>
            || (exists n | 0 <= n < |calls| ::
                  Run(START, calls[..n]).Ok? && Apply(Run(START, calls[..n]).value, calls[n]) == Refused(code))
            || (Run(START, calls).Ok? && Finish(Run(START, calls).value) == Refused(code))
  {
    RefusedBy(START, calls, code);
  }

  // ----- the code -----

  /** A route under construction; its steps are appended in place. */
  class RouteDefinition {
    const options: Options
    const sources: seq<nat>
    var steps: seq<Step>

    constructor (options: Options, sources: seq<nat>)
      ensures this.options == options && this.sources == sources && steps == []
    {
      this.options := options;
      this.sources := sources;
      steps := [];
    }
  }

  /** What a call answers and leaves behind: the expected state, or a refusal that changes nothing. */
  ghost predicate Follows(refusal: Option<Code>, before: State, after: State, expected: Outcome<State>) {
    match expected
    case Ok(s) => refusal == None && after == s
    case Refused(code) => refusal == Some(code) && after == before
  }

  class RouteBuilder {
    var currentRoute: RouteDefinition?
    var routes: seq<RouteDefinition>
    var pendingOptions: Option<Options>
    var pendingStepWrappers: seq<Wrapper>
    ghost var state: State

    /** `currentRoute` is the last of `routes`, which are distinct objects; `state` is what all fields amount to. */
    ghost predicate Valid()
      reads this, routes
    {
      && (currentRoute == null <==> routes == [])
      && (routes != [] ==> currentRoute == routes[|routes| - 1])
      && (forall i, j | 0 <= i < j < |routes| :: routes[i] != routes[j])
      && state.pending == pendingOptions
      && state.wrappers == pendingStepWrappers
      && |state.routes| == |routes|
      && forall i | 0 <= i < |routes| ::
           state.routes[i] == Route(routes[i].options, routes[i].sources, routes[i].steps)
    }

    constructor ()
      ensures Valid() && state == START
    {
      currentRoute := null;
      routes := [];
      pendingOptions := None;
      pendingStepWrappers := [];
      state := START;
    }

    method SetId(id: nat) returns (refusal: Option<Code>)
      requires Valid()
      modifies this
      ensures Valid() && Follows(refusal, old(state), state, Apply(old(state), Set(Id, id)))
    {
      if pendingStepWrappers != [] {
        return Some(RC2001);
      }
      var o := pendingOptions.GetOr(NO_OPTIONS);
      pendingOptions := Some(o.(single := o.single[Id := id]));
      state := state.(pending := pendingOptions);
      return None;
    }

    /** `.title()`, `.description()` and `.output()`. */
    method MergeDiscovery(kind: Setting, value: nat) returns (refusal: Option<Code>)
      requires Valid() && kind in {Title, Description, Output}
      modifies this
      ensures Valid() && Follows(refusal, old(state), state, Apply(old(state), Set(kind, value)))
    {
      var o := pendingOptions.GetOr(NO_OPTIONS);
      if kind == Output && Output in o.single {
        return Some(RC2001);
      }
      pendingOptions := Some(o.(single := o.single[kind := value]));
      state := state.(pending := pendingOptions);
      return None;
    }

    method DeclareInput(schema: Schema) returns (refusal: Option<Code>)
      requires Valid()
      modifies this
      ensures Valid() && Follows(refusal, old(state), state, Apply(old(state), Input(schema)))
    {
      var o := pendingOptions.GetOr(NO_OPTIONS);
      if o.input.Some? {
        return Some(RC2001);
      }
      pendingOptions := Some(o.(input := Some(schema)));
      state := state.(pending := pendingOptions);
      return None;
    }

    method AddTag(tags: seq<TagValue>) returns (refusal: Option<Code>)
      requires Valid()
      modifies this
      ensures Valid() && Follows(refusal, old(state), state, Apply(old(state), Tag(tags)))
    {
      for i := 0 to |tags|
        invariant Blank !in tags[..i]
      {
        if tags[i] == Blank {
          return Some(RC2001);
        }
      }
      assert tags[..|tags|] == tags;
      var o := pendingOptions.GetOr(NO_OPTIONS);
      var existing := o.tags.GetOr([]);
      var merged := existing;
      for i := 0 to |tags|
        invariant AddTags(existing, tags) == AddTags(merged, tags[i..])
      {
        if tags[i].Named? && tags[i].id !in merged {
          merged := merged + [tags[i].id];
        }
      }
      pendingOptions := Some(o.(tags := Some(merged)));
      state := state.(pending := pendingOptions);
      return None;
    }

    method SetBatch(value: nat) returns (refusal: Option<Code>)
      requires Valid()
      modifies this
      ensures Valid() && Follows(refusal, old(state), state, Apply(old(state), Set(Batch, value)))
    {
      var o := pendingOptions.GetOr(NO_OPTIONS);
      pendingOptions := Some(o.(single := o.single[Batch := value]));
      state := state.(pending := pendingOptions);
      return None;
    }

    method AddAuthorizer(value: nat) returns (refusal: Option<Code>)
      requires Valid()
      modifies this
      ensures Valid() && Follows(refusal, old(state), state, Apply(old(state), Set(Authorize, value)))
    {
      var o := pendingOptions.GetOr(NO_OPTIONS);
      pendingOptions := Some(o.(stacked := o.stacked[Authorize := StackAt(o, Authorize) + [value]]));
      state := state.(pending := pendingOptions);
      return None;
    }

    /** `.error()`, `.cache()`, `.timeout()`, `.retry()`, `.throttle()`, `.circuitBreaker()`, `.concurrency()`. */
    method DualMode(kind: Setting, value: nat) returns (refusal: Option<Code>)
      requires Valid() && IsDual(kind)
      modifies this
      ensures Valid() && Follows(refusal, old(state), state, Apply(old(state), Set(kind, value)))
    {
      if currentRoute == null || pendingOptions.Some? {
        var o := pendingOptions.GetOr(NO_OPTIONS);
        pendingOptions := Some(
          if Stacks(kind) then o.(stacked := o.stacked[kind := StackAt(o, kind) + [value]])
          else o.(single := o.single[kind := value]));
        state := state.(pending := pendingOptions);
      } else {
        pendingStepWrappers := pendingStepWrappers + [Wrapper(kind, value)];
        state := state.(wrappers := pendingStepWrappers);
      }
      return None;
    }

    method DelayNext(value: nat) returns (refusal: Option<Code>)
      requires Valid()
      modifies this
      ensures Valid() && Follows(refusal, old(state), state, Apply(old(state), Set(Delay, value)))
    {
      pendingStepWrappers := pendingStepWrappers + [Wrapper(Delay, value)];
      state := state.(wrappers := pendingStepWrappers);
      return None;
    }

    method OpenRoute(sources: seq<nat>) returns (refusal: Option<Code>)
      requires Valid()
      modifies this
      ensures Valid() && Follows(refusal, old(state), state, Apply(old(state), From(sources)))
    {
      if pendingStepWrappers != [] || |sources| == 0 {
        return Some(RC2001);
      }
      var o := pendingOptions.GetOr(NO_OPTIONS);
      if |sources| > 1 && BodySchemaMissing(o) {
        return Some(RC2001);
      }
      var route := new RouteDefinition(o, sources);
      currentRoute := route;
      pendingOptions := None;
      routes := routes + [route];
      state := State(None, state.routes + [Route(o, sources, [])], []);
      return None;
    }

    /** `applyPendingWrappers`: wrap from the last declared to the first; an unwrappable step is refused. */
    method ApplyPendingWrappers(op: Operation) returns (refusal: Option<Code>, step: Step)
      requires Valid()
      modifies this
      ensures Valid()
      ensures routes == old(routes) && currentRoute == old(currentRoute) && pendingOptions == old(pendingOptions)
      ensures old(pendingStepWrappers) != [] && !Wrappable(op) ==> refusal == Some(RC5003) && state == old(state)
      ensures old(pendingStepWrappers) == [] || Wrappable(op) ==>
                && refusal == None
                && state == old(state).(wrappers := [])
                && step == Fold(old(pendingStepWrappers), Plain(op))
    {
      step := Plain(op);
      if |pendingStepWrappers| == 0 {
        return None, step;
      }
      var i := |pendingStepWrappers| - 1;
      assert pendingStepWrappers[..i + 1] == pendingStepWrappers;
      while i >= 0
        invariant -1 <= i < |pendingStepWrappers|
        invariant step.Operation() == op
        invariant i < |pendingStepWrappers| - 1 ==> Wrappable(op)
        invariant Fold(pendingStepWrappers[..i + 1], step) == Fold(pendingStepWrappers, Plain(op))
      {
        if !Wrappable(step.Operation()) {
          return Some(RC5003), step;
        }
        assert pendingStepWrappers[..i + 1][..i] == pendingStepWrappers[..i];
        step := Wrapped(pendingStepWrappers[i], step);
        i := i - 1;
      }
      pendingStepWrappers := [];
      state := state.(wrappers := []);
      return None, step;
    }

    method PushStep(op: Operation) returns (refusal: Option<Code>)
      requires Valid()
      modifies this, routes
      ensures Valid() && Follows(refusal, old(state), state, Apply(old(state), Push(op)))
    {
      if currentRoute == null {
        return Some(RC2002);
      }
      if pendingOptions.Some? {
        return Some(RC2001);
      }
      var step;
      refusal, step := ApplyPendingWrappers(op);
      if refusal.Some? {
        return;
      }
      var route: RouteDefinition := currentRoute;
      route.steps := route.steps + [step];
      ghost var last := state.routes[|routes| - 1];
      state := State(None, state.routes[|routes| - 1 := last.(steps := last.steps + [step])], []);
    }

    /** `build()`: the routes as described, or the refusal. */
    method Build() returns (built: Outcome<seq<RouteDefinition>>)
      requires Valid()
      ensures built.Ok? ==> built.value == routes && Finish(state) == Ok(state.routes)
      ensures built.Refused? ==> Finish(state) == Refused(built.code)
    {
      if pendingOptions.Some? || |pendingStepWrappers| > 0 {
        return Refused(RC2001);
      }
      for i := 0 to |routes|
        invariant forall j | 0 <= j < i :: Objections(state.routes)[j] == None
      {
        var objection := Check(Operations(routes[i].steps), Cache in routes[i].options.single);
        if objection.Some? {
          FirstSomeAt(Objections(state.routes), i);
          return Refused(objection.value);
        }
      }
      return Ok(routes);
    }

    /** `resolveSuspendSites`, then `assertRouteScopeCacheCompatibility`, which looks at the sites it found. */
    static method Check(ops: seq<Operation>, cached: bool) returns (objection: Option<Code>)
      ensures objection == Some(RC5051) <==> !Revivable(ops)
      ensures objection == Some(RC5003) <==> Revivable(ops) && cached && (Suspend in ops || Depth(ops) > 0)
      ensures objection.Some? ==> objection.value == RC5051 || objection.value == RC5003
    {
      var refused, sites := ResolveSuspends(ops);
      if refused {
        return Some(RC5051);
      }
      assert |sites| > 0 ==> sites[0] in sites;
      if !cached {
        return None;
      }
      if |sites| > 0 {
        return Some(RC5003);
      }
      var depth := CountDepth(ops);
      return if depth > 0 then Some(RC5003) else None;
    }
  }
}

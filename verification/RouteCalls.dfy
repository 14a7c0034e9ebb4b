/** The calls of the fluent route builder: what each does to the builder, and what a chain of them says. */
module RouteCalls {
  import opened Basics
  import opened SplitBalance

  datatype Code = RC2001 | RC2002 | RC5003 | RC5051

  datatype Outcome<T> = Ok(value: T) | Refused(code: Code)

  /** The calls that carry one value. `Delay` exists at step scope only; the dual ones at both. */
  datatype Setting =
    | Id | Title | Description | Output | Batch | Authorize
    | ErrorHandler | Cache | Timeout | Retry | Throttle | CircuitBreaker | Concurrency
    | Delay

  predicate IsDual(kind: Setting) {
    kind in {ErrorHandler, Cache, Timeout, Retry, Throttle, CircuitBreaker, Concurrency}
  }

  datatype Schema = Schema(id: nat, hasBody: bool)

  /** A tag after trimming: blank ones are refused. */
  datatype TagValue = Blank | Named(id: nat)

  /** One call on the builder. Values stand for the handlers, options and adapters passed in. */
  datatype Call =
    | Set(kind: Setting, value: nat)
    | Input(schema: Schema)
    | Tag(tags: seq<TagValue>)
    | From(sources: seq<nat>)
    | Push(op: Operation)

  /**
   * `pendingOptions`: an object extended key by key. The three stacking kinds
   * collect their values, the others keep the last one.
   */
  datatype Options = Options(
    single: map<Setting, nat>, stacked: map<Setting, seq<nat>>, input: Option<Schema>, tags: Option<seq<nat>>)

  const NO_OPTIONS := Options(map[], map[], None, None)

  predicate Stacks(kind: Setting) {
    kind in {Authorize, Throttle, Concurrency}
  }

  datatype Wrapper = Wrapper(kind: Setting, value: nat)

  datatype Step = Plain(op: Operation) | Wrapped(wrapper: Wrapper, inner: Step) {
    /** A wrapper reports the operation of the step it wraps. */
    function Operation(): Operation {
      if Plain? then op else inner.Operation()
    }
  }

  datatype Route = Route(options: Options, sources: seq<nat>, steps: seq<Step>)

  /** What `WrapperStep` agrees to wrap. */
  predicate Wrappable(op: Operation) {
    op.Other?
  }

  function Operations(steps: seq<Step>): seq<Operation> {
    seq(|steps|, i requires 0 <= i < |steps| => steps[i].Operation())
  }

  // ----- what the calls do to the builder -----

  datatype State = State(pending: Option<Options>, routes: seq<Route>, wrappers: seq<Wrapper>)

  const START := State(None, [], [])

  function AddTags(tags: seq<nat>, more: seq<TagValue>): seq<nat>
    decreases |more|
  {
    if more == [] then tags
    else if more[0].Named? && more[0].id !in tags then AddTags(tags + [more[0].id], more[1..])
    else AddTags(tags, more[1..])
  }

  function StackAt(o: Options, k: Setting): seq<nat> {
    if k in o.stacked then o.stacked[k] else []
  }

  /** Route-scope staging of one call onto the options collected so far. */
  function Stage(o: Options, call: Call): Outcome<Options> {
    match call
    case Set(kind, v) =>
      if Stacks(kind) then
        Ok(o.(stacked := o.stacked[kind := StackAt(o, kind) + [v]]))
      else if kind == Output && Output in o.single then Refused(RC2001)
      else Ok(o.(single := o.single[kind := v]))
    case Input(schema) =>
      if o.input.Some? then Refused(RC2001) else Ok(o.(input := Some(schema)))
    case Tag(tags) =>
      if Blank in tags then Refused(RC2001) else Ok(o.(tags := Some(AddTags(o.tags.GetOr([]), tags))))
    case _ => Ok(o)
  }

  /** The descending loop of `applyPendingWrappers`: the last wrapper goes on first. */
  function Fold(wrappers: seq<Wrapper>, step: Step): Step
    decreases |wrappers|
  {
    if wrappers == [] then step
    else Fold(wrappers[..|wrappers| - 1], Wrapped(wrappers[|wrappers| - 1], step))
  }

  predicate StagesWrapper(s: State, call: Call) {
    call.Set? && (call.kind == Delay || (IsDual(call.kind) && s.routes != [] && s.pending.None?))
  }

  predicate BodySchemaMissing(o: Options) {
    !(o.input.Some? && o.input.value.hasBody)
  }

  function Apply(s: State, call: Call): Outcome<State> {
    match call
    case From(sources) =>
      if s.wrappers != [] || sources == [] then Refused(RC2001)
      else if |sources| > 1 && BodySchemaMissing(s.pending.GetOr(NO_OPTIONS)) then Refused(RC2001)
      else Ok(State(None, s.routes + [Route(s.pending.GetOr(NO_OPTIONS), sources, [])], []))
    case Push(op) =>
      if s.routes == [] then Refused(RC2002)
      else if s.pending.Some? then Refused(RC2001)
      else if s.wrappers != [] && !Wrappable(op) then Refused(RC5003)
      else
        var last := s.routes[|s.routes| - 1];
        Ok(State(None, s.routes[|s.routes| - 1 := last.(steps := last.steps + [Fold(s.wrappers, Plain(op))])], []))
    case _ =>
      if StagesWrapper(s, call) then Ok(s.(wrappers := s.wrappers + [Wrapper(call.kind, call.value)]))
      else if call.Set? && call.kind == Id && s.wrappers != [] then Refused(RC2001)
      else
        match Stage(s.pending.GetOr(NO_OPTIONS), call)
        case Ok(o) => Ok(s.(pending := Some(o)))
        case Refused(code) => Refused(code)
  }

  function Run(s: State, calls: seq<Call>): Outcome<State>
    decreases |calls|
  {
    if calls == [] then Ok(s)
    else match Apply(s, calls[0])
      case Ok(s') => Run(s', calls[1..])
      case Refused(code) => Refused(code)
  }

  /** A route that caches its result neither parks nor fans out without joining again. */
  predicate Cacheable(route: Route) {
    var ops := Operations(route.steps);
    Cache in route.options.single ==> Suspend !in ops && Depth(ops) == 0
  }

  /** What `build()` has against a route: a suspend nobody could revive first, then the cache. */
  function Objection(route: Route): Option<Code> {
    if !Revivable(Operations(route.steps)) then Some(RC5051)
    else if !Cacheable(route) then Some(RC5003)
    else None
  }

  /** The first answer there is. */
  function FirstSome<T>(answers: seq<Option<T>>): (first: Option<T>)
    ensures first == None <==> forall i | 0 <= i < |answers| :: answers[i] == None
  {
    if answers == [] then None
    else if answers[0].Some? then answers[0]
    else
      assert forall i | 0 < i < |answers| :: answers[i] == answers[1..][i - 1];
      FirstSome(answers[1..])
  }

  lemma {:induction false} FirstSomeAt<T>(answers: seq<Option<T>>, i: nat)
    requires i < |answers| && answers[i].Some? && forall j | 0 <= j < i :: answers[j] == None
    ensures FirstSome(answers) == answers[i]
  {
    if i > 0 {
      assert answers[0] == None && answers[i] == answers[1..][i - 1];
      FirstSomeAt(answers[1..], i - 1);
    }
  }

  function Objections(routes: seq<Route>): (r: seq<Option<Code>>)
    ensures |r| == |routes| && forall i | 0 <= i < |r| :: r[i] == Objection(routes[i])
  {
    seq(|routes|, i requires 0 <= i < |routes| => Objection(routes[i]))
  }

  function Finish(s: State): Outcome<seq<Route>> {
    if s.pending.Some? || s.wrappers != [] then Refused(RC2001)
    else
      // the first objection, in the order the routes were opened
      match FirstSome(Objections(s.routes))
      case None => Ok(s.routes)
      case Some(code) => Refused(code)
  }

  /** A whole chain: the calls in order, then `.build()`. */
  function Chain(calls: seq<Call>): Outcome<seq<Route>> {
    match Run(START, calls)
    case Ok(s) => Finish(s)
    case Refused(code) => Refused(code)
  }

  // ----- what a chain says -----

  /** A step together with the wrappers declared in front of it. */
  datatype Item = Item(wrappers: seq<Wrapper>, op: Operation)

  /** One route's share of the chain: its staging calls, its `.from()`, its wrapped steps. */
  datatype Segment = Segment(staging: seq<Call>, sources: seq<nat>, body: seq<Item>)

  function WrapperCalls(wrappers: seq<Wrapper>): seq<Call> {
    seq(|wrappers|, i requires 0 <= i < |wrappers| => Set(wrappers[i].kind, wrappers[i].value))
  }

  function BodyCalls(body: seq<Item>): seq<Call> {
    if body == [] then []
    else WrapperCalls(body[0].wrappers) + [Push(body[0].op)] + BodyCalls(body[1..])
  }

  function SegmentCalls(g: Segment): seq<Call> {
    g.staging + [From(g.sources)] + BodyCalls(g.body)
  }

  function Calls(segments: seq<Segment>): seq<Call> {
    if segments == [] then [] else SegmentCalls(segments[0]) + Calls(segments[1..])
  }

  /** The values given by the calls of one kind, in order. */
  function Values(calls: seq<Call>, kind: Setting): seq<nat> {
    if calls == [] then []
    else if calls[0].Set? && calls[0].kind == kind then [calls[0].value] + Values(calls[1..], kind)
    else Values(calls[1..], kind)
  }

  function Inputs(calls: seq<Call>): seq<Schema> {
    if calls == [] then []
    else if calls[0].Input? then [calls[0].schema] + Inputs(calls[1..]) else Inputs(calls[1..])
  }

  function TagLists(calls: seq<Call>): seq<seq<TagValue>> {
    if calls == [] then []
    else if calls[0].Tag? then [calls[0].tags] + TagLists(calls[1..]) else TagLists(calls[1..])
  }

  function AllTags(lists: seq<seq<TagValue>>): seq<TagValue> {
    if lists == [] then [] else lists[0] + AllTags(lists[1..])
  }

  function Last<T>(values: seq<T>): Option<T> {
    if values == [] then None else Some(values[|values| - 1])
  }

  const SETTINGS: set<Setting> := {
    Id, Title, Description, Output, Batch, Authorize, ErrorHandler, Cache, Timeout, Retry, Throttle,
    CircuitBreaker, Concurrency, Delay}

  /** The options a list of staging calls declares, each field from its own kind of call. */
  function Declared(staging: seq<Call>): Options {
    Options(
      map kind | kind in SETTINGS && !Stacks(kind) && Values(staging, kind) != []
        :: Values(staging, kind)[|Values(staging, kind)| - 1],
      map kind | kind in SETTINGS && Stacks(kind) && Values(staging, kind) != [] :: Values(staging, kind),
      Last(Inputs(staging)),
      if TagLists(staging) == [] then None else Some(AddTags([], AllTags(TagLists(staging)))))
  }

  /** The first-declared wrapper is outermost. */
  function Nest(wrappers: seq<Wrapper>, op: Operation): Step {
    if wrappers == [] then Plain(op) else Wrapped(wrappers[0], Nest(wrappers[1..], op))
  }

  function Steps(body: seq<Item>): seq<Step> {
    seq(|body|, i requires 0 <= i < |body| => Nest(body[i].wrappers, body[i].op))
  }

  function Meaning(g: Segment): Route {
    Route(Declared(g.staging), g.sources, Steps(g.body))
  }

  function Meanings(segments: seq<Segment>): seq<Route> {
    seq(|segments|, i requires 0 <= i < |segments| => Meaning(segments[i]))
  }

  predicate IsStaging(call: Call) {
    || (call.Set? && call.kind != Delay)
    || call.Input?
    || (call.Tag? && Blank !in call.tags)
  }

  /** Staging calls that may open a route: after an earlier route, a dual-mode call would wrap a step instead. */
  predicate StagingWellFormed(staging: seq<Call>, first: bool) {
    && (forall call | call in staging :: IsStaging(call))
    && (first || staging == [] || !(staging[0].Set? && IsDual(staging[0].kind)))
    && |Inputs(staging)| <= 1
    && |Values(staging, Output)| <= 1
  }

  predicate ItemWellFormed(item: Item) {
    && (forall w | w in item.wrappers :: w.kind == Delay || IsDual(w.kind))
    && (item.wrappers == [] || Wrappable(item.op))
  }

  predicate SegmentWellFormed(g: Segment, first: bool) {
    && StagingWellFormed(g.staging, first)
    && g.sources != []
    && (|g.sources| > 1 ==> exists schema :: schema in Inputs(g.staging) && schema.hasBody)
    && forall item | item in g.body :: ItemWellFormed(item)
  }

  predicate WellFormed(segments: seq<Segment>) {
    forall i | 0 <= i < |segments| :: SegmentWellFormed(segments[i], i == 0)
  }

  /** A route that caches its result has no suspend, and every split matched by an aggregate of its own further down. */
  ghost predicate CachesOneResult(g: Segment) {
    var ops := Operations(Steps(g.body));
    Values(g.staging, Cache) != [] ==> Suspend !in ops && SplitsMatched(ops)
  }

  /** Before every suspend, every split has been matched by an aggregate of its own. */
  ghost predicate SuspendsOnMainFlow(g: Segment) {
    var ops := Operations(Steps(g.body));
    forall i | 0 <= i < |ops| && ops[i] == Suspend :: SplitsMatched(ops[..i])
  }

  ghost predicate Buildable(segments: seq<Segment>) {
    forall g | g in segments :: SuspendsOnMainFlow(g) && CachesOneResult(g)
  }

  // ----- staging call by call gives what the calls declare -----

  lemma TailOfAppend<T>(s: seq<T>, x: T)
    requires s != []
    ensures (s + [x])[0] == s[0] && (s + [x])[1..] == s[1..] + [x]
  {
  }

  lemma ConsAppend<T>(middle: seq<T>, first: T, last: T)
    ensures [first] + (middle + [last]) == [first] + middle + [last]
  {
  }

  lemma {:induction false} ValuesAppend(calls: seq<Call>, call: Call, kind: Setting)
    ensures Values(calls + [call], kind) ==
              if call.Set? && call.kind == kind then Values(calls, kind) + [call.value] else Values(calls, kind)
  {
    if calls == [] {
      assert [call][1..] == [] && [] + [call] == [call];
    } else {
      TailOfAppend(calls, call);
      ValuesAppend(calls[1..], call, kind);
      ConsAppend(Values(calls[1..], kind), if calls[0].Set? then calls[0].value else 0,
          if call.Set? then call.value else 0);
    }
  }

  lemma {:induction false} InputsAppend(calls: seq<Call>, call: Call)
    ensures Inputs(calls + [call]) == if call.Input? then Inputs(calls) + [call.schema] else Inputs(calls)
  {
    if calls == [] {
      assert [call][1..] == [] && [] + [call] == [call];
    } else {
      TailOfAppend(calls, call);
      InputsAppend(calls[1..], call);
      ConsAppend(Inputs(calls[1..]), if calls[0].Input? then calls[0].schema else Schema(0, false),
          if call.Input? then call.schema else Schema(0, false));
    }
  }

  lemma {:induction false} TagListsAppend(calls: seq<Call>, call: Call)
    ensures TagLists(calls + [call]) == if call.Tag? then TagLists(calls) + [call.tags] else TagLists(calls)
  {
    if calls == [] {
      assert [call][1..] == [] && [] + [call] == [call];
    } else {
      TailOfAppend(calls, call);
      TagListsAppend(calls[1..], call);
      ConsAppend(TagLists(calls[1..]), if calls[0].Tag? then calls[0].tags else [],
          if call.Tag? then call.tags else []);
    }
  }

  lemma {:induction false} AllTagsAppend(lists: seq<seq<TagValue>>, tags: seq<TagValue>)
    ensures AllTags(lists + [tags]) == AllTags(lists) + tags
  {
    if lists == [] {
      assert [tags][1..] == [];
      assert AllTags([tags]) == tags + AllTags([]);
    } else {
      assert (lists + [tags])[1..] == lists[1..] + [tags];
      AllTagsAppend(lists[1..], tags);
    }
  }

  lemma {:induction false} AddTagsAppend(tags: seq<nat>, a: seq<TagValue>, b: seq<TagValue>)
    ensures AddTags(tags, a + b) == AddTags(AddTags(tags, a), b)
    decreases |a|
  {
    if a == [] {
      assert a + b == b;
    } else {
      assert (a + b)[1..] == a[1..] + b;
      AddTagsAppend(if a[0].Named? && a[0].id !in tags then tags + [a[0].id] else tags, a[1..], b);
    }
  }

  /** `.tag()` accumulates: no tag twice, none lost, none invented. */
  lemma {:induction false} AddTagsContents(tags: seq<nat>, more: seq<TagValue>)
    requires forall i, j | 0 <= i < j < |tags| :: tags[i] != tags[j]
    ensures var r := AddTags(tags, more);
            && (forall i, j | 0 <= i < j < |r| :: r[i] != r[j])
            && tags <= r
            && forall t :: t in r <==> t in tags || Named(t) in more
    decreases |more|
  {
    if more != [] {
      AddTagsContents(if more[0].Named? && more[0].id !in tags then tags + [more[0].id] else tags, more[1..]);
    }
  }

  /** Once per route for `.input()` and `.output()`, no blank tag. */
  predicate MayFollow(pre: seq<Call>, call: Call) {
    && (call.Input? ==> Inputs(pre) == [])
    && (call.Set? && call.kind == Output ==> Values(pre, Output) == [])
    && (call.Tag? ==> Blank !in call.tags)
  }

  lemma {:induction false} StageTag(lists: seq<seq<TagValue>>, tags: seq<TagValue>)
    ensures AddTags(AddTags([], AllTags(lists)), tags) == AddTags([], AllTags(lists + [tags]))
  {
    AllTagsAppend(lists, tags);
    AddTagsAppend([], AllTags(lists), tags);
  }

  lemma DeclaredAt(staging: seq<Call>, kind: Setting)
    ensures kind in Declared(staging).single <==> !Stacks(kind) && Values(staging, kind) != []
    ensures kind in Declared(staging).single ==>
              Declared(staging).single[kind] == Values(staging, kind)[|Values(staging, kind)| - 1]
    ensures kind in Declared(staging).stacked <==> Stacks(kind) && Values(staging, kind) != []
    ensures kind in Declared(staging).stacked ==> Declared(staging).stacked[kind] == Values(staging, kind)
  {
  }

  ghost predicate NextSingleAt(o: Options, o': Options, call: Call, k: Setting) {
    var given := call.Set? && k == call.kind && !Stacks(k);
    && (k in o'.single <==> k in o.single || given)
    && (k in o'.single ==> o'.single[k] == if given then call.value else o.single[k])
  }

  ghost predicate NextStackAt(o: Options, o': Options, call: Call, k: Setting) {
    var given := call.Set? && k == call.kind && Stacks(k);
    && (k in o'.stacked <==> k in o.stacked || given)
    && StackAt(o', k) == (if given then StackAt(o, k) + [call.value] else StackAt(o, k))
  }

  /** At key `k`, `o'` is `o` after one more call. */
  ghost predicate NextAt(o: Options, o': Options, call: Call, k: Setting) {
    NextSingleAt(o, o', call, k) && NextStackAt(o, o', call, k)
  }

  lemma DeclaredNextSingleAt(pre: seq<Call>, call: Call, k: Setting)
    ensures NextSingleAt(Declared(pre), Declared(pre + [call]), call, k)
  {
    ValuesAppend(pre, call, k);
    DeclaredAt(pre, k);
    DeclaredAt(pre + [call], k);
  }

  lemma DeclaredNextStackAt(pre: seq<Call>, call: Call, k: Setting)
    ensures NextStackAt(Declared(pre), Declared(pre + [call]), call, k)
  {
    ValuesAppend(pre, call, k);
    DeclaredAt(pre, k);
    DeclaredAt(pre + [call], k);
  }

  lemma DeclaredNextAt(pre: seq<Call>, call: Call, k: Setting)
    ensures NextAt(Declared(pre), Declared(pre + [call]), call, k)
  {
    DeclaredNextSingleAt(pre, call, k);
    DeclaredNextStackAt(pre, call, k);
  }

  lemma NextSetting(o: Options, o': Options, kind: Setting, v: nat)
    requires forall k :: NextAt(o, o', Set(kind, v), k)
    requires o'.input == o.input && o'.tags == o.tags
    requires kind == Output ==> Output !in o.single
    ensures Stage(o, Set(kind, v)) == Ok(o')
  {
    var single := if Stacks(kind) then o.single else o.single[kind := v];
    var stacked := if Stacks(kind) then o.stacked[kind := StackAt(o, kind) + [v]] else o.stacked;
    forall k ensures (k in single <==> k in o'.single) && (k in single ==> single[k] == o'.single[k])
             ensures (k in stacked <==> k in o'.stacked) && (k in stacked ==> stacked[k] == o'.stacked[k])
    {
      assert NextAt(o, o', Set(kind, v), k);
      assert k in o'.stacked ==> StackAt(o', k) == o'.stacked[k];
    }
    assert single == o'.single && stacked == o'.stacked;
  }

  lemma NextOther(o: Options, o': Options, call: Call)
    requires !call.Set? && forall k :: NextAt(o, o', call, k)
    ensures o'.single == o.single && o'.stacked == o.stacked
  {
    forall k ensures (k in o.single <==> k in o'.single) && (k in o.single ==> o.single[k] == o'.single[k])
             ensures (k in o.stacked <==> k in o'.stacked) && (k in o.stacked ==> o.stacked[k] == o'.stacked[k])
    {
      assert NextAt(o, o', call, k);
      assert k in o'.stacked ==> StackAt(o', k) == o'.stacked[k];
    }
    assert o.single == o'.single && o.stacked == o'.stacked;
  }

  lemma DeclaredNext(pre: seq<Call>, call: Call)
    ensures forall k :: NextAt(Declared(pre), Declared(pre + [call]), call, k)
  {
    forall k ensures NextAt(Declared(pre), Declared(pre + [call]), call, k) {
      DeclaredNextAt(pre, call, k);
    }
  }

  lemma DeclaredOthers(pre: seq<Call>, call: Call)
    ensures Declared(pre + [call]).input == if call.Input? then Some(call.schema) else Declared(pre).input
    ensures Declared(pre + [call]).tags ==
              if call.Tag? then Some(AddTags(Declared(pre).tags.GetOr([]), call.tags)) else Declared(pre).tags
  {
    InputsAppend(pre, call);
    TagListsAppend(pre, call);
    if call.Tag? {
      StageTag(TagLists(pre), call.tags);
    }
  }

  lemma StageSetting(pre: seq<Call>, kind: Setting, v: nat)
    requires kind == Output ==> Values(pre, Output) == []
    ensures Stage(Declared(pre), Set(kind, v)) == Ok(Declared(pre + [Set(kind, v)]))
  {
    DeclaredNext(pre, Set(kind, v));
    DeclaredOthers(pre, Set(kind, v));
    DeclaredAt(pre, Output);
    NextSetting(Declared(pre), Declared(pre + [Set(kind, v)]), kind, v);
  }

  lemma StageOther(pre: seq<Call>, call: Call)
    requires call.Input? || call.Tag?
    requires MayFollow(pre, call)
    ensures Stage(Declared(pre), call) == Ok(Declared(pre + [call]))
  {
    DeclaredNext(pre, call);
    DeclaredOthers(pre, call);
    NextOther(Declared(pre), Declared(pre + [call]), call);
  }

  /** Staging one more call on what the earlier ones declare gives what all of them declare. */
  lemma StageDeclared(pre: seq<Call>, call: Call)
    requires call.Input? || call.Tag? || (call.Set? && call.kind != Delay)
    ensures Stage(Declared(pre), call) == if MayFollow(pre, call) then Ok(Declared(pre + [call])) else Refused(RC2001)
  {
    if !MayFollow(pre, call) {
      DeclaredAt(pre, Output);
    } else if call.Set? {
      StageSetting(pre, call.kind, call.value);
    } else {
      StageOther(pre, call);
    }
  }

  function Staged(staging: seq<Call>): Option<Options> {
    if staging == [] then None else Some(Declared(staging))
  }

  // ----- running a chain -----

  lemma {:induction false} RunAppend(s: State, a: seq<Call>, b: seq<Call>)
    ensures Run(s, a + b) == match Run(s, a) case Ok(s') => Run(s', b) case Refused(code) => Refused(code)
    decreases |a|
  {
    if a == [] {
      assert a + b == b;
    } else {
      assert (a + b)[1..] == a[1..] + b;
      match Apply(s, a[0])
      case Ok(s') => RunAppend(s', a[1..], b);
      case Refused(_) =>
    }
  }

  lemma {:induction false} FoldIsNest(wrappers: seq<Wrapper>, outer: seq<Wrapper>, op: Operation)
    ensures Fold(outer, Nest(wrappers, op)) == Nest(outer + wrappers, op)
    decreases |outer|
  {
    if outer == [] {
      assert outer + wrappers == wrappers;
    } else {
      var w := outer[|outer| - 1];
      assert ([w] + wrappers)[1..] == wrappers;
      assert outer + wrappers == outer[..|outer| - 1] + ([w] + wrappers);
      FoldIsNest([w] + wrappers, outer[..|outer| - 1], op);
    }
  }

  /** The descending fold leaves the first-declared wrapper outermost. */
  lemma FirstDeclaredOutermost(wrappers: seq<Wrapper>, op: Operation)
    ensures Fold(wrappers, Plain(op)) == Nest(wrappers, op)
  {
    FoldIsNest([], wrappers, op);
    assert wrappers + [] == wrappers;
  }

  /** How many wrappers a step has, and the `k`th from the outside. */
  function Layers(step: Step): nat {
    if step.Plain? then 0 else 1 + Layers(step.inner)
  }

  function Layer(step: Step, k: nat): Wrapper
    requires k < Layers(step)
  {
    if k == 0 then step.wrapper else Layer(step.inner, k - 1)
  }

  /** A wrapped step has its wrappers in the order they were declared, from the outside in, and keeps its operation. */
  lemma {:induction false} LayersInOrder(wrappers: seq<Wrapper>, op: Operation)
    ensures Layers(Nest(wrappers, op)) == |wrappers|
    ensures forall k | 0 <= k < |wrappers| :: Layer(Nest(wrappers, op), k) == wrappers[k]
    ensures Nest(wrappers, op).Operation() == op
  {
    if wrappers != [] {
      LayersInOrder(wrappers[1..], op);
      forall k | 0 <= k < |wrappers| ensures Layer(Nest(wrappers, op), k) == wrappers[k] {
        if k > 0 { assert wrappers[1..][k - 1] == wrappers[k]; }
      }
    }
  }

  // ----- call by call, in so many words -----

  /** A dual-mode call wraps the next step on a route with nothing staged; `.delay()` always does; the others never do. */
  lemma WhatASettingDoes(s: State, kind: Setting, v: nat)
    ensures kind == Delay ==> Apply(s, Set(kind, v)) == Ok(s.(wrappers := s.wrappers + [Wrapper(kind, v)]))
    ensures kind in {ErrorHandler, Cache, Timeout, Retry, Throttle, CircuitBreaker, Concurrency} ==>
              (s.routes != [] && s.pending == None ==>
                 Apply(s, Set(kind, v)) == Ok(s.(wrappers := s.wrappers + [Wrapper(kind, v)])))
              && (s.routes == [] || s.pending != None ==>
                    Apply(s, Set(kind, v)).Ok? && Apply(s, Set(kind, v)).value.pending != None)
    ensures kind in {Id, Title, Description, Output, Batch, Authorize} ==>
              (Apply(s, Set(kind, v)).Refused? <==>
                 (kind == Id && s.wrappers != [])
                 || (kind == Output && s.pending != None && Output in s.pending.value.single))
              && (Apply(s, Set(kind, v)).Refused? ==> Apply(s, Set(kind, v)).code == RC2001)
              && (Apply(s, Set(kind, v)).Ok? ==> Apply(s, Set(kind, v)).value.pending != None)
    ensures Apply(s, Set(kind, v)).Ok? ==> Apply(s, Set(kind, v)).value.routes == s.routes
  {
  }

  /** `.input()` once per route, and tags that are not blank. */
  lemma WhatMetadataDoes(s: State, schema: Schema, tags: seq<TagValue>)
    ensures Apply(s, Input(schema)).Refused? <==> exists o, earlier :: s.pending == Some(o) && o.input == Some(earlier)
    ensures Apply(s, Tag(tags)).Refused? <==> exists k | 0 <= k < |tags| :: tags[k] == Blank
    ensures Apply(s, Input(schema)).Ok? ==>
              var s' := Apply(s, Input(schema)).value;
              s'.pending != None && s'.pending.value.input == Some(schema) && s'.routes == s.routes
    ensures forall call | (call == Input(schema) || call == Tag(tags)) && Apply(s, call).Refused? ::
              Apply(s, call).code == RC2001
  {
    if s.pending.Some? && s.pending.value.input.Some? {
      assert s.pending == Some(s.pending.value) && s.pending.value.input == Some(s.pending.value.input.value);
    }
  }

  /** A step needs a route and no staged options, and only some operations can be wrapped. */
  lemma WhatAStepDoes(s: State, op: Operation)
    ensures Apply(s, Push(op)) == Refused(RC2002) <==> s.routes == []
    ensures Apply(s, Push(op)) == Refused(RC2001) <==> s.routes != [] && s.pending != None
    ensures Apply(s, Push(op)) == Refused(RC5003) <==>
            && s.routes != [] && s.pending == None && s.wrappers != []
            && (op == Split || op == Aggregate || op == Debounce || op == Suspend)
    ensures Apply(s, Push(op)).Refused? ==> Apply(s, Push(op)).code in {RC2001, RC2002, RC5003}
  {
  }

  /** A route needs a source and no wrapper waiting; several sources need one input body schema. */
  lemma WhatASourceDoes(s: State, sources: seq<nat>)
    ensures Apply(s, From(sources)).Refused? <==>
            || s.wrappers != [] || |sources| == 0
            || (|sources| > 1 && forall o, schema | s.pending == Some(o) && o.input == Some(schema) :: !schema.hasBody)
    ensures Apply(s, From(sources)).Refused? ==> Apply(s, From(sources)).code == RC2001
    ensures Apply(s, From(sources)).Ok? ==>
              var s' := Apply(s, From(sources)).value;
              && s'.pending == None && s'.wrappers == [] && |s'.routes| == |s.routes| + 1
              && s'.routes[..|s.routes|] == s.routes
              && s'.routes[|s.routes|].sources == sources && s'.routes[|s.routes|].steps == []
  {
  }

  /** `Values` lists what the calls of one kind give, in order. */
  lemma {:induction false} ValuesInOrder(a: seq<Call>, call: Call, b: seq<Call>, kind: Setting)
    ensures Values(a + [call] + b, kind)
            == Values(a, kind) + (if call.Set? && call.kind == kind then [call.value] else []) + Values(b, kind)
    decreases |a|
  {
    var all := a + [call] + b;
    if a == [] {
      assert all[0] == call && all[1..] == b;
    } else {
      assert all[0] == a[0] && all[1..] == a[1..] + [call] + b;
      ValuesInOrder(a[1..], call, b, kind);
    }
  }

  /** A chain is refused by the first call that is, or by `build()`, and with that one's code. */
  lemma {:induction false} RefusedBy(s: State, calls: seq<Call>, code: Code)
    ensures Run(s, calls) == Refused(code) <==>
            exists n | 0 <= n < |calls| :: Run(s, calls[..n]).Ok? && Apply(Run(s, calls[..n]).value, calls[n]) == Refused(code)
    decreases |calls|
  {
    if calls != [] {
      var n := |calls| - 1;
      var front := calls[..n];
      assert calls == front + [calls[n]];
      RunAppend(s, front, [calls[n]]);
      RefusedBy(s, front, code);
      RunOne(s, front, calls[n]);
      forall k | 0 <= k < n ensures front[..k] == calls[..k] && front[k] == calls[k] {
      }
    }
  }

  lemma RunOne(s: State, front: seq<Call>, call: Call)
    requires Run(s, front + [call]) == match Run(s, front) case Ok(s') => Run(s', [call]) case Refused(code) => Refused(code)
    ensures Run(s, front).Ok? ==> Run(s, front + [call]) == Apply(Run(s, front).value, call)
    ensures Run(s, front).Refused? ==> Run(s, front + [call]) == Refused(Run(s, front).code)
  {
    if Run(s, front).Ok? {
      assert [call][1..] == [];
    }
  }
}

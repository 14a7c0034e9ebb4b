/**
 * A chain of builder calls and its reading as segments, both ways: running the
 * calls of well-formed segments gives the routes they describe, and whatever chain
 * the builder accepts so far reads as segments, with the staging calls and wrappers
 * that wait at its end left over.
 */
module RouteReading {
  import opened Basics
  import opened SplitBalance
  import opened RouteCalls

  // ----- every well-formed chain is accepted, with its meaning -----

  lemma {:induction false} PrefixCounts(a: seq<Call>, b: seq<Call>, kind: Setting)
    ensures |Inputs(a)| <= |Inputs(a + b)| && |Values(a, kind)| <= |Values(a + b, kind)|
  {
    if a != [] {
      assert (a + b)[1..] == a[1..] + b;
      PrefixCounts(a[1..], b, kind);
    }
  }

  lemma StagingMayFollow(pre: seq<Call>, call: Call, rest: seq<Call>, first: bool)
    requires StagingWellFormed(pre + [call] + rest, first)
    ensures IsStaging(call) && MayFollow(pre, call)
    ensures pre == [] ==> first || !(call.Set? && IsDual(call.kind))
  {
    var all := pre + [call] + rest;
    assert all[|pre|] == call && call in all;
    PrefixCounts(pre + [call], rest, Output);
    InputsAppend(pre, call);
    ValuesAppend(pre, call, Output);
  }

  lemma ApplyStaging(s: State, pre: seq<Call>, call: Call)
    requires s.pending == Staged(pre) && s.wrappers == []
    requires IsStaging(call) && MayFollow(pre, call)
    requires pre == [] ==> s.routes == [] || !(call.Set? && IsDual(call.kind))
    ensures Apply(s, call) == Ok(s.(pending := Staged(pre + [call])))
  {
    StageDeclared(pre, call);
  }

  lemma {:induction false} RunStaging(s: State, pre: seq<Call>, post: seq<Call>)
    requires s.pending == Staged(pre) && s.wrappers == []
    requires StagingWellFormed(pre + post, s.routes == [])
    ensures Run(s, post) == Ok(s.(pending := Staged(pre + post)))
    decreases |post|
  {
    if post == [] {
      assert pre + post == pre;
    } else {
      var call, rest := post[0], post[1..];
      assert pre + post == pre + [call] + rest;
      StagingMayFollow(pre, call, rest, s.routes == []);
      ApplyStaging(s, pre, call);
      RunStaging(s.(pending := Staged(pre + [call])), pre + [call], rest);
    }
  }

  lemma {:induction false} RunWrappers(s: State, wrappers: seq<Wrapper>)
    requires s.pending.None? && s.routes != []
    requires forall w | w in wrappers :: w.kind == Delay || IsDual(w.kind)
    ensures Run(s, WrapperCalls(wrappers)) == Ok(s.(wrappers := s.wrappers + wrappers))
    decreases |wrappers|
  {
    if wrappers == [] {
      assert s.wrappers + wrappers == s.wrappers;
    } else {
      var w := wrappers[0];
      assert WrapperCalls(wrappers)[1..] == WrapperCalls(wrappers[1..]);
      RunWrappers(s.(wrappers := s.wrappers + [w]), wrappers[1..]);
      assert s.wrappers + [w] + wrappers[1..] == s.wrappers + wrappers;
    }
  }

  function WithSteps(routes: seq<Route>, steps: seq<Step>): seq<Route>
    requires routes != []
  {
    var last := routes[|routes| - 1];
    routes[|routes| - 1 := last.(steps := last.steps + steps)]
  }

  lemma WithStepsTwice(routes: seq<Route>, a: seq<Step>, b: seq<Step>)
    requires routes != []
    ensures WithSteps(WithSteps(routes, a), b) == WithSteps(routes, a + b)
    ensures WithSteps(routes, []) == routes
  {
    var last := routes[|routes| - 1];
    assert last.steps + a + b == last.steps + (a + b);
    assert last.steps + [] == last.steps;
  }

  lemma RunItem(s: State, item: Item)
    requires s.pending.None? && s.wrappers == [] && s.routes != [] && ItemWellFormed(item)
    ensures Run(s, WrapperCalls(item.wrappers) + [Push(item.op)])
         == Ok(State(None, WithSteps(s.routes, [Nest(item.wrappers, item.op)]), []))
  {
    RunWrappers(s, item.wrappers);
    assert s.wrappers + item.wrappers == item.wrappers;
    RunAppend(s, WrapperCalls(item.wrappers), [Push(item.op)]);
    PushAccepted(s.(wrappers := item.wrappers), item.op);
  }

  lemma PushAccepted(s: State, op: Operation)
    requires s.routes != [] && s.pending.None? && (s.wrappers == [] || Wrappable(op))
    ensures Run(s, [Push(op)]) == Ok(State(None, WithSteps(s.routes, [Nest(s.wrappers, op)]), []))
  {
    FirstDeclaredOutermost(s.wrappers, op);
  }

  lemma {:induction false} RunBody(s: State, body: seq<Item>)
    requires s.pending.None? && s.wrappers == [] && s.routes != []
    requires forall item | item in body :: ItemWellFormed(item)
    ensures Run(s, BodyCalls(body)) == Ok(State(None, WithSteps(s.routes, Steps(body)), []))
    decreases |body|
  {
    if body == [] {
      WithStepsTwice(s.routes, [], []);
    } else {
      var item := body[0];
      RunItem(s, item);
      RunAppend(s, WrapperCalls(item.wrappers) + [Push(item.op)], BodyCalls(body[1..]));
      var s' := State(None, WithSteps(s.routes, [Nest(item.wrappers, item.op)]), []);
      RunBody(s', body[1..]);
      WithStepsTwice(s.routes, [Nest(item.wrappers, item.op)], Steps(body[1..]));
      assert Steps(body) == [Nest(item.wrappers, item.op)] + Steps(body[1..]);
    }
  }

  lemma RunFrom(s: State, staging: seq<Call>, sources: seq<nat>)
    requires s.pending == Staged(staging) && s.wrappers == [] && |Inputs(staging)| <= 1
    ensures Apply(s, From(sources)) ==
              if sources != [] && (|sources| > 1 ==> exists schema :: schema in Inputs(staging) && schema.hasBody)
              then Ok(State(None, s.routes + [Route(Declared(staging), sources, [])], []))
              else Refused(RC2001)
  {
  }

  lemma RunSegment(s: State, g: Segment)
    requires s.pending.None? && s.wrappers == [] && SegmentWellFormed(g, s.routes == [])
    ensures Run(s, SegmentCalls(g)) == Ok(State(None, s.routes + [Meaning(g)], []))
  {
    assert [] + g.staging == g.staging;
    RunStaging(s, [], g.staging);
    var s1 := s.(pending := Staged(g.staging));
    RunFrom(s1, g.staging, g.sources);
    var s2 := State(None, s.routes + [Route(Declared(g.staging), g.sources, [])], []);
    RunBody(s2, g.body);
    RunAppend(s, g.staging, [From(g.sources)]);
    RunAppend(s, g.staging + [From(g.sources)], BodyCalls(g.body));
    assert WithSteps(s2.routes, Steps(g.body)) == s.routes + [Meaning(g)] by {
      assert [] + Steps(g.body) == Steps(g.body);
    }
  }

  lemma {:induction false} RunSegments(s: State, segments: seq<Segment>)
    requires s.pending.None? && s.wrappers == []
    requires forall i | 0 <= i < |segments| :: SegmentWellFormed(segments[i], i == 0 && s.routes == [])
    ensures Run(s, Calls(segments)) == Ok(State(None, s.routes + Meanings(segments), []))
    decreases |segments|
  {
    if segments == [] {
      assert s.routes + Meanings(segments) == s.routes;
    } else {
      var g := segments[0];
      RunSegment(s, g);
      RunAppend(s, SegmentCalls(g), Calls(segments[1..]));
      RunSegments(State(None, s.routes + [Meaning(g)], []), segments[1..]);
      assert s.routes + [Meaning(g)] + Meanings(segments[1..]) == s.routes + Meanings(segments);
    }
  }

  // ----- every accepted chain is well-formed -----

  /** A wrapper is staged where no step can follow it any more: the chain can only be refused. */
  predicate Doomed(s: State) {
    s.wrappers != [] && (s.pending.Some? || s.routes == [])
  }

  /** A reading of the calls so far: whole segments, then either staging calls or staged wrappers. */
  ghost predicate Reads(calls: seq<Call>, s: State, segments: seq<Segment>, staging: seq<Call>,
      wrappers: seq<Wrapper>) {
    && calls == Calls(segments) + staging + WrapperCalls(wrappers)
    && WellFormed(segments)
    && StagingWellFormed(staging, segments == [])
    && s == State(Staged(staging), Meanings(segments), wrappers)
    && (wrappers != [] ==> staging == [] && segments != [])
    && (forall w | w in wrappers :: w.kind == Delay || IsDual(w.kind))
  }

  lemma StagingGrows(staging: seq<Call>, call: Call, first: bool)
    requires StagingWellFormed(staging, first) && IsStaging(call) && MayFollow(staging, call)
    requires staging == [] ==> first || !(call.Set? && IsDual(call.kind))
    ensures StagingWellFormed(staging + [call], first)
  {
    InputsAppend(staging, call);
    ValuesAppend(staging, call, Output);
  }

  lemma AppliedStaging(s: State, staging: seq<Call>, call: Call)
    requires s.pending == Staged(staging) && s.wrappers == [] && !StagesWrapper(s, call)
    requires !call.From? && !call.Push? && Apply(s, call).Ok?
    ensures IsStaging(call) && MayFollow(staging, call)
    ensures Apply(s, call).value == s.(pending := Staged(staging + [call]))
  {
    StageDeclared(staging, call);
  }

  lemma ReadStaging(calls: seq<Call>, s: State, segments: seq<Segment>, staging: seq<Call>, call: Call)
    requires Reads(calls, s, segments, staging, []) && !StagesWrapper(s, call)
    requires !call.From? && !call.Push? && Apply(s, call).Ok?
    ensures Reads(calls + [call], Apply(s, call).value, segments, staging + [call], [])
  {
    AppliedStaging(s, staging, call);
    StagingGrows(staging, call, segments == []);
  }

  lemma {:induction false} CallsAppend(segments: seq<Segment>, g: Segment)
    ensures Calls(segments + [g]) == Calls(segments) + SegmentCalls(g)
  {
    if segments == [] {
      assert segments + [g] == [g] && [g][1..] == [];
      assert Calls([g]) == SegmentCalls(g) + Calls([]);
    } else {
      TailOfAppend(segments, g);
      CallsAppend(segments[1..], g);
    }
  }

  lemma MeaningsAppend(segments: seq<Segment>, g: Segment)
    ensures Meanings(segments + [g]) == Meanings(segments) + [Meaning(g)]
  {
  }

  lemma ReadFrom(calls: seq<Call>, s: State, segments: seq<Segment>, staging: seq<Call>, sources: seq<nat>)
    requires Reads(calls, s, segments, staging, []) && Apply(s, From(sources)).Ok?
    ensures Reads(calls + [From(sources)], Apply(s, From(sources)).value, segments + [Segment(staging, sources, [])],
        [], [])
  {
    var g := Segment(staging, sources, []);
    RunFrom(s, staging, sources);
    CallsAppend(segments, g);
    MeaningsAppend(segments, g);
    assert Steps([]) == [];
    assert SegmentCalls(g) == staging + [From(sources)];
    assert calls + [From(sources)] == Calls(segments + [g]) + [] + [];
  }

  lemma {:induction false} BodyCallsAppend(body: seq<Item>, item: Item)
    ensures BodyCalls(body + [item]) == BodyCalls(body) + WrapperCalls(item.wrappers) + [Push(item.op)]
  {
    if body == [] {
      assert body + [item] == [item] && [item][1..] == [];
      assert BodyCalls([item]) == WrapperCalls(item.wrappers) + [Push(item.op)] + BodyCalls([]);
    } else {
      TailOfAppend(body, item);
      BodyCallsAppend(body[1..], item);
    }
  }

  lemma ReadPush(calls: seq<Call>, s: State, segments: seq<Segment>, wrappers: seq<Wrapper>, op: Operation)
      returns (segments': seq<Segment>)
    requires Reads(calls, s, segments, [], wrappers) && Apply(s, Push(op)).Ok?
    ensures Reads(calls + [Push(op)], Apply(s, Push(op)).value, segments', [], [])
  {
    var n, item := |segments| - 1, Item(wrappers, op);
    var g := segments[n];
    segments' := segments[n := g.(body := g.body + [item])];
    ReadPushCalls(calls, segments, item);
    NothingStaged(Calls(segments'));
    PushedMeaning(segments, segments', item);
    AppliedPush(s, wrappers, op);
  }

  lemma AppliedPush(s: State, wrappers: seq<Wrapper>, op: Operation)
    requires s.wrappers == wrappers && Apply(s, Push(op)).Ok?
    ensures s.routes != [] && s.pending.None? && (wrappers == [] || Wrappable(op))
    ensures Apply(s, Push(op)).value == State(None, WithSteps(s.routes, [Nest(wrappers, op)]), [])
  {
    FirstDeclaredOutermost(wrappers, op);
  }

  lemma ReadPushCalls(calls: seq<Call>, segments: seq<Segment>, item: Item)
    requires calls == Calls(segments) + [] + WrapperCalls(item.wrappers) && segments != []
    ensures var n := |segments| - 1;
            calls + [Push(item.op)] == Calls(segments[n := segments[n].(body := segments[n].body + [item])])
  {
    var n := |segments| - 1;
    var g := segments[n];
    PushedCalls(segments[..n], g, item);
    LastReplaced(segments, g.(body := g.body + [item]));
    NothingStaged(Calls(segments));
  }

  lemma LastReplaced(segments: seq<Segment>, g: Segment)
    requires segments != []
    ensures segments == segments[..|segments| - 1] + [segments[|segments| - 1]]
    ensures segments[|segments| - 1 := g] == segments[..|segments| - 1] + [g]
  {
  }

  lemma NothingStaged(calls: seq<Call>)
    ensures calls + [] == calls && calls == calls + [] + WrapperCalls([])
  {
    assert WrapperCalls([]) == [];
  }

  lemma PushedSegmentCalls(g: Segment, item: Item)
    ensures SegmentCalls(g.(body := g.body + [item])) == SegmentCalls(g) + WrapperCalls(item.wrappers) + [Push(item.op)]
  {
    BodyCallsAppend(g.body, item);
    RegroupFour(g.staging + [From(g.sources)], BodyCalls(g.body), WrapperCalls(item.wrappers), [Push(item.op)]);
  }

  lemma PushedCalls(init: seq<Segment>, g: Segment, item: Item)
    ensures Calls(init + [g.(body := g.body + [item])]) == Calls(init + [g]) + WrapperCalls(item.wrappers) + [Push(item.op)]
  {
    PushedSegmentCalls(g, item);
    CallsAppend(init, g);
    CallsAppend(init, g.(body := g.body + [item]));
    RegroupFour(Calls(init), SegmentCalls(g), WrapperCalls(item.wrappers), [Push(item.op)]);
  }

  lemma PushedMeaning(segments: seq<Segment>, segments': seq<Segment>, item: Item)
    requires segments != [] && |segments'| == |segments|
    requires segments' == segments[|segments| - 1 := segments[|segments| - 1].(body := segments[|segments| - 1].body + [item])]
    ensures Meanings(segments') == WithSteps(Meanings(segments), [Nest(item.wrappers, item.op)])
  {
    var g := segments[|segments| - 1];
    assert Steps(g.body + [item]) == Steps(g.body) + [Nest(item.wrappers, item.op)];
  }

  /** A chain that has not been refused, nor doomed, reads as segments in just one way for the builder's state. */
  lemma {:induction false} Reading(calls: seq<Call>, s: State)
      returns (segments: seq<Segment>, staging: seq<Call>, wrappers: seq<Wrapper>)
    requires Run(START, calls) == Ok(s) && !Doomed(s)
    ensures Reads(calls, s, segments, staging, wrappers)
    decreases |calls|
  {
    if calls == [] {
      segments, staging, wrappers := [], [], [];
    } else {
      var front, call := calls[..|calls| - 1], calls[|calls| - 1];
      assert calls == front + [call];
      RunAppend(START, front, [call]);
      var before := Run(START, front).value;
      segments, staging, wrappers := Reading(front, before);
      segments, staging, wrappers := ReadingStep(front, before, segments, staging, wrappers, call, s);
    }
  }

  lemma ReadingStep(calls: seq<Call>, s: State, segments: seq<Segment>, staging: seq<Call>, wrappers: seq<Wrapper>,
      call: Call, s': State)
      returns (segments': seq<Segment>, staging': seq<Call>, wrappers': seq<Wrapper>)
    requires Reads(calls, s, segments, staging, wrappers)
    requires Apply(s, call) == Ok(s') && !Doomed(s')
    ensures Reads(calls + [call], s', segments', staging', wrappers')
  {
    segments', staging', wrappers' := segments, [], [];
    if call.From? {
      ReadFrom(calls, s, segments, staging, call.sources);
      segments' := segments + [Segment(staging, call.sources, [])];
    } else if call.Push? {
      segments' := ReadPush(calls, s, segments, wrappers, call.op);
    } else if StagesWrapper(s, call) {
      wrappers' := wrappers + [Wrapper(call.kind, call.value)];
    } else {
      ReadStaging(calls, s, segments, staging, call);
      staging' := staging + [call];
    }
  }
}

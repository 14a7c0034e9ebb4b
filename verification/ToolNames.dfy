/** Provider-facing tool names: composing and splitting them, and saying what is wrong with one. */
module ToolNames {
  import opened Basics
  import opened JsText

  const UNDERSCORE: CodeUnit := '_' as int
  const HYPHEN: CodeUnit := '-' as int
  const SEPARATOR: JsString := [UNDERSCORE, UNDERSCORE]
  const MAX_LENGTH := 64

  // ----- splitting at the first separator -----

  predicate SeparatorAt(s: JsString, i: int) {
    0 <= i && i + 2 <= |s| && s[i] == UNDERSCORE && s[i + 1] == UNDERSCORE
  }

  predicate Includes(s: JsString) {
    exists i | 0 <= i < |s| :: SeparatorAt(s, i)
  }

  /** `indexOf("__")` */
  function FirstSeparator(s: JsString): (at: int)
    ensures at == -1 || SeparatorAt(s, at)
    ensures forall i | 0 <= i && (at == -1 || i < at) :: !SeparatorAt(s, i)
  {
    SearchFrom(s, 0)
  }

  function SearchFrom(s: JsString, i: nat): (at: int)
    ensures at == -1 || (i <= at && SeparatorAt(s, at))
    ensures forall k | i <= k && (at == -1 || k < at) :: !SeparatorAt(s, k)
    decreases |s| - i
  {
    if i + 2 > |s| then -1
    else if SeparatorAt(s, i) then i
    else SearchFrom(s, i + 1)
  }

  function Compose(head: JsString, tail: JsString): JsString {
    head + SEPARATOR + tail
  }

  /** What a reader that cuts at the first separator takes a name apart into. */
  function Split(name: JsString): Option<(JsString, JsString)> {
    var at := FirstSeparator(name);
    if at == -1 then None else Some((name[..at], name[at + 2..]))
  }

  predicate IsSplittableNameHead(segment: JsString) {
    segment != [] && !Includes(segment + [UNDERSCORE])
  }

  lemma ComposedSeparators(head: JsString, tail: JsString)
    ensures SeparatorAt(Compose(head, tail), |head|)
    ensures forall i | 0 <= i < |head| :: SeparatorAt(Compose(head, tail), i) <==> SeparatorAt(head + [UNDERSCORE], i)
  {
  }

  /** A splittable head is one after which every composed name has its first separator, whatever the tail. */
  lemma SplittableIff(head: JsString)
    requires head != []
    ensures IsSplittableNameHead(head) <==> forall tail :: FirstSeparator(Compose(head, tail)) == |head|
  {
    forall tail ensures FirstSeparator(Compose(head, tail)) == |head| <==> IsSplittableNameHead(head) {
      FirstInComposed(head, tail);
    }
    assert FirstSeparator(Compose(head, [])) == |head| <==> IsSplittableNameHead(head);
  }

  lemma FirstInComposed(head: JsString, tail: JsString)
    requires head != []
    ensures FirstSeparator(Compose(head, tail)) == |head| <==> IsSplittableNameHead(head)
  {
    ComposedSeparators(head, tail);
    var name := Compose(head, tail);
    var at := FirstSeparator(name);
    if IsSplittableNameHead(head) {
      forall i | 0 <= i < |head| ensures !SeparatorAt(name, i) {
        assert SeparatorAt(name, i) <==> SeparatorAt(head + [UNDERSCORE], i);
      }
      assert !(0 <= at < |head|);
    } else {
      var i :| 0 <= i < |head + [UNDERSCORE]| && SeparatorAt(head + [UNDERSCORE], i);
      assert SeparatorAt(name, i);
    }
  }

  /** Composing and splitting round-trips exactly for splittable heads. */
  lemma SplitUndoesComposeIff(head: JsString, tail: JsString)
    requires head != []
    ensures Split(Compose(head, tail)) == Some((head, tail)) <==> IsSplittableNameHead(head)
  {
    FirstInComposed(head, tail);
    var name := Compose(head, tail);
    assert name[..|head|] == head && name[|head| + 2..] == tail;
  }

  /** Two pairs with splittable heads never compose to one name. */
  lemma ComposeInjective(h1: JsString, t1: JsString, h2: JsString, t2: JsString)
    requires IsSplittableNameHead(h1) && IsSplittableNameHead(h2) && Compose(h1, t1) == Compose(h2, t2)
    ensures h1 == h2 && t1 == t2
  {
    SplitUndoesComposeIff(h1, t1);
    SplitUndoesComposeIff(h2, t2);
  }

  /** What a name splits into composes back to it, and its head, if there is any, is splittable. */
  lemma ComposeUndoesSplit(name: JsString)
    requires Split(name).Some?
    ensures Compose(Split(name).value.0, Split(name).value.1) == name
    ensures Split(name).value.0 != [] ==> IsSplittableNameHead(Split(name).value.0)
  {
    var at := FirstSeparator(name);
    var head, tail := name[..at], name[at + 2..];
    assert name == head + name[at..at + 2] + tail;
    assert name[at..at + 2] == SEPARATOR;
    if head != [] {
      SplitUndoesComposeIff(head, tail);
    }
  }

  /** A trailing underscore is not harmless: the pair is read back as another. */
  lemma TrailingUnderscoreCollides(h: JsString, t: JsString)
    requires IsSplittableNameHead(h)
    ensures Compose(h + [UNDERSCORE], t) == Compose(h, [UNDERSCORE] + t)
    ensures Split(Compose(h + [UNDERSCORE], t)) == Some((h, [UNDERSCORE] + t))
    ensures !IsSplittableNameHead(h + [UNDERSCORE])
  {
    SplitUndoesComposeIff(h, [UNDERSCORE] + t);
    assert Compose(h + [UNDERSCORE], t) == Compose(h, [UNDERSCORE] + t);
    SplitUndoesComposeIff(h + [UNDERSCORE], t);
  }

  // ----- validity -----

  /** `[A-Za-z0-9_-]` */
  predicate IsPermitted(u: CodeUnit) {
    || 'A' as int <= u <= 'Z' as int || 'a' as int <= u <= 'z' as int || '0' as int <= u <= '9' as int
    || u == UNDERSCORE || u == HYPHEN
  }

  predicate IsValidToolName(name: JsString) {
    1 <= |name| <= MAX_LENGTH && forall u | u in name :: IsPermitted(u)
  }

  predicate IsHigh(u: CodeUnit) {
    0xD800 <= u <= 0xDBFF
  }

  predicate IsLow(u: CodeUnit) {
    0xDC00 <= u <= 0xDFFF
  }

  /** `[...name]`: one string per code point, a surrogate pair kept together. */
  function CodePoints(name: JsString): seq<JsString> {
    if name == [] then []
    else if |name| >= 2 && IsHigh(name[0]) && IsLow(name[1]) then [name[..2]] + CodePoints(name[2..])
    else [name[..1]] + CodePoints(name[1..])
  }

  /** `TOOL_NAME_CHARACTER.test(c)`: some permitted character occurs in it. */
  predicate HasPermitted(c: JsString) {
    exists u | u in c :: IsPermitted(u)
  }

  function Offending(points: seq<JsString>): (r: seq<JsString>)
    ensures forall c :: c in r <==> c in points && !HasPermitted(c)
  {
    if points == [] then []
    else (if HasPermitted(points[0]) then [] else [points[0]]) + Offending(points[1..])
  }

  /** `[...new Set(points)]`: the first of each, in order. */
  function FirstOfEach(points: seq<JsString>): (r: seq<JsString>)
    ensures forall c :: c in r <==> c in points
    ensures Distinct(r)
  {
    if points == [] then []
    else
      var last := points[|points| - 1];
      var before := FirstOfEach(points[..|points| - 1]);
      assert points == points[..|points| - 1] + [last];
      if last in before then before else before + [last]
  }

  datatype Violation = Empty | TooLong(length: nat) | OutsideCharset(offending: seq<JsString>)

  function DescribeToolNameViolation(name: JsString): Option<Violation> {
    if |name| == 0 then Some(Empty)
    else if |name| > MAX_LENGTH then Some(TooLong(|name|))
    else if !(forall u | u in name :: IsPermitted(u)) then
      Some(OutsideCharset(FirstOfEach(Offending(CodePoints(name)))))
    else None
  }

  /** Nothing is said of a name exactly when the provider would take it. */
  lemma NoViolationIffValid(name: JsString)
    ensures DescribeToolNameViolation(name) == None <==> IsValidToolName(name)
  {
  }

  function Joined(points: seq<JsString>): JsString {
    if points == [] then [] else points[0] + Joined(points[1..])
  }

  /** Iterating by code point tears nothing apart and loses nothing. */
  lemma {:induction false} CodePointsJoin(name: JsString)
    ensures Joined(CodePoints(name)) == name
  {
    if name == [] {
    } else if |name| >= 2 && IsHigh(name[0]) && IsLow(name[1]) {
      CodePointsJoin(name[2..]);
      assert name == name[..2] + name[2..];
    } else {
      CodePointsJoin(name[1..]);
      assert name == name[..1] + name[1..];
    }
  }

  /** A high surrogate with a low one behind it. */
  predicate IsPair(a: CodeUnit, b: CodeUnit) {
    0xD800 <= a <= 0xDBFF && 0xDC00 <= b <= 0xDFFF
  }

  /** Each piece is one code unit or one surrogate pair. */
  predicate IsCodePoint(c: JsString) {
    |c| == 1 || (|c| == 2 && IsPair(c[0], c[1]))
  }

  /** Nowhere do two pieces part a pair. */
  ghost predicate PartsNoPair(points: seq<JsString>) {
    forall k | 0 <= k < |points| - 1 && |points[k]| == 1 && points[k + 1] != [] :: !IsPair(points[k][0], points[k + 1][0])
  }

  /** Iterating by code point keeps surrogate pairs together, and takes everything else by itself. */
  lemma {:induction false} PairsStayTogether(name: JsString)
    ensures forall c | c in CodePoints(name) :: IsCodePoint(c)
    ensures PartsNoPair(CodePoints(name))
    ensures name != [] ==> CodePoints(name) != [] && CodePoints(name)[0] != [] && CodePoints(name)[0][0] == name[0]
  {
    if name != [] {
      var first := if |name| >= 2 && IsHigh(name[0]) && IsLow(name[1]) then name[..2] else name[..1];
      var rest := CodePoints(name[|first|..]);
      PairsStayTogether(name[|first|..]);
      assert CodePoints(name) == [first] + rest;
      FirstPart(first, rest);
    }
  }

  lemma FirstPart(first: JsString, rest: seq<JsString>)
    requires first != [] && PartsNoPair(rest)
    requires |first| == 1 && rest != [] && rest[0] != [] ==> !IsPair(first[0], rest[0][0])
    ensures PartsNoPair([first] + rest)
  {
    var points := [first] + rest;
    forall k | 0 <= k < |points| - 1 && |points[k]| == 1 && points[k + 1] != []
      ensures !IsPair(points[k][0], points[k + 1][0])
    {
      if k > 0 {
        assert points[k] == rest[k - 1] && points[k + 1] == rest[k];
      }
    }
  }

  /** A code point of a name either is one permitted character or holds none. */
  lemma {:induction false} PermittedPoints(name: JsString, c: JsString)
    requires c in CodePoints(name)
    ensures HasPermitted(c) <==> |c| == 1 && IsPermitted(c[0])
    ensures c != [] && forall u | u in c :: u in name
  {
    if |name| >= 2 && IsHigh(name[0]) && IsLow(name[1]) {
      if c != name[..2] {
        PermittedPoints(name[2..], c);
      }
    } else if c != name[..1] {
      PermittedPoints(name[1..], c);
    }
  }

  lemma {:induction false} PointOf(name: JsString, u: CodeUnit) returns (c: JsString)
    requires u in name && !IsPermitted(u)
    ensures c in CodePoints(name) && u in c && !HasPermitted(c)
  {
    if |name| >= 2 && IsHigh(name[0]) && IsLow(name[1]) {
      if u in name[..2] {
        c := name[..2];
      } else {
        assert name == name[..2] + name[2..];
        c := PointOf(name[2..], u);
      }
    } else if u == name[0] {
      c := name[..1];
    } else {
      assert name == name[..1] + name[1..];
      c := PointOf(name[1..], u);
    }
  }

  /**
   * What is reported for a bad character is never empty, names each offending
   * code point once, and names exactly the code points that are not allowed.
   */
  lemma {:induction false} OffendingIsExact(name: JsString, violation: Violation)
    requires DescribeToolNameViolation(name) == Some(violation) && violation.OutsideCharset?
    ensures violation.offending != [] && Distinct(violation.offending)
    ensures forall c :: c in violation.offending <==>
              c in CodePoints(name) && !(|c| == 1 && IsPermitted(c[0]))
  {
    var u :| u in name && !IsPermitted(u);
    var point := PointOf(name, u);
    assert point in violation.offending;
    forall c | c in CodePoints(name) ensures HasPermitted(c) <==> |c| == 1 && IsPermitted(c[0]) {
      PermittedPoints(name, c);
    }
  }

  /** `c` stands in `points` before `d` ever does. */
  ghost predicate AppearsBefore(points: seq<JsString>, c: JsString, d: JsString) {
    exists p | 0 <= p < |points| :: points[p] == c && d !in points[..p]
  }

  lemma {:induction false} FirstOfEachInOrder(points: seq<JsString>, i: nat, j: nat)
    requires i < j < |FirstOfEach(points)|
    ensures AppearsBefore(points, FirstOfEach(points)[i], FirstOfEach(points)[j])
  {
    var n := |points| - 1;
    var front, last := points[..n], points[n];
    var r := FirstOfEach(front);
    if j < |r| {
      FirstOfEachInOrder(front, i, j);
      var p :| 0 <= p < |front| && front[p] == r[i] && r[j] !in front[..p];
      assert points[..p] == front[..p] && points[p] == front[p];
    } else {
      assert r[i] in front;
      var p :| 0 <= p < |front| && front[p] == r[i];
      assert points[p] == front[p];
      forall x | x in points[..p] ensures x in front { assert points[..p] == front[..p]; }
    }
  }

  lemma {:induction false} OffendingInOrder(points: seq<JsString>, c: JsString, d: JsString)
    requires AppearsBefore(Offending(points), c, d) && !HasPermitted(d)
    ensures AppearsBefore(points, c, d)
  {
    if points != [] {
      var rest := Offending(points[1..]);
      assert Offending(points) == if HasPermitted(points[0]) then rest else [points[0]] + rest;
      if !HasPermitted(points[0]) {
        HeadOrRest(points[0], rest, c, d);
      }
      if points[0] == c {
        HeadAppears(points, c, d);
      } else {
        OffendingInOrder(points[1..], c, d);
        LaterToo(points, c, d);
      }
    }
  }

  lemma HeadAppears(points: seq<JsString>, c: JsString, d: JsString)
    requires points != [] && points[0] == c
    ensures AppearsBefore(points, c, d)
  {
    assert points[..0] == [];
  }

  lemma HeadOrRest(first: JsString, rest: seq<JsString>, c: JsString, d: JsString)
    requires AppearsBefore([first] + rest, c, d)
    ensures first == c || (first != d && AppearsBefore(rest, c, d))
  {
    var p :| 0 <= p < |[first] + rest| && ([first] + rest)[p] == c && d !in ([first] + rest)[..p];
    if p > 0 {
      assert ([first] + rest)[..p] == [first] + rest[..p - 1];
      assert rest[p - 1] == c;
    }
  }

  lemma LaterToo(points: seq<JsString>, c: JsString, d: JsString)
    requires points != [] && points[0] != d && AppearsBefore(points[1..], c, d)
    ensures AppearsBefore(points, c, d)
  {
    var q :| 0 <= q < |points| - 1 && points[1..][q] == c && d !in points[1..][..q];
    assert points[..q + 1] == [points[0]] + points[1..][..q] && points[q + 1] == c;
  }

  /** Bad characters are reported in the order in which they first appear. */
  lemma OffendingAppearInOrder(name: JsString, violation: Violation, i: nat, j: nat)
    requires DescribeToolNameViolation(name) == Some(violation) && violation.OutsideCharset?
    requires i < j < |violation.offending|
    ensures AppearsBefore(CodePoints(name), violation.offending[i], violation.offending[j])
  {
    var points := CodePoints(name);
    FirstOfEachInOrder(Offending(points), i, j);
    assert violation.offending[j] in Offending(points);
    OffendingInOrder(points, violation.offending[i], violation.offending[j]);
  }

  /** Which violation a name gets: an empty one, one over 64 code units, or else one with a character not allowed. */
  lemma WhichViolation(name: JsString)
    ensures DescribeToolNameViolation(name) == Some(Empty) <==> name == []
    ensures forall n: nat :: DescribeToolNameViolation(name) == Some(TooLong(n)) <==> n == |name| > 64
    ensures (DescribeToolNameViolation(name).Some? && DescribeToolNameViolation(name).value.OutsideCharset?) <==>
            1 <= |name| <= 64 && exists u :: u in name && !IsPermitted(u)
  {
  }
}

/** The scanner that reads a heading's direct text, skipping the constructs that render as elements. */
module HeadingText {
  import opened Basics
  import opened JsText

  const BACKTICK: CodeUnit := '`' as int
  const BACKSLASH: CodeUnit := '\\' as int
  const SLASH: CodeUnit := '/' as int
  const LESS: CodeUnit := '<' as int
  const GREATER: CodeUnit := '>' as int
  const LBRACKET: CodeUnit := '[' as int
  const RBRACKET: CodeUnit := ']' as int
  const LPAREN: CodeUnit := '(' as int
  const RPAREN: CodeUnit := ')' as int
  const LBRACE: CodeUnit := '{' as int
  const RBRACE: CodeUnit := '}' as int
  const BANG: CodeUnit := '!' as int
  const STAR: CodeUnit := '*' as int
  const UNDERSCORE: CodeUnit := '_' as int
  const SPACE: CodeUnit := ' ' as int

  predicate IsLetter(u: CodeUnit) {
    'A' as int <= u <= 'Z' as int || 'a' as int <= u <= 'z' as int
  }

  /** `\w` */
  predicate IsWord(u: CodeUnit) {
    IsLetter(u) || '0' as int <= u <= '9' as int || u == UNDERSCORE
  }

  /** `[\w.-]` */
  predicate IsTagRest(u: CodeUnit) {
    IsWord(u) || u == '.' as int || u == '-' as int
  }

  predicate At(s: JsString, i: int, u: CodeUnit) {
    0 <= i < |s| && s[i] == u
  }

  // ----- runs -----

  /** How many times `u` repeats from `i`. */
  function Run(s: JsString, i: nat, u: CodeUnit): (n: nat)
    requires i <= |s|
    ensures i + n <= |s| && (forall k | i <= k < i + n :: s[k] == u) && !At(s, i + n, u)
    decreases |s| - i
  {
    if At(s, i, u) then 1 + Run(s, i + 1, u) else 0
  }

  method RunLength(source: JsString, index: nat, u: CodeUnit) returns (length: nat)
    requires index <= |source|
    ensures length == Run(source, index, u)
  {
    length := 0;
    while index + length < |source| && source[index + length] == u
      invariant index + length <= |source|
      invariant forall k | index <= k < index + length :: source[k] == u
    {
      length := length + 1;
    }
  }

  // ----- code spans -----

  /** A backtick string: one or more backticks, neither preceded nor followed by one. */
  predicate BacktickString(s: JsString, i: int, n: int) {
    && 0 <= i && 0 < n && i + n <= |s|
    && (forall k | i <= k < i + n :: s[k] == BACKTICK)
    && !At(s, i - 1, BACKTICK) && !At(s, i + n, BACKTICK)
  }

  /** The span opened by the `n` backticks at `start` ends with the next backtick string of that length. */
  predicate SpanEndsAt(s: JsString, start: nat, n: nat, end: int) {
    && BacktickString(s, end - n, n) && start + n <= end - n
    && forall j | start + n <= j < end - n :: !BacktickString(s, j, n)
  }

  predicate IsSpanEnd(s: JsString, start: nat, n: nat, end: int) {
    if end == -1
    then forall j | start + n <= j < |s| :: !BacktickString(s, j, n)
    else SpanEndsAt(s, start, n, end)
  }

  method EndOfCodeSpan(source: JsString, start: nat) returns (end: int)
    requires At(source, start, BACKTICK)
    ensures IsSpanEnd(source, start, Run(source, start, BACKTICK), end)
  {
    var ticks := RunLength(source, start, BACKTICK);
    var i := start + ticks;
    while i < |source|
      invariant start + ticks <= i <= |source|
      invariant !At(source, i, BACKTICK) || !At(source, i - 1, BACKTICK)
      invariant forall j | start + ticks <= j < i :: !BacktickString(source, j, ticks)
    {
      if source[i] == BACKTICK {
        var run := RunLength(source, i, BACKTICK);
        if run == ticks {
          return i + run;
        }
        forall j | i < j < i + run ensures !BacktickString(source, j, ticks) {
          assert At(source, j - 1, BACKTICK);
        }
        assert !BacktickString(source, i, ticks);
        i := i + run;
      } else {
        i := i + 1;
      }
    }
    return -1;
  }

  lemma SpanEndBy(s: JsString, start: nat, n: nat, a: int, b: int)
    requires IsSpanEnd(s, start, n, a) && IsSpanEnd(s, start, n, b) && a != -1
    ensures b != -1 && b <= a
  {
    assert BacktickString(s, a - n, n);
  }

  lemma SpanEndUnique(s: JsString, start: nat, n: nat, a: int, b: int)
    requires IsSpanEnd(s, start, n, a) && IsSpanEnd(s, start, n, b)
    ensures a == b
  {
    if a != -1 {
      SpanEndBy(s, start, n, a, b);
    }
    if b != -1 {
      SpanEndBy(s, start, n, b, a);
    }
  }

  // ----- balanced brackets -----

  /** Position `i` is not escaped, reading backslash escapes from `start`. */
  predicate Live(s: JsString, start: nat, i: nat)
    requires start <= i <= |s|
    decreases i
  {
    i == start || !(Live(s, start, i - 1) && s[i - 1] == BACKSLASH)
  }

  /** Unescaped opening brackets less unescaped closing brackets between `start` and `end`. */
  function Depth(s: JsString, start: nat, end: nat, open: CodeUnit, close: CodeUnit): int
    requires start <= end <= |s|
    decreases end
  {
    if end == start then 0
    else
      Depth(s, start, end - 1, open, close)
      + if !Live(s, start, end - 1) then 0
        else if s[end - 1] == open then 1
        else if s[end - 1] == close then -1
        else 0
  }

  /** A position is escaped exactly when an odd number of backslashes stands before it, counting from `start`. */
  lemma {:induction false} LiveIffEven(s: JsString, start: nat, i: nat, backslashes: nat)
    requires start + backslashes <= i <= |s| && forall k | i - backslashes <= k < i :: s[k] == BACKSLASH
    requires i - backslashes == start || s[i - backslashes - 1] != BACKSLASH
    ensures Live(s, start, i) <==> backslashes % 2 == 0
    decreases backslashes
  {
    if backslashes > 0 {
      LiveIffEven(s, start, i - 1, backslashes - 1);
    }
  }

  /** Where `u` stands unescaped between `start` and `end`. */
  ghost function LiveAt(s: JsString, start: nat, end: nat, u: CodeUnit): set<int>
    requires start <= end <= |s|
  {
    set k | start <= k < end && Live(s, start, k) && s[k] == u
  }

  lemma LiveAtOn(s: JsString, start: nat, end: nat, u: CodeUnit)
    requires start < end <= |s|
    ensures LiveAt(s, start, end, u)
            == LiveAt(s, start, end - 1, u) + if Live(s, start, end - 1) && s[end - 1] == u then {end - 1} else {}
  {
  }

  /** The depth is the number of unescaped opening brackets less that of unescaped closing ones. */
  lemma {:induction false} DepthCounts(s: JsString, start: nat, end: nat, open: CodeUnit, close: CodeUnit)
    requires start <= end <= |s| && open != close
    ensures Depth(s, start, end, open, close) == |LiveAt(s, start, end, open)| - |LiveAt(s, start, end, close)|
    decreases end
  {
    if start < end {
      DepthCounts(s, start, end - 1, open, close);
      LiveAtOn(s, start, end, open);
      LiveAtOn(s, start, end, close);
    }
  }

  /** The shortest prefix from `start` whose unescaped brackets balance ends at `end`; none does if `end` is -1. */
  predicate IsBalancedEnd(s: JsString, start: nat, open: CodeUnit, close: CodeUnit, end: int) {
    if end == -1
    then forall e | start < e <= |s| :: Depth(s, start, e, open, close) > 0
    else
      && start < end <= |s| && Depth(s, start, end, open, close) == 0
      && forall e | start < e < end :: Depth(s, start, e, open, close) > 0
  }

  lemma BalancedEndBy(s: JsString, start: nat, open: CodeUnit, close: CodeUnit, a: int, b: int)
    requires IsBalancedEnd(s, start, open, close, a) && IsBalancedEnd(s, start, open, close, b) && a != -1
    ensures b != -1 && b <= a
  {
    assert Depth(s, start, a, open, close) == 0;
  }

  lemma BalancedEndUnique(s: JsString, start: nat, open: CodeUnit, close: CodeUnit, a: int, b: int)
    requires IsBalancedEnd(s, start, open, close, a) && IsBalancedEnd(s, start, open, close, b)
    ensures a == b
  {
    if a != -1 {
      BalancedEndBy(s, start, open, close, a, b);
    }
    if b != -1 {
      BalancedEndBy(s, start, open, close, b, a);
    }
  }

  method EndOfBalanced(source: JsString, start: nat, open: CodeUnit, close: CodeUnit) returns (end: int)
    requires At(source, start, open) && open != close && open != BACKSLASH && close != BACKSLASH
    ensures IsBalancedEnd(source, start, open, close, end)
  {
    var depth := 0;
    var i := start;
    while i < |source|
      invariant start <= i <= |source| + 1
      invariant i <= |source| ==> Live(source, start, i) && depth == Depth(source, start, i, open, close)
      invariant i == start || depth > 0
      invariant forall e | start < e <= i && e <= |source| :: Depth(source, start, e, open, close) > 0
    {
      if source[i] == BACKSLASH {
        assert Depth(source, start, i + 1, open, close) == depth;
        i := i + 1;
      } else if source[i] == open {
        depth := depth + 1;
      } else if source[i] == close {
        depth := depth - 1;
        if depth == 0 {
          return i + 1;
        }
      }
      i := i + 1;
    }
    return -1;
  }

  // ----- links -----

  /** What must follow a link's label, which ends at `text`: a balanced destination or reference, at once. */
  predicate IsTargetEnd(s: JsString, text: int, end: int) {
    if text < 0 then end == -1
    else if At(s, text, LPAREN) then IsBalancedEnd(s, text, LPAREN, RPAREN, end)
    else if At(s, text, LBRACKET) then IsBalancedEnd(s, text, LBRACKET, RBRACKET, end)
    else end == -1
  }

  /** A link or image: a balanced label and its target. */
  ghost predicate IsLinkEnd(s: JsString, start: nat, end: int) {
    exists text: int ::
      && IsBalancedEnd(s, if At(s, start, BANG) then start + 1 else start, LBRACKET, RBRACKET, text)
      && IsTargetEnd(s, text, end)
  }

  lemma LinkEndUnique(s: JsString, start: nat, a: int, b: int)
    requires IsLinkEnd(s, start, a) && IsLinkEnd(s, start, b)
    ensures a == b
  {
    var from := if At(s, start, BANG) then start + 1 else start;
    var ta: int :| IsBalancedEnd(s, from, LBRACKET, RBRACKET, ta) && IsTargetEnd(s, ta, a);
    var tb: int :| IsBalancedEnd(s, from, LBRACKET, RBRACKET, tb) && IsTargetEnd(s, tb, b);
    BalancedEndUnique(s, from, LBRACKET, RBRACKET, ta, tb);
    if At(s, ta, LPAREN) {
      BalancedEndUnique(s, ta, LPAREN, RPAREN, a, b);
    } else if At(s, ta, LBRACKET) {
      BalancedEndUnique(s, ta, LBRACKET, RBRACKET, a, b);
    }
  }

  predicate OpensLink(s: JsString, i: nat) {
    At(s, i, LBRACKET) || (At(s, i, BANG) && At(s, i + 1, LBRACKET))
  }

  method EndOfLink(source: JsString, start: nat) returns (end: int)
    requires OpensLink(source, start)
    ensures IsLinkEnd(source, start, end)
  {
    var text := EndOfBalanced(source, if source[start] == BANG then start + 1 else start, LBRACKET, RBRACKET);
    if text == -1 {
      end := -1;
    } else if At(source, text, LPAREN) {
      end := EndOfBalanced(source, text, LPAREN, RPAREN);
    } else if At(source, text, LBRACKET) {
      end := EndOfBalanced(source, text, LBRACKET, RBRACKET);
    } else {
      end := -1;
    }
    assert IsTargetEnd(source, text, end);
  }

  // ----- elements -----

  predicate Occurs(s: JsString, pattern: JsString, at: int) {
    0 <= at && at + |pattern| <= |s| && s[at..at + |pattern|] == pattern
  }

  /** `indexOf`: the first occurrence at or after `from`, or -1. */
  function IndexOf(s: JsString, pattern: JsString, from: nat): (at: int)
    ensures at == -1 || (from <= at && Occurs(s, pattern, at))
    ensures forall k | from <= k && (at == -1 || k < at) :: !Occurs(s, pattern, k)
    decreases |s| - from
  {
    if from + |pattern| > |s| then -1
    else if Occurs(s, pattern, from) then from
    else IndexOf(s, pattern, from + 1)
  }

  /** Length of the longest stretch of tag-name characters from `i`. */
  function TagRest(s: JsString, i: nat): (n: nat)
    requires i <= |s|
    ensures i + n <= |s| && (forall k | i <= k < i + n :: IsTagRest(s[k]))
    ensures i + n < |s| ==> !IsTagRest(s[i + n])
    decreases |s| - i
  {
    if i < |s| && IsTagRest(s[i]) then 1 + TagRest(s, i + 1) else 0
  }

  /** Where a tag's name starts: behind `<`, or behind `</`. */
  function NameStart(s: JsString, start: nat): nat {
    if At(s, start + 1, SLASH) then start + 2 else start + 1
  }

  /**
   * What `/^<\/?([A-Za-z][\w.-]*)/` captures at `start`: nothing unless a letter
   * stands there, else the longest stretch of name characters from it.
   */
  function TagName(s: JsString, start: nat): (name: JsString)
    requires At(s, start, LESS)
    ensures name != [] <==> NameStart(s, start) < |s| && IsLetter(s[NameStart(s, start)])
    ensures name != [] ==>
              var at := NameStart(s, start);
              && Occurs(s, name, at) && (forall u | u in name :: IsTagRest(u))
              && (at + |name| < |s| ==> !IsTagRest(s[at + |name|]))
  {
    var at := NameStart(s, start);
    if at < |s| && IsLetter(s[at]) then
      assert TagRest(s, at) > 0;
      s[at..at + TagRest(s, at)]
    else []
  }

  function Closing(name: JsString): JsString {
    [LESS, SLASH] + name + [GREATER]
  }

  predicate OccursFrom(s: JsString, pattern: JsString, from: nat) {
    exists k | from <= k <= |s| :: Occurs(s, pattern, k)
  }

  /** `at` is the first place from `from` on where `pattern` occurs. */
  predicate FirstAt(s: JsString, pattern: JsString, from: nat, at: int) {
    from <= at && Occurs(s, pattern, at) && forall k | from <= k < at :: !Occurs(s, pattern, k)
  }

  lemma FirstAtUnique(s: JsString, pattern: JsString, from: nat, a: int, b: int)
    requires FirstAt(s, pattern, from, a) && FirstAt(s, pattern, from, b)
    ensures a == b
  {
  }

  /** The tag at `start` stands alone: it is a closing tag, a self-closing one, or never closed further down. */
  predicate StandsAlone(s: JsString, start: nat, name: JsString, tagEnd: nat) {
    At(s, start + 1, SLASH) || At(s, tagEnd - 1, SLASH) || !OccursFrom(s, Closing(name), tagEnd + 1)
  }

  /** Where the element goes on to, once its tag has ended at `tagEnd`. */
  predicate EndsElement(s: JsString, start: nat, name: JsString, tagEnd: nat, end: int) {
    if StandsAlone(s, start, name, tagEnd) then end == tagEnd + 1
    else FirstAt(s, Closing(name), tagEnd + 1, end - |Closing(name)|)
  }

  /**
   * An element ends with the first `>` if its tag stands alone, else with the
   * first closing tag of its name behind that. What has no name, or no `>`, is
   * no element.
   */
  ghost predicate IsElementEnd(s: JsString, start: nat, end: int)
    requires At(s, start, LESS)
  {
    var name := TagName(s, start);
    if end == -1 then name == [] || !OccursFrom(s, [GREATER], start)
    else
      && name != []
      && exists tagEnd: nat :: FirstAt(s, [GREATER], start, tagEnd) && EndsElement(s, start, name, tagEnd, end)
  }

  lemma ElementTail(s: JsString, start: nat, name: JsString, tagEnd: nat, a: int, b: int)
    requires EndsElement(s, start, name, tagEnd, a) && EndsElement(s, start, name, tagEnd, b)
    ensures a == b
  {
    if !StandsAlone(s, start, name, tagEnd) {
      FirstAtUnique(s, Closing(name), tagEnd + 1, a - |Closing(name)|, b - |Closing(name)|);
    }
  }

  lemma ElementEndBy(s: JsString, start: nat, a: int, b: int)
    requires At(s, start, LESS) && IsElementEnd(s, start, a) && IsElementEnd(s, start, b) && a != -1
    ensures a == b
  {
    var name := TagName(s, start);
    var ta: nat :| FirstAt(s, [GREATER], start, ta) && EndsElement(s, start, name, ta, a);
    var tb: nat :| FirstAt(s, [GREATER], start, tb) && EndsElement(s, start, name, tb, b);
    FirstAtUnique(s, [GREATER], start, ta, tb);
    ElementTail(s, start, name, ta, a, b);
  }

  /** An element that ends, ends with `>`. */
  lemma ElementEndsTag(s: JsString, start: nat, end: int)
    requires At(s, start, LESS) && IsElementEnd(s, start, end) && end != -1
    ensures start + 1 < end <= |s| && s[end - 1] == GREATER
  {
    var name := TagName(s, start);
    var tagEnd: nat :| FirstAt(s, [GREATER], start, tagEnd) && EndsElement(s, start, name, tagEnd, end);
    assert s[tagEnd..tagEnd + 1][0] == s[tagEnd];
    if !StandsAlone(s, start, name, tagEnd) {
      var closing := Closing(name);
      assert s[end - |closing|..end][|closing| - 1] == s[end - 1];
    }
  }

  lemma FirstIs(s: JsString, pattern: JsString, from: nat, at: int)
    requires at == IndexOf(s, pattern, from)
    ensures at == -1 <==> !OccursFrom(s, pattern, from)
    ensures at != -1 ==> FirstAt(s, pattern, from, at)
  {
  }

  lemma EndsAlone(s: JsString, start: nat, name: JsString, tagEnd: nat)
    requires At(s, start + 1, SLASH) || At(s, tagEnd - 1, SLASH) || IndexOf(s, Closing(name), tagEnd + 1) == -1
    ensures EndsElement(s, start, name, tagEnd, tagEnd + 1)
  {
    FirstIs(s, Closing(name), tagEnd + 1, IndexOf(s, Closing(name), tagEnd + 1));
  }

  lemma EndsClosed(s: JsString, start: nat, name: JsString, tagEnd: nat, at: int)
    requires !At(s, start + 1, SLASH) && !At(s, tagEnd - 1, SLASH)
    requires at == IndexOf(s, Closing(name), tagEnd + 1) && at != -1
    ensures EndsElement(s, start, name, tagEnd, at + |Closing(name)|)
  {
    FirstIs(s, Closing(name), tagEnd + 1, at);
    var end := at + |Closing(name)|;
    assert end - |Closing(name)| == at;
  }

  lemma EndsAsElement(s: JsString, start: nat, name: JsString, tagEnd: nat, end: int)
    requires At(s, start, LESS) && name == TagName(s, start) && name != [] && end != -1
    requires tagEnd == IndexOf(s, [GREATER], start) && EndsElement(s, start, name, tagEnd, end)
    ensures IsElementEnd(s, start, end)
  {
    FirstIs(s, [GREATER], start, tagEnd);
  }

  lemma EndsNowhere(s: JsString, start: nat)
    requires At(s, start, LESS) && (TagName(s, start) == [] || IndexOf(s, [GREATER], start) == -1)
    ensures IsElementEnd(s, start, -1)
  {
    FirstIs(s, [GREATER], start, IndexOf(s, [GREATER], start));
  }

  method EndOfElement(source: JsString, start: nat) returns (end: int)
    requires At(source, start, LESS)
    ensures IsElementEnd(source, start, end)
  {
    var name := TagName(source, start);
    if name == [] {
      EndsNowhere(source, start);
      return -1;
    }
    var tagEnd := IndexOf(source, [GREATER], start);
    if tagEnd == -1 {
      EndsNowhere(source, start);
      return -1;
    }
    var closingAt := -1;
    if !At(source, start + 1, SLASH) && !At(source, tagEnd - 1, SLASH) {
      closingAt := IndexOf(source, Closing(name), tagEnd + 1);
    }
    if closingAt == -1 {
      end := tagEnd + 1;
      EndsAlone(source, start, name, tagEnd);
    } else {
      end := closingAt + |Closing(name)|;
      EndsClosed(source, start, name, tagEnd, closingAt);
    }
    EndsAsElement(source, start, name, tagEnd, end);
  }

  // ----- emphasis -----

  predicate OpensInsideWord(s: JsString, start: nat) {
    At(s, start, UNDERSCORE) && 0 < start && IsWord(s[start - 1])
  }

  /** An unescaped run of at least `run` markers stands at `i`. */
  predicate ClosesEmphasis(s: JsString, from: nat, marker: CodeUnit, run: nat, i: int) {
    from <= i < |s| && Live(s, from, i) && s[i] == marker && Run(s, i, marker) >= run
  }

  predicate IsFirstClose(s: JsString, from: nat, marker: CodeUnit, run: nat, end: int) {
    if end == -1
    then forall i | from <= i < |s| :: !ClosesEmphasis(s, from, marker, run, i)
    else
      && ClosesEmphasis(s, from, marker, run, end - run)
      && forall i | from <= i < end - run :: !ClosesEmphasis(s, from, marker, run, i)
  }

  /** Emphasis ends with the first run at least as long as the one that opened it, as far in as that was long. */
  predicate IsEmphasisEnd(s: JsString, start: nat, end: int)
    requires start < |s|
  {
    var run := Run(s, start, s[start]);
    if OpensInsideWord(s, start) then end == -1 else IsFirstClose(s, start + run, s[start], run, end)
  }

  /** `run` markers in a row stand at `q`, the first of them not escaped. */
  predicate MarkersAt(s: JsString, from: nat, q: int, run: nat, marker: CodeUnit) {
    from <= q && q + run <= |s| && Live(s, from, q) && forall k | q <= k < q + run :: s[k] == marker
  }

  lemma {:induction false} RunAtLeast(s: JsString, i: nat, u: CodeUnit, n: nat)
    requires i <= |s|
    ensures Run(s, i, u) >= n <==> i + n <= |s| && forall k | i <= k < i + n :: s[k] == u
    decreases n
  {
    if n > 0 && i < |s| && s[i] == u {
      RunAtLeast(s, i + 1, u, n - 1);
    }
  }

  /** Emphasis ends behind the first place further on where as many markers stand in a row as opened it. */
  lemma EmphasisIff(s: JsString, start: nat, end: int, run: nat, from: nat)
    requires start < |s| && run == Run(s, start, s[start]) && run > 0 && from == start + run
    requires !(s[start] == UNDERSCORE && start > 0 && IsWord(s[start - 1])) && end != -1
    ensures IsEmphasisEnd(s, start, end) <==>
            && MarkersAt(s, from, end - run, run, s[start])
            && forall q | from <= q < end - run :: !MarkersAt(s, from, q, run, s[start])
  {
    forall q | from <= q < |s|
      ensures ClosesEmphasis(s, from, s[start], run, q) <==> MarkersAt(s, from, q, run, s[start])
    {
      RunAtLeast(s, q, s[start], run);
    }
  }

  /** The scan for a closing run, from just past the opening one. */
  method FirstClose(source: JsString, from: nat, marker: CodeUnit, run: nat) returns (end: int)
    requires from <= |source| && marker != BACKSLASH && run > 0
    ensures IsFirstClose(source, from, marker, run, end)
  {
    var i := from;
    while i < |source|
      invariant from <= i <= |source| + 1
      invariant i <= |source| ==> Live(source, from, i)
      invariant forall k | from <= k < i && k < |source| :: !ClosesEmphasis(source, from, marker, run, k)
    {
      if source[i] == BACKSLASH {
        i := i + 1;
      } else if source[i] == marker {
        var length := RunLength(source, i, marker);
        if length >= run {
          return i + run;
        }
      }
      i := i + 1;
    }
    return -1;
  }

  method EndOfEmphasis(source: JsString, start: nat) returns (end: int)
    requires At(source, start, STAR) || At(source, start, UNDERSCORE)
    ensures IsEmphasisEnd(source, start, end)
  {
    var marker := source[start];
    if marker == UNDERSCORE && 0 < start && IsWord(source[start - 1]) {
      return -1;
    }
    var run := RunLength(source, start, marker);
    end := FirstClose(source, start + run, marker, run);
  }

  // ----- readings -----

  /** What the scanner makes of a stretch of the heading. */
  datatype Token = Plain(at: nat) | Escaped(at: nat) | Skipped(from: nat, to: nat)
  {
    function Start(): nat {
      if Skipped? then from else at
    }

    function End(): nat {
      match this
      case Plain(at) => at + 1
      case Escaped(at) => at + 2
      case Skipped(_, to) => to
    }
  }

  predicate Escapes(s: JsString, i: nat) {
    At(s, i, BACKSLASH) && i + 1 < |s|
  }

  /** The construct that opens at `i` ends at `end`; none opens there, or it never closes, if `end` is -1. */
  ghost predicate IsConstructEnd(s: JsString, i: nat, end: int)
    requires i < |s|
  {
    if s[i] == BACKTICK then IsSpanEnd(s, i, Run(s, i, BACKTICK), end)
    else if OpensLink(s, i) then IsLinkEnd(s, i, end)
    else if s[i] == LESS then IsElementEnd(s, i, end)
    else if s[i] == LBRACE then IsBalancedEnd(s, i, LBRACE, RBRACE, end)
    else if s[i] == STAR || s[i] == UNDERSCORE then IsEmphasisEnd(s, i, end)
    else end == -1
  }

  lemma ConstructEndUnique(s: JsString, i: nat, a: int, b: int)
    requires i < |s| && IsConstructEnd(s, i, a) && IsConstructEnd(s, i, b)
    ensures a == b
  {
    if s[i] == BACKTICK {
      SpanEndUnique(s, i, Run(s, i, BACKTICK), a, b);
    } else if OpensLink(s, i) {
      LinkEndUnique(s, i, a, b);
    } else if s[i] == LESS {
      if a != -1 { ElementEndBy(s, i, a, b); }
      if b != -1 { ElementEndBy(s, i, b, a); }
    } else if s[i] == LBRACE {
      BalancedEndUnique(s, i, LBRACE, RBRACE, a, b);
    }
  }

  /** A construct that closes takes at least one character, and none beyond the end. */
  lemma ConstructAdvances(s: JsString, i: nat, end: int)
    requires i < |s| && IsConstructEnd(s, i, end) && end != -1
    ensures i < end <= |s|
  {
    if s[i] != BACKTICK && OpensLink(s, i) {
      var from := if At(s, i, BANG) then i + 1 else i;
      var text: int :| IsBalancedEnd(s, from, LBRACKET, RBRACKET, text) && IsTargetEnd(s, text, end);
    } else if s[i] == LESS {
      ElementEndsTag(s, i, end);
    }
  }

  ghost predicate IsToken(s: JsString, t: Token) {
    match t
    case Escaped(at) => Escapes(s, at)
    case Plain(at) => at < |s| && !Escapes(s, at) && IsConstructEnd(s, at, -1)
    case Skipped(from, to) => from < |s| && !Escapes(s, from) && IsConstructEnd(s, from, to)
  }

  ghost predicate AreTokens(s: JsString, tokens: seq<Token>) {
    forall k | 0 <= k < |tokens| :: IsToken(s, tokens[k])
  }

  /** Where the first `k` tokens have brought the scanner. */
  function Reached(tokens: seq<Token>, k: nat): nat
    requires k <= |tokens|
  {
    if k == 0 then 0 else tokens[k - 1].End()
  }

  /** Each token starts where the one before it ended. */
  ghost predicate Chained(tokens: seq<Token>) {
    forall k {:trigger Reached(tokens, k)} | 0 <= k < |tokens| :: tokens[k].Start() == Reached(tokens, k)
  }

  /** `tokens` read the first `i` code units. */
  ghost predicate ReadsUpTo(s: JsString, tokens: seq<Token>, i: nat) {
    && AreTokens(s, tokens)
    && Chained(tokens)
    && i == Reached(tokens, |tokens|)
  }

  /** The whole heading, read from left to right. */
  ghost predicate IsReading(s: JsString, tokens: seq<Token>) {
    ReadsUpTo(s, tokens, |s|)
  }

  lemma TokenUnique(s: JsString, a: Token, b: Token)
    requires IsToken(s, a) && IsToken(s, b) && a.Start() == b.Start()
    ensures a == b
  {
    if !a.Escaped? && !b.Escaped? {
      ConstructEndUnique(s, a.Start(), if a.Plain? then -1 else a.to, if b.Plain? then -1 else b.to);
    }
  }

  lemma TokenAdvances(s: JsString, tokens: seq<Token>, k: nat)
    requires AreTokens(s, tokens) && k < |tokens|
    ensures tokens[k].Start() < tokens[k].End() <= |s|
  {
    assert IsToken(s, tokens[k]);
    if tokens[k].Skipped? {
      ConstructAdvances(s, tokens[k].from, tokens[k].to);
    }
  }

  /** Where a token's construct ends, -1 when it is none. */
  function ConstructEnd(t: Token): int {
    if t.Skipped? then t.to else -1
  }

  /** What opens at a token, and how far it goes: character by character. */
  lemma WhatOpens(s: JsString, t: Token)
    requires IsToken(s, t)
    ensures t.Escaped? <==> At(s, t.Start(), BACKSLASH) && t.Start() + 1 < |s|
    ensures t.Skipped? ==> At(s, t.Start(), BANG) || s[t.Start()] in {BACKTICK, LBRACKET, LESS, LBRACE, STAR, UNDERSCORE}
    ensures At(s, t.Start(), BACKTICK) ==> IsSpanEnd(s, t.Start(), Run(s, t.Start(), BACKTICK), ConstructEnd(t))
    ensures At(s, t.Start(), LBRACKET) ==> IsLinkEnd(s, t.Start(), ConstructEnd(t))
    ensures At(s, t.Start(), BANG) && At(s, t.Start() + 1, LBRACKET) ==> IsLinkEnd(s, t.Start(), ConstructEnd(t))
    ensures At(s, t.Start(), BANG) && !At(s, t.Start() + 1, LBRACKET) ==> t.Plain?
    ensures At(s, t.Start(), LESS) ==> IsElementEnd(s, t.Start(), ConstructEnd(t))
    ensures At(s, t.Start(), LBRACE) ==> IsBalancedEnd(s, t.Start(), LBRACE, RBRACE, ConstructEnd(t))
    ensures At(s, t.Start(), STAR) || At(s, t.Start(), UNDERSCORE) ==> IsEmphasisEnd(s, t.Start(), ConstructEnd(t))
    ensures At(s, t.Start(), UNDERSCORE) && t.Start() > 0 && IsWord(s[t.Start() - 1]) ==> t.Plain?
  {
  }

  lemma StartsWhereReached(tokens: seq<Token>, k: nat)
    requires Chained(tokens) && k < |tokens|
    ensures tokens[k].Start() == Reached(tokens, k)
  {
  }

  /** Tokens that start at the same place are the same. */
  predicate StartDecides(a: seq<Token>, b: seq<Token>) {
    forall k | 0 <= k < |a| && k < |b| && a[k].Start() == b[k].Start() :: a[k] == b[k]
  }

  lemma {:induction false} ReadingsAgreeAt(a: seq<Token>, b: seq<Token>, k: nat)
    requires StartDecides(a, b) && Chained(a) && Chained(b) && k < |a| && k < |b|
    ensures a[k] == b[k]
    decreases k
  {
    if k > 0 {
      ReadingsAgreeAt(a, b, k - 1);
    }
    StartsWhereReached(a, k);
    StartsWhereReached(b, k);
  }

  lemma ReadingNoLonger(s: JsString, a: seq<Token>, b: seq<Token>)
    requires IsReading(s, a) && IsReading(s, b) && |a| >= |b|
    ensures a == b
  {
    forall k | 0 <= k < |b| && a[k].Start() == b[k].Start() ensures a[k] == b[k] {
      TokenUnique(s, a[k], b[k]);
    }
    AgreeThroughout(s, a, b);
  }

  lemma AgreeThroughout(s: JsString, a: seq<Token>, b: seq<Token>)
    requires StartDecides(a, b) && Chained(a) && Chained(b) && |a| >= |b| && Reached(b, |b|) == |s|
    requires forall k | 0 <= k < |a| :: a[k].Start() < |s|
    ensures a == b
  {
    forall k | 0 <= k < |b| ensures a[k] == b[k] {
      ReadingsAgreeAt(a, b, k);
    }
    assert Reached(a, |b|) == |s|;
  }

  /** A heading has one reading only. */
  lemma {:induction false} ReadingUnique(s: JsString, a: seq<Token>, b: seq<Token>)
    requires IsReading(s, a) && IsReading(s, b)
    ensures a == b
  {
    if |a| <= |b| {
      ReadingNoLonger(s, b, a);
    } else {
      ReadingNoLonger(s, a, b);
    }
  }

  // ----- the text of a reading -----

  function TextOf(s: JsString, t: Token): JsString
    requires t.End() <= |s|
  {
    match t
    case Plain(at) => [s[at]]
    case Escaped(at) => [s[at + 1]]
    case Skipped(_, _) => []
  }

  ghost predicate Within(s: JsString, tokens: seq<Token>) {
    forall t | t in tokens :: t.End() <= |s|
  }

  /** The text since the last skipped construct. */
  function Open(s: JsString, tokens: seq<Token>): JsString
    requires Within(s, tokens)
  {
    if tokens == [] then []
    else
      var last := tokens[|tokens| - 1];
      if last.Skipped? then [] else Open(s, tokens[..|tokens| - 1]) + TextOf(s, last)
  }

  /** The texts before each skipped construct. */
  function Closed(s: JsString, tokens: seq<Token>): seq<JsString>
    requires Within(s, tokens)
  {
    if tokens == [] then []
    else
      var before := tokens[..|tokens| - 1];
      Closed(s, before) + if tokens[|tokens| - 1].Skipped? then [Open(s, before)] else []
  }

  function Parts(s: JsString, tokens: seq<Token>): seq<JsString>
    requires Within(s, tokens)
  {
    Closed(s, tokens) + [Open(s, tokens)]
  }

  /** `filter(Boolean)` */
  function NonEmpty(parts: seq<JsString>): seq<JsString> {
    if parts == [] then []
    else NonEmpty(parts[..|parts| - 1]) + if parts[|parts| - 1] == [] then [] else [parts[|parts| - 1]]
  }

  /** `join(' ')` */
  function Join(parts: seq<JsString>): JsString {
    if parts == [] then []
    else if |parts| == 1 then parts[0]
    else Join(parts[..|parts| - 1]) + [SPACE] + parts[|parts| - 1]
  }

  lemma ReachedOn(tokens: seq<Token>, t: Token, k: nat)
    requires k <= |tokens|
    ensures Reached(tokens + [t], k) == Reached(tokens, k)
  {
    if k > 0 {
      assert (tokens + [t])[k - 1] == tokens[k - 1];
    }
  }

  lemma ChainOn(tokens: seq<Token>, t: Token)
    requires Chained(tokens) && t.Start() == Reached(tokens, |tokens|)
    ensures Chained(tokens + [t])
  {
    var more := tokens + [t];
    forall k | 0 <= k < |more| ensures more[k].Start() == Reached(more, k) {
      ReachedOn(tokens, t, k);
      if k < |tokens| {
        assert more[k] == tokens[k];
      } else {
        assert more[k] == t;
      }
    }
  }

  /** One more token, where the reading stopped. */
  lemma ReadOn(s: JsString, tokens: seq<Token>, i: nat, t: Token)
    requires ReadsUpTo(s, tokens, i) && t.Start() == i && AreTokens(s, [t])
    ensures ReadsUpTo(s, tokens + [t], t.End()) && i < t.End() <= |s|
  {
    TokenAdvances(s, [t], 0);
    ChainOn(tokens, t);
  }

  /** Where the scan stands: what has been read, the parts cut off so far, and the text since. */
  ghost predicate Scanned(s: JsString, tokens: seq<Token>, i: nat, parts: seq<JsString>, text: JsString) {
    && ReadsUpTo(s, tokens, i)
    && Within(s, tokens)
    && parts == Closed(s, tokens) && text == Open(s, tokens)
  }

  lemma ScanOn(s: JsString, tokens: seq<Token>, i: nat, parts: seq<JsString>, text: JsString, t: Token)
    requires Scanned(s, tokens, i, parts, text) && t.Start() == i && IsToken(s, t)
    ensures i < t.End() <= |s|
    ensures Scanned(s, tokens + [t], t.End(),
                    parts + if t.Skipped? then [text] else [], if t.Skipped? then [] else text + TextOf(s, t))
  {
    ReadOn(s, tokens, i, t);
  }

  /** `heading` is the non-empty texts of the reading of `s`, joined. */
  ghost predicate IsHeadingText(s: JsString, heading: JsString) {
    exists tokens :: IsReading(s, tokens) && Within(s, tokens) && heading == Join(NonEmpty(Parts(s, tokens)))
  }

  /** There is only one. */
  lemma {:induction false} HeadingTextUnique(s: JsString, a: JsString, b: JsString)
    requires IsHeadingText(s, a) && IsHeadingText(s, b)
    ensures a == b
  {
    var ta :| IsReading(s, ta) && Within(s, ta) && a == Join(NonEmpty(Parts(s, ta)));
    var tb :| IsReading(s, tb) && Within(s, tb) && b == Join(NonEmpty(Parts(s, tb)));
    ReadingUnique(s, ta, tb);
  }

  method HeadingText(source: JsString) returns (heading: JsString)
    ensures IsHeadingText(source, heading)
  {
    var parts: seq<JsString> := [];
    var text: JsString := [];
    var i := 0;
    ghost var tokens: seq<Token> := [];
    while i < |source|
      invariant 0 <= i <= |source|
      invariant Scanned(source, tokens, i, parts, text)
    {
      ghost var token := Escaped(i);
      ghost var before, sofar, at := parts, text, i;
      if source[i] == BACKSLASH && i + 1 < |source| {
        text := text + [source[i + 1]];
        i := i + 2;
      } else {
        var end := EndOfConstruct(source, i);
        if end != -1 {
          ConstructAdvances(source, i, end);
          token := Skipped(i, end);
          parts := parts + [text];
          text := [];
          i := end;
        } else {
          token := Plain(i);
          text := text + [source[i]];
          i := i + 1;
        }
      }
      ScanOn(source, tokens, at, before, sofar, token);
      tokens := tokens + [token];
    }
    parts := parts + [text];
    heading := Join(NonEmpty(parts));
    assert IsReading(source, tokens) && Within(source, tokens);
  }

  /** The scanner for whatever opens at `i`. */
  method EndOfConstruct(source: JsString, i: nat) returns (end: int)
    requires i < |source|
    ensures IsConstructEnd(source, i, end)
  {
    end := -1;
    if source[i] == BACKTICK {
      end := EndOfCodeSpan(source, i);
    } else if source[i] == LBRACKET || (source[i] == BANG && At(source, i + 1, LBRACKET)) {
      end := EndOfLink(source, i);
    } else if source[i] == LESS {
      end := EndOfElement(source, i);
    } else if source[i] == LBRACE {
      end := EndOfBalanced(source, i, LBRACE, RBRACE);
    } else if source[i] == STAR || source[i] == UNDERSCORE {
      end := EndOfEmphasis(source, i);
    }
  }

  // ----- what the heading text is -----

  function Flatten(parts: seq<JsString>): JsString {
    if parts == [] then [] else Flatten(parts[..|parts| - 1]) + parts[|parts| - 1]
  }

  /** The characters outside the skipped constructs, in order, escapes resolved. */
  function Kept(s: JsString, tokens: seq<Token>): JsString
    requires Within(s, tokens)
  {
    if tokens == [] then []
    else Kept(s, tokens[..|tokens| - 1]) + TextOf(s, tokens[|tokens| - 1])
  }

  lemma NonEmptyOne(parts: seq<JsString>, part: JsString)
    ensures NonEmpty(parts + [part]) == NonEmpty(parts) + if part == [] then [] else [part]
  {
    assert (parts + [part])[..|parts|] == parts;
  }

  /** Dropping empty parts drops no character. */
  lemma {:induction false} NonEmptyKeepsText(parts: seq<JsString>)
    ensures Flatten(NonEmpty(parts)) == Flatten(parts)
    ensures [] !in NonEmpty(parts)
  {
    if parts != [] {
      var before := parts[..|parts| - 1];
      NonEmptyKeepsText(before);
      assert NonEmpty(before) + [] == NonEmpty(before);
    }
  }

  lemma {:induction false} ClosedAndOpenAreKept(s: JsString, tokens: seq<Token>)
    requires Within(s, tokens)
    ensures Flatten(Closed(s, tokens)) + Open(s, tokens) == Kept(s, tokens)
  {
    if tokens != [] {
      var before, last := tokens[..|tokens| - 1], tokens[|tokens| - 1];
      ClosedAndOpenAreKept(s, before);
      var closed, text := Closed(s, before), Open(s, before);
      if last.Skipped? {
        NothingMore(Kept(s, before));
      } else {
        NothingMore(closed);
        Regroup(Flatten(closed), text, TextOf(s, last));
      }
    }
  }

  /**
   * The words `HeadingText` joins are exactly the characters outside the
   * skipped constructs, in order, cut at each construct.
   */
  lemma {:induction false} WordsAreKept(s: JsString, tokens: seq<Token>)
    requires Within(s, tokens)
    ensures Flatten(NonEmpty(Parts(s, tokens))) == Kept(s, tokens)
    ensures [] !in NonEmpty(Parts(s, tokens))
  {
    NonEmptyKeepsText(Parts(s, tokens));
    ClosedAndOpenAreKept(s, tokens);
  }

  // ----- how the words are joined -----

  /** Two texts with one space between them, or the only one there is. */
  function Beside(a: JsString, b: JsString): JsString {
    if a == [] then b else if b == [] then a else a + [SPACE] + b
  }

  /** The text of a heading, or of a stretch of its reading. */
  function Rendered(s: JsString, tokens: seq<Token>): JsString
    requires Within(s, tokens)
  {
    Join(NonEmpty(Parts(s, tokens)))
  }

  lemma JoinOn(parts: seq<JsString>, part: JsString)
    requires parts != []
    ensures Join(parts + [part]) == Join(parts) + ([SPACE] + part)
  {
    assert (parts + [part])[..|parts|] == parts;
  }

  lemma {:induction false} JoinConcat(a: seq<JsString>, b: seq<JsString>)
    requires a != [] && b != []
    ensures Join(a + b) == Join(a) + ([SPACE] + Join(b))
    decreases |b|
  {
    var n := |b| - 1;
    FrontAndLast(a, b);
    JoinOn(a + b[..n], b[n]);
    if n == 0 {
      assert a + b[..n] == a;
    } else {
      JoinConcat(a, b[..n]);
      JoinOn(b[..n], b[n]);
      RegroupFour(Join(a), [SPACE], Join(b[..n]), [SPACE] + b[n]);
    }
  }

  lemma FrontAndLast<T>(a: seq<T>, b: seq<T>)
    requires b != []
    ensures b == b[..|b| - 1] + [b[|b| - 1]]
    ensures a + b == a + b[..|b| - 1] + [b[|b| - 1]]
  {
  }

  lemma {:induction false} NonEmptyConcat(a: seq<JsString>, b: seq<JsString>)
    ensures NonEmpty(a + b) == NonEmpty(a) + NonEmpty(b)
    decreases |b|
  {
    if b == [] {
      assert a + b == a;
    } else {
      var n := |b| - 1;
      NonEmptyConcat(a, b[..n]);
      assert a + b == a + b[..n] + [b[n]] && b == b[..n] + [b[n]];
      NonEmptyOne(a + b[..n], b[n]);
      NonEmptyOne(b[..n], b[n]);
    }
  }

  lemma JoinEmpty(parts: seq<JsString>)
    requires [] !in parts
    ensures Join(parts) == [] <==> parts == []
  {
    if parts != [] {
      assert parts[|parts| - 1] in parts;
    }
  }

  lemma JoinBeside(a: seq<JsString>, b: seq<JsString>)
    requires [] !in a && [] !in b
    ensures Join(a + b) == Beside(Join(a), Join(b))
  {
    JoinEmpty(a);
    JoinEmpty(b);
    if a == [] {
      assert a + b == b;
    } else if b == [] {
      assert a + b == a;
    } else {
      JoinConcat(a, b);
      assert Join(a) + ([SPACE] + Join(b)) == Join(a) + [SPACE] + Join(b);
    }
  }

  lemma PartsConcat(a: seq<JsString>, b: seq<JsString>)
    ensures Join(NonEmpty(a + b)) == Beside(Join(NonEmpty(a)), Join(NonEmpty(b)))
  {
    NonEmptyConcat(a, b);
    NonEmptyKeepsText(a);
    NonEmptyKeepsText(b);
    JoinBeside(NonEmpty(a), NonEmpty(b));
  }

  lemma PartsOn(s: JsString, tokens: seq<Token>, t: Token)
    requires Within(s, tokens) && t.End() <= |s|
    ensures Within(s, tokens + [t])
    ensures Closed(s, tokens + [t]) == Closed(s, tokens) + if t.Skipped? then [Open(s, tokens)] else []
    ensures Open(s, tokens + [t]) == if t.Skipped? then [] else Open(s, tokens) + TextOf(s, t)
  {
    assert (tokens + [t])[..|tokens|] == tokens;
  }

  lemma WithinFront(s: JsString, tokens: seq<Token>)
    requires Within(s, tokens) && tokens != []
    ensures Within(s, tokens[..|tokens| - 1]) && tokens[|tokens| - 1].End() <= |s|
  {
    assert tokens[|tokens| - 1] in tokens;
  }

  /** Behind a skipped construct the parts start anew. */
  lemma {:induction false} PartsCut(s: JsString, a: seq<Token>, t: Token, b: seq<Token>)
    requires Within(s, a) && t.End() <= |s| && t.Skipped? && Within(s, b)
    ensures Within(s, a + [t] + b)
    ensures Closed(s, a + [t] + b) == Parts(s, a) + Closed(s, b)
    ensures Open(s, a + [t] + b) == Open(s, b)
    decreases |b|
  {
    PartsOn(s, a, t);
    if b == [] {
      assert a + [t] + b == a + [t];
    } else {
      var n := |b| - 1;
      WithinFront(s, b);
      PartsCut(s, a, t, b[..n]);
      FrontAndLast(a + [t], b);
      PartsOn(s, a + [t] + b[..n], b[n]);
      PartsOn(s, b[..n], b[n]);
      Regroup(Parts(s, a), Closed(s, b[..n]), if b[n].Skipped? then [Open(s, b[..n])] else []);
    }
  }

  /** A skipped construct cuts the text of a heading: what stands before it, one space, what stands behind it. */
  lemma RenderedCut(s: JsString, a: seq<Token>, t: Token, b: seq<Token>)
    requires Within(s, a + [t] + b) && Within(s, a) && Within(s, b) && t.Skipped?
    ensures Rendered(s, a + [t] + b) == Beside(Rendered(s, a), Rendered(s, b))
  {
    assert t in a + [t] + b;
    PartsCut(s, a, t, b);
    Regroup(Parts(s, a), Closed(s, b), [Open(s, b)]);
    PartsConcat(Parts(s, a), Parts(s, b));
  }

  /** `text` holds one code unit for every token: its own, or, of an escape, the second. */
  ghost predicate OneEach(s: JsString, tokens: seq<Token>, text: JsString) {
    |text| == |tokens| && forall k | 0 <= k < |tokens| :: Gives(s, tokens[k], text[k])
  }

  predicate Gives(s: JsString, t: Token, u: CodeUnit) {
    match t
    case Plain(at) => At(s, at, u)
    case Escaped(at) => At(s, at + 1, u)
    case Skipped(_, _) => false
  }

  lemma {:induction false} UncutParts(s: JsString, tokens: seq<Token>)
    requires Within(s, tokens) && forall t | t in tokens :: !t.Skipped?
    ensures Closed(s, tokens) == [] && OneEach(s, tokens, Open(s, tokens))
  {
    if tokens != [] {
      var n := |tokens| - 1;
      assert tokens[n] in tokens;
      UncutParts(s, tokens[..n]);
      OneEachOn(s, tokens, Open(s, tokens[..n]), TextOf(s, tokens[n]));
    }
  }

  lemma OneEachOn(s: JsString, tokens: seq<Token>, text: JsString, last: JsString)
    requires tokens != [] && OneEach(s, tokens[..|tokens| - 1], text)
    requires |last| == 1 && Gives(s, tokens[|tokens| - 1], last[0])
    ensures OneEach(s, tokens, text + last)
  {
  }

  /** Where nothing is skipped, every token gives one code unit. */
  lemma RenderedUncut(s: JsString, tokens: seq<Token>)
    requires Within(s, tokens) && forall t | t in tokens :: !t.Skipped?
    ensures OneEach(s, tokens, Rendered(s, tokens))
  {
    UncutParts(s, tokens);
    JoinSingle(Open(s, tokens));
    assert Parts(s, tokens) == [Open(s, tokens)];
  }

  lemma JoinSingle(part: JsString)
    ensures Join(NonEmpty([part])) == part
  {
    NonEmptyOne([], part);
    assert [] + [part] == [part];
  }

  /**
   * The text of a whole heading, cut at any construct its reading skips. With
   * `RenderedUncut` this determines it.
   */
  lemma HeadingIsCut(s: JsString, heading: JsString, a: seq<Token>, t: Token, b: seq<Token>)
    requires IsHeadingText(s, heading) && IsReading(s, a + [t] + b) && t.Skipped?
    ensures Within(s, a) && Within(s, b) && heading == Beside(Rendered(s, a), Rendered(s, b))
  {
    var tokens := a + [t] + b;
    ReadingTiles(s, tokens);
    forall x | x in tokens ensures x.End() <= |s| {
      var k: nat :| k < |tokens| && tokens[k] == x;
    }
    assert forall x | x in a || x in b :: x in tokens;
    RenderedCut(s, a, t, b);
    assert IsHeadingText(s, Rendered(s, tokens));
    HeadingTextUnique(s, heading, Rendered(s, tokens));
  }

  // ----- nothing lost, nothing read twice -----

  ghost predicate Spans(s: JsString, tokens: seq<Token>) {
    forall k | 0 <= k < |tokens| :: tokens[k].Start() < tokens[k].End() <= |s|
  }

  /** The stretches the first `k` tokens read, put together again. */
  ghost function Sources(s: JsString, tokens: seq<Token>, k: nat): JsString
    requires Spans(s, tokens) && k <= |tokens|
    decreases k
  {
    if k == 0 then []
    else
      var t := tokens[k - 1];
      Sources(s, tokens, k - 1) + s[t.Start()..t.End()]
  }

  lemma SourcesOn(s: JsString, tokens: seq<Token>, k: nat)
    requires Spans(s, tokens) && Chained(tokens) && 0 < k <= |tokens|
    ensures Reached(tokens, k - 1) <= Reached(tokens, k) <= |s|
    ensures Sources(s, tokens, k) == Sources(s, tokens, k - 1) + s[Reached(tokens, k - 1)..Reached(tokens, k)]
  {
    assert tokens[k - 1].Start() == Reached(tokens, k - 1);
  }

  lemma {:induction false} TokensTileUpTo(s: JsString, tokens: seq<Token>, k: nat)
    requires Spans(s, tokens) && Chained(tokens) && k <= |tokens|
    ensures Reached(tokens, k) <= |s| && Sources(s, tokens, k) == s[..Reached(tokens, k)]
    decreases k
  {
    if k > 0 {
      TokensTileUpTo(s, tokens, k - 1);
      SourcesOn(s, tokens, k);
    }
  }

  /** The stretches a reading is made of, put together again, are the heading. */
  lemma ReadingTiles(s: JsString, tokens: seq<Token>)
    requires IsReading(s, tokens)
    ensures Spans(s, tokens) && Sources(s, tokens, |tokens|) == s
  {
    forall k | 0 <= k < |tokens| ensures tokens[k].Start() < tokens[k].End() <= |s| {
      TokenAdvances(s, tokens, k);
    }
    TokensTileUpTo(s, tokens, |tokens|);
    assert s[..|s|] == s;
  }

  // ----- headings without markup -----

  predicate IsMarkup(u: CodeUnit) {
    u == BACKSLASH || u == BACKTICK || u == LBRACKET || u == BANG || u == LESS || u == LBRACE
    || u == STAR || u == UNDERSCORE
  }

  /** When every token is a plain character, the `k`th is the `k`th character. */
  lemma {:induction false} PlainInOrder(tokens: seq<Token>, k: nat)
    requires Chained(tokens) && k <= |tokens| && forall i | 0 <= i < |tokens| :: tokens[i].Plain?
    ensures Reached(tokens, k) == k && forall i | 0 <= i < k :: tokens[i] == Plain(i)
    decreases k
  {
    if k > 0 {
      PlainInOrder(tokens, k - 1);
      StartsWhereReached(tokens, k - 1);
    }
  }

  lemma PlainText(s: JsString, tokens: seq<Token>, text: JsString)
    requires OneEach(s, tokens, text) && |tokens| == |s| && forall i | 0 <= i < |tokens| :: tokens[i] == Plain(i)
    ensures text == s
  {
    forall i | 0 <= i < |s| ensures text[i] == s[i] {
      assert Gives(s, tokens[i], text[i]);
    }
  }

  lemma PlainToken(s: JsString, t: Token)
    requires IsToken(s, t) && forall u | u in s :: !IsMarkup(u)
    ensures t.Plain?
  {
    assert t.Start() < |s|;
    assert s[t.Start()] in s;
    WhatOpens(s, t);
  }

  /** A heading without markup characters is its own text. */
  lemma PlainHeadingIsItself(s: JsString, tokens: seq<Token>)
    requires IsReading(s, tokens) && Within(s, tokens) && forall u | u in s :: !IsMarkup(u)
    ensures Join(NonEmpty(Parts(s, tokens))) == s
  {
    forall i | 0 <= i < |tokens| ensures tokens[i].Plain? {
      PlainToken(s, tokens[i]);
    }
    PlainInOrder(tokens, |tokens|);
    RenderedUncut(s, tokens);
    PlainText(s, tokens, Rendered(s, tokens));
  }

  // ----- where the scanner departs from CommonMark -----

  /** A backtick string of length `m` starts at or after `from`. */
  predicate LaterString(s: JsString, from: nat, m: nat) {
    exists j | from <= j < |s| :: BacktickString(s, j, m)
  }

  /** Where the first backtick string of length `m` from `from` on starts, -1 when there is none. */
  function NextString(s: JsString, from: nat, m: nat): (j: int)
    ensures j == -1 || j >= from
    decreases |s| - from
  {
    if from >= |s| then -1 else if BacktickString(s, from, m) then from else NextString(s, from + 1, m)
  }

  lemma {:induction false} NextStringIsFirst(s: JsString, from: nat, m: nat, j: int)
    requires j == NextString(s, from, m)
    ensures j != -1 ==> BacktickString(s, j, m)
    ensures forall k | from <= k && (j == -1 || k < j) :: !BacktickString(s, k, m)
    ensures j == -1 <==> !LaterString(s, from, m)
    decreases |s| - from
  {
    if from < |s| && !BacktickString(s, from, m) {
      NextStringIsFirst(s, from + 1, m, j);
    }
  }

  predicate NoneLonger(s: JsString, from: nat, m: nat, n: nat) {
    forall q | m < q <= n :: NextString(s, from, q) == -1
  }

  /** The greatest length up to `n` of a backtick string from `from` on, 0 when there is none. */
  function LongestLater(s: JsString, from: nat, n: nat): (m: nat)
    ensures m <= n && (m > 0 ==> NextString(s, from, m) != -1) && NoneLonger(s, from, m, n)
  {
    if n == 0 || NextString(s, from, n) != -1 then n else LongestLater(s, from, n - 1)
  }

  lemma LongestLaterIs(s: JsString, from: nat, n: nat, m: nat)
    requires m == LongestLater(s, from, n)
    ensures m > 0 ==> LaterString(s, from, m)
    ensures forall q: nat | m < q <= n :: !LaterString(s, from, q)
  {
    NextStringIsFirst(s, from, m, NextString(s, from, m));
    forall q: nat | m < q <= n ensures !LaterString(s, from, q) {
      NextStringIsFirst(s, from, q, NextString(s, from, q));
    }
  }

  /** `count` tokens from the `k`th on are plain characters from `i` on. */
  predicate AsText(tokens: seq<Token>, k: nat, i: nat, count: nat)
    requires k + count <= |tokens|
  {
    forall u | k <= u < k + count :: tokens[u] == Plain(i + (u - k))
  }

  lemma RunSuffix(s: JsString, i: nat, t: nat)
    requires i <= |s| && t <= Run(s, i, BACKTICK)
    ensures Run(s, i + t, BACKTICK) == Run(s, i, BACKTICK) - t
  {
    assert forall k | i <= k < i + Run(s, i, BACKTICK) :: At(s, k, BACKTICK);
  }

  /** At a backtick the scanner looks for a string as long as the run it stands at the front of. */
  function TickToken(s: JsString, i: nat): Token
    requires i <= |s|
  {
    var n := Run(s, i, BACKTICK);
    var j := NextString(s, i + n, n);
    if j == -1 then Plain(i) else Skipped(i, j + n)
  }

  lemma TokenAtBacktick(s: JsString, t: Token, i: nat)
    requires IsToken(s, t) && t.Start() == i && At(s, i, BACKTICK)
    ensures t == TickToken(s, i)
  {
    var n := Run(s, i, BACKTICK);
    var j := NextString(s, i + n, n);
    NextStringIsFirst(s, i + n, n, j);
    SpanEndUnique(s, i, n, if t.Skipped? then t.to else -1, if j == -1 then -1 else j + n);
  }

  predicate ReadsTicks(s: JsString, tokens: seq<Token>) {
    forall k {:trigger Reached(tokens, k)} | 0 <= k <= |tokens| && At(s, Reached(tokens, k), BACKTICK) ::
      k < |tokens| && tokens[k] == TickToken(s, Reached(tokens, k))
  }

  lemma ReadingReadsTicks(s: JsString, tokens: seq<Token>)
    requires IsReading(s, tokens)
    ensures ReadsTicks(s, tokens)
  {
    forall k: nat | k <= |tokens| && At(s, Reached(tokens, k), BACKTICK)
      ensures k < |tokens| && tokens[k] == TickToken(s, Reached(tokens, k))
    {
      StartsWhereReached(tokens, k);
      TokenAtBacktick(s, tokens[k], Reached(tokens, k));
    }
  }

  lemma AsTextOn(tokens: seq<Token>, k: nat, i: nat, count: nat)
    requires k + count < |tokens| && AsText(tokens, k, i, count) && tokens[k + count] == Plain(i + count)
    ensures AsText(tokens, k, i, count + 1) && Reached(tokens, k + count + 1) == i + count + 1
  {
  }

  /** The token at the backtick `count` behind the front of a run. */
  lemma TokenInRun(s: JsString, tokens: seq<Token>, k: nat, i: nat, n: nat, after: nat, count: nat)
    requires ReadsTicks(s, tokens) && k <= |tokens| && Reached(tokens, k) == i + count
    requires i <= |s| && count < n && n == Run(s, i, BACKTICK) && after == i + n
    ensures k < |tokens|
    ensures tokens[k] == if NextString(s, after, n - count) == -1 then Plain(i + count)
                         else Skipped(i + count, NextString(s, after, n - count) + (n - count))
  {
    RunSuffix(s, i, count);
  }

  /** As long as no later string is that long, the run is taken as text, one backtick at a time. */
  lemma {:induction false} RunTakenAsText(
      s: JsString, tokens: seq<Token>, k: nat, i: nat, n: nat, after: nat, count: nat)
    requires ReadsTicks(s, tokens) && k <= |tokens| && Reached(tokens, k) == i
    requires i <= |s| && n == Run(s, i, BACKTICK) && after == i + n
    requires count <= n && NoneLonger(s, after, n - count, n)
    ensures k + count <= |tokens| && Reached(tokens, k + count) == i + count && AsText(tokens, k, i, count)
    decreases count
  {
    if count > 0 {
      var before := count - 1;
      RunTakenAsText(s, tokens, k, i, n, after, before);
      TokenInRun(s, tokens, k + before, i, n, after, before);
      AsTextOn(tokens, k, i, before);
    }
  }

  lemma {:induction false} RunIsTaken(
      s: JsString, tokens: seq<Token>, k: nat, i: nat, n: nat, after: nat, m: nat)
    requires ReadsTicks(s, tokens) && k <= |tokens| && Reached(tokens, k) == i
    requires At(s, i, BACKTICK) && n == Run(s, i, BACKTICK) && after == i + n && m == LongestLater(s, after, n)
    ensures k + (n - m) <= |tokens| && AsText(tokens, k, i, n - m)
    ensures m > 0 ==>
              && k + (n - m) < |tokens| && NextString(s, after, m) != -1
              && tokens[k + (n - m)] == Skipped(i + (n - m), NextString(s, after, m) + m)
  {
    var count := n - m;
    RunTakenAsText(s, tokens, k, i, n, after, count);
    if m > 0 {
      TokenInRun(s, tokens, k + count, i, n, after, count);
    }
  }

  /**
   * How a heading's reading takes a run of `n` backticks it reaches at `i`: with
   * `m` the greatest length up to `n` of a backtick string further on, and `j`
   * the first of those, the first `n - m` backticks are text and the rest open a
   * span that ends with that string; without any, the whole run is text.
   */
  lemma {:induction false} BacktickRunIsRead(s: JsString, tokens: seq<Token>, k: nat, i: nat, n: nat, after: nat)
    returns (m: nat, j: int)
    requires IsReading(s, tokens) && k <= |tokens| && Reached(tokens, k) == i
    requires At(s, i, BACKTICK) && n == Run(s, i, BACKTICK) && after == i + n
    ensures m <= n && forall q: nat | m < q <= n :: !LaterString(s, after, q)
    ensures k + (n - m) <= |tokens| && AsText(tokens, k, i, n - m)
    ensures m > 0 ==>
              && after <= j && BacktickString(s, j, m) && (forall p | after <= p < j :: !BacktickString(s, p, m))
              && k + (n - m) < |tokens| && tokens[k + (n - m)] == Skipped(i + (n - m), j + m)
  {
    m := LongestLater(s, after, n);
    j := NextString(s, after, m);
    LongestLaterIs(s, after, n, m);
    NextStringIsFirst(s, after, m, j);
    ReadingReadsTicks(s, tokens);
    RunIsTaken(s, tokens, k, i, n, after, m);
  }

  /** Every token takes some of the heading. */
  predicate Advancing(tokens: seq<Token>) {
    forall t | t in tokens :: t.Start() < t.End()
  }

  lemma TokensAdvance(s: JsString, tokens: seq<Token>)
    requires AreTokens(s, tokens)
    ensures Advancing(tokens)
  {
    forall t | t in tokens ensures t.Start() < t.End() {
      var k: nat :| k < |tokens| && tokens[k] == t;
      TokenAdvances(s, tokens, k);
    }
  }

  lemma {:induction false} StartsAscend(tokens: seq<Token>, p: nat, q: nat)
    requires Chained(tokens) && Advancing(tokens) && p < q < |tokens|
    ensures tokens[p].End() <= tokens[q].Start()
    decreases q
  {
    StartsWhereReached(tokens, q);
    if p < q - 1 {
      StartsAscend(tokens, p, q - 1);
      assert tokens[q - 1] in tokens;
    }
  }

  /** Of two tokens the one that starts earlier ends before the other starts. */
  lemma StartsApart(s: JsString, tokens: seq<Token>, p: nat, q: nat)
    requires AreTokens(s, tokens) && Chained(tokens) && p < |tokens| && q < |tokens|
    ensures tokens[p].Start() == tokens[q].Start() ==> p == q
    ensures tokens[p].Start() < tokens[q].Start() ==> tokens[p].End() <= tokens[q].Start()
  {
    TokensAdvance(s, tokens);
    assert tokens[p] in tokens && tokens[q] in tokens;
    if p < q {
      StartsAscend(tokens, p, q);
    } else if q < p {
      StartsAscend(tokens, q, p);
    }
  }

  /** A span opened inside a run the reading reaches at its front leaves text in front, and was no longer possible. */
  lemma OpenedInside(s: JsString, tokens: seq<Token>, k: nat, i: nat, n: nat, after: nat, m: nat, q: nat)
    requires IsReading(s, tokens) && k <= |tokens| && Reached(tokens, k) == i
    requires At(s, i, BACKTICK) && n == Run(s, i, BACKTICK) && after == i + n && m == LongestLater(s, after, n)
    requires q < |tokens| && tokens[q].Skipped? && i < tokens[q].from < after
    ensures 0 < m < n
  {
    ReadingReadsTicks(s, tokens);
    RunIsTaken(s, tokens, k, i, n, after, m);
    if m == n {
      StartsApart(s, tokens, k, q);
    } else if m == 0 {
      StartsApart(s, tokens, k + (tokens[q].from - i), q);
    }
  }

  /** A span opens at `from` or later, but before `to`. */
  predicate SpanOpens(tokens: seq<Token>, from: nat, to: nat) {
    exists t :: t in tokens && t.Skipped? && from <= t.from < to
  }

  /** A backtick string of fewer than `n` starts at or after `from`. */
  predicate ShorterLater(s: JsString, from: nat, n: nat) {
    exists m: nat | 0 < m < n :: LaterString(s, from, m)
  }

  /**
   * The scanner opens a span behind the front of a run it reaches, where
   * CommonMark opens none, if and only if no later backtick string is as long
   * as the run and some later one is shorter.
   */
  lemma {:induction false} OpensInsideRunIff(s: JsString, tokens: seq<Token>, k: nat, i: nat, n: nat, after: nat)
    requires IsReading(s, tokens) && k <= |tokens| && Reached(tokens, k) == i
    requires At(s, i, BACKTICK) && n == Run(s, i, BACKTICK) && after == i + n
    ensures SpanOpens(tokens, i + 1, after) <==> !LaterString(s, after, n) && ShorterLater(s, after, n)
  {
    var m := LongestLater(s, after, n);
    ReadingReadsTicks(s, tokens);
    RunIsTaken(s, tokens, k, i, n, after, m);
    LongestLaterIs(s, after, n, m);
    if 0 < m < n {
      assert tokens[k + (n - m)] in tokens;
    }
    if t :| t in tokens && t.Skipped? && i < t.from < after {
      var q: nat :| q < |tokens| && tokens[q] == t;
      OpenedInside(s, tokens, k, i, n, after, m, q);
    }
  }

  /** The scanner opens a span in a run it reaches if and only if some later backtick string is no longer. */
  lemma {:induction false} OpensInRunIff(s: JsString, tokens: seq<Token>, k: nat, i: nat, n: nat, after: nat)
    requires IsReading(s, tokens) && k <= |tokens| && Reached(tokens, k) == i
    requires At(s, i, BACKTICK) && n == Run(s, i, BACKTICK) && after == i + n
    ensures SpanOpens(tokens, i, after) <==> ShorterLater(s, after, n + 1)
  {
    var m := LongestLater(s, after, n);
    ReadingReadsTicks(s, tokens);
    RunIsTaken(s, tokens, k, i, n, after, m);
    LongestLaterIs(s, after, n, m);
    if m > 0 {
      assert tokens[k + (n - m)] in tokens;
    }
    if t :| t in tokens && t.Skipped? && i <= t.from < after {
      var q: nat :| q < |tokens| && tokens[q] == t;
      if i == t.from {
        StartsWhereReached(tokens, q);
        StartsApartAt(s, tokens, k, q);
      } else {
        OpenedInside(s, tokens, k, i, n, after, m, q);
      }
    }
  }

  /** Only one token starts at a place. */
  lemma StartsApartAt(s: JsString, tokens: seq<Token>, k: nat, q: nat)
    requires AreTokens(s, tokens) && Chained(tokens) && k < |tokens| && q < |tokens|
    requires Reached(tokens, k) == tokens[q].Start()
    ensures k == q
  {
    StartsWhereReached(tokens, k);
    StartsApart(s, tokens, k, q);
  }

  /** A construct that ends on a backtick is a code span, which no backtick follows. */
  lemma EndsOnBacktick(s: JsString, i: nat, end: int)
    requires i < |s| && IsConstructEnd(s, i, end) && end != -1 && At(s, end - 1, BACKTICK)
    ensures !At(s, end, BACKTICK)
  {
    if s[i] != BACKTICK {
      ConstructCloses(s, i, end);
    }
  }

  lemma BalancedCloses(s: JsString, start: nat, open: CodeUnit, close: CodeUnit, end: int)
    requires At(s, start, open) && open != close && IsBalancedEnd(s, start, open, close, end) && end != -1
    ensures s[end - 1] == close
  {
    assert Depth(s, start, start, open, close) == 0 && Depth(s, start, start + 1, open, close) == 1;
    assert Depth(s, start, end - 1, open, close) > 0;
  }

  /** Every other construct ends with its own closing character. */
  lemma ConstructCloses(s: JsString, i: nat, end: int)
    requires i < |s| && IsConstructEnd(s, i, end) && end != -1 && s[i] != BACKTICK
    ensures 0 < end <= |s| && s[end - 1] != BACKTICK
  {
    ConstructAdvances(s, i, end);
    if OpensLink(s, i) {
      var from := if At(s, i, BANG) then i + 1 else i;
      var text: int :| IsBalancedEnd(s, from, LBRACKET, RBRACKET, text) && IsTargetEnd(s, text, end);
      BalancedCloses(s, text, s[text], if At(s, text, LPAREN) then RPAREN else RBRACKET, end);
    } else if s[i] == LESS {
      ElementEndsTag(s, i, end);
    } else if s[i] == LBRACE {
      BalancedCloses(s, i, LBRACE, RBRACE, end);
    } else {
      var run := Run(s, i, s[i]);
      assert s[end - run] == s[i] && Run(s, end - run, s[i]) >= run;
    }
  }

  /** What has been read lies within some token. */
  lemma {:induction false} Covered(tokens: seq<Token>, a: nat, count: nat) returns (k: nat)
    requires Chained(tokens) && count <= |tokens| && a < Reached(tokens, count)
    ensures k < count && tokens[k].Start() <= a < tokens[k].End()
  {
    k := count - 1;
    StartsWhereReached(tokens, k);
    if a < tokens[k].Start() {
      k := Covered(tokens, a, k);
    }
  }

  /** Some token starts at `a`: the scanner stops there. */
  predicate Stops(tokens: seq<Token>, a: nat) {
    exists t :: t in tokens && t.Start() == a
  }

  /** Only an escape of its front ends inside a backtick string without having begun there. */
  lemma EndsInsideString(s: JsString, t: Token, a: nat, n: nat, after: nat)
    requires IsToken(s, t) && BacktickString(s, a, n) && after == a + n
    requires t.Start() < a < t.End() < after
    ensures t == Escaped(a - 1)
  {
    if t.Skipped? {
      EndsOnBacktick(s, t.from, t.to);
    }
  }

  /**
   * Where the scanner is when a span opens behind the front of a backtick string:
   * it stopped at the front, or the front was escaped.
   */
  lemma ReachesString(s: JsString, tokens: seq<Token>, a: nat, n: nat, after: nat, t: Token)
    requires IsReading(s, tokens) && BacktickString(s, a, n) && after == a + n
    requires t in tokens && a < t.Start() < after
    ensures Stops(tokens, a) || (a > 0 && Escaped(a - 1) in tokens)
  {
    var q: nat :| q < |tokens| && tokens[q] == t;
    var k := Covered(tokens, a, |tokens|);
    if tokens[k].Start() < a {
      StartsApart(s, tokens, k, q);
      EndsInsideString(s, tokens[k], a, n, after);
    }
  }

  lemma StringFront(s: JsString, a: nat, n: nat)
    requires BacktickString(s, a, n)
    ensures At(s, a, BACKTICK) && Run(s, a, BACKTICK) == n
    ensures n > 1 ==> At(s, a + 1, BACKTICK) && Run(s, a + 1, BACKTICK) == n - 1
  {
    assert Run(s, a, BACKTICK) == n;
    RunSuffix(s, a, 1);
  }

  /**
   * Which backtick strings of a heading the scanner breaks: a span opens behind
   * the front of one if and only if some later string is shorter and either
   * the front is escaped, or the scanner stops at it and no later string is
   * as long.
   */
  lemma {:induction false} OpensInsideStringIff(s: JsString, tokens: seq<Token>, a: nat, n: nat, after: nat)
    requires IsReading(s, tokens) && BacktickString(s, a, n) && after == a + n
    ensures SpanOpens(tokens, a + 1, after) <==>
            && ShorterLater(s, after, n)
            && ((a > 0 && Escaped(a - 1) in tokens) || (Stops(tokens, a) && !LaterString(s, after, n)))
  {
    StringFront(s, a, n);
    if a > 0 && Escaped(a - 1) in tokens {
      OpensBehindEscapeIff(s, tokens, a, n, after);
      NotBoth(s, tokens, a);
    } else if Stops(tokens, a) {
      var k: nat :| k < |tokens| && tokens[k].Start() == a;
      StartsWhereReached(tokens, k);
      OpensInsideRunIff(s, tokens, k, a, n, after);
    } else if SpanOpens(tokens, a + 1, after) {
      var t :| t in tokens && t.Skipped? && a < t.from < after;
      ReachesString(s, tokens, a, n, after, t);
    }
  }

  lemma NotBoth(s: JsString, tokens: seq<Token>, a: nat)
    requires AreTokens(s, tokens) && Chained(tokens) && a > 0 && Escaped(a - 1) in tokens
    ensures !Stops(tokens, a)
  {
    if Stops(tokens, a) {
      var k: nat :| k < |tokens| && tokens[k].Start() == a;
      var q: nat :| q < |tokens| && tokens[q] == Escaped(a - 1);
      StartsApart(s, tokens, q, k);
    }
  }

  lemma ReachedBehind(tokens: seq<Token>, t: Token) returns (k: nat)
    requires t in tokens
    ensures k <= |tokens| && Reached(tokens, k) == t.End()
  {
    var q: nat :| q < |tokens| && tokens[q] == t;
    k := q + 1;
  }

  /** Behind an escaped backtick the rest of the string is a run like any other. */
  lemma OpensBehindEscapeIff(s: JsString, tokens: seq<Token>, a: nat, n: nat, after: nat)
    requires IsReading(s, tokens) && BacktickString(s, a, n) && after == a + n
    requires a > 0 && Escaped(a - 1) in tokens
    ensures SpanOpens(tokens, a + 1, after) <==> ShorterLater(s, after, n)
  {
    StringFront(s, a, n);
    if n > 1 {
      var k := ReachedBehind(tokens, Escaped(a - 1));
      OpensInRunIff(s, tokens, k, a + 1, n - 1, after);
    }
  }

  const UNMATCHED: JsString := [BACKTICK, BACKTICK, BACKTICK, 'a' as int, BACKTICK, BACKTICK]
  const UNMATCHED_TOKENS := [Plain(0), Skipped(1, 6)]

  lemma UnmatchedIsRead()
    ensures IsReading(UNMATCHED, UNMATCHED_TOKENS) && Within(UNMATCHED, UNMATCHED_TOKENS)
  {
    var s, tokens := UNMATCHED, UNMATCHED_TOKENS;
    assert BacktickString(s, 4, 2);
    assert IsSpanEnd(s, 1, 2, 6);
    assert forall k | 0 <= k < |tokens| :: IsToken(s, tokens[k]);
  }

  lemma UnmatchedText()
    requires Within(UNMATCHED, UNMATCHED_TOKENS)
    ensures Join(NonEmpty(Parts(UNMATCHED, UNMATCHED_TOKENS))) == [BACKTICK]
  {
    var s, tokens := UNMATCHED, UNMATCHED_TOKENS;
    assert tokens[..1] == [Plain(0)] && [Plain(0)][..0] == [];
    assert Open(s, [Plain(0)]) == [BACKTICK];
    assert Open(s, tokens) == [];
    assert Closed(s, [Plain(0)]) == [];
    assert Closed(s, tokens) == [[BACKTICK]];
    NonEmptyOne([], [BACKTICK]);
    NonEmptyOne([[BACKTICK]], []);
    assert [[BACKTICK]] + [] == [[BACKTICK]];
  }

  /**
   * Three backticks never closed, then a pair: the first backtick is taken as
   * text and the two after it open a span, although they are no backtick
   * string of their own, so the whole rest of the heading is skipped.
   */
  lemma UnmatchedRunOpensShorterSpan()
    ensures IsHeadingText(UNMATCHED, [BACKTICK])
    ensures !BacktickString(UNMATCHED, 1, 2)
  {
    UnmatchedIsRead();
    UnmatchedText();
  }

  const ESCAPED_FRONT: JsString :=
    [BACKSLASH, BACKTICK, BACKTICK, 'a' as int, BACKTICK, 'b' as int, BACKTICK, BACKTICK]
  const ESCAPED_FRONT_TOKENS := [Escaped(0), Skipped(2, 5), Plain(5), Plain(6), Plain(7)]

  /**
   * Two backticks, the first of them escaped: the second opens a span that ends
   * at a single backtick, although a string of two follows further down.
   */
  lemma EscapedFrontOpensSpan()
    ensures IsReading(ESCAPED_FRONT, ESCAPED_FRONT_TOKENS)
    ensures BacktickString(ESCAPED_FRONT, 1, 2) && LaterString(ESCAPED_FRONT, 3, 2)
  {
    var s, tokens := ESCAPED_FRONT, ESCAPED_FRONT_TOKENS;
    assert BacktickString(s, 4, 1) && BacktickString(s, 6, 2);
    assert Run(s, 2, BACKTICK) == 1 && Run(s, 6, BACKTICK) == 2 && Run(s, 7, BACKTICK) == 1;
    assert IsSpanEnd(s, 2, 1, 5);
    assert IsToken(s, tokens[0]) && IsToken(s, tokens[1]) && IsToken(s, tokens[2]);
    assert IsToken(s, tokens[3]) && IsToken(s, tokens[4]);
    assert forall k | 0 <= k < |tokens| :: IsToken(s, tokens[k]);
  }
}

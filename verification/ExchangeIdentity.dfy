/** Frozen exchange wrappers, and the mutable internals that derivations share by reference. */
module ExchangeIdentity {
  import opened Basics

  // ----- headers -----

  /**
   * A header value or body. A `randomUUID()` is named by the operation that
   * minted it, so two of them are equal only if they are the same one.
   */
  datatype Value = Undefined | Null | Uuid(step: nat, slot: nat) | From | EmptyObject | Data(n: nat)

  type Headers = map<string, Value>

  const ID := "routecraft.id"
  const ROUTE_ID := "routecraft.route"
  const OPERATION := "routecraft.operation"
  const CORRELATION_ID := "routecraft.correlation_id"
  const OWNER := "routecraft.suspension.owner"

  const REQUIRED := {ID, ROUTE_ID, OPERATION, CORRELATION_ID}

  function Get(headers: Headers, key: string): Value {
    if key in headers then headers[key] else Undefined
  }

  predicate Nullish(v: Value) {
    v.Undefined? || v.Null?
  }

  /** `a ?? b` */
  function Or(a: Value, b: Value): Value {
    if Nullish(a) then b else a
  }

  /** The constructor's header bag: what was supplied, with the four required keys filled in. */
  function Complete(supplied: Headers, now: nat): Headers {
    supplied[ID := Or(Get(supplied, ID), Uuid(now, 0))]
      [ROUTE_ID := Or(Get(supplied, ROUTE_ID), Uuid(now, 1))]
      [OPERATION := Or(Get(supplied, OPERATION), From)]
      [CORRELATION_ID := Or(Get(supplied, CORRELATION_ID), Uuid(now, 2))]
  }

  /** `rewrap` forces the previous id onto the headers it was given. */
  function WithId(headers: Headers, id: Value): Headers {
    if Get(headers, ID) == id then headers else headers[ID := id]
  }

  /** `cloneExchange`: a new id, and whose snapshot this is. */
  function Snapshot(headers: Headers, id: Value, now: nat): Headers {
    headers[ID := Uuid(now, 3)][OWNER := Or(Get(headers, OWNER), id)]
  }

  // ----- objects -----

  class Internals {
    var dropped: bool
    var suspended: bool
    var outputValidatedAgainst: Option<nat>

    constructor ()
      ensures !dropped && !suspended && outputValidatedAgainst == None
    {
      dropped, suspended, outputValidatedAgainst := false, false, None;
    }
  }

  /**
   * An exchange as a step sees it: a genuine `DefaultExchange`, whose `id` is
   * read from its headers, or a plain object user code made. A plain object
   * spread from an exchange carries its internals along, since they hang off
   * an enumerable symbol key, but not the `id` getter of its prototype.
   */
  class Exchange {
    const genuine: bool
    const headers: Headers
    const body: Value
    const internals: Internals?
    const ownId: Value

    constructor (genuine: bool, headers: Headers, body: Value, internals: Internals?, ownId: Value)
      ensures this.genuine == genuine && this.headers == headers && this.body == body
      ensures this.internals == internals && this.ownId == ownId
    {
      this.genuine, this.headers, this.body, this.internals, this.ownId := genuine, headers, body, internals, ownId;
    }

    function Id(): Value {
      if genuine then Get(headers, ID) else ownId
    }
  }

  // ----- histories -----

  /** What `markDropped` and `markSuspended` set. */
  datatype Flag = Dropped | Suspended

  /**
   * A rewrap whose body is plain data is one step, `Rewrapped`. One whose body
   * is read by a getter is `Offered`, whatever the getter does, and, unless
   * that threw, `Constructed`. `Broke` is a constructor that threw.
   */
  datatype Operation =
    | Constructed(made: Exchange, supplied: Headers)
    | Rewrapped(made: Exchange, of: Exchange, partial: Option<Headers>)
    | Cloned(made: Exchange, of: Exchange)
    | Spread(made: Exchange, from: Option<Exchange>)
    | Offered(of: Exchange)
    | Broke
    | Marked(on: Exchange, flag: Flag)
    | MarkedValidated(on: Exchange, schema: nat)
  {
    predicate Makes() {
      Constructed? || Rewrapped? || Cloned? || Spread?
    }

    predicate Marks() {
      Marked? || MarkedValidated?
    }

    /** It ran the constructor, which empties the hand-off slot. */
    predicate Takes() {
      Constructed? || Rewrapped? || Cloned? || Broke?
    }
  }

  function Past(h: seq<Operation>): seq<Operation>
    requires h != []
  {
    h[..|h| - 1]
  }

  function Last(h: seq<Operation>): Operation
    requires h != []
  {
    h[|h| - 1]
  }

  function Made(h: seq<Operation>): set<Exchange> {
    if h == [] then {}
    else Made(Past(h)) + (if Last(h).Makes() then {Last(h).made} else {})
  }

  /** Whose internals wait in the hand-off slot. */
  function Slot(h: seq<Operation>): Option<Exchange> {
    if h == [] then None
    else if Last(h).Offered? then Some(Last(h).of)
    else if Last(h).Takes() then None
    else Slot(Past(h))
  }

  /** Whose internals an operation passes on to what it makes. */
  function Parent(h: seq<Operation>, op: Operation): Option<Exchange> {
    match op
    case Constructed(_, _) => Slot(h)
    case Cloned(_, _) => Slot(h)
    case Rewrapped(_, of, _) => Some(of)
    case Spread(_, from) => from
    case _ => None
  }

  predicate KnownValue(v: Value, now: nat) {
    v.Uuid? ==> v.step < now
  }

  /** Nobody holds a UUID that has not been minted yet. */
  predicate Known(headers: Headers, now: nat) {
    forall k | k in headers :: KnownValue(headers[k], now)
  }

  predicate FreshInternals(h: seq<Operation>, i: Internals?) {
    i != null && forall e | e in Made(h) :: e.internals != i
  }

  /** A genuine exchange holds the internals it was passed, or new ones. */
  predicate HoldsInternals(h: seq<Operation>, op: Operation)
    requires op.Makes()
  {
    if Parent(h, op).Some? then op.made.internals == Parent(h, op).value.internals
    else FreshInternals(h, op.made.internals)
  }

  /** What each operation makes, or acts on, after the history `h`. */
  predicate Follows(h: seq<Operation>, op: Operation) {
    && (op.Makes() ==> op.made !in Made(h))
    && match op
       case Constructed(made, supplied) =>
         made.genuine && HoldsInternals(h, op)
         && Known(supplied, |h|) && made.headers == Complete(supplied, |h|)
       case Rewrapped(made, of, partial) =>
         of in Made(h) && made.genuine && of.internals != null && HoldsInternals(h, op)
         && (partial.Some? ==> Known(partial.value, |h|))
         && made.headers == Complete(WithId(if partial.Some? then partial.value else of.headers, of.Id()), |h|)
       case Cloned(made, of) =>
         of in Made(h) && made.genuine && HoldsInternals(h, op)
         && made.headers == Complete(Snapshot(of.headers, of.Id(), |h|), |h|)
       case Spread(made, from) =>
         !made.genuine && Known(made.headers, |h|) && KnownValue(made.ownId, |h|)
         && (from.Some? ==> from.value in Made(h))
         && made.internals == (if from.Some? then from.value.internals else null)
       case Offered(of) => of in Made(h) && of.internals != null
       case Broke => true
       case Marked(on, _) => on in Made(h)
       case MarkedValidated(on, _) => on in Made(h)
  }

  predicate Lawful(h: seq<Operation>) {
    h == [] || (Lawful(Past(h)) && Follows(Past(h), Last(h)))
  }

  /** The exchange a class grew from: back through every rewrap, spread and hand-off. */
  function Origin(h: seq<Operation>, e: Exchange): Exchange {
    if h == [] then e
    else
      var parent := Parent(Past(h), Last(h));
      Origin(Past(h), if Last(h).Makes() && Last(h).made == e && parent.Some? then parent.value else e)
  }

  /** Two exchanges are derivations of one logical exchange. */
  predicate SameClass(h: seq<Operation>, a: Exchange, b: Exchange) {
    Origin(h, a) == Origin(h, b)
  }

  /** What waits in the slot are the internals of an exchange made before. */
  lemma {:induction false} SlotIsMade(h: seq<Operation>)
    requires Lawful(h) && Slot(h).Some?
    ensures Slot(h).value in Made(h) && Slot(h).value.internals != null
  {
    if !Last(h).Offered? {
      SlotIsMade(Past(h));
    }
  }

  lemma ParentIsMade(h: seq<Operation>, op: Operation)
    requires Lawful(h) && Follows(h, op) && Parent(h, op).Some?
    ensures Parent(h, op).value in Made(h)
  {
    if Slot(h).Some? {
      SlotIsMade(h);
    }
  }

  lemma {:induction false} OriginIsMade(h: seq<Operation>, e: Exchange)
    requires Lawful(h) && e in Made(h)
    ensures Origin(h, e) in Made(h)
  {
    var parent := Parent(Past(h), Last(h));
    if e in Made(Past(h)) {
      OriginIsMade(Past(h), e);
    } else if parent.Some? {
      ParentIsMade(Past(h), Last(h));
      OriginIsMade(Past(h), parent.value);
    } else {
      OriginOfNew(Past(h), e);
    }
  }

  /** An exchange that has not been made yet is in a class of its own. */
  lemma {:induction false} OriginOfNew(h: seq<Operation>, e: Exchange)
    requires e !in Made(h)
    ensures Origin(h, e) == e
  {
    if h != [] {
      OriginOfNew(Past(h), e);
    }
  }

  // ----- sharing -----

  /**
   * Internals are shared exactly along rewraps, spreads and hand-offs: two
   * exchanges hold the same internals object if and only if they are in one class.
   */
  lemma {:induction false} SharedInternalsIffSameClass(h: seq<Operation>, a: Exchange, b: Exchange)
    requires Lawful(h) && a in Made(h) && b in Made(h) && a.internals != null && b.internals != null
    ensures a.internals == b.internals <==> SameClass(h, a, b)
    decreases |h|
  {
    var past, op := Past(h), Last(h);
    if a in Made(past) && b in Made(past) {
      SharedInternalsIffSameClass(past, a, b);
    } else if a in Made(past) {
      SharedWithNew(h, b, a);
    } else if b in Made(past) {
      SharedWithNew(h, a, b);
    }
  }

  /** What a new exchange shares with an earlier one. */
  lemma {:induction false} SharedWithNew(h: seq<Operation>, a: Exchange, b: Exchange)
    requires Lawful(h) && h != [] && a in Made(h) && a !in Made(Past(h)) && b in Made(Past(h))
    requires a.internals != null && b.internals != null
    ensures a.internals == b.internals <==> SameClass(h, a, b)
    decreases |h|, 0
  {
    var past, op := Past(h), Last(h);
    if Parent(past, op).Some? {
      ParentIsMade(past, op);
      SharedInternalsIffSameClass(past, Parent(past, op).value, b);
    } else {
      OriginOfNew(past, a);
      OriginIsMade(past, b);
    }
  }

  /** The members of a class hold the internals of its origin, or none of them holds any. */
  lemma {:induction false} InternalsOfOrigin(h: seq<Operation>, e: Exchange)
    requires Lawful(h) && e in Made(h)
    ensures e.internals == Origin(h, e).internals
  {
    var past, op := Past(h), Last(h);
    if e in Made(past) {
      InternalsOfOrigin(past, e);
    } else if Parent(past, op).Some? {
      ParentIsMade(past, op);
      InternalsOfOrigin(past, Parent(past, op).value);
    } else {
      OriginOfNew(past, e);
    }
  }

  /** Writing to the internals of `on` is writing to those of its class and of nobody else. */
  lemma MarkReaches(h: seq<Operation>, on: Exchange, exchanges: set<Exchange>)
    requires Lawful(h) && on in Made(h) && exchanges == Made(h)
    ensures forall e | e in exchanges && e.internals != null :: e.internals == on.internals <==> SameClass(h, on, e)
  {
    forall e | e in exchanges && e.internals != null
      ensures e.internals == on.internals <==> SameClass(h, on, e)
    {
      if on.internals != null {
        SharedInternalsIffSameClass(h, e, on);
      } else {
        InternalsOfOrigin(h, e);
        InternalsOfOrigin(h, on);
      }
    }
  }

  // ----- headers -----

  lemma CompleteDefines(supplied: Headers, now: nat)
    ensures forall k | k in REQUIRED :: !Nullish(Get(Complete(supplied, now), k))
    ensures forall k | k !in REQUIRED :: Get(Complete(supplied, now), k) == Get(supplied, k)
    ensures forall k | k in REQUIRED && !Nullish(Get(supplied, k)) ::
              Get(Complete(supplied, now), k) == Get(supplied, k)
    ensures Nullish(Get(supplied, ID)) ==> Get(Complete(supplied, now), ID) == Uuid(now, 0)
  {
    var merged := Complete(supplied, now);
    assert merged[ID] == Or(Get(supplied, ID), Uuid(now, 0));
    assert merged[ROUTE_ID] == Or(Get(supplied, ROUTE_ID), Uuid(now, 1));
    assert merged[OPERATION] == Or(Get(supplied, OPERATION), From);
    assert merged[CORRELATION_ID] == Or(Get(supplied, CORRELATION_ID), Uuid(now, 2));
  }

  /** Every genuine exchange carries the four required headers, whatever it was made from. */
  lemma {:induction false} RequiredHeadersDefined(h: seq<Operation>, e: Exchange)
    requires Lawful(h) && e in Made(h) && e.genuine
    ensures forall k | k in REQUIRED :: !Nullish(Get(e.headers, k))
  {
    var past, op := Past(h), Last(h);
    if e in Made(past) {
      RequiredHeadersDefined(past, e);
    } else {
      match op
      case Constructed(_, supplied) => CompleteDefines(supplied, |past|);
      case Rewrapped(_, of, partial) =>
        CompleteDefines(WithId(if partial.Some? then partial.value else of.headers, of.Id()), |past|);
      case Cloned(_, of) => CompleteDefines(Snapshot(of.headers, of.Id(), |past|), |past|);
      case _ =>
    }
  }

  // ----- identity -----

  /**
   * A rewrap keeps the id, whatever headers it was handed, exactly when there
   * was an id to keep: a plain object spread from an exchange has none, and
   * rewrapping one mints a new identity.
   */
  lemma RewrapKeepsIdIff(h: seq<Operation>, made: Exchange, of: Exchange, partial: Option<Headers>)
    requires Follows(h, Rewrapped(made, of, partial))
    ensures made.Id() == of.Id() <==> !Nullish(of.Id())
  {
    CompleteDefines(WithId(if partial.Some? then partial.value else of.headers, of.Id()), |h|);
  }

  /** A rewrap takes over every other header it is given, or those of the previous exchange when it is given none. */
  lemma RewrapKeepsHeaders(h: seq<Operation>, made: Exchange, of: Exchange, partial: Option<Headers>, k: string)
    requires Follows(h, Rewrapped(made, of, partial)) && k != ID
    ensures var given := if partial.Some? then partial.value else of.headers;
            (k in REQUIRED ==> !Nullish(Get(given, k))) ==> Get(made.headers, k) == Get(given, k)
  {
    CompleteDefines(WithId(if partial.Some? then partial.value else of.headers, of.Id()), |h|);
  }

  /** Every header but the id that has a value keeps it. */
  predicate TakenOver(given: Headers, to: Headers) {
    forall k | k in given && k != ID && !Nullish(given[k]) :: Get(to, k) == given[k]
  }

  lemma RewrapCarries(h: seq<Operation>, made: Exchange, of: Exchange, partial: Option<Headers>)
    requires Follows(h, Rewrapped(made, of, partial))
    ensures TakenOver(if partial.Some? then partial.value else of.headers, made.headers)
  {
    CompleteDefines(WithId(if partial.Some? then partial.value else of.headers, of.Id()), |h|);
  }

  /**
   * A constructed exchange carries the headers it is given. The required ones
   * that are missing are filled in: the operation is `from`, the others are
   * values that no exchange carries yet, nor one another.
   */
  lemma ConstructedHeaders(h: seq<Operation>, made: Exchange, supplied: Headers, k: string)
    requires Follows(h, Constructed(made, supplied))
    ensures k !in REQUIRED || !Nullish(Get(supplied, k)) ==> Get(made.headers, k) == Get(supplied, k)
    ensures k == OPERATION && Nullish(Get(supplied, k)) ==> Get(made.headers, k) == From
  {
    CompleteDefines(supplied, |h|);
  }

  lemma ConstructedIdsAreNew(h: seq<Operation>, made: Exchange, supplied: Headers, k: string)
    requires Lawful(h) && Follows(h, Constructed(made, supplied))
    requires k in REQUIRED && k != OPERATION && Nullish(Get(supplied, k))
    ensures forall e, j | e in Made(h) && j in e.headers :: e.headers[j] != Get(made.headers, k)
    ensures forall j | j in made.headers && j != k :: made.headers[j] != Get(made.headers, k)
  {
    forall e, j | e in Made(h) && j in e.headers ensures e.headers[j] != Get(made.headers, k) {
      IdsAreKnown(h, e);
    }
  }

  /** Nothing made so far carries an id that has not been minted yet. */
  lemma {:induction false} IdsAreKnown(h: seq<Operation>, e: Exchange)
    requires Lawful(h) && e in Made(h)
    ensures Known(e.headers, |h|) && KnownValue(e.Id(), |h|)
  {
    var past, op := Past(h), Last(h);
    if e in Made(past) {
      IdsAreKnown(past, e);
    } else {
      match op
      case Constructed(_, supplied) =>
      case Rewrapped(_, of, partial) => IdsAreKnown(past, of);
      case Cloned(_, of) => IdsAreKnown(past, of);
      case _ =>
    }
  }

  /** What was made stays made, and keeps the origin it had then. */
  lemma {:induction false} OriginFixed(h: seq<Operation>, i: nat, e: Exchange)
    requires Lawful(h) && i <= |h| && e in Made(h[..i])
    ensures e in Made(h) && Origin(h, e) == Origin(h[..i], e)
    decreases |h|
  {
    if i == |h| {
      assert h[..i] == h;
    } else {
      assert Past(h)[..i] == h[..i];
      OriginFixed(Past(h), i, e);
    }
  }

  lemma {:induction false} FollowedPast(h: seq<Operation>, i: nat)
    requires Lawful(h) && i < |h|
    ensures Lawful(h[..i]) && Follows(h[..i], h[i])
    decreases |h|
  {
    if i < |h| - 1 {
      assert Past(h)[..i] == h[..i];
      FollowedPast(Past(h), i);
    }
  }

  /** A class with internals grew from a genuine exchange. */
  lemma {:induction false} OriginIsGenuine(h: seq<Operation>, e: Exchange)
    requires Lawful(h) && e in Made(h) && e.internals != null
    ensures Origin(h, e).genuine
  {
    var past, op := Past(h), Last(h);
    if e in Made(past) {
      OriginIsGenuine(past, e);
    } else if Parent(past, op).Some? {
      ParentIsMade(past, op);
      OriginIsGenuine(past, Parent(past, op).value);
    } else {
      OriginOfNew(past, e);
    }
  }

  /** Every genuine member of the class of `o` bears its id. */
  ghost predicate OneId(h: seq<Operation>, o: Exchange) {
    forall e | e in Made(h) && e.genuine && Origin(h, e) == o :: e.Id() == o.Id()
  }

  /** Whatever was rewrapped in the class of `o`, genuine or plain, bore the id of `o` then. */
  ghost predicate RewrapsBearId(h: seq<Operation>, o: Exchange) {
    forall i | 0 <= i < |h| && h[i].Rewrapped? && Origin(h, h[i].of) == o :: h[i].of.Id() == o.Id()
  }

  /** What took internals of the class of `o` out of the slot was given the id of `o`. */
  ghost predicate TakersBearId(h: seq<Operation>, o: Exchange) {
    forall i | 0 <= i < |h| && TakesFrom(h, i, o) :: h[i].Constructed? && Get(h[i].supplied, ID) == o.Id()
  }

  /** The `i`th operation found internals of the class of `o` in the slot. */
  predicate TakesFrom(h: seq<Operation>, i: nat, o: Exchange)
    requires i < |h|
  {
    && (h[i].Constructed? || h[i].Cloned?)
    && Slot(h[..i]).Some? && Origin(h[..i], Slot(h[..i]).value) == o
  }

  /** A rewrap that follows the others: its result bears the id of the class exactly when what it rewrapped does. */
  lemma RewrapInClass(h: seq<Operation>, op: Operation, o: Exchange)
    requires Lawful(h) && op.Rewrapped? && Follows(h, op) && Origin(h, op.of) == o && o.genuine
    ensures op.made.Id() == o.Id() <==> op.of.Id() == o.Id()
  {
    OriginIsMade(h, op.of);
    RequiredHeadersDefined(h, o);
    IdsAreKnown(h, o);
    CompleteDefines(WithId(if op.partial.Some? then op.partial.value else op.of.headers, op.of.Id()), |h|);
  }

  /** A construction that takes what is in the slot bears the id of the class exactly when it was given it; a clone never. */
  lemma TakerInClass(h: seq<Operation>, op: Operation, o: Exchange)
    requires Lawful(h) && (op.Constructed? || op.Cloned?) && Follows(h, op) && o.genuine
    requires Slot(h).Some? && Origin(h, Slot(h).value) == o
    ensures op.made.Id() == o.Id() <==> op.Constructed? && Get(op.supplied, ID) == o.Id()
  {
    SlotIsMade(h);
    OriginIsMade(h, Slot(h).value);
    RequiredHeadersDefined(h, o);
    IdsAreKnown(h, o);
    CompleteDefines(if op.Constructed? then op.supplied else Snapshot(op.of.headers, op.of.Id(), |h|), |h|);
  }

  /** The exchange an operation made is in the class of its parent, */
  lemma NewInClass(h: seq<Operation>)
    requires Lawful(h) && h != [] && Last(h).Makes() && Parent(Past(h), Last(h)).Some?
    ensures Last(h).made in Made(h) && Origin(h, Last(h).made) == Origin(Past(h), Parent(Past(h), Last(h)).value)
  {
  }

  lemma LawfulUpTo(h: seq<Operation>, i: nat)
    requires Lawful(h) && i < |h|
    ensures Lawful(h[..i]) && Follows(h[..i], h[i])
    ensures Lawful(h[..i + 1]) && Past(h[..i + 1]) == h[..i] && Last(h[..i + 1]) == h[i]
  {
    FollowedPast(h, i);
    assert Past(h[..i + 1]) == h[..i];
  }

  /** from then on. */
  lemma MadeInClass(h: seq<Operation>, i: nat, e: Exchange)
    requires Lawful(h) && i < |h| && h[i].Makes() && Parent(h[..i], h[i]) == Some(e)
    ensures h[i].made in Made(h) && Origin(h, h[i].made) == Origin(h[..i], e)
  {
    LawfulUpTo(h, i);
    NewInClass(h[..i + 1]);
    OriginFixed(h, i + 1, h[i].made);
  }

  lemma OneIdNeedsRewraps(h: seq<Operation>, o: Exchange, i: nat)
    requires Lawful(h) && o.genuine && OneId(h, o) && i < |h| && h[i].Rewrapped? && Origin(h, h[i].of) == o
    ensures h[i].of.Id() == o.Id()
  {
    FollowedPast(h, i);
    OriginFixed(h, i, h[i].of);
    MadeInClass(h, i, h[i].of);
    RewrapInClass(h[..i], h[i], o);
  }

  lemma OneIdNeedsTakers(h: seq<Operation>, o: Exchange, i: nat)
    requires Lawful(h) && o.genuine && OneId(h, o) && i < |h| && TakesFrom(h, i, o)
    ensures h[i].Constructed? && Get(h[i].supplied, ID) == o.Id()
  {
    FollowedPast(h, i);
    MadeInClass(h, i, Slot(h[..i]).value);
    TakerInClass(h[..i], h[i], o);
  }

  /** What holds of every operation of a history holds of all but the last. */
  lemma BearPast(h: seq<Operation>, o: Exchange)
    requires Lawful(h) && h != [] && RewrapsBearId(h, o) && TakersBearId(h, o)
    ensures RewrapsBearId(Past(h), o) && TakersBearId(Past(h), o)
  {
    var past := Past(h);
    forall i | 0 <= i < |past| && past[i].Rewrapped? && Origin(past, past[i].of) == o
      ensures past[i].of.Id() == o.Id()
    {
      FollowedPast(past, i);
      OriginFixed(past, i, past[i].of);
      assert h[i] == past[i];
    }
    forall i | 0 <= i < |past| && TakesFrom(past, i, o)
      ensures past[i].Constructed? && Get(past[i].supplied, ID) == o.Id()
    {
      assert h[i] == past[i] && h[..i] == past[..i];
    }
  }

  lemma {:induction false} BearersGiveOneId(h: seq<Operation>, o: Exchange, e: Exchange)
    requires Lawful(h) && o.genuine && RewrapsBearId(h, o) && TakersBearId(h, o)
    requires e in Made(h) && e.genuine && Origin(h, e) == o
    ensures e.Id() == o.Id()
  {
    var past, op := Past(h), Last(h);
    if e in Made(past) {
      BearPast(h, o);
      BearersGiveOneId(past, o, e);
    } else if op.Rewrapped? {
      assert h[|h| - 1] == op;
      RewrapInClass(past, op, o);
    } else if Parent(past, op).Some? {
      assert TakesFrom(h, |h| - 1, o);
      TakerInClass(past, op, o);
    } else {
      OriginOfNew(past, e);
    }
  }

  /**
   * All genuine members of a class share the id of the exchange it grew from
   * if and only if everything ever rewrapped in it bore that id, and whatever
   * else took its internals out of the hand-off slot was given that id. An
   * exchange of the engine bears it; a plain object spread from one has no id
   * of its own, or whatever id user code gave it.
   */
  lemma ClassSharesOneId(h: seq<Operation>, o: Exchange)
    requires Lawful(h) && o.genuine
    ensures OneId(h, o) <==> RewrapsBearId(h, o) && TakersBearId(h, o)
  {
    if OneId(h, o) {
      forall i | 0 <= i < |h| && h[i].Rewrapped? && Origin(h, h[i].of) == o ensures h[i].of.Id() == o.Id() {
        OneIdNeedsRewraps(h, o, i);
      }
      forall i | 0 <= i < |h| && TakesFrom(h, i, o) ensures h[i].Constructed? && Get(h[i].supplied, ID) == o.Id() {
        OneIdNeedsTakers(h, o, i);
      }
    }
    if RewrapsBearId(h, o) && TakersBearId(h, o) {
      forall e | e in Made(h) && e.genuine && Origin(h, e) == o ensures e.Id() == o.Id() {
        BearersGiveOneId(h, o, e);
      }
    }
  }

  /**
   * A clone bears an id no exchange bore before, and remembers the exchange it
   * is ultimately a snapshot of. It starts a class of its own, unless the
   * hand-off slot was full: then it joins the class whose internals waited there.
   */
  lemma CloneStartsAfresh(h: seq<Operation>, made: Exchange, of: Exchange, e: Exchange)
    requires Lawful(h) && Follows(h, Cloned(made, of)) && e in Made(h)
    ensures SameClass(h + [Cloned(made, of)], made, e) <==> Slot(h).Some? && SameClass(h, Slot(h).value, e)
    ensures made.Id() != e.Id()
    ensures Get(made.headers, OWNER) == Or(Get(of.headers, OWNER), of.Id())
    ensures forall k | k !in REQUIRED && k != OWNER :: Get(made.headers, k) == Get(of.headers, k)
    ensures CarriedOver(of.headers, made.headers)
    ensures of.genuine ==> forall k | k != ID && k != OWNER :: Get(made.headers, k) == Get(of.headers, k)
  {
    if of.genuine { RequiredHeadersDefined(h, of); }
    CompleteDefines(Snapshot(of.headers, of.Id(), |h|), |h|);
    CloneInClass(h, made, of, e);
    CloneCarries(h, made, of);
  }

  /** Every header but the id and the owner that has a value keeps it. */
  predicate CarriedOver(from: Headers, to: Headers) {
    forall k | k in from && k != ID && k != OWNER && !Nullish(from[k]) :: Get(to, k) == from[k]
  }

  lemma CloneCarries(h: seq<Operation>, made: Exchange, of: Exchange)
    requires Follows(h, Cloned(made, of))
    ensures CarriedOver(of.headers, made.headers)
  {
    CompleteDefines(Snapshot(of.headers, of.Id(), |h|), |h|);
  }

  lemma CloneInClass(h: seq<Operation>, made: Exchange, of: Exchange, e: Exchange)
    requires Lawful(h) && Follows(h, Cloned(made, of)) && e in Made(h)
    ensures SameClass(h + [Cloned(made, of)], made, e) <==> Slot(h).Some? && SameClass(h, Slot(h).value, e)
    ensures made.Id() != e.Id()
  {
    var after := h + [Cloned(made, of)];
    assert Past(after) == h;
    OriginOfNew(h, made);
    OriginIsMade(h, e);
    CompleteDefines(Snapshot(of.headers, of.Id(), |h|), |h|);
    IdsAreKnown(h, e);
  }

  // ----- the hand-off slot -----

  /** Nothing after the `i`th operation has filled or emptied the slot. */
  predicate Untouched(h: seq<Operation>, i: nat) {
    forall k | i < k < |h| :: !h[k].Takes() && !h[k].Offered?
  }

  /** What waits in the slot is what the last rewrap to begin put there, if no constructor has run since. */
  lemma {:induction false} SlotIs(h: seq<Operation>, of: Exchange)
    ensures Slot(h) == Some(of) <==> exists i | 0 <= i < |h| :: h[i] == Offered(of) && Untouched(h, i)
  {
    if h != [] {
      var n, past, op := |h| - 1, Past(h), Last(h);
      SlotIs(past, of);
      if Slot(h) == Some(of) {
        if op.Offered? {
          assert h[n] == Offered(of) && Untouched(h, n);
        } else {
          var i :| 0 <= i < |past| && past[i] == Offered(of) && Untouched(past, i);
          UntouchedOn(h, i);
          assert h[i] == Offered(of);
        }
      }
      if i :| 0 <= i < |h| && h[i] == Offered(of) && Untouched(h, i) {
        if i < n {
          UntouchedOn(h, i);
          assert past[i] == Offered(of);
        }
      }
    }
  }

  lemma UntouchedOn(h: seq<Operation>, i: nat)
    requires i < |h| - 1
    ensures Untouched(h, i) <==> Untouched(Past(h), i) && !Last(h).Takes() && !Last(h).Offered?
  {
    assert forall k | 0 <= k < |h| - 1 :: Past(h)[k] == h[k];
  }

  /**
   * The slot is empty between operations if and only if, after every rewrap
   * that began to read its body, some constructor has run.
   */
  lemma {:induction false} SlotEmptyIff(h: seq<Operation>)
    ensures Slot(h) == None <==> forall i | 0 <= i < |h| && h[i].Offered? :: TakenLater(h, i)
  {
    if h != [] {
      var n, past, op := |h| - 1, Past(h), Last(h);
      SlotEmptyIff(past);
      if op.Takes() {
        assert h[n].Takes();
      } else if op.Offered? {
        assert h[n].Offered? && !TakenLater(h, n);
      } else {
        forall i | 0 <= i < n ensures past[i] == h[i] && (TakenLater(past, i) <==> TakenLater(h, i)) {
          TakenOn(h, i);
        }
      }
    }
  }

  /** A constructor has run after the `i`th operation. */
  predicate TakenLater(h: seq<Operation>, i: nat) {
    exists k | i < k < |h| :: h[k].Takes()
  }

  lemma TakenOn(h: seq<Operation>, i: nat)
    requires h != [] && !Last(h).Takes()
    ensures TakenLater(Past(h), i) <==> TakenLater(h, i)
  {
    if TakenLater(Past(h), i) {
      var k :| i < k < |h| - 1 && Past(h)[k].Takes();
      assert h[k].Takes();
    }
    if TakenLater(h, i) {
      var k :| i < k < |h| && h[k].Takes();
      assert Past(h)[k].Takes();
    }
  }

  /** The operations from the `i`th to the `j`th hand the internals of `h[i].of`, or of its class, on to the `j`th. */
  predicate HandsOn(h: seq<Operation>, i: nat, j: nat)
    requires i < j < |h| && h[i].Offered?
  {
    exists k | i <= k < j :: h[k].Offered? && Untouched(h[..j], k) && SameClass(h, h[k].of, h[i].of)
  }

  /**
   * A rewrap that began with the `i`th operation and constructs with the `j`th
   * joins the class of what it rewraps if and only if, while it read the body,
   * no constructor took the internals and no other rewrap was left unfinished;
   * save that one left unfinished in the same class does as well.
   */
  lemma HandOffArrivesIff(h: seq<Operation>, i: nat, j: nat)
    requires Lawful(h) && i < j < |h| && h[i].Offered? && h[j].Constructed?
    ensures SameClass(h, h[j].made, h[i].of) <==> HandsOn(h, i, j)
  {
    OfferedIsMade(h, i, j);
    if Slot(h[..j]).Some? {
      var k := WaitingSince(h, j);
      TakesInClass(h, j, h[k].of, h[i].of);
      NoEarlier(h, i, j, k);
      HandsOnlyThat(h, i, j, k);
    } else {
      AloneWhenEmpty(h, j, h[i].of);
      NothingHandedOn(h, i, j);
    }
  }

  lemma NoEarlier(h: seq<Operation>, i: nat, j: nat, k: nat)
    requires i < j <= |h| && h[i].Offered? && k < j && Untouched(h[..j], k)
    ensures i <= k
  {
    assert h[..j][i] == h[i];
  }

  lemma OfferedIsMade(h: seq<Operation>, i: nat, j: nat)
    requires Lawful(h) && i < j < |h| && h[i].Offered?
    ensures h[i].of in Made(h[..j])
  {
    FollowedPast(h, i);
    FollowedPast(h, j);
    assert h[..j][..i] == h[..i];
    OriginFixed(h[..j], i, h[i].of);
  }

  /** Since when what the `j`th operation finds in the slot has been there. */
  lemma WaitingSince(h: seq<Operation>, j: nat) returns (k: nat)
    requires j <= |h| && Slot(h[..j]).Some?
    ensures k < j && h[k] == Offered(Slot(h[..j]).value) && Untouched(h[..j], k)
  {
    SlotIs(h[..j], Slot(h[..j]).value);
    k :| k < j && h[..j][k] == Offered(Slot(h[..j]).value) && Untouched(h[..j], k);
  }

  lemma TakesInClass(h: seq<Operation>, j: nat, of: Exchange, e: Exchange)
    requires Lawful(h) && j < |h| && h[j].Constructed? && Slot(h[..j]) == Some(of) && e in Made(h[..j])
    ensures SameClass(h, h[j].made, e) <==> SameClass(h, of, e)
  {
    FollowedPast(h, j);
    SlotIsMade(h[..j]);
    OriginFixed(h, j, of);
    MadeInClass(h, j, of);
  }

  /** The last offer is the only one that can still be waiting. */
  lemma HandsOnlyThat(h: seq<Operation>, i: nat, j: nat, k: nat)
    requires i <= k < j < |h| && h[i].Offered? && h[k].Offered? && Untouched(h[..j], k)
    ensures HandsOn(h, i, j) <==> SameClass(h, h[k].of, h[i].of)
  {
    if HandsOn(h, i, j) {
      var l :| i <= l < j && h[l].Offered? && Untouched(h[..j], l) && SameClass(h, h[l].of, h[i].of);
      assert h[..j][l] == h[l] && h[..j][k] == h[k];
    }
  }

  lemma NothingHandedOn(h: seq<Operation>, i: nat, j: nat)
    requires i < j < |h| && h[i].Offered? && Slot(h[..j]) == None
    ensures !HandsOn(h, i, j)
  {
    if HandsOn(h, i, j) {
      var k :| i <= k < j && h[k].Offered? && Untouched(h[..j], k) && SameClass(h, h[k].of, h[i].of);
      assert h[..j][k] == h[k];
      SlotIs(h[..j], h[k].of);
    }
  }

  /** A construction that finds the slot empty starts a class of its own. */
  lemma AloneWhenEmpty(h: seq<Operation>, j: nat, e: Exchange)
    requires Lawful(h) && j < |h| && h[j].Constructed? && Slot(h[..j]) == None && e in Made(h[..j])
    ensures !SameClass(h, h[j].made, e)
  {
    LawfulUpTo(h, j);
    OriginFixed(h, j + 1, h[j].made);
    OriginFixed(h, j, e);
    OriginOfNew(h[..j], h[j].made);
    OriginIsMade(h[..j], e);
  }

  // ----- marks -----

  /** Some operation of the history set `flag` on an exchange of the class of `r`. */
  predicate Flagged(h: seq<Operation>, flag: Flag, r: Exchange) {
    h != [] && ((Last(h).Marked? && Last(h).flag == flag && Origin(Past(h), Last(h).on) == r)
                || Flagged(Past(h), flag, r))
  }

  /** The schema the class of `r` was last recorded as validated against. */
  function LastSchema(h: seq<Operation>, r: Exchange): Option<nat> {
    if h == [] then None
    else if Last(h).MarkedValidated? && Origin(Past(h), Last(h).on) == r then Some(Last(h).schema)
    else LastSchema(Past(h), r)
  }

  /** A class never marked by anyone: nothing so far could have marked it. */
  lemma {:induction false} NewIsUnmarked(h: seq<Operation>, e: Exchange)
    requires Lawful(h) && e !in Made(h)
    ensures !Flagged(h, Dropped, e) && !Flagged(h, Suspended, e) && LastSchema(h, e) == None
  {
    if h != [] {
      NewIsUnmarked(Past(h), e);
      if Last(h).Marks() {
        OriginIsMade(Past(h), Last(h).on);
      }
    }
  }

  /** Which operations validated the class of `r`. */
  ghost function ValidatedAt(h: seq<Operation>, r: Exchange): set<nat> {
    set i: nat | i < |h| && h[i].MarkedValidated? && Origin(h, h[i].on) == r
  }

  /** The `i`th operation was the last to validate the class of `r`. */
  ghost predicate LastValidates(h: seq<Operation>, r: Exchange, i: nat) {
    i in ValidatedAt(h, r) && forall j | j in ValidatedAt(h, r) :: j <= i
  }

  lemma ValidatedOn(h: seq<Operation>, r: Exchange)
    requires Lawful(h) && h != []
    ensures ValidatedAt(h, r) == ValidatedAt(Past(h), r)
                                 + if Last(h).MarkedValidated? && Origin(Past(h), Last(h).on) == r then {|h| - 1} else {}
  {
    forall i: nat | i < |h| ensures i in ValidatedAt(h, r) <==>
        if i < |h| - 1 then i in ValidatedAt(Past(h), r)
        else Last(h).MarkedValidated? && Origin(Past(h), Last(h).on) == r
    {
      if i < |h| - 1 && h[i].MarkedValidated? { OriginStays(h, i); }
    }
  }

  /** The last schema recorded for a class, read as a search of the whole history. */
  lemma {:induction false} LastSchemaIff(h: seq<Operation>, r: Exchange, schema: nat)
    requires Lawful(h)
    ensures LastSchema(h, r) == Some(schema) <==> exists i: nat :: LastValidates(h, r, i) && h[i].schema == schema
  {
    if h != [] {
      var n, past := |h| - 1, Past(h);
      LastSchemaIff(past, r, schema);
      ValidatedOn(h, r);
      if Last(h).MarkedValidated? && Origin(past, Last(h).on) == r {
        assert LastValidates(h, r, n);
      } else {
        forall i: nat ensures LastValidates(h, r, i) <==> LastValidates(past, r, i) {
        }
      }
    }
  }

  /** The marks, read as a search of the whole history. */
  lemma {:induction false} FlaggedIff(h: seq<Operation>, flag: Flag, r: Exchange)
    requires Lawful(h)
    ensures Flagged(h, flag, r) <==>
            exists i | 0 <= i < |h| :: h[i].Marked? && h[i].flag == flag && Origin(h, h[i].on) == r
  {
    if h != [] {
      var past, op := Past(h), Last(h);
      FlaggedIff(past, flag, r);
      if Flagged(past, flag, r) {
        var i :| 0 <= i < |past| && past[i].Marked? && past[i].flag == flag && Origin(past, past[i].on) == r;
        OriginStays(h, i);
        assert h[i].Marked? && h[i].flag == flag && Origin(h, h[i].on) == r;
      }
      forall i | 0 <= i < |h| && h[i].Marked? && h[i].flag == flag && Origin(h, h[i].on) == r
        ensures Flagged(h, flag, r)
      {
        if i < |past| {
          OriginStays(h, i);
          assert past[i].Marked? && past[i].flag == flag && Origin(past, past[i].on) == r;
        }
      }
      if op.Marked? && op.flag == flag && Origin(past, op.on) == r {
        assert h[|h| - 1].Marked? && h[|h| - 1].flag == flag && Origin(h, h[|h| - 1].on) == r;
      }
    }
  }

  /** What an operation acted on keeps its origin as the history goes on. */
  lemma OriginStays(h: seq<Operation>, i: nat)
    requires Lawful(h) && i < |h| - 1 && h[i].Marks()
    ensures Origin(h, h[i].on) == Origin(Past(h), h[i].on)
  {
    ActedOnIsMade(Past(h), i);
  }

  lemma {:induction false} ActedOnIsMade(h: seq<Operation>, i: nat)
    requires Lawful(h) && i < |h| && h[i].Marks()
    ensures h[i].on in Made(h)
  {
    if i < |h| - 1 {
      ActedOnIsMade(Past(h), i);
    }
  }

  /** What makes nothing moves no exchange to another class, and marks exactly the class it is aimed at, if any. */
  lemma MarkingKeeps(h: seq<Operation>, op: Operation)
    requires Lawful(h) && !op.Makes() && Follows(h, op)
    ensures Lawful(h + [op]) && Made(h + [op]) == Made(h)
    ensures forall e :: Origin(h + [op], e) == Origin(h, e)
    ensures forall flag, r :: Flagged(h + [op], flag, r)
                              == (Flagged(h, flag, r) || (op.Marked? && op.flag == flag && Origin(h, op.on) == r))
    ensures forall r :: LastSchema(h + [op], r)
                        == if op.MarkedValidated? && Origin(h, op.on) == r then Some(op.schema) else LastSchema(h, r)
  {
    assert Past(h + [op]) == h;
  }

  // ----- the running engine -----

  /** What the history says is in the hand-off slot. */
  function Waiting(h: seq<Operation>): Internals? {
    if Slot(h).Some? then Slot(h).value.internals else null
  }

  function InternalsOf(s: set<Exchange>): set<Internals> {
    set e | e in s && e.internals != null :: e.internals
  }

  class Engine {
    /** The hand-off slot `rewrap` fills and the constructor empties. */
    var pendingRewrap: Internals?
    var clock: nat
    ghost var history: seq<Operation>
    /** Every exchange made so far, and every internals object among them. */
    ghost var exchanges: set<Exchange>
    ghost var shared: set<Internals>

    /** One exchange's internals say what the history says about its class. */
    ghost predicate Tells(e: Exchange)
      reads this, e.internals
    {
      e.internals != null ==>
        && (e.internals.dropped <==> Flagged(history, Dropped, Origin(history, e)))
        && (e.internals.suspended <==> Flagged(history, Suspended, Origin(history, e)))
        && e.internals.outputValidatedAgainst == LastSchema(history, Origin(history, e))
    }

    ghost predicate Valid()
      reads this, shared
    {
      pendingRewrap == Waiting(history) && Tracks()
    }

    /** All but the slot: while a constructor runs, it has been emptied already. */
    ghost predicate Tracks()
      reads this, shared
    {
      && clock == |history|
      && Lawful(history)
      && exchanges == Made(history)
      && shared == InternalsOf(exchanges)
      && forall e | e in exchanges :: Tells(e)
    }

    constructor ()
      ensures Valid() && history == []
    {
      pendingRewrap, clock, history, exchanges, shared := null, 0, [], {}, {};
    }

    /**
     * The constructor of `DefaultExchange`. It empties the hand-off slot before
     * anything else, so the slot is empty even when construction throws
     * (`breaks`); what was in the slot becomes the new exchange's internals.
     */
    method NewExchange(supplied: Headers, body: Option<Value>, breaks: bool) returns (made: Exchange?)
      modifies this`pendingRewrap
      ensures pendingRewrap == null
      ensures made == null <==> breaks
      ensures made != null ==>
                && fresh(made) && made.genuine && made.headers == Complete(supplied, clock)
                && made.body == (if body.Some? then body.value else EmptyObject)
      ensures made != null && old(pendingRewrap) != null ==> made.internals == old(pendingRewrap)
      ensures made != null && old(pendingRewrap) == null ==>
                && made.internals != null && fresh(made.internals)
                && !made.internals.dropped && !made.internals.suspended
                && made.internals.outputValidatedAgainst == None
    {
      var rewrapState := pendingRewrap;
      pendingRewrap := null;
      if breaks {
        return null;
      }
      var internals := rewrapState;
      if internals == null {
        internals := new Internals();
      }
      made := new Exchange(true, Complete(supplied, clock), if body.Some? then body.value else EmptyObject,
                           internals, Undefined);
    }

    /** The exchange just made joins the history. */
    ghost method Record(op: Operation)
      requires Tracks() && op.Makes() && Follows(history, op)
      requires FreshInternals(history, op.made.internals) ==>
                 && !op.made.internals.dropped && !op.made.internals.suspended
                 && op.made.internals.outputValidatedAgainst == None
      modifies this`history, this`exchanges, this`shared
      ensures history == old(history) + [op] && Lawful(history)
      ensures exchanges == old(exchanges) + {op.made} && exchanges == Made(history)
      ensures shared == InternalsOf(exchanges)
      ensures forall e | e in exchanges :: Tells(e)
    {
      NewIsUnmarked(history, op.made);
      OriginOfNew(history, op.made);
      if Parent(history, op).Some? {
        ParentIsMade(history, op);
        assert Tells(Parent(history, op).value);
      }
      assert Past(history + [op]) == history;
      history := history + [op];
      exchanges := exchanges + {op.made};
      shared := InternalsOf(exchanges);
    }

    /** An operation that makes nothing joins the history. */
    ghost method RecordQuiet(op: Operation)
      requires Tracks() && (op.Offered? || op.Broke?) && Follows(history, op)
      modifies this`history
      ensures history == old(history) + [op] && Lawful(history) && exchanges == Made(history)
      ensures forall e | e in exchanges :: Tells(e)
    {
      MarkingKeeps(history, op);
      history := history + [op];
    }

    /**
     * `new DefaultExchange(context, options)`: it takes the internals that wait
     * in the hand-off slot, whoever put them there.
     */
    method Construct(supplied: Headers, body: Option<Value>, breaks: bool) returns (made: Exchange?)
      requires Valid() && Known(supplied, clock)
      modifies this
      ensures Valid() && pendingRewrap == null
      ensures made == null <==> breaks
      ensures history == old(history) + [if made == null then Broke else Constructed(made, supplied)]
      ensures made != null && old(pendingRewrap) != null ==> made.internals == old(pendingRewrap)
      ensures made != null ==> made.body == if body.Some? then body.value else EmptyObject
    {
      if Slot(history).Some? { SlotIsMade(history); }
      made := NewExchange(supplied, body, breaks);
      if made != null {
        assert made !in exchanges && (Slot(history) == None ==> made.internals !in shared);
        Record(Constructed(made, supplied));
      } else {
        RecordQuiet(Broke);
      }
      clock := clock + 1;
    }

    /**
     * `DefaultExchange.rewrap(prev, partial)` with plain data for a body:
     * refused when `prev` was never bound to internals; otherwise the slot hands
     * them to the new exchange.
     */
    method Rewrap(prev: Exchange, headers: Option<Headers>, body: Option<Value>, breaks: bool)
      returns (made: Exchange?)
      requires Valid() && prev in exchanges && (headers.Some? ==> Known(headers.value, clock))
      modifies this
      ensures Valid()
      ensures made == null <==> prev.internals == null || breaks
      ensures prev.internals == null ==> history == old(history)
      ensures prev.internals != null ==>
                && pendingRewrap == null
                && history == old(history) + [if made == null then Broke else Rewrapped(made, prev, headers)]
      ensures made != null ==>
                && SameClass(history, made, prev) && made.internals == prev.internals
                && made.body == (if body.Some? then body.value else prev.body)
                && TakenOver(if headers.Some? then headers.value else prev.headers, made.headers)
    {
      if prev.internals == null {
        return null;
      }
      var base := if headers.Some? then headers.value else prev.headers;
      pendingRewrap := prev.internals;
      made := NewExchange(WithId(base, prev.Id()), Some(if body.Some? then body.value else prev.body), breaks);
      if made != null {
        assert made !in exchanges;
        RewrapCarries(history, made, prev, headers);
        Record(Rewrapped(made, prev, headers));
      } else {
        RecordQuiet(Broke);
      }
      clock := clock + 1;
    }

    /**
     * `DefaultExchange.rewrap(prev, partial)` up to the reading of a body that
     * has a getter: the slot is full while the getter runs. If that returns,
     * the rewrap goes on with `Construct(supplied, ...)`.
     */
    method BeginRewrap(prev: Exchange, headers: Option<Headers>) returns (supplied: Option<Headers>)
      requires Valid() && prev in exchanges && (headers.Some? ==> Known(headers.value, clock))
      modifies this
      ensures Valid()
      ensures supplied == None <==> prev.internals == null
      ensures prev.internals == null ==> history == old(history)
      ensures prev.internals != null ==>
                && history == old(history) + [Offered(prev)] && pendingRewrap == prev.internals
                && supplied.value == WithId(if headers.Some? then headers.value else prev.headers, prev.Id())
                && Get(supplied.value, ID) == prev.Id()
                && (forall k | k != ID ::
                      Get(supplied.value, k) == Get(if headers.Some? then headers.value else prev.headers, k))
                && Known(supplied.value, clock)
    {
      if prev.internals == null {
        return None;
      }
      var base := if headers.Some? then headers.value else prev.headers;
      pendingRewrap := prev.internals;
      IdsAreKnown(history, prev);
      RecordQuiet(Offered(prev));
      clock := clock + 1;
      return Some(WithId(base, prev.Id()));
    }

    /** `cloneExchange`: a snapshot, with internals of its own when the slot is empty. */
    method Clone(prev: Exchange, uncloneable: bool, breaks: bool) returns (made: Exchange?)
      requires Valid() && prev in exchanges
      modifies this
      ensures Valid()
      ensures made == null <==> uncloneable || breaks
      ensures uncloneable ==> history == old(history)
      ensures !uncloneable ==>
                && pendingRewrap == null
                && history == old(history) + [if made == null then Broke else Cloned(made, prev)]
      ensures made != null ==>
                && made.body == prev.body && CarriedOver(prev.headers, made.headers)
                && forall e | e in old(exchanges) ::
                     && made.Id() != e.Id()
                     && (SameClass(history, made, e) <==>
                         Slot(old(history)).Some? && SameClass(old(history), Slot(old(history)).value, e))
    {
      if uncloneable {
        return null;
      }
      if Slot(history).Some? { SlotIsMade(history); }
      made := NewExchange(Snapshot(prev.headers, prev.Id(), clock), Some(prev.body), breaks);
      if made != null {
        assert made !in exchanges && (Slot(history) == None ==> made.internals !in shared);
        forall e | e in exchanges
          ensures made.Id() != e.Id()
          ensures SameClass(history + [Cloned(made, prev)], made, e) <==>
                  Slot(history).Some? && SameClass(history, Slot(history).value, e)
        {
          CloneInClass(history, made, prev, e);
        }
        CloneCarries(history, made, prev);
        Record(Cloned(made, prev));
      } else {
        RecordQuiet(Broke);
      }
      clock := clock + 1;
    }

    /** User code makes a plain object of exchange shape, perhaps by spreading an exchange. */
    method MakePlain(from: Option<Exchange>, headers: Headers, body: Value, id: Value) returns (made: Exchange)
      requires Valid() && (from.Some? ==> from.value in exchanges)
      requires Known(headers, clock) && KnownValue(id, clock)
      modifies this
      ensures Valid() && history == old(history) + [Spread(made, from)]
      ensures made.headers == headers && made.body == body && made.Id() == id
    {
      made := new Exchange(false, headers, body, if from.Some? then from.value.internals else null, id);
      assert made !in exchanges;
      if from.Some? {
        assert Tells(from.value);
      }
      Record(Spread(made, from));
      clock := clock + 1;
    }

    /** The mark just made joins the history: it is told of the whole class, and of nobody else. */
    ghost method RecordMark(op: Operation)
      requires pendingRewrap == Waiting(history) && clock == |history| + 1 && Lawful(history)
      requires exchanges == Made(history) && shared == InternalsOf(exchanges)
      requires op.Marks() && Follows(history, op)
      requires forall e | e in exchanges && e.internals != null ::
                 && (e.internals.dropped <==>
                     Flagged(history, Dropped, Origin(history, e))
                     || (op.Marked? && op.flag == Dropped && SameClass(history, op.on, e)))
                 && (e.internals.suspended <==>
                     Flagged(history, Suspended, Origin(history, e))
                     || (op.Marked? && op.flag == Suspended && SameClass(history, op.on, e)))
                 && e.internals.outputValidatedAgainst
                    == if op.MarkedValidated? && SameClass(history, op.on, e) then Some(op.schema)
                       else LastSchema(history, Origin(history, e))
      modifies this`history
      ensures Valid() && history == old(history) + [op]
    {
      MarkingKeeps(history, op);
      history := history + [op];
    }

    /** `markDropped`: a no-op on an exchange without internals. */
    method MarkDropped(on: Exchange)
      requires Valid() && on in exchanges
      modifies this, shared
      ensures Valid() && history == old(history) + [Marked(on, Dropped)]
    {
      MarkReaches(history, on, exchanges);
      if on.internals != null {
        on.internals.dropped := true;
      }
      clock := clock + 1;
      RecordMark(Marked(on, Dropped));
    }

    /** `markSuspended` */
    method MarkSuspended(on: Exchange)
      requires Valid() && on in exchanges
      modifies this, shared
      ensures Valid() && history == old(history) + [Marked(on, Suspended)]
    {
      MarkReaches(history, on, exchanges);
      if on.internals != null {
        on.internals.suspended := true;
      }
      clock := clock + 1;
      RecordMark(Marked(on, Suspended));
    }

    /** `markOutputValidated`: the last schema stays. */
    method MarkOutputValidated(on: Exchange, schema: nat)
      requires Valid() && on in exchanges
      modifies this, shared
      ensures Valid() && history == old(history) + [MarkedValidated(on, schema)]
    {
      MarkReaches(history, on, exchanges);
      if on.internals != null {
        on.internals.outputValidatedAgainst := Some(schema);
      }
      clock := clock + 1;
      RecordMark(MarkedValidated(on, schema));
    }

    /** `isDropped`: exactly when an exchange of the same class was marked, and there are internals to mark. */
    method IsDropped(e: Exchange) returns (dropped: bool)
      requires Valid() && e in exchanges
      ensures dropped <==>
                && e.internals != null
                && exists i | 0 <= i < |history| ::
                     history[i].Marked? && history[i].flag == Dropped && SameClass(history, history[i].on, e)
    {
      assert Tells(e);
      FlaggedIff(history, Dropped, Origin(history, e));
      dropped := e.internals != null && e.internals.dropped;
    }

    /** `isSuspendedRun` */
    method IsSuspendedRun(e: Exchange) returns (suspended: bool)
      requires Valid() && e in exchanges
      ensures suspended <==>
                && e.internals != null
                && exists i | 0 <= i < |history| ::
                     history[i].Marked? && history[i].flag == Suspended && SameClass(history, history[i].on, e)
    {
      assert Tells(e);
      FlaggedIff(history, Suspended, Origin(history, e));
      suspended := e.internals != null && e.internals.suspended;
    }

    /** `wasOutputValidated`: the class was last validated against this very schema. */
    method WasOutputValidated(e: Exchange, schema: nat) returns (validated: bool)
      requires Valid() && e in exchanges
      ensures validated <==>
                && e.internals != null
                && exists i: nat :: LastValidates(history, Origin(history, e), i) && history[i].schema == schema
    {
      assert Tells(e);
      LastSchemaIff(history, Origin(history, e), schema);
      validated := e.internals != null && e.internals.outputValidatedAgainst == Some(schema);
    }
  }

  /**
   * One class, two ids: an exchange is spread into a plain object, with no id
   * or with one of user code's own, and the plain object is rewrapped.
   */
  method TwoIdsInOneClass(id: Value) returns (engine: Engine, first: Exchange, second: Exchange)
    requires !id.Uuid?
    ensures engine.Valid() && first in engine.exchanges && second in engine.exchanges
    ensures first.genuine && second.genuine && SameClass(engine.history, first, second)
    ensures first.Id() != second.Id()
  {
    engine := new Engine();
    var made := engine.Construct(map[], None, false);
    first := made;
    var plain := engine.MakePlain(Some(first), first.headers, first.body, id);
    made := engine.Rewrap(plain, None, None, false);
    second := made;
  }

  /** A rewrap of `first` whose body is read by a getter that constructs an exchange. */
  lemma TakenByGetter(h: seq<Operation>, first: Exchange, inner: Exchange, outer: Exchange, supplied: Headers)
    requires h == [Constructed(first, map[]), Offered(first), Constructed(inner, map[]), Constructed(outer, supplied)]
    requires Lawful(h) && Get(supplied, ID) == first.Id()
    ensures SameClass(h, inner, first) && inner.Id() != first.Id()
    ensures !SameClass(h, outer, first) && outer.Id() == first.Id()
  {
    HandOffHistory(h);
    assert h[..1] == [h[0]] && Past(h[..2]) == h[..1] && Past(h[..3]) == h[..2];
    assert first in Made(h[..1]) && first in Made(h[..2]) && first in Made(h[..3]);
    TakesInClass(h, 2, first, first);
    AloneWhenEmpty(h, 3, first);
    CompleteDefines(map[], 0);
    CompleteDefines(map[], 2);
    CompleteDefines(supplied, 3);
  }

  lemma LeftByGetter(h: seq<Operation>, first: Exchange, other: Exchange)
    requires h == [Constructed(first, map[]), Offered(first), Constructed(other, map[])]
    requires Lawful(h)
    ensures SameClass(h, other, first) && other.Id() != first.Id()
  {
    LawfulUpTo(h, 0);
    LawfulUpTo(h, 2);
    assert h[..1] == [h[0]] && h[..2] == [h[0], h[1]];
    assert first in Made(h[..1]) && first in Made(h[..2]);
    TakesInClass(h, 2, first, first);
    CompleteDefines(map[], 0);
    CompleteDefines(map[], 2);
  }

  lemma HandOffHistory(h: seq<Operation>)
    requires Lawful(h) && |h| == 4
    ensures Follows(h[..0], h[0]) && Follows(h[..2], h[2]) && Follows(h[..3], h[3])
  {
    FollowedPast(h, 0);
    FollowedPast(h, 2);
    FollowedPast(h, 3);
  }

  /** An exchange, and a rewrap of it that has begun to read its body. */
  method BeginReading() returns (engine: Engine, first: Exchange, supplied: Headers)
    ensures engine.Valid() && fresh(engine) && engine.history == [Constructed(first, map[]), Offered(first)]
    ensures first in engine.exchanges && Known(supplied, engine.clock) && Get(supplied, ID) == first.Id()
  {
    engine := new Engine();
    var made := engine.Construct(map[], None, false);
    first := made;
    var begun := engine.BeginRewrap(first, None);
    supplied := begun.value;
  }

  /**
   * A getter on the body constructs an exchange: that one takes the internals of
   * what is being rewrapped, and the rewrap, though it bears the id, is left
   * with internals of its own.
   */
  method GetterTakesInternals() returns (engine: Engine, first: Exchange, inner: Exchange, outer: Exchange)
    ensures engine.Valid() && {first, inner, outer} <= engine.exchanges
    ensures SameClass(engine.history, inner, first) && inner.Id() != first.Id()
    ensures !SameClass(engine.history, outer, first) && outer.Id() == first.Id()
  {
    var supplied: Headers;
    engine, first, supplied := BeginReading();
    var made := engine.Construct(map[], None, false);
    inner := made;
    made := engine.Construct(supplied, Some(Data(0)), false);
    outer := made;
    TakenByGetter(engine.history, first, inner, outer, supplied);
  }

  /**
   * A getter on the body throws: the internals stay in the slot, and the next
   * exchange constructed, wherever that is, joins the class of what was to be
   * rewrapped.
   */
  method ThrowingGetterLeaks() returns (engine: Engine, first: Exchange, other: Exchange)
    ensures engine.Valid() && {first, other} <= engine.exchanges
    ensures SameClass(engine.history, other, first) && other.Id() != first.Id()
  {
    var supplied: Headers;
    engine, first, supplied := BeginReading();
    var made := engine.Construct(map[], None, false);
    other := made;
    LeftByGetter(engine.history, first, other);
  }
}

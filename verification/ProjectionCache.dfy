/** The projection cache of a publication: an answer is reused until the next
    instant at which some offer term can change, and is then exactly what
    projecting again would give. */
module ProjectionCache {
  import opened HostNumbers
  import opened Listings
  import opened Selection

  // ---- offer terms ----

  /** A source date: missing, unreadable, or an instant. */
  datatype Stamp = Absent | Unreadable | At(ms: Millis)

  /** An authoritative offer term; `listed` sums up what the projection checks
      besides time: a source link and, where required, supported evidence. */
  datatype Term = Term(offerId: string, onSale: bool, listed: bool, observed: Stamp, from: Stamp, until: Stamp)

  datatype Session = Session(sessionId: string, readable: bool, terms: seq<Term>)

  type Publication = seq<Session>

  predicate Recent(round: int -> int, observed: int, now: int, maxAge: Number) {
    match maxAge
    case NaN => false
    case Infinite(positive) => positive
    case Finite(age) =>
      if age.Floor as real == age then observed >= round(now - age.Floor) else observed as real >= now as real - age
  }

  predicate Usable(round: int -> int, term: Term, now: Option<Millis>, maxAge: Number) {
    && term.onSale
    && now.Some?
    && term.observed.At? && term.observed.ms <= now.value && Recent(round, term.observed.ms, now.value, maxAge)
    && (term.from.Absent? || (term.from.At? && term.from.ms <= now.value))
    && (term.until.Absent? || (term.until.At? && term.until.ms >= now.value))
  }

  function UsableTerms(round: int -> int, terms: seq<Term>, now: Option<Millis>, maxAge: Number): seq<Term> {
    if terms == [] then []
    else
      var rest := UsableTerms(round, terms[1..], now, maxAge);
      if terms[0].listed && Usable(round, terms[0], now, maxAge) then [terms[0]] + rest else rest
  }

  /** What a session becomes with the given usable terms; None when it is left out. */
  type Describe<!P> = (Session, seq<Term>) -> Option<P>

  function Project<P>(
      round: int -> int, describe: Describe<P>, publication: Publication, now: Option<Millis>, maxAge: Number): seq<P> {
    if publication == [] then []
    else
      var session := publication[0];
      var terms := if session.readable then UsableTerms(round, session.terms, now, maxAge) else [];
      var described := if terms == [] then None else describe(session, terms);
      (if described.Some? then [described.value] else []) + Project(round, describe, publication[1..], now, maxAge)
  }

  // ---- which sessions a projection shows, read off the terms ----

  /** The age of an observation is within the limit: to the millisecond for the
      whole ages that may be cached, and otherwise as the host computes it. */
  predicate Young(round: int -> int, observed: int, now: int, maxAge: Number) {
    match maxAge
    case NaN => false
    case Infinite(positive) => positive
    case Finite(age) =>
      if age != age.Floor as real then now as real <= observed as real + age
      else if 0 < age.Floor <= MAX_SAFE then now <= observed + age.Floor
      else round(now - age.Floor) <= observed
  }

  /** A term counts at an instant: on sale, with its source and evidence, observed
      by then and not too long ago, and within its dates where it states any. */
  predicate Counts(round: int -> int, term: Term, now: Option<Millis>, maxAge: Number) {
    && term.onSale && term.listed && now.Some?
    && term.observed.At? && term.observed.ms <= now.value && Young(round, term.observed.ms, now.value, maxAge)
    && term.from != Unreadable && (term.from.At? ==> term.from.ms <= now.value)
    && term.until != Unreadable && (term.until.At? ==> now.value <= term.until.ms)
  }

  function CountsAt(round: int -> int, now: Option<Millis>, maxAge: Number): Term -> bool {
    (term: Term) => Counts(round, term, now, maxAge)
  }

  lemma CountsByFields(round: int -> int, term: Term, now: Option<Millis>, maxAge: Number)
    requires Rounds(round)
    ensures Counts(round, term, now, maxAge) <==> term.listed && Usable(round, term, now, maxAge)
  {
    if term.observed.At? && now.Some? && maxAge.Finite? && maxAge.value == maxAge.value.Floor as real
      && 0 < maxAge.value.Floor <= MAX_SAFE {
      AgeIsExact(round, term.observed.ms, now.value, maxAge.value.Floor);
    }
  }

  lemma {:induction false} UsableTermsExactly(round: int -> int, terms: seq<Term>, now: Option<Millis>, maxAge: Number)
    requires Rounds(round)
    ensures Picks(terms, CountsAt(round, now, maxAge), UsableTerms(round, terms, now, maxAge))
  {
    var counts := CountsAt(round, now, maxAge);
    if terms == [] {
      PicksNone(counts);
    } else {
      UsableTermsExactly(round, terms[1..], now, maxAge);
      CountsByFields(round, terms[0], now, maxAge);
      PicksFirst(terms[0], terms[1..], counts, UsableTerms(round, terms[1..], now, maxAge));
      assert terms == [terms[0]] + terms[1..];
    }
  }

  /** A readable session with a term that counts is described by exactly the terms
      that count, in order; any other session is left out. */
  ghost predicate Becomes<P>(describe: Describe<P>, session: Session, counts: Term -> bool, described: Option<P>) {
    exists terms :: Picks(session.terms, counts, terms)
      && described == if session.readable && terms != [] then describe(session, terms) else None
  }

  ghost predicate Describes<P>(
      describe: Describe<P>, publication: Publication, counts: Term -> bool, described: seq<Option<P>>) {
    |described| == |publication|
    && forall i :: 0 <= i < |publication| ==> Becomes(describe, publication[i], counts, described[i])
  }

  function IsSome<P>(): Option<P> -> bool { (o: Option<P>) => o.Some? }

  function Wrapped<P>(projected: seq<P>): (wrapped: seq<Option<P>>)
    ensures |wrapped| == |projected| && forall k :: 0 <= k < |projected| ==> wrapped[k] == Some(projected[k])
  {
    seq(|projected|, k requires 0 <= k < |projected| => Some(projected[k]))
  }

  /** The projection shows what its sessions become, in order, without those
      that are left out. */
  ghost predicate Shows<P(!new)>(
      round: int -> int, describe: Describe<P>, publication: Publication, now: Option<Millis>, maxAge: Number,
      projected: seq<P>) {
    exists described: seq<Option<P>> ::
      Describes(describe, publication, CountsAt(round, now, maxAge), described)
      && Picks(described, IsSome<P>(), Wrapped(projected))
  }

  lemma {:induction false} ProjectShows<P(!new)>(
      round: int -> int, describe: Describe<P>, publication: Publication, now: Option<Millis>, maxAge: Number)
    requires Rounds(round)
    ensures Shows(round, describe, publication, now, maxAge, Project(round, describe, publication, now, maxAge))
  {
    var counts := CountsAt(round, now, maxAge);
    if publication == [] {
      PicksNone(IsSome<P>());
      assert Wrapped<P>([]) == [];
      var none: seq<Option<P>> := [];
      assert Picks(none, IsSome<P>(), Wrapped(Project(round, describe, publication, now, maxAge)));
    } else {
      var session, rest := publication[0], Project(round, describe, publication[1..], now, maxAge);
      ProjectShows(round, describe, publication[1..], now, maxAge);
      var later: seq<Option<P>> :|
        Describes(describe, publication[1..], counts, later) && Picks(later, IsSome<P>(), Wrapped(rest));
      UsableTermsExactly(round, session.terms, now, maxAge);
      var terms := UsableTerms(round, session.terms, now, maxAge);
      var first := if session.readable && terms != [] then describe(session, terms) else None;
      assert Becomes(describe, session, counts, first);
      OneMoreShown(describe, publication, counts, first, later, rest);
    }
  }

  lemma OneMoreShown<P>(
      describe: Describe<P>, publication: Publication, counts: Term -> bool, first: Option<P>, later: seq<Option<P>>,
      rest: seq<P>)
    requires publication != [] && Becomes(describe, publication[0], counts, first)
    requires Describes(describe, publication[1..], counts, later) && Picks(later, IsSome<P>(), Wrapped(rest))
    ensures Describes(describe, publication, counts, [first] + later)
    ensures Picks([first] + later, IsSome<P>(), Wrapped((if first.Some? then [first.value] else []) + rest))
  {
    OneMoreDescribed(describe, publication, counts, first, later);
    OneMorePicked(first, later, rest);
  }

  lemma OneMoreDescribed<P>(
      describe: Describe<P>, publication: Publication, counts: Term -> bool, first: Option<P>, later: seq<Option<P>>)
    requires publication != [] && Becomes(describe, publication[0], counts, first)
    requires Describes(describe, publication[1..], counts, later)
    ensures Describes(describe, publication, counts, [first] + later)
  {
    var described := [first] + later;
    forall i | 0 <= i < |publication| ensures Becomes(describe, publication[i], counts, described[i]) {
      if i > 0 {
        assert Becomes(describe, publication[1..][i - 1], counts, later[i - 1]);
      }
    }
  }

  lemma OneMorePicked<P>(first: Option<P>, later: seq<Option<P>>, rest: seq<P>)
    requires Picks(later, IsSome<P>(), Wrapped(rest))
    ensures Picks([first] + later, IsSome<P>(), Wrapped((if first.Some? then [first.value] else []) + rest))
  {
    PicksFirst(first, later, IsSome<P>(), Wrapped(rest));
    WrappedFirst(first, rest);
  }

  lemma WrappedFirst<P>(first: Option<P>, rest: seq<P>)
    ensures Wrapped((if first.Some? then [first.value] else []) + rest)
         == if IsSome<P>()(first) then [first] + Wrapped(rest) else Wrapped(rest)
  {
    if first.None? { assert [] + rest == rest; }
  }

  // ---- the next boundary ----

  /** The instants the boundary considers for one term. */
  function Instants(round: int -> int, term: Term, age: int): seq<int> {
    (if term.observed.At? then [term.observed.ms] else [])
    + (if term.from.At? then [term.from.ms] else [])
    + (if term.observed.At? && Safe(round(term.observed.ms + age)) then [round(term.observed.ms + age) + 1] else [])
    + (if term.until.At? then [term.until.ms + 1] else [])
  }

  /** No considered instant of the term lies after `from` and before `until`. */
  ghost predicate Quiet(round: int -> int, term: Term, age: int, from: int, until: Option<int>) {
    forall v :: v in Instants(round, term, age) && Safe(v) && v > from ==> until.Some? && until.value <= v
  }

  ghost predicate AllQuiet(round: int -> int, publication: Publication, age: int, from: int, until: Option<int>) {
    forall s, t :: s in publication && s.readable && t in s.terms ==> Quiet(round, t, age, from, until)
  }

  /** The boundary is one of the considered instants. */
  ghost predicate Considered(round: int -> int, publication: Publication, age: int, v: int) {
    exists s, t :: s in publication && s.readable && t in s.terms && v in Instants(round, t, age)
  }

  predicate Before(t: int, until: Option<int>) { until.None? || t < until.value }

  predicate Earlier(a: Option<int>, b: Option<int>) { b.None? || (a.Some? && a.value <= b.value) }

  method Consider(next: Option<int>, value: int, now: int) returns (earliest: Option<int>)
    ensures Earlier(earliest, next) && (earliest == next || (earliest == Some(value) && value > now))
    ensures Safe(value) && value > now ==> earliest.Some? && earliest.value <= value
  {
    earliest := if Safe(value) && value > now && Before(value, next) then Some(value) else next;
  }

  lemma StaysQuiet(round: int -> int, term: Term, age: int, from: int, until: Option<int>, sooner: Option<int>)
    requires Quiet(round, term, age, from, until) && Earlier(sooner, until)
    ensures Quiet(round, term, age, from, sooner)
  {
  }

  /** The value is no reason to change between `from` and `until`. */
  predicate Passed(value: int, from: int, until: Option<int>) {
    Safe(value) && value > from ==> until.Some? && until.value <= value
  }

  lemma QuietByParts(round: int -> int, term: Term, age: int, from: int, until: Option<int>)
    requires term.observed.At? ==> Passed(term.observed.ms, from, until)
    requires term.from.At? ==> Passed(term.from.ms, from, until)
    requires term.observed.At? && Safe(round(term.observed.ms + age)) ==>
      Passed(round(term.observed.ms + age) + 1, from, until)
    requires term.until.At? ==> Passed(term.until.ms + 1, from, until)
    ensures Quiet(round, term, age, from, until)
  {
  }

  /** The dates of a term that are considered as they are. */
  method NextOfDates(
      round: int -> int, term: Term, now: int, age: int, next: Option<int>)
    returns (earliest: Option<int>)
    ensures Earlier(earliest, next)
    ensures term.observed.At? ==> Passed(term.observed.ms, now, earliest)
    ensures term.from.At? ==> Passed(term.from.ms, now, earliest)
    ensures earliest == next || (earliest.Some? && earliest.value > now && earliest.value in Instants(round, term, age))
  {
    earliest := next;
    if term.observed.At? { earliest := Consider(earliest, term.observed.ms, now); }
    if term.from.At? { earliest := Consider(earliest, term.from.ms, now); }
  }

  method NextOfTerm(
      round: int -> int, term: Term, now: int, age: int, next: Option<int>)
    returns (earliest: Option<int>)
    ensures Earlier(earliest, next) && Quiet(round, term, age, now, earliest)
    ensures earliest == next || (earliest.Some? && earliest.value > now && earliest.value in Instants(round, term, age))
  {
    earliest := NextOfDates(round, term, now, age, next);
    if term.observed.At? && Safe(round(term.observed.ms + age)) {
      earliest := Consider(earliest, round(term.observed.ms + age) + 1, now);
    }
    if term.until.At? { earliest := Consider(earliest, term.until.ms + 1, now); }
    QuietByParts(round, term, age, now, earliest);
  }

  method NextOfSession(
      round: int -> int, terms: seq<Term>, now: int, age: int, next: Option<int>)
    returns (earliest: Option<int>)
    ensures Earlier(earliest, next) && forall t :: t in terms ==> Quiet(round, t, age, now, earliest)
    ensures earliest == next || (earliest.Some? && earliest.value > now && exists t ::
      t in terms && earliest.value in Instants(round, t, age))
  {
    earliest := next;
    for i := 0 to |terms|
      invariant Earlier(earliest, next) && forall t :: t in terms[..i] ==> Quiet(round, t, age, now, earliest)
      invariant earliest == next || (earliest.Some? && earliest.value > now && exists t ::
        t in terms && earliest.value in Instants(round, t, age))
    {
      var sooner := NextOfTerm(round, terms[i], now, age, earliest);
      forall t | t in terms[..i + 1] ensures Quiet(round, t, age, now, sooner) {
        if t in terms[..i] { StaysQuiet(round, t, age, now, earliest, sooner); }
      }
      earliest := sooner;
    }
  }

  method NextBoundary(round: int -> int, publication: Publication, now: int, age: int) returns (next: Option<int>)
    ensures AllQuiet(round, publication, age, now, next)
    ensures next.Some? ==> next.value > now && Considered(round, publication, age, next.value)
  {
    next := None;
    for i := 0 to |publication|
      invariant AllQuiet(round, publication[..i], age, now, next)
      invariant next.Some? ==> next.value > now && Considered(round, publication, age, next.value)
    {
      var session := publication[i];
      assert session in publication;
      if session.readable {
        var sooner := NextOfSession(round, session.terms, now, age, next);
        forall s, t | s in publication[..i + 1] && s.readable && t in s.terms
          ensures Quiet(round, t, age, now, sooner)
        {
          if s in publication[..i] { StaysQuiet(round, t, age, now, next, sooner); }
        }
        next := sooner;
      }
    }
    assert publication[..|publication|] == publication;
  }

  // ---- nothing changes before the boundary ----

  /** The considered instants are all there are: what the guards on safe
      integers leave out lies beyond the last date there is. */
  lemma UsabilityIsConstant(round: int -> int, term: Term, age: int, created: Millis, now: Millis, until: Option<int>)
    requires Rounds(round) && 0 < age <= MAX_SAFE
    requires created <= now && Before(now, until) && Quiet(round, term, age, created, until)
    ensures Usable(round, term, Some(created), Finite(age as real))
         == Usable(round, term, Some(now), Finite(age as real))
  {
    NothingPassed(round, term, age, created, now, until);
    if term.observed.At? {
      AgeIsExact(round, term.observed.ms, created, age);
      AgeIsExact(round, term.observed.ms, now, age);
    }
  }

  lemma NothingPassed(round: int -> int, term: Term, age: int, created: Millis, now: Millis, until: Option<int>)
    requires Rounds(round) && 0 < age <= MAX_SAFE
    requires created <= now && Before(now, until) && Quiet(round, term, age, created, until)
    ensures term.observed.At? ==> (term.observed.ms <= created <==> term.observed.ms <= now)
    ensures term.from.At? ==> (term.from.ms <= created <==> term.from.ms <= now)
    ensures term.observed.At? ==> (created <= term.observed.ms + age <==> now <= term.observed.ms + age)
    ensures term.until.At? ==> (created <= term.until.ms <==> now <= term.until.ms)
  {
    var instants := Instants(round, term, age);
    if term.observed.At? {
      assert term.observed.ms in instants;
      if term.observed.ms + age <= MAX_SAFE {
        assert round(term.observed.ms + age) + 1 in instants;
      }
    }
    if term.from.At? { assert term.from.ms in instants; }
    if term.until.At? { assert term.until.ms + 1 in instants; }
  }

  /** Rounding never moves the age limit across an observation. */
  lemma AgeIsExact(round: int -> int, observed: Millis, now: Millis, age: int)
    requires Rounds(round) && 0 < age <= MAX_SAFE
    ensures Recent(round, observed, now, Finite(age as real)) <==> now <= observed + age
  {
    assert (age as real).Floor == age;
    if now - age < -MAX_SAFE - 1 {
      assert round(now - age) <= round(-MAX_SAFE - 1);
    }
  }

  lemma {:induction false} UsableTermsAreConstant(
      round: int -> int, terms: seq<Term>, age: int, created: Millis, now: Millis, until: Option<int>)
    requires Rounds(round) && 0 < age <= MAX_SAFE && created <= now && Before(now, until)
    requires forall t :: t in terms ==> Quiet(round, t, age, created, until)
    ensures UsableTerms(round, terms, Some(created), Finite(age as real))
         == UsableTerms(round, terms, Some(now), Finite(age as real))
  {
    if terms != [] {
      UsabilityIsConstant(round, terms[0], age, created, now, until);
      UsableTermsAreConstant(round, terms[1..], age, created, now, until);
    }
  }

  /** From its creation up to the boundary a projection stays what it is. */
  lemma {:induction false} ProjectionIsConstant<P>(
      round: int -> int, describe: Describe<P>, publication: Publication, age: int, created: Millis, now: Millis,
      until: Option<int>)
    requires Rounds(round) && 0 < age <= MAX_SAFE && created <= now && Before(now, until)
    requires AllQuiet(round, publication, age, created, until)
    ensures Project(round, describe, publication, Some(created), Finite(age as real))
         == Project(round, describe, publication, Some(now), Finite(age as real))
  {
    if publication != [] {
      if publication[0].readable {
        UsableTermsAreConstant(round, publication[0].terms, age, created, now, until);
      }
      ProjectionIsConstant(round, describe, publication[1..], age, created, now, until);
    }
  }

  // ---- the cache ----

  datatype Entry<P> = Entry(created: Millis, until: Option<int>, projected: seq<P>)

  /** A request: a publication, an instant and a maximal age; the filters are
      part of `select`, which is applied afresh to every answer. */
  datatype Request = Request(publication: Publication, now: Option<Millis>, maxAge: Number)

  predicate Cacheable(request: Request) {
    request.now.Some? && request.maxAge.Finite? && request.maxAge.value.Floor as real == request.maxAge.value
    && 0 < request.maxAge.value.Floor <= MAX_SAFE
  }

  class Cache<P(!new)> {
    const round: int -> int
    const describe: Describe<P>
    var entries: map<(Publication, int), Entry<P>>

    /** Each entry answers for every instant from its creation to its boundary. */
    ghost predicate Valid()
      reads this
    {
      Rounds(round) && forall key :: key in entries ==> Lasting(key.0, key.1, entries[key])
    }

    ghost predicate Lasting(publication: Publication, age: int, entry: Entry<P>) {
      forall t: Millis :: entry.created <= t && Before(t, entry.until) ==>
        entry.projected == Fresh(publication, Some(t), Finite(age as real))
    }

    function Fresh(publication: Publication, now: Option<Millis>, maxAge: Number): seq<P> {
      Project(round, describe, publication, now, maxAge)
    }

    constructor (round: int -> int, describe: Describe<P>)
      requires Rounds(round)
      ensures Valid() && this.round == round && this.describe == describe && entries == map[]
    {
      this.round, this.describe, entries := round, describe, map[];
    }

    /** The cached answer is the uncached one, whatever the clock did before. */
    method Prepare(request: Request) returns (projected: seq<P>)
      requires Valid()
      modifies this`entries
      ensures Valid()
      ensures projected == Fresh(request.publication, request.now, request.maxAge)
      ensures Shows(round, describe, request.publication, request.now, request.maxAge, projected)
      ensures !Cacheable(request) ==> entries == old(entries)
    {
      ProjectShows(round, describe, request.publication, request.now, request.maxAge);
      if !Cacheable(request) {
        return Fresh(request.publication, request.now, request.maxAge);
      }
      var now, age := request.now.value, request.maxAge.value.Floor;
      var key := (request.publication, age);
      if key !in entries || now < entries[key].created || !Before(now, entries[key].until) {
        var until := NextBoundary(round, request.publication, now, age);
        var entry := Entry(now, until, Fresh(request.publication, request.now, request.maxAge));
        forall t: Millis | now <= t && Before(t, until)
          ensures entry.projected == Fresh(request.publication, Some(t), Finite(age as real))
        {
          ProjectionIsConstant(round, describe, request.publication, age, now, t, until);
        }
        assert Lasting(request.publication, age, entry);
        entries := entries[key := entry];
      }
      assert Lasting(request.publication, age, entries[key]);
      projected := entries[key].projected;
    }
  }

  /** The answer is selected from what the sessions of the request show. */
  ghost predicate AnswersFrom<P(!new), R>(
      round: int -> int, describe: Describe<P>, select: (seq<P>, Request) -> R, request: Request, answer: R) {
    exists projected: seq<P> ::
      Shows(round, describe, request.publication, request.now, request.maxAge, projected)
      && answer == select(projected, request)
  }

  lemma FreshAnswer<P(!new), R>(
      round: int -> int, describe: Describe<P>, select: (seq<P>, Request) -> R, request: Request)
    requires Rounds(round)
    ensures AnswersFrom(round, describe, select, request,
      select(Project(round, describe, request.publication, request.now, request.maxAge), request))
  {
    ProjectShows(round, describe, request.publication, request.now, request.maxAge);
  }

  /** Over any run of requests, every answer is what projecting afresh gives, and
      selected from exactly the sessions with a term that counts then. */
  method Serve<P(!new), R>(
      round: int -> int, describe: Describe<P>, select: (seq<P>, Request) -> R, requests: seq<Request>)
    returns (answers: seq<R>)
    requires Rounds(round)
    ensures |answers| == |requests|
    ensures forall i :: 0 <= i < |requests| ==>
      answers[i] == select(Project(round, describe, requests[i].publication, requests[i].now, requests[i].maxAge),
        requests[i])
    ensures forall i :: 0 <= i < |requests| ==> AnswersFrom(round, describe, select, requests[i], answers[i])
  {
    var cache := new Cache(round, describe);
    answers := [];
    for i := 0 to |requests|
      invariant cache.Valid() && cache.round == round && cache.describe == describe
      invariant |answers| == i
      invariant forall k :: 0 <= k < i ==>
        answers[k] == select(Project(round, describe, requests[k].publication, requests[k].now, requests[k].maxAge),
          requests[k])
    {
      var projected := cache.Prepare(requests[i]);
      answers := answers + [select(projected, requests[i])];
    }
    forall i | 0 <= i < |requests| ensures AnswersFrom(round, describe, select, requests[i], answers[i]) {
      FreshAnswer(round, describe, select, requests[i]);
    }
  }
}

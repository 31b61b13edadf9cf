/** The beam over uncertain answers: after every question only the 24 best
    partial selections stay, and nothing the full product would rank among the
    best 24 is lost. */
module Beam {
  import opened Sorting

  const WIDTH: nat := 24

  /** A partial selection: one option index for each question so far. */
  datatype Candidate = Candidate(path: seq<nat>, score: real)

  /** The log-probability of each option of a question. */
  type Question = seq<real>

  /** Adding scores; rounding is allowed as long as it keeps order. */
  type Plus = (real, real) -> real

  ghost predicate Monotone(plus: Plus) {
    forall a, b, gain :: a >= b ==> plus(a, gain) >= plus(b, gain)
  }

  // ---- the full product ----

  ghost predicate Selects(questions: seq<Question>, path: seq<nat>) {
    |path| <= |questions| && forall i: nat :: i < |path| ==> path[i] < |questions[i]|
  }

  ghost function Score(plus: Plus, questions: seq<Question>, path: seq<nat>): real
    requires Selects(questions, path)
  {
    if path == [] then 0.0
    else plus(Score(plus, questions, path[..|path| - 1]), questions[|path| - 1][path[|path| - 1]])
  }

  ghost predicate Genuine(plus: Plus, questions: seq<Question>, k: nat, c: Candidate) {
    |c.path| == k && Selects(questions, c.path) && c.score == Score(plus, questions, c.path)
  }

  /** Best first, no selection twice, and every selection left out scores at
      most what each of a full beam of kept ones scores. */
  ghost predicate Best(plus: Plus, questions: seq<Question>, k: nat, beam: seq<Candidate>) {
    && |beam| <= 24
    && (forall i: nat :: i < |beam| ==> Genuine(plus, questions, k, beam[i]))
    && Distinct(beam)
    && (forall i: nat, j: nat :: i <= j < |beam| ==> beam[i].score >= beam[j].score)
    && (forall c: Candidate :: Genuine(plus, questions, k, c) && c !in beam ==> Displaced(c, beam))
  }

  ghost predicate Displaced(c: Candidate, beam: seq<Candidate>) {
    |beam| == 24 && forall i: nat :: i < |beam| ==> beam[i].score >= c.score
  }

  // ---- one question ----

  function Extensions(plus: Plus, candidate: Candidate, question: Question): (extended: seq<Candidate>)
    ensures |extended| == |question|
    ensures forall o: nat :: o < |question| ==> extended[o] == Extended(plus, candidate, question, o)
  {
    seq(|question|, o requires 0 <= o < |question| => Extended(plus, candidate, question, o))
  }

  function Extended(plus: Plus, candidate: Candidate, question: Question, o: nat): Candidate
    requires o < |question|
  {
    Candidate(candidate.path + [o], plus(candidate.score, question[o]))
  }

  function AllExtensions(plus: Plus, beam: seq<Candidate>, question: Question): seq<Candidate>
  {
    if beam == [] then [] else Extensions(plus, beam[0], question) + AllExtensions(plus, beam[1..], question)
  }

  predicate Before(a: Candidate, b: Candidate) { a.score >= b.score }

  function Pruned(candidates: seq<Candidate>): seq<Candidate> {
    Front(Sort(Before, candidates))
  }

  function Front(sorted: seq<Candidate>): seq<Candidate> {
    if |sorted| <= WIDTH then sorted else sorted[..WIDTH]
  }

  lemma FrontHolds(sorted: seq<Candidate>, at: nat)
    requires at < |sorted| && at < WIDTH
    ensures sorted[at] in Front(sorted)
  {
    assert Front(sorted)[at] == sorted[at];
  }

  lemma {:induction false} ExtensionsAreExactly(plus: Plus, beam: seq<Candidate>, question: Question)
    ensures forall i: nat, o: nat :: i < |beam| && o < |question| ==>
      Extended(plus, beam[i], question, o) in AllExtensions(plus, beam, question)
    ensures forall c :: c in AllExtensions(plus, beam, question) ==> Extends(plus, beam, question, c)
  {
    if beam != [] {
      ExtensionsAreExactly(plus, beam[1..], question);
      var first := Extensions(plus, beam[0], question);
      forall i: nat, o: nat | i < |beam| && o < |question|
        ensures Extended(plus, beam[i], question, o) in first + AllExtensions(plus, beam[1..], question)
      {
        if i == 0 { assert first[o] in first; } else { assert beam[i] == beam[1..][i - 1]; }
      }
      forall c | c in first + AllExtensions(plus, beam[1..], question) ensures Extends(plus, beam, question, c) {
        if c in first {
          var o: nat :| o < |first| && first[o] == c;
          assert beam[0] in beam && c == Extended(plus, beam[0], question, o);
        } else {
          var b :| b in beam[1..] && c == Extended(plus, b, question, c.path[|c.path| - 1]);
          assert b in beam;
        }
      }
    }
  }

  ghost predicate Extends(plus: Plus, beam: seq<Candidate>, question: Question, c: Candidate) {
    c.path != [] && c.path[|c.path| - 1] < |question|
    && exists b :: b in beam && c == Extended(plus, b, question, c.path[|c.path| - 1])
  }

  lemma OtherParent(plus: Plus, beam: seq<Candidate>, question: Question, o: nat, c: Candidate)
    requires beam != [] && DifferentPaths(beam) && o < |question| && Extends(plus, beam[1..], question, c)
    ensures Extended(plus, beam[0], question, o) != c
  {
    var b :| b in beam[1..] && c == Extended(plus, b, question, c.path[|c.path| - 1]);
    var at: nat :| at < |beam[1..]| && beam[1..][at] == b;
    assert beam[at + 1] == b;
    assert (beam[0].path + [o])[..|beam[0].path|] == beam[0].path;
    assert c.path[..|c.path| - 1] == b.path;
  }

  lemma {:induction false} ExtensionsAreDistinct(plus: Plus, beam: seq<Candidate>, question: Question)
    requires DifferentPaths(beam)
    ensures Distinct(AllExtensions(plus, beam, question))
  {
    if beam != [] {
      var rest := AllExtensions(plus, beam[1..], question);
      var first := Extensions(plus, beam[0], question);
      ExtensionsAreDistinct(plus, beam[1..], question);
      ExtensionsAreExactly(plus, beam[1..], question);
      forall i: nat, j: nat | i < |first| && j < |rest| ensures first[i] != rest[j] {
        assert rest[j] in rest;
        OtherParent(plus, beam, question, i, rest[j]);
      }
      forall i: nat, j: nat | i < j < |first| ensures first[i] != first[j] {
        assert first[i].path[|beam[0].path|] == i && first[j].path[|beam[0].path|] == j;
      }
    }
  }

  // ---- nothing among the best is lost ----

  /** The n-th best of a list is at least as good as any n elements that share a bound. */
  lemma ManyGoodOnesFillTheFront(sorted: seq<Candidate>, good: seq<Candidate>, bound: real)
    requires Ordered(Before, sorted) && Distinct(good)
    requires forall i: nat :: i < |good| ==> good[i] in sorted && good[i].score >= bound
    ensures forall i: nat :: i < |good| && i < |sorted| ==> sorted[i].score >= bound
    ensures |good| <= |sorted|
  {
    GoodOnesFit(sorted, good);
    forall i: nat | i < |good| && i < |sorted| ensures sorted[i].score >= bound {
      if sorted[i].score < bound {
        forall c | c in good ensures c in sorted[..i] {
          var j: nat :| j < |sorted| && sorted[j] == c;
          if j >= i { OrderedPairs(Before, sorted, i, j); }
          assert sorted[..i][j] == c;
        }
        GoodOnesFit(sorted[..i], good);
      }
    }
  }

  lemma {:induction false} GoodOnesFit(list: seq<Candidate>, good: seq<Candidate>)
    requires Distinct(good) && forall c :: c in good ==> c in list
    ensures |good| <= |list|
  {
    Sizes(list);
    var members := set c | c in good;
    DistinctSize(good);
    assert members <= set c | c in list;
    Subsets(members, set c | c in list);
  }

  lemma {:induction false} Sizes(list: seq<Candidate>)
    ensures |set c | c in list| <= |list|
  {
    if list != [] {
      Sizes(list[1..]);
      assert (set c | c in list) == {list[0]} + set c | c in list[1..];
    }
  }

  lemma {:induction false} DistinctSize(list: seq<Candidate>)
    requires Distinct(list)
    ensures |set c | c in list| == |list|
  {
    if list != [] {
      DistinctSize(list[1..]);
      assert (set c | c in list) == {list[0]} + set c | c in list[1..];
      assert forall j: nat :: j < |list[1..]| ==> list[1..][j] == list[j + 1];
    }
  }

  lemma {:induction false} Subsets(small: set<Candidate>, large: set<Candidate>)
    requires small <= large
    ensures |small| <= |large|
    decreases small
  {
    if small != {} {
      var c :| c in small;
      Subsets(small - {c}, large - {c});
    }
  }

  /** A genuine selection one question longer extends the genuine one before it. */
  lemma ParentOf(plus: Plus, questions: seq<Question>, k: nat, c: Candidate) returns (parent: Candidate, o: nat)
    requires k < |questions| && Genuine(plus, questions, k + 1, c)
    ensures Genuine(plus, questions, k, parent)
    ensures o < |questions[k]| && c == Extended(plus, parent, questions[k], o)
  {
    var path := c.path[..k];
    o := c.path[k];
    parent := Candidate(path, Score(plus, questions, path));
    assert c.path == path + [o];
  }

  lemma ExtendedIsGenuine(plus: Plus, questions: seq<Question>, k: nat, parent: Candidate, o: nat)
    requires k < |questions| && Genuine(plus, questions, k, parent) && o < |questions[k]|
    ensures Genuine(plus, questions, k + 1, Extended(plus, parent, questions[k], o))
  {
    var path := parent.path + [o];
    assert path[..|path| - 1] == parent.path;
  }

  /** A selection whose parent was dropped scores at most what a full beam of others does. */
  lemma DroppedParentsStayOut(
      plus: Plus, question: Question, beam: seq<Candidate>, parent: Candidate, o: nat, sorted: seq<Candidate>)
    requires Monotone(plus) && Displaced(parent, beam) && DifferentPaths(beam) && o < |question|
    requires Ordered(Before, sorted) && forall c :: c in AllExtensions(plus, beam, question) ==> c in sorted
    ensures |sorted| >= WIDTH
    ensures forall i: nat :: i < WIDTH ==> sorted[i].score >= Extended(plus, parent, question, o).score
  {
    var good := Siblings(plus, beam, question, o);
    var bound := Extended(plus, parent, question, o).score;
    SiblingsAreDistinct(plus, beam, question, o);
    SiblingsOutscore(plus, question, beam, parent, o);
    ManyGoodOnesFillTheFront(sorted, good, bound);
  }

  lemma SiblingsOutscore(plus: Plus, question: Question, beam: seq<Candidate>, parent: Candidate, o: nat)
    requires Monotone(plus) && Displaced(parent, beam) && o < |question|
    ensures forall i: nat :: i < |beam| ==> Siblings(plus, beam, question, o)[i] in AllExtensions(plus, beam, question)
    ensures forall i: nat :: i < |beam| ==>
      Siblings(plus, beam, question, o)[i].score >= Extended(plus, parent, question, o).score
  {
    ExtensionsAreExactly(plus, beam, question);
    forall i: nat | i < |beam|
      ensures Siblings(plus, beam, question, o)[i].score >= Extended(plus, parent, question, o).score
    {
      Outscores(plus, question, beam[i], parent, o);
    }
  }

  lemma Outscores(plus: Plus, question: Question, kept: Candidate, parent: Candidate, o: nat)
    requires Monotone(plus) && kept.score >= parent.score && o < |question|
    ensures Extended(plus, kept, question, o).score >= Extended(plus, parent, question, o).score
  {
    var gain := question[o];
    assert plus(kept.score, gain) >= plus(parent.score, gain);
  }

  ghost predicate DifferentPaths(beam: seq<Candidate>) {
    forall i: nat, j: nat :: i < j < |beam| ==> beam[i].path != beam[j].path
  }

  lemma BestPathsDiffer(plus: Plus, questions: seq<Question>, k: nat, beam: seq<Candidate>)
    requires Best(plus, questions, k, beam)
    ensures DifferentPaths(beam)
  {
    forall i: nat, j: nat | i < j < |beam| ensures beam[i].path != beam[j].path {
      assert Genuine(plus, questions, k, beam[i]) && Genuine(plus, questions, k, beam[j]) && beam[i] != beam[j];
    }
  }

  /** Every kept selection with the same next answer. */
  function Siblings(plus: Plus, beam: seq<Candidate>, question: Question, o: nat): (siblings: seq<Candidate>)
    requires o < |question|
    ensures |siblings| == |beam|
    ensures forall i: nat :: i < |beam| ==> siblings[i] == Extended(plus, beam[i], question, o)
  {
    seq(|beam|, i requires 0 <= i < |beam| => Extended(plus, beam[i], question, o))
  }

  lemma SiblingsAreDistinct(plus: Plus, beam: seq<Candidate>, question: Question, o: nat)
    requires o < |question|
    requires DifferentPaths(beam)
    ensures Distinct(Siblings(plus, beam, question, o))
  {
    var siblings := Siblings(plus, beam, question, o);
    forall i: nat, j: nat | i < j < |siblings| ensures siblings[i] != siblings[j] {
      assert siblings[i].path[..|siblings[i].path| - 1] == beam[i].path;
      assert siblings[j].path[..|siblings[j].path| - 1] == beam[j].path;
    }
  }

  /** Pruning to 24 after each question keeps the beam a best beam. */
  lemma StepKeepsBest(plus: Plus, questions: seq<Question>, k: nat, beam: seq<Candidate>)
    requires Monotone(plus) && k < |questions| && Best(plus, questions, k, beam)
    ensures Best(plus, questions, k + 1, Pruned(AllExtensions(plus, beam, questions[k])))
  {
    var extended := AllExtensions(plus, beam, questions[k]);
    var sorted := Sort(Before, extended);
    SortOrders(Before, extended);
    SortKeeps(Before, extended);
    ExtensionsAreExactly(plus, beam, questions[k]);
    BestPathsDiffer(plus, questions, k, beam);
    ExtensionsAreDistinct(plus, beam, questions[k]);
    SortedIsGenuine(plus, questions, k, beam, sorted);
    SortedDescends(sorted);
    forall c | Genuine(plus, questions, k + 1, c) && c !in Front(sorted) ensures Displaced(c, Front(sorted)) {
      LeftOutIsDisplaced(plus, questions, k, beam, c, sorted);
    }
    FrontIsBest(plus, questions, k + 1, sorted);
  }

  lemma SortedDescends(sorted: seq<Candidate>)
    requires Ordered(Before, sorted)
    ensures forall i: nat, j: nat :: i <= j < |sorted| ==> sorted[i].score >= sorted[j].score
  {
    forall i: nat, j: nat | i <= j < |sorted| ensures sorted[i].score >= sorted[j].score {
      OrderedPairs(Before, sorted, i, j);
    }
  }

  lemma FrontIsBest(plus: Plus, questions: seq<Question>, k: nat, sorted: seq<Candidate>)
    requires Distinct(sorted)
    requires forall i: nat :: i < |sorted| ==> Genuine(plus, questions, k, sorted[i])
    requires forall i: nat, j: nat :: i <= j < |sorted| ==> sorted[i].score >= sorted[j].score
    requires forall c: Candidate :: Genuine(plus, questions, k, c) && c !in Front(sorted) ==>
      Displaced(c, Front(sorted))
    ensures Best(plus, questions, k, Front(sorted))
  {
    assert forall i: nat :: i < |Front(sorted)| ==> Front(sorted)[i] == sorted[i];
  }

  lemma SortedIsGenuine(plus: Plus, questions: seq<Question>, k: nat, beam: seq<Candidate>, sorted: seq<Candidate>)
    requires k < |questions| && Best(plus, questions, k, beam)
    requires forall c :: c in sorted ==> Extends(plus, beam, questions[k], c)
    ensures forall i: nat :: i < |sorted| ==> Genuine(plus, questions, k + 1, sorted[i])
  {
    forall i: nat | i < |sorted| ensures Genuine(plus, questions, k + 1, sorted[i]) {
      var c := sorted[i];
      assert c in sorted;
      var o := c.path[|c.path| - 1];
      var b :| b in beam && c == Extended(plus, b, questions[k], o);
      ExtendedIsGenuine(plus, questions, k, b, o);
    }
  }

  lemma LeftOutIsDisplaced(
      plus: Plus, questions: seq<Question>, k: nat, beam: seq<Candidate>, c: Candidate, sorted: seq<Candidate>)
    requires Monotone(plus) && k < |questions| && Best(plus, questions, k, beam)
    requires Genuine(plus, questions, k + 1, c)
    requires Ordered(Before, sorted)
    requires forall e :: e in AllExtensions(plus, beam, questions[k]) ==> e in sorted
    requires c !in Front(sorted)
    ensures Displaced(c, Front(sorted))
  {
    var parent, o := ParentOf(plus, questions, k, c);
    if parent in beam {
      ExtensionsAreExactly(plus, beam, questions[k]);
      var i: nat :| i < |beam| && beam[i] == parent;
      assert c in sorted;
      var at: nat :| at < |sorted| && sorted[at] == c;
      if at < WIDTH { FrontHolds(sorted, at); }
      forall j: nat | j < WIDTH ensures sorted[j].score >= c.score {
        OrderedPairs(Before, sorted, j, at);
      }
    } else {
      BestPathsDiffer(plus, questions, k, beam);
      DroppedParentsStayOut(plus, questions[k], beam, parent, o, sorted);
    }
  }

  // ---- the program ----

  method Search(plus: Plus, questions: seq<Question>) returns (beam: seq<Candidate>)
    requires Monotone(plus)
    ensures Best(plus, questions, |questions|, beam)
  {
    beam := [Candidate([], 0.0)];
    assert forall c: Candidate :: Genuine(plus, questions, 0, c) ==> c == beam[0];
    for k := 0 to |questions|
      invariant Best(plus, questions, k, beam)
    {
      StepKeepsBest(plus, questions, k, beam);
      beam := Pruned(AllExtensions(plus, beam, questions[k]));
    }
  }

  /** Read off a best beam: it holds every selection when it is not full, and
      the selection at rank r is beaten only by selections of smaller rank. */
  lemma BeamHoldsTheLargestScores(plus: Plus, questions: seq<Question>, beam: seq<Candidate>, r: nat, c: Candidate)
    requires Best(plus, questions, |questions|, beam) && Genuine(plus, questions, |questions|, c)
    ensures |beam| < 24 ==> c in beam
    ensures r < |beam| && c.score > beam[r].score ==> c in beam[..r]
  {
    if c !in beam {
      assert Displaced(c, beam);
    } else {
      var at: nat :| at < |beam| && beam[at] == c;
      if r < |beam| && c.score > beam[r].score {
        assert at < r && beam[..r][at] == c;
      }
    }
  }

  /** So the ranking of scores is determined by the questions alone. */
  lemma BestScoresAreDetermined(plus: Plus, questions: seq<Question>, k: nat, a: seq<Candidate>, b: seq<Candidate>)
    requires Best(plus, questions, k, a) && Best(plus, questions, k, b)
    ensures |a| == |b|
    ensures forall r: nat :: r < |a| ==> a[r].score == b[r].score
  {
    NoShorter(plus, questions, k, a, b);
    NoShorter(plus, questions, k, b, a);
    forall r: nat | r < |a| ensures a[r].score == b[r].score {
      NoWorse(plus, questions, k, a, b, r);
      NoWorse(plus, questions, k, b, a, r);
    }
  }

  lemma NoShorter(plus: Plus, questions: seq<Question>, k: nat, a: seq<Candidate>, b: seq<Candidate>)
    requires Best(plus, questions, k, a) && Best(plus, questions, k, b)
    ensures |a| >= |b|
  {
    if |a| < |b| {
      forall c | c in b ensures c in a {
        assert Genuine(plus, questions, k, c);
      }
      GoodOnesFit(a, b);
    }
  }

  lemma NoWorse(plus: Plus, questions: seq<Question>, k: nat, a: seq<Candidate>, b: seq<Candidate>, r: nat)
    requires Best(plus, questions, k, a) && Best(plus, questions, k, b) && r < |a| && r < |b|
    ensures a[r].score >= b[r].score
  {
    if a[r].score < b[r].score {
      var front := b[..r + 1];
      forall c | c in front ensures c in a[..r] {
        var i: nat :| i < |front| && front[i] == c;
        assert c == b[i] && Genuine(plus, questions, k, c) && c.score >= b[r].score;
        assert !Displaced(c, a);
        var at: nat :| at < |a| && a[at] == c;
        assert at < r && a[..r][at] == c;
      }
      GoodOnesFit(a[..r], front);
    }
  }
}

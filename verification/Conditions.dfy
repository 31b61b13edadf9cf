/** Condition trees: their three-valued meaning for an event, the canonical form
    used to compare plans, and what that form preserves. */
module Conditions {
  import opened Listings

  datatype Comparison = Lt | Lte | Gt | Gte | Approx
  datatype Basis = PerPerson | PerTicket | GroupTotal
  datatype CompanionKind = Partner | Friends | Family | Children
  datatype Precision = District | Neighborhood | Side

  /** One requested property; Other stands for age, date, time, category and content. */
  datatype Atom =
    | Budget(comparison: Comparison, amount: real, basis: Basis)
    | Party(count: int)
    | Companion(kind: CompanionKind)
    | Topic(value: string)
    | Mood(value: string)
    | Location(name: string, precision: Precision)
    | Experience(value: string)
    | Other(text: string)

  datatype Condition =
    | One(atom: Atom)
    | All(children: seq<Condition>)
    | AnyOf(children: seq<Condition>)
    | Not(child: Condition)

  // ---- meaning ----

  datatype Status = Supported | Contradicted | Unknown
  datatype Finding = Finding(status: Status, evident: bool)

  /** What the evidence of one event says: its listed price in lira, whether a
      child may come along, and a finding for every other atom. */
  datatype Event = Event(price: Option<real>, withChild: Status, findings: Atom -> Finding, elsewhere: bool)

  predicate Meets(comparison: Comparison, price: real, amount: real) {
    match comparison
    case Lt => price < amount
    case Lte => price <= amount
    case Gt => price > amount
    case _ => price >= amount
  }

  function AtomFinding(event: Event, atom: Atom, party: Option<int>): Finding {
    match atom
    case Budget(comparison, amount, basis) =>
      if comparison == Approx || event.price.None? || (basis == GroupTotal && party.None?) then Finding(Unknown, false)
      else
        var price := if basis == GroupTotal then event.price.value * party.value as real else event.price.value;
        Finding(if Meets(comparison, price, amount) then Supported else Contradicted, true)
    case Party(_) => Finding(Supported, false)
    case Companion(kind) => Finding(if kind == Children || kind == Family then event.withChild else Supported, false)
    case Mood(_) => Finding(Unknown, false)
    case _ => event.findings(atom)
  }

  /** An unnamed topic counts as absent only under an odd number of negations. */
  function AtomStatus(event: Event, atom: Atom, party: Option<int>, negated: bool): Status {
    var finding := AtomFinding(event, atom, party);
    if negated && atom.Topic? && finding.status == Unknown && !finding.evident then Contradicted else finding.status
  }

  function Negate(status: Status): Status {
    match status
    case Unknown => Unknown
    case Supported => Contradicted
    case Contradicted => Supported
  }

  /** The status that decides a combination as soon as one operand has it. */
  function Deciding(all: bool): Status { if all then Contradicted else Supported }

  /** The status of a combination all of whose operands have it. */
  function Neutral(all: bool): Status { if all then Supported else Contradicted }

  function Combined(all: bool, some: bool, every: bool): Status {
    if some then Deciding(all) else if every then Neutral(all) else Unknown
  }

  function Evaluate(event: Event, c: Condition, party: Option<int>, negated: bool): Status {
    match c
    case One(atom) => AtomStatus(event, atom, party, negated)
    case Not(child) => Negate(Evaluate(event, child, party, !negated))
    case All(children) =>
      Combined(true,
               exists x :: x in children && Evaluate(event, x, party, negated) == Contradicted,
               forall x :: x in children ==> Evaluate(event, x, party, negated) == Supported)
    case AnyOf(children) =>
      Combined(false,
               exists x :: x in children && Evaluate(event, x, party, negated) == Supported,
               forall x :: x in children ==> Evaluate(event, x, party, negated) == Contradicted)
  }

  // ---- the canonical form ----

  /** The canonical text as a tree. Its operand lists are deduplicated and
      sorted, so a set holds exactly what the text says. */
  datatype Canon =
    | AtomText(atom: Atom)
    | NotText(child: Canon)
    | AllText(children: set<Canon>)
    | AnyText(children: set<Canon>)

  /** Pushing a negation inwards makes a condition lighter. */
  function Weight(c: Condition): nat
    decreases c
  {
    match c
    case One(_) => 1
    case Not(child) => 2 * Weight(child) + 1
    case All(children) => 1 + WeightOf(children)
    case AnyOf(children) => 1 + WeightOf(children)
  }

  function WeightOf(children: seq<Condition>): nat
    decreases children
  {
    if children == [] then 0 else 1 + Weight(children[0]) + WeightOf(children[1..])
  }

  function Negated(children: seq<Condition>): (negated: seq<Condition>)
    ensures |negated| == |children|
    ensures forall i :: 0 <= i < |negated| ==> negated[i] == Not(children[i])
  {
    if children == [] then [] else [Not(children[0])] + Negated(children[1..])
  }

  lemma NegatedWeight(children: seq<Condition>)
    ensures WeightOf(Negated(children)) <= 2 * WeightOf(children)
  {
  }

  /** The operands of an all (or any) after flattening nested ones of the same
      kind, double negations, and negations of the opposite kind. */
  function Operands(all: bool, child: Condition): (operands: seq<Condition>)
    ensures forall o :: o in operands ==> Weight(o) <= Weight(child)
    decreases Weight(child)
  {
    match child
    case All(children) => if all then OperandsOf(all, children) else [child]
    case AnyOf(children) => if all then [child] else OperandsOf(all, children)
    case Not(Not(inner)) => Operands(all, inner)
    case Not(All(children)) => if all then [child] else NegatedWeight(children); OperandsOf(all, Negated(children))
    case Not(AnyOf(children)) => if all then NegatedWeight(children); OperandsOf(all, Negated(children)) else [child]
    case _ => [child]
  }

  function OperandsOf(all: bool, children: seq<Condition>): (operands: seq<Condition>)
    ensures forall o :: o in operands ==> Weight(o) <= WeightOf(children)
    decreases WeightOf(children)
  {
    if children == [] then [] else Operands(all, children[0]) + OperandsOf(all, children[1..])
  }

  lemma Lightens(c: Condition)
    requires c.Not?
    ensures c.child.Not? ==> Weight(c.child.child) < Weight(c)
    ensures c.child.All? ==> Weight(AnyOf(Negated(c.child.children))) < Weight(c)
    ensures c.child.AnyOf? ==> Weight(All(Negated(c.child.children))) < Weight(c)
  {
    match c.child
    case Not(inner) => assert Weight(c.child) == 2 * Weight(inner) + 1;
    case All(children) => NegatedWeight(children); assert Weight(c.child) == 1 + WeightOf(children);
    case AnyOf(children) => NegatedWeight(children); assert Weight(c.child) == 1 + WeightOf(children);
    case One(_) =>
  }

  const TRIVIAL := AllText({})

  /** Per-person and per-ticket ceilings both bound the listed ticket price. */
  function CanonicalAtom(atom: Atom): Atom {
    if atom.Budget? && atom.basis == PerPerson then atom.(basis := PerTicket) else atom
  }

  /** The canonical form: companions vanish, negations move inwards, operand
      lists are flattened and deduplicated, single operands are unwrapped. */
  function Canonical(c: Condition): Canon
    decreases Weight(c)
  {
    match c
    case One(Companion(_)) => TRIVIAL
    case One(atom) => AtomText(CanonicalAtom(atom))
    case Not(Not(inner)) => Lightens(c); Canonical(inner)
    case Not(All(children)) => Lightens(c); Canonical(AnyOf(Negated(children)))
    case Not(AnyOf(children)) => Lightens(c); Canonical(All(Negated(children)))
    case Not(child) => NotText(Canonical(child))
    case All(children) =>
      var operands := OperandsOf(true, children);
      Collapse(true, (set o | o in operands :: Canonical(o)) - {TRIVIAL})
    case AnyOf(children) =>
      var operands := OperandsOf(false, children);
      Collapse(false, set o | o in operands :: Canonical(o))
  }

  lemma Singleton(values: set<Canon>, v: Canon)
    requires |values| == 1 && v in values
    ensures values == {v}
  {
    assert |values - {v}| == 0;
  }

  function Collapse(all: bool, values: set<Canon>): Canon {
    if |values| == 1 then
      Unique(values);
      var v :| v in values; v
    else if all then AllText(values) else AnyText(values)
  }

  lemma Unique(values: set<Canon>)
    requires |values| == 1
    ensures exists v :: v in values
    ensures forall v, w :: v in values && w in values ==> v == w
  {
    forall v, w | v in values && w in values ensures v == w {
      Singleton(values, v);
    }
    assert values != {};
  }

  // ---- the canonical form means the same ----

  function EvaluateText(event: Event, c: Canon, party: Option<int>, negated: bool): Status {
    match c
    case AtomText(atom) => AtomStatus(event, atom, party, negated)
    case NotText(child) => Negate(EvaluateText(event, child, party, !negated))
    case AllText(children) =>
      Combined(true,
               exists x :: x in children && EvaluateText(event, x, party, negated) == Contradicted,
               forall x :: x in children ==> EvaluateText(event, x, party, negated) == Supported)
    case AnyText(children) =>
      Combined(false,
               exists x :: x in children && EvaluateText(event, x, party, negated) == Supported,
               forall x :: x in children ==> EvaluateText(event, x, party, negated) == Contradicted)
  }

  ghost predicate SomeIs(event: Event, operands: seq<Condition>, party: Option<int>, negated: bool, status: Status) {
    exists x :: x in operands && Evaluate(event, x, party, negated) == status
  }

  ghost predicate AllAre(event: Event, operands: seq<Condition>, party: Option<int>, negated: bool, status: Status) {
    forall x :: x in operands ==> Evaluate(event, x, party, negated) == status
  }

  lemma NegatedHolds(children: seq<Condition>)
    ensures forall x :: x in children ==> Not(x) in Negated(children)
    ensures forall y :: y in Negated(children) ==> y.Not? && y.child in children
  {
    var not := Negated(children);
    forall x | x in children ensures Not(x) in not {
      var i :| 0 <= i < |children| && children[i] == x;
      assert not[i] == Not(x);
    }
    forall y | y in not ensures y.Not? && y.child in children {
      var i :| 0 <= i < |not| && not[i] == y;
      assert y == Not(children[i]);
    }
  }

  lemma NotStatus(event: Event, x: Condition, party: Option<int>, negated: bool, status: Status)
    ensures Evaluate(event, Not(x), party, negated) == Negate(status) <==> Evaluate(event, x, party, !negated) == status
  {
  }

  lemma {:induction false} NegatedMeaning(
      event: Event, children: seq<Condition>, party: Option<int>, negated: bool, status: Status)
    ensures SomeIs(event, Negated(children), party, negated, Negate(status))
       <==> SomeIs(event, children, party, !negated, status)
    ensures AllAre(event, Negated(children), party, negated, Negate(status))
       <==> AllAre(event, children, party, !negated, status)
  {
    SomeNegated(event, children, party, negated, status);
    AllNegated(event, children, party, negated, status);
  }

  lemma SomeNegated(event: Event, children: seq<Condition>, party: Option<int>, negated: bool, status: Status)
    ensures SomeIs(event, Negated(children), party, negated, Negate(status))
       <==> SomeIs(event, children, party, !negated, status)
  {
    NegatedHolds(children);
    if y :| y in Negated(children) && Evaluate(event, y, party, negated) == Negate(status) {
      NotStatus(event, y.child, party, negated, status);
    }
    if x :| x in children && Evaluate(event, x, party, !negated) == status {
      NotStatus(event, x, party, negated, status);
    }
  }

  lemma AllNegated(event: Event, children: seq<Condition>, party: Option<int>, negated: bool, status: Status)
    ensures AllAre(event, Negated(children), party, negated, Negate(status))
       <==> AllAre(event, children, party, !negated, status)
  {
    NegatedHolds(children);
    if x :| x in children && Evaluate(event, x, party, !negated) != status {
      NotStatus(event, x, party, negated, status);
    }
    if y :| y in Negated(children) && Evaluate(event, y, party, negated) != Negate(status) {
      NotStatus(event, y.child, party, negated, status);
    }
  }

  function Combination(all: bool, children: seq<Condition>): Condition {
    if all then All(children) else AnyOf(children)
  }

  lemma CombinationStatus(event: Event, all: bool, children: seq<Condition>, party: Option<int>, negated: bool)
    ensures Evaluate(event, Combination(all, children), party, negated) == Deciding(all)
       <==> SomeIs(event, children, party, negated, Deciding(all))
    ensures Evaluate(event, Combination(all, children), party, negated) == Neutral(all)
       <==> AllAre(event, children, party, negated, Neutral(all))
  {
  }

  /** Negating a combination is the opposite combination of the negations. */
  lemma NegatedCombinationStatus(event: Event, all: bool, children: seq<Condition>, party: Option<int>, negated: bool)
    ensures Evaluate(event, Not(Combination(!all, children)), party, negated)
         == Evaluate(event, Combination(all, Negated(children)), party, negated)
  {
    CombinationStatus(event, !all, children, party, !negated);
    CombinationStatus(event, all, Negated(children), party, negated);
    NegatedMeaning(event, children, party, negated, Deciding(!all));
    NegatedMeaning(event, children, party, negated, Neutral(!all));
    assert Evaluate(event, Not(Combination(!all, children)), party, negated)
        == Negate(Evaluate(event, Combination(!all, children), party, !negated));
  }

  /** Flattening keeps what decides a combination: some operand has the deciding
      status, or all have the neutral one, exactly when the child does. */
  lemma {:induction false} OperandsMeaning(event: Event, all: bool, child: Condition, party: Option<int>, negated: bool)
    ensures SomeIs(event, Operands(all, child), party, negated, Deciding(all))
       <==> Evaluate(event, child, party, negated) == Deciding(all)
    ensures AllAre(event, Operands(all, child), party, negated, Neutral(all))
       <==> Evaluate(event, child, party, negated) == Neutral(all)
    decreases Weight(child)
  {
    if (child.All? || child.AnyOf?) && child == Combination(all, child.children) {
      assert Operands(all, child) == OperandsOf(all, child.children);
      OperandsOfMeaning(event, all, child.children, party, negated);
      CombinationStatus(event, all, child.children, party, negated);
    } else if child.Not? && child.child.Not? {
      Lightens(child);
      OperandsMeaning(event, all, child.child.child, party, negated);
    } else if child.Not? && (child.child.All? || child.child.AnyOf?)
      && child.child == Combination(!all, child.child.children) {
      Lightens(child);
      var children := child.child.children;
      assert Operands(all, child) == OperandsOf(all, Negated(children));
      OperandsOfMeaning(event, all, Negated(children), party, negated);
      CombinationStatus(event, all, Negated(children), party, negated);
      NegatedCombinationStatus(event, all, children, party, negated);
    } else {
      assert Operands(all, child) == [child];
    }
  }

  lemma {:induction false} OperandsOfMeaning(
      event: Event, all: bool, children: seq<Condition>, party: Option<int>, negated: bool)
    ensures SomeIs(event, OperandsOf(all, children), party, negated, Deciding(all))
       <==> SomeIs(event, children, party, negated, Deciding(all))
    ensures AllAre(event, OperandsOf(all, children), party, negated, Neutral(all))
       <==> AllAre(event, children, party, negated, Neutral(all))
    decreases WeightOf(children)
  {
    if children != [] {
      OperandsMeaning(event, all, children[0], party, negated);
      OperandsOfMeaning(event, all, children[1..], party, negated);
      SplitMeaning(event, Operands(all, children[0]), OperandsOf(all, children[1..]), party, negated, all);
      assert children == [children[0]] + children[1..];
      SplitMeaning(event, [children[0]], children[1..], party, negated, all);
    }
  }

  lemma SplitMeaning(
      event: Event, left: seq<Condition>, right: seq<Condition>, party: Option<int>, negated: bool, all: bool)
    ensures SomeIs(event, left + right, party, negated, Deciding(all)) <==>
            SomeIs(event, left, party, negated, Deciding(all)) || SomeIs(event, right, party, negated, Deciding(all))
    ensures AllAre(event, left + right, party, negated, Neutral(all)) <==>
            AllAre(event, left, party, negated, Neutral(all)) && AllAre(event, right, party, negated, Neutral(all))
  {
    assert forall x :: x in left + right <==> x in left || x in right;
  }

  ghost predicate SomeText(event: Event, values: set<Canon>, party: Option<int>, negated: bool, status: Status) {
    exists v :: v in values && EvaluateText(event, v, party, negated) == status
  }

  ghost predicate AllTexts(event: Event, values: set<Canon>, party: Option<int>, negated: bool, status: Status) {
    forall v :: v in values ==> EvaluateText(event, v, party, negated) == status
  }

  /** Unwrapping a single operand changes nothing. */
  lemma CollapseMeaning(event: Event, all: bool, values: set<Canon>, party: Option<int>, negated: bool)
    ensures EvaluateText(event, Collapse(all, values), party, negated)
         == Combined(all, SomeText(event, values, party, negated, Deciding(all)),
           AllTexts(event, values, party, negated, Neutral(all)))
  {
    if |values| == 1 {
      Unique(values);
      assert Collapse(all, values) in values;
    }
  }

  /** The canonical form means, for every event, party size and polarity, what
      the condition means once companions are context only. */
  lemma {:induction false} CanonicalMeaning(event: Event, c: Condition, party: Option<int>, negated: bool)
    requires event.withChild == Supported
    ensures EvaluateText(event, Canonical(c), party, negated) == Evaluate(event, c, party, negated)
    decreases Weight(c)
  {
    match c
    case One(atom) =>
    case Not(Not(inner)) =>
      Lightens(c);
      CanonicalMeaning(event, inner, party, negated);
    case Not(All(children)) =>
      Lightens(c);
      CanonicalMeaning(event, AnyOf(Negated(children)), party, negated);
      NegatedCombinationStatus(event, false, children, party, negated);
    case Not(AnyOf(children)) =>
      Lightens(c);
      CanonicalMeaning(event, All(Negated(children)), party, negated);
      NegatedCombinationStatus(event, true, children, party, negated);
    case Not(One(atom)) =>
      CanonicalMeaning(event, One(atom), party, !negated);
    case All(children) =>
      CombinationMeaning(event, true, children, party, negated);
    case AnyOf(children) =>
      CombinationMeaning(event, false, children, party, negated);
  }

  function CanonicalSet(operands: seq<Condition>): set<Canon> {
    set o | o in operands :: Canonical(o)
  }

  lemma {:induction false} CombinationMeaning(
      event: Event, all: bool, children: seq<Condition>, party: Option<int>, negated: bool)
    requires event.withChild == Supported
    ensures EvaluateText(event, Canonical(Combination(all, children)), party, negated)
         == Evaluate(event, Combination(all, children), party, negated)
    decreases WeightOf(children) + 1, 0
  {
    var operands := OperandsOf(all, children);
    forall o | o in operands
      ensures EvaluateText(event, Canonical(o), party, negated) == Evaluate(event, o, party, negated)
    {
      CanonicalMeaning(event, o, party, negated);
    }
    CombinationText(event, all, children, operands, party, negated);
  }

  lemma CombinationText(
      event: Event, all: bool, children: seq<Condition>, operands: seq<Condition>, party: Option<int>, negated: bool)
    requires operands == OperandsOf(all, children)
    requires forall o :: o in operands ==>
      EvaluateText(event, Canonical(o), party, negated) == Evaluate(event, o, party, negated)
    ensures EvaluateText(event, Canonical(Combination(all, children)), party, negated)
         == Evaluate(event, Combination(all, children), party, negated)
  {
    OperandsOfMeaning(event, all, children, party, negated);
    CombinationStatus(event, all, children, party, negated);
    OperandValues(event, all, operands, party, negated);
    DroppingTrivial(event, CanonicalSet(operands), party, negated);
    var values := if all then CanonicalSet(operands) - {TRIVIAL} else CanonicalSet(operands);
    CollapseMeaning(event, all, values, party, negated);
    CanonicalCombination(all, children, values);
  }

  lemma CanonicalCombination(all: bool, children: seq<Condition>, values: set<Canon>)
    requires values
         == if all then CanonicalSet(OperandsOf(all, children)) - {TRIVIAL} else CanonicalSet(OperandsOf(all, children))
    ensures Canonical(Combination(all, children)) == Collapse(all, values)
  {
  }

  lemma DroppingTrivial(event: Event, values: set<Canon>, party: Option<int>, negated: bool)
    ensures SomeText(event, values - {TRIVIAL}, party, negated, Contradicted)
       <==> SomeText(event, values, party, negated, Contradicted)
    ensures AllTexts(event, values - {TRIVIAL}, party, negated, Supported)
       <==> AllTexts(event, values, party, negated, Supported)
  {
    assert EvaluateText(event, TRIVIAL, party, negated) == Supported;
    assert forall v :: v in values && v != TRIVIAL <==> v in values - {TRIVIAL};
  }

  lemma OperandValues(event: Event, all: bool, operands: seq<Condition>, party: Option<int>, negated: bool)
    requires forall o :: o in operands ==>
      EvaluateText(event, Canonical(o), party, negated) == Evaluate(event, o, party, negated)
    ensures SomeText(event, CanonicalSet(operands), party, negated, Deciding(all))
       <==> SomeIs(event, operands, party, negated, Deciding(all))
    ensures AllTexts(event, CanonicalSet(operands), party, negated, Neutral(all))
       <==> AllAre(event, operands, party, negated, Neutral(all))
  {
    forall o | o in operands ensures Canonical(o) in CanonicalSet(operands) {
    }
  }

  // ---- the atoms of a canonical form, and what companions cost ----

  function Atoms(c: Condition): set<Atom>
    decreases c
  {
    match c
    case One(atom) => {atom}
    case Not(child) => Atoms(child)
    case All(children) => AtomsOf(children)
    case AnyOf(children) => AtomsOf(children)
  }

  function AtomsOf(children: seq<Condition>): set<Atom>
    decreases children
  {
    if children == [] then {} else Atoms(children[0]) + AtomsOf(children[1..])
  }

  function AtomsIn(c: Canon): set<Atom> {
    match c
    case AtomText(atom) => {atom}
    case NotText(child) => AtomsIn(child)
    case AllText(children) => set x, a | x in children && a in AtomsIn(x) :: a
    case AnyText(children) => set x, a | x in children && a in AtomsIn(x) :: a
  }

  /** What survives of a set of atoms: no companions, and one kind of ticket ceiling. */
  function Surviving(atoms: set<Atom>): set<Atom> {
    set a | a in atoms && !a.Companion? :: CanonicalAtom(a)
  }

  lemma AtomsOfSplit(left: seq<Condition>, right: seq<Condition>)
    ensures AtomsOf(left + right) == AtomsOf(left) + AtomsOf(right)
  {
    if left == [] {
      assert left + right == right;
    } else {
      AtomsOfSplit(left[1..], right);
      assert (left + right)[1..] == left[1..] + right;
    }
  }

  lemma {:induction false} AtomsOfNegated(children: seq<Condition>)
    ensures AtomsOf(Negated(children)) == AtomsOf(children)
  {
    if children != [] {
      AtomsOfNegated(children[1..]);
      assert Negated(children)[1..] == Negated(children[1..]);
    }
  }

  lemma {:induction false} OperandsAtoms(all: bool, child: Condition)
    ensures AtomsOf(Operands(all, child)) == Atoms(child)
    decreases Weight(child)
  {
    if (child.All? || child.AnyOf?) && child == Combination(all, child.children) {
      OperandsOfAtoms(all, child.children);
    } else if child.Not? && child.child.Not? {
      Lightens(child);
      OperandsAtoms(all, child.child.child);
    } else if child.Not? && (child.child.All? || child.child.AnyOf?)
      && child.child == Combination(!all, child.child.children) {
      Lightens(child);
      OperandsOfAtoms(all, Negated(child.child.children));
      AtomsOfNegated(child.child.children);
    } else {
      assert Operands(all, child) == [child];
      assert AtomsOf([child]) == Atoms(child) + AtomsOf([]);
    }
  }

  lemma {:induction false} OperandsOfAtoms(all: bool, children: seq<Condition>)
    ensures AtomsOf(OperandsOf(all, children)) == AtomsOf(children)
    decreases WeightOf(children)
  {
    if children != [] {
      OperandsAtoms(all, children[0]);
      OperandsOfAtoms(all, children[1..]);
      AtomsOfSplit(Operands(all, children[0]), OperandsOf(all, children[1..]));
    }
  }

  ghost function Union(values: set<Canon>): set<Atom> {
    set x, a | x in values && a in AtomsIn(x) :: a
  }

  lemma CollapseAtoms(all: bool, values: set<Canon>)
    ensures AtomsIn(Collapse(all, values)) == Union(values)
  {
    if |values| == 1 {
      Unique(values);
      assert Collapse(all, values) in values;
    }
  }

  /** The canonical form keeps every atom except companions. */
  lemma {:induction false} CanonicalAtoms(c: Condition)
    ensures AtomsIn(Canonical(c)) == Surviving(Atoms(c))
    decreases Weight(c)
  {
    match c
    case One(_) =>
    case Not(Not(inner)) => Lightens(c); CanonicalAtoms(inner);
    case Not(All(children)) => Lightens(c); CanonicalAtoms(AnyOf(Negated(children))); AtomsOfNegated(children);
    case Not(AnyOf(children)) => Lightens(c); CanonicalAtoms(All(Negated(children))); AtomsOfNegated(children);
    case Not(One(atom)) => CanonicalAtoms(One(atom));
    case All(children) => CombinationAtoms(true, children);
    case AnyOf(children) => CombinationAtoms(false, children);
  }

  lemma {:induction false} CombinationAtoms(all: bool, children: seq<Condition>)
    ensures AtomsIn(Canonical(Combination(all, children))) == Surviving(AtomsOf(children))
    decreases WeightOf(children) + 1, 0
  {
    var operands := OperandsOf(all, children);
    forall o | o in operands ensures AtomsIn(Canonical(o)) == Surviving(Atoms(o)) {
      CanonicalAtoms(o);
    }
    OperandsOfAtoms(all, children);
    UnionOfOperands(operands);
    var values := if all then CanonicalSet(operands) - {TRIVIAL} else CanonicalSet(operands);
    CanonicalCombination(all, children, values);
    CollapseAtoms(all, values);
    UnionWithoutTrivial(CanonicalSet(operands));
  }

  /** A trivial operand holds no atoms. */
  lemma UnionWithoutTrivial(values: set<Canon>)
    ensures Union(values - {TRIVIAL}) == Union(values)
  {
  }

  lemma {:induction false} UnionOfOperands(operands: seq<Condition>)
    requires forall o :: o in operands ==> AtomsIn(Canonical(o)) == Surviving(Atoms(o))
    ensures Union(CanonicalSet(operands)) == Surviving(AtomsOf(operands))
  {
    if operands != [] {
      UnionOfOperands(operands[1..]);
      assert operands == [operands[0]] + operands[1..];
      assert CanonicalSet(operands) == {Canonical(operands[0])} + CanonicalSet(operands[1..]);
      UnionSplit(Canonical(operands[0]), CanonicalSet(operands[1..]));
      SurvivingSplit(Atoms(operands[0]), AtomsOf(operands[1..]));
    }
  }

  lemma UnionSplit(value: Canon, values: set<Canon>)
    ensures Union({value} + values) == AtomsIn(value) + Union(values)
  {
  }

  lemma SurvivingSplit(left: set<Atom>, right: set<Atom>)
    ensures Surviving(left + right) == Surviving(left) + Surviving(right)
  {
    forall a | a in Surviving(left) + Surviving(right) ensures a in Surviving(left + right) {
      var b :| b in left + right && !b.Companion? && CanonicalAtom(b) == a;
    }
  }

  /** An event whose child suitability is set aside. */
  function WithContextCompanions(event: Event): Event {
    event.(withChild := Supported)
  }

  lemma {:induction false} TextIgnoresCompanions(event: Event, c: Canon, party: Option<int>, negated: bool)
    requires forall a :: a in AtomsIn(c) ==> !a.Companion?
    ensures EvaluateText(event, c, party, negated) == EvaluateText(WithContextCompanions(event), c, party, negated)
    decreases c
  {
    match c
    case AtomText(atom) => assert atom in AtomsIn(c);
    case NotText(child) => TextIgnoresCompanions(event, child, party, !negated);
    case AllText(children) =>
      forall x | x in children
        ensures EvaluateText(event, x, party, negated) == EvaluateText(WithContextCompanions(event), x, party, negated)
      {
        TextIgnoresCompanions(event, x, party, negated);
      }
    case AnyText(children) =>
      forall x | x in children
        ensures EvaluateText(event, x, party, negated) == EvaluateText(WithContextCompanions(event), x, party, negated)
      {
        TextIgnoresCompanions(event, x, party, negated);
      }
  }

  /** For every event: the canonical form means the condition with every
      companion taken as context. */
  lemma CanonicalFormMeaning(event: Event, c: Condition, party: Option<int>, negated: bool)
    ensures EvaluateText(event, Canonical(c), party, negated)
         == Evaluate(WithContextCompanions(event), c, party, negated)
  {
    CanonicalAtoms(c);
    TextIgnoresCompanions(event, Canonical(c), party, negated);
    CanonicalMeaning(WithContextCompanions(event), c, party, negated);
  }

  /** The canonical form of every condition decides the event as the condition does. */
  ghost predicate FormIsFaithful(event: Event) {
    forall c, party, negated ::
      EvaluateText(event, Canonical(c), party, negated) == Evaluate(event, c, party, negated)
  }

  /** It means the condition itself exactly for the events a child may attend. */
  lemma CanonicalFormIsFaithfulExactlyWithChildren(event: Event)
    ensures FormIsFaithful(event) <==> event.withChild == Supported
  {
    if event.withChild == Supported {
      forall c, party, negated
        ensures EvaluateText(event, Canonical(c), party, negated) == Evaluate(event, c, party, negated)
      {
        CanonicalMeaning(event, c, party, negated);
      }
    } else {
      var c := One(Companion(Children));
      assert EvaluateText(event, Canonical(c), None, false) == Supported;
      assert Evaluate(event, c, None, false) == event.withChild;
    }
  }

  predicate BringsChild(atom: Atom) {
    atom.Companion? && (atom.kind == Children || atom.kind == Family)
  }

  lemma {:induction false} ChildrenOnlyMatterWhenNamed(event: Event, c: Condition, party: Option<int>, negated: bool)
    requires forall a :: a in Atoms(c) ==> !BringsChild(a)
    ensures Evaluate(event, c, party, negated) == Evaluate(WithContextCompanions(event), c, party, negated)
    decreases c
  {
    match c
    case One(atom) => assert atom in Atoms(c);
    case Not(child) => ChildrenOnlyMatterWhenNamed(event, child, party, !negated);
    case All(children) =>
      forall x | x in children
        ensures Evaluate(event, x, party, negated) == Evaluate(WithContextCompanions(event), x, party, negated)
      {
        AtomsOfMember(children, x);
        ChildrenOnlyMatterWhenNamed(event, x, party, negated);
      }
    case AnyOf(children) =>
      forall x | x in children
        ensures Evaluate(event, x, party, negated) == Evaluate(WithContextCompanions(event), x, party, negated)
      {
        AtomsOfMember(children, x);
        ChildrenOnlyMatterWhenNamed(event, x, party, negated);
      }
  }

  lemma {:induction false} AtomsOfMember(children: seq<Condition>, x: Condition)
    requires x in children
    ensures Atoms(x) <= AtomsOf(children)
  {
    if x != children[0] {
      AtomsOfMember(children[1..], x);
    }
  }

  /** Equal canonical forms decide every event alike when no child is named. */
  lemma EqualFormsDecideAlike(event: Event, c: Condition, d: Condition, party: Option<int>, negated: bool)
    requires Canonical(c) == Canonical(d)
    requires forall a :: a in Atoms(c) + Atoms(d) ==> !BringsChild(a)
    ensures Evaluate(event, c, party, negated) == Evaluate(event, d, party, negated)
  {
    CanonicalFormMeaning(event, c, party, negated);
    CanonicalFormMeaning(event, d, party, negated);
    ChildrenOnlyMatterWhenNamed(event, c, party, negated);
    ChildrenOnlyMatterWhenNamed(event, d, party, negated);
  }
}

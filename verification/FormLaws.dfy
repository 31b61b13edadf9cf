/** Which conditions have equal canonical forms: the laws the form absorbs, the
    shape it always has, and where it stops short. */
module FormLaws {
  import opened Conditions

  // ---- operand lists ----

  lemma {:induction false} OperandsOfSplit(all: bool, left: seq<Condition>, right: seq<Condition>)
    ensures OperandsOf(all, left + right) == OperandsOf(all, left) + OperandsOf(all, right)
  {
    if left == [] {
      assert left + right == right;
    } else {
      OperandsOfSplit(all, left[1..], right);
      TailOfSum(left, right);
      Regroup(Operands(all, left[0]), OperandsOf(all, left[1..]), OperandsOf(all, right));
    }
  }

  lemma TailOfSum(left: seq<Condition>, right: seq<Condition>)
    requires left != []
    ensures (left + right)[1..] == left[1..] + right && (left + right)[0] == left[0]
  {
  }

  lemma Regroup(a: seq<Condition>, b: seq<Condition>, c: seq<Condition>)
    ensures a + (b + c) == a + b + c
  {
  }

  lemma OperandsOfOne(all: bool, c: Condition)
    ensures OperandsOf(all, [c]) == Operands(all, c)
  {
    assert OperandsOf(all, [c]) == Operands(all, c) + OperandsOf(all, []);
  }

  lemma OperandsBetween(all: bool, before: seq<Condition>, middle: seq<Condition>, after: seq<Condition>)
    ensures OperandsOf(all, before + middle + after)
         == OperandsOf(all, before) + OperandsOf(all, middle) + OperandsOf(all, after)
  {
    OperandsOfSplit(all, before + middle, after);
    OperandsOfSplit(all, before, middle);
  }

  /** Combinations whose operands have the same forms have the same form. */
  lemma SameOperandForms(all: bool, left: seq<Condition>, right: seq<Condition>)
    requires CanonicalSet(OperandsOf(all, left)) == CanonicalSet(OperandsOf(all, right))
    ensures Canonical(Combination(all, left)) == Canonical(Combination(all, right))
  {
    var values := CanonicalSet(OperandsOf(all, left));
    CanonicalCombination(all, left, if all then values - {TRIVIAL} else values);
    CanonicalCombination(all, right, if all then values - {TRIVIAL} else values);
  }

  // ---- the laws ----

  lemma DoubleNegation(c: Condition)
    ensures Canonical(Not(Not(c))) == Canonical(c)
  {
  }

  /** A negated combination is the opposite combination of the negations. */
  lemma DeMorgan(all: bool, children: seq<Condition>)
    ensures Canonical(Not(Combination(all, children))) == Canonical(Combination(!all, Negated(children)))
  {
    if all {
      NegatedAll(children);
    } else {
      NegatedAny(children);
    }
  }

  lemma NegatedAll(children: seq<Condition>)
    ensures Canonical(Not(All(children))) == Canonical(AnyOf(Negated(children)))
  {
  }

  lemma NegatedAny(children: seq<Condition>)
    ensures Canonical(Not(AnyOf(children))) == Canonical(All(Negated(children)))
  {
  }

  /** An operand may be written in any of these ways without changing the form. */
  ghost predicate Rewrites(all: bool, operand: Condition, operands: seq<Condition>) {
    || operand == Combination(all, operands)
    || (operand == Not(Combination(!all, Undone(operands))) && forall o :: o in operands ==> o.Not?)
    || (|operands| == 1 && operand == Not(Not(operands[0])))
  }

  function Undone(operands: seq<Condition>): (children: seq<Condition>)
    ensures |children| == |operands|
    ensures forall i :: 0 <= i < |operands| ==>
      children[i] == if operands[i].Not? then operands[i].child else operands[i]
  {
    seq(|operands|, i requires 0 <= i < |operands| => if operands[i].Not? then operands[i].child else operands[i])
  }

  /** Nested combinations of the same kind, negated ones of the opposite kind and
      double negations dissolve into the list around them. */
  lemma OperandsDissolve(
      all: bool, before: seq<Condition>, operand: Condition, operands: seq<Condition>, after: seq<Condition>)
    requires Rewrites(all, operand, operands)
    ensures Canonical(Combination(all, before + [operand] + after))
         == Canonical(Combination(all, before + operands + after))
  {
    OperandsOfOne(all, operand);
    if |operands| == 1 && operand == Not(Not(operands[0])) {
      OperandsOfOne(all, operands[0]);
      assert operands == [operands[0]];
    } else if operand != Combination(all, operands) {
      assert Negated(Undone(operands)) == operands;
    }
    assert Operands(all, operand) == OperandsOf(all, operands);
    OperandsBetween(all, before, [operand], after);
    OperandsBetween(all, before, operands, after);
    SameOperandForms(all, before + [operand] + after, before + operands + after);
  }

  lemma {:induction false} OperandsOfMember(all: bool, children: seq<Condition>, o: Condition)
    ensures o in OperandsOf(all, children) <==> exists c :: c in children && o in Operands(all, c)
  {
    if children != [] {
      OperandsOfMember(all, children[1..], o);
      if c :| c in children && o in Operands(all, c) {
        assert c == children[0] || c in children[1..];
      }
      if c :| c in children[1..] && o in Operands(all, c) {
        assert c in children;
      }
    }
  }

  /** Neither the order of operands nor their repetition matters. */
  lemma OrderAndRepetition(all: bool, left: seq<Condition>, right: seq<Condition>)
    requires forall c :: c in left <==> c in right
    ensures Canonical(Combination(all, left)) == Canonical(Combination(all, right))
  {
    forall o ensures o in OperandsOf(all, left) <==> o in OperandsOf(all, right) {
      OperandsOfMember(all, left, o);
      OperandsOfMember(all, right, o);
    }
    SameOperandForms(all, left, right);
  }

  /** A combination of one condition is that condition. */
  lemma {:induction false} SingleOperand(all: bool, c: Condition)
    ensures Canonical(Combination(all, [c])) == Canonical(c)
    decreases Weight(c)
  {
    OperandsOfOne(all, c);
    if c.Not? && c.child.Not? {
      Lightens(c);
      SingleOperand(all, c.child.child);
      OperandsOfOne(all, c.child.child);
      SameOperandForms(all, [c], [c.child.child]);
    } else if (c.All? || c.AnyOf?) && c == Combination(all, c.children) {
      SameOperandForms(all, [c], c.children);
    } else if c.Not? && (c.child.All? || c.child.AnyOf?) && c.child == Combination(!all, c.child.children) {
      SameOperandForms(all, [c], Negated(c.child.children));
      DeMorgan(!all, c.child.children);
    } else {
      assert Operands(all, c) == [c];
      LoneForm(all, c);
    }
  }

  lemma LoneForm(all: bool, c: Condition)
    requires OperandsOf(all, [c]) == [c]
    ensures Canonical(Combination(all, [c])) == Canonical(c)
  {
    assert CanonicalSet([c]) == {Canonical(c)};
    var values := if all then {Canonical(c)} - {TRIVIAL} else {Canonical(c)};
    CanonicalCombination(all, [c], values);
    if all && Canonical(c) == TRIVIAL {
      assert values == {};
    } else {
      assert values == {Canonical(c)};
      CollapseOne(all, Canonical(c));
    }
  }

  lemma CollapseOne(all: bool, v: Canon)
    ensures Collapse(all, {v}) == v
  {
    assert Collapse(all, {v}) in {v};
  }

  /** Who comes along drops out of a conjunction. */
  lemma CompanionsAreContext(before: seq<Condition>, kind: CompanionKind, after: seq<Condition>)
    ensures Canonical(All(before + [One(Companion(kind))] + after)) == Canonical(All(before + after))
  {
    var companion := One(Companion(kind));
    OperandsOfOne(true, companion);
    OperandsBetween(true, before, [companion], after);
    OperandsOfSplit(true, before, after);
    var with, without := OperandsOf(true, before + [companion] + after), OperandsOf(true, before + after);
    assert forall o :: o in with <==> o in without || o == companion;
    FormsWithTrivial(with, without, companion);
    CanonicalCombination(true, before + [companion] + after, CanonicalSet(with) - {TRIVIAL});
    CanonicalCombination(true, before + after, CanonicalSet(without) - {TRIVIAL});
  }

  lemma FormsWithTrivial(with: seq<Condition>, without: seq<Condition>, extra: Condition)
    requires Canonical(extra) == TRIVIAL
    requires forall o :: o in with <==> o in without || o == extra
    ensures CanonicalSet(with) - {TRIVIAL} == CanonicalSet(without) - {TRIVIAL}
  {
    forall v | v in CanonicalSet(with) && v != TRIVIAL ensures v in CanonicalSet(without) {
      var o :| o in with && Canonical(o) == v;
    }
  }

  // ---- what the form tells apart ----

  /** Two atoms that a form does not tell apart: companions, or one atom up to
      whether a ceiling is per person or per ticket. */
  predicate SameAtom(a: Atom, b: Atom) {
    || (a.Companion? && b.Companion?)
    || a == b
    || (a.Budget? && b.Budget? && a.comparison == b.comparison && a.amount == b.amount
        && a.basis != GroupTotal && b.basis != GroupTotal)
  }

  /** Single atoms have equal forms exactly when they are the same in that sense,
      and so do their negations; a negated companion stays visible. */
  lemma AtomForms(a: Atom, b: Atom)
    ensures Canonical(One(a)) == Canonical(One(b)) <==> SameAtom(a, b)
    ensures Canonical(Not(One(a))) == Canonical(Not(One(b))) <==> SameAtom(a, b)
    ensures Canonical(Not(One(a))) != Canonical(One(b)) && Canonical(Not(One(a))) != TRIVIAL
  {
  }

  /** The shape of a form: only atoms and the trivial form are negated, no list
      has a single entry, and no conjunction lists the trivial form. */
  predicate Normal(v: Canon) {
    match v
    case AtomText(atom) => !atom.Companion? && (atom.Budget? ==> atom.basis != PerPerson)
    case NotText(child) => child == TRIVIAL || (child.AtomText? && Normal(child))
    case AllText(values) => |values| != 1 && TRIVIAL !in values && forall w :: w in values ==> Normal(w)
    case AnyText(values) => |values| != 1 && forall w :: w in values ==> Normal(w)
  }

  lemma {:induction false} FormsAreNormal(c: Condition)
    ensures Normal(Canonical(c))
    decreases Weight(c)
  {
    match c
    case One(_) =>
    case Not(Not(inner)) => Lightens(c); FormsAreNormal(inner);
    case Not(All(children)) => Lightens(c); FormsAreNormal(AnyOf(Negated(children)));
    case Not(AnyOf(children)) => Lightens(c); FormsAreNormal(All(Negated(children)));
    case Not(One(_)) =>
    case All(children) => CombinationIsNormal(true, children);
    case AnyOf(children) => CombinationIsNormal(false, children);
  }

  lemma {:induction false} CombinationIsNormal(all: bool, children: seq<Condition>)
    ensures Normal(Canonical(Combination(all, children)))
    decreases WeightOf(children) + 1, 0
  {
    var operands := OperandsOf(all, children);
    forall o | o in operands ensures Normal(Canonical(o)) {
      FormsAreNormal(o);
    }
    var values := if all then CanonicalSet(operands) - {TRIVIAL} else CanonicalSet(operands);
    CanonicalCombination(all, children, values);
    CollapseIsNormal(all, values);
  }

  lemma CollapseIsNormal(all: bool, values: set<Canon>)
    requires forall v :: v in values ==> Normal(v)
    requires all ==> TRIVIAL !in values
    ensures Normal(Collapse(all, values))
  {
    if |values| == 1 {
      Unique(values);
      assert Collapse(all, values) in values;
    }
  }

  // ---- where it stops short ----

  /** Equal forms need not stay equal inside a larger condition: a disjunction of
      one conjunction has the form of the conjunction, but does not dissolve into
      a conjunction around it. */
  lemma EqualFormsMayDifferInside(a: Atom, b: Atom, d: Atom)
    requires !a.Companion? && !b.Companion? && !d.Companion?
    requires !SameAtom(a, b) && !SameAtom(a, d) && !SameAtom(b, d)
    ensures var both := All([One(a), One(b)]);
      && Canonical(AnyOf([both])) == Canonical(both)
      && Canonical(All([AnyOf([both]), One(d)])) != Canonical(All([both, One(d)]))
  {
    var both := All([One(a), One(b)]);
    SingleOperand(false, both);
    assert Combination(false, [both]) == AnyOf([both]);
    FlatForm(a, b, d);
    NestedForm(a, b, d);
  }

  lemma PairOfForms(all: bool, left: Condition, right: Condition)
    requires Operands(all, left) == [left] && Operands(all, right) == [right]
    requires Canonical(left) != Canonical(right) && Canonical(left) != TRIVIAL && Canonical(right) != TRIVIAL
    ensures Canonical(Combination(all, [left, right])) == Collapse(all, {Canonical(left), Canonical(right)})
    ensures |{Canonical(left), Canonical(right)}| == 2
  {
    var both := [left, right];
    OperandsOfOne(all, left);
    OperandsOfOne(all, right);
    assert both == [left] + [right];
    OperandsOfSplit(all, [left], [right]);
    assert CanonicalSet(both) == {Canonical(left), Canonical(right)};
    CanonicalCombination(all, both, {Canonical(left), Canonical(right)});
  }

  lemma NestedForm(a: Atom, b: Atom, d: Atom)
    requires !a.Companion? && !b.Companion? && !d.Companion? && !SameAtom(a, b)
    ensures var both := All([One(a), One(b)]);
      && Canonical(All([AnyOf([both]), One(d)])) == AllText({Canonical(both), Canonical(One(d))})
      && Canonical(both).AllText?
  {
    var both := All([One(a), One(b)]);
    PairOfForms(true, One(a), One(b));
    SingleOperand(false, both);
    assert Combination(false, [both]) == AnyOf([both]);
    PairOfForms(true, AnyOf([both]), One(d));
  }

  lemma FlatForm(a: Atom, b: Atom, d: Atom)
    requires !a.Companion? && !b.Companion? && !d.Companion? && !SameAtom(a, b)
    ensures var form := Canonical(All([All([One(a), One(b)]), One(d)]));
      form.AllText? && forall v :: v in form.children ==> v.AtomText?
  {
    Flattened(One(a), One(b), One(d));
    ThreeListed(a, b, d);
  }

  lemma ThreeListed(a: Atom, b: Atom, d: Atom)
    requires !a.Companion? && !b.Companion? && !d.Companion? && !SameAtom(a, b)
    ensures var form := Canonical(All([One(a), One(b), One(d)]));
      form.AllText? && forall v :: v in form.children ==> v.AtomText?
  {
    OperandsOfAtoms3(a, b, d);
    AtomForms(a, b);
    AtomsListed([One(a), One(b), One(d)]);
  }

  lemma Flattened(x: Condition, y: Condition, z: Condition)
    ensures Canonical(All([All([x, y]), z])) == Canonical(All([x, y, z]))
  {
    OperandsDissolve(true, [], All([x, y]), [x, y], [z]);
    assert [] + [All([x, y])] + [z] == [All([x, y]), z];
    assert [] + [x, y] + [z] == [x, y, z];
  }

  lemma AtomsListed(atoms: seq<Condition>)
    requires OperandsOf(true, atoms) == atoms && |atoms| > 1 && Canonical(atoms[0]) != Canonical(atoms[1])
    requires forall i :: 0 <= i < |atoms| ==> atoms[i].One? && !atoms[i].atom.Companion?
    ensures Canonical(All(atoms)).AllText? && forall v :: v in Canonical(All(atoms)).children ==> v.AtomText?
  {
    var values := CanonicalSet(atoms);
    assert forall v :: v in values ==> v.AtomText?;
    assert values - {TRIVIAL} == values;
    CanonicalCombination(true, atoms, values);
    NotSingle(values, Canonical(atoms[0]), Canonical(atoms[1]));
  }

  lemma NotSingle(values: set<Canon>, v: Canon, w: Canon)
    requires v in values && w in values && v != w
    ensures |values| != 1
  {
    if |values| == 1 { Unique(values); }
  }

  lemma OperandsOfAtoms3(a: Atom, b: Atom, d: Atom)
    ensures OperandsOf(true, [One(a), One(b), One(d)]) == [One(a), One(b), One(d)]
  {
    OperandsOfOne(true, One(a));
    OperandsOfOne(true, One(b));
    OperandsOfOne(true, One(d));
    OperandsBetween(true, [One(a)], [One(b)], [One(d)]);
    assert [One(a)] + [One(b)] + [One(d)] == [One(a), One(b), One(d)];
  }
}

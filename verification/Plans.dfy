/** Search plans: the party count of a plan, which plans are accepted, and why
    acceptance is what makes equal canonical forms decide events alike. */
module Plans {
  import opened Listings
  import opened Conditions

  datatype Plan = Plan(hard: Condition, preferences: seq<Condition>, nearest: bool)

  // ---- what a visit collects ----

  predicate IsGroupBudget(atom: Atom) {
    atom.Budget? && atom.basis == GroupTotal
  }

  /** The counts of every party atom, in order. */
  function PartyCounts(c: Condition): seq<int>
    decreases c
  {
    match c
    case One(atom) => if atom.Party? then [atom.count] else []
    case Not(child) => PartyCounts(child)
    case All(children) => PartyCountsOf(children)
    case AnyOf(children) => PartyCountsOf(children)
  }

  function PartyCountsOf(children: seq<Condition>): seq<int>
    decreases children
  {
    if children == [] then [] else PartyCountsOf(children[..|children| - 1]) + PartyCounts(children[|children| - 1])
  }

  /** The counts reached from the root through conjunctions only. */
  function JointCounts(c: Condition): seq<int>
    decreases c
  {
    match c
    case One(atom) => if atom.Party? then [atom.count] else []
    case All(children) => JointCountsOf(children)
    case _ => []
  }

  function JointCountsOf(children: seq<Condition>): seq<int>
    decreases children
  {
    if children == [] then [] else JointCountsOf(children[..|children| - 1]) + JointCounts(children[|children| - 1])
  }

  function GroupBudgets(c: Condition): nat
    decreases c
  {
    match c
    case One(atom) => if IsGroupBudget(atom) then 1 else 0
    case Not(child) => GroupBudgets(child)
    case All(children) => GroupBudgetsOf(children)
    case AnyOf(children) => GroupBudgetsOf(children)
  }

  function GroupBudgetsOf(children: seq<Condition>): nat
    decreases children
  {
    if children == [] then 0 else GroupBudgetsOf(children[..|children| - 1]) + GroupBudgets(children[|children| - 1])
  }

  function Values(counts: seq<int>): set<int> {
    set n | n in counts
  }

  /** A hard atom that can be checked, in a place where it may stand; `known`
      says which districts and sides of the city are recognised. */
  predicate Permitted(atom: Atom, unconditional: bool, known: Atom -> bool) {
    match atom
    case Mood(_) => false
    case Party(_) => unconditional
    case Companion(_) => unconditional
    case Budget(comparison, _, _) => comparison != Approx
    case Location(_, precision) => precision != Neighborhood && known(atom)
    case Experience(value) => value != "beginner_friendly"
    case _ => true
  }

  predicate Allowed(c: Condition, unconditional: bool, known: Atom -> bool)
    decreases c
  {
    match c
    case One(atom) => Permitted(atom, unconditional, known)
    case Not(child) => Allowed(child, false, known)
    case All(children) => forall x :: x in children ==> Allowed(x, unconditional, known)
    case AnyOf(children) => forall x :: x in children ==> Allowed(x, false, known)
  }

  predicate Accepted(plan: Plan, known: Atom -> bool) {
    && !plan.nearest
    && Allowed(plan.hard, true, known)
    && |Values(PartyCounts(plan.hard))| <= 1
    && (GroupBudgets(plan.hard) > 0 ==> |PartyCounts(plan.hard)| == 1)
  }

  function PartyCount(c: Condition): Option<int> {
    if |JointCounts(c)| == 1 then Some(JointCounts(c)[0]) else None
  }

  function PlanStatus(event: Event, plan: Plan): Status {
    if event.elsewhere then Contradicted else Evaluate(event, plan.hard, PartyCount(plan.hard), false)
  }

  // ---- the visits ----

  class PartyGathering {
    var partyCounts: seq<int>

    constructor ()
      ensures partyCounts == []
    {
      partyCounts := [];
    }

    method Gather(c: Condition, conjunctive: bool)
      modifies this
      ensures partyCounts == old(partyCounts) + if conjunctive then JointCounts(c) else []
      decreases c
    {
      match c
      case One(atom) =>
        if conjunctive && atom.Party? { partyCounts := partyCounts + [atom.count]; }
      case All(children) =>
        for i := 0 to |children|
          invariant partyCounts == old(partyCounts) + if conjunctive then JointCountsOf(children[..i]) else []
        {
          assert children[..i + 1][..i] == children[..i];
          Gather(children[i], conjunctive);
        }
        assert children[..|children|] == children;
      case _ =>
    }
  }

  method PlanPartyCount(plan: Plan) returns (count: Option<int>)
    ensures count == PartyCount(plan.hard)
  {
    var gathering := new PartyGathering();
    gathering.Gather(plan.hard, true);
    count := if |gathering.partyCounts| == 1 then Some(gathering.partyCounts[0]) else None;
  }

  class PlanCheck {
    var parties: nat
    var groupBudgets: nat
    var partyCounts: set<int>

    constructor ()
      ensures parties == 0 && groupBudgets == 0 && partyCounts == {}
    {
      parties, groupBudgets, partyCounts := 0, 0, {};
    }

    /** Tallies a condition, or stops at the first atom a plan may not require. */
    method Visit(c: Condition, hard: bool, unconditional: bool, known: Atom -> bool) returns (ok: bool)
      modifies this
      ensures ok <==> hard ==> Allowed(c, unconditional, known)
      ensures ok ==> parties == old(parties) + if hard then |PartyCounts(c)| else 0
      ensures ok ==> groupBudgets == old(groupBudgets) + if hard then GroupBudgets(c) else 0
      ensures ok ==> partyCounts == old(partyCounts) + if hard then Values(PartyCounts(c)) else {}
      decreases c
    {
      match c
      case One(atom) =>
        if hard && atom.Mood? { return false; }
        if hard && (atom.Party? || atom.Companion?) && !unconditional { return false; }
        if hard && atom.Party? {
          parties := parties + 1;
          partyCounts := partyCounts + {atom.count};
        }
        if hard && IsGroupBudget(atom) { groupBudgets := groupBudgets + 1; }
        if hard && atom.Budget? && atom.comparison == Approx { return false; }
        if hard && atom.Location? && atom.precision == Neighborhood { return false; }
        if hard && atom.Location? && !known(atom) { return false; }
        if hard && atom.Experience? && atom.value == "beginner_friendly" { return false; }
        return true;
      case Not(child) =>
        ok := Visit(child, hard, false, known);
      case All(children) =>
        ok := VisitEach(children, hard, unconditional, known);
      case AnyOf(children) =>
        ok := VisitEach(children, hard, false, known);
    }

    method VisitEach(children: seq<Condition>, hard: bool, unconditional: bool, known: Atom -> bool) returns (ok: bool)
      modifies this
      ensures ok <==> hard ==> forall x :: x in children ==> Allowed(x, unconditional, known)
      ensures ok ==> parties == old(parties) + if hard then |PartyCountsOf(children)| else 0
      ensures ok ==> groupBudgets == old(groupBudgets) + if hard then GroupBudgetsOf(children) else 0
      ensures ok ==> partyCounts == old(partyCounts) + if hard then Values(PartyCountsOf(children)) else {}
      decreases children, 0
    {
      for i := 0 to |children|
        invariant hard ==> forall x :: x in children[..i] ==> Allowed(x, unconditional, known)
        invariant parties == old(parties) + if hard then |PartyCountsOf(children[..i])| else 0
        invariant groupBudgets == old(groupBudgets) + if hard then GroupBudgetsOf(children[..i]) else 0
        invariant partyCounts == old(partyCounts) + if hard then Values(PartyCountsOf(children[..i])) else {}
      {
        assert children[..i + 1][..i] == children[..i];
        var fine := Visit(children[i], hard, unconditional, known);
        if !fine { return false; }
      }
      assert children[..|children|] == children;
      return true;
    }
  }

  method ValidateSearchPlan(plan: Plan, known: Atom -> bool) returns (ok: bool)
    ensures ok <==> Accepted(plan, known)
  {
    if plan.nearest { return false; }
    var check := new PlanCheck();
    var fine := check.Visit(plan.hard, true, true, known);
    if !fine { return false; }
    for i := 0 to |plan.preferences|
      invariant check.parties == |PartyCounts(plan.hard)|
      invariant check.groupBudgets == GroupBudgets(plan.hard)
      invariant check.partyCounts == Values(PartyCounts(plan.hard))
    {
      fine := check.Visit(plan.preferences[i], false, true, known);
    }
    if |check.partyCounts| > 1 { return false; }
    if check.groupBudgets > 0 && check.parties != 1 { return false; }
    return true;
  }

  // ---- acceptance makes the canonical form faithful ----

  /** In an accepted plan every party count is joint with the rest of the plan. */
  lemma {:induction false} AllowedCountsAreJoint(c: Condition, unconditional: bool, known: Atom -> bool)
    requires Allowed(c, unconditional, known)
    ensures PartyCounts(c) == if unconditional then JointCounts(c) else []
    decreases c
  {
    match c
    case One(_) =>
    case Not(child) => AllowedCountsAreJoint(child, false, known);
    case All(children) => AllowedCountsOfAreJoint(children, unconditional, known);
    case AnyOf(children) => AllowedCountsOfAreJoint(children, false, known);
  }

  lemma {:induction false} AllowedCountsOfAreJoint(children: seq<Condition>, unconditional: bool, known: Atom -> bool)
    requires forall x :: x in children ==> Allowed(x, unconditional, known)
    ensures PartyCountsOf(children) == if unconditional then JointCountsOf(children) else []
    decreases children, 0
  {
    if children != [] {
      AllowedCountsOfAreJoint(children[..|children| - 1], unconditional, known);
      AllowedCountsAreJoint(children[|children| - 1], unconditional, known);
    }
  }

  lemma {:induction false} TalliesComeFromAtoms(c: Condition)
    ensures forall n :: n in PartyCounts(c) <==> Party(n) in Atoms(c)
    ensures GroupBudgets(c) > 0 <==> exists a :: a in Atoms(c) && IsGroupBudget(a)
    decreases c
  {
    match c
    case One(_) =>
    case Not(child) => TalliesComeFromAtoms(child);
    case All(children) => TalliesOfComeFromAtoms(children);
    case AnyOf(children) => TalliesOfComeFromAtoms(children);
  }

  lemma {:induction false} TalliesOfComeFromAtoms(children: seq<Condition>)
    ensures forall n :: n in PartyCountsOf(children) <==> Party(n) in AtomsOf(children)
    ensures GroupBudgetsOf(children) > 0 <==> exists a :: a in AtomsOf(children) && IsGroupBudget(a)
    decreases children, 0
  {
    if children != [] {
      var front, last := children[..|children| - 1], children[|children| - 1];
      TalliesOfComeFromAtoms(front);
      TalliesComeFromAtoms(last);
      AtomsOfSplit(front, [last]);
      assert front + [last] == children;
      assert AtomsOf([last]) == Atoms(last) + AtomsOf([]);
    }
  }

  lemma {:induction false} PartyMattersOnlyToGroupBudgets(
      event: Event, c: Condition, p: Option<int>, q: Option<int>, negated: bool)
    requires forall a :: a in Atoms(c) ==> !IsGroupBudget(a)
    ensures Evaluate(event, c, p, negated) == Evaluate(event, c, q, negated)
    decreases c
  {
    match c
    case One(atom) => assert atom in Atoms(c);
    case Not(child) => PartyMattersOnlyToGroupBudgets(event, child, p, q, !negated);
    case All(children) =>
      forall x | x in children ensures Evaluate(event, x, p, negated) == Evaluate(event, x, q, negated) {
        AtomsOfMember(children, x);
        PartyMattersOnlyToGroupBudgets(event, x, p, q, negated);
      }
    case AnyOf(children) =>
      forall x | x in children ensures Evaluate(event, x, p, negated) == Evaluate(event, x, q, negated) {
        AtomsOfMember(children, x);
        PartyMattersOnlyToGroupBudgets(event, x, p, q, negated);
      }
  }

  lemma SharedAtoms(c: Condition, d: Condition, atom: Atom)
    requires Canonical(c) == Canonical(d)
    requires atom in Atoms(c) && (atom.Party? || IsGroupBudget(atom))
    ensures atom in Atoms(d)
  {
    CanonicalAtoms(c);
    CanonicalAtoms(d);
    assert CanonicalAtom(atom) in Surviving(Atoms(c));
  }

  /** An accepted plan with a group budget counts its one party atom. */
  lemma AcceptedPartyCount(plan: Plan, known: Atom -> bool)
    requires Accepted(plan, known) && GroupBudgets(plan.hard) > 0
    ensures PartyCount(plan.hard).Some?
    ensures forall n :: Party(n) in Atoms(plan.hard) <==> PartyCount(plan.hard) == Some(n)
  {
    AllowedCountsAreJoint(plan.hard, true, known);
    TalliesComeFromAtoms(plan.hard);
  }

  lemma EqualFormsCountPartiesAlike(p: Plan, q: Plan, known: Atom -> bool)
    requires Accepted(p, known) && Accepted(q, known) && Canonical(p.hard) == Canonical(q.hard)
    requires GroupBudgets(p.hard) > 0
    ensures PartyCount(p.hard) == PartyCount(q.hard)
  {
    TalliesComeFromAtoms(p.hard);
    TalliesComeFromAtoms(q.hard);
    var budget :| budget in Atoms(p.hard) && IsGroupBudget(budget);
    SharedAtoms(p.hard, q.hard, budget);
    AcceptedPartyCount(p, known);
    AcceptedPartyCount(q, known);
    SharedAtoms(p.hard, q.hard, Party(PartyCount(p.hard).value));
  }

  /** Two accepted plans with equal canonical forms give every event the same
      verdict, as long as neither asks for children to come along. */
  lemma EqualFormsSelectTheSameEvents(event: Event, p: Plan, q: Plan, known: Atom -> bool)
    requires Accepted(p, known) && Accepted(q, known)
    requires Canonical(p.hard) == Canonical(q.hard)
    requires forall a :: a in Atoms(p.hard) + Atoms(q.hard) ==> !BringsChild(a)
    ensures PlanStatus(event, p) == PlanStatus(event, q)
  {
    EqualFormsDecideAlike(event, p.hard, q.hard, PartyCount(p.hard), false);
    if GroupBudgets(p.hard) > 0 {
      EqualFormsCountPartiesAlike(p, q, known);
    } else {
      TalliesComeFromAtoms(p.hard);
      TalliesComeFromAtoms(q.hard);
      forall a | a in Atoms(q.hard) ensures !IsGroupBudget(a) {
        if IsGroupBudget(a) { SharedAtoms(q.hard, p.hard, a); }
      }
      PartyMattersOnlyToGroupBudgets(event, q.hard, PartyCount(p.hard), PartyCount(q.hard), false);
    }
  }

  /** Repeating an operand never changes a canonical form. */
  lemma RepeatedOperandSameForm(children: seq<Condition>)
    requires children != [] && forall x :: x in children ==> x.One?
    ensures Canonical(All([children[0]] + children)) == Canonical(All(children))
  {
    var repeated := [children[0]] + children;
    OperandsOfAtomsOnly(children);
    OperandsOfAtomsOnly(repeated);
    assert CanonicalSet(children) == CanonicalSet(repeated);
    CanonicalCombination(true, children, CanonicalSet(children) - {TRIVIAL});
    CanonicalCombination(true, repeated, CanonicalSet(repeated) - {TRIVIAL});
  }

  lemma CountsAreRead(budget: Condition)
    requires budget.One? && !budget.atom.Party?
    ensures PartyCount(All([One(Party(2)), budget])) == Some(2)
    ensures PartyCount(All([One(Party(2)), One(Party(2)), budget])) == None
  {
    var party := One(Party(2));
    var once, twice := [party, budget], [party, party, budget];
    assert twice[..2] == [party, party] && [party, party][..1] == [party] && once[..1] == [party];
    assert JointCountsOf([party]) == [2];
    assert JointCountsOf(once) == [2] && JointCountsOf([party, party]) == [2, 2];
    assert JointCountsOf(twice) == [2, 2];
  }

  /** Acceptance is needed: repeating the party count leaves the canonical form
      alone but loses the count, and with it the group budget. */
  lemma RepeatedPartyCountKeepsTheForm(budget: Atom)
    ensures Canonical(All([One(Party(2)), One(Party(2)), One(budget)])) == Canonical(All([One(Party(2)), One(budget)]))
  {
    var once := [One(Party(2)), One(budget)];
    assert [One(Party(2))] + once == [One(Party(2)), One(Party(2)), One(budget)];
    RepeatedOperandSameForm(once);
  }

  lemma RepeatedPartyCountChangesTheVerdict(event: Event, budget: Atom)
    requires event.price.Some? && !event.elsewhere
    requires IsGroupBudget(budget) && budget.comparison == Lte && event.price.value * 2.0 <= budget.amount
    ensures PlanStatus(event, Plan(All([One(Party(2)), One(budget)]), [], false)) == Supported
    ensures PlanStatus(event, Plan(All([One(Party(2)), One(Party(2)), One(budget)]), [], false)) == Unknown
  {
    CountsAreRead(One(budget));
    GroupBudgetNeedsTheCount(event, budget);
    CountDecides(event, [One(Party(2)), One(budget)], budget, Some(2));
    CountDecides(event, [One(Party(2)), One(Party(2)), One(budget)], budget, None);
  }

  /** With only the party size beside it, the group budget decides. */
  lemma CountDecides(event: Event, operands: seq<Condition>, budget: Atom, party: Option<int>)
    requires One(budget) in operands && forall x :: x in operands ==> x == One(Party(2)) || x == One(budget)
    requires AtomStatus(event, budget, party, false) != Contradicted
    requires PartyCount(All(operands)) == party && !event.elsewhere
    ensures PlanStatus(event, Plan(All(operands), [], false)) == AtomStatus(event, budget, party, false)
  {
    JoinedWithParty(event, operands, budget, party);
  }

  lemma GroupBudgetNeedsTheCount(event: Event, budget: Atom)
    requires event.price.Some?
    requires IsGroupBudget(budget) && budget.comparison == Lte && event.price.value * 2.0 <= budget.amount
    ensures AtomStatus(event, budget, Some(2), false) == Supported
    ensures AtomStatus(event, budget, None, false) == Unknown
  {
  }

  lemma JoinedWithParty(event: Event, operands: seq<Condition>, budget: Atom, party: Option<int>)
    requires One(budget) in operands && forall x :: x in operands ==> x == One(Party(2)) || x == One(budget)
    requires AtomStatus(event, budget, party, false) != Contradicted
    ensures Evaluate(event, All(operands), party, false) == AtomStatus(event, budget, party, false)
  {
    CombinationStatus(event, true, operands, party, false);
    assert Evaluate(event, One(Party(2)), party, false) == Supported;
    assert Evaluate(event, One(budget), party, false) == AtomStatus(event, budget, party, false);
  }

  lemma {:induction false} OperandsOfAtomsOnly(children: seq<Condition>)
    requires forall x :: x in children ==> x.One?
    ensures OperandsOf(true, children) == children
  {
    if children != [] {
      OperandsOfAtomsOnly(children[1..]);
      assert children[0].One?;
    }
  }
}

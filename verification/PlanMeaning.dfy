/** What a condition says of an event, read off the event: when it is borne out,
    when it is ruled out, and how negation treats a topic that is never named. */
module PlanMeaning {
  import opened Listings
  import opened Conditions
  import opened Plans

  // ---- one atom ----

  /** The price a budget is compared with: the listed price, times the size of the
      party when the amount is for the whole group. */
  ghost predicate Costs(event: Event, basis: Basis, party: Option<int>, total: real) {
    && event.price.Some?
    && match basis
       case GroupTotal => party.Some? && total == event.price.value * party.value as real
       case _ => total == event.price.value
  }

  ghost predicate BoughtFor(event: Event, budget: Atom, party: Option<int>)
    requires budget.Budget?
  {
    exists total :: Costs(event, budget.basis, party, total)
      && match budget.comparison
         case Lt => total < budget.amount
         case Lte => total <= budget.amount
         case Gt => budget.amount < total
         case Gte => budget.amount <= total
         case Approx => false
  }

  ghost predicate NotBoughtFor(event: Event, budget: Atom, party: Option<int>)
    requires budget.Budget?
  {
    exists total :: Costs(event, budget.basis, party, total)
      && match budget.comparison
         case Lt => budget.amount <= total
         case Lte => budget.amount < total
         case Gt => total <= budget.amount
         case Gte => total < budget.amount
         case Approx => false
  }

  /** A topic that the event neither names nor is known to have. */
  predicate Unnamed(event: Event, atom: Atom) {
    atom.Topic? && event.findings(atom).status == Unknown && !event.findings(atom).evident
  }

  /** The event bears the atom out. */
  ghost predicate BornOut(event: Event, atom: Atom, party: Option<int>) {
    match atom
    case Budget(_, _, _) => BoughtFor(event, atom, party)
    case Party(_) => true
    case Companion(kind) => kind == Partner || kind == Friends || event.withChild == Supported
    case Mood(_) => false
    case _ => event.findings(atom).status == Supported
  }

  /** The event rules the atom out; under an odd number of negations that is so
      too for a topic it does not name. */
  ghost predicate RuledOut(event: Event, atom: Atom, party: Option<int>, negated: bool) {
    match atom
    case Budget(_, _, _) => NotBoughtFor(event, atom, party)
    case Party(_) => false
    case Companion(kind) => (kind == Family || kind == Children) && event.withChild == Contradicted
    case Mood(_) => false
    case _ => event.findings(atom).status == Contradicted || (negated && Unnamed(event, atom))
  }

  lemma AtomMeaning(event: Event, atom: Atom, party: Option<int>, negated: bool)
    ensures Evaluate(event, One(atom), party, negated) == Supported <==> BornOut(event, atom, party)
    ensures Evaluate(event, One(atom), party, negated) == Contradicted <==> RuledOut(event, atom, party, negated)
  {
    if atom.Budget? && event.price.Some? && (atom.basis == GroupTotal ==> party.Some?) {
      BudgetMeaning(event, atom, party,
        if atom.basis == GroupTotal then event.price.value * party.value as real else event.price.value);
    }
  }

  lemma BudgetMeaning(event: Event, budget: Atom, party: Option<int>, total: real)
    requires budget.Budget? && Costs(event, budget.basis, party, total)
    ensures AtomFinding(event, budget, party).status == Supported <==> BoughtFor(event, budget, party)
    ensures AtomFinding(event, budget, party).status == Contradicted <==> NotBoughtFor(event, budget, party)
  {
  }

  // ---- a whole condition ----

  /** The event bears the condition out, below so many negations. */
  ghost predicate Holds(event: Event, c: Condition, party: Option<int>, negated: bool) {
    match c
    case One(atom) => BornOut(event, atom, party)
    case Not(child) => Fails(event, child, party, !negated)
    case All(children) => forall x :: x in children ==> Holds(event, x, party, negated)
    case AnyOf(children) => exists x :: x in children && Holds(event, x, party, negated)
  }

  /** The event rules the condition out, below so many negations. */
  ghost predicate Fails(event: Event, c: Condition, party: Option<int>, negated: bool) {
    match c
    case One(atom) => RuledOut(event, atom, party, negated)
    case Not(child) => Holds(event, child, party, !negated)
    case All(children) => exists x :: x in children && Fails(event, x, party, negated)
    case AnyOf(children) => forall x :: x in children ==> Fails(event, x, party, negated)
  }

  /** A condition is supported exactly when the event bears it out, contradicted
      exactly when the event rules it out, and unknown in every other case. */
  lemma {:induction false} ConditionMeaning(event: Event, c: Condition, party: Option<int>, negated: bool)
    ensures Evaluate(event, c, party, negated) == Supported <==> Holds(event, c, party, negated)
    ensures Evaluate(event, c, party, negated) == Contradicted <==> Fails(event, c, party, negated)
    decreases c
  {
    match c
    case One(atom) => AtomMeaning(event, atom, party, negated);
    case Not(child) => ConditionMeaning(event, child, party, !negated);
    case All(children) =>
      forall x | x in children
        ensures Evaluate(event, x, party, negated) == Supported <==> Holds(event, x, party, negated)
        ensures Evaluate(event, x, party, negated) == Contradicted <==> Fails(event, x, party, negated)
      {
        ConditionMeaning(event, x, party, negated);
      }
    case AnyOf(children) =>
      forall x | x in children
        ensures Evaluate(event, x, party, negated) == Supported <==> Holds(event, x, party, negated)
        ensures Evaluate(event, x, party, negated) == Contradicted <==> Fails(event, x, party, negated)
      {
        ConditionMeaning(event, x, party, negated);
      }
  }

  // ---- the party count of a plan ----

  /** Following the path through conjunctions leads to the count of a party. */
  predicate CountAt(c: Condition, path: seq<nat>, n: int)
    decreases path
  {
    if path == [] then c == One(Party(n))
    else c.All? && path[0] < |c.children| && CountAt(c.children[path[0]], path[1..], n)
  }

  /** Exactly one party count is joint with the rest of the condition, and it is n. */
  ghost predicate OnlyCount(c: Condition, n: int) {
    exists path :: CountAt(c, path, n) && forall other, m :: CountAt(c, other, m) ==> other == path
  }

  /** The paths to the joint counts, in order. */
  function Paths(c: Condition): seq<seq<nat>>
    decreases c, 1
  {
    match c
    case One(atom) => if atom.Party? then [[]] else []
    case All(children) => PathsOf(c, children, |children|)
    case _ => []
  }

  function PathsOf(c: Condition, children: seq<Condition>, k: nat): seq<seq<nat>>
    requires c == All(children) && k <= |children|
    decreases c, 0, k
  {
    if k == 0 then [] else PathsOf(c, children, k - 1) + Below(k - 1, Paths(children[k - 1]))
  }

  function Below(step: nat, paths: seq<seq<nat>>): (longer: seq<seq<nat>>)
    ensures |longer| == |paths| && forall i :: 0 <= i < |paths| ==> longer[i] == [step] + paths[i]
  {
    seq(|paths|, i requires 0 <= i < |paths| => [step] + paths[i])
  }

  /** paths are exactly the ones that lead to a count, each once, and counts are
      what they lead to. */
  ghost predicate Leads(c: Condition, paths: seq<seq<nat>>, counts: seq<int>) {
    && |paths| == |counts|
    && (forall i :: 0 <= i < |paths| ==> CountAt(c, paths[i], counts[i]))
    && (forall i, j :: 0 <= i < j < |paths| ==> paths[i] != paths[j])
    && (forall path, n :: CountAt(c, path, n) ==> path in paths)
  }

  /** The same for the paths through the first k operands. */
  ghost predicate LeadsBelow(c: Condition, k: nat, paths: seq<seq<nat>>, counts: seq<int>) {
    && |paths| == |counts|
    && (forall i :: 0 <= i < |paths| ==> paths[i] != [] && paths[i][0] < k && CountAt(c, paths[i], counts[i]))
    && (forall i, j :: 0 <= i < j < |paths| ==> paths[i] != paths[j])
    && (forall path, n :: CountAt(c, path, n) && path != [] && path[0] < k ==> path in paths)
  }

  lemma {:induction false} PathsLead(c: Condition)
    ensures Leads(c, Paths(c), JointCounts(c))
    decreases c, 1
  {
    if c.All? {
      PathsOfLead(c, c.children, |c.children|);
      assert c.children[..|c.children|] == c.children;
    }
  }

  lemma {:induction false} PathsOfLead(c: Condition, children: seq<Condition>, k: nat)
    requires c == All(children) && k <= |children|
    ensures LeadsBelow(c, k, PathsOf(c, children, k), JointCountsOf(children[..k]))
    decreases c, 0, k
  {
    if k > 0 {
      PathsOfLead(c, children, k - 1);
      PathsLead(children[k - 1]);
      assert children[..k][..k - 1] == children[..k - 1];
      OneMoreOperand(c, children, k, PathsOf(c, children, k - 1), JointCountsOf(children[..k - 1]),
                     Paths(children[k - 1]), JointCounts(children[k - 1]));
    }
  }

  lemma OneMoreOperand(
      c: Condition, children: seq<Condition>, k: nat, before: seq<seq<nat>>, counts: seq<int>, paths: seq<seq<nat>>,
      more: seq<int>)
    requires c == All(children) && 0 < k <= |children|
    requires LeadsBelow(c, k - 1, before, counts) && Leads(children[k - 1], paths, more)
    ensures LeadsBelow(c, k, before + Below(k - 1, paths), counts + more)
  {
    var below := Below(k - 1, paths);
    forall i | 0 <= i < |below| ensures below[i] != [] && below[i][0] == k - 1 && CountAt(c, below[i], more[i]) {
      assert below[i][1..] == paths[i];
    }
    forall i, j | 0 <= i < j < |below| ensures below[i] != below[j] {
      assert below[i][1..] == paths[i] && below[j][1..] == paths[j];
    }
    forall path, n | CountAt(c, path, n) && path != [] && path[0] == k - 1 ensures path in below {
      assert CountAt(children[k - 1], path[1..], n);
      var i :| 0 <= i < |paths| && paths[i] == path[1..];
      assert below[i] == path;
    }
  }

  /** The count of a plan is the single count joint with the rest of it. */
  lemma PartyCountMeaning(c: Condition, n: int)
    ensures PartyCount(c) == Some(n) <==> OnlyCount(c, n)
  {
    var paths, counts := Paths(c), JointCounts(c);
    PathsLead(c);
    if PartyCount(c) == Some(n) {
      assert CountAt(c, paths[0], n);
    }
    if OnlyCount(c, n) {
      var path :| CountAt(c, path, n) && forall other, m :: CountAt(c, other, m) ==> other == path;
      var i :| 0 <= i < |paths| && paths[i] == path;
      assert forall j :: 0 <= j < |paths| ==> CountAt(c, paths[j], counts[j]) && paths[j] == path;
      var last := |paths| - 1;
      assert paths[last] == path && paths[0] == path;
      CountIsOne(c, path, n, counts[0]);
    }
  }

  lemma {:induction false} CountIsOne(c: Condition, path: seq<nat>, n: int, m: int)
    requires CountAt(c, path, n) && CountAt(c, path, m)
    ensures n == m
    decreases path
  {
    if path != [] { CountIsOne(c.children[path[0]], path[1..], n, m); }
  }

  // ---- acceptance ----

  /** Following the path leads to the atom. */
  predicate AtomAt(c: Condition, path: seq<nat>, atom: Atom)
    decreases path
  {
    if path == [] then c == One(atom)
    else
      match c
      case One(_) => false
      case Not(child) => path[0] == 0 && AtomAt(child, path[1..], atom)
      case All(children) => path[0] < |children| && AtomAt(children[path[0]], path[1..], atom)
      case AnyOf(children) => path[0] < |children| && AtomAt(children[path[0]], path[1..], atom)
  }

  /** The path goes through conjunctions only. */
  predicate Joint(c: Condition, path: seq<nat>)
    decreases path
  {
    path == [] || (c.All? && path[0] < |c.children| && Joint(c.children[path[0]], path[1..]))
  }

  /** An atom that a plan may require at a place; joint places hold for every event. */
  predicate Checkable(atom: Atom, joint: bool, known: Atom -> bool) {
    && !atom.Mood? && atom != Experience("beginner_friendly")
    && (atom.Party? || atom.Companion? ==> joint)
    && (atom.Budget? ==> atom.comparison == Lt || atom.comparison == Lte || atom.comparison == Gt
                         || atom.comparison == Gte)
    && (atom.Location? ==> known(atom) && (atom.precision == District || atom.precision == Side))
  }

  ghost predicate AllCheckable(c: Condition, unconditional: bool, known: Atom -> bool) {
    forall path, atom :: AtomAt(c, path, atom) ==> Checkable(atom, unconditional && Joint(c, path), known)
  }

  lemma StepDown(c: Condition, i: nat, path: seq<nat>, atom: Atom)
    ensures ([i] + path)[1..] == path
    ensures (c.All? || c.AnyOf?) && i < |c.children| ==>
      (AtomAt(c, [i] + path, atom) <==> AtomAt(c.children[i], path, atom))
    ensures c.All? && i < |c.children| ==> (Joint(c, [i] + path) <==> Joint(c.children[i], path))
    ensures c.Not? && i == 0 ==> (AtomAt(c, [i] + path, atom) <==> AtomAt(c.child, path, atom))
  {
    assert ([i] + path)[1..] == path;
  }

  lemma OperandCheckable(c: Condition, i: nat, unconditional: bool, known: Atom -> bool)
    requires (c.All? || c.AnyOf?) && i < |c.children| && AllCheckable(c, unconditional, known)
    ensures AllCheckable(c.children[i], unconditional && c.All?, known)
  {
    forall path, atom | AtomAt(c.children[i], path, atom)
      ensures Checkable(atom, unconditional && c.All? && Joint(c.children[i], path), known)
    {
      StepDown(c, i, path, atom);
      assert AtomAt(c, [i] + path, atom);
    }
  }

  lemma OperandsCheckable(c: Condition, unconditional: bool, known: Atom -> bool)
    requires c.All? || c.AnyOf?
    requires forall i: nat :: i < |c.children| ==> AllCheckable(c.children[i], unconditional && c.All?, known)
    ensures AllCheckable(c, unconditional, known)
  {
    forall path, atom | AtomAt(c, path, atom)
      ensures Checkable(atom, unconditional && Joint(c, path), known)
    {
      var i, rest := path[0], path[1..];
      assert AtomAt(c.children[i], rest, atom) && AllCheckable(c.children[i], unconditional && c.All?, known);
      assert Checkable(atom, unconditional && c.All? && Joint(c.children[i], rest), known);
    }
  }

  lemma NegationCheckable(c: Condition, unconditional: bool, known: Atom -> bool)
    requires c.Not?
    ensures AllCheckable(c, unconditional, known) <==> AllCheckable(c.child, false, known)
  {
    if AllCheckable(c, unconditional, known) {
      forall path, atom | AtomAt(c.child, path, atom) ensures Checkable(atom, false, known) {
        StepDown(c, 0, path, atom);
        assert AtomAt(c, [0] + path, atom);
      }
    }
    if AllCheckable(c.child, false, known) {
      forall path, atom | AtomAt(c, path, atom) ensures Checkable(atom, unconditional && Joint(c, path), known) {
        assert AtomAt(c.child, path[1..], atom);
      }
    }
  }

  lemma {:induction false} AllowedByPositions(c: Condition, unconditional: bool, known: Atom -> bool)
    ensures Allowed(c, unconditional, known) <==> AllCheckable(c, unconditional, known)
    decreases c
  {
    match c
    case One(atom) =>
      assert AtomAt(c, [], atom);
    case Not(child) =>
      AllowedByPositions(child, false, known);
      NegationCheckable(c, unconditional, known);
    case All(children) =>
      CombinationAllowed(c, unconditional, known);
    case AnyOf(children) =>
      CombinationAllowed(c, unconditional, known);
  }

  lemma {:induction false} CombinationAllowed(c: Condition, unconditional: bool, known: Atom -> bool)
    requires c.All? || c.AnyOf?
    ensures Allowed(c, unconditional, known) <==> AllCheckable(c, unconditional, known)
    decreases c, 0
  {
    var below := unconditional && c.All?;
    forall i: nat | i < |c.children|
      ensures Allowed(c.children[i], below, known) <==> AllCheckable(c.children[i], below, known)
    {
      AllowedByPositions(c.children[i], below, known);
    }
    assert Allowed(c, unconditional, known) <==> forall x :: x in c.children ==> Allowed(x, below, known);
    if AllCheckable(c, unconditional, known) {
      forall x | x in c.children ensures Allowed(x, below, known) {
        var i: nat :| i < |c.children| && c.children[i] == x;
        OperandCheckable(c, i, unconditional, known);
      }
    }
    if Allowed(c, unconditional, known) {
      forall i: nat | i < |c.children| ensures AllCheckable(c.children[i], below, known) {
        assert c.children[i] in c.children;
      }
      OperandsCheckable(c, unconditional, known);
    }
  }

  lemma {:induction false} CountIsAtom(c: Condition, path: seq<nat>, n: int)
    ensures CountAt(c, path, n) <==> AtomAt(c, path, Party(n)) && Joint(c, path)
    decreases path
  {
    if path != [] && c.All? && path[0] < |c.children| {
      CountIsAtom(c.children[path[0]], path[1..], n);
    }
  }

  /** One place alone holds a party. */
  ghost predicate OneParty(c: Condition) {
    exists path, n :: AtomAt(c, path, Party(n)) && forall other, m :: AtomAt(c, other, Party(m)) ==> other == path
  }

  lemma OnePartyCounted(c: Condition, known: Atom -> bool)
    requires Allowed(c, true, known)
    ensures |PartyCounts(c)| == 1 <==> OneParty(c)
  {
    AllowedCountsAreJoint(c, true, known);
    AllowedByPositions(c, true, known);
    forall path, n ensures CountAt(c, path, n) <==> AtomAt(c, path, Party(n)) {
      CountIsAtom(c, path, n);
    }
    if |PartyCounts(c)| == 1 {
      PartyCountMeaning(c, PartyCounts(c)[0]);
      var path :| CountAt(c, path, PartyCounts(c)[0])
        && forall other, m :: CountAt(c, other, m) ==> other == path;
      assert AtomAt(c, path, Party(PartyCounts(c)[0]));
    }
    if OneParty(c) {
      var path, n :| AtomAt(c, path, Party(n)) && forall other, m :: AtomAt(c, other, Party(m)) ==> other == path;
      assert CountAt(c, path, n);
      PartyCountMeaning(c, n);
    }
  }

  lemma {:induction false} AtomsByPositions(c: Condition, atom: Atom)
    ensures atom in Atoms(c) <==> exists path :: AtomAt(c, path, atom)
    decreases c
  {
    match c
    case One(own) =>
      assert Atoms(c) == {own} && AtomAt(c, [], own);
      assert exists place :: AtomAt(c, place, own);
      forall path | AtomAt(c, path, atom) ensures atom == own {
        assert path == [];
      }
    case Not(child) =>
      AtomsByPositions(child, atom);
      if path :| AtomAt(child, path, atom) {
        StepDown(c, 0, path, atom);
        assert AtomAt(c, [0] + path, atom);
      }
      forall path | AtomAt(c, path, atom) ensures AtomAt(child, path[1..], atom) {
      }
    case All(children) => OperandAtoms(c, atom);
    case AnyOf(children) => OperandAtoms(c, atom);
  }

  lemma {:induction false} OperandAtoms(c: Condition, atom: Atom)
    requires c.All? || c.AnyOf?
    ensures atom in Atoms(c) <==> exists path :: AtomAt(c, path, atom)
    decreases c, 0
  {
    AtomOfSome(c.children, atom);
    assert Atoms(c) == AtomsOf(c.children);
    if x :| x in c.children && atom in Atoms(x) {
      var i: nat :| i < |c.children| && c.children[i] == x;
      AtomsByPositions(c.children[i], atom);
      var path :| AtomAt(c.children[i], path, atom);
      StepDown(c, i, path, atom);
      assert AtomAt(c, [i] + path, atom);
    }
    forall path | AtomAt(c, path, atom) ensures atom in AtomsOf(c.children) {
      assert AtomAt(c.children[path[0]], path[1..], atom) && c.children[path[0]] in c.children;
      AtomsByPositions(c.children[path[0]], atom);
      assert exists rest :: AtomAt(c.children[path[0]], rest, atom);
    }
  }

  lemma {:induction false} AtomOfSome(children: seq<Condition>, atom: Atom)
    ensures atom in AtomsOf(children) <==> exists x :: x in children && atom in Atoms(x)
  {
    if children != [] {
      AtomOfSome(children[1..], atom);
      if x :| x in children && atom in Atoms(x) {
        assert x == children[0] || x in children[1..];
      }
      if x :| x in children[1..] && atom in Atoms(x) {
        assert x in children;
      }
      assert children[0] in children;
    }
  }

  ghost predicate PartiesAgree(c: Condition) {
    forall path, other, n, m :: AtomAt(c, path, Party(n)) && AtomAt(c, other, Party(m)) ==> n == m
  }

  ghost predicate HasGroupBudget(c: Condition) {
    exists path, atom :: AtomAt(c, path, atom) && atom.Budget? && atom.basis == GroupTotal
  }

  /** What the source asks of a plan: every required atom can be checked where it
      stands, all party counts agree, and a group budget comes with one party count. */
  ghost predicate Searchable(plan: Plan, known: Atom -> bool) {
    && !plan.nearest && AllCheckable(plan.hard, true, known) && PartiesAgree(plan.hard)
    && (HasGroupBudget(plan.hard) ==> OneParty(plan.hard))
  }

  lemma CountsAgree(c: Condition)
    ensures |Values(PartyCounts(c))| <= 1 <==> PartiesAgree(c)
  {
    var values := Values(PartyCounts(c));
    TalliesComeFromAtoms(c);
    forall n ensures n in values <==> exists path :: AtomAt(c, path, Party(n)) {
      AtomsByPositions(c, Party(n));
    }
    AtMostOne(values);
    if |values| <= 1 {
      forall path, other, n, m | AtomAt(c, path, Party(n)) && AtomAt(c, other, Party(m)) ensures n == m {
        assert n in values && m in values;
      }
    }
    if PartiesAgree(c) {
      forall n, m | n in values && m in values ensures n == m {
        var path :| AtomAt(c, path, Party(n));
        var other :| AtomAt(c, other, Party(m));
      }
    }
  }

  lemma AtMostOne<T>(values: set<T>)
    ensures |values| <= 1 <==> forall n, m :: n in values && m in values ==> n == m
  {
    if |values| > 1 {
      var n :| n in values;
      assert |values - {n}| > 0;
      var m :| m in values - {n};
    }
    forall n, m | n in values && m in values && n != m ensures |values| > 1 {
      assert {n, m} <= values;
      assert |values - {n, m}| == |values| - |{n, m}|;
    }
  }

  lemma GroupBudgetsByPositions(c: Condition)
    ensures GroupBudgets(c) > 0 <==> HasGroupBudget(c)
  {
    TalliesComeFromAtoms(c);
    if a :| a in Atoms(c) && IsGroupBudget(a) {
      AtomsByPositions(c, a);
    }
    forall path, atom | AtomAt(c, path, atom) && atom.Budget? && atom.basis == GroupTotal
      ensures atom in Atoms(c) && IsGroupBudget(atom)
    {
      AtomsByPositions(c, atom);
      assert exists place :: AtomAt(c, place, atom);
    }
  }

  /** A plan is accepted exactly when it is searchable in this sense. */
  lemma AcceptedByPositions(plan: Plan, known: Atom -> bool)
    ensures Accepted(plan, known) <==> Searchable(plan, known)
  {
    AllowedByPositions(plan.hard, true, known);
    CountsAgree(plan.hard);
    GroupBudgetsByPositions(plan.hard);
    if Allowed(plan.hard, true, known) { OnePartyCounted(plan.hard, known); }
  }

  // ---- a plan ----

  /** An event supports a plan exactly when it is in the city and bears the plan
      out for its party, and contradicts it exactly when it is elsewhere or rules
      the plan out. */
  lemma PlanVerdict(event: Event, plan: Plan)
    ensures PlanStatus(event, plan) == Supported <==>
      !event.elsewhere && Holds(event, plan.hard, PartyCount(plan.hard), false)
    ensures PlanStatus(event, plan) == Contradicted <==>
      event.elsewhere || Fails(event, plan.hard, PartyCount(plan.hard), false)
  {
    ConditionMeaning(event, plan.hard, PartyCount(plan.hard), false);
  }

  /** Not naming a topic says nothing for the topic, and speaks for its absence:
      the polarity is counted through every negation above it. */
  lemma UnnamedTopics(event: Event, topic: Atom, party: Option<int>)
    requires Unnamed(event, topic)
    ensures Evaluate(event, One(topic), party, false) == Unknown
    ensures Evaluate(event, Not(One(topic)), party, false) == Supported
    ensures Evaluate(event, Not(Not(One(topic))), party, false) == Unknown
  {
    AtomMeaning(event, topic, party, false);
    AtomMeaning(event, topic, party, true);
    ConditionMeaning(event, Not(One(topic)), party, false);
    ConditionMeaning(event, Not(Not(One(topic))), party, false);
  }

  lemma UnnamedTopicsInPlans(event: Event, topic: Atom, preferences: seq<Condition>, nearest: bool)
    requires Unnamed(event, topic) && !event.elsewhere
    ensures PlanStatus(event, Plan(One(topic), preferences, nearest)) == Unknown
    ensures PlanStatus(event, Plan(Not(One(topic)), preferences, nearest)) == Supported
    ensures PlanStatus(event, Plan(Not(Not(One(topic))), preferences, nearest)) == Unknown
  {
    UnnamedTopics(event, topic, None);
  }

  /** Every other atom means the same below any number of negations. */
  lemma PolarityOnlyMattersToUnnamedTopics(event: Event, atom: Atom, party: Option<int>)
    requires !Unnamed(event, atom)
    ensures Evaluate(event, One(atom), party, true) == Evaluate(event, One(atom), party, false)
    ensures Evaluate(event, Not(One(atom)), party, false) == Supported <==>
      Evaluate(event, One(atom), party, false) == Contradicted
    ensures Evaluate(event, Not(One(atom)), party, false) == Contradicted <==>
      Evaluate(event, One(atom), party, false) == Supported
  {
    AtomMeaning(event, atom, party, false);
    AtomMeaning(event, atom, party, true);
    ConditionMeaning(event, Not(One(atom)), party, false);
  }
}

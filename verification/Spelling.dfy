/** The bounded edit distance behind spelling suggestions: a rolling-row dynamic
    program with two early exits, proved to find the cheapest edit script
    whenever one is within the limit. */
module Spelling {
  function Min(a: nat, b: nat): nat { if a <= b then a else b }

  // ---- what the distance means ----

  /** One step of an edit script: letters are kept, replaced, added or dropped
      one at a time, or two neighbours trade places. */
  datatype Edit = Keep | Replace | Add | Drop | Swap

  function Cost(script: seq<Edit>): nat {
    if script == [] then 0
    else Cost(script[..|script| - 1]) + if script[|script| - 1] == Keep then 0 else 1
  }

  /** The script turns the first i letters of left into the first j of right. */
  predicate Turns(script: seq<Edit>, left: string, right: string, i: nat, j: nat)
    requires i <= |left| && j <= |right|
    decreases |script|
  {
    if script == [] then i == 0 && j == 0
    else
      var earlier := script[..|script| - 1];
      match script[|script| - 1]
      case Keep => i > 0 && j > 0 && left[i - 1] == right[j - 1] && Turns(earlier, left, right, i - 1, j - 1)
      case Replace => i > 0 && j > 0 && Turns(earlier, left, right, i - 1, j - 1)
      case Add => j > 0 && Turns(earlier, left, right, i, j - 1)
      case Drop => i > 0 && Turns(earlier, left, right, i - 1, j)
      case Swap => Crossed(left, right, i, j) && Turns(earlier, left, right, i - 2, j - 2)
  }

  predicate Crossed(left: string, right: string, i: nat, j: nat)
    requires i <= |left| && j <= |right|
  {
    i > 1 && j > 1 && left[i - 1] == right[j - 2] && left[i - 2] == right[j - 1]
  }

  // ---- the recurrence ----

  function Distance(left: string, right: string, i: nat, j: nat): nat
    requires i <= |left| && j <= |right|
    decreases i + j
  {
    if i == 0 then j
    else if j == 0 then i
    else
      var value := Min(Min(Distance(left, right, i - 1, j) + 1, Distance(left, right, i, j - 1) + 1),
                       Distance(left, right, i - 1, j - 1) + if left[i - 1] == right[j - 1] then 0 else 1);
      if Crossed(left, right, i, j) then Min(value, Distance(left, right, i - 2, j - 2) + 1) else value
  }

  /** A table of distances, by the lengths of the prefixes. */
  type Table = (int, int) -> nat

  ghost predicate IsTable(table: Table, left: string, right: string) {
    forall i: nat, j: nat {:trigger Distance(left, right, i, j)} ::
      i <= |left| && j <= |right| ==> table(i, j) == Distance(left, right, i, j)
  }

  lemma SomeTable(left: string, right: string) returns (table: Table)
    ensures IsTable(table, left, right)
  {
    table := (i: int, j: int) => if 0 <= i <= |left| && 0 <= j <= |right| then Distance(left, right, i, j) else 0;
  }

  /** Where a script stood before its last step. */
  function Before(last: Edit, i: nat, j: nat): (int, int) {
    match last
    case Keep => (i - 1, j - 1)
    case Replace => (i - 1, j - 1)
    case Add => (i, j - 1)
    case Drop => (i - 1, j)
    case Swap => (i - 2, j - 2)
  }

  /** The step may end a script for these letters. */
  predicate May(last: Edit, left: string, right: string, i: nat, j: nat)
    requires i <= |left| && j <= |right|
  {
    && Before(last, i, j).0 >= 0 && Before(last, i, j).1 >= 0
    && (last == Keep ==> left[i - 1] == right[j - 1]) && (last == Swap ==> Crossed(left, right, i, j))
  }

  function Price(last: Edit): nat { if last == Keep then 0 else 1 }

  lemma LastTurn(script: seq<Edit>, left: string, right: string, i: nat, j: nat)
    requires i <= |left| && j <= |right| && script != []
    ensures var last, earlier := script[|script| - 1], script[..|script| - 1];
      && Cost(script) == Cost(earlier) + Price(last)
      && (Turns(script, left, right, i, j) <==>
            May(last, left, right, i, j) && Turns(earlier, left, right, Before(last, i, j).0, Before(last, i, j).1))
  {
  }

  /** No last step undercuts the entry of a table. */
  ghost predicate Bounded(table: Table, left: string, right: string, i: nat, j: nat, last: Edit)
    requires i <= |left| && j <= |right|
  {
    May(last, left, right, i, j) ==> table(i, j) <= table(Before(last, i, j).0, Before(last, i, j).1) + Price(last)
  }

  lemma DistanceIsBounded(table: Table, left: string, right: string, i: nat, j: nat, last: Edit)
    requires i <= |left| && j <= |right| && IsTable(table, left, right)
    ensures Bounded(table, left, right, i, j, last)
  {
    if May(last, left, right, i, j) {
      var di, dj := Before(last, i, j).0, Before(last, i, j).1;
      assert table(i, j) == Distance(left, right, i, j) && table(di, dj) == Distance(left, right, di, dj);
    }
  }

  /** No script is cheaper than the recurrence says. */
  lemma {:induction false} NoScriptIsCheaper(script: seq<Edit>, left: string, right: string, i: nat, j: nat)
    requires i <= |left| && j <= |right|
    requires Turns(script, left, right, i, j)
    ensures Distance(left, right, i, j) <= Cost(script)
  {
    var table := SomeTable(left, right);
    CostsAtLeast(table, script, left, right, i, j);
  }

  lemma {:induction false} CostsAtLeast(table: Table, script: seq<Edit>, left: string, right: string, i: nat, j: nat)
    requires i <= |left| && j <= |right| && IsTable(table, left, right)
    requires Turns(script, left, right, i, j)
    ensures table(i, j) <= Cost(script)
    decreases |script|
  {
    if script == [] {
      assert table(0, 0) == Distance(left, right, 0, 0);
    } else {
      var last, earlier := script[|script| - 1], script[..|script| - 1];
      LastTurn(script, left, right, i, j);
      CostsAtLeast(table, earlier, left, right, Before(last, i, j).0, Before(last, i, j).1);
      DistanceIsBounded(table, left, right, i, j, last);
    }
  }

  /** An entry is one of the values its neighbours offer. */
  predicate Alternatives(table: Table, left: string, right: string, i: nat, j: nat)
    requires i <= |left| && j <= |right|
  {
    if i == 0 || j == 0 then table(i, j) == i + j
    else
      || table(i, j) == table(i - 1, j) + 1 || table(i, j) == table(i, j - 1) + 1
      || table(i, j) == table(i - 1, j - 1) + (if left[i - 1] == right[j - 1] then 0 else 1)
      || (Crossed(left, right, i, j) && table(i, j) == table(i - 2, j - 2) + 1)
  }

  /** The recurrence takes one of its alternatives. */
  lemma DistanceHasAlternatives(table: Table, left: string, right: string, i: nat, j: nat)
    requires i <= |left| && j <= |right| && IsTable(table, left, right)
    ensures Alternatives(table, left, right, i, j)
  {
    assert table(i, j) == Distance(left, right, i, j);
    if i > 0 && j > 0 {
      assert table(i - 1, j) == Distance(left, right, i - 1, j) && table(i, j - 1) == Distance(left, right, i, j - 1);
      assert table(i - 1, j - 1) == Distance(left, right, i - 1, j - 1);
      if i > 1 && j > 1 { assert table(i - 2, j - 2) == Distance(left, right, i - 2, j - 2); }
    }
  }

  /** Some last step attains the entry of a table. */
  ghost predicate Attains(table: Table, left: string, right: string, i: nat, j: nat, last: Edit)
    requires i <= |left| && j <= |right|
  {
    May(last, left, right, i, j) && table(i, j) == table(Before(last, i, j).0, Before(last, i, j).1) + Price(last)
  }

  lemma SomeAttains(table: Table, left: string, right: string, i: nat, j: nat) returns (last: Edit)
    requires i <= |left| && j <= |right| && i + j > 0 && Alternatives(table, left, right, i, j)
    requires i > 0 && j == 0 ==> Alternatives(table, left, right, i - 1, j)
    requires j > 0 && i == 0 ==> Alternatives(table, left, right, i, j - 1)
    ensures Attains(table, left, right, i, j, last)
  {
    if i == 0 { return Add; }
    if j == 0 { return Drop; }
    if table(i, j) == table(i - 1, j) + 1 { return Drop; }
    if table(i, j) == table(i, j - 1) + 1 { return Add; }
    if Crossed(left, right, i, j) && table(i, j) == table(i - 2, j - 2) + 1 { return Swap; }
    last := if left[i - 1] == right[j - 1] then Keep else Replace;
  }

  lemma CheapestLast(table: Table, left: string, right: string, i: nat, j: nat) returns (last: Edit)
    requires i <= |left| && j <= |right| && i + j > 0 && IsTable(table, left, right)
    ensures Attains(table, left, right, i, j, last)
  {
    DistanceHasAlternatives(table, left, right, i, j);
    if i > 0 { DistanceHasAlternatives(table, left, right, i - 1, j); }
    if j > 0 { DistanceHasAlternatives(table, left, right, i, j - 1); }
    last := SomeAttains(table, left, right, i, j);
  }

  /** And some script costs exactly that. */
  lemma {:induction false} SomeScriptIsAsCheap(left: string, right: string, i: nat, j: nat) returns (script: seq<Edit>)
    requires i <= |left| && j <= |right|
    ensures Turns(script, left, right, i, j) && Cost(script) == Distance(left, right, i, j)
  {
    var table := SomeTable(left, right);
    script := CheapestScript(table, left, right, i, j);
  }

  lemma {:induction false} CheapestScript(
      table: Table, left: string, right: string, i: nat, j: nat)
    returns (script: seq<Edit>)
    requires i <= |left| && j <= |right| && IsTable(table, left, right)
    ensures Turns(script, left, right, i, j) && Cost(script) == table(i, j)
    decreases i + j
  {
    if i == 0 && j == 0 {
      DistanceHasAlternatives(table, left, right, i, j);
      return [];
    }
    var last := CheapestLast(table, left, right, i, j);
    var earlier := CheapestScript(table, left, right, Before(last, i, j).0, Before(last, i, j).1);
    script := earlier + [last];
    assert script[..|script| - 1] == earlier;
    LastTurn(script, left, right, i, j);
  }

  // ---- why the early exits are sound ----

  lemma {:induction false} LengthsBoundDistance(left: string, right: string, i: nat, j: nat)
    requires i <= |left| && j <= |right|
    ensures Distance(left, right, i, j) >= i - j && Distance(left, right, i, j) >= j - i
  {
    var table := SomeTable(left, right);
    LengthsBoundTable(table, left, right, i, j);
  }

  lemma {:induction false} LengthsBoundTable(table: Table, left: string, right: string, i: nat, j: nat)
    requires i <= |left| && j <= |right| && IsTable(table, left, right)
    ensures table(i, j) >= i - j && table(i, j) >= j - i
    decreases i + j
  {
    DistanceHasAlternatives(table, left, right, i, j);
    if i > 0 && j > 0 {
      LengthsBoundTable(table, left, right, i - 1, j);
      LengthsBoundTable(table, left, right, i, j - 1);
      LengthsBoundTable(table, left, right, i - 1, j - 1);
      if Crossed(left, right, i, j) {
        LengthsBoundTable(table, left, right, i - 2, j - 2);
      }
    }
  }

  ghost predicate RowExceeds(table: Table, left: string, right: string, i: nat, limit: nat)
    requires i <= |left|
  {
    forall j: nat :: j <= |right| ==> table(i, j) > limit
  }

  /** A swap reaches back two rows, but never below what the row between them
      already exceeds. */
  lemma {:induction false} NextRowExceeds(table: Table, left: string, right: string, i: nat, limit: nat, j: nat)
    requires i < |left| && j <= |right| && IsTable(table, left, right) && RowExceeds(table, left, right, i, limit)
    ensures table(i + 1, j) > limit
    decreases j
  {
    DistanceHasAlternatives(table, left, right, i + 1, j);
    if j == 0 {
      DistanceHasAlternatives(table, left, right, i, 0);
      assert table(i, 0) > limit;
    } else {
      NextRowExceeds(table, left, right, i, limit, j - 1);
      assert table(i, j) > limit && table(i, j - 1) > limit;
      if Crossed(left, right, i + 1, j) {
        DistanceIsBounded(table, left, right, i, j - 2, Drop);
        assert table(i, j - 2) > limit;
      }
    }
  }

  lemma {:induction false} LaterRowsOfTable(table: Table, left: string, right: string, i: nat, limit: nat, n: nat)
    requires i <= n <= |left| && IsTable(table, left, right) && RowExceeds(table, left, right, i, limit)
    ensures RowExceeds(table, left, right, n, limit)
    decreases n - i
  {
    if i < n {
      var next := i + 1;
      forall j: nat | j <= |right| ensures table(next, j) > limit {
        NextRowExceeds(table, left, right, i, limit, j);
      }
      LaterRowsOfTable(table, left, right, next, limit, n);
    }
  }

  /** Once a whole row is over the limit, so is every later value. */
  lemma LaterRowsExceed(left: string, right: string, i: nat, limit: nat, n: nat, k: nat)
    requires i <= n <= |left| && k <= |right|
    requires forall j: nat :: j <= |right| ==> Distance(left, right, i, j) > limit
    ensures Distance(left, right, n, k) > limit
  {
    var table := SomeTable(left, right);
    forall j: nat | j <= |right| ensures table(i, j) > limit {
      assert Distance(left, right, i, j) > limit;
    }
    LaterRowsOfTable(table, left, right, i, limit, n);
    assert table(n, k) > limit;
  }

  // ---- the program ----

  ghost predicate IsRow(row: seq<nat>, left: string, right: string, i: nat)
    requires i <= |left|
  {
    |row| <= |right| + 1 && forall j: nat :: j < |row| ==> row[j] == Distance(left, right, i, j)
  }

  /** One cell of the table, from its neighbours. */
  method Cell(
      left: string, right: string, row: nat, column: nat, previous: seq<nat>, current: seq<nat>,
      beforePrevious: seq<nat>)
    returns (value: nat)
    requires 0 < row <= |left| && 0 < column <= |right|
    requires |previous| == |right| + 1 && IsRow(previous, left, right, row - 1)
    requires |current| == column && IsRow(current, left, right, row)
    requires row > 1 ==> |beforePrevious| == |right| + 1 && IsRow(beforePrevious, left, right, row - 2)
    ensures value == Distance(left, right, row, column)
  {
    value := Min(Min(previous[column] + 1, current[column - 1] + 1),
                 previous[column - 1] + if left[row - 1] == right[column - 1] then 0 else 1);
    if row > 1 && column > 1 && left[row - 1] == right[column - 2] && left[row - 2] == right[column - 1] {
      value := Min(value, beforePrevious[column - 2] + 1);
    }
  }

  /** One row of the table, and the smallest value in it. */
  method NextRow(left: string, right: string, row: nat, previous: seq<nat>, beforePrevious: seq<nat>)
    returns (current: seq<nat>, smallest: nat)
    requires 0 < row <= |left|
    requires |previous| == |right| + 1 && IsRow(previous, left, right, row - 1)
    requires row > 1 ==> |beforePrevious| == |right| + 1 && IsRow(beforePrevious, left, right, row - 2)
    ensures |current| == |right| + 1 && IsRow(current, left, right, row)
    ensures smallest in current && forall x :: x in current ==> smallest <= x
  {
    current, smallest := [row], row;
    for column := 1 to |right| + 1
      invariant |current| == column && IsRow(current, left, right, row)
      invariant smallest in current && forall x :: x in current ==> smallest <= x
    {
      var value := Cell(left, right, row, column, previous, current, beforePrevious);
      current := current + [value];
      smallest := Min(smallest, value);
    }
  }

  /** Once a whole row is over the limit the distance is. */
  lemma RowOverLimit(left: string, right: string, row: nat, limit: nat, current: seq<nat>, smallest: nat)
    requires row <= |left| && |current| == |right| + 1 && IsRow(current, left, right, row)
    requires smallest > limit && forall x :: x in current ==> smallest <= x
    ensures Distance(left, right, |left|, |right|) > limit
  {
    forall j: nat | j <= |right| ensures Distance(left, right, row, j) > limit {
      assert current[j] in current;
    }
    LaterRowsExceed(left, right, row, limit, |left|, |right|);
  }

  method EditDistance(left: string, right: string, limit: nat) returns (distance: nat)
    ensures var exact := Distance(left, right, |left|, |right|);
            if exact <= limit then distance == exact else limit < distance <= exact
    ensures |left| > |right| + limit || |right| > |left| + limit ==> distance == limit + 1
  {
    LengthsBoundDistance(left, right, |left|, |right|);
    if |left| - |right| > limit || |right| - |left| > limit { return limit + 1; }
    var previous: seq<nat> := seq(|right| + 1, index => index);
    var beforePrevious: seq<nat> := [];
    for row := 1 to |left| + 1
      invariant |previous| == |right| + 1 && IsRow(previous, left, right, row - 1)
      invariant row > 1 ==> |beforePrevious| == |right| + 1 && IsRow(beforePrevious, left, right, row - 2)
    {
      var current, smallest := NextRow(left, right, row, previous, beforePrevious);
      if smallest > limit {
        RowOverLimit(left, right, row, limit, current, smallest);
        return limit + 1;
      }
      beforePrevious := previous;
      previous := current;
    }
    return previous[|right|];
  }

  /** What the spelling pass decides by comparing with the limit: whether some
      script of at most that many edits turns one word into the other. */
  method WithinLimit(left: string, right: string, limit: nat) returns (near: bool)
    ensures near <==> exists script :: Turns(script, left, right, |left|, |right|) && Cost(script) <= limit
  {
    var distance := EditDistance(left, right, limit);
    near := distance <= limit;
    ghost var best := SomeScriptIsAsCheap(left, right, |left|, |right|);
    forall script | Turns(script, left, right, |left|, |right|) ensures Cost(script) >= Cost(best) {
      NoScriptIsCheaper(script, left, right, |left|, |right|);
    }
  }

  /** Only a word itself is at distance zero. */
  lemma ZeroMeansEqual(left: string, right: string, i: nat, j: nat)
    requires i <= |left| && j <= |right|
    ensures Distance(left, right, i, j) == 0 <==> left[..i] == right[..j]
  {
    var table := SomeTable(left, right);
    ZeroInTable(table, left, right, i, j);
  }

  lemma {:induction false} ZeroInTable(table: Table, left: string, right: string, i: nat, j: nat)
    requires i <= |left| && j <= |right| && IsTable(table, left, right)
    ensures table(i, j) == 0 <==> left[..i] == right[..j]
    decreases i
  {
    DistanceHasAlternatives(table, left, right, i, j);
    if i > 0 && j > 0 {
      ZeroInTable(table, left, right, i - 1, j - 1);
      DistanceIsBounded(table, left, right, i, j, Keep);
      assert left[..i] == left[..i - 1] + [left[i - 1]];
      assert right[..j] == right[..j - 1] + [right[j - 1]];
    }
  }
}

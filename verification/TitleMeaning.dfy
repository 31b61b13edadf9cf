/** Which titles a text has, said of its quotation marks: the quotations that a
    reader from the left would see, and which of them the words around frame. */
module TitleMeaning {
  import opened Listings
  import opened LiteralTitles

  // ---- quotation marks ----

  /** An odd number of backslashes stands directly before the position. */
  ghost predicate Backslashed(text: string, index: nat)
    requires index <= |text|
  {
    exists n: nat :: Run(text, index, n) && n % 2 == 1
  }

  /** Exactly n backslashes stand directly before the position. */
  ghost predicate Run(text: string, index: nat, n: nat)
    requires index <= |text|
  {
    && n <= index && (forall i :: index - n <= i < index ==> text[i] == '\\')
    && (n < index ==> text[index - n - 1] != '\\')
  }

  predicate Pairs(opener: char, closer: char) {
    || (opener == '"' && closer == '"') || (opener == '\'' && closer == '\'')
    || (opener == '\U{201C}' && closer == '\U{201D}') || (opener == '\U{2018}' && closer == '\U{2019}')
  }

  predicate IsOpener(c: char) { c == '"' || c == '\'' || c == '\U{201C}' || c == '\U{2018}' }

  /** An opening mark that is not escaped, and no apostrophe after a word character. */
  ghost predicate OpensAt(l: Language, text: string, start: nat) {
    && start < |text| && IsOpener(text[start]) && !Backslashed(text, start)
    && (text[start] == '\'' && start > 0 ==> !l.word(text[start - 1]))
  }

  /** A closing mark for the opener that is not escaped, and no apostrophe between
      word characters. */
  ghost predicate ClosesAt(l: Language, text: string, opener: char, end: nat) {
    && end < |text| && Pairs(opener, text[end]) && !Backslashed(text, end)
    && ((opener == '\'' || opener == '\U{2018}') && 0 < end && end + 1 < |text| ==>
          !(l.word(text[end - 1]) && l.word(text[end + 1])))
  }

  /** A quotation ends at the first mark that closes it. */
  ghost predicate Quotation(l: Language, text: string, q: Place) {
    && q.start < q.end && OpensAt(l, text, q.start) && ClosesAt(l, text, text[q.start], q.end)
    && forall i :: q.start < i < q.end ==> !ClosesAt(l, text, text[q.start], i)
  }

  ghost predicate NeverClosed(l: Language, text: string, start: nat) {
    OpensAt(l, text, start) && forall i :: start < i < |text| ==> !ClosesAt(l, text, text[start], i)
  }

  predicate Outside(quotations: seq<Place>, position: nat) {
    forall k :: 0 <= k < |quotations| ==> position < quotations[k].start || quotations[k].end < position
  }

  /** The quotations from a position on, one after the other: an opening mark
      outside all of them is never closed. */
  ghost predicate QuotationsFrom(l: Language, text: string, start: nat, quotations: seq<Place>) {
    && (forall k :: 0 <= k < |quotations| ==> start <= quotations[k].start && Quotation(l, text, quotations[k]))
    && (forall j, k :: 0 <= j < k < |quotations| ==> quotations[j].end < quotations[k].start)
    && (forall s: nat :: start <= s && OpensAt(l, text, s) && Outside(quotations, s) ==> NeverClosed(l, text, s))
  }

  // ---- titles ----

  function Between(text: string, from: nat, to: nat): string {
    if from <= to <= |text| then text[from..to] else ""
  }

  /** Where the last title before quotation k ended, if there is one. */
  function LastEnd(quotations: seq<Place>, titles: seq<bool>, before: Option<nat>, k: nat): Option<nat>
    requires k <= |quotations| == |titles|
  {
    if k == 0 then before
    else if titles[k - 1] then Some(quotations[k - 1].end + 1)
    else LastEnd(quotations, titles, before, k - 1)
  }

  /** A title holds something, and words around it or between it and the title
      before it frame it. */
  predicate IsTitle(l: Language, text: string, q: Place, lastEnd: Option<nat>) {
    && q.start + 1 < q.end < |text|
    && (l.frames(text[..q.start], text[q.end + 1..])
        || (lastEnd.Some? && l.joins(Between(text, lastEnd.value, q.start))))
  }

  predicate Marks(l: Language, text: string, quotations: seq<Place>, before: Option<nat>, titles: seq<bool>) {
    && |titles| == |quotations|
    && forall k {:trigger titles[k]} :: 0 <= k < |titles| ==>
         titles[k] == IsTitle(l, text, quotations[k], LastEnd(quotations, titles, before, k))
  }

  function Marked(quotations: seq<Place>, titles: seq<bool>): seq<Place>
    requires |quotations| == |titles|
  {
    if quotations == [] then []
    else
      var earlier := Marked(quotations[..|quotations| - 1], titles[..|titles| - 1]);
      if titles[|titles| - 1] then earlier + [quotations[|quotations| - 1]] else earlier
  }

  /** A mark outside the quotations that words before it frame is never closed. */
  ghost predicate Unfinished(l: Language, text: string, start: nat, quotations: seq<Place>) {
    exists s: nat :: start <= s < |text| && Outside(quotations, s) && NeverClosed(l, text, s) && l.frames(text[..s], "")
  }

  // ---- the marks as the scan sees them ----

  lemma {:induction false} SlashesRun(text: string, index: nat)
    requires index <= |text|
    ensures Run(text, index, Slashes(text, index))
    ensures forall n: nat :: Run(text, index, n) ==> n == Slashes(text, index)
  {
    if index > 0 && text[index - 1] == '\\' {
      SlashesRun(text, index - 1);
      forall n: nat | Run(text, index, n) ensures n == Slashes(text, index) {
        assert n > 0;
        assert Run(text, index - 1, n - 1);
      }
    }
  }

  lemma EscapedByRun(text: string, index: nat)
    requires index <= |text|
    ensures Escaped(text, index) <==> Backslashed(text, index)
  {
    SlashesRun(text, index);
  }

  lemma OpensByMarks(l: Language, text: string, start: nat)
    requires start < |text|
    ensures Opens(l, text, start) <==> OpensAt(l, text, start)
    ensures Closer(text[start]).Some? <==> IsOpener(text[start])
  {
    EscapedByRun(text, start);
  }

  lemma ClosesByMarks(l: Language, text: string, opener: char, end: nat)
    requires end < |text| && Closer(opener).Some?
    ensures Closes(l, text, Closer(opener).value, end) <==> ClosesAt(l, text, opener, end)
  {
    EscapedByRun(text, end);
  }

  /** What follows an opening mark: the quotation it begins, or nothing that closes it. */
  lemma FirstClose(l: Language, text: string, start: nat, end: nat)
    requires start < |text| && Opens(l, text, start)
    requires end == CloseFrom(l, text, Closer(text[start]).value, start + 1)
    ensures end < |text| ==> Quotation(l, text, Place(start, end))
    ensures end == |text| ==> NeverClosed(l, text, start)
  {
    OpensByMarks(l, text, start);
    forall i | start < i < |text|
      ensures Closes(l, text, Closer(text[start]).value, i) <==> ClosesAt(l, text, text[start], i)
    {
      ClosesByMarks(l, text, text[start], i);
    }
  }

  // ---- the titles as the scan sees them ----

  lemma {:induction false} LastEndShifts(
      q: Place, title: bool, rest: seq<Place>, titles: seq<bool>, before: Option<nat>, k: nat)
    requires k <= |rest| == |titles|
    ensures LastEnd([q] + rest, [title] + titles, before, k + 1)
         == LastEnd(rest, titles, if title then Some(q.end + 1) else before, k)
  {
    if k > 0 {
      LastEndShifts(q, title, rest, titles, before, k - 1);
      assert ([q] + rest)[k] == rest[k - 1] && ([title] + titles)[k] == titles[k - 1];
    }
  }

  lemma MarksFirst(
      l: Language, text: string, q: Place, title: bool, rest: seq<Place>, titles: seq<bool>, before: Option<nat>)
    requires title == IsTitle(l, text, q, before)
    requires Marks(l, text, rest, if title then Some(q.end + 1) else before, titles)
    ensures Marks(l, text, [q] + rest, before, [title] + titles)
  {
    var all, marks := [q] + rest, [title] + titles;
    forall k | 0 <= k < |marks| ensures marks[k] == IsTitle(l, text, all[k], LastEnd(all, marks, before, k)) {
      if k > 0 {
        LastEndShifts(q, title, rest, titles, before, k - 1);
        assert marks[k] == titles[k - 1] && all[k] == rest[k - 1];
      }
    }
  }

  lemma {:induction false} MarkedFirst(q: Place, title: bool, rest: seq<Place>, titles: seq<bool>)
    requires |rest| == |titles|
    ensures Marked([q] + rest, [title] + titles) == (if title then [q] else []) + Marked(rest, titles)
  {
    var all, marks := [q] + rest, [title] + titles;
    if rest == [] {
      assert all[..0] == [] && marks[..0] == [];
    } else {
      MarkedFirst(q, title, rest[..|rest| - 1], titles[..|titles| - 1]);
      assert all[..|all| - 1] == [q] + rest[..|rest| - 1];
      assert marks[..|marks| - 1] == [title] + titles[..|titles| - 1];
    }
  }

  lemma FromEarlier(l: Language, text: string, start: nat, quotations: seq<Place>)
    requires QuotationsFrom(l, text, start + 1, quotations) && (OpensAt(l, text, start) ==> NeverClosed(l, text, start))
    ensures QuotationsFrom(l, text, start, quotations)
    ensures Outside(quotations, start)
  {
  }

  lemma FromQuotation(l: Language, text: string, q: Place, rest: seq<Place>)
    requires Quotation(l, text, q) && QuotationsFrom(l, text, q.end + 1, rest)
    ensures QuotationsFrom(l, text, q.start, [q] + rest)
    ensures forall s: nat :: q.start <= s ==> (Outside([q] + rest, s) <==> q.end < s && Outside(rest, s))
  {
    var all := [q] + rest;
    forall s: nat | q.start <= s ensures Outside(all, s) <==> q.end < s && Outside(rest, s) {
      OutsideFirst(q, rest, s);
    }
    assert forall k :: 1 <= k < |all| ==> all[k] == rest[k - 1];
  }

  lemma OutsideFirst(q: Place, rest: seq<Place>, s: nat)
    ensures Outside([q] + rest, s) <==> (s < q.start || q.end < s) && Outside(rest, s)
  {
    var all := [q] + rest;
    if Outside(all, s) {
      assert s < all[0].start || all[0].end < s;
      forall k | 0 <= k < |rest| ensures s < rest[k].start || rest[k].end < s {
        assert all[k + 1] == rest[k];
      }
    }
  }

  /** The quotations and titles from a position on are these. */
  ghost predicate Finds(
      l: Language, text: string, start: nat, before: Option<nat>, quotations: seq<Place>, titles: seq<bool>)
    requires start <= |text| && (before.Some? ==> before.value <= start)
  {
    && QuotationsFrom(l, text, start, quotations) && Marks(l, text, quotations, before, titles)
    && (TitlesFrom(l, text, start, before).None? <==> Unfinished(l, text, start, quotations))
    && (TitlesFrom(l, text, start, before).Some? ==>
          TitlesFrom(l, text, start, before).value == Marked(quotations, titles))
  }

  /** The titles that the scan finds from a position on are the framed quotations
      from there on, and it gives up exactly when a framed mark is never closed. */
  lemma {:induction false} TitlesByQuotations(l: Language, text: string, start: nat, before: Option<nat>)
    returns (quotations: seq<Place>, titles: seq<bool>)
    requires start <= |text| && (before.Some? ==> before.value <= start)
    ensures Finds(l, text, start, before, quotations, titles)
    decreases |text| - start
  {
    if start == |text| {
      quotations, titles := [], [];
    } else if !Opens(l, text, start) {
      quotations, titles := TitlesByQuotations(l, text, start + 1, before);
      FindsPlain(l, text, start, before, quotations, titles);
    } else {
      var end := CloseFrom(l, text, Closer(text[start]).value, start + 1);
      if end == |text| {
        quotations, titles := TitlesByQuotations(l, text, start + 1, before);
        FindsUnclosed(l, text, start, before, quotations, titles);
      } else {
        var q := Place(start, end);
        var title := IsTitle(l, text, q, before);
        var last := if title then Some(q.end + 1) else before;
        var rest, marks := TitlesByQuotations(l, text, q.end + 1, last);
        quotations, titles := [q] + rest, [title] + marks;
        assert Opens(l, text, q.start) && CloseFrom(l, text, Closer(text[q.start]).value, q.start + 1) == q.end;
        assert Finds(l, text, q.end + 1, last, rest, marks);
        FindsClosed(l, text, q, title, before, last, rest, marks);
      }
    }
  }

  lemma FindsPlain(
      l: Language, text: string, start: nat, before: Option<nat>, quotations: seq<Place>, titles: seq<bool>)
    requires start < |text| && (before.Some? ==> before.value <= start) && !Opens(l, text, start)
    requires Finds(l, text, start + 1, before, quotations, titles)
    ensures Finds(l, text, start, before, quotations, titles)
  {
    OpensByMarks(l, text, start);
    FromEarlier(l, text, start, quotations);
    SkipPosition(l, text, start, quotations);
  }

  lemma SkipPosition(l: Language, text: string, start: nat, quotations: seq<Place>)
    requires start < |text| && (NeverClosed(l, text, start) ==> !l.frames(text[..start], ""))
    ensures Unfinished(l, text, start, quotations) <==> Unfinished(l, text, start + 1, quotations)
  {
  }

  lemma FindsUnclosed(
      l: Language, text: string, start: nat, before: Option<nat>, quotations: seq<Place>, titles: seq<bool>)
    requires start < |text| && (before.Some? ==> before.value <= start) && Opens(l, text, start)
    requires CloseFrom(l, text, Closer(text[start]).value, start + 1) == |text|
    requires Finds(l, text, start + 1, before, quotations, titles)
    ensures Finds(l, text, start, before, quotations, titles)
  {
    FirstClose(l, text, start, |text|);
    FromEarlier(l, text, start, quotations);
    if !l.frames(text[..start], "") { SkipPosition(l, text, start, quotations); }
  }

  lemma FindsClosed(
      l: Language, text: string, q: Place, title: bool, before: Option<nat>, last: Option<nat>, rest: seq<Place>,
      titles: seq<bool>)
    requires q.start < q.end < |text| && (before.Some? ==> before.value <= q.start) && Opens(l, text, q.start)
    requires CloseFrom(l, text, Closer(text[q.start]).value, q.start + 1) == q.end
    requires title == IsTitle(l, text, q, before) && last == if title then Some(q.end + 1) else before
    requires Finds(l, text, q.end + 1, last, rest, titles)
    ensures Finds(l, text, q.start, before, [q] + rest, [title] + titles)
  {
    FirstClose(l, text, q.start, q.end);
    FromQuotation(l, text, q, rest);
    MarksFirst(l, text, q, title, rest, titles, before);
    FoundClosed(l, text, q, title, before, rest, titles);
    SkipQuotation(l, text, q, rest);
  }

  lemma FoundClosed(
      l: Language, text: string, q: Place, title: bool, before: Option<nat>, rest: seq<Place>, titles: seq<bool>)
    requires q.start < q.end < |text| && (before.Some? ==> before.value <= q.start) && Opens(l, text, q.start)
    requires CloseFrom(l, text, Closer(text[q.start]).value, q.start + 1) == q.end && |rest| == |titles|
    requires title == IsTitle(l, text, q, before)
    ensures var later := TitlesFrom(l, text, q.end + 1, if title then Some(q.end + 1) else before);
      var here := TitlesFrom(l, text, q.start, before);
      && (here.None? <==> later.None?)
      && (later.Some? && later.value == Marked(rest, titles) ==> here.value == Marked([q] + rest, [title] + titles))
  {
    ScanStep(l, text, q, title, before);
    MarkedFirst(q, title, rest, titles);
    NothingBefore(Marked(rest, titles));
  }

  lemma NothingBefore(places: seq<Place>)
    ensures [] + places == places
  {
  }

  /** One step of the scan over a quotation. */
  lemma ScanStep(l: Language, text: string, q: Place, title: bool, before: Option<nat>)
    requires q.start < q.end < |text| && (before.Some? ==> before.value <= q.start) && Opens(l, text, q.start)
    requires CloseFrom(l, text, Closer(text[q.start]).value, q.start + 1) == q.end
    requires title == IsTitle(l, text, q, before)
    ensures TitlesFrom(l, text, q.start, before) ==
      if title then Before([q], TitlesFrom(l, text, q.end + 1, Some(q.end + 1)))
      else TitlesFrom(l, text, q.end + 1, before)
  {
    assert title <==> q.end > q.start + 1 && Framed(l, text, q.start, q.end, before);
  }

  lemma SkipQuotation(l: Language, text: string, q: Place, rest: seq<Place>)
    requires q.start < q.end < |text|
    requires forall s: nat :: q.start <= s ==> (Outside([q] + rest, s) <==> q.end < s && Outside(rest, s))
    ensures Unfinished(l, text, q.start, [q] + rest) <==> Unfinished(l, text, q.end + 1, rest)
  {
    if Unfinished(l, text, q.start, [q] + rest) {
      var s: nat :| q.start <= s < |text| && Outside([q] + rest, s) && NeverClosed(l, text, s)
        && l.frames(text[..s], "");
      assert Outside(rest, s) && q.end + 1 <= s;
    }
    if Unfinished(l, text, q.end + 1, rest) {
      var s: nat :| q.end + 1 <= s < |text| && Outside(rest, s) && NeverClosed(l, text, s) && l.frames(text[..s], "");
      assert Outside([q] + rest, s);
    }
  }

  // ---- there is only one such reading ----

  /** The quotations of a text are determined by it. */
  lemma {:induction false} QuotationsOnce(l: Language, text: string, start: nat, a: seq<Place>, b: seq<Place>)
    requires QuotationsFrom(l, text, start, a) && QuotationsFrom(l, text, start, b)
    ensures a == b
    decreases |a|
  {
    if a == [] || b == [] {
      OneIsEmpty(l, text, start, a, b);
    } else {
      SameFirst(l, text, start, a, b);
      LaterQuotations(l, text, start, a);
      LaterQuotations(l, text, start, b);
      QuotationsOnce(l, text, a[0].end + 1, a[1..], b[1..]);
      HeadAndTail(a, b);
    }
  }

  lemma HeadAndTail(a: seq<Place>, b: seq<Place>)
    requires a != [] && b != [] && a[0] == b[0] && a[1..] == b[1..]
    ensures a == b
  {
    assert a == [a[0]] + a[1..] && b == [b[0]] + b[1..];
  }

  lemma OneIsEmpty(l: Language, text: string, start: nat, a: seq<Place>, b: seq<Place>)
    requires QuotationsFrom(l, text, start, a) && QuotationsFrom(l, text, start, b) && (a == [] || b == [])
    ensures a == b
  {
    if a != [] {
      assert Quotation(l, text, a[0]) && Outside(b, a[0].start);
    } else if b != [] {
      assert Quotation(l, text, b[0]) && Outside(a, b[0].start);
    }
  }

  lemma SameFirst(l: Language, text: string, start: nat, a: seq<Place>, b: seq<Place>)
    requires QuotationsFrom(l, text, start, a) && QuotationsFrom(l, text, start, b) && a != [] && b != []
    ensures a[0] == b[0]
  {
    BeforeFirst(l, text, start, a, b[0]);
    BeforeFirst(l, text, start, b, a[0]);
    assert Quotation(l, text, a[0]) && Quotation(l, text, b[0]);
  }

  /** No quotation from the position on begins before the first one. */
  lemma BeforeFirst(l: Language, text: string, start: nat, quotations: seq<Place>, q: Place)
    requires QuotationsFrom(l, text, start, quotations) && quotations != [] && Quotation(l, text, q) && start <= q.start
    ensures quotations[0].start <= q.start
  {
    assert q.start < quotations[0].start ==> Outside(quotations, q.start);
  }

  lemma LaterQuotations(l: Language, text: string, start: nat, quotations: seq<Place>)
    requires QuotationsFrom(l, text, start, quotations) && quotations != []
    ensures QuotationsFrom(l, text, quotations[0].end + 1, quotations[1..])
  {
    var first, rest := quotations[0], quotations[1..];
    assert Quotation(l, text, first);
    assert quotations == [first] + rest;
    forall s: nat | first.end + 1 <= s && OpensAt(l, text, s) && Outside(rest, s) ensures NeverClosed(l, text, s) {
      OutsideFirst(first, rest, s);
    }
    assert forall k :: 0 <= k < |rest| ==> rest[k] == quotations[k + 1];
  }

  /** The whole text: it has one list of quotations; its titles are the framed ones
      among them, unless a framed mark outside them is never closed. */
  lemma TitlesOfText(l: Language, text: string, quotations: seq<Place>, titles: seq<bool>)
    requires QuotationsFrom(l, text, 0, quotations) && Marks(l, text, quotations, None, titles)
    ensures TitlesFrom(l, text, 0, None) ==
      if Unfinished(l, text, 0, quotations) then None else Some(Marked(quotations, titles))
  {
    var found, marks := TitlesByQuotations(l, text, 0, None);
    QuotationsOnce(l, text, 0, quotations, found);
    MarksOnce(l, text, quotations, None, titles, marks, |titles|);
    assert titles == marks;
  }

  lemma {:induction false} MarksOnce(
      l: Language, text: string, quotations: seq<Place>, before: Option<nat>, a: seq<bool>, b: seq<bool>, k: nat)
    requires Marks(l, text, quotations, before, a) && Marks(l, text, quotations, before, b) && k <= |a|
    ensures forall i :: 0 <= i < k ==> a[i] == b[i]
    ensures LastEnd(quotations, a, before, k) == LastEnd(quotations, b, before, k)
  {
    if k > 0 {
      MarksOnce(l, text, quotations, before, a, b, k - 1);
      assert a[k - 1] == b[k - 1];
    }
  }

  // ---- tokens ----

  /** A text contains a part exactly when it is something, the part and something. */
  lemma ContainsByParts(text: string, part: string)
    ensures LiteralTitles.Contains(text, part) <==> exists before, after :: text == before + part + after
  {
    if LiteralTitles.Contains(text, part) {
      var k :| 0 <= k <= |text| && OccursAt(text, part, k);
      assert text == text[..k] + part + text[k + |part|..];
    }
    if before, after :| text == before + part + after {
      assert text[|before|..|before| + |part|] == part;
      assert OccursAt(text, part, |before|);
    }
  }
}

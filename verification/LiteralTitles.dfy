/** Masking quoted titles before interpretation: each framed literal is swapped
    for an opaque token that occurs nowhere in the text, and swapping them back
    restores the text. */
module LiteralTitles {
  import opened Listings

  // ---- tokens ----

  /** Bijective base 26: A to Z, then AA and so on; zero has no letters. */
  function Letters(value: nat): string {
    if value == 0 then "" else Letters((value - 1) / 26) + [(65 + (value - 1) % 26) as char]
  }

  function Value(letters: string): nat {
    if letters == "" then 0
    else 26 * Value(letters[..|letters| - 1]) + Digit(letters[|letters| - 1])
  }

  function Digit(letter: char): nat { if letter < 'A' then 0 else (letter as int - 64) }

  /** Reading the letters gives the number back, so no two numbers share letters. */
  lemma {:induction false} LettersReadBack(value: nat)
    ensures Value(Letters(value)) == value
    decreases value
  {
    if value > 0 {
      var front := Letters((value - 1) / 26);
      var last := (65 + (value - 1) % 26) as char;
      LettersReadBack((value - 1) / 26);
      assert (front + [last])[..|front + [last]| - 1] == front;
      assert Digit(last) == (value - 1) % 26 + 1;
    }
  }

  function LargestOfLength(length: nat): nat {
    if length == 0 then 0 else 26 * LargestOfLength(length - 1) + 26
  }

  /** Few letters mean a small number: letters outgrow any length. */
  lemma {:induction false} ShortIsSmall(value: nat)
    ensures value <= LargestOfLength(|Letters(value)|)
    decreases value
  {
    if value > 0 {
      ShortIsSmall((value - 1) / 26);
    }
  }

  lemma {:induction false} LargestGrows(short: nat, long: nat)
    requires short <= long
    ensures LargestOfLength(short) <= LargestOfLength(long)
    decreases long
  {
    if short < long {
      LargestGrows(short, long - 1);
    }
  }

  method AlphabeticIndex(index: nat) returns (letters: string)
    ensures letters == Letters(index + 1)
  {
    letters := "";
    var value: nat := index + 1;
    while value > 0
      invariant Letters(index + 1) == Letters(value) + letters
    {
      ghost var last := (65 + (value - 1) % 26) as char;
      assert Letters(value) + letters == Letters((value - 1) / 26) + ([last] + letters);
      letters := [(65 + (value - 1) % 26) as char] + letters;
      value := (value - 1) / 26;
    }
  }

  function Token(prefix: string, index: nat): string {
    "LITERAL" + prefix + "TITLE" + Letters(index + 1)
  }

  predicate Contains(text: string, part: string) {
    exists k :: 0 <= k <= |text| && OccursAt(text, part, k)
  }

  predicate OccursAt(text: string, part: string, k: nat) {
    k + |part| <= |text| && text[k..k + |part|] == part
  }

  lemma TokensDiffer(prefix: string, i: nat, j: nat)
    requires i != j
    ensures Token(prefix, i) != Token(prefix, j)
  {
    LettersReadBack(i + 1);
    LettersReadBack(j + 1);
    SameHead("LITERAL" + prefix + "TITLE", Letters(i + 1), Letters(j + 1));
  }

  lemma SameHead(head: string, left: string, right: string)
    requires left != right
    ensures head + left != head + right
  {
    assert left == (head + left)[|head|..] && right == (head + right)[|head|..];
  }

  /** The first token from `index` on that the upper-cased text does not contain.
      The search ends because tokens outgrow the text. */
  method FreshToken(shout: string, prefix: string, index: nat) returns (token: string, next: nat)
    ensures next > index && token == Token(prefix, next - 1) && !Contains(shout, token)
    ensures forall k: nat :: index <= k < next - 1 ==> Contains(shout, Token(prefix, k))
  {
    var letters := AlphabeticIndex(index);
    token, next := "LITERAL" + prefix + "TITLE" + letters, index + 1;
    while Contains(shout, token)
      invariant next > index && token == Token(prefix, next - 1)
      invariant forall k: nat :: index <= k < next - 1 ==> Contains(shout, Token(prefix, k))
      decreases LargestOfLength(|shout|) - next
    {
      assert next <= LargestOfLength(|shout|) by {
        ShortIsSmall(next);
        LargestGrows(|Letters(next)|, |shout|);
      }
      letters := AlphabeticIndex(next);
      token, next := "LITERAL" + prefix + "TITLE" + letters, next + 1;
    }
  }

  // ---- quoted spans ----

  /** What is left to the caller: word characters, words that frame a title, and
      words that join a title to the one before. */
  datatype Language = Language(word: char -> bool, frames: (string, string) -> bool, joins: string -> bool)

  function Closer(opener: char): Option<char> {
    if opener == '"' then Some('"')
    else if opener == '\'' then Some('\'')
    else if opener == '\U{201C}' then Some('\U{201D}')
    else if opener == '\U{2018}' then Some('\U{2019}')
    else None
  }

  function Slashes(text: string, index: nat): nat
    requires index <= |text|
  {
    if index > 0 && text[index - 1] == '\\' then 1 + Slashes(text, index - 1) else 0
  }

  predicate Escaped(text: string, index: nat)
    requires index <= |text|
  {
    Slashes(text, index) % 2 == 1
  }

  predicate WordAt(l: Language, text: string, index: int) {
    0 <= index < |text| && l.word(text[index])
  }

  /** A quotation may start here. */
  predicate Opens(l: Language, text: string, start: nat)
    requires start < |text|
  {
    Closer(text[start]).Some? && !Escaped(text, start) && !(text[start] == '\'' && WordAt(l, text, start - 1))
  }

  /** A quotation closed by `closer` may end here. */
  predicate Closes(l: Language, text: string, closer: char, end: nat)
    requires end < |text|
  {
    text[end] == closer && !Escaped(text, end)
    && !((closer == '\'' || closer == '\U{2019}') && WordAt(l, text, end - 1) && WordAt(l, text, end + 1))
  }

  method EscapedAt(text: string, index: nat) returns (escaped: bool)
    requires index <= |text|
    ensures escaped == Escaped(text, index)
  {
    var slashes := 0;
    var cursor: int := index - 1;
    while cursor >= 0 && text[cursor] == '\\'
      invariant -1 <= cursor < index
      invariant Slashes(text, index) == slashes + Slashes(text, cursor + 1)
    {
      slashes, cursor := slashes + 1, cursor - 1;
    }
    return slashes % 2 == 1;
  }

  /** The first place from `k` on where a quotation closed by `closer` may end,
      or the end of the text. */
  ghost function CloseFrom(l: Language, text: string, closer: char, k: nat): (end: nat)
    requires k <= |text|
    ensures k <= end <= |text| && (end < |text| ==> Closes(l, text, closer, end))
    ensures forall i :: k <= i < end ==> !Closes(l, text, closer, i)
    decreases |text| - k
  {
    if k == |text| || Closes(l, text, closer, k) then k else CloseFrom(l, text, closer, k + 1)
  }

  method ClosingQuote(l: Language, text: string, start: nat, closer: char) returns (end: nat)
    requires start < |text|
    ensures end == CloseFrom(l, text, closer, start + 1)
  {
    end := start + 1;
    while end < |text|
      invariant start < end <= |text|
      invariant CloseFrom(l, text, closer, start + 1) == CloseFrom(l, text, closer, end)
    {
      var escaped := EscapedAt(text, end);
      if text[end] == closer && !escaped {
        var apostrophe := closer == '\'' || closer == '\U{2019}';
        if !(apostrophe && WordAt(l, text, end - 1) && WordAt(l, text, end + 1)) { break; }
      }
      end := end + 1;
    }
  }

  // ---- masking ----

  datatype Literal = Literal(token: string, value: string)

  datatype Masking = Masked(text: string, literals: seq<Literal>) | Unclosed

  /** Pieces of text, each followed by what stands in its place. */
  function Woven(pieces: seq<string>, fillers: seq<string>): string
    requires |pieces| == |fillers|
  {
    if pieces == [] then ""
    else Woven(pieces[..|pieces| - 1], fillers[..|fillers| - 1]) + pieces[|pieces| - 1] + fillers[|fillers| - 1]
  }

  lemma WovenLater(pieces: seq<string>, fillers: seq<string>, piece: string, filler: string)
    requires |pieces| == |fillers|
    ensures Woven(pieces + [piece], fillers + [filler]) == Woven(pieces, fillers) + piece + filler
  {
    assert (pieces + [piece])[..|pieces|] == pieces && (fillers + [filler])[..|fillers|] == fillers;
  }

  function Tokens(literals: seq<Literal>): (tokens: seq<string>)
    ensures |tokens| == |literals| && forall i :: 0 <= i < |literals| ==> tokens[i] == literals[i].token
  {
    seq(|literals|, i requires 0 <= i < |literals| => literals[i].token)
  }

  /** The literals in their quotation marks. */
  function Quoted(openers: seq<char>, literals: seq<Literal>): (quoted: seq<string>)
    requires |openers| == |literals| && forall i :: 0 <= i < |openers| ==> Closer(openers[i]).Some?
    ensures |quoted| == |literals|
    ensures forall i :: 0 <= i < |literals| ==>
      quoted[i] == [openers[i]] + literals[i].value + [Closer(openers[i]).value]
  {
    seq(|literals|, i requires 0 <= i < |literals| => [openers[i]] + literals[i].value + [Closer(openers[i]).value])
  }

  /** A token of its own for every literal, none of them in the upper-cased text. */
  ghost predicate TokensOk(prefix: string, shout: string, literals: seq<Literal>, used: nat) {
    && (forall i :: 0 <= i < |literals| ==> !Contains(shout, literals[i].token))
    && (forall i :: 0 <= i < |literals| ==> Issued(prefix, literals[i].token, used))
    && (forall i, j :: 0 <= i < j < |literals| ==> literals[i].token != literals[j].token)
  }

  ghost predicate Issued(prefix: string, token: string, used: nat) {
    exists k: nat {:trigger Token(prefix, k)} :: k < used && token == Token(prefix, k)
  }

  /** The scan so far: what is copied and what is masked make up the text. */
  ghost predicate Progress(text: string, copied: nat, pieces: seq<string>, openers: seq<char>, literals: seq<Literal>) {
    && |pieces| == |openers| == |literals| && copied <= |text|
    && (forall i :: 0 <= i < |openers| ==> Closer(openers[i]).Some?)
    && (forall i :: 0 <= i < |literals| ==> literals[i].value != "")
    && Woven(pieces, Quoted(openers, literals)) == text[..copied]
  }

  lemma TextToQuote(text: string, copied: nat, start: nat, end: nat)
    requires copied <= start < end < |text|
    ensures text[..end + 1]
         == text[..copied] + text[copied..start] + ([text[start]] + text[start + 1..end] + [text[end]])
  {
  }

  lemma ProgressGrows(
      text: string, copied: nat, pieces: seq<string>, openers: seq<char>, literals: seq<Literal>, start: nat, end: nat,
      token: string)
    requires Progress(text, copied, pieces, openers, literals)
    requires copied <= start && start + 1 < end < |text| && Closer(text[start]) == Some(text[end])
    ensures Progress(text, end + 1, pieces + [text[copied..start]], openers + [text[start]],
      literals + [Literal(token, text[start + 1..end])])
  {
    var literal := Literal(token, text[start + 1..end]);
    var quoted := [text[start]] + literal.value + [text[end]];
    assert Quoted(openers + [text[start]], literals + [literal]) == Quoted(openers, literals) + [quoted];
    WovenLater(pieces, Quoted(openers, literals), text[copied..start], quoted);
    TextToQuote(text, copied, start, end);
  }

  lemma TokensGrow(prefix: string, shout: string, literals: seq<Literal>, used: nat, literal: Literal, next: nat)
    requires TokensOk(prefix, shout, literals, used) && next > used
    requires literal.token == Token(prefix, next - 1) && !Contains(shout, literal.token)
    ensures TokensOk(prefix, shout, literals + [literal], next)
  {
    forall i | 0 <= i < |literals|
      ensures literals[i].token != literal.token && Issued(prefix, literals[i].token, next)
    {
      assert Issued(prefix, literals[i].token, used);
      var k: nat :| k < used && literals[i].token == Token(prefix, k);
      TokensDiffer(prefix, k, next - 1);
    }
    assert Issued(prefix, literal.token, next) by {
      var k: nat := next - 1;
      assert literal.token == Token(prefix, k);
    }
  }

  predicate Framed(l: Language, text: string, start: nat, end: nat, previousEnd: Option<nat>)
    requires start < end < |text| && (previousEnd.Some? ==> previousEnd.value <= start)
  {
    l.frames(text[..start], text[end + 1..]) || (previousEnd.Some? && l.joins(text[previousEnd.value..start]))
  }

  /** The places of an opening and a closing quotation mark. */
  datatype Place = Place(start: nat, end: nat)

  /** The titles of a text from a position on: each quotation is passed over or,
      when it is not empty and words around it or before it frame it, a title. A
      framed quotation that is never closed leaves no answer. */
  ghost function TitlesFrom(l: Language, text: string, start: nat, previousEnd: Option<nat>): Option<seq<Place>>
    requires start <= |text| && (previousEnd.Some? ==> previousEnd.value <= start)
    decreases |text| - start
  {
    if start == |text| then Some([])
    else if !Opens(l, text, start) then TitlesFrom(l, text, start + 1, previousEnd)
    else
      var end := CloseFrom(l, text, Closer(text[start]).value, start + 1);
      if end == |text| then if l.frames(text[..start], "") then None else TitlesFrom(l, text, start + 1, previousEnd)
      else if end > start + 1 && Framed(l, text, start, end, previousEnd) then
        Before([Place(start, end)], TitlesFrom(l, text, end + 1, Some(end + 1)))
      else TitlesFrom(l, text, end + 1, previousEnd)
  }

  ghost function Before(places: seq<Place>, later: Option<seq<Place>>): Option<seq<Place>> {
    if later.None? then None else Some(places + later.value)
  }

  /** What the scan does at one position. */
  datatype Decision = Pass(next: nat) | Title(end: nat) | Stop

  method Decide(l: Language, text: string, start: nat, previousEnd: Option<nat>) returns (decision: Decision)
    requires start < |text| && (previousEnd.Some? ==> previousEnd.value <= start)
    ensures decision.Stop? ==> TitlesFrom(l, text, start, previousEnd).None?
    ensures decision.Pass? ==> start < decision.next <= |text|
    ensures decision.Pass? ==>
      TitlesFrom(l, text, start, previousEnd) == TitlesFrom(l, text, decision.next, previousEnd)
    ensures decision.Title? ==> start + 1 < decision.end < |text| && Closer(text[start]) == Some(text[decision.end])
    ensures decision.Title? ==>
      var later := TitlesFrom(l, text, decision.end + 1, Some(decision.end + 1));
      TitlesFrom(l, text, start, previousEnd) == Before([Place(start, decision.end)], later)
  {
    var escaped := EscapedAt(text, start);
    if Closer(text[start]).None? || escaped || (text[start] == '\'' && WordAt(l, text, start - 1)) {
      return Pass(start + 1);
    }
    var closer := Closer(text[start]).value;
    var end := ClosingQuote(l, text, start, closer);
    if end >= |text| {
      return if l.frames(text[..start], "") then Stop else Pass(start + 1);
    }
    var coordinated := previousEnd.Some? && l.joins(text[previousEnd.value..start]);
    if end == start + 1 || (!coordinated && !l.frames(text[..start], text[end + 1..])) { return Pass(end + 1); }
    return Title(end);
  }

  /** Masks exactly the titles of a text whose upper-cased form is `shout`. The
      pieces and quotation marks returned say how to put the titles back. */
  method MaskLiteralTitles(l: Language, text: string, shout: string, prefix: string)
    returns (masking: Masking, pieces: seq<string>, openers: seq<char>, tail: string)
    ensures masking.Unclosed? <==> TitlesFrom(l, text, 0, None).None?
    ensures masking.Masked? ==> Masks(text, TitlesFrom(l, text, 0, None).value, masking.literals, openers)
    ensures masking.Masked? ==> Restores(text, masking, pieces, openers, tail)
    ensures masking.Masked? ==> exists used: nat :: TokensOk(prefix, shout, masking.literals, used)
  {
    var scan := Scan("", [], [], [], 0, 0);
    ghost var places: seq<Place> := [];
    var cursor := Cursor(0, None);
    BeforeNothing(TitlesFrom(l, text, 0, None));
    while cursor.start < |text|
      invariant ScanOk(text, shout, prefix, scan) && Reached(l, text, scan, places, cursor)
      decreases |text| - cursor.start
    {
      var stop;
      stop, scan, places, cursor := Advance(l, text, shout, prefix, scan, places, cursor);
      if stop { return Unclosed, [], [], ""; }
    }
    BeforeEnd(places);
    masking, tail := Finished(text, shout, prefix, scan);
    pieces, openers := scan.pieces, scan.openers;
  }

  /** Where the scan is, and where the last title ended. */
  datatype Cursor = Cursor(start: nat, previousEnd: Option<nat>)

  /** The titles found so far and those still to come are the titles of the text. */
  ghost predicate Reached(l: Language, text: string, scan: Scan, places: seq<Place>, cursor: Cursor) {
    && cursor.start <= |text| && (cursor.previousEnd.Some? ==> cursor.previousEnd.value <= cursor.start)
    && scan.copied <= cursor.start && Masks(text, places, scan.literals, scan.openers)
    && TitlesFrom(l, text, 0, None) == Before(places, TitlesFrom(l, text, cursor.start, cursor.previousEnd))
  }

  method Advance(
      l: Language, text: string, shout: string, prefix: string, scan: Scan, ghost places: seq<Place>, cursor: Cursor)
    returns (stop: bool, longer: Scan, ghost more: seq<Place>, next: Cursor)
    requires ScanOk(text, shout, prefix, scan) && Reached(l, text, scan, places, cursor) && cursor.start < |text|
    ensures stop ==> TitlesFrom(l, text, 0, None).None?
    ensures !stop ==>
      ScanOk(text, shout, prefix, longer) && Reached(l, text, longer, more, next) && next.start > cursor.start
  {
    var decision := Decide(l, text, cursor.start, cursor.previousEnd);
    stop, longer, more, next := decision.Stop?, scan, places, cursor;
    if decision.Title? {
      longer, more, next := AdvanceTitle(l, text, shout, prefix, scan, places, cursor, decision.end);
    } else if decision.Pass? {
      next := Cursor(decision.next, cursor.previousEnd);
    }
  }

  /** Takes the title that starts at the cursor. */
  method AdvanceTitle(
      l: Language, text: string, shout: string, prefix: string, scan: Scan, ghost places: seq<Place>, cursor: Cursor,
      end: nat)
    returns (longer: Scan, ghost more: seq<Place>, next: Cursor)
    requires ScanOk(text, shout, prefix, scan) && Reached(l, text, scan, places, cursor)
    requires cursor.start + 1 < end < |text| && Closer(text[cursor.start]) == Some(text[end])
    requires var later := TitlesFrom(l, text, end + 1, Some(end + 1));
             TitlesFrom(l, text, cursor.start, cursor.previousEnd) == Before([Place(cursor.start, end)], later)
    ensures ScanOk(text, shout, prefix, longer) && Reached(l, text, longer, more, next) && next.start > cursor.start
  {
    longer, more := TakePlace(text, shout, prefix, scan, places, Place(cursor.start, end));
    next := Cursor(end + 1, Some(end + 1));
    TitleReached(l, text, scan, places, cursor, end, longer);
  }

  lemma TitleReached(l: Language, text: string, scan: Scan, places: seq<Place>, cursor: Cursor, end: nat, longer: Scan)
    requires Reached(l, text, scan, places, cursor) && cursor.start < end < |text| && longer.copied == end + 1
    requires Masks(text, places + [Place(cursor.start, end)], longer.literals, longer.openers)
    requires var later := TitlesFrom(l, text, end + 1, Some(end + 1));
             TitlesFrom(l, text, cursor.start, cursor.previousEnd) == Before([Place(cursor.start, end)], later)
    ensures Reached(l, text, longer, places + [Place(cursor.start, end)], Cursor(end + 1, Some(end + 1)))
  {
    BeforeBefore(places, [Place(cursor.start, end)], TitlesFrom(l, text, end + 1, Some(end + 1)));
  }

  lemma BeforeEnd(places: seq<Place>)
    ensures Before(places, Some([])) == Some(places)
  {
    assert places + [] == places;
  }

  method Finished(text: string, shout: string, prefix: string, scan: Scan) returns (masking: Masking, tail: string)
    requires ScanOk(text, shout, prefix, scan)
    ensures masking.Masked? && masking.literals == scan.literals
    ensures Restores(text, masking, scan.pieces, scan.openers, tail)
    ensures exists used: nat :: TokensOk(prefix, shout, masking.literals, used)
  {
    tail := text[scan.copied..];
    assert text == text[..scan.copied] + tail;
    masking := Masked(scan.masked + tail, scan.literals);
    assert TokensOk(prefix, shout, masking.literals, scan.used);
  }

  method TakePlace(text: string, shout: string, prefix: string, scan: Scan, ghost places: seq<Place>, place: Place)
    returns (longer: Scan, ghost more: seq<Place>)
    requires ScanOk(text, shout, prefix, scan) && Masks(text, places, scan.literals, scan.openers)
    requires scan.copied <= place.start && place.start + 1 < place.end < |text|
    requires Closer(text[place.start]) == Some(text[place.end])
    ensures ScanOk(text, shout, prefix, longer) && longer.copied == place.end + 1
    ensures more == places + [place] && Masks(text, more, longer.literals, longer.openers)
  {
    longer := TakeTitle(text, shout, prefix, scan, place.start, place.end);
    MasksGrow(text, places, scan, place, longer);
    more := places + [place];
  }

  lemma BeforeNothing(later: Option<seq<Place>>)
    ensures Before([], later) == later
  {
    if later.Some? { assert [] + later.value == later.value; }
  }

  lemma BeforeBefore(first: seq<Place>, second: seq<Place>, later: Option<seq<Place>>)
    ensures Before(first, Before(second, later)) == Before(first + second, later)
  {
    if later.Some? { assert first + (second + later.value) == (first + second) + later.value; }
  }

  /** Every title, in order, is a literal, and nothing else is. */
  ghost predicate Masks(text: string, places: seq<Place>, literals: seq<Literal>, openers: seq<char>) {
    && |places| == |literals| == |openers|
    && forall i :: 0 <= i < |places| ==>
      && places[i].start < places[i].end < |text|
      && openers[i] == text[places[i].start] && literals[i].value == text[places[i].start + 1..places[i].end]
  }

  lemma MasksGrow(text: string, places: seq<Place>, scan: Scan, place: Place, longer: Scan)
    requires Masks(text, places, scan.literals, scan.openers) && place.start < place.end < |text|
    requires longer.openers == scan.openers + [text[place.start]]
    requires |longer.literals| == |scan.literals| + 1 && longer.literals[..|scan.literals|] == scan.literals
    requires longer.literals[|scan.literals|].value == text[place.start + 1..place.end]
    ensures Masks(text, places + [place], longer.literals, longer.openers)
  {
    assert forall i :: 0 <= i < |scan.literals| ==> longer.literals[i] == longer.literals[..|scan.literals|][i];
  }

  /** The scan so far: the masked text, its parts, how far the text is copied and
      which token comes next. */
  datatype Scan = Scan(
    masked: string, pieces: seq<string>, openers: seq<char>, literals: seq<Literal>, copied: nat, used: nat)

  ghost predicate ScanOk(text: string, shout: string, prefix: string, scan: Scan) {
    && Progress(text, scan.copied, scan.pieces, scan.openers, scan.literals)
    && scan.masked == Woven(scan.pieces, Tokens(scan.literals))
    && TokensOk(prefix, shout, scan.literals, scan.used)
  }

  method TakeTitle(text: string, shout: string, prefix: string, scan: Scan, start: nat, end: nat) returns (longer: Scan)
    requires ScanOk(text, shout, prefix, scan) && scan.copied <= start && start + 1 < end < |text|
    requires Closer(text[start]) == Some(text[end])
    ensures ScanOk(text, shout, prefix, longer) && longer.copied == end + 1
    ensures longer.openers == scan.openers + [text[start]]
    ensures |longer.literals| == |scan.literals| + 1 && longer.literals[..|scan.literals|] == scan.literals
    ensures longer.literals[|scan.literals|].value == text[start + 1..end]
  {
    var token, next := FreshToken(shout, prefix, scan.used);
    var piece, literal := text[scan.copied..start], Literal(token, text[start + 1..end]);
    ProgressGrows(text, scan.copied, scan.pieces, scan.openers, scan.literals, start, end, token);
    TokensGrow(prefix, shout, scan.literals, scan.used, literal, next);
    MaskedGrows(scan.pieces, scan.literals, piece, literal);
    longer := Scan(
      scan.masked + piece + token, scan.pieces + [piece], scan.openers + [text[start]], scan.literals + [literal],
      end + 1, next);
  }

  lemma MaskedGrows(pieces: seq<string>, literals: seq<Literal>, piece: string, literal: Literal)
    requires |pieces| == |literals|
    ensures Woven(pieces + [piece], Tokens(literals + [literal]))
         == Woven(pieces, Tokens(literals)) + piece + literal.token
  {
    assert Tokens(literals + [literal]) == Tokens(literals) + [literal.token];
    WovenLater(pieces, Tokens(literals), piece, literal.token);
  }

  /** The masked text is the pieces with the tokens between them; with the quoted
      literals in the tokens' place the same pieces make up the text. */
  ghost predicate Restores(text: string, masking: Masking, pieces: seq<string>, openers: seq<char>, tail: string) {
    && masking.Masked? && |pieces| == |openers| == |masking.literals|
    && (forall i :: 0 <= i < |openers| ==> Closer(openers[i]).Some?)
    && (forall i :: 0 <= i < |masking.literals| ==> masking.literals[i].value != "")
    && masking.text == Woven(pieces, Tokens(masking.literals)) + tail
    && text == Woven(pieces, Quoted(openers, masking.literals)) + tail
  }
}

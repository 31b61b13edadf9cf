/** The serving artifact of a publication: a header line and one line per
    session, compressed and bound by hashes. What is encoded decodes to the same
    rows exactly when no line hides a newline and every row passes the reader. */
module ServingArtifact {
  import opened Listings

  const MAX_SESSIONS: nat := 20_000
  const MAX_LINE: nat := 1024 * 1024
  const MAX_RAW: nat := 128 * 1024 * 1024
  const MAX_GZIP: nat := 32 * 1024 * 1024
  const ROOT_DOMAIN := "biplan-serving-rows-v1\n"

  type Bytes = seq<bv8>

  /** A header's fields; `wellFormed` sums up the format checks on the others. */
  datatype Header = Header(
    publicationId: string, sessionCount: int, offerCount: int, contentRoot: string, wellFormed: bool, rest: string)

  /** A parsed row: its identifier, how many offer terms it pins, whether both are
      of the right type, and whether it passes the reader's further type checks. */
  datatype Row = Row(sessionId: string, offers: nat, shaped: bool, readable: bool, rest: string)

  /** The host's encodings, hashing, compression, JSON parser and text order. */
  datatype Host = Host(
    utf8: string -> Bytes, fromUtf8: Bytes -> Option<string>, gzip: Bytes -> Bytes, gunzip: Bytes -> Option<Bytes>,
    sha: Bytes -> string, parseHeader: string -> Option<Header>, parseRow: string -> Option<Row>,
    after: (string, string) -> bool)

  const HASH: nat := 64

  /** Encodings and compression undo each other. */
  ghost predicate Faithful(host: Host) {
    && (forall t :: host.fromUtf8(host.utf8(t)) == Some(t))
    && (forall b :: host.gunzip(host.gzip(b)) == Some(b))
  }

  /** Every digest has the length of a printed SHA-256 digest. */
  ghost predicate DigestsHaveOneLength(host: Host) {
    forall b :: |host.sha(b)| == HASH
  }

  predicate ValidHeader(h: Header) {
    && h.wellFormed && h.publicationId != "" && 0 <= h.sessionCount <= MAX_SESSIONS && h.offerCount >= 0
    && |h.contentRoot| == HASH
  }

  // ---- lines ----

  /** Every line followed by a newline. */
  function Lines(lines: seq<string>): string {
    if lines == [] then "" else lines[0] + "\n" + Lines(lines[1..])
  }

  /** The parts of a text between its newlines. */
  function Split(text: string): (parts: seq<string>)
    ensures parts != []
  {
    if text == "" then [""]
    else
      var rest := Split(text[1..]);
      if text[0] == '\n' then [""] + rest else [[text[0]] + rest[0]] + rest[1..]
  }

  predicate Plain(line: string) { '\n' !in line }

  function Newlines(text: string): nat {
    if text == "" then 0 else (if text[0] == '\n' then 1 else 0) + Newlines(text[1..])
  }

  lemma {:induction false} PlainHasNoNewlines(line: string)
    ensures Plain(line) <==> Newlines(line) == 0
  {
    if line != "" {
      PlainHasNoNewlines(line[1..]);
      assert line == [line[0]] + line[1..];
    }
  }

  lemma {:induction false} SplitCounts(text: string)
    ensures |Split(text)| == Newlines(text) + 1
  {
    if text != "" { SplitCounts(text[1..]); }
  }

  lemma {:induction false} SplitOfPlain(line: string)
    requires Plain(line)
    ensures Split(line) == [line]
  {
    if line != "" {
      SplitOfPlain(line[1..]);
      assert line == [line[0]] + line[1..];
    }
  }

  lemma {:induction false} SplitFirst(line: string, rest: string)
    requires Plain(line)
    ensures Split(line + "\n" + rest) == [line] + Split(rest)
  {
    var text := line + "\n" + rest;
    if line == "" {
      assert text == "\n" + rest;
      assert text[1..] == rest;
    } else {
      SplitFirst(line[1..], rest);
      assert text[1..] == line[1..] + "\n" + rest;
      assert line == [line[0]] + line[1..];
    }
  }

  lemma {:induction false} NewlinesAdd(left: string, right: string)
    ensures Newlines(left + right) == Newlines(left) + Newlines(right)
  {
    if left == "" {
      assert left + right == right;
    } else {
      assert (left + right)[1..] == left[1..] + right;
      NewlinesAdd(left[1..], right);
    }
  }

  /** A header line and the rows, without the last newline. */
  function Body(header: string, rows: seq<string>): string {
    var text := header + "\n" + Lines(rows);
    text[..|text| - 1]
  }

  lemma {:induction false} BodySplits(header: string, rows: seq<string>)
    requires Plain(header) && forall r :: r in rows ==> Plain(r)
    ensures Split(Body(header, rows)) == [header] + rows
    decreases |rows|
  {
    if rows == [] {
      assert Body(header, rows) == header;
      SplitOfPlain(header);
    } else {
      BodySplits(rows[0], rows[1..]);
      SplitFirst(header, Body(rows[0], rows[1..]));
      assert Body(header, rows) == header + "\n" + Body(rows[0], rows[1..]);
      assert rows == [rows[0]] + rows[1..];
    }
  }

  lemma {:induction false} BodyNewlines(header: string, rows: seq<string>)
    ensures Newlines(Body(header, rows)) >= |rows| + Newlines(header)
    ensures (exists r :: r in rows && !Plain(r)) ==> Newlines(Body(header, rows)) > |rows| + Newlines(header)
    decreases |rows|
  {
    if rows == [] {
      assert Body(header, rows) == header;
    } else {
      BodyNewlines(rows[0], rows[1..]);
      assert Body(header, rows) == header + ("\n" + Body(rows[0], rows[1..]));
      NewlinesAdd(header, "\n" + Body(rows[0], rows[1..]));
      assert ("\n" + Body(rows[0], rows[1..]))[1..] == Body(rows[0], rows[1..]);
      PlainHasNoNewlines(rows[0]);
      assert forall r :: r in rows ==> r == rows[0] || r in rows[1..];
    }
  }

  // ---- the content root ----

  function Joined(hashes: seq<string>): string {
    if hashes == [] then "" else if |hashes| == 1 then hashes[0] else hashes[0] + "\n" + Joined(hashes[1..])
  }

  function Hashes(host: Host, rows: seq<string>): (hashes: seq<string>)
    ensures |hashes| == |rows| && forall i :: 0 <= i < |rows| ==> hashes[i] == host.sha(host.utf8(rows[i]))
  {
    seq(|rows|, i requires 0 <= i < |rows| => host.sha(host.utf8(rows[i])))
  }

  /** The bytes whose digest is the content root. */
  function RootBytes(host: Host, rows: seq<string>): Bytes {
    host.utf8(ROOT_DOMAIN + Joined(Hashes(host, rows)) + if rows != [] then "\n" else "")
  }

  function ContentRoot(host: Host, rows: seq<string>): string {
    host.sha(RootBytes(host, rows))
  }

  /** Joined hashes of the fixed length determine the hashes. */
  lemma {:induction false} JoinedIsInjective(a: seq<string>, b: seq<string>)
    requires forall h :: h in a + b ==> |h| == HASH
    requires Joined(a) + (if a != [] then "\n" else "") == Joined(b) + (if b != [] then "\n" else "")
    ensures a == b
  {
    if a != [] && b != [] {
      JoinedParts(a);
      JoinedParts(b);
      assert a[0] in a + b && b[0] in a + b;
      var whole := Joined(a) + "\n";
      assert a[0] == whole[..HASH] && b[0] == whole[..HASH];
      assert whole[HASH + 1..] == Joined(a[1..]) + (if a[1..] != [] then "\n" else "");
      assert whole[HASH + 1..] == Joined(b[1..]) + (if b[1..] != [] then "\n" else "");
      assert forall h :: h in a[1..] + b[1..] ==> h in a + b;
      JoinedIsInjective(a[1..], b[1..]);
      assert a == [a[0]] + a[1..] && b == [b[0]] + b[1..];
    }
  }

  lemma JoinedParts(hashes: seq<string>)
    requires hashes != []
    ensures Joined(hashes) + "\n" == hashes[0] + "\n" + (Joined(hashes[1..]) + if hashes[1..] != [] then "\n" else "")
  {
    if |hashes| > 1 {
      assert hashes[0] + "\n" + Joined(hashes[1..]) + "\n" == hashes[0] + "\n" + (Joined(hashes[1..]) + "\n");
    }
  }

  /** Two different byte strings with one digest. */
  predicate Collides(host: Host, b: Bytes, c: Bytes) {
    b != c && host.sha(b) == host.sha(c)
  }

  /** The two lists hold a collision: in what their roots digest, or in what the
      rows at one position digest. */
  predicate RowsCollide(host: Host, a: seq<string>, b: seq<string>) {
    || Collides(host, RootBytes(host, a), RootBytes(host, b))
    || (|a| == |b| && exists i :: 0 <= i < |a| && Collides(host, host.utf8(a[i]), host.utf8(b[i])))
  }

  lemma SameRootBytes(host: Host, a: seq<string>, b: seq<string>)
    requires Faithful(host) && DigestsHaveOneLength(host) && RootBytes(host, a) == RootBytes(host, b)
    ensures Hashes(host, a) == Hashes(host, b)
  {
    var left := Joined(Hashes(host, a)) + if a != [] then "\n" else "";
    var right := Joined(Hashes(host, b)) + if b != [] then "\n" else "";
    var wholeA := ROOT_DOMAIN + Joined(Hashes(host, a)) + if a != [] then "\n" else "";
    var wholeB := ROOT_DOMAIN + Joined(Hashes(host, b)) + if b != [] then "\n" else "";
    assert host.fromUtf8(host.utf8(wholeA)) == host.fromUtf8(host.utf8(wholeB));
    assert wholeA == ROOT_DOMAIN + left && wholeB == ROOT_DOMAIN + right;
    assert left == wholeA[|ROOT_DOMAIN|..] && right == wholeB[|ROOT_DOMAIN|..];
    JoinedIsInjective(Hashes(host, a), Hashes(host, b));
  }

  /** Only the digests of the rows enter the root: two lists have one root exactly
      when their rows have the same digests or the root digests collide. */
  lemma RootsAgreeExactly(host: Host, a: seq<string>, b: seq<string>)
    requires Faithful(host) && DigestsHaveOneLength(host)
    ensures ContentRoot(host, a) == ContentRoot(host, b)
       <==> Hashes(host, a) == Hashes(host, b) || Collides(host, RootBytes(host, a), RootBytes(host, b))
  {
    if RootBytes(host, a) == RootBytes(host, b) {
      SameRootBytes(host, a, b);
    } else if Hashes(host, a) == Hashes(host, b) {
      assert |a| == |b|;
    }
  }

  /** One content root, one list of rows: whoever changes, drops, adds or moves a
      row under a published root has found two byte strings with one digest. */
  lemma ContentRootDeterminesRows(host: Host, a: seq<string>, b: seq<string>)
    requires Faithful(host) && DigestsHaveOneLength(host)
    requires ContentRoot(host, a) == ContentRoot(host, b)
    ensures a == b || RowsCollide(host, a, b)
  {
    RootsAgreeExactly(host, a, b);
    if a != b && Hashes(host, a) == Hashes(host, b) {
      assert |a| == |b|;
      var i :| 0 <= i < |a| && a[i] != b[i];
      assert host.sha(host.utf8(a[i])) == Hashes(host, a)[i] == host.sha(host.utf8(b[i]));
      assert host.fromUtf8(host.utf8(a[i])) != host.fromUtf8(host.utf8(b[i]));
    }
  }

  // ---- rows ----

  predicate FitsLine(host: Host, line: string) { |host.utf8(line)| + 1 <= MAX_LINE }

  /** A row that may follow the identifier `prior`; `reading` adds the reader's checks. */
  predicate RowOk(host: Host, line: string, prior: string, reading: bool) {
    var row := host.parseRow(line);
    row.Some? && row.value.shaped && host.after(row.value.sessionId, prior) && (reading ==> row.value.readable)
  }

  /** The identifier before row i. */
  function PriorId(host: Host, rows: seq<string>, i: nat): string
    requires i <= |rows|
  {
    if i == 0 then "" else match host.parseRow(rows[i - 1]) case Some(row) => row.sessionId case None => ""
  }

  predicate RowsOk(host: Host, rows: seq<string>, reading: bool) {
    forall i {:trigger PriorId(host, rows, i)} :: 0 <= i < |rows| ==>
      RowOk(host, rows[i], PriorId(host, rows, i), reading)
  }

  /** The rows before n, parsed; a row that does not parse is left out. */
  function ParsedTo(host: Host, rows: seq<string>, n: nat): seq<Row>
    requires n <= |rows|
  {
    if n == 0 then []
    else ParsedTo(host, rows, n - 1) + match host.parseRow(rows[n - 1]) case Some(row) => [row] case None => []
  }

  /** The offer terms that the rows before n pin. */
  function OffersTo(host: Host, rows: seq<string>, n: nat): nat
    requires n <= |rows|
  {
    if n == 0 then 0
    else OffersTo(host, rows, n - 1) + match host.parseRow(rows[n - 1]) case Some(row) => row.offers case None => 0
  }

  function Parsed(host: Host, rows: seq<string>): seq<Row> { ParsedTo(host, rows, |rows|) }

  function Offers(host: Host, rows: seq<string>): nat { OffersTo(host, rows, |rows|) }

  // ---- encoding ----

  datatype Outcome<T> = Ok(value: T) | Invalid

  datatype Encoded = Encoded(compressed: Bytes, compressedSha: string, uncompressedSha: string, uncompressedBytes: nat)

  function Raw(host: Host, headerText: string, rows: seq<string>): Bytes {
    host.utf8(headerText + "\n" + Lines(rows))
  }

  predicate Describes(host: Host, header: Header, rows: seq<string>) {
    && ValidHeader(header) && header.sessionCount == |rows| && header.offerCount == Offers(host, rows)
    && header.contentRoot == ContentRoot(host, rows)
  }

  predicate Encodable(host: Host, headerText: string, rows: seq<string>) {
    && FitsLine(host, headerText) && (forall i :: 0 <= i < |rows| ==> FitsLine(host, rows[i]))
    && host.parseHeader(headerText).Some? && Describes(host, host.parseHeader(headerText).value, rows)
    && RowsOk(host, rows, false)
    && |Raw(host, headerText, rows)| <= MAX_RAW && |host.gzip(Raw(host, headerText, rows))| <= MAX_GZIP
  }

  /** The first i rows pass. */
  ghost predicate Passed(host: Host, rows: seq<string>, i: nat, reading: bool)
    requires i <= |rows|
  {
    forall k {:trigger PriorId(host, rows, k)} :: 0 <= k < i ==> RowOk(host, rows[k], PriorId(host, rows, k), reading)
  }

  method CheckRows(host: Host, rows: seq<string>, reading: bool) returns (result: Outcome<(seq<Row>, nat)>)
    ensures result == if RowsOk(host, rows, reading) then Ok((Parsed(host, rows), Offers(host, rows))) else Invalid
  {
    var prior: string, offers: nat, sessions: seq<Row> := "", 0, [];
    for i := 0 to |rows|
      invariant Passed(host, rows, i, reading) && prior == PriorId(host, rows, i)
      invariant offers == OffersTo(host, rows, i) && sessions == ParsedTo(host, rows, i)
    {
      var row := host.parseRow(rows[i]);
      if row.None? || !row.value.shaped || !host.after(row.value.sessionId, prior) || (reading && !row.value.readable) {
        FailedRow(host, rows, i, reading);
        return Invalid;
      }
      prior, offers, sessions := row.value.sessionId, offers + row.value.offers, sessions + [row.value];
    }
    return Ok((sessions, offers));
  }

  lemma FailedRow(host: Host, rows: seq<string>, i: nat, reading: bool)
    requires i < |rows| && !RowOk(host, rows[i], PriorId(host, rows, i), reading)
    ensures !RowsOk(host, rows, reading)
  {
  }

  method Encode(host: Host, headerText: string, rows: seq<string>) returns (result: Outcome<Encoded>)
    ensures result.Ok? <==> Encodable(host, headerText, rows)
    ensures result.Ok? ==>
      var raw := Raw(host, headerText, rows);
      result.value == Encoded(host.gzip(raw), host.sha(host.gzip(raw)), host.sha(raw), |raw|)
  {
    if !FitsLine(host, headerText) || |rows| > MAX_SESSIONS { return Invalid; }
    if exists i :: 0 <= i < |rows| && !FitsLine(host, rows[i]) { return Invalid; }
    var header := host.parseHeader(headerText);
    if header.None? || !ValidHeader(header.value) { return Invalid; }
    var checked := CheckRows(host, rows, false);
    if checked.Invalid? { return Invalid; }
    if header.value.sessionCount != |rows| || header.value.offerCount != checked.value.1
      || header.value.contentRoot != ContentRoot(host, rows) {
      return Invalid;
    }
    var raw := Raw(host, headerText, rows);
    if |raw| > MAX_RAW { return Invalid; }
    var compressed := host.gzip(raw);
    if |compressed| > MAX_GZIP { return Invalid; }
    return Ok(Encoded(compressed, host.sha(compressed), host.sha(raw), |raw|));
  }

  // ---- decoding ----

  /** What a reader pins; `wellFormed` sums up the format checks on its other fields. */
  datatype Binding = Binding(
    headerText: string, header: Header, contentRoot: string, compressedSha: string, uncompressedSha: string,
    compressedBytes: int, uncompressedBytes: int, wellFormed: bool)

  datatype Publication = Publication(header: Header, sessions: seq<Row>)

  predicate BindingOk(host: Host, b: Binding, compressed: Bytes) {
    && ValidHeader(b.header) && b.wellFormed && 0 <= b.compressedBytes <= MAX_GZIP
    && 0 <= b.uncompressedBytes <= MAX_RAW
    && |compressed| == b.compressedBytes && host.sha(compressed) == b.compressedSha
  }

  /** The text of an artifact whose bytes are the ones bound. */
  function BoundText(host: Host, b: Binding, compressed: Bytes): Option<string> {
    match host.gunzip(compressed)
    case None => None
    case Some(raw) =>
      if |raw| != b.uncompressedBytes || host.sha(raw) != b.uncompressedSha then None else host.fromUtf8(raw)
  }

  predicate LinesOk(host: Host, b: Binding, lines: seq<string>) {
    && lines != [] && lines[0] == b.headerText && (forall i :: 0 <= i < |lines| ==> FitsLine(host, lines[i]))
    && host.parseHeader(lines[0]) == Some(b.header) && b.header.contentRoot == b.contentRoot
    && Describes(host, b.header, lines[1..]) && RowsOk(host, lines[1..], true)
  }

  predicate EndsWithNewline(text: string) { text != "" && text[|text| - 1] == '\n' }

  predicate Decodable(host: Host, b: Binding, compressed: Bytes) {
    && BindingOk(host, b, compressed) && BoundText(host, b, compressed).Some?
    && var text := BoundText(host, b, compressed).value;
       EndsWithNewline(text) && LinesOk(host, b, Split(text[..|text| - 1]))
  }

  function RowTexts(host: Host, b: Binding, compressed: Bytes): seq<string>
    requires Decodable(host, b, compressed)
  {
    var text := BoundText(host, b, compressed).value;
    Split(text[..|text| - 1])[1..]
  }

  method Decode(host: Host, b: Binding, compressed: Bytes) returns (result: Outcome<Publication>)
    ensures result.Ok? <==> Decodable(host, b, compressed)
    ensures result.Ok? ==> result.value == Publication(b.header, Parsed(host, RowTexts(host, b, compressed)))
  {
    if !BindingOk(host, b, compressed) { return Invalid; }
    var text := BoundText(host, b, compressed);
    if text.None? || !EndsWithNewline(text.value) { return Invalid; }
    var lines := Split(text.value[..|text.value| - 1]);
    if lines[0] != b.headerText { return Invalid; }
    if exists i :: 0 <= i < |lines| && !FitsLine(host, lines[i]) { return Invalid; }
    var header := host.parseHeader(lines[0]);
    if header.None? || !ValidHeader(header.value) || header.value != b.header { return Invalid; }
    var rows := lines[1..];
    if b.header.contentRoot != b.contentRoot || |rows| != b.header.sessionCount { return Invalid; }
    if ContentRoot(host, rows) != b.header.contentRoot { return Invalid; }
    var checked := CheckRows(host, rows, true);
    if checked.Invalid? || checked.value.1 != b.header.offerCount { return Invalid; }
    return Ok(Publication(b.header, checked.value.0));
  }

  // ---- round trip ----

  function OwnBinding(host: Host, headerText: string, rows: seq<string>): Binding
    requires Encodable(host, headerText, rows)
  {
    var header := host.parseHeader(headerText).value;
    var raw := Raw(host, headerText, rows);
    var compressed := host.gzip(raw);
    Binding(headerText, header, header.contentRoot, host.sha(compressed), host.sha(raw), |compressed|, |raw|, true)
  }

  predicate AllReadable(host: Host, rows: seq<string>) {
    forall i :: 0 <= i < |rows| ==> host.parseRow(rows[i]).Some? && host.parseRow(rows[i]).value.readable
  }

  /** The bytes are bound, and their text is the body and a newline. */
  ghost predicate BindsBody(host: Host, b: Binding, compressed: Bytes, body: string) {
    && BindingOk(host, b, compressed) && BoundText(host, b, compressed).Some?
    && var text := BoundText(host, b, compressed).value;
       EndsWithNewline(text) && text[..|text| - 1] == body
  }

  lemma OwnText(host: Host, headerText: string, rows: seq<string>)
    requires Faithful(host) && Encodable(host, headerText, rows)
    ensures BindsBody(host, OwnBinding(host, headerText, rows), host.gzip(Raw(host, headerText, rows)),
      Body(headerText, rows))
  {
    LinesEnd(headerText, rows);
  }

  lemma {:induction false} LinesEnd(header: string, rows: seq<string>)
    ensures EndsWithNewline(header + "\n" + Lines(rows))
    decreases |rows|
  {
    if rows != [] {
      LinesEnd(rows[0], rows[1..]);
      assert header + "\n" + Lines(rows) == (header + "\n") + (rows[0] + "\n" + Lines(rows[1..]));
    }
  }

  lemma DecodableBody(host: Host, b: Binding, compressed: Bytes, body: string)
    requires BindsBody(host, b, compressed, body)
    ensures Decodable(host, b, compressed) <==> LinesOk(host, b, Split(body))
    ensures Decodable(host, b, compressed) ==> RowTexts(host, b, compressed) == Split(body)[1..]
  {
  }

  /** What was encoded can be read back under its own binding exactly when no line
      hides a newline and every row passes the reader. */
  lemma RoundTrip(host: Host, headerText: string, rows: seq<string>)
    requires Faithful(host) && Encodable(host, headerText, rows)
    ensures Decodable(host, OwnBinding(host, headerText, rows), host.gzip(Raw(host, headerText, rows)))
       <==> Plain(headerText) && (forall r :: r in rows ==> Plain(r)) && AllReadable(host, rows)
  {
    var b, compressed := OwnBinding(host, headerText, rows), host.gzip(Raw(host, headerText, rows));
    OwnText(host, headerText, rows);
    DecodableBody(host, b, compressed, Body(headerText, rows));
    LinesRoundTrip(host, headerText, rows);
  }

  /** And then exactly the rows encoded come back. */
  lemma RoundTripRows(host: Host, headerText: string, rows: seq<string>)
    requires Faithful(host) && Encodable(host, headerText, rows)
    requires Decodable(host, OwnBinding(host, headerText, rows), host.gzip(Raw(host, headerText, rows)))
    ensures RowTexts(host, OwnBinding(host, headerText, rows), host.gzip(Raw(host, headerText, rows))) == rows
  {
    var b, compressed := OwnBinding(host, headerText, rows), host.gzip(Raw(host, headerText, rows));
    RoundTrip(host, headerText, rows);
    OwnText(host, headerText, rows);
    DecodableBody(host, b, compressed, Body(headerText, rows));
    BodyRows(headerText, rows);
  }

  lemma BodyRows(headerText: string, rows: seq<string>)
    requires Plain(headerText) && forall r :: r in rows ==> Plain(r)
    ensures Split(Body(headerText, rows))[1..] == rows
  {
    BodySplits(headerText, rows);
    assert ([headerText] + rows)[1..] == rows;
  }

  lemma OwnLines(host: Host, headerText: string, rows: seq<string>)
    requires Encodable(host, headerText, rows)
    ensures LinesOk(host, OwnBinding(host, headerText, rows), [headerText] + rows) <==> AllReadable(host, rows)
  {
    var lines := [headerText] + rows;
    assert lines[1..] == rows;
    ReadableRows(host, rows);
    assert forall i :: 0 <= i < |rows| ==> FitsLine(host, rows[i]);
  }

  lemma TooManyLines(host: Host, headerText: string, rows: seq<string>, lines: seq<string>)
    requires Encodable(host, headerText, rows) && |lines| > |rows| + 1
    ensures !LinesOk(host, OwnBinding(host, headerText, rows), lines)
  {
  }

  lemma LinesRoundTrip(host: Host, headerText: string, rows: seq<string>)
    requires Encodable(host, headerText, rows)
    ensures LinesOk(host, OwnBinding(host, headerText, rows), Split(Body(headerText, rows)))
       <==> Plain(headerText) && (forall r :: r in rows ==> Plain(r)) && AllReadable(host, rows)
  {
    if Plain(headerText) && forall r :: r in rows ==> Plain(r) {
      BodySplits(headerText, rows);
      OwnLines(host, headerText, rows);
    } else {
      HiddenNewlinesShow(headerText, rows);
      TooManyLines(host, headerText, rows, Split(Body(headerText, rows)));
    }
  }

  /** A newline inside a line makes one line too many. */
  lemma HiddenNewlinesShow(headerText: string, rows: seq<string>)
    requires !(Plain(headerText) && forall r :: r in rows ==> Plain(r))
    ensures |Split(Body(headerText, rows))| > |rows| + 1
  {
    SplitCounts(Body(headerText, rows));
    BodyNewlines(headerText, rows);
    PlainHasNoNewlines(headerText);
  }

  lemma ReadableRows(host: Host, rows: seq<string>)
    ensures RowsOk(host, rows, true) <==> RowsOk(host, rows, false) && AllReadable(host, rows)
  {
    forall i | 0 <= i < |rows|
      ensures RowOk(host, rows[i], PriorId(host, rows, i), true) <==>
        RowOk(host, rows[i], PriorId(host, rows, i), false) && host.parseRow(rows[i]).Some?
          && host.parseRow(rows[i]).value.readable
    {
    }
    if RowsOk(host, rows, true) {
      forall i | 0 <= i < |rows| ensures RowOk(host, rows[i], PriorId(host, rows, i), false) {
        assert RowOk(host, rows[i], PriorId(host, rows, i), true);
      }
    }
  }

  /** The offer terms pinned by parsed rows. */
  function OfferTotal(sessions: seq<Row>): nat {
    if sessions == [] then 0 else OfferTotal(sessions[..|sessions| - 1]) + sessions[|sessions| - 1].offers
  }

  lemma OneMoreOffer(sessions: seq<Row>, row: Row)
    ensures OfferTotal(sessions + [row]) == OfferTotal(sessions) + row.offers
  {
    assert (sessions + [row])[..|sessions|] == sessions;
  }

  /** One session for each row, holding what the row parses to. */
  ghost predicate ParsesTo(host: Host, rows: seq<string>, n: nat, sessions: seq<Row>)
    requires n <= |rows|
  {
    |sessions| == n && forall i :: 0 <= i < n ==> host.parseRow(rows[i]) == Some(sessions[i])
  }

  lemma ParsesToNext(host: Host, rows: seq<string>, n: nat, before: seq<Row>, row: Row)
    requires 0 < n <= |rows| && ParsesTo(host, rows, n - 1, before) && host.parseRow(rows[n - 1]) == Some(row)
    ensures ParsesTo(host, rows, n, before + [row])
  {
  }

  lemma {:induction false} ParsedExactly(host: Host, rows: seq<string>, n: nat)
    requires n <= |rows| && forall i :: 0 <= i < n ==> host.parseRow(rows[i]).Some?
    ensures ParsesTo(host, rows, n, ParsedTo(host, rows, n))
  {
    if n > 0 {
      ParsedExactly(host, rows, n - 1);
      ParsesToNext(host, rows, n, ParsedTo(host, rows, n - 1), host.parseRow(rows[n - 1]).value);
    }
  }

  lemma {:induction false} OffersExactly(host: Host, rows: seq<string>, n: nat)
    requires n <= |rows| && forall i :: 0 <= i < n ==> host.parseRow(rows[i]).Some?
    ensures OfferTotal(ParsedTo(host, rows, n)) == OffersTo(host, rows, n)
  {
    if n > 0 {
      OffersExactly(host, rows, n - 1);
      OneMoreOffer(ParsedTo(host, rows, n - 1), host.parseRow(rows[n - 1]).value);
    }
  }

  /** Every accepted artifact, of any number of rows, publishes one session for
      each of its rows, as many sessions and offers as its header says, and rows
      with the content root it is bound to. */
  lemma AcceptedMatchesHeader(host: Host, b: Binding, compressed: Bytes)
    requires Decodable(host, b, compressed)
    ensures var rows, sessions := RowTexts(host, b, compressed), Parsed(host, RowTexts(host, b, compressed));
            && |rows| == b.header.sessionCount && ParsesTo(host, rows, |rows|, sessions)
            && OfferTotal(sessions) == b.header.offerCount
            && ContentRoot(host, rows) == b.contentRoot
  {
    var rows := RowTexts(host, b, compressed);
    forall i | 0 <= i < |rows| ensures host.parseRow(rows[i]).Some? {
      assert RowOk(host, rows[i], PriorId(host, rows, i), true);
    }
    ParsedExactly(host, rows, |rows|);
    OffersExactly(host, rows, |rows|);
  }

  /** And the published identifiers strictly increase. */
  lemma AcceptedIsOrdered(host: Host, b: Binding, compressed: Bytes, i: nat, j: nat)
    requires Decodable(host, b, compressed) && i < j < b.header.sessionCount
    requires forall x, y, z :: host.after(x, y) && host.after(y, z) ==> host.after(x, z)
    ensures var sessions := Parsed(host, RowTexts(host, b, compressed));
            |sessions| == b.header.sessionCount && host.after(sessions[j].sessionId, sessions[i].sessionId)
  {
    var rows := RowTexts(host, b, compressed);
    AcceptedMatchesHeader(host, b, compressed);
    RowsAreOrdered(host, rows, i, j);
    assert PriorId(host, rows, i + 1) == Parsed(host, rows)[i].sessionId;
    assert PriorId(host, rows, j + 1) == Parsed(host, rows)[j].sessionId;
  }

  lemma {:induction false} RowsAreOrdered(host: Host, rows: seq<string>, i: nat, j: nat)
    requires RowsOk(host, rows, true) && i < j < |rows|
    requires forall x, y, z :: host.after(x, y) && host.after(y, z) ==> host.after(x, z)
    ensures host.after(PriorId(host, rows, j + 1), PriorId(host, rows, i + 1))
    decreases j
  {
    var here, before, first := PriorId(host, rows, j + 1), PriorId(host, rows, j), PriorId(host, rows, i + 1);
    assert RowOk(host, rows[j], before, true);
    assert host.after(here, before);
    if i + 1 < j {
      RowsAreOrdered(host, rows, i, j - 1);
      assert host.after(before, first);
    }
  }

  /** Two artifacts accepted under one content root hold the same rows, or the
      rows exhibit a collision of the digest. */
  lemma AcceptedUnderOneRootIsOne(host: Host, b: Binding, compressed: Bytes, c: Binding, other: Bytes)
    requires Faithful(host) && DigestsHaveOneLength(host)
    requires Decodable(host, b, compressed) && Decodable(host, c, other) && b.contentRoot == c.contentRoot
    ensures var rows, others := RowTexts(host, b, compressed), RowTexts(host, c, other);
            rows == others || RowsCollide(host, rows, others)
  {
    ContentRootDeterminesRows(host, RowTexts(host, b, compressed), RowTexts(host, c, other));
  }

  // ---- the assumptions can be met ----

  /** One text form that can be read back: each character in unary. */
  function Unary(text: string): Bytes {
    if text == "" then [] else seq(text[0] as int, _ => 1) + [0] + Unary(text[1..])
  }

  lemma UnaryHead(text: string)
    requires text != ""
    ensures var n := text[0] as int;
      && n < |Unary(text)| && Unary(text)[n] == 0 && (forall k :: 0 <= k < n ==> Unary(text)[k] == 1)
      && Unary(text)[n + 1..] == Unary(text[1..])
  {
  }

  lemma {:induction false} UnaryIsInjective(a: string, b: string)
    requires Unary(a) == Unary(b)
    ensures a == b
  {
    if a != "" && b != "" {
      UnaryHead(a);
      UnaryHead(b);
      SameHead(Unary(a), a[0] as int, b[0] as int);
      UnaryIsInjective(a[1..], b[1..]);
      assert a == [a[0]] + a[1..] && b == [b[0]] + b[1..];
    }
  }

  lemma SameHead(bytes: Bytes, m: nat, n: nat)
    requires m < |bytes| && bytes[m] == 0 && forall k :: 0 <= k < m ==> bytes[k] == 1
    requires n < |bytes| && bytes[n] == 0 && forall k :: 0 <= k < n ==> bytes[k] == 1
    ensures m == n
  {
  }

  /** Reads back what Unary wrote. */
  ghost function Reading(bytes: Bytes): Option<string> {
    if t :| Unary(t) == bytes then Some(t) else None
  }

  lemma ReadingUndoesUnary(text: string)
    ensures Reading(Unary(text)) == Some(text)
  {
    assert Unary(text) == Unary(text);
    UnaryIsInjective(Reading(Unary(text)).value, text);
  }

  ghost function UnaryHost(): Host {
    Host(Unary, b => Reading(b), b => b, b => Some(b), _ => seq(HASH, _ => '0'), _ => None, _ => None, (_, _) => false)
  }

  lemma UnaryHostIsFaithful()
    ensures Faithful(UnaryHost())
  {
    var host := UnaryHost();
    forall t ensures host.fromUtf8(host.utf8(t)) == Some(t) {
      ReadingUndoesUnary(t);
    }
    forall b ensures host.gunzip(host.gzip(b)) == Some(b) {
    }
  }

  lemma UnaryHostHashes()
    ensures DigestsHaveOneLength(UnaryHost())
  {
    forall b ensures |UnaryHost().sha(b)| == HASH {
    }
  }

  /** Hosts as assumed above exist. */
  lemma SomeHostIsFaithful()
    ensures exists host :: Faithful(host) && DigestsHaveOneLength(host)
  {
    UnaryHostIsFaithful();
    UnaryHostHashes();
  }
}

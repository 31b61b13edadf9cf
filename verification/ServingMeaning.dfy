/** Which artifacts are written and read, said of their text: a header line and
    one line per session, each ended by a newline. */
module ServingMeaning {
  import opened Listings
  import opened ServingArtifact

  // ---- the text and its content root ----

  /** The first n lines, each ended by a newline. */
  ghost function Ended(lines: seq<string>, n: nat): string
    requires n <= |lines|
  {
    if n == 0 then "" else Ended(lines, n - 1) + lines[n - 1] + "\n"
  }

  ghost function Text(headerText: string, rows: seq<string>): string {
    headerText + "\n" + Ended(rows, |rows|)
  }

  /** The root is the digest of the name of the scheme and the digests of the rows. */
  ghost predicate HasRoot(host: Host, rows: seq<string>, root: string) {
    exists digests :: DigestsOf(host, rows, digests)
      && root == host.sha(host.utf8("biplan-serving-rows-v1\n" + Ended(digests, |digests|)))
  }

  ghost predicate DigestsOf(host: Host, rows: seq<string>, digests: seq<string>) {
    |digests| == |rows| && forall i :: 0 <= i < |rows| ==> digests[i] == host.sha(host.utf8(rows[i]))
  }

  lemma {:induction false} LinesAppend(left: seq<string>, last: string)
    ensures Lines(left + [last]) == Lines(left) + last + "\n"
  {
    if left == [] {
      assert [last][1..] == [] && left + [last] == [last];
    } else {
      assert (left + [last])[1..] == left[1..] + [last];
      LinesAppend(left[1..], last);
      assert left[0] + "\n" + (Lines(left[1..]) + last + "\n") == left[0] + "\n" + Lines(left[1..]) + last + "\n";
    }
  }

  lemma {:induction false} EndedIsLines(lines: seq<string>, n: nat)
    requires n <= |lines|
    ensures Ended(lines, n) == Lines(lines[..n])
  {
    if n > 0 {
      EndedIsLines(lines, n - 1);
      LinesAppend(lines[..n - 1], lines[n - 1]);
      assert lines[..n] == lines[..n - 1] + [lines[n - 1]];
    }
  }

  lemma {:induction false} JoinedIsLines(hashes: seq<string>)
    ensures Joined(hashes) + (if hashes != [] then "\n" else "") == Lines(hashes)
  {
    if hashes != [] {
      JoinedIsLines(hashes[1..]);
      JoinedParts(hashes);
    }
  }

  lemma RootByText(host: Host, rows: seq<string>, root: string)
    ensures root == ContentRoot(host, rows) <==> HasRoot(host, rows, root)
  {
    var digests := Hashes(host, rows);
    EndedIsLines(digests, |digests|);
    assert digests[..|digests|] == digests;
    JoinedIsLines(digests);
    var end := if rows != [] then "\n" else "";
    assert ROOT_DOMAIN + Joined(digests) + end == ROOT_DOMAIN + (Joined(digests) + end);
    assert DigestsOf(host, rows, digests);
    forall other | DigestsOf(host, rows, other) ensures other == digests {
    }
  }

  lemma TextByLines(headerText: string, rows: seq<string>)
    ensures Text(headerText, rows) == headerText + "\n" + Lines(rows)
  {
    EndedIsLines(rows, |rows|);
    assert rows[..|rows|] == rows;
  }

  // ---- rows and header ----

  /** The rows parse to these, which have the right types, ascend and, where asked,
      pass the reader. */
  ghost predicate RowsParse(host: Host, rows: seq<string>, parsed: seq<Row>, reading: bool) {
    && |parsed| == |rows|
    && (forall i :: 0 <= i < |rows| ==>
          host.parseRow(rows[i]) == Some(parsed[i]) && parsed[i].shaped && (reading ==> parsed[i].readable))
    && (rows != [] ==> host.after(parsed[0].sessionId, ""))
    && (forall i, j :: 0 <= i && i + 1 == j < |rows| ==> host.after(parsed[j].sessionId, parsed[i].sessionId))
  }

  ghost predicate Heads(host: Host, header: Header, rows: seq<string>, parsed: seq<Row>) {
    && header.wellFormed && header.publicationId != ""
    && header.sessionCount == |rows| && |rows| <= 20_000 && header.offerCount == OfferTotal(parsed)
    && |header.contentRoot| == 64 && HasRoot(host, rows, header.contentRoot)
  }

  /** With its newline a line has at most a mebibyte. */
  predicate SmallLines(host: Host, headerText: string, rows: seq<string>) {
    |host.utf8(headerText)| < 1_048_576 && forall r :: r in rows ==> |host.utf8(r)| < 1_048_576
  }

  lemma RowsParseMeansOk(host: Host, rows: seq<string>, parsed: seq<Row>, reading: bool)
    requires RowsParse(host, rows, parsed, reading)
    ensures RowsOk(host, rows, reading) && Parsed(host, rows) == parsed
  {
    forall i | 0 <= i < |rows| ensures RowOk(host, rows[i], PriorId(host, rows, i), reading) {
      if i > 0 { assert host.parseRow(rows[i - 1]) == Some(parsed[i - 1]); }
    }
    ParsedExactly(host, rows, |rows|);
    assert ParsesTo(host, rows, |rows|, Parsed(host, rows));
  }

  lemma OkMeansRowsParse(host: Host, rows: seq<string>, reading: bool)
    requires RowsOk(host, rows, reading)
    ensures RowsParse(host, rows, Parsed(host, rows), reading)
    ensures OfferTotal(Parsed(host, rows)) == Offers(host, rows)
  {
    forall i | 0 <= i < |rows|
      ensures host.parseRow(rows[i]).Some? && host.parseRow(rows[i]).value.shaped
      ensures reading ==> host.parseRow(rows[i]).value.readable
    {
      assert RowOk(host, rows[i], PriorId(host, rows, i), reading);
    }
    ParsedExactly(host, rows, |rows|);
    OffersExactly(host, rows, |rows|);
    var parsed := Parsed(host, rows);
    assert ParsesTo(host, rows, |rows|, parsed);
    RowsAscend(host, rows, parsed, reading);
  }

  lemma RowsAscend(host: Host, rows: seq<string>, parsed: seq<Row>, reading: bool)
    requires RowsOk(host, rows, reading) && ParsesTo(host, rows, |rows|, parsed)
    ensures rows != [] ==> host.after(parsed[0].sessionId, "")
    ensures forall i, j :: 0 <= i && i + 1 == j < |rows| ==> host.after(parsed[j].sessionId, parsed[i].sessionId)
  {
    if rows != [] { assert RowOk(host, rows[0], PriorId(host, rows, 0), reading); }
    forall i, j | 0 <= i && i + 1 == j < |rows| ensures host.after(parsed[j].sessionId, parsed[i].sessionId) {
      assert RowOk(host, rows[j], PriorId(host, rows, j), reading);
    }
  }

  lemma DescribedByText(host: Host, header: Header, rows: seq<string>, reading: bool)
    ensures Describes(host, header, rows) && RowsOk(host, rows, reading) <==>
      exists parsed :: RowsParse(host, rows, parsed, reading) && Heads(host, header, rows, parsed)
  {
    RootByText(host, rows, header.contentRoot);
    if Describes(host, header, rows) && RowsOk(host, rows, reading) {
      OkMeansRowsParse(host, rows, reading);
      assert Heads(host, header, rows, Parsed(host, rows));
    }
    forall parsed | RowsParse(host, rows, parsed, reading) && Heads(host, header, rows, parsed)
      ensures Describes(host, header, rows) && RowsOk(host, rows, reading)
    {
      RowsParseMeansOk(host, rows, parsed, reading);
      OkMeansRowsParse(host, rows, reading);
    }
  }

  lemma SmallByBytes(host: Host, headerText: string, rows: seq<string>)
    ensures SmallLines(host, headerText, rows) <==>
      FitsLine(host, headerText) && forall i :: 0 <= i < |rows| ==> FitsLine(host, rows[i])
  {
    assert forall i :: 0 <= i < |rows| ==> rows[i] in rows;
  }

  // ---- writing ----

  /** The text may be written: its lines are small, its header describes its rows,
      and it is within the limits before and after compression. */
  ghost predicate Writes(host: Host, headerText: string, rows: seq<string>, header: Header, parsed: seq<Row>) {
    && SmallLines(host, headerText, rows) && host.parseHeader(headerText) == Some(header)
    && RowsParse(host, rows, parsed, false) && Heads(host, header, rows, parsed)
    && |host.utf8(Text(headerText, rows))| <= 134_217_728
    && |host.gzip(host.utf8(Text(headerText, rows)))| <= 33_554_432
  }

  /** An artifact is written exactly when its text allows it, and then it is that
      text, compressed. */
  lemma EncodableByText(host: Host, headerText: string, rows: seq<string>)
    ensures Encodable(host, headerText, rows) <==>
      exists header, parsed :: Writes(host, headerText, rows, header, parsed)
    ensures Raw(host, headerText, rows) == host.utf8(Text(headerText, rows))
  {
    TextByLines(headerText, rows);
    SmallByBytes(host, headerText, rows);
    if Encodable(host, headerText, rows) {
      var header := host.parseHeader(headerText).value;
      DescribedByText(host, header, rows, false);
      var parsed :| RowsParse(host, rows, parsed, false) && Heads(host, header, rows, parsed);
      assert Writes(host, headerText, rows, header, parsed);
    }
    forall header, parsed | Writes(host, headerText, rows, header, parsed) ensures Encodable(host, headerText, rows) {
      DescribedByText(host, header, rows, false);
    }
  }

  // ---- reading ----

  ghost predicate Bound(host: Host, b: Binding, compressed: Bytes, text: string) {
    && b.wellFormed && |compressed| == b.compressedBytes <= 33_554_432 && host.sha(compressed) == b.compressedSha
    && exists raw :: host.gunzip(compressed) == Some(raw) && |raw| == b.uncompressedBytes <= 134_217_728
         && host.sha(raw) == b.uncompressedSha && host.fromUtf8(raw) == Some(text)
  }

  /** The bytes are the ones bound and hold the bound header line and these rows,
      one to a line, which the header describes and the reader can use. */
  ghost predicate Reads(host: Host, b: Binding, compressed: Bytes, rows: seq<string>, parsed: seq<Row>) {
    && Bound(host, b, compressed, Text(b.headerText, rows))
    && '\n' !in b.headerText && (forall r :: r in rows ==> '\n' !in r)
    && SmallLines(host, b.headerText, rows) && host.parseHeader(b.headerText) == Some(b.header)
    && b.header.contentRoot == b.contentRoot
    && RowsParse(host, rows, parsed, true) && Heads(host, b.header, rows, parsed)
  }

  lemma {:induction false} SplitIsPlain(body: string)
    ensures forall i :: 0 <= i < |Split(body)| ==> '\n' !in Split(body)[i]
  {
    if body != "" { SplitIsPlain(body[1..]); }
  }

  lemma {:induction false} SplitJoins(body: string)
    ensures Lines(Split(body)) == body + "\n"
  {
    if body != "" {
      SplitJoins(body[1..]);
      var rest := Split(body[1..]);
      assert body == [body[0]] + body[1..];
      if body[0] == '\n' {
        assert ([""] + rest)[1..] == rest;
      } else {
        assert ([[body[0]] + rest[0]] + rest[1..])[1..] == rest[1..];
        assert Lines(rest) == rest[0] + "\n" + Lines(rest[1..]);
        assert [body[0]] + rest[0] + "\n" + Lines(rest[1..]) == [body[0]] + (rest[0] + "\n" + Lines(rest[1..]));
      }
    }
  }

  /** A text that ends with a newline is its parts, each ended by one. */
  lemma TextOfParts(text: string)
    requires EndsWithNewline(text)
    ensures var parts := Split(text[..|text| - 1]); text == Text(parts[0], parts[1..])
  {
    var parts := Split(text[..|text| - 1]);
    SplitJoins(text[..|text| - 1]);
    TextByLines(parts[0], parts[1..]);
  }

  lemma PartsOfText(headerText: string, rows: seq<string>)
    requires '\n' !in headerText && forall r :: r in rows ==> '\n' !in r
    ensures var text := Text(headerText, rows);
      EndsWithNewline(text) && Split(text[..|text| - 1]) == [headerText] + rows
  {
    TextByLines(headerText, rows);
    LinesEnd(headerText, rows);
    BodySplits(headerText, rows);
  }

  lemma BoundByFields(host: Host, b: Binding, compressed: Bytes, text: string)
    requires ValidHeader(b.header)
    ensures Bound(host, b, compressed, text) <==>
      BindingOk(host, b, compressed) && BoundText(host, b, compressed) == Some(text)
  {
  }

  lemma LinesAreSmall(host: Host, headerText: string, rows: seq<string>, lines: seq<string>)
    requires lines == [headerText] + rows
    ensures SmallLines(host, headerText, rows) <==> forall i :: 0 <= i < |lines| ==> FitsLine(host, lines[i])
  {
    if SmallLines(host, headerText, rows) {
      forall i | 0 <= i < |lines| ensures FitsLine(host, lines[i]) {
        if i > 0 { assert lines[i] == rows[i - 1] && rows[i - 1] in rows; }
      }
    }
    if forall i :: 0 <= i < |lines| ==> FitsLine(host, lines[i]) {
      assert FitsLine(host, lines[0]);
      forall r | r in rows ensures |host.utf8(r)| < 1_048_576 {
        var k :| 0 <= k < |rows| && rows[k] == r;
        assert FitsLine(host, lines[k + 1]);
      }
    }
  }

  lemma LinesByRows(host: Host, b: Binding, rows: seq<string>)
    ensures LinesOk(host, b, [b.headerText] + rows) <==>
      SmallLines(host, b.headerText, rows) && host.parseHeader(b.headerText) == Some(b.header)
      && b.header.contentRoot == b.contentRoot && Describes(host, b.header, rows) && RowsOk(host, rows, true)
  {
    var lines := [b.headerText] + rows;
    assert lines[1..] == rows;
    LinesAreSmall(host, b.headerText, rows, lines);
  }

  lemma PartsAreLines(text: string)
    requires EndsWithNewline(text)
    ensures var parts := Split(text[..|text| - 1]);
      && text == Text(parts[0], parts[1..]) && '\n' !in parts[0] && (forall r :: r in parts[1..] ==> '\n' !in r)
      && parts == [parts[0]] + parts[1..]
  {
    var parts := Split(text[..|text| - 1]);
    TextOfParts(text);
    SplitIsPlain(text[..|text| - 1]);
    forall r | r in parts[1..] ensures '\n' !in r {
      var i :| 0 <= i < |parts[1..]| && parts[1..][i] == r;
      assert parts[i + 1] == r;
    }
  }

  /** What is asked of the rows of a text, without the bytes. */
  ghost predicate ReadsRows(host: Host, b: Binding, rows: seq<string>, parsed: seq<Row>) {
    && SmallLines(host, b.headerText, rows) && host.parseHeader(b.headerText) == Some(b.header)
    && b.header.contentRoot == b.contentRoot
    && RowsParse(host, rows, parsed, true) && Heads(host, b.header, rows, parsed)
  }

  lemma LinesReadRows(host: Host, b: Binding, rows: seq<string>)
    ensures LinesOk(host, b, [b.headerText] + rows) ==> ReadsRows(host, b, rows, Parsed(host, rows))
    ensures forall parsed :: ReadsRows(host, b, rows, parsed) ==>
      LinesOk(host, b, [b.headerText] + rows) && Parsed(host, rows) == parsed
  {
    LinesByRows(host, b, rows);
    DescribedByText(host, b.header, rows, true);
    if LinesOk(host, b, [b.headerText] + rows) {
      var parsed :| RowsParse(host, rows, parsed, true) && Heads(host, b.header, rows, parsed);
      RowsParseMeansOk(host, rows, parsed, true);
    }
    forall parsed | ReadsRows(host, b, rows, parsed)
      ensures LinesOk(host, b, [b.headerText] + rows) && Parsed(host, rows) == parsed
    {
      RowsParseMeansOk(host, rows, parsed, true);
    }
  }

  lemma DecodableReads(host: Host, b: Binding, compressed: Bytes)
    requires Decodable(host, b, compressed)
    ensures Reads(host, b, compressed, RowTexts(host, b, compressed), Parsed(host, RowTexts(host, b, compressed)))
  {
    var text, rows := BoundText(host, b, compressed).value, RowTexts(host, b, compressed);
    PartsAreLines(text);
    BoundByFields(host, b, compressed, text);
    LinesReadRows(host, b, rows);
  }

  lemma ReadsIsDecodable(host: Host, b: Binding, compressed: Bytes, rows: seq<string>, parsed: seq<Row>)
    requires Reads(host, b, compressed, rows, parsed)
    ensures Decodable(host, b, compressed) && RowTexts(host, b, compressed) == rows && Parsed(host, rows) == parsed
  {
    assert ReadsRows(host, b, rows, parsed);
    LinesReadRows(host, b, rows);
    ReadsText(host, b, compressed, rows, [b.headerText] + rows);
    assert ([b.headerText] + rows)[1..] == rows;
  }

  lemma ReadsText(host: Host, b: Binding, compressed: Bytes, rows: seq<string>, lines: seq<string>)
    requires Bound(host, b, compressed, Text(b.headerText, rows))
    requires lines == [b.headerText] + rows && LinesOk(host, b, lines)
    requires '\n' !in b.headerText && forall r :: r in rows ==> '\n' !in r
    ensures Decodable(host, b, compressed) && RowTexts(host, b, compressed) == lines[1..]
  {
    PartsOfText(b.headerText, rows);
    BoundRows(host, b, compressed, Text(b.headerText, rows), lines);
  }

  lemma BoundRows(host: Host, b: Binding, compressed: Bytes, text: string, lines: seq<string>)
    requires Bound(host, b, compressed, text) && EndsWithNewline(text) && Split(text[..|text| - 1]) == lines
    requires LinesOk(host, b, lines)
    ensures Decodable(host, b, compressed) && RowTexts(host, b, compressed) == lines[1..]
  {
    HeaderIsValid(host, b, lines);
    BoundByFields(host, b, compressed, text);
    RowsOfText(host, b, compressed, text, lines);
  }

  lemma HeaderIsValid(host: Host, b: Binding, lines: seq<string>)
    requires LinesOk(host, b, lines)
    ensures ValidHeader(b.header)
  {
  }

  lemma RowsOfText(host: Host, b: Binding, compressed: Bytes, text: string, lines: seq<string>)
    requires BindingOk(host, b, compressed) && BoundText(host, b, compressed) == Some(text)
    requires EndsWithNewline(text) && Split(text[..|text| - 1]) == lines && LinesOk(host, b, lines)
    ensures Decodable(host, b, compressed) && RowTexts(host, b, compressed) == lines[1..]
  {
  }

  /** An artifact is read exactly when its bytes are the ones bound and its text
      is the bound header and rows that it describes, and then it is those rows. */
  lemma DecodableByText(host: Host, b: Binding, compressed: Bytes)
    ensures Decodable(host, b, compressed) <==> exists rows, parsed :: Reads(host, b, compressed, rows, parsed)
    ensures forall rows, parsed :: Reads(host, b, compressed, rows, parsed) ==>
      Decodable(host, b, compressed) && RowTexts(host, b, compressed) == rows && Parsed(host, rows) == parsed
  {
    if Decodable(host, b, compressed) {
      DecodableReads(host, b, compressed);
    }
    forall rows, parsed | Reads(host, b, compressed, rows, parsed)
      ensures Decodable(host, b, compressed) && RowTexts(host, b, compressed) == rows && Parsed(host, rows) == parsed
    {
      ReadsIsDecodable(host, b, compressed, rows, parsed);
    }
  }
}

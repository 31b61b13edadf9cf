/** The write-ahead budget of the golden runner: reservations and usage in
    append-only files, a halt marker, one lock, and crashes at any point. */
module GoldenBudget {
  import opened Listings

  const SLACK := 0.000000001
  const TYPESAFE_RESERVE := 0.02
  const VOYAGE_PRICE := 0.12

  // ---- append-only files ----

  /** A line of a file: the records written to it, and whether a torn one is among them. */
  datatype Line<T> = Line(records: seq<T>, torn: bool)

  /** `open` when the last line has no newline yet. */
  datatype File<T> = File(lines: seq<Line<T>>, open: bool)

  /** How far an append got: with its newline, without it, or only partly. */
  datatype Written = Whole | Unended | Torn

  function Append<T>(file: File<T>, record: T, written: Written): File<T> {
    var continued := file.open && file.lines != [];
    var base := if continued then file.lines[..|file.lines| - 1] else file.lines;
    var line := if continued then file.lines[|file.lines| - 1] else Line([], false);
    var longer := if written == Torn then Line(line.records, true) else Line(line.records + [record], line.torn);
    File(base + [longer], written != Whole)
  }

  /** Every line parses: exactly one record, not torn. */
  predicate Readable<T>(file: File<T>) {
    forall i :: 0 <= i < |file.lines| ==> |file.lines[i].records| == 1 && !file.lines[i].torn
  }

  function Flat<T>(lines: seq<Line<T>>): seq<T> {
    if lines == [] then [] else Flat(lines[..|lines| - 1]) + lines[|lines| - 1].records
  }

  /** Every record that reached the file. */
  function Records<T>(file: File<T>): seq<T> { Flat(file.lines) }

  lemma AppendAdds<T>(file: File<T>, record: T, written: Written)
    ensures Records(Append(file, record, written))
         == if written == Torn then Records(file) else Records(file) + [record]
  {
    var longer := Append(file, record, written).lines;
    var continued := file.open && file.lines != [];
    var base := if continued then file.lines[..|file.lines| - 1] else file.lines;
    assert longer[..|longer| - 1] == base;
    if written == Torn { assert Flat(longer) == Flat(base) + longer[|longer| - 1].records; }
  }

  // ---- reservations ----

  datatype Provider = Typesafe | Voyage

  datatype Review = Review(reason: string, attemptId: string)

  /** The digest an attempt is filed under: of the request, or of the request and
      the review that allows one more attempt. */
  datatype AttemptKey = First(request: string) | Reviewed(request: string, review: Review)

  datatype Reservation = Reservation(key: AttemptKey, provider: Provider, reserved: real)

  datatype Usage = Usage(key: AttemptKey, estimated: real)

  type Caps = Provider -> Option<real>

  predicate Reserves(entries: seq<Reservation>, key: AttemptKey) {
    exists i :: 0 <= i < |entries| && entries[i].key == key
  }

  function Settled(usages: seq<Usage>, key: AttemptKey): Option<real> {
    if usages == [] then None
    else if usages[|usages| - 1].key == key then Some(usages[|usages| - 1].estimated)
    else Settled(usages[..|usages| - 1], key)
  }

  function Charge(entry: Reservation, usages: seq<Usage>): real {
    match Settled(usages, entry.key)
    case Some(estimated) => estimated
    case None => entry.reserved
  }

  function Charged(entries: seq<Reservation>, usages: seq<Usage>, provider: Provider): real {
    if entries == [] then 0.0
    else
      var entry := entries[|entries| - 1];
      Charged(entries[..|entries| - 1], usages, provider)
      + if entry.provider == provider then Charge(entry, usages) else 0.0
  }

  predicate ValidEntries(entries: seq<Reservation>) {
    forall i :: 0 <= i < |entries| ==> entries[i].reserved > 0.0
  }

  predicate ValidUsages(entries: seq<Reservation>, usages: seq<Usage>) {
    && (forall i, j :: 0 <= i < j < |usages| ==> usages[i].key != usages[j].key)
    && (forall i :: 0 <= i < |usages| ==> usages[i].estimated >= 0.0 && Reserves(entries, usages[i].key))
  }

  /** A live request that was not answered from the cache; `bytes` counts its text. */
  datatype Request = Request(key: string, provider: Provider, bytes: nat, review: Option<Review>)

  predicate Blank(text: string) { forall c :: c in text ==> c == ' ' || c == '\t' || c == '\n' }

  function KeyOf(request: Request, entries: seq<Reservation>): AttemptKey {
    if Reserves(entries, First(request.key)) && request.review.Some?
       && !Blank(request.review.value.reason)
       && !Blank(request.review.value.attemptId) then Reviewed(request.key, request.review.value)
    else First(request.key)
  }

  function Envelope(request: Request): real {
    if request.provider == Voyage then request.bytes as real * VOYAGE_PRICE / 1_000_000.0 else TYPESAFE_RESERVE
  }

  datatype Refusal = Halted | BadLedger | AlreadyReserved | BadUsage | BudgetReached

  datatype Admission = Refused(reason: Refusal) | Admitted(entry: Reservation)

  function Admit(ledger: File<Reservation>, usage: File<Usage>, halted: bool, caps: Caps, request: Request): Admission {
    var entries, usages := Records(ledger), Records(usage);
    var entry := Reservation(KeyOf(request, entries), request.provider, Envelope(request));
    if halted then Refused(Halted)
    else if !Readable(ledger) || !ValidEntries(entries) then Refused(BadLedger)
    else if Reserves(entries, entry.key) then Refused(AlreadyReserved)
    else if !Readable(usage) || !ValidUsages(entries, usages) then Refused(BadUsage)
    else if caps(request.provider).Some?
            && Charged(entries, usages, request.provider) + entry.reserved > caps(request.provider).value + SLACK then
      Refused(BudgetReached)
    else Admitted(entry)
  }

  // ---- admission, read off the files ----

  /** Every line is one whole record, and these are the records. */
  ghost predicate Lists<T>(file: File<T>, records: seq<T>) {
    |records| == |file.lines|
    && forall i :: 0 <= i < |records| ==> file.lines[i].records == [records[i]] && !file.lines[i].torn
  }

  ghost predicate LedgerLists(ledger: File<Reservation>, entries: seq<Reservation>) {
    Lists(ledger, entries) && forall e :: e in entries ==> e.reserved > 0.0
  }

  ghost predicate Taken(entries: seq<Reservation>, key: AttemptKey) { exists e :: e in entries && e.key == key }

  /** Every usage settles a reserved attempt, and no attempt is settled twice. */
  ghost predicate UsageLists(usage: File<Usage>, usages: seq<Usage>, entries: seq<Reservation>) {
    && Lists(usage, usages)
    && (forall u :: u in usages ==> u.estimated >= 0.0 && Taken(entries, u.key))
    && (forall i, j :: 0 <= i < j < |usages| ==> usages[i].key != usages[j].key)
  }

  predicate Says(text: string) { exists c :: c in text && c != ' ' && c != '\t' && c != '\n' }

  /** A request is filed under its own key, or once more under a review that gives
      a reason and names the attempt, when its own key is taken. */
  ghost predicate MayFile(request: Request, entries: seq<Reservation>, key: AttemptKey) {
    && !Taken(entries, key)
    && if Taken(entries, First(request.key))
       then request.review.Some? && Says(request.review.value.reason) && Says(request.review.value.attemptId)
         && key == Reviewed(request.key, request.review.value)
       else key == First(request.key)
  }

  /** 0.12 dollars for a million bytes of text, and two cents for any other call. */
  predicate Priced(request: Request, amount: real) {
    match request.provider
    case Voyage => amount * 1_000_000.0 == request.bytes as real * 0.12
    case Typesafe => amount == 0.02
  }

  /** An entry is charged what was used once that is known, and until then what it reserved. */
  ghost predicate ChargedAs(entry: Reservation, usages: seq<Usage>, charge: real) {
    || (exists u :: u in usages && u.key == entry.key && charge == u.estimated)
    || ((forall u :: u in usages ==> u.key != entry.key) && charge == entry.reserved)
  }

  ghost function Sum(charges: seq<real>, n: nat): real
    requires n <= |charges|
  {
    if n == 0 then 0.0 else Sum(charges, n - 1) + charges[n - 1]
  }

  /** The charges of one provider's entries, entry by entry. */
  ghost predicate ChargesOf(entries: seq<Reservation>, usages: seq<Usage>, provider: Provider, charges: seq<real>) {
    |charges| == |entries|
    && forall i :: 0 <= i < |entries| ==>
         if entries[i].provider == provider then ChargedAs(entries[i], usages, charges[i]) else charges[i] == 0.0
  }

  ghost predicate Fits(
      entries: seq<Reservation>, usages: seq<Usage>, caps: Caps, provider: Provider, amount: real) {
    caps(provider).Some? ==>
      exists charges :: ChargesOf(entries, usages, provider, charges)
        && Sum(charges, |charges|) + amount <= caps(provider).value + 0.000000001
  }

  /** The answer to a request, from what the files hold. */
  ghost predicate Decides(
      ledger: File<Reservation>, usage: File<Usage>, halted: bool, caps: Caps, request: Request, admission: Admission) {
    match admission
    case Refused(Halted) => halted
    case Refused(BadLedger) => !halted && forall entries :: !LedgerLists(ledger, entries)
    case Refused(AlreadyReserved) =>
      !halted && exists entries :: LedgerLists(ledger, entries) && forall key :: !MayFile(request, entries, key)
    case Refused(BadUsage) =>
      !halted && exists entries, key ::
        LedgerLists(ledger, entries) && MayFile(request, entries, key)
        && forall usages :: !UsageLists(usage, usages, entries)
    case Refused(BudgetReached) =>
      !halted && exists entries, usages, key, amount ::
        Ready(ledger, usage, request, entries, usages, key, amount)
        && !Fits(entries, usages, caps, request.provider, amount)
    case Admitted(entry) =>
      !halted && entry.provider == request.provider && exists entries, usages ::
        Ready(ledger, usage, request, entries, usages, entry.key, entry.reserved)
        && Fits(entries, usages, caps, request.provider, entry.reserved)
  }

  ghost predicate Ready(
      ledger: File<Reservation>, usage: File<Usage>, request: Request, entries: seq<Reservation>, usages: seq<Usage>,
      key: AttemptKey, amount: real) {
    LedgerLists(ledger, entries) && MayFile(request, entries, key) && UsageLists(usage, usages, entries)
    && Priced(request, amount)
  }

  lemma {:induction false} FlatOfReadable<T>(lines: seq<Line<T>>)
    requires forall i :: 0 <= i < |lines| ==> |lines[i].records| == 1
    ensures |Flat(lines)| == |lines| && forall i :: 0 <= i < |lines| ==> Flat(lines)[i] == lines[i].records[0]
    decreases |lines|
  {
    if lines != [] { FlatOfReadable(lines[..|lines| - 1]); }
  }

  /** A file that can be read lists its records, and only those. */
  lemma ReadableLists<T(!new)>(file: File<T>)
    ensures Readable(file) ==> Lists(file, Records(file))
    ensures forall records :: Lists(file, records) ==> Readable(file) && records == Records(file)
  {
    if Readable(file) { FlatOfReadable(file.lines); }
    forall records | Lists(file, records) ensures Readable(file) && records == Records(file) {
      FlatOfReadable(file.lines);
    }
  }

  lemma TakenIsReserved(entries: seq<Reservation>, key: AttemptKey)
    ensures Taken(entries, key) <==> Reserves(entries, key)
  {
    if Reserves(entries, key) {
      var i :| 0 <= i < |entries| && entries[i].key == key;
      assert entries[i] in entries;
    }
  }

  lemma LedgerByFields(ledger: File<Reservation>)
    ensures Readable(ledger) && ValidEntries(Records(ledger)) <==> LedgerLists(ledger, Records(ledger))
    ensures forall entries :: LedgerLists(ledger, entries) ==> entries == Records(ledger)
  {
    ReadableLists(ledger);
    var entries := Records(ledger);
    assert forall i :: 0 <= i < |entries| ==> entries[i] in entries;
  }

  lemma UsageByFields(usage: File<Usage>, entries: seq<Reservation>)
    ensures Readable(usage) && ValidUsages(entries, Records(usage)) <==> UsageLists(usage, Records(usage), entries)
    ensures forall usages :: UsageLists(usage, usages, entries) ==> usages == Records(usage)
  {
    ReadableLists(usage);
    var usages := Records(usage);
    assert forall i :: 0 <= i < |usages| ==> usages[i] in usages;
    forall u ensures Taken(entries, u) <==> Reserves(entries, u) {
      TakenIsReserved(entries, u);
    }
  }

  lemma SaysByFields(text: string)
    ensures Says(text) <==> !Blank(text)
  {
  }

  lemma KeyByFields(request: Request, entries: seq<Reservation>, key: AttemptKey)
    ensures MayFile(request, entries, key) <==> key == KeyOf(request, entries) && !Reserves(entries, key)
  {
    TakenIsReserved(entries, key);
    TakenIsReserved(entries, First(request.key));
    if request.review.Some? {
      SaysByFields(request.review.value.reason);
      SaysByFields(request.review.value.attemptId);
    }
  }

  lemma PriceByFields(request: Request, amount: real)
    ensures Priced(request, amount) <==> amount == Envelope(request)
  {
  }

  lemma {:induction false} SettledByFields(usages: seq<Usage>, key: AttemptKey)
    requires forall i, j :: 0 <= i < j < |usages| ==> usages[i].key != usages[j].key
    ensures Settled(usages, key).None? ==> forall u :: u in usages ==> u.key != key
    ensures forall u :: u in usages && u.key == key ==> Settled(usages, key) == Some(u.estimated)
    decreases |usages|
  {
    if usages != [] {
      var front, last := usages[..|usages| - 1], usages[|usages| - 1];
      SettledByFields(front, key);
      assert usages == front + [last];
      forall u | u in usages && u.key == key ensures Settled(usages, key) == Some(u.estimated) {
        var k :| 0 <= k < |usages| && usages[k] == u;
        assert k < |front| ==> usages[k] in front;
      }
    }
  }

  lemma ChargeByFields(entry: Reservation, usages: seq<Usage>, charge: real)
    requires forall i, j :: 0 <= i < j < |usages| ==> usages[i].key != usages[j].key
    ensures ChargedAs(entry, usages, charge) <==> charge == Charge(entry, usages)
  {
    SettledByFields(usages, entry.key);
    SettledIsListed(usages, entry.key);
  }

  lemma {:induction false} SettledIsListed(usages: seq<Usage>, key: AttemptKey)
    ensures Settled(usages, key).Some? ==> exists u :: u in usages && u.key == key
    decreases |usages|
  {
    if usages != [] {
      var front, last := usages[..|usages| - 1], usages[|usages| - 1];
      SettledIsListed(front, key);
      assert usages == front + [last] && last in usages;
    }
  }

  lemma {:induction false} ChargesByFields(
      entries: seq<Reservation>, usages: seq<Usage>, provider: Provider, charges: seq<real>, n: nat)
    requires forall i, j :: 0 <= i < j < |usages| ==> usages[i].key != usages[j].key
    requires ChargesOf(entries, usages, provider, charges) && n <= |entries|
    ensures Sum(charges, n) == Charged(entries[..n], usages, provider)
  {
    if n > 0 {
      ChargesByFields(entries, usages, provider, charges, n - 1);
      assert entries[..n][..n - 1] == entries[..n - 1];
      if entries[n - 1].provider == provider { ChargeByFields(entries[n - 1], usages, charges[n - 1]); }
    }
  }

  lemma FitsByFields(entries: seq<Reservation>, usages: seq<Usage>, caps: Caps, provider: Provider, amount: real)
    requires forall i, j :: 0 <= i < j < |usages| ==> usages[i].key != usages[j].key
    ensures Fits(entries, usages, caps, provider, amount) <==>
      (caps(provider).Some? ==> Charged(entries, usages, provider) + amount <= caps(provider).value + SLACK)
  {
    var charges := seq(|entries|, i requires 0 <= i < |entries| =>
      if entries[i].provider == provider then Charge(entries[i], usages) else 0.0);
    forall i | 0 <= i < |entries| && entries[i].provider == provider
      ensures ChargedAs(entries[i], usages, charges[i])
    {
      ChargeByFields(entries[i], usages, charges[i]);
    }
    assert ChargesOf(entries, usages, provider, charges);
    assert entries[..|entries|] == entries;
    forall some | ChargesOf(entries, usages, provider, some)
      ensures Sum(some, |some|) == Charged(entries, usages, provider)
    {
      ChargesByFields(entries, usages, provider, some, |entries|);
    }
  }

  /** The admission of the code is the one the files ask for. */
  lemma AdmitsByFiles(ledger: File<Reservation>, usage: File<Usage>, halted: bool, caps: Caps, request: Request)
    ensures Decides(ledger, usage, halted, caps, request, Admit(ledger, usage, halted, caps, request))
  {
    var entries, usages := Records(ledger), Records(usage);
    var key, amount := KeyOf(request, entries), Envelope(request);
    LedgerByFields(ledger);
    UsageByFields(usage, entries);
    PriceByFields(request, amount);
    forall k ensures MayFile(request, entries, k) <==> k == key && !Reserves(entries, k) {
      KeyByFields(request, entries, k);
    }
    if UsageLists(usage, usages, entries) {
      FitsByFields(entries, usages, caps, request.provider, amount);
    }
    if LedgerLists(ledger, entries) && MayFile(request, entries, key) && UsageLists(usage, usages, entries) {
      assert Ready(ledger, usage, request, entries, usages, key, amount);
    }
  }

  // ---- the budget directory ----

  class BudgetDirectory {
    var ledger: File<Reservation>
    var usage: File<Usage>
    var halted: bool

    constructor ()
      ensures ledger == File([], false) && usage == File([], false) && !halted
    {
      ledger, usage, halted := File([], false), File([], false), false;
    }

    method ChargedSoFar(entries: seq<Reservation>, usages: seq<Usage>, provider: Provider) returns (sum: real)
      ensures sum == Charged(entries, usages, provider)
    {
      sum := 0.0;
      for i := 0 to |entries|
        invariant sum == Charged(entries[..i], usages, provider)
      {
        assert entries[..i + 1][..i] == entries[..i];
        if entries[i].provider == provider { sum := sum + Charge(entries[i], usages); }
      }
      assert entries[..|entries|] == entries;
    }

    /** Everything up to the write-ahead line, under the lock. */
    method Reserve(caps: Caps, request: Request) returns (admission: Admission)
      modifies this`ledger
      ensures admission == Admit(old(ledger), usage, halted, caps, request)
      ensures Decides(old(ledger), usage, halted, caps, request, admission)
      ensures ledger == if admission.Admitted? then Append(old(ledger), admission.entry, Whole) else old(ledger)
    {
      admission := FileEntry(caps, request);
      AdmitsByFiles(old(ledger), usage, halted, caps, request);
    }

    method FileEntry(caps: Caps, request: Request) returns (admission: Admission)
      modifies this`ledger
      ensures admission == Admit(old(ledger), usage, halted, caps, request)
      ensures ledger == if admission.Admitted? then Append(old(ledger), admission.entry, Whole) else old(ledger)
    {
      if halted { return Refused(Halted); }
      var entries := Records(ledger);
      if !Readable(ledger) || !ValidEntries(entries) { return Refused(BadLedger); }
      var prior := Reserves(entries, First(request.key));
      var recovering := prior && request.review.Some? && !Blank(request.review.value.reason)
        && !Blank(request.review.value.attemptId);
      var key := if recovering then Reviewed(request.key, request.review.value) else First(request.key);
      if (prior && !recovering) || Reserves(entries, key) { return Refused(AlreadyReserved); }
      var reserved :=
        if request.provider == Voyage then request.bytes as real * VOYAGE_PRICE / 1_000_000.0 else TYPESAFE_RESERVE;
      var usages := Records(usage);
      if !Readable(usage) || !ValidUsages(entries, usages) { return Refused(BadUsage); }
      if caps(request.provider).Some? {
        var sum := ChargedSoFar(entries, usages, request.provider);
        if sum + reserved > caps(request.provider).value + SLACK { return Refused(BudgetReached); }
      }
      var entry := Reservation(key, request.provider, reserved);
      ledger := Append(ledger, entry, Whole);
      return Admitted(entry);
    }

    /** Records what the provider says was used; an overrun halts all accounting. */
    method Settle(entry: Reservation, estimated: real) returns (overrun: bool)
      modifies this`usage, this`halted
      ensures usage == Append(old(usage), Usage(entry.key, estimated), Whole)
      ensures overrun == (estimated > entry.reserved) && halted == (old(halted) || overrun)
    {
      usage := Append(usage, Usage(entry.key, estimated), Whole);
      overrun := estimated > entry.reserved;
      if overrun { halted := true; }
    }
  }

  // ---- every run ----

  datatype Phase = Filed | Paid | Accounted | Overrun

  datatype Active = Active(entry: Reservation, phase: Phase)

  /** The files, the lock, the one process inside it, and the provider calls made so far. */
  datatype State = State(
    ledger: File<Reservation>, usage: File<Usage>, halted: bool, locked: bool, active: Option<Active>,
    paid: seq<AttemptKey>)

  /** A write that is not whole is one the process did not survive. */
  datatype Step =
    | Begin(request: Request, written: Written)
    | Pay
    | Account(estimated: real, written: Written)
    | Halt
    | Finish
    | Fail
    | Crash
    | Unlock

  const START := State(File([], false), File([], false), false, false, None, [])

  predicate Enabled(s: State, step: Step) {
    match step
    case Begin(request, _) => !s.locked && (request.provider == Voyage ==> request.bytes > 0)
    case Pay => s.active.Some? && s.active.value.phase == Filed
    case Account(estimated, _) => s.active.Some? && s.active.value.phase == Paid && estimated >= 0.0
    case Halt => s.active.Some? && s.active.value.phase == Overrun
    case Finish => s.active.Some? && s.active.value.phase == Accounted
    case Fail => s.active.Some?
    case Crash => s.active.Some?
    case Unlock => s.locked && s.active.None?
  }

  function Next(s: State, caps: Caps, step: Step): State
    requires Enabled(s, step)
  {
    match step
    case Begin(request, written) =>
      (match Admit(s.ledger, s.usage, s.halted, caps, request)
       case Refused(_) => s
       case Admitted(entry) =>
         s.(ledger := Append(s.ledger, entry, written), locked := true,
            active := if written == Whole then Some(Active(entry, Filed)) else None))
    case Pay => s.(active := Some(s.active.value.(phase := Paid)), paid := s.paid + [s.active.value.entry.key])
    case Account(estimated, written) =>
      var entry := s.active.value.entry;
      s.(usage := Append(s.usage, Usage(entry.key, estimated), written),
         active := if written != Whole then None
           else Some(Active(entry, if estimated > entry.reserved then Overrun else Accounted)))
    case Halt => s.(halted := true, locked := false, active := None)
    case Finish => s.(locked := false, active := None)
    case Fail => s.(locked := false, active := None)
    case Crash => s.(active := None)
    case Unlock => s.(locked := false)
  }

  predicate IsRun(states: seq<State>, caps: Caps, steps: seq<Step>) {
    && |states| == |steps| + 1 && states[0] == START
    && forall i :: 0 <= i < |steps| ==> Enabled(states[i], steps[i]) && states[i + 1] == Next(states[i], caps, steps[i])
  }

  // ---- what every step keeps ----

  ghost predicate DistinctKeys(entries: seq<Reservation>) {
    forall i, j :: 0 <= i < j < |entries| ==> entries[i].key != entries[j].key
  }

  ghost predicate FilesOk(s: State) {
    && DistinctKeys(Records(s.ledger)) && ValidEntries(Records(s.ledger))
    && ValidUsages(Records(s.ledger), Records(s.usage))
  }

  ghost predicate PaidOk(s: State) {
    && (forall i, j :: 0 <= i < j < |s.paid| ==> s.paid[i] != s.paid[j])
    && (forall key :: key in s.paid ==> Reserves(Records(s.ledger), key))
    && (forall i :: 0 <= i < |Records(s.usage)| ==> Records(s.usage)[i].key in s.paid)
  }

  ghost predicate ActiveOk(s: State) {
    s.active.Some? ==>
      && s.locked && s.active.value.entry in Records(s.ledger)
      && (s.active.value.phase == Filed <==> s.active.value.entry.key !in s.paid)
      && (s.active.value.phase == Filed || s.active.value.phase == Paid ==>
        Settled(Records(s.usage), s.active.value.entry.key).None?)
  }

  /** By how much settlements went beyond what was reserved for them. */
  function Excess(entries: seq<Reservation>, usages: seq<Usage>, provider: Provider): real {
    if entries == [] then 0.0
    else
      var entry := entries[|entries| - 1];
      Excess(entries[..|entries| - 1], usages, provider)
      + if entry.provider == provider && Charge(entry, usages) > entry.reserved
        then Charge(entry, usages) - entry.reserved else 0.0
  }

  ghost predicate WithinCap(s: State, caps: Caps, provider: Provider) {
    caps(provider).Some? && caps(provider).value >= 0.0 ==>
      Charged(Records(s.ledger), Records(s.usage), provider)
      <= caps(provider).value + SLACK + Excess(Records(s.ledger), Records(s.usage), provider)
  }

  ghost predicate Inv(s: State, caps: Caps) {
    FilesOk(s) && PaidOk(s) && ActiveOk(s) && WithinCap(s, caps, Typesafe) && WithinCap(s, caps, Voyage)
  }

  // ---- sums ----

  lemma {:induction false} ExcessIsNotNegative(entries: seq<Reservation>, usages: seq<Usage>, provider: Provider)
    ensures Excess(entries, usages, provider) >= 0.0
    decreases |entries|
  {
    if entries != [] {
      ExcessIsNotNegative(entries[..|entries| - 1], usages, provider);
    }
  }

  lemma OneMoreEntry(entries: seq<Reservation>, entry: Reservation, usages: seq<Usage>, provider: Provider)
    ensures Charged(entries + [entry], usages, provider)
         == Charged(entries, usages, provider) + if entry.provider == provider then Charge(entry, usages) else 0.0
    ensures Excess(entries + [entry], usages, provider) >= Excess(entries, usages, provider)
  {
    assert (entries + [entry])[..|entries|] == entries;
  }

  lemma {:induction false} SettledMeansListed(usages: seq<Usage>, key: AttemptKey)
    ensures Settled(usages, key).Some? <==> exists i :: 0 <= i < |usages| && usages[i].key == key
    decreases |usages|
  {
    if usages != [] {
      SettledMeansListed(usages[..|usages| - 1], key);
    }
  }

  lemma OneMoreUsage(usages: seq<Usage>, last: Usage, key: AttemptKey)
    ensures Settled(usages + [last], key) == if last.key == key then Some(last.estimated) else Settled(usages, key)
  {
    assert (usages + [last])[..|usages|] == usages;
  }

  /** Settling a reservation moves the charge of that one entry, and raises the
      total only by what the settlement goes over. */
  lemma {:induction false} SettlingMovesOneCharge(
      entries: seq<Reservation>, usages: seq<Usage>, last: Usage, entry: Reservation, provider: Provider)
    requires DistinctKeys(entries) && last.key == entry.key && Settled(usages, entry.key).None?
    ensures entry !in entries && !Reserves(entries, entry.key) ==>
      Charged(entries, usages + [last], provider) == Charged(entries, usages, provider)
      && Excess(entries, usages + [last], provider) == Excess(entries, usages, provider)
    ensures entry in entries && entry.provider != provider ==>
      Charged(entries, usages + [last], provider) == Charged(entries, usages, provider)
      && Excess(entries, usages + [last], provider) == Excess(entries, usages, provider)
    ensures entry in entries && entry.provider == provider ==>
      Charged(entries, usages + [last], provider)
        == Charged(entries, usages, provider) + last.estimated - entry.reserved
      && Excess(entries, usages + [last], provider) ==
           Excess(entries, usages, provider)
           + if last.estimated > entry.reserved then last.estimated - entry.reserved else 0.0
    decreases |entries|
  {
    if entries != [] {
      var front, e := entries[..|entries| - 1], entries[|entries| - 1];
      SettlingMovesOneCharge(front, usages, last, entry, provider);
      OneMoreUsage(usages, last, e.key);
      assert entries == front + [e];
      assert !Reserves(entries, entry.key) ==> !Reserves(front, entry.key);
      assert e == entry ==> !Reserves(front, entry.key);
    }
  }

  // ---- every step ----

  lemma AdmittedIsNew(s: State, caps: Caps, request: Request)
    requires Admit(s.ledger, s.usage, s.halted, caps, request).Admitted?
    requires request.provider == Voyage ==> request.bytes > 0
    ensures var entry := Admit(s.ledger, s.usage, s.halted, caps, request).entry;
            && !Reserves(Records(s.ledger), entry.key) && entry.reserved > 0.0 && entry.provider == request.provider
            && !s.halted
            && (caps(entry.provider).Some? ==>
                  Charged(Records(s.ledger), Records(s.usage), entry.provider) + entry.reserved
                  <= caps(entry.provider).value + SLACK)
  {
  }

  /** Each new reservation leaves settled and outstanding charges within the cap,
      whatever was overrun before. */
  lemma ReservationStaysWithinCap(s: State, caps: Caps, request: Request, written: Written)
    requires Inv(s, caps) && Enabled(s, Begin(request, written))
    requires Admit(s.ledger, s.usage, s.halted, caps, request).Admitted? && caps(request.provider).Some?
    ensures var n := Next(s, caps, Begin(request, written));
            written != Torn ==>
              Charged(Records(n.ledger), Records(n.usage), request.provider) <= caps(request.provider).value + SLACK
  {
    AdmittedIsNew(s, caps, request);
    var entry := Admit(s.ledger, s.usage, s.halted, caps, request).entry;
    AppendAdds(s.ledger, entry, written);
    OneMoreEntry(Records(s.ledger), entry, Records(s.usage), request.provider);
    UnreservedIsUnsettled(s, entry.key);
  }

  lemma UnreservedIsUnsettled(s: State, key: AttemptKey)
    requires FilesOk(s) && !Reserves(Records(s.ledger), key)
    ensures Settled(Records(s.usage), key).None?
  {
    SettledMeansListed(Records(s.usage), key);
  }

  lemma BeginResult(s: State, caps: Caps, request: Request, written: Written, admission: Admission)
    requires Enabled(s, Begin(request, written)) && admission == Admit(s.ledger, s.usage, s.halted, caps, request)
    ensures var n := Next(s, caps, Begin(request, written));
            match admission
            case Refused(_) => n == s
            case Admitted(entry) =>
              Records(n.ledger) == (if written == Torn then Records(s.ledger) else Records(s.ledger) + [entry])
              && n.usage == s.usage && n.paid == s.paid && n.locked
              && n.active == if written == Whole then Some(Active(entry, Filed)) else None
  {
    if admission.Admitted? { AppendAdds(s.ledger, admission.entry, written); }
  }

  lemma BeginKeepsInv(s: State, caps: Caps, request: Request, written: Written)
    requires Inv(s, caps) && Enabled(s, Begin(request, written))
    ensures Inv(Next(s, caps, Begin(request, written)), caps)
  {
    var admission := Admit(s.ledger, s.usage, s.halted, caps, request);
    BeginResult(s, caps, request, written, admission);
    if admission.Admitted? {
      AdmittedIsNew(s, caps, request);
      BegunKeepsInv(s, Next(s, caps, Begin(request, written)), caps, admission.entry, written);
    }
  }

  lemma BegunKeepsInv(s: State, n: State, caps: Caps, entry: Reservation, written: Written)
    requires Inv(s, caps) && !Reserves(Records(s.ledger), entry.key) && entry.reserved > 0.0
    requires Records(n.ledger) == if written == Torn then Records(s.ledger) else Records(s.ledger) + [entry]
    requires n.usage == s.usage && n.paid == s.paid && n.locked
    requires n.active == if written == Whole then Some(Active(entry, Filed)) else None
    requires caps(entry.provider).Some? ==>
      Charged(Records(s.ledger), Records(s.usage), entry.provider) + entry.reserved
      <= caps(entry.provider).value + SLACK
    ensures Inv(n, caps)
  {
    if written == Torn {
      UnfiledKeepsInv(s, n, caps);
    } else {
      FiledKeepsInv(s, n, caps, entry);
    }
  }

  lemma UnfiledKeepsInv(s: State, n: State, caps: Caps)
    requires Inv(s, caps) && Records(n.ledger) == Records(s.ledger) && n.usage == s.usage && n.paid == s.paid
    requires n.active.None?
    ensures Inv(n, caps)
  {
  }

  lemma FiledKeepsInv(s: State, n: State, caps: Caps, entry: Reservation)
    requires Inv(s, caps) && !Reserves(Records(s.ledger), entry.key) && entry.reserved > 0.0
    requires Records(n.ledger) == Records(s.ledger) + [entry] && n.usage == s.usage && n.paid == s.paid && n.locked
    requires n.active.None? || n.active.value == Active(entry, Filed)
    requires caps(entry.provider).Some? ==>
      Charged(Records(s.ledger), Records(s.usage), entry.provider) + entry.reserved
      <= caps(entry.provider).value + SLACK
    ensures Inv(n, caps)
  {
    UnreservedIsUnsettled(s, entry.key);
    LongerLedgerIsOk(s, n, entry);
    OneMoreEntry(Records(s.ledger), entry, Records(s.usage), Typesafe);
    OneMoreEntry(Records(s.ledger), entry, Records(s.usage), Voyage);
    ExcessIsNotNegative(Records(n.ledger), Records(n.usage), entry.provider);
  }

  lemma LongerLedgerIsOk(s: State, n: State, entry: Reservation)
    requires FilesOk(s) && PaidOk(s) && !Reserves(Records(s.ledger), entry.key) && entry.reserved > 0.0
    requires Records(n.ledger) == Records(s.ledger) + [entry] && n.usage == s.usage && n.paid == s.paid
    ensures FilesOk(n) && PaidOk(n) && entry in Records(n.ledger) && entry.key !in n.paid
  {
    var entries, longer := Records(s.ledger), Records(n.ledger);
    assert longer[|entries|] == entry;
    forall key | Reserves(entries, key) ensures Reserves(longer, key) {
      var i :| 0 <= i < |entries| && entries[i].key == key;
      assert longer[i].key == key;
    }
  }

  lemma PayKeepsInv(s: State, caps: Caps)
    requires Inv(s, caps) && Enabled(s, Pay)
    ensures Inv(Next(s, caps, Pay), caps)
  {
    var entry := s.active.value.entry;
    var i :| 0 <= i < |Records(s.ledger)| && Records(s.ledger)[i] == entry;
    assert Reserves(Records(s.ledger), entry.key);
  }

  lemma AccountKeepsInv(s: State, caps: Caps, estimated: real, written: Written)
    requires Inv(s, caps) && Enabled(s, Account(estimated, written))
    ensures Inv(Next(s, caps, Account(estimated, written)), caps)
  {
    var last := Usage(s.active.value.entry.key, estimated);
    var n := Next(s, caps, Account(estimated, written));
    AppendAdds(s.usage, last, written);
    if written == Torn {
      UnusedKeepsInv(s, n, caps);
    } else {
      UsedKeepsInv(s, n, caps, s.active.value.entry, last);
    }
  }

  lemma UnusedKeepsInv(s: State, n: State, caps: Caps)
    requires Inv(s, caps) && n.ledger == s.ledger && Records(n.usage) == Records(s.usage) && n.paid == s.paid
    requires n.active.None?
    ensures Inv(n, caps)
  {
  }

  lemma UsedKeepsInv(s: State, n: State, caps: Caps, entry: Reservation, last: Usage)
    requires Inv(s, caps) && s.active.Some? && s.active.value == Active(entry, Paid)
    requires last.key == entry.key && last.estimated >= 0.0
    requires n.ledger == s.ledger && n.paid == s.paid && n.locked == s.locked
    requires Records(n.usage) == Records(s.usage) + [last]
    requires n.active.Some? ==> n.active.value.entry == entry
    requires n.active.Some? ==> n.active.value.phase == Overrun || n.active.value.phase == Accounted
    ensures Inv(n, caps)
  {
    LongerUsageIsOk(s, n, last);
    SettlingMovesOneCharge(Records(s.ledger), Records(s.usage), last, entry, Typesafe);
    SettlingMovesOneCharge(Records(s.ledger), Records(s.usage), last, entry, Voyage);
  }

  lemma LongerUsageIsOk(s: State, n: State, last: Usage)
    requires FilesOk(s) && PaidOk(s) && last.estimated >= 0.0 && last.key in s.paid
    requires Settled(Records(s.usage), last.key).None?
    requires n.ledger == s.ledger && n.paid == s.paid && Records(n.usage) == Records(s.usage) + [last]
    ensures FilesOk(n) && PaidOk(n)
  {
    SettledMeansListed(Records(s.usage), last.key);
  }

  lemma StepKeepsInv(s: State, caps: Caps, step: Step)
    requires Inv(s, caps) && Enabled(s, step)
    ensures Inv(Next(s, caps, step), caps)
  {
    match step
    case Begin(request, written) => BeginKeepsInv(s, caps, request, written);
    case Pay => PayKeepsInv(s, caps);
    case Account(estimated, written) => AccountKeepsInv(s, caps, estimated, written);
    case _ =>
  }

  lemma {:induction false} EveryStateIsSound(states: seq<State>, caps: Caps, steps: seq<Step>, i: nat)
    requires IsRun(states, caps, steps) && i < |states|
    ensures Inv(states[i], caps)
    decreases i
  {
    if i > 0 {
      EveryStateIsSound(states, caps, steps, i - 1);
      StepKeepsInv(states[i - 1], caps, steps[i - 1]);
    }
  }

  // ---- what a run guarantees ----

  /** Every provider call was reserved durably before it, and no attempt is
      reserved or paid for twice. */
  lemma CallsAreReservedOnce(states: seq<State>, caps: Caps, steps: seq<Step>, i: nat)
    requires IsRun(states, caps, steps) && i < |states|
    ensures forall key :: key in states[i].paid ==> Reserves(Records(states[i].ledger), key)
    ensures forall j, k :: 0 <= j < k < |states[i].paid| ==> states[i].paid[j] != states[i].paid[k]
    ensures DistinctKeys(Records(states[i].ledger))
    ensures i < |steps| && steps[i] == Pay ==>
      states[i].active.Some? && Reserves(Records(states[i].ledger), states[i].active.value.entry.key)
      && states[i].active.value.entry.key !in states[i].paid
  {
    EveryStateIsSound(states, caps, steps, i);
    if i < |steps| && steps[i] == Pay {
      PayKeepsInv(states[i], caps);
      var entry := states[i].active.value.entry;
      var k :| 0 <= k < |Records(states[i].ledger)| && Records(states[i].ledger)[k] == entry;
    }
  }

  /** In every state the charges of a capped provider exceed its cap by no more
      than what settlements went over their own reservations. */
  lemma ChargesStayWithinCap(states: seq<State>, caps: Caps, steps: seq<Step>, i: nat, provider: Provider)
    requires IsRun(states, caps, steps) && i < |states| && caps(provider).Some? && caps(provider).value >= 0.0
    ensures Charged(Records(states[i].ledger), Records(states[i].usage), provider)
         <= caps(provider).value + SLACK + Excess(Records(states[i].ledger), Records(states[i].usage), provider)
  {
    EveryStateIsSound(states, caps, steps, i);
    assert WithinCap(states[i], caps, provider);
  }

  /** A settlement never raises the total unless it is an overrun, and then by
      exactly what it goes over. */
  lemma SettlementRaisesOnlyByOverrun(s: State, caps: Caps, estimated: real, written: Written, provider: Provider)
    requires Inv(s, caps) && Enabled(s, Account(estimated, written))
    ensures var n := Next(s, caps, Account(estimated, written));
            var entry := s.active.value.entry;
            var before := Charged(Records(s.ledger), Records(s.usage), provider);
            var after := Charged(Records(n.ledger), Records(n.usage), provider);
            && (after > before <==> provider == entry.provider && estimated > entry.reserved && written != Torn)
            && (after > before ==>
              after - before == estimated - entry.reserved && (n.active.Some? ==> n.active.value.phase == Overrun))
  {
    var entry := s.active.value.entry;
    assert DistinctKeys(Records(s.ledger)) && Settled(Records(s.usage), entry.key).None?;
    SettledCharges(s, entry, estimated, written, provider);
  }

  lemma SettledCharges(s: State, entry: Reservation, estimated: real, written: Written, provider: Provider)
    requires DistinctKeys(Records(s.ledger)) && entry in Records(s.ledger) && Settled(Records(s.usage), entry.key).None?
    ensures Charged(Records(s.ledger), Records(Append(s.usage, Usage(entry.key, estimated), written)), provider)
         == Charged(Records(s.ledger), Records(s.usage), provider)
            + if provider == entry.provider && written != Torn then estimated - entry.reserved else 0.0
  {
    AppendAdds(s.usage, Usage(entry.key, estimated), written);
    SettlingMovesOneCharge(Records(s.ledger), Records(s.usage), Usage(entry.key, estimated), entry, provider);
  }

  /** What was written always passes the checks of the next reader, as long as
      every line of it parses. */
  lemma ReadersAcceptWhatWasWritten(states: seq<State>, caps: Caps, steps: seq<Step>, i: nat, request: Request)
    requires IsRun(states, caps, steps) && i < |states|
    ensures var s := states[i];
            var admission := Admit(s.ledger, s.usage, s.halted, caps, request);
            && (admission == Refused(BadLedger) <==> !s.halted && !Readable(s.ledger))
            && (admission == Refused(BadUsage) ==> !Readable(s.usage))
  {
    EveryStateIsSound(states, caps, steps, i);
  }

  /** A ledger that does not parse never parses again, and closes the budget. */
  lemma {:induction false} UnreadableIsFinal(states: seq<State>, caps: Caps, steps: seq<Step>, i: nat, j: nat)
    requires IsRun(states, caps, steps) && i <= j < |states|
    requires states[i].halted || !Readable(states[i].ledger)
    ensures states[j].ledger == states[i].ledger && (states[j].halted || !Readable(states[j].ledger))
    decreases j - i
  {
    if i < j {
      assert states[i + 1] == Next(states[i], caps, steps[i]);
      UnreadableIsFinal(states, caps, steps, i + 1, j);
    }
  }

  /** Nothing is reserved, paid or accounted for once the budget is halted. */
  lemma {:induction false} HaltedStays(states: seq<State>, caps: Caps, steps: seq<Step>, i: nat, j: nat)
    requires IsRun(states, caps, steps) && i <= j < |states| && states[i].halted && states[i].active.None?
    ensures states[j].halted && states[j].active.None?
    ensures states[j].ledger == states[i].ledger && states[j].usage == states[i].usage
    ensures states[j].paid == states[i].paid
    decreases j - i
  {
    if i < j {
      assert states[i + 1] == Next(states[i], caps, steps[i]);
      HaltedStays(states, caps, steps, i + 1, j);
    }
  }

  /** After a halt the ledger never grows, no usage is added and no call is paid. */
  lemma HaltIsFinal(states: seq<State>, caps: Caps, steps: seq<Step>, i: nat, j: nat)
    requires IsRun(states, caps, steps) && i < j < |states| && steps[i] == Halt
    ensures states[j].halted && states[j].ledger == states[i].ledger
    ensures states[j].usage == states[i].usage && states[j].paid == states[i].paid
  {
    assert states[i + 1] == Next(states[i], caps, steps[i]);
    HaltedStays(states, caps, steps, i + 1, j);
  }

  /** The step settles an attempt for more than was reserved for it. */
  predicate Overruns(s: State, step: Step) {
    step.Account? && s.active.Some? && step.estimated > s.active.value.entry.reserved
  }

  /** The settlement at j did not come to its halt: its own write or the process
      failed right then. */
  predicate Interrupted(steps: seq<Step>, j: nat)
    requires j + 1 < |steps| && steps[j].Account?
  {
    steps[j].written != Whole || steps[j + 1] == Crash || steps[j + 1] == Fail
  }

  /** A settlement can go over its reservation after an earlier one did only if the
      earlier one was interrupted: without interruptions there is at most one. */
  lemma OnlyInterruptedOverrunsRepeat(states: seq<State>, caps: Caps, steps: seq<Step>, j: nat, k: nat)
    requires IsRun(states, caps, steps) && j < k < |steps|
    requires Overruns(states[j], steps[j]) && Overruns(states[k], steps[k])
    ensures Interrupted(steps, j)
  {
    if !Interrupted(steps, j) {
      EveryStateIsSound(states, caps, steps, j);
      assert states[j + 1] == Next(states[j], caps, steps[j]);
      assert Enabled(states[j + 1], steps[j + 1]);
      HaltFollows(states[j + 1], steps[j + 1]);
      assert states[j + 2] == Next(states[j + 1], caps, steps[j + 1]);
      HaltedStays(states, caps, steps, j + 2, k);
    }
  }

  /** An overrun that was accounted for is followed by the halt or by a failure. */
  lemma HaltFollows(s: State, step: Step)
    requires Enabled(s, step) && s.locked && s.active.Some? && s.active.value.phase == Overrun
    ensures step == Halt || step == Crash || step == Fail
  {
  }

  /** A reservation that lost its newline still counts, but the next one written
      after it makes the ledger unreadable: at most one more call follows it. */
  lemma LostNewlineAllowsOneMore(ledger: File<Reservation>, first: Reservation, second: Reservation)
    requires Readable(ledger) && !ledger.open
    ensures var open := Append(ledger, first, Unended);
            Readable(open) && !Readable(Append(open, second, Whole))
              && Records(Append(open, second, Whole)) == Records(ledger) + [first, second]
  {
    var open := Append(ledger, first, Unended);
    AppendAdds(ledger, first, Unended);
    AppendAdds(open, second, Whole);
    var both := Append(open, second, Whole);
    assert both.lines[|both.lines| - 1].records == [first, second];
  }

  /** What an append leaves: a readable file stays readable exactly when the record
      was not torn and the last line had its newline; a torn record is never read. */
  lemma AppendReads<T>(file: File<T>, record: T, written: Written)
    ensures written == Torn ==> !Readable(Append(file, record, written))
    ensures Readable(file) ==>
      (Readable(Append(file, record, written)) <==> written != Torn && !(file.open && file.lines != []))
    ensures Append(file, record, written).open <==> written != Whole
  {
    var longer := Append(file, record, written).lines;
    var last := longer[|longer| - 1];
    assert written == Torn ==> last.torn;
    if file.open && file.lines != [] && Readable(file) && written != Torn {
      assert |last.records| == 2;
    }
  }

  /** The halt marker is written only right after a settlement that was recorded
      and went over its reservation. */
  lemma OnlyOverrunsHalt(states: seq<State>, caps: Caps, steps: seq<Step>, i: nat)
    requires IsRun(states, caps, steps) && i < |steps| && steps[i].Halt?
    ensures i > 0 && steps[i - 1].Account? && steps[i - 1].written == Whole
    ensures states[i - 1].active.Some? && steps[i - 1].estimated > states[i - 1].active.value.entry.reserved
  {
    assert Enabled(states[i], steps[i]);
    if i > 0 {
      EveryStateIsSound(states, caps, steps, i - 1);
      assert states[i] == Next(states[i - 1], caps, steps[i - 1]) && Enabled(states[i - 1], steps[i - 1]);
    }
  }

  /** A step after which the lock is held by nobody: a crash, or a write that the
      process did not survive. */
  predicate Orphans(step: Step) {
    || step.Crash?
    || (step.Begin? && step.written != Whole) || (step.Account? && step.written != Whole)
  }

  /** The lock is free, or held by the one process inside, or was left behind by the
      step just before: finishing, failing and halting free it. A lock left behind
      lets nothing but its removal happen, and that frees it. */
  lemma LockIsHeldOrOrphaned(states: seq<State>, caps: Caps, steps: seq<Step>, i: nat)
    requires IsRun(states, caps, steps) && i < |states|
    ensures states[i].active.Some? ==> states[i].locked
    ensures states[i].locked && states[i].active.None? ==> i > 0 && Orphans(steps[i - 1])
    ensures states[i].locked && states[i].active.None? && i < |steps| ==> steps[i].Unlock? && !states[i + 1].locked
  {
    EveryStateIsSound(states, caps, steps, i);
    if i < |steps| {
      assert Enabled(states[i], steps[i]) && states[i + 1] == Next(states[i], caps, steps[i]);
    }
    if i > 0 {
      EveryStateIsSound(states, caps, steps, i - 1);
      assert states[i] == Next(states[i - 1], caps, steps[i - 1]) && Enabled(states[i - 1], steps[i - 1]);
    }
  }
}

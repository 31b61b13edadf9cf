/** Audited indexing: a durable budget of provider calls, reserved before each
    call and settled after it, under interleaved holders, crashes and repeated
    settlements. */
module AuditedIndex {
  import opened HostNumbers
  import opened Listings
  import opened Selection

  const CALLS_PER_RUN: int := 45
  const BYTES_PER_CALL: int := 20_000
  const BYTES_PER_RUN: int := CALLS_PER_RUN * BYTES_PER_CALL
  const TOKENS_PER_RUN: int := CALLS_PER_RUN * BYTES_PER_CALL
  const CALLS_PER_WINDOW: int := 400
  const WINDOW_MS: int := 60 * 3_600_000
  const INTERVAL: int := 21_000
  const ROLLING_BYTES: int := 24_000
  const MINUTE: int := 60_000
  const BATCH: int := 32

  // ---- the batch ----

  /** The documents a call takes: in order, skipping any that is too large by
      itself, until the next one would not fit. */
  method SelectBatch(sizes: seq<nat>) returns (batch: seq<nat>, inputBytes: nat)
    ensures forall i :: 0 <= i < |batch| ==> batch[i] < |sizes|
    ensures |batch| <= 32 && inputBytes == Total(sizes, batch) <= 20_000
    ensures forall i, j :: 0 <= i < j < |batch| ==> batch[i] < batch[j]
    ensures batch == [] ==> forall k :: 0 <= k < |sizes| ==> sizes[k] > 20_000
    ensures forall k :: 0 <= k < |sizes| ==> LeftOutRightly(sizes, batch, inputBytes, k)
  {
    var k: nat;
    k, batch, inputBytes := TakeDocuments(sizes);
    if k < |sizes| {
      StopsHere(sizes, batch, inputBytes, k);
    } else {
      EndsHere(sizes, batch, inputBytes);
    }
  }

  method TakeDocuments(sizes: seq<nat>) returns (k: nat, batch: seq<nat>, inputBytes: nat)
    ensures Taken(sizes, batch, inputBytes, k)
    ensures k < |sizes| ==> sizes[k] <= BYTES_PER_CALL && (|batch| == BATCH || inputBytes + sizes[k] > BYTES_PER_CALL)
  {
    k, batch, inputBytes := 0, [], 0;
    while k < |sizes|
      invariant Taken(sizes, batch, inputBytes, k)
    {
      if sizes[k] <= BYTES_PER_CALL {
        if |batch| == BATCH || inputBytes + sizes[k] > BYTES_PER_CALL { return; }
        TakesOneMore(sizes, batch, inputBytes, k);
        batch, inputBytes := batch + [k], inputBytes + sizes[k];
      }
      k := k + 1;
    }
  }

  /** A document that is small enough is taken, or comes after the whole batch,
      and then the batch is full or the first such document does not fit. */
  ghost predicate LeftOutRightly(sizes: seq<nat>, batch: seq<nat>, inputBytes: nat, k: nat)
    requires k < |sizes|
  {
    sizes[k] <= 20_000 && k !in batch ==>
      (|batch| == 32 || Crowded(sizes, batch, inputBytes)) && forall i :: 0 <= i < |batch| ==> batch[i] < k
  }

  /** The batch after looking at the first k documents: all of them that are not
      too large by themselves. */
  ghost predicate Taken(sizes: seq<nat>, batch: seq<nat>, inputBytes: nat, k: nat) {
    && k <= |sizes| && (forall i :: 0 <= i < |batch| ==> batch[i] < k)
    && |batch| <= BATCH && inputBytes == Total(sizes, batch) <= BYTES_PER_CALL
    && (forall i, j :: 0 <= i < j < |batch| ==> batch[i] < batch[j])
    && (forall m :: 0 <= m < k && sizes[m] <= BYTES_PER_CALL ==> m in batch)
  }

  lemma TakesOneMore(sizes: seq<nat>, batch: seq<nat>, inputBytes: nat, k: nat)
    requires Taken(sizes, batch, inputBytes, k) && k < |sizes| && |batch| < BATCH
    requires inputBytes + sizes[k] <= BYTES_PER_CALL
    ensures Taken(sizes, batch + [k], inputBytes + sizes[k], k + 1)
  {
    TotalOfLater(sizes, batch, k);
  }

  lemma StopsHere(sizes: seq<nat>, batch: seq<nat>, inputBytes: nat, k: nat)
    requires Taken(sizes, batch, inputBytes, k) && k < |sizes| && sizes[k] <= BYTES_PER_CALL
    requires |batch| == BATCH || inputBytes + sizes[k] > BYTES_PER_CALL
    ensures batch != [] && forall m :: 0 <= m < |sizes| ==> LeftOutRightly(sizes, batch, inputBytes, m)
  {
    if |batch| < BATCH { assert Crowded(sizes, batch, inputBytes); }
    forall m | 0 <= m < |sizes| ensures LeftOutRightly(sizes, batch, inputBytes, m) {
    }
  }

  lemma EndsHere(sizes: seq<nat>, batch: seq<nat>, inputBytes: nat)
    requires Taken(sizes, batch, inputBytes, |sizes|)
    ensures batch == [] ==> forall k :: 0 <= k < |sizes| ==> sizes[k] > BYTES_PER_CALL
    ensures forall k :: 0 <= k < |sizes| ==> LeftOutRightly(sizes, batch, inputBytes, k)
  {
  }

  function Total(sizes: seq<nat>, batch: seq<nat>): nat
    requires forall i :: 0 <= i < |batch| ==> batch[i] < |sizes|
  {
    if batch == [] then 0 else Total(sizes, batch[..|batch| - 1]) + sizes[batch[|batch| - 1]]
  }

  lemma TotalOfLater(sizes: seq<nat>, batch: seq<nat>, k: nat)
    requires k < |sizes| && forall i :: 0 <= i < |batch| ==> batch[i] < |sizes|
    ensures Total(sizes, batch + [k]) == Total(sizes, batch) + sizes[k]
  {
    assert (batch + [k])[..|batch|] == batch;
  }

  /** The first document after the batch that is small enough does not fit beside it. */
  ghost predicate Crowded(sizes: seq<nat>, batch: seq<nat>, inputBytes: nat) {
    exists k :: 0 <= k < |sizes| && sizes[k] <= 20_000 && inputBytes + sizes[k] > 20_000
                && (forall i :: 0 <= i < |batch| ==> batch[i] < k)
                && forall m :: 0 <= m < k && sizes[m] <= 20_000 ==> m in batch
  }

  // ---- durable records ----

  /** The requested window; its digest is its identity. */
  datatype Spec = Spec(startedAt: int, until: int, maxCalls: int)

  datatype Input = Input(runId: string, profile: string, checkpoint: string, window: Spec)

  datatype Flight = Flight(runId: string, attempt: int)

  datatype Start = Start(flight: Flight, at: int, tokens: int)

  datatype Window = Window(
    id: Spec, until: int, maxCalls: int, calls: int, tokens: int, halted: bool, inFlight: Option<Flight>,
    lastStartAt: int, recent: seq<Start>)

  datatype Run = Run(
    windowId: Spec, profile: string, checkpoint: string, calls: int, inputBytes: int, tokens: int,
    accountedAttempt: int)

  function NewRun(input: Input): Run {
    Run(input.window, input.profile, input.checkpoint, 0, 0, 0, 0)
  }

  predicate Counter(n: int) { Safe(n) && n >= 0 }

  predicate Parses(input: Input, now: int) {
    && input.window.startedAt <= now < input.window.until
    && input.window.until - input.window.startedAt <= WINDOW_MS
    && 1 <= input.window.maxCalls <= CALLS_PER_WINDOW
  }

  /** What is checked whenever a durable window is read. */
  predicate ValidWindow(w: Window) {
    && Counter(w.calls) && Counter(w.tokens) && Counter(w.maxCalls) && Counter(w.lastStartAt)
    && 1 <= w.maxCalls <= CALLS_PER_WINDOW && w.calls <= w.maxCalls
    && |w.recent| <= 32 && forall r :: r in w.recent ==> Counter(r.at) && Counter(r.tokens)
  }

  /** What is checked whenever a durable run is read. */
  predicate ValidRun(r: Run) {
    && Counter(r.calls) && Counter(r.inputBytes) && Counter(r.tokens) && Counter(r.accountedAttempt)
    && r.calls <= CALLS_PER_RUN && r.inputBytes <= BYTES_PER_RUN && r.accountedAttempt <= r.calls
  }

  // ---- the reservation ----

  datatype Refusal = InvalidRecord | Halted | IdentityMismatch | RunReused | Expired | Budget | Pacing

  datatype Reservation = Refused(reason: Refusal) | Reserved(window: Window, run: Run, flight: Flight)

  function OpenWindow(previous: Option<Window>, spec: Spec, now: int): Window {
    if previous.Some? && previous.value.id == spec then previous.value
    else
      var active := if previous.Some? && previous.value.until > now then previous else None;
      Window(spec, spec.until, spec.maxCalls,
             if active.None? then 0
             else if active.value.calls <= spec.maxCalls then active.value.calls
             else spec.maxCalls,
             if active.None? then 0 else active.value.tokens,
             false, None,
             if active.None? then 0 else active.value.lastStartAt,
             if active.None? then [] else active.value.recent)
  }

  function Since(recent: seq<Start>, after: int): seq<Start> {
    if recent == [] then []
    else if recent[0].at > after then [recent[0]] + Since(recent[1..], after)
    else Since(recent[1..], after)
  }

  function Tokens(recent: seq<Start>): int {
    if recent == [] then 0 else recent[0].tokens + Tokens(recent[1..])
  }

  function Reserve(
      previous: Option<Window>, previousRun: Option<Run>, input: Input, bytes: nat, now: int): Reservation {
    if (previous.Some? && !ValidWindow(previous.value)) || (previousRun.Some? && !ValidRun(previousRun.value)) then
      Refused(InvalidRecord)
    else if previous.Some? && (previous.value.halted || previous.value.inFlight.Some?) then Refused(Halted)
    else if previous.Some? && previous.value.id == input.window
            && (previous.value.until != input.window.until || previous.value.maxCalls != input.window.maxCalls) then
      Refused(IdentityMismatch)
    else
      var window := OpenWindow(previous, input.window, now);
      var run := if previousRun.Some? then previousRun.value else NewRun(input);
      if run.windowId != input.window || run.profile != input.profile || run.checkpoint != input.checkpoint then
        Refused(RunReused)
      else if window.until <= now then Refused(Expired)
      else if OverBudget(window, run, input, bytes) then Refused(Budget)
      else
        var recent := Since(window.recent, now - MINUTE);
        if (window.lastStartAt != 0 && now - window.lastStartAt < INTERVAL)
           || Tokens(recent) + bytes > ROLLING_BYTES then
          Refused(Pacing)
        else
          var flight := Flight(input.runId, run.calls + 1);
          Reserved(window.(calls := window.calls + 1, inFlight := Some(flight), lastStartAt := now,
                           recent := recent + [Start(flight, now, bytes)]),
                   run.(calls := run.calls + 1, inputBytes := run.inputBytes + bytes), flight)
  }

  predicate OverBudget(window: Window, run: Run, input: Input, bytes: nat) {
    || window.calls >= window.maxCalls
    || run.calls >= CALLS_PER_RUN
    || run.inputBytes + bytes > BYTES_PER_RUN
    || run.tokens + bytes > TOKENS_PER_RUN
    || window.tokens + bytes > input.window.maxCalls * BYTES_PER_CALL
  }

  // ---- the settlement ----

  /** A process between its reservation and its settlement. */
  datatype Holder = Holder(input: Input, flight: Flight, tokens: nat, paid: bool, cleared: bool, phase: Phase)

  datatype Phase = Held | Closing(halted: bool)

  function WithTokens(recent: seq<Start>, flight: Flight, tokens: int): seq<Start> {
    seq(|recent|, i requires 0 <= i < |recent| =>
      if recent[i].flight == flight then recent[i].(tokens := tokens) else recent[i])
  }

  function Additional(run: Run, h: Holder): int {
    if run.accountedAttempt < h.flight.attempt then h.tokens else 0
  }

  predicate Settles(window: Option<Window>, run: Option<Run>, h: Holder) {
    && window.Some? && run.Some? && window.value.id == h.input.window && run.value.windowId == h.input.window
    && window.value.inFlight == Some(h.flight)
  }

  function SettledWindow(window: Window, run: Run, h: Holder, halted: bool): Window {
    window.(tokens := window.tokens + Additional(run, h), halted := window.halted || halted,
            inFlight := if halted then window.inFlight else None,
            recent := WithTokens(window.recent, h.flight, h.tokens))
  }

  function SettledRun(run: Run, h: Holder): Run {
    run.(tokens := run.tokens + Additional(run, h), accountedAttempt := h.flight.attempt)
  }

  // ---- reservation and settlement, read off the records ----

  predicate WindowReads(w: Window) {
    && 1 <= w.maxCalls <= 400 && 0 <= w.calls <= w.maxCalls
    && 0 <= w.tokens <= MAX_SAFE && 0 <= w.lastStartAt <= MAX_SAFE && |w.recent| <= 32
    && forall i :: 0 <= i < |w.recent| ==> 0 <= w.recent[i].at <= MAX_SAFE && 0 <= w.recent[i].tokens <= MAX_SAFE
  }

  predicate RunReads(r: Run) {
    && 0 <= r.accountedAttempt <= r.calls <= 45 && 0 <= r.inputBytes <= 900_000 && 0 <= r.tokens <= MAX_SAFE
  }

  /** The window a call is charged to: the stored one when it is the requested
      one, and otherwise a new one, which takes over what a running one spent. */
  predicate Charges(previous: Option<Window>, spec: Spec, now: int, w: Window) {
    if previous.Some? && previous.value.id == spec then w == previous.value
    else
      && w.id == spec && w.until == spec.until && w.maxCalls == spec.maxCalls && !w.halted && w.inFlight.None?
      && if previous.Some? && now < previous.value.until
         then
           && w.tokens == previous.value.tokens && w.lastStartAt == previous.value.lastStartAt
           && w.recent == previous.value.recent
           && w.calls <= previous.value.calls && w.calls <= spec.maxCalls
           && (w.calls == previous.value.calls || w.calls == spec.maxCalls)
         else w.calls == 0 && w.tokens == 0 && w.lastStartAt == 0 && w.recent == []
  }

  predicate StartsFrom(previous: Option<Run>, input: Input, r: Run) {
    match previous
    case Some(run) => r == run
    case None =>
      && r.windowId == input.window && r.profile == input.profile && r.checkpoint == input.checkpoint
      && r.calls == 0 && r.inputBytes == 0 && r.tokens == 0 && r.accountedAttempt == 0
  }

  /** The tokens of the starts after an instant, among the first n. */
  ghost function Sent(recent: seq<Start>, after: int, n: nat): int
    requires n <= |recent|
  {
    if n == 0 then 0
    else Sent(recent, after, n - 1) + if after < recent[n - 1].at then recent[n - 1].tokens else 0
  }

  function LaterThan(after: int): Start -> bool { (start: Start) => after < start.at }

  predicate Busy(previous: Option<Window>) {
    previous.Some? && (previous.value.halted || previous.value.inFlight != None)
  }

  predicate Mistaken(previous: Option<Window>, spec: Spec) {
    && previous.Some? && previous.value.id == spec
    && !(previous.value.until == spec.until && previous.value.maxCalls == spec.maxCalls)
  }

  predicate Owns(r: Run, input: Input) {
    r.windowId == input.window && r.profile == input.profile && r.checkpoint == input.checkpoint
  }

  /** One more call of this size stays within every budget. */
  predicate Affordable(w: Window, r: Run, input: Input, bytes: nat) {
    && w.calls + 1 <= w.maxCalls && r.calls + 1 <= 45
    && r.inputBytes + bytes <= 900_000 && r.tokens + bytes <= 900_000
    && w.tokens + bytes <= 20_000 * input.window.maxCalls
  }

  /** The last start is 21 seconds ago, and the last minute leaves room. */
  ghost predicate Unhurried(w: Window, bytes: nat, now: int) {
    && (w.lastStartAt == 0 || w.lastStartAt + 21_000 <= now)
    && Sent(w.recent, now - 60_000, |w.recent|) + bytes <= 24_000
  }

  /** What is written for a call: counted, in flight, started now and remembered
      beside the starts of the last minute. */
  ghost predicate Opens(
      w: Window, r: Run, input: Input, bytes: nat, now: int, window: Window, run: Run, flight: Flight) {
    && flight.runId == input.runId && flight.attempt == r.calls + 1
    && run == r.(calls := r.calls + 1, inputBytes := r.inputBytes + bytes)
    && window == w.(calls := w.calls + 1, inFlight := Some(flight), lastStartAt := now, recent := window.recent)
    && window.recent != [] && window.recent[|window.recent| - 1] == Start(flight, now, bytes)
    && Picks(w.recent, LaterThan(now - 60_000), window.recent[..|window.recent| - 1])
  }

  /** The answer to a request for a call: the first reason that holds refuses it,
      and with no reason it is reserved. */
  ghost predicate Decides(
      previous: Option<Window>, previousRun: Option<Run>, input: Input, bytes: nat, now: int, outcome: Reservation) {
    exists w: Window, r: Run :: Charges(previous, input.window, now, w) && StartsFrom(previousRun, input, r)
      && DecidesFor(previous, previousRun, input, bytes, now, w, r, outcome)
  }

  ghost predicate DecidesFor(
      previous: Option<Window>, previousRun: Option<Run>, input: Input, bytes: nat, now: int, w: Window, r: Run,
      outcome: Reservation) {
    var legible :=
      (previous.Some? ==> WindowReads(previous.value)) && (previousRun.Some? ==> RunReads(previousRun.value));
    var open := legible && !Busy(previous) && !Mistaken(previous, input.window);
    var ready := open && Owns(r, input) && now < w.until;
    match outcome
    case Refused(InvalidRecord) => !legible
    case Refused(Halted) => legible && Busy(previous)
    case Refused(IdentityMismatch) => legible && !Busy(previous) && Mistaken(previous, input.window)
    case Refused(RunReused) => open && !Owns(r, input)
    case Refused(Expired) => open && Owns(r, input) && w.until <= now
    case Refused(Budget) => ready && !Affordable(w, r, input, bytes)
    case Refused(Pacing) => ready && Affordable(w, r, input, bytes) && !Unhurried(w, bytes, now)
    case Reserved(window, run, flight) =>
      && ready && Affordable(w, r, input, bytes) && Unhurried(w, bytes, now)
      && Opens(w, r, input, bytes, now, window, run, flight)
  }

  lemma {:induction false} SinceExactly(recent: seq<Start>, after: int)
    ensures Picks(recent, LaterThan(after), Since(recent, after))
    decreases recent
  {
    if recent == [] {
      PicksNone(LaterThan(after));
    } else {
      SinceExactly(recent[1..], after);
      PicksFirst(recent[0], recent[1..], LaterThan(after), Since(recent[1..], after));
      assert recent == [recent[0]] + recent[1..];
    }
  }

  lemma {:induction false} SinceOfLater(recent: seq<Start>, last: Start, after: int)
    ensures Tokens(Since(recent + [last], after))
         == Tokens(Since(recent, after)) + if after < last.at then last.tokens else 0
  {
    if recent == [] {
      assert [last][1..] == [] && recent + [last] == [last];
    } else {
      assert (recent + [last])[1..] == recent[1..] + [last];
      SinceOfLater(recent[1..], last, after);
    }
  }

  lemma {:induction false} SentIsTokens(recent: seq<Start>, after: int, n: nat)
    requires n <= |recent|
    ensures Sent(recent, after, n) == Tokens(Since(recent[..n], after))
  {
    if n > 0 {
      SentIsTokens(recent, after, n - 1);
      SinceOfLater(recent[..n - 1], recent[n - 1], after);
      assert recent[..n] == recent[..n - 1] + [recent[n - 1]];
    }
  }

  lemma OpenedCharges(previous: Option<Window>, spec: Spec, now: int)
    ensures Charges(previous, spec, now, OpenWindow(previous, spec, now))
  {
  }

  lemma HurriedByRecords(w: Window, bytes: nat, now: int)
    ensures Unhurried(w, bytes, now) <==>
      !((w.lastStartAt != 0 && now - w.lastStartAt < INTERVAL)
        || Tokens(Since(w.recent, now - MINUTE)) + bytes > ROLLING_BYTES)
  {
    SentIsTokens(w.recent, now - 60_000, |w.recent|);
    assert w.recent[..|w.recent|] == w.recent;
  }

  lemma OpensByRecords(w: Window, r: Run, input: Input, bytes: nat, now: int, recent: seq<Start>, flight: Flight)
    requires recent == Since(w.recent, now - 60_000) && flight == Flight(input.runId, r.calls + 1)
    ensures Opens(w, r, input, bytes, now,
      w.(calls := w.calls + 1, inFlight := Some(flight), lastStartAt := now,
         recent := recent + [Start(flight, now, bytes)]),
      r.(calls := r.calls + 1, inputBytes := r.inputBytes + bytes), flight)
  {
    SinceExactly(w.recent, now - 60_000);
    var longer := recent + [Start(flight, now, bytes)];
    assert longer[..|longer| - 1] == recent;
  }

  /** The run a call is charged to. */
  function RunOf(previous: Option<Run>, input: Input): Run {
    if previous.Some? then previous.value else NewRun(input)
  }

  lemma RefusesByRecords(previous: Option<Window>, previousRun: Option<Run>, input: Input, bytes: nat, now: int)
    requires Reserve(previous, previousRun, input, bytes, now).Refused?
    ensures DecidesFor(previous, previousRun, input, bytes, now, OpenWindow(previous, input.window, now),
      RunOf(previousRun, input), Reserve(previous, previousRun, input, bytes, now))
  {
    ReadsByCounters(previous, previousRun);
    HurriedByRecords(OpenWindow(previous, input.window, now), bytes, now);
  }

  lemma GrantsByRecords(previous: Option<Window>, previousRun: Option<Run>, input: Input, bytes: nat, now: int)
    requires Reserve(previous, previousRun, input, bytes, now).Reserved?
    ensures DecidesFor(previous, previousRun, input, bytes, now, OpenWindow(previous, input.window, now),
      RunOf(previousRun, input), Reserve(previous, previousRun, input, bytes, now))
  {
    var w, r := OpenWindow(previous, input.window, now), RunOf(previousRun, input);
    ReadsByCounters(previous, previousRun);
    HurriedByRecords(w, bytes, now);
    OpensByRecords(w, r, input, bytes, now, Since(w.recent, now - 60_000), Flight(input.runId, r.calls + 1));
  }

  /** The reservation of the code is the one that the records ask for. */
  lemma ReservesByRecords(previous: Option<Window>, previousRun: Option<Run>, input: Input, bytes: nat, now: int)
    ensures Decides(previous, previousRun, input, bytes, now, Reserve(previous, previousRun, input, bytes, now))
  {
    OpenedCharges(previous, input.window, now);
    if Reserve(previous, previousRun, input, bytes, now).Refused? {
      RefusesByRecords(previous, previousRun, input, bytes, now);
    } else {
      GrantsByRecords(previous, previousRun, input, bytes, now);
    }
    assert StartsFrom(previousRun, input, RunOf(previousRun, input));
  }

  lemma ReadsByCounters(previous: Option<Window>, previousRun: Option<Run>)
    ensures previous.Some? ==> (ValidWindow(previous.value) <==> WindowReads(previous.value))
    ensures previousRun.Some? ==> (ValidRun(previousRun.value) <==> RunReads(previousRun.value))
  {
    if previous.Some? {
      var recent := previous.value.recent;
      assert forall i :: 0 <= i < |recent| ==> recent[i] in recent;
    }
  }

  /** What a settlement writes: the tokens are added to both records unless the
      attempt is accounted for, the start remembers what it really used, and only
      a halted call stays in flight. */
  predicate SettledAs(w: Window, r: Run, h: Holder, halted: bool, window: Window, run: Run) {
    var added := if r.accountedAttempt < h.flight.attempt then h.tokens else 0;
    && run == r.(tokens := r.tokens + added, accountedAttempt := h.flight.attempt)
    && window.tokens == w.tokens + added && window.halted == (w.halted || halted)
    && window.inFlight == (if halted then w.inFlight else None)
    && window == w.(tokens := window.tokens, halted := window.halted, inFlight := window.inFlight,
                    recent := window.recent)
    && |window.recent| == |w.recent|
    && forall i :: 0 <= i < |w.recent| ==>
         && window.recent[i].flight == w.recent[i].flight && window.recent[i].at == w.recent[i].at
         && window.recent[i].tokens == if w.recent[i].flight == h.flight then h.tokens else w.recent[i].tokens
  }

  // ---- the control store ----

  function Lookup<V>(records: map<string, V>, key: string): Option<V> {
    if key in records then Some(records[key]) else None
  }

  class ControlStore {
    var window: Option<Window>
    var runs: map<string, Run>

    constructor ()
      ensures window == None && runs == map[]
    {
      window, runs := None, map[];
    }

    /** One transaction: refused and unchanged, or both records written. */
    method ReserveCall(input: Input, bytes: nat, now: int) returns (outcome: Reservation)
      modifies this
      ensures outcome == Reserve(old(window), Lookup(old(runs), input.runId), input, bytes, now)
      ensures Decides(old(window), Lookup(old(runs), input.runId), input, bytes, now, outcome)
      ensures outcome.Refused? ==> window == old(window) && runs == old(runs)
      ensures outcome.Reserved? ==> window == Some(outcome.window) && runs == old(runs)[input.runId := outcome.run]
    {
      outcome := Transact(input, bytes, now);
      ReservesByRecords(old(window), Lookup(old(runs), input.runId), input, bytes, now);
    }

    method Transact(input: Input, bytes: nat, now: int) returns (outcome: Reservation)
      modifies this
      ensures outcome == Reserve(old(window), Lookup(old(runs), input.runId), input, bytes, now)
      ensures outcome.Refused? ==> window == old(window) && runs == old(runs)
      ensures outcome.Reserved? ==> window == Some(outcome.window) && runs == old(runs)[input.runId := outcome.run]
    {
      var previous, previousRun := window, Lookup(runs, input.runId);
      if (previous.Some? && !ValidWindow(previous.value)) || (previousRun.Some? && !ValidRun(previousRun.value)) {
        return Refused(InvalidRecord);
      }
      if previous.Some? && (previous.value.halted || previous.value.inFlight.Some?) { return Refused(Halted); }
      if previous.Some? && previous.value.id == input.window
         && (previous.value.until != input.window.until || previous.value.maxCalls != input.window.maxCalls) {
        return Refused(IdentityMismatch);
      }
      var current := OpenWindow(previous, input.window, now);
      var run := if previousRun.Some? then previousRun.value else NewRun(input);
      if run.windowId != input.window || run.profile != input.profile || run.checkpoint != input.checkpoint {
        return Refused(RunReused);
      }
      if current.until <= now { return Refused(Expired); }
      if OverBudget(current, run, input, bytes) { return Refused(Budget); }
      var recent := Since(current.recent, now - MINUTE);
      if current.lastStartAt != 0 && now - current.lastStartAt < INTERVAL { return Refused(Pacing); }
      if Tokens(recent) + bytes > ROLLING_BYTES { return Refused(Pacing); }
      var flight := Flight(input.runId, run.calls + 1);
      window := Some(current.(calls := current.calls + 1, inFlight := Some(flight), lastStartAt := now,
                             recent := recent + [Start(flight, now, bytes)]));
      runs := runs[input.runId := run.(calls := run.calls + 1, inputBytes := run.inputBytes + bytes)];
      return Reserved(window.value, runs[input.runId], flight);
    }

    method Settle(h: Holder, halted: bool) returns (ok: bool)
      modifies this
      ensures ok == Settles(old(window), Lookup(old(runs), h.flight.runId), h)
      ensures !ok ==> window == old(window) && runs == old(runs)
      ensures ok ==> window == Some(SettledWindow(old(window).value, old(runs)[h.flight.runId], h, halted))
      ensures ok ==> runs == old(runs)[h.flight.runId := SettledRun(old(runs)[h.flight.runId], h)]
      ensures ok <==>
        old(window).Some? && h.flight.runId in old(runs) && old(window).value.id == h.input.window
        && old(runs)[h.flight.runId].windowId == h.input.window && old(window).value.inFlight == Some(h.flight)
      ensures ok ==>
        window.Some? && h.flight.runId in runs
        && SettledAs(old(window).value, old(runs)[h.flight.runId], h, halted, window.value, runs[h.flight.runId])
    {
      if window.None? || h.flight.runId !in runs { return false; }
      var w, run := window.value, runs[h.flight.runId];
      if w.id != h.input.window || run.windowId != h.input.window || w.inFlight != Some(h.flight) { return false; }
      var additional := if run.accountedAttempt < h.flight.attempt then h.tokens else 0;
      window := Some(w.(tokens := w.tokens + additional, halted := w.halted || halted,
                        inFlight := if halted then w.inFlight else None,
                        recent := WithTokens(w.recent, h.flight, h.tokens)));
      runs := runs[h.flight.runId := run.(tokens := run.tokens + additional, accountedAttempt := h.flight.attempt)];
      return true;
    }
  }
}

/** Every run of audited indexing: holders reserve, pay, observe tokens, check
    the threshold, settle, repeat a settlement, or crash, in any interleaving. */
module IndexRuns {
  import opened HostNumbers
  import opened Listings
  import opened AuditedIndex

  /** When a flight was reserved, for how many bytes, and under which window. */
  datatype Began = Began(flight: Flight, at: int, bytes: nat, window: Spec)

  /** Durable records, live holders, and the history the properties speak of:
      which flights were ever reserved and when, which provider calls were made,
      and what each settled flight used. */
  datatype State = State(
    clock: int, window: Option<Window>, runs: map<string, Run>, holders: map<Flight, Holder>,
    reserved: seq<Flight>, starts: seq<Began>, paid: seq<Flight>, ledger: map<Flight, nat>)

  datatype Step =
    | Tick(now: int)
    | Begin(input: Input, bytes: nat)
    | Pay(flight: Flight)
    | Observe(flight: Flight, tokens: nat)
    | Check(flight: Flight)
    | Publish(flight: Flight)
    | Fail(flight: Flight)
    | Crash(flight: Flight)

  const START := State(1, None, map[], map[], [], [], [], map[])

  predicate BelowThreshold(s: State, h: Holder) {
    && s.window.Some? && h.flight.runId in s.runs
    && s.runs[h.flight.runId].tokens + h.tokens <= TOKENS_PER_RUN
    && s.window.value.tokens + h.tokens <= h.input.window.maxCalls * BYTES_PER_CALL
  }

  predicate Enabled(s: State, step: Step) {
    match step
    case Tick(now) => s.clock <= now <= MAX_DATE
    case Begin(input, bytes) => Parses(input, s.clock) && bytes <= BYTES_PER_CALL
    case Pay(f) => f in s.holders && s.holders[f].phase == Held && !s.holders[f].paid
      && s.clock < s.holders[f].input.window.until
    case Observe(f, tokens) =>
      f in s.holders && s.holders[f].phase == Held && s.holders[f].paid && !s.holders[f].cleared && tokens <= MAX_SAFE
    case Check(f) => f in s.holders && s.holders[f].phase == Held && s.holders[f].paid
      && BelowThreshold(s, s.holders[f])
    case Publish(f) => f in s.holders && s.holders[f].cleared && s.holders[f].phase != Closing(true)
    case Fail(f) => f in s.holders
    case Crash(f) => f in s.holders
  }

  function Next(s: State, step: Step): State
    requires Enabled(s, step)
  {
    match step
    case Tick(now) => s.(clock := now)
    case Begin(input, bytes) =>
      (match Reserve(s.window, Lookup(s.runs, input.runId), input, bytes, s.clock)
       case Refused(_) => s
       case Reserved(window, run, flight) =>
         s.(window := Some(window), runs := s.runs[input.runId := run],
            holders := s.holders[flight := Holder(input, flight, 0, false, false, Held)],
            reserved := s.reserved + [flight], starts := s.starts + [Began(flight, s.clock, bytes, input.window)]))
    case Pay(f) => s.(holders := s.holders[f := s.holders[f].(paid := true)], paid := s.paid + [f])
    case Observe(f, tokens) => s.(holders := s.holders[f := s.holders[f].(tokens := tokens)])
    case Check(f) => s.(holders := s.holders[f := s.holders[f].(cleared := true)])
    case Publish(f) => Close(s, f, false)
    case Fail(f) => Close(s, f, true)
    case Crash(f) => s.(holders := s.holders - {f})
  }

  /** A settlement, which may be a repetition and is then refused or changes nothing. */
  function Close(s: State, f: Flight, halted: bool): State
    requires f in s.holders
  {
    var h := s.holders[f];
    var holders := s.holders[f := h.(phase := Closing(halted))];
    if !Settles(s.window, Lookup(s.runs, h.flight.runId), h) then s.(holders := holders)
    else
      var run := s.runs[h.flight.runId];
      State(s.clock, Some(SettledWindow(s.window.value, run, h, halted)),
            s.runs[h.flight.runId := SettledRun(run, h)], holders,
            s.reserved, s.starts, s.paid,
            if run.accountedAttempt < h.flight.attempt then s.ledger[h.flight := h.tokens] else s.ledger)
  }

  predicate IsRun(states: seq<State>, steps: seq<Step>) {
    && |states| == |steps| + 1 && states[0] == START
    && forall i :: 0 <= i < |steps| ==> Enabled(states[i], steps[i]) && states[i + 1] == Next(states[i], steps[i])
  }

  // ---- what every step keeps ----

  ghost predicate Spaced(recent: seq<Start>) {
    && (forall i, j :: 0 <= i < j < |recent| ==> recent[j].at - recent[i].at >= INTERVAL * (j - i))
    && (forall i :: 0 <= i < |recent| ==> recent[i].at > 0 && 0 <= recent[i].tokens <= MAX_SAFE)
  }

  ghost predicate WindowOk(w: Window, clock: int) {
    && w.until == w.id.until && w.maxCalls == w.id.maxCalls && 1 <= w.maxCalls <= CALLS_PER_WINDOW
    && 1 <= w.calls <= w.maxCalls && 0 < w.lastStartAt <= clock && w.tokens >= 0
    && (!w.halted ==> w.tokens <= w.maxCalls * BYTES_PER_CALL)
    && Spaced(w.recent) && w.recent != [] && w.recent[|w.recent| - 1].at == w.lastStartAt
    && w.lastStartAt - w.recent[0].at < MINUTE
  }

  ghost predicate RunOk(r: Run) {
    && 1 <= r.calls <= CALLS_PER_RUN && 0 <= r.inputBytes <= BYTES_PER_RUN && r.tokens >= 0
    && r.calls - 1 <= r.accountedAttempt <= r.calls
  }

  ghost predicate RecordsOk(s: State) {
    && 0 < s.clock <= MAX_DATE
    && (s.window.Some? ==> WindowOk(s.window.value, s.clock))
    && (forall id :: id in s.runs ==> RunOk(s.runs[id]) && s.window.Some?)
    && (s.window.Some? && !s.window.value.halted ==> forall id :: id in s.runs ==> s.runs[id].tokens <= TOKENS_PER_RUN)
  }

  /** The flight in the air is its run's last attempt, and only its run may have
      a call that is not accounted for. */
  ghost predicate InFlightOk(s: State) {
    && (s.window.Some? && s.window.value.inFlight.Some? ==>
          var f := s.window.value.inFlight.value; f.runId in s.runs && s.runs[f.runId].calls == f.attempt)
    && (forall id :: id in s.runs && s.runs[id].accountedAttempt < s.runs[id].calls ==>
          s.window.Some? && s.window.value.inFlight == Some(Flight(id, s.runs[id].calls)))
  }

  /** A holder that has not settled yet holds the flight in the air. */
  ghost predicate HolderOk(s: State, f: Flight, h: Holder) {
    && h.flight == f && f.runId == h.input.runId && h.tokens <= MAX_SAFE && f in s.reserved
    && (h.paid <==> f in s.paid) && (h.cleared ==> h.paid)
    && (h.phase == Held ==>
          && s.window.Some? && s.window.value.inFlight == Some(f) && !s.window.value.halted
          && s.window.value.id == h.input.window
          && f.runId in s.runs && s.runs[f.runId].windowId == h.input.window
          && s.runs[f.runId].accountedAttempt == f.attempt - 1
          && (h.cleared ==> BelowThreshold(s, h)))
    && (h.phase != Held && s.window.Some? && s.window.value.inFlight == Some(f) ==>
          h.phase == Closing(true) && s.window.value.halted && f.runId in s.runs
            && s.runs[f.runId].accountedAttempt == f.attempt)
  }

  ghost predicate HoldersOk(s: State) {
    forall f :: f in s.holders ==> HolderOk(s, f, s.holders[f])
  }

  /** Attempts are numbered without gaps or repetitions. */
  ghost predicate ReservedOk(s: State) {
    && (forall i, j :: 0 <= i < j < |s.reserved| ==> s.reserved[i] != s.reserved[j])
    && (forall f :: f in s.reserved <==> f.runId in s.runs && 1 <= f.attempt <= s.runs[f.runId].calls)
  }

  ghost predicate PaidOk(s: State) {
    && (forall i, j :: 0 <= i < j < |s.paid| ==> s.paid[i] != s.paid[j])
    && (forall f :: f in s.paid ==> f in s.reserved)
  }

  function Accounted(ledger: map<Flight, nat>, id: string, attempts: int): int
    decreases if attempts > 0 then attempts else 0
  {
    if attempts <= 0 then 0
    else
      Accounted(ledger, id, attempts - 1)
      + if Flight(id, attempts) in ledger then ledger[Flight(id, attempts)] else 0
  }

  /** Each run's tokens are the sum over its accounted attempts. */
  ghost predicate LedgerOk(s: State) {
    && (forall f :: f in s.ledger <==> f.runId in s.runs && 1 <= f.attempt <= s.runs[f.runId].accountedAttempt)
    && (forall id :: id in s.runs ==> s.runs[id].tokens == Accounted(s.ledger, id, s.runs[id].accountedAttempt))
  }

  ghost predicate Inv(s: State) {
    RecordsOk(s) && InFlightOk(s) && HoldersOk(s) && ReservedOk(s) && PaidOk(s) && LedgerOk(s)
  }

  // ---- reservations ----

  /** The starts since an instant are the end of a list in time order. */
  lemma {:induction false} SinceIsSuffix(recent: seq<Start>, after: int) returns (k: nat)
    requires forall i, j :: 0 <= i < j < |recent| ==> recent[i].at <= recent[j].at
    ensures k <= |recent| && Since(recent, after) == recent[k..]
    ensures forall i :: 0 <= i < |recent| ==> (recent[i].at > after <==> i >= k)
    decreases recent
  {
    if recent == [] {
      k := 0;
    } else {
      var earlier := SinceIsSuffix(recent[1..], after);
      assert forall i :: 1 <= i < |recent| ==> recent[i] == recent[1..][i - 1];
      if recent[0].at > after {
        k := 0;
        assert forall i :: 0 <= i < |recent[1..]| ==> recent[1..][i].at > after;
      } else {
        k := earlier + 1;
      }
    }
  }

  lemma RecentStaysSpaced(recent: seq<Start>, now: int, start: Start) returns (kept: seq<Start>)
    requires Spaced(recent) && (recent != [] ==> now - recent[|recent| - 1].at >= INTERVAL)
    requires start.at == now > 0 && 0 <= start.tokens <= MAX_SAFE
    ensures kept == Since(recent, now - MINUTE) + [start]
    ensures Spaced(kept) && now - kept[0].at < MINUTE
  {
    var k := SinceIsSuffix(recent, now - MINUTE);
    kept := recent[k..] + [start];
    assert forall i :: 0 <= i < |kept| - 1 ==> kept[i] == recent[k + i];
    forall i, j | 0 <= i < j < |kept| ensures kept[j].at - kept[i].at >= INTERVAL * (j - i) {
      if j == |kept| - 1 {
        var last := |recent| - 1;
        assert k + i == last || recent[last].at - recent[k + i].at >= INTERVAL * (last - (k + i));
      } else {
        assert recent[k + j].at - recent[k + i].at >= INTERVAL * (j - i);
      }
    }
  }

  /** Never more than three starts are kept: four would span over a minute. */
  lemma AtMostThreeRecent(w: Window, clock: int)
    requires WindowOk(w, clock)
    ensures |w.recent| <= 3
  {
    var last := |w.recent| - 1;
    if last > 0 {
      assert w.recent[last].at - w.recent[0].at >= INTERVAL * last;
    }
  }

  /** The read-time checks accept every record a transaction wrote, up to a
      token count beyond the safe integers, which only a halted window can reach. */
  lemma ReadersAcceptWindows(w: Window, clock: int)
    requires WindowOk(w, clock) && clock <= MAX_DATE
    ensures ValidWindow(w) <==> w.tokens <= MAX_SAFE
    ensures !w.halted ==> ValidWindow(w)
  {
    AtMostThreeRecent(w, clock);
    forall r | r in w.recent ensures Counter(r.at) && Counter(r.tokens) {
      var i :| 0 <= i < |w.recent| && w.recent[i] == r;
      var last := |w.recent| - 1;
      assert i == last || w.recent[last].at - w.recent[i].at >= INTERVAL * (last - i);
    }
  }

  lemma ReadersAcceptRuns(s: State, id: string)
    requires RecordsOk(s) && id in s.runs
    ensures ValidRun(s.runs[id]) <==> s.runs[id].tokens <= MAX_SAFE
    ensures !s.window.value.halted ==> ValidRun(s.runs[id])
  {
  }

  /** The window a reservation starts from: never halted, and no call in the air. */
  ghost predicate Free(w: Window, spec: Spec, clock: int) {
    && w.id == spec && w.until == spec.until && w.maxCalls == spec.maxCalls && 1 <= w.maxCalls <= CALLS_PER_WINDOW
    && !w.halted
    && 0 <= w.calls <= w.maxCalls && w.tokens >= 0 && 0 <= w.lastStartAt <= clock && Spaced(w.recent)
    && (w.recent == [] <==> w.lastStartAt == 0) && (w.recent != [] ==> w.recent[|w.recent| - 1].at == w.lastStartAt)
  }

  lemma OpenWindowIsFree(previous: Option<Window>, spec: Spec, clock: int)
    requires clock > 0 && 1 <= spec.maxCalls <= CALLS_PER_WINDOW
    requires previous.Some? ==> WindowOk(previous.value, clock) && !previous.value.halted
    ensures Free(OpenWindow(previous, spec, clock), spec, clock)
  {
  }

  function Started(w: Window, flight: Flight, bytes: nat, now: int): Window {
    w.(calls := w.calls + 1, inFlight := Some(flight), lastStartAt := now,
       recent := Since(w.recent, now - MINUTE) + [Start(flight, now, bytes)])
  }

  lemma StartedIsOk(w: Window, spec: Spec, flight: Flight, bytes: nat, now: int)
    requires Free(w, spec, now) && now > 0 && bytes <= BYTES_PER_CALL
    requires w.calls < w.maxCalls && w.tokens + bytes <= w.maxCalls * BYTES_PER_CALL
    requires w.lastStartAt != 0 ==> now - w.lastStartAt >= INTERVAL
    ensures WindowOk(Started(w, flight, bytes, now), now)
  {
    var kept := RecentStaysSpaced(w.recent, now, Start(flight, now, bytes));
  }

  /** A reservation, spelled out. */
  lemma ReservedParts(previous: Option<Window>, previousRun: Option<Run>, input: Input, bytes: nat, now: int)
    requires Reserve(previous, previousRun, input, bytes, now).Reserved?
    ensures var r := Reserve(previous, previousRun, input, bytes, now);
            var w := OpenWindow(previous, input.window, now);
            && (previous.Some? ==> !previous.value.halted && previous.value.inFlight.None?)
            && r.window == Started(w, r.flight, bytes, now) && r.flight == Flight(input.runId, r.run.calls)
            && w.calls < w.maxCalls && w.tokens + bytes <= input.window.maxCalls * BYTES_PER_CALL
            && (w.lastStartAt != 0 ==> now - w.lastStartAt >= INTERVAL)
            && Tokens(Since(w.recent, now - MINUTE)) + bytes <= ROLLING_BYTES
  {
  }

  lemma ReservedRun(previous: Option<Window>, previousRun: Option<Run>, input: Input, bytes: nat, now: int)
    requires Reserve(previous, previousRun, input, bytes, now).Reserved?
    ensures var r := Reserve(previous, previousRun, input, bytes, now);
            && r.run.windowId == input.window && r.run.calls <= CALLS_PER_RUN && r.run.inputBytes <= BYTES_PER_RUN
            && r.run.tokens <= TOKENS_PER_RUN
            && (previousRun.None? ==>
              r.run.calls == 1 && r.run.inputBytes == bytes && r.run.tokens == 0 && r.run.accountedAttempt == 0)
            && (previousRun.Some? ==>
                  var p := previousRun.value;
                  r.run.calls == p.calls + 1 && r.run.inputBytes == p.inputBytes + bytes && r.run.tokens == p.tokens
                  && r.run.accountedAttempt == p.accountedAttempt)
  {
  }

  lemma ReserveKeepsRecords(s: State, input: Input, bytes: nat)
    requires RecordsOk(s) && InFlightOk(s) && Enabled(s, Begin(input, bytes))
    requires Reserve(s.window, Lookup(s.runs, input.runId), input, bytes, s.clock).Reserved?
    ensures var r := Reserve(s.window, Lookup(s.runs, input.runId), input, bytes, s.clock);
            WindowOk(r.window, s.clock) && RunOk(r.run) && !r.window.halted && r.run.tokens <= TOKENS_PER_RUN
            && r.window.inFlight == Some(r.flight) && r.window.id == input.window && r.run.windowId == input.window
            && r.flight == Flight(input.runId, r.run.calls) && r.run.accountedAttempt == r.run.calls - 1
            && r.run.calls == (if input.runId in s.runs then s.runs[input.runId].calls else 0) + 1
            && r.run.tokens == (if input.runId in s.runs then s.runs[input.runId].tokens else 0)
            && (s.window.Some? ==> !s.window.value.halted && s.window.value.inFlight.None?)
  {
    var r := Reserve(s.window, Lookup(s.runs, input.runId), input, bytes, s.clock);
    ReservedParts(s.window, Lookup(s.runs, input.runId), input, bytes, s.clock);
    ReservedRun(s.window, Lookup(s.runs, input.runId), input, bytes, s.clock);
    OpenWindowIsFree(s.window, input.window, s.clock);
    StartedIsOk(OpenWindow(s.window, input.window, s.clock), input.window, r.flight, bytes, s.clock);
    if input.runId in s.runs {
      assert RunOk(s.runs[input.runId]) && s.runs[input.runId].accountedAttempt == s.runs[input.runId].calls;
    }
  }

  /** What a reservation guarantees about pacing: at least 21 seconds since the
      last start the window knows of, and at most 24,000 input bytes or observed
      tokens over the last minute. */
  lemma ReservationsArePaced(s: State, input: Input, bytes: nat)
    requires Inv(s) && Enabled(s, Begin(input, bytes))
    requires Reserve(s.window, Lookup(s.runs, input.runId), input, bytes, s.clock).Reserved?
    ensures var r := Reserve(s.window, Lookup(s.runs, input.runId), input, bytes, s.clock);
            (s.window.Some? && (s.window.value.until > s.clock || s.window.value.id == input.window) ==>
               s.clock - s.window.value.lastStartAt >= INTERVAL)
            && Tokens(r.window.recent) <= ROLLING_BYTES && |r.window.recent| <= 3
  {
    ReserveKeepsRecords(s, input, bytes);
    ReservedParts(s.window, Lookup(s.runs, input.runId), input, bytes, s.clock);
    var r := Reserve(s.window, Lookup(s.runs, input.runId), input, bytes, s.clock);
    AtMostThreeRecent(r.window, s.clock);
    var w := OpenWindow(s.window, input.window, s.clock);
    TokensOfLater(Since(w.recent, s.clock - MINUTE), Start(r.flight, s.clock, bytes));
  }

  lemma {:induction false} TokensOfLater(recent: seq<Start>, start: Start)
    ensures Tokens(recent + [start]) == Tokens(recent) + start.tokens
  {
    if recent == [] {
      assert [start][1..] == [];
    } else {
      assert (recent + [start])[1..] == recent[1..] + [start];
      TokensOfLater(recent[1..], start);
    }
  }

  lemma {:induction false} AccountedAgrees(a: map<Flight, nat>, b: map<Flight, nat>, id: string, attempts: int)
    requires forall k :: 1 <= k <= attempts ==> (Flight(id, k) in a <==> Flight(id, k) in b)
    requires forall k :: 1 <= k <= attempts && Flight(id, k) in a ==> a[Flight(id, k)] == b[Flight(id, k)]
    ensures Accounted(a, id, attempts) == Accounted(b, id, attempts)
    decreases if attempts > 0 then attempts else 0
  {
    if attempts > 0 {
      AccountedAgrees(a, b, id, attempts - 1);
    }
  }

  lemma BeginKeepsInv(s: State, input: Input, bytes: nat)
    requires Inv(s) && Enabled(s, Begin(input, bytes))
    ensures Inv(Next(s, Begin(input, bytes)))
  {
    var r := Reserve(s.window, Lookup(s.runs, input.runId), input, bytes, s.clock);
    if r.Reserved? {
      ReserveKeepsRecords(s, input, bytes);
      var n := Next(s, Begin(input, bytes));
      BeginKeepsRecords(s, n, r);
      NewFlightIsNew(s, r);
      BeginKeepsHolders(s, n, r, input);
      BeginKeepsReserved(s, n, r);
      BeginKeepsLedger(s, n, r);
    }
  }

  lemma NewFlightIsNew(s: State, r: Reservation)
    requires ReservedOk(s) && PaidOk(s) && r.Reserved?
    requires r.flight.attempt == (if r.flight.runId in s.runs then s.runs[r.flight.runId].calls else 0) + 1
    ensures r.flight !in s.reserved && r.flight !in s.paid
  {
  }

  lemma BeginKeepsRecords(s: State, n: State, r: Reservation)
    requires RecordsOk(s) && InFlightOk(s) && r.Reserved?
    requires s.window.Some? ==> !s.window.value.halted && s.window.value.inFlight.None?
    requires n.clock == s.clock && n.window == Some(r.window) && n.runs == s.runs[r.flight.runId := r.run]
    requires WindowOk(r.window, s.clock) && RunOk(r.run) && r.run.tokens <= TOKENS_PER_RUN
    requires r.window.inFlight == Some(r.flight) && r.run.calls == r.flight.attempt
    ensures RecordsOk(n) && InFlightOk(n)
  {
  }

  lemma BeginKeepsLedger(s: State, n: State, r: Reservation)
    requires LedgerOk(s) && RecordsOk(s) && InFlightOk(s) && r.Reserved?
    requires s.window.Some? ==> s.window.value.inFlight.None?
    requires n.ledger == s.ledger && n.runs == s.runs[r.flight.runId := r.run]
    requires r.run.accountedAttempt == r.run.calls - 1
    requires r.run.calls == (if r.flight.runId in s.runs then s.runs[r.flight.runId].calls else 0) + 1
    requires r.run.tokens == if r.flight.runId in s.runs then s.runs[r.flight.runId].tokens else 0
    ensures LedgerOk(n)
  {
    var id := r.flight.runId;
    if id in s.runs {
      assert s.runs[id].accountedAttempt == s.runs[id].calls;
    } else {
      assert Accounted(s.ledger, id, 0) == 0;
    }
  }

  lemma BeginKeepsReserved(s: State, n: State, r: Reservation)
    requires ReservedOk(s) && r.Reserved?
    requires n.reserved == s.reserved + [r.flight] && n.runs == s.runs[r.flight.runId := r.run]
    requires r.flight.attempt
         == r.run.calls == (if r.flight.runId in s.runs then s.runs[r.flight.runId].calls else 0) + 1
    requires r.run.calls >= 1
    ensures ReservedOk(n)
  {
    assert r.flight !in s.reserved;
    forall f ensures f in n.reserved <==> f.runId in n.runs && 1 <= f.attempt <= n.runs[f.runId].calls {
      assert f in n.reserved <==> f in s.reserved || f == r.flight;
    }
  }

  lemma BeginKeepsHolders(s: State, n: State, r: Reservation, input: Input)
    requires HoldersOk(s) && r.Reserved? && r.flight !in s.reserved && r.flight !in s.paid
    requires s.window.Some? ==> s.window.value.inFlight.None?
    requires n.window == Some(r.window) && n.runs == s.runs[r.flight.runId := r.run]
    requires n.reserved == s.reserved + [r.flight] && n.paid == s.paid
    requires n.holders == s.holders[r.flight := Holder(input, r.flight, 0, false, false, Held)]
    requires r.flight.runId == input.runId && r.window.inFlight == Some(r.flight) && !r.window.halted
    requires r.window.id == input.window
    requires r.run.windowId == input.window && r.run.accountedAttempt == r.flight.attempt - 1
    ensures HoldersOk(n)
  {
    forall f | f in n.holders ensures HolderOk(n, f, n.holders[f]) {
      if f != r.flight {
        assert HolderOk(s, f, s.holders[f]) && s.holders[f].phase != Held;
      }
    }
  }

  // ---- settlements ----

  /** A first settlement finds its run unaccounted; a repeated one finds it
      accounted and halted, and adds nothing. */
  lemma SettlementIsFirstOrRepeated(s: State, f: Flight)
    requires Inv(s) && f in s.holders && Settles(s.window, Lookup(s.runs, f.runId), s.holders[f])
    ensures var h, run := s.holders[f], s.runs[f.runId];
            h.flight == f && run.calls == f.attempt && s.window.value.inFlight == Some(f)
            && (h.phase == Held ==> run.accountedAttempt == f.attempt - 1 && !s.window.value.halted)
            && (h.phase != Held ==>
              h.phase == Closing(true) && run.accountedAttempt == f.attempt && s.window.value.halted)
  {
    assert HolderOk(s, f, s.holders[f]);
  }

  /** What a settlement that goes ahead knows about its flight. */
  ghost predicate Settling(s: State, f: Flight, halted: bool) {
    && f in s.holders && s.holders[f].flight == f && s.holders[f].tokens <= MAX_SAFE
    && Settles(s.window, Lookup(s.runs, f.runId), s.holders[f])
    && s.runs[f.runId].calls == f.attempt >= 1 && f.attempt - 1 <= s.runs[f.runId].accountedAttempt <= f.attempt
    && (s.holders[f].phase == Held ==> s.runs[f.runId].accountedAttempt == f.attempt - 1)
    && (!halted ==> BelowThreshold(s, s.holders[f]) && !s.window.value.halted)
  }

  lemma SettlementsAreSettling(s: State, f: Flight, halted: bool)
    requires Inv(s) && Enabled(s, if halted then Fail(f) else Publish(f))
    requires Settles(s.window, Lookup(s.runs, f.runId), s.holders[f])
    ensures Settling(s, f, halted)
  {
    SettlementIsFirstOrRepeated(s, f);
    assert HolderOk(s, f, s.holders[f]);
    assert RunOk(s.runs[f.runId]);
  }

  lemma CloseKeepsInv(s: State, f: Flight, halted: bool)
    requires Inv(s) && Enabled(s, if halted then Fail(f) else Publish(f))
    ensures Inv(Close(s, f, halted))
  {
    if Settles(s.window, Lookup(s.runs, f.runId), s.holders[f]) {
      SettlementsAreSettling(s, f, halted);
      CloseKeepsRecords(s, f, halted);
      CloseKeepsInFlight(s, f, halted);
      CloseKeepsHolders(s, f, halted);
      CloseKeepsLedger(s, f, halted);
    } else {
      RefusedCloseKeepsInv(s, f, halted);
    }
  }

  lemma RefusedCloseKeepsHolders(s: State, f: Flight, halted: bool)
    requires HoldersOk(s) && Enabled(s, if halted then Fail(f) else Publish(f))
    requires !Settles(s.window, Lookup(s.runs, f.runId), s.holders[f])
    ensures Close(s, f, halted) == s.(holders := Close(s, f, halted).holders) && HoldersOk(Close(s, f, halted))
  {
    var n := Close(s, f, halted);
    assert HolderOk(s, f, s.holders[f]);
    forall g | g in n.holders ensures HolderOk(n, g, n.holders[g]) {
      assert HolderOk(s, g, s.holders[g]);
    }
  }

  lemma RefusedCloseKeepsInv(s: State, f: Flight, halted: bool)
    requires Inv(s) && Enabled(s, if halted then Fail(f) else Publish(f))
    requires !Settles(s.window, Lookup(s.runs, f.runId), s.holders[f])
    ensures Inv(Close(s, f, halted))
  {
    RefusedCloseKeepsHolders(s, f, halted);
    SameRecords(s, Close(s, f, halted));
  }

  lemma SettledWindowIsOk(w: Window, run: Run, h: Holder, halted: bool, clock: int)
    requires WindowOk(w, clock) && h.tokens <= MAX_SAFE
    requires !halted ==> w.tokens + h.tokens <= w.maxCalls * BYTES_PER_CALL
    ensures WindowOk(SettledWindow(w, run, h, halted), clock)
  {
    var recent := WithTokens(w.recent, h.flight, h.tokens);
    assert forall i :: 0 <= i < |recent| ==> recent[i].at == w.recent[i].at;
  }

  lemma CloseKeepsRecords(s: State, f: Flight, halted: bool)
    requires RecordsOk(s) && Settling(s, f, halted)
    ensures RecordsOk(Close(s, f, halted))
  {
    SettledWindowIsOk(s.window.value, s.runs[f.runId], s.holders[f], halted, s.clock);
  }

  lemma CloseKeepsInFlight(s: State, f: Flight, halted: bool)
    requires InFlightOk(s) && ReservedOk(s) && PaidOk(s) && Settling(s, f, halted)
    ensures InFlightOk(Close(s, f, halted)) && ReservedOk(Close(s, f, halted)) && PaidOk(Close(s, f, halted))
  {
  }

  lemma CloseKeepsHolders(s: State, f: Flight, halted: bool)
    requires HoldersOk(s) && Settling(s, f, halted)
    ensures HoldersOk(Close(s, f, halted))
  {
    var n := Close(s, f, halted);
    forall g | g in n.holders ensures HolderOk(n, g, n.holders[g]) {
      assert HolderOk(s, g, s.holders[g]);
    }
  }

  lemma CloseKeepsLedger(s: State, f: Flight, halted: bool)
    requires LedgerOk(s) && Settling(s, f, halted)
    ensures LedgerOk(Close(s, f, halted))
  {
    var run, n := s.runs[f.runId], Close(s, f, halted);
    if run.accountedAttempt < f.attempt {
      AccountingKeepsLedger(s, n, f, s.holders[f].tokens);
    } else {
      assert SettledRun(run, s.holders[f]) == run;
    }
  }

  lemma AccountingKeepsLedger(s: State, n: State, f: Flight, tokens: nat)
    requires LedgerOk(s) && f.runId in s.runs && f.attempt == s.runs[f.runId].accountedAttempt + 1 >= 1
    requires n.ledger == s.ledger[f := tokens]
    requires n.runs == s.runs[f.runId := s.runs[f.runId].(tokens := s.runs[f.runId].tokens + tokens,
      accountedAttempt := f.attempt)]
    ensures LedgerOk(n)
  {
    forall id | id in n.runs ensures n.runs[id].tokens == Accounted(n.ledger, id, n.runs[id].accountedAttempt) {
      AccountingOfRun(s, f, tokens, id);
    }
  }

  lemma AccountingOfRun(s: State, f: Flight, tokens: nat, id: string)
    requires LedgerOk(s) && id in s.runs && f.runId in s.runs && f.attempt == s.runs[f.runId].accountedAttempt + 1 >= 1
    ensures Accounted(s.ledger[f := tokens], id, s.runs[id].accountedAttempt) == s.runs[id].tokens
    ensures id == f.runId ==> Accounted(s.ledger[f := tokens], id, f.attempt) == s.runs[id].tokens + tokens
  {
    AccountedAgrees(s.ledger, s.ledger[f := tokens], id, s.runs[id].accountedAttempt);
  }

  // ---- every step ----

  lemma PayKeepsPaid(s: State, f: Flight)
    requires PaidOk(s) && HoldersOk(s) && Enabled(s, Pay(f))
    ensures PaidOk(Next(s, Pay(f)))
  {
    assert HolderOk(s, f, s.holders[f]);
  }

  lemma PayKeepsInv(s: State, f: Flight)
    requires Inv(s) && Enabled(s, Pay(f))
    ensures Inv(Next(s, Pay(f)))
  {
    PayKeepsHolders(s, f);
    PayKeepsPaid(s, f);
    SameRecords(s, Next(s, Pay(f)));
  }

  lemma SameRecords(s: State, n: State)
    requires RecordsOk(s) && InFlightOk(s) && ReservedOk(s) && LedgerOk(s)
    requires s.clock <= n.clock <= MAX_DATE && n.window == s.window && n.runs == s.runs && n.reserved == s.reserved
    requires n.ledger == s.ledger
    ensures RecordsOk(n) && InFlightOk(n) && ReservedOk(n) && LedgerOk(n)
  {
  }

  lemma QuietStepKeepsInv(s: State, step: Step)
    requires Inv(s) && Enabled(s, step) && (step.Tick? || step.Observe? || step.Check? || step.Crash?)
    ensures Inv(Next(s, step))
  {
    QuietStepKeepsHolders(s, step);
    SameRecords(s, Next(s, step));
  }

  lemma PayKeepsHolders(s: State, f: Flight)
    requires HoldersOk(s) && Enabled(s, Pay(f))
    ensures HoldersOk(Next(s, Pay(f)))
  {
    var n := Next(s, Pay(f));
    forall g | g in n.holders ensures HolderOk(n, g, n.holders[g]) {
      assert HolderOk(s, g, s.holders[g]);
    }
  }

  lemma QuietStepKeepsHolders(s: State, step: Step)
    requires HoldersOk(s) && Enabled(s, step) && (step.Tick? || step.Observe? || step.Check? || step.Crash?)
    ensures HoldersOk(Next(s, step))
  {
    var n := Next(s, step);
    forall g | g in n.holders ensures HolderOk(n, g, n.holders[g]) {
      assert HolderOk(s, g, s.holders[g]);
    }
  }

  lemma StepKeepsInv(s: State, step: Step)
    requires Inv(s) && Enabled(s, step)
    ensures Inv(Next(s, step))
  {
    match step
    case Begin(input, bytes) => BeginKeepsInv(s, input, bytes);
    case Publish(f) => CloseKeepsInv(s, f, false);
    case Fail(f) => CloseKeepsInv(s, f, true);
    case Pay(f) => PayKeepsInv(s, f);
    case _ => QuietStepKeepsInv(s, step);
  }

  /** The invariant holds in every state of every run. */
  lemma {:induction false} EveryStateIsSound(states: seq<State>, steps: seq<Step>, i: nat)
    requires IsRun(states, steps) && i < |states|
    ensures Inv(states[i])
    decreases i
  {
    if i > 0 {
      EveryStateIsSound(states, steps, i - 1);
      StepKeepsInv(states[i - 1], steps[i - 1]);
    }
  }

  // ---- what the invariant means ----

  /** At most one call can be in the air: two holders that may still pay are one. */
  lemma OneCallInFlight(states: seq<State>, steps: seq<Step>, i: nat, f: Flight, g: Flight)
    requires IsRun(states, steps) && i < |states|
    requires f in states[i].holders && states[i].holders[f].phase == Held
    requires g in states[i].holders && states[i].holders[g].phase == Held
    ensures f == g && states[i].window.Some? && states[i].window.value.inFlight == Some(f)
  {
    EveryStateIsSound(states, steps, i);
    assert HolderOk(states[i], f, states[i].holders[f]) && HolderOk(states[i], g, states[i].holders[g]);
  }

  /** Every provider call was reserved first, and no attempt was ever reserved or
      paid for twice; run and window call counters stay within their bounds. */
  lemma CallsAreReservedOnce(states: seq<State>, steps: seq<Step>, i: nat, id: string)
    requires IsRun(states, steps) && i < |states|
    ensures forall f :: f in states[i].paid ==> f in states[i].reserved
    ensures forall j, k :: 0 <= j < k < |states[i].paid| ==> states[i].paid[j] != states[i].paid[k]
    ensures forall j, k :: 0 <= j < k < |states[i].reserved| ==> states[i].reserved[j] != states[i].reserved[k]
    ensures id in states[i].runs ==>
      states[i].runs[id].calls <= CALLS_PER_RUN && states[i].runs[id].inputBytes <= BYTES_PER_RUN
    ensures states[i].window.Some? ==>
      states[i].window.value.calls <= states[i].window.value.maxCalls && |states[i].window.value.recent| <= 3
  {
    EveryStateIsSound(states, steps, i);
    if states[i].window.Some? { AtMostThreeRecent(states[i].window.value, states[i].clock); }
  }

  /** Each attempt's tokens enter its run's total at most once: the total is the
      sum over the attempts accounted for, whatever was repeated. */
  lemma TokensAreConserved(states: seq<State>, steps: seq<Step>, i: nat, id: string)
    requires IsRun(states, steps) && i < |states| && id in states[i].runs
    ensures states[i].runs[id].tokens == Accounted(states[i].ledger, id, states[i].runs[id].accountedAttempt)
    ensures states[i].runs[id].calls - 1 <= states[i].runs[id].accountedAttempt <= states[i].runs[id].calls
  {
    EveryStateIsSound(states, steps, i);
  }

  /** Every durable record passes its read-time check as long as the window is
      not halted, and exactly while its token count is a safe integer otherwise. */
  lemma ReadersAcceptEveryRecord(states: seq<State>, steps: seq<Step>, i: nat, id: string)
    requires IsRun(states, steps) && i < |states| && states[i].window.Some?
    ensures ValidWindow(states[i].window.value) <==> states[i].window.value.tokens <= MAX_SAFE
    ensures id in states[i].runs ==> (ValidRun(states[i].runs[id]) <==> states[i].runs[id].tokens <= MAX_SAFE)
    ensures !states[i].window.value.halted ==>
      ValidWindow(states[i].window.value) && (id in states[i].runs ==> ValidRun(states[i].runs[id]))
  {
    EveryStateIsSound(states, steps, i);
    ReadersAcceptWindows(states[i].window.value, states[i].clock);
    if id in states[i].runs { ReadersAcceptRuns(states[i], id); }
  }

  /** Once halted, always halted, and nothing is ever reserved again. */
  lemma {:induction false} HaltIsFinal(states: seq<State>, steps: seq<Step>, i: nat, j: nat)
    requires IsRun(states, steps) && i <= j < |states|
    requires states[i].window.Some? && states[i].window.value.halted
    ensures states[j].window.Some? && states[j].window.value.halted && states[j].reserved == states[i].reserved
    decreases j - i
  {
    if i < j {
      HaltedStepStays(states[i], steps[i]);
      HaltIsFinal(states, steps, i + 1, j);
    }
  }

  lemma HaltedStepStays(s: State, step: Step)
    requires Enabled(s, step) && s.window.Some? && s.window.value.halted
    ensures Next(s, step).window.Some? && Next(s, step).window.value.halted && Next(s, step).reserved == s.reserved
  {
  }

  /** A holder that crashed after reserving leaves its flight in the air for
      good: the budget stays closed until someone looks at the evidence. */
  lemma CrashClosesTheBudget(s: State, f: Flight, input: Input, bytes: nat, now: int)
    requires Inv(s) && f in s.holders && s.holders[f].phase == Held
    ensures var n := Next(s, Crash(f));
            n.window == s.window && (forall g :: g in n.holders ==> n.holders[g].phase != Held)
            && Reserve(n.window, Lookup(n.runs, input.runId), input, bytes, now).Refused?
  {
    assert HolderOk(s, f, s.holders[f]);
    forall g | g in s.holders && g != f ensures s.holders[g].phase != Held {
      assert HolderOk(s, g, s.holders[g]);
    }
  }

  /** A paid call may be cleared for publication exactly when its tokens fit both
      its run and its window. */
  lemma ThresholdDecides(states: seq<State>, steps: seq<Step>, i: nat, f: Flight)
    requires IsRun(states, steps) && i < |states|
    requires f in states[i].holders && states[i].holders[f].phase == Held && states[i].holders[f].paid
    ensures var s, h := states[i], states[i].holders[f];
      && s.window.Some? && f.runId in s.runs
      && (Enabled(s, Check(f)) <==>
            && s.runs[f.runId].tokens + h.tokens <= 900_000
            && s.window.value.tokens + h.tokens <= 20_000 * h.input.window.maxCalls)
  {
    EveryStateIsSound(states, steps, i);
    assert HolderOk(states[i], f, states[i].holders[f]);
  }

  /** What the end of a call does to the totals of its run and its window: the
      first settlement adds the tokens to both, a later one adds nothing. */
  ghost predicate ChargedOnce(s: State, n: State, f: Flight, halted: bool)
    requires f in s.holders
  {
    var h := s.holders[f];
    && s.window.Some? == n.window.Some? && s.runs.Keys == n.runs.Keys
    && (h.phase != Held ==>
          n.runs == s.runs && n.ledger == s.ledger
          && (s.window.Some? ==> n.window.value.tokens == s.window.value.tokens))
    && (h.phase == Held ==>
          && s.window.Some? && f.runId in s.runs && f !in s.ledger && n.ledger == s.ledger[f := h.tokens]
          && n.runs[f.runId].tokens == s.runs[f.runId].tokens + h.tokens
          && n.window.value.tokens == s.window.value.tokens + h.tokens
          && n.window.value.halted == halted
          && n.window.value.inFlight == if halted then Some(f) else None)
  }

  lemma FirstClosingCharges(s: State, f: Flight, halted: bool)
    requires LedgerOk(s) && Settling(s, f, halted) && s.holders[f].phase == Held && !s.window.value.halted
    ensures ChargedOnce(s, Close(s, f, halted), f, halted)
  {
  }

  lemma LaterClosingCharges(s: State, f: Flight, halted: bool)
    requires Settling(s, f, halted) && s.holders[f].phase != Held && s.runs[f.runId].accountedAttempt == f.attempt
    ensures ChargedOnce(s, Close(s, f, halted), f, halted)
  {
    assert SettledRun(s.runs[f.runId], s.holders[f]) == s.runs[f.runId];
  }

  lemma ClosingChargesOnce(s: State, f: Flight, halted: bool)
    requires Inv(s) && Enabled(s, if halted then Fail(f) else Publish(f))
    ensures ChargedOnce(s, Close(s, f, halted), f, halted)
  {
    if Settles(s.window, Lookup(s.runs, f.runId), s.holders[f]) {
      SettlementsAreSettling(s, f, halted);
      SettlementIsFirstOrRepeated(s, f);
      if s.holders[f].phase == Held {
        FirstClosingCharges(s, f, halted);
      } else {
        LaterClosingCharges(s, f, halted);
      }
    } else {
      RefusedClosingCharges(s, f, halted);
    }
  }

  lemma RefusedClosingCharges(s: State, f: Flight, halted: bool)
    requires HoldersOk(s) && f in s.holders && !Settles(s.window, Lookup(s.runs, f.runId), s.holders[f])
    ensures ChargedOnce(s, Close(s, f, halted), f, halted)
  {
    assert HolderOk(s, f, s.holders[f]);
  }

  /** Every settlement of every run charges its flight once, and one that
      publishes leaves both totals within their thresholds. */
  lemma SettlementsChargeOnce(states: seq<State>, steps: seq<Step>, i: nat, f: Flight)
    requires IsRun(states, steps) && i < |steps| && (steps[i] == Publish(f) || steps[i] == Fail(f))
    ensures f in states[i].holders && ChargedOnce(states[i], states[i + 1], f, steps[i].Fail?)
    ensures steps[i] == Publish(f) && states[i].holders[f].phase == Held ==>
      && states[i + 1].runs[f.runId].tokens <= 900_000
      && states[i + 1].window.value.tokens <= 20_000 * states[i].holders[f].input.window.maxCalls
  {
    assert Enabled(states[i], steps[i]);
    EveryStateIsSound(states, steps, i);
    assert HolderOk(states[i], f, states[i].holders[f]);
    ClosingChargesOnce(states[i], f, steps[i].Fail?);
  }
}

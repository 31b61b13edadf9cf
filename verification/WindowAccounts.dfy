/** What the durable window of audited indexing says about the past: over every
    run its counters are those of the calls charged to it, and starts are paced
    except across an expired window. */
module WindowAccounts {
  import opened HostNumbers
  import opened Listings
  import opened AuditedIndex
  import opened IndexRuns

  // ---- the calls charged to a window ----

  /** The start at k found no window to carry on: there was none, or it was
      another one and had expired. */
  predicate Fresh(starts: seq<Began>, k: nat)
    requires k < |starts|
  {
    k == 0 || (starts[k - 1].window != starts[k].window && starts[k - 1].window.until <= starts[k].at)
  }

  /** The last fresh start among the first n. */
  function Opening(starts: seq<Began>, n: nat): (k: nat)
    requires 0 < n <= |starts|
    ensures k < n
  {
    if Fresh(starts, n - 1) then n - 1 else Opening(starts, n - 1)
  }

  lemma {:induction false} OpeningIsLastFresh(starts: seq<Began>, n: nat)
    requires 0 < n <= |starts|
    ensures Fresh(starts, Opening(starts, n))
    ensures forall i :: Opening(starts, n) < i < n ==> !Fresh(starts, i)
  {
    if !Fresh(starts, n - 1) { OpeningIsLastFresh(starts, n - 1); }
  }

  lemma {:induction false} LaterStartsKeepOpenings(starts: seq<Began>, b: Began, n: nat)
    requires 0 < n <= |starts|
    ensures Opening(starts + [b], n) == Opening(starts, n)
  {
    if !Fresh(starts, n - 1) { LaterStartsKeepOpenings(starts, b, n - 1); }
  }

  /** The starts charged to the window that was open after the first n: those
      from the last fresh one on. */
  function Chain(starts: seq<Began>, n: nat): seq<Began>
    requires 0 < n <= |starts|
  {
    starts[Opening(starts, n)..n]
  }

  lemma ChainGrows(starts: seq<Began>, b: Began)
    requires starts != []
    ensures Chain(starts + [b], |starts| + 1)
         == (if Fresh(starts + [b], |starts|) then [] else Chain(starts, |starts|)) + [b]
  {
    LaterStartsKeepOpenings(starts, b, |starts|);
  }

  function Used(ledger: map<Flight, nat>, flight: Flight): nat {
    if flight in ledger then ledger[flight] else 0
  }

  /** What the settled flights of a chain used. */
  function Spent(chain: seq<Began>, ledger: map<Flight, nat>): nat {
    if chain == [] then 0 else Spent(chain[..|chain| - 1], ledger) + Used(ledger, chain[|chain| - 1].flight)
  }

  lemma SpentGrows(chain: seq<Began>, b: Began, ledger: map<Flight, nat>)
    ensures Spent(chain + [b], ledger) == Spent(chain, ledger) + Used(ledger, b.flight)
  {
    assert (chain + [b])[..|chain|] == chain;
  }

  ghost predicate Without(chain: seq<Began>, f: Flight) {
    forall i :: 0 <= i < |chain| ==> chain[i].flight != f
  }

  lemma {:induction false} SpentElsewhere(chain: seq<Began>, ledger: map<Flight, nat>, f: Flight, tokens: nat)
    requires Without(chain, f)
    ensures Spent(chain, ledger[f := tokens]) == Spent(chain, ledger)
  {
    if chain != [] { SpentElsewhere(chain[..|chain| - 1], ledger, f, tokens); }
  }

  // ---- the remembered starts ----

  /** What a start counts for: the tokens observed, or its bytes until then. */
  function Known(ledger: map<Flight, nat>, b: Began): Start {
    Start(b.flight, b.at, if b.flight in ledger then ledger[b.flight] else b.bytes)
  }

  /** The remembered starts are the end of the chain; the others are at least a
      minute older than the last. */
  ghost predicate Remembers(recent: seq<Start>, chain: seq<Began>, ledger: map<Flight, nat>) {
    && 0 < |recent| <= |chain|
    && (forall i, j :: 0 <= i < |recent| && j == |chain| - |recent| + i ==> recent[i] == Known(ledger, chain[j]))
    && (forall j :: 0 <= j < |chain| - |recent| ==> chain[j].at <= chain[|chain| - 1].at - MINUTE)
  }

  lemma RemembersNext(recent: seq<Start>, chain: seq<Began>, ledger: map<Flight, nat>, b: Began, k: nat)
    requires Remembers(recent, chain, ledger) && k <= |recent| && b.flight !in ledger
    requires chain[|chain| - 1].at <= b.at
    requires forall i :: 0 <= i < k ==> recent[i].at <= b.at - MINUTE
    ensures Remembers(recent[k..] + [Start(b.flight, b.at, b.bytes)], chain + [b], ledger)
  {
    var kept, longer, off := recent[k..] + [Start(b.flight, b.at, b.bytes)], chain + [b], |chain| - |recent|;
    forall i, j | 0 <= i < |kept| && j == |longer| - |kept| + i ensures kept[i] == Known(ledger, longer[j]) {
      if i < |recent| - k {
        assert recent[k + i] == Known(ledger, chain[j]);
      }
    }
    forall j | 0 <= j < |longer| - |kept| ensures longer[j].at <= b.at - MINUTE {
      if j >= off {
        assert recent[j - off] == Known(ledger, chain[j]);
      }
    }
  }

  lemma RemembersFirst(b: Began, ledger: map<Flight, nat>)
    requires b.flight !in ledger
    ensures Remembers([Start(b.flight, b.at, b.bytes)], [b], ledger)
  {
  }

  /** Settling the last flight rewrites its remembered start and no other. */
  lemma RemembersSettled(recent: seq<Start>, chain: seq<Began>, ledger: map<Flight, nat>, f: Flight, tokens: nat)
    requires Remembers(recent, chain, ledger)
    requires chain[|chain| - 1].flight == f && Without(chain[..|chain| - 1], f)
    ensures Remembers(WithTokens(recent, f, tokens), chain, ledger[f := tokens])
  {
    var kept, after := WithTokens(recent, f, tokens), ledger[f := tokens];
    forall i, j | 0 <= i < |kept| && j == |chain| - |kept| + i ensures kept[i] == Known(after, chain[j]) {
      assert recent[i] == Known(ledger, chain[j]);
      if j < |chain| - 1 {
        assert chain[..|chain| - 1][j].flight != f;
      }
    }
  }

  // ---- the account ----

  /** The durable window tells its chain: the calls, the tokens, the last starts. */
  ghost predicate Tells(w: Window, starts: seq<Began>, chain: seq<Began>, ledger: map<Flight, nat>)
    requires starts != []
  {
    var last := starts[|starts| - 1];
    && w.id == last.window && w.lastStartAt == last.at && (w.inFlight.Some? ==> w.inFlight.value == last.flight)
    && w.calls == |chain| && w.tokens == Spent(chain, ledger) && Remembers(w.recent, chain, ledger)
  }

  ghost predicate AccountOk(s: State) {
    && |s.starts| == |s.reserved| && (forall i :: 0 <= i < |s.starts| ==> s.starts[i].flight == s.reserved[i])
    && (s.window.Some? <==> s.starts != [])
    && (s.window.Some? ==> Tells(s.window.value, s.starts, Chain(s.starts, |s.starts|), s.ledger))
  }

  /** A holder that has settled did so with the tokens it still shows. */
  ghost predicate SettledOk(s: State) {
    forall f :: f in s.holders && s.holders[f].phase != Held ==> f in s.ledger && s.ledger[f] == s.holders[f].tokens
  }

  // ---- a reservation ----

  /** Without a call in the air every reserved flight is settled, and the next is new. */
  lemma EverythingSettled(s: State, f: Flight)
    requires RecordsOk(s) && InFlightOk(s) && ReservedOk(s) && LedgerOk(s)
    requires s.window.Some? ==> s.window.value.inFlight.None?
    requires f.attempt == (if f.runId in s.runs then s.runs[f.runId].calls else 0) + 1
    ensures f !in s.ledger && f !in s.reserved
    ensures forall i :: 0 <= i < |s.reserved| ==> s.reserved[i] in s.ledger
  {
    forall i | 0 <= i < |s.reserved| ensures s.reserved[i] in s.ledger {
      assert s.reserved[i] in s.reserved;
    }
  }

  /** There is no window for the start to carry on. */
  predicate NothingToCarry(previous: Option<Window>, b: Began) {
    previous.None? || (previous.value.id != b.window && previous.value.id.until <= b.at)
  }

  /** How the window of a start continues or replaces the one before it. */
  predicate Continues(previous: Option<Window>, w: Window, b: Began) {
    && w.id == b.window && w.lastStartAt == b.at && w.inFlight == Some(b.flight)
    && if NothingToCarry(previous, b) then
         w.calls == 1 && w.tokens == 0 && w.recent == [Start(b.flight, b.at, b.bytes)] && b.bytes <= ROLLING_BYTES
       else
         && w.calls == previous.value.calls + 1 && w.tokens == previous.value.tokens
         && w.recent == Since(previous.value.recent, b.at - MINUTE) + [Start(b.flight, b.at, b.bytes)]
         && b.at - previous.value.lastStartAt >= INTERVAL
         && Tokens(Since(previous.value.recent, b.at - MINUTE)) + b.bytes <= ROLLING_BYTES
  }

  lemma NextWindow(s: State, input: Input, bytes: nat)
    requires RecordsOk(s) && InFlightOk(s) && Enabled(s, Begin(input, bytes))
    requires Reserve(s.window, Lookup(s.runs, input.runId), input, bytes, s.clock).Reserved?
    ensures var r := Reserve(s.window, Lookup(s.runs, input.runId), input, bytes, s.clock);
            && Continues(s.window, r.window, Began(r.flight, s.clock, bytes, input.window))
            && (s.window.Some? ==> s.window.value.inFlight.None?)
            && r.flight.attempt == (if r.flight.runId in s.runs then s.runs[r.flight.runId].calls else 0) + 1
  {
    ReserveKeepsRecords(s, input, bytes);
    ReservedParts(s.window, Lookup(s.runs, input.runId), input, bytes, s.clock);
  }

  /** A start that carries nothing on is a chain of its own. */
  lemma OpenedTells(starts: seq<Began>, ledger: map<Flight, nat>, b: Began, previous: Option<Window>, w: Window)
    requires Fresh(starts + [b], |starts|) && b.flight !in ledger
    requires Continues(previous, w, b) && NothingToCarry(previous, b)
    ensures Tells(w, starts + [b], Chain(starts + [b], |starts| + 1), ledger)
  {
    assert Chain(starts + [b], |starts| + 1) == [b];
    SpentGrows([], b, ledger);
    assert [] + [b] == [b];
    RemembersFirst(b, ledger);
  }

  /** A start that carries its window on adds itself to the chain. */
  lemma CarriedTells(starts: seq<Began>, ledger: map<Flight, nat>, b: Began, before: Window, w: Window)
    requires starts != [] && !Fresh(starts + [b], |starts|) && b.flight !in ledger
    requires Tells(before, starts, Chain(starts, |starts|), ledger) && before.lastStartAt <= b.at
    requires InTimeOrder(before.recent)
    requires Continues(Some(before), w, b) && !NothingToCarry(Some(before), b)
    ensures Tells(w, starts + [b], Chain(starts + [b], |starts| + 1), ledger)
  {
    var chain := Chain(starts, |starts|);
    ChainGrows(starts, b);
    SpentGrows(chain, b, ledger);
    var k := SinceIsSuffix(before.recent, b.at - MINUTE);
    RemembersNext(before.recent, chain, ledger, b, k);
  }

  ghost predicate InTimeOrder(recent: seq<Start>) {
    forall i, j :: 0 <= i < j < |recent| ==> recent[i].at <= recent[j].at
  }

  lemma SpacedIsInTimeOrder(recent: seq<Start>)
    requires Spaced(recent)
    ensures InTimeOrder(recent)
  {
    forall i, j | 0 <= i < j < |recent| ensures recent[i].at <= recent[j].at {
      assert recent[j].at - recent[i].at >= INTERVAL * (j - i);
    }
  }

  /** The history is fresh exactly where the window carries nothing on. */
  lemma FreshMeansNothingToCarry(starts: seq<Began>, ledger: map<Flight, nat>, b: Began, previous: Option<Window>)
    requires previous.Some? <==> starts != []
    requires previous.Some? ==> Tells(previous.value, starts, Chain(starts, |starts|), ledger)
    ensures Fresh(starts + [b], |starts|) <==> NothingToCarry(previous, b)
  {
  }

  lemma NextTells(starts: seq<Began>, ledger: map<Flight, nat>, b: Began, previous: Option<Window>, w: Window)
    requires previous.Some? <==> starts != []
    requires previous.Some? ==>
      && Tells(previous.value, starts, Chain(starts, |starts|), ledger)
      && previous.value.lastStartAt <= b.at && Spaced(previous.value.recent)
    requires Continues(previous, w, b) && b.flight !in ledger
    ensures Tells(w, starts + [b], Chain(starts + [b], |starts| + 1), ledger)
  {
    FreshMeansNothingToCarry(starts, ledger, b, previous);
    if NothingToCarry(previous, b) {
      OpenedTells(starts, ledger, b, previous, w);
    } else {
      SpacedIsInTimeOrder(previous.value.recent);
      CarriedTells(starts, ledger, b, previous.value, w);
    }
  }

  lemma NextFlightIsNew(s: State, input: Input, bytes: nat)
    requires RecordsOk(s) && InFlightOk(s) && ReservedOk(s) && LedgerOk(s) && Enabled(s, Begin(input, bytes))
    requires Reserve(s.window, Lookup(s.runs, input.runId), input, bytes, s.clock).Reserved?
    ensures Reserve(s.window, Lookup(s.runs, input.runId), input, bytes, s.clock).flight !in s.ledger
    ensures forall i :: 0 <= i < |s.reserved| ==> s.reserved[i] in s.ledger
  {
    NextWindow(s, input, bytes);
    EverythingSettled(s, Reserve(s.window, Lookup(s.runs, input.runId), input, bytes, s.clock).flight);
  }

  lemma AccountGrows(s: State, n: State, w: Window, b: Began)
    requires AccountOk(s)
    requires n.starts == s.starts + [b] && n.reserved == s.reserved + [b.flight] && n.window == Some(w)
    requires n.ledger == s.ledger
    requires Tells(w, s.starts + [b], Chain(s.starts + [b], |s.starts| + 1), s.ledger)
    ensures AccountOk(n)
  {
  }

  // ---- a settlement ----

  lemma LastFlightIsAlone(s: State)
    requires ReservedOk(s) && s.starts != [] && |s.starts| == |s.reserved|
    requires forall i :: 0 <= i < |s.starts| ==> s.starts[i].flight == s.reserved[i]
    ensures var n, chain := |s.starts|, Chain(s.starts, |s.starts|);
            chain != [] && chain[|chain| - 1] == s.starts[n - 1]
              && Without(chain[..|chain| - 1], s.starts[n - 1].flight)
            && Without(s.starts[..n - 1], s.starts[n - 1].flight)
  {
  }

  /** Settling the flight in the air, for the first time or again, leaves the
      window telling its chain under the ledger that has the flight's tokens. */
  lemma SettledTells(
      starts: seq<Began>, chain: seq<Began>, ledger: map<Flight, nat>, w: Window, settled: Window, f: Flight,
      tokens: nat)
    requires starts != [] && chain != [] && chain[|chain| - 1].flight == f && Without(chain[..|chain| - 1], f)
    requires Tells(w, starts, chain, ledger)
    requires settled.id == w.id && settled.lastStartAt == w.lastStartAt && settled.calls == w.calls
    requires settled.inFlight.None? || settled.inFlight == w.inFlight
    requires settled.tokens == w.tokens + (if f in ledger then 0 else tokens) && (f in ledger ==> ledger[f] == tokens)
    requires settled.recent == WithTokens(w.recent, f, tokens)
    ensures Tells(settled, starts, chain, ledger[f := tokens])
  {
    SpentElsewhere(chain[..|chain| - 1], ledger, f, tokens);
    RemembersSettled(w.recent, chain, ledger, f, tokens);
  }

  /** What a settlement that goes ahead does to the ledger. */
  lemma SettlementLedger(s: State, f: Flight, halted: bool)
    requires LedgerOk(s) && SettledOk(s) && Settling(s, f, halted)
    ensures var h := s.holders[f];
            && Close(s, f, halted).ledger == s.ledger[f := h.tokens]
            && (f in s.ledger <==> s.runs[f.runId].accountedAttempt == f.attempt)
            && (f in s.ledger ==> s.ledger[f] == h.tokens)
            && Additional(s.runs[f.runId], h) == if f in s.ledger then 0 else h.tokens
  {
    if f in s.ledger {
      assert s.holders[f].phase != Held;
      assert s.ledger[f := s.holders[f].tokens] == s.ledger;
    }
  }

  lemma CloseKeepsAccount(s: State, f: Flight, halted: bool)
    requires LedgerOk(s) && ReservedOk(s) && AccountOk(s) && SettledOk(s) && Settling(s, f, halted)
    ensures AccountOk(Close(s, f, halted))
  {
    var n := Close(s, f, halted);
    SettlementLedger(s, f, halted);
    LastFlightIsAlone(s);
    SettledTells(
      s.starts, Chain(s.starts, |s.starts|), s.ledger, s.window.value, n.window.value, f, s.holders[f].tokens);
    assert n.ledger == s.ledger[f := s.holders[f].tokens];
  }

  lemma CloseKeepsSettled(s: State, f: Flight, halted: bool)
    requires LedgerOk(s) && SettledOk(s) && Settling(s, f, halted)
    ensures SettledOk(Close(s, f, halted))
  {
    SettlementLedger(s, f, halted);
  }

  // ---- pacing ----

  /** What the starts of a chain after an instant used. */
  function UsedSince(chain: seq<Began>, ledger: map<Flight, nat>, after: int): nat {
    if chain == [] then 0
    else (if chain[0].at > after then Used(ledger, chain[0].flight) else 0) + UsedSince(chain[1..], ledger, after)
  }

  /** What counts against the rolling limit at the last start of a chain: its own
      bytes and what the starts of the minute before it used. */
  function LastMinute(chain: seq<Began>, ledger: map<Flight, nat>): nat
    requires chain != []
  {
    var last := |chain| - 1;
    UsedSince(chain[..last], ledger, chain[last].at - MINUTE) + chain[last].bytes
  }

  /** The start at k came in time order, at least 21 seconds after the one before
      unless it opened a window afresh, and within the rolling limit. */
  ghost predicate Paced(starts: seq<Began>, ledger: map<Flight, nat>, k: nat)
    requires k < |starts|
  {
    && (k > 0 ==> starts[k - 1].at <= starts[k].at)
    && (!Fresh(starts, k) ==> starts[k].at - starts[k - 1].at >= INTERVAL)
    && LastMinute(Chain(starts, k + 1), ledger) <= ROLLING_BYTES
  }

  ghost predicate AllPaced(starts: seq<Began>, ledger: map<Flight, nat>) {
    forall k :: 0 <= k < |starts| ==> Paced(starts, ledger, k)
  }

  lemma {:induction false} UsedSinceElsewhere(
      chain: seq<Began>, ledger: map<Flight, nat>, f: Flight, tokens: nat, after: int)
    requires Without(chain, f)
    ensures UsedSince(chain, ledger[f := tokens], after) == UsedSince(chain, ledger, after)
  {
    if chain != [] {
      assert chain[0].flight != f;
      assert forall i :: 0 <= i < |chain[1..]| ==> chain[1..][i] == chain[i + 1];
      UsedSinceElsewhere(chain[1..], ledger, f, tokens, after);
    }
  }

  /** Remembered starts stand for the settled starts of the chain, one by one. */
  lemma {:induction false} RecentUse(recent: seq<Start>, chain: seq<Began>, ledger: map<Flight, nat>, after: int)
    requires |recent| == |chain| && forall i :: 0 <= i < |chain| ==>
      chain[i].flight in ledger && recent[i] == Known(ledger, chain[i])
    ensures Tokens(Since(recent, after)) == UsedSince(chain, ledger, after)
  {
    if chain != [] {
      assert recent[0] == Known(ledger, chain[0]);
      RecentUse(recent[1..], chain[1..], ledger, after);
      if recent[0].at > after {
        assert ([recent[0]] + Since(recent[1..], after))[1..] == Since(recent[1..], after);
      }
    }
  }

  lemma {:induction false} OldStartsCountNothing(chain: seq<Began>, ledger: map<Flight, nat>, after: int, n: nat)
    requires n <= |chain| && forall j :: 0 <= j < n ==> chain[j].at <= after
    ensures UsedSince(chain, ledger, after) == UsedSince(chain[n..], ledger, after)
    decreases n
  {
    if n > 0 {
      assert forall j :: 0 <= j < n - 1 ==> chain[1..][j] == chain[j + 1];
      OldStartsCountNothing(chain[1..], ledger, after, n - 1);
      assert chain[1..][n - 1..] == chain[n..];
    }
  }

  /** What the window remembers of the last minute is what the chain used in it. */
  lemma RecentCountsTheMinute(recent: seq<Start>, chain: seq<Began>, ledger: map<Flight, nat>, after: int)
    requires Remembers(recent, chain, ledger) && chain[|chain| - 1].at - MINUTE <= after
    requires forall j :: 0 <= j < |chain| ==> chain[j].flight in ledger
    ensures Tokens(Since(recent, after)) == UsedSince(chain, ledger, after)
  {
    var off := |chain| - |recent|;
    OldStartsCountNothing(chain, ledger, after, off);
    forall i | 0 <= i < |recent|
      ensures chain[off..][i].flight in ledger && recent[i] == Known(ledger, chain[off..][i])
    {
      assert recent[i] == Known(ledger, chain[off + i]);
    }
    RecentUse(recent, chain[off..], ledger, after);
  }

  lemma EarlierStaysPaced(starts: seq<Began>, ledger: map<Flight, nat>, b: Began, k: nat)
    requires k < |starts| && Paced(starts, ledger, k)
    ensures Paced(starts + [b], ledger, k)
  {
    LaterStartsKeepOpenings(starts, b, k + 1);
    assert Chain(starts + [b], k + 1) == Chain(starts, k + 1);
  }

  lemma FreshIsPaced(starts: seq<Began>, ledger: map<Flight, nat>, b: Began)
    requires Fresh(starts + [b], |starts|) && b.bytes <= ROLLING_BYTES
    requires starts != [] ==> starts[|starts| - 1].at <= b.at
    ensures Paced(starts + [b], ledger, |starts|)
  {
    assert Chain(starts + [b], |starts| + 1) == [b];
  }

  lemma CarriedIsPaced(starts: seq<Began>, ledger: map<Flight, nat>, b: Began, recent: seq<Start>)
    requires starts != [] && !Fresh(starts + [b], |starts|) && b.at - starts[|starts| - 1].at >= INTERVAL
    requires Remembers(recent, Chain(starts, |starts|), ledger)
    requires forall j :: 0 <= j < |starts| ==> starts[j].flight in ledger
    requires Tokens(Since(recent, b.at - MINUTE)) + b.bytes <= ROLLING_BYTES
    ensures Paced(starts + [b], ledger, |starts|)
  {
    var chain := Chain(starts, |starts|);
    ChainGrows(starts, b);
    assert (chain + [b])[..|chain|] == chain;
    RecentCountsTheMinute(recent, chain, ledger, b.at - MINUTE);
  }

  /** The start of a reservation is paced. */
  lemma NextIsPaced(starts: seq<Began>, ledger: map<Flight, nat>, b: Began, previous: Option<Window>, w: Window)
    requires previous.Some? <==> starts != []
    requires previous.Some? ==>
      Tells(previous.value, starts, Chain(starts, |starts|), ledger) && previous.value.lastStartAt <= b.at
    requires Continues(previous, w, b)
    requires forall j :: 0 <= j < |starts| ==> starts[j].flight in ledger
    ensures Paced(starts + [b], ledger, |starts|)
  {
    FreshMeansNothingToCarry(starts, ledger, b, previous);
    if NothingToCarry(previous, b) {
      FreshIsPaced(starts, ledger, b);
    } else {
      CarriedIsPaced(starts, ledger, b, previous.value.recent);
    }
  }

  lemma OneMorePaced(starts: seq<Began>, ledger: map<Flight, nat>, b: Began)
    requires AllPaced(starts, ledger) && Paced(starts + [b], ledger, |starts|)
    ensures AllPaced(starts + [b], ledger)
  {
    forall k | 0 <= k < |starts| ensures Paced(starts + [b], ledger, k) {
      EarlierStaysPaced(starts, ledger, b, k);
    }
  }

  /** Settling the last flight changes nothing that counted for any start. */
  lemma SettlingKeepsPaced(starts: seq<Began>, ledger: map<Flight, nat>, f: Flight, tokens: nat, k: nat)
    requires k < |starts| && Paced(starts, ledger, k) && Without(starts[..|starts| - 1], f)
    ensures Paced(starts, ledger[f := tokens], k)
  {
    var chain := Chain(starts, k + 1);
    forall i | 0 <= i < |chain| - 1 ensures chain[i].flight != f {
      assert starts[..|starts| - 1][Opening(starts, k + 1) + i].flight != f;
    }
    UsedSinceElsewhere(chain[..|chain| - 1], ledger, f, tokens, chain[|chain| - 1].at - MINUTE);
  }

  lemma CloseKeepsPaced(s: State, f: Flight, halted: bool)
    requires LedgerOk(s) && ReservedOk(s) && AccountOk(s) && SettledOk(s) && AllPaced(s.starts, s.ledger)
    requires Settling(s, f, halted)
    ensures AllPaced(Close(s, f, halted).starts, Close(s, f, halted).ledger)
  {
    SettlementLedger(s, f, halted);
    LastFlightIsAlone(s);
    SettlingKeepsAllPaced(s.starts, s.ledger, f, s.holders[f].tokens);
  }

  lemma SettlingKeepsAllPaced(starts: seq<Began>, ledger: map<Flight, nat>, f: Flight, tokens: nat)
    requires AllPaced(starts, ledger) && starts != [] && Without(starts[..|starts| - 1], f)
    ensures AllPaced(starts, ledger[f := tokens])
  {
    var after := ledger[f := tokens];
    forall k | 0 <= k < |starts| ensures Paced(starts, after, k) {
      SettlingKeepsPaced(starts, ledger, f, tokens, k);
    }
  }

  // ---- every run ----

  ghost predicate Sound(s: State) { AccountOk(s) && SettledOk(s) && AllPaced(s.starts, s.ledger) }

  lemma SettlingKeepsSound(s: State, f: Flight, halted: bool)
    requires LedgerOk(s) && ReservedOk(s) && Sound(s) && Settling(s, f, halted)
    ensures Sound(Close(s, f, halted))
  {
    CloseKeepsAccount(s, f, halted);
    CloseKeepsSettled(s, f, halted);
    CloseKeepsPaced(s, f, halted);
  }

  lemma RefusedKeepsSound(s: State, f: Flight, halted: bool)
    requires HoldersOk(s) && Sound(s) && f in s.holders && !Settles(s.window, Lookup(s.runs, f.runId), s.holders[f])
    ensures Sound(Close(s, f, halted))
  {
    assert HolderOk(s, f, s.holders[f]);
    SameAccount(s, Close(s, f, halted));
  }

  lemma CloseKeepsSound(s: State, f: Flight, halted: bool)
    requires Inv(s) && Sound(s) && Enabled(s, if halted then Fail(f) else Publish(f))
    ensures Sound(Close(s, f, halted))
  {
    if Settles(s.window, Lookup(s.runs, f.runId), s.holders[f]) {
      SettlementsAreSettling(s, f, halted);
      SettlingKeepsSound(s, f, halted);
    } else {
      RefusedKeepsSound(s, f, halted);
    }
  }

  /** A step that touches neither the records nor the history. */
  lemma SameAccount(s: State, n: State)
    requires Sound(s)
    requires n.window == s.window && n.starts == s.starts && n.reserved == s.reserved && n.ledger == s.ledger
    requires forall f :: f in n.holders && n.holders[f].phase != Held ==>
      f in s.holders && s.holders[f].phase != Held && s.holders[f].tokens == n.holders[f].tokens
    ensures Sound(n)
  {
  }

  /** A reservation, seen from the history. */
  ghost predicate Reserves(s: State, n: State, w: Window, b: Began) {
    && Continues(s.window, w, b) && b.flight !in s.ledger
    && (forall i :: 0 <= i < |s.reserved| ==> s.reserved[i] in s.ledger)
    && (s.window.Some? ==> s.window.value.lastStartAt <= b.at && Spaced(s.window.value.recent))
    && n.starts == s.starts + [b] && n.reserved == s.reserved + [b.flight] && n.window == Some(w)
    && n.ledger == s.ledger
    && b.flight in n.holders && n.holders == s.holders[b.flight := n.holders[b.flight]]
    && n.holders[b.flight].phase == Held
  }

  lemma BeginReserves(s: State, input: Input, bytes: nat) returns (w: Window, b: Began)
    requires Inv(s) && Enabled(s, Begin(input, bytes))
    requires Reserve(s.window, Lookup(s.runs, input.runId), input, bytes, s.clock).Reserved?
    ensures Reserves(s, Next(s, Begin(input, bytes)), w, b)
  {
    var r := Reserve(s.window, Lookup(s.runs, input.runId), input, bytes, s.clock);
    w, b := r.window, Began(r.flight, s.clock, bytes, input.window);
    NextWindow(s, input, bytes);
    NextFlightIsNew(s, input, bytes);
  }

  lemma ReservationKeepsSound(s: State, n: State, w: Window, b: Began)
    requires Sound(s) && Reserves(s, n, w, b)
    ensures Sound(n)
  {
    NextTells(s.starts, s.ledger, b, s.window, w);
    AccountGrows(s, n, w, b);
    NextIsPaced(s.starts, s.ledger, b, s.window, w);
    OneMorePaced(s.starts, s.ledger, b);
  }

  lemma BeginKeepsSound(s: State, input: Input, bytes: nat)
    requires Inv(s) && Sound(s) && Enabled(s, Begin(input, bytes))
    ensures Sound(Next(s, Begin(input, bytes)))
  {
    if Reserve(s.window, Lookup(s.runs, input.runId), input, bytes, s.clock).Reserved? {
      var w, b := BeginReserves(s, input, bytes);
      ReservationKeepsSound(s, Next(s, Begin(input, bytes)), w, b);
    }
  }

  lemma ClosingStepKeepsSound(s: State, step: Step)
    requires Inv(s) && Sound(s) && Enabled(s, step) && (step.Publish? || step.Fail?)
    ensures Sound(Next(s, step))
  {
    CloseKeepsSound(s, step.flight, step.Fail?);
  }

  lemma StepKeepsSound(s: State, step: Step)
    requires Inv(s) && Sound(s) && Enabled(s, step)
    ensures Sound(Next(s, step))
  {
    if step.Begin? {
      BeginKeepsSound(s, step.input, step.bytes);
    } else if step.Publish? || step.Fail? {
      ClosingStepKeepsSound(s, step);
    } else {
      QuietStepKeepsSound(s, step);
    }
  }

  lemma QuietStepKeepsSound(s: State, step: Step)
    requires Sound(s) && Enabled(s, step) && !step.Begin? && !step.Publish? && !step.Fail?
    ensures Sound(Next(s, step))
  {
    SameAccount(s, Next(s, step));
  }

  lemma {:induction false} EveryAccountIsSound(states: seq<State>, steps: seq<Step>, i: nat)
    requires IsRun(states, steps) && i < |states|
    ensures Sound(states[i])
    decreases i
  {
    if i > 0 {
      EveryAccountIsSound(states, steps, i - 1);
      EveryStateIsSound(states, steps, i - 1);
      StepKeepsSound(states[i - 1], steps[i - 1]);
    }
  }

  /** In every state of every run the window's tokens are what the flights charged
      to it used, each counted once and none missing, and its calls are their
      number; the flights charged are those reserved since the last start that
      found no window to carry on. */
  lemma WindowTokensAreConserved(states: seq<State>, steps: seq<Step>, i: nat)
    requires IsRun(states, steps) && i < |states| && states[i].window.Some?
    ensures Conserved(states[i].window.value, states[i].starts, states[i].reserved, states[i].ledger)
  {
    EveryAccountIsSound(states, steps, i);
    EveryStateIsSound(states, steps, i);
    AccountConserves(states[i]);
  }

  /** The starts are those of the reserved flights, no flight twice, and the window
      counts the calls and the tokens of its chain, which begins with the last
      fresh start. */
  ghost predicate Conserved(w: Window, starts: seq<Began>, reserved: seq<Flight>, ledger: map<Flight, nat>) {
    var n := |starts|;
    && 0 < n == |reserved| && (forall k :: 0 <= k < n ==> starts[k].flight == reserved[k])
    && (forall j, k :: 0 <= j < k < n ==> reserved[j] != reserved[k])
    && w.tokens == Spent(Chain(starts, n), ledger) && w.calls == |Chain(starts, n)|
    && Fresh(starts, Opening(starts, n)) && forall k :: Opening(starts, n) < k < n ==> !Fresh(starts, k)
  }

  lemma AccountConserves(s: State)
    requires AccountOk(s) && ReservedOk(s) && s.window.Some?
    ensures Conserved(s.window.value, s.starts, s.reserved, s.ledger)
  {
    OpeningIsLastFresh(s.starts, |s.starts|);
  }

  /** In every run starts come in time order, and two of them with no fresh start
      after the first lie at least 21 seconds apart for each start between; at each
      start its bytes and what its chain used in the minute before stay within
      24,000. */
  lemma StartsArePaced(states: seq<State>, steps: seq<Step>, i: nat, j: nat, k: nat)
    requires IsRun(states, steps) && i < |states| && j <= k < |states[i].starts|
    ensures states[i].starts[j].at <= states[i].starts[k].at
    ensures (forall m :: j < m <= k ==> !Fresh(states[i].starts, m)) ==>
      states[i].starts[k].at - states[i].starts[j].at >= INTERVAL * (k - j)
    ensures LastMinute(Chain(states[i].starts, k + 1), states[i].ledger) <= ROLLING_BYTES
  {
    EveryAccountIsSound(states, steps, i);
    assert Paced(states[i].starts, states[i].ledger, k);
    PacedApart(states[i].starts, states[i].ledger, j, k);
  }

  lemma {:induction false} PacedApart(starts: seq<Began>, ledger: map<Flight, nat>, j: nat, k: nat)
    requires AllPaced(starts, ledger) && j <= k < |starts|
    ensures starts[j].at <= starts[k].at
    ensures (forall m :: j < m <= k ==> !Fresh(starts, m)) ==> starts[k].at - starts[j].at >= INTERVAL * (k - j)
    decreases k
  {
    if j < k {
      PacedApart(starts, ledger, j, k - 1);
      assert Paced(starts, ledger, k);
    }
  }

  lemma PaidInTime(s: State, f: Flight)
    requires RecordsOk(s) && HoldersOk(s) && AccountOk(s) && Enabled(s, Pay(f))
    ensures s.starts != []
    ensures var last := s.starts[|s.starts| - 1];
      last.flight == f && last.at <= s.clock < last.window.until
  {
    assert HolderOk(s, f, s.holders[f]);
    assert WindowOk(s.window.value, s.clock);
  }

  /** Every call is made for the latest start, after it and before the window it
      was reserved under runs out. */
  lemma CallsAreMadeInTime(states: seq<State>, steps: seq<Step>, i: nat)
    requires IsRun(states, steps) && i < |steps| && steps[i].Pay?
    ensures states[i].starts != []
    ensures var s, last := states[i], states[i].starts[|states[i].starts| - 1];
      last.flight == steps[i].flight && last.at <= s.clock < last.window.until
  {
    assert Enabled(states[i], steps[i]);
    EveryStateIsSound(states, steps, i);
    EveryAccountIsSound(states, steps, i);
    PaidInTime(states[i], steps[i].flight);
  }

  // ---- across an expired window ----

  const FIRST := Input("a", "p", "c", Spec(1, 3, 1))
  const SECOND := Input("b", "p", "c", Spec(3, 5, 1))
  const AIR := Flight("a", 1)

  const OPEN := Window(FIRST.window, 3, 1, 1, 0, false, Some(AIR), 1, [Start(AIR, 1, 1)])
  const CALLED := Run(FIRST.window, "p", "c", 1, 1, 0, 0)

  lemma FirstReserves()
    ensures Reserve(None, None, FIRST, 1, 1) == Reserved(OPEN, CALLED, AIR)
  {
  }

  lemma SecondReserves(previous: Window)
    requires Reopens(previous)
    ensures Reserve(Some(previous), None, SECOND, 1, 3).Reserved?
    ensures Reserve(Some(previous), None, SECOND, 1, 3).flight == Flight("b", 1)
  {
  }

  /** The states of the first call: reserved, paid, checked, settled. */
  function Calling(h: Holder, paid: seq<Flight>): State {
    State(1, Some(OPEN), map["a" := CALLED], map[AIR := h], [AIR], [Began(AIR, 1, 1, FIRST.window)], paid, map[])
  }

  const HOLDING := Holder(FIRST, AIR, 0, false, false, Held)
  const PAID := HOLDING.(paid := true)
  const CLEARED := PAID.(cleared := true)

  lemma FirstBegins()
    ensures Enabled(START, Begin(FIRST, 1)) && Next(START, Begin(FIRST, 1)) == Calling(HOLDING, [])
  {
    FirstReserves();
  }

  lemma FirstCalls()
    ensures Enabled(Calling(HOLDING, []), Pay(AIR)) && Next(Calling(HOLDING, []), Pay(AIR)) == Calling(PAID, [AIR])
    ensures Enabled(Calling(PAID, [AIR]), Check(AIR))
    ensures Next(Calling(PAID, [AIR]), Check(AIR)) == Calling(CLEARED, [AIR])
  {
  }

  /** A state in which the first window is settled and nothing else has begun. */
  predicate Idle(s: State, clock: int) {
    && s.clock == clock && s.starts == [Began(AIR, 1, 1, FIRST.window)] && "b" !in s.runs
    && s.window.Some? && Reopens(s.window.value)
  }

  predicate Reopens(w: Window) {
    ValidWindow(w) && !w.halted && w.inFlight.None? && w.id == FIRST.window && w.until == 3
  }

  lemma FirstWindowSettles()
    ensures Reopens(SettledWindow(OPEN, CALLED, CLEARED, false))
  {
    assert WithTokens(OPEN.recent, AIR, 0) == [Start(AIR, 1, 0)];
  }

  lemma FirstSettles(s: State)
    requires s == Calling(CLEARED, [AIR])
    ensures Enabled(s, Publish(AIR)) && Idle(Next(s, Publish(AIR)), 1)
  {
    assert "a"[0] != "b"[0];
    FirstWindowSettles();
  }

  lemma SecondBegins(s: State)
    requires Idle(s, 3)
    ensures Enabled(s, Begin(SECOND, 1))
    ensures var starts := Next(s, Begin(SECOND, 1)).starts;
      |starts| == 2 && Fresh(starts, 1) && starts[1].at - starts[0].at == 2
  {
    SecondReserves(s.window.value);
  }

  predicate RunsTo(states: seq<State>, steps: seq<Step>, s: State) {
    IsRun(states, steps) && states[|states| - 1] == s
  }

  lemma RunExtends(states: seq<State>, steps: seq<Step>, s: State, step: Step, n: State)
    requires RunsTo(states, steps, s) && Enabled(s, step) && Next(s, step) == n
    ensures RunsTo(states + [n], steps + [step], n)
  {
  }

  lemma FirstCallRuns() returns (states: seq<State>, steps: seq<Step>)
    ensures RunsTo(states, steps, Calling(CLEARED, [AIR]))
  {
    FirstBegins();
    FirstCalls();
    RunExtends([START], [], START, Begin(FIRST, 1), Calling(HOLDING, []));
    states, steps := [START] + [Calling(HOLDING, [])], [] + [Begin(FIRST, 1)];
    RunExtends(states, steps, Calling(HOLDING, []), Pay(AIR), Calling(PAID, [AIR]));
    states, steps := states + [Calling(PAID, [AIR])], steps + [Pay(AIR)];
    RunExtends(states, steps, Calling(PAID, [AIR]), Check(AIR), Calling(CLEARED, [AIR]));
    states, steps := states + [Calling(CLEARED, [AIR])], steps + [Check(AIR)];
  }

  lemma FirstWindowRunsOut() returns (states: seq<State>, steps: seq<Step>, s: State)
    ensures RunsTo(states, steps, s) && Idle(s, 3)
  {
    states, steps := FirstCallRuns();
    var called := Calling(CLEARED, [AIR]);
    FirstSettles(called);
    var settled := Next(called, Publish(AIR));
    RunExtends(states, steps, called, Publish(AIR), settled);
    s := Next(settled, Tick(3));
    RunExtends(states + [settled], steps + [Publish(AIR)], settled, Tick(3), s);
    states, steps := states + [settled] + [s], steps + [Publish(AIR)] + [Tick(3)];
  }

  /** The exception is real: a window that has expired forgets its last start, so
      the first call under the next may follow after two milliseconds. */
  lemma ExpiryForgetsTheLastStart() returns (states: seq<State>, steps: seq<Step>)
    ensures IsRun(states, steps)
    ensures var starts := states[|states| - 1].starts;
      |starts| == 2 && Fresh(starts, 1) && starts[1].at - starts[0].at == 2
  {
    var s: State;
    states, steps, s := FirstWindowRunsOut();
    SecondBegins(s);
    RunExtends(states, steps, s, Begin(SECOND, 1), Next(s, Begin(SECOND, 1)));
    states, steps := states + [Next(s, Begin(SECOND, 1))], steps + [Begin(SECOND, 1)];
  }
}

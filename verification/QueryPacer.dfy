/** The pacing of query embedding calls: a start time is reserved before the
    wait, and no window of the given length ever holds too many starts. */
module QueryPacer {
  import opened Sorting

  /** `calls` starts per `window`, a longest wait, and a pause after the provider
      answers with too many requests. */
  datatype Limits = Limits(calls: nat, window: nat, maxWait: nat, cooldown: nat)

  ghost predicate Sensible(l: Limits) { l.calls > 0 && l.window > 0 }

  // ---- the program ----

  predicate UpTo(a: int, b: int) { a <= b }

  function Since(starts: seq<int>, after: int): seq<int> {
    if starts == [] then []
    else if starts[0] > after then [starts[0]] + Since(starts[1..], after)
    else Since(starts[1..], after)
  }

  /** When the next call may start, given the starts still remembered. */
  function NextStart(starts: seq<int>, l: Limits, now: int): int
    requires l.calls > 0
  {
    if |starts| < l.calls then now else starts[|starts| - l.calls] + l.window
  }

  datatype Memory = Memory(starts: seq<int>, blockedUntil: int)

  datatype Answer = Busy | Granted(startAt: int)

  function Reserve(l: Limits, m: Memory, now: int): (Memory, Answer)
    requires l.calls > 0
  {
    if now < m.blockedUntil then (m, Busy)
    else
      var recent := Since(m.starts, now - l.window);
      var startAt := NextStart(recent, l, now);
      if startAt - now > l.maxWait then (m.(starts := recent), Busy)
      else (m.(starts := Sort(UpTo, recent + [startAt])), Granted(startAt))
  }

  class Pacer {
    const limits: Limits
    var starts: seq<int>
    var blockedUntil: int

    constructor (limits: Limits)
      ensures this.limits == limits && starts == [] && blockedUntil == 0
    {
      this.limits, starts, blockedUntil := limits, [], 0;
    }

    method ReserveStart(now: int) returns (answer: Answer)
      requires limits.calls > 0
      modifies this
      ensures (Memory(starts, blockedUntil), answer) == Reserve(limits, Memory(old(starts), old(blockedUntil)), now)
    {
      if now < blockedUntil { return Busy; }
      starts := Since(starts, now - limits.window);
      var startAt := if |starts| < limits.calls then now else starts[|starts| - limits.calls] + limits.window;
      if startAt - now > limits.maxWait { return Busy; }
      starts := starts + [startAt];
      starts := Sort(UpTo, starts);
      return Granted(startAt);
    }

    method Block(now: int)
      modifies this`blockedUntil
      ensures blockedUntil == now + limits.cooldown
    {
      blockedUntil := now + limits.cooldown;
    }
  }

  // ---- the history of all starts ----

  ghost predicate Ascending(starts: seq<int>) {
    forall i, j :: 0 <= i < j < |starts| ==> starts[i] <= starts[j]
  }

  /** The start `calls` places later, and any after it, is at least one window later. */
  ghost predicate Apart(starts: seq<int>, l: Limits) {
    forall i: nat, j: nat :: i + l.calls <= j < |starts| ==> starts[j] >= starts[i] + l.window
  }

  /** A start still in the future is exactly one window after the one it waits for. */
  ghost predicate Waiting(starts: seq<int>, l: Limits, now: int) {
    forall j: nat {:trigger Waits(starts, l, j)} :: j < |starts| && starts[j] > now ==> Waits(starts, l, j)
  }

  ghost predicate Waits(starts: seq<int>, l: Limits, j: nat)
    requires j < |starts|
  {
    j >= l.calls && starts[j] == starts[j - l.calls] + l.window
  }

  ghost predicate Paced(history: seq<int>, l: Limits, now: int) {
    Ascending(history) && Apart(history, l) && Waiting(history, l, now) && forall i: nat :: i < |history| ==>
      history[i] <= now + l.maxWait
  }

  /** The first `kept` starts are forgotten: they lie a whole window in the past. */
  ghost predicate Remembers(history: seq<int>, kept: nat, l: Limits, now: int) {
    kept <= |history| && forall i: nat :: i < |history| ==> (history[i] > now - l.window <==> i >= kept)
  }

  lemma {:induction false} SinceIsSuffix(starts: seq<int>, after: int) returns (k: nat)
    requires Ascending(starts)
    ensures k <= |starts| && Since(starts, after) == starts[k..]
    ensures forall i :: 0 <= i < |starts| ==> (starts[i] > after <==> i >= k)
    decreases starts
  {
    if starts == [] {
      k := 0;
    } else {
      var earlier := SinceIsSuffix(starts[1..], after);
      assert forall i :: 1 <= i < |starts| ==> starts[i] == starts[1..][i - 1];
      if starts[0] > after {
        k := 0;
        assert forall i :: 0 <= i < |starts[1..]| ==> starts[1..][i] > after;
      } else {
        k := earlier + 1;
      }
    }
  }

  lemma {:induction false} SortOfAscending(starts: seq<int>)
    requires Ascending(starts)
    ensures Sort(UpTo, starts) == starts
  {
    if starts != [] {
      SortOfAscending(starts[1..]);
      assert |starts| > 1 ==> starts[0] <= starts[1];
    }
  }

  lemma SuffixAscends(history: seq<int>, kept: nat)
    requires Ascending(history) && kept <= |history|
    ensures Ascending(history[kept..])
  {
  }

  /** Filtering the remembered starts is filtering the whole history. */
  lemma Forgetting(history: seq<int>, kept: nat, l: Limits, last: int, now: int) returns (forgotten: nat)
    requires Ascending(history) && Remembers(history, kept, l, last) && last <= now
    ensures Remembers(history, forgotten, l, now) && Since(history[kept..], now - l.window) == history[forgotten..]
  {
    SuffixAscends(history, kept);
    var dropped := SinceIsSuffix(history[kept..], now - l.window);
    forgotten := kept + dropped;
    assert forall i: nat :: kept <= i < |history| ==> history[i] == history[kept..][i - kept];
    assert history[kept..][dropped..] == history[forgotten..];
  }

  /** With room left no start lies in the future; otherwise the next start is
      one window after the one it waits for. */
  lemma NextStartIsLast(history: seq<int>, kept: nat, l: Limits, now: int)
    requires Sensible(l) && Paced(history, l, now) && Remembers(history, kept, l, now)
    ensures var next := NextStart(history[kept..], l, now);
            && next >= now && (history != [] ==> history[|history| - 1] <= next)
            && (|history| >= l.calls ==> next >= history[|history| - l.calls] + l.window)
            && (next > now ==> |history| >= l.calls && next == history[|history| - l.calls] + l.window)
  {
    var n := |history|;
    if history != [] && history[n - 1] > now {
      assert Waits(history, l, n - 1);
      assert history[n - 1 - l.calls] > now - l.window;
    }
    if n - kept >= l.calls {
      assert history[kept..][n - kept - l.calls] == history[n - l.calls];
    }
  }

  lemma AppendKeepsApart(history: seq<int>, next: int, l: Limits)
    requires Sensible(l) && Ascending(history) && Apart(history, l)
    requires history != [] ==> history[|history| - 1] <= next
    requires |history| >= l.calls ==> next >= history[|history| - l.calls] + l.window
    ensures Ascending(history + [next]) && Apart(history + [next], l)
  {
    var n := |history|;
    var longer := history + [next];
    forall i: nat, j: nat | i + l.calls <= j < |longer| ensures longer[j] >= longer[i] + l.window {
      if j == n { assert history[i] <= history[n - l.calls]; }
    }
  }

  lemma AppendKeepsWaiting(history: seq<int>, next: int, l: Limits, now: int)
    requires Sensible(l) && Waiting(history, l, now)
    requires next > now ==> |history| >= l.calls && next == history[|history| - l.calls] + l.window
    ensures Waiting(history + [next], l, now)
  {
    var longer := history + [next];
    forall j: nat | j < |longer| && longer[j] > now ensures Waits(longer, l, j) {
      if j < |history| { assert Waits(history, l, j); }
    }
  }

  lemma PacedLater(history: seq<int>, l: Limits, last: int, now: int)
    requires Paced(history, l, last) && last <= now
    ensures Paced(history, l, now)
  {
  }

  // ---- runs ----

  datatype Step = Ask(now: int) | TooManyRequests(now: int)

  /** Everything so far: the memory, every start ever granted, how many of them
      are forgotten, and the last clock reading. */
  datatype World = World(memory: Memory, history: seq<int>, last: int)

  function Next(l: Limits, w: World, step: Step): World
    requires l.calls > 0
  {
    match step
    case Ask(now) =>
      var (memory, answer) := Reserve(l, w.memory, now);
      World(memory, if answer.Granted? then w.history + [answer.startAt] else w.history, now)
    case TooManyRequests(now) => World(w.memory.(blockedUntil := now + l.cooldown), w.history, now)
  }

  function Play(l: Limits, start: int, steps: seq<Step>): World
    requires l.calls > 0
  {
    if steps == [] then World(Memory([], 0), [], start)
    else Next(l, Play(l, start, steps[..|steps| - 1]), steps[|steps| - 1])
  }

  /** The clock does not go back. */
  predicate Forward(start: int, steps: seq<Step>) {
    && (forall i :: 0 <= i < |steps| ==> steps[i].now >= start)
    && (forall i, j :: 0 <= i < j < |steps| ==> steps[i].now <= steps[j].now)
  }

  /** The memory is the end of the history; an earlier clock reading decided how much of it. */
  ghost predicate Sound(l: Limits, w: World) {
    Paced(w.history, l, w.last) && exists kept: nat, seen: int :: Holds(l, w, kept, seen)
  }

  ghost predicate Holds(l: Limits, w: World, kept: nat, seen: int) {
    seen <= w.last && Remembers(w.history, kept, l, seen) && w.memory.starts == w.history[kept..]
    && forall i: nat :: i < |w.history| ==> w.history[i] <= seen + l.maxWait
  }

  /** What a request finds: how much of the history is still remembered. */
  lemma Asked(l: Limits, w: World, kept: nat, seen: int, now: int) returns (forgotten: nat)
    requires Paced(w.history, l, w.last) && Holds(l, w, kept, seen) && now >= w.last
    ensures Paced(w.history, l, now) && Remembers(w.history, forgotten, l, now)
    ensures Since(w.memory.starts, now - l.window) == w.history[forgotten..]
  {
    PacedLater(w.history, l, w.last, now);
    forgotten := Forgetting(w.history, kept, l, seen, now);
  }

  lemma RefusalKeepsSound(l: Limits, w: World, n: World, forgotten: nat)
    requires Paced(w.history, l, n.last) && Remembers(w.history, forgotten, l, n.last)
    requires n.history == w.history && n.memory.starts == w.history[forgotten..]
    ensures Sound(l, n)
  {
    assert Holds(l, n, forgotten, n.last);
  }

  lemma GrantKeepsPaced(history: seq<int>, forgotten: nat, l: Limits, now: int, next: int)
    requires Sensible(l) && Paced(history, l, now) && Remembers(history, forgotten, l, now)
    requires next == NextStart(history[forgotten..], l, now) <= now + l.maxWait
    ensures Paced(history + [next], l, now) && next >= now
  {
    NextStartIsLast(history, forgotten, l, now);
    AppendKeepsApart(history, next, l);
    AppendKeepsWaiting(history, next, l, now);
  }

  /** Sorting the remembered starts after a grant changes nothing. */
  lemma GrantedIsSorted(history: seq<int>, forgotten: nat, next: int)
    requires Ascending(history + [next]) && forgotten <= |history|
    ensures Sort(UpTo, history[forgotten..] + [next]) == (history + [next])[forgotten..]
  {
    assert history[forgotten..] + [next] == (history + [next])[forgotten..];
    SuffixAscends(history + [next], forgotten);
    SortOfAscending((history + [next])[forgotten..]);
  }

  lemma GrantKeepsSound(l: Limits, w: World, n: World, forgotten: nat, next: int)
    requires Sensible(l) && Paced(w.history, l, n.last) && Remembers(w.history, forgotten, l, n.last)
    requires next == NextStart(w.history[forgotten..], l, n.last) <= n.last + l.maxWait
    requires n.history == w.history + [next] && n.memory.starts == Sort(UpTo, w.history[forgotten..] + [next])
    ensures Sound(l, n)
  {
    GrantKeepsPaced(w.history, forgotten, l, n.last, next);
    GrantedIsSorted(w.history, forgotten, next);
    GrantRemembers(w.history, forgotten, l, n.last, next);
    assert Holds(l, n, forgotten, n.last);
  }

  lemma GrantRemembers(history: seq<int>, forgotten: nat, l: Limits, now: int, next: int)
    requires Sensible(l) && Remembers(history, forgotten, l, now) && next >= now
    ensures Remembers(history + [next], forgotten, l, now)
  {
  }

  lemma AskResult(l: Limits, w: World, now: int, recent: seq<int>, next: int)
    requires l.calls > 0 && now >= w.memory.blockedUntil
    requires recent == Since(w.memory.starts, now - l.window) && next == NextStart(recent, l, now)
    ensures var n := Next(l, w, Ask(now));
            n.last == now && n.memory.blockedUntil == w.memory.blockedUntil
            && (if next - now > l.maxWait then n.history == w.history && n.memory.starts == recent
                else n.history == w.history + [next] && n.memory.starts == Sort(UpTo, recent + [next]))
  {
  }

  lemma AskKeepsSound(l: Limits, w: World, n: World, recent: seq<int>, kept: nat, seen: int)
    requires Sensible(l) && Paced(w.history, l, w.last) && Holds(l, w, kept, seen) && n.last >= w.last
    requires recent == Since(w.memory.starts, n.last - l.window)
    requires var next := NextStart(recent, l, n.last);
             if next - n.last > l.maxWait then n.history == w.history && n.memory.starts == recent
             else n.history == w.history + [next] && n.memory.starts == Sort(UpTo, recent + [next])
    ensures Sound(l, n)
  {
    var forgotten := Asked(l, w, kept, seen, n.last);
    var next := NextStart(recent, l, n.last);
    if next - n.last > l.maxWait {
      RefusalKeepsSound(l, w, n, forgotten);
    } else {
      GrantKeepsSound(l, w, n, forgotten, next);
    }
  }

  lemma StepKeepsSound(l: Limits, w: World, step: Step)
    requires Sensible(l) && Sound(l, w) && step.now >= w.last
    ensures Sound(l, Next(l, w, step))
  {
    if step.Ask? && step.now >= w.memory.blockedUntil {
      var recent := Since(w.memory.starts, step.now - l.window);
      AskResult(l, w, step.now, recent, NextStart(recent, l, step.now));
      var kept: nat, seen: int :| Holds(l, w, kept, seen);
      AskKeepsSound(l, w, Next(l, w, step), recent, kept, seen);
    } else {
      IdleKeepsSound(l, w, Next(l, w, step));
    }
  }

  lemma IdleKeepsSound(l: Limits, w: World, n: World)
    requires Sound(l, w) && n.history == w.history && n.memory.starts == w.memory.starts && n.last >= w.last
    ensures Sound(l, n)
  {
    var kept: nat, seen: int :| Holds(l, w, kept, seen);
    PacedLater(w.history, l, w.last, n.last);
    assert Holds(l, n, kept, seen);
  }

  lemma {:induction false} EveryRunIsSound(l: Limits, start: int, steps: seq<Step>)
    requires Sensible(l) && Forward(start, steps)
    ensures Sound(l, Play(l, start, steps))
    ensures Play(l, start, steps).last == if steps == [] then start else steps[|steps| - 1].now
    decreases |steps|
  {
    if steps == [] {
      assert Holds(l, Play(l, start, steps), 0, start);
    } else {
      EveryRunIsSound(l, start, steps[..|steps| - 1]);
      StepKeepsSound(l, Play(l, start, steps[..|steps| - 1]), steps[|steps| - 1]);
    }
  }

  // ---- what a run guarantees ----

  /** No half-open window of the given length holds more than `calls` starts,
      and starts are granted in time order. */
  lemma WindowsHoldAtMostTheCalls(l: Limits, start: int, steps: seq<Step>, from: int, i: nat, j: nat)
    requires Sensible(l) && Forward(start, steps)
    requires i <= j < |Play(l, start, steps).history|
    ensures var history := Play(l, start, steps).history;
            history[i] <= history[j] && (from <= history[i] && history[j] < from + l.window ==> j - i < l.calls)
  {
    EveryRunIsSound(l, start, steps);
  }

  /** A request is turned away only when blocked, or when every start within the
      longest wait would come too soon after an earlier one. */
  lemma BusyOnlyWhenFull(l: Limits, start: int, steps: seq<Step>, now: int, startAt: int)
    requires Sensible(l) && Forward(start, steps) && now >= Play(l, start, steps).last
    requires Reserve(l, Play(l, start, steps).memory, now).1 == Busy && now >= Play(l, start, steps).memory.blockedUntil
    requires now <= startAt <= now + l.maxWait
    ensures !Apart(Play(l, start, steps).history + [startAt], l)
  {
    EveryRunIsSound(l, start, steps);
    var w := Play(l, start, steps);
    BusyMeans(l, w.memory, now);
    var kept: nat, seen: int :| Holds(l, w, kept, seen);
    var forgotten := Asked(l, w, kept, seen, now);
    FullMeansTooSoon(w.history, forgotten, l, now, startAt);
  }

  lemma FullMeansTooSoon(history: seq<int>, forgotten: nat, l: Limits, now: int, startAt: int)
    requires Sensible(l) && Paced(history, l, now) && Remembers(history, forgotten, l, now)
    requires NextStart(history[forgotten..], l, now) > now + l.maxWait >= startAt
    ensures !Apart(history + [startAt], l)
  {
    var next := NextStart(history[forgotten..], l, now);
    NextStartIsLast(history, forgotten, l, now);
    TooSoon(history, next, startAt, l);
  }

  lemma BusyMeans(l: Limits, m: Memory, now: int)
    requires l.calls > 0 && Reserve(l, m, now).1 == Busy && now >= m.blockedUntil
    ensures NextStart(Since(m.starts, now - l.window), l, now) > now + l.maxWait
  {
  }

  lemma TooSoon(history: seq<int>, next: int, startAt: int, l: Limits)
    requires |history| >= l.calls > 0 && startAt < next == history[|history| - l.calls] + l.window
    ensures !Apart(history + [startAt], l)
  {
    var n := |history|;
    assert (history + [startAt])[n] == startAt && (history + [startAt])[n - l.calls] == history[n - l.calls];
  }

  lemma {:induction false} BlockedStays(l: Limits, start: int, steps: seq<Step>, i: nat)
    requires l.calls > 0 && Forward(start, steps) && i < |steps| && steps[i].TooManyRequests?
    ensures Play(l, start, steps).memory.blockedUntil >= steps[i].now + l.cooldown
    decreases |steps|
  {
    var front := steps[..|steps| - 1];
    if i < |front| {
      assert front[i] == steps[i];
      BlockedStays(l, start, front, i);
    }
  }

  /** Once the provider has answered with too many requests nothing is started
      until the pause is over. */
  lemma NothingStartsInThePause(l: Limits, start: int, steps: seq<Step>, i: nat, now: int)
    requires l.calls > 0 && Forward(start, steps + [Ask(now)]) && i < |steps| && steps[i].TooManyRequests?
    requires now < steps[i].now + l.cooldown
    ensures Play(l, start, steps + [Ask(now)]).history == Play(l, start, steps).history
    ensures Play(l, start, steps + [Ask(now)]).memory == Play(l, start, steps).memory
  {
    assert (steps + [Ask(now)])[..|steps|] == steps;
    assert forall k :: 0 <= k < |steps| ==> (steps + [Ask(now)])[k] == steps[k];
    BlockedStays(l, start, steps, i);
  }

  /** The pacer is blocked by nothing else: the pause it waits for follows some
      such answer. */
  lemma {:induction false} OnlyAnswersBlock(l: Limits, start: int, steps: seq<Step>)
    requires l.calls > 0
    ensures var until := Play(l, start, steps).memory.blockedUntil;
      until == 0 || exists i :: 0 <= i < |steps| && steps[i].TooManyRequests? && until == steps[i].now + l.cooldown
    decreases |steps|
  {
    if steps != [] {
      var front, last := steps[..|steps| - 1], steps[|steps| - 1];
      OnlyAnswersBlock(l, start, front);
      var until := Play(l, start, front).memory.blockedUntil;
      if last.Ask? && until != 0 {
        var i :| 0 <= i < |front| && front[i].TooManyRequests? && until == front[i].now + l.cooldown;
        assert steps[i] == front[i];
      }
    }
  }

  /** Only so many starts are remembered, however many were ever granted. */
  lemma MemoryIsBounded(l: Limits, start: int, steps: seq<Step>)
    requires Sensible(l) && Forward(start, steps)
    ensures |Play(l, start, steps).memory.starts| <= l.calls * ((l.window + l.maxWait - 1) / l.window + 1)
  {
    EveryRunIsSound(l, start, steps);
    var w := Play(l, start, steps);
    var kept: nat, seen: int :| Holds(l, w, kept, seen);
    FewRemembered(w.history, kept, l, seen);
  }

  lemma RememberedSpan(history: seq<int>, kept: nat, l: Limits, seen: int, m: nat, at: nat)
    requires Sensible(l) && Apart(history, l) && Remembers(history, kept, l, seen)
    requires at == kept + m * l.calls < |history| && history[at] <= seen + l.maxWait
    ensures m * l.window <= l.window + l.maxWait - 1
  {
    ManyCallsManyWindows(history, kept, l, m);
    assert history[kept] > seen - l.window;
  }

  lemma FewRemembered(history: seq<int>, kept: nat, l: Limits, seen: int)
    requires Sensible(l) && Apart(history, l) && Remembers(history, kept, l, seen)
    requires forall i: nat :: i < |history| ==> history[i] <= seen + l.maxWait
    ensures |history| - kept <= l.calls * ((l.window + l.maxWait - 1) / l.window + 1)
  {
    var n := |history| - kept;
    if n > 0 {
      var m := FullRounds(n - 1, l.calls);
      RememberedSpan(history, kept, l, seen, m, kept + m * l.calls);
      FewWindows(l.calls, l.window, m, l.window + l.maxWait - 1);
    }
  }

  lemma FullRounds(n: nat, calls: nat) returns (m: nat)
    requires calls > 0
    ensures m * calls <= n < (m + 1) * calls
  {
    m := n / calls;
  }

  lemma {:induction false} ManyCallsManyWindows(history: seq<int>, base: nat, l: Limits, m: nat)
    requires Apart(history, l) && base + m * l.calls < |history| && l.calls > 0
    ensures history[base + m * l.calls] >= history[base] + m * l.window
    decreases m
  {
    if m > 0 {
      assert (m - 1) * l.calls + l.calls == m * l.calls;
      ManyCallsManyWindows(history, base, l, m - 1);
      assert history[base + m * l.calls] >= history[base + (m - 1) * l.calls] + l.window;
      assert (m - 1) * l.window + l.window == m * l.window;
    }
  }

  lemma FewWindows(calls: nat, window: nat, m: nat, span: nat)
    requires window > 0 && m * window <= span
    ensures (m + 1) * calls <= calls * (span / window + 1)
  {
    assert m <= span / window by {
      assert span == window * (span / window) + span % window;
      if m > span / window { Larger(window, span / window + 1, m); }
    }
    Larger(calls, m + 1, span / window + 1);
  }

  lemma Larger(a: nat, b: nat, c: nat)
    requires b <= c
    ensures a * b <= a * c && b * a <= c * a
  {
  }

  // ---- the clock must not go back ----

  const TWO_IN_TEN := Limits(2, 10, 5, 0)

  lemma PlayGrows(l: Limits, start: int, steps: seq<Step>, step: Step)
    requires l.calls > 0
    ensures Play(l, start, steps + [step]) == Next(l, Play(l, start, steps), step)
  {
    assert (steps + [step])[..|steps|] == steps;
  }

  lemma OneStart()
    ensures Play(TWO_IN_TEN, 100, [Ask(100)]) == World(Memory([100], 0), [100], 100)
  {
    PlayGrows(TWO_IN_TEN, 100, [], Ask(100));
    assert [] + [Ask(100)] == [Ask(100)];
    assert [] + [100] == [100];
  }

  lemma TwoStarts()
    ensures Play(TWO_IN_TEN, 100, [Ask(100), Ask(101)]) == World(Memory([100, 101], 0), [100, 101], 101)
  {
    OneStart();
    PlayGrows(TWO_IN_TEN, 100, [Ask(100)], Ask(101));
    assert [Ask(100)] + [Ask(101)] == [Ask(100), Ask(101)];
    assert Since([100], 91) == [100];
    SortOfAscending([100, 101]);
    assert [100] + [101] == [100, 101];
  }

  lemma ThirdForgets()
    ensures Play(TWO_IN_TEN, 100, [Ask(100), Ask(101), Ask(112)]) == World(Memory([112], 0), [100, 101, 112], 112)
  {
    TwoStarts();
    PlayGrows(TWO_IN_TEN, 100, [Ask(100), Ask(101)], Ask(112));
    assert [Ask(100), Ask(101)] + [Ask(112)] == [Ask(100), Ask(101), Ask(112)];
    assert Since([101], 102) == [] && Since([100, 101], 102) == [];
    assert Sort(UpTo, [112]) == [112] && [] + [112] == [112];
  }

  /** With two calls per 10 ms, reservations at 100, 101, 112 and then 105 leave
      three starts in the window from 100 to 110: the bound needs the clock. */
  lemma SteppingBackOverfills()
    ensures var history := Play(TWO_IN_TEN, 100, [Ask(100), Ask(101), Ask(112), Ask(105)]).history;
            && history == [100, 101, 112, 105] && !Apart(history, TWO_IN_TEN)
            && forall k :: k in {0, 1, 3} ==> 100 <= history[k] < 100 + TWO_IN_TEN.window
  {
    ThirdForgets();
    PlayGrows(TWO_IN_TEN, 100, [Ask(100), Ask(101), Ask(112)], Ask(105));
    assert [Ask(100), Ask(101), Ask(112)] + [Ask(105)] == [Ask(100), Ask(101), Ask(112), Ask(105)];
    assert Since([112], 95) == [112];
    var history := [100, 101, 112, 105];
    assert history[3] < history[0] + 10;
  }
}

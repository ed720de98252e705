/**
 The sliding-window rate counter, in exact arithmetic: times are integer clock ticks, the weighted estimate is a
 real number. A window start of 0 is the source's "not started" mark.
 */
module SlidingWindow {
  import opened Bits

  datatype Counter = Counter(limit: nat, window: int, previous: nat, current: nat, start: int)

  function Fresh(limit: nat, window: int): Counter {
    Counter(limit, if window > 0 then window else 1, 0, 0, 0)
  }

  /** `advance_window`. */
  function Advanced(c: Counter, now: int): Counter
    requires c.window > 0
  {
    if c.start == 0 then c.(start := now)
    else if now - c.start < c.window then c
    else if (now - c.start) / c.window == 1 then
      c.(previous := c.current, current := 0, start := c.start + c.window)
    else c.(previous := 0, current := 0, start := now)
  }

  /** Share of the window beginning at `start` that has passed, at most 1. */
  function Ratio(start: int, window: int, now: int): real
    requires window > 0
  {
    var r := (now - start) as real / window as real;
    if r > 1.0 then 1.0 else r
  }

  function Estimate(c: Counter, now: int): real
    requires c.window > 0
  {
    Weighted(c.previous, c.current, Ratio(c.start, c.window, now))
  }

  function Weighted(previous: nat, current: nat, ratio: real): real {
    previous as real * (1.0 - ratio) + current as real
  }

  predicate Admits(c: Counter, now: int)
    requires c.window > 0
  {
    Estimate(Advanced(c, now), now) < c.limit as real
  }

  function Allowed(c: Counter, now: int): Counter
    requires c.window > 0
  {
    var a := Advanced(c, now);
    if Admits(c, now) then a.(current := a.current + 1) else a
  }

  /** `estimated_count`: a pure reading that works out the window itself. */
  function Predicted(c: Counter, now: int): real
    requires c.window > 0
  {
    var elapsed := now - c.start;
    if elapsed < c.window then Estimate(c, now)
    else if elapsed / c.window == 1 then
      Weighted(c.current, 0, Ratio(c.start + c.window, c.window, now))
    else 0.0
  }

  class SlidingWindowCounter {
    const limit: nat
    const window: int
    var previous: nat
    var current: nat
    var start: int

    ghost function View(): Counter
      reads this
    {
      Counter(limit, window, previous, current, start)
    }

    constructor (limit: nat, window: int)
      ensures View() == Fresh(limit, window)
    {
      this.limit := limit;
      this.window := if window > 0 then window else 1;
      previous, current, start := 0, 0, 0;
    }

    method AdvanceWindow(now: int)
      requires window > 0
      modifies this
      ensures View() == Advanced(old(View()), now)
    {
      if start == 0 {
        start := now;
        return;
      }
      var elapsed := now - start;
      if elapsed < window {
        return;
      }
      if elapsed / window == 1 {
        previous, current, start := current, 0, start + window;
      } else {
        previous, current, start := 0, 0, now;
      }
    }

    method Allow(now: int) returns (ok: bool)
      requires window > 0
      modifies this
      ensures View() == Allowed(old(View()), now) && ok == Admits(old(View()), now)
    {
      AdvanceWindow(now);
      var ratio := (now - start) as real / window as real;
      if ratio > 1.0 {
        ratio := 1.0;
      }
      assert ratio == Ratio(start, window, now);
      var estimate := previous as real * (1.0 - ratio) + current as real;
      if estimate >= limit as real {
        return false;
      }
      current := current + 1;
      return true;
    }

    /** Works out the window `now` falls into without advancing the object. */
    method EstimatedCount(now: int) returns (e: real)
      requires window > 0
      ensures e == Predicted(View(), now)
      ensures start <= now && (start == 0 ==> previous == current == 0) ==>
                e == Estimate(Advanced(View(), now), now)
    {
      PredictionIsEstimate(View(), now);
      var elapsed := now - start;
      var effCurrent, effPrevious, effStart := current, previous, start;
      if elapsed >= window {
        if elapsed / window == 1 {
          effPrevious, effCurrent, effStart := effCurrent, 0, start + window;
        } else {
          return 0.0;
        }
      }
      var ratio := (now - effStart) as real / window as real;
      if ratio > 1.0 {
        ratio := 1.0;
      }
      assert ratio == Ratio(effStart, window, now);
      e := effPrevious as real * (1.0 - ratio) + effCurrent as real;
      assert e == Weighted(effPrevious, effCurrent, ratio);
    }
  }

  lemma PredictionIsEstimate(c: Counter, now: int)
    requires c.window > 0
    ensures c.start <= now && (c.start == 0 ==> c.previous == c.current == 0) ==>
              Predicted(c, now) == Estimate(Advanced(c, now), now)
  {
    if c.start <= now && (c.start == 0 ==> c.previous == c.current == 0) {
      PredictsAdvanced(c, now);
    }
  }

  // ---- Runs ----

  /** An admitted call and the window it was counted in. */
  datatype Admission = Admission(time: int, start: int)

  datatype Run = Run(counter: Counter, now: int, log: seq<Admission>)

  function Play(limit: nat, window: int, times: seq<int>): (r: Run)
    ensures r.counter.window == (if window > 0 then window else 1) && r.counter.limit == limit
  {
    if times == [] then Run(Fresh(limit, window), 0, [])
    else
      var r := Play(limit, window, times[..|times| - 1]);
      var now := times[|times| - 1];
      var a := Advanced(r.counter, now);
      Run(Allowed(r.counter, now), now,
          if Admits(r.counter, now) then r.log + [Admission(now, a.start)] else r.log)
  }

  /** Positive, non-decreasing clock readings. */
  predicate Clock(times: seq<int>) {
    forall i | 0 <= i < |times| :: times[i] > 0 && (i > 0 ==> times[i - 1] <= times[i])
  }

  predicate CounterOk(c: Counter, now: int) {
    && c.window > 0 && 0 <= c.start <= now
    && c.current <= c.limit && c.previous <= c.limit
    && (c.start == 0 ==> now == 0 && c.current == c.previous == 0)
  }

  predicate InWindow(c: Counter, a: Admission, now: int) {
    0 < a.start <= a.time < a.start + c.window && a.time <= now
  }

  /** Two admissions share a window or their windows do not overlap; a window holds at most `limit`. */
  predicate PairOk(c: Counter, log: seq<Admission>, i: nat, j: nat) {
    i <= j < |log| ==>
      && (log[i].start == log[j].start || log[i].start + c.window <= log[j].start)
      && (log[i].start == log[j].start ==> j - i < c.limit)
  }

  /** The last `current` admissions are those of the present window. */
  predicate PlaceOk(c: Counter, log: seq<Admission>, k: nat) {
    k < |log| ==>
      if k < |log| - c.current then log[k].start + c.window <= c.start else log[k].start == c.start
  }

  ghost predicate Inv(r: Run) {
    && CounterOk(r.counter, r.now) && r.counter.current <= |r.log|
    && (forall k | 0 <= k < |r.log| :: InWindow(r.counter, r.log[k], r.now))
    && (forall k: nat :: PlaceOk(r.counter, r.log, k))
    && (forall i: nat, j: nat :: PairOk(r.counter, r.log, i, j))
  }

  lemma EstimateCoversCurrent(c: Counter, now: int)
    requires c.window > 0
    ensures Estimate(c, now) >= c.current as real
  {
    NonNegativeProduct(c.previous as real, 1.0 - Ratio(c.start, c.window, now));
  }

  lemma NonNegativeProduct(x: real, y: real)
    requires x >= 0.0 && y >= 0.0
    ensures x * y >= 0.0
  {
  }

  lemma OneWindowPassed(elapsed: int, window: int)
    requires 0 < window <= elapsed
    ensures elapsed / window == 1 <==> elapsed < 2 * window
  {
    DivModIdentity(elapsed, window);
    if elapsed < 2 * window {
      DivModUnique(elapsed, window, 1, elapsed - window);
    }
  }

  /** Moving on to `now` keeps everything and leaves `now` inside the present window. */
  lemma AdvanceKeepsInv(r: Run, now: int)
    requires Inv(r) && r.now <= now && now > 0
    ensures var a := Advanced(r.counter, now);
            Inv(Run(a, now, r.log)) && 0 < a.start <= now < a.start + a.window
  {
    var c := r.counter;
    var a := Advanced(c, now);
    if c.start != 0 && now - c.start >= c.window {
      OneWindowPassed(now - c.start, c.window);
    }
    forall k: nat ensures PlaceOk(a, r.log, k) {
      assert PlaceOk(c, r.log, k);
    }
    forall i: nat, j: nat ensures PairOk(a, r.log, i, j) {
      assert PairOk(c, r.log, i, j);
    }
    forall k | 0 <= k < |r.log| ensures InWindow(a, r.log[k], now) {
      assert InWindow(c, r.log[k], r.now);
    }
  }

  lemma AdmitKeepsInv(r: Run)
    requires Inv(r) && r.counter.start > 0 && r.now < r.counter.start + r.counter.window
    requires r.counter.current < r.counter.limit
    ensures var c := r.counter;
            Inv(Run(c.(current := c.current + 1), r.now, r.log + [Admission(r.now, c.start)]))
  {
    var c := r.counter;
    var log := r.log + [Admission(r.now, c.start)];
    var d := c.(current := c.current + 1);
    forall k: nat ensures PlaceOk(d, log, k) {
      assert PlaceOk(c, r.log, k);
    }
    forall i: nat, j: nat ensures PairOk(d, log, i, j) {
      assert PairOk(c, r.log, i, j);
      assert PlaceOk(c, r.log, i);
    }
  }

  lemma {:induction false} RunsKeepInv(limit: nat, window: int, times: seq<int>)
    requires Clock(times)
    ensures Inv(Play(limit, window, times))
    decreases |times|
  {
    if times == [] {
    } else {
      var before := times[..|times| - 1];
      RunsKeepInv(limit, window, before);
      var r, now := Play(limit, window, before), times[|times| - 1];
      assert before != [] ==> r.now == times[|times| - 2];
      AdvanceKeepsInv(r, now);
      var a := Advanced(r.counter, now);
      if Admits(r.counter, now) {
        EstimateCoversCurrent(a, now);
        AdmitKeepsInv(Run(a, now, r.log));
      }
    }
  }

  // ---- Main results ----

  /** Both counters stay at or below the limit in every run. */
  lemma CountersBounded(limit: nat, window: int, times: seq<int>)
    requires Clock(times)
    ensures var c := Play(limit, window, times).counter; c.current <= limit && c.previous <= limit
  {
    RunsKeepInv(limit, window, times);
  }

  lemma SpanBound(r: Run, i: nat, j: nat)
    requires Inv(r) && i <= j < |r.log| && r.log[j].time <= r.log[i].time + r.counter.window
    ensures j - i < 2 * r.counter.limit
  {
    var log, limit := r.log, r.counter.limit;
    assert PairOk(r.counter, log, i, j);
    if log[i].start != log[j].start && j - i >= limit {
      var m := i + limit;
      assert PairOk(r.counter, log, i, m) && PairOk(r.counter, log, m, j);
      assert InWindow(r.counter, log[i], r.now) && InWindow(r.counter, log[j], r.now);
      assert log[m].start == log[j].start;
    }
  }

  /** How many admitted calls lie in the closed interval from `lo` to `hi`. */
  function CountIn(log: seq<Admission>, lo: int, hi: int): nat {
    if log == [] then 0
    else CountIn(log[..|log| - 1], lo, hi) + if lo <= log[|log| - 1].time <= hi then 1 else 0
  }

  lemma {:induction false} CountSpan(log: seq<Admission>, lo: int, hi: int) returns (i: nat, j: nat)
    requires CountIn(log, lo, hi) > 0
    ensures i <= j < |log| && lo <= log[i].time <= hi && lo <= log[j].time <= hi
    ensures CountIn(log, lo, hi) <= j - i + 1
    decreases |log|
  {
    var rest := log[..|log| - 1];
    if CountIn(rest, lo, hi) == 0 {
      i, j := |log| - 1, |log| - 1;
    } else {
      i, j := CountSpan(rest, lo, hi);
      if lo <= log[|log| - 1].time <= hi {
        j := |log| - 1;
      }
    }
  }

  /** Any interval of one window length, wherever it lies, contains at most twice the limit of admitted calls. */
  lemma AtMostTwiceTheLimit(limit: nat, window: int, times: seq<int>, t: int)
    requires Clock(times)
    ensures var r := Play(limit, window, times);
            CountIn(r.log, t, t + r.counter.window) <= 2 * limit
  {
    RunsKeepInv(limit, window, times);
    var r := Play(limit, window, times);
    if CountIn(r.log, t, t + r.counter.window) > 0 {
      var i, j := CountSpan(r.log, t, t + r.counter.window);
      SpanBound(r, i, j);
    }
  }

  /** Within one window the bound is the limit itself. */
  lemma AtMostLimitPerWindow(limit: nat, window: int, times: seq<int>, r: Run, i: nat, j: nat)
    requires Clock(times) && r == Play(limit, window, times)
    requires i <= j < |r.log| && r.log[i].start == r.log[j].start
    ensures j - i < limit
  {
    RunsKeepInv(limit, window, times);
    assert PairOk(r.counter, r.log, i, j);
  }

  /** The pure prediction equals the estimate that `allow` tests after any run, so it tells whether a call is let in. */
  lemma PredictionMatchesTest(limit: nat, window: int, times: seq<int>, now: int)
    requires Clock(times + [now])
    ensures var c := Play(limit, window, times).counter;
            && Predicted(c, now) == Estimate(Advanced(c, now), now)
            && (Admits(c, now) <==> Predicted(c, now) < limit as real)
  {
    var longer := times + [now];
    assert longer[|times|] == now;
    forall i | 0 <= i < |times| ensures times[i] > 0 && (i > 0 ==> times[i - 1] <= times[i]) {
      assert longer[i] == times[i] && (i > 0 ==> longer[i - 1] == times[i - 1]);
    }
    RunsKeepInv(limit, window, times);
    assert times != [] ==> longer[|times| - 1] == times[|times| - 1];
    PredictsAdvanced(Play(limit, window, times).counter, now);
  }

  lemma PredictsAdvanced(c: Counter, now: int)
    requires c.window > 0 && c.start <= now && (c.start == 0 ==> c.previous == c.current == 0)
    ensures Predicted(c, now) == Estimate(Advanced(c, now), now)
  {
  }

  // ---- What the two counters stand for ----

  /** How many calls were admitted in the window that began at `start`. */
  function CountAt(log: seq<Admission>, start: int): nat {
    if log == [] then 0 else CountAt(log[..|log| - 1], start) + if log[|log| - 1].start == start then 1 else 0
  }

  /** The window a sequence of calls has got to: it follows on from the last one or, after a gap, begins anew. */
  function WindowStart(window: int, times: seq<int>): int {
    if times == [] then 0
    else
      NextStart(window, WindowStart(window, times[..|times| - 1]), times[|times| - 1])
  }

  function NextStart(window: int, before: int, now: int): int {
    if before == 0 then now
    else if now < before + window then before
    else if now < before + 2 * window then before + window
    else now
  }

  /** The share of the window before the one at `start` that a window ending now still covers. */
  function Covered(start: int, window: int, now: int): real
    requires window > 0
  {
    (start + window - now) as real / window as real
  }

  /**
   The rule without counters: a call is let in if the calls admitted in this window, and those of the window before
   weighted with the share of it that is still covered, are fewer than the limit.
   */
  predicate LetsIn(limit: nat, window: int, log: seq<Admission>, start: int, now: int)
    requires window > 0
  {
    CountAt(log, start - window) as real * Covered(start, window, now) + CountAt(log, start) as real < limit as real
  }

  function Reference(limit: nat, window: int, times: seq<int>): seq<Admission>
    requires window > 0
  {
    if times == [] then []
    else
      var log := Reference(limit, window, times[..|times| - 1]);
      var start, now := WindowStart(window, times), times[|times| - 1];
      if LetsIn(limit, window, log, start, now) then log + [Admission(now, start)] else log
  }

  ghost predicate Counted(r: Run) {
    && r.counter.current == CountAt(r.log, r.counter.start)
    && r.counter.previous == CountAt(r.log, r.counter.start - r.counter.window)
  }

  lemma {:induction false} NoneLater(log: seq<Admission>, start: int)
    requires forall k | 0 <= k < |log| :: log[k].start < start
    ensures CountAt(log, start) == 0
  {
    if log == [] {
    } else {
      NoneLater(log[..|log| - 1], start);
    }
  }

  lemma StartsBefore(r: Run, k: nat)
    requires Inv(r) && k < |r.log|
    ensures r.log[k].start <= r.counter.start
  {
    assert PlaceOk(r.counter, r.log, k);
  }

  lemma AdvanceCounts(r: Run, now: int)
    requires Inv(r) && Counted(r) && r.now <= now && now > 0 && (r.counter.start == 0 ==> r.log == [])
    ensures Counted(Run(Advanced(r.counter, now), now, r.log))
  {
    var c, a := r.counter, Advanced(r.counter, now);
    forall k | 0 <= k < |r.log| ensures r.log[k].start <= c.start {
      StartsBefore(r, k);
    }
    if c.start != 0 && now - c.start >= c.window {
      OneWindowPassed(now - c.start, c.window);
      NoneLater(r.log, a.start);
      if now - c.start >= 2 * c.window {
        NoneLater(r.log, a.start - a.window);
      }
    }
  }

  lemma AdmitCounts(r: Run)
    requires Counted(r) && r.counter.window > 0
    ensures var c := r.counter; Counted(Run(c.(current := c.current + 1), r.now, r.log + [Admission(r.now, c.start)]))
  {
    var log := r.log + [Admission(r.now, r.counter.start)];
    assert log[..|log| - 1] == r.log;
  }

  /** The window's covered share is what the ratio leaves. */
  lemma CoveredShare(start: int, window: int, now: int)
    requires window > 0 && start <= now < start + window
    ensures 1.0 - Ratio(start, window, now) == Covered(start, window, now)
  {
    var w, y := window as real, (now - start) as real;
    assert (start + window - now) as real == w - y;
    DivideDifference(y, w);
  }

  lemma DivideDifference(y: real, w: real)
    requires w > 0.0 && 0.0 <= y < w
    ensures (w - y) / w == 1.0 - y / w && y / w < 1.0
  {
    var q := y / w;
    assert q * w == y;
    if q >= 1.0 {
      NonNegativeProduct(q - 1.0, w);
    }
    assert (1.0 - q) * w == w - y;
    QuotientUnique(w - y, w, 1.0 - q);
  }

  lemma QuotientUnique(x: real, w: real, q: real)
    requires w > 0.0 && q * w == x
    ensures x / w == q
  {
    var p := x / w;
    assert p * w == x;
    assert (p - q) * w == 0.0;
  }

  lemma AdvancedStart(r: Run, now: int)
    requires Inv(r) && r.now <= now && now > 0
    ensures Advanced(r.counter, now).start == NextStart(r.counter.window, r.counter.start, now)
  {
    var c := r.counter;
    if c.start != 0 && now - c.start >= c.window {
      OneWindowPassed(now - c.start, c.window);
    }
  }

  /** The counters test what the rule says. */
  lemma TestIsRule(r: Run, now: int)
    requires Counted(r) && r.counter.window > 0 && r.counter.start <= now < r.counter.start + r.counter.window
    ensures var c := r.counter;
            Estimate(c, now) < c.limit as real <==> LetsIn(c.limit, c.window, r.log, c.start, now)
  {
    CoveredShare(r.counter.start, r.counter.window, now);
  }

  /** One call, in a run that has obeyed the rule so far. */
  lemma RuleStep(r: Run, now: int) returns (t: Run)
    requires Inv(r) && Counted(r) && r.now <= now && now > 0 && (r.counter.start == 0 ==> r.log == [])
    ensures var c, start := r.counter, NextStart(r.counter.window, r.counter.start, now);
            && t == Run(Allowed(c, now), now, if Admits(c, now) then r.log + [Admission(now, start)] else r.log)
            && t.counter.start == start == Advanced(c, now).start && start > 0 && Counted(t)
            && (Admits(c, now) <==> LetsIn(c.limit, c.window, r.log, start, now))
  {
    var a := Advanced(r.counter, now);
    AdvanceKeepsInv(r, now);
    AdvanceCounts(r, now);
    AdvancedStart(r, now);
    TestIsRule(Run(a, now, r.log), now);
    AdmitCounts(Run(a, now, r.log));
    t := Run(Allowed(r.counter, now), now, if Admits(r.counter, now) then r.log + [Admission(now, a.start)] else r.log);
  }

  /** Where a run stands with the rule after these calls. */
  ghost predicate Obeys(r: Run, limit: nat, w: int, times: seq<int>)
    requires w > 0
  {
    && r.log == Reference(limit, w, times) && r.counter.start == WindowStart(w, times) && Counted(r)
    && (times == [] ==> r.log == [] && r.counter.start == 0 && r.now == 0)
    && (times != [] ==> r.counter.start > 0 && r.now == times[|times| - 1])
  }

  /** The two counters implement the rule: on every clock, exactly the calls it lets in are admitted. */
  lemma {:induction false} AdmitsByTheRule(limit: nat, window: int, times: seq<int>)
    requires Clock(times)
    ensures Obeys(Play(limit, window, times), limit, if window > 0 then window else 1, times)
    decreases |times|
  {
    if times == [] {
    } else {
      var before, now := times[..|times| - 1], times[|times| - 1];
      AdmitsByTheRule(limit, window, before);
      RunsKeepInv(limit, window, before);
      assert before != [] ==> before[|before| - 1] == times[|times| - 2];
      var t := RuleStep(Play(limit, window, before), now);
      assert t == Play(limit, window, times);
    }
  }
}

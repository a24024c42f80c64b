/** Adaptive batch sizing: adjustBatchSize as a fold over windows of ten outcomes (json-rpc-batch-provider.ts). */
module BatchTuning {
  import opened Js

  const ADJUSTMENT_INTERVAL := 10
  const MAX_ADAPTIVE_SIZE := 10

  datatype Tuner = Tuner(size: int, successes: nat, failures: nat)

  /**
   * `adjustBatchSize`: count the outcome; on every tenth, move the size by the success rate and reset.
   * The rate's bounds 0.9 and 0.95 are written in whole numbers; `RateBounds` relates the two.
   */
  function Adjust(t: Tuner, success: bool): Tuner {
    var successes := if success then t.successes + 1 else t.successes;
    var failures := if success then t.failures else t.failures + 1;
    var total := successes + failures;
    if total % ADJUSTMENT_INTERVAL == 0 then
      if 10 * successes < 9 * total && t.size > 1 then Tuner(t.size - 1, 0, 0)
      else if 100 * successes > 95 * total && t.size < MAX_ADAPTIVE_SIZE then Tuner(t.size + 1, 0, 0)
      else Tuner(t.size, 0, 0)
    else Tuner(t.size, successes, failures)
  }

  lemma RateBounds(successes: nat, total: nat)
    requires total > 0
    ensures successes as real / total as real < 0.9 <==> 10 * successes < 9 * total
    ensures successes as real / total as real > 0.95 <==> 100 * successes > 95 * total
  {
    QuotientBound(successes as real, total as real, 0.9);
    QuotientBound(successes as real, total as real, 0.95);
  }

  lemma QuotientBound(s: real, t: real, bound: real)
    requires t > 0.0
    ensures s / t < bound <==> s < bound * t
    ensures s / t > bound <==> s > bound * t
  {
    var q := s / t;
    assert q * t == s;
    assert q < bound ==> (bound - q) * t > 0.0;
    assert q > bound ==> (q - bound) * t > 0.0;
  }

  function AdjustAll(t: Tuner, outcomes: seq<bool>): Tuner
    decreases |outcomes|
  {
    if outcomes == [] then t else AdjustAll(Adjust(t, outcomes[0]), outcomes[1..])
  }

  function Successes(outcomes: seq<bool>): nat {
    if outcomes == [] then 0 else (if outcomes[0] then 1 else 0) + Successes(outcomes[1..])
  }

  /** The rule of one complete window, in whole numbers. */
  function NextSize(size: int, successes: nat): int {
    if successes <= 8 && size > 1 then size - 1
    else if successes == ADJUSTMENT_INTERVAL && size < MAX_ADAPTIVE_SIZE then size + 1
    else size
  }

  /** The size after the complete windows of ten in a run of outcomes. */
  function SizeAfterWindows(size: int, outcomes: seq<bool>): int
    decreases |outcomes|
  {
    if |outcomes| < ADJUSTMENT_INTERVAL then size
    else SizeAfterWindows(NextSize(size, Successes(outcomes[..ADJUSTMENT_INTERVAL])), outcomes[ADJUSTMENT_INTERVAL..])
  }

  /** The outcomes of the window that is still open. */
  function OpenWindow(outcomes: seq<bool>): seq<bool> {
    if |outcomes| < ADJUSTMENT_INTERVAL then outcomes else OpenWindow(outcomes[ADJUSTMENT_INTERVAL..])
  }

  ghost predicate MidWindow(t: Tuner) {
    t.successes + t.failures < ADJUSTMENT_INTERVAL
  }

  lemma {:induction false} AdjustAllConcat(t: Tuner, a: seq<bool>, b: seq<bool>)
    ensures AdjustAll(t, a + b) == AdjustAll(AdjustAll(t, a), b)
    decreases |a|
  {
    if a == [] {
      assert a + b == b;
    } else {
      assert (a + b)[1..] == a[1..] + b;
      AdjustAllConcat(Adjust(t, a[0]), a[1..], b);
    }
  }

  lemma AdjustOnce(t: Tuner, success: bool)
    ensures AdjustAll(t, [success]) == Adjust(t, success)
  {
    assert [success][1..] == [];
  }

  /** One outcome: counted while the window is open, and the rule applied when it completes the window. */
  lemma AdjustOne(t: Tuner, success: bool)
    requires MidWindow(t)
    ensures var successes, total := t.successes + (if success then 1 else 0), t.successes + t.failures + 1;
            Adjust(t, success) ==
            if total < ADJUSTMENT_INTERVAL then Tuner(t.size, successes, total - successes) else Tuner(NextSize(t.size, successes), 0, 0)
  {
  }

  /** Within a window the counters count; the tenth outcome applies the rule and resets them. */
  lemma {:induction false} WithinWindow(t: Tuner, outcomes: seq<bool>)
    requires MidWindow(t) && t.successes + t.failures + |outcomes| <= ADJUSTMENT_INTERVAL
    ensures Successes(outcomes) <= |outcomes|
    ensures AdjustAll(t, outcomes) ==
            var successes, total := t.successes + Successes(outcomes), t.successes + t.failures + |outcomes|;
            if total < ADJUSTMENT_INTERVAL then Tuner(t.size, successes, total - successes) else Tuner(NextSize(t.size, successes), 0, 0)
    decreases |outcomes|
  {
    if outcomes != [] {
      AdjustOne(t, outcomes[0]);
      if |outcomes| == 1 {
        assert outcomes[1..] == [];
      } else {
        WithinWindow(Adjust(t, outcomes[0]), outcomes[1..]);
      }
    }
  }

  /**
   * From fresh counters the provider's size is the fold over complete windows of ten, and its counters
   * are those of the open window, which is never full.
   */
  lemma {:induction false} SizeIsWindowFold(size: int, outcomes: seq<bool>)
    ensures |OpenWindow(outcomes)| < ADJUSTMENT_INTERVAL
    ensures Successes(OpenWindow(outcomes)) <= |OpenWindow(outcomes)|
    ensures AdjustAll(Tuner(size, 0, 0), outcomes) ==
            Tuner(SizeAfterWindows(size, outcomes), Successes(OpenWindow(outcomes)),
                  |OpenWindow(outcomes)| - Successes(OpenWindow(outcomes)))
    decreases |outcomes|
  {
    if |outcomes| < ADJUSTMENT_INTERVAL {
      WithinWindow(Tuner(size, 0, 0), outcomes);
    } else {
      var window, rest := outcomes[..ADJUSTMENT_INTERVAL], outcomes[ADJUSTMENT_INTERVAL..];
      assert outcomes == window + rest;
      AdjustAllConcat(Tuner(size, 0, 0), window, rest);
      WithinWindow(Tuner(size, 0, 0), window);
      SizeIsWindowFold(NextSize(size, Successes(window)), rest);
    }
  }

  /** The size stays in its range and n outcomes move it by at most one per complete window. */
  lemma {:induction false} SizeMovesSlowly(size: int, outcomes: seq<bool>)
    ensures -(|outcomes| / 10) <= SizeAfterWindows(size, outcomes) - size <= |outcomes| / 10
    ensures 1 <= size <= 10 ==> 1 <= SizeAfterWindows(size, outcomes) <= 10
    ensures SizeAfterWindows(size, outcomes) <= Max(size, 10)
    decreases |outcomes|
  {
    if |outcomes| >= ADJUSTMENT_INTERVAL {
      var window, rest := outcomes[..ADJUSTMENT_INTERVAL], outcomes[ADJUSTMENT_INTERVAL..];
      SizeMovesSlowly(NextSize(size, Successes(window)), rest);
    }
  }

  function Repeat(n: nat, outcome: bool): seq<bool> {
    seq(n, _ => outcome)
  }

  lemma {:induction false} SuccessesOfRepeat(n: nat, outcome: bool)
    ensures Successes(Repeat(n, outcome)) == if outcome then n else 0
  {
    if n > 0 {
      assert Repeat(n, outcome)[1..] == Repeat(n - 1, outcome);
      SuccessesOfRepeat(n - 1, outcome);
    }
  }

  /** Whole windows of one outcome move the size one step each, up to its bound. */
  lemma {:induction false} WindowsOfOneOutcome(size: int, n: nat, outcome: bool)
    requires 1 <= size <= MAX_ADAPTIVE_SIZE
    ensures SizeAfterWindows(size, Repeat(n, outcome)) ==
            if outcome then Min(MAX_ADAPTIVE_SIZE, size + n / ADJUSTMENT_INTERVAL) else Max(1, size - n / ADJUSTMENT_INTERVAL)
    decreases n
  {
    if n >= ADJUSTMENT_INTERVAL {
      assert Repeat(n, outcome)[..ADJUSTMENT_INTERVAL] == Repeat(ADJUSTMENT_INTERVAL, outcome);
      assert Repeat(n, outcome)[ADJUSTMENT_INTERVAL..] == Repeat(n - ADJUSTMENT_INTERVAL, outcome);
      SuccessesOfRepeat(ADJUSTMENT_INTERVAL, outcome);
      WindowsOfOneOutcome(NextSize(size, if outcome then ADJUSTMENT_INTERVAL else 0), n - ADJUSTMENT_INTERVAL, outcome);
    }
  }

  lemma FinishWindow(t: Tuner, outcome: bool, n: nat) returns (size: int)
    requires MidWindow(t) && 1 <= t.size <= MAX_ADAPTIVE_SIZE && t.successes + t.failures + n == ADJUSTMENT_INTERVAL
    ensures 1 <= size <= MAX_ADAPTIVE_SIZE && AdjustAll(t, Repeat(n, outcome)) == Tuner(size, 0, 0)
  {
    WithinWindow(t, Repeat(n, outcome));
    size := NextSize(t.size, t.successes + Successes(Repeat(n, outcome)));
  }

  /** From fresh counters, ninety or more consecutive equal outcomes reach the bound. */
  lemma NinetyOutcomesConverge(size: int, n: nat, outcome: bool)
    requires 1 <= size <= MAX_ADAPTIVE_SIZE && 90 <= n
    ensures AdjustAll(Tuner(size, 0, 0), Repeat(n, outcome)).size == if outcome then MAX_ADAPTIVE_SIZE else 1
  {
    SizeIsWindowFold(size, Repeat(n, outcome));
    WindowsOfOneOutcome(size, n, outcome);
  }

  /**
   * From any reachable state in range, wherever its open window stands, a hundred consecutive
   * successes reach the largest size and a hundred consecutive failures reach the smallest.
   */
  lemma HundredOutcomesConverge(t: Tuner, outcome: bool)
    requires MidWindow(t) && 1 <= t.size <= 10
    ensures AdjustAll(t, Repeat(100, outcome)).size == if outcome then 10 else 1
  {
    var toWindowEnd := ADJUSTMENT_INTERVAL - t.successes - t.failures;
    var first, rest := Repeat(toWindowEnd, outcome), Repeat(100 - toWindowEnd, outcome);
    assert Repeat(100, outcome) == first + rest;
    AdjustAllConcat(t, first, rest);
    var size := FinishWindow(t, outcome, toWindowEnd);
    NinetyOutcomesConverge(size, 100 - toWindowEnd, outcome);
  }
}

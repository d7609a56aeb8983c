/** Exponential backoff in 64-bit arithmetic, and the gate that keeps a failing target from being scanned. */
module Backoff {
  import opened Prelude

  const LIMIT: int := 0x8000_0000_0000_0000

  /** Signed 64-bit wrap-around. */
  function Wrap(x: int): int {
    (x + LIMIT) % (2 * LIMIT) - LIMIT
  }

  function Doubled(base: int, k: nat): int {
    if k == 0 then base else 2 * Doubled(base, k - 1)
  }

  /** The delay the n-th consecutive failure should get. */
  function Ideal(base: int, max: int, n: nat): int
    requires n >= 1
  {
    if Doubled(base, n - 1) < max then Doubled(base, n - 1) else max
  }

  /** What the loop computes from d with so many doublings still to do. */
  function Loop(d: int, max: int, steps: nat): int
    decreases steps
  {
    if steps == 0 then (if d > max then max else d)
    else
      var d' := Wrap(2 * d);
      if d' >= max then max else Loop(d', max, steps - 1)
  }

  function BackoffFor(base: int, max: int, n: int): int {
    Loop(base, max, if n < 1 then 0 else n - 1)
  }

  /** k doublings reach the cap without wrapping. */
  predicate CapAt(base: int, max: int, k: nat) {
    k >= 1 && max <= Doubled(base, k) < LIMIT
  }

  /** Before any doubling count that reaches the cap, d is the true power. */
  ghost predicate ShortOfCap(base: int, max: int, i: nat, d: int) {
    i >= 1 && forall k: nat :: CapAt(base, max, k) ==> i <= k && d == Doubled(base, i - 1)
  }

  lemma OneDoubling(base: int, max: int, i: nat, d: int)
    requires 0 < base && ShortOfCap(base, max, i, d)
    ensures Wrap(2 * d) < max ==> ShortOfCap(base, max, i + 1, Wrap(2 * d))
  {
    forall k: nat | CapAt(base, max, k)
      ensures Wrap(2 * d) < max ==> i + 1 <= k && Wrap(2 * d) == Doubled(base, i)
    {
      DoubledGrows(base, i, k);
      assert Wrap(Doubled(base, i)) == Doubled(base, i);
    }
  }

  method ComputeBackoff(base: int, max: int, consecutive: int) returns (d: int, ghost doublings: nat)
    requires 0 < base < LIMIT && 0 < max < LIMIT
    ensures d == BackoffFor(base, max, consecutive)
    ensures forall k: nat :: CapAt(base, max, k) ==> doublings <= k
  {
    d := base;
    doublings := 0;
    ghost var steps: nat := if consecutive < 1 then 0 else consecutive - 1;
    var i := 1;
    while i < consecutive
      invariant 1 <= i <= steps + 1 && doublings == i - 1
      invariant Loop(base, max, steps) == Loop(d, max, steps - doublings)
      invariant ShortOfCap(base, max, i, d)
    {
      OneDoubling(base, max, i, d);
      d := Wrap(2 * d);
      doublings := doublings + 1;
      if d >= max {
        d := max;
        return;
      }
      i := i + 1;
    }
    if d > max {
      d := max;
    }
  }

  lemma {:induction false} DoubledGrows(base: int, j: nat, k: nat)
    requires base > 0 && j <= k
    ensures Doubled(base, j) <= Doubled(base, k) && base <= Doubled(base, j)
    decreases k, j
  {
    if j < k {
      DoubledGrows(base, j, k - 1);
    } else if j > 0 {
      DoubledGrows(base, j - 1, k - 1);
    }
  }

  /** Some doubling reaches the cap before the arithmetic wraps. */
  ghost predicate ReachesCap(base: int, max: int) {
    exists k: nat :: CapAt(base, max, k)
  }

  lemma {:induction false} LoopIsIdeal(base: int, max: int, done: nat, steps: nat, k: nat)
    requires 0 < base && 0 < max && k >= 1 && max <= Doubled(base, k) < LIMIT
    requires done > 0 ==> Doubled(base, done) < max
    ensures Loop(Doubled(base, done), max, steps) == Ideal(base, max, done + steps + 1)
    decreases steps
  {
    if steps > 0 {
      if done >= k {
        DoubledGrows(base, k, done);
      }
      DoubledGrows(base, done + 1, k);
      if Doubled(base, done + 1) >= max {
        DoubledGrows(base, done + 1, done + steps);
      } else {
        LoopIsIdeal(base, max, done + 1, steps - 1, k);
      }
    }
  }

  /** The last power that still fits; every later doubling wraps. */
  lemma {:induction false} LastFitting(base: int, from: nat) returns (j: nat)
    requires 0 < base && Doubled(base, from) < LIMIT
    ensures from <= j && Doubled(base, j) < LIMIT <= Doubled(base, j + 1)
    decreases LIMIT - Doubled(base, from)
  {
    j := from;
    DoubledGrows(base, from, from);
    if Doubled(base, from + 1) < LIMIT {
      j := LastFitting(base, from + 1);
    }
  }

  lemma OneMoreDoubling(base: int, max: int, done: nat, steps: nat)
    requires 0 < base && Doubled(base, done) < LIMIT / 2 && Doubled(base, done + 1) < max
    ensures Loop(Doubled(base, done), max, steps + 1) == Loop(Doubled(base, done + 1), max, steps)
  {
    DoubledGrows(base, 0, done + 1);
    assert Wrap(2 * Doubled(base, done)) == Doubled(base, done + 1);
  }

  lemma {:induction false} LoopBeforeCap(base: int, max: int, done: nat, j: nat)
    requires 0 < base && done <= j && Doubled(base, j) < LIMIT
    requires j >= 1 ==> Doubled(base, j) < max
    ensures Loop(Doubled(base, done), max, j - done + 1) == Loop(Doubled(base, j), max, 1)
    decreases j - done
  {
    if done < j {
      DoubledGrows(base, done + 1, j);
      OneMoreDoubling(base, max, done, j - done);
      LoopBeforeCap(base, max, done + 1, j);
    }
  }

  /** The computed backoff is the ideal one for every failure count, if and only if some doubling reaches the
      cap before the arithmetic wraps. */
  lemma BackoffIsIdeal(base: int, max: int)
    requires 0 < base < LIMIT && 0 < max < LIMIT
    ensures (forall n: nat :: n >= 1 ==> BackoffFor(base, max, n) == Ideal(base, max, n)) <==> ReachesCap(base, max)
  {
    if ReachesCap(base, max) {
      var k: nat :| CapAt(base, max, k);
      forall n: nat | n >= 1 ensures BackoffFor(base, max, n) == Ideal(base, max, n) {
        LoopIsIdeal(base, max, 0, n - 1, k);
      }
    } else {
      var j := LastFitting(base, 0);
      assert !CapAt(base, max, j);
      LoopBeforeCap(base, max, 0, j);
      DoubledGrows(base, 0, j + 1);
      assert Wrap(Doubled(base, j + 1)) < 0;
      assert BackoffFor(base, max, j + 2) < 0 < Ideal(base, max, j + 2);
    }
  }

  /** A base and cap of 2^62: the first doubling wraps, and the second failure gets a negative delay. */
  lemma LargeParametersWrap(base: int)
    requires base == 0x4000_0000_0000_0000
    ensures !ReachesCap(base, base)
    ensures BackoffFor(base, base, 2) < 0 < Ideal(base, base, 2)
  {
    assert Wrap(2 * base) == -LIMIT;
    assert Doubled(base, 1) == 2 * Doubled(base, 0);
    assert Loop(base, base, 1) == Loop(-LIMIT, base, 0);
    forall k: nat ensures !CapAt(base, base, k) {
      if k >= 1 {
        DoubledGrows(base, 1, k);
      }
    }
  }

  /** Parameters below 2^62, which every sane configuration meets, are enough. */
  lemma SmallParametersReachCap(base: int, max: int)
    requires 0 < base < 0x4000_0000_0000_0000 && 0 < max < 0x4000_0000_0000_0000
    ensures ReachesCap(base, max)
  {
    var k := FirstReaching(base, max, 1);
    assert CapAt(base, max, k);
  }

  lemma {:induction false} FirstReaching(base: int, max: int, from: nat) returns (k: nat)
    requires 0 < base < LIMIT / 2 && 0 < max < LIMIT / 2 && from >= 1
    requires Doubled(base, from - 1) < LIMIT / 2
    ensures k >= 1 && max <= Doubled(base, k) < LIMIT
    decreases LIMIT - Doubled(base, from)
  {
    k := from;
    DoubledGrows(base, from, from);
    if Doubled(base, from) < max {
      k := FirstReaching(base, max, from + 1);
    }
  }

  /** Delays never shrink with more failures. */
  lemma IdealMonotone(base: int, max: int, m: nat, n: nat)
    requires 0 < base && 0 < max && 1 <= m <= n
    ensures 0 < Ideal(base, max, m) <= Ideal(base, max, n) <= max
  {
    DoubledGrows(base, m - 1, n - 1);
    DoubledGrows(base, 0, m - 1);
  }

  // ----- the gate in front of one target -----

  datatype Outcome = Succeeded | Failed | Cancelled

  /** What happens to one target: a sweep comes by, or the scan it started ends. */
  datatype Event = SweepAt(time: int) | EndsAt(time: int, outcome: Outcome)

  datatype Gate = Gate(failures: nat, nextOk: Option<int>)

  const IDLE := Gate(0, None)

  /** A sweep starts a scan unless the target is still backing off. */
  predicate Starts(g: Gate, now: int) {
    g.nextOk.None? || now >= g.nextOk.value
  }

  /** A cancelled scan clears the count just as a successful one does. */
  function After(g: Gate, e: Event, base: int, max: int): Gate {
    match e
    case SweepAt(_) => g
    case EndsAt(t, Failed) => Gate(g.failures + 1, Some(t + BackoffFor(base, max, g.failures + 1)))
    case EndsAt(_, _) => Gate(0, None)
  }

  function GateAfter(events: seq<Event>, base: int, max: int): Gate {
    if events == [] then IDLE
    else After(GateAfter(events[..|events| - 1], base, max), events[|events| - 1], base, max)
  }

  /** How many failures in a row the scans that have ended so far finish with. */
  function ConsecutiveFailures(events: seq<Event>): nat {
    if events == [] then 0
    else
      var p, e := events[..|events| - 1], events[|events| - 1];
      match e
      case SweepAt(_) => ConsecutiveFailures(p)
      case EndsAt(_, Failed) => ConsecutiveFailures(p) + 1
      case EndsAt(_, _) => 0
  }

  /** When the last scan ended, if it did. */
  function LastEnd(events: seq<Event>): Option<int> {
    if events == [] then None
    else
      match events[|events| - 1]
      case SweepAt(_) => LastEnd(events[..|events| - 1])
      case EndsAt(t, _) => Some(t)
  }

  lemma {:induction false} GateTracksFailures(events: seq<Event>, base: int, max: int)
    ensures var g, n := GateAfter(events, base, max), ConsecutiveFailures(events);
      && g.failures == n
      && (n == 0 ==> g.nextOk.None?)
      && (n > 0 ==> LastEnd(events).Some? && g.nextOk == Some(LastEnd(events).value + BackoffFor(base, max, n)))
  {
    if events != [] {
      GateTracksFailures(events[..|events| - 1], base, max);
    }
  }

  /** When scans of the target do not overlap, a sweep scans it again no sooner than the n-th backoff delay
      after its n-th consecutive failure. */
  lemma SweepRespectsBackoff(events: seq<Event>, base: int, max: int, now: int)
    requires 0 < base < LIMIT && 0 < max < LIMIT && ReachesCap(base, max)
    requires ConsecutiveFailures(events) > 0
    ensures LastEnd(events).Some?
    ensures Starts(GateAfter(events, base, max), now) <==>
            now >= LastEnd(events).value + Ideal(base, max, ConsecutiveFailures(events))
  {
    GateTracksFailures(events, base, max);
    BackoffIsIdeal(base, max);
  }
}

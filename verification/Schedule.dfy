/**
 The pacing arithmetic of the cycle loop: how long a cycle waits, and which cumulated time slice it sends.

 Stamps and slices are in microseconds. The last waiting time, which can be negative, is kept in an
 unsigned field of 64 bits.
 */
module Schedule {
  import opened TimeStamps

  datatype Pace = Pace(lastCycle: int, lastWaitTime: int, cumulatedTimeSlice: int)

  /** What the last cycle took beyond its waiting time. */
  function Consumption(p: Pace, current: int): int {
    ToInt64(ToUint64(ToUint64(current - p.lastCycle) - p.lastWaitTime))
  }

  /** More than a second is not made up for. */
  function Waiting(p: Pace, current: int, nominal: int): int {
    if Consumption(p, current) > ONE_SECOND then 0 else nominal - Consumption(p, current)
  }

  function Next(p: Pace, current: int, nominal: nat): Pace {
    Pace(current, ToUint64(Waiting(p, current, nominal)), (p.cumulatedTimeSlice + nominal) % ONE_SECOND)
  }

  function Start(start: int): Pace {
    Pace(start, 0, 0)
  }

  /** The pace after cycles that start at these stamps. */
  function After(p: Pace, stamps: seq<int>, nominal: nat): Pace
    decreases |stamps|
  {
    if stamps == [] then p
    else Next(After(p, stamps[..|stamps| - 1], nominal), stamps[|stamps| - 1], nominal)
  }

  /** How long cycle `k` waits. */
  function WaitingAt(start: int, stamps: seq<int>, nominal: nat, k: nat): int
    requires k < |stamps|
  {
    Waiting(After(Start(start), stamps[..k], nominal), stamps[k], nominal)
  }

  /** The ideal point in time at which the cycle after these stamps is due: one slice after the previous
      one, until a cycle starts more than a second late. Then the grid starts anew at that cycle. */
  function Grid(start: int, stamps: seq<int>, nominal: nat): int
    decreases |stamps|
  {
    if stamps == [] then start
    else
      var due := Grid(start, stamps[..|stamps| - 1], nominal);
      var current := stamps[|stamps| - 1];
      if current - due > ONE_SECOND then current else due + nominal
  }

  /** How late cycle `k` starts. */
  function Lag(start: int, stamps: seq<int>, nominal: nat, k: nat): int
    requires k < |stamps|
  {
    stamps[k] - Grid(start, stamps[..k], nominal)
  }

  /** Stamps of 32-bit seconds, and fewer cycles than would take 2^60 microseconds. */
  predicate InRange(start: int, stamps: seq<int>, nominal: nat) {
    && -0x10_0000_0000_0000 < start < 0x10_0000_0000_0000
    && (forall k :: 0 <= k < |stamps| ==> -0x10_0000_0000_0000 < stamps[k] < 0x10_0000_0000_0000)
    && |stamps| * nominal < 0x1000_0000_0000_0000
  }

  lemma {:induction false} GridInRange(start: int, stamps: seq<int>, nominal: nat)
    requires InRange(start, stamps, nominal)
    ensures -0x10_0000_0000_0000 < Grid(start, stamps, nominal) < 0x10_0000_0000_0000 + |stamps| * nominal
    decreases |stamps|
  {
    if stamps != [] {
      var front := stamps[..|stamps| - 1];
      assert |stamps| * nominal == |front| * nominal + nominal;
      GridInRange(start, front, nominal);
    }
  }

  /** The unsigned field holds what is left to the next grid point, modulo 2^64. */
  lemma {:induction false} PaceFollowsGrid(start: int, stamps: seq<int>, nominal: nat)
    requires InRange(start, stamps, nominal)
    ensures var p := After(Start(start), stamps, nominal);
            && p.lastCycle == (if stamps == [] then start else stamps[|stamps| - 1])
            && p.lastWaitTime == ToUint64(Grid(start, stamps, nominal) - p.lastCycle)
    decreases |stamps|
  {
    if stamps != [] {
      var n := |stamps| - 1;
      var front := stamps[..n];
      assert |stamps| * nominal == n * nominal + nominal;
      PaceFollowsGrid(start, front, nominal);
      ConsumptionIsLag(start, front, nominal, stamps[n]);
    }
  }

  lemma ConsumptionIsLag(start: int, front: seq<int>, nominal: nat, current: int)
    requires InRange(start, front, nominal) && -0x10_0000_0000_0000 < current < 0x10_0000_0000_0000
    requires var p := After(Start(start), front, nominal);
             p.lastWaitTime == ToUint64(Grid(start, front, nominal) - p.lastCycle)
    ensures Consumption(After(Start(start), front, nominal), current) == current - Grid(start, front, nominal)
  {
    var p, due := After(Start(start), front, nominal), Grid(start, front, nominal);
    GridInRange(start, front, nominal);
    Uint64Difference(current - p.lastCycle, due - p.lastCycle);
  }

  /** In every cycle the start plus the waiting time is the next point of the grid, and the consumption is
      how late the cycle started. */
  lemma OnTheGrid(start: int, stamps: seq<int>, nominal: nat, k: nat)
    requires InRange(start, stamps, nominal) && k < |stamps|
    ensures stamps[k] + WaitingAt(start, stamps, nominal, k) == Grid(start, stamps[..k + 1], nominal)
    ensures Consumption(After(Start(start), stamps[..k], nominal), stamps[k]) == Lag(start, stamps, nominal, k)
  {
    var front := stamps[..k];
    assert |stamps| * nominal == k * nominal + (|stamps| - k) * nominal;
    assert (|stamps| - k) * nominal >= 0;
    assert InRange(start, front, nominal);
    PaceFollowsGrid(start, front, nominal);
    ConsumptionIsLag(start, front, nominal, stamps[k]);
    assert stamps[..k + 1][..k] == front;
  }

  /** The grid advances by one slice each cycle while no cycle starts more than a second late. */
  lemma {:induction false} GridIsEven(start: int, stamps: seq<int>, nominal: nat, a: nat, k: nat)
    requires a <= k <= |stamps|
    requires forall j :: a <= j < k ==> Lag(start, stamps, nominal, j) <= ONE_SECOND
    ensures Grid(start, stamps[..k], nominal) == Grid(start, stamps[..a], nominal) + (k - a) * nominal
    decreases k
  {
    if a < k {
      GridIsEven(start, stamps, nominal, a, k - 1);
      assert stamps[..k][..k - 1] == stamps[..k - 1];
      assert Lag(start, stamps, nominal, k - 1) <= ONE_SECOND;
      assert (k - a) * nominal == (k - 1 - a) * nominal + nominal;
    }
  }

  /** The pacing does not drift: from any cycle `a` on, however early or late the cycles start, cycle `k`
      ends its wait exactly k + 1 - a slices after the point due at `a`, until one starts more than a second
      late. */
  lemma PacingDoesNotDrift(start: int, stamps: seq<int>, nominal: nat, a: nat, k: nat)
    requires InRange(start, stamps, nominal) && a <= k < |stamps|
    requires forall j :: a <= j <= k ==> Lag(start, stamps, nominal, j) <= ONE_SECOND
    ensures stamps[k] + WaitingAt(start, stamps, nominal, k) ==
            Grid(start, stamps[..a], nominal) + (k + 1 - a) * nominal
    ensures a == 0 ==> stamps[k] + WaitingAt(start, stamps, nominal, k) == start + (k + 1) * nominal
  {
    OnTheGrid(start, stamps, nominal, k);
    GridIsEven(start, stamps, nominal, a, k + 1);
    assert stamps[..0] == [];
  }

  /** A cycle that starts more than a second late does not wait, and the grid goes on from it. */
  lemma LateCycleStartsAnew(start: int, stamps: seq<int>, nominal: nat, k: nat)
    requires InRange(start, stamps, nominal) && k < |stamps|
    ensures Lag(start, stamps, nominal, k) > ONE_SECOND ==>
              WaitingAt(start, stamps, nominal, k) == 0 && Grid(start, stamps[..k + 1], nominal) == stamps[k]
    ensures Lag(start, stamps, nominal, k) <= ONE_SECOND ==>
              WaitingAt(start, stamps, nominal, k) == nominal - Lag(start, stamps, nominal, k)
  {
    OnTheGrid(start, stamps, nominal, k);
    assert stamps[..k + 1][..k] == stamps[..k];
  }

  /** As long as no cycle starts more than a second after its time, cycle k is due k slices after the start. */
  lemma {:induction false} GridOfPunctualCycles(start: int, stamps: seq<int>, nominal: nat)
    requires forall j :: 0 <= j < |stamps| ==> stamps[j] <= start + j * nominal + 1_000_000
    ensures Grid(start, stamps, nominal) == start + |stamps| * nominal
    decreases |stamps|
  {
    if stamps == [] {
      assert 0 * nominal == 0;
    } else {
      var n := |stamps| - 1;
      GridOfPunctualCycles(start, stamps[..n], nominal);
      assert |stamps| * nominal == n * nominal + nominal;
    }
  }

  // ---------------------------------------------------------------- exact sleeps

  function Max(a: int, b: int): int { if a < b then b else a }

  /** A sleep takes exactly as long as it should, and a negative one no time at all. */
  predicate ExactSleep(start: int, stamps: seq<int>, nominal: nat, work: seq<nat>) {
    |work| == |stamps| &&
    forall k :: 0 < k < |stamps| ==>
      stamps[k] == stamps[k - 1] + work[k - 1] + Max(0, WaitingAt(start, stamps, nominal, k - 1))
  }

  /** How the lag develops: a cycle starts late by the work of the previous one, plus what that one was
      late beyond its slice, unless it gave up its lag. */
  lemma LagOfNextCycle(start: int, stamps: seq<int>, nominal: nat, work: seq<nat>, k: nat)
    requires InRange(start, stamps, nominal) && k + 1 < |stamps| && ExactSleep(start, stamps, nominal, work)
    ensures var lag := Lag(start, stamps, nominal, k);
            Lag(start, stamps, nominal, k + 1) == work[k] + if lag > ONE_SECOND then 0 else Max(0, lag - nominal)
  {
    LateCycleStartsAnew(start, stamps, nominal, k);
    OnTheGrid(start, stamps, nominal, k);
    assert stamps[k + 1] == stamps[k] + work[k] + Max(0, WaitingAt(start, stamps, nominal, k));
  }

  /** Each cycle starts late by exactly the work of the previous cycle, no matter how much work there was
      before, as long as each cycle's work fits into its slice. */
  lemma {:induction false} LagIsWork(start: int, stamps: seq<int>, nominal: nat, work: seq<nat>, k: nat)
    requires InRange(start, stamps, nominal) && k + 1 < |stamps| && ExactSleep(start, stamps, nominal, work)
    requires Lag(start, stamps, nominal, 0) <= nominal && forall j :: 0 <= j < k ==> work[j] <= nominal
    ensures Lag(start, stamps, nominal, k + 1) == work[k]
    decreases k
  {
    LagOfNextCycle(start, stamps, nominal, work, k);
    if k > 0 { LagIsWork(start, stamps, nominal, work, k - 1); }
  }

  // ---------------------------------------------------------------- the cumulated slice

  /** The slice that cycle `k` sends, counted from 0. */
  function Slice(nominal: nat, k: nat): nat {
    (k * nominal) % ONE_SECOND
  }

  lemma MultipleIsFar(x: int, n: int)
    requires n > 0
    ensures x >= 1 ==> x * n >= n
    ensures x <= -1 ==> x * n <= -n
  { }

  /** Quotient and remainder are determined. */
  lemma DividesUniquely(a: int, n: int, q: int, r: int)
    requires n > 0 && a == q * n + r && 0 <= r < n
    ensures a / n == q && a % n == r
  {
    var d := a / n;
    assert a == d * n + a % n;
    assert (q - d) * n == q * n - d * n == a % n - r;
    MultipleIsFar(q - d, n);
  }

  lemma SameMultiple(a: int, b: int, n: int)
    requires n > 0 && a * n == b * n
    ensures a == b
  { }

  lemma DividedBySecond(a: int)
    ensures a == (a / ONE_SECOND) * ONE_SECOND + a % ONE_SECOND && 0 <= a % ONE_SECOND < ONE_SECOND
  { }

  lemma {:induction false} CumulatedIsSlice(start: int, stamps: seq<int>, nominal: nat)
    ensures After(Start(start), stamps, nominal).cumulatedTimeSlice == Slice(nominal, |stamps|)
    decreases |stamps|
  {
    if stamps == [] {
      assert 0 * nominal == 0;
    } else {
      var k := |stamps| - 1;
      CumulatedIsSlice(start, stamps[..k], nominal);
      NextSlice(nominal, k);
    }
  }

  lemma NextSlice(nominal: nat, k: nat)
    ensures (Slice(nominal, k) + nominal) % ONE_SECOND == Slice(nominal, k + 1)
  {
    AddBeforeRemainder(k * nominal, nominal);
    assert (k + 1) * nominal == k * nominal + nominal;
  }

  lemma AddBeforeRemainder(a: nat, b: nat)
    ensures (a % ONE_SECOND + b) % ONE_SECOND == (a + b) % ONE_SECOND
  { }

  /** Every slice sent is a multiple of the nominal one exactly if the nominal one divides a second, or is a
      whole number of seconds. */
  lemma SliceIsMultipleIff(nominal: nat)
    requires nominal > 0
    ensures (forall k: nat :: Slice(nominal, k) % nominal == 0) <==>
            ONE_SECOND % nominal == 0 || nominal % ONE_SECOND == 0
  {
    if ONE_SECOND % nominal == 0 {
      forall k: nat ensures Slice(nominal, k) % nominal == 0 { DividesSecond(nominal, k); }
    }
    if nominal % ONE_SECOND == 0 {
      forall k: nat ensures Slice(nominal, k) % nominal == 0 { WholeSeconds(nominal, k); }
    }
    if forall k: nat :: Slice(nominal, k) % nominal == 0 {
      OverTheSecond(nominal, ONE_SECOND / nominal + 1);
    }
  }

  lemma WholeSeconds(nominal: nat, k: nat)
    requires nominal > 0 && nominal % ONE_SECOND == 0
    ensures Slice(nominal, k) % nominal == 0
  {
    var s := nominal / ONE_SECOND;
    assert k * nominal == k * (s * ONE_SECOND) == (k * s) * ONE_SECOND;
    DividesUniquely(k * nominal, ONE_SECOND, k * s, 0);
    DividesUniquely(0, nominal, 0, 0);
  }

  lemma DividesSecond(nominal: nat, k: nat)
    requires nominal > 0 && ONE_SECOND % nominal == 0
    ensures Slice(nominal, k) % nominal == 0
  {
    var p, q := ONE_SECOND / nominal, (k * nominal) / ONE_SECOND;
    DividedBySecond(k * nominal);
    assert ONE_SECOND == p * nominal;
    assert q * ONE_SECOND == q * (p * nominal) == (q * p) * nominal;
    assert k * nominal - (q * p) * nominal == (k - q * p) * nominal;
    DividesUniquely(Slice(nominal, k), nominal, k - q * p, 0);
  }

  /** The first slice beyond a second tells whether the nominal one fits. */
  lemma OverTheSecond(nominal: nat, k: nat)
    requires nominal > 0 && k == ONE_SECOND / nominal + 1
    requires Slice(nominal, k) % nominal == 0
    ensures ONE_SECOND % nominal == 0 || nominal % ONE_SECOND == 0
  {
    if nominal <= ONE_SECOND {
      var p, r := ONE_SECOND / nominal, ONE_SECOND % nominal;
      var over := nominal - r;
      assert ONE_SECOND == p * nominal + r;
      assert k * nominal == (p + 1) * nominal == p * nominal + nominal == ONE_SECOND + over;
      if 0 < r {
        DividesUniquely(k * nominal, ONE_SECOND, 1, over);
        DividesUniquely(over, nominal, 0, over);
      }
    } else {
      DividesUniquely(ONE_SECOND, nominal, 0, ONE_SECOND);
      var s := nominal % ONE_SECOND;
      assert k * nominal == nominal;
      DividesUniquely(s, nominal, 0, s);
    }
  }

  /** If the nominal slice divides a second, cycles send the same slice exactly if they are a whole number
      of seconds apart: the period is one second over the slice, and no less. */
  lemma SlicePeriod(nominal: nat, i: nat, j: nat)
    requires nominal > 0 && ONE_SECOND % nominal == 0
    ensures Slice(nominal, i) == Slice(nominal, j) <==> (i - j) % (ONE_SECOND / nominal) == 0
  {
    var p := ONE_SECOND / nominal;
    assert ONE_SECOND == p * nominal;
    MultipleIsFar(p, nominal);
    if Slice(nominal, i) == Slice(nominal, j) { SameSlice(nominal, p, i, j); }
    if (i - j) % p == 0 { SlicesApart(nominal, p, i, j); }
  }

  lemma SameSlice(nominal: nat, p: nat, i: nat, j: nat)
    requires nominal > 0 && ONE_SECOND == p * nominal && p > 0
    requires Slice(nominal, i) == Slice(nominal, j)
    ensures (i - j) % p == 0
  {
    DividedBySecond(i * nominal);
    DividedBySecond(j * nominal);
    var q := (i * nominal) / ONE_SECOND - (j * nominal) / ONE_SECOND;
    assert (i - j) * nominal == i * nominal - j * nominal == q * ONE_SECOND == q * (p * nominal) == (q * p) * nominal;
    SameMultiple(i - j, q * p, nominal);
    DividesUniquely(i - j, p, q, 0);
  }

  lemma SlicesApart(nominal: nat, p: nat, i: nat, j: nat)
    requires nominal > 0 && ONE_SECOND == p * nominal && p > 0 && (i - j) % p == 0
    ensures Slice(nominal, i) == Slice(nominal, j)
  {
    var q := (i - j) / p;
    assert i - j == q * p;
    assert i * nominal - j * nominal == (i - j) * nominal == (q * p) * nominal == q * (p * nominal) == q * ONE_SECOND;
    DividedBySecond(j * nominal);
    var d := (j * nominal) / ONE_SECOND;
    DividesUniquely(i * nominal, ONE_SECOND, d + q, Slice(nominal, j));
  }
}

/**
 Fixed-width integers and time stamps of seconds and microseconds.
 */
module TimeStamps {

  const TWO_31 := 0x8000_0000
  const TWO_32 := 0x1_0000_0000
  const TWO_63 := 0x8000_0000_0000_0000
  const TWO_64 := 0x1_0000_0000_0000_0000
  const ONE_SECOND := 1_000_000

  function ToUint32(x: int): int { x % TWO_32 }

  function ToUint64(x: int): int { x % TWO_64 }

  /** Two's complement. */
  function ToInt32(x: int): int {
    var u := x % TWO_32;
    if u < TWO_31 then u else u - TWO_32
  }

  function ToInt64(x: int): int {
    var u := x % TWO_64;
    if u < TWO_63 then u else u - TWO_64
  }

  lemma Int32IsExactIff(x: int)
    ensures ToInt32(x) == x <==> -TWO_31 <= x < TWO_31
  { }

  /** The conversions keep a number modulo 2^32 or 2^64, and bring it into the range of the type. */
  lemma WidthsOfIntegers(x: int)
    ensures 0 <= ToUint32(x) < 0x1_0000_0000 && (x - ToUint32(x)) % 0x1_0000_0000 == 0
    ensures -0x8000_0000 <= ToInt32(x) < 0x8000_0000 && (x - ToInt32(x)) % 0x1_0000_0000 == 0
    ensures 0 <= ToUint64(x) < 0x1_0000_0000_0000_0000 && (x - ToUint64(x)) % 0x1_0000_0000_0000_0000 == 0
    ensures -0x8000_0000_0000_0000 <= ToInt64(x) < 0x8000_0000_0000_0000
    ensures (x - ToInt64(x)) % 0x1_0000_0000_0000_0000 == 0
  { }

  /** Storing a number in a 64-bit field and subtracting it again is harmless modulo 2^64. */
  lemma Uint64Difference(a: int, b: int)
    requires -TWO_63 <= a - b < TWO_63
    ensures ToInt64(ToUint64(ToUint64(a) - ToUint64(b))) == a - b
  { }

  datatype TimeStamp = TimeStamp(seconds: int, microseconds: int) {
    function ToMicroseconds(): int {
      seconds * ONE_SECOND + microseconds
    }

    /** What operator+ returns: the sum is reduced while it is above a million. */
    function Plus(t: TimeStamp): TimeStamp {
      Reduced(ToInt32(seconds + t.seconds), ToInt32(microseconds + t.microseconds))
    }
  }

  /** Whole seconds are carried until at most a million microseconds are left: a full second stays. */
  function Reduced(seconds: int, microseconds: int): TimeStamp {
    if microseconds <= ONE_SECOND then TimeStamp(seconds, microseconds)
    else
      var carried := (microseconds - 1) / ONE_SECOND;
      TimeStamp(ToInt32(seconds + carried), microseconds - carried * ONE_SECOND)
  }

  /** The loop of operator+. */
  method Add(s: TimeStamp, t: TimeStamp) returns (sum: TimeStamp)
    ensures sum == s.Plus(t)
  {
    var sumSeconds := ToInt32(s.seconds + t.seconds);
    var sumMicroseconds := ToInt32(s.microseconds + t.microseconds);
    ghost var seconds, microseconds := sumSeconds, sumMicroseconds;
    ghost var carried := 0;
    while sumMicroseconds > ONE_SECOND
      invariant 0 <= carried
      invariant sumMicroseconds == microseconds - carried * ONE_SECOND
      invariant sumSeconds == ToInt32(seconds + carried)
      invariant carried == 0 || sumMicroseconds > 0
    {
      CarryOne(seconds, carried);
      sumSeconds := ToInt32(sumSeconds + 1);
      sumMicroseconds := sumMicroseconds - ONE_SECOND;
      carried := carried + 1;
    }
    CarriedIs(microseconds, carried, sumMicroseconds);
    return TimeStamp(sumSeconds, sumMicroseconds);
  }

  lemma CarryOne(seconds: int, carried: int)
    ensures ToInt32(ToInt32(seconds + carried) + 1) == ToInt32(seconds + carried + 1)
  { }

  lemma CarriedIs(microseconds: int, carried: nat, left: int)
    requires left == microseconds - carried * ONE_SECOND && left <= ONE_SECOND && (carried == 0 || left > 0)
    ensures microseconds > ONE_SECOND ==> carried == (microseconds - 1) / ONE_SECOND
    ensures microseconds <= ONE_SECOND ==> carried == 0
  { }

  /** A stamp as the clock gives it. */
  predicate FromClock(t: TimeStamp) {
    0 <= t.seconds < TWO_31 - 3000 && 0 <= t.microseconds < ONE_SECOND
  }

  lemma ReducedIs(seconds: int, total: int)
    requires 0 <= seconds < TWO_31 - 3000 && 0 <= total < TWO_31
    ensures Reduced(seconds, total).ToMicroseconds() == seconds * ONE_SECOND + total
    ensures 0 <= Reduced(seconds, total).microseconds <= ONE_SECOND
    ensures Reduced(seconds, total).microseconds == ONE_SECOND <==> total > 0 && total % ONE_SECOND == 0
  { }

  /** Adding microseconds to a stamp is exact as long as the microseconds of both fit in 32 bits together.
      The sum is a stamp as the clock would give it, unless it falls on a full second. */
  lemma PlusMicroseconds(t: TimeStamp, us: int)
    requires FromClock(t) && 0 <= us && t.microseconds + us < TWO_31
    ensures var sum := t.Plus(TimeStamp(0, us));
            && sum.ToMicroseconds() == t.ToMicroseconds() + us
            && 0 <= sum.microseconds <= ONE_SECOND
            && (sum.microseconds == ONE_SECOND <==> us > 0 && (t.microseconds + us) % ONE_SECOND == 0)
  {
    Int32IsExactIff(t.seconds);
    Int32IsExactIff(t.microseconds + us);
    assert t.Plus(TimeStamp(0, us)) == Reduced(t.seconds, t.microseconds + us);
    ReducedIs(t.seconds, t.microseconds + us);
  }
}

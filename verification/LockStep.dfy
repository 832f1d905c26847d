/**
 A sender and a receiver that are pulsed one after the other, once each per cycle, as with acknowledged
 pulses. The sender counts up and starts over after 10001 values; the receiver compares the sum of what it
 reads with the sum of its own counter. All their numbers have 32 bits.
 */
module LockStep {
  import opened Wrappers
  import opened TimeStamps

  const WRAP := 10001

  /** The receiver's data store: the latest value that has been sent since the receiver is connected. */
  class Store {
    var latest: Option<int>

    constructor ()
      ensures latest == None
    {
      latest := None;
    }
  }

  class Sender {
    var counter: int

    constructor ()
      ensures counter == 0
    {
      counter := 0;
    }

    /** One turn of the sender's loop: the value it sends. */
    method Iterate() returns (data: int)
      modifies this
      ensures data == old(counter)
      ensures counter == if ToUint32(old(counter) + 1) > 10000 then 0 else ToUint32(old(counter) + 1)
    {
      data := counter;
      counter := ToUint32(counter + 1);
      if counter > 10000 {
        counter := 0;
      }
    }
  }

  /** The receiver's variables; diff is the one its user reads. */
  datatype Receiving = Receiving(sum: int, expectedSum: int, counter: int, diff: int)

  function Receive(r: Receiving, value: int): Receiving {
    var sum := ToUint32(r.sum + value);
    if sum > 0 then
      var counter := ToUint32(r.counter + 1);
      var expectedSum := ToUint32(r.expectedSum + counter);
      Receiving(sum, expectedSum, counter, ToUint32(expectedSum - sum))
    else r.(sum := sum)
  }

  class Receiver {
    var sum: int
    var expectedSum: int
    var counter: int
    var diff: int

    function State(): Receiving
      reads this
    {
      Receiving(sum, expectedSum, counter, diff)
    }

    constructor ()
      ensures State() == Receiving(0, 0, 0, 0)
    {
      sum, expectedSum, counter, diff := 0, 0, 0, 0;
    }

    /** One turn of the receiver's loop. Data of an empty store is zero. */
    method Iterate(store: Store)
      modifies this
      ensures State() == Receive(old(State()), if store.latest.Some? then store.latest.value else 0)
    {
      var value := if store.latest.Some? then store.latest.value else 0;
      sum := ToUint32(sum + value);
      if sum > 0 {
        counter := ToUint32(counter + 1);
        expectedSum := ToUint32(expectedSum + counter);
        diff := ToUint32(expectedSum - sum);
      }
    }
  }

  // ---------------------------------------------------------------- the composition

  datatype Order = SenderFirst | ReceiverFirst

  /** The value in the store when the receiver reads in this cycle, 0 if there is none. */
  function Seen(order: Order, senderFrom: nat, receiverFrom: nat, cycle: nat): nat {
    var last := if order.SenderFirst? then cycle else cycle - 1;
    if last < senderFrom || last < receiverFrom then 0 else (last - senderFrom) % WRAP
  }

  /** The receiver after this many cycles, if the modules are connected from these cycles on. */
  function ReceiverAfter(order: Order, senderFrom: nat, receiverFrom: nat, cycles: nat): Receiving
    decreases cycles
  {
    if cycles == 0 then Receiving(0, 0, 0, 0)
    else
      var before := ReceiverAfter(order, senderFrom, receiverFrom, cycles - 1);
      if cycles - 1 < receiverFrom then before
      else Receive(before, Seen(order, senderFrom, receiverFrom, cycles - 1))
  }

  function StoreAfter(senderFrom: nat, receiverFrom: nat, cycles: nat): Option<int> {
    if cycles <= senderFrom || cycles <= receiverFrom then None else Some((cycles - 1 - senderFrom) % WRAP)
  }

  /** Cycle after cycle, and the difference the receiver shows after each. */
  method Run(order: Order, senderFrom: nat, receiverFrom: nat, cycles: nat) returns (diffs: seq<int>)
    ensures |diffs| == cycles
    ensures forall k :: 0 <= k < cycles ==> diffs[k] == ReceiverAfter(order, senderFrom, receiverFrom, k + 1).diff
  {
    var store := new Store();
    var sender := new Sender();
    var receiver := new Receiver();
    diffs := [];
    var i := 0;
    while i < cycles
      invariant 0 <= i <= cycles && |diffs| == i
      invariant fresh(store) && fresh(sender) && fresh(receiver)
      invariant sender.counter == if i <= senderFrom then 0 else (i - senderFrom) % WRAP
      invariant store.latest == StoreAfter(senderFrom, receiverFrom, i)
      invariant receiver.State() == ReceiverAfter(order, senderFrom, receiverFrom, i)
      invariant forall k :: 0 <= k < i ==> diffs[k] == ReceiverAfter(order, senderFrom, receiverFrom, k + 1).diff
    {
      if order.SenderFirst? {
        Send(sender, store, senderFrom, receiverFrom, i);
      }
      if i >= receiverFrom {
        receiver.Iterate(store);
      }
      if order.ReceiverFirst? {
        Send(sender, store, senderFrom, receiverFrom, i);
      }
      diffs := diffs + [receiver.diff];
      i := i + 1;
    }
  }

  /** The sender's part of cycle `i`. */
  method Send(sender: Sender, store: Store, senderFrom: nat, receiverFrom: nat, i: nat)
    requires sender.counter == if i <= senderFrom then 0 else (i - senderFrom) % WRAP
    requires store.latest == StoreAfter(senderFrom, receiverFrom, i)
    modifies sender, store
    ensures sender.counter == if i < senderFrom then 0 else (i + 1 - senderFrom) % WRAP
    ensures store.latest == StoreAfter(senderFrom, receiverFrom, i + 1)
  {
    if i >= senderFrom {
      var data := sender.Iterate();
      NextCount(i - senderFrom);
      if i >= receiverFrom {
        store.latest := Some(data);
      }
    }
  }

  lemma NextCount(n: nat)
    ensures (n + 1) % WRAP == if ToUint32(n % WRAP + 1) > 10000 then 0 else ToUint32(n % WRAP + 1)
  { }

  // ---------------------------------------------------------------- what the receiver reads

  /** How many values the receiver has read after these cycles. */
  function ValuesRead(order: Order, senderFrom: nat, receiverFrom: nat, cycles: nat): nat {
    var both := if senderFrom < receiverFrom then receiverFrom else senderFrom;
    var from := if order.ReceiverFirst? then both + 1 else both;
    if cycles <= from then 0 else cycles - from
  }

  /** The first value the receiver reads: it misses those sent before it connects. */
  function FirstValue(senderFrom: nat, receiverFrom: nat): (first: nat)
    ensures first < WRAP
  {
    if receiverFrom <= senderFrom then 0 else (receiverFrom - senderFrom) % WRAP
  }

  /** The receiver after n consecutive values of the sender's counter, from `first` on. */
  function ReadFrom(first: nat, n: nat): Receiving {
    if n == 0 then Receiving(0, 0, 0, 0) else Receive(ReadFrom(first, n - 1), (first + n - 1) % WRAP)
  }

  lemma SeenNext(order: Order, senderFrom: nat, receiverFrom: nat, cycles: nat)
    requires 0 < cycles
    ensures var n := ValuesRead(order, senderFrom, receiverFrom, cycles);
            && ValuesRead(order, senderFrom, receiverFrom, cycles - 1) == (if n == 0 then 0 else n - 1)
            && (n > 0 ==> cycles - 1 >= receiverFrom)
            && Seen(order, senderFrom, receiverFrom, cycles - 1) ==
               if n == 0 then 0 else (FirstValue(senderFrom, receiverFrom) + n - 1) % WRAP
  {
    var n := ValuesRead(order, senderFrom, receiverFrom, cycles);
    if n > 0 && senderFrom < receiverFrom { ReducedFirst(receiverFrom - senderFrom, n - 1); }
  }

  lemma ReducedFirst(late: nat, i: nat)
    ensures (late % WRAP + i) % WRAP == (late + i) % WRAP
  { }

  /** In lock-step the receiver reads every value the sender sends from then on once and in order, whichever
      of the two is pulsed first and whichever connects first, for any number of cycles. */
  lemma {:induction false} ReadsEveryValueOnce(order: Order, senderFrom: nat, receiverFrom: nat, cycles: nat)
    ensures ReceiverAfter(order, senderFrom, receiverFrom, cycles) ==
            ReadFrom(FirstValue(senderFrom, receiverFrom), ValuesRead(order, senderFrom, receiverFrom, cycles))
    decreases cycles
  {
    if cycles > 0 {
      ReadsEveryValueOnce(order, senderFrom, receiverFrom, cycles - 1);
      SeenNext(order, senderFrom, receiverFrom, cycles);
    }
  }

  /** If both are connected from the start: pulsed after the sender, the receiver reads the value of the same
      cycle, and pulsed before it, that of the cycle before. Its sums agree for the first 10001 values. */
  lemma {:induction false} FirstRound(order: Order, n: nat)
    requires n <= 10001
    ensures var m := if order.SenderFirst? || n == 0 then n else n - 1;
            var r := ReceiverAfter(order, 0, 0, n);
            && 2 * r.sum == m * (m - 1) && r.expectedSum == r.sum && r.diff == 0
            && r.counter == (if m == 0 then 0 else m - 1)
    decreases n
  {
    if n > 0 {
      FirstRound(order, n - 1);
      var m := if order.SenderFirst? then n else n - 1;
      assert Seen(order, 0, 0, n - 1) == if m == 0 then 0 else m - 1;
      if m > 0 { NextOfRound(ReceiverAfter(order, 0, 0, n - 1), m - 1); }
    }
  }

  /** The receiver after the values 0 to v - 1 reads v. */
  lemma NextOfRound(r: Receiving, v: nat)
    requires v <= 10000 && 2 * r.sum == v * (v - 1) && r.expectedSum == r.sum && r.diff == 0
    requires r.counter == if v == 0 then 0 else v - 1
    ensures var r' := Receive(r, v);
            && 2 * r'.sum == (v + 1) * v && r'.expectedSum == r'.sum && r'.diff == 0 && r'.counter == v
  {
    SmallProduct(v);
    if v > 1 { Product(1, 1, v, v - 1); }
    NextSum(r, v, v * (v - 1));
    assert (v + 1) * v == v * (v - 1) + 2 * v;
  }

  lemma SmallProduct(v: nat)
    requires v <= 10000
    ensures 0 <= v * (v - 1) <= 100_000_000
  {
    if v > 0 { Product(v, v - 1, 10000, 10000); }
  }

  lemma NextSum(r: Receiving, v: nat, twice: nat)
    requires v <= 10000 && twice <= 100_000_000 && 2 * r.sum == twice && r.expectedSum == r.sum && r.diff == 0
    requires r.counter == (if v == 0 then 0 else v - 1) && (v <= 1 <==> twice == 0)
    ensures var r' := Receive(r, v);
            2 * r'.sum == twice + 2 * v && r'.expectedSum == r'.sum && r'.diff == 0 && r'.counter == v
  { }

  // ---------------------------------------------------------------- closed forms

  /** 1 + 2 + ... + n */
  function Triangular(n: nat): nat {
    if n == 0 then 0 else Triangular(n - 1) + n
  }

  /** The sum of n values from `first` on. */
  function SumFrom(first: nat, n: nat): nat {
    if n == 0 then 0 else SumFrom(first, n - 1) + (first + n - 1) % WRAP
  }

  /** After how many of them the receiver counts: it does not when its 32-bit sum is zero. */
  function Counted(first: nat, n: nat): nat {
    if n == 0 then 0 else Counted(first, n - 1) + if ToUint32(SumFrom(first, n)) == 0 then 0 else 1
  }

  /** How often the sender's counter has started over, summed over the n values. */
  function RestartsFrom(first: nat, n: nat): nat {
    if n == 0 then 0 else RestartsFrom(first, n - 1) + (first + n - 1) / WRAP
  }

  lemma Uint32Sum(a: int, b: int)
    ensures ToUint32(ToUint32(a) + b) == ToUint32(a + b)
  { }

  lemma Uint32Difference(a: int, b: int)
    ensures ToUint32(ToUint32(a) - ToUint32(b)) == ToUint32(a - b)
  { }

  /** One turn of a receiver whose fields stand for these numbers. */
  lemma ReceiveIs(r: Receiving, value: nat, sum: nat, counter: nat, expected: nat)
    requires r.sum == ToUint32(sum) && r.counter == ToUint32(counter) && r.expectedSum == ToUint32(expected)
    ensures Receive(r, value) ==
            if ToUint32(sum + value) == 0 then r.(sum := 0)
            else Receiving(ToUint32(sum + value), ToUint32(expected + (counter + 1)), ToUint32(counter + 1),
                           ToUint32(expected + (counter + 1) - (sum + value)))
  {
    Uint32Sum(sum, value);
    Uint32Sum(counter, 1);
    Uint32Sum(expected, ToUint32(counter + 1));
    Uint32Sum(counter + 1, expected);
    Uint32Difference(expected + (counter + 1), sum + value);
  }

  /** The fields of the receiver after n values, with every 32-bit wrap-around. Its difference is that of the
      sums, except after a sum of zero, when the one before is still shown. */
  lemma {:induction false} ReadFromIs(first: nat, n: nat)
    ensures var r, sum, c := ReadFrom(first, n), SumFrom(first, n), Counted(first, n);
            Shows(r, sum, c, if n == 0 then 0 else ReadFrom(first, n - 1).diff)
    decreases n
  {
    if n > 0 {
      ReadFromIs(first, n - 1);
      ReceiveShows(ReadFrom(first, n - 1), (first + n - 1) % WRAP, SumFrom(first, n - 1), Counted(first, n - 1),
                   if n == 1 then 0 else ReadFrom(first, n - 2).diff);
    }
  }

  lemma ReceiveShows(r: Receiving, value: nat, sum: nat, counter: nat, before: int)
    requires Shows(r, sum, counter, before)
    ensures Shows(Receive(r, value), sum + value, if ToUint32(sum + value) == 0 then counter else counter + 1, r.diff)
  {
    ReceiveIs(r, value, sum, counter, Triangular(counter));
  }

  /** What the fields show of a sum of values and a counter; `before` is the difference shown before. */
  predicate Shows(r: Receiving, sum: nat, counter: nat, before: int) {
    && r.sum == ToUint32(sum) && r.counter == ToUint32(counter) && r.expectedSum == ToUint32(Triangular(counter))
    && r.diff == if ToUint32(sum) == 0 then before else ToUint32(Triangular(counter) - sum)
  }

  lemma {:induction false} TriangularIs(n: nat)
    ensures 2 * Triangular(n) == n * (n + 1)
    decreases n
  {
    if n > 0 {
      TriangularIs(n - 1);
      assert n * (n + 1) == (n - 1) * n + 2 * n;
    }
  }

  lemma {:induction false} SumGrows(first: nat, m: nat, n: nat)
    requires m <= n
    ensures SumFrom(first, m) <= SumFrom(first, n)
    decreases n
  {
    if m < n { SumGrows(first, m, n - 1); }
  }

  /** While the sum fits in 32 bits, only a first value of zero is not counted. */
  lemma {:induction false} CountedIs(first: nat, n: nat)
    requires first < WRAP && SumFrom(first, n) < TWO_32
    ensures Counted(first, n) == if first == 0 && n > 0 then n - 1 else n
    decreases n
  {
    if n > 0 {
      SumGrows(first, n - 1, n);
      CountedIs(first, n - 1);
      ZeroSumIff(first, n);
    }
  }

  lemma ZeroSumIff(first: nat, n: nat)
    requires first < WRAP && SumFrom(first, n) < TWO_32
    ensures ToUint32(SumFrom(first, n)) == 0 <==> n == 0 || (first == 0 && n == 1)
  {
    if n > 0 { FirstSums(first, n); }
  }

  lemma FirstSums(first: nat, n: nat)
    requires first < WRAP && n > 0
    ensures SumFrom(first, n) == 0 <==> first == 0 && n == 1
  {
    assert SumFrom(first, 1) == first;
    SumGrows(first, 1, n);
    if n > 1 {
      assert first == 0 ==> SumFrom(first, 2) == 1;
      SumGrows(first, 2, n);
    }
  }

  /** What the values fall short of a counter that never starts over. */
  lemma {:induction false} SumAndRestarts(first: nat, n: nat)
    ensures SumFrom(first, n) + WRAP * RestartsFrom(first, n) == n * first + Triangular(n) - n
    decreases n
  {
    if n > 0 {
      SumAndRestarts(first, n - 1);
      assert first + n - 1 == WRAP * ((first + n - 1) / WRAP) + (first + n - 1) % WRAP;
      assert n * first == (n - 1) * first + first;
    }
  }

  lemma Quotient(b: nat, r: nat)
    requires r < WRAP
    ensures (WRAP * b + r) / WRAP == b && (WRAP * b + r) % WRAP == r
  { }

  /** One more value in a block. */
  lemma NextInBlock(b: nat, r: nat)
    requires r < WRAP
    ensures SumFrom(0, WRAP * b + r + 1) == SumFrom(0, WRAP * b + r) + r
    ensures RestartsFrom(0, WRAP * b + r + 1) == RestartsFrom(0, WRAP * b + r) + b
  {
    Quotient(b, r);
  }

  /** Blocks of 10001 values. */
  lemma {:induction false} SumOfBlocks(b: nat, r: nat)
    requires r <= WRAP
    ensures SumFrom(0, WRAP * b + r) == b * 50_005_000 + Triangular(r) - r
    ensures RestartsFrom(0, WRAP * b + r) == WRAP * (Triangular(b) - b) + r * b
    decreases b, r
  {
    if r > 0 {
      SumOfBlocks(b, r - 1);
      NextInBlock(b, r - 1);
      OneTimeMore(r, b);
    } else if b > 0 {
      SumOfBlocks(b - 1, WRAP);
      NextBlock(b);
    }
  }

  lemma OneTimeMore(r: nat, b: nat)
    requires r > 0
    ensures r * b == (r - 1) * b + b
  { }

  /** A full block is the start of the next one. */
  lemma NextBlock(b: nat)
    requires b > 0
    ensures WRAP * (b - 1) + WRAP == WRAP * b
    ensures (b - 1) * 50_005_000 + Triangular(WRAP) - WRAP == b * 50_005_000
    ensures WRAP * (Triangular(b - 1) - (b - 1)) + WRAP * (b - 1) == WRAP * (Triangular(b) - b)
  {
    TriangularIs(WRAP);
  }

  /** The sum overflows 32 bits before the restarts do. */
  lemma FewRestarts(n: nat)
    requires SumFrom(0, n) < TWO_32
    ensures RestartsFrom(0, n) < TWO_32
  {
    var b, r := n / WRAP, n % WRAP;
    SumOfBlocks(b, r);
    TriangularIs(r);
    assert r * (r + 1) >= 2 * r by { if r > 0 { assert r * (r + 1) >= r * 2; } }
    assert b <= 85;
    BlocksAreFew(b, r);
  }

  lemma Product(a: nat, b: nat, c: nat, d: nat)
    requires a <= c && b <= d
    ensures a * b <= c * d
  { }

  lemma BlocksAreFew(b: nat, r: nat)
    requires b <= 85 && r < WRAP
    ensures WRAP * (Triangular(b) - b) + r * b < TWO_32
  {
    TriangularIs(b);
    Product(b, b + 1, 85, 86);
    Product(r, b, WRAP, 85);
  }

  lemma {:induction false} RestartsIff(first: nat, n: nat)
    requires first < WRAP
    ensures RestartsFrom(first, n) == 0 <==> first + n <= WRAP || n == 0
    decreases n
  {
    if n > 0 { RestartsIff(first, n - 1); }
  }

  /** What a first value costs for each value read. */
  function Shortfall(first: nat): nat {
    if first == 0 then 0 else first - 1
  }

  // ---------------------------------------------------------------- the difference shown

  /** The difference in all cases: whenever the sum is not zero modulo 2^32, it is zero if and only if the
      values read and the numbers counted have the same sum modulo 2^32. */
  lemma DifferenceIsZeroIff(order: Order, senderFrom: nat, receiverFrom: nat, cycles: nat)
    ensures var n, first := ValuesRead(order, senderFrom, receiverFrom, cycles), FirstValue(senderFrom, receiverFrom);
            var r := ReceiverAfter(order, senderFrom, receiverFrom, cycles);
            ToUint32(SumFrom(first, n)) != 0 ==>
              (r.diff == 0 <==> ToUint32(Triangular(Counted(first, n))) == ToUint32(SumFrom(first, n)))
  {
    var n, first := ValuesRead(order, senderFrom, receiverFrom, cycles), FirstValue(senderFrom, receiverFrom);
    ReadsEveryValueOnce(order, senderFrom, receiverFrom, cycles);
    ReadFromIs(first, n);
    SameRemainder(Triangular(Counted(first, n)), SumFrom(first, n));
  }

  lemma SameRemainder(a: int, b: int)
    ensures ToUint32(a - b) == 0 <==> ToUint32(a) == ToUint32(b)
  { }

  /** While the sum fits in 32 bits: 10001 for every restart of the sender's counter, summed over the values
      read, less what starting late costs. */
  lemma DifferenceIs(first: nat, n: nat)
    requires first < WRAP && SumFrom(first, n) < TWO_32
    ensures ReadFrom(first, n).diff ==
            ToUint32(WRAP * RestartsFrom(first, n) - n * Shortfall(first))
  {
    CountedIs(first, n);
    ZeroSumIff(first, n);
    if n == 0 || (first == 0 && n == 1) {
      NothingCounted(n);
    } else {
      ReadFromIs(first, n);
      CountedFallShort(first, n);
    }
  }

  lemma NothingCounted(n: nat)
    requires n <= 1
    ensures ReadFrom(0, n).diff == 0 && RestartsFrom(0, n) == 0
  { }

  lemma CountedFallShort(first: nat, n: nat)
    requires n > 0
    ensures Triangular(if first == 0 then n - 1 else n) - SumFrom(first, n) ==
            WRAP * RestartsFrom(first, n) - n * Shortfall(first)
  {
    SumAndRestarts(first, n);
    if first > 0 { assert n * (first - 1) == n * first - n; }
  }

  /** A receiver that connects no later than the sender: while the sum of the values fits in 32 bits, the
      difference is zero exactly until the counter has started over, that is for the first 10001 values. */
  lemma DifferenceIff(order: Order, senderFrom: nat, receiverFrom: nat, cycles: nat)
    requires receiverFrom <= senderFrom && SumFrom(0, ValuesRead(order, senderFrom, receiverFrom, cycles)) < TWO_32
    ensures var n := ValuesRead(order, senderFrom, receiverFrom, cycles);
            var diff := ReceiverAfter(order, senderFrom, receiverFrom, cycles).diff;
            diff == ToUint32(10001 * RestartsFrom(0, n)) && (diff == 0 <==> n <= 10001)
  {
    var n := ValuesRead(order, senderFrom, receiverFrom, cycles);
    ReadsEveryValueOnce(order, senderFrom, receiverFrom, cycles);
    DifferenceIs(0, n);
    RestartsIff(0, n);
    FewRestarts(n);
    WrapIsInvertible(RestartsFrom(0, n));
  }

  /** 10001 has an inverse modulo 2^32, so its multiples vanish only with the factor. */
  lemma WrapIsInvertible(x: nat)
    requires x < TWO_32
    ensures ToUint32(WRAP * x) == 0 <==> x == 0
  {
    var q, r := WRAP * x / TWO_32, ToUint32(WRAP * x);
    assert WRAP * x == q * TWO_32 + r;
    assert WRAP * 3472992753 == 1 + 8087 * TWO_32;
    assert x == (3472992753 * q - 8087 * x) * TWO_32 + 3472992753 * r;
  }

  /** Whichever connects first: while the sum fits in 32 bits, the difference after n values from `first` on
      is n times the shortfall below the restarts. Before the first restart it is zero exactly if the
      receiver is in step or one cycle late (its first value is 0 or 1), or has read nothing. */
  lemma LateReceiver(order: Order, senderFrom: nat, receiverFrom: nat, cycles: nat)
    requires SumFrom(FirstValue(senderFrom, receiverFrom), ValuesRead(order, senderFrom, receiverFrom, cycles)) < TWO_32
    ensures var n, first := ValuesRead(order, senderFrom, receiverFrom, cycles), FirstValue(senderFrom, receiverFrom);
            var diff := ReceiverAfter(order, senderFrom, receiverFrom, cycles).diff;
            && diff == ToUint32(WRAP * RestartsFrom(first, n) - n * Shortfall(first))
            && (first + n <= WRAP ==> (diff == 0 <==> first <= 1 || n == 0))
  {
    var n, first := ValuesRead(order, senderFrom, receiverFrom, cycles), FirstValue(senderFrom, receiverFrom);
    ReadsEveryValueOnce(order, senderFrom, receiverFrom, cycles);
    DifferenceIs(first, n);
    RestartsIff(first, n);
    if first + n <= WRAP { ShortfallIsZeroIff(n, first); }
  }

  lemma ShortfallIsZeroIff(n: nat, first: nat)
    requires first + n <= WRAP
    ensures ToUint32(-(n * Shortfall(first))) == 0 <==> first <= 1 || n == 0
  {
    Product(n, Shortfall(first), WRAP, WRAP);
    if n > 0 && first > 1 { Product(1, 1, n, first - 1); }
  }
}

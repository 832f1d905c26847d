/**
 The order of `std::string::compare`, which both the module registry and the configuration use to sort
 their keys, and the sorted enumeration of a key set that iterating a `std::map` gives.
 */
module StringOrder {

  /** s1.compare(s2) < 0. */
  predicate Less(a: string, b: string)
    decreases |a|
  {
    b != [] && (a == [] || a[0] < b[0] || (a[0] == b[0] && Less(a[1..], b[1..])))
  }

  lemma {:induction false} LessIsIrreflexive(a: string)
    ensures !Less(a, a)
    decreases |a|
  {
    if a != [] { LessIsIrreflexive(a[1..]); }
  }

  lemma {:induction false} LessIsTransitive(a: string, b: string, c: string)
    requires Less(a, b) && Less(b, c)
    ensures Less(a, c)
    decreases |a|
  {
    if a != [] && a[0] == b[0] && b[0] == c[0] { LessIsTransitive(a[1..], b[1..], c[1..]); }
  }

  lemma {:induction false} LessIsTotal(a: string, b: string)
    ensures a == b || Less(a, b) || Less(b, a)
    decreases |a|
  {
    if a != [] && b != [] && a[0] == b[0] {
      LessIsTotal(a[1..], b[1..]);
      assert a == [a[0]] + a[1..] && b == [b[0]] + b[1..];
    }
  }

  /** A text comes before another one if it is the beginning of it, or has the smaller character where they
      differ first. */
  lemma {:induction false} LessIff(a: string, b: string)
    ensures Less(a, b) <==>
            (a <= b && a != b) || exists i :: 0 <= i < |a| && i < |b| && a[..i] == b[..i] && a[i] < b[i]
    decreases |a|
  {
    if a != [] && b != [] && a[0] == b[0] {
      LessIff(a[1..], b[1..]);
      PrefixIff(a, b);
      if i :| 0 <= i < |a[1..]| && i < |b[1..]| && a[1..][..i] == b[1..][..i] && a[1..][i] < b[1..][i] {
        assert a[..i + 1] == [a[0]] + a[1..][..i] && b[..i + 1] == [b[0]] + b[1..][..i];
        assert a[i + 1] < b[i + 1];
      }
      if i :| 0 <= i < |a| && i < |b| && a[..i] == b[..i] && a[i] < b[i] {
        assert i > 0 && a[1..][..i - 1] == a[..i][1..] && b[1..][..i - 1] == b[..i][1..];
        assert a[1..][i - 1] < b[1..][i - 1];
      }
    } else if a != [] && b != [] {
      if a[0] < b[0] { assert a[..0] == b[..0]; }
      forall i | 0 < i < |a| && i < |b| ensures a[..i] != b[..i] { assert a[..i][0] != b[..i][0]; }
    }
  }

  lemma PrefixIff(a: string, b: string)
    requires a != [] && b != [] && a[0] == b[0]
    ensures a <= b && a != b <==> a[1..] <= b[1..] && a[1..] != b[1..]
  {
    assert a == [a[0]] + a[1..] && b == [b[0]] + b[1..];
  }

  predicate IsLeast(k: string, s: set<string>) {
    k in s && forall x | x in s :: x == k || Less(k, x)
  }

  lemma {:induction false} LeastExists(s: set<string>)
    requires s != {}
    ensures exists k :: IsLeast(k, s)
    decreases s
  {
    var x :| x in s;
    var rest := s - {x};
    if rest == {} {
      assert s == {x};
      assert IsLeast(x, s);
    } else {
      LeastExists(rest);
      var k :| IsLeast(k, rest);
      LessIsTotal(k, x);
      if Less(k, x) {
        assert IsLeast(k, s);
      } else {
        forall y | y in s ensures y == x || Less(x, y) {
          if y != x && y != k { LessIsTransitive(x, k, y); }
        }
        assert IsLeast(x, s);
      }
    }
  }

  lemma LeastIsUnique(s: set<string>)
    ensures forall j, k :: IsLeast(j, s) && IsLeast(k, s) ==> j == k
  {
    forall j, k | IsLeast(j, s) && IsLeast(k, s) ensures j == k {
      if j != k {
        LessIsTransitive(j, k, j);
        LessIsIrreflexive(j);
      }
    }
  }

  function Least(s: set<string>): (k: string)
    requires s != {}
    ensures IsLeast(k, s)
  {
    LeastExists(s);
    LeastIsUnique(s);
    var k :| IsLeast(k, s);
    k
  }

  /** The keys in the order in which `std::map` iterates over them. */
  function SortedKeys(s: set<string>): (keys: seq<string>)
    ensures forall k :: k in keys <==> k in s
    ensures |keys| == |s|
    decreases s
  {
    if s == {} then []
    else
      var k := Least(s);
      [k] + SortedKeys(s - {k})
  }

  ghost predicate Ascending(keys: seq<string>) {
    forall i, j :: 0 <= i < j < |keys| ==> Less(keys[i], keys[j])
  }

  lemma {:induction false} SortedKeysAscend(s: set<string>)
    ensures Ascending(SortedKeys(s))
    decreases s
  {
    if s != {} {
      var k := Least(s);
      SortedKeysAscend(s - {k});
      var rest := SortedKeys(s - {k});
      forall i | 0 <= i < |rest| ensures Less(k, rest[i]) {
        assert rest[i] in rest;
        assert rest[i] in s - {k};
      }
    }
  }

  /** Ascending enumerations of one set are equal: the order of a map does not remember how the map was
      filled. */
  lemma {:induction false} AscendingIsUnique(p: seq<string>, q: seq<string>)
    requires Ascending(p) && Ascending(q)
    requires forall k :: k in p <==> k in q
    ensures p == q
    decreases |p|
  {
    assert (q != [] ==> q[0] in p) && (p != [] ==> p[0] in q);
    if p != [] && q != [] {
      HeadsAgree(p, q);
      forall k ensures k in p[1..] <==> k in q[1..] {
        TailMembers(p, k);
        TailMembers(q, k);
      }
      AscendingIsUnique(p[1..], q[1..]);
      assert p == [p[0]] + p[1..] && q == [q[0]] + q[1..];
    }
  }

  lemma HeadsAgree(p: seq<string>, q: seq<string>)
    requires p != [] && q != [] && Ascending(p) && Ascending(q)
    requires forall k :: k in p <==> k in q
    ensures p[0] == q[0]
  {
    assert p[0] in q && q[0] in p;
    var i :| 0 <= i < |q| && q[i] == p[0];
    var j :| 0 <= j < |p| && p[j] == q[0];
    if p[0] != q[0] {
      assert Less(q[0], p[0]) && Less(p[0], q[0]);
      LessIsTransitive(p[0], q[0], p[0]);
      LessIsIrreflexive(p[0]);
    }
  }

  lemma TailMembers(p: seq<string>, k: string)
    requires p != [] && Ascending(p)
    ensures k in p[1..] <==> k in p && k != p[0]
  {
    if k in p && k != p[0] {
      var i :| 0 <= i < |p| && p[i] == k;
      assert p[1..][i - 1] == k;
    }
    if k in p[1..] {
      var i :| 0 <= i < |p[1..]| && p[1..][i] == k;
      assert p[i + 1] == k && Less(p[0], p[i + 1]);
      LessIsIrreflexive(k);
    }
  }

  lemma SortedKeysDistinct(s: set<string>)
    ensures forall i, j :: 0 <= i < j < |SortedKeys(s)| ==> SortedKeys(s)[i] != SortedKeys(s)[j]
  { }
}

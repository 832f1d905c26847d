/**
 The string helpers: `split`, `trim` and `equalsIgnoreCase` as the loops the program runs, against
 definitions that say what they are for.
 */
module StringToolbox {
  import opened Wrappers

  /** tolower in the C locale. */
  function ToLower(c: char): char {
    if 'A' <= c <= 'Z' then (c as int + 32) as char else c
  }

  function Lower(s: string): (r: string)
    ensures |r| == |s|
    ensures forall i :: 0 <= i < |s| ==> r[i] == ToLower(s[i])
  {
    seq(|s|, i requires 0 <= i < |s| => ToLower(s[i]))
  }

  /** Lower-casing neither changes this character nor makes it from another one. */
  predicate HasNoCase(c: char) {
    !('A' <= c <= 'Z') && !('a' <= c <= 'z')
  }

  /** Exactly the 26 capital letters change. */
  lemma CapitalsAreLowered(c: char, i: nat)
    requires i < 26
    ensures Lower(["ABCDEFGHIJKLMNOPQRSTUVWXYZ"[i]]) == ["abcdefghijklmnopqrstuvwxyz"[i]]
    ensures c < 'A' || 'Z' < c ==> Lower([c]) == [c]
  { }

  // ---------------------------------------------------------------- equalsIgnoreCase

  method EqualsIgnoreCase(s1: string, s2: string) returns (equal: bool)
    ensures equal <==> Lower(s1) == Lower(s2)
  {
    if |s1| != |s2| {
      assert |Lower(s1)| != |Lower(s2)|;
      return false;
    }
    var c := 0;
    while c != |s1|
      invariant 0 <= c <= |s1|
      invariant forall i :: 0 <= i < c ==> Lower(s1)[i] == Lower(s2)[i]
    {
      if ToLower(s1[c]) != ToLower(s2[c]) {
        assert Lower(s1)[c] != Lower(s2)[c];
        return false;
      }
      c := c + 1;
    }
    return true;
  }

  // ---------------------------------------------------------------- trim

  /** s.find_last_not_of(c) */
  function FindLastNotOf(s: string, c: char): (pos: Option<nat>)
    ensures pos.Some? ==> pos.value < |s| && s[pos.value] != c && forall i :: pos.value < i < |s| ==> s[i] == c
    ensures pos.None? ==> forall i :: 0 <= i < |s| ==> s[i] == c
    decreases |s|
  {
    if s == [] then None
    else if s[|s| - 1] != c then Some(|s| - 1)
    else FindLastNotOf(s[..|s| - 1], c)
  }

  /** s.find_first_not_of(c) */
  function FindFirstNotOf(s: string, c: char): (pos: Option<nat>)
    ensures pos.Some? ==> pos.value < |s| && s[pos.value] != c && forall i :: 0 <= i < pos.value ==> s[i] == c
    ensures pos.None? ==> forall i :: 0 <= i < |s| ==> s[i] == c
  {
    FindFirstNotOfFrom(s, c, 0)
  }

  function FindFirstNotOfFrom(s: string, c: char, from: nat): (pos: Option<nat>)
    requires from <= |s| && forall i :: 0 <= i < from ==> s[i] == c
    ensures pos.Some? ==> pos.value < |s| && s[pos.value] != c && forall i :: 0 <= i < pos.value ==> s[i] == c
    ensures pos.None? ==> forall i :: 0 <= i < |s| ==> s[i] == c
    decreases |s| - from
  {
    if from == |s| then None else if s[from] != c then Some(from) else FindFirstNotOfFrom(s, c, from + 1)
  }

  function Trim(s: string): string {
    match FindLastNotOf(s, ' ')
    case Some(last) =>
      var t := s[..last + 1];
      (match FindFirstNotOf(t, ' ')
       case Some(first) => t[first..]
       case None => t)
    case None => []
  }

  predicate Blank(s: string) {
    forall i :: 0 <= i < |s| ==> s[i] == ' '
  }

  /** Neither the first nor the last character is a blank. */
  predicate Trimmed(s: string) {
    s == [] || (s[0] != ' ' && s[|s| - 1] != ' ')
  }

  lemma TrimCuts(s: string, last: nat) returns (first: nat)
    requires FindLastNotOf(s, ' ') == Some(last)
    ensures first <= last < |s| && s[first] != ' ' && forall i :: 0 <= i < first ==> s[i] == ' '
    ensures Trim(s) == s[first..last + 1]
  {
    var t := s[..last + 1];
    assert t[last] == s[last];
    var pos := FindFirstNotOf(t, ' ');
    assert pos.Some?;
    first := pos.value;
    assert t[first..] == s[first..last + 1];
  }

  /** Trimming removes blanks from both ends, and all of them. */
  lemma TrimSplits(s: string) returns (before: string, after: string)
    ensures s == before + Trim(s) + after
    ensures Blank(before) && Blank(after) && Trimmed(Trim(s))
  {
    match FindLastNotOf(s, ' ')
    case None =>
      before, after := s, [];
    case Some(last) =>
      var first := TrimCuts(s, last);
      before, after := s[..first], s[last + 1..];
      assert s == s[..first] + s[first..last + 1] + s[last + 1..];
  }

  /** Two ways to take blanks off both ends of one text: what is kept in the second lies around what is
      kept in the first. */
  lemma NotInside(b1: string, r1: string, a1: string, b2: string, r2: string, a2: string)
    requires b1 + r1 + a1 == b2 + r2 + a2
    requires Blank(b2) && Blank(a2) && Trimmed(r1) && r1 != []
    ensures |b2| <= |b1| && |b1| + |r1| <= |b2| + |r2|
  {
    InTheMiddle(b2, r2, a2, |b1|);
    InTheMiddle(b2, r2, a2, |b1| + |r1| - 1);
    assert (b1 + r1 + a1)[|b1|] == r1[0];
    assert (b1 + r1 + a1)[|b1| + |r1| - 1] == r1[|r1| - 1];
  }

  lemma InTheMiddle(b: string, r: string, a: string, i: nat)
    requires Blank(b) && Blank(a) && i < |b + r + a|
    ensures (b + r + a)[i] != ' ' ==> |b| <= i < |b| + |r|
  { }

  /** There is only one way to take blanks off both ends until none is left. */
  lemma TrimIsUnique(before: string, r: string, after: string)
    requires Blank(before) && Blank(after) && Trimmed(r)
    ensures Trim(before + r + after) == r
  {
    var s := before + r + after;
    var t := Trim(s);
    var b, a := TrimSplits(s);
    if r != [] { NotInside(before, r, after, b, t, a); }
    if t != [] { NotInside(b, t, a, before, r, after); }
    assert |t| == |r| && (r != [] ==> |b| == |before|);
    assert r != [] ==> s[|b|..|b| + |t|] == t && s[|b|..|b| + |t|] == r;
  }

  /** What `trim` leaves in the caller's string. */
  method TrimInPlace(text: string) returns (s: string)
    ensures s == Trim(text)
  {
    s := text;
    var pos := FindLastNotOf(s, ' ');
    if pos.Some? {
      s := s[..pos.value + 1];
      pos := FindFirstNotOf(s, ' ');
      if pos.Some? {
        s := s[pos.value..];
      }
    } else {
      s := [];
    }
  }

  // ---------------------------------------------------------------- split

  /** s.find_first_of(c, from) */
  function FindFirstOf(s: string, c: char, from: nat): (pos: Option<nat>)
    ensures pos.Some? ==>
              from <= pos.value < |s| && s[pos.value] == c && forall i :: from <= i < pos.value ==> s[i] != c
    ensures pos.None? ==> forall i :: from <= i < |s| ==> s[i] != c
    decreases |s| - from
  {
    if from >= |s| then None else if s[from] == c then Some(from) else FindFirstOf(s, c, from + 1)
  }

  lemma FirstOfIsUnique(s: string, c: char, from: nat, pos: nat)
    requires from <= pos < |s| && s[pos] == c && forall i :: from <= i < pos ==> s[i] != c
    ensures FindFirstOf(s, c, from) == Some(pos)
  { }

  predicate OccursAt(s: string, t: string, pos: nat) {
    pos + |t| <= |s| && s[pos..pos + |t|] == t
  }

  /** s.find(t, from) */
  function Find(s: string, t: string, from: nat): (pos: Option<nat>)
    ensures pos.Some? ==>
              from <= pos.value && OccursAt(s, t, pos.value) && forall i :: from <= i < pos.value ==> !OccursAt(s, t, i)
    ensures pos.None? ==> forall i :: from <= i ==> !OccursAt(s, t, i)
    decreases |s| - from
  {
    if from + |t| > |s| then None else if OccursAt(s, t, from) then Some(from) else Find(s, t, from + 1)
  }

  predicate Contains(s: string, t: string) {
    Find(s, t, 0).Some?
  }

  /** All pieces between delimiters, empty ones included. */
  function Pieces(s: string, c: char): (p: seq<string>)
    ensures p != []
    decreases |s|
  {
    if s == [] then [[]]
    else
      var rest := Pieces(s[1..], c);
      if s[0] == c then [[]] + rest else [[s[0]] + rest[0]] + rest[1..]
  }

  function NonEmpty(p: seq<string>): seq<string>
    decreases |p|
  {
    if p == [] then [] else (if p[0] == [] then [] else [p[0]]) + NonEmpty(p[1..])
  }

  /** What `split` returns: nothing at all when the delimiter does not occur. */
  function SplitOf(s: string, c: char): seq<string> {
    if c in s then NonEmpty(Pieces(s, c)) else []
  }

  lemma {:induction false} NonEmptyConcat(p: seq<string>, q: seq<string>)
    ensures NonEmpty(p + q) == NonEmpty(p) + NonEmpty(q)
    decreases |p|
  {
    if p == [] {
      assert p + q == q;
    } else {
      assert (p + q)[1..] == p[1..] + q;
      NonEmptyConcat(p[1..], q);
    }
  }

  lemma {:induction false} PiecesWithout(s: string, c: char)
    requires c !in s
    ensures Pieces(s, c) == [s]
    decreases |s|
  {
    if s != [] {
      PiecesWithout(s[1..], c);
      assert s == [s[0]] + s[1..];
    }
  }

  lemma {:induction false} PiecesAt(a: string, c: char, b: string)
    requires c !in a
    ensures Pieces(a + [c] + b, c) == [a] + Pieces(b, c)
    decreases |a|
  {
    var s := a + [c] + b;
    if a == [] {
      assert s[1..] == b;
    } else {
      assert s[1..] == a[1..] + [c] + b;
      PiecesAt(a[1..], c, b);
      assert a == [a[0]] + a[1..];
    }
  }

  lemma NonEmptySingle(s: string)
    ensures NonEmpty([s]) == if s == [] then [] else [s]
  { }

  /** The tokens the loop still has to find when it has reached `start`. */
  function TokensFrom(s: string, c: char, start: nat): seq<string>
    requires start <= |s|
    decreases |s| - start
  {
    match FindFirstOf(s, c, start)
    case Some(pos) => (if pos == start then [] else [s[start..pos]]) + TokensFrom(s, c, pos + 1)
    case None => if start < |s| then [s[start..]] else []
  }

  lemma PiecesFrom(s: string, c: char, start: nat, pos: nat)
    requires FindFirstOf(s, c, start) == Some(pos)
    ensures NonEmpty(Pieces(s[start..], c)) == NonEmpty([s[start..pos]]) + NonEmpty(Pieces(s[pos + 1..], c))
  {
    var piece, rest := s[start..pos], s[pos + 1..];
    assert s[start..] == piece + [c] + rest;
    assert c !in piece;
    PiecesAt(piece, c, rest);
    NonEmptyConcat([piece], Pieces(rest, c));
  }

  /** They are the non-empty pieces of the rest of the text. */
  lemma {:induction false} TokensAreThePieces(s: string, c: char, start: nat)
    requires start <= |s|
    ensures TokensFrom(s, c, start) == NonEmpty(Pieces(s[start..], c))
    decreases |s| - start
  {
    match FindFirstOf(s, c, start)
    case Some(pos) =>
      PiecesFrom(s, c, start, pos);
      NonEmptySingle(s[start..pos]);
      TokensAreThePieces(s, c, pos + 1);
    case None =>
      assert c !in s[start..];
      PiecesWithout(s[start..], c);
      NonEmptySingle(s[start..]);
  }

  lemma TokenTaken(s: string, c: char, start: nat, pos: nat, v: seq<string>)
    requires start <= |s| && FindFirstOf(s, c, start) == Some(pos)
    ensures v + TokensFrom(s, c, start) ==
            (if pos == start then v else v + [s[start..pos]]) + TokensFrom(s, c, pos + 1)
  { }

  /** The loop of the program. It ends because `start` moves past every delimiter it finds. */
  method Split(s: string, delimiter: char) returns (v: seq<string>)
    ensures v == SplitOf(s, delimiter)
  {
    v := [];
    var start := 0;
    var pos := FindFirstOf(s, delimiter, start);
    while pos.Some?
      invariant start <= |s|
      invariant pos == FindFirstOf(s, delimiter, start)
      invariant start == 0 ==> v == []
      invariant start > 0 ==> delimiter in s
      invariant TokensFrom(s, delimiter, 0) == v + TokensFrom(s, delimiter, start)
      decreases |s| - start
    {
      TokenTaken(s, delimiter, start, pos.value, v);
      if pos.value != start {
        v := v + [s[start..pos.value]];
      }
      start := pos.value + 1;
      pos := FindFirstOf(s, delimiter, start);
    }
    if start > 0 && start < |s| {
      v := v + [s[start..]];
    }
    TokensAreThePieces(s, delimiter, 0);
    assert s[0..] == s;
  }

  function Join(tokens: seq<string>, c: char): string
    requires tokens != []
    decreases |tokens|
  {
    if |tokens| == 1 then tokens[0] else tokens[0] + [c] + Join(tokens[1..], c)
  }

  predicate IsToken(t: string, c: char) {
    t != [] && c !in t
  }

  lemma {:induction false} PiecesOfJoin(tokens: seq<string>, c: char)
    requires tokens != [] && forall t :: t in tokens ==> c !in t
    ensures Pieces(Join(tokens, c), c) == tokens
    decreases |tokens|
  {
    if |tokens| == 1 {
      PiecesWithout(tokens[0], c);
    } else {
      PiecesOfJoin(tokens[1..], c);
      PiecesAt(tokens[0], c, Join(tokens[1..], c));
      assert tokens == [tokens[0]] + tokens[1..];
    }
  }

  lemma {:induction false} NonEmptyKeepsTokens(p: seq<string>)
    requires forall t :: t in p ==> t != []
    ensures NonEmpty(p) == p
    decreases |p|
  {
    if p != [] {
      assert p[0] in p && forall t | t in p[1..] :: t in p;
      NonEmptyKeepsTokens(p[1..]);
      assert p == [p[0]] + p[1..];
    }
  }

  /** `split` undoes joining two or more tokens; a single token, which holds no delimiter, is lost. */
  lemma SplitUndoesJoin(tokens: seq<string>, c: char)
    requires tokens != [] && forall t :: t in tokens ==> IsToken(t, c)
    ensures SplitOf(Join(tokens, c), c) == if |tokens| >= 2 then tokens else []
  {
    PiecesOfJoin(tokens, c);
    NonEmptyKeepsTokens(tokens);
    if |tokens| >= 2 {
      assert Join(tokens, c)[|tokens[0]|] == c;
    } else {
      assert tokens[0] in tokens;
    }
  }

  lemma {:induction false} JoinOfPieces(s: string, c: char)
    ensures Join(Pieces(s, c), c) == s
    decreases |s|
  {
    if s != [] {
      JoinOfPieces(s[1..], c);
      var rest := Pieces(s[1..], c);
      if s[0] == c {
        assert ([[]] + rest)[1..] == rest;
      } else {
        var p := [[s[0]] + rest[0]] + rest[1..];
        assert p[1..] == rest[1..];
        assert |p| == |rest|;
        assert Join(p, c) == [s[0]] + Join(rest, c);
      }
      assert s == [s[0]] + s[1..];
    }
  }

  function LowerAll(p: seq<string>): (q: seq<string>)
    ensures |q| == |p| && forall i :: 0 <= i < |p| ==> q[i] == Lower(p[i])
  {
    seq(|p|, i requires 0 <= i < |p| => Lower(p[i]))
  }

  /** Lower-casing before splitting at a character without case is lower-casing the pieces. */
  lemma {:induction false} LowerCommutesWithPieces(s: string, c: char)
    requires HasNoCase(c)
    ensures Pieces(Lower(s), c) == LowerAll(Pieces(s, c))
    decreases |s|
  {
    if s == [] {
      assert Lower([]) == [];
      assert LowerAll([[]]) == [[]];
    } else {
      var rest := Pieces(s[1..], c);
      LowerCommutesWithPieces(s[1..], c);
      assert Lower(s)[1..] == Lower(s[1..]);
      LowerFirstPiece(s[0], rest);
    }
  }

  lemma LowerFirstPiece(x: char, rest: seq<string>)
    requires rest != []
    ensures LowerAll([[]] + rest) == [[]] + LowerAll(rest)
    ensures LowerAll([[x] + rest[0]] + rest[1..]) == [[ToLower(x)] + Lower(rest[0])] + LowerAll(rest)[1..]
  {
    assert Lower([x] + rest[0]) == [ToLower(x)] + Lower(rest[0]);
  }

  lemma {:induction false} NonEmptyMembers(p: seq<string>, t: string)
    ensures t in NonEmpty(p) <==> t in p && t != []
    decreases |p|
  {
    if p != [] {
      NonEmptyMembers(p[1..], t);
      assert t in p <==> t == p[0] || t in p[1..];
    }
  }
}

/**
 Key-value configurations: reading text line by line, printing, and selecting a section, which prints
 the selected entries and reads them back.

 A stream is its text. `getline` cuts it at line feeds.
 */
module KeyValueConfigurations {
  import opened Wrappers
  import opened StringOrder
  import opened StringToolbox

  type Entries = map<string, string>

  datatype Entry = Entry(key: string, value: string)

  // ---------------------------------------------------------------- what a line means

  /** The line without its comment. */
  function Uncommented(line: string): (text: string)
    ensures '#' !in text && text <= line
  {
    match FindFirstOf(line, '#', 0)
    case Some(c) => line[..c]
    case None => line
  }

  /** The line without its comment, cut at the first '='. */
  function Sides(line: string): Option<(string, string)> {
    var text := Uncommented(line);
    match FindFirstOf(text, '=', 0)
    case None => None
    case Some(d) => Some((text[..d], text[d + 1..]))
  }

  /** An entry, if trimming leaves neither side empty. */
  function TrimmedEntry(left: string, right: string): Option<Entry> {
    var key, value := Trim(left), Trim(right);
    if key == [] || value == [] then None else Some(Entry(Lower(key), value))
  }

  function EntryOf(line: string): Option<Entry> {
    match Sides(line)
    case None => None
    case Some((left, right)) => TrimmedEntry(left, right)
  }

  function Put(m: Entries, e: Option<Entry>): Entries {
    if e.Some? then m[e.value.key := e.value.value] else m
  }

  function ReadLines(m: Entries, lines: seq<string>): Entries
    decreases |lines|
  {
    if lines == [] then m else ReadLines(Put(m, EntryOf(lines[0])), lines[1..])
  }

  /** Reading text into a configuration: later lines override earlier ones. */
  function ReadText(m: Entries, text: string): Entries {
    ReadLines(m, Pieces(text, '\n'))
  }

  // ---------------------------------------------------------------- what is printed

  function LineOf(key: string, value: string): string {
    key + "=" + value
  }

  function PrintLines(m: Entries, keys: seq<string>): seq<string>
    requires forall k :: k in keys ==> k in m
    decreases |keys|
  {
    if keys == [] then [] else [LineOf(keys[0], m[keys[0]])] + PrintLines(m, keys[1..])
  }

  /** Every line followed by a line feed. */
  function Unlines(lines: seq<string>): string
    decreases |lines|
  {
    if lines == [] then [] else lines[0] + "\n" + Unlines(lines[1..])
  }

  function PrintText(m: Entries): string {
    Unlines(PrintLines(m, SortedKeys(m.Keys)))
  }

  // ---------------------------------------------------------------- well-formed configurations

  predicate IsKey(k: string) {
    k != [] && Trimmed(k) && Lower(k) == k && '=' !in k && '#' !in k && '\n' !in k
  }

  predicate IsValue(v: string) {
    v != [] && Trimmed(v) && '#' !in v && '\n' !in v
  }

  predicate WellFormed(m: Entries) {
    forall k :: k in m ==> IsKey(k) && IsValue(m[k])
  }

  /** The entries whose key contains the section name, wherever it stands in the key. */
  function Section(m: Entries, section: string): Entries {
    map k | k in m && Contains(k, Lower(section)) :: m[k]
  }

  // ---------------------------------------------------------------- reading

  lemma LowerMember(s: string, c: char)
    requires HasNoCase(c)
    ensures c in Lower(s) <==> c in s
  { }

  lemma KeyIsWellFormed(left: string)
    requires '=' !in left && '#' !in left && '\n' !in left && Trim(left) != []
    ensures IsKey(Lower(Trim(left)))
  { }

  lemma ValueIsWellFormed(right: string)
    requires '#' !in right && '\n' !in right && Trim(right) != []
    ensures IsValue(Trim(right))
  { }

  lemma SidesHoldNoStructure(line: string)
    requires '\n' !in line && Sides(line).Some?
    ensures var (left, right) := Sides(line).value;
            && '=' !in left && '#' !in left && '\n' !in left
            && '#' !in right && '\n' !in right
  { }

  lemma EntryIsWellFormed(line: string)
    requires '\n' !in line
    ensures EntryOf(line).Some? ==> IsKey(EntryOf(line).value.key) && IsValue(EntryOf(line).value.value)
  {
    if EntryOf(line).Some? {
      var (left, right) := Sides(line).value;
      SidesHoldNoStructure(line);
      KeyIsWellFormed(left);
      ValueIsWellFormed(right);
    }
  }

  lemma {:induction false} ReadLinesKeepsWellFormed(m: Entries, lines: seq<string>)
    requires WellFormed(m) && forall l :: l in lines ==> '\n' !in l
    ensures WellFormed(ReadLines(m, lines))
    decreases |lines|
  {
    if lines != [] {
      assert lines[0] in lines && forall l | l in lines[1..] :: l in lines;
      EntryIsWellFormed(lines[0]);
      ReadLinesKeepsWellFormed(Put(m, EntryOf(lines[0])), lines[1..]);
    }
  }

  lemma {:induction false} PiecesHoldNoDelimiter(s: string, c: char, p: string)
    ensures p in Pieces(s, c) ==> c !in p
    decreases |s|
  {
    if s != [] {
      var rest := Pieces(s[1..], c);
      PiecesHoldNoDelimiter(s[1..], c, p);
      PiecesHoldNoDelimiter(s[1..], c, rest[0]);
    }
  }

  /** Whatever text is read, the configuration is well-formed: keys in lower case, without '=', comments
      or blanks at the ends, values neither empty nor with blanks at the ends. */
  lemma ReadTextKeepsWellFormed(m: Entries, text: string)
    requires WellFormed(m)
    ensures WellFormed(ReadText(m, text))
  {
    forall l | l in Pieces(text, '\n') ensures '\n' !in l { PiecesHoldNoDelimiter(text, '\n', l); }
    ReadLinesKeepsWellFormed(m, Pieces(text, '\n'));
  }

  /** The documented format: a key and a value with blanks around them, and a comment behind. */
  lemma DocumentedLine(b1: string, key: string, b2: string, b3: string, value: string, b4: string, comment: string)
    requires Blank(b1) && Blank(b2) && Blank(b3) && Blank(b4)
    requires key != [] && Trimmed(key) && '=' !in key && '#' !in key
    requires value != [] && Trimmed(value) && '#' !in value
    requires comment == [] || comment[0] == '#'
    ensures EntryOf(b1 + key + b2 + "=" + b3 + value + b4 + comment) == Some(Entry(Lower(key), value))
  {
    var left, right := b1 + key + b2, b3 + value + b4;
    var text := left + "=" + right;
    var line := b1 + key + b2 + "=" + b3 + value + b4 + comment;
    assert line == text + comment;
    assert '#' !in left && '#' !in right && '=' !in left;
    UncommentedIs(text, comment);
    FirstOfIsUnique(text, '=', 0, |left|);
    assert text[..|left|] == left && text[|left| + 1..] == right;
    TrimIsUnique(b1, key, b2);
    TrimIsUnique(b3, value, b4);
    assert Trim(left) == key && Trim(right) == value;
  }

  lemma UncommentedIs(text: string, comment: string)
    requires '#' !in text && (comment == [] || comment[0] == '#')
    ensures Uncommented(text + comment) == text
  {
    var line := text + comment;
    if comment == [] {
      assert line == text;
    } else {
      FirstOfIsUnique(line, '#', 0, |text|);
      assert line[..|text|] == text;
    }
  }

  // ---------------------------------------------------------------- printing and reading back

  lemma NoPadding(key: string, value: string)
    ensures [] + key + [] + "=" + [] + value + [] + [] == LineOf(key, value)
  { }

  lemma PrintedLine(key: string, value: string)
    requires IsKey(key) && IsValue(value)
    ensures EntryOf(LineOf(key, value)) == Some(Entry(key, value))
    ensures '\n' !in LineOf(key, value)
  {
    DocumentedLine([], key, [], [], value, [], []);
    NoPadding(key, value);
  }

  lemma ReadOneLine(m: Entries, line: string, rest: string)
    requires '\n' !in line
    ensures ReadText(m, line + "\n" + rest) == ReadText(Put(m, EntryOf(line)), rest)
  {
    PiecesAt(line, '\n', rest);
    assert ([line] + Pieces(rest, '\n'))[1..] == Pieces(rest, '\n');
  }

  lemma ReadSingle(m: Entries, line: string)
    requires '\n' !in line
    ensures ReadText(m, line) == Put(m, EntryOf(line))
  {
    PiecesWithout(line, '\n');
    var lines := [line];
    assert lines[1..] == [];
    assert ReadLines(m, lines) == ReadLines(Put(m, EntryOf(lines[0])), lines[1..]);
  }

  lemma ReadNothing(m: Entries)
    ensures ReadText(m, "") == m
  {
    ReadSingle(m, []);
    assert EntryOf([]) == None;
  }

  lemma UnlinesFirst(m: Entries, keys: seq<string>, rest: string)
    requires keys != [] && forall k :: k in keys ==> k in m
    ensures keys[0] in m && (forall k :: k in keys[1..] ==> k in m)
    ensures Unlines(PrintLines(m, keys)) + rest ==
            LineOf(keys[0], m[keys[0]]) + "\n" + (Unlines(PrintLines(m, keys[1..])) + rest)
  { }

  lemma AddFirst(m0: Entries, m: Entries, keys: seq<string>)
    requires keys != [] && forall k :: k in keys ==> k in m
    ensures keys[0] in m && (forall k :: k in keys[1..] ==> k in m)
    ensures m0[keys[0] := m[keys[0]]] + Chosen(m, keys[1..]) == m0 + Chosen(m, keys)
  { }

  function Chosen(m: Entries, keys: seq<string>): Entries
    requires forall k :: k in keys ==> k in m
  {
    map k | k in keys :: m[k]
  }

  /** Reading printed entries adds them, and nothing else. */
  lemma {:induction false} ReadPrinted(m0: Entries, m: Entries, keys: seq<string>, rest: string)
    requires WellFormed(m) && forall k :: k in keys ==> k in m
    ensures ReadText(m0, Unlines(PrintLines(m, keys)) + rest) == ReadText(m0 + Chosen(m, keys), rest)
    decreases |keys|
  {
    if keys == [] {
      assert Unlines(PrintLines(m, keys)) + rest == rest;
      assert m0 + Chosen(m, keys) == m0;
    } else {
      UnlinesFirst(m, keys, rest);
      AddFirst(m0, m, keys);
      var k := keys[0];
      PrintedLine(k, m[k]);
      ReadOneLine(m0, LineOf(k, m[k]), Unlines(PrintLines(m, keys[1..])) + rest);
      ReadPrinted(m0[k := m[k]], m, keys[1..], rest);
    }
  }

  lemma ReadPrintedAlone(m0: Entries, m: Entries, keys: seq<string>)
    requires WellFormed(m) && forall k :: k in keys ==> k in m
    ensures ReadText(m0, Unlines(PrintLines(m, keys))) == m0 + Chosen(m, keys)
  {
    var text := Unlines(PrintLines(m, keys));
    ReadPrinted(m0, m, keys, "");
    assert text + "" == text;
    ReadNothing(m0 + Chosen(m, keys));
  }

  /** Printing a configuration and reading it back gives the same configuration; reading it into another
      one adds its entries and overrides those with the same key. */
  lemma PrintThenRead(m0: Entries, m: Entries, rest: string)
    requires WellFormed(m)
    ensures ReadText(m0, PrintText(m) + rest) == ReadText(m0 + m, rest)
    ensures ReadText(m0, PrintText(m)) == m0 + m
  {
    var keys := SortedKeys(m.Keys);
    assert Chosen(m, keys) == m;
    ReadPrinted(m0, m, keys, rest);
    ReadPrintedAlone(m0, m, keys);
  }

  lemma {:induction false} PiecesOfPrinted(m: Entries, keys: seq<string>)
    requires (forall k :: k in keys ==> k in m) && WellFormed(m)
    ensures Pieces(Unlines(PrintLines(m, keys)), '\n') == PrintLines(m, keys) + [[]]
    decreases |keys|
  {
    if keys != [] {
      var k := keys[0];
      PrintFirst(m, keys);
      PrintedLine(k, m[k]);
      PiecesOfPrinted(m, keys[1..]);
      OneMorePiece(LineOf(k, m[k]), Unlines(PrintLines(m, keys[1..])), PrintLines(m, keys[1..]));
    }
  }

  lemma OneMorePiece(line: string, rest: string, lines: seq<string>)
    requires '\n' !in line && Pieces(rest, '\n') == lines + [[]]
    ensures Pieces(line + "\n" + rest, '\n') == ([line] + lines) + [[]]
  {
    PiecesAt(line, '\n', rest);
  }

  lemma {:induction false} LinesPrinted(m: Entries, keys: seq<string>)
    requires forall k :: k in keys ==> k in m
    ensures |PrintLines(m, keys)| == |keys|
    ensures forall i :: 0 <= i < |keys| ==> keys[i] in m && PrintLines(m, keys)[i] == keys[i] + "=" + m[keys[i]]
    decreases |keys|
  {
    if keys != [] {
      assert keys[0] in keys && forall k | k in keys[1..] :: k in keys;
      LinesPrinted(m, keys[1..]);
    }
  }

  /** What is printed, line by line: one line "key=value" for each entry, in ascending order of the keys, and
      each ended by a line feed. */
  lemma PrintedText(m: Entries, i: nat)
    requires WellFormed(m)
    ensures var lines, keys := Pieces(PrintText(m), '\n'), SortedKeys(m.Keys);
            && |lines| == |keys| + 1 && lines[|keys|] == ""
            && (i < |keys| ==> keys[i] in m && lines[i] == keys[i] + "=" + m[keys[i]])
  {
    PiecesOfPrinted(m, SortedKeys(m.Keys));
    LinesPrinted(m, SortedKeys(m.Keys));
  }

  // ---------------------------------------------------------------- first words

  predicate IsSpace(c: char) {
    c == ' ' || c == '\t' || c == '\n' || c == (11 as char) || c == (12 as char) || c == '\r'
  }

  function SkipSpace(s: string): string
    decreases |s|
  {
    if s != [] && IsSpace(s[0]) then SkipSpace(s[1..]) else s
  }

  function TakeWord(s: string): (w: string)
    ensures w <= s && (forall c :: c in w ==> !IsSpace(c)) && (w < s ==> IsSpace(s[|w|]))
    decreases |s|
  {
    if s == [] || IsSpace(s[0]) then [] else [s[0]] + TakeWord(s[1..])
  }

  /** What extracting a string from a stream gives. */
  function FirstWord(s: string): string {
    TakeWord(SkipSpace(s))
  }

  /** White space in the C locale. */
  predicate IsBlankText(s: string) {
    forall c :: c in s ==> c in [' ', '\t', '\n', 11 as char, 12 as char, '\r']
  }

  lemma {:induction false} SkipBlankText(s: string, rest: string)
    requires IsBlankText(s)
    ensures SkipSpace(s + rest) == SkipSpace(rest)
    decreases |s|
  {
    if s == [] {
      assert s + rest == rest;
    } else {
      assert s[0] in s && forall c | c in s[1..] :: c in s;
      assert (s + rest)[1..] == s[1..] + rest;
      SkipBlankText(s[1..], rest);
    }
  }

  /** Extraction skips white space of any kind and takes everything up to the next white space. */
  lemma WordBetweenBlanks(before: string, w: string, after: string)
    requires IsBlankText(before) && w != [] && forall c :: c in w ==> !IsBlankText([c])
    requires after == [] || IsBlankText([after[0]])
    ensures FirstWord(before + w + after) == w
  {
    assert before + w + after == before + (w + after);
    SkipBlankText(before, w + after);
    forall c | c in w ensures !IsSpace(c) { assert c in [c]; }
    assert (w + after)[0] == w[0];
    if after != [] { assert after[0] in [after[0]]; }
    TakeWordOf(w, after);
  }

  lemma {:induction false} TakeWordOf(w: string, rest: string)
    requires (forall c :: c in w ==> !IsSpace(c)) && (rest == [] || IsSpace(rest[0]))
    ensures TakeWord(w + rest) == w
    decreases |w|
  {
    if w == [] {
      assert w + rest == rest;
    } else {
      assert w[0] in w && forall c | c in w[1..] :: c in w;
      assert (w + rest)[1..] == w[1..] + rest;
      TakeWordOf(w[1..], rest);
      assert w == [w[0]] + w[1..];
    }
  }

  // ---------------------------------------------------------------- the reading loop

  /** s.substr(pos, length) */
  function Substr(s: string, pos: nat, length: nat): string
    requires pos <= |s|
  {
    if pos + length <= |s| then s[pos..pos + length] else s[pos..]
  }

  /** Reads up to the next line feed: the line, the rest, and whether the end was reached. */
  function GetLine(text: string): (string, string, bool) {
    match FindFirstOf(text, '\n', 0)
    case Some(p) => (text[..p], text[p + 1..], false)
    case None => (text, [], true)
  }

  lemma FirstLine(m: Entries, text: string)
    ensures var (line, rest, eof) := GetLine(text);
            ReadText(m, text) == if eof then Put(m, EntryOf(line)) else ReadText(Put(m, EntryOf(line)), rest)
    ensures var (line, rest, eof) := GetLine(text); '\n' !in line
  {
    match FindFirstOf(text, '\n', 0)
    case Some(p) =>
      assert text == text[..p] + "\n" + text[p + 1..];
      ReadOneLine(m, text[..p], text[p + 1..]);
    case None =>
      ReadSingle(m, text);
  }

  /** Where the text ends that a comment, if there is one, follows. */
  function EndOf(line: string, comment: Option<nat>): nat {
    if comment.Some? then comment.value else |line|
  }

  lemma SidesWithin(line: string, d: nat, e: nat)
    requires d < e <= |line|
    ensures line[..e][..d] == line[..d] && line[..e][d + 1..] == line[d + 1..e]
  { }

  lemma UncommentedEnds(line: string)
    ensures var e := EndOf(line, FindFirstOf(line, '#', 0)); e <= |line| && Uncommented(line) == line[..e]
  { }

  /** The positions the program compares say the same as the line without its comment. */
  lemma ReadingPositions(line: string)
    ensures var comment, delimiter := FindFirstOf(line, '#', 0), FindFirstOf(line, '=', 0);
            Sides(line) ==
            if delimiter.None? || (comment.Some? && comment.value < delimiter.value) then None
            else Some((line[..delimiter.value], line[delimiter.value + 1..EndOf(line, comment)]))
  {
    var comment, delimiter := FindFirstOf(line, '#', 0), FindFirstOf(line, '=', 0);
    var text := Uncommented(line);
    UncommentedEnds(line);
    if delimiter.Some? && delimiter.value < |text| {
      FirstOfIsUnique(text, '=', 0, delimiter.value);
      SidesWithin(line, delimiter.value, |text|);
    } else {
      assert '=' !in text;
      assert FindFirstOf(text, '=', 0) == None;
    }
  }

  lemma SubstrIs(s: string, pos: nat, length: nat, t: string)
    requires pos + |t| <= |s| && t == s[pos..pos + |t|]
    requires length == |t| || (length > |t| && pos + |t| == |s|)
    ensures Substr(s, pos, length) == t
  { }

  /** The two sides of a line. None is where the program continues with the next line; a character that is
      not found has the greatest position. */
  method CutLine(line: string) returns (sides: Option<(string, string)>)
    ensures sides.Some? ==> sides == Sides(line)
    ensures sides.None? ==> Sides(line).None? || Sides(line).value.0 == [] || Sides(line).value.1 == []
  {
    ReadingPositions(line);
    var comment := FindFirstOf(line, '#', 0);
    if comment == Some(1) { return None; }
    var delimiter := FindFirstOf(line, '=', 0);
    if delimiter.None? { return None; }
    if comment.Some? && comment.value < delimiter.value { return None; }
    var valueLength := |line|;
    if comment.Some? {
      var realLength: int := comment.value - (delimiter.value + 1);
      valueLength := if realLength < 0 then 0 else realLength;
    }
    if !(delimiter.value > 0 && valueLength > 0) { return None; }
    SubstrIs(line, 0, delimiter.value, line[..delimiter.value]);
    SubstrIs(line, delimiter.value + 1, valueLength,
             line[delimiter.value + 1..EndOf(line, comment)]);
    return Some((Substr(line, 0, delimiter.value), Substr(line, delimiter.value + 1, valueLength)));
  }

  lemma NothingToTrim()
    ensures Trim([]) == []
  { }

  /** One turn of the reading loop. */
  method ParseLine(line: string) returns (entry: Option<Entry>)
    ensures entry == EntryOf(line)
  {
    NothingToTrim();
    var sides := CutLine(line);
    if sides.None? { return None; }
    var key := TrimInPlace(sides.value.0);
    var value := TrimInPlace(sides.value.1);
    if |key| == 0 || |value| == 0 { return None; }
    key := Lower(key);
    return Some(Entry(key, value));
  }

  lemma Prepend(a: string, b: string, c: string)
    ensures a + (b + c) == (a + b) + c
  { }

  function Selected(keys: seq<string>, section: string): (r: seq<string>)
    ensures forall k :: k in r <==> k in keys && Contains(k, section)
    decreases |keys|
  {
    if keys == [] then []
    else (if Contains(keys[0], section) then [keys[0]] else []) + Selected(keys[1..], section)
  }

  lemma PrintFirst(m: Entries, keys: seq<string>)
    requires keys != [] && forall k :: k in keys ==> k in m
    ensures keys[0] in m && (forall k :: k in keys[1..] ==> k in m)
    ensures Unlines(PrintLines(m, keys)) ==
            LineOf(keys[0], m[keys[0]]) + "\n" + Unlines(PrintLines(m, keys[1..]))
  { }

  lemma SelectedFirst(m: Entries, keys: seq<string>, section: string)
    requires keys != [] && forall k :: k in keys ==> k in m
    ensures keys[0] in m && (forall k :: k in keys[1..] ==> k in m)
    ensures var rest := Unlines(PrintLines(m, Selected(keys[1..], section)));
            Unlines(PrintLines(m, Selected(keys, section))) ==
            if Contains(keys[0], section) then LineOf(keys[0], m[keys[0]]) + "\n" + rest else rest
  {
    assert keys[0] in keys && forall k | k in keys[1..] :: k in keys;
    var selected, rest := Selected(keys, section), Selected(keys[1..], section);
    if Contains(keys[0], section) {
      assert selected == [keys[0]] + rest;
      assert selected[0] == keys[0] && selected[1..] == rest;
      PrintFirst(m, selected);
    } else {
      assert selected == rest;
    }
  }

  method PrintSection(m: Entries, section: string) returns (stream: string)
    ensures stream == Unlines(PrintLines(m, Selected(SortedKeys(m.Keys), section)))
  {
    stream := [];
    var keys, i := SortedKeys(m.Keys), 0;
    while i < |keys|
      invariant 0 <= i <= |keys|
      invariant forall k :: k in keys[i..] ==> k in m
      invariant Unlines(PrintLines(m, Selected(keys, section))) ==
                stream + Unlines(PrintLines(m, Selected(keys[i..], section)))
    {
      var k := keys[i];
      assert keys[i..][0] == k && keys[i..][1..] == keys[i + 1..];
      SelectedFirst(m, keys[i..], section);
      if Find(k, section, 0).Some? {
        Prepend(stream, LineOf(k, m[k]) + "\n", Unlines(PrintLines(m, Selected(keys[i + 1..], section))));
        stream := stream + (k + "=" + m[k] + "\n");
      }
      i := i + 1;
    }
  }

  lemma ChosenSection(m: Entries, section: string)
    ensures map[] + Chosen(m, Selected(SortedKeys(m.Keys), Lower(section))) == Section(m, section)
  { }

  lemma SectionIsPrinted(m: Entries, section: string)
    requires WellFormed(m)
    ensures ReadText(map[], Unlines(PrintLines(m, Selected(SortedKeys(m.Keys), Lower(section))))) == Section(m, section)
  {
    ReadPrintedAlone(map[], m, Selected(SortedKeys(m.Keys), Lower(section)));
    ChosenSection(m, section);
  }

  // ---------------------------------------------------------------- the class

  class KeyValueConfiguration {
    var entries: Entries

    ghost predicate Valid()
      reads this
    {
      WellFormed(entries)
    }

    constructor ()
      ensures Valid() && entries == map[]
    {
      entries := map[];
    }

    constructor Copy(obj: KeyValueConfiguration)
      ensures entries == obj.entries
    {
      entries := obj.entries;
    }

    /** operator>> */
    method Read(text: string)
      requires Valid()
      modifies this
      ensures Valid() && entries == ReadText(old(entries), text)
    {
      var rest, eof := text, false;
      while !eof
        invariant Valid()
        invariant ReadText(old(entries), text) == if eof then entries else ReadText(entries, rest)
        decreases !eof, |rest|
      {
        FirstLine(entries, rest);
        var (line, rest', eof') := GetLine(rest);
        EntryIsWellFormed(line);
        var entry := ParseLine(line);
        if entry.Some? {
          entries := entries[entry.value.key := entry.value.value];
        }
        rest, eof := rest', eof';
      }
    }

    /** operator<< */
    method Print() returns (out: string)
      ensures out == PrintText(entries)
    {
      out := [];
      var keys, i := SortedKeys(entries.Keys), 0;
      while i < |keys|
        invariant 0 <= i <= |keys|
        invariant forall k :: k in keys[i..] ==> k in entries
        invariant PrintText(entries) == out + Unlines(PrintLines(entries, keys[i..]))
      {
        var k := keys[i];
        assert keys[i..][0] == k && keys[i..][1..] == keys[i + 1..];
        PrintFirst(entries, keys[i..]);
        Prepend(out, LineOf(k, entries[k]) + "\n", Unlines(PrintLines(entries, keys[i + 1..])));
        out := out + (k + "=" + entries[k] + "\n");
        i := i + 1;
      }
    }

    /** The selected entries are printed to a stream, and the stream is read. */
    method GetSubsetForSection(section: string) returns (subset: KeyValueConfiguration)
      requires Valid()
      ensures fresh(subset) && subset.Valid()
      ensures subset.entries == Section(entries, section)
    {
      subset := new KeyValueConfiguration();
      var stream := PrintSection(entries, Lower(section));
      subset.Read(stream);
      SectionIsPrinted(entries, section);
    }

    method GetListOfKeys() returns (listOfKeys: seq<string>)
      ensures listOfKeys == SortedKeys(entries.Keys)
    {
      listOfKeys := [];
      var keys, i := SortedKeys(entries.Keys), 0;
      while i < |keys|
        invariant 0 <= i <= |keys| && listOfKeys == keys[..i]
      {
        listOfKeys := listOfKeys + [keys[i]];
        i := i + 1;
      }
    }

    /** The empty text when there is no such key. */
    function GetValueFor(key: string): string
      reads this
    {
      if Lower(key) in entries then entries[Lower(key)] else ""
    }

    /** getValue<string>: only the first word of the value is extracted; without a value it throws. */
    function GetValue(key: string): Option<string>
      reads this
    {
      var value := GetValueFor(key);
      if value == "" then None else Some(FirstWord(value))
    }
  }
}

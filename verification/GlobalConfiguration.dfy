/**
 Which keys and values a module is given when it asks for its configuration: the global entries, those of
 its name, and those of its name and identifier with the identifier taken out of the key.
 */
module GlobalConfigurations {
  import opened Wrappers
  import opened StringOrder
  import opened StringToolbox
  import opened KeyValueConfigurations

  const GLOBAL := "global."

  function ModuleSection(name: string): string {
    name + "."
  }

  /** What stands between the name and the rest of the key in an entry for one identifier. */
  function IdentifierPart(identifier: string): string {
    ":" + identifier + "."
  }

  function IdentifierSection(name: string, identifier: string): string {
    name + IdentifierPart(identifier)
  }

  /** The key with the first ":identifier." replaced by ".". When it does not occur, the positions wrap
      around: the whole key, ".", and the key again from the position before the length of the part. */
  function Rewrite(key: string, part: string): string
    requires 1 <= |part| <= |key| + 1
  {
    match Find(key, part, 0)
    case Some(p) => key[..p] + "." + key[p + |part|..]
    case None => key + "." + key[|part| - 1..]
  }

  /** The line printed for a rewritten entry, as it is read again; nothing if the value has no word. */
  function RewrittenEntry(key: string, value: string, part: string): Option<Entry>
    requires 1 <= |part| <= |key| + 1
  {
    if FirstWord(value) == [] then None else Some(Entry(Rewrite(key, part), FirstWord(value)))
  }

  predicate LongEnough(keys: seq<string>, part: string) {
    1 <= |part| && forall k :: k in keys ==> |part| <= |k| + 1
  }

  /** The rewritten entries, in the order of the keys; a later one overrides an earlier one. */
  function Rewritten(m0: Entries, m: Entries, keys: seq<string>, part: string): Entries
    requires LongEnough(keys, part) && forall k :: k in keys ==> k in m
    decreases |keys|
  {
    if keys == [] then m0
    else
      assert keys[0] in keys && forall k | k in keys[1..] :: k in keys;
      Rewritten(Put(m0, RewrittenEntry(keys[0], m[keys[0]], part)), m, keys[1..], part)
  }

  function OfIdentifier(m: Entries, name: string, identifier: string): Entries {
    var section := Section(m, IdentifierSection(name, identifier));
    if identifier == "" then map[]
    else
      KeysAreLongEnough(m, name, identifier);
      Rewritten(map[], section, SortedKeys(section.Keys), IdentifierPart(identifier))
  }

  /** Everything for the monitor and the cockpit; otherwise identifier over name over global. */
  function ConfigurationFor(m: Entries, name: string, identifier: string): Entries {
    if name == "Monitor" || name == "Cockpit" then m
    else Section(m, GLOBAL) + Section(m, ModuleSection(name)) + OfIdentifier(m, name, identifier)
  }

  lemma ContainsIff(s: string, t: string)
    ensures Contains(s, t) <==> exists i :: OccursAt(s, t, i)
  { }

  /** The positions of the rewriting are inside the key, even when they wrap around. */
  lemma KeysAreLongEnough(m: Entries, name: string, identifier: string)
    ensures LongEnough(SortedKeys(Section(m, IdentifierSection(name, identifier)).Keys), IdentifierPart(identifier))
  { }

  // ---------------------------------------------------------------- the provider

  lemma FirstWordIsWord(v: string)
    ensures forall c :: c in FirstWord(v) ==> c in v && !IsSpace(c)
  {
    SkipSpaceMembers(v);
  }

  lemma {:induction false} SkipSpaceMembers(s: string)
    ensures forall c :: c in SkipSpace(s) ==> c in s
    decreases |s|
  {
    if s != [] && IsSpace(s[0]) { SkipSpaceMembers(s[1..]); }
  }

  lemma RewriteMembers(key: string, part: string, c: char)
    requires 1 <= |part| <= |key| + 1
    ensures c in Rewrite(key, part) ==> c in key || c == '.'
  { }

  lemma RewriteIsTrimmed(key: string, part: string)
    requires 1 <= |part| <= |key| + 1 && Trimmed(key)
    ensures Rewrite(key, part) != [] && Trimmed(Rewrite(key, part))
  { }

  lemma LowerKeys(k: string)
    requires Lower(k) == k
    ensures forall i :: 0 <= i < |k| ==> ToLower(k[i]) == k[i]
  { }

  lemma RewriteIsLower(key: string, part: string)
    requires 1 <= |part| <= |key| + 1 && Lower(key) == key
    ensures Lower(Rewrite(key, part)) == Rewrite(key, part)
  { }

  /** The printed line of a rewritten entry is read as that entry. */
  lemma RewrittenLine(key: string, value: string, part: string)
    requires 1 <= |part| <= |key| + 1 && IsKey(key) && IsValue(value)
    ensures EntryOf(LineOf(Rewrite(key, part), FirstWord(value))) == RewrittenEntry(key, value, part)
    ensures '\n' !in LineOf(Rewrite(key, part), FirstWord(value))
  {
    var k, v := Rewrite(key, part), FirstWord(value);
    RewriteMembers(key, part, '='); RewriteMembers(key, part, '#'); RewriteMembers(key, part, '\n');
    RewriteIsTrimmed(key, part);
    RewriteIsLower(key, part);
    FirstWordIsWord(value);
    if v == [] {
      NoValue(k);
    } else {
      assert v[0] in v && v[|v| - 1] in v;
      PrintedLine(k, v);
    }
  }

  lemma NoValue(k: string)
    requires IsKey(k)
    ensures EntryOf(LineOf(k, "")) == None
  { }

  function RewrittenLines(m: Entries, keys: seq<string>, part: string): seq<string>
    requires LongEnough(keys, part) && forall k :: k in keys ==> k in m
    decreases |keys|
  {
    if keys == [] then []
    else
      assert keys[0] in keys && forall k | k in keys[1..] :: k in keys;
      [LineOf(Rewrite(keys[0], part), FirstWord(m[keys[0]]))] + RewrittenLines(m, keys[1..], part)
  }

  /** Printing a rewritten entry and reading it back. */
  lemma {:induction false} ReadRewritten(m0: Entries, m: Entries, keys: seq<string>, part: string)
    requires LongEnough(keys, part) && (forall k :: k in keys ==> k in m) && WellFormed(m)
    ensures ReadText(m0, Unlines(RewrittenLines(m, keys, part))) == Rewritten(m0, m, keys, part)
    decreases |keys|
  {
    if keys == [] {
      ReadNothing(m0);
    } else {
      var k := keys[0];
      assert k in keys && forall j | j in keys[1..] :: j in keys;
      var line := LineOf(Rewrite(k, part), FirstWord(m[k]));
      RewrittenFirst(m, keys, part);
      RewrittenLine(k, m[k], part);
      ReadOneLine(m0, line, Unlines(RewrittenLines(m, keys[1..], part)));
      ReadRewritten(Put(m0, RewrittenEntry(k, m[k], part)), m, keys[1..], part);
    }
  }

  lemma RewrittenFirst(m: Entries, keys: seq<string>, part: string)
    requires keys != [] && LongEnough(keys, part) && forall k :: k in keys ==> k in m
    ensures keys[0] in m && LongEnough(keys[1..], part) && (forall k :: k in keys[1..] ==> k in m)
    ensures |part| <= |keys[0]| + 1
    ensures Unlines(RewrittenLines(m, keys, part)) ==
            LineOf(Rewrite(keys[0], part), FirstWord(m[keys[0]])) + "\n" + Unlines(RewrittenLines(m, keys[1..], part))
  { }

  /** The loop over the keys of the section. */
  method PrintRewritten(m: Entries, part: string) returns (stream: string)
    requires LongEnough(SortedKeys(m.Keys), part)
    ensures stream == RewrittenText(m, part)
  {
    stream := [];
    var keys, i := SortedKeys(m.Keys), 0;
    while i < |keys|
      invariant 0 <= i <= |keys|
      invariant LongEnough(keys[i..], part) && forall k :: k in keys[i..] ==> k in m
      invariant Unlines(RewrittenLines(m, keys, part)) == stream + Unlines(RewrittenLines(m, keys[i..], part))
    {
      var key := keys[i];
      assert keys[i..][0] == key && keys[i..][1..] == keys[i + 1..];
      RewrittenFirst(m, keys[i..], part);
      var modifiedKey := Rewrite(key, part);
      var value := FirstWord(m[key]);
      Prepend(stream, LineOf(modifiedKey, value) + "\n", Unlines(RewrittenLines(m, keys[i + 1..], part)));
      stream := stream + (modifiedKey + "=" + value + "\n");
      i := i + 1;
    }
  }

  lemma IdentifierIsRead(m: Entries, name: string, identifier: string, section: Entries, part: string)
    requires WellFormed(m) && identifier != ""
    requires section == Section(m, IdentifierSection(name, identifier)) && part == IdentifierPart(identifier)
    ensures LongEnough(SortedKeys(section.Keys), part)
    ensures ReadText(map[], RewrittenText(section, part)) == OfIdentifier(m, name, identifier)
    ensures RewrittenText(section, part) == "" ==> OfIdentifier(m, name, identifier) == map[]
  {
    KeysAreLongEnough(m, name, identifier);
    ReadRewritten(map[], section, SortedKeys(section.Keys), part);
    ReadNothing(map[]);
  }

  function RewrittenText(m: Entries, part: string): string
    requires LongEnough(SortedKeys(m.Keys), part)
  {
    Unlines(RewrittenLines(m, SortedKeys(m.Keys), part))
  }

  lemma ReadBlankLine(m: Entries, rest: string)
    ensures ReadText(m, "\n" + rest) == ReadText(m, rest)
  { }

  function PrintedBefore(m: Entries, rest: string): string {
    PrintText(m) + "\n" + rest
  }

  lemma PrintThenReadLine(m0: Entries, m: Entries, rest: string)
    requires WellFormed(m)
    ensures ReadText(m0, PrintedBefore(m, rest)) == ReadText(m0 + m, rest)
  {
    PrintThenRead(m0, m, "\n" + rest);
    Prepend(PrintText(m), "\n", rest);
    ReadBlankLine(m0 + m, rest);
  }

  lemma NothingBefore(a: Entries)
    ensures map[] + a == a
  { }

  /** Three configurations printed one after the other and read together: later ones override. */
  lemma ReadThree(a: Entries, b: Entries, c: Entries)
    requires WellFormed(a) && WellFormed(b) && WellFormed(c)
    ensures ReadText(map[], PrintText(a) + "\n" + PrintText(b) + "\n" + PrintText(c) + "\n") == a + b + c
  {
    var t3 := PrintedBefore(c, []);
    var t2 := PrintedBefore(b, t3);
    PrintThenReadLine(map[], a, t2);
    NothingBefore(a);
    PrintThenReadLine(a, b, t3);
    PrintThenReadLine(a + b, c, []);
    ReadNothing(a + b + c);
    Regroup(PrintText(a), PrintText(b), PrintText(c));
  }

  lemma Regroup(a: string, b: string, c: string)
    ensures a + "\n" + b + "\n" + c + "\n" == a + "\n" + (b + "\n" + (c + "\n" + []))
  { }

  class GlobalConfigurationProvider {
    const configuration: KeyValueConfiguration

    constructor (configuration: KeyValueConfiguration)
      ensures this.configuration == configuration
    {
      this.configuration := configuration;
    }

    /** The entries for the identifier, printed with rewritten keys. */
    method PrintIdentifier(name: string, identifier: string) returns (stream: string)
      requires configuration.Valid() && identifier != ""
      ensures ReadText(map[], stream) == OfIdentifier(configuration.entries, name, identifier)
    {
      var section := configuration.GetSubsetForSection(IdentifierSection(name, identifier));
      var part := IdentifierPart(identifier);
      IdentifierIsRead(configuration.entries, name, identifier, section.entries, part);
      stream := PrintRewritten(section.entries, part);
    }

    method ConfigurationOfIdentifier(name: string, identifier: string) returns (c: KeyValueConfiguration)
      requires configuration.Valid()
      ensures fresh(c) && c.Valid() && c.entries == OfIdentifier(configuration.entries, name, identifier)
    {
      c := new KeyValueConfiguration();
      if identifier != "" {
        var stream := PrintIdentifier(name, identifier);
        ReadNothing(map[]);
        if |stream| > 0 {
          c.Read(stream);
        }
      }
    }

    method GetConfiguration(name: string, identifier: string) returns (c: KeyValueConfiguration)
      requires configuration.Valid()
      ensures fresh(c) && c.Valid()
      ensures c.entries == ConfigurationFor(configuration.entries, name, identifier)
    {
      if name == "Monitor" || name == "Cockpit" {
        c := new KeyValueConfiguration.Copy(configuration);
        return;
      }
      var ofGlobal := configuration.GetSubsetForSection(GLOBAL);
      var ofName := configuration.GetSubsetForSection(ModuleSection(name));
      var ofIdentifier := ConfigurationOfIdentifier(name, identifier);
      ReadThree(ofGlobal.entries, ofName.entries, ofIdentifier.entries);
      var s1 := ofGlobal.Print();
      var s2 := ofName.Print();
      var s3 := ofIdentifier.Print();
      c := new KeyValueConfiguration();
      c.Read(s1 + "\n" + s2 + "\n" + s3 + "\n");
    }
  }

  // ---------------------------------------------------------------- the keys a module is given

  /** Some entry of the section is rewritten to `k`. */
  predicate RewrittenTo(m: Entries, keys: seq<string>, part: string, k: string)
    requires LongEnough(keys, part) && forall j :: j in keys ==> j in m
  {
    exists j :: j in keys && FirstWord(m[j]) != [] && Rewrite(j, part) == k
  }

  lemma {:induction false} RewrittenKeys(m0: Entries, m: Entries, keys: seq<string>, part: string, k: string)
    requires LongEnough(keys, part) && forall j :: j in keys ==> j in m
    ensures k in Rewritten(m0, m, keys, part) <==> k in m0 || RewrittenTo(m, keys, part, k)
    ensures !RewrittenTo(m, keys, part, k) && k in m0 ==> Rewritten(m0, m, keys, part)[k] == m0[k]
    ensures RewrittenTo(m, keys, part, k) ==>
              exists j :: j in keys && FirstWord(m[j]) != [] && Rewrite(j, part) == k
                          && Rewritten(m0, m, keys, part)[k] == FirstWord(m[j])
    decreases |keys|
  {
    if keys != [] {
      var h := keys[0];
      assert h in keys && forall j | j in keys[1..] :: j in keys;
      assert forall j | j in keys :: j == h || j in keys[1..];
      var m1 := Put(m0, RewrittenEntry(h, m[h], part));
      RewrittenKeys(m1, m, keys[1..], part, k);
      if RewrittenTo(m, keys[1..], part, k) {
        var j :| j in keys[1..] && FirstWord(m[j]) != [] && Rewrite(j, part) == k
                 && Rewritten(m1, m, keys[1..], part)[k] == FirstWord(m[j]);
        assert j in keys;
      }
    }
  }

  lemma SectionNames(name: string, identifier: string)
    ensures Lower(GLOBAL) == GLOBAL
    ensures Lower(ModuleSection(name)) == ModuleSection(Lower(name))
    ensures Lower(IdentifierSection(name, identifier)) == IdentifierSection(Lower(name), Lower(identifier))
  { }

  /** The key of an entry for the identifier that is rewritten to `k`, and has a value. */
  ghost predicate ComesFrom(m: Entries, name: string, identifier: string, k: string, j: string) {
    && identifier != "" && j in m && Contains(j, Lower(name) + (":" + Lower(identifier) + "."))
    && FirstWord(m[j]) != []
    && |":" + identifier + "."| <= |j| + 1 && Rewrite(j, ":" + identifier + ".") == k
  }

  lemma OfIdentifierKeys(m: Entries, name: string, identifier: string, k: string)
    ensures k in OfIdentifier(m, name, identifier) <==> exists j :: ComesFrom(m, name, identifier, k, j)
    ensures k in OfIdentifier(m, name, identifier) ==>
              exists j :: ComesFrom(m, name, identifier, k, j)
                          && OfIdentifier(m, name, identifier)[k] == FirstWord(m[j])
  {
    if identifier != "" {
      var section, part := Section(m, IdentifierSection(name, identifier)), IdentifierPart(identifier);
      var keys := SortedKeys(section.Keys);
      SectionNames(name, identifier);
      KeysAreLongEnough(m, name, identifier);
      RewrittenKeys(map[], section, keys, part, k);
      if RewrittenTo(section, keys, part, k) {
        var j :| j in keys && FirstWord(section[j]) != [] && Rewrite(j, part) == k
                 && Rewritten(map[], section, keys, part)[k] == FirstWord(section[j]);
        assert ComesFrom(m, name, identifier, k, j);
      }
      if j :| ComesFrom(m, name, identifier, k, j) {
        assert j in keys;
      }
    }
  }

  /** Exactly the keys and values a module is given, whatever the configuration and the names are: the monitor
      and the cockpit all of them, the others those of the global section and of their name, and those of
      their name and identifier with rewritten keys, which hide the former. */
  lemma GivenKeys(m: Entries, name: string, identifier: string, k: string)
    ensures var c := ConfigurationFor(m, name, identifier);
            if name == "Monitor" || name == "Cockpit" then
              (k in c <==> k in m) && (k in c ==> c[k] == m[k])
            else
              && (k in c <==> (k in m && (Contains(k, "global.") || Contains(k, Lower(name) + ".")))
                              || exists j :: ComesFrom(m, name, identifier, k, j))
              && ((exists j :: ComesFrom(m, name, identifier, k, j)) ==>
                    exists j :: ComesFrom(m, name, identifier, k, j) && c[k] == FirstWord(m[j]))
              && (k in c && !(exists j :: ComesFrom(m, name, identifier, k, j)) ==> k in m && c[k] == m[k])
  {
    SectionNames(name, identifier);
    OfIdentifierKeys(m, name, identifier, k);
    assert k in Section(m, GLOBAL) <==> k in m && Contains(k, GLOBAL);
    assert k in Section(m, ModuleSection(name)) <==> k in m && Contains(k, ModuleSection(Lower(name)));
  }

  /** A key that belongs neither to the global section nor to a section of the module is given to the monitor
      and to the cockpit only. */
  lemma StrangeKeyIff(m: Entries, name: string, identifier: string, k: string)
    requires k in m && !Contains(k, "global.") && !Contains(k, Lower(name) + ".")
    requires forall j :: !ComesFrom(m, name, identifier, k, j)
    ensures k in ConfigurationFor(m, name, identifier) <==> name in ["Monitor", "Cockpit"]
  {
    GivenKeys(m, name, identifier, k);
  }

  // ---------------------------------------------------------------- when only its own keys are given

  predicate StartsWith(s: string, t: string) {
    t <= s
  }

  /** `k` starts with the prefix after one of the dots of the prefix is expanded to the part. */
  predicate StartsExpanded(k: string, prefix: string, part: string) {
    exists j :: 0 <= j < |prefix| && prefix[j] == '.' && StartsWith(k, prefix[..j] + part + prefix[j + 1..])
  }

  lemma ColonIsBehind(s: string, prefix: string, p: nat)
    requires StartsWith(s, prefix) && ':' !in prefix && p < |s| && s[p] == ':'
    ensures |prefix| <= p
  { }

  lemma RewriteFromPrefix(key: string, part: string, prefix: string)
    requires ':' !in prefix && part != [] && part[0] == ':' && Contains(key, part) && |part| <= |key| + 1
    requires StartsWith(key, prefix)
    ensures StartsWith(Rewrite(key, part), prefix)
  { }

  lemma RewriteFromExpanded(key: string, part: string, prefix: string, j: nat)
    requires ':' !in prefix && part != [] && part[0] == ':' && |part| <= |key| + 1
    requires j < |prefix| && prefix[j] == '.' && StartsWith(key, prefix[..j] + part + prefix[j + 1..])
    ensures StartsWith(Rewrite(key, part), prefix)
  {
    var expanded := prefix[..j] + part + prefix[j + 1..];
    assert key[..|expanded|] == expanded;
    assert key[j..j + |part|] == expanded[j..j + |part|] == part;
    assert OccursAt(key, part, j);
    var p := Find(key, part, 0).value;
    assert key[p] == key[p..p + |part|][0] == ':';
    assert key[..j] == expanded[..j] == prefix[..j];
    ColonIsBehind(key, prefix[..j], p);
    assert p == j;
    var r := Rewrite(key, part);
    forall i | 0 <= i < |prefix| ensures r[i] == prefix[i] {
      if i < j {
        assert r[i] == key[i] == expanded[i];
      } else if i > j {
        assert r[i] == key[j + |part| + (i - j - 1)] == expanded[j + |part| + (i - j - 1)];
      }
    }
  }

  lemma RewriteToPrefix(key: string, part: string, prefix: string)
    requires part != [] && Contains(key, part) && |part| <= |key| + 1
    requires StartsWith(Rewrite(key, part), prefix)
    ensures StartsWith(key, prefix) || StartsExpanded(key, prefix, part)
  {
    var p, r := Find(key, part, 0).value, Rewrite(key, part);
    if p >= |prefix| {
      forall i | 0 <= i < |prefix| ensures key[i] == prefix[i] { assert r[i] == prefix[i]; }
    } else {
      var expanded := prefix[..p] + part + prefix[p + 1..];
      assert r[p] == prefix[p];
      forall i | 0 <= i < |expanded| ensures i < |key| && key[i] == expanded[i] {
        ExpandedAt(key, part, prefix, p, i);
      }
      assert StartsWith(key, expanded);
    }
  }

  lemma ExpandedAt(key: string, part: string, prefix: string, p: nat, i: nat)
    requires part != [] && Find(key, part, 0) == Some(p) && |part| <= |key| + 1
    requires StartsWith(Rewrite(key, part), prefix) && p < |prefix|
    requires i < |prefix[..p] + part + prefix[p + 1..]|
    ensures i < |key| && key[i] == (prefix[..p] + part + prefix[p + 1..])[i]
  { }

  /** Keys of this module: global ones and those that start with its name. */
  predicate Own(k: string, name: string) {
    StartsWith(k, GLOBAL) || StartsWith(k, ModuleSection(Lower(name)))
  }

  /** What the configuration must be like for a module to be given none but its own keys: a section name
      must not stand in the middle of a key that is not the module's. */
  predicate Separated(m: Entries, name: string, identifier: string) {
    forall k :: k in m ==>
      && (Contains(k, GLOBAL) || Contains(k, ModuleSection(Lower(name))) ==> Own(k, name))
      && (identifier != "" && Contains(k, IdentifierSection(Lower(name), identifier)) && FirstWord(m[k]) != [] ==>
            || Own(k, name)
            || StartsExpanded(k, GLOBAL, IdentifierPart(identifier))
            || StartsExpanded(k, ModuleSection(Lower(name)), IdentifierPart(identifier)))
  }

  lemma PartOfSection(k: string, name: string, identifier: string)
    requires Contains(k, IdentifierSection(name, identifier))
    ensures Contains(k, IdentifierPart(identifier)) && |IdentifierPart(identifier)| <= |k|
  {
    var i := Find(k, IdentifierSection(name, identifier), 0).value;
    var part := IdentifierPart(identifier);
    assert k[i..i + |name| + |part|][|name|..] == part;
    assert k[i + |name|..i + |name| + |part|] == part;
    assert OccursAt(k, part, i + |name|);
  }

  /** An entry for the identifier is rewritten to one of the module's keys exactly if it is one already, or
      one with a dot of the prefix expanded. */
  lemma RewriteIsOwnIff(k: string, name: string, identifier: string)
    requires ':' !in name && Contains(k, IdentifierSection(Lower(name), identifier))
    ensures |IdentifierPart(identifier)| <= |k| + 1
    ensures Own(Rewrite(k, IdentifierPart(identifier)), name) <==>
            || Own(k, name)
            || StartsExpanded(k, GLOBAL, IdentifierPart(identifier))
            || StartsExpanded(k, ModuleSection(Lower(name)), IdentifierPart(identifier))
  {
    var part := IdentifierPart(identifier);
    PartOfSection(k, Lower(name), identifier);
    LowerMember(name, ':');
    RewriteIff(k, part, GLOBAL);
    RewriteIff(k, part, ModuleSection(Lower(name)));
  }

  lemma RewriteIff(key: string, part: string, prefix: string)
    requires ':' !in prefix && part != [] && part[0] == ':' && Contains(key, part) && |part| <= |key| + 1
    ensures StartsWith(Rewrite(key, part), prefix) <==> StartsWith(key, prefix) || StartsExpanded(key, prefix, part)
  {
    if StartsWith(key, prefix) {
      RewriteFromPrefix(key, part, prefix);
    } else if StartsExpanded(key, prefix, part) {
      var j :| 0 <= j < |prefix| && prefix[j] == '.' && StartsWith(key, prefix[..j] + part + prefix[j + 1..]);
      RewriteFromExpanded(key, part, prefix, j);
    }
    if StartsWith(Rewrite(key, part), prefix) { RewriteToPrefix(key, part, prefix); }
  }

  /** A module with a colon-free name and a lower-case identifier is given none but its own keys exactly if
      the configuration is separated. */
  lemma OnlyOwnKeysIff(m: Entries, name: string, identifier: string)
    requires name != "Monitor" && name != "Cockpit" && ':' !in name && Lower(identifier) == identifier
    ensures (forall k :: k in ConfigurationFor(m, name, identifier) ==> Own(k, name)) <==>
            Separated(m, name, identifier)
  {
    var c := ConfigurationFor(m, name, identifier);
    if Separated(m, name, identifier) {
      forall k | k in c ensures Own(k, name) {
        GivenKeys(m, name, identifier, k);
        if j :| ComesFrom(m, name, identifier, k, j) { RewriteIsOwnIff(j, name, identifier); }
      }
    }
    if forall k :: k in c ==> Own(k, name) {
      forall k | k in m
        ensures Contains(k, GLOBAL) || Contains(k, ModuleSection(Lower(name))) ==> Own(k, name)
        ensures identifier != "" && Contains(k, IdentifierSection(Lower(name), identifier)) && FirstWord(m[k]) != [] ==>
                  || Own(k, name)
                  || StartsExpanded(k, GLOBAL, IdentifierPart(identifier))
                  || StartsExpanded(k, ModuleSection(Lower(name)), IdentifierPart(identifier))
      {
        GivenKeys(m, name, identifier, k);
        if identifier != "" && Contains(k, IdentifierSection(Lower(name), identifier)) && FirstWord(m[k]) != [] {
          RewriteIsOwnIff(k, name, identifier);
          var k' := Rewrite(k, IdentifierPart(identifier));
          assert ComesFrom(m, name, identifier, k', k);
          GivenKeys(m, name, identifier, k');
        }
      }
    }
  }

  /** A key is given wherever the section of the module stands in it. */
  lemma StrayKey(m: Entries, name: string, identifier: string, before: string, after: string)
    requires name != "Monitor" && name != "Cockpit"
    requires before + ModuleSection(Lower(name)) + after in m
    ensures before + ModuleSection(Lower(name)) + after in ConfigurationFor(m, name, identifier)
  {
    var own := ModuleSection(Lower(name));
    var k := before + own + after;
    assert k[|before|..|before| + |own|] == own;
    assert OccursAt(k, own, |before|);
    ContainsIff(k, own);
    GivenKeys(m, name, identifier, k);
  }

  /** The property fails for this configuration: the camera is given an entry of another module. */
  lemma AnotherModulesKey()
    ensures "mycamera.id" in ConfigurationFor(map["mycamera.id" := "1"], "Camera", "")
    ensures !Own("mycamera.id", "Camera")
  {
    var own := ModuleSection(Lower("Camera"));
    assert own == "camera.";
    assert "my" + own + "id" == "mycamera.id";
    StrayKey(map["mycamera.id" := "1"], "Camera", "", "my", "id");
    assert "mycamera.id"[0] != own[0] && "mycamera.id"[0] != GLOBAL[0];
  }

  // ---------------------------------------------------------------- entries of one identifier

  /** Taking the identifier out of the keys of the module's own section. */
  lemma RewriteOfOwnSection(name: string, identifier: string, rest: string)
    requires ':' !in name
    ensures var key := name + (":" + identifier + ".") + rest;
            && |":" + identifier + "."| <= |key| + 1
            && Rewrite(key, ":" + identifier + ".") == (name + ".") + rest
  {
    var part := IdentifierPart(identifier);
    var key := name + part + rest;
    assert key[|name|..|name| + |part|] == part;
    assert OccursAt(key, part, |name|);
    var p := Find(key, part, 0).value;
    assert key[p] == key[p..p + |part|][0] == ':';
    ColonIsBehind(key, name, p);
    assert p == |name|;
    assert key[..p] == name && key[p + |part|..] == rest;
  }

  /** Sections stand at the start of a key or not in it at all. */
  predicate Anchored(m: Entries, name: string, identifier: string) {
    forall k, s :: k in m && s in [GLOBAL, ModuleSection(Lower(name)), IdentifierSection(Lower(name), identifier)] ==>
      (Contains(k, s) ==> StartsWith(k, s))
  }

  /** The one key of the identifier's section that can be rewritten to `k`. */
  function SourceKey(name: string, identifier: string, k: string): string {
    var own := ModuleSection(Lower(name));
    if StartsWith(k, own) then IdentifierSection(Lower(name), identifier) + k[|own|..] else []
  }

  /** `k` is hidden by an entry of the identifier. */
  predicate Hidden(m: Entries, name: string, identifier: string, k: string) {
    var j := SourceKey(name, identifier, k);
    StartsWith(k, ModuleSection(Lower(name))) && j in m && FirstWord(m[j]) != []
  }

  lemma ComesFromSource(m: Entries, name: string, identifier: string, k: string, j: string)
    requires ':' !in name && Lower(identifier) == identifier && Anchored(m, name, identifier)
    requires ComesFrom(m, name, identifier, k, j)
    ensures Hidden(m, name, identifier, k) && j == SourceKey(name, identifier, k)
  {
    var sec := IdentifierSection(Lower(name), identifier);
    LowerMember(name, ':');
    assert StartsWith(j, sec);
    assert j == sec + j[|sec|..];
    RewriteOfOwnSection(Lower(name), identifier, j[|sec|..]);
    assert k[|ModuleSection(Lower(name))|..] == j[|sec|..];
  }

  lemma SourceIsRewritten(m: Entries, name: string, identifier: string, k: string)
    requires ':' !in name && Lower(identifier) == identifier && identifier != ""
    requires Hidden(m, name, identifier, k)
    ensures ComesFrom(m, name, identifier, k, SourceKey(name, identifier, k))
  {
    var own, sec := ModuleSection(Lower(name)), IdentifierSection(Lower(name), identifier);
    var rest := k[|own|..];
    assert k == own + rest;
    LowerMember(name, ':');
    RewriteOfOwnSection(Lower(name), identifier, rest);
    StartIsContained(sec + rest, sec);
  }

  /** In such a configuration a module is given the global keys, the keys of its name, and the keys of its
      identifier with the identifier taken out; an entry of the identifier hides one of the name, and is
      cut after its first word. No two entries of the identifier become the same key. */
  lemma AnchoredConfiguration(m: Entries, name: string, identifier: string, k: string)
    requires name != "Monitor" && name != "Cockpit" && ':' !in name
    requires Lower(identifier) == identifier && identifier != "" && Anchored(m, name, identifier)
    ensures var c := ConfigurationFor(m, name, identifier);
            var hidden := Hidden(m, name, identifier, k);
            && (k in c <==> hidden || (k in m && Own(k, name)))
            && (k in c ==> c[k] == if hidden then FirstWord(m[SourceKey(name, identifier, k)]) else m[k])
  {
    GivenKeys(m, name, identifier, k);
    forall j | ComesFrom(m, name, identifier, k, j)
      ensures Hidden(m, name, identifier, k) && j == SourceKey(name, identifier, k)
    {
      ComesFromSource(m, name, identifier, k, j);
    }
    if Hidden(m, name, identifier, k) { SourceIsRewritten(m, name, identifier, k); }
    if k in m { AnchoredIsOwn(m, name, identifier, k); }
  }

  lemma AnchoredIsOwn(m: Entries, name: string, identifier: string, k: string)
    requires Anchored(m, name, identifier) && k in m
    ensures Contains(k, GLOBAL) || Contains(k, ModuleSection(Lower(name))) <==> Own(k, name)
  { }

  lemma StartIsContained(s: string, t: string)
    requires StartsWith(s, t)
    ensures Contains(s, t)
  { }

  // ---------------------------------------------------------------- when two entries become one key

  /** `k` is `j` with the part moved from `p` to the place of a later dot, which has moved to `p`. */
  predicate Moved(j: string, k: string, part: string, p: nat, q: nat) {
    && p < q && part != [] && q + |part| <= |j| && j[q + |part| - 1] == '.'
    && k == j[..p] + "." + j[p + |part|..q + |part| - 1] + part + j[q + |part|..]
  }

  /** One of the keys is the other with the first part in it moved to a later dot, where it is the first. */
  predicate Related(j: string, k: string, part: string) {
    match (Find(j, part, 0), Find(k, part, 0))
    case (Some(p), Some(q)) => Moved(j, k, part, p, q) || Moved(k, j, part, q, p)
    case _ => false
  }

  /** With the part at `p` replaced by a dot. */
  function Dotted(j: string, part: string, p: nat): string
    requires p + |part| <= |j|
  {
    j[..p] + "." + j[p + |part|..]
  }

  /** The part stands in the text at `p`. */
  predicate HasAt(j: string, part: string, p: nat) {
    part != [] && part[0] != '.' && p + |part| <= |j| && j[p..p + |part|] == part
  }

  lemma MovedCollides(j: string, k: string, part: string, p: nat, q: nat)
    requires Moved(j, k, part, p, q) && HasAt(j, part, p)
    ensures q + |part| <= |k| && Dotted(j, part, p) == Dotted(k, part, q) && j != k
  {
    var between := j[p + |part|..q + |part| - 1];
    assert k[..q] == j[..p] + "." + between;
    assert k[q + |part|..] == j[q + |part|..];
    assert j[p + |part|..] == between + "." + j[q + |part|..];
    assert j[p] == part[0] && k[p] == '.';
  }

  lemma CollidesMoved(j: string, k: string, part: string, p: nat, q: nat)
    requires p < q && HasAt(j, part, p) && HasAt(k, part, q) && Dotted(j, part, p) == Dotted(k, part, q)
    ensures Moved(j, k, part, p, q)
  {
    var r := Dotted(j, part, p);
    assert |j| == |k| && j[..p] == r[..p] == k[..p];
    assert j[q + |part| - 1] == r[q] == '.';
    assert k[p] == r[p] == '.';
    assert k[p + 1..q] == r[p + 1..q] == j[p + |part|..q + |part| - 1];
    assert k[q + |part|..] == r[q + 1..] == j[q + |part|..];
    assert k == k[..p] + [k[p]] + k[p + 1..q] + k[q..q + |part|] + k[q + |part|..];
  }

  lemma DottedInPlace(j: string, k: string, part: string, p: nat)
    requires HasAt(j, part, p) && HasAt(k, part, p) && Dotted(j, part, p) == Dotted(k, part, p)
    ensures j == k
  {
    var r := Dotted(j, part, p);
    assert j[..p] == r[..p] == k[..p];
    assert j[p + |part|..] == r[p + 1..] == k[p + |part|..];
    assert j == j[..p] + part + j[p + |part|..] && k == k[..p] + part + k[p + |part|..];
  }

  lemma CollideAt(j: string, k: string, part: string, p: nat, q: nat)
    requires HasAt(j, part, p) && HasAt(k, part, q)
    ensures j != k && Dotted(j, part, p) == Dotted(k, part, q) <==>
            Moved(j, k, part, p, q) || Moved(k, j, part, q, p)
  {
    if Moved(j, k, part, p, q) {
      MovedCollides(j, k, part, p, q);
    } else if Moved(k, j, part, q, p) {
      MovedCollides(k, j, part, q, p);
    } else if Dotted(j, part, p) == Dotted(k, part, q) {
      if p < q {
        CollidesMoved(j, k, part, p, q);
        assert false;
      } else if q < p {
        CollidesMoved(k, j, part, q, p);
        assert false;
      } else {
        DottedInPlace(j, k, part, p);
      }
    }
  }

  lemma RewriteIsDotted(j: string, part: string)
    requires part != [] && part[0] != '.' && Contains(j, part) && |part| <= |j| + 1
    ensures Find(j, part, 0).Some? && HasAt(j, part, Find(j, part, 0).value)
    ensures Rewrite(j, part) == Dotted(j, part, Find(j, part, 0).value)
  { }

  /** Two different keys with the part in them are rewritten alike if and only if they are so related. */
  lemma CollideIff(j: string, k: string, part: string)
    requires part != [] && part[0] != '.' && Contains(j, part) && Contains(k, part)
    requires |part| <= |j| + 1 && |part| <= |k| + 1
    ensures j != k && Rewrite(j, part) == Rewrite(k, part) <==> Related(j, k, part)
  {
    RewriteIsDotted(j, part);
    RewriteIsDotted(k, part);
    CollideAt(j, k, part, Find(j, part, 0).value, Find(k, part, 0).value);
  }

  /** Keys without the part are rewritten differently. */
  lemma AppendedApart(j: string, k: string, part: string)
    requires part != [] && |part| <= |j| + 1 && |part| <= |k| + 1 && !Contains(j, part) && !Contains(k, part)
    requires Rewrite(j, part) == Rewrite(k, part)
    ensures j == k
  {
    assert Rewrite(j, part)[..|j|] == j && Rewrite(k, part)[..|k|] == k;
  }

  /** An entry of the identifier that has a value. */
  predicate IsEntry(m: Entries, name: string, identifier: string, j: string) {
    j in m && Contains(j, IdentifierSection(Lower(name), Lower(identifier))) && FirstWord(m[j]) != []
  }

  /** No two entries of the identifier become the same key. */
  ghost predicate StayApart(m: Entries, name: string, identifier: string) {
    forall j, k, key ::
      ComesFrom(m, name, identifier, key, j) && ComesFrom(m, name, identifier, key, k) ==> j == k
  }

  /** No key of an entry is another one with the identifier moved to a later dot. */
  predicate NoneRelated(m: Entries, name: string, identifier: string) {
    forall j, k :: j in m && k in m && IsEntry(m, name, identifier, j) && IsEntry(m, name, identifier, k) ==>
      !Related(j, k, IdentifierPart(identifier))
  }

  lemma EntryComes(m: Entries, name: string, identifier: string, j: string)
    requires identifier != "" && IsEntry(m, name, identifier, j)
    ensures |IdentifierPart(identifier)| <= |j| + 1
    ensures ComesFrom(m, name, identifier, Rewrite(j, IdentifierPart(identifier)), j)
  {
    PartOfSection(j, Lower(name), Lower(identifier));
  }

  /** Either all keys of the section contain the part, or (for an identifier with capitals) none does. */
  lemma AllOrNone(m: Entries, name: string, identifier: string, j: string)
    requires WellFormed(m) && IsEntry(m, name, identifier, j)
    ensures Contains(j, IdentifierPart(identifier)) <==> Lower(identifier) == identifier
  {
    if Lower(identifier) == identifier {
      PartOfSection(j, Lower(name), identifier);
    } else if Contains(j, IdentifierPart(identifier)) {
      ContainedIsLower(j, IdentifierPart(identifier));
      LowerPart(identifier);
    }
  }

  lemma PairApartIff(m: Entries, name: string, identifier: string, j: string, k: string)
    requires WellFormed(m) && IsEntry(m, name, identifier, j) && IsEntry(m, name, identifier, k)
    requires var part := IdentifierPart(identifier); |part| <= |j| + 1 && |part| <= |k| + 1
    ensures var part := IdentifierPart(identifier);
            j != k && Rewrite(j, part) == Rewrite(k, part) <==> Related(j, k, part)
  {
    AllOrNone(m, name, identifier, j);
    AllOrNone(m, name, identifier, k);
    var part := IdentifierPart(identifier);
    if Lower(identifier) == identifier {
      CollideIff(j, k, part);
    } else if Rewrite(j, part) == Rewrite(k, part) {
      AppendedApart(j, k, part);
    }
  }

  /** For every configuration that was read, every name and every identifier: no two entries of the
      identifier become the same key if and only if no two of their keys are so related. */
  lemma StayApartIff(m: Entries, name: string, identifier: string)
    requires WellFormed(m) && identifier != ""
    ensures StayApart(m, name, identifier) <==> NoneRelated(m, name, identifier)
  {
    var part := IdentifierPart(identifier);
    if NoneRelated(m, name, identifier) {
      forall j, k, key | ComesFrom(m, name, identifier, key, j) && ComesFrom(m, name, identifier, key, k)
        ensures j == k
      {
        PairApartIff(m, name, identifier, j, k);
      }
    }
    if StayApart(m, name, identifier) {
      forall j, k | j in m && k in m && IsEntry(m, name, identifier, j) && IsEntry(m, name, identifier, k)
        ensures !Related(j, k, part)
      {
        EntryComes(m, name, identifier, j);
        EntryComes(m, name, identifier, k);
        PairApartIff(m, name, identifier, j, k);
      }
    }
  }

  /** Such keys in one section, for any names `a` and `b` without a colon. */
  lemma TwoEntriesOneKey(a: string, b: string, identifier: string)
    requires ':' !in a && ':' !in b
    ensures var part := IdentifierPart(identifier);
            var j := a + part + (b + "." + (a + part));
            var k := (a + "." + b) + part + (a + part);
            && j != k && Contains(j, a + part) && Contains(k, a + part)
            && |part| <= |j| + 1 && |part| <= |k| + 1 && Rewrite(j, part) == Rewrite(k, part)
  {
    var part := IdentifierPart(identifier);
    var section := IdentifierSection(a, identifier);
    var j := a + part + (b + "." + (a + part));
    var k := (a + "." + b) + part + (a + part);
    RewriteOfOwnSection(a, identifier, b + "." + (a + part));
    RewriteOfOwnSection(a + "." + b, identifier, a + part);
    Regrouped(a, b, a + part);
    StartIsContained(j, section);
    EndIsContained((a + "." + b) + part, section);
    assert j[|a|] == ':' && k[|a|] == '.';
  }

  lemma Regrouped(a: string, b: string, c: string)
    ensures ModuleSection(a) + (b + "." + c) == ModuleSection(a + "." + b) + c
  { }

  lemma EndIsContained(s: string, t: string)
    ensures Contains(s + t, t)
  {
    assert OccursAt(s + t, t, |s|);
  }

  lemma ContainedIsLower(key: string, part: string)
    requires Lower(key) == key && Contains(key, part)
    ensures Lower(part) == part
  { }

  lemma LowerPart(identifier: string)
    requires Lower(IdentifierPart(identifier)) == IdentifierPart(identifier)
    ensures Lower(identifier) == identifier
  {
    var part := IdentifierPart(identifier);
    LowerKeys(part);
    forall i | 0 <= i < |identifier| ensures ToLower(identifier[i]) == identifier[i] {
      assert part[i + 1] == identifier[i];
    }
  }

  /** An identifier with a capital letter is never found in a key, as keys are in lower case: nothing is
      taken out, and the end of the key is repeated behind it. */
  lemma CapitalIdentifier(m: Entries, name: string, identifier: string, k: string, j: string)
    requires WellFormed(m) && Lower(identifier) != identifier
    ensures ComesFrom(m, name, identifier, k, j) <==>
            && j in m && Contains(j, IdentifierSection(Lower(name), Lower(identifier)))
            && FirstWord(m[j]) != []
            && |identifier| + 1 <= |j| && k == j + "." + j[|identifier| + 1..]
  {
    var part := IdentifierPart(identifier);
    if j in m {
      if Contains(j, part) {
        ContainedIsLower(j, part);
        LowerPart(identifier);
      }
      assert |part| <= |j| + 1 ==> Rewrite(j, part) == j + "." + j[|identifier| + 1..];
    }
  }
}

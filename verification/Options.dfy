/**
 The managed level given on the command line, and the modules the configuration excludes from pulses.
 */
module SuperComponentOptions {
  import opened Wrappers
  import opened StringToolbox
  import opened KeyValueConfigurations

  datatype Level = Unmanaged | Pulse | PulseShift | PulseTime | PulseTimeAck | Simulation | SimulationRealTime

  function NameOf(level: Level): string {
    match level
    case Unmanaged => "none"
    case Pulse => "pulse"
    case PulseShift => "pulse_shift"
    case PulseTime => "pulse_time"
    case PulseTimeAck => "pulse_time_ack"
    case Simulation => "simulation"
    case SimulationRealTime => "simulation_rt"
  }

  predicate WaitsForAcknowledgement(level: Level) {
    level == PulseTimeAck || level == Simulation || level == SimulationRealTime
  }

  const EXCLUDE := "supercomponent.pulsetimeack.exclude"

  /** The excluded names: the value's first word in lower case, split at commas. */
  function IgnoreList(value: string): seq<string> {
    SplitOf(Lower(FirstWord(value)), ',')
  }

  /** A module is not pulsed if its name in lower case is listed. */
  predicate Skipped(name: string, modulesToIgnore: seq<string>) {
    Lower(name) in modulesToIgnore
  }

  class Options {
    var managedLevel: Level
    var modulesToIgnore: seq<string>

    constructor ()
      ensures managedLevel == Unmanaged && modulesToIgnore == []
    {
      managedLevel := Unmanaged;
      modulesToIgnore := [];
    }

    /** `managed` is the value on the command line, if there is one. A word that names no level leaves the
        level as it is; the exclusions are read only for levels that wait for acknowledgements. */
    method Parse(managed: Option<string>, configuration: KeyValueConfiguration)
      modifies this
      ensures managedLevel ==
              if managed.None? then old(managedLevel)
              else
                var word := Lower(Trim(FirstWord(managed.value)));
                if word == "none" then Unmanaged
                else if word == "pulse" then Pulse
                else if word == "pulse_shift" then PulseShift
                else if word == "pulse_time" then PulseTime
                else if word == "pulse_time_ack" then PulseTimeAck
                else if word == "simulation" then Simulation
                else if word == "simulation_rt" then SimulationRealTime
                else old(managedLevel)
      ensures modulesToIgnore ==
              if && managed.Some?
                 && Lower(Trim(FirstWord(managed.value))) in ["pulse_time_ack", "simulation", "simulation_rt"]
                 && "supercomponent.pulsetimeack.exclude" in configuration.entries
                 && configuration.entries["supercomponent.pulsetimeack.exclude"] != ""
              then IgnoreList(configuration.entries["supercomponent.pulsetimeack.exclude"])
              else old(modulesToIgnore)
    {
      if managed.None? { return; }
      ExcludeIsLower();
      LevelWords();
      var word := TrimInPlace(FirstWord(managed.value));
      var waits;
      managedLevel, waits := ParseLevel(word, managedLevel);
      if waits {
        var s := configuration.GetValue(EXCLUDE);
        if s.Some? {
          modulesToIgnore := Split(Lower(s.value), ',');
        }
      }
    }
  }

  /** `level` is the level the word names in any case; a word that names none leaves `before`. */
  ghost predicate LevelNamed(word: string, before: Level, level: Level) {
    && (forall l :: Lower(word) == NameOf(l) ==> level == l)
    && (level != before ==> Lower(word) == NameOf(level))
  }

  /** The chain of comparisons; `waits` when the word names a level that waits for acknowledgements. */
  method ParseLevel(word: string, before: Level) returns (level: Level, waits: bool)
    ensures LevelNamed(word, before, level)
    ensures waits <==> WaitsForAcknowledgement(level) && Lower(word) == NameOf(level)
  {
    level, waits := before, false;
    forall l { NamesAreLower(l); }
    forall l, k { NamesAreDistinct(l, k); }
    var none := EqualsIgnoreCase(word, NameOf(Unmanaged));
    if none { level := Unmanaged; }
    var pulse := EqualsIgnoreCase(word, NameOf(Pulse));
    if pulse { level := Pulse; }
    var shift := EqualsIgnoreCase(word, NameOf(PulseShift));
    if shift { level := PulseShift; }
    var time := EqualsIgnoreCase(word, NameOf(PulseTime));
    if time { level := PulseTime; }
    var ack := EqualsIgnoreCase(word, NameOf(PulseTimeAck));
    var simulation := EqualsIgnoreCase(word, NameOf(Simulation));
    var realTime := EqualsIgnoreCase(word, NameOf(SimulationRealTime));
    if ack || simulation || realTime {
      if ack { level := PulseTimeAck; }
      if simulation { level := Simulation; }
      if realTime { level := SimulationRealTime; }
      waits := true;
    }
  }

  lemma ExcludeIsLower()
    ensures Lower(EXCLUDE) == "supercomponent.pulsetimeack.exclude"
  { }

  lemma LevelWords()
    ensures NameOf(Unmanaged) == "none" && NameOf(Pulse) == "pulse" && NameOf(PulseShift) == "pulse_shift"
    ensures NameOf(PulseTime) == "pulse_time" && NameOf(PulseTimeAck) == "pulse_time_ack"
    ensures NameOf(Simulation) == "simulation" && NameOf(SimulationRealTime) == "simulation_rt"
    ensures forall l :: WaitsForAcknowledgement(l) <==> NameOf(l) in ["pulse_time_ack", "simulation", "simulation_rt"]
  { }

  lemma NamesAreLower(level: Level)
    ensures Lower(NameOf(level)) == NameOf(level)
  { }

  /** All names have different lengths, except two that differ in their first letter. */
  lemma NamesAreDistinct(a: Level, b: Level)
    ensures NameOf(a) == NameOf(b) <==> a == b
  { }

  // ---------------------------------------------------------------- who is excluded

  /** A module is skipped exactly if there is a comma in the first word of the value, and one of the pieces
      between commas is its name in any case. */
  lemma SkippedIff(value: string, name: string)
    ensures var w := FirstWord(value);
            Skipped(name, IgnoreList(value)) <==>
            ',' in w && name != "" && exists p :: p in Pieces(w, ',') && Lower(p) == Lower(name)
  {
    var w := FirstWord(value);
    LowerMember(w, ',');
    LowerCommutesWithPieces(w, ',');
    NonEmptyMembers(Pieces(Lower(w), ','), Lower(name));
    assert (Lower(name) == []) == (name == []);
    LowerAllMembers(Pieces(w, ','), Lower(name));
  }

  lemma LowerAllMembers(p: seq<string>, t: string)
    ensures t in LowerAll(p) <==> exists q :: q in p && Lower(q) == t
  { }

  predicate IsName(n: string) {
    n != [] && ',' !in n && forall c :: c in n ==> !IsSpace(c)
  }

  lemma FirstWordOf(w: string, rest: string)
    requires w != [] && (forall c :: c in w ==> !IsSpace(c)) && (rest == [] || IsSpace(rest[0]))
    ensures FirstWord(w + rest) == w
  {
    assert w[0] in w && (w + rest)[0] == w[0];
    TakeWordOf(w, rest);
  }

  lemma {:induction false} JoinHasNoSpace(names: seq<string>)
    requires names != [] && forall n :: n in names ==> IsName(n)
    ensures Join(names, ',') != [] && forall c :: c in Join(names, ',') ==> !IsSpace(c)
    decreases |names|
  {
    assert names[0] in names;
    if |names| > 1 {
      assert forall n | n in names[1..] :: n in names;
      JoinHasNoSpace(names[1..]);
    }
  }

  /** A list of names joined by commas excludes exactly the listed modules, in any case of their names, if it
      lists two or more. A single name excludes none, not even itself. */
  lemma ListedNamesAreSkipped(names: seq<string>, name: string)
    requires names != [] && forall n :: n in names ==> IsName(n)
    ensures Skipped(name, IgnoreList(Join(names, ','))) <==>
            |names| >= 2 && exists n :: n in names && Lower(n) == Lower(name)
  {
    var value := Join(names, ',');
    JoinHasNoSpace(names);
    FirstWordOf(value, []);
    assert value + [] == value;
    SkippedIff(value, name);
    PiecesOfJoin(names, ',');
    if |names| >= 2 {
      assert value[|names[0]|] == ',';
    } else {
      assert value == names[0] && names[0] in names;
    }
    assert forall n | n in names && Lower(n) == Lower(name) :: |n| == |name|;
  }

  /** A blank ends the list: what follows the first comma and blank is not excluded, and with the comma
      left over even a single name before it is. */
  lemma BlankEndsTheList(names: seq<string>, rest: string, name: string)
    requires names != [] && (forall n :: n in names ==> IsName(n))
    ensures Skipped(name, IgnoreList(Join(names, ',') + ", " + rest)) <==>
            exists n :: n in names && Lower(n) == Lower(name)
  {
    var joined, value := Join(names, ','), Join(names, ',') + ", " + rest;
    JoinHasNoSpace(names);
    assert value == (joined + ",") + (" " + rest);
    FirstWordOf(joined + ",", " " + rest);
    SkippedIff(value, name);
    PiecesOfJoined(names);
    assert forall n | n in names && Lower(n) == Lower(name) :: |n| == |name|;
    assert forall p :: p in names + [[]] <==> p in names || p == [];
    assert name != "" ==> Lower(name) != Lower([]);
    assert ',' in joined + ",";
  }

  lemma PiecesOfJoined(names: seq<string>)
    requires names != [] && forall n :: n in names ==> IsName(n)
    ensures Pieces(Join(names, ',') + ",", ',') == names + [[]]
  {
    JoinAppend(names);
    PiecesOfJoin(names + [[]], ',');
  }

  lemma {:induction false} JoinAppend(names: seq<string>)
    requires names != []
    ensures Join(names + [[]], ',') == Join(names, ',') + ","
    decreases |names|
  {
    if |names| == 1 {
      assert (names + [[]])[1..] == [[]];
      assert Join([[]], ',') == [];
    } else {
      assert (names + [[]])[1..] == names[1..] + [[]];
      JoinAppend(names[1..]);
    }
  }
}

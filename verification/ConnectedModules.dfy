/**
 The registry of connected modules: adding, looking up and removing them, and the four ways of pulsing
 them. Messages sent to modules are results of the methods; what a module answers is a parameter.
 */
module ConnectedModules {
  import opened Wrappers
  import opened StringOrder
  import opened StringToolbox
  import opened TimeStamps
  import Lifecycle

  datatype Descriptor = Descriptor(name: string, identifier: string, version: string, frequency: string) {
    /** Descriptors are compared by this text. */
    function ToString(): string {
      name + "[" + identifier + "]" + version + "@" + frequency
    }
  }

  /** A descriptor whose fields cannot be mistaken in its text. */
  predicate Unmistakable(d: Descriptor) {
    '[' !in d.name && ']' !in d.identifier && '@' !in d.version
  }

  lemma SplitsAt(a: string, b: string, c: char, x: string, y: string)
    requires c !in a && c !in x && a + [c] + b == x + [c] + y
    ensures a == x && b == y
  {
    assert (a + [c] + b)[|a|] == c && (x + [c] + y)[|x|] == c;
    assert (a + [c] + b)[..|a|] == a && (x + [c] + y)[..|x|] == x;
    assert (a + [c] + b)[|a| + 1..] == b && (x + [c] + y)[|x| + 1..] == y;
  }

  lemma TextIs(d: Descriptor)
    ensures d.ToString() == d.name + ['['] + (d.identifier + [']'] + (d.version + ['@'] + d.frequency))
  { }

  /** The text of such a descriptor is that of no other one. */
  lemma SameTextIff(d: Descriptor, e: Descriptor)
    requires Unmistakable(d) && Unmistakable(e)
    ensures d.ToString() == e.ToString() <==> d == e
  {
    TextIs(d);
    TextIs(e);
    if d.ToString() == e.ToString() {
      SplitsAt(d.name, d.identifier + [']'] + (d.version + ['@'] + d.frequency), '[',
               e.name, e.identifier + [']'] + (e.version + ['@'] + e.frequency));
      SplitsAt(d.identifier, d.version + ['@'] + d.frequency, ']', e.identifier, e.version + ['@'] + e.frequency);
      SplitsAt(d.version, d.frequency, '@', e.version, e.frequency);
    }
  }

  /** Otherwise two modules can have the same text, and the registry takes the second for the first. */
  lemma MistakenForEachOther()
    ensures var d, e := Descriptor("a", "b", "1@2", "3"), Descriptor("a", "b", "1", "2@3");
            d != e && d.ToString() == e.ToString() == "a[b]1@2@3"
  {
    assert Descriptor("a", "b", "1@2", "3").ToString() == "a[b]1@2@3";
    assert Descriptor("a", "b", "1", "2@3").ToString() == "a[b]1@2@3";
    assert "1@2" != "1" by { assert |"1@2"| != |"1"|; }
  }

  datatype ModuleState = NotRunning | Running | UndefinedState

  datatype Container = Container(dataType: int, data: string)

  datatype PulseMessage = PulseMessage(
    time: TimeStamp,
    nominalTimeSlice: int,
    cumulatedTimeSlice: int,
    containers: seq<Container>)

  datatype Delivery = Delivery(to: string, message: PulseMessage)

  // ---------------------------------------------------------------- what is sent

  /** The same message to every key, in order. */
  function Broadcast(keys: seq<string>, message: PulseMessage): (sent: seq<Delivery>)
    ensures |sent| == |keys| && forall i :: 0 <= i < |keys| ==> sent[i] == Delivery(keys[i], message)
  {
    seq(|keys|, i requires 0 <= i < |keys| => Delivery(keys[i], message))
  }

  /** The factor of the shift is a 32-bit product, read as a signed number of microseconds. */
  function ShiftOf(shift: nat, i: nat): TimeStamp {
    TimeStamp(0, ToInt32(ToUint32(shift * i)))
  }

  function ShiftedBroadcast(keys: seq<string>, message: PulseMessage, shift: nat): (sent: seq<Delivery>)
    ensures |sent| == |keys|
    ensures forall i :: 0 <= i < |keys| ==>
              sent[i] == Delivery(keys[i], message.(time := message.time.Plus(ShiftOf(shift, i))))
  {
    seq(|keys|, i requires 0 <= i < |keys| => Delivery(keys[i], message.(time := message.time.Plus(ShiftOf(shift, i)))))
  }

  predicate Ignored(descriptors: map<string, Descriptor>, key: string, modulesToIgnore: seq<string>) {
    key in descriptors && Lower(descriptors[key].name) in modulesToIgnore
  }

  /** The keys that are not ignored, in the order of the keys. */
  function Eligible(descriptors: map<string, Descriptor>, keys: seq<string>,
                    modulesToIgnore: seq<string>): (r: seq<string>)
    ensures forall k :: k in r <==> k in keys && !Ignored(descriptors, k, modulesToIgnore)
    decreases |keys|
  {
    if keys == [] then []
    else
      var n := |keys| - 1;
      var front := Eligible(descriptors, keys[..n], modulesToIgnore);
      if Ignored(descriptors, keys[n], modulesToIgnore) then front else front + [keys[n]]
  }

  /** What the modules answer; one without an answer before its timeout returns no containers. */
  function Reply(replies: map<string, seq<Container>>, key: string): seq<Container> {
    if key in replies then replies[key] else []
  }

  function Replies(replies: map<string, seq<Container>>, keys: seq<string>): seq<Container>
    decreases |keys|
  {
    if keys == [] then []
    else Replies(replies, keys[..|keys| - 1]) + Reply(replies, keys[|keys| - 1])
  }

  // ---------------------------------------------------------------- what the answers hold

  /** How many containers the first n of these modules answer; one without an answer none. */
  function Answered(replies: map<string, seq<Container>>, keys: seq<string>, n: nat): nat
    requires n <= |keys|
  {
    if n == 0 then 0
    else Answered(replies, keys, n - 1) + if keys[n - 1] in replies then |replies[keys[n - 1]]| else 0
  }

  /** The j-th container the i-th module answers stands in `all` behind `before` others and behind all those of
      the modules before it. */
  predicate HoldsContainer(replies: map<string, seq<Container>>, keys: seq<string>, all: seq<Container>, before: nat,
                           i: nat, j: nat)
    requires i < |keys| && keys[i] in replies && j < |replies[keys[i]]|
  {
    var at := before + Answered(replies, keys, i) + j;
    at < |all| && all[at] == replies[keys[i]][j]
  }

  /** `all` are the answers of these modules, complete and in order, and nothing else. */
  predicate HoldsAnswers(replies: map<string, seq<Container>>, keys: seq<string>, all: seq<Container>) {
    && |all| == Answered(replies, keys, |keys|)
    && forall i, j :: 0 <= i < |keys| && keys[i] in replies && 0 <= j < |replies[keys[i]]| ==>
         HoldsContainer(replies, keys, all, 0, i, j)
  }

  lemma {:induction false} AnsweredEarlier(replies: map<string, seq<Container>>, p: seq<string>, key: string, n: nat)
    requires n <= |p|
    ensures Answered(replies, p + [key], n) == Answered(replies, p, n)
    decreases n
  {
    if n > 0 { AnsweredEarlier(replies, p, key, n - 1); }
  }

  /** The same containers in a longer sequence. */
  lemma HeldInside(replies: map<string, seq<Container>>, keys: seq<string>, part: seq<Container>, all: seq<Container>,
                   before: nat, i: nat, j: nat)
    requires i < |keys| && keys[i] in replies && j < |replies[keys[i]]| && HoldsContainer(replies, keys, part, 0, i, j)
    requires before + |part| <= |all| && part == all[before..before + |part|]
    ensures HoldsContainer(replies, keys, all, before, i, j)
  {
    var x := Answered(replies, keys, i) + j;
    assert all[before + x] == all[before..before + |part|][x];
  }

  lemma OneMoreAnswer(replies: map<string, seq<Container>>, p: seq<string>, key: string, all: seq<Container>)
    requires HoldsAnswers(replies, p, all)
    ensures HoldsAnswers(replies, p + [key], all + if key in replies then replies[key] else [])
  {
    var keys, all' := p + [key], all + if key in replies then replies[key] else [];
    AnsweredEarlier(replies, p, key, |p|);
    forall i, j | 0 <= i < |keys| && keys[i] in replies && 0 <= j < |replies[keys[i]]|
      ensures HoldsContainer(replies, keys, all', 0, i, j)
    {
      AnsweredEarlier(replies, p, key, i);
      if i < |p| { assert HoldsContainer(replies, p, all, 0, i, j); }
    }
  }

  lemma {:induction false} RepliesHoldAnswers(replies: map<string, seq<Container>>, keys: seq<string>)
    ensures HoldsAnswers(replies, keys, Replies(replies, keys))
    decreases |keys|
  {
    if keys != [] {
      var n := |keys| - 1;
      RepliesHoldAnswers(replies, keys[..n]);
      OneMoreAnswer(replies, keys[..n], keys[n], Replies(replies, keys[..n]));
      assert keys == keys[..n] + [keys[n]];
    }
  }

  lemma AnswersAreHeld(replies: map<string, seq<Container>>, keys: seq<string>, all: seq<Container>)
    requires all == Replies(replies, keys)
    ensures HoldsAnswers(replies, keys, all)
  {
    RepliesHoldAnswers(replies, keys);
  }

  lemma AnswersLength(replies: map<string, seq<Container>>, keys: seq<string>)
    ensures |Replies(replies, keys)| == Answered(replies, keys, |keys|)
  {
    RepliesHoldAnswers(replies, keys);
  }

  lemma AnswerIsHeld(replies: map<string, seq<Container>>, keys: seq<string>, all: seq<Container>, i: nat, j: nat)
    requires all == Replies(replies, keys) && i < |keys| && keys[i] in replies && j < |replies[keys[i]]|
    ensures HoldsContainer(replies, keys, all, 0, i, j)
  {
    RepliesHoldAnswers(replies, keys);
  }

  // ---------------------------------------------------------------- the registry

  predicate NamedBy(key: string, d: Descriptor) {
    d.ToString() == key
  }

  /** Every key is the text of its descriptor. */
  ghost predicate Named(descriptors: map<string, Descriptor>) {
    forall k {:trigger NamedBy(k, descriptors[k])} :: k in descriptors ==> NamedBy(k, descriptors[k])
  }

  /** The descriptors after adding one: a text that is already there keeps its descriptor. */
  function WithDescriptor(descriptors: map<string, Descriptor>, md: Descriptor): map<string, Descriptor> {
    if md.ToString() in descriptors then descriptors else descriptors[md.ToString() := md]
  }

  lemma StillNamed(descriptors: map<string, Descriptor>, md: Descriptor)
    requires Named(descriptors)
    ensures Named(WithDescriptor(descriptors, md)) && Named(descriptors - {md.ToString()})
  {
    var added, removed := WithDescriptor(descriptors, md), descriptors - {md.ToString()};
    forall k | k in added ensures NamedBy(k, added[k]) {
      if k in descriptors { assert NamedBy(k, descriptors[k]); }
    }
    forall k | k in removed ensures NamedBy(k, removed[k]) {
      assert NamedBy(k, descriptors[k]);
    }
  }

  class ConnectedModule {
    var state: ModuleState
    var hasExitCode: bool
    /** Whether the supercomponent listens to the module's connection. */
    var listening: bool

    constructor (state: ModuleState)
      ensures this.state == state && !hasExitCode && !listening
    {
      this.state := state;
      hasExitCode := false;
      listening := false;
    }
  }

  class ConnectedModules {
    /** The map from descriptors to pointers, as the descriptors' texts and what each text stands for. */
    var modules: Lifecycle.Registry<ConnectedModule>
    var descriptors: map<string, Descriptor>

    ghost predicate Valid()
      reads this
    {
      modules.Keys == descriptors.Keys && Named(descriptors)
    }

    constructor ()
      ensures Valid() && modules == map[] && descriptors == map[]
    {
      modules, descriptors := map[], map[];
    }

    /** A key that is already there keeps its descriptor. */
    method AddModule(md: Descriptor, m: Option<ConnectedModule>)
      requires Valid()
      modifies this
      ensures Valid() && modules == Lifecycle.Add(old(modules), md.ToString(), m)
      ensures descriptors == WithDescriptor(old(descriptors), md)
    {
      var key := md.ToString();
      StillNamed(descriptors, md);
      if key !in descriptors {
        descriptors := descriptors[key := md];
      }
      modules := modules[key := m];
    }

    /** Looking up a descriptor that is not there inserts NULL. */
    method GetModule(md: Descriptor) returns (m: Option<ConnectedModule>)
      requires Valid()
      modifies this
      ensures Valid() && (modules, m) == Lifecycle.Get(old(modules), md.ToString())
      ensures descriptors == WithDescriptor(old(descriptors), md)
    {
      var key := md.ToString();
      StillNamed(descriptors, md);
      if key !in modules {
        descriptors := descriptors[key := md];
        modules := modules[key := None];
      }
      m := modules[key];
    }

    method RemoveModule(md: Descriptor)
      requires Valid()
      modifies this
      ensures Valid() && modules == Lifecycle.Remove(old(modules), md.ToString())
      ensures descriptors == old(descriptors) - {md.ToString()}
    {
      var key := md.ToString();
      StillNamed(descriptors, md);
      modules := modules - {key};
      descriptors := descriptors - {key};
    }

    method HasModule(md: Descriptor) returns (has: bool)
      requires Valid()
      ensures has <==> md.ToString() in modules
    {
      has := md.ToString() in modules;
    }

    /** Every module is sent the message once. */
    method Pulse(pm: PulseMessage) returns (sent: seq<Delivery>)
      requires Valid() && Lifecycle.NoNull(modules)
      ensures sent == Broadcast(SortedKeys(modules.Keys), pm)
    {
      sent := [];
      var keys, i := SortedKeys(modules.Keys), 0;
      while i < |keys|
        invariant 0 <= i <= |keys| && sent == Broadcast(keys[..i], pm)
      {
        sent := sent + [Delivery(keys[i], pm)];
        i := i + 1;
      }
      TakeAll(keys);
    }

    /** Every module is sent the message once, each with a later time than the one before. */
    method PulseShift(pm: PulseMessage, shift: nat) returns (sent: seq<Delivery>)
      requires Valid() && Lifecycle.NoNull(modules)
      ensures sent == ShiftedBroadcast(SortedKeys(modules.Keys), pm, shift)
    {
      sent := [];
      var keys, i := SortedKeys(modules.Keys), 0;
      var connectedModulesCounter := 0;
      var shifted, original := pm, pm.time;
      while i < |keys|
        invariant 0 <= i <= |keys| && connectedModulesCounter == ToUint32(i)
        invariant shifted == pm.(time := shifted.time)
        invariant sent == ShiftedBroadcast(keys[..i], pm, shift)
      {
        CounterWraps(shift, i);
        var ts := TimeStamp(0, ToInt32(ToUint32(shift * connectedModulesCounter)));
        var shiftedTime := Add(original, ts);
        shifted := shifted.(time := shiftedTime);
        sent := sent + [Delivery(keys[i], shifted)];
        connectedModulesCounter := ToUint32(connectedModulesCounter + 1);
        i := i + 1;
      }
      TakeAll(keys);
    }

    /** Every module that is not ignored is sent the message once, one after the other. */
    method PulseAck(pm: PulseMessage, modulesToIgnore: seq<string>) returns (sent: seq<Delivery>)
      requires Valid() && Lifecycle.NoNull(modules)
      ensures sent == Broadcast(Eligible(descriptors, SortedKeys(modules.Keys), modulesToIgnore), pm)
    {
      sent := [];
      var keys, i := SortedKeys(modules.Keys), 0;
      while i < |keys|
        invariant 0 <= i <= |keys|
        invariant sent == Broadcast(Eligible(descriptors, keys[..i], modulesToIgnore), pm)
      {
        assert keys[i] in keys;
        SentNext(descriptors, keys, i, modulesToIgnore, pm);
        var s := Lower(descriptors[keys[i]].name);
        if s !in modulesToIgnore {
          sent := sent + [Delivery(keys[i], pm)];
        }
        i := i + 1;
      }
      TakeAll(keys);
    }

    /** The same, and the containers the modules return, one module's after the other's. */
    method PulseAckContainers(pm: PulseMessage, modulesToIgnore: seq<string>, replies: map<string, seq<Container>>)
      returns (sent: seq<Delivery>, all: seq<Container>)
      requires Valid() && Lifecycle.NoNull(modules)
      ensures var eligible := Eligible(descriptors, SortedKeys(modules.Keys), modulesToIgnore);
              && sent == Broadcast(eligible, pm)
              && all == Replies(replies, eligible) && HoldsAnswers(replies, eligible, all)
    {
      sent, all := [], [];
      var keys, i := SortedKeys(modules.Keys), 0;
      while i < |keys|
        invariant 0 <= i <= |keys| && Acked(descriptors, keys[..i], modulesToIgnore, pm, replies, sent, all)
      {
        assert keys[i] in keys;
        AckedNext(descriptors, keys, i, modulesToIgnore, pm, replies, sent, all);
        var s := Lower(descriptors[keys[i]].name);
        if s !in modulesToIgnore {
          sent := sent + [Delivery(keys[i], pm)];
          all := all + Reply(replies, keys[i]);
        }
        i := i + 1;
      }
      TakeAll(keys);
      RepliesHoldAnswers(replies, Eligible(descriptors, SortedKeys(modules.Keys), modulesToIgnore));
    }

    /** Stops listening to every module and deletes it. */
    method DeleteAllModules() returns (deleted: seq<ConnectedModule>)
      requires Valid() && Lifecycle.NoNull(modules)
      modifies this, Lifecycle.Modules(modules)
      ensures Valid() && modules == map[]
      ensures Lifecycle.Deleted(old(modules)) == Some(deleted)
      ensures forall m :: m in deleted ==> !m.listening
    {
      deleted := [];
      var keys, i := SortedKeys(modules.Keys), 0;
      ghost var r := modules;
      ghost var all := ListPointees(r);
      while i < |keys|
        invariant 0 <= i <= |keys| && modules == r && deleted == all[..i]
        invariant forall m :: m in deleted ==> !m.listening
      {
        var m := modules[keys[i]].value;
        assert m in Lifecycle.Modules(r);
        TakeNext(all, i);
        m.listening := false;
        deleted := deleted + [m];
        i := i + 1;
      }
      TakeAll(all);
      modules, descriptors := map[], map[];
    }
  }

  lemma {:induction false} PointeesAt(r: Lifecycle.Registry<ConnectedModule>, keys: seq<string>)
    requires Lifecycle.NoNull(r) && forall k :: k in keys ==> k in r
    ensures |Lifecycle.Pointees(r, keys)| == |keys|
    ensures forall i :: 0 <= i < |keys| ==> keys[i] in r && Lifecycle.Pointees(r, keys)[i] == r[keys[i]].value
    decreases |keys|
  {
    if keys != [] {
      assert forall k | k in keys[1..] :: k in keys;
      PointeesAt(r, keys[1..]);
    }
  }

  lemma ListPointees(r: Lifecycle.Registry<ConnectedModule>) returns (all: seq<ConnectedModule>)
    requires Lifecycle.NoNull(r)
    ensures Lifecycle.Deleted(r) == Some(all) && |all| == |SortedKeys(r.Keys)|
    ensures forall i :: 0 <= i < |all| ==> SortedKeys(r.Keys)[i] in r && all[i] == r[SortedKeys(r.Keys)[i]].value
  {
    all := Lifecycle.Pointees(r, SortedKeys(r.Keys));
    PointeesAt(r, SortedKeys(r.Keys));
  }

  lemma CounterWraps(shift: nat, i: nat)
    ensures ToUint32(shift * ToUint32(i)) == ToUint32(shift * i)
    ensures ToUint32(ToUint32(i) + 1) == ToUint32(i + 1)
  {
    var q, r := i / TWO_32, i % TWO_32;
    assert shift * i == shift * r + (shift * q) * TWO_32;
    Remainder(shift * r, shift * q);
    Remainder(r + 1, q);
  }

  lemma Remainder(x: int, k: int)
    ensures (x + k * TWO_32) % TWO_32 == x % TWO_32
  { }

  lemma TakeNext<T>(s: seq<T>, i: nat)
    requires i < |s|
    ensures s[..i + 1] == s[..i] + [s[i]]
  { }

  lemma TakeAll<T>(s: seq<T>)
    ensures s[..|s|] == s
  { }

  lemma EligibleNext(descriptors: map<string, Descriptor>, keys: seq<string>, i: nat, modulesToIgnore: seq<string>)
    requires i < |keys|
    ensures Eligible(descriptors, keys[..i + 1], modulesToIgnore) ==
            var front := Eligible(descriptors, keys[..i], modulesToIgnore);
            if Ignored(descriptors, keys[i], modulesToIgnore) then front else front + [keys[i]]
  {
    assert keys[..i + 1][..i] == keys[..i];
  }

  lemma SentNext(descriptors: map<string, Descriptor>, keys: seq<string>, i: nat, modulesToIgnore: seq<string>,
                 pm: PulseMessage)
    requires i < |keys|
    ensures Broadcast(Eligible(descriptors, keys[..i + 1], modulesToIgnore), pm) ==
            var front := Broadcast(Eligible(descriptors, keys[..i], modulesToIgnore), pm);
            if Ignored(descriptors, keys[i], modulesToIgnore) then front else front + [Delivery(keys[i], pm)]
  {
    EligibleNext(descriptors, keys, i, modulesToIgnore);
    BroadcastNext(Eligible(descriptors, keys[..i], modulesToIgnore), keys[i], pm);
  }

  lemma ReturnedNext(descriptors: map<string, Descriptor>, keys: seq<string>, i: nat, modulesToIgnore: seq<string>,
                     replies: map<string, seq<Container>>)
    requires i < |keys|
    ensures Replies(replies, Eligible(descriptors, keys[..i + 1], modulesToIgnore)) ==
            var front := Replies(replies, Eligible(descriptors, keys[..i], modulesToIgnore));
            if Ignored(descriptors, keys[i], modulesToIgnore) then front else front + Reply(replies, keys[i])
  {
    EligibleNext(descriptors, keys, i, modulesToIgnore);
    RepliesNext(replies, Eligible(descriptors, keys[..i], modulesToIgnore), keys[i]);
  }

  /** What has been sent and returned after these keys. */
  predicate Acked(descriptors: map<string, Descriptor>, keys: seq<string>, modulesToIgnore: seq<string>,
                  pm: PulseMessage, replies: map<string, seq<Container>>, sent: seq<Delivery>, all: seq<Container>)
  {
    var eligible := Eligible(descriptors, keys, modulesToIgnore);
    sent == Broadcast(eligible, pm) && all == Replies(replies, eligible)
  }

  lemma AckedNext(descriptors: map<string, Descriptor>, keys: seq<string>, i: nat, modulesToIgnore: seq<string>,
                  pm: PulseMessage, replies: map<string, seq<Container>>, sent: seq<Delivery>, all: seq<Container>)
    requires i < |keys| && Acked(descriptors, keys[..i], modulesToIgnore, pm, replies, sent, all)
    ensures if Ignored(descriptors, keys[i], modulesToIgnore)
            then Acked(descriptors, keys[..i + 1], modulesToIgnore, pm, replies, sent, all)
            else Acked(descriptors, keys[..i + 1], modulesToIgnore, pm, replies,
                       sent + [Delivery(keys[i], pm)], all + Reply(replies, keys[i]))
  {
    SentNext(descriptors, keys, i, modulesToIgnore, pm);
    ReturnedNext(descriptors, keys, i, modulesToIgnore, replies);
  }

  lemma RepliesNext(replies: map<string, seq<Container>>, p: seq<string>, key: string)
    ensures Replies(replies, p + [key]) == Replies(replies, p) + Reply(replies, key)
  { }

  lemma BroadcastNext(p: seq<string>, key: string, message: PulseMessage)
    ensures Broadcast(p + [key], message) == Broadcast(p, message) + [Delivery(key, message)]
  { }

  // ---------------------------------------------------------------- whom a pulse reaches

  function Recipients(sent: seq<Delivery>): (keys: seq<string>)
    ensures |keys| == |sent| && forall i :: 0 <= i < |sent| ==> keys[i] == sent[i].to
  {
    seq(|sent|, i requires 0 <= i < |sent| => sent[i].to)
  }

  lemma {:induction false} EligibleAscends(descriptors: map<string, Descriptor>, keys: seq<string>,
                                           modulesToIgnore: seq<string>)
    requires Ascending(keys)
    ensures Ascending(Eligible(descriptors, keys, modulesToIgnore))
    decreases |keys|
  {
    if keys != [] {
      var n := |keys| - 1;
      EligibleAscends(descriptors, keys[..n], modulesToIgnore);
      var front := Eligible(descriptors, keys[..n], modulesToIgnore);
      forall k | k in front ensures Less(k, keys[n]) {
        var j :| 0 <= j < n && keys[..n][j] == k;
        assert Less(keys[j], keys[n]);
      }
    }
  }

  lemma {:induction false} AscendingOnce(keys: seq<string>, k: string)
    requires Ascending(keys)
    ensures multiset(keys)[k] == if k in keys then 1 else 0
    decreases |keys|
  {
    if keys != [] {
      TailMembers(keys, k);
      AscendingOnce(keys[1..], k);
      assert keys == [keys[0]] + keys[1..];
      assert multiset(keys) == multiset{keys[0]} + multiset(keys[1..]);
    }
  }

  /** A pulse with acknowledgements reaches every connected module that is not ignored exactly once and no
      other one, in ascending order of the descriptors' texts. */
  lemma ReachesEachOnce(descriptors: map<string, Descriptor>, modulesToIgnore: seq<string>, pm: PulseMessage,
                        key: string)
    ensures var to := Recipients(Broadcast(Eligible(descriptors, SortedKeys(descriptors.Keys), modulesToIgnore), pm));
            && Ascending(to)
            && multiset(to)[key] ==
               if key in descriptors && Lower(descriptors[key].name) !in modulesToIgnore then 1 else 0
  {
    var keys := SortedKeys(descriptors.Keys);
    var eligible := Eligible(descriptors, keys, modulesToIgnore);
    SortedKeysAscend(descriptors.Keys);
    EligibleAscends(descriptors, keys, modulesToIgnore);
    assert Recipients(Broadcast(eligible, pm)) == eligible;
    AscendingOnce(eligible, key);
  }

  /** A pulse without acknowledgements reaches every connected module exactly once, in the same order,
      shifted or not. */
  lemma ReachesAllOnce(connected: set<string>, pm: PulseMessage, shift: nat, key: string)
    ensures var to := Recipients(Broadcast(SortedKeys(connected), pm));
            && Ascending(to) && to == Recipients(ShiftedBroadcast(SortedKeys(connected), pm, shift))
            && multiset(to)[key] == if key in connected then 1 else 0
  {
    var keys := SortedKeys(connected);
    SortedKeysAscend(connected);
    assert Recipients(Broadcast(keys, pm)) == keys == Recipients(ShiftedBroadcast(keys, pm, shift));
    AscendingOnce(keys, key);
  }

  /** Shifting a stamp of the clock by `x` microseconds. */
  lemma ShiftIsExact(time: TimeStamp, x: nat)
    requires FromClock(time) && time.microseconds + x < TWO_31
    ensures time.Plus(TimeStamp(0, ToInt32(ToUint32(x)))).ToMicroseconds() == time.ToMicroseconds() + x
  {
    assert ToUint32(x) == x && ToInt32(x) == x;
    PlusMicroseconds(time, x);
  }

  lemma ShiftIsNotExact(time: TimeStamp, x: nat)
    requires FromClock(time) && time.microseconds + x >= TWO_31
    ensures time.Plus(TimeStamp(0, ToInt32(ToUint32(x)))).ToMicroseconds() != time.ToMicroseconds() + x
  {
    var us := ToInt32(ToUint32(x));
    var total := ToInt32(time.microseconds + us);
    Int32IsExactIff(time.seconds);
    if total >= 0 { ReducedIs(time.seconds, total); }
    assert time.Plus(TimeStamp(0, us)).ToMicroseconds() == time.seconds * ONE_SECOND + total;
  }

  /** The i-th module is told the base time plus i times the shift exactly if the microseconds of both
      together fit in 31 bits. */
  lemma ShiftedTimeIff(keys: seq<string>, pm: PulseMessage, shift: nat, i: nat)
    requires i < |keys| && FromClock(pm.time)
    ensures var time := ShiftedBroadcast(keys, pm, shift)[i].message.time;
            time.ToMicroseconds() == pm.time.ToMicroseconds() + i * shift <==> pm.time.microseconds + i * shift < TWO_31
  {
    var x := shift * i;
    assert x == i * shift && 0 <= x;
    if pm.time.microseconds + x < TWO_31 { ShiftIsExact(pm.time, x); } else { ShiftIsNotExact(pm.time, x); }
  }

  // ---------------------------------------------------------------- the order of connections

  /** The registry after these connections: a text that is there already is not added again. */
  function ConnectAll<M>(connections: seq<(string, M)>): Lifecycle.Registry<M>
    decreases |connections|
  {
    if connections == [] then map[]
    else
      var (key, m) := connections[|connections| - 1];
      var r := ConnectAll(connections[..|connections| - 1]);
      if Lifecycle.Has(r, key) then r else Lifecycle.Add(r, key, Some(m))
  }

  predicate DistinctTexts<M>(connections: seq<(string, M)>) {
    forall i, j :: 0 <= i < j < |connections| ==> connections[i].0 != connections[j].0
  }

  lemma {:induction false} ConnectedIff<M>(connections: seq<(string, M)>, key: string, m: M)
    requires DistinctTexts(connections)
    ensures key in ConnectAll(connections) <==> exists i :: 0 <= i < |connections| && connections[i].0 == key
    ensures key in ConnectAll(connections) && ConnectAll(connections)[key] == Some(m) <==> (key, m) in connections
    decreases |connections|
  {
    if connections != [] {
      var n := |connections| - 1;
      var front, last := connections[..n], connections[n];
      ConnectedIff(front, key, m);
      ConnectedIff(front, last.0, m);
      assert connections == front + [last];
      assert forall i :: 0 <= i < n ==> front[i] == connections[i];
    }
  }

  /** Modules with distinct texts may connect in any order: the registry, and with it the order and the
      contents of every pulse, is the same. */
  lemma OrderOfConnectionIsForgotten<M>(a: seq<(string, M)>, b: seq<(string, M)>)
    requires DistinctTexts(a) && DistinctTexts(b) && multiset(a) == multiset(b)
    ensures ConnectAll(a) == ConnectAll(b)
  {
    SubRegistry(a, b);
    SubRegistry(b, a);
    var r, q := ConnectAll(a), ConnectAll(b);
    assert r.Keys == q.Keys;
    assert forall key | key in r :: r[key] == q[key];
  }

  lemma SubRegistry<M>(a: seq<(string, M)>, b: seq<(string, M)>)
    requires DistinctTexts(a) && DistinctTexts(b) && multiset(a) == multiset(b)
    ensures forall key :: key in ConnectAll(a) ==> key in ConnectAll(b) && ConnectAll(b)[key] == ConnectAll(a)[key]
  {
    forall key | key in ConnectAll(a) ensures key in ConnectAll(b) && ConnectAll(b)[key] == ConnectAll(a)[key] {
      var c := Source(a, key);
      ConnectedIff(a, key, c.1);
      assert c in multiset(a);
      assert c in b;
      ConnectedIff(b, key, c.1);
    }
  }

  lemma {:induction false} Source<M>(connections: seq<(string, M)>, key: string) returns (c: (string, M))
    requires key in ConnectAll(connections)
    ensures c in connections && c.0 == key && ConnectAll(connections)[key] == Some(c.1)
    decreases |connections|
  {
    var n := |connections| - 1;
    var front, last := connections[..n], connections[n];
    if key in ConnectAll(front) {
      c := Source(front, key);
      assert forall x | x in front :: x in connections;
    } else {
      c := last;
    }
  }
}

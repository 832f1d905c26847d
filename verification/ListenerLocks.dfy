/**
 Deleting the modules of a registry, one lock after the other. The loop holds the registry's mutex all the
 time and takes the listener mutex of one connection after the other to take its listener away; a callback
 holds the listener mutex of its connection and takes the registry's mutex section by section.

 So the two can wait for each other for ever, and this module says exactly when. Everything else that
 happens is an interleaving of LockSections, with the sweep at the moment when it lets the registry go.

 A run goes on until the loop has deleted the last module while closing down, where the program ends.
 */
module ListenerLocks {
  import opened Wrappers
  import opened StringOrder
  import opened Lifecycle
  import opened LockSections
  import opened Interleavings

  /** The loop sweeps the shutdown registry, and when it closes down it deletes the active one. */
  datatype Target = ActiveRegistry | ShutdownRegistry

  /** The loop at its `next` key of those of the target, whose mutex it holds. */
  datatype Deleting = Deleting(target: Target, keys: seq<string>, next: nat)

  datatype Threads<M(==)> = Threads(s: State<M>, deleting: Option<Deleting>)

  datatype Turn<M> =
    | BeginCall(key: string, call: Call<M>)
    | Proceed(key: string)  // the next section of a callback
    | Pulse
    | Lock(target: Target)
    | Delete
    | Unlock

  function Ready<M>(): Threads<M> {
    Threads(Start(), None)
  }

  function RegistryOf<M>(c: Coordinator<M>, target: Target): Registry<M> {
    match target
    case ActiveRegistry => c.active
    case ShutdownRegistry => c.shutdown
  }

  /** The registry whose mutex the next section of a callback takes. */
  function Enters<M>(pc: Pc<M>): Option<Target> {
    match pc
    case NewStore(_, known) => if known then None else Some(ActiveRegistry)
    case StateUse(_) => None
    case ExitMark(_) => None
    case ExitStore(_) => Some(ShutdownRegistry)
    case LostStore(_) => Some(ShutdownRegistry)
    case LostShutdownCheck => Some(ShutdownRegistry)
    case LostShutdownGet => Some(ShutdownRegistry)
    case LostShutdownUse(_) => None
    case _ => Some(ActiveRegistry)
  }

  function WithRegistry<M>(c: Coordinator<M>, target: Target, r: Registry<M>): Coordinator<M> {
    match target
    case ActiveRegistry => c.(active := r)
    case ShutdownRegistry => c.(shutdown := r)
  }

  /** The section changes this registry. */
  predicate Changes<M>(c: Coordinator<M>, key: string, pc: Pc<M>, target: Target) {
    var o := Section(c, key, pc);
    o.Some? && RegistryOf(o.value.c, target) != RegistryOf(c, target)
  }

  /** How the section goes on depends on what is in this registry. */
  predicate Reads<M>(c: Coordinator<M>, key: string, pc: Pc<M>, target: Target, r: Registry<M>) {
    var (o, o') := (Section(c, key, pc), Section(WithRegistry(c, target, r), key, pc));
    o.Some? != o'.Some? || (o.Some? && o.value.next != o'.value.next)
  }

  predicate UsesIn<M>(c: Coordinator<M>, key: string, pc: Pc<M>, target: Target, r: Registry<M>) {
    Changes(c, key, pc, target) || Reads(c, key, pc, target, r)
  }

  ghost predicate Uses<M(!new)>(pc: Pc<M>, target: Target) {
    exists c: Coordinator<M>, key: string, r: Registry<M> :: UsesIn(c, key, pc, target, r)
  }

  /** A section takes the mutex of a registry if and only if it reads or changes that registry. */
  lemma EntersIff<M(!new)>(pc: Pc<M>, target: Target)
    ensures Enters(pc) == Some(target) <==> Uses(pc, target)
  {
    if Enters(pc) == Some(target) {
      var empty: Coordinator<M>, r: Registry<M> := Initial(), map["" := None];
      UsesSomewhere(pc, target, empty, r);
      assert UsesIn(empty, "", pc, target, r) || UsesIn(WithRegistry(empty, target, r), "", pc, target, r);
    } else {
      forall c: Coordinator<M>, key: string, r: Registry<M> ensures !UsesIn(c, key, pc, target, r) {
        UsesNowhere(pc, target, c, key, r);
      }
    }
  }

  lemma UsesNowhere<M>(pc: Pc<M>, target: Target, c: Coordinator<M>, key: string, r: Registry<M>)
    requires Enters(pc) != Some(target)
    ensures !UsesIn(c, key, pc, target, r)
  {
    if Section(c, key, pc).Some? { SectionElsewhere(c, key, pc, target); }
    match target
    case ActiveRegistry => ReadsNoActive(c, key, pc, r);
    case ShutdownRegistry => ReadsNoShutdown(c, key, pc, r);
  }

  lemma ReadsNoActive<M>(c: Coordinator<M>, key: string, pc: Pc<M>, r: Registry<M>)
    requires Enters(pc) != Some(ActiveRegistry)
    ensures !Reads(c, key, pc, ActiveRegistry, r)
  { }

  lemma ReadsNoShutdown<M>(c: Coordinator<M>, key: string, pc: Pc<M>, r: Registry<M>)
    requires Enters(pc) != Some(ShutdownRegistry)
    ensures !Reads(c, key, pc, ShutdownRegistry, r)
  { }

  lemma UsesSomewhere<M>(pc: Pc<M>, target: Target, empty: Coordinator<M>, r: Registry<M>)
    requires Enters(pc) == Some(target) && empty == Initial() && r == map["" := None]
    ensures UsesIn(empty, "", pc, target, r) || UsesIn(WithRegistry(empty, target, r), "", pc, target, r)
  {
    assert "" in r && "" !in empty.active && "" !in empty.shutdown && "" !in Remove(r, "");
  }

  predicate ClosingDown<M>(t: Threads<M>) {
    t.deleting.Some? && t.deleting.value.target.ActiveRegistry?
  }

  /** The entry the loop deletes next. */
  predicate AtEntry<M>(t: Threads<M>) {
    && t.deleting.Some? && t.deleting.value.next < |t.deleting.value.keys|
    && var d := t.deleting.value;
    var r := RegistryOf(t.s.registries, d.target);
    d.keys[d.next] in r && r[d.keys[d.next]].Some?
  }

  function Entry<M>(t: Threads<M>): M
    requires AtEntry(t)
  {
    var d := t.deleting.value;
    RegistryOf(t.s.registries, d.target)[d.keys[d.next]].value
  }

  /** Which threads can run: no section without its mutex, and no listener taken away while its connection
      calls it. When the supercomponent closes down, it accepts no connections any more. */
  predicate CanTake<M>(t: Threads<M>, x: Turn<M>) {
    match x
    case BeginCall(key, call) => Enabled(t.s, Begin(key, call)) && (call.OnNew? ==> !ClosingDown(t))
    case Proceed(key) =>
      key in t.s.running && (t.deleting.Some? ==> Enters(t.s.running[key]) != Some(t.deleting.value.target))
    case Pulse => t.deleting.None?
    case Lock(_) => t.deleting.None?
    case Delete =>
      && t.deleting.Some? && t.deleting.value.next < |t.deleting.value.keys|
      && (AtEntry(t) ==> !Held(t.s, Entry(t)))
    case Unlock =>
      && t.deleting.Some? && t.deleting.value.next == |t.deleting.value.keys|
      && t.deleting.value.target.ShutdownRegistry?
  }

  /** Dereferencing NULL or a deleted module has no result. */
  function Take<M>(t: Threads<M>, x: Turn<M>): Option<Threads<M>>
    requires CanTake(t, x)
  {
    match x
    case BeginCall(key, call) => Some(t.(s := BeginStep(t.s, key, call)))
    case Proceed(key) =>
      (match AdvanceStep(t.s, key)
       case None => None
       case Some(s) => Some(t.(s := s)))
    case Pulse => if NoNull(t.s.registries.active) then Some(t) else None
    case Lock(target) =>
      Some(t.(deleting := Some(Deleting(target, SortedKeys(RegistryOf(t.s.registries, target).Keys), 0))))
    case Delete =>
      if AtEntry(t) then
        Some(Threads(t.s.(registries := t.s.registries.(freed := t.s.registries.freed + multiset{Entry(t)})),
                     Some(t.deleting.value.(next := t.deleting.value.next + 1))))
      else None
    case Unlock => Some(Threads(t.s.(registries := t.s.registries.(shutdown := map[])), None))
  }

  function Turned<M>(t: Option<Threads<M>>, x: Turn<M>): Option<Threads<M>> {
    if t.Some? && CanTake(t.value, x) then Take(t.value, x) else None
  }

  function RunTurns<M>(t: Threads<M>, turns: seq<Turn<M>>): Option<Threads<M>>
    decreases |turns|
  {
    if turns == [] then Some(t) else Turned(RunTurns(t, turns[..|turns| - 1]), turns[|turns| - 1])
  }

  // ---------------------------------------------------------------- every run is an interleaving

  /** The modules deleted since the loop has locked the registry. */
  function Gone<M>(r: Registry<M>, keys: seq<string>, n: nat): multiset<M>
    requires n <= |keys|
  {
    if n == 0 then multiset{}
    else
      var k := keys[n - 1];
      Gone(r, keys, n - 1) + if k in r && r[k].Some? then multiset{r[k].value} else multiset{}
  }

  function GoneNow<M>(t: Threads<M>): multiset<M> {
    match t.deleting
    case Some(Deleting(target, keys, next)) =>
      if next <= |keys| then Gone(RegistryOf(t.s.registries, target), keys, next) else multiset{}
    case None => multiset{}
  }

  /** The interleaved state it stands for: the sweep has not happened before its end. */
  function Before<M>(t: Threads<M>): State<M> {
    t.s.(registries := t.s.registries.(freed := t.s.registries.freed - GoneNow(t)))
  }

  ghost predicate Good<M>(t: Threads<M>) {
    && Sound(Before(t)) && Texts(Before(t))
    && GoneNow(t) <= t.s.registries.freed
    && (t.deleting.Some? ==> DeletingHolds(t.s, t.deleting.value))
  }

  /** The modules behind the loop are deleted, and their connections call nobody any more. */
  ghost predicate DeletingHolds<M>(s: State<M>, d: Deleting) {
    && d.keys == SortedKeys(RegistryOf(s.registries, d.target).Keys) && d.next <= |d.keys|
    && forall i :: 0 <= i < d.next ==> IsDeleted(s, RegistryOf(s.registries, d.target), d.keys[i])
  }

  ghost predicate IsDeleted<M>(s: State<M>, r: Registry<M>, k: string) {
    k in r && r[k].Some? && r[k].value in s.registries.freed && !Held(s, r[k].value)
  }

  /** The interleaved action of a turn, if it is one. */
  function ActionOf<M>(x: Turn<M>): Option<Action<M>> {
    match x
    case BeginCall(key, call) => Some(Begin(key, call))
    case Proceed(key) => Some(Advance(key))
    case Pulse => Some(LoopPulse)
    case Unlock => Some(LoopSweep)
    case _ => None
  }

  /** The turn is that action, or invisible. */
  ghost predicate Simulates<M>(t: Threads<M>, x: Turn<M>, t': Threads<M>) {
    match ActionOf(x)
    case Some(a) => Enabled(Before(t), a) && Next(Before(t), a) == Some(Before(t'))
    case None => Before(t') == Before(t)
  }

  /** Fewer deleted modules: a section that does not fail does the same. */
  lemma SectionEarlier<M>(c: Coordinator<M>, freed: multiset<M>, key: string, pc: Pc<M>)
    requires freed <= c.freed && Section(c, key, pc).Some?
    ensures var o := Section(c, key, pc).value;
            && o.c.freed == c.freed
            && Section(c.(freed := freed), key, pc) == Some(Outcome(o.c.(freed := freed), o.next))
  { }

  /** A section that takes another mutex, or none, leaves this registry alone. */
  lemma SectionElsewhere<M>(c: Coordinator<M>, key: string, pc: Pc<M>, target: Target)
    requires Section(c, key, pc).Some? && Enters(pc) != Some(target)
    ensures RegistryOf(Section(c, key, pc).value.c, target) == RegistryOf(c, target)
  { }

  lemma ProceedKeepsDeleting<M>(t: Threads<M>, key: string)
    requires Good(t) && CanTake(t, Proceed(key)) && AdvanceStep(t.s, key).Some?
    ensures var t' := t.(s := AdvanceStep(t.s, key).value);
            GoneNow(t') == GoneNow(t) && (t'.deleting.Some? ==> DeletingHolds(t'.s, t'.deleting.value))
  {
    var t' := t.(s := AdvanceStep(t.s, key).value);
    SectionEarlier(t.s.registries, t.s.registries.freed, key, t.s.running[key]);
    if t.deleting.Some? {
      var d := t.deleting.value;
      SectionElsewhere(t.s.registries, key, t.s.running[key], d.target);
      var r := RegistryOf(t.s.registries, d.target);
      forall i | 0 <= i < d.next ensures IsDeleted(t'.s, r, d.keys[i]) {
        assert IsDeleted(t.s, r, d.keys[i]);
        NotHeldLater(t.s, key, r[d.keys[i]].value);
      }
    }
  }

  lemma NotHeldLater<M>(s: State<M>, key: string, m: M)
    requires key in s.running && AdvanceStep(s, key).Some? && !Held(s, m)
    ensures !Held(AdvanceStep(s, key).value, m)
  {
    NewStaysNew(s.registries, key, s.running[key]);
  }

  lemma NewStaysNew<M>(c: Coordinator<M>, key: string, pc: Pc<M>)
    requires Section(c, key, pc).Some?
    ensures var next := Section(c, key, pc).value.next; next.Some? ==> (IsNew(next.value) <==> IsNew(pc))
  { }

  lemma ProceedSimulates<M>(t: Threads<M>, key: string)
    requires Good(t) && CanTake(t, Proceed(key)) && AdvanceStep(t.s, key).Some?
    ensures var t' := t.(s := AdvanceStep(t.s, key).value);
            AdvanceStep(Before(t), key) == Some(Before(t')) && GoneNow(t') <= t'.s.registries.freed
  {
    ProceedKeepsDeleting(t, key);
    AdvanceEarlier(t.s, Before(t).registries.freed, key);
  }

  lemma AdvanceEarlier<M>(s: State<M>, freed: multiset<M>, key: string)
    requires key in s.running && AdvanceStep(s, key).Some? && freed <= s.registries.freed
    ensures var s' := AdvanceStep(s, key).value;
            && s'.registries.freed == s.registries.freed
            && AdvanceStep(s.(registries := s.registries.(freed := freed)), key) ==
               Some(s'.(registries := s'.registries.(freed := freed)))
  {
    SectionEarlier(s.registries, freed, key, s.running[key]);
  }

  lemma ProceedKeepsGood<M>(t: Threads<M>, key: string)
    requires Good(t) && CanTake(t, Proceed(key)) && AdvanceStep(t.s, key).Some?
    ensures var t' := t.(s := AdvanceStep(t.s, key).value); Good(t') && Simulates(t, Proceed(key), t')
  {
    ProceedKeepsDeleting(t, key);
    ProceedSimulates(t, key);
    InterleavedKeeps(Before(t), Advance(key));
  }

  lemma InterleavedKeeps<M>(s: State<M>, a: Action<M>)
    requires Sound(s) && Texts(s) && Enabled(s, a) && Next(s, a).Some?
    ensures Sound(Next(s, a).value) && Texts(Next(s, a).value)
  {
    NextKeepsInv(s, a);
    NextKeepsTexts(s, a);
  }

  /** A connection whose module has been deleted calls nobody, and a new one is another one. */
  lemma NotHeldAfterBegin<M>(t: Threads<M>, key: string, call: Call<M>, k: string)
    requires Good(t) && t.deleting.Some? && Enabled(t.s, Begin(key, call))
    requires IsDeleted(t.s, RegistryOf(t.s.registries, t.deleting.value.target), k)
    ensures IsDeleted(BeginStep(t.s, key, call), RegistryOf(t.s.registries, t.deleting.value.target), k)
  {
    var r := RegistryOf(t.s.registries, t.deleting.value.target);
    assert HasText(Before(t).texts, r[k].value, k);
    assert r[k].value in t.s.registries.created;
  }

  lemma BeginKeepsGood<M>(t: Threads<M>, key: string, call: Call<M>)
    requires Good(t) && Enabled(t.s, Begin(key, call))
    ensures var t' := t.(s := BeginStep(t.s, key, call)); Good(t') && Simulates(t, BeginCall(key, call), t')
  {
    var t' := t.(s := BeginStep(t.s, key, call));
    assert Enabled(Before(t), Begin(key, call));
    assert BeginStep(Before(t), key, call) == Before(t');
    InterleavedKeeps(Before(t), Begin(key, call));
    if t.deleting.Some? {
      var d := t.deleting.value;
      forall i | 0 <= i < d.next ensures IsDeleted(t'.s, RegistryOf(t'.s.registries, d.target), d.keys[i]) {
        NotHeldAfterBegin(t, key, call, d.keys[i]);
      }
    }
  }

  lemma LockKeepsGood<M>(t: Threads<M>, target: Target)
    requires Good(t) && CanTake(t, Lock(target))
    ensures Good(Take(t, Lock(target)).value) && Simulates(t, Lock(target), Take(t, Lock(target)).value)
  {
    assert Before(Take(t, Lock(target)).value) == Before(t);
  }

  lemma DeleteIsInvisible<M>(freed: multiset<M>, gone: multiset<M>, m: M)
    requires gone <= freed
    ensures (freed + multiset{m}) - (gone + multiset{m}) == freed - gone
    ensures gone + multiset{m} <= freed + multiset{m}
  { }

  lemma DeleteKeepsGood<M>(t: Threads<M>)
    requires Good(t) && CanTake(t, Delete) && Take(t, Delete).Some?
    ensures Good(Take(t, Delete).value) && Simulates(t, Turn<M>.Delete, Take(t, Delete).value)
  {
    GoneAfterDelete(t);
    DeleteIsInvisible(t.s.registries.freed, GoneNow(t), Entry(t));
    DeleteKeepsDeleting(t);
    SameBefore(t, Take(t, Delete).value);
  }

  lemma GoneAfterDelete<M>(t: Threads<M>)
    requires CanTake(t, Delete) && AtEntry(t)
    ensures GoneNow(Take(t, Delete).value) == GoneNow(t) + multiset{Entry(t)}
  {
    var d := t.deleting.value;
    GoneNext(RegistryOf(t.s.registries, d.target), d.keys, d.next);
  }

  lemma GoneNext<M>(r: Registry<M>, keys: seq<string>, n: nat)
    requires n < |keys| && keys[n] in r && r[keys[n]].Some?
    ensures Gone(r, keys, n + 1) == Gone(r, keys, n) + multiset{r[keys[n]].value}
  { }

  /** Good states whose interleaved states are the same. */
  lemma SameBefore<M>(t: Threads<M>, t': Threads<M>)
    requires Sound(Before(t)) && Texts(Before(t))
    requires t'.s == t.s.(registries := t.s.registries.(freed := t'.s.registries.freed))
    requires t'.s.registries.freed - GoneNow(t') == t.s.registries.freed - GoneNow(t)
    requires GoneNow(t') <= t'.s.registries.freed
    requires t'.deleting.Some? ==> DeletingHolds(t'.s, t'.deleting.value)
    ensures Before(t') == Before(t) && Good(t')
  {
    assert Before(t') == Before(t);
  }

  lemma DeleteKeepsDeleting<M>(t: Threads<M>)
    requires t.deleting.Some? && DeletingHolds(t.s, t.deleting.value) && CanTake(t, Delete) && Take(t, Delete).Some?
    ensures var t' := Take(t, Delete).value; DeletingHolds(t'.s, t'.deleting.value)
  {
    var t', d := Take(t, Delete).value, t.deleting.value;
    var r := RegistryOf(t.s.registries, d.target);
    forall i | 0 <= i < d.next + 1 ensures IsDeleted(t'.s, r, d.keys[i]) {
      if i < d.next { assert IsDeleted(t.s, r, d.keys[i]); }
    }
  }

  lemma {:induction false} GoneIs<M>(r: Registry<M>, keys: seq<string>, n: nat)
    requires n <= |keys| && NoNull(r) && forall k :: k in keys ==> k in r
    ensures Gone(r, keys, n) == multiset(Pointees(r, keys[..n]))
    decreases n
  {
    if n > 0 {
      GoneIs(r, keys, n - 1);
      assert keys[n - 1] in keys && forall k | k in keys[..n] :: k in keys;
      GoneNext(r, keys, n - 1);
      PointeesAppend(r, keys[..n - 1], keys[n - 1]);
      assert keys[..n] == keys[..n - 1] + [keys[n - 1]];
    }
  }

  lemma {:induction false} PointeesAppend<M>(r: Registry<M>, keys: seq<string>, k: string)
    requires NoNull(r) && k in r && forall j :: j in keys ==> j in r
    ensures forall j :: j in keys + [k] ==> j in r
    ensures Pointees(r, keys + [k]) == Pointees(r, keys) + [r[k].value]
    decreases |keys|
  {
    if keys == [] {
      assert keys + [k] == [k] && [k][1..] == [];
    } else {
      assert forall j | j in keys[1..] :: j in keys;
      PointeesAppend(r, keys[1..], k);
      assert (keys + [k])[1..] == keys[1..] + [k];
    }
  }

  lemma AllGone<M>(s: State<M>, d: Deleting)
    requires DeletingHolds(s, d) && d.target.ShutdownRegistry? && d.next == |d.keys|
    ensures NoNull(s.registries.shutdown) && NoneHeld(s, s.registries.shutdown)
    ensures Gone(s.registries.shutdown, d.keys, d.next) ==
            multiset(Pointees(s.registries.shutdown, SortedKeys(s.registries.shutdown.Keys)))
  {
    var r, keys := s.registries.shutdown, d.keys;
    forall k | k in r ensures r[k].Some? && !Held(s, r[k].value) { AtKey(s, d, k); }
    GoneIs(r, keys, |keys|);
    assert keys[..|keys|] == keys;
  }

  lemma AtKey<M>(s: State<M>, d: Deleting, k: string)
    requires DeletingHolds(s, d) && d.target.ShutdownRegistry? && d.next == |d.keys| && k in s.registries.shutdown
    ensures IsDeleted(s, s.registries.shutdown, k)
  {
    assert k in d.keys;
    var i :| 0 <= i < |d.keys| && d.keys[i] == k;
    assert IsDeleted(s, RegistryOf(s.registries, d.target), d.keys[i]);
  }

  lemma SweepIs<M>(s: State<M>)
    requires NoNull(s.registries.shutdown) && NoneHeld(s, s.registries.shutdown)
    ensures Enabled(s, Action<M>.LoopSweep)
    ensures var c := s.registries;
            Next(s, Action<M>.LoopSweep) ==
            Some(s.(registries := c.(shutdown := map[],
                                     freed := c.freed + multiset(Pointees(c.shutdown, SortedKeys(c.shutdown.Keys))))))
  { }

  lemma UnlockIsSweep<M>(t: Threads<M>)
    requires Good(t) && CanTake(t, Unlock)
    ensures Enabled(Before(t), Action<M>.LoopSweep)
    ensures Next(Before(t), Action<M>.LoopSweep) == Some(Before(Take(t, Unlock).value))
  {
    AllGone(t.s, t.deleting.value);
    HeldBefore(t);
    SweepIs(Before(t));
    FreedAtEnd(t);
  }

  lemma FreedAtEnd<M>(t: Threads<M>)
    requires Good(t) && CanTake(t, Unlock)
    requires var r := t.s.registries.shutdown;
             NoNull(r) && GoneNow(t) == multiset(Pointees(r, SortedKeys(r.Keys)))
    ensures var c := Before(t).registries;
            Before(Take(t, Unlock).value) ==
            t.s.(registries := c.(shutdown := map[],
                                  freed := c.freed + multiset(Pointees(c.shutdown, SortedKeys(c.shutdown.Keys)))))
  {
    RolledForth(t.s.registries.freed, GoneNow(t));
  }

  lemma RolledForth<M>(freed: multiset<M>, gone: multiset<M>)
    requires gone <= freed
    ensures (freed - gone) + gone == freed && freed - multiset{} == freed
  { }

  lemma UnlockKeepsGood<M>(t: Threads<M>)
    requires Good(t) && CanTake(t, Unlock)
    ensures Good(Take(t, Unlock).value) && Simulates(t, Turn<M>.Unlock, Take(t, Unlock).value)
  {
    UnlockIsSweep(t);
    InterleavedKeeps(Before(t), LoopSweep);
  }

  lemma HeldBefore<M>(t: Threads<M>)
    ensures forall m :: Held(Before(t), m) <==> Held(t.s, m)
  { }

  lemma TakeKeepsGood<M>(t: Threads<M>, x: Turn<M>)
    requires Good(t) && CanTake(t, x) && Take(t, x).Some?
    ensures Good(Take(t, x).value) && Simulates(t, x, Take(t, x).value)
  {
    match x
    case BeginCall(key, call) => BeginKeepsGood(t, key, call);
    case Proceed(key) => ProceedKeepsGood(t, key);
    case Pulse =>
    case Lock(target) => LockKeepsGood(t, target);
    case Delete => DeleteKeepsGood(t);
    case Unlock => UnlockKeepsGood(t);
  }

  function ActionsOf<M>(turns: seq<Turn<M>>): seq<Action<M>>
    decreases |turns|
  {
    if turns == [] then []
    else
      var front := ActionsOf(turns[..|turns| - 1]);
      match ActionOf(turns[|turns| - 1])
      case Some(a) => front + [a]
      case None => front
  }

  /** Every run of turns is an interleaving, so all that is proved about those holds of it. */
  lemma {:induction false} TurnsAreInterleaved<M>(turns: seq<Turn<M>>)
    requires RunTurns(Ready(), turns).Some?
    ensures var t := RunTurns(Ready(), turns).value;
            Good(t) && RunActions(Start(), ActionsOf(turns)) == Some(Before(t))
    decreases |turns|
  {
    if turns == [] {
      ReadyIsGood<M>();
    } else {
      var n := |turns| - 1;
      TurnsAreInterleaved(turns[..n]);
      var t := RunTurns(Ready<M>(), turns[..n]).value;
      TakeKeepsGood(t, turns[n]);
      OneMoreTurn(t, turns[n], ActionsOf(turns[..n]));
    }
  }

  lemma ReadyIsGood<M>()
    ensures Good(Ready<M>()) && Before(Ready<M>()) == Start()
  {
    RunActionsRefine<M>([]);
    assert Before(Ready<M>()) == Start<M>();
  }

  lemma OneMoreTurn<M>(t: Threads<M>, x: Turn<M>, actions: seq<Action<M>>)
    requires CanTake(t, x) && Take(t, x).Some? && Simulates(t, x, Take(t, x).value)
    requires RunActions(Start(), actions) == Some(Before(t))
    ensures var all := match ActionOf(x) case Some(a) => actions + [a] case None => actions;
            RunActions(Start(), all) == Some(Before(Take(t, x).value))
  {
    if ActionOf(x).Some? { PlaysOn(Start(), actions, Before(t), ActionOf(x).value); }
  }

  // ---------------------------------------------------------------- own modules never fail

  lemma {:induction false} NotGone<M>(s: State<M>, r: Registry<M>, keys: seq<string>, n: nat, m: M)
    requires n <= |keys| && Held(s, m)
    requires forall i :: 0 <= i < n ==> IsDeleted(s, r, keys[i])
    ensures m !in Gone(r, keys, n)
    decreases n
  {
    if n > 0 {
      assert IsDeleted(s, r, keys[n - 1]);
      NotGone(s, r, keys, n - 1, m);
    }
  }

  /** While a connection calls, its own module is not deleted. */
  lemma OwnerIsAlive<M>(t: Threads<M>, key: string)
    requires Good(t) && key in t.s.running && !IsNew(t.s.running[key])
    ensures key in t.s.owners && Held(t.s, t.s.owners[key]) && t.s.owners[key] !in t.s.registries.freed
    ensures t.s.owners[key] !in GoneNow(t)
  {
    var m := t.s.owners[key];
    assert OwnerHolds(Before(t), key);
    if t.deleting.Some? {
      var d := t.deleting.value;
      NotGone(t.s, RegistryOf(t.s.registries, d.target), d.keys, d.next, m);
    }
    assert t.s.registries.freed == Before(t).registries.freed + GoneNow(t);
  }

  lemma FailsAtUse<M>(c: Coordinator<M>, key: string, pc: Pc<M>)
    requires Section(c, key, pc).None?
    ensures (pc.StateUse? || pc.ExitMark? || pc.LostShutdownUse?) && Dead(c, pc.found)
  { }

  /** However the threads take turns: a callback that uses the module of its own connection never finds it
      deleted. */
  lemma OwnModuleNeverFails<M>(t: Threads<M>, key: string)
    requires Good(t) && CanTake(t, Proceed(key)) && Take(t, Proceed(key)).None?
    ensures var pc := t.s.running[key];
            && key in t.s.owners && (pc.StateUse? || pc.ExitMark? || pc.LostShutdownUse?)
            && pc.found != Some(t.s.owners[key])
  {
    FailsAtUse(t.s.registries, key, t.s.running[key]);
    OwnerIsNotDead(t, key);
  }

  lemma OwnerIsNotDead<M>(t: Threads<M>, key: string)
    requires Good(t) && key in t.s.running && !IsNew(t.s.running[key])
    ensures key in t.s.owners && !Dead(t.s.registries, Some(t.s.owners[key]))
  {
    OwnerIsAlive(t, key);
  }

  lemma {:induction false} GoneMembers<M>(r: Registry<M>, keys: seq<string>, n: nat, m: M)
    requires n <= |keys| && m in Gone(r, keys, n)
    ensures m in Modules(r)
    decreases n
  {
    if m in Gone(r, keys, n - 1) { GoneMembers(r, keys, n - 1, m); }
  }

  /** What is dead is dead before the deletion, or has been deleted from the registry the loop holds. */
  lemma DeadBefore<M>(t: Threads<M>, m: M)
    requires Good(t) && m in t.s.registries.freed
    ensures || m in Before(t).registries.freed
            || (&& t.deleting.Some? && m in GoneNow(t)
                && m in Modules(RegistryOf(t.s.registries, t.deleting.value.target)))
  {
    assert t.s.registries.freed == Before(t).registries.freed + GoneNow(t);
    if m in GoneNow(t) {
      var d := t.deleting.value;
      GoneMembers(RegistryOf(t.s.registries, d.target), d.keys, d.next, m);
    }
  }

  /** While the supercomponent runs, only a connection whose module has been dropped can fail. */
  lemma OnlyDroppedFail<M>(t: Threads<M>, key: string)
    requires Good(t) && !ClosingDown(t) && CanTake(t, Proceed(key)) && Take(t, Proceed(key)).None?
    ensures t.s.running[key].LostShutdownUse?
    ensures key in t.s.owners && t.s.owners[key] in Dropped(Abs(Before(t)))
  {
    var s, pc := Before(t), t.s.running[key];
    FailsAtUse(t.s.registries, key, pc);
    if pc.LostShutdownUse? {
      DroppedLookup(t, key);
    } else {
      NoStateUseFails(t, key);
      assert false;
    }
  }

  lemma DroppedLookup<M>(t: Threads<M>, key: string)
    requires Good(t) && key in t.s.running && t.s.running[key].LostShutdownUse?
    requires Dead(t.s.registries, t.s.running[key].found)
    ensures key in t.s.owners && t.s.owners[key] in Dropped(Abs(Before(t)))
  {
    var s := Before(t);
    assert OwnerHolds(s, key) && LookupHolds(s.registries, key, s.running[key]);
    OwnerIsAlive(t, key);
    ForeignIsDropped(s, key);
  }

  lemma NoStateUseFails<M>(t: Threads<M>, key: string)
    requires Good(t) && !ClosingDown(t) && key in t.s.running
    requires t.s.running[key].StateUse? || t.s.running[key].ExitMark?
    ensures !Dead(t.s.registries, t.s.running[key].found)
  {
    var s, pc := Before(t), t.s.running[key];
    assert PcHolds(s.registries.active, key, pc) && CarriedApart(s.registries, pc);
    if pc.StateUse? {
      ActiveIsAlive(s, key);
      ActiveIsCreated(s, key);
    }
    if pc.found.value in t.s.registries.freed { DeadBefore(t, pc.found.value); }
  }

  /** And the loop itself meets NULL only where such a connection has inserted it. */
  lemma LoopFailsAtDropped<M>(t: Threads<M>)
    requires Good(t) && !ClosingDown(t) && CanTake(t, Delete) && Take(t, Delete).None?
    ensures var key := t.deleting.value.keys[t.deleting.value.next];
            key in t.s.running && DoomedAndDropped(Before(t), key)
  {
    var s, d := Before(t), t.deleting.value;
    var key := d.keys[d.next];
    assert key in d.keys && key in s.registries.shutdown;
    assert s.registries.shutdown[key].None?;
    DoomedIsDropped(s, key);
  }

  // ---------------------------------------------------------------- deadlock

  /** The loop holds the registry, has not come to `key` yet, and the connection of its module is calling:
      the loop will have to wait for the end of that callback. */
  ghost predicate Facing<M>(t: Threads<M>, key: string) {
    && t.deleting.Some? && t.deleting.value.next <= |t.deleting.value.keys|
    && key in t.deleting.value.keys[t.deleting.value.next..]
    && key in t.s.running && !IsNew(t.s.running[key])
    && key in t.s.owners && HasText(t.s.texts, t.s.owners[key], key)
    && var r := RegistryOf(t.s.registries, t.deleting.value.target);
    key in r && r[key] == Some(t.s.owners[key])
  }

  /** The callback still has to enter the registry: `known` tells whether its text is an active one. */
  predicate StillEnters<M>(pc: Pc<M>, known: bool, target: Target) {
    match target
    case ActiveRegistry => Enters(pc) == Some(ActiveRegistry)
    case ShutdownRegistry =>
      || (pc.ExitCheck? && known) || pc.ExitGet? || pc.ExitErase? || pc.ExitMark? || pc.ExitStore?
      || InLost(pc) || pc.LostShutdownCheck? || pc.LostShutdownGet?
  }

  ghost predicate MustEnter<M>(t: Threads<M>, key: string)
    requires Facing(t, key)
  {
    StillEnters(t.s.running[key], key in t.s.registries.active, t.deleting.value.target)
  }

  lemma OwnTurnStaysStuck<M>(t: Threads<M>, key: string)
    requires Facing(t, key) && MustEnter(t, key) && CanTake(t, Proceed(key)) && Take(t, Proceed(key)).Some?
    ensures var t' := Take(t, Proceed(key)).value; Facing(t', key) && MustEnter(t', key)
  {
    SectionElsewhere(t.s.registries, key, t.s.running[key], t.deleting.value.target);
    EntersLater(t.s.registries, key, t.s.running[key], t.deleting.value.target);
  }

  /** A section that takes another mutex leaves the callback with the registry still to enter. */
  lemma EntersLater<M>(c: Coordinator<M>, key: string, pc: Pc<M>, target: Target)
    requires StillEnters(pc, key in c.active, target) && Enters(pc) != Some(target) && !IsNew(pc)
    requires Section(c, key, pc).Some?
    ensures var o := Section(c, key, pc).value;
            && o.next.Some? && !IsNew(o.next.value) && StillEnters(o.next.value, key in o.c.active, target)
  { }

  lemma OtherTurnStaysStuck<M>(t: Threads<M>, key: string, other: string)
    requires Facing(t, key) && MustEnter(t, key) && other != key
    requires CanTake(t, Proceed(other)) && Take(t, Proceed(other)).Some?
    ensures var t' := Take(t, Proceed(other)).value; Facing(t', key) && MustEnter(t', key)
  {
    SectionElsewhere(t.s.registries, other, t.s.running[other], t.deleting.value.target);
    OtherKeyStays(t.s.registries, other, t.s.running[other], key);
  }

  lemma OtherKeyStays<M>(c: Coordinator<M>, key: string, pc: Pc<M>, k: string)
    requires k != key && Section(c, key, pc).Some?
    ensures k in Section(c, key, pc).value.c.active <==> k in c.active
  { }

  lemma BeginStaysStuck<M>(t: Threads<M>, key: string, other: string, call: Call<M>)
    requires Good(t) && Facing(t, key) && MustEnter(t, key) && CanTake(t, BeginCall(other, call))
    ensures var t' := Take(t, BeginCall(other, call)).value; Facing(t', key) && MustEnter(t', key)
  {
    OwnerStaysSame(t.s, key, other, call);
  }

  lemma OwnerStaysSame<M>(s: State<M>, key: string, other: string, call: Call<M>)
    requires Enabled(s, Begin(other, call)) && key in s.running && key in s.owners
    requires s.owners[key] in s.registries.created
    requires HasText(s.texts, s.owners[key], key)
    ensures var s' := BeginStep(s, other, call);
            && key in s'.running && s'.running[key] == s.running[key] && key in s'.owners
            && s'.owners[key] == s.owners[key] && HasText(s'.texts, s.owners[key], key)
  { }

  lemma DeleteStaysStuck<M>(t: Threads<M>, key: string)
    requires Facing(t, key) && MustEnter(t, key) && CanTake(t, Delete) && Take(t, Delete).Some?
    ensures var t' := Take(t, Delete).value; Facing(t', key) && MustEnter(t', key)
  {
    var d := t.deleting.value;
    assert Held(t.s, t.s.owners[key]);
    assert d.keys[d.next] != key;
    assert d.keys[d.next..] == [d.keys[d.next]] + d.keys[d.next + 1..];
  }

  lemma StaysStuck<M>(t: Threads<M>, key: string, x: Turn<M>)
    requires Good(t) && Facing(t, key) && MustEnter(t, key) && CanTake(t, x) && Take(t, x).Some?
    ensures Facing(Take(t, x).value, key) && MustEnter(Take(t, x).value, key)
  {
    match x
    case BeginCall(other, call) => BeginStaysStuck(t, key, other, call);
    case Proceed(other) => if other == key { OwnTurnStaysStuck(t, key); } else { OtherTurnStaysStuck(t, key, other); }
    case Delete => DeleteStaysStuck(t, key);
    case _ => assert false;
  }

  lemma {:induction false} StuckForEver<M>(t: Threads<M>, key: string, turns: seq<Turn<M>>)
    requires Good(t) && Facing(t, key) && MustEnter(t, key) && RunTurns(t, turns).Some?
    ensures var u := RunTurns(t, turns).value; Good(u) && Facing(u, key) && MustEnter(u, key)
    decreases |turns|
  {
    if turns != [] {
      var n := |turns| - 1;
      StuckForEver(t, key, turns[..n]);
      TakeKeepsGood(RunTurns(t, turns[..n]).value, turns[n]);
      StaysStuck(RunTurns(t, turns[..n]).value, key, turns[n]);
    }
  }

  /** Whatever the threads do, the loop does not get past `key` and its callback does not end. */
  ghost predicate Deadlocked<M(!new)>(t: Threads<M>, key: string) {
    forall turns: seq<Turn<M>> :: RunTurns(t, turns).Some? ==> Facing(RunTurns(t, turns).value, key)
  }

  lemma NeverEnds<M(!new)>(t: Threads<M>, key: string)
    requires Good(t) && Facing(t, key) && MustEnter(t, key)
    ensures Deadlocked(t, key)
  {
    forall turns: seq<Turn<M>> | RunTurns(t, turns).Some? ensures Facing(RunTurns(t, turns).value, key) {
      StuckForEver(t, key, turns);
    }
  }

  /** How many sections are left of a callback that has nothing to enter. */
  function Left<M>(pc: Pc<M>): nat {
    if pc.StateCheck? then 2 else if pc.StateGet? then 1 else 0
  }

  lemma FacingFails<M>(t: Threads<M>, key: string)
    requires Good(t) && Facing(t, key) && !MustEnter(t, key)
    ensures CanTake(t, Proceed(key)) && Take(t, Proceed(key)).Some?
  {
    var s, pc := Before(t), t.s.running[key];
    assert PcHolds(s.registries.active, key, pc) && LookupHolds(s.registries, key, pc);
    if Take(t, Proceed(key)).None? {
      OwnModuleNeverFails(t, key);
      if !ClosingDown(t) { OnlyDroppedFail(t, key); }
      assert false;
    }
  }

  /** Such a callback goes on and comes nearer to its end. */
  lemma NearerToEnd<M>(t: Threads<M>, key: string)
    requires Good(t) && Facing(t, key) && !MustEnter(t, key)
    ensures CanTake(t, Proceed(key)) && Take(t, Proceed(key)).Some?
    ensures var t' := Take(t, Proceed(key)).value;
            && Good(t')
            && (key in t'.s.running ==>
                  Facing(t', key) && !MustEnter(t', key) && Left(t'.s.running[key]) < Left(t.s.running[key]))
  {
    FacingFails(t, key);
    TakeKeepsGood(t, Proceed(key));
    assert PcHolds(Before(t).registries.active, key, t.s.running[key]);
    SectionElsewhere(t.s.registries, key, t.s.running[key], t.deleting.value.target);
    NothingLater(t.s.registries, key, t.s.running[key], t.deleting.value.target);
  }

  lemma NothingLater<M>(c: Coordinator<M>, key: string, pc: Pc<M>, target: Target)
    requires !StillEnters(pc, key in c.active, target) && !IsNew(pc) && PcHolds(c.active, key, pc)
    requires target.ActiveRegistry? ==> key in c.active
    requires Section(c, key, pc).Some?
    ensures var o := Section(c, key, pc).value;
            o.next.Some? ==> && !IsNew(o.next.value) && !StillEnters(o.next.value, key in o.c.active, target)
                             && Left(o.next.value) < Left(pc)
  { }

  lemma {:induction false} RunTurnsFirst<M>(t: Threads<M>, x: Turn<M>, turns: seq<Turn<M>>)
    requires CanTake(t, x) && Take(t, x).Some?
    ensures RunTurns(t, [x] + turns) == RunTurns(Take(t, x).value, turns)
    decreases |turns|
  {
    if turns == [] {
      RunTurnsLast(t, [], x);
      assert [x] + turns == [] + [x];
    } else {
      var n := |turns| - 1;
      assert turns == turns[..n] + [turns[n]];
      RunTurnsFirst(t, x, turns[..n]);
      OneMoreAfterFirst(t, x, Take(t, x).value, turns[..n], turns[n]);
    }
  }

  lemma OneMoreAfterFirst<M>(t: Threads<M>, x: Turn<M>, u: Threads<M>, turns: seq<Turn<M>>, y: Turn<M>)
    requires RunTurns(t, [x] + turns) == RunTurns(u, turns)
    ensures RunTurns(t, [x] + (turns + [y])) == RunTurns(u, turns + [y])
  {
    RunTurnsLast(t, [x] + turns, y);
    RunTurnsLast(u, turns, y);
    assert [x] + (turns + [y]) == ([x] + turns) + [y];
  }

  lemma RunTurnsLast<M>(t: Threads<M>, turns: seq<Turn<M>>, x: Turn<M>)
    ensures RunTurns(t, turns + [x]) == Turned(RunTurns(t, turns), x)
  {
    assert (turns + [x])[..|turns|] == turns;
  }

  lemma {:induction false} CallEnds<M>(t: Threads<M>, key: string) returns (turns: seq<Turn<M>>)
    requires Good(t) && Facing(t, key) && !MustEnter(t, key)
    ensures RunTurns(t, turns).Some? && key !in RunTurns(t, turns).value.s.running
    decreases Left(t.s.running[key])
  {
    NearerToEnd(t, key);
    var t' := Take(t, Proceed(key)).value;
    var rest := [];
    if key in t'.s.running { rest := CallEnds(t', key); }
    turns := [Proceed(key)] + rest;
    RunTurnsFirst(t, Proceed(key), rest);
  }

  /** The loop holds a registry and comes to a module whose own connection is calling. The two wait for each
      other for ever, whatever the other threads do, if and only if that callback still has to enter the
      registry; otherwise it can end, and let the loop pass. */
  lemma DeadlockIff<M(!new)>(t: Threads<M>, key: string)
    requires Good(t) && Facing(t, key)
    ensures MustEnter(t, key) <==> Deadlocked(t, key)
  {
    if MustEnter(t, key) {
      NeverEnds(t, key);
    } else {
      var turns := CallEnds(t, key);
      assert !Facing(RunTurns(t, turns).value, key);
    }
  }

  // ---------------------------------------------------------------- runs that end in a deadlock

  function TurnsOf<M>(actions: seq<Action<M>>): seq<Turn<M>>
    requires Action<M>.LoopSweep !in actions
    decreases |actions|
  {
    if actions == [] then []
    else
      var n := |actions| - 1;
      assert actions[n] in actions && forall a | a in actions[..n] :: a in actions;
      TurnsOf(actions[..n]) + match actions[n]
                              case Begin(key, call) => [BeginCall(key, call)]
                              case Advance(key) => [Proceed(key)]
                              case LoopPulse => [Pulse]
  }

  /** Without sweeps the threads can do whatever the interleavings do. */
  lemma {:induction false} TurnsPlay<M>(s: State<M>, actions: seq<Action<M>>)
    requires Action<M>.LoopSweep !in actions && RunActions(s, actions).Some?
    ensures RunTurns(Threads(s, None), TurnsOf(actions)) == Some(Threads(RunActions(s, actions).value, None))
    decreases |actions|
  {
    if actions != [] {
      var n := |actions| - 1;
      assert actions[n] in actions && forall a | a in actions[..n] :: a in actions;
      TurnsPlay(s, actions[..n]);
      var t := Threads(RunActions(s, actions[..n]).value, None);
      var x := match actions[n]
               case Begin(key, call) => BeginCall(key, call)
               case Advance(key) => Proceed(key)
               case LoopPulse => Pulse;
      assert TurnsOf(actions)[..|TurnsOf(actions)| - 1] == TurnsOf(actions[..n]);
      assert Take(t, x) == Some(Threads(RunActions(s, actions).value, None));
    }
  }

  lemma {:induction false} NoSweepInCall<M>(key: string, call: Call<M>, n: nat)
    ensures Action<M>.LoopSweep !in CallOf(key, call, n)
    decreases n
  {
    if n > 0 { NoSweepInCall(key, call, n - 1); }
  }

  /** The module has exited. */
  function Exited<M>(key: string, m: M): State<M> {
    State(Coordinator(map[], map[key := Some(m)], {m}, multiset{}), map[], map[key := m], map[m := key])
  }

  /** The module has exited and its connection is lost: the callback is about to look into the shutdown
      registry, where its module is. */
  function AfterExit<M>(key: string, m: M, pc: Pc<M>): State<M> {
    State(Coordinator(map[], map[key := Some(m)], {m}, multiset{}), map[key := pc], map[key := m], map[m := key])
  }

  /** A registered module is about to be told its exit code. */
  function AtExit<M>(key: string, m: M): State<M> {
    State(Coordinator(map[key := Some(m)], map[], {m}, multiset{}), map[key := ExitCheck], map[key := m], map[m := key])
  }

  lemma ExitsAlone<M>(key: string, m: M)
    ensures Plays(OneConnected(key, m), CallOf(key, OnExit(m), 5), Exited(key, m))
  {
    var s := OneConnected(key, m);
    ExitIsMoved(s, key, m);
    assert Move(s.registries, key, Some(m)) == Coordinator(map[], map[key := Some(m)], {m}, multiset{});
    assert s.owners[key := m] == s.owners;
  }

  lemma LosesAlone<M>(key: string, m: M)
    ensures Plays(Exited(key, m), CallOf(key, OnLost(m), 1), AfterExit(key, m, LostShutdownCheck))
  {
    var s := Exited(key, m);
    BeginsCall(s, key, OnLost(m));
    GoesOn(s, key, OnLost(m), 0, s.registries, s.texts, LostCheck, s.registries, LostShutdownCheck);
    assert s.owners[key := m] == s.owners;
    assert s.running[key := LostShutdownCheck] == map[key := LostShutdownCheck];
  }

  function NormalEnd<M>(key: string, m: M): seq<Action<M>> {
    CallOf(key, OnNew(m), 2) + CallOf(key, OnExit(m), 5) + CallOf(key, OnLost(m), 1)
  }

  lemma NormalEndPlays<M>(key: string, m: M)
    ensures Plays(Start(), NormalEnd(key, m), AfterExit(key, m, LostShutdownCheck))
    ensures Action<M>.LoopSweep !in NormalEnd(key, m)
  {
    var s := Exited(key, m);
    Connects(key, m);
    ExitsAlone(key, m);
    LosesAlone(key, m);
    PlaysConcatenate(Start(), CallOf(key, OnNew(m), 2), OneConnected(key, m), CallOf(key, OnExit(m), 5), s);
    PlaysConcatenate(Start(), CallOf(key, OnNew(m), 2) + CallOf(key, OnExit(m), 5), s, CallOf(key, OnLost(m), 1),
                     AfterExit(key, m, LostShutdownCheck));
    NoSweepInCall(key, OnNew(m), 2);
    NoSweepInCall(key, OnExit(m), 5);
    NoSweepInCall(key, OnLost(m), 1);
  }

  /** The loop has locked a registry with one module, and has not deleted it yet. */
  function Locked<M>(s: State<M>, target: Target, key: string): Threads<M> {
    Threads(s, Some(Deleting(target, [key], 0)))
  }

  /** The module is about to enter the registry in a callback of its own. */
  lemma DeadlocksWhenLocked<M(!new)>(s: State<M>, target: Target, key: string, m: M)
    requires Good(Locked(s, target, key)) && RegistryOf(s.registries, target) == map[key := Some(m)]
    requires key in s.running && !IsNew(s.running[key]) && Enters(s.running[key]) == Some(target)
    requires key in s.owners && s.owners[key] == m && HasText(s.texts, m, key)
    ensures Facing(Locked(s, target, key), key) && Deadlocked(Locked(s, target, key), key)
  {
    FacesOnly(s, target, key, m);
    NeverEnds(Locked(s, target, key), key);
  }

  lemma LockLeadsTo<M>(turns: seq<Turn<M>>, s: State<M>, target: Target, key: string)
    requires RunTurns(Ready(), turns) == Some(Threads(s, None))
    requires RegistryOf(s.registries, target).Keys == {key}
    ensures RunTurns(Ready(), turns + [Lock(target)]) == Some(Locked(s, target, key))
    ensures Good(Locked(s, target, key))
  {
    OnlyKey(key, RegistryOf(s.registries, target));
    RunTurnsLast(Ready(), turns, Lock(target));
    TurnsAreInterleaved(turns);
    LockKeepsGood(Threads(s, None), target);
  }

  lemma LockAfter<M>(actions: seq<Action<M>>, s: State<M>, target: Target, key: string)
    requires Action<M>.LoopSweep !in actions && Plays(Start(), actions, s)
    requires RegistryOf(s.registries, target).Keys == {key}
    ensures RunTurns(Ready(), TurnsOf(actions) + [Lock(target)]) == Some(Locked(s, target, key))
    ensures Good(Locked(s, target, key))
  {
    TurnsPlay(Start(), actions);
    LockLeadsTo(TurnsOf(actions), s, target, key);
  }

  lemma FacesOnly<M>(s: State<M>, target: Target, key: string, m: M)
    requires RegistryOf(s.registries, target) == map[key := Some(m)]
    requires key in s.running && !IsNew(s.running[key]) && Enters(s.running[key]) == Some(target)
    requires key in s.owners && s.owners[key] == m && HasText(s.texts, m, key)
    ensures Facing(Locked(s, target, key), key) && MustEnter(Locked(s, target, key), key)
  {
    assert key in [key][0..];
  }

  lemma OnlyKey<M>(key: string, r: Registry<M>)
    requires r.Keys == {key}
    ensures SortedKeys(r.Keys) == [key]
  {
    var keys := SortedKeys(r.Keys);
    assert keys[0] in keys;
  }

  /** The normal end of a module, exit code and then the closed connection, ends in a deadlock if the loop
      starts to sweep at the wrong moment. */
  lemma NormalEndMayDeadlock<M(!new)>(key: string, m: M)
    ensures Action<M>.LoopSweep !in NormalEnd(key, m)
    ensures var t := Locked(AfterExit(key, m, LostShutdownCheck), ShutdownRegistry, key);
            && RunTurns(Ready(), TurnsOf(NormalEnd(key, m)) + [Lock(ShutdownRegistry)]) == Some(t)
            && Facing(t, key) && Deadlocked(t, key)
  {
    var s := AfterExit(key, m, LostShutdownCheck);
    NormalEndPlays(key, m);
    LockAfter(NormalEnd(key, m), s, ShutdownRegistry, key);
    DeadlocksWhenLocked(s, ShutdownRegistry, key, m);
  }

  /** A module connects and reports its exit code. */
  function ExitBegins<M>(key: string, m: M): seq<Action<M>> {
    CallOf(key, OnNew(m), 2) + CallOf(key, OnExit(m), 0)
  }

  lemma ExitBeginsPlays<M>(key: string, m: M)
    ensures Plays(Start(), ExitBegins(key, m), AtExit(key, m))
    ensures Action<M>.LoopSweep !in ExitBegins(key, m)
  {
    var s := OneConnected(key, m);
    Connects(key, m);
    BeginsCall(s, key, OnExit(m));
    assert s.owners[key := m] == s.owners && s.running[key := ExitCheck] == map[key := ExitCheck];
    assert BeginStep(s, key, OnExit(m)) == AtExit(key, m);
    PlaysConcatenate(Start(), CallOf(key, OnNew(m), 2), s, CallOf(key, OnExit(m), 0), AtExit(key, m));
    NoSweepInCall(key, OnNew(m), 2);
    NoSweepInCall(key, OnExit(m), 0);
  }

  /** And so may closing down while a module reports its exit code. */
  lemma CloseDownMayDeadlock<M(!new)>(key: string, m: M)
    ensures Action<M>.LoopSweep !in ExitBegins(key, m)
    ensures var t := Locked(AtExit(key, m), ActiveRegistry, key);
            && RunTurns(Ready(), TurnsOf(ExitBegins(key, m)) + [Lock(ActiveRegistry)]) == Some(t)
            && Facing(t, key) && Deadlocked(t, key)
  {
    ExitBeginsPlays(key, m);
    LockAfter(ExitBegins(key, m), AtExit(key, m), ActiveRegistry, key);
    DeadlocksWhenLocked(AtExit(key, m), ActiveRegistry, key, m);
  }
}

/**
 The same callbacks at the granularity of the registries' locks: every `Lock l(m_modulesMutex)` body is one
 step, and callbacks of different modules and the cycle loop interleave freely between those steps.

 A connection holds its listener mutex while one of its callbacks runs, and deleting its module takes that
 mutex: the loop does not sweep a module whose own callback is running. A connection whose module is in
 neither registry (dropped: a duplicate text, or an overwritten entry) still listens, and no sweep waits
 for its callbacks. That the loop waits here means that it has not locked the registry yet; what happens
 when it already has, is the subject of module ListenerLocks.

 A text has at most one running callback: module Connections says what happens when callbacks of one text
 overlap. The steps describe the time while the cycle loop runs: it sweeps the shutdown registry and pulses the
 active one.
 */
module LockSections {
  import opened Wrappers
  import opened Lifecycle

  /** Where a running callback stands: the lock section it will execute next and its local variable. */
  datatype Pc<M> =
    | NewCheck(m: M)
    | NewStore(m: M, known: bool)
    | StateCheck
    | StateGet
    | StateUse(found: Option<M>)
    | ExitCheck
    | ExitGet
    | ExitErase(found: Option<M>)
    | ExitMark(found: Option<M>)
    | ExitStore(found: Option<M>)
    | LostCheck
    | LostGet
    | LostErase(found: Option<M>)
    | LostStore(found: Option<M>)
    | LostShutdownCheck
    | LostShutdownGet
    | LostShutdownUse(found: Option<M>)

  /** A callback, and the module whose connection it comes from. */
  datatype Call<M> = OnNew(m: M) | OnState(m: M) | OnExit(m: M) | OnLost(m: M)

  datatype State<M(==)> = State(
    registries: Coordinator<M>,
    running: map<string, Pc<M>>,  // the callback that runs under a text
    owners: map<string, M>,       // whose callback it is, or was last
    texts: map<M, string>)        // the text of every connection there has been

  datatype Action<M> =
    | Begin(key: string, call: Call<M>)
    | Advance(key: string)
    | LoopSweep
    | LoopPulse

  function Start<M>(): State<M> {
    State(Initial(), map[], map[], map[])
  }

  predicate IsNew<M>(pc: Pc<M>) {
    pc.NewCheck? || pc.NewStore?
  }

  /** A callback of this connection is running, so its listener mutex is taken. */
  predicate Held<M>(s: State<M>, m: M) {
    m in s.texts
    && var key := s.texts[m];
    key in s.running && !IsNew(s.running[key]) && key in s.owners && s.owners[key] == m
  }

  /** A connection listens from `onNewModule` until its module is deleted. */
  predicate Enabled<M>(s: State<M>, a: Action<M>) {
    match a
    case Begin(key, call) =>
      && key !in s.running
      && (if call.OnNew? then call.m !in s.registries.created
          else call.m in s.texts && s.texts[call.m] == key && call.m !in s.registries.freed)
    case Advance(key) => key in s.running
    case LoopSweep => NoneHeld(s, s.registries.shutdown)
    case LoopPulse => true
  }

  predicate NoneHeld<M>(s: State<M>, r: Registry<M>) {
    forall k :: k in r && r[k].Some? ==> !Held(s, r[k].value)
  }

  /** NULL, or a module that has been deleted. */
  predicate Dead<M>(c: Coordinator<M>, found: Option<M>) {
    found.None? || found.value in c.freed
  }

  /** What one lock section (or the unlocked use of a module) leaves; None as the next one ends the callback. */
  datatype Outcome<M(==)> = Outcome(c: Coordinator<M>, next: Option<Pc<M>>)

  function GoOn<M>(c: Coordinator<M>, pc: Pc<M>): Option<Outcome<M>> {
    Some(Outcome(c, Some(pc)))
  }

  function End<M>(c: Coordinator<M>): Option<Outcome<M>> {
    Some(Outcome(c, None))
  }

  /** One section of a callback for `key`. Dereferencing NULL or a deleted module has no result. */
  function Section<M>(c: Coordinator<M>, key: string, pc: Pc<M>): Option<Outcome<M>> {
    match pc
    case NewCheck(m) => GoOn(c, NewStore(m, Has(c.active, key)))
    case NewStore(m, known) => End(if known then c else c.(active := Add(c.active, key, Some(m))))
    case StateCheck => if Has(c.active, key) then GoOn(c, StateGet) else End(c)
    case StateGet => var (active', m) := Get(c.active, key); GoOn(c.(active := active'), StateUse(m))
    case StateUse(m) => if Dead(c, m) then None else End(c)
    case ExitCheck => if Has(c.active, key) then GoOn(c, ExitGet) else End(c)
    case ExitGet => var (active', m) := Get(c.active, key); GoOn(c.(active := active'), ExitErase(m))
    case ExitErase(m) => GoOn(c.(active := Remove(c.active, key)), ExitMark(m))
    case ExitMark(m) => if Dead(c, m) then None else GoOn(c, ExitStore(m))
    case ExitStore(m) => End(c.(shutdown := Add(c.shutdown, key, m)))
    case LostCheck => GoOn(c, if Has(c.active, key) then LostGet else LostShutdownCheck)
    case LostGet => var (active', m) := Get(c.active, key); GoOn(c.(active := active'), LostErase(m))
    case LostErase(m) => GoOn(c.(active := Remove(c.active, key)), LostStore(m))
    case LostStore(m) => End(c.(shutdown := Add(c.shutdown, key, m)))
    case LostShutdownCheck => if Has(c.shutdown, key) then GoOn(c, LostShutdownGet) else End(c)
    case LostShutdownGet =>
      var (shutdown', m) := Get(c.shutdown, key); GoOn(c.(shutdown := shutdown'), LostShutdownUse(m))
    case LostShutdownUse(m) => if Dead(c, m) then None else End(c)
  }

  function Goto<M>(s: State<M>, c: Coordinator<M>, key: string, pc: Pc<M>): State<M> {
    s.(registries := c, running := s.running[key := pc])
  }

  function Finish<M>(s: State<M>, c: Coordinator<M>, key: string): State<M> {
    s.(registries := c, running := s.running - {key})
  }

  function AdvanceStep<M>(s: State<M>, key: string): Option<State<M>>
    requires key in s.running
  {
    match Section(s.registries, key, s.running[key])
    case None => None
    case Some(Outcome(c, Some(pc))) => Some(Goto(s, c, key, pc))
    case Some(Outcome(c, None)) => Some(Finish(s, c, key))
  }

  function FirstPc<M>(call: Call<M>): Pc<M> {
    match call
    case OnNew(m) => NewCheck(m)
    case OnState(_) => StateCheck
    case OnExit(_) => ExitCheck
    case OnLost(_) => LostCheck
  }

  function BeginStep<M>(s: State<M>, key: string, call: Call<M>): State<M> {
    State(if call.OnNew? then s.registries.(created := s.registries.created + {call.m}) else s.registries,
          s.running[key := FirstPc(call)],
          s.owners[key := call.m],
          if call.OnNew? then s.texts[call.m := key] else s.texts)
  }

  function Next<M>(s: State<M>, a: Action<M>): Option<State<M>>
    requires Enabled(s, a)
  {
    match a
    case Begin(key, call) => Some(BeginStep(s, key, call))
    case Advance(key) => AdvanceStep(s, key)
    case LoopSweep =>
      (match Step(s.registries, Event<M>.Sweep)
       case None => None
       case Some(c) => Some(s.(registries := c)))
    case LoopPulse => if NoNull(s.registries.active) then Some(s) else None
  }

  // ---------------------------------------------------------------- what the callbacks hold

  /** A module a callback has taken out of a registry or not yet put into one. */
  function Carried<M>(pc: Pc<M>): Option<M> {
    match pc
    case NewCheck(m) => Some(m)
    case NewStore(m, _) => Some(m)
    case ExitMark(m) => m
    case ExitStore(m) => m
    case LostStore(m) => m
    case _ => None
  }

  /** The callback is between erasing its module from one registry and adding it to the other. */
  predicate Moving<M>(pc: Pc<M>) {
    (pc.ExitMark? || pc.ExitStore? || pc.LostStore?) && pc.found.Some?
  }

  /** The entries that are not NULL. */
  function NonNull<M>(r: Registry<M>): Registry<M> {
    map k | k in r && r[k].Some? :: r[k]
  }

  /** The registries without the NULL a lookup may have inserted. */
  function Clean<M>(c: Coordinator<M>): Coordinator<M> {
    c.(shutdown := NonNull(c.shutdown))
  }

  ghost predicate Sound<M>(s: State<M>) {
    && Lifecycle.Inv(Clean(s.registries))
    && (forall key :: key in s.running ==> PcHolds(s.registries.active, key, s.running[key]))
    && (forall key :: key in s.running ==> LookupHolds(s.registries, key, s.running[key]))
    && (forall key :: key in s.running ==> CarriedApart(s.registries, s.running[key]))
    && (forall j, k :: j in s.running && k in s.running && j != k ==> CarryDifferent(s.running[j], s.running[k]))
    && NullsArePending(s.registries.shutdown, s.running)
  }

  /** What a callback knows about the entry of its text still holds when it runs on: in particular the
      answer of `hasModule` at the following `getModule`. */
  ghost predicate PcHolds<M>(active: Registry<M>, key: string, pc: Pc<M>) {
    match pc
    case NewStore(_, known) => known <==> key in active
    case StateGet => key in active
    case ExitGet => key in active
    case LostGet => key in active
    case StateUse(m) => key in active && active[key] == m && m.Some?
    case ExitErase(m) => key in active && active[key] == m && m.Some?
    case LostErase(m) => key in active && active[key] == m && m.Some?
    case ExitMark(m) => key !in active && m.Some?
    case ExitStore(m) => key !in active && m.Some?
    case LostStore(m) => key !in active && m.Some?
    case LostShutdownCheck => key !in active
    case LostShutdownGet => key !in active
    case LostShutdownUse(_) => key !in active
    case _ => true
  }

  /** What was looked up in the shutdown registry is still its entry, unless it has been swept away. */
  ghost predicate LookupHolds<M>(c: Coordinator<M>, key: string, pc: Pc<M>) {
    pc.LostShutdownUse? ==>
      if key in c.shutdown then c.shutdown[key] == pc.found else pc.found.Some? && pc.found.value in c.freed
  }

  /** A NULL in the shutdown registry was inserted by a lookup whose callback has not used it yet. */
  ghost predicate NullsArePending<M>(shutdown: Registry<M>, running: map<string, Pc<M>>) {
    forall k :: k in shutdown && shutdown[k].None? ==> k in running && running[k] == LostShutdownUse(None)
  }

  /** The callback is between `hasModule` on the shutdown registry and the use of the module it looks up. */
  predicate InWindow<M>(pc: Pc<M>) {
    pc.LostShutdownGet? || pc.LostShutdownUse?
  }

  /** The callback will dereference NULL or a deleted module, as the entry it relies on has been swept. */
  predicate Doomed<M>(s: State<M>, key: string)
    requires key in s.running
  {
    var pc := s.running[key];
    (pc.LostShutdownGet? && key !in s.registries.shutdown) || (pc.LostShutdownUse? && Dead(s.registries, pc.found))
  }

  /** A carried module is neither registered nor freed. */
  ghost predicate CarriedApart<M>(c: Coordinator<M>, pc: Pc<M>) {
    Carried(pc).Some? ==>
      && Carried(pc).value in c.created && Carried(pc).value !in c.freed
      && Carried(pc).value !in Modules(c.active) && Carried(pc).value !in Modules(c.shutdown)
  }

  ghost predicate CarryDifferent<M>(p: Pc<M>, q: Pc<M>) {
    Carried(p).Some? ==> Carried(p) != Carried(q)
  }

  // ---------------------------------------------------------------- whose callbacks they are

  /** Every module is registered under the text of its own connection, and callbacks come from connections
      of that text whose module has not been deleted. */
  ghost predicate Texts<M>(s: State<M>) {
    && s.texts.Keys == s.registries.created
    && ByText(s.texts, s.registries.active) && ByText(s.texts, s.registries.shutdown)
    && (forall key :: key in s.running ==> OwnerHolds(s, key))
    && (forall key :: key in s.running ==> CarriedByText(s.texts, key, s.running[key]))
  }

  ghost predicate ByText<M>(texts: map<M, string>, r: Registry<M>) {
    forall k :: k in r && r[k].Some? ==> HasText(texts, r[k].value, k)
  }

  ghost predicate HasText<M>(texts: map<M, string>, m: M, key: string) {
    m in texts && texts[m] == key
  }

  ghost predicate OwnerHolds<M>(s: State<M>, key: string)
    requires key in s.running
  {
    && key in s.owners && HasText(s.texts, s.owners[key], key) && s.owners[key] !in s.registries.freed
    && (IsNew(s.running[key]) ==> s.owners[key] == s.running[key].m)
  }

  ghost predicate CarriedByText<M>(texts: map<M, string>, key: string, pc: Pc<M>) {
    Carried(pc).Some? ==> HasText(texts, Carried(pc).value, key)
  }

  // ---------------------------------------------------------------- lemmas about one registry

  lemma CleanStore<M>(r: Registry<M>, key: string, m: M)
    ensures NonNull(Add(r, key, Some(m))) == Add(NonNull(r), key, Some(m))
  { }

  lemma CleanModules<M>(r: Registry<M>)
    ensures Modules(NonNull(r)) == Modules(r)
  {
    forall x | x in Modules(r) ensures x in Modules(NonNull(r)) {
      var k :| k in r && r[k] == Some(x);
      assert NonNull(r)[k] == Some(x);
    }
    forall x | x in Modules(NonNull(r)) ensures x in Modules(r) {
      var k :| k in NonNull(r) && NonNull(r)[k] == Some(x);
      assert r[k] == Some(x);
    }
  }

  lemma CleanGet<M>(r: Registry<M>, key: string)
    ensures NonNull(Get(r, key).0) == NonNull(r)
  { }

  lemma CleanWithoutNull<M>(r: Registry<M>)
    requires NoNull(r)
    ensures NonNull(r) == r
  { }

  lemma EraseKeepsInv<M>(c: Coordinator<M>, key: string)
    requires Lifecycle.Inv(c) && key in c.active
    ensures Lifecycle.Inv(c.(active := Remove(c.active, key)))
    ensures Modules(Remove(c.active, key)) == Modules(c.active) - {c.active[key].value}
  {
    var r := Remove(c.active, key);
    forall x | x in Modules(r) ensures x in Modules(c.active) && x != c.active[key].value {
      var k :| k in r && r[k] == Some(x);
      assert c.active[k] == Some(x) && k != key;
    }
    forall x | x in Modules(c.active) && x != c.active[key].value ensures x in Modules(r) {
      var k :| k in c.active && c.active[k] == Some(x);
      assert r[k] == Some(x);
    }
  }

  lemma StoreKeepsInv<M>(c: Coordinator<M>, key: string, m: M)
    requires Lifecycle.Inv(c) && m in c.created && m !in c.freed
    requires m !in Modules(c.active) && m !in Modules(c.shutdown)
    ensures Lifecycle.Inv(c.(shutdown := Add(c.shutdown, key, Some(m))))
    ensures key !in c.active ==> Lifecycle.Inv(c.(active := Add(c.active, key, Some(m))))
  {
    AddedModules(c.shutdown, key, m);
    AddedModules(c.active, key, m);
    StoreKeepsOwning(c, c.shutdown, key, m);
    if key !in c.active { StoreKeepsOwning(c, c.active, key, m); }
  }

  lemma AddedModules<M>(r: Registry<M>, key: string, m: M)
    ensures Modules(Add(r, key, Some(m))) <= Modules(r) + {m}
  { }

  lemma StoreKeepsOwning<M>(c: Coordinator<M>, r: Registry<M>, key: string, m: M)
    requires Owning(c, r) && m in c.created && m !in c.freed && m !in Modules(r)
    ensures Owning(c, Add(r, key, Some(m)))
  { }

  // ---------------------------------------------------------------- every interleaving keeps it

  /** The other callbacks do not notice a change to the registry entry of `key` and to the modules that
      change hands there. */
  ghost predicate OthersUndisturbed<M>(s: State<M>, c: Coordinator<M>, key: string) {
    && (forall k :: k != key ==> (k in c.active <==> k in s.registries.active))
    && (forall k :: k != key && k in c.active ==> c.active[k] == s.registries.active[k])
    && (forall k :: k != key ==> (k in c.shutdown <==> k in s.registries.shutdown))
    && (forall k :: k != key && k in c.shutdown ==> c.shutdown[k] == s.registries.shutdown[k])
    && s.registries.created <= c.created && c.freed == s.registries.freed
    && (forall k :: k in s.running && k != key ==> CarriedApart(c, s.running[k]))
  }

  /** The entry of `key` itself is not NULL, unless this is what its callback has just found. */
  ghost predicate EntryHolds<M>(c: Coordinator<M>, key: string, pc: Option<Pc<M>>) {
    key in c.shutdown && c.shutdown[key].None? ==> pc == Some(LostShutdownUse(None))
  }

  lemma OtherHolds<M>(s: State<M>, c: Coordinator<M>, key: string, k: string)
    requires Sound(s) && OthersUndisturbed(s, c, key) && k in s.running && k != key
    ensures PcHolds(c.active, k, s.running[k]) && LookupHolds(c, k, s.running[k]) && CarriedApart(c, s.running[k])
  {
    assert PcHolds(s.registries.active, k, s.running[k]) && LookupHolds(s.registries, k, s.running[k]);
  }

  lemma NullsStayPending<M>(s: State<M>, c: Coordinator<M>, key: string, running: map<string, Pc<M>>)
    requires Sound(s) && OthersUndisturbed(s, c, key)
    requires forall k :: k != key && k in s.running ==> k in running && running[k] == s.running[k]
    requires EntryHolds(c, key, if key in running then Some(running[key]) else None)
    ensures NullsArePending(c.shutdown, running)
  { }

  lemma ReplaceKeepsInv<M>(s: State<M>, c: Coordinator<M>, key: string, pc: Pc<M>)
    requires Sound(s) && Lifecycle.Inv(Clean(c)) && OthersUndisturbed(s, c, key)
    requires PcHolds(c.active, key, pc) && LookupHolds(c, key, pc) && CarriedApart(c, pc)
    requires forall k :: k in s.running && k != key ==> CarryDifferent(pc, s.running[k])
    requires EntryHolds(c, key, Some(pc))
    ensures Sound(Goto(s, c, key, pc))
  {
    var running := s.running[key := pc];
    forall k | k in running
      ensures PcHolds(c.active, k, running[k]) && LookupHolds(c, k, running[k]) && CarriedApart(c, running[k])
    {
      if k != key { OtherHolds(s, c, key, k); }
    }
    forall j, k | j in running && k in running && j != k ensures CarryDifferent(running[j], running[k]) {
      if j != key {
        if k != key { assert CarryDifferent(s.running[j], s.running[k]); }
        else { assert CarryDifferent(pc, s.running[j]); }
      }
    }
    NullsStayPending(s, c, key, running);
  }

  lemma FinishKeepsInv<M>(s: State<M>, c: Coordinator<M>, key: string)
    requires Sound(s) && Lifecycle.Inv(Clean(c)) && OthersUndisturbed(s, c, key) && EntryHolds(c, key, None)
    ensures Sound(Finish(s, c, key))
  {
    var running := s.running - {key};
    forall k | k in running
      ensures PcHolds(c.active, k, running[k]) && LookupHolds(c, k, running[k]) && CarriedApart(c, running[k])
    {
      OtherHolds(s, c, key, k);
    }
    NullsStayPending(s, c, key, running);
  }

  lemma SameInv<M>(s: State<M>, t: State<M>)
    requires Sound(s) && t.registries == s.registries && t.running == s.running
    ensures Sound(t)
  { }

  /** A section that changes no registry. */
  lemma QuietGoto<M>(s: State<M>, key: string, pc: Pc<M>)
    requires Sound(s) && key in s.running && !InWindow(s.running[key])
    requires PcHolds(s.registries.active, key, pc) && !pc.LostShutdownUse?
    requires Carried(pc) == Carried(s.running[key])
    ensures Sound(Goto(s, s.registries, key, pc))
  {
    assert CarriedApart(s.registries, s.running[key]);
    assert OthersUndisturbed(s, s.registries, key);
    forall k | k in s.running && k != key ensures CarryDifferent(pc, s.running[k]) {
      assert CarryDifferent(s.running[key], s.running[k]);
    }
    ReplaceKeepsInv(s, s.registries, key, pc);
  }

  lemma QuietFinish<M>(s: State<M>, key: string)
    requires Sound(s) && key in s.running && s.running[key] != LostShutdownUse(None)
    ensures Sound(Finish(s, s.registries, key))
  {
    assert OthersUndisturbed(s, s.registries, key);
    FinishKeepsInv(s, s.registries, key);
  }

  lemma ActiveIsAlive<M>(s: State<M>, key: string)
    requires Sound(s) && key in s.registries.active
    ensures s.registries.active[key].Some? && !Dead(s.registries, s.registries.active[key])
    ensures s.registries.active[key].value in Modules(s.registries.active)
  {
    var c := Clean(s.registries);
    assert c.active[key].value !in c.freed;
  }

  predicate InState<M>(pc: Pc<M>) {
    pc.NewCheck? || pc.StateCheck? || pc.StateGet? || pc.StateUse?
  }

  /** In `handleExitCode`. */
  predicate InExit<M>(pc: Pc<M>) {
    pc.ExitCheck? || pc.ExitGet? || pc.ExitErase? || pc.ExitMark? || pc.ExitStore?
  }

  /** In `handleConnectionLost`, before the shutdown registry is asked. */
  predicate InLost<M>(pc: Pc<M>) {
    pc.LostCheck? || pc.LostGet? || pc.LostErase? || pc.LostStore?
  }

  lemma StateKeepsInv<M>(s: State<M>, key: string)
    requires Sound(s) && key in s.running && InState(s.running[key])
    ensures AdvanceStep(s, key).Some? && Sound(AdvanceStep(s, key).value)
  {
    var c := s.registries;
    assert PcHolds(c.active, key, s.running[key]);
    if key in c.active { ActiveIsAlive(s, key); }
    match s.running[key]
    case NewCheck(m) => QuietGoto(s, key, NewStore(m, Has(c.active, key)));
    case StateCheck => if key in c.active { QuietGoto(s, key, StateGet); } else { QuietFinish(s, key); }
    case StateGet => QuietGoto(s, key, StateUse(c.active[key]));
    case StateUse(m) => QuietFinish(s, key);
  }

  lemma ExitKeepsInv<M>(s: State<M>, key: string)
    requires Sound(s) && key in s.running && InExit(s.running[key])
    ensures AdvanceStep(s, key).Some? && Sound(AdvanceStep(s, key).value)
  {
    var c := s.registries;
    assert PcHolds(c.active, key, s.running[key]);
    if key in c.active { ActiveIsAlive(s, key); }
    match s.running[key]
    case ExitCheck => if key in c.active { QuietGoto(s, key, ExitGet); } else { QuietFinish(s, key); }
    case ExitGet => QuietGoto(s, key, ExitErase(c.active[key]));
    case ExitErase(m) => EraseStepKeepsInv(s, key, ExitMark(m));
    case ExitMark(m) => assert CarriedApart(c, s.running[key]); QuietGoto(s, key, ExitStore(m));
    case ExitStore(m) => StoreStepKeepsInv(s, key);
  }

  lemma LostKeepsInv<M>(s: State<M>, key: string)
    requires Sound(s) && key in s.running && InLost(s.running[key])
    ensures AdvanceStep(s, key).Some? && Sound(AdvanceStep(s, key).value)
  {
    var c := s.registries;
    assert PcHolds(c.active, key, s.running[key]);
    if key in c.active { ActiveIsAlive(s, key); }
    match s.running[key]
    case LostCheck => QuietGoto(s, key, if key in c.active then LostGet else LostShutdownCheck);
    case LostGet => QuietGoto(s, key, LostErase(c.active[key]));
    case LostErase(m) => EraseStepKeepsInv(s, key, LostStore(m));
    case LostStore(m) => StoreStepKeepsInv(s, key);
  }

  lemma NewStoreKeepsInv<M>(s: State<M>, key: string)
    requires Sound(s) && key in s.running && s.running[key].NewStore?
    ensures Sound(AdvanceStep(s, key).value)
  {
    var c := s.registries;
    var NewStore(m, known) := s.running[key];
    assert PcHolds(c.active, key, s.running[key]) && CarriedApart(c, s.running[key]);
    if known {
      QuietFinish(s, key);
    } else {
      var c' := c.(active := Add(c.active, key, Some(m)));
      CleanModules(c.shutdown);
      StoreKeepsInv(Clean(c), key, m);
      AddedModules(c.active, key, m);
      OthersKeepTheirs(s, c', key, m);
      FinishKeepsInv(s, c', key);
    }
  }

  /** Handing the module carried for `key` to a registry does not touch what the others carry. */
  lemma OthersKeepTheirs<M>(s: State<M>, c: Coordinator<M>, key: string, m: M)
    requires Sound(s) && key in s.running && Carried(s.running[key]) == Some(m)
    requires c.created == s.registries.created && c.freed == s.registries.freed
    requires Modules(c.active) <= Modules(s.registries.active) + {m}
    requires Modules(c.shutdown) <= Modules(s.registries.shutdown) + {m}
    ensures forall k :: k in s.running && k != key ==> CarriedApart(c, s.running[k])
  {
    forall k | k in s.running && k != key ensures CarriedApart(c, s.running[k]) {
      assert CarriedApart(s.registries, s.running[k]) && CarryDifferent(s.running[k], s.running[key]);
    }
  }

  lemma EraseStepKeepsInv<M>(s: State<M>, key: string, pc: Pc<M>)
    requires Sound(s) && key in s.running && (s.running[key].ExitErase? || s.running[key].LostErase?)
    requires (pc.ExitMark? || pc.LostStore?) && pc.found == s.running[key].found
    ensures Sound(Goto(s, s.registries.(active := Remove(s.registries.active, key)), key, pc))
  {
    var c := s.registries;
    assert PcHolds(c.active, key, s.running[key]);
    ActiveIsAlive(s, key);
    EraseKeepsInv(Clean(c), key);
    CleanModules(c.shutdown);
    var c' := c.(active := Remove(c.active, key));
    OthersKeepAfterErase(s, c', key);
    ActiveIsCreated(s, key);
    ReplaceKeepsInv(s, c', key, pc);
  }

  lemma ActiveIsCreated<M>(s: State<M>, key: string)
    requires Sound(s) && key in s.registries.active && s.registries.active[key].Some?
    ensures s.registries.active[key].value in s.registries.created
    ensures s.registries.active[key].value !in Modules(s.registries.shutdown)
    ensures forall k :: k in s.running ==> Carried(s.running[k]) != s.registries.active[key]
  {
    var c := Clean(s.registries);
    CleanModules(s.registries.shutdown);
    assert c.active[key].value in Modules(c.active);
    forall k | k in s.running ensures Carried(s.running[k]) != s.registries.active[key] {
      assert CarriedApart(s.registries, s.running[k]);
    }
  }

  lemma OthersKeepAfterErase<M>(s: State<M>, c: Coordinator<M>, key: string)
    requires Sound(s) && key in s.registries.active
    requires c == s.registries.(active := Remove(s.registries.active, key))
    requires Modules(c.active) <= Modules(s.registries.active)
    ensures OthersUndisturbed(s, c, key)
  {
    forall k | k in s.running && k != key ensures CarriedApart(c, s.running[k]) {
      assert CarriedApart(s.registries, s.running[k]);
    }
  }

  lemma StoreStepKeepsInv<M>(s: State<M>, key: string)
    requires Sound(s) && key in s.running && (s.running[key].ExitStore? || s.running[key].LostStore?)
    ensures Sound(AdvanceStep(s, key).value)
  {
    var c := s.registries;
    assert PcHolds(c.active, key, s.running[key]) && CarriedApart(c, s.running[key]);
    var m := s.running[key].found.value;
    var c' := c.(shutdown := Add(c.shutdown, key, Some(m)));
    CleanModules(c.shutdown);
    CleanStore(c.shutdown, key, m);
    StoreKeepsInv(Clean(c), key, m);
    AddedModules(c.shutdown, key, m);
    OthersKeepTheirs(s, c', key, m);
    FinishKeepsInv(s, c', key);
  }

  /** The lookup in the shutdown registry changes nothing if its entry is still there, and inserts NULL if
      not. Its last section is the only one of a callback that can fail. */
  lemma LookupKeepsInv<M>(s: State<M>, key: string)
    requires Sound(s) && key in s.running && (s.running[key].LostShutdownCheck? || InWindow(s.running[key]))
    ensures AdvanceStep(s, key).None? <==> s.running[key].LostShutdownUse? && Doomed(s, key)
    ensures AdvanceStep(s, key).Some? ==> Sound(AdvanceStep(s, key).value)
  {
    var c := s.registries;
    assert PcHolds(c.active, key, s.running[key]) && LookupHolds(c, key, s.running[key]);
    match s.running[key]
    case LostShutdownCheck =>
      if key in c.shutdown { QuietGoto(s, key, LostShutdownGet); } else { QuietFinish(s, key); }
    case LostShutdownGet => LookupGetKeepsInv(s, key);
    case LostShutdownUse(m) => if !Dead(c, m) { QuietFinish(s, key); }
  }

  lemma LookupGetKeepsInv<M>(s: State<M>, key: string)
    requires Sound(s) && key in s.running && s.running[key].LostShutdownGet?
    ensures Sound(AdvanceStep(s, key).value)
  {
    var c := s.registries;
    assert PcHolds(c.active, key, s.running[key]);
    var c' := c.(shutdown := Get(c.shutdown, key).0);
    CleanGet(c.shutdown, key);
    assert Clean(c') == Clean(c);
    CleanModules(c.shutdown);
    CleanModules(c'.shutdown);
    forall k | k in s.running ensures CarriedApart(c', s.running[k]) { assert CarriedApart(c, s.running[k]); }
    ReplaceKeepsInv(s, c', key, LostShutdownUse(Get(c.shutdown, key).1));
  }

  lemma AdvanceKeepsInv<M>(s: State<M>, key: string)
    requires Sound(s) && key in s.running
    ensures AdvanceStep(s, key).None? <==> s.running[key].LostShutdownUse? && Doomed(s, key)
    ensures AdvanceStep(s, key).Some? ==> Sound(AdvanceStep(s, key).value)
  {
    var pc := s.running[key];
    if pc.NewStore? {
      NewStoreKeepsInv(s, key);
    } else if InExit(pc) {
      ExitKeepsInv(s, key);
    } else if InLost(pc) {
      LostKeepsInv(s, key);
    } else if InState(pc) {
      StateKeepsInv(s, key);
    } else {
      LookupKeepsInv(s, key);
    }
  }

  lemma SweepStepKeepsInv<M>(s: State<M>)
    requires Sound(s) && NoNull(s.registries.shutdown)
    ensures Step(s.registries, Event<M>.Sweep).Some?
    ensures Sound(s.(registries := Step(s.registries, Event<M>.Sweep).value))
  {
    var c := s.registries;
    CleanWithoutNull(c.shutdown);
    SweepKeepsInv(c);
    var c' := Step(c, Event<M>.Sweep).value;
    CleanWithoutNull(c'.shutdown);
    forall k | k in s.running ensures CarriedApart(c', s.running[k]) && LookupHolds(c', k, s.running[k]) {
      assert CarriedApart(c, s.running[k]) && LookupHolds(c, k, s.running[k]);
      LookupAfterSweep(c, k, s.running[k]);
      CarriedAfterSweep(c, s.running[k]);
    }
  }

  lemma CarriedAfterSweep<M>(c: Coordinator<M>, pc: Pc<M>)
    requires Owning(c, c.shutdown) && Step(c, Event<M>.Sweep).Some? && CarriedApart(c, pc)
    ensures CarriedApart(Step(c, Event<M>.Sweep).value, pc)
  {
    DeletedExactlyOnce(c, c.shutdown);
  }

  lemma LookupAfterSweep<M>(c: Coordinator<M>, key: string, pc: Pc<M>)
    requires Step(c, Event<M>.Sweep).Some? && LookupHolds(c, key, pc)
    ensures LookupHolds(Step(c, Event<M>.Sweep).value, key, pc)
  {
    if key in c.shutdown { DeletesEach(c.shutdown, key); }
  }

  lemma BeginKeepsInv<M>(s: State<M>, key: string, call: Call<M>)
    requires Sound(s) && Enabled(s, Begin(key, call))
    ensures Sound(BeginStep(s, key, call))
  {
    var t := BeginStep(s, key, call);
    var c' := t.registries;
    if call.OnNew? {
      NewIsApart(s, call.m);
    } else {
      forall k | k in s.running ensures CarriedApart(c', s.running[k]) {
        assert CarriedApart(s.registries, s.running[k]);
      }
    }
    assert OthersUndisturbed(s, c', key);
    ReplaceKeepsInv(s, c', key, FirstPc(call));
    SameInv(Goto(s, c', key, FirstPc(call)), t);
  }

  lemma NewIsApart<M>(s: State<M>, m: M)
    requires Sound(s) && m !in s.registries.created
    ensures var c' := s.registries.(created := s.registries.created + {m});
            && Lifecycle.Inv(Clean(c')) && CarriedApart(c', NewCheck(m))
            && forall k :: k in s.running ==>
                 CarriedApart(c', s.running[k]) && CarryDifferent(NewCheck(m), s.running[k])
  {
    var c := s.registries;
    var c' := c.(created := c.created + {m});
    RegisteredIsCreated(Clean(c), c.active);
    RegisteredIsCreated(Clean(c), NonNull(c.shutdown));
    CleanModules(c.shutdown);
    forall k | k in s.running ensures CarriedApart(c', s.running[k]) && CarryDifferent(NewCheck(m), s.running[k]) {
      assert CarriedApart(c, s.running[k]);
    }
  }

  /** Nothing dereferences NULL or a deleted module, and every step keeps the invariant, except that a doomed
      lookup fails at its use, and the loop at the NULL it has inserted. */
  lemma NextKeepsInv<M>(s: State<M>, a: Action<M>)
    requires Sound(s) && Enabled(s, a)
    ensures Next(s, a).None? <==>
            || (a.Advance? && s.running[a.key].LostShutdownUse? && Doomed(s, a.key))
            || (a.LoopSweep? && !NoNull(s.registries.shutdown))
    ensures Next(s, a).Some? ==> Sound(Next(s, a).value)
  {
    match a
    case Begin(key, call) => BeginKeepsInv(s, key, call);
    case Advance(key) => AdvanceKeepsInv(s, key);
    case LoopSweep => if NoNull(s.registries.shutdown) { SweepStepKeepsInv(s); }
    case LoopPulse =>
  }

  // ---------------------------------------------------------------- every step keeps the texts

  lemma AdvanceKeepsTexts<M>(s: State<M>, key: string)
    requires Sound(s) && Texts(s) && key in s.running && AdvanceStep(s, key).Some?
    ensures Texts(AdvanceStep(s, key).value)
  {
    var t := AdvanceStep(s, key).value;
    assert PcHolds(s.registries.active, key, s.running[key]);
    assert CarriedByText(s.texts, key, s.running[key]);
    SectionKeepsTexts(s, key);
    forall k | k in t.running ensures OwnerHolds(t, k) && CarriedByText(t.texts, k, t.running[k]) {
      OwnerStays(s, key, k);
    }
  }

  lemma SectionKeepsTexts<M>(s: State<M>, key: string)
    requires Sound(s) && Texts(s) && key in s.running && AdvanceStep(s, key).Some?
    ensures var c := AdvanceStep(s, key).value.registries;
            && c.created == s.registries.created && c.freed == s.registries.freed
            && ByText(s.texts, c.active) && ByText(s.texts, c.shutdown)
  {
    assert CarriedByText(s.texts, key, s.running[key]) && PcHolds(s.registries.active, key, s.running[key]);
  }

  lemma OwnerStays<M>(s: State<M>, key: string, k: string)
    requires Sound(s) && Texts(s) && key in s.running && AdvanceStep(s, key).Some?
    requires k in AdvanceStep(s, key).value.running
    ensures var t := AdvanceStep(s, key).value; OwnerHolds(t, k) && CarriedByText(t.texts, k, t.running[k])
  {
    assert OwnerHolds(s, k) && CarriedByText(s.texts, k, s.running[k]);
    if k == key {
      assert PcHolds(s.registries.active, key, s.running[key]);
      NextPcCarries(s.registries, key, s.running[key]);
      if key in s.registries.active { ActiveIsAlive(s, key); }
    } else {
      assert AdvanceStep(s, key).value.running[k] == s.running[k];
    }
  }

  /** What a callback carries it has carried before, or taken out of the active registry. */
  lemma NextPcCarries<M>(c: Coordinator<M>, key: string, pc: Pc<M>)
    requires PcHolds(c.active, key, pc) && Section(c, key, pc).Some? && Section(c, key, pc).value.next.Some?
    ensures Section(c, key, pc).value.c.freed == c.freed
    ensures var next := Section(c, key, pc).value.next.value;
            && (IsNew(next) ==> IsNew(pc) && next.m == pc.m)
            && (Carried(next).Some? && Carried(next) != Carried(pc) ==>
                key in c.active && c.active[key] == Carried(next))
  { }

  lemma BeginKeepsTexts<M>(s: State<M>, key: string, call: Call<M>)
    requires Sound(s) && Texts(s) && Enabled(s, Begin(key, call))
    ensures Texts(BeginStep(s, key, call))
  {
    var t := BeginStep(s, key, call);
    if call.OnNew? { NewIsNotFreed(s, call.m); }
    assert OwnerHolds(t, key) && CarriedByText(t.texts, key, t.running[key]);
    forall k | k in t.running && k != key ensures OwnerHolds(t, k) && CarriedByText(t.texts, k, t.running[k]) {
      assert OwnerHolds(s, k) && CarriedByText(s.texts, k, s.running[k]);
    }
    TextsGrow(s.texts, t.texts, s.registries.active);
    TextsGrow(s.texts, t.texts, s.registries.shutdown);
  }

  lemma NewIsNotFreed<M>(s: State<M>, m: M)
    requires Sound(s) && m !in s.registries.created
    ensures m !in s.registries.freed
  {
    var c := Clean(s.registries);
    assert m in c.freed ==> m in c.created;
  }

  lemma TextsGrow<M>(texts: map<M, string>, texts': map<M, string>, r: Registry<M>)
    requires ByText(texts, r) && forall m :: m in texts ==> m in texts' && texts'[m] == texts[m]
    ensures ByText(texts', r)
  {
    forall k | k in r && r[k].Some? ensures HasText(texts', r[k].value, k) {
      assert HasText(texts, r[k].value, k);
    }
  }

  lemma SweepKeepsTexts<M>(s: State<M>)
    requires Sound(s) && Texts(s) && Enabled(s, Action<M>.LoopSweep) && NoNull(s.registries.shutdown)
    ensures Next(s, Action<M>.LoopSweep).Some? && Texts(Next(s, Action<M>.LoopSweep).value)
  {
    SweepStepKeepsInv(s);
    var t := Next(s, Action<M>.LoopSweep).value;
    forall k | k in t.running ensures OwnerHolds(t, k) && CarriedByText(t.texts, k, t.running[k]) {
      assert OwnerHolds(s, k) && CarriedByText(s.texts, k, s.running[k]);
      OwnerIsNotSwept(s, k);
    }
  }

  /** The loop deletes no module whose callback is running. */
  lemma OwnerIsNotSwept<M>(s: State<M>, key: string)
    requires Sound(s) && Texts(s) && key in s.running
    requires Enabled(s, Action<M>.LoopSweep) && NoNull(s.registries.shutdown)
    ensures s.owners[key] !in Modules(s.registries.shutdown)
    ensures Next(s, Action<M>.LoopSweep).Some?
    ensures s.owners[key] !in Next(s, Action<M>.LoopSweep).value.registries.freed
  {
    var c := s.registries;
    assert OwnerHolds(s, key) && CarriedApart(c, s.running[key]);
    if !IsNew(s.running[key]) {
      assert Held(s, s.owners[key]);
      forall k | k in c.shutdown ensures c.shutdown[k] != Some(s.owners[key]) { }
    }
    CleanWithoutNull(c.shutdown);
    DeletedExactlyOnce(Clean(c), c.shutdown);
  }

  lemma NextKeepsTexts<M>(s: State<M>, a: Action<M>)
    requires Sound(s) && Texts(s) && Enabled(s, a) && Next(s, a).Some?
    ensures Texts(Next(s, a).value)
  {
    NextKeepsInv(s, a);
    match a
    case Begin(key, call) => BeginKeepsTexts(s, key, call);
    case Advance(key) => AdvanceKeepsTexts(s, key);
    case LoopSweep => SweepKeepsTexts(s);
    case LoopPulse =>
  }

  // ---------------------------------------------------------------- refinement of the atomic callbacks

  /** The atomic state an interleaved state stands for: a module on its way to the shutdown registry still
      counts as active, a new module does not exist before it is stored or dropped, and NULL is no entry. */
  ghost function Abs<M>(s: State<M>): Coordinator<M> {
    Coordinator(AbsActive(s), NonNull(s.registries.shutdown), s.registries.created - Unborn(s), s.registries.freed)
  }

  ghost function AbsActive<M>(s: State<M>): Registry<M> {
    map key | key in s.registries.active.Keys + s.running.Keys && InAbsActive(s, key)
      :: if key in s.registries.active then s.registries.active[key] else s.running[key].found
  }

  predicate InAbsActive<M>(s: State<M>, key: string) {
    key in s.registries.active || (key in s.running && Moving(s.running[key]))
  }

  ghost function Unborn<M>(s: State<M>): set<M> {
    set key | key in s.running && IsNew(s.running[key]) :: s.running[key].m
  }

  /** The atomic callback that takes effect with this action, if any does. */
  function Effect<M>(s: State<M>, a: Action<M>): seq<Event<M>> {
    match a
    case Advance(key) =>
      if key !in s.running then []
      else (match s.running[key]
            case NewStore(m, _) => [NewModule(key, m)]
            case StateUse(_) => [ChangeState(key)]
            case ExitStore(_) => [ExitCode(key)]
            case LostStore(_) => [ConnectionLost(key)]
            case _ => [])
    case LoopSweep => [Event.Sweep]
    case _ => []
  }

  /** Away from `key` the two states agree. */
  ghost predicate AgreeOff<M>(s: State<M>, s': State<M>, key: string) {
    && s.running - {key} == s'.running - {key}
    && s.registries.active - {key} == s'.registries.active - {key}
  }

  lemma AbsActiveOff<M>(s: State<M>, s': State<M>, key: string, k: string)
    requires AgreeOff(s, s', key) && k != key
    ensures k in AbsActive(s) <==> k in AbsActive(s')
    ensures k in AbsActive(s) ==> AbsActive(s)[k] == AbsActive(s')[k]
  {
    assert k in s.running <==> k in s.running - {key};
    assert k in s'.running <==> k in s'.running - {key};
    assert k in s.registries.active <==> k in s.registries.active - {key};
    assert k in s'.registries.active <==> k in s'.registries.active - {key};
    if k in s.running { assert s.running[k] == (s.running - {key})[k] == (s'.running - {key})[k] == s'.running[k]; }
    if k in s.registries.active {
      assert s.registries.active[k] == (s.registries.active - {key})[k] == (s'.registries.active - {key})[k];
    }
  }

  /** Two abstract active registries that agree at `key` are equal. */
  lemma AbsActiveEqual<M>(s: State<M>, s': State<M>, key: string)
    requires AgreeOff(s, s', key)
    requires key in AbsActive(s) <==> key in AbsActive(s')
    requires key in AbsActive(s) ==> AbsActive(s)[key] == AbsActive(s')[key]
    ensures AbsActive(s) == AbsActive(s')
  {
    forall k
      ensures (k in AbsActive(s) <==> k in AbsActive(s')) && (k in AbsActive(s) ==> AbsActive(s)[k] == AbsActive(s')[k])
    {
      if k != key { AbsActiveOff(s, s', key, k); }
    }
  }

  lemma UnbornAfterGoto<M>(s: State<M>, s': State<M>, key: string, pc: Pc<M>)
    requires key in s.running && s'.running == s.running[key := pc]
    requires IsNew(pc) <==> IsNew(s.running[key])
    requires IsNew(pc) ==> pc.m == s.running[key].m
    ensures Unborn(s') == Unborn(s)
  {
    forall x | x in Unborn(s) ensures x in Unborn(s') {
      var k :| k in s.running && IsNew(s.running[k]) && s.running[k].m == x;
      assert k in s'.running && IsNew(s'.running[k]) && s'.running[k].m == x;
    }
    forall x | x in Unborn(s') ensures x in Unborn(s) {
      var k :| k in s'.running && IsNew(s'.running[k]) && s'.running[k].m == x;
      assert k in s.running && IsNew(s.running[k]) && s.running[k].m == x;
    }
  }

  lemma UnbornAfterFinish<M>(s: State<M>, s': State<M>, key: string)
    requires Sound(s) && key in s.running && s'.running == s.running - {key}
    ensures Unborn(s') == Unborn(s) - (if IsNew(s.running[key]) then {s.running[key].m} else {})
  {
    forall x | x in Unborn(s') ensures x in Unborn(s) && (IsNew(s.running[key]) ==> x != s.running[key].m) {
      var k :| k in s'.running && IsNew(s'.running[k]) && s'.running[k].m == x;
      assert k in s.running && k != key;
      assert CarryDifferent(s.running[k], s.running[key]);
    }
    forall x | x in Unborn(s) && (IsNew(s.running[key]) ==> x != s.running[key].m) ensures x in Unborn(s') {
      var k :| k in s.running && IsNew(s.running[k]) && s.running[k].m == x;
      assert k in s'.running && IsNew(s'.running[k]);
    }
  }

  lemma UnbornAfterBegin<M>(s: State<M>, s': State<M>, key: string, pc: Pc<M>)
    requires key !in s.running && s'.running == s.running[key := pc]
    ensures Unborn(s') == Unborn(s) + (if IsNew(pc) then {pc.m} else {})
  {
    if IsNew(pc) { assert s'.running[key] == pc; }
    forall x | x in Unborn(s') ensures x in Unborn(s) + (if IsNew(pc) then {pc.m} else {}) {
      var k :| k in s'.running && IsNew(s'.running[k]) && s'.running[k].m == x;
      if k != key { assert k in s.running && IsNew(s.running[k]); }
    }
    forall x | x in Unborn(s) ensures x in Unborn(s') {
      var k :| k in s.running && IsNew(s.running[k]) && s.running[k].m == x;
      assert k in s'.running && s'.running[k] == s.running[k];
    }
  }

  /** The same registries except, perhaps, for the active entry of `key` and for NULL. */
  ghost predicate AlmostSame<M>(c: Coordinator<M>, c': Coordinator<M>, key: string) {
    && c.active - {key} == c'.active - {key} && NonNull(c.shutdown) == NonNull(c'.shutdown)
    && c.created == c'.created && c.freed == c'.freed
  }

  /** A lock section after which the callback runs on is invisible from outside. */
  lemma GotoStutters<M>(s: State<M>, c: Coordinator<M>, key: string, pc: Pc<M>)
    requires key in s.running && AlmostSame(s.registries, c, key)
    requires var s' := Goto(s, c, key, pc);
             && (key in AbsActive(s) <==> key in AbsActive(s'))
             && (key in AbsActive(s) ==> AbsActive(s)[key] == AbsActive(s')[key])
    requires IsNew(pc) <==> IsNew(s.running[key])
    requires IsNew(pc) ==> pc.m == s.running[key].m
    ensures Abs(Goto(s, c, key, pc)) == Abs(s)
  {
    var s' := Goto(s, c, key, pc);
    assert s.running - {key} == s'.running - {key};
    AbsActiveEqual(s, s', key);
    UnbornAfterGoto(s, s', key, pc);
  }

  lemma FinishStutters<M>(s: State<M>, key: string)
    requires Sound(s) && key in s.running && !IsNew(s.running[key]) && !Moving(s.running[key])
    ensures Abs(Finish(s, s.registries, key)) == Abs(s)
  {
    var s' := Finish(s, s.registries, key);
    assert s.running - {key} == s'.running - {key};
    AbsActiveEqual(s, s', key);
    UnbornAfterFinish(s, s', key);
  }

  lemma AbsActiveSet<M>(s: State<M>, s': State<M>, key: string)
    requires AgreeOff(s, s', key)
    ensures key in AbsActive(s') ==> AbsActive(s') == AbsActive(s)[key := AbsActive(s')[key]]
    ensures key !in AbsActive(s') ==> AbsActive(s') == AbsActive(s) - {key}
  {
    forall k | k != key
      ensures (k in AbsActive(s) <==> k in AbsActive(s')) && (k in AbsActive(s) ==> AbsActive(s)[k] == AbsActive(s')[k])
    {
      AbsActiveOff(s, s', key, k);
    }
  }

  /** Storing (or dropping) the new module is the atomic `onNewModule`. */
  lemma NewStoreRefines<M>(s: State<M>, key: string)
    requires Sound(s) && key in s.running && s.running[key].NewStore?
    ensures var m := s.running[key].m;
            && m !in Abs(s).created
            && Step(Abs(s), NewModule(key, m)) == Some(Abs(AdvanceStep(s, key).value))
  {
    NewStoreCreated(s, AdvanceStep(s, key).value, key);
    NewStoreActive(s, key);
    assert PcHolds(s.registries.active, key, s.running[key]);
  }

  lemma NewStoreActive<M>(s: State<M>, key: string)
    requires key in s.running && s.running[key].NewStore? && PcHolds(s.registries.active, key, s.running[key])
    ensures key in AbsActive(s) <==> key in s.registries.active
    ensures AbsActive(AdvanceStep(s, key).value) ==
            if key in s.registries.active then AbsActive(s) else Add(AbsActive(s), key, Some(s.running[key].m))
  {
    var s' := AdvanceStep(s, key).value;
    assert s'.running - {key} == s.running - {key};
    assert s'.registries.active - {key} == s.registries.active - {key};
    if key in s.registries.active {
      AbsActiveEqual(s, s', key);
    } else {
      AbsActiveSet(s, s', key);
      assert AbsActive(s')[key] == Some(s.running[key].m);
    }
  }

  lemma NewStoreCreated<M>(s: State<M>, s': State<M>, key: string)
    requires Sound(s) && key in s.running && s.running[key].NewStore?
    requires s'.running == s.running - {key} && s'.registries.created == s.registries.created
    ensures s.running[key].m !in Abs(s).created
    ensures Abs(s').created == Abs(s).created + {s.running[key].m}
  {
    UnbornAfterFinish(s, s', key);
    assert s.running[key].m in Unborn(s);
    UnbornCreated(s);
  }

  lemma UnbornCreated<M>(s: State<M>)
    requires Sound(s)
    ensures Unborn(s) <= s.registries.created
  {
    forall x | x in Unborn(s) ensures x in s.registries.created {
      var k :| k in s.running && IsNew(s.running[k]) && s.running[k].m == x;
      assert CarriedApart(s.registries, s.running[k]);
    }
  }

  /** Adding the carried module to the shutdown registry is the whole atomic move. */
  lemma MoveRefines<M>(s: State<M>, key: string)
    requires Sound(s) && key in s.running && (s.running[key].ExitStore? || s.running[key].LostStore?)
    ensures var e := if s.running[key].ExitStore? then ExitCode(key) else ConnectionLost(key);
            Step(Abs(s), e) == Some(Abs(AdvanceStep(s, key).value))
  {
    var s' := AdvanceStep(s, key).value;
    assert PcHolds(s.registries.active, key, s.running[key]);
    MoveActive(s, key);
    UnbornAfterFinish(s, s', key);
    CleanStore(s.registries.shutdown, key, s.running[key].found.value);
    MoveEvent(Abs(s), key);
    MovedIs(Abs(s), Abs(s'), key, s.running[key].found);
  }

  lemma MovedIs<M>(c: Coordinator<M>, c': Coordinator<M>, key: string, m: Option<M>)
    requires c'.active == Remove(c.active, key) && c'.shutdown == Add(c.shutdown, key, m)
    requires c'.created == c.created && c'.freed == c.freed
    ensures c' == Move(c, key, m)
  { }

  lemma MoveActive<M>(s: State<M>, key: string)
    requires key in s.running && (s.running[key].ExitStore? || s.running[key].LostStore?)
    requires PcHolds(s.registries.active, key, s.running[key])
    ensures key in AbsActive(s) && AbsActive(s)[key] == s.running[key].found
    ensures AbsActive(AdvanceStep(s, key).value) == Remove(AbsActive(s), key)
  {
    var s' := AdvanceStep(s, key).value;
    assert s'.running - {key} == s.running - {key};
    AbsActiveSet(s, s', key);
  }

  lemma MoveEvent<M>(c: Coordinator<M>, key: string)
    requires key in c.active && c.active[key].Some?
    ensures Step(c, ExitCode(key)) == Some(Move(c, key, c.active[key]))
    ensures Step(c, ConnectionLost(key)) == Some(Move(c, key, c.active[key]))
  { }

  lemma CheckRefines<M>(s: State<M>, key: string, pc: Pc<M>)
    requires Sound(s) && key in s.running
    requires s.running[key].StateCheck? || s.running[key].ExitCheck?
    requires pc.StateGet? || pc.ExitGet?
    ensures Abs(if key in s.registries.active then Goto(s, s.registries, key, pc) else Finish(s, s.registries, key)) ==
            Abs(s)
  {
    if key in s.registries.active { GotoStutters(s, s.registries, key, pc); } else { FinishStutters(s, key); }
  }

  lemma GetRefines<M>(s: State<M>, key: string, pc: Pc<M>)
    requires key in s.running && key in s.registries.active
    requires s.running[key].StateGet? || s.running[key].ExitGet? || s.running[key].LostGet?
    requires pc.StateUse? || pc.ExitErase? || pc.LostErase?
    ensures Abs(Goto(s, s.registries, key, pc)) == Abs(s)
  {
    GotoStutters(s, s.registries, key, pc);
  }

  lemma EraseRefines<M>(s: State<M>, key: string, pc: Pc<M>)
    requires key in s.running && (s.running[key].ExitErase? || s.running[key].LostErase?)
    requires PcHolds(s.registries.active, key, s.running[key])
    requires (pc.ExitMark? || pc.LostStore?) && pc.found == s.running[key].found
    ensures Abs(Goto(s, s.registries.(active := Remove(s.registries.active, key)), key, pc)) == Abs(s)
  {
    GotoStutters(s, s.registries.(active := Remove(s.registries.active, key)), key, pc);
  }

  /** The lock sections of `handleExitCode` before the last one are invisible. */
  lemma ExitStutters<M>(s: State<M>, key: string)
    requires Sound(s) && key in s.running && InExit(s.running[key]) && !s.running[key].ExitStore?
    requires AdvanceStep(s, key).Some?
    ensures Abs(AdvanceStep(s, key).value) == Abs(s)
  {
    var c := s.registries;
    assert PcHolds(c.active, key, s.running[key]);
    match s.running[key]
    case ExitCheck => CheckRefines(s, key, ExitGet);
    case ExitGet => GetRefines(s, key, ExitErase(c.active[key]));
    case ExitErase(m) => EraseRefines(s, key, ExitMark(m));
    case ExitMark(m) => GotoStutters(s, c, key, ExitStore(m));
  }

  /** The same for `handleConnectionLost`. */
  lemma LostStutters<M>(s: State<M>, key: string)
    requires Sound(s) && key in s.running && InLost(s.running[key]) && !s.running[key].LostStore?
    requires AdvanceStep(s, key).Some?
    ensures Abs(AdvanceStep(s, key).value) == Abs(s)
  {
    var c := s.registries;
    assert PcHolds(c.active, key, s.running[key]);
    match s.running[key]
    case LostCheck => GotoStutters(s, c, key, if key in c.active then LostGet else LostShutdownCheck);
    case LostGet => GetRefines(s, key, LostErase(c.active[key]));
    case LostErase(m) => EraseRefines(s, key, LostStore(m));
  }

  lemma LookupStutters<M>(s: State<M>, key: string)
    requires Sound(s) && key in s.running && (s.running[key].LostShutdownCheck? || InWindow(s.running[key]))
    requires AdvanceStep(s, key).Some?
    ensures Abs(AdvanceStep(s, key).value) == Abs(s)
  {
    match s.running[key]
    case LostShutdownCheck => LookupCheckStutters(s, key);
    case LostShutdownGet => LookupGetStutters(s, key);
    case LostShutdownUse(m) => FinishStutters(s, key);
  }

  lemma LookupCheckStutters<M>(s: State<M>, key: string)
    requires Sound(s) && key in s.running && s.running[key].LostShutdownCheck?
    ensures AdvanceStep(s, key).Some? && Abs(AdvanceStep(s, key).value) == Abs(s)
  {
    if key in s.registries.shutdown {
      GotoStutters(s, s.registries, key, LostShutdownGet);
    } else {
      FinishStutters(s, key);
    }
  }

  /** Even the NULL it may insert is invisible. */
  lemma LookupGetStutters<M>(s: State<M>, key: string)
    requires key in s.running && s.running[key].LostShutdownGet?
    ensures Abs(AdvanceStep(s, key).value) == Abs(s)
  {
    var (shutdown', m) := Get(s.registries.shutdown, key);
    CleanGet(s.registries.shutdown, key);
    GotoStutters(s, s.registries.(shutdown := shutdown'), key, LostShutdownUse(m));
  }

  lemma AdvanceStutters<M>(s: State<M>, key: string)
    requires Sound(s) && key in s.running && Effect(s, Advance(key)) == [] && AdvanceStep(s, key).Some?
    ensures Abs(AdvanceStep(s, key).value) == Abs(s)
  {
    var c, pc := s.registries, s.running[key];
    if InExit(pc) {
      ExitStutters(s, key);
    } else if InLost(pc) {
      LostStutters(s, key);
    } else if pc.LostShutdownCheck? || InWindow(pc) {
      LookupStutters(s, key);
    } else {
      StateStutters(s, key);
    }
  }

  lemma StateStutters<M>(s: State<M>, key: string)
    requires Sound(s) && key in s.running && InState(s.running[key]) && !s.running[key].StateUse?
    ensures AdvanceStep(s, key).Some? && Abs(AdvanceStep(s, key).value) == Abs(s)
  {
    var c := s.registries;
    assert PcHolds(c.active, key, s.running[key]);
    match s.running[key]
    case NewCheck(m) => GotoStutters(s, c, key, NewStore(m, Has(c.active, key)));
    case StateCheck => CheckRefines(s, key, StateGet);
    case StateGet => GetRefines(s, key, StateUse(c.active[key]));
  }

  lemma StateUseRefines<M>(s: State<M>, key: string)
    requires key in s.running && s.running[key].StateUse? && PcHolds(s.registries.active, key, s.running[key])
    ensures Step(Abs(s), ChangeState(key)) == Some(Abs(s))
  { }

  /** The atomic events lead from what `s` stands for to what `s'` stands for. */
  ghost predicate Refines<M>(s: State<M>, events: seq<Event<M>>, s': State<M>) {
    Run(Abs(s), events) == Some(Abs(s')) && FreshRun(Abs(s), events)
  }

  lemma OneEvent<M>(c: Coordinator<M>, e: Event<M>)
    ensures Run(c, [e]) == Step(c, e)
    ensures Fresh(c, e) ==> FreshRun(c, [e])
  { }

  lemma AdvanceTakesEffect<M>(s: State<M>, key: string)
    requires Sound(s) && key in s.running && Effect(s, Advance(key)) != [] && AdvanceStep(s, key).Some?
    ensures Refines(s, Effect(s, Advance(key)), AdvanceStep(s, key).value)
  {
    assert PcHolds(s.registries.active, key, s.running[key]);
    match s.running[key]
    case NewStore(m, known) => NewStoreRefines(s, key); OneEvent(Abs(s), NewModule(key, m));
    case StateUse(m) => FinishStutters(s, key); StateUseRefines(s, key); OneEvent(Abs(s), ChangeState(key));
    case ExitStore(m) => MoveRefines(s, key); OneEvent(Abs(s), ExitCode(key));
    case LostStore(m) => MoveRefines(s, key); OneEvent(Abs(s), ConnectionLost(key));
  }

  lemma AdvanceRefines<M>(s: State<M>, key: string)
    requires Sound(s) && key in s.running && AdvanceStep(s, key).Some?
    ensures Refines(s, Effect(s, Advance(key)), AdvanceStep(s, key).value)
  {
    if Effect(s, Advance(key)) == [] { AdvanceStutters(s, key); } else { AdvanceTakesEffect(s, key); }
  }

  lemma BeginRefines<M>(s: State<M>, key: string, call: Call<M>)
    requires Sound(s) && Enabled(s, Begin(key, call))
    ensures Abs(BeginStep(s, key, call)) == Abs(s)
  {
    UnbornCreated(s);
    BeginKeepsActive(s, key, call);
    BeginKeepsCreated(s, key, call);
  }

  lemma BeginKeepsActive<M>(s: State<M>, key: string, call: Call<M>)
    requires Enabled(s, Begin(key, call))
    ensures AbsActive(BeginStep(s, key, call)) == AbsActive(s)
  {
    var s' := BeginStep(s, key, call);
    assert s'.running - {key} == s.running - {key};
    AbsActiveEqual(s, s', key);
  }

  lemma BeginKeepsCreated<M>(s: State<M>, key: string, call: Call<M>)
    requires Enabled(s, Begin(key, call)) && Unborn(s) <= s.registries.created
    ensures var s' := BeginStep(s, key, call);
            s'.registries.created - Unborn(s') == s.registries.created - Unborn(s)
  {
    UnbornAfterBegin(s, BeginStep(s, key, call), key, FirstPc(call));
  }

  lemma SweepRefines<M>(s: State<M>)
    requires Sound(s) && NoNull(s.registries.shutdown) && Enabled(s, Action<M>.LoopSweep)
    ensures Next(s, Action<M>.LoopSweep).Some?
    ensures Step(Abs(s), Event<M>.Sweep) == Some(Abs(Next(s, Action<M>.LoopSweep).value))
  {
    SweepStepKeepsInv(s);
    CleanWithoutNull(s.registries.shutdown);
    SameViews(s, Next(s, Action<M>.LoopSweep).value);
  }

  lemma SameViews<M>(s: State<M>, s': State<M>)
    requires s'.running == s.running && s'.registries.active == s.registries.active
    ensures AbsActive(s') == AbsActive(s) && Unborn(s') == Unborn(s)
  { }

  /** Every step of every interleaving that has a result is one atomic callback, one atomic sweep, or
      invisible. */
  lemma NextRefines<M>(s: State<M>, a: Action<M>)
    requires Sound(s) && Enabled(s, a) && Next(s, a).Some?
    ensures Refines(s, Effect(s, a), Next(s, a).value)
  {
    NextKeepsInv(s, a);
    match a
    case Begin(key, call) => BeginRefines(s, key, call);
    case Advance(key) => AdvanceRefines(s, key);
    case LoopSweep => SweepRefines(s); OneEvent(Abs(s), Event<M>.Sweep);
    case LoopPulse =>
  }
}

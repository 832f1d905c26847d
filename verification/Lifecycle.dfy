/**
 Who owns a connected module, from the `new` in `onNewModule` to its `delete`: the two registries of the
 supercomponent as values, every callback and every sweep as one step, and what all runs keep.

 A registry maps the text of a module descriptor to a pointer; None is NULL. A step that would
 dereference NULL has no result.
 */
module Lifecycle {
  import opened Wrappers
  import opened StringOrder

  type Registry<M> = map<string, Option<M>>

  datatype Coordinator<M(==)> = Coordinator(
    active: Registry<M>,
    shutdown: Registry<M>,
    created: set<M>,
    freed: multiset<M>)

  datatype Event<M> =
    | NewModule(key: string, m: M)
    | ChangeState(key: string)
    | ExitCode(key: string)
    | ConnectionLost(key: string)
    | Sweep      // the loop deletes the modules in the shutdown registry
    | CloseDown  // the loop has ended and the remaining modules are deleted

  function Initial<M>(): Coordinator<M> {
    Coordinator(map[], map[], {}, multiset{})
  }

  // ---------------------------------------------------------------- one registry

  function Has<M>(r: Registry<M>, key: string): bool {
    key in r
  }

  function Add<M>(r: Registry<M>, key: string, m: Option<M>): Registry<M> {
    r[key := m]
  }

  /** The subscript operator of `std::map`: looking up a missing key inserts NULL. */
  function Get<M>(r: Registry<M>, key: string): (Registry<M>, Option<M>) {
    if key in r then (r, r[key]) else (r[key := None], None)
  }

  function Remove<M>(r: Registry<M>, key: string): Registry<M> {
    r - {key}
  }

  predicate NoNull<M>(r: Registry<M>) {
    forall key :: key in r ==> r[key].Some?
  }

  /** The pointees in iteration order. */
  function Pointees<M>(r: Registry<M>, keys: seq<string>): seq<M>
    requires NoNull(r) && forall key :: key in keys ==> key in r
  {
    if keys == [] then [] else [r[keys[0]].value] + Pointees(r, keys[1..])
  }

  /** What deleting all modules deletes, in order; None if it runs into NULL. */
  function Deleted<M>(r: Registry<M>): Option<seq<M>> {
    if NoNull(r) then Some(Pointees(r, SortedKeys(r.Keys))) else None
  }

  function Modules<M(==)>(r: Registry<M>): set<M> {
    set key | key in r && r[key].Some? :: r[key].value
  }

  // ---------------------------------------------------------------- one step

  function Move<M>(c: Coordinator<M>, key: string, m: Option<M>): Coordinator<M> {
    c.(active := Remove(c.active, key), shutdown := Add(c.shutdown, key, m))
  }

  function Step<M>(c: Coordinator<M>, e: Event<M>): Option<Coordinator<M>> {
    match e
    case NewModule(key, m) =>
      var c1 := c.(created := c.created + {m});
      Some(if Has(c1.active, key) then c1 else c1.(active := Add(c1.active, key, Some(m))))
    case ChangeState(key) =>
      if Has(c.active, key) then
        var (active', m) := Get(c.active, key);
        if m.None? then None else Some(c.(active := active'))
      else Some(c)
    case ExitCode(key) =>
      if Has(c.active, key) then
        var (active', m) := Get(c.active, key);
        if m.None? then None
        else Some(Move(c.(active := active'), key, m))
      else Some(c)
    case ConnectionLost(key) =>
      if Has(c.active, key) then
        var (active', m) := Get(c.active, key);
        Some(Move(c.(active := active'), key, m))
      else if Has(c.shutdown, key) then
        var (shutdown', m) := Get(c.shutdown, key);
        if m.None? then None else Some(c.(shutdown := shutdown'))
      else Some(c)
    case Sweep =>
      (match Deleted(c.shutdown)
       case None => None
       case Some(ms) => Some(c.(shutdown := map[], freed := c.freed + multiset(ms))))
    case CloseDown =>
      (match Deleted(c.active)
       case None => None
       case Some(ms) => Some(c.(active := map[], freed := c.freed + multiset(ms))))
  }

  /** The allocator hands out modules it has not handed out before. */
  predicate Fresh<M>(c: Coordinator<M>, e: Event<M>) {
    e.NewModule? ==> e.m !in c.created
  }

  // ---------------------------------------------------------------- the invariant

  ghost predicate Inv<M>(c: Coordinator<M>) {
    && Owning(c, c.active)
    && Owning(c, c.shutdown)
    && Modules(c.active) !! Modules(c.shutdown)
    && forall m :: m in c.freed ==> m in c.created && c.freed[m] == 1
  }

  /** A registry without NULL, without a module under two keys, and without a deleted module. */
  ghost predicate Owning<M>(c: Coordinator<M>, r: Registry<M>) {
    && NoNull(r)
    && (forall key :: key in r ==> r[key].value in c.created && r[key].value !in c.freed)
    && (forall j, k :: j in r && k in r && r[j] == r[k] ==> j == k)
  }

  /** Created, but neither registered nor deleted: no pointer to it is left. */
  ghost function Dropped<M>(c: Coordinator<M>): set<M> {
    set m | m in c.created && m !in Modules(c.active) && m !in Modules(c.shutdown) && m !in c.freed
  }

  // ---------------------------------------------------------------- lemmas

  lemma {:induction false} PointeesMembers<M>(r: Registry<M>, keys: seq<string>, m: M)
    requires NoNull(r) && forall key :: key in keys ==> key in r
    ensures m in Pointees(r, keys) <==> exists key :: key in keys && r[key] == Some(m)
    decreases |keys|
  {
    if keys != [] {
      PointeesMembers(r, keys[1..], m);
      if exists key :: key in keys && r[key] == Some(m) {
        var key :| key in keys && r[key] == Some(m);
        if key != keys[0] { assert key in keys[1..]; }
      }
      if m in Pointees(r, keys[1..]) {
        var key :| key in keys[1..] && r[key] == Some(m);
        assert key in keys;
      }
      if m == r[keys[0]].value { assert keys[0] in keys; }
    }
  }

  /** Deleting all modules deletes the one of every key. */
  lemma DeletesEach<M>(r: Registry<M>, key: string)
    requires Deleted(r).Some? && key in r
    ensures r[key].Some? && r[key].value in Deleted(r).value
  {
    var keys := SortedKeys(r.Keys);
    PointeesMembers(r, keys, r[key].value);
    assert key in keys && r[key] == Some(r[key].value);
  }

  lemma {:induction false} PointeesOnce<M>(r: Registry<M>, keys: seq<string>, m: M)
    requires NoNull(r) && forall key :: key in keys ==> key in r
    requires forall j, k :: j in r && k in r && r[j] == r[k] ==> j == k
    requires forall i, j :: 0 <= i < j < |keys| ==> keys[i] != keys[j]
    ensures multiset(Pointees(r, keys))[m] <= 1
    decreases |keys|
  {
    if keys != [] {
      var rest := Pointees(r, keys[1..]);
      PointeesOnce(r, keys[1..], m);
      assert Pointees(r, keys) == [r[keys[0]].value] + rest;
      PointeesMembers(r, keys[1..], r[keys[0]].value);
    }
  }

  /** Deleting all modules of an owning registry deletes each of its modules exactly once. */
  lemma DeletedExactlyOnce<M>(c: Coordinator<M>, r: Registry<M>)
    requires Owning(c, r)
    ensures Deleted(r).Some?
    ensures forall m :: m in Modules(r) ==> multiset(Deleted(r).value)[m] == 1
    ensures forall m :: m in multiset(Deleted(r).value) ==> m in Modules(r)
  {
    var keys := SortedKeys(r.Keys);
    SortedKeysDistinct(r.Keys);
    var ms := Pointees(r, keys);
    forall m | m in Modules(r) ensures multiset(ms)[m] == 1 {
      PointeesMembers(r, keys, m);
      PointeesOnce(r, keys, m);
      var key :| key in r && r[key] == Some(m);
      assert key in keys;
      assert m in ms;
    }
    forall m | m in multiset(ms) ensures m in Modules(r) {
      PointeesMembers(r, keys, m);
      var key :| key in keys && r[key] == Some(m);
      assert key in r;
    }
  }

  lemma NewModuleKeepsInv<M>(c: Coordinator<M>, key: string, m: M)
    requires Inv(c) && m !in c.created
    ensures Inv(Step(c, NewModule(key, m)).value)
  {
    var c' := Step(c, NewModule(key, m)).value;
    if key !in c.active {
      assert Modules(c'.active) == Modules(c.active) + {m} by { ModulesAdd(c.active, key, m); }
    }
  }

  lemma ModulesAdd<M>(r: Registry<M>, key: string, m: M)
    requires key !in r
    ensures Modules(Add(r, key, Some(m))) == Modules(r) + {m}
  {
    var r' := Add(r, key, Some(m));
    assert r'[key] == Some(m);
    forall x | x in Modules(r) ensures x in Modules(r') {
      var k :| k in r && r[k] == Some(x);
      assert r'[k] == Some(x);
    }
  }

  /** Moving the module of `key` to the shutdown registry. An entry already there is overwritten. */
  lemma MoveKeepsInv<M>(c: Coordinator<M>, key: string)
    requires Inv(c) && key in c.active
    ensures var c' := Move(c, key, c.active[key]);
            && Inv(c')
            && Modules(c'.active) == Modules(c.active) - {c.active[key].value}
            && Modules(c'.shutdown) ==
               Modules(c.shutdown) + {c.active[key].value} - (if key in c.shutdown then {c.shutdown[key].value} else {})
  {
    var c' := Move(c, key, c.active[key]);
    var m := c.active[key].value;
    assert m in Modules(c.active);
    forall x | x in Modules(c'.active) ensures x in Modules(c.active) && x != m {
      var k :| k in c'.active && c'.active[k] == Some(x);
      assert c.active[k] == Some(x) && k != key;
    }
    forall x | x in Modules(c.active) && x != m ensures x in Modules(c'.active) {
      var k :| k in c.active && c.active[k] == Some(x);
      assert c'.active[k] == Some(x);
    }
    assert c'.shutdown[key] == Some(m);
    forall x | x in Modules(c'.shutdown) && x != m
      ensures x in Modules(c.shutdown) && (key in c.shutdown ==> x != c.shutdown[key].value)
    {
      var k :| k in c'.shutdown && c'.shutdown[k] == Some(x);
      assert k != key && c.shutdown[k] == Some(x);
    }
    forall x | x in Modules(c.shutdown) && (key in c.shutdown ==> x != c.shutdown[key].value)
      ensures x in Modules(c'.shutdown)
    {
      var k :| k in c.shutdown && c.shutdown[k] == Some(x);
      assert k != key && c'.shutdown[k] == Some(x);
    }
    if key in c.shutdown { assert c.shutdown[key].value in Modules(c.shutdown); }
  }

  lemma SweepKeepsInv<M>(c: Coordinator<M>)
    requires Inv(c)
    ensures Step(c, Sweep).Some? && Inv(Step(c, Sweep).value)
  {
    DeletedExactlyOnce(c, c.shutdown);
    DeletingKeepsOwning(c, c.active, c.shutdown);
    FreedOnce(c, c.shutdown);
  }

  lemma CloseDownKeepsInv<M>(c: Coordinator<M>)
    requires Inv(c)
    ensures Step(c, CloseDown).Some? && Inv(Step(c, CloseDown).value)
  {
    DeletedExactlyOnce(c, c.active);
    DeletingKeepsOwning(c, c.shutdown, c.active);
    FreedOnce(c, c.active);
  }

  lemma FreedOnce<M>(c: Coordinator<M>, r: Registry<M>)
    requires Inv(c) && (r == c.active || r == c.shutdown)
    requires Deleted(r).Some?
    ensures var f := c.freed + multiset(Deleted(r).value);
            forall m :: m in f ==> m in c.created && f[m] == 1
  {
    DeletedExactlyOnce(c, r);
    var f := c.freed + multiset(Deleted(r).value);
    forall m | m in f ensures m in c.created && f[m] == 1 {
      if m in multiset(Deleted(r).value) {
        var key :| key in r && r[key] == Some(m);
        assert r[key].value !in c.freed;
      }
    }
  }

  /** Deleting the modules of one registry leaves the other one owning. */
  lemma DeletingKeepsOwning<M>(c: Coordinator<M>, kept: Registry<M>, deleted: Registry<M>)
    requires Inv(c) && Owning(c, kept) && Owning(c, deleted) && Modules(kept) !! Modules(deleted)
    requires Deleted(deleted).Some?
    ensures Owning(c.(freed := c.freed + multiset(Deleted(deleted).value)), kept)
  {
    DeletedExactlyOnce(c, deleted);
    forall key | key in kept ensures kept[key].value !in multiset(Deleted(deleted).value) {
      assert kept[key].value in Modules(kept);
    }
  }

  /** Every step from a good state has a result (nothing dereferences NULL) and it is good again. */
  lemma StepKeepsInv<M>(c: Coordinator<M>, e: Event<M>)
    requires Inv(c) && Fresh(c, e)
    ensures Step(c, e).Some? && Inv(Step(c, e).value)
  {
    match e
    case NewModule(key, m) => NewModuleKeepsInv(c, key, m);
    case ChangeState(key) =>
    case ExitCode(key) => if key in c.active { MoveKeepsInv(c, key); }
    case ConnectionLost(key) => if key in c.active { MoveKeepsInv(c, key); }
    case Sweep => SweepKeepsInv(c);
    case CloseDown => CloseDownKeepsInv(c);
  }

  /** The module under a text. */
  function At<M>(r: Registry<M>, k: string): Option<M> {
    if k in r then r[k] else None
  }

  /** What an event does to the entries: a new module is registered unless its text is; an exit code or a lost
      connection moves the active entry of the text to the shutdown registry; deleting empties one registry.
      No other entry changes. */
  lemma EntriesAfter<M>(c: Coordinator<M>, e: Event<M>, k: string)
    requires NoNull(c.active) && NoNull(c.shutdown)
    ensures Step(c, e).Some?
    ensures var (active, shutdown) := (At(c.active, k), At(c.shutdown, k));
            (At(Step(c, e).value.active, k), At(Step(c, e).value.shutdown, k)) ==
            match e
            case NewModule(key, m) => (if k == key && active.None? then Some(m) else active, shutdown)
            case ChangeState(_) => (active, shutdown)
            case ExitCode(key) => if k == key && active.Some? then (None, active) else (active, shutdown)
            case ConnectionLost(key) => if k == key && active.Some? then (None, active) else (active, shutdown)
            case Sweep => (active, None)
            case CloseDown => (None, shutdown)
  { }

  /** Deleting deletes every module that was in the registry, and nothing else does. */
  lemma FreedAfter<M>(c: Coordinator<M>, e: Event<M>, m: M)
    requires Inv(c) && Fresh(c, e)
    ensures Step(c, e).Some?
    ensures var newly := Step(c, e).value.freed[m] - c.freed[m];
            newly == if (e.Sweep? && m in Modules(c.shutdown)) || (e.CloseDown? && m in Modules(c.active)) then 1 else 0
  {
    EntriesAfter(c, e, "");
    if e.Sweep? { DeletedExactlyOnce(c, c.shutdown); }
    if e.CloseDown? { DeletedExactlyOnce(c, c.active); }
  }

  // ---------------------------------------------------------------- whole runs

  /** The state after all events, in order. */
  function Run<M>(c: Coordinator<M>, events: seq<Event<M>>): Option<Coordinator<M>>
    decreases |events|
  {
    if events == [] then Some(c)
    else
      match Run(c, events[..|events| - 1])
      case None => None
      case Some(c1) => Step(c1, events[|events| - 1])
  }

  ghost predicate FreshRun<M>(c: Coordinator<M>, events: seq<Event<M>>) {
    forall i :: 0 <= i < |events| && Run(c, events[..i]).Some? ==> Fresh(Run(c, events[..i]).value, events[i])
  }

  lemma {:induction false} RunKeepsInv<M>(c: Coordinator<M>, events: seq<Event<M>>)
    requires Inv(c) && FreshRun(c, events)
    ensures Run(c, events).Some? && Inv(Run(c, events).value)
    decreases |events|
  {
    if events != [] {
      var n := |events| - 1;
      var front := events[..n];
      forall i | 0 <= i < n ensures front[..i] == events[..i] { }
      RunKeepsInv(c, front);
      StepKeepsInv(Run(c, front).value, events[n]);
    }
  }

  /** The number of places module `m` is in. */
  ghost function Places<M>(c: Coordinator<M>, m: M): nat {
    (if m in Modules(c.active) then 1 else 0) + (if m in Modules(c.shutdown) then 1 else 0)
    + c.freed[m] + (if m in Dropped(c) then 1 else 0)
  }

  /** In every reachable state no registry holds NULL, and every module ever created is in exactly one
      place: active, shut down, freed once, or dropped. */
  lemma EveryModuleIsInOnePlace<M>(events: seq<Event<M>>)
    requires FreshRun(Initial(), events)
    ensures Run(Initial(), events).Some?
    ensures var c := Run(Initial(), events).value;
            && NoNull(c.active) && NoNull(c.shutdown)
            && (forall m :: m in c.created ==> Places(c, m) == 1)
            && (forall j, k :: j in c.active && k in c.active && c.active[j] == c.active[k] ==> j == k)
            && (forall j, k :: j in c.shutdown && k in c.shutdown && c.shutdown[j] == c.shutdown[k] ==> j == k)
  {
    RunKeepsInv(Initial<M>(), events);
    var c := Run(Initial<M>(), events).value;
    forall m | m in c.created ensures Places(c, m) == 1 {
      if m in Modules(c.active) {
        var key :| key in c.active && c.active[key] == Some(m);
        assert c.active[key].value !in c.freed;
      }
      if m in Modules(c.shutdown) {
        var key :| key in c.shutdown && c.shutdown[key] == Some(m);
        assert c.shutdown[key].value !in c.freed;
      }
    }
  }

  /** The modules a step loses: a module whose descriptor is already connected, or the module in a
      shutdown entry that is overwritten before the loop has swept it. */
  ghost function Lost<M>(c: Coordinator<M>, e: Event<M>): set<M>
    requires NoNull(c.shutdown)
  {
    match e
    case NewModule(key, m) => if key in c.active then {m} else {}
    case ExitCode(key) => if key in c.active && key in c.shutdown then {c.shutdown[key].value} else {}
    case ConnectionLost(key) => if key in c.active && key in c.shutdown then {c.shutdown[key].value} else {}
    case _ => {}
  }

  lemma DroppedGrowsOnlyByLoss<M>(c: Coordinator<M>, e: Event<M>)
    requires Inv(c) && Fresh(c, e)
    ensures Step(c, e).Some?
    ensures Dropped(Step(c, e).value) == Dropped(c) + Lost(c, e)
    ensures Dropped(c) !! Lost(c, e)
  {
    match e
    case NewModule(key, m) => DroppedByNewModule(c, key, m);
    case ChangeState(key) => DroppedByChangeState(c, key);
    case ExitCode(key) => DroppedByLeaving(c, e, key);
    case ConnectionLost(key) => DroppedByLeaving(c, e, key);
    case Sweep => SweepKeepsInv(c); DroppedBySweep(c); NothingLost(Dropped(c));
    case CloseDown => CloseDownKeepsInv(c); DroppedByCloseDown(c); NothingLost(Dropped(c));
  }

  lemma NothingLost<M>(dropped: set<M>)
    ensures dropped + {} == dropped && dropped !! {}
  { }

  lemma DroppedByChangeState<M>(c: Coordinator<M>, key: string)
    requires Inv(c)
    ensures Step(c, ChangeState(key)) == Some(c)
    ensures Dropped(c) == Dropped(c) + Lost(c, ChangeState(key)) && Dropped(c) !! Lost(c, ChangeState(key))
  { }

  lemma DroppedByLeaving<M>(c: Coordinator<M>, e: Event<M>, key: string)
    requires Inv(c) && (e == ExitCode(key) || e == ConnectionLost(key))
    ensures Step(c, e).Some?
    ensures Dropped(Step(c, e).value) == Dropped(c) + Lost(c, e) && Dropped(c) !! Lost(c, e)
  {
    if key in c.active {
      DroppedByMove(c, key);
      assert Step(c, e) == Some(Move(c, key, c.active[key]));
    }
  }

  lemma DroppedByNewModule<M>(c: Coordinator<M>, key: string, m: M)
    requires Inv(c) && m !in c.created
    ensures Dropped(Step(c, NewModule(key, m)).value) == Dropped(c) + Lost(c, NewModule(key, m))
    ensures Dropped(c) !! Lost(c, NewModule(key, m))
  {
    RegisteredIsCreated(c, c.active);
    RegisteredIsCreated(c, c.shutdown);
    if key !in c.active { ModulesAdd(c.active, key, m); }
  }

  lemma RegisteredIsCreated<M>(c: Coordinator<M>, r: Registry<M>)
    requires Owning(c, r)
    ensures forall m :: m in Modules(r) ==> m in c.created && m !in c.freed
  { }

  lemma DroppedByMove<M>(c: Coordinator<M>, key: string)
    requires Inv(c) && key in c.active
    ensures Dropped(Move(c, key, c.active[key])) ==
            Dropped(c) + (if key in c.shutdown then {c.shutdown[key].value} else {})
    ensures key in c.shutdown ==> c.shutdown[key].value !in Dropped(c)
  {
    MoveKeepsInv(c, key);
    RegisteredIsCreated(c, c.shutdown);
    if key in c.shutdown { assert c.shutdown[key].value in Modules(c.shutdown); }
    assert c.active[key].value in Modules(c.active);
  }

  lemma DroppedBySweep<M>(c: Coordinator<M>)
    requires Inv(c) && Step(c, Sweep).Some?
    ensures Dropped(Step(c, Sweep).value) == Dropped(c)
  {
    DeletedExactlyOnce(c, c.shutdown);
    DroppedByDelete(c, Step(c, Sweep).value, Modules(c.shutdown), Deleted(c.shutdown).value);
  }

  lemma DroppedByCloseDown<M>(c: Coordinator<M>)
    requires Inv(c) && Step(c, CloseDown).Some?
    ensures Dropped(Step(c, CloseDown).value) == Dropped(c)
  {
    DeletedExactlyOnce(c, c.active);
    DroppedByDelete(c, Step(c, CloseDown).value, Modules(c.active), Deleted(c.active).value);
  }

  lemma DroppedByDelete<M>(c: Coordinator<M>, c': Coordinator<M>, gone: set<M>, ms: seq<M>)
    requires c'.created == c.created
    requires forall m :: m in gone <==> m in multiset(ms)
    requires c'.freed == c.freed + multiset(ms)
    requires Modules(c.active) + Modules(c.shutdown) == Modules(c'.active) + Modules(c'.shutdown) + gone
    ensures Dropped(c') == Dropped(c)
  { }

  /** The whole lifetime: whatever happens before, after the loop has closed down and both registries
      are destroyed exactly the modules that were never dropped have been freed, each of them once. */
  lemma LifetimeFreesAllButTheDropped<M>(events: seq<Event<M>>)
    requires FreshRun(Initial(), events)
    ensures Run(Initial(), events).Some?
    ensures var all := events + [CloseDown, Sweep];
            && Run(Initial(), all).Some?
            && var c := Run(Initial(), all).value;
            && c.active == map[] && c.shutdown == map[]
            && (forall m :: m in c.created ==> c.freed[m] == if m in Dropped(c) then 0 else 1)
            && (forall m :: m in c.freed ==> m in c.created)
            && Dropped(c) == Dropped(Run(Initial(), events).value)
  {
    RunKeepsInv(Initial<M>(), events);
    var c0 := Run(Initial<M>(), events).value;
    var all := events + [CloseDown, Sweep];
    assert all[..|all| - 1] == events + [CloseDown];
    assert (events + [CloseDown])[..|events|] == events;
    StepKeepsInv(c0, CloseDown);
    var c1 := Step(c0, CloseDown).value;
    StepKeepsInv(c1, Sweep);
    var c := Step(c1, Sweep).value;
    assert Run(Initial<M>(), events + [CloseDown]) == Some(c1);
    assert Run(Initial<M>(), all) == Some(c);
    DroppedGrowsOnlyByLoss(c0, CloseDown);
    DroppedGrowsOnlyByLoss(c1, Sweep);
    assert Modules<M>(map[]) == {};
  }
}

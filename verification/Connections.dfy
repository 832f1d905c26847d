/**
 The lock sections of LockSections with nothing serialised but what one connection's listener mutex does: each
 connection has its own callback, connections of one text may call at the same time, and the first callbacks
 may come while `onNewModule` is still registering their module.

 If no connection comes in while another one of its text is still listening, everything is safe and no module
 is lost. Otherwise not even the callback of a registered module is.
 */
module Connections {
  import opened Wrappers
  import opened StringOrder
  import opened Lifecycle
  import opened LockSections

  datatype Network<M(==)> = Network(
    registries: Coordinator<M>,
    texts: map<M, string>,      // the text of every connection there has been
    entering: map<M, Pc<M>>,    // where its onNewModule stands
    calling: map<M, Pc<M>>)     // where its callback stands

  datatype Motion<M> =
    | Connect(m: M, key: string)
    | Register(m: M)               // the next section of its onNewModule
    | Call(call: Call<M>)
    | Continue(m: M)               // the next section of its callback
    | Sweep
    | Pulse

  function Nobody<M>(): Network<M> {
    Network(Initial(), map[], map[], map[])
  }

  /** The connection listens. */
  predicate Live<M>(n: Network<M>, m: M) {
    m in n.texts && m !in n.registries.freed
  }

  /** The loop does not sweep a module whose connection is calling: it waits for the listener mutex. */
  predicate CanMove<M>(n: Network<M>, x: Motion<M>) {
    match x
    case Connect(m, _) => m !in n.registries.created
    case Register(m) => m in n.entering && m in n.texts
    case Call(call) => !call.OnNew? && Live(n, call.m) && call.m !in n.calling
    case Continue(m) => m in n.calling && m in n.texts
    case Sweep => forall k :: k in n.registries.shutdown && n.registries.shutdown[k].Some? ==>
                    n.registries.shutdown[k].value !in n.calling
    case Pulse => true
  }

  function Proceeded<M>(pcs: map<M, Pc<M>>, m: M, next: Option<Pc<M>>): map<M, Pc<M>> {
    match next
    case Some(pc) => pcs[m := pc]
    case None => pcs - {m}
  }

  /** The connection has come in and its onNewModule starts. */
  function Plus<M>(n: Network<M>, m: M, key: string): Network<M> {
    Network(n.registries.(created := n.registries.created + {m}), n.texts[m := key], n.entering[m := NewCheck(m)],
            n.calling)
  }

  /** Dereferencing NULL or a deleted module has no result. */
  function Moved<M>(n: Network<M>, x: Motion<M>): Option<Network<M>>
    requires CanMove(n, x)
  {
    var c := n.registries;
    match x
    case Connect(m, key) => Some(Plus(n, m, key))
    case Register(m) =>
      (match Section(c, n.texts[m], n.entering[m])
       case None => None
       case Some(o) => Some(n.(registries := o.c, entering := Proceeded(n.entering, m, o.next))))
    case Call(call) => Some(n.(calling := n.calling[call.m := FirstPc(call)]))
    case Continue(m) =>
      (match Section(c, n.texts[m], n.calling[m])
       case None => None
       case Some(o) => Some(n.(registries := o.c, calling := Proceeded(n.calling, m, o.next))))
    case Sweep =>
      (match Step(c, Event<M>.Sweep)
       case None => None
       case Some(c') => Some(n.(registries := c')))
    case Pulse => if NoNull(c.active) then Some(n) else None
  }

  function RunMotions<M>(n: Network<M>, motions: seq<Motion<M>>): Option<Network<M>>
    decreases |motions|
  {
    if motions == [] then Some(n)
    else
      match RunMotions(n, motions[..|motions| - 1])
      case None => None
      case Some(t) => if CanMove(t, motions[|motions| - 1]) then Moved(t, motions[|motions| - 1]) else None
  }

  // ---------------------------------------------------------------- distinct texts

  /** No connection comes in while another one of its text is listening. */
  predicate Distinct<M>(n: Network<M>, x: Motion<M>) {
    x.Connect? ==> forall m :: m in n.texts && Live(n, m) ==> n.texts[m] != x.key
  }

  /** A callback that has not found its text yet, so that it does not matter if the module comes in now. */
  predicate IsCheck<M>(pc: Pc<M>) {
    pc.StateCheck? || pc.ExitCheck? || pc.LostCheck? || pc.LostShutdownCheck?
  }

  /** What a callback of `m` knows still holds when it runs on. */
  ghost predicate CallHolds<M>(c: Coordinator<M>, key: string, m: M, pc: Pc<M>) {
    match pc
    case NewCheck(_) => false
    case NewStore(_, _) => false
    case StateGet => key in c.active
    case ExitGet => key in c.active
    case LostGet => key in c.active
    case StateUse(found) => key in c.active && found == Some(m)
    case ExitErase(found) => key in c.active && found == Some(m)
    case LostErase(found) => key in c.active && found == Some(m)
    case ExitMark(found) => found == Some(m)
    case ExitStore(found) => found == Some(m)
    case LostStore(found) => found == Some(m)
    case LostShutdownGet => key in c.shutdown
    case LostShutdownUse(found) => key in c.shutdown && found == Some(m)
    case _ => true
  }

  ghost predicate EnteringHolds<M>(n: Network<M>, m: M)
    requires m in n.texts && m in n.entering
  {
    && (n.entering[m] == NewCheck(m) || n.entering[m] == NewStore(m, false))
    && n.texts[m] !in n.registries.active && n.texts[m] !in n.registries.shutdown
    && (m in n.calling ==> IsCheck(n.calling[m]))
  }

  /** The module is on its way between the registries. */
  predicate OnItsWay<M>(n: Network<M>, m: M) {
    m in n.calling && Moving(n.calling[m])
  }

  /** A listening connection's module is in exactly one place: about to be registered, active, shut down, or
      on its way between the registries. */
  ghost predicate InPlace<M>(n: Network<M>, m: M)
    requires m in n.texts
  {
    var key, c := n.texts[m], n.registries;
    && (m in n.entering ==> EnteringHolds(n, m))
    && (m in n.calling ==> CallHolds(c, key, m, n.calling[m]))
    && (m !in n.entering && !OnItsWay(n, m) ==> (key in c.active <==> key !in c.shutdown))
    && (OnItsWay(n, m) ==> m !in n.entering && key !in c.active && key !in c.shutdown)
  }

  /** Every entry is the module of a listening connection, under its text. */
  ghost predicate OwnEntries<M>(n: Network<M>, r: Registry<M>) {
    forall k :: k in r ==> OwnEntry(n, r, k)
  }

  ghost predicate OwnEntry<M>(n: Network<M>, r: Registry<M>, k: string)
    requires k in r
  {
    r[k].Some? && Live(n, r[k].value) && n.texts[r[k].value] == k
  }

  ghost predicate Alone<M>(n: Network<M>) {
    forall i, j :: i in n.texts && j in n.texts && Live(n, i) && Live(n, j) && n.texts[i] == n.texts[j] ==> i == j
  }

  ghost predicate Safe<M>(n: Network<M>) {
    && n.texts.Keys == n.registries.created
    && FreedOnce(n) && Alone(n)
    && OwnEntries(n, n.registries.active) && OwnEntries(n, n.registries.shutdown)
    && AllLive(n, n.entering) && AllLive(n, n.calling) && AllInPlace(n)
  }

  ghost predicate AllLive<M>(n: Network<M>, pcs: map<M, Pc<M>>) {
    forall m :: m in pcs ==> Live(n, m)
  }

  ghost predicate AllInPlace<M>(n: Network<M>) {
    forall m :: m in n.texts && Live(n, m) ==> InPlace(n, m)
  }

  ghost predicate FreedOnce<M>(n: Network<M>) {
    forall m :: m in n.registries.freed ==> n.registries.freed[m] == 1 && m in n.texts
  }

  // ---------------------------------------------------------------- lemmas

  /** The registries differ at one key at most. */
  ghost predicate SameElsewhere<M>(c: Coordinator<M>, c': Coordinator<M>, key: string) {
    && c'.created == c.created && c'.freed == c.freed
    && SameOff(c.active, c'.active, key) && SameOff(c.shutdown, c'.shutdown, key)
  }

  ghost predicate SameOff<M>(r: Registry<M>, r': Registry<M>, key: string) {
    forall k :: k != key ==> (k in r' <==> k in r) && (k in r ==> r'[k] == r[k])
  }

  lemma SectionElsewhere<M>(c: Coordinator<M>, key: string, pc: Pc<M>)
    requires Section(c, key, pc).Some?
    ensures SameElsewhere(c, Section(c, key, pc).value.c, key)
  { }

  /** A section of `m` leaves the others in their places. */
  lemma OthersStay<M>(n: Network<M>, n': Network<M>, m: M, o: M)
    requires Safe(n) && Live(n, m) && Live(n, o) && o != m
    requires n'.texts == n.texts && SameElsewhere(n.registries, n'.registries, n.texts[m])
    requires o in n'.entering <==> o in n.entering
    requires o in n.entering ==> n'.entering[o] == n.entering[o]
    requires o in n'.calling <==> o in n.calling
    requires o in n.calling ==> n'.calling[o] == n.calling[o]
    ensures InPlace(n', o)
  {
    assert InPlace(n, o) && n.texts[o] != n.texts[m];
  }

  ghost predicate OnlyThreadOf<M>(pcs: map<M, Pc<M>>, pcs': map<M, Pc<M>>, m: M) {
    pcs' - {m} == pcs - {m}
  }

  lemma SameThread<M>(pcs: map<M, Pc<M>>, pcs': map<M, Pc<M>>, m: M, o: M)
    requires OnlyThreadOf(pcs, pcs', m) && o != m
    ensures o in pcs' <==> o in pcs
    ensures o in pcs ==> pcs'[o] == pcs[o]
  {
    assert o in pcs <==> o in pcs - {m};
    assert o in pcs' <==> o in pcs' - {m};
    if o in pcs { assert (pcs - {m})[o] == (pcs' - {m})[o]; }
  }

  ghost predicate EntryOf<M>(r: Registry<M>, key: string, m: M) {
    key in r ==> r[key] == Some(m)
  }

  /** What a section of `m` has to keep. */
  lemma OneMoves<M>(n: Network<M>, n': Network<M>, m: M)
    requires Safe(n) && Live(n, m) && n'.texts == n.texts
    requires SameElsewhere(n.registries, n'.registries, n.texts[m])
    requires OnlyThreadOf(n.entering, n'.entering, m) && OnlyThreadOf(n.calling, n'.calling, m)
    requires EntryOf(n'.registries.active, n.texts[m], m) && EntryOf(n'.registries.shutdown, n.texts[m], m)
    requires InPlace(n', m)
    ensures Safe(n')
  {
    ThreadsStay(n, n', m, n.entering, n'.entering);
    ThreadsStay(n, n', m, n.calling, n'.calling);
    PlacesStay(n, n', m);
    EntriesStay(n, n', m, n.registries.active, n'.registries.active);
    EntriesStay(n, n', m, n.registries.shutdown, n'.registries.shutdown);
  }

  lemma ThreadsStay<M>(n: Network<M>, n': Network<M>, m: M, pcs: map<M, Pc<M>>, pcs': map<M, Pc<M>>)
    requires AllLive(n, pcs) && Live(n, m) && OnlyThreadOf(pcs, pcs', m)
    requires n'.texts == n.texts && n'.registries.freed == n.registries.freed
    ensures AllLive(n', pcs')
  {
    forall o | o in pcs' ensures Live(n', o) {
      if o != m { SameThread(pcs, pcs', m, o); }
    }
  }

  lemma PlacesStay<M>(n: Network<M>, n': Network<M>, m: M)
    requires Safe(n) && Live(n, m) && n'.texts == n.texts
    requires SameElsewhere(n.registries, n'.registries, n.texts[m])
    requires OnlyThreadOf(n.entering, n'.entering, m) && OnlyThreadOf(n.calling, n'.calling, m)
    requires InPlace(n', m)
    ensures AllInPlace(n')
  {
    forall o | o in n'.texts && Live(n', o) ensures InPlace(n', o) {
      if o != m {
        SameThread(n.entering, n'.entering, m, o);
        SameThread(n.calling, n'.calling, m, o);
        OthersStay(n, n', m, o);
      }
    }
  }

  lemma EntriesStay<M>(n: Network<M>, n': Network<M>, m: M, r: Registry<M>, r': Registry<M>)
    requires OwnEntries(n, r) && Live(n, m) && n'.texts == n.texts && n'.registries.freed == n.registries.freed
    requires SameOff(r, r', n.texts[m]) && EntryOf(r', n.texts[m], m)
    ensures OwnEntries(n', r')
  {
    forall k | k in r' ensures OwnEntry(n', r', k) {
      if k != n.texts[m] { assert OwnEntry(n, r, k); }
    }
  }

  /** The entries of its text are its own module. */
  lemma OwnText<M>(n: Network<M>, m: M)
    requires Safe(n) && Live(n, m)
    ensures EntryOf(n.registries.active, n.texts[m], m) && EntryOf(n.registries.shutdown, n.texts[m], m)
  {
    var key := n.texts[m];
    if key in n.registries.active { assert OwnEntry(n, n.registries.active, key); }
    if key in n.registries.shutdown { assert OwnEntry(n, n.registries.shutdown, key); }
  }

  /** One section of a callback of `m` that is not entering any more. */
  lemma CallGoesOn<M>(c: Coordinator<M>, key: string, m: M, pc: Pc<M>)
    requires CallHolds(c, key, m, pc) && m !in c.freed && EntryOf(c.active, key, m) && EntryOf(c.shutdown, key, m)
    requires if Moving(pc) then key !in c.active && key !in c.shutdown else key in c.active <==> key !in c.shutdown
    ensures Section(c, key, pc).Some?
    ensures var o := Section(c, key, pc).value;
            && EntryOf(o.c.active, key, m) && EntryOf(o.c.shutdown, key, m)
            && (o.next.Some? ==> CallHolds(o.c, key, m, o.next.value))
            && (if o.next.Some? && Moving(o.next.value) then key !in o.c.active && key !in o.c.shutdown
                else key in o.c.active <==> key !in o.c.shutdown)
  { }

  /** One section of a callback while its module is not registered yet: nothing is found. */
  lemma EarlyCallGoesOn<M>(c: Coordinator<M>, key: string, m: M, pc: Pc<M>)
    requires IsCheck(pc) && key !in c.active && key !in c.shutdown
    ensures Section(c, key, pc).Some? && Section(c, key, pc).value.c == c
    ensures var next := Section(c, key, pc).value.next;
            next.Some? ==> IsCheck(next.value) && CallHolds(c, key, m, next.value)
  { }

  lemma ContinueKeepsSafe<M>(n: Network<M>, m: M)
    requires Safe(n) && CanMove(n, Continue(m))
    ensures Moved(n, Continue(m)).Some? && Safe(Moved(n, Continue(m)).value)
  {
    var c, key, pc := n.registries, n.texts[m], n.calling[m];
    assert Live(n, m) && InPlace(n, m);
    OwnText(n, m);
    if m in n.entering { EarlyCallGoesOn(c, key, m, pc); } else { CallGoesOn(c, key, m, pc); }
    SectionElsewhere(c, key, pc);
    OneMoves(n, Moved(n, Continue(m)).value, m);
  }

  lemma RegisterKeepsSafe<M>(n: Network<M>, m: M)
    requires Safe(n) && CanMove(n, Register(m))
    ensures Moved(n, Register(m)).Some? && Safe(Moved(n, Register(m)).value)
  {
    var c, key, pc := n.registries, n.texts[m], n.entering[m];
    assert Live(n, m) && InPlace(n, m);
    SectionElsewhere(c, key, pc);
    OneMoves(n, Moved(n, Register(m)).value, m);
  }

  lemma FirstPcHolds<M>(c: Coordinator<M>, key: string, call: Call<M>)
    requires !call.OnNew?
    ensures IsCheck(FirstPc(call)) && CallHolds(c, key, call.m, FirstPc(call)) && !Moving(FirstPc(call))
  { }

  lemma CallKeepsSafe<M>(n: Network<M>, call: Call<M>)
    requires Safe(n) && CanMove(n, Call(call))
    ensures Safe(Moved(n, Call(call)).value)
  {
    assert InPlace(n, call.m);
    OwnText(n, call.m);
    FirstPcHolds(n.registries, n.texts[call.m], call);
    OneMoves(n, Moved(n, Call(call)).value, call.m);
  }

  lemma ConnectKeepsSafe<M>(n: Network<M>, m: M, key: string)
    requires Safe(n) && CanMove(n, Connect(m, key)) && Distinct(n, Connect(m, key))
    ensures Safe(Moved(n, Connect(m, key)).value)
  {
    var n' := Moved(n, Connect(m, key)).value;
    EntriesAfterConnect(n, n', n.registries.active, m, key);
    EntriesAfterConnect(n, n', n.registries.shutdown, m, key);
    PlacesAfterConnect(n, n', m, key);
  }

  lemma PlacesAfterConnect<M>(n: Network<M>, n': Network<M>, m: M, key: string)
    requires Safe(n) && CanMove(n, Connect(m, key)) && n' == Moved(n, Connect(m, key)).value
    requires key !in n.registries.active && key !in n.registries.shutdown
    ensures AllInPlace(n')
  {
    forall o | o in n'.texts && Live(n', o) ensures InPlace(n', o) {
      if o != m { assert InPlace(n, o); }
    }
  }

  lemma EntriesAfterConnect<M>(n: Network<M>, n': Network<M>, r: Registry<M>, m: M, key: string)
    requires OwnEntries(n, r) && m !in n.texts && n'.texts == n.texts[m := key] && Distinct(n, Connect(m, key))
    requires n'.registries.freed == n.registries.freed
    ensures OwnEntries(n', r) && key !in r
  {
    forall k | k in r ensures OwnEntry(n', r, k) && k != key { assert OwnEntry(n, r, k); }
  }

  /** Safe registries own their modules. */
  lemma SafeIsGood<M>(n: Network<M>)
    requires Safe(n)
    ensures Lifecycle.Inv(n.registries)
  {
    var c := n.registries;
    EntriesOwn(n, c.active);
    EntriesOwn(n, c.shutdown);
    forall m | m in Modules(c.active) && m in Modules(c.shutdown) ensures false { InBoth(n, m); }
  }

  lemma EntriesOwn<M>(n: Network<M>, r: Registry<M>)
    requires OwnEntries(n, r) && n.texts.Keys == n.registries.created
    ensures Owning(n.registries, r)
  {
    forall k | k in r ensures r[k].Some? && r[k].value in n.registries.created && r[k].value !in n.registries.freed {
      assert OwnEntry(n, r, k);
    }
    forall j, k | j in r && k in r && r[j] == r[k] ensures j == k {
      assert OwnEntry(n, r, j) && OwnEntry(n, r, k);
    }
  }

  lemma InBoth<M>(n: Network<M>, m: M)
    requires Safe(n) && m in Modules(n.registries.active)
    ensures m !in Modules(n.registries.shutdown)
  {
    var c := n.registries;
    var j :| j in c.active && c.active[j] == Some(m);
    assert OwnEntry(n, c.active, j) && InPlace(n, m);
    forall k | k in c.shutdown ensures c.shutdown[k] != Some(m) { assert OwnEntry(n, c.shutdown, k); }
  }

  lemma SweepKeepsSafe<M>(n: Network<M>)
    requires Safe(n) && CanMove(n, Motion<M>.Sweep)
    ensures Moved(n, Motion<M>.Sweep).Some? && Safe(Moved(n, Motion<M>.Sweep).value)
  {
    SafeIsGood(n);
    SweepKeepsInv(n.registries);
    var n' := Moved(n, Motion<M>.Sweep).value;
    forall m | m in n.texts ensures Live(n', m) <==> Live(n, m) && !Swept(n, m) { SweptIs(n, m); }
    ThreadsAfterSweep(n, n');
    EntriesAfterSweep(n, n');
    PlacesAfterSweep(n, n');
  }

  /** The swept connections listen no more. */
  ghost predicate IsSwept<M>(n: Network<M>, n': Network<M>) {
    && n' == n.(registries := n'.registries)
    && n'.registries.active == n.registries.active && n'.registries.shutdown == map[]
    && forall m :: m in n.texts ==> (Live(n', m) <==> Live(n, m) && !Swept(n, m))
  }

  lemma ThreadsAfterSweep<M>(n: Network<M>, n': Network<M>)
    requires Safe(n) && CanMove(n, Motion<M>.Sweep) && IsSwept(n, n')
    ensures AllLive(n', n'.entering) && AllLive(n', n'.calling)
  {
    forall m | m in n.calling ensures Live(n', m) { CallerIsNotSwept(n, m); }
    forall m | m in n.entering ensures Live(n', m) { assert InPlace(n, m); }
  }

  lemma EntriesAfterSweep<M>(n: Network<M>, n': Network<M>)
    requires Safe(n) && IsSwept(n, n')
    ensures OwnEntries(n', n'.registries.active)
  {
    forall k | k in n.registries.active ensures OwnEntry(n', n.registries.active, k) { ActiveIsNotSwept(n, k); }
  }

  lemma PlacesAfterSweep<M>(n: Network<M>, n': Network<M>)
    requires Safe(n) && CanMove(n, Motion<M>.Sweep) && IsSwept(n, n')
    ensures AllInPlace(n')
  {
    forall m | m in n'.texts && Live(n', m) ensures InPlace(n', m) { StaysAfterSweep(n, n', m); }
  }

  /** The connection's module is in the shutdown registry. */
  predicate Swept<M>(n: Network<M>, m: M)
    requires m in n.texts
  {
    n.texts[m] in n.registries.shutdown && n.registries.shutdown[n.texts[m]] == Some(m)
  }

  lemma SweptIs<M>(n: Network<M>, m: M)
    requires Safe(n) && m in n.texts && Lifecycle.Inv(n.registries) && Step(n.registries, Event<M>.Sweep).Some?
    ensures m in Step(n.registries, Event<M>.Sweep).value.freed <==> m in n.registries.freed || Swept(n, m)
  {
    var r := n.registries.shutdown;
    DeletedExactlyOnce(n.registries, r);
    if Swept(n, m) { DeletesEach(r, n.texts[m]); }
    if m in multiset(Deleted(r).value) {
      var k :| k in r && r[k] == Some(m);
      assert OwnEntry(n, r, k);
    }
  }

  lemma CallerIsNotSwept<M>(n: Network<M>, m: M)
    requires Safe(n) && CanMove(n, Motion<M>.Sweep) && m in n.calling
    ensures !Swept(n, m)
  { }

  lemma ActiveIsNotSwept<M>(n: Network<M>, k: string)
    requires Safe(n) && k in n.registries.active
    ensures OwnEntry(n, n.registries.active, k) && !Swept(n, n.registries.active[k].value)
  {
    assert OwnEntry(n, n.registries.active, k);
    assert InPlace(n, n.registries.active[k].value);
  }

  lemma StaysAfterSweep<M>(n: Network<M>, n': Network<M>, m: M)
    requires Safe(n) && CanMove(n, Motion<M>.Sweep) && Live(n, m) && !Swept(n, m)
    requires n' == n.(registries := n'.registries) && n'.registries.active == n.registries.active
    requires n'.registries.shutdown == map[]
    ensures InPlace(n', m)
  {
    assert InPlace(n, m);
    OwnText(n, m);
  }

  lemma MotionKeepsSafe<M>(n: Network<M>, x: Motion<M>)
    requires Safe(n) && CanMove(n, x) && Distinct(n, x)
    ensures Moved(n, x).Some? && Safe(Moved(n, x).value)
  {
    match x
    case Connect(m, key) => ConnectKeepsSafe(n, m, key);
    case Register(m) => RegisterKeepsSafe(n, m);
    case Call(call) => CallKeepsSafe(n, call);
    case Continue(m) => ContinueKeepsSafe(n, m);
    case Sweep => SweepKeepsSafe(n);
    case Pulse => SafeIsGood(n);
  }

  // ---------------------------------------------------------------- whole runs

  /** Every motion is possible, and no connection comes in while another one of its text is listening. */
  ghost predicate DistinctRun<M>(n: Network<M>, motions: seq<Motion<M>>) {
    forall i :: 0 <= i < |motions| && RunMotions(n, motions[..i]).Some? ==>
      CanMove(RunMotions(n, motions[..i]).value, motions[i]) && Distinct(RunMotions(n, motions[..i]).value, motions[i])
  }

  /** Whatever callbacks overlap: if connections that listen at the same time have different texts, no run
      dereferences NULL or a deleted module, each module is deleted at most once, and that of a listening
      connection is always in exactly one place. */
  lemma {:induction false} DistinctTextsAreSafe<M>(motions: seq<Motion<M>>)
    requires DistinctRun(Nobody(), motions)
    ensures RunMotions(Nobody(), motions).Some? && Safe(RunMotions(Nobody(), motions).value)
    decreases |motions|
  {
    if motions != [] {
      var k := |motions| - 1;
      forall i | 0 <= i < k ensures motions[..k][..i] == motions[..i] { }
      DistinctTextsAreSafe(motions[..k]);
      MotionKeepsSafe(RunMotions(Nobody<M>(), motions[..k]).value, motions[k]);
    }
  }

  // ---------------------------------------------------------------- two connections of one text

  lemma RunsOn<M>(n: Network<M>, motions: seq<Motion<M>>, x: Motion<M>)
    requires RunMotions(n, motions).Some? && CanMove(RunMotions(n, motions).value, x)
    ensures RunMotions(n, motions + [x]) == Moved(RunMotions(n, motions).value, x)
  {
    assert (motions + [x])[..|motions|] == motions;
  }

  lemma {:induction false} RunsJoin<M>(n: Network<M>, p: seq<Motion<M>>, q: seq<Motion<M>>)
    requires RunMotions(n, p).Some?
    ensures RunMotions(n, p + q) == RunMotions(RunMotions(n, p).value, q)
    decreases |q|
  {
    if q == [] {
      assert p + q == p;
    } else {
      var k := |q| - 1;
      RunsJoin(n, p, q[..k]);
      assert (p + q)[..|p + q| - 1] == p + q[..k];
    }
  }

  lemma RunsFirst<M>(n: Network<M>, x: Motion<M>, rest: seq<Motion<M>>)
    requires CanMove(n, x) && Moved(n, x).Some?
    ensures RunMotions(n, [x] + rest) == RunMotions(Moved(n, x).value, rest)
  {
    RunsOn(n, [], x);
    assert [] + [x] == [x];
    RunsJoin(n, [x], rest);
  }

  predicate NoConnect<M>(motions: seq<Motion<M>>) {
    forall i :: 0 <= i < |motions| ==> !motions[i].Connect?
  }

  /** Without another connection, the threads can come to use NULL or a deleted module. */
  ghost predicate CanFail<M(!new)>(n: Network<M>) {
    exists motions: seq<Motion<M>>, x: Motion<M> :: FailsAfter(n, motions, x)
  }

  ghost predicate FailsAfter<M>(n: Network<M>, motions: seq<Motion<M>>, x: Motion<M>) {
    && NoConnect(motions) && !x.Connect? && RunMotions(n, motions).Some?
    && CanMove(RunMotions(n, motions).value, x) && Moved(RunMotions(n, motions).value, x).None?
  }

  lemma {:induction false} SafeRunsStaySafe<M>(n: Network<M>, motions: seq<Motion<M>>)
    requires Safe(n) && NoConnect(motions) && RunMotions(n, motions).Some?
    ensures Safe(RunMotions(n, motions).value)
    decreases |motions|
  {
    if motions != [] {
      var k := |motions| - 1;
      SafeRunsStaySafe(n, motions[..k]);
      MotionKeepsSafe(RunMotions(n, motions[..k]).value, motions[k]);
    }
  }

  lemma SafeCannotFail<M(!new)>(n: Network<M>)
    requires Safe(n)
    ensures !CanFail(n)
  {
    forall motions: seq<Motion<M>>, x: Motion<M> ensures !FailsAfter(n, motions, x) {
      if FailsAfter(n, motions, x) {
        SafeRunsStaySafe(n, motions);
        MotionKeepsSafe(RunMotions(n, motions).value, x);
        assert false;
      }
    }
  }

  // The first connection of the text comes to rest.

  /** An upper bound of the sections left. */
  function Left<M>(pc: Pc<M>): nat {
    match pc
    case NewCheck(_) => 2
    case StateCheck => 3
    case StateGet => 2
    case ExitCheck => 5
    case ExitGet => 4
    case ExitErase(_) => 3
    case ExitMark(_) => 2
    case LostCheck => 4
    case LostGet => 3
    case LostErase(_) => 2
    case LostShutdownCheck => 3
    case LostShutdownGet => 2
    case _ => 1
  }

  function LeftOf<M>(pcs: map<M, Pc<M>>, m: M): nat {
    if m in pcs then Left(pcs[m]) else 0
  }

  lemma SectionIsNearerToEnd<M>(c: Coordinator<M>, key: string, pc: Pc<M>)
    requires Section(c, key, pc).Some?
    ensures var o := Section(c, key, pc).value;
            o.c.freed == c.freed && (o.next.Some? ==> Left(o.next.value) < Left(pc))
  { }

  lemma ThreadIsNearerToEnd<M>(c: Coordinator<M>, key: string, pcs: map<M, Pc<M>>, m: M)
    requires m in pcs && Section(c, key, pcs[m]).Some?
    ensures LeftOf(Proceeded(pcs, m, Section(c, key, pcs[m]).value.next), m) < LeftOf(pcs, m)
  {
    SectionIsNearerToEnd(c, key, pcs[m]);
  }

  /** `n'` comes after `n`, and the threads of `m` have fewer sections left. */
  ghost predicate Nearer<M>(n: Network<M>, n': Network<M>, m: M) {
    && Safe(n') && n'.texts == n.texts && Live(n', m)
    && LeftOf(n'.entering, m) + LeftOf(n'.calling, m) < LeftOf(n.entering, m) + LeftOf(n.calling, m)
  }

  lemma RegisterIsNearer<M>(n: Network<M>, m: M)
    requires Safe(n) && CanMove(n, Register(m))
    ensures Moved(n, Register(m)).Some? && Nearer(n, Moved(n, Register(m)).value, m)
  {
    RegisterKeepsSafe(n, m);
    assert Live(n, m);
    SectionIsNearerToEnd(n.registries, n.texts[m], n.entering[m]);
    ThreadIsNearerToEnd(n.registries, n.texts[m], n.entering, m);
  }

  lemma ContinueIsNearer<M>(n: Network<M>, m: M)
    requires Safe(n) && CanMove(n, Continue(m))
    ensures Moved(n, Continue(m)).Some? && Nearer(n, Moved(n, Continue(m)).value, m)
  {
    ContinueKeepsSafe(n, m);
    assert Live(n, m);
    SectionIsNearerToEnd(n.registries, n.texts[m], n.calling[m]);
    ThreadIsNearerToEnd(n.registries, n.texts[m], n.calling, m);
  }

  /** The next section of the threads of `m`. */
  lemma NextSection<M>(n: Network<M>, m: M) returns (x: Motion<M>)
    requires Safe(n) && Live(n, m) && (m in n.entering || m in n.calling)
    ensures !x.Connect? && CanMove(n, x) && Moved(n, x).Some? && Nearer(n, Moved(n, x).value, m)
  {
    if m in n.entering {
      x := Register(m);
      RegisterIsNearer(n, m);
    } else {
      x := Continue(m);
      ContinueIsNearer(n, m);
    }
  }

  /** The threads of `m` come to their ends. */
  ghost predicate Rests<M>(n: Network<M>, motions: seq<Motion<M>>, m: M) {
    && NoConnect(motions) && RunMotions(n, motions).Some?
    && var n' := RunMotions(n, motions).value;
    Safe(n') && n'.texts == n.texts && Live(n', m) && m !in n'.entering && m !in n'.calling
  }

  lemma RestsLater<M>(n: Network<M>, x: Motion<M>, rest: seq<Motion<M>>, m: M)
    requires !x.Connect? && CanMove(n, x) && Moved(n, x).Some? && Moved(n, x).value.texts == n.texts
    requires Rests(Moved(n, x).value, rest, m)
    ensures Rests(n, [x] + rest, m)
  {
    RunsFirst(n, x, rest);
  }

  lemma {:induction false} ComesToRest<M>(n: Network<M>, m: M) returns (motions: seq<Motion<M>>)
    requires Safe(n) && Live(n, m)
    ensures Rests(n, motions, m)
    decreases LeftOf(n.entering, m) + LeftOf(n.calling, m)
  {
    motions := [];
    if m in n.entering || m in n.calling {
      var x := NextSection(n, m);
      var rest := ComesToRest(Moved(n, x).value, m);
      RestsLater(n, x, rest, m);
      motions := [x] + rest;
    }
  }

  // A second connection of the text, which has just come in, does not change what the others do.

  lemma SectionWithMore<M>(c: Coordinator<M>, created: set<M>, key: string, pc: Pc<M>)
    requires Section(c, key, pc).Some?
    ensures var o := Section(c, key, pc).value;
            Section(c.(created := created), key, pc) == Some(Outcome(o.c.(created := created), o.next))
    ensures Section(c, key, pc).value.c.created == c.created
  { }

  lemma MovesWithMore<M>(n: Network<M>, x: Motion<M>, m: M, key: string)
    requires m !in n.registries.created && m !in n.texts && !x.Connect? && CanMove(n, x) && Moved(n, x).Some?
    ensures var n' := Moved(n, x).value;
            && m !in n'.registries.created && m !in n'.texts
            && CanMove(Plus(n, m, key), x) && Moved(Plus(n, m, key), x) == Some(Plus(n', m, key))
  {
    var n', created := Moved(n, x).value, n.registries.created + {m};
    match x
    case Register(o) =>
      SectionWithMore(n.registries, created, n.texts[o], n.entering[o]);
      ProceedsWithMore(n.entering, o, Section(n.registries, n.texts[o], n.entering[o]).value.next, m);
    case Continue(o) => SectionWithMore(n.registries, created, n.texts[o], n.calling[o]);
    case _ =>
  }

  lemma ProceedsWithMore<M>(pcs: map<M, Pc<M>>, o: M, next: Option<Pc<M>>, m: M)
    requires o != m
    ensures Proceeded(pcs[m := NewCheck(m)], o, next) == Proceeded(pcs, o, next)[m := NewCheck(m)]
  { }

  lemma {:induction false} RunsWithMore<M>(n: Network<M>, motions: seq<Motion<M>>, m: M, key: string)
    requires m !in n.registries.created && m !in n.texts && NoConnect(motions) && RunMotions(n, motions).Some?
    ensures var n' := RunMotions(n, motions).value;
            && m !in n'.registries.created && m !in n'.texts
            && RunMotions(Plus(n, m, key), motions) == Some(Plus(n', m, key))
    decreases |motions|
  {
    if motions != [] {
      var k := |motions| - 1;
      RunsWithMore(n, motions[..k], m, key);
      MovesWithMore(RunMotions(n, motions[..k]).value, motions[k], m, key);
    }
  }

  // Then the callbacks of the two overlap.

  function ThreadOf<M>(pcs: map<M, Pc<M>>, m: M): Option<Pc<M>> {
    if m in pcs then Some(pcs[m]) else None
  }

  function EntryAt<M>(r: Registry<M>, key: string): Option<Option<M>> {
    if key in r then Some(r[key]) else None
  }

  /** Two connections of one text listen; its entry, and where their callbacks stand. */
  ghost predicate Stage<M>(n: Network<M>, i: M, j: M, key: string, entry: Option<Option<M>>, p: Option<Pc<M>>,
                           q: Option<Pc<M>>) {
    && i != j && Live(n, i) && Live(n, j) && n.texts[i] == key && n.texts[j] == key
    && EntryAt(n.registries.active, key) == entry && ThreadOf(n.calling, i) == p && ThreadOf(n.calling, j) == q
  }

  ghost predicate Reaches<M>(n: Network<M>, motions: seq<Motion<M>>, i: M, j: M, key: string,
                             entry: Option<Option<M>>, p: Option<Pc<M>>, q: Option<Pc<M>>) {
    NoConnect(motions) && RunMotions(n, motions).Some? && Stage(RunMotions(n, motions).value, i, j, key, entry, p, q)
  }

  lemma Swapped<M>(n: Network<M>, motions: seq<Motion<M>>, i: M, j: M, key: string, entry: Option<Option<M>>,
                   p: Option<Pc<M>>, q: Option<Pc<M>>)
    ensures Reaches(n, motions, i, j, key, entry, p, q) <==> Reaches(n, motions, j, i, key, entry, q, p)
  { }

  lemma Begins<M>(n: Network<M>, motions: seq<Motion<M>>, i: M, j: M, key: string, entry: Option<Option<M>>,
                  q: Option<Pc<M>>, call: Call<M>)
    requires Reaches(n, motions, i, j, key, entry, None, q) && !call.OnNew? && call.m == i
    ensures Reaches(n, motions + [Call(call)], i, j, key, entry, Some(FirstPc(call)), q)
  {
    RunsOn(n, motions, Call(call));
  }

  lemma GoesOn<M>(n: Network<M>, motions: seq<Motion<M>>, i: M, j: M, key: string, entry: Option<Option<M>>,
                  p: Pc<M>, q: Option<Pc<M>>)
    requires Reaches(n, motions, i, j, key, entry, Some(p), q)
    requires Section(RunMotions(n, motions).value.registries, key, p).Some?
    ensures var o := Section(RunMotions(n, motions).value.registries, key, p).value;
            Reaches(n, motions + [Continue(i)], i, j, key, EntryAt(o.c.active, key), o.next, q)
  {
    SectionIsNearerToEnd(RunMotions(n, motions).value.registries, key, p);
    RunsOn(n, motions, Continue(i));
  }

  /** The exit code of `i` finds the text registered. */
  lemma ExitIsFound<M>(n: Network<M>, motions: seq<Motion<M>>, i: M, j: M, key: string, found: Option<M>)
    returns (longer: seq<Motion<M>>)
    requires Reaches(n, motions, i, j, key, Some(found), None, None)
    ensures Reaches(n, longer, i, j, key, Some(found), Some(ExitGet), None)
  {
    Begins(n, motions, i, j, key, Some(found), None, OnExit(i));
    longer := motions + [Call(OnExit(i))];
    GoesOn(n, longer, i, j, key, Some(found), ExitCheck, None);
    longer := longer + [Continue(i)];
  }

  /** The lost connection `i` takes the entry away. */
  lemma LossTakesAway<M>(n: Network<M>, motions: seq<Motion<M>>, i: M, j: M, key: string, found: Option<M>,
                         q: Option<Pc<M>>)
    returns (longer: seq<Motion<M>>)
    requires Reaches(n, motions, i, j, key, Some(found), None, q)
    ensures Reaches(n, longer, i, j, key, None, Some(LostStore(found)), q)
  {
    longer := LossIsFound(n, motions, i, j, key, found, q);
    LossLooksUp(n, longer, i, j, key, found, q);
    LossErases(n, longer + [Continue(i)], i, j, key, found, q);
    longer := longer + [Continue(i)] + [Continue(i)];
  }

  lemma LossLooksUp<M>(n: Network<M>, motions: seq<Motion<M>>, i: M, j: M, key: string, found: Option<M>,
                       q: Option<Pc<M>>)
    requires Reaches(n, motions, i, j, key, Some(found), Some(LostGet), q)
    ensures Reaches(n, motions + [Continue(i)], i, j, key, Some(found), Some(LostErase(found)), q)
  {
    GoesOn(n, motions, i, j, key, Some(found), LostGet, q);
  }

  lemma LossErases<M>(n: Network<M>, motions: seq<Motion<M>>, i: M, j: M, key: string, found: Option<M>,
                      q: Option<Pc<M>>)
    requires Reaches(n, motions, i, j, key, Some(found), Some(LostErase(found)), q)
    ensures Reaches(n, motions + [Continue(i)], i, j, key, None, Some(LostStore(found)), q)
  {
    GoesOn(n, motions, i, j, key, Some(found), LostErase(found), q);
  }

  lemma LossIsFound<M>(n: Network<M>, motions: seq<Motion<M>>, i: M, j: M, key: string, found: Option<M>,
                       q: Option<Pc<M>>)
    returns (longer: seq<Motion<M>>)
    requires Reaches(n, motions, i, j, key, Some(found), None, q)
    ensures Reaches(n, longer, i, j, key, Some(found), Some(LostGet), q)
  {
    Begins(n, motions, i, j, key, Some(found), q, OnLost(i));
    longer := motions + [Call(OnLost(i))];
    GoesOn(n, longer, i, j, key, Some(found), LostCheck, q);
    longer := longer + [Continue(i)];
  }

  /** Then `i` looks it up, and uses NULL. */
  lemma NullIsUsed<M>(n: Network<M>, motions: seq<Motion<M>>, i: M, j: M, key: string, q: Option<Pc<M>>)
    returns (longer: seq<Motion<M>>)
    requires Reaches(n, motions, i, j, key, None, Some(ExitGet), q)
    ensures FailsAfter(n, longer, Continue(i))
  {
    GoesOn(n, motions, i, j, key, None, ExitGet, q);
    longer := motions + [Continue(i)];
    GoesOn(n, longer, i, j, key, Some(None), ExitErase(None), q);
    longer := longer + [Continue(i)];
    assert Reaches(n, longer, i, j, key, None, Some(ExitMark(None)), q);
  }

  lemma OverlapFails<M>(n: Network<M>, motions: seq<Motion<M>>, i: M, j: M, key: string, found: Option<M>)
    returns (longer: seq<Motion<M>>)
    requires Reaches(n, motions, i, j, key, Some(found), None, None)
    ensures FailsAfter(n, longer, Continue(i))
  {
    longer := ExitIsFound(n, motions, i, j, key, found);
    Swapped(n, longer, i, j, key, Some(found), Some(ExitGet), None);
    longer := LossTakesAway(n, longer, j, i, key, found, Some(ExitGet));
    Swapped(n, longer, i, j, key, None, Some(ExitGet), Some(LostStore(found)));
    longer := NullIsUsed(n, longer, i, j, key, Some(LostStore(found)));
  }

  /** The new connection is registered if its text is not active, and dropped if it is. */
  lemma Registers<M>(n: Network<M>, m: M, key: string)
    requires m !in n.registries.created
    ensures RunMotions(Plus(n, m, key), [Register(m)] + [Register(m)]).Some?
    ensures var n' := RunMotions(Plus(n, m, key), [Register(m)] + [Register(m)]).value;
            && n'.texts == n.texts[m := key] && n'.calling == n.calling && key in n'.registries.active
            && n'.registries.freed == n.registries.freed
  {
    var n1 := Plus(n, m, key);
    RunsOn(n1, [], Register(m));
    assert [] + [Register(m)] == [Register(m)];
    RunsOn(n1, [Register(m)], Register(m));
  }

  lemma BothAtRest<M>(n: Network<M>, first: M, m: M, key: string)
    requires Safe(n) && Live(n, first) && n.texts[first] == key && first !in n.entering && first !in n.calling
    requires m !in n.registries.created
    ensures RunMotions(Plus(n, m, key), [Register(m)] + [Register(m)]).Some?
    ensures var n' := RunMotions(Plus(n, m, key), [Register(m)] + [Register(m)]).value;
            key in n'.registries.active
            && Stage(n', first, m, key, Some(n'.registries.active[key]), None, None)
  {
    Registers(n, m, key);
  }

  /** A connection comes in while another one of its text listens. */
  lemma SecondConnectionFails<M(!new)>(n: Network<M>, first: M, m: M, key: string)
    requires Safe(n) && CanMove(n, Connect(m, key)) && m !in n.texts && Live(n, first) && n.texts[first] == key
    ensures CanFail(Plus(n, m, key))
  {
    var n1 := Plus(n, m, key);
    var rest := ComesToRest(n, first);
    RunsWithMore(n, rest, m, key);
    var quiet := RunMotions(n, rest).value;
    BothAtRest(quiet, first, m, key);
    var both := [Register(m)] + [Register(m)];
    RunsJoin(n1, rest, both);
    var found := RunMotions(n1, rest + both).value.registries.active[key];
    var longer := OverlapFails(n1, rest + both, first, m, key, found);
    assert FailsAfter(n1, longer, Continue(first));
  }

  /** In a safe network a new connection is safe if and only if no other one of its text is listening:
      otherwise, without any further connection, a callback can use NULL. */
  lemma ConnectIsSafeIff<M(!new)>(n: Network<M>, m: M, key: string)
    requires Safe(n) && CanMove(n, Connect(m, key))
    ensures Distinct(n, Connect(m, key)) <==> !CanFail(Moved(n, Connect(m, key)).value)
  {
    if Distinct(n, Connect(m, key)) {
      ConnectKeepsSafe(n, m, key);
      SafeCannotFail(Moved(n, Connect(m, key)).value);
    } else {
      var first :| first in n.texts && Live(n, first) && n.texts[first] == key;
      SecondConnectionFails(n, first, m, key);
    }
  }
}

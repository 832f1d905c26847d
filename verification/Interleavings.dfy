/**
 Whole interleavings of the callbacks' lock sections: each is a run of atomic callbacks as far as it goes, and
 only a connection whose module has been dropped can make one fail.

 That a run goes on means that nothing dereferences NULL or a deleted module. It does not mean that no thread
 waits for ever: see module ListenerLocks.
 */
module Interleavings {
  import opened Wrappers
  import opened StringOrder
  import opened Lifecycle
  import opened LockSections

  // ---------------------------------------------------------------- whose lookup fails

  /** A callback in the window whose own module is not the entry of its text comes from a connection whose
      module has been dropped. */
  lemma ForeignIsDropped<M>(s: State<M>, key: string)
    requires Sound(s) && Texts(s) && key in s.running && InWindow(s.running[key])
    requires key in s.registries.shutdown ==> s.registries.shutdown[key] != Some(s.owners[key])
    ensures key in s.owners && s.owners[key] in Dropped(Abs(s))
  {
    assert OwnerHolds(s, key);
    NotActive(s, key);
    NotInShutdown(s, key);
    NotUnborn(s, key);
  }

  lemma NotActive<M>(s: State<M>, key: string)
    requires Sound(s) && Texts(s) && key in s.running && InWindow(s.running[key])
    ensures s.owners[key] !in Modules(AbsActive(s))
  {
    var r, m := AbsActive(s), s.owners[key];
    assert OwnerHolds(s, key) && PcHolds(s.registries.active, key, s.running[key]);
    forall k | k in r ensures r[k] != Some(m) { AbsActiveText(s, k); }
  }

  lemma AbsActiveText<M>(s: State<M>, k: string)
    requires Texts(s) && k in AbsActive(s)
    ensures AbsActive(s)[k].Some? ==> HasText(s.texts, AbsActive(s)[k].value, k)
  {
    if k !in s.registries.active { assert CarriedByText(s.texts, k, s.running[k]); }
  }

  lemma NotInShutdown<M>(s: State<M>, key: string)
    requires Texts(s) && key in s.running
    requires key in s.registries.shutdown ==> s.registries.shutdown[key] != Some(s.owners[key])
    ensures s.owners[key] !in Modules(NonNull(s.registries.shutdown))
  {
    var r, m := s.registries.shutdown, s.owners[key];
    assert OwnerHolds(s, key);
    forall k | k in r ensures r[k] != Some(m) { assert r[k].Some? ==> HasText(s.texts, r[k].value, k); }
  }

  lemma NotUnborn<M>(s: State<M>, key: string)
    requires Texts(s) && key in s.running && !IsNew(s.running[key])
    ensures s.owners[key] !in Unborn(s)
  {
    var m := s.owners[key];
    assert OwnerHolds(s, key);
    forall k | k in s.running && IsNew(s.running[k]) ensures s.running[k].m != m { assert OwnerHolds(s, k); }
  }

  lemma DoomedIsDropped<M>(s: State<M>, key: string)
    requires Sound(s) && Texts(s) && key in s.running && Doomed(s, key)
    ensures key in s.owners && s.owners[key] in Dropped(Abs(s))
  {
    assert OwnerHolds(s, key) && LookupHolds(s.registries, key, s.running[key]);
    ForeignIsDropped(s, key);
  }

  /** The loop never sweeps while a callback looks up its own module: it waits for the listener mutex. */
  lemma SweptWindowIsDropped<M>(s: State<M>, key: string)
    requires Sound(s) && Texts(s) && Enabled(s, Action<M>.LoopSweep) && key in s.running && InWindow(s.running[key])
    ensures key in s.owners && s.owners[key] in Dropped(Abs(s))
  {
    assert OwnerHolds(s, key);
    assert Held(s, s.owners[key]);
    ForeignIsDropped(s, key);
  }

  /** The step fails, because of a lookup by a connection whose module has been dropped. */
  ghost predicate FailsAtDropped<M>(s: State<M>, a: Action<M>) {
    && Enabled(s, a) && Next(s, a).None?
    && exists key :: key in s.running && DoomedAndDropped(s, key) && (a == Advance(key) || a.LoopSweep?)
  }

  ghost predicate DoomedAndDropped<M>(s: State<M>, key: string)
    requires key in s.running
  {
    Doomed(s, key) && key in s.owners && s.owners[key] in Dropped(Abs(s))
  }

  lemma FailureIsDropped<M>(s: State<M>, a: Action<M>)
    requires Sound(s) && Texts(s) && Enabled(s, a) && Next(s, a).None?
    ensures FailsAtDropped(s, a)
  {
    NextKeepsInv(s, a);
    if a.Advance? {
      DoomedIsDropped(s, a.key);
      assert DoomedAndDropped(s, a.key);
    } else {
      var key :| key in s.registries.shutdown && s.registries.shutdown[key].None?;
      DoomedIsDropped(s, key);
      assert DoomedAndDropped(s, key);
    }
  }

  // ---------------------------------------------------------------- whole interleavings

  /** The state after all actions; None if one was not enabled or dereferenced NULL or a deleted module. */
  function RunActions<M>(s: State<M>, actions: seq<Action<M>>): Option<State<M>>
    decreases |actions|
  {
    if actions == [] then Some(s)
    else
      match RunActions(s, actions[..|actions| - 1])
      case None => None
      case Some(s1) => if Enabled(s1, actions[|actions| - 1]) then Next(s1, actions[|actions| - 1]) else None
  }

  ghost predicate EnabledRun<M>(s: State<M>, actions: seq<Action<M>>) {
    forall i :: 0 <= i < |actions| && RunActions(s, actions[..i]).Some? ==>
      Enabled(RunActions(s, actions[..i]).value, actions[i])
  }

  /** The atomic callbacks of an interleaving, in the order in which they take effect. */
  function Effects<M>(s: State<M>, actions: seq<Action<M>>): seq<Event<M>>
    decreases |actions|
  {
    if actions == [] then []
    else
      var front := actions[..|actions| - 1];
      match RunActions(s, front)
      case None => []
      case Some(s1) => Effects(s, front) + Effect(s1, actions[|actions| - 1])
  }

  lemma {:induction false} RunsConcatenate<M>(c: Coordinator<M>, p: seq<Event<M>>, q: seq<Event<M>>)
    requires Run(c, p).Some?
    ensures Run(c, p + q) == Run(Run(c, p).value, q)
    decreases |q|
  {
    if q == [] {
      assert p + q == p;
    } else {
      var n := |q| - 1;
      assert (p + q)[..|p + q| - 1] == p + q[..n];
      RunsConcatenate(c, p, q[..n]);
    }
  }

  lemma FreshRunsConcatenate<M>(c: Coordinator<M>, p: seq<Event<M>>, q: seq<Event<M>>)
    requires Run(c, p).Some? && FreshRun(c, p) && FreshRun(Run(c, p).value, q)
    ensures FreshRun(c, p + q)
  {
    forall i | 0 <= i < |p + q| && Run(c, (p + q)[..i]).Some? ensures Fresh(Run(c, (p + q)[..i]).value, (p + q)[i]) {
      if i < |p| {
        assert (p + q)[..i] == p[..i];
      } else {
        assert (p + q)[..i] == p + q[..i - |p|];
        RunsConcatenate(c, p, q[..i - |p|]);
      }
    }
  }

  /** A run of atomic events that ends in what `s` stands for goes on with the effect of the next action. */
  lemma NextActionRefines<M>(s: State<M>, events: seq<Event<M>>, a: Action<M>)
    requires Sound(s) && Texts(s) && Enabled(s, a) && Next(s, a).Some?
    requires FreshRun(Initial(), events) && Run(Initial(), events) == Some(Abs(s))
    ensures Sound(Next(s, a).value) && Texts(Next(s, a).value)
    ensures FreshRun(Initial(), events + Effect(s, a))
    ensures Run(Initial(), events + Effect(s, a)) == Some(Abs(Next(s, a).value))
  {
    NextKeepsInv(s, a);
    NextKeepsTexts(s, a);
    NextRefines(s, a);
    FreshRunsConcatenate(Initial(), events, Effect(s, a));
    RunsConcatenate(Initial(), events, Effect(s, a));
  }

  /** The interleaved run leads to `end`, and its effects are a run of atomic events to what that stands for. */
  ghost predicate RefinesAtomicRun<M>(actions: seq<Action<M>>, end: State<M>) {
    && RunActions(Start(), actions) == Some(end) && Sound(end) && Texts(end)
    && FreshRun(Initial(), Effects(Start(), actions)) && Run(Initial(), Effects(Start(), actions)) == Some(Abs(end))
  }

  /** The i-th action fails, and it does so because of a connection whose module has been dropped. */
  ghost predicate FailedAt<M>(actions: seq<Action<M>>, i: nat)
    requires i < |actions|
  {
    RunActions(Start(), actions[..i]).Some? && FailsAtDropped(RunActions(Start(), actions[..i]).value, actions[i])
  }

  /** It does the one or the other. */
  ghost predicate RunsOrFails<M>(actions: seq<Action<M>>) {
    match RunActions(Start(), actions)
    case Some(end) => RefinesAtomicRun(actions, end)
    case None => exists i: nat :: i < |actions| && FailedAt(actions, i)
  }

  lemma NothingRefines<M>()
    ensures RunsOrFails<M>([])
  {
    var s0 := Start<M>();
    assert Abs(s0).active == map[] && Abs(s0).shutdown == map[] && Abs(s0).created == {};
    assert Clean(s0.registries).shutdown == map[];
    assert Sound(s0) && Texts(s0);
  }

  lemma OneMoreAction<M>(actions: seq<Action<M>>)
    requires actions != [] && RunsOrFails(actions[..|actions| - 1])
    requires var before := RunActions(Start(), actions[..|actions| - 1]);
             before.Some? ==> Enabled(before.value, actions[|actions| - 1])
    ensures RunsOrFails(actions)
  {
    var n := |actions| - 1;
    var front, a := actions[..n], actions[n];
    match RunActions(Start<M>(), front)
    case Some(s) =>
      if Next(s, a).Some? {
        NextActionRefines(s, Effects(Start(), front), a);
      } else {
        FailureIsDropped(s, a);
        assert FailedAt(actions, n);
      }
    case None =>
      var i: nat :| i < |front| && FailedAt(front, i);
      assert front[..i] == actions[..i];
      assert FailedAt(actions, i);
  }

  lemma EnabledFront<M>(actions: seq<Action<M>>)
    requires actions != [] && EnabledRun(Start(), actions)
    ensures EnabledRun(Start(), actions[..|actions| - 1])
  {
    var n := |actions| - 1;
    forall i | 0 <= i < n ensures actions[..n][..i] == actions[..i] { }
  }

  /** Every interleaving of enabled actions is a run of atomic callbacks as far as it goes, and goes on until
      a connection whose module has been dropped uses what it found in the shutdown registry after a sweep. */
  lemma {:induction false} RunActionsRefine<M>(actions: seq<Action<M>>)
    requires EnabledRun(Start(), actions)
    ensures RunsOrFails(actions)
    decreases |actions|
  {
    if actions == [] {
      NothingRefines<M>();
    } else {
      EnabledFront(actions);
      RunActionsRefine(actions[..|actions| - 1]);
      OneMoreAction(actions);
    }
  }

  /** A callback of a connection whose module has not been dropped never dereferences NULL or a deleted
      module in these interleavings, in which callbacks of one text do not overlap. */
  lemma OwnCallbackNeverFails<M>(actions: seq<Action<M>>, key: string)
    requires EnabledRun(Start(), actions) && RunActions(Start(), actions).Some?
    requires key in RunActions(Start(), actions).value.running
    ensures var s := RunActions(Start(), actions).value;
            key in s.owners && (s.owners[key] !in Dropped(Abs(s)) ==> Next(s, Advance(key)).Some?)
  {
    RunActionsRefine(actions);
    var s := RunActions(Start<M>(), actions).value;
    assert OwnerHolds(s, key);
    if Next(s, Advance(key)).None? { NextKeepsInv(s, Advance(key)); DoomedIsDropped(s, key); }
  }

  // ---------------------------------------------------------------- runs that never fail

  /** No connection comes in under a text that is still registered. */
  predicate NoDuplicate<M>(s: State<M>, a: Action<M>) {
    a.Advance? && a.key in s.running && s.running[a.key].NewStore? ==>
      a.key !in s.registries.active && a.key !in s.registries.shutdown
  }

  /** Nothing has been dropped, and no text is in both registries. */
  ghost predicate Tidy<M>(c: Coordinator<M>) {
    Dropped(c) == {} && forall key :: key in c.active ==> key !in c.shutdown
  }

  lemma StepKeepsTidy<M>(c: Coordinator<M>, e: Event<M>)
    requires Lifecycle.Inv(c) && Fresh(c, e) && Tidy(c)
    requires e.NewModule? ==> e.key !in c.active && e.key !in c.shutdown
    ensures Step(c, e).Some? && Tidy(Step(c, e).value)
  {
    DroppedGrowsOnlyByLoss(c, e);
    if (e.ExitCode? || e.ConnectionLost?) && e.key in c.active { MoveEvent(c, e.key); }
  }

  lemma TidyNeverFails<M>(s: State<M>, a: Action<M>)
    requires Sound(s) && Texts(s) && Enabled(s, a) && Dropped(Abs(s)) == {}
    ensures Next(s, a).Some?
  {
    if Next(s, a).None? {
      FailureIsDropped(s, a);
      assert false;
    }
  }

  lemma NextKeepsTidy<M>(s: State<M>, a: Action<M>)
    requires Sound(s) && Lifecycle.Inv(Abs(s)) && Enabled(s, a) && Tidy(Abs(s)) && NoDuplicate(s, a)
    requires Next(s, a).Some?
    ensures Tidy(Abs(Next(s, a).value))
  {
    NextRefines(s, a);
    EffectIsOne(s, a);
    if Effect(s, a) != [] {
      var e := Effect(s, a)[0];
      OneEvent(Abs(s), e);
      EffectIsFresh(s, a, e);
      StepKeepsTidy(Abs(s), e);
    }
  }

  lemma EffectIsOne<M>(s: State<M>, a: Action<M>)
    ensures Effect(s, a) == [] || Effect(s, a) == [Effect(s, a)[0]]
  { }

  lemma EffectIsFresh<M>(s: State<M>, a: Action<M>, e: Event<M>)
    requires Sound(s) && Enabled(s, a) && Effect(s, a) == [e] && NoDuplicate(s, a)
    ensures Fresh(Abs(s), e)
    ensures e.NewModule? ==> e.key !in Abs(s).active && e.key !in Abs(s).shutdown
  {
    if e.NewModule? { NewStoreRefines(s, e.key); }
  }

  ghost predicate DuplicateFreeRun<M>(actions: seq<Action<M>>) {
    forall i :: 0 <= i < |actions| && RunActions(Start(), actions[..i]).Some? ==>
      NoDuplicate(RunActions(Start(), actions[..i]).value, actions[i])
  }

  lemma DuplicateFreeFront<M>(actions: seq<Action<M>>)
    requires actions != [] && DuplicateFreeRun(actions)
    ensures DuplicateFreeRun(actions[..|actions| - 1])
  {
    var n := |actions| - 1;
    forall i | 0 <= i < n ensures actions[..n][..i] == actions[..i] { }
  }

  /** If no connection comes in under a text that is still registered, nothing is ever dropped and no
      interleaving dereferences NULL or a deleted module. */
  lemma {:induction false} DuplicateFreeRunsNeverFail<M>(actions: seq<Action<M>>)
    requires EnabledRun(Start(), actions) && DuplicateFreeRun(actions)
    ensures RunActions(Start(), actions).Some?
    ensures Tidy(Abs(RunActions(Start(), actions).value))
    decreases |actions|
  {
    if actions == [] {
      assert Abs(Start<M>()).active == map[] && Abs(Start<M>()).created == {};
    } else {
      EnabledFront(actions);
      DuplicateFreeFront(actions);
      DuplicateFreeRunsNeverFail(actions[..|actions| - 1]);
      RunActionsRefine(actions[..|actions| - 1]);
      OneMoreTidy(actions);
    }
  }

  lemma AbsIsGood<M>(actions: seq<Action<M>>, s: State<M>)
    requires RefinesAtomicRun(actions, s)
    ensures Lifecycle.Inv(Abs(s))
  {
    RunKeepsInv(Initial(), Effects(Start(), actions));
  }

  lemma OneMoreTidy<M>(actions: seq<Action<M>>)
    requires actions != [] && RunsOrFails(actions[..|actions| - 1])
    requires RunActions(Start(), actions[..|actions| - 1]).Some?
    requires var s, a := RunActions(Start(), actions[..|actions| - 1]).value, actions[|actions| - 1];
             Enabled(s, a) && NoDuplicate(s, a) && Tidy(Abs(s))
    ensures RunActions(Start(), actions).Some? && Tidy(Abs(RunActions(Start(), actions).value))
  {
    var front, a := actions[..|actions| - 1], actions[|actions| - 1];
    var s := RunActions(Start<M>(), front).value;
    AbsIsGood(front, s);
    TidyGoesOn(s, a);
  }

  lemma TidyGoesOn<M>(s: State<M>, a: Action<M>)
    requires Sound(s) && Texts(s) && Lifecycle.Inv(Abs(s)) && Enabled(s, a) && Tidy(Abs(s)) && NoDuplicate(s, a)
    ensures Next(s, a).Some? && Tidy(Abs(Next(s, a).value))
  {
    TidyNeverFails(s, a);
    NextKeepsTidy(s, a);
  }

  /** The loop sweeps while a callback stands in the window. */
  predicate SweepsInWindow<M>(s: State<M>, a: Action<M>) {
    a.LoopSweep? && exists key :: key in s.running && InWindow(s.running[key])
  }

  ghost predicate NoneDoomed<M>(s: State<M>) {
    forall key :: key in s.running ==> !Doomed(s, key)
  }

  lemma NextDoomsNone<M>(s: State<M>, a: Action<M>)
    requires Sound(s) && Enabled(s, a) && NoneDoomed(s) && !SweepsInWindow(s, a)
    ensures Next(s, a).Some? && NoneDoomed(Next(s, a).value)
  {
    NextKeepsInv(s, a);
    var t := Next(s, a).value;
    forall key | key in t.running ensures !Doomed(t, key) {
      if key in s.running { StaysUndoomed(s, a, key); }
    }
  }

  lemma StaysUndoomed<M>(s: State<M>, a: Action<M>, key: string)
    requires Sound(s) && Enabled(s, a) && key in s.running && !Doomed(s, key) && !SweepsInWindow(s, a)
    requires Next(s, a).Some? && key in Next(s, a).value.running
    ensures !Doomed(Next(s, a).value, key)
  {
    if a == Advance(key) { AdvancesUndoomed(s, key); } else { OtherStaysUndoomed(s, a, key); }
  }

  lemma AdvancesUndoomed<M>(s: State<M>, key: string)
    requires Sound(s) && key in s.running && !Doomed(s, key)
    requires AdvanceStep(s, key).Some? && key in AdvanceStep(s, key).value.running
    ensures !Doomed(AdvanceStep(s, key).value, key)
  {
    if s.running[key].LostShutdownGet? { LookupHoldsAlive(s, key); }
    if !s.running[key].LostShutdownCheck? && !InWindow(s.running[key]) { NotInWindowNext(s, key); }
  }

  lemma NotInWindowNext<M>(s: State<M>, key: string)
    requires key in s.running && !s.running[key].LostShutdownCheck? && !InWindow(s.running[key])
    requires AdvanceStep(s, key).Some? && key in AdvanceStep(s, key).value.running
    ensures !InWindow(AdvanceStep(s, key).value.running[key])
  { }

  lemma OtherStaysUndoomed<M>(s: State<M>, a: Action<M>, key: string)
    requires Enabled(s, a) && key in s.running && !Doomed(s, key) && !SweepsInWindow(s, a)
    requires a != Advance(key) && Next(s, a).Some? && key in Next(s, a).value.running
    ensures !Doomed(Next(s, a).value, key)
  {
    OtherStep(s, a, key);
  }

  lemma LookupHoldsAlive<M>(s: State<M>, key: string)
    requires Sound(s)
    ensures key in s.registries.shutdown && s.registries.shutdown[key].Some? ==>
              !Dead(s.registries, s.registries.shutdown[key])
    ensures key in s.running && s.running[key].LostShutdownGet? && key in s.registries.shutdown ==>
              s.registries.shutdown[key].Some?
  {
    var c := Clean(s.registries);
    if key in c.shutdown { assert c.shutdown[key].value !in c.freed; }
  }

  /** Every action is enabled, and the loop never sweeps in a window. */
  ghost predicate ProperRun<M>(s: State<M>, actions: seq<Action<M>>) {
    EnabledRun(s, actions)
    && forall i :: 0 <= i < |actions| && RunActions(s, actions[..i]).Some? ==>
         !SweepsInWindow(RunActions(s, actions[..i]).value, actions[i])
  }

  lemma ProperFront<M>(actions: seq<Action<M>>)
    requires actions != [] && ProperRun(Start(), actions)
    ensures ProperRun(Start(), actions[..|actions| - 1])
  {
    var n := |actions| - 1;
    forall i | 0 <= i < n ensures actions[..n][..i] == actions[..i] { }
  }

  /** If the loop never sweeps in a window, no interleaving fails either, duplicates or not. */
  lemma {:induction false} ProperRunsNeverFail<M>(actions: seq<Action<M>>)
    requires ProperRun(Start(), actions)
    ensures RunActions(Start(), actions).Some? && NoneDoomed(RunActions(Start(), actions).value)
    decreases |actions|
  {
    if actions != [] {
      ProperFront(actions);
      ProperRunsNeverFail(actions[..|actions| - 1]);
      RunActionsRefine(actions[..|actions| - 1]);
      OneMoreProper(actions);
    }
  }

  lemma OneMoreProper<M>(actions: seq<Action<M>>)
    requires actions != [] && RunsOrFails(actions[..|actions| - 1])
    requires RunActions(Start(), actions[..|actions| - 1]).Some?
    requires var s, a := RunActions(Start(), actions[..|actions| - 1]).value, actions[|actions| - 1];
             NoneDoomed(s) && Enabled(s, a) && !SweepsInWindow(s, a)
    ensures RunActions(Start(), actions).Some? && NoneDoomed(RunActions(Start(), actions).value)
  {
    NextDoomsNone(RunActions(Start<M>(), actions[..|actions| - 1]).value, actions[|actions| - 1]);
  }

  // ---------------------------------------------------------------- guards

  ghost predicate GuardsHold<M>(s: State<M>) {
    NoNull(s.registries.active) && forall key :: key in s.running ==> GuardHolds(s, key)
  }

  /** At a `getModule` its lookup finds a module and inserts nothing; a module in use is not freed; a
      module on its way between the registries is in neither and not freed. Dropped connections may fail
      in the shutdown registry. */
  ghost predicate GuardHolds<M>(s: State<M>, key: string)
    requires key in s.running
  {
    var c, pc := s.registries, s.running[key];
    && (pc.StateGet? || pc.ExitGet? || pc.LostGet? ==> Get(c.active, key).0 == c.active && Get(c.active, key).1.Some?)
    && (pc.StateUse? || pc.ExitMark? ==> !Dead(c, pc.found))
    && (Moving(pc) ==>
          pc.found.value !in Modules(c.active) && pc.found.value !in Modules(c.shutdown) && pc.found.value !in c.freed)
    && (InWindow(pc) && !Doomed(s, key) ==> LookupIsSafe(c, key, pc))
    && (InWindow(pc) && Doomed(s, key) ==> key in s.owners && s.owners[key] in Dropped(Abs(s)))
  }

  ghost predicate LookupIsSafe<M>(c: Coordinator<M>, key: string, pc: Pc<M>) {
    && (pc.LostShutdownGet? ==> Get(c.shutdown, key).0 == c.shutdown && Get(c.shutdown, key).1.Some?)
    && (pc.LostShutdownUse? ==> !Dead(c, pc.found))
  }

  lemma InvGuards<M>(s: State<M>, key: string)
    requires Sound(s) && Texts(s) && key in s.running
    ensures GuardHolds(s, key)
  {
    var c, pc := s.registries, s.running[key];
    assert PcHolds(c.active, key, pc) && CarriedApart(c, pc);
    if key in c.active { ActiveIsAlive(s, key); }
    if InWindow(pc) {
      LookupHoldsAlive(s, key);
      if Doomed(s, key) { DoomedIsDropped(s, key); }
    }
  }

  /** What no interleaving of lock sections can break: nothing dereferences NULL or a deleted module, the
      answer of a `hasModule` still holds at the following `getModule`, which therefore inserts nothing, and
      a module on its way between the registries is neither in one the loop pulses or sweeps nor freed;
      except that a dropped connection's lookup in the shutdown registry may have been swept. */
  lemma GuardsHoldInEveryInterleaving<M>(actions: seq<Action<M>>)
    requires EnabledRun(Start(), actions) && RunActions(Start(), actions).Some?
    ensures GuardsHold(RunActions(Start(), actions).value)
    ensures ProperRun(Start(), actions) ==> NoneDoomed(RunActions(Start(), actions).value)
  {
    RunActionsRefine(actions);
    var s := RunActions(Start<M>(), actions).value;
    forall key | key in s.running ensures GuardHolds(s, key) { InvGuards(s, key); }
    if ProperRun(Start(), actions) { ProperRunsNeverFail(actions); }
  }

  lemma QuietAbs<M>(s: State<M>)
    requires Sound(s) && s.running == map[]
    ensures Abs(s) == s.registries
  {
    CleanWithoutNull(s.registries.shutdown);
  }

  /** Between callbacks every interleaving has reached the state of an atomic run, so everything proved
      about atomic runs holds of it. */
  lemma QuietStatesAreAtomic<M>(actions: seq<Action<M>>)
    requires EnabledRun(Start(), actions) && RunActions(Start(), actions).Some?
    ensures var s := RunActions(Start(), actions).value;
            s.running == map[] ==>
              && FreshRun(Initial(), Effects(Start(), actions))
              && Run(Initial(), Effects(Start(), actions)) == Some(s.registries)
  {
    RunActionsRefine(actions);
    var s := RunActions(Start<M>(), actions).value;
    if s.running == map[] { QuietAbs(s); }
  }

  // ---------------------------------------------------------------- sweeps in a window

  /** What a step of another callback or of the loop does to the shutdown entry a callback relies on. */
  lemma OtherStep<M>(s: State<M>, a: Action<M>, key: string)
    requires key in s.running && Enabled(s, a) && a != Advance(key) && Next(s, a).Some?
    ensures var s' := Next(s, a).value;
            && key in s'.running && s'.running[key] == s.running[key]
            && (!a.LoopSweep? ==> SameEntry(s, s', key))
            && (a.LoopSweep? ==> s'.registries.shutdown == map[] && s.registries.freed <= s'.registries.freed)
  {
    if a.Advance? { OtherAdvance(s, a.key, key); }
  }

  predicate SameEntry<M>(s: State<M>, s': State<M>, key: string) {
    && s'.registries.freed == s.registries.freed
    && (key in s'.registries.shutdown <==> key in s.registries.shutdown)
    && (key in s.registries.shutdown ==> s'.registries.shutdown[key] == s.registries.shutdown[key])
  }

  lemma OtherAdvance<M>(s: State<M>, other: string, key: string)
    requires key in s.running && other in s.running && other != key && AdvanceStep(s, other).Some?
    ensures var s' := AdvanceStep(s, other).value;
            key in s'.running && s'.running[key] == s.running[key] && SameEntry(s, s', key)
  { }

  lemma SweepFrees<M>(s: State<M>, key: string)
    requires Enabled(s, Action<M>.LoopSweep) && Next(s, Action<M>.LoopSweep).Some?
    requires key in s.registries.shutdown && s.registries.shutdown[key].Some?
    ensures s.registries.shutdown[key].value in Next(s, Action<M>.LoopSweep).value.registries.freed
  {
    DeletesEach(s.registries.shutdown, key);
  }

  /** While only others run, the entry of a callback in the window stays exactly until the loop sweeps, and
      then its module has been deleted. */
  lemma {:induction false} EntryStaysUntilSweep<M>(s: State<M>, key: string, others: seq<Action<M>>)
    requires key in s.running && key in s.registries.shutdown && s.registries.shutdown[key].Some?
    requires !Dead(s.registries, s.registries.shutdown[key])
    requires Advance(key) !in others && RunActions(s, others).Some?
    ensures var t, found := RunActions(s, others).value, s.registries.shutdown[key];
            && key in t.running && t.running[key] == s.running[key]
            && (key in t.registries.shutdown <==> Action<M>.LoopSweep !in others)
            && (key in t.registries.shutdown ==> t.registries.shutdown[key] == found)
            && (Dead(t.registries, found) <==> Action<M>.LoopSweep in others)
    decreases |others|
  {
    if others != [] {
      var n := |others| - 1;
      var front, a := others[..n], others[n];
      assert others == front + [a];
      EntryStaysUntilSweep(s, key, front);
      var t := RunActions(s, front).value;
      OtherStep(t, a, key);
      if a.LoopSweep? && key in t.registries.shutdown { SweepFrees(t, key); }
    }
  }

  /** A connection is lost whose text `hasModule` has just found in the shutdown registry. Whatever runs
      between the check and the lookup, and between the lookup and the use, the callback dereferences NULL
      or a deleted module if and only if the loop sweeps in one of these times; NULL exactly if it sweeps
      before the lookup. (It can only if the connection's own module has been dropped.) */
  lemma LostLookupFailsIffSwept<M>(s: State<M>, key: string, before: seq<Action<M>>, after: seq<Action<M>>)
    requires Sound(s) && key in s.running && s.running[key].LostShutdownGet? && key in s.registries.shutdown
    requires Advance(key) !in before && Advance(key) !in after
    requires RunActions(s, before).Some?
    ensures var t := RunActions(s, before).value;
            && Enabled(t, Advance(key)) && Next(t, Advance(key)).Some?
            && var u := Next(t, Advance(key)).value;
            && key in u.running && u.running[key].LostShutdownUse?
            && (u.running[key].found.None? <==> Action<M>.LoopSweep in before)
            && (RunActions(u, after).Some? ==>
                  && Enabled(RunActions(u, after).value, Advance(key))
                  && (Next(RunActions(u, after).value, Advance(key)) == None <==>
                        Action<M>.LoopSweep in before || Action<M>.LoopSweep in after))
  {
    LookupHoldsAlive(s, key);
    EntryStaysUntilSweep(s, key, before);
    var t := RunActions(s, before).value;
    var u := Next(t, Advance(key)).value;
    if RunActions(u, after).Some? { UseFailsIffSwept(u, key, after); }
  }

  /** After the lookup: what was found is dead at its use if it was NULL or the loop swept in between. */
  lemma UseFailsIffSwept<M>(u: State<M>, key: string, after: seq<Action<M>>)
    requires key in u.running && u.running[key].LostShutdownUse? && Advance(key) !in after
    requires var found := u.running[key].found;
             found.Some? ==> Get(u.registries.shutdown, key).1 == found && !Dead(u.registries, found)
    requires RunActions(u, after).Some?
    ensures Enabled(RunActions(u, after).value, Advance(key))
    ensures Next(RunActions(u, after).value, Advance(key)) == None <==>
            u.running[key].found.None? || Action<M>.LoopSweep in after
  {
    UseStays(u, key, after);
    if u.running[key].found.Some? { EntryStaysUntilSweep(u, key, after); }
  }

  lemma {:induction false} UseStays<M>(s: State<M>, key: string, others: seq<Action<M>>)
    requires key in s.running && Advance(key) !in others && RunActions(s, others).Some?
    ensures key in RunActions(s, others).value.running && RunActions(s, others).value.running[key] == s.running[key]
    decreases |others|
  {
    if others != [] {
      var n := |others| - 1;
      assert others == others[..n] + [others[n]];
      UseStays(s, key, others[..n]);
      OtherStep(RunActions(s, others[..n]).value, others[n], key);
    }
  }

  /** While the callback of a connection looks up its own module, the loop does not sweep at all. */
  lemma {:induction false} OwnLookupIsNotSwept<M>(s: State<M>, key: string, others: seq<Action<M>>)
    requires Texts(s) && key in s.running && InWindow(s.running[key])
    requires key in s.registries.shutdown && s.registries.shutdown[key] == Some(s.owners[key])
    requires Advance(key) !in others && RunActions(s, others).Some?
    ensures Action<M>.LoopSweep !in others
    ensures OwnWindow(s, RunActions(s, others).value, key)
    decreases |others|
  {
    assert OwnerHolds(s, key);
    if others != [] {
      var n := |others| - 1;
      var front, a := others[..n], others[n];
      assert others == front + [a];
      OwnLookupIsNotSwept(s, key, front);
      OwnWindowStays(s, RunActions(s, front).value, key, a);
    }
  }

  /** The callback is where it was, and its own module is still the entry of its text. */
  ghost predicate OwnWindow<M>(s: State<M>, t: State<M>, key: string)
    requires key in s.running && key in s.owners && s.owners[key] in s.texts
  {
    && key in t.running && t.running[key] == s.running[key] && key in t.owners && t.owners[key] == s.owners[key]
    && key in t.registries.shutdown && t.registries.shutdown[key] == Some(s.owners[key])
    && t.registries.freed == s.registries.freed && s.registries.created <= t.registries.created
    && HasText(t.texts, s.owners[key], s.texts[s.owners[key]])
  }

  lemma OwnWindowStays<M>(s: State<M>, t: State<M>, key: string, a: Action<M>)
    requires Texts(s) && key in s.running && InWindow(s.running[key]) && OwnerHolds(s, key) && OwnWindow(s, t, key)
    requires Enabled(t, a) && a != Advance(key) && Next(t, a).Some?
    ensures !a.LoopSweep? && OwnWindow(s, Next(t, a).value, key)
  {
    assert Held(t, s.owners[key]);
    OtherStep(t, a, key);
    CreatedGrows(t, a);
  }

  lemma CreatedGrows<M>(t: State<M>, a: Action<M>)
    requires Enabled(t, a) && Next(t, a).Some?
    ensures t.registries.created <= Next(t, a).value.registries.created
  { }

  // ---------------------------------------------------------------- given runs

  /** The actions, all of them enabled, lead from `s` to `t`. */
  ghost predicate Plays<M>(s: State<M>, actions: seq<Action<M>>, t: State<M>) {
    RunActions(s, actions) == Some(t)
  }

  lemma PlaysOn<M>(s: State<M>, actions: seq<Action<M>>, t: State<M>, a: Action<M>)
    requires Plays(s, actions, t) && Enabled(t, a) && Next(t, a).Some?
    ensures Plays(s, actions + [a], Next(t, a).value)
  {
    assert (actions + [a])[..|actions|] == actions;
  }

  lemma {:induction false} PlaysConcatenate<M>(s: State<M>, p: seq<Action<M>>, t: State<M>, q: seq<Action<M>>,
                                               u: State<M>)
    requires Plays(s, p, t) && Plays(t, q, u)
    ensures Plays(s, p + q, u)
    decreases |q|
  {
    if q == [] {
      assert p + q == p;
    } else {
      var n := |q| - 1;
      var v := RunActions(t, q[..n]).value;
      PlaysConcatenate(s, p, t, q[..n], v);
      PlaysOn(s, p + q[..n], v, q[n]);
      assert p + q == p + q[..n] + [q[n]];
    }
  }

  /** A callback from its beginning on, with nothing in between. */
  function CallOf<M>(key: string, call: Call<M>, sections: nat): seq<Action<M>> {
    if sections == 0 then [Begin(key, call)] else CallOf(key, call, sections - 1) + [Advance(key)]
  }

  lemma BeginsCall<M>(s: State<M>, key: string, call: Call<M>)
    requires Enabled(s, Begin(key, call))
    ensures Plays(s, CallOf(key, call, 0), BeginStep(s, key, call))
  {
    PlaysOn(s, [], s, Begin(key, call));
    assert [] + [Begin(key, call)] == [Begin(key, call)];
  }

  /** While a callback of `m` runs under `key`, and when it is over. */
  function During<M>(s: State<M>, c: Coordinator<M>, key: string, m: M, texts: map<M, string>, pc: Pc<M>): State<M> {
    State(c, s.running[key := pc], s.owners[key := m], texts)
  }

  function Over<M>(s: State<M>, c: Coordinator<M>, key: string, m: M, texts: map<M, string>): State<M> {
    State(c, s.running, s.owners[key := m], texts)
  }

  lemma GoesOn<M>(s: State<M>, key: string, call: Call<M>, n: nat, c: Coordinator<M>, texts: map<M, string>, pc: Pc<M>,
                  c': Coordinator<M>, pc': Pc<M>)
    requires Plays(s, CallOf(key, call, n), During(s, c, key, call.m, texts, pc))
    requires Section(c, key, pc) == GoOn(c', pc')
    ensures Plays(s, CallOf(key, call, n + 1), During(s, c', key, call.m, texts, pc'))
  {
    var t := During(s, c, key, call.m, texts, pc);
    PlaysOn(s, CallOf(key, call, n), t, Advance(key));
    assert s.running[key := pc][key := pc'] == s.running[key := pc'];
    assert AdvanceStep(t, key) == Some(Goto(t, c', key, pc'));
  }

  lemma Ends<M>(s: State<M>, key: string, call: Call<M>, n: nat, c: Coordinator<M>, texts: map<M, string>, pc: Pc<M>,
                c': Coordinator<M>)
    requires Plays(s, CallOf(key, call, n), During(s, c, key, call.m, texts, pc)) && key !in s.running
    requires Section(c, key, pc) == End(c')
    ensures Plays(s, CallOf(key, call, n + 1), Over(s, c', key, call.m, texts))
  {
    var t := During(s, c, key, call.m, texts, pc);
    PlaysOn(s, CallOf(key, call, n), t, Advance(key));
    assert s.running[key := pc] - {key} == s.running;
    assert AdvanceStep(t, key) == Some(Finish(t, c', key));
  }

  lemma NewIsStored<M>(s: State<M>, key: string, m: M)
    requires key !in s.running && m !in s.registries.created
    ensures var c := s.registries.(created := s.registries.created + {m});
            var c' := if key in c.active then c else c.(active := c.active[key := Some(m)]);
            Plays(s, CallOf(key, OnNew(m), 2), Over(s, c', key, m, s.texts[m := key]))
  {
    var c := s.registries.(created := s.registries.created + {m});
    var texts, known := s.texts[m := key], key in c.active;
    BeginsCall(s, key, OnNew(m));
    GoesOn(s, key, OnNew(m), 0, c, texts, NewCheck(m), c, NewStore(m, known));
    Ends(s, key, OnNew(m), 1, c, texts, NewStore(m, known),
         if known then c else c.(active := c.active[key := Some(m)]));
  }

  lemma ExitIsMoved<M>(s: State<M>, key: string, m: M)
    requires Enabled(s, Begin(key, OnExit(m))) && key in s.registries.active
    requires !Dead(s.registries, s.registries.active[key])
    ensures Plays(s, CallOf(key, OnExit(m), 5),
                  Over(s, Move(s.registries, key, s.registries.active[key]), key, m, s.texts))
  {
    var c, call, found := s.registries, OnExit(m), s.registries.active[key];
    var erased := c.(active := Remove(c.active, key));
    ExitIsErased(s, key, m);
    GoesOn(s, key, call, 3, erased, s.texts, ExitMark(found), erased, ExitStore(found));
    Ends(s, key, call, 4, erased, s.texts, ExitStore(found), Move(c, key, found));
  }

  lemma ExitIsErased<M>(s: State<M>, key: string, m: M)
    requires Enabled(s, Begin(key, OnExit(m))) && key in s.registries.active
    ensures var c, found := s.registries, s.registries.active[key];
            Plays(s, CallOf(key, OnExit(m), 3),
                  During(s, c.(active := Remove(c.active, key)), key, m, s.texts, ExitMark(found)))
  {
    var c, call, found := s.registries, OnExit(m), s.registries.active[key];
    ExitIsFound(s, key, m);
    GoesOn(s, key, call, 2, c, s.texts, ExitErase(found), c.(active := Remove(c.active, key)), ExitMark(found));
  }

  lemma ExitIsFound<M>(s: State<M>, key: string, m: M)
    requires Enabled(s, Begin(key, OnExit(m))) && key in s.registries.active
    ensures Plays(s, CallOf(key, OnExit(m), 2),
                  During(s, s.registries, key, m, s.texts, ExitErase(s.registries.active[key])))
  {
    var c, call := s.registries, OnExit(m);
    BeginsCall(s, key, call);
    GoesOn(s, key, call, 0, c, s.texts, ExitCheck, c, ExitGet);
    GoesOn(s, key, call, 1, c, s.texts, ExitGet, c, ExitErase(c.active[key]));
  }

  /** A lost connection whose text is in the shutdown registry only, up to its lookup there. */
  lemma LostIsFound<M>(s: State<M>, key: string, m: M)
    requires Enabled(s, Begin(key, OnLost(m))) && key !in s.registries.active && key in s.registries.shutdown
    ensures Plays(s, CallOf(key, OnLost(m), 2), During(s, s.registries, key, m, s.texts, LostShutdownGet))
  {
    var c, call := s.registries, OnLost(m);
    BeginsCall(s, key, call);
    GoesOn(s, key, call, 0, c, s.texts, LostCheck, c, LostShutdownCheck);
    GoesOn(s, key, call, 1, c, s.texts, LostShutdownCheck, c, LostShutdownGet);
  }

  // ---------------------------------------------------------------- a callback with nothing in between

  function EventOf<M>(key: string, call: Call<M>): Event<M> {
    match call
    case OnNew(m) => NewModule(key, m)
    case OnState(_) => ChangeState(key)
    case OnExit(_) => ExitCode(key)
    case OnLost(_) => ConnectionLost(key)
  }

  /** After this many sections the callback is over, and has done what its event does. */
  ghost predicate IsAtomic<M>(s: State<M>, key: string, call: Call<M>, sections: nat) {
    var (c', texts) := (Step(s.registries, EventOf(key, call)), BeginStep(s, key, call).texts);
    c'.Some? && Plays(s, CallOf(key, call, sections), Over(s, c'.value, key, call.m, texts))
  }

  lemma UndisturbedState<M>(s: State<M>, key: string, m: M) returns (n: nat)
    requires Enabled(s, Begin(key, OnState(m)))
    requires key in s.registries.active ==> !Dead(s.registries, s.registries.active[key])
    ensures IsAtomic(s, key, OnState(m), n)
  {
    var c, call := s.registries, OnState(m);
    BeginsCall(s, key, call);
    if key in c.active {
      GoesOn(s, key, call, 0, c, s.texts, StateCheck, c, StateGet);
      GoesOn(s, key, call, 1, c, s.texts, StateGet, c, StateUse(c.active[key]));
      Ends(s, key, call, 2, c, s.texts, StateUse(c.active[key]), c);
      n := 3;
    } else {
      Ends(s, key, call, 0, c, s.texts, StateCheck, c);
      n := 1;
    }
  }

  lemma UndisturbedExit<M>(s: State<M>, key: string, m: M) returns (n: nat)
    requires Enabled(s, Begin(key, OnExit(m)))
    requires key in s.registries.active ==> !Dead(s.registries, s.registries.active[key])
    ensures IsAtomic(s, key, OnExit(m), n)
  {
    if key in s.registries.active {
      ExitIsMoved(s, key, m);
      n := 5;
    } else {
      BeginsCall(s, key, OnExit(m));
      Ends(s, key, OnExit(m), 0, s.registries, s.texts, ExitCheck, s.registries);
      n := 1;
    }
  }

  lemma UndisturbedLoss<M>(s: State<M>, key: string, m: M) returns (n: nat)
    requires Enabled(s, Begin(key, OnLost(m)))
    requires key in s.registries.shutdown ==> !Dead(s.registries, s.registries.shutdown[key])
    ensures IsAtomic(s, key, OnLost(m), n)
  {
    if key in s.registries.active {
      LossIsMoved(s, key, m);
      n := 4;
    } else if key in s.registries.shutdown {
      LossIsReported(s, key, m);
      n := 4;
    } else {
      LossIsIgnored(s, key, m);
      n := 2;
    }
  }

  lemma LossIsReported<M>(s: State<M>, key: string, m: M)
    requires Enabled(s, Begin(key, OnLost(m))) && key !in s.registries.active && key in s.registries.shutdown
    requires !Dead(s.registries, s.registries.shutdown[key])
    ensures Plays(s, CallOf(key, OnLost(m), 4), Over(s, s.registries, key, m, s.texts))
  {
    var c, call := s.registries, OnLost(m);
    LostIsFound(s, key, m);
    GoesOn(s, key, call, 2, c, s.texts, LostShutdownGet, c, LostShutdownUse(c.shutdown[key]));
    Ends(s, key, call, 3, c, s.texts, LostShutdownUse(c.shutdown[key]), c);
  }

  lemma LossIsIgnored<M>(s: State<M>, key: string, m: M)
    requires Enabled(s, Begin(key, OnLost(m))) && key !in s.registries.active && key !in s.registries.shutdown
    ensures Plays(s, CallOf(key, OnLost(m), 2), Over(s, s.registries, key, m, s.texts))
  {
    var c, call := s.registries, OnLost(m);
    BeginsCall(s, key, call);
    GoesOn(s, key, call, 0, c, s.texts, LostCheck, c, LostShutdownCheck);
    Ends(s, key, call, 1, c, s.texts, LostShutdownCheck, c);
  }

  lemma LossIsMoved<M>(s: State<M>, key: string, m: M)
    requires Enabled(s, Begin(key, OnLost(m))) && key in s.registries.active
    ensures Plays(s, CallOf(key, OnLost(m), 4),
                  Over(s, Move(s.registries, key, s.registries.active[key]), key, m, s.texts))
  {
    var c, call, found := s.registries, OnLost(m), s.registries.active[key];
    var erased := c.(active := Remove(c.active, key));
    LossIsErased(s, key, m);
    Ends(s, key, call, 3, erased, s.texts, LostStore(found), Move(c, key, found));
  }

  lemma LossIsErased<M>(s: State<M>, key: string, m: M)
    requires Enabled(s, Begin(key, OnLost(m))) && key in s.registries.active
    ensures var c, found := s.registries, s.registries.active[key];
            Plays(s, CallOf(key, OnLost(m), 3),
                  During(s, c.(active := Remove(c.active, key)), key, m, s.texts, LostStore(found)))
  {
    var c, call, found := s.registries, OnLost(m), s.registries.active[key];
    LossIsLookedUp(s, key, m);
    GoesOn(s, key, call, 2, c, s.texts, LostErase(found), c.(active := Remove(c.active, key)), LostStore(found));
  }

  lemma LossIsLookedUp<M>(s: State<M>, key: string, m: M)
    requires Enabled(s, Begin(key, OnLost(m))) && key in s.registries.active
    ensures Plays(s, CallOf(key, OnLost(m), 2),
                  During(s, s.registries, key, m, s.texts, LostErase(s.registries.active[key])))
  {
    var c, call := s.registries, OnLost(m);
    BeginsCall(s, key, call);
    GoesOn(s, key, call, 0, c, s.texts, LostCheck, c, LostGet);
    GoesOn(s, key, call, 1, c, s.texts, LostGet, c, LostErase(c.active[key]));
  }

  /** A callback with nothing in between does what its atomic event does, whichever of the four it is. */
  lemma UndisturbedCallIsAtomic<M>(s: State<M>, key: string, call: Call<M>) returns (n: nat)
    requires Sound(s) && Enabled(s, Begin(key, call))
    ensures IsAtomic(s, key, call, n)
  {
    EntriesAreAlive(s, key);
    match call
    case OnNew(m) => NewIsStored(s, key, m); n := 2;
    case OnState(m) => n := UndisturbedState(s, key, m);
    case OnExit(m) => n := UndisturbedExit(s, key, m);
    case OnLost(m) => n := UndisturbedLoss(s, key, m);
  }

  lemma EntriesAreAlive<M>(s: State<M>, key: string)
    requires Sound(s) && key !in s.running
    ensures key in s.registries.active ==> !Dead(s.registries, s.registries.active[key])
    ensures key in s.registries.shutdown ==> !Dead(s.registries, s.registries.shutdown[key])
  {
    if key in s.registries.active { ActiveIsAlive(s, key); }
    LookupHoldsAlive(s, key);
  }

  // ---------------------------------------------------------------- the run that fails

  /** A callback of a dropped connection has found NULL. */
  function FailingState<M>(key: string, m1: M, m2: M): State<M> {
    State(Coordinator(map[], map[key := None], {m1, m2}, multiset{m1}),
          map[key := LostShutdownUse(None)], map[key := m2], map[m1 := key, m2 := key])
  }

  /** After the first connection, after the second one, after the exit, and before the sweep. */
  function OneConnected<M>(key: string, m1: M): State<M> {
    State(Coordinator(map[key := Some(m1)], map[], {m1}, multiset{}), map[], map[key := m1], map[m1 := key])
  }

  function TwoConnected<M>(key: string, m1: M, m2: M): State<M> {
    State(Coordinator(map[key := Some(m1)], map[], {m1, m2}, multiset{}), map[], map[key := m2],
          map[m1 := key, m2 := key])
  }

  function OneExited<M>(key: string, m1: M, m2: M): State<M> {
    State(Coordinator(map[], map[key := Some(m1)], {m1, m2}, multiset{}), map[], map[key := m1],
          map[m1 := key, m2 := key])
  }

  function AtLookup<M>(key: string, m1: M, m2: M): State<M> {
    State(Coordinator(map[], map[key := Some(m1)], {m1, m2}, multiset{}), map[key := LostShutdownGet], map[key := m2],
          map[m1 := key, m2 := key])
  }

  lemma Connects<M>(key: string, m: M)
    ensures Plays(Start(), CallOf(key, OnNew(m), 2), OneConnected(key, m))
  {
    NewIsStored(Start(), key, m);
    var c := Coordinator(map[key := Some(m)], map[], {m}, multiset{});
    assert Initial<M>().(created := Initial<M>().created + {m}).(active := Initial<M>().active[key := Some(m)]) == c;
    assert Over(Start(), c, key, m, Start<M>().texts[m := key]) == OneConnected(key, m);
  }

  lemma ConnectsAgain<M>(key: string, m1: M, m2: M)
    requires m1 != m2
    ensures Plays(OneConnected(key, m1), CallOf(key, OnNew(m2), 2), TwoConnected(key, m1, m2))
  {
    var s := OneConnected(key, m1);
    NewIsStored(s, key, m2);
    assert s.registries.(created := s.registries.created + {m2}) == TwoConnected(key, m1, m2).registries;
    assert s.owners[key := m2] == TwoConnected(key, m1, m2).owners;
  }

  lemma Exits<M>(key: string, m1: M, m2: M)
    requires m1 != m2
    ensures Plays(TwoConnected(key, m1, m2), CallOf(key, OnExit(m1), 5), OneExited(key, m1, m2))
  {
    var s := TwoConnected(key, m1, m2);
    ExitIsMoved(s, key, m1);
    assert Move(s.registries, key, Some(m1)) == OneExited(key, m1, m2).registries;
    assert s.owners[key := m1] == OneExited(key, m1, m2).owners;
  }

  lemma Loses<M>(key: string, m1: M, m2: M)
    requires m1 != m2
    ensures Plays(OneExited(key, m1, m2), CallOf(key, OnLost(m2), 2), AtLookup(key, m1, m2))
  {
    var s := OneExited(key, m1, m2);
    LostIsFound(s, key, m2);
    assert s.owners[key := m2] == AtLookup(key, m1, m2).owners;
    assert s.running[key := LostShutdownGet] == AtLookup(key, m1, m2).running;
  }

  function UpToLookup<M>(key: string, m1: M, m2: M): seq<Action<M>> {
    CallOf(key, OnNew(m1), 2) + CallOf(key, OnNew(m2), 2) + CallOf(key, OnExit(m1), 5) + CallOf(key, OnLost(m2), 2)
  }

  lemma LeadsToLookup<M>(key: string, m1: M, m2: M)
    requires m1 != m2
    ensures Plays(Start(), UpToLookup(key, m1, m2), AtLookup(key, m1, m2))
  {
    var a, b := CallOf(key, OnNew(m1), 2), CallOf(key, OnNew(m2), 2);
    var c, d := CallOf(key, OnExit(m1), 5), CallOf(key, OnLost(m2), 2);
    Connects(key, m1);
    ConnectsAgain(key, m1, m2);
    Exits(key, m1, m2);
    Loses(key, m1, m2);
    PlaysConcatenate(Start(), a, OneConnected(key, m1), b, TwoConnected(key, m1, m2));
    PlaysConcatenate(Start(), a + b, TwoConnected(key, m1, m2), c, OneExited(key, m1, m2));
    PlaysConcatenate(Start(), a + b + c, OneExited(key, m1, m2), d, AtLookup(key, m1, m2));
  }

  lemma SweepsAtLookup<M>(key: string, m1: M, m2: M)
    requires m1 != m2
    ensures Plays(AtLookup(key, m1, m2), [LoopSweep, Advance(key)], FailingState(key, m1, m2))
  {
    var s, t := AtLookup(key, m1, m2), Swept(key, m1, m2);
    SweepLeadsTo(key, m1, m2);
    PlaysOn(s, [], s, LoopSweep);
    assert [] + [Action<M>.LoopSweep] == [LoopSweep];
    LookupLeadsTo(key, m1, m2);
    PlaysOn(s, [LoopSweep], t, Advance(key));
    assert [Action<M>.LoopSweep] + [Advance(key)] == [LoopSweep, Advance(key)];
  }

  function Swept<M>(key: string, m1: M, m2: M): State<M> {
    State(Coordinator(map[], map[], {m1, m2}, multiset{m1}), map[key := LostShutdownGet], map[key := m2],
          map[m1 := key, m2 := key])
  }

  lemma SweepLeadsTo<M>(key: string, m1: M, m2: M)
    requires m1 != m2
    ensures Enabled(AtLookup(key, m1, m2), Action<M>.LoopSweep)
    ensures Next(AtLookup(key, m1, m2), Action<M>.LoopSweep) == Some(Swept(key, m1, m2))
  {
    SweepsOne(AtLookup(key, m1, m2), key, m1);
    assert multiset{} + multiset{m1} == multiset{m1};
  }

  lemma LookupLeadsTo<M>(key: string, m1: M, m2: M)
    ensures AdvanceStep(Swept(key, m1, m2), key) == Some(FailingState(key, m1, m2))
  {
    var s := Swept(key, m1, m2);
    assert s.running[key := LostShutdownUse(None)] == FailingState(key, m1, m2).running;
    assert s.registries.shutdown[key := None] == FailingState(key, m1, m2).registries.shutdown;
  }

  /** A module connects and another one under the same text, which is dropped; the first one exits, the
      connection of the second one is lost, and the loop sweeps before its callback has looked up the text.
      All of this is possible, and the next step uses NULL, or the loop meets it. */
  lemma DroppedConnectionFails<M>(key: string, m1: M, m2: M)
    requires m1 != m2
    ensures Plays(Start(), UpToLookup(key, m1, m2) + [LoopSweep, Advance(key)], FailingState(key, m1, m2))
    ensures var s := FailingState(key, m1, m2);
            && Enabled(s, Advance(key)) && Next(s, Advance(key)) == None
            && Enabled(s, Action<M>.LoopSweep) && Next(s, Action<M>.LoopSweep) == None
            && s.owners[key] == m2 && m2 in Dropped(s.registries)
  {
    LeadsToLookup(key, m1, m2);
    SweepsAtLookup(key, m1, m2);
    PlaysConcatenate(Start(), UpToLookup(key, m1, m2), AtLookup(key, m1, m2), [LoopSweep, Advance(key)],
                     FailingState(key, m1, m2));
    NullIsUsed(key, m1, m2);
  }

  lemma NullIsUsed<M>(key: string, m1: M, m2: M)
    requires m1 != m2
    ensures var s := FailingState(key, m1, m2);
            && Enabled(s, Advance(key)) && Next(s, Advance(key)) == None
            && Enabled(s, Action<M>.LoopSweep) && Next(s, Action<M>.LoopSweep) == None
            && s.owners[key] == m2 && m2 in Dropped(s.registries)
  {
    assert FailingState(key, m1, m2).registries.shutdown[key].None?;
  }

  lemma SweepsOne<M>(s: State<M>, key: string, m: M)
    requires s.registries.shutdown == map[key := Some(m)] && !Held(s, m)
    ensures Enabled(s, Action<M>.LoopSweep)
    ensures Next(s, Action<M>.LoopSweep) ==
            Some(s.(registries := s.registries.(shutdown := map[], freed := s.registries.freed + multiset{m})))
  {
    var r := s.registries.shutdown;
    assert r.Keys == {key};
    var keys := SortedKeys(r.Keys);
    assert keys[0] in keys && keys == [key];
    assert Pointees(r, []) == [] && [key][1..] == [];
    assert Pointees(r, [key]) == [r[key].value] + Pointees(r, [key][1..]);
    assert NoNull(r) && Pointees(r, keys) == [m];
  }
}

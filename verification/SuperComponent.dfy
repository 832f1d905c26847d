/**
 The supercomponent: the callbacks that register modules and move them to the shutdown registry, and the
 cycle loop that deletes those, pulses the others, relays their containers and paces itself.

 Callbacks are atomic here and come in between the steps of the loop. The clock, the answers of the
 modules, and when callbacks come, are parameters of the loop. A ghost history records what happened in
 the terms of module Lifecycle.
 */
module SuperComponents {
  import opened Wrappers
  import opened StringOrder
  import opened StringToolbox
  import KeyValueConfigurations
  import opened TimeStamps
  import opened Schedule
  import opened SuperComponentOptions
  import opened ConnectedModules
  import Lifecycle

  type Event = Lifecycle.Event<ConnectedModule>

  // ---------------------------------------------------------------- the environment

  datatype Callback =
    | ModuleConnected(md: Descriptor)
    | StateChanged(md: Descriptor, state: ModuleState)
    | ExitCodeReceived(md: Descriptor)
    | ConnectionLost(md: Descriptor)

  /** What one cycle meets: callbacks before it deletes disconnected modules and before it pulses, the
      clock at its start and at its pulse, and the answers to the pulse. */
  datatype Cycle = Cycle(
    before: seq<Callback>,
    between: seq<Callback>,
    current: TimeStamp,
    now: TimeStamp,
    replies: map<string, seq<Container>>)

  /** What one cycle does. */
  datatype Record = Record(
    connected: map<string, Descriptor>,  // the modules registered when it pulses
    sent: seq<Delivery>,
    conference: seq<Container>,          // replicated to the conference
    returned: seq<Container>,
    slept: int)

  // ---------------------------------------------------------------- what a cycle does

  predicate RelaysContainers(level: Level) {
    level == Simulation || level == SimulationRealTime
  }

  function SentBy(level: Level, connected: map<string, Descriptor>, modulesToIgnore: seq<string>, shift: nat,
                  pm: PulseMessage): seq<Delivery> {
    match level
    case Unmanaged => []
    case Pulse => Broadcast(SortedKeys(connected.Keys), pm)
    case PulseShift => ShiftedBroadcast(SortedKeys(connected.Keys), pm, shift)
    case PulseTime => Broadcast(SortedKeys(connected.Keys), pm)
    case _ => Broadcast(Eligible(connected, SortedKeys(connected.Keys), modulesToIgnore), pm)
  }

  function ReturnedTo(level: Level, connected: map<string, Descriptor>, modulesToIgnore: seq<string>,
                      replies: map<string, seq<Container>>): seq<Container> {
    if RelaysContainers(level) then Replies(replies, Eligible(connected, SortedKeys(connected.Keys), modulesToIgnore))
    else []
  }

  /** The sleep asked for at the end of a cycle. */
  function SleepOf(level: Level, waiting: int): int {
    if level == Unmanaged then 2 * ONE_SECOND else if level == Simulation then 1000 else waiting
  }

  /** The message of a cycle: `pending` are the containers the previous cycle returned. */
  function MessageOf(level: Level, nominal: nat, now: TimeStamp, p: Pace, pending: seq<Container>): PulseMessage {
    PulseMessage(now, ToUint32(nominal), p.cumulatedTimeSlice, if RelaysContainers(level) then pending else [])
  }

  datatype Settings = Settings(level: Level, nominal: nat, shift: nat, modulesToIgnore: seq<string>)

  function RecordOf(s: Settings, c: Cycle, p: Pace, pending: seq<Container>,
                    connected: map<string, Descriptor>): Record
  {
    Record(
      connected,
      SentBy(s.level, connected, s.modulesToIgnore, s.shift, MessageOf(s.level, s.nominal, c.now, p, pending)),
      if RelaysContainers(s.level) then pending else [],
      ReturnedTo(s.level, connected, s.modulesToIgnore, c.replies),
      SleepOf(s.level, Waiting(p, c.current.ToMicroseconds(), s.nominal)))
  }

  function Stamps(cycles: seq<Cycle>): (stamps: seq<int>)
    ensures |stamps| == |cycles| && forall i :: 0 <= i < |cycles| ==> stamps[i] == cycles[i].current.ToMicroseconds()
  {
    seq(|cycles|, i requires 0 <= i < |cycles| => cycles[i].current.ToMicroseconds())
  }

  function PaceAt(s: Settings, start: TimeStamp, cycles: seq<Cycle>): Pace {
    if s.level == Unmanaged then Start(start.ToMicroseconds())
    else After(Start(start.ToMicroseconds()), Stamps(cycles), s.nominal)
  }

  function NextPaceOf(s: Settings, p: Pace, c: Cycle): Pace {
    if s.level == Unmanaged then p else Next(p, c.current.ToMicroseconds(), s.nominal)
  }

  function Pending(trace: seq<Record>, k: nat): seq<Container>
    requires k <= |trace|
  {
    if k == 0 then [] else trace[k - 1].returned
  }

  // ---------------------------------------------------------------- who is registered

  /** The registered descriptors after one callback. */
  function Connect(connected: map<string, Descriptor>, c: Callback): map<string, Descriptor> {
    match c
    case ModuleConnected(md) => WithDescriptor(connected, md)
    case StateChanged(_, _) => connected
    case ExitCodeReceived(md) => connected - {md.ToString()}
    case ConnectionLost(md) => connected - {md.ToString()}
  }

  function ConnectEach(connected: map<string, Descriptor>, cs: seq<Callback>): map<string, Descriptor>
    decreases |cs|
  {
    if cs == [] then connected else Connect(ConnectEach(connected, cs[..|cs| - 1]), cs[|cs| - 1])
  }

  function ConnectCycle(connected: map<string, Descriptor>, c: Cycle): map<string, Descriptor> {
    ConnectEach(ConnectEach(connected, c.before), c.between)
  }

  /** The registered descriptors after the callbacks of these cycles. */
  function ConnectedAfter(initial: map<string, Descriptor>, cycles: seq<Cycle>): map<string, Descriptor>
    decreases |cycles|
  {
    if cycles == [] then initial
    else ConnectCycle(ConnectedAfter(initial, cycles[..|cycles| - 1]), cycles[|cycles| - 1])
  }

  /** Every cycle pulses the modules that its callbacks and those of the cycles before it leave registered. */
  ghost predicate Connects(initial: map<string, Descriptor>, cycles: seq<Cycle>, trace: seq<Record>) {
    |trace| <= |cycles| && forall k :: 0 <= k < |trace| ==> ConnectsAt(initial, cycles, trace, k)
  }

  ghost predicate ConnectsAt(initial: map<string, Descriptor>, cycles: seq<Cycle>, trace: seq<Record>, k: nat)
    requires k < |trace| <= |cycles|
  {
    trace[k].connected == ConnectedAfter(initial, cycles[..k + 1])
  }

  lemma NextConnected(connected: map<string, Descriptor>, cs: seq<Callback>, i: nat)
    requires i < |cs|
    ensures ConnectEach(connected, cs[..i + 1]) == Connect(ConnectEach(connected, cs[..i]), cs[i])
  {
    assert cs[..i + 1][..i] == cs[..i];
  }

  lemma NextConnectedAfter(initial: map<string, Descriptor>, cycles: seq<Cycle>, n: nat)
    requires n < |cycles|
    ensures ConnectedAfter(initial, cycles[..n + 1]) == ConnectCycle(ConnectedAfter(initial, cycles[..n]), cycles[n])
  {
    assert cycles[..n + 1][..n] == cycles[..n];
  }

  lemma NextConnects(initial: map<string, Descriptor>, cycles: seq<Cycle>, trace: seq<Record>, record: Record)
    requires |trace| < |cycles| && Connects(initial, cycles, trace)
    requires record.connected == ConnectedAfter(initial, cycles[..|trace| + 1])
    ensures Connects(initial, cycles, trace + [record])
  {
    forall k | 0 <= k < |trace| ensures ConnectsAt(initial, cycles, trace + [record], k) {
      CycleStaysConnected(initial, cycles, trace, record, k);
    }
    assert ConnectsAt(initial, cycles, trace + [record], |trace|);
  }

  lemma CycleStaysConnected(initial: map<string, Descriptor>, cycles: seq<Cycle>, trace: seq<Record>, record: Record,
                            k: nat)
    requires k < |trace| < |cycles| && ConnectsAt(initial, cycles, trace, k)
    ensures ConnectsAt(initial, cycles, trace + [record], k)
  { }

  lemma {:induction false} CallbacksKeepNamed(connected: map<string, Descriptor>, cs: seq<Callback>)
    requires Named(connected)
    ensures Named(ConnectEach(connected, cs))
    decreases |cs|
  {
    if cs != [] {
      CallbacksKeepNamed(connected, cs[..|cs| - 1]);
      CallbackKeepsNamed(ConnectEach(connected, cs[..|cs| - 1]), cs[|cs| - 1]);
    }
  }

  lemma CallbackKeepsNamed(connected: map<string, Descriptor>, c: Callback)
    requires Named(connected)
    ensures Named(Connect(connected, c))
  {
    StillNamed(connected, c.md);
  }

  /** Whoever is registered is registered under the text of its own descriptor. */
  lemma {:induction false} CyclesKeepNamed(initial: map<string, Descriptor>, cycles: seq<Cycle>)
    requires Named(initial)
    ensures Named(ConnectedAfter(initial, cycles))
    decreases |cycles|
  {
    if cycles != [] {
      var front, c := ConnectedAfter(initial, cycles[..|cycles| - 1]), cycles[|cycles| - 1];
      CyclesKeepNamed(initial, cycles[..|cycles| - 1]);
      CallbacksKeepNamed(front, c.before);
      CallbacksKeepNamed(ConnectEach(front, c.before), c.between);
    }
  }

  predicate Comes(c: Callback, key: string) {
    c.ModuleConnected? && c.md.ToString() == key
  }

  predicate Leaves(c: Callback, key: string) {
    (c.ExitCodeReceived? || c.ConnectionLost?) && c.md.ToString() == key
  }

  /** No callback from the i-th on is an exit or a loss of this text. */
  predicate StaysFrom(cs: seq<Callback>, key: string, i: nat) {
    forall j :: i <= j < |cs| ==> !Leaves(cs[j], key)
  }

  /** The text is registered after the callbacks: from the beginning on or since it came, it has not left. */
  ghost predicate IsRegistered(initial: map<string, Descriptor>, cs: seq<Callback>, key: string) {
    (key in initial && StaysFrom(cs, key, 0)) || exists i :: 0 <= i < |cs| && CameAt(cs, key, i)
  }

  predicate CameAt(cs: seq<Callback>, key: string, i: nat)
    requires i < |cs|
  {
    Comes(cs[i], key) && StaysFrom(cs, key, i + 1)
  }

  lemma StaysLonger(cs: seq<Callback>, key: string, i: nat)
    requires cs != [] && i < |cs|
    ensures StaysFrom(cs, key, i) <==> StaysFrom(cs[..|cs| - 1], key, i) && !Leaves(cs[|cs| - 1], key)
  {
    if StaysFrom(cs[..|cs| - 1], key, i) && !Leaves(cs[|cs| - 1], key) {
      forall j | i <= j < |cs| ensures !Leaves(cs[j], key) {
        if j < |cs| - 1 { assert !Leaves(cs[..|cs| - 1][j], key); }
      }
    }
  }

  lemma RegisteredLater(initial: map<string, Descriptor>, cs: seq<Callback>, key: string)
    requires cs != []
    ensures var c := cs[|cs| - 1];
            IsRegistered(initial, cs, key) <==>
            Comes(c, key) || (IsRegistered(initial, cs[..|cs| - 1], key) && !Leaves(c, key))
  {
    var n := |cs| - 1;
    StaysLonger(cs, key, 0);
    if Comes(cs[n], key) { assert CameAt(cs, key, n); }
    forall i | 0 <= i < n ensures CameAt(cs, key, i) <==> CameAt(cs[..n], key, i) && !Leaves(cs[n], key) {
      StaysLonger(cs, key, i + 1);
    }
  }

  /** Who is registered after any callbacks. */
  lemma {:induction false} RegisteredIff(initial: map<string, Descriptor>, cs: seq<Callback>, key: string)
    ensures key in ConnectEach(initial, cs) <==> IsRegistered(initial, cs, key)
    decreases |cs|
  {
    if cs != [] {
      RegisteredIff(initial, cs[..|cs| - 1], key);
      RegisteredLater(initial, cs, key);
    }
  }

  /** And with which descriptor: the one it had at the beginning, or the one it came with when it was not
      registered; coming again while it is does not change it. */
  lemma {:induction false} RegisteredAs(initial: map<string, Descriptor>, cs: seq<Callback>, key: string)
    requires key in ConnectEach(initial, cs)
    ensures || (key in initial && StaysFrom(cs, key, 0) && ConnectEach(initial, cs)[key] == initial[key])
            || exists i :: 0 <= i < |cs| && CameAt(cs, key, i) && !IsRegistered(initial, cs[..i], key)
                           && ConnectEach(initial, cs)[key] == cs[i].md
    decreases |cs|
  {
    if cs != [] {
      var n := |cs| - 1;
      RegisteredIff(initial, cs[..n], key);
      if key in ConnectEach(initial, cs[..n]) {
        RegisteredAs(initial, cs[..n], key);
        StaysLonger(cs, key, 0);
        if i :| 0 <= i < n && CameAt(cs[..n], key, i) && !IsRegistered(initial, cs[..n][..i], key)
                && ConnectEach(initial, cs[..n])[key] == cs[..n][i].md {
          StaysLonger(cs, key, i + 1);
          assert cs[..n][..i] == cs[..i];
          assert CameAt(cs, key, i);
        }
      } else {
        assert CameAt(cs, key, n);
      }
    }
  }

  // ---------------------------------------------------------------- what the trace says

  /** Every cycle does what the pace of the cycles before it and the containers of the one before say. */
  predicate Follows(s: Settings, start: TimeStamp, cycles: seq<Cycle>, trace: seq<Record>) {
    |trace| <= |cycles| && forall k :: 0 <= k < |trace| ==> FollowsAt(s, start, cycles, trace, k)
  }

  predicate FollowsAt(s: Settings, start: TimeStamp, cycles: seq<Cycle>, trace: seq<Record>, k: nat)
    requires k < |trace| <= |cycles|
  {
    trace[k] == RecordOf(s, cycles[k], PaceAt(s, start, cycles[..k]), Pending(trace, k), trace[k].connected)
  }

  // ---------------------------------------------------------------- what is recorded in the history

  function Erased(e: Event): Lifecycle.Event<()> {
    match e
    case NewModule(key, _) => Lifecycle.NewModule(key, ())
    case ChangeState(key) => Lifecycle.ChangeState(key)
    case ExitCode(key) => Lifecycle.ExitCode(key)
    case ConnectionLost(key) => Lifecycle.ConnectionLost(key)
    case Sweep => Lifecycle.Sweep
    case CloseDown => Lifecycle.CloseDown
  }

  /** A history without the identities of the modules. */
  function Erase(history: seq<Event>): (r: seq<Lifecycle.Event<()>>)
    ensures |r| == |history| && forall i :: 0 <= i < |history| ==> r[i] == Erased(history[i])
  {
    seq(|history|, i requires 0 <= i < |history| => Erased(history[i]))
  }

  function EventOf(c: Callback): Lifecycle.Event<()> {
    match c
    case ModuleConnected(md) => Lifecycle.NewModule(md.ToString(), ())
    case StateChanged(md, _) => Lifecycle.ChangeState(md.ToString())
    case ExitCodeReceived(md) => Lifecycle.ExitCode(md.ToString())
    case ConnectionLost(md) => Lifecycle.ConnectionLost(md.ToString())
  }

  function EventsOf(cs: seq<Callback>): (r: seq<Lifecycle.Event<()>>)
    ensures |r| == |cs| && forall i :: 0 <= i < |cs| ==> r[i] == EventOf(cs[i])
  {
    seq(|cs|, i requires 0 <= i < |cs| => EventOf(cs[i]))
  }

  /** Every cycle handles its callbacks and deletes disconnected modules once, before it pulses. */
  function EventsOfCycles(cycles: seq<Cycle>): seq<Lifecycle.Event<()>>
    decreases |cycles|
  {
    if cycles == [] then []
    else
      var c := cycles[|cycles| - 1];
      EventsOfCycles(cycles[..|cycles| - 1]) + EventsOfCycle(c)
  }

  function EventsOfCycle(c: Cycle): seq<Lifecycle.Event<()>> {
    EventsOf(c.before) + [Lifecycle.Sweep] + EventsOf(c.between)
  }

  /** A history of at most n events is a run that ends in `c`. */
  ghost predicate ReachedWithin(n: nat, history: seq<Event>, c: Lifecycle.Coordinator<ConnectedModule>) {
    |history| <= n ==>
      && Lifecycle.FreshRun(Lifecycle.Initial(), history)
      && Lifecycle.Run(Lifecycle.Initial(), history) == Some(c)
  }

  /** The history is a run that ends in `c`. */
  ghost predicate Reached(history: seq<Event>, c: Lifecycle.Coordinator<ConnectedModule>) {
    forall n: nat :: ReachedWithin(n, history, c)
  }

  lemma ReachedIsRun(history: seq<Event>, c: Lifecycle.Coordinator<ConnectedModule>)
    requires Reached(history, c)
    ensures Lifecycle.FreshRun(Lifecycle.Initial(), history) && Lifecycle.Run(Lifecycle.Initial(), history) == Some(c)
  {
    assert ReachedWithin(|history|, history, c);
  }

  /** The history has grown by these events. */
  ghost predicate Grown(before: seq<Event>, history: seq<Event>, events: seq<Lifecycle.Event<()>>) {
    before <= history && Erase(history) == Erase(before) + events
  }

  lemma GrownTwice(h0: seq<Event>, h1: seq<Event>, h2: seq<Event>, a: seq<Lifecycle.Event<()>>,
                   b: seq<Lifecycle.Event<()>>)
    requires Grown(h0, h1, a) && Grown(h1, h2, b)
    ensures Grown(h0, h2, a + b)
  { }

  lemma HistoryGrows(history: seq<Event>, c: Lifecycle.Coordinator<ConnectedModule>, e: Event,
                     c': Lifecycle.Coordinator<ConnectedModule>)
    requires Reached(history, c) && Lifecycle.Fresh(c, e) && Lifecycle.Step(c, e) == Some(c')
    ensures Reached(history + [e], c')
    ensures Grown(history, history + [e], [Erased(e)])
  {
    ReachedIsRun(history, c);
    var h := history + [e];
    assert h[..|history|] == history;
    forall i | 0 <= i < |history| ensures h[..i] == history[..i] && h[i] == history[i] { }
    assert Lifecycle.FreshRun(Lifecycle.Initial(), h);
  }

  lemma NextPace(s: Settings, start: TimeStamp, cycles: seq<Cycle>, k: nat)
    requires k < |cycles|
    ensures PaceAt(s, start, cycles[..k + 1]) ==
            NextPaceOf(s, PaceAt(s, start, cycles[..k]), cycles[k])
  {
    assert Stamps(cycles[..k + 1])[..k] == Stamps(cycles[..k]);
  }

  /** The position in the history of the deletion in cycle `k`. */
  function DeletionOf(begin: seq<Event>, cycles: seq<Cycle>, k: nat): nat
    requires k < |cycles|
  {
    |begin| + |EventsOfCycles(cycles[..k])| + |cycles[k].before|
  }

  /** The event between `c` and `c'` empties the shutdown registry and deletes its modules, each once. */
  ghost predicate Sweeps(c: Lifecycle.Coordinator<ConnectedModule>, c': Lifecycle.Coordinator<ConnectedModule>) {
    && c'.shutdown == map[] && c'.active == c.active
    && forall m :: m in Lifecycle.Modules(c.shutdown) ==> c.freed[m] == 0 && c'.freed[m] == 1
  }

  /** The n-th event of the history does. */
  ghost predicate SweepsAt(history: seq<Event>, n: nat) {
    && n < |history|
    && var c := Lifecycle.Run(Lifecycle.Initial(), history[..n]);
    var c' := Lifecycle.Run(Lifecycle.Initial(), history[..n + 1]);
    c.Some? && c'.Some? && Sweeps(c.value, c'.value)
  }

  /** Every cycle deletes, before it pulses, each module that has been shut down until then, once. */
  lemma {:induction false} ShutDownModulesAreDeleted(begin: seq<Event>, history: seq<Event>, cycles: seq<Cycle>,
                                                     last: seq<Lifecycle.Event<()>>, k: nat)
    requires Grown(begin, history, EventsOfCycles(cycles) + last) && k < |cycles|
    requires Lifecycle.FreshRun(Lifecycle.Initial(), history)
    ensures var n := DeletionOf(begin, cycles, k);
            && SweepsAt(history, n)
            && n + 1 + |cycles[k].between| == |begin| + |EventsOfCycles(cycles[..k + 1])|
  {
    NextEvents(cycles, k);
    DeletionIsSweep(begin, history, cycles, last, k);
    SweptAt(history, DeletionOf(begin, cycles, k));
  }

  lemma {:induction false} DeletionIsSweep(begin: seq<Event>, history: seq<Event>, cycles: seq<Cycle>,
                                           last: seq<Lifecycle.Event<()>>, k: nat)
    requires Grown(begin, history, EventsOfCycles(cycles) + last) && k < |cycles|
    ensures var n := DeletionOf(begin, cycles, k); n < |history| && history[n] == Lifecycle.Sweep
  {
    EventsAreOrdered(cycles, k);
    var n, all := DeletionOf(begin, cycles, k), EventsOfCycles(cycles) + last;
    assert Erase(history)[n] == all[n - |begin|] == Lifecycle.Sweep;
  }

  lemma {:induction false} SweptAt(history: seq<Event>, n: nat)
    requires n < |history| && history[n] == Lifecycle.Sweep && Lifecycle.FreshRun(Lifecycle.Initial(), history)
    ensures SweepsAt(history, n)
  {
    forall i | 0 <= i < n ensures history[..n][..i] == history[..i] { }
    Lifecycle.RunKeepsInv(Lifecycle.Initial(), history[..n]);
    assert history[..n + 1][..n] == history[..n];
    SweepIs(Lifecycle.Run(Lifecycle.Initial(), history[..n]).value);
  }

  lemma SweepIs(c: Lifecycle.Coordinator<ConnectedModule>)
    requires Lifecycle.Inv(c)
    ensures Lifecycle.Step(c, Lifecycle.Sweep).Some? && Sweeps(c, Lifecycle.Step(c, Lifecycle.Sweep).value)
  {
    Lifecycle.DeletedExactlyOnce(c, c.shutdown);
    forall m | m in Lifecycle.Modules(c.shutdown) ensures c.freed[m] == 0 { }
  }

  lemma {:induction false} EventsPrefix(cycles: seq<Cycle>, k: nat)
    requires k <= |cycles|
    ensures EventsOfCycles(cycles[..k]) <= EventsOfCycles(cycles)
    decreases |cycles|
  {
    if k == |cycles| {
      assert cycles[..k] == cycles;
    } else {
      var n := |cycles| - 1;
      EventsPrefix(cycles[..n], k);
      assert cycles[..n][..k] == cycles[..k];
      NextEvents(cycles, n);
      assert cycles[..n + 1] == cycles;
    }
  }

  /** Among the events of the cycles, the deletion of cycle `k` stands behind its first callbacks. */
  lemma {:induction false} EventsAreOrdered(cycles: seq<Cycle>, k: nat)
    requires k < |cycles|
    ensures var n := |EventsOfCycles(cycles[..k])| + |cycles[k].before|;
            n < |EventsOfCycles(cycles)| && EventsOfCycles(cycles)[n] == Lifecycle.Sweep
  {
    NextEvents(cycles, k);
    EventsPrefix(cycles, k + 1);
    var n := |EventsOfCycles(cycles[..k])| + |cycles[k].before|;
    assert EventsOfCycles(cycles[..k + 1])[n] == Lifecycle.Sweep;
  }

  /** The modules registered after the first n events are those under these texts. */
  ghost predicate RegisteredAt(history: seq<Event>, n: nat, keys: set<string>) {
    n <= |history|
    && var c := Lifecycle.Run(Lifecycle.Initial(), history[..n]);
    c.Some? && c.value.active.Keys == keys
  }

  /** Cycle `k` pulses the modules that are registered when its events have happened. */
  ghost predicate PulsesRegisteredAt(history: seq<Event>, base: nat, cycles: seq<Cycle>, trace: seq<Record>, k: nat)
    requires k < |trace| <= |cycles|
  {
    RegisteredAt(history, base + |EventsOfCycles(cycles[..k + 1])|, trace[k].connected.Keys)
  }

  ghost predicate PulsesRegistered(history: seq<Event>, base: nat, cycles: seq<Cycle>, trace: seq<Record>) {
    |trace| <= |cycles| && forall k :: 0 <= k < |trace| ==> PulsesRegisteredAt(history, base, cycles, trace, k)
  }

  lemma RegisteredEarlier(history: seq<Event>, history': seq<Event>, n: nat, keys: set<string>)
    requires RegisteredAt(history, n, keys) && history <= history'
    ensures RegisteredAt(history', n, keys)
  {
    assert history'[..n] == history[..n];
  }

  lemma CycleRegisteredEarlier(history: seq<Event>, history': seq<Event>, base: nat, cycles: seq<Cycle>,
                               trace: seq<Record>, k: nat)
    requires k < |trace| <= |cycles| && PulsesRegisteredAt(history, base, cycles, trace, k) && history <= history'
    ensures PulsesRegisteredAt(history', base, cycles, trace, k)
  {
    RegisteredEarlier(history, history', base + |EventsOfCycles(cycles[..k + 1])|, trace[k].connected.Keys);
  }

  lemma HistoryExtended(history: seq<Event>, history': seq<Event>, base: nat, cycles: seq<Cycle>, trace: seq<Record>)
    requires PulsesRegistered(history, base, cycles, trace) && history <= history'
    ensures PulsesRegistered(history', base, cycles, trace)
  {
    forall k | 0 <= k < |trace| ensures PulsesRegisteredAt(history', base, cycles, trace, k) {
      CycleRegisteredEarlier(history, history', base, cycles, trace, k);
    }
  }

  lemma CycleStaysRegistered(history: seq<Event>, base: nat, cycles: seq<Cycle>, trace: seq<Record>, record: Record,
                             k: nat)
    requires k < |trace| < |cycles| && PulsesRegisteredAt(history, base, cycles, trace, k)
    ensures PulsesRegisteredAt(history, base, cycles, trace + [record], k)
  { }

  lemma RegisteredNow(history: seq<Event>, c: Lifecycle.Coordinator<ConnectedModule>)
    requires Reached(history, c)
    ensures RegisteredAt(history, |history|, c.active.Keys)
  {
    ReachedIsRun(history, c);
    assert history[..|history|] == history;
  }

  lemma NextRegistered(so: seq<Event>, history: seq<Event>, begin: seq<Event>, cycles: seq<Cycle>, trace: seq<Record>,
                       record: Record, c: Lifecycle.Coordinator<ConnectedModule>)
    requires PulsesRegistered(so, |begin|, cycles, trace) && |trace| < |cycles| && so <= history
    requires Grown(begin, history, EventsOfCycles(cycles[..|trace| + 1]))
    requires Reached(history, c) && c.active.Keys == record.connected.Keys
    ensures PulsesRegistered(history, |begin|, cycles, trace + [record])
  {
    RegisteredNow(history, c);
    HistoryExtended(so, history, |begin|, cycles, trace);
    forall k | 0 <= k < |trace| ensures PulsesRegisteredAt(history, |begin|, cycles, trace + [record], k) {
      CycleStaysRegistered(history, |begin|, cycles, trace, record, k);
    }
    assert PulsesRegisteredAt(history, |begin|, cycles, trace + [record], |trace|);
  }

  lemma Reassociate<T>(a: seq<T>, b: seq<T>, c: seq<T>)
    ensures (a + b) + c == a + (b + c)
  { }

  lemma NextEvents(cycles: seq<Cycle>, k: nat)
    requires k < |cycles|
    ensures EventsOfCycles(cycles[..k + 1]) == EventsOfCycles(cycles[..k]) + EventsOfCycle(cycles[k])
  {
    assert cycles[..k + 1][..k] == cycles[..k];
  }

  /** The containers to be distributed are those the last cycle returned. */
  lemma NextPending(s: Settings, c: Cycle, p: Pace, pending: seq<Container>, trace: seq<Record>, record: Record)
    requires record == RecordOf(s, c, p, pending, record.connected)
    requires RelaysContainers(s.level) || pending == []
    ensures Pending(trace + [record], |trace| + 1) == record.returned
    ensures RelaysContainers(s.level) || record.returned == []
  { }

  lemma NextFollowsAt(s: Settings, start: TimeStamp, cycles: seq<Cycle>, trace: seq<Record>, record: Record, k: nat)
    requires k < |trace| < |cycles| && FollowsAt(s, start, cycles, trace, k)
    ensures FollowsAt(s, start, cycles, trace + [record], k)
  { }

  lemma NextFollows(s: Settings, start: TimeStamp, cycles: seq<Cycle>, trace: seq<Record>, record: Record)
    requires |trace| < |cycles| && Follows(s, start, cycles, trace)
    requires record == RecordOf(s, cycles[|trace|], PaceAt(s, start, cycles[..|trace|]), Pending(trace, |trace|),
                                record.connected)
    ensures Follows(s, start, cycles, trace + [record])
  {
    forall k | 0 <= k < |trace| ensures FollowsAt(s, start, cycles, trace + [record], k) {
      NextFollowsAt(s, start, cycles, trace, record, k);
    }
    assert Pending(trace + [record], |trace|) == Pending(trace, |trace|);
    assert FollowsAt(s, start, cycles, trace + [record], |trace|);
  }

  /** What the variables of the loop hold after the cycles of the trace. */
  ghost predicate InLoop(s: Settings, start: TimeStamp, cycles: seq<Cycle>, trace: seq<Record>, pace: Pace,
                         pending: seq<Container>)
  {
    && Follows(s, start, cycles, trace)
    && pace == PaceAt(s, start, cycles[..|trace|])
    && pending == Pending(trace, |trace|)
    && (RelaysContainers(s.level) || pending == [])
  }

  lemma NextInLoop(s: Settings, start: TimeStamp, cycles: seq<Cycle>, trace: seq<Record>, pace: Pace,
                   pending: seq<Container>, record: Record, distributed: seq<Container>)
    requires InLoop(s, start, cycles, trace, pace, pending) && |trace| < |cycles|
    requires record == RecordOf(s, cycles[|trace|], pace, pending, record.connected)
    requires distributed == if RelaysContainers(s.level) then record.returned else pending
    ensures InLoop(s, start, cycles, trace + [record], NextPaceOf(s, pace, cycles[|trace|]), distributed)
  {
    NextPending(s, cycles[|trace|], pace, pending, trace, record);
    NextFollows(s, start, cycles, trace, record);
    NextPace(s, start, cycles, |trace|);
  }

  /** What has happened since the loop began: where and with which modules it began, and what is recorded. */
  datatype Progress = Progress(begin: seq<Event>, initial: map<string, Descriptor>, history: seq<Event>,
                               trace: seq<Record>)

  /** The history, the registered descriptors and the trace agree with the cycles so far. */
  ghost predicate Agree(p: Progress, cycles: seq<Cycle>, connected: map<string, Descriptor>) {
    && PulsesRegistered(p.history, |p.begin|, cycles, p.trace)
    && Connects(p.initial, cycles, p.trace)
    && Grown(p.begin, p.history, EventsOfCycles(cycles[..|p.trace|]))
    && connected == ConnectedAfter(p.initial, cycles[..|p.trace|])
  }

  lemma NextAgrees(p: Progress, cycles: seq<Cycle>, connected: map<string, Descriptor>, history: seq<Event>,
                   record: Record, c: Lifecycle.Coordinator<ConnectedModule>)
    requires |p.trace| < |cycles| && Agree(p, cycles, connected)
    requires Grown(p.history, history, EventsOfCycle(cycles[|p.trace|]))
    requires record.connected == ConnectCycle(connected, cycles[|p.trace|])
    requires Reached(history, c) && c.active.Keys == record.connected.Keys
    ensures Agree(Progress(p.begin, p.initial, history, p.trace + [record]), cycles, record.connected)
  {
    NextEvents(cycles, |p.trace|);
    GrownTwice(p.begin, p.history, history, EventsOfCycles(cycles[..|p.trace|]), EventsOfCycle(cycles[|p.trace|]));
    NextConnectedAfter(p.initial, cycles, |p.trace|);
    NextConnects(p.initial, cycles, p.trace, record);
    NextRegistered(p.history, history, p.begin, cycles, p.trace, record, c);
  }

  lemma DeleteStep(c: Lifecycle.Coordinator<ConnectedModule>, deleted: seq<ConnectedModule>)
    ensures Lifecycle.Deleted(c.shutdown) == Some(deleted) ==>
              Lifecycle.Step(c, Lifecycle.Sweep) == Some(c.(shutdown := map[], freed := c.freed + multiset(deleted)))
    ensures Lifecycle.Deleted(c.active) == Some(deleted) ==>
              Lifecycle.Step(c, Lifecycle.CloseDown) == Some(c.(active := map[], freed := c.freed + multiset(deleted)))
  { }

  /** The move of a registered module, after an exit code or without one. */
  lemma MoveStep(c: Lifecycle.Coordinator<ConnectedModule>, key: string)
    requires key in c.active && c.active[key].Some?
    ensures Lifecycle.Step(c, Lifecycle.ExitCode(key)) == Some(Lifecycle.Move(c, key, c.active[key]))
    ensures Lifecycle.Step(c, Lifecycle.ConnectionLost(key)) == Some(Lifecycle.Move(c, key, c.active[key]))
  { }

  // ---------------------------------------------------------------- the class

  class SuperComponent {
    const settings: Settings
    const modules: ConnectedModules
    const shutdownModules: ConnectedModules
    var startOfCurrentCycle: TimeStamp
    var startOfLastCycle: TimeStamp
    var lastCycle: TimeStamp
    var lastWaitTime: int
    ghost var created: set<ConnectedModule>
    ghost var freed: multiset<ConnectedModule>
    ghost var history: seq<Event>

    ghost function State(): Lifecycle.Coordinator<ConnectedModule>
      reads this`created, this`freed, modules, shutdownModules
    {
      Lifecycle.Coordinator(modules.modules, shutdownModules.modules, created, freed)
    }

    ghost predicate Valid()
      reads this`created, modules, shutdownModules
    {
      && modules != shutdownModules && modules.Valid() && shutdownModules.Valid()
      && (forall k :: k in modules.modules ==> modules.modules[k].Some? && modules.modules[k].value in created)
      && (forall k :: k in shutdownModules.modules ==>
            shutdownModules.modules[k].Some? && shutdownModules.modules[k].value in created)
    }

    constructor (settings: Settings)
      ensures Valid() && Lawful() && this.settings == settings && history == []
      ensures fresh(modules) && fresh(shutdownModules) && modules.descriptors == map[]
      ensures lastWaitTime == 0
    {
      this.settings := settings;
      modules := new ConnectedModules();
      shutdownModules := new ConnectedModules();
      startOfCurrentCycle, startOfLastCycle, lastCycle := TimeStamp(0, 0), TimeStamp(0, 0), TimeStamp(0, 0);
      lastWaitTime := 0;
      created, freed, history := {}, multiset{}, [];
    }

    method OnNewModule(md: Descriptor) returns (m: ConnectedModule)
      requires Valid()
      modifies this`created, this`history, modules
      ensures Valid() && fresh(m) && m.listening && m.state == NotRunning && !m.hasExitCode
      ensures history == old(history) + [Lifecycle.NewModule(md.ToString(), m)]
      ensures Lifecycle.Step(old(State()), Lifecycle.NewModule(md.ToString(), m)) == Some(State())
      ensures modules.descriptors == Connect(old(modules.descriptors), ModuleConnected(md))
    {
      m := new ConnectedModule(NotRunning);
      m.listening := true;
      created := created + {m};
      var has := modules.HasModule(md);
      if !has {
        modules.AddModule(md, Some(m));
      }
      history := history + [Lifecycle.NewModule(md.ToString(), m)];
    }

    method HandleChangeState(md: Descriptor, ms: ModuleState)
      requires Valid()
      modifies this`history, modules, created
      ensures Valid() && history == old(history) + [Lifecycle.ChangeState(md.ToString())]
      ensures Lifecycle.Step(old(State()), Lifecycle.ChangeState(md.ToString())) == Some(State())
      ensures modules.descriptors == old(modules.descriptors)
      ensures forall m :: m in created ==>
                && m.state == (if old(Registered(m, md)) then ms else old(m.state))
                && m.hasExitCode == old(m.hasExitCode) && m.listening == old(m.listening)
    {
      var has := modules.HasModule(md);
      if has {
        var m := modules.GetModule(md);
        m.value.state := ms;
      }
      history := history + [Lifecycle.ChangeState(md.ToString())];
    }

    /** `m` is the module registered under this descriptor. */
    ghost predicate Registered(m: ConnectedModule, md: Descriptor)
      reads this, modules
    {
      md.ToString() in modules.modules && modules.modules[md.ToString()] == Some(m)
    }

    method HandleExitCode(md: Descriptor)
      requires Valid()
      modifies this`history, modules, shutdownModules, created
      ensures Valid() && history == old(history) + [Lifecycle.ExitCode(md.ToString())]
      ensures Lifecycle.Step(old(State()), Lifecycle.ExitCode(md.ToString())) == Some(State())
      ensures modules.descriptors == Connect(old(modules.descriptors), ExitCodeReceived(md))
      ensures forall m :: m in created ==>
                && m.hasExitCode == (old(m.hasExitCode) || old(Registered(m, md)))
                && m.state == old(m.state) && m.listening == old(m.listening)
    {
      var has := modules.HasModule(md);
      if has {
        MoveStep(State(), md.ToString());
        var m := modules.GetModule(md);
        modules.RemoveModule(md);
        m.value.hasExitCode := true;
        shutdownModules.AddModule(md, m);
      }
      history := history + [Lifecycle.ExitCode(md.ToString())];
    }

    /** The result tells whether a module was shut down without an exit code. */
    method HandleConnectionLost(md: Descriptor) returns (somethingWentWrong: bool)
      requires Valid()
      modifies this`history, modules, shutdownModules
      ensures Valid() && history == old(history) + [Lifecycle.ConnectionLost(md.ToString())]
      ensures Lifecycle.Step(old(State()), Lifecycle.ConnectionLost(md.ToString())) == Some(State())
      ensures modules.descriptors == Connect(old(modules.descriptors), Callback.ConnectionLost(md))
      ensures somethingWentWrong <==>
                && md.ToString() !in old(modules.modules) && md.ToString() in old(shutdownModules.modules)
                && !old(shutdownModules.modules)[md.ToString()].value.hasExitCode
    {
      somethingWentWrong := false;
      var has := modules.HasModule(md);
      if has {
        MoveStep(State(), md.ToString());
        var m := modules.GetModule(md);
        modules.RemoveModule(md);
        shutdownModules.AddModule(md, m);
      } else {
        var hasShutdown := shutdownModules.HasModule(md);
        if hasShutdown {
          var m := shutdownModules.GetModule(md);
          somethingWentWrong := !m.value.hasExitCode;
        }
      }
      history := history + [Lifecycle.ConnectionLost(md.ToString())];
    }

    /** The loop deletes the modules that were shut down. */
    method DeleteShutdownModules()
      requires Valid()
      modifies this`freed, this`history, shutdownModules, created
      ensures Valid() && history == old(history) + [Lifecycle.Sweep] && shutdownModules.modules == map[]
      ensures Lifecycle.Step(old(State()), Lifecycle.Sweep) == Some(State())
    {
      ghost var c := State();
      var deleted := shutdownModules.DeleteAllModules();
      DeleteStep(c, deleted);
      freed := freed + multiset(deleted);
      history := history + [Lifecycle.Sweep];
    }

    /** After the loop the modules that are left are deleted. */
    method CloseDown()
      requires Valid()
      modifies this`freed, this`history, modules, created
      ensures Valid() && history == old(history) + [Lifecycle.CloseDown] && modules.modules == map[]
      ensures Lifecycle.Step(old(State()), Lifecycle.CloseDown) == Some(State())
    {
      ghost var c := State();
      var deleted := modules.DeleteAllModules();
      DeleteStep(c, deleted);
      freed := freed + multiset(deleted);
      history := history + [Lifecycle.CloseDown];
    }

    /** The history is a run from the initial state to the present one. */
    ghost predicate Lawful()
      reads this`created, this`freed, this`history, modules, shutdownModules
    {
      Reached(history, State())
    }

    /** A callback is the event of its kind: an exit code marks the registered module, a change of its state sets
        it, and no callback marks or sets any other module. */
    method Dispatch(c: Callback)
      requires Valid()
      modifies this`created, this`history, modules, shutdownModules, created
      ensures Valid() && fresh(created - old(created)) && |history| == |old(history)| + 1 && old(history) <= history
      ensures var e := history[|old(history)|];
              && Erased(e) == EventOf(c) && Lifecycle.Fresh(old(State()), e)
              && Lifecycle.Step(old(State()), e) == Some(State())
      ensures modules.descriptors == Connect(old(modules.descriptors), c)
      ensures forall m :: m in old(created) ==>
                && m.state == (if c.StateChanged? && old(Registered(m, c.md)) then c.state else old(m.state))
                && m.hasExitCode == (old(m.hasExitCode) || (c.ExitCodeReceived? && old(Registered(m, c.md))))
    {
      match c {
        case ModuleConnected(md) =>
          var m := OnNewModule(md);
        case StateChanged(md, ms) =>
          HandleChangeState(md, ms);
        case ExitCodeReceived(md) =>
          HandleExitCode(md);
        case ConnectionLost(md) =>
          var somethingWentWrong := HandleConnectionLost(md);
      }
    }

    method Handle(c: Callback)
      requires Valid() && Lawful()
      modifies this`created, this`history, modules, shutdownModules, created
      ensures Valid() && Lawful() && fresh(created - old(created))
      ensures Grown(old(history), history, [EventOf(c)])
      ensures modules.descriptors == Connect(old(modules.descriptors), c)
    {
      ghost var before := State();
      Dispatch(c);
      assert history == old(history) + [history[|history| - 1]];
      HistoryGrows(old(history), before, history[|history| - 1], State());
    }

    method HandleAll(cs: seq<Callback>)
      requires Valid() && Lawful()
      modifies this`created, this`history, modules, shutdownModules, created
      ensures Valid() && Lawful() && fresh(created - old(created))
      ensures Grown(old(history), history, EventsOf(cs))
      ensures modules.descriptors == ConnectEach(old(modules.descriptors), cs)
    {
      var i := 0;
      while i < |cs|
        invariant 0 <= i <= |cs|
        invariant Valid() && Lawful() && fresh(created - old(created))
        invariant Grown(old(history), history, EventsOf(cs[..i]))
        invariant modules.descriptors == ConnectEach(old(modules.descriptors), cs[..i])
      {
        NextConnected(old(modules.descriptors), cs, i);
        ghost var so := history;
        Handle(cs[i]);
        GrownTwice(old(history), so, history, EventsOf(cs[..i]), [EventOf(cs[i])]);
        assert EventsOf(cs[..i + 1]) == EventsOf(cs[..i]) + [EventOf(cs[i])];
        i := i + 1;
      }
      assert cs[..|cs|] == cs;
    }

    /** The branches of the managed levels that do not relay containers. */
    method PulseModules(pm: PulseMessage) returns (sent: seq<Delivery>)
      requires Valid() && !RelaysContainers(settings.level)
      ensures sent == SentBy(settings.level, modules.descriptors, settings.modulesToIgnore, settings.shift, pm)
    {
      match settings.level {
        case Unmanaged =>
          sent := [];
        case Pulse =>
          sent := modules.Pulse(pm);
        case PulseShift =>
          sent := modules.PulseShift(pm, settings.shift);
        case PulseTime =>
          sent := modules.Pulse(pm);
        case PulseTimeAck =>
          sent := modules.PulseAck(pm, settings.modulesToIgnore);
      }
    }

    /** The pace as the fields and the loop's variable hold it. */
    function PaceNow(cumulatedTimeSlice: int): Pace
      reads this`lastCycle, this`lastWaitTime
    {
      Pace(lastCycle.ToMicroseconds(), lastWaitTime, cumulatedTimeSlice)
    }

    /** The timing of a managed cycle: how long it is going to wait, and the next cumulated slice. */
    method TakeTime(current: TimeStamp, cumulatedTimeSlice: int) returns (waiting: int, cumulated: int)
      requires 0 <= cumulatedTimeSlice
      modifies this`lastCycle, this`lastWaitTime
      ensures waiting == Waiting(old(PaceNow(cumulatedTimeSlice)), current.ToMicroseconds(), settings.nominal)
      ensures PaceNow(cumulated) == Next(old(PaceNow(cumulatedTimeSlice)), current.ToMicroseconds(), settings.nominal)
      ensures 0 <= cumulated && lastCycle == current
    {
      var passed := ToUint64(current.ToMicroseconds() - lastCycle.ToMicroseconds());
      var consumption := ToInt64(ToUint64(passed - lastWaitTime));
      lastCycle := current;
      waiting := settings.nominal - consumption;
      cumulated := (cumulatedTimeSlice + settings.nominal) % ONE_SECOND;
      if consumption > ONE_SECOND {
        waiting := 0;
      }
      lastWaitTime := ToUint64(waiting);
    }

    /** The managed part of a cycle. Its variables are the slice and the containers to be distributed. */
    method PulseAndWait(c: Cycle, cumulatedTimeSlice: int, toBeDistributed: seq<Container>)
      returns (cumulated: int, distributed: seq<Container>, record: Record)
      requires Valid() && 0 <= cumulatedTimeSlice && settings.level != Unmanaged
      modifies this`lastCycle, this`lastWaitTime
      ensures record == RecordOf(settings, c, old(PaceNow(cumulatedTimeSlice)), toBeDistributed, modules.descriptors)
      ensures PaceNow(cumulated) == Next(old(PaceNow(cumulatedTimeSlice)), c.current.ToMicroseconds(), settings.nominal)
      ensures distributed == (if RelaysContainers(settings.level) then record.returned else toBeDistributed)
      ensures 0 <= cumulated
    {
      distributed := toBeDistributed;
      var pm := PulseMessage(c.now, ToUint32(settings.nominal), cumulatedTimeSlice, []);
      var sent, conference, returned := [], [], [];
      if RelaysContainers(settings.level) {
        pm := pm.(containers := distributed);
        conference := distributed;
        sent, returned := modules.PulseAckContainers(pm, settings.modulesToIgnore, c.replies);
        distributed := returned;
      } else {
        sent := PulseModules(pm);
      }
      assert sent == SentBy(settings.level, modules.descriptors, settings.modulesToIgnore, settings.shift, pm);
      assert returned == ReturnedTo(settings.level, modules.descriptors, settings.modulesToIgnore, c.replies);
      var waiting;
      waiting, cumulated := TakeTime(c.current, cumulatedTimeSlice);
      record := Record(modules.descriptors, sent, conference, returned, SleepOf(settings.level, waiting));
    }

    /** The first part of every cycle: callbacks, and deleting the modules that were shut down. */
    method BeginCycle(c: Cycle)
      requires Valid() && Lawful()
      modifies this`created, this`freed, this`history, this`startOfCurrentCycle, this`startOfLastCycle
      modifies modules, shutdownModules, created
      ensures Valid() && Lawful() && fresh(created - old(created))
      ensures Grown(old(history), history, EventsOfCycle(c))
      ensures modules.descriptors == ConnectCycle(old(modules.descriptors), c)
      ensures startOfCurrentCycle == c.current && startOfLastCycle == lastCycle
    {
      ghost var h0 := history;
      HandleAll(c.before);
      startOfCurrentCycle := c.current;
      startOfLastCycle := lastCycle;
      ghost var h1 := history;
      SweepLawfully();
      ghost var h2 := history;
      HandleAll(c.between);
      GrownTwice(h0, h1, h2, EventsOf(c.before), [Lifecycle.Sweep]);
      GrownTwice(h0, h2, history, EventsOf(c.before) + [Lifecycle.Sweep], EventsOf(c.between));
    }

    /** One cycle. */
    method RunCycle(c: Cycle, cumulatedTimeSlice: int, toBeDistributed: seq<Container>)
      returns (cumulated: int, distributed: seq<Container>, record: Record)
      requires Valid() && Lawful() && 0 <= cumulatedTimeSlice
      modifies this, modules, shutdownModules, created
      ensures Valid() && Lawful() && fresh(created - old(created))
      ensures Grown(old(history), history, EventsOfCycle(c))
      ensures record == RecordOf(settings, c, old(PaceNow(cumulatedTimeSlice)), toBeDistributed, modules.descriptors)
      ensures modules.descriptors == ConnectCycle(old(modules.descriptors), c)
      ensures PaceNow(cumulated) == NextPaceOf(settings, old(PaceNow(cumulatedTimeSlice)), c)
      ensures distributed == (if RelaysContainers(settings.level) then record.returned else toBeDistributed)
      ensures startOfCurrentCycle == c.current && startOfLastCycle == old(lastCycle)
      ensures 0 <= cumulated
    {
      BeginCycle(c);
      if settings.level == Unmanaged {
        cumulated, distributed := cumulatedTimeSlice, toBeDistributed;
        record := Record(modules.descriptors, [], [], [], 2 * ONE_SECOND);
      } else {
        cumulated, distributed, record := PulseAndWait(c, cumulatedTimeSlice, toBeDistributed);
      }
    }

    method SweepLawfully()
      requires Valid() && Lawful()
      modifies this`freed, this`history, shutdownModules, created
      ensures Valid() && Lawful() && shutdownModules.modules == map[]
      ensures Grown(old(history), history, [Lifecycle.Sweep])
    {
      ghost var before := State();
      DeleteShutdownModules();
      HistoryGrows(old(history), before, Lifecycle.Sweep, State());
    }

    /** What holds between two cycles of a loop that started with this history. */
    ghost predicate BetweenCycles(begin: seq<Event>, initial: map<string, Descriptor>, start: TimeStamp,
                                  cycles: seq<Cycle>, trace: seq<Record>,
                                  cumulatedTimeSlice: int, toBeDistributed: seq<Container>)
      reads this, modules, shutdownModules
    {
      && Valid() && Lawful()
      && InLoop(settings, start, cycles, trace, PaceNow(cumulatedTimeSlice), toBeDistributed)
      && Agree(Progress(begin, initial, history, trace), cycles, modules.descriptors)
      && 0 <= cumulatedTimeSlice
    }

    /** One turn of the loop. */
    method NextCycle(ghost begin: seq<Event>, ghost initial: map<string, Descriptor>, ghost start: TimeStamp,
                     cycles: seq<Cycle>, trace: seq<Record>, cumulatedTimeSlice: int, toBeDistributed: seq<Container>)
      returns (cumulated: int, distributed: seq<Container>, record: Record)
      requires |trace| < |cycles|
      requires BetweenCycles(begin, initial, start, cycles, trace, cumulatedTimeSlice, toBeDistributed)
      modifies this, modules, shutdownModules, created
      ensures BetweenCycles(begin, initial, start, cycles, trace + [record], cumulated, distributed)
      ensures fresh(created - old(created))
    {
      ghost var pace, connected := PaceNow(cumulatedTimeSlice), modules.descriptors;
      ghost var p := Progress(begin, initial, history, trace);
      cumulated, distributed, record := RunCycle(cycles[|trace|], cumulatedTimeSlice, toBeDistributed);
      NextInLoop(settings, start, cycles, trace, pace, toBeDistributed, record, distributed);
      NextAgrees(p, cycles, connected, history, record, State());
    }

    /** The loop, for as many cycles as the supercomponent runs. */
    method Loop(start: TimeStamp, cycles: seq<Cycle>) returns (trace: seq<Record>)
      requires Valid() && Lawful() && lastWaitTime == 0
      modifies this, modules, shutdownModules, created
      ensures Valid() && Lawful() && fresh(created - old(created))
      ensures |trace| == |cycles| && Follows(settings, start, cycles, trace)
      ensures PulsesRegistered(history, |old(history)|, cycles, trace)
      ensures Connects(old(modules.descriptors), cycles, trace)
      ensures Grown(old(history), history, EventsOfCycles(cycles))
    {
      var cumulatedTimeSlice, toBeDistributed := 0, [];
      trace := [];
      lastCycle := start;
      while |trace| < |cycles|
        invariant |trace| <= |cycles|
        invariant BetweenCycles(old(history), old(modules.descriptors), start, cycles, trace,
                                cumulatedTimeSlice, toBeDistributed)
        invariant fresh(created - old(created))
      {
        var record;
        cumulatedTimeSlice, toBeDistributed, record :=
          NextCycle(old(history), old(modules.descriptors), start, cycles, trace, cumulatedTimeSlice, toBeDistributed);
        trace := trace + [record];
      }
      assert cycles[..|cycles|] == cycles;
    }

    /** The loop, the callbacks that still come, and the closing down. */
    method Body(start: TimeStamp, cycles: seq<Cycle>, last: seq<Callback>) returns (trace: seq<Record>)
      requires Valid() && Lawful() && lastWaitTime == 0
      modifies this, modules, shutdownModules, created
      ensures Valid() && Lawful()
      ensures |trace| == |cycles| && Follows(settings, start, cycles, trace)
      ensures PulsesRegistered(history, |old(history)|, cycles, trace)
      ensures Connects(old(modules.descriptors), cycles, trace)
      ensures Grown(old(history), history, EventsOfCycles(cycles) + EventsOf(last) + [Lifecycle.CloseDown])
    {
      trace := Loop(start, cycles);
      ghost var h0, h1 := old(history), history;
      HandleAll(last);
      ghost var h2 := history;
      CloseDownLawfully();
      GrownTwice(h0, h1, h2, EventsOfCycles(cycles), EventsOf(last));
      GrownTwice(h0, h2, history, EventsOfCycles(cycles) + EventsOf(last), [Lifecycle.CloseDown]);
      HistoryExtended(h1, history, |h0|, cycles, trace);
    }

    method CloseDownLawfully()
      requires Valid() && Lawful()
      modifies this`freed, this`history, modules, created
      ensures Valid() && Lawful() && modules.modules == map[]
      ensures Grown(old(history), history, [Lifecycle.CloseDown])
    {
      ghost var before := State();
      CloseDown();
      HistoryGrows(old(history), before, Lifecycle.CloseDown, State());
    }

    /** The destructors of both registries. All modules ever created have been deleted once, except those
        that were dropped. */
    method Destroy()
      requires Valid() && Lawful()
      modifies this`freed, this`history, modules, shutdownModules, created
      ensures Valid() && Lawful() && created == old(created)
      ensures modules.modules == map[] && shutdownModules.modules == map[]
      ensures forall m :: m in created ==> freed[m] == if m in Lifecycle.Dropped(State()) then 0 else 1
    {
      SweepLawfully();
      CloseDownLawfully();
      AllFreed(history, State());
    }
  }

  lemma AllFreed(history: seq<Event>, c: Lifecycle.Coordinator<ConnectedModule>)
    requires Reached(history, c) && c.active == map[] && c.shutdown == map[]
    ensures forall m :: m in c.created ==> c.freed[m] == if m in Lifecycle.Dropped(c) then 0 else 1
  {
    ReachedIsRun(history, c);
    Lifecycle.EveryModuleIsInOnePlace(history);
    forall m | m in c.created ensures c.freed[m] == if m in Lifecycle.Dropped(c) then 0 else 1 {
      assert Lifecycle.Places(c, m) == 1;
    }
  }

  // ---------------------------------------------------------------- what every trace satisfies

  lemma SentInTrace(s: Settings, start: TimeStamp, cycles: seq<Cycle>, trace: seq<Record>, k: nat)
    requires Follows(s, start, cycles, trace) && k < |trace|
    ensures exists pm :: trace[k].sent == SentBy(s.level, trace[k].connected, s.modulesToIgnore, s.shift, pm)
                         && pm.time == cycles[k].now
  {
    assert FollowsAt(s, start, cycles, trace, k);
    var pm := MessageOf(s.level, s.nominal, cycles[k].now, PaceAt(s, start, cycles[..k]), Pending(trace, k));
    assert trace[k].sent == SentBy(s.level, trace[k].connected, s.modulesToIgnore, s.shift, pm);
  }

  lemma SentToEligible(s: Settings, connected: map<string, Descriptor>, pm: PulseMessage, key: string)
    requires WaitsForAcknowledgement(s.level)
    ensures var to := Recipients(SentBy(s.level, connected, s.modulesToIgnore, s.shift, pm));
            && Ascending(to)
            && multiset(to)[key] ==
               if key in connected && !Skipped(connected[key].name, s.modulesToIgnore) then 1 else 0
  {
    ReachesEachOnce(connected, s.modulesToIgnore, pm, key);
  }

  lemma SentToAll(s: Settings, connected: map<string, Descriptor>, pm: PulseMessage, key: string)
    requires s.level != Unmanaged && !WaitsForAcknowledgement(s.level)
    ensures var to := Recipients(SentBy(s.level, connected, s.modulesToIgnore, s.shift, pm));
            Ascending(to) && multiset(to)[key] == if key in connected then 1 else 0
  {
    ReachesAllOnce(connected.Keys, pm, s.shift, key);
  }

  /** Every cycle of a managed level pulses each registered module exactly once and no other, in ascending
      order, except that the levels that wait for acknowledgements skip the ignored ones. Otherwise it pulses
      none. */
  lemma EveryModuleIsPulsedOnce(s: Settings, start: TimeStamp, cycles: seq<Cycle>, trace: seq<Record>, k: nat,
                                key: string)
    requires Follows(s, start, cycles, trace) && k < |trace|
    ensures var to, connected := Recipients(trace[k].sent), trace[k].connected;
            && Ascending(to)
            && multiset(to)[key] ==
               if && key in connected && s.level != Unmanaged
                  && !(s.level in [PulseTimeAck, Simulation, SimulationRealTime]
                       && Lower(connected[key].name) in s.modulesToIgnore)
               then 1 else 0
  {
    SentInTrace(s, start, cycles, trace, k);
    var pm :| trace[k].sent == SentBy(s.level, trace[k].connected, s.modulesToIgnore, s.shift, pm)
              && pm.time == cycles[k].now;
    if s.level == Unmanaged {
      assert Recipients(trace[k].sent) == [];
    } else if WaitsForAcknowledgement(s.level) {
      SentToEligible(s, trace[k].connected, pm, key);
    } else {
      SentToAll(s, trace[k].connected, pm, key);
    }
  }

  /** In every run of a level that waits for acknowledgements, whatever is given as the modules to exclude:
      a registered module gets no pulse if and only if there is a comma in the first word of that value and
      one of the pieces between commas is the name of its descriptor in any case; otherwise it gets one. */
  lemma ExcludedGetNoPulse(s: Settings, start: TimeStamp, initial: map<string, Descriptor>, cycles: seq<Cycle>,
                           trace: seq<Record>, k: nat, value: string, key: string)
    requires Follows(s, start, cycles, trace) && Connects(initial, cycles, trace) && Named(initial)
    requires WaitsForAcknowledgement(s.level) && s.modulesToIgnore == IgnoreList(value)
    requires k < |trace| && key in ConnectedAfter(initial, cycles[..k + 1])
    ensures var d, w := ConnectedAfter(initial, cycles[..k + 1])[key], KeyValueConfigurations.FirstWord(value);
            && d.ToString() == key
            && multiset(Recipients(trace[k].sent))[key] ==
               if ',' in w && d.name != "" && exists p :: p in Pieces(w, ',') && Lower(p) == Lower(d.name) then 0 else 1
  {
    var connected := ConnectedAfter(initial, cycles[..k + 1]);
    assert ConnectsAt(initial, cycles, trace, k);
    CyclesKeepNamed(initial, cycles[..k + 1]);
    assert NamedBy(key, connected[key]);
    EveryModuleIsPulsedOnce(s, start, cycles, trace, k, key);
    SkippedIff(value, connected[key].name);
  }

  /** So with a list of names joined by commas, of two names or more, exactly the listed modules get none. */
  lemma ListedGetNoPulse(s: Settings, start: TimeStamp, initial: map<string, Descriptor>, cycles: seq<Cycle>,
                         trace: seq<Record>, k: nat, names: seq<string>, key: string)
    requires Follows(s, start, cycles, trace) && Connects(initial, cycles, trace) && Named(initial)
    requires names != [] && forall n :: n in names ==> IsName(n)
    requires WaitsForAcknowledgement(s.level) && s.modulesToIgnore == IgnoreList(Join(names, ','))
    requires k < |trace| && key in ConnectedAfter(initial, cycles[..k + 1])
    ensures var d := ConnectedAfter(initial, cycles[..k + 1])[key];
            && d.ToString() == key
            && multiset(Recipients(trace[k].sent))[key] ==
               if |names| >= 2 && exists n :: n in names && Lower(n) == Lower(d.name) then 0 else 1
  {
    var connected := ConnectedAfter(initial, cycles[..k + 1]);
    assert ConnectsAt(initial, cycles, trace, k);
    CyclesKeepNamed(initial, cycles[..k + 1]);
    assert NamedBy(key, connected[key]);
    EveryModuleIsPulsedOnce(s, start, cycles, trace, k, key);
    ListedNamesAreSkipped(names, connected[key].name);
  }

  /** All modules are told the time of the pulse; with shifted pulses the i-th one is told i shifts more. */
  lemma TimesOfTrace(s: Settings, start: TimeStamp, cycles: seq<Cycle>, trace: seq<Record>, k: nat, i: nat)
    requires Follows(s, start, cycles, trace) && k < |trace| && i < |trace[k].sent|
    ensures s.level != PulseShift ==> trace[k].sent[i].message.time == cycles[k].now
    ensures s.level == PulseShift && FromClock(cycles[k].now) && cycles[k].now.microseconds + i * s.shift < TWO_31 ==>
              trace[k].sent[i].message.time.ToMicroseconds() == cycles[k].now.ToMicroseconds() + i * s.shift
  {
    SentInTrace(s, start, cycles, trace, k);
    var pm :| trace[k].sent == SentBy(s.level, trace[k].connected, s.modulesToIgnore, s.shift, pm)
              && pm.time == cycles[k].now;
    if s.level == PulseShift && FromClock(cycles[k].now) {
      ShiftedTimeIff(SortedKeys(trace[k].connected.Keys), pm, s.shift, i);
    }
  }

  /** The keys of the modules pulsed with acknowledgements, in order. */
  function EligibleIn(s: Settings, connected: map<string, Descriptor>): seq<string> {
    Eligible(connected, SortedKeys(connected.Keys), s.modulesToIgnore)
  }

  lemma ReturnedIs(s: Settings, start: TimeStamp, cycles: seq<Cycle>, trace: seq<Record>, k: nat)
    requires Follows(s, start, cycles, trace) && RelaysContainers(s.level) && k < |trace|
    ensures trace[k].returned == Replies(cycles[k].replies, EligibleIn(s, trace[k].connected))
  {
    assert FollowsAt(s, start, cycles, trace, k);
  }

  /** The message of the k-th cycle, in the order of the eligible modules. */
  lemma MessageInSimulation(s: Settings, start: TimeStamp, cycles: seq<Cycle>, trace: seq<Record>, k: nat, i: nat)
    requires Follows(s, start, cycles, trace) && RelaysContainers(s.level) && k < |trace|
    ensures |trace[k].sent| == |EligibleIn(s, trace[k].connected)|
    ensures i < |trace[k].sent| ==>
              && trace[k].sent[i].to == EligibleIn(s, trace[k].connected)[i]
              && trace[k].sent[i].message.containers == trace[k].conference
  {
    assert FollowsAt(s, start, cycles, trace, k);
  }

  /** The conference gets what the cycle before has returned. */
  lemma ConferenceIs(s: Settings, start: TimeStamp, cycles: seq<Cycle>, trace: seq<Record>, k: nat)
    requires Follows(s, start, cycles, trace) && RelaysContainers(s.level) && k < |trace|
    ensures trace[k].conference == Pending(trace, k)
  {
    assert FollowsAt(s, start, cycles, trace, k);
  }

  lemma ConferenceReplies(s: Settings, start: TimeStamp, cycles: seq<Cycle>, trace: seq<Record>, k: nat)
    requires Follows(s, start, cycles, trace) && RelaysContainers(s.level) && 0 < k < |trace|
    ensures trace[k].conference == Replies(cycles[k - 1].replies, EligibleIn(s, trace[k - 1].connected))
  {
    ConferenceIs(s, start, cycles, trace, k);
    ReturnedIs(s, start, cycles, trace, k - 1);
  }

  lemma ConferenceHolds(s: Settings, cycles: seq<Cycle>, trace: seq<Record>, k: nat)
    requires 0 < k < |trace| <= |cycles|
    requires trace[k].conference == Replies(cycles[k - 1].replies, EligibleIn(s, trace[k - 1].connected))
    ensures HoldsAnswers(cycles[k - 1].replies, EligibleIn(s, trace[k - 1].connected), trace[k].conference)
  {
    AnswersAreHeld(cycles[k - 1].replies, EligibleIn(s, trace[k - 1].connected), trace[k].conference);
  }

  /** In the two simulation levels a cycle sends every eligible module the containers the eligible modules of
      the previous cycle answered, all of them, one module's after the other's in the order of their texts,
      and replicates the same to the conference. The first cycle sends none. */
  lemma ContainersArriveInTheNextCycle(s: Settings, start: TimeStamp, cycles: seq<Cycle>, trace: seq<Record>, k: nat,
                                       i: nat)
    requires Follows(s, start, cycles, trace) && s.level in [Simulation, SimulationRealTime]
    requires k < |trace| && i < |trace[k].sent|
    ensures i < |EligibleIn(s, trace[k].connected)| && trace[k].sent[i].to == EligibleIn(s, trace[k].connected)[i]
    ensures trace[k].sent[i].message.containers == trace[k].conference
    ensures if k == 0 then trace[k].conference == []
            else HoldsAnswers(cycles[k - 1].replies, EligibleIn(s, trace[k - 1].connected), trace[k].conference)
  {
    MessageInSimulation(s, start, cycles, trace, k, i);
    ConferenceIs(s, start, cycles, trace, k);
    if k > 0 {
      ConferenceReplies(s, start, cycles, trace, k);
      ConferenceHolds(s, cycles, trace, k);
    }
  }

  /** In no other level does a cycle send a container, to a module or to the conference, or take one. */
  lemma NothingIsRelayedElsewhere(s: Settings, start: TimeStamp, cycles: seq<Cycle>, trace: seq<Record>, k: nat, i: nat)
    requires Follows(s, start, cycles, trace) && s.level !in [Simulation, SimulationRealTime] && k < |trace|
    ensures trace[k].conference == [] && trace[k].returned == []
    ensures i < |trace[k].sent| ==> trace[k].sent[i].message.containers == []
  {
    assert FollowsAt(s, start, cycles, trace, k);
  }

  /** Everything replicated to the conference, in order. */
  function ConferenceStream(trace: seq<Record>): seq<Container>
    decreases |trace|
  {
    if trace == [] then [] else ConferenceStream(trace[..|trace| - 1]) + trace[|trace| - 1].conference
  }

  /** Everything returned by modules, in order. */
  function ReturnedStream(trace: seq<Record>): seq<Container>
    decreases |trace|
  {
    if trace == [] then [] else ReturnedStream(trace[..|trace| - 1]) + trace[|trace| - 1].returned
  }

  /** The conference gets in every cycle what was returned in the one before. */
  lemma {:induction false} ConferenceIsReturned(s: Settings, start: TimeStamp, cycles: seq<Cycle>, trace: seq<Record>,
                                                n: nat)
    requires Follows(s, start, cycles, trace) && RelaysContainers(s.level) && 0 < n <= |trace|
    ensures ConferenceStream(trace[..n]) == ReturnedStream(trace[..n - 1])
    decreases n
  {
    assert FollowsAt(s, start, cycles, trace, n - 1);
    assert trace[..n][..n - 1] == trace[..n - 1];
    if n == 1 {
      assert trace[..0] == [];
    } else {
      ConferenceIsReturned(s, start, cycles, trace, n - 1);
      assert trace[..n - 1][..n - 2] == trace[..n - 2];
    }
  }

  /** The keys of the modules pulsed with acknowledgements in each cycle. */
  function EligibleInEach(s: Settings, trace: seq<Record>): (keys: seq<seq<string>>)
    ensures |keys| == |trace| && forall k :: 0 <= k < |trace| ==> keys[k] == EligibleIn(s, trace[k].connected)
  {
    seq(|trace|, k requires 0 <= k < |trace| => EligibleIn(s, trace[k].connected))
  }

  /** How many containers the modules with these keys answer in the first n cycles. */
  function AnsweredBefore(cycles: seq<Cycle>, keys: seq<seq<string>>, n: nat): nat
    requires n <= |keys| <= |cycles|
  {
    if n == 0 then 0
    else AnsweredBefore(cycles, keys, n - 1) + Answered(cycles[n - 1].replies, keys[n - 1], |keys[n - 1]|)
  }

  /** Every cycle has returned what the modules with its keys answer. */
  ghost predicate Returns(cycles: seq<Cycle>, keys: seq<seq<string>>, trace: seq<Record>) {
    |trace| == |keys| <= |cycles| && forall k :: 0 <= k < |trace| ==> ReturnsAt(cycles[k], keys[k], trace[k])
  }

  ghost predicate ReturnsAt(c: Cycle, keys: seq<string>, record: Record) {
    record.returned == Replies(c.replies, keys)
  }

  lemma TraceReturns(s: Settings, start: TimeStamp, cycles: seq<Cycle>, trace: seq<Record>)
    requires Follows(s, start, cycles, trace) && RelaysContainers(s.level)
    ensures Returns(cycles, EligibleInEach(s, trace), trace)
  {
    forall k | 0 <= k < |trace| ensures ReturnsAt(cycles[k], EligibleInEach(s, trace)[k], trace[k]) {
      ReturnedIs(s, start, cycles, trace, k);
    }
  }

  lemma {:induction false} ReturnedLength(cycles: seq<Cycle>, keys: seq<seq<string>>, trace: seq<Record>, n: nat)
    requires Returns(cycles, keys, trace) && n <= |trace|
    ensures |ReturnedStream(trace[..n])| == AnsweredBefore(cycles, keys, n)
    decreases n
  {
    if n > 0 {
      ReturnedLength(cycles, keys, trace, n - 1);
      OneMoreReturned(trace, n - 1);
      assert ReturnsAt(cycles[n - 1], keys[n - 1], trace[n - 1]);
      AnswersLength(cycles[n - 1].replies, keys[n - 1]);
    }
  }

  lemma OneMoreReturned(trace: seq<Record>, n: nat)
    requires n < |trace|
    ensures ReturnedStream(trace[..n + 1]) == ReturnedStream(trace[..n]) + trace[n].returned
  {
    assert trace[..n + 1][..n] == trace[..n];
  }

  lemma {:induction false} ReturnedPrefix(trace: seq<Record>, m: nat, n: nat)
    requires m <= n <= |trace|
    ensures ReturnedStream(trace[..m]) <= ReturnedStream(trace[..n])
    decreases n
  {
    if m < n {
      ReturnedPrefix(trace, m, n - 1);
      OneMoreReturned(trace, n - 1);
    }
  }

  /** The containers of cycle `k` stand in the stream behind those of the cycles before it. */
  lemma ReturnedAt(trace: seq<Record>, n: nat, k: nat)
    requires k < n <= |trace|
    ensures var before, stream := |ReturnedStream(trace[..k])|, ReturnedStream(trace[..n]);
            && before + |trace[k].returned| <= |stream|
            && stream[before..before + |trace[k].returned|] == trace[k].returned
  {
    ReturnedPrefix(trace, k + 1, n);
    OneMoreReturned(trace, k);
  }

  /** The i-th module of cycle `k` answers a j-th container. */
  predicate Answers(cycles: seq<Cycle>, keys: seq<seq<string>>, k: nat, i: nat, j: nat) {
    && k < |keys| <= |cycles| && i < |keys[k]|
    && keys[k][i] in cycles[k].replies && j < |cycles[k].replies[keys[k][i]]|
  }

  /** In the stream, that container stands behind all those answered before it. */
  predicate StandsIn(cycles: seq<Cycle>, keys: seq<seq<string>>, k: nat, i: nat, j: nat, stream: seq<Container>)
    requires Answers(cycles, keys, k, i, j)
  {
    HoldsContainer(cycles[k].replies, keys[k], stream, AnsweredBefore(cycles, keys, k), i, j)
  }

  lemma StandsInReturned(cycles: seq<Cycle>, keys: seq<seq<string>>, trace: seq<Record>, n: nat, k: nat, i: nat, j: nat)
    requires Returns(cycles, keys, trace) && k < n <= |trace| && Answers(cycles, keys, k, i, j)
    ensures StandsIn(cycles, keys, k, i, j, ReturnedStream(trace[..n]))
  {
    assert ReturnsAt(cycles[k], keys[k], trace[k]);
    ReturnedLength(cycles, keys, trace, k);
    StandsBehind(trace, n, k, cycles[k].replies, keys[k], i, j);
  }

  lemma StandsBehind(trace: seq<Record>, n: nat, k: nat, replies: map<string, seq<Container>>, keys: seq<string>,
                     i: nat, j: nat)
    requires k < n <= |trace| && trace[k].returned == Replies(replies, keys)
    requires i < |keys| && keys[i] in replies && j < |replies[keys[i]]|
    ensures HoldsContainer(replies, keys, ReturnedStream(trace[..n]), |ReturnedStream(trace[..k])|, i, j)
  {
    AnswerIsHeld(replies, keys, trace[k].returned, i, j);
    ReturnedAt(trace, n, k);
    HeldInside(replies, keys, trace[k].returned, ReturnedStream(trace[..n]), |ReturnedStream(trace[..k])|, i, j);
  }

  /** All containers the modules have answered in the first n cycles stand in the stream, in order, and no
      others. */
  ghost predicate HoldsAllAnswers(cycles: seq<Cycle>, keys: seq<seq<string>>, n: nat, stream: seq<Container>)
    requires n <= |keys| <= |cycles|
  {
    && |stream| == AnsweredBefore(cycles, keys, n)
    && forall k, i, j :: 0 <= k < n && 0 <= i && 0 <= j && Answers(cycles, keys, k, i, j) ==>
         StandsIn(cycles, keys, k, i, j, stream)
  }

  lemma ReturnedHoldsAll(cycles: seq<Cycle>, keys: seq<seq<string>>, trace: seq<Record>, n: nat)
    requires Returns(cycles, keys, trace) && n <= |trace|
    ensures HoldsAllAnswers(cycles, keys, n, ReturnedStream(trace[..n]))
  {
    ReturnedLength(cycles, keys, trace, n);
    forall k, i, j | 0 <= k < n && 0 <= i && 0 <= j && Answers(cycles, keys, k, i, j)
      ensures StandsIn(cycles, keys, k, i, j, ReturnedStream(trace[..n]))
    {
      StandsInReturned(cycles, keys, trace, n, k, i, j);
    }
  }

  /** The conference sees exactly what the eligible modules answered in all cycles but the last, in the order of
      the cycles and in each of the modules' texts: none is lost, duplicated or reordered. */
  lemma ConferenceSeesAllButTheLastCycle(s: Settings, start: TimeStamp, cycles: seq<Cycle>, trace: seq<Record>, n: nat)
    requires Follows(s, start, cycles, trace) && s.level in [Simulation, SimulationRealTime] && 0 < n <= |trace|
    ensures HoldsAllAnswers(cycles, EligibleInEach(s, trace), n - 1, ConferenceStream(trace[..n]))
  {
    TraceReturns(s, start, cycles, trace);
    ConferenceIsReturned(s, start, cycles, trace, n);
    ReturnedHoldsAll(cycles, EligibleInEach(s, trace), trace, n - 1);
  }

  lemma SlicesSent(s: Settings, connected: map<string, Descriptor>, pm: PulseMessage, d: Delivery)
    requires d in SentBy(s.level, connected, s.modulesToIgnore, s.shift, pm)
    ensures s.level != Unmanaged
    ensures d.message.cumulatedTimeSlice == pm.cumulatedTimeSlice && d.message.nominalTimeSlice == pm.nominalTimeSlice
  {
    var sent := SentBy(s.level, connected, s.modulesToIgnore, s.shift, pm);
    var i :| 0 <= i < |sent| && sent[i] == d;
  }

  /** Every message of the k-th cycle carries k nominal slices modulo one second. */
  lemma SlicesOfTrace(s: Settings, start: TimeStamp, cycles: seq<Cycle>, trace: seq<Record>, k: nat, d: Delivery)
    requires Follows(s, start, cycles, trace) && k < |trace| && d in trace[k].sent
    ensures d.message.cumulatedTimeSlice == (k * s.nominal) % 1_000_000
    ensures d.message.nominalTimeSlice == s.nominal % 0x1_0000_0000
  {
    assert FollowsAt(s, start, cycles, trace, k);
    var pm := MessageOf(s.level, s.nominal, cycles[k].now, PaceAt(s, start, cycles[..k]), Pending(trace, k));
    SlicesSent(s, trace[k].connected, pm, d);
    CumulatedIsSlice(start.ToMicroseconds(), Stamps(cycles[..k]), s.nominal);
  }

  /** In the levels that run in real time a cycle sleeps until the next point of the grid. From any cycle
      `a` on, cycle `k` ends k + 1 - a slices after the point due at `a`, as long as no cycle in between
      starts more than a second late. */
  lemma SleepsDoNotDrift(s: Settings, start: TimeStamp, cycles: seq<Cycle>, trace: seq<Record>, a: nat, k: nat)
    requires Follows(s, start, cycles, trace) && a <= k < |trace| && s.level != Unmanaged && s.level != Simulation
    requires InRange(start.ToMicroseconds(), Stamps(cycles), s.nominal)
    requires forall j :: a <= j <= k ==> Lag(start.ToMicroseconds(), Stamps(cycles), s.nominal, j) <= ONE_SECOND
    ensures cycles[k].current.ToMicroseconds() + trace[k].slept ==
            Grid(start.ToMicroseconds(), Stamps(cycles)[..a], s.nominal) + (k + 1 - a) * s.nominal
  {
    assert FollowsAt(s, start, cycles, trace, k);
    assert Stamps(cycles[..k]) == Stamps(cycles)[..k];
    PacingDoesNotDrift(start.ToMicroseconds(), Stamps(cycles), s.nominal, a, k);
  }

  /** Without a managed level a cycle sleeps two seconds, and in the simulation a millisecond: in neither does
      it wait for the next slice. */
  lemma SleepsOutsideRealTime(s: Settings, start: TimeStamp, cycles: seq<Cycle>, trace: seq<Record>, k: nat)
    requires Follows(s, start, cycles, trace) && k < |trace|
    ensures s.level == Unmanaged ==> trace[k].slept == 2_000_000
    ensures s.level == Simulation ==> trace[k].slept == 1_000
  {
    assert FollowsAt(s, start, cycles, trace, k);
  }

  /** In the levels that run in real time, if no cycle so far has started more than a second after its time,
      cycle `k` sleeps until k + 1 slices after the start; the first one that has does not sleep at all. */
  lemma SleepsUntilTheNextSlice(s: Settings, start: TimeStamp, cycles: seq<Cycle>, trace: seq<Record>, k: nat)
    requires Follows(s, start, cycles, trace) && k < |trace| && s.level !in [Unmanaged, Simulation]
    requires InRange(start.ToMicroseconds(), Stamps(cycles), s.nominal)
    requires forall j :: 0 <= j < k ==>
               cycles[j].current.ToMicroseconds() <= start.ToMicroseconds() + j * s.nominal + 1_000_000
    ensures var late := cycles[k].current.ToMicroseconds() - (start.ToMicroseconds() + k * s.nominal);
            trace[k].slept == if late > 1_000_000 then 0 else s.nominal - late
  {
    assert FollowsAt(s, start, cycles, trace, k);
    var from, stamps := start.ToMicroseconds(), Stamps(cycles);
    assert Stamps(cycles[..k]) == stamps[..k];
    GridOfPunctualCycles(from, stamps[..k], s.nominal);
    OnTheGrid(from, stamps, s.nominal, k);
  }
}

/**
 What the reference-counting pointer does to memory, as functions on a value, and what every run of
 those functions keeps.

 A `Memory` maps each live handle to the counting block it refers to (None for a null handle), maps
 each live block to its pointee and its counter, and remembers how often each block and each pointee
 was deleted. An operation that would touch a deleted block has no result (None).
 */
module ReferenceCounting {
  import opened Wrappers

  // m_counter is a uint32_t.
  const COUNTER_RANGE: int := 0x1_0000_0000

  datatype Block<+P> = Block(pointer: P, counter: int)

  datatype Memory<H(==), B(==), P(==)> = Memory(
    handles: map<H, Option<B>>,
    blocks: map<B, Block<P>>,
    deletedBlocks: multiset<B>,
    deletedPointees: multiset<P>,
    wrapped: set<P>)  // every raw pointer ever given to the constructor

  datatype Op<H, B, P> =
    | Construct(h: H, pointer: Option<P>, block: B)
    | CopyConstruct(h: H, source: H)
    | Assign(h: H, source: H)
    | Release(h: H)
    | Destroy(h: H)

  function Empty<H, B, P>(): Memory<H, B, P> {
    Memory(map[], map[], multiset{}, multiset{}, {})
  }

  /** The live handles that refer to block `b`. */
  function Refs<H, B, P>(m: Memory<H, B, P>, b: B): set<H> {
    set h | h in m.handles && m.handles[h] == Some(b)
  }

  /** Some live block holds pointee `p`. */
  ghost predicate Owned<H, B, P>(m: Memory<H, B, P>, p: P) {
    exists b :: b in m.blocks && m.blocks[b].pointer == p
  }

  /** Some live handle leads to pointee `p`. */
  ghost predicate Reachable<H, B, P>(m: Memory<H, B, P>, p: P) {
    exists h :: h in m.handles && Holds(m, h, p)
  }

  ghost predicate Holds<H, B, P>(m: Memory<H, B, P>, h: H, p: P)
    requires h in m.handles
  {
    m.handles[h].Some? && m.handles[h].value in m.blocks && m.blocks[m.handles[h].value].pointer == p
  }

  // ---------------------------------------------------------------- operations

  function DoRelease<H, B, P>(m: Memory<H, B, P>, h: H): Option<Memory<H, B, P>>
    requires h in m.handles
  {
    match m.handles[h]
    case None => Some(m)
    case Some(b) =>
      if b !in m.blocks then None
      else if m.blocks[b].counter > 0 then
        var c := m.blocks[b].counter - 1;
        if c == 0 then
          Some(m.(handles := m.handles[h := None],
                  blocks := m.blocks - {b},
                  deletedPointees := m.deletedPointees + multiset{m.blocks[b].pointer},
                  deletedBlocks := m.deletedBlocks + multiset{b}))
        else
          Some(m.(handles := m.handles[h := None],
                  blocks := m.blocks[b := m.blocks[b].(counter := c)]))
      else Some(m)
  }

  function DoAcquire<H, B, P>(m: Memory<H, B, P>, h: H, target: Option<B>): Option<Memory<H, B, P>> {
    var m1 := m.(handles := m.handles[h := target]);
    match target
    case None => Some(m1)
    case Some(b) =>
      if b !in m.blocks then None
      else Some(m1.(blocks := m.blocks[b := m.blocks[b].(counter := (m.blocks[b].counter + 1) % COUNTER_RANGE)]))
  }

  function DoConstruct<H, B, P>(m: Memory<H, B, P>, h: H, pointer: Option<P>, block: B): Memory<H, B, P> {
    match pointer
    case None => m.(handles := m.handles[h := None])
    case Some(p) =>
      m.(handles := m.handles[h := Some(block)],
         blocks := m.blocks[block := Block(p, 1)],
         wrapped := m.wrapped + {p})
  }

  function DoAssign<H, B, P>(m: Memory<H, B, P>, h: H, source: H): Option<Memory<H, B, P>>
    requires h in m.handles && source in m.handles
  {
    if h == source then Some(m)
    else
      match DoRelease(m, h)
      case None => None
      case Some(m1) => DoAcquire(m1, h, m.handles[source])
  }

  function DoDestroy<H, B, P>(m: Memory<H, B, P>, h: H): Option<Memory<H, B, P>>
    requires h in m.handles
  {
    match DoRelease(m, h)
    case None => None
    case Some(m1) => Some(m1.(handles := m1.handles - {h}))
  }

  /** The language's own demands: handles are constructed once and used only while alive, and a new
      block has an address that was never used. */
  predicate WellScoped<H, B, P>(m: Memory<H, B, P>, op: Op<H, B, P>) {
    match op
    case Construct(h, _, block) => h !in m.handles && block !in m.blocks && block !in m.deletedBlocks
    case CopyConstruct(h, source) => h !in m.handles && source in m.handles
    case Assign(h, source) => h in m.handles && source in m.handles
    case Release(h) => h in m.handles
    case Destroy(h) => h in m.handles
  }

  /** No block ever gets 2^32 handles. */
  predicate Roomy<H, B, P>(m: Memory<H, B, P>, op: Op<H, B, P>) {
    && WellScoped(m, op)
    && match op
       case CopyConstruct(h, source) => HasRoom(m, h, source)
       case Assign(h, source) => HasRoom(m, h, source)
       case _ => true
  }

  /** What the class asks of its user: that, and to wrap a raw pointer at most once. */
  predicate Legal<H, B, P>(m: Memory<H, B, P>, op: Op<H, B, P>) {
    Roomy(m, op) && (op.Construct? && op.pointer.Some? ==> op.pointer.value !in m.wrapped)
  }

  predicate HasRoom<H, B, P>(m: Memory<H, B, P>, h: H, source: H)
    requires source in m.handles
  {
    m.handles[source].Some? ==> |Refs(m, m.handles[source].value) - {h}| + 1 < COUNTER_RANGE
  }

  function Step<H, B, P>(m: Memory<H, B, P>, op: Op<H, B, P>): Option<Memory<H, B, P>>
    requires WellScoped(m, op)
  {
    match op
    case Construct(h, pointer, block) => Some(DoConstruct(m, h, pointer, block))
    case CopyConstruct(h, source) => DoAcquire(m, h, m.handles[source])
    case Assign(h, source) => DoAssign(m, h, source)
    case Release(h) => DoRelease(m, h)
    case Destroy(h) => DoDestroy(m, h)
  }

  // ---------------------------------------------------------------- the invariant

  ghost predicate Inv<H, B, P>(m: Memory<H, B, P>) {
    Sound(m) && Apart(m) && Ledger(m)
  }

  /** The part that holds even if raw pointers are wrapped more than once. */
  ghost predicate Sound<H, B, P>(m: Memory<H, B, P>) {
    Attached(m) && Counters(m)
  }

  /** No handle dangles. */
  ghost predicate Attached<H, B, P>(m: Memory<H, B, P>) {
    forall h :: h in m.handles && m.handles[h].Some? ==> m.handles[h].value in m.blocks
  }

  /** Every counter is the number of live handles. */
  ghost predicate Counters<H, B, P>(m: Memory<H, B, P>) {
    forall b :: b in m.blocks ==> Counted(m, b)
  }

  /** Live blocks hold different pointees, all of them wrapped, and no live block was deleted. */
  ghost predicate Apart<H, B, P>(m: Memory<H, B, P>) {
    && (forall b :: b in m.blocks ==> m.blocks[b].pointer in m.wrapped && b !in m.deletedBlocks)
    && (forall b, c :: b in m.blocks && c in m.blocks && m.blocks[b].pointer == m.blocks[c].pointer ==> b == c)
  }

  /** A block is deleted at most once; a pointee exactly once, and exactly when no block owns it. */
  ghost predicate Ledger<H, B, P>(m: Memory<H, B, P>) {
    && (forall b :: b in m.deletedBlocks ==> m.deletedBlocks[b] == 1)
    && (forall p :: p in m.deletedPointees ==> p in m.wrapped)
    && (forall p :: p in m.wrapped ==> m.deletedPointees[p] == if Owned(m, p) then 0 else 1)
  }

  ghost predicate Counted<H, B, P>(m: Memory<H, B, P>, b: B)
    requires b in m.blocks
  {
    m.blocks[b].counter == |Refs(m, b)| && 0 < m.blocks[b].counter < COUNTER_RANGE
  }

  // ---------------------------------------------------------------- every step keeps it

  /** Detaching `h` from its block: the counter of that block still matches its handles, or the block
      and its pointee go away together. */
  lemma ReleaseKeepsSound<H, B, P>(m: Memory<H, B, P>, h: H)
    requires Sound(m) && h in m.handles
    ensures DoRelease(m, h).Some?
    ensures var m' := DoRelease(m, h).value; Sound(m') && Detached(m, m', h)
  {
    if m.handles[h].Some? {
      assert m.handles[h].value in m.blocks;
      assert Counted(m, m.handles[h].value);
      if m.blocks[m.handles[h].value].counter == 1 { ReleaseLast(m, h); } else { ReleaseShared(m, h); }
    } else {
      assert m.handles == m.handles[h := None];
      forall c | c in m.blocks ensures Refs(m, c) - {h} == Refs(m, c) { }
    }
  }

  lemma ReleaseKeepsInv<H, B, P>(m: Memory<H, B, P>, h: H)
    requires Inv(m) && h in m.handles
    ensures DoRelease(m, h).Some?
    ensures var m' := DoRelease(m, h).value; Inv(m') && Detached(m, m', h)
  {
    ReleaseKeepsSound(m, h);
    if m.handles[h].Some? && m.blocks[m.handles[h].value].counter == 1 {
      ReleaseKeepsLedger(m, h);
    } else {
      LedgerUnchanged(m, DoRelease(m, h).value);
    }
  }

  lemma ReleaseKeepsLedger<H, B, P>(m: Memory<H, B, P>, h: H)
    requires Inv(m) && h in m.handles && m.handles[h].Some? && m.handles[h].value in m.blocks
    requires m.blocks[m.handles[h].value].counter == 1
    ensures var m' := DoRelease(m, h).value; Apart(m') && Ledger(m')
  {
    var m' := DoRelease(m, h).value;
    var b := m.handles[h].value;
    forall p | p in m'.wrapped ensures m'.deletedPointees[p] == if Owned(m', p) then 0 else 1 {
      OwnedAfterDelete(m, m', b, p);
      assert p == m.blocks[b].pointer ==> Owned(m, p);
    }
  }

  /** `m'` is `m` with `h` set to null, and with every block kept that another handle refers to. */
  ghost predicate Detached<H, B, P>(m: Memory<H, B, P>, m': Memory<H, B, P>, h: H) {
    && m'.handles == m.handles[h := None]
    && m'.wrapped == m.wrapped
    && (forall b :: b in m'.blocks ==> b in m.blocks && Refs(m', b) == Refs(m, b) - {h})
    && (forall b :: b in m.blocks && Refs(m, b) - {h} != {} ==> b in m'.blocks)
  }

  lemma RefsDetached<H, B, P>(m: Memory<H, B, P>, m': Memory<H, B, P>, h: H, b: B)
    requires m'.handles == m.handles[h := None]
    ensures Refs(m', b) == Refs(m, b) - {h}
  { }

  lemma ReleaseLast<H, B, P>(m: Memory<H, B, P>, h: H)
    requires Sound(m) && h in m.handles && m.handles[h].Some? && m.handles[h].value in m.blocks
    requires m.blocks[m.handles[h].value].counter == 1
    ensures var m' := DoRelease(m, h).value; Sound(m') && Detached(m, m', h)
  {
    var m' := DoRelease(m, h).value;
    var b := m.handles[h].value;
    assert Refs(m, b) == {h} by { assert Counted(m, b) && h in Refs(m, b); SingletonOf(Refs(m, b), h); }
    forall c ensures Refs(m', c) == Refs(m, c) - {h} { RefsDetached(m, m', h, c); }
    assert Attached(m') by {
      forall g | g in m'.handles && m'.handles[g].Some? ensures m'.handles[g].value in m'.blocks {
        assert g in Refs(m, m.handles[g].value);
      }
    }
    assert Counters(m') by {
      forall c | c in m'.blocks ensures Counted(m', c) {
        assert c in m.blocks && Counted(m, c);
        assert h !in Refs(m, c);
        assert Refs(m, c) - {h} == Refs(m, c);
      }
    }
  }

  lemma ReleaseShared<H, B, P>(m: Memory<H, B, P>, h: H)
    requires Sound(m) && h in m.handles && m.handles[h].Some? && m.handles[h].value in m.blocks
    requires m.blocks[m.handles[h].value].counter > 1
    ensures var m' := DoRelease(m, h).value; Sound(m') && Detached(m, m', h)
  {
    var m' := DoRelease(m, h).value;
    var b := m.handles[h].value;
    forall c ensures Refs(m', c) == Refs(m, c) - {h} { RefsDetached(m, m', h, c); }
    assert Counters(m') by {
      forall c | c in m'.blocks ensures Counted(m', c) {
        assert c in m.blocks && Counted(m, c);
        if c == b {
          assert h in Refs(m, b);
        } else {
          assert h !in Refs(m, c);
          assert Refs(m, c) - {h} == Refs(m, c);
        }
      }
    }
  }

  /** The ledger only looks at which blocks are alive and what they hold. */
  lemma LedgerUnchanged<H, B, P>(m: Memory<H, B, P>, m': Memory<H, B, P>)
    requires Apart(m) && Ledger(m)
    requires m'.wrapped == m.wrapped && m'.deletedBlocks == m.deletedBlocks && m'.deletedPointees == m.deletedPointees
    requires m.blocks.Keys == m'.blocks.Keys
    requires forall b :: b in m.blocks ==> m.blocks[b].pointer == m'.blocks[b].pointer
    ensures Apart(m') && Ledger(m')
  { }

  lemma SingletonOf<T>(s: set<T>, x: T)
    requires x in s && |s| == 1
    ensures s == {x}
  {
    assert |s - {x}| == 0;
    assert s == {x} + (s - {x});
  }

  lemma OwnedAfterDelete<H, B, P>(m: Memory<H, B, P>, m': Memory<H, B, P>, b: B, p: P)
    requires b in m.blocks && m'.blocks == m.blocks - {b}
    requires forall b, c :: b in m.blocks && c in m.blocks && m.blocks[b].pointer == m.blocks[c].pointer ==> b == c
    ensures Owned(m', p) <==> Owned(m, p) && p != m.blocks[b].pointer
  {
    if Owned(m, p) && p != m.blocks[b].pointer {
      var c :| c in m.blocks && m.blocks[c].pointer == p;
      assert c in m'.blocks && m'.blocks[c].pointer == p;
    }
    if Owned(m', p) {
      var c :| c in m'.blocks && m'.blocks[c].pointer == p;
      assert c in m.blocks && c != b && m.blocks[c].pointer == p;
    }
  }

  /** Pointing the unattached (or not yet existing) handle `h` at a live block that has room. */
  lemma AcquireKeepsInv<H, B, P>(m: Memory<H, B, P>, h: H, target: Option<B>)
    requires Inv(m)
    requires h in m.handles ==> m.handles[h] == None
    requires target.Some? ==> target.value in m.blocks && |Refs(m, target.value)| + 1 < COUNTER_RANGE
    ensures DoAcquire(m, h, target).Some? && Inv(DoAcquire(m, h, target).value)
  {
    AcquireKeepsSound(m, h, target);
    LedgerUnchanged(m, DoAcquire(m, h, target).value);
  }

  lemma AcquireKeepsSound<H, B, P>(m: Memory<H, B, P>, h: H, target: Option<B>)
    requires Sound(m)
    requires h in m.handles ==> m.handles[h] == None
    requires target.Some? ==> target.value in m.blocks && |Refs(m, target.value)| + 1 < COUNTER_RANGE
    ensures DoAcquire(m, h, target).Some? && Sound(DoAcquire(m, h, target).value)
  {
    AcquireKeepsCounters(m, DoAcquire(m, h, target).value, h, target);
  }

  lemma AcquireKeepsCounters<H, B, P>(m: Memory<H, B, P>, m': Memory<H, B, P>, h: H, target: Option<B>)
    requires Counters(m)
    requires h in m.handles ==> m.handles[h] == None
    requires target.Some? ==> target.value in m.blocks && |Refs(m, target.value)| + 1 < COUNTER_RANGE
    requires DoAcquire(m, h, target) == Some(m')
    ensures Counters(m')
  {
    forall b | b in m'.blocks ensures Counted(m', b) {
      assert b in m.blocks && Counted(m, b);
      assert h !in Refs(m, b);
      RefsAcquired(m, m', h, target, b);
    }
  }

  lemma RefsAcquired<H, B, P>(m: Memory<H, B, P>, m': Memory<H, B, P>, h: H, target: Option<B>, b: B)
    requires h in m.handles ==> m.handles[h] == None
    requires m'.handles == m.handles[h := target]
    ensures Refs(m', b) == if target == Some(b) then Refs(m, b) + {h} else Refs(m, b)
  { }

  lemma ConstructKeepsInv<H, B, P>(m: Memory<H, B, P>, h: H, pointer: Option<P>, block: B)
    requires Inv(m) && Legal(m, Construct(h, pointer, block))
    ensures Inv(DoConstruct(m, h, pointer, block))
  {
    var m' := DoConstruct(m, h, pointer, block);
    ConstructKeepsSound(m, h, pointer, block);
    if pointer.Some? {
      forall q | q in m'.wrapped ensures Owned(m', q) <==> (q == pointer.value || Owned(m, q)) {
        OwnedAfterConstruct(m, m', block, pointer.value, q);
      }
    } else {
      LedgerUnchanged(m, m');
    }
  }

  lemma ConstructKeepsSound<H, B, P>(m: Memory<H, B, P>, h: H, pointer: Option<P>, block: B)
    requires Sound(m) && WellScoped(m, Construct(h, pointer, block))
    ensures Sound(DoConstruct(m, h, pointer, block))
  {
    var m' := DoConstruct(m, h, pointer, block);
    forall b | b in m.blocks ensures Refs(m', b) == Refs(m, b) { }
    if pointer.Some? {
      forall g | g in m.handles ensures m.handles[g] != Some(block) { }
      assert Refs(m', block) == {h};
    }
    forall b | b in m'.blocks ensures Counted(m', b) { if b in m.blocks { assert Counted(m, b); } }
  }

  lemma OwnedAfterConstruct<H, B, P>(m: Memory<H, B, P>, m': Memory<H, B, P>, block: B, p: P, q: P)
    requires block !in m.blocks && m'.blocks == m.blocks[block := Block(p, 1)]
    ensures Owned(m', q) <==> (q == p || Owned(m, q))
  {
    if q == p { assert block in m'.blocks && m'.blocks[block].pointer == q; }
    if Owned(m, q) {
      var b :| b in m.blocks && m.blocks[b].pointer == q;
      assert b in m'.blocks && m'.blocks[b].pointer == q;
    }
  }

  /** Between the two halves of an assignment the block to be shared is still there. */
  lemma SourceStays<H, B, P>(m: Memory<H, B, P>, m1: Memory<H, B, P>, h: H, source: H)
    requires Sound(m) && h in m.handles && source in m.handles && h != source && Detached(m, m1, h)
    requires HasRoom(m, h, source)
    ensures var target := m.handles[source];
            target.Some? ==> target.value in m1.blocks && |Refs(m1, target.value)| + 1 < COUNTER_RANGE
  {
    var target := m.handles[source];
    if target.Some? {
      assert target.value in m.blocks;
      assert source in Refs(m, target.value) - {h};
      assert target.value in m1.blocks;
    }
  }

  lemma AssignKeepsInv<H, B, P>(m: Memory<H, B, P>, h: H, source: H)
    requires Inv(m) && Legal(m, Assign(h, source)) && h != source
    ensures DoAssign(m, h, source).Some? && Inv(DoAssign(m, h, source).value)
  {
    ReleaseKeepsInv(m, h);
    SourceStays(m, DoRelease(m, h).value, h, source);
    AcquireKeepsInv(DoRelease(m, h).value, h, m.handles[source]);
  }

  lemma DestroyKeepsInv<H, B, P>(m: Memory<H, B, P>, h: H)
    requires Inv(m) && h in m.handles
    ensures DoDestroy(m, h).Some? && Inv(DoDestroy(m, h).value)
  {
    ReleaseKeepsInv(m, h);
    DestroyKeepsSound(m, h);
    LedgerUnchanged(DoRelease(m, h).value, DoDestroy(m, h).value);
  }

  lemma DestroyKeepsSound<H, B, P>(m: Memory<H, B, P>, h: H)
    requires Sound(m) && h in m.handles
    ensures DoDestroy(m, h).Some? && Sound(DoDestroy(m, h).value)
  {
    ReleaseKeepsSound(m, h);
    var m1 := DoRelease(m, h).value;
    var m2 := m1.(handles := m1.handles - {h});
    forall b | b in m2.blocks ensures Counted(m2, b) {
      assert Counted(m1, b);
      assert Refs(m2, b) == Refs(m1, b);
    }
  }

  /** One legal operation never touches a deleted block and keeps the invariant. */
  lemma StepKeepsInv<H, B, P>(m: Memory<H, B, P>, op: Op<H, B, P>)
    requires Inv(m) && Legal(m, op)
    ensures Step(m, op).Some? && Inv(Step(m, op).value)
  {
    match op
    case Construct(h, pointer, block) => ConstructKeepsInv(m, h, pointer, block);
    case CopyConstruct(h, source) =>
      if m.handles[source].Some? {
        var b := m.handles[source].value;
        assert b in m.blocks;
        assert Refs(m, b) - {h} == Refs(m, b);
      }
      AcquireKeepsInv(m, h, m.handles[source]);
    case Assign(h, source) => if h != source { AssignKeepsInv(m, h, source); }
    case Release(h) => ReleaseKeepsInv(m, h);
    case Destroy(h) => DestroyKeepsInv(m, h);
  }

  // ---------------------------------------------------------------- where the handles lead

  /** Handle `g` is alive and leads to pointee `p`. */
  ghost predicate Leads<H, B, P>(m: Memory<H, B, P>, g: H, p: P) {
    g in m.handles && Holds(m, g, p)
  }

  /** After an assignment, as after copying, both handles refer to the block the source refers to; no other
      handle is changed. */
  lemma HandlesAfter<H, B, P>(m: Memory<H, B, P>, op: Op<H, B, P>)
    requires Inv(m) && Legal(m, op)
    ensures Step(m, op).Some?
    ensures Step(m, op).value.handles ==
            match op
            case Construct(h, pointer, block) => m.handles[h := if pointer.Some? then Some(block) else None]
            case CopyConstruct(h, source) => m.handles[h := m.handles[source]]
            case Assign(h, source) => m.handles[h := m.handles[source]]
            case Release(h) => m.handles[h := None]
            case Destroy(h) => m.handles - {h}
  {
    StepHasResult(m, op);
    match op
    case Assign(h, source) => HandlesAfterRelease(m, h); HandlesAfterAssign(m, h, source);
    case Release(h) => HandlesAfterRelease(m, h);
    case Destroy(h) => HandlesAfterRelease(m, h); Overwritten(m.handles, h, None, None);
    case _ =>
  }

  lemma StepHasResult<H, B, P>(m: Memory<H, B, P>, op: Op<H, B, P>)
    requires Inv(m) && Legal(m, op)
    ensures Step(m, op).Some?
  {
    StepKeepsInv(m, op);
  }

  /** When `h` has been released, the block of another handle is still there. */
  lemma OtherBlockStays<H, B, P>(m: Memory<H, B, P>, h: H, source: H)
    requires Inv(m) && h in m.handles && source in m.handles && h != source
    ensures DoRelease(m, h).Some?
    ensures var m1 := DoRelease(m, h).value;
            && source in m1.handles && m1.handles[source] == m.handles[source]
            && (m.handles[source].Some? ==> m.handles[source].value in m1.blocks)
  {
    ReleaseKeepsInv(m, h);
    if m.handles[source].Some? { assert source in Refs(m, m.handles[source].value) - {h}; }
  }

  lemma Overwritten<K, V>(m: map<K, V>, k: K, v: V, w: V)
    ensures m[k := v][k := w] == m[k := w] && m[k := v] - {k} == m - {k}
    ensures k in m ==> m[k := m[k]] == m
  { }

  lemma HandlesAfterRelease<H, B, P>(m: Memory<H, B, P>, h: H)
    requires Inv(m) && h in m.handles
    ensures DoRelease(m, h).Some? && DoRelease(m, h).value.handles == m.handles[h := None]
  {
    ReleaseKeepsInv(m, h);
  }

  lemma HandlesAfterAssign<H, B, P>(m: Memory<H, B, P>, h: H, source: H)
    requires h in m.handles && source in m.handles && DoAssign(m, h, source).Some?
    requires DoRelease(m, h).Some? && DoRelease(m, h).value.handles == m.handles[h := None]
    ensures DoAssign(m, h, source).value.handles == m.handles[h := m.handles[source]]
  {
    Overwritten(m.handles, h, None, m.handles[source]);
  }

  /** No block that is still there comes to hold another pointee. */
  lemma PointersStay<H, B, P>(m: Memory<H, B, P>, op: Op<H, B, P>, b: B)
    requires WellScoped(m, op) && Step(m, op).Some?
    requires b in Step(m, op).value.blocks && b in m.blocks && !(op.Construct? && op.block == b)
    ensures Step(m, op).value.blocks[b].pointer == m.blocks[b].pointer
  { }

  /** Which handle leads to which pointee after an operation: the target of an assignment or a copy leads where
      its source did, a new handle to the pointer it wraps, a released one nowhere, and all others where they
      did before. */
  lemma LeadsAfter<H, B, P>(m: Memory<H, B, P>, op: Op<H, B, P>, g: H, p: P)
    requires Inv(m) && Legal(m, op)
    ensures Step(m, op).Some?
    ensures Leads(Step(m, op).value, g, p) <==>
            match op
            case Construct(h, pointer, _) => if g == h then pointer == Some(p) else Leads(m, g, p)
            case CopyConstruct(h, source) => Leads(m, if g == h then source else g, p)
            case Assign(h, source) => Leads(m, if g == h then source else g, p)
            case Release(h) => g != h && Leads(m, g, p)
            case Destroy(h) => g != h && Leads(m, g, p)
  {
    HandlesAfter(m, op);
    StepKeepsInv(m, op);
    var m' := Step(m, op).value;
    if g in m'.handles && m'.handles[g].Some? {
      var b := m'.handles[g].value;
      assert b in m'.blocks;
      if !(op.Construct? && op.h == g) { BlockWasThere(m, op, g); PointersStay(m, op, b); }
    }
  }

  /** The block a handle refers to after the operation was there before, unless it is a new one. */
  lemma BlockWasThere<H, B, P>(m: Memory<H, B, P>, op: Op<H, B, P>, g: H)
    requires Inv(m) && Legal(m, op) && Step(m, op).Some?
    requires g in Step(m, op).value.handles && Step(m, op).value.handles[g].Some? && !(op.Construct? && op.h == g)
    ensures Step(m, op).value.handles[g].value in m.blocks
    ensures !(op.Construct? && op.block == Step(m, op).value.handles[g].value)
  {
    HandlesAfter(m, op);
  }

  // ---------------------------------------------------------------- whole runs

  function Run<H, B, P>(m: Memory<H, B, P>, ops: seq<Op<H, B, P>>): Option<Memory<H, B, P>>
    decreases |ops|
  {
    if ops == [] then Some(m)
    else if !WellScoped(m, ops[0]) then None
    else
      match Step(m, ops[0])
      case None => None
      case Some(m1) => Run(m1, ops[1..])
  }

  ghost predicate LegalRun<H, B, P>(m: Memory<H, B, P>, ops: seq<Op<H, B, P>>)
    decreases |ops|
  {
    ops != [] ==>
      && Legal(m, ops[0])
      && (Step(m, ops[0]).Some? ==> LegalRun(Step(m, ops[0]).value, ops[1..]))
  }

  lemma {:induction false} RunKeepsInv<H, B, P>(m: Memory<H, B, P>, ops: seq<Op<H, B, P>>)
    requires Inv(m) && LegalRun(m, ops)
    ensures Run(m, ops).Some? && Inv(Run(m, ops).value)
    decreases |ops|
  {
    if ops != [] {
      StepKeepsInv(m, ops[0]);
      RunKeepsInv(Step(m, ops[0]).value, ops[1..]);
    }
  }

  /** Safety over whole runs: from nothing, every legal run completes without touching a deleted block;
      afterwards every counter equals its number of handles, and a wrapped pointee has been deleted
      exactly once if no live handle leads to it any more and not at all otherwise. */
  lemma RunsAreSafe<H, B, P>(ops: seq<Op<H, B, P>>)
    requires LegalRun(Empty(), ops)
    ensures Run(Empty(), ops).Some?
    ensures var m := Run(Empty(), ops).value;
            && (forall b :: b in m.blocks ==> m.blocks[b].counter == |Refs(m, b)|)
            && (forall b :: b in m.deletedBlocks ==> m.deletedBlocks[b] == 1 && b !in m.blocks)
            && (forall p :: p in m.wrapped ==> m.deletedPointees[p] == if Reachable(m, p) then 0 else 1)
  {
    RunKeepsInv(Empty<H, B, P>(), ops);
    var m := Run(Empty<H, B, P>(), ops).value;
    forall b | b in m.blocks ensures m.blocks[b].counter == |Refs(m, b)| { assert Counted(m, b); }
    forall p | p in m.wrapped ensures m.deletedPointees[p] == if Reachable(m, p) then 0 else 1 {
      OwnedIffReachable(m, p);
    }
  }

  lemma OwnedIffReachable<H, B, P>(m: Memory<H, B, P>, p: P)
    requires Inv(m)
    ensures Owned(m, p) <==> Reachable(m, p)
  { }

  /** A pointee is deleted by exactly the operation that takes its last handle away. */
  lemma DeletedWhenTheLastHandleLeaves<H, B, P>(m: Memory<H, B, P>, op: Op<H, B, P>, p: P)
    requires Inv(m) && Legal(m, op) && p in m.wrapped
    ensures Step(m, op).Some?
    ensures var m' := Step(m, op).value;
            m'.deletedPointees[p] > m.deletedPointees[p] <==> Reachable(m, p) && !Reachable(m', p)
    ensures var m' := Step(m, op).value; !Reachable(m, p) ==> !Reachable(m', p)
  {
    StepKeepsInv(m, op);
    var m' := Step(m, op).value;
    WrappedGrows(m, op);
    OwnedIffReachable(m, p);
    OwnedIffReachable(m', p);
    if m.deletedPointees[p] == 1 { DeletionsGrow(m, op, p); }
  }

  lemma WrappedGrows<H, B, P>(m: Memory<H, B, P>, op: Op<H, B, P>)
    requires WellScoped(m, op) && Step(m, op).Some?
    ensures m.wrapped <= Step(m, op).value.wrapped
  { }

  lemma DeletionsGrow<H, B, P>(m: Memory<H, B, P>, op: Op<H, B, P>, p: P)
    requires WellScoped(m, op) && Step(m, op).Some?
    ensures m.deletedPointees[p] <= Step(m, op).value.deletedPointees[p]
  { }

  /** Nothing leaks: once the last handle is destroyed no block is left, and every wrapped pointee has
      been deleted exactly once. */
  lemma NoHandlesNoLeaks<H, B, P>(ops: seq<Op<H, B, P>>)
    requires LegalRun(Empty(), ops)
    requires Run(Empty(), ops).Some? ==> Run(Empty(), ops).value.handles == map[]
    ensures Run(Empty(), ops).Some?
    ensures var m := Run(Empty(), ops).value;
            m.blocks == map[] && forall p :: p in m.wrapped ==> m.deletedPointees[p] == 1
  {
    RunKeepsInv(Empty<H, B, P>(), ops);
    var m := Run(Empty<H, B, P>(), ops).value;
    assert forall b :: b in m.blocks ==> Counted(m, b) && Refs(m, b) == {};
    assert m.blocks.Keys == {};
  }

  // ---------------------------------------------------------------- where the promise ends

  /** Copying keeps the invariant if and only if the block has fewer than 2^32 - 1 handles: with one
      more the uint32_t counter wraps to 0 while handles still refer to the block. */
  lemma CopyIsSafeIffThereIsRoom<H, B, P>(m: Memory<H, B, P>, h: H, source: H)
    requires Inv(m) && h !in m.handles && source in m.handles && m.handles[source].Some?
    ensures DoAcquire(m, h, m.handles[source]).Some?
    ensures Inv(DoAcquire(m, h, m.handles[source]).value) <==> |Refs(m, m.handles[source].value)| < 0xFFFF_FFFF
  {
    var b := m.handles[source].value;
    assert b in m.blocks;
    assert Counted(m, b);
    assert Refs(m, b) - {h} == Refs(m, b);
    var m' := DoAcquire(m, h, Some(b)).value;
    if HasRoom(m, h, source) {
      AcquireKeepsInv(m, h, Some(b));
    } else {
      assert m'.blocks[b].counter == 0;
      assert !Counted(m', b);
    }
  }

  // ---------------------------------------------------------------- wrapping more than once

  /** The live blocks that hold pointee `p`. */
  function Owners<H, B, P>(m: Memory<H, B, P>, p: P): set<B> {
    set b | b in m.blocks && m.blocks[b].pointer == p
  }

  /** How often `p` was deleted and will be deleted by the blocks alive now. */
  function Deletions<H, B, P>(m: Memory<H, B, P>, p: P): nat {
    m.deletedPointees[p] + |Owners(m, p)|
  }

  ghost predicate IsWrap<H, B, P>(op: Op<H, B, P>, p: P) {
    op.Construct? && op.pointer == Some(p)
  }

  /** How often these operations wrap `p`. */
  ghost function Wraps<H, B, P>(ops: seq<Op<H, B, P>>, p: P): nat {
    if ops == [] then 0 else (if IsWrap(ops[0], p) then 1 else 0) + Wraps(ops[1..], p)
  }

  lemma SameBlocksSameDeletions<H, B, P>(m: Memory<H, B, P>, m': Memory<H, B, P>, p: P)
    requires m.blocks.Keys == m'.blocks.Keys && m'.deletedPointees == m.deletedPointees
    requires forall b :: b in m.blocks ==> m.blocks[b].pointer == m'.blocks[b].pointer
    ensures Deletions(m', p) == Deletions(m, p)
  {
    assert Owners(m', p) == Owners(m, p);
  }

  lemma ReleaseConserves<H, B, P>(m: Memory<H, B, P>, h: H, p: P)
    requires Sound(m) && h in m.handles
    ensures DoRelease(m, h).Some? && Deletions(DoRelease(m, h).value, p) == Deletions(m, p)
  {
    ReleaseKeepsSound(m, h);
    if m.handles[h].Some? && m.blocks[m.handles[h].value].counter == 1 {
      DeleteConserves(m, DoRelease(m, h).value, m.handles[h].value, p);
    } else {
      SameBlocksSameDeletions(m, DoRelease(m, h).value, p);
    }
  }

  lemma DeleteConserves<H, B, P>(m: Memory<H, B, P>, m': Memory<H, B, P>, b: B, p: P)
    requires b in m.blocks && m'.blocks == m.blocks - {b}
    requires m'.deletedPointees == m.deletedPointees + multiset{m.blocks[b].pointer}
    ensures Deletions(m', p) == Deletions(m, p)
  {
    assert Owners(m', p) == Owners(m, p) - {b};
    assert b in Owners(m, p) <==> m.blocks[b].pointer == p;
  }

  lemma ConstructConserves<H, B, P>(m: Memory<H, B, P>, h: H, pointer: Option<P>, block: B, p: P)
    requires WellScoped(m, Construct(h, pointer, block))
    ensures Deletions(DoConstruct(m, h, pointer, block), p) == Deletions(m, p) + if pointer == Some(p) then 1 else 0
  {
    var m' := DoConstruct(m, h, pointer, block);
    if pointer == Some(p) {
      assert Owners(m', p) == Owners(m, p) + {block};
    } else {
      assert Owners(m', p) == Owners(m, p);
    }
  }

  lemma AssignKeepsSound<H, B, P>(m: Memory<H, B, P>, h: H, source: H)
    requires Sound(m) && Roomy(m, Assign(h, source)) && h != source
    ensures DoAssign(m, h, source).Some? && Sound(DoAssign(m, h, source).value)
  {
    ReleaseKeepsSound(m, h);
    SourceStays(m, DoRelease(m, h).value, h, source);
    AcquireKeepsSound(DoRelease(m, h).value, h, m.handles[source]);
  }

  lemma AssignConserves<H, B, P>(m: Memory<H, B, P>, h: H, source: H, p: P)
    requires Sound(m) && Roomy(m, Assign(h, source)) && h != source
    requires DoAssign(m, h, source).Some?
    ensures Deletions(DoAssign(m, h, source).value, p) == Deletions(m, p)
  {
    ReleaseConserves(m, h, p);
    SameBlocksSameDeletions(DoRelease(m, h).value, DoAssign(m, h, source).value, p);
  }

  lemma CopyKeepsSound<H, B, P>(m: Memory<H, B, P>, h: H, source: H)
    requires Sound(m) && Roomy(m, CopyConstruct(h, source))
    ensures DoAcquire(m, h, m.handles[source]).Some? && Sound(DoAcquire(m, h, m.handles[source]).value)
  {
    if m.handles[source].Some? {
      var b := m.handles[source].value;
      assert b in m.blocks;
      assert Refs(m, b) - {h} == Refs(m, b);
    }
    AcquireKeepsSound(m, h, m.handles[source]);
  }

  lemma StepKeepsSound<H, B, P>(m: Memory<H, B, P>, op: Op<H, B, P>)
    requires Sound(m) && Roomy(m, op)
    ensures Step(m, op).Some? && Sound(Step(m, op).value)
  {
    match op
    case Construct(h, pointer, block) => ConstructKeepsSound(m, h, pointer, block);
    case CopyConstruct(h, source) => CopyKeepsSound(m, h, source);
    case Assign(h, source) => if h != source { AssignKeepsSound(m, h, source); }
    case Release(h) => ReleaseKeepsSound(m, h);
    case Destroy(h) => DestroyKeepsSound(m, h);
  }

  lemma DestroyConserves<H, B, P>(m: Memory<H, B, P>, h: H, p: P)
    requires Sound(m) && h in m.handles
    ensures DoDestroy(m, h).Some? && Sound(DoDestroy(m, h).value)
    ensures Deletions(DoDestroy(m, h).value, p) == Deletions(m, p)
  {
    DestroyKeepsSound(m, h);
    ReleaseConserves(m, h, p);
    SameBlocksSameDeletions(DoRelease(m, h).value, DoDestroy(m, h).value, p);
  }

  /** However often raw pointers were wrapped: an operation never touches a deleted block, and nothing but
      wrapping `p` once more changes how often it is deleted in the end. */
  lemma StepConserves<H, B, P>(m: Memory<H, B, P>, op: Op<H, B, P>, p: P)
    requires Sound(m) && Roomy(m, op)
    ensures Step(m, op).Some? && Sound(Step(m, op).value)
    ensures Deletions(Step(m, op).value, p) == Deletions(m, p) + if IsWrap(op, p) then 1 else 0
  {
    StepKeepsSound(m, op);
    match op
    case Construct(h, pointer, block) => ConstructConserves(m, h, pointer, block, p);
    case CopyConstruct(h, source) => SameBlocksSameDeletions(m, Step(m, op).value, p);
    case Assign(h, source) => if h != source { AssignConserves(m, h, source, p); }
    case Release(h) => ReleaseConserves(m, h, p);
    case Destroy(h) => DestroyConserves(m, h, p);
  }

  ghost predicate RoomyRun<H, B, P>(m: Memory<H, B, P>, ops: seq<Op<H, B, P>>)
    decreases |ops|
  {
    ops != [] ==>
      && Roomy(m, ops[0])
      && (Step(m, ops[0]).Some? ==> RoomyRun(Step(m, ops[0]).value, ops[1..]))
  }

  lemma {:induction false} RunConserves<H, B, P>(m: Memory<H, B, P>, ops: seq<Op<H, B, P>>, p: P)
    requires Sound(m) && RoomyRun(m, ops)
    ensures Run(m, ops).Some? && Sound(Run(m, ops).value)
    ensures Deletions(Run(m, ops).value, p) == Deletions(m, p) + Wraps(ops, p)
    decreases |ops|
  {
    if ops != [] {
      StepConserves(m, ops[0], p);
      RunConserves(Step(m, ops[0]).value, ops[1..], p);
    }
  }

  lemma OwnersReachable<H, B, P>(m: Memory<H, B, P>, p: P)
    requires Sound(m)
    ensures Owners(m, p) == {} <==> !Reachable(m, p)
  {
    if Owners(m, p) != {} {
      var b :| b in Owners(m, p);
      assert Counted(m, b);
      assert Refs(m, b) != {};
      var h :| h in Refs(m, b);
      assert Holds(m, h, p);
    }
    if Reachable(m, p) {
      var h :| h in m.handles && Holds(m, h, p);
      assert m.handles[h].value in Owners(m, p);
    }
  }

  /** The exact law, for every run that respects the counter limit: a pointee has been deleted as often as
      it was wrapped exactly when no handle leads to it any more, and less often before. */
  lemma DeletedAsOftenAsWrapped<H, B, P>(ops: seq<Op<H, B, P>>, p: P)
    requires RoomyRun(Empty(), ops)
    ensures Run(Empty(), ops).Some?
    ensures var m := Run(Empty(), ops).value;
            && m.deletedPointees[p] <= Wraps(ops, p)
            && (m.deletedPointees[p] == Wraps(ops, p) <==> !Reachable(m, p))
  {
    var m0 := Empty<H, B, P>();
    assert Owners(m0, p) == {};
    RunConserves(m0, ops, p);
    OwnersReachable(Run(m0, ops).value, p);
  }

  /** So the demand to wrap at most once is exactly what the promise needs: once all handles are gone,
      every pointee has been deleted at most once if and only if it was wrapped at most once. */
  lemma DeletedAtMostOnceIff<H, B, P>(ops: seq<Op<H, B, P>>, p: P)
    requires RoomyRun(Empty(), ops)
    requires Run(Empty(), ops).Some? ==> Run(Empty(), ops).value.handles == map[]
    ensures Run(Empty(), ops).Some?
    ensures Run(Empty(), ops).value.deletedPointees[p] <= 1 <==> Wraps(ops, p) <= 1
  {
    DeletedAsOftenAsWrapped(ops, p);
  }

  /** How often `p` may still be wrapped. */
  function Allowed<H, B, P>(m: Memory<H, B, P>, p: P): nat {
    if p in m.wrapped then 0 else 1
  }

  lemma WrappedAfter<H, B, P>(m: Memory<H, B, P>, op: Op<H, B, P>, p: P)
    requires WellScoped(m, op) && Step(m, op).Some?
    ensures p in Step(m, op).value.wrapped <==> p in m.wrapped || IsWrap(op, p)
  { }

  /** The legal runs are those that respect the counter limit and wrap nothing twice. */
  lemma {:induction false} LegalRunIff<H, B, P(!new)>(m: Memory<H, B, P>, ops: seq<Op<H, B, P>>)
    requires Sound(m) && RoomyRun(m, ops)
    ensures LegalRun(m, ops) <==> forall p: P :: Wraps(ops, p) <= Allowed(m, p)
    decreases |ops|
  {
    if ops != [] {
      StepKeepsSound(m, ops[0]);
      var m1 := Step(m, ops[0]).value;
      LegalRunIff(m1, ops[1..]);
      forall p: P ensures p in m1.wrapped <==> p in m.wrapped || IsWrap(ops[0], p) { WrappedAfter(m, ops[0], p); }
      if !Legal(m, ops[0]) { assert Wraps(ops, ops[0].pointer.value) > Allowed(m, ops[0].pointer.value); }
      if Legal(m, ops[0]) { AllowedAfter(m, m1, ops); }
    }
  }

  lemma AllowedAfter<H, B, P(!new)>(m: Memory<H, B, P>, m1: Memory<H, B, P>, ops: seq<Op<H, B, P>>)
    requires ops != [] && Legal(m, ops[0])
    requires forall p: P :: p in m1.wrapped <==> p in m.wrapped || IsWrap(ops[0], p)
    ensures (forall p: P :: Wraps(ops, p) <= Allowed(m, p)) <==> forall p: P :: Wraps(ops[1..], p) <= Allowed(m1, p)
  {
    forall p: P ensures Wraps(ops, p) <= Allowed(m, p) <==> Wraps(ops[1..], p) <= Allowed(m1, p) { }
  }

  /** Wrapping a raw pointer keeps the invariant if and only if it was not wrapped before. */
  lemma WrapIsSafeIff<H, B, P>(m: Memory<H, B, P>, h: H, p: P, block: B)
    requires Inv(m) && WellScoped(m, Construct(h, Some(p), block))
    ensures Inv(DoConstruct(m, h, Some(p), block)) <==> p !in m.wrapped
  {
    var m' := DoConstruct(m, h, Some(p), block);
    if p !in m.wrapped {
      ConstructKeepsInv(m, h, Some(p), block);
    } else {
      OwnedAfterConstruct(m, m', block, p, p);
      if Owned(m, p) {
        var b :| b in m.blocks && m.blocks[b].pointer == p;
        assert m'.blocks[b].pointer == m'.blocks[block].pointer && b != block;
      }
    }
  }

  function Destroys<H, B, P>(hs: seq<H>): (ops: seq<Op<H, B, P>>)
    ensures |ops| == |hs| && forall i :: 0 <= i < |hs| ==> ops[i] == Destroy(hs[i])
  {
    seq(|hs|, i requires 0 <= i < |hs| => Destroy(hs[i]))
  }

  /** Destroying some handles, each once, in any order: the others lead where they did. */
  lemma {:induction false} DestroyingRuns<H, B, P>(m: Memory<H, B, P>, hs: seq<H>, p: P)
    requires Sound(m) && (forall h :: h in hs ==> h in m.handles)
    requires forall i, j :: 0 <= i < j < |hs| ==> hs[i] != hs[j]
    ensures RoomyRun(m, Destroys(hs)) && Wraps(Destroys<H, B, P>(hs), p) == 0
    ensures Run(m, Destroys(hs)).Some?
    ensures var m' := Run(m, Destroys(hs)).value;
            forall h :: h in m'.handles && Holds(m', h, p) ==> h in m.handles && Holds(m, h, p) && h !in hs
    decreases |hs|
  {
    if hs != [] {
      DestroyConserves(m, hs[0], p);
      var m1 := DoDestroy(m, hs[0]).value;
      assert Destroys<H, B, P>(hs)[1..] == Destroys(hs[1..]);
      DestroyingRuns(m1, hs[1..], p);
      DestroyLeaves(m, hs[0], p);
    }
  }

  lemma DestroyLeaves<H, B, P>(m: Memory<H, B, P>, g: H, p: P)
    requires Sound(m) && g in m.handles && DoDestroy(m, g).Some?
    ensures var m' := DoDestroy(m, g).value;
            && m'.handles.Keys == m.handles.Keys - {g}
            && forall h :: h in m'.handles && Holds(m', h, p) ==> Holds(m, h, p)
  { }

  /** Once a raw pointer is wrapped again, destroying the handles that lead to it, in any order and with or
      without others, has deleted it twice: from any memory that was good before. */
  lemma WrappingTwiceDeletesTwice<H, B, P>(m: Memory<H, B, P>, h: H, p: P, block: B, hs: seq<H>)
    requires Inv(m) && WellScoped(m, Construct(h, Some(p), block)) && p in m.wrapped
    requires var m1 := DoConstruct(m, h, Some(p), block);
             && (forall g :: g in hs ==> g in m1.handles)
             && (forall g :: g in m1.handles && Holds(m1, g, p) ==> g in hs)
    requires forall i, j :: 0 <= i < j < |hs| ==> hs[i] != hs[j]
    ensures var r := Run(DoConstruct(m, h, Some(p), block), Destroys(hs)); r.Some? && r.value.deletedPointees[p] == 2
  {
    var m1 := DoConstruct(m, h, Some(p), block);
    ConstructKeepsSound(m, h, Some(p), block);
    ConstructConserves(m, h, Some(p), block, p);
    OneDeletion(m, p);
    DestroyingRuns(m1, hs, p);
    RunConserves(m1, Destroys(hs), p);
    OwnersReachable(Run(m1, Destroys(hs)).value, p);
  }

  /** In a good memory every wrapped pointee is deleted once, already or by its one block. */
  lemma OneDeletion<H, B, P>(m: Memory<H, B, P>, p: P)
    requires Inv(m) && p in m.wrapped
    ensures Deletions(m, p) == 1
  {
    if Owned(m, p) {
      var b :| b in m.blocks && m.blocks[b].pointer == p;
      assert Owners(m, p) == {b};
    } else {
      assert Owners(m, p) == {};
    }
  }
}

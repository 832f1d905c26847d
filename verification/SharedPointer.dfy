/**
 The reference-counting pointer class itself: handles and counting blocks are heap objects that its
 methods update in place. Every method is proved to do to the heap what the function of the same name
 in module `ReferenceCounting` does to a `Memory` value, so the theorems about runs apply to it.
 */
module SharedPointers {
  import opened Wrappers
  import opened ReferenceCounting

  newtype uint32 = x: int | 0 <= x < 0x1_0000_0000

  /** The counting block shared by all handles of one pointee. */
  class CountablePointer<T> {
    const pointer: T
    var counter: uint32

    constructor (pointer: T)
      ensures this.pointer == pointer && counter == 1
    {
      this.pointer := pointer;
      counter := 1;
    }
  }

  /** The allocator's view of handles, blocks and deletions. The program never looks at it; `Valid` ties
      it to the fields the program does use. */
  class Runtime<T(==)> {
    ghost var memory: Memory<SharedPointer<T>, CountablePointer<T>, T>

    constructor ()
      ensures memory == Empty() && Valid()
    {
      memory := Empty();
    }

    ghost predicate Valid()
      reads this, memory.handles.Keys, memory.blocks.Keys
    {
      && (forall h :: h in memory.handles ==> memory.handles[h] == h.Target())
      && (forall b :: b in memory.blocks ==> memory.blocks[b] == Block(b.pointer, b.counter as int))
    }
  }

  class SharedPointer<T(==)> {
    var countablePointer: CountablePointer?<T>

    ghost function Target(): Option<CountablePointer<T>>
      reads this
    {
      if countablePointer == null then None else Some(countablePointer)
    }

    /** Wraps a raw pointer (None for NULL) in a block of its own. */
    constructor (pointer: Option<T>, ghost rt: Runtime<T>)
      requires rt.Valid()
      modifies rt
      ensures rt.Valid() && this !in old(rt.memory.handles)
      ensures if pointer.None? then countablePointer == null
              else && countablePointer != null
                   && countablePointer.pointer == pointer.value && countablePointer.counter == 1
      ensures pointer.None? ==> rt.memory == old(rt.memory).(handles := old(rt.memory.handles)[this := None])
      ensures pointer.Some? ==>
                && countablePointer != null
                && WellScoped(old(rt.memory), Construct(this, pointer, countablePointer))
                && rt.memory == DoConstruct(old(rt.memory), this, pointer, countablePointer)
    {
      countablePointer := null;
      if pointer.Some? {
        countablePointer := new CountablePointer<T>(pointer.value);
      }
      new;
      if pointer.Some? {
        rt.memory := DoConstruct(rt.memory, this, pointer, countablePointer);
      } else {
        rt.memory := rt.memory.(handles := rt.memory.handles[this := None]);
      }
    }

    /** The copy constructor: afterwards both handles share the block. */
    constructor Copy(obj: SharedPointer<T>, ghost rt: Runtime<T>)
      requires rt.Valid() && obj in rt.memory.handles && Attached(rt.memory)
      modifies rt, rt.memory.blocks.Keys
      ensures countablePointer == obj.countablePointer == old(obj.countablePointer)
      ensures rt.Valid() && this !in old(rt.memory.handles)
      ensures Some(rt.memory) == DoAcquire(old(rt.memory), this, old(rt.memory.handles)[obj])
    {
      countablePointer := null;
      new;
      assert rt.memory.handles[obj] == obj.Target();
      Acquire(obj.countablePointer, rt);
    }

    /** True iff this handle leads to a live pointee. */
    method IsValid(ghost rt: Runtime<T>) returns (valid: bool)
      requires rt.Valid() && this in rt.memory.handles && Inv(rt.memory)
      ensures valid <==> exists p :: p in rt.memory.wrapped && Holds(rt.memory, this, p)
    {
      valid := countablePointer != null;
      assert rt.memory.handles[this] == Target();
      if valid {
        assert rt.memory.blocks[countablePointer].pointer == countablePointer.pointer;
        assert Holds(rt.memory, this, countablePointer.pointer);
      }
    }

    /** Takes this handle off its block and deletes pointee and block with the last handle. */
    method Release(ghost rt: Runtime<T>)
      requires rt.Valid() && this in rt.memory.handles && Attached(rt.memory)
      modifies this, rt, rt.memory.blocks.Keys
      ensures rt.Valid()
      ensures Some(rt.memory) == DoRelease(old(rt.memory), this)
    {
      assert rt.memory.handles[this] == Target();
      if countablePointer != null && countablePointer.counter > 0 {
        ghost var m, block := rt.memory, countablePointer;
        assert m.blocks[block] == Block(block.pointer, block.counter as int);
        countablePointer.counter := countablePointer.counter - 1;
        if countablePointer.counter == 0 {
          // The pointee and the block are deleted.
          rt.memory := m.(blocks := m.blocks - {block},
                          deletedPointees := m.deletedPointees + multiset{block.pointer},
                          deletedBlocks := m.deletedBlocks + multiset{block});
        } else {
          rt.memory := m.(blocks := m.blocks[block := Block(block.pointer, block.counter as int)]);
        }
        countablePointer := null;
        rt.memory := rt.memory.(handles := m.handles[this := None]);
      }
    }

    /** Refers to the given block (null for none) and counts itself there. */
    method Acquire(target: CountablePointer?<T>, ghost rt: Runtime<T>)
      requires rt.Valid()
      requires target != null ==> target in rt.memory.blocks
      modifies this, rt, rt.memory.blocks.Keys
      ensures rt.Valid() && countablePointer == target
      ensures Some(rt.memory) == DoAcquire(old(rt.memory), this, if target == null then None else Some(target))
    {
      ghost var after := DoAcquire(rt.memory, this, if target == null then None else Some(target));
      countablePointer := target;
      if countablePointer != null {
        assert rt.memory.blocks[target] == Block(target.pointer, target.counter as int);
        countablePointer.counter := if countablePointer.counter == 0xFFFF_FFFF then 0 else countablePointer.counter + 1;
      }
      rt.memory := after.value;
    }

    /** The assignment operator: afterwards both handles share the block of the source. */
    method Assign(obj: SharedPointer<T>, ghost rt: Runtime<T>)
      requires rt.Valid() && this in rt.memory.handles && obj in rt.memory.handles && Inv(rt.memory)
      modifies this, rt, rt.memory.blocks.Keys
      ensures rt.Valid()
      ensures countablePointer == obj.countablePointer == old(obj.countablePointer)
      ensures Some(rt.memory) == DoAssign(old(rt.memory), this, obj)
    {
      if this != obj {
        OtherBlockStays(rt.memory, this, obj);
        Release(rt);
        assert rt.memory.handles[obj] == obj.Target();
        Acquire(obj.countablePointer, rt);
      }
    }

    /** The destructor. */
    method Destroy(ghost rt: Runtime<T>)
      requires rt.Valid() && this in rt.memory.handles && Attached(rt.memory)
      modifies this, rt, rt.memory.blocks.Keys
      ensures rt.Valid()
      ensures Some(rt.memory) == DoDestroy(old(rt.memory), this)
    {
      Release(rt);
      rt.memory := rt.memory.(handles := rt.memory.handles - {this});
    }
  }
}

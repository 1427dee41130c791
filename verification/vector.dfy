/** `struct _vector` and the operations of src/vector/vector.c on it: a class whose
    fields are the struct's, proved against the value model in VectorSpec. */
module Vectors {
  import opened Memory
  import opened VectorSpec

  /** `sizeof(struct _vector)` on an LP64 target: three `size_t` and three pointers. */
  const VectorHeaderSize: nat := 48

  /** The allocator `vec_init` actually calls: the caller's pair when both are
      non-NULL, otherwise `malloc`/`free`. Neither is ever NULL. */
  function EffectiveFns(alloc: FnRef, dealloc: FnRef): (r: (FnRef, FnRef))
    ensures r.0 != NullFn && r.1 != NullFn
    ensures alloc != NullFn && dealloc != NullFn ==> r == (alloc, dealloc)
    ensures alloc == NullFn || dealloc == NullFn ==> r == (System, System)
  {
    if alloc == NullFn || dealloc == NullFn then (System, System) else (alloc, dealloc)
  }

  /** The pointers `vec_init` stores in the struct as written: the caller's own,
      even when they are NULL and `malloc`/`free` did the allocation. */
  function StoredFnsAsWritten(alloc: FnRef, dealloc: FnRef): (r: (FnRef, FnRef))
    ensures r == EffectiveFns(alloc, dealloc) <==> alloc != NullFn && dealloc != NullFn
    ensures alloc == NullFn ==> r.0 == NullFn
    ensures dealloc == NullFn ==> r.1 == NullFn
  {
    (alloc, dealloc)
  }

  /** With a NULL `alloc` and a caller's `dealloc`, the storage comes from `malloc`
      but the struct keeps NULL as its allocator (the next growth calls it) and the
      caller's function as its release function (which would free a `malloc` block). */
  lemma StoredAllocatorMayBeNull()
    ensures EffectiveFns(NullFn, Caller(1)) == (System, System)
    ensures StoredFnsAsWritten(NullFn, Caller(1)) == (NullFn, Caller(1))
  {
  }

  class Vector {
    var cap: nat
    var len: nat
    var elemSize: nat
    var alloc: FnRef
    var dealloc: FnRef
    var storage: array<Block>
    /** The heap block `storage` lives in, and the one the struct itself lives in. */
    var storageBlock: nat
    const structBlock: nat

    ghost function State(): VecState
      reads this, storage
    {
      VecState(cap, len, elemSize, storage[..])
    }

    ghost predicate Valid()
      reads this, storage
    {
      ValidState(State()) && alloc != NullFn && dealloc != NullFn
    }

    /** The vector's two blocks are live in `heap`, with the sizes it asked for. */
    ghost predicate Owns(heap: Heap)
      reads this, heap
    {
      && structBlock != storageBlock
      && structBlock in heap.live && heap.live[structBlock] == VectorHeaderSize
      && storageBlock in heap.live && heap.live[storageBlock] == cap * elemSize
    }

    /** The field assignments that end `vec_init`. */
    constructor Assemble(structBlock: nat, storage: array<Block>, storageBlock: nat,
                         elemSize: nat, alloc: FnRef, dealloc: FnRef)
      ensures this.structBlock == structBlock && this.storageBlock == storageBlock
      ensures this.storage == storage && this.elemSize == elemSize
      ensures this.alloc == alloc && this.dealloc == dealloc
      ensures cap == VecInitSize && len == 0
    {
      this.cap := VecInitSize;
      this.len := 0;
      this.elemSize := elemSize;
      this.alloc := alloc;
      this.dealloc := dealloc;
      this.storage := storage;
      this.storageBlock := storageBlock;
      this.structBlock := structBlock;
    }

    /** `vec_init(alloc, dealloc, elemSize)`; `structOk` and `storageOk` say whether
        the two allocations succeed. The result is NULL exactly when one fails, and
        then no block is left allocated. On success the vector is empty, has
        capacity 16 and zeroed storage of `16 * elemSize` bytes, and it keeps the
        allocator that was actually used. */
    static method Init(heap: Heap, alloc: FnRef, dealloc: FnRef, elemSize: nat,
                       structOk: bool, storageOk: bool) returns (v: Vector?)
      requires heap.Valid()
      modifies heap
      ensures heap.Valid()
      ensures var (a, d) := EffectiveFns(alloc, dealloc);
        && (v == null <==> !(structOk && storageOk))
        && (!structOk ==>
              heap.log == old(heap.log) + [Requested(a, VectorHeaderSize, Null)])
        && (structOk && !storageOk ==>
              heap.log == old(heap.log) + [Requested(a, VectorHeaderSize, Block(old(heap.next))),
                                           Requested(a, elemSize * VecInitSize, Null),
                                           Released(d, Block(old(heap.next)))])
        && (v == null ==> heap.live == old(heap.live))
        && (v != null ==>
              && fresh(v) && fresh(v.storage) && v.Valid() && v.Owns(heap)
              && v.State() == InitState(elemSize)
              && v.alloc == a && v.dealloc == d
              && heap.live == old(heap.live)[v.structBlock := VectorHeaderSize]
                                            [v.storageBlock := elemSize * VecInitSize]
              && heap.log == old(heap.log) + [Requested(a, VectorHeaderSize, Block(v.structBlock)),
                                              Requested(a, elemSize * VecInitSize, Block(v.storageBlock))])
    {
      var (a, d) := EffectiveFns(alloc, dealloc);
      var self := heap.Alloc(a, VectorHeaderSize, structOk);
      if self == Null {
        return null;
      }
      var block := heap.Alloc(a, elemSize * VecInitSize, storageOk);
      if block == Null {
        heap.Free(d, self);
        return null;
      }
      var buf := new Block[VecInitSize];
      Fill(buf, 0, VecInitSize, Zero(elemSize));
      v := new Vector.Assemble(self.id, buf, block.id, elemSize, a, d);
      assert v.storage[..] == InitState(elemSize).buf;
    }

    /** The growth step of `vec_insert`, taken when the vector is full: request
        `2 * cap * elemSize` bytes from the vector's allocator; if that fails nothing
        changes, otherwise the old slots are copied, the new half is zeroed, the
        capacity doubles and the old storage is released. */
    method Grow(heap: Heap, allocOk: bool) returns (grown: bool)
      requires Valid() && heap.Valid() && Owns(heap) && Full(State())
      modifies this, heap
      ensures Valid() && heap.Valid() && Owns(heap)
      ensures grown == allocOk
      ensures len == old(len) && elemSize == old(elemSize)
      ensures alloc == old(alloc) && dealloc == old(dealloc)
      ensures !grown ==> storage == old(storage) && cap == old(cap)
                         && storageBlock == old(storageBlock) && heap.live == old(heap.live)
                         && heap.log == old(heap.log) + [Requested(alloc, 2 * old(cap) * elemSize, Null)]
      ensures grown ==> fresh(storage) && cap == 2 * old(cap)
                        && storage[..] == old(storage[..]) + seq(old(cap), _ => Zero(old(elemSize)))
                        && storageBlock == old(heap.next)
                        && heap.live == (old(heap.live) - {old(storageBlock)})[storageBlock := cap * elemSize]
                        && heap.log == old(heap.log) + [Requested(alloc, cap * elemSize, Block(storageBlock)),
                                                        Released(dealloc, Block(old(storageBlock)))]
    {
      var newCap := 2 * cap;
      var p := heap.Alloc(alloc, newCap * elemSize, allocOk);
      if p == Null {
        return false;
      }
      var bigger := Enlarged(storage[..], elemSize);
      heap.Free(dealloc, Block(storageBlock));
      cap := newCap;
      storage, storageBlock := bigger, p.id;
      grown := true;
    }

    /** `vec_insert(vec, data, |data|)`; `allocOk` says whether the growth allocation
        succeeds when one is made. The new state is `InsertState` of the old one: a
        block of the wrong size or a failed growth changes nothing, otherwise `data`
        is appended. The only allocator traffic is that of `Grow`. */
    method Insert(heap: Heap, data: Block, allocOk: bool)
      requires Valid() && heap.Valid() && Owns(heap)
      modifies this, storage, heap
      ensures Valid() && heap.Valid() && Owns(heap)
      ensures State() == InsertState(old(State()), data, allocOk)
      ensures alloc == old(alloc) && dealloc == old(dealloc)
      ensures !(|data| == old(elemSize) && Full(old(State()))) ==>
        storage == old(storage) && storageBlock == old(storageBlock)
        && heap.live == old(heap.live) && heap.log == old(heap.log)
      ensures |data| == old(elemSize) && Full(old(State())) ==>
        heap.log == old(heap.log) + [Requested(alloc, 2 * old(cap) * elemSize,
                                               if allocOk then Block(storageBlock) else Null)]
                                  + (if allocOk then [Released(dealloc, Block(old(storageBlock)))] else [])
      ensures |data| == old(elemSize) && Full(old(State())) && allocOk ==>
        fresh(storage) && storageBlock == old(heap.next)
      ensures !(|data| == old(elemSize) && Full(old(State())) && allocOk) ==>
        storage == old(storage) && storageBlock == old(storageBlock)
      ensures |data| == old(elemSize) && Full(old(State())) ==>
        heap.live == if allocOk then (old(heap.live) - {old(storageBlock)})[storageBlock := cap * elemSize]
                     else old(heap.live)
    {
      if |data| != elemSize {
        return;
      }
      if len >= cap - 1 {
        var grown := Grow(heap, allocOk);
        if !grown {
          return;
        }
      }
      storage[len] := data;
      len := len + 1;
    }

    /** `vec_at(vec, i)`: the element at `i` when `i < len`, otherwise NULL. */
    function At(i: nat): (r: Option<Block>)
      reads this, storage
      requires Valid()
      ensures r == Lookup(State(), i)
    {
      if i >= len then None else Some(storage[i])
    }

    /** `vec_free(vec)`: the storage, then the struct, each handed once to the
        vector's release function. */
    method Free(heap: Heap)
      requires Valid() && heap.Valid() && Owns(heap)
      modifies heap
      ensures heap.Valid()
      ensures heap.live == old(heap.live) - {storageBlock, structBlock}
      ensures heap.log == old(heap.log) + [Released(dealloc, Block(storageBlock)),
                                           Released(dealloc, Block(structBlock))]
    {
      heap.Free(dealloc, Block(storageBlock));
      heap.Free(dealloc, Block(structBlock));
    }
  }

  /** The new storage of a growth: `memcpy` of the old slots into a buffer of twice
      as many, then `memset` of the upper half to zero. */
  method Enlarged(prev: seq<Block>, elemSize: nat) returns (bigger: array<Block>)
    ensures fresh(bigger)
    ensures bigger[..] == prev + seq(|prev|, _ => Zero(elemSize))
  {
    bigger := new Block[2 * |prev|];
    Copy(bigger, 0, prev, |prev|);
    Fill(bigger, |prev|, 2 * |prev|, Zero(elemSize));
    assert bigger[..] == prev + seq(|prev|, _ => Zero(elemSize));
  }

  /** `vec_size(vec)`: the number of elements, 0 for NULL. */
  function Size(v: Vector?): (n: nat)
    reads if v == null then {} else {v, v.storage}
    requires v != null ==> v.Valid()
    ensures v == null ==> n == 0
    ensures v != null ==> n == |Contents(v.State())|
  {
    if v == null then 0 else v.len
  }

  /** `vec_elem_size(vec)`: the size of every element, 0 for NULL. */
  function ElemSize(v: Vector?): (n: nat)
    reads if v == null then {} else {v, v.storage}
    requires v != null ==> v.Valid()
    ensures v == null ==> n == 0
    ensures v != null ==> n == v.State().elemSize
    ensures v != null ==> forall i :: 0 <= i < |Contents(v.State())| ==> |Contents(v.State())[i]| == n
  {
    if v == null then 0 else v.elemSize
  }

  /** The scenario of test/test_vec.c: a vector of `int` (four bytes, little-endian)
      over `malloc`/`free`, one push of 3; the element at 0 is 3 and the size is 1. */
  method PushThreeScenario() returns (first: Option<Block>, size: nat)
    ensures first == Some([3, 0, 0, 0]) && size == 1
  {
    var heap := new Heap();
    var v := Vector.Init(heap, System, System, 4, true, true);
    v.Insert(heap, [3, 0, 0, 0], true);
    first := v.At(0);
    size := Size(v);
  }
}

/** The pair record of src/map/map.c (copied verbatim in src/htab/htab.c): one heap
    block holding a `struct pair` header, then the key bytes, then the value bytes. */
module Pairs {
  import opened Memory

  /** `sizeof(struct pair)` on an LP64 target: two pointers and two `size_t`. */
  const PairHeaderSize: nat := 32

  /** The `const` fields of `struct map` that a pair depends on. As a datatype value
      it cannot change after construction, as its `const` qualifiers promise. The
      `table` field is never read and is not part of this model. */
  datatype Map = Map(alloc: FnRef, dealloc: FnRef, hash: FnRef, keyLen: nat, valLen: nat)

  /** The size `pair_init` asks the map's allocator for. */
  function BlockSize(m: Map): nat
  {
    m.keyLen + m.valLen + PairHeaderSize
  }

  /** The bytes `pair_init` writes after the header: `keyLen` bytes of the key,
      then `valLen` bytes of the value. */
  function Payload(m: Map, k: seq<byte>, v: seq<byte>): (r: seq<byte>)
    requires |k| >= m.keyLen && |v| >= m.valLen
    ensures PairHeaderSize + |r| == BlockSize(m)
  {
    k[..m.keyLen] + v[..m.valLen]
  }

  /** The key region of a block: `keyLen` bytes right after the header. */
  function KeyRegion(block: seq<byte>, keyLen: nat): seq<byte>
    requires PairHeaderSize + keyLen <= |block|
  {
    block[PairHeaderSize..PairHeaderSize + keyLen]
  }

  /** The value region of a block: `valLen` bytes right after the key region. */
  function ValueRegion(block: seq<byte>, keyLen: nat, valLen: nat): seq<byte>
    requires PairHeaderSize + keyLen + valLen <= |block|
  {
    block[PairHeaderSize + keyLen..PairHeaderSize + keyLen + valLen]
  }

  /** Whatever the header holds, a block laid out by `pair_init` is exactly
      `BlockSize` bytes, and reading its key and value regions back gives the key and
      value that were copied in. */
  lemma LayoutRoundTrip(m: Map, header: seq<byte>, k: seq<byte>, v: seq<byte>)
    requires |header| == PairHeaderSize && |k| >= m.keyLen && |v| >= m.valLen
    ensures var b := header + Payload(m, k, v);
      && |b| == BlockSize(m)
      && KeyRegion(b, m.keyLen) == k[..m.keyLen]
      && ValueRegion(b, m.keyLen, m.valLen) == v[..m.valLen]
  {
  }

  /** `struct pair`. `key` and `value` are the offsets, within `block`, that the
      source's `key` and `value` pointers point at; `id` names the heap block. */
  class Pair {
    var key: nat
    var value: nat
    var keyLen: nat
    var valLen: nat
    const block: array<byte>
    const id: nat

    /** The key starts right after the header, the value right after the key, and
        the two regions end exactly at the end of the block. */
    ghost predicate Valid()
      reads this
    {
      key == PairHeaderSize && value == key + keyLen && value + valLen == block.Length
    }

    /** The bytes the `key` pointer designates. */
    function Key(): seq<byte>
      reads this, block
      requires Valid()
    {
      block[key..key + keyLen]
    }

    /** The bytes the `value` pointer designates. */
    function Value(): seq<byte>
      reads this, block
      requires Valid()
    {
      block[value..value + valLen]
    }

    /** The field assignments that end `pair_init`. */
    constructor Stamp(block: array<byte>, id: nat, keyLen: nat, valLen: nat)
      ensures this.block == block && this.id == id
      ensures this.keyLen == keyLen && this.valLen == valLen
      ensures key == PairHeaderSize && value == PairHeaderSize + keyLen
    {
      this.block := block;
      this.id := id;
      this.valLen := valLen;
      this.keyLen := keyLen;
      this.key := PairHeaderSize;
      this.value := PairHeaderSize + keyLen;
    }
  }

  /** `pair_init(map, k, v)`, with the allocation check on the returned block;
      `allocOk` says whether the map's allocator returns one. A NULL map gives NULL
      and touches no allocator. Otherwise one block of `BlockSize` bytes is
      requested; on failure the result is NULL and nothing is left allocated; on
      success the key and value are copied into their regions and the pair carries
      the map's lengths. */
  method PairInit(heap: Heap, m: Option<Map>, k: seq<byte>, v: seq<byte>, allocOk: bool)
    returns (p: Pair?)
    requires heap.Valid()
    requires m.Some? ==> m.value.alloc != NullFn && |k| >= m.value.keyLen && |v| >= m.value.valLen
    modifies heap
    ensures heap.Valid()
    ensures p == null <==> m.None? || !allocOk
    ensures m.None? ==> heap.live == old(heap.live) && heap.log == old(heap.log)
    ensures m.Some? ==>
      heap.log == old(heap.log) + [Requested(m.value.alloc, BlockSize(m.value),
                                             if allocOk then Block(old(heap.next)) else Null)]
    ensures m.Some? && !allocOk ==> heap.live == old(heap.live)
    ensures p != null ==>
      && fresh(p) && fresh(p.block) && p.Valid()
      && p.id == old(heap.next) && heap.live == old(heap.live)[p.id := BlockSize(m.value)]
      && p.block.Length == BlockSize(m.value)
      && p.keyLen == m.value.keyLen && p.valLen == m.value.valLen
      && p.block[PairHeaderSize..] == Payload(m.value, k, v)
      && p.Key() == k[..m.value.keyLen] && p.Value() == v[..m.value.valLen]
  {
    if m.None? {
      return null;
    }
    var mp := m.value;
    var size := BlockSize(mp);
    var ptr := heap.Alloc(mp.alloc, size, allocOk);
    if ptr == Null {
      return null;
    }
    var block := new byte[size];
    Copy(block, PairHeaderSize, k, mp.keyLen);
    Copy(block, PairHeaderSize + mp.keyLen, v, mp.valLen);
    p := new Pair.Stamp(block, ptr.id, mp.keyLen, mp.valLen);
    LayoutRoundTrip(mp, block[..PairHeaderSize], k, v);
    assert block[..] == block[..PairHeaderSize] + Payload(mp, k, v);
  }

  /** The pointer `pair_free` hands to the release function. */
  function PtrOf(p: Pair?): (r: Ptr)
    reads p
    ensures r.Null? <==> p == null
    ensures p != null ==> r.id == p.id
  {
    if p == null then Null else Block(p.id)
  }

  /** `pair_free(map, pair)`: nothing for a NULL map; otherwise the pair's pointer is
      handed exactly once to the map's release function. */
  method PairFree(heap: Heap, m: Option<Map>, p: Pair?)
    requires heap.Valid()
    requires m.Some? ==> m.value.dealloc != NullFn
    requires m.Some? && p != null ==> p.id in heap.live
    modifies heap
    ensures heap.Valid()
    ensures m.None? ==> heap.live == old(heap.live) && heap.log == old(heap.log)
    ensures m.Some? ==> heap.log == old(heap.log) + [Released(m.value.dealloc, PtrOf(p))]
    ensures m.Some? ==> heap.live == if p == null then old(heap.live) else old(heap.live) - {p.id}
  {
    if m.None? {
      return;
    }
    heap.Free(m.value.dealloc, PtrOf(p));
  }

  /* ---- pair_init as written ----------------------------------------------------- */

  /** What `pair_init` as written does: return NULL, call a NULL allocator, write
      the key and value through a NULL block, or fill the block it was given. */
  datatype InitOutcome = ReturnsNull | CallsNull | WritesThroughNull | Filled(id: nat)

  /** `pair_init` as written: it calls `map->alloc` before testing it, and then tests
      `map->alloc == NULL` instead of the returned block. */
  function PairInitAsWritten(m: Option<Map>, allocResult: Ptr): (r: InitOutcome)
    ensures r == ReturnsNull <==> m.None?
    ensures r.Filled? <==> m.Some? && m.value.alloc != NullFn && allocResult.Block?
    ensures r.Filled? ==> allocResult == Block(r.id)
  {
    if m.None? then ReturnsNull
    else if m.value.alloc == NullFn then CallsNull
    else if allocResult == Null then WritesThroughNull
    else Filled(allocResult.id)
  }

  /** For a non-NULL map the as-written check never returns NULL: a failed allocation
      goes on to copy the key and value through NULL, where `PairInit` returns NULL. */
  lemma AllocFailureNotCaughtAsWritten(m: Map, r: Ptr)
    ensures PairInitAsWritten(Some(m), r) != ReturnsNull
    ensures m.alloc != NullFn ==> PairInitAsWritten(Some(m), Null) == WritesThroughNull
  {
  }
}

/** The growable vector of src/vector/vector.c as a value: capacity, length,
    element size and the storage buffer, one block of `elemSize` bytes per slot.
    The class in module Vectors is proved against the functions here. */
module VectorSpec {
  import opened Memory

  /** `VEC_INIT_SIZE`: the capacity of a freshly initialised vector. */
  const VecInitSize: nat := 16

  /** One element: the `elem_size` bytes that `vec_insert` copies in. */
  type Block = seq<byte>

  /** A block of `n` zero bytes, what `memset(…, 0, …)` leaves in a slot. */
  function Zero(n: nat): (z: Block)
    ensures |z| == n && forall i :: 0 <= i < n ==> z[i] == 0
  {
    seq(n, _ => 0)
  }

  function Pow2(k: nat): (p: nat)
    ensures p >= 1
  {
    if k == 0 then 1 else 2 * Pow2(k - 1)
  }

  /** The capacities a vector can have: the initial one, doubled any number of times. */
  predicate IsCapacity(c: nat)
    decreases c
  {
    c == VecInitSize || (c > VecInitSize && c % 2 == 0 && IsCapacity(c / 2))
  }

  lemma {:induction false} ScaledPowerIsCapacity(k: nat)
    ensures IsCapacity(VecInitSize * Pow2(k))
  {
    if k > 0 {
      ScaledPowerIsCapacity(k - 1);
      var h := VecInitSize * Pow2(k - 1);
      assert Pow2(k) == 2 * Pow2(k - 1);
      assert VecInitSize * Pow2(k) == 2 * h;
      assert h >= VecInitSize;
      assert (2 * h) % 2 == 0 && (2 * h) / 2 == h;
    }
  }

  /** Every capacity is 16 times a power of two, and every such number is a capacity. */
  lemma {:induction false} CapacityIsScaledPowerOfTwo(c: nat)
    ensures IsCapacity(c) <==> exists k: nat :: c == VecInitSize * Pow2(k)
    decreases c
  {
    if IsCapacity(c) {
      if c == VecInitSize {
        assert c == VecInitSize * Pow2(0);
      } else {
        CapacityIsScaledPowerOfTwo(c / 2);
        var k: nat :| c / 2 == VecInitSize * Pow2(k);
        assert c == VecInitSize * Pow2(k + 1);
      }
    }
    if exists k: nat :: c == VecInitSize * Pow2(k) {
      var k: nat :| c == VecInitSize * Pow2(k);
      ScaledPowerIsCapacity(k);
    }
  }

  /** The fields of `struct _vector` that hold data (the allocator pointers live in
      the class); `buf` is the storage, one block per slot. */
  datatype VecState = VecState(cap: nat, len: nat, elemSize: nat, buf: seq<Block>)

  /** The representation invariant: a free slot remains for the next write, the
      capacity is 16 doubled some number of times, every slot holds `elemSize` bytes
      and every slot at or beyond `len` is zero. */
  ghost predicate ValidState(s: VecState)
  {
    && s.len < s.cap
    && IsCapacity(s.cap)
    && |s.buf| == s.cap
    && (forall i :: 0 <= i < |s.buf| ==> |s.buf[i]| == s.elemSize)
    && (forall i :: s.len <= i < |s.buf| ==> s.buf[i] == Zero(s.elemSize))
  }

  /** The elements the vector holds, in insertion order. */
  function Contents(s: VecState): seq<Block>
    requires s.len <= |s.buf|
  {
    s.buf[..s.len]
  }

  /** The state `vec_init` builds: capacity 16, empty, all storage zero. */
  function InitState(elemSize: nat): (r: VecState)
    ensures ValidState(r) && Contents(r) == []
    ensures r.cap == VecInitSize && r.elemSize == elemSize
    ensures forall i :: 0 <= i < |r.buf| ==> r.buf[i] == Zero(elemSize)
  {
    VecState(VecInitSize, 0, elemSize, seq(VecInitSize, _ => Zero(elemSize)))
  }

  /** `vec_insert` grows the storage before writing when this holds. */
  predicate Full(s: VecState)
  {
    s.len >= s.cap - 1
  }

  /** The state after `vec_insert(vec, data, |data|)`, where `allocOk` says whether
      the growth allocation (made only when the vector is full) succeeds: a block of
      the wrong size and a failed growth leave the state as it was; growth doubles the
      capacity, keeps the old slots and zeroes the new half; then `data` is written at
      index `len` and `len` grows by one. */
  function InsertState(s: VecState, data: Block, allocOk: bool): VecState
    requires ValidState(s)
  {
    if |data| != s.elemSize then s
    else if Full(s) then
      if !allocOk then s
      else VecState(2 * s.cap, s.len + 1, s.elemSize,
                    (s.buf + seq(s.cap, _ => Zero(s.elemSize)))[s.len := data])
    else VecState(s.cap, s.len + 1, s.elemSize, s.buf[s.len := data])
  }

  /** Whether `vec_insert` stores `data`: it has the element size, and growth, when
      needed, gets its memory. */
  predicate Accepts(s: VecState, data: Block, allocOk: bool)
  {
    |data| == s.elemSize && (!Full(s) || allocOk)
  }

  lemma InsertKeepsValid(s: VecState, data: Block, allocOk: bool)
    requires ValidState(s)
    ensures ValidState(InsertState(s, data, allocOk))
    ensures InsertState(s, data, allocOk).elemSize == s.elemSize
  {
  }

  /** An accepted insert appends exactly `data`; a refused one changes nothing. */
  lemma InsertAppends(s: VecState, data: Block, allocOk: bool)
    requires ValidState(s)
    ensures var r := InsertState(s, data, allocOk);
      if Accepts(s, data, allocOk)
      then r.len == s.len + 1 && Contents(r) == Contents(s) + [data]
      else r == s
  {
  }

  /** Growth doubles the capacity, keeps the first `cap` slots (with `data` written at
      the old length) and leaves the upper half zero; without growth the capacity stays. */
  lemma InsertGrowth(s: VecState, data: Block, allocOk: bool)
    requires ValidState(s) && Accepts(s, data, allocOk)
    ensures var r := InsertState(s, data, allocOk);
      && (Full(s) ==> r.cap == 2 * s.cap)
      && (!Full(s) ==> r.cap == s.cap)
      && r.buf[..s.cap] == s.buf[s.len := data]
      && forall i :: s.cap <= i < r.cap ==> r.buf[i] == Zero(s.elemSize)
  {
  }

  /** `vec_at`: the element at `i` when `i < len`, otherwise nothing. */
  function Lookup(s: VecState, i: nat): (r: Option<Block>)
    requires ValidState(s)
    ensures r.Some? <==> i < |Contents(s)|
    ensures r.Some? ==> r.value == Contents(s)[i] && |r.value| == s.elemSize
  {
    if i >= s.len then None else Some(s.buf[i])
  }

  /** Inserts every block of `xs` in order, every growth allocation succeeding. */
  function PushAll(s: VecState, xs: seq<Block>): (r: VecState)
    requires ValidState(s)
    ensures ValidState(r) && r.elemSize == s.elemSize
    decreases |xs|
  {
    if xs == [] then s
    else
      InsertKeepsValid(s, xs[0], true);
      PushAll(InsertState(s, xs[0], true), xs[1..])
  }

  /** Pushing blocks of the element size appends them, in order. */
  lemma {:induction false} PushAllContents(s: VecState, xs: seq<Block>)
    requires ValidState(s)
    requires forall i :: 0 <= i < |xs| ==> |xs[i]| == s.elemSize
    ensures Contents(PushAll(s, xs)) == Contents(s) + xs
    decreases |xs|
  {
    if xs != [] {
      InsertKeepsValid(s, xs[0], true);
      InsertAppends(s, xs[0], true);
      var s' := InsertState(s, xs[0], true);
      PushAllContents(s', xs[1..]);
      assert Contents(s) + [xs[0]] + xs[1..] == Contents(s) + xs;
    }
  }

  /** Round trip: after pushing `xs` into a fresh vector, `vec_at(i)` gives back
      `xs[i]` for every index below `|xs|` and NULL for every other. */
  lemma ReadBackAfterPushes(elemSize: nat, xs: seq<Block>, i: nat)
    requires forall j :: 0 <= j < |xs| ==> |xs[j]| == elemSize
    ensures Lookup(PushAll(InitState(elemSize), xs), i) == if i < |xs| then Some(xs[i]) else None
  {
    PushAllContents(InitState(elemSize), xs);
  }

  /** Growth never overshoots: the capacity is the initial one or at most twice the length. */
  ghost predicate Tight(s: VecState)
  {
    s.cap == VecInitSize || s.cap <= 2 * s.len
  }

  lemma {:induction false} PushAllTight(s: VecState, xs: seq<Block>)
    requires ValidState(s) && Tight(s)
    ensures Tight(PushAll(s, xs))
    decreases |xs|
  {
    if xs != [] {
      InsertKeepsValid(s, xs[0], true);
      PushAllTight(InsertState(s, xs[0], true), xs[1..]);
    }
  }

  /** Every vector built by `vec_init` and successful inserts has a tight capacity. */
  lemma PushedFromInitIsTight(elemSize: nat, xs: seq<Block>)
    ensures Tight(PushAll(InitState(elemSize), xs))
  {
    PushAllTight(InitState(elemSize), xs);
  }

  /* ---- vec_insert as written ------------------------------------------------ */

  /** The vector as `vec_insert` leaves it in the source: `released` records that the
      buffer `buf` it still points to has been handed back to the allocator. */
  datatype RawVecState = RawVecState(cap: nat, len: nat, elemSize: nat, buf: seq<Block>, released: bool)

  /** `vec_insert` as written: on growth the new buffer is filled and then dropped,
      the capacity doubles, the old buffer is released, and `data` is written into
      the released old buffer. Defined only while the write index is inside `buf`. */
  function InsertAsWritten(s: RawVecState, data: Block, allocOk: bool): (r: RawVecState)
    requires s.len < |s.buf|
    ensures |r.buf| == |s.buf|
    ensures r.released <==> s.released || (|data| == s.elemSize && s.len >= s.cap - 1 && allocOk)
    ensures r.len == s.len + 1 || r == s
    ensures r.len == s.len + 1 ==> r.buf[s.len] == data && r.buf[..s.len] == s.buf[..s.len]
  {
    if |data| != s.elemSize then s
    else if s.len >= s.cap - 1 then
      if !allocOk then s
      else RawVecState(2 * s.cap, s.len + 1, s.elemSize, s.buf[s.len := data], true)
    else RawVecState(s.cap, s.len + 1, s.elemSize, s.buf[s.len := data], s.released)
  }

  /** Whenever an insert makes the as-written vector grow (it sits at
      `len == cap - 1` over a buffer of `cap` slots), the data goes into the released
      old buffer, the capacity doubles over a buffer that did not grow, and the length
      reaches the end of that buffer, so the next insert writes past it. The intended
      `InsertState` leaves a buffer of the doubled capacity. */
  lemma StaleStorageAsWritten(s: RawVecState, data: Block)
    requires s.len == s.cap - 1 == |s.buf| - 1 && !s.released && |data| == s.elemSize
    ensures var r := InsertAsWritten(s, data, true);
      && r.released && r.cap == 2 * |r.buf| && r.len == |r.buf|
    ensures var v := VecState(s.cap, s.len, s.elemSize, s.buf);
      ValidState(v) ==> |InsertState(v, data, true).buf| == InsertState(v, data, true).cap == 2 * |s.buf|
  {
  }
}

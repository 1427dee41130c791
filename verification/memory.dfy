/** Memory: the byte type, allocator function pointers, and an abstract ledger of
    the blocks an allocator has handed out. Allocation success is decided by the
    caller (the `ok` argument), never by a real `malloc`. `memcpy` and `memset`
    are modelled element-wise by `Copy` and `Fill`. */
module Memory {

  newtype byte = x: int | 0 <= x < 256

  datatype Option<T> = None | Some(value: T)

  /** Identity of an allocation or release function pointer: NULL, the C library's
      `malloc`/`free`, or a function supplied by the caller. */
  datatype FnRef = NullFn | System | Caller(id: nat)

  /** A pointer returned by an allocator: NULL, or the block with the given id. */
  datatype Ptr = Null | Block(id: nat)

  /** One call into an allocator, as the allocator sees it. */
  datatype Event =
    | Requested(fn: FnRef, size: nat, result: Ptr)
    | Released(fn: FnRef, ptr: Ptr)

  /** The allocator state: the blocks handed out and not yet released (id to size in
      bytes), the next fresh id, and the log of every request and release. */
  class Heap {
    var live: map<nat, nat>
    var next: nat
    var log: seq<Event>

    ghost predicate Valid()
      reads this
    {
      forall b :: b in live ==> b < next
    }

    constructor ()
      ensures Valid() && live == map[] && log == []
    {
      live, next, log := map[], 0, [];
    }

    /** Calls the allocation function `fn` for `size` bytes; `ok` says whether it
        returns a block or NULL. Calling a NULL function pointer is the caller's fault. */
    method Alloc(fn: FnRef, size: nat, ok: bool) returns (p: Ptr)
      requires Valid() && fn != NullFn
      modifies this
      ensures Valid()
      ensures ok ==> p == Block(old(next)) && old(next) !in old(live)
                     && live == old(live)[old(next) := size] && next == old(next) + 1
      ensures !ok ==> p == Null && live == old(live) && next == old(next)
      ensures log == old(log) + [Requested(fn, size, p)]
    {
      if ok {
        p := Block(next);
        live := live[next := size];
        next := next + 1;
      } else {
        p := Null;
      }
      log := log + [Requested(fn, size, p)];
    }

    /** Hands `p` to the release function `fn`. Releasing a block twice, or one that
        was never allocated, is the caller's fault. */
    method Free(fn: FnRef, p: Ptr)
      requires Valid() && fn != NullFn
      requires p.Block? ==> p.id in live
      modifies this
      ensures Valid() && next == old(next)
      ensures live == if p.Block? then old(live) - {p.id} else old(live)
      ensures log == old(log) + [Released(fn, p)]
    {
      if p.Block? {
        live := live - {p.id};
      }
      log := log + [Released(fn, p)];
    }
  }

  /** `memcpy(dst + at, src, n)`, element by element. */
  method Copy<T>(dst: array<T>, at: nat, src: seq<T>, n: nat)
    requires n <= |src| && at + n <= dst.Length
    modifies dst
    ensures forall j :: 0 <= j < dst.Length ==>
      dst[j] == if at <= j < at + n then src[j - at] else old(dst[j])
  {
    var i := 0;
    while i < n
      invariant 0 <= i <= n
      invariant forall j :: 0 <= j < dst.Length ==>
        dst[j] == if at <= j < at + i then src[j - at] else old(dst[j])
    {
      dst[at + i] := src[i];
      i := i + 1;
    }
  }

  /** `memset` over the elements `lo .. hi` of `dst`, writing `x` into each. */
  method Fill<T>(dst: array<T>, lo: nat, hi: nat, x: T)
    requires lo <= hi <= dst.Length
    modifies dst
    ensures forall j :: 0 <= j < dst.Length ==>
      dst[j] == if lo <= j < hi then x else old(dst[j])
  {
    var i := lo;
    while i < hi
      invariant lo <= i <= hi
      invariant forall j :: 0 <= j < dst.Length ==>
        dst[j] == if lo <= j < i then x else old(dst[j])
    {
      dst[i] := x;
      i := i + 1;
    }
  }
}

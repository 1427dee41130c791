# Verified model of the datastructures toolkit: vector and pair record

This project models the parts of the C container toolkit that actually have code.

- **The growable vector** (`src/vector/vector.c`). It is a type-erased dynamic array of fixed-size elements:
  - a fresh vector has capacity 16 (`VEC_INIT_SIZE`) and its storage is zero-filled;
  - appending doubles the capacity when `len >= cap - 1`;
  - indexing is bounds-checked;
  - the size queries accept NULL.
- **The pair record** of the map (`pair_init`/`pair_free` in `src/map/map.c`). It is one heap block: a `struct pair` header, then a copy of the key, then a copy of the value. `src/htab/htab.c:97-133` is a verbatim copy of `pair_init`, and the same model stands for both.

The model has four modules.

- `Memory` holds the ground types:
  - `byte`;
  - `FnRef`, the identity of an allocation or release function pointer (NULL, `malloc`/`free`, or a caller's);
  - `Ptr`, a returned pointer.

  It also holds the class `Heap`, the allocator's state: the live blocks with their sizes, and a log of every request and release. Whether an allocation succeeds is an argument the caller supplies. `Memory.Copy` and `Memory.Fill` model `memcpy` and `memset` as element loops.
- `VectorSpec` is the vector as a value, `VecState`. It has the representation invariant `ValidState`:
  - `len < cap`;
  - `cap` is 16 times a power of two;
  - every slot holds `elem_size` bytes;
  - every slot at or beyond `len` is zero.

  `InsertState` gives the state after `vec_insert`. The lemmas about it include preservation of the invariant, append semantics, the growth shape, and a read-back round trip after any number of pushes.
- `Vectors` holds the class `Vector` with the fields of `struct _vector`. Its storage is an `array` of element blocks. `Init`, `Grow`, `Insert` and `Free` change state. They are proved to keep `Valid()` and to move `State()` exactly as `InitState`/`InsertState` say, with the allocator traffic stated event by event. `At`, `Size` and `ElemSize` are the pure queries.
- `Pairs` has three parts:
  - `Map`, a datatype with the `const` fields of `struct map`, which therefore never change;
  - the class `Pair`, whose offsets `key`/`value` stand for the source's pointers into the block;
  - `PairInit` and `PairFree`, with the layout lemma `LayoutRoundTrip`.

Platform constants follow an LP64 target: `sizeof(struct _vector)` is 48 bytes and `sizeof(struct pair)` is 32 bytes.

The map's hashing, collision resolution, lookup, delete and growth are not implemented: `map_init` has an empty body (`src/map/map.c:58-60`) and nothing reads `table`.

## Model

| member | source | states |
|---|---|---|
| `VectorSpec.CapacityIsScaledPowerOfTwo` | src/vector/vector.c:109 | The capacities reachable from `VEC_INIT_SIZE` by doubling are exactly the numbers 16·2^k (both directions). |
| `VectorSpec.InitState` | src/vector/vector.c:53-64 | A fresh vector satisfies the representation invariant. It has capacity 16, length 0 and no elements, and every slot is a zero block of `elem_size` bytes. |
| `VectorSpec.InsertKeepsValid` | src/vector/vector.c:89-122 | Every `vec_insert` keeps the invariant: `len < cap`, `cap` a scaled power of two, uniform slot size, zero slots at and beyond `len`. The element size is unchanged. |
| `VectorSpec.InsertAppends` | src/vector/vector.c:84-122 | An insert whose size matches, and whose growth (if needed) gets memory, raises `len` by exactly 1 and appends `data` after the unchanged old elements. A size mismatch or a failed growth leaves the whole state unchanged. |
| `VectorSpec.InsertGrowth` | src/vector/vector.c:89-110 | When `len >= cap - 1`, the capacity doubles; otherwise it stays. The first old-`cap` slots keep their contents (with `data` at the old length), and the new upper half is zero. |
| `VectorSpec.Lookup` | src/vector/vector.c:156-165 | The element at `i` is returned exactly when `i < len`, and it equals the `i`-th stored element; otherwise the result is nothing (NULL). |
| `VectorSpec.PushAll` | src/vector/vector.c:116-122 | Any number of successful inserts keeps the representation invariant and the element size. |
| `VectorSpec.PushAllContents` | src/vector/vector.c:119-122 | Pushing blocks of the element size appends them all, in order, to the existing contents. |
| `VectorSpec.ReadBackAfterPushes` | src/vector/vector.c:145-165 | Round trip: after pushing `xs` into a fresh vector, `vec_at(i)` yields `xs[i]` for `i < |xs|` and NULL for every other index. |
| `VectorSpec.PushAllTight` | src/vector/vector.c:89-109 | Growth never overshoots: if the capacity is 16 or at most twice the length, it stays so across any sequence of pushes. |
| `VectorSpec.PushedFromInitIsTight` | src/vector/vector.c:53-122 | Every vector built by `vec_init` and successful inserts has capacity 16 or at most twice its length. |
| `VectorSpec.InsertAsWritten` | src/vector/vector.c:84-123 | As written, `vec_insert` never changes the buffer's size. The buffer is flagged released exactly when it was already released or the insert grows (size matches, `len >= cap - 1`, allocation succeeds). Either nothing changes, or `len` grows by one with `data` at the old `len` and the earlier slots kept. |
| `VectorSpec.StaleStorageAsWritten` | src/vector/vector.c:91-116 | As written, the growing insert into any unreleased vector at `len == cap - 1` whose buffer has `cap` slots writes into the released buffer. It leaves `cap` at twice the buffer's size and `len` at the buffer's end, so the next write is past its end. For the same state the intended `InsertState` leaves a buffer of the doubled capacity. |
| `Vectors.EffectiveFns` | src/vector/vector.c:39-44 | The allocator pair `vec_init` uses: the caller's when both pointers are non-NULL, otherwise `malloc`/`free`. Neither is ever NULL. |
| `Vectors.StoredFnsAsWritten` | src/vector/vector.c:65-66 | As written, the stored pointer pair equals the pair `vec_init` allocated with exactly when both given pointers are non-NULL. A NULL allocator is stored as NULL, and so is a NULL release function. |
| `Vectors.StoredAllocatorMayBeNull` | src/vector/vector.c:39-66 | As written, for `alloc == NULL` with a caller's `dealloc`, the storage comes from `malloc/free`. The struct keeps NULL as its allocator and the caller's function as its release function. |
| `Vectors.Vector.Assemble` | src/vector/vector.c:62-67 | The struct's fields after `vec_init`: capacity 16, length 0, the given element size, allocator pair and storage. |
| `Vectors.Vector.Init` | src/vector/vector.c:37-70 | See the `vec_init` outcomes below the table. |
| `Vectors.Vector.Grow` | src/vector/vector.c:89-113 | From a full vector: requests `2·cap·elem_size` bytes from the vector's allocator. On failure nothing changes. On success the new storage is the old slots followed by `cap` zero blocks, `cap` doubles, and the old storage block is released once. The invariant holds afterwards. |
| `Vectors.Enlarged` | src/vector/vector.c:96-106 | The growth buffer is fresh and holds the old slots followed by as many zero blocks. |
| `Vectors.Vector.Insert` | src/vector/vector.c:84-123 | The new state is `InsertState` of the old one (so the lemmas above apply), and the invariant is kept. The allocator is called only on growth, as listed. After a growth the storage is a fresh buffer in the newly allocated block; otherwise the storage and its block are unchanged. Allocator pointers and ownership of live blocks are preserved. |
| `Vectors.Vector.At` | src/vector/vector.c:156-165 | Equals `Lookup` of the current state: element `i` exactly when `i < len`, otherwise NULL. |
| `Vectors.Vector.Free` | src/vector/vector.c:133-142 | `vec_free` hands the storage block and then the struct block each exactly once to the vector's release function. Both leave the live set. |
| `Vectors.Size` | src/vector/vector.c:178-183 | 0 for NULL, otherwise the number of elements held. |
| `Vectors.ElemSize` | src/vector/vector.c:194-199 | 0 for NULL, otherwise the element size, which every stored element has. |
| `Vectors.PushThreeScenario` | test/test_vec.c:10-22 | A 4-byte `int` vector over `malloc`/`free` that gets one push of 3 then reads back 3 at index 0 and has size 1. |
| `Pairs.Payload` | src/map/map.c:138-142 | The bytes written after the header (key copy, then value copy) make the block exactly `key_len + val_len + sizeof(Pair)` bytes. |
| `Pairs.LayoutRoundTrip` | src/htab/htab.c:113-129 | Whatever the header bytes, reading back the key region (right after the header) gives exactly the `key_len` key bytes. The value region (right after the key) gives exactly the `val_len` value bytes. The regions are disjoint and fill the block. |
| `Pairs.Pair.Stamp` | src/htab/htab.c:125-129 | The pair's lengths are the map's. Its `key` points just past the header, and its `value` points just past the key. |
| `Pairs.PairInit` | src/map/map.c:116-152 | See the `pair_init` outcomes below the table. |
| `Pairs.PairInitAsWritten` | src/map/map.c:116-152 | As written (also at src/htab/htab.c:97-133), `pair_init` returns NULL exactly for a NULL map. It fills a block exactly when the map's allocator is non-NULL and returns a block, and then it fills that block. Otherwise it calls a NULL allocator or writes through NULL. |
| `Pairs.PairFree` | src/map/map.c:156-164 | A NULL map changes nothing. Otherwise the pair's pointer goes exactly once to the map's release function, and its block leaves the live set. |
| `Pairs.AllocFailureNotCaughtAsWritten` | src/htab/htab.c:104-111 | As written (here and at src/map/map.c:123-130), `pair_init` never returns NULL for a non-NULL map. A failed allocation goes on to copy the key and value through NULL. |

`Vectors.Vector.Init` (`vec_init`) has three outcomes:
- **Struct allocation fails:** the result is NULL and there is exactly one request.
- **Storage allocation fails:** the struct is released through the effective release function, the result is NULL, and no block stays live.
- **Both allocations succeed:** the vector is `Valid` and equals `InitState(elemSize)`. It owns the 48-byte struct block and a storage block of `16·elemSize` bytes, and it keeps the effective allocator pair.

`Pairs.PairInit` (`pair_init`) has three outcomes:
- **NULL map:** the result is NULL and no allocator is called.
- **Non-NULL map:** it requests one block of `key_len + val_len + sizeof(Pair)` bytes from the map's allocator.
  - **The request fails:** the result is NULL and nothing is live.
  - **The request succeeds:**
    - the key region holds exactly `key_len` bytes of `k`;
    - the value region holds exactly `val_len` bytes of `v`;
    - the regions are laid out as in `LayoutRoundTrip`;
    - the pair's lengths are the map's.

## Findings

| source | as written | input that shows it | evidently intended | confidence | as-written member | corrected member |
|---|---|---|---|---|---|---|
| src/vector/vector.c:91-116 | The doubled buffer `new_stroage` is filled and then dropped; `vec->stroage` is never reassigned. The old buffer is freed and then written into. | Any unreleased vector at `len == cap - 1` over a `cap`-slot buffer (a fresh 1-byte vector after 15 inserts, say), then one insert of `elem_size` bytes that gets its memory: `cap` doubles over the released old buffer, and the next insert writes past its end | `vec->stroage = new_stroage` after freeing the old buffer | high, not executed | `VectorSpec.StaleStorageAsWritten` | `Vectors.Vector.Grow` |
| src/vector/vector.c:39-66 | `vec_init` allocates with `malloc`/`free` when either pointer is NULL, but stores the caller's possibly-NULL pointers | `alloc == NULL`, `dealloc` a caller's function: the stored allocator is NULL (the next growth calls it) and the stored release function differs from `free` | store the allocator pair actually used | high, not executed | `Vectors.StoredAllocatorMayBeNull` | `Vectors.Vector.Init` |
| src/map/map.c:126-130 | Tests `map->alloc == NULL` (after already calling it) instead of the returned block; the same code is at src/htab/htab.c:107-111 | A non-NULL map whose allocator returns NULL: the key and value are copied through NULL | `if (new_pair == NULL) return NULL;` | high, not executed | `Pairs.AllocFailureNotCaughtAsWritten` | `Pairs.PairInit` |

## Left out

- Map hashing, collision resolution, lookup, delete, growth and `map_init`: the code does not implement them.
- The `table` field of `struct map` is not modelled, because nothing in the code reads it.
- The `hash` field is modelled only as a function-pointer identity, because it is never called.
- The tree container (`include/tree.h`): it is declarations and macros only.
- The macro wrapper layers (`vec_new`, `vec_push`, `vec_get`, …) and `vec_init_buf`/`vec_free_buf`: textual substitution and thin allocator pass-throughs.
- `vec_alloc_fn`/`vec_dealloc_fn`: they only return the stored function pointers.
- Real allocator functions: allocation is an abstract success/failure chosen by the caller, and the heap is a ledger of block ids and sizes, not addressable memory.
- The `fprintf` diagnostics of `pair_init`/`pair_free`: I/O.
- Raw pointer arithmetic: the vector's storage is an array of element blocks rather than a flat byte buffer. A pair's `key`/`value` pointers are offsets into its block. `vec_at` returns the element's bytes, not a pointer that aliases the storage.
- The contents of a pair's header bytes: the header is represented by the `Pair` fields, and the header bytes of the block are left as allocated.
- `size_t` arithmetic: the model's integers are unbounded, so an overflow of `2 * cap * elem_size` or `key_len + val_len + sizeof(Pair)` is not modelled.
- `sizeof` values: the model fixes them for an LP64 target (48 and 32 bytes).
- `Vectors.Vector.Insert`: requires a vector produced by `vec_init` (`Valid()`). The source's behaviour on arbitrary memory, and on a NULL vector (which it dereferences), is not modelled.
- `Pairs.PairFree`: requires that a non-NULL pair handed to a non-NULL map is a live block. Releasing a foreign or already-released block is undefined in the source and is a caller obligation here.

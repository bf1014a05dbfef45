# slimmer_box in Dafny

A model of the Rust crate `slimmer_box`. The crate provides an owning pointer to a
slice that stores its element count in a `u32` next to a thin address, so the
pointer is 12 bytes instead of the 16 bytes of a `Box<[T]>`. The model covers four
things:

- `SmallSliceBox<T>` and its lifecycle (`slimmer_box.dfy`, module `SlimmerBox`). This
  is a class with the struct's fields `ptr` and `size` (a `u32`), plus `armed`, the drop
  flag. `armed` is true while the value still has to release its allocation. The class
  covers the constructors, the `u32` narrowing check, `to_box`, `Drop`, the `Deref`/`DerefMut`
  views and the traits that delegate to them, and `Clone`.
- The global allocator and the standard `Box<[T]>` the box is built from and turned back
  into (`heap.dfy`, module `Heap`). Addresses are abstract allocation ids. The allocator
  keeps a map from live ids to their element sequences and a set of released ids.
  Releasing requires a live id, so a double free cannot verify.
- The `SlimmerPointee<SlimmerMetadata>` capability (`slim_pointee.dfy`, module
  `SlimPointee`). This is the relation saying which value-kind may store its pointer
  metadata in which width. The trait's `TryFrom`/`TryInto` bounds are modelled as
  Rust's value-preserving unsigned conversions on a 16-, 32- or 64-bit target. The
  module proves the trait's safety promise for every grant: narrow-then-widen never fails
  and never loses the value.
- `CloneUnsized::unsized_clone_from` (`clone_unsized.dfy`, module `CloneUnsized`). This is
  an in-place copy over arrays for `[T]` and `str`, plus plain assignment for a sized `T`.

`wrappers.dfy` holds the `Option`/`Result` datatypes.

Notes on the code as written:
- The doc comments on the `u8` grants (src/slim_pointee.rs:42 and :57) say "at most 15".
  The `TryFrom` bound the trait relies on caps a `u8` at 255, and the model follows the
  code (`SlimPointee.Caps`).
- The box code has no special path for zero-byte slices: it relies on `into_boxed_slice`
  (`new`, `try_new`, `new_unchecked`), on `Box::from` (`new_from_copy`, `try_new_from_copy`),
  and on whatever `Box<[T]>` `from_box` and `try_from_box` are given.
  The model therefore gives empty slices, and slices of zero-sized `T`, an allocation like
  any other.
- In `Drop`, the `core::mem::forget(self)` forgets a `&mut Self`, so it does nothing.
  The dangling value swapped into `self` is never released because `drop` is not run twice
  on the same place. The model clears `armed` at that point.
- `T::clone` is modelled as a copy of the value: a clone equals its source.

## Model

| member | source | states |
|---|---|---|
| SlimmerBox.TryIntoU32 | src/lib.rs:138 | `len.try_into()` into `u32` succeeds iff `len <= 4294967295`; on success it yields `len` unchanged |
| SlimmerBox.TryIntoU32IsSliceNarrowing | src/slim_pointee.rs:49 | the box's check is the `u32` grant for `[T]`: on any target width it succeeds exactly when `SlimPointee.Narrow` does, with the same value |
| SlimmerBox.SmallSliceBox.FromRawParts | src/lib.rs:143-147 | the struct literal: sets `ptr` and `size`, and the new value is armed |
| SlimmerBox.SmallSliceBox.TryFromBox | src/lib.rs:136-149 | `Ok` iff `boxed.len() <= u32::MAX`. On `Ok`, the box keeps the same address and `size == len`, holds the same elements, and the heap is unchanged. On `Err`, the incoming box was dropped: its allocation is released and nothing else changed |
| SlimmerBox.SmallSliceBox.FromBox | src/lib.rs:156-158 | panics (an `Err(UnwrapFailed)` outcome) exactly when the length exceeds `u32::MAX`, after the incoming box was released; otherwise it behaves as `TryFromBox` |
| SlimmerBox.SmallSliceBox.FromBoxUnchecked | src/lib.rs:164-166 | the caller must guarantee the length fits; the result takes over the allocation with `size == len` and allocates nothing |
| SlimmerBox.SmallSliceBox.New | src/lib.rs:80-86 | copies the slice into a fresh allocation and narrows; panics iff the length exceeds `u32::MAX`, leaving no live allocation behind and exactly one new released id (the copy); on success the box holds exactly the slice's elements |
| SlimmerBox.SmallSliceBox.NewUnchecked | src/lib.rs:95-101 | the caller must guarantee the length fits; fresh allocation holding exactly the slice, `size == len` |
| SlimmerBox.SmallSliceBox.TryNew | src/lib.rs:104-110 | as `New`, but overflow is an `Err(TryFromIntError)`; the copy is released, so the live map is unchanged and the released set gains exactly its one id |
| SlimmerBox.SmallSliceBox.NewFromCopy | src/lib.rs:118-124 | as `New`, through `Box::from(slice)` for `Copy` elements |
| SlimmerBox.SmallSliceBox.TryNewFromCopy | src/lib.rs:127-133 | as `TryNew`, through `Box::from(slice)` for `Copy` elements |
| SlimmerBox.SmallSliceBox.ToBox | src/lib.rs:176-184 | returns the `Box<[T]>` made of the same address and the widened `size`, which owns the allocation; `self` is forgotten (disarmed) and the heap is untouched |
| SlimmerBox.SmallSliceBox.Drop | src/lib.rs:187-193 | releases the allocation exactly once, through `to_box`; afterwards `self` is the dangling, size-0 value and disarmed |
| SlimmerBox.SmallSliceBox.DropGlue | src/lib.rs:182 | at scope end an armed box releases its allocation once; a box already moved into `to_box` or forgotten releases nothing and keeps its fields; a dropped box is left dangling with size 0 |
| SlimmerBox.SmallSliceBox.Deref | src/lib.rs:195-201 | the view has exactly `size` elements and is the contents of the owned allocation |
| SlimmerBox.SmallSliceBox.DerefMut | src/lib.rs:203-208 | the `&mut [T]` has the box's address and exactly `size` elements, and covers a live allocation of that length |
| SlimmerBox.SmallSliceBox.Borrow | src/lib.rs:210-214 | delegates to `Deref` |
| SlimmerBox.SmallSliceBox.BorrowMut | src/lib.rs:216-220 | delegates to `DerefMut`: same address, `size` elements |
| SlimmerBox.SmallSliceBox.AsRef | src/lib.rs:222-226 | delegates to `Deref` |
| SlimmerBox.SmallSliceBox.AsMut | src/lib.rs:229-233 | delegates to `DerefMut`: same address, `size` elements |
| SlimmerBox.SmallSliceBox.Fmt | src/lib.rs:248-252 | formats exactly the dereferenced slice with the slice's own `Debug` |
| SlimmerBox.SmallSliceBox.Clone | src/lib.rs:237-246 | a new box over a fresh allocation, different from the original's, with the same `size` and equal contents; the original keeps its allocation and contents |
| SlimmerBox.FromBoxToBox | src/lib.rs:156-184 | round trip: `to_box(from_box(b))` gives back `b` itself (same address, same length, same elements) and allocates nothing |
| SlimmerBox.NewToBox | src/lib.rs:80-184 | round trip: `to_box(new(s))` owns an allocation holding exactly the elements of `s`, in order |
| SlimmerBox.ToBoxThenDropGlue | src/lib.rs:176-193 | no double free: after `to_box`, the end of the original's scope releases nothing and the returned box still owns the allocation |
| SlimmerBox.CloneThenMutate | src/lib.rs:237-246 | clone independence: writing an element of the clone through `deref_mut` changes only the clone; the original still holds its old contents |
| Heap.Allocator.BoxFromSlice | src/lib.rs:84 | `slice.to_vec().into_boxed_slice()`: a fresh allocation, never live or released before, holding a copy of the slice |
| Heap.Allocator.Store | src/lib.rs:206 | a write of element `i` through the `&mut [T]` that `deref_mut` returns changes element `i` of that allocation and nothing else |
| Heap.Allocator.DropBox | src/lib.rs:191 | dropping the `Box<[T]>` releases its live allocation: it moves from live to released |
| SlimPointee.Grants | src/slim_pointee.rs:37-67 | the eleven grants: sized `T` only with `()`; `[T]` and `str` with each of `usize`, `u8`, `u16`, `u32`, `u64`; nothing else |
| SlimPointee.NativeWidth | src/slim_pointee.rs:29-32 | native metadata is `()` exactly for sized values and `usize` for `[T]` and `str` |
| SlimPointee.TryConvert | src/slim_pointee.rs:32 | the `TryFrom` bound between widths succeeds iff the value is representable in the target width, and then keeps it |
| SlimPointee.Narrow | src/slim_pointee.rs:21 | `meta.try_into()` into the slim width succeeds iff the value fits it, and then returns it unchanged |
| SlimPointee.Widen | src/slim_pointee.rs:22 | `slim_meta.try_into()` back to native metadata succeeds iff the value fits the native width, and then returns it unchanged |
| SlimPointee.NarrowThenWiden | src/slim_pointee.rs:19-24 | the trait's safety promise: after a successful narrowing, widening never fails and returns the original metadata |
| SlimPointee.WidenThenNarrow | src/slim_pointee.rs:19-32 | the converse: a slim value that widens narrows back to itself |
| SlimPointee.SizedAlwaysNarrows | src/slim_pointee.rs:37 | every sized `T` is granted `()`, and narrowing its metadata always succeeds |
| SlimPointee.USizeIsIdentity | src/slim_pointee.rs:39-40 | with the `usize` grant, narrowing and widening are the identity and never fail, as for `Box<[T]>` |
| SlimPointee.Caps | src/slim_pointee.rs:42-67 | `u8`, `u16`, `u32`, `u64` hold at most 255, 65535, 4294967295 and 18446744073709551615; `usize` matches the target's pointer width |
| SlimPointee.LengthNarrowsIff | src/slim_pointee.rs:43-67 | for `[T]` and `str`, a length narrows into `u8`/`u16`/`u32`/`u64` iff it is at most 255/65535/4294967295/18446744073709551615 |
| SlimPointee.NarrowMonotone | src/slim_pointee.rs:42-67 | a length that fits a narrower width does fit every wider one |
| CloneUnsized.CloneFromSlice | src/clone_unsized.rs:18-25 | requires equal lengths; afterwards `self[i] == source[i]` for every `i`; the length is kept and `source` is unchanged |
| CloneUnsized.CloneFromStr | src/clone_unsized.rs:27-33 | the byte buffer becomes equal to `source`'s bytes, so it is valid UTF-8 whatever it held before; `source` is unchanged |
| CloneUnsized.CloneFromSized | src/clone_unsized.rs:35-40 | afterwards `*self` equals `source.clone()` |
| CloneUnsized.CloneFromSliceAgain | src/clone_unsized.rs:22-24 | idempotence: cloning again from the same source leaves `self` unchanged |

## Left out

- Trace instrumentation: the `trace` macros, the thread-local depth counter and every
  `println!` are output only.
- The rkyv `Archive`/`Serialize`/`Deserialize` impls (src/lib.rs:25-70) and the adapters in
  src/serde.rs and src/rkyv.rs. They delegate to libraries whose behaviour is not visible.
- `SlimmerBox<T, M>`, the box generalised over the metadata width, together with its
  `from_raw`, `try_from_raw`, `slim_metadata` and `metadata`. Its source is not part of
  this model. The width-generic part of its logic is `SlimPointee`, and
  `TryIntoU32IsSliceNarrowing` ties the `u32` box to it.
- Memory layout: `#[repr(packed)]`, the 12-byte size, alignment, and the raw pointer
  casts. Addresses are abstract ids, and `NonNull::dangling()` is a distinct `Dangling`
  address that is never allocated.
- The allocation-free path that `into_boxed_slice` and `Box::from` take whenever the
  slice occupies zero bytes: an empty slice, and any slice of a zero-sized `T`. Such a
  slice gets an allocation id like any other. So for a zero-sized `T` the overflow paths
  release an allocation that the real code never made. For any other `T` the real code,
  like the model, allocates or receives the buffer and then frees it.
- Trait objects. Their metadata is a vtable pointer and they are never granted the
  capability, so they are not a value-kind in `SlimPointee`.
- `Unpin`, lifetimes, and aliasing at the type level. The arrays in `CloneUnsized` are
  required to be distinct instead.
- The move of the incoming `Box<[T]>`. `BoxSlice` is a value, and `TryFromBox`,
  `FromBox` and `FromBoxUnchecked` do not consume it. After they return, the allocator
  still reports the same `BoxSlice` as owning the allocation. So two armed boxes could be
  built from one `Box`. That a single owner releases each allocation holds only because
  callers do not reuse a moved value. A second release of the same allocation still cannot
  verify.
- `T`'s destructor. Elements are plain values, so dropping a `Box<[T]>` (the early `?`
  return of `try_from_box`, and the end of `drop`) and the assignments in
  `CloneFromSized` and `CloneFromSlice` run no element `Drop`.
- Allocation failure. The allocator's abort when `to_vec`, `into_boxed_slice` or
  `Box::from` cannot allocate is not modelled: `BoxFromSlice` always succeeds.
- `Foo` and `Thing`. They are type definitions with no logic.
- The test at src/lib.rs:318-328, which ends in `assert!(false)`.
- A user `Clone` impl whose clone differs from its source, or that has side effects.
  Cloning is a value copy in the model.
- CloneUnsized.CloneFromSlice and CloneUnsized.CloneFromStr: the panic of `clone_from_slice` on a length mismatch is a
  precondition, not a modelled panic: matching the lengths is left to the caller.

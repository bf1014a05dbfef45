/**
 * The global allocator and the standard library's `Box<[T]>`, as far as
 * `SmallSliceBox` relies on them. Addresses are abstract allocation ids; an
 * allocation holds the sequence of elements stored in it.
 */
module Heap {

  /** A thin, non-null address: an allocation, or `NonNull::dangling()`, which is never allocated. */
  datatype Ptr = Dangling | Addr(id: nat)

  /** A `Box<[T]>`: address plus element count; it owns the allocation at `ptr`. */
  datatype BoxSlice = BoxSlice(ptr: Ptr, len: nat)

  /** A `&mut [T]`: address plus element count, borrowing the allocation at `ptr`. */
  datatype SliceMut = SliceMut(ptr: Ptr, len: nat)

  class Allocator<T> {
    /** Allocations currently handed out, with their contents. */
    var live: map<Ptr, seq<T>>
    /** Allocations already released; none is ever handed out again. */
    var freed: set<Ptr>
    /** Next unused allocation id. */
    var next: nat

    ghost predicate Valid()
      reads this
    {
      && Dangling !in live && Dangling !in freed
      && live.Keys !! freed
      && (forall p :: p in live ==> p.Addr? && p.id < next)
      && (forall p :: p in freed ==> p.Addr? && p.id < next)
    }

    constructor ()
      ensures Valid() && live == map[] && freed == {}
    {
      live, freed, next := map[], {}, 0;
    }

    /** `b` is a live `Box<[T]>`: its allocation is live and has exactly `b.len` elements. */
    ghost predicate Owns(b: BoxSlice)
      reads this
    {
      b.ptr in live && |live[b.ptr]| == b.len
    }

    /** `s` is a valid `&mut [T]` over a live allocation of exactly `s.len` elements. */
    ghost predicate Covers(s: SliceMut)
      reads this
    {
      s.ptr in live && |live[s.ptr]| == s.len
    }

    /** `slice.to_vec().into_boxed_slice()`, or `Box::<[T]>::from(slice)`: a fresh allocation holding a copy. */
    method BoxFromSlice(slice: seq<T>) returns (b: BoxSlice)
      requires Valid()
      modifies this
      ensures Valid() && Owns(b) && b.len == |slice|
      ensures b.ptr !in old(live) && b.ptr !in old(freed)
      ensures live == old(live)[b.ptr := slice] && freed == old(freed)
    {
      b := BoxSlice(Addr(next), |slice|);
      live := live[b.ptr := slice];
      next := next + 1;
    }

    /** Dropping a `Box<[T]>`: its allocation is released; elements have no destructor in the model. */
    method DropBox(b: BoxSlice)
      requires Valid() && Owns(b)
      modifies this
      ensures Valid()
      ensures live == old(live) - {b.ptr} && freed == old(freed) + {b.ptr}
    {
      live := live - {b.ptr};
      freed := freed + {b.ptr};
    }

    /** `s[i] = x` through a `&mut [T]`: only element `i` of that allocation changes. */
    method Store(s: SliceMut, i: nat, x: T)
      requires Valid() && Covers(s) && i < s.len
      modifies this
      ensures Valid() && Covers(s)
      ensures live == old(live)[s.ptr := old(live[s.ptr])[i := x]] && freed == old(freed)
    {
      live := live[s.ptr := live[s.ptr][i := x]];
    }
  }
}

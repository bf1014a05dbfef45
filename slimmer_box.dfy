/**
 * `SmallSliceBox<T>` of src/lib.rs (example.rs is the same code macro-expanded):
 * an owning pointer to a `[T]` that stores the element count as a `u32` next to a
 * thin address, instead of the `usize` a `Box<[T]>` carries.
 *
 * The box is a class whose fields are those of the struct, plus `armed`, the
 * compiler's drop flag: true while this value is still responsible for releasing
 * its allocation, false once the value has been moved into `to_box`, forgotten,
 * or dropped.
 */
module SlimmerBox {
  import opened Wrappers
  import opened Heap
  import SlimPointee

  const U32_MAX: nat := 0xFFFF_FFFF

  type U32 = n: nat | n <= U32_MAX

  /** `<u32 as TryFrom<usize>>::Error` */
  datatype TryFromIntError = TryFromIntError

  /** A panic, as raised by `Result::unwrap` on an `Err`. */
  datatype Panic = UnwrapFailed(error: TryFromIntError)

  /** `len.try_into()` from `usize` into `u32`. */
  function TryIntoU32(len: nat): (r: Result<U32, TryFromIntError>)
    ensures r.Ok? <==> len <= 4294967295
    ensures r.Ok? ==> r.value == len
  {
    if len <= U32_MAX then Ok(len) else Err(TryFromIntError)
  }

  /**
   * The box's narrowing is the `u32` grant for `[T]` of the metadata capability, on
   * whatever pointer width the native length was measured.
   */
  lemma TryIntoU32IsSliceNarrowing(t: SlimPointee.Target, len: nat)
    requires SlimPointee.Represents(t, SlimPointee.USize, SlimPointee.Len(len))
    ensures var slim := SlimPointee.Narrow(t, SlimPointee.SliceKind, SlimPointee.U32, SlimPointee.Len(len));
      && (TryIntoU32(len).Ok? <==> slim.Some?)
      && (TryIntoU32(len).Ok? ==> slim == Some(SlimPointee.Len(TryIntoU32(len).value)))
  {
    SlimPointee.Caps(t);
  }

  class SmallSliceBox<T> {
    /** The allocator every allocation of this box comes from. */
    const heap: Allocator<T>
    var ptr: Ptr
    var size: U32
    var armed: bool

    /** While armed, `ptr` is a live allocation of exactly `size` elements. */
    ghost predicate Valid()
      reads this, heap
    {
      heap.Valid() && (armed ==> ptr in heap.live && |heap.live[ptr]| == size)
    }

    /** The box is armed and owns an allocation holding `contents`. */
    ghost predicate Holds(contents: seq<T>)
      reads this, heap
    {
      Valid() && armed && ptr in heap.live && heap.live[ptr] == contents
    }

    /** The struct literal `SmallSliceBox { ptr, size, marker: PhantomData }`. */
    constructor FromRawParts(heap: Allocator<T>, ptr: Ptr, size: U32)
      ensures this.heap == heap && this.ptr == ptr && this.size == size && armed
    {
      this.heap := heap;
      this.ptr := ptr;
      this.size := size;
      armed := true;
    }

    /**
     * `try_from_box`: narrow the length first. On overflow the function returns
     * early and the incoming box, still owned, is dropped. Otherwise the box is
     * turned into raw parts and its address kept together with the `u32` count.
     */
    static method TryFromBox(heap: Allocator<T>, boxed: BoxSlice)
      returns (r: Result<SmallSliceBox<T>, TryFromIntError>)
      requires heap.Valid() && heap.Owns(boxed)
      modifies heap
      ensures heap.Valid()
      ensures r.Ok? <==> boxed.len <= U32_MAX
      ensures r.Ok? ==> && fresh(r.value) && r.value.heap == heap
                        && r.value.ptr == boxed.ptr && r.value.size == boxed.len
                        && r.value.Holds(old(heap.live[boxed.ptr]))
                        && heap.live == old(heap.live) && heap.freed == old(heap.freed)
      ensures r.Err? ==> && heap.live == old(heap.live) - {boxed.ptr}
                         && heap.freed == old(heap.freed) + {boxed.ptr}
    {
      var size := TryIntoU32(boxed.len);
      if size.Err? {
        heap.DropBox(boxed);
        return Err(size.error);
      }
      // `Box::into_raw` and the cast to `*mut T` keep only the address.
      var thinPtr := boxed.ptr;
      var res := new SmallSliceBox<T>.FromRawParts(heap, thinPtr, size.value);
      return Ok(res);
    }

    /** `from_box`: `try_from_box(boxed).unwrap()`, panicking on overflow. */
    static method FromBox(heap: Allocator<T>, boxed: BoxSlice)
      returns (r: Result<SmallSliceBox<T>, Panic>)
      requires heap.Valid() && heap.Owns(boxed)
      modifies heap
      ensures heap.Valid()
      ensures r.Ok? <==> boxed.len <= U32_MAX
      ensures r.Ok? ==> && fresh(r.value) && r.value.heap == heap
                        && r.value.ptr == boxed.ptr && r.value.size == boxed.len
                        && r.value.Holds(old(heap.live[boxed.ptr]))
                        && heap.live == old(heap.live) && heap.freed == old(heap.freed)
      ensures r.Err? ==> && heap.live == old(heap.live) - {boxed.ptr}
                         && heap.freed == old(heap.freed) + {boxed.ptr}
    {
      var res := TryFromBox(heap, boxed);
      match res
      case Ok(b) => r := Ok(b);
      case Err(e) => r := Err(UnwrapFailed(e));
    }

    /** `from_box_unchecked`: `unwrap_unchecked`, so the caller guarantees the length fits. */
    static method FromBoxUnchecked(heap: Allocator<T>, boxed: BoxSlice)
      returns (b: SmallSliceBox<T>)
      requires heap.Valid() && heap.Owns(boxed)
      requires boxed.len <= U32_MAX
      modifies heap
      ensures fresh(b) && b.heap == heap && b.ptr == boxed.ptr && b.size == boxed.len
      ensures b.Holds(old(heap.live[boxed.ptr]))
      ensures heap.live == old(heap.live) && heap.freed == old(heap.freed)
    {
      var res := TryFromBox(heap, boxed);
      assert res.Ok?;
      b := res.value;
    }

    /** `new`: clone the slice into a fresh `Box<[T]>`, then `from_box`. */
    static method New(heap: Allocator<T>, slice: seq<T>)
      returns (r: Result<SmallSliceBox<T>, Panic>)
      requires heap.Valid()
      modifies heap
      ensures heap.Valid()
      ensures r.Ok? <==> |slice| <= U32_MAX
      ensures r.Ok? ==> && fresh(r.value) && r.value.heap == heap && r.value.size == |slice|
                        && r.value.ptr !in old(heap.live) && r.value.ptr !in old(heap.freed)
                        && r.value.Holds(slice)
                        && heap.live == old(heap.live)[r.value.ptr := slice]
                        && heap.freed == old(heap.freed)
      ensures r.Err? ==> && heap.live == old(heap.live)
                         && exists p :: && p in heap.freed && p !in old(heap.freed) && p !in old(heap.live)
                                        && heap.freed == old(heap.freed) + {p}
    {
      var boxed := heap.BoxFromSlice(slice);
      r := FromBox(heap, boxed);
    }

    /** `new_unchecked`: clone the slice, then `from_box_unchecked`; the caller guarantees the length fits. */
    static method NewUnchecked(heap: Allocator<T>, slice: seq<T>)
      returns (b: SmallSliceBox<T>)
      requires heap.Valid()
      requires |slice| <= U32_MAX
      modifies heap
      ensures fresh(b) && b.heap == heap && b.size == |slice|
      ensures b.ptr !in old(heap.live) && b.ptr !in old(heap.freed)
      ensures b.Holds(slice)
      ensures heap.live == old(heap.live)[b.ptr := slice] && heap.freed == old(heap.freed)
    {
      var boxed := heap.BoxFromSlice(slice);
      b := FromBoxUnchecked(heap, boxed);
    }

    /** `try_new`: clone the slice, then `try_from_box`; the copy is released on overflow. */
    static method TryNew(heap: Allocator<T>, slice: seq<T>)
      returns (r: Result<SmallSliceBox<T>, TryFromIntError>)
      requires heap.Valid()
      modifies heap
      ensures heap.Valid()
      ensures r.Ok? <==> |slice| <= U32_MAX
      ensures r.Ok? ==> && fresh(r.value) && r.value.heap == heap && r.value.size == |slice|
                        && r.value.ptr !in old(heap.live) && r.value.ptr !in old(heap.freed)
                        && r.value.Holds(slice)
                        && heap.live == old(heap.live)[r.value.ptr := slice]
                        && heap.freed == old(heap.freed)
      ensures r.Err? ==> && heap.live == old(heap.live)
                         && exists p :: && p in heap.freed && p !in old(heap.freed) && p !in old(heap.live)
                                        && heap.freed == old(heap.freed) + {p}
    {
      var boxed := heap.BoxFromSlice(slice);
      r := TryFromBox(heap, boxed);
    }

    /** `new_from_copy`: `Box::<[T]>::from(slice)` for `T: Copy`, then `from_box`. */
    static method NewFromCopy(heap: Allocator<T>, slice: seq<T>)
      returns (r: Result<SmallSliceBox<T>, Panic>)
      requires heap.Valid()
      modifies heap
      ensures heap.Valid()
      ensures r.Ok? <==> |slice| <= U32_MAX
      ensures r.Ok? ==> && fresh(r.value) && r.value.heap == heap && r.value.size == |slice|
                        && r.value.ptr !in old(heap.live) && r.value.ptr !in old(heap.freed)
                        && r.value.Holds(slice)
                        && heap.live == old(heap.live)[r.value.ptr := slice]
                        && heap.freed == old(heap.freed)
      ensures r.Err? ==> && heap.live == old(heap.live)
                         && exists p :: && p in heap.freed && p !in old(heap.freed) && p !in old(heap.live)
                                        && heap.freed == old(heap.freed) + {p}
    {
      var boxed := heap.BoxFromSlice(slice);
      r := FromBox(heap, boxed);
    }

    /** `try_new_from_copy`: `Box::<[T]>::from(slice)`, then `try_from_box`. */
    static method TryNewFromCopy(heap: Allocator<T>, slice: seq<T>)
      returns (r: Result<SmallSliceBox<T>, TryFromIntError>)
      requires heap.Valid()
      modifies heap
      ensures heap.Valid()
      ensures r.Ok? <==> |slice| <= U32_MAX
      ensures r.Ok? ==> && fresh(r.value) && r.value.heap == heap && r.value.size == |slice|
                        && r.value.ptr !in old(heap.live) && r.value.ptr !in old(heap.freed)
                        && r.value.Holds(slice)
                        && heap.live == old(heap.live)[r.value.ptr := slice]
                        && heap.freed == old(heap.freed)
      ensures r.Err? ==> && heap.live == old(heap.live)
                         && exists p :: && p in heap.freed && p !in old(heap.freed) && p !in old(heap.live)
                                        && heap.freed == old(heap.freed) + {p}
    {
      var boxed := heap.BoxFromSlice(slice);
      r := TryFromBox(heap, boxed);
    }

    /**
     * `to_box`: rebuild the `Box<[T]>` from the address and the widened count, then
     * forget `self`, so the allocation is from now on released only by the returned box.
     */
    method ToBox() returns (b: BoxSlice)
      requires Valid() && armed
      modifies this
      ensures Valid() && !armed && ptr == old(ptr) && size == old(size)
      ensures b == BoxSlice(old(ptr), old(size)) && heap.Owns(b)
    {
      b := BoxSlice(ptr, size);
      armed := false;
    }

    /**
     * `Drop`: swap a dangling, empty box into `self`, never release that one, and
     * release the original allocation through `to_box` and the `Box` it returns.
     */
    method Drop()
      requires Valid() && armed
      modifies this, heap
      ensures Valid() && !armed && ptr == Dangling && size == 0
      ensures heap.live == old(heap.live) - {old(ptr)}
      ensures heap.freed == old(heap.freed) + {old(ptr)}
    {
      var me := new SmallSliceBox<T>.FromRawParts(heap, ptr, size);
      ptr, size := Dangling, 0;
      armed := false;
      var dropThisBox := me.ToBox();
      heap.DropBox(dropThisBox);
    }

    /**
     * What the end of a scope does to a `SmallSliceBox` variable: `drop` runs only
     * when the value was neither moved into `to_box` nor forgotten.
     */
    method DropGlue()
      requires Valid()
      modifies this, heap
      ensures Valid() && !armed
      ensures old(armed) ==> && heap.live == old(heap.live) - {old(ptr)}
                             && heap.freed == old(heap.freed) + {old(ptr)}
      ensures !old(armed) ==> heap.live == old(heap.live) && heap.freed == old(heap.freed)
      ensures old(armed) ==> ptr == Dangling && size == 0
      ensures !old(armed) ==> ptr == old(ptr) && size == old(size)
    {
      if armed {
        Drop();
      }
    }

    /** `deref`: the slice of exactly `size` elements at `ptr`. */
    function Deref(): (view: seq<T>)
      reads this, heap
      requires Valid() && armed
      ensures |view| == size
      ensures Holds(view)
    {
      heap.live[ptr]
    }

    /** `deref_mut`: a `&mut [T]` of exactly `size` elements over the owned allocation. */
    method DerefMut() returns (view: SliceMut)
      requires Valid() && armed
      ensures view.ptr == ptr && view.len == size
      ensures heap.Covers(view)
    {
      view := SliceMut(ptr, size);
    }

    /** `Borrow<[T]>::borrow`: `&**self`. */
    function Borrow(): (view: seq<T>)
      reads this, heap
      requires Valid() && armed
      ensures view == Deref()
    {
      Deref()
    }

    /** `AsRef<[T]>::as_ref`: `&**self`. */
    function AsRef(): (view: seq<T>)
      reads this, heap
      requires Valid() && armed
      ensures view == Deref()
    {
      Deref()
    }

    /** `BorrowMut<[T]>::borrow_mut`: `&mut **self`. */
    method BorrowMut() returns (view: SliceMut)
      requires Valid() && armed
      ensures view.ptr == ptr && view.len == size
      ensures heap.Covers(view)
    {
      view := DerefMut();
    }

    /** `AsMut<[T]>::as_mut`: `&mut **self`. */
    method AsMut() returns (view: SliceMut)
      requires Valid() && armed
      ensures view.ptr == ptr && view.len == size
      ensures heap.Covers(view)
    {
      view := DerefMut();
    }

    /** `Debug::fmt`: the slice's own `Debug` (a parameter here) applied to the dereferenced view. */
    function Fmt(sliceDebug: seq<T> -> string): (s: string)
      reads this, heap
      requires Valid() && armed
      ensures s == sliceDebug(Deref())
    {
      sliceDebug(Deref())
    }

    /** `Clone::clone`: `new_unchecked(self.deref())`, a fresh allocation holding a copy. */
    method Clone() returns (c: SmallSliceBox<T>)
      requires Valid() && armed
      modifies heap
      ensures fresh(c) && c.heap == heap && c.size == size && c.ptr != ptr
      ensures c.Holds(old(Deref())) && Holds(old(Deref()))
      ensures c.ptr !in old(heap.live) && c.ptr !in old(heap.freed)
      ensures heap.live == old(heap.live)[c.ptr := old(Deref())] && heap.freed == old(heap.freed)
    {
      var slice := Deref();
      c := NewUnchecked(heap, slice);
    }
  }

  /** `to_box(from_box(b))` gives back the same box and allocates nothing. */
  method FromBoxToBox<T>(heap: Allocator<T>, boxed: BoxSlice) returns (back: BoxSlice)
    requires heap.Valid() && heap.Owns(boxed)
    requires boxed.len <= U32_MAX
    modifies heap
    ensures back == boxed && heap.Owns(back)
    ensures heap.live == old(heap.live) && heap.freed == old(heap.freed)
  {
    var r := SmallSliceBox<T>.FromBox(heap, boxed);
    assert r.Ok?;
    var b := r.value;
    back := b.ToBox();
  }

  /** `to_box(new(s))` holds exactly the elements of `s`, in order. */
  method NewToBox<T>(heap: Allocator<T>, slice: seq<T>) returns (back: BoxSlice)
    requires heap.Valid()
    requires |slice| <= U32_MAX
    modifies heap
    ensures heap.Owns(back) && back.len == |slice| && heap.live[back.ptr] == slice
  {
    var r := SmallSliceBox<T>.New(heap, slice);
    assert r.Ok?;
    var b := r.value;
    back := b.ToBox();
  }

  /** After `to_box`, the end of the scope releases nothing: the returned box is still the owner. */
  method ToBoxThenDropGlue<T>(b: SmallSliceBox<T>) returns (back: BoxSlice)
    requires b.Valid() && b.armed
    modifies b, b.heap
    ensures back == BoxSlice(old(b.ptr), old(b.size)) && b.heap.Owns(back)
    ensures b.heap.live == old(b.heap.live) && b.heap.freed == old(b.heap.freed)
  {
    back := b.ToBox();
    b.DropGlue();
  }

  /** Writing element `i` of a clone through `deref_mut` leaves the original untouched. */
  method CloneThenMutate<T>(b: SmallSliceBox<T>, i: nat, x: T) returns (c: SmallSliceBox<T>)
    requires b.Valid() && b.armed && i < b.size
    modifies b.heap
    ensures b.Holds(old(b.Deref()))
    ensures c.Holds(old(b.Deref())[i := x])
  {
    c := b.Clone();
    var view := c.DerefMut();
    c.heap.Store(view, i, x);
  }
}

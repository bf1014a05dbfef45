/**
 * The `SlimmerPointee<SlimmerMetadata>` capability of src/slim_pointee.rs.
 *
 * A grant says that a value-kind's native pointer metadata (`<V as Pointee>::Metadata`)
 * may be stored in a narrower type and recovered later. The trait itself has no body;
 * what it relies on is the pair of integer conversions in its bounds,
 * `SlimmerMetadata: TryFrom<Metadata> + TryInto<Metadata>`, and the unchecked promise
 * that narrowing followed by widening never fails. This module gives those conversions
 * their Rust meaning (value-preserving, failing exactly when the value does not fit)
 * and proves the promise for every granted pair on every pointer width.
 */
module SlimPointee {
  import opened Wrappers

  /** Pointer width of the compilation target; `usize` has this many bits. */
  datatype Target = Target16 | Target32 | Target64

  /** The candidate metadata types: `()`, `usize`, `u8`, `u16`, `u32`, `u64`. */
  datatype Width = UnitWidth | USize | U8 | U16 | U32 | U64

  /** Value-kinds the crate grants the capability for. */
  datatype Kind = SizedKind | SliceKind | StrKind

  /** A metadata value: `()` or an unsigned integer (an element or byte count). */
  datatype Meta = Unit | Len(n: nat)

  function PointerBits(t: Target): (bits: nat)
  {
    match t
    case Target16 => 16
    case Target32 => 32
    case Target64 => 64
  }

  /** Number of bits of an integer width; `usize` follows the target. */
  function Bits(t: Target, w: Width): (bits: nat)
    requires w != UnitWidth
  {
    match w
    case USize => PointerBits(t)
    case U8 => 8
    case U16 => 16
    case U32 => 32
    case U64 => 64
  }

  function Pow2(k: nat): (r: nat)
    ensures r >= 1
  {
    if k == 0 then 1 else 2 * Pow2(k - 1)
  }

  /** `W::MAX` for an unsigned integer width `W`: 2^bits - 1. */
  function MaxValue(t: Target, w: Width): (max: nat)
    requires w != UnitWidth
  {
    Pow2(Bits(t, w)) - 1
  }

  /** `m` is a value of type `w` on target `t`. */
  predicate Represents(t: Target, w: Width, m: Meta)
  {
    if w == UnitWidth then m == Unit else m.Len? && m.n <= MaxValue(t, w)
  }

  /** `<V as Pointee>::Metadata`: `()` for sized values, `usize` for `[T]` and `str`. */
  function NativeWidth(k: Kind): (w: Width)
    ensures (w == UnitWidth) <==> (k == SizedKind)
    ensures k != SizedKind ==> w == USize
  {
    if k == SizedKind then UnitWidth else USize
  }

  /**
   * The `unsafe impl SlimmerPointee<W> for V` grants: every sized `T` with `()`,
   * `[T]` and `str` with each of `usize`, `u8`, `u16`, `u32`, `u64`.
   * Trait objects, whose metadata is a vtable pointer, are not a `Kind` at all.
   */
  function Grants(k: Kind, w: Width): (granted: bool)
    ensures granted <==> ((w == UnitWidth) <==> (k == SizedKind))
  {
    match (k, w)
    case (SizedKind, UnitWidth) => true
    case (SliceKind, USize) => true
    case (SliceKind, U8) => true
    case (SliceKind, U16) => true
    case (SliceKind, U32) => true
    case (SliceKind, U64) => true
    case (StrKind, USize) => true
    case (StrKind, U8) => true
    case (StrKind, U16) => true
    case (StrKind, U32) => true
    case (StrKind, U64) => true
    case _ => false
  }

  /**
   * `TryFrom` between two of the widths. Between `()` and `()` it is the blanket
   * identity; between unsigned integers it keeps the value and fails exactly when
   * the value exceeds the target type's maximum.
   */
  function TryConvert(t: Target, from: Width, to: Width, m: Meta): (r: Option<Meta>)
    requires Represents(t, from, m)
    requires (from == UnitWidth) <==> (to == UnitWidth)
    ensures r.Some? <==> Represents(t, to, m)
    ensures r.Some? ==> r.value == m
  {
    if Represents(t, to, m) then Some(m) else None
  }

  /** `meta.try_into()`: native metadata of a `k` value into the slim width `w`. */
  function Narrow(t: Target, k: Kind, w: Width, meta: Meta): (r: Option<Meta>)
    requires Grants(k, w) && Represents(t, NativeWidth(k), meta)
    ensures r.Some? <==> Represents(t, w, meta)
    ensures r.Some? ==> r.value == meta
  {
    TryConvert(t, NativeWidth(k), w, meta)
  }

  /** `slim_meta.try_into()`: a slim `w` value back into native metadata of a `k` value. */
  function Widen(t: Target, k: Kind, w: Width, slim: Meta): (r: Option<Meta>)
    requires Grants(k, w) && Represents(t, w, slim)
    ensures r.Some? <==> Represents(t, NativeWidth(k), slim)
    ensures r.Some? ==> r.value == slim
  {
    TryConvert(t, w, NativeWidth(k), slim)
  }

  /**
   * The trait's safety obligation: once narrowing succeeded, widening the slim value
   * back never fails and returns the original metadata.
   */
  lemma NarrowThenWiden(t: Target, k: Kind, w: Width, meta: Meta)
    requires Grants(k, w) && Represents(t, NativeWidth(k), meta)
    requires Narrow(t, k, w, meta).Some?
    ensures Represents(t, w, Narrow(t, k, w, meta).value)
    ensures Widen(t, k, w, Narrow(t, k, w, meta).value) == Some(meta)
  {
  }

  /** The converse direction: a slim value that widens narrows back to itself. */
  lemma WidenThenNarrow(t: Target, k: Kind, w: Width, slim: Meta)
    requires Grants(k, w) && Represents(t, w, slim)
    requires Widen(t, k, w, slim).Some?
    ensures Represents(t, NativeWidth(k), Widen(t, k, w, slim).value)
    ensures Narrow(t, k, w, Widen(t, k, w, slim).value) == Some(slim)
  {
  }

  /** Sized values carry `()`, so narrowing always succeeds with `()`. */
  lemma SizedAlwaysNarrows(t: Target, meta: Meta)
    requires Represents(t, NativeWidth(SizedKind), meta)
    ensures Narrow(t, SizedKind, UnitWidth, meta) == Some(Unit)
  {
  }

  /** The `usize` grant behaves like `Box<[T]>`: narrowing is the identity and never fails. */
  lemma USizeIsIdentity(t: Target, k: Kind, meta: Meta)
    requires k != SizedKind && Represents(t, NativeWidth(k), meta)
    ensures Narrow(t, k, USize, meta) == Some(meta)
    ensures Widen(t, k, USize, meta) == Some(meta)
  {
  }

  /** The caps the doc comments state, plus `u8::MAX` (the comments say 15; the bound gives 255). */
  lemma Caps(t: Target)
    ensures MaxValue(t, U8) == 255
    ensures MaxValue(t, U16) == 65535
    ensures MaxValue(t, U32) == 4294967295
    ensures MaxValue(t, U64) == 18446744073709551615
    ensures MaxValue(Target16, USize) == 65535
    ensures MaxValue(Target32, USize) == 4294967295
    ensures MaxValue(Target64, USize) == 18446744073709551615
  {
    Pow2Values();
  }

  lemma Pow2Values()
    ensures Pow2(8) == 256 && Pow2(16) == 65536
    ensures Pow2(32) == 4294967296 && Pow2(64) == 18446744073709551616
  {
    assert Pow2(8) == 256;
    Pow2Add(8, 8);
    assert Pow2(16) == 65536;
    Pow2Add(16, 16);
    assert Pow2(32) == 4294967296;
    Pow2Add(32, 32);
  }

  lemma {:induction false} Pow2Add(a: nat, b: nat)
    ensures Pow2(a + b) == Pow2(a) * Pow2(b)
  {
    if a > 0 {
      Pow2Add(a - 1, b);
    }
  }

  /** Only the value-kind's own length matters: both `[T]` and `str` obey the same caps. */
  lemma LengthNarrowsIff(t: Target, k: Kind, w: Width, n: nat)
    requires k != SizedKind && w != UnitWidth && n <= MaxValue(t, USize)
    ensures Narrow(t, k, w, Len(n)).Some? <==> n <= MaxValue(t, w)
    ensures w == U8 ==> (Narrow(t, k, w, Len(n)).Some? <==> n <= 255)
    ensures w == U16 ==> (Narrow(t, k, w, Len(n)).Some? <==> n <= 65535)
    ensures w == U32 ==> (Narrow(t, k, w, Len(n)).Some? <==> n <= 4294967295)
    ensures w == U64 ==> (Narrow(t, k, w, Len(n)).Some? <==> n <= 18446744073709551615)
  {
    Caps(t);
  }

  lemma {:induction false} Pow2Monotone(a: nat, b: nat)
    requires a <= b
    ensures Pow2(a) <= Pow2(b)
  {
    if a < b {
      Pow2Monotone(a, b - 1);
    }
  }

  /** A length that fits a narrower width fits every wider one. */
  lemma NarrowMonotone(t: Target, k: Kind, w1: Width, w2: Width, meta: Meta)
    requires Grants(k, w1) && Grants(k, w2) && Represents(t, NativeWidth(k), meta)
    requires w1 != UnitWidth && w2 != UnitWidth && Bits(t, w1) <= Bits(t, w2)
    requires Narrow(t, k, w1, meta).Some?
    ensures Narrow(t, k, w2, meta) == Some(meta)
  {
    Pow2Monotone(Bits(t, w1), Bits(t, w2));
  }
}

/**
 * `CloneUnsized::unsized_clone_from` of src/clone_unsized.rs: make `self` a clone of
 * `source` in place, for a slice `[T]`, for `str`, and for any sized `T: Clone`.
 *
 * `&mut self` and `&Self` never alias in Rust, so the target and the source are
 * distinct arrays here. `T::clone` is modelled as a plain copy of the value.
 */
module CloneUnsized {

  type byte = x: int | 0 <= x < 0x100

  predicate IsContinuation(b: byte)
  {
    0x80 <= b <= 0xBF
  }

  /** Well-formed UTF-8 (Unicode section 3.9, table 3-7): the invariant every `str` keeps. */
  predicate ValidUtf8(s: seq<byte>)
    decreases |s|
  {
    if s == [] then true
    else if s[0] <= 0x7F then ValidUtf8(s[1..])
    else if 0xC2 <= s[0] <= 0xDF then
      |s| >= 2 && IsContinuation(s[1]) && ValidUtf8(s[2..])
    else if 0xE0 <= s[0] <= 0xEF then
      |s| >= 3 && IsContinuation(s[1]) && IsContinuation(s[2])
      && (s[0] == 0xE0 ==> s[1] >= 0xA0)
      && (s[0] == 0xED ==> s[1] <= 0x9F)
      && ValidUtf8(s[3..])
    else if 0xF0 <= s[0] <= 0xF4 then
      |s| >= 4 && IsContinuation(s[1]) && IsContinuation(s[2]) && IsContinuation(s[3])
      && (s[0] == 0xF0 ==> s[1] >= 0x90)
      && (s[0] == 0xF4 ==> s[1] <= 0x8F)
      && ValidUtf8(s[4..])
    else false
  }

  /**
   * `impl CloneUnsized for [T]`: `self.clone_from_slice(source)`, a positional copy.
   * `clone_from_slice` panics on a length mismatch; the crate only calls it on a
   * target sized like the source, so equal lengths are required.
   */
  method CloneFromSlice<T>(target: array<T>, source: array<T>)
    requires target != source
    requires target.Length == source.Length
    modifies target
    ensures forall i :: 0 <= i < target.Length ==> target[i] == source[i]
    ensures target[..] == source[..]
    ensures source[..] == old(source[..])
  {
    for i := 0 to target.Length
      invariant forall j :: 0 <= j < i ==> target[j] == source[j]
    {
      target[i] := source[i];
    }
  }

  /**
   * `impl CloneUnsized for str`: the same copy on the byte buffers. Copying valid
   * UTF-8 onto a buffer of the same length leaves valid UTF-8 behind, whatever the
   * buffer held before.
   */
  method CloneFromStr(target: array<byte>, source: array<byte>)
    requires target != source
    requires target.Length == source.Length
    requires ValidUtf8(source[..])
    modifies target
    ensures target[..] == source[..]
    ensures ValidUtf8(target[..])
    ensures source[..] == old(source[..])
  {
    CloneFromSlice(target, source);
  }

  /** The place a `&mut T` points at, for a sized `T`. */
  class Place<T> {
    var value: T

    constructor (value: T)
      ensures this.value == value
    {
      this.value := value;
    }
  }

  /** `impl<T: Clone> CloneUnsized for T`: `*self = source.clone()`. */
  method CloneFromSized<T>(target: Place<T>, source: T)
    modifies target
    ensures target.value == source
  {
    target.value := source;
  }

  /** Idempotence: on a target that is already a clone of `source`, cloning again changes nothing. */
  method CloneFromSliceAgain<T>(target: array<T>, source: array<T>)
    requires target != source
    requires target.Length == source.Length
    requires target[..] == source[..]
    modifies target
    ensures target[..] == old(target[..])
  {
    CloneFromSlice(target, source);
  }
}

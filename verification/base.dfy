/** Vocabulary shared by every model: machine integer ranges, saturating
    arithmetic, options, results, and sequences that enumerate a set. */
module Base {

  datatype Option<+T> = None | Some(value: T)

  datatype Result<+T, +E> = Ok(value: T) | Err(error: E)
  {
    predicate IsFailure() { Err? }

    function PropagateFailure<U>(): Result<U, E>
      requires Err?
    {
      Err(error)
    }

    function Extract(): T
      requires Ok?
    {
      value
    }
  }

  type byte = x: int | 0 <= x < 256

  /** A Rust `String`: a sequence of Unicode scalar values. UTF-8 keeps the order
      and the prefixes of such sequences, so `Ord` and `starts_with` on them are
      those of the source. */
  type Str = string

  const I16_MAX: int := 0x7FFF
  const I32_MAX: int := 0x7FFF_FFFF
  const U32_MAX: int := 0xFFFF_FFFF
  const I64_MAX: int := 0x7FFF_FFFF_FFFF_FFFF
  const I64_MIN: int := -0x8000_0000_0000_0000
  const U64_MAX: int := 0xFFFF_FFFF_FFFF_FFFF

  predicate IsI64(x: int) { I64_MIN <= x <= I64_MAX }

  function Max(a: int, b: int): int { if a < b then b else a }

  function Min(a: int, b: int): int { if a < b then a else b }

  /** The nearest `i64`: what Rust's `saturating_add` and `saturating_sub` do
      to the exact result. */
  function SaturateI64(x: int): int { Max(I64_MIN, Min(I64_MAX, x)) }

  /** What Rust's `usize::saturating_add` does to the exact result. */
  function SaturateUsize(n: nat): nat { if n > U64_MAX then U64_MAX else n }

  /** The `i64` congruent to `x`: what Rust's `+=` stores in a release build. */
  function WrapI64(x: int): int
  {
    (x - I64_MIN) % 0x1_0000_0000_0000_0000 + I64_MIN
  }

  predicate Distinct<T(==)>(s: seq<T>)
  {
    forall i, j :: 0 <= i < j < |s| ==> s[i] != s[j]
  }

  /** The set of elements of a sequence. */
  function Elems<T>(s: seq<T>): set<T> { set x | x in s }

  /** `s` lists every element of `xs` once: one order in which a hash table
      holding `xs` may be walked. */
  predicate Enumerates<T(==)>(s: seq<T>, xs: set<T>)
  {
    Distinct(s) && Elems(s) == xs
  }
}

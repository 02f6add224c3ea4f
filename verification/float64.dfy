/**
 * The host's floating-point world, as far as the program touches it.
 *
 * A double is seen through the value it denotes: a finite double is the real
 * number it stands for, the two infinities carry their sign, and every NaN is
 * one value. Signed zero is not distinguished (both zeros cast to 0).
 * Parsing, multiplication, division and the integer-to-double conversion
 * round in ways this model does not describe, so they are parameters
 * (`FloatOps`); the one float operation modelled exactly is the saturating
 * cast to an unsigned 64-bit integer.
 */
module Float64 {
  import opened Wrappers

  const U64_MAX: int := 0xFFFF_FFFF_FFFF_FFFF

  /** Rust's `u64`. */
  type u64 = x: int | 0 <= x <= U64_MAX

  /** An IEEE 754 binary64 value, by the value it denotes. */
  datatype F64 = Finite(value: real) | Infinity(negative: bool) | NaN

  /**
   * Rust's `x as u64` for a double: truncation toward zero, saturating at
   * both ends of the `u64` range, with NaN going to 0.
   */
  function ToU64(x: F64): (r: u64)
    ensures x.NaN? ==> r == 0
    ensures x.Infinity? ==> r == (if x.negative then 0 else U64_MAX)
    ensures x.Finite? && x.value < 1.0 ==> r == 0
    // on non-negative input, r is the largest u64 not above the value
    ensures x.Finite? && 0.0 <= x.value ==>
              r as real <= x.value && (r == U64_MAX || x.value < (r as int + 1) as real)
  {
    match x
    case NaN => 0
    case Infinity(negative) => if negative then 0 else U64_MAX
    case Finite(v) =>
      if v < 0.0 then 0
      else if (U64_MAX + 1) as real <= v then U64_MAX
      else v.Floor
  }

  /** The cast never decreases as its (finite) argument grows. */
  lemma ToU64Monotone(a: real, b: real)
    requires a <= b
    ensures ToU64(Finite(a)) <= ToU64(Finite(b))
  {
  }

  /**
   * The float operations of the host that the program calls and this model
   * does not define: `str::parse::<f64>` (None when the text is not a float
   * literal), `*` and `/` on doubles, and the `u64 as f64` conversion.
   */
  datatype FloatOps = FloatOps(
    parse: string -> Option<F64>,
    mul: (F64, F64) -> F64,
    div: (F64, F64) -> F64,
    fromU64: u64 -> F64
  )
}

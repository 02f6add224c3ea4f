/**
 * The size the user typed, tagged with the unit it was typed in, and the
 * parser that builds it from an amount string and a unit string.
 */
module FileSizes {
  import opened Wrappers
  import opened Float64
  import Text

  /**
   * Rust's `enum FileSize`: a whole number of bytes, or an amount of
   * kilobytes, megabytes or gigabytes as a double.
   */
  datatype FileSize =
    | Bytes(count: u64)
    | Kilobytes(amount: F64)
    | Megabytes(amount: F64)
    | Gigabytes(amount: F64)

  /** The four units, one per variant of `FileSize`. */
  datatype Unit = ByteUnit | KilobyteUnit | MegabyteUnit | GigabyteUnit

  function UnitOf(f: FileSize): Unit {
    match f
    case Bytes(_) => ByteUnit
    case Kilobytes(_) => KilobyteUnit
    case Megabytes(_) => MegabyteUnit
    case Gigabytes(_) => GigabyteUnit
  }

  /** The short spelling of a unit, in lower case. */
  function Abbreviation(u: Unit): string {
    match u
    case ByteUnit => "b"
    case KilobyteUnit => "kb"
    case MegabyteUnit => "mb"
    case GigabyteUnit => "gb"
  }

  /** The long spelling of a unit, in lower case. */
  function LongName(u: Unit): string {
    match u
    case ByteUnit => "bytes"
    case KilobyteUnit => "kilobytes"
    case MegabyteUnit => "megabytes"
    case GigabyteUnit => "gigabytes"
  }

  /** The eight lower-case unit tokens the parser accepts. */
  const AcceptedTokens: set<string> :=
    {"b", "bytes", "kb", "kilobytes", "mb", "megabytes", "gb", "gigabytes"}

  /**
   * The match on the lowercased unit: each accepted token names its unit,
   * anything else names none.
   */
  function ParseUnit(token: string): (r: Option<Unit>)
    ensures r.Some? <==> token in AcceptedTokens
    ensures r.Some? ==> token == Abbreviation(r.value) || token == LongName(r.value)
  {
    if token == "b" || token == "bytes" then Some(ByteUnit)
    else if token == "kb" || token == "kilobytes" then Some(KilobyteUnit)
    else if token == "mb" || token == "megabytes" then Some(MegabyteUnit)
    else if token == "gb" || token == "gigabytes" then Some(GigabyteUnit)
    else None
  }

  /** Both spellings of every unit are read back as that unit. */
  lemma ParseUnitOfSpelling(u: Unit)
    ensures ParseUnit(Abbreviation(u)) == Some(u)
    ensures ParseUnit(LongName(u)) == Some(u)
  {
  }

  /**
   * Builds the variant for a unit from the parsed amount: bytes are cast to
   * a whole number, the other units keep the double as it is.
   */
  function Tagged(u: Unit, x: F64): (f: FileSize)
    ensures UnitOf(f) == u
    ensures !f.Bytes? ==> f.amount == x
    ensures f.Bytes? ==> f.count == ToU64(x)
  {
    match u
    case ByteUnit => Bytes(ToU64(x))
    case KilobyteUnit => Kilobytes(x)
    case MegabyteUnit => Megabytes(x)
    case GigabyteUnit => Gigabytes(x)
  }

  /**
   * `FileSize::from_str`: parses the amount (failing when the host parser
   * fails), then matches the lowercased unit against the accepted tokens.
   */
  function FromStr(parse: string -> Option<F64>, size: string, unit: string): (r: Option<FileSize>)
    ensures parse(size).None? ==> r.None?
    ensures r.Some? <==> parse(size).Some? && Text.Lower(unit) in AcceptedTokens
    ensures r.Some? ==>
              var l := Text.Lower(unit);
              l == Abbreviation(UnitOf(r.value)) || l == LongName(UnitOf(r.value))
    ensures r.Some? && !r.value.Bytes? ==> r.value.amount == parse(size).value
    ensures r.Some? && r.value.Bytes? ==> r.value.count == ToU64(parse(size).value)
  {
    match parse(size)
    case None => None
    case Some(x) =>
      match ParseUnit(Text.Lower(unit))
      case None => None
      case Some(u) => Some(Tagged(u, x))
  }

  /**
   * Completeness: any spelling of a unit that lowercases to one of its two
   * tokens, with a parsable amount, gives that unit's variant of the amount.
   */
  lemma FromStrAcceptsEverySpelling(parse: string -> Option<F64>, size: string, unit: string, u: Unit)
    requires parse(size).Some?
    requires Text.Lower(unit) == Abbreviation(u) || Text.Lower(unit) == LongName(u)
    ensures FromStr(parse, size, unit) == Some(Tagged(u, parse(size).value))
  {
  }

  /** Unit matching ignores case: a unit and its lowercase form parse alike. */
  lemma FromStrIgnoresCase(parse: string -> Option<F64>, size: string, unit: string)
    ensures FromStr(parse, size, unit) == FromStr(parse, size, Text.Lower(unit))
  {
    Text.LowerIdempotent(unit);
  }

  /**
   * A unit written with U+212A KELVIN SIGN in place of `k` is still read as
   * kilobytes, because that sign lowercases to `k`.
   */
  lemma FromStrKelvinSign(parse: string -> Option<F64>, size: string)
    requires parse(size).Some?
    ensures FromStr(parse, size, [Text.KelvinSign, 'B']) == Some(Kilobytes(parse(size).value))
  {
    assert Text.Lower([Text.KelvinSign, 'B']) == "kb";
  }

  /** Capitals and mixed case in typical spellings. */
  lemma FromStrMixedCase(parse: string -> Option<F64>, size: string)
    requires parse(size).Some?
    ensures FromStr(parse, size, "MB") == Some(Megabytes(parse(size).value))
    ensures FromStr(parse, size, "Bytes") == Some(Bytes(ToU64(parse(size).value)))
  {
    assert Text.Lower("MB") == "mb";
    assert Text.Lower("Bytes") == "bytes" by {
      assert Text.Lower("Bytes") == [Text.LowerChar('B')] + Text.Lower("ytes");
      Text.LowerOfLowercase("ytes");
    }
  }

  /** Tokens outside the eight are refused whatever their case, the empty one included. */
  lemma FromStrRefusesOtherUnits(parse: string -> Option<F64>, size: string)
    ensures FromStr(parse, size, "xx").None?
    ensures FromStr(parse, size, "KG").None?
    ensures FromStr(parse, size, "").None?
    ensures FromStr(parse, size, "kbs").None?
    ensures FromStr(parse, size, "xyz").None?
  {
    assert Text.Lower("xx") !in AcceptedTokens by { Text.LowerOfLowercase("xx"); }
    assert Text.Lower("KG") !in AcceptedTokens by { assert Text.Lower("KG") == "kg"; }
    assert Text.Lower("kbs") !in AcceptedTokens by { Text.LowerOfLowercase("kbs"); }
    assert Text.Lower("xyz") !in AcceptedTokens by { Text.LowerOfLowercase("xyz"); }
  }

  /** The factor `to_bytes` multiplies each unit's amount by. */
  function BytesPer(u: Unit): (r: real)
    ensures r >= 1.0
  {
    match u
    case ByteUnit => 1.0
    case KilobyteUnit => 1000.0
    case MegabyteUnit => 1_000_000.0
    case GigabyteUnit => 1_000_000_000.0
  }

  /**
   * `FileSize::to_bytes`: a byte count is returned as it is; an amount in a
   * larger unit is multiplied by the unit's factor with the host's double
   * multiplication, then cast to `u64`.
   */
  function ToBytes(ops: FloatOps, f: FileSize): (r: u64)
    ensures f.Bytes? ==> r == f.count
  {
    match f
    case Bytes(b) => b
    case Kilobytes(kb) => ToU64(ops.mul(kb, Finite(1000.0)))
    case Megabytes(mb) => ToU64(ops.mul(mb, Finite(1_000_000.0)))
    case Gigabytes(gb) => ToU64(ops.mul(gb, Finite(1_000_000_000.0)))
  }

  /**
   * When the host multiplication is exact on the amount, `to_bytes`
   * truncates the amount times the unit's factor; it is the whole number of
   * bytes the amount denotes, as long as that fits in a `u64`.
   */
  lemma ToBytesTruncates(ops: FloatOps, f: FileSize, v: real)
    requires !f.Bytes? && f.amount == Finite(v) && 0.0 <= v
    requires ops.mul(f.amount, Finite(BytesPer(UnitOf(f)))) == Finite(v * BytesPer(UnitOf(f)))
    requires v * BytesPer(UnitOf(f)) < (U64_MAX + 1) as real
    ensures ToBytes(ops, f) == (v * BytesPer(UnitOf(f))).Floor
  {
  }

  /** A negative amount gives zero bytes when the multiplication is exact. */
  lemma ToBytesOfNegative(ops: FloatOps, f: FileSize, v: real)
    requires !f.Bytes? && f.amount == Finite(v) && v < 0.0
    requires ops.mul(f.amount, Finite(BytesPer(UnitOf(f)))) == Finite(v * BytesPer(UnitOf(f)))
    ensures ToBytes(ops, f) == 0
  {
  }
}

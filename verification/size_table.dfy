/** The conversion table: one size expressed in all four units. */
module SizeTable {
  import opened Wrappers
  import opened Float64
  import FileSizes
  import Text

  /**
   * Rust's `struct Sizes`: the whole number of bytes and the same size in
   * kilobytes, megabytes and gigabytes as doubles.
   */
  datatype Sizes = Sizes(bytes: u64, kilobytes: F64, megabytes: F64, gigabytes: F64)

  /**
   * `Sizes::from_filesize`: converts the size to bytes first, then derives
   * the three fractional units from that byte count alone, dividing with the
   * host's double operations.
   */
  function FromFileSize(ops: FloatOps, f: FileSizes.FileSize): (s: Sizes)
    ensures s.bytes == FileSizes.ToBytes(ops, f)
    ensures f.Bytes? ==> s.bytes == f.count
  {
    var bytes := FileSizes.ToBytes(ops, f);
    Sizes(
      bytes,
      ops.div(ops.fromU64(bytes), Finite(1000.0)),
      ops.div(ops.fromU64(bytes), Finite(1_000_000.0)),
      ops.div(ops.fromU64(bytes), Finite(1_000_000_000.0))
    )
  }

  /**
   * The table depends on the size only through its byte count: the
   * fractional part below one byte of a kilobyte, megabyte or gigabyte
   * amount is lost and not recovered in the other columns.
   */
  lemma FromFileSizeOnlyThroughBytes(ops: FloatOps, f: FileSizes.FileSize, g: FileSizes.FileSize)
    requires FileSizes.ToBytes(ops, f) == FileSizes.ToBytes(ops, g)
    ensures FromFileSize(ops, f) == FromFileSize(ops, g)
  {
  }

  /** Converting a size to its byte count first gives the same table. */
  lemma FromFileSizeOfBytes(ops: FloatOps, f: FileSizes.FileSize)
    ensures FromFileSize(ops, FileSizes.Bytes(FileSizes.ToBytes(ops, f))) == FromFileSize(ops, f)
  {
  }

  /**
   * `Sizes::from_str`: the parsed size, if any, turned into a table; a
   * failure of the parser is passed on unchanged.
   */
  function FromStr(ops: FloatOps, size: string, unit: string): (r: Option<Sizes>)
    ensures r.None? <==> FileSizes.FromStr(ops.parse, size, unit).None?
    ensures r.Some? ==> r.value.bytes == FileSizes.ToBytes(ops, FileSizes.FromStr(ops.parse, size, unit).value)
    ensures r.Some? ==> r.value == FromFileSize(ops, FileSizes.FromStr(ops.parse, size, unit).value)
  {
    FileSizes.FromStr(ops.parse, size, unit).Map(f => FromFileSize(ops, f))
  }

  /** An amount given in bytes reaches the table's byte column as its `u64` cast. */
  lemma FromStrInBytes(ops: FloatOps, size: string, unit: string)
    requires ops.parse(size).Some?
    requires Text.Lower(unit) in {"b", "bytes"}
    ensures FromStr(ops, size, unit).Some?
    ensures FromStr(ops, size, unit).value.bytes == ToU64(ops.parse(size).value)
  {
    FileSizes.FromStrAcceptsEverySpelling(ops.parse, size, unit, FileSizes.ByteUnit);
  }

  /**
   * An amount given in kilobytes, megabytes or gigabytes reaches the byte
   * column as the amount times the unit's factor, truncated, when the host
   * multiplication is exact.
   */
  lemma FromStrInLargerUnit(ops: FloatOps, size: string, unit: string, u: FileSizes.Unit, v: real)
    requires u != FileSizes.ByteUnit
    requires Text.Lower(unit) == FileSizes.Abbreviation(u) || Text.Lower(unit) == FileSizes.LongName(u)
    requires ops.parse(size) == Some(Finite(v))
    requires ops.mul(Finite(v), Finite(FileSizes.BytesPer(u))) == Finite(v * FileSizes.BytesPer(u))
    requires 0.0 <= v && v * FileSizes.BytesPer(u) < (U64_MAX + 1) as real
    ensures FromStr(ops, size, unit).Some?
    ensures FromStr(ops, size, unit).value.bytes == (v * FileSizes.BytesPer(u)).Floor
  {
    var f := FileSizes.Tagged(u, Finite(v));
    assert FileSizes.FromStr(ops.parse, size, unit) == Some(f) by {
      FileSizes.FromStrAcceptsEverySpelling(ops.parse, size, unit, u);
    }
    assert FileSizes.ToBytes(ops, f) == (v * FileSizes.BytesPer(u)).Floor by {
      FileSizes.ToBytesTruncates(ops, f, v);
    }
  }
}

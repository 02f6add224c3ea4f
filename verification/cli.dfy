/**
 * The entry point: one argument holding "<amount> <unit>", split on
 * whitespace, parsed, and turned into a table or a user-facing error.
 */
module Cli {
  import opened Wrappers
  import opened Float64
  import Text
  import FileSizes
  import SizeTable

  /**
   * How a run ends: aborted by a failed argument-count assertion (misuse of
   * the command), the recoverable invalid-size-or-unit message, or the table.
   */
  datatype Outcome = Aborted | InvalidInput | Table(sizes: SizeTable.Sizes)

  /**
   * `main`, given the process arguments (program name first): exactly one
   * argument, which must split into exactly two whitespace-separated tokens,
   * read as the amount and then the unit.
   */
  function Run(ops: FloatOps, args: seq<string>): (r: Outcome)
    // the fatal tier: wrong shape of invocation, and nothing else
    ensures r.Aborted? <==> |args| != 2 || |Text.Words(args[1])| != 2
    // the recoverable tier: a well-shaped invocation whose amount or unit is refused
    ensures r.InvalidInput? <==>
              |args| == 2 && |Text.Words(args[1])| == 2 &&
              FileSizes.FromStr(ops.parse, Text.Words(args[1])[0], Text.Words(args[1])[1]).None?
    // otherwise the first token is the amount and the second the unit
    ensures r.Table? ==>
              |args| == 2 && |Text.Words(args[1])| == 2 &&
              SizeTable.FromStr(ops, Text.Words(args[1])[0], Text.Words(args[1])[1]) == Some(r.sizes)
  {
    if |args| != 2 then Aborted
    else
      var tokens := Text.Words(args[1]);
      if |tokens| != 2 then Aborted
      else
        match SizeTable.FromStr(ops, tokens[0], tokens[1])
        case None => InvalidInput
        case Some(sizes) => Table(sizes)
  }

  /** A two-word argument written with one space splits into those two words. */
  lemma TwoTokens(amount: string, unit: string, arg: string)
    requires Text.IsToken(amount) && Text.IsToken(unit)
    requires arg == amount + " " + unit
    ensures Text.Words(arg) == [amount, unit]
  {
    assert arg == Text.Join([amount, unit]);
    Text.WordsOfJoin([amount, unit]);
  }

  /**
   * Once the argument splits into an amount and a unit, the run reports
   * exactly what `Sizes::from_str` makes of that pair.
   */
  lemma RunOfTwoTokens(ops: FloatOps, program: string, arg: string, amount: string, unit: string)
    requires Text.Words(arg) == [amount, unit]
    ensures SizeTable.FromStr(ops, amount, unit).None? ==> Run(ops, [program, arg]) == InvalidInput
    ensures SizeTable.FromStr(ops, amount, unit).Some? ==>
              Run(ops, [program, arg]) == Table(SizeTable.FromStr(ops, amount, unit).value)
  {
  }

  /** Only the tokens of the argument matter, not how much whitespace separates them. */
  lemma RunSeesOnlyTokens(ops: FloatOps, program: string, a: string, b: string)
    requires Text.Words(a) == Text.Words(b)
    ensures Run(ops, [program, a]) == Run(ops, [program, b])
  {
  }

  /** A third token is misuse of the command: the run aborts, whatever the tokens say. */
  lemma RunAbortsOnThreeTokens(ops: FloatOps, program: string)
    ensures Run(ops, [program, "24 mb extra"]).Aborted?
  {
    assert |Text.Words("24 mb extra")| == 3 by {
      assert "24 mb extra" == Text.Join(["24", "mb", "extra"]);
      assert Text.IsToken("24") && Text.IsToken("mb") && Text.IsToken("extra");
      Text.WordsOfJoin(["24", "mb", "extra"]);
    }
  }

  /** A missing unit is misuse of the command as well. */
  lemma RunAbortsOnOneToken(ops: FloatOps, program: string)
    ensures Run(ops, [program, "24"]).Aborted?
  {
    assert |Text.Words("24")| == 1 by {
      assert "24" == Text.Join(["24"]);
      assert Text.IsToken("24");
      Text.WordsOfJoin(["24"]);
    }
  }

  /** A wrong number of process arguments aborts before anything is parsed. */
  lemma RunAbortsOnArgumentCount(ops: FloatOps, args: seq<string>)
    requires |args| != 2
    ensures Run(ops, args).Aborted?
  {
  }

  /** An unknown unit is reported, not fatal, whatever the amount parses to. */
  lemma RunReportsUnknownUnit(ops: FloatOps, program: string)
    ensures Run(ops, [program, "5 xyz"]).InvalidInput?
  {
    assert Text.Words("5 xyz") == ["5", "xyz"] by {
      TwoTokens("5", "xyz", "5 xyz");
    }
    assert SizeTable.FromStr(ops, "5", "xyz").None? by {
      FileSizes.FromStrRefusesOtherUnits(ops.parse, "5");
    }
    RunOfTwoTokens(ops, program, "5 xyz", "5", "xyz");
  }

  /** An amount the host parser refuses is reported, not fatal, even with a valid unit. */
  lemma RunReportsBadAmount(ops: FloatOps, program: string)
    requires ops.parse("abc").None?
    ensures Run(ops, [program, "abc mb"]).InvalidInput?
  {
    assert Text.Words("abc mb") == ["abc", "mb"] by {
      TwoTokens("abc", "mb", "abc mb");
    }
    RunOfTwoTokens(ops, program, "abc mb", "abc", "mb");
  }

  /**
   * A well-formed argument naming bytes yields the table whose byte column
   * is the amount truncated to a whole number.
   */
  lemma RunInBytes(ops: FloatOps, program: string, amount: string, unit: string, v: real)
    requires Text.IsToken(amount) && Text.IsToken(unit)
    requires Text.Lower(unit) in {"b", "bytes"}
    requires ops.parse(amount) == Some(Finite(v))
    requires 0.0 <= v < (U64_MAX + 1) as real
    ensures Run(ops, [program, amount + " " + unit]).Table?
    ensures Run(ops, [program, amount + " " + unit]).sizes.bytes == v.Floor
  {
    assert Text.Words(amount + " " + unit) == [amount, unit] by {
      TwoTokens(amount, unit, amount + " " + unit);
    }
    assert SizeTable.FromStr(ops, amount, unit).Some? && SizeTable.FromStr(ops, amount, unit).value.bytes == v.Floor by {
      SizeTable.FromStrInBytes(ops, amount, unit);
    }
    RunOfTwoTokens(ops, program, amount + " " + unit, amount, unit);
  }

  /**
   * A well-formed argument naming kilobytes, megabytes or gigabytes yields
   * the table whose byte column is the amount times the unit's factor,
   * truncated, when the host multiplication is exact.
   */
  lemma RunInLargerUnit(ops: FloatOps, program: string, amount: string, unit: string, u: FileSizes.Unit, v: real)
    requires Text.IsToken(amount) && Text.IsToken(unit)
    requires u != FileSizes.ByteUnit
    requires Text.Lower(unit) == FileSizes.Abbreviation(u) || Text.Lower(unit) == FileSizes.LongName(u)
    requires ops.parse(amount) == Some(Finite(v))
    requires ops.mul(Finite(v), Finite(FileSizes.BytesPer(u))) == Finite(v * FileSizes.BytesPer(u))
    requires 0.0 <= v && v * FileSizes.BytesPer(u) < (U64_MAX + 1) as real
    ensures Run(ops, [program, amount + " " + unit]).Table?
    ensures Run(ops, [program, amount + " " + unit]).sizes.bytes == (v * FileSizes.BytesPer(u)).Floor
  {
    assert Text.Words(amount + " " + unit) == [amount, unit] by {
      TwoTokens(amount, unit, amount + " " + unit);
    }
    assert SizeTable.FromStr(ops, amount, unit).Some? &&
           SizeTable.FromStr(ops, amount, unit).value.bytes == (v * FileSizes.BytesPer(u)).Floor by {
      SizeTable.FromStrInLargerUnit(ops, amount, unit, u, v);
    }
    RunOfTwoTokens(ops, program, amount + " " + unit, amount, unit);
  }

  /** "24 mb" is 24,000,000 bytes when the amount parses as 24 and the product is exact. */
  lemma RunTwentyFourMegabytes(ops: FloatOps, program: string)
    requires ops.parse("24") == Some(Finite(24.0))
    requires ops.mul(Finite(24.0), Finite(1_000_000.0)) == Finite(24_000_000.0)
    ensures Run(ops, [program, "24 mb"]).Table?
    ensures Run(ops, [program, "24 mb"]).sizes.bytes == 24_000_000
  {
    assert Text.IsToken("24") && Text.IsToken("mb");
    assert Text.Lower("mb") == "mb" by { Text.LowerOfLowercase("mb"); }
    assert "24" + " " + "mb" == "24 mb";
    RunInLargerUnit(ops, program, "24", "mb", FileSizes.MegabyteUnit, 24.0);
  }

  /** "1000 bytes" is 1000 bytes when the amount parses as 1000. */
  lemma RunThousandBytes(ops: FloatOps, program: string)
    requires ops.parse("1000") == Some(Finite(1000.0))
    ensures Run(ops, [program, "1000 bytes"]).Table?
    ensures Run(ops, [program, "1000 bytes"]).sizes.bytes == 1000
  {
    assert Text.IsToken("1000") && Text.IsToken("bytes");
    assert Text.Lower("bytes") == "bytes" by { Text.LowerOfLowercase("bytes"); }
    assert "1000" + " " + "bytes" == "1000 bytes";
    RunInBytes(ops, program, "1000", "bytes", 1000.0);
  }

  /** "1.5 kb" is 1500 bytes: the product 1500.0 is exact and the cast truncates. */
  lemma RunOneAndAHalfKilobytes(ops: FloatOps, program: string)
    requires ops.parse("1.5") == Some(Finite(1.5))
    requires ops.mul(Finite(1.5), Finite(1000.0)) == Finite(1500.0)
    ensures Run(ops, [program, "1.5 kb"]).Table?
    ensures Run(ops, [program, "1.5 kb"]).sizes.bytes == 1500
  {
    assert Text.IsToken("1.5") && Text.IsToken("kb");
    assert Text.Lower("kb") == "kb" by { Text.LowerOfLowercase("kb"); }
    assert "1.5" + " " + "kb" == "1.5 kb";
    RunInLargerUnit(ops, program, "1.5", "kb", FileSizes.KilobyteUnit, 1.5);
  }
}

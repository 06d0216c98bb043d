/** Conversions between the three ways the program speaks of display scaling: the raw
    DPI Windows reports, the scaling percentage (96 DPI is 100%), and the scaling index
    of the standard steps 100%, 125%, 150%, 175% and 200%.

    Each conversion looks its argument up in a five-entry table and otherwise falls back
    to a formula; every formula ends in `Convert.ToUInt16`, which throws an
    OverflowException above 65535. */
module DpiConversions {
  import opened DotNet

  /** The standard raw DPI values and the percentages they stand for, pairwise. */
  const StandardDpi: seq<uint32> := [96, 120, 144, 168, 192]
  const StandardPercent: seq<uint32> := [100, 125, 150, 175, 200]
  /** The keys of the raw-DPI index table, which start at 100 rather than 96. */
  const IndexTableDpi: seq<uint32> := [100, 120, 144, 168, 192]

  /** Largest raw DPI whose percentage still fits in a `ushort`. */
  const MaxConvertibleDpi := 62914
  /** Largest percentage whose raw DPI still fits in a `ushort`. */
  const MaxConvertiblePercent := 68266

  /** Fallback of the raw-to-percent table: `100m / 96m * dpi`, rounded by Convert.ToUInt16.
      The exact quotient 25·dpi/24 is used; see DpiToPercent for the tie cases. */
  function PercentFormula(dpi: uint32): Result<uint16>
  {
    ToUInt16(RoundHalfEven(100 * dpi, 96))
  }

  /** Fallback of the percent-to-raw table: `percent / 100m * 96m`, which decimal computes
      exactly, rounded by Convert.ToUInt16. */
  function DpiFormula(percent: uint32): Result<uint16>
  {
    ToUInt16(RoundHalfEven(96 * percent, 100))
  }

  /** Fallback of both index tables: `(dpi - 96) / 24` on `uint` (the subtraction wraps),
      then Convert.ToUInt16. */
  function IndexFormula(dpi: uint32): Result<uint16>
  {
    ToUInt16(WrapUInt32(dpi - 96) / 24)
  }

  /** DPItoDPIPERCENT. The result is within one half of 25·dpi/24, and is the nearest
      integer to it unless dpi mod 24 = 12, where 25·dpi/24 lies halfway between two
      integers. At those tie inputs the value computed in System.Decimal, and so its
      rounding, depends on the decimal precision of 100m / 96m; nothing more is promised. */
  function DpiToPercent(dpi: uint32): (r: Result<uint16>)
    ensures r.Ok? <==> dpi <= MaxConvertibleDpi
    ensures r.Err? ==> r.error == OverflowException
    ensures r.Ok? ==> -12 <= 24 * r.value - 25 * dpi <= 12
    ensures r.Ok? && dpi % 24 != 12 ==> -12 < 24 * r.value - 25 * dpi < 12
  {
    if dpi == 96 then Ok(100)
    else if dpi == 120 then Ok(125)
    else if dpi == 144 then Ok(150)
    else if dpi == 168 then Ok(175)
    else if dpi == 192 then Ok(200)
    else
      var q := RoundHalfEven(100 * dpi, 96);
      assert -12 <= 24 * q - 25 * dpi <= 12;
      assert dpi == 24 * (dpi / 24) + dpi % 24;
      assert 24 * q - 25 * dpi == 24 * (q - 25 * (dpi / 24) - dpi % 24) - dpi % 24;
      PercentFormula(dpi)
  }

  /** DPIPERCENTtoDPI. The result is the nearest integer to 24·percent/25 (never a tie,
      since 48·percent is even and 25 is odd). */
  function PercentToDpi(percent: uint32): (r: Result<uint16>)
    ensures r.Ok? <==> percent <= MaxConvertiblePercent
    ensures r.Err? ==> r.error == OverflowException
    ensures r.Ok? ==> -25 < 50 * r.value - 48 * percent < 25
  {
    if percent == 100 then Ok(96)
    else if percent == 125 then Ok(120)
    else if percent == 150 then Ok(144)
    else if percent == 175 then Ok(168)
    else if percent == 200 then Ok(192)
    else
      var r := DpiFormula(percent);
      assert r.Ok? ==> (50 * r.value - 48 * percent) % 2 == 0;
      r
  }

  /** DPItoDPIINDEX. Although the table is keyed 100, 120, 144, 168, 192, the result is
      always the number of whole 24-DPI steps above 96; below 96 the unsigned
      subtraction wraps and the conversion overflows. */
  function DpiToIndex(dpi: uint32): (r: Result<uint16>)
    ensures r.Ok? <==> 96 <= dpi < 96 + 24 * 0x1_0000
    ensures r.Err? ==> r.error == OverflowException
    ensures r.Ok? ==> 24 * r.value <= dpi - 96 < 24 * r.value + 24
  {
    if dpi == 100 then Ok(0)
    else if dpi == 120 then Ok(1)
    else if dpi == 144 then Ok(2)
    else if dpi == 168 then Ok(3)
    else if dpi == 192 then Ok(4)
    else IndexFormula(dpi)
  }

  /** DPIPERCENTtoDPIINDEX. The index of a percentage is the index of its raw DPI,
      so it fails exactly when the percentage is below 100 or its raw DPI overflows. */
  function PercentToIndex(percent: uint32): (r: Result<uint16>)
    ensures r.Ok? <==> 100 <= percent <= MaxConvertiblePercent
    ensures r.Err? ==> r.error == OverflowException
    ensures r == match PercentToDpi(percent)
                 case Ok(dpi) => DpiToIndex(dpi)
                 case Err(e) => Err(e)
  {
    if percent == 100 then Ok(0)
    else if percent == 125 then Ok(1)
    else if percent == 150 then Ok(2)
    else if percent == 175 then Ok(3)
    else if percent == 200 then Ok(4)
    else
      match PercentToDpi(percent)
      case Err(e) => Err(e)
      case Ok(dpi) => IndexFormula(dpi)
  }

  /** The five standard pairs: raw and percent map to each other exactly, and both map
      to the indices 0 to 4 in order. */
  lemma StandardPairs(i: nat)
    requires i < 5
    ensures DpiToPercent(StandardDpi[i]) == Ok(StandardPercent[i])
    ensures PercentToDpi(StandardPercent[i]) == Ok(StandardDpi[i])
    ensures PercentToIndex(StandardPercent[i]) == Ok(i)
    ensures DpiToIndex(StandardDpi[i]) == Ok(i)
  {
  }

  /** Every table entry is what the fallback formula would have computed, so the tables
      never change a result; they only spare the decimal arithmetic. */
  lemma FormulasReproduceTables(i: nat)
    requires i < 5
    ensures PercentFormula(StandardDpi[i]) == Ok(StandardPercent[i])
    ensures DpiFormula(StandardPercent[i]) == Ok(StandardDpi[i])
    ensures IndexFormula(IndexTableDpi[i]) == Ok(i)
    ensures IndexFormula(StandardDpi[i]) == Ok(i)
  {
    if i == 0 {
    } else if i == 1 {
    } else if i == 2 {
    } else if i == 3 {
    } else {
    }
  }

  /** The raw-to-percent table is a shortcut only: DPItoDPIPERCENT returns what its
      fallback formula returns, on every raw value. */
  lemma DpiToPercentIsFormula(dpi: uint32)
    ensures DpiToPercent(dpi) == PercentFormula(dpi)
  {
    if dpi == 96 { FormulasReproduceTables(0); }
    else if dpi == 120 { FormulasReproduceTables(1); }
    else if dpi == 144 { FormulasReproduceTables(2); }
    else if dpi == 168 { FormulasReproduceTables(3); }
    else if dpi == 192 { FormulasReproduceTables(4); }
  }

  /** The percent-to-raw table is a shortcut only: DPIPERCENTtoDPI returns what its
      fallback formula returns, on every percentage. */
  lemma PercentToDpiIsFormula(percent: uint32)
    ensures PercentToDpi(percent) == DpiFormula(percent)
  {
    if percent == 100 { FormulasReproduceTables(0); }
    else if percent == 125 { FormulasReproduceTables(1); }
    else if percent == 150 { FormulasReproduceTables(2); }
    else if percent == 175 { FormulasReproduceTables(3); }
    else if percent == 200 { FormulasReproduceTables(4); }
  }

  /** DPItoDPIINDEX is the number of whole 24-DPI steps above 96 at every raw value: its
      table, keyed 100 rather than 96 at the first entry, never changes the result. */
  lemma DpiToIndexIsFormula(dpi: uint32)
    ensures DpiToIndex(dpi) == IndexFormula(dpi)
  {
    if dpi == 100 { FormulasReproduceTables(0); }
    else if dpi == 120 { FormulasReproduceTables(1); }
    else if dpi == 144 { FormulasReproduceTables(2); }
    else if dpi == 168 { FormulasReproduceTables(3); }
    else if dpi == 192 { FormulasReproduceTables(4); }
  }

  /** DPIPERCENTtoDPIINDEX is the index formula applied to the raw-DPI formula, on every
      percentage: its table never changes the result either. */
  lemma PercentToIndexIsFormula(percent: uint32)
    ensures PercentToIndex(percent) == match DpiFormula(percent)
                                       case Ok(dpi) => IndexFormula(dpi)
                                       case Err(e) => Err(e)
  {
    PercentToDpiIsFormula(percent);
    if percent == 100 { FormulasReproduceTables(0); }
    else if percent == 125 { FormulasReproduceTables(1); }
    else if percent == 150 { FormulasReproduceTables(2); }
    else if percent == 175 { FormulasReproduceTables(3); }
    else if percent == 200 { FormulasReproduceTables(4); }
  }

  /** Converting a raw DPI to percent and back restores it, for every raw DPI that
      converts at all (tie inputs included). */
  lemma DpiPercentRoundTrip(dpi: uint32)
    requires dpi <= MaxConvertibleDpi
    ensures DpiToPercent(dpi).Ok?
    ensures PercentToDpi(DpiToPercent(dpi).value) == Ok(dpi)
  {
  }

  /** Distinct raw values map to increasing percentages. */
  lemma DpiToPercentIncreasing(a: uint32, b: uint32)
    requires a < b <= MaxConvertibleDpi
    ensures DpiToPercent(a).value < DpiToPercent(b).value
  {
  }

  /** A larger percentage never maps to a smaller raw DPI. */
  lemma PercentToDpiMonotone(a: uint32, b: uint32)
    requires a <= b <= MaxConvertiblePercent
    ensures PercentToDpi(a).value <= PercentToDpi(b).value
  {
  }

  /** Below 96 DPI, or below 100%, the unsigned subtraction in the index formula wraps
      and the index conversion throws. */
  lemma IndexUnderflow(dpi: uint32, percent: uint32)
    requires dpi < 96 && percent < 100
    ensures DpiToIndex(dpi) == Err(OverflowException)
    ensures PercentToIndex(percent) == Err(OverflowException)
    ensures WrapUInt32(dpi - 96) == dpi - 96 + 0x1_0000_0000
  {
  }
}

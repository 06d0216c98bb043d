/** Read-only queries of the primary monitor: its width, its height and its DPI. */
module PrimaryScreenStats {
  import opened DotNet
  import opened DpiConversions
  import opened Win32

  /** GetPrimaryScreenWidth: the width of the primary monitor's rectangle. */
  function GetPrimaryScreenWidth(os: Display): (width: int32)
    reads os
    ensures width == os.monitorWidth
  {
    os.monitorWidth
  }

  /** GetPrimaryScreenHeight: the height of the primary monitor's rectangle. */
  function GetPrimaryScreenHeight(os: Display): (height: int32)
    reads os
    ensures height == os.monitorHeight
  {
    os.monitorHeight
  }

  /** The raw DPI as GetPrimaryScreenDPI computes it: `Math.Round((dpiX + dpiY) / 2.0)`,
      where `dpiX + dpiY` is an unchecked `uint` addition, then Convert.ToUInt16.
      The result is a nearest integer to the mean of the (wrapped) sum, an odd sum
      rounding to the even neighbour. */
  function AverageDpi(dpiX: uint32, dpiY: uint32): (r: Result<uint16>)
    ensures var sum := WrapUInt32(dpiX + dpiY);
      (r.Ok? <==> sum <= 2 * 0xFFFF) &&
      (r.Err? ==> r.error == OverflowException) &&
      (r.Ok? ==> -1 <= 2 * r.value - sum <= 1 && (sum % 2 == 1 ==> r.value % 2 == 0))
  {
    ToUInt16(RoundHalfEven(WrapUInt32(dpiX + dpiY), 2))
  }

  /** The pure rule of GetPrimaryScreenDPI: the averaged raw DPI, or its percentage.
      The percent form fails exactly when the raw form fails or its percentage overflows,
      and it lies within one half of 25/24 of the raw form. */
  function ScreenDpi(dpiX: uint32, dpiY: uint32, inPercent: bool): (r: Result<uint16>)
    ensures !inPercent ==> r == AverageDpi(dpiX, dpiY)
    ensures inPercent ==>
      (r.Ok? <==> AverageDpi(dpiX, dpiY).Ok? && AverageDpi(dpiX, dpiY).value <= MaxConvertibleDpi)
    ensures r.Err? ==> r.error == OverflowException
    ensures inPercent && r.Ok? ==> -12 <= 24 * r.value - 25 * AverageDpi(dpiX, dpiY).value <= 12
  {
    match AverageDpi(dpiX, dpiY)
    case Err(e) => Err(e)
    case Ok(dpi) => if inPercent then DpiToPercent(dpi) else Ok(dpi)
  }

  /** GetPrimaryScreenDPI(DPIinPercent), with the percentage as the default. The raw
      form is the rounded mean of the monitor's two axes; the percent form converts back
      to it through DPIPERCENTtoDPI. */
  function GetPrimaryScreenDpi(os: Display, inPercent: bool := true): (r: Result<uint16>)
    reads os
    ensures !inPercent ==> r == AverageDpi(os.dpiX, os.dpiY)
    ensures inPercent && r.Ok? ==> PercentToDpi(r.value) == AverageDpi(os.dpiX, os.dpiY)
  {
    PercentReadingRoundTripIfOk(os.dpiX, os.dpiY);
    ScreenDpi(os.dpiX, os.dpiY, inPercent)
  }

  /** When both axes agree (and fit a `ushort`), the raw reading is that value. */
  lemma EqualAxes(dpi: uint32)
    requires dpi <= 0xFFFF
    ensures ScreenDpi(dpi, dpi, false) == Ok(dpi)
  {
  }

  /** If the sum of the axes does not wrap, the raw reading lies between them. */
  lemma AverageBetweenAxes(dpiX: uint32, dpiY: uint32)
    requires dpiX + dpiY <= 2 * 0xFFFF
    ensures ScreenDpi(dpiX, dpiY, false).Ok?
    ensures var dpi := ScreenDpi(dpiX, dpiY, false).value;
      (dpiX <= dpi <= dpiY) || (dpiY <= dpi <= dpiX)
  {
  }

  /** Axis values whose sum reaches 2^32 wrap around: two axes of 2^31 + 96 read as 96. */
  lemma AxisSumWraps()
    ensures ScreenDpi(0x8000_0060, 0x8000_0060, false) == Ok(96)
  {
  }

  /** PercentReadingRoundTrip where the percent reading succeeds, and nothing otherwise. */
  lemma PercentReadingRoundTripIfOk(dpiX: uint32, dpiY: uint32)
    ensures ScreenDpi(dpiX, dpiY, true).Ok?
      ==> PercentToDpi(ScreenDpi(dpiX, dpiY, true).value) == ScreenDpi(dpiX, dpiY, false)
  {
    if ScreenDpi(dpiX, dpiY, true).Ok? {
      PercentReadingRoundTrip(dpiX, dpiY);
    }
  }

  /** The percentage reading converts back, through DPIPERCENTtoDPI, to the raw reading:
      nothing is lost in GetPrimaryScreenDPI's percent form. */
  lemma PercentReadingRoundTrip(dpiX: uint32, dpiY: uint32)
    requires ScreenDpi(dpiX, dpiY, true).Ok?
    ensures ScreenDpi(dpiX, dpiY, false).Ok?
    ensures PercentToDpi(ScreenDpi(dpiX, dpiY, true).value) == ScreenDpi(dpiX, dpiY, false)
  {
    DpiPercentRoundTrip(AverageDpi(dpiX, dpiY).value);
  }
}

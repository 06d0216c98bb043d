/** The operating-system boundary of the core, as a fake display whose queries read
    its fields and whose two mutating calls may change any of them.

    Nothing here says what Windows does: the mutating calls promise only that they are
    recorded, with the answer they gave, in the ghost log `mutations`. The setters in
    Actions are therefore verified against every possible behaviour of the OS. */
module Win32 {
  import opened DotNet

  /** The fields of DEVMODEW the core touches or passes through. */
  datatype DevMode = DevMode(
    pelsWidth: uint32,
    pelsHeight: uint32,
    bitsPerPel: uint32,
    displayFrequency: uint32,
    displayFlags: uint32)

  /** `new DEVMODEW()`: every field zero. */
  const ZeroMode := DevMode(0, 0, 0, 0, 0)

  /** DISP_CHANGE, the status ChangeDisplaySettingsEx returns. */
  datatype DispChange =
    | Successful | Restart | Failed | BadMode | NotUpdated | BadFlags | BadParam | BadDualView

  const CDS_UPDATEREGISTRY: uint32 := 0x0001
  const SPI_SETLOGICALDPIOVERRIDE: uint32 := 0x009F
  const SPIF_UPDATEINIFILE: uint32 := 0x0001

  /** One call that changes display state, with the answer the OS gave. A
      SystemParametersInfo call also records the DPI axes the monitor reported right
      after it, so that what a caller read back can be traced to the call before it. */
  datatype Mutation =
    | ChangeDisplaySettings(device: string, mode: DevMode, flags: uint32, status: DispChange)
    | SystemParameters(action: uint32, param: int32, winIni: uint32, ok: bool,
                       dpiXAfter: uint32, dpiYAfter: uint32)

  class Display {
    /** What GetMonitorInfo reports as the primary monitor's rectangle. */
    var monitorWidth: int32
    var monitorHeight: int32
    /** What GetDpiForMonitor reports for the primary monitor (MDT_DEFAULT). */
    var dpiX: uint32
    var dpiY: uint32
    /** The DeviceName EnumDisplayDevices(null, 0, ...) fills in. */
    var adapterName: string
    /** The graphics modes EnumDisplaySettings enumerates, per device name. */
    var modes: map<string, seq<DevMode>>
    /** Every mutating call made so far, oldest first. */
    ghost var mutations: seq<Mutation>

    constructor (width: int32, height: int32, dpiX: uint32, dpiY: uint32,
                 adapterName: string, modes: map<string, seq<DevMode>>)
      ensures monitorWidth == width && monitorHeight == height
      ensures this.dpiX == dpiX && this.dpiY == dpiY
      ensures this.adapterName == adapterName && this.modes == modes
      ensures mutations == []
    {
      monitorWidth, monitorHeight := width, height;
      this.dpiX, this.dpiY := dpiX, dpiY;
      this.adapterName, this.modes := adapterName, modes;
      mutations := [];
    }

    /** EnumDisplaySettings(device, modeNum, ref dm) on a zero-initialised dm: the
        enumerated mode, or dm untouched when there is no such mode. */
    function EnumDisplaySettings(device: string, modeNum: nat): (dm: DevMode)
      reads this
      ensures device in modes && modeNum < |modes[device]| ==> dm == modes[device][modeNum]
      ensures !(device in modes && modeNum < |modes[device]|) ==> dm == ZeroMode
    {
      if device in modes && modeNum < |modes[device]| then modes[device][modeNum] else ZeroMode
    }

    /** ChangeDisplaySettingsEx(device, mode, flags, null): any status, any new state. */
    method ChangeDisplaySettingsEx(device: string, mode: DevMode, flags: uint32)
      returns (status: DispChange)
      modifies this
      ensures mutations == old(mutations) + [ChangeDisplaySettings(device, mode, flags, status)]
    {
      status := *;
      monitorWidth, monitorHeight, dpiX, dpiY, modes := *, *, *, *, *;
      mutations := mutations + [ChangeDisplaySettings(device, mode, flags, status)];
    }

    /** SystemParametersInfo(action, param, IntPtr.Zero, winIni): any result, any new
        state; the log entry holds the DPI axes of that new state. */
    method SystemParametersInfo(action: uint32, param: int32, winIni: uint32)
      returns (ok: bool)
      modifies this
      ensures mutations == old(mutations) + [SystemParameters(action, param, winIni, ok, dpiX, dpiY)]
    {
      ok := *;
      monitorWidth, monitorHeight, dpiX, dpiY, modes := *, *, *, *, *;
      mutations := mutations + [SystemParameters(action, param, winIni, ok, dpiX, dpiY)];
    }
  }
}

# HeadlessMonitor core in Dafny

HeadlessMonitor is a Windows command-line tool. It sets the resolution and the DPI
scaling of the primary monitor, which is useful on machines without a real screen.
This project models the logic inside it and proves properties of that model:

- **DPI conversions** (`DpiConversions`). Four conversions link the three ways the
  program describes scaling: the raw DPI Windows reports, the scaling percentage
  (96 DPI is 100%) and the scaling index of the standard steps 100%–200%. Each one is
  a five-entry table with a formula as the fallback. `Convert.ToUInt16` throws an
  `OverflowException` on results above 65535, and the model returns it as an error
  result.
- **The primary monitor's DPI reading** (`PrimaryScreenStats`). It averages the X and Y
  DPI with an unchecked `uint` addition. It rounds half to even, and optionally
  converts the result to a percentage.
- **The two setters** (`Actions`). Both are methods over a fake operating system
  (`Win32.Display`). The fake keeps a ghost log of every call that changes display
  state. Its mutating calls may return anything and change anything, so every
  property of the setters holds whatever Windows does.
  - `SetPrimaryResolution` either returns early or makes one mode change.
  - `SetPrimaryDpi` runs a search over the scaling indices −4 to 4 and stops early.
- **The header-line widget** (`ConsoleWidgets`). It builds the line: the title is
  centred in hyphens to exactly the window width, and a window that is too narrow
  throws. It also switches the console colours and restores them.

`DotNet` holds the .NET pieces the model needs:

- the integer widths;
- the exceptions, as a `Result`;
- `uint` wrap-around;
- the truncating division of C# `int`;
- banker's rounding;
- `Convert.ToUInt16`.

Windows is not modelled, and neither is I/O. The OS answers become
non-deterministic results of the fake OS methods, and the screen state becomes
fields of `Win32.Display`, which callers supply. The console state becomes fields
of `ConsoleWidgets.Console`, and written lines are recorded in its `lines` field.

Three behaviours of the code are worth knowing:

1. **PrintLine can leave the colours switched.** `PrintLine` has no `try`/`finally`.
   When building the line throws, the exception escapes before the colours are
   restored. The console is then left in the header colours, and the contract says
   so.
2. **SetPrimaryDPI's result is not "target reached".** It returns the boolean of the
   last `SystemParametersInfo` call. `TrueWithoutReachingTarget` exhibits a search
   that reports true and never reaches the target.
3. **108 DPI does not give 113%.** 108 DPI is a tie input: 25·108/24 is exactly 112.5.
   Working `100m / 96m * 108` by hand in `System.Decimal` also gives exactly 112.5, once
   the product is rounded to decimal's 28-digit precision. That rounds to the even
   neighbour, 112. The outcome depends on how `System.Decimal` rounds the inexact
   28-digit quotient `100m / 96m` and the product, so the model does not commit to a
   value at tie inputs (see "Left out").

## Model

| member | source | states |
|---|---|---|
| DotNet.WrapUInt32 | HeadlessMonitor/Screen.cs:84 | unchecked `uint` arithmetic: the result is in `uint` range and congruent to the exact value modulo 2^32 |
| DotNet.HalfTowardZero | HeadlessMonitor/ConsoleWidgets.cs:92 | C# `int` division by 2 truncates toward zero: the remainder takes the sign of the dividend and has size at most 1 |
| DotNet.RoundHalfEven | HeadlessMonitor/Screen.cs:176 | the result is within half a unit of n/d; at an exact half it is the even neighbour (`Math.Round`, `Convert.ToUInt16`) |
| DpiConversions.DpiToPercent | HeadlessMonitor/Screen.cs:57-68 | succeeds exactly for raw DPI ≤ 62914 and otherwise throws OverflowException; the result is within one half of 25·dpi/24, and strictly nearest unless dpi mod 24 = 12 |
| DpiConversions.PercentToDpi | HeadlessMonitor/Screen.cs:93-104 | succeeds exactly for percentages ≤ 68266 and otherwise throws OverflowException; the result is the nearest integer to 24·percent/25 |
| DpiConversions.DpiToIndex | HeadlessMonitor/Screen.cs:75-86 | succeeds exactly for 96 ≤ dpi < 96 + 24·65536 and otherwise throws OverflowException; the result is ⌊(dpi − 96)/24⌋ |
| DpiConversions.PercentToIndex | HeadlessMonitor/Screen.cs:111-122 | succeeds exactly for 100 ≤ percent ≤ 68266; the result equals DPItoDPIINDEX of DPIPERCENTtoDPI, with its exception propagated |
| DpiConversions.StandardPairs | HeadlessMonitor/Screen.cs:59-65 | 96/120/144/168/192 and 100/125/150/175/200 map to each other in both directions, and both map to the indices 0–4 |
| DpiConversions.FormulasReproduceTables | HeadlessMonitor/Screen.cs:59-122 | every table entry of all four conversions is what the fallback formula computes at that key |
| DpiConversions.DpiToPercentIsFormula | HeadlessMonitor/Screen.cs:59-67 | for every raw DPI, DPItoDPIPERCENT equals its fallback formula |
| DpiConversions.PercentToDpiIsFormula | HeadlessMonitor/Screen.cs:95-103 | for every percentage, DPIPERCENTtoDPI equals its fallback formula |
| DpiConversions.DpiToIndexIsFormula | HeadlessMonitor/Screen.cs:77-85 | for every raw DPI, DPItoDPIINDEX equals ⌊(dpi − 96)/24⌋ on `uint`, even though its first key is 100 |
| DpiConversions.PercentToIndexIsFormula | HeadlessMonitor/Screen.cs:113-121 | for every percentage, DPIPERCENTtoDPIINDEX equals the index formula applied to the raw-DPI formula |
| DpiConversions.DpiPercentRoundTrip | HeadlessMonitor/Screen.cs:57-104 | raw DPI → percent → raw DPI restores every raw DPI that converts |
| DpiConversions.DpiToPercentIncreasing | HeadlessMonitor/Screen.cs:57-68 | DPItoDPIPERCENT is strictly increasing where it succeeds |
| DpiConversions.PercentToDpiMonotone | HeadlessMonitor/Screen.cs:93-104 | DPIPERCENTtoDPI is monotone where it succeeds |
| DpiConversions.IndexUnderflow | HeadlessMonitor/Screen.cs:84-120 | below 96 DPI or below 100%, the `uint` subtraction of the index fallbacks (lines 84 and 120) wraps and both index conversions throw OverflowException |
| PrimaryScreenStats.GetPrimaryScreenWidth | HeadlessMonitor/Screen.cs:133-145 | the width is the primary monitor's width that the display reports |
| PrimaryScreenStats.GetPrimaryScreenHeight | HeadlessMonitor/Screen.cs:151-163 | the height is the primary monitor's height that the display reports |
| PrimaryScreenStats.ScreenDpi | HeadlessMonitor/Screen.cs:175-178 | the raw form is the averaged raw reading; the percent form fails (with OverflowException) exactly when the raw reading fails or exceeds 62914, and lies within one half of 25/24 of the raw reading |
| PrimaryScreenStats.GetPrimaryScreenDpi | HeadlessMonitor/Screen.cs:170-179 | the raw form is the rounded mean of the monitor's two DPI axes; the percent form, where it succeeds, converts back through DPIPERCENTtoDPI to the raw form |
| PrimaryScreenStats.PercentReadingRoundTripIfOk | HeadlessMonitor/Screen.cs:175-178 | the percent reading, where it succeeds, converts back to the raw reading |
| PrimaryScreenStats.AverageDpi | HeadlessMonitor/Screen.cs:176-178 | the raw reading is the mean of the wrapped `uint` sum dpiX + dpiY, rounded half to even; it throws exactly when that mean exceeds 65535 |
| PrimaryScreenStats.EqualAxes | HeadlessMonitor/Screen.cs:178 | equal axes give that value as the raw reading |
| PrimaryScreenStats.AverageBetweenAxes | HeadlessMonitor/Screen.cs:178 | without wrap-around, the raw reading lies between the two axes |
| PrimaryScreenStats.AxisSumWraps | HeadlessMonitor/Screen.cs:176-178 | two axes of 2^31 + 96 read as 96, because the sum wraps |
| PrimaryScreenStats.PercentReadingRoundTrip | HeadlessMonitor/Screen.cs:175-178 | the percent reading converted back by DPIPERCENTtoDPI is the raw reading |
| Win32.Display.constructor | HeadlessMonitor/Screen.cs:137-174 | a fake display with the given monitor size, DPI, adapter name and modes, and an empty call log |
| Win32.Display.EnumDisplaySettings | HeadlessMonitor/Screen.cs:206-208 | the enumerated mode when the device has one with that number, otherwise the zero-initialised `DEVMODEW` left untouched |
| Win32.Display.ChangeDisplaySettingsEx | HeadlessMonitor/Screen.cs:214 | any status and any new display state; the call is appended to the log with its arguments and status |
| Win32.Display.SystemParametersInfo | HeadlessMonitor/Screen.cs:187-189 | any result and any new display state; the call is appended to the log with its arguments, its result and the DPI axes of the new state |
| Actions.SetPrimaryResolution | HeadlessMonitor/Screen.cs:197-220 | at the target size: true and nothing changed; otherwise exactly one ChangeDisplaySettingsEx call with CDS_UPDATEREGISTRY and the first enumerated mode with only width and height replaced, returning true iff the status is DISP_CHANGE_SUCCESSFUL |
| Actions.SetPrimaryDpi | HeadlessMonitor/Screen.cs:227-242 | at the target percentage: true and nothing changed; a current reading that throws propagates; otherwise the search of SearchDpi, with its log, readings and result |
| Actions.SearchDpi | HeadlessMonitor/Screen.cs:234-241 | the calls are logged in order, each with the DPI axes the OS reported after it; every round's reading is GetPrimaryScreenDPI of those axes (ReadsBack); the search ends right after the first reading that shows the target or throws, or after index 4, and returns the last call's boolean or the reading's exception |
| Actions.MissedSoFarMeans | HeadlessMonitor/Screen.cs:235-239 | the rounds before the stop have indices −4, −3, … and readings that differ from the target |
| Actions.ReadsBackMeans | HeadlessMonitor/Screen.cs:238 | every round's reading is GetPrimaryScreenDPI computed from the DPI axes after that round's call, in both directions between the round-by-round and the quantified statement |
| Actions.ReadsBackAppend | HeadlessMonitor/Screen.cs:238 | a round whose reading is computed from its own DPI axes keeps every reading tied to its axes |
| Actions.SweepCallsAppend | HeadlessMonitor/Screen.cs:237 | one more round appends exactly its SystemParametersInfo call to the log |
| Actions.ExtendSweep | HeadlessMonitor/Screen.cs:235-240 | a round after misses either misses too and the search goes on, or stops the search at a complete sweep |
| Actions.SweepCallsInOrder | HeadlessMonitor/Screen.cs:235-238 | a search makes one call per round, at most nine, with indices −4, −3, … increasing by one; each round's reading is GetPrimaryScreenDPI of the DPI axes logged with that round's call |
| Actions.CallsOfRounds | HeadlessMonitor/Screen.cs:237 | the k-th logged call carries the k-th round's index, answer and DPI axes |
| Actions.StopsAtFirstHit | HeadlessMonitor/Screen.cs:238-239 | the search stops right after the first round whose reading shows the target |
| Actions.UnreachedTargetTriesAll | HeadlessMonitor/Screen.cs:235-241 | if the target is never shown, all nine indices −4 to 4 are tried and the ninth call's boolean is returned |
| Actions.TrueWithoutReachingTarget | HeadlessMonitor/Screen.cs:241 | a complete search can return true although no reading showed the target |
| ConsoleWidgets.Hyphen | HeadlessMonitor/ConsoleWidgets.cs:82-86 | the fill character is '-' exactly on an ASCII console, otherwise U+2015 |
| ConsoleWidgets.Repeat | HeadlessMonitor/ConsoleWidgets.cs:92-96 | `new string(c, n)` has length n and holds only c |
| ConsoleWidgets.NewString | HeadlessMonitor/ConsoleWidgets.cs:92-96 | `new string(c, n)` throws ArgumentOutOfRange exactly for a negative n, and otherwise has length n and holds only c |
| ConsoleWidgets.HeaderLine | HeadlessMonitor/ConsoleWidgets.cs:89-96 | without text: w hyphens; with text: left hyphens, " text ", right hyphens, where left ≤ right ≤ left + 1 and the length is exactly w; it throws ArgumentOutOfRange exactly when w < 0 (no text) or w < len + 2 (text) |
| ConsoleWidgets.PrintLine | HeadlessMonitor/ConsoleWidgets.cs:77-100 | on success writes the header line and leaves the colours as they were; when the line throws, nothing is written and the colours stay ForeColor/BackColor |
| ConsoleWidgets.Console.constructor | HeadlessMonitor/ConsoleWidgets.cs:79-81 | a console state with the given colours, width and encoding, and nothing written |
| ConsoleWidgets.ShortWindowThrowsWhere | HeadlessMonitor/ConsoleWidgets.cs:92-93 | with text, a window one column too narrow throws at the second `new string` (truncating division makes the first count 0); two or more columns too narrow already throw at the first |
| ConsoleWidgets.AboutHeader | HeadlessMonitor/ConsoleWidgets.cs:92-93 | "About" on an 80-column ASCII console sits between 36 and 37 hyphens |

## Left out

- DpiConversions.DpiToPercent: at tie inputs (dpi mod 24 = 12) it promises only a result within one half of 25·dpi/24. The code computes in `System.Decimal` with an inexact `100m / 96m`, and the model does not imitate that precision. The function rounds the exact quotient half to even.
- Actions.SetPrimaryDpi: the contract says what is returned (the last call's boolean). It does not promise that the target was reached, because the code does not.
- The call log `Display.mutations` is a ghost field that only the fake OS methods append to. The model relies on that discipline: a caller with `modifies` rights could also assign the log directly.
- The Win32 calls themselves (`MonitorFromWindow`, `GetMonitorInfo`, `GetDpiForMonitor`, `EnumDisplayDevices`, `EnumDisplaySettings`, `ChangeDisplaySettingsEx`, `SystemParametersInfo`) are foreign OS behaviour. The fake display stands in for them, and its mutating calls may change the monitor size, the DPI and the modes arbitrarily.
- The boolean results of `EnumDisplayDevices` and `EnumDisplaySettings` are ignored by the code. The model follows that: a missing mode leaves the zero-initialised `DEVMODEW`. Mode number 0 is the first enumerated mode, not the current one, as in the code.
- Of `DEVMODEW`, only `dmPelsWidth`, `dmPelsHeight`, `dmBitsPerPel`, `dmDisplayFrequency` and `dmDisplayFlags` are modelled. The code passes the whole structure through to `ChangeDisplaySettingsEx`, but `dmSize`, `dmFields`, the device name and the other fields are not modelled, and neither is `DISPLAY_DEVICEW` beyond its device name.
- `DpiAwareness` (`SetDPIUnaware`, `SetDPIPerMonitorAware`, `SetSystemDPIAware`): one-line wrappers over `SetProcessDpiAwareness`, which is foreign OS behaviour.
- `HeadlessMonitor/Program.cs` is not part of this model. It is argument parsing, console output and `Environment.Exit`.
- `build/Program.cs` is not part of this model. It is build tooling that runs external processes.
- The rest of `ConsoleWidgets`: the encoding switches, `PressAnyKey` (which reads a key and exits), the Figlet banner and the `Close` flag.
- `Console.WriteLine` is reduced to appending the line to `Console.lines`. Terminal rendering, line wrapping and colour output are not modelled.
- A `null` text is not modelled, because Dafny strings cannot be null. An empty text takes the same branch as `null` would.
- ConsoleWidgets.Hyphen: `Console.OutputEncoding == Encoding.ASCII` is a reference comparison in .NET, and the model compares encoding values instead. So the model takes the `'-'` branch on an ASCII console, but the program may not. If the `Console.OutputEncoding` setter stores a copy of the encoding, as it does in recent .NET runtimes, the comparison is false even after switching to ASCII, and the program always draws U+2015.
- C# string lengths count UTF-16 code units. The model counts Dafny characters, which is the same for text without surrogate pairs.
- The arithmetic assumes the project's default, unchecked context, so `uint` subtraction and addition wrap. In a checked context these would throw instead. Either way the index conversions fail below 96 DPI, but the wrapped DPI sum would differ.

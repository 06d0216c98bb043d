/** The two setters of the primary monitor: resolution and DPI scaling. Both first
    compare the current state with the target and do nothing when they agree. */
module Actions {
  import opened DotNet
  import opened DpiConversions
  import opened Win32
  import opened PrimaryScreenStats

  /** True when a DPI reading succeeded and shows the given value. */
  predicate Shows(reading: Result<uint16>, target: uint32)
  {
    reading.Ok? && reading.value == target
  }

  /** SetPrimaryResolution. Already at the target size: report success without a call.
      Otherwise: one ChangeDisplaySettingsEx call, asking for the change to be written to
      the registry, with the first enumerated mode of the primary adapter whose pixel
      width and height alone are replaced; success means exactly DISP_CHANGE_SUCCESSFUL. */
  method SetPrimaryResolution(os: Display, width: uint32 := 1920, height: uint32 := 1080)
    returns (ok: bool, ghost status: DispChange)
    modifies os
    ensures old(GetPrimaryScreenWidth(os)) == width && old(GetPrimaryScreenHeight(os)) == height
      ==> ok && unchanged(os)
    ensures !(old(GetPrimaryScreenWidth(os)) == width && old(GetPrimaryScreenHeight(os)) == height)
      ==> ok == (status == Successful)
    ensures !(old(GetPrimaryScreenWidth(os)) == width && old(GetPrimaryScreenHeight(os)) == height)
      ==> os.mutations == old(os.mutations) + [ChangeDisplaySettings(old(os.adapterName),
        old(os.EnumDisplaySettings(os.adapterName, 0)).(pelsWidth := width, pelsHeight := height),
        CDS_UPDATEREGISTRY, status)]
  {
    status := Successful;
    if GetPrimaryScreenWidth(os) == width && GetPrimaryScreenHeight(os) == height {
      return true, status;
    }
    var device := os.adapterName;
    var dm := os.EnumDisplaySettings(device, 0);
    dm := dm.(pelsWidth := width);
    dm := dm.(pelsHeight := height);
    var dp := os.ChangeDisplaySettingsEx(device, dm, CDS_UPDATEREGISTRY);
    status := dp;
    if dp == Successful {
      ok := true;
    } else {
      ok := false;
    }
  }

  /** One round of SetPrimaryDPI's search: the scaling index passed to
      SystemParametersInfo, the boolean it returned, the DPI axes the monitor reported
      afterwards, and the percentage GetPrimaryScreenDPI read from them (ReadsBack). */
  datatype Step = Step(index: int32, ok: bool, dpiX: uint32, dpiY: uint32, reading: Result<uint16>)

  /** Every round's reading is what GetPrimaryScreenDPI computes from the DPI axes the
      monitor reported after that round's call (stated round by round, last round last). */
  ghost predicate ReadsBack(sweep: seq<Step>)
  {
    sweep == [] ||
    var last := sweep[|sweep| - 1];
    ReadsBack(sweep[..|sweep| - 1]) && last.reading == ScreenDpi(last.dpiX, last.dpiY, true)
  }

  /** The calls a sequence of rounds makes, in order. */
  function SweepCalls(sweep: seq<Step>): seq<Mutation>
  {
    if sweep == [] then [] else
    var last := sweep[|sweep| - 1];
    SweepCalls(sweep[..|sweep| - 1])
      + [SystemParameters(SPI_SETLOGICALDPIOVERRIDE, last.index, SPIF_UPDATEINIFILE, last.ok, last.dpiX, last.dpiY)]
  }

  /** The shape of SetPrimaryDPI's search for a target percentage: at least one and at
      most nine rounds with the indices -4, -3, ... in turn; every round but the last
      read a percentage other than the target; and the search stopped early only because
      the reading showed the target or the reading threw. */
  ghost predicate IsDpiSweep(target: uint32, sweep: seq<Step>)
  {
    1 <= |sweep| <= 9
    && (forall k :: 0 <= k < |sweep| ==> sweep[k].index == k - 4)
    && (forall k :: 0 <= k < |sweep| - 1 ==> sweep[k].reading.Ok? && !Shows(sweep[k].reading, target))
    && (|sweep| < 9 ==> sweep[|sweep| - 1].reading.Err? || Shows(sweep[|sweep| - 1].reading, target))
  }

  /** What SetPrimaryDPI returns after a search: the boolean of the LAST call, not whether
      the target was reached; or the exception a reading threw. */
  function SweepOutcome(sweep: seq<Step>): Result<bool>
    requires sweep != []
  {
    var last := sweep[|sweep| - 1];
    if last.reading.Err? then Err(last.reading.error) else Ok(last.ok)
  }

  /** SetPrimaryDPI. Already at the target percentage: report success without a call.
      Otherwise: the search described by IsDpiSweep, every call recorded in order, and the
      last call's boolean as the result. A reading that overflows propagates its exception. */
  method SetPrimaryDpi(os: Display, scalingPercent: uint32 := 125)
    returns (outcome: Result<bool>, ghost sweep: seq<Step>)
    modifies os
    ensures old(GetPrimaryScreenDpi(os)).Err?
      ==> outcome == Err(old(GetPrimaryScreenDpi(os)).error) && sweep == [] && unchanged(os)
    ensures Shows(old(GetPrimaryScreenDpi(os)), scalingPercent)
      ==> outcome == Ok(true) && sweep == [] && unchanged(os)
    ensures old(GetPrimaryScreenDpi(os)).Ok? && !Shows(old(GetPrimaryScreenDpi(os)), scalingPercent)
      ==> (IsDpiSweep(scalingPercent, sweep) && ReadsBack(sweep)
        && os.mutations == old(os.mutations) + SweepCalls(sweep)
        && outcome == SweepOutcome(sweep)
        && sweep[|sweep| - 1].reading == GetPrimaryScreenDpi(os))
  {
    sweep := [];
    var current := GetPrimaryScreenDpi(os);
    if current.Err? || current.value == scalingPercent {
      outcome := if current.Err? then Err(current.error) else Ok(true);
      return;
    }
    outcome, sweep := SearchDpi(os, scalingPercent);
  }

  /** The loop of SetPrimaryDPI, entered once the current percentage is known to differ
      from the target: the search described by IsDpiSweep, every call recorded in order,
      and the last call's boolean (or the exception of the last reading) as the result. */
  method SearchDpi(os: Display, scalingPercent: uint32) returns (outcome: Result<bool>, ghost sweep: seq<Step>)
    modifies os
    ensures IsDpiSweep(scalingPercent, sweep) && ReadsBack(sweep)
    ensures os.mutations == old(os.mutations) + SweepCalls(sweep)
    ensures outcome == SweepOutcome(sweep)
    ensures sweep[|sweep| - 1].reading == GetPrimaryScreenDpi(os)
  {
    sweep := [];
    var result := false;
    var reading := GetPrimaryScreenDpi(os);
    for index := -4 to 5
      invariant |sweep| == index + 4 && MissedSoFar(scalingPercent, sweep) && ReadsBack(sweep)
      invariant os.mutations == old(os.mutations) + SweepCalls(sweep)
      invariant sweep != [] ==> sweep[|sweep| - 1] == Step(index - 1, result, os.dpiX, os.dpiY, reading)
      invariant reading == GetPrimaryScreenDpi(os)
      invariant |sweep| == 9 ==> IsDpiSweep(scalingPercent, sweep)
    {
      result := os.SystemParametersInfo(SPI_SETLOGICALDPIOVERRIDE, index, SPIF_UPDATEINIFILE);
      reading := GetPrimaryScreenDpi(os);
      var step := Step(index, result, os.dpiX, os.dpiY, reading);
      ReadsBackAppend(sweep, step);
      ExtendSweep(scalingPercent, sweep, step);
      SweepCallsAppend(sweep, step);
      sweep := sweep + [step];
      if reading.Err? {
        // the exception GetPrimaryScreenDPI throws propagates out of the loop
        outcome := Err(reading.error);
        return;
      }
      if reading.value == scalingPercent {
        break;
      }
    }
    outcome := Ok(result);
  }

  /** The rounds of a search that has not stopped yet: indices -4, -3, ... in turn, and
      no reading so far showing the target (stated round by round, last round last). */
  ghost predicate MissedSoFar(target: uint32, sweep: seq<Step>)
  {
    sweep == [] ||
    var last := sweep[|sweep| - 1];
    MissedSoFar(target, sweep[..|sweep| - 1])
    && last.index == |sweep| - 5 && last.reading.Ok? && !Shows(last.reading, target)
  }

  /** MissedSoFar, round by round, says the same as its quantified reading. */
  lemma {:induction false} MissedSoFarMeans(target: uint32, sweep: seq<Step>)
    requires MissedSoFar(target, sweep)
    ensures forall k :: 0 <= k < |sweep| ==> sweep[k].index == k - 4
    ensures forall k :: 0 <= k < |sweep| ==> sweep[k].reading.Ok? && !Shows(sweep[k].reading, target)
  {
    if sweep != [] {
      MissedSoFarMeans(target, sweep[..|sweep| - 1]);
    }
  }

  /** ReadsBack, round by round, says the same as its quantified reading. */
  lemma {:induction false} ReadsBackMeans(sweep: seq<Step>)
    ensures ReadsBack(sweep)
      <==> forall k :: 0 <= k < |sweep| ==> sweep[k].reading == ScreenDpi(sweep[k].dpiX, sweep[k].dpiY, true)
  {
    if sweep != [] {
      var prefix := sweep[..|sweep| - 1];
      ReadsBackMeans(prefix);
      assert forall k :: 0 <= k < |prefix| ==> prefix[k] == sweep[k];
    }
  }

  /** A round whose reading comes from its own DPI axes keeps ReadsBack. */
  lemma ReadsBackAppend(sweep: seq<Step>, step: Step)
    requires ReadsBack(sweep) && step.reading == ScreenDpi(step.dpiX, step.dpiY, true)
    ensures ReadsBack(sweep + [step])
  {
    assert (sweep + [step])[..|sweep|] == sweep;
  }

  /** One more round appends its call to the log. */
  lemma SweepCallsAppend(sweep: seq<Step>, step: Step)
    ensures SweepCalls(sweep + [step])
      == SweepCalls(sweep)
        + [SystemParameters(SPI_SETLOGICALDPIOVERRIDE, step.index, SPIF_UPDATEINIFILE, step.ok, step.dpiX, step.dpiY)]
  {
    assert (sweep + [step])[..|sweep|] == sweep;
  }

  /** One more round of a search that has missed the target so far: either it misses
      too and the search goes on, or the search stops now and is a complete sweep. */
  lemma ExtendSweep(target: uint32, sweep: seq<Step>, step: Step)
    requires MissedSoFar(target, sweep) && |sweep| < 9 && step.index == |sweep| - 4
    ensures step.reading.Ok? && !Shows(step.reading, target) ==> MissedSoFar(target, sweep + [step])
    ensures step.reading.Err? || Shows(step.reading, target) || |sweep| == 8
      ==> IsDpiSweep(target, sweep + [step])
  {
    var longer := sweep + [step];
    assert longer[..|sweep|] == sweep;
    MissedSoFarMeans(target, sweep);
    forall k | 0 <= k < |longer|
      ensures longer[k].index == k - 4
      ensures k < |sweep| ==> longer[k].reading.Ok? && !Shows(longer[k].reading, target)
    {
      if k < |sweep| {
        assert longer[k] == sweep[k];
      }
    }
  }

  /** The log of a search holds one SystemParametersInfo call per round, in round order,
      so a search makes at most nine calls, with strictly increasing indices from -4;
      and each round's reading is the percentage of the DPI axes the OS reported after
      that round's call. */
  lemma {:induction false} SweepCallsInOrder(target: uint32, sweep: seq<Step>)
    requires IsDpiSweep(target, sweep)
    ensures |SweepCalls(sweep)| == |sweep| <= 9
    ensures forall k :: 0 <= k < |sweep| ==>
      SweepCalls(sweep)[k]
        == SystemParameters(SPI_SETLOGICALDPIOVERRIDE, k - 4, SPIF_UPDATEINIFILE, sweep[k].ok, sweep[k].dpiX, sweep[k].dpiY)
    ensures ReadsBack(sweep) ==> forall k :: 0 <= k < |sweep| ==>
      sweep[k].reading == ScreenDpi(SweepCalls(sweep)[k].dpiXAfter, SweepCalls(sweep)[k].dpiYAfter, true)
  {
    CallsOfRounds(sweep);
    if ReadsBack(sweep) {
      ReadsBackMeans(sweep);
    }
  }

  /** Each round contributes the call with its own index, answer and DPI axes, at its
      own place. */
  lemma {:induction false} CallsOfRounds(sweep: seq<Step>)
    ensures |SweepCalls(sweep)| == |sweep|
    ensures forall k :: 0 <= k < |sweep| ==>
      SweepCalls(sweep)[k]
        == SystemParameters(SPI_SETLOGICALDPIOVERRIDE, sweep[k].index, SPIF_UPDATEINIFILE, sweep[k].ok, sweep[k].dpiX, sweep[k].dpiY)
  {
    if sweep != [] {
      CallsOfRounds(sweep[..|sweep| - 1]);
    }
  }

  /** The search stops right after the first round whose reading shows the target. */
  lemma StopsAtFirstHit(target: uint32, sweep: seq<Step>, k: nat)
    requires IsDpiSweep(target, sweep)
    requires k < |sweep| && Shows(sweep[k].reading, target)
    ensures |sweep| == k + 1
  {
  }

  /** If no reading ever shows the target, all nine indices -4 to 4 are tried and the
      result is the boolean of the ninth call, whatever it is. */
  lemma UnreachedTargetTriesAll(target: uint32, sweep: seq<Step>)
    requires IsDpiSweep(target, sweep)
    requires forall k :: 0 <= k < |sweep| ==> sweep[k].reading.Ok? && !Shows(sweep[k].reading, target)
    ensures |sweep| == 9 && sweep[8].index == 4
    ensures SweepOutcome(sweep) == Ok(sweep[8].ok)
  {
  }

  /** The result is not "target reached": a search can report true and leave the display
      at another percentage. */
  lemma TrueWithoutReachingTarget()
    ensures var sweep := seq(9, k requires 0 <= k < 9 => Step(k - 4, true, 96, 96, Ok(100)));
      IsDpiSweep(125, sweep) && ReadsBack(sweep) && SweepOutcome(sweep) == Ok(true) && !Shows(sweep[8].reading, 125)
  {
    EqualAxes(96);
    ReadsBackMeans(seq(9, k requires 0 <= k < 9 => Step(k - 4, true, 96, 96, Ok(100))));
  }

  /** A display already at 1920 x 1080: setting that resolution, twice, succeeds both
      times and makes no call. */
  method ResolutionAlreadySet()
  {
    var os := new Display(1920, 1080, 96, 96, "\\\\.\\DISPLAY1", map[]);
    var ok, status := SetPrimaryResolution(os, 1920, 1080);
    assert ok && os.mutations == [];
    ok, status := SetPrimaryResolution(os, 1920, 1080);
    assert ok && os.mutations == [];
  }

  /** A display at 96 DPI (100%): setting 100% succeeds without a call. */
  method DpiAlreadySet()
  {
    var os := new Display(1024, 768, 96, 96, "\\\\.\\DISPLAY1", map[]);
    EqualAxes(96);
    assert GetPrimaryScreenDpi(os) == Ok(100);
    var outcome, sweep := SetPrimaryDpi(os, 100);
    assert outcome == Ok(true) && os.mutations == [];
  }

  /** A display at 96 DPI (100%): setting 125% starts the search at index -4 and makes at
      most nine calls. */
  method DpiSearched()
  {
    var os := new Display(1024, 768, 96, 96, "\\\\.\\DISPLAY1", map[]);
    EqualAxes(96);
    assert GetPrimaryScreenDpi(os) == Ok(100);
    var outcome, sweep := SetPrimaryDpi(os);
    SweepCallsInOrder(125, sweep);
    assert 1 <= |os.mutations| <= 9 && os.mutations[0].param == -4;
  }
}

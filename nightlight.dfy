/** The night-light controller of auto_light/main.go and cmd/auto_light/main.go: a smart plug
    switched through the miio command line, a lux sensor read under its bus lock, and a tick
    that acts only between sunset and the next sunrise. Times are abstract integer instants. */
module NightLight {
  import opened Results
  import opened Cmds
  import opened Board

  /** At or below this lux the light is turned on. */
  const OnAtMost: int := 15
  /** Above this lux the light is turned off: 100 in auto_light/main.go ... */
  const OffAbove: int := 100
  /** ... and 120 in cmd/auto_light/main.go. */
  const OffAboveCmd: int := 120

  /** The query both variants run to learn whether the plug is on. */
  const PowerQuery: string := "/usr/local/lib/nodejs/bin/node /usr/local/lib/nodejs/bin/miio control 158d0002498b8e power"

  /** checkLight as written: exec error, a panic when the output has no second line, or the plug state. */
  datatype Probe = Probed(on: bool) | ProbeFailed(message: string) | IndexPanic

  /** checkLight of cmd/auto_light/main.go over RunCmdWithResult's lines: `outs[1] == "true"`,
      indexed without a length check. */
  function CheckLight(outs: Result<seq<string>>): (p: Probe)
    ensures outs.Err? ==> p == ProbeFailed(outs.error)
    ensures p == IndexPanic <==> outs.Ok? && |outs.value| < 2
    ensures p.Probed? ==> outs.Ok? && p.on == (outs.value[1] == "true")
    ensures outs.Ok? && |outs.value| >= 2 ==> p == Probed(outs.value[1] == "true")
  {
    match outs
    case Err(m) => ProbeFailed(m)
    case Ok(lines) => if |lines| < 2 then IndexPanic else Probed(lines[1] == "true")
  }

  /** checkLight of auto_light/main.go: its own split, exec and line split, with the same outcome
      as the RunCmdWithResult-based version. */
  function CheckLightLegacy(exec: (string, seq<string>) -> Exec): (p: Probe)
    ensures p == CheckLight(RunCmdWithResult(PowerQuery, exec))
  {
    var parts := Split(PowerQuery, ' ');
    match exec(parts[0], parts[1..])
    case ExecFailed(m) => ProbeFailed(m)
    case ExecOk(out) =>
      var outs := Split(out, '\n');
      if |outs| < 2 then IndexPanic else Probed(outs[1] == "true")
  }

  /** Output without a newline splits into one line, and checkLight then indexes past the end. */
  lemma CheckLightPanicsOnOneLine()
    ensures CheckLight(Ok(Split("true", '\n'))) == IndexPanic
  {
    SplitJoin(["true"], '\n');
    assert Join(["true"], '\n') == "true";
  }

  /** checkLight with the length check it evidently needs: short output is an error. */
  function CheckLightChecked(outs: Result<seq<string>>): (r: Result<bool>)
    ensures r.Ok? <==> outs.Ok? && |outs.value| >= 2
    ensures r.Ok? ==> r.value == (outs.value[1] == "true")
    ensures CheckLight(outs).Probed? ==> r == Ok(CheckLight(outs).on)
  {
    match outs
    case Err(m) => Err(m)
    case Ok(lines) => if |lines| < 2 then Err("unexpected miio output") else Ok(lines[1] == "true")
  }

  /** isBright: strictly after sunrise and strictly before sunset. */
  function IsBright(now: int, sunrise: int, sunset: int): (b: bool)
    ensures b ==> sunrise < sunset
    ensures now == sunrise || now == sunset ==> !b
    ensures now < sunrise || now > sunset ==> !b
    ensures sunrise < now < sunset ==> b
  {
    sunrise < now && now < sunset
  }

  datatype Switch = SwitchOn | SwitchOff | Leave

  /** The lux test of the tick: turn on at or below OnAtMost, off above offAbove, else leave. */
  function LuxDecision(light: int, offAbove: int): (d: Switch)
    requires OnAtMost <= offAbove
    ensures d == SwitchOn <==> light <= OnAtMost
    ensures d == SwitchOff <==> light > offAbove
  {
    if light <= OnAtMost then SwitchOn else if light > offAbove then SwitchOff else Leave
  }

  /** The lightOn flag after turnOnLight / turnOffLight / nothing. */
  function Apply(lightOn: bool, d: Switch): bool {
    match d
    case SwitchOn => true
    case SwitchOff => false
    case Leave => lightOn
  }

  /** The flag after a run of measured ticks. */
  function LightAfter(lightOn: bool, lux: seq<int>, offAbove: int): bool
    requires OnAtMost <= offAbove
    decreases |lux|
  {
    if |lux| == 0 then lightOn
    else Apply(LightAfter(lightOn, lux[..|lux| - 1], offAbove), LuxDecision(lux[|lux| - 1], offAbove))
  }

  /** A reading outside the band (OnAtMost, offAbove]. */
  predicate Decisive(light: int, offAbove: int) {
    light <= OnAtMost || light > offAbove
  }

  /** Readings inside the band (OnAtMost, offAbove] never change the light. */
  lemma {:induction false} BandKeepsLight(lightOn: bool, lux: seq<int>, offAbove: int)
    requires OnAtMost <= offAbove
    requires forall i :: 0 <= i < |lux| ==> !Decisive(lux[i], offAbove)
    ensures LightAfter(lightOn, lux, offAbove) == lightOn
    decreases |lux|
  {
    if |lux| > 0 {
      var front := lux[..|lux| - 1];
      assert forall i :: 0 <= i < |front| ==> front[i] == lux[i];
      BandKeepsLight(lightOn, front, offAbove);
    }
  }

  /** Hysteresis: after a run the light is what the last reading outside the band asked for. */
  lemma {:induction false} LastDecisiveReadingWins(lightOn: bool, lux: seq<int>, offAbove: int, k: int)
    requires OnAtMost <= offAbove
    requires 0 <= k < |lux| && Decisive(lux[k], offAbove)
    requires forall j :: k < j < |lux| ==> !Decisive(lux[j], offAbove)
    ensures LightAfter(lightOn, lux, offAbove) == (lux[k] <= OnAtMost)
    decreases |lux|
  {
    var front := lux[..|lux| - 1];
    if k < |lux| - 1 {
      assert forall j :: 0 <= j < |front| ==> front[j] == lux[j];
      LastDecisiveReadingWins(lightOn, front, offAbove, k);
    }
  }

  /** The commands a change of the flag issues: one power command exactly when it flips. */
  function PowerCommands(before: bool, after: bool): seq<Action> {
    if before == after then [] else [Power(after)]
  }

  /** What the astronomy collaborator supplies to updateSunTime: today's sunrise and sunset and
      the coming midnight. */
  datatype SunTimes = SunTimes(sunrise: int, sunset: int, midnight: int)

  /** Where a tick returned. */
  datatype TickExit = Daytime | PastMidnight | BeforeSunrise | LockFailed | LuxFailed | Measured(light: int)

  /** The globals of one auto_light process. */
  class Controller {
    var lightOn: bool
    var sunrise: int
    var sunset: int
    var midnight: int

    constructor ()
      ensures !lightOn
    {
      lightOn := false;
      sunrise, sunset, midnight := 0, 0, 0;
    }

    /** turnOnLight: issues "power true" only on a transition, so repeated calls issue one command. */
    method TurnOnLight(dev: Devices)
      modifies this, dev
      ensures lightOn
      ensures dev.trace == old(dev.trace) + PowerCommands(old(lightOn), true)
      ensures sunrise == old(sunrise) && sunset == old(sunset) && midnight == old(midnight)
    {
      if !lightOn {
        dev.Do(Power(true));
        lightOn := true;
      }
    }

    /** turnOffLight: issues "power false" only on a transition. */
    method TurnOffLight(dev: Devices)
      modifies this, dev
      ensures !lightOn
      ensures dev.trace == old(dev.trace) + PowerCommands(old(lightOn), false)
      ensures sunrise == old(sunrise) && sunset == old(sunset) && midnight == old(midnight)
    {
      if lightOn {
        dev.Do(Power(false));
        lightOn := false;
      }
    }

    /** updateSunTime: stores the new times and re-reads the plug; checkLight returns false
        with its error, so a failed probe leaves lightOn false. */
    method UpdateSunTime(sun: SunTimes, probe: Result<bool>)
      modifies this
      ensures sunrise == sun.sunrise && sunset == sun.sunset && midnight == sun.midnight
      ensures lightOn == (probe == Ok(true))
    {
      sunrise, sunset := sun.sunrise, sun.sunset;
      midnight := sun.midnight;
      lightOn := probe.Ok? && probe.value;
    }

    /** The lock-and-measure block of auto_light/main.go's tick: the Unlock is deferred, so it
        runs after the power command on a measurement and straight away on a failed read. */
    method Measure(dev: Devices, tries: seq<TryLock>, lux: LuxReading, calcLux: (int, int) -> int) returns (exit: TickExit)
      requires SpinEnds(tries)
      modifies this, dev
      ensures exit == LockFailed || exit == LuxFailed || exit.Measured?
      ensures exit == LockFailed <==> exists k :: SpinEndsAt(tries, k, TryErr)
      ensures exit == LuxFailed <==> (exists k :: SpinEndsAt(tries, k, Got)) && lux.failed
      ensures sunrise == old(sunrise) && sunset == old(sunset) && midnight == old(midnight)
      ensures exit == LockFailed ==>
        (exists k :: SpinEndsAt(tries, k, TryErr)) && dev.trace == old(dev.trace) && lightOn == old(lightOn)
      ensures exit == LuxFailed ==>
        dev.trace == old(dev.trace) + [Acquire(LightLock), ReadLux, Release(LightLock)] && lightOn == old(lightOn)
      ensures exit.Measured? ==>
        exit.light == calcLux(lux.broadband, lux.ir) &&
        lightOn == Apply(old(lightOn), LuxDecision(exit.light, OffAbove)) &&
        dev.trace == old(dev.trace) + [Acquire(LightLock), ReadLux] + PowerCommands(old(lightOn), lightOn) + [Release(LightLock)]
      ensures exit != LockFailed ==> !Holds(dev.trace, LightLock)
    {
      var locked := dev.SpinLock(LightLock, tries);
      if !locked {
        return LockFailed;
      }
      dev.Do(ReadLux);
      if lux.failed {
        LastLockAction(dev.trace, LightLock);
        dev.Do(Release(LightLock));
        return LuxFailed;
      }
      var light := calcLux(lux.broadband, lux.ir);
      if light <= OnAtMost {
        TurnOnLight(dev);
      } else if light > OffAbove {
        TurnOffLight(dev);
      }
      LastLockAction(dev.trace, LightLock);
      dev.Do(Release(LightLock));
      exit := Measured(light);
    }

    /** The 10-second tick of auto_light/main.go: nothing by day; past midnight switch off and
        recompute the times; otherwise measure under the lock. */
    method Tick(dev: Devices, now: int, sun: SunTimes, probe: Result<bool>,
                tries: seq<TryLock>, lux: LuxReading, calcLux: (int, int) -> int) returns (exit: TickExit)
      requires SpinEnds(tries)
      modifies this, dev
      ensures exit == Daytime <==> IsBright(now, old(sunrise), old(sunset))
      ensures exit == PastMidnight <==> !IsBright(now, old(sunrise), old(sunset)) && now > old(midnight)
      ensures exit == PastMidnight ==>
        dev.trace == old(dev.trace) + PowerCommands(old(lightOn), false) &&
        sunrise == sun.sunrise && sunset == sun.sunset && midnight == sun.midnight && lightOn == (probe == Ok(true))
      ensures exit != PastMidnight ==> sunrise == old(sunrise) && sunset == old(sunset) && midnight == old(midnight)
      ensures exit == Daytime || exit == LockFailed ==> dev.trace == old(dev.trace) && lightOn == old(lightOn)
      ensures exit == LockFailed <==>
        !IsBright(now, old(sunrise), old(sunset)) && now <= old(midnight) && (exists k :: SpinEndsAt(tries, k, TryErr))
      ensures exit == LuxFailed <==>
        !IsBright(now, old(sunrise), old(sunset)) && now <= old(midnight) && (exists k :: SpinEndsAt(tries, k, Got)) && lux.failed
      ensures exit == LuxFailed ==>
        dev.trace == old(dev.trace) + [Acquire(LightLock), ReadLux, Release(LightLock)] && lightOn == old(lightOn)
      ensures exit.Measured? ==>
        exit.light == calcLux(lux.broadband, lux.ir) &&
        lightOn == Apply(old(lightOn), LuxDecision(exit.light, OffAbove)) &&
        dev.trace == old(dev.trace) + [Acquire(LightLock), ReadLux] + PowerCommands(old(lightOn), lightOn) + [Release(LightLock)]
      ensures exit == LuxFailed || exit.Measured? ==> !Holds(dev.trace, LightLock)
      ensures exit != BeforeSunrise
    {
      if IsBright(now, sunrise, sunset) {
        return Daytime;
      }
      if now > midnight {
        TurnOffLight(dev);
        UpdateSunTime(sun, probe);
        return PastMidnight;
      }
      exit := Measure(dev, tries, lux, calcLux);
    }

    /** The lock-and-measure block of cmd/auto_light/main.go's tick, as written: the Unlock
        comes right after a good read, before the lux calculation, but a failed read returns
        before reaching it, so that path leaves the lock held. */
    method MeasureCmd(dev: Devices, tries: seq<TryLock>, lux: LuxReading, calcLux: (int, int) -> int) returns (exit: TickExit)
      requires SpinEnds(tries)
      modifies this, dev
      ensures exit == LockFailed || exit == LuxFailed || exit.Measured?
      ensures exit == LockFailed <==> exists k :: SpinEndsAt(tries, k, TryErr)
      ensures exit == LuxFailed <==> (exists k :: SpinEndsAt(tries, k, Got)) && lux.failed
      ensures sunrise == old(sunrise) && sunset == old(sunset) && midnight == old(midnight)
      ensures exit == LockFailed ==>
        (exists k :: SpinEndsAt(tries, k, TryErr)) && dev.trace == old(dev.trace) && lightOn == old(lightOn)
      ensures exit == LuxFailed ==>
        dev.trace == old(dev.trace) + [Acquire(LightLock), ReadLux] && lightOn == old(lightOn) &&
        Holds(dev.trace, LightLock)
      ensures exit.Measured? ==>
        exit.light == calcLux(lux.broadband, lux.ir) &&
        lightOn == Apply(old(lightOn), LuxDecision(exit.light, OffAboveCmd)) &&
        dev.trace == old(dev.trace) + [Acquire(LightLock), ReadLux, Release(LightLock)] + PowerCommands(old(lightOn), lightOn) &&
        !Holds(dev.trace, LightLock)
    {
      var locked := dev.SpinLock(LightLock, tries);
      if !locked {
        return LockFailed;
      }
      LastLockAction(old(dev.trace), LightLock);
      OtherAction(dev.trace, ReadLux, LightLock);
      dev.Do(ReadLux);
      if lux.failed {
        return LuxFailed;
      }
      LastLockAction(dev.trace, LightLock);
      dev.Do(Release(LightLock));
      ghost var released := dev.trace;
      var light := calcLux(lux.broadband, lux.ir);
      if light <= OnAtMost {
        TurnOnLight(dev);
      } else if light > OffAboveCmd {
        TurnOffLight(dev);
      }
      HoldsAppend(released, PowerCommands(old(lightOn), lightOn), LightLock);
      HoldsFromUntouched(false, PowerCommands(old(lightOn), lightOn), LightLock);
      exit := Measured(light);
    }

    /** The tick of cmd/auto_light/main.go: as Tick, but after midnight it also waits for
        sunrise, and the measurement is MeasureCmd's. */
    method TickCmd(dev: Devices, now: int, sun: SunTimes, probe: Result<bool>,
                   tries: seq<TryLock>, lux: LuxReading, calcLux: (int, int) -> int) returns (exit: TickExit)
      requires SpinEnds(tries)
      modifies this, dev
      ensures exit == Daytime <==> IsBright(now, old(sunrise), old(sunset))
      ensures exit == PastMidnight <==> !IsBright(now, old(sunrise), old(sunset)) && now > old(midnight)
      ensures exit == BeforeSunrise <==>
        !IsBright(now, old(sunrise), old(sunset)) && now <= old(midnight) && now < old(sunrise)
      ensures exit == PastMidnight ==>
        dev.trace == old(dev.trace) + PowerCommands(old(lightOn), false) &&
        sunrise == sun.sunrise && sunset == sun.sunset && midnight == sun.midnight && lightOn == (probe == Ok(true))
      ensures exit != PastMidnight ==> sunrise == old(sunrise) && sunset == old(sunset) && midnight == old(midnight)
      ensures exit == Daytime || exit == BeforeSunrise || exit == LockFailed ==>
        dev.trace == old(dev.trace) && lightOn == old(lightOn)
      ensures exit == LockFailed <==>
        !IsBright(now, old(sunrise), old(sunset)) && now <= old(midnight) && now >= old(sunrise) && (exists k :: SpinEndsAt(tries, k, TryErr))
      ensures exit == LuxFailed <==>
        !IsBright(now, old(sunrise), old(sunset)) && now <= old(midnight) && now >= old(sunrise) && (exists k :: SpinEndsAt(tries, k, Got)) && lux.failed
      ensures exit == LuxFailed ==>
        dev.trace == old(dev.trace) + [Acquire(LightLock), ReadLux] && lightOn == old(lightOn) &&
        Holds(dev.trace, LightLock)
      ensures exit.Measured? ==>
        exit.light == calcLux(lux.broadband, lux.ir) &&
        lightOn == Apply(old(lightOn), LuxDecision(exit.light, OffAboveCmd)) &&
        dev.trace == old(dev.trace) + [Acquire(LightLock), ReadLux, Release(LightLock)] + PowerCommands(old(lightOn), lightOn) &&
        !Holds(dev.trace, LightLock)
    {
      if IsBright(now, sunrise, sunset) {
        return Daytime;
      }
      if now > midnight {
        TurnOffLight(dev);
        UpdateSunTime(sun, probe);
        return PastMidnight;
      }
      if now < sunrise {
        return BeforeSunrise;
      }
      exit := MeasureCmd(dev, tries, lux, calcLux);
    }

    /** MeasureCmd with the Unlock also on the failed-read path: the lock is never left held. */
    method MeasureCmdReleasing(dev: Devices, tries: seq<TryLock>, lux: LuxReading, calcLux: (int, int) -> int) returns (exit: TickExit)
      requires SpinEnds(tries)
      modifies this, dev
      ensures exit == LockFailed || exit == LuxFailed || exit.Measured?
      ensures exit == LockFailed <==> exists k :: SpinEndsAt(tries, k, TryErr)
      ensures exit == LuxFailed <==> (exists k :: SpinEndsAt(tries, k, Got)) && lux.failed
      ensures sunrise == old(sunrise) && sunset == old(sunset) && midnight == old(midnight)
      ensures exit == LockFailed ==>
        (exists k :: SpinEndsAt(tries, k, TryErr)) && dev.trace == old(dev.trace) && lightOn == old(lightOn)
      ensures exit == LuxFailed ==>
        dev.trace == old(dev.trace) + [Acquire(LightLock), ReadLux, Release(LightLock)] && lightOn == old(lightOn)
      ensures exit.Measured? ==>
        exit.light == calcLux(lux.broadband, lux.ir) &&
        lightOn == Apply(old(lightOn), LuxDecision(exit.light, OffAboveCmd)) &&
        dev.trace == old(dev.trace) + [Acquire(LightLock), ReadLux, Release(LightLock)] + PowerCommands(old(lightOn), lightOn)
      ensures exit != LockFailed ==> !Holds(dev.trace, LightLock)
    {
      var locked := dev.SpinLock(LightLock, tries);
      if !locked {
        return LockFailed;
      }
      dev.Do(ReadLux);
      LastLockAction(dev.trace, LightLock);
      dev.Do(Release(LightLock));
      ghost var released := dev.trace;
      if lux.failed {
        return LuxFailed;
      }
      var light := calcLux(lux.broadband, lux.ir);
      if light <= OnAtMost {
        TurnOnLight(dev);
      } else if light > OffAboveCmd {
        TurnOffLight(dev);
      }
      HoldsAppend(released, PowerCommands(old(lightOn), lightOn), LightLock);
      HoldsFromUntouched(false, PowerCommands(old(lightOn), lightOn), LightLock);
      exit := Measured(light);
    }

    /** TickCmd with MeasureCmdReleasing: started without the lock, no exit leaves it held. */
    method TickCmdReleasing(dev: Devices, now: int, sun: SunTimes, probe: Result<bool>,
                            tries: seq<TryLock>, lux: LuxReading, calcLux: (int, int) -> int) returns (exit: TickExit)
      requires SpinEnds(tries)
      requires !Holds(dev.trace, LightLock)
      modifies this, dev
      ensures !Holds(dev.trace, LightLock)
      ensures exit == Daytime <==> IsBright(now, old(sunrise), old(sunset))
      ensures exit == PastMidnight <==> !IsBright(now, old(sunrise), old(sunset)) && now > old(midnight)
      ensures exit == BeforeSunrise <==>
        !IsBright(now, old(sunrise), old(sunset)) && now <= old(midnight) && now < old(sunrise)
      ensures exit == LockFailed <==>
        !IsBright(now, old(sunrise), old(sunset)) && now <= old(midnight) && now >= old(sunrise) && (exists k :: SpinEndsAt(tries, k, TryErr))
      ensures exit == LuxFailed <==>
        !IsBright(now, old(sunrise), old(sunset)) && now <= old(midnight) && now >= old(sunrise) && (exists k :: SpinEndsAt(tries, k, Got)) && lux.failed
      ensures exit == PastMidnight ==>
        dev.trace == old(dev.trace) + PowerCommands(old(lightOn), false) &&
        sunrise == sun.sunrise && sunset == sun.sunset && midnight == sun.midnight && lightOn == (probe == Ok(true))
      ensures exit != PastMidnight ==> sunrise == old(sunrise) && sunset == old(sunset) && midnight == old(midnight)
      ensures exit == Daytime || exit == BeforeSunrise || exit == LockFailed ==>
        dev.trace == old(dev.trace) && lightOn == old(lightOn)
      ensures exit == LuxFailed ==>
        dev.trace == old(dev.trace) + [Acquire(LightLock), ReadLux, Release(LightLock)] && lightOn == old(lightOn)
      ensures exit.Measured? ==>
        exit.light == calcLux(lux.broadband, lux.ir) &&
        lightOn == Apply(old(lightOn), LuxDecision(exit.light, OffAboveCmd)) &&
        dev.trace == old(dev.trace) + [Acquire(LightLock), ReadLux, Release(LightLock)] + PowerCommands(old(lightOn), lightOn)
    {
      if IsBright(now, sunrise, sunset) {
        return Daytime;
      }
      if now > midnight {
        TurnOffLight(dev);
        HoldsAppend(old(dev.trace), PowerCommands(old(lightOn), false), LightLock);
        HoldsFromUntouched(false, PowerCommands(old(lightOn), false), LightLock);
        UpdateSunTime(sun, probe);
        return PastMidnight;
      }
      if now < sunrise {
        return BeforeSunrise;
      }
      exit := MeasureCmdReleasing(dev, tries, lux, calcLux);
    }
  }
}

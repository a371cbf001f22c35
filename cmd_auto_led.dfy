/** cmd/auto_led/main.go: the LED alternates between an air-quality colour (refreshed hourly)
    and a temperature colour (refreshed every minute), then rests on the temperature colour. */
module CmdAutoLed {
  import opened Results
  import opened Colors
  import opened Board
  import opened Sensors

  /** Times the blink loop alternates the two colours. */
  const Blinks: nat := 10

  /** `Blinks` pairs (AQI colour, temperature colour) followed by the temperature colour alone. */
  function BlinkPattern(aqi: Color, temp: Color): seq<Action> {
    Alternate(Blinks, aqi, temp) + [SetRgb(temp)]
  }

  function Alternate(n: nat, a: Color, b: Color): seq<Action> {
    if n == 0 then [] else Alternate(n - 1, a, b) + [SetRgb(a), SetRgb(b)]
  }

  lemma {:induction false} AlternateShape(n: nat, a: Color, b: Color)
    ensures |Alternate(n, a, b)| == 2 * n
    ensures forall i :: 0 <= i < 2 * n ==> Alternate(n, a, b)[i] == SetRgb(if i % 2 == 0 then a else b)
  {
    if n > 0 {
      AlternateShape(n - 1, a, b);
    }
  }

  /** The blink shows 21 colours: the AQI colour at the even positions before the last, the
      temperature colour at the odd positions and at the end. */
  lemma BlinkShape(aqi: Color, temp: Color)
    ensures |BlinkPattern(aqi, temp)| == 2 * Blinks + 1
    ensures forall i :: 0 <= i < 2 * Blinks + 1 ==>
      BlinkPattern(aqi, temp)[i] == SetRgb(if i % 2 == 0 && i < 2 * Blinks then aqi else temp)
    ensures BlinkPattern(aqi, temp)[2 * Blinks] == SetRgb(temp)
  {
    AlternateShape(Blinks, aqi, temp);
  }

  /** The package-level globals. */
  class Indicator {
    var lastTemp: real
    var lastTempColor: Color
    var lastAqiColor: Color

    constructor ()
      ensures lastTemp == 0.0 && lastTempColor == Color(0, 0, 0) && lastAqiColor == Color(0, 0, 0)
    {
      lastTemp := 0.0;
      lastTempColor := Color(0, 0, 0);
      lastAqiColor := Color(0, 0, 0);
    }

    /** updateAQI: a failed fetch keeps the previous colour. */
    method UpdateAQI(aqi: Result<real>)
      modifies this
      ensures lastAqiColor == (if aqi.Ok? then AQIToColor(aqi.value) else old(lastAqiColor))
      ensures lastTemp == old(lastTemp) && lastTempColor == old(lastTempColor)
    {
      if aqi.Err? {
        return;
      }
      lastAqiColor := AQIToColor(aqi.value);
    }

    /** updateTemperature: any sensor error keeps the previous colour; a changed temperature
        recomputes it on the 8..32 degree ramp. */
    method UpdateTemperature(dev: Devices, tries: seq<TryLock>, dht: DhtReading)
      requires SpinEnds(tries)
      modifies this, dev
      ensures lastAqiColor == old(lastAqiColor)
      ensures (exists k :: SpinEndsAt(tries, k, TryErr)) || dht.failed ==>
        lastTemp == old(lastTemp) && lastTempColor == old(lastTempColor)
      ensures (exists k :: SpinEndsAt(tries, k, Got)) && !dht.failed ==>
        lastTemp == dht.temp &&
        lastTempColor == (if dht.temp != old(lastTemp) then TemperatureToColor(dht.temp) else old(lastTempColor))
      ensures !Holds(old(dev.trace), DhtLock) ==> !Holds(dev.trace, DhtLock)
      ensures (exists k :: SpinEndsAt(tries, k, TryErr)) ==> dev.trace == old(dev.trace)
      ensures (exists k :: SpinEndsAt(tries, k, Got)) ==>
        dev.trace == old(dev.trace) + [Acquire(DhtLock), ReadTemp, Release(DhtLock)]
    {
      SpinOutcome(tries);
      var th := GetTempHum(dev, tries, dht);
      if th.err.Some? {
        return;
      }
      if lastTemp != th.temp {
        lastTempColor := TemperatureToColor(th.temp);
        lastTemp := th.temp;
      }
    }

    /** The goroutine started each minute: ten AQI/temperature alternations, then the
        temperature colour. */
    method Blink(dev: Devices)
      modifies dev
      ensures dev.trace == old(dev.trace) + BlinkPattern(lastAqiColor, lastTempColor)
    {
      var i := 0;
      while i < Blinks
        invariant 0 <= i <= Blinks
        invariant dev.trace == old(dev.trace) + Alternate(i, lastAqiColor, lastTempColor)
      {
        dev.Do(SetRgb(lastAqiColor));
        dev.Do(SetRgb(lastTempColor));
        i := i + 1;
      }
      dev.Do(SetRgb(lastTempColor));
    }
  }
}

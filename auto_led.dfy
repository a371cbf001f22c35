/** auto_led/main.go: every minute read the DHT22 under its lock and recolour the LED when
    the temperature differs from the last one shown. */
module AutoLed {
  import opened Results
  import opened Colors
  import opened Board
  import opened Sensors

  class Display {
    /** The package-level `lastTemp`, zero until the first change. */
    var lastTemp: real

    constructor ()
      ensures lastTemp == 0.0
    {
      lastTemp := 0.0;
    }

    /** One tick: a lock error ends it; otherwise the LED is set, and lastTemp updated, exactly
        when the reading differs from lastTemp. The driver's own error never reaches here
        (getTempHum drops it), so a failed read is shown like a real one. */
    method Tick(dev: Devices, tries: seq<TryLock>, dht: DhtReading)
      requires SpinEnds(tries)
      modifies this, dev
      ensures (exists k :: SpinEndsAt(tries, k, TryErr)) ==>
        dev.trace == old(dev.trace) && lastTemp == old(lastTemp)
      ensures (exists k :: SpinEndsAt(tries, k, Got)) ==>
        dev.trace == old(dev.trace) + [Acquire(DhtLock), ReadTemp, Release(DhtLock)] +
          (if dht.temp != old(lastTemp) then [SetRgb(BedroomTemperatureToColor(dht.temp))] else []) &&
        lastTemp == dht.temp
      ensures (exists k :: SpinEndsAt(tries, k, Got)) ==> !Holds(dev.trace, DhtLock)
      ensures !Holds(old(dev.trace), DhtLock) ==> !Holds(dev.trace, DhtLock)
    {
      SpinOutcome(tries);
      var th := GetTempHumDropsError(dev, tries, dht);
      if th.err.Some? {
        return;
      }
      if lastTemp != th.temp {
        var c := BedroomTemperatureToColor(th.temp);
        OtherAction(dev.trace, SetRgb(c), DhtLock);
        dev.Do(SetRgb(c));
        lastTemp := th.temp;
      }
    }
  }
}

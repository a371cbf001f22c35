/** The five-minute tick of temp_led.go: read the DHT22 (without a lock), colour the LED by the
    12..25 degree ramp, then, holding the light-sensor lock, switch the LED off, read the lux
    sensor, set the new colour and hand a row to the sheet writer. */
module TempLed {
  import opened Results
  import opened Colors
  import opened Board
  import opened Sensors

  /** The locked part of the tick, after a good temperature read: LED off, lux read, and on a
      good read the new colour and the upload; the deferred Unlock runs last on both outcomes. */
  method LockAndShow(dev: Devices, now: int, temp: real, hum: real, tries: seq<TryLock>, lux: LuxReading,
                     calcLux: (int, int) -> int) returns (row: Option<seq<Cell>>)
    requires SpinEnds(tries)
    modifies dev
    ensures (exists k :: SpinEndsAt(tries, k, TryErr)) ==> row == None && dev.trace == old(dev.trace)
    ensures (exists k :: SpinEndsAt(tries, k, Got)) && lux.failed ==>
      row == None && dev.trace == old(dev.trace) + [Acquire(LightLock), LedOff, ReadLux, Release(LightLock)]
    ensures row.Some? <==> (exists k :: SpinEndsAt(tries, k, Got)) && !lux.failed
    ensures row.Some? ==>
      row.value == SensorRow(now, temp, hum, lux.broadband, lux.ir, calcLux(lux.broadband, lux.ir)) &&
      dev.trace == old(dev.trace) + [Acquire(LightLock), LedOff, ReadLux,
        SetRgb(BedroomTemperatureToColor(temp)), Upload(row.value), Release(LightLock)]
    ensures (exists k :: SpinEndsAt(tries, k, Got)) ==> !Holds(dev.trace, LightLock)
    ensures Holds(dev.trace, DhtLock) == Holds(old(dev.trace), DhtLock)
  {
    SpinOutcome(tries);
    var c := BedroomTemperatureToColor(temp);
    var locked := dev.SpinLock(LightLock, tries);
    if !locked {
      return None;
    }
    OtherAction(old(dev.trace), Acquire(LightLock), DhtLock);
    OtherAction(dev.trace, LedOff, DhtLock);
    dev.Do(LedOff);
    OtherAction(dev.trace, ReadLux, DhtLock);
    dev.Do(ReadLux);
    if lux.failed {
      LastLockAction(dev.trace, LightLock);
      OtherAction(dev.trace, Release(LightLock), DhtLock);
      dev.Do(Release(LightLock));
      return None;
    }
    var light := calcLux(lux.broadband, lux.ir);
    OtherAction(dev.trace, SetRgb(c), DhtLock);
    dev.Do(SetRgb(c));
    var r := SensorRow(now, temp, hum, lux.broadband, lux.ir, light);
    OtherAction(dev.trace, Upload(r), DhtLock);
    dev.Do(Upload(r));
    LastLockAction(dev.trace, LightLock);
    OtherAction(dev.trace, Release(LightLock), DhtLock);
    dev.Do(Release(LightLock));
    row := Some(r);
  }

  /** One tick; the deferred Unlock runs when the tick returns, after the LED is set and the
      upload goroutine is started. The uploaded row is returned as well (None when the tick
      ended early). */
  method Tick(dev: Devices, now: int, dht: DhtReading, tries: seq<TryLock>, lux: LuxReading,
              calcLux: (int, int) -> int) returns (row: Option<seq<Cell>>)
    requires SpinEnds(tries)
    modifies dev
    ensures dht.failed ==> row == None && dev.trace == old(dev.trace) + [ReadTemp]
    ensures !dht.failed && (exists k :: SpinEndsAt(tries, k, TryErr)) ==>
      row == None && dev.trace == old(dev.trace) + [ReadTemp]
    ensures !dht.failed && (exists k :: SpinEndsAt(tries, k, Got)) && lux.failed ==>
      row == None &&
      dev.trace == old(dev.trace) + [ReadTemp, Acquire(LightLock), LedOff, ReadLux, Release(LightLock)]
    ensures row.Some? <==> !dht.failed && (exists k :: SpinEndsAt(tries, k, Got)) && !lux.failed
    ensures row.Some? ==>
      row.value == SensorRow(now, dht.temp, dht.hum, lux.broadband, lux.ir, calcLux(lux.broadband, lux.ir)) &&
      dev.trace == old(dev.trace) + [ReadTemp, Acquire(LightLock), LedOff, ReadLux,
        SetRgb(BedroomTemperatureToColor(dht.temp)), Upload(row.value), Release(LightLock)]
    ensures !dht.failed && (exists k :: SpinEndsAt(tries, k, Got)) ==> !Holds(dev.trace, LightLock)
    ensures !Holds(old(dev.trace), LightLock) ==> !Holds(dev.trace, LightLock)
    ensures Holds(dev.trace, DhtLock) == Holds(old(dev.trace), DhtLock)
  {
    SpinOutcome(tries);
    OtherAction(dev.trace, ReadTemp, DhtLock);
    OtherAction(dev.trace, ReadTemp, LightLock);
    var th := ReadTempUnlocked(dev, dht);
    if th.err.Some? {
      return None;
    }
    ghost var afterRead := dev.trace;
    row := LockAndShow(dev, now, th.temp, th.hum, tries, lux, calcLux);
    assert afterRead == old(dev.trace) + [ReadTemp];
  }
}

/** cmd/sensor_logger/main.go: the logger built on pkg/sensors. A failed temperature read now
    ends the tick, a TryLock error on the light sensor is retried instead of ending it, the
    lock is released right after the read, and the LED is not touched. */
module CmdSensorLogger {
  import opened Results
  import opened Board
  import opened Sensors

  /** One tick; the row handed to the upload goroutine (SensorLogger.UploadWithRetry) is
      returned, None when the tick ended early. */
  method Tick(dev: Devices, now: int, dhtTries: seq<TryLock>, dht: DhtReading,
              luxTries: seq<TryLock>, lux: LuxReading, calcLux: (int, int) -> int) returns (row: Option<seq<Cell>>)
    requires SpinEnds(dhtTries) && Got in luxTries
    modifies dev
    ensures (exists k :: SpinEndsAt(dhtTries, k, TryErr)) ==> row == None && dev.trace == old(dev.trace)
    ensures (exists k :: SpinEndsAt(dhtTries, k, Got)) && dht.failed ==>
      row == None && dev.trace == old(dev.trace) + [Acquire(DhtLock), ReadTemp, Release(DhtLock)]
    ensures (exists k :: SpinEndsAt(dhtTries, k, Got)) && !dht.failed ==>
      dev.trace == old(dev.trace) + [Acquire(DhtLock), ReadTemp, Release(DhtLock)] +
        [Acquire(LightLock), ReadLux, Release(LightLock)] +
        (if row.Some? then [Upload(row.value)] else [])
    ensures row.Some? <==> (exists k :: SpinEndsAt(dhtTries, k, Got)) && !dht.failed && !lux.failed
    ensures row.Some? ==>
      row.value == SensorRow(now, dht.temp, dht.hum, lux.broadband, lux.ir, calcLux(lux.broadband, lux.ir))
    ensures !Holds(old(dev.trace), LightLock) ==> !Holds(dev.trace, LightLock)
  {
    SpinOutcome(dhtTries);
    var th := GetTempHum(dev, dhtTries, dht);
    if th.err.Some? {
      if th.err == Some(SensorFault) {
        HoldsAppend(old(dev.trace), [Acquire(DhtLock), ReadTemp, Release(DhtLock)], LightLock);
        HoldsFromUntouched(Holds(old(dev.trace), LightLock), [Acquire(DhtLock), ReadTemp, Release(DhtLock)], LightLock);
      }
      return None;
    }
    var attempts := dev.SpinLockRetryingErrors(LightLock, luxTries);
    dev.Do(ReadLux);
    LastLockAction(dev.trace, LightLock);
    dev.Do(Release(LightLock));
    ghost var released := dev.trace;
    if lux.failed {
      return None;
    }
    var light := calcLux(lux.broadband, lux.ir);
    var r := SensorRow(now, th.temp, th.hum, lux.broadband, lux.ir, light);
    dev.Do(Upload(r));
    HoldsAppend(released, [Upload(r)], LightLock);
    row := Some(r);
  }
}

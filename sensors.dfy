/** Temperature/humidity reads of the DHT22 under its bus lock: pkg/sensors/sensors.go and
    the local getTempHum copies in auto_led/main.go, sensor_logger/main.go and temp_led.go. */
module Sensors {
  import opened Results
  import opened Board

  /** What dht.ReadDHTxxWithRetry returns (its retries happen inside the driver): the two
      values and whether its error was non-nil. */
  datatype DhtReading = DhtReading(temp: real, hum: real, failed: bool)

  datatype Fault = LockFault | SensorFault

  /** The (temperature, humidity, error) triple a getTempHum returns. */
  datatype TempHum = TempHum(temp: real, hum: real, err: Option<Fault>)

  /** GetTempHum of pkg/sensors: lock, read, unlock on both read outcomes; a TryLock error
      returns (0, 0, err) without the lock ever having been held. */
  method GetTempHum(dev: Devices, tries: seq<TryLock>, dht: DhtReading) returns (r: TempHum)
    requires SpinEnds(tries)
    modifies dev
    ensures (exists k :: SpinEndsAt(tries, k, TryErr)) ==>
      r == TempHum(0.0, 0.0, Some(LockFault)) && dev.trace == old(dev.trace)
    ensures (exists k :: SpinEndsAt(tries, k, Got)) ==>
      dev.trace == old(dev.trace) + [Acquire(DhtLock), ReadTemp, Release(DhtLock)] &&
      r == (if dht.failed then TempHum(0.0, 0.0, Some(SensorFault)) else TempHum(dht.temp, dht.hum, None))
    ensures r.err != Some(LockFault) ==> !Holds(dev.trace, DhtLock)
    ensures r.err == Some(LockFault) ==> Holds(dev.trace, DhtLock) == Holds(old(dev.trace), DhtLock)
  {
    var locked := dev.SpinLock(DhtLock, tries);
    if !locked {
      return TempHum(0.0, 0.0, Some(LockFault));
    }
    dev.Do(ReadTemp);
    if dht.failed {
      dev.Do(Release(DhtLock));
      r := TempHum(0.0, 0.0, Some(SensorFault));
    } else {
      dev.Do(Release(DhtLock));
      r := TempHum(dht.temp, dht.hum, None);
    }
    HoldsAppend(old(dev.trace), [Acquire(DhtLock), ReadTemp, Release(DhtLock)], DhtLock);
  }

  /** getTempHum of auto_led/main.go and sensor_logger/main.go, as written: the unlock is
      deferred, and the driver's error is assigned to the loop's own `err` and dropped, so
      once the lock is held the call always reports success with whatever the driver returned. */
  method GetTempHumDropsError(dev: Devices, tries: seq<TryLock>, dht: DhtReading) returns (r: TempHum)
    requires SpinEnds(tries)
    modifies dev
    ensures (exists k :: SpinEndsAt(tries, k, TryErr)) ==>
      r == TempHum(0.0, 0.0, Some(LockFault)) && dev.trace == old(dev.trace)
    ensures (exists k :: SpinEndsAt(tries, k, Got)) ==>
      dev.trace == old(dev.trace) + [Acquire(DhtLock), ReadTemp, Release(DhtLock)] &&
      r == TempHum(dht.temp, dht.hum, None)
    ensures r.err != Some(SensorFault)
    ensures r.err != Some(LockFault) ==> !Holds(dev.trace, DhtLock)
  {
    var locked := dev.SpinLock(DhtLock, tries);
    if !locked {
      return TempHum(0.0, 0.0, Some(LockFault));
    }
    dev.Do(ReadTemp);
    r := TempHum(dht.temp, dht.hum, None);
    // the deferred Unlock runs on return
    dev.Do(Release(DhtLock));
    HoldsAppend(old(dev.trace), [Acquire(DhtLock), ReadTemp, Release(DhtLock)], DhtLock);
  }

  /** getTempHum of temp_led.go: no lock; the driver's values and error are passed on. */
  method ReadTempUnlocked(dev: Devices, dht: DhtReading) returns (r: TempHum)
    modifies dev
    ensures dev.trace == old(dev.trace) + [ReadTemp]
    ensures r.temp == dht.temp && r.hum == dht.hum
    ensures r.err == if dht.failed then Some(SensorFault) else None
  {
    dev.Do(ReadTemp);
    r := TempHum(dht.temp, dht.hum, if dht.failed then Some(SensorFault) else None);
  }
}

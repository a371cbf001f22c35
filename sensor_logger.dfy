/** sensor_logger/main.go: every ten minutes read temperature and humidity under the DHT22
    lock, then lux under the light-sensor lock with the LED dark, and prepend one row to the
    spreadsheet, retrying the upload up to three times. */
module SensorLogger {
  import opened Results
  import opened Board
  import opened Sensors

  /** MaxRetry: PrependRow calls the upload goroutine makes at most. */
  const MaxRetry: nat := 3

  /** The upload goroutine: call PrependRow until it succeeds or MaxRetry calls have failed.
      `succeeds(i)` is the outcome of the i-th call. */
  method UploadWithRetry(succeeds: nat -> bool) returns (calls: nat, uploaded: bool)
    ensures 1 <= calls <= MaxRetry
    ensures forall j :: 0 <= j < calls - 1 ==> !succeeds(j)
    ensures uploaded <==> succeeds(calls - 1)
    ensures !uploaded ==> calls == MaxRetry
  {
    var i := 0;
    calls := 0;
    uploaded := false;
    while i < MaxRetry
      invariant 0 <= i <= MaxRetry && calls == i
      invariant forall j :: 0 <= j < i ==> !succeeds(j)
      invariant !uploaded
    {
      calls := calls + 1;
      if succeeds(i) {
        uploaded := true;
        return;
      }
      i := i + 1;
    }
  }

  /** One tick. Both exits inside the lock loop run the deferred `led.On()` and then the
      deferred Unlock; the upload goroutine is started before they run. The row handed to it
      is returned (None when the tick ended early). */
  method Tick(dev: Devices, now: int, dhtTries: seq<TryLock>, dht: DhtReading,
              luxTries: seq<TryLock>, lux: LuxReading, calcLux: (int, int) -> int) returns (row: Option<seq<Cell>>)
    requires SpinEnds(dhtTries) && SpinEnds(luxTries)
    modifies dev
    ensures (exists k :: SpinEndsAt(dhtTries, k, TryErr)) ==> row == None && dev.trace == old(dev.trace)
    ensures (exists k :: SpinEndsAt(dhtTries, k, Got)) && (exists k :: SpinEndsAt(luxTries, k, TryErr)) ==>
      row == None && dev.trace == old(dev.trace) + [Acquire(DhtLock), ReadTemp, Release(DhtLock)]
    ensures (exists k :: SpinEndsAt(dhtTries, k, Got)) && (exists k :: SpinEndsAt(luxTries, k, Got)) ==>
      dev.trace == old(dev.trace) + [Acquire(DhtLock), ReadTemp, Release(DhtLock)] +
        [Acquire(LightLock), LedOff, ReadLux] +
        (if row.Some? then [Upload(row.value)] else []) +
        [LedOn, Release(LightLock)]
    ensures row.Some? <==> (exists k :: SpinEndsAt(dhtTries, k, Got)) && (exists k :: SpinEndsAt(luxTries, k, Got)) && !lux.failed
    ensures row.Some? ==>
      row.value == SensorRow(now, dht.temp, dht.hum, lux.broadband, lux.ir, calcLux(lux.broadband, lux.ir))
    ensures !Holds(old(dev.trace), LightLock) ==> !Holds(dev.trace, LightLock)
  {
    SpinOutcome(dhtTries);
    SpinOutcome(luxTries);
    var th := GetTempHumDropsError(dev, dhtTries, dht);
    if th.err.Some? {
      return None;
    }
    ghost var afterTemp := dev.trace;
    var locked := dev.SpinLock(LightLock, luxTries);
    if !locked {
      HoldsAppend(old(dev.trace), [Acquire(DhtLock), ReadTemp, Release(DhtLock)], LightLock);
      return None;
    }
    dev.Do(LedOff);
    dev.Do(ReadLux);
    if lux.failed {
      row := None;
    } else {
      var light := calcLux(lux.broadband, lux.ir);
      var r := SensorRow(now, th.temp, th.hum, lux.broadband, lux.ir, light);
      dev.Do(Upload(r));
      row := Some(r);
    }
    dev.Do(LedOn);
    LastLockAction(dev.trace, LightLock);
    dev.Do(Release(LightLock));
  }
}

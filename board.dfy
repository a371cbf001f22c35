/** The hardware the scripts drive, seen from one process: the advisory file locks on the
    two sensor buses, the sensors, the RGB LED, the smart-plug light and the uploads. Every
    effect is appended to one trace, so a method's contract can say what it did, in order. */
module Board {
  import opened Colors

  /** /var/lock/dht22.lock (temperature sensor) and /var/lock/tsl2561.lock (light sensor). */
  datatype LockName = DhtLock | LightLock

  /** One call of flock's TryLock: an error, (false, nil) while another holder has it, or (true, nil). */
  datatype TryLock = TryErr | Busy | Got

  /** One field of an uploaded sensor row. */
  datatype Cell = TimeCell(at: int) | RealCell(x: real) | IntCell(n: int)

  /** What the TSL2561 driver's GetLuminocity returns: the two channels and whether its error was non-nil. */
  datatype LuxReading = LuxReading(broadband: int, ir: int, failed: bool)

  /** The six columns every logger writes: time, temperature, humidity, broadband, infrared, lux. */
  function SensorRow(now: int, temp: real, hum: real, broadband: int, ir: int, light: int): (row: seq<Cell>)
    ensures |row| == 6 && row[0] == TimeCell(now)
  {
    [TimeCell(now), RealCell(temp), RealCell(hum), IntCell(broadband), IntCell(ir), IntCell(light)]
  }

  datatype Action =
    | Acquire(lock: LockName)
    | Release(lock: LockName)
    | ReadTemp
    | ReadLux
    | LedOff
    | LedOn
    | SetRgb(color: Color)
    | Power(on: bool)
    | Upload(row: seq<Cell>)

  /** Whether this process holds lock l after the actions t, starting from held. */
  function HoldsFrom(held: bool, t: seq<Action>, l: LockName): bool
    decreases |t|
  {
    if |t| == 0 then held
    else
      var h := if t[0] == Acquire(l) then true else if t[0] == Release(l) then false else held;
      HoldsFrom(h, t[1..], l)
  }

  /** Whether this process holds lock l at the end of the trace t. */
  function Holds(t: seq<Action>, l: LockName): bool {
    HoldsFrom(false, t, l)
  }

  lemma {:induction false} HoldsFromAppend(held: bool, t: seq<Action>, u: seq<Action>, l: LockName)
    ensures HoldsFrom(held, t + u, l) == HoldsFrom(HoldsFrom(held, t, l), u, l)
    decreases |t|
  {
    if |t| > 0 {
      var h := if t[0] == Acquire(l) then true else if t[0] == Release(l) then false else held;
      assert (t + u)[0] == t[0] && (t + u)[1..] == t[1..] + u;
      HoldsFromAppend(h, t[1..], u, l);
    } else {
      assert t + u == u;
    }
  }

  /** Whether l is held after a trace extended by u depends only on whether it was held before u. */
  lemma HoldsAppend(t: seq<Action>, u: seq<Action>, l: LockName)
    ensures Holds(t + u, l) == HoldsFrom(Holds(t, l), u, l)
  {
    HoldsFromAppend(false, t, u, l);
  }

  /** A Release of l ends holding it; an Acquire starts it. */
  lemma LastLockAction(t: seq<Action>, l: LockName)
    ensures !Holds(t + [Release(l)], l)
    ensures Holds(t + [Acquire(l)], l)
  {
    HoldsAppend(t, [Release(l)], l);
    HoldsAppend(t, [Acquire(l)], l);
  }

  /** Any other action leaves the holder of l unchanged. */
  lemma OtherAction(t: seq<Action>, a: Action, l: LockName)
    requires a != Acquire(l) && a != Release(l)
    ensures Holds(t + [a], l) == Holds(t, l)
  {
    HoldsAppend(t, [a], l);
  }

  /** Actions that neither acquire nor release l leave its holder unchanged. */
  lemma {:induction false} HoldsFromUntouched(held: bool, u: seq<Action>, l: LockName)
    requires forall i :: 0 <= i < |u| ==> u[i] != Acquire(l) && u[i] != Release(l)
    ensures HoldsFrom(held, u, l) == held
    decreases |u|
  {
    if |u| > 0 {
      HoldsFromUntouched(held, u[1..], l);
    }
  }

  /** The spin loop `for { TryLock() ... }` stops at call k with outcome o: every earlier call was busy. */
  predicate SpinEndsAt(tries: seq<TryLock>, k: int, o: TryLock) {
    0 <= k < |tries| && tries[k] == o && forall j :: 0 <= j < k ==> tries[j] == Busy
  }

  /** The TryLock script contains a call that ends the spin (an error or the lock). */
  predicate SpinEnds(tries: seq<TryLock>) {
    exists k :: 0 <= k < |tries| && tries[k] != Busy
  }

  /** A spin that ends, ends exactly one way: with the lock or with an error. */
  lemma SpinOutcome(tries: seq<TryLock>)
    requires SpinEnds(tries)
    ensures (exists k :: SpinEndsAt(tries, k, Got)) <==> !(exists k :: SpinEndsAt(tries, k, TryErr))
  {
    var i := 0;
    while tries[i] == Busy
      invariant 0 <= i < |tries|
      invariant forall j :: 0 <= j < i ==> tries[j] == Busy
      invariant exists k :: i <= k < |tries| && tries[k] != Busy
      decreases |tries| - i
    {
      i := i + 1;
    }
    assert SpinEndsAt(tries, i, tries[i]);
  }

  class Devices {
    var trace: seq<Action>

    constructor ()
      ensures trace == []
    {
      trace := [];
    }

    method Do(a: Action)
      modifies this
      ensures trace == old(trace) + [a]
    {
      trace := trace + [a];
    }

    /** The head of every `for { locked, err := lock.TryLock(); if err != nil { return ... }; if locked { ... } }`
        loop: spin while busy; report whether the lock was obtained (true) or TryLock failed (false). */
    method SpinLock(l: LockName, tries: seq<TryLock>) returns (locked: bool)
      requires SpinEnds(tries)
      modifies this
      ensures locked <==> exists k :: SpinEndsAt(tries, k, Got)
      ensures !locked <==> exists k :: SpinEndsAt(tries, k, TryErr)
      ensures trace == old(trace) + (if locked then [Acquire(l)] else [])
    {
      var i := 0;
      while i < |tries| && tries[i] == Busy
        invariant 0 <= i <= |tries|
        invariant forall j :: 0 <= j < i ==> tries[j] == Busy
        decreases |tries| - i
      {
        i := i + 1;
      }
      assert i < |tries|;
      assert SpinEndsAt(tries, i, tries[i]);
      locked := tries[i] == Got;
      if locked {
        Do(Acquire(l));
      }
    }

    /** The spin of cmd/sensor_logger/main.go, where a TryLock error sleeps and tries again. */
    method SpinLockRetryingErrors(l: LockName, tries: seq<TryLock>) returns (attempts: nat)
      requires Got in tries
      modifies this
      ensures 1 <= attempts <= |tries| && tries[attempts - 1] == Got
      ensures forall j :: 0 <= j < attempts - 1 ==> tries[j] != Got
      ensures trace == old(trace) + [Acquire(l)]
    {
      var i := 0;
      while tries[i] != Got
        invariant 0 <= i < |tries|
        invariant Got in tries[i..]
        invariant forall j :: 0 <= j < i ==> tries[j] != Got
        decreases |tries| - i
      {
        assert tries[i..] == [tries[i]] + tries[i + 1..];
        i := i + 1;
      }
      attempts := i + 1;
      Do(Acquire(l));
    }
  }
}

/** The rear-door monitor of door_monitor/main.go and cmd/door_monitor/main.go: a contact
    sensor polled by updateSensorState, edge events on a channel, and an event loop that starts
    a delayed warning (monitorDoor) on every opening and cancels it on closing. */
module DoorMonitor {
  import opened Results
  import opened Cmds

  datatype Event = DoorOpened | DoorClosed

  /** The miio output shape getMagnetSensorContact accepts: three lines, the middle one a boolean. */
  predicate IsContactOutput(lines: seq<string>) {
    |lines| == 3 && (lines[1] == "true" || lines[1] == "false")
  }

  /** getMagnetSensorContact of door_monitor/main.go, on what exec reported. The result is
      the magnet contact: true means the door is closed. */
  function GetMagnetSensorContact(out: Exec): (r: Result<bool>)
    ensures out.ExecFailed? ==> r == Err(out.message)
    ensures r.Ok? <==> out.ExecOk? && IsContactOutput(Split(out.output, '\n'))
    ensures r.Ok? ==> r.value == (Split(out.output, '\n')[1] == "true")
  {
    match out
    case ExecFailed(m) => Err(m)
    case ExecOk(o) =>
      var outs := Split(o, '\n');
      if |outs| == 3 then
        if outs[1] == "true" then Ok(true)
        else if outs[1] == "false" then Ok(false)
        else Err("Unexpected sensor output" + outs[1])
      else Err("Unexpected miio command output" + o)
  }

  /** miio's reply for a contact value: a first line, the value, and a trailing newline. */
  function ContactReply(first: string, closed: bool): string {
    first + "\n" + (if closed then "true" else "false") + "\n"
  }

  /** The parser reads back the value of every well-formed reply. */
  lemma {:induction false} ContactRoundTrip(first: string, closed: bool)
    requires '\n' !in first
    ensures GetMagnetSensorContact(ExecOk(ContactReply(first, closed))) == Ok(closed)
  {
    var v := if closed then "true" else "false";
    var parts := [first, v, ""];
    assert Join(parts, '\n') == ContactReply(first, closed) by {
      assert Join(parts[1..], '\n') == v + "\n" + "";
    }
    SplitJoin(parts, '\n');
  }

  /** The same concatenation operands as `fmt.Sprintf("%v", outs)` for a []string. */
  function FormatLines(outs: seq<string>): string {
    "[" + Join(outs, ' ') + "]"
  }

  /** The command line cmd/door_monitor/main.go builds for the contact query. */
  const ContactCommand: string := "/usr/local/bin/node /usr/local/bin/miio control 158d0002676aec contact"

  /** getMagnetSensorContact of cmd/door_monitor/main.go, over RunCmdWithResult's lines. */
  function GetMagnetSensorContactCmd(exec: (string, seq<string>) -> Exec): (r: Result<bool>)
    ensures r.Ok? <==> RunCmdWithResult(ContactCommand, exec).Ok? && IsContactOutput(RunCmdWithResult(ContactCommand, exec).value)
    ensures r.Ok? ==> r.value == (RunCmdWithResult(ContactCommand, exec).value[1] == "true")
    ensures RunCmdWithResult(ContactCommand, exec).Err? ==> r == Err(RunCmdWithResult(ContactCommand, exec).error)
  {
    match RunCmdWithResult(ContactCommand, exec)
    case Err(m) => Err(m)
    case Ok(outs) =>
      if |outs| == 3 then
        if outs[1] == "true" then Ok(true)
        else if outs[1] == "false" then Ok(false)
        else Err("Unexpected sensor output:" + outs[1])
      else Err("Unexpected miio command output:" + FormatLines(outs))
  }

  /** One tick of updateSensorState: a failed poll changes nothing; a reading that agrees with
      the tracked flag (doorOpened == closed) emits the edge event and flips the flag. */
  function Step(doorOpened: bool, poll: Result<bool>): (r: (bool, Option<Event>))
    ensures poll.Err? ==> r == (doorOpened, None)
    ensures r.1.Some? <==> poll.Ok? && poll.value == doorOpened
    ensures r.1.None? ==> r.0 == doorOpened
    ensures r.1.Some? ==> r.0 == !doorOpened && (r.1.value == DoorOpened <==> r.0)
    ensures poll.Ok? ==> r.0 == !poll.value
  {
    match poll
    case Err(_) => (doorOpened, None)
    case Ok(closed) =>
      if doorOpened == closed then
        (!doorOpened, Some(if doorOpened then DoorClosed else DoorOpened))
      else (doorOpened, None)
  }

  /** The flag and the events sent after a sequence of polls. */
  function Run(doorOpened: bool, polls: seq<Result<bool>>): (r: (bool, seq<Event>))
    ensures |r.1| <= |polls|
    ensures |polls| == 0 ==> r == (doorOpened, [])
    decreases |polls|
  {
    if |polls| == 0 then (doorOpened, [])
    else
      var (s, es) := Run(doorOpened, polls[..|polls| - 1]);
      var (s', e) := Step(s, polls[|polls| - 1]);
      (s', es + (if e.Some? then [e.value] else []))
  }

  /** The i-th event of a strictly alternating stream whose flag starts at open. */
  function Expected(open: bool, i: nat): Event {
    if (i % 2 == 0) == open then DoorClosed else DoorOpened
  }

  predicate Alternating(open: bool, es: seq<Event>) {
    forall i :: 0 <= i < |es| ==> es[i] == Expected(open, i)
  }

  /** Events strictly alternate, beginning with the edge away from the initial flag, and the
      final flag records the parity of the number of events. */
  lemma {:induction false} RunAlternates(open: bool, polls: seq<Result<bool>>)
    ensures Alternating(open, Run(open, polls).1)
    ensures Run(open, polls).0 == if |Run(open, polls).1| % 2 == 0 then open else !open
    decreases |polls|
  {
    if |polls| > 0 {
      RunAlternates(open, polls[..|polls| - 1]);
    }
  }

  /** From the initial flag (closed), the first event is an opening and no two successive events agree. */
  lemma StartsWithOpening(polls: seq<Result<bool>>)
    ensures var es := Run(false, polls).1;
      (|es| > 0 ==> es[0] == DoorOpened) && forall i :: 0 <= i < |es| - 1 ==> es[i] != es[i + 1]
  {
    RunAlternates(false, polls);
    var es := Run(false, polls).1;
    forall i | 0 <= i < |es| - 1
      ensures es[i] != es[i + 1]
    {
      assert es[i] == Expected(false, i) && es[i + 1] == Expected(false, i + 1);
    }
  }

  /** A failed poll is invisible: removing it changes neither the events nor the flag. */
  lemma {:induction false} FailedPollInvisible(open: bool, a: seq<Result<bool>>, b: seq<Result<bool>>, why: string)
    ensures Run(open, a + [Err(why)] + b) == Run(open, a + b)
    decreases |b|
  {
    if |b| == 0 {
      var p := a + [Err(why)] + b;
      assert p[..|p| - 1] == a && p[|p| - 1] == Err(why);
      assert a + b == a;
      var r := Run(open, a);
      assert Run(open, p) == (r.0, r.1 + []);
      assert r.1 + [] == r.1;
    } else {
      var b' := b[..|b| - 1];
      FailedPollInvisible(open, a, b', why);
      assert (a + [Err(why)] + b)[..|a + [Err(why)] + b| - 1] == a + [Err(why)] + b';
      assert (a + b)[..|a + b| - 1] == a + b';
    }
  }

  /** Successful readings that already agree with the flag emit nothing and keep the flag. */
  lemma {:induction false} AgreeingPollsSilent(closed: bool, polls: seq<Result<bool>>)
    requires forall i :: 0 <= i < |polls| ==> polls[i] == Ok(closed)
    ensures Run(!closed, polls) == (!closed, [])
    decreases |polls|
  {
    if |polls| > 0 {
      AgreeingPollsSilent(closed, polls[..|polls| - 1]);
      assert Step(!closed, polls[|polls| - 1]) == (!closed, None);
      var r := Run(!closed, polls);
      assert r.0 == !closed && r.1 == [];
    }
  }

  /** Contact readings closed, closed, open, open, closed give an opening at the third tick and
      a closing at the fifth, and nothing else. */
  lemma ContactExample()
    ensures var polls := [Ok(true), Ok(true), Ok(false), Ok(false), Ok(true)];
      Run(false, polls[..2]).1 == [] && Run(false, polls[..3]).1 == [DoorOpened] &&
      Run(false, polls[..4]).1 == [DoorOpened] && Run(false, polls).1 == [DoorOpened, DoorClosed]
  {
    var p0: seq<Result<bool>> := [];
    var p1 := p0 + [Ok(true)];
    var p2 := p1 + [Ok(true)];
    var p3 := p2 + [Ok(false)];
    var p4 := p3 + [Ok(false)];
    var p5 := p4 + [Ok(true)];
    assert p1[..0] == p0 && p2[..1] == p1 && p3[..2] == p2 && p4[..3] == p3 && p5[..4] == p4;
    assert Run(false, p0) == (false, []);
    assert Step(false, Ok(true)) == (false, None);
    var r1 := Run(false, p1);
    assert !r1.0 && r1.1 == [];
    var r2 := Run(false, p2);
    assert !r2.0 && r2.1 == [];
    var r3 := Run(false, p3);
    assert r3.0 && r3.1 == [DoorOpened];
    var r4 := Run(false, p4);
    assert r4.0 && r4.1 == [DoorOpened];
    var r5 := Run(false, p5);
    assert r5.1 == [DoorOpened] + [DoorClosed];
    var polls := [Ok(true), Ok(true), Ok(false), Ok(false), Ok(true)];
    assert polls == p5 && polls[..2] == p2 && polls[..3] == p3 && polls[..4] == p4;
  }

  /** updateSensorState's goroutine: the global doorOpened flag and the events it has sent. */
  class ContactMonitor {
    var doorOpened: bool
    var sent: seq<Event>

    /** The Go zero value: the door is taken to be closed before the first poll. */
    constructor ()
      ensures !doorOpened && sent == []
    {
      doorOpened := false;
      sent := [];
    }

    method Tick(poll: Result<bool>)
      modifies this
      ensures doorOpened == Step(old(doorOpened), poll).0
      ensures sent == old(sent) + (if Step(old(doorOpened), poll).1.Some? then [Step(old(doorOpened), poll).1.value] else [])
    {
      match poll {
        case Err(_) =>
        case Ok(closed) =>
          if doorOpened == closed {
            if doorOpened {
              sent := sent + [DoorClosed];
            } else {
              sent := sent + [DoorOpened];
            }
            doorOpened := !doorOpened;
          }
      }
    }

    /** The polling loop, one tick per poll result, until the quit signal (the end of polls). */
    method UpdateSensorState(polls: seq<Result<bool>>)
      modifies this
      ensures doorOpened == Run(old(doorOpened), polls).0
      ensures sent == old(sent) + Run(old(doorOpened), polls).1
    {
      var i := 0;
      while i < |polls|
        invariant 0 <= i <= |polls|
        invariant doorOpened == Run(old(doorOpened), polls[..i]).0
        invariant sent == old(sent) + Run(old(doorOpened), polls[..i]).1
      {
        assert polls[..i + 1][..i] == polls[..i];
        Tick(polls[i]);
        i := i + 1;
      }
      assert polls[..i] == polls;
    }
  }

  /** monitorDoor: a race between the warning timeout and the quit channel; only the timeout
      branch sends the notification (one attempt, whose error is only logged). */
  function MonitorDoor(quitFirst: bool): (sent: nat)
    ensures sent <= 1
    ensures sent == 0 <==> quitFirst
  {
    if quitFirst then 0 else 1
  }

  /** The event loop's state in main: quitMonCh (None for nil), the next channel to make, the
      channels closed so far, and the quit channel handed to each monitorDoor started, in order. */
  datatype Loop = Loop(quitMonCh: Option<nat>, nextChan: nat, closed: set<nat>, monitors: seq<nat>)

  const InitialLoop: Loop := Loop(None, 0, {}, [])

  /** One event of main's loop: an opening makes a channel if there is none and starts a monitor
      on it; a closing closes and clears the channel if there is one. */
  function HandleEvent(c: Loop, e: Event): (r: Loop)
    ensures c.nextChan <= r.nextChan <= c.nextChan + 1
    ensures c.closed <= r.closed
    ensures e == DoorOpened ==> r.quitMonCh.Some? && r.closed == c.closed && r.monitors == c.monitors + [r.quitMonCh.value]
    ensures e == DoorOpened && c.quitMonCh.Some? ==> r.quitMonCh == c.quitMonCh
    ensures e == DoorClosed ==> r.quitMonCh.None? && r.monitors == c.monitors
    ensures e == DoorClosed ==> r.closed == c.closed + (if c.quitMonCh.Some? then {c.quitMonCh.value} else {})
  {
    match e
    case DoorOpened =>
      var c' := if c.quitMonCh.None? then c.(quitMonCh := Some(c.nextChan), nextChan := c.nextChan + 1) else c;
      c'.(monitors := c'.monitors + [c'.quitMonCh.value])
    case DoorClosed =>
      if c.quitMonCh.Some? then c.(closed := c.closed + {c.quitMonCh.value}, quitMonCh := None) else c
  }

  function HandleEvents(c: Loop, es: seq<Event>): (r: Loop)
    ensures c.closed <= r.closed
    ensures c.monitors <= r.monitors && |r.monitors| <= |c.monitors| + |es|
    ensures c.nextChan <= r.nextChan <= c.nextChan + |es|
    decreases |es|
  {
    if |es| == 0 then c else HandleEvent(HandleEvents(c, es[..|es| - 1]), es[|es| - 1])
  }

  /** Notifications the started monitors send if their timeouts elapse now: those whose quit
      channel is still open. */
  function PendingAlerts(monitors: seq<nat>, closed: set<nat>): nat
    decreases |monitors|
  {
    if |monitors| == 0 then 0
    else PendingAlerts(monitors[..|monitors| - 1], closed) + MonitorDoor(monitors[|monitors| - 1] in closed)
  }

  lemma {:induction false} NoPendingWhenAllClosed(ms: seq<nat>, closed: set<nat>)
    requires forall i :: 0 <= i < |ms| ==> ms[i] in closed
    ensures PendingAlerts(ms, closed) == 0
    decreases |ms|
  {
    if |ms| > 0 {
      NoPendingWhenAllClosed(ms[..|ms| - 1], closed);
    }
  }

  /** What the loop state looks like after an alternating stream: with the door open, exactly
      the last monitor's channel is live and held in quitMonCh; with it closed, nothing is live. */
  predicate Consistent(c: Loop, open: bool) {
    (forall x :: x in c.closed ==> x < c.nextChan) &&
    (open ==>
      c.quitMonCh.Some? && c.quitMonCh.value < c.nextChan && c.quitMonCh.value !in c.closed &&
      |c.monitors| > 0 && c.monitors[|c.monitors| - 1] == c.quitMonCh.value &&
      forall i :: 0 <= i < |c.monitors| - 1 ==> c.monitors[i] in c.closed) &&
    (!open ==> c.quitMonCh.None? && forall i :: 0 <= i < |c.monitors| ==> c.monitors[i] in c.closed)
  }

  lemma {:induction false} ConsistentAlerts(c: Loop, open: bool)
    requires Consistent(c, open)
    ensures PendingAlerts(c.monitors, c.closed) == if open then 1 else 0
  {
    if open {
      var ms := c.monitors;
      NoPendingWhenAllClosed(ms[..|ms| - 1], c.closed);
    } else {
      NoPendingWhenAllClosed(c.monitors, c.closed);
    }
  }

  lemma {:induction false} HandleAlternating(es: seq<Event>)
    requires Alternating(false, es)
    ensures Consistent(HandleEvents(InitialLoop, es), |es| % 2 == 1)
    decreases |es|
  {
    if |es| > 0 {
      var es' := es[..|es| - 1];
      assert Alternating(false, es') by {
        forall i | 0 <= i < |es'| ensures es'[i] == Expected(false, i) {
          assert es'[i] == es[i];
        }
      }
      HandleAlternating(es');
      var c := HandleEvents(InitialLoop, es');
      var c' := HandleEvents(InitialLoop, es);
      assert es[|es| - 1] == Expected(false, |es| - 1);
      if |es| % 2 == 1 {
        assert c' == c.(quitMonCh := Some(c.nextChan), nextChan := c.nextChan + 1, monitors := c.monitors + [c.nextChan]);
        assert forall i :: 0 <= i < |c'.monitors| - 1 ==> c'.monitors[i] == c.monitors[i];
      } else {
        assert c' == c.(closed := c.closed + {c.quitMonCh.value}, quitMonCh := None);
        assert forall i :: 0 <= i < |c.monitors| - 1 ==> c.monitors[i] in c.closed;
      }
    }
  }

  /** Fed a strictly alternating stream starting with an opening, the loop holds a channel
      exactly when the door is open, and at most one started monitor is uncancelled. */
  lemma AtMostOneLiveMonitor(es: seq<Event>)
    requires Alternating(false, es)
    ensures var c := HandleEvents(InitialLoop, es);
      PendingAlerts(c.monitors, c.closed) == (if |es| % 2 == 1 then 1 else 0) &&
      (c.quitMonCh.Some? <==> |es| % 2 == 1)
  {
    HandleAlternating(es);
    ConsistentAlerts(HandleEvents(InitialLoop, es), |es| % 2 == 1);
  }

  /** The invariant rests on alternation: two openings in a row start two monitors on one
      channel, and both would send their warning. */
  lemma RepeatedOpeningStartsTwoMonitors()
    ensures var c := HandleEvents(InitialLoop, [DoorOpened, DoorOpened]);
      c.monitors == [0, 0] && PendingAlerts(c.monitors, c.closed) == 2
  {
    var es := [DoorOpened, DoorOpened];
    assert es[..1][..0] == [];
    assert HandleEvents(InitialLoop, es[..1]) == Loop(Some(0), 1, {}, [0]);
    var c := HandleEvents(InitialLoop, es);
    assert c == Loop(Some(0), 1, {}, [0, 0]);
    assert c.monitors[..1] == [0] && c.monitors[..1][..0] == [];
  }

  /** Opening then closing cancels the monitor; an opening left alone leaves one warning pending. */
  lemma OpenThenCloseSendsNothing()
    ensures var c := HandleEvents(InitialLoop, [DoorOpened, DoorClosed]);
      c.quitMonCh.None? && PendingAlerts(c.monitors, c.closed) == 0
    ensures var c := HandleEvents(InitialLoop, [DoorOpened]);
      c.quitMonCh.Some? && PendingAlerts(c.monitors, c.closed) == 1
  {
    var es := [DoorOpened, DoorClosed];
    assert Alternating(false, es);
    AtMostOneLiveMonitor(es);
    assert Alternating(false, [DoorOpened]);
    AtMostOneLiveMonitor([DoorOpened]);
  }

  /** The whole door pipeline: whatever the polls, the loop holds a channel exactly when the
      detector's flag says open, and at most one monitor can send a warning. */
  lemma DoorPipeline(polls: seq<Result<bool>>)
    ensures var c := HandleEvents(InitialLoop, Run(false, polls).1);
      PendingAlerts(c.monitors, c.closed) <= 1 && (c.quitMonCh.Some? <==> Run(false, polls).0)
  {
    RunAlternates(false, polls);
    AtMostOneLiveMonitor(Run(false, polls).1);
  }

  /** main's event loop. */
  class DoorController {
    var quitMonCh: Option<nat>
    var nextChan: nat
    var closed: set<nat>
    var monitors: seq<nat>

    function State(): Loop
      reads this
    {
      Loop(quitMonCh, nextChan, closed, monitors)
    }

    constructor ()
      ensures State() == InitialLoop
    {
      quitMonCh := None;
      nextChan := 0;
      closed := {};
      monitors := [];
    }

    method OnEvent(e: Event)
      modifies this
      ensures State() == HandleEvent(old(State()), e)
    {
      if e == DoorOpened {
        if quitMonCh.None? {
          quitMonCh := Some(nextChan);
          nextChan := nextChan + 1;
        }
        monitors := monitors + [quitMonCh.value];
      } else if quitMonCh.Some? {
        closed := closed + {quitMonCh.value};
        quitMonCh := None;
      }
    }

    /** The `for { select { case event := <-eventCh: ... } }` loop over the events received. */
    method Serve(events: seq<Event>)
      modifies this
      ensures State() == HandleEvents(old(State()), events)
    {
      var i := 0;
      while i < |events|
        invariant 0 <= i <= |events|
        invariant State() == HandleEvents(old(State()), events[..i])
      {
        assert events[..i + 1][..i] == events[..i];
        OnEvent(events[i]);
        i := i + 1;
      }
      assert events[..i] == events;
    }
  }
}

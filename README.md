# not_so_smart_home, modelled in Dafny

A model of the sequential logic in the Raspberry Pi home scripts of not_so_smart_home. The
scripts are written in Go, and there are several near-duplicate versions of each one:

- a temperature-to-colour ramp and an air-quality (AQI) colour table for an RGB LED;
- a rear-door contact monitor that warns when the door is left open;
- a smart-plug night light driven by sunset, sunrise and a lux sensor;
- temperature, humidity and lux loggers that write to a Google spreadsheet.

The sensors sit on buses shared between processes, so each script takes an advisory file lock
around its sensor read.

How the model is built:

- **Hardware and commands.** Every effect of a script is appended to one trace, `Board.Devices.trace`. This covers taking and releasing a lock, reading a sensor, switching the LED, sending a plug power command, and handing a row to the uploader. Each tick's contract ties every exit path to the inputs that select it (the clock, the lock script and the sensor reads), and states the exact segment it appends on that path and whether the lock is held afterwards (`Board.Holds`).
- **Outside inputs.** Everything the scripts get from outside is a parameter: TryLock outcomes, sensor readings, `exec` results, the clock, sunrise and sunset times, and API results.
- **Code-level state.** The package-level globals of each program become the fields of a class: `lightOn`, the sun times, `doorOpened`, `quitMonCh`, `lastTemp`, the colours, and `nextRow`.
- **Pure logic.** The colour ramp, the AQI buckets, the command and output splitting, and the door edge detector are functions with lemmas.

Modules follow the source files:

- `Cmds`: pkg/cmds.
- `Colors`: pkg/colors and the ramp copies.
- `Board`: the trace, the locks and the spin loop.
- `Sensors`: the getTempHum variants.
- `DoorMonitor`: both door programs.
- `NightLight`: both auto_light programs.
- `TempLed`, `AutoLed`, `CmdAutoLed`, `SensorLogger`, `CmdSensorLogger`, `SheetWrite` and `SheetApi`: one module for each of the remaining programs.

Two points where the code's behaviour may be unexpected:

- The door monitor's flag starts as "closed" (`doorOpened` is false, Go's zero value). It is not set from the first poll. So if the door is already open at start-up, the first successful poll reports an opening.
- The event loop starts a new `monitorDoor` on *every* `door_opened`, and reuses the existing quit channel if there is one. Two openings in a row therefore leave two live monitors (`DoorMonitor.RepeatedOpeningStartsTwoMonitors`). "At most one live monitor" holds only because the detector emits strictly alternating events (`DoorMonitor.AtMostOneLiveMonitor`, `DoorMonitor.DoorPipeline`).

## Model

| member | source | states |
|---|---|---|
| Cmds.Split | pkg/cmds/cmds.go:11 | `strings.Split` always yields at least one part, and no part contains the separator |
| Cmds.JoinSplit | pkg/cmds/cmds.go:11 | joining the split parts with the separator gives back the original string |
| Cmds.SplitJoin | pkg/cmds/cmds.go:26 | splitting the join of separator-free parts gives back those parts |
| Cmds.SplitCount | pkg/cmds/cmds.go:26 | output with k newlines splits into k+1 lines |
| Cmds.SplitTrailing | pkg/cmds/cmds.go:26 | a trailing newline yields an empty last line |
| Cmds.CommandParts | pkg/cmds/cmds.go:11-12 | the program contains no space; program and arguments joined by spaces give back the command, and repeated spaces are kept as empty arguments |
| Cmds.RunCmd | pkg/cmds/cmds.go:10-17 | Ok exactly when exec succeeds; otherwise the error is exec's message prefixed "error running shell command:" |
| Cmds.RunCmdWithResult | pkg/cmds/cmds.go:20-27 | Err exactly when exec fails, with its message; on success the lines join back to the output and number one more than its newlines |
| Colors.BlendBetween | pkg/colors/colors.go:28-30 | for 0 <= dx <= 1 the truncated blend lies between the two inputs |
| Colors.InterpolateV | pkg/colors/colors.go:28-30 | the channel lies between x and y; it is x at dx = 0 and y at dx = 1 |
| Colors.Interpolate | pkg/colors/colors.go:32-38 | every channel lies between the two colours' channels; the result is c1 at dx = 0 and c2 at dx = 1 |
| Colors.Scale | pkg/colors/colors.go:40-46 | a scaled channel never grows, and a factor of 1 keeps it |
| Colors.Mul | pkg/colors/colors.go:40-46 | no channel grows, and factor 1 is the identity |
| Colors.Brightness | pkg/colors/colors.go:60 | the brightness factor ledBrightness/100 is exactly 1 |
| Colors.BrightnessIsIdentity | pkg/colors/colors.go:60 | the brightness step leaves every colour unchanged |
| Colors.PositionBounds | pkg/colors/colors.go:56 | inside [min, max] the position `col` lies in 0 .. N-1 |
| Colors.Ceil | pkg/colors/colors.go:58 | `math.Ceil`: the least integer at or above x, at most one above its floor |
| Colors.LowIndex | pkg/colors/colors.go:57 | colLow is a valid anchor index, at or below the position |
| Colors.HighIndex | pkg/colors/colors.go:58 | colHigh is a valid anchor index, equal to colLow or one above it, and equal exactly when the position is an integer |
| Colors.ToColor | pkg/colors/colors.go:50-61 | below min gives the first anchor and above max the last; in range every channel lies between anchors colLow and colHigh, and an integer position gives that anchor exactly |
| Colors.RampEnds | pkg/colors/colors.go:56-60 | exactly at min and max the ramp returns the first and last anchors, with no out-of-range index |
| Colors.LowIndexMonotone | pkg/colors/colors.go:56-58 | a warmer temperature never selects a lower anchor pair |
| Colors.TemperatureToColor | pkg/colors/colors.go:50-55 | at or below 8 degrees purple, at or above 32 red |
| Colors.BedroomTemperatureToColor | temp_led.go:76-87 | the 12..25 copy, also in auto_led/main.go:77-88: at or below 12 purple, at or above 25 red |
| Colors.TwentyDegrees | pkg/colors/colors.go:56-60 | 20 degrees gives (0,255,127): between cyan and green and equal to neither |
| Colors.Lookup | pkg/colors/colors.go:64-84 | reference bucket table: the colour of the first bucket whose bound is at least the value, else the fallback |
| Colors.AqiIsBucketLookup | pkg/colors/colors.go:64-84 | AQIToColor's if-chain equals the first-match lookup over the bands 50/100/150/200/300 with brown above |
| Colors.AQIToColor | pkg/colors/colors.go:64-84 | the result is one of the six AQI colours; green exactly up to 50 inclusive, brown exactly above 300 |
| Colors.AqiBoundaries | pkg/colors/colors.go:64-84 | each band's bound takes that band (<= tests), and any value just above it takes the next band |
| Board.SpinOutcome | pkg/sensors/sensors.go:18-24 | a TryLock loop that ends, ends either with the lock or with an error, never both |
| Board.Devices.SpinLock | pkg/sensors/sensors.go:18-24 | spins while TryLock is busy; the lock is taken (one Acquire) exactly when the first non-busy outcome is success, and nothing is recorded on an error |
| Board.Devices.SpinLockRetryingErrors | cmd/sensor_logger/main.go:51-58 | TryLock errors are retried like busy results; the lock is taken at the first success |
| Board.SensorRow | cmd/sensor_logger/main.go:76-83 | the uploaded row has six fields, time first |
| Sensors.GetTempHum | pkg/sensors/sensors.go:15-36 | a lock error gives (0,0,err) and touches nothing. Once locked, the code reads, then unlocks exactly once. A read error gives (0,0,err); a good read gives the values and no error. The lock is never left held |
| Sensors.GetTempHumDropsError | sensor_logger/main.go:37-54 | the copy also in auto_led/main.go:90-107: same lock handling with a deferred unlock, but once locked it always reports success with the driver's values |
| Sensors.ReadTempUnlocked | temp_led.go:89-94 | one read, no lock; the values and error are passed through |
| DoorMonitor.GetMagnetSensorContact | door_monitor/main.go:35-53 | Ok exactly for three-line output whose middle line is "true" or "false", and then the value is that line; exec errors are passed through |
| DoorMonitor.ContactRoundTrip | door_monitor/main.go:41-49 | every reply of the shape miio prints parses back to its contact value |
| DoorMonitor.GetMagnetSensorContactCmd | cmd/door_monitor/main.go:35-51 | the same acceptance condition over RunCmdWithResult's lines, with RunCmdWithResult's error passed through |
| DoorMonitor.Step | door_monitor/main.go:63-77 | a failed poll changes nothing; an event is sent exactly when the reading equals doorOpened, it is door_closed if the door was open, and the flag flips |
| DoorMonitor.Run | door_monitor/main.go:57-79 | the poll loop sends at most one event per poll, and no polls leave the flag and the events untouched |
| DoorMonitor.RunAlternates | door_monitor/main.go:70-76 | the events of any poll sequence strictly alternate, and the final flag is the initial one flipped once per event |
| DoorMonitor.StartsWithOpening | cmd/door_monitor/main.go:68-75 | from the initial closed flag the first event is door_opened, and no two successive events are equal |
| DoorMonitor.FailedPollInvisible | door_monitor/main.go:63-67 | removing a failed poll from any sequence changes neither the events nor the flag |
| DoorMonitor.AgreeingPollsSilent | door_monitor/main.go:70 | readings that agree with the tracked state emit nothing |
| DoorMonitor.ContactExample | door_monitor/main.go:70-77 | readings true,true,false,false,true give door_opened at the third tick and door_closed at the fifth, and nothing else |
| DoorMonitor.ContactMonitor.constructor | door_monitor/main.go:33 | the door starts as closed, with no events sent |
| DoorMonitor.ContactMonitor.Tick | cmd/door_monitor/main.go:61-75 | one poll updates the flag and the sent events as Step says |
| DoorMonitor.ContactMonitor.UpdateSensorState | cmd/door_monitor/main.go:53-78 | the polling loop sends exactly the events of Run over the polls, and leaves the flag Run computes |
| DoorMonitor.MonitorDoor | door_monitor/main.go:95-104 | a monitor sends one notification when its timeout wins, none when quit wins |
| DoorMonitor.NoPendingWhenAllClosed | door_monitor/main.go:101 | monitors whose quit channels are all closed send nothing |
| DoorMonitor.ConsistentAlerts | cmd/door_monitor/main.go:120-131 | in the state an alternating stream leaves, exactly one monitor is live while open and none while closed |
| DoorMonitor.HandleAlternating | cmd/door_monitor/main.go:116-133 | the event loop keeps that state for every alternating stream that starts with an opening |
| DoorMonitor.HandleEvent | door_monitor/main.go:125-142 | an opening keeps or makes quitMonCh and starts exactly one monitor on it; a closing closes the channel if there is one, clears it, and starts nothing |
| DoorMonitor.HandleEvents | door_monitor/main.go:125-142 | over a stream of events the set of closed channels only grows, monitors are only appended (at most one per event), and at most one channel is made per event |
| DoorMonitor.AtMostOneLiveMonitor | cmd/door_monitor/main.go:120-131 | after an alternating stream the loop holds a handle exactly after an opening, and at most one monitor can warn |
| DoorMonitor.RepeatedOpeningStartsTwoMonitors | door_monitor/main.go:129-134 | two openings in a row start two monitors on the same channel, and both can warn |
| DoorMonitor.OpenThenCloseSendsNothing | door_monitor/main.go:129-140 | open then close leaves no handle and no pending warning; an opening alone leaves one |
| DoorMonitor.DoorPipeline | cmd/door_monitor/main.go:53-131 | for any poll sequence fed to the event loop, the loop holds a handle exactly when the detector says open, and at most one warning is pending |
| DoorMonitor.DoorController.constructor | cmd/door_monitor/main.go:115 | quitMonCh starts nil, with no monitors started |
| DoorMonitor.DoorController.OnEvent | cmd/door_monitor/main.go:120-131 | door_opened makes a channel only if none exists and starts a monitor on it; door_closed closes and clears the channel if there is one |
| DoorMonitor.DoorController.Serve | cmd/door_monitor/main.go:116-134 | the loop applies every event in order |
| NightLight.CheckLight | cmd/auto_light/main.go:31-37 | the plug is on exactly when output line 1 is "true". Exec errors are passed through. Output with fewer than two lines indexes past the end |
| NightLight.CheckLightLegacy | auto_light/main.go:39-51 | the inline exec-and-split version has exactly the outcome of the RunCmdWithResult version |
| NightLight.CheckLightPanicsOnOneLine | cmd/auto_light/main.go:36-37 | output "true" with no newline makes checkLight index past the end |
| NightLight.CheckLightChecked | cmd/auto_light/main.go:31-37 | with a length check, short output is an error; otherwise the result is line 1 == "true", agreeing with checkLight wherever that does not panic |
| NightLight.LuxDecision | auto_light/main.go:163-172 | turns on exactly at or below 15 lux and off exactly above the off threshold |
| NightLight.IsBright | auto_light/main.go:105-111 | bright exactly strictly between sunrise and sunset: before sunrise, after sunset and both instants themselves are dark, and no time is bright unless sunrise is before sunset |
| NightLight.BandKeepsLight | cmd/auto_light/main.go:150-156 | readings strictly inside (15, threshold] never change lightOn |
| NightLight.LastDecisiveReadingWins | cmd/auto_light/main.go:150-156 | hysteresis: after a run of readings, lightOn is what the last reading outside the band asked for |
| NightLight.Controller.constructor | auto_light/main.go:37 | lightOn starts false |
| NightLight.Controller.TurnOnLight | auto_light/main.go:53-59 | sends "power true" only when the light was off, then lightOn is true, so a repeat sends nothing |
| NightLight.Controller.TurnOffLight | auto_light/main.go:61-67 | sends "power false" only when the light was on, then lightOn is false |
| NightLight.Controller.UpdateSunTime | auto_light/main.go:69-102 | stores the new sunrise, sunset and midnight; lightOn becomes the probed plug state, false when the probe fails |
| NightLight.Controller.Measure | auto_light/main.go:142-172 | the exit is decided by the inputs: a spin ending in a lock error changes nothing; a taken lock with a failed lux read releases the lock (deferred) with lightOn unchanged; a good read applies the 15/100 hysteresis, then releases; the lock is never left held |
| NightLight.Controller.Tick | auto_light/main.go:130-173 | bright time (strictly after sunrise and before sunset): nothing. Past midnight: off, recompute, no lux read. Otherwise Measure's outcomes, each tied to the lock script and the lux read |
| NightLight.Controller.MeasureCmd | cmd/auto_light/main.go:129-156 | switches off above 120 lux and unlocks right after a good read, before the lux calculation. A taken lock with a failed lux read returns with the lock still held |
| NightLight.Controller.TickCmd | cmd/auto_light/main.go:114-157 | as Tick, and also returns, touching nothing, while before sunrise; otherwise MeasureCmd's outcomes, each tied to the lock script and the lux read, including the held lock on a failed read |
| NightLight.Controller.MeasureCmdReleasing | cmd/auto_light/main.go:129-156 | the same block with Unlock also on the failed-read path: the lock is released on both read outcomes |
| NightLight.Controller.TickCmdReleasing | cmd/auto_light/main.go:114-157 | the tick built on MeasureCmdReleasing: the same exits as TickCmd, decided by the same inputs, with the same traces, except that a failed lux read also releases; started without the lock, no exit leaves it held |
| TempLed.LockAndShow | temp_led.go:118-155 | the locked block: a lock error does nothing; LED off, then the lux read; a failed read releases with no row; a good read sets the colour and uploads the row before the deferred unlock, so a taken lock is always released |
| TempLed.Tick | temp_led.go:108-156 | a temperature error ends the tick before any lock or LED action, and so does a lock error. Under the lock the LED goes off before the lux read. A lux error releases with the LED left off and no row. Otherwise the temperature colour is set, the row uploaded, then the lock released. Once the lock is taken it is never left held, and the DHT lock is never touched |
| AutoLed.Display.constructor | auto_led/main.go:54 | lastTemp starts at 0 |
| AutoLed.Display.Tick | auto_led/main.go:123-137 | a lock error changes nothing; otherwise the code reads under the lock, and the LED is set and lastTemp updated only when the temperature differs; a taken DHT lock is released, and the tick never leaves it held |
| CmdAutoLed.AlternateShape | cmd/auto_led/main.go:70-77 | n rounds give 2n colours, alternating AQI and temperature |
| CmdAutoLed.BlinkShape | cmd/auto_led/main.go:70-80 | the blink is 21 SetRGB calls: AQI at even positions 0..18, temperature at odd positions and at 20 |
| CmdAutoLed.Indicator.constructor | cmd/auto_led/main.go:25-29 | all three globals start at zero |
| CmdAutoLed.Indicator.UpdateAQI | cmd/auto_led/main.go:31-38 | an error keeps lastAqiColor; a value sets it to AQIToColor of that value |
| CmdAutoLed.Indicator.UpdateTemperature | cmd/auto_led/main.go:40-52 | a lock or read error keeps the temperature state; a changed temperature recomputes the 8..32 colour; a lock error appends nothing and a taken lock appends Acquire, ReadTemp, Release; the DHT lock is not left held |
| CmdAutoLed.Indicator.Blink | cmd/auto_led/main.go:67-81 | the goroutine appends exactly the blink pattern of the current colours |
| SensorLogger.UploadWithRetry | sensor_logger/main.go:114-132 | PrependRow is tried at most 3 times and stops at the first success; every earlier try failed (cmd/sensor_logger/main.go:74-92 is the same loop) |
| SensorLogger.Tick | sensor_logger/main.go:80-134 | a DHT lock error ends the tick, and so does a light-lock error after the DHT bracket. Under the light lock: LED off, lux read, the row only on a good read, then (deferred) LED on and unlock on both outcomes |
| CmdSensorLogger.Tick | cmd/sensor_logger/main.go:43-94 | any temperature error ends the tick before the light lock. Light-lock errors are retried. The unlock follows the read on both outcomes. A lux error writes no row; otherwise the six-field row is uploaded |
| SheetWrite.NextRowAfterScan | google_sheet_write.go:37-43 | the first row whose first cell is empty. With no such row, the number of rows, or the old cursor when there are no rows. Rows with no cells are not targets |
| SheetWrite.WriteRowEffect | google_sheet_write.go:50-52 | writing a row puts content[i] in cell (row, i) for every i and changes no other cell |
| SheetWrite.SheetOf | google_sheet_write.go:28-36 | the fetched sheet as cells: cell (i, j) holds rows[i][j], and no other cell is set |
| SheetWrite.Writer.constructor | google_sheet_write.go:14-45 | the cursor starts at 1 and then takes the scan's result; the cells are the fetched rows |
| SheetWrite.Writer.WriteRowToSheet | google_sheet_write.go:47-55 | writes the row at the cursor, advances it by exactly one even when Synchronize fails, and returns Synchronize's error |
| SheetApi.SheetIdOf | sensor_logger/google_sheet_api.go:132-139 | the ID of the first sheet with that title; "couldn't find sheet:"+name exactly when none matches |
| SheetApi.A1Check | sensor_logger/google_sheet_api.go:103-104 | the A1 split has two parts exactly when the range contains one '!' |
| SheetApi.RawDataRange | sensor_logger/main.go:124 | "RawData!A2:F2" names sheet RawData and range A2:F2 |
| SheetApi.PrependRow | sensor_logger/google_sheet_api.go:101-130 | a malformed range fails before any call. Otherwise: look up the sheet named before the '!', insert rows [1,2), then update. The first failure is returned and later calls are skipped |

## Left out

- Goroutines, channels, `time.After`, sleeps and `gobot.Every`: a tick runs to completion before the next one starts. A monitor's timeout-or-quit race is a boolean, and the upload goroutine runs after its tick. Interleavings are not modelled, such as the blink goroutine reading colours while `updateAQI` writes them.
- The race between `go turnOffLight()` and `updateSunTime()` after midnight, because it needs interleavings: the model turns the light off first, then updates.
- flock internals and other processes: TryLock results are a finite script. `Board.Devices.SpinLock` requires the script to reach a non-busy result, and `Board.Devices.SpinLockRetryingErrors` requires a success, because the source spins forever otherwise.
- Hardware drivers (DHT22, TSL2561, RGB LED, raspi adaptor): readings are inputs, `CalculateLux` is a function parameter, and uint16 channels are integers.
- Sunrise and sunset computation and the `time.Date` arithmetic for midnight, because they are an astronomy library and calendar code: the times are integer inputs, and `log.Fatal` on a sunrise error is not modelled.
- Clock reads: each tick reads the clock once. The source calls `time.Now()` separately in `isBright` and in the midnight test.
- The checkLight panic as a process crash: `NightLight.CheckLight` returns it as an outcome, and `NightLight.Controller.UpdateSunTime` takes the checked probe.
- cmd/auto_led/aqi.go (HTTP and JSON), because it is network I/O: its result is the input to `CmdAutoLed.Indicator.UpdateAQI`.
- Google Sheets, OAuth, credential files and `InitGoogleSheet`'s fetch, because they are network and file I/O: sheets, API steps and Synchronize are inputs. The sheet is a map of cells.
- Value formatting (`%.1f`, time layouts) in uploaded rows: rows carry the raw values.
- Logging, syslog setup (pkg/logs/logs.go) and robot start-up, because they have no effect on state.
- `exec.Command` and the miio/node CLI: exec is a function parameter. The power command that turnOnLight/turnOffLight run is recorded as one `Power` action, and its exit status is ignored, as in the source.
- Float rounding: the ramp is over reals with truncation by `.Floor`, and the float32 comparison `lastTemp != temp` is real inequality.
- Colors.TemperatureToColor: states only the clamps for the 8..32 instance; the in-range facts are stated once, for every ramp, on `Colors.ToColor`.

## Findings

| source | as written | input that shows it | evidently intended | confidence | as-written member | corrected member |
|---|---|---|---|---|---|---|
| cmd/auto_light/main.go:138-143 | after taking the light-sensor lock, a failed `GetLuminocity` returns before `fileLock.Unlock()` | TryLock succeeds and GetLuminocity returns an error | unlock on both read outcomes, as cmd/sensor_logger/main.go:59-60 does | not executed; high | NightLight.Controller.MeasureCmd | NightLight.Controller.MeasureCmdReleasing |
| cmd/auto_light/main.go:36-37 | `outs[1]` is read without checking that the output has a second line | miio output "true" with no newline, which splits into one line | report an error for short output | not executed; medium | NightLight.CheckLightPanicsOnOneLine | NightLight.CheckLightChecked |
| sensor_logger/main.go:48-53 | the DHT error is assigned to the loop's `err` and dropped, and the function returns nil. auto_led/main.go:101-106 does the same | TryLock succeeds and ReadDHTxxWithRetry fails | return the read error, as pkg/sensors/sensors.go:27-30 does | not executed; high | Sensors.GetTempHumDropsError | Sensors.GetTempHum |

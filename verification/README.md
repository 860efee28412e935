# Verified models of the dosing controller, BMS daemon, route service and analytics workers

A Dafny model of the parts of the repository whose behaviour is worth proving: a battery-management
daemon and its command connection, a nearest-neighbour route service with a shared cache, a
moving-average forecaster with anomaly flags, a dosing controller with its Modbus registers, a dispatch
linear program and a window-feature extractor. `dafny verify dfyconfig.toml` checks all of it.

Code that updates state in place is modelled by classes and loops whose `ensures` tie the new state to a
function of the old one; what the code promises is then proved about those functions over whole runs.
Floating point is modelled by exact reals, and in the battery daemon by reals and NaN; square roots by
their squares.

| modules | system |
|---|---|
| `BatteryModel`, `BmsStateMachine`, `BmsRuns`, `BmsHistory` | Runge-Kutta cell model, latching fault machine, runs of ticks and commands, what the state says about its history |
| `Doubles`, `NanRuns` | reals with NaN, and what a NaN load does to the daemon |
| `OrchestratorClient`, `TelemetryServer`, `CommandWire` | JSON printer, newline framing and keyword parser, and their composition with the daemon |
| `Optimizer`, `RouteRatio`, `OrderIndependence`, `RouteCache`, `RouteResponse` | greedy routing, its approximation ratio, when it ignores input order, the cache that relies on that, and the distance a response carries |
| `Forecaster`, `ForecastWorker` | sliding-sum average, anomaly flags, a node's forecast |
| `DosingFsm`, `ModbusServer`, `ControlLoop` | dosing machine and ledger, register codec, main loop closed by the PLC |
| `Dispatch`, `Features` | dispatch objective and constraints, window statistics |
| `Reals`, `Sequences`, `Statistics`, `Wrappers` | shared arithmetic, multiset, moment and option facts |

Main results:

* The four-stage integrator equals the closed form of its linear equations; from power-on, under any
  interleaving of ticks and commands with numeric currents, the state of charge is a fraction, the RC
  voltage is within 1.25 V, the cell is at or above ambient and the energy accumulator is below
  1375.625 J. Between resets charge and energy are conserved, heating is at most 0.055025 degrees, an
  energy fault is preceded by the warning by at least 800 ticks, and at most 5,499,999 ticks can carry
  5 A; both numbers are shown to be sharp. In a whole run the cell heats by less than 0.055025 degrees per
  reset; below 999 resets OVERTEMPERATURE therefore means the energy limit, and a run stays out of FAULT
  exactly when every tick is inside limits that the commands alone decide.
* With an open vent the cell temperature approaches 25 + 0.001*i^2 geometrically. Vent, load, warning and
  fault report are each traced to the events of a history that set them, and a reset forgets all of a
  history but the physics.
* Whatever bytes arrive on the connection, these bounds hold exactly as long as no cycle outside FAULT
  finds a NaN load. One such cycle makes charge, RC voltage and temperature NaN for good, and until the
  next reset no warning and no fault but overcurrent can follow.
* Printing, framing and parsing a command undo each other for every name and value string, with physics
  ticks falling anywhere between the bytes; the daemon survives a command stream exactly when `std::stod`
  accepts the value of every SET_CURRENT, which it does for no string.
* Over any metric the greedy route is at most ceil(log2(n+1)) + 1 times every other ordering. Every response,
  computed or cached, carries the rounded length of its own route from the depot.
* The cache is transparent for a request, in coordinates and distance, exactly when its greedy route meets
  no tie between differently located stops; in ids, only when the request has no waypoint.
* A flagged reading deviates by at most sqrt((k-1)(n-1)/k) standard deviations; some series of n readings
  raises a flag with window k exactly when (k-1)(n-1) > 4k.
* Whether a dose has started, with which tag, and whether it runs or pauses is read off its history alone.
* No dispatch schedule is feasible if the forecast total leaves the portfolio's capacity or ramps by more
  than the tolerance; for one asset and no tolerance the condition is exact.
* A register snapshot decodes every field to the value last set; a tag survives exactly when it fits a
  stated condition.

Where the code and its documentation or intent disagree, the model follows the code:

* `docs/ev-battery-hil.md` and the capacity-test sequence describe a full discharge at C/5 (20 A). The
  energy limit faults the machine after 343,750 ticks with more than 98 % of the charge left
  (`BmsRuns.CapacityTestStopsAlmostFull`). `BmsRuns.EmptiesIff` says from which currents a steady discharge
  ever empties the battery: from full charge, those up to 0.39 A and none from 0.4 A on
  (`BmsRuns.FullDischargeThreshold`). None of the four shipped sequences gets past its first step from
  power-on (`BmsRuns.ShippedSequencesFault`); `BmsRuns.StaysFaultFreeIff` says which commands do.
* The safety checks are comparisons, which NaN passes: a SET_CURRENT of NaN is accepted and disables them
  (`NanRuns.OneNanIsEnough`, `NanRuns.BoundedIffUnpoisoned`).
* `BatteryState.fault` never mirrors a fault (`BmsRuns.BatteryFaultMirrorsExactlyOutsideFault`).
* `models.py` admits a string value for SET_CURRENT; the daemon's parser throws on it, as it does on any
  number `std::stod` rejects (`CommandWire.BytesToEffect`).
* A cache hit can return another caller's ids for the same coordinates, for every request that holds a
  waypoint and reaches the cache (`RouteCache.FirstCallerWins`, `RouteCache.PayloadChangesIffAnyWaypoint`).
* With the PLC simulator as the only writer of coils, the dosing loop never leaves IDLE
  (`ControlLoop.ClosedLoopNeverDoses`).
* `docs/slm-sensor-analytics.md` gives the standard deviation with n - 1; the code uses n. The two agree
  exactly when all values of the window are equal (`Features.DocumentedDeviationIff`), and not for 0 and 2
  (`Features.DocumentedDeviationFails`).

## Model

| member | source | states |
|---|---|---|
| `BatteryModel.StageSlopes` | ev_battery_hil/bms/src/BatteryModel.cpp:33-53 | the weighted slope of the four stages on a linear equation is its first slope times a cubic in rate*h |
| `BatteryModel.LinearStep` | ev_battery_hil/bms/src/BatteryModel.cpp:33-53 | one step multiplies the distance to equilibrium by 1 - a + a^2/2 - a^3/6 + a^4/24 |
| `BatteryModel.StagesSolve` | ev_battery_hil/bms/src/BatteryModel.cpp:15-53 | the three combined updates are the closed forms for charge, RC voltage and temperature, and NaN exactly where the start value or the load is |
| `BatteryModel.RungeKutta` | ev_battery_hil/bms/src/BatteryModel.cpp:33-53 | the four-stage computation returns those closed forms |
| `BatteryModel.BatteryState.constructor` | ev_battery_hil/bms/src/BatteryModel.h:16-24 | the initial battery state |
| `BatteryModel.Step` | ev_battery_hil/bms/src/BatteryModel.cpp:27-68 | an overcurrent leaves the battery untouched; otherwise the closed-form battery, with the most severe safety verdict; NaN passes every check |
| `BatteryModel.SteppedNumbers` | ev_battery_hil/bms/src/BatteryModel.cpp:27-68 | on numbers the step on doubles is the step on reals |
| `BatteryModel.DampingRange` | ev_battery_hil/bms/src/BatteryModel.h:38-53 | both damping factors computed from the constants in the header lie within their second-order term of 1 - a |
| `BatteryModel.VRcBand` | ev_battery_hil/bms/src/BatteryModel.cpp:20-52 | one accepted step keeps abs(v_rc) <= 1.25 |
| `BatteryModel.HeatBalance` | ev_battery_hil/bms/src/BatteryModel.cpp:21-53 | a step from at least ambient stays there, and stored heat grows by at most the Joule heat, exactly if cooling is blocked |
| `BmsStateMachine.StateMachine.EnterFaultState` | ev_battery_hil/bms/src/BmsStateMachine.cpp:14-22 | entering a fault latches state, code and report and changes nothing else of the machine |
| `BmsStateMachine.StateMachine.ConcludeCycle` | ev_battery_hil/bms/src/BmsStateMachine.cpp:35-82 | accumulator, warnings, fault priority and transitions after an integration |
| `BmsStateMachine.StateMachine.Update` | ev_battery_hil/bms/src/BmsStateMachine.cpp:24-82 | one update cycle on machine and battery; false exactly when an overcurrent is rejected |
| `BmsStateMachine.CycleOnNumbers` | ev_battery_hil/bms/src/BmsStateMachine.cpp:24-93 | while every quantity is a number, update and reset do what the machine over reals does |
| `BmsStateMachine.StateMachine.Reset` | ev_battery_hil/bms/src/BmsStateMachine.cpp:84-93 | reset clears the machine, the fault, the blocked vent and the load, and no physical quantity |
| `BmsRuns.ReachableStates` | ev_battery_hil/bms/src/BmsStateMachine.cpp:24-93 | in every state reachable from power-on the bounds on charge, RC voltage, temperature and energy hold and the fault report is consistent |
| `BmsRuns.InvTick` | ev_battery_hil/bms/src/BmsStateMachine.cpp:24-82 | one tick keeps all of these |
| `BmsRuns.BatteryFaultMirrorsExactlyOutsideFault` | ev_battery_hil/bms/src/BmsStateMachine.cpp:14-22 | the battery's fault field equals the machine's code exactly outside FAULT |
| `BmsRuns.OnlyResetLeavesFault` | ev_battery_hil/bms/src/BmsStateMachine.cpp:25-25 | without a reset a fault stays latched with its report and every physical quantity |
| `BmsRuns.FaultFreeIffEndsOutsideFault` | ev_battery_hil/bms/src/BmsStateMachine.cpp:24-82 | a reset-free run is fault-free exactly when it ends outside FAULT |
| `BmsRuns.TwoTicksSettle` | ev_battery_hil/bms/src/BmsStateMachine.cpp:65-80 | two fault-free ticks at one current land in its class |
| `BmsRuns.ActiveStateAnswersLastTick` | ev_battery_hil/bms/src/BmsStateMachine.cpp:65-93 | after any run from power-on an active state is the class of the current that the last tick found, and no reset has followed it |
| `BmsRuns.SwingPassesThroughIdle` | ev_battery_hil/bms/src/BmsStateMachine.cpp:65-93 | every run between DISCHARGING and CHARGING passes through IDLE |
| `BmsRuns.ChargeConservation` | ev_battery_hil/bms/src/BatteryModel.cpp:19-65 | over a fault-free run the charge drop is exactly ETA*DT/(3600*Q_NOM) times the sum of the tick currents |
| `BmsRuns.ClampRaisesFault` | ev_battery_hil/bms/src/BatteryModel.cpp:55-65 | a tick whose clamp changes the state of charge faults |
| `BmsRuns.JouleLedger` | ev_battery_hil/bms/src/BmsStateMachine.cpp:35-36 | between resets the accumulator is the sum of i^2*R0*DT over integrating ticks |
| `BmsRuns.EnergyBalance` | ev_battery_hil/bms/src/BatteryModel.cpp:21-53 | between resets stored heat grows by at most the heat released, exactly if cooling was blocked |
| `BmsHistory.TemperatureConvergesGeometrically` | ev_battery_hil/bms/src/BatteryModel.cpp:21-53 | at constant current with an open vent the distance of the temperature to 25 + 0.001*i^2 shrinks by exactly P^n |
| `BmsHistory.OpenVentLosesHeat` | ev_battery_hil/bms/src/BatteryModel.cpp:21-23 | with an open vent a cell above ambient stores strictly less heat than is released over any fault-free run that ticks |
| `BmsHistory.VentBlockedIff` | ev_battery_hil/bms/src/BmsStateMachine.cpp:84-93 | after any run the vent is blocked exactly if some blocking command has had no reset after it |
| `BmsHistory.LoadIsLastSet` | ev_battery_hil/bms/src/TelemetryServer.cpp:96-104 | after any run the load is the current last commanded, zero after a reset; neither tick nor fault changes it |
| `BmsHistory.WarnedIff` | ev_battery_hil/bms/src/BmsStateMachine.cpp:38-49 | the warning flag is up exactly if a tick since the last reset left the cell at 60 degrees or the accumulator at 875 J |
| `BmsHistory.FaultReportsItsTick` | ev_battery_hil/bms/src/BmsStateMachine.cpp:14-61 | every fault is entered by one tick since the last reset, and reports the load that tick found |
| `BmsHistory.ReportIsExplained` | ev_battery_hil/bms/src/BatteryModel.cpp:30-67 | the reported code is decided by the reported load, temperature and charge and the accumulator, in the order of the code |
| `BmsHistory.ResetKeepsPhysics` | ev_battery_hil/bms/src/BmsStateMachine.cpp:84-93 | a reset changes no physical quantity |
| `BmsHistory.ResetForgets` | ev_battery_hil/bms/src/BmsStateMachine.cpp:84-93 | two histories with equal physics that end in a reset run alike under every continuation |
| `BmsRuns.TemperatureCeiling` | ev_battery_hil/bms/src/BmsStateMachine.cpp:57-61 | after any history and a reset the cell heats by less than 1375.625/25000 degrees until the next reset |
| `BmsRuns.HeatAcrossResets` | ev_battery_hil/bms/src/BmsStateMachine.cpp:35-93 | over any run only resets let stored heat escape the accumulator, each less than 1375.625 J |
| `BmsRuns.WholeRunCeiling` | ev_battery_hil/bms/src/BmsStateMachine.cpp:35-93 | over any run from power-on the cell stays below 25 + 0.055025*(resets + 1) degrees |
| `BmsRuns.OvertemperatureMeansEnergy` | ev_battery_hil/bms/src/BatteryModel.cpp:63 | in runs of fewer than 999 resets OVERTEMPERATURE means the energy limit was reached |
| `BmsRuns.WarnedMeansEnergy` | ev_battery_hil/bms/src/BmsStateMachine.cpp:38-49 | in runs of fewer than 636 resets the warning flag means exactly that the energy warning level was reached |
| `BmsRuns.TickFaultsIff` | ev_battery_hil/bms/src/BmsStateMachine.cpp:24-61 | below 80 degrees a tick outside FAULT faults exactly if load, accumulator or charge oversteps a limit |
| `BmsRuns.StaysFaultFreeIff` | ev_battery_hil/bms/src/BmsStateMachine.cpp:24-93 | over any commands from power-on with fewer than 999 resets the daemon stays out of FAULT exactly if every tick is affordable by the commands alone |
| `BmsRuns.WarnedEightHundredTicksBefore` | ev_battery_hil/bms/src/BmsStateMachine.cpp:44-61 | a run that reaches the energy limit was warned 800 ticks before its end |
| `BmsRuns.EightHundredTicksIsTight` | ev_battery_hil/bms/src/BmsStateMachine.cpp:44-61 | at 250 A the warning is absent at tick 1399 and the fault present at tick 2200 |
| `BmsRuns.SustainedActivityFaults` | ev_battery_hil/bms/src/BmsStateMachine.cpp:25-61 | between resets 5,500,000 ticks at 5 A or more force a FAULT |
| `BmsRuns.ActivityBudgetIsTight` | ev_battery_hil/bms/src/BmsStateMachine.cpp:57-61 | 5,499,999 ticks at 5 A do not |
| `BmsRuns.RcConvergesGeometrically` | ev_battery_hil/bms/src/BatteryModel.cpp:20-52 | at constant current the RC distance to i*R1 shrinks by exactly P^n |
| `BmsRuns.TheveninSag` | ev_battery_hil/bms/src/BatteryModel.cpp:58-59 | after n ticks at constant current i the terminal voltage is 3.2 + 1.2*soc - 0.015*i less P^n times the initial RC distance |
| `BmsRuns.SteadyDischarge` | ev_battery_hil/bms/src/BmsStateMachine.cpp:33-61 | from any accumulator and charge, a steady discharge inside both budgets never faults; ledger and charge are exact |
| `BmsRuns.SteadyDischargeEnds` | ev_battery_hil/bms/src/BmsStateMachine.cpp:51-61 | the tick that oversteps a budget faults: UNDERVOLTAGE exactly if the charge ran out |
| `BmsRuns.DischargeEnd` | ev_battery_hil/bms/src/BmsStateMachine.cpp:51-61 | every steady discharge ends in a fault, and current, accumulator and charge at its start decide which |
| `BmsRuns.EmptiesIff` | ev_battery_hil/bms/src/BmsStateMachine.cpp:51-61 | a steady discharge ever reaches UNDERVOLTAGE exactly if the heat of the ticks its charge lasts stays below the energy limit |
| `BmsRuns.FullDischargeThreshold` | ev_battery_hil/bms/src/BmsStateMachine.cpp:51-61 | from power-on a current of up to 0.39 A empties the battery, one of 0.4 A or more never does |
| `BmsRuns.ThermalRunawayTimeline` | docs/ev-battery-hil.md:63 | at 50 A the warning comes with tick 35,000 and the fault with tick 55,000, vent blocked or not |
| `BmsRuns.CapacityTestStopsAlmostFull` | ev_battery_hil/orchestrator/sequences/capacity_test.yaml:1-6 | the 20 A capacity test ends in OVERTEMPERATURE with more than 98 % charge |
| `BmsRuns.ShippedSequencesFault` | ev_battery_hil/orchestrator/sequences/acceleration_pulse.yaml:1-10 | from power-on the first step of each of the four shipped sequences ends in FAULT, REGEN_BRAKING with OVERVOLTAGE and the others with OVERTEMPERATURE |
| `NanRuns.UnpoisonedRun` | ev_battery_hil/bms/src/BmsStateMachine.cpp:24-93 | a NaN load that is overwritten before a cycle outside FAULT finds it leaves no trace |
| `NanRuns.LossIsPermanent` | ev_battery_hil/bms/src/BatteryModel.cpp:51-56 | charge, RC voltage and temperature that are NaN stay NaN, across resets too |
| `NanRuns.LostIffPoisoned` | ev_battery_hil/bms/src/BatteryModel.cpp:30-56 | they become NaN exactly if some cycle outside FAULT finds a NaN load |
| `NanRuns.BoundedIffUnpoisoned` | ev_battery_hil/bms/src/BmsStateMachine.cpp:24-93 | from power-on all bounds hold exactly as long as that has not happened |
| `NanRuns.OneNanIsEnough` | ev_battery_hil/bms/src/BmsStateMachine.cpp:28-33 | one NaN command and one tick break them |
| `NanRuns.NothingButOvercurrent` | ev_battery_hil/bms/src/BmsStateMachine.cpp:38-61 | from a cycle that integrates a NaN load, itself fault-free, no warning and no fault but overcurrent can follow before a reset |
| `NanRuns.EnergyLimitReturnsWithReset` | ev_battery_hil/bms/src/BmsStateMachine.cpp:57-93 | a reset brings the energy limit back: 5,500,000 active cycles at numeric loads end in FAULT |
| `OrchestratorClient.Client.SendCommand` | ev_battery_hil/orchestrator/app/client.py:50-61 | appends the printed command and a newline when connected, nothing otherwise |
| `OrchestratorClient.EscapeAllPrintable` | ev_battery_hil/orchestrator/app/client.py:58 | a printed string literal is printable ASCII |
| `OrchestratorClient.EscapedShowsBackslash` | ev_battery_hil/orchestrator/app/client.py:58 | a literal that needed escaping shows a backslash before its first quote |
| `OrchestratorClient.ReadUndoesPrint` | ev_battery_hil/orchestrator/app/client.py:58 | a JSON reader undoes the printer on every string of Unicode scalar values: nothing is lost or merged |
| `TelemetryServer.Connection.HandleCommand` | ev_battery_hil/bms/src/TelemetryServer.cpp:74-106 | a command line has exactly the parsed effect on battery, machine and process |
| `TelemetryServer.Connection.ReceiveByte` | ev_battery_hil/bms/src/TelemetryServer.cpp:114-123 | a byte extends the line or, if a newline, executes and clears it |
| `TelemetryServer.Connection.PhysicsLoop` | ev_battery_hil/bms/src/main.cpp:29-41 | one physics iteration is one tick and leaves the connection alone |
| `TelemetryServer.AnyInputIsARun` | ev_battery_hil/bms/src/TelemetryServer.cpp:74-123 | whatever bytes arrive, interleaved with ticks, the daemon goes through exactly the run of the commands parsed from them |
| `TelemetryServer.SafeUnderAnyInput` | ev_battery_hil/bms/src/TelemetryServer.cpp:74-123 | whatever bytes arrive, the bounds hold exactly as long as no cycle outside FAULT has found a NaN load, so always if no command was read as NaN |
| `CommandWire.FindSpec` | ev_battery_hil/bms/src/TelemetryServer.cpp:78-88 | the search returns the first occurrence, or npos when there is none |
| `CommandWire.QuotedTextIsRead` | ev_battery_hil/bms/src/TelemetryServer.cpp:77-84 | in any line the string read is what stands between the first two quotes after the first occurrence of the key |
| `CommandWire.ReadTextIsQuoted` | ev_battery_hil/bms/src/TelemetryServer.cpp:77-84 | and any string read stands there |
| `CommandWire.NumberBehindColon` | ev_battery_hil/bms/src/TelemetryServer.cpp:85-91 | in any line the number is read from behind the first colon after the first occurrence of the key |
| `CommandWire.NoKeyIsZero` | ev_battery_hil/bms/src/TelemetryServer.cpp:87 | without the key it is zero |
| `CommandWire.NoColonIsZero` | ev_battery_hil/bms/src/TelemetryServer.cpp:89 | and without a colon behind it |
| `TelemetryServer.CStr` | ev_battery_hil/bms/src/TelemetryServer.cpp:118 | the line handed to the parser is the received text up to its first NUL |
| `CommandWire.LiteralIsKeyword` | ev_battery_hil/bms/src/TelemetryServer.cpp:93-104 | a parsed literal equals a keyword exactly when the printed string did |
| `CommandWire.NameIsRead` | ev_battery_hil/bms/src/TelemetryServer.cpp:77-93 | the parser reads back the printed command name up to its first quote |
| `CommandWire.CurrentIsRead` | ev_battery_hil/bms/src/TelemetryServer.cpp:85-98 | the value of a SET_CURRENT is what `std::stod` makes of the printed number, zero when absent, a throw for a string |
| `CommandWire.TextIsRead` | ev_battery_hil/bms/src/TelemetryServer.cpp:77-101 | the value of a SET_FAULT matches a keyword exactly when that string was sent |
| `CommandWire.ParseOfPrint` | ev_battery_hil/bms/src/TelemetryServer.cpp:74-106 | for every name and value the printed command parses to its effect, a number counting as what `std::stod` makes of it |
| `CommandWire.ParseUndoesPrint` | ev_battery_hil/bms/src/TelemetryServer.cpp:74-106 | it parses to exactly what was asked for, unless the number of a SET_CURRENT is misread |
| `CommandWire.ServerFollowsIntent` | ev_battery_hil/bms/src/TelemetryServer.cpp:108-124 | at every moment of a partial command stream interleaved with ticks the server has done what was intended |
| `CommandWire.BytesToEffect` | ev_battery_hil/orchestrator/app/client.py:54-59 | a whole stream leaves the daemon as running its commands, with an empty buffer; the process survives exactly if `std::stod` accepts the value of every SET_CURRENT |
| `Optimizer.FirstNearest` | fleet_routing_api/app/routing/optimizer.py:23-24 | the first index of least distance |
| `Optimizer.IndexOfMin` | fleet_routing_api/app/routing/optimizer.py:24 | the first index of the least element |
| `Optimizer.NearestNeighborRoute` | fleet_routing_api/app/routing/optimizer.py:13-27 | the popping loop computes the greedy route |
| `Optimizer.GreedyIsPermutation` | fleet_routing_api/app/routing/optimizer.py:19-27 | the route visits every waypoint exactly as often as requested |
| `Optimizer.GreedyLegsAreNearest` | fleet_routing_api/app/routing/optimizer.py:22-26 | each leg is no longer than the way to any stop still ahead |
| `RouteRatio.GreedyStopsSpread` | fleet_routing_api/app/routing/optimizer.py:22-26 | two stops of the route are at least as far apart as the shorter leg leaving them |
| `RouteRatio.LegSumIsRouteLength` | fleet_routing_api/app/routing/optimizer.py:34-38 | the legs add up to the unrounded total distance |
| `RouteRatio.HalvingPays` | fleet_routing_api/app/routing/optimizer.py:34-38 | dropping the shorter-legged of every two path neighbours costs at most one path length of legs |
| `RouteRatio.SurvivorsAreShorter` | fleet_routing_api/app/routing/optimizer.py:34-38 | dropping stops never lengthens a path |
| `RouteRatio.HalvingBound` | fleet_routing_api/app/routing/optimizer.py:34-38 | the legs of a spread path sum to at most one path length per halving plus the longest leg |
| `RouteRatio.RoundsIsCeilLog2` | fleet_routing_api/app/routing/optimizer.py:16 | the number of halvings is the ceiling of log2 |
| `RouteRatio.GreedyWithinLogOfEveryOrder` | fleet_routing_api/app/routing/optimizer.py:13-39 | over any metric the greedy route is at most ceil(log2(n+1)) + 1 times every ordering |
| `OrderIndependence.OrderIndependentIffTieFree` | fleet_routing_api/app/routing/optimizer.py:22-26 | the route ignores input order exactly when it meets no tie between differently located stops |
| `OrderIndependence.TieFreeIsSufficient` | fleet_routing_api/app/routing/optimizer.py:22-26 | a tie-free request is routed along the same coordinates from any ordering |
| `OrderIndependence.TieMatters` | fleet_routing_api/app/routing/optimizer.py:24 | with a tie some reordering of the same waypoints is routed differently |
| `OrderIndependence.NoEquidistantPairMeansTieFree` | fleet_routing_api/app/routing/optimizer.py:22-26 | a request without equidistant pairs is tie-free |
| `RouteCache.SortSorts` | fleet_routing_api/app/api/routes.py:23 | sorting orders lexicographically and keeps the multiset |
| `RouteCache.SameKey` | fleet_routing_api/app/api/routes.py:22-25 | two requests share a key exactly when depot and coordinate multiset agree |
| `RouteCache.RouteService.OptimiseRoute` | fleet_routing_api/app/api/routes.py:67-87 | hit, miss and outage answers, and the new store |
| `RouteCache.RouteService.Expire` | fleet_routing_api/app/api/routes.py:36 | an expiry removes one entry and nothing else |
| `RouteCache.CacheStaysSound` | fleet_routing_api/app/api/routes.py:73-86 | over any run every entry was computed for a request with its key |
| `RouteCache.HitsAreFresh` | fleet_routing_api/app/api/routes.py:73-87 | over any run a tie-free request gets the coordinates and distance a fresh computation gives |
| `RouteCache.TransparentIffTieFree` | fleet_routing_api/app/api/routes.py:73-87 | the cache is unnoticeable for a request exactly when it is tie-free |
| `RouteCache.FirstCallerWins` | fleet_routing_api/app/api/routes.py:74-76 | a hit returns the payload of the earlier caller with the same coordinates under whatever ids, ids and all |
| `RouteCache.PayloadChangesIffAnyWaypoint` | fleet_routing_api/app/api/routes.py:22-25 | some run makes the answer differ from a fresh one, ids included, exactly if the request holds a waypoint |
| `RouteCache.StoredIff` | fleet_routing_api/app/api/routes.py:33-36 | a key is in the cache exactly if some request with it has reached the cache since it last expired |
| `RouteCache.CachedIff` | fleet_routing_api/app/api/routes.py:73-87 | a response says `cached` exactly if the request reached the cache and the key was there |
| `RouteResponse.DistanceIsOfTheRoute` | fleet_routing_api/app/routing/optimizer.py:30-39 | over any run every response carries the rounded sum of the gaps along its own route, the leg from the depot included |
| `RouteResponse.ResponseWithinLog` | fleet_routing_api/app/api/routes.py:73-87 | unrounded and over any metric that distance is at most ceil(log2(n+1)) + 1 times every tour of the requested places |
| `RouteResponse.ResponseReachesEveryWaypoint` | fleet_routing_api/app/routing/optimizer.py:30-39 | and at least the way from the depot to any requested waypoint |
| `Forecaster.SlideWindow` | grid_load_forecasting/app/workers/forecaster.py:33 | sliding the window adds the new reading and drops the oldest |
| `Forecaster.ComputeSma` | grid_load_forecasting/app/workers/forecaster.py:24-35 | the O(n) running sum gives the mean of every full window and None before it |
| `Forecaster.SquaredComparison` | grid_load_forecasting/app/workers/forecaster.py:52-53 | the comparison on squares is the comparison of abs(r - sma) with 2*std |
| `Forecaster.ComputeAnomalies` | grid_load_forecasting/app/workers/forecaster.py:38-55 | flags, in order, exactly the readings beyond two deviations, with reading and squared z-score |
| `Forecaster.ZScoreBound` | grid_load_forecasting/app/workers/forecaster.py:45-54 | k*d^2 <= (k-1)(n-1)*variance for every reading with an average |
| `Forecaster.NothingFlagged` | grid_load_forecasting/app/workers/forecaster.py:45-54 | if (k-1)(n-1) <= 4k nothing is ever flagged |
| `Forecaster.SpikeAttainsBound` | grid_load_forecasting/app/workers/forecaster.py:45-54 | the z-score bound is attained |
| `Forecaster.FlagPossibleIff` | grid_load_forecasting/app/workers/forecaster.py:24-55 | some series of n readings raises a flag with window k exactly when (k-1)(n-1) > 4k |
| `Statistics.Samuelson` | grid_load_forecasting/app/workers/forecaster.py:52 | one deviation from a window mean is bounded by the window's squared deviations |
| `ForecastWorker.NodeForecast` | grid_load_forecasting/app/workers/forecaster.py:95-100 | reverse, average, last non-None value |
| `ForecastWorker.OfNodeFilters` | grid_load_forecasting/app/services/reading_service.py:53-56 | the query keeps every row of the node as often as it is stored, and no row of another |
| `ForecastWorker.ForecastIsMeanOfMostRecent` | grid_load_forecasting/app/services/reading_service.py:45-65 | for every limit of at least k the forecast is the mean of the k most recent readings, whenever the rest are strictly older |
| `ForecastWorker.MostRecentSplit` | grid_load_forecasting/app/services/reading_service.py:45-65 | k or more readings at distinct times split that way, so the forecast is that mean |
| `ForecastWorker.ForecastIgnoresLimit` | grid_load_forecasting/app/workers/forecaster.py:95-100 | with distinct timestamps no two limits of at least k give different forecasts |
| `ForecastWorker.ForecastExistsIff` | grid_load_forecasting/app/workers/forecaster.py:95-101 | there is a forecast exactly when the node has k readings |
| `DosingFsm.Controller.Update` | controller/src/DosingFsm.cpp:22-52 | one control cycle |
| `DosingFsm.Controller.Reset` | controller/src/DosingFsm.cpp:16-20 | reset returns to an empty IDLE |
| `DosingFsm.LedgerSinceReset` | controller/src/DosingFsm.cpp:26-37 | the accumulated volume is the sum of flow*dt/60 over DOSING cycles since the last reset |
| `DosingFsm.ReachableIsConsistent` | controller/src/DosingFsm.cpp:28-50 | IDLE is empty, DOSING and PAUSE are below target, COMPLETE has reached it |
| `DosingFsm.OvershootIsLastIncrement` | controller/src/DosingFsm.cpp:36-43 | a finished dose overshoots by less than the increment of the cycle that completed it |
| `DosingFsm.TagIsFixedWithinDose` | controller/src/DosingFsm.cpp:29-50 | the tag is fixed from the start of a dose to the next reset |
| `DosingFsm.DoseStartedIff` | controller/src/DosingFsm.cpp:26-33 | the machine is out of IDLE exactly if some cycle since the last reset brought a tag while the valve was open |
| `DosingFsm.TagIsFirstScanned` | controller/src/DosingFsm.cpp:27-33 | the recorded tag is the one of the first such cycle, found in IDLE |
| `DosingFsm.ValveDecides` | controller/src/DosingFsm.cpp:35-47 | an unfinished dose runs exactly if the last cycle's valve was open, else it pauses |
| `DosingFsm.DoseCompletes` | controller/src/DosingFsm.cpp:36-47 | with flow >= q and dt >= delta while dosing, n cycles with n*q*delta/60 >= target complete the dose |
| `ModbusServer.PackedValue` | controller/src/ModbusServer.cpp:51-55 | shift and or on two signed chars build exactly the word the model stores |
| `ModbusServer.UnpackedValue` | collector/modbus_reader.py:41-43 | the decoder's shift and mask give exactly the two bytes the model reads |
| `ModbusServer.SplitValue` | controller/src/ModbusServer.cpp:41-45 | shift and mask split the volume into exactly the halves the model stores |
| `ModbusServer.HalvesValue` | collector/modbus_reader.py:39 | shift and or rejoin two halves to the value the model reads |
| `ModbusServer.PairRoundTrip` | collector/modbus_reader.py:41-43 | the low byte survives, the high byte unless the low one is negative |
| `ModbusServer.HalvesRoundTrip` | collector/modbus_reader.py:39 | the volume halves rejoin exactly |
| `ModbusServer.FlowRoundTrip` | controller/src/ModbusServer.cpp:31-34 | the flow register loses less than a tenth and never rounds up |
| `ModbusServer.Server.SetFlow` | controller/src/ModbusServer.cpp:31-34 | stores register 0 and no other |
| `ModbusServer.Server.SetValve` | controller/src/ModbusServer.cpp:36-39 | stores register 1 and no other |
| `ModbusServer.Server.SetVolume` | controller/src/ModbusServer.cpp:41-45 | stores registers 2 and 3 and no other |
| `ModbusServer.Server.SetTag` | controller/src/ModbusServer.cpp:47-57 | the packing loop stores registers 4 to 11 and no other |
| `ModbusServer.Server.SetState` | controller/src/ModbusServer.cpp:59-62 | stores register 12 and no other |
| `ModbusServer.ParseRegisters` | collector/modbus_reader.py:25-55 | fails exactly on fewer than 13 registers, else decodes them |
| `ModbusServer.FittingTagSurvives` | collector/modbus_reader.py:40-44 | a fitting tag is decoded exactly |
| `ModbusServer.SurvivingTagFits` | collector/modbus_reader.py:40-44 | a tag that is decoded exactly fits |
| `ModbusServer.SnapshotDecodesLastSet` | collector/modbus_reader.py:37-45 | any snapshot in any history of setters shows every field as last set |
| `ControlLoop.Iterate` | controller/src/main.cpp:26-42 | one main-loop iteration drives the machine and publishes flow, valve, volume, tag and state |
| `ControlLoop.IterationIsVisible` | controller/src/main.cpp:38-42 | after an iteration the collector decodes the machine's state and volume |
| `ControlLoop.ReadFlow` | controller/src/FlowSensor.cpp:7-14 | a reading is never negative and is zero for a zero target |
| `ControlLoop.ClosedLoopNeverDoses` | plc_simulator/simulator.py:26-32 | daemon and PLC alone never leave IDLE, whatever tags are scanned |
| `ControlLoop.PlcOpensIff` | plc_simulator/simulator.py:26-32 | after an iteration the PLC opens the valve exactly if the machine was dosing, the noise left 5 ml/min and the dose is not complete |
| `Dispatch.DeviationEarnsAtMost` | renewables_portfolio_dispatch/app/optimizer/dispatch.py:54-57 | deviating from the forecast earns at most the dearest price times the imbalance |
| `Dispatch.FeasibleObjectiveBound` | renewables_portfolio_dispatch/app/optimizer/dispatch.py:51-71 | every feasible objective is at most forecast revenue plus max(0, max price - penalty) times the tolerance |
| `Dispatch.FeasiblePortfolio` | renewables_portfolio_dispatch/app/optimizer/dispatch.py:49-68 | every feasible total lies between zero and the summed capacities and moves by at most 60 times the summed ramp rates, up or down |
| `Dispatch.OutOfReachIsInfeasible` | renewables_portfolio_dispatch/app/optimizer/dispatch.py:60-80 | a forecast total outside either by more than the tolerance makes the problem infeasible |
| `Dispatch.SingleAssetFeasibleIff` | renewables_portfolio_dispatch/app/optimizer/dispatch.py:60-80 | one asset that must follow its forecast is feasible exactly if the forecast keeps to its capacity and to its ramp both ways |
| `Dispatch.ForecastIsFeasible` | renewables_portfolio_dispatch/app/optimizer/dispatch.py:60-71 | a forecast inside the limits is feasible and earns its revenue |
| `Dispatch.ForecastIsOptimal` | renewables_portfolio_dispatch/app/optimizer/dispatch.py:51-71 | if no price exceeds the penalty, scheduling it is optimal |
| `Dispatch.OptimaAreBalanced` | renewables_portfolio_dispatch/app/optimizer/dispatch.py:51-71 | if every price is below the penalty, every optimum has zero imbalance |
| `Dispatch.BoundIsAttained` | renewables_portfolio_dispatch/app/optimizer/dispatch.py:51-71 | for any number of assets and intervals, moving one forecast entry at the dearest interval by the whole tolerance, where the limits allow it, is optimal and earns exactly the bound |
| `Features.RmsDecomposes` | slm_sensor_analytics/app/services/features.py:13-15 | rms^2 = mean^2 + std^2 with population std, so abs(mean) <= rms |
| `Features.RangeBoundsDeviation` | slm_sensor_analytics/app/services/features.py:14-16 | std^2 <= range^2/4 |
| `Features.DeviationBoundsRange` | slm_sensor_analytics/app/services/features.py:14-16 | range^2 <= 2*n*std^2 |
| `Features.DocumentedDeviationIff` | slm_sensor_analytics/app/services/features.py:14 | the population variance never exceeds the documented one with n - 1, and equals it exactly if all values are equal |
| `Features.DocumentedDeviationFails` | docs/slm-sensor-analytics.md:48 | for the window 0, 2 the code gives 1 and the documented formula 2 |

## Left out

- Floating-point rounding and signed zero: reals throughout; the final rounding of route distances is a parameter, the three-decimal rounding of z-scores is dropped.
- NaN and infinities: NaN is modelled in the battery daemon only; an infinite current is represented by any number of its sign beyond 250 A, which the overcurrent guard treats alike.
- Haversine: a parameter, with metric laws where a result needs them; only coordinates, not trigonometry, are modelled.
- The text of `fault_detail`: its fields are modelled, its formatting is not.
- Number formatting and `std::stod`: parameters; a printed number is printable without quotes, and a string literal is not read as a number. JSON string escapes are modelled in full, for strings of Unicode scalar values (no lone surrogates).
- Sockets, threads, reconnects and telemetry frames: each locked region, byte and tick is one atomic step; the unlocked accumulator race in `BmsStateMachine.h` is not modelled.
- SHA-256: taken as injective, so a cache key is what is digested; time to live is an expiry at any moment.
- The database: a query answer is any one that meets its ordering and limit; offsets, time filters and node summaries are not modelled.
- OSQP, forecasting models, isolation forest and kurtosis: an optimum is any feasible schedule that no feasible one beats.
- Numeric conversions outside their defined range (a flow of 6553.6 ml/min or more, a volume of 2^32 ml or more): excluded by precondition, as the language leaves them undefined.
- Char signedness: the packing of tag bytes is modelled for a signed char, as on x86.
- Python's `ValueError` text for short register arrays and short windows: the failure is modelled, not its full wording.
- Fahrplan storage, re-optimisation, authentication, migrations, REST validation and plotting: plumbing around the modelled code.

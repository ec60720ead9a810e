# Verified model of the field controller

A Dafny model of the controller that runs a robot practice field, with proofs of what its
parts promise one another. Code that only computes is modelled by functions; code that works
in place is modelled by classes and loops, proved equal to those functions; and the
properties are lemmas about the functions, over every input, every run or every
interleaving. `dafny verify dfyconfig.toml` checks everything.

## How it is laid out

- **Wired network.** `TeamNetwork` (team subnets), `SwitchDevice` (the switch as an
  interpreter of the configuration lines it receives), `TeamSwitch` (what one call sends and
  believes), `TeamSwitchProofs` and `SwitchPorts` (whole runs with sessions cut anywhere),
  `SwitchController` (the controller's code), `EthernetConfig` (background goroutines that
  supersede one another, in every interleaving).
- **Field e-stop.** `FieldEStop` (decoding, the discrepancy filter, the latch, and the panel
  object), `FieldEStopProofs` (every history of readings).
- **Match.** `MatchTiming`, `ArenaState` (the state machine: one function per operation and
  `Step` over events), `ArenaSafety`, `ArenaStops`, `ArenaPeriods`, `ArenaLineup`,
  `ArenaTiming`, `ArenaStart` and `ArenaLinks` (properties of every run), `ArenaEffects` (what
  commands bring about), `ArenaController` (the arena's code, and that it runs
  as the state machine does), `ArenaPackets` and `ArenaLights` (what reaches driver stations and
  lights).
- **HUB lights.** `HubShifts` (the two shift computations and the teleop lamps), `LedLayout`
  (admission and rendering), `LedOutput` (send-on-change), `LedController` (the code).
- **Driver stations and browsers.** `StatusTags` (the UDP tag scan), `DriverStation` (control
  packets and game data), `Handshake`, `Notifier`.

`Options` and `MapOrder` are small shared helpers.

## How to read the models

- **Runs.** A run of the arena is a sequence of states and events that starts in a new
  controller. An event is a 10 ms update, an operator's command, a driver station
  connecting, being heard or leaving, or one of the two steps of the network request made when
  the controller starts; it has an instant at which it begins and one at which it ends, and
  events do not overlap. An update reads the clock when it starts and again when it polls the
  stops, after its packets have gone out. Instants are nanoseconds, and period lengths are at
  least zero. `ArenaController.Controller.Operate` proves that the code's calls are such a run.
- **The switch.** The model of the device refuses an interface address that another
  interface's subnet contains, and an address with an octet above 255, and tells nobody. A
  team number above 25599 therefore has no subnet the switch can take;
  `TeamNetwork.AddressableTeams` says so exactly. Team numbers are positive, as registration
  demands (web/setup_teams.go:58).
- **Failures.** A Telnet session is delivered in full, or is cut after any number of lines
  with an error. A session whose reply times out counts as delivered. Writing to a driver
  station or to the LED receiver may fail in any update, and so may a driver station's reply or its
  socket when it connects.
- **Panels and PLC.** Their inputs are arbitrary in every update, so several of them may
  report on the same station and contradict one another.
- **Channels and maps.** Where the code ranges over a map, the model takes the keys in an
  unspecified order.

## Where the code and its comments disagree

The comment above `applyBaseline` (network/switch.go:405-408) says that saving there, and only
there, keeps team VLANs out of the saved configuration. The baseline is applied again on every
full reconciliation, and one follows every failed session (network/switch.go:181-185,
473-477), with the teams of the moment on the switch. `TeamSwitchProofs.SavedTeamsAfterFailure`
shows what is saved then, and `TeamSwitchProofs.SavedIsTeamFreeExactlyWhen` when the promise is
kept.

Other limits of the code that the proofs bring out, each with the exact condition:

- The lineup of the startup request is read when the arena's loop is launched and numbered
  later, in a goroutine of its own (field/arena.go:847), while the web server is already
  serving (main.go:238-241). If a team is registered in between, the stale lineup is the newest
  request, and the switch ends up with it. The switch carries the current match if and only if
  the startup request is not the newest or asked for the same teams
  (`ArenaLineup.SwitchCarriesCurrentMatch`, `ArenaLineup.OvertakenStartupWins`).
- The switch refuses an interface address another interface has, and the controller is not told.
  A success leaves the switch carrying its teams if and only if no two stations are given the
  same team with a usable subnet and no station is kept that was refused its subnet when it was
  last rebuilt (`TeamSwitchProofs.SuccessCarriesExactlyWhen`): a team once named twice stays
  without its subnet under a later lineup of distinct teams
  (`TeamSwitchProofs.DuplicateOutlivesDistinctLineup`). The arena only ever asks for distinct
  ones (`ArenaLineup.RequestsAreDistinct`).
- A port cycle leaves a selected port that was up down if and only if the reopening session is
  cut before it gets past that port's lines, or the shutting session is cut after it has, in
  which case reopening is not attempted (`SwitchPorts.PortAfterCycle`). A port left down stays down until
  the next full reconciliation (`SwitchPorts.SyncedConfigurationKeepsPorts`,
  `SwitchPorts.ReconciliationRestoresPorts`).
- `SetLayout` bounds neither the number of fixtures nor the universe number. An admitted layout
  makes rendering read past the pixels if and only if an alliance has more than eight fixtures
  (`LedLayout.AdmittedLayoutRenders`), and shows every picture if and only if no two of its
  universes agree in the sixteen bits the packet holds (`LedOutput.ShowsExactlyWhenWireDistinct`).
- A universe whose write failed is marked sent, so it is not sent again until its frame changes or a
  second has passed. An update leaves a universe it goes through showing the new frame if and only
  if it sends it or what was last sent of it arrived (`LedOutput.ShownExactlyWhen`).
- The two alliances' HUBs are active for the same time if and only if there are no alliance shifts
  or teleop ends before the first of them, with the second, or not before the end of the fourth
  (`HubShifts.EqualActiveTimeExactlyWhen`). In a teleop of 50 s the loser of AUTO has its HUB for
  55 s and the winner for 45 s (`HubShifts.UnequalActiveTime`).
- The lighting drivers count shifts back from the end of teleop and the HUBs forward from its
  start. They agree if and only if the stored teleop length is the sum of its shifts, but for
  teleops of at most one shift (`HubShifts.LightsAgreeExactlyWhenShiftsAddUp`), so not in a
  practice teleop of 60 s. `HubShifts.DriversFollowExactlyWhen` says when the lamps follow the HUBs.
- The warning ahead of a HUB handover has fixed windows. With the standard shifts they precede the
  handovers, and nothing else, if and only if teleop is the standard 140 s or over before the first
  handover (`HubShifts.WarningPrecedesHandovers`, `HubShifts.StandardWarnings`); in a teleop of 60 s
  the only warning precedes nothing (`HubShifts.FalseWarning`).
- A HUB's pulse is a true warning of darkness, and none is missing, only for the lengths
  `HubShifts.PulsesWarnExactlyWhen` gives; a teleop that ends in the transition or the fourth
  alliance shift makes a HUB dark that did not pulse.
- New and legacy driver stations read the same game data if and only if it has at most eight
  bytes (`DriverStation.DeliveriesAgreeExactly`).

## Model

| member | source | states |
|---|---|---|
| TeamNetwork.TeamSubnetsNeverCollide | network/team_network.go:54-58 | Two teams share a subnet only if they are the same team, and no team gets the field's own. |
| TeamNetwork.SubnetSpellsTeam | network/team_network.go:54-58 | A team's subnet is its number as it is spoken, hundreds in the second octet and the rest in the third: team 841 gets 10.8.41. |
| TeamNetwork.AddressableTeams | network/team_network.go:54-58 | Exactly the teams up to 25599 have a subnet that is an IP address. |
| TeamNetwork.ComputeTeamIds | network/team_network.go:16-26 | The loop yields the team number per station, 0 where there is none. |
| TeamSwitchProofs.ConfigureEffect | network/switch.go:153-271 | One configuration, cut anywhere or complete: the controller's belief still holds, no command clashes, and on success the switch carries the requested teams. |
| TeamSwitchProofs.SyncedMeansConfigured | network/switch.go:104-112 | Over any run with any sessions failing, `synced` means every station VLAN holds exactly the address and pool of `applied`, its static ranges kept out of the leases. |
| TeamSwitchProofs.SuccessMeansFreshBuild | network/switch.go:153-271 | After any run, a configuration that returns no error leaves all six VLANs as a fresh build for the requested teams would. |
| TeamSwitchProofs.SuccessServesTeams | network/switch.go:219-261 | After any run, a configuration that returns no error leaves each station's VLAN with its gateway at host 4 of the subnet that spells its team's number, and with leases of seven days there outside .1 to .19 and .200 to .254; and an empty station's VLAN blank. |
| TeamSwitchProofs.StatusTells | network/switch.go:153-271 | The status tells a missing switch, a success and a failure apart, and a failure leaves the belief unsynced. |
| TeamSwitchProofs.NoCommandClashes | network/switch.go:187-261 | After any run, no command sent gives a VLAN a subnet another station VLAN holds at that moment, or the management subnet, swaps and rebuilds included. |
| TeamSwitchProofs.UnchangedStationsUndisturbed | network/switch.go:187-204 | Once synced, the VLAN of a station that keeps its team is the same after every single command of a configuration, complete or cut. |
| TeamSwitchProofs.ConfigureServes | network/switch.go:153-271 | One configuration of any teams, duplicates included, from any past: on success each VLAN is as built for its team, with an interface address exactly at the stations whose subnet no other station had. |
| TeamSwitchProofs.BeliefRightExactlyWhenServed | network/switch.go:267-270 | After any run of any lineups and failures, a synced controller's belief is right if and only if every station got its subnet when it was last rebuilt, as told from the lineups asked for. |
| TeamSwitchProofs.SuccessCarriesExactlyWhen | network/switch.go:153-271 | After any run, a configuration without an error leaves the switch carrying its teams if and only if it names no team with a usable subnet twice and every station it keeps got its subnet. |
| TeamSwitchProofs.RefusedStationStays | network/switch.go:187-190 | A station named after another with the same team stays without its subnet as long as it keeps that team. |
| TeamSwitchProofs.DuplicateOutlivesDistinctLineup | network/switch.go:187-190 | Two successful configurations, the second of distinct teams, that leave a team without its subnet. |
| TeamSwitchProofs.ReconciliationSavesOldTeams | network/switch.go:409-418 | A full reconciliation whose save arrives saves the team VLANs the switch held when it began; any other leaves the saved copy alone. |
| TeamSwitchProofs.SavedTeamsAfterFailure | network/switch.go:181-185 | A reconciliation that follows a failed configuration saves every team the failed call was to keep, and all teams if its first session never got through. |
| TeamSwitchProofs.SavedByLastSave | network/switch.go:409-418 | After any run the saved copy of a VLAN is what the switch held before the last call that saved, or what was saved at startup. |
| TeamSwitchProofs.SavedIsTeamFreeExactlyWhen | network/switch.go:405-408 | After any run the saved configuration is free of team VLANs if and only if the switch was when the last save arrived, or, with none, the saved copy was at startup. |
| TeamSwitchProofs.CycleEffect | network/switch.go:434-458 | Cycling ports changes no station VLAN and none of the controller's beliefs. |
| SwitchPorts.CycleReopensEveryPort | network/switch.go:434-458 | A cycle without an error leaves every selected port up and every other port as it was. |
| SwitchPorts.PortAfterCycle | network/switch.go:434-471 | Wherever either session is cut, a selected port is up afterwards if and only if the reopening session got past its two lines, or the shutting session failed before getting past them and it was up; nothing else of any port changes. |
| SwitchPorts.CycleReopensExactlyWhen | network/switch.go:442-458 | Every selected port is up after a cycle if and only if all lines of the reopening session arrived, or the shutting session failed before its second line and every port was up. |
| SwitchPorts.FailedReopenLeavesPortsDown | network/switch.go:451-455 | A cycle whose second session fails at once leaves every selected port down. |
| SwitchPorts.FailedShutLeavesPortsDown | network/switch.go:446-448 | A cycle of the first port whose first session fails after its second line leaves that port down, since the ports are then not reopened. |
| SwitchPorts.SyncedConfigurationKeepsPorts | network/switch.go:153-271 | While synced, no configuration touches a port. |
| SwitchPorts.ReconciliationRestoresPorts | network/switch.go:181-185 | A successful full reconciliation puts every station port up in its own VLAN, whatever state it was in. |
| SwitchPorts.ReconciliationSetsOtherPorts | network/switch.go:380-403 | It also leaves the two trunk ports up with all of the field's VLANs, and the DMX port up in the field's own. |
| SwitchController.Switch.constructor | network/switch.go:126-136 | A new controller knows nothing of the switch, which may hold anything. |
| SwitchController.Switch.ConfigureTeamEthernet | network/switch.go:153-271 | The code sends the lines and ends in the state the specification gives, and reports success exactly then. |
| SwitchController.Switch.ApplyBaseline | network/switch.go:409-418 | Baseline and save are two sessions, the second only after the first got through. |
| SwitchController.Switch.RebuildTeamVlans | network/switch.go:187-261 | All removals go out in one session before any addition in the next. |
| SwitchController.Switch.Fail | network/switch.go:473-477 | A failure makes the switch's state unknown and shows an error. |
| SwitchController.Switch.CycleStationPorts | network/switch.go:434-458 | The code cycles ports as specified and tells the failures apart. |
| EthernetConfig.ApplicationsNeverOverlap | field/arena.go:1097-1113 | In every interleaving at most one goroutine applies a configuration at a time. |
| EthernetConfig.ApplicationsInOrder | field/arena.go:1087-1114 | In every interleaving, applications happen in strictly increasing order of request. |
| EthernetConfig.QuietFieldCarriesNewestLineup | field/arena.go:1087-1114 | Once no goroutine is pending, the last application was the newest request's, and if it succeeded the switch carries that lineup, whatever failed or was superseded before. |
| EthernetConfig.InterleavingIsARun | field/arena.go:1087-1114 | Every interleaving of goroutines and port cycles leaves the switch as one run of calls, made one after another with distinct teams; the results about runs of calls hold of every interleaving. |
| EthernetConfig.NoInterleavingClashes | field/arena.go:1097-1113 | In every interleaving, no line a goroutine then sends gives a station VLAN a subnet another one holds at that moment, or the field's own. |
| EthernetConfig.GoroutinesMakeProgress | field/arena.go:1097-1113 | Every step of a goroutine brings the field closer to quiet. |
| EthernetConfig.NeverStuck | field/arena.go:1097-1113 | Unless the field is quiet, some goroutine can take a step: the two locks never deadlock. |
| EthernetConfig.QuietWithinOutstanding | field/arena.go:1097-1113 | Without a new request, goroutines take no more steps than are outstanding, however they interleave, fail or are interrupted by port cycles. |
| EthernetConfig.EveryFieldCanBecomeQuiet | field/arena.go:1097-1113 | After any interleaving the goroutines can all finish, in at most the outstanding number of steps and with no new request. |
| FieldEStop.OkMeansReleased | hardware/gpio_estop.go:108-128 | A reading is reported OK if and only if the wires prove the button released: the filter never hides a stop. |
| FieldEStop.ReadReports | hardware/gpio_estop.go:108-128 | What every reading reports, told from the wires: released, pressed, unreadable, or channels that disagree, which count as pressed until the window is over and then as the fault they show. |
| FieldEStop.ClosedReadsFault | hardware/gpio_estop.go:84-101 | A closed panel reads as a fault whatever its lines would say, and keeps its latch. |
| FieldEStop.GpioFieldEStopPanel.UpdateFilter | hardware/interfaces.go:194-206 | The in-place filter computes the specified report and start of disagreement. |
| FieldEStop.GpioFieldEStopPanel.ReadPins | hardware/gpio_estop.go:108-128 | A read changes nothing but the filter and reports as specified, a closed or unreadable line as a fault. |
| FieldEStop.GpioFieldEStopPanel.State | hardware/gpio_estop.go:50-59 | A poll reads, escalates the latch if it must, and returns the latch. |
| FieldEStop.GpioFieldEStopPanel.ClearLatch | hardware/gpio_estop.go:64-71 | Clearing resets the latch only on a healthy, released reading. |
| FieldEStop.GpioFieldEStopPanel.CloseLines | hardware/gpio_estop.go:84-101 | Closing releases both lines and keeps the latch. |
| FieldEStopProofs.SinceMeaning | hardware/interfaces.go:187-206 | Over any history the filter's clock started at the earliest disagreement since which the channels have not been seen to agree. |
| FieldEStopProofs.FaultMeansSustained | hardware/interfaces.go:194-206 | A fault is reported if and only if a line is unreadable or closed, or a disagreement has lasted the whole window. |
| FieldEStopProofs.LatchMeaning | hardware/gpio_estop.go:45-71 | The latch is the worst state reported since the last effective clear: nothing worse was reported, and it was itself reported. |
| ArenaState.ValidLineup | field/arena.go:877-897 | Validation finds no error if and only if every team named is in the table and none is named twice. |
| ArenaSafety.MatchInvariantHolds | field/arena.go:653-771 | Over every run: game data exists exactly in teleop and names the AUTO winner, who is decided, and as forced, from AUTO on; while the field e-stop is active no match is in progress and the panel is latched. |
| ArenaSafety.EnabledExactlyWhen | field/arena.go:1174-1190 | A packet has the enable bit if and only if the period just entered is AUTO or teleop and the station has no e-stop, no bypass and, in AUTO, no a-stop. |
| ArenaSafety.FieldEStopStopsTheField | field/arena.go:775-788 | Once an update has seen wires that do not prove the button released, no match is in progress at its end or later, none starts, and no packet enables a robot, until an operator clears it with the button released. |
| ArenaSafety.FieldPollEffect | field/arena.go:775-788 | What one poll of the field e-stop changes: an active stop stays, a new one e-stops all stations and ends the match. |
| ArenaSafety.OtherPollsKeep | field/arena.go:790-806 | Panels and PLC change only stop flags of stations, keep latched stops, and at most abort the match. |
| ArenaSafety.ClearNeedsRelease | field/arena.go:626-639 | The field e-stop cannot be cleared while the wires do not prove it released. |
| ArenaEffects.ClearEndsFieldEStop | field/arena.go:626-639 | In any run a clear ends the field e-stop, and with it every station's e-stop, if and only if both readings find the button released. |
| ArenaSafety.StoppedRobotStaysDisabled | field/arena.go:1270-1278 | While the match runs, no reading of any input clears a station's e-stop; unless an operator does, every packet to it disables the robot. |
| ArenaSafety.AutoStoppedRobotStaysDisabled | field/arena.go:1280-1289 | An a-stop lasts to the end of AUTO against every reading and every command, and no packet sent in AUTO enables the robot. |
| ArenaSafety.RefusedMidMatch | field/arena.go:1117-1120 | While a match is in progress, starting, resetting, clearing, resetting the field and changing the winner mode do nothing. |
| ArenaSafety.CommandMidMatch | field/arena.go:456-508 | During a match a command can end it or change teams, connections, bypasses and e-stops, but no a-stop, no clock and no AUTO winner. |
| ArenaSafety.WinnerFixedThroughMatch | field/arena.go:1523-1536 | From the start of AUTO to the end of teleop the winner and its mode do not change, and the game data of teleop is theirs. |
| ArenaSafety.ClearAt | field/arena.go:562-608 | Clearing a match assigns each station its own team again and restores its bypass. |
| ArenaEffects.StartBegins | field/arena.go:420-453 | A start that nothing speaks against begins a match and changes nothing else; any other changes nothing. |
| ArenaEffects.AbortEnds | field/arena.go:463-478 | An abort ends any match in progress at that instant, and outside one does nothing. |
| ArenaEffects.ResetGoesBack | field/arena.go:481-497 | A reset outside a match goes back before one, without bypasses, and keeps the lineup. |
| ArenaEffects.ResetFieldEmpties | field/arena.go:518-559 | A field reset outside a match leaves every station without team, connection, stop or bypass, and asks the network for an empty lineup. |
| ArenaEffects.SwitchesAct | field/arena.go:947-959 | The toggles change their station's flag, every empty station is bypassed on request, and the winner mode is set outside a match. |
| ArenaEffects.WinnerChosen | field/arena.go:1523-1536 | When AUTO begins the winner is the forced alliance, or either by the coin. |
| ArenaEffects.AssignmentActs | field/arena.go:900-935 | An assignment gives the station its team with the key of the table, keeps the connection of that same team and no other, and asks for the a-stop to be read as released again if there is a PLC. |
| ArenaEffects.OnlyClearsCyclePorts | field/arena.go:1062-1085 | Ports are handed over to be cycled when a match is cleared and only then, those of the occupied stations, if there are any. |
| ArenaEffects.RegisteredTeamsConnect | field/driver_station_connection.go:398-458 | In any run a registered team whose driver station is answered gets a connection of its own at its station, not yet linked; nothing else changes there. |
| ArenaEffects.ReportsCount | field/driver_station_connection.go:159-178 | In any run a report of a team's driver station sets link and time of its station's connection, and no other's. |
| ArenaEffects.TeardownFrees | field/driver_station_connection.go:533-543 | The teardown of the connection at a station frees the station; any other does nothing. |
| ArenaStops.PressActs | field/arena.go:1295-1313 | What a pressed stop does to its station and, if an e-stop was not in force there before, to the match in progress. |
| ArenaStops.ReleaseActs | field/arena.go:1270-1289 | What any other reading does: it takes a stop back, but no e-stop of a running match and no a-stop of AUTO, and lets the a-stop count as reset. |
| ArenaStops.PressedEStopActs | field/arena.go:790-806 | An update that sees a station's e-stop pressed, at a panel or the PLC, leaves it in force whatever other inputs read: the station is e-stopped or the match over. |
| ArenaStops.PressedAStopActs | field/arena.go:1280-1289 | An update in AUTO that sees an a-stop pressed leaves it in force, whatever other inputs read. |
| ArenaStops.PressedEStopReachesRobotInTime | field/arena.go:763-806 | From an update that has seen a team's e-stop pressed, unless a match is started or an operator takes the stop back, the robot is sent a disabling packet within 500 ms + d. |
| ArenaStops.PressedAStopReachesRobotInTime | field/arena.go:763-806 | From an update in AUTO that has seen an a-stop pressed, unless another match is started, the robot is sent within 500 ms + d a packet that does not enable it or announces teleop. |
| ArenaStops.PlcFieldStopEndsMatch | field/arena.go:1205-1220 | In any run an update that sees the PLC's field stop leaves no match in progress. |
| ArenaPeriods.PeriodLasts | field/arena.go:683-738 | A transition leaves a period if and only if the lengths of the periods up to its end have passed since the match start, and then for the one that follows. |
| ArenaPeriods.MatchBegins | field/arena.go:666-682 | The transition after a start begins the warmup, or AUTO where there is none, and the match clock. |
| ArenaPeriods.PeriodBegan | field/arena.go:661-738 | In any run the period of the moment began with an update at or after its scheduled start, and no update since was late enough to end it. |
| ArenaPeriods.MatchPlayedInFull | field/arena.go:661-738 | In any run a match that ends without an abort was in AUTO and in teleop for every update up to the first at or after their scheduled ends. |
| ArenaPeriods.PostMatchLasts | field/arena.go:739-755 | In any run the field stays in PostMatch until an operator clears or resets it, or five seconds have passed since the match ended. |
| ArenaPeriods.PacketSays | field/arena.go:1174-1190 | Every packet announces AUTO up to the end of AUTO and teleop after it, one with the enable bit exactly the period just entered, and carries its station's stops. |
| ArenaPeriods.PacketsGoOut | field/arena.go:763-771 | Packets go out with every change to AUTO, pause, teleop or the end of the match, and otherwise once 500 ms have passed since the last, to every station with a driver station. |
| ArenaStart.StartsExactlyWhenReady | field/arena.go:1117-1172 | A match starts if and only if it is before a match, the field e-stop is neither faulted nor active, the PLC agrees, and every station has no fault, no e-stop, a reset a-stop, and a linked robot or a bypass. |
| ArenaEffects.NewArenaIsEmpty | field/arena.go:133-175 | A new arena is before a match, with empty stations that nothing stops; with a PLC the a-stops have yet to be read as released. |
| ArenaEffects.PacketLeavesLink | field/driver_station_connection.go:183-200 | Once its packet is written a robot stays linked only if its driver station was heard in the last second; the connection shows what the packet says. |
| ArenaEffects.FaultsRefuseStart | field/arena.go:1122-1124 | In any run no match starts while the field e-stop's panel has a wiring fault latched. |
| ArenaEffects.StartReason | field/arena.go:1117-1150 | The reason given against a start is the first that holds in the code's order. |
| ArenaEffects.FirstUnready | field/arena.go:1152-1172 | The station reported as not ready is the first that is not. |
| ArenaEffects.FirstBadTeam | field/arena.go:877-897 | A lineup is refused for the first station that repeats a team or names an unknown one. |
| ArenaStart.StepResets | field/arena.go:1280-1289 | An a-stop that counts as reset after an event was read as released in it, or was reset before and the event assigned no teams. |
| ArenaStart.StartProvesAStopsReset | field/arena.go:906-907 | With a PLC, a match starts only after every station's a-stop has been read as released since the teams were last assigned. |
| ArenaLineup.LineupHolds | field/arena.go:900-935 | Over every run a connection exists only beside a team of its own number, stations mirror the current match, whose teams are distinct, and the newest lineup requested under the arena's lock is the one on the field. |
| ArenaLineup.StationLookupIsUnique | field/arena.go:1194-1202 | Looking up a team finds a station if and only if the team is registered there, so there is at most one answer. |
| ArenaLineup.ClearKeepsTheField | field/arena.go:562-608 | Clearing a match keeps the lineup, every connection, every bypass and every stop, and leaves the field in PreMatch without game data. |
| ArenaLineup.ConnectionOutlivesStaleTeardown | field/driver_station_connection.go:533-543 | While its team keeps the station, a connection ends only by its own teardown or the team's next connection; no other teardown, no refused connection and no match event removes it. |
| ArenaLineup.RequestsAreDistinct | field/arena.go:1026-1039 | Every lineup sent to the network, the one of the controller's start included, satisfies what the supersede protocol demands of a request. |
| ArenaLineup.SwitchCarriesCurrentMatch | field/arena.go:1087-1114 | Once the goroutines of all requests are done and the last application succeeded, the switch carries exactly the teams of the current match, if and only if the startup request is not the newest of them or asked for teams the switch cannot tell from these. |
| ArenaLineup.OvertakenStartupWins | field/arena.go:847 | A run in which a team is registered before the startup request is numbered: every goroutine finishes without a failure and the switch does not carry the team on the field. |
| ArenaLineup.SubstitutionAcceptedExactlyWhen | field/arena.go:374-417 | A substitution is accepted if and only if it is not a qualification match, every team is known and none is repeated; then the lineup is the one asked for. |
| ArenaTiming.StopReachesRobotInTime | field/arena.go:763-771 | With updates at most d apart, within 500 ms + d of any instant an update sends every connected station a packet that shows its stops as they then are. |
| ArenaTiming.StopInForceReachesRobotInTime | field/arena.go:763-771 | From any instant at which a station is e-stopped or no match is in progress, unless a match is started or an operator takes the stop back, and if the clock moves in every event, its driver station is sent a packet that disables the robot within 500 ms + d, whatever panels and PLC read. |
| ArenaTiming.StepKeepsBypass | field/arena.go:562-608 | Nothing lifts a station's bypass but its own toggle, a reset and a field reset: no update, no clear after a match, no other team. |
| ArenaTiming.BypassReachesRobotInTime | field/arena.go:763-771 | From any instant at which a station is bypassed, unless an operator lifts the bypass, its driver station is sent a packet that disables the robot within 500 ms + d, whatever match starts or ends. |
| ArenaTiming.AutoStopReachesRobotInTime | field/arena.go:1280-1289 | From any instant of AUTO at which a station is a-stopped, unless another match is started, its driver station is sent within 500 ms + d a packet that does not enable the robot or announces teleop. |
| ArenaTiming.EveryMatchReturnsToPreMatch | field/arena.go:661-761 | Every match that starts, aborted or not, is back in PreMatch within its scheduled length plus 5 s and six update gaps. |
| ArenaTiming.UpdateOnSchedule | field/arena.go:661-761 | One update keeps a match on schedule: each phase ends at most one update gap later than its own length. |
| ArenaLinks.StepLink | field/driver_station_connection.go:184-200 | One event keeps a link only with the packet last heard over it, drops it when packets go out after a second of silence and could be written, and makes one only on the report of the team's own driver station. |
| ArenaLinks.LinkWasReported | field/driver_station_connection.go:159-170 | In any run a robot counts as linked only because its own driver station reported it so, in the packet last heard from it. |
| ArenaLinks.RecentlySent | field/arena.go:763-771 | With updates at most d apart, packets go out at most 500 ms + d apart. |
| ArenaLinks.StartNeedsFreshLinks | field/arena.go:1163-1168 | With updates at most d apart and no failed write to the station since packets were last sent, a match starts only if its robot, unless bypassed, was reported linked by its own driver station within the last 1.5 s + d. |
| ArenaController.Controller.constructor | field/arena.go:133-175 | A new arena is an empty test match before its start. |
| ArenaController.Controller.Update | field/arena.go:653-831 | The update loop computes the specified next state and sends each station the specified packet, or none. |
| ArenaController.Controller.Progress | field/arena.go:661-753 | The transition part sets state, winner and game data, and what robots are to be told, as specified. |
| ArenaController.Controller.SendDsPacket | field/arena.go:1174-1190 | The loop sends every connected station its packet and updates its connection, but for the link where the write failed. |
| ArenaController.Controller.Start | field/arena.go:420-453 | A match starts if and only if no reason against it is found, and then only the state changes. |
| ArenaController.Controller.CheckCanStartMatch | field/arena.go:1117-1150 | The first reason against a start is found, in the order the code looks. |
| ArenaController.Controller.CheckStationsReady | field/arena.go:1152-1172 | The loop finds the first station that is not ready and why. |
| ArenaController.Controller.Abort | field/arena.go:463-478 | An abort is refused outside a match and otherwise ends it and withdraws the game data. |
| ArenaController.Controller.Reset | field/arena.go:481-497 | A reset is refused in a match and otherwise returns to PreMatch with no bypass. |
| ArenaController.Controller.ClearMatch | field/arena.go:562-608 | Saving bypasses, resetting, reloading and restoring together are the specified clear, only after a match. |
| ArenaController.Controller.ResetField | field/arena.go:518-559 | Every station is emptied and an empty match loaded, unless a match is in progress. |
| ArenaController.Controller.ClearFieldEStop | field/arena.go:626-639 | The two readings of the panel decide whether the stop and all e-stops are cleared. |
| ArenaController.Controller.SubstituteTeams | field/arena.go:374-417 | A substitution happens as specified or is refused with the first error and changes nothing. |
| ArenaController.Controller.ValidateTeamIds | field/arena.go:877-897 | The loop with its set of seen teams finds the first duplicate or unknown team. |
| ArenaController.Controller.AssignTeamTo | field/arena.go:900-935 | A station is given a team, keeping the connection only of that same team. |
| ArenaController.Controller.LoadMatch | field/arena.go:275-318 | Loading a match assigns its teams and asks the network to follow, and is refused outside PreMatch. |
| ArenaController.Controller.CycleStationPorts | field/arena.go:1062-1085 | Exactly the occupied stations' ports are cycled, and none if all are empty. |
| ArenaController.Controller.BypassEmptyStations | field/arena.go:947-959 | Exactly the empty stations are newly bypassed, and counted. |
| ArenaController.Controller.PollField | field/arena.go:775-788 | Polling the field e-stop has the specified effect. |
| ArenaController.Controller.PollPanels | field/arena.go:790-806 | The nested loops over panels, inputs and stations have the specified effect. |
| ArenaController.Controller.HandlePanelInput | field/arena.go:1295-1313 | One input changes only the half of the station it speaks of, and a new stop ends the match. |
| ArenaController.Controller.HandlePlcInputOutput | field/arena.go:1205-1220 | The PLC's field stop ends the match once, and its team stops are applied station by station. |
| ArenaController.Controller.Accept | field/driver_station_connection.go:398-458 | A driver station is accepted at its team's station, replacing any connection there, or turned away for want of a station, of a reply or of a socket. |
| ArenaController.Controller.HandleClosed | field/driver_station_connection.go:533-543 | A finished connection frees its station only if it is still the one there. |
| ArenaController.Controller.HandleUdpPacket | field/driver_station_connection.go:136-178 | A packet refreshes the link of the connection at its team's station, if there is one. |
| ArenaController.Controller.MakeStartupRequest | field/arena.go:847 | The lineup read at launch becomes the next request, whatever has been requested since. |
| ArenaController.Controller.Perform | field/arena.go:653-831 | Every action of the state machine is one call of the code, which does exactly what the machine's step says. |
| ArenaController.Controller.Operate | field/arena.go:834-863 | Any calls made one after another on a new controller are a run of the state machine, so what is proved of every run holds of the code. |
| ArenaPackets.PacketGameData | field/arena.go:1509-1518 | The game data of every packet of a run names the AUTO winner if the packet announces teleop and is empty otherwise. |
| ArenaPackets.DriverStationReads | field/driver_station_connection.go:227-328 | What a driver station reads off the wire in any run: its station, its stops, the enable bit exactly as the arena's rules have it and with it the period, and on a new station the game data. |
| ArenaLights.LightsAgreeExactlyWithAWinner | field/arena_leds.go:113-122 | The drivers' rule and the Hubs' agree for both alliances if and only if AUTO has a winner. |
| ArenaLights.DriversFollowTheHubs | hardware/hub.go:13-16 | In every reachable state of teleop, before its scheduled end, and for the lengths of `HubShifts.DriversFollowExactlyWhen`, a HUB is lit by the drivers if and only if it is lit by its own rule at that instant or less than a second later; on the second, at that instant. |
| ArenaLights.BothLitOutsideTeleop | field/arena.go:1557-1569 | Outside teleop both HUBs are lit by the drivers exactly in AUTO and after the match. |
| ArenaLights.GameDataNamesFirstDarkHub | field/arena.go:1505-1518 | In every reachable state the game data, if any, names the alliance whose HUB is dark in the first shift. |
| HubShifts.ShiftsDoNotOverlap | game/hub.go:38-60 | An instant is within a shift if and only if that is the shift at that instant. |
| HubShifts.ShiftsTileTheMatch | game/hub.go:38-60 | The shifts cover AUTO and teleop and nothing else if and only if teleop can hold the transition and four alliance shifts. |
| HubShifts.ActiveTimeSums | game/hub.go:80-91 | The nanoseconds of a match in which a HUB is lit are as many as are played of the shifts in which it is active. |
| HubShifts.EqualActiveTimeExactlyWhen | game/hub.go:80-91 | Both alliances' HUBs are active for the same time if and only if there are no alliance shifts, or teleop ends before the first of them, with the second, or not before the end of the fourth. |
| HubShifts.EqualActiveTime | game/hub.go:80-91 | Where teleop holds all four, that time is AUTO and teleop but two alliance shifts. |
| HubShifts.UnequalActiveTime | field/arena.go:716-731 | In a teleop of 50 s, with the standard lengths otherwise, it is 45 s for the winner of AUTO and 55 s for the loser. |
| HubShifts.OneHubDarkInAllianceShifts | game/hub.go:80-91 | Exactly one HUB is dark in an alliance shift, none in the others. |
| HubShifts.GetCurrentShiftTiming | game/hub.go:38-60 | The loop finds the shift at the instant, the time to its end and its length, with 0 < remaining <= length, or none. |
| HubShifts.GetActiveShiftTiming | game/hub.go:65-74 | The remaining time is positive exactly while the HUB is active, and then is the time to the end of its shift. |
| HubShifts.UpdateTeleopHubLeds | field/arena_leds.go:165-219 | Whichever alliance won, each lamp is off if and only if its HUB is inactive, pulses if and only if the HUB goes dark within three seconds, and shows the AUTO winner's advantage if and only if more of the transition shift is left. |
| HubShifts.PulseWarnsOfDarkness | field/arena_leds.go:187-208 | For the lengths below, in teleop a HUB pulses if and only if it is lit, its shift is over within three seconds, and it is dark then, the end of teleop included. |
| HubShifts.PulsesWarnExactlyWhen | field/arena_leds.go:187-208 | Which lengths those are: teleop reaches endgame and the transition, if any, is followed by an alliance shift; or teleop ends in one of the first three alliance shifts, at its end or in one no longer than the warning; or there is no teleop. |
| HubShifts.LightsLeadByLessThanASecond | field/arena.go:1562-1601 | For lengths that agree and an endgame, the drivers' shift is the HUBs' at that instant or one the HUBs reach less than a second later, and on the second at that instant. |
| HubShifts.LightsLeadExactlyWhen | field/arena.go:1562-1601 | So it is at every instant of teleop if and only if the lengths agree and there is an endgame, or there is no teleop. |
| HubShifts.LightsAgreeExactlyWhenShiftsAddUp | game/match_timing.go:31-35 | For any lengths, the two computations agree on every second of teleop if and only if the stored teleop length is zero or the sum of its shifts, or teleop is not longer than the transition or the endgame where that is the only shift. |
| HubShifts.DisagreementOnTheSecond | field/arena.go:1582-1601 | For any other lengths there is a second of teleop at which they differ, and it is named. |
| HubShifts.DriversFollowExactlyWhen | hardware/hub.go:13-16 | At every instant of teleop, for either winner, the drivers light a HUB as its own rule does now or within the second if and only if teleop is the sum of its shifts with an endgame, or there are no alliance shifts in it on either side. |
| HubShifts.WarningPrecedesHandovers | field/arena.go:1619-1625 | For any lengths, the warning is given at exactly the instants less than three seconds ahead of a handover that happens if and only if teleop is 130 s longer than the transition with shifts of 25 s, or both have nothing to warn of, or only the last window and only the first handover fit into teleop and coincide. |
| HubShifts.StandardWarnings | game/match_timing.go:29 | With the standard shifts that is a teleop of 140 s, or of at most ten. |
| HubShifts.FalseWarning | field/arena.go:1619-1625 | In a teleop of 60 s the one warning, five seconds in, precedes nothing, and the two handovers come without. |
| LedLayout.OverlapMeansShared | led/override.go:84-100 | The address comparison holds if and only if two fixtures share a channel. |
| LedLayout.FitsExactlyWhen | led/override.go:65-81 | A fixture fits if and only if its universe has a number and each of the 24 channels from its start address on is one of the 512. |
| LedLayout.BuildFixtures | led/override.go:65-81 | The loop accepts a list if and only if every fixture's channels lie inside a universe. |
| LedLayout.CheckOverlap | led/override.go:84-100 | The nested loops accept a list if and only if no two fixtures share a channel. |
| LedLayout.RedChannelsShowTheirPixels | led/controller.go:114-163 | On an admissible layout every channel of a red fixture shows that fixture's own pixel component. |
| LedLayout.BlueChannelsShowTheirPixels | led/controller.go:114-163 | The same for the blue zone. |
| LedLayout.RedFixtureShows | led/controller.go:153-160 | On an admissible layout the jth three channels of the ith red fixture are the red, green and blue of pixel 8i + j. |
| LedLayout.BlueFixtureShows | led/controller.go:153-160 | The same for the blue zone. |
| LedLayout.OtherChannelsAreZero | led/controller.go:114-123 | Every channel no fixture covers is zero. |
| LedLayout.RenderedUniverses | led/controller.go:147-151 | The universes rendered are those known before and the fixtures' own. |
| LedLayout.SharedChannelLosesAPixel | led/override.go:31-34 | If two fixtures of a zone share a channel, some picture cannot be shown: admission is needed. |
| LedLayout.DefaultLayoutIsAdmissible | led/fixture.go:42-70 | The full-field layout is admissible and has eight fixtures per alliance. |
| LedLayout.AdmittedLayoutRenders | led/controller.go:136-163 | A layout is rendered in full exactly if every fixture fits and no zone has more than eight, and an admitted one runs past the zone's pixels exactly if a zone has more. |
| LedLayout.NineFixturesAreAdmitted | led/override.go:35-50 | The layout check admits such a layout. |
| LedOutput.SendOnChangeRefinesSendAlways | led/controller.go:125-131 | Over any run of layouts and updates, with any writes failing, an update none of whose writes fails ends with the receiver showing exactly the frames just rendered, once the last failed write of every universe is a second old. |
| LedOutput.ReachedUniversesAreShown | led/controller.go:125-131 | Over any such run, every universe that an update gets to before a failed write shows the frame just rendered, unless a write of it has failed within the last second. |
| LedOutput.ShownExactlyWhen | led/controller.go:166-176 | A universe an update goes through shows its new frame if and only if it is due or the receiver showed what was last sent of it. |
| LedOutput.SentExactlyWhenDue | led/controller.go:166-176 | A universe is sent, under its next sequence number, if and only if its frame changed or a second has passed since its last packet when it is looked at. |
| LedOutput.CollisionCannotShow | led/controller.go:291-292 | On an admitted layout two of whose universes agree in their low sixteen bits, there are pixels whose frames no receiver can show. |
| LedOutput.ShowsExactlyWhenWireDistinct | led/controller.go:125-131 | From any output in sync with its receiver, every update without write errors ends with the rendered frames shown if and only if no two universes of the layout agree in their low sixteen bits. |
| LedOutput.CollidingUniversesAreAdmitted | led/override.go:65-100 | The layout check admits universes 1 and 65537, and a controller given them fails to show some picture. |
| LedController.Controller.SetLayout | led/override.go:35-50 | A layout is accepted if and only if all addresses fit and no two fixtures share a channel; otherwise nothing changes. |
| LedController.Controller.UseDefaultLayout | led/override.go:60-63 | The default layout replaces the current one and all buffers. |
| LedController.Universe.DrawFixture | led/controller.go:153-160 | The in-place loop writes exactly the fixture's 24 channels. |
| LedController.Controller.PopulateFixtureData | led/controller.go:136-163 | Rendering a zone in place paints its fixtures in order, stops at the first that does not fit, and reads past the pixels if and only if it comes to a ninth that fits. |
| LedController.Universe.ShouldSendPacket | led/controller.go:166-171 | The comparison loop decides whether a universe is due. |
| LedController.Controller.SendPacket | led/controller.go:287-302 | The receiver gets the rendered frame under the universe's number; a failed write is marked sent all the same. |
| LedController.Controller.SendDue | led/controller.go:125-131 | Universes due are sent one by one up to the first failed write. |
| LedController.Controller.Update | led/controller.go:100-134 | One update renders both zones onto blank universes and sends what is due; it runs past the pixels exactly for the layouts that do, and returns an error only for a bad fixture or a failed write. |
| LedController.SuccessfulUpdate | led/controller.go:100-134 | An update returns an error if and only if the write of a universe that was due failed; otherwise it is an update of the send-on-change model, in whatever order universes went out. |
| LedController.FailedUpdate | led/controller.go:125-131 | An update that returns an error went through its universes up to one whose write failed, which is marked sent, and left the others for the next. |
| StatusTags.SplitIsUnique | field/driver_station_connection.go:138-157 | A packet splits into length-tag-value elements, up to its first truncated one, in one way only. |
| StatusTags.LastStatusWins | field/driver_station_connection.go:151-156 | What is recorded is the last tag-1 element of length 6, or the previous reading if there is none. |
| StatusTags.LastStatusInBytes | field/driver_station_connection.go:151-156 | In bytes: the packets lost are the two bytes behind the 6 and the 1, high byte first, and the round trip time is the last of the element. |
| StatusTags.ScanTags | field/driver_station_connection.go:136-157 | The scan ends, reads only inside the packet, and records what the packet's split says. |
| DriverStation.ControlPacketLayout | field/driver_station_connection.go:227-328 | Byte by byte: the packet number, the four control bits, the station, and on a new driver station the game data element. |
| DriverStation.ControlPacketRoundTrip | field/driver_station_connection.go:227-328 | A driver station reads back the packet number, the four robot flags, its station and, if new, up to eight bytes of game data. |
| DriverStation.GameDataPacketLayout | field/driver_station_connection.go:565-585 | Byte by byte: two bytes of length, the tag 28, the size and the value. |
| DriverStation.StreamIsWellFramed | field/driver_station_connection.go:565-585 | A stream of game data packets of up to 253 bytes, with or without part of another behind them, comes apart into exactly the packets written. |
| DriverStation.OnePacketPerChange | field/driver_station_connection.go:333-344 | Over any sequence of sends, with any writes failing, a legacy connection has written exactly one packet per value that got through, remembers the last of them, and has left at most part of one more. |
| DriverStation.EveryChangeDelivered | field/driver_station_connection.go:333-344 | Where no write fails, the values that got through are exactly the changes of the game data. |
| DriverStation.NewLinkWritesNothing | field/driver_station_connection.go:334-336 | To a new driver station nothing is ever written over TCP. |
| DriverStation.LegacyReadsCurrent | field/driver_station_connection.go:330-344 | What a legacy station has read off its stream is always the value last got through; after a send it is the current one if and only if the send had no TCP error or the value had not changed. |
| DriverStation.DeliveriesAgreeExactly | field/driver_station_connection.go:310-359 | After every send without a TCP error, a new station's packet and a legacy station's stream give the same value if and only if it has at most eight bytes. |
| DriverStation.DriverStationConnection.SendGameDataPacket | field/driver_station_connection.go:565-585 | The loop writes one framed packet to the stream, or part of it where the write fails. |
| DriverStation.DriverStationConnection.CheckData | field/driver_station_connection.go:333-344 | Game data is written only to a legacy station and only when it changed, and counts as sent only if the write succeeded. |
| DriverStation.DriverStationConnection.EncodeControlPacket | field/driver_station_connection.go:227-328 | The buffer holds the specified packet up to the returned length. |
| DriverStation.DriverStationConnection.SendControlPacket | field/driver_station_connection.go:347-359 | Game data is checked first, then the packet goes out all the same, and an error of either write is reported. |
| Handshake.NewHelloIsUnderstood | field/driver_station_connection.go:485-500 | Every team number a new driver station can announce is read back, with the port it names and whatever follows. |
| Handshake.LegacyHelloIsUnderstood | field/driver_station_connection.go:483-484 | Every two-byte team number of a legacy driver station is read back. |
| Handshake.NumbersAreRead | field/driver_station_connection.go:496-500 | A decimal team number is read with or without a sign as long as it fits in 64 bits. |
| Handshake.OthersAreNotUnderstood | field/driver_station_connection.go:479-504 | A greeting with another tag, or that ends or declares less than its team number, is refused. |
| Notifier.ReadersActBetweenMessages | websocket/notifier.go:64-96 | A reader that takes a message or closes its channel while another message is being sent might as well have done so before it or after it. |
| Notifier.EventsAct | websocket/notifier.go:64-125 | A new listener starts registered and empty with the next message, a reader takes the oldest message of its buffer, and closing closes just that channel. |
| Notifier.ReceivedInOrder | websocket/notifier.go:64-96 | In every interleaving a listener's reader gets an in-order subsequence of the messages published since it subscribed, and at most five are buffered. |
| Notifier.MissedExactlyWhenFull | websocket/notifier.go:84-94 | A message is missed by a listener if and only if it was full, closed or dropped at that moment. |
| Notifier.LoggedOncePerSpell | websocket/notifier.go:98-107 | A listener is logged exactly once for every blocked spell. |
| Notifier.DroppedExactlyWhen | websocket/notifier.go:78-114 | A listener is dropped if and only if it was closed, or an unbroken run of failed sends spans thirty seconds. |
| Notifier.EventNotifier.NotifyListener | websocket/notifier.go:74-115 | One listener's buffer, flags, log and registration change as specified, and no other's. |
| Notifier.EventNotifier.Notify | websocket/notifier.go:64-72 | The loop over listeners, in any order and with the clock read for each, delivers to each exactly as specified. |
| Notifier.EventNotifier.Listen | websocket/notifier.go:118-125 | A new listener starts empty and unblocked. |

## Left out

- Telnet, HTTP, TCP and UDP, GPIO and Modbus plumbing: reads, writes and failures are parameters.
- network/access_point.go, and the goroutines that configure it: an HTTP client whose configurations are unordered.
- `parsePortLinks` and the port-link poll in network/switch.go and field/arena.go.
- model/, web/, static/ and docs/: a team table is a map from number to key; operators' commands are events.
- plc/: its inputs are arbitrary; bit packing, stack lights and buzzers are not modelled.
- Pixel animation in led/zone.go: the pixels of an update are arbitrary colours.
- led/artnet.go, and the constant headers of `createBlankPacket`: only sequence, universe and channel data of a packet are modelled.
- `SetUniverseMode` in led/controller.go, which nothing calls, and changing the LED receiver's address during a run.
- `ApplyFallback` in led/override.go, and the lamps outside teleop.
- Match, time-of-day and remaining-seconds bytes of the control packet: sixteen arbitrary bytes.
- Sounds, notifications of browsers by the arena, event status strings, logs and backups.
- `DisableAll`, which bypasses every station, and `preLoadNextMatch`, `LoadNextMatch` and `LoadSettings`: settings are fixed in a run, and every match of a run is a test match, since nothing loads another kind.
- The file error `StartMatch` can return after it has started the match.
- Read errors of the team table.
- The stop polling of network e-stop panels: their inputs are arbitrary.
- Driver station acceptance, packets and teardown, the toggles of a bypass or an e-stop, and the two steps of the startup request happen outside the arena's lock; each is modelled as one atomic step. The startup request reads the six stations one after another, and could see a registration half done.
- Period lengths below zero, which the settings form accepts.
- ArenaController.Controller.Accept: does not model the wrong-station notice and the bytes of the reply, which change no arena state.
- ArenaController.Controller.SendDsPacket: a packet whose write fails still counts as sent at that moment, as in the code; stations and connections are values here; a connection's serial number stands for its identity in memory, so aliasing is not captured.
- Notifier.EventNotifier.Notify: channels are values, so a reader acts only between messages, which Notifier.ReadersActBetweenMessages shows to be no loss.
- DriverStation.DeliveriesAgreeExactly: for values of at most 253 bytes, beyond which the one-byte sizes wrap, and TCP connections that take no more bytes once a write has failed in the middle of a packet.
- ArenaTiming.StopReachesRobotInTime: speaks of packets handed to the network, not of their arrival, nor of whether the write succeeds; so do ArenaStops.PressedEStopReachesRobotInTime, ArenaStops.PressedAStopReachesRobotInTime, ArenaTiming.StopInForceReachesRobotInTime, ArenaTiming.BypassReachesRobotInTime and ArenaTiming.AutoStopReachesRobotInTime.

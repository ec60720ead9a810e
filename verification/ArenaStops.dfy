/** Pressed buttons of panels and PLC: that a stop takes effect, and reaches its robot. */
module ArenaStops {
  import opened Options
  import opened TeamNetwork
  import opened FieldEStop
  import opened MatchTiming
  import opened ArenaState
  import opened ArenaSafety
  import opened ArenaTiming

  predicate Names(input: PanelInput, i: StationIndex) {
    input.target == AllStations || input.target == OneStation(i)
  }

  /** An e-stop input that does not read OK: pressed, or not to be trusted. */
  predicate PressesEStop(input: PanelInput, i: StationIndex) {
    Names(input, i) && !input.isAStop && input.state != StopOk
  }

  predicate PressesAStop(input: PanelInput, i: StationIndex) {
    Names(input, i) && input.isAStop && input.state == StopActive
  }

  // ----- one input

  /** An e-stop stops its station at once and, if it was not stopped before, the match. */
  lemma EStopInputActs(a: Arena, i: StationIndex, input: PanelInput, now: int)
    requires !input.isAStop && input.state != StopOk
    ensures var b := HandleStation(a, i, input, now);
      b.stations[i].eStop && (a.stations[i].eStop || !InProgress(b.matchState))
  {
  }

  /** All that a pressed stop does: the flag it sets, the fault it reports, and the match it ends. */
  lemma PressActs(a: Arena, i: StationIndex, input: PanelInput, now: int)
    ensures input.isAStop && input.state == StopActive ==>
      HandleStation(a, i, input, now) == SetStation(a, i, a.stations[i].(aStop := true))
    ensures !input.isAStop && input.state != StopOk ==>
      var stopped := SetStation(a, i, a.stations[i].(eStop := true, eStopFault := input.fault));
      HandleStation(a, i, input, now) ==
        if a.stations[i].eStop || !InProgress(a.matchState) then stopped
        else stopped.(matchState := PostMatch, postMatchStart := now, gameData := "", matchAborted := true)
  {
  }

  /** What an input that reads otherwise does: it takes back a stop, but no e-stop of a running match and no a-stop of
      AUTO, and after it the a-stop counts as reset. */
  lemma ReleaseActs(a: Arena, i: StationIndex, input: PanelInput, now: int)
    requires if input.isAStop then input.state != StopActive else input.state == StopOk
    ensures var b := HandleStation(a, i, input, now);
      if input.isAStop then
        b == if a.matchState == AutoPeriod then a
             else SetStation(a, i, a.stations[i].(aStop := false, aStopReset := true))
      else
        var held := a.stations[i].eStop && Running(a.matchState) && now != a.matchStart;
        b == SetStation(a, i, a.stations[i].(eStop := held, eStopFault := input.fault))
  {
  }

  /** The match clock is not at its zero. */
  predicate Clocked(a: Arena, now: int) {
    InProgress(a.matchState) ==> Running(a.matchState) && a.matchStart != now
  }

  /** In AUTO still, or aborted. */
  predicate FromAuto(a: Arena) {
    a.matchState == AutoPeriod || a.matchState == PostMatch
  }

  /** Polling has kept the stops in force at the station, and if one was pressed there it is in force now. */
  predicate Acted(a: Arena, b: Arena, now: int, i: StationIndex, eStop: bool, aStop: bool) {
    && Clocked(b, now)
    && (StopInForce(a, i) || eStop ==> StopInForce(b, i))
    && (FromAuto(a) ==> FromAuto(b))
    && (AutoStopInForce(a, i) || (FromAuto(a) && aStop) ==> AutoStopInForce(b, i))
  }

  lemma ActedTwice(
    a: Arena, b: Arena, c: Arena, now: int, i: StationIndex, eStop: bool, aStop: bool, eStop2: bool, aStop2: bool)
    requires Acted(a, b, now, i, eStop, aStop) && Acted(b, c, now, i, eStop2, aStop2)
    ensures Acted(a, c, now, i, eStop || eStop2, aStop || aStop2)
  {
  }

  lemma PollingKeepsStop(a: Arena, b: Arena, now: int, i: StationIndex)
    requires PolledKeeping(a, b, now) && Clocked(a, now)
    ensures Acted(a, b, now, i, false, false)
  {
  }

  // ----- all of them

  lemma StationActs(a: Arena, k: StationIndex, input: PanelInput, now: int, i: StationIndex)
    requires Clocked(a, now)
    ensures Acted(a, HandleStation(a, k, input, now), now, i,
                  k == i && PressesEStop(input, i), k == i && PressesAStop(input, i))
  {
    HandleStationPolls(a, k, input, now);
    PollingKeepsStop(a, HandleStation(a, k, input, now), now, i);
    if k == i && PressesEStop(input, i) {
      EStopInputActs(a, i, input, now);
    }
  }

  lemma OneStationMore(a: Arena, input: PanelInput, k: StationIndex, now: int, i: StationIndex)
    requires Acted(a, HandleStations(a, input, k, now), now, i,
                   i < k && PressesEStop(input, i), i < k && PressesAStop(input, i))
    ensures Acted(a, HandleStations(a, input, k + 1, now), now, i,
                  i < k + 1 && PressesEStop(input, i), i < k + 1 && PressesAStop(input, i))
  {
    var b := HandleStations(a, input, k, now);
    StationActs(b, k, input, now, i);
    ActedTwice(a, b, HandleStation(b, k, input, now), now, i,
               i < k && PressesEStop(input, i), i < k && PressesAStop(input, i),
               k == i && PressesEStop(input, i), k == i && PressesAStop(input, i));
  }

  lemma {:induction false} StationsAct(a: Arena, input: PanelInput, n: Count, now: int, i: StationIndex)
    requires Clocked(a, now)
    ensures Acted(a, HandleStations(a, input, n, now), now, i,
                  i < n && PressesEStop(input, i), i < n && PressesAStop(input, i))
  {
    if n > 0 {
      StationsAct(a, input, n - 1, now, i);
      OneStationMore(a, input, n - 1, now, i);
    }
  }

  lemma InputActs(a: Arena, input: PanelInput, now: int, i: StationIndex)
    requires Clocked(a, now)
    ensures Acted(a, HandleInput(a, input, now), now, i, PressesEStop(input, i), PressesAStop(input, i))
  {
    match input.target
    case AllStations => StationsAct(a, input, |a.stations|, now, i);
    case OneStation(k) => StationActs(a, k, input, now, i);
  }

  ghost predicate SomePressesEStop(inputs: seq<PanelInput>, i: StationIndex) {
    exists k :: 0 <= k < |inputs| && PressesEStop(inputs[k], i)
  }

  ghost predicate SomePressesAStop(inputs: seq<PanelInput>, i: StationIndex) {
    exists k :: 0 <= k < |inputs| && PressesAStop(inputs[k], i)
  }

  lemma SomeOf(inputs: seq<PanelInput>, i: StationIndex)
    requires inputs != []
    ensures var n := |inputs| - 1;
      && (SomePressesEStop(inputs, i) <==> SomePressesEStop(inputs[..n], i) || PressesEStop(inputs[n], i))
      && (SomePressesAStop(inputs, i) <==> SomePressesAStop(inputs[..n], i) || PressesAStop(inputs[n], i))
  {
    assert forall k :: 0 <= k < |inputs| - 1 ==> inputs[..|inputs| - 1][k] == inputs[k];
  }

  /** Whatever other inputs read, before it or after it, a pressed stop is in force at the end. */
  lemma {:induction false} InputsAct(a: Arena, inputs: seq<PanelInput>, now: int, i: StationIndex)
    requires Clocked(a, now)
    ensures Acted(a, HandleInputs(a, inputs, now), now, i, SomePressesEStop(inputs, i), SomePressesAStop(inputs, i))
    decreases |inputs|
  {
    if inputs != [] {
      var n := |inputs| - 1;
      var b := HandleInputs(a, inputs[..n], now);
      InputsAct(a, inputs[..n], now, i);
      InputActs(b, inputs[n], now, i);
      SomeOf(inputs, i);
      ActedTwice(a, b, HandleInput(b, inputs[n], now), now, i, SomePressesEStop(inputs[..n], i),
                 SomePressesAStop(inputs[..n], i), PressesEStop(inputs[n], i), PressesAStop(inputs[n], i));
    }
  }

  lemma PlcStationActs(a: Arena, k: StationIndex, eStop: bool, aStop: bool, now: int, i: StationIndex)
    requires Clocked(a, now)
    ensures Acted(a, HandleAStop(HandleEStop(a, k, eStop, now), k, aStop), now, i, k == i && eStop, k == i && aStop)
  {
    PlcStationPolls(a, k, eStop, aStop, now);
    PollingKeepsStop(a, HandleAStop(HandleEStop(a, k, eStop, now), k, aStop), now, i);
  }

  lemma OnePlcStationMore(a: Arena, plc: PlcInputs, k: StationIndex, now: int, i: StationIndex)
    requires Acted(a, HandlePlcStations(a, plc, k, now), now, i, i < k && plc.eStops[i], i < k && plc.aStops[i])
    ensures Acted(a, HandlePlcStations(a, plc, k + 1, now), now, i,
                  i < k + 1 && plc.eStops[i], i < k + 1 && plc.aStops[i])
  {
    var b := HandlePlcStations(a, plc, k, now);
    PlcStationActs(b, k, plc.eStops[k], plc.aStops[k], now, i);
    ActedTwice(a, b, HandlePlcStations(a, plc, k + 1, now), now, i, i < k && plc.eStops[i], i < k && plc.aStops[i],
               k == i && plc.eStops[i], k == i && plc.aStops[i]);
  }

  lemma {:induction false} PlcStationsAct(a: Arena, plc: PlcInputs, n: Count, now: int, i: StationIndex)
    requires Clocked(a, now)
    ensures Acted(a, HandlePlcStations(a, plc, n, now), now, i, i < n && plc.eStops[i], i < n && plc.aStops[i])
  {
    if n > 0 {
      PlcStationsAct(a, plc, n - 1, now, i);
      OnePlcStationMore(a, plc, n - 1, now, i);
    }
  }

  lemma PlcActs(settings: Settings, a: Arena, plc: PlcInputs, now: int, i: StationIndex)
    requires Clocked(a, now)
    ensures Acted(a, HandlePlc(settings, a, plc, now), now, i,
                  settings.plcEnabled && plc.eStops[i], settings.plcEnabled && plc.aStops[i])
  {
    if settings.plcEnabled {
      var b := if plc.fieldEStop && !a.matchAborted then AbortForStop(a, now) else a;
      PollingKeepsStop(a, b, now, i);
      PlcStationsAct(b, plc, |plc.eStops|, now, i);
      ActedTwice(a, b, HandlePlc(settings, a, plc, now), now, i, false, false, plc.eStops[i], plc.aStops[i]);
    }
  }

  ghost predicate EStopPressed(settings: Settings, inp: TickInputs, i: StationIndex) {
    SomePressesEStop(inp.panelInputs, i) || (settings.plcEnabled && inp.plc.eStops[i])
  }

  ghost predicate AStopPressed(settings: Settings, inp: TickInputs, i: StationIndex) {
    SomePressesAStop(inp.panelInputs, i) || (settings.plcEnabled && inp.plc.aStops[i])
  }

  lemma PollsAct(settings: Settings, a: Arena, poll: int, inp: TickInputs, i: StationIndex)
    requires Clocked(a, poll)
    ensures Acted(a, PollStops(settings, a, poll, inp), poll, i,
                  EStopPressed(settings, inp, i), AStopPressed(settings, inp, i))
  {
    var b := PollFieldEStop(a, inp.pins, poll);
    var c := HandleInputs(b, inp.panelInputs, poll);
    var d := HandlePlc(settings, c, inp.plc, poll);
    FieldPollActs(a, inp.pins, poll, i);
    InputsAct(b, inp.panelInputs, poll, i);
    PlcActs(settings, c, inp.plc, poll, i);
    var e, s := SomePressesEStop(inp.panelInputs, i), SomePressesAStop(inp.panelInputs, i);
    ActedTwice(a, b, c, poll, i, false, false, e, s);
    ActedTwice(a, c, d, poll, i, e, s, settings.plcEnabled && inp.plc.eStops[i], settings.plcEnabled && inp.plc.aStops[i]);
  }

  lemma FieldPollActs(a: Arena, pins: Pins, now: int, i: StationIndex)
    requires Clocked(a, now)
    ensures Acted(a, PollFieldEStop(a, pins, now), now, i, false, false)
  {
    FieldPollEffect(a, pins, now);
  }

  // ----- an update

  lemma UpdateClocked(settings: Settings, a: Arena, now: int, poll: int, inp: TickInputs)
    requires StartedBefore(a, now) && now < poll
    ensures Clocked(AfterSending(Advanced(settings, a, now, inp), now, inp.failed), poll)
  {
    StartingTransition(settings, a, now, inp);
    SendingKeepsClock(Advanced(settings, a, now, inp), now, inp.failed);
    AutoTransition(settings, a, now, inp);
  }

  /** An update that sees a station's e-stop pressed leaves it in force, whatever other inputs read. */
  lemma PressedEStopActs(settings: Settings, a: Arena, now: int, poll: int, inp: TickInputs, i: StationIndex)
    requires StartedBefore(a, now) && now < poll && EStopPressed(settings, inp, i)
    ensures StopInForce(Update(settings, a, now, poll, inp), i)
  {
    UpdateClocked(settings, a, now, poll, inp);
    PollsAct(settings, AfterSending(Advanced(settings, a, now, inp), now, inp.failed), poll, inp, i);
  }

  /** One of AUTO that sees its a-stop pressed leaves that in force. */
  lemma PressedAStopActs(settings: Settings, a: Arena, now: int, poll: int, inp: TickInputs, i: StationIndex)
    requires StartedBefore(a, now) && now < poll && AStopPressed(settings, inp, i)
    requires Advanced(settings, a, now, inp).arena.matchState == AutoPeriod
    ensures AutoStopInForce(Update(settings, a, now, poll, inp), i)
  {
    UpdateClocked(settings, a, now, poll, inp);
    SendingKeepsClock(Advanced(settings, a, now, inp), now, inp.failed);
    PollsAct(settings, AfterSending(Advanced(settings, a, now, inp), now, inp.failed), poll, inp, i);
  }

  // ----- from the button to the robot

  /** From the instant an update has seen a station's e-stop pressed, unless a match is started or an operator takes the
      stop back, the station's driver station is sent a packet that disables the robot within 500 ms and one tick. */
  lemma PressedEStopReachesRobotInTime(
    settings: Settings, arenas: seq<Arena>, events: seq<Event>, i: StationIndex, k: nat, n: nat, t: int, d: int)
    returns (j: nat)
    requires Run(settings, arenas, events) && k < n < |events| && Past(events, k + 1, t)
    requires events[k].action.Tick? && EStopPressed(settings, events[k].action.inputs, i) && events[k].at < events[k].done
    requires TicksEvery(events, k + 1, n, t, d) && events[n].at > t + PACKET_PERIOD + d
    requires StopUndisturbed(settings, arenas, events, k + 1, n, i)
    ensures k < j < n && events[j].action.Tick? && events[j].at <= t + 500_000_000 + d
    ensures arenas[j].stations[i].conn.Some? ==>
      var p := PacketTo(settings, arenas[j], events[j].at, events[j].action.inputs, i);
      p.Some? && !p.value.enabled
  {
    MatchStartedInThePast(settings, arenas, events, k, events[k].at);
    assert arenas[k + 1] == Step(settings, arenas[k], events[k]);
    PressedEStopActs(settings, arenas[k], events[k].at, events[k].done, events[k].action.inputs, i);
    j := StopInForceReachesRobotInTime(settings, arenas, events, i, k + 1, n, t, d);
  }

  /** An update of AUTO that sees the station's a-stop pressed. */
  ghost predicate PressesAStopInAuto(settings: Settings, a: Arena, e: Event, i: StationIndex) {
    && e.action.Tick? && e.at < e.done && AStopPressed(settings, e.action.inputs, i)
    && Advanced(settings, a, e.at, e.action.inputs).arena.matchState == AutoPeriod
  }

  lemma PressedAStopTaken(settings: Settings, arenas: seq<Arena>, events: seq<Event>, i: StationIndex, k: nat)
    requires Run(settings, arenas, events) && k < |events| && PressesAStopInAuto(settings, arenas[k], events[k], i)
    ensures AutoStopInForce(arenas[k + 1], i)
  {
    MatchStartedInThePast(settings, arenas, events, k, events[k].at);
    assert arenas[k + 1] == Step(settings, arenas[k], events[k]);
    PressedAStopActs(settings, arenas[k], events[k].at, events[k].done, events[k].action.inputs, i);
  }

  lemma TakenAStopReachesRobotInTime(
    settings: Settings, arenas: seq<Arena>, events: seq<Event>, i: StationIndex, k: nat, n: nat, t: int, d: int)
    returns (j: nat)
    requires Run(settings, arenas, events) && k < n < |events| && Past(events, k + 1, t)
    requires AutoStopInForce(arenas[k + 1], i)
    requires TicksEvery(events, k + 1, n, t, d) && events[n].at > t + PACKET_PERIOD + d
    requires NoMatchStarts(settings, arenas, events, k + 1, n)
    ensures k < j < n && events[j].action.Tick? && events[j].at <= t + 500_000_000 + d
    ensures arenas[j].stations[i].conn.Some? ==>
      StopsUntilTeleop(settings, arenas[j], events[j].at, events[j].action.inputs, i)
  {
    j := AutoStopStaysUntilSent(settings, arenas, events, i, k + 1, n, t, d);
  }

  /** The same of an a-stop pressed in AUTO, which holds until teleop is announced. */
  lemma PressedAStopReachesRobotInTime(
    settings: Settings, arenas: seq<Arena>, events: seq<Event>, i: StationIndex, k: nat, n: nat, t: int, d: int)
    returns (j: nat)
    requires Run(settings, arenas, events) && k < n < |events| && Past(events, k + 1, t)
    requires PressesAStopInAuto(settings, arenas[k], events[k], i)
    requires TicksEvery(events, k + 1, n, t, d) && events[n].at > t + PACKET_PERIOD + d
    requires NoMatchStarts(settings, arenas, events, k + 1, n)
    ensures k < j < n && events[j].action.Tick? && events[j].at <= t + 500_000_000 + d
    ensures arenas[j].stations[i].conn.Some? ==>
      StopsUntilTeleop(settings, arenas[j], events[j].at, events[j].action.inputs, i)
  {
    PressedAStopTaken(settings, arenas, events, i, k);
    j := TakenAStopReachesRobotInTime(settings, arenas, events, i, k, n, t, d);
  }

  // ----- the PLC's field stop

  /** A match that counts as aborted is over. */
  predicate OverIfAborted(a: Arena) {
    a.matchAborted ==> a.matchState == PostMatch
  }

  lemma UpdateAborts(settings: Settings, a: Arena, now: int, poll: int, inp: TickInputs)
    requires OverIfAborted(a)
    ensures OverIfAborted(Update(settings, a, now, poll, inp))
  {
    var sent := AfterSending(Advanced(settings, a, now, inp), now, inp.failed);
    TransitionAborts(settings, a, now, inp);
    FieldPollEffect(sent, inp.pins, poll);
    OtherPollsKeep(settings, sent, poll, inp);
  }

  lemma TransitionAborts(settings: Settings, a: Arena, now: int, inp: TickInputs)
    requires OverIfAborted(a)
    ensures OverIfAborted(AfterSending(Advanced(settings, a, now, inp), now, inp.failed))
  {
    ClearNotAborted(settings, a, inp.teamTable);
  }

  lemma ClearNotAborted(settings: Settings, a: Arena, table: TeamTable)
    ensures !ClearMatch(settings, a, table).matchAborted
  {
  }

  lemma StepAborts(settings: Settings, a: Arena, e: Event)
    requires OverIfAborted(a)
    ensures OverIfAborted(Step(settings, a, e))
  {
    match e.action
    case Tick(inp) => UpdateAborts(settings, a, e.at, e.done, inp);
    case ClearCommand(table) => ClearNotAborted(settings, a, table);
    case ResetFieldCommand(table) =>
    case ClearFieldEStop(first, second) =>
    case Connect(_, _) =>
    case Disconnect(_, _) =>
    case Heard(_, _) =>
    case _ =>
  }

  lemma {:induction false} AbortedIsOver(settings: Settings, arenas: seq<Arena>, events: seq<Event>, n: nat)
    requires Run(settings, arenas, events) && n <= |events|
    ensures OverIfAborted(arenas[n])
  {
    if n > 0 {
      AbortedIsOver(settings, arenas, events, n - 1);
      assert arenas[n] == Step(settings, arenas[n - 1], events[n - 1]);
      StepAborts(settings, arenas[n - 1], events[n - 1]);
    }
  }

  lemma PlcFieldStopActs(settings: Settings, a: Arena, plc: PlcInputs, now: int)
    requires settings.plcEnabled && plc.fieldEStop && OverIfAborted(a)
    ensures !InProgress(HandlePlc(settings, a, plc, now).matchState)
  {
    var b := if plc.fieldEStop && !a.matchAborted then AbortForStop(a, now) else a;
    PlcStationsPoll(b, plc, |plc.eStops|, now);
  }

  /** In any run, an update that sees the PLC's field stop leaves no match in progress. */
  lemma PlcFieldStopEndsMatch(settings: Settings, arenas: seq<Arena>, events: seq<Event>, k: nat)
    requires Run(settings, arenas, events) && k < |events| && events[k].action.Tick?
    requires settings.plcEnabled && events[k].action.inputs.plc.fieldEStop
    ensures !InProgress(arenas[k + 1].matchState)
  {
    var a, now, poll, inp := arenas[k], events[k].at, events[k].done, events[k].action.inputs;
    var sent := AfterSending(Advanced(settings, a, now, inp), now, inp.failed);
    AbortedIsOver(settings, arenas, events, k);
    TransitionAborts(settings, a, now, inp);
    FieldPollEffect(sent, inp.pins, poll);
    HandleInputsPolls(PollFieldEStop(sent, inp.pins, poll), inp.panelInputs, poll);
    assert arenas[k + 1] == Step(settings, a, events[k]);
    PlcFieldStopActs(settings, HandleInputs(PollFieldEStop(sent, inp.pins, poll), inp.panelInputs, poll), inp.plc, poll);
  }
}

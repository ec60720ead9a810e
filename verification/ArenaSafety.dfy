/** Safety of the match state machine over every run: when robots may move, what a stop does, and when game
    data exists. */
module ArenaSafety {
  import opened Options
  import opened TeamNetwork
  import opened FieldEStop
  import opened ArenaState

  // ----- what the parts of an Update leave alone

  /** Only the stations differ, unless a match in progress was aborted. */
  predicate Polled(a: Arena, b: Arena, now: int) {
    || b == a.(stations := b.stations)
    || (InProgress(a.matchState) && b == AbortMatch(a, now).(stations := b.stations))
  }

  /** Unless the match was aborted, the latched stops of a running period are still there. */
  predicate StopsKept(a: Arena, b: Arena, now: int) {
    && (MatchTime(a, now) != 0 && b.matchState == a.matchState ==>
          forall i :: 0 <= i < STATION_COUNT && a.stations[i].eStop ==> b.stations[i].eStop)
    && (a.matchState == AutoPeriod && b.matchState == AutoPeriod ==>
          forall i :: 0 <= i < STATION_COUNT && a.stations[i].aStop ==> b.stations[i].aStop)
  }

  /** Polling stops touches only the stop flags of a station. */
  predicate OnlyStopFlags(s: Station, t: Station) {
    t == s.(eStop := t.eStop, aStop := t.aStop, aStopReset := t.aStopReset, eStopFault := t.eStopFault)
  }

  predicate PolledKeeping(a: Arena, b: Arena, now: int) {
    && Polled(a, b, now) && StopsKept(a, b, now)
    && forall i :: 0 <= i < STATION_COUNT ==> OnlyStopFlags(a.stations[i], b.stations[i])
  }

  lemma PolledTransitive(a: Arena, b: Arena, c: Arena, now: int)
    requires PolledKeeping(a, b, now) && PolledKeeping(b, c, now)
    ensures PolledKeeping(a, c, now)
  {
  }

  lemma EStopPolls(a: Arena, i: StationIndex, active: bool, now: int)
    ensures PolledKeeping(a, HandleEStop(a, i, active, now), now)
  {
  }

  lemma AStopPolls(a: Arena, i: StationIndex, active: bool, now: int)
    ensures PolledKeeping(a, HandleAStop(a, i, active), now)
  {
  }

  lemma FaultPolls(a: Arena, i: StationIndex, fault: FaultKind, now: int)
    ensures PolledKeeping(a, SetStation(a, i, a.stations[i].(eStopFault := fault)), now)
  {
  }

  lemma HandleStationPolls(a: Arena, i: StationIndex, input: PanelInput, now: int)
    ensures PolledKeeping(a, HandleStation(a, i, input, now), now)
  {
    if input.isAStop {
      AStopPolls(a, i, input.state == StopActive, now);
    } else {
      var b := SetStation(a, i, a.stations[i].(eStopFault := input.fault));
      var c := HandleEStop(b, i, input.state != StopOk, now);
      FaultPolls(a, i, input.fault, now);
      EStopPolls(b, i, input.state != StopOk, now);
      PolledTransitive(a, b, c, now);
      PolledTransitive(a, c, AbortForStop(c, now), now);
    }
  }

  lemma {:induction false} HandleStationsPolls(a: Arena, input: PanelInput, n: Count, now: int)
    ensures PolledKeeping(a, HandleStations(a, input, n, now), now)
  {
    if n > 0 {
      HandleStationsPolls(a, input, n - 1, now);
      var b, c := HandleStations(a, input, n - 1, now), HandleStations(a, input, n, now);
      assert PolledKeeping(b, c, now) by {
        HandleStationPolls(b, n - 1, input, now);
      }
      PolledTransitive(a, b, c, now);
    }
  }

  lemma HandleInputPolls(a: Arena, input: PanelInput, now: int)
    ensures PolledKeeping(a, HandleInput(a, input, now), now)
  {
    match input.target
    case AllStations => HandleStationsPolls(a, input, |a.stations|, now);
    case OneStation(i) => HandleStationPolls(a, i, input, now);
  }

  lemma {:induction false} HandleInputsPolls(a: Arena, inputs: seq<PanelInput>, now: int)
    ensures PolledKeeping(a, HandleInputs(a, inputs, now), now)
    decreases |inputs|
  {
    if inputs != [] {
      var b := HandleInputs(a, inputs[..|inputs| - 1], now);
      HandleInputsPolls(a, inputs[..|inputs| - 1], now);
      HandleInputPolls(b, inputs[|inputs| - 1], now);
      PolledTransitive(a, b, HandleInput(b, inputs[|inputs| - 1], now), now);
    }
  }

  lemma PlcStationPolls(a: Arena, i: StationIndex, eStop: bool, aStop: bool, now: int)
    ensures PolledKeeping(a, HandleAStop(HandleEStop(a, i, eStop, now), i, aStop), now)
  {
    var b := HandleEStop(a, i, eStop, now);
    EStopPolls(a, i, eStop, now);
    AStopPolls(b, i, aStop, now);
    PolledTransitive(a, b, HandleAStop(b, i, aStop), now);
  }

  lemma {:induction false} PlcStationsPoll(a: Arena, plc: PlcInputs, n: Count, now: int)
    ensures PolledKeeping(a, HandlePlcStations(a, plc, n, now), now)
  {
    if n > 0 {
      PlcStationsPoll(a, plc, n - 1, now);
      var b := HandlePlcStations(a, plc, n - 1, now);
      PlcStationPolls(b, n - 1, plc.eStops[n - 1], plc.aStops[n - 1], now);
      PolledTransitive(a, b, HandlePlcStations(a, plc, n, now), now);
    }
  }

  lemma HandlePlcPolls(settings: Settings, a: Arena, plc: PlcInputs, now: int)
    ensures PolledKeeping(a, HandlePlc(settings, a, plc, now), now)
  {
    if settings.plcEnabled {
      var b := if plc.fieldEStop && !a.matchAborted then AbortForStop(a, now) else a;
      PlcStationsPoll(b, plc, |plc.eStops|, now);
      PolledTransitive(a, b, HandlePlc(settings, a, plc, now), now);
    }
  }

  /** The panels and the PLC together. */
  lemma OtherPollsKeep(settings: Settings, a: Arena, poll: int, inp: TickInputs)
    ensures PolledKeeping(PollFieldEStop(a, inp.pins, poll), PollStops(settings, a, poll, inp), poll)
  {
    var b := PollFieldEStop(a, inp.pins, poll);
    var c := HandleInputs(b, inp.panelInputs, poll);
    HandleInputsPolls(b, inp.panelInputs, poll);
    HandlePlcPolls(settings, c, inp.plc, poll);
    PolledTransitive(b, c, HandlePlc(settings, c, inp.plc, poll), poll);
  }

  // ----- the field e-stop poll

  /** The button's wires do not prove it released. */
  predicate PinsStop(a: Arena, pins: Pins) {
    a.panel.Some? && Wires(a.panel.value, pins) != Released
  }

  /** What one poll of the field e-stop does. */
  lemma FieldPollEffect(a: Arena, pins: Pins, now: int)
    ensures var b := PollFieldEStop(a, pins, now);
      && (a.fieldEStopActive ==> b.fieldEStopActive)
      && (PinsStop(a, pins) ==> b.fieldEStopActive)
      && (b.fieldEStopActive && !a.fieldEStopActive ==>
            && !InProgress(b.matchState) && b.panel.Some? && b.panel.value.latched != StopOk
            && forall i :: 0 <= i < STATION_COUNT ==> b.stations[i].eStop)
      && (b.fieldEStopActive == a.fieldEStopActive ==>
            b == a.(panel := b.panel, fieldEStopFault := b.fieldEStopFault))
      && (b.fieldEStopActive != a.fieldEStopActive ==>
            b == AbortForStop(a, now).(panel := b.panel, fieldEStopFault := b.fieldEStopFault,
                                       fieldEStopActive := true, stations := b.stations))
      && (forall i :: 0 <= i < STATION_COUNT ==> OnlyStopFlags(a.stations[i], b.stations[i]))
      && (a.panel.Some? <==> b.panel.Some?)
  {
  }

  // ----- the match invariant

  predicate Scoring(s: MatchState) {
    s == AutoPeriod || s == PausePeriod || s == TeleopPeriod
  }

  predicate WinnerDecided(a: Arena) {
    && a.autoWinner != AllianceNone
    && (a.autoWinnerMode == ForceRed ==> a.autoWinner == AllianceRed)
    && (a.autoWinnerMode == ForceBlue ==> a.autoWinner == AllianceBlue)
  }

  /** Game data exists exactly in teleop and names the AUTO winner; the winner is decided, as the operator
      forced it if he did, from AUTO on; and while the field e-stop is active no match is in progress. */
  predicate MatchInvariant(a: Arena) {
    && a.gameData == (if a.matchState == TeleopPeriod then GameDataFor(a.autoWinner) else "")
    && (Scoring(a.matchState) ==> WinnerDecided(a))
    && (a.fieldEStopActive ==> !InProgress(a.matchState) && a.panel.Some? && a.panel.value.latched != StopOk)
  }

  lemma TransitionKeeps(settings: Settings, a: Arena, now: int, inp: TickInputs)
    requires MatchInvariant(a)
    ensures MatchInvariant(Advanced(settings, a, now, inp).arena)
  {
    if a.matchState == PostMatch {
      ClearEffect(settings, a, inp.teamTable);
    }
  }

  lemma FieldPollKeeps(a: Arena, pins: Pins, now: int)
    requires MatchInvariant(a)
    ensures MatchInvariant(PollFieldEStop(a, pins, now))
  {
  }

  lemma UpdateKeeps(settings: Settings, a: Arena, now: int, poll: int, inp: TickInputs)
    requires MatchInvariant(a)
    ensures MatchInvariant(Update(settings, a, now, poll, inp))
  {
    var adv := Advanced(settings, a, now, inp);
    var sent := AfterSending(adv, now, inp.failed);
    TransitionKeeps(settings, a, now, inp);
    FieldPollKeeps(sent, inp.pins, poll);
    OtherPollsKeep(settings, sent, poll, inp);
  }

  lemma ClearFieldEStopKeeps(a: Arena, first: Pins, second: Pins, at: int, done: int)
    requires MatchInvariant(a)
    ensures MatchInvariant(ClearFieldEStopCommand(a, first, second, at, done))
  {
  }

  /** Reloading a match leaves the field quiet: no game data, and PreMatch. */
  lemma ReloadsKeep(settings: Settings, a: Arena, table: TeamTable)
    requires MatchInvariant(a)
    ensures MatchInvariant(ResetMatch(a)) && MatchInvariant(ClearMatch(settings, a, table))
    ensures MatchInvariant(ResetField(settings, a, table))
  {
  }

  lemma SubstitutionKeeps(settings: Settings, a: Arena, ids: seq<int>, table: TeamTable)
    requires MatchInvariant(a) && |ids| == STATION_COUNT && SubstituteTeams(settings, a, ids, table).Ok?
    ensures MatchInvariant(SubstituteTeams(settings, a, ids, table).arena)
  {
  }

  lemma StepKeeps(settings: Settings, a: Arena, e: Event)
    requires MatchInvariant(a)
    ensures MatchInvariant(Step(settings, a, e))
  {
    match e.action
    case Tick(inp) => UpdateKeeps(settings, a, e.at, e.done, inp);
    case ClearFieldEStop(first, second) => ClearFieldEStopKeeps(a, first, second, e.at, e.done);
    case Reset => ReloadsKeep(settings, a, map[]);
    case ClearCommand(table) => ReloadsKeep(settings, a, table);
    case ResetFieldCommand(table) => ReloadsKeep(settings, a, table);
    case Substitute(ids, table) =>
      if |ids| == STATION_COUNT && SubstituteTeams(settings, a, ids, table).Ok? {
        SubstitutionKeeps(settings, a, ids, table);
      }
    case Connect(_, _) =>
    case Heard(_, _) =>
    case Disconnect(_, _) =>
    case Launch =>
    case StartupRequest =>
    case _ => OtherCommandsKeep(settings, a, e);
  }

  lemma OtherCommandsKeep(settings: Settings, a: Arena, e: Event)
    requires MatchInvariant(a)
    requires e.action.Start? || e.action.Abort? || e.action.SetMode? || e.action.ToggleBypass? || e.action.ToggleEStop?
             || e.action.BypassEmpty?
    ensures MatchInvariant(Step(settings, a, e))
  {
  }

  lemma {:induction false} MatchInvariantHolds(settings: Settings, arenas: seq<Arena>, events: seq<Event>, n: nat)
    requires Run(settings, arenas, events) && n <= |events|
    ensures MatchInvariant(arenas[n])
  {
    if n > 0 {
      MatchInvariantHolds(settings, arenas, events, n - 1);
      StepKeeps(settings, arenas[n - 1], events[n - 1]);
      assert arenas[n] == Step(settings, arenas[n - 1], events[n - 1]);
    }
  }

  // ----- who may move

  /** A packet carries the enable bit exactly when the period just entered is AUTO or teleop and the station has no
      e-stop, no bypass, and in AUTO no a-stop. */
  lemma EnabledExactlyWhen(settings: Settings, a: Arena, now: int, inp: TickInputs, i: StationIndex)
    requires PacketTo(settings, a, now, inp, i).Some?
    ensures var period := Advanced(settings, a, now, inp).arena.matchState;
      var s := a.stations[i];
      PacketTo(settings, a, now, inp, i).value.enabled <==>
        && (period == AutoPeriod || period == TeleopPeriod)
        && !s.eStop && !s.bypass && !(period == AutoPeriod && s.aStop)
  {
    TransitionFlags(settings, a, now, inp, i);
  }

  /** The transition changes no stop and no bypass, and says what the period calls for. */
  lemma TransitionFlags(settings: Settings, a: Arena, now: int, inp: TickInputs, i: StationIndex)
    ensures var adv := Advanced(settings, a, now, inp);
      && adv.enabled == (adv.arena.matchState == AutoPeriod || adv.arena.matchState == TeleopPeriod)
      && (adv.enabled ==> adv.auto == (adv.arena.matchState == AutoPeriod))
      && SameFlags(a.stations[i], adv.arena.stations[i])
  {
    if a.matchState == PostMatch {
      ClearKeepsFlags(settings, a, inp.teamTable, i);
    } else {
    }
  }

  predicate SameFlags(s: Station, t: Station) {
    s.eStop == t.eStop && s.aStop == t.aStop && s.bypass == t.bypass && s.eStopFault == t.eStopFault
  }

  lemma AssignTeamKeepsFlags(settings: Settings, s: Station, id: nat, table: TeamTable)
    ensures SameFlags(s, AssignTeam(settings, s, id, table))
  {
  }

  lemma AssignAllKeepsFlags(settings: Settings, a: Arena, ids: Lineup, table: TeamTable)
    ensures var b := AssignAll(settings, a, ids, table);
      b == a.(stations := b.stations) && forall i: StationIndex :: SameFlags(a.stations[i], b.stations[i])
  {
  }

  lemma LoadMatchAt(settings: Settings, a: Arena, m: Match, table: TeamTable, i: StationIndex)
    requires a.matchState == PreMatch
    ensures LoadMatch(settings, a, m, table).stations[i] == AssignTeam(settings, a.stations[i], m.teams[i], table)
  {
  }

  lemma BypassDoesNotSteerAssignment(settings: Settings, s: Station, bypass: bool, id: nat, table: TeamTable)
    ensures AssignTeam(settings, s.(bypass := bypass), id, table) ==
      AssignTeam(settings, s, id, table).(bypass := bypass)
  {
  }

  /** What clearing a match comes to: the same lineup assigned again to the same stations. */
  lemma ClearEffect(settings: Settings, a: Arena, table: TeamTable)
    ensures var b := ClearMatch(settings, a, table);
      b == a.(matchState := PreMatch, gameData := "", matchAborted := false,
              currentMatch := Match(Test, a.currentMatch.teams),
              stations := b.stations, requests := b.requests, cycles := b.cycles)
  {
  }

  lemma ClearAt(settings: Settings, a: Arena, table: TeamTable, i: StationIndex)
    ensures ClearMatch(settings, a, table).stations[i] ==
      AssignTeam(settings, a.stations[i], a.currentMatch.teams[i], table).(bypass := a.stations[i].bypass)
  {
    var ids := a.currentMatch.teams;
    var blank := CyclePorts(settings, ResetMatch(a));
    assert blank.stations[i] == a.stations[i].(bypass := false);
    LoadMatchAt(settings, blank, Match(Test, ids), table, i);
    BypassDoesNotSteerAssignment(settings, a.stations[i], false, ids[i], table);
  }

  lemma ClearKeepsFlags(settings: Settings, a: Arena, table: TeamTable, i: StationIndex)
    ensures ClearMatch(settings, a, table).matchState == PreMatch
    ensures SameFlags(a.stations[i], ClearMatch(settings, a, table).stations[i])
  {
    ClearEffect(settings, a, table);
    ClearAt(settings, a, table, i);
    AssignTeamKeepsFlags(settings, a.stations[i], a.currentMatch.teams[i], table);
  }

  // ----- the field e-stop

  /** The operator clears the field e-stop while both looks at the pins prove the button released. */
  predicate Acknowledges(a: Arena, e: Event) {
    && e.action.ClearFieldEStop? && a.panel.Some?
    && Wires(a.panel.value, e.action.first) == Released && Wires(a.panel.value, e.action.second) == Released
  }

  lemma ClearNeedsRelease(a: Arena, first: Pins, second: Pins, at: int, done: int)
    requires MatchInvariant(a) && a.fieldEStopActive
    requires Wires(a.panel.value, first) != Released || Wires(a.panel.value, second) != Released
    ensures ClearFieldEStopCommand(a, first, second, at, done).fieldEStopActive
  {
    var p := a.panel.value;
    OkMeansReleased(p, first, at);
  }

  lemma UpdateHoldsFieldEStop(settings: Settings, a: Arena, now: int, poll: int, inp: TickInputs)
    requires a.fieldEStopActive || PinsStop(a, inp.pins)
    ensures Update(settings, a, now, poll, inp).fieldEStopActive
  {
    var sent := AfterSending(Advanced(settings, a, now, inp), now, inp.failed);
    TransitionKeepsPanel(settings, a, now, inp);
    FieldPollEffect(sent, inp.pins, poll);
    OtherPollsKeep(settings, sent, poll, inp);
  }

  lemma TransitionKeepsPanel(settings: Settings, a: Arena, now: int, inp: TickInputs)
    ensures var b := Advanced(settings, a, now, inp).arena;
      b.fieldEStopActive == a.fieldEStopActive && b.panel == a.panel
  {
  }

  lemma StepHoldsFieldEStop(settings: Settings, a: Arena, e: Event)
    requires MatchInvariant(a) && a.fieldEStopActive && !Acknowledges(a, e)
    ensures Step(settings, a, e).fieldEStopActive
  {
    match e.action
    case Tick(inp) => UpdateHoldsFieldEStop(settings, a, e.at, e.done, inp);
    case ClearFieldEStop(first, second) => ClearNeedsRelease(a, first, second, e.at, e.done);
    case _ =>
  }

  /** Once a tick has seen the field e-stop's wires prove anything but a released button, no match is in
      progress at the end of that tick or at any later moment, no match starts, and no packet enables a robot,
      until the operator clears it with the button released. */
  lemma {:induction false} FieldEStopStopsTheField(
    settings: Settings, arenas: seq<Arena>, events: seq<Event>, k: nat, n: nat)
    requires Run(settings, arenas, events) && k < n <= |events|
    requires events[k].action.Tick? && PinsStop(arenas[k], events[k].action.inputs.pins)
    requires forall j :: k < j < n ==> !Acknowledges(arenas[j], events[j])
    ensures arenas[n].fieldEStopActive && !InProgress(arenas[n].matchState)
    ensures n < |events| && events[n].action.Tick? ==>
      forall i: StationIndex :: var p := PacketTo(settings, arenas[n], events[n].at, events[n].action.inputs, i);
        p.Some? ==> !p.value.enabled
  {
    var m := n - 1;
    MatchInvariantHolds(settings, arenas, events, m);
    MatchInvariantHolds(settings, arenas, events, n);
    assert arenas[n] == Step(settings, arenas[m], events[m]);
    if m == k {
      UpdateHoldsFieldEStop(settings, arenas[k], events[k].at, events[k].done, events[k].action.inputs);
    } else {
      FieldEStopStopsTheField(settings, arenas, events, k, m);
      StepHoldsFieldEStop(settings, arenas[m], events[m]);
    }
    if n < |events| && events[n].action.Tick? {
    }
  }

  // ----- a stopped robot stays stopped

  /** Only an operator takes an e-stop back while the match runs. */
  predicate OperatorUnstops(e: Event, i: StationIndex) {
    e.action == ToggleEStop(i) || e.action.ClearFieldEStop?
  }

  /** Polling while a match runs takes no latched stop back, unless it ends the match. */
  lemma PollsKeepStops(settings: Settings, a: Arena, poll: int, inp: TickInputs, i: StationIndex)
    requires Running(PollStops(settings, a, poll, inp).matchState)
    ensures var b := PollStops(settings, a, poll, inp);
      && (a.stations[i].eStop && Running(a.matchState) && poll > a.matchStart ==> b.stations[i].eStop)
      && (a.stations[i].aStop && b.matchState == AutoPeriod ==> b.stations[i].aStop)
  {
    var polled := PollFieldEStop(a, inp.pins, poll);
    FieldPollEffect(a, inp.pins, poll);
    OtherPollsKeep(settings, a, poll, inp);
    assert polled.matchState == a.matchState && polled.matchStart == a.matchStart;
    assert polled.stations[i] == a.stations[i];
  }

  lemma SendingKeepsStation(adv: Advance, now: int, failed: SixFlags, i: StationIndex)
    ensures var b := AfterSending(adv, now, failed);
      && b.matchState == adv.arena.matchState && b.matchStart == adv.arena.matchStart
      && b.stations[i] == adv.arena.stations[i].(conn := b.stations[i].conn)
  {
    SentStation(adv.arena, adv.arena.stations[i], adv.auto, adv.enabled, now, failed[i]);
  }

  lemma SentStation(a: Arena, s: Station, auto: bool, enabled: bool, now: int, failed: bool)
    ensures SendTo(a, s, auto, enabled, now, failed) == s.(conn := SendTo(a, s, auto, enabled, now, failed).conn)
  {
  }

  lemma UpdateKeepsStops(settings: Settings, a: Arena, now: int, poll: int, inp: TickInputs, i: StationIndex)
    requires Running(a.matchState) && poll > a.matchStart && Running(Update(settings, a, now, poll, inp).matchState)
    ensures var b := Update(settings, a, now, poll, inp);
      && (a.stations[i].eStop ==> b.stations[i].eStop)
      && (a.stations[i].aStop && b.matchState == AutoPeriod ==> b.stations[i].aStop)
  {
    var adv := Advanced(settings, a, now, inp);
    var sent := AfterSending(adv, now, inp.failed);
    RunningTransition(settings, a, now, inp);
    SendingKeepsStation(adv, now, inp.failed, i);
    PollsKeepStops(settings, sent, poll, inp, i);
    PollsKeepMatch(settings, sent, poll, inp);
  }

  lemma PollsKeepMatch(settings: Settings, a: Arena, poll: int, inp: TickInputs)
    ensures var b := PollStops(settings, a, poll, inp);
      && (b.matchState == a.matchState || (InProgress(a.matchState) && b.matchState == PostMatch))
      && b.autoWinner == a.autoWinner && b.autoWinnerMode == a.autoWinnerMode && b.matchStart == a.matchStart
  {
    FieldPollEffect(a, inp.pins, poll);
    OtherPollsKeep(settings, a, poll, inp);
  }

  lemma RunningTransition(settings: Settings, a: Arena, now: int, inp: TickInputs)
    requires Running(a.matchState)
    ensures var b := Advanced(settings, a, now, inp).arena;
      b.stations == a.stations && b.matchStart == a.matchStart && (Running(b.matchState) || b.matchState == PostMatch)
      && (b.matchState == AutoPeriod ==> a.matchState in {WarmupPeriod, AutoPeriod})
  {
  }

  /** What a command may do while a match is in progress: nothing but end it, move teams and connections, and
      toggle a stop or a bypass. */
  predicate MidMatch(a: Arena, b: Arena, e: Event) {
    && b.autoWinner == a.autoWinner && b.autoWinnerMode == a.autoWinnerMode && b.matchStart == a.matchStart
    && (b.matchState == a.matchState || (e.action.Abort? && b.matchState == PostMatch))
    && forall i: StationIndex :: b.stations[i].aStop == a.stations[i].aStop
         && (!OperatorUnstops(e, i) ==> b.stations[i].eStop == a.stations[i].eStop)
  }

  /** While a match is in progress it cannot be started again, reset or cleared, nor the AUTO winner's mode
      changed. */
  lemma RefusedMidMatch(settings: Settings, a: Arena, e: Event)
    requires InProgress(a.matchState)
    requires e.action.Start? || e.action.Reset? || e.action.ClearCommand? || e.action.ResetFieldCommand?
             || e.action.SetMode?
    ensures Step(settings, a, e) == a
  {
  }

  lemma StopsMidMatch(settings: Settings, a: Arena, e: Event)
    requires InProgress(a.matchState)
    ensures e.action.Abort? ==> MidMatch(a, Step(settings, a, e), e)
    ensures e.action.ClearFieldEStop? ==> MidMatch(a, Step(settings, a, e), e)
  {
  }

  lemma TogglesMidMatch(settings: Settings, a: Arena, e: Event)
    ensures e.action.ToggleBypass? || e.action.ToggleEStop? || e.action.BypassEmpty? ==>
      MidMatch(a, Step(settings, a, e), e)
  {
  }

  lemma CommandMidMatch(settings: Settings, a: Arena, e: Event)
    requires InProgress(a.matchState) && !e.action.Tick?
    ensures MidMatch(a, Step(settings, a, e), e)
  {
    match e.action
    case Connect(_, _) =>
    case Heard(_, _) =>
    case Disconnect(_, _) =>
    case Substitute(ids, table) =>
      if |ids| == STATION_COUNT && SubstituteTeams(settings, a, ids, table).Ok? {
        SubstitutionMidMatch(settings, a, e, ids, table);
      }
    case Abort => StopsMidMatch(settings, a, e);
    case ClearFieldEStop(_, _) => StopsMidMatch(settings, a, e);
    case ToggleBypass(_) => TogglesMidMatch(settings, a, e);
    case ToggleEStop(_) => TogglesMidMatch(settings, a, e);
    case BypassEmpty => TogglesMidMatch(settings, a, e);
    case Launch =>
    case StartupRequest =>
    case _ => RefusedMidMatch(settings, a, e);
  }

  lemma SubstitutionMidMatch(settings: Settings, a: Arena, e: Event, ids: seq<int>, table: TeamTable)
    requires |ids| == STATION_COUNT && SubstituteTeams(settings, a, ids, table).Ok? && e.action.Substitute?
    ensures MidMatch(a, SubstituteTeams(settings, a, ids, table).arena, e)
  {
    ValidLineup(ids, |ids|, table);
    AssignAllKeepsFlags(settings, a, ids, table);
  }

  lemma StepKeepsStops(settings: Settings, a: Arena, e: Event, i: StationIndex)
    requires Running(a.matchState) && Running(Step(settings, a, e).matchState) && e.done > a.matchStart
    requires !OperatorUnstops(e, i)
    ensures a.stations[i].eStop ==> Step(settings, a, e).stations[i].eStop
    ensures a.stations[i].aStop && a.matchState == AutoPeriod && Step(settings, a, e).matchState == AutoPeriod ==>
      Step(settings, a, e).stations[i].aStop
  {
    if e.action.Tick? {
      UpdateKeepsStops(settings, a, e.at, e.done, e.action.inputs, i);
    } else {
      CommandMidMatch(settings, a, e);
    }
  }

  lemma {:induction false} EStopHeld(
    settings: Settings, arenas: seq<Arena>, events: seq<Event>, i: StationIndex, k: nat, n: nat)
    requires Run(settings, arenas, events) && k <= n <= |events| && arenas[k].stations[i].eStop
    requires forall j :: k <= j <= n ==> Running(arenas[j].matchState)
    requires forall j :: k <= j < n ==> events[j].done > arenas[j].matchStart && !OperatorUnstops(events[j], i)
    ensures arenas[n].stations[i].eStop
    decreases n - k
  {
    if k < n {
      var m := n - 1;
      EStopHeld(settings, arenas, events, i, k, m);
      var a, e := arenas[m], events[m];
      assert arenas[n] == Step(settings, a, e);
      assert e.done > a.matchStart && !OperatorUnstops(e, i);
      StepKeepsStops(settings, a, e, i);
    }
  }

  /** While the match keeps running, nothing but an operator clears a station's e-stop: not a released reading
      of any panel, of the PLC or of the field button. Every packet to it until then disables the robot. */
  lemma StoppedRobotStaysDisabled(
    settings: Settings, arenas: seq<Arena>, events: seq<Event>, i: StationIndex, k: nat, n: nat)
    requires Run(settings, arenas, events) && k <= n <= |events| && arenas[k].stations[i].eStop
    requires forall j :: k <= j <= n ==> Running(arenas[j].matchState)
    requires forall j :: k <= j < n ==> events[j].done > arenas[j].matchStart && !OperatorUnstops(events[j], i)
    ensures arenas[n].stations[i].eStop
    ensures n < |events| && events[n].action.Tick? ==>
      var p := PacketTo(settings, arenas[n], events[n].at, events[n].action.inputs, i);
      p.Some? ==> !p.value.enabled
  {
    EStopHeld(settings, arenas, events, i, k, n);
    if n < |events| && events[n].action.Tick? {
    }
  }

  lemma {:induction false} AStopHeld(
    settings: Settings, arenas: seq<Arena>, events: seq<Event>, i: StationIndex, k: nat, n: nat)
    requires Run(settings, arenas, events) && k <= n <= |events| && arenas[k].stations[i].aStop
    requires forall j :: k <= j <= n ==> arenas[j].matchState == AutoPeriod
    ensures arenas[n].stations[i].aStop
    decreases n - k
  {
    if k < n {
      var m := n - 1;
      AStopHeld(settings, arenas, events, i, k, m);
      var a, e := arenas[m], events[m];
      assert arenas[n] == Step(settings, a, e);
      AutoKeepsAStop(settings, a, e, i);
    }
  }

  /** An a-stop lasts to the end of AUTO: no reading and no operator takes it back, and every packet sent in AUTO
      disables the robot. */
  lemma AutoStoppedRobotStaysDisabled(
    settings: Settings, arenas: seq<Arena>, events: seq<Event>, i: StationIndex, k: nat, n: nat)
    requires Run(settings, arenas, events) && k <= n <= |events| && arenas[k].stations[i].aStop
    requires forall j :: k <= j <= n ==> arenas[j].matchState == AutoPeriod
    ensures arenas[n].stations[i].aStop
    ensures n < |events| && events[n].action.Tick? ==>
      var inp := events[n].action.inputs;
      var p := PacketTo(settings, arenas[n], events[n].at, inp, i);
      p.Some? && p.value.enabled ==> Advanced(settings, arenas[n], events[n].at, inp).arena.matchState != AutoPeriod
  {
    AStopHeld(settings, arenas, events, i, k, n);
    if n < |events| && events[n].action.Tick? {
    }
  }

  lemma AutoKeepsAStop(settings: Settings, a: Arena, e: Event, i: StationIndex)
    requires a.matchState == AutoPeriod && Step(settings, a, e).matchState == AutoPeriod && a.stations[i].aStop
    ensures Step(settings, a, e).stations[i].aStop
  {
    if e.action.Tick? {
      var inp := e.action.inputs;
      var adv := Advanced(settings, a, e.at, inp);
      RunningTransition(settings, a, e.at, inp);
      SendingKeepsStation(adv, e.at, inp.failed, i);
      PollsKeepStops(settings, AfterSending(adv, e.at, inp.failed), e.done, inp, i);
    } else {
      CommandMidMatch(settings, a, e);
    }
  }

  // ----- the AUTO winner

  predicate SameWinner(a: Arena, b: Arena) {
    b.autoWinner == a.autoWinner && b.autoWinnerMode == a.autoWinnerMode
  }

  lemma {:induction false} WinnerKept(arenas: seq<Arena>, k: nat, n: nat)
    requires k <= n < |arenas| && forall m :: k <= m < n ==> SameWinner(arenas[m], arenas[m + 1])
    ensures SameWinner(arenas[k], arenas[n])
    decreases n - k
  {
    if k < n {
      WinnerKept(arenas, k, n - 1);
      assert SameWinner(arenas[n - 1], arenas[n - 1 + 1]);
    }
  }

  /** The winner and the mode that decided it do not change from the start of AUTO to the end of teleop. */
  lemma WinnerFixedThroughMatch(settings: Settings, arenas: seq<Arena>, events: seq<Event>, k: nat, n: nat)
    requires Run(settings, arenas, events) && k <= n <= |events|
    requires forall j :: k <= j <= n ==> Scoring(arenas[j].matchState)
    ensures arenas[n].autoWinner == arenas[k].autoWinner && arenas[n].autoWinnerMode == arenas[k].autoWinnerMode
    ensures WinnerDecided(arenas[n])
    ensures arenas[n].gameData == if arenas[n].matchState == TeleopPeriod then GameDataFor(arenas[k].autoWinner) else ""
  {
    forall m | k <= m < n ensures SameWinner(arenas[m], arenas[m + 1]) {
      RunKeepsWinner(settings, arenas, events, m);
    }
    WinnerKept(arenas, k, n);
    MatchInvariantHolds(settings, arenas, events, n);
  }

  lemma RunKeepsWinner(settings: Settings, arenas: seq<Arena>, events: seq<Event>, k: nat)
    requires Run(settings, arenas, events) && k < |events| && Scoring(arenas[k].matchState)
    ensures SameWinner(arenas[k], arenas[k + 1])
  {
    ScoringKeepsWinner(settings, arenas[k], events[k]);
    assert arenas[k + 1] == Step(settings, arenas[k], events[k]);
  }

  lemma ScoringKeepsWinner(settings: Settings, a: Arena, e: Event)
    requires Scoring(a.matchState)
    ensures SameWinner(a, Step(settings, a, e))
  {
    if e.action.Tick? {
      UpdateKeepsWinner(settings, a, e.at, e.done, e.action.inputs);
    } else {
      CommandMidMatch(settings, a, e);
    }
  }

  lemma UpdateKeepsWinner(settings: Settings, a: Arena, now: int, poll: int, inp: TickInputs)
    requires Scoring(a.matchState)
    ensures SameWinner(a, Update(settings, a, now, poll, inp))
  {
    var sent := AfterSending(Advanced(settings, a, now, inp), now, inp.failed);
    ScoringTransition(settings, a, now, inp);
    PollsKeepMatch(settings, sent, poll, inp);
  }

  lemma ScoringTransition(settings: Settings, a: Arena, now: int, inp: TickInputs)
    requires Scoring(a.matchState)
    ensures SameWinner(a, Advanced(settings, a, now, inp).arena)
  {
  }
}

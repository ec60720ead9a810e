/** When a match may start: what the checks amount to, and what a start proves about the a-stops. */
module ArenaStart {
  import opened Options
  import opened TeamNetwork
  import opened FieldEStop
  import opened ArenaState
  import opened ArenaSafety
  import ArenaLineup

  // ----- the checks

  predicate Ready(s: Station) {
    && s.eStopFault == FaultNone && !s.eStop && s.aStopReset
    && (s.bypass || (s.conn.Some? && s.conn.value.robotLinked))
  }

  lemma {:induction false} ReadyMeansAll(ss: Stations, n: Count)
    ensures StationsReady(ss, n).None? <==> forall i :: 0 <= i < n ==> Ready(ss[i])
  {
    if n > 0 {
      ReadyMeansAll(ss, n - 1);
    }
  }

  /** A match starts exactly when the field is in PreMatch, the field e-stop is neither faulted nor active, the PLC,
      if there is one, is healthy and sees no field stop, and every station is ready: no fault, no e-stop, a-stop
      reset, and a linked robot or a bypass. */
  lemma StartsExactlyWhenReady(settings: Settings, a: Arena, plc: PlcInputs)
    ensures WhyNotStart(settings, a, plc).None? <==>
      && a.matchState == PreMatch && a.fieldEStopFault == FaultNone && !a.fieldEStopActive
      && (forall i :: 0 <= i < STATION_COUNT ==> Ready(a.stations[i]))
      && (settings.plcEnabled ==> plc.healthy && !plc.fieldEStop && plc.armorBlocksConnected)
  {
    ReadyMeansAll(a.stations, |a.stations|);
  }

  // ----- where a reset a-stop comes from

  /** This update's inputs include a released a-stop reading for the station. */
  ghost predicate ReadsReleased(settings: Settings, inp: TickInputs, i: StationIndex) {
    || (exists k :: 0 <= k < |inp.panelInputs| && InputReleases(inp.panelInputs[k], i))
    || (settings.plcEnabled && !inp.plc.aStops[i])
  }

  predicate InputReleases(input: PanelInput, i: StationIndex) {
    input.isAStop && input.state != StopActive && (input.target == AllStations || input.target == OneStation(i))
  }

  /** Station i's a-stop counts as reset in b and did not in a. */
  predicate NewlyReset(a: Arena, b: Arena, i: StationIndex) {
    b.stations[i].aStopReset && !a.stations[i].aStopReset
  }

  lemma StationResets(a: Arena, k: StationIndex, input: PanelInput, now: int, i: StationIndex)
    ensures NewlyReset(a, HandleStation(a, k, input, now), i) ==> input.isAStop && input.state != StopActive
  {
  }

  lemma {:induction false} StationsReset(a: Arena, input: PanelInput, n: Count, now: int, i: StationIndex)
    ensures NewlyReset(a, HandleStations(a, input, n, now), i) ==> input.isAStop && input.state != StopActive
  {
    if n > 0 {
      StationsReset(a, input, n - 1, now, i);
      StationResets(HandleStations(a, input, n - 1, now), n - 1, input, now, i);
    }
  }

  lemma InputResets(a: Arena, input: PanelInput, now: int, i: StationIndex)
    ensures NewlyReset(a, HandleInput(a, input, now), i) ==> InputReleases(input, i)
  {
    match input.target
    case AllStations => StationsReset(a, input, |a.stations|, now, i);
    case OneStation(k) =>
  }

  lemma {:induction false} InputsReset(a: Arena, inputs: seq<PanelInput>, now: int, i: StationIndex)
    ensures NewlyReset(a, HandleInputs(a, inputs, now), i) ==>
      exists k :: 0 <= k < |inputs| && InputReleases(inputs[k], i)
    decreases |inputs|
  {
    if inputs != [] {
      var n := |inputs| - 1;
      var b := HandleInputs(a, inputs[..n], now);
      InputsReset(a, inputs[..n], now, i);
      InputResets(b, inputs[n], now, i);
      if NewlyReset(a, b, i) {
        var k :| 0 <= k < n && InputReleases(inputs[..n][k], i);
        assert InputReleases(inputs[k], i);
      }
    }
  }

  lemma {:induction false} PlcResets(a: Arena, plc: PlcInputs, n: Count, now: int, i: StationIndex)
    ensures NewlyReset(a, HandlePlcStations(a, plc, n, now), i) ==> !plc.aStops[i]
  {
    if n > 0 {
      PlcResets(a, plc, n - 1, now, i);
      var b := HandlePlcStations(a, plc, n - 1, now);
      PlcStationResets(b, n - 1, plc.eStops[n - 1], plc.aStops[n - 1], now, i);
    }
  }

  lemma PlcStationResets(a: Arena, k: StationIndex, eStop: bool, aStop: bool, now: int, i: StationIndex)
    ensures NewlyReset(a, HandleAStop(HandleEStop(a, k, eStop, now), k, aStop), i) ==> k == i && !aStop
  {
  }

  lemma FieldPollResetsNothing(a: Arena, pins: Pins, now: int, i: StationIndex)
    ensures PollFieldEStop(a, pins, now).stations[i].aStopReset == a.stations[i].aStopReset
  {
  }

  lemma PollsReset(settings: Settings, a: Arena, poll: int, inp: TickInputs, i: StationIndex)
    ensures NewlyReset(a, PollStops(settings, a, poll, inp), i) ==> ReadsReleased(settings, inp, i)
  {
    var b := PollFieldEStop(a, inp.pins, poll);
    var c := HandleInputs(b, inp.panelInputs, poll);
    FieldPollResetsNothing(a, inp.pins, poll, i);
    InputsReset(b, inp.panelInputs, poll, i);
    var d := if inp.plc.fieldEStop && !c.matchAborted then AbortForStop(c, poll) else c;
    PlcResets(d, inp.plc, |inp.plc.eStops|, poll, i);
  }

  // ----- every match start

  /** The event assigns teams to the stations afresh. */
  predicate Reassigns(settings: Settings, a: Arena, e: Event) {
    match e.action
    case Tick(_) => a.matchState == PostMatch && e.at - a.postMatchStart >= POST_MATCH_DELAY
    case ClearCommand(_) => a.matchState == PostMatch
    case ResetFieldCommand(_) => !InProgress(a.matchState)
    case Substitute(ids, table) => |ids| == STATION_COUNT && SubstituteTeams(settings, a, ids, table).Ok?
    case _ => false
  }

  lemma AssignmentUnresets(settings: Settings, s: Station, id: nat, table: TeamTable)
    requires settings.plcEnabled
    ensures !AssignTeam(settings, s, id, table).aStopReset
  {
  }

  lemma ClearUnresets(settings: Settings, a: Arena, table: TeamTable, i: StationIndex)
    requires settings.plcEnabled
    ensures !ClearMatch(settings, a, table).stations[i].aStopReset
  {
    ClearAt(settings, a, table, i);
    AssignmentUnresets(settings, a.stations[i], a.currentMatch.teams[i], table);
  }

  lemma ResetFieldUnresets(settings: Settings, a: Arena, table: TeamTable, i: StationIndex)
    requires settings.plcEnabled
    ensures !ResetField(settings, a, table).stations[i].aStopReset
  {
    var emptied := ArenaLineup.Emptied(a);
    LoadMatchAt(settings, emptied, Match(Test, [0, 0, 0, 0, 0, 0]), table, i);
    AssignmentUnresets(settings, emptied.stations[i], 0, table);
  }

  lemma SubstitutionUnresets(settings: Settings, a: Arena, ids: seq<int>, table: TeamTable, i: StationIndex)
    requires settings.plcEnabled && |ids| == STATION_COUNT && SubstituteTeams(settings, a, ids, table).Ok?
    ensures !SubstituteTeams(settings, a, ids, table).arena.stations[i].aStopReset
  {
    ValidLineup(ids, |ids|, table);
    AssignmentUnresets(settings, a.stations[i], ids[i], table);
  }

  lemma UpdateResets(settings: Settings, a: Arena, now: int, poll: int, inp: TickInputs, i: StationIndex)
    requires settings.plcEnabled && Update(settings, a, now, poll, inp).stations[i].aStopReset
    ensures ReadsReleased(settings, inp, i) ||
      (a.stations[i].aStopReset && !(a.matchState == PostMatch && now - a.postMatchStart >= POST_MATCH_DELAY))
  {
    var adv := Advanced(settings, a, now, inp);
    if a.matchState == PostMatch && now - a.postMatchStart >= POST_MATCH_DELAY {
      ClearUnresets(settings, a, inp.teamTable, i);
    } else {
      TransitionResetsNothing(settings, a, now, inp);
    }
    SendingKeepsStation(adv, now, inp.failed, i);
    PollsReset(settings, AfterSending(adv, now, inp.failed), poll, inp, i);
  }

  lemma TransitionResetsNothing(settings: Settings, a: Arena, now: int, inp: TickInputs)
    requires a.matchState != PostMatch || now - a.postMatchStart < POST_MATCH_DELAY
    ensures Advanced(settings, a, now, inp).arena.stations == a.stations
  {
  }

  lemma ConnectionsResetNothing(settings: Settings, a: Arena, e: Event, i: StationIndex)
    requires e.action.Connect? || e.action.Disconnect? || e.action.Heard?
    ensures Step(settings, a, e).stations[i].aStopReset == a.stations[i].aStopReset
  {
  }

  lemma OtherCommandsResetNothing(settings: Settings, a: Arena, e: Event, i: StationIndex)
    requires !e.action.Tick? && !Reassigns(settings, a, e)
    ensures Step(settings, a, e).stations[i].aStopReset == a.stations[i].aStopReset
  {
    match e.action
    case Connect(_, _) => ConnectionsResetNothing(settings, a, e, i);
    case Disconnect(_, _) => ConnectionsResetNothing(settings, a, e, i);
    case Heard(_, _) => ConnectionsResetNothing(settings, a, e, i);
    case ClearFieldEStop(_, _) => ClearingResetsNothing(settings, a, e, i);
    case _ =>
  }

  lemma ClearingResetsNothing(settings: Settings, a: Arena, e: Event, i: StationIndex)
    requires e.action.ClearFieldEStop?
    ensures Step(settings, a, e).stations[i].aStopReset == a.stations[i].aStopReset
  {
  }

  lemma StepResets(settings: Settings, a: Arena, e: Event, i: StationIndex)
    requires settings.plcEnabled && Step(settings, a, e).stations[i].aStopReset
    ensures (e.action.Tick? && ReadsReleased(settings, e.action.inputs, i))
         || (a.stations[i].aStopReset && !Reassigns(settings, a, e))
  {
    match e.action
    case Tick(inp) => UpdateResets(settings, a, e.at, e.done, inp, i);
    case ClearCommand(table) => ClearUnresets(settings, a, table, i);
    case ResetFieldCommand(table) => ResetFieldUnresets(settings, a, table, i);
    case Substitute(ids, table) =>
      if Reassigns(settings, a, e) {
        SubstitutionUnresets(settings, a, ids, table, i);
      }
    case _ => OtherCommandsResetNothing(settings, a, e, i);
  }

  /** If station i's a-stop is reset after event m, the event read it as released, or it was reset before and the
      event assigned no teams. */
  ghost predicate ResetLink(settings: Settings, arenas: seq<Arena>, events: seq<Event>, m: nat, i: StationIndex)
    requires m < |events| && |arenas| == |events| + 1
  {
    arenas[m + 1].stations[i].aStopReset ==>
      ReadsAt(settings, events[m], i) || (arenas[m].stations[i].aStopReset && !Reassigns(settings, arenas[m], events[m]))
  }

  ghost predicate ReadsAt(settings: Settings, e: Event, i: StationIndex) {
    e.action.Tick? && ReadsReleased(settings, e.action.inputs, i)
  }

  lemma {:induction false} ResetWasRead(
    settings: Settings, arenas: seq<Arena>, events: seq<Event>, n: nat, i: StationIndex) returns (k: nat)
    requires |arenas| == |events| + 1 && n <= |events| && !arenas[0].stations[i].aStopReset
    requires forall m :: 0 <= m < |events| ==> ResetLink(settings, arenas, events, m, i)
    requires arenas[n].stations[i].aStopReset
    ensures k < n && ReadsAt(settings, events[k], i)
    ensures forall j :: k < j < n ==> !Reassigns(settings, arenas[j], events[j])
  {
    var m := n - 1;
    assert ResetLink(settings, arenas, events, m, i);
    if ReadsAt(settings, events[m], i) {
      k := m;
    } else {
      k := ResetWasRead(settings, arenas, events, m, i);
    }
  }

  lemma NoneResetAtFirst(settings: Settings, arenas: seq<Arena>, events: seq<Event>, i: StationIndex)
    requires Run(settings, arenas, events) && settings.plcEnabled
    ensures !arenas[0].stations[i].aStopReset
  {
  }

  lemma RunResets(settings: Settings, arenas: seq<Arena>, events: seq<Event>, m: nat, i: StationIndex)
    requires Run(settings, arenas, events) && m < |events| && settings.plcEnabled
    ensures ResetLink(settings, arenas, events, m, i)
  {
    assert arenas[m + 1] == Step(settings, arenas[m], events[m]);
    if arenas[m + 1].stations[i].aStopReset {
      StepResets(settings, arenas[m], events[m], i);
    }
  }

  /** Every match that starts with a PLC has had every station's a-stop read as released since the teams were last
      assigned, so a button left pressed from the match before keeps the next one from starting. */
  lemma StartProvesAStopsReset(
    settings: Settings, arenas: seq<Arena>, events: seq<Event>, n: nat, plc: PlcInputs, i: StationIndex)
    returns (k: nat)
    requires Run(settings, arenas, events) && n <= |events| && settings.plcEnabled
    requires WhyNotStart(settings, arenas[n], plc).None?
    ensures k < n && ReadsAt(settings, events[k], i)
    ensures forall j :: k < j < n ==> !Reassigns(settings, arenas[j], events[j])
  {
    StartsExactlyWhenReady(settings, arenas[n], plc);
    NoneResetAtFirst(settings, arenas, events, i);
    forall m: nat | m < |events| ensures ResetLink(settings, arenas, events, m, i) {
      RunResets(settings, arenas, events, m, i);
    }
    k := ResetWasRead(settings, arenas, events, n, i);
  }
}

/** What the operators' commands and the driver stations' doings bring about. */
module ArenaEffects {
  import opened Options
  import opened TeamNetwork
  import opened FieldEStop
  import opened MatchTiming
  import opened ArenaState
  import opened ArenaSafety
  import opened ArenaLineup

  // ----- clearing the field e-stop

  /** The panel's wires prove the button released; without a panel there is nothing to prove. */
  predicate ReadsOk(a: Arena, pins: Pins) {
    a.panel.Some? ==> Wires(a.panel.value, pins) == Released
  }

  /** In any run the command ends an active field stop, and all e-stops with it, if and only if both readings find the
      button released. */
  lemma ClearEndsFieldEStop(
    settings: Settings, arenas: seq<Arena>, events: seq<Event>, n: nat, first: Pins, second: Pins, at: int, done: int)
    requires Run(settings, arenas, events) && n <= |events| && arenas[n].fieldEStopActive
    ensures var a, b := arenas[n], ClearFieldEStopCommand(arenas[n], first, second, at, done);
      if ReadsOk(a, first) && ReadsOk(a, second)
      then !b.fieldEStopActive && b.panel.Some? && b.panel.value.latched == StopOk
           && forall i: StationIndex :: !b.stations[i].eStop
      else b.fieldEStopActive && b.stations == a.stations
  {
    MatchInvariantHolds(settings, arenas, events, n);
    ClearReads(arenas[n], first, second, at, done);
  }

  lemma ClearReads(a: Arena, first: Pins, second: Pins, at: int, done: int)
    requires MatchInvariant(a) && a.fieldEStopActive
    ensures var b := ClearFieldEStopCommand(a, first, second, at, done);
      if ReadsOk(a, first) && ReadsOk(a, second)
      then !b.fieldEStopActive && b.panel.Some? && b.panel.value.latched == StopOk
           && forall i: StationIndex :: !b.stations[i].eStop
      else b.fieldEStopActive && b.stations == a.stations
  {
    var p := a.panel.value;
    OkMeansReleased(p, first, at);
    OkMeansReleased(Clear(p, first, at), second, done);
  }

  // ----- driver stations

  /** A team's driver station that is answered gets the team's station, with a connection of its own that is not linked
      yet; any other changes nothing. */
  lemma RegisteredTeamsConnect(
    settings: Settings, arenas: seq<Arena>, events: seq<Event>, n: nat, teamId: int, reply: Reply, i: StationIndex)
    requires Run(settings, arenas, events) && n <= |events|
    ensures var a, b := arenas[n], ConnectTeam(arenas[n], teamId, reply);
      if TeamId(a.stations[i].team) != teamId || a.stations[i].team.None? || reply != Answered
      then b.stations[i] == a.stations[i]
      else b.stations[i].conn.Some? && var c := b.stations[i].conn.value;
        && c.serial == a.nextSerial && c.teamId == teamId && !c.robotLinked && c.lastPacket == None
        && !c.enabled && !c.auto && !c.eStop && !c.aStop
        && b.stations[i] == a.stations[i].(conn := Some(c))
  {
    StationLookupIsUnique(settings, arenas, events, n, teamId, i);
  }

  /** A report of a team's driver station counts, link and time, if the station has a connection; any other does not. */
  lemma ReportsCount(
    settings: Settings, arenas: seq<Arena>, events: seq<Event>, n: nat, teamId: int, linked: bool, now: int,
    i: StationIndex)
    requires Run(settings, arenas, events) && n <= |events|
    ensures var a, b := arenas[n], HearFrom(arenas[n], teamId, linked, now);
      if a.stations[i].conn.Some? && a.stations[i].team.Some? && TeamId(a.stations[i].team) == teamId
      then b.stations[i] ==
             a.stations[i].(conn := Some(a.stations[i].conn.value.(robotLinked := linked, lastPacket := Some(now))))
      else b.stations[i] == a.stations[i]
  {
    StationLookupIsUnique(settings, arenas, events, n, teamId, i);
  }

  /** The teardown of the connection at a station frees it. */
  lemma TeardownFrees(a: Arena, i: StationIndex, serial: nat)
    ensures var b := Teardown(a, i, serial);
      if Holds(a.stations[i], serial) then b == SetStation(a, i, a.stations[i].(conn := None)) else b == a
  {
  }

  // ----- port cycles

  /** Which stations' ports a clear hands over to be cycled: the occupied ones, if there are any. */
  predicate CyclesOccupied(settings: Settings, a: Arena, b: Arena) {
    if settings.networkSecurity && exists i: StationIndex :: a.stations[i].team.Some? then
      && |b.cycles| == |a.cycles| + 1 && b.cycles[..|a.cycles|] == a.cycles
      && var ports := b.cycles[|a.cycles|];
         |ports| == 6 && forall i: StationIndex :: ports[i] <==> a.stations[i].team.Some?
    else b.cycles == a.cycles
  }

  lemma ClearCyclesPorts(settings: Settings, a: Arena, table: TeamTable)
    ensures CyclesOccupied(settings, a, ClearMatch(settings, a, table))
  {
    var ports := Occupied(a);
    assert true in ports <==> exists i: StationIndex :: a.stations[i].team.Some? by {
      if i: StationIndex :| a.stations[i].team.Some? {
        assert ports[i];
      }
    }
    assert Occupied(ResetMatch(a)) == ports;
    ClearCycles(settings, a, table);
  }

  lemma ClearCycles(settings: Settings, a: Arena, table: TeamTable)
    ensures ClearMatch(settings, a, table).cycles == CyclePorts(settings, ResetMatch(a)).cycles
  {
  }

  /** The event clears the match. */
  predicate ClearsMatch(a: Arena, e: Event) {
    && a.matchState == PostMatch
    && (e.action.ClearCommand? || (e.action.Tick? && e.at - a.postMatchStart >= 5_000_000_000))
  }

  /** Ports are cycled when a match is cleared, and only then. */
  lemma OnlyClearsCyclePorts(settings: Settings, a: Arena, e: Event)
    ensures var b := Step(settings, a, e);
      if ClearsMatch(a, e) then CyclesOccupied(settings, a, b) else b.cycles == a.cycles
  {
    if e.action.Tick? {
      UpdateCycles(settings, a, e.at, e.done, e.action.inputs);
    } else if e.action.ClearCommand? {
      ClearCyclesPorts(settings, a, e.action.teamTable);
    } else {
      OtherCommandsKeepCycles(settings, a, e);
    }
  }

  lemma OtherCommandsKeepCycles(settings: Settings, a: Arena, e: Event)
    requires !e.action.Tick? && !e.action.ClearCommand?
    ensures Step(settings, a, e).cycles == a.cycles
  {
    match e.action
    case ResetFieldCommand(table) =>
    case Substitute(ids, table) =>
    case ClearFieldEStop(first, second) =>
    case Connect(_, _) =>
    case Disconnect(_, _) =>
    case Heard(_, _) =>
    case _ =>
  }

  lemma UpdateCycles(settings: Settings, a: Arena, now: int, poll: int, inp: TickInputs)
    ensures var b := Update(settings, a, now, poll, inp);
      if a.matchState == PostMatch && now - a.postMatchStart >= 5_000_000_000 then CyclesOccupied(settings, a, b)
      else b.cycles == a.cycles
  {
    var adv := Advanced(settings, a, now, inp);
    var sent := AfterSending(adv, now, inp.failed);
    TransitionCycles(settings, a, now, inp);
    FieldPollEffect(sent, inp.pins, poll);
    OtherPollsKeep(settings, sent, poll, inp);
  }

  lemma TransitionCycles(settings: Settings, a: Arena, now: int, inp: TickInputs)
    ensures var b := Advanced(settings, a, now, inp).arena;
      if a.matchState == PostMatch && now - a.postMatchStart >= 5_000_000_000 then CyclesOccupied(settings, a, b)
      else b.cycles == a.cycles
  {
    ClearCyclesPorts(settings, a, inp.teamTable);
  }

  // ----- starting, ending and resetting a match

  /** A start that nothing speaks against begins a match, and no other does. */
  lemma StartBegins(settings: Settings, a: Arena, e: Event, plc: PlcInputs)
    requires e.action == Start(plc)
    ensures Step(settings, a, e) ==
      if WhyNotStart(settings, a, plc).None? then a.(matchState := StartMatch) else a
  {
  }

  /** An abort ends any match in progress at that instant, and does nothing else. */
  lemma AbortEnds(settings: Settings, a: Arena, e: Event)
    requires e.action == Abort
    ensures var b := Step(settings, a, e);
      if a.matchState == PreMatch || a.matchState == PostMatch then b == a
      else b == a.(matchState := PostMatch, postMatchStart := e.at, gameData := "", matchAborted := true)
  {
  }

  /** A reset outside a match goes back before one: no bypass, no game data, and the lineup as it was. */
  lemma ResetGoesBack(settings: Settings, a: Arena, e: Event)
    requires e.action == Reset && !InProgress(a.matchState)
    ensures var b := Step(settings, a, e);
      && b == a.(matchState := PreMatch, matchAborted := false, gameData := "", stations := b.stations)
      && forall i: StationIndex :: b.stations[i] == a.stations[i].(bypass := false)
  {
  }

  /** A field reset outside a match leaves no team, no connection, no stop and no bypass at any station, and asks the
      network for an empty lineup. */
  lemma ResetFieldEmpties(settings: Settings, a: Arena, e: Event, table: TeamTable)
    requires e.action == ResetFieldCommand(table) && !InProgress(a.matchState)
    ensures var b := Step(settings, a, e);
      && b.matchState == PreMatch && b.gameData == "" && b.currentMatch == Match(Test, [0, 0, 0, 0, 0, 0])
      && (forall i: StationIndex ::
            b.stations[i] == Station(None, None, false, false, false, !settings.plcEnabled, FaultNone))
      && b.requests == a.requests + if settings.networkSecurity then [[None, None, None, None, None, None]] else []
  {
    var b := Step(settings, a, e);
    assert CurrentTeams(b) == [None, None, None, None, None, None];
    assert settings.networkSecurity ==> b.requests == a.requests + [CurrentTeams(b)];
  }

  /** The stations' own switches: a bypass or an e-stop is toggled, every empty station is bypassed. */
  lemma SwitchesAct(settings: Settings, a: Arena, e: Event, i: StationIndex)
    ensures var b := Step(settings, a, e);
      && (e.action.ToggleBypass? ==>
            b.stations[i] == if e.action.station == i then a.stations[i].(bypass := !a.stations[i].bypass) else a.stations[i])
      && (e.action.ToggleEStop? ==>
            b.stations[i] == if e.action.station == i then a.stations[i].(eStop := !a.stations[i].eStop) else a.stations[i])
      && (e.action.BypassEmpty? ==>
            b.stations[i] == a.stations[i].(bypass := a.stations[i].bypass || a.stations[i].team.None?))
      && (e.action.SetMode? ==>
            b == if InProgress(a.matchState) then a else a.(autoWinnerMode := e.action.mode))
  {
  }

  /** The winner of AUTO is the forced one, or either by the coin. */
  lemma WinnerChosen(settings: Settings, a: Arena, now: int, inp: TickInputs)
    requires a.matchState != AutoPeriod && Advanced(settings, a, now, inp).arena.matchState == AutoPeriod
    ensures Advanced(settings, a, now, inp).arena.autoWinner ==
      match a.autoWinnerMode
      case ForceRed => AllianceRed
      case ForceBlue => AllianceBlue
      case RandomWinner => if inp.coin then AllianceRed else AllianceBlue
  {
  }

  // ----- what is told when something is refused

  /** The station reported as not ready is the first that is not, and why is the first thing wrong with it. */
  lemma {:induction false} FirstUnready(ss: Stations, n: Count, i: StationIndex)
    requires i < n && (forall k: StationIndex :: k < i ==> StationReady(ss[k], k).None?)
    requires StationReady(ss[i], i).Some?
    ensures StationsReady(ss, n) == StationReady(ss[i], i)
  {
    if n == i + 1 {
      NoneUnready(ss, i);
    } else {
      FirstUnready(ss, n - 1, i);
    }
  }

  lemma {:induction false} NoneUnready(ss: Stations, n: Count)
    requires forall k: StationIndex :: k < n ==> StationReady(ss[k], k).None?
    ensures StationsReady(ss, n).None?
  {
    if n > 0 {
      NoneUnready(ss, n - 1);
    }
  }

  /** The reason given against a start is the first that holds, in this order. */
  lemma StartReason(settings: Settings, a: Arena, plc: PlcInputs)
    ensures var reason := WhyNotStart(settings, a, plc);
      && (a.matchState != PreMatch ==> reason == Some(NotPreMatch))
      && (a.matchState == PreMatch && a.fieldEStopFault != FaultNone ==> reason == Some(FieldEStopFaulted))
      && (a.matchState == PreMatch && a.fieldEStopFault == FaultNone && a.fieldEStopActive ==>
            reason == Some(FieldEStopIsActive))
      && (a.matchState == PreMatch && a.fieldEStopFault == FaultNone && !a.fieldEStopActive ==>
            if StationsReady(a.stations, 6).Some? then reason == StationsReady(a.stations, 6)
            else if !settings.plcEnabled then reason == None
            else if !plc.healthy then reason == Some(PlcUnhealthy)
            else if plc.fieldEStop then reason == Some(PlcFieldEStop)
            else if !plc.armorBlocksConnected then reason == Some(ArmorBlockMissing)
            else reason == None)
  {
  }

  /** What is wrong with a station, in the order it is looked for. */
  lemma StationReason(s: Station, i: nat)
    ensures var reason := StationReady(s, i);
      && (s.eStopFault != FaultNone ==> reason == Some(StationFaulted(i)))
      && (s.eStopFault == FaultNone && s.eStop ==> reason == Some(StationEStopped(i)))
      && (s.eStopFault == FaultNone && !s.eStop && !s.aStopReset ==> reason == Some(AStopNotReset(i)))
      && (s.eStopFault == FaultNone && !s.eStop && s.aStopReset ==>
            reason == if s.bypass || (s.conn.Some? && s.conn.value.robotLinked) then None else Some(RobotNotReady(i)))
  {
  }

  /** A lineup is refused for the first station that repeats a team or names one the table does not have. */
  lemma {:induction false} FirstBadTeam(ids: seq<int>, n: nat, table: TeamTable, i: nat)
    requires i < n <= |ids| && NamedOnce(ids, i, table) && ids[i] != 0 && (ids[i] !in table || ids[i] in ids[..i])
    ensures ValidateTeams(ids, n, table) ==
      Some(if ids[i] in ids[..i] then DuplicateTeam(ids[i]) else UnknownTeam(ids[i]))
  {
    if n == i + 1 {
      ValidLineup(ids, i, table);
    } else {
      FirstBadTeam(ids, n - 1, table, i);
    }
  }

  // ----- assigning teams

  /** A station is given its team with the key the table has for it; a connection of that team stays, and with it the
      station as it was; the a-stop has to be read as released again if there is a PLC to read it. */
  lemma AssignmentActs(settings: Settings, s: Station, id: nat, table: TeamTable)
    ensures var t := AssignTeam(settings, s, id, table);
      && t.aStopReset == !settings.plcEnabled
      && (if s.conn.Some? && s.conn.value.teamId == id then t.conn == s.conn && t.team == s.team
          else t.conn == None && t.team ==
                 if id == 0 then None else Some(Team(id, if id in table then table[id] else "")))
  {
  }

  // ----- what an update leaves behind

  /** A station that is sent its packet is shown what the packet says; its robot counts as linked from then on only
      if its driver station was heard in the last second, or the packet could not be written. */
  lemma PacketLeavesLink(a: Arena, auto: bool, enabled: bool, now: int, failed: SixFlags, i: StationIndex)
    requires a.stations[i].conn.Some?
    ensures var s, t := a.stations[i], SendPackets(a, auto, enabled, now, failed).stations[i];
      && t.conn.Some? && t == s.(conn := t.conn)
      && var c, d := s.conn.value, t.conn.value;
         && (d.robotLinked <==>
               c.robotLinked
               && (failed[i] || (c.lastPacket.Some? && now - c.lastPacket.value <= 1_000_000_000)))
         && d.auto == auto && d.eStop == s.eStop && d.aStop == s.aStop
         && (d.enabled <==> enabled && !s.eStop && !s.bypass && (auto ==> !s.aStop))
         && d.serial == c.serial && d.teamId == c.teamId && d.lastPacket == c.lastPacket
  {
  }

  /** The wiring fault on display is the one the field e-stop's panel has latched. */
  predicate FaultShown(a: Arena) {
    a.fieldEStopFault == if a.panel.Some? then a.panel.value.latchedFault else FaultNone
  }

  lemma UpdateShowsFault(settings: Settings, a: Arena, now: int, poll: int, inp: TickInputs)
    ensures FaultShown(Update(settings, a, now, poll, inp))
  {
    var sent := AfterSending(Advanced(settings, a, now, inp), now, inp.failed);
    OtherPollsKeep(settings, sent, poll, inp);
    FieldPollFault(sent, inp.pins, poll);
  }

  lemma ReloadsShowFault(settings: Settings, a: Arena, e: Event)
    requires FaultShown(a) && (e.action.ClearCommand? || e.action.ResetFieldCommand? || e.action.Substitute?)
    ensures FaultShown(Step(settings, a, e))
  {
    match e.action
    case ClearCommand(table) =>
    case ResetFieldCommand(table) =>
    case Substitute(ids, table) =>
  }

  lemma CommandsShowFault(settings: Settings, a: Arena, e: Event)
    requires FaultShown(a) && !e.action.Tick?
    ensures FaultShown(Step(settings, a, e))
  {
    match e.action
    case ClearCommand(_) => ReloadsShowFault(settings, a, e);
    case ResetFieldCommand(_) => ReloadsShowFault(settings, a, e);
    case Substitute(_, _) => ReloadsShowFault(settings, a, e);
    case ClearFieldEStop(first, second) =>
    case Connect(_, _) =>
    case Disconnect(_, _) =>
    case Heard(_, _) =>
    case _ =>
  }

  lemma {:induction false} FaultShownHolds(settings: Settings, arenas: seq<Arena>, events: seq<Event>, n: nat)
    requires Run(settings, arenas, events) && n <= |events|
    ensures FaultShown(arenas[n])
  {
    if n > 0 {
      FaultShownHolds(settings, arenas, events, n - 1);
      var a, e := arenas[n - 1], events[n - 1];
      assert arenas[n] == Step(settings, a, e);
      if e.action.Tick? {
        UpdateShowsFault(settings, a, e.at, e.done, e.action.inputs);
      } else {
        CommandsShowFault(settings, a, e);
      }
    }
  }

  /** In any run no match starts while the field e-stop's panel has a wiring fault latched. */
  lemma FaultsRefuseStart(settings: Settings, arenas: seq<Arena>, events: seq<Event>, n: nat, plc: PlcInputs)
    requires Run(settings, arenas, events) && n <= |events|
    requires arenas[n].panel.Some? && arenas[n].panel.value.latchedFault != FaultNone
    ensures WhyNotStart(settings, arenas[n], plc).Some?
  {
    FaultShownHolds(settings, arenas, events, n);
  }

  lemma FieldPollFault(a: Arena, pins: Pins, now: int)
    ensures FaultShown(PollFieldEStop(a, pins, now))
  {
  }

  /** The arena begins before a match, with empty stations that nothing stops, no winner and no field e-stop; with a PLC
      the a-stops have yet to be read as released. */
  lemma NewArenaIsEmpty(settings: Settings, panel: Option<Panel>, i: StationIndex)
    ensures var a := NewArena(settings, panel);
      && a.matchState == PreMatch && !a.matchAborted && a.gameData == "" && a.autoWinner == AllianceNone
      && !a.fieldEStopActive && a.fieldEStopFault == FaultNone && a.lastDsPacket == None && a.cycles == []
      && a.autoWinnerMode == RandomWinner && a.panel == panel
      && var s := a.stations[i];
         && s.team == None && s.conn == None && !s.eStop && !s.aStop && !s.bypass && s.eStopFault == FaultNone
         && (s.aStopReset <==> !settings.plcEnabled)
  {
  }
}

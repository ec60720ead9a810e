/** The arena as it runs (field/arena.go): the same operations on mutable fields, proved against ArenaState. */
module ArenaController {
  import opened Options
  import opened TeamNetwork
  import opened FieldEStop
  import opened MatchTiming
  import opened ArenaState

  /** The packet for a station, if a driver station is connected there. */
  function PacketFor(a: Arena, i: StationIndex, auto: bool, enabled: bool): Option<Packet> {
    if a.stations[i].conn.Some? then Some(BuildPacket(a, a.stations[i], auto, enabled)) else None
  }

  function Bypassed(s: Station): Station {
    if s.team == None then s.(bypass := true) else s
  }

  /** How many of the first n stations are empty and not yet bypassed. */
  function ToBypass(ss: Stations, n: Count): nat
  {
    if n == 0 then 0
    else ToBypass(ss, n - 1) + if ss[n - 1].team == None && !ss[n - 1].bypass then 1 else 0
  }

  function PacketIfDue(adv: Advance, now: int, i: StationIndex): Option<Packet> {
    if PacketsDue(adv, now) then PacketFor(adv.arena, i, adv.auto, adv.enabled) else None
  }

  lemma SendIsLocal(a: Arena, b: Arena, i: StationIndex, auto: bool, enabled: bool, now: int, failed: bool)
    requires a.gameData == b.gameData && a.stations[i] == b.stations[i]
    ensures SendTo(a, a.stations[i], auto, enabled, now, failed) == SendTo(b, b.stations[i], auto, enabled, now, failed)
    ensures PacketFor(a, i, auto, enabled) == PacketFor(b, i, auto, enabled)
  {
  }

  class Controller {
    const settings: Settings
    const panel: GpioFieldEStopPanel?
    var matchState: MatchState
    var stations: Stations
    var currentMatch: Match
    var matchStart: int
    var postMatchStart: int
    var lastDsPacket: Option<int>
    var gameData: string
    var autoWinner: Alliance
    var autoWinnerMode: AutoWinnerMode
    var matchAborted: bool
    var fieldEStopActive: bool
    var fieldEStopFault: FaultKind
    var nextSerial: nat
    var requests: seq<Teams>
    var cycles: seq<seq<bool>>
    var startup: Startup

    function PanelView(): Option<Panel>
      reads this, panel
    {
      if panel == null then None else Some(panel.View())
    }

    function View(): Arena
      reads this, panel
    {
      Arena(matchState, stations, currentMatch, matchStart, postMatchStart, lastDsPacket, gameData, autoWinner,
            autoWinnerMode, matchAborted, PanelView(), fieldEStopActive, fieldEStopFault, nextSerial, requests, cycles,
            startup)
    }

    constructor (settings: Settings, panel: GpioFieldEStopPanel?)
      ensures this.settings == settings && this.panel == panel
      ensures View() == NewArena(settings, if panel == null then None else Some(panel.View()))
    {
      this.settings := settings;
      this.panel := panel;
      matchState := PreMatch;
      stations := seq(STATION_COUNT, _ => Station(None, None, false, false, false, !settings.plcEnabled, FaultNone));
      currentMatch := Match(Test, [0, 0, 0, 0, 0, 0]);
      matchStart, postMatchStart, lastDsPacket := 0, 0, None;
      gameData := "";
      autoWinner, autoWinnerMode, matchAborted := AllianceNone, RandomWinner, false;
      fieldEStopActive, fieldEStopFault := false, FaultNone;
      nextSerial, requests, cycles, startup := 0, [], [], NotLaunched;
      new;
      SetupNetwork();
    }

    // ----- the network

    method ComputeCurrentTeams() returns (teams: Teams)
      ensures teams == CurrentTeams(View())
    {
      teams := [None, None, None, None, None, None];
      for i := 0 to STATION_COUNT
        invariant forall k :: 0 <= k < i ==> teams[k] == stations[k].team
      {
        teams := teams[i := stations[i].team];
      }
    }

    /** Hands the lineup to a background goroutine, if network security is on. */
    method SetupNetwork()
      modifies this
      ensures View() == ArenaState.SetupNetwork(settings, old(View()))
    {
      var teams := ComputeCurrentTeams();
      if settings.networkSecurity {
        requests := requests + [teams];
      }
    }

    method CycleStationPorts()
      modifies this
      ensures View() == CyclePorts(settings, old(View()))
    {
      if !settings.networkSecurity {
        return;
      }
      var occupied: SixFlags := [false, false, false, false, false, false];
      var any := false;
      for i := 0 to STATION_COUNT
        invariant forall k :: 0 <= k < i ==> occupied[k] == stations[k].team.Some?
        invariant forall k :: i <= k < STATION_COUNT ==> !occupied[k]
        invariant any <==> exists k :: 0 <= k < i && occupied[k]
      {
        if stations[i].team.Some? {
          occupied := occupied[i := true];
          any := true;
        }
      }
      assert occupied == Occupied(View());
      if any {
        cycles := cycles + [occupied];
      }
    }

    // ----- assigning teams

    method ValidateTeamIds(ids: seq<int>, table: TeamTable) returns (error: Option<Error>)
      ensures error == ValidateTeams(ids, |ids|, table)
    {
      var seen: set<int> := {};
      for i := 0 to |ids|
        invariant seen == (set k | 0 <= k < i && ids[k] != 0 :: ids[k])
        invariant ValidateTeams(ids, i, table) == None
      {
        var id := ids[i];
        if id != 0 {
          assert id in ids[..i] <==> id in seen by {
            assert forall k :: 0 <= k < i ==> ids[..i][k] == ids[k];
          }
          if id in seen {
            ValidateKeepsFirst(ids, i + 1, table);
            return Some(DuplicateTeam(id));
          }
          seen := seen + {id};
          if id !in table {
            ValidateKeepsFirst(ids, i + 1, table);
            return Some(UnknownTeam(id));
          }
        }
      }
      return None;
    }

    /** Loads a team into a station, dropping the connection of another team there. */
    method AssignTeamTo(id: nat, i: StationIndex, table: TeamTable)
      modifies this
      ensures View() == SetStation(old(View()), i, AssignTeam(settings, old(stations[i]), id, table))
    {
      var s := stations[i].(aStopReset := !settings.plcEnabled);
      if s.conn == None || s.conn.value.teamId != id {
        if s.conn.Some? {
          s := s.(conn := None, team := None);
        }
        if id == 0 {
          s := s.(team := None);
        } else {
          s := s.(team := Some(TeamRecord(table, id)));
        }
      }
      stations := stations[i := s];
    }

    method AssignTeams(ids: Lineup, table: TeamTable)
      modifies this
      ensures View() == AssignAll(settings, old(View()), ids, table)
    {
      for i := 0 to STATION_COUNT
        invariant View() == old(View()).(stations := stations)
        invariant forall k :: 0 <= k < i ==> stations[k] == AssignTeam(settings, old(stations[k]), ids[k], table)
        invariant forall k :: i <= k < STATION_COUNT ==> stations[k] == old(stations[k])
      {
        AssignTeamTo(ids[i], i, table);
      }
    }

    method LoadMatch(m: Match, table: TeamTable) returns (ok: bool)
      modifies this
      ensures ok <==> old(matchState) == PreMatch
      ensures View() == if ok then ArenaState.LoadMatch(settings, old(View()), m, table) else old(View())
    {
      if matchState != PreMatch {
        return false;
      }
      currentMatch := m;
      AssignTeams(m.teams, table);
      SetupNetwork();
      return true;
    }

    method SubstituteTeams(ids: seq<int>, table: TeamTable) returns (error: Option<Error>)
      requires |ids| == STATION_COUNT
      modifies this
      ensures var outcome := ArenaState.SubstituteTeams(settings, old(View()), ids, table);
        match outcome
        case Ok(arena) => error == None && View() == arena
        case Refused(e) => error == Some(e) && View() == old(View())
    {
      if currentMatch.matchType == Qualification {
        return Some(SubstitutionRefused);
      }
      error := ValidateTeamIds(ids, table);
      if error.Some? {
        return;
      }
      ValidLineup(ids, |ids|, table);
      AssignTeams(ids, table);
      currentMatch := currentMatch.(teams := ids);
      SetupNetwork();
    }

    // ----- starting a match

    method CheckStationsReady() returns (error: Option<Error>)
      ensures error == StationsReady(stations, STATION_COUNT)
    {
      for i := 0 to STATION_COUNT
        invariant StationsReady(stations, i) == None
      {
        var s := stations[i];
        if s.eStopFault != FaultNone {
          error := Some(StationFaulted(i));
        } else if s.eStop {
          error := Some(StationEStopped(i));
        } else if !s.aStopReset {
          error := Some(AStopNotReset(i));
        } else if !s.bypass && (s.conn == None || !s.conn.value.robotLinked) {
          error := Some(RobotNotReady(i));
        } else {
          error := None;
        }
        assert error == StationReady(s, i);
        if error.Some? {
          ReadyKeepsFirst(stations, i + 1);
          return;
        }
      }
      return None;
    }

    method CheckCanStartMatch(plc: PlcInputs) returns (error: Option<Error>)
      ensures error == WhyNotStart(settings, View(), plc)
    {
      if matchState != PreMatch {
        return Some(NotPreMatch);
      }
      if fieldEStopFault != FaultNone {
        return Some(FieldEStopFaulted);
      }
      if fieldEStopActive {
        return Some(FieldEStopIsActive);
      }
      error := CheckStationsReady();
      if error.Some? {
        return;
      }
      if settings.plcEnabled {
        if !plc.healthy {
          return Some(PlcUnhealthy);
        }
        if plc.fieldEStop {
          return Some(PlcFieldEStop);
        }
        if !plc.armorBlocksConnected {
          return Some(ArmorBlockMissing);
        }
      }
    }

    method Start(plc: PlcInputs) returns (error: Option<Error>)
      modifies this
      ensures error == WhyNotStart(settings, old(View()), plc)
      ensures View() == if error == None then old(View()).(matchState := StartMatch) else old(View())
    {
      error := CheckCanStartMatch(plc);
      if error == None {
        matchState := StartMatch;
      }
    }

    // ----- aborting, resetting and clearing

    method Abort(now: int) returns (ok: bool)
      modifies this
      ensures ok <==> InProgress(old(matchState))
      ensures View() == AbortForStop(old(View()), now)
    {
      if matchState == PreMatch || matchState == PostMatch {
        return false;
      }
      matchState := PostMatch;
      postMatchStart := now;
      gameData := "";
      matchAborted := true;
      return true;
    }

    method Reset() returns (ok: bool)
      modifies this
      ensures ok <==> !InProgress(old(matchState))
      ensures View() == if ok then ResetMatch(old(View())) else old(View())
    {
      if matchState != PostMatch && matchState != PreMatch {
        return false;
      }
      matchState := PreMatch;
      matchAborted := false;
      gameData := "";
      ClearBypasses();
      return true;
    }

    method ClearBypasses()
      modifies this`stations
      ensures stations == seq(STATION_COUNT, i requires 0 <= i < STATION_COUNT => old(stations)[i].(bypass := false))
    {
      for i := 0 to STATION_COUNT
        invariant forall k :: 0 <= k < i ==> stations[k] == old(stations[k]).(bypass := false)
        invariant forall k :: i <= k < STATION_COUNT ==> stations[k] == old(stations[k])
      {
        stations := stations[i := stations[i].(bypass := false)];
      }
    }

    method SaveBypasses() returns (bypassed: SixFlags)
      ensures forall k :: 0 <= k < STATION_COUNT ==> bypassed[k] == stations[k].bypass
    {
      bypassed := [false, false, false, false, false, false];
      for i := 0 to STATION_COUNT
        invariant forall k :: 0 <= k < i ==> bypassed[k] == stations[k].bypass
      {
        bypassed := bypassed[i := stations[i].bypass];
      }
    }

    method RestoreBypasses(bypassed: SixFlags, ghost before: Arena)
      requires forall k :: 0 <= k < STATION_COUNT ==> bypassed[k] == before.stations[k].bypass
      modifies this
      ensures View() == RestoreBypass(old(View()), before)
    {
      for i := 0 to STATION_COUNT
        invariant View() == old(View()).(stations := stations)
        invariant forall k :: 0 <= k < i ==> stations[k] == old(stations[k]).(bypass := bypassed[k])
        invariant forall k :: i <= k < STATION_COUNT ==> stations[k] == old(stations[k])
      {
        stations := stations[i := stations[i].(bypass := bypassed[i])];
      }
    }

    method ClearMatch(table: TeamTable) returns (ok: bool)
      modifies this
      ensures ok <==> old(matchState) == PostMatch
      ensures View() == if ok then ArenaState.ClearMatch(settings, old(View()), table) else old(View())
    {
      if matchState != PostMatch {
        return false;
      }
      ghost var before := View();
      var ids := currentMatch.teams;
      var bypassed := SaveBypasses();
      ok := Reset();
      CycleStationPorts();
      ok := LoadMatch(Match(Test, ids), table);
      RestoreBypasses(bypassed, before);
    }

    method EmptyStations()
      modifies this
      ensures View() == old(View()).(stations := seq(STATION_COUNT, i requires 0 <= i < STATION_COUNT =>
                                                      EmptyStation(old(stations)[i])))
    {
      for i := 0 to STATION_COUNT
        invariant View() == old(View()).(stations := stations)
        invariant forall k :: 0 <= k < i ==> stations[k] == EmptyStation(old(stations[k]))
        invariant forall k :: i <= k < STATION_COUNT ==> stations[k] == old(stations[k])
      {
        var s := stations[i];
        if s.conn.Some? {
          s := s.(conn := None);
        }
        stations := stations[i := s.(team := None, bypass := false, eStop := false, aStop := false,
                                     eStopFault := FaultNone)];
      }
    }

    method ResetField(table: TeamTable) returns (ok: bool)
      modifies this
      ensures ok <==> !InProgress(old(matchState))
      ensures View() == if ok then ArenaState.ResetField(settings, old(View()), table) else old(View())
    {
      if matchState != PreMatch && matchState != PostMatch {
        return false;
      }
      EmptyStations();
      ok := Reset();
      ok := LoadMatch(Match(Test, [0, 0, 0, 0, 0, 0]), table);
    }

    method SetAllEStops(stopped: bool)
      modifies this
      ensures View() == SetEStops(old(View()), stopped)
    {
      for i := 0 to STATION_COUNT
        invariant View() == old(View()).(stations := stations)
        invariant forall k :: 0 <= k < i ==> stations[k] == old(stations[k]).(eStop := stopped)
        invariant forall k :: i <= k < STATION_COUNT ==> stations[k] == old(stations[k])
      {
        stations := stations[i := stations[i].(eStop := stopped)];
      }
    }

    method ReadFieldEStop(pins: Pins, now: int) returns (r: Report)
      modifies panel
      ensures (View(), r) == FieldEStopReading(old(View()), pins, now)
    {
      if panel == null {
        return Report(StopOk, FaultNone);
      }
      r := panel.State(pins, now);
    }

    method ClearFieldEStop(first: Pins, second: Pins, at: int, done: int)
      modifies this, panel
      ensures View() == ClearFieldEStopCommand(old(View()), first, second, at, done)
    {
      if panel != null {
        panel.ClearLatch(first, at);
      }
      var r := ReadFieldEStop(second, done);
      fieldEStopFault := r.fault;
      if r.state == StopOk {
        fieldEStopActive := false;
        SetAllEStops(false);
      }
    }

    /** Bypasses every station with no team, and says how many that newly bypassed. */
    method BypassEmptyStations() returns (count: nat)
      modifies this`stations
      ensures View() == ArenaState.BypassEmptyStations(old(View()))
      ensures count == ToBypass(old(stations), STATION_COUNT)
    {
      count := 0;
      ghost var before := stations;
      for i := 0 to |stations|
        invariant forall k :: 0 <= k < i ==> stations[k] == Bypassed(before[k])
        invariant forall k :: i <= k < STATION_COUNT ==> stations[k] == before[k]
        invariant count == ToBypass(before, i)
      {
        if stations[i].team == None && !stations[i].bypass {
          stations := stations[i := stations[i].(bypass := true)];
          count := count + 1;
        }
      }
    }

    // ----- one Update

    method AssignAutoWinner(coin: bool)
      modifies this
      ensures View() == old(View()).(autoWinner := ChooseWinner(autoWinnerMode, coin))
    {
      match autoWinnerMode
      case ForceRed => autoWinner := AllianceRed;
      case ForceBlue => autoWinner := AllianceBlue;
      case RandomWinner => autoWinner := if coin then AllianceRed else AllianceBlue;
    }

    method Progress(now: int, coin: bool, table: TeamTable) returns (auto: bool, enabled: bool, send: bool)
      modifies this
      ensures Advance(View(), auto, enabled, send) == Transition(settings, old(View()), now, coin, table)
    {
      match matchState
      case PreMatch =>
        auto, enabled, send := true, false, false;
      case StartMatch =>
        auto, enabled, send := ProgressToAuto(now, coin, table);
      case WarmupPeriod =>
        auto, enabled, send := ProgressToAuto(now, coin, table);
      case AutoPeriod =>
        auto, enabled, send := ProgressFromAuto(now, coin, table);
      case PausePeriod =>
        auto, enabled, send := ProgressToEnd(now, coin, table);
      case TeleopPeriod =>
        auto, enabled, send := ProgressToEnd(now, coin, table);
      case PostMatch =>
        auto, enabled, send := false, false, false;
        if now - postMatchStart >= POST_MATCH_DELAY {
          var _ := ClearMatch(table);
        }
    }

    method ProgressToAuto(now: int, coin: bool, table: TeamTable) returns (auto: bool, enabled: bool, send: bool)
      requires matchState == StartMatch || matchState == WarmupPeriod
      modifies this
      ensures Advance(View(), auto, enabled, send) == Transition(settings, old(View()), now, coin, table)
    {
      auto, enabled, send := true, false, false;
      if matchState == StartMatch {
        matchStart := now;
        gameData := "";
        if settings.timing.warmup > 0 {
          matchState := WarmupPeriod;
          return;
        }
      } else if MatchTime(View(), now) < settings.timing.warmup * SECOND {
        return;
      }
      matchState := AutoPeriod;
      AssignAutoWinner(coin);
      enabled, send := true, true;
    }

    method ProgressFromAuto(now: int, ghost coin: bool, ghost table: TeamTable)
      returns (auto: bool, enabled: bool, send: bool)
      requires matchState == AutoPeriod
      modifies this
      ensures Advance(View(), auto, enabled, send) == Transition(settings, old(View()), now, coin, table)
    {
      auto, enabled, send := true, true, false;
      if MatchTime(View(), now) >= AutoEnd(settings.timing) {
        auto, send := false, true;
        if settings.timing.pause > 0 {
          matchState := PausePeriod;
          enabled := false;
        } else {
          matchState := TeleopPeriod;
          gameData := GameDataFor(autoWinner);
        }
      }
    }

    method ProgressToEnd(now: int, ghost coin: bool, ghost table: TeamTable)
      returns (auto: bool, enabled: bool, send: bool)
      requires matchState == PausePeriod || matchState == TeleopPeriod
      modifies this
      ensures Advance(View(), auto, enabled, send) == Transition(settings, old(View()), now, coin, table)
    {
      auto, enabled, send := false, matchState == TeleopPeriod, false;
      var t := MatchTime(View(), now);
      if matchState == PausePeriod && t >= TeleopStart(settings.timing) {
        matchState := TeleopPeriod;
        gameData := GameDataFor(autoWinner);
        enabled, send := true, true;
      } else if matchState == TeleopPeriod && t >= TeleopEnd(settings.timing) {
        matchState := PostMatch;
        postMatchStart := now;
        gameData := "";
        enabled, send := false, true;
      }
    }

    /** The packet for a connected station, and its connection afterwards; after a failed write its link is not
        checked. */
    static method FillPacket(
      s: Station, connection: Connection, gameData: string, auto: bool, enabled: bool, now: int, failed: bool)
      returns (c: Connection, packet: Packet)
      ensures packet == Packet(auto, enabled && !s.eStop && !(auto && s.aStop) && !s.bypass, s.eStop, s.aStop, gameData)
      ensures c == AfterPacket(connection, packet, now, failed)
    {
      c := connection.(auto := auto, enabled := enabled && !s.eStop && !(auto && s.aStop) && !s.bypass,
                       eStop := s.eStop, aStop := s.aStop);
      packet := Packet(c.auto, c.enabled, c.eStop, c.aStop, gameData);
      if !failed && (c.lastPacket == None || now - c.lastPacket.value > LINK_TIMEOUT) {
        c := c.(robotLinked := false);
      }
    }

    /** Sends one station its packet, if a driver station is connected there. */
    method SendPacketTo(i: StationIndex, auto: bool, enabled: bool, now: int, failed: bool)
      returns (packet: Option<Packet>)
      modifies this`stations
      ensures stations == old(stations)[i := SendTo(old(View()), old(stations[i]), auto, enabled, now, failed)]
      ensures packet == PacketFor(old(View()), i, auto, enabled)
    {
      var s := stations[i];
      if s.conn == None {
        assert stations == stations[i := s];
        return None;
      }
      var c, p := FillPacket(s, s.conn.value, gameData, auto, enabled, now, failed);
      stations := stations[i := s.(conn := Some(c))];
      packet := Some(p);
    }

    method SendDsPacket(auto: bool, enabled: bool, now: int, failed: SixFlags) returns (packets: seq<Option<Packet>>)
      modifies this
      ensures View() == SendPackets(old(View()), auto, enabled, now, failed)
      ensures |packets| == STATION_COUNT
      ensures forall i: StationIndex :: packets[i] == PacketFor(old(View()), i, auto, enabled)
    {
      packets := [None, None, None, None, None, None];
      ghost var before := View();
      for i := 0 to STATION_COUNT
        invariant View() == before.(stations := stations) && |packets| == STATION_COUNT
        invariant forall k :: 0 <= k < i ==>
          stations[k] == SendTo(before, before.stations[k], auto, enabled, now, failed[k])
        invariant forall k :: 0 <= k < i ==> packets[k] == PacketFor(before, k, auto, enabled)
        invariant forall k :: i <= k < STATION_COUNT ==> stations[k] == before.stations[k]
      {
        SendIsLocal(View(), before, i, auto, enabled, now, failed[i]);
        var packet := SendPacketTo(i, auto, enabled, now, failed[i]);
        packets := packets[i := packet];
      }
      lastDsPacket := Some(now);
    }

    method PollField(pins: Pins, now: int)
      modifies this, panel
      ensures View() == PollFieldEStop(old(View()), pins, now)
    {
      var r := ReadFieldEStop(pins, now);
      fieldEStopFault := r.fault;
      if r.state != StopOk && !fieldEStopActive {
        fieldEStopActive := true;
        SetAllEStops(true);
        var _ := Abort(now);
      }
    }

    method HandleTeamEStop(i: StationIndex, active: bool, now: int)
      modifies this
      ensures View() == HandleEStop(old(View()), i, active, now)
    {
      if active {
        stations := stations[i := stations[i].(eStop := true)];
      } else if MatchTime(View(), now) == 0 {
        stations := stations[i := stations[i].(eStop := false)];
      }
    }

    method HandleTeamAStop(i: StationIndex, active: bool)
      modifies this
      ensures View() == HandleAStop(old(View()), i, active)
    {
      if active {
        stations := stations[i := stations[i].(aStop := true)];
      } else if matchState != AutoPeriod {
        stations := stations[i := stations[i].(aStop := false, aStopReset := true)];
      }
    }

    method HandlePanelInput(i: StationIndex, input: PanelInput, now: int)
      modifies this
      ensures View() == HandleStation(old(View()), i, input, now)
    {
      if input.isAStop {
        HandleTeamAStop(i, input.state == StopActive);
        return;
      }
      stations := stations[i := stations[i].(eStopFault := input.fault)];
      var wasStopped := stations[i].eStop;
      HandleTeamEStop(i, input.state != StopOk, now);
      if input.state != StopOk && !wasStopped {
        var _ := Abort(now);
      }
    }

    method PollPanels(inputs: seq<PanelInput>, now: int)
      modifies this
      ensures View() == HandleInputs(old(View()), inputs, now)
    {
      for n := 0 to |inputs|
        invariant View() == HandleInputs(old(View()), inputs[..n], now)
      {
        assert inputs[..n + 1][..n] == inputs[..n];
        match inputs[n].target
        case OneStation(i) => HandlePanelInput(i, inputs[n], now);
        case AllStations => HandleAll(inputs[n], now);
      }
      assert inputs[..|inputs|] == inputs;
    }

    method HandleAll(input: PanelInput, now: int)
      modifies this
      ensures View() == HandleStations(old(View()), input, STATION_COUNT, now)
    {
      for i := 0 to |stations|
        invariant View() == HandleStations(old(View()), input, i, now)
      {
        HandlePanelInput(i, input, now);
      }
    }

    /** Goes on to the ith station. */
    method HandlePlcStation(plc: PlcInputs, i: StationIndex, now: int, ghost before: Arena)
      requires View() == HandlePlcStations(before, plc, i, now)
      modifies this
      ensures View() == HandlePlcStations(before, plc, i + 1, now)
    {
      HandleTeamEStop(i, plc.eStops[i], now);
      HandleTeamAStop(i, plc.aStops[i]);
    }

    method HandlePlcInputOutput(plc: PlcInputs, now: int)
      modifies this
      ensures View() == HandlePlc(settings, old(View()), plc, now)
    {
      if !settings.plcEnabled {
        return;
      }
      if plc.fieldEStop && !matchAborted {
        var _ := Abort(now);
      }
      ghost var before := View();
      for i := 0 to |plc.eStops|
        invariant View() == HandlePlcStations(before, plc, i, now)
      {
        HandlePlcStation(plc, i, now, before);
      }
    }

    method SendIfDue(auto: bool, enabled: bool, send: bool, now: int, failed: SixFlags)
      returns (packets: seq<Option<Packet>>)
      modifies this
      ensures View() == AfterSending(Advance(old(View()), auto, enabled, send), now, failed)
      ensures |packets| == STATION_COUNT
      ensures var adv := Advance(old(View()), auto, enabled, send);
        forall i: StationIndex :: packets[i] == PacketIfDue(adv, now, i)
    {
      packets := [None, None, None, None, None, None];
      if send || lastDsPacket == None || now - lastDsPacket.value >= PACKET_PERIOD {
        packets := SendDsPacket(auto, enabled, now, failed);
      }
    }

    method PollInputs(inp: TickInputs, now: int)
      modifies this, panel
      ensures View() == PollStops(settings, old(View()), now, inp)
    {
      PollField(inp.pins, now);
      PollPanels(inp.panelInputs, now);
      HandlePlcInputOutput(inp.plc, now);
    }

    /** One iteration of the control loop: packets[i] is the control packet sent to station i, if one was. */
    method Update(now: int, poll: int, inp: TickInputs) returns (packets: seq<Option<Packet>>)
      modifies this, panel
      ensures View() == ArenaState.Update(settings, old(View()), now, poll, inp)
      ensures |packets| == STATION_COUNT
      ensures forall i: StationIndex :: packets[i] == PacketTo(settings, old(View()), now, inp, i)
    {
      ghost var before := View();
      var auto, enabled, send := Progress(now, inp.coin, inp.teamTable);
      packets := SendIfDue(auto, enabled, send, now, inp.failed);
      PollInputs(inp, poll);
      forall i: StationIndex ensures packets[i] == PacketTo(settings, before, now, inp, i) {
      }
    }

    // ----- driver stations

    method FindStation(teamId: int) returns (station: Option<StationIndex>)
      ensures station == AssignedStation(View(), teamId, STATION_COUNT)
    {
      station := None;
      for i := 0 to |stations|
        invariant station == AssignedStation(View(), teamId, i)
      {
        if stations[i].team.Some? && stations[i].team.value.id == teamId {
          station := Some(i);
        }
      }
    }

    /** A driver station is accepted at its team's station, in place of any earlier connection there, unless its reply
        cannot be sent or its UDP socket not opened. */
    method Accept(teamId: int, reply: Reply) returns (station: Option<StationIndex>)
      modifies this
      ensures station == if reply == Answered then AssignedStation(old(View()), teamId, STATION_COUNT) else None
      ensures View() == ConnectTeam(old(View()), teamId, reply)
    {
      station := FindStation(teamId);
      if station == None {
        return;
      }
      if reply == ReplyFailed {
        return None;
      }
      if reply == SocketFailed {
        return None;
      }
      var c := Connection(nextSerial, teamId, false, false, false, false, false, None);
      stations := stations[station.value := stations[station.value].(conn := Some(c))];
      nextSerial := nextSerial + 1;
    }

    /** A packet from a driver station refreshes its link. */
    method HandleUdpPacket(teamId: int, robotLinked: bool, now: int)
      modifies this
      ensures View() == HearFrom(old(View()), teamId, robotLinked, now)
    {
      var station := FindStation(teamId);
      if station.Some? && stations[station.value].conn.Some? {
        var i := station.value;
        var c := stations[i].conn.value.(robotLinked := robotLinked, lastPacket := Some(now));
        stations := stations[i := stations[i].(conn := Some(c))];
      }
    }

    /** A connection's goroutine ends: the station is released only if the connection is still the one there. */
    method HandleClosed(i: StationIndex, serial: nat)
      modifies this
      ensures View() == Teardown(old(View()), i, serial)
    {
      if stations[i].conn.Some? && stations[i].conn.value.serial == serial {
        stations := stations[i := stations[i].(conn := None)];
      }
    }

    // ----- operators' other commands, and the start of the controller

    method SetAutoWinnerMode(mode: AutoWinnerMode) returns (ok: bool)
      modifies this
      ensures ok <==> !InProgress(old(matchState))
      ensures View() == if ok then old(View()).(autoWinnerMode := mode) else old(View())
    {
      if matchState != PreMatch && matchState != PostMatch {
        return false;
      }
      autoWinnerMode := mode;
      return true;
    }

    method ToggleBypass(i: StationIndex)
      modifies this
      ensures View() == SetStation(old(View()), i, old(stations[i]).(bypass := !old(stations[i]).bypass))
    {
      stations := stations[i := stations[i].(bypass := !stations[i].bypass)];
    }

    method ToggleEStop(i: StationIndex)
      modifies this
      ensures View() == SetStation(old(View()), i, old(stations[i]).(eStop := !old(stations[i]).eStop))
    {
      stations := stations[i := stations[i].(eStop := !stations[i].eStop)];
    }

    /** The arena's loop is launched: the lineup is read for the request its own goroutine will make. */
    method Launch()
      modifies this
      ensures View() == LaunchLoop(old(View()))
    {
      if startup == NotLaunched {
        var teams := ComputeCurrentTeams();
        startup := Launched(teams);
      }
    }

    method MakeStartupRequest()
      modifies this
      ensures View() == HandOver(settings, old(View()))
    {
      match startup
      case Launched(teams) =>
        startup := HandedOver(teams, |requests|);
        if settings.networkSecurity {
          requests := requests + [teams];
        }
      case _ =>
    }

    // ----- everything that can happen

    method PerformMatchCommand(e: Event)
      requires e.action.Start? || e.action.Abort? || e.action.Reset? || e.action.ClearCommand?
               || e.action.ResetFieldCommand? || e.action.SetMode?
      modifies this
      ensures View() == Step(settings, old(View()), e)
    {
      match e.action
      case Start(plc) => var _ := Start(plc);
      case Abort => var _ := Abort(e.at);
      case Reset => var _ := Reset();
      case ClearCommand(table) => var _ := ClearMatch(table);
      case ResetFieldCommand(table) => var _ := ResetField(table);
      case SetMode(mode) => var _ := SetAutoWinnerMode(mode);
    }

    method PerformStationCommand(e: Event)
      requires e.action.Substitute? || e.action.ToggleBypass? || e.action.ToggleEStop? || e.action.BypassEmpty?
      modifies this
      ensures View() == Step(settings, old(View()), e)
    {
      match e.action
      case Substitute(ids, table) =>
        if |ids| == STATION_COUNT {
          var _ := SubstituteTeams(ids, table);
        }
      case ToggleBypass(i) => ToggleBypass(i);
      case ToggleEStop(i) => ToggleEStop(i);
      case BypassEmpty => var _ := BypassEmptyStations();
    }

    /** Each action is one call of the code above, which does what the state machine's step says. */
    method Perform(e: Event)
      modifies this, panel
      ensures View() == Step(settings, old(View()), e)
    {
      match e.action
      case Tick(inputs) => var _ := Update(e.at, e.done, inputs);
      case ClearFieldEStop(first, second) => ClearFieldEStop(first, second, e.at, e.done);
      case Connect(teamId, reply) => var _ := Accept(teamId, reply);
      case Disconnect(i, serial) => HandleClosed(i, serial);
      case Heard(teamId, linked) => HandleUdpPacket(teamId, linked, e.at);
      case Launch => Launch();
      case StartupRequest => MakeStartupRequest();
      case Substitute(_, _) => PerformStationCommand(e);
      case ToggleBypass(_) => PerformStationCommand(e);
      case ToggleEStop(_) => PerformStationCommand(e);
      case BypassEmpty => PerformStationCommand(e);
      case _ => PerformMatchCommand(e);
    }

    /** Any calls whatever, made one after another on a new controller, are a run of the state machine: what is proved
        of every run holds of the code. */
    method Operate(events: seq<Event>) returns (ghost arenas: seq<Arena>)
      requires View() == NewArena(settings, PanelView()) && (panel != null ==> Fresh(panel.View()))
      requires forall i :: 0 <= i < |events| ==> events[i].at <= events[i].done
      requires forall i, j :: 0 <= i < j < |events| ==> events[i].done <= events[j].at
      modifies this, panel
      ensures Run(settings, arenas, events) && View() == arenas[|events|]
    {
      arenas := [View()];
      for n := 0 to |events|
        invariant |arenas| == n + 1 && arenas[0] == old(View()) && arenas[n] == View()
        invariant Steps(settings, arenas, events, n)
      {
        Perform(events[n]);
        StepsExtend(settings, arenas, events, n);
        arenas := arenas + [View()];
      }
    }
  }

  /** The arenas are those of the first n events. */
  ghost predicate Steps(settings: Settings, arenas: seq<Arena>, events: seq<Event>, n: nat) {
    && n <= |events| && |arenas| == n + 1
    && forall i :: 0 <= i < n ==> arenas[i + 1] == Step(settings, arenas[i], events[i])
  }

  lemma StepsExtend(settings: Settings, arenas: seq<Arena>, events: seq<Event>, n: nat)
    requires n < |events| && Steps(settings, arenas, events, n)
    ensures Steps(settings, arenas + [Step(settings, arenas[n], events[n])], events, n + 1)
  {
  }

  lemma {:induction false} ValidateKeepsFirst(ids: seq<int>, n: nat, table: TeamTable)
    requires n <= |ids| && ValidateTeams(ids, n, table).Some?
    ensures ValidateTeams(ids, |ids|, table) == ValidateTeams(ids, n, table)
    decreases |ids| - n
  {
    if n < |ids| {
      ValidateKeepsFirst(ids, n + 1, table);
    }
  }

  lemma {:induction false} ReadyKeepsFirst(ss: Stations, n: Count)
    requires StationsReady(ss, n).Some?
    ensures StationsReady(ss, |ss|) == StationsReady(ss, n)
    decreases STATION_COUNT - n
  {
    if n < STATION_COUNT {
      ReadyKeepsFirst(ss, n + 1);
    }
  }
}

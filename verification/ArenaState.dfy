/** The match state machine of field/arena.go as a function of its state and inputs: the periodic Update, the
    operators' commands, the driver station connections, and the network request made when the controller starts.
    Instants are in nanoseconds; everything here happens under the arena lock, except where Action says otherwise. */
module ArenaState {
  import opened Options
  import opened TeamNetwork
  import opened FieldEStop
  import opened MatchTiming

  const PACKET_PERIOD := 500_000_000
  const LINK_TIMEOUT := SECOND
  const POST_MATCH_DELAY := 5 * SECOND

  datatype MatchState = PreMatch | StartMatch | WarmupPeriod | AutoPeriod | PausePeriod | TeleopPeriod | PostMatch
  datatype Alliance = AllianceNone | AllianceRed | AllianceBlue
  datatype AutoWinnerMode = RandomWinner | ForceRed | ForceBlue
  datatype MatchType = Test | Practice | Qualification | Playoff

  /** The settings a run is played under. */
  datatype Settings = Settings(timing: Timing, networkSecurity: bool, plcEnabled: bool)

  /** The team table: the WPA key of every registered team. */
  type TeamTable = map<TeamNumber, string>

  /** A driver station connection; the serial number stands for its identity in memory. */
  datatype Connection = Connection(
    serial: nat,
    teamId: int,
    auto: bool,
    enabled: bool,
    eStop: bool,
    aStop: bool,
    robotLinked: bool,
    lastPacket: Option<int>)

  datatype Station = Station(
    conn: Option<Connection>,
    team: Option<Team>,
    bypass: bool,
    eStop: bool,
    aStop: bool,
    aStopReset: bool,
    eStopFault: FaultKind)

  type Stations = ss: seq<Station> | |ss| == STATION_COUNT
    witness seq(STATION_COUNT, _ => Station(None, None, false, false, false, true, FaultNone))

  type StationIndex = i: nat | i < STATION_COUNT

  datatype Match = Match(matchType: MatchType, teams: Lineup)

  /** The network request of the controller's start: the lineup is read when the arena's loop is launched, and handed
      to the background configuration some time later, as request number `place` if network security is on. */
  datatype Startup =
    | NotLaunched
    | Launched(teams: Teams)
    | HandedOver(teams: Teams, place: nat)

  /** `panel` is absent when no GPIO field e-stop is fitted. `requests` and `cycles` record, in order, the network
      configurations and port cycles handed to background goroutines. */
  datatype Arena = Arena(
    matchState: MatchState,
    stations: Stations,
    currentMatch: Match,
    matchStart: int,
    postMatchStart: int,
    lastDsPacket: Option<int>,
    gameData: string,
    autoWinner: Alliance,
    autoWinnerMode: AutoWinnerMode,
    matchAborted: bool,
    panel: Option<Panel>,
    fieldEStopActive: bool,
    fieldEStopFault: FaultKind,
    nextSerial: nat,
    requests: seq<Teams>,
    cycles: seq<seq<bool>>,
    startup: Startup)

  datatype InputTarget = AllStations | OneStation(station: StationIndex)

  /** One input of a hardware e-stop panel. */
  datatype PanelInput = PanelInput(target: InputTarget, isAStop: bool, state: StopState, fault: FaultKind)

  datatype PlcInputs = PlcInputs(
    healthy: bool,
    armorBlocksConnected: bool,
    fieldEStop: bool,
    eStops: SixFlags,
    aStops: SixFlags)

  /** What an Update is given from outside. `failed` says to which stations a packet could not be written. */
  datatype TickInputs = TickInputs(
    coin: bool,
    pins: Pins,
    panelInputs: seq<PanelInput>,
    plc: PlcInputs,
    teamTable: TeamTable,
    failed: SixFlags)

  datatype Error =
    | NotPreMatch | FieldEStopFaulted | FieldEStopIsActive | StationFaulted(station: nat) | StationEStopped(station: nat)
    | AStopNotReset(station: nat) | RobotNotReady(station: nat) | PlcUnhealthy | PlcFieldEStop | ArmorBlockMissing
    | NotInProgress | MatchInProgress | SubstitutionRefused | DuplicateTeam(team: int) | UnknownTeam(team: int)

  datatype Outcome = Ok(arena: Arena) | Refused(error: Error)

  // ----- stations and teams

  predicate InProgress(s: MatchState) {
    s != PreMatch && s != PostMatch
  }

  /** The robots' clock is running. */
  predicate Running(s: MatchState) {
    s == WarmupPeriod || s == AutoPeriod || s == PausePeriod || s == TeleopPeriod
  }

  function CurrentTeams(a: Arena): Teams {
    seq(STATION_COUNT, i requires 0 <= i < STATION_COUNT => a.stations[i].team)
  }

  function SetEStops(a: Arena, stopped: bool): Arena {
    a.(stations := seq(STATION_COUNT, i requires 0 <= i < STATION_COUNT => a.stations[i].(eStop := stopped)))
  }

  function SetStation(a: Arena, i: StationIndex, s: Station): Arena {
    a.(stations := a.stations[i := s])
  }

  /** A team missing from the table plays under its number alone. */
  function TeamRecord(table: TeamTable, id: TeamNumber): Team {
    Team(id, if id in table then table[id] else "")
  }

  function AssignTeam(settings: Settings, s: Station, id: nat, table: TeamTable): Station
  {
    var reset := s.(aStopReset := !settings.plcEnabled);
    if s.conn.Some? && s.conn.value.teamId == id then reset
    else
      var cleared := if s.conn.Some? then reset.(conn := None, team := None) else reset;
      if id == 0 then cleared.(team := None) else cleared.(team := Some(TeamRecord(table, id)))
  }

  function SetupNetwork(settings: Settings, a: Arena): Arena {
    if settings.networkSecurity then a.(requests := a.requests + [CurrentTeams(a)]) else a
  }

  function AssignAll(settings: Settings, a: Arena, ids: Lineup, table: TeamTable): Arena {
    a.(stations := seq(STATION_COUNT, i requires 0 <= i < STATION_COUNT =>
                         AssignTeam(settings, a.stations[i], ids[i], table)))
  }

  function LoadMatch(settings: Settings, a: Arena, m: Match, table: TeamTable): Arena
    requires a.matchState == PreMatch
  {
    SetupNetwork(settings, AssignAll(settings, a.(currentMatch := m), m.teams, table))
  }

  /** The first station at which the lineup names a team already seen or not in the table. */
  function ValidateTeams(ids: seq<int>, n: nat, table: TeamTable): Option<Error>
    requires n <= |ids|
  {
    if n == 0 then None
    else
      var earlier := ValidateTeams(ids, n - 1, table);
      var id := ids[n - 1];
      if earlier.Some? || id == 0 then earlier
      else if id in ids[..n - 1] then Some(DuplicateTeam(id))
      else if id !in table then Some(UnknownTeam(id))
      else None
  }

  // ----- aborting, resetting and clearing

  function AbortMatch(a: Arena, now: int): Arena {
    a.(matchState := PostMatch, postMatchStart := now, gameData := "", matchAborted := true)
  }

  function AbortForStop(a: Arena, now: int): Arena {
    if InProgress(a.matchState) then AbortMatch(a, now) else a
  }

  function ResetMatch(a: Arena): Arena {
    a.(matchState := PreMatch, matchAborted := false, gameData := "",
       stations := seq(STATION_COUNT, i requires 0 <= i < STATION_COUNT => a.stations[i].(bypass := false)))
  }

  function Occupied(a: Arena): SixFlags {
    seq(STATION_COUNT, i requires 0 <= i < STATION_COUNT => a.stations[i].team.Some?)
  }

  function CyclePorts(settings: Settings, a: Arena): Arena {
    if settings.networkSecurity && true in Occupied(a) then a.(cycles := a.cycles + [Occupied(a)]) else a
  }

  function RestoreBypass(a: Arena, before: Arena): Arena {
    a.(stations := seq(STATION_COUNT, i requires 0 <= i < STATION_COUNT =>
                         a.stations[i].(bypass := before.stations[i].bypass)))
  }

  /** Back to PreMatch with the same lineup: the match is reloaded, and bypasses are carried across. */
  function ClearMatch(settings: Settings, a: Arena, table: TeamTable): Arena {
    var blank := CyclePorts(settings, ResetMatch(a));
    RestoreBypass(LoadMatch(settings, blank, Match(Test, a.currentMatch.teams), table), a)
  }

  function EmptyStation(s: Station): Station {
    s.(conn := None, team := None, bypass := false, eStop := false, aStop := false, eStopFault := FaultNone)
  }

  function ResetField(settings: Settings, a: Arena, table: TeamTable): Arena {
    var emptied := a.(stations := seq(STATION_COUNT, i requires 0 <= i < STATION_COUNT => EmptyStation(a.stations[i])));
    LoadMatch(settings, ResetMatch(emptied), Match(Test, [0, 0, 0, 0, 0, 0]), table)
  }

  // ----- one Update

  function MatchTime(a: Arena, now: int): int {
    if Running(a.matchState) then now - a.matchStart else 0
  }

  function GameDataFor(winner: Alliance): string {
    match winner
    case AllianceRed => "R"
    case AllianceBlue => "B"
    case AllianceNone => ""
  }

  function ChooseWinner(mode: AutoWinnerMode, coin: bool): Alliance {
    match mode
    case ForceRed => AllianceRed
    case ForceBlue => AllianceBlue
    case RandomWinner => if coin then AllianceRed else AllianceBlue
  }

  /** The state after the transition, and what the robots are to be told. */
  datatype Advance = Advance(arena: Arena, auto: bool, enabled: bool, send: bool)

  function EnterAuto(a: Arena, coin: bool): Arena {
    a.(matchState := AutoPeriod, autoWinner := ChooseWinner(a.autoWinnerMode, coin))
  }

  function EnterTeleop(a: Arena): Arena {
    a.(matchState := TeleopPeriod, gameData := GameDataFor(a.autoWinner))
  }

  function Transition(settings: Settings, a: Arena, now: int, coin: bool, table: TeamTable): Advance {
    var t := MatchTime(a, now);
    match a.matchState
    case PreMatch => Advance(a, true, false, false)
    case StartMatch =>
      var started := a.(matchStart := now, gameData := "");
      if settings.timing.warmup > 0 then Advance(started.(matchState := WarmupPeriod), true, false, false)
      else Advance(EnterAuto(started, coin), true, true, true)
    case WarmupPeriod =>
      if t >= settings.timing.warmup * SECOND then Advance(EnterAuto(a, coin), true, true, true)
      else Advance(a, true, false, false)
    case AutoPeriod =>
      if t < AutoEnd(settings.timing) then Advance(a, true, true, false)
      else if settings.timing.pause > 0 then Advance(a.(matchState := PausePeriod), false, false, true)
      else Advance(EnterTeleop(a), false, true, true)
    case PausePeriod =>
      if t >= TeleopStart(settings.timing) then Advance(EnterTeleop(a), false, true, true)
      else Advance(a, false, false, false)
    case TeleopPeriod =>
      if t >= TeleopEnd(settings.timing)
      then Advance(a.(matchState := PostMatch, postMatchStart := now, gameData := ""), false, false, true)
      else Advance(a, false, true, false)
    case PostMatch =>
      Advance(if now - a.postMatchStart >= POST_MATCH_DELAY then ClearMatch(settings, a, table) else a,
              false, false, false)
  }

  datatype Packet = Packet(auto: bool, enabled: bool, eStop: bool, aStop: bool, gameData: string)

  function BuildPacket(a: Arena, s: Station, auto: bool, enabled: bool): Packet {
    Packet(auto, enabled && !s.eStop && !(auto && s.aStop) && !s.bypass, s.eStop, s.aStop, a.gameData)
  }

  /** The connection after its packet has gone out and its link been checked; where a write failed the link is not. */
  function AfterPacket(c: Connection, p: Packet, now: int, failed: bool): Connection {
    var lost := !failed && (c.lastPacket == None || now - c.lastPacket.value > LINK_TIMEOUT);
    c.(auto := p.auto, enabled := p.enabled, eStop := p.eStop, aStop := p.aStop,
       robotLinked := c.robotLinked && !lost)
  }

  function SendTo(a: Arena, s: Station, auto: bool, enabled: bool, now: int, failed: bool): Station {
    match s.conn
    case None => s
    case Some(c) => s.(conn := Some(AfterPacket(c, BuildPacket(a, s, auto, enabled), now, failed)))
  }

  function SendPackets(a: Arena, auto: bool, enabled: bool, now: int, failed: SixFlags): Arena {
    a.(stations := seq(STATION_COUNT, i requires 0 <= i < STATION_COUNT =>
                         SendTo(a, a.stations[i], auto, enabled, now, failed[i])),
       lastDsPacket := Some(now))
  }

  predicate PacketsDue(adv: Advance, now: int) {
    adv.send || adv.arena.lastDsPacket == None || now - adv.arena.lastDsPacket.value >= PACKET_PERIOD
  }

  function FieldEStopReading(a: Arena, pins: Pins, now: int): (Arena, Report) {
    match a.panel
    case None => (a, Report(StopOk, FaultNone))
    case Some(p) =>
      var q := ReadState(p, pins, now);
      (a.(panel := Some(q)), Report(q.latched, q.latchedFault))
  }

  function PollFieldEStop(a: Arena, pins: Pins, now: int): Arena {
    var (b, r) := FieldEStopReading(a, pins, now);
    var c := b.(fieldEStopFault := r.fault);
    if r.state != StopOk && !c.fieldEStopActive
    then AbortForStop(SetEStops(c.(fieldEStopActive := true), true), now)
    else c
  }

  function HandleEStop(a: Arena, i: StationIndex, active: bool, now: int): Arena {
    if active then SetStation(a, i, a.stations[i].(eStop := true))
    else if MatchTime(a, now) == 0 then SetStation(a, i, a.stations[i].(eStop := false))
    else a
  }

  function HandleAStop(a: Arena, i: StationIndex, active: bool): Arena {
    if active then SetStation(a, i, a.stations[i].(aStop := true))
    else if a.matchState != AutoPeriod then SetStation(a, i, a.stations[i].(aStop := false, aStopReset := true))
    else a
  }

  function HandleStation(a: Arena, i: StationIndex, input: PanelInput, now: int): Arena {
    if input.isAStop then HandleAStop(a, i, input.state == StopActive)
    else
      var stopped := input.state != StopOk;
      var b := HandleEStop(SetStation(a, i, a.stations[i].(eStopFault := input.fault)), i, stopped, now);
      if stopped && !a.stations[i].eStop then AbortForStop(b, now) else b
  }

  function HandleStations(a: Arena, input: PanelInput, n: Count, now: int): Arena
  {
    if n == 0 then a else HandleStation(HandleStations(a, input, n - 1, now), n - 1, input, now)
  }

  function HandleInput(a: Arena, input: PanelInput, now: int): Arena {
    match input.target
    case AllStations => HandleStations(a, input, |a.stations|, now)
    case OneStation(i) => HandleStation(a, i, input, now)
  }

  function HandleInputs(a: Arena, inputs: seq<PanelInput>, now: int): Arena
    decreases |inputs|
  {
    if inputs == [] then a
    else HandleInput(HandleInputs(a, inputs[..|inputs| - 1], now), inputs[|inputs| - 1], now)
  }

  function HandlePlcStations(a: Arena, plc: PlcInputs, n: Count, now: int): Arena
  {
    if n == 0 then a
    else
      HandleAStop(HandleEStop(HandlePlcStations(a, plc, n - 1, now), n - 1, plc.eStops[n - 1], now),
                  n - 1, plc.aStops[n - 1])
  }

  function HandlePlc(settings: Settings, a: Arena, plc: PlcInputs, now: int): Arena {
    if !settings.plcEnabled then a
    else
      var b := if plc.fieldEStop && !a.matchAborted then AbortForStop(a, now) else a;
      HandlePlcStations(b, plc, |plc.eStops|, now)
  }

  /** Update up to and including the control packets. */
  function Advanced(settings: Settings, a: Arena, now: int, inp: TickInputs): Advance {
    Transition(settings, a, now, inp.coin, inp.teamTable)
  }

  function AfterSending(adv: Advance, now: int, failed: SixFlags): Arena {
    if PacketsDue(adv, now) then SendPackets(adv.arena, adv.auto, adv.enabled, now, failed) else adv.arena
  }

  /** The stops are polled at `poll`, after the packets have gone out. */
  function PollStops(settings: Settings, a: Arena, poll: int, inp: TickInputs): Arena {
    HandlePlc(settings, HandleInputs(PollFieldEStop(a, inp.pins, poll), inp.panelInputs, poll), inp.plc, poll)
  }

  function Update(settings: Settings, a: Arena, now: int, poll: int, inp: TickInputs): Arena {
    PollStops(settings, AfterSending(Advanced(settings, a, now, inp), now, inp.failed), poll, inp)
  }

  /** The packet this Update sends to a station, if it sends one there. */
  function PacketTo(settings: Settings, a: Arena, now: int, inp: TickInputs, i: StationIndex): Option<Packet> {
    var adv := Advanced(settings, a, now, inp);
    if PacketsDue(adv, now) && adv.arena.stations[i].conn.Some?
    then Some(BuildPacket(adv.arena, adv.arena.stations[i], adv.auto, adv.enabled))
    else None
  }

  // ----- starting a match

  function StationReady(s: Station, i: nat): Option<Error> {
    if s.eStopFault != FaultNone then Some(StationFaulted(i))
    else if s.eStop then Some(StationEStopped(i))
    else if !s.aStopReset then Some(AStopNotReset(i))
    else if !s.bypass && (s.conn == None || !s.conn.value.robotLinked) then Some(RobotNotReady(i))
    else None
  }

  /** The first of the first n stations that is not ready, if any. */
  function StationsReady(ss: Stations, n: Count): Option<Error>
  {
    if n == 0 then None
    else if StationsReady(ss, n - 1).Some? then StationsReady(ss, n - 1)
    else StationReady(ss[n - 1], n - 1)
  }

  function WhyNotStart(settings: Settings, a: Arena, plc: PlcInputs): Option<Error> {
    if a.matchState != PreMatch then Some(NotPreMatch)
    else if a.fieldEStopFault != FaultNone then Some(FieldEStopFaulted)
    else if a.fieldEStopActive then Some(FieldEStopIsActive)
    else if StationsReady(a.stations, |a.stations|).Some? then StationsReady(a.stations, |a.stations|)
    else if settings.plcEnabled && !plc.healthy then Some(PlcUnhealthy)
    else if settings.plcEnabled && plc.fieldEStop then Some(PlcFieldEStop)
    else if settings.plcEnabled && !plc.armorBlocksConnected then Some(ArmorBlockMissing)
    else None
  }

  // ----- commands and connections

  /** How the exchange with a driver station that asks to be connected ends. */
  datatype Reply = Answered | ReplyFailed | SocketFailed

  /** What can happen to the arena. A driver station's acceptance, its packets and its teardown, the operators' toggles
      of a stop or a bypass, and the two steps of the startup request run outside the arena lock; each is taken as one
      atomic step. */
  datatype Action =
    | Tick(inputs: TickInputs)
    | Start(plc: PlcInputs)
    | Abort
    | Reset
    | ClearCommand(teamTable: TeamTable)
    | ResetFieldCommand(teamTable: TeamTable)
    | ClearFieldEStop(first: Pins, second: Pins)
    | Substitute(ids: seq<int>, teamTable: TeamTable)
    | SetMode(mode: AutoWinnerMode)
    | ToggleBypass(station: StationIndex)
    | ToggleEStop(station: StationIndex)
    | BypassEmpty
    | Connect(teamId: int, reply: Reply)
    | Disconnect(station: StationIndex, serial: nat)
    | Heard(teamId: int, robotLinked: bool)
    | Launch
    | StartupRequest

  /** An action from its first look at the clock to its last. */
  datatype Event = Event(at: int, done: int, action: Action)

  function ClearFieldEStopCommand(a: Arena, first: Pins, second: Pins, at: int, done: int): Arena {
    var cleared := if a.panel.Some? then a.(panel := Some(Clear(a.panel.value, first, at))) else a;
    var (b, r) := FieldEStopReading(cleared, second, done);
    var c := b.(fieldEStopFault := r.fault);
    if r.state == StopOk then SetEStops(c.(fieldEStopActive := false), false) else c
  }

  function SubstituteTeams(settings: Settings, a: Arena, ids: seq<int>, table: TeamTable): Outcome
    requires |ids| == STATION_COUNT
  {
    if a.currentMatch.matchType == Qualification then Refused(SubstitutionRefused)
    else if ValidateTeams(ids, |ids|, table).Some? then Refused(ValidateTeams(ids, |ids|, table).value)
    else
      ValidLineup(ids, |ids|, table);
      var b := AssignAll(settings, a, ids, table);
      Ok(SetupNetwork(settings, b.(currentMatch := Match(a.currentMatch.matchType, ids))))
  }

  /** The station the team is registered at. */
  function AssignedStation(a: Arena, teamId: int, n: Count): Option<StationIndex>
  {
    if n == 0 then None
    else if a.stations[n - 1].team.Some? && a.stations[n - 1].team.value.id == teamId then Some(n - 1)
    else AssignedStation(a, teamId, n - 1)
  }

  /** A team that is registered gets its station's connection, unless the exchange with it fails. */
  function ConnectTeam(a: Arena, teamId: int, reply: Reply): Arena {
    match AssignedStation(a, teamId, |a.stations|)
    case None => a
    case Some(i) =>
      if reply != Answered then a else
      var c := Connection(a.nextSerial, teamId, false, false, false, false, false, None);
      SetStation(a, i, a.stations[i].(conn := Some(c))).(nextSerial := a.nextSerial + 1)
  }

  function Teardown(a: Arena, i: StationIndex, serial: nat): Arena {
    if a.stations[i].conn.Some? && a.stations[i].conn.value.serial == serial
    then SetStation(a, i, a.stations[i].(conn := None))
    else a
  }

  function HearFrom(a: Arena, teamId: int, robotLinked: bool, now: int): Arena {
    match AssignedStation(a, teamId, |a.stations|)
    case None => a
    case Some(i) =>
      if a.stations[i].conn == None then a
      else
        var c := a.stations[i].conn.value.(robotLinked := robotLinked, lastPacket := Some(now));
        SetStation(a, i, a.stations[i].(conn := Some(c)))
  }

  /** The arena's loop is launched: the lineup of the moment is read for the startup request. */
  function LaunchLoop(a: Arena): Arena {
    if a.startup == NotLaunched then a.(startup := Launched(CurrentTeams(a))) else a
  }

  /** The startup request's own goroutine gets to hand it over. */
  function HandOver(settings: Settings, a: Arena): Arena {
    match a.startup
    case Launched(teams) =>
      a.(startup := HandedOver(teams, |a.requests|),
         requests := if settings.networkSecurity then a.requests + [teams] else a.requests)
    case _ => a
  }

  function BypassEmptyStations(a: Arena): Arena {
    a.(stations := seq(STATION_COUNT, i requires 0 <= i < STATION_COUNT =>
                         if a.stations[i].team == None then a.stations[i].(bypass := true) else a.stations[i]))
  }

  function Step(settings: Settings, a: Arena, e: Event): Arena {
    match e.action
    case Tick(inp) => Update(settings, a, e.at, e.done, inp)
    case Start(plc) => if WhyNotStart(settings, a, plc).None? then a.(matchState := StartMatch) else a
    case Abort => AbortForStop(a, e.at)
    case Reset => if InProgress(a.matchState) then a else ResetMatch(a)
    case ClearCommand(table) => if a.matchState == PostMatch then ClearMatch(settings, a, table) else a
    case ResetFieldCommand(table) => if InProgress(a.matchState) then a else ResetField(settings, a, table)
    case ClearFieldEStop(first, second) => ClearFieldEStopCommand(a, first, second, e.at, e.done)
    case Substitute(ids, table) =>
      if |ids| == STATION_COUNT && SubstituteTeams(settings, a, ids, table).Ok?
      then SubstituteTeams(settings, a, ids, table).arena
      else a
    case SetMode(mode) => if InProgress(a.matchState) then a else a.(autoWinnerMode := mode)
    case ToggleBypass(i) => SetStation(a, i, a.stations[i].(bypass := !a.stations[i].bypass))
    case ToggleEStop(i) => SetStation(a, i, a.stations[i].(eStop := !a.stations[i].eStop))
    case BypassEmpty => BypassEmptyStations(a)
    case Connect(teamId, reply) => ConnectTeam(a, teamId, reply)
    case Disconnect(i, serial) => Teardown(a, i, serial)
    case Heard(teamId, linked) => HearFrom(a, teamId, linked, e.at)
    case Launch => LaunchLoop(a)
    case StartupRequest => HandOver(settings, a)
  }

  /** A new controller: no teams, an empty test match loaded, nothing sent. */
  function NewArena(settings: Settings, panel: Option<Panel>): Arena {
    var blank := Arena(
      PreMatch, seq(STATION_COUNT, _ => Station(None, None, false, false, false, !settings.plcEnabled, FaultNone)),
      Match(Test, [0, 0, 0, 0, 0, 0]), 0, 0, None, "", AllianceNone, RandomWinner, false, panel, false, FaultNone, 0,
      [], [], NotLaunched);
    SetupNetwork(settings, blank)
  }

  /** The states a new controller goes through: as[i] is the arena before event i. */
  predicate Run(settings: Settings, arenas: seq<Arena>, events: seq<Event>) {
    && |arenas| == |events| + 1
    && arenas[0] == NewArena(settings, arenas[0].panel)
    && (arenas[0].panel.Some? ==> Fresh(arenas[0].panel.value))
    && (forall i :: 0 <= i < |events| ==> arenas[i + 1] == Step(settings, arenas[i], events[i]))
    && (forall i :: 0 <= i < |events| ==> events[i].at <= events[i].done)
    && (forall i, j :: 0 <= i < j < |events| ==> events[i].done <= events[j].at)
  }

  // ----- validation

  /** No error means every team named is in the table and none is named twice. */
  predicate NamedOnce(ids: seq<int>, n: nat, table: TeamTable)
    requires n <= |ids|
  {
    && (forall i :: 0 <= i < n && ids[i] != 0 ==> ids[i] in table)
    && (forall i, j :: 0 <= i < j < n && ids[i] != 0 ==> ids[i] != ids[j])
  }

  lemma {:induction false} ValidLineup(ids: seq<int>, n: nat, table: TeamTable)
    requires n <= |ids|
    ensures ValidateTeams(ids, n, table).None? <==> NamedOnce(ids, n, table)
    ensures ValidateTeams(ids, n, table).None? ==> forall i :: 0 <= i < n ==> ids[i] >= 0
  {
    if n > 0 {
      ValidLineup(ids, n - 1, table);
      var id := ids[n - 1];
      if NamedOnce(ids, n, table) && id != 0 {
        assert id !in ids[..n - 1];
      }
      if id != 0 && id in ids[..n - 1] {
        var i :| 0 <= i < n - 1 && ids[..n - 1][i] == id;
        assert ids[i] == id;
      }
    }
  }
}

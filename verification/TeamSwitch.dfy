/** Incremental configuration of the team VLANs (network/switch.go): the controller remembers what it
    believes the switch holds, sends only differences, and starts over after any failed session. */
module TeamSwitch {
  import opened Options
  import opened TeamNetwork
  import opened SwitchDevice

  const GATEWAY_HOST := 4
  const LEASE_DAYS := 7
  const TRUNK_PORTS: seq<int> := [7, 8]
  const DMX_PORT := 9

  datatype Config = Config(address: string, dnsServer: string)
  datatype Status = Unknown | Disabled | Configuring | Active | Error

  /** `applied` is the lineup the switch is believed to hold, and means something only when `synced`. */
  datatype State = State(applied: Lineup, synced: bool, status: Status, device: Device)

  /** How each session of one configuration ends. */
  datatype Outcomes = Outcomes(baseline: Outcome, save: Outcome, remove: Outcome, add: Outcome)

  datatype Session = Session(commands: seq<Command>, outcome: Outcome)

  // ----- the command sequences

  function RemoveBlock(vlan: int): seq<Command> {
    [SelectVlanInterface(vlan), NoIpAddress, NoDhcpPool(vlan)]
  }

  function DnsLines(dns: string): seq<Command> {
    if dns == "" then [] else [DnsServer(dns)]
  }

  function PoolLines(vlan: int, net: Subnet): seq<Command> {
    [ExcludedAddresses(net, 1, 19), ExcludedAddresses(net, 200, 254), DhcpPool(vlan), Network(net),
     DefaultRouter(net, GATEWAY_HOST)]
  }

  function InterfaceLines(vlan: int, net: Subnet): seq<Command> {
    [Lease(LEASE_DAYS), SelectVlanInterface(vlan), IpAddress(net, GATEWAY_HOST)]
  }

  function AddBlock(dns: string, team: Option<Team>, vlan: int): seq<Command> {
    match team
    case None => []
    case Some(t) =>
      var net := TeamSubnet(t.id);
      PoolLines(vlan, net) + DnsLines(dns) + InterfaceLines(vlan, net)
  }

  /** The removal of the first n stations' VLANs, skipping those that keep their team. */
  function RemoveCommands(rebuild: SixFlags, n: Count): seq<Command>
  {
    if n == 0 then []
    else RemoveCommands(rebuild, n - 1) + if rebuild[n - 1] then RemoveBlock(VLAN_FOR_STATION[n - 1]) else []
  }

  function AddCommands(dns: string, teams: Teams, rebuild: SixFlags, n: Count): seq<Command>
  {
    if n == 0 then []
    else
      AddCommands(dns, teams, rebuild, n - 1)
      + if rebuild[n - 1] then AddBlock(dns, teams[n - 1], VLAN_FOR_STATION[n - 1]) else []
  }

  function VlanDatabase(n: Count): seq<Command>
  {
    if n == 0 then [] else VlanDatabase(n - 1) + [Standing("vlan"), Standing("name"), Exit]
  }

  /** Station n is on port n, as an access port of its own VLAN. */
  function StationPorts(n: Count): seq<Command>
  {
    if n == 0 then []
    else
      StationPorts(n - 1)
      + [SelectPort(n), AccessVlan(VLAN_FOR_STATION[n - 1]), Standing("spanning-tree portfast"), NoShutdown, Exit]
  }

  function ModeBlock(port: int, mode: Command): seq<Command> {
    [SelectPort(port), mode, NoShutdown, Exit]
  }

  function OtherPorts(): seq<Command> {
    ModeBlock(TRUNK_PORTS[0], TrunkVlans(ALL_VLANS)) + ModeBlock(TRUNK_PORTS[1], TrunkVlans(ALL_VLANS))
    + ModeBlock(DMX_PORT, AccessVlan(MANAGEMENT_VLAN))
  }

  function BaselineStart(): seq<Command> {
    [Standing("ip routing"), Standing("ntp server"), SelectVlanInterface(MANAGEMENT_VLAN),
     Standing("ip address secondary"), Exit]
  }

  function BaselineIntro(): seq<Command> {
    BaselineStart() + VlanDatabase(|VLAN_FOR_STATION|)
  }

  function Baseline(): seq<Command> {
    BaselineIntro() + StationPorts(|VLAN_FOR_STATION|) + OtherPorts()
  }

  function PortCommands(stations: SixFlags, verb: Command, n: Count): seq<Command>
  {
    if n == 0 then []
    else PortCommands(stations, verb, n - 1) + if stations[n - 1] then [SelectPort(n), verb] else []
  }

  // ----- one configuration

  function Rebuild(s: State, desired: Lineup): (r: SixFlags)
  {
    seq(STATION_COUNT, i requires 0 <= i < STATION_COUNT => !s.synced || desired[i] != s.applied[i])
  }

  /** The sessions that rebuild the VLANs whose team changed: one that removes them all, then one that adds. */
  function TeamSessions(cfg: Config, s: State, teams: Teams, o: Outcomes): seq<Session> {
    var rebuild := Rebuild(s, TeamIds(teams));
    var add := AddCommands(cfg.dnsServer, teams, rebuild, |rebuild|);
    [Session(RemoveCommands(rebuild, |rebuild|), o.remove)] + (if add == [] then [] else [Session(add, o.add)])
  }

  /** The sessions a configuration opens, in order; a failed one is the last. */
  function Sessions(cfg: Config, s: State, teams: Teams, o: Outcomes): seq<Session> {
    (if s.synced then [] else [Session(Baseline(), o.baseline), Session([WriteMemory], o.save)])
    + TeamSessions(cfg, s, teams, o)
  }

  /** Every line the switch receives, up to where the first failed session was cut. */
  function Lines(sessions: seq<Session>): seq<Command>
    decreases |sessions|
  {
    if sessions == [] then []
    else
      SessionLines(sessions[0].commands, sessions[0].outcome)
      + if sessions[0].outcome.Delivered? then Lines(sessions[1..]) else []
  }

  predicate AllDelivered(sessions: seq<Session>) {
    forall i :: 0 <= i < |sessions| ==> sessions[i].outcome.Delivered?
  }

  /** There is nothing to send: no switch, or the switch already believed to hold these teams. */
  predicate NothingToDo(cfg: Config, s: State, teams: Teams) {
    cfg.address == "" || (s.synced && TeamIds(teams) == s.applied)
  }

  /** The commands one call puts on the wire. */
  function Wire(cfg: Config, s: State, teams: Teams, o: Outcomes): seq<Command> {
    if NothingToDo(cfg, s, teams) then [] else Lines(Sessions(cfg, s, teams, o))
  }

  predicate Succeeds(cfg: Config, s: State, teams: Teams, o: Outcomes) {
    NothingToDo(cfg, s, teams) || AllDelivered(Sessions(cfg, s, teams, o))
  }

  function Configure(cfg: Config, s: State, teams: Teams, o: Outcomes): State {
    if cfg.address == "" then s.(status := Disabled)
    else if NothingToDo(cfg, s, teams) then s.(status := Active)
    else
      var device := ExecAll(s.device, Wire(cfg, s, teams, o));
      if Succeeds(cfg, s, teams, o)
      then State(TeamIds(teams), true, Active, device)
      else State(s.applied, false, Error, device)
  }

  // ----- port cycling

  datatype CycleResult = CycleOk | NotConfigured | ShutFailed | ReopenFailed

  function CycleSessions(stations: SixFlags, down: Outcome, up: Outcome): seq<Session>
  {
    [Session(PortCommands(stations, Shutdown, |stations|), down),
     Session(PortCommands(stations, NoShutdown, |stations|), up)]
  }

  function CycleOutcome(cfg: Config, stations: SixFlags, down: Outcome, up: Outcome): CycleResult
  {
    if cfg.address == "" then NotConfigured
    else if PortCommands(stations, Shutdown, |stations|) == [] then CycleOk
    else if !down.Delivered? then ShutFailed
    else if !up.Delivered? then ReopenFailed
    else CycleOk
  }

  function Cycle(cfg: Config, s: State, stations: SixFlags, down: Outcome, up: Outcome): State
  {
    if cfg.address == "" || PortCommands(stations, Shutdown, |stations|) == [] then s
    else s.(device := ExecAll(s.device, Lines(CycleSessions(stations, down, up))))
  }

  // ----- runs

  datatype Call =
    | ConfigureCall(teams: Teams, outcomes: Outcomes)
    | CycleCall(stations: SixFlags, down: Outcome, up: Outcome)

  /** What the arena asks for: distinct teams. */
  predicate ValidCall(c: Call) {
    match c
    case ConfigureCall(teams, _) => DistinctTeams(TeamIds(teams))
    case CycleCall(_, _, _) => true
  }

  function Step(cfg: Config, s: State, c: Call): State {
    match c
    case ConfigureCall(teams, o) => Configure(cfg, s, teams, o)
    case CycleCall(stations, down, up) => Cycle(cfg, s, stations, down, up)
  }

  predicate ValidCalls(calls: seq<Call>) {
    forall i :: 0 <= i < |calls| ==> ValidCall(calls[i])
  }

  function Run(cfg: Config, s: State, calls: seq<Call>): State
    decreases |calls|
  {
    if calls == [] then s else Run(cfg, Step(cfg, s, calls[0]), calls[1..])
  }

  /** At startup nothing is known of the switch, which may hold anything. */
  predicate Initial(s: State) {
    !s.synced && s.applied == [0, 0, 0, 0, 0, 0]
  }

  // ----- the independent description of a configured switch

  /** A station VLAN built for this team and nothing else. */
  function Built(dns: string, team: int): Vlan
    requires team >= 0
  {
    if team == 0 then BLANK_VLAN
    else
      var net := TeamSubnet(team);
      var resolver := if dns == "" then None else Some(dns);
      if ValidSubnet(net)
      then Vlan(Some((net, GATEWAY_HOST)), Some(Pool(Some(net), Some(GATEWAY_HOST), resolver, Some(LEASE_DAYS))))
      else Vlan(None, Some(Pool(None, None, resolver, Some(LEASE_DAYS))))
  }

  /** Leases on a team's subnet come from .20 to .199 only. */
  predicate LeasesKeptClear(d: Device, team: int)
    requires team >= 0
  {
    team != 0 && ValidSubnet(TeamSubnet(team)) ==>
      (TeamSubnet(team), 1, 19) in d.excluded && (TeamSubnet(team), 200, 254) in d.excluded
  }

  /** A station VLAN built for this team, whose interface may have been refused its address. */
  function Given(dns: string, team: int, served: bool): Vlan
    requires team >= 0
  {
    if served then Built(dns, team) else Built(dns, team).(address := None)
  }

  predicate Carries(dns: string, d: Device, ids: Lineup) {
    forall i :: 0 <= i < STATION_COUNT ==> VlanAt(d, VLAN_FOR_STATION[i]) == Built(dns, ids[i])
  }

  /** What the controller believes is so. */
  predicate BeliefHolds(cfg: Config, s: State) {
    s.synced ==>
      && Carries(cfg.dnsServer, s.device, s.applied)
      && forall i :: 0 <= i < STATION_COUNT ==> LeasesKeptClear(s.device, s.applied[i])
  }

  // ----- lineups that name a team twice

  /** A team with a subnet the switch can take. */
  predicate Usable(team: int) {
    team > 0 && ValidSubnet(TeamSubnet(team))
  }

  /** The switch takes a rebuilt station's subnet if no station that is kept has it and none is rebuilt for it before;
      a kept station has its own if it had it before. */
  predicate Gets(ids: Lineup, rebuild: SixFlags, had: SixFlags, i: nat)
    requires i < STATION_COUNT
  {
    if !rebuild[i] then had[i]
    else
      Usable(ids[i]) ==> forall j :: 0 <= j < STATION_COUNT && j != i && ids[j] == ids[i] ==>
        if rebuild[j] then i < j else !had[j]
  }

  function ServedFlags(ids: Lineup, rebuild: SixFlags, had: SixFlags): (has: SixFlags) {
    seq(STATION_COUNT, i requires 0 <= i < STATION_COUNT => Gets(ids, rebuild, had, i))
  }

  /** Which stations have their team's subnet after a call, told from what was asked for, now and before. */
  function ServedAfter(cfg: Config, s: State, had: SixFlags, c: Call): SixFlags {
    if c.ConfigureCall? && cfg.address != ""
    then ServedFlags(TeamIds(c.teams), Rebuild(s, TeamIds(c.teams)), had)
    else had
  }

  /** The same after a run. */
  function ServedBy(cfg: Config, s: State, had: SixFlags, calls: seq<Call>): SixFlags
    decreases |calls|
  {
    if calls == [] then had
    else ServedBy(cfg, Step(cfg, s, calls[0]), ServedAfter(cfg, s, had, calls[0]), calls[1..])
  }

  /** A synced switch holds each station's VLAN, but for the interfaces of those not served. */
  predicate Knows(cfg: Config, s: State, has: SixFlags) {
    s.synced ==>
      forall i :: 0 <= i < STATION_COUNT ==>
        && VlanAt(s.device, VLAN_FOR_STATION[i]) == Given(cfg.dnsServer, s.applied[i], has[i])
        && LeasesKeptClear(s.device, s.applied[i])
        && (has[i] || Usable(s.applied[i]))
  }
}

/** What the configuration of the team VLANs keeps true over every run, whatever sessions fail. */
module TeamSwitchProofs {
  import opened Options
  import opened TeamNetwork
  import opened SwitchDevice
  import opened TeamSwitch

  // ----- single blocks

  lemma RemoveBlockBlanks(d: Device, v: int)
    ensures VlanAt(ExecAll(d, RemoveBlock(v)), v) == BLANK_VLAN
    ensures forall w :: w != v ==> VlanAt(ExecAll(d, RemoveBlock(v)), w) == VlanAt(d, w)
  {
    var cs := RemoveBlock(v);
    var d1 := Exec(d, cs[0]);
    var d2 := Exec(d1, cs[1]);
    var d3 := Exec(d2, cs[2]);
    assert cs[1..] == [cs[1], cs[2]] && cs[1..][1..] == [cs[2]];
    assert ExecAll(d2, [cs[2]]) == d3;
    assert ExecAll(d, cs) == d3;
  }

  lemma PoolLinesBuild(d: Device, v: int, net: Subnet)
    requires VlanAt(d, v) == BLANK_VLAN
    ensures var e := ExecAll(d, PoolLines(v, net));
      && e.mode == PoolConfig(v)
      && VlanAt(e, v) == Vlan(None, Some(if ValidSubnet(net) then Pool(Some(net), Some(GATEWAY_HOST), None, None)
                                         else BLANK_POOL))
      && (forall w :: w != v ==> VlanAt(e, w) == VlanAt(d, w))
      && (ValidSubnet(net) ==> (net, 1, 19) in e.excluded && (net, 200, 254) in e.excluded)
    ensures !Taken(d, v, net) ==> ClashFree(d, PoolLines(v, net))
  {
    var cs := PoolLines(v, net);
    var d1 := Exec(d, cs[0]);
    var d2 := Exec(d1, cs[1]);
    var d3 := Exec(d2, cs[2]);
    var d4 := Exec(d3, cs[3]);
    var d5 := Exec(d4, cs[4]);
    assert cs[1..] == [cs[1], cs[2], cs[3], cs[4]];
    assert cs[1..][1..] == [cs[2], cs[3], cs[4]];
    assert [cs[2], cs[3], cs[4]][1..] == [cs[3], cs[4]];
    assert [cs[3], cs[4]][1..] == [cs[4]];
    assert ExecAll(d4, [cs[4]]) == d5;
    assert ExecAll(d3, [cs[3], cs[4]]) == d5;
    assert ExecAll(d1, cs[1..]) == d5;
    assert d3.mode == PoolConfig(v);
    assert Taken(d3, v, net) == Taken(d, v, net);
    if !Taken(d, v, net) {
      assert ClashFree(d3, [cs[3], cs[4]]);
      assert ClashFree(d1, cs[1..]);
    }
  }

  lemma DnsLinesBuild(d: Device, v: int, dns: string)
    requires d.mode == PoolConfig(v) && VlanAt(d, v).pool.Some? && VlanAt(d, v).pool.value.dns == None
    ensures var e := ExecAll(d, DnsLines(dns));
      && e.mode == PoolConfig(v) && e.excluded == d.excluded
      && VlanAt(e, v) == VlanAt(d, v).(pool := Some(VlanAt(d, v).pool.value.(dns := if dns == "" then None else Some(dns))))
      && (forall w :: w != v ==> VlanAt(e, w) == VlanAt(d, w))
    ensures ClashFree(d, DnsLines(dns))
  {
  }

  lemma InterfaceLinesBuild(d: Device, v: int, net: Subnet)
    requires d.mode == PoolConfig(v) && VlanAt(d, v).pool.Some? && VlanAt(d, v).address == None
    ensures var e := ExecAll(d, InterfaceLines(v, net));
      && e.excluded == d.excluded
      && VlanAt(e, v) == Vlan(if ValidSubnet(net) && !Overlaps(d, v, net) then Some((net, GATEWAY_HOST)) else None,
                              Some(VlanAt(d, v).pool.value.(leaseDays := Some(LEASE_DAYS))))
      && (forall w :: w != v ==> VlanAt(e, w) == VlanAt(d, w))
    ensures !Taken(d, v, net) ==> ClashFree(d, InterfaceLines(v, net))
  {
    var cs := InterfaceLines(v, net);
    var d1 := Exec(d, cs[0]);
    var d2 := Exec(d1, cs[1]);
    var d3 := Exec(d2, cs[2]);
    assert cs[1..] == [cs[1], cs[2]] && cs[1..][1..] == [cs[2]];
    assert ExecAll(d2, [cs[2]]) == d3;
    assert ExecAll(d, cs) == d3;
    assert Overlaps(d2, v, net) == Overlaps(d, v, net);
    assert Taken(d2, v, net) == Taken(d, v, net);
    if !Taken(d, v, net) {
      assert ClashFree(d2, [cs[2]]);
      assert ClashFree(d1, cs[1..]);
    }
  }

  /** Building a VLAN that is blank gives exactly the team's VLAN, but for the address if another interface has it. */
  lemma AddBlockBuilds(d: Device, dns: string, t: Team, v: int)
    requires VlanAt(d, v) == BLANK_VLAN
    ensures var e := ExecAll(d, AddBlock(dns, Some(t), v));
      && VlanAt(e, v) == Given(dns, t.id, !Overlaps(d, v, TeamSubnet(t.id)))
      && (forall w :: w != v ==> VlanAt(e, w) == VlanAt(d, w))
      && LeasesKeptClear(e, t.id)
    ensures !Taken(d, v, TeamSubnet(t.id)) ==> ClashFree(d, AddBlock(dns, Some(t), v))
  {
    var net := TeamSubnet(t.id);
    PoolLinesBuild(d, v, net);
    var d1 := ExecAll(d, PoolLines(v, net));
    DnsLinesBuild(d1, v, dns);
    var d2 := ExecAll(d1, DnsLines(dns));
    assert Overlaps(d2, v, net) == Overlaps(d, v, net);
    assert Taken(d1, v, net) == Taken(d, v, net) && Taken(d2, v, net) == Taken(d, v, net);
    InterfaceLinesBuild(d2, v, net);
    ExecAllConcat(d, PoolLines(v, net), DnsLines(dns));
    ExecAllConcat(d, PoolLines(v, net) + DnsLines(dns), InterfaceLines(v, net));
    ClashFreeConcat(d, PoolLines(v, net), DnsLines(dns));
    ClashFreeConcat(d, PoolLines(v, net) + DnsLines(dns), InterfaceLines(v, net));
  }

  // ----- removal

  function RebuiltVlans(rebuild: SixFlags): set<int>
  {
    set i | 0 <= i < STATION_COUNT && rebuild[i] :: VLAN_FOR_STATION[i]
  }

  lemma {:induction false} RemoveBlanks(d: Device, rebuild: SixFlags, n: Count)
    ensures forall j :: 0 <= j < n && rebuild[j] ==>
      VlanAt(ExecAll(d, RemoveCommands(rebuild, n)), VLAN_FOR_STATION[j]) == BLANK_VLAN
  {
    if n > 0 {
      RemoveBlanks(d, rebuild, n - 1);
      var cs := RemoveCommands(rebuild, n - 1);
      if rebuild[n - 1] {
        ExecAllConcat(d, cs, RemoveBlock(VLAN_FOR_STATION[n - 1]));
        RemoveBlockBlanks(ExecAll(d, cs), VLAN_FOR_STATION[n - 1]);
      } else {
        assert RemoveCommands(rebuild, n) == cs;
      }
    }
  }

  // ----- what kinds of commands there are

  /** A line that edits one of these VLANs or its pool, and nothing else. */
  predicate Edits(c: Command, vlans: set<int>) {
    match c
    case SelectVlanInterface(v) => v in vlans
    case NoDhcpPool(v) => v in vlans
    case DhcpPool(v) => v in vlans
    case NoIpAddress | ExcludedAddresses(_, _, _) | Network(_) | DefaultRouter(_, _) => true
    case DnsServer(_) | Lease(_) | IpAddress(_, _) => true
    case _ => false
  }

  lemma {:induction false} RemoveEdits(rebuild: SixFlags, n: Count)
    ensures forall c :: c in RemoveCommands(rebuild, n) ==> !Assigns(c) && Edits(c, RebuiltVlans(rebuild))
  {
    if n > 0 {
      RemoveEdits(rebuild, n - 1);
      if rebuild[n - 1] {
        assert VLAN_FOR_STATION[n - 1] in RebuiltVlans(rebuild);
      }
    }
  }

  lemma BlockEdits(dns: string, team: Option<Team>, v: int, vlans: set<int>)
    requires v in vlans
    ensures forall c :: c in AddBlock(dns, team, v) ==> Edits(c, vlans)
  {
  }

  lemma {:induction false} AddEdits(dns: string, teams: Teams, rebuild: SixFlags, n: Count)
    ensures forall c :: c in AddCommands(dns, teams, rebuild, n) ==> Edits(c, RebuiltVlans(rebuild))
  {
    if n > 0 {
      AddEdits(dns, teams, rebuild, n - 1);
      if rebuild[n - 1] {
        BlockEdits(dns, teams[n - 1], VLAN_FOR_STATION[n - 1], RebuiltVlans(rebuild));
      }
    }
  }

  /** Whatever sessions are cut, what holds of a login and of every command of the sessions holds of every line. */
  lemma {:induction false} LinesAreCommands(sessions: seq<Session>, holds: Command -> bool)
    requires holds(Login) && forall i :: 0 <= i < |sessions| ==> forall c :: c in sessions[i].commands ==> holds(c)
    ensures forall c :: c in Lines(sessions) ==> holds(c)
    decreases |sessions|
  {
    if sessions != [] {
      assert forall c :: c in sessions[0].commands ==> holds(c);
      LinesAreCommands(sessions[1..], holds);
    }
  }

  predicate PortCommand(c: Command) {
    c.Shutdown? || c.NoShutdown? || c.AccessVlan? || c.TrunkVlans?
  }

  /** The rebuilding sessions edit the VLANs that are rebuilt; they save nothing and touch no port. */
  predicate TeamLine(c: Command, vlans: set<int>) {
    Within(c, vlans) && c != WriteMemory && !PortCommand(c)
  }

  lemma TeamLinesEdit(cfg: Config, s: State, teams: Teams, o: Outcomes)
    ensures forall c :: c in Lines(TeamSessions(cfg, s, teams, o)) ==>
      TeamLine(c, RebuiltVlans(Rebuild(s, TeamIds(teams))))
  {
    var rebuild := Rebuild(s, TeamIds(teams));
    RemoveEdits(rebuild, |rebuild|);
    AddEdits(cfg.dnsServer, teams, rebuild, |rebuild|);
    LinesAreCommands(TeamSessions(cfg, s, teams, o), c => TeamLine(c, RebuiltVlans(rebuild)));
  }

  // ----- building

  /** Part way through building: the first n rebuilt VLANs are built, the rest still blank. */
  predicate PartBuilt(dns: string, d: Device, ids: Lineup, rebuild: SixFlags, has: SixFlags, n: nat)
  {
    forall j :: 0 <= j < STATION_COUNT ==>
      VlanAt(d, VLAN_FOR_STATION[j]) == if j < n || !rebuild[j] then Given(dns, ids[j], has[j]) else BLANK_VLAN
  }

  lemma NotTakenByOthers(dns: string, d: Device, ids: Lineup, rebuild: SixFlags, has: SixFlags, n: nat)
    requires n < STATION_COUNT && NoSubnetTwice(ids) && PartBuilt(dns, d, ids, rebuild, has, n) && ids[n] > 0
    ensures !Taken(d, VLAN_FOR_STATION[n], TeamSubnet(ids[n]))
  {
  }

  /** The switch refuses the interface of exactly the stations that do not get their subnet. */
  lemma RefusedExactlyWhen(dns: string, d: Device, ids: Lineup, rebuild: SixFlags, had: SixFlags, n: nat)
    requires n < STATION_COUNT && rebuild[n] && Usable(ids[n])
    requires PartBuilt(dns, d, ids, rebuild, ServedFlags(ids, rebuild, had), n)
    ensures Overlaps(d, VLAN_FOR_STATION[n], TeamSubnet(ids[n])) <==> !Gets(ids, rebuild, had, n)
  {
  }

  /** The commands, run from a switch with every rebuilt VLAN blank, build the first n of them. */
  predicate Builds(dns: string, d: Device, cs: seq<Command>, ids: Lineup, rebuild: SixFlags, has: SixFlags, n: Count)
  {
    && PartBuilt(dns, ExecAll(d, cs), ids, rebuild, has, n)
    && (forall j :: 0 <= j < n && rebuild[j] ==> LeasesKeptClear(ExecAll(d, cs), ids[j]))
    && (NoSubnetTwice(ids) ==> ClashFree(d, cs))
  }

  lemma BuildOneMore(dns: string, d: Device, cs: seq<Command>, block: seq<Command>, ids: Lineup, rebuild: SixFlags,
                     has: SixFlags, n: nat)
    requires n < STATION_COUNT && Builds(dns, d, cs, ids, rebuild, has, n)
    requires var mid := ExecAll(d, cs);
      && PartBuilt(dns, ExecAll(mid, block), ids, rebuild, has, n + 1)
      && (rebuild[n] ==> LeasesKeptClear(ExecAll(mid, block), ids[n]))
      && (NoSubnetTwice(ids) ==> ClashFree(mid, block))
    ensures Builds(dns, d, cs + block, ids, rebuild, has, n + 1)
  {
    ExecAllConcat(d, cs, block);
    ClashFreeConcat(d, cs, block);
    ExclusionsKept(ExecAll(d, cs), block);
  }

  lemma BlockBuilds(dns: string, d: Device, teams: Teams, rebuild: SixFlags, had: SixFlags, n: nat)
    requires n < STATION_COUNT && rebuild[n]
    requires PartBuilt(dns, d, TeamIds(teams), rebuild, ServedFlags(TeamIds(teams), rebuild, had), n)
    ensures var block := AddBlock(dns, teams[n], VLAN_FOR_STATION[n]);
      var ids := TeamIds(teams);
      && PartBuilt(dns, ExecAll(d, block), ids, rebuild, ServedFlags(ids, rebuild, had), n + 1)
      && LeasesKeptClear(ExecAll(d, block), ids[n])
      && (NoSubnetTwice(ids) ==> ClashFree(d, block))
  {
    if teams[n].Some? {
      var ids := TeamIds(teams);
      if NoSubnetTwice(ids) {
        NotTakenByOthers(dns, d, ids, rebuild, ServedFlags(ids, rebuild, had), n);
      }
      if Usable(ids[n]) {
        RefusedExactlyWhen(dns, d, ids, rebuild, had, n);
      }
      AddBlockBuilds(d, dns, teams[n].value, VLAN_FOR_STATION[n]);
    }
  }

  lemma BuildsNext(dns: string, d: Device, before: seq<Command>, teams: Teams, rebuild: SixFlags, had: SixFlags, n: nat)
    requires n < STATION_COUNT
    requires Builds(dns, d, before, TeamIds(teams), rebuild, ServedFlags(TeamIds(teams), rebuild, had), n)
    ensures Builds(dns, d, before + if rebuild[n] then AddBlock(dns, teams[n], VLAN_FOR_STATION[n]) else [],
                   TeamIds(teams), rebuild, ServedFlags(TeamIds(teams), rebuild, had), n + 1)
  {
    if rebuild[n] {
      BlockBuilds(dns, ExecAll(d, before), teams, rebuild, had, n);
      BuildOneMore(dns, d, before, AddBlock(dns, teams[n], VLAN_FOR_STATION[n]), TeamIds(teams), rebuild,
                   ServedFlags(TeamIds(teams), rebuild, had), n);
    } else {
      assert before + [] == before;
    }
  }

  lemma {:induction false} AddBuilds(
    dns: string, d: Device, teams: Teams, rebuild: SixFlags, had: SixFlags, n: Count)
    requires PartBuilt(dns, d, TeamIds(teams), rebuild, ServedFlags(TeamIds(teams), rebuild, had), 0)
    ensures Builds(dns, d, AddCommands(dns, teams, rebuild, n), TeamIds(teams), rebuild,
                   ServedFlags(TeamIds(teams), rebuild, had), n)
  {
    if n == 0 {
      assert ExecAll(d, []) == d;
    } else {
      AddBuilds(dns, d, teams, rebuild, had, n - 1);
      BuildsNext(dns, d, AddCommands(dns, teams, rebuild, n - 1), teams, rebuild, had, n - 1);
    }
  }

  // ----- the baseline and the ports

  predicate KeepsTeamVlans(c: Command) {
    !Assigns(c) && Within(c, {MANAGEMENT_VLAN})
  }

  lemma {:induction false} StandingLines(n: Count)
    ensures forall c :: c in VlanDatabase(n) ==> KeepsTeamVlans(c) && c != WriteMemory && !c.SelectPort?
    ensures forall c :: c in StationPorts(n) ==> KeepsTeamVlans(c) && c != WriteMemory
  {
    if n > 0 {
      StandingLines(n - 1);
    }
  }

  lemma OtherLines()
    ensures forall c :: c in BaselineStart() ==> KeepsTeamVlans(c) && c != WriteMemory
    ensures forall c :: c in OtherPorts() ==> KeepsTeamVlans(c) && c != WriteMemory
  {
  }

  lemma BaselineKeepsTeamVlans()
    ensures forall c :: c in Baseline() ==> KeepsTeamVlans(c) && c != WriteMemory
  {
    StandingLines(|VLAN_FOR_STATION|);
    OtherLines();
  }

  lemma {:induction false} PortCommandsKeepTeamVlans(stations: SixFlags, verb: Command, n: Count)
    requires (verb == Shutdown || verb == NoShutdown)
    ensures forall c :: c in PortCommands(stations, verb, n) ==> KeepsTeamVlans(c) && c != WriteMemory
  {
    if n > 0 {
      PortCommandsKeepTeamVlans(stations, verb, n - 1);
    }
  }

  // ----- whole sessions

  /** A session of commands that keep team VLANs changes none of them and cannot clash. */
  lemma HarmlessSession(d: Device, cs: seq<Command>, o: Outcome)
    requires forall c :: c in cs ==> KeepsTeamVlans(c)
    ensures forall v :: v != MANAGEMENT_VLAN ==> VlanAt(ExecAll(d, SessionLines(cs, o)), v) == VlanAt(d, v)
    ensures ClashFree(d, SessionLines(cs, o))
  {
    var lines := SessionLines(cs, o);
    assert forall c :: c in lines ==> c == Login || c in cs;
    UnassigningIsClashFree(d, lines);
    SessionKeepsOthers(d, cs, o, {MANAGEMENT_VLAN});
  }

  /** A session whose full command list cannot clash cannot clash when it is cut short either. */
  lemma CutStaysClashFree(d: Device, cs: seq<Command>, o: Outcome)
    requires ClashFree(d.(mode := GlobalConfig), cs)
    ensures ClashFree(d, SessionLines(cs, o))
  {
    var lines := SessionLines(cs, o);
    var login := d.(mode := GlobalConfig);
    assert lines[0] == Login && Exec(d, Login) == login;
    assert lines[1..] <= cs;
    assert cs == lines[1..] + cs[|lines| - 1..];
    ClashFreeConcat(login, lines[1..], cs[|lines| - 1..]);
  }

  /** The effect of the first session, then of the rest if it was delivered. */
  lemma FirstSession(d: Device, sessions: seq<Session>)
    requires sessions != []
    ensures var first := SessionLines(sessions[0].commands, sessions[0].outcome);
      var mid := ExecAll(d, first);
      var rest := if sessions[0].outcome.Delivered? then Lines(sessions[1..]) else [];
      && ExecAll(d, Lines(sessions)) == ExecAll(mid, rest)
      && (ClashFree(d, Lines(sessions)) <==> ClashFree(d, first) && ClashFree(mid, rest))
    ensures AllDelivered(sessions) <==> sessions[0].outcome.Delivered? && AllDelivered(sessions[1..])
  {
    var first := SessionLines(sessions[0].commands, sessions[0].outcome);
    var rest := if sessions[0].outcome.Delivered? then Lines(sessions[1..]) else [];
    assert Lines(sessions) == first + rest;
    ExecAllConcat(d, first, rest);
    ClashFreeConcat(d, first, rest);
    if sessions[0].outcome.Delivered? && AllDelivered(sessions[1..]) {
      forall i | 0 <= i < |sessions| ensures sessions[i].outcome.Delivered? {
        if i > 0 {
          assert sessions[i] == sessions[1..][i - 1];
        }
      }
    }
  }

  /** Each station's VLAN, but for the interfaces of those not served. */
  predicate Holds(dns: string, d: Device, ids: Lineup, has: SixFlags) {
    forall i :: 0 <= i < STATION_COUNT ==> VlanAt(d, VLAN_FOR_STATION[i]) == Given(dns, ids[i], has[i])
  }

  /** What the rebuilding sessions do to a switch that holds the VLANs that are kept. */
  predicate Rebuilds(cfg: Config, s: State, teams: Teams, had: SixFlags, o: Outcomes, d: Device) {
    var ids := TeamIds(teams);
    var rebuild := Rebuild(s, ids);
    var sessions := TeamSessions(cfg, s, teams, o);
    var after := ExecAll(d, Lines(sessions));
    && (NoSubnetTwice(ids) ==> ClashFree(d, Lines(sessions)))
    && (AllDelivered(sessions) ==>
          && Holds(cfg.dnsServer, after, ids, ServedFlags(ids, rebuild, had))
          && forall j :: 0 <= j < STATION_COUNT && rebuild[j] ==> LeasesKeptClear(after, ids[j]))
  }

  predicate KeptAreHeld(cfg: Config, s: State, ids: Lineup, had: SixFlags, d: Device) {
    forall j :: 0 <= j < STATION_COUNT && !Rebuild(s, ids)[j] ==>
      VlanAt(d, VLAN_FOR_STATION[j]) == Given(cfg.dnsServer, ids[j], had[j])
  }

  lemma RemoveSession(cfg: Config, s: State, ids: Lineup, had: SixFlags, d: Device, o: Outcome)
    requires KeptAreHeld(cfg, s, ids, had, d)
    ensures var rebuild := Rebuild(s, ids);
      var lines := SessionLines(RemoveCommands(rebuild, |rebuild|), o);
      var after := ExecAll(d, lines);
      && ClashFree(d, lines)
      && (o.Delivered? ==> PartBuilt(cfg.dnsServer, after, ids, rebuild, ServedFlags(ids, rebuild, had), 0))
  {
    var rebuild := Rebuild(s, ids);
    var remove := RemoveCommands(rebuild, |rebuild|);
    RemoveEdits(rebuild, |rebuild|);
    SessionKeepsOthers(d, remove, o, RebuiltVlans(rebuild));
    UnassigningIsClashFree(d, SessionLines(remove, o));
    if o.Delivered? {
      RemoveBlanks(d.(mode := GlobalConfig), rebuild, |rebuild|);
    }
  }

  lemma AddSession(dns: string, teams: Teams, rebuild: SixFlags, had: SixFlags, d: Device, o: Outcome)
    requires PartBuilt(dns, d, TeamIds(teams), rebuild, ServedFlags(TeamIds(teams), rebuild, had), 0)
    ensures var add := AddCommands(dns, teams, rebuild, |rebuild|);
      var ids := TeamIds(teams);
      var after := ExecAll(d, SessionLines(add, o));
      && (NoSubnetTwice(ids) ==> ClashFree(d, SessionLines(add, o)))
      && (o.Delivered? ==>
            && Holds(dns, after, ids, ServedFlags(ids, rebuild, had))
            && forall j :: 0 <= j < STATION_COUNT && rebuild[j] ==> LeasesKeptClear(after, ids[j]))
  {
    var add := AddCommands(dns, teams, rebuild, |rebuild|);
    var ids := TeamIds(teams);
    var login := d.(mode := GlobalConfig);
    assert PartBuilt(dns, login, ids, rebuild, ServedFlags(ids, rebuild, had), 0);
    AddBuilds(dns, login, teams, rebuild, had, |rebuild|);
    if NoSubnetTwice(ids) {
      CutStaysClashFree(d, add, o);
    }
  }

  /** Removing and then adding: clash-free however it is cut, and a full rebuild when it is not. */
  lemma RemoveThenAdd(cfg: Config, s: State, teams: Teams, had: SixFlags, o: Outcomes, d: Device)
    requires KeptAreHeld(cfg, s, TeamIds(teams), had, d)
    ensures Rebuilds(cfg, s, teams, had, o, d)
  {
    var rebuild := Rebuild(s, TeamIds(teams));
    var remove := RemoveCommands(rebuild, |rebuild|);
    var add := AddCommands(cfg.dnsServer, teams, rebuild, |rebuild|);
    var sessions := TeamSessions(cfg, s, teams, o);
    var mid := ExecAll(d, SessionLines(remove, o.remove));
    FirstSession(d, sessions);
    RemoveSession(cfg, s, TeamIds(teams), had, d, o.remove);
    if o.remove.Delivered? {
      if add == [] {
        AddBuilds(cfg.dnsServer, mid, teams, rebuild, had, |rebuild|);
        assert sessions[1..] == [];
      } else {
        assert sessions[1..] == [Session(add, o.add)];
        AddSession(cfg.dnsServer, teams, rebuild, had, mid, o.add);
        FirstSession(mid, sessions[1..]);
        assert Lines(sessions[1..][1..]) == [];
      }
    }
  }

  lemma SessionKeepsOthers(d: Device, cs: seq<Command>, o: Outcome, vlans: set<int>)
    requires forall c :: c in cs ==> Within(c, vlans)
    ensures forall v :: v !in vlans ==> VlanAt(ExecAll(d, SessionLines(cs, o)), v) == VlanAt(d, v)
  {
    var lines := SessionLines(cs, o);
    assert lines[0] == Login;
    forall v | v !in vlans ensures VlanAt(ExecAll(d, lines), v) == VlanAt(d, v) {
      OtherVlansKept(Exec(d, Login), lines[1..], vlans, v);
    }
  }

  // ----- one call

  /** Two sessions that change no team VLAN, followed by others. */
  lemma AfterTwoHarmless(d: Device, a: Session, b: Session, rest: seq<Session>)
    requires forall c :: c in a.commands || c in b.commands ==> KeepsTeamVlans(c)
    ensures var sessions := [a, b] + rest;
      var first, second := SessionLines(a.commands, a.outcome), SessionLines(b.commands, b.outcome);
      var mid := ExecAll(ExecAll(d, first), second);
      var reached := a.outcome.Delivered? && b.outcome.Delivered?;
      && (AllDelivered(sessions) <==> reached && AllDelivered(rest))
      && (reached ==> ExecAll(d, Lines(sessions)) == ExecAll(mid, Lines(rest)))
      && (ClashFree(d, Lines(sessions)) <==> reached ==> ClashFree(mid, Lines(rest)))
      && forall v :: v != MANAGEMENT_VLAN ==> VlanAt(mid, v) == VlanAt(d, v)
  {
    var sessions := [a, b] + rest;
    FirstSession(d, sessions);
    HarmlessSession(d, a.commands, a.outcome);
    var d1 := ExecAll(d, SessionLines(a.commands, a.outcome));
    HarmlessSession(d1, b.commands, b.outcome);
    assert sessions[1..] == [b] + rest;
    FirstSession(d1, sessions[1..]);
    assert sessions[1..][1..] == rest;
  }

  function BaselineSession(o: Outcomes): Session { Session(Baseline(), o.baseline) }
  function SaveSession(o: Outcomes): Session { Session([WriteMemory], o.save) }

  function AfterBaseline(d: Device, o: Outcomes): Device {
    ExecAll(ExecAll(d, SessionLines(BaselineSession(o).commands, o.baseline)), SessionLines(SaveSession(o).commands, o.save))
  }

  /** The baseline and its save change no team VLAN, so the rebuilding sessions find them as they were. */
  lemma BaselineSessions(cfg: Config, s: State, teams: Teams, o: Outcomes)
    requires !s.synced
    ensures var sessions := Sessions(cfg, s, teams, o);
      var mid := AfterBaseline(s.device, o);
      var reached := o.baseline.Delivered? && o.save.Delivered?;
      && (AllDelivered(sessions) <==> reached && AllDelivered(TeamSessions(cfg, s, teams, o)))
      && (reached ==> ExecAll(s.device, Lines(sessions)) == ExecAll(mid, Lines(TeamSessions(cfg, s, teams, o))))
      && (ClashFree(s.device, Lines(sessions)) <==> reached ==> ClashFree(mid, Lines(TeamSessions(cfg, s, teams, o))))
      && forall v :: v != MANAGEMENT_VLAN ==> VlanAt(mid, v) == VlanAt(s.device, v)
  {
    BaselineKeepsTeamVlans();
    AfterTwoHarmless(s.device, BaselineSession(o), SaveSession(o), TeamSessions(cfg, s, teams, o));
  }

  lemma CallRebuilds(cfg: Config, s: State, teams: Teams, had: SixFlags, o: Outcomes)
    requires Knows(cfg, s, had) && !NothingToDo(cfg, s, teams)
    ensures var ids := TeamIds(teams);
      var after := ExecAll(s.device, Lines(Sessions(cfg, s, teams, o)));
      && (NoSubnetTwice(ids) ==> ClashFree(s.device, Lines(Sessions(cfg, s, teams, o))))
      && (AllDelivered(Sessions(cfg, s, teams, o)) ==>
            && Holds(cfg.dnsServer, after, ids, ServedFlags(ids, Rebuild(s, ids), had))
            && forall i :: 0 <= i < STATION_COUNT ==> LeasesKeptClear(after, ids[i]))
  {
    ExclusionsKept(s.device, Lines(Sessions(cfg, s, teams, o)));
    if s.synced {
      assert Sessions(cfg, s, teams, o) == TeamSessions(cfg, s, teams, o);
      RemoveThenAdd(cfg, s, teams, had, o, s.device);
    } else {
      var mid := AfterBaseline(s.device, o);
      BaselineSessions(cfg, s, teams, o);
      RemoveThenAdd(cfg, s, teams, had, o, mid);
    }
  }

  /** Everything one call does, whatever it asks for and whatever was asked for before: its success leaves each
      station's VLAN as built for its team, with an address exactly at the stations that get their subnet. */
  lemma ConfigureServes(cfg: Config, s: State, teams: Teams, had: SixFlags, o: Outcomes)
    requires Knows(cfg, s, had)
    ensures Knows(cfg, Configure(cfg, s, teams, o), ServedAfter(cfg, s, had, ConfigureCall(teams, o)))
    ensures NoSubnetTwice(TeamIds(teams)) ==> ClashFree(s.device, Wire(cfg, s, teams, o))
    ensures cfg.address != "" && Succeeds(cfg, s, teams, o) ==>
      var t := Configure(cfg, s, teams, o); t.synced && t.applied == TeamIds(teams) && t.status == Active
  {
    if NothingToDo(cfg, s, teams) {
      assert cfg.address != "" ==> ServedFlags(TeamIds(teams), Rebuild(s, TeamIds(teams)), had) == had;
    } else {
      CallRebuilds(cfg, s, teams, had, o);
      if Succeeds(cfg, s, teams, o) {
        ServedAreKnown(cfg, Configure(cfg, s, teams, o), Rebuild(s, TeamIds(teams)), had);
      }
    }
  }

  lemma ServedAreKnown(cfg: Config, t: State, rebuild: SixFlags, had: SixFlags)
    requires Holds(cfg.dnsServer, t.device, t.applied, ServedFlags(t.applied, rebuild, had))
    requires forall i :: 0 <= i < STATION_COUNT ==> LeasesKeptClear(t.device, t.applied[i])
    requires forall i :: 0 <= i < STATION_COUNT && !rebuild[i] ==> had[i] || Usable(t.applied[i])
    ensures Knows(cfg, t, ServedFlags(t.applied, rebuild, had))
  {
  }

  const ALL_SERVED: SixFlags := [true, true, true, true, true, true]

  lemma BeliefMeansAllServed(cfg: Config, s: State)
    ensures BeliefHolds(cfg, s) <==> Knows(cfg, s, ALL_SERVED)
  {
  }

  lemma DistinctAreServed(ids: Lineup, rebuild: SixFlags)
    requires NoSubnetTwice(ids)
    ensures ServedFlags(ids, rebuild, ALL_SERVED) == ALL_SERVED
  {
    assert forall i :: 0 <= i < STATION_COUNT ==> Gets(ids, rebuild, ALL_SERVED, i);
  }

  /** Everything one call guarantees, from a state whose belief holds. */
  lemma ConfigureEffect(cfg: Config, s: State, teams: Teams, o: Outcomes)
    requires BeliefHolds(cfg, s) && NoSubnetTwice(TeamIds(teams))
    ensures BeliefHolds(cfg, Configure(cfg, s, teams, o))
    ensures ClashFree(s.device, Wire(cfg, s, teams, o))
    ensures cfg.address != "" && Succeeds(cfg, s, teams, o) ==>
      var t := Configure(cfg, s, teams, o);
      t.synced && t.applied == TeamIds(teams) && t.status == Active && Carries(cfg.dnsServer, t.device, TeamIds(teams))
  {
    BeliefMeansAllServed(cfg, s);
    ConfigureServes(cfg, s, teams, ALL_SERVED, o);
    DistinctAreServed(TeamIds(teams), Rebuild(s, TeamIds(teams)));
    BeliefMeansAllServed(cfg, Configure(cfg, s, teams, o));
  }

  /** What the status shows after a call: whether there is a switch, and whether the call succeeded. */
  lemma StatusTells(cfg: Config, s: State, teams: Teams, o: Outcomes)
    ensures var t := Configure(cfg, s, teams, o);
      if cfg.address == "" then t == s.(status := Disabled)
      else if Succeeds(cfg, s, teams, o) then t.status == Active && t.synced && t.applied == TeamIds(teams)
      else t.status == Error && !t.synced && t.applied == s.applied
  {
  }

  lemma CycleEffect(cfg: Config, s: State, stations: SixFlags, down: Outcome, up: Outcome)
    ensures var t := Cycle(cfg, s, stations, down, up);
      && t == s.(device := t.device)
      && s.device.excluded <= t.device.excluded
      && forall v :: v != MANAGEMENT_VLAN ==> VlanAt(t.device, v) == VlanAt(s.device, v)
  {
    var sessions := CycleSessions(stations, down, up);
    PortCommandsKeepTeamVlans(stations, Shutdown, |stations|);
    PortCommandsKeepTeamVlans(stations, NoShutdown, |stations|);
    FirstSession(s.device, sessions);
    HarmlessSession(s.device, sessions[0].commands, down);
    var mid := ExecAll(s.device, SessionLines(sessions[0].commands, down));
    FirstSession(mid, sessions[1..]);
    HarmlessSession(mid, sessions[1].commands, up);
    assert Lines(sessions[1..][1..]) == [];
    ExclusionsKept(s.device, Lines(sessions));
  }

  // ----- whole runs

  lemma StepKeepsBelief(cfg: Config, s: State, c: Call)
    requires ValidCall(c) && BeliefHolds(cfg, s)
    ensures BeliefHolds(cfg, Step(cfg, s, c))
  {
    match c
    case ConfigureCall(teams, o) => ConfigureEffect(cfg, s, teams, o);
    case CycleCall(stations, down, up) => CycleEffect(cfg, s, stations, down, up);
  }

  /** Over any run, whatever sessions fail and wherever: `synced` means the switch holds exactly the VLANs of
      `applied`, with every leased range kept clear of the static ones. */
  lemma {:induction false} SyncedMeansConfigured(cfg: Config, s: State, calls: seq<Call>)
    requires ValidCalls(calls) && BeliefHolds(cfg, s)
    ensures BeliefHolds(cfg, Run(cfg, s, calls))
    decreases |calls|
  {
    if calls != [] {
      StepKeepsBelief(cfg, s, calls[0]);
      SyncedMeansConfigured(cfg, Step(cfg, s, calls[0]), calls[1..]);
    }
  }

  /** After any run, a configuration that returns no error leaves all six VLANs as a fresh build would. */
  lemma SuccessMeansFreshBuild(cfg: Config, s: State, calls: seq<Call>, teams: Teams, o: Outcomes)
    requires Initial(s) && ValidCalls(calls) && DistinctTeams(TeamIds(teams)) && cfg.address != ""
    requires Succeeds(cfg, Run(cfg, s, calls), teams, o)
    ensures Carries(cfg.dnsServer, Configure(cfg, Run(cfg, s, calls), teams, o).device, TeamIds(teams))
    ensures Configure(cfg, Run(cfg, s, calls), teams, o).status == Active
  {
    SyncedMeansConfigured(cfg, s, calls);
    ConfigureEffect(cfg, Run(cfg, s, calls), teams, o);
  }

  /** The VLAN of a station has its gateway at host 4 of the subnet that spells the team number, and leases the rest of
      that subnet, .20 to .199, for seven days. */
  predicate ServesTeam(cfg: Config, d: Device, vlan: int, team: int) {
    var v := VlanAt(d, vlan);
    && v.address.Some? && v.pool.Some?
    && var net := v.address.value.0;
       && 100 * net.second + net.third == team && 0 <= net.third <= 99
       && v.address.value.1 == 4
       && v.pool.value == Pool(Some(net), Some(4), if cfg.dnsServer == "" then None else Some(cfg.dnsServer), Some(7))
       && (net, 1, 19) in d.excluded && (net, 200, 254) in d.excluded
  }

  /** After any run, a configuration that returns no error leaves the six VLANs serving just the teams asked for. */
  lemma SuccessServesTeams(cfg: Config, s: State, calls: seq<Call>, teams: Teams, o: Outcomes, i: nat)
    requires Initial(s) && ValidCalls(calls) && DistinctTeams(TeamIds(teams)) && cfg.address != ""
    requires Succeeds(cfg, Run(cfg, s, calls), teams, o) && i < STATION_COUNT
    ensures var d, vlan := Configure(cfg, Run(cfg, s, calls), teams, o).device, [10, 20, 30, 40, 50, 60][i];
      && (teams[i].None? ==> VlanAt(d, vlan) == Vlan(None, None))
      && (teams[i].Some? ==>
            if teams[i].value.id <= 25599 then ServesTeam(cfg, d, vlan, teams[i].value.id)
            else VlanAt(d, vlan).address.None?)
  {
    SuccessMeansFreshBuild(cfg, s, calls, teams, o);
    SyncedMeansConfigured(cfg, s, calls);
    ConfigureEffect(cfg, Run(cfg, s, calls), teams, o);
    var t := Configure(cfg, Run(cfg, s, calls), teams, o);
    assert VlanAt(t.device, VLAN_FOR_STATION[i]) == Built(cfg.dnsServer, TeamIds(teams)[i]);
    assert LeasesKeptClear(t.device, TeamIds(teams)[i]);
    if teams[i].Some? {
      SubnetSpellsTeam(teams[i].value.id);
      AddressableTeams(teams[i].value.id);
    }
  }

  /** After any run, no command of any configuration, complete or cut, gives a station VLAN a subnet another
      station VLAN holds at that moment, or the field's own subnet. */
  lemma NoCommandClashes(cfg: Config, s: State, calls: seq<Call>, teams: Teams, o: Outcomes, k: nat)
    requires Initial(s) && ValidCalls(calls) && DistinctTeams(TeamIds(teams))
    requires k < |Wire(cfg, Run(cfg, s, calls), teams, o)|
    ensures var now := Run(cfg, s, calls);
      var wire := Wire(cfg, now, teams, o);
      !Clashes(ExecAll(now.device, wire[..k]), wire[k])
  {
    SyncedMeansConfigured(cfg, s, calls);
    var now := Run(cfg, s, calls);
    ConfigureEffect(cfg, now, teams, o);
    ClashFreeAt(now.device, Wire(cfg, now, teams, o), k);
  }

  /** Once synced, not even a configuration that is cut half way disturbs a station that keeps its team:
      its VLAN is the same after every single command. */
  lemma UnchangedStationsUndisturbed(cfg: Config, s: State, teams: Teams, o: Outcomes, i: nat, k: nat)
    requires s.synced && i < STATION_COUNT && TeamIds(teams)[i] == s.applied[i]
    requires k <= |Wire(cfg, s, teams, o)|
    ensures VlanAt(ExecAll(s.device, Wire(cfg, s, teams, o)[..k]), VLAN_FOR_STATION[i])
         == VlanAt(s.device, VLAN_FOR_STATION[i])
  {
    var wire := Wire(cfg, s, teams, o);
    if k > 0 {
      SyncedWire(cfg, s, teams, o);
      KeptOverLines(s.device, wire, RebuiltVlans(Rebuild(s, TeamIds(teams))), VLAN_FOR_STATION[i], k);
    }
  }

  lemma SyncedWire(cfg: Config, s: State, teams: Teams, o: Outcomes)
    requires s.synced && Wire(cfg, s, teams, o) != []
    ensures var wire := Wire(cfg, s, teams, o);
      wire[0] == Login && forall c :: c in wire ==> Within(c, RebuiltVlans(Rebuild(s, TeamIds(teams))))
  {
    assert Sessions(cfg, s, teams, o) == TeamSessions(cfg, s, teams, o);
    TeamLinesEdit(cfg, s, teams, o);
  }

  /** A VLAN none of the lines concerns is the same after every one of them. */
  lemma KeptOverLines(d: Device, lines: seq<Command>, vlans: set<int>, v: int, k: nat)
    requires 0 < k <= |lines| && lines[0] == Login && v !in vlans && forall c :: c in lines ==> Within(c, vlans)
    ensures VlanAt(ExecAll(d, lines[..k]), v) == VlanAt(d, v)
  {
    assert lines[..k][0] == Login && lines[..k][1..] == lines[1..k];
    assert forall c :: c in lines[1..k] ==> c in lines;
    OtherVlansKept(Exec(d, Login), lines[1..k], vlans, v);
  }

  // ----- lineups that name a team twice

  lemma StepServes(cfg: Config, s: State, had: SixFlags, c: Call)
    requires Knows(cfg, s, had)
    ensures Knows(cfg, Step(cfg, s, c), ServedAfter(cfg, s, had, c))
  {
    match c
    case ConfigureCall(teams, o) => ConfigureServes(cfg, s, teams, had, o);
    case CycleCall(stations, down, up) => CycleEffect(cfg, s, stations, down, up);
  }

  lemma {:induction false} RunServes(cfg: Config, s: State, had: SixFlags, calls: seq<Call>)
    requires Knows(cfg, s, had)
    ensures Knows(cfg, Run(cfg, s, calls), ServedBy(cfg, s, had, calls))
    decreases |calls|
  {
    if calls != [] {
      StepServes(cfg, s, had, calls[0]);
      RunServes(cfg, Step(cfg, s, calls[0]), ServedAfter(cfg, s, had, calls[0]), calls[1..]);
    }
  }

  /** After any run, whatever lineups it asked for and whatever sessions failed, a synced controller's belief is right
      if and only if every station got its team's subnet when it was last rebuilt. */
  lemma BeliefRightExactlyWhenServed(cfg: Config, s: State, calls: seq<Call>)
    requires Initial(s) && Run(cfg, s, calls).synced
    ensures var t := Run(cfg, s, calls);
      Carries(cfg.dnsServer, t.device, t.applied) <==> ServedBy(cfg, s, ALL_SERVED, calls) == ALL_SERVED
  {
    var has := ServedBy(cfg, s, ALL_SERVED, calls);
    RunServes(cfg, s, ALL_SERVED, calls);
    assert has == ALL_SERVED <==> forall i :: 0 <= i < STATION_COUNT ==> has[i];
  }

  /** No two stations have the same subnet. */
  predicate Exclusive(s: State, has: SixFlags) {
    s.synced ==>
      forall i, j :: 0 <= i < j < STATION_COUNT && s.applied[i] == s.applied[j] && Usable(s.applied[i]) ==>
        !has[i] || !has[j]
  }

  lemma FlagsStayExclusive(cfg: Config, s: State, had: SixFlags, c: Call)
    requires Exclusive(s, had)
    ensures Exclusive(Step(cfg, s, c), ServedAfter(cfg, s, had, c))
  {
    if c.ConfigureCall? && cfg.address != "" && Step(cfg, s, c).synced {
      var ids := TeamIds(c.teams);
      assert Step(cfg, s, c).applied == ids;
      forall i, j | 0 <= i < j < STATION_COUNT && ids[i] == ids[j] && Usable(ids[i])
        ensures !Gets(ids, Rebuild(s, ids), had, i) || !Gets(ids, Rebuild(s, ids), had, j)
      {
        OneGets(s, ids, had, i, j);
      }
    }
  }

  lemma OneGets(s: State, ids: Lineup, had: SixFlags, i: nat, j: nat)
    requires Exclusive(s, had) && i < j < STATION_COUNT && ids[i] == ids[j] && Usable(ids[i])
    ensures !Gets(ids, Rebuild(s, ids), had, i) || !Gets(ids, Rebuild(s, ids), had, j)
  {
  }

  lemma {:induction false} RunStaysExclusive(cfg: Config, s: State, had: SixFlags, calls: seq<Call>)
    requires Exclusive(s, had)
    ensures Exclusive(Run(cfg, s, calls), ServedBy(cfg, s, had, calls))
    decreases |calls|
  {
    if calls != [] {
      FlagsStayExclusive(cfg, s, had, calls[0]);
      RunStaysExclusive(cfg, Step(cfg, s, calls[0]), ServedAfter(cfg, s, had, calls[0]), calls[1..]);
    }
  }

  /** After any run, a configuration that returns no error leaves the switch carrying its teams if and only if it names
      no team with a usable subnet twice and every station it keeps has its subnet: a station that was refused it stays
      without until its team changes, also under a lineup of distinct teams. */
  lemma SuccessCarriesExactlyWhen(cfg: Config, s: State, calls: seq<Call>, teams: Teams, o: Outcomes)
    requires Initial(s) && cfg.address != "" && Succeeds(cfg, Run(cfg, s, calls), teams, o)
    ensures var now, ids := Run(cfg, s, calls), TeamIds(teams);
      Carries(cfg.dnsServer, Configure(cfg, now, teams, o).device, ids) <==>
        && NoSubnetTwice(ids)
        && forall i :: 0 <= i < STATION_COUNT && !Rebuild(now, ids)[i] ==> ServedBy(cfg, s, ALL_SERVED, calls)[i]
  {
    var now, ids := Run(cfg, s, calls), TeamIds(teams);
    var had := ServedBy(cfg, s, ALL_SERVED, calls);
    RunServes(cfg, s, ALL_SERVED, calls);
    RunStaysExclusive(cfg, s, ALL_SERVED, calls);
    ConfigureServes(cfg, now, teams, had, o);
    AllGetExactlyWhen(now, ids, had);
  }

  lemma AllGetExactlyWhen(s: State, ids: Lineup, had: SixFlags)
    requires Exclusive(s, had)
    ensures (forall i :: 0 <= i < STATION_COUNT ==> Gets(ids, Rebuild(s, ids), had, i)) <==>
      NoSubnetTwice(ids) && forall i :: 0 <= i < STATION_COUNT && !Rebuild(s, ids)[i] ==> had[i]
  {
    var rebuild := Rebuild(s, ids);
    if forall i :: 0 <= i < STATION_COUNT ==> Gets(ids, rebuild, had, i) {
      forall i, j | 0 <= i < j < STATION_COUNT && ids[i] == ids[j] && ids[i] > 0
        ensures !ValidSubnet(TeamSubnet(ids[i]))
      {
        assert Gets(ids, rebuild, had, i) && Gets(ids, rebuild, had, j);
      }
      forall i | 0 <= i < STATION_COUNT && !rebuild[i] ensures had[i] {
        assert Gets(ids, rebuild, had, i);
      }
    } else {
      var i :| 0 <= i < STATION_COUNT && !Gets(ids, rebuild, had, i);
      if rebuild[i] {
        var j :| 0 <= j < STATION_COUNT && j != i && ids[j] == ids[i];
        var first, last := if i < j then i else j, if i < j then j else i;
        assert first < last && ids[first] == ids[last] && Usable(ids[first]);
      }
    }
  }

  /** A station named after another with the same team stays without its subnet as long as it keeps that team. */
  lemma RefusedStationStays(cfg: Config, s: State, twice: Teams, teams: Teams, o: Outcomes, p: Outcomes, i: nat, j: nat)
    requires Initial(s) && cfg.address != "" && i < j < STATION_COUNT
    requires Usable(TeamIds(twice)[j]) && TeamIds(twice)[i] == TeamIds(twice)[j] == TeamIds(teams)[j]
    requires Succeeds(cfg, s, twice, o) && Succeeds(cfg, Configure(cfg, s, twice, o), teams, p)
    ensures !Carries(cfg.dnsServer, Configure(cfg, Configure(cfg, s, twice, o), teams, p).device, TeamIds(teams))
  {
    var c := ConfigureCall(twice, o);
    var now := Step(cfg, s, c);
    assert Run(cfg, now, []) == now && Run(cfg, s, [c]) == now;
    var has := ServedAfter(cfg, s, ALL_SERVED, c);
    assert ServedBy(cfg, now, has, []) == has && ServedBy(cfg, s, ALL_SERVED, [c]) == has;
    assert Rebuild(s, TeamIds(twice))[i];
    assert !has[j];
    SuccessCarriesExactlyWhen(cfg, s, [c], teams, p);
    assert !Rebuild(now, TeamIds(teams))[j];
  }

  const ALL_DELIVERED := Outcomes(Delivered, Delivered, Delivered, Delivered)

  lemma DeliveredSucceeds(cfg: Config, s: State, teams: Teams)
    ensures Succeeds(cfg, s, teams, ALL_DELIVERED)
  {
  }

  /** Teams at the first two stations. */
  function Pair(a: Team, b: Team): Teams {
    [Some(a), Some(b), None, None, None, None]
  }

  lemma PairIds(a: Team, b: Team)
    ensures var ids := TeamIds(Pair(a, b));
      ids[0] == a.id && ids[1] == b.id && forall i :: 2 <= i < STATION_COUNT ==> ids[i] == 0
  {
  }

  lemma DistinctPair(a: Team, b: Team)
    requires a.id != b.id
    ensures DistinctTeams(TeamIds(Pair(a, b)))
  {
    PairIds(a, b);
  }

  /** One team at two stations, and then a lineup of distinct teams that keeps the second of them: both configurations
      succeed, and the team is left without its subnet. */
  lemma DuplicateOutlivesDistinctLineup(cfg: Config, s: State, team: Team, other: Team)
    requires Initial(s) && cfg.address != "" && Usable(team.id) && team.id != other.id
    ensures var twice, teams := Pair(team, team), Pair(other, team);
      var now := Configure(cfg, s, twice, ALL_DELIVERED);
      && DistinctTeams(TeamIds(teams))
      && Succeeds(cfg, s, twice, ALL_DELIVERED) && Succeeds(cfg, now, teams, ALL_DELIVERED)
      && !Carries(cfg.dnsServer, Configure(cfg, now, teams, ALL_DELIVERED).device, TeamIds(teams))
  {
    var twice, teams := Pair(team, team), Pair(other, team);
    PairIds(team, team);
    PairIds(other, team);
    DistinctPair(other, team);
    DeliveredSucceeds(cfg, s, twice);
    DeliveredSucceeds(cfg, Configure(cfg, s, twice, ALL_DELIVERED), teams);
    RefusedStationStays(cfg, s, twice, teams, ALL_DELIVERED, ALL_DELIVERED, 0, 1);
  }

  // ----- the saved configuration

  lemma {:induction false} SavedOnlyByWrite(d: Device, cs: seq<Command>)
    requires WriteMemory !in cs
    ensures ExecAll(d, cs).saved == d.saved
    decreases |cs|
  {
    if cs != [] {
      assert cs[0] in cs && forall c :: c in cs[1..] ==> c in cs;
      SavedOnlyByWrite(Exec(d, cs[0]), cs[1..]);
    }
  }

  function SavedAt(d: Device, vlan: int): Vlan {
    if vlan in d.saved then d.saved[vlan] else BLANK_VLAN
  }

  /** The line that saves reaches the switch: the baseline got through, and the save with it, or far enough. */
  predicate SaveArrives(o: Outcomes) {
    o.baseline.Delivered? && (o.save.Delivered? || o.save.lines >= 1)
  }

  /** Every full reconciliation whose save arrives saves whatever team VLANs the switch holds just then, not a
      team-free configuration: each VLAN in the saved copy is the one held before the call. Where the save does not
      arrive the saved copy stays. */
  lemma ReconciliationSavesOldTeams(cfg: Config, s: State, teams: Teams, o: Outcomes, v: int)
    requires !s.synced && cfg.address != "" && v != MANAGEMENT_VLAN
    ensures SavedAt(Configure(cfg, s, teams, o).device, v) ==
      if SaveArrives(o) then VlanAt(s.device, v) else SavedAt(s.device, v)
  {
    BaselineKeepsTeamVlans();
    TeamLinesEdit(cfg, s, teams, o);
    AfterSave(s.device, BaselineSession(o), o.save, TeamSessions(cfg, s, teams, o), v);
  }

  /** A session that neither saves nor changes a team VLAN, the save, and sessions that do not save. */
  lemma AfterSave(d: Device, first: Session, o: Outcome, rest: seq<Session>, v: int)
    requires v != MANAGEMENT_VLAN && WriteMemory !in first.commands && WriteMemory !in Lines(rest)
    requires forall c :: c in first.commands ==> KeepsTeamVlans(c)
    ensures SavedAt(ExecAll(d, Lines([first, Session([WriteMemory], o)] + rest)), v) ==
      if first.outcome.Delivered? && (o.Delivered? || o.lines >= 1) then VlanAt(d, v) else SavedAt(d, v)
  {
    var save := [Session([WriteMemory], o)] + rest;
    var mid := ExecAll(d, SessionLines(first.commands, first.outcome));
    assert ExecAll(d, Lines([first] + save)) == if first.outcome.Delivered? then ExecAll(mid, Lines(save)) else mid by {
      FirstSession(d, [first] + save);
      assert ([first] + save)[1..] == save;
    }
    assert [first] + save == [first, Session([WriteMemory], o)] + rest;
    HarmlessSession(d, first.commands, first.outcome);
    SessionDoesNotSave(d, first.commands, first.outcome);
    if first.outcome.Delivered? {
      SaveThenRest(mid, o, rest);
    }
  }

  lemma SessionDoesNotSave(d: Device, cs: seq<Command>, o: Outcome)
    requires WriteMemory !in cs
    ensures ExecAll(d, SessionLines(cs, o)).saved == d.saved
  {
    assert forall c :: c in SessionLines(cs, o) ==> c == Login || c in cs;
    SavedOnlyByWrite(d, SessionLines(cs, o));
  }

  lemma SaveThenRest(d: Device, o: Outcome, rest: seq<Session>)
    requires WriteMemory !in Lines(rest)
    ensures ExecAll(d, Lines([Session([WriteMemory], o)] + rest)).saved ==
      if o.Delivered? || o.lines >= 1 then d.vlans else d.saved
  {
    var sessions := [Session([WriteMemory], o)] + rest;
    FirstSession(d, sessions);
    assert sessions[1..] == rest;
    if o.Delivered? {
      SavedOnlyByWrite(ExecAll(d, SessionLines([WriteMemory], o)), Lines(rest));
    }
  }

  /** A reconciliation that merely follows a failed configuration therefore saves the teams that were on the field,
      contrary to what the comment on applyBaseline promises: every team the failed call was to keep and, where its
      first session never got through, every team. */
  lemma SavedTeamsAfterFailure(cfg: Config, s: State, later: Teams, again: Teams, o: Outcomes, p: Outcomes, i: nat)
    requires cfg.address != "" && s.synced && BeliefHolds(cfg, s) && i < STATION_COUNT
    requires !Succeeds(cfg, s, later, o) && (TeamIds(later)[i] == s.applied[i] || o.remove == CutAfter(0))
    requires SaveArrives(p)
    ensures var failed := Configure(cfg, s, later, o);
      SavedAt(Configure(cfg, failed, again, p).device, VLAN_FOR_STATION[i]) == Built(cfg.dnsServer, s.applied[i])
  {
    var wire := Wire(cfg, s, later, o);
    if TeamIds(later)[i] == s.applied[i] {
      UnchangedStationsUndisturbed(cfg, s, later, o, i, |wire|);
      assert wire[..|wire|] == wire;
    } else {
      var sessions := Sessions(cfg, s, later, o);
      assert sessions == TeamSessions(cfg, s, later, o);
      assert SessionLines(sessions[0].commands, CutAfter(0)) == [Login];
      assert wire == [Login];
      assert ExecAll(s.device, [Login]) == Exec(s.device, Login);
    }
    ReconciliationSavesOldTeams(cfg, Configure(cfg, s, later, o), again, p, VLAN_FOR_STATION[i]);
  }

  // ----- the saved configuration over a run

  lemma {:induction false} RunSplits(cfg: Config, s: State, a: seq<Call>, b: seq<Call>)
    ensures Run(cfg, s, a + b) == Run(cfg, Run(cfg, s, a), b)
    decreases |a|
  {
    if a == [] {
      assert a + b == b;
    } else {
      assert (a + b)[1..] == a[1..] + b;
      RunSplits(cfg, Step(cfg, s, a[0]), a[1..], b);
    }
  }

  lemma RunLast(cfg: Config, s: State, calls: seq<Call>, n: nat)
    requires n < |calls|
    ensures Run(cfg, s, calls[..n + 1]) == Step(cfg, Run(cfg, s, calls[..n]), calls[n])
  {
    RunSplits(cfg, s, calls[..n], [calls[n]]);
    assert calls[..n + 1] == calls[..n] + [calls[n]];
    var now := Run(cfg, s, calls[..n]);
    assert Run(cfg, now, [calls[n]]) == Step(cfg, now, calls[n]);
  }

  predicate Saves(cfg: Config, s: State, c: Call) {
    c.ConfigureCall? && cfg.address != "" && !s.synced && SaveArrives(c.outcomes)
  }

  lemma StepSaves(cfg: Config, s: State, c: Call, v: int)
    requires v != MANAGEMENT_VLAN
    ensures SavedAt(Step(cfg, s, c).device, v) ==
      if Saves(cfg, s, c) then VlanAt(s.device, v) else SavedAt(s.device, v)
  {
    match c
    case ConfigureCall(teams, o) =>
      if s.synced {
        SyncedDoesNotSave(cfg, s, teams, o);
      } else if cfg.address != "" {
        ReconciliationSavesOldTeams(cfg, s, teams, o, v);
      }
    case CycleCall(stations, down, up) =>
      CycleSaves(cfg, s, stations, down, up);
  }

  lemma SyncedDoesNotSave(cfg: Config, s: State, teams: Teams, o: Outcomes)
    requires s.synced
    ensures Configure(cfg, s, teams, o).device.saved == s.device.saved
  {
    TeamLinesEdit(cfg, s, teams, o);
    assert Sessions(cfg, s, teams, o) == TeamSessions(cfg, s, teams, o);
    SavedOnlyByWrite(s.device, Lines(TeamSessions(cfg, s, teams, o)));
  }

  lemma CycleSaves(cfg: Config, s: State, stations: SixFlags, down: Outcome, up: Outcome)
    ensures Cycle(cfg, s, stations, down, up).device.saved == s.device.saved
  {
    PortCommandsKeepTeamVlans(stations, Shutdown, |stations|);
    PortCommandsKeepTeamVlans(stations, NoShutdown, |stations|);
    LinesAreCommands(CycleSessions(stations, down, up), c => c != WriteMemory);
    SavedOnlyByWrite(s.device, Lines(CycleSessions(stations, down, up)));
  }

  /** One more than the index of the last flag that is set, 0 if none is. */
  function LastSet(flags: seq<bool>): (k: nat)
    ensures k <= |flags|
  {
    if flags == [] then 0
    else if flags[|flags| - 1] then |flags|
    else LastSet(flags[..|flags| - 1])
  }

  lemma {:induction false} LastSetDecides<T>(flags: seq<bool>, held: seq<T>, saved: seq<T>)
    requires |held| == |flags| && |saved| == |flags| + 1
    requires forall m :: 0 <= m < |flags| ==> saved[m + 1] == if flags[m] then held[m] else saved[m]
    ensures saved[|flags|] == if LastSet(flags) == 0 then saved[0] else held[LastSet(flags) - 1]
  {
    if flags != [] && !flags[|flags| - 1] {
      LastSetDecides(flags[..|flags| - 1], held[..|flags| - 1], saved[..|flags|]);
    }
  }

  /** Which calls of a run save. */
  function SaveFlags(cfg: Config, s: State, calls: seq<Call>): (flags: seq<bool>)
    ensures |flags| == |calls|
  {
    seq(|calls|, m requires 0 <= m < |calls| => Saves(cfg, Run(cfg, s, calls[..m]), calls[m]))
  }

  /** One more than the index of the last call that saves, 0 if none does. */
  function LastSave(cfg: Config, s: State, calls: seq<Call>): (k: nat)
    ensures k <= |calls|
  {
    LastSet(SaveFlags(cfg, s, calls))
  }

  /** After any run the saved copy of a VLAN is what the switch held just before the last call that saved, or what
      was saved at startup if none did. */
  lemma SavedByLastSave(cfg: Config, s: State, calls: seq<Call>, v: int)
    requires v != MANAGEMENT_VLAN
    ensures var k := LastSave(cfg, s, calls);
      SavedAt(Run(cfg, s, calls).device, v) ==
        if k == 0 then SavedAt(s.device, v) else VlanAt(Run(cfg, s, calls[..k - 1]).device, v)
  {
    var n := |calls|;
    var states := seq(n + 1, m requires 0 <= m <= n => Run(cfg, s, calls[..m]));
    var flags := SaveFlags(cfg, s, calls);
    forall m | 0 <= m < n
      ensures SaveLink(states[m], states[m + 1], flags[m], v)
    {
      CallSaves(cfg, s, calls, m, v);
    }
    SavedInStates(states, flags, v);
    assert calls[..n] == calls;
  }

  /** One state follows another by a call that saves, or by one that does not. */
  predicate SaveLink(s: State, t: State, saves: bool, v: int) {
    SavedAt(t.device, v) == if saves then VlanAt(s.device, v) else SavedAt(s.device, v)
  }

  lemma SavedInStates(states: seq<State>, flags: seq<bool>, v: int)
    requires |states| == |flags| + 1
    requires forall m :: 0 <= m < |flags| ==> SaveLink(states[m], states[m + 1], flags[m], v)
    ensures SavedAt(states[|flags|].device, v) ==
      if LastSet(flags) == 0 then SavedAt(states[0].device, v) else VlanAt(states[LastSet(flags) - 1].device, v)
  {
    var held := seq(|flags|, m requires 0 <= m < |flags| => VlanAt(states[m].device, v));
    var saved := seq(|flags| + 1, m requires 0 <= m <= |flags| => SavedAt(states[m].device, v));
    LastSetDecides(flags, held, saved);
  }

  lemma CallSaves(cfg: Config, s: State, calls: seq<Call>, m: nat, v: int)
    requires m < |calls| && v != MANAGEMENT_VLAN
    ensures var now := Run(cfg, s, calls[..m]);
      SaveLink(now, Run(cfg, s, calls[..m + 1]), Saves(cfg, now, calls[m]), v)
  {
    RunLast(cfg, s, calls, m);
    StepSaves(cfg, Run(cfg, s, calls[..m]), calls[m], v);
  }

  predicate NoTeamVlan(d: Device) {
    forall i :: 0 <= i < STATION_COUNT ==> VlanAt(d, VLAN_FOR_STATION[i]) == BLANK_VLAN
  }

  predicate NoTeamSaved(d: Device) {
    forall i :: 0 <= i < STATION_COUNT ==> SavedAt(d, VLAN_FOR_STATION[i]) == BLANK_VLAN
  }

  /** What the comment on applyBaseline promises, and exactly when it is so: after any run no team VLAN is in the
      saved configuration if and only if none was on the switch when the last save arrived or, where none arrived,
      none was saved at startup. */
  lemma SavedIsTeamFreeExactlyWhen(cfg: Config, s: State, calls: seq<Call>)
    ensures var k := LastSave(cfg, s, calls);
      NoTeamSaved(Run(cfg, s, calls).device) <==>
        if k == 0 then NoTeamSaved(s.device) else NoTeamVlan(Run(cfg, s, calls[..k - 1]).device)
  {
    var k := LastSave(cfg, s, calls);
    var d := Run(cfg, s, calls).device;
    var e := if k == 0 then s.device else Run(cfg, s, calls[..k - 1]).device;
    forall i | 0 <= i < STATION_COUNT
      ensures SavedAt(d, VLAN_FOR_STATION[i]) ==
        if k == 0 then SavedAt(e, VLAN_FOR_STATION[i]) else VlanAt(e, VLAN_FOR_STATION[i])
    {
      SavedByLastSave(cfg, s, calls, VLAN_FOR_STATION[i]);
    }
  }
}

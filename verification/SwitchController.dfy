/** The switch controller as it runs (network/switch.go), proved against TeamSwitch. */
module SwitchController {
  import opened Options
  import opened TeamNetwork
  import opened SwitchDevice
  import opened TeamSwitch
  import opened TeamSwitchProofs

  class Switch {
    const config: Config
    const hardware: Catalyst
    var status: Status
    var applied: Lineup
    var synced: bool

    function View(): State
      reads this, hardware
    {
      State(applied, synced, status, hardware.device)
    }

    constructor (config: Config, hardware: Catalyst)
      ensures this.config == config && this.hardware == hardware
      ensures Initial(View()) && View().status == Unknown && hardware.device == old(hardware.device)
    {
      this.config := config;
      this.hardware := hardware;
      status := Unknown;
      applied := [0, 0, 0, 0, 0, 0];
      synced := false;
    }

    /** Marks the configuration failed: the switch is left half configured, so nothing is known of it. */
    method Fail()
      modifies this
      ensures View() == old(View()).(synced := false, status := Error)
    {
      synced := false;
      status := Error;
    }

    method ApplyBaseline(o: Outcomes) returns (ok: bool)
      modifies hardware
      ensures hardware.device == ExecAll(old(hardware.device), Lines([BaselineSession(o), SaveSession(o)]))
      ensures ok <==> o.baseline.Delivered? && o.save.Delivered?
    {
      ghost var sessions := [BaselineSession(o), SaveSession(o)];
      FirstSession(hardware.device, sessions);
      assert sessions[1..] == [SaveSession(o)];
      assert Lines(sessions[1..]) == SessionLines([WriteMemory], o.save);
      var baseline := BaselineLines();
      ok := hardware.Run(baseline, o.baseline);
      if ok {
        ok := hardware.Run([WriteMemory], o.save);
      }
    }

    /** Removes every changed VLAN in one session, then builds the wanted ones in another. */
    method RebuildTeamVlans(teams: Teams, desired: Lineup, full: bool, o: Outcomes) returns (ok: bool)
      requires full == !synced && desired == TeamIds(teams)
      modifies hardware
      ensures hardware.device == ExecAll(old(hardware.device), Lines(TeamSessions(config, old(View()), teams, o)))
      ensures ok <==> AllDelivered(TeamSessions(config, old(View()), teams, o))
    {
      ghost var sessions := TeamSessions(config, View(), teams, o);
      FirstSession(hardware.device, sessions);
      var rebuild := MarkRebuilt(full, desired);
      var remove := BuildRemoveCommands(rebuild);
      ok := hardware.Run(remove, o.remove);
      if !ok {
        return;
      }
      var add := BuildAddCommands(teams, rebuild);
      if |add| > 0 {
        assert sessions[1..] == [Session(add, o.add)];
        FirstSession(hardware.device, sessions[1..]);
        assert Lines(sessions[1..][1..]) == [];
        ok := hardware.Run(add, o.add);
      }
    }

    method ConfigureTeamEthernet(teams: Teams, o: Outcomes) returns (ok: bool)
      modifies this, hardware
      ensures View() == Configure(config, old(View()), teams, o)
      ensures ok <==> Succeeds(config, old(View()), teams, o)
    {
      if config.address == "" {
        status := Disabled;
        return true;
      }
      var desired := ComputeTeamIds(teams);
      var full := !synced;
      if !full && desired == applied {
        status := Active;
        return true;
      }
      ghost var before := View();
      ghost var rest := TeamSessions(config, before, teams, o);
      status := Configuring;
      if full {
        SessionsSplit(before.device, [BaselineSession(o), SaveSession(o)], rest);
        ok := ApplyBaseline(o);
        if !ok {
          Fail();
          return false;
        }
      } else {
        assert Sessions(config, before, teams, o) == rest;
      }
      assert TeamSessions(config, View(), teams, o) == rest;
      ok := RebuildTeamVlans(teams, desired, full, o);
      if !ok {
        Fail();
        return false;
      }
      applied := desired;
      synced := true;
      status := Active;
    }

    method MarkRebuilt(full: bool, desired: Lineup) returns (rebuild: SixFlags)
      requires full == !synced
      ensures rebuild == Rebuild(View(), desired)
    {
      rebuild := [false, false, false, false, false, false];
      for i := 0 to STATION_COUNT
        invariant |rebuild| == STATION_COUNT
        invariant forall k :: 0 <= k < i ==> rebuild[k] == (full || desired[k] != applied[k])
      {
        rebuild := rebuild[i := full || desired[i] != applied[i]];
      }
    }

    static method BuildRemoveCommands(rebuild: seq<bool>) returns (commands: seq<Command>)
      requires |rebuild| == STATION_COUNT
      ensures commands == RemoveCommands(rebuild, |rebuild|)
    {
      commands := [];
      for i := 0 to STATION_COUNT
        invariant commands == RemoveCommands(rebuild, i)
      {
        if rebuild[i] {
          commands := commands + RemoveBlock(VLAN_FOR_STATION[i]);
        }
      }
    }

    method BuildAddCommands(teams: Teams, rebuild: SixFlags) returns (commands: seq<Command>)
      ensures commands == AddCommands(config.dnsServer, teams, rebuild, |rebuild|)
    {
      commands := [];
      for i := 0 to STATION_COUNT
        invariant commands == AddCommands(config.dnsServer, teams, rebuild, i)
      {
        if rebuild[i] {
          commands := commands + AddBlock(config.dnsServer, teams[i], VLAN_FOR_STATION[i]);
        }
      }
    }

    static method BaselineLines() returns (commands: seq<Command>)
      ensures commands == Baseline()
    {
      commands := [Standing("ip routing"), Standing("ntp server"), SelectVlanInterface(MANAGEMENT_VLAN),
                   Standing("ip address secondary"), Exit];
      var names, ports := [], [];
      for i := 0 to |VLAN_FOR_STATION|
        invariant names == VlanDatabase(i)
      {
        names := names + [Standing("vlan"), Standing("name"), Exit];
      }
      for i := 0 to |VLAN_FOR_STATION|
        invariant ports == StationPorts(i)
      {
        ports := ports + [SelectPort(i + 1), AccessVlan(VLAN_FOR_STATION[i]), Standing("spanning-tree portfast"),
                          NoShutdown, Exit];
      }
      commands := commands + names + ports + OtherPorts();
    }

    static method BuildPortCommands(stations: seq<bool>, verb: Command) returns (commands: seq<Command>)
      requires |stations| == STATION_COUNT
      ensures commands == PortCommands(stations, verb, |stations|)
    {
      commands := [];
      for i := 0 to STATION_COUNT
        invariant commands == PortCommands(stations, verb, i)
      {
        if stations[i] {
          commands := commands + [SelectPort(i + 1), verb];
        }
      }
    }

    method CycleStationPorts(stations: SixFlags, downOutcome: Outcome, upOutcome: Outcome) returns (result: CycleResult)
      modifies hardware
      ensures View() == Cycle(config, old(View()), stations, downOutcome, upOutcome)
      ensures result == CycleOutcome(config, stations, downOutcome, upOutcome)
    {
      if config.address == "" {
        return NotConfigured;
      }
      var down := BuildPortCommands(stations, Shutdown);
      if down == [] {
        return CycleOk;
      }
      ghost var sessions := CycleSessions(stations, downOutcome, upOutcome);
      FirstSession(hardware.device, sessions);
      var ok := hardware.Run(down, downOutcome);
      if !ok {
        return ShutFailed;
      }
      var up := BuildPortCommands(stations, NoShutdown);
      assert sessions[1..] == [Session(up, upOutcome)];
      FirstSession(hardware.device, sessions[1..]);
      assert Lines(sessions[1..][1..]) == [];
      ok := hardware.Run(up, upOutcome);
      return if ok then CycleOk else ReopenFailed;
    }
  }

  /** Sessions run in two parts have the effect of the whole. */
  lemma {:induction false} SessionsSplit(d: Device, first: seq<Session>, rest: seq<Session>)
    ensures ExecAll(d, Lines(first + rest)) ==
      if AllDelivered(first) then ExecAll(ExecAll(d, Lines(first)), Lines(rest)) else ExecAll(d, Lines(first))
    ensures AllDelivered(first + rest) <==> AllDelivered(first) && AllDelivered(rest)
    decreases |first|
  {
    if first == [] {
      assert first + rest == rest;
    } else {
      FirstSession(d, first);
      FirstSession(d, first + rest);
      assert (first + rest)[1..] == first[1..] + rest;
      SessionsSplit(ExecAll(d, SessionLines(first[0].commands, first[0].outcome)), first[1..], rest);
    }
  }
}

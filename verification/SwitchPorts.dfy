/** The driver station ports: what cycling them does, and which configurations put them right again. */
module SwitchPorts {
  import opened TeamNetwork
  import opened SwitchDevice
  import opened TeamSwitch
  import opened TeamSwitchProofs

  lemma {:induction false} PortsKept(d: Device, cs: seq<Command>)
    requires forall c :: c in cs ==> !PortCommand(c)
    ensures ExecAll(d, cs).ports == d.ports
    decreases |cs|
  {
    if cs != [] {
      assert cs[0] in cs && forall c :: c in cs[1..] ==> c in cs;
      PortsKept(Exec(d, cs[0]), cs[1..]);
    }
  }

  // ----- cycling, with either session cut anywhere

  predicate Selected(stations: SixFlags, p: int)
  {
    1 <= p <= STATION_COUNT && stations[p - 1]
  }

  /** How many of the first n stations are selected. */
  function SelectedCount(stations: SixFlags, n: Count): nat
  {
    if n == 0 then 0 else SelectedCount(stations, n - 1) + if stations[n - 1] then 1 else 0
  }

  /** Ports are addressed one after another, each by its own two lines; the session gets past those of this port. */
  predicate Reaches(stations: SixFlags, p: int, o: Outcome)
    requires Selected(stations, p)
  {
    o.Delivered? || o.lines >= 2 * SelectedCount(stations, p)
  }

  lemma {:induction false} TwoLinesEach(stations: SixFlags, verb: Command, n: Count)
    ensures |PortCommands(stations, verb, n)| == 2 * SelectedCount(stations, n)
  {
    if n > 0 {
      TwoLinesEach(stations, verb, n - 1);
    }
  }

  lemma {:induction false} CountGrows(stations: SixFlags, p: nat, n: nat)
    requires p <= n <= STATION_COUNT
    ensures SelectedCount(stations, p) <= SelectedCount(stations, n)
  {
    if p < n {
      CountGrows(stations, p, n - 1);
    }
  }

  /** The first k lines set exactly the ports whose two lines are among them. */
  ghost predicate PortsSet(d: Device, e: Device, stations: SixFlags, verb: Command, n: Count, k: nat)
  {
    forall p :: PortAt(e, p) ==
      if 1 <= p <= n && stations[p - 1] && k >= 2 * SelectedCount(stations, p)
      then PortAt(d, p).(up := verb.NoShutdown?) else PortAt(d, p)
  }

  lemma PortBlock(d: Device, p: int, verb: Command)
    requires verb == Shutdown || verb == NoShutdown
    ensures ExecAll(d, [SelectPort(p)]).ports == d.ports
    ensures forall q :: PortAt(ExecAll(d, [SelectPort(p), verb]), q) ==
              if q == p then PortAt(d, p).(up := verb.NoShutdown?) else PortAt(d, q)
  {
    var d1 := Exec(d, SelectPort(p));
    assert [SelectPort(p), verb][1..] == [verb];
    assert ExecAll(d1, [verb]) == Exec(d1, verb);
    assert ExecAll(d, [SelectPort(p), verb]) == Exec(d1, verb);
  }

  /** Once the ports before it are done, station n's own lines set its port if both are there, and none otherwise. */
  lemma NextPortSet(d: Device, mid: Device, stations: SixFlags, verb: Command, n: nat, k: nat)
    requires 0 < n <= STATION_COUNT && (verb == Shutdown || verb == NoShutdown)
    requires PortsSet(d, mid, stations, verb, n - 1, 2 * SelectedCount(stations, n - 1))
    requires stations[n - 1] && k <= 2
    ensures PortsSet(d, ExecAll(mid, [SelectPort(n), verb][..k]), stations, verb, n,
                     2 * SelectedCount(stations, n - 1) + k)
  {
    var count := SelectedCount(stations, n - 1);
    assert SelectedCount(stations, n) == count + 1;
    forall p | 1 <= p <= n - 1
      ensures SelectedCount(stations, p) <= count
    {
      CountGrows(stations, p, n - 1);
    }
    PortBlock(mid, n, verb);
    var block := [SelectPort(n), verb];
    assert block[..0] == [] && block[..1] == [SelectPort(n)] && block[..2] == block;
    var e := ExecAll(mid, block[..k]);
    assert PortAt(e, n) == if k == 2 then PortAt(mid, n).(up := verb.NoShutdown?) else PortAt(mid, n);
    assert forall p :: p != n ==> PortAt(e, p) == PortAt(mid, p);
  }

  /** Whether station n has lines of its own that are not reached does not matter to the ports before it. */
  lemma PortNotReached(d: Device, e: Device, stations: SixFlags, verb: Command, n: nat, k: nat)
    requires 0 < n <= STATION_COUNT
    requires PortsSet(d, e, stations, verb, n - 1, k) && k <= 2 * SelectedCount(stations, n - 1)
    ensures PortsSet(d, e, stations, verb, n, k)
  {
    assert stations[n - 1] ==> SelectedCount(stations, n) == SelectedCount(stations, n - 1) + 1;
  }

  /** Station n's lines, or the first of them, come after those of the stations before it. */
  lemma NextPortReached(d: Device, stations: SixFlags, verb: Command, n: nat, k: nat)
    requires 0 < n <= STATION_COUNT && (verb == Shutdown || verb == NoShutdown)
    requires |PortCommands(stations, verb, n - 1)| < k <= |PortCommands(stations, verb, n)|
    requires PortsSet(d, ExecAll(d, PortCommands(stations, verb, n - 1)), stations, verb, n - 1,
                      |PortCommands(stations, verb, n - 1)|)
    ensures PortsSet(d, ExecAll(d, PortCommands(stations, verb, n)[..k]), stations, verb, n, k)
  {
    var before := PortCommands(stations, verb, n - 1);
    TwoLinesEach(stations, verb, n - 1);
    var block := [SelectPort(n), verb][..k - |before|];
    assert PortCommands(stations, verb, n)[..k] == before + block;
    ExecAllConcat(d, before, block);
    NextPortSet(d, ExecAll(d, before), stations, verb, n, k - |before|);
  }

  lemma {:induction false} PortCommandsEffect(d: Device, stations: SixFlags, verb: Command, n: Count, k: nat)
    requires (verb == Shutdown || verb == NoShutdown)
    requires k <= |PortCommands(stations, verb, n)|
    ensures PortsSet(d, ExecAll(d, PortCommands(stations, verb, n)[..k]), stations, verb, n, k)
  {
    if n > 0 {
      var before := PortCommands(stations, verb, n - 1);
      if k <= |before| {
        PortCommandsEffect(d, stations, verb, n - 1, k);
        TwoLinesEach(stations, verb, n - 1);
        assert PortCommands(stations, verb, n)[..k] == before[..k];
        PortNotReached(d, ExecAll(d, before[..k]), stations, verb, n, k);
      } else {
        PortCommandsEffect(d, stations, verb, n - 1, |before|);
        assert before[..|before|] == before;
        NextPortReached(d, stations, verb, n, k);
      }
    }
  }

  lemma CycleRuns(d: Device, stations: SixFlags, down: Outcome, up: Outcome)
    ensures var mid := ExecAll(d, SessionLines(PortCommands(stations, Shutdown, |stations|), down));
      ExecAll(d, Lines(CycleSessions(stations, down, up))) ==
        if down.Delivered? then ExecAll(mid, SessionLines(PortCommands(stations, NoShutdown, |stations|), up)) else mid
  {
    TwoSessions(d, Session(PortCommands(stations, Shutdown, |stations|), down),
                Session(PortCommands(stations, NoShutdown, |stations|), up));
  }

  lemma TwoSessions(d: Device, a: Session, b: Session)
    ensures var mid := ExecAll(d, SessionLines(a.commands, a.outcome));
      ExecAll(d, Lines([a, b])) ==
        if a.outcome.Delivered? then ExecAll(mid, SessionLines(b.commands, b.outcome)) else mid
  {
    FirstSession(d, [a, b]);
    var mid := ExecAll(d, SessionLines(a.commands, a.outcome));
    assert [a, b][1..] == [b];
    FirstSession(mid, [b]);
    assert Lines([b][1..]) == [];
  }

  /** What one session of the cycle, delivered or cut, does to each port. */
  lemma PortSession(d: Device, stations: SixFlags, verb: Command, o: Outcome, p: int)
    requires (verb == Shutdown || verb == NoShutdown)
    ensures PortAt(ExecAll(d, SessionLines(PortCommands(stations, verb, |stations|), o)), p) ==
      if Selected(stations, p) && Reaches(stations, p, o) then PortAt(d, p).(up := verb.NoShutdown?) else PortAt(d, p)
  {
    var cs := PortCommands(stations, verb, |stations|);
    var k := if o.Delivered? || o.lines >= |cs| then |cs| else o.lines;
    assert SessionLines(cs, o) == [Login] + cs[..k];
    assert ([Login] + cs[..k])[1..] == cs[..k];
    TwoLinesEach(stations, verb, |stations|);
    PortCommandsEffect(d.(mode := GlobalConfig), stations, verb, |stations|, k);
    assert PortAt(d.(mode := GlobalConfig), p) == PortAt(d, p);
    if Selected(stations, p) {
      CountGrows(stations, p, |stations|);
    }
  }

  /** Whether a port is up once the cycle is over: a selected one if the reopening session reached it, or if the
      shutting session failed before it reached it. */
  predicate UpAfterCycle(cfg: Config, stations: SixFlags, down: Outcome, up: Outcome, p: int, before: bool)
  {
    if cfg.address == "" || !Selected(stations, p) then before
    else if down.Delivered? then Reaches(stations, p, up)
    else before && !Reaches(stations, p, down)
  }

  /** Wherever its sessions are cut, a cycle leaves each port exactly so, and nothing else of it changed. */
  lemma PortAfterCycle(cfg: Config, s: State, stations: SixFlags, down: Outcome, up: Outcome, p: int)
    ensures PortAt(Cycle(cfg, s, stations, down, up).device, p) ==
      PortAt(s.device, p).(up := UpAfterCycle(cfg, stations, down, up, p, PortAt(s.device, p).up))
  {
    var shut := PortCommands(stations, Shutdown, |stations|);
    if cfg.address == "" {
    } else if shut == [] {
      SelectedPortsNamed(stations, |stations|);
    } else {
      CycleRuns(s.device, stations, down, up);
      PortSession(s.device, stations, Shutdown, down, p);
      PortSession(ExecAll(s.device, SessionLines(shut, down)), stations, NoShutdown, up, p);
    }
  }

  predicate SelectedUp(d: Device, stations: SixFlags)
  {
    forall p | 1 <= p <= STATION_COUNT :: Selected(stations, p) ==> PortAt(d, p).up
  }

  /** What a cycle is for, and exactly when it is achieved: every selected port is up afterwards if and only if the
      reopening session delivered all its lines, or the shutting session failed before its second one and no port
      was down to begin with. */
  lemma CycleReopensExactlyWhen(cfg: Config, s: State, stations: SixFlags, down: Outcome, up: Outcome)
    ensures SelectedUp(Cycle(cfg, s, stations, down, up).device, stations) <==>
      if cfg.address == "" || SelectedCount(stations, |stations|) == 0 then SelectedUp(s.device, stations)
      else if down.Delivered? then up.Delivered? || up.lines >= 2 * SelectedCount(stations, |stations|)
      else SelectedUp(s.device, stations) && down.lines < 2
  {
    forall p
      ensures PortAt(Cycle(cfg, s, stations, down, up).device, p) ==
        PortAt(s.device, p).(up := UpAfterCycle(cfg, stations, down, up, p, PortAt(s.device, p).up))
    {
      PortAfterCycle(cfg, s, stations, down, up, p);
    }
    forall p | Selected(stations, p)
      ensures 1 <= SelectedCount(stations, p) <= SelectedCount(stations, |stations|)
    {
      assert SelectedCount(stations, p) == SelectedCount(stations, p - 1) + 1;
      CountGrows(stations, p, |stations|);
    }
    if SelectedCount(stations, |stations|) > 0 {
      var first := SelectedWithCount(stations, |stations|, 1);
      var last := SelectedWithCount(stations, |stations|, SelectedCount(stations, |stations|));
      assert Selected(stations, first) && Selected(stations, last);
    }
  }

  lemma {:induction false} SelectedWithCount(stations: SixFlags, n: Count, c: nat) returns (p: int)
    requires 1 <= c <= SelectedCount(stations, n)
    ensures 1 <= p <= n && Selected(stations, p) && SelectedCount(stations, p) == c
  {
    if SelectedCount(stations, n - 1) >= c {
      p := SelectedWithCount(stations, n - 1, c);
    } else {
      p := n;
    }
  }

  lemma {:induction false} SelectedPortsNamed(stations: SixFlags, n: Count)
    requires PortCommands(stations, Shutdown, n) == []
    ensures forall i :: 0 <= i < n ==> !stations[i]
  {
    if n > 0 {
      SelectedPortsNamed(stations, n - 1);
    }
  }

  /** A cycle that reports success has left every selected port up and every other port as it was. */
  lemma CycleReopensEveryPort(cfg: Config, s: State, stations: SixFlags, down: Outcome, up: Outcome, p: int)
    requires CycleOutcome(cfg, stations, down, up).CycleOk?
    ensures PortAt(Cycle(cfg, s, stations, down, up).device, p) ==
      if Selected(stations, p) then PortAt(s.device, p).(up := true) else PortAt(s.device, p)
  {
    PortAfterCycle(cfg, s, stations, down, up, p);
    if PortCommands(stations, Shutdown, |stations|) == [] {
      SelectedPortsNamed(stations, |stations|);
    }
  }

  /** A reopening session that is cut at once leaves every selected port down. */
  lemma FailedReopenLeavesPortsDown(cfg: Config, s: State, stations: SixFlags, p: int)
    requires cfg.address != "" && Selected(stations, p)
    ensures CycleOutcome(cfg, stations, Delivered, CutAfter(0)) == ReopenFailed
    ensures !PortAt(Cycle(cfg, s, stations, Delivered, CutAfter(0)).device, p).up
  {
    PortAfterCycle(cfg, s, stations, Delivered, CutAfter(0), p);
    CountGrows(stations, p - 1, p);
    if PortCommands(stations, Shutdown, |stations|) == [] {
      SelectedPortsNamed(stations, |stations|);
    }
  }

  /** A shutting session that fails once a port is shut leaves it down, since the ports are then not reopened, even
      where the second session would get through. */
  lemma FailedShutLeavesPortsDown(cfg: Config, s: State, stations: SixFlags)
    requires cfg.address != "" && stations[0]
    ensures CycleOutcome(cfg, stations, CutAfter(2), Delivered) == ShutFailed
    ensures !PortAt(Cycle(cfg, s, stations, CutAfter(2), Delivered).device, 1).up
  {
    PortAfterCycle(cfg, s, stations, CutAfter(2), Delivered, 1);
    assert SelectedCount(stations, 1) == 1 by {
      assert SelectedCount(stations, 0) == 0;
    }
    if PortCommands(stations, Shutdown, |stations|) == [] {
      SelectedPortsNamed(stations, |stations|);
    }
  }

  /** As long as the controller stays synced no configuration touches a port, so a port left down stays down. */
  lemma SyncedConfigurationKeepsPorts(cfg: Config, s: State, teams: Teams, o: Outcomes)
    requires s.synced
    ensures Configure(cfg, s, teams, o).device.ports == s.device.ports
  {
    TeamLinesEdit(cfg, s, teams, o);
    assert Sessions(cfg, s, teams, o) == TeamSessions(cfg, s, teams, o);
    PortsKept(s.device, Lines(TeamSessions(cfg, s, teams, o)));
  }

  lemma StationPortBlock(d: Device, p: int, v: int)
    ensures var e := ExecAll(d, [SelectPort(p), AccessVlan(v), Standing("spanning-tree portfast"), NoShutdown, Exit]);
      && PortAt(e, p) == Port(Access(v), true)
      && forall q :: q != p ==> PortAt(e, q) == PortAt(d, q)
  {
    var c2, c3, c4, c5 := AccessVlan(v), Standing("spanning-tree portfast"), NoShutdown, Exit;
    var d1 := Exec(d, SelectPort(p));
    var d2 := Exec(d1, c2);
    var d3 := Exec(d2, c3);
    var d4 := Exec(d3, c4);
    assert [SelectPort(p), c2, c3, c4, c5][1..] == [c2, c3, c4, c5];
    assert [c2, c3, c4, c5][1..] == [c3, c4, c5];
    assert [c3, c4, c5][1..] == [c4, c5];
    assert [c4, c5][1..] == [c5];
    assert ExecAll(d4, [c5]) == Exec(d4, c5);
    assert ExecAll(d2, [c3, c4, c5]) == Exec(d4, c5);
  }

  lemma {:induction false} StationPortsEffect(d: Device, n: Count)
    ensures forall p :: 1 <= p <= n ==>
      PortAt(ExecAll(d, StationPorts(n)), p) == Port(Access(VLAN_FOR_STATION[p - 1]), true)
  {
    if n > 0 {
      StationPortsEffect(d, n - 1);
      var block := [SelectPort(n), AccessVlan(VLAN_FOR_STATION[n - 1]), Standing("spanning-tree portfast"), NoShutdown,
                    Exit];
      ExecAllConcat(d, StationPorts(n - 1), block);
      StationPortBlock(ExecAll(d, StationPorts(n - 1)), n, VLAN_FOR_STATION[n - 1]);
    }
  }

  /** Commands for other ports leave this one as it is. */
  predicate SparesPort(c: Command, p: int) {
    c != SelectPort(p)
  }

  lemma {:induction false} OtherPortsKept(d: Device, cs: seq<Command>, p: int)
    requires d.mode != PortConfig(p) && forall c :: c in cs ==> SparesPort(c, p)
    ensures PortAt(ExecAll(d, cs), p) == PortAt(d, p)
    decreases |cs|
  {
    if cs != [] {
      assert cs[0] in cs && forall c :: c in cs[1..] ==> c in cs;
      OtherPortsKept(Exec(d, cs[0]), cs[1..], p);
    }
  }

  lemma {:induction false} EndsOutsidePorts(d: Device, n: Count)
    requires !d.mode.PortConfig?
    ensures !ExecAll(d, StationPorts(n)).mode.PortConfig?
  {
    if n > 0 {
      var start := StationPorts(n - 1) + [SelectPort(n), AccessVlan(VLAN_FOR_STATION[n - 1]),
                                          Standing("spanning-tree portfast"), NoShutdown];
      assert StationPorts(n) == start + [Exit];
      ExecAllConcat(d, start, [Exit]);
      assert ExecAll(ExecAll(d, start), [Exit]) == Exec(ExecAll(d, start), Exit);
    }
  }

  lemma ModeBlockEffect(d: Device, p: int, mode: Command, m: PortMode)
    requires (mode == AccessVlan(1) && m == Access(1)) || (mode.TrunkVlans? && m == Trunk(mode.vlans))
    ensures var e := ExecAll(d, ModeBlock(p, mode));
      PortAt(e, p) == Port(m, true) && forall q :: q != p ==> PortAt(e, q) == PortAt(d, q)
  {
    var cs := ModeBlock(p, mode);
    var d1 := Exec(d, cs[0]);
    var d2 := Exec(d1, cs[1]);
    var d3 := Exec(d2, cs[2]);
    assert cs[1..] == [cs[1], cs[2], cs[3]] && [cs[1], cs[2], cs[3]][1..] == [cs[2], cs[3]];
    assert [cs[2], cs[3]][1..] == [cs[3]];
    assert ExecAll(d3, [cs[3]]) == Exec(d3, cs[3]);
    assert ExecAll(d2, [cs[2], cs[3]]) == Exec(d3, cs[3]);
    assert ExecAll(d1, cs[1..]) == Exec(d3, cs[3]);
  }

  lemma OtherPortsEffect(d: Device)
    ensures var e := ExecAll(d, OtherPorts());
      && PortAt(e, 7) == PortAt(e, 8) == Port(Trunk({1, 10, 20, 30, 40, 50, 60}), true)
      && PortAt(e, 9) == Port(Access(1), true)
  {
    var a, b, c := ModeBlock(7, TrunkVlans(ALL_VLANS)), ModeBlock(8, TrunkVlans(ALL_VLANS)), ModeBlock(9, AccessVlan(1));
    ExecAllConcat(d, a + b, c);
    ExecAllConcat(d, a, b);
    ModeBlockEffect(d, 7, TrunkVlans(ALL_VLANS), Trunk(ALL_VLANS));
    ModeBlockEffect(ExecAll(d, a), 8, TrunkVlans(ALL_VLANS), Trunk(ALL_VLANS));
    ModeBlockEffect(ExecAll(ExecAll(d, a), b), 9, AccessVlan(1), Access(1));
  }

  /** A successful full reconciliation leaves the two trunk ports up with every VLAN of the field allowed, and the DMX
      port up in the field's own VLAN. */
  lemma ReconciliationSetsOtherPorts(cfg: Config, s: State, teams: Teams, o: Outcomes)
    requires !s.synced && cfg.address != "" && Succeeds(cfg, s, teams, o)
    ensures var d := Configure(cfg, s, teams, o).device;
      && PortAt(d, 7) == PortAt(d, 8) == Port(Trunk({1, 10, 20, 30, 40, 50, 60}), true)
      && PortAt(d, 9) == Port(Access(1), true)
  {
    var start := s.device.(mode := GlobalConfig);
    ExecAllConcat(start, BaselineIntro() + StationPorts(|VLAN_FOR_STATION|), OtherPorts());
    OtherPortsEffect(ExecAll(start, BaselineIntro() + StationPorts(|VLAN_FOR_STATION|)));
    PortsAfterBaseline(cfg, s, teams, o);
  }

  /** After a successful full reconciliation the ports are as the baseline leaves them. */
  lemma PortsAfterBaseline(cfg: Config, s: State, teams: Teams, o: Outcomes)
    requires !s.synced && cfg.address != "" && Succeeds(cfg, s, teams, o)
    ensures Configure(cfg, s, teams, o).device.ports == ExecAll(s.device.(mode := GlobalConfig), Baseline()).ports
  {
    var mid := AfterBaseline(s.device, o);
    var rest := Lines(TeamSessions(cfg, s, teams, o));
    assert o.baseline.Delivered? && o.save.Delivered?
      && ExecAll(s.device, Lines(Sessions(cfg, s, teams, o))) == ExecAll(mid, rest) by {
      BaselineSessions(cfg, s, teams, o);
    }
    PortsKeptBySave(ExecAll(s.device, SessionLines(BaselineSession(o).commands, o.baseline)));
    TeamLinesEdit(cfg, s, teams, o);
    PortsKept(mid, rest);
  }

  /** Starting over puts every station port back up in its own VLAN, whatever state it was left in. */
  lemma ReconciliationRestoresPorts(cfg: Config, s: State, teams: Teams, o: Outcomes, p: int)
    requires !s.synced && cfg.address != "" && Succeeds(cfg, s, teams, o) && 1 <= p <= STATION_COUNT
    ensures PortAt(Configure(cfg, s, teams, o).device, p) == Port(Access([10, 20, 30, 40, 50, 60][p - 1]), true)
  {
    BaselinePorts(s.device, p);
    PortsAfterBaseline(cfg, s, teams, o);
  }

  lemma PortsKeptBySave(d: Device)
    ensures ExecAll(d, SessionLines([WriteMemory], Delivered)).ports == d.ports
  {
  }

  /** Station ports stay as their own block leaves them when nothing before selects a port and nothing after
      selects theirs. */
  lemma AccessPorts(d: Device, intro: seq<Command>, n: nat, tail: seq<Command>, p: int)
    requires !d.mode.PortConfig? && 1 <= p <= n <= STATION_COUNT
    requires (forall c :: c in intro ==> !c.SelectPort?) && (forall c :: c in tail ==> SparesPort(c, p))
    ensures PortAt(ExecAll(d, intro + StationPorts(n) + tail), p) == Port(Access(VLAN_FOR_STATION[p - 1]), true)
  {
    ExecAllConcat(d, intro + StationPorts(n), tail);
    ExecAllConcat(d, intro, StationPorts(n));
    StaysOutsidePorts(d, intro);
    var d1 := ExecAll(d, intro);
    StationPortsEffect(d1, n);
    EndsOutsidePorts(d1, n);
    OtherPortsKept(ExecAll(d1, StationPorts(n)), tail, p);
  }

  lemma OtherPortsSpare(p: int)
    requires 1 <= p <= STATION_COUNT
    ensures forall c :: c in OtherPorts() ==> SparesPort(c, p)
  {
  }

  lemma BaselinePorts(d: Device, p: int)
    requires 1 <= p <= STATION_COUNT
    ensures PortAt(ExecAll(d, SessionLines(Baseline(), Delivered)), p) == Port(Access(VLAN_FOR_STATION[p - 1]), true)
  {
    StandingLines(|VLAN_FOR_STATION|);
    OtherPortsSpare(p);
    AccessPorts(d.(mode := GlobalConfig), BaselineIntro(), |VLAN_FOR_STATION|, OtherPorts(), p);
  }

  lemma {:induction false} StaysOutsidePorts(d: Device, cs: seq<Command>)
    requires !d.mode.PortConfig? && forall c :: c in cs ==> !c.SelectPort?
    ensures !ExecAll(d, cs).mode.PortConfig?
    decreases |cs|
  {
    if cs != [] {
      assert cs[0] in cs && forall c :: c in cs[1..] ==> c in cs;
      StaysOutsidePorts(Exec(d, cs[0]), cs[1..]);
    }
  }
}

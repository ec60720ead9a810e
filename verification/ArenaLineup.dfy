/** Teams, connections and network requests over every run: who is at which station, whose driver station is
    connected there, and what the switch has been asked to carry. */
module ArenaLineup {
  import opened Options
  import opened TeamNetwork
  import opened FieldEStop
  import opened ArenaState
  import opened ArenaSafety
  import SwitchDevice
  import TeamSwitch
  import EthernetConfig

  // ----- the invariant

  /** A driver station is connected only beside a team of its own number. */
  predicate ConnectionFits(s: Station) {
    s.conn.Some? ==> s.team.Some? && s.team.value.id == s.conn.value.teamId
  }

  ghost predicate ConnectionsFit(a: Arena) {
    forall i: StationIndex :: ConnectionFits(a.stations[i])
  }

  predicate Holds(s: Station, serial: nat) {
    s.conn.Some? && s.conn.value.serial == serial
  }

  /** No connection is at two stations, and serial numbers are handed out in order. */
  ghost predicate SerialsIssued(a: Arena) {
    && (forall i: StationIndex, serial: nat :: Holds(a.stations[i], serial) ==> serial < a.nextSerial)
    && (forall i: StationIndex, j: StationIndex, serial: nat ::
          Holds(a.stations[i], serial) && Holds(a.stations[j], serial) ==> i == j)
  }

  /** The stations' teams are those of the current match, no two the same. */
  ghost predicate Mirrored(a: Arena) {
    && a.currentMatch.matchType == Test
    && DistinctTeams(a.currentMatch.teams)
    && (forall i: StationIndex :: TeamId(a.stations[i].team) == a.currentMatch.teams[i])
  }

  /** No lineup has been requested since the startup request was handed over. */
  predicate StartupIsNewest(a: Arena) {
    a.startup.HandedOver? && a.startup.place == |a.requests| - 1
  }

  /** The place of the newest request made under the arena's lock: the newest one, unless that is the startup request,
      and then the one before it. */
  function NewestLocked(a: Arena): int {
    |a.requests| - if StartupIsNewest(a) then 2 else 1
  }

  ghost predicate RequestsDistinct(a: Arena) {
    && (forall k :: 0 <= k < |a.requests| ==> DistinctTeams(TeamIds(a.requests[k])))
    && (!a.startup.NotLaunched? ==> DistinctTeams(TeamIds(a.startup.teams)))
  }

  predicate StartupInPlace(a: Arena) {
    a.startup.HandedOver? ==> a.startup.place < |a.requests| && a.requests[a.startup.place] == a.startup.teams
  }

  /** Every lineup sent to the switch had distinct teams; the startup request is in its place, and the newest of the
      others is the lineup on the field. */
  ghost predicate RequestsFollow(settings: Settings, a: Arena) {
    && RequestsDistinct(a)
    && (settings.networkSecurity ==>
          && 0 <= NewestLocked(a) && a.requests[NewestLocked(a)] == CurrentTeams(a)
          && StartupInPlace(a))
  }

  ghost predicate LineupInvariant(settings: Settings, a: Arena) {
    ConnectionsFit(a) && SerialsIssued(a) && Mirrored(a) && RequestsFollow(settings, a)
  }

  // ----- steps that move no team

  /** The same connection, possibly heard from or written to since. */
  predicate SameConnection(c: Option<Connection>, d: Option<Connection>) {
    && c.Some? == d.Some?
    && (c.Some? ==> c.value.serial == d.value.serial && c.value.teamId == d.value.teamId)
  }

  ghost predicate TeamsStay(a: Arena, b: Arena) {
    && b.currentMatch == a.currentMatch && b.requests == a.requests && b.startup == a.startup
    && (forall i: StationIndex :: b.stations[i].team == a.stations[i].team)
  }

  ghost predicate ConnectionsStay(a: Arena, b: Arena) {
    && b.nextSerial == a.nextSerial
    && (forall i: StationIndex :: SameConnection(a.stations[i].conn, b.stations[i].conn))
  }

  lemma ConnectionsStayKeep(a: Arena, b: Arena)
    requires ConnectionsFit(a) && SerialsIssued(a) && ConnectionsStay(a, b) && TeamsStay(a, b)
    ensures ConnectionsFit(b) && SerialsIssued(b)
  {
    forall i: StationIndex ensures ConnectionFits(b.stations[i]) {
      assert ConnectionFits(a.stations[i]) && SameConnection(a.stations[i].conn, b.stations[i].conn);
    }
    assert forall i: StationIndex, serial: nat :: Holds(b.stations[i], serial) ==> Holds(a.stations[i], serial) by {
      forall i: StationIndex, serial: nat | Holds(b.stations[i], serial) ensures Holds(a.stations[i], serial) {
        assert SameConnection(a.stations[i].conn, b.stations[i].conn);
      }
    }
  }

  lemma StayingKeeps(settings: Settings, a: Arena, b: Arena)
    requires LineupInvariant(settings, a) && TeamsStay(a, b) && ConnectionsStay(a, b)
    ensures LineupInvariant(settings, b)
  {
    ConnectionsStayKeep(a, b);
  }

  lemma SendingStays(adv: Advance, now: int, failed: SixFlags)
    ensures var b := AfterSending(adv, now, failed); TeamsStay(adv.arena, b) && ConnectionsStay(adv.arena, b)
  {
  }

  lemma FieldPollStays(a: Arena, pins: Pins, now: int)
    ensures TeamsStay(a, PollFieldEStop(a, pins, now)) && ConnectionsStay(a, PollFieldEStop(a, pins, now))
  {
  }

  // ----- reassigning teams

  /** b is a with its teams placed afresh and the network asked to follow. */
  ghost predicate Reassigned(settings: Settings, a: Arena, b: Arena, ids: Lineup, table: TeamTable) {
    && b.currentMatch == Match(Test, ids) && b.nextSerial == a.nextSerial
    && b.requests == (if settings.networkSecurity then a.requests + [CurrentTeams(b)] else a.requests)
    && b.startup == a.startup
    && (forall i: StationIndex ::
          && b.stations[i].team == AssignTeam(settings, a.stations[i], ids[i], table).team
          && b.stations[i].conn == AssignTeam(settings, a.stations[i], ids[i], table).conn)
  }

  lemma ReassignedConnections(settings: Settings, a: Arena, b: Arena, ids: Lineup, table: TeamTable)
    requires Reassigned(settings, a, b, ids, table) && ConnectionsFit(a) && SerialsIssued(a)
    ensures ConnectionsFit(b) && SerialsIssued(b)
    ensures forall i: StationIndex :: TeamId(b.stations[i].team) == ids[i]
  {
    forall i: StationIndex
      ensures ConnectionFits(b.stations[i]) && TeamId(b.stations[i].team) == ids[i]
      ensures b.stations[i].conn == None || b.stations[i].conn == a.stations[i].conn
    {
      assert ConnectionFits(a.stations[i]);
    }
    assert forall i: StationIndex, serial: nat :: Holds(b.stations[i], serial) ==> Holds(a.stations[i], serial);
  }

  lemma ReassignedKeeps(settings: Settings, a: Arena, b: Arena, ids: Lineup, table: TeamTable)
    requires Reassigned(settings, a, b, ids, table) && ConnectionsFit(a) && SerialsIssued(a)
    requires RequestsDistinct(a) && (settings.networkSecurity ==> StartupInPlace(a)) && DistinctTeams(ids)
    ensures LineupInvariant(settings, b)
  {
    ReassignedConnections(settings, a, b, ids, table);
    assert TeamIds(CurrentTeams(b)) == ids;
    forall k | 0 <= k < |b.requests| ensures DistinctTeams(TeamIds(b.requests[k])) {
      if k < |a.requests| {
        assert b.requests[k] == a.requests[k];
      }
    }
  }

  lemma ClearReassigns(settings: Settings, a: Arena, table: TeamTable)
    ensures Reassigned(settings, a, ClearMatch(settings, a, table), a.currentMatch.teams, table)
  {
    var ids := a.currentMatch.teams;
    var b := ClearMatch(settings, a, table);
    var blank := CyclePorts(settings, ResetMatch(a));
    var loaded := LoadMatch(settings, blank, Match(Test, ids), table);
    assert blank.requests == a.requests && blank.nextSerial == a.nextSerial && blank.startup == a.startup;
    assert loaded.requests == b.requests && loaded.nextSerial == b.nextSerial && loaded.startup == b.startup;
    assert CurrentTeams(b) == CurrentTeams(loaded);
    ClearEffect(settings, a, table);
    forall i: StationIndex
      ensures b.stations[i].team == AssignTeam(settings, a.stations[i], ids[i], table).team
      ensures b.stations[i].conn == AssignTeam(settings, a.stations[i], ids[i], table).conn
    {
      ClearAt(settings, a, table, i);
    }
  }

  /** The field with every station emptied, before the empty match is loaded. */
  function Emptied(a: Arena): Arena {
    ResetMatch(a.(stations := seq(STATION_COUNT, i requires 0 <= i < STATION_COUNT => EmptyStation(a.stations[i]))))
  }

  lemma ResetFieldKeeps(settings: Settings, a: Arena, table: TeamTable)
    requires LineupInvariant(settings, a)
    ensures LineupInvariant(settings, ResetField(settings, a, table))
  {
    var empty: Lineup := [0, 0, 0, 0, 0, 0];
    ReassignedKeeps(settings, Emptied(a), LoadMatch(settings, Emptied(a), Match(Test, empty), table), empty, table);
  }

  lemma SubstitutionReassigns(settings: Settings, a: Arena, ids: seq<int>, table: TeamTable)
    requires a.currentMatch.matchType == Test
    requires |ids| == STATION_COUNT && SubstituteTeams(settings, a, ids, table).Ok?
    ensures (forall i: StationIndex :: ids[i] >= 0) && DistinctTeams(ids)
    ensures Reassigned(settings, a, SubstituteTeams(settings, a, ids, table).arena, ids, table)
  {
    ValidLineup(ids, |ids|, table);
    var placed := AssignAll(settings, a, ids, table);
    var b := SubstituteTeams(settings, a, ids, table).arena;
    assert CurrentTeams(b) == CurrentTeams(placed);
  }

  // ----- every step

  lemma TransitionLineup(settings: Settings, a: Arena, now: int, inp: TickInputs)
    requires LineupInvariant(settings, a)
    ensures LineupInvariant(settings, Advanced(settings, a, now, inp).arena)
  {
    var b := Advanced(settings, a, now, inp).arena;
    if a.matchState == PostMatch && now - a.postMatchStart >= POST_MATCH_DELAY {
      ClearReassigns(settings, a, inp.teamTable);
      ReassignedKeeps(settings, a, b, a.currentMatch.teams, inp.teamTable);
    } else {
      TransitionStays(settings, a, now, inp);
      StayingKeeps(settings, a, b);
    }
  }

  lemma TransitionStays(settings: Settings, a: Arena, now: int, inp: TickInputs)
    requires a.matchState != PostMatch || now - a.postMatchStart < POST_MATCH_DELAY
    ensures var b := Advanced(settings, a, now, inp).arena;
      b.stations == a.stations && TeamsStay(a, b) && ConnectionsStay(a, b)
  {
  }

  lemma UpdateLineup(settings: Settings, a: Arena, now: int, poll: int, inp: TickInputs)
    requires LineupInvariant(settings, a)
    ensures LineupInvariant(settings, Update(settings, a, now, poll, inp))
  {
    var adv := Advanced(settings, a, now, inp);
    var sent := AfterSending(adv, now, inp.failed);
    var polled := PollFieldEStop(sent, inp.pins, poll);
    var b := Update(settings, a, now, poll, inp);
    TransitionLineup(settings, a, now, inp);
    SendingStays(adv, now, inp.failed);
    StayingKeeps(settings, adv.arena, sent);
    FieldPollStays(sent, inp.pins, poll);
    StayingKeeps(settings, sent, polled);
    OtherPollsKeep(settings, sent, poll, inp);
    StayingKeeps(settings, polled, b);
  }

  lemma ClearLineup(settings: Settings, a: Arena, table: TeamTable)
    requires LineupInvariant(settings, a)
    ensures LineupInvariant(settings, ClearMatch(settings, a, table))
  {
    ClearReassigns(settings, a, table);
    ReassignedKeeps(settings, a, ClearMatch(settings, a, table), a.currentMatch.teams, table);
  }

  lemma SubstituteLineup(settings: Settings, a: Arena, ids: seq<int>, table: TeamTable)
    requires LineupInvariant(settings, a)
    requires |ids| == STATION_COUNT && SubstituteTeams(settings, a, ids, table).Ok?
    ensures LineupInvariant(settings, SubstituteTeams(settings, a, ids, table).arena)
  {
    SubstitutionReassigns(settings, a, ids, table);
    ReassignedKeeps(settings, a, SubstituteTeams(settings, a, ids, table).arena, ids, table);
  }

  /** The station found is one the team is at; none is found only if the team is at none. */
  lemma {:induction false} AssignedStationFinds(a: Arena, teamId: int, n: Count)
    ensures var found := AssignedStation(a, teamId, n);
      && (found.Some? ==> found.value < n && TeamId(a.stations[found.value].team) == teamId
                          && a.stations[found.value].team.Some?)
      && (found.None? ==> forall i :: 0 <= i < n ==>
            !(a.stations[i].team.Some? && a.stations[i].team.value.id == teamId))
  {
    if n > 0 {
      AssignedStationFinds(a, teamId, n - 1);
    }
  }

  lemma ConnectLineup(settings: Settings, a: Arena, teamId: int, reply: Reply)
    requires LineupInvariant(settings, a)
    ensures LineupInvariant(settings, ConnectTeam(a, teamId, reply))
  {
    var b := ConnectTeam(a, teamId, reply);
    AssignedStationFinds(a, teamId, |a.stations|);
    if AssignedStation(a, teamId, |a.stations|).Some? && reply == Answered {
      var i := AssignedStation(a, teamId, |a.stations|).value;
      forall k: StationIndex ensures b.stations[k].team == a.stations[k].team && ConnectionFits(b.stations[k]) {
        assert ConnectionFits(a.stations[k]);
      }
      assert forall k: StationIndex, serial: nat :: Holds(b.stations[k], serial) ==>
        if k == i then serial == a.nextSerial else Holds(a.stations[k], serial);
    }
  }

  lemma TeardownLineup(settings: Settings, a: Arena, i: StationIndex, serial: nat)
    requires LineupInvariant(settings, a)
    ensures LineupInvariant(settings, Teardown(a, i, serial))
  {
  }

  /** Steps that touch neither a team nor which driver stations are connected. */
  lemma OtherStepsStay(settings: Settings, a: Arena, e: Event)
    requires !e.action.Tick? && !e.action.ClearCommand? && !e.action.ResetFieldCommand? && !e.action.Substitute?
    requires !e.action.Connect? && !e.action.Disconnect? && !e.action.Heard?
    requires !e.action.Launch? && !e.action.StartupRequest?
    ensures TeamsStay(a, Step(settings, a, e)) && ConnectionsStay(a, Step(settings, a, e))
  {
    match e.action
    case ClearFieldEStop(first, second) => ClearFieldEStopStays(a, first, second, e.at, e.done);
    case Reset =>
    case ToggleBypass(_) => TogglesStay(settings, a, e);
    case ToggleEStop(_) => TogglesStay(settings, a, e);
    case BypassEmpty => TogglesStay(settings, a, e);
    case _ =>
  }

  lemma TogglesStay(settings: Settings, a: Arena, e: Event)
    requires e.action.ToggleBypass? || e.action.ToggleEStop? || e.action.BypassEmpty?
    ensures TeamsStay(a, Step(settings, a, e)) && ConnectionsStay(a, Step(settings, a, e))
  {
  }

  lemma ClearFieldEStopStays(a: Arena, first: Pins, second: Pins, at: int, done: int)
    ensures var b := ClearFieldEStopCommand(a, first, second, at, done); TeamsStay(a, b) && ConnectionsStay(a, b)
  {
  }

  lemma StepKeepsLineup(settings: Settings, a: Arena, e: Event)
    requires LineupInvariant(settings, a)
    ensures LineupInvariant(settings, Step(settings, a, e))
  {
    match e.action
    case Tick(inp) => UpdateLineup(settings, a, e.at, e.done, inp);
    case ClearCommand(table) => ClearLineup(settings, a, table);
    case ResetFieldCommand(table) => ResetFieldKeeps(settings, a, table);
    case Substitute(ids, table) => SubstitutionStepKeeps(settings, a, e);
    case Connect(teamId, reply) => ConnectLineup(settings, a, teamId, reply);
    case Disconnect(i, serial) => TeardownLineup(settings, a, i, serial);
    case Launch => StartupStepKeeps(settings, a, e);
    case StartupRequest => StartupStepKeeps(settings, a, e);
    case _ => StayingStepKeeps(settings, a, e);
  }

  /** The startup request touches neither a station nor the match. */
  lemma StartupStepKeeps(settings: Settings, a: Arena, e: Event)
    requires LineupInvariant(settings, a) && (e.action.Launch? || e.action.StartupRequest?)
    ensures LineupInvariant(settings, Step(settings, a, e))
  {
    var b := Step(settings, a, e);
    assert b == a.(startup := b.startup, requests := b.requests);
    assert CurrentTeams(b) == CurrentTeams(a);
    assert TeamIds(CurrentTeams(a)) == a.currentMatch.teams by {
      assert forall i: StationIndex :: TeamId(a.stations[i].team) == a.currentMatch.teams[i];
    }
  }

  lemma SubstitutionStepKeeps(settings: Settings, a: Arena, e: Event)
    requires LineupInvariant(settings, a) && e.action.Substitute?
    ensures LineupInvariant(settings, Step(settings, a, e))
  {
    if |e.action.ids| == STATION_COUNT && SubstituteTeams(settings, a, e.action.ids, e.action.teamTable).Ok? {
      SubstituteLineup(settings, a, e.action.ids, e.action.teamTable);
    }
  }

  lemma StayingStepKeeps(settings: Settings, a: Arena, e: Event)
    requires LineupInvariant(settings, a)
    requires !e.action.Tick? && !e.action.ClearCommand? && !e.action.ResetFieldCommand? && !e.action.Substitute?
    requires !e.action.Connect? && !e.action.Disconnect? && !e.action.Launch? && !e.action.StartupRequest?
    ensures LineupInvariant(settings, Step(settings, a, e))
  {
    if e.action.Heard? {
    } else {
      OtherStepsStay(settings, a, e);
    }
    StayingKeeps(settings, a, Step(settings, a, e));
  }

  lemma NewArenaLineup(settings: Settings, panel: Option<Panel>)
    ensures LineupInvariant(settings, NewArena(settings, panel))
  {
  }

  /** Over every run a driver station is connected only beside a team of its own number, the stations mirror the
      current match, whose teams are pairwise distinct, and the newest lineup handed to the network is the one on
      the field. */
  lemma {:induction false} LineupHolds(settings: Settings, arenas: seq<Arena>, events: seq<Event>, n: nat)
    requires Run(settings, arenas, events) && n <= |events|
    ensures LineupInvariant(settings, arenas[n])
  {
    if n == 0 {
      NewArenaLineup(settings, arenas[0].panel);
    } else {
      LineupHolds(settings, arenas, events, n - 1);
      StepKeepsLineup(settings, arenas[n - 1], events[n - 1]);
      assert arenas[n] == Step(settings, arenas[n - 1], events[n - 1]);
    }
  }

  /** A registered team has exactly one station, and looking it up finds that station. */
  lemma StationLookupIsUnique(
    settings: Settings, arenas: seq<Arena>, events: seq<Event>, n: nat, teamId: int, i: StationIndex)
    requires Run(settings, arenas, events) && n <= |events|
    ensures AssignedStation(arenas[n], teamId, STATION_COUNT) == Some(i) <==>
      arenas[n].stations[i].team.Some? && arenas[n].stations[i].team.value.id == teamId
  {
    LineupHolds(settings, arenas, events, n);
    var a := arenas[n];
    AssignedStationFinds(a, teamId, STATION_COUNT);
    assert TeamId(a.stations[i].team) == a.currentMatch.teams[i];
    var found := AssignedStation(a, teamId, STATION_COUNT);
    if found.Some? {
      assert TeamId(a.stations[found.value].team) == a.currentMatch.teams[found.value];
    }
  }

  // ----- clearing a match

  /** Clearing a match keeps everybody at his place: the lineup, every connection, the bypasses and the stops. */
  lemma ClearKeepsTheField(
    settings: Settings, arenas: seq<Arena>, events: seq<Event>, n: nat, table: TeamTable, i: StationIndex)
    requires Run(settings, arenas, events) && n <= |events|
    ensures var a, b := arenas[n], ClearMatch(settings, arenas[n], table);
      && b.matchState == PreMatch && b.gameData == "" && !b.matchAborted
      && b.currentMatch == a.currentMatch
      && TeamId(b.stations[i].team) == TeamId(a.stations[i].team)
      && b.stations[i].conn == a.stations[i].conn
      && SameFlags(a.stations[i], b.stations[i])
      && b.stations[i].aStopReset == !settings.plcEnabled
  {
    LineupHolds(settings, arenas, events, n);
    ClearStays(settings, arenas[n], table, i);
    ClearEffect(settings, arenas[n], table);
    ClearKeepsFlags(settings, arenas[n], table, i);
    ClearAt(settings, arenas[n], table, i);
  }

  lemma ClearStays(settings: Settings, a: Arena, table: TeamTable, i: StationIndex)
    requires ConnectionsFit(a) && Mirrored(a)
    ensures var b := ClearMatch(settings, a, table);
      TeamId(b.stations[i].team) == TeamId(a.stations[i].team) && b.stations[i].conn == a.stations[i].conn
  {
    assert ConnectionFits(a.stations[i]) && TeamId(a.stations[i].team) == a.currentMatch.teams[i];
    ClearAt(settings, a, table, i);
  }

  // ----- a connection and its replacements

  /** What ends a connection while its team keeps its station: its own teardown, or the same team's next one. */
  predicate Replaces(e: Event, i: StationIndex, serial: nat, teamId: int) {
    || (e.action.Disconnect? && e.action.station == i && e.action.serial == serial)
    || (e.action.Connect? && e.action.teamId == teamId && e.action.reply == Answered)
  }

  lemma SubstitutionKeepsConnection(
    settings: Settings, a: Arena, ids: seq<int>, table: TeamTable, i: StationIndex)
    requires ConnectionsFit(a) && Mirrored(a)
    requires |ids| == STATION_COUNT && SubstituteTeams(settings, a, ids, table).Ok?
    requires ids[i] == a.currentMatch.teams[i]
    ensures SubstituteTeams(settings, a, ids, table).arena.stations[i].conn == a.stations[i].conn
  {
    assert ConnectionFits(a.stations[i]) && TeamId(a.stations[i].team) == a.currentMatch.teams[i];
    SubstitutionReassigns(settings, a, ids, table);
  }

  lemma ConnectingKeepsOthers(a: Arena, teamId: int, reply: Reply, i: StationIndex)
    requires reply != Answered || (a.stations[i].team.Some? && a.stations[i].team.value.id != teamId)
    ensures ConnectTeam(a, teamId, reply).stations[i] == a.stations[i]
  {
    AssignedStationFinds(a, teamId, |a.stations|);
  }

  lemma ReloadKeepsConnection(settings: Settings, a: Arena, e: Event, i: StationIndex)
    requires ConnectionsFit(a) && Mirrored(a) && a.stations[i].conn.Some?
    requires e.action.ClearCommand? || e.action.ResetFieldCommand?
    requires Step(settings, a, e).currentMatch.teams[i] == a.currentMatch.teams[i]
    ensures Step(settings, a, e).stations[i].conn == a.stations[i].conn
  {
    assert ConnectionFits(a.stations[i]) && TeamId(a.stations[i].team) == a.currentMatch.teams[i];
    if e.action.ClearCommand? {
      ClearStays(settings, a, e.action.teamTable, i);
    } else {
    }
  }

  lemma DriverStationsKeepConnection(settings: Settings, a: Arena, e: Event, i: StationIndex, serial: nat)
    requires Holds(a.stations[i], serial) && ConnectionFits(a.stations[i])
    requires e.action.Connect? || e.action.Disconnect? || e.action.Heard?
    requires !Replaces(e, i, serial, a.stations[i].conn.value.teamId)
    ensures SameConnection(a.stations[i].conn, Step(settings, a, e).stations[i].conn)
  {
    match e.action
    case Connect(teamId, reply) => ConnectingKeepsOthers(a, teamId, reply, i);
    case Heard(teamId, linked) =>
    case _ =>
  }

  lemma StepKeepsConnection(settings: Settings, a: Arena, e: Event, i: StationIndex, serial: nat)
    requires LineupInvariant(settings, a) && Holds(a.stations[i], serial)
    requires !Replaces(e, i, serial, a.stations[i].conn.value.teamId)
    requires Step(settings, a, e).currentMatch.teams[i] == a.currentMatch.teams[i]
    ensures SameConnection(a.stations[i].conn, Step(settings, a, e).stations[i].conn)
  {
    assert ConnectionFits(a.stations[i]);
    match e.action
    case Tick(inp) => UpdateKeepsConnection(settings, a, e.at, e.done, inp, i);
    case ClearCommand(_) => ReloadKeepsConnection(settings, a, e, i);
    case ResetFieldCommand(_) => ReloadKeepsConnection(settings, a, e, i);
    case Substitute(ids, table) =>
      if |ids| == STATION_COUNT && SubstituteTeams(settings, a, ids, table).Ok? {
        SubstitutionKeepsConnection(settings, a, ids, table, i);
      }
    case Connect(_, _) => DriverStationsKeepConnection(settings, a, e, i, serial);
    case Disconnect(_, _) => DriverStationsKeepConnection(settings, a, e, i, serial);
    case Heard(_, _) => DriverStationsKeepConnection(settings, a, e, i, serial);
    case Launch =>
    case StartupRequest =>
    case _ => OtherStepsStay(settings, a, e);
  }

  lemma UpdateKeepsConnection(
    settings: Settings, a: Arena, now: int, poll: int, inp: TickInputs, i: StationIndex)
    requires LineupInvariant(settings, a)
    ensures SameConnection(a.stations[i].conn, Update(settings, a, now, poll, inp).stations[i].conn)
  {
    var adv := Advanced(settings, a, now, inp);
    var sent := AfterSending(adv, now, inp.failed);
    if a.matchState == PostMatch && now - a.postMatchStart >= POST_MATCH_DELAY {
      ClearStays(settings, a, inp.teamTable, i);
    } else {
      TransitionStays(settings, a, now, inp);
    }
    SendingStays(adv, now, inp.failed);
    FieldPollStays(sent, inp.pins, poll);
    OtherPollsKeep(settings, sent, poll, inp);
  }

  /** As long as its team keeps the station, a connection ends only by its own teardown or by the same team's next
      connection: the teardown of any other one, a predecessor's above all, leaves it alone, and so does every
      match that starts, ends or is cleared meanwhile. */
  lemma {:induction false} ConnectionOutlivesStaleTeardown(
    settings: Settings, arenas: seq<Arena>, events: seq<Event>, i: StationIndex, serial: nat, k: nat, n: nat)
    requires Run(settings, arenas, events) && k <= n <= |events| && Holds(arenas[k].stations[i], serial)
    requires forall j :: k <= j < n ==>
      !Replaces(events[j], i, serial, arenas[k].stations[i].conn.value.teamId)
    requires forall j :: k <= j <= n ==> arenas[j].currentMatch.teams[i] == arenas[k].currentMatch.teams[i]
    ensures SameConnection(arenas[k].stations[i].conn, arenas[n].stations[i].conn)
    decreases n - k
  {
    if k < n {
      var m := n - 1;
      ConnectionOutlivesStaleTeardown(settings, arenas, events, i, serial, k, m);
      LineupHolds(settings, arenas, events, m);
      assert arenas[n] == Step(settings, arenas[m], events[m]);
      assert arenas[m].currentMatch.teams[i] == arenas[k].currentMatch.teams[i];
      StepKeepsConnection(settings, arenas[m], events[m], i, serial);
    }
  }

  // ----- the wired network

  /** The arena only ever asks the network for lineups of distinct teams, so every one of its requests is one the
      supersede protocol is built for. */
  lemma RequestsAreDistinct(
    settings: Settings, arenas: seq<Arena>, events: seq<Event>, n: nat, p: EthernetConfig.Protocol, k: nat)
    requires Run(settings, arenas, events) && n <= |events| && k < |arenas[n].requests|
    ensures EthernetConfig.Enabled(p, EthernetConfig.Request(arenas[n].requests[k]))
  {
    LineupHolds(settings, arenas, events, n);
  }

  /** The switch cannot tell the two lineups apart: at every station the same team, or two without an address. */
  predicate SameOnSwitch(x: Lineup, y: Lineup) {
    forall i :: 0 <= i < STATION_COUNT ==> x[i] == y[i] || (x[i] > 25599 && y[i] > 25599)
  }

  /** From the operator's lineup to the switch: once the background goroutines of all the requests so far are
      done, and the last application succeeded, the switch carries exactly the teams of the current match, if and
      only if the startup request is not the newest of them or asked for the same teams. */
  lemma SwitchCarriesCurrentMatch(
    settings: Settings, arenas: seq<Arena>, events: seq<Event>, n: nat,
    cfg: TeamSwitch.Config, p: EthernetConfig.Protocol, actions: seq<EthernetConfig.Action>)
    requires Run(settings, arenas, events) && n <= |events| && settings.networkSecurity
    requires EthernetConfig.Start(p) && EthernetConfig.Possible(cfg, p, actions)
    requires EthernetConfig.After(cfg, p, actions).requested == arenas[n].requests
    requires EthernetConfig.Quiet(EthernetConfig.After(cfg, p, actions))
    ensures var q, a := EthernetConfig.After(cfg, p, actions), arenas[n];
      && q.log != []
      && (q.log[|q.log| - 1].ok && cfg.address != "" ==>
            (TeamSwitch.Carries(cfg.dnsServer, q.switch.device, a.currentMatch.teams) <==>
               !StartupIsNewest(a) || SameOnSwitch(TeamIds(a.startup.teams), a.currentMatch.teams)))
  {
    var q, a := EthernetConfig.After(cfg, p, actions), arenas[n];
    NewestRequest(settings, arenas, events, n);
    EthernetConfig.QuietFieldCarriesNewestLineup(cfg, p, actions);
    if q.log[|q.log| - 1].ok && cfg.address != "" {
    }
  }

  /** The newest request is the startup request, or asks for the teams of the current match. */
  lemma NewestRequest(settings: Settings, arenas: seq<Arena>, events: seq<Event>, n: nat)
    requires Run(settings, arenas, events) && n <= |events| && settings.networkSecurity
    ensures var a := arenas[n];
      && a.requests != []
      && (StartupIsNewest(a) ==> a.requests[|a.requests| - 1] == a.startup.teams)
      && (!StartupIsNewest(a) ==> TeamIds(a.requests[|a.requests| - 1]) == a.currentMatch.teams)
  {
    LineupHolds(settings, arenas, events, n);
  }

  // ----- the startup request overtaken

  const ONE_TEAM: Lineup := [1, 0, 0, 0, 0, 0]
  const ONE_ENTRY: TeamTable := map[1 := ""]
  const NO_TEAMS: Teams := [None, None, None, None, None, None]

  /** The controller is launched with an empty field, and team 1 is registered before the startup request, which has
      already read the field, is handed over. */
  function OvertakenEvents(): seq<Event> {
    [Event(0, 0, Launch), Event(1, 1, Substitute(ONE_TEAM, ONE_ENTRY)), Event(2, 2, StartupRequest)]
  }

  function LaunchedArena(settings: Settings): Arena {
    LaunchLoop(NewArena(settings, None))
  }

  function SubstitutedArena(settings: Settings): Arena {
    Step(settings, LaunchedArena(settings), OvertakenEvents()[1])
  }

  function OvertakenArenas(settings: Settings): seq<Arena> {
    [NewArena(settings, None), LaunchedArena(settings), SubstitutedArena(settings),
     HandOver(settings, SubstitutedArena(settings))]
  }

  lemma LaunchedEmpty(settings: Settings)
    ensures NewArena(settings, None).panel == None
    ensures LaunchedArena(settings).startup == Launched(NO_TEAMS)
    ensures LaunchedArena(settings).currentMatch.matchType == Test
  {
    assert CurrentTeams(NewArena(settings, None)) == NO_TEAMS;
  }

  lemma OneTeamRegistered(settings: Settings)
    ensures SubstitutedArena(settings).currentMatch.teams == ONE_TEAM
    ensures SubstitutedArena(settings).startup == Launched(NO_TEAMS)
  {
    var b := LaunchedArena(settings);
    LaunchedEmpty(settings);
    assert NamedOnce(ONE_TEAM, STATION_COUNT, ONE_ENTRY);
    SubstitutionAcceptedExactlyWhen(settings, b, ONE_TEAM, ONE_ENTRY);
    SubstitutionReassigns(settings, b, ONE_TEAM, ONE_ENTRY);
    SubstitutionSteps(settings, b, OvertakenEvents()[1]);
  }

  lemma SubstitutionSteps(settings: Settings, a: Arena, e: Event)
    requires e.action.Substitute? && |e.action.ids| == STATION_COUNT
    requires SubstituteTeams(settings, a, e.action.ids, e.action.teamTable).Ok?
    ensures Step(settings, a, e) == SubstituteTeams(settings, a, e.action.ids, e.action.teamTable).arena
  {
  }

  lemma StartupSteps(settings: Settings, a: Arena, e: Event)
    ensures e.action == Launch ==> Step(settings, a, e) == LaunchLoop(a)
    ensures e.action == StartupRequest ==> Step(settings, a, e) == HandOver(settings, a)
  {
  }

  lemma OvertakenIsARun(settings: Settings)
    ensures Run(settings, OvertakenArenas(settings), OvertakenEvents())
  {
    var events, arenas := OvertakenEvents(), OvertakenArenas(settings);
    LaunchedEmpty(settings);
    StartupSteps(settings, arenas[0], events[0]);
    StartupSteps(settings, arenas[2], events[2]);
  }

  /** Then the empty lineup is the newest request: every goroutine can finish, without a failure, with a switch that
      does not carry the team on the field. */
  lemma OvertakenStartupWins(settings: Settings, cfg: TeamSwitch.Config, p: EthernetConfig.Protocol)
    returns (actions: seq<EthernetConfig.Action>)
    requires settings.networkSecurity && cfg.address != "" && EthernetConfig.Start(p)
    ensures Run(settings, OvertakenArenas(settings), OvertakenEvents())
    ensures EthernetConfig.Possible(cfg, p, actions)
    ensures var q, a := EthernetConfig.After(cfg, p, actions), OvertakenArenas(settings)[3];
      && q.requested == a.requests && EthernetConfig.Quiet(q) && q.log != [] && q.log[|q.log| - 1].ok
      && !TeamSwitch.Carries(cfg.dnsServer, q.switch.device, a.currentMatch.teams)
  {
    var a := OvertakenArenas(settings)[3];
    OvertakenIsARun(settings);
    OneTeamRegistered(settings);
    LineupHolds(settings, OvertakenArenas(settings), OvertakenEvents(), 3);
    actions := EthernetConfig.RequestsCanBeServed(cfg, p, a.requests);
    SwitchCarriesCurrentMatch(settings, OvertakenArenas(settings), OvertakenEvents(), 3, cfg, p, actions);
    assert StartupIsNewest(a) && !SameOnSwitch(TeamIds(a.startup.teams), a.currentMatch.teams) by {
      assert TeamIds(NO_TEAMS)[0] == 0;
    }
  }

  /** A substitution is accepted exactly when the match is not a qualification match, every team named is in the
      table, and none is named twice; then the lineup is the one asked for. */
  lemma SubstitutionAcceptedExactlyWhen(settings: Settings, a: Arena, ids: seq<int>, table: TeamTable)
    requires |ids| == STATION_COUNT
    ensures SubstituteTeams(settings, a, ids, table).Ok? <==>
      a.currentMatch.matchType != Qualification && NamedOnce(ids, STATION_COUNT, table)
    ensures SubstituteTeams(settings, a, ids, table).Ok? ==>
      SubstituteTeams(settings, a, ids, table).arena.currentMatch.teams == ids
  {
    ValidLineup(ids, |ids|, table);
  }
}

/** Robot links over every run: a robot that counts as linked was lately reported so by its driver station, and a
    match starts only with such robots. */
module ArenaLinks {
  import opened Options
  import opened TeamNetwork
  import opened FieldEStop
  import opened ArenaState
  import opened ArenaSafety
  import opened ArenaStart
  import opened ArenaTiming
  import ArenaLineup

  predicate Linked(a: Arena, i: StationIndex) {
    a.stations[i].conn.Some? && a.stations[i].conn.value.robotLinked
  }

  /** A link at station i in b is one from a, with no packet received in between. */
  predicate LinkFrom(a: Arena, b: Arena, i: StationIndex) {
    Linked(b, i) ==>
      && Linked(a, i)
      && b.stations[i].conn.value.teamId == a.stations[i].conn.value.teamId
      && b.stations[i].conn.value.lastPacket == a.stations[i].conn.value.lastPacket
  }

  /** The last packet heard over the link is no older than this at the given instant. */
  predicate HeardWithin(a: Arena, i: StationIndex, now: int, time: int) {
    Linked(a, i) ==>
      a.stations[i].conn.value.lastPacket.Some? && now - a.stations[i].conn.value.lastPacket.value <= time
  }

  // ----- what one event does to a link

  lemma ReassignedLink(settings: Settings, s: Station, id: nat, table: TeamTable)
    ensures AssignTeam(settings, s, id, table).conn in {s.conn, None}
  {
  }

  lemma ClearedLink(settings: Settings, a: Arena, table: TeamTable, i: StationIndex)
    ensures LinkFrom(a, ClearMatch(settings, a, table), i)
  {
    ClearAt(settings, a, table, i);
    ReassignedLink(settings, a.stations[i], a.currentMatch.teams[i], table);
  }

  lemma TransitionLink(settings: Settings, a: Arena, now: int, inp: TickInputs, i: StationIndex)
    ensures LinkFrom(a, Advanced(settings, a, now, inp).arena, i)
  {
    if a.matchState == PostMatch && now - a.postMatchStart >= POST_MATCH_DELAY {
      ClearedLink(settings, a, inp.teamTable, i);
    } else {
      TransitionResetsNothing(settings, a, now, inp);
    }
  }

  lemma PollsLink(settings: Settings, a: Arena, poll: int, inp: TickInputs, i: StationIndex)
    ensures PollStops(settings, a, poll, inp).stations[i].conn == a.stations[i].conn
  {
    var b := PollFieldEStop(a, inp.pins, poll);
    FieldPollEffect(a, inp.pins, poll);
    assert OnlyStopFlags(a.stations[i], b.stations[i]);
    OtherPollsKeep(settings, a, poll, inp);
    assert OnlyStopFlags(b.stations[i], PollStops(settings, a, poll, inp).stations[i]);
  }

  lemma UpdateLink(settings: Settings, a: Arena, now: int, poll: int, inp: TickInputs, i: StationIndex)
    ensures var b := Update(settings, a, now, poll, inp);
      && LinkFrom(a, b, i)
      && (|| b.lastDsPacket == a.lastDsPacket
          || (b.lastDsPacket == Some(now) && (inp.failed[i] || HeardWithin(b, i, now, LINK_TIMEOUT))))
  {
    var adv := Advanced(settings, a, now, inp);
    TransitionLink(settings, a, now, inp, i);
    PollsLink(settings, AfterSending(adv, now, inp.failed), poll, inp, i);
    UpdateSends(settings, a, now, poll, inp);
  }

  lemma SubstitutedLink(settings: Settings, a: Arena, ids: seq<int>, table: TeamTable, i: StationIndex)
    requires |ids| == STATION_COUNT && SubstituteTeams(settings, a, ids, table).Ok?
    ensures LinkFrom(a, SubstituteTeams(settings, a, ids, table).arena, i)
  {
    ValidLineup(ids, |ids|, table);
    ReassignedLink(settings, a.stations[i], ids[i], table);
  }

  /** The event is the report of a linked robot by this team's driver station. */
  predicate Reports(e: Event, teamId: int) {
    e.action == Heard(teamId, true)
  }

  lemma DriverStationLink(settings: Settings, a: Arena, e: Event, i: StationIndex)
    requires ArenaLineup.ConnectionFits(a.stations[i])
    requires e.action.Connect? || e.action.Disconnect? || e.action.Heard?
    ensures var b := Step(settings, a, e);
      LinkFrom(a, b, i) ||
        (Linked(b, i) && Reports(e, b.stations[i].conn.value.teamId)
         && b.stations[i].conn.value.lastPacket == Some(e.at))
  {
    if e.action.Heard? {
      ArenaLineup.AssignedStationFinds(a, e.action.teamId, |a.stations|);
    }
  }

  lemma TogglesKeepConnection(settings: Settings, a: Arena, e: Event, i: StationIndex)
    requires e.action.ToggleBypass? || e.action.ToggleEStop? || e.action.BypassEmpty? || e.action.Reset?
    ensures Step(settings, a, e).stations[i].conn == a.stations[i].conn
  {
  }

  lemma OtherCommandsLink(settings: Settings, a: Arena, e: Event, i: StationIndex)
    requires !e.action.Tick? && !Reassigns(settings, a, e)
    requires !e.action.Connect? && !e.action.Disconnect? && !e.action.Heard?
    ensures Step(settings, a, e).stations[i].conn == a.stations[i].conn
  {
    match e.action
    case ClearFieldEStop(first, second) =>
    case ToggleBypass(_) => TogglesKeepConnection(settings, a, e, i);
    case ToggleEStop(_) => TogglesKeepConnection(settings, a, e, i);
    case BypassEmpty => TogglesKeepConnection(settings, a, e, i);
    case Reset => TogglesKeepConnection(settings, a, e, i);
    case _ =>
  }

  /** Nothing could be written to the station in this update. */
  predicate FailedTo(e: Event, i: StationIndex) {
    e.action.Tick? && e.action.inputs.failed[i]
  }

  /** What event e makes of a link when it turns a into b: it keeps it with the packet last heard over it, and drops
      it if it has been silent for a second when packets go out and can be written; and it makes one only on the
      report of a driver station. */
  predicate LinkChange(a: Arena, b: Arena, e: Event, i: StationIndex) {
    || (LinkFrom(a, b, i) && b.lastDsPacket == a.lastDsPacket)
    || (LinkFrom(a, b, i) && b.lastDsPacket == Some(e.at)
        && (FailedTo(e, i) || HeardWithin(b, i, e.at, 1_000_000_000)))
    || (Linked(b, i) && Reports(e, b.stations[i].conn.value.teamId) && b.lastDsPacket == a.lastDsPacket
        && b.stations[i].conn.value.lastPacket == Some(e.at))
  }

  lemma StepLink(settings: Settings, a: Arena, e: Event, i: StationIndex)
    requires ArenaLineup.ConnectionFits(a.stations[i])
    ensures LinkChange(a, Step(settings, a, e), e, i)
  {
    if !e.action.Tick? {
      CommandsSendNothing(settings, a, e);
    }
    match e.action
    case Tick(inp) => UpdateLink(settings, a, e.at, e.done, inp, i);
    case ClearCommand(table) => ClearedLink(settings, a, table, i);
    case ResetFieldCommand(table) =>
    case Substitute(ids, table) =>
      if Reassigns(settings, a, e) {
        SubstitutedLink(settings, a, ids, table, i);
      }
    case Connect(_, _) => DriverStationLink(settings, a, e, i);
    case Disconnect(_, _) => DriverStationLink(settings, a, e, i);
    case Heard(_, _) => DriverStationLink(settings, a, e, i);
    case _ => OtherCommandsLink(settings, a, e, i);
  }

  // ----- over runs

  /** A link at station i goes back to a driver station's report, event h. */
  predicate LinkReportedBy(a: Arena, events: seq<Event>, n: nat, i: StationIndex, h: nat)
    requires n <= |events| && Linked(a, i)
  {
    var c := a.stations[i].conn.value;
    h < n && Reports(events[h], c.teamId) && c.lastPacket == Some(events[h].at)
  }

  /** When packets were last sent, the link had been heard from within a second. */
  predicate FreshLink(a: Arena, i: StationIndex) {
    a.lastDsPacket.Some? ==> HeardWithin(a, i, a.lastDsPacket.value, LINK_TIMEOUT)
  }

  /** What event m does to a link. */
  predicate LinkStep(arenas: seq<Arena>, events: seq<Event>, m: nat, i: StationIndex)
    requires m < |events| && |arenas| == |events| + 1
  {
    && SentBy(arenas[m], events[m].at)
    && LinkChange(arenas[m], arenas[m + 1], events[m], i)
  }

  lemma {:induction false} LinkTraced(arenas: seq<Arena>, events: seq<Event>, n: nat, i: StationIndex)
    returns (h: nat)
    requires |arenas| == |events| + 1 && n <= |events| && Linked(arenas[n], i) && !Linked(arenas[0], i)
    requires forall m :: 0 <= m < |events| ==> LinkStep(arenas, events, m, i)
    ensures LinkReportedBy(arenas[n], events, n, i, h)
  {
    var m := n - 1;
    assert LinkStep(arenas, events, m, i);
    if LinkFrom(arenas[m], arenas[n], i) {
      h := LinkTraced(arenas, events, m, i);
    } else {
      h := m;
    }
  }

  /** In any run a robot that counts as linked was reported so by its own driver station, in the packet last heard
      from it. */
  lemma LinkWasReported(settings: Settings, arenas: seq<Arena>, events: seq<Event>, n: nat, i: StationIndex)
    returns (h: nat)
    requires Run(settings, arenas, events) && n <= |events| && Linked(arenas[n], i)
    ensures LinkReportedBy(arenas[n], events, n, i, h)
  {
    RunLinks(settings, arenas, events, i);
    h := LinkTraced(arenas, events, n, i);
  }

  lemma {:induction false} LinkKeptFresh(arenas: seq<Arena>, events: seq<Event>, k: nat, n: nat, i: StationIndex)
    requires |arenas| == |events| + 1 && k <= n <= |events| && FreshLink(arenas[k], i)
    requires forall m :: 0 <= m < |events| ==> LinkStep(arenas, events, m, i)
    requires forall m :: k <= m < n ==> !FailedTo(events[m], i)
    ensures FreshLink(arenas[n], i)
    decreases n - k
  {
    if k < n {
      LinkKeptFresh(arenas, events, k, n - 1, i);
      assert LinkStep(arenas, events, n - 1, i);
    }
  }

  lemma RunLinks(settings: Settings, arenas: seq<Arena>, events: seq<Event>, i: StationIndex)
    requires Run(settings, arenas, events)
    ensures forall m :: 0 <= m < |events| ==> LinkStep(arenas, events, m, i)
  {
    forall m: nat | m < |events| ensures LinkStep(arenas, events, m, i) {
      RunLink(settings, arenas, events, m, i);
    }
  }

  lemma RunLink(settings: Settings, arenas: seq<Arena>, events: seq<Event>, m: nat, i: StationIndex)
    requires Run(settings, arenas, events) && m < |events|
    ensures LinkStep(arenas, events, m, i)
  {
    ArenaLineup.LineupHolds(settings, arenas, events, m);
    assert ArenaLineup.ConnectionFits(arenas[m].stations[i]);
    StepLink(settings, arenas[m], events[m], i);
    assert arenas[m + 1] == Step(settings, arenas[m], events[m]);
    PacketsSentInThePast(settings, arenas, events, m, events[m].at);
  }

  /** While updates come at most d apart, packets go out at most 500 ms and one update gap apart. */
  lemma {:induction false} RecentlySent(
    settings: Settings, arenas: seq<Arena>, events: seq<Event>, k: nat, n: nat, last: int, d: int)
    requires Run(settings, arenas, events) && k <= n < |events| && TicksEvery(events, k, n, last, d)
    requires arenas[k].lastDsPacket.Some? && last <= arenas[k].lastDsPacket.value + PACKET_PERIOD
    ensures arenas[n].lastDsPacket.Some?
    ensures events[n].at <= arenas[n].lastDsPacket.value + 500_000_000 + d
    decreases n - k
  {
    if k < n {
      NextSend(settings, arenas, events, k, last);
      RecentlySent(settings, arenas, events, k + 1, n, LastTick(events[k], last), d);
    }
  }

  lemma NextSend(settings: Settings, arenas: seq<Arena>, events: seq<Event>, k: nat, last: int)
    requires Run(settings, arenas, events) && k < |events|
    requires arenas[k].lastDsPacket.Some? && last <= arenas[k].lastDsPacket.value + PACKET_PERIOD
    ensures arenas[k + 1].lastDsPacket.Some?
    ensures LastTick(events[k], last) <= arenas[k + 1].lastDsPacket.value + PACKET_PERIOD
  {
    var a, e := arenas[k], events[k];
    assert arenas[k + 1] == Step(settings, a, e);
    if e.action.Tick? {
      UpdateSends(settings, a, e.at, e.done, e.action.inputs);
      TransitionSendsNothing(settings, a, e.at, e.action.inputs);
    } else {
      CommandsSendNothing(settings, a, e);
    }
  }

  lemma SendingMakesFresh(settings: Settings, arenas: seq<Arena>, events: seq<Event>, k: nat, i: StationIndex)
    requires Run(settings, arenas, events) && k < |events| && Sends(settings, arenas, events, k)
    requires !FailedTo(events[k], i)
    ensures arenas[k + 1].lastDsPacket == Some(events[k].at) && FreshLink(arenas[k + 1], i)
  {
    var a, e := arenas[k], events[k];
    assert arenas[k + 1] == Step(settings, a, e);
    UpdateSends(settings, a, e.at, e.done, e.action.inputs);
    var adv := Advanced(settings, a, e.at, e.action.inputs);
    PollsLink(settings, AfterSending(adv, e.at, e.action.inputs.failed), e.done, e.action.inputs, i);
  }

  /** With updates at most d apart since one that sent packets, and every packet to the station written since, a match
      starts only if its robot, unless it is bypassed, was reported linked, by its own driver station, within the last
      1.5 s and one update gap. */
  lemma StartNeedsFreshLinks(
    settings: Settings, arenas: seq<Arena>, events: seq<Event>, k: nat, n: nat, d: int, plc: PlcInputs, i: StationIndex)
    returns (h: nat)
    requires Run(settings, arenas, events) && k < n < |events| && TicksEvery(events, k + 1, n, events[k].at, d)
    requires Sends(settings, arenas, events, k) && forall m :: k <= m < n ==> !FailedTo(events[m], i)
    requires events[n].action == Start(plc) && WhyNotStart(settings, arenas[n], plc).None?
    requires !arenas[n].stations[i].bypass
    ensures Linked(arenas[n], i) && LinkReportedBy(arenas[n], events, n, i, h)
    ensures events[n].at - events[h].at <= 1_500_000_000 + d
  {
    ReadyIsLinked(settings, arenas[n], plc, i);
    h := LinkWasReported(settings, arenas, events, n, i);
    FreshSinceSending(settings, arenas, events, k, n, i);
    SentSinceSending(settings, arenas, events, k, n, d);
  }

  lemma ReadyIsLinked(settings: Settings, a: Arena, plc: PlcInputs, i: StationIndex)
    requires WhyNotStart(settings, a, plc).None? && !a.stations[i].bypass
    ensures Linked(a, i)
  {
    StartsExactlyWhenReady(settings, a, plc);
    assert Ready(a.stations[i]);
  }

  lemma FreshSinceSending(
    settings: Settings, arenas: seq<Arena>, events: seq<Event>, k: nat, n: nat, i: StationIndex)
    requires Run(settings, arenas, events) && k < n <= |events|
    requires Sends(settings, arenas, events, k) && forall m :: k <= m < n ==> !FailedTo(events[m], i)
    ensures FreshLink(arenas[n], i)
  {
    SendingMakesFresh(settings, arenas, events, k, i);
    RunLinks(settings, arenas, events, i);
    LinkKeptFresh(arenas, events, k + 1, n, i);
  }

  lemma SentSinceSending(settings: Settings, arenas: seq<Arena>, events: seq<Event>, k: nat, n: nat, d: int)
    requires Run(settings, arenas, events) && k < n < |events| && TicksEvery(events, k + 1, n, events[k].at, d)
    requires Sends(settings, arenas, events, k)
    ensures arenas[n].lastDsPacket.Some?
    ensures events[n].at <= arenas[n].lastDsPacket.value + PACKET_PERIOD + d
  {
    var a, e := arenas[k], events[k];
    assert arenas[k + 1] == Step(settings, a, e);
    UpdateSends(settings, a, e.at, e.done, e.action.inputs);
    RecentlySent(settings, arenas, events, k + 1, n, e.at, d);
  }
}

/** What happens by when: how soon a stop reaches the robots, and how soon the field is ready for the next match,
    as long as updates keep coming. */
module ArenaTiming {
  import opened Options
  import opened TeamNetwork
  import opened FieldEStop
  import opened MatchTiming
  import opened ArenaState
  import opened ArenaSafety
  import opened ArenaLineup

  /** The instant of the last tick once e is over, if it was `last` before. */
  function LastTick(e: Event, last: int): int {
    if e.action.Tick? then e.at else last
  }

  /** With the last tick before event k at `last`, each of the events k to n is over within d of the tick before it:
      ticks come at most d apart. */
  predicate TicksEvery(events: seq<Event>, k: nat, n: nat, last: int, d: int)
    requires k <= n < |events|
    decreases n - k
  {
    events[k].done <= last + d && (k == n || TicksEvery(events, k + 1, n, LastTick(events[k], last), d))
  }

  /** Nothing before event k happened after t. */
  ghost predicate Past(events: seq<Event>, k: nat, t: int)
    requires k <= |events|
  {
    forall j :: 0 <= j < k ==> events[j].done <= t
  }

  // ----- how soon a stop reaches the robots

  predicate SentBy(a: Arena, t: int) {
    a.lastDsPacket.None? || a.lastDsPacket.value <= t
  }

  /** The same phase of the same match, and no packet sent in between. */
  predicate SameClock(a: Arena, b: Arena) {
    && b.matchState == a.matchState && b.matchStart == a.matchStart && b.postMatchStart == a.postMatchStart
    && b.lastDsPacket == a.lastDsPacket
  }

  lemma StationCommandsKeepClock(settings: Settings, a: Arena, e: Event)
    requires !e.action.Tick? && !e.action.Start? && !e.action.Abort?
    requires !e.action.Reset? && !e.action.ClearCommand? && !e.action.ResetFieldCommand?
    ensures SameClock(a, Step(settings, a, e))
  {
    match e.action
    case Connect(_, _) =>
    case Disconnect(_, _) =>
    case Heard(_, _) =>
    case ClearFieldEStop(first, second) =>
    case Substitute(_, _) =>
    case _ =>
  }

  lemma CommandsSendNothing(settings: Settings, a: Arena, e: Event)
    requires !e.action.Tick?
    ensures Step(settings, a, e).lastDsPacket == a.lastDsPacket
  {
    match e.action
    case ClearCommand(table) => ClearEffect(settings, a, table);
    case ResetFieldCommand(table) =>
    case Start(_) =>
    case Abort =>
    case Reset =>
    case _ => StationCommandsKeepClock(settings, a, e);
  }

  lemma UpdateSends(settings: Settings, a: Arena, now: int, poll: int, inp: TickInputs)
    ensures Update(settings, a, now, poll, inp).lastDsPacket ==
      if PacketsDue(Advanced(settings, a, now, inp), now) then Some(now) else a.lastDsPacket
  {
    var sent := AfterSending(Advanced(settings, a, now, inp), now, inp.failed);
    TransitionSendsNothing(settings, a, now, inp);
    FieldPollEffect(sent, inp.pins, poll);
    OtherPollsKeep(settings, sent, poll, inp);
  }

  lemma TransitionSendsNothing(settings: Settings, a: Arena, now: int, inp: TickInputs)
    ensures Advanced(settings, a, now, inp).arena.lastDsPacket == a.lastDsPacket
  {
  }

  lemma {:induction false} PacketsSentInThePast(
    settings: Settings, arenas: seq<Arena>, events: seq<Event>, n: nat, t: int)
    requires Run(settings, arenas, events) && n <= |events| && Past(events, n, t)
    ensures SentBy(arenas[n], t)
  {
    if n > 0 {
      var m := n - 1;
      var a, e := arenas[m], events[m];
      PacketsSentInThePast(settings, arenas, events, m, t);
      assert arenas[n] == Step(settings, a, e);
      assert e.at <= e.done <= t;
      if e.action.Tick? {
        UpdateSends(settings, a, e.at, e.done, e.action.inputs);
      } else {
        CommandsSendNothing(settings, a, e);
      }
    }
  }

  /** Event j is a tick that sends a packet to every connected station. */
  predicate Sends(settings: Settings, arenas: seq<Arena>, events: seq<Event>, j: nat)
    requires j < |events| && |arenas| == |events| + 1
  {
    events[j].action.Tick? &&
      PacketsDue(Advanced(settings, arenas[j], events[j].at, events[j].action.inputs), events[j].at)
  }

  lemma {:induction false} SendingTick(
    settings: Settings, arenas: seq<Arena>, events: seq<Event>, k: nat, n: nat, last: int, t: int, d: int)
    returns (j: nat)
    requires Run(settings, arenas, events) && k <= n < |events| && TicksEvery(events, k, n, last, d)
    requires SentBy(arenas[k], t) && last <= t + PACKET_PERIOD
    requires events[n].at > t + PACKET_PERIOD + d
    ensures k <= j < n && Sends(settings, arenas, events, j) && events[j].at <= t + PACKET_PERIOD + d
    decreases n - k
  {
    if Sends(settings, arenas, events, k) {
      j := k;
    } else {
      NothingSent(settings, arenas, events, k, t);
      j := SendingTick(settings, arenas, events, k + 1, n, LastTick(events[k], last), t, d);
    }
  }

  lemma NothingSent(settings: Settings, arenas: seq<Arena>, events: seq<Event>, m: nat, t: int)
    requires Run(settings, arenas, events) && m < |events| && SentBy(arenas[m], t)
    requires !Sends(settings, arenas, events, m)
    ensures SentBy(arenas[m + 1], t)
    ensures events[m].action.Tick? ==> events[m].at <= t + PACKET_PERIOD
  {
    var a, e := arenas[m], events[m];
    assert arenas[m + 1] == Step(settings, a, e);
    if e.action.Tick? {
      UpdateSends(settings, a, e.at, e.done, e.action.inputs);
      NotDueYet(settings, a, e.at, e.action.inputs, t);
    } else {
      CommandsSendNothing(settings, a, e);
    }
  }

  lemma NotDueYet(settings: Settings, a: Arena, now: int, inp: TickInputs, t: int)
    requires SentBy(a, t) && !PacketsDue(Advanced(settings, a, now, inp), now)
    ensures now <= t + PACKET_PERIOD
  {
  }

  /** Within 500 ms and one tick of any instant t, a tick sends every connected driver station a packet that shows
      the station as it then is: a robot e-stopped, bypassed, or left without a match is disabled by it. */
  lemma StopReachesRobotInTime(
    settings: Settings, arenas: seq<Arena>, events: seq<Event>, k: nat, n: nat, t: int, d: int)
    returns (j: nat)
    requires Run(settings, arenas, events) && k <= n < |events| && Past(events, k, t)
    requires TicksEvery(events, k, n, t, d) && events[n].at > t + PACKET_PERIOD + d
    ensures k <= j < n && events[j].action.Tick? && events[j].at <= t + 500_000_000 + d
    ensures forall i: StationIndex :: arenas[j].stations[i].conn.Some? ==>
      ReachedAsHeld(settings, arenas[j], events[j].at, events[j].action.inputs, i)
  {
    PacketsSentInThePast(settings, arenas, events, k, t);
    j := SendingTick(settings, arenas, events, k, n, t, t, d);
    LineupHolds(settings, arenas, events, j);
    forall i: StationIndex | arenas[j].stations[i].conn.Some?
      ensures ReachedAsHeld(settings, arenas[j], events[j].at, events[j].action.inputs, i)
    {
      ConnectedAreReached(settings, arenas[j], events[j].at, events[j].action.inputs, i);
    }
  }

  /** A packet goes to the station, and what it says is what is in force there. */
  predicate ReachedAsHeld(settings: Settings, a: Arena, now: int, inp: TickInputs, i: StationIndex) {
    var p, s := PacketTo(settings, a, now, inp, i), a.stations[i];
    && p.Some?
    && p.value.eStop == s.eStop && p.value.aStop == s.aStop
    && (s.eStop || s.bypass || !InProgress(a.matchState) ==> !p.value.enabled)
  }

  lemma ConnectedAreReached(settings: Settings, a: Arena, now: int, inp: TickInputs, i: StationIndex)
    requires LineupInvariant(settings, a) && a.stations[i].conn.Some?
    requires PacketsDue(Advanced(settings, a, now, inp), now)
    ensures ReachedAsHeld(settings, a, now, inp, i)
  {
    TransitionKeepsConnected(settings, a, now, inp, i);
    TransitionFlags(settings, a, now, inp, i);
    EnabledExactlyWhen(settings, a, now, inp, i);
    if !InProgress(a.matchState) {
    }
  }

  lemma TransitionKeepsConnected(settings: Settings, a: Arena, now: int, inp: TickInputs, i: StationIndex)
    requires LineupInvariant(settings, a)
    ensures Advanced(settings, a, now, inp).arena.stations[i].conn == a.stations[i].conn
  {
    if a.matchState == PostMatch && now - a.postMatchStart >= POST_MATCH_DELAY {
      ClearStays(settings, a, inp.teamTable, i);
    } else {
      TransitionStays(settings, a, now, inp);
    }
  }

  // ----- a stop in force reaches the robot

  /** The stop that matters to a robot is in force: the station's own, or no match is in progress. */
  predicate StopInForce(a: Arena, i: StationIndex) {
    a.stations[i].eStop || !InProgress(a.matchState)
  }

  /** A match starts with this event. */
  predicate StartsMatch(settings: Settings, a: Arena, e: Event) {
    e.action.Start? && WhyNotStart(settings, a, e.action.plc).None?
  }

  predicate NoMatchStarts(settings: Settings, arenas: seq<Arena>, events: seq<Event>, k: nat, n: nat)
    requires n <= |events| && |arenas| == |events| + 1
  {
    forall m :: k <= m < n ==> !StartsMatch(settings, arenas[m], events[m])
  }

  /** A running match started before the event. */
  predicate StartedBefore(a: Arena, t: int) {
    Running(a.matchState) ==> a.matchStart <= t
  }

  lemma StartingTransition(settings: Settings, a: Arena, now: int, inp: TickInputs)
    ensures var b := Advanced(settings, a, now, inp).arena;
      && (a.matchState == StartMatch ==> b.stations == a.stations && Running(b.matchState) && b.matchStart == now)
      && (!InProgress(a.matchState) ==> !InProgress(b.matchState))
      && (Running(b.matchState) ==> b.matchStart == now || (Running(a.matchState) && b.matchStart == a.matchStart))
  {
  }

  lemma UpdateKeepsStop(settings: Settings, a: Arena, now: int, poll: int, inp: TickInputs, i: StationIndex)
    requires StopInForce(a, i) && StartedBefore(a, now) && now < poll
    ensures StopInForce(Update(settings, a, now, poll, inp), i)
  {
    var adv := Advanced(settings, a, now, inp);
    var sent := AfterSending(adv, now, inp.failed);
    StartingTransition(settings, a, now, inp);
    SendingKeepsStation(adv, now, inp.failed, i);
    PollsKeepMatch(settings, sent, poll, inp);
    if InProgress(a.matchState) {
      if Running(a.matchState) {
        RunningTransition(settings, a, now, inp);
      }
      if InProgress(Update(settings, a, now, poll, inp).matchState) {
        PollsKeepStops(settings, sent, poll, inp, i);
      }
    }
  }

  lemma QuietCommandsStayQuiet(settings: Settings, a: Arena, e: Event)
    requires !InProgress(a.matchState) && !e.action.Tick? && !StartsMatch(settings, a, e)
    ensures !InProgress(Step(settings, a, e).matchState)
  {
    match e.action
    case ClearCommand(table) => ClearEffect(settings, a, table);
    case ResetFieldCommand(_) =>
    case Start(_) =>
    case Abort =>
    case Reset =>
    case _ => StationCommandsKeepClock(settings, a, e);
  }

  lemma StepKeepsStop(settings: Settings, a: Arena, e: Event, i: StationIndex)
    requires StopInForce(a, i) && StartedBefore(a, e.at) && e.at < e.done
    requires !OperatorUnstops(e, i) && !StartsMatch(settings, a, e)
    ensures StopInForce(Step(settings, a, e), i)
  {
    if e.action.Tick? {
      UpdateKeepsStop(settings, a, e.at, e.done, e.action.inputs, i);
    } else if InProgress(a.matchState) {
      CommandMidMatch(settings, a, e);
    } else {
      QuietCommandsStayQuiet(settings, a, e);
    }
  }

  lemma UpdateStartedBefore(settings: Settings, a: Arena, now: int, poll: int, inp: TickInputs)
    requires StartedBefore(a, now)
    ensures StartedBefore(Update(settings, a, now, poll, inp), now)
  {
    var adv := Advanced(settings, a, now, inp);
    StartingTransition(settings, a, now, inp);
    SendingKeepsClock(adv, now, inp.failed);
    PollsKeepMatch(settings, AfterSending(adv, now, inp.failed), poll, inp);
  }

  lemma CommandStartedBefore(settings: Settings, a: Arena, e: Event)
    requires StartedBefore(a, e.at) && !e.action.Tick?
    ensures StartedBefore(Step(settings, a, e), e.at)
  {
    if InProgress(a.matchState) {
      CommandMidMatch(settings, a, e);
    } else if !StartsMatch(settings, a, e) {
      QuietCommandsStayQuiet(settings, a, e);
    }
  }

  lemma StepStartedBefore(settings: Settings, a: Arena, e: Event)
    requires StartedBefore(a, e.at)
    ensures StartedBefore(Step(settings, a, e), e.at)
  {
    if e.action.Tick? {
      UpdateStartedBefore(settings, a, e.at, e.done, e.action.inputs);
    } else {
      CommandStartedBefore(settings, a, e);
    }
  }

  lemma {:induction false} MatchStartedInThePast(
    settings: Settings, arenas: seq<Arena>, events: seq<Event>, n: nat, t: int)
    requires Run(settings, arenas, events) && n <= |events| && Past(events, n, t)
    ensures StartedBefore(arenas[n], t)
  {
    if n > 0 {
      var m := n - 1;
      var a, e := arenas[m], events[m];
      MatchStartedInThePast(settings, arenas, events, m, e.at);
      assert arenas[n] == Step(settings, a, e);
      StepStartedBefore(settings, a, e);
    }
  }

  /** Events k to n: none starts a match, none is an operator's taking back of the station's e-stop, and each takes
      some time. */
  ghost predicate StopUndisturbed(
    settings: Settings, arenas: seq<Arena>, events: seq<Event>, k: nat, n: nat, i: StationIndex)
    requires n <= |events| && |arenas| == |events| + 1
  {
    forall m :: k <= m < n ==>
      !OperatorUnstops(events[m], i) && !StartsMatch(settings, arenas[m], events[m]) && events[m].at < events[m].done
  }

  lemma {:induction false} StopStaysInForce(
    settings: Settings, arenas: seq<Arena>, events: seq<Event>, i: StationIndex, k: nat, n: nat)
    requires Run(settings, arenas, events) && k <= n <= |events| && StopInForce(arenas[k], i)
    requires StopUndisturbed(settings, arenas, events, k, n, i)
    ensures StopInForce(arenas[n], i)
    decreases n - k
  {
    if k < n {
      var m := n - 1;
      StopStaysInForce(settings, arenas, events, i, k, m);
      MatchStartedInThePast(settings, arenas, events, m, events[m].at);
      assert arenas[n] == Step(settings, arenas[m], events[m]);
      StepKeepsStop(settings, arenas[m], events[m], i);
    }
  }

  /** A stop reaches its robot: from any instant t at which a station is e-stopped or no match is in progress, with
      no match started and no operator taking the stop back, the station's driver station is sent a packet that
      disables the robot within 500 ms and one tick. */
  lemma StopInForceReachesRobotInTime(
    settings: Settings, arenas: seq<Arena>, events: seq<Event>, i: StationIndex, k: nat, n: nat, t: int, d: int)
    returns (j: nat)
    requires Run(settings, arenas, events) && k <= n < |events| && Past(events, k, t)
    requires TicksEvery(events, k, n, t, d) && events[n].at > t + PACKET_PERIOD + d
    requires StopInForce(arenas[k], i) && StopUndisturbed(settings, arenas, events, k, n, i)
    ensures k <= j < n && events[j].action.Tick? && events[j].at <= t + 500_000_000 + d
    ensures arenas[j].stations[i].conn.Some? ==>
      var p := PacketTo(settings, arenas[j], events[j].at, events[j].action.inputs, i);
      p.Some? && !p.value.enabled
  {
    j := StopReachesRobotInTime(settings, arenas, events, k, n, t, d);
    StopStaysInForce(settings, arenas, events, i, k, j);
    if arenas[j].stations[i].conn.Some? {
      assert ReachedAsHeld(settings, arenas[j], events[j].at, events[j].action.inputs, i);
    }
  }

  /** An operator may lift a station's bypass with this event. */
  predicate OperatorLifts(e: Event, i: StationIndex) {
    e.action == ToggleBypass(i) || e.action.Reset? || e.action.ResetFieldCommand?
  }

  lemma UpdateKeepsBypass(settings: Settings, a: Arena, now: int, poll: int, inp: TickInputs, i: StationIndex)
    ensures Update(settings, a, now, poll, inp).stations[i].bypass == a.stations[i].bypass
  {
    var adv := Advanced(settings, a, now, inp);
    var sent := AfterSending(adv, now, inp.failed);
    TransitionFlags(settings, a, now, inp, i);
    SendingKeepsStation(adv, now, inp.failed, i);
    FieldPollEffect(sent, inp.pins, poll);
    OtherPollsKeep(settings, sent, poll, inp);
  }

  lemma DriverStationsKeepBypass(settings: Settings, a: Arena, e: Event, i: StationIndex)
    requires e.action.Connect? || e.action.Disconnect? || e.action.Heard?
    ensures Step(settings, a, e).stations[i].bypass == a.stations[i].bypass
  {
  }

  lemma SubstitutionKeepsBypass(settings: Settings, a: Arena, ids: seq<int>, table: TeamTable, i: StationIndex)
    requires |ids| == STATION_COUNT && SubstituteTeams(settings, a, ids, table).Ok?
    ensures SubstituteTeams(settings, a, ids, table).arena.stations[i].bypass == a.stations[i].bypass
  {
    ValidLineup(ids, |ids|, table);
    AssignAllKeepsFlags(settings, a, ids, table);
  }

  lemma CommandKeepsBypass(settings: Settings, a: Arena, e: Event, i: StationIndex)
    requires a.stations[i].bypass && !e.action.Tick? && !OperatorLifts(e, i)
    ensures Step(settings, a, e).stations[i].bypass
  {
    match e.action
    case ClearCommand(table) => ClearKeepsFlags(settings, a, table, i);
    case Substitute(ids, table) =>
      if |ids| == STATION_COUNT && SubstituteTeams(settings, a, ids, table).Ok? {
        SubstitutionKeepsBypass(settings, a, ids, table, i);
      }
    case Connect(_, _) => DriverStationsKeepBypass(settings, a, e, i);
    case Disconnect(_, _) => DriverStationsKeepBypass(settings, a, e, i);
    case Heard(_, _) => DriverStationsKeepBypass(settings, a, e, i);
    case ClearFieldEStop(first, second) => ClearFieldEStopKeepsBypass(a, first, second, e.at, e.done, i);
    case _ =>
  }

  lemma ClearFieldEStopKeepsBypass(a: Arena, first: Pins, second: Pins, at: int, done: int, i: StationIndex)
    ensures ClearFieldEStopCommand(a, first, second, at, done).stations[i].bypass == a.stations[i].bypass
  {
  }

  /** Only an operator lifts a bypass: no update does, nor the clear after a match, nor another team at the station. */
  lemma StepKeepsBypass(settings: Settings, a: Arena, e: Event, i: StationIndex)
    requires a.stations[i].bypass && !OperatorLifts(e, i)
    ensures Step(settings, a, e).stations[i].bypass
  {
    if e.action.Tick? {
      UpdateKeepsBypass(settings, a, e.at, e.done, e.action.inputs, i);
    } else {
      CommandKeepsBypass(settings, a, e, i);
    }
  }

  lemma {:induction false} BypassHeld(
    settings: Settings, arenas: seq<Arena>, events: seq<Event>, i: StationIndex, k: nat, n: nat)
    requires Run(settings, arenas, events) && k <= n <= |events| && arenas[k].stations[i].bypass
    requires forall m :: k <= m < n ==> !OperatorLifts(events[m], i)
    ensures arenas[n].stations[i].bypass
    decreases n - k
  {
    if k < n {
      var m := n - 1;
      BypassHeld(settings, arenas, events, i, k, m);
      assert arenas[n] == Step(settings, arenas[m], events[m]);
      StepKeepsBypass(settings, arenas[m], events[m], i);
    }
  }

  /** A bypass reaches its robot as a stop does, through the start and the end of any match: until an operator lifts
      it, the station's driver station is sent a packet that disables the robot within 500 ms and one tick. */
  lemma BypassReachesRobotInTime(
    settings: Settings, arenas: seq<Arena>, events: seq<Event>, i: StationIndex, k: nat, n: nat, t: int, d: int)
    returns (j: nat)
    requires Run(settings, arenas, events) && k <= n < |events| && Past(events, k, t)
    requires TicksEvery(events, k, n, t, d) && events[n].at > t + PACKET_PERIOD + d
    requires arenas[k].stations[i].bypass && forall m :: k <= m < n ==> !OperatorLifts(events[m], i)
    ensures k <= j < n && events[j].action.Tick? && events[j].at <= t + 500_000_000 + d
    ensures arenas[j].stations[i].conn.Some? ==>
      var p := PacketTo(settings, arenas[j], events[j].at, events[j].action.inputs, i);
      p.Some? && !p.value.enabled
  {
    j := StopReachesRobotInTime(settings, arenas, events, k, n, t, d);
    BypassHeld(settings, arenas, events, i, k, j);
    if arenas[j].stations[i].conn.Some? {
      assert ReachedAsHeld(settings, arenas[j], events[j].at, events[j].action.inputs, i);
    }
  }

  /** The a-stop is in force: AUTO is running with the station a-stopped, or it is over. */
  predicate AutoStopInForce(a: Arena, i: StationIndex) {
    match a.matchState
    case AutoPeriod => a.stations[i].aStop
    case StartMatch | WarmupPeriod => false
    case _ => true
  }

  lemma AutoTransition(settings: Settings, a: Arena, now: int, inp: TickInputs)
    ensures var s := Advanced(settings, a, now, inp).arena.matchState;
      && s != StartMatch
      && (s == WarmupPeriod ==> a.matchState in {StartMatch, WarmupPeriod})
      && (s == AutoPeriod ==> a.matchState in {StartMatch, WarmupPeriod, AutoPeriod})
  {
  }

  /** An update neither goes back to AUTO nor ahead of it. */
  lemma AutoUpdate(settings: Settings, a: Arena, now: int, poll: int, inp: TickInputs)
    ensures var s := Update(settings, a, now, poll, inp).matchState;
      && s != StartMatch
      && (s == WarmupPeriod ==> a.matchState in {StartMatch, WarmupPeriod})
      && (s == AutoPeriod ==> a.matchState in {StartMatch, WarmupPeriod, AutoPeriod})
  {
    var adv := Advanced(settings, a, now, inp);
    AutoTransition(settings, a, now, inp);
    SendingKeepsClock(adv, now, inp.failed);
    PollsKeepMatch(settings, AfterSending(adv, now, inp.failed), poll, inp);
  }

  lemma StepKeepsAutoStop(settings: Settings, a: Arena, e: Event, i: StationIndex)
    requires AutoStopInForce(a, i) && !StartsMatch(settings, a, e)
    ensures AutoStopInForce(Step(settings, a, e), i)
  {
    if a.matchState == AutoPeriod {
      if Step(settings, a, e).matchState == AutoPeriod {
        AutoKeepsAStop(settings, a, e, i);
      } else if e.action.Tick? {
        AutoUpdate(settings, a, e.at, e.done, e.action.inputs);
      } else {
        CommandMidMatch(settings, a, e);
      }
    } else if e.action.Tick? {
      AutoUpdate(settings, a, e.at, e.done, e.action.inputs);
    } else if InProgress(a.matchState) {
      CommandMidMatch(settings, a, e);
    } else {
      QuietCommandsStayQuiet(settings, a, e);
    }
  }

  lemma {:induction false} AutoStopStaysInForce(
    settings: Settings, arenas: seq<Arena>, events: seq<Event>, i: StationIndex, k: nat, n: nat)
    requires Run(settings, arenas, events) && k <= n <= |events| && AutoStopInForce(arenas[k], i)
    requires NoMatchStarts(settings, arenas, events, k, n)
    ensures AutoStopInForce(arenas[n], i)
    decreases n - k
  {
    if k < n {
      var m := n - 1;
      AutoStopStaysInForce(settings, arenas, events, i, k, m);
      assert arenas[n] == Step(settings, arenas[m], events[m]);
      StepKeepsAutoStop(settings, arenas[m], events[m], i);
    }
  }

  /** The update sends the station a packet that does not enable its robot, or announces teleop. */
  predicate StopsUntilTeleop(settings: Settings, a: Arena, now: int, inp: TickInputs, i: StationIndex) {
    var p := PacketTo(settings, a, now, inp, i);
    p.Some? && (p.value.enabled ==> Advanced(settings, a, now, inp).arena.matchState == TeleopPeriod)
  }

  lemma AutoStopStaysUntilSent(
    settings: Settings, arenas: seq<Arena>, events: seq<Event>, i: StationIndex, k: nat, n: nat, t: int, d: int)
    returns (j: nat)
    requires Run(settings, arenas, events) && k <= n < |events| && Past(events, k, t)
    requires TicksEvery(events, k, n, t, d) && events[n].at > t + PACKET_PERIOD + d
    requires AutoStopInForce(arenas[k], i) && NoMatchStarts(settings, arenas, events, k, n)
    ensures k <= j < n && events[j].action.Tick? && events[j].at <= t + PACKET_PERIOD + d
    ensures arenas[j].stations[i].conn.Some? ==>
      StopsUntilTeleop(settings, arenas[j], events[j].at, events[j].action.inputs, i)
  {
    j := StopReachesRobotInTime(settings, arenas, events, k, n, t, d);
    AutoStopStaysInForce(settings, arenas, events, i, k, j);
    if arenas[j].stations[i].conn.Some? {
      var inp := events[j].action.inputs;
      assert ReachedAsHeld(settings, arenas[j], events[j].at, inp, i);
      EnabledExactlyWhen(settings, arenas[j], events[j].at, inp, i);
      AutoTransition(settings, arenas[j], events[j].at, inp);
    }
  }

  /** An a-stop in force in AUTO reaches its robot within 500 ms and one tick, whatever readings and operators do,
      unless another match is started: what it is then sent does not enable it, or announces teleop. */
  lemma AutoStopReachesRobotInTime(
    settings: Settings, arenas: seq<Arena>, events: seq<Event>, i: StationIndex, k: nat, n: nat, t: int, d: int)
    returns (j: nat)
    requires Run(settings, arenas, events) && k <= n < |events| && Past(events, k, t)
    requires TicksEvery(events, k, n, t, d) && events[n].at > t + PACKET_PERIOD + d
    requires arenas[k].matchState == AutoPeriod && arenas[k].stations[i].aStop
    requires NoMatchStarts(settings, arenas, events, k, n)
    ensures k <= j < n && events[j].action.Tick? && events[j].at <= t + 500_000_000 + d
    ensures arenas[j].stations[i].conn.Some? ==>
      StopsUntilTeleop(settings, arenas[j], events[j].at, events[j].action.inputs, i)
  {
    j := AutoStopStaysUntilSent(settings, arenas, events, i, k, n, t, d);
  }

  // ----- how soon the field is ready again

  /** When the last tick of a match phase happens at the latest, counted from the match start. */
  function PhaseEnd(settings: Settings, s: MatchState, d: int): int
    requires Running(s)
  {
    match s
    case WarmupPeriod => settings.timing.warmup * SECOND
    case AutoPeriod => AutoEnd(settings.timing) + d
    case PausePeriod => TeleopStart(settings.timing) + 2 * d
    case TeleopPeriod => TeleopEnd(settings.timing) + 3 * d
  }

  /** With a match started at t0 and the last tick at `last`, the match is no further behind than one tick a phase. */
  predicate OnSchedule(settings: Settings, a: Arena, last: int, t0: int, d: int) {
    var ended := t0 + TeleopEnd(settings.timing) + 5 * d;
    match a.matchState
    case PreMatch => true
    case StartMatch => last <= t0
    case PostMatch => a.postMatchStart <= ended && last <= ended + POST_MATCH_DELAY
    case _ => a.matchStart <= t0 + d && last <= a.matchStart + PhaseEnd(settings, a.matchState, d)
  }

  lemma TransitionOnSchedule(settings: Settings, a: Arena, now: int, inp: TickInputs, last: int, t0: int, d: int)
    requires OnSchedule(settings, a, last, t0, d) && a.matchState != PreMatch && last <= now <= last + d
    ensures OnSchedule(settings, Advanced(settings, a, now, inp).arena, now, t0, d)
  {
    match a.matchState
    case PostMatch => ClearEffect(settings, a, inp.teamTable);
    case StartMatch => StartOnSchedule(settings, a, now, inp, last, t0, d);
    case _ =>
  }

  lemma StartOnSchedule(settings: Settings, a: Arena, now: int, inp: TickInputs, last: int, t0: int, d: int)
    requires OnSchedule(settings, a, last, t0, d) && a.matchState == StartMatch && last <= now <= last + d
    ensures OnSchedule(settings, Advanced(settings, a, now, inp).arena, now, t0, d)
  {
  }

  lemma PollsKeepClock(settings: Settings, a: Arena, poll: int, inp: TickInputs)
    ensures var b := PollStops(settings, a, poll, inp);
      || (b.matchState == a.matchState && b.matchStart == a.matchStart && b.postMatchStart == a.postMatchStart)
      || (InProgress(a.matchState) && b.matchState == PostMatch && b.postMatchStart == poll)
  {
    FieldPollEffect(a, inp.pins, poll);
    OtherPollsKeep(settings, a, poll, inp);
  }

  lemma SendingKeepsClock(adv: Advance, now: int, failed: SixFlags)
    ensures var b := AfterSending(adv, now, failed);
      && b.matchState == adv.arena.matchState && b.matchStart == adv.arena.matchStart
      && b.postMatchStart == adv.arena.postMatchStart
  {
  }

  lemma UpdateOnSchedule(
    settings: Settings, a: Arena, now: int, poll: int, inp: TickInputs, last: int, t0: int, d: int)
    requires OnSchedule(settings, a, last, t0, d) && a.matchState != PreMatch && last <= now <= poll <= last + d
    ensures OnSchedule(settings, Update(settings, a, now, poll, inp), now, t0, d)
  {
    var adv := Advanced(settings, a, now, inp);
    var sent := AfterSending(adv, now, inp.failed);
    TransitionOnSchedule(settings, a, now, inp, last, t0, d);
    SendingKeepsClock(adv, now, inp.failed);
    PollsKeepClock(settings, sent, poll, inp);
    var b := Update(settings, a, now, poll, inp);
    if InProgress(sent.matchState) && b.matchState == PostMatch && b.postMatchStart == poll {
    }
  }

  lemma CommandOnSchedule(settings: Settings, a: Arena, e: Event, last: int, t0: int, d: int)
    requires OnSchedule(settings, a, last, t0, d) && a.matchState != PreMatch && last <= e.at <= last + d
    requires !e.action.Tick?
    ensures OnSchedule(settings, Step(settings, a, e), last, t0, d)
  {
    CommandKeepsClock(settings, a, e);
    var b := Step(settings, a, e);
    if InProgress(a.matchState) && b.matchState == PostMatch && b.postMatchStart == e.at {
    }
  }

  lemma CommandKeepsClock(settings: Settings, a: Arena, e: Event)
    requires a.matchState != PreMatch && !e.action.Tick?
    ensures var b := Step(settings, a, e);
      || b.matchState == PreMatch
      || SameClock(a, b)
      || (InProgress(a.matchState) && b.matchState == PostMatch && b.postMatchStart == e.at)
  {
    match e.action
    case ClearCommand(table) => ClearEffect(settings, a, table);
    case Start(_) =>
    case Abort =>
    case Reset =>
    case ResetFieldCommand(_) =>
    case _ => StationCommandsKeepClock(settings, a, e);
  }

  lemma StepOnSchedule(settings: Settings, a: Arena, e: Event, last: int, t0: int, d: int)
    requires OnSchedule(settings, a, last, t0, d) && a.matchState != PreMatch
    requires last <= e.at <= e.done <= last + d
    ensures OnSchedule(settings, Step(settings, a, e), LastTick(e, last), t0, d)
  {
    if e.action.Tick? {
      UpdateOnSchedule(settings, a, e.at, e.done, e.action.inputs, last, t0, d);
    } else {
      CommandOnSchedule(settings, a, e, last, t0, d);
    }
  }

  lemma {:induction false} FieldSettles(
    settings: Settings, arenas: seq<Arena>, events: seq<Event>, k: nat, n: nat, last: int, t0: int, d: int)
    returns (j: nat)
    requires Run(settings, arenas, events) && k <= n < |events| && TicksEvery(events, k, n, last, d)
    requires OnSchedule(settings, arenas[k], last, t0, d) && last <= events[k].at
    requires events[n].at > t0 + TeleopEnd(settings.timing) + POST_MATCH_DELAY + 6 * d
    ensures k <= j <= n && arenas[j].matchState == PreMatch
    decreases n - k
  {
    if arenas[k].matchState == PreMatch {
      j := k;
    } else if k == n {
      assert false;
    } else {
      RunOnSchedule(settings, arenas, events, k, last, t0, d);
      j := FieldSettles(settings, arenas, events, k + 1, n, LastTick(events[k], last), t0, d);
    }
  }

  lemma RunOnSchedule(
    settings: Settings, arenas: seq<Arena>, events: seq<Event>, k: nat, last: int, t0: int, d: int)
    requires Run(settings, arenas, events) && k < |events| && arenas[k].matchState != PreMatch
    requires OnSchedule(settings, arenas[k], last, t0, d) && last <= events[k].at && events[k].done <= last + d
    ensures OnSchedule(settings, arenas[k + 1], LastTick(events[k], last), t0, d)
  {
    assert events[k].at <= events[k].done;
    StepOnSchedule(settings, arenas[k], events[k], last, t0, d);
    assert arenas[k + 1] == Step(settings, arenas[k], events[k]);
  }

  /** Every match that starts, aborted or not and whatever the operators do meanwhile, is back in PreMatch within
      its scheduled length plus the five seconds after a match and six tick gaps. */
  lemma EveryMatchReturnsToPreMatch(
    settings: Settings, arenas: seq<Arena>, events: seq<Event>, k: nat, n: nat, t0: int, d: int)
    returns (j: nat)
    requires Run(settings, arenas, events) && k <= n < |events| && arenas[k].matchState == StartMatch
    requires t0 <= events[k].at && TicksEvery(events, k, n, t0, d)
    requires events[n].at > t0 + TeleopEnd(settings.timing) + 5_000_000_000 + 6 * d
    ensures k < j <= n && arenas[j].matchState == PreMatch
  {
    j := FieldSettles(settings, arenas, events, k, n, t0, t0, d);
  }
}

/** How long the periods of a match last, and what robots are told of them. */
module ArenaPeriods {
  import opened Options
  import opened TeamNetwork
  import opened FieldEStop
  import opened MatchTiming
  import opened ArenaState
  import opened ArenaSafety
  import opened ArenaTiming

  const NANOS := 1_000_000_000

  /** When a period of a match is over, in seconds from the match start. */
  function OverAfter(settings: Settings, s: MatchState): nat
    requires Running(s)
  {
    var t := settings.timing;
    match s
    case WarmupPeriod => t.warmup
    case AutoPeriod => t.warmup + t.auto
    case PausePeriod => t.warmup + t.auto + t.pause
    case TeleopPeriod => t.warmup + t.auto + t.pause + t.teleop
  }

  /** What follows it. */
  function Following(settings: Settings, s: MatchState): MatchState
    requires Running(s)
  {
    match s
    case WarmupPeriod => AutoPeriod
    case AutoPeriod => if settings.timing.pause > 0 then PausePeriod else TeleopPeriod
    case PausePeriod => TeleopPeriod
    case TeleopPeriod => PostMatch
  }

  /** A period is left by the first transition at or after its end, and by none before. */
  lemma PeriodLasts(settings: Settings, a: Arena, now: int, inp: TickInputs)
    requires Running(a.matchState)
    ensures Advanced(settings, a, now, inp).arena.matchState ==
      if now - a.matchStart >= OverAfter(settings, a.matchState) * NANOS then Following(settings, a.matchState)
      else a.matchState
  {
  }

  /** A match begins with the transition after its start, with warmup or without. */
  lemma MatchBegins(settings: Settings, a: Arena, now: int, inp: TickInputs)
    requires a.matchState == StartMatch
    ensures var b := Advanced(settings, a, now, inp).arena;
      b.matchStart == now && b.matchState == if settings.timing.warmup > 0 then WarmupPeriod else AutoPeriod
  {
  }

  // ----- the periods of a match, one after another

  /** The period the event's transition leaves the match in. */
  function PeriodAfter(settings: Settings, a: Arena, e: Event): MatchState {
    if e.action.Tick? then Advanced(settings, a, e.at, e.action.inputs).arena.matchState else a.matchState
  }

  predicate Aborted(a: Arena) {
    a.matchState == PostMatch && a.matchAborted
  }

  /** Nothing has happened to the match, or it has been aborted. */
  predicate GoesOn(a: Arena, b: Arena) {
    Aborted(b) || (b.matchState == a.matchState && b.matchStart == a.matchStart && b.matchAborted == a.matchAborted)
  }

  lemma PollsPeriod(settings: Settings, a: Arena, poll: int, inp: TickInputs)
    ensures GoesOn(a, PollStops(settings, a, poll, inp))
  {
    FieldPollPeriod(a, inp.pins, poll);
    OtherPollsKeep(settings, a, poll, inp);
  }

  lemma FieldPollPeriod(a: Arena, pins: Pins, now: int)
    ensures GoesOn(a, PollFieldEStop(a, pins, now))
  {
  }

  lemma SendingPeriod(adv: Advance, now: int, failed: SixFlags)
    ensures GoesOn(adv.arena, AfterSending(adv, now, failed))
  {
  }

  lemma TransitionAborts(settings: Settings, a: Arena, now: int, inp: TickInputs)
    requires InProgress(a.matchState)
    ensures Advanced(settings, a, now, inp).arena.matchAborted == a.matchAborted
  {
  }

  lemma TickPeriod(settings: Settings, a: Arena, now: int, poll: int, inp: TickInputs)
    requires InProgress(a.matchState)
    ensures var b, adv := Update(settings, a, now, poll, inp), Advanced(settings, a, now, inp).arena;
      Aborted(b) || (b.matchState == adv.matchState && b.matchStart == adv.matchStart && b.matchAborted == a.matchAborted)
  {
    var adv := Advanced(settings, a, now, inp);
    TransitionAborts(settings, a, now, inp);
    SendingPeriod(adv, now, inp.failed);
    PollsPeriod(settings, AfterSending(adv, now, inp.failed), poll, inp);
  }

  /** A match is aborted, or its period changes with a transition. */
  lemma StepPeriod(settings: Settings, a: Arena, e: Event)
    requires InProgress(a.matchState)
    ensures var b := Step(settings, a, e);
      || Aborted(b)
      || (b.matchState == PeriodAfter(settings, a, e) && b.matchAborted == a.matchAborted
          && (Running(a.matchState) ==> b.matchStart == a.matchStart))
  {
    if e.action.Tick? {
      TickPeriod(settings, a, e.at, e.done, e.action.inputs);
      if Running(a.matchState) {
        RunningTransition(settings, a, e.at, e.action.inputs);
      }
    } else {
      CommandPeriod(settings, a, e);
    }
  }

  lemma CommandPeriod(settings: Settings, a: Arena, e: Event)
    requires InProgress(a.matchState) && !e.action.Tick?
    ensures GoesOn(a, Step(settings, a, e))
  {
    match e.action
    case ClearFieldEStop(first, second) =>
    case Connect(_, _) =>
    case Disconnect(_, _) =>
    case Heard(_, _) =>
    case _ =>
  }

  /** Event p begins the period s of the match that started at `start`. */
  predicate Begins(settings: Settings, arenas: seq<Arena>, events: seq<Event>, p: nat, s: MatchState, start: int)
    requires p < |events| && |arenas| == |events| + 1
  {
    var before, t := arenas[p], settings.timing;
    && events[p].action.Tick?
    && match s
       case WarmupPeriod => before.matchState == StartMatch && t.warmup > 0 && events[p].at == start
       case AutoPeriod =>
         || (before.matchState == StartMatch && t.warmup == 0 && events[p].at == start)
         || (before.matchState == WarmupPeriod && events[p].at - start >= t.warmup * NANOS)
       case PausePeriod =>
         before.matchState == AutoPeriod && t.pause > 0 && events[p].at - start >= (t.warmup + t.auto) * NANOS
       case TeleopPeriod =>
         || (before.matchState == AutoPeriod && t.pause == 0 && events[p].at - start >= (t.warmup + t.auto) * NANOS)
         || (before.matchState == PausePeriod && events[p].at - start >= (t.warmup + t.auto + t.pause) * NANOS)
       case _ => false
  }

  /** The match that started at `start` is in the period s after each of the events p to n - 1, and no update among
      them after p is late enough to end it. */
  predicate Throughout(
    settings: Settings, arenas: seq<Arena>, events: seq<Event>, p: nat, n: nat, s: MatchState, start: int)
    requires p < n <= |events| && |arenas| == |events| + 1 && Running(s)
  {
    && (forall j :: p < j <= n ==> arenas[j].matchState == s && arenas[j].matchStart == start)
    && (forall j :: p < j < n && events[j].action.Tick? ==> events[j].at - start < OverAfter(settings, s) * NANOS)
  }

  /** What one event does to a period: begins it, or lets it go on because its time is not up. */
  lemma PeriodStep(settings: Settings, arenas: seq<Arena>, events: seq<Event>, m: nat)
    requires Run(settings, arenas, events) && m < |events| && Running(arenas[m + 1].matchState)
    ensures var a, b, e := arenas[m], arenas[m + 1], events[m];
      || Begins(settings, arenas, events, m, b.matchState, b.matchStart)
      || (b.matchState == a.matchState && b.matchStart == a.matchStart
          && (e.action.Tick? ==> e.at - a.matchStart < OverAfter(settings, a.matchState) * NANOS))
    ensures InProgress(arenas[m].matchState)
    ensures arenas[m].matchState != StartMatch ==> arenas[m].matchStart == arenas[m + 1].matchStart
  {
    var a, b, e := arenas[m], arenas[m + 1], events[m];
    assert b == Step(settings, a, e);
    OnlyMatchesRun(settings, a, e);
    StepPeriod(settings, a, e);
    if e.action.Tick? {
      TickPeriod(settings, a, e.at, e.done, e.action.inputs);
      if a.matchState == StartMatch {
        MatchBegins(settings, a, e.at, e.action.inputs);
      } else {
        PeriodLasts(settings, a, e.at, e.action.inputs);
      }
    }
  }

  lemma OnlyMatchesRun(settings: Settings, a: Arena, e: Event)
    requires Running(Step(settings, a, e).matchState)
    ensures InProgress(a.matchState)
  {
    if e.action.Tick? {
      StartingTransition(settings, a, e.at, e.action.inputs);
      var sent := AfterSending(Advanced(settings, a, e.at, e.action.inputs), e.at, e.action.inputs.failed);
      SendingKeepsClock(Advanced(settings, a, e.at, e.action.inputs), e.at, e.action.inputs.failed);
      PollsKeepMatch(settings, sent, e.done, e.action.inputs);
    } else if !InProgress(a.matchState) && !StartsMatch(settings, a, e) {
      QuietCommandsStayQuiet(settings, a, e);
    }
  }

  /** The period of the moment began with event p, and has gone on since. */
  predicate PeriodFrom(settings: Settings, arenas: seq<Arena>, events: seq<Event>, p: nat, n: nat)
    requires n <= |events| && |arenas| == |events| + 1 && Running(arenas[n].matchState)
  {
    p < n && Begins(settings, arenas, events, p, arenas[n].matchState, arenas[n].matchStart)
      && Throughout(settings, arenas, events, p, n, arenas[n].matchState, arenas[n].matchStart)
  }

  /** Event n lets the period go on, because its time is not up. */
  predicate Continues(settings: Settings, arenas: seq<Arena>, events: seq<Event>, n: nat)
    requires n < |events| && |arenas| == |events| + 1
  {
    && Running(arenas[n].matchState)
    && arenas[n + 1].matchState == arenas[n].matchState && arenas[n + 1].matchStart == arenas[n].matchStart
    && (events[n].action.Tick? ==>
          events[n].at - arenas[n].matchStart < OverAfter(settings, arenas[n].matchState) * NANOS)
  }

  lemma PeriodGoesOn(settings: Settings, arenas: seq<Arena>, events: seq<Event>, p: nat, n: nat)
    requires |arenas| == |events| + 1 && n < |events| && Continues(settings, arenas, events, n)
    requires PeriodFrom(settings, arenas, events, p, n)
    ensures PeriodFrom(settings, arenas, events, p, n + 1)
  {
  }

  lemma FirstIsPreMatch(settings: Settings, arenas: seq<Arena>, events: seq<Event>)
    requires Run(settings, arenas, events)
    ensures arenas[0].matchState == PreMatch
  {
  }

  lemma PeriodNext(settings: Settings, arenas: seq<Arena>, events: seq<Event>, n: nat)
    requires Run(settings, arenas, events) && n < |events| && Running(arenas[n + 1].matchState)
    ensures PeriodFrom(settings, arenas, events, n, n + 1) || Continues(settings, arenas, events, n)
  {
    PeriodStep(settings, arenas, events, n);
  }

  /** When the period of the moment began. */
  lemma {:induction false} PeriodBegan(settings: Settings, arenas: seq<Arena>, events: seq<Event>, n: nat)
    returns (p: nat)
    requires Run(settings, arenas, events) && n <= |events| && Running(arenas[n].matchState)
    ensures PeriodFrom(settings, arenas, events, p, n)
  {
    if n == 0 {
      FirstIsPreMatch(settings, arenas, events);
      assert false;
    } else {
      PeriodNext(settings, arenas, events, n - 1);
      if Continues(settings, arenas, events, n - 1) {
        p := PeriodBegan(settings, arenas, events, n - 1);
        PeriodGoesOn(settings, arenas, events, p, n - 1);
      } else {
        p := n - 1;
      }
    }
  }

  /** Event m ends a match that nothing has aborted. */
  predicate EndsInFull(arenas: seq<Arena>, m: nat)
    requires m + 1 < |arenas|
  {
    InProgress(arenas[m].matchState) && arenas[m + 1].matchState == PostMatch && !arenas[m + 1].matchAborted
  }

  lemma EndOfTeleop(settings: Settings, arenas: seq<Arena>, events: seq<Event>, m: nat)
    requires Run(settings, arenas, events) && m < |events| && EndsInFull(arenas, m)
    ensures arenas[m].matchState == TeleopPeriod && events[m].action.Tick?
    ensures var t := settings.timing;
      events[m].at - arenas[m].matchStart >= (t.warmup + t.auto + t.pause + t.teleop) * NANOS
  {
    assert arenas[m + 1] == Step(settings, arenas[m], events[m]);
    StepPeriod(settings, arenas[m], events[m]);
    if events[m].action.Tick? {
      if arenas[m].matchState == StartMatch {
        MatchBegins(settings, arenas[m], events[m].at, events[m].action.inputs);
      } else {
        PeriodLasts(settings, arenas[m], events[m].at, events[m].action.inputs);
      }
    }
  }

  /** A match that ends without an abort has been played in full. It was in teleop from event `teleop` to event m, which
      is the first update at or after the scheduled end, and in AUTO from event `auto` to event `left`, which is the
      first at or after the end of AUTO; AUTO began at the match start or, after a warmup, when that was over. */
  lemma MatchPlayedInFull(settings: Settings, arenas: seq<Arena>, events: seq<Event>, m: nat)
    returns (auto: nat, left: nat, teleop: nat)
    requires Run(settings, arenas, events) && m < |events| && EndsInFull(arenas, m)
    ensures auto < left <= teleop < m
    ensures var start, t := arenas[m].matchStart, settings.timing;
      && Begins(settings, arenas, events, auto, AutoPeriod, start)
      && Throughout(settings, arenas, events, auto, left, AutoPeriod, start)
      && events[left].at - start >= (t.warmup + t.auto) * NANOS
      && Begins(settings, arenas, events, teleop, TeleopPeriod, start)
      && Throughout(settings, arenas, events, teleop, m, TeleopPeriod, start)
      && events[m].at - start >= (t.warmup + t.auto + t.pause + t.teleop) * NANOS
      && (t.warmup == 0 ==> events[left].at - events[auto].at >= t.auto * NANOS)
  {
    EndOfTeleop(settings, arenas, events, m);
    teleop := PeriodBegan(settings, arenas, events, m);
    left := EndOfAuto(settings, arenas, events, teleop);
    auto := StartOfAuto(settings, arenas, events, left);
  }

  /** The event that ended AUTO: that at which teleop began, or the pause before it. */
  lemma EndOfAuto(settings: Settings, arenas: seq<Arena>, events: seq<Event>, teleop: nat) returns (left: nat)
    requires Run(settings, arenas, events) && teleop < |events| && arenas[teleop + 1].matchState == TeleopPeriod
    requires Begins(settings, arenas, events, teleop, TeleopPeriod, arenas[teleop + 1].matchStart)
    ensures left <= teleop && arenas[left].matchState == AutoPeriod
    ensures arenas[left].matchStart == arenas[teleop + 1].matchStart
    ensures events[left].at - arenas[left].matchStart >= (settings.timing.warmup + settings.timing.auto) * NANOS
  {
    left := teleop;
    PeriodStep(settings, arenas, events, teleop);
    if arenas[teleop].matchState == PausePeriod {
      left := PeriodBegan(settings, arenas, events, teleop);
      PeriodStep(settings, arenas, events, left);
    }
  }

  lemma StartOfAuto(settings: Settings, arenas: seq<Arena>, events: seq<Event>, left: nat) returns (auto: nat)
    requires Run(settings, arenas, events) && left < |events| && arenas[left].matchState == AutoPeriod
    ensures auto < left && Begins(settings, arenas, events, auto, AutoPeriod, arenas[left].matchStart)
    ensures Throughout(settings, arenas, events, auto, left, AutoPeriod, arenas[left].matchStart)
    ensures settings.timing.warmup == 0 ==> events[auto].at == arenas[left].matchStart
  {
    auto := PeriodBegan(settings, arenas, events, left);
    if arenas[auto].matchState == WarmupPeriod {
      var warmup := PeriodBegan(settings, arenas, events, auto);
    }
  }

  // ----- after a match

  /** Event p ends a match, in full or by an abort, at the instant `end`. */
  predicate Ends(arenas: seq<Arena>, events: seq<Event>, p: nat, end: int)
    requires p < |events| && |arenas| == |events| + 1
  {
    InProgress(arenas[p].matchState) && arenas[p + 1].matchState == PostMatch && events[p].at <= end <= events[p].done
  }

  lemma PostMatchStep(settings: Settings, arenas: seq<Arena>, events: seq<Event>, m: nat)
    requires Run(settings, arenas, events) && m < |events| && arenas[m + 1].matchState == PostMatch
    ensures Ends(arenas, events, m, arenas[m + 1].postMatchStart)
            || (arenas[m].matchState == PostMatch && arenas[m].postMatchStart == arenas[m + 1].postMatchStart)
  {
    assert arenas[m + 1] == Step(settings, arenas[m], events[m]);
    assert events[m].at <= events[m].done;
    PostMatchEvent(settings, arenas[m], events[m]);
  }

  lemma PostMatchEvent(settings: Settings, a: Arena, e: Event)
    requires Step(settings, a, e).matchState == PostMatch && e.at <= e.done
    ensures var b := Step(settings, a, e);
      if InProgress(a.matchState) then e.at <= b.postMatchStart <= e.done
      else a.matchState == PostMatch && b.postMatchStart == a.postMatchStart
  {
    if e.action.Tick? {
      PostMatchTick(settings, a, e.at, e.done, e.action.inputs);
    } else {
      PostMatchCommand(settings, a, e);
    }
  }

  lemma PostMatchTick(settings: Settings, a: Arena, now: int, poll: int, inp: TickInputs)
    requires Update(settings, a, now, poll, inp).matchState == PostMatch && now <= poll
    ensures var b := Update(settings, a, now, poll, inp);
      if InProgress(a.matchState) then now <= b.postMatchStart <= poll
      else a.matchState == PostMatch && b.postMatchStart == a.postMatchStart
  {
    var adv := Advanced(settings, a, now, inp);
    PostMatchTransition(settings, a, now, inp);
    SendingKeepsClock(adv, now, inp.failed);
    PollsKeepClock(settings, AfterSending(adv, now, inp.failed), poll, inp);
  }

  lemma PostMatchTransition(settings: Settings, a: Arena, now: int, inp: TickInputs)
    ensures var b := Advanced(settings, a, now, inp).arena;
      && (b.matchState == PostMatch ==>
            if InProgress(a.matchState) then b.postMatchStart == now
            else a.matchState == PostMatch && b.postMatchStart == a.postMatchStart)
      && (InProgress(b.matchState) ==> InProgress(a.matchState))
  {
    ClearEffect(settings, a, inp.teamTable);
  }

  lemma PostMatchCommand(settings: Settings, a: Arena, e: Event)
    requires Step(settings, a, e).matchState == PostMatch && !e.action.Tick?
    ensures var b := Step(settings, a, e);
      if InProgress(a.matchState) then b.postMatchStart == e.at
      else a.matchState == PostMatch && b.postMatchStart == a.postMatchStart
  {
    if a.matchState == PreMatch {
      PreMatchCommand(settings, a, e);
    } else {
      CommandKeepsClock(settings, a, e);
    }
  }

  lemma PreMatchCommand(settings: Settings, a: Arena, e: Event)
    requires a.matchState == PreMatch && !e.action.Tick?
    ensures Step(settings, a, e).matchState in {PreMatch, StartMatch}
  {
    match e.action
    case ClearFieldEStop(first, second) =>
    case Connect(_, _) =>
    case Disconnect(_, _) =>
    case Heard(_, _) =>
    case _ =>
  }

  lemma {:induction false} MatchEnded(settings: Settings, arenas: seq<Arena>, events: seq<Event>, n: nat)
    returns (p: nat)
    requires Run(settings, arenas, events) && n <= |events| && arenas[n].matchState == PostMatch
    ensures p < n && Ends(arenas, events, p, arenas[n].postMatchStart)
    ensures forall j :: p < j <= n ==> arenas[j].matchState == PostMatch
  {
    if n == 0 {
      assert false;
    } else {
      PostMatchStep(settings, arenas, events, n - 1);
      if Ends(arenas, events, n - 1, arenas[n].postMatchStart) {
        p := n - 1;
      } else {
        p := MatchEnded(settings, arenas, events, n - 1);
      }
    }
  }

  /** The field stays in PostMatch until an operator clears, resets or takes it down, or five seconds have passed since
      the match ended. */
  lemma PostMatchLasts(settings: Settings, arenas: seq<Arena>, events: seq<Event>, m: nat) returns (p: nat)
    requires Run(settings, arenas, events) && m < |events|
    requires arenas[m].matchState == PostMatch && arenas[m + 1].matchState != PostMatch
    ensures arenas[m + 1].matchState == PreMatch
    ensures p < m && Ends(arenas, events, p, arenas[m].postMatchStart)
    ensures forall j :: p < j <= m ==> arenas[j].matchState == PostMatch
    ensures
      || events[m].action.ClearCommand? || events[m].action.Reset? || events[m].action.ResetFieldCommand?
      || (events[m].action.Tick? && events[m].at - arenas[m].postMatchStart >= 5 * NANOS)
  {
    p := MatchEnded(settings, arenas, events, m);
    assert arenas[m + 1] == Step(settings, arenas[m], events[m]);
    LeavesPostMatch(settings, arenas[m], events[m]);
  }

  lemma LeavesPostMatch(settings: Settings, a: Arena, e: Event)
    requires a.matchState == PostMatch && Step(settings, a, e).matchState != PostMatch
    ensures Step(settings, a, e).matchState == PreMatch
    ensures
      || e.action.ClearCommand? || e.action.Reset? || e.action.ResetFieldCommand?
      || (e.action.Tick? && e.at - a.postMatchStart >= 5 * NANOS)
  {
    if e.action.Tick? {
      var adv := Advanced(settings, a, e.at, e.action.inputs);
      var sent := AfterSending(adv, e.at, e.action.inputs.failed);
      ClearEffect(settings, a, e.action.inputs.teamTable);
      SendingKeepsClock(adv, e.at, e.action.inputs.failed);
      PollsKeepClock(settings, sent, e.done, e.action.inputs);
    } else {
      CommandKeepsClock(settings, a, e);
      if !e.action.ClearCommand? && !e.action.Reset? && !e.action.ResetFieldCommand? {
        PostMatchCommandLeaves(settings, a, e);
      }
    }
  }

  lemma PostMatchCommandLeaves(settings: Settings, a: Arena, e: Event)
    requires a.matchState == PostMatch && !e.action.Tick?
    requires !e.action.ClearCommand? && !e.action.Reset? && !e.action.ResetFieldCommand?
    ensures Step(settings, a, e).matchState == PostMatch
  {
  }

  // ----- what robots are told

  /** Every packet announces AUTO from the warmup to the end of AUTO, as it does before a match, and teleop otherwise;
      and it carries the stops of its station. */
  lemma PacketSays(settings: Settings, a: Arena, now: int, inp: TickInputs, i: StationIndex)
    requires PacketTo(settings, a, now, inp, i).Some?
    ensures var p, period := PacketTo(settings, a, now, inp, i).value, Advanced(settings, a, now, inp).arena.matchState;
      && (p.auto <==> a.matchState == PreMatch || period == WarmupPeriod || period == AutoPeriod)
      && (p.enabled ==> (p.auto <==> period == AutoPeriod))
      && p.eStop == a.stations[i].eStop && p.aStop == a.stations[i].aStop
  {
    TransitionFlags(settings, a, now, inp, i);
  }

  /** Packets go out with every change to a period in which robots are told something new, and otherwise every
      500 ms; they go to the stations with a driver station. */
  lemma PacketsGoOut(settings: Settings, a: Arena, now: int, inp: TickInputs, i: StationIndex)
    ensures var adv := Advanced(settings, a, now, inp);
      && (PacketsDue(adv, now) <==>
            || (adv.arena.matchState != a.matchState
                && adv.arena.matchState in {AutoPeriod, PausePeriod, TeleopPeriod, PostMatch})
            || a.lastDsPacket.None? || now - a.lastDsPacket.value >= 500_000_000)
      && (PacketTo(settings, a, now, inp, i).Some? <==> PacketsDue(adv, now) && adv.arena.stations[i].conn.Some?)
  {
    TransitionSendsNothing(settings, a, now, inp);
  }
}

/** The arena and its two sets of HUB lights (field/arena.go, field/arena_leds.go, hardware/hub.go): the LED
    controller asks a Hub, the lighting drivers ask HubActive, and the robots are told by the game data. */
module ArenaLights {
  import opened FieldEStop
  import opened MatchTiming
  import opened HubShifts
  import opened ArenaState
  import opened ArenaSafety

  /** hubs(): whether the alliance's Hub is told it won AUTO. */
  predicate HubWonAuto(a: Arena, alliance: Alliance) {
    if alliance == AllianceRed then a.autoWinner == AllianceRed else a.autoWinner != AllianceRed
  }

  /** hardware.HubActive */
  predicate HubActive(winner: Alliance, s: Shift, alliance: Alliance) {
    IsShiftActive(alliance == winner, s)
  }

  /** computeLightingState's shift. */
  function LightingShiftOf(settings: Settings, a: Arena, now: int): Shift {
    match a.matchState
    case AutoPeriod => ShiftAuto
    case TeleopPeriod => LightingShift(settings.timing, MatchTime(a, now))
    case PostMatch => ShiftPostMatch
    case _ => ShiftCount
  }

  /** The two sets of lights follow the same rule for both alliances exactly when AUTO has a winner. */
  lemma LightsAgreeExactlyWithAWinner(a: Arena)
    ensures (forall s :: HubActive(a.autoWinner, s, AllianceRed) == IsShiftActive(HubWonAuto(a, AllianceRed), s)
              && HubActive(a.autoWinner, s, AllianceBlue) == IsShiftActive(HubWonAuto(a, AllianceBlue), s)) <==>
      a.autoWinner != AllianceNone
  {
    if a.autoWinner == AllianceNone {
      assert HubActive(a.autoWinner, Shift1, AllianceBlue) != IsShiftActive(HubWonAuto(a, AllianceBlue), Shift1);
    }
  }

  lemma TeleopHasAWinner(settings: Settings, arenas: seq<Arena>, events: seq<Event>, n: nat)
    requires Run(settings, arenas, events) && n <= |events|
    ensures arenas[n].matchState == TeleopPeriod ==> arenas[n].autoWinner != AllianceNone
  {
    MatchInvariantHolds(settings, arenas, events, n);
  }

  lemma DriversFollowIn(settings: Settings, a: Arena, now: int, alliance: Alliance) returns (u: int)
    requires a.matchState == TeleopPeriod && a.autoWinner != AllianceNone && alliance != AllianceNone
    requires DriversFollow(settings.timing) && InTeleop(settings.timing, now - a.matchStart)
    ensures var t := now - a.matchStart;
      && t <= u < t + SECOND && (OnTheSecond(settings.timing, t) ==> u == t)
      && (HubActive(a.autoWinner, LightingShiftOf(settings, a, now), alliance) <==>
            LitInMatch(settings.timing, HubWonAuto(a, alliance), u))
  {
    u := FollowsAt(settings.timing, HubWonAuto(a, alliance), now - a.matchStart);
    assert HubWonAuto(a, alliance) == (alliance == a.autoWinner);
  }

  /** In every reachable state of teleop, the lighting drivers light a HUB exactly when its own rule has it active
      at this instant or less than a second later, and on the second at this instant, for the lengths
      HubShifts.DriversFollowExactlyWhen gives. */
  lemma DriversFollowTheHubs(
    settings: Settings, arenas: seq<Arena>, events: seq<Event>, n: nat, now: int, alliance: Alliance)
    returns (u: int)
    requires Run(settings, arenas, events) && n <= |events| && arenas[n].matchState == TeleopPeriod
    requires DriversFollow(settings.timing)
    requires InTeleop(settings.timing, now - arenas[n].matchStart) && alliance != AllianceNone
    ensures var a, t := arenas[n], now - arenas[n].matchStart;
      && t <= u < t + SECOND && (OnTheSecond(settings.timing, t) ==> u == t)
      && (HubActive(a.autoWinner, LightingShiftOf(settings, a, now), alliance) <==>
            LitInMatch(settings.timing, HubWonAuto(a, alliance), u))
  {
    TeleopHasAWinner(settings, arenas, events, n);
    u := DriversFollowIn(settings, arenas[n], now, alliance);
  }

  /** Outside teleop both HUBs are lit in AUTO and after the match, until the operator goes on, and dark otherwise. */
  lemma BothLitOutsideTeleop(settings: Settings, a: Arena, now: int, alliance: Alliance)
    requires a.matchState != TeleopPeriod
    ensures HubActive(a.autoWinner, LightingShiftOf(settings, a, now), alliance) <==>
      a.matchState == AutoPeriod || a.matchState == PostMatch
  {
  }

  /** The game data the robots get in teleop names the alliance whose HUB goes dark first. */
  lemma GameDataNamesFirstDarkHub(settings: Settings, arenas: seq<Arena>, events: seq<Event>, n: nat)
    requires Run(settings, arenas, events) && n <= |events|
    ensures var a := arenas[n];
      && (a.gameData != "" <==> a.matchState == TeleopPeriod)
      && (a.matchState == TeleopPeriod ==>
            && (a.gameData == "R" <==> !IsShiftActive(HubWonAuto(a, AllianceRed), Shift1))
            && (a.gameData == "B" <==> !IsShiftActive(HubWonAuto(a, AllianceBlue), Shift1)))
  {
    MatchInvariantHolds(settings, arenas, events, n);
  }
}

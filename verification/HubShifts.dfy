/** When a HUB is active and how its lights say so (game/hub.go, field/arena_leds.go), and the lighting drivers'
    own shift arithmetic (field/arena.go, hardware/hub.go). Instants are counted from the match start. */
module HubShifts {
  import opened MatchTiming

  datatype Shift =
    ShiftAuto | ShiftTransition | Shift1 | Shift2 | Shift3 | Shift4 | ShiftEndgame | ShiftPostMatch | ShiftCount

  const SHIFTS: seq<Shift> := [ShiftAuto, ShiftTransition, Shift1, Shift2, Shift3, Shift4, ShiftEndgame]

  /** A shift that has a time span in the match. */
  type Span = s: Shift | s != ShiftPostMatch && s != ShiftCount witness ShiftAuto

  function Begin(timing: Timing, s: Span): int {
    var handover := TeleopStart(timing) + timing.transition * SECOND;
    match s
    case ShiftAuto => 0
    case ShiftTransition => TeleopStart(timing)
    case Shift1 => handover
    case Shift2 => handover + timing.shift * SECOND
    case Shift3 => handover + 2 * timing.shift * SECOND
    case Shift4 => handover + 3 * timing.shift * SECOND
    case ShiftEndgame => handover + 4 * timing.shift * SECOND
  }

  function End(timing: Timing, s: Span): int {
    match s
    case ShiftAuto => AutoEnd(timing)
    case ShiftTransition => Begin(timing, Shift1)
    case Shift1 => Begin(timing, Shift2)
    case Shift2 => Begin(timing, Shift3)
    case Shift3 => Begin(timing, Shift4)
    case Shift4 => Begin(timing, ShiftEndgame)
    case ShiftEndgame => TeleopEnd(timing)
  }

  predicate Within(timing: Timing, s: Span, t: int) {
    Begin(timing, s) <= t < End(timing, s)
  }

  /** The shift at an instant; ShiftCount between and after the shifts. */
  function ShiftAt(timing: Timing, t: int): Shift {
    if Within(timing, ShiftAuto, t) then ShiftAuto
    else if Within(timing, ShiftTransition, t) then ShiftTransition
    else if Within(timing, Shift1, t) then Shift1
    else if Within(timing, Shift2, t) then Shift2
    else if Within(timing, Shift3, t) then Shift3
    else if Within(timing, Shift4, t) then Shift4
    else if Within(timing, ShiftEndgame, t) then ShiftEndgame
    else ShiftCount
  }

  /** An instant lies in at most one shift: whichever shift it is within is the shift at that instant. */
  lemma ShiftsDoNotOverlap(timing: Timing, s: Span, t: int)
    ensures Within(timing, s, t) <==> ShiftAt(timing, t) == s
  {
  }

  predicate Playing(timing: Timing, t: int) {
    0 <= t < AutoEnd(timing) || TeleopStart(timing) <= t < TeleopEnd(timing)
  }

  /** The shifts cover AUTO and teleop, and nothing else, exactly when teleop is long enough to hold the four
      alliance shifts; endgame is whatever remains. */
  lemma ShiftsTileTheMatch(timing: Timing)
    ensures (forall t :: Playing(timing, t) <==> ShiftAt(timing, t) != ShiftCount) <==>
      timing.teleop >= timing.transition + 4 * timing.shift
  {
    if timing.teleop < timing.transition + 4 * timing.shift {
      var t := TeleopEnd(timing);
      assert Begin(timing, ShiftTransition) <= t < Begin(timing, ShiftEndgame);
      assert !Playing(timing, t) && ShiftAt(timing, t) != ShiftCount;
    }
  }

  // ----- which HUB is active

  predicate IsShiftActive(wonAuto: bool, s: Shift) {
    match s
    case ShiftAuto | ShiftTransition | ShiftEndgame | ShiftPostMatch => true
    case Shift1 | Shift3 => !wonAuto
    case Shift2 | Shift4 => wonAuto
    case ShiftCount => false
  }

  predicate AllianceShift(s: Shift) {
    s == Shift1 || s == Shift2 || s == Shift3 || s == Shift4
  }

  /** In the alliance shifts exactly one HUB is dark, in the other shifts neither is. */
  lemma OneHubDarkInAllianceShifts(s: Shift)
    requires s != ShiftCount
    ensures AllianceShift(s) <==> IsShiftActive(true, s) != IsShiftActive(false, s)
    ensures !AllianceShift(s) ==> IsShiftActive(true, s) && IsShiftActive(false, s)
  {
  }

  /** A HUB is lit at an instant if it is active in the shift there. */
  predicate Lit(timing: Timing, wonAuto: bool, t: int) {
    IsShiftActive(wonAuto, ShiftAt(timing, t))
  }

  /** A HUB is lit in the match: not after teleop, which ends the match whatever shift it is in. */
  predicate LitInMatch(timing: Timing, wonAuto: bool, t: int) {
    t < TeleopEnd(timing) && Lit(timing, wonAuto, t)
  }

  /** How long a HUB is active before an instant: how many of the nanoseconds until then it is. */
  function ActiveUntil(timing: Timing, wonAuto: bool, t: nat): nat {
    if t == 0 then 0
    else ActiveUntil(timing, wonAuto, t - 1) + if LitInMatch(timing, wonAuto, t - 1) then 1 else 0
  }

  /** How long a HUB is active in the match. */
  function ActiveTime(timing: Timing, wonAuto: bool): nat {
    ActiveUntil(timing, wonAuto, TeleopEnd(timing))
  }

  /** When the shift at an instant of the match is over: at its end, or earlier with teleop itself. */
  function OverAt(timing: Timing, s: Span): nat {
    if End(timing, s) < TeleopEnd(timing) then End(timing, s) else TeleopEnd(timing)
  }

  /** Where what is played of a shift begins. */
  function PlayedFrom(timing: Timing, s: Span): nat {
    if Begin(timing, s) < TeleopEnd(timing) then Begin(timing, s) else TeleopEnd(timing)
  }

  /** How much of a shift is played: teleop may be over before it. */
  function Played(timing: Timing, s: Span): nat {
    OverAt(timing, s) - PlayedFrom(timing, s)
  }

  function PlayedIf(timing: Timing, wonAuto: bool, s: Span): nat {
    if IsShiftActive(wonAuto, s) then Played(timing, s) else 0
  }

  /** The activity of a HUB does not change between two instants. */
  ghost predicate Steady(timing: Timing, wonAuto: bool, from: nat, until: nat, lit: bool) {
    forall t :: from <= t < until ==> LitInMatch(timing, wonAuto, t) == lit
  }

  lemma {:induction false} SteadyTime(timing: Timing, wonAuto: bool, from: nat, until: nat, lit: bool)
    requires from <= until && Steady(timing, wonAuto, from, until, lit)
    ensures ActiveUntil(timing, wonAuto, until) ==
      ActiveUntil(timing, wonAuto, from) + if lit then until - from else 0
  {
    if from < until {
      SteadyTime(timing, wonAuto, from, until - 1, lit);
    }
  }

  lemma ShiftTime(timing: Timing, wonAuto: bool, s: Span)
    ensures ActiveUntil(timing, wonAuto, OverAt(timing, s)) ==
      ActiveUntil(timing, wonAuto, PlayedFrom(timing, s)) + PlayedIf(timing, wonAuto, s)
  {
    var from, until := PlayedFrom(timing, s), OverAt(timing, s);
    forall t | from <= t < until
      ensures LitInMatch(timing, wonAuto, t) == IsShiftActive(wonAuto, s)
    {
      ShiftsDoNotOverlap(timing, s, t);
    }
    SteadyTime(timing, wonAuto, from, until, IsShiftActive(wonAuto, s));
  }

  lemma AutoTime(timing: Timing, wonAuto: bool)
    ensures ActiveUntil(timing, wonAuto, PlayedFrom(timing, ShiftTransition)) == AutoEnd(timing)
  {
    ShiftTime(timing, wonAuto, ShiftAuto);
    SteadyTime(timing, wonAuto, AutoEnd(timing), TeleopStart(timing), false);
  }

  /** What is played of one shift ends where what is played of the next begins. */
  lemma PlayedInOrder(timing: Timing)
    ensures OverAt(timing, ShiftTransition) == PlayedFrom(timing, Shift1)
    ensures OverAt(timing, Shift1) == PlayedFrom(timing, Shift2)
    ensures OverAt(timing, Shift2) == PlayedFrom(timing, Shift3)
    ensures OverAt(timing, Shift3) == PlayedFrom(timing, Shift4)
    ensures OverAt(timing, Shift4) == PlayedFrom(timing, ShiftEndgame)
    ensures OverAt(timing, ShiftEndgame) == TeleopEnd(timing)
  {
  }

  /** The active time is what is played of the shifts in which the HUB is active. */
  lemma ActiveTimeSums(timing: Timing, wonAuto: bool)
    ensures ActiveTime(timing, wonAuto) ==
      AutoEnd(timing) + Played(timing, ShiftTransition) + Played(timing, ShiftEndgame)
        + PlayedIf(timing, wonAuto, Shift1) + PlayedIf(timing, wonAuto, Shift2)
        + PlayedIf(timing, wonAuto, Shift3) + PlayedIf(timing, wonAuto, Shift4)
  {
    AutoTime(timing, wonAuto);
    PlayedInOrder(timing);
    ShiftTime(timing, wonAuto, ShiftTransition);
    ShiftTime(timing, wonAuto, Shift1);
    ShiftTime(timing, wonAuto, Shift2);
    ShiftTime(timing, wonAuto, Shift3);
    ShiftTime(timing, wonAuto, Shift4);
    ShiftTime(timing, wonAuto, ShiftEndgame);
  }

  /** Teleop can hold all four alliance shifts, or none, or the first two. */
  predicate ShiftsInPairs(timing: Timing) {
    var e, tr, s := timing.teleop, timing.transition, timing.shift;
    s == 0 || e <= tr || e == tr + 2 * s || e >= tr + 4 * s
  }

  /** For which lengths both alliances' HUBs are active for the same time. */
  lemma EqualActiveTimeExactlyWhen(timing: Timing)
    ensures ActiveTime(timing, true) == ActiveTime(timing, false) <==> ShiftsInPairs(timing)
  {
    ActiveTimeSums(timing, true);
    ActiveTimeSums(timing, false);
  }

  /** Where teleop holds every shift that time is all of AUTO and teleop but two alliance shifts. */
  lemma EqualActiveTime(timing: Timing, wonAuto: bool)
    requires timing.teleop >= timing.transition + 4 * timing.shift
    ensures ActiveTime(timing, wonAuto) ==
      AutoEnd(timing) + TeleopEnd(timing) - TeleopStart(timing) - 2 * timing.shift * SECOND
  {
    ActiveTimeSums(timing, wonAuto);
  }

  /** A teleop of 50 s, otherwise with the standard lengths: the loser of AUTO has its HUB ten seconds longer. */
  lemma UnequalActiveTime(timing: Timing)
    requires timing == Timing(0, 20, 3, 50, 10, 25, 30)
    ensures ActiveTime(timing, true) == 45 * SECOND && ActiveTime(timing, false) == 55 * SECOND
  {
    ActiveTimeSums(timing, true);
    ActiveTimeSums(timing, false);
  }

  /** Where the shift after the nth begins and ends. */
  method NextShift(timing: Timing, matchStart: int, n: nat, end: int) returns (shiftStart: int, shiftEnd: int)
    requires n < |SHIFTS| && end == matchStart + End(timing, SHIFTS[n])
    ensures n + 1 < |SHIFTS| ==>
      && shiftStart == matchStart + Begin(timing, SHIFTS[n + 1])
      && shiftEnd == matchStart + End(timing, SHIFTS[n + 1])
  {
    shiftStart, shiftEnd := end, end;
    match SHIFTS[n]
    case ShiftAuto =>
      shiftStart := matchStart + TeleopStart(timing);
      shiftEnd := shiftStart + timing.transition * SECOND;
    case ShiftTransition | Shift1 | Shift2 | Shift3 =>
      shiftEnd := shiftEnd + timing.shift * SECOND;
    case Shift4 =>
      shiftEnd := matchStart + TeleopEnd(timing);
    case _ =>
      shiftEnd := shiftStart;
  }

  /** The current shift, the time left in it, and its length. */
  method GetCurrentShiftTiming(timing: Timing, matchStart: int, now: int)
    returns (shift: Shift, remaining: int, duration: int, ok: bool)
    ensures shift == ShiftAt(timing, now - matchStart)
    ensures ok <==> shift != ShiftCount
    ensures shift != ShiftPostMatch
    ensures !ok ==> remaining == 0 && duration == 0
    ensures ok ==> remaining == End(timing, shift) - (now - matchStart)
                   && duration == End(timing, shift) - Begin(timing, shift) && 0 < remaining <= duration
  {
    var shiftStart := matchStart;
    var shiftEnd := matchStart + AutoEnd(timing);
    for n := 0 to |SHIFTS|
      invariant n < |SHIFTS| ==>
        shiftStart == matchStart + Begin(timing, SHIFTS[n]) && shiftEnd == matchStart + End(timing, SHIFTS[n])
      invariant forall k :: 0 <= k < n ==> !Within(timing, SHIFTS[k], now - matchStart)
    {
      var s := SHIFTS[n];
      if shiftStart <= now < shiftEnd {
        ShiftsDoNotOverlap(timing, s, now - matchStart);
        return s, shiftEnd - now, shiftEnd - shiftStart, true;
      }
      assert !Within(timing, s, now - matchStart);
      shiftStart, shiftEnd := NextShift(timing, matchStart, n, shiftEnd);
    }
    NoShift(timing, now - matchStart);
    return ShiftCount, 0, 0, false;
  }

  lemma NoShift(timing: Timing, t: int)
    requires forall k :: 0 <= k < |SHIFTS| ==> !Within(timing, SHIFTS[k], t)
    ensures ShiftAt(timing, t) == ShiftCount
  {
    assert forall k :: 0 <= k < |SHIFTS| ==> SHIFTS[k] != ShiftCount;
    assert !Within(timing, SHIFTS[0], t) && !Within(timing, SHIFTS[1], t) && !Within(timing, SHIFTS[2], t);
    assert !Within(timing, SHIFTS[3], t) && !Within(timing, SHIFTS[4], t) && !Within(timing, SHIFTS[5], t);
    assert !Within(timing, SHIFTS[6], t);
  }

  /** The time left while the HUB is active, zero while it is not. */
  method GetActiveShiftTiming(timing: Timing, wonAuto: bool, matchStart: int, now: int)
    returns (remaining: int, duration: int)
    ensures remaining > 0 <==> IsShiftActive(wonAuto, ShiftAt(timing, now - matchStart))
    ensures var s := ShiftAt(timing, now - matchStart);
      s != ShiftCount ==> duration == End(timing, s) - Begin(timing, s)
    ensures remaining > 0 ==> remaining == End(timing, ShiftAt(timing, now - matchStart)) - (now - matchStart)
  {
    var shift, left, length, ok := GetCurrentShiftTiming(timing, matchStart, now);
    if !ok {
      return 0, 0;
    }
    if IsShiftActive(wonAuto, shift) {
      return left, length;
    }
    return 0, length;
  }

  // ----- the HUB lights in teleop

  datatype Lamp = Off | Solid | Pulse | Advantage

  const WARNING := 3 * SECOND

  predicate ActiveAfter(wonAuto: bool, s: Shift) {
    match s
    case ShiftAuto => true
    case ShiftTransition => IsShiftActive(wonAuto, Shift1)
    case Shift1 => IsShiftActive(wonAuto, Shift2)
    case Shift2 => IsShiftActive(wonAuto, Shift3)
    case Shift3 => IsShiftActive(wonAuto, Shift4)
    case Shift4 => true
    case _ => false
  }

  /** What one HUB shows at an instant of a shift: nothing while it is inactive; a pulse in the last three seconds
      before it goes inactive, the end of the match included; otherwise its colour, with the AUTO winner's
      advantage sequence in the transition shift. */
  function LampFor(wonAuto: bool, s: Shift, remaining: int): Lamp {
    if !IsShiftActive(wonAuto, s) then Off
    else if remaining <= WARNING && !ActiveAfter(wonAuto, s) then Pulse
    else if s == ShiftTransition && wonAuto && remaining > WARNING then Advantage
    else Solid
  }

  /** The HUB goes dark when the shift is over: the match ends, or the next alliance shift is not its own. */
  predicate DarkNext(wonAuto: bool, s: Shift) {
    match s
    case ShiftTransition | Shift2 => wonAuto
    case Shift1 | Shift3 => !wonAuto
    case ShiftEndgame => true
    case _ => false
  }

  /** What a lamp means: it is off if and only if its HUB is inactive, pulses if and only if the HUB goes dark within
      three seconds, and shows the advantage of the AUTO winner if and only if more of the transition shift is left. */
  predicate LampsMean(timing: Timing, wonAuto: bool, t: int, lamp: Lamp) {
    var s := ShiftAt(timing, t);
    && s != ShiftCount && s != ShiftPostMatch
    && var remaining := End(timing, s) - t;
       && (lamp == Off <==> !Lit(timing, wonAuto, t))
       && (lamp == Pulse <==> DarkNext(wonAuto, s) && remaining <= 3_000_000_000)
       && (lamp == Advantage <==> s == ShiftTransition && wonAuto && remaining > 3_000_000_000)
  }

  lemma LampTellsTheShift(timing: Timing, wonAuto: bool, t: int)
    requires ShiftAt(timing, t) != ShiftCount
    ensures var s := ShiftAt(timing, t);
      s != ShiftPostMatch && LampsMean(timing, wonAuto, t, LampFor(wonAuto, s, End(timing, s) - t))
  {
  }

  /** updateTeleopHubLeds: both lamps, or no change outside the shifts. */
  method UpdateTeleopHubLeds(timing: Timing, redWonAuto: bool, matchStart: int, now: int)
    returns (changed: bool, red: Lamp, blue: Lamp)
    ensures var s := ShiftAt(timing, now - matchStart);
      && (changed <==> s != ShiftCount)
      && (changed ==>
            && red == LampFor(redWonAuto, s, End(timing, s) - (now - matchStart))
            && blue == LampFor(!redWonAuto, s, End(timing, s) - (now - matchStart)))
    ensures changed ==> LampsMean(timing, redWonAuto, now - matchStart, red)
    ensures changed ==> LampsMean(timing, !redWonAuto, now - matchStart, blue)
  {
    var shift, remaining, _, ok := GetCurrentShiftTiming(timing, matchStart, now);
    if !ok {
      return false, Off, Off;
    }
    var redRemaining, _ := GetActiveShiftTiming(timing, redWonAuto, matchStart, now);
    var blueRemaining, _ := GetActiveShiftTiming(timing, !redWonAuto, matchStart, now);
    red := if redRemaining > 0 then Solid else Off;
    blue := if blueRemaining > 0 then Solid else Off;
    if remaining <= WARNING {
      match shift
      case ShiftTransition | Shift2 =>
        if redWonAuto {
          red := Pulse;
        } else {
          blue := Pulse;
        }
      case Shift1 | Shift3 =>
        if redWonAuto {
          blue := Pulse;
        } else {
          red := Pulse;
        }
      case ShiftEndgame =>
        red, blue := Pulse, Pulse;
      case _ =>
    } else if shift == ShiftTransition {
      if redWonAuto {
        red := Advantage;
      } else {
        blue := Advantage;
      }
    }
    changed := true;
  }

  predicate InTeleop(timing: Timing, t: int) {
    TeleopStart(timing) <= t < TeleopEnd(timing)
  }

  /** A pulse is a true warning: a HUB pulses exactly when it is lit, its shift is over within three seconds, and at
      that moment it goes dark. */
  predicate WarnsTruly(timing: Timing, wonAuto: bool, t: int) {
    var s := ShiftAt(timing, t);
    && s != ShiftCount && s != ShiftPostMatch
    && (LampFor(wonAuto, s, End(timing, s) - t) == Pulse <==>
          && LitInMatch(timing, wonAuto, t) && OverAt(timing, s) - t <= WARNING
          && !LitInMatch(timing, wonAuto, OverAt(timing, s)))
  }

  /** Either teleop reaches endgame, and the transition shift, if any, is followed by an alliance shift; or it ends
      during one of the first three alliance shifts, which is over then or no longer than the warning. */
  predicate PulsesAreTrue(timing: Timing) {
    var e, tr, s := timing.teleop, timing.transition, timing.shift;
    || e == 0
    || (e > tr + 4 * s && (s > 0 || tr == 0))
    || (tr < e <= tr + 3 * s && (s * SECOND <= WARNING || e == tr + s || e == tr + 2 * s || e == tr + 3 * s))
  }

  /** The shift that follows another within teleop. */
  function Next(timing: Timing, s: Span): Shift {
    match s
    case ShiftAuto => ShiftTransition
    case ShiftTransition => if timing.shift > 0 then Shift1 else ShiftEndgame
    case Shift1 => Shift2
    case Shift2 => Shift3
    case Shift3 => Shift4
    case Shift4 => ShiftEndgame
    case ShiftEndgame => ShiftCount
  }

  lemma ShiftInTeleop(timing: Timing, t: int)
    requires InTeleop(timing, t)
    ensures var s := ShiftAt(timing, t);
      && s != ShiftCount && s != ShiftPostMatch && s != ShiftAuto && Within(timing, s, t)
      && (End(timing, s) < TeleopEnd(timing) ==> ShiftAt(timing, End(timing, s)) == Next(timing, s))
  {
    var s := ShiftAt(timing, t);
    if s != ShiftCount && s != ShiftPostMatch && End(timing, s) < TeleopEnd(timing) {
      ShiftsDoNotOverlap(timing, s, t);
      var next := Next(timing, s);
      if next != ShiftCount {
        ShiftsDoNotOverlap(timing, next, End(timing, s));
      }
    }
  }

  lemma PulseWarnsOfDarkness(timing: Timing, wonAuto: bool, t: int)
    requires PulsesAreTrue(timing) && InTeleop(timing, t)
    ensures WarnsTruly(timing, wonAuto, t)
  {
    ShiftInTeleop(timing, t);
    var s := ShiftAt(timing, t);
    var next := ShiftAt(timing, OverAt(timing, s));
    assert OverAt(timing, s) < TeleopEnd(timing) ==> next == Next(timing, s);
  }

  /** For which lengths every pulse of teleop is a true warning, and none is missing. */
  lemma PulsesWarnExactlyWhen(timing: Timing)
    ensures (forall wonAuto, t :: InTeleop(timing, t) ==> WarnsTruly(timing, wonAuto, t)) <==> PulsesAreTrue(timing)
  {
    if PulsesAreTrue(timing) {
      forall wonAuto, t | InTeleop(timing, t)
        ensures WarnsTruly(timing, wonAuto, t)
      {
        PulseWarnsOfDarkness(timing, wonAuto, t);
      }
    } else {
      var wonAuto, t := FalsePulse(timing);
    }
  }

  /** With no alliance shift the AUTO winner pulses ahead of endgame, in which it stays lit; and a teleop that ends
      inside a shift makes a HUB dark that does not pulse. */
  lemma FalsePulse(timing: Timing) returns (wonAuto: bool, t: int)
    requires !PulsesAreTrue(timing)
    ensures InTeleop(timing, t) && !WarnsTruly(timing, wonAuto, t)
  {
    var e, tr, s := timing.teleop, timing.transition, timing.shift;
    if e > tr + 4 * s {
      wonAuto, t := true, End(timing, ShiftTransition) - 1;
      assert ShiftAt(timing, t) == ShiftTransition;
      assert ShiftAt(timing, t + 1) == ShiftEndgame;
    } else if e <= tr {
      wonAuto, t := false, TeleopEnd(timing) - 1;
      assert ShiftAt(timing, t) == ShiftTransition;
    } else if e > tr + 3 * s {
      wonAuto, t := true, TeleopEnd(timing) - 1;
      assert ShiftAt(timing, t) == Shift4;
    } else {
      wonAuto, t := DarkWithoutPulse(timing);
    }
  }

  lemma DarkWithoutPulse(timing: Timing) returns (wonAuto: bool, t: int)
    requires !PulsesAreTrue(timing)
    requires timing.transition < timing.teleop <= timing.transition + 3 * timing.shift
    ensures InTeleop(timing, t) && !WarnsTruly(timing, wonAuto, t)
  {
    var e, tr, s := timing.teleop, timing.transition, timing.shift;
    var last: Span := if e < tr + s then Shift1 else if e < tr + 2 * s then Shift2 else Shift3;
    t := TeleopEnd(timing) - WARNING;
    if t < Begin(timing, last) {
      t := Begin(timing, last);
    }
    wonAuto := last == Shift2;
    assert Within(timing, last, t);
    ShiftsDoNotOverlap(timing, last, t);
    assert LampFor(wonAuto, last, End(timing, last) - t) == Solid;
  }

  // ----- the lighting drivers' shift

  /** Conversion to an integer drops the fraction, toward zero. */
  function WholeSeconds(ns: int): int {
    if ns >= 0 then ns / SECOND else -(-ns / SECOND)
  }

  function TeleopShift(timing: Timing, remaining: int): Shift {
    var e, s := timing.endgame, timing.shift;
    if remaining > e + 4 * s then ShiftTransition
    else if remaining > e + 3 * s then Shift1
    else if remaining > e + 2 * s then Shift2
    else if remaining > e + s then Shift3
    else if remaining > e then Shift4
    else ShiftEndgame
  }

  /** The shift the lighting drivers are told at an instant of teleop. */
  function LightingShift(timing: Timing, t: int): Shift {
    TeleopShift(timing, WholeSeconds(timing.teleop * SECOND - (t - TeleopStart(timing))))
  }

  predicate OnTheSecond(timing: Timing, t: int) {
    (TeleopEnd(timing) - t) % SECOND == 0
  }

  lemma Remaining(timing: Timing, t: int) returns (r: int)
    requires InTeleop(timing, t)
    ensures r >= 0 && r * SECOND <= TeleopEnd(timing) - t < (r + 1) * SECOND
    ensures OnTheSecond(timing, t) ==> TeleopEnd(timing) - t == r * SECOND
    ensures LightingShift(timing, t) == TeleopShift(timing, r)
  {
    r := (TeleopEnd(timing) - t) / SECOND;
  }

  /** The lengths for which the drivers' boundaries are the HUBs': teleop is the sum of its shifts, or there is a
      single shift, transition or endgame, and it is not over before teleop. */
  predicate ShiftsAgree(timing: Timing) {
    || timing.teleop == ShiftTotal(timing)
    || timing.teleop == 0
    || (timing.shift == 0 && timing.endgame == 0 && timing.teleop <= timing.transition)
    || (timing.shift == 0 && timing.transition == 0 && timing.teleop <= timing.endgame)
  }

  /** The lighting drivers' shift at an instant is the HUBs' own at another, the same instant or less than a second
      later, and on the second the same. */
  predicate Leads(timing: Timing, t: int, u: int) {
    t <= u < t + SECOND && (OnTheSecond(timing, t) ==> u == t) && LightingShift(timing, t) == ShiftAt(timing, u)
  }

  /** The lights never lag: the lighting drivers' shift is the HUBs' own, or the one the HUBs reach within the
      second; on the second the two agree. */
  lemma LightsLeadByLessThanASecond(timing: Timing, t: int) returns (u: int)
    requires ShiftsAgree(timing) && timing.endgame >= 1 && InTeleop(timing, t)
    ensures Leads(timing, t, u)
  {
    var r := Remaining(timing, t);
    u := TeleopEnd(timing) - r * SECOND;
    if r > 0 {
      AgreeOnTheSecond(timing, u, r);
    } else {
      u := t;
      assert ShiftAt(timing, t) == ShiftEndgame by {
        ShiftsDoNotOverlap(timing, ShiftEndgame, t);
      }
    }
  }

  /** Without an endgame the drivers show one in the last second of teleop, which no HUB ever reaches. */
  lemma LightsLeadExactlyWhen(timing: Timing)
    ensures (forall t :: InTeleop(timing, t) ==> exists u :: Leads(timing, t, u)) <==>
      ShiftsAgree(timing) && (timing.endgame >= 1 || timing.teleop == 0)
  {
    if timing.teleop == 0 {
    } else if !ShiftsAgree(timing) {
      var t := DisagreementOnTheSecond(timing);
      assert forall u :: !Leads(timing, t, u);
    } else if timing.endgame == 0 {
      var t := TeleopEnd(timing) - 1;
      assert InTeleop(timing, t);
      var r := Remaining(timing, t);
      forall u
        ensures !Leads(timing, t, u)
      {
        NoEndgame(timing, u);
      }
    } else {
      forall t | InTeleop(timing, t)
        ensures exists u :: Leads(timing, t, u)
      {
        var u := LightsLeadByLessThanASecond(timing, t);
      }
    }
  }

  lemma NoEndgame(timing: Timing, u: int)
    requires ShiftsAgree(timing) && timing.endgame == 0
    ensures ShiftAt(timing, u) != ShiftEndgame
  {
  }

  lemma AgreeOnTheSecond(timing: Timing, t: int, r: int)
    requires ShiftsAgree(timing)
    requires InTeleop(timing, t) && TeleopEnd(timing) - t == r * SECOND
    ensures TeleopShift(timing, r) == ShiftAt(timing, t)
  {
    var s := TeleopShift(timing, r);
    assert Within(timing, s, t);
    ShiftsDoNotOverlap(timing, s, t);
  }

  /** The drivers' boundaries are counted back from the end of teleop, the HUBs' forward from its start; for which
      lengths the two agree on every second of teleop. */
  lemma LightsAgreeExactlyWhenShiftsAddUp(timing: Timing)
    ensures (forall t :: InTeleop(timing, t) && OnTheSecond(timing, t) ==>
              LightingShift(timing, t) == ShiftAt(timing, t)) <==>
      ShiftsAgree(timing)
  {
    if ShiftsAgree(timing) {
      forall t | InTeleop(timing, t) && OnTheSecond(timing, t)
        ensures LightingShift(timing, t) == ShiftAt(timing, t)
      {
        var r := Remaining(timing, t);
        AgreeOnTheSecond(timing, t, r);
      }
    } else {
      var t := DisagreementOnTheSecond(timing);
    }
  }

  /** The second of teleop at which the two differ. If teleop is too long the drivers stay in the transition shift, or
      the last shift there is, beyond its end; if it is too short they have left it before. */
  function DisagreementSecond(timing: Timing): nat
    requires !ShiftsAgree(timing)
  {
    var e, tr, s := timing.teleop, timing.transition, timing.shift;
    if e > ShiftTotal(timing) then tr
    else if tr > 0 then (if tr < e then tr else e) - 1
    else (if s < e then s else e) - 1
  }

  lemma DisagreementOnTheSecond(timing: Timing) returns (t: int)
    requires !ShiftsAgree(timing)
    ensures InTeleop(timing, t) && OnTheSecond(timing, t) && LightingShift(timing, t) != ShiftAt(timing, t)
  {
    var n := DisagreementSecond(timing);
    t := TeleopStart(timing) + n * SECOND;
    assert TeleopEnd(timing) - t == (timing.teleop - n) * SECOND;
    var r := Remaining(timing, t);
    assert r == timing.teleop - n;
    if timing.teleop < ShiftTotal(timing) {
      var s := if timing.transition > 0 then ShiftTransition else Shift1;
      assert Within(timing, s, t);
      ShiftsDoNotOverlap(timing, s, t);
    }
  }

  /** The drivers light a HUB at an instant exactly if it is lit by its own rule at that instant or less than a second
      later, and on the second at that instant. */
  predicate Follows(timing: Timing, wonAuto: bool, t: int, u: int) {
    && t <= u < t + SECOND && (OnTheSecond(timing, t) ==> u == t)
    && (IsShiftActive(wonAuto, LightingShift(timing, t)) <==> LitInMatch(timing, wonAuto, u))
  }

  ghost predicate Followed(timing: Timing, wonAuto: bool, t: int) {
    exists u :: Follows(timing, wonAuto, t, u)
  }

  /** Teleop is the sum of its shifts and has an endgame, or there is nothing in it but shifts with both HUBs lit. */
  predicate DriversFollow(timing: Timing) {
    || (timing.teleop == ShiftTotal(timing) && timing.endgame >= 1)
    || timing.shift == 0
    || (timing.teleop <= timing.transition && timing.teleop <= timing.endgame)
    || timing.teleop == 0
  }

  lemma FollowsAt(timing: Timing, wonAuto: bool, t: int) returns (u: int)
    requires DriversFollow(timing) && InTeleop(timing, t)
    ensures Follows(timing, wonAuto, t, u)
  {
    if timing.teleop == ShiftTotal(timing) && timing.endgame >= 1 {
      u := LightsLeadByLessThanASecond(timing, t);
    } else {
      u := t;
      var r := Remaining(timing, t);
      ShiftInTeleop(timing, t);
    }
  }

  /** Over all of teleop, and whichever alliance won AUTO, the lighting drivers light the HUBs as the HUBs' own rule
      does if and only if the lengths are such. */
  lemma DriversFollowExactlyWhen(timing: Timing)
    ensures (forall wonAuto, t :: InTeleop(timing, t) ==> Followed(timing, wonAuto, t)) <==>
      DriversFollow(timing)
  {
    if DriversFollow(timing) {
      forall wonAuto, t | InTeleop(timing, t)
        ensures Followed(timing, wonAuto, t)
      {
        var u := FollowsAt(timing, wonAuto, t);
      }
    } else {
      var wonAuto, t := NotFollowed(timing);
    }
  }

  lemma ToldOnTheSecond(timing: Timing, n: nat)
    requires n < timing.teleop
    ensures var t := TeleopStart(timing) + n * SECOND;
      InTeleop(timing, t) && OnTheSecond(timing, t)
      && LightingShift(timing, t) == TeleopShift(timing, timing.teleop - n)
  {
    var t := TeleopStart(timing) + n * SECOND;
    assert TeleopEnd(timing) - t == (timing.teleop - n) * SECOND;
    var r := Remaining(timing, t);
    assert r == timing.teleop - n;
  }

  /** The shift a HUB is in at the nth second of teleop and the one the drivers are told have it differently. */
  lemma DifferAt(timing: Timing, wonAuto: bool, n: nat, s: Span) returns (t: int)
    requires n < timing.teleop && Within(timing, s, TeleopStart(timing) + n * SECOND)
    requires IsShiftActive(wonAuto, s) != IsShiftActive(wonAuto, TeleopShift(timing, timing.teleop - n))
    ensures InTeleop(timing, t) && !Followed(timing, wonAuto, t)
  {
    t := TeleopStart(timing) + n * SECOND;
    ToldOnTheSecond(timing, n);
    ShiftsDoNotOverlap(timing, s, t);
  }

  /** In the last second the drivers show the endgame; a HUB dark in the shift it is in is not lit then or later. */
  lemma LastSecondDiffers(timing: Timing, s: Span) returns (t: int)
    requires timing.teleop > 0 && Within(timing, s, TeleopEnd(timing) - 1) && !IsShiftActive(false, s)
    ensures InTeleop(timing, t) && !Followed(timing, false, t)
  {
    t := TeleopEnd(timing) - 1;
    var r := Remaining(timing, t);
    assert r == 0;
    ShiftsDoNotOverlap(timing, s, t);
  }

  lemma NotFollowed(timing: Timing) returns (wonAuto: bool, t: int)
    requires !DriversFollow(timing)
    ensures InTeleop(timing, t) && !Followed(timing, wonAuto, t)
  {
    var e, tr := timing.teleop, timing.transition;
    if e > ShiftTotal(timing) || (tr < e <= timing.endgame) {
      wonAuto := true;
      t := DifferAt(timing, true, tr, Shift1);
    } else if e == ShiftTotal(timing) {
      wonAuto := false;
      t := LastSecondDiffers(timing, Shift4);
    } else if tr > 0 {
      wonAuto, t := TransitionDiffers(timing);
    } else {
      wonAuto, t := ShortTeleopDiffers(timing);
    }
  }

  /** A teleop too short for its shifts: the drivers leave the transition, if they show it at all, before the HUBs. */
  lemma TransitionDiffers(timing: Timing) returns (wonAuto: bool, t: int)
    requires timing.endgame < timing.teleop < ShiftTotal(timing) && timing.shift > 0 && timing.transition > 0
    ensures InTeleop(timing, t) && !Followed(timing, wonAuto, t)
  {
    var left: int := timing.teleop - timing.endgame - 4 * timing.shift;
    var n: nat := if left < 0 then 0 else left;
    var s := TeleopShift(timing, timing.teleop - n);
    wonAuto := s == Shift1 || s == Shift3;
    t := DifferAt(timing, wonAuto, n, ShiftTransition);
  }

  /** Without a transition the drivers start in a later alliance shift, or change shift before the HUBs. */
  lemma ShortTeleopDiffers(timing: Timing) returns (wonAuto: bool, t: int)
    requires timing.endgame < timing.teleop < ShiftTotal(timing) && timing.shift > 0 && timing.transition == 0
    ensures InTeleop(timing, t) && !Followed(timing, wonAuto, t)
  {
    var played, s := timing.teleop - timing.endgame, timing.shift;
    wonAuto := true;
    if played > 3 * s {
      t := DifferAt(timing, true, played - 3 * s, Shift1);
    } else if played > 2 * s || played <= s {
      t := DifferAt(timing, true, 0, Shift1);
    } else if played < 2 * s {
      t := DifferAt(timing, true, played - s, Shift1);
    } else if timing.endgame > 0 {
      t := DifferAt(timing, true, 2 * s, Shift3);
    } else {
      wonAuto := false;
      t := LastSecondDiffers(timing, Shift2);
    }
  }

  /** shiftWarning, whose windows are fixed numbers of seconds. */
  predicate ShiftWarning(remaining: int) {
    130 <= remaining < 133 || 105 <= remaining < 108 || 80 <= remaining < 83 || 55 <= remaining < 58
  }

  /** The drivers' warning at an instant of teleop. */
  predicate Warned(timing: Timing, t: int) {
    ShiftWarning(WholeSeconds(timing.teleop * SECOND - (t - TeleopStart(timing))))
  }

  /** A HUB handover: an alliance shift that lasts any time begins before teleop is over. */
  predicate HandsOver(timing: Timing, s: Span) {
    AllianceShift(s) && timing.shift > 0 && Begin(timing, s) < TeleopEnd(timing)
  }

  predicate HandoverAhead(timing: Timing, s: Span, t: int) {
    HandsOver(timing, s) && 0 <= Begin(timing, s) - t < WARNING
  }

  /** A handover is less than three seconds ahead. */
  predicate HandoverSoon(timing: Timing, t: int) {
    || HandoverAhead(timing, Shift1, t) || HandoverAhead(timing, Shift2, t)
    || HandoverAhead(timing, Shift3, t) || HandoverAhead(timing, Shift4, t)
  }

  /** All four windows precede a handover, or only the last fits into teleop and precedes the only handover, or there
      is neither a window nor a handover. */
  predicate WarningsFit(timing: Timing) {
    var e, tr, s := timing.teleop, timing.transition, timing.shift;
    || (e == tr + 130 && s == 25)
    || (e == tr + 55 && e < 80 && s >= 55)
    || (e < 55 && (e <= tr || s == 0))
  }

  /** Whether the nth second of teleop is warned of: of the instants in it the warning cannot tell one from another. */
  predicate WarnedAt(timing: Timing, n: int) {
    ShiftWarning(timing.teleop - n)
  }

  predicate HandoverAt(timing: Timing, b: int, n: int) {
    timing.shift > 0 && b < timing.teleop && 0 <= b - n < 3
  }

  predicate HandoverSoonAt(timing: Timing, n: int) {
    var tr, s := timing.transition, timing.shift;
    HandoverAt(timing, tr, n) || HandoverAt(timing, tr + s, n)
    || HandoverAt(timing, tr + 2 * s, n) || HandoverAt(timing, tr + 3 * s, n)
  }

  lemma WarnedInSecond(timing: Timing, t: int, n: int)
    requires InTeleop(timing, t) && (n - 1) * SECOND < t - TeleopStart(timing) <= n * SECOND
    ensures Warned(timing, t) == WarnedAt(timing, n)
  {
    var r := Remaining(timing, t);
    assert r == timing.teleop - n;
  }

  lemma HandoverInSecond(timing: Timing, s: Span, b: int, t: int, n: int)
    requires AllianceShift(s) && Begin(timing, s) == TeleopStart(timing) + b * SECOND
    requires (n - 1) * SECOND < t - TeleopStart(timing) <= n * SECOND
    ensures HandoverAhead(timing, s, t) == HandoverAt(timing, b, n)
  {
  }

  /** How many seconds of teleop have begun at an instant. */
  lemma SecondOf(timing: Timing, t: int) returns (n: int)
    requires InTeleop(timing, t)
    ensures 0 <= n <= timing.teleop && (n - 1) * SECOND < t - TeleopStart(timing) <= n * SECOND
    ensures Warned(timing, t) == WarnedAt(timing, n) && HandoverSoon(timing, t) == HandoverSoonAt(timing, n)
  {
    n := timing.teleop - (TeleopEnd(timing) - t) / SECOND;
    WarnedInSecond(timing, t, n);
    HandoverInSecond(timing, Shift1, timing.transition, t, n);
    HandoverInSecond(timing, Shift2, timing.transition + timing.shift, t, n);
    HandoverInSecond(timing, Shift3, timing.transition + 2 * timing.shift, t, n);
    HandoverInSecond(timing, Shift4, timing.transition + 3 * timing.shift, t, n);
  }

  predicate WrongAt(timing: Timing, n: int) {
    0 <= n < timing.teleop && WarnedAt(timing, n) != HandoverSoonAt(timing, n)
  }

  /** If the warnings do not fit, the last window, the one before, or the first, second or fourth handover shows it. */
  lemma WrongSecond(timing: Timing) returns (n: int)
    requires !WarningsFit(timing)
    ensures WrongAt(timing, n)
  {
    var e: int := timing.teleop;
    var tr, s := timing.transition, timing.shift;
    if WrongAt(timing, e - 55) {
      n := e - 55;
    } else if WrongAt(timing, e - 80) {
      n := e - 80;
    } else if WrongAt(timing, tr) {
      n := tr;
    } else if WrongAt(timing, tr + s) {
      n := tr + s;
    } else {
      n := tr + 3 * s;
    }
  }

  lemma WrongWarning(timing: Timing) returns (t: int)
    requires !WarningsFit(timing)
    ensures InTeleop(timing, t) && Warned(timing, t) != HandoverSoon(timing, t)
  {
    var n := WrongSecond(timing);
    t := TeleopStart(timing) + n * SECOND;
    var m := SecondOf(timing, t);
    assert m == n;
  }

  /** shiftWarning precedes each handover, and nothing else, at every instant of teleop. */
  ghost predicate WarnsOfHandovers(timing: Timing) {
    forall t :: InTeleop(timing, t) ==> Warned(timing, t) == HandoverSoon(timing, t)
  }

  /** For which lengths the warning is given at exactly the instants less than three seconds ahead of a handover. */
  lemma WarningPrecedesHandovers(timing: Timing)
    ensures WarnsOfHandovers(timing) <==> WarningsFit(timing)
  {
    if WarningsFit(timing) {
      forall t | InTeleop(timing, t)
        ensures Warned(timing, t) == HandoverSoon(timing, t)
      {
        var n := SecondOf(timing, t);
      }
    } else {
      var t := WrongWarning(timing);
    }
  }

  /** With the standard shift lengths that is the standard teleop, or one over before the first handover. */
  lemma StandardWarnings(timing: Timing)
    requires timing.transition == 10 && timing.shift == 25
    ensures WarnsOfHandovers(timing) <==> timing.teleop == 140 || timing.teleop <= 10
  {
    WarningPrecedesHandovers(timing);
  }

  /** In a teleop of 60 s the one warning, five seconds in, precedes nothing, and the two handovers come unannounced. */
  lemma FalseWarning(timing: Timing, t: int)
    requires timing.teleop == 60 && timing.transition == 10 && timing.shift == 25 && InTeleop(timing, t)
    ensures Warned(timing, t) <==> 0 <= TeleopStart(timing) + 5 * SECOND - t < WARNING
    ensures HandoverSoon(timing, t) <==>
      0 <= TeleopStart(timing) + 10 * SECOND - t < WARNING || 0 <= TeleopStart(timing) + 35 * SECOND - t < WARNING
  {
    var n := SecondOf(timing, t);
  }
}

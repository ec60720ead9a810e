/** The lengths of a match's periods and shifts (game/match_timing.go), in seconds; instants are in nanoseconds
    from the start of the match. */
module MatchTiming {
  const SECOND := 1_000_000_000

  datatype Timing = Timing(
    warmup: nat,
    auto: nat,
    pause: nat,
    teleop: nat,
    transition: nat,
    shift: nat,
    endgame: nat)

  function AutoEnd(timing: Timing): int {
    (timing.warmup + timing.auto) * SECOND
  }

  function TeleopStart(timing: Timing): int {
    (timing.warmup + timing.auto + timing.pause) * SECOND
  }

  function TeleopEnd(timing: Timing): int {
    (timing.warmup + timing.auto + timing.pause + timing.teleop) * SECOND
  }

  /** The teleop length the shifts add up to; the stored length is meant to equal it. */
  function ShiftTotal(timing: Timing): nat {
    timing.transition + 4 * timing.shift + timing.endgame
  }
}

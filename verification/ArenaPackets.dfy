/** From the match state machine to the wire: what a driver station reads from the packets of a run. */
module ArenaPackets {
  import opened Options
  import opened FieldEStop
  import opened ArenaState
  import opened ArenaSafety
  import opened ArenaPeriods
  import DriverStation
  import StatusTags

  function BytesOf(text: string): DriverStation.Bytes
    requires forall i :: 0 <= i < |text| ==> text[i] < 256 as char
  {
    seq(|text|, i requires 0 <= i < |text| => text[i] as int)
  }

  function RobotOf(p: Packet): DriverStation.RobotState {
    DriverStation.RobotState(p.auto, p.enabled, p.eStop, p.aStop)
  }

  /** The game data of every packet of a run names the AUTO winner if the packet announces teleop, and is empty
      otherwise. */
  lemma PacketGameData(settings: Settings, arenas: seq<Arena>, events: seq<Event>, n: nat, i: StationIndex)
    requires Run(settings, arenas, events) && n < |events| && events[n].action.Tick?
    ensures var inp := events[n].action.inputs;
      var p, b := PacketTo(settings, arenas[n], events[n].at, inp, i), Advanced(settings, arenas[n], events[n].at, inp);
      p.Some? ==>
        p.value.gameData == (if b.arena.matchState != TeleopPeriod then ""
                             else if b.arena.autoWinner == AllianceRed then "R" else "B")
  {
    MatchInvariantHolds(settings, arenas, events, n);
    TransitionKeeps(settings, arenas[n], events[n].at, events[n].action.inputs);
  }

  /** What a driver station reads off the wire in any run: its station and its stops; enabled exactly in AUTO and teleop,
      and then only without an e-stop, a bypass or, in AUTO, an a-stop, and which of the two it is; and, if it is a new
      one, the AUTO winner in teleop. */
  lemma DriverStationReads(
    settings: Settings, arenas: seq<Arena>, events: seq<Event>, n: nat, i: StationIndex,
    count: nat, other: DriverStation.MatchBytes, newDs: bool)
    requires Run(settings, arenas, events) && n < |events| && events[n].action.Tick?
    requires PacketTo(settings, arenas[n], events[n].at, events[n].action.inputs, i).Some?
    ensures var p := PacketTo(settings, arenas[n], events[n].at, events[n].action.inputs, i).value;
      |p.gameData| <= 1 && forall k :: 0 <= k < |p.gameData| ==> p.gameData[k] < 256 as char
    ensures var inp := events[n].action.inputs;
      var p := PacketTo(settings, arenas[n], events[n].at, inp, i).value;
      var wire := DriverStation.ControlPacket(count, RobotOf(p), i, other, newDs, BytesOf(p.gameData));
      var period, s := Advanced(settings, arenas[n], events[n].at, inp).arena.matchState, arenas[n].stations[i];
      && (DriverStation.ReadRobotState(wire).enabled <==>
            && (period == AutoPeriod || period == TeleopPeriod)
            && !s.eStop && !s.bypass && !(period == AutoPeriod && s.aStop))
      && (DriverStation.ReadRobotState(wire).enabled ==>
            (DriverStation.ReadRobotState(wire).auto <==> period == AutoPeriod))
      && DriverStation.ReadRobotState(wire).eStop == s.eStop
      && DriverStation.ReadRobotState(wire).aStop == s.aStop
      && DriverStation.ReadStation(wire) == i
      && DriverStation.ReadGameData(wire) == if newDs then BytesOf(p.gameData) else []
  {
    var inp := events[n].action.inputs;
    var p := PacketTo(settings, arenas[n], events[n].at, inp, i).value;
    PacketGameData(settings, arenas, events, n, i);
    EnabledExactlyWhen(settings, arenas[n], events[n].at, inp, i);
    PacketSays(settings, arenas[n], events[n].at, inp, i);
    DriverStation.ControlPacketRoundTrip(count, RobotOf(p), i, other, newDs, BytesOf(p.gameData));
  }
}

/** What a driver station is told (field/driver_station_connection.go): the control packet, and the game data,
    which a new driver station reads from every control packet and a legacy one from a packet sent over TCP
    whenever the value changes. */
module DriverStation {
  import opened Options
  import opened StatusTags

  const BASE_BYTES := 22
  const MAX_GAME_DATA := 8
  const GAME_DATA_TAG := 32
  const MAX_PACKET_BYTES := 32
  const GAME_DATA_PACKET := 28

  type Bytes = seq<Byte>

  // ----- the control packet

  datatype RobotState = RobotState(auto: bool, enabled: bool, eStop: bool, aStop: bool)

  function StatusByte(r: RobotState): Byte {
    (if r.auto then 0x02 else 0) + (if r.enabled then 0x04 else 0)
      + (if r.aStop then 0x40 else 0) + (if r.eStop then 0x80 else 0)
  }

  predicate Bit(b: Byte, weight: nat)
    requires weight > 0
  {
    b / weight % 2 == 1
  }

  function DecodeStatus(b: Byte): RobotState {
    RobotState(Bit(b, 0x02), Bit(b, 0x04), Bit(b, 0x80), Bit(b, 0x40))
  }

  function Capped(gameData: Bytes): Bytes {
    if |gameData| > MAX_GAME_DATA then gameData[..MAX_GAME_DATA] else gameData
  }

  /** What a new driver station appends: nothing for an empty value. */
  function GameDataField(gameData: Bytes): Bytes {
    var capped := Capped(gameData);
    if capped == [] then [] else [|capped| + 1, GAME_DATA_TAG] + capped
  }

  /** The fields of a control packet this model has nothing to say about: match, time of day, seconds left. */
  type MatchBytes = b: Bytes | |b| == 16 witness seq(16, _ => 0)

  function Header(count: nat, r: RobotState, station: Byte, other: MatchBytes): Bytes {
    [count / 256 % 256, count % 256, 0, StatusByte(r), 0, station] + other
  }

  function ControlPacket(count: nat, r: RobotState, station: Byte, other: MatchBytes, newDs: bool, gameData: Bytes)
    : Bytes
  {
    Header(count, r, station, other) + (if newDs then GameDataField(gameData) else [])
  }

  /** How a driver station reads the packet. */
  function ReadRobotState(packet: Bytes): RobotState
    requires |packet| >= BASE_BYTES
  {
    DecodeStatus(packet[3])
  }

  function ReadStation(packet: Bytes): Byte
    requires |packet| >= BASE_BYTES
  {
    packet[5]
  }

  function ReadGameData(packet: Bytes): Bytes {
    if |packet| >= BASE_BYTES + 2 && packet[BASE_BYTES] > 0 && packet[BASE_BYTES + 1] == GAME_DATA_TAG
       && |packet| >= BASE_BYTES + 1 + packet[BASE_BYTES]
    then packet[BASE_BYTES + 2..BASE_BYTES + 1 + packet[BASE_BYTES]]
    else []
  }

  /** The bytes of a control packet as driver stations know them: the packet number, a version, the control bits (0x02
      AUTO, 0x04 enabled, 0x40 a-stop, 0x80 e-stop), a zero and the station; and to a new one, behind the 22 bytes that
      every packet has, an element with tag 32 that holds up to eight bytes of game data. */
  lemma ControlPacketLayout(
    count: nat, r: RobotState, station: Byte, other: MatchBytes, newDs: bool, gameData: Bytes)
    ensures |ControlPacket(count, r, station, other, newDs, gameData)| >= 22
    ensures var p := ControlPacket(count, r, station, other, newDs, gameData);
      var high: int, low: int := p[0], p[1];
      && high * 256 + low == count % 65536 && p[2] == 0 && p[4] == 0 && p[5] == station
      && (p[3] / 2 % 2 == 1 <==> r.auto) && (p[3] / 4 % 2 == 1 <==> r.enabled)
      && (p[3] / 64 % 2 == 1 <==> r.aStop) && (p[3] / 128 % 2 == 1 <==> r.eStop)
      && p[3] % 2 == 0 && p[3] / 8 % 8 == 0
      && p[6..22] == other
      && var size := if !newDs then 0 else if |gameData| > 8 then 8 else |gameData|;
         p[22..] == if size == 0 then [] else [size + 1, 32] + gameData[..size]
  {
    var p := ControlPacket(count, r, station, other, newDs, gameData);
    var field := if newDs then GameDataField(gameData) else [];
    assert p == Header(count, r, station, other) + field && p[22..] == field;
    assert Header(count, r, station, other)[6..22] == other;
    if newDs && |gameData| <= 8 {
      assert gameData[..|gameData|] == gameData;
    }
  }

  /** A driver station reads back the robot state it was sent, its station, and a new one the game data, up to eight
      bytes of it. */
  lemma ControlPacketRoundTrip(
    count: nat, r: RobotState, station: Byte, other: MatchBytes, newDs: bool, gameData: Bytes)
    ensures var p := ControlPacket(count, r, station, other, newDs, gameData);
      && BASE_BYTES <= |p| <= MAX_PACKET_BYTES
      && ReadRobotState(p) == r
      && ReadStation(p) == station
      && Word(p[0], p[1]) == count % 65536
      && ReadGameData(p) == if newDs then Capped(gameData) else []
  {
    var p := ControlPacket(count, r, station, other, newDs, gameData);
    var head := Header(count, r, station, other);
    var field := if newDs then GameDataField(gameData) else [];
    assert p == head + field && |head| == BASE_BYTES;
    assert p[3] == StatusByte(r);
    assert p[BASE_BYTES..] == field;
    if newDs && Capped(gameData) != [] {
      assert p[BASE_BYTES] == field[0] && p[BASE_BYTES + 1] == field[1];
      assert p[BASE_BYTES + 2..] == field[2..] == Capped(gameData);
    } else {
      assert field == [] && |p| == BASE_BYTES;
    }
  }

  // ----- game data over TCP

  /** The packet that carries game data to a legacy driver station; its sizes are written in one byte each. */
  function GameDataPacket(data: Bytes): Bytes {
    [0, (|data| + 2) % 256, GAME_DATA_PACKET, |data| % 256] + data
  }

  /** Its bytes: two of length, the tag 28, the size of the value, and the value. */
  lemma GameDataPacketLayout(data: Bytes)
    requires |data| <= 253
    ensures var p := GameDataPacket(data);
      |p| == |data| + 4 && p[0] == 0 && p[1] == |data| + 2 && p[2] == 28 && p[3] == |data| && p[4..] == data
  {
  }

  function Stream(values: seq<Bytes>): Bytes {
    if values == [] then [] else GameDataPacket(values[0]) + Stream(values[1..])
  }

  lemma {:induction false} StreamGrows(values: seq<Bytes>, last: Bytes)
    ensures Stream(values + [last]) == Stream(values) + GameDataPacket(last)
    decreases |values|
  {
    var all := values + [last];
    if values == [] {
      assert all == [last] && Stream(all[1..]) == [];
    } else {
      assert all[1..] == values[1..] + [last];
      StreamGrows(values[1..], last);
      Regroup(GameDataPacket(values[0]), Stream(values[1..]), GameDataPacket(last));
    }
  }

  /** The bodies of the packets in a stream, each behind its length in two bytes, up to the first incomplete one. */
  function ReadPackets(stream: Bytes): seq<Bytes> {
    if |stream| < 2 || |stream| < 2 + Word(stream[0], stream[1]) then []
    else
      var end := 2 + Word(stream[0], stream[1]);
      [stream[2..end]] + ReadPackets(stream[end..])
  }

  function Body(data: Bytes): Bytes {
    [GAME_DATA_PACKET, |data| % 256] + data
  }

  predicate Sendable(values: seq<Bytes>) {
    forall i :: 0 <= i < |values| ==> |values[i]| <= 253
  }

  lemma FirstPacket(data: Bytes, rest: Bytes)
    requires |data| <= 253
    ensures ReadPackets(GameDataPacket(data) + rest) == [Body(data)] + ReadPackets(rest)
  {
    var stream := GameDataPacket(data) + rest;
    assert stream[0] == 0 && stream[1] == |data| + 2;
    assert stream[2..4 + |data|] == Body(data) && stream[4 + |data|..] == rest;
  }

  function Bodies(values: seq<Bytes>): seq<Bytes> {
    seq(|values|, i requires 0 <= i < |values| => Body(values[i]))
  }

  lemma BodiesOneByOne(values: seq<Bytes>)
    requires values != []
    ensures Bodies(values) == [Body(values[0])] + Bodies(values[1..])
  {
  }

  /** What is left of a packet whose write was cut short; nothing of a write that was not. */
  ghost predicate Incomplete(rest: Bytes) {
    rest == [] || exists data: Bytes :: PartOf(rest, data)
  }

  predicate PartOf(rest: Bytes, data: Bytes) {
    |data| <= 253 && |rest| < |GameDataPacket(data)| && rest == GameDataPacket(data)[..|rest|]
  }

  lemma IncompleteIsUnread(rest: Bytes)
    requires Incomplete(rest)
    ensures ReadPackets(rest) == []
  {
    if rest != [] {
      var data: Bytes :| PartOf(rest, data);
      if |rest| >= 2 {
        assert rest[0] == 0 && rest[1] == |data| + 2;
      }
    }
  }

  /** A stream of game data packets comes apart into exactly the packets written, whatever part of another one
      follows. */
  lemma {:induction false} StreamIsWellFramed(values: seq<Bytes>, rest: Bytes)
    requires Sendable(values) && Incomplete(rest)
    ensures ReadPackets(Stream(values) + rest) == Bodies(values)
  {
    if values == [] {
      assert Stream(values) + rest == rest;
      IncompleteIsUnread(rest);
    } else {
      var later := Stream(values[1..]) + rest;
      StreamIsWellFramed(values[1..], rest);
      FirstPacket(values[0], later);
      Regroup(GameDataPacket(values[0]), Stream(values[1..]), rest);
      BodiesOneByOne(values);
    }
  }

  /** What a legacy driver station takes from one packet. */
  function GameDataOf(body: Bytes, previous: Bytes): Bytes {
    if |body| >= 2 && body[0] == GAME_DATA_PACKET && |body[2..]| >= body[1] then body[2..][..body[1]] else previous
  }

  /** The game data a legacy driver station has after these packets; none at first. */
  function LastGameData(bodies: seq<Bytes>): Bytes {
    if bodies == [] then []
    else GameDataOf(bodies[|bodies| - 1], LastGameData(bodies[..|bodies| - 1]))
  }

  /** The connection's side of it: what was last sent, and all that was written to the TCP stream. */
  datatype Link = Link(newDs: bool, sentGameData: Bytes, stream: Bytes)

  /** The game data when a control packet is sent, and how a TCP write made then would end: complete, or with an error
      after some bytes. */
  datatype Send = Send(gameData: Bytes, cut: Option<nat>)

  /** The bytes of a packet that are written. */
  function WrittenPart(packet: Bytes, cut: Option<nat>): Bytes {
    if cut.Some? && cut.value < |packet| then packet[..cut.value] else packet
  }

  function CheckGameData(link: Link, send: Send): Link {
    if link.newDs || link.sentGameData == send.gameData then link
    else
      var written := link.(stream := link.stream + WrittenPart(GameDataPacket(send.gameData), send.cut));
      if send.cut.Some? then written else written.(sentGameData := send.gameData)
  }

  function AfterSends(newDs: bool, sends: seq<Send>): Link {
    if sends == [] then Link(newDs, [], [])
    else CheckGameData(AfterSends(newDs, sends[..|sends| - 1]), sends[|sends| - 1])
  }

  function Last(values: seq<Bytes>): Bytes {
    if values == [] then [] else values[|values| - 1]
  }

  function Values(sends: seq<Send>): seq<Bytes> {
    seq(|sends|, i requires 0 <= i < |sends| => sends[i].gameData)
  }

  /** The values a legacy connection has got through: each one that differed from the one before it when its write
      succeeded; the first from the empty value. */
  function Delivered(sends: seq<Send>): seq<Bytes> {
    if sends == [] then []
    else
      var before, send := Delivered(sends[..|sends| - 1]), sends[|sends| - 1];
      if send.gameData == Last(before) || send.cut.Some? then before else before + [send.gameData]
  }

  /** The values that differ from the one before, the first from the empty value. */
  function Changes(values: seq<Bytes>): seq<Bytes> {
    if values == [] then []
    else
      var before := values[..|values| - 1];
      Changes(before) + if Last(values) == Last(before) then [] else [Last(values)]
  }

  /** Where no write fails, the values that get through are the changes. */
  lemma {:induction false} EveryChangeDelivered(sends: seq<Send>)
    requires forall i :: 0 <= i < |sends| ==> sends[i].cut.None?
    ensures Delivered(sends) == Changes(Values(sends)) && Last(Delivered(sends)) == Last(Values(sends))
  {
    if sends != [] {
      var before := sends[..|sends| - 1];
      EveryChangeDelivered(before);
      assert Values(sends)[..|sends| - 1] == Values(before);
      assert Changes(Values(before)) + [] == Changes(Values(before));
    }
  }

  /** A TCP connection that has failed in the middle of a packet takes no more bytes; one that has failed before the
      first byte may. */
  ghost predicate Orderly(sends: seq<Send>) {
    forall i, j :: 0 <= i < j < |sends| && Broken(sends[i]) ==> sends[j].cut == Some(0)
  }

  /** A write that fails, if it is made, with part of its packet written. */
  predicate Broken(send: Send) {
    send.cut.Some? && send.cut.value > 0
  }

  /** The stream of a legacy connection: the packets of the values that got through, and after them at most a part of
      one, left by a connection that takes no more bytes. */
  ghost predicate Written(sends: seq<Send>, rest: Bytes) {
    && AfterSends(false, sends).stream == Stream(Delivered(sends)) + rest
    && Incomplete(rest)
    && (rest != [] ==> exists i :: 0 <= i < |sends| && Broken(sends[i]))
  }

  predicate Cut(send: Send) {
    send.cut.Some? ==> send.cut.value < |GameDataPacket(send.gameData)| && |send.gameData| <= 253
  }

  /** Over any sequence of control packets a legacy connection has written exactly one packet for every value that got
      through, and remembers the last; a new one has written nothing. */
  lemma {:induction false} OnePacketPerChange(sends: seq<Send>) returns (rest: Bytes)
    requires Orderly(sends) && forall i :: 0 <= i < |sends| ==> Cut(sends[i])
    ensures !AfterSends(false, sends).newDs && AfterSends(false, sends).sentGameData == Last(Delivered(sends))
    ensures Written(sends, rest)
  {
    if sends == [] {
      rest := [];
    } else {
      var n := |sends| - 1;
      var before, send := sends[..n], sends[n];
      assert forall i :: 0 <= i < n ==> before[i] == sends[i];
      rest := OnePacketPerChange(before);
      var link := AfterSends(false, before);
      if rest != [] {
        var i :| 0 <= i < n && Broken(before[i]);
        assert Broken(sends[i]) && send.cut == Some(0);
        NothingWritten(link, send);
      } else if send.gameData != Last(Delivered(before)) {
        NextWrite(Delivered(before), link.stream, send);
        rest := if send.cut.Some? then WrittenPart(GameDataPacket(send.gameData), send.cut) else [];
        assert rest != [] ==> Broken(sends[n]);
      }
    }
  }

  lemma NothingWritten(link: Link, send: Send)
    requires send.cut == Some(0)
    ensures CheckGameData(link, send) == link
  {
    assert link.stream + [] == link.stream;
  }

  lemma NextWrite(values: seq<Bytes>, stream: Bytes, send: Send)
    requires stream == Stream(values) + [] && Cut(send)
    ensures var part := WrittenPart(GameDataPacket(send.gameData), send.cut);
      if send.cut.Some? then stream + part == Stream(values) + part && Incomplete(part)
      else stream + part == Stream(values + [send.gameData]) + []
  {
    var part := WrittenPart(GameDataPacket(send.gameData), send.cut);
    assert stream == Stream(values);
    if send.cut.Some? {
      assert PartOf(part, send.gameData);
    } else {
      StreamGrows(values, send.gameData);
    }
  }

  lemma {:induction false} NewLinkWritesNothing(sends: seq<Send>)
    ensures AfterSends(true, sends) == Link(true, [], [])
  {
    if sends != [] {
      NewLinkWritesNothing(sends[..|sends| - 1]);
    }
  }

  lemma {:induction false} DeliveredAreSendable(sends: seq<Send>)
    requires Sendable(Values(sends))
    ensures Sendable(Delivered(sends))
  {
    if sends != [] {
      var n := |sends| - 1;
      assert Values(sends[..n]) == Values(sends)[..n] && Values(sends)[n] == sends[n].gameData;
      DeliveredAreSendable(sends[..n]);
    }
  }

  /** What a legacy driver station has read off its stream after these sends. */
  function LegacyReading(sends: seq<Send>): Bytes {
    LastGameData(ReadPackets(AfterSends(false, sends).stream))
  }

  /** What a legacy driver station has read is always what the connection last got through; after a send without an
      error that is the current value, and after one with an error it is only if the value had not changed. */
  lemma LegacyReadsCurrent(sends: seq<Send>)
    requires Sendable(Values(sends)) && Orderly(sends) && forall i :: 0 <= i < |sends| ==> Cut(sends[i])
    ensures LegacyReading(sends) == Last(Delivered(sends)) == AfterSends(false, sends).sentGameData
    ensures |ReadPackets(AfterSends(false, sends).stream)| == |Delivered(sends)|
    ensures sends != [] ==>
      var send, before := sends[|sends| - 1], Last(Delivered(sends[..|sends| - 1]));
      LegacyReading(sends) == send.gameData <==> send.cut.None? || before == send.gameData
  {
    var values := Delivered(sends);
    var rest := OnePacketPerChange(sends);
    DeliveredAreSendable(sends);
    StreamIsWellFramed(values, rest);
    if values != [] {
      LastBodyCounts(Bodies(values), values[|values| - 1]);
    }
  }

  lemma LastBodyCounts(bodies: seq<Bytes>, data: Bytes)
    requires bodies != [] && bodies[|bodies| - 1] == Body(data) && |data| <= 253
    ensures LastGameData(bodies) == data
  {
    assert Body(data)[2..] == data && Body(data)[1] == |data|;
  }

  /** The two ways of delivery agree: after every send without an error, a new driver station has read from the control
      packet exactly what a legacy one has read off its TCP stream, if and only if the value has at most eight bytes. */
  lemma DeliveriesAgreeExactly(
    sends: seq<Send>, count: nat, r: RobotState, station: Byte, other: MatchBytes)
    requires Sendable(Values(sends)) && Orderly(sends) && forall i :: 0 <= i < |sends| ==> Cut(sends[i])
    requires sends != [] && sends[|sends| - 1].cut.None?
    ensures var current := sends[|sends| - 1].gameData;
      ReadGameData(ControlPacket(count, r, station, other, true, current)) == LegacyReading(sends) <==>
        |current| <= 8
  {
    LegacyReadsCurrent(sends);
    ControlPacketRoundTrip(count, r, station, other, true, sends[|sends| - 1].gameData);
  }

  // ----- the connection as it runs

  /** The writing end of a TCP connection; a write may fail after some of its bytes. */
  class TcpStream {
    var written: Bytes

    method Write(data: array<Byte>, cut: Option<nat>) returns (ok: bool)
      modifies this
      ensures ok == cut.None? && written == old(written) + WrittenPart(data[..], cut)
    {
      var end := if cut.Some? && cut.value < data.Length then cut.value else data.Length;
      assert data[..data.Length] == data[..] && data[..end] == data[..][..end];
      written := written + data[..end];
      ok := cut.None?;
    }
  }

  class DriverStationConnection {
    const newDs: bool
    const station: Byte
    const tcp: TcpStream
    var robot: RobotState
    var sentGameData: Bytes
    var packetCount: nat

    function View(): Link
      reads this, tcp
    {
      Link(newDs, sentGameData, tcp.written)
    }

    constructor (newDs: bool, station: Byte, tcp: TcpStream)
      requires tcp.written == []
      ensures this.newDs == newDs && this.station == station && this.tcp == tcp && packetCount == 0
      ensures View() == AfterSends(newDs, [])
    {
      this.newDs, this.station, this.tcp := newDs, station, tcp;
      robot := RobotState(false, false, false, false);
      sentGameData, packetCount := [], 0;
    }

    method SendGameDataPacket(gameData: Bytes, cut: Option<nat>) returns (ok: bool)
      modifies tcp
      ensures ok == cut.None? && tcp.written == old(tcp.written) + WrittenPart(GameDataPacket(gameData), cut)
    {
      var size := |gameData|;
      var packet := new Byte[size + 4](_ => 0);
      packet[0] := 0;
      packet[1] := (size + 2) % 256;
      packet[2] := GAME_DATA_PACKET;
      packet[3] := size % 256;
      for i := 0 to size
        modifies packet
        invariant packet[..4] == [0, (size + 2) % 256, GAME_DATA_PACKET, size % 256]
        invariant packet[4..4 + i] == gameData[..i]
      {
        packet[i + 4] := gameData[i];
      }
      assert gameData[..size] == gameData;
      assert packet[..] == packet[..4] + packet[4..4 + size] == GameDataPacket(gameData);
      ok := tcp.Write(packet, cut);
    }

    method CheckData(gameData: Bytes, cut: Option<nat>) returns (ok: bool)
      modifies this`sentGameData, tcp
      ensures View() == CheckGameData(old(View()), Send(gameData, cut))
      ensures ok <==> newDs || old(sentGameData) == gameData || cut.None?
    {
      if newDs || sentGameData == gameData {
        return true;
      }
      ok := SendGameDataPacket(gameData, cut);
      if ok {
        sentGameData := gameData;
      }
    }

    method EncodeStatus() returns (status: Byte)
      ensures status == StatusByte(robot)
    {
      status := 0;
      if robot.auto {
        status := status + 0x02;
      }
      if robot.enabled {
        status := status + 0x04;
      }
      if robot.eStop {
        status := status + 0x80;
      }
      if robot.aStop {
        status := status + 0x40;
      }
    }

    method EncodeHeader(packet: array<Byte>, other: MatchBytes)
      requires packet.Length == MAX_PACKET_BYTES
      modifies packet
      ensures packet[..BASE_BYTES] == Header(packetCount, robot, station, other)
    {
      packet[0] := packetCount / 256 % 256;
      packet[1] := packetCount % 256;
      packet[2] := 0;
      packet[3] := EncodeStatus();
      packet[4] := 0;
      packet[5] := station;
      forall i | 6 <= i < BASE_BYTES {
        packet[i] := other[i - 6];
      }
    }

    /** Appends the game data field, and says where the packet ends. */
    method EncodeGameData(packet: array<Byte>, gameData: Bytes) returns (length: nat)
      requires packet.Length == MAX_PACKET_BYTES
      modifies packet
      ensures BASE_BYTES <= length <= MAX_PACKET_BYTES && packet[..BASE_BYTES] == old(packet[..BASE_BYTES])
      ensures packet[BASE_BYTES..length] == if newDs then GameDataField(gameData) else []
    {
      length := BASE_BYTES;
      if newDs {
        var data := gameData;
        if |data| > MAX_GAME_DATA {
          data := data[..MAX_GAME_DATA];
        }
        if |data| > 0 {
          packet[22] := |data| + 1;
          packet[23] := GAME_DATA_TAG;
          forall i | 0 <= i < |data| {
            packet[24 + i] := data[i];
          }
          length := length + 2 + |data|;
        }
      }
    }

    method EncodeControlPacket(other: MatchBytes, gameData: Bytes) returns (packet: array<Byte>, length: nat)
      modifies this`packetCount
      ensures fresh(packet) && packet.Length == MAX_PACKET_BYTES && length <= MAX_PACKET_BYTES
      ensures packet[..length] == ControlPacket(old(packetCount), robot, station, other, newDs, gameData)
      ensures packetCount == old(packetCount) + 1
    {
      packet := new Byte[MAX_PACKET_BYTES](_ => 0);
      EncodeHeader(packet, other);
      packetCount := packetCount + 1;
      length := EncodeGameData(packet, gameData);
      assert packet[..length] == packet[..BASE_BYTES] + packet[BASE_BYTES..length];
    }

    /** Sends the next control packet, and first the game data if the driver station reads that elsewhere. The packet
        goes out even if the game data did not, and an error of either is reported. */
    method SendControlPacket(other: MatchBytes, gameData: Bytes, cut: Option<nat>, udpFails: bool)
      returns (datagram: Option<Bytes>, ok: bool)
      modifies this`sentGameData, this`packetCount, tcp
      ensures View() == CheckGameData(old(View()), Send(gameData, cut))
      ensures datagram == if udpFails then None
                          else Some(ControlPacket(old(packetCount), robot, station, other, newDs, gameData))
      ensures ok <==> !udpFails && (newDs || old(sentGameData) == gameData || cut.None?)
      ensures packetCount == old(packetCount) + 1
    {
      ok := CheckData(gameData, cut);
      var packet, length := EncodeControlPacket(other, gameData);
      if udpFails {
        return None, false;
      }
      datagram := Some(packet[..length]);
    }
  }
}

/** How a driver station introduces itself (parseInitialPacket in field/driver_station_connection.go). */
module Handshake {
  import opened Options
  import opened StatusTags

  const LEGACY_TAG := 24
  const NEW_TAG := 30
  const INT64_LIMIT := 0x8000_0000_0000_0000

  /** A port of 0 stands for the fixed one. */
  datatype Hello = Hello(teamId: int, newDs: bool, port: int)

  predicate Digits(text: seq<Byte>) {
    text != [] && forall i :: 0 <= i < |text| ==> '0' as int <= text[i] <= '9' as int
  }

  function Value(text: seq<Byte>): nat
    requires forall i :: 0 <= i < |text| ==> '0' as int <= text[i] <= '9' as int
  {
    if text == [] then 0 else 10 * Value(text[..|text| - 1]) + (text[|text| - 1] - '0' as int)
  }

  /** strconv.Atoi: decimal digits after an optional sign, within 64 bits. */
  function Atoi(text: seq<Byte>): Option<int> {
    var signed := text != [] && (text[0] == '+' as int || text[0] == '-' as int);
    var digits := if signed then text[1..] else text;
    if !Digits(digits) then None
    else
      var value: int := Value(digits);
      var n := if signed && text[0] == '-' as int then -value else value;
      if -INT64_LIMIT <= n < INT64_LIMIT then Some(n) else None
  }

  function ParseInitialPacket(packet: seq<Byte>): Option<Hello> {
    var count := |packet|;
    if count >= 5 && packet[0] == 0 && packet[1] == 3 && packet[2] == LEGACY_TAG
    then Some(Hello(Word(packet[3], packet[4]), false, 0))
    else if count >= 7 && packet[0] == 0 && packet[1] >= 5 && packet[2] == NEW_TAG then
      var length, digits: int := Word(packet[0], packet[1]), packet[6];
      if length < 5 + digits || count < 7 + digits then None
      else
        match Atoi(packet[7..7 + digits])
        case None => None
        case Some(teamId) => Some(Hello(teamId, true, Word(packet[3], packet[4])))
    else None
  }

  function LegacyHello(teamId: int): seq<Byte>
    requires 0 <= teamId < 65536
  {
    [0, 3, 24, teamId / 256, teamId % 256]
  }

  function Decimal(n: nat): seq<Byte> {
    if n < 10 then ['0' as int + n] else Decimal(n / 10) + ['0' as int + n % 10]
  }

  /** The digits may be followed by anything else the packet's length covers. */
  function NewHello(teamId: nat, port: int, flags: Byte, extra: seq<Byte>): seq<Byte>
    requires 0 <= port < 65536 && |Decimal(teamId)| + |extra| <= 250
  {
    [0, 5 + |Decimal(teamId)| + |extra|, 30, port / 256, port % 256, flags, |Decimal(teamId)|]
      + Decimal(teamId) + extra
  }

  lemma {:induction false} DecimalValue(n: nat)
    ensures Digits(Decimal(n)) && Value(Decimal(n)) == n
  {
    var last := [('0' as int + n % 10) as Byte];
    if n >= 10 {
      DecimalValue(n / 10);
      assert Decimal(n)[..|Decimal(n)| - 1] == Decimal(n / 10);
    }
  }

  lemma LegacyHelloIsUnderstood(teamId: int)
    requires 0 <= teamId < 65536
    ensures ParseInitialPacket(LegacyHello(teamId)) == Some(Hello(teamId, false, 0))
  {
  }

  /** Every team number that fits is read back from a new driver station's greeting, with the port it names. */
  lemma NewHelloIsUnderstood(teamId: nat, port: int, flags: Byte, extra: seq<Byte>)
    requires 0 <= port < 65536 && |Decimal(teamId)| + |extra| <= 250 && teamId < INT64_LIMIT
    ensures ParseInitialPacket(NewHello(teamId, port, flags, extra)) == Some(Hello(teamId, true, port))
  {
    var text := Decimal(teamId);
    var packet := NewHello(teamId, port, flags, extra);
    DecimalValue(teamId);
    assert packet[7..7 + |text|] == text;
  }

  lemma DigitsAreRead(text: seq<Byte>, n: nat, sign: Byte)
    requires Digits(text) && Value(text) == n && (sign == '+' as int || sign == '-' as int)
    ensures Atoi(text) == if n <= 0x7FFF_FFFF_FFFF_FFFF then Some(n) else None
    ensures var value: int := n;
      var m := if sign == '-' as int then -value else value;
      Atoi([sign] + text) == if -0x8000_0000_0000_0000 <= m <= 0x7FFF_FFFF_FFFF_FFFF then Some(m) else None
  {
    assert ([sign] + text)[1..] == text;
  }

  /** Numbers as they are read: with or without a sign, as long as they fit in 64 bits. */
  lemma NumbersAreRead(n: nat, sign: Byte)
    requires sign == '+' as int || sign == '-' as int
    ensures Atoi(Decimal(n)) == if n <= 0x7FFF_FFFF_FFFF_FFFF then Some(n) else None
    ensures var value: int := n;
      var m := if sign == '-' as int then -value else value;
      Atoi([sign] + Decimal(n)) == if -0x8000_0000_0000_0000 <= m <= 0x7FFF_FFFF_FFFF_FFFF then Some(m) else None
  {
    DecimalValue(n);
    DigitsAreRead(Decimal(n), n, sign);
  }

  /** A greeting that ends before its team number does, or declares less than that, is not understood, nor is one with
      another tag. */
  lemma OthersAreNotUnderstood(packet: seq<Byte>)
    requires
      || |packet| < 5 || packet[0] != 0 || packet[2] !in {24, 30} || (packet[2] == 24 && packet[1] != 3)
      || (packet[2] == 30 &&
            (|packet| < 7 || var digits: int := packet[6]; |packet| < 7 + digits || packet[1] as int < 5 + digits))
    ensures ParseInitialPacket(packet) == None
  {
  }
}

/** The tagged elements of a driver station's status packet (listenForDsUdpPackets in
    field/driver_station_connection.go). */
module StatusTags {
  type Byte = n: int | 0 <= n < 256

  const HEADER_BYTES := 8

  // ----- the format

  /** A zero byte is padding. An element is a length byte and then that many bytes: a tag and its value. */
  datatype Chunk = Pad | Element(tag: Byte, value: seq<Byte>)

  predicate WellFormed(c: Chunk) {
    c.Element? ==> |c.value| <= 254
  }

  predicate AllWellFormed(chunks: seq<Chunk>) {
    forall i :: 0 <= i < |chunks| ==> WellFormed(chunks[i])
  }

  function Encode(c: Chunk): seq<Byte>
    requires WellFormed(c)
  {
    match c
    case Pad => [0]
    case Element(tag, value) => [1 + |value|, tag] + value
  }

  function EncodeAll(chunks: seq<Chunk>): seq<Byte>
    requires AllWellFormed(chunks)
  {
    if chunks == [] then [] else EncodeAll(chunks[..|chunks| - 1]) + Encode(chunks[|chunks| - 1])
  }

  /** Nothing is left, or an element that declares more bytes than there are. */
  predicate Truncated(rest: seq<Byte>) {
    rest == [] || (rest[0] != 0 && |rest| - 1 < rest[0])
  }

  /** The packet is these elements, up to its end or to its first truncated element. */
  ghost predicate Splits(data: seq<Byte>, chunks: seq<Chunk>, rest: seq<Byte>) {
    AllWellFormed(chunks) && Truncated(rest) && data == EncodeAll(chunks) + rest
  }

  // ----- taking a packet apart

  lemma EncodeLast(chunks: seq<Chunk>, c: Chunk)
    requires AllWellFormed(chunks) && WellFormed(c)
    ensures AllWellFormed(chunks + [c]) && EncodeAll(chunks + [c]) == EncodeAll(chunks) + Encode(c)
  {
  }

  lemma Regroup<T>(a: seq<T>, b: seq<T>, c: seq<T>)
    ensures a + b + c == a + (b + c)
  {
  }

  lemma {:induction false} EncodeFromFront(c: Chunk, chunks: seq<Chunk>)
    requires WellFormed(c) && AllWellFormed(chunks)
    ensures AllWellFormed([c] + chunks)
    ensures EncodeAll([c] + chunks) == Encode(c) + EncodeAll(chunks)
    decreases |chunks|
  {
    if chunks == [] {
      EncodeLast([], c);
      assert [] + [c] == [c] + chunks;
    } else {
      var front, last := chunks[..|chunks| - 1], chunks[|chunks| - 1];
      assert front + [last] == chunks;
      Regroup([c], front, [last]);
      EncodeFromFront(c, front);
      EncodeLast([c] + front, last);
      Regroup(Encode(c), EncodeAll(front), Encode(last));
    }
  }

  /** An element is not the start of a truncated rest, nor the start of another element. */
  lemma SameFirst(a: Chunk, x: seq<Byte>, b: Chunk, y: seq<Byte>)
    requires WellFormed(a) && WellFormed(b) && Encode(a) + x == Encode(b) + y
    ensures a == b && x == y
  {
    var s, t := Encode(a) + x, Encode(b) + y;
    assert s[0] == Encode(a)[0] && t[0] == Encode(b)[0];
    assert |Encode(a)| == |Encode(b)|;
    assert s[..|Encode(a)|] == Encode(a) && t[..|Encode(b)|] == Encode(b);
    assert s[|Encode(a)|..] == x && t[|Encode(b)|..] == y;
    if a.Element? {
      assert Encode(a)[1] == a.tag && Encode(b)[1] == b.tag;
      assert Encode(a)[2..] == a.value && Encode(b)[2..] == b.value;
    }
  }

  lemma NotTruncated(c: Chunk, x: seq<Byte>)
    requires WellFormed(c)
    ensures !Truncated(Encode(c) + x)
  {
  }

  /** A packet that starts with a truncated element has no other split. */
  lemma NothingWhole(data: seq<Byte>, rest: seq<Byte>, others: seq<Chunk>, left: seq<Byte>)
    requires Splits(data, [], rest) && Splits(data, others, left)
    ensures others == [] && left == rest
  {
    assert data == rest;
    if others == [] {
      assert data == left;
    } else {
      TakeFirst(data, others, left);
      NotTruncated(others[0], EncodeAll(others[1..]) + left);
    }
  }

  /** A packet splits in one way only. */
  lemma {:induction false} SplitIsUnique(
    data: seq<Byte>, chunks: seq<Chunk>, rest: seq<Byte>, others: seq<Chunk>, left: seq<Byte>)
    requires Splits(data, chunks, rest) && Splits(data, others, left)
    ensures chunks == others && rest == left
    decreases |chunks|
  {
    if chunks == [] {
      NothingWhole(data, rest, others, left);
    } else if others == [] {
      NothingWhole(data, left, chunks, rest);
    } else {
      TakeFirst(data, chunks, rest);
      TakeFirst(data, others, left);
      var a, b := EncodeAll(chunks[1..]) + rest, EncodeAll(others[1..]) + left;
      SameFirst(chunks[0], a, others[0], b);
      SplitIsUnique(a, chunks[1..], rest, others[1..], left);
      assert chunks == [chunks[0]] + chunks[1..] && others == [others[0]] + others[1..];
    }
  }

  lemma TakeFirst(data: seq<Byte>, chunks: seq<Chunk>, rest: seq<Byte>)
    requires Splits(data, chunks, rest) && chunks != []
    ensures AllWellFormed(chunks[1..]) && data == Encode(chunks[0]) + (EncodeAll(chunks[1..]) + rest)
  {
    assert chunks == [chunks[0]] + chunks[1..];
    EncodeFromFront(chunks[0], chunks[1..]);
    Regroup(Encode(chunks[0]), EncodeAll(chunks[1..]), rest);
  }

  // ----- the scan

  /** Lost packets and round trip time, as the last status element gives them. */
  datatype Status = Status(lost: int, trip: int)

  function Word(high: int, low: int): int {
    high * 256 + low
  }

  function Record(c: Chunk, s: Status): Status {
    if IsStatus(c) then Status(Word(c.value[0], c.value[1]), c.value[4]) else s
  }

  function Recorded(chunks: seq<Chunk>, s: Status): Status {
    if chunks == [] then s else Record(chunks[|chunks| - 1], Recorded(chunks[..|chunks| - 1], s))
  }

  predicate IsStatus(c: Chunk) {
    c.Element? && c.tag == 1 && |c.value| == 5
  }

  ghost predicate LastStatusAt(chunks: seq<Chunk>, i: int) {
    0 <= i < |chunks| && IsStatus(chunks[i]) && forall j :: i < j < |chunks| ==> !IsStatus(chunks[j])
  }

  /** What is recorded is the last status element's reading, or the previous one if the packet has none. */
  lemma {:induction false} LastStatusWins(chunks: seq<Chunk>, s: Status)
    ensures (forall i :: 0 <= i < |chunks| ==> !IsStatus(chunks[i])) ==> Recorded(chunks, s) == s
    ensures forall i :: LastStatusAt(chunks, i) ==> Recorded(chunks, s) == Record(chunks[i], s)
  {
    if chunks != [] {
      var n := |chunks| - 1;
      LastStatusWins(chunks[..n], s);
      forall i | LastStatusAt(chunks, i) ensures Recorded(chunks, s) == Record(chunks[i], s) {
        assert i < n ==> LastStatusAt(chunks[..n], i);
      }
    }
  }

  /** Where a status element is in a packet, and what it records: after a length byte of 6 and the tag 1, the packets lost
      in the next two bytes, high byte first, and the round trip time in the last. */
  lemma StatusInBytes(packet: seq<Byte>, at: nat, c: Chunk, s: Status)
    requires WellFormed(c) && at + |Encode(c)| <= |packet| && packet[at..at + |Encode(c)|] == Encode(c)
    ensures c.Element? ==> at + 2 <= |packet| && packet[at] == |c.value| + 1 && packet[at + 1] == c.tag
    ensures IsStatus(c) <==> c.Element? && packet[at] == 6 && packet[at + 1] == 1
    ensures IsStatus(c) ==>
      at + 6 < |packet| && var high: int, low: int := packet[at + 2], packet[at + 3];
                           Record(c, s) == Status(high * 256 + low, packet[at + 6])
    ensures !IsStatus(c) ==> Record(c, s) == s
  {
    var bytes := packet[at..at + |Encode(c)|];
    assert forall k :: 0 <= k < |bytes| ==> packet[at + k] == bytes[k];
    if c.Element? {
      assert bytes[0] == 1 + |c.value| && bytes[1] == c.tag && bytes[2..] == c.value;
    }
  }

  lemma {:induction false} EncodeUpTo(chunks: seq<Chunk>, i: nat)
    requires AllWellFormed(chunks) && i < |chunks|
    ensures AllWellFormed(chunks[..i]) && EncodeAll(chunks[..i]) + Encode(chunks[i]) <= EncodeAll(chunks)
    decreases |chunks|
  {
    var n := |chunks| - 1;
    assert chunks == chunks[..n] + [chunks[n]];
    EncodeLast(chunks[..n], chunks[n]);
    if i < n {
      EncodeUpTo(chunks[..n], i);
      assert chunks[..n][..i] == chunks[..i];
    }
  }

  lemma Inside(before: seq<Byte>, part: seq<Byte>, most: seq<Byte>, all: seq<Byte>)
    requires before + part <= most <= all
    ensures |before| + |part| <= |all| && all[|before|..|before| + |part|] == part
  {
    assert before + part <= all;
    assert (before + part)[|before|..] == part;
  }

  /** What the last status element of a packet records, told from the packet's bytes. */
  lemma LastStatusInBytes(
    packet: seq<Byte>, chunks: seq<Chunk>, rest: seq<Byte>, i: nat, previous: Status) returns (at: nat)
    requires Splits(packet, chunks, rest) && LastStatusAt(chunks, i)
    ensures at + 6 < |packet| && packet[at] == 6 && packet[at + 1] == 1
    ensures var high: int, low: int := packet[at + 2], packet[at + 3];
      Recorded(chunks, previous) == Status(high * 256 + low, packet[at + 6])
  {
    EncodeUpTo(chunks, i);
    LastStatusWins(chunks, previous);
    at := |EncodeAll(chunks[..i])|;
    Inside(EncodeAll(chunks[..i]), Encode(chunks[i]), EncodeAll(chunks), packet);
    StatusInBytes(packet, at, chunks[i], previous);
  }

  lemma OneMore(chunks: seq<Chunk>, c: Chunk, s: Status)
    requires AllWellFormed(chunks) && WellFormed(c)
    ensures AllWellFormed(chunks + [c]) && EncodeAll(chunks + [c]) == EncodeAll(chunks) + Encode(c)
    ensures Recorded(chunks + [c], s) == Record(c, Recorded(chunks, s))
  {
  }

  /** The scan has taken these chunks off the packet. */
  ghost predicate Scanned(packet: seq<Byte>, chunks: seq<Chunk>, rest: seq<Byte>, first: Status, s: Status) {
    AllWellFormed(chunks) && packet == EncodeAll(chunks) + rest && s == Recorded(chunks, first)
  }

  lemma ScanOne(packet: seq<Byte>, chunks: seq<Chunk>, rest: seq<Byte>, first: Status, s: Status,
                c: Chunk, after: seq<Byte>)
    requires Scanned(packet, chunks, rest, first, s) && WellFormed(c) && rest == Encode(c) + after
    ensures Scanned(packet, chunks + [c], after, first, Record(c, s))
  {
    OneMore(chunks, c, first);
    Regroup(EncodeAll(chunks), Encode(c), after);
  }

  // The element that starts at position i, and what is left behind it.

  function ElementAt(all: seq<Byte>, i: nat): Chunk
    requires i < |all| && 0 < all[i] < |all| - i
  {
    Element(all[i + 1], all[i + 2..i + 1 + all[i]])
  }

  lemma SplitElement(all: seq<Byte>, i: nat)
    requires i < |all| && 0 < all[i] < |all| - i
    ensures all[i..] == Encode(ElementAt(all, i)) + all[i + 1 + all[i]..]
  {
  }

  lemma ScanPad(all: seq<Byte>, i: nat, packet: seq<Byte>, chunks: seq<Chunk>, first: Status, s: Status)
    requires i < |all| && all[i] == 0 && Scanned(packet, chunks, all[i..], first, s)
    ensures Scanned(packet, chunks + [Pad], all[i + 1..], first, s)
  {
  }

  lemma ScanElement(all: seq<Byte>, i: nat, packet: seq<Byte>, chunks: seq<Chunk>, first: Status, s: Status)
    requires i < |all| && 0 < all[i] < |all| - i && Scanned(packet, chunks, all[i..], first, s)
    ensures Scanned(packet, chunks + [ElementAt(all, i)], all[i + 1 + all[i]..], first, Record(ElementAt(all, i), s))
  {
    SplitElement(all, i);
    ScanOne(packet, chunks, all[i..], first, s, ElementAt(all, i), all[i + 1 + all[i]..]);
  }

  /** What is recorded from position i on, if s was recorded before. */
  function ScanFrom(all: seq<Byte>, i: nat, s: Status): Status
    requires i <= |all|
    decreases |all| - i
  {
    if i == |all| then s
    else if all[i] == 0 then ScanFrom(all, i + 1, s)
    else if all[i] >= |all| - i then s
    else ScanFrom(all, i + 1 + all[i], Record(ElementAt(all, i), s))
  }

  /** There is a split of the packet, and s is what it leaves recorded. */
  ghost predicate Says(packet: seq<Byte>, previous: Status, s: Status) {
    && (exists chunks, rest :: Splits(packet, chunks, rest))
    && (forall chunks, rest :: Splits(packet, chunks, rest) ==> s == Recorded(chunks, previous))
  }

  lemma {:induction false} ScanSays(
    all: seq<Byte>, i: nat, packet: seq<Byte>, chunks: seq<Chunk>, first: Status, s: Status, end: Status)
    requires i <= |all| && Scanned(packet, chunks, all[i..], first, s) && end == ScanFrom(all, i, s)
    ensures Says(packet, first, end)
    decreases |all| - i
  {
    if i == |all| || all[i] >= |all| - i {
      ScanEnds(packet, chunks, all[i..], first, s);
    } else if all[i] == 0 {
      ScanPad(all, i, packet, chunks, first, s);
      ScanSays(all, i + 1, packet, chunks + [Pad], first, s, end);
    } else {
      ScanElement(all, i, packet, chunks, first, s);
      ScanSays(all, i + 1 + all[i], packet, chunks + [ElementAt(all, i)], first, Record(ElementAt(all, i), s), end);
    }
  }

  lemma ScanEnds(packet: seq<Byte>, chunks: seq<Chunk>, rest: seq<Byte>, first: Status, s: Status)
    requires Scanned(packet, chunks, rest, first, s) && Truncated(rest)
    ensures Says(packet, first, s)
  {
    assert Splits(packet, chunks, rest);
    forall cs, r | Splits(packet, cs, r) ensures s == Recorded(cs, first) {
      SplitIsUnique(packet, chunks, rest, cs, r);
    }
  }

  /** Scans a received packet for status elements. It reads only inside the packet, and records what the last
      status element of the packet's only split says. */
  method ScanTags(data: array<Byte>, count: nat, previous: Status) returns (s: Status)
    requires HEADER_BYTES <= count <= data.Length
    ensures Says(data[..count][8..], previous, s)
  {
    ghost var all := data[..count];
    s := previous;
    var index: nat := HEADER_BYTES;
    while index < count
      invariant index <= count && ScanFrom(all, index, s) == ScanFrom(all, HEADER_BYTES, previous)
    {
      var length := data[index];
      index := index + 1;
      if length == 0 {
        continue;
      }
      if index + length > count {
        break;
      }
      var tag := data[index];
      if tag == 1 && length == 6 {
        s := Status(Word(data[index + 1], data[index + 2]), data[index + 5]);
      }
      index := index + length;
    }
    ScanSays(all, HEADER_BYTES, all[HEADER_BYTES..], [], previous, previous, ScanFrom(all, HEADER_BYTES, previous));
  }
}

/** The LED controller as it runs (led/controller.go, led/override.go): frame buffers written in place, proved
    against LedLayout and LedOutput. */
module LedController {
  import opened Options
  import opened LedLayout
  import opened LedOutput
  import opened MapOrder

  const PACKET_BYTES := 638
  const DATA_OFFSET := 126
  const SEQUENCE_BYTE := 111
  const UNIVERSE_BYTES := 113

  /** The universe number and the channel data of an sACN packet (ANSI E1.31 section 4.1). */
  function PacketUniverse(packet: seq<Byte>): int
    requires |packet| == PACKET_BYTES
  {
    var high: int, low: int := packet[UNIVERSE_BYTES], packet[UNIVERSE_BYTES + 1];
    high * 256 + low
  }

  function PacketData(packet: seq<Byte>): Frame
    requires |packet| == PACKET_BYTES
  {
    packet[DATA_OFFSET..]
  }

  /** A channel once the first n channels of a fixture have been written. */
  function PartlyDrawn(before: Frame, f: Fixture, pixels: Pixels, i: nat, n: nat, c: nat): Byte
    requires i < ZONE_FIXTURES && c < UNIVERSE_CHANNELS && n <= FIXTURE_CHANNELS
  {
    if f.startAddress - 1 <= c < f.startAddress - 1 + n then PixelByte(pixels, i, f, c) else before[c]
  }

  /** The receiving end: it shows the last packet it got for each universe number. */
  class Receiver {
    var received: map<int, Frame>

    method Write(packet: array<Byte>, fails: bool) returns (ok: bool)
      requires packet.Length == PACKET_BYTES
      modifies this
      ensures ok <==> !fails
      ensures received == if fails then old(received)
                          else old(received)[PacketUniverse(packet[..]) := PacketData(packet[..])]
    {
      if fails {
        return false;
      }
      received := received[PacketUniverse(packet[..]) := PacketData(packet[..])];
      return true;
    }
  }

  class Universe {
    const currentData: array<Byte>
    const oldData: array<Byte>
    var lastPacket: Option<int>
    var sequence: Byte

    constructor ()
      ensures Valid() && View() == NewUniverse() && fresh(currentData) && fresh(oldData)
    {
      currentData := new Byte[UNIVERSE_CHANNELS](_ => 0);
      oldData := new Byte[UNIVERSE_CHANNELS](_ => 0);
      lastPacket, sequence := None, 0;
    }

    predicate Valid() {
      currentData.Length == UNIVERSE_CHANNELS && oldData.Length == UNIVERSE_CHANNELS && currentData != oldData
    }

    function View(): UniverseState
      requires Valid()
      reads this, currentData, oldData
    {
      UniverseState(currentData[..], oldData[..], lastPacket, sequence)
    }

    method ShouldSendPacket(now: int) returns (send: bool)
      requires Valid()
      ensures send <==> ShouldSend(View(), now)
    {
      if lastPacket.None? || now - lastPacket.value >= HEARTBEAT {
        return true;
      }
      for i := 0 to UNIVERSE_CHANNELS
        invariant currentData[..i] == oldData[..i]
      {
        if currentData[i] != oldData[i] {
          assert currentData[..][i] != oldData[..][i];
          return true;
        }
      }
      assert currentData[..] == currentData[..UNIVERSE_CHANNELS] && oldData[..] == oldData[..UNIVERSE_CHANNELS];
      return false;
    }

    method MarkPacketSent(now: int)
      requires Valid()
      modifies this`lastPacket, oldData
      ensures View() == old(View()).(previous := old(View()).current, last := Some(now))
    {
      forall i | 0 <= i < UNIVERSE_CHANNELS {
        oldData[i] := currentData[i];
      }
      assert oldData[..] == currentData[..];
      lastPacket := Some(now);
    }

    method Zero()
      requires Valid()
      modifies currentData
      ensures View() == old(View()).(current := Blank())
    {
      forall i | 0 <= i < UNIVERSE_CHANNELS {
        currentData[i] := 0;
      }
      assert currentData[..] == Blank();
    }

    /** Writes the eight pixels of the fixture at place i of its zone. */
    method DrawFixture(f: Fixture, pixels: Pixels, i: nat)
      requires Valid() && Fits(f) && i < ZONE_FIXTURES
      modifies currentData
      ensures View() == old(View()).(current := PaintFixture(old(View()).current, f, pixels, i))
    {
      var startIndex := f.startAddress - 1;
      var pixelStart := i * FIXTURE_PIXELS;
      ghost var before := currentData[..];
      for j := 0 to FIXTURE_PIXELS
        invariant forall c :: 0 <= c < UNIVERSE_CHANNELS ==>
          currentData[c] == PartlyDrawn(before, f, pixels, i, j * PIXEL_CHANNELS, c)
      {
        var pixel := pixels[pixelStart + j];
        var channelStart := startIndex + j * PIXEL_CHANNELS;
        currentData[channelStart] := pixel.r;
        currentData[channelStart + 1] := pixel.g;
        currentData[channelStart + 2] := pixel.b;
        assert pixel.r == PixelByte(pixels, i, f, channelStart);
        assert pixel.g == PixelByte(pixels, i, f, channelStart + 1);
        assert pixel.b == PixelByte(pixels, i, f, channelStart + 2);
      }
      assert currentData[..] == PaintFixture(before, f, pixels, i);
    }
  }

  /** The frames on show in a set of universes. */
  function CurrentOf(views: map<int, UniverseState>): map<int, Frame> {
    map u | u in views :: views[u].current
  }

  /** The universes with new frames; those not known before are new. */
  function WithFrames(views: map<int, UniverseState>, frames: map<int, Frame>): map<int, UniverseState> {
    map u | u in frames :: Prior(views, u).(current := frames[u])
  }

  /** PaintViews over the first n fixtures: populateFixtureData on whole universes. */
  function PaintViews(views: map<int, UniverseState>, fixtures: seq<Fixture>, pixels: Pixels, n: nat)
    : map<int, UniverseState>
    requires n <= |fixtures| && n <= ZONE_FIXTURES
  {
    if n == 0 then views
    else
      var painted := PaintViews(views, fixtures, pixels, n - 1);
      var f := fixtures[n - 1];
      var s := Prior(painted, f.universe);
      painted[f.universe := s.(current := PaintFixture(s.current, f, pixels, n - 1))]
  }

  lemma FitsNext(fixtures: seq<Fixture>, i: nat)
    requires i < |fixtures| && AllFit(fixtures[..i])
    ensures Fits(fixtures[i]) <==> AllFit(fixtures[..i + 1])
    ensures !Fits(fixtures[i]) && i <= ZONE_FIXTURES ==> !AllFit(fixtures) && !RunsOutOfPixels(fixtures)
  {
    assert fixtures[..i + 1] == fixtures[..i] + [fixtures[i]];
    if i <= ZONE_FIXTURES < |fixtures| {
      assert fixtures[..ZONE_FIXTURES + 1][i] == fixtures[i];
    }
  }

  lemma NewFrame(views: map<int, UniverseState>, frames: map<int, Frame>, u: int, frame: Frame)
    requires views.Keys <= frames.Keys
    ensures Prior(WithFrames(views, frames), u).current == FrameIn(frames, u)
    ensures WithFrames(views, frames[u := frame]) ==
      WithFrames(views, frames)[u := Prior(WithFrames(views, frames), u).(current := frame)]
  {
  }

  /** Painting touches the frames and nothing else of a universe. */
  lemma {:induction false} PaintViewsPaints(
    views: map<int, UniverseState>, fixtures: seq<Fixture>, pixels: Pixels, n: nat)
    requires n <= |fixtures| <= ZONE_FIXTURES
    ensures views.Keys <= Paint(CurrentOf(views), fixtures, pixels, n).Keys
    ensures PaintViews(views, fixtures, pixels, n) ==
      WithFrames(views, Paint(CurrentOf(views), fixtures, pixels, n))
  {
    if n == 0 {
      assert WithFrames(views, CurrentOf(views)) == views;
    } else {
      PaintViewsPaints(views, fixtures, pixels, n - 1);
      var frames := Paint(CurrentOf(views), fixtures, pixels, n - 1);
      var f := fixtures[n - 1];
      var frame := PaintFixture(FrameIn(frames, f.universe), f, pixels, n - 1);
      NewFrame(views, frames, f.universe, frame);
    }
  }

  /** Painting onto universes that already show `frames`. */
  lemma PaintOver(views: map<int, UniverseState>, frames: map<int, Frame>, fixtures: seq<Fixture>, pixels: Pixels)
    requires |fixtures| <= ZONE_FIXTURES && views.Keys <= frames.Keys
    ensures frames.Keys <= Paint(frames, fixtures, pixels, |fixtures|).Keys
    ensures PaintViews(WithFrames(views, frames), fixtures, pixels, |fixtures|) ==
      WithFrames(views, Paint(frames, fixtures, pixels, |fixtures|))
  {
    var middle := WithFrames(views, frames);
    PaintViewsPaints(middle, fixtures, pixels, |fixtures|);
    assert CurrentOf(middle) == frames;
  }

  lemma SetTwice(views: map<int, UniverseState>, u: int, a: UniverseState, b: UniverseState)
    ensures views[u := a][u := b] == views[u := b]
  {
  }

  function Counted(s: UniverseState): UniverseState {
    s.(sequence := (s.sequence + 1) % 256)
  }

  function Marked(s: UniverseState, now: int): UniverseState {
    s.(previous := s.current, last := Some(now))
  }

  lemma CountedThenMarked(views: map<int, UniverseState>, u: int, now: int)
    requires u in views
    ensures var counted := views[u := Counted(views[u])];
      && counted[u].current == views[u].current
      && counted[u := Marked(counted[u], now)] == views[u := MarkSent(views[u], now)]
  {
  }

  predicate Separate(a: Universe, b: Universe) {
    a != b && {a.currentData, a.oldData} !! {b.currentData, b.oldData}
  }

  // ----- going through the universes one by one

  lemma ListsOnly(order: seq<int>, views: map<int, UniverseState>)
    requires Lists(order, views.Keys)
    ensures Among(order, views)
  {
    ListsEach(order, views.Keys);
  }

  ghost predicate Among(order: seq<int>, views: map<int, UniverseState>) {
    forall i :: 0 <= i < |order| ==> order[i] in views
  }

  ghost function ZeroFirst(views: map<int, UniverseState>, order: seq<int>, n: nat): (r: map<int, UniverseState>)
    requires n <= |order| && Among(order, views)
    ensures r.Keys == views.Keys
  {
    if n == 0 then views
    else
      var zeroed := ZeroFirst(views, order, n - 1);
      zeroed[order[n - 1] := zeroed[order[n - 1]].(current := Blank())]
  }

  type ZeroStages = seq<map<int, UniverseState>>

  /** What the universes hold after each one is blanked. */
  ghost predicate Zeroes(stages: ZeroStages, start: map<int, UniverseState>, order: seq<int>)
    requires Among(order, start)
  {
    && |stages| == |order| + 1
    && forall j {:trigger ZeroFirst(start, order, j)} :: 0 <= j <= |order| ==> stages[j] == ZeroFirst(start, order, j)
  }

  lemma NextZeroed(stages: ZeroStages, start: map<int, UniverseState>, order: seq<int>, k: nat)
    requires Among(order, start) && Zeroes(stages, start, order) && k < |order|
    ensures order[k] in stages[k]
    ensures stages[k + 1] == stages[k][order[k] := stages[k][order[k]].(current := Blank())]
  {
    assert stages[k] == ZeroFirst(start, order, k);
    assert stages[k + 1] == ZeroFirst(start, order, k + 1);
  }

  lemma {:induction false} ZeroedFirst(views: map<int, UniverseState>, order: seq<int>, n: nat, u: int)
    requires n <= |order| && Among(order, views) && u in views
    ensures ZeroFirst(views, order, n)[u] == if u in order[..n] then views[u].(current := Blank()) else views[u]
  {
    if n > 0 {
      ZeroedFirst(views, order, n - 1, u);
      assert order[..n] == order[..n - 1] + [order[n - 1]];
    }
  }

  lemma ZeroedAll(views: map<int, UniverseState>, order: seq<int>)
    requires Lists(order, views.Keys) && Among(order, views)
    ensures ZeroFirst(views, order, |order|) == WithFrames(views, BlankFrames(views.Keys))
  {
    assert order[..|order|] == order;
    ListsEach(order, views.Keys);
    forall u | u in views ensures ZeroFirst(views, order, |order|)[u] == views[u].(current := Blank()) {
      ZeroedFirst(views, order, |order|, u);
    }
  }

  /** Where an Update has got to: the universes, what the receiver shows, and whether every write succeeded. */
  datatype Progress = Progress(views: map<int, UniverseState>, shown: map<int, Frame>, ok: bool)

  function SendOne(p: Progress, u: int, clock: Clock, fails: set<int>): Progress {
    if u !in p.views || !ShouldSend(p.views[u], clock.check(u)) then p
    else
      Progress(p.views[u := MarkSent(p.views[u], clock.sent(u))],
               if u in fails then p.shown else p.shown[Wire(u) := p.views[u].current],
               u !in fails)
  }

  /** The first n universes gone through in order, up to the first failed write. */
  ghost function SendFirst(p: Progress, order: seq<int>, n: nat, clock: Clock, fails: set<int>): (r: Progress)
    requires n <= |order|
    ensures r.views.Keys == p.views.Keys
  {
    if n == 0 then p
    else
      var sent := SendFirst(p, order, n - 1, clock, fails);
      if sent.ok then SendOne(sent, order[n - 1], clock, fails) else sent
  }

  /** How far sending has got after each universe. */
  ghost predicate Stages(stages: seq<Progress>, start: Progress, order: seq<int>, clock: Clock, fails: set<int>) {
    && |stages| == |order| + 1
    && forall j {:trigger SendFirst(start, order, j, clock, fails)} :: 0 <= j <= |order| ==>
         stages[j] == SendFirst(start, order, j, clock, fails)
  }

  lemma NextStage(stages: seq<Progress>, start: Progress, order: seq<int>, k: nat, clock: Clock, fails: set<int>)
    requires Lists(order, start.views.Keys) && Stages(stages, start, order, clock, fails)
    requires k < |order| && stages[k].ok
    ensures order[k] in stages[k].views && stages[k + 1] == SendOne(stages[k], order[k], clock, fails)
  {
    assert stages[k] == SendFirst(start, order, k, clock, fails);
    assert stages[k + 1] == SendFirst(start, order, k + 1, clock, fails);
    ListsEach(order, start.views.Keys);
  }

  lemma {:induction false} StopsAtFailure(p: Progress, order: seq<int>, k: nat, n: nat, clock: Clock, fails: set<int>)
    requires k <= n <= |order| && !SendFirst(p, order, k, clock, fails).ok
    ensures SendFirst(p, order, n, clock, fails) == SendFirst(p, order, k, clock, fails)
    decreases n - k
  {
    if k < n {
      StopsAtFailure(p, order, k, n - 1, clock, fails);
    }
  }

  /** While no write has failed, the universes gone through are refreshed and the others as they were. */
  lemma {:induction false} SentSoFar(p: Progress, order: seq<int>, n: nat, clock: Clock, fails: set<int>, u: int)
    requires Lists(order, p.views.Keys) && n <= |order| && u in p.views && SendFirst(p, order, n, clock, fails).ok
    ensures SendFirst(p, order, n, clock, fails).views[u] ==
      if u in order[..n] then Refreshed(p.views[u], u, clock) else p.views[u]
  {
    if n > 0 {
      SentSoFar(p, order, n - 1, clock, fails, u);
      assert order[..n] == order[..n - 1] + [order[n - 1]];
      ListsOnce(order, p.views.Keys, n - 1, order[n - 1]);
    }
  }

  /** The universe next in order is as it was. */
  lemma NotYetSent(p: Progress, order: seq<int>, n: nat, clock: Clock, fails: set<int>)
    requires Lists(order, p.views.Keys) && n < |order| && SendFirst(p, order, n, clock, fails).ok
    ensures order[n] in p.views && SendFirst(p, order, n, clock, fails).views[order[n]] == p.views[order[n]]
  {
    ListsEach(order, p.views.Keys);
    SentSoFar(p, order, n, clock, fails, order[n]);
    ListsOnce(order, p.views.Keys, n, order[n]);
  }

  predicate WriteFails(views: map<int, UniverseState>, u: int, clock: Clock, fails: set<int>) {
    u in views && u in fails && ShouldSend(views[u], clock.check(u))
  }

  /** A write fails exactly if that of some universe due does. */
  lemma {:induction false} FailsExactly(p: Progress, order: seq<int>, n: nat, clock: Clock, fails: set<int>)
    requires Lists(order, p.views.Keys) && n <= |order| && p.ok
    ensures SendFirst(p, order, n, clock, fails).ok <==>
      forall i :: 0 <= i < n ==> !WriteFails(p.views, order[i], clock, fails)
  {
    if n > 0 {
      FailsExactly(p, order, n - 1, clock, fails);
      if SendFirst(p, order, n - 1, clock, fails).ok {
        NotYetSent(p, order, n - 1, clock, fails);
      }
    }
  }

  predicate DueOn(views: map<int, UniverseState>, u: int, clock: Clock, wire: int) {
    u in views && ShouldSend(views[u], clock.check(u)) && Wire(u) == wire
  }

  ghost predicate NoneOn(views: map<int, UniverseState>, order: seq<int>, n: nat, clock: Clock, wire: int)
    requires n <= |order|
  {
    forall j :: 0 <= j < n ==> !DueOn(views, order[j], clock, wire)
  }

  /** A universe among the first n was due under this number, and is shown. */
  ghost predicate WrittenOn(
    shown: map<int, Frame>, views: map<int, UniverseState>, order: seq<int>, n: nat, clock: Clock, wire: int)
    requires n <= |order|
  {
    exists j :: 0 <= j < n && DueOn(views, order[j], clock, wire) && wire in shown
                && shown[wire] == views[order[j]].current
  }

  lemma {:induction false} Delivered(p: Progress, order: seq<int>, n: nat, clock: Clock, fails: set<int>, wire: int)
    requires Lists(order, p.views.Keys) && n <= |order| && SendFirst(p, order, n, clock, fails).ok
    ensures var shown := SendFirst(p, order, n, clock, fails).shown;
      if NoneOn(p.views, order, n, clock, wire)
      then (wire in shown <==> wire in p.shown) && (wire in p.shown ==> shown[wire] == p.shown[wire])
      else WrittenOn(shown, p.views, order, n, clock, wire)
  {
    if n > 0 {
      Delivered(p, order, n - 1, clock, fails, wire);
      NotYetSent(p, order, n - 1, clock, fails);
      var u := order[n - 1];
      if DueOn(p.views, u, clock, wire) {
        assert SendFirst(p, order, n, clock, fails).shown[wire] == p.views[order[n - 1]].current;
      }
    }
  }

  /** How an Update ends. */
  datatype UpdateEnd = Returned | ReturnedError | Panicked

  class Controller {
    var connected: bool
    var layout: Layout
    var universes: map<int, Universe>
    const packet: array<Byte>
    const receiver: Receiver
    /** What the universes hold, and the objects that hold it. */
    ghost var views: map<int, UniverseState>
    ghost var Repr: set<object>

    constructor (receiver: Receiver, layout: Layout)
      ensures Valid() && this.receiver == receiver && this.layout == layout && views == map[]
      ensures fresh(packet) && Repr == {} && !connected
    {
      this.receiver := receiver;
      this.layout := layout;
      connected := false;
      universes := map[];
      packet := new Byte[PACKET_BYTES](_ => 0);
      views := map[];
      Repr := {};
    }

    ghost predicate Holds(u: int, universe: Universe)
      reads this, Repr
    {
      && universe in Repr && universe.currentData in Repr && universe.oldData in Repr
      && universe.Valid() && u in views && universe.View() == views[u]
    }

    ghost predicate Valid()
      reads this, Repr
    {
      && packet.Length == PACKET_BYTES && Repr !! {this, packet, receiver}
      && views.Keys == universes.Keys
      && (forall u :: u in universes ==> Holds(u, universes[u]))
      && (forall u, v :: u in universes && v in universes && u != v ==> Separate(universes[u], universes[v]))
    }

    ghost function Out(): Output
      reads this, receiver
    {
      Output(layout, views, receiver.received)
    }

    method SetLayout(red: seq<Fixture>, blue: seq<Fixture>) returns (ok: bool)
      requires Valid()
      modifies this
      ensures Valid() && connected == old(connected) && Repr == old(Repr)
      ensures ok <==> Admissible(Layout(red, blue))
      ensures if ok then layout == Layout(red, blue) && views == map[]
              else layout == old(layout) && views == old(views)
    {
      var redFixtures := BuildFixtures(red);
      if redFixtures.None? {
        return false;
      }
      var blueFixtures := BuildFixtures(blue);
      if blueFixtures.None? {
        return false;
      }
      ok := CheckOverlap(red + blue);
      if ok {
        layout := Layout(redFixtures.value, blueFixtures.value);
        universes := map[];
        views := map[];
      }
    }

    method UseDefaultLayout()
      requires Valid()
      modifies this
      ensures Valid() && connected == old(connected) && Repr == old(Repr)
      ensures layout == DefaultLayout() && Renderable(layout) && views == map[]
    {
      DefaultLayoutIsAdmissible();
      layout := DefaultLayout();
      universes := map[];
      views := map[];
    }

    /** Makes sure a universe has its buffers. */
    method FindUniverse(u: int)
      requires Valid()
      modifies this`universes, this`views, this`Repr
      ensures Valid() && fresh(Repr - old(Repr)) && old(Repr) <= Repr
      ensures views == old(views)[u := Prior(old(views), u)]
    {
      if u !in universes {
        MakeUniverse(u);
      } else {
        assert views == views[u := views[u]];
      }
    }

    method MakeUniverse(u: int)
      requires Valid() && u !in universes
      modifies this`universes, this`views, this`Repr
      ensures Valid() && fresh(Repr - old(Repr)) && old(Repr) <= Repr
      ensures views == old(views)[u := NewUniverse()]
    {
      var universe := new Universe();
      universes := universes[u := universe];
      views := views[u := NewUniverse()];
      Repr := Repr + {universe, universe.currentData, universe.oldData};
      forall v | v in universes && v != u ensures Holds(v, universes[v]) && Separate(universes[v], universe) {
        assert old(Holds(v, universes[v]));
      }
    }

    /** Draws one fixture into a universe that has its buffers. */
    method Draw(f: Fixture, pixels: Pixels, i: nat)
      requires Valid() && Fits(f) && i < ZONE_FIXTURES && f.universe in universes
      modifies this`views, universes[f.universe].currentData
      ensures Valid()
      ensures var s := old(views)[f.universe];
        views == old(views)[f.universe := s.(current := PaintFixture(s.current, f, pixels, i))]
    {
      var universe := universes[f.universe];
      assert Holds(f.universe, universe);
      universe.DrawFixture(f, pixels, i);
      views := views[f.universe := universe.View()];
      OthersStillHold(f.universe);
    }

    /** Only universe u was written to, and what it holds recorded. */
    twostate lemma OthersStillHold(u: int)
      requires old(Valid()) && u in universes && universes == old(universes) && Repr == old(Repr)
      requires universes[u].Valid() && views == old(views)[u := universes[u].View()]
      requires forall o: object :: o in Repr && o !in {universes[u], universes[u].currentData, universes[u].oldData} ==>
        unchanged(o)
      ensures Valid()
    {
      forall v | v in universes ensures Holds(v, universes[v]) {
        assert old(Holds(v, universes[v]));
        if v != u {
          assert Separate(universes[v], universes[u]);
        }
      }
    }

    method DrawInto(f: Fixture, pixels: Pixels, i: nat)
      requires Valid() && Fits(f) && i < ZONE_FIXTURES
      modifies this`universes, this`views, this`Repr, Repr
      ensures Valid() && fresh(Repr - old(Repr)) && old(Repr) <= Repr
      ensures var s := Prior(old(views), f.universe);
        views == old(views)[f.universe := s.(current := PaintFixture(s.current, f, pixels, i))]
    {
      ghost var before := views;
      FindUniverse(f.universe);
      assert Holds(f.universe, universes[f.universe]);
      Draw(f, pixels, i);
      SetTwice(before, f.universe, Prior(before, f.universe), views[f.universe]);
    }

    /** Goes on to the ith fixture. */
    method DrawNext(fixtures: seq<Fixture>, pixels: Pixels, i: nat, ghost start: map<int, UniverseState>)
      requires Valid() && i < |fixtures| && i < ZONE_FIXTURES && Fits(fixtures[i])
      requires views == PaintViews(start, fixtures, pixels, i)
      modifies this`universes, this`views, this`Repr, Repr
      ensures Valid() && fresh(Repr - old(Repr)) && old(Repr) <= Repr
      ensures views == PaintViews(start, fixtures, pixels, i + 1)
    {
      DrawInto(fixtures[i], pixels, i);
    }

    /** Renders a zone into the universes' buffers, stopping at the first fixture that does not fit; a ninth fixture
        that fits has no pixels to be read. */
    method PopulateFixtureData(fixtures: seq<Fixture>, pixels: Pixels) returns (end: Rendering)
      requires Valid()
      modifies this`universes, this`views, this`Repr, Repr
      ensures Valid() && fresh(Repr - old(Repr)) && old(Repr) <= Repr
      ensures end == OutOfPixels <==> RunsOutOfPixels(fixtures)
      ensures end == Painted <==> AllFit(fixtures) && |fixtures| <= ZONE_FIXTURES
      ensures end == Painted ==> views == PaintViews(old(views), fixtures, pixels, |fixtures|)
    {
      for i := 0 to |fixtures|
        invariant Valid() && fresh(Repr - old(Repr)) && old(Repr) <= Repr
        invariant i <= ZONE_FIXTURES && AllFit(fixtures[..i])
        invariant views == PaintViews(old(views), fixtures, pixels, i)
      {
        var f := fixtures[i];
        FitsNext(fixtures, i);
        if f.universe <= 0 {
          return BadFixture;
        }
        var startIndex := f.startAddress - 1;
        if startIndex < 0 || startIndex + FIXTURE_CHANNELS > UNIVERSE_CHANNELS {
          return BadFixture;
        }
        if i * FIXTURE_PIXELS >= |pixels| {
          FindUniverse(f.universe);
          return OutOfPixels;
        }
        DrawNext(fixtures, pixels, i, old(views));
      }
      assert fixtures[..|fixtures|] == fixtures;
      return Painted;
    }

    method ZeroOne(u: int)
      requires Valid() && u in universes
      modifies this`views, universes[u].currentData
      ensures Valid() && views == old(views)[u := old(views)[u].(current := Blank())]
    {
      var universe := universes[u];
      assert Holds(u, universe);
      universe.Zero();
      views := views[u := universe.View()];
      OthersStillHold(u);
    }

    /** The universes, in the order the map happens to be gone through in. */
    method ListUniverses() returns (order: seq<int>)
      requires Valid()
      ensures Valid() && Lists(order, views.Keys) && Among(order, views)
    {
      order := ListKeys(universes.Keys);
      ListsOnly(order, views);
    }

    /** Goes on to the kth universe. */
    method ZeroNth(order: seq<int>, k: nat, ghost start: map<int, UniverseState>, ghost stages: ZeroStages)
      requires Valid() && k < |order| && Among(order, start) && Zeroes(stages, start, order) && views == stages[k]
      modifies this`views, Repr
      ensures Valid() && views == stages[k + 1]
    {
      NextZeroed(stages, start, order, k);
      assert Holds(order[k], universes[order[k]]);
      ZeroOne(order[k]);
    }

    method ZeroInOrder(order: seq<int>, ghost start: map<int, UniverseState>, ghost stages: ZeroStages)
      requires Valid() && Among(order, start) && Zeroes(stages, start, order) && views == stages[0]
      modifies this`views, Repr
      ensures Valid() && views == stages[|order|]
    {
      for n := 0 to |order|
        invariant Valid() && views == stages[n]
      {
        ZeroNth(order, n, start, stages);
      }
    }

    method ZeroUniverses() returns (ghost order: seq<int>)
      requires Valid()
      modifies this`views, Repr
      ensures Valid() && Lists(order, old(views).Keys) && Among(order, old(views))
      ensures views == ZeroFirst(old(views), order, |order|)
    {
      var list := ListUniverses();
      ghost var start := views;
      ghost var stages := seq(|list| + 1, j requires 0 <= j <= |list| => ZeroFirst(start, list, j));
      ZeroInOrder(list, start, stages);
      order := list;
    }

    method FillPacket(u: int)
      requires Valid() && u in universes
      modifies packet
      ensures Valid() && PacketUniverse(packet[..]) == Wire(u) && PacketData(packet[..]) == views[u].current
      ensures packet[111] == views[u].sequence
      ensures packet[113] == u / 256 % 256 && packet[114] == u % 256 && packet[126..] == views[u].current
    {
      var universe := universes[u];
      assert Holds(u, universe);
      packet[SEQUENCE_BYTE] := universe.sequence;
      packet[UNIVERSE_BYTES] := u / 256 % 256;
      packet[UNIVERSE_BYTES + 1] := u % 256;
      forall c | 0 <= c < UNIVERSE_CHANNELS {
        packet[DATA_OFFSET + c] := universe.currentData[c];
      }
      assert PacketData(packet[..]) == universe.currentData[..];
    }

    method WritePacket(u: int, fails: bool) returns (ok: bool)
      requires Valid() && u in universes
      modifies packet, receiver
      ensures Valid() && (ok <==> !fails)
      ensures receiver.received ==
        if fails then old(receiver.received) else old(receiver.received)[Wire(u) := views[u].current]
    {
      FillPacket(u);
      ok := receiver.Write(packet, fails);
    }

    method Count(u: int)
      requires Valid() && u in universes
      modifies this`views, universes[u]
      ensures Valid() && views == old(views)[u := Counted(old(views)[u])]
    {
      var universe := universes[u];
      assert Holds(u, universe);
      universe.sequence := (universe.sequence + 1) % 256;
      views := views[u := universe.View()];
      OthersStillHold(u);
    }

    method Mark(u: int, now: int)
      requires Valid() && u in universes
      modifies this`views, universes[u], universes[u].oldData
      ensures Valid() && views == old(views)[u := Marked(old(views)[u], now)]
    {
      var universe := universes[u];
      assert Holds(u, universe);
      universe.MarkPacketSent(now);
      views := views[u := universe.View()];
      OthersStillHold(u);
    }

    /** Sends a universe's frame; a write that fails is marked sent all the same. */
    method SendPacket(u: int, fails: bool, now: int) returns (ok: bool)
      requires Valid() && u in universes
      modifies this`views, universes[u], universes[u].oldData, packet, receiver
      ensures Valid() && (ok <==> !fails)
      ensures views == old(views)[u := MarkSent(old(views)[u], now)]
      ensures receiver.received ==
        if fails then old(receiver.received) else old(receiver.received)[Wire(u) := old(views)[u].current]
    {
      CountedThenMarked(views, u, now);
      Count(u);
      ok := WritePacket(u, fails);
      Mark(u, now);
    }

    /** Sends a universe if it is due. */
    method SendNext(u: int, clock: Clock, fails: set<int>) returns (ok: bool)
      requires Valid() && u in universes
      modifies this`views, Repr, packet, receiver
      ensures Valid()
      ensures Progress(views, receiver.received, ok) ==
        SendOne(Progress(old(views), old(receiver.received), true), u, clock, fails)
    {
      assert Holds(u, universes[u]);
      var send := universes[u].ShouldSendPacket(clock.check(u));
      ok := true;
      if send {
        ok := SendPacket(u, u in fails, clock.sent(u));
      }
    }

    /** Goes on to the kth universe. */
    method SendNth(
      order: seq<int>, k: nat, clock: Clock, fails: set<int>, ghost start: Progress, ghost stages: seq<Progress>)
      returns (ok: bool)
      requires Valid() && k < |order| && Lists(order, start.views.Keys) && Stages(stages, start, order, clock, fails)
      requires Progress(views, receiver.received, true) == stages[k]
      modifies this`views, Repr, packet, receiver
      ensures Valid() && Progress(views, receiver.received, ok) == stages[k + 1]
    {
      NextStage(stages, start, order, k, clock, fails);
      ok := SendNext(order[k], clock, fails);
    }

    /** Goes through the universes up to the first whose write fails. */
    method SendInOrder(
      order: seq<int>, clock: Clock, fails: set<int>, ghost start: Progress, ghost stages: seq<Progress>)
      returns (ok: bool, k: nat)
      requires Valid() && Lists(order, start.views.Keys) && Stages(stages, start, order, clock, fails)
      requires Progress(views, receiver.received, true) == stages[0]
      modifies this`views, Repr, packet, receiver
      ensures Valid() && k <= |order| && (ok ==> k == |order|)
      ensures Progress(views, receiver.received, ok) == stages[k]
    {
      ok, k := true, 0;
      while k < |order| && ok
        invariant k <= |order| && Valid()
        invariant Progress(views, receiver.received, ok) == stages[k]
      {
        ok := SendNth(order, k, clock, fails, start, stages);
        k := k + 1;
      }
    }

    /** Sends the universes that are due, up to the first whose write fails. */
    method SendDue(order: seq<int>, clock: Clock, fails: set<int>) returns (ok: bool)
      requires Valid() && Lists(order, views.Keys)
      modifies this`views, Repr, packet, receiver
      ensures Valid()
      ensures Progress(views, receiver.received, ok) ==
        SendFirst(Progress(old(views), old(receiver.received), true), order, |order|, clock, fails)
    {
      ghost var start := Progress(views, receiver.received, true);
      ghost var stages :=
        seq(|order| + 1, j requires 0 <= j <= |order| => SendFirst(start, order, j, clock, fails));
      var k: nat;
      ok, k := SendInOrder(order, clock, fails, start, stages);
      if !ok {
        StopsAtFailure(start, order, k, |order|, clock, fails);
      }
    }

    method BlankUniverses()
      requires Valid()
      modifies this`views, Repr
      ensures Valid() && views == WithFrames(old(views), BlankFrames(old(views).Keys))
    {
      ghost var order := ZeroUniverses();
      ZeroedAll(old(views), order);
    }

    /** Renders both zones onto blanked universes. */
    method RenderZones(red: Pixels, blue: Pixels) returns (end: Rendering)
      requires Valid()
      modifies this`universes, this`views, this`Repr, Repr
      ensures Valid() && fresh(Repr - old(Repr))
      ensures end == LayoutRendering(layout)
      ensures end == Painted ==> views == BothZones(old(views), layout, red, blue)
    {
      BlankUniverses();
      end := PopulateFixtureData(layout.red, red);
      if end == Painted {
        end := PopulateFixtureData(layout.blue, blue);
      }
    }

    /** Sends what is due once both zones are rendered. */
    method SendRendered(clock: Clock, ghost before: map<int, UniverseState>, ghost red: Pixels, ghost blue: Pixels,
                        fails: set<int>)
      returns (ok: bool, order: seq<int>)
      requires Valid() && Renderable(layout) && views == BothZones(before, layout, red, blue)
      modifies this`views, Repr, packet, receiver
      ensures Valid()
      ensures var o := Output(layout, before, old(receiver.received));
        Updated(o, Out(), Frames(o, red, blue), order, clock, fails, ok)
    {
      RenderedViews(before, layout, red, blue);
      order := ListUniverses();
      ok := SendDue(order, clock, fails);
    }

    /** Renders both zones, and sends what is due. The clock is read when a universe is looked at and again when it is
        marked sent. The failing writes are those of the universes in `fails`; the first of them ends the Update. */
    method Update(clock: Clock, red: Pixels, blue: Pixels, fails: set<int>) returns (end: UpdateEnd, order: seq<int>)
      requires Valid()
      modifies this`universes, this`views, this`Repr, Repr, packet, receiver
      ensures Valid() && fresh(Repr - old(Repr))
      ensures !connected ==> end == Returned && Out() == old(Out())
      ensures connected ==> (end == Panicked <==> LayoutRendering(layout) == OutOfPixels)
      ensures connected && LayoutRendering(layout) != Painted ==>
        end != Returned && receiver.received == old(receiver.received)
      ensures connected && LayoutRendering(layout) == Painted ==>
        Updated(old(Out()), Out(), Frames(old(Out()), red, blue), order, clock, fails, end == Returned)
    {
      order := [];
      if !connected {
        return Returned, order;
      }
      var rendered := RenderZones(red, blue);
      if rendered == OutOfPixels {
        return Panicked, order;
      }
      if rendered == BadFixture {
        return ReturnedError, order;
      }
      var ok: bool;
      ok, order := SendRendered(clock, old(views), red, blue, fails);
      end := if ok then Returned else ReturnedError;
    }
  }

  /** The universes are ready with their frames, and have been gone through in this order. */
  ghost predicate Updated(
    o: Output, p: Output, frames: map<int, Frame>, order: seq<int>, clock: Clock, fails: set<int>, ok: bool)
  {
    var ready := WithFrames(o.views, frames);
    && p.layout == o.layout && Lists(order, ready.Keys)
    && Progress(p.views, p.received, ok) ==
         SendFirst(Progress(ready, o.received, true), order, |order|, clock, fails)
  }

  /** Both zones painted onto blanked universes. */
  function BothZones(views: map<int, UniverseState>, layout: Layout, red: Pixels, blue: Pixels)
    : map<int, UniverseState>
    requires Renderable(layout)
  {
    var half := PaintViews(WithFrames(views, BlankFrames(views.Keys)), layout.red, red, |layout.red|);
    PaintViews(half, layout.blue, blue, |layout.blue|)
  }

  lemma RenderedViews(views: map<int, UniverseState>, layout: Layout, red: Pixels, blue: Pixels)
    requires Renderable(layout)
    ensures BothZones(views, layout, red, blue) == WithFrames(views, Render(views.Keys, layout, red, blue))
  {
    var blank := BlankFrames(views.Keys);
    PaintOver(views, blank, layout.red, red);
    PaintOver(views, Paint(blank, layout.red, red, |layout.red|), layout.blue, blue);
  }

  /** The first n universes of an order. */
  function FirstOf(order: seq<int>, n: nat): set<int>
    requires n <= |order|
  {
    set u | u in order[..n]
  }

  /** An Update that returns no error is the Update of LedOutput, whatever order the universes went out in, and it
      returns one exactly when the write of a universe that was due failed. */
  lemma SuccessfulUpdate(
    o: Output, p: Output, red: Pixels, blue: Pixels, order: seq<int>, clock: Clock, fails: set<int>, ok: bool)
    requires Renderable(o.layout) && Updated(o, p, Frames(o, red, blue), order, clock, fails, ok)
    ensures ok <==> forall u :: u in fails ==> !Due(o, u, Frames(o, red, blue), clock)
    ensures ok ==> Updates(o, p, clock, red, blue)
  {
    var frames := Frames(o, red, blue);
    assert WithFrames(o.views, frames).Keys == frames.Keys;
    NoDueFails(o, frames, order, clock, fails);
    if ok {
      FirstReached(o, p, frames, order, |order|, clock, fails);
      ListsEach(order, frames.Keys);
      assert FirstOf(order, |order|) == frames.Keys;
    }
  }

  /** One that returns an error is the one of LedOutput that ends at the failed write. */
  lemma FailedUpdate(
    o: Output, p: Output, red: Pixels, blue: Pixels, order: seq<int>, clock: Clock, fails: set<int>) returns (k: nat)
    requires Renderable(o.layout) && Updated(o, p, Frames(o, red, blue), order, clock, fails, false)
    ensures k < |order| && order[k] in fails && Breaks(o, p, clock, red, blue, FirstOf(order, k), order[k])
  {
    var frames := Frames(o, red, blue);
    var start := Progress(WithFrames(o.views, frames), o.received, true);
    assert start.views.Keys == frames.Keys;
    k := FirstFailure(start, order, |order|, clock, fails);
    var mid := SendFirst(start, order, k, clock, fails);
    StopsAtFailure(start, order, k + 1, |order|, clock, fails);
    FailingWrite(start, order, k, clock, fails);
    ListsOnce(order, frames.Keys, k, order[k]);
    ListsEach(order, frames.Keys);
    BrokenOff(o, Output(o.layout, mid.views, mid.shown), p, frames, order, k, clock, fails);
  }

  /** What the first failing write does. */
  lemma FailingWrite(start: Progress, order: seq<int>, k: nat, clock: Clock, fails: set<int>)
    requires Lists(order, start.views.Keys) && k < |order|
    requires SendFirst(start, order, k, clock, fails).ok && !SendFirst(start, order, k + 1, clock, fails).ok
    ensures WriteFails(start.views, order[k], clock, fails)
    ensures var mid := SendFirst(start, order, k, clock, fails);
      SendFirst(start, order, k + 1, clock, fails) ==
        Progress(mid.views[order[k] := MarkSent(start.views[order[k]], clock.sent(order[k]))], mid.shown, false)
  {
    NotYetSent(start, order, k, clock, fails);
  }

  /** Where sending stops: the first write that fails. */
  lemma {:induction false} FirstFailure(p: Progress, order: seq<int>, n: nat, clock: Clock, fails: set<int>)
    returns (k: nat)
    requires n <= |order| && p.ok && !SendFirst(p, order, n, clock, fails).ok
    ensures k < n && SendFirst(p, order, k, clock, fails).ok && !SendFirst(p, order, k + 1, clock, fails).ok
  {
    if SendFirst(p, order, n - 1, clock, fails).ok {
      k := n - 1;
    } else {
      k := FirstFailure(p, order, n - 1, clock, fails);
    }
  }

  /** A failed write changes nothing but the universe's mark. */
  lemma BrokenOff(
    o: Output, q: Output, p: Output, frames: map<int, Frame>, order: seq<int>, k: nat, clock: Clock, fails: set<int>)
    requires Lists(order, frames.Keys) && k < |order| && order[k] in frames && order[k] !in order[..k]
    requires Progress(q.views, q.received, true) ==
      SendFirst(Progress(WithFrames(o.views, frames), o.received, true), order, k, clock, fails)
    requires p.received == q.received
    requires p.views == q.views[order[k] := MarkSent(Ready(o, order[k], frames), clock.sent(order[k]))]
    ensures Reaches(o, p, frames, clock, FirstOf(order, k))
    ensures forall u :: u in frames && u !in FirstOf(order, k) && u != order[k] ==> p.views[u] == Ready(o, u, frames)
  {
    FirstReached(o, q, frames, order, k, clock, fails);
    var tried := FirstOf(order, k);
    forall u | u in tried && Due(o, u, frames, clock)
      ensures FromWire(o, p, Wire(u), frames, clock, tried)
    {
      assert FromWire(o, q, Wire(u), frames, clock, tried);
    }
    forall w | forall u :: u in tried && Due(o, u, frames, clock) ==> Wire(u) != w
      ensures StillShown(o, p, w)
    {
      assert StillShown(o, q, w);
    }
  }

  lemma NoDueFails(o: Output, frames: map<int, Frame>, order: seq<int>, clock: Clock, fails: set<int>)
    requires Lists(order, frames.Keys)
    ensures SendFirst(Progress(WithFrames(o.views, frames), o.received, true), order, |order|, clock, fails).ok <==>
      forall u :: u in fails ==> !Due(o, u, frames, clock)
  {
    var start := Progress(WithFrames(o.views, frames), o.received, true);
    assert start.views.Keys == frames.Keys;
    ListsEach(order, frames.Keys);
    FailsExactly(start, order, |order|, clock, fails);
    assert forall u :: WriteFails(start.views, u, clock, fails) <==> u in fails && Due(o, u, frames, clock);
    if u :| u in fails && Due(o, u, frames, clock) {
      var i :| 0 <= i < |order| && order[i] == u;
      assert WriteFails(start.views, order[i], clock, fails);
    }
  }

  /** As long as no write has failed, the universes gone through are reached and the others are ready. */
  lemma FirstReached(
    o: Output, q: Output, frames: map<int, Frame>, order: seq<int>, n: nat, clock: Clock, fails: set<int>)
    requires Lists(order, frames.Keys) && n <= |order|
    requires Progress(q.views, q.received, true) ==
      SendFirst(Progress(WithFrames(o.views, frames), o.received, true), order, n, clock, fails)
    ensures Reaches(o, q, frames, clock, FirstOf(order, n))
    ensures forall u :: u in frames && u !in FirstOf(order, n) ==> q.views[u] == Ready(o, u, frames)
  {
    var start := Progress(WithFrames(o.views, frames), o.received, true);
    assert start.views.Keys == frames.Keys;
    FirstDelivered(o, q, frames, order, n, clock, fails);
    forall u | u in frames
      ensures q.views[u] ==
        if u in FirstOf(order, n) then Refreshed(Ready(o, u, frames), u, clock) else Ready(o, u, frames)
    {
      SentSoFar(start, order, n, clock, fails, u);
    }
  }

  lemma FirstDelivered(
    o: Output, q: Output, frames: map<int, Frame>, order: seq<int>, n: nat, clock: Clock, fails: set<int>)
    requires Lists(order, frames.Keys) && n <= |order|
    requires Progress(q.views, q.received, true) ==
      SendFirst(Progress(WithFrames(o.views, frames), o.received, true), order, n, clock, fails)
    ensures forall u :: u in FirstOf(order, n) && Due(o, u, frames, clock) ==>
      Wire(u) in q.received && FromWire(o, q, Wire(u), frames, clock, FirstOf(order, n))
    ensures forall w ::
      (forall u :: u in FirstOf(order, n) && Due(o, u, frames, clock) ==> Wire(u) != w) ==> StillShown(o, q, w)
  {
    var start := Progress(WithFrames(o.views, frames), o.received, true);
    assert start.views.Keys == frames.Keys;
    ListsEach(order, frames.Keys);
    assert forall j :: 0 <= j < n ==> order[j] in order[..n];
    forall u | u in FirstOf(order, n) && Due(o, u, frames, clock)
      ensures Wire(u) in q.received && FromWire(o, q, Wire(u), frames, clock, FirstOf(order, n))
    {
      Delivered(start, order, n, clock, fails, Wire(u));
      var i :| 0 <= i < n && order[..n][i] == u;
      assert DueOn(start.views, order[i], clock, Wire(u));
      var j :| 0 <= j < n && DueOn(start.views, order[j], clock, Wire(u))
               && q.received[Wire(u)] == start.views[order[j]].current;
      assert Due(o, order[j], frames, clock) && order[j] in FirstOf(order, n);
    }
    forall w | forall u :: u in FirstOf(order, n) && Due(o, u, frames, clock) ==> Wire(u) != w
      ensures StillShown(o, q, w)
    {
      Delivered(start, order, n, clock, fails, w);
      assert forall j :: 0 <= j < n && DueOn(start.views, order[j], clock, w) ==>
        order[j] in FirstOf(order, n) && Due(o, order[j], frames, clock);
    }
  }
}

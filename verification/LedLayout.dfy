/** Which DMX channels a HUB LED layout occupies and what is rendered onto them (led/override.go, led/controller.go). */
module LedLayout {
  import opened Options

  const UNIVERSE_CHANNELS := 512
  const PIXEL_CHANNELS := 3
  const FIXTURE_PIXELS := 8
  const FIXTURE_CHANNELS := 24
  const ZONE_FIXTURES := 8
  const ZONE_PIXELS := 64

  type Byte = n: int | 0 <= n < 256

  datatype Color = Color(r: Byte, g: Byte, b: Byte)

  type Pixels = ps: seq<Color> | |ps| == ZONE_PIXELS witness seq(ZONE_PIXELS, _ => Color(0, 0, 0))

  type Frame = data: seq<Byte> | |data| == UNIVERSE_CHANNELS witness seq(UNIVERSE_CHANNELS, _ => 0)

  function Blank(): Frame {
    seq(UNIVERSE_CHANNELS, _ => 0)
  }

  /** Universe and start address both count from 1. */
  datatype Fixture = Fixture(universe: int, startAddress: int)

  datatype Layout = Layout(red: seq<Fixture>, blue: seq<Fixture>)

  predicate Fits(f: Fixture) {
    f.universe > 0 && 1 <= f.startAddress && f.startAddress - 1 + FIXTURE_CHANNELS <= UNIVERSE_CHANNELS
  }

  predicate AllFit(fixtures: seq<Fixture>) {
    forall i :: 0 <= i < |fixtures| ==> Fits(fixtures[i])
  }

  /** The fixture is rendered onto this channel; channels count from 0. */
  predicate Covers(f: Fixture, universe: int, channel: int) {
    f.universe == universe && f.startAddress - 1 <= channel < f.startAddress - 1 + FIXTURE_CHANNELS
  }

  /** A fixture fits if and only if its universe has a number and every channel it covers is one of the 512. */
  lemma FitsExactlyWhen(f: Fixture)
    ensures Fits(f) <==> f.universe >= 1 && forall c :: Covers(f, f.universe, c) ==> 0 <= c < 512
    ensures forall c :: Covers(f, f.universe, c) <==> f.startAddress <= c + 1 < f.startAddress + 24
  {
    assert Covers(f, f.universe, f.startAddress - 1) && Covers(f, f.universe, f.startAddress + 22);
  }

  ghost predicate ShareAChannel(a: Fixture, b: Fixture) {
    exists universe, channel :: Covers(a, universe, channel) && Covers(b, universe, channel)
  }

  ghost predicate NoSharedChannel(fixtures: seq<Fixture>) {
    forall i, j :: 0 <= i < j < |fixtures| ==> !ShareAChannel(fixtures[i], fixtures[j])
  }

  // ----- admission

  predicate Overlap(a: Fixture, b: Fixture) {
    && a.universe == b.universe
    && a.startAddress < b.startAddress + FIXTURE_CHANNELS && b.startAddress < a.startAddress + FIXTURE_CHANNELS
  }

  lemma OverlapMeansShared(a: Fixture, b: Fixture)
    ensures Overlap(a, b) <==> ShareAChannel(a, b)
  {
    if Overlap(a, b) {
      var first := if a.startAddress > b.startAddress then a.startAddress - 1 else b.startAddress - 1;
      assert Covers(a, a.universe, first) && Covers(b, a.universe, first);
    }
  }

  method BuildFixtures(specs: seq<Fixture>) returns (built: Option<seq<Fixture>>)
    ensures built == if AllFit(specs) then Some(specs) else None
  {
    var fixtures: seq<Fixture> := [];
    for i := 0 to |specs|
      invariant fixtures == specs[..i] && AllFit(fixtures)
    {
      var spec := specs[i];
      if spec.universe <= 0 {
        return None;
      }
      var startIndex := spec.startAddress - 1;
      if startIndex < 0 || startIndex + FIXTURE_CHANNELS > UNIVERSE_CHANNELS {
        return None;
      }
      fixtures := fixtures + [Fixture(spec.universe, spec.startAddress)];
    }
    assert specs[..|specs|] == specs;
    return Some(fixtures);
  }

  method CheckOverlap(specs: seq<Fixture>) returns (ok: bool)
    ensures ok <==> NoSharedChannel(specs)
  {
    for i := 0 to |specs|
      invariant forall k, j :: 0 <= k < i && k < j < |specs| ==> !ShareAChannel(specs[k], specs[j])
    {
      for j := 0 to |specs|
        invariant forall m :: i < m < j ==> !ShareAChannel(specs[i], specs[m])
      {
        if i < j && specs[i].universe == specs[j].universe {
          OverlapMeansShared(specs[i], specs[j]);
          if specs[i].startAddress < specs[j].startAddress + FIXTURE_CHANNELS &&
             specs[j].startAddress < specs[i].startAddress + FIXTURE_CHANNELS {
            return false;
          }
        } else if i < j {
          OverlapMeansShared(specs[i], specs[j]);
        }
      }
    }
    return true;
  }

  /** What SetLayout demands of a layout. */
  ghost predicate Admissible(layout: Layout) {
    AllFit(layout.red) && AllFit(layout.blue) && NoSharedChannel(layout.red + layout.blue)
  }

  /** The full-field layout: sixteen fixtures side by side in universe 1. */
  function DefaultLayout(): Layout {
    Layout(seq(ZONE_FIXTURES, k => Fixture(1, 1 + FIXTURE_CHANNELS * k)),
           seq(ZONE_FIXTURES, k => Fixture(1, 1 + FIXTURE_CHANNELS * (ZONE_FIXTURES + k))))
  }

  lemma DefaultLayoutIsAdmissible()
    ensures Admissible(DefaultLayout())
    ensures DefaultLayout() == Layout(
      [Fixture(1, 1), Fixture(1, 25), Fixture(1, 49), Fixture(1, 73),
       Fixture(1, 97), Fixture(1, 121), Fixture(1, 145), Fixture(1, 169)],
      [Fixture(1, 193), Fixture(1, 217), Fixture(1, 241), Fixture(1, 265),
       Fixture(1, 289), Fixture(1, 313), Fixture(1, 337), Fixture(1, 361)])
  {
  }

  // ----- layouts that cannot be rendered

  /** How rendering a zone ends: all of it painted, at the first fixture that does not fit, or in the read of a ninth
      fixture's pixels, which the zone does not have. */
  datatype Rendering = Painted | BadFixture | OutOfPixels

  predicate RunsOutOfPixels(fixtures: seq<Fixture>) {
    |fixtures| > ZONE_FIXTURES && AllFit(fixtures[..ZONE_FIXTURES + 1])
  }

  /** The zones are rendered one after the other, the second only if the first was painted. */
  function LayoutRendering(layout: Layout): Rendering {
    if RunsOutOfPixels(layout.red) then OutOfPixels
    else if !AllFit(layout.red) then BadFixture
    else if RunsOutOfPixels(layout.blue) then OutOfPixels
    else if !AllFit(layout.blue) then BadFixture
    else Painted
  }

  predicate Renderable(layout: Layout) {
    && AllFit(layout.red) && AllFit(layout.blue)
    && |layout.red| <= ZONE_FIXTURES && |layout.blue| <= ZONE_FIXTURES
  }

  /** What SetLayout admits renders, or runs out of pixels exactly if a zone has more than eight fixtures. */
  lemma AdmittedLayoutRenders(layout: Layout)
    ensures LayoutRendering(layout) == Painted <==>
      AllFit(layout.red) && AllFit(layout.blue) && |layout.red| <= 8 && |layout.blue| <= 8
    ensures Admissible(layout) ==>
      (LayoutRendering(layout) == OutOfPixels <==> |layout.red| > 8 || |layout.blue| > 8)
  {
  }

  /** SetLayout admits such a layout: nine fixtures side by side. */
  function NineFixtures(): Layout {
    Layout(seq(ZONE_FIXTURES + 1, k => Fixture(1, 1 + FIXTURE_CHANNELS * k)), [])
  }

  lemma NineFixturesAreAdmitted()
    ensures Admissible(NineFixtures()) && LayoutRendering(NineFixtures()) == OutOfPixels
  {
    var red := NineFixtures().red;
    assert red + [] == red;
    forall i, j | 0 <= i < j < |red| ensures !ShareAChannel(red[i], red[j]) {
      OverlapMeansShared(red[i], red[j]);
    }
    AdmittedLayoutRenders(NineFixtures());
  }

  // ----- rendering, one fixture after another

  function Component(c: Color, n: int): Byte {
    if n == 0 then c.r else if n == 1 then c.g else c.b
  }

  /** The byte the fixture at place i of its zone shows on a channel it covers. */
  function PixelByte(pixels: Pixels, i: nat, f: Fixture, channel: int): Byte
    requires i < ZONE_FIXTURES && Covers(f, f.universe, channel)
  {
    var offset := channel - (f.startAddress - 1);
    Component(pixels[i * FIXTURE_PIXELS + offset / PIXEL_CHANNELS], offset % PIXEL_CHANNELS)
  }

  function PaintFixture(data: Frame, f: Fixture, pixels: Pixels, i: nat): Frame
    requires i < ZONE_FIXTURES
  {
    seq(UNIVERSE_CHANNELS, c requires 0 <= c < UNIVERSE_CHANNELS =>
      if Covers(f, f.universe, c) then PixelByte(pixels, i, f, c) else data[c])
  }

  function FrameIn(frames: map<int, Frame>, universe: int): Frame {
    if universe in frames then frames[universe] else Blank()
  }

  /** populateFixtureData over the first n fixtures. */
  function Paint(frames: map<int, Frame>, fixtures: seq<Fixture>, pixels: Pixels, n: nat): map<int, Frame>
    requires n <= |fixtures| <= ZONE_FIXTURES
  {
    if n == 0 then frames
    else
      var painted := Paint(frames, fixtures, pixels, n - 1);
      var f := fixtures[n - 1];
      painted[f.universe := PaintFixture(FrameIn(painted, f.universe), f, pixels, n - 1)]
  }

  function BlankFrames(known: set<int>): map<int, Frame> {
    map u | u in known :: Blank()
  }

  /** All frames of an Update: every known universe blanked, then both zones painted. */
  function Render(known: set<int>, layout: Layout, red: Pixels, blue: Pixels): map<int, Frame>
    requires |layout.red| <= ZONE_FIXTURES && |layout.blue| <= ZONE_FIXTURES
  {
    Paint(Paint(BlankFrames(known), layout.red, red, |layout.red|), layout.blue, blue, |layout.blue|)
  }

  // ----- what rendering shows

  function Universes(fixtures: seq<Fixture>): set<int> {
    set i | 0 <= i < |fixtures| :: fixtures[i].universe
  }

  ghost predicate Dark(fixtures: seq<Fixture>, n: nat, universe: int, channel: int)
    requires n <= |fixtures|
  {
    forall i :: 0 <= i < n ==> !Covers(fixtures[i], universe, channel)
  }

  lemma {:induction false} PaintTouches(
    frames: map<int, Frame>, fixtures: seq<Fixture>, pixels: Pixels, n: nat)
    requires n <= |fixtures| <= ZONE_FIXTURES
    ensures Paint(frames, fixtures, pixels, n).Keys == frames.Keys + Universes(fixtures[..n])
  {
    if n == 0 {
      assert Universes(fixtures[..0]) == {};
    } else {
      PaintTouches(frames, fixtures, pixels, n - 1);
      assert Universes(fixtures[..n]) == Universes(fixtures[..n - 1]) + {fixtures[n - 1].universe} by {
        UniversesGrow(fixtures, n);
      }
    }
  }

  lemma UniversesGrow(fixtures: seq<Fixture>, n: nat)
    requires 0 < n <= |fixtures|
    ensures Universes(fixtures[..n]) == Universes(fixtures[..n - 1]) + {fixtures[n - 1].universe}
  {
  }

  /** A channel no fixture covers keeps what it had. */
  lemma {:induction false} UncoveredUnchanged(
    frames: map<int, Frame>, fixtures: seq<Fixture>, pixels: Pixels, n: nat, universe: int, channel: int)
    requires n <= |fixtures| <= ZONE_FIXTURES && 0 <= channel < UNIVERSE_CHANNELS
    requires Dark(fixtures, n, universe, channel)
    ensures FrameIn(Paint(frames, fixtures, pixels, n), universe)[channel] == FrameIn(frames, universe)[channel]
  {
    if n > 0 {
      UncoveredUnchanged(frames, fixtures, pixels, n - 1, universe, channel);
    }
  }

  /** A channel that only fixture i covers shows exactly that fixture's pixel. */
  lemma {:induction false} CoveredShowsPixel(
    frames: map<int, Frame>, fixtures: seq<Fixture>, pixels: Pixels, n: nat, i: nat, universe: int, channel: int)
    requires i < n <= |fixtures| <= ZONE_FIXTURES && 0 <= channel < UNIVERSE_CHANNELS
    requires Covers(fixtures[i], universe, channel)
    requires forall k :: i < k < n ==> !Covers(fixtures[k], universe, channel)
    ensures FrameIn(Paint(frames, fixtures, pixels, n), universe)[channel] ==
      PixelByte(pixels, i, fixtures[i], channel)
  {
    if n - 1 > i {
      CoveredShowsPixel(frames, fixtures, pixels, n - 1, i, universe, channel);
      assert !Covers(fixtures[n - 1], universe, channel);
    }
  }

  /** On an admissible layout every channel of the red zone's fixtures shows that fixture's own pixel, whatever the
      other fixtures show and in whatever order they are painted. */
  lemma RedChannelsShowTheirPixels(
    known: set<int>, layout: Layout, red: Pixels, blue: Pixels, i: nat, universe: int, channel: int)
    requires Admissible(layout) && |layout.red| <= ZONE_FIXTURES && |layout.blue| <= ZONE_FIXTURES
    requires i < |layout.red| && Covers(layout.red[i], universe, channel) && 0 <= channel < UNIVERSE_CHANNELS
    ensures FrameIn(Render(known, layout, red, blue), universe)[channel] ==
      PixelByte(red, i, layout.red[i], channel)
  {
    var both := layout.red + layout.blue;
    var blank := BlankFrames(known);
    assert forall k :: 0 <= k < |layout.red| ==> both[k] == layout.red[k];
    assert forall k :: 0 <= k < |layout.blue| ==> both[|layout.red| + k] == layout.blue[k];
    CoveredShowsPixel(blank, layout.red, red, |layout.red|, i, universe, channel);
    UncoveredUnchanged(Paint(blank, layout.red, red, |layout.red|), layout.blue, blue, |layout.blue|, universe, channel);
  }

  lemma BlueChannelsShowTheirPixels(
    known: set<int>, layout: Layout, red: Pixels, blue: Pixels, i: nat, universe: int, channel: int)
    requires Admissible(layout) && |layout.red| <= ZONE_FIXTURES && |layout.blue| <= ZONE_FIXTURES
    requires i < |layout.blue| && Covers(layout.blue[i], universe, channel) && 0 <= channel < UNIVERSE_CHANNELS
    ensures FrameIn(Render(known, layout, red, blue), universe)[channel] ==
      PixelByte(blue, i, layout.blue[i], channel)
  {
    var both := layout.red + layout.blue;
    assert both[|layout.red| + i] == layout.blue[i];
    assert forall k :: 0 <= k < |layout.blue| ==> both[|layout.red| + k] == layout.blue[k];
    var blank := BlankFrames(known);
    CoveredShowsPixel(Paint(blank, layout.red, red, |layout.red|), layout.blue, blue, |layout.blue|, i, universe,
                      channel);
  }

  /** The three channels of a fixture's jth pixel are the red, green and blue of pixel 8i + j of its zone. */
  lemma ChannelsAreRgb(pixels: Pixels, i: nat, f: Fixture, j: nat)
    requires i < 8 && j < 8 && Fits(f)
    ensures var first, pixel := f.startAddress - 1 + 3 * j, pixels[8 * i + j];
      && Covers(f, f.universe, first) && Covers(f, f.universe, first + 1) && Covers(f, f.universe, first + 2)
      && PixelByte(pixels, i, f, first) == pixel.r
      && PixelByte(pixels, i, f, first + 1) == pixel.g
      && PixelByte(pixels, i, f, first + 2) == pixel.b
  {
  }

  /** On an admissible layout a red fixture shows its eight pixels from its start address on. */
  lemma RedFixtureShows(known: set<int>, layout: Layout, red: Pixels, blue: Pixels, i: nat, j: nat)
    requires Admissible(layout) && |layout.red| <= ZONE_FIXTURES && |layout.blue| <= ZONE_FIXTURES
    requires i < |layout.red| && j < 8
    ensures var f := layout.red[i];
      var frame, first := FrameIn(Render(known, layout, red, blue), f.universe), f.startAddress - 1 + 3 * j;
      Color(frame[first], frame[first + 1], frame[first + 2]) == red[8 * i + j]
  {
    var f := layout.red[i];
    var first := f.startAddress - 1 + 3 * j;
    ChannelsAreRgb(red, i, f, j);
    RedChannelsShowTheirPixels(known, layout, red, blue, i, f.universe, first);
    RedChannelsShowTheirPixels(known, layout, red, blue, i, f.universe, first + 1);
    RedChannelsShowTheirPixels(known, layout, red, blue, i, f.universe, first + 2);
  }

  lemma BlueFixtureShows(known: set<int>, layout: Layout, red: Pixels, blue: Pixels, i: nat, j: nat)
    requires Admissible(layout) && |layout.red| <= ZONE_FIXTURES && |layout.blue| <= ZONE_FIXTURES
    requires i < |layout.blue| && j < 8
    ensures var f := layout.blue[i];
      var frame, first := FrameIn(Render(known, layout, red, blue), f.universe), f.startAddress - 1 + 3 * j;
      Color(frame[first], frame[first + 1], frame[first + 2]) == blue[8 * i + j]
  {
    var f := layout.blue[i];
    var first := f.startAddress - 1 + 3 * j;
    ChannelsAreRgb(blue, i, f, j);
    BlueChannelsShowTheirPixels(known, layout, red, blue, i, f.universe, first);
    BlueChannelsShowTheirPixels(known, layout, red, blue, i, f.universe, first + 1);
    BlueChannelsShowTheirPixels(known, layout, red, blue, i, f.universe, first + 2);
  }

  /** The universes rendered are the known ones and the fixtures' own. */
  lemma RenderedUniverses(known: set<int>, layout: Layout, red: Pixels, blue: Pixels)
    requires |layout.red| <= ZONE_FIXTURES && |layout.blue| <= ZONE_FIXTURES
    ensures Render(known, layout, red, blue).Keys == known + Universes(layout.red) + Universes(layout.blue)
  {
    PaintTouches(BlankFrames(known), layout.red, red, |layout.red|);
    var half := Paint(BlankFrames(known), layout.red, red, |layout.red|);
    PaintTouches(half, layout.blue, blue, |layout.blue|);
    assert layout.red[..|layout.red|] == layout.red && layout.blue[..|layout.blue|] == layout.blue;
  }

  /** Every channel that no fixture covers is zero. */
  lemma OtherChannelsAreZero(
    known: set<int>, layout: Layout, red: Pixels, blue: Pixels, universe: int, channel: int)
    requires |layout.red| <= ZONE_FIXTURES && |layout.blue| <= ZONE_FIXTURES && 0 <= channel < UNIVERSE_CHANNELS
    requires Dark(layout.red, |layout.red|, universe, channel) && Dark(layout.blue, |layout.blue|, universe, channel)
    ensures FrameIn(Render(known, layout, red, blue), universe)[channel] == 0
  {
    var blank := BlankFrames(known);
    UncoveredUnchanged(blank, layout.red, red, |layout.red|, universe, channel);
    UncoveredUnchanged(Paint(blank, layout.red, red, |layout.red|), layout.blue, blue, |layout.blue|, universe,
                       channel);
  }

  /** Admission is needed: two fixtures of a zone that share a channel cannot both show their pixels there. */
  lemma SharedChannelLosesAPixel(
    frames: map<int, Frame>, fixtures: seq<Fixture>, i: nat, j: nat)
    returns (pixels: Pixels, universe: int, channel: int)
    requires |fixtures| <= ZONE_FIXTURES && AllFit(fixtures) && i < j < |fixtures|
    requires ShareAChannel(fixtures[i], fixtures[j])
    ensures Covers(fixtures[i], universe, channel) && Covers(fixtures[j], universe, channel)
    ensures var shown := FrameIn(Paint(frames, fixtures, pixels, |fixtures|), universe);
      !(shown[channel] == PixelByte(pixels, i, fixtures[i], channel)
        && shown[channel] == PixelByte(pixels, j, fixtures[j], channel))
  {
    universe, channel :| Covers(fixtures[i], universe, channel) && Covers(fixtures[j], universe, channel);
    pixels := seq(ZONE_PIXELS, n requires 0 <= n < ZONE_PIXELS =>
      if n / FIXTURE_PIXELS == i then Color(1, 1, 1) else Color(2, 2, 2));
  }

}

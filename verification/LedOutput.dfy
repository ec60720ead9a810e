/** What the LED controller sends and what the receiver shows for it (led/controller.go), as a function of the
    frames rendered: a universe is sent when it has changed, and otherwise once a second. */
module LedOutput {
  import opened Options
  import opened LedLayout

  const HEARTBEAT := 1_000_000_000

  /** One universe's buffers: what was rendered, what was last sent, and when. */
  datatype UniverseState = UniverseState(current: Frame, previous: Frame, last: Option<int>, sequence: Byte)

  /** The controller's universes, and the frame the receiver shows for each universe number it has heard. */
  datatype Output = Output(layout: Layout, views: map<int, UniverseState>, received: map<int, Frame>)

  /** The universe number as the packet carries it, in two bytes. */
  function Wire(universe: int): int {
    universe % 65536
  }

  /** When an Update looks at each universe, and when it marks it sent. */
  datatype Clock = Clock(check: int -> int, sent: int -> int)

  function NewUniverse(): UniverseState {
    UniverseState(Blank(), Blank(), None, 0)
  }

  function Prior(views: map<int, UniverseState>, universe: int): UniverseState {
    if universe in views then views[universe] else NewUniverse()
  }

  predicate ShouldSend(s: UniverseState, now: int) {
    s.last.None? || now - s.last.value >= HEARTBEAT || s.current != s.previous
  }

  function MarkSent(s: UniverseState, now: int): UniverseState {
    s.(previous := s.current, last := Some(now), sequence := (s.sequence + 1) % 256)
  }

  function Refreshed(s: UniverseState, universe: int, clock: Clock): UniverseState {
    if ShouldSend(s, clock.check(universe)) then MarkSent(s, clock.sent(universe)) else s
  }

  function Frames(o: Output, red: Pixels, blue: Pixels): map<int, Frame>
    requires Renderable(o.layout)
  {
    Render(o.views.Keys, o.layout, red, blue)
  }

  /** The universes an Update sends. */
  predicate Due(o: Output, universe: int, frames: map<int, Frame>, clock: Clock) {
    universe in frames && ShouldSend(Prior(o.views, universe).(current := frames[universe]), clock.check(universe))
  }

  /** A universe with its new frame, before it is looked at. */
  function Ready(o: Output, u: int, frames: map<int, Frame>): UniverseState
    requires u in frames
  {
    Prior(o.views, u).(current := frames[u])
  }

  /** The universes in `tried` are refreshed, the receiver gets those of them due and keeps the others. Universes are
      sent in no particular order. */
  ghost predicate Reaches(o: Output, p: Output, frames: map<int, Frame>, clock: Clock, tried: set<int>) {
    && p.views.Keys == frames.Keys
    && (forall u :: u in frames && u in tried ==> p.views[u] == Refreshed(Ready(o, u, frames), u, clock))
    && (forall u :: u in tried && Due(o, u, frames, clock) ==>
          Wire(u) in p.received && FromWire(o, p, Wire(u), frames, clock, tried))
    && (forall w :: (forall u :: u in tried && Due(o, u, frames, clock) ==> Wire(u) != w) ==> StillShown(o, p, w))
  }

  /** What the receiver shows under this number, if anything, is what it showed before. */
  predicate StillShown(o: Output, p: Output, wire: int) {
    && (wire in p.received <==> wire in o.received)
    && (wire in o.received ==> p.received[wire] == o.received[wire])
  }

  /** The receiver shows a frame sent under this number. */
  ghost predicate FromWire(
    o: Output, p: Output, wire: int, frames: map<int, Frame>, clock: Clock, tried: set<int>)
    requires wire in p.received
  {
    exists v :: v in tried && Due(o, v, frames, clock) && Wire(v) == wire && p.received[wire] == frames[v]
  }

  /** An Update none of whose writes failed. */
  ghost predicate Updates(o: Output, p: Output, clock: Clock, red: Pixels, blue: Pixels) {
    && Renderable(o.layout) && p.layout == o.layout
    && var frames := Frames(o, red, blue); Reaches(o, p, frames, clock, frames.Keys)
  }

  /** An Update that ended when the write of `lost` failed: that universe is marked sent, and those not yet tried are
      left for the next Update. */
  ghost predicate Breaks(
    o: Output, p: Output, clock: Clock, red: Pixels, blue: Pixels, tried: set<int>, lost: int)
  {
    && Renderable(o.layout) && p.layout == o.layout
    && var frames := Frames(o, red, blue);
    && tried <= frames.Keys && lost !in tried && Due(o, lost, frames, clock) && Reaches(o, p, frames, clock, tried)
    && p.views[lost] == MarkSent(Ready(o, lost, frames), clock.sent(lost))
    && (forall u :: u in frames && u !in tried && u != lost ==> p.views[u] == Ready(o, u, frames))
  }

  // ----- send-on-change refines send-every-frame

  /** What was last sent of a universe is what the receiver shows. */
  predicate Synced(o: Output, u: int) {
    u in o.views && o.views[u].last.Some? ==> Wire(u) in o.received && o.received[Wire(u)] == o.views[u].previous
  }

  ghost predicate InSync(o: Output) {
    forall u :: u in o.views ==> Synced(o, u)
  }

  /** No two universes look the same on the wire. */
  ghost predicate WireDistinct(universes: set<int>) {
    forall u, v :: u in universes && v in universes && Wire(u) == Wire(v) ==> u == v
  }

  predicate ShowsOne(p: Output, frames: map<int, Frame>, u: int)
    requires u in frames
  {
    Wire(u) in p.received && p.received[Wire(u)] == frames[u]
  }

  /** The receiver shows exactly the frames just rendered, as if every one of them had been sent. */
  ghost predicate Shows(p: Output, frames: map<int, Frame>) {
    forall u :: u in frames ==> ShowsOne(p, frames, u)
  }

  /** How far an Update gets. */
  datatype Reach = Complete | Broken(tried: set<int>, lost: int)

  /** What happens to the output: a new layout, or an Update. */
  datatype Change = Relayout(layout: Layout) | Refresh(clock: Clock, red: Pixels, blue: Pixels, reach: Reach)

  ghost predicate Changes(o: Output, p: Output, c: Change) {
    match c
    case Relayout(layout) => p == o.(layout := layout, views := map[])
    case Refresh(clock, red, blue, Complete) => Updates(o, p, clock, red, blue)
    case Refresh(clock, red, blue, Broken(tried, lost)) => Breaks(o, p, clock, red, blue, tried, lost)
  }

  /** The outputs of a controller with a fixed address: os[i] is the output before change i, and any Update may be
      ended by a failed write. Layouts are those SetLayout admits, with no more fixtures than a zone has pixels for. */
  ghost predicate LedRun(os: seq<Output>, changes: seq<Change>) {
    && |os| == |changes| + 1 && Renderable(os[0].layout) && os[0].views == map[]
    && (forall i :: 0 <= i < |changes| ==> Changes(os[i], os[i + 1], changes[i]))
    && (forall i :: 0 <= i < |changes| && changes[i].Relayout? ==> Renderable(changes[i].layout))
  }

  function LayoutUniverses(layout: Layout): set<int> {
    Universes(layout.red) + Universes(layout.blue)
  }

  predicate KnownUniverses(o: Output) {
    o.views.Keys <= LayoutUniverses(o.layout) && Renderable(o.layout)
  }

  lemma FramesKeys(o: Output, red: Pixels, blue: Pixels)
    requires KnownUniverses(o)
    ensures Frames(o, red, blue).Keys == LayoutUniverses(o.layout)
  {
    RenderedUniverses(o.views.Keys, o.layout, red, blue);
  }

  /** When a write of the universe last failed, since its layout was set. */
  function LastLoss(changes: seq<Change>, n: nat, u: int): Option<int>
    requires n <= |changes|
  {
    if n == 0 then None
    else
      match changes[n - 1]
      case Relayout(_) => None
      case Refresh(clock, _, _, reach) =>
        if reach.Broken? && reach.lost == u then Some(clock.sent(u)) else LastLoss(changes, n - 1, u)
  }

  /** A universe is in sync, or has not been sent since its last failed write. */
  ghost predicate SyncedButLosses(o: Output, changes: seq<Change>, n: nat)
    requires n <= |changes|
  {
    forall u :: u in o.views ==> Synced(o, u) || o.views[u].last == LastLoss(changes, n, u)
  }

  /** Going through a universe leaves it in sync if it was, or if it is sent. */
  lemma ReachedSync(o: Output, p: Output, frames: map<int, Frame>, clock: Clock, tried: set<int>, u: int)
    requires Reaches(o, p, frames, clock, tried) && WireDistinct(frames.Keys) && tried <= frames.Keys && u in frames
    ensures u in tried && Due(o, u, frames, clock) ==> ShowsOne(p, frames, u)
    ensures (u in tried && Due(o, u, frames, clock)) || StillShown(o, p, Wire(u))
  {
  }

  /** A universe that is gone through shows its new frame if and only if it is sent or was in sync before: after a failed
      write an unchanged frame is not shown until the next heartbeat. */
  lemma ShownExactlyWhen(o: Output, p: Output, frames: map<int, Frame>, clock: Clock, tried: set<int>, u: int)
    requires Reaches(o, p, frames, clock, tried) && WireDistinct(frames.Keys) && tried <= frames.Keys
    requires u in tried
    ensures ShowsOne(p, frames, u) <==> Due(o, u, frames, clock) || Synced(o, u)
  {
    ReachedSync(o, p, frames, clock, tried, u);
  }

  lemma RefreshKeepsSync(o: Output, p: Output, changes: seq<Change>, n: nat)
    requires n < |changes| && changes[n].Refresh? && Changes(o, p, changes[n]) && KnownUniverses(o)
    requires WireDistinct(LayoutUniverses(o.layout)) && SyncedButLosses(o, changes, n)
    ensures SyncedButLosses(p, changes, n + 1) && KnownUniverses(p)
  {
    var c := changes[n];
    var frames := Frames(o, c.red, c.blue);
    FramesKeys(o, c.red, c.blue);
    var tried := if c.reach.Complete? then frames.Keys else c.reach.tried;
    forall u | u in p.views
      ensures Synced(p, u) || p.views[u].last == LastLoss(changes, n + 1, u)
    {
      ReachedSync(o, p, frames, c.clock, tried, u);
    }
  }

  lemma {:induction false} LedRunKeeps(os: seq<Output>, changes: seq<Change>, n: nat)
    requires LedRun(os, changes) && n <= |changes|
    requires forall i :: 0 <= i <= n ==> WireDistinct(LayoutUniverses(os[i].layout))
    ensures SyncedButLosses(os[n], changes, n) && KnownUniverses(os[n])
  {
    if n > 0 {
      LedRunKeeps(os, changes, n - 1);
      assert Changes(os[n - 1], os[n], changes[n - 1]);
      assert WireDistinct(LayoutUniverses(os[n - 1].layout));
      if changes[n - 1].Refresh? {
        RefreshKeepsSync(os[n - 1], os[n], changes, n - 1);
      }
    }
  }

  /** The universes an Update goes through without a failed write: all of them, or those before it. */
  predicate Reached(c: Change, u: int)
    requires c.Refresh?
  {
    c.reach.Broken? ==> u in c.reach.tried
  }

  /** A failed write of the universe is at least a second old, if there was one. */
  predicate Recovered(changes: seq<Change>, n: nat, u: int)
    requires n < |changes| && changes[n].Refresh?
  {
    var loss := LastLoss(changes, n, u);
    loss.Some? ==> changes[n].clock.check(u) - loss.value >= 1_000_000_000
  }

  /** What a failed write costs: over any run of new layouts and Updates, with any writes failing, a universe that an
      Update goes through shows the frame just rendered, unless a write of it has failed within the last second. */
  lemma ReachedUniversesAreShown(os: seq<Output>, changes: seq<Change>, n: nat, u: int)
    requires LedRun(os, changes) && n < |changes| && changes[n].Refresh?
    requires forall i :: 0 <= i <= n ==> WireDistinct(LayoutUniverses(os[i].layout))
    requires Renderable(os[n].layout) && u in Frames(os[n], changes[n].red, changes[n].blue)
    requires Reached(changes[n], u) && Recovered(changes, n, u)
    ensures ShowsOne(os[n + 1], Frames(os[n], changes[n].red, changes[n].blue), u)
  {
    var o, p, c := os[n], os[n + 1], changes[n];
    LedRunKeeps(os, changes, n);
    assert Changes(o, p, c);
    FramesKeys(o, c.red, c.blue);
    assert WireDistinct(LayoutUniverses(o.layout));
    var frames := Frames(o, c.red, c.blue);
    ShownExactlyWhen(o, p, frames, c.clock, if c.reach.Complete? then frames.Keys else c.reach.tried, u);
  }

  /** Send-on-change refines send-every-frame: over any run, an Update without a failed write ends with the receiver
      showing, for every universe, exactly the frame just rendered, from a second after the last failed write on. */
  lemma SendOnChangeRefinesSendAlways(os: seq<Output>, changes: seq<Change>, n: nat)
    requires LedRun(os, changes) && n < |changes| && changes[n].Refresh? && changes[n].reach.Complete?
    requires forall i :: 0 <= i <= n ==> WireDistinct(LayoutUniverses(os[i].layout))
    requires forall u :: u in LayoutUniverses(os[n].layout) ==> Recovered(changes, n, u)
    ensures Renderable(os[n].layout) && Shows(os[n + 1], Frames(os[n], changes[n].red, changes[n].blue))
  {
    LedRunKeeps(os, changes, n);
    FramesKeys(os[n], changes[n].red, changes[n].blue);
    forall u | u in Frames(os[n], changes[n].red, changes[n].blue)
      ensures ShowsOne(os[n + 1], Frames(os[n], changes[n].red, changes[n].blue), u)
    {
      ReachedUniversesAreShown(os, changes, n, u);
    }
  }

  // ----- universes that look the same on the wire

  const WHITE := Color(255, 255, 255)
  const BLACK := Color(0, 0, 0)

  /** The pixels of one fixture lit, the others dark. */
  function OneLit(i: nat): Pixels {
    seq(ZONE_PIXELS, n requires 0 <= n < ZONE_PIXELS => if n / FIXTURE_PIXELS == i then WHITE else BLACK)
  }

  function NoneLit(): Pixels {
    seq(ZONE_PIXELS, _ => BLACK)
  }

  lemma LitByte(i: nat, k: nat, f: Fixture, channel: int)
    requires k < ZONE_FIXTURES && Covers(f, f.universe, channel)
    ensures PixelByte(OneLit(i), k, f, channel) == if k == i then 255 else 0
    ensures PixelByte(NoneLit(), k, f, channel) == 0
  {
  }

  /** A channel is dark if every fixture that covers it shows a dark pixel there, or none covers it. */
  lemma DarkChannel(known: set<int>, layout: Layout, red: Pixels, blue: Pixels, universe: int, channel: int)
    requires Admissible(layout) && Renderable(layout) && 0 <= channel < UNIVERSE_CHANNELS
    requires forall i :: 0 <= i < |layout.red| && Covers(layout.red[i], universe, channel) ==>
      PixelByte(red, i, layout.red[i], channel) == 0
    requires forall i :: 0 <= i < |layout.blue| && Covers(layout.blue[i], universe, channel) ==>
      PixelByte(blue, i, layout.blue[i], channel) == 0
    ensures FrameIn(Render(known, layout, red, blue), universe)[channel] == 0
  {
    if i :| 0 <= i < |layout.red| && Covers(layout.red[i], universe, channel) {
      RedChannelsShowTheirPixels(known, layout, red, blue, i, universe, channel);
    } else if i :| 0 <= i < |layout.blue| && Covers(layout.blue[i], universe, channel) {
      BlueChannelsShowTheirPixels(known, layout, red, blue, i, universe, channel);
    } else {
      OtherChannelsAreZero(known, layout, red, blue, universe, channel);
    }
  }

  /** With one red fixture lit, the universe it is in has a lit channel that is dark in every other. */
  lemma RedFixtureTellsApart(known: set<int>, layout: Layout, i: nat, v: int)
    requires Admissible(layout) && Renderable(layout) && i < |layout.red| && v != layout.red[i].universe
    ensures var frames := Render(known, layout, OneLit(i), NoneLit());
      FrameIn(frames, layout.red[i].universe) != FrameIn(frames, v)
  {
    var f := layout.red[i];
    var channel := f.startAddress - 1;
    LitByte(i, i, f, channel);
    RedChannelsShowTheirPixels(known, layout, OneLit(i), NoneLit(), i, f.universe, channel);
    forall k | 0 <= k < |layout.red| && Covers(layout.red[k], v, channel)
      ensures PixelByte(OneLit(i), k, layout.red[k], channel) == 0
    {
      LitByte(i, k, layout.red[k], channel);
    }
    forall k | 0 <= k < |layout.blue| && Covers(layout.blue[k], v, channel)
      ensures PixelByte(NoneLit(), k, layout.blue[k], channel) == 0
    {
      LitByte(i, k, layout.blue[k], channel);
    }
    DarkChannel(known, layout, OneLit(i), NoneLit(), v, channel);
  }

  lemma BlueFixtureTellsApart(known: set<int>, layout: Layout, i: nat, v: int)
    requires Admissible(layout) && Renderable(layout) && i < |layout.blue| && v != layout.blue[i].universe
    ensures var frames := Render(known, layout, NoneLit(), OneLit(i));
      FrameIn(frames, layout.blue[i].universe) != FrameIn(frames, v)
  {
    var f := layout.blue[i];
    var channel := f.startAddress - 1;
    LitByte(i, i, f, channel);
    BlueChannelsShowTheirPixels(known, layout, NoneLit(), OneLit(i), i, f.universe, channel);
    forall k | 0 <= k < |layout.red| && Covers(layout.red[k], v, channel)
      ensures PixelByte(NoneLit(), k, layout.red[k], channel) == 0
    {
      LitByte(i, k, layout.red[k], channel);
    }
    forall k | 0 <= k < |layout.blue| && Covers(layout.blue[k], v, channel)
      ensures PixelByte(OneLit(i), k, layout.blue[k], channel) == 0
    {
      LitByte(i, k, layout.blue[k], channel);
    }
    DarkChannel(known, layout, NoneLit(), OneLit(i), v, channel);
  }

  /** Two universes of a layout that look the same on the wire: with one fixture of the first lit, no receiver
      whatever shows the frames. */
  lemma CollisionCannotShow(o: Output, u: int, v: int) returns (red: Pixels, blue: Pixels)
    requires Admissible(o.layout) && KnownUniverses(o)
    requires u in LayoutUniverses(o.layout) && v in LayoutUniverses(o.layout) && u != v && Wire(u) == Wire(v)
    ensures forall p :: !Shows(p, Frames(o, red, blue))
  {
    if u in Universes(o.layout.red) {
      var i :| 0 <= i < |o.layout.red| && o.layout.red[i].universe == u;
      red, blue := OneLit(i), NoneLit();
      RedFixtureTellsApart(o.views.Keys, o.layout, i, v);
    } else {
      var i :| 0 <= i < |o.layout.blue| && o.layout.blue[i].universe == u;
      red, blue := NoneLit(), OneLit(i);
      BlueFixtureTellsApart(o.views.Keys, o.layout, i, v);
    }
    var frames := Frames(o, red, blue);
    FramesKeys(o, red, blue);
    forall p ensures !Shows(p, frames) {
    }
  }

  // ----- an Update can always succeed

  ghost predicate DueAs(o: Output, frames: map<int, Frame>, clock: Clock, u: int, wire: int) {
    Due(o, u, frames, clock) && Wire(u) == wire
  }

  ghost function DueWires(o: Output, frames: map<int, Frame>, clock: Clock): set<int> {
    set u | u in frames && Due(o, u, frames, clock) :: Wire(u)
  }

  lemma WireIsDue(o: Output, frames: map<int, Frame>, clock: Clock, wire: int)
    ensures wire in DueWires(o, frames, clock) <==> exists u :: DueAs(o, frames, clock, u, wire)
  {
    if wire in DueWires(o, frames, clock) {
      var u :| u in frames && Due(o, u, frames, clock) && Wire(u) == wire;
      assert DueAs(o, frames, clock, u, wire);
    }
  }

  /** Some universe due under this number. */
  ghost function SomeDue(o: Output, frames: map<int, Frame>, clock: Clock, wire: int): (u: int)
    requires wire in DueWires(o, frames, clock)
    ensures DueAs(o, frames, clock, u, wire)
  {
    WireIsDue(o, frames, clock, wire);
    var u :| DueAs(o, frames, clock, u, wire); u
  }

  ghost function DeliveredTo(o: Output, frames: map<int, Frame>, clock: Clock): Output {
    Output(o.layout,
           map u | u in frames :: Refreshed(Prior(o.views, u).(current := frames[u]), u, clock),
           map w | w in o.received.Keys + DueWires(o, frames, clock) ::
             if w in DueWires(o, frames, clock) then frames[SomeDue(o, frames, clock, w)] else o.received[w])
  }

  lemma DeliveryReaches(o: Output, frames: map<int, Frame>, clock: Clock)
    ensures Reaches(o, DeliveredTo(o, frames, clock), frames, clock, frames.Keys)
  {
    var p := DeliveredTo(o, frames, clock);
    forall u | Due(o, u, frames, clock)
      ensures Wire(u) in p.received && FromWire(o, p, Wire(u), frames, clock, frames.Keys)
    {
      assert DueAs(o, frames, clock, u, Wire(u));
      WireIsDue(o, frames, clock, Wire(u));
      var v := SomeDue(o, frames, clock, Wire(u));
      assert Due(o, v, frames, clock) && Wire(v) == Wire(u) && p.received[Wire(u)] == frames[v];
    }
    forall w | forall u :: u in frames.Keys && Due(o, u, frames, clock) ==> Wire(u) != w
      ensures StillShown(o, p, w)
    {
      WireIsDue(o, frames, clock, w);
    }
  }

  /** Every Update that succeeds ends with the receiver showing the frames just rendered. */
  ghost predicate AlwaysShows(o: Output) {
    forall p, clock, red, blue :: Updates(o, p, clock, red, blue) ==> Shows(p, Frames(o, red, blue))
  }

  lemma SyncedShows(o: Output, p: Output, clock: Clock, red: Pixels, blue: Pixels)
    requires KnownUniverses(o) && InSync(o) && WireDistinct(LayoutUniverses(o.layout))
    requires Updates(o, p, clock, red, blue)
    ensures Shows(p, Frames(o, red, blue))
  {
    var frames := Frames(o, red, blue);
    FramesKeys(o, red, blue);
    forall u | u in frames ensures ShowsOne(p, frames, u) {
      ShownExactlyWhen(o, p, frames, clock, frames.Keys, u);
    }
  }

  /** Distinct numbers on the wire are exactly what send-on-change needs: from any output in sync with its receiver,
      every Update on an admitted layout shows what it rendered if and only if no two of the layout's universes look
      the same on the wire. */
  lemma ShowsExactlyWhenWireDistinct(o: Output)
    requires Admissible(o.layout) && KnownUniverses(o) && InSync(o)
    ensures AlwaysShows(o) <==> WireDistinct(LayoutUniverses(o.layout))
  {
    if WireDistinct(LayoutUniverses(o.layout)) {
      forall p, clock, red, blue | Updates(o, p, clock, red, blue)
        ensures Shows(p, Frames(o, red, blue))
      {
        SyncedShows(o, p, clock, red, blue);
      }
    } else {
      var u, v :| u in LayoutUniverses(o.layout) && v in LayoutUniverses(o.layout) && Wire(u) == Wire(v) && u != v;
      var p, clock, red, blue := CollisionFails(o, u, v);
    }
  }

  /** An Update that succeeds and does not show its frames. */
  lemma CollisionFails(o: Output, u: int, v: int) returns (p: Output, clock: Clock, red: Pixels, blue: Pixels)
    requires Admissible(o.layout) && KnownUniverses(o)
    requires u in LayoutUniverses(o.layout) && v in LayoutUniverses(o.layout) && u != v && Wire(u) == Wire(v)
    ensures Updates(o, p, clock, red, blue) && !Shows(p, Frames(o, red, blue))
  {
    red, blue := CollisionCannotShow(o, u, v);
    clock := Clock(_ => 0, _ => 0);
    p := DeliveredTo(o, Frames(o, red, blue), clock);
    DeliveryReaches(o, Frames(o, red, blue), clock);
  }

  /** One fixture for each alliance, at the start of universes 1 and 65537. */
  const COLLIDING := Layout([Fixture(1, 1)], [Fixture(65537, 1)])

  /** SetLayout admits that layout, and a controller given it fails to show some picture. */
  lemma CollidingUniversesAreAdmitted(received: map<int, Frame>)
    ensures Admissible(COLLIDING) && Renderable(COLLIDING)
    ensures !AlwaysShows(Output(COLLIDING, map[], received))
  {
    var both := COLLIDING.red + COLLIDING.blue;
    assert both == [Fixture(1, 1), Fixture(65537, 1)];
    assert COLLIDING.red[0].universe in Universes(COLLIDING.red);
    assert COLLIDING.blue[0].universe in Universes(COLLIDING.blue);
    assert Wire(1) == Wire(65537);
    forall i, j | 0 <= i < j < |both| ensures !ShareAChannel(both[i], both[j]) {
      OverlapMeansShared(both[i], both[j]);
    }
    ShowsExactlyWhenWireDistinct(Output(COLLIDING, map[], received));
  }

  /** An Update a second or more after a universe's last packet, or with a changed frame, sends it, under the next
      sequence number; any other does not. A failed write is marked sent like any other, so an unchanged frame waits for the heartbeat. */
  lemma SentExactlyWhenDue(o: Output, p: Output, clock: Clock, red: Pixels, blue: Pixels, u: int)
    requires Updates(o, p, clock, red, blue) && u in Frames(o, red, blue)
    requires u in o.views && o.views[u].last.Some? && clock.sent(u) > o.views[u].last.value
    ensures p.views[u].last == Some(clock.sent(u)) <==>
      clock.check(u) - o.views[u].last.value >= 1_000_000_000 || Frames(o, red, blue)[u] != o.views[u].previous
    ensures p.views[u].sequence ==
      if p.views[u].last == Some(clock.sent(u)) then (o.views[u].sequence + 1) % 256 else o.views[u].sequence
    ensures p.views[u].last != Some(clock.sent(u)) ==> p.views[u].last == o.views[u].last
  {
  }
}

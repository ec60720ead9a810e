/** The publish/subscribe model of websocket/notifier.go: a bounded buffer per listener, a publisher that never
    waits, and listeners dropped once their reader is gone. A message is identified by its number, counting all
    that were published. */
module Notifier {
  import opened Options
  import opened MapOrder

  const BUFFER_SIZE := 5
  const BLOCKED_TIMEOUT := 30_000_000_000

  /** A listener's channel: subscribed when `since` messages had been published; what its reader has taken off it,
      and what is still in its buffer. */
  datatype Channel = Channel(since: nat, taken: seq<nat>, buffer: seq<nat>, closed: bool)

  datatype ListenerState = ListenerState(blockedSince: Option<int>, reported: bool)

  /** Everything one subscription consists of; its state is absent once it has been dropped. `reports` counts the
      log lines about it being blocked. */
  datatype Subscription = Subscription(channel: Channel, state: Option<ListenerState>, reports: nat)

  datatype Board = Board(published: nat, subscriptions: seq<Subscription>)

  function NewSubscription(published: nat): Subscription {
    Subscription(Channel(published, [], [], false), Some(ListenerState(None, false)), 0)
  }

  /** notifyListener: what sending message m does to one subscription. */
  function Deliver(s: Subscription, m: nat, now: int): Subscription {
    if s.state.None? then s
    else if s.channel.closed then s.(state := None)
    else if |s.channel.buffer| < BUFFER_SIZE then
      s.(channel := s.channel.(buffer := s.channel.buffer + [m]), state := Some(ListenerState(None, false)))
    else
      var blocked := if s.state.value.blockedSince.Some? then s.state.value.blockedSince.value else now;
      Subscription(
        s.channel,
        if now - blocked >= BLOCKED_TIMEOUT then None else Some(ListenerState(Some(blocked), true)),
        s.reports + if s.state.value.reported then 0 else 1)
  }

  /** Publishing reads the clock anew for each listener that is full. */
  datatype Event =
    | Publish(clock: nat -> int)
    | Subscribe
    | Drain(listener: nat)
    | Close(listener: nat)

  predicate Enabled(b: Board, e: Event) {
    match e
    case Publish(_) => true
    case Subscribe => true
    case Drain(l) => l < |b.subscriptions| && b.subscriptions[l].channel.buffer != []
    case Close(l) => l < |b.subscriptions| && !b.subscriptions[l].channel.closed
  }

  function DeliverTo(b: Board, l: nat, clock: nat -> int): Subscription
    requires l < |b.subscriptions|
  {
    Deliver(b.subscriptions[l], b.published, clock(l))
  }

  function Step(b: Board, e: Event): Board
    requires Enabled(b, e)
  {
    match e
    case Publish(clock) =>
      Board(b.published + 1, seq(|b.subscriptions|, l requires 0 <= l < |b.subscriptions| => DeliverTo(b, l, clock)))
    case Subscribe => b.(subscriptions := b.subscriptions + [NewSubscription(b.published)])
    case Drain(l) =>
      var c := b.subscriptions[l].channel;
      SetChannel(b, l, c.(taken := c.taken + [c.buffer[0]], buffer := c.buffer[1..]))
    case Close(l) => SetChannel(b, l, b.subscriptions[l].channel.(closed := true))
  }

  function SetChannel(b: Board, l: nat, c: Channel): Board
    requires l < |b.subscriptions|
  {
    b.(subscriptions := b.subscriptions[l := b.subscriptions[l].(channel := c)])
  }

  /** Any interleaving of publishing, subscribing, draining and closing: bs[i] is the board before event i. */
  ghost predicate Run(bs: seq<Board>, es: seq<Event>) {
    && |bs| == |es| + 1 && bs[0] == Board(0, [])
    && forall i :: 0 <= i < |es| ==> Enabled(bs[i], es[i]) && bs[i + 1] == Step(bs[i], es[i])
  }

  lemma RunStep(bs: seq<Board>, es: seq<Event>, n: nat)
    requires Run(bs, es) && n < |es|
    ensures Enabled(bs[n], es[n]) && bs[n + 1] == Step(bs[n], es[n])
    ensures |bs[n + 1].subscriptions| >= |bs[n].subscriptions|
  {
  }

  /** What the other events do: a new listener starts registered, empty and unblocked with the next message; a reader
      takes the oldest message in its buffer, or closes its channel. */
  lemma EventsAct(b: Board, e: Event)
    requires Enabled(b, e)
    ensures Enabled(b, Subscribe)
    ensures var c := Step(b, e);
      match e
      case Publish(_) => c.published == b.published + 1 && |c.subscriptions| == |b.subscriptions|
      case Subscribe =>
        c == Board(b.published, b.subscriptions + [
          Subscription(Channel(b.published, [], [], false), Some(ListenerState(None, false)), 0)])
      case Drain(l) =>
        var s := b.subscriptions[l];
        c == Board(b.published, b.subscriptions[l := s.(channel := Channel(
          s.channel.since, s.channel.taken + [s.channel.buffer[0]], s.channel.buffer[1..], s.channel.closed))])
      case Close(l) =>
        var s := b.subscriptions[l];
        !s.channel.closed && c == Board(b.published, b.subscriptions[l := s.(channel := s.channel.(closed := true))])
  {
  }

  // ----- readers that act while a message is being sent

  /** The board while a message is being sent: these listeners have been dealt with, the others not yet. */
  function PartWay(b: Board, done: set<nat>, clock: nat -> int): Board {
    b.(subscriptions := seq(|b.subscriptions|, l requires 0 <= l < |b.subscriptions| =>
                              if l in done then DeliverTo(b, l, clock) else b.subscriptions[l]))
  }

  /** The rest of the message. */
  function Finish(b: Board, done: set<nat>, clock: nat -> int): Board {
    Board(b.published + 1, seq(|b.subscriptions|, l requires 0 <= l < |b.subscriptions| =>
                                 if l in done then b.subscriptions[l] else DeliverTo(b, l, clock)))
  }

  /** A reader that takes a message or closes its channel while another message is being sent might as well have done so
      before it, if its own listener was still to come, or after it otherwise: nothing is lost by letting readers act
      between messages only. */
  lemma ReadersActBetweenMessages(b: Board, done: set<nat>, clock: nat -> int, e: Event)
    requires (e.Drain? || e.Close?) && Enabled(PartWay(b, done, clock), e)
    ensures var now := Finish(Step(PartWay(b, done, clock), e), done, clock);
      if e.listener in done
      then Enabled(Step(b, Publish(clock)), e) && now == Step(Step(b, Publish(clock)), e)
      else Enabled(b, e) && now == Step(Step(b, e), Publish(clock))
  {
    var part, all := PartWay(b, done, clock), Step(b, Publish(clock));
    var after := Step(part, e);
    if e.listener in done {
      assert part.subscriptions[e.listener] == all.subscriptions[e.listener];
      forall l | 0 <= l < |b.subscriptions|
        ensures Finish(after, done, clock).subscriptions[l] == Step(all, e).subscriptions[l]
      {
        assert l != e.listener ==> after.subscriptions[l] == part.subscriptions[l];
      }
      assert Finish(after, done, clock) == Step(all, e);
    } else {
      var before := Step(b, e);
      forall l | 0 <= l < |b.subscriptions|
        ensures Finish(after, done, clock).subscriptions[l] == Step(before, Publish(clock)).subscriptions[l]
      {
        assert l != e.listener ==> before.subscriptions[l] == b.subscriptions[l];
        assert l != e.listener ==> after.subscriptions[l] == part.subscriptions[l];
      }
      assert Finish(after, done, clock) == Step(before, Publish(clock));
    }
  }

  // ----- what a reader gets

  ghost predicate Increasing(s: seq<nat>) {
    forall i, j :: 0 <= i < j < |s| ==> s[i] < s[j]
  }

  ghost predicate Between(s: seq<nat>, low: nat, high: nat) {
    forall i :: 0 <= i < |s| ==> low <= s[i] < high
  }

  /** All that was ever accepted for this listener, in the order its reader gets it. */
  function Accepted(c: Channel): seq<nat> {
    c.taken + c.buffer
  }

  ghost predicate InOrder(c: Channel, published: nat) {
    Increasing(Accepted(c)) && Between(Accepted(c), c.since, published) && |c.buffer| <= 5
      && c.since <= published
  }

  lemma DeliverInOrder(s: Subscription, m: nat, now: int)
    requires InOrder(s.channel, m)
    ensures InOrder(Deliver(s, m, now).channel, m + 1)
  {
    var c := s.channel;
    assert c.taken + (c.buffer + [m]) == Accepted(c) + [m];
  }

  lemma DrainInOrder(c: Channel, published: nat)
    requires InOrder(c, published) && c.buffer != []
    ensures InOrder(c.(taken := c.taken + [c.buffer[0]], buffer := c.buffer[1..]), published)
  {
    assert c.taken + [c.buffer[0]] + c.buffer[1..] == Accepted(c);
  }

  /** In every interleaving, what a listener's reader gets is an in-order subsequence, without repetitions, of the
      messages published since it subscribed, and its buffer never holds more than five. */
  lemma {:induction false} ReceivedInOrder(bs: seq<Board>, es: seq<Event>, n: nat, l: nat)
    requires Run(bs, es) && n <= |es| && l < |bs[n].subscriptions|
    ensures InOrder(bs[n].subscriptions[l].channel, bs[n].published)
  {
    if n > 0 {
      var b := bs[n - 1];
      RunStep(bs, es, n - 1);
      if l < |b.subscriptions| {
        ReceivedInOrder(bs, es, n - 1, l);
        StepInOrder(b, es[n - 1], l);
      }
    }
  }

  lemma StepInOrder(b: Board, e: Event, l: nat)
    requires Enabled(b, e) && l < |b.subscriptions| && InOrder(b.subscriptions[l].channel, b.published)
    ensures InOrder(Step(b, e).subscriptions[l].channel, Step(b, e).published)
  {
    match e
    case Publish(clock) => DeliverInOrder(b.subscriptions[l], b.published, clock(l));
    case Drain(k) =>
      if k == l {
        DrainInOrder(b.subscriptions[l].channel, b.published);
      }
    case _ =>
  }

  /** A message is missed only by a listener that was full, closed or dropped when it was published; any other has
      it as the newest in its buffer. */
  lemma MissedExactlyWhenFull(b: Board, clock: nat -> int, l: nat)
    requires l < |b.subscriptions| && InOrder(b.subscriptions[l].channel, b.published)
    ensures var s, c := b.subscriptions[l], Step(b, Publish(clock)).subscriptions[l].channel;
      b.published in Accepted(c) <==>
        s.state.Some? && !s.channel.closed && |s.channel.buffer| < 5
  {
  }

  // ----- blocked spells

  /** Event n publishes a message that listener l, still registered and open, is too full to take. */
  predicate Fails(bs: seq<Board>, es: seq<Event>, n: nat, l: nat)
    requires n < |es| && |bs| == |es| + 1
  {
    && es[n].Publish? && l < |bs[n].subscriptions|
    && var s := bs[n].subscriptions[l];
       s.state.Some? && !s.channel.closed && |s.channel.buffer| >= 5
  }

  /** The start of the blocked spell that l is in before event n: the event since which every message published
      has failed. None if the last message published since l subscribed was taken. */
  function Spell(bs: seq<Board>, es: seq<Event>, n: nat, l: nat): Option<nat>
    requires n <= |es| && |bs| == |es| + 1
  {
    if n == 0 then None
    else if !es[n - 1].Publish? then Spell(bs, es, n - 1, l)
    else if !Fails(bs, es, n - 1, l) then None
    else if Spell(bs, es, n - 1, l).Some? then Spell(bs, es, n - 1, l)
    else Some(n - 1)
  }

  /** How many blocked spells l has entered before event n. */
  function Spells(bs: seq<Board>, es: seq<Event>, n: nat, l: nat): nat
    requires n <= |es| && |bs| == |es| + 1
  {
    if n == 0 then 0
    else Spells(bs, es, n - 1, l) + if Fails(bs, es, n - 1, l) && Spell(bs, es, n - 1, l).None? then 1 else 0
  }

  /** A spell is what it says: it began with a failure, and every message since has failed. */
  lemma {:induction false} SpellIsUnbroken(bs: seq<Board>, es: seq<Event>, n: nat, l: nat)
    requires Run(bs, es) && n <= |es| && Spell(bs, es, n, l).Some?
    ensures var k := Spell(bs, es, n, l).value;
      && k < n && Fails(bs, es, k, l)
      && (forall j :: k <= j < n && es[j].Publish? ==> Fails(bs, es, j, l))
      && Spell(bs, es, k, l).None?
  {
    if !es[n - 1].Publish? || Spell(bs, es, n - 1, l).Some? {
      SpellIsUnbroken(bs, es, n - 1, l);
    }
  }

  /** The listener's flags and its log lines say what its history does. */
  predicate Tracked(bs: seq<Board>, es: seq<Event>, n: nat, l: nat)
    requires n <= |es| && |bs| == |es| + 1 && l < |bs[n].subscriptions|
  {
    var s, spell := bs[n].subscriptions[l], Spell(bs, es, n, l);
    && s.reports == Spells(bs, es, n, l)
    && (s.state.Some? ==>
          && s.state.value.reported == spell.Some?
          && s.state.value.blockedSince ==
               if spell.Some? && spell.value < |es| && es[spell.value].Publish?
               then Some(es[spell.value].clock(l)) else None)
  }

  lemma PublishTracks(bs: seq<Board>, es: seq<Event>, n: nat, l: nat)
    requires Run(bs, es) && n < |es| && es[n].Publish? && l < |bs[n].subscriptions| && Tracked(bs, es, n, l)
    requires var spell := Spell(bs, es, n, l); spell.Some? ==> spell.value < n && es[spell.value].Publish?
    ensures l < |bs[n + 1].subscriptions| && Tracked(bs, es, n + 1, l)
  {
    RunStep(bs, es, n);
  }

  lemma OthersTrack(bs: seq<Board>, es: seq<Event>, n: nat, l: nat)
    requires Run(bs, es) && n < |es| && !es[n].Publish? && l < |bs[n].subscriptions| && Tracked(bs, es, n, l)
    ensures l < |bs[n + 1].subscriptions| && Tracked(bs, es, n + 1, l)
  {
    RunStep(bs, es, n);
  }

  lemma {:induction false} FlagsTrackHistory(bs: seq<Board>, es: seq<Event>, n: nat, l: nat)
    requires Run(bs, es) && n <= |es| && l < |bs[n].subscriptions|
    ensures Tracked(bs, es, n, l)
  {
    if n > 0 {
      RunStep(bs, es, n - 1);
      if l < |bs[n - 1].subscriptions| {
        FlagsTrackHistory(bs, es, n - 1, l);
        if Spell(bs, es, n - 1, l).Some? {
          SpellIsUnbroken(bs, es, n - 1, l);
        }
        if es[n - 1].Publish? {
          PublishTracks(bs, es, n - 1, l);
        } else {
          OthersTrack(bs, es, n - 1, l);
        }
      } else {
        NoSpellBeforeSubscribing(bs, es, n - 1, l);
      }
    }
  }

  lemma {:induction false} NoSpellBeforeSubscribing(bs: seq<Board>, es: seq<Event>, n: nat, l: nat)
    requires Run(bs, es) && n <= |es| && l >= |bs[n].subscriptions|
    ensures Spell(bs, es, n, l).None? && Spells(bs, es, n, l) == 0
  {
    if n > 0 {
      RunStep(bs, es, n - 1);
      NoSpellBeforeSubscribing(bs, es, n - 1, l);
    }
  }

  /** However often it fails, a listener is logged exactly once for every blocked spell. */
  lemma LoggedOncePerSpell(bs: seq<Board>, es: seq<Event>, n: nat, l: nat)
    requires Run(bs, es) && n <= |es| && l < |bs[n].subscriptions|
    ensures bs[n].subscriptions[l].reports == Spells(bs, es, n, l)
  {
    FlagsTrackHistory(bs, es, n, l);
  }

  /** Messages k and n fail for l, and so does every other in between. */
  ghost predicate UnbrokenFrom(bs: seq<Board>, es: seq<Event>, k: nat, n: nat, l: nat)
    requires n < |es| && |bs| == |es| + 1
  {
    k <= n && Fails(bs, es, k, l) && Fails(bs, es, n, l)
      && forall j :: k <= j <= n && es[j].Publish? ==> Fails(bs, es, j, l)
  }

  /** Message n ends an unbroken run of failures that spans at least this long. */
  ghost predicate BlockedFor(bs: seq<Board>, es: seq<Event>, n: nat, l: nat, time: int)
    requires n < |es| && |bs| == |es| + 1
  {
    exists k: nat :: UnbrokenFrom(bs, es, k, n, l) && es[n].clock(l) - es[k].clock(l) >= time
  }

  /** The clock read for a listener does not go back. */
  ghost predicate ClockRuns(es: seq<Event>, l: nat) {
    forall i, j :: 0 <= i <= j < |es| && es[i].Publish? && es[j].Publish? ==> es[i].clock(l) <= es[j].clock(l)
  }

  lemma {:induction false} SpellCovers(bs: seq<Board>, es: seq<Event>, k: nat, n: nat, m: nat, l: nat)
    requires Run(bs, es) && k < m <= n + 1 && n < |es| && UnbrokenFrom(bs, es, k, n, l)
    ensures Spell(bs, es, m, l).Some? && Spell(bs, es, m, l).value <= k
    decreases m
  {
    if m == k + 1 {
      if Spell(bs, es, k, l).Some? {
        SpellIsUnbroken(bs, es, k, l);
      }
    } else {
      SpellCovers(bs, es, k, n, m - 1, l);
    }
  }

  /** A listener is dropped by a message exactly if its reader has closed it, or if the message is the last of an
      unbroken run of failed ones that spans at least thirty seconds. */
  lemma DroppedExactlyWhen(bs: seq<Board>, es: seq<Event>, n: nat, l: nat)
    requires Run(bs, es) && ClockRuns(es, l) && n < |es| && es[n].Publish? && l < |bs[n].subscriptions|
    requires bs[n].subscriptions[l].state.Some?
    ensures bs[n + 1].subscriptions[l].state.None? <==>
      bs[n].subscriptions[l].channel.closed || BlockedFor(bs, es, n, l, 30_000_000_000)
  {
    DroppedByTheSpell(bs, es, n, l);
    if Fails(bs, es, n, l) {
      BlockedForTheSpell(bs, es, n, l, BLOCKED_TIMEOUT);
    }
  }

  /** A run of failures that lasts long enough is there exactly if the spell lasts that long: no run is longer. */
  lemma BlockedForTheSpell(bs: seq<Board>, es: seq<Event>, n: nat, l: nat, time: int)
    requires Run(bs, es) && ClockRuns(es, l) && n < |es| && Fails(bs, es, n, l)
    ensures Spell(bs, es, n + 1, l).Some? && Spell(bs, es, n + 1, l).value <= n
    ensures var first := Spell(bs, es, n + 1, l).value;
      es[first].Publish? && (BlockedFor(bs, es, n, l, time) <==> es[n].clock(l) - es[first].clock(l) >= time)
  {
    SpellIsUnbroken(bs, es, n + 1, l);
    var first := Spell(bs, es, n + 1, l).value;
    assert UnbrokenFrom(bs, es, first, n, l);
    if BlockedFor(bs, es, n, l, time) {
      var k: nat :| UnbrokenFrom(bs, es, k, n, l) && es[n].clock(l) - es[k].clock(l) >= time;
      SpellCovers(bs, es, k, n, n + 1, l);
      assert es[first].clock(l) <= es[k].clock(l);
    }
  }

  lemma DroppedByTheSpell(bs: seq<Board>, es: seq<Event>, n: nat, l: nat)
    requires Run(bs, es) && n < |es| && es[n].Publish? && l < |bs[n].subscriptions|
    requires bs[n].subscriptions[l].state.Some?
    ensures Fails(bs, es, n, l) ==> Spell(bs, es, n + 1, l).Some? && Spell(bs, es, n + 1, l).value <= n
                                    && es[Spell(bs, es, n + 1, l).value].Publish?
    ensures bs[n + 1].subscriptions[l].state.None? <==>
      || bs[n].subscriptions[l].channel.closed
      || (Fails(bs, es, n, l) && es[n].clock(l) - es[Spell(bs, es, n + 1, l).value].clock(l) >= BLOCKED_TIMEOUT)
  {
    RunStep(bs, es, n);
    FlagsTrackHistory(bs, es, n, l);
    if Spell(bs, es, n, l).Some? {
      SpellIsUnbroken(bs, es, n, l);
    }
  }

  // ----- the notifier as it runs

  ghost function SubscriptionAt(
    channels: seq<Channel>, listeners: map<int, ListenerState>, reports: seq<nat>, l: nat): Subscription
    requires l < |channels| == |reports|
  {
    Subscription(channels[l], if l in listeners then Some(listeners[l]) else None, reports[l])
  }

  ghost function BoardOf(
    published: nat, channels: seq<Channel>, listeners: map<int, ListenerState>, reports: seq<nat>): Board
    requires |channels| == |reports|
  {
    Board(published, seq(|channels|, l requires 0 <= l < |channels| => SubscriptionAt(channels, listeners, reports, l)))
  }

  /** The message has been dealt with for the first n listeners of the order, and for no other. */
  ghost predicate DeliveredFirst(
    before: seq<Subscription>, now: seq<Subscription>, order: seq<int>, n: nat, message: nat, clock: nat -> int)
    requires n <= |order|
  {
    && |now| == |before|
    && forall k: nat :: k < |before| ==>
      now[k] == if k in order[..n] then Deliver(before[k], message, clock(k)) else before[k]
  }

  lemma DeliveredNext(
    before: seq<Subscription>, now: seq<Subscription>, order: seq<int>, n: nat, message: nat, clock: nat -> int)
    requires n < |order| && 0 <= order[n] < |before| && order[n] !in order[..n]
    requires DeliveredFirst(before, now, order, n, message, clock)
    ensures DeliveredFirst(
      before, now[order[n] := Deliver(now[order[n]], message, clock(order[n]))], order, n + 1, message, clock)
  {
    assert order[..n + 1] == order[..n] + [order[n]];
  }

  /** The listeners still to come are registered when no other than the one before them may have gone. */
  lemma RestRegistered(order: seq<int>, keys: set<int>, n: nat, before: set<int>, after: set<int>)
    requires Lists(order, keys) && n < |order| && before <= after + {order[n]}
    requires forall i :: n <= i < |order| ==> order[i] in before
    ensures forall i :: n < i < |order| ==> order[i] in after
  {
    forall i | n < i < |order| ensures order[i] in after {
      ListsOnce(order, keys, i, order[i]);
      assert order[..i][n] == order[n];
    }
  }

  class EventNotifier {
    var published: nat
    var channels: seq<Channel>
    var listeners: map<int, ListenerState>
    /** How often each listener was logged as blocked. */
    var reports: seq<nat>

    ghost predicate Valid()
      reads this
    {
      |reports| == |channels| && forall l :: l in listeners ==> 0 <= l < |channels|
    }

    ghost function View(): Board
      requires Valid()
      reads this
    {
      BoardOf(published, channels, listeners, reports)
    }

    constructor ()
      ensures Valid() && View() == Board(0, [])
    {
      published, channels, listeners, reports := 0, [], map[], [];
    }

    method Listen() returns (l: nat)
      requires Valid()
      modifies this
      ensures Valid() && View() == Step(old(View()), Subscribe) && l == |old(channels)|
    {
      l := |channels|;
      channels := channels + [Channel(published, [], [], false)];
      reports := reports + [0];
      listeners := listeners[l := ListenerState(None, false)];
    }

    method NotifyListener(l: nat, now: int)
      requires Valid() && l in listeners
      modifies this`channels, this`listeners, this`reports
      ensures Valid() && |channels| == |old(channels)|
      ensures listeners.Keys <= old(listeners).Keys && old(listeners).Keys <= listeners.Keys + {l}
      ensures View().subscriptions == old(View()).subscriptions[l := Deliver(old(View()).subscriptions[l], published, now)]
    {
      var state := listeners[l];
      if channels[l].closed {
        listeners := listeners - {l};
        return;
      }
      if |channels[l].buffer| < BUFFER_SIZE {
        channels := channels[l := channels[l].(buffer := channels[l].buffer + [published])];
        listeners := listeners[l := ListenerState(None, false)];
        return;
      }
      if state.blockedSince.None? {
        state := state.(blockedSince := Some(now));
      }
      if !state.reported {
        reports := reports[l := reports[l] + 1];
        state := state.(reported := true);
      }
      listeners := listeners[l := state];
      if now - state.blockedSince.value >= BLOCKED_TIMEOUT {
        listeners := listeners - {l};
      }
    }

    /** Goes on to the nth listener of the order. */
    method NotifyNext(order: seq<int>, n: nat, clock: nat -> int, ghost before: seq<Subscription>)
      requires Valid() && n < |order| && order[n] in listeners && order[n] !in order[..n]
      requires DeliveredFirst(before, View().subscriptions, order, n, published, clock)
      modifies this`channels, this`listeners, this`reports
      ensures Valid() && DeliveredFirst(before, View().subscriptions, order, n + 1, published, clock)
      ensures old(listeners).Keys <= listeners.Keys + {order[n]}
    {
      ghost var now := View().subscriptions;
      NotifyListener(order[n], clock(order[n]));
      DeliveredNext(before, now, order, n, published, clock);
    }

    /** Sends the next message to every registered listener, and drops those closed or gone. */
    method Notify(clock: nat -> int)
      requires Valid()
      modifies this
      ensures Valid() && View() == Step(old(View()), Publish(clock))
    {
      var order := ListKeys(listeners.Keys);
      ListsEach(order, listeners.Keys);
      ghost var before := View().subscriptions;
      for n := 0 to |order|
        invariant Valid() && published == old(published)
        invariant forall i :: n <= i < |order| ==> order[i] in listeners
        invariant DeliveredFirst(before, View().subscriptions, order, n, published, clock)
      {
        ListsOnce(order, old(listeners).Keys, n, order[n]);
        ghost var registered := listeners.Keys;
        NotifyNext(order, n, clock, before);
        RestRegistered(order, old(listeners).Keys, n, registered, listeners.Keys);
      }
      assert order[..|order|] == order;
      published := published + 1;
    }
  }
}

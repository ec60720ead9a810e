/** The background configuration of the wired network (configureTeamEthernet in field/arena.go): every request
    starts a goroutine, a later request supersedes an earlier one that has not reached the switch, and
    goroutines interleave freely between the steps below. */
module EthernetConfig {
  import opened TeamNetwork
  import opened SwitchDevice
  import opened TeamSwitch
  import opened TeamSwitchProofs
  import opened Options

  /** Where one request's goroutine stands. It holds ethernetApplyMutex from Checking to Applied. */
  datatype Phase = Waiting | Checking | Applying | Applied | Done

  datatype Application = Application(generation: nat, ok: bool)

  /** Request g (counting from 1, as ethernetConfigGeneration does) asked for requested[g - 1]. The generation
      counter is |requested|. */
  datatype Protocol = Protocol(
    requested: seq<Teams>,
    phases: seq<Phase>,
    holder: Option<nat>,
    log: seq<Application>,
    switch: State)

  datatype Action =
    | Request(teams: Teams)
    | Acquire(g: nat)
    | Check(g: nat)
    | Apply(g: nat, outcomes: Outcomes)
    | Release(g: nat)
    | CyclePorts(stations: SixFlags, down: Outcome, up: Outcome)

  predicate IsRequest(p: Protocol, g: nat) {
    1 <= g <= |p.requested| == |p.phases|
  }

  function PhaseOf(p: Protocol, g: nat): Phase
    requires IsRequest(p, g)
  {
    p.phases[g - 1]
  }

  predicate Enabled(p: Protocol, a: Action) {
    match a
    case Request(teams) => DistinctTeams(TeamIds(teams))
    case Acquire(g) => IsRequest(p, g) && PhaseOf(p, g) == Waiting && p.holder == None
    case Check(g) => IsRequest(p, g) && PhaseOf(p, g) == Checking
    case Apply(g, _) => IsRequest(p, g) && PhaseOf(p, g) == Applying
    case Release(g) => IsRequest(p, g) && PhaseOf(p, g) == Applied
    case CyclePorts(_, _, _) => true
  }

  function SetPhase(p: Protocol, g: nat, phase: Phase): Protocol
    requires IsRequest(p, g)
  {
    p.(phases := p.phases[g - 1 := phase])
  }

  function Next(cfg: Config, p: Protocol, a: Action): Protocol
    requires Enabled(p, a)
  {
    match a
    case Request(teams) => p.(requested := p.requested + [teams], phases := p.phases + [Waiting])
    case Acquire(g) => SetPhase(p, g, Checking).(holder := Some(g))
    case Check(g) =>
      if g != |p.requested| then SetPhase(p, g, Done).(holder := None) else SetPhase(p, g, Applying)
    case Apply(g, o) =>
      SetPhase(p, g, Applied).(
        log := p.log + [Application(g, Succeeds(cfg, p.switch, p.requested[g - 1], o))],
        switch := Configure(cfg, p.switch, p.requested[g - 1], o))
    case Release(g) => SetPhase(p, g, Done).(holder := None)
    case CyclePorts(stations, down, up) => p.(switch := Cycle(cfg, p.switch, stations, down, up))
  }

  predicate Start(p: Protocol) {
    p.requested == [] && p.phases == [] && p.holder == None && p.log == [] && Initial(p.switch)
  }

  /** An interleaving is a sequence of actions each enabled where it happens. */
  predicate Possible(cfg: Config, p: Protocol, actions: seq<Action>)
    decreases |actions|
  {
    actions == [] || (Enabled(p, actions[0]) && Possible(cfg, Next(cfg, p, actions[0]), actions[1..]))
  }

  function After(cfg: Config, p: Protocol, actions: seq<Action>): Protocol
    requires Possible(cfg, p, actions)
    decreases |actions|
  {
    if actions == [] then p else After(cfg, Next(cfg, p, actions[0]), actions[1..])
  }

  // ----- what every interleaving keeps

  predicate Holding(phase: Phase) {
    phase.Checking? || phase.Applying? || phase.Applied?
  }

  /** Only the lock's holder is past waiting, and it is. */
  ghost predicate LockHeld(p: Protocol) {
    && |p.phases| == |p.requested|
    && (p.holder.Some? ==> IsRequest(p, p.holder.value) && Holding(PhaseOf(p, p.holder.value)))
    && forall g: nat :: IsRequest(p, g) && Holding(PhaseOf(p, g)) ==> p.holder == Some(g)
  }

  ghost predicate LogIncreases(log: seq<Application>) {
    forall i, j :: 0 <= i < j < |log| ==> log[i].generation < log[j].generation
  }

  ghost predicate Logged(p: Protocol, g: nat) {
    exists i :: 0 <= i < |p.log| && p.log[i].generation == g
  }

  /** A request still on its way to the switch has not been applied. */
  ghost predicate PendingUnapplied(p: Protocol) {
    forall g: nat :: IsRequest(p, g) && (PhaseOf(p, g).Waiting? || PhaseOf(p, g).Checking?) ==> !Logged(p, g)
  }

  /** A request being applied is newer than every one that was. */
  ghost predicate ApplyingIsNewest(p: Protocol) {
    forall g: nat, i :: IsRequest(p, g) && PhaseOf(p, g).Applying? && 0 <= i < |p.log| ==> p.log[i].generation < g
  }

  /** The newest request, once past the switch, was not dropped. */
  ghost predicate NewestNotDropped(p: Protocol) {
    forall g: nat :: IsRequest(p, g) && g == |p.requested| && (PhaseOf(p, g).Applied? || PhaseOf(p, g).Done?) ==>
      Logged(p, g)
  }

  ghost predicate LogMatches(p: Protocol) {
    && LogIncreases(p.log)
    && (forall i :: 0 <= i < |p.log| ==> 1 <= p.log[i].generation <= |p.requested|)
    && PendingUnapplied(p) && ApplyingIsNewest(p) && NewestNotDropped(p)
  }

  ghost predicate SwitchMatches(cfg: Config, p: Protocol) {
    && BeliefHolds(cfg, p.switch)
    && (forall i :: 0 <= i < |p.requested| ==> DistinctTeams(TeamIds(p.requested[i])))
    && (p.log != [] && p.log[|p.log| - 1].ok && cfg.address != "" ==>
          var g := p.log[|p.log| - 1].generation;
          && 1 <= g <= |p.requested|
          && p.switch.synced && p.switch.applied == TeamIds(p.requested[g - 1]))
  }

  ghost predicate Invariant(cfg: Config, p: Protocol) {
    LockHeld(p) && LogMatches(p) && SwitchMatches(cfg, p)
  }

  lemma LockStep(cfg: Config, p: Protocol, a: Action)
    requires LockHeld(p) && Enabled(p, a)
    ensures LockHeld(Next(cfg, p, a))
  {
    var q := Next(cfg, p, a);
    match a
    case Request(_) =>
      assert forall h: nat :: IsRequest(p, h) ==> PhaseOf(q, h) == PhaseOf(p, h);
    case CyclePorts(_, _, _) =>
    case Acquire(g) => LockMoves(p, q, g, Checking);
    case Check(g) => LockMoves(p, q, g, if g != |p.requested| then Done else Applying);
    case Apply(g, _) => LockMoves(p, q, g, Applied);
    case Release(g) => LockMoves(p, q, g, Done);
  }

  /** One goroutine moves on, and has the lock exactly if it is then at the switch. */
  lemma LockMoves(p: Protocol, q: Protocol, g: nat, phase: Phase)
    requires LockHeld(p) && IsRequest(p, g) && (p.holder == None || p.holder == Some(g))
    requires q.requested == p.requested && q.phases == p.phases[g - 1 := phase]
    requires q.holder == if Holding(phase) then Some(g) else None
    ensures LockHeld(q)
  {
    forall h: nat | IsRequest(q, h) && Holding(PhaseOf(q, h)) ensures q.holder == Some(h) {
      if h != g {
        assert PhaseOf(q, h) == PhaseOf(p, h);
      }
    }
  }

  lemma LogStep(cfg: Config, p: Protocol, a: Action)
    requires LockHeld(p) && LogMatches(p) && Enabled(p, a)
    ensures LogMatches(Next(cfg, p, a))
  {
    match a
    case Apply(g, o) => LogGrows(p, Next(cfg, p, a), g);
    case Check(g) => LogCheck(cfg, p, g);
    case CyclePorts(_, _, _) =>
      var q := Next(cfg, p, a);
      assert forall h: nat :: IsRequest(q, h) ==> PhaseOf(q, h) == PhaseOf(p, h);
      SameLog(p, q);
    case Request(teams) =>
      var q := Next(cfg, p, a);
      assert forall h: nat :: IsRequest(p, h) ==> PhaseOf(q, h) == PhaseOf(p, h);
      assert PhaseOf(q, |q.requested|) == Waiting;
      SameLog(p, q);
      forall h: nat, i | IsRequest(q, h) && PhaseOf(q, h).Applying? && 0 <= i < |q.log| ensures q.log[i].generation < h {
        assert IsRequest(p, h);
      }
    case Acquire(g) => LogAcquireRelease(cfg, p, a);
    case Release(g) => LogAcquireRelease(cfg, p, a);
  }

  lemma LogAcquireRelease(cfg: Config, p: Protocol, a: Action)
    requires LockHeld(p) && LogMatches(p) && Enabled(p, a) && (a.Acquire? || a.Release?)
    ensures LogMatches(Next(cfg, p, a))
  {
    var q := Next(cfg, p, a);
    assert forall h: nat :: IsRequest(q, h) && h != a.g ==> PhaseOf(q, h) == PhaseOf(p, h);
    SameLog(p, q);
  }

  lemma LogCheck(cfg: Config, p: Protocol, g: nat)
    requires LockHeld(p) && LogMatches(p) && Enabled(p, Check(g))
    ensures LogMatches(Next(cfg, p, Check(g)))
  {
    var q := Next(cfg, p, Check(g));
    assert forall h: nat :: IsRequest(q, h) && h != g ==> PhaseOf(q, h) == PhaseOf(p, h);
    SameLog(p, q);
    assert !Logged(p, g);
    if g == |p.requested| {
      forall i | 0 <= i < |p.log| ensures p.log[i].generation < g {
        assert p.log[i].generation != g;
      }
    }
  }

  lemma LogGrows(p: Protocol, q: Protocol, g: nat)
    requires LockHeld(p) && LogMatches(p) && IsRequest(p, g) && PhaseOf(p, g).Applying?
    requires q.requested == p.requested && q.phases == p.phases[g - 1 := Applied]
    requires |q.log| == |p.log| + 1 && q.log[..|p.log|] == p.log && q.log[|p.log|].generation == g
    ensures LogMatches(q)
  {
    assert forall h: nat :: IsRequest(q, h) && h != g ==> PhaseOf(q, h) == PhaseOf(p, h);
    assert forall i :: 0 <= i < |p.log| ==> q.log[i] == p.log[i];
    forall h ensures Logged(q, h) <==> Logged(p, h) || h == g {
      if Logged(p, h) {
        var i :| 0 <= i < |p.log| && p.log[i].generation == h;
        assert q.log[i].generation == h;
      }
    }
    // no other request can be at the switch at the same time
    assert p.holder == Some(g);
    assert forall h: nat :: IsRequest(p, h) && h != g ==> !Holding(PhaseOf(p, h));
  }

  lemma SameLog(p: Protocol, q: Protocol)
    requires p.log == q.log
    ensures forall g :: Logged(p, g) <==> Logged(q, g)
  {
  }

  lemma SwitchStep(cfg: Config, p: Protocol, a: Action)
    requires Invariant(cfg, p) && Enabled(p, a)
    ensures SwitchMatches(cfg, Next(cfg, p, a))
  {
    match a
    case Apply(g, o) => SwitchApply(cfg, p, g, o);
    case CyclePorts(stations, down, up) => SwitchCycle(cfg, p, stations, down, up);
    case Request(teams) => SwitchRequest(cfg, p, teams);
    case _ => SwitchUntouched(cfg, p, Next(cfg, p, a));
  }

  lemma SwitchUntouched(cfg: Config, p: Protocol, q: Protocol)
    requires SwitchMatches(cfg, p) && q.switch == p.switch && q.log == p.log && q.requested == p.requested
    ensures SwitchMatches(cfg, q)
  {
  }

  lemma SwitchApply(cfg: Config, p: Protocol, g: nat, o: Outcomes)
    requires Invariant(cfg, p) && Enabled(p, Apply(g, o))
    ensures SwitchMatches(cfg, Next(cfg, p, Apply(g, o)))
  {
    var teams := p.requested[g - 1];
    assert DistinctTeams(TeamIds(teams));
    ConfigureEffect(cfg, p.switch, teams, o);
    AppliedMatches(cfg, p, g, Configure(cfg, p.switch, teams, o), Succeeds(cfg, p.switch, teams, o));
  }

  lemma SwitchRequest(cfg: Config, p: Protocol, teams: Teams)
    requires SwitchMatches(cfg, p) && DistinctTeams(TeamIds(teams))
    ensures SwitchMatches(cfg, Next(cfg, p, Request(teams)))
  {
  }

  lemma SwitchCycle(cfg: Config, p: Protocol, stations: SixFlags, down: Outcome, up: Outcome)
    requires SwitchMatches(cfg, p)
    ensures SwitchMatches(cfg, p.(switch := Cycle(cfg, p.switch, stations, down, up)))
  {
    CycleEffect(cfg, p.switch, stations, down, up);
  }

  lemma AppliedMatches(cfg: Config, p: Protocol, g: nat, t: State, ok: bool)
    requires SwitchMatches(cfg, p) && IsRequest(p, g) && BeliefHolds(cfg, t)
    requires ok && cfg.address != "" ==> t.synced && t.applied == TeamIds(p.requested[g - 1])
    ensures SwitchMatches(cfg, SetPhase(p, g, Applied).(log := p.log + [Application(g, ok)], switch := t))
  {
  }

  lemma {:induction false} InvariantHolds(cfg: Config, p: Protocol, actions: seq<Action>)
    requires Invariant(cfg, p) && Possible(cfg, p, actions)
    ensures Invariant(cfg, After(cfg, p, actions))
    decreases |actions|
  {
    if actions != [] {
      LockStep(cfg, p, actions[0]);
      LogStep(cfg, p, actions[0]);
      SwitchStep(cfg, p, actions[0]);
      InvariantHolds(cfg, Next(cfg, p, actions[0]), actions[1..]);
    }
  }

  /** In every interleaving at most one goroutine is ever applying a configuration to the switch. */
  lemma ApplicationsNeverOverlap(cfg: Config, p: Protocol, actions: seq<Action>, g: nat, h: nat)
    requires Start(p) && Possible(cfg, p, actions)
    requires IsRequest(After(cfg, p, actions), g) && PhaseOf(After(cfg, p, actions), g).Applying?
    requires IsRequest(After(cfg, p, actions), h) && PhaseOf(After(cfg, p, actions), h).Applying?
    ensures g == h
  {
    InvariantHolds(cfg, p, actions);
  }

  /** In every interleaving the applications reach the switch in strictly increasing order of request. */
  lemma ApplicationsInOrder(cfg: Config, p: Protocol, actions: seq<Action>)
    requires Start(p) && Possible(cfg, p, actions)
    ensures LogIncreases(After(cfg, p, actions).log)
  {
    InvariantHolds(cfg, p, actions);
  }

  ghost predicate Quiet(p: Protocol) {
    forall i :: 0 <= i < |p.phases| ==> p.phases[i].Done?
  }

  /** Once no goroutine is left, the last application was the newest request's, and if it succeeded the switch
      carries exactly the newest lineup, whatever failed or was superseded on the way. */
  lemma QuietFieldCarriesNewestLineup(cfg: Config, p: Protocol, actions: seq<Action>)
    requires Start(p) && Possible(cfg, p, actions)
    requires Quiet(After(cfg, p, actions)) && After(cfg, p, actions).requested != []
    ensures var q := After(cfg, p, actions);
      && q.log != []
      && q.log[|q.log| - 1].generation == |q.requested|
      && (q.log[|q.log| - 1].ok && cfg.address != "" ==>
            Carries(cfg.dnsServer, q.switch.device, TeamIds(q.requested[|q.requested| - 1])))
  {
    InvariantHolds(cfg, p, actions);
    var q := After(cfg, p, actions);
    var g := |q.requested|;
    assert IsRequest(q, g) && PhaseOf(q, g).Done?;
    var i :| 0 <= i < |q.log| && q.log[i].generation == g;
    assert i == |q.log| - 1;
  }

  // ----- the switch sees one call after another

  /** The calls that reached the switch, in the order in which they did; dropped requests make none. */
  function CallsMade(requested: seq<Teams>, actions: seq<Action>): seq<Call>
    decreases |actions|
  {
    if actions == [] then []
    else
      (match actions[0]
       case Apply(g, o) => if 1 <= g <= |requested| then [ConfigureCall(requested[g - 1], o)] else []
       case CyclePorts(stations, down, up) => [CycleCall(stations, down, up)]
       case _ => [])
      + CallsMade(requested, actions[1..])
  }

  lemma {:induction false} RequestsGrow(cfg: Config, p: Protocol, actions: seq<Action>)
    requires Possible(cfg, p, actions)
    ensures p.requested <= After(cfg, p, actions).requested
    decreases |actions|
  {
    if actions != [] {
      RequestsGrow(cfg, Next(cfg, p, actions[0]), actions[1..]);
    }
  }

  /** Every interleaving leaves the switch as one run of calls does, each made with distinct teams; so what is
      proved of every run of calls holds of every interleaving. */
  lemma {:induction false} InterleavingIsARun(cfg: Config, p: Protocol, actions: seq<Action>)
    requires Possible(cfg, p, actions) && Requestable(p.requested)
    ensures var q := After(cfg, p, actions);
      q.switch == Run(cfg, p.switch, CallsMade(q.requested, actions)) && ValidCalls(CallsMade(q.requested, actions))
    decreases |actions|
  {
    if actions != [] {
      var a := actions[0];
      var next := Next(cfg, p, a);
      var requested := After(cfg, p, actions).requested;
      RequestsGrow(cfg, p, actions);
      InterleavingIsARun(cfg, next, actions[1..]);
      var rest := CallsMade(requested, actions[1..]);
      match a
      case Apply(g, o) => OneCallFirst(cfg, p.switch, ConfigureCall(p.requested[g - 1], o), rest);
      case CyclePorts(stations, down, up) => OneCallFirst(cfg, p.switch, CycleCall(stations, down, up), rest);
      case _ =>
        assert CallsMade(requested, actions) == rest;
    }
  }

  lemma OneCallFirst(cfg: Config, s: State, c: Call, rest: seq<Call>)
    requires ValidCall(c) && ValidCalls(rest)
    ensures Run(cfg, s, [c] + rest) == Run(cfg, Step(cfg, s, c), rest) && ValidCalls([c] + rest)
  {
    assert ([c] + rest)[1..] == rest;
  }

  /** In every interleaving, whatever was cut or superseded on the way, no line the next goroutine sends gives a
      station VLAN a subnet another one holds at that moment, or the field's own. */
  lemma NoInterleavingClashes(cfg: Config, p: Protocol, actions: seq<Action>, g: nat, o: Outcomes, k: nat)
    requires Start(p) && Possible(cfg, p, actions) && Enabled(After(cfg, p, actions), Apply(g, o))
    requires k < |Wire(cfg, After(cfg, p, actions).switch, After(cfg, p, actions).requested[g - 1], o)|
    ensures var now := After(cfg, p, actions).switch;
      var wire := Wire(cfg, now, After(cfg, p, actions).requested[g - 1], o);
      !Clashes(ExecAll(now.device, wire[..k]), wire[k])
  {
    var q := After(cfg, p, actions);
    InterleavingIsARun(cfg, p, actions);
    InvariantHolds(cfg, p, actions);
    NoCommandClashes(cfg, p.switch, CallsMade(q.requested, actions), q.requested[g - 1], o, k);
  }

  // ----- progress

  function Weight(phase: Phase): nat {
    match phase
    case Waiting => 4
    case Checking => 3
    case Applying => 2
    case Applied => 1
    case Done => 0
  }

  /** How many steps the goroutines have left between them, at most. */
  function Outstanding(phases: seq<Phase>): nat {
    if phases == [] then 0 else Weight(phases[0]) + Outstanding(phases[1..])
  }

  lemma {:induction false} OutstandingUpdate(phases: seq<Phase>, i: nat, phase: Phase)
    requires i < |phases|
    ensures Outstanding(phases[i := phase]) == Outstanding(phases) - Weight(phases[i]) + Weight(phase)
    decreases |phases|
  {
    if i > 0 {
      assert phases[i := phase][1..] == phases[1..][i - 1 := phase];
      OutstandingUpdate(phases[1..], i - 1, phase);
    }
  }

  /** A step of some request's goroutine, as opposed to a new request or a cycling of ports. */
  predicate GoroutineStep(a: Action) {
    !a.Request? && !a.CyclePorts?
  }

  /** Every step of a goroutine brings the field closer to quiet. */
  lemma GoroutinesMakeProgress(cfg: Config, p: Protocol, a: Action)
    requires LockHeld(p) && Enabled(p, a) && GoroutineStep(a)
    ensures Outstanding(Next(cfg, p, a).phases) < Outstanding(p.phases)
  {
    var q := Next(cfg, p, a);
    OutstandingUpdate(p.phases, a.g - 1, q.phases[a.g - 1]);
  }

  const ALL_DELIVERED := Outcomes(Delivered, Delivered, Delivered, Delivered)

  /** Nothing can get stuck: unless the field is quiet, some goroutine can take a step. */
  lemma NeverStuck(cfg: Config, p: Protocol, actions: seq<Action>) returns (a: Action)
    requires Start(p) && Possible(cfg, p, actions) && !Quiet(After(cfg, p, actions))
    ensures Enabled(After(cfg, p, actions), a) && GoroutineStep(a)
  {
    InvariantHolds(cfg, p, actions);
    a := SomeStep(After(cfg, p, actions));
  }

  lemma SomeStep(q: Protocol) returns (a: Action)
    requires LockHeld(q) && !Quiet(q)
    ensures Enabled(q, a) && GoroutineStep(a) && (a.Apply? ==> a.outcomes == ALL_DELIVERED)
  {
    if q.holder.Some? {
      var g := q.holder.value;
      match PhaseOf(q, g)
      case Checking => a := Check(g);
      case Applying => a := Apply(g, ALL_DELIVERED);
      case Applied => a := Release(g);
    } else {
      var i :| 0 <= i < |q.phases| && !q.phases[i].Done?;
      assert PhaseOf(q, i + 1) == q.phases[i];
      a := Acquire(i + 1);
    }
  }

  function GoroutineSteps(actions: seq<Action>): nat {
    if actions == [] then 0 else (if GoroutineStep(actions[0]) then 1 else 0) + GoroutineSteps(actions[1..])
  }

  predicate NoRequest(actions: seq<Action>) {
    forall i :: 0 <= i < |actions| ==> !actions[i].Request?
  }

  /** However the goroutines interleave, fail, or are interrupted by port cycles: without a new request they take no
      more steps than were outstanding, and each one taken is one less. */
  lemma {:induction false} QuietWithinOutstanding(cfg: Config, p: Protocol, actions: seq<Action>)
    requires LockHeld(p) && Possible(cfg, p, actions) && NoRequest(actions)
    ensures GoroutineSteps(actions) + Outstanding(After(cfg, p, actions).phases) <= Outstanding(p.phases)
    decreases |actions|
  {
    if actions != [] {
      LockStep(cfg, p, actions[0]);
      if GoroutineStep(actions[0]) {
        GoroutinesMakeProgress(cfg, p, actions[0]);
      }
      assert NoRequest(actions[1..]);
      QuietWithinOutstanding(cfg, Next(cfg, p, actions[0]), actions[1..]);
    }
  }

  /** The log after a run of successful steps: what it was, and applications without error. */
  predicate OnlySuccesses(before: seq<Application>, after: seq<Application>) {
    |before| <= |after| && after[..|before|] == before && forall i :: |before| <= i < |after| ==> after[i].ok
  }

  lemma DeliveredSucceeds(cfg: Config, s: State, teams: Teams)
    ensures Succeeds(cfg, s, teams, ALL_DELIVERED)
  {
    var sessions := Sessions(cfg, s, teams, ALL_DELIVERED);
    assert forall i :: 0 <= i < |sessions| ==> sessions[i].outcome.Delivered?;
  }

  lemma StepSucceeds(cfg: Config, p: Protocol, a: Action)
    requires Enabled(p, a) && GoroutineStep(a) && (a.Apply? ==> a.outcomes == ALL_DELIVERED)
    ensures Next(cfg, p, a).requested == p.requested && OnlySuccesses(p.log, Next(cfg, p, a).log)
  {
    if a.Apply? {
      DeliveredSucceeds(cfg, p.switch, p.requested[a.g - 1]);
    }
  }

  /** From every reachable state the field can become quiet with no new request and no further failure. */
  lemma {:induction false} CanBecomeQuiet(cfg: Config, p: Protocol) returns (steps: seq<Action>)
    requires LockHeld(p)
    ensures Possible(cfg, p, steps) && |steps| <= Outstanding(p.phases)
    ensures var q := After(cfg, p, steps);
      Quiet(q) && q.requested == p.requested && OnlySuccesses(p.log, q.log)
    decreases Outstanding(p.phases)
  {
    if Quiet(p) {
      steps := [];
    } else {
      var a, next := StepTowardsQuiet(cfg, p);
      var rest := CanBecomeQuiet(cfg, next);
      steps := [a] + rest;
      OneStepMore(cfg, p, a, rest);
      SuccessesAdd(p.log, next.log, After(cfg, next, rest).log);
    }
  }

  lemma SuccessesAdd(a: seq<Application>, b: seq<Application>, c: seq<Application>)
    requires OnlySuccesses(a, b) && OnlySuccesses(b, c)
    ensures OnlySuccesses(a, c)
  {
    assert c[..|a|] == c[..|b|][..|a|];
  }

  lemma StepTowardsQuiet(cfg: Config, p: Protocol) returns (a: Action, next: Protocol)
    requires LockHeld(p) && !Quiet(p)
    ensures Enabled(p, a) && next == Next(cfg, p, a) && LockHeld(next)
    ensures Outstanding(next.phases) < Outstanding(p.phases)
    ensures next.requested == p.requested && OnlySuccesses(p.log, next.log)
  {
    a := SomeStep(p);
    next := Next(cfg, p, a);
    LockStep(cfg, p, a);
    GoroutinesMakeProgress(cfg, p, a);
    StepSucceeds(cfg, p, a);
  }

  lemma OneStepMore(cfg: Config, p: Protocol, a: Action, rest: seq<Action>)
    requires Enabled(p, a) && Possible(cfg, Next(cfg, p, a), rest)
    ensures Possible(cfg, p, [a] + rest) && After(cfg, p, [a] + rest) == After(cfg, Next(cfg, p, a), rest)
  {
    assert ([a] + rest)[1..] == rest;
  }

  lemma {:induction false} AfterSplits(cfg: Config, p: Protocol, a: seq<Action>, b: seq<Action>)
    requires Possible(cfg, p, a) && Possible(cfg, After(cfg, p, a), b)
    ensures Possible(cfg, p, a + b) && After(cfg, p, a + b) == After(cfg, After(cfg, p, a), b)
    decreases |a|
  {
    if a == [] {
      assert a + b == b;
    } else {
      assert (a + b)[1..] == a[1..] + b;
      AfterSplits(cfg, Next(cfg, p, a[0]), a[1..], b);
    }
  }

  /** After any interleaving the goroutines can all finish without a new request, in no more steps than are
      outstanding; what they do not do is get stuck before. */
  lemma EveryFieldCanBecomeQuiet(cfg: Config, p: Protocol, actions: seq<Action>) returns (steps: seq<Action>)
    requires Start(p) && Possible(cfg, p, actions)
    ensures Possible(cfg, p, actions + steps) && Quiet(After(cfg, p, actions + steps))
    ensures After(cfg, p, actions + steps).requested == After(cfg, p, actions).requested
    ensures |steps| <= Outstanding(After(cfg, p, actions).phases)
  {
    InvariantHolds(cfg, p, actions);
    var q := After(cfg, p, actions);
    steps := CanBecomeQuiet(cfg, q);
    AfterSplits(cfg, p, actions, steps);
  }

  // ----- a run for any list of requests

  predicate Requestable(requests: seq<Teams>) {
    forall i :: 0 <= i < |requests| ==> DistinctTeams(TeamIds(requests[i]))
  }

  lemma {:induction false} RequestsAccepted(cfg: Config, p: Protocol, requests: seq<Teams>)
    returns (actions: seq<Action>)
    requires Requestable(requests)
    ensures Possible(cfg, p, actions)
    ensures var q := After(cfg, p, actions);
      q.requested == p.requested + requests && q.log == p.log && q.switch == p.switch
    decreases |requests|
  {
    if requests == [] {
      actions := [];
      assert p.requested + [] == p.requested;
    } else {
      var a := Request(requests[0]);
      var rest := RequestsAccepted(cfg, Next(cfg, p, a), requests[1..]);
      actions := [a] + rest;
      OneStepMore(cfg, p, a, rest);
      assert p.requested + [requests[0]] + requests[1..] == p.requested + requests;
    }
  }

  /** Any requests whatever can be made and served to the end without a failure. */
  lemma RequestsCanBeServed(cfg: Config, p: Protocol, requests: seq<Teams>) returns (actions: seq<Action>)
    requires Start(p) && Requestable(requests) && requests != []
    ensures Possible(cfg, p, actions)
    ensures var q := After(cfg, p, actions);
      && Quiet(q) && q.requested == requests
      && q.log != [] && q.log[|q.log| - 1].ok
  {
    var asked := RequestsAccepted(cfg, p, requests);
    assert p.requested + requests == requests;
    InvariantHolds(cfg, p, asked);
    var q := After(cfg, p, asked);
    var steps := CanBecomeQuiet(cfg, q);
    AfterSplits(cfg, p, asked, steps);
    actions := asked + steps;
    QuietFieldCarriesNewestLineup(cfg, p, actions);
  }
}

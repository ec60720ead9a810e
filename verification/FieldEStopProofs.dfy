/** What the field e-stop panel reports and latches, over every history of readings. */
module FieldEStopProofs {
  import opened Options
  import opened FieldEStop

  datatype Event =
    | StateEvent(pins: Pins, now: int)
    | ClearEvent(pins: Pins, now: int)
    | CloseEvent(now: int)

  type History = seq<Event>

  function Step(p: Panel, e: Event): Panel {
    match e
    case StateEvent(pins, now) => ReadState(p, pins, now)
    case ClearEvent(pins, now) => Clear(p, pins, now)
    case CloseEvent(_) => Close(p)
  }

  /** The states a fresh panel goes through: ps[i] is the panel before event i. Times never go backwards. */
  predicate Run(ps: seq<Panel>, h: History) {
    && |ps| == |h| + 1 && Fresh(ps[0])
    && (forall i :: 0 <= i < |h| ==> ps[i + 1] == Step(ps[i], h[i]))
    && (forall i, j :: 0 <= i < j < |h| ==> h[i].now <= h[j].now)
  }

  predicate IsReading(e: Event) {
    !e.CloseEvent?
  }

  /** What is reported for a reading of a panel in state p. */
  function ReportOf(p: Panel, e: Event): Report
    requires IsReading(e)
  {
    Read(p, e.pins, e.now).1
  }

  predicate Agreeing(p: Panel, e: Event) {
    IsReading(e) && Wires(p, e.pins) in {Released, Pressed}
  }

  predicate Disagrees(p: Panel, e: Event) {
    IsReading(e) && Wires(p, e.pins) == Disagreeing
  }

  /** From event j up to event n the channels disagreed and were not once seen to agree. */
  predicate SustainedFrom(ps: seq<Panel>, h: History, n: nat, j: nat)
    requires Run(ps, h) && n <= |h|
  {
    j < n && Disagrees(ps[j], h[j]) && forall k :: j <= k < n ==> !Agreeing(ps[k], h[k])
  }

  /** The filter's clock started at the earliest reading since which the channels have not been seen to agree;
      a single-channel input has nothing to compare. */
  ghost predicate SinceIsEarliest(ps: seq<Panel>, h: History, n: nat)
    requires Run(ps, h) && n <= |h|
  {
    && (ps[n].noOpen && !ps[n].ncOpen ==> ps[n].since == None)
    && match ps[n].since
       case None => forall j: nat :: !SustainedFrom(ps, h, n, j)
       case Some(t) =>
         && (exists j: nat :: SustainedFrom(ps, h, n, j) && h[j].now == t)
         && forall j: nat :: SustainedFrom(ps, h, n, j) ==> t <= h[j].now
  }

  lemma {:induction false} SinceMeaning(ps: seq<Panel>, h: History, n: nat)
    requires Run(ps, h) && n <= |h|
    ensures SinceIsEarliest(ps, h, n)
  {
    if n > 0 {
      SinceMeaning(ps, h, n - 1);
      SinceStep(ps, h, n - 1, n);
    }
  }

  lemma SinceStep(ps: seq<Panel>, h: History, n: nat, m: nat)
    requires Run(ps, h) && n < |h| && m == n + 1 && SinceIsEarliest(ps, h, n)
    ensures SinceIsEarliest(ps, h, m)
  {
    assert ps[m] == Step(ps[n], h[n]);
    SinceEarliestNext(ps, h, n, m);
  }

  lemma SinceEarliestNext(ps: seq<Panel>, h: History, n: nat, m: nat)
    requires Run(ps, h) && n < |h| && m == n + 1 && SinceIsEarliest(ps, h, n)
    requires ps[m].noOpen && !ps[m].ncOpen ==> ps[m].since == None
    requires ps[m].since == if Agreeing(ps[n], h[n]) then None
                            else if Disagrees(ps[n], h[n]) && ps[n].since == None then Some(h[n].now)
                            else ps[n].since
    ensures SinceIsEarliest(ps, h, m)
  {
    forall j: nat
      ensures SustainedFrom(ps, h, m, j) <==>
        if j < n then SustainedFrom(ps, h, n, j) && !Agreeing(ps[n], h[n]) else j == n && Disagrees(ps[n], h[n])
    {
    }
    if !Agreeing(ps[n], h[n]) {
      if ps[n].since.Some? {
        var j: nat :| SustainedFrom(ps, h, n, j) && h[j].now == ps[n].since.value;
        assert SustainedFrom(ps, h, m, j);
      } else if Disagrees(ps[n], h[n]) {
        assert SustainedFrom(ps, h, m, n);
      }
    }
  }

  /** A fault is reported for an unreadable line, or for a disagreement that has lasted the whole window
      without the channels once being seen to agree; and always then. */
  lemma FaultMeansSustained(ps: seq<Panel>, h: History, i: nat)
    requires Run(ps, h) && i < |h| && IsReading(h[i])
    ensures ReportOf(ps[i], h[i]).state == StopFault <==>
      || Wires(ps[i], h[i].pins) == Unreadable
      || (Wires(ps[i], h[i].pins) == Disagreeing
          && exists j: nat :: SustainedFrom(ps, h, i + 1, j) && h[i].now - h[j].now >= ps[0].window)
  {
    SinceMeaning(ps, h, i + 1);
    WindowFixed(ps, h, i);
    if Wires(ps[i], h[i].pins) == Disagreeing {
      assert ps[i + 1] == Step(ps[i], h[i]);
      var start := ps[i + 1].since.value;
      assert ReportOf(ps[i], h[i]).state == StopFault <==> h[i].now - start >= ps[0].window;
      var j: nat :| SustainedFrom(ps, h, i + 1, j) && h[j].now == start;
    }
  }

  lemma {:induction false} WindowFixed(ps: seq<Panel>, h: History, n: nat)
    requires Run(ps, h) && n <= |h|
    ensures ps[n].window == ps[0].window
  {
    if n > 0 {
      WindowFixed(ps, h, n - 1);
      assert ps[n] == Step(ps[n - 1], h[n - 1]);
    }
  }

  // ----- the latch

  function Severity(s: StopState): nat {
    match s
    case StopOk => 0
    case StopActive => 1
    case StopFault => 2
  }

  /** A Clear that found the button healthy and released. */
  predicate Clears(p: Panel, e: Event) {
    e.ClearEvent? && ReportOf(p, e).state == StopOk
  }

  /** m is just after the last Clear that took effect before n, or the start if there was none. */
  predicate SinceClear(ps: seq<Panel>, h: History, n: nat, m: nat)
    requires Run(ps, h) && n <= |h|
  {
    m <= n && (m > 0 ==> Clears(ps[m - 1], h[m - 1])) && forall i :: m <= i < n ==> !Clears(ps[i], h[i])
  }

  /** The latch is the worst state any State reading reported since the button was last cleared: nothing
      worse was reported, and unless it is OK it was itself reported. */
  ghost predicate LatchIsWorst(ps: seq<Panel>, h: History, n: nat, m: nat)
    requires Run(ps, h) && n <= |h|
  {
    && (forall i :: m <= i < n && h[i].StateEvent? ==>
          Severity(ReportOf(ps[i], h[i]).state) <= Severity(ps[n].latched))
    && (ps[n].latched != StopOk ==>
          exists i :: m <= i < n && h[i].StateEvent? && ReportOf(ps[i], h[i]) == Report(ps[n].latched, ps[n].latchedFault))
    && (ps[n].latched == StopOk ==> ps[n].latchedFault == FaultNone)
  }

  lemma {:induction false} LatchMeaning(ps: seq<Panel>, h: History, n: nat, m: nat)
    requires Run(ps, h) && n <= |h| && SinceClear(ps, h, n, m)
    ensures LatchIsWorst(ps, h, n, m)
  {
    if m < n {
      LatchMeaning(ps, h, n - 1, m);
    } else if n > 0 {
      assert ps[n] == Step(ps[n - 1], h[n - 1]);
    }
  }

}

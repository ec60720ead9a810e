/** The dual-channel field e-stop (hardware/interfaces.go, hardware/gpio_estop.go): two contacts are decoded,
    a filter holds off calling a disagreement a fault, and a latch keeps the worst that was seen. */
module FieldEStop {
  import opened Options

  datatype StopState = StopOk | StopActive | StopFault

  datatype FaultKind = FaultNone | FaultBothOpen | FaultBothClosed | FaultReadError | FaultUnreachable | FaultStale

  /** One attempt to read a GPIO line. */
  datatype Sample = Level(value: int) | ReadFailed

  datatype Pins = Pins(nc: Sample, no: Sample)

  /** An open line is present; closing the panel removes both. A panel opened without an NC line is
      single-channel. `since` is absent while the last comparison of the channels found them complementary. */
  datatype Panel = Panel(
    ncOpen: bool,
    noOpen: bool,
    window: nat,
    since: Option<int>,
    latched: StopState,
    latchedFault: FaultKind)

  datatype Report = Report(state: StopState, fault: FaultKind)

  function DecodeChannels(nc: int, no: int): Report {
    if nc == 0 && no == 1 then Report(StopOk, FaultNone)
    else if nc == 1 && no == 0 then Report(StopActive, FaultNone)
    else if nc == 1 && no == 1 then Report(StopFault, FaultBothOpen)
    else Report(StopFault, FaultBothClosed)
  }

  function DecodeSingle(no: int): StopState {
    if no == 0 then StopActive else StopOk
  }

  /** DiscrepancyFilter.Update: the new start of the disagreement, and what is reported. */
  function Filter(window: nat, since: Option<int>, raw: Report, now: int): (Option<int>, Report) {
    if raw.state != StopFault then (None, raw)
    else
      var start := if since.Some? then since.value else now;
      (Some(start), if now - start < window then Report(StopActive, FaultNone) else raw)
  }

  function Read(p: Panel, pins: Pins, now: int): (Panel, Report) {
    if !p.noOpen || pins.no.ReadFailed? then (p, Report(StopFault, FaultReadError))
    else if !p.ncOpen then (p, Report(DecodeSingle(pins.no.value), FaultNone))
    else if pins.nc.ReadFailed? then (p, Report(StopFault, FaultReadError))
    else
      var (since, report) := Filter(p.window, p.since, DecodeChannels(pins.nc.value, pins.no.value), now);
      (p.(since := since), report)
  }

  function Latch(p: Panel, r: Report): Panel {
    if r.state == StopFault || (r.state == StopActive && p.latched == StopOk)
    then p.(latched := r.state, latchedFault := r.fault)
    else p
  }

  function ReadState(p: Panel, pins: Pins, now: int): Panel {
    var (q, r) := Read(p, pins, now);
    Latch(q, r)
  }

  function Clear(p: Panel, pins: Pins, now: int): Panel {
    var (q, r) := Read(p, pins, now);
    if r.state == StopOk then q.(latched := StopOk, latchedFault := FaultNone) else q
  }

  function Close(p: Panel): Panel {
    p.(ncOpen := false, noOpen := false)
  }

  predicate Fresh(p: Panel) {
    p.noOpen && p.since == None && p.latched == StopOk && p.latchedFault == FaultNone
  }

  /** What the wires themselves say, independently of any history. */
  datatype Condition = Released | Pressed | Disagreeing | Unreadable

  function Wires(p: Panel, pins: Pins): Condition {
    if !p.noOpen || pins.no.ReadFailed? || (p.ncOpen && pins.nc.ReadFailed?) then Unreadable
    else if !p.ncOpen then if pins.no.value == 0 then Pressed else Released
    else if pins.nc.value == 0 && pins.no.value == 1 then Released
    else if pins.nc.value == 1 && pins.no.value == 0 then Pressed
    else Disagreeing
  }

  /** A reading is reported OK exactly when the wires prove the button released: the filter never hides a stop. */
  lemma OkMeansReleased(p: Panel, pins: Pins, now: int)
    ensures Read(p, pins, now).1.state == StopOk <==> Wires(p, pins) == Released
  {
  }

  /** What a reading reports: released and pressed wires for what they are, an unreadable line as a read fault, and
      channels that disagree as a stop until the window is over and then as the fault they show: a switch that has both
      contacts open, or both closed. */
  lemma ReadReports(p: Panel, pins: Pins, now: int)
    ensures var (q, r) := Read(p, pins, now);
      match Wires(p, pins)
      case Released => r == Report(StopOk, FaultNone)
      case Pressed => r == Report(StopActive, FaultNone)
      case Unreadable => r == Report(StopFault, FaultReadError) && q == p
      case Disagreeing =>
        var start := if p.since.Some? then p.since.value else now;
        && q == p.(since := Some(start))
        && r == if now - start < p.window then Report(StopActive, FaultNone)
                else Report(StopFault, if pins.nc.value == 1 && pins.no.value == 1 then FaultBothOpen else FaultBothClosed)
  {
  }

  /** A closed panel reads as a fault, whatever its lines would say. */
  lemma ClosedReadsFault(p: Panel, pins: Pins, now: int)
    ensures Read(Close(p), pins, now) == (Close(p), Report(StopFault, FaultReadError))
    ensures !Close(p).ncOpen && Close(p).latched == p.latched
  {
  }

  class GpioFieldEStopPanel {
    var ncOpen: bool
    var noOpen: bool
    const window: nat
    var since: Option<int>
    var latched: StopState
    var latchedFault: FaultKind

    function View(): Panel
      reads this
    {
      Panel(ncOpen, noOpen, window, since, latched, latchedFault)
    }

    /** Opens the NO line, and the NC line too unless the panel is single-channel. */
    constructor (dual: bool, window: nat)
      ensures Fresh(View()) && ncOpen == dual && this.window == window
    {
      this.window := window;
      ncOpen, noOpen, since := dual, true, None;
      latched, latchedFault := StopOk, FaultNone;
    }

    /** DiscrepancyFilter.Update on this panel's filter. */
    method UpdateFilter(raw: Report, now: int) returns (r: Report)
      modifies this`since
      ensures (since, r) == Filter(window, old(since), raw, now)
    {
      if raw.state != StopFault {
        since := None;
        return raw;
      }
      if since == None {
        since := Some(now);
      }
      if now - since.value < window {
        return Report(StopActive, FaultNone);
      }
      return raw;
    }

    method ReadPins(pins: Pins, now: int) returns (r: Report)
      modifies this`since
      ensures (View(), r) == Read(old(View()), pins, now)
    {
      if !noOpen || pins.no.ReadFailed? {
        return Report(StopFault, FaultReadError);
      }
      if !ncOpen {
        return Report(DecodeSingle(pins.no.value), FaultNone);
      }
      if pins.nc.ReadFailed? {
        return Report(StopFault, FaultReadError);
      }
      r := UpdateFilter(DecodeChannels(pins.nc.value, pins.no.value), now);
    }

    method State(pins: Pins, now: int) returns (r: Report)
      modifies this
      ensures View() == ReadState(old(View()), pins, now)
      ensures r == Report(latched, latchedFault)
    {
      r := ReadPins(pins, now);
      if r.state == StopFault || (r.state == StopActive && latched == StopOk) {
        latched, latchedFault := r.state, r.fault;
      }
      r := Report(latched, latchedFault);
    }

    method ClearLatch(pins: Pins, now: int)
      modifies this
      ensures View() == Clear(old(View()), pins, now)
    {
      var r := ReadPins(pins, now);
      if r.state == StopOk {
        latched, latchedFault := StopOk, FaultNone;
      }
    }

    method CloseLines()
      modifies this
      ensures View() == Close(old(View()))
    {
      ncOpen := false;
      noOpen := false;
    }
  }
}

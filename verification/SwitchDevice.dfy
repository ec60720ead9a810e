/** The field switch as an interpreter of the configuration lines the controller sends it.
    A line the switch cannot accept changes nothing, and the sender is not told. */
module SwitchDevice {
  import opened Options
  import opened TeamNetwork

  const MANAGEMENT_VLAN := 1
  const ALL_VLANS: set<int> := {1, 10, 20, 30, 40, 50, 60}

  datatype Command =
    | Login                                     // a new session: back to global configuration
    | SelectVlanInterface(vlan: int)
    | NoIpAddress
    | NoDhcpPool(vlan: int)
    | ExcludedAddresses(net: Subnet, first: int, last: int)
    | DhcpPool(vlan: int)
    | Network(net: Subnet)
    | DefaultRouter(net: Subnet, host: int)
    | DnsServer(server: string)
    | Lease(days: int)
    | IpAddress(net: Subnet, host: int)
    | SelectPort(port: int)
    | AccessVlan(vlan: int)
    | TrunkVlans(vlans: set<int>)
    | Shutdown
    | NoShutdown
    | Standing(line: string)                    // a line with no effect on team VLANs or ports
    | Exit
    | WriteMemory

  datatype Mode =
    | GlobalConfig
    | VlanConfig(vlan: int)
    | PoolConfig(vlan: int)
    | PortConfig(port: int)

  /** A DHCP pool; a field the controller has not set is absent. */
  datatype Pool = Pool(network: Option<Subnet>, router: Option<int>, dns: Option<string>, leaseDays: Option<int>)

  /** What the switch holds for one VLAN: the interface's address and the VLAN's DHCP pool. */
  datatype Vlan = Vlan(address: Option<(Subnet, int)>, pool: Option<Pool>)

  datatype PortMode = Unset | Access(vlan: int) | Trunk(vlans: set<int>)
  datatype Port = Port(mode: PortMode, up: bool)

  datatype Device = Device(
    mode: Mode,
    vlans: map<int, Vlan>,
    excluded: set<(Subnet, int, int)>,
    ports: map<int, Port>,
    saved: map<int, Vlan>)

  const BLANK_VLAN := Vlan(None, None)
  const BLANK_POOL := Pool(None, None, None, None)

  function VlanAt(d: Device, vlan: int): Vlan {
    if vlan in d.vlans then d.vlans[vlan] else BLANK_VLAN
  }

  function PortAt(d: Device, port: int): Port {
    if port in d.ports then d.ports[port] else Port(Unset, true)
  }

  /** The interface of this station VLAN is in the subnet. */
  predicate RoutesSubnet(d: Device, vlan: int, net: Subnet) {
    VlanAt(d, vlan).address.Some? && VlanAt(d, vlan).address.value.0 == net
  }

  /** The station VLAN has the subnet, either on its interface or in its pool. */
  predicate HoldsSubnet(d: Device, vlan: int, net: Subnet) {
    || RoutesSubnet(d, vlan, net)
    || (VlanAt(d, vlan).pool.Some? && VlanAt(d, vlan).pool.value.network == Some(net))
  }

  /** The switch refuses an interface address inside a subnet another interface is in. */
  predicate Overlaps(d: Device, vlan: int, net: Subnet) {
    || net == MANAGEMENT_SUBNET
    || exists i :: 0 <= i < STATION_COUNT && VLAN_FOR_STATION[i] != vlan && RoutesSubnet(d, VLAN_FOR_STATION[i], net)
  }

  function SetVlan(d: Device, vlan: int, v: Vlan): Device {
    d.(vlans := d.vlans[vlan := v])
  }

  function SetPort(d: Device, port: int, p: Port): Device {
    d.(ports := d.ports[port := p])
  }

  function SetPool(d: Device, vlan: int, pool: Pool): Device {
    SetVlan(d, vlan, VlanAt(d, vlan).(pool := Some(pool)))
  }

  /** The pool being edited, if the session is in pool configuration. */
  function EditedPool(d: Device): Option<Pool> {
    if d.mode.PoolConfig? then VlanAt(d, d.mode.vlan).pool else None
  }

  function EditPool(d: Device, pool: Pool): Device
    requires d.mode.PoolConfig?
  {
    SetPool(d, d.mode.vlan, pool)
  }

  function Exec(d: Device, c: Command): Device {
    match c
    case Login => d.(mode := GlobalConfig)
    case SelectVlanInterface(v) => d.(mode := VlanConfig(v))
    case NoIpAddress =>
      if d.mode.VlanConfig? then SetVlan(d, d.mode.vlan, VlanAt(d, d.mode.vlan).(address := None)) else d
    case NoDhcpPool(v) => SetVlan(d, v, VlanAt(d, v).(pool := None))
    case ExcludedAddresses(net, first, last) =>
      if ValidSubnet(net) then d.(excluded := d.excluded + {(net, first, last)}) else d
    case DhcpPool(v) =>
      (if VlanAt(d, v).pool.Some? then d else SetPool(d, v, BLANK_POOL)).(mode := PoolConfig(v))
    case Network(net) =>
      if EditedPool(d).Some? && ValidSubnet(net) then EditPool(d, EditedPool(d).value.(network := Some(net))) else d
    case DefaultRouter(net, host) =>
      if EditedPool(d).Some? && ValidSubnet(net) then EditPool(d, EditedPool(d).value.(router := Some(host))) else d
    case DnsServer(server) =>
      if EditedPool(d).Some? then EditPool(d, EditedPool(d).value.(dns := Some(server))) else d
    case Lease(days) =>
      if EditedPool(d).Some? then EditPool(d, EditedPool(d).value.(leaseDays := Some(days))) else d
    case IpAddress(net, host) =>
      if d.mode.VlanConfig? && ValidSubnet(net) && !Overlaps(d, d.mode.vlan, net)
      then SetVlan(d, d.mode.vlan, VlanAt(d, d.mode.vlan).(address := Some((net, host))))
      else d
    case SelectPort(p) => d.(mode := PortConfig(p))
    case AccessVlan(v) =>
      if d.mode.PortConfig? then SetPort(d, d.mode.port, PortAt(d, d.mode.port).(mode := Access(v))) else d
    case TrunkVlans(vs) =>
      if d.mode.PortConfig? then SetPort(d, d.mode.port, PortAt(d, d.mode.port).(mode := Trunk(vs))) else d
    case Shutdown =>
      if d.mode.PortConfig? then SetPort(d, d.mode.port, PortAt(d, d.mode.port).(up := false)) else d
    case NoShutdown =>
      if d.mode.PortConfig? then SetPort(d, d.mode.port, PortAt(d, d.mode.port).(up := true)) else d
    case Standing(_) => d
    case Exit => d.(mode := GlobalConfig)
    case WriteMemory => d.(saved := d.vlans)
  }

  function ExecAll(d: Device, cs: seq<Command>): Device
    decreases |cs|
  {
    if cs == [] then d else ExecAll(Exec(d, cs[0]), cs[1..])
  }

  lemma {:induction false} ExecAllConcat(d: Device, a: seq<Command>, b: seq<Command>)
    ensures ExecAll(d, a + b) == ExecAll(ExecAll(d, a), b)
    decreases |a|
  {
    if a == [] {
      assert a + b == b;
    } else {
      assert (a + b)[1..] == a[1..] + b;
      ExecAllConcat(Exec(d, a[0]), a[1..], b);
    }
  }

  /** How a Telnet session ends: every line delivered, or an error after the first `lines`. A read
      that times out counts as delivered. */
  datatype Outcome = Delivered | CutAfter(lines: nat)

  /** The lines that reach the switch in one session. */
  function SessionLines(cs: seq<Command>, o: Outcome): seq<Command> {
    [Login] + match o
              case Delivered => cs
              case CutAfter(k) => if k < |cs| then cs[..k] else cs
  }

  /** A command that would give a station VLAN a subnet another one holds, or the field's own. */
  predicate Clashes(d: Device, c: Command) {
    match c
    case IpAddress(net, _) => d.mode.VlanConfig? && Taken(d, d.mode.vlan, net)
    case Network(net) => d.mode.PoolConfig? && Taken(d, d.mode.vlan, net)
    case _ => false
  }

  predicate Taken(d: Device, vlan: int, net: Subnet) {
    || net == MANAGEMENT_SUBNET
    || exists i :: 0 <= i < STATION_COUNT && VLAN_FOR_STATION[i] != vlan && HoldsSubnet(d, VLAN_FOR_STATION[i], net)
  }

  /** No command clashes in the state the commands before it leave. */
  predicate ClashFree(d: Device, cs: seq<Command>)
    decreases |cs|
  {
    cs == [] || (!Clashes(d, cs[0]) && ClashFree(Exec(d, cs[0]), cs[1..]))
  }

  lemma {:induction false} ClashFreeConcat(d: Device, a: seq<Command>, b: seq<Command>)
    ensures ClashFree(d, a + b) <==> ClashFree(d, a) && ClashFree(ExecAll(d, a), b)
    decreases |a|
  {
    if a == [] {
      assert a + b == b;
    } else {
      assert (a + b)[1..] == a[1..] + b;
      ClashFreeConcat(Exec(d, a[0]), a[1..], b);
    }
  }

  /** What ClashFree says about each command of the sequence. */
  lemma ClashFreeAt(d: Device, cs: seq<Command>, k: nat)
    requires ClashFree(d, cs) && k < |cs|
    ensures !Clashes(ExecAll(d, cs[..k]), cs[k])
  {
    assert cs == cs[..k] + cs[k..];
    ClashFreeConcat(d, cs[..k], cs[k..]);
    assert cs[k..][0] == cs[k];
  }

  /** Commands that never assign a subnet cannot clash. */
  predicate Assigns(c: Command) {
    c.IpAddress? || c.Network?
  }

  lemma {:induction false} UnassigningIsClashFree(d: Device, cs: seq<Command>)
    requires forall c :: c in cs ==> !Assigns(c)
    ensures ClashFree(d, cs)
    decreases |cs|
  {
    if cs != [] {
      assert cs[0] in cs && forall c :: c in cs[1..] ==> c in cs;
      UnassigningIsClashFree(Exec(d, cs[0]), cs[1..]);
    }
  }

  /** The command concerns no VLAN outside the set. */
  predicate Within(c: Command, vlans: set<int>) {
    match c
    case SelectVlanInterface(v) => v in vlans
    case NoDhcpPool(v) => v in vlans
    case DhcpPool(v) => v in vlans
    case _ => true
  }

  predicate ModeWithin(m: Mode, vlans: set<int>) {
    match m
    case VlanConfig(v) => v in vlans
    case PoolConfig(v) => v in vlans
    case _ => true
  }

  lemma OtherVlanKept(d: Device, c: Command, vlans: set<int>, v: int)
    requires ModeWithin(d.mode, vlans) && v !in vlans && Within(c, vlans)
    ensures VlanAt(Exec(d, c), v) == VlanAt(d, v) && ModeWithin(Exec(d, c).mode, vlans)
  {
  }

  /** Commands within a set of VLANs leave every other VLAN as it was. */
  lemma {:induction false} OtherVlansKept(d: Device, cs: seq<Command>, vlans: set<int>, v: int)
    requires ModeWithin(d.mode, vlans) && v !in vlans
    requires forall c :: c in cs ==> Within(c, vlans)
    ensures VlanAt(ExecAll(d, cs), v) == VlanAt(d, v)
    decreases |cs|
  {
    if cs != [] {
      assert cs[0] in cs && forall c :: c in cs[1..] ==> c in cs;
      OtherVlanKept(d, cs[0], vlans, v);
      OtherVlansKept(Exec(d, cs[0]), cs[1..], vlans, v);
    }
  }

  /** Excluded ranges only accumulate. */
  lemma {:induction false} ExclusionsKept(d: Device, cs: seq<Command>)
    ensures d.excluded <= ExecAll(d, cs).excluded
    decreases |cs|
  {
    if cs != [] {
      ExclusionsKept(Exec(d, cs[0]), cs[1..]);
    }
  }

  /** The switch: a session changes it line by line until the session is cut. */
  class Catalyst {
    var device: Device

    constructor (initial: Device)
      ensures device == initial
    {
      device := initial;
    }

    method Run(commands: seq<Command>, outcome: Outcome) returns (ok: bool)
      modifies this
      ensures device == ExecAll(old(device), SessionLines(commands, outcome))
      ensures ok == outcome.Delivered?
    {
      var lines := SessionLines(commands, outcome);
      var i := 0;
      while i < |lines|
        invariant 0 <= i <= |lines|
        invariant device == ExecAll(old(device), lines[..i])
      {
        ExecAllConcat(old(device), lines[..i], [lines[i]]);
        assert lines[..i + 1] == lines[..i] + [lines[i]];
        device := Exec(device, lines[i]);
        i := i + 1;
      }
      assert lines[..|lines|] == lines;
      ok := outcome.Delivered?;
    }
  }
}

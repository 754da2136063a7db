/**
 The `devices` element of a domain and its normalisation: `list_kept_guest_root_ports` of
 `01_generate_identity.py`, and the device passes of `set_devices` in `04_apply_spoof.py` that move,
 clear or remove nodes with PCI addresses. A node keeps only what those passes look at.
 */
module DomainDevices {
  import opened Outcomes
  import opened Text
  import RootPorts

  type Role = RootPorts.Role

  /** A numeric attribute: absent, empty, unreadable, or read by `int(text, 0)`. */
  datatype Attr = Missing | Blank | Bad | Num(value: int)

  datatype Address = Address(kind: string, bus: Attr, slot: Attr, func: Attr)

  datatype Target = Target(kind: Option<string>, name: string, bus: string, port: Attr, hotplug: Option<string>)

  /** `backend` is the name in a nested model element, `source` the host address of a PCI host device. */
  datatype Node = Node(
    tag: string, kind: Option<string>, model: Option<string>, index: Attr, inputBus: Option<string>,
    address: Option<Address>, target: Option<Target>, backend: Option<string>, source: Option<string>)

  function Bare(tag: string): Node {
    Node(tag, None, None, Missing, None, None, None, None, None)
  }

  /** `int(node.get(name, "0"), 0)`. */
  function OrZero(a: Attr): Option<int> {
    match a
    case Missing => Some(0)
    case Num(value) => Some(value)
    case _ => None
  }

  predicate IsPciController(n: Node) {
    n.tag == "controller" && n.kind == Some("pci")
  }

  predicate IsRootPort(n: Node) {
    IsPciController(n) && n.model == Some("pcie-root-port")
  }

  predicate IsBridge(n: Node) {
    IsPciController(n) && (n.model == Some("pcie-to-pci-bridge") || n.model == Some("pci-bridge"))
  }

  /** PCI controllers whose index counts towards the filler limit. */
  predicate IsIndexed(n: Node) {
    IsPciController(n) && n.model != Some("pcie-root") && n.model != Some("pcie-root-port")
  }

  predicate HasPciBus(n: Node) {
    n.address.Some? && n.address.value.kind == "pci" && n.address.value.bus != Missing && n.address.value.bus != Blank
  }

  /** `pci_bus_number`: an unreadable bus is no bus. */
  function PciBus(n: Node): Option<int> {
    if HasPciBus(n) && n.address.value.bus.Num? then Some(n.address.value.bus.value) else None
  }

  /** `pci_address_tuple`. */
  function PciTuple(n: Node): Option<(int, int, int)> {
    if n.address.None? || n.address.value.kind != "pci" then None
    else
      var bus, slot, func := OrZero(n.address.value.bus), OrZero(n.address.value.slot), OrZero(n.address.value.func);
      if bus.Some? && slot.Some? && func.Some? then Some((bus.value, slot.value, func.value)) else None
  }

  /** The PCI class codes of host devices by their address; an address that is not listed has none. */
  type Facts = map<string, int>

  /** `pci_class_role`, for a positive class code. */
  function PciClassRole(code: nat): Role {
    if code / 0x1_0000 % 0x100 == 0x03 then RootPorts.Gpu
    else if code / 0x100 % 0x1_0000 == 0x0108 then RootPorts.Nvme
    else if code / 0x1_0000 % 0x100 == 0x02 then RootPorts.Nic
    else if code / 0x100 % 0x1_0000 == 0x0C03 then RootPorts.Usb
    else if code / 0x100 % 0x1_0000 == 0x0403 then RootPorts.Audio
    else RootPorts.Other
  }

  /** `classify_guest_endpoint`, the same in both scripts. */
  function Classify(n: Node, facts: Facts): Option<Role> {
    if n.tag == "controller" then
      if n.kind == Some("pci")
         || (n.model.Some? && n.model.value in {"pcie-root", "pcie-root-port", "pcie-to-pci-bridge", "pci-bridge"})
      then None
      else if n.kind == Some("usb") then Some(RootPorts.Usb)
      else Some(RootPorts.Other)
    else if n.tag == "interface" then Some(RootPorts.Nic)
    else if n.tag == "video" then Some(RootPorts.Gpu)
    else if n.tag == "sound" then Some(RootPorts.Audio)
    else if n.tag == "hostdev" then
      if n.kind != Some("pci") then Some(if n.kind == Some("usb") then RootPorts.Usb else RootPorts.Other)
      else if n.source.None? || n.source.value !in facts || facts[n.source.value] <= 0 then Some(RootPorts.Other)
      else Some(PciClassRole(facts[n.source.value]))
    else if n.tag == "disk" then
      if (n.target.Some? && n.target.value.bus == "nvme") || n.kind == Some("nvme") then Some(RootPorts.Nvme)
      else Some(RootPorts.Other)
    else if n.address.Some? && n.address.value.kind == "pci" then Some(RootPorts.Other)
    else None
  }

  function RolesAt(nodes: seq<Node>, bus: int, facts: Facts): seq<Role> {
    if nodes == [] then []
    else
      var n := nodes[|nodes| - 1];
      RolesAt(nodes[..|nodes| - 1], bus, facts)
      + if PciBus(n) == Some(bus) && Classify(n, facts).Some? then [Classify(n, facts).value] else []
  }

  /** `preferred_root_port_role`: the first role in role order, or empty. */
  function Preferred(roles: seq<Role>): Role {
    if roles == [] then RootPorts.Empty
    else
      var before := Preferred(roles[..|roles| - 1]);
      if RootPorts.RoleIndex(roles[|roles| - 1]) < RootPorts.RoleIndex(before) then roles[|roles| - 1] else before
  }

  function RoleAt(nodes: seq<Node>, bus: int, facts: Facts): Role {
    Preferred(RolesAt(nodes, bus, facts))
  }

  function Buses(nodes: seq<Node>): set<int> {
    set n | n in nodes && !IsPciController(n) && PciBus(n).Some? :: PciBus(n).value
  }

  function MaxOrZero(s: seq<int>): int {
    if s == [] then 0
    else if |s| == 1 then s[0]
    else
      var before := MaxOrZero(s[..|s| - 1]);
      if s[|s| - 1] > before then s[|s| - 1] else before
  }

  /** The indexes that count towards the filler limit, or an error for one that cannot be read. */
  function Indexes(nodes: seq<Node>, error: Error): Result<seq<int>> {
    if nodes == [] then Ok([])
    else
      var n := nodes[|nodes| - 1];
      var before :- Indexes(nodes[..|nodes| - 1], error);
      if !IsIndexed(n) then Ok(before)
      else if OrZero(n.index).None? then Err(error)
      else Ok(before + [OrZero(n.index).value])
  }

  method ReadIndexes(nodes: seq<Node>, error: Error) returns (r: Result<seq<int>>)
    ensures r == Indexes(nodes, error)
  {
    var indexes := [];
    for i := 0 to |nodes|
      invariant Indexes(nodes[..i], error) == Ok(indexes)
    {
      assert nodes[..i + 1][..i] == nodes[..i];
      if IsIndexed(nodes[i]) {
        if OrZero(nodes[i].index).None? {
          IndexErrorStays(nodes, i + 1, error);
          return Err(error);
        }
        indexes := indexes + [OrZero(nodes[i].index).value];
      }
    }
    assert nodes[..|nodes|] == nodes;
    return Ok(indexes);
  }

  lemma {:induction false} IndexErrorStays(nodes: seq<Node>, k: nat, error: Error)
    requires k <= |nodes| && Indexes(nodes[..k], error).Err?
    ensures Indexes(nodes, error) == Err(error)
  {
    if k == |nodes| {
      assert nodes[..k] == nodes;
      IndexErrors(nodes, error);
    } else {
      assert nodes[..|nodes| - 1][..k] == nodes[..k];
      IndexErrorStays(nodes[..|nodes| - 1], k, error);
    }
  }

  lemma {:induction false} IndexErrors(nodes: seq<Node>, error: Error)
    ensures Indexes(nodes, error).Err? ==> Indexes(nodes, error) == Err(error)
  {
    if nodes != [] {
      IndexErrors(nodes[..|nodes| - 1], error);
    }
  }

  /** Whether a root port is an unused filler that both scripts leave out. */
  predicate IsFiller(index: int, used: set<int>, limit: int) {
    index >= 5 && index !in used && index >= limit
  }

  // ---- What the generator lists --------------------------------------------------------------

  /** The generator refuses a bus that it cannot read. */
  predicate BusReadable(n: Node) {
    HasPciBus(n) ==> n.address.value.bus.Num?
  }

  function ListedPort(n: Node, nodes: seq<Node>, facts: Facts, used: set<int>,
                      limit: int): Result<seq<RootPorts.Guest>> {
    if !IsRootPort(n) then Ok([])
    else if OrZero(n.index).None? then Err(RuntimeError)
    else if IsFiller(OrZero(n.index).value, used, limit) then Ok([])
    else if n.target.None? || !n.target.value.port.Num? then Err(RuntimeError)
    else if exists m :: m in nodes && !BusReadable(m) then Err(RuntimeError)
    else
      var index := OrZero(n.index).value;
      Ok([RootPorts.Guest(index, n.target.value.port.value, RoleAt(nodes, index, facts))])
  }

  /** The root ports among the first nodes; a target port that appears twice is an error. */
  function ListedUpTo(k: nat, nodes: seq<Node>, facts: Facts, used: set<int>, limit: int): Result<seq<RootPorts.Guest>>
    requires k <= |nodes|
  {
    if k == 0 then Ok([])
    else
      var before :- ListedUpTo(k - 1, nodes, facts, used, limit);
      var more :- ListedPort(nodes[k - 1], nodes, facts, used, limit);
      if more != [] && exists g :: g in before && g.port == more[0].port then Err(RuntimeError)
      else Ok(before + more)
  }

  /** The kept root ports of a domain, as the generator profiles them. */
  function Listed(nodes: seq<Node>, facts: Facts): Result<seq<RootPorts.Guest>> {
    if exists n :: n in nodes && !IsPciController(n) && !BusReadable(n) then Err(RuntimeError)
    else
      var indexes :- Indexes(nodes, RuntimeError);
      ListedUpTo(|nodes|, nodes, facts, Buses(nodes), MaxOrZero(indexes))
  }

  lemma {:induction false} ListErrorStays(k: nat, m: nat, nodes: seq<Node>, facts: Facts, used: set<int>, limit: int)
    requires k <= m <= |nodes| && ListedUpTo(k, nodes, facts, used, limit) == Err(RuntimeError)
    ensures ListedUpTo(m, nodes, facts, used, limit) == Err(RuntimeError)
  {
    hide ListedPort;
    if k < m {
      ListErrorStays(k, m - 1, nodes, facts, used, limit);
    }
  }

  /** `list_kept_guest_root_ports`. */
  method ListKeptGuestRootPorts(nodes: seq<Node>, facts: Facts) returns (r: Result<seq<RootPorts.Guest>>)
    ensures r == Listed(nodes, facts)
  {
    hide Indexes, MaxOrZero, RoleAt, IsFiller, Classify;
    var used: set<int> := {};
    for i := 0 to |nodes|
      invariant forall n :: n in nodes[..i] && !IsPciController(n) ==> BusReadable(n)
      invariant used == Buses(nodes[..i])
    {
      var n := nodes[i];
      assert nodes[..i + 1] == nodes[..i] + [n];
      if !IsPciController(n) {
        if !BusReadable(n) {
          return Err(RuntimeError);
        }
        if PciBus(n).Some? {
          used := used + {PciBus(n).value};
        }
      }
    }
    assert nodes[..|nodes|] == nodes;
    var indexes := ReadIndexes(nodes, RuntimeError);
    if indexes.Err? {
      return Err(indexes.error);
    }
    var limit := MaxOrZero(indexes.value);
    var ports: seq<RootPorts.Guest> := [];
    for i := 0 to |nodes|
      invariant ListedUpTo(i, nodes, facts, used, limit) == Ok(ports)
    {
      var more := ListedPort(nodes[i], nodes, facts, used, limit);
      if more.Err? || (more.value != [] && exists g :: g in ports && g.port == more.value[0].port) {
        ListErrorStays(i + 1, |nodes|, nodes, facts, used, limit);
        return Err(RuntimeError);
      }
      ports := ports + more.value;
    }
    return Ok(ports);
  }

  // ---- What the applier does -----------------------------------------------------------------

  /** The host xHCI of the profile: backend model, host address, and where it sits. */
  datatype Xhci = Xhci(model: string, host: string, bus: int, slot: int, func: int)

  /** The onboard HDA of the profile: whether it replaces the card of the domain, and where it sits. */
  datatype Hda = Hda(onboard: bool, bus: int, slot: int, func: int)

  datatype Profile = Profile(usb: Xhci, hda: Hda, gpuPassthrough: bool)

  function Filter(nodes: seq<Node>, drop: Node -> bool): seq<Node> {
    if nodes == [] then []
    else
      var n := nodes[|nodes| - 1];
      if drop(n) then Filter(nodes[..|nodes| - 1], drop) else Filter(nodes[..|nodes| - 1], drop) + [n]
  }

  function First(nodes: seq<Node>, wanted: Node -> bool): (i: nat)
    ensures i <= |nodes| && (i < |nodes| ==> wanted(nodes[i]))
    ensures forall k :: 0 <= k < i ==> !wanted(nodes[k])
  {
    if nodes == [] || wanted(nodes[0]) then 0 else 1 + First(nodes[1..], wanted)
  }

  const DROPPED_TAGS: set<string> :=
    {"serial", "parallel", "redirdev", "rng", "panic", "filesystem", "vsock", "shmem", "crypto", "iommu"}

  /** The nodes that the first pass of `set_devices` removes. */
  predicate Unsupported(n: Node) {
    || n.tag in DROPPED_TAGS
    || (n.tag == "console" && (n.target.None? || n.target.value.kind in {None, Some("serial"), Some("virtio")}))
    || (n.tag == "channel"
        && (n.target.None? || n.target.value.kind == Some("virtio") || Contains(n.target.value.name, "spice")))
    || (n.tag == "controller" && n.kind == Some("virtio-serial"))
    || (n.tag == "input" && (n.inputBus == Some("ps2") || n.kind == Some("tablet")))
  }

  predicate EmulatedHid(n: Node) {
    && n.tag == "input"
    && (n.inputBus in {Some("usb"), Some("ps2")} || n.kind in {Some("tablet"), Some("mouse"), Some("keyboard")})
  }

  predicate IsBalloon(n: Node) {
    n.tag == "memballoon"
  }

  function NoBalloon(): Node {
    Bare("memballoon").(model := Some("none"))
  }

  function BalloonOff(nodes: seq<Node>): seq<Node> {
    var i := First(nodes, IsBalloon);
    if i < |nodes| then nodes[i := NoBalloon()] else nodes + [NoBalloon()]
  }

  predicate IsUsb(n: Node) {
    n.tag == "controller" && n.kind == Some("usb")
  }

  function Wanted(usb: Xhci): (int, int, int) {
    (usb.bus, usb.slot, usb.func)
  }

  predicate XhciAddressOk(usb: Xhci) {
    usb.bus == 0 && 0 <= usb.slot <= 31 && 0 <= usb.func <= 7
  }

  /** `profile_xhci_replaced_by_hostdev`, for an acceptable profile address. */
  predicate Replaced(nodes: seq<Node>, usb: Xhci) {
    exists n :: n in nodes && n.tag == "hostdev" && n.kind == Some("pci")
      && ((n.source.Some? && usb.host != "" && n.source.value == usb.host) || PciTuple(n) == Some(Wanted(usb)))
  }

  function NoUsb(): Node {
    Bare("controller").(kind := Some("usb"), index := Num(0), model := Some("none"))
  }

  function XhciNode(usb: Xhci): Node {
    Bare("controller").(kind := Some("usb"), index := Num(0), model := Some(usb.model),
                        address := Some(Address("pci", Num(usb.bus), Num(usb.slot), Num(usb.func))))
  }

  /** The nodes with only the first USB controller left, or a new one at the end. */
  function OneUsb(nodes: seq<Node>): seq<Node> {
    var i := First(nodes, IsUsb);
    if i < |nodes| then nodes[..i + 1] + Filter(nodes[i + 1..], IsUsb) else nodes + [Bare("controller")]
  }

  predicate Occupied(nodes: seq<Node>, but: nat, wanted: (int, int, int)) {
    exists k :: 0 <= k < |nodes| && k != but && PciTuple(nodes[k]) == Some(wanted)
  }

  function UsbNormalized(nodes: seq<Node>, usb: Xhci): Result<seq<Node>> {
    if usb.model != "qemu-xhci" || !XhciAddressOk(usb) then Err(ValueError)
    else if Replaced(nodes, usb) then Ok(Filter(nodes, IsUsb) + [NoUsb()])
    else
      var i, one := First(nodes, IsUsb), OneUsb(nodes);
      if Occupied(one, i, Wanted(usb)) then Err(ValueError) else Ok(one[i := XhciNode(usb)])
  }

  predicate IsIch9Sound(n: Node) {
    n.tag == "sound" && n.model in {None, Some("ich9")}
  }

  function HdaNormalized(nodes: seq<Node>, hda: Hda): Result<seq<Node>> {
    if !hda.onboard then Ok(nodes)
    else
      var rest := Filter(nodes, IsIch9Sound);
      if exists n :: n in rest && PciTuple(n) == Some((hda.bus, hda.slot, hda.func)) then Err(ValueError) else Ok(rest)
  }

  predicate EmptyBridge(n: Node, used: set<int>) {
    IsBridge(n) && OrZero(n.index).Some? && OrZero(n.index).value !in used
  }

  /** The port as kept: Intel's backend and no hot plugging. */
  function Fixed(n: Node): Node {
    var target := if n.target.Some? then n.target.value else Target(None, "", "", Missing, None);
    n.(model := Some("pcie-root-port"), backend := Some("ioh3420"), target := Some(target.(hotplug := Some("off"))))
  }

  function IndexOrZero(n: Node): int {
    if OrZero(n.index).Some? then OrZero(n.index).value else 0
  }

  function Pruned(nodes: seq<Node>, used: set<int>, limit: int): seq<Node> {
    if nodes == [] then []
    else
      var before, n := Pruned(nodes[..|nodes| - 1], used, limit), nodes[|nodes| - 1];
      if !IsRootPort(n) then before + [n]
      else if IsFiller(IndexOrZero(n), used, limit) then before
      else before + [Fixed(n)]
  }

  function PortsNormalized(nodes: seq<Node>): Result<seq<Node>> {
    var used := Buses(nodes);
    if exists n :: n in nodes && IsBridge(n) && OrZero(n.index).None? then Err(ValueError)
    else
      var rest := Filter(nodes, n => EmptyBridge(n, used));
      var indexes :- Indexes(rest, ValueError);
      Ok(Pruned(rest, used, MaxOrZero(indexes)))
  }

  predicate IsDisplay(n: Node) {
    n.tag == "video" || n.tag == "graphics"
  }

  function Cleaned(nodes: seq<Node>): seq<Node> {
    BalloonOff(Filter(Filter(nodes, Unsupported), EmulatedHid))
  }

  /** The devices after `set_devices`, as far as nodes come, go and move. */
  function DevicesSet(nodes: seq<Node>, p: Profile): Result<seq<Node>> {
    var usb :- UsbNormalized(Cleaned(nodes), p.usb);
    var hda :- HdaNormalized(usb, p.hda);
    var ports :- PortsNormalized(hda);
    Ok(if p.gpuPassthrough then Filter(ports, IsDisplay) else ports)
  }

  /** The `devices` element of the domain. */
  class Devices {
    var nodes: seq<Node>

    constructor (nodes: seq<Node>)
      ensures this.nodes == nodes
    {
      this.nodes := nodes;
    }

    method RemoveWhere(drop: Node -> bool)
      modifies this
      ensures nodes == Filter(old(nodes), drop)
    {
      var all, kept := nodes, [];
      for i := 0 to |all|
        invariant kept == Filter(all[..i], drop)
        invariant all == old(nodes)
      {
        assert all[..i + 1][..i] == all[..i];
        if !drop(all[i]) {
          kept := kept + [all[i]];
        }
      }
      assert all[..|all|] == all;
      nodes := kept;
    }

    /** The first passes of `set_devices`, with `strip_emulated_usb_hid` and the memory balloon. */
    method Clean()
      modifies this
      ensures nodes == Cleaned(old(nodes))
    {
      RemoveWhere(Unsupported);
      RemoveWhere(EmulatedHid);
      var i := First(nodes, IsBalloon);
      if i == |nodes| {
        nodes := nodes + [NoBalloon()];
      } else {
        nodes := nodes[i := NoBalloon()];
      }
    }

    /** `normalize_usb_controller`. */
    method NormalizeUsbController(usb: Xhci) returns (r: Result<()>)
      modifies this
      ensures r == (if UsbNormalized(old(nodes), usb).Ok? then Ok(()) else Err(ValueError))
      ensures r.Ok? ==> nodes == UsbNormalized(old(nodes), usb).value
    {
      hide First, PciTuple, IsUsb, XhciAddressOk, Replaced, XhciNode, NoUsb, Bare;
      if usb.model != "qemu-xhci" || !XhciAddressOk(usb) {
        return Err(ValueError);
      }
      if Replaced(nodes, usb) {
        RemoveWhere(IsUsb);
        nodes := nodes + [NoUsb()];
        return Ok(());
      }
      var i := First(nodes, IsUsb);
      if i == |nodes| {
        nodes := nodes + [Bare("controller")];
      } else {
        var kept := nodes[..i + 1];
        for k := i + 1 to |nodes|
          invariant nodes == old(nodes) && kept == nodes[..i + 1] + Filter(nodes[i + 1..][..k - i - 1], IsUsb)
        {
          assert nodes[i + 1..][..k - i][..k - i - 1] == nodes[i + 1..][..k - i - 1];
          assert nodes[i + 1..][..k - i][k - i - 1] == nodes[k];
          if !IsUsb(nodes[k]) {
            kept := kept + [nodes[k]];
          }
        }
        assert nodes[i + 1..][..|nodes| - i - 1] == nodes[i + 1..];
        nodes := kept;
      }
      for k := 0 to |nodes|
        invariant forall j :: 0 <= j < k && j != i ==> PciTuple(nodes[j]) != Some(Wanted(usb))
        invariant nodes == OneUsb(old(nodes))
      {
        if k != i && PciTuple(nodes[k]) == Some(Wanted(usb)) {
          return Err(ValueError);
        }
      }
      nodes := nodes[i := XhciNode(usb)];
      return Ok(());
    }

    /** `normalize_onboard_hda`. */
    method NormalizeOnboardHda(hda: Hda) returns (r: Result<()>)
      modifies this
      ensures r == (if HdaNormalized(old(nodes), hda).Ok? then Ok(()) else Err(ValueError))
      ensures r.Ok? ==> nodes == HdaNormalized(old(nodes), hda).value
    {
      if !hda.onboard {
        return Ok(());
      }
      RemoveWhere(IsIch9Sound);
      for k := 0 to |nodes|
        invariant forall j :: 0 <= j < k ==> PciTuple(nodes[j]) != Some((hda.bus, hda.slot, hda.func))
        invariant nodes == Filter(old(nodes), IsIch9Sound)
      {
        if PciTuple(nodes[k]) == Some((hda.bus, hda.slot, hda.func)) {
          return Err(ValueError);
        }
      }
      return Ok(());
    }

    /** `normalize_pcie_root_ports`. */
    method NormalizePcieRootPorts() returns (r: Result<()>)
      modifies this
      ensures r == (if PortsNormalized(old(nodes)).Ok? then Ok(()) else Err(ValueError))
      ensures r.Ok? ==> nodes == PortsNormalized(old(nodes)).value
    {
      hide Indexes, MaxOrZero, IsFiller, Fixed, Buses;
      var used := Buses(nodes);
      for k := 0 to |nodes|
        invariant nodes == old(nodes)
        invariant forall j :: 0 <= j < k ==> !(IsBridge(nodes[j]) && OrZero(nodes[j].index).None?)
      {
        if IsBridge(nodes[k]) && OrZero(nodes[k].index).None? {
          return Err(ValueError);
        }
      }
      RemoveWhere(n => EmptyBridge(n, used));
      var indexes := ReadIndexes(nodes, ValueError);
      IndexErrors(nodes, ValueError);
      if indexes.Err? {
        return Err(ValueError);
      }
      var limit := MaxOrZero(indexes.value);
      var all, kept := nodes, [];
      for i := 0 to |all|
        invariant kept == Pruned(all[..i], used, limit)
        invariant all == nodes == Filter(old(nodes), n => EmptyBridge(n, used))
      {
        assert all[..i + 1][..i] == all[..i];
        if IsRootPort(all[i]) {
          if !IsFiller(IndexOrZero(all[i]), used, limit) {
            kept := kept + [Fixed(all[i])];
          }
        } else {
          kept := kept + [all[i]];
        }
      }
      assert all[..|all|] == all;
      nodes := kept;
      return Ok(());
    }

    /** The passes of `set_devices` in their order. */
    method SetDevices(p: Profile) returns (r: Result<()>)
      modifies this
      ensures r == (if DevicesSet(old(nodes), p).Ok? then Ok(()) else Err(ValueError))
      ensures r.Ok? ==> nodes == DevicesSet(old(nodes), p).value
    {
      hide Cleaned, UsbNormalized, HdaNormalized, PortsNormalized, Filter;
      Clean();
      r := NormalizeUsbController(p.usb);
      if r.Err? {
        return;
      }
      r := NormalizeOnboardHda(p.hda);
      if r.Err? {
        return;
      }
      r := NormalizePcieRootPorts();
      if r.Err? {
        return;
      }
      if p.gpuPassthrough {
        RemoveWhere(IsDisplay);
      }
    }

    /** `validate_profiled_root_ports`, on root port identities as the generator assigned them. */
    method ValidateProfiledRootPorts(items: seq<RootPorts.Item>, facts: Facts) returns (r: Result<()>)
      ensures r == (if Validated(nodes, items, facts) then Ok(()) else Err(ValueError))
    {
      hide RoleAgrees;
      var profiled: map<int, Role> := map[];
      for k := 0 to |items|
        invariant profiled == Profiled(items[..k]) && RootPorts.DistinctItems(items[..k])
      {
        assert items[..k + 1][..k] == items[..k];
        ProfiledKeys(items[..k]);
        if items[k].guest.port in profiled {
          var j :| 0 <= j < k && items[..k][j].guest.port == items[k].guest.port;
          assert items[j].guest.port == items[k].guest.port;
          return Err(ValueError);
        }
        profiled := profiled[items[k].guest.port := items[k].guest.role];
      }
      assert items[..|items|] == items;
      var actual: set<int> := {};
      for k := 0 to |nodes|
        invariant forall j ::
          0 <= j < k && IsRootPort(nodes[j]) ==> PortReadable(nodes[j]) && RoleAgrees(nodes[j], nodes, profiled, facts)
        invariant actual == ActualPorts(nodes[..k])
      {
        assert nodes[..k + 1] == nodes[..k] + [nodes[k]];
        if IsRootPort(nodes[k]) {
          if !PortReadable(nodes[k]) || !RoleAgrees(nodes[k], nodes, profiled, facts) {
            return Err(ValueError);
          }
          actual := actual + {PortOf(nodes[k])};
        }
      }
      assert nodes[..|nodes|] == nodes;
      MissingMeans(nodes, profiled);
      var missing := actual - profiled.Keys;
      if missing != {} {
        return Err(ValueError);
      }
      return Ok(());
    }
  }

  function ActualPorts(nodes: seq<Node>): set<int> {
    set n | n in nodes && IsRootPort(n) :: PortOf(n)
  }

  lemma MissingMeans(nodes: seq<Node>, profiled: map<int, Role>)
    ensures ActualPorts(nodes) - profiled.Keys == {}
            <==> forall n :: n in nodes && IsRootPort(n) ==> PortOf(n) in profiled
  {
    if ActualPorts(nodes) - profiled.Keys == {} {
      forall n | n in nodes && IsRootPort(n)
        ensures PortOf(n) in profiled
      {
        assert PortOf(n) in ActualPorts(nodes);
        assert PortOf(n) !in ActualPorts(nodes) - profiled.Keys;
      }
    }
  }

  function Profiled(items: seq<RootPorts.Item>): map<int, Role> {
    if items == [] then map[]
    else Profiled(items[..|items| - 1])[items[|items| - 1].guest.port := items[|items| - 1].guest.role]
  }

  lemma {:induction false} ProfiledKeys(items: seq<RootPorts.Item>)
    ensures forall port :: port in Profiled(items) <==> exists j :: 0 <= j < |items| && items[j].guest.port == port
  {
    if items != [] {
      var front := items[..|items| - 1];
      ProfiledKeys(front);
      forall port
        ensures port in Profiled(items) <==> exists j :: 0 <= j < |items| && items[j].guest.port == port
      {
        if port in Profiled(front) {
          var j :| 0 <= j < |front| && front[j].guest.port == port;
          assert items[j].guest.port == port;
        }
        if j :| 0 <= j < |items| && items[j].guest.port == port {
          assert j < |front| ==> front[j].guest.port == port;
        }
      }
    }
  }

  /** The target port of a root port; a port with no target element reads as -1. */
  function PortOf(n: Node): int {
    if n.target.Some? && n.target.value.port.Num? then n.target.value.port.value else -1
  }

  predicate PortReadable(n: Node) {
    (n.target.Some? ==> n.target.value.port.Num?) && OrZero(n.index).Some?
  }

  /** `guest_has_root_bus_xhci`. */
  predicate HasRootBusXhci(nodes: seq<Node>) {
    exists n :: n in nodes && IsUsb(n) && n.model !in {None, Some("none")} && PciTuple(n).Some?
      && PciTuple(n).value.0 == 0
  }

  /** The downstream role is the profiled one; a USB role may turn empty when xHCI sits on the root bus. */
  predicate RoleAgrees(n: Node, nodes: seq<Node>, profiled: map<int, Role>, facts: Facts) {
    PortOf(n) in profiled ==>
      var actual, expected := RoleAt(nodes, IndexOrZero(n), facts), profiled[PortOf(n)];
      actual == expected || (expected == RootPorts.Usb && actual == RootPorts.Empty && HasRootBusXhci(nodes))
  }

  predicate Validated(nodes: seq<Node>, items: seq<RootPorts.Item>, facts: Facts) {
    && RootPorts.DistinctItems(items)
    && (forall n :: n in nodes && IsRootPort(n) ==> PortReadable(n) && RoleAgrees(n, nodes, Profiled(items), facts))
    && (forall n :: n in nodes && IsRootPort(n) ==> PortOf(n) in Profiled(items))
  }
}

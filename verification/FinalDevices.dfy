/**
 What the device passes of `set_devices` leave, said of the nodes themselves: which devices and controllers stay,
 which are added, and how a kept root port is set.
 */
module FinalDevices {
  import opened Outcomes
  import opened Text
  import opened DomainDevices
  import opened RootPortPruning
  import opened PortRoles

  // ---- Devices -------------------------------------------------------------------------------

  /** Devices that the guest does not get, whatever the profile. */
  predicate Dropped(n: Node) {
    || n.tag == "serial" || n.tag == "parallel" || n.tag == "redirdev" || n.tag == "rng" || n.tag == "panic"
    || n.tag == "filesystem" || n.tag == "vsock" || n.tag == "shmem" || n.tag == "crypto" || n.tag == "iommu"
    || (n.tag == "console" && (n.target.Some? ==> n.target.value.kind in {None, Some("serial"), Some("virtio")}))
    || (n.tag == "channel"
        && (n.target.Some? ==> n.target.value.kind == Some("virtio") || Contains(n.target.value.name, "spice")))
    || (n.tag == "controller" && n.kind == Some("virtio-serial"))
    || (n.tag == "input"
        && (n.inputBus == Some("usb") || n.inputBus == Some("ps2")
            || n.kind == Some("tablet") || n.kind == Some("mouse") || n.kind == Some("keyboard")))
  }

  /** Devices that go because the profile puts another in their place. */
  predicate Superseded(n: Node, p: Profile) {
    || (n.tag == "controller" && n.kind == Some("usb"))
    || (p.hda.onboard && n.tag == "sound" && (n.model == None || n.model == Some("ich9")))
    || (p.gpuPassthrough && (n.tag == "video" || n.tag == "graphics"))
  }

  lemma StaysMeans(n: Node, p: Profile)
    ensures Stays(n, p) <==> !Dropped(n) && !Superseded(n, p)
  {
    hide Contains;
  }

  /** The numbers of an address, with zero for a missing one. */
  predicate Sits(n: Node, bus: int, slot: int, func: int) {
    && n.address.Some? && n.address.value.kind == "pci"
    && Reads(n.address.value.bus, bus) && Reads(n.address.value.slot, slot) && Reads(n.address.value.func, func)
  }

  predicate Reads(a: Attr, v: int) {
    a == Num(v) || (a == Missing && v == 0)
  }

  /** A passed-through device is the profile's USB controller itself, or sits in its place. */
  predicate HostTakesUsb(nodes: seq<Node>, usb: Xhci) {
    exists n :: n in nodes && n.tag == "hostdev" && n.kind == Some("pci")
      && ((usb.host != "" && n.source == Some(usb.host)) || Sits(n, usb.bus, usb.slot, usb.func))
  }

  lemma ReplacedMeans(nodes: seq<Node>, usb: Xhci)
    ensures Replaced(nodes, usb) <==> HostTakesUsb(nodes, usb)
  {
    forall n: Node
      ensures PciTuple(n) == Some(Wanted(usb)) <==> Sits(n, usb.bus, usb.slot, usb.func)
    {
    }
  }

  /** The USB controller of the profile, or the disabled one. */
  predicate IsProfiledUsb(n: Node, usb: Xhci) {
    && n.tag == "controller" && n.kind == Some("usb") && n.model == Some(usb.model) && n.index == Num(0)
    && n.address == Some(Address("pci", Num(usb.bus), Num(usb.slot), Num(usb.func)))
  }

  predicate IsDisabledUsb(n: Node) {
    n.tag == "controller" && n.kind == Some("usb") && n.model == Some("none") && n.address == None
  }

  predicate IsDisabledBalloon(n: Node) {
    n.tag == "memballoon" && n.model == Some("none") && n.address == None
  }

  /**
   A device other than PCI controllers, USB controllers and memory balloons is in the result exactly when it was
   there and is neither dropped nor superseded.
   */
  lemma DevicesStay(nodes: seq<Node>, p: Profile, n: Node)
    requires DevicesSet(nodes, p).Ok? && n.tag != "memballoon" && !Controller(n)
    requires !(n.tag == "controller" && n.kind == Some("usb"))
    ensures n in DevicesSet(nodes, p).value <==> n in nodes && !Dropped(n) && !Superseded(n, p)
  {
    hide DevicesSet, Filter, WithoutFirstBalloon, Stays, Dropped, Superseded, Replaced;
    SetMembers(nodes, p, n);
    StaysMeans(n, p);
    WithoutBalloonMembers(nodes);
    FilterMembers(WithoutFirstBalloon(nodes), m => !Stays(m, p));
  }

  /** There is one kind of USB controller: the profile's, or the disabled one where a host device takes its place. */
  lemma UsbIs(nodes: seq<Node>, p: Profile, n: Node)
    requires DevicesSet(nodes, p).Ok? && n in DevicesSet(nodes, p).value && n.tag == "controller"
    requires n.kind == Some("usb")
    ensures if HostTakesUsb(nodes, p.usb) then IsDisabledUsb(n) else IsProfiledUsb(n, p.usb)
  {
    hide Cleaned, PortsNormalized, Filter, Replaced, HostTakesUsb, BeforePorts;
    ReplacedMeans(nodes, p.usb);
    ReplacedIsKept(nodes, p.usb);
    var usb := UsbNormalized(Cleaned(nodes), p.usb).value;
    UsbMembers(Cleaned(nodes), p.usb);
    FilterMembers(usb, IsIch9Sound);
    var before := HdaNormalized(usb, p.hda).value;
    PortsKeepOthers(before);
    FilterMembers(PortsNormalized(before).value, IsDisplay);
  }

  /** One is always there, and a disabled memory balloon with it. */
  lemma AddedAre(nodes: seq<Node>, p: Profile)
    requires DevicesSet(nodes, p).Ok?
    ensures exists n :: n in DevicesSet(nodes, p).value && n.tag == "controller" && n.kind == Some("usb")
    ensures exists n :: n in DevicesSet(nodes, p).value && IsDisabledBalloon(n)
  {
    hide Cleaned, PortsNormalized, Filter, Replaced, WithoutFirstBalloon;
    var usb := UsbNormalized(Cleaned(nodes), p.usb).value;
    CleanedMembers(nodes);
    UsbMembers(Cleaned(nodes), p.usb);
    FilterMembers(usb, IsIch9Sound);
    var before := HdaNormalized(usb, p.hda).value;
    PortsKeepOthers(before);
    FilterMembers(PortsNormalized(before).value, IsDisplay);
    var one := if Replaced(Cleaned(nodes), p.usb) then NoUsb() else XhciNode(p.usb);
    assert one in usb && NoBalloon() in usb;
    assert one in DevicesSet(nodes, p).value && IsDisabledBalloon(NoBalloon());
  }

  // ---- Controllers ---------------------------------------------------------------------------

  /** The node is no memory balloon, or not the first one. */
  predicate Lives(nodes: seq<Node>, i: nat)
    requires i < |nodes|
  {
    nodes[i].tag == "memballoon" ==> exists j :: 0 <= j < i && nodes[j].tag == "memballoon"
  }

  /** While ports are pruned the bus leads to a device: one that stays, a display, or the profile's USB controller. */
  predicate Leads(nodes: seq<Node>, p: Profile, bus: int) {
    || (exists i :: 0 <= i < |nodes| && Lives(nodes, i) && !Controller(nodes[i]) && OnBus(nodes[i], bus)
                    && !Dropped(nodes[i]) && !Superseded(nodes[i], p.(gpuPassthrough := false)))
    || (!HostTakesUsb(nodes, p.usb) && bus == p.usb.bus)
  }

  lemma LivesMeans(nodes: seq<Node>, n: Node)
    ensures n in WithoutFirstBalloon(nodes) <==> exists i :: 0 <= i < |nodes| && nodes[i] == n && Lives(nodes, i)
  {
    var i := First(nodes, IsBalloon);
    var rest := WithoutFirstBalloon(nodes);
    if n in rest {
      var k :| 0 <= k < |rest| && rest[k] == n;
      var at := if k < i then k else k + 1;
      assert i < |nodes| ==> nodes[at] == n && Lives(nodes, at);
      assert i == |nodes| ==> nodes[k] == n && Lives(nodes, k);
    }
    if k :| 0 <= k < |nodes| && nodes[k] == n && Lives(nodes, k) {
      assert k != i;
      assert i < |nodes| ==> rest[if k < i then k else k - 1] == n;
    }
  }

  lemma BusesLeftMeans(nodes: seq<Node>, p: Profile, bus: int)
    ensures bus in BusesLeft(nodes, p) <==> Leads(nodes, p, bus)
  {
    hide Filter, WithoutFirstBalloon, Stays, Dropped, Superseded, Replaced, HostTakesUsb, Lives, OnBus, PciBus,
      IsPciController;
    var q := p.(gpuPassthrough := false);
    var left := Remaining(nodes, q) + (if Replaced(nodes, p.usb) then [] else [XhciNode(p.usb)]);
    ReplacedMeans(nodes, p.usb);
    XhciSits(p.usb, bus);
    FilterMembers(WithoutFirstBalloon(nodes), n => !Stays(n, q));
    forall n
      ensures n in Remaining(nodes, q) <==> (exists i :: 0 <= i < |nodes| && nodes[i] == n && Lives(nodes, i))
                                            && !Dropped(n) && !Superseded(n, q)
      ensures PciBus(n) == Some(bus) <==> OnBus(n, bus)
      ensures IsPciController(n) <==> Controller(n)
    {
      LivesMeans(nodes, n);
      StaysMeans(n, q);
      DeviceOnBus(n, bus, map[]);
      SameController(n);
    }
  }

  lemma SameController(n: Node)
    ensures IsPciController(n) <==> Controller(n)
  {
  }

  lemma XhciSits(usb: Xhci, bus: int)
    ensures OnBus(XhciNode(usb), bus) <==> bus == usb.bus
    ensures !Controller(XhciNode(usb))
  {
  }

  function IndexNumber(n: Node): int {
    if n.index.Num? then n.index.value else 0
  }

  predicate Bridge(n: Node) {
    Controller(n) && (n.model == Some("pcie-to-pci-bridge") || n.model == Some("pci-bridge"))
  }

  /** A controller other than the root and its ports, which stays if it is a bridge only where it leads to a device. */
  predicate HoldsOn(nodes: seq<Node>, p: Profile, n: Node) {
    && Controller(n) && n.model != Some("pcie-root") && n.model != Some("pcie-root-port")
    && (Bridge(n) ==> Leads(nodes, p, IndexNumber(n)))
  }

  /** A root port with a low index, with a device behind it, or below a controller that holds on. */
  predicate HoldsPort(nodes: seq<Node>, p: Profile, m: Node) {
    && Port(m)
    && (IndexNumber(m) < 5 || Leads(nodes, p, IndexNumber(m))
        || exists n :: n in nodes && HoldsOn(nodes, p, n) && IndexNumber(n) > IndexNumber(m))
  }

  /** The port as it is set: Intel's device model, no hot plugging, and everything else as before. */
  predicate SetPort(m: Node, n: Node) {
    && n.backend == Some("ioh3420") && n.target.Some? && n.target.value.hotplug == Some("off")
    && n == m.(backend := n.backend, target := n.target)
    && (m.target.Some? ==> n.target.value == m.target.value.(hotplug := Some("off")))
    && (m.target.None? ==> n.target.value.port == Missing)
  }

  lemma FixedIsSet(m: Node)
    requires Port(m)
    ensures SetPort(m, Fixed(m)) && forall n :: SetPort(m, n) && m.target.Some? ==> n == Fixed(m)
  {
  }

  lemma KindsAgree(n: Node)
    ensures Controller(n) <==> IsPciController(n)
    ensures Port(n) <==> IsRootPort(n)
    ensures Bridge(n) <==> IsBridge(n)
    ensures IndexNumber(n) == IndexOrZero(n)
  {
  }

  lemma IndexedMeans(n: Node)
    ensures IsIndexed(n) <==> Controller(n) && n.model != Some("pcie-root") && n.model != Some("pcie-root-port")
    ensures IsRootPort(n) || IsBridge(n) ==> IsPciController(n)
    ensures IsBridge(n) ==> !IsRootPort(n)
  {
  }

  lemma EmptyMeans(nodes: seq<Node>, p: Profile, n: Node)
    requires OrZero(n.index).Some?
    ensures EmptyBridge(n, BusesLeft(nodes, p)) <==> Bridge(n) && !Leads(nodes, p, IndexNumber(n))
  {
    hide BusesLeft, Leads;
    BusesLeftMeans(nodes, p, IndexNumber(n));
  }

  /** The controllers that count were readable, or the passes would have failed. */
  lemma CountedReadable(nodes: seq<Node>, p: Profile, n: Node)
    requires DevicesSet(nodes, p).Ok? && n in nodes && IsIndexed(n)
    ensures OrZero(n.index).Some?
  {
    hide Cleaned, UsbNormalized, HdaNormalized, Filter, Indexes, MaxOrZero, Buses, Pruned, OrZero, IsIndexed;
    var before := BeforePorts(nodes, p).value;
    var used := Buses(before);
    IndexedMeans(n);
    ControllersKept(nodes, p, n);
    FilterMembers(before, m => EmptyBridge(m, used));
    if !IsBridge(n) {
      IndexCounts(Filter(before, m => EmptyBridge(m, used)), ValueError, n);
    }
  }

  lemma KeepsPortMeans(nodes: seq<Node>, p: Profile, m: Node)
    requires DevicesSet(nodes, p).Ok?
    ensures KeepsPort(nodes, p, m) <==> HoldsPort(nodes, p, m)
  {
    hide BusesLeft, Leads, EmptyBridge, IsIndexed, OrZero, IndexOrZero, Bridge, DevicesSet, IsRootPort, Port;
    KindsAgree(m);
    BusesLeftMeans(nodes, p, IndexNumber(m));
    forall n | n in nodes
      ensures IndexedAbove(n, BusesLeft(nodes, p), IndexOrZero(m))
              <==> HoldsOn(nodes, p, n) && IndexNumber(n) > IndexNumber(m)
    {
      IndexedMeans(n);
      KindsAgree(n);
      if IsIndexed(n) {
        CountedReadable(nodes, p, n);
        EmptyMeans(nodes, p, n);
        ReadableIndex(n);
      }
    }
  }

  lemma ReadableIndex(n: Node)
    ensures OrZero(n.index).Some? ==> OrZero(n.index).value == IndexNumber(n)
  {
  }

  /** The root ports of the result are those of the domain that hold on, each set for the guest. */
  lemma PortsAre(nodes: seq<Node>, p: Profile, n: Node)
    requires DevicesSet(nodes, p).Ok?
    ensures n in DevicesSet(nodes, p).value && Port(n)
            ==> exists m :: m in nodes && HoldsPort(nodes, p, m) && SetPort(m, n)
    ensures n in nodes && HoldsPort(nodes, p, n) ==>
      exists k :: k in DevicesSet(nodes, p).value && Port(k) && SetPort(n, k)
  {
    hide DevicesSet, KeepsPort, HoldsPort, SetPort, Fixed, IsRootPort, Port;
    KindsAgree(n);
    KeptPortsExactly(nodes, p, n);
    if n in DevicesSet(nodes, p).value && Port(n) {
      var m :| m in nodes && KeepsPort(nodes, p, m) && n == Fixed(m);
      KeepsPortMeans(nodes, p, m);
      HoldsIsPort(nodes, p, m);
      FixedIsSet(m);
    }
    if n in nodes && HoldsPort(nodes, p, n) {
      KeepsPortMeans(nodes, p, n);
      HoldsIsPort(nodes, p, n);
      KeptPortsExactly(nodes, p, Fixed(n));
      FixedPort(n);
      FixedIsSet(n);
      KindsAgree(Fixed(n));
    }
  }

  lemma HoldsIsPort(nodes: seq<Node>, p: Profile, m: Node)
    requires HoldsPort(nodes, p, m)
    ensures Port(m) && IsRootPort(m)
  {
  }

  /** The other PCI controllers of the result are those of the domain without the bridges that lead to nothing. */
  lemma ControllersAre(nodes: seq<Node>, p: Profile, n: Node)
    requires DevicesSet(nodes, p).Ok? && Controller(n) && !Port(n)
    ensures n in DevicesSet(nodes, p).value <==> n in nodes && (Bridge(n) ==> Leads(nodes, p, IndexNumber(n)))
  {
    hide Cleaned, UsbNormalized, HdaNormalized, Filter, Indexes, MaxOrZero, Buses, Pruned, OrZero, BusesLeft,
      EmptyBridge, Leads, Fixed, IsFiller, IsDisplay, Bridge, IsBridge, IsRootPort, Port, IsIndexed;
    var before := BeforePorts(nodes, p).value;
    BusesAre(nodes, p);
    var used := Buses(before);
    var rest := Filter(before, m => EmptyBridge(m, used));
    var limit := MaxOrZero(Indexes(rest, ValueError).value);
    KindsAgree(n);
    ControllersKept(nodes, p, n);
    FilterMembers(before, m => EmptyBridge(m, used));
    PrunedMembers(rest, used, limit);
    FilterMembers(Pruned(rest, used, limit), IsDisplay);
    FixedIsController();
    NoDisplay(n);
    BridgeCounts(n);
    if n in nodes && Bridge(n) {
      CountedReadable(nodes, p, n);
      EmptyMeans(nodes, p, n);
    }
    OnlyBridgeIsEmpty(n, used);
  }

  lemma BridgeCounts(n: Node)
    ensures Bridge(n) ==> IsIndexed(n)
  {
  }

  lemma NoDisplay(n: Node)
    requires Controller(n)
    ensures !IsDisplay(n)
  {
  }

  lemma OnlyBridgeIsEmpty(n: Node, used: set<int>)
    ensures EmptyBridge(n, used) ==> Bridge(n)
  {
  }

  // ---- When the passes succeed ---------------------------------------------------------------

  predicate UsbController(n: Node) {
    n.tag == "controller" && n.kind == Some("usb")
  }

  /** A device that is left when the controllers are settled has this address. */
  predicate StandsAt(nodes: seq<Node>, bus: int, slot: int, func: int) {
    exists i :: 0 <= i < |nodes| && Lives(nodes, i) && !Dropped(nodes[i]) && !UsbController(nodes[i])
      && Sits(nodes[i], bus, slot, func)
  }

  /** The same without the domain's own sound card, which the profile's replaces. */
  predicate StandsBesideSound(nodes: seq<Node>, bus: int, slot: int, func: int) {
    exists i :: 0 <= i < |nodes| && Lives(nodes, i) && !Dropped(nodes[i]) && !UsbController(nodes[i])
      && !(nodes[i].tag == "sound" && (nodes[i].model == None || nodes[i].model == Some("ich9")))
      && Sits(nodes[i], bus, slot, func)
  }

  /** The profile's USB controller has a place on the root bus, free unless a host device takes it. */
  predicate UsbFits(nodes: seq<Node>, usb: Xhci) {
    && usb.model == "qemu-xhci" && usb.bus == 0 && 0 <= usb.slot < 32 && 0 <= usb.func < 8
    && (HostTakesUsb(nodes, usb) || !StandsAt(nodes, usb.bus, usb.slot, usb.func))
  }

  /** The place of the profile's sound card is free, also of the USB controller. */
  predicate SoundFits(nodes: seq<Node>, p: Profile) {
    p.hda.onboard ==>
      && !StandsBesideSound(nodes, p.hda.bus, p.hda.slot, p.hda.func)
      && (HostTakesUsb(nodes, p.usb) || (p.usb.bus, p.usb.slot, p.usb.func) != (p.hda.bus, p.hda.slot, p.hda.func))
  }

  /** The index of every PCI controller but the root and its ports is a number or missing. */
  predicate IndexesRead(nodes: seq<Node>) {
    forall n :: n in nodes && Controller(n) && n.model != Some("pcie-root") && n.model != Some("pcie-root-port") ==>
      n.index.Num? || n.index == Missing
  }

  lemma DroppedMeans(n: Node)
    ensures Dropped(n) <==> Unsupported(n) || EmulatedHid(n)
    ensures UsbController(n) <==> IsUsb(n)
  {
    hide Contains;
  }

  lemma SitsMeans(n: Node, bus: int, slot: int, func: int)
    ensures PciTuple(n) == Some((bus, slot, func)) <==> Sits(n, bus, slot, func)
  {
  }

  lemma OccupiedMeans(nodes: seq<Node>, wanted: (int, int, int))
    ensures Occupied(OneUsb(nodes), First(nodes, IsUsb), wanted)
       <==> exists n :: n in nodes && !IsUsb(n) && PciTuple(n) == Some(wanted)
  {
    hide IsUsb, OneUsb, PciTuple;
    var one, i := OneUsb(nodes), First(nodes, IsUsb);
    NowhereIs(wanted);
    OneUsbPlaces(nodes, NoUsb());
    var out := one[i := NoUsb()];
    if k :| 0 <= k < |one| && k != i && PciTuple(one[k]) == Some(wanted) {
      assert out[k] == one[k] && out[k] in out;
    }
    if n :| n in nodes && !IsUsb(n) && PciTuple(n) == Some(wanted) {
      assert n in out;
      var k :| 0 <= k < |out| && out[k] == n;
      assert k != i && one[k] == n;
    }
  }

  lemma NowhereIs(wanted: (int, int, int))
    ensures PciTuple(NoUsb()) != Some(wanted) && PciTuple(NoBalloon()) != Some(wanted)
  {
  }

  /** The devices left by the first passes that have an address. */
  lemma CleanedAt(nodes: seq<Node>, n: Node, bus: int, slot: int, func: int)
    requires Sits(n, bus, slot, func)
    ensures n in Cleaned(nodes) <==> (exists i :: 0 <= i < |nodes| && nodes[i] == n && Lives(nodes, i)) && !Dropped(n)
  {
    hide Cleaned, Unsupported, EmulatedHid, Dropped, WithoutFirstBalloon, Lives;
    CleanedMembers(nodes);
    LivesMeans(nodes, n);
    DroppedMeans(n);
    NowhereIs((bus, slot, func));
    SitsMeans(n, bus, slot, func);
    SitsMeans(NoBalloon(), bus, slot, func);
  }

  lemma StandsMeans(nodes: seq<Node>, bus: int, slot: int, func: int)
    ensures StandsAt(nodes, bus, slot, func)
       <==> exists n :: n in Cleaned(nodes) && !IsUsb(n) && PciTuple(n) == Some((bus, slot, func))
    ensures StandsBesideSound(nodes, bus, slot, func)
       <==> exists n :: n in Cleaned(nodes) && !IsUsb(n) && !IsIch9Sound(n) && PciTuple(n) == Some((bus, slot, func))
  {
    hide Cleaned, Dropped, Lives, Sits, PciTuple, IsUsb, UsbController;
    forall n
      ensures PciTuple(n) == Some((bus, slot, func)) <==> Sits(n, bus, slot, func)
      ensures UsbController(n) <==> IsUsb(n)
    {
      SitsMeans(n, bus, slot, func);
      DroppedMeans(n);
    }
    forall n | Sits(n, bus, slot, func)
      ensures n in Cleaned(nodes) <==> (exists i :: 0 <= i < |nodes| && nodes[i] == n && Lives(nodes, i)) && !Dropped(n)
    {
      CleanedAt(nodes, n, bus, slot, func);
    }
  }

  lemma UsbFitsMeans(nodes: seq<Node>, usb: Xhci)
    ensures UsbNormalized(Cleaned(nodes), usb).Ok? <==> UsbFits(nodes, usb)
  {
    hide Cleaned, Replaced, HostTakesUsb, StandsAt, Occupied, OneUsb, Filter, XhciNode, NoUsb, PciTuple, IsUsb;
    ReplacedMeans(nodes, usb);
    ReplacedIsKept(nodes, usb);
    OccupiedMeans(Cleaned(nodes), Wanted(usb));
    StandsMeans(nodes, usb.bus, usb.slot, usb.func);
  }

  lemma SoundFitsMeans(nodes: seq<Node>, p: Profile)
    requires UsbNormalized(Cleaned(nodes), p.usb).Ok?
    ensures HdaNormalized(UsbNormalized(Cleaned(nodes), p.usb).value, p.hda).Ok? <==> SoundFits(nodes, p)
  {
    hide Cleaned, Replaced, HostTakesUsb, StandsBesideSound, Filter, UsbNormalized, PciTuple, IsUsb, IsIch9Sound,
      XhciNode, NoUsb;
    var usb, wanted := UsbNormalized(Cleaned(nodes), p.usb).value, (p.hda.bus, p.hda.slot, p.hda.func);
    ReplacedMeans(nodes, p.usb);
    ReplacedIsKept(nodes, p.usb);
    UsbMembers(Cleaned(nodes), p.usb);
    FilterMembers(usb, IsIch9Sound);
    StandsMeans(nodes, p.hda.bus, p.hda.slot, p.hda.func);
    NowhereIs(wanted);
    XhciStands(p.usb);
    var added := if Replaced(Cleaned(nodes), p.usb) then NoUsb() else XhciNode(p.usb);
    assert added in usb;
  }

  lemma XhciStands(usb: Xhci)
    ensures PciTuple(XhciNode(usb)) == Some((usb.bus, usb.slot, usb.func)) && !IsIch9Sound(XhciNode(usb))
    ensures !IsIch9Sound(NoUsb())
  {
  }

  lemma {:induction false} IndexesAreRead(nodes: seq<Node>, error: Error)
    ensures Indexes(nodes, error).Ok? <==> forall n :: n in nodes && IsIndexed(n) ==> OrZero(n.index).Some?
  {
    hide OrZero, IsIndexed;
    if nodes != [] {
      var front := nodes[..|nodes| - 1];
      IndexesAreRead(front, error);
      assert nodes == front + [nodes[|nodes| - 1]];
    }
  }

  lemma PortsFitMeans(nodes: seq<Node>, p: Profile)
    requires BeforePorts(nodes, p).Ok?
    ensures PortsNormalized(BeforePorts(nodes, p).value).Ok? <==> IndexesRead(nodes)
  {
    hide BeforePorts, Filter, Indexes, MaxOrZero, Buses, Pruned, IsIndexed, IsBridge, IsPciController, Controller,
      OrZero;
    var before := BeforePorts(nodes, p).value;
    var used := Buses(before);
    var rest := Filter(before, n => EmptyBridge(n, used));
    FilterMembers(before, n => EmptyBridge(n, used));
    IndexesAreRead(rest, ValueError);
    forall n
      ensures IsIndexed(n) ==> IsPciController(n)
      ensures IsIndexed(n) <==> Controller(n) && n.model != Some("pcie-root") && n.model != Some("pcie-root-port")
      ensures IsBridge(n) ==> IsIndexed(n)
      ensures OrZero(n.index).Some? <==> n.index.Num? || n.index == Missing
      ensures IsPciController(n) ==> (n in before <==> n in nodes)
    {
      IndexedMeans(n);
      IndexIsRead(n);
      if IsPciController(n) {
        ControllersKept(nodes, p, n);
      }
    }
  }

  lemma IndexIsRead(n: Node)
    ensures IsBridge(n) ==> IsIndexed(n)
    ensures IsIndexed(n) ==> IsPciController(n)
    ensures OrZero(n.index).Some? <==> n.index.Num? || n.index == Missing
  {
  }

  /**
   The passes succeed exactly when the USB controller and the sound card find their places and the indexes are
   read.
   */
  lemma DevicesSetExactly(nodes: seq<Node>, p: Profile)
    ensures DevicesSet(nodes, p).Ok? <==> UsbFits(nodes, p.usb) && SoundFits(nodes, p) && IndexesRead(nodes)
  {
    hide Cleaned, UsbNormalized, HdaNormalized, PortsNormalized, UsbFits, SoundFits, IndexesRead, Filter;
    UsbFitsMeans(nodes, p.usb);
    if UsbNormalized(Cleaned(nodes), p.usb).Ok? {
      SoundFitsMeans(nodes, p);
      if BeforePorts(nodes, p).Ok? {
        PortsFitMeans(nodes, p);
      }
    }
  }
}

/**
 What the generator lists of a domain, said of the nodes themselves: which root ports, and for each the role that
 follows from the devices behind it.
 */
module PortRoles {
  import opened Outcomes
  import opened DomainDevices
  import opened RootPortPruning

  // ---- Devices behind a port -----------------------------------------------------------------

  predicate OnBus(n: Node, bus: int) {
    n.address.Some? && n.address.value.kind == "pci" && n.address.value.bus == Num(bus)
  }

  /** A host device that is passed through and whose class code is known. */
  predicate HasCode(n: Node, facts: Facts) {
    && n.tag == "hostdev" && n.kind == Some("pci")
    && n.source.Some? && n.source.value in facts && facts[n.source.value] > 0
  }

  /** The base class of such a device. */
  predicate OfBase(n: Node, facts: Facts, base: int) {
    HasCode(n, facts) && facts[n.source.value] / 0x1_0000 % 0x100 == base
  }

  /** Its base class and subclass together. */
  predicate OfClass(n: Node, facts: Facts, class_: int) {
    HasCode(n, facts) && facts[n.source.value] / 0x100 % 0x1_0000 == class_
  }

  /** Ports and bridges are no devices behind a port. */
  predicate PciBridge(n: Node) {
    n.tag == "controller"
    && (n.kind == Some("pci") || n.model == Some("pcie-root") || n.model == Some("pcie-root-port")
        || n.model == Some("pcie-to-pci-bridge") || n.model == Some("pci-bridge"))
  }

  predicate Graphics(n: Node, facts: Facts) {
    n.tag == "video" || OfBase(n, facts, 0x03)
  }

  predicate Storage(n: Node, facts: Facts) {
    || (n.tag == "disk" && (n.kind == Some("nvme") || (n.target.Some? && n.target.value.bus == "nvme")))
    || OfClass(n, facts, 0x0108)
  }

  predicate NetworkCard(n: Node, facts: Facts) {
    n.tag == "interface" || OfBase(n, facts, 0x02)
  }

  predicate UsbDevice(n: Node, facts: Facts) {
    || (n.tag == "controller" && n.kind == Some("usb") && !PciBridge(n))
    || (n.tag == "hostdev" && n.kind == Some("usb"))
    || OfClass(n, facts, 0x0C03)
  }

  predicate Sound(n: Node, facts: Facts) {
    n.tag == "sound" || OfClass(n, facts, 0x0403)
  }

  /** Some device behind the port is of the kind. */
  predicate Behind(nodes: seq<Node>, bus: int, kind: Node -> bool) {
    exists n :: n in nodes && OnBus(n, bus) && kind(n)
  }

  /** The first kind in the order graphics, NVMe storage, network, USB, sound, others that is behind the port. */
  predicate RoleIs(nodes: seq<Node>, bus: int, facts: Facts, role: Role) {
    var graphics := Behind(nodes, bus, n => Graphics(n, facts));
    var storage := Behind(nodes, bus, n => Storage(n, facts));
    var network := Behind(nodes, bus, n => NetworkCard(n, facts));
    var usb := Behind(nodes, bus, n => UsbDevice(n, facts));
    var sound := Behind(nodes, bus, n => Sound(n, facts));
    var any := Behind(nodes, bus, n => !PciBridge(n));
    match role
    case Gpu => graphics
    case Nvme => storage && !graphics
    case Nic => network && !graphics && !storage
    case Usb => usb && !graphics && !storage && !network
    case Audio => sound && !graphics && !storage && !network && !usb
    case Other => any && !graphics && !storage && !network && !usb && !sound
    case Empty => !any
  }

  /** A class code has one meaning. */
  lemma CodeMeans(code: nat)
    ensures var base, class_ := code / 0x1_0000 % 0x100, code / 0x100 % 0x1_0000;
      && (PciClassRole(code) == RootPorts.Gpu <==> base == 0x03)
      && (PciClassRole(code) == RootPorts.Nvme <==> class_ == 0x0108)
      && (PciClassRole(code) == RootPorts.Nic <==> base == 0x02)
      && (PciClassRole(code) == RootPorts.Usb <==> class_ == 0x0C03)
      && (PciClassRole(code) == RootPorts.Audio <==> class_ == 0x0403)
      && PciClassRole(code) != RootPorts.Empty
  {
    BaseOfClass(code);
  }

  /** The base class is the upper byte of the class. */
  lemma BaseOfClass(code: nat)
    ensures code / 0x100 % 0x1_0000 / 0x100 == code / 0x1_0000 % 0x100
  {
    ByteAbove(code / 0x100);
    Halves(code);
  }

  lemma Halves(code: nat)
    ensures code / 0x100 / 0x100 == code / 0x1_0000
  {
    var q, m := code / 0x1_0000, code % 0x1_0000;
    assert code / 0x100 == 0x100 * q + m / 0x100;
  }

  lemma ByteAbove(c: nat)
    ensures c % 0x1_0000 / 0x100 == c / 0x100 % 0x100
  {
    var q, m := c / 0x1_0000, c % 0x1_0000;
    assert c / 0x100 == 0x100 * q + m / 0x100;
  }

  predicate Classified(n: Node, facts: Facts) {
    && (Classify(n, facts) == Some(RootPorts.Gpu) <==> Graphics(n, facts))
    && (Classify(n, facts) == Some(RootPorts.Nvme) <==> Storage(n, facts))
    && (Classify(n, facts) == Some(RootPorts.Nic) <==> NetworkCard(n, facts))
    && (Classify(n, facts) == Some(RootPorts.Usb) <==> UsbDevice(n, facts))
    && (Classify(n, facts) == Some(RootPorts.Audio) <==> Sound(n, facts))
    && Classify(n, facts) != Some(RootPorts.Empty)
  }

  /** The class of a node, kind by kind. */
  lemma ClassMeans(n: Node, facts: Facts)
    ensures Classified(n, facts)
  {
    hide PciClassRole;
    if HasCode(n, facts) {
      CodeMeans(facts[n.source.value]);
    }
  }

  lemma DeviceOnBus(n: Node, bus: int, facts: Facts)
    ensures PciBus(n) == Some(bus) <==> OnBus(n, bus)
    ensures OnBus(n, bus) ==> (Classify(n, facts).Some? <==> !PciBridge(n))
  {
    hide PciClassRole;
  }

  lemma Found(nodes: seq<Node>, bus: int, facts: Facts, role: Role, kind: Node -> bool)
    requires forall n :: kind(n) <==> Classify(n, facts) == Some(role)
    ensures role in RolesAt(nodes, bus, facts) <==> Behind(nodes, bus, kind)
  {
    hide Classify, RolesAt, OnBus, PciBus;
    RolesMean(nodes, bus, facts);
    forall n
      ensures PciBus(n) == Some(bus) <==> OnBus(n, bus)
    {
      DeviceOnBus(n, bus, facts);
    }
    if n :| n in nodes && OnBus(n, bus) && kind(n) {
      assert Gives(n, bus, facts);
    }
  }

  lemma AnyFound(nodes: seq<Node>, bus: int, facts: Facts)
    ensures RolesAt(nodes, bus, facts) != [] <==> Behind(nodes, bus, n => !PciBridge(n))
  {
    hide Classify, RolesAt, OnBus, PciBus, PciBridge;
    RolesMean(nodes, bus, facts);
    var roles := RolesAt(nodes, bus, facts);
    forall n
      ensures Gives(n, bus, facts) <==> OnBus(n, bus) && !PciBridge(n)
    {
      DeviceOnBus(n, bus, facts);
    }
    if roles != [] {
      assert roles[0] in roles;
    }
    if n :| n in nodes && OnBus(n, bus) && !PciBridge(n) {
      assert Gives(n, bus, facts) && Classify(n, facts).value in roles;
    }
  }

  lemma NoneEmpty(nodes: seq<Node>, bus: int, facts: Facts)
    ensures RootPorts.Empty !in RolesAt(nodes, bus, facts)
  {
    hide Classify, RolesAt, PciBus, Graphics, Storage, NetworkCard, UsbDevice, Sound;
    RolesMean(nodes, bus, facts);
    forall n
      ensures Classify(n, facts) != Some(RootPorts.Empty)
    {
      ClassMeans(n, facts);
    }
  }

  lemma AllFound(nodes: seq<Node>, bus: int, facts: Facts)
    ensures var roles := RolesAt(nodes, bus, facts);
      && (RootPorts.Gpu in roles <==> Behind(nodes, bus, n => Graphics(n, facts)))
      && (RootPorts.Nvme in roles <==> Behind(nodes, bus, n => Storage(n, facts)))
      && (RootPorts.Nic in roles <==> Behind(nodes, bus, n => NetworkCard(n, facts)))
      && (RootPorts.Usb in roles <==> Behind(nodes, bus, n => UsbDevice(n, facts)))
      && (RootPorts.Audio in roles <==> Behind(nodes, bus, n => Sound(n, facts)))
  {
    hide Classify, RolesAt, Graphics, Storage, NetworkCard, UsbDevice, Sound, Behind;
    forall n
      ensures Graphics(n, facts) <==> Classify(n, facts) == Some(RootPorts.Gpu)
      ensures Storage(n, facts) <==> Classify(n, facts) == Some(RootPorts.Nvme)
      ensures NetworkCard(n, facts) <==> Classify(n, facts) == Some(RootPorts.Nic)
      ensures UsbDevice(n, facts) <==> Classify(n, facts) == Some(RootPorts.Usb)
      ensures Sound(n, facts) <==> Classify(n, facts) == Some(RootPorts.Audio)
    {
      ClassMeans(n, facts);
    }
    Found(nodes, bus, facts, RootPorts.Gpu, n => Graphics(n, facts));
    Found(nodes, bus, facts, RootPorts.Nvme, n => Storage(n, facts));
    Found(nodes, bus, facts, RootPorts.Nic, n => NetworkCard(n, facts));
    Found(nodes, bus, facts, RootPorts.Usb, n => UsbDevice(n, facts));
    Found(nodes, bus, facts, RootPorts.Audio, n => Sound(n, facts));
  }

  /** The first role of a list, when the list has only roles of devices. */
  lemma FirstRole(roles: seq<Role>)
    requires RootPorts.Empty !in roles
    ensures var role := Preferred(roles);
      && (role == RootPorts.Empty <==> roles == [])
      && (roles != [] ==>
            role in roles && forall other :: other in roles ==> RootPorts.RoleIndex(role) <= RootPorts.RoleIndex(other))
  {
    PreferredMeans(roles);
    if roles != [] {
      assert roles[0] in roles;
    }
  }

  lemma RoleAtMeans(nodes: seq<Node>, bus: int, facts: Facts, role: Role)
    ensures RoleAt(nodes, bus, facts) == role <==> RoleIs(nodes, bus, facts, role)
  {
    hide RolesAt, Behind, Preferred;
    var roles := RolesAt(nodes, bus, facts);
    NoneEmpty(nodes, bus, facts);
    FirstRole(roles);
    AllFound(nodes, bus, facts);
    AnyFound(nodes, bus, facts);
  }

  // ---- Which ports are listed ----------------------------------------------------------------

  predicate Controller(n: Node) {
    n.tag == "controller" && n.kind == Some("pci")
  }

  predicate Port(n: Node) {
    Controller(n) && n.model == Some("pcie-root-port")
  }

  predicate IndexIs(n: Node, index: int) {
    n.index == Num(index) || (n.index == Missing && index == 0)
  }

  /** A low index, a device on the bus, or a controller other than the root and its ports with a larger index. */
  predicate Needed(nodes: seq<Node>, index: int) {
    || index < 5
    || (exists n :: n in nodes && !Controller(n) && OnBus(n, index))
    || (exists n :: n in nodes && Controller(n) && n.model != Some("pcie-root") && n.model != Some("pcie-root-port")
                    && n.index.Num? && n.index.value > index)
  }

  /** What is listed of a node: a needed root port with its bus, its target port and the role behind it. */
  predicate ListedAs(nodes: seq<Node>, facts: Facts, n: Node, g: RootPorts.Guest) {
    && Port(n) && IndexIs(n, g.bus) && n.target.Some? && n.target.value.port == Num(g.port)
    && Needed(nodes, g.bus) && RoleIs(nodes, g.bus, facts, g.role)
  }

  lemma {:induction false} ListedStems(k: nat, nodes: seq<Node>, facts: Facts, used: set<int>, limit: int,
                                       g: RootPorts.Guest)
    requires k <= |nodes| && ListedUpTo(k, nodes, facts, used, limit).Ok?
    ensures g in ListedUpTo(k, nodes, facts, used, limit).value
            <==> exists i :: 0 <= i < k && ListedPort(nodes[i], nodes, facts, used, limit) == Ok([g])
  {
    hide ListedPort;
    if k > 0 {
      ListedStems(k - 1, nodes, facts, used, limit, g);
      ListsOne(nodes[k - 1], nodes, facts, used, limit);
      var more := ListedPort(nodes[k - 1], nodes, facts, used, limit).value;
      assert g in more <==> more == [g];
    }
  }

  lemma ListsOne(n: Node, nodes: seq<Node>, facts: Facts, used: set<int>, limit: int)
    ensures ListedPort(n, nodes, facts, used, limit).Ok? ==> |ListedPort(n, nodes, facts, used, limit).value| <= 1
  {
    hide RoleAt, IsFiller;
  }

  lemma NeededMeans(nodes: seq<Node>, index: int)
    requires Indexes(nodes, RuntimeError).Ok?
    ensures Needed(nodes, index) <==> !IsFiller(index, Buses(nodes), MaxOrZero(Indexes(nodes, RuntimeError).value))
  {
    hide Indexes, MaxOrZero, OnBus, PciBus;
    var indexes := Indexes(nodes, RuntimeError).value;
    var limit := MaxOrZero(indexes);
    forall n
      ensures PciBus(n) == Some(index) <==> OnBus(n, index)
    {
      DeviceOnBus(n, index, map[]);
    }
    MaxMeans(indexes);
    if index >= 5 {
      if index < limit {
        IndexStems(nodes, RuntimeError, limit);
        var n :| n in nodes && IsIndexed(n) && OrZero(n.index) == Some(limit);
        assert n.index.Num? && n.index.value > index;
      }
      if n :| n in nodes && IsIndexed(n) && n.index.Num? && n.index.value > index {
        IndexCounts(nodes, RuntimeError, n);
      }
    }
  }

  lemma OnePortMeans(n: Node, nodes: seq<Node>, facts: Facts, g: RootPorts.Guest)
    requires Indexes(nodes, RuntimeError).Ok? && forall m :: m in nodes && !IsPciController(m) ==> BusReadable(m)
    requires ListedPort(n, nodes, facts, Buses(nodes), MaxOrZero(Indexes(nodes, RuntimeError).value)).Ok?
    ensures ListedPort(n, nodes, facts, Buses(nodes), MaxOrZero(Indexes(nodes, RuntimeError).value)) == Ok([g])
            <==> ListedAs(nodes, facts, n, g)
  {
    hide Indexes, MaxOrZero, RoleAt, RoleIs, Needed, IsFiller, Buses;
    NeededMeans(nodes, g.bus);
    NeededMeans(nodes, IndexOrZero(n));
    RoleAtMeans(nodes, g.bus, facts, g.role);
  }

  /** The ports listed are those of the needed root ports, each with the role of the devices behind it. */
  lemma ListingMeans(nodes: seq<Node>, facts: Facts, g: RootPorts.Guest)
    requires Listed(nodes, facts).Ok?
    ensures g in Listed(nodes, facts).value <==> exists n :: n in nodes && ListedAs(nodes, facts, n, g)
  {
    hide Indexes, MaxOrZero, ListedPort, ListedUpTo, Buses, ListedAs, IsPciController, BusReadable;
    var used, limit := Buses(nodes), MaxOrZero(Indexes(nodes, RuntimeError).value);
    ListedStems(|nodes|, nodes, facts, used, limit, g);
    forall i | 0 <= i < |nodes|
      ensures ListedPort(nodes[i], nodes, facts, used, limit) == Ok([g]) <==> ListedAs(nodes, facts, nodes[i], g)
    {
      EachIsListed(|nodes|, nodes, facts, used, limit, i);
      OnePortMeans(nodes[i], nodes, facts, g);
    }
  }

  lemma {:induction false} EachIsListed(k: nat, nodes: seq<Node>, facts: Facts, used: set<int>, limit: int, i: nat)
    requires i < k <= |nodes| && ListedUpTo(k, nodes, facts, used, limit).Ok?
    ensures ListedPort(nodes[i], nodes, facts, used, limit).Ok?
  {
    hide ListedPort;
    if i < k - 1 {
      EachIsListed(k - 1, nodes, facts, used, limit, i);
    }
  }

  // ---- When the listing succeeds -------------------------------------------------------------

  /** The bus of the node, if it gives one, is a number. */
  predicate ReadsBus(n: Node) {
    n.address.Some? && n.address.value.kind == "pci" ==> n.address.value.bus != Bad
  }

  predicate ReadsIndex(n: Node) {
    n.index.Num? || n.index == Missing
  }

  /** A root port that is needed. */
  predicate NeededPort(nodes: seq<Node>, n: Node) {
    Port(n) && ReadsIndex(n) && Needed(nodes, if n.index.Num? then n.index.value else 0)
  }

  predicate ReadsTarget(n: Node) {
    n.target.Some? && n.target.value.port.Num?
  }

  predicate TargetsDiffer(a: Node, b: Node) {
    a.target.Some? && b.target.Some? ==> a.target.value.port != b.target.value.port
  }

  /** Everything that is looked at can be read, and no two needed ports have the same target port. */
  predicate Listable(nodes: seq<Node>) {
    && (forall n :: n in nodes && !Controller(n) ==> ReadsBus(n))
    && (forall n :: n in nodes && Controller(n) && n.model != Some("pcie-root") ==> ReadsIndex(n))
    && (forall n :: n in nodes && NeededPort(nodes, n) ==> ReadsTarget(n) && forall m :: m in nodes ==> ReadsBus(m))
    && (forall i, j :: 0 <= i < j < |nodes| && NeededPort(nodes, nodes[i]) && NeededPort(nodes, nodes[j])
                       ==> TargetsDiffer(nodes[i], nodes[j]))
  }

  lemma {:induction false} ListedUpToOk(k: nat, nodes: seq<Node>, facts: Facts, used: set<int>, limit: int)
    requires k <= |nodes|
    ensures ListedUpTo(k, nodes, facts, used, limit).Ok?
            <==> (forall i :: 0 <= i < k ==> ListedPort(nodes[i], nodes, facts, used, limit).Ok?)
                 && forall i, j :: 0 <= i < j < k ==> PortsDiffer(nodes, facts, used, limit, i, j)
  {
    hide ListedPort, PortsDiffer;
    if k > 0 {
      ListedUpToOk(k - 1, nodes, facts, used, limit);
      var before := ListedUpTo(k - 1, nodes, facts, used, limit);
      if before.Ok? && ListedPort(nodes[k - 1], nodes, facts, used, limit).Ok? {
        NewPort(k - 1, nodes, facts, used, limit);
      }
    }
  }

  /** Where both are listed, the two nodes have different target ports. */
  predicate PortsDiffer(nodes: seq<Node>, facts: Facts, used: set<int>, limit: int, i: nat, j: nat)
    requires i < |nodes| && j < |nodes|
  {
    var a, b := ListedPort(nodes[i], nodes, facts, used, limit), ListedPort(nodes[j], nodes, facts, used, limit);
    a.Ok? && b.Ok? && a.value != [] && b.value != [] ==> a.value[0].port != b.value[0].port
  }

  lemma NewPort(k: nat, nodes: seq<Node>, facts: Facts, used: set<int>, limit: int)
    requires k < |nodes| && ListedUpTo(k, nodes, facts, used, limit).Ok?
    requires ListedPort(nodes[k], nodes, facts, used, limit).Ok?
    ensures var more := ListedPort(nodes[k], nodes, facts, used, limit).value;
      (more != [] && exists g :: g in ListedUpTo(k, nodes, facts, used, limit).value && g.port == more[0].port)
      <==> exists i :: 0 <= i < k && !PortsDiffer(nodes, facts, used, limit, i, k)
  {
    hide ListedPort, ListedUpTo;
    var before, more := ListedUpTo(k, nodes, facts, used, limit).value,
      ListedPort(nodes[k], nodes, facts, used, limit).value;
    if g :| more != [] && g in before && g.port == more[0].port {
      ListedStems(k, nodes, facts, used, limit, g);
      var i :| 0 <= i < k && ListedPort(nodes[i], nodes, facts, used, limit) == Ok([g]);
      assert !PortsDiffer(nodes, facts, used, limit, i, k);
    }
    if i :| 0 <= i < k && !PortsDiffer(nodes, facts, used, limit, i, k) {
      var g := ListedPort(nodes[i], nodes, facts, used, limit).value[0];
      ListsOne(nodes[i], nodes, facts, used, limit);
      assert ListedPort(nodes[i], nodes, facts, used, limit).value == [g];
      ListedStems(k, nodes, facts, used, limit, g);
    }
  }

  lemma OnePortOk(n: Node, nodes: seq<Node>, facts: Facts)
    requires Indexes(nodes, RuntimeError).Ok? && n in nodes
    ensures var port := ListedPort(n, nodes, facts, Buses(nodes), MaxOrZero(Indexes(nodes, RuntimeError).value));
      && (port.Ok? <==> (Port(n) ==> ReadsIndex(n))
                        && (NeededPort(nodes, n) ==> ReadsTarget(n) && forall m :: m in nodes ==> ReadsBus(m)))
      && (port.Ok? && port.value != [] <==> port.Ok? && NeededPort(nodes, n))
      && (port.Ok? && port.value != [] ==> ReadsTarget(n) && n.target.value.port == Num(port.value[0].port))
  {
    hide Indexes, MaxOrZero, RoleAt, Needed, IsFiller, Buses;
    NeededMeans(nodes, IndexOrZero(n));
    forall m
      ensures ReadsBus(m) <==> BusReadable(m)
    {
    }
  }

  /** What `OnePortOk` says of the node at a position. */
  predicate OneOk(nodes: seq<Node>, facts: Facts, used: set<int>, limit: int, i: nat)
    requires i < |nodes|
  {
    var n, port := nodes[i], ListedPort(nodes[i], nodes, facts, used, limit);
    && (port.Ok? <==> NodeListable(nodes, n))
    && (port.Ok? ==> (port.value != [] <==> NeededPort(nodes, n)))
    && (port.Ok? && port.value != [] ==> ReadsTarget(n) && n.target.value.port == Num(port.value[0].port))
  }

  /** All that is asked of one node for itself. */
  predicate NodeListable(nodes: seq<Node>, n: Node) {
    && (Port(n) ==> ReadsIndex(n))
    && (NeededPort(nodes, n) ==> ReadsTarget(n) && forall m :: m in nodes ==> ReadsBus(m))
  }

  lemma OkMeans(nodes: seq<Node>, facts: Facts, used: set<int>, limit: int)
    requires forall i :: 0 <= i < |nodes| ==> OneOk(nodes, facts, used, limit, i)
    ensures (forall i :: 0 <= i < |nodes| ==> ListedPort(nodes[i], nodes, facts, used, limit).Ok?)
            <==> forall n :: n in nodes ==> NodeListable(nodes, n)
    ensures (forall n :: n in nodes ==> NodeListable(nodes, n)) ==>
      forall i, j :: 0 <= i < j < |nodes| ==>
        (PortsDiffer(nodes, facts, used, limit, i, j)
         <==> (NeededPort(nodes, nodes[i]) && NeededPort(nodes, nodes[j])
               ==> TargetsDiffer(nodes[i], nodes[j])))
  {
    hide ListedPort, NeededPort, Port, ReadsIndex, ReadsBus;
    forall i | 0 <= i < |nodes|
      ensures ListedPort(nodes[i], nodes, facts, used, limit).Ok? <==> NodeListable(nodes, nodes[i])
    {
      assert OneOk(nodes, facts, used, limit, i);
    }
    if forall n :: n in nodes ==> NodeListable(nodes, n) {
      forall i, j | 0 <= i < j < |nodes|
        ensures PortsDiffer(nodes, facts, used, limit, i, j)
          <==> (NeededPort(nodes, nodes[i]) && NeededPort(nodes, nodes[j])
                ==> TargetsDiffer(nodes[i], nodes[j]))
      {
        assert NodeListable(nodes, nodes[i]) && NodeListable(nodes, nodes[j]);
        assert OneOk(nodes, facts, used, limit, i) && OneOk(nodes, facts, used, limit, j);
      }
    }
  }

  lemma {:induction false} IndexesReadable(nodes: seq<Node>, error: Error)
    ensures Indexes(nodes, error).Ok? <==> forall n :: n in nodes && IsIndexed(n) ==> ReadsIndex(n)
  {
    hide IsIndexed;
    if nodes != [] {
      IndexesReadable(nodes[..|nodes| - 1], error);
      assert nodes == nodes[..|nodes| - 1] + [nodes[|nodes| - 1]];
    }
  }

  /** The generator lists the ports of a domain exactly when it is readable and its needed ports differ. */
  lemma ListingSucceeds(nodes: seq<Node>, facts: Facts)
    ensures Listed(nodes, facts).Ok? <==> Listable(nodes)
  {
    hide Indexes, MaxOrZero, ListedPort, ListedUpTo, Buses, NeededPort, ReadsTarget, ReadsIndex;
    IndexesReadable(nodes, RuntimeError);
    forall m
      ensures ReadsBus(m) <==> BusReadable(m)
    {
    }
    if Indexes(nodes, RuntimeError).Ok? {
      var used, limit := Buses(nodes), MaxOrZero(Indexes(nodes, RuntimeError).value);
      ListedUpToOk(|nodes|, nodes, facts, used, limit);
      forall i | 0 <= i < |nodes|
        ensures OneOk(nodes, facts, used, limit, i)
      {
        OnePortOk(nodes[i], nodes, facts);
      }
      OkMeans(nodes, facts, used, limit);
    }
  }
}

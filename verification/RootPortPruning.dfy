/**
 The two scripts against each other: the root ports the applier keeps are among those the generator
 profiled for the same domain, and the role check of the applier passes exactly when the devices it
 removes or moves do not change what sits behind a kept port.
 */
module RootPortPruning {
  import opened Outcomes
  import opened DomainDevices

  // ---- Filters -------------------------------------------------------------------------------

  lemma {:induction false} FilterMembers(nodes: seq<Node>, drop: Node -> bool)
    ensures forall n :: n in Filter(nodes, drop) <==> n in nodes && !drop(n)
  {
    if nodes != [] {
      FilterMembers(nodes[..|nodes| - 1], drop);
      assert nodes == nodes[..|nodes| - 1] + [nodes[|nodes| - 1]];
    }
  }

  lemma {:induction false} FilterAppend(a: seq<Node>, b: seq<Node>, drop: Node -> bool)
    ensures Filter(a + b, drop) == Filter(a, drop) + Filter(b, drop)
  {
    if b == [] {
      assert a + b == a;
    } else {
      FilterAppend(a, b[..|b| - 1], drop);
      assert (a + b)[..|a + b| - 1] == a + b[..|b| - 1];
    }
  }

  lemma {:induction false} FilterNothing(nodes: seq<Node>, drop: Node -> bool)
    requires forall n :: n in nodes ==> !drop(n)
    ensures Filter(nodes, drop) == nodes
  {
    if nodes != [] {
      FilterNothing(nodes[..|nodes| - 1], drop);
    }
  }

  // ---- Normalising the ports is idempotent ---------------------------------------------------

  lemma {:induction false} PrunedMembers(nodes: seq<Node>, used: set<int>, limit: int)
    ensures forall n :: n in Pruned(nodes, used, limit) ==>
              (n in nodes && !IsRootPort(n))
              || exists m :: m in nodes && IsRootPort(m) && n == Fixed(m) && !IsFiller(IndexOrZero(m), used, limit)
    ensures forall n :: n in nodes && !IsRootPort(n) ==> n in Pruned(nodes, used, limit)
  {
    hide Fixed, IsFiller;
    if nodes != [] {
      PrunedMembers(nodes[..|nodes| - 1], used, limit);
      assert nodes == nodes[..|nodes| - 1] + [nodes[|nodes| - 1]];
    }
  }

  lemma FixedPort(m: Node)
    requires IsRootPort(m)
    ensures IsRootPort(Fixed(m)) && IndexOrZero(Fixed(m)) == IndexOrZero(m) && Fixed(Fixed(m)) == Fixed(m)
    ensures m.target.Some? ==> PortOf(Fixed(m)) == PortOf(m)
  {
  }

  lemma {:induction false} PrunedTwice(nodes: seq<Node>, used: set<int>, limit: int)
    ensures Pruned(Pruned(nodes, used, limit), used, limit) == Pruned(nodes, used, limit)
  {
    hide Fixed, IsFiller, IsRootPort, IndexOrZero;
    if nodes != [] {
      var before, n := Pruned(nodes[..|nodes| - 1], used, limit), nodes[|nodes| - 1];
      PrunedTwice(nodes[..|nodes| - 1], used, limit);
      if IsRootPort(n) {
        FixedPort(n);
        assert (before + [Fixed(n)])[..|before|] == before;
      } else {
        assert (before + [n])[..|before|] == before;
      }
    }
  }

  /** Pruning leaves the nodes that are not root ports alone, so it moves neither buses nor indexes. */
  lemma {:induction false} PrunedIndexes(nodes: seq<Node>, used: set<int>, limit: int, error: Error)
    ensures Indexes(Pruned(nodes, used, limit), error) == Indexes(nodes, error)
  {
    hide Fixed, IsFiller, OrZero, IndexOrZero, IsRootPort, IsIndexed;
    if nodes != [] {
      var before, n := Pruned(nodes[..|nodes| - 1], used, limit), nodes[|nodes| - 1];
      PrunedIndexes(nodes[..|nodes| - 1], used, limit, error);
      if IsRootPort(n) {
        FixedPort(n);
        PortHasNoIndex(n);
        PortHasNoIndex(Fixed(n));
        IndexesSnoc(before, Fixed(n), error);
      } else {
        IndexesSnoc(before, n, error);
      }
    }
  }

  lemma PortHasNoIndex(n: Node)
    requires IsRootPort(n)
    ensures !IsIndexed(n)
  {
  }

  lemma IndexesSnoc(nodes: seq<Node>, n: Node, error: Error)
    ensures !IsIndexed(n) ==> Indexes(nodes + [n], error) == Indexes(nodes, error)
    ensures IsIndexed(n) && Indexes(nodes, error).Err? ==> Indexes(nodes + [n], error) == Indexes(nodes, error)
    ensures IsIndexed(n) && Indexes(nodes, error).Ok? && OrZero(n.index).None?
            ==> Indexes(nodes + [n], error) == Err(error)
    ensures IsIndexed(n) && Indexes(nodes, error).Ok? && OrZero(n.index).Some?
            ==> Indexes(nodes + [n], error) == Ok(Indexes(nodes, error).value + [OrZero(n.index).value])
  {
    hide OrZero, IsIndexed;
    assert (nodes + [n])[..|nodes|] == nodes;
  }

  lemma BusesDependOnOthers(a: seq<Node>, b: seq<Node>)
    requires forall n :: !IsPciController(n) ==> (n in a <==> n in b)
    ensures Buses(a) == Buses(b)
  {
  }

  /** Normalising the root ports a second time changes nothing. */
  lemma NormalizingTwice(nodes: seq<Node>)
    requires PortsNormalized(nodes).Ok?
    ensures PortsNormalized(PortsNormalized(nodes).value) == PortsNormalized(nodes)
  {
    hide Filter, Indexes, MaxOrZero, Pruned, Buses, IsFiller;
    var used := Buses(nodes);
    var rest := Filter(nodes, n => EmptyBridge(n, used));
    FilterMembers(nodes, n => EmptyBridge(n, used));
    var limit := MaxOrZero(Indexes(rest, ValueError).value);
    var out := Pruned(rest, used, limit);
    PrunedMembers(rest, used, limit);
    FixedIsController();
    forall n | !IsPciController(n)
      ensures n in nodes <==> n in out
    {
    }
    BusesDependOnOthers(nodes, out);
    forall n | n in out
      ensures !EmptyBridge(n, used) && (IsBridge(n) ==> n in nodes)
    {
    }
    FilterNothing(out, n => EmptyBridge(n, used));
    PrunedIndexes(rest, used, limit, ValueError);
    PrunedTwice(rest, used, limit);
  }

  lemma FixedIsController()
    ensures forall m :: IsRootPort(m) ==> IsRootPort(Fixed(m))
  {
  }

  // ---- Where the applier's nodes come from ---------------------------------------------------

  /** Every node was there before, or is new with no PCI bus other than the root bus. */
  ghost predicate Descends(before: seq<Node>, after: seq<Node>) {
    forall n :: n in after ==> n in before || (!IsPciController(n) && (PciBus(n) == None || PciBus(n) == Some(0)))
  }

  lemma DescendsFilter(before: seq<Node>, after: seq<Node>, drop: Node -> bool)
    requires Descends(before, after)
    ensures Descends(before, Filter(after, drop))
  {
    FilterMembers(after, drop);
  }

  lemma DescendsBalloon(before: seq<Node>, after: seq<Node>)
    requires Descends(before, after)
    ensures Descends(before, BalloonOff(after))
  {
    hide First;
  }

  lemma OneUsbPlaces(nodes: seq<Node>, x: Node)
    ensures First(nodes, IsUsb) < |OneUsb(nodes)|
    ensures forall n :: n in OneUsb(nodes)[First(nodes, IsUsb) := x] <==> n == x || (n in nodes && !IsUsb(n))
  {
    hide IsUsb, Filter, Bare;
    var i := First(nodes, IsUsb);
    var out := OneUsb(nodes)[i := x];
    if i < |nodes| {
      var front, back := nodes[..i], Filter(nodes[i + 1..], IsUsb);
      FilterMembers(nodes[i + 1..], IsUsb);
      assert out == front + [x] + back;
      assert nodes == front + [nodes[i]] + nodes[i + 1..];
      assert forall n :: n in front ==> !IsUsb(n);
      assert forall n :: n in nodes <==> n in front || n == nodes[i] || n in nodes[i + 1..];
    } else {
      assert out == nodes + [x];
    }
  }

  lemma DescendsUsb(before: seq<Node>, after: seq<Node>, usb: Xhci)
    requires Descends(before, after) && UsbNormalized(after, usb).Ok?
    ensures Descends(before, UsbNormalized(after, usb).value)
  {
    hide First, Filter, Occupied, PciBus, IsPciController, XhciNode, NoUsb, Replaced, OneUsb;
    FilterMembers(after, IsUsb);
    AddedUsb(usb);
    OneUsbPlaces(after, XhciNode(usb));
  }

  lemma AddedUsb(usb: Xhci)
    ensures PciBus(XhciNode(usb)) == Some(usb.bus) && !IsPciController(XhciNode(usb))
    ensures PciBus(NoUsb()) == None && !IsPciController(NoUsb())
  {
  }

  /** The nodes on which the root port pass starts. */
  function BeforePorts(nodes: seq<Node>, p: Profile): Result<seq<Node>> {
    var usb :- UsbNormalized(Cleaned(nodes), p.usb);
    HdaNormalized(usb, p.hda)
  }

  lemma BeforePortsDescends(nodes: seq<Node>, p: Profile)
    requires BeforePorts(nodes, p).Ok?
    ensures Descends(nodes, BeforePorts(nodes, p).value)
  {
    hide Filter, UsbNormalized, BalloonOff, Descends;
    DescendsItself(nodes);
    DescendsFilter(nodes, nodes, Unsupported);
    DescendsFilter(nodes, Filter(nodes, Unsupported), EmulatedHid);
    DescendsBalloon(nodes, Filter(Filter(nodes, Unsupported), EmulatedHid));
    DescendsUsb(nodes, Cleaned(nodes), p.usb);
    DescendsFilter(nodes, UsbNormalized(Cleaned(nodes), p.usb).value, IsIch9Sound);
  }

  lemma DescendsItself(nodes: seq<Node>)
    ensures Descends(nodes, nodes)
  {
  }

  lemma BusesShrink(before: seq<Node>, after: seq<Node>)
    requires Descends(before, after)
    ensures Buses(after) <= Buses(before) + {0}
  {
  }

  lemma {:induction false} IndexCounts(nodes: seq<Node>, error: Error, n: Node)
    requires Indexes(nodes, error).Ok? && n in nodes && IsIndexed(n)
    ensures OrZero(n.index).Some? && OrZero(n.index).value in Indexes(nodes, error).value
  {
    hide OrZero, IsIndexed;
    var front := nodes[..|nodes| - 1];
    assert nodes == front + [nodes[|nodes| - 1]];
    if n in front {
      IndexCounts(front, error, n);
    }
  }

  lemma {:induction false} IndexStems(nodes: seq<Node>, error: Error, v: int)
    requires Indexes(nodes, error).Ok? && v in Indexes(nodes, error).value
    ensures exists n :: n in nodes && IsIndexed(n) && OrZero(n.index) == Some(v)
  {
    hide OrZero, IsIndexed;
    var front, last := nodes[..|nodes| - 1], nodes[|nodes| - 1];
    if v in Indexes(front, error).value {
      IndexStems(front, error, v);
      var n :| n in front && IsIndexed(n) && OrZero(n.index) == Some(v);
      assert n in nodes;
    } else {
      assert last in nodes && IsIndexed(last) && OrZero(last.index) == Some(v);
    }
  }

  lemma {:induction false} MaxMeans(s: seq<int>)
    ensures forall v :: v in s ==> v <= MaxOrZero(s)
    ensures if s == [] then MaxOrZero(s) == 0 else MaxOrZero(s) in s
  {
    if |s| > 1 {
      MaxMeans(s[..|s| - 1]);
      assert s == s[..|s| - 1] + [s[|s| - 1]];
    }
  }

  /** The filler limit does not grow when nodes go, except up to zero. */
  lemma LimitShrinks(before: seq<Node>, after: seq<Node>, first: Error, second: Error)
    requires Indexes(before, first).Ok? && Indexes(after, second).Ok?
    requires forall n :: n in after && IsIndexed(n) ==> n in before
    ensures var limit := MaxOrZero(Indexes(after, second).value);
            limit <= 0 || limit <= MaxOrZero(Indexes(before, first).value)
  {
    hide Indexes, MaxOrZero;
    MaxMeans(Indexes(before, first).value);
    MaxMeans(Indexes(after, second).value);
    var limit := MaxOrZero(Indexes(after, second).value);
    if limit > 0 {
      IndexStems(after, second, limit);
      var n :| n in after && IsIndexed(n) && OrZero(n.index) == Some(limit);
      IndexCounts(before, first, n);
    }
  }

  // ---- What the generator lists --------------------------------------------------------------

  lemma {:induction false} ListedMeans(k: nat, nodes: seq<Node>, facts: Facts, used: set<int>, limit: int, n: Node)
    requires k <= |nodes| && ListedUpTo(k, nodes, facts, used, limit).Ok?
    requires n in nodes[..k] && IsRootPort(n) && !IsFiller(IndexOrZero(n), used, limit)
    ensures OrZero(n.index).Some? && n.target.Some? && n.target.value.port.Num?
    ensures RootPorts.Guest(IndexOrZero(n), PortOf(n), RoleAt(nodes, IndexOrZero(n), facts))
            in ListedUpTo(k, nodes, facts, used, limit).value
  {
    hide RoleAt, IsFiller;
    if n in nodes[..k - 1] {
      ListedMeans(k - 1, nodes, facts, used, limit, n);
    } else {
      assert nodes[..k] == nodes[..k - 1] + [nodes[k - 1]];
    }
  }

  lemma {:induction false} ListedDistinct(k: nat, nodes: seq<Node>, facts: Facts, used: set<int>, limit: int)
    requires k <= |nodes| && ListedUpTo(k, nodes, facts, used, limit).Ok?
    ensures RootPorts.DistinctPorts(ListedUpTo(k, nodes, facts, used, limit).value)
  {
    hide RoleAt, IsFiller;
    if k > 0 {
      ListedDistinct(k - 1, nodes, facts, used, limit);
      var before := ListedUpTo(k - 1, nodes, facts, used, limit).value;
      var more := ListedPort(nodes[k - 1], nodes, facts, used, limit).value;
      assert |more| <= 1;
      forall i | 0 <= i < |before|
        ensures more != [] ==> before[i].port != more[0].port
      {
        assert before[i] in before;
      }
    }
  }

  // ---- The main results ----------------------------------------------------------------------

  /** The profiled guest port of a root port that the applier kept. */
  function PortRecord(nodes: seq<Node>, n: Node, facts: Facts): RootPorts.Guest {
    RootPorts.Guest(IndexOrZero(n), PortOf(n), RoleAt(nodes, IndexOrZero(n), facts))
  }

  lemma KeptPortIsListed(nodes: seq<Node>, p: Profile, facts: Facts, before: seq<Node>, m: Node)
    requires Listed(nodes, facts).Ok? && BeforePorts(nodes, p) == Ok(before)
    requires m in before && IsRootPort(m) && PortsNormalized(before).Ok?
    requires var rest := Filter(before, n => EmptyBridge(n, Buses(before)));
             Indexes(rest, ValueError).Ok?
             && !IsFiller(IndexOrZero(m), Buses(before), MaxOrZero(Indexes(rest, ValueError).value))
    ensures OrZero(m.index).Some? && m.target.Some? && m.target.value.port.Num?
    ensures PortRecord(nodes, m, facts) in Listed(nodes, facts).value
  {
    hide Filter, Indexes, MaxOrZero, ListedUpTo, BeforePorts, RoleAt, PortsNormalized, Buses;
    BeforePortsDescends(nodes, p);
    BusesShrink(nodes, before);
    var rest := Filter(before, n => EmptyBridge(n, Buses(before)));
    FilterMembers(before, n => EmptyBridge(n, Buses(before)));
    LimitShrinks(nodes, rest, RuntimeError, ValueError);
    assert nodes[..|nodes|] == nodes;
    ListedMeans(|nodes|, nodes, facts, Buses(nodes), MaxOrZero(Indexes(nodes, RuntimeError).value), m);
  }

  /**
   For the same domain, every root port that the applier keeps is one the generator profiled, with a
   readable target port, on the same bus.
   */
  lemma KeptPortsAreProfiled(nodes: seq<Node>, p: Profile, facts: Facts, n: Node)
    requires Listed(nodes, facts).Ok? && DevicesSet(nodes, p).Ok?
    requires n in DevicesSet(nodes, p).value && IsRootPort(n)
    ensures PortReadable(n) && PortRecord(nodes, n, facts) in Listed(nodes, facts).value
  {
    hide Filter, Indexes, MaxOrZero, Listed, RoleAt, Buses, UsbNormalized, HdaNormalized, Cleaned, Pruned, IsFiller;
    var before := BeforePorts(nodes, p).value;
    var ports := PortsNormalized(before).value;
    FilterMembers(ports, IsDisplay);
    var rest := Filter(before, n => EmptyBridge(n, Buses(before)));
    FilterMembers(before, n => EmptyBridge(n, Buses(before)));
    var limit := MaxOrZero(Indexes(rest, ValueError).value);
    PrunedMembers(rest, Buses(before), limit);
    var m :| m in rest && IsRootPort(m) && n == Fixed(m) && !IsFiller(IndexOrZero(m), Buses(before), limit);
    KeptPortIsListed(nodes, p, facts, before, m);
    FixedPort(m);
    FixedTarget(m);
  }

  lemma FixedTarget(m: Node)
    requires m.target.Some?
    ensures Fixed(m).index == m.index && Fixed(m).target.Some? && Fixed(m).target.value.port == m.target.value.port
  {
  }

  // ---- Roles ---------------------------------------------------------------------------------

  /** The node gives a downstream role to the port of a bus. */
  predicate Gives(n: Node, bus: int, facts: Facts) {
    PciBus(n) == Some(bus) && Classify(n, facts).Some?
  }

  lemma {:induction false} RolesMean(nodes: seq<Node>, bus: int, facts: Facts)
    ensures forall role :: role in RolesAt(nodes, bus, facts)
                           <==> exists n :: n in nodes && Gives(n, bus, facts) && Classify(n, facts).value == role
  {
    hide PciBus, Classify;
    if nodes != [] {
      var front, last := nodes[..|nodes| - 1], nodes[|nodes| - 1];
      RolesMean(front, bus, facts);
      assert nodes == front + [last];
    }
  }

  lemma {:induction false} PreferredMeans(roles: seq<Role>)
    ensures Preferred(roles) in roles
            || (Preferred(roles) == RootPorts.Empty && forall role :: role in roles ==> role == RootPorts.Empty)
    ensures forall role :: role in roles ==> RootPorts.RoleIndex(Preferred(roles)) <= RootPorts.RoleIndex(role)
  {
    if roles != [] {
      PreferredMeans(roles[..|roles| - 1]);
      assert roles == roles[..|roles| - 1] + [roles[|roles| - 1]];
    }
  }

  /** The role of a bus depends only on which role-giving nodes there are. */
  lemma RoleDependsOnGivers(a: seq<Node>, b: seq<Node>, bus: int, facts: Facts)
    requires forall n :: Gives(n, bus, facts) ==> (n in a <==> n in b)
    ensures RoleAt(a, bus, facts) == RoleAt(b, bus, facts)
  {
    hide RolesAt, Classify, Preferred, Gives;
    RolesMean(a, bus, facts);
    RolesMean(b, bus, facts);
    PreferredMeans(RolesAt(a, bus, facts));
    PreferredMeans(RolesAt(b, bus, facts));
    SameIndex(RoleAt(a, bus, facts), RoleAt(b, bus, facts));
    forall role
      ensures role in RolesAt(a, bus, facts) <==> role in RolesAt(b, bus, facts)
    {
    }
  }

  lemma SameIndex(a: Role, b: Role)
    ensures RootPorts.RoleIndex(a) == RootPorts.RoleIndex(b) ==> a == b
    ensures RootPorts.RoleIndex(a) <= RootPorts.RoleIndex(RootPorts.Empty)
  {
  }

  // ---- What stays behind the ports -----------------------------------------------------------

  function WithoutFirstBalloon(nodes: seq<Node>): seq<Node> {
    var i := First(nodes, IsBalloon);
    if i < |nodes| then nodes[..i] + nodes[i + 1..] else nodes
  }

  /** The node is none of those that the applier removes or moves, the memory balloon aside. */
  predicate Stays(n: Node, p: Profile) {
    && !Unsupported(n) && !EmulatedHid(n) && !IsUsb(n)
    && !(p.hda.onboard && IsIch9Sound(n)) && !(p.gpuPassthrough && IsDisplay(n))
  }

  function Remaining(nodes: seq<Node>, p: Profile): seq<Node> {
    Filter(WithoutFirstBalloon(nodes), n => !Stays(n, p))
  }

  lemma {:induction false} FirstIs(nodes: seq<Node>, wanted: Node -> bool, i: nat)
    requires i <= |nodes| && (forall k :: 0 <= k < i ==> !wanted(nodes[k])) && (i < |nodes| ==> wanted(nodes[i]))
    ensures First(nodes, wanted) == i
  {
    if i > 0 {
      FirstIs(nodes[1..], wanted, i - 1);
    }
  }

  lemma FilterSplits(front: seq<Node>, balloon: Node, back: seq<Node>, drop: Node -> bool)
    requires !drop(balloon)
    ensures Filter(front + [balloon] + back, drop) == Filter(front, drop) + [balloon] + Filter(back, drop)
  {
    hide Filter;
    FilterAppend(front + [balloon], back, drop);
    FilterAppend(front, [balloon], drop);
    FilterNothing([balloon], drop);
  }

  lemma NoBalloonIn(kept: seq<Node>, front: seq<Node>)
    requires (forall n :: n in kept ==> n in front) && forall k :: 0 <= k < |front| ==> !IsBalloon(front[k])
    ensures forall k :: 0 <= k < |kept| ==> !IsBalloon(kept[k])
  {
    hide IsBalloon;
    forall k | 0 <= k < |kept|
      ensures !IsBalloon(kept[k])
    {
      assert kept[k] in kept;
    }
  }

  lemma DropsMiddle(front: seq<Node>, balloon: Node, back: seq<Node>)
    requires IsBalloon(balloon) && forall k :: 0 <= k < |front| ==> !IsBalloon(front[k])
    ensures WithoutFirstBalloon(front + [balloon] + back) == front + back
  {
    hide IsBalloon, First;
    var all := front + [balloon] + back;
    assert all[|front|] == balloon && forall k :: 0 <= k < |front| ==> all[k] == front[k];
    FirstIs(all, IsBalloon, |front|);
    assert all[..|front|] == front && all[|front| + 1..] == back;
  }

  lemma DropsNothing(nodes: seq<Node>)
    requires forall k :: 0 <= k < |nodes| ==> !IsBalloon(nodes[k])
    ensures WithoutFirstBalloon(nodes) == nodes
  {
    hide IsBalloon, First;
    FirstIs(nodes, IsBalloon, |nodes|);
  }

  /** Removing the first balloon and removing other nodes commute. */
  lemma BalloonCommutes(nodes: seq<Node>, drop: Node -> bool)
    requires forall n :: IsBalloon(n) ==> !drop(n)
    ensures WithoutFirstBalloon(Filter(nodes, drop)) == Filter(WithoutFirstBalloon(nodes), drop)
  {
    hide Filter, IsBalloon, WithoutFirstBalloon, First;
    var i := First(nodes, IsBalloon);
    if i < |nodes| {
      var front, balloon, back := nodes[..i], nodes[i], nodes[i + 1..];
      assert nodes == front + [balloon] + back;
      DropsMiddle(front, balloon, back);
      FilterSplits(front, balloon, back, drop);
      FilterAppend(front, back, drop);
      FilterMembers(front, drop);
      NoBalloonIn(Filter(front, drop), front);
      DropsMiddle(Filter(front, drop), balloon, Filter(back, drop));
    } else {
      FilterMembers(nodes, drop);
      NoBalloonIn(Filter(nodes, drop), nodes);
      DropsNothing(nodes);
      DropsNothing(Filter(nodes, drop));
    }
  }

  lemma BalloonOffMembers(nodes: seq<Node>)
    ensures forall n :: n in BalloonOff(nodes) <==> n == NoBalloon() || n in WithoutFirstBalloon(nodes)
  {
    hide NoBalloon, IsBalloon;
    var i := First(nodes, IsBalloon);
    if i < |nodes| {
      var front, back := nodes[..i], nodes[i + 1..];
      assert BalloonOff(nodes) == front + [NoBalloon()] + back;
    }
  }

  lemma CleanedMembers(nodes: seq<Node>)
    ensures forall n :: n in Cleaned(nodes)
                        <==> n == NoBalloon() || (n in WithoutFirstBalloon(nodes) && !Unsupported(n) && !EmulatedHid(n))
  {
    hide WithoutFirstBalloon, BalloonOff, NoBalloon, Filter, Unsupported, EmulatedHid;
    BalloonIsKept();
    BalloonCommutes(nodes, Unsupported);
    BalloonCommutes(Filter(nodes, Unsupported), EmulatedHid);
    FilterMembers(WithoutFirstBalloon(nodes), Unsupported);
    FilterMembers(Filter(WithoutFirstBalloon(nodes), Unsupported), EmulatedHid);
    BalloonOffMembers(Filter(Filter(nodes, Unsupported), EmulatedHid));
  }

  lemma BalloonIsKept()
    ensures forall n :: IsBalloon(n) ==> !Unsupported(n) && !EmulatedHid(n)
  {
  }

  lemma WithoutBalloonMembers(nodes: seq<Node>)
    ensures forall n :: n in WithoutFirstBalloon(nodes) ==> n in nodes
    ensures forall n :: n in nodes && !IsBalloon(n) ==> n in WithoutFirstBalloon(nodes)
  {
    hide IsBalloon;
    var i := First(nodes, IsBalloon);
    if i < |nodes| {
      assert nodes == nodes[..i] + [nodes[i]] + nodes[i + 1..];
    }
  }

  /** Host devices are never removed, so the early passes do not change whether xHCI is replaced. */
  lemma ReplacedIsKept(nodes: seq<Node>, usb: Xhci)
    ensures Replaced(Cleaned(nodes), usb) <==> Replaced(nodes, usb)
  {
    hide Cleaned, WithoutFirstBalloon, PciTuple;
    CleanedMembers(nodes);
    WithoutBalloonMembers(nodes);
    HostdevIsKept();
  }

  lemma HostdevIsKept()
    ensures forall n: Node ::
      n.tag == "hostdev" ==> !IsBalloon(n) && !Unsupported(n) && !EmulatedHid(n) && n != NoBalloon()
  {
  }

  predicate Plain(n: Node) {
    !IsPciController(n) && n != NoBalloon() && n != NoUsb()
  }

  lemma UsbMembers(nodes: seq<Node>, usb: Xhci)
    requires UsbNormalized(nodes, usb).Ok?
    ensures forall n :: n in UsbNormalized(nodes, usb).value
                        <==> n == (if Replaced(nodes, usb) then NoUsb() else XhciNode(usb)) || (n in nodes && !IsUsb(n))
  {
    hide First, Filter, Occupied, XhciNode, NoUsb, Replaced, OneUsb, IsUsb;
    FilterMembers(nodes, IsUsb);
    OneUsbPlaces(nodes, XhciNode(usb));
  }

  lemma PortsKeepOthers(nodes: seq<Node>)
    requires PortsNormalized(nodes).Ok?
    ensures forall n :: !IsPciController(n) ==> (n in PortsNormalized(nodes).value <==> n in nodes)
  {
    hide Filter, Indexes, MaxOrZero, Pruned, Buses, IsFiller;
    var used := Buses(nodes);
    FilterMembers(nodes, n => EmptyBridge(n, used));
    var rest := Filter(nodes, n => EmptyBridge(n, used));
    PrunedMembers(rest, used, MaxOrZero(Indexes(rest, ValueError).value));
    FixedIsController();
  }

  /** The devices of the result other than PCI controllers. */
  lemma SetMembers(nodes: seq<Node>, p: Profile, n: Node)
    requires DevicesSet(nodes, p).Ok? && Plain(n)
    ensures n in DevicesSet(nodes, p).value
            <==> n in Remaining(nodes, p) || (!Replaced(nodes, p.usb) && n == XhciNode(p.usb))
  {
    hide Filter, WithoutFirstBalloon, Cleaned, UsbNormalized, PortsNormalized, Unsupported, EmulatedHid, IsUsb,
      IsIch9Sound, IsDisplay, NoUsb, NoBalloon, Replaced, XhciNode, IsPciController;
    var cleaned := Cleaned(nodes);
    CleanedMembers(nodes);
    ReplacedIsKept(nodes, p.usb);
    UsbMembers(cleaned, p.usb);
    var usb := UsbNormalized(cleaned, p.usb).value;
    FilterMembers(usb, IsIch9Sound);
    var hda := HdaNormalized(usb, p.hda).value;
    PortsKeepOthers(hda);
    FilterMembers(PortsNormalized(hda).value, IsDisplay);
    FilterMembers(WithoutFirstBalloon(nodes), n => !Stays(n, p));
    XhciStays(p.usb);
  }

  lemma XhciStays(usb: Xhci)
    ensures !IsIch9Sound(XhciNode(usb)) && !IsDisplay(XhciNode(usb))
  {
  }

  /** The role behind a bus once the applier is done, read off the original devices. */
  function RoleAfter(nodes: seq<Node>, p: Profile, bus: int, facts: Facts): Role {
    RoleAt(Remaining(nodes, p) + (if Replaced(nodes, p.usb) then [] else [XhciNode(p.usb)]), bus, facts)
  }

  lemma GiversArePlain(n: Node, bus: int, facts: Facts)
    requires Gives(n, bus, facts)
    ensures Plain(n)
  {
  }

  lemma RoleAfterIs(nodes: seq<Node>, p: Profile, bus: int, facts: Facts)
    requires DevicesSet(nodes, p).Ok?
    ensures RoleAt(DevicesSet(nodes, p).value, bus, facts) == RoleAfter(nodes, p, bus, facts)
  {
    hide Remaining, Replaced, XhciNode, DevicesSet, RoleAt, Gives, Plain;
    var after := Remaining(nodes, p) + (if Replaced(nodes, p.usb) then [] else [XhciNode(p.usb)]);
    forall n | Gives(n, bus, facts)
      ensures n in DevicesSet(nodes, p).value <==> n in after
    {
      GiversArePlain(n, bus, facts);
      SetMembers(nodes, p, n);
    }
    RoleDependsOnGivers(DevicesSet(nodes, p).value, after, bus, facts);
  }

  // ---- The applier's check of the generator's profile ----------------------------------------

  /** After the applier, xHCI is on the root bus exactly when it was not replaced by a host device. */
  lemma RootBusXhci(nodes: seq<Node>, p: Profile)
    requires DevicesSet(nodes, p).Ok?
    ensures HasRootBusXhci(DevicesSet(nodes, p).value) <==> !Replaced(nodes, p.usb)
  {
    hide Filter, WithoutFirstBalloon, Cleaned, PortsNormalized, Replaced;
    var final := DevicesSet(nodes, p).value;
    ReplacedIsKept(nodes, p.usb);
    UsbIsPlaced(p.usb);
    if !Replaced(nodes, p.usb) {
      SetMembers(nodes, p, XhciNode(p.usb));
      assert p.usb.model == "qemu-xhci" && p.usb.bus == 0;
    }
    forall n | n in final && IsUsb(n) && n.model !in {None, Some("none")}
      ensures !Replaced(nodes, p.usb)
    {
      assert n != NoUsb() && n != NoBalloon();
      SetMembers(nodes, p, n);
      FilterMembers(WithoutFirstBalloon(nodes), m => !Stays(m, p));
    }
  }

  lemma UsbIsPlaced(usb: Xhci)
    ensures IsUsb(XhciNode(usb)) && PciTuple(XhciNode(usb)) == Some(Wanted(usb))
    ensures XhciNode(usb).model == Some(usb.model)
  {
  }

  lemma {:induction false} ProfiledHolds(items: seq<RootPorts.Item>, x: RootPorts.Item)
    requires RootPorts.DistinctItems(items) && x in items
    ensures x.guest.port in Profiled(items) && Profiled(items)[x.guest.port] == x.guest.role
  {
    var front, last := items[..|items| - 1], items[|items| - 1];
    assert items == front + [last];
    if x != last {
      ProfiledHolds(front, x);
      var i :| 0 <= i < |front| && front[i] == x;
      assert items[i] == x;
    }
  }

  /** The role behind a bus is kept by the applier, or is a USB role that goes because xHCI moves to the root bus. */
  predicate RoleSurvives(nodes: seq<Node>, p: Profile, bus: int, facts: Facts) {
    || RoleAfter(nodes, p, bus, facts) == RoleAt(nodes, bus, facts)
    || (RoleAt(nodes, bus, facts) == RootPorts.Usb && RoleAfter(nodes, p, bus, facts) == RootPorts.Empty
       && !Replaced(nodes, p.usb))
  }

  lemma AssignedProfiles(ports: seq<RootPorts.Guest>, hosts: seq<RootPorts.Host>, items: seq<RootPorts.Item>,
                         g: RootPorts.Guest)
    requires RootPorts.DistinctPorts(ports) && RootPorts.DistinctBdfs(hosts)
    requires RootPorts.Assigned(ports, hosts) == Ok(items) && g in ports
    ensures RootPorts.DistinctItems(items) && g.port in Profiled(items) && Profiled(items)[g.port] == g.role
  {
    hide RootPorts.Assigned, RootPorts.RankOf;
    RootPorts.AssignedExactly(ports, hosts, items);
    assert RootPorts.HasItem(items, g);
    var x :| x in items && x.guest == g;
    ProfiledHolds(items, x);
  }

  lemma AssignedIsDistinct(ports: seq<RootPorts.Guest>, hosts: seq<RootPorts.Host>, items: seq<RootPorts.Item>)
    requires RootPorts.DistinctPorts(ports) && RootPorts.DistinctBdfs(hosts)
    requires RootPorts.Assigned(ports, hosts) == Ok(items)
    ensures RootPorts.DistinctItems(items)
  {
    hide RootPorts.Assigned, RootPorts.RankOf;
    RootPorts.AssignedExactly(ports, hosts, items);
  }

  // ---- Which ports are kept ------------------------------------------------------------------

  /** The buses in use when the ports are pruned: display devices are still there. */
  function BusesLeft(nodes: seq<Node>, p: Profile): set<int> {
    Buses(Remaining(nodes, p.(gpuPassthrough := false)) + (if Replaced(nodes, p.usb) then [] else [XhciNode(p.usb)]))
  }

  /** A controller that stays and has a larger index. */
  predicate IndexedAbove(n: Node, used: set<int>, index: int) {
    IsIndexed(n) && !EmptyBridge(n, used) && OrZero(n.index).Some? && OrZero(n.index).value > index
  }

  /** The port has a low index, a device behind it, or a controller with a larger index that stays. */
  predicate KeepsPort(nodes: seq<Node>, p: Profile, m: Node) {
    IsRootPort(m)
    && (IndexOrZero(m) < 5 || IndexOrZero(m) in BusesLeft(nodes, p)
        || exists n :: n in nodes && IndexedAbove(n, BusesLeft(nodes, p), IndexOrZero(m)))
  }

  lemma BusesDependOnBused(a: seq<Node>, b: seq<Node>)
    requires forall n :: !IsPciController(n) && PciBus(n).Some? ==> (n in a <==> n in b)
    ensures Buses(a) == Buses(b)
  {
    hide IsPciController, PciBus;
  }

  lemma PlainOrBusless(n: Node)
    requires !IsPciController(n) && PciBus(n).Some?
    ensures Plain(n)
  {
  }

  lemma BusesAre(nodes: seq<Node>, p: Profile)
    requires BeforePorts(nodes, p).Ok? && PortsNormalized(BeforePorts(nodes, p).value).Ok?
    ensures Buses(BeforePorts(nodes, p).value) == BusesLeft(nodes, p)
  {
    hide Buses, PortsNormalized, Remaining, Replaced, XhciNode, Plain, PciBus, IsPciController, Cleaned,
      UsbNormalized, HdaNormalized;
    var before, q := BeforePorts(nodes, p).value, p.(gpuPassthrough := false);
    assert DevicesSet(nodes, q) == PortsNormalized(before);
    PortsKeepOthers(before);
    var after := Remaining(nodes, q) + (if Replaced(nodes, p.usb) then [] else [XhciNode(p.usb)]);
    forall n | !IsPciController(n) && PciBus(n).Some?
      ensures n in before <==> n in after
    {
      PlainOrBusless(n);
      SetMembers(nodes, q, n);
    }
    BusesDependOnBused(before, after);
  }

  lemma ControllersStay(usb: Xhci)
    ensures forall n ::
      IsPciController(n) ==> !IsBalloon(n) && !Unsupported(n) && !EmulatedHid(n) && !IsUsb(n) && !IsIch9Sound(n)
    ensures !IsPciController(NoBalloon()) && !IsPciController(NoUsb()) && !IsPciController(XhciNode(usb))
  {
  }

  /** The earlier passes leave the PCI controllers alone. */
  lemma ControllersKept(nodes: seq<Node>, p: Profile, n: Node)
    requires BeforePorts(nodes, p).Ok? && IsPciController(n)
    ensures n in BeforePorts(nodes, p).value <==> n in nodes
  {
    hide Filter, WithoutFirstBalloon, Cleaned, UsbNormalized, Unsupported, EmulatedHid, IsUsb, IsIch9Sound, IsBalloon,
      NoUsb, NoBalloon, XhciNode, IsPciController, Replaced;
    ControllersStay(p.usb);
    CleanedMembers(nodes);
    WithoutBalloonMembers(nodes);
    var cleaned := Cleaned(nodes);
    UsbMembers(cleaned, p.usb);
    FilterMembers(UsbNormalized(cleaned, p.usb).value, IsIch9Sound);
  }

  lemma {:induction false} PrunedHas(nodes: seq<Node>, used: set<int>, limit: int, m: Node)
    requires m in nodes && IsRootPort(m) && !IsFiller(IndexOrZero(m), used, limit)
    ensures Fixed(m) in Pruned(nodes, used, limit)
  {
    hide Fixed, IsFiller, IsRootPort, IndexOrZero;
    var front := nodes[..|nodes| - 1];
    assert nodes == front + [nodes[|nodes| - 1]];
    if m in front {
      PrunedHas(front, used, limit, m);
    }
  }

  /** The limit is above an index exactly when some indexed controller is. */
  lemma LimitMeans(nodes: seq<Node>, index: int)
    requires Indexes(nodes, ValueError).Ok? && index >= 0
    ensures index < MaxOrZero(Indexes(nodes, ValueError).value)
            <==> exists n :: n in nodes && IsIndexed(n) && OrZero(n.index).Some? && OrZero(n.index).value > index
  {
    hide Indexes, MaxOrZero, IsIndexed, OrZero;
    var indexes := Indexes(nodes, ValueError).value;
    MaxMeans(indexes);
    if index < MaxOrZero(indexes) {
      IndexStems(nodes, ValueError, MaxOrZero(indexes));
    }
    if n :| n in nodes && IsIndexed(n) && OrZero(n.index).Some? && OrZero(n.index).value > index {
      IndexCounts(nodes, ValueError, n);
    }
  }

  lemma IndexedIsController()
    ensures forall n :: IsIndexed(n) || IsRootPort(n) ==> IsPciController(n)
    ensures forall n, used :: IsRootPort(n) ==> !EmptyBridge(n, used)
  {
  }

  /** The nodes on which the filler limit is taken. */
  function Bridged(before: seq<Node>): seq<Node> {
    Filter(before, n => EmptyBridge(n, Buses(before)))
  }

  /** The filler limit of the pruning is above an index exactly when some controller that stays is. */
  lemma LimitIs(nodes: seq<Node>, p: Profile, index: int)
    requires BeforePorts(nodes, p).Ok? && PortsNormalized(BeforePorts(nodes, p).value).Ok? && index >= 0
    ensures var rest := Bridged(BeforePorts(nodes, p).value);
            Indexes(rest, ValueError).Ok?
            && (index < MaxOrZero(Indexes(rest, ValueError).value)
                <==> exists n :: n in nodes && IndexedAbove(n, BusesLeft(nodes, p), index))
  {
    hide Filter, Indexes, MaxOrZero, BeforePorts, Buses, BusesLeft, IsRootPort, IsIndexed, EmptyBridge,
      IsPciController, OrZero;
    var before := BeforePorts(nodes, p).value;
    var used := Buses(before);
    var rest := Filter(before, n => EmptyBridge(n, used));
    BusesAre(nodes, p);
    FilterMembers(before, n => EmptyBridge(n, used));
    IndexedIsController();
    forall n | IsIndexed(n)
      ensures n in rest <==> n in nodes && !EmptyBridge(n, used)
    {
      ControllersKept(nodes, p, n);
    }
    LimitMeans(rest, index);
    if n :| n in rest && IsIndexed(n) && OrZero(n.index).Some? && OrZero(n.index).value > index {
      assert IndexedAbove(n, used, index);
    }
  }

  /** What the pruning makes of a port, said of the original devices. */
  lemma FillerExactly(nodes: seq<Node>, p: Profile, m: Node)
    requires BeforePorts(nodes, p).Ok? && PortsNormalized(BeforePorts(nodes, p).value).Ok? && IsRootPort(m)
    ensures var before := BeforePorts(nodes, p).value;
            Indexes(Bridged(before), ValueError).Ok?
            && (KeepsPort(nodes, p, m)
                <==> !IsFiller(IndexOrZero(m), Buses(before), MaxOrZero(Indexes(Bridged(before), ValueError).value)))
  {
    hide Bridged, Indexes, MaxOrZero, BeforePorts, Buses, BusesLeft, IsRootPort, IndexedAbove, IndexOrZero;
    BusesAre(nodes, p);
    LimitIs(nodes, p, if IndexOrZero(m) >= 5 then IndexOrZero(m) else 5);
  }

  /** The root ports that remain are those of the domain that keep their place, each with the fixed settings. */
  lemma KeptPortsExactly(nodes: seq<Node>, p: Profile, n: Node)
    requires DevicesSet(nodes, p).Ok?
    ensures n in DevicesSet(nodes, p).value && IsRootPort(n)
            <==> exists m :: m in nodes && KeepsPort(nodes, p, m) && n == Fixed(m)
  {
    hide Filter, Indexes, MaxOrZero, Pruned, Buses, KeepsPort, Cleaned, UsbNormalized, HdaNormalized, IsFiller, Fixed,
      IsRootPort, EmptyBridge, IsDisplay, IndexOrZero, IsPciController;
    var before := BeforePorts(nodes, p).value;
    var used := Buses(before);
    var rest := Filter(before, n => EmptyBridge(n, used));
    var limit := MaxOrZero(Indexes(rest, ValueError).value);
    FilterMembers(before, n => EmptyBridge(n, used));
    FilterMembers(PortsNormalized(before).value, IsDisplay);
    PrunedMembers(rest, used, limit);
    IndexedIsController();
    PortIsNoDisplay();
    if n in DevicesSet(nodes, p).value && IsRootPort(n) {
      var m :| m in rest && IsRootPort(m) && n == Fixed(m) && !IsFiller(IndexOrZero(m), used, limit);
      ControllersKept(nodes, p, m);
      FillerExactly(nodes, p, m);
    }
    if m :| m in nodes && KeepsPort(nodes, p, m) && n == Fixed(m) {
      KeptIsPort(nodes, p, m);
      ControllersKept(nodes, p, m);
      FillerExactly(nodes, p, m);
      PrunedHas(rest, used, limit, m);
      FixedPort(m);
    }
  }

  lemma KeptIsPort(nodes: seq<Node>, p: Profile, m: Node)
    requires KeepsPort(nodes, p, m)
    ensures IsRootPort(m)
  {
  }

  lemma PortIsNoDisplay()
    ensures forall n :: IsRootPort(n) ==> !IsDisplay(n)
  {
  }

  /**
   With the profile that the generator made for the same domain, no kept port is unprofiled; the check
   passes exactly when the role behind every port that keeps its place survives the applier.
   */
  lemma ValidationExactly(nodes: seq<Node>, p: Profile, facts: Facts, hosts: seq<RootPorts.Host>,
                          items: seq<RootPorts.Item>)
    requires Listed(nodes, facts).Ok? && RootPorts.DistinctBdfs(hosts)
    requires RootPorts.Assigned(Listed(nodes, facts).value, hosts) == Ok(items) && DevicesSet(nodes, p).Ok?
    ensures var final := DevicesSet(nodes, p).value;
            && (forall n :: n in final && IsRootPort(n) ==> PortOf(n) in Profiled(items))
            && (Validated(final, items, facts) <==>
                forall m :: m in nodes && KeepsPort(nodes, p, m) ==> RoleSurvives(nodes, p, IndexOrZero(m), facts))
  {
    hide RoleSurvives, KeepsPort, Validated, DevicesSet, Listed, RootPorts.Assigned, Profiled, IndexOrZero,
      IsRootPort, PortOf, Fixed;
    CheckExactly(nodes, p, facts, hosts, items);
    var final := DevicesSet(nodes, p).value;
    forall n | n in final && IsRootPort(n)
      ensures exists m :: m in nodes && KeepsPort(nodes, p, m) && IndexOrZero(m) == IndexOrZero(n)
    {
      KeptPortsExactly(nodes, p, n);
      var m :| m in nodes && KeepsPort(nodes, p, m) && n == Fixed(m);
      KeptIsPort(nodes, p, m);
      FixedPort(m);
    }
    forall m | m in nodes && KeepsPort(nodes, p, m)
      ensures Fixed(m) in final && IsRootPort(Fixed(m)) && IndexOrZero(Fixed(m)) == IndexOrZero(m)
    {
      KeptPortsExactly(nodes, p, Fixed(m));
      KeptIsPort(nodes, p, m);
      FixedPort(m);
    }
  }

  /** The same, said of the ports of the result. */
  lemma CheckExactly(nodes: seq<Node>, p: Profile, facts: Facts, hosts: seq<RootPorts.Host>, items: seq<RootPorts.Item>)
    requires Listed(nodes, facts).Ok? && RootPorts.DistinctBdfs(hosts)
    requires RootPorts.Assigned(Listed(nodes, facts).value, hosts) == Ok(items) && DevicesSet(nodes, p).Ok?
    ensures var final := DevicesSet(nodes, p).value;
            && (forall n :: n in final && IsRootPort(n) ==> PortOf(n) in Profiled(items))
            && (Validated(final, items, facts) <==>
                forall n :: n in final && IsRootPort(n) ==> RoleSurvives(nodes, p, IndexOrZero(n), facts))
  {
    hide Listed, DevicesSet, RoleAfter, RoleAt, RootPorts.Assigned, HasRootBusXhci, Replaced, Profiled, PortReadable,
      IsRootPort, PortOf, IndexOrZero;
    var final, ports := DevicesSet(nodes, p).value, Listed(nodes, facts).value;
    ListedPorts(nodes, facts);
    AssignedIsDistinct(ports, hosts, items);
    RootBusXhci(nodes, p);
    forall n | n in final && IsRootPort(n)
      ensures PortReadable(n) && PortOf(n) in Profiled(items)
      ensures RoleAgrees(n, final, Profiled(items), facts) <==> RoleSurvives(nodes, p, IndexOrZero(n), facts)
    {
      KeptPortsAreProfiled(nodes, p, facts, n);
      AssignedProfiles(ports, hosts, items, PortRecord(nodes, n, facts));
      RoleAfterIs(nodes, p, IndexOrZero(n), facts);
    }
  }

  lemma ListedPorts(nodes: seq<Node>, facts: Facts)
    requires Listed(nodes, facts).Ok?
    ensures RootPorts.DistinctPorts(Listed(nodes, facts).value)
  {
    hide ListedUpTo, Indexes, Buses;
    ListedDistinct(|nodes|, nodes, facts, Buses(nodes), MaxOrZero(Indexes(nodes, RuntimeError).value));
  }

  // ---- A domain that the check refuses -------------------------------------------------------

  const PORT := Bare("controller").(kind := Some("pci"), model := Some("pcie-root-port"), index := Num(1),
                                    target := Some(Target(None, "", "", Num(16), None)))
  const BALLOON := Bare("memballoon").(model := Some("virtio"), address := Some(Address("pci", Num(1), Num(0), Num(0))))
  const PLAIN := Profile(Xhci("qemu-xhci", "", 0, 20, 0), Hda(false, 0, 0, 0), false)

  lemma PortFacts()
    ensures IsRootPort(PORT) && !IsIndexed(PORT) && PciBus(PORT) == None && BusReadable(PORT)
    ensures OrZero(PORT.index) == Some(1)
    ensures !IsBalloon(PORT) && !IsUsb(PORT) && !Unsupported(PORT) && !EmulatedHid(PORT) && !IsBridge(PORT)
    ensures PciTuple(PORT) == None
    ensures Stays(PORT, PLAIN) && IsPciController(PORT) && PortOf(PORT) == 16
  {
  }

  lemma BalloonFacts(facts: Facts)
    ensures !IsPciController(BALLOON) && PciBus(BALLOON) == Some(1) && BusReadable(BALLOON)
    ensures Classify(BALLOON, facts) == Some(RootPorts.Other)
    ensures IsBalloon(BALLOON) && !Unsupported(BALLOON) && !EmulatedHid(BALLOON) && !IsUsb(BALLOON)
    ensures BALLOON.tag != "hostdev"
    ensures !IsPciController(NoBalloon()) && PciTuple(NoBalloon()) == None && !IsUsb(NoBalloon())
    ensures NoBalloon().tag != "hostdev"
    ensures !IsBridge(NoBalloon())
  {
  }

  lemma XhciFacts(facts: Facts)
    ensures !IsPciController(XhciNode(PLAIN.usb)) && PciBus(XhciNode(PLAIN.usb)) == Some(0)
    ensures !IsBridge(XhciNode(PLAIN.usb))
  {
  }

  lemma RolesSnoc(nodes: seq<Node>, n: Node, bus: int, facts: Facts)
    ensures RolesAt(nodes + [n], bus, facts)
            == RolesAt(nodes, bus, facts) + if Gives(n, bus, facts) then [Classify(n, facts).value] else []
    ensures RolesAt([], bus, facts) == []
  {
    hide Classify, PciBus;
    assert (nodes + [n])[..|nodes|] == nodes;
  }

  lemma NotIndexed(nodes: seq<Node>, error: Error)
    requires forall n :: n in nodes ==> !IsIndexed(n)
    ensures Indexes(nodes, error) == Ok([])
  {
    hide IsIndexed;
    if nodes != [] {
      NotIndexed(nodes[..|nodes| - 1], error);
    }
  }

  lemma PrunedSnoc(nodes: seq<Node>, n: Node, used: set<int>, limit: int)
    ensures Pruned(nodes + [n], used, limit)
         == Pruned(nodes, used, limit)
            + if !IsRootPort(n) then [n] else if IsFiller(IndexOrZero(n), used, limit) then [] else [Fixed(n)]
    ensures Pruned([], used, limit) == []
  {
    hide IsRootPort, IsFiller, Fixed, IndexOrZero;
    assert (nodes + [n])[..|nodes|] == nodes;
  }

  lemma OtherAlone()
    ensures Preferred([RootPorts.Other]) == RootPorts.Other && Preferred([]) == RootPorts.Empty
  {
    assert [RootPorts.Other][..0] == [];
  }

  lemma BalloonRole(facts: Facts)
    ensures RoleAt([PORT, BALLOON], 1, facts) == RootPorts.Other
  {
    hide Classify, PciBus, RolesAt, Preferred;
    PortFacts();
    BalloonFacts(facts);
    RolesSnoc([], PORT, 1, facts);
    RolesSnoc([PORT], BALLOON, 1, facts);
    assert [PORT] + [BALLOON] == [PORT, BALLOON] && [] + [PORT] == [PORT];
    assert RolesAt([PORT, BALLOON], 1, facts) == [RootPorts.Other];
    OtherAlone();
  }

  lemma BalloonListed(facts: Facts)
    ensures Listed([PORT, BALLOON], facts) == Ok([RootPorts.Guest(1, 16, RootPorts.Other)])
  {
    hide Classify, PciBus, RoleAt, Buses, IsRootPort, IsIndexed, BusReadable, Indexes, IsPciController, OrZero;
    var nodes := [PORT, BALLOON];
    PortFacts();
    BalloonFacts(facts);
    ControllerKinds();
    BalloonRole(facts);
    NotIndexed(nodes, RuntimeError);
    var used := Buses(nodes);
    var listed := [RootPorts.Guest(1, 16, RootPorts.Other)];
    assert [] + listed == listed && listed + [] == listed;
    assert ListedPort(PORT, nodes, facts, used, 0) == Ok(listed);
    assert ListedPort(BALLOON, nodes, facts, used, 0) == Ok([]);
    assert ListedUpTo(0, nodes, facts, used, 0) == Ok([]);
    assert ListedUpTo(1, nodes, facts, used, 0) == Ok(listed);
    assert ListedUpTo(2, nodes, facts, used, 0) == Ok(listed);
  }

  lemma ControllerKinds()
    ensures forall n :: IsRootPort(n) || IsIndexed(n) || IsBridge(n) ==> IsPciController(n)
  {
  }

  lemma BalloonCleaned()
    ensures Cleaned([PORT, BALLOON]) == [PORT, NoBalloon()]
  {
    hide Filter, First, Unsupported, EmulatedHid, IsBalloon;
    PortFacts();
    BalloonFacts(map[]);
    var nodes := [PORT, BALLOON];
    FilterNothing(nodes, Unsupported);
    FilterNothing(nodes, EmulatedHid);
    FirstIs(nodes, IsBalloon, 1);
  }

  lemma BalloonUsb()
    ensures UsbNormalized([PORT, NoBalloon()], PLAIN.usb) == Ok([PORT, NoBalloon(), XhciNode(PLAIN.usb)])
  {
    hide First, IsUsb, PciTuple, XhciNode, NoBalloon, Bare;
    PortFacts();
    BalloonFacts(map[]);
    var nodes := [PORT, NoBalloon()];
    FirstIs(nodes, IsUsb, 2);
    assert OneUsb(nodes)[2 := XhciNode(PLAIN.usb)] == [PORT, NoBalloon(), XhciNode(PLAIN.usb)];
  }

  lemma BalloonPorts()
    ensures PortsNormalized([PORT, NoBalloon(), XhciNode(PLAIN.usb)])
            == Ok([Fixed(PORT), NoBalloon(), XhciNode(PLAIN.usb)])
  {
    hide Filter, Indexes, Pruned, Buses, IsRootPort, IsIndexed, IsBridge, IsPciController, XhciNode, NoBalloon, Fixed,
      OrZero;
    PortFacts();
    BalloonFacts(map[]);
    XhciFacts(map[]);
    ControllerKinds();
    var nodes := [PORT, NoBalloon(), XhciNode(PLAIN.usb)];
    var used := Buses(nodes);
    FilterNothing(nodes, n => EmptyBridge(n, used));
    NotIndexed(nodes, ValueError);
    PrunedSnoc([], PORT, used, 0);
    PrunedSnoc([PORT], NoBalloon(), used, 0);
    PrunedSnoc([PORT, NoBalloon()], XhciNode(PLAIN.usb), used, 0);
    assert [] + [PORT] == [PORT] && [PORT] + [NoBalloon()] == [PORT, NoBalloon()]
        && [PORT, NoBalloon()] + [XhciNode(PLAIN.usb)] == nodes;
    assert Pruned(nodes, used, 0) == [Fixed(PORT), NoBalloon(), XhciNode(PLAIN.usb)];
  }

  lemma BalloonSet()
    ensures DevicesSet([PORT, BALLOON], PLAIN) == Ok([Fixed(PORT), NoBalloon(), XhciNode(PLAIN.usb)])
  {
    hide Cleaned, UsbNormalized, PortsNormalized, Fixed, NoBalloon, XhciNode;
    BalloonCleaned();
    BalloonUsb();
    BalloonPorts();
  }

  lemma BalloonGone(facts: Facts)
    ensures RoleAfter([PORT, BALLOON], PLAIN, 1, facts) == RootPorts.Empty
  {
    hide Filter, First, Classify, PciBus, RolesAt, XhciNode, IsBalloon, Stays, PciTuple;
    var nodes := [PORT, BALLOON];
    PortFacts();
    BalloonFacts(facts);
    XhciFacts(facts);
    FirstIs(nodes, IsBalloon, 1);
    assert WithoutFirstBalloon(nodes) == [PORT];
    FilterNothing([PORT], n => !Stays(n, PLAIN));
    var after := [PORT] + [XhciNode(PLAIN.usb)];
    RolesSnoc([], PORT, 1, facts);
    RolesSnoc([PORT], XhciNode(PLAIN.usb), 1, facts);
    assert [] + [PORT] == [PORT];
    assert !Replaced(nodes, PLAIN.usb);
    assert Remaining(nodes, PLAIN) == [PORT];
  }

  /**
   A memory balloon behind a root port is profiled as another device, but the applier takes it off the bus:
   for this domain the role check refuses every profile that the generator makes.
   */
  lemma BalloonBehindPortIsRefused(facts: Facts, hosts: seq<RootPorts.Host>, items: seq<RootPorts.Item>)
    requires RootPorts.DistinctBdfs(hosts)
    requires Listed([PORT, BALLOON], facts).Ok?
    requires RootPorts.Assigned(Listed([PORT, BALLOON], facts).value, hosts) == Ok(items)
    ensures DevicesSet([PORT, BALLOON], PLAIN).Ok?
    ensures !Validated(DevicesSet([PORT, BALLOON], PLAIN).value, items, facts)
  {
    hide Listed, DevicesSet, RoleAfter, RoleAt, RootPorts.Assigned, Validated;
    BalloonListed(facts);
    BalloonRole(facts);
    PortFacts();
    BalloonSet();
    BalloonGone(facts);
    ValidationExactly([PORT, BALLOON], PLAIN, facts, hosts, items);
    assert PORT in [PORT, BALLOON] && KeepsPort([PORT, BALLOON], PLAIN, PORT);
  }

  const SPARE_HOST := RootPorts.Host("a", RootPorts.Other, 4)

  lemma OneServesOne(g: RootPorts.Guest)
    requires g.role == RootPorts.Other
    ensures RootPorts.Assigned([g], [SPARE_HOST]).Ok?
  {
    hide RootPorts.Listing, RootPorts.ByPort;
    var hosts := [SPARE_HOST];
    assert [g][..0] == [] && [g][1..] == [];
    assert RootPorts.InsertGuest([], g) == [g];
    assert RootPorts.SortGuests([g]) == [g];
    assert !RootPorts.Stuck(g.role, hosts);
    assert RootPorts.Greedy([], RootPorts.Without(hosts, SPARE_HOST.bdf)) == Ok([]);
    assert RootPorts.Greedy([g], hosts).Ok?;
  }

  /** On a host with one port the generator does make a profile of this domain, and the role check refuses it. */
  lemma BalloonProfileIsRefused(facts: Facts)
    ensures Listed([PORT, BALLOON], facts).Ok? && DevicesSet([PORT, BALLOON], PLAIN).Ok?
    ensures var items := RootPorts.Assigned(Listed([PORT, BALLOON], facts).value, [SPARE_HOST]);
      items.Ok? && !Validated(DevicesSet([PORT, BALLOON], PLAIN).value, items.value, facts)
  {
    hide Listed, DevicesSet, RootPorts.Assigned, Validated;
    BalloonListed(facts);
    OneServesOne(RootPorts.Guest(1, 16, RootPorts.Other));
    var items := RootPorts.Assigned(Listed([PORT, BALLOON], facts).value, [SPARE_HOST]).value;
    BalloonBehindPortIsRefused(facts, [SPARE_HOST], items);
  }
}

/**
 Running the device passes of `set_devices` again: when the result stays as it is. With a passed-through graphics
 card the display nodes go after the root ports were pruned, so a second run can find a port or bridge unused.
 */
module DevicesTwice {
  import opened Outcomes
  import opened DomainDevices
  import opened RootPortPruning

  // ---- Passes that drop and fix controllers --------------------------------------------------

  /** Later passes drop none of these. */
  predicate Anchored(n: Node) {
    IsBalloon(n) || IsUsb(n)
  }

  /** What a filter or the pruning of ports leaves: some nodes go, and root ports may be fixed. */
  ghost predicate Thinned(a: seq<Node>, b: seq<Node>) {
    if a == [] then b == []
    else
      var front, last := a[..|a| - 1], a[|a| - 1];
      || (!Anchored(last) && Thinned(front, b))
      || (b != [] && Thinned(front, b[..|b| - 1])
         && (b[|b| - 1] == last || (IsRootPort(last) && b[|b| - 1] == Fixed(last))))
  }

  lemma {:induction false} FilterThins(a: seq<Node>, drop: Node -> bool)
    requires forall n :: Anchored(n) ==> !drop(n)
    ensures Thinned(a, Filter(a, drop))
  {
    hide Anchored;
    if a != [] {
      var front, n := a[..|a| - 1], a[|a| - 1];
      FilterThins(front, drop);
      if !drop(n) {
        var b := Filter(front, drop) + [n];
        assert b[..|b| - 1] == Filter(front, drop);
      }
    }
  }

  lemma {:induction false} PrunedThins(a: seq<Node>, used: set<int>, limit: int)
    ensures Thinned(a, Pruned(a, used, limit))
  {
    hide Anchored, IsFiller, Fixed, IsRootPort, IndexOrZero;
    if a != [] {
      var front, n := a[..|a| - 1], a[|a| - 1];
      PrunedThins(front, used, limit);
      var before, b := Pruned(front, used, limit), Pruned(a, used, limit);
      if b != before {
        assert b[..|b| - 1] == before;
      } else {
        PortIsNotAnchored(n);
      }
    }
  }

  lemma PortIsNotAnchored(n: Node)
    requires IsRootPort(n)
    ensures !Anchored(n) && !Anchored(Fixed(n))
  {
  }

  lemma {:induction false} ThinnedMembers(a: seq<Node>, b: seq<Node>, n: Node)
    requires Thinned(a, b) && n in b
    ensures n in a || exists m :: m in a && IsRootPort(m) && n == Fixed(m)
  {
    hide Anchored, IsRootPort, Fixed;
    var front, last := a[..|a| - 1], a[|a| - 1];
    assert a == front + [last];
    if !Anchored(last) && Thinned(front, b) {
      ThinnedMembers(front, b, n);
    } else if n in b[..|b| - 1] {
      ThinnedMembers(front, b[..|b| - 1], n);
    } else {
      assert b == b[..|b| - 1] + [b[|b| - 1]];
    }
  }

  /** The anchored nodes of a kind stay, in order. */
  lemma {:induction false} ThinnedKeeps(a: seq<Node>, b: seq<Node>, drop: Node -> bool)
    requires Thinned(a, b) && forall n :: !Anchored(n) ==> drop(n)
    ensures Filter(a, drop) == Filter(b, drop)
  {
    hide Anchored, IsRootPort, Fixed;
    if a != [] {
      var front, last := a[..|a| - 1], a[|a| - 1];
      if !Anchored(last) && Thinned(front, b) {
        ThinnedKeeps(front, b, drop);
      } else {
        ThinnedKeeps(front, b[..|b| - 1], drop);
        if IsRootPort(last) {
          PortIsNotAnchored(last);
        }
      }
    }
  }

  // ---- A domain that the early passes leave alone --------------------------------------------

  predicate NoBalloonNode(n: Node) {
    !IsBalloon(n)
  }

  predicate NoUsbNode(n: Node) {
    !IsUsb(n)
  }

  /** The first memory balloon is the disabled one. */
  predicate BalloonTidy(nodes: seq<Node>) {
    var balloons := Filter(nodes, NoBalloonNode);
    balloons != [] && balloons[0] == NoBalloon()
  }

  /** One USB controller: the disabled one at the end, or the profiled one. */
  predicate UsbTidy(nodes: seq<Node>, usb: Xhci, replaced: bool) {
    if replaced then nodes != [] && nodes[|nodes| - 1] == NoUsb() && Filter(nodes, NoUsbNode) == [NoUsb()]
    else Filter(nodes, NoUsbNode) == [XhciNode(usb)]
  }

  /** Nothing is left that the early passes would remove or refuse. */
  predicate NodeTidy(n: Node, p: Profile, replaced: bool) {
    UsbLeaves(n, p.usb, replaced) && HdaLeaves(n, p.hda)
  }

  predicate UsbLeaves(n: Node, usb: Xhci, replaced: bool) {
    !Unsupported(n) && !EmulatedHid(n) && (!replaced && PciTuple(n) == Some(Wanted(usb)) ==> IsUsb(n))
  }

  predicate HdaLeaves(n: Node, hda: Hda) {
    hda.onboard ==> !IsIch9Sound(n) && PciTuple(n) != Some((hda.bus, hda.slot, hda.func))
  }

  ghost predicate Tidy(nodes: seq<Node>, p: Profile, replaced: bool) {
    BalloonTidy(nodes) && UsbTidy(nodes, p.usb, replaced) && forall n :: n in nodes ==> NodeTidy(n, p, replaced)
  }

  lemma FixedIsTidy(m: Node, p: Profile, replaced: bool)
    requires IsRootPort(m) && NodeTidy(m, p, replaced)
    ensures NodeTidy(Fixed(m), p, replaced)
  {
    assert PciTuple(Fixed(m)) == PciTuple(m);
  }

  lemma DisabledIsAnchored()
    ensures Anchored(NoUsb()) && !IsRootPort(NoUsb())
  {
  }

  lemma ThinnedIsTidy(a: seq<Node>, b: seq<Node>, p: Profile, replaced: bool)
    requires Tidy(a, p, replaced) && Thinned(a, b)
    ensures Tidy(b, p, replaced)
  {
    hide Filter, NodeTidy, BalloonTidy, UsbTidy, IsRootPort, Fixed;
    SequencesStay(a, b, p.usb, replaced);
    forall n | n in b
      ensures NodeTidy(n, p, replaced)
    {
      ThinnedMembers(a, b, n);
      if n !in a {
        var m :| m in a && IsRootPort(m) && n == Fixed(m);
        FixedIsTidy(m, p, replaced);
      }
    }
  }

  // ---- The early passes leave a tidy domain alone --------------------------------------------

  lemma {:induction false} FirstOfFilter(nodes: seq<Node>, wanted: Node -> bool, drop: Node -> bool)
    requires forall n :: drop(n) <==> !wanted(n)
    ensures First(nodes, wanted) < |nodes| <==> Filter(nodes, drop) != []
    ensures Filter(nodes, drop) != [] ==> nodes[First(nodes, wanted)] == Filter(nodes, drop)[0]
  {
    if nodes != [] {
      var front, last := nodes[..|nodes| - 1], nodes[|nodes| - 1];
      FirstOfFilter(front, wanted, drop);
      var i := First(front, wanted);
      forall k | 0 <= k < i
        ensures !wanted(nodes[k])
      {
        assert nodes[k] == front[k];
      }
      if i < |front| {
        assert front[i] == nodes[i];
        FirstIs(nodes, wanted, i);
      } else {
        FirstIs(nodes, wanted, if wanted(last) then |front| else |nodes|);
      }
    }
  }

  lemma CleanedStays(nodes: seq<Node>)
    requires BalloonTidy(nodes) && forall n :: n in nodes ==> !Unsupported(n) && !EmulatedHid(n)
    ensures Cleaned(nodes) == nodes
  {
    hide Filter, First, Unsupported, EmulatedHid, IsBalloon, NoBalloon;
    FilterNothing(nodes, Unsupported);
    FilterNothing(nodes, EmulatedHid);
    FirstOfFilter(nodes, IsBalloon, NoBalloonNode);
  }

  lemma {:induction false} TwoKept(nodes: seq<Node>, drop: Node -> bool, i: nat, k: nat)
    requires i < k < |nodes| && !drop(nodes[i]) && !drop(nodes[k])
    ensures |Filter(nodes, drop)| >= 2
  {
    var front := nodes[..|nodes| - 1];
    if k < |front| {
      TwoKept(front, drop, i, k);
    } else {
      FilterMembers(front, drop);
      assert front[i] in Filter(front, drop);
    }
  }

  lemma OnlyOne(nodes: seq<Node>, drop: Node -> bool, i: nat, k: nat)
    requires |Filter(nodes, drop)| == 1 && i < |nodes| && k < |nodes| && !drop(nodes[i]) && !drop(nodes[k])
    ensures i == k
  {
    hide Filter;
    if i < k {
      TwoKept(nodes, drop, i, k);
    } else if k < i {
      TwoKept(nodes, drop, k, i);
    }
  }

  lemma UsbAlone(nodes: seq<Node>, i: nat)
    requires |Filter(nodes, NoUsbNode)| == 1 && i < |nodes| && IsUsb(nodes[i])
    ensures forall k :: 0 <= k < |nodes| && k != i ==> !IsUsb(nodes[k])
  {
    hide Filter, IsUsb;
    forall k | 0 <= k < |nodes| && k != i
      ensures !IsUsb(nodes[k])
    {
      if IsUsb(nodes[k]) {
        OnlyOne(nodes, NoUsbNode, i, k);
      }
    }
  }

  lemma DisabledIsUsb()
    ensures IsUsb(NoUsb())
  {
  }

  lemma UsbStays(nodes: seq<Node>, usb: Xhci)
    requires usb.model == "qemu-xhci" && XhciAddressOk(usb) && UsbTidy(nodes, usb, Replaced(nodes, usb))
    requires !Replaced(nodes, usb) ==> forall n :: n in nodes && PciTuple(n) == Some(Wanted(usb)) ==> IsUsb(n)
    ensures UsbNormalized(nodes, usb) == Ok(nodes)
  {
    hide Filter, First, PciTuple, Replaced, XhciNode, NoUsb, IsUsb, XhciAddressOk;
    if Replaced(nodes, usb) {
      DisabledIsUsb();
      OnlyLast(nodes, IsUsb, NoUsbNode);
    } else {
      FirstOfFilter(nodes, IsUsb, NoUsbNode);
      var i := First(nodes, IsUsb);
      UsbAlone(nodes, i);
      FilterNothing(nodes[i + 1..], IsUsb);
      assert OneUsb(nodes) == nodes;
      forall k | 0 <= k < |nodes| && k != i
        ensures PciTuple(nodes[k]) != Some(Wanted(usb))
      {
        assert nodes[k] in nodes;
      }
      assert nodes[i := XhciNode(usb)] == nodes;
    }
  }

  lemma LastFiltered(nodes: seq<Node>, drop: Node -> bool)
    requires nodes != []
    ensures var front, last := nodes[..|nodes| - 1], nodes[|nodes| - 1];
      Filter(nodes, drop) == if drop(last) then Filter(front, drop) else Filter(front, drop) + [last]
  {
  }

  lemma NothingBefore(front: seq<Node>, last: Node)
    requires front + [last] == [last]
    ensures front == []
  {
    assert |front + [last]| == 1;
  }

  ghost predicate Opposite(wanted: Node -> bool, drop: Node -> bool) {
    forall n :: drop(n) <==> !wanted(n)
  }

  lemma NotDropped(wanted: Node -> bool, drop: Node -> bool, n: Node)
    requires Opposite(wanted, drop) && wanted(n)
    ensures !drop(n)
  {
  }

  lemma NoneDropped(nodes: seq<Node>, wanted: Node -> bool, drop: Node -> bool)
    requires Opposite(wanted, drop) && Filter(nodes, drop) == []
    ensures Filter(nodes, wanted) == nodes
  {
    hide Filter;
    FilterMembers(nodes, drop);
    FilterNothing(nodes, wanted);
  }

  /** With one node of a kind, at the end, taking those out and adding it again changes nothing. */
  lemma OnlyLast(nodes: seq<Node>, wanted: Node -> bool, drop: Node -> bool)
    requires Opposite(wanted, drop) && nodes != []
    requires Filter(nodes, drop) == [nodes[|nodes| - 1]] && wanted(nodes[|nodes| - 1])
    ensures Filter(nodes, wanted) + [nodes[|nodes| - 1]] == nodes
  {
    hide Filter, Opposite;
    var front, last := nodes[..|nodes| - 1], nodes[|nodes| - 1];
    NotDropped(wanted, drop, last);
    LastFiltered(nodes, wanted);
    LastFiltered(nodes, drop);
    NothingBefore(Filter(front, drop), last);
    NoneDropped(front, wanted, drop);
  }

  lemma HdaStays(nodes: seq<Node>, p: Profile, replaced: bool)
    requires forall n :: n in nodes ==> NodeTidy(n, p, replaced)
    ensures HdaNormalized(nodes, p.hda) == Ok(nodes)
  {
    hide Filter, PciTuple, IsIch9Sound, Unsupported, EmulatedHid, IsUsb;
    if p.hda.onboard {
      FilterNothing(nodes, IsIch9Sound);
    }
  }

  lemma EarlyPassesStay(nodes: seq<Node>, p: Profile)
    requires p.usb.model == "qemu-xhci" && XhciAddressOk(p.usb) && Tidy(nodes, p, Replaced(nodes, p.usb))
    ensures BeforePorts(nodes, p) == Ok(nodes)
  {
    hide BalloonTidy, UsbTidy, Replaced, Cleaned, UsbNormalized, HdaNormalized, XhciAddressOk;
    var replaced := Replaced(nodes, p.usb);
    forall n | n in nodes
      ensures !Unsupported(n) && !EmulatedHid(n) && (!replaced && PciTuple(n) == Some(Wanted(p.usb)) ==> IsUsb(n))
    {
      assert NodeTidy(n, p, replaced);
    }
    CleanedStays(nodes);
    UsbStays(nodes, p.usb);
    HdaStays(nodes, p, replaced);
  }

  // ---- The result of a run is tidy -----------------------------------------------------------

  lemma {:induction false} FilterOnly(nodes: seq<Node>, drop: Node -> bool)
    requires forall n :: n in nodes ==> drop(n)
    ensures Filter(nodes, drop) == []
  {
    if nodes != [] {
      FilterOnly(nodes[..|nodes| - 1], drop);
    }
  }

  lemma CleanedIsTidy(nodes: seq<Node>)
    ensures BalloonTidy(Cleaned(nodes))
  {
    hide Filter, First, Unsupported, EmulatedHid, NoBalloon;
    var cleaned := Filter(Filter(nodes, Unsupported), EmulatedHid);
    var i := First(cleaned, IsBalloon);
    var out := BalloonOff(cleaned);
    DisabledIsBalloon();
    FirstIs(out, IsBalloon, i);
    FirstOfFilter(out, IsBalloon, NoBalloonNode);
  }

  lemma DisabledIsBalloon()
    ensures IsBalloon(NoBalloon())
  {
  }

  lemma BalloonIsNoUsb()
    ensures forall n :: IsUsb(n) ==> !IsBalloon(n)
  {
  }

  /** Replacing one stretch without balloons by another leaves the balloons. */
  lemma BalloonsAround(front: seq<Node>, gone: seq<Node>, come: seq<Node>, back: seq<Node>)
    requires forall n :: n in gone || n in come ==> !IsBalloon(n)
    ensures Filter(front + gone + back, NoBalloonNode) == Filter(front + come + back, NoBalloonNode)
  {
    hide Filter, IsBalloon;
    FilterAppend(front + gone, back, NoBalloonNode);
    FilterAppend(front + come, back, NoBalloonNode);
    FilterAppend(front, gone, NoBalloonNode);
    FilterAppend(front, come, NoBalloonNode);
    FilterOnly(gone, NoBalloonNode);
    FilterOnly(come, NoBalloonNode);
  }

  lemma {:induction false} BalloonsOfFilter(nodes: seq<Node>)
    ensures Filter(Filter(nodes, IsUsb), NoBalloonNode) == Filter(nodes, NoBalloonNode)
  {
    hide IsUsb, IsBalloon;
    BalloonIsNoUsb();
    if nodes != [] {
      var front, n := nodes[..|nodes| - 1], nodes[|nodes| - 1];
      BalloonsOfFilter(front);
      if !IsUsb(n) {
        FilterSnoc(Filter(front, IsUsb), n, NoBalloonNode);
      }
    }
  }

  lemma FilterSnoc(nodes: seq<Node>, n: Node, drop: Node -> bool)
    ensures Filter(nodes + [n], drop) == Filter(nodes, drop) + if drop(n) then [] else [n]
  {
    assert (nodes + [n])[..|nodes|] == nodes;
  }

  lemma UsbsAround(front: seq<Node>, x: Node, back: seq<Node>)
    requires IsUsb(x) && forall n :: n in front || n in back ==> !IsUsb(n)
    ensures Filter(front + [x] + back, NoUsbNode) == [x]
  {
    hide Filter, IsUsb;
    FilterAppend(front + [x], back, NoUsbNode);
    FilterSnoc(front, x, NoUsbNode);
    FilterOnly(front, NoUsbNode);
    FilterOnly(back, NoUsbNode);
  }

  lemma ReplacedIsTidy(nodes: seq<Node>, usb: Xhci)
    requires BalloonTidy(nodes)
    ensures var out := Filter(nodes, IsUsb) + [NoUsb()]; BalloonTidy(out) && UsbTidy(out, usb, true)
  {
    hide Filter, NoUsb, IsUsb, IsBalloon, NoBalloon;
    var rest := Filter(nodes, IsUsb);
    DisabledIsUsb();
    BalloonIsNoUsb();
    FilterMembers(nodes, IsUsb);
    FilterOnly(rest, NoUsbNode);
    FilterSnoc(rest, NoUsb(), NoUsbNode);
    BalloonsOfFilter(nodes);
    FilterSnoc(rest, NoUsb(), NoBalloonNode);
  }

  lemma XhciIsUsb(usb: Xhci)
    ensures IsUsb(XhciNode(usb))
  {
  }

  lemma Around(nodes: seq<Node>, i: nat)
    requires i < |nodes|
    ensures nodes == nodes[..i] + [nodes[i]] + nodes[i + 1..]
  {
  }

  lemma ReplacesFirst(nodes: seq<Node>, i: nat, x: Node)
    requires i < |nodes| && IsUsb(x) && IsUsb(nodes[i]) && forall k :: 0 <= k < i ==> !IsUsb(nodes[k])
    ensures var out := nodes[..i] + [x] + Filter(nodes[i + 1..], IsUsb);
      Filter(out, NoUsbNode) == [x] && Filter(out, NoBalloonNode) == Filter(nodes, NoBalloonNode)
  {
    hide Filter, IsUsb, IsBalloon;
    var front, rest := nodes[..i], nodes[i + 1..];
    var back := Filter(rest, IsUsb);
    BalloonIsNoUsb();
    FilterMembers(rest, IsUsb);
    UsbsAround(front, x, back);
    BalloonsAround(front, [x], [nodes[i]], back);
    BalloonsOfFilter(rest);
    FilterAppend(front + [nodes[i]], back, NoBalloonNode);
    FilterAppend(front + [nodes[i]], rest, NoBalloonNode);
    Around(nodes, i);
  }

  lemma AddsLast(nodes: seq<Node>, x: Node)
    requires IsUsb(x) && forall n :: n in nodes ==> !IsUsb(n)
    ensures Filter(nodes + [x], NoUsbNode) == [x] && Filter(nodes + [x], NoBalloonNode) == Filter(nodes, NoBalloonNode)
  {
    hide Filter, IsUsb, IsBalloon;
    BalloonIsNoUsb();
    FilterOnly(nodes, NoUsbNode);
    FilterSnoc(nodes, x, NoUsbNode);
    FilterSnoc(nodes, x, NoBalloonNode);
  }

  lemma MovedIsTidy(nodes: seq<Node>, usb: Xhci)
    requires BalloonTidy(nodes) && First(nodes, IsUsb) < |OneUsb(nodes)|
    ensures var out := OneUsb(nodes)[First(nodes, IsUsb) := XhciNode(usb)]; BalloonTidy(out) && UsbTidy(out, usb, false)
  {
    hide Filter, XhciNode, IsUsb, IsBalloon, NoBalloon;
    var x, i := XhciNode(usb), First(nodes, IsUsb);
    var out := OneUsb(nodes)[i := x];
    XhciIsUsb(usb);
    if i < |nodes| {
      ReplacesFirst(nodes, i, x);
      assert out == nodes[..i] + [x] + Filter(nodes[i + 1..], IsUsb);
    } else {
      AddsLast(nodes, x);
      assert out == nodes + [x];
    }
  }

  lemma UsbPassIsTidy(nodes: seq<Node>, usb: Xhci)
    requires BalloonTidy(nodes) && UsbNormalized(nodes, usb).Ok?
    ensures var out := UsbNormalized(nodes, usb).value; BalloonTidy(out) && UsbTidy(out, usb, Replaced(nodes, usb))
  {
    hide BalloonTidy, UsbTidy, OneUsb, Filter, First, XhciNode, Replaced;
    OneUsbPlaces(nodes, XhciNode(usb));
    if Replaced(nodes, usb) {
      ReplacedIsTidy(nodes, usb);
    } else {
      MovedIsTidy(nodes, usb);
    }
  }

  lemma AddedLeaves(usb: Xhci)
    ensures UsbLeaves(XhciNode(usb), usb, false) && UsbLeaves(NoUsb(), usb, true)
    ensures !Unsupported(NoBalloon()) && !EmulatedHid(NoBalloon())
  {
  }

  lemma UsbPassLeaves(nodes: seq<Node>, usb: Xhci, n: Node)
    requires UsbNormalized(nodes, usb).Ok? && n in UsbNormalized(nodes, usb).value
    requires n in nodes ==> !Unsupported(n) && !EmulatedHid(n)
    ensures UsbLeaves(n, usb, Replaced(nodes, usb))
  {
    hide Filter, First, OneUsb, XhciNode, NoUsb, Replaced, IsUsb, PciTuple, Unsupported, EmulatedHid, UsbLeaves;
    UsbMembers(nodes, usb);
    OneUsbPlaces(nodes, XhciNode(usb));
    AddedLeaves(usb);
    var out := UsbNormalized(nodes, usb).value;
    if n in nodes && !Replaced(nodes, usb) && n != XhciNode(usb) {
      var k :| 0 <= k < |out| && out[k] == n;
      assert OneUsb(nodes)[k] == n;
      assert PciTuple(n) != Some(Wanted(usb));
    }
    KeptLeaves(n, usb, Replaced(nodes, usb));
  }

  lemma KeptLeaves(n: Node, usb: Xhci, replaced: bool)
    ensures !Unsupported(n) && !EmulatedHid(n) && (replaced || PciTuple(n) != Some(Wanted(usb)))
            ==> UsbLeaves(n, usb, replaced)
  {
  }

  lemma BeforePortsIsTidy(nodes: seq<Node>, p: Profile)
    requires BeforePorts(nodes, p).Ok?
    ensures Tidy(BeforePorts(nodes, p).value, p, Replaced(nodes, p.usb))
  {
    hide Filter, BalloonTidy, UsbTidy, Cleaned, UsbNormalized, Replaced, Unsupported, EmulatedHid, IsIch9Sound,
      PciTuple, UsbLeaves, NoBalloon;
    var cleaned := Cleaned(nodes);
    var usb := UsbNormalized(cleaned, p.usb).value;
    var replaced := Replaced(nodes, p.usb);
    CleanedIsTidy(nodes);
    CleanedMembers(nodes);
    AddedLeaves(p.usb);
    ReplacedIsKept(nodes, p.usb);
    UsbPassIsTidy(cleaned, p.usb);
    forall n | n in usb
      ensures UsbLeaves(n, p.usb, replaced)
    {
      UsbPassLeaves(cleaned, p.usb, n);
    }
    if p.hda.onboard {
      FilterMembers(usb, IsIch9Sound);
      SoundIsNotAnchored();
      FilterThins(usb, IsIch9Sound);
      SequencesStay(usb, Filter(usb, IsIch9Sound), p.usb, replaced);
    }
  }

  lemma SoundIsNotAnchored()
    ensures forall n :: Anchored(n) ==> !IsIch9Sound(n) && !IsDisplay(n) && !IsBridge(n)
  {
  }

  lemma SequencesStay(a: seq<Node>, b: seq<Node>, usb: Xhci, replaced: bool)
    requires BalloonTidy(a) && UsbTidy(a, usb, replaced) && Thinned(a, b)
    ensures BalloonTidy(b) && UsbTidy(b, usb, replaced)
  {
    hide Filter, IsUsb, IsBalloon, NoUsb, XhciNode, NoBalloon, IsRootPort, Fixed;
    ThinnedKeeps(a, b, NoBalloonNode);
    ThinnedKeeps(a, b, NoUsbNode);
    DisabledIsAnchored();
  }

  /** The result of a run is left alone by the early passes of the next. */
  lemma ResultIsTidy(nodes: seq<Node>, p: Profile)
    requires DevicesSet(nodes, p).Ok?
    ensures Tidy(DevicesSet(nodes, p).value, p, Replaced(nodes, p.usb))
  {
    hide Filter, Tidy, Cleaned, UsbNormalized, HdaNormalized, Pruned, Indexes, MaxOrZero, Buses, Anchored, Thinned,
      Replaced, IsBridge, IsDisplay;
    var before := BeforePorts(nodes, p).value;
    var used := Buses(before);
    var rest := Filter(before, n => EmptyBridge(n, used));
    var limit := MaxOrZero(Indexes(rest, ValueError).value);
    var replaced := Replaced(nodes, p.usb);
    BeforePortsIsTidy(nodes, p);
    SoundIsNotAnchored();
    FilterThins(before, n => EmptyBridge(n, used));
    ThinnedIsTidy(before, rest, p, replaced);
    PrunedThins(rest, used, limit);
    ThinnedIsTidy(rest, Pruned(rest, used, limit), p, replaced);
    if p.gpuPassthrough {
      FilterThins(Pruned(rest, used, limit), IsDisplay);
      ThinnedIsTidy(Pruned(rest, used, limit), Filter(Pruned(rest, used, limit), IsDisplay), p, replaced);
    }
  }

  // ---- When a second run changes nothing -----------------------------------------------------

  /** The buses in use once the display nodes are gone. */
  function BusesAfter(nodes: seq<Node>, p: Profile): set<int> {
    Buses(Remaining(nodes, p) + (if Replaced(nodes, p.usb) then [] else [XhciNode(p.usb)]))
  }

  /**
   A bridge or port that was kept only because of display nodes behind it, which are gone afterwards: a port
   with a low index or below a controller with a larger one does not depend on them.
   */
  predicate Stranded(nodes: seq<Node>, p: Profile, m: Node) {
    && IndexOrZero(m) in BusesLeft(nodes, p) && IndexOrZero(m) !in BusesAfter(nodes, p)
    && (IsBridge(m)
        || (IsRootPort(m) && IndexOrZero(m) >= 5
            && forall n :: n in nodes ==> !IndexedAbove(n, BusesLeft(nodes, p), IndexOrZero(m))))
  }

  lemma ResultBuses(nodes: seq<Node>, p: Profile)
    requires DevicesSet(nodes, p).Ok?
    ensures Buses(DevicesSet(nodes, p).value) == BusesAfter(nodes, p)
  {
    hide Buses, DevicesSet, Remaining, Replaced, XhciNode, Plain, PciBus, IsPciController;
    var after := Remaining(nodes, p) + (if Replaced(nodes, p.usb) then [] else [XhciNode(p.usb)]);
    forall n | !IsPciController(n) && PciBus(n).Some?
      ensures n in DevicesSet(nodes, p).value <==> n in after
    {
      PlainOrBusless(n);
      SetMembers(nodes, p, n);
    }
    BusesDependOnBused(DevicesSet(nodes, p).value, after);
  }

  lemma HostdevIsPlain(n: Node, p: Profile)
    requires n.tag == "hostdev"
    ensures Plain(n) && Stays(n, p) && n != XhciNode(p.usb) && !IsBalloon(n)
  {
  }

  lemma ReplacedStays(nodes: seq<Node>, p: Profile)
    requires DevicesSet(nodes, p).Ok?
    ensures Replaced(DevicesSet(nodes, p).value, p.usb) <==> Replaced(nodes, p.usb)
  {
    hide DevicesSet, Filter, WithoutFirstBalloon, PciTuple, Stays, IsBalloon, Plain, XhciNode;
    var final := DevicesSet(nodes, p).value;
    WithoutBalloonMembers(nodes);
    FilterMembers(WithoutFirstBalloon(nodes), n => !Stays(n, p));
    forall n: Node | n.tag == "hostdev"
      ensures n in final <==> n in nodes
    {
      HostdevIsPlain(n, p);
      SetMembers(nodes, p, n);
    }
  }

  lemma UsbIsAcceptable(nodes: seq<Node>, p: Profile)
    requires DevicesSet(nodes, p).Ok?
    ensures p.usb.model == "qemu-xhci" && XhciAddressOk(p.usb)
  {
    hide Cleaned, HdaNormalized, PortsNormalized, Replaced, OneUsb;
  }

  /** A second run is the port pass on the result, and the removal of display nodes. */
  lemma SecondRun(nodes: seq<Node>, p: Profile)
    requires DevicesSet(nodes, p).Ok?
    ensures BeforePorts(DevicesSet(nodes, p).value, p) == Ok(DevicesSet(nodes, p).value)
  {
    hide DevicesSet, BeforePorts, Tidy, Replaced, XhciAddressOk;
    UsbIsAcceptable(nodes, p);
    ResultIsTidy(nodes, p);
    ReplacedStays(nodes, p);
    EarlyPassesStay(DevicesSet(nodes, p).value, p);
  }

  lemma {:induction false} FilterKeepsIndexes(nodes: seq<Node>, drop: Node -> bool, error: Error)
    requires forall n :: IsIndexed(n) ==> !drop(n)
    ensures Indexes(Filter(nodes, drop), error) == Indexes(nodes, error)
  {
    hide OrZero, IsIndexed;
    if nodes != [] {
      var front, n := nodes[..|nodes| - 1], nodes[|nodes| - 1];
      FilterKeepsIndexes(front, drop, error);
      if !drop(n) {
        IndexesSnoc(Filter(front, drop), n, error);
      }
    }
  }

  lemma {:induction false} PrunedStays(nodes: seq<Node>, used: set<int>, limit: int)
    requires forall n :: n in nodes && IsRootPort(n) ==> Fixed(n) == n && !IsFiller(IndexOrZero(n), used, limit)
    ensures Pruned(nodes, used, limit) == nodes
  {
    hide Fixed, IsFiller, IsRootPort, IndexOrZero;
    if nodes != [] {
      PrunedStays(nodes[..|nodes| - 1], used, limit);
      assert nodes == nodes[..|nodes| - 1] + [nodes[|nodes| - 1]];
    }
  }

  lemma ControllersAreNoDisplays()
    ensures forall n :: IsPciController(n) ==> !IsDisplay(n)
    ensures forall n :: IsBridge(n) ==> IsIndexed(n) && !IsRootPort(n)
    ensures forall n :: IsIndexed(n) || IsRootPort(n) ==> IsPciController(n)
  {
  }

  /** The limit and the buses of the port pass of a run. */
  function Limit(nodes: seq<Node>, p: Profile): int
    requires DevicesSet(nodes, p).Ok?
  {
    MaxOrZero(Indexes(Bridged(BeforePorts(nodes, p).value), ValueError).value)
  }

  /** Under passthrough, the result is the pruned domain without display nodes. */
  lemma ResultIs(nodes: seq<Node>, p: Profile)
    requires DevicesSet(nodes, p).Ok? && p.gpuPassthrough
    ensures var before := BeforePorts(nodes, p).value;
      && BeforePorts(nodes, p).Ok? && PortsNormalized(before).Ok? && Buses(before) == BusesLeft(nodes, p)
      && (forall n :: n in before && IsBridge(n) ==> OrZero(n.index).Some?)
      && Indexes(Bridged(before), ValueError).Ok?
      && DevicesSet(nodes, p).value == Filter(Pruned(Bridged(before), BusesLeft(nodes, p), Limit(nodes, p)), IsDisplay)
  {
    hide Cleaned, UsbNormalized, HdaNormalized, Filter, Indexes, MaxOrZero, Buses, Pruned, BusesLeft, OrZero,
      IsBridge, EmptyBridge;
    BusesAre(nodes, p);
  }

  /** The controllers of the result other than root ports are those of the domain that are no unused bridges. */
  lemma ResultControllers(nodes: seq<Node>, p: Profile, n: Node)
    requires DevicesSet(nodes, p).Ok? && p.gpuPassthrough && IsIndexed(n)
    ensures n in DevicesSet(nodes, p).value <==> n in nodes && !EmptyBridge(n, BusesLeft(nodes, p))
    ensures n in nodes && IsBridge(n) ==> OrZero(n.index).Some?
  {
    hide DevicesSet, BeforePorts, PortsNormalized, Filter, Indexes, MaxOrZero, Buses, Pruned, BusesLeft, OrZero,
      EmptyBridge, Limit, IsPciController, IsIndexed, IsDisplay, IsRootPort, Fixed, IsFiller, IsBridge;
    ResultIs(nodes, p);
    var before := BeforePorts(nodes, p).value;
    var used := Buses(before);
    var rest := Filter(before, n => EmptyBridge(n, used));
    ControllersAreNoDisplays();
    IndexedIsNoPort(n);
    ControllersKept(nodes, p, n);
    FilterMembers(before, n => EmptyBridge(n, used));
    PrunedMembers(rest, used, Limit(nodes, p));
    FilterMembers(Pruned(rest, used, Limit(nodes, p)), IsDisplay);
    FixedIsController();
    assert Bridged(before) == rest;
  }

  lemma IndexedIsNoPort(n: Node)
    requires IsIndexed(n)
    ensures !IsRootPort(n)
  {
  }

  lemma SecondSplits(nodes: seq<Node>, p: Profile)
    requires DevicesSet(nodes, p).Ok? && p.gpuPassthrough
    ensures var final := DevicesSet(nodes, p).value;
      DevicesSet(final, p) == (if PortsNormalized(final).Err? then Err(PortsNormalized(final).error)
                               else Ok(Filter(PortsNormalized(final).value, IsDisplay)))
  {
    hide Cleaned, UsbNormalized, HdaNormalized, PortsNormalized, Filter;
    SecondRun(nodes, p);
  }

  lemma BridgeStays(nodes: seq<Node>, p: Profile, n: Node)
    requires DevicesSet(nodes, p).Ok? && p.gpuPassthrough && n in DevicesSet(nodes, p).value && IsBridge(n)
    requires n in nodes ==> !Stranded(nodes, p, n)
    ensures OrZero(n.index).Some? && !EmptyBridge(n, BusesAfter(nodes, p))
  {
    hide DevicesSet, BusesLeft, BusesAfter, IsIndexed, IsRootPort, IndexedAbove, IsBridge;
    ControllersAreNoDisplays();
    ResultControllers(nodes, p, n);
  }

  lemma PortStays(nodes: seq<Node>, p: Profile, m: Node)
    requires DevicesSet(nodes, p).Ok? && p.gpuPassthrough && KeepsPort(nodes, p, m) && !Stranded(nodes, p, m)
    ensures !IsFiller(IndexOrZero(m), BusesAfter(nodes, p), Limit(nodes, p))
  {
    hide DevicesSet, BusesLeft, BusesAfter, IndexedAbove, IsBridge, IsRootPort, IndexOrZero, Bridged, PortsNormalized,
      BeforePorts;
    var index := IndexOrZero(m);
    if index >= 5 {
      ResultIs(nodes, p);
      LimitIs(nodes, p, index);
    }
  }

  lemma SameLimit(nodes: seq<Node>, p: Profile)
    requires DevicesSet(nodes, p).Ok? && p.gpuPassthrough
    ensures Indexes(DevicesSet(nodes, p).value, ValueError).Ok?
    ensures MaxOrZero(Indexes(DevicesSet(nodes, p).value, ValueError).value) == Limit(nodes, p)
  {
    hide DevicesSet, BusesLeft, Indexes, MaxOrZero, Filter, Pruned, Bridged, PortsNormalized, BeforePorts, IsIndexed,
      IsDisplay;
    ResultIs(nodes, p);
    ControllersAreNoDisplays();
    var rest := Bridged(BeforePorts(nodes, p).value);
    FilterKeepsIndexes(Pruned(rest, BusesLeft(nodes, p), Limit(nodes, p)), IsDisplay, ValueError);
    PrunedIndexes(rest, BusesLeft(nodes, p), Limit(nodes, p), ValueError);
  }

  lemma SettledPorts(nodes: seq<Node>, p: Profile)
    requires DevicesSet(nodes, p).Ok? && p.gpuPassthrough && forall m :: m in nodes ==> !Stranded(nodes, p, m)
    ensures PortsNormalized(DevicesSet(nodes, p).value) == Ok(DevicesSet(nodes, p).value)
  {
    hide DevicesSet, Buses, BusesAfter, Stranded, KeepsPort, IsBridge, IsRootPort, EmptyBridge, Fixed, IsFiller,
      Indexes, MaxOrZero, Limit, Pruned, Filter, OrZero, IndexOrZero;
    var final := DevicesSet(nodes, p).value;
    var used := Buses(final);
    ResultBuses(nodes, p);
    SameLimit(nodes, p);
    forall n | n in final && IsBridge(n)
      ensures OrZero(n.index).Some? && !EmptyBridge(n, used)
    {
      BridgeStays(nodes, p, n);
    }
    OnlyBridgesAreEmpty(used);
    FilterNothing(final, n => EmptyBridge(n, used));
    forall n | n in final && IsRootPort(n)
      ensures Fixed(n) == n && !IsFiller(IndexOrZero(n), used, Limit(nodes, p))
    {
      KeptPortsExactly(nodes, p, n);
      var m :| m in nodes && KeepsPort(nodes, p, m) && n == Fixed(m);
      KeptIsPort(nodes, p, m);
      FixedPort(m);
      PortStays(nodes, p, m);
    }
    PrunedStays(final, used, Limit(nodes, p));
  }

  lemma OnlyBridgesAreEmpty(used: set<int>)
    ensures forall n :: EmptyBridge(n, used) ==> IsBridge(n)
  {
  }

  lemma StrandedBridgeGoes(nodes: seq<Node>, p: Profile, m: Node)
    requires DevicesSet(nodes, p).Ok? && p.gpuPassthrough && m in nodes && Stranded(nodes, p, m) && IsBridge(m)
    ensures var final := DevicesSet(nodes, p).value;
      m in final && (PortsNormalized(final).Ok? ==> m !in PortsNormalized(final).value)
  {
    hide DevicesSet, Buses, BusesLeft, BusesAfter, IsBridge, IsRootPort, IsIndexed, IndexedAbove, Fixed, IsFiller,
      Indexes, MaxOrZero, Pruned, Filter;
    var final := DevicesSet(nodes, p).value;
    var used := Buses(final);
    ControllersAreNoDisplays();
    ResultControllers(nodes, p, m);
    ResultBuses(nodes, p);
    FixedIsController();
    if PortsNormalized(final).Ok? {
      var rest := Filter(final, n => EmptyBridge(n, used));
      FilterMembers(final, n => EmptyBridge(n, used));
      PrunedMembers(rest, used, MaxOrZero(Indexes(rest, ValueError).value));
    }
  }

  lemma StrandedPortGoes(nodes: seq<Node>, p: Profile, m: Node)
    requires DevicesSet(nodes, p).Ok? && p.gpuPassthrough && m in nodes && Stranded(nodes, p, m) && IsRootPort(m)
    ensures var final := DevicesSet(nodes, p).value;
      Fixed(m) in final && (PortsNormalized(final).Ok? ==> Fixed(m) !in PortsNormalized(final).value)
  {
    hide DevicesSet, Buses, BusesLeft, BusesAfter, IsBridge, IsRootPort, IsIndexed, EmptyBridge, Fixed, Indexes,
      MaxOrZero, Pruned, Filter, IndexOrZero, OrZero;
    var final := DevicesSet(nodes, p).value;
    var used, index := Buses(final), IndexOrZero(m);
    PortIsNoBridge(m);
    KeptPortsExactly(nodes, p, Fixed(m));
    ResultBuses(nodes, p);
    FixedPort(m);
    if PortsNormalized(final).Ok? {
      var rest := Filter(final, n => EmptyBridge(n, used));
      FilterMembers(final, n => EmptyBridge(n, used));
      NothingAbove(nodes, p, rest, m);
      PrunedMembers(rest, used, MaxOrZero(Indexes(rest, ValueError).value));
      forall k | k in rest && IsRootPort(k) && Fixed(k) == Fixed(m)
        ensures IsFiller(IndexOrZero(k), used, MaxOrZero(Indexes(rest, ValueError).value))
      {
        FixedPort(k);
      }
    }
  }

  lemma NothingAbove(nodes: seq<Node>, p: Profile, rest: seq<Node>, m: Node)
    requires DevicesSet(nodes, p).Ok? && p.gpuPassthrough && Stranded(nodes, p, m) && IsRootPort(m)
    requires Indexes(rest, ValueError).Ok? && forall n :: n in rest ==> n in DevicesSet(nodes, p).value
    ensures IndexOrZero(m) >= MaxOrZero(Indexes(rest, ValueError).value)
  {
    hide DevicesSet, BusesLeft, BusesAfter, IsBridge, IsRootPort, IsIndexed, EmptyBridge, Indexes, MaxOrZero,
      IndexOrZero, OrZero;
    PortIsNoBridge(m);
    LimitMeans(rest, IndexOrZero(m));
    forall n | n in rest && IsIndexed(n) && OrZero(n.index).Some?
      ensures OrZero(n.index).value <= IndexOrZero(m)
    {
      ResultControllers(nodes, p, n);
      NotAbove(n, BusesLeft(nodes, p), IndexOrZero(m));
    }
  }

  lemma NotAbove(n: Node, used: set<int>, index: int)
    requires IsIndexed(n) && !EmptyBridge(n, used) && OrZero(n.index).Some? && !IndexedAbove(n, used, index)
    ensures OrZero(n.index).value <= index
  {
  }

  lemma PortIsNoBridge(m: Node)
    requires IsRootPort(m)
    ensures !IsBridge(m)
  {
  }

  /** Without passthrough nothing is stranded, and the whole pass settles at once. */
  lemma PlainSettles(nodes: seq<Node>, p: Profile)
    requires DevicesSet(nodes, p).Ok? && !p.gpuPassthrough
    ensures DevicesSet(DevicesSet(nodes, p).value, p) == DevicesSet(nodes, p)
    ensures forall m :: !Stranded(nodes, p, m)
  {
    hide Cleaned, UsbNormalized, HdaNormalized, PortsNormalized, Buses;
    SecondRun(nodes, p);
    NormalizingTwice(BeforePorts(nodes, p).value);
    assert p.(gpuPassthrough := false) == p;
  }

  /** Running the device passes again changes nothing exactly when the first run stranded no port and no bridge. */
  lemma SettlesExactly(nodes: seq<Node>, p: Profile)
    requires DevicesSet(nodes, p).Ok?
    ensures DevicesSet(DevicesSet(nodes, p).value, p) == DevicesSet(nodes, p)
            <==> forall m :: m in nodes ==> !Stranded(nodes, p, m)
  {
    hide Stranded, DevicesSet, PortsNormalized, Filter, IsDisplay;
    var final := DevicesSet(nodes, p).value;
    if !p.gpuPassthrough {
      PlainSettles(nodes, p);
    } else {
      SecondSplits(nodes, p);
      if PortsNormalized(final).Ok? {
        FilterMembers(PortsNormalized(final).value, IsDisplay);
      }
      if m :| m in nodes && Stranded(nodes, p, m) {
        StrandedKind(nodes, p, m);
        if IsBridge(m) {
          StrandedBridgeGoes(nodes, p, m);
        } else {
          StrandedPortGoes(nodes, p, m);
        }
      } else {
        SettledPorts(nodes, p);
        NoDisplaysLeft(nodes, p);
        FilterNothing(final, IsDisplay);
      }
    }
  }

  lemma StrandedKind(nodes: seq<Node>, p: Profile, m: Node)
    requires Stranded(nodes, p, m)
    ensures IsBridge(m) || IsRootPort(m)
  {
  }

  lemma NoDisplaysLeft(nodes: seq<Node>, p: Profile)
    requires DevicesSet(nodes, p).Ok? && p.gpuPassthrough
    ensures forall n :: n in DevicesSet(nodes, p).value ==> !IsDisplay(n)
  {
    hide DevicesSet, Pruned, Filter, Bridged, BusesLeft, IsDisplay, BeforePorts, PortsNormalized, Indexes, Limit;
    ResultIs(nodes, p);
    FilterMembers(Pruned(Bridged(BeforePorts(nodes, p).value), BusesLeft(nodes, p), Limit(nodes, p)), IsDisplay);
  }

  // ---- A domain that a second run changes ----------------------------------------------------

  const DISPLAY_PORT := PORT.(index := Num(6))
  const DISPLAY := Bare("video").(address := Some(Address("pci", Num(6), Num(0), Num(0))))
  const PASSTHROUGH := PLAIN.(gpuPassthrough := true)

  lemma DisplayFacts()
    ensures IsRootPort(DISPLAY_PORT) && IndexOrZero(DISPLAY_PORT) == 6 && PciTuple(DISPLAY_PORT) == None
    ensures IsDisplay(DISPLAY) && PciBus(DISPLAY) == Some(6) && PciTuple(DISPLAY) == Some((6, 0, 0))
    ensures PciTuple(NoBalloon()) == None && XhciAddressOk(PLAIN.usb) && Wanted(PLAIN.usb) == (0, 20, 0)
    ensures forall n :: n in [DISPLAY_PORT, DISPLAY] ==>
      !IsBalloon(n) && !IsUsb(n) && !IsIndexed(n) && Stays(n, PLAIN) && n.tag != "hostdev"
    ensures !IsPciController(DISPLAY) && !IsUsb(NoBalloon()) && NoBalloon().tag != "hostdev"
  {
  }

  lemma NothingIndexed()
    ensures forall n :: n in [DISPLAY_PORT, DISPLAY, NoBalloon(), XhciNode(PLAIN.usb)] ==> !IsIndexed(n) && !IsBridge(n)
  {
  }

  lemma DisplayRemains(p: Profile)
    requires p == PLAIN || p == PASSTHROUGH
    ensures forall n ::
      n in Remaining([DISPLAY_PORT, DISPLAY], p) <==> n == DISPLAY_PORT || (n == DISPLAY && !p.gpuPassthrough)
    ensures !Replaced([DISPLAY_PORT, DISPLAY], p.usb)
  {
    hide Filter, PciTuple, IsBalloon, Unsupported, EmulatedHid, IsUsb, IsIch9Sound, IsDisplay;
    DisplayFacts();
    PortIsNoDisplay();
    var nodes := [DISPLAY_PORT, DISPLAY];
    FirstIs(nodes, IsBalloon, 2);
    FilterMembers(nodes, n => !Stays(n, p));
  }

  lemma DisplayIsStranded()
    ensures Stranded([DISPLAY_PORT, DISPLAY], PASSTHROUGH, DISPLAY_PORT)
  {
    hide Remaining, Replaced, XhciNode, PciBus, IsPciController, IndexOrZero, IsRootPort, IsIndexed, IsBridge;
    var nodes := [DISPLAY_PORT, DISPLAY];
    DisplayFacts();
    DisplayRemains(PLAIN);
    DisplayRemains(PASSTHROUGH);
    XhciFacts(map[]);
    IndexedIsController();
    assert PASSTHROUGH.(gpuPassthrough := false) == PLAIN;
    var left := Remaining(nodes, PLAIN) + [XhciNode(PLAIN.usb)];
    assert DISPLAY in left;
    assert 6 in BusesLeft(nodes, PASSTHROUGH);
    var after := Remaining(nodes, PASSTHROUGH) + [XhciNode(PLAIN.usb)];
    forall n | n in after && !IsPciController(n) && PciBus(n).Some?
      ensures PciBus(n).value != 6
    {
      assert n == DISPLAY_PORT || n == XhciNode(PLAIN.usb);
    }
    assert 6 !in BusesAfter(nodes, PASSTHROUGH);
  }

  lemma DisplayIsSet()
    ensures DevicesSet([DISPLAY_PORT, DISPLAY], PASSTHROUGH).Ok?
  {
    hide Filter, First, Unsupported, EmulatedHid, IsBalloon, IsUsb, PciTuple, XhciNode, NoBalloon, Bare, Indexes,
      Pruned, Buses, IsIndexed, IsBridge, MaxOrZero, XhciAddressOk;
    var nodes, usb := [DISPLAY_PORT, DISPLAY], PLAIN.usb;
    DisplayFacts();
    FilterNothing(nodes, Unsupported);
    FilterNothing(nodes, EmulatedHid);
    FirstIs(nodes, IsBalloon, 2);
    var cleaned := nodes + [NoBalloon()];
    assert Cleaned(nodes) == cleaned;
    FirstIs(cleaned, IsUsb, 3);
    assert !Replaced(cleaned, usb);
    var all := cleaned + [XhciNode(usb)];
    assert OneUsb(cleaned)[3 := XhciNode(usb)] == all;
    assert UsbNormalized(cleaned, usb) == Ok(all);
    NothingIndexed();
    assert all == [DISPLAY_PORT, DISPLAY, NoBalloon(), XhciNode(usb)];
    var used := Buses(all);
    FilterMembers(all, n => EmptyBridge(n, used));
    NotIndexed(Filter(all, n => EmptyBridge(n, used)), ValueError);
  }

  /** A port that leads to the display only: the first run keeps it, the second takes it out. */
  lemma SecondRunTakesPort()
    ensures DevicesSet([DISPLAY_PORT, DISPLAY], PASSTHROUGH).Ok?
    ensures var final := DevicesSet([DISPLAY_PORT, DISPLAY], PASSTHROUGH).value;
      Fixed(DISPLAY_PORT) in final && DevicesSet(final, PASSTHROUGH) != Ok(final)
  {
    hide DevicesSet, Stranded, Fixed, IsRootPort;
    var nodes := [DISPLAY_PORT, DISPLAY];
    DisplayIsSet();
    DisplayIsStranded();
    DisplayFacts();
    assert DISPLAY_PORT in nodes;
    StrandedPortGoes(nodes, PASSTHROUGH, DISPLAY_PORT);
    SettlesExactly(nodes, PASSTHROUGH);
  }
}

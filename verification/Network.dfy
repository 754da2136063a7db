/**
 The network profiles of `generate_lan_profiles` in `01_generate_identity.py`. Addresses are 32-bit numbers,
 and every random choice is arbitrary, so what is proved holds whatever the choices were.
 */
module Network {
  import opened Outcomes
  import opened Sequences
  import opened Sets
  import opened Text
  import opened MacAddresses

  // ---- IPv4 networks -------------------------------------------------------------------------

  datatype Network = Network(base: nat, prefix: nat)

  function Pow2(n: nat): (p: nat)
    ensures p >= 1
  {
    if n == 0 then 1 else 2 * Pow2(n - 1)
  }

  /** The broadcast address. */
  function Last(n: Network): int {
    n.base + Pow2(if n.prefix <= 32 then 32 - n.prefix else 0) - 1
  }

  predicate Holds(n: Network, address: int) {
    n.base <= address <= Last(n)
  }

  predicate Overlaps(a: Network, b: Network) {
    Holds(a, b.base) || Holds(a, Last(b)) || Holds(b, a.base) || Holds(b, Last(a))
  }

  /** Two networks overlap exactly when they share an address. */
  lemma OverlapsMeans(a: Network, b: Network)
    ensures Overlaps(a, b) <==> exists address :: Holds(a, address) && Holds(b, address)
  {
    hide Pow2;
    if Overlaps(a, b) {
      assert Holds(b, b.base) && Holds(b, Last(b)) && Holds(a, a.base) && Holds(a, Last(a));
    }
  }

  const THIRDS := 256

  /** 192.168.t.0/24. */
  function LanSubnet(third: nat): Network {
    Network(0xC0A8_0000 + 256 * third, 24)
  }

  lemma LanSubnetLast(third: nat)
    ensures Last(LanSubnet(third)) == 0xC0A8_0000 + 256 * third + 255
  {
    assert Pow2(2) == 4;
    assert Pow2(4) == 16;
    assert Pow2(6) == 64;
    assert Pow2(8) == 256;
  }

  lemma LanSubnetsApart(a: nat, b: nat)
    ensures Overlaps(LanSubnet(a), LanSubnet(b)) <==> a == b
  {
    hide Pow2;
    LanSubnetLast(a);
    LanSubnetLast(b);
  }

  predicate Conflicts(third: nat, networks: seq<Network>) {
    exists i :: 0 <= i < |networks| && Overlaps(LanSubnet(third), networks[i])
  }

  /** `range(n)`. */
  function Below(n: nat): (r: set<nat>)
    ensures forall t: nat :: t in r <==> t < n
  {
    if n == 0 then {} else Below(n - 1) + {n - 1}
  }

  /** The third octets whose network overlaps none of the occupied ones. */
  function Free(occupied: seq<Network>): set<nat> {
    set t: nat | t < THIRDS && !Conflicts(t, occupied)
  }

  // ---- Routers and gateway MACs --------------------------------------------------------------

  datatype Router = Router(vendor: string, oui: seq<nat>)

  function Routers(): seq<Router> {
    [Router("TP-Link Technologies", [0x50, 0xC7, 0xBF]), Router("TP-Link Technologies", [0xD8, 0x07, 0xB6]),
     Router("ASUSTek Computer", [0x2C, 0xFD, 0xA1]), Router("ASUSTek Computer", [0x04, 0xD9, 0xF5]),
     Router("NETGEAR", [0xA0, 0x04, 0x60]), Router("NETGEAR", [0x9C, 0x3D, 0xCF]),
     Router("Xiaomi Communications", [0x64, 0xCC, 0x2E]), Router("Huawei Technologies", [0x48, 0x46, 0xFB])]
  }

  /** Router OUIs are those of global unicast addresses. */
  lemma RouterOuis(r: Router)
    requires r in Routers()
    ensures |r.oui| == 3 && r.oui[0] % 4 == 0 && forall i :: 0 <= i < 3 ==> r.oui[i] < 256
  {
  }

  function HostnamePrefix(vendor: string): string {
    if vendor == "TP-Link Technologies" then "tplink"
    else if vendor == "ASUSTek Computer" then "asus"
    else if vendor == "NETGEAR" then "netgear"
    else if vendor == "Xiaomi Communications" then "miwifi"
    else if vendor == "Huawei Technologies" then "huawei"
    else "router"
  }

  const SUFFIXES := 0x100_0000

  /** The three random bytes of a gateway MAC. */
  function Tail(suffix: nat): seq<nat> {
    [suffix / 0x1_0000 % 0x100, suffix / 0x100 % 0x100, suffix % 0x100]
  }

  function RouterMac(oui: seq<nat>, suffix: nat): string {
    MacText(oui + Tail(suffix))
  }

  lemma TailValue(a: nat)
    requires a < SUFFIXES
    ensures a == Tail(a)[0] * 0x1_0000 + Tail(a)[1] * 0x100 + Tail(a)[2]
  {
    assert a / 0x1_0000 == a / 0x100 / 0x100;
  }

  lemma TailInjective(a: nat, b: nat)
    requires a < SUFFIXES && b < SUFFIXES && Tail(a) == Tail(b)
    ensures a == b
  {
    hide Tail;
    TailValue(a);
    TailValue(b);
  }

  function MacsBelow(oui: seq<nat>, n: nat): set<string> {
    set i: nat | i < n :: RouterMac(oui, i)
  }

  lemma {:induction false} CountMacs(oui: seq<nat>, n: nat)
    requires n <= SUFFIXES
    ensures |MacsBelow(oui, n)| == n
  {
    hide RouterMac;
    if n == 0 {
      assert MacsBelow(oui, 0) == {};
    } else {
      CountMacs(oui, n - 1);
      forall i: nat | i < n - 1
        ensures RouterMac(oui, i) != RouterMac(oui, n - 1)
      {
        if RouterMac(oui, i) == RouterMac(oui, n - 1) {
          RouterMacInjective(oui, i, n - 1);
        }
      }
      assert MacsBelow(oui, n) == MacsBelow(oui, n - 1) + {RouterMac(oui, n - 1)};
    }
  }

  lemma RouterMacInjective(oui: seq<nat>, a: nat, b: nat)
    requires a < SUFFIXES && b < SUFFIXES && RouterMac(oui, a) == RouterMac(oui, b)
    ensures a == b
  {
    hide MacText, Tail;
    LastThree(oui, a);
    LastThree(oui, b);
    MacInjective(oui + Tail(a), oui + Tail(b));
    TailInjective(a, b);
  }

  lemma LastThree(oui: seq<nat>, suffix: nat)
    ensures (oui + Tail(suffix))[|oui|..] == Tail(suffix) && oui + Tail(suffix) != []
  {
  }

  /** As long as fewer than 2^24 MACs are excluded, some MAC of the vendor is free. */
  lemma FreshExists(oui: seq<nat>, excluded: set<string>)
    requires |excluded| < SUFFIXES
    ensures exists suffix: nat :: suffix < SUFFIXES && RouterMac(oui, suffix) !in excluded
  {
    hide RouterMac;
    CountMacs(oui, SUFFIXES);
    if forall suffix: nat :: suffix < SUFFIXES ==> RouterMac(oui, suffix) in excluded {
      SubsetSize(MacsBelow(oui, SUFFIXES), excluded);
    }
  }

  // ---- Profiles ------------------------------------------------------------------------------

  datatype Services = Services(
    gatewayAsDns: bool, broadcast: int, domain: string, dnsServers: seq<int>,
    hostname: string, isolation: string, lease: int)

  datatype Adapter = Adapter(
    mac: string, permanentMac: string, dsn: string,
    address: int, assignment: string, dhcpStart: int, dhcpEnd: int, prefix: nat, netmask: int, subnet: Network,
    gateway: int, gatewayMac: string, manufacturer: string, services: Services,
    name: string, bridge: string, mode: string)

  /** The random choices behind one profile. */
  datatype Choice = Choice(third: nat, gatewayHost: nat, guestHost: nat, router: Router, suffix: nat)

  function GatewayMac(c: Choice): string {
    RouterMac(c.router.oui, c.suffix)
  }

  /** `lan_services_identity`. */
  function LanServices(gateway: int, gatewayMac: string, manufacturer: string, subnet: Network): Services {
    var hostname := HostnamePrefix(manufacturer) + "-" + MacSuffix(gatewayMac);
    Services(true, Last(subnet), "lan", [gateway], hostname, "guest-only", 86400)
  }

  function Head(token: string): string {
    if |token| <= 10 then token else token[..10]
  }

  const NETMASK_24 := 0xFFFF_FF00

  function Made(mac: string, dsn: string, c: Choice, token: string, index: nat): Adapter {
    var subnet := LanSubnet(c.third);
    var gateway := subnet.base + c.gatewayHost;
    Adapter(
      mac, mac, dsn,
      subnet.base + c.guestHost, "dhcp-reservation", subnet.base + 20, subnet.base + 239, 24, NETMASK_24, subnet,
      gateway, GatewayMac(c), c.router.vendor, LanServices(gateway, GatewayMac(c), c.router.vendor, subnet),
      "lan-" + Head(token) + "-" + Dec(index + 1), "br" + Head(token) + Hex(index), "nat")
  }

  predicate ChoiceOk(c: Choice) {
    && c.third < THIRDS && c.gatewayHost in {1, 254} && 20 <= c.guestHost < 240 && c.guestHost != c.gatewayHost
    && c.router in Routers() && c.suffix < SUFFIXES
  }

  function LowerAll(macs: seq<string>): set<string> {
    if macs == [] then {} else LowerAll(macs[..|macs| - 1]) + {Lower(macs[|macs| - 1])}
  }

  lemma {:induction false} LowerAllSize(macs: seq<string>)
    ensures |LowerAll(macs)| <= |macs|
    ensures forall m :: m in macs ==> Lower(m) in LowerAll(macs)
  {
    hide Lower;
    if macs != [] {
      LowerAllSize(macs[..|macs| - 1]);
      assert macs == macs[..|macs| - 1] + [macs[|macs| - 1]];
    }
  }

  /** The gateway MACs drawn so far. */
  function Gateways(cs: seq<Choice>): set<string> {
    set i | 0 <= i < |cs| :: GatewayMac(cs[i])
  }

  /** The MACs of a router vendor that no card has. */
  function Spare(oui: seq<nat>, macs: seq<string>): set<string> {
    MacsBelow(oui, SUFFIXES) - LowerAll(macs)
  }

  /** The cards that the loop reaches: the first one with an unreadable MAC ends it. */
  function Reached(macs: seq<string>): (n: nat)
    ensures n <= |macs|
  {
    if macs == [] then 0
    else if PcieDsnFromMac(macs[0]).Err? then 1
    else 1 + Reached(macs[1..])
  }

  /** As many gateway MACs as can be drawn at all: one for each card reached, as long as networks are free. */
  function Draws(macs: seq<string>, occupied: seq<Network>): nat {
    if Reached(macs) < |Free(occupied)| then Reached(macs) else |Free(occupied)|
  }

  /** A run that never ends its next draw: a card and a network are left, and no MAC of some router vendor. */
  ghost predicate Exhausted(cs: seq<Choice>, macs: seq<string>, occupied: seq<Network>) {
    && ChoicesOk(cs, macs, occupied) && |cs| < Draws(macs, occupied)
    && exists r :: r in Routers() && MacsBelow(r.oui, SUFFIXES) <= LowerAll(macs) + Gateways(cs)
  }

  /** Every router vendor has enough spare MACs for all draws. */
  predicate DrawsEnd(macs: seq<string>, occupied: seq<Network>) {
    forall r :: r in Routers() ==> Draws(macs, occupied) <= |Spare(r.oui, macs)|
  }

  /** What holds of the choices of a run: free, distinct networks and fresh gateway MACs. */
  predicate ChoicesOk(cs: seq<Choice>, macs: seq<string>, occupied: seq<Network>) {
    && (forall i :: 0 <= i < |cs| ==> ChoiceOk(cs[i]) && !Conflicts(cs[i].third, occupied))
    && (forall i, j :: 0 <= i < j < |cs| ==> cs[i].third != cs[j].third)
    && (forall i :: 0 <= i < |cs| ==> GatewayMac(cs[i]) !in LowerAll(macs))
    && (forall i, j :: 0 <= i < j < |cs| ==> GatewayMac(cs[i]) != GatewayMac(cs[j]))
  }

  predicate Records(adapters: seq<Adapter>, cs: seq<Choice>, macs: seq<string>, token: string) {
    |adapters| == |cs| <= |macs| && forall i :: 0 <= i < |cs| ==>
      PcieDsnFromMac(macs[i]).Ok? && adapters[i] == Made(macs[i], PcieDsnFromMac(macs[i]).value, cs[i], token, i)
  }

  function Thirds(cs: seq<Choice>): set<nat> {
    set i | 0 <= i < |cs| :: cs[i].third
  }

  function Subnets(cs: seq<Choice>): seq<Network> {
    seq(|cs|, i requires 0 <= i < |cs| => LanSubnet(cs[i].third))
  }

  lemma {:induction false} ThirdsSize(cs: seq<Choice>)
    requires forall i, j :: 0 <= i < j < |cs| ==> cs[i].third != cs[j].third
    ensures |Thirds(cs)| == |cs|
  {
    if cs == [] {
      assert Thirds(cs) == {};
    } else {
      var front, last := cs[..|cs| - 1], cs[|cs| - 1];
      ThirdsSize(front);
      assert forall i :: 0 <= i < |front| ==> front[i] == cs[i];
      assert Thirds(cs) == Thirds(front) + {last.third};
      assert last.third !in Thirds(front);
    }
  }

  lemma ConflictsWithReserved(third: nat, cs: seq<Choice>, occupied: seq<Network>)
    ensures Conflicts(third, occupied + Subnets(cs)) <==> Conflicts(third, occupied) || third in Thirds(cs)
  {
    hide LanSubnet, Overlaps;
    var all := occupied + Subnets(cs);
    if Conflicts(third, all) {
      var i :| 0 <= i < |all| && Overlaps(LanSubnet(third), all[i]);
      if i >= |occupied| {
        LanSubnetsApart(third, cs[i - |occupied|].third);
      }
    }
    if Conflicts(third, occupied) {
      var i :| 0 <= i < |occupied| && Overlaps(LanSubnet(third), occupied[i]);
      assert all[i] == occupied[i];
    }
    if third in Thirds(cs) {
      var i :| 0 <= i < |cs| && cs[i].third == third;
      LanSubnetsApart(third, third);
      assert all[|occupied| + i] == LanSubnet(third);
    }
  }

  /** If every network is taken, at least as many profiles exist as there were free networks. */
  lemma NoneLeft(cs: seq<Choice>, occupied: seq<Network>)
    requires forall t: nat :: t < THIRDS ==> Conflicts(t, occupied + Subnets(cs))
    ensures |Free(occupied)| <= |cs|
  {
    hide Conflicts;
    forall t | t in Free(occupied)
      ensures t in Thirds(cs)
    {
      ConflictsWithReserved(t, cs, occupied);
    }
    SubsetSize(Free(occupied), Thirds(cs));
    ThirdsAtMost(cs);
  }

  lemma {:induction false} ThirdsAtMost(cs: seq<Choice>)
    ensures |Thirds(cs)| <= |cs|
  {
    if cs == [] {
      assert Thirds(cs) == {};
    } else {
      var front, last := cs[..|cs| - 1], cs[|cs| - 1];
      ThirdsAtMost(front);
      assert forall i :: 0 <= i < |front| ==> front[i] == cs[i];
      assert Thirds(cs) == Thirds(front) + {last.third};
    }
  }

  /** Profiles in free, distinct networks cannot outnumber the free networks. */
  lemma SomeLeft(cs: seq<Choice>, macs: seq<string>, occupied: seq<Network>)
    requires ChoicesOk(cs, macs, occupied)
    ensures |cs| <= |Free(occupied)| <= THIRDS
  {
    hide Conflicts, Routers, GatewayMac;
    ThirdsSize(cs);
    assert Thirds(cs) <= Free(occupied);
    SubsetSize(Thirds(cs), Free(occupied));
    FreeAtMost(occupied, THIRDS);
  }

  lemma {:induction false} FreeAtMost(occupied: seq<Network>, n: nat)
    ensures |set t: nat | t < n && !Conflicts(t, occupied)| <= n
  {
    hide Conflicts;
    var below := set t: nat | t < n && !Conflicts(t, occupied);
    if n == 0 {
      assert below == {};
    } else {
      FreeAtMost(occupied, n - 1);
      var before := set t: nat | t < n - 1 && !Conflicts(t, occupied);
      assert below <= before + {n - 1};
      SubsetSize(below, before + {n - 1});
    }
  }

  /**
   Picks a free network as the inner loop does: an arbitrary candidate at a time until one overlaps nothing.
   The bound is out of range when all of them overlap something.
   */
  method PickThird(taken: seq<Network>) returns (third: nat)
    ensures third < THIRDS ==> !Conflicts(third, taken)
    ensures third >= THIRDS ==> forall t: nat :: t < THIRDS ==> Conflicts(t, taken)
  {
    hide Conflicts;
    var candidates := Below(THIRDS);
    while candidates != {}
      invariant candidates <= Below(THIRDS)
      invariant forall t: nat :: t < THIRDS && t !in candidates ==> Conflicts(t, taken)
      decreases |candidates|
    {
      third :| third in candidates;
      candidates := candidates - {third};
      if !Conflicts(third, taken) {
        return;
      }
    }
    return THIRDS;
  }

  lemma {:induction false} GatewaysAtMost(cs: seq<Choice>)
    ensures |Gateways(cs)| <= |cs|
  {
    hide GatewayMac;
    if cs == [] {
      assert Gateways(cs) == {};
    } else {
      var front, last := cs[..|cs| - 1], cs[|cs| - 1];
      GatewaysAtMost(front);
      assert forall i :: 0 <= i < |front| ==> front[i] == cs[i];
      assert Gateways(cs) == Gateways(front) + {GatewayMac(last)};
    }
  }

  lemma {:induction false} ReachedMeans(macs: seq<string>, k: nat)
    requires k < |macs|
    ensures k < Reached(macs) <==> forall i :: 0 <= i < k ==> PcieDsnFromMac(macs[i]).Ok?
  {
    hide PcieDsnFromMac;
    if k > 0 && PcieDsnFromMac(macs[0]).Ok? {
      var rest := macs[1..];
      ReachedMeans(rest, k - 1);
      assert forall i :: 1 <= i < k ==> macs[i] == rest[i - 1];
      assert forall i :: 0 <= i < k - 1 ==> rest[i] == macs[i + 1];
    }
  }

  /** Another free network means another draw. */
  lemma DrawIsCounted(cs: seq<Choice>, third: nat, macs: seq<string>, occupied: seq<Network>)
    requires ChoicesOk(cs, macs, occupied) && |cs| < Reached(macs)
    requires third < THIRDS && !Conflicts(third, occupied) && third !in Thirds(cs)
    ensures |cs| < Draws(macs, occupied)
  {
    hide Conflicts, Routers, GatewayMac, LowerAll, Reached;
    ThirdsSize(cs);
    assert Thirds(cs) + {third} <= Free(occupied);
    SubsetSize(Thirds(cs) + {third}, Free(occupied));
  }

  /** With far fewer cards than MACs of one vendor every draw ends. */
  lemma FewCardsSuffice(macs: seq<string>, occupied: seq<Network>)
    requires |macs| + THIRDS <= SUFFIXES
    ensures DrawsEnd(macs, occupied)
  {
    hide Routers, Conflicts, LowerAll, MacsBelow, Reached;
    LowerAllSize(macs);
    FreeAtMost(occupied, THIRDS);
    forall r | r in Routers()
      ensures Draws(macs, occupied) <= |Spare(r.oui, macs)|
    {
      CountMacs(r.oui, SUFFIXES);
      DifferenceSize(MacsBelow(r.oui, SUFFIXES), LowerAll(macs));
    }
  }

  /** A vendor with too few spare MACs: some choices leave a run that cannot end its next draw. */
  lemma {:induction false} SomeRunExhausts(r: Router, n: nat, macs: seq<string>, occupied: seq<Network>)
    returns (cs: seq<Choice>)
    requires r in Routers() && n <= |Free(occupied)| && n <= |Spare(r.oui, macs)|
    ensures |cs| == n && ChoicesOk(cs, macs, occupied) && Gateways(cs) <= Spare(r.oui, macs)
  {
    hide Routers, Conflicts, LowerAll, RouterMac;
    if n == 0 {
      cs := [];
    } else {
      var before := SomeRunExhausts(r, n - 1, macs, occupied);
      ThirdsAtMost(before);
      var third := Extra(Free(occupied), Thirds(before));
      GatewaysAtMost(before);
      var mac := Extra(Spare(r.oui, macs), Gateways(before));
      var suffix: nat :| suffix < SUFFIXES && RouterMac(r.oui, suffix) == mac;
      var c := Choice(third, 1, 20, r, suffix);
      ChoicesGrow(before, c, macs, occupied, LowerAll(macs) + Gateways(before));
      cs := before + [c];
      forall i | 0 <= i < |cs|
        ensures GatewayMac(cs[i]) in Spare(r.oui, macs)
      {
        assert i < |before| ==> GatewayMac(before[i]) in Gateways(before);
      }
    }
  }

  /** The condition is exact: every run ends its draws exactly when each vendor has enough spare MACs. */
  lemma DrawsEndExactly(macs: seq<string>, occupied: seq<Network>)
    ensures DrawsEnd(macs, occupied) <==> forall cs :: !Exhausted(cs, macs, occupied)
  {
    hide Routers, Conflicts, LowerAll, RouterMac, ChoicesOk, Draws, Gateways, MacsBelow;
    if DrawsEnd(macs, occupied) {
      forall cs | Exhausted(cs, macs, occupied)
        ensures false
      {
        var r :| r in Routers() && MacsBelow(r.oui, SUFFIXES) <= LowerAll(macs) + Gateways(cs);
        GatewaysAtMost(cs);
        SubsetSize(Spare(r.oui, macs), Gateways(cs));
      }
    } else {
      var r :| r in Routers() && Draws(macs, occupied) > |Spare(r.oui, macs)|;
      DrawsAtMost(macs, occupied);
      var cs := SomeRunExhausts(r, |Spare(r.oui, macs)|, macs, occupied);
      GatewaysSize(cs, macs, occupied);
      SameSize(Gateways(cs), Spare(r.oui, macs));
      assert Exhausted(cs, macs, occupied);
    }
  }

  lemma DrawsAtMost(macs: seq<string>, occupied: seq<Network>)
    ensures Draws(macs, occupied) <= |Free(occupied)|
  {
    hide Reached;
  }

  lemma {:induction false} GatewaysSize(cs: seq<Choice>, macs: seq<string>, occupied: seq<Network>)
    requires ChoicesOk(cs, macs, occupied)
    ensures |Gateways(cs)| == |cs|
  {
    hide GatewayMac, Conflicts, LowerAll, ChoiceOk;
    if cs == [] {
      assert Gateways(cs) == {};
    } else {
      var front, last := cs[..|cs| - 1], cs[|cs| - 1];
      GatewaysSize(front, macs, occupied);
      assert forall i :: 0 <= i < |front| ==> front[i] == cs[i];
      assert Gateways(cs) == Gateways(front) + {GatewayMac(last)};
      assert GatewayMac(last) !in Gateways(front);
    }
  }

  // ---- What a profile announces --------------------------------------------------------------

  /** A router vendor, its MAC prefix as printed, and what its host names begin with. */
  const ROUTER_NAMES: set<(string, string, string)> := {
    ("TP-Link Technologies", "50:c7:bf", "tplink"), ("TP-Link Technologies", "d8:07:b6", "tplink"),
    ("ASUSTek Computer", "2c:fd:a1", "asus"), ("ASUSTek Computer", "04:d9:f5", "asus"),
    ("NETGEAR", "a0:04:60", "netgear"), ("NETGEAR", "9c:3d:cf", "netgear"),
    ("Xiaomi Communications", "64:cc:2e", "miwifi"), ("Huawei Technologies", "48:46:fb", "huawei")}

  /** A /24 within 192.168, reserved addresses 20 to 239 of it, and a gateway that is its first or last host. */
  predicate AnnouncesNetwork(a: Adapter) {
    var base := a.subnet.base;
    && 0xC0A8_0000 <= base <= 0xC0A8_FF00 && base % 0x100 == 0 && a.subnet.prefix == 24 && a.prefix == 24
    && a.netmask == 0xFFFF_FF00 && a.assignment == "dhcp-reservation" && a.mode == "nat"
    && a.dhcpStart == base + 20 && a.dhcpEnd - a.dhcpStart + 1 == 220
    && a.dhcpStart <= a.address <= a.dhcpEnd
    && (a.gateway == base + 1 || a.gateway == base + 254) && !(a.dhcpStart <= a.gateway <= a.dhcpEnd)
  }

  /** The gateway answers DNS, and its MAC and its name are those of one vendor. */
  predicate AnnouncesGateway(a: Adapter) {
    var mac := a.gatewayMac;
    && MacShaped(mac)
    && (exists name :: name in ROUTER_NAMES && name.0 == a.manufacturer && name.1 == mac[..8]
                       && a.services.hostname == name.2 + "-" + mac[12..14] + mac[15..17])
    && a.services.gatewayAsDns && a.services.dnsServers == [a.gateway] && a.services.broadcast == a.subnet.base + 255
    && a.services.domain == "lan" && a.services.isolation == "guest-only" && a.services.lease == 86400
  }

  /** The card's MAC, the serial number derived from it, and the names by the token and the card's number. */
  predicate AnnouncesCard(a: Adapter, mac: string, token: string, index: nat) {
    var short := if |token| > 10 then token[..10] else token;
    && a.mac == mac && a.permanentMac == mac && PcieDsnFromMac(mac) == Ok(a.dsn)
    && a.name == "lan-" + short + "-" + Dec(index + 1) && a.bridge == "br" + short + Hex(index)
  }

  predicate Announces(a: Adapter, mac: string, token: string, index: nat) {
    AnnouncesNetwork(a) && AnnouncesGateway(a) && AnnouncesCard(a, mac, token, index)
  }

  /** The networks and gateways are new: no network shares an address with a known one or another of them. */
  predicate AllNew(adapters: seq<Adapter>, macs: seq<string>, occupied: seq<Network>) {
    && (forall i, k :: 0 <= i < |adapters| && 0 <= k < |occupied| ==> !Overlaps(adapters[i].subnet, occupied[k]))
    && (forall i, j :: 0 <= i < j < |adapters| ==> !Overlaps(adapters[i].subnet, adapters[j].subnet))
    && (forall i, k :: 0 <= i < |adapters| && 0 <= k < |macs| ==> adapters[i].gatewayMac != Lower(macs[k]))
    && (forall i, j :: 0 <= i < j < |adapters| ==> adapters[i].gatewayMac != adapters[j].gatewayMac)
  }

  lemma VendorNames(r: Router)
    requires r in Routers()
    ensures |r.oui| == 3 && IsOctet(r.oui[0]) && IsOctet(r.oui[1]) && IsOctet(r.oui[2])
    ensures (r.vendor, HexPairs(r.oui[0], r.oui[1], r.oui[2]), HostnamePrefix(r.vendor)) in ROUTER_NAMES
  {
    var rs := Routers();
    assert r == rs[0] || r == rs[1] || r == rs[2] || r == rs[3] || r == rs[4] || r == rs[5] || r == rs[6] || r == rs[7];
  }

  predicate IsOctet(n: nat) {
    n < 256
  }

  function HexPairs(a: nat, b: nat, c: nat): string
    requires a < 256 && b < 256 && c < 256
  {
    [DIGITS[a / 16], DIGITS[a % 16], ':', DIGITS[b / 16], DIGITS[b % 16], ':', DIGITS[c / 16], DIGITS[c % 16]]
  }

  lemma NetworkIsAnnounced(mac: string, dsn: string, c: Choice, token: string, index: nat)
    requires ChoiceOk(c)
    ensures AnnouncesNetwork(Made(mac, dsn, c, token, index))
  {
    hide GatewayMac, LanServices, Head, Dec, Hex, Routers;
  }

  lemma GatewayIsAnnounced(mac: string, dsn: string, c: Choice, token: string, index: nat)
    requires ChoiceOk(c)
    ensures AnnouncesGateway(Made(mac, dsn, c, token, index))
  {
    hide Head, Dec, Hex, Routers, Tail, HostnamePrefix, MacText, HexPairs, MacShaped, ROUTER_NAMES, MacSuffix;
    RouterOuis(c.router);
    VendorNames(c.router);
    LanSubnetLast(c.third);
    var octets := c.router.oui + Tail(c.suffix);
    TailIsOctets(c.suffix);
    MacIsShaped(octets);
    MacFront(octets);
    SuffixIs(GatewayMac(c));
    var name := (c.router.vendor, HexPairs(octets[0], octets[1], octets[2]), HostnamePrefix(c.router.vendor));
    assert name in ROUTER_NAMES;
  }

  lemma TailIsOctets(suffix: nat)
    ensures |Tail(suffix)| == 3 && forall i :: 0 <= i < 3 ==> Tail(suffix)[i] < 256
  {
  }

  lemma MacFront(octets: seq<nat>)
    requires IsMac(octets)
    ensures |MacText(octets)| == 17 && MacText(octets)[..8] == HexPairs(octets[0], octets[1], octets[2])
  {
    hide Join, Hex2;
    var t := Texts(octets);
    JoinSix(t, ':');
    forall i | 0 <= i < 6
      ensures t[i] == [DIGITS[octets[i] / 16], DIGITS[octets[i] % 16]]
    {
      HexDigitsOf(octets[i]);
    }
  }

  lemma ChoicesAreNew(adapters: seq<Adapter>, cs: seq<Choice>, macs: seq<string>, token: string, occupied: seq<Network>)
    requires Records(adapters, cs, macs, token) && ChoicesOk(cs, macs, occupied)
    ensures AllNew(adapters, macs, occupied)
  {
    hide Overlaps, LanSubnet, Lower, LowerAll, Routers, ChoiceOk, PcieDsnFromMac, GatewayMac, LanServices, Head, Dec,
      Hex;
    LowerAllSize(macs);
    forall i, j | 0 <= i < j < |adapters|
      ensures !Overlaps(adapters[i].subnet, adapters[j].subnet)
    {
      LanSubnetsApart(cs[i].third, cs[j].third);
    }
    forall i, k | 0 <= i < |adapters| && 0 <= k < |occupied|
      ensures !Overlaps(adapters[i].subnet, occupied[k])
    {
      assert !Conflicts(cs[i].third, occupied);
    }
  }

  lemma RecordsAnnounce(adapters: seq<Adapter>, cs: seq<Choice>, macs: seq<string>, token: string,
                        occupied: seq<Network>)
    requires Records(adapters, cs, macs, token) && ChoicesOk(cs, macs, occupied)
    ensures forall i :: 0 <= i < |adapters| ==> Announces(adapters[i], macs[i], token, i)
  {
    hide ChoiceOk, PcieDsnFromMac, AnnouncesNetwork, AnnouncesGateway, Conflicts, GatewayMac, LowerAll, LanServices,
      LanSubnet, Dec, Hex;
    forall i | 0 <= i < |adapters|
      ensures Announces(adapters[i], macs[i], token, i)
    {
      var dsn := PcieDsnFromMac(macs[i]).value;
      NetworkIsAnnounced(macs[i], dsn, cs[i], token, i);
      GatewayIsAnnounced(macs[i], dsn, cs[i], token, i);
    }
  }

  predicate AllReadable(macs: seq<string>) {
    forall i :: 0 <= i < |macs| ==> PcieDsnFromMac(macs[i]).Ok?
  }

  /**
   `generate_lan_profiles`; no result stands for a draw that never ends, and the ghost result records the
   random choices.
   */
  method GenerateLanProfiles(macs: seq<string>, token: string, occupied: seq<Network>)
    returns (r: Option<Result<seq<Adapter>>>, ghost choices: seq<Choice>)
    ensures r.None? ==> Exhausted(choices, macs, occupied)
    ensures DrawsEnd(macs, occupied) ==> r.Some?
    ensures r.Some? ==> (r.value.Ok? <==> |macs| <= |Free(occupied)| && AllReadable(macs))
    ensures r.Some? && r.value.Ok? ==> |r.value.value| == |macs| && Records(r.value.value, choices, macs, token)
    ensures r.Some? && r.value.Ok? ==> ChoicesOk(choices, macs, occupied) && AllNew(r.value.value, macs, occupied)
    ensures r.Some? && r.value.Ok? ==> forall i :: 0 <= i < |macs| ==> Announces(r.value.value[i], macs[i], token, i)
  {
    hide Conflicts, Routers, Made, PcieDsnFromMac, LowerAll, RouterMac, Spare, Draws, Gateways, MacsBelow, Reached,
      AllNew, Announces, Exhausted;
    var profiles: seq<Adapter> := [];
    var used := LowerAll(macs);
    choices := [];
    NoGateways();
    var reserved: seq<Network> := [];
    for index := 0 to |macs|
      invariant |profiles| == index && Records(profiles, choices, macs, token) && ChoicesOk(choices, macs, occupied)
      invariant reserved == Subnets(choices)
      invariant used == LowerAll(macs) + Gateways(choices)
    {
      SomeLeft(choices, macs, occupied);
      var third := PickThird(occupied + reserved);
      if third >= THIRDS {
        NoneLeft(choices, occupied);
        return Some(Err(RuntimeError)), choices;
      }
      ConflictsWithReserved(third, choices, occupied);
      var gatewayHost: nat :| gatewayHost in {1, 254};
      var guestHost: nat :| 20 <= guestHost < 240 && guestHost != gatewayHost;
      var router := PickRouter();
      var suffix := PickSuffix(router.oui, used);
      if suffix.None? {
        ReachedMeans(macs, index);
        DrawIsCounted(choices, third, macs, occupied);
        RunIsExhausted(choices, router, macs, occupied);
        return None, choices;
      }
      var choice := Choice(third, gatewayHost, guestHost, router, suffix.value);
      if PcieDsnFromMac(macs[index]).Err? {
        return Some(Err(ValueError)), choices;
      }
      ChoicesGrow(choices, choice, macs, occupied, used);
      GatewaysGrow(choices, choice);
      reserved := reserved + [LanSubnet(third)];
      used := used + {RouterMac(router.oui, suffix.value)};
      profiles := profiles + [Made(macs[index], PcieDsnFromMac(macs[index]).value, choice, token, index)];
      choices := choices + [choice];
    }
    SomeLeft(choices, macs, occupied);
    RecordsAnnounce(profiles, choices, macs, token, occupied);
    ChoicesAreNew(profiles, choices, macs, token, occupied);
    return Some(Ok(profiles)), choices;
  }

  method PickRouter() returns (router: Router)
    ensures router in Routers()
  {
    var i: nat :| i < |Routers()|;
    return Routers()[i];
  }

  lemma RunIsExhausted(cs: seq<Choice>, r: Router, macs: seq<string>, occupied: seq<Network>)
    requires ChoicesOk(cs, macs, occupied) && |cs| < Draws(macs, occupied) && r in Routers()
    requires MacsBelow(r.oui, SUFFIXES) <= LowerAll(macs) + Gateways(cs)
    ensures Exhausted(cs, macs, occupied) && !DrawsEnd(macs, occupied)
  {
    hide Routers, ChoicesOk, Draws, MacsBelow, LowerAll, Gateways, DrawsEnd;
    assert Exhausted(cs, macs, occupied);
    DrawsEndExactly(macs, occupied);
  }

  /** `random_oui_mac`, by its random bytes; without a result where it would draw for ever. */
  method PickSuffix(oui: seq<nat>, excluded: set<string>) returns (suffix: Option<nat>)
    ensures suffix.None? <==> MacsBelow(oui, SUFFIXES) <= excluded
    ensures suffix.Some? ==> suffix.value < SUFFIXES && RouterMac(oui, suffix.value) !in excluded
  {
    hide RouterMac;
    if exists s: nat :: s < SUFFIXES && RouterMac(oui, s) !in excluded {
      var drawn: nat :| drawn < SUFFIXES && RouterMac(oui, drawn) !in excluded;
      assert RouterMac(oui, drawn) in MacsBelow(oui, SUFFIXES);
      return Some(drawn);
    }
    return None;
  }

  lemma ChoicesGrow(cs: seq<Choice>, c: Choice, macs: seq<string>, occupied: seq<Network>, used: set<string>)
    requires ChoicesOk(cs, macs, occupied) && ChoiceOk(c) && !Conflicts(c.third, occupied) && c.third !in Thirds(cs)
    requires used == LowerAll(macs) + Gateways(cs) && GatewayMac(c) !in used
    ensures ChoicesOk(cs + [c], macs, occupied)
  {
    hide Conflicts, Routers, GatewayMac, LowerAll, ChoiceOk;
    assert forall i :: 0 <= i < |cs| ==> GatewayMac(cs[i]) in Gateways(cs);
  }

  lemma NoGateways()
    ensures Gateways([]) == {}
  {
  }

  lemma GatewaysGrow(cs: seq<Choice>, c: Choice)
    ensures Gateways(cs + [c]) == Gateways(cs) + {GatewayMac(c)}
  {
    hide GatewayMac;
    var all := cs + [c];
    assert all[|cs|] == c && forall i :: 0 <= i < |cs| ==> all[i] == cs[i];
    assert GatewayMac(all[|cs|]) in Gateways(all);
    assert forall i :: 0 <= i < |cs| ==> GatewayMac(all[i]) in Gateways(all);
  }
}

/**
 `validate_network_identity` of `04_apply_spoof.py`, and why it accepts what the generator made: the check
 is written independently, and passes for every outcome of the generator's random choices.
 */
module NetworkCheck {
  import opened Outcomes
  import opened Sequences
  import opened Text
  import opened MacAddresses
  import opened Network

  datatype Interface = Interface(model: string, managed: Option<string>)

  predicate NameChar(c: char) {
    'A' <= c <= 'Z' || 'a' <= c <= 'z' || '0' <= c <= '9' || c == '_' || c == '.' || c == '-'
  }

  predicate NameShaped(s: string, limit: nat) {
    1 <= |s| <= limit && forall i :: 0 <= i < |s| ==> NameChar(s[i])
  }

  predicate LabelChar(c: char) {
    'a' <= c <= 'z' || '0' <= c <= '9' || c == '-'
  }

  /** A letter, at most thirty letters, digits or dashes, and a letter or digit. */
  predicate DnsLabel(s: string) {
    && 2 <= |s| <= 32 && 'a' <= s[0] <= 'z' && s[|s| - 1] != '-'
    && forall i :: 0 <= i < |s| ==> LabelChar(s[i])
  }

  /** `validate_lan_services`. */
  predicate ServicesOk(a: Adapter, hostLabel: string) {
    var s := a.services;
    && s.domain == "lan" && DnsLabel(s.hostname) && s.hostname != hostLabel && s.domain != hostLabel
    && s.gatewayAsDns && s.dnsServers == [a.gateway]
    && s.broadcast == Last(a.subnet)
    && 300 <= s.lease <= 604800 && s.isolation == "guest-only"
  }

  predicate Unicast(mac: string) {
    |mac| >= 2 && Value(mac[..2], 16) % 4 == 0
  }

  function ExpectedDsn(mac: string): string {
    var parts := Split(mac, ':');
    if |parts| < 3 then Join(parts + ["ff", "ff"], '-') else Join(parts[..3] + ["ff", "ff"] + parts[3..], '-')
  }

  predicate MacOk(interface: Interface, mac: string, a: Adapter) {
    var m := Lower(mac);
    && interface.model == "i226-v" && MacShaped(m) && Unicast(m)
    && Lower(a.mac) == m && Lower(a.permanentMac) == m && Lower(a.dsn) == ExpectedDsn(m)
  }

  /** The network has no bits set beyond its prefix. */
  predicate Strict(n: Network) {
    n.prefix <= 32 && n.base % Pow2(32 - n.prefix) == 0
  }

  predicate AddressesOk(a: Adapter) {
    && Strict(a.subnet) && a.subnet.prefix == 24
    && Holds(a.subnet, a.address) && Holds(a.subnet, a.dhcpStart) && Holds(a.subnet, a.dhcpEnd)
    && a.dhcpStart <= a.address <= a.dhcpEnd
    && Holds(a.subnet, a.gateway)
    && a.address != a.subnet.base && a.address != Last(a.subnet) && a.address != a.gateway
    && a.gateway != a.subnet.base && a.gateway != Last(a.subnet)
    && a.assignment == "dhcp-reservation" && a.netmask == NETMASK_24
  }

  predicate GatewayOk(a: Adapter) {
    MacShaped(Lower(a.gatewayMac)) && Unicast(Lower(a.gatewayMac))
  }

  predicate NamesOk(interface: Interface, a: Adapter) {
    NameShaped(a.name, 63) && NameShaped(a.bridge, 15) && a.mode == "nat" && interface.managed == Some(a.name)
  }

  /** What an adapter must satisfy by itself. */
  predicate OwnOk(interface: Interface, mac: string, a: Adapter, hostLabel: string) {
    MacOk(interface, mac, a) && AddressesOk(a) && GatewayOk(a) && NamesOk(interface, a) && ServicesOk(a, hostLabel)
  }

  // The values seen in the first adapters.

  function SeenMacs(macs: seq<string>, adapters: seq<Adapter>, k: nat): set<string>
    requires k <= |macs| && k <= |adapters|
  {
    if k == 0 then {} else SeenMacs(macs, adapters, k - 1) + {Lower(macs[k - 1]), Lower(adapters[k - 1].gatewayMac)}
  }

  function SeenDsns(adapters: seq<Adapter>, k: nat): set<string>
    requires k <= |adapters|
  {
    set i | 0 <= i < k :: Lower(adapters[i].dsn)
  }

  function SeenNames(adapters: seq<Adapter>, k: nat): set<string>
    requires k <= |adapters|
  {
    set i | 0 <= i < k :: adapters[i].name
  }

  function SeenBridges(adapters: seq<Adapter>, k: nat): set<string>
    requires k <= |adapters|
  {
    set i | 0 <= i < k :: adapters[i].bridge
  }

  /** Adapter `k` repeats nothing of the adapters before it. */
  predicate NewAt(macs: seq<string>, adapters: seq<Adapter>, k: nat)
    requires k < |macs| == |adapters|
  {
    var a := adapters[k];
    && Lower(macs[k]) !in SeenMacs(macs, adapters, k) && Lower(a.dsn) !in SeenDsns(adapters, k)
    && (forall j :: 0 <= j < k ==> !Overlaps(a.subnet, adapters[j].subnet))
    && Lower(a.gatewayMac) !in SeenMacs(macs, adapters, k) && Lower(a.gatewayMac) != Lower(macs[k])
    && a.name !in SeenNames(adapters, k) && a.bridge !in SeenBridges(adapters, k)
  }

  predicate NetworkOk(interfaces: seq<Interface>, macs: seq<string>, adapters: seq<Adapter>, hostLabel: string) {
    && |interfaces| == |macs| == |adapters|
    && forall k :: 0 <= k < |macs| ==> OwnOk(interfaces[k], macs[k], adapters[k], hostLabel) && NewAt(macs, adapters, k)
  }

  lemma SeenStep(macs: seq<string>, adapters: seq<Adapter>, k: nat)
    requires k < |macs| == |adapters|
    ensures SeenMacs(macs, adapters, k + 1)
            == SeenMacs(macs, adapters, k) + {Lower(macs[k])} + {Lower(adapters[k].gatewayMac)}
    ensures SeenDsns(adapters, k + 1) == SeenDsns(adapters, k) + {Lower(adapters[k].dsn)}
    ensures SeenNames(adapters, k + 1) == SeenNames(adapters, k) + {adapters[k].name}
    ensures SeenBridges(adapters, k + 1) == SeenBridges(adapters, k) + {adapters[k].bridge}
  {
    hide Lower;
  }

  lemma SeenNothing(macs: seq<string>, adapters: seq<Adapter>)
    ensures SeenMacs(macs, adapters, 0) == {} && SeenDsns(adapters, 0) == {} && SeenNames(adapters, 0) == {}
    ensures SeenBridges(adapters, 0) == {}
  {
  }

  lemma BadAt(interfaces: seq<Interface>, macs: seq<string>, adapters: seq<Adapter>, hostLabel: string, k: nat)
    requires |interfaces| == |macs| == |adapters| && k < |macs|
    requires !OwnOk(interfaces[k], macs[k], adapters[k], hostLabel) || !NewAt(macs, adapters, k)
    ensures !NetworkOk(interfaces, macs, adapters, hostLabel)
  {
    hide OwnOk, NewAt;
  }

  /** `validate_network_identity`, from the count check on. */
  method ValidateNetworkIdentity(interfaces: seq<Interface>, macs: seq<string>, adapters: seq<Adapter>,
                                 hostLabel: string)
    returns (r: Result<()>)
    ensures r == if NetworkOk(interfaces, macs, adapters, hostLabel) then Ok(()) else Err(ValueError)
  {
    hide OwnOk, Overlaps, Lower, SeenMacs, SeenDsns, SeenNames, SeenBridges, NetworkOk;
    if |interfaces| != |macs| || |interfaces| != |adapters| {
      CountsDiffer(interfaces, macs, adapters, hostLabel);
      return Err(ValueError);
    }
    SeenNothing(macs, adapters);
    var seenMacs: set<string>, seenDsns: set<string>, seenSubnets: seq<Network> := {}, {}, [];
    var seenNames: set<string>, seenBridges: set<string> := {}, {};
    for k := 0 to |macs|
      invariant seenMacs == SeenMacs(macs, adapters, k) && seenDsns == SeenDsns(adapters, k)
      invariant seenNames == SeenNames(adapters, k) && seenBridges == SeenBridges(adapters, k)
      invariant |seenSubnets| == k && forall j :: 0 <= j < k ==> seenSubnets[j] == adapters[j].subnet
      invariant AllOk(interfaces, macs, adapters, hostLabel, k)
    {
      var a, mac := adapters[k], Lower(macs[k]);
      SeenStep(macs, adapters, k);
      if !OwnOk(interfaces[k], macs[k], a, hostLabel) || mac in seenMacs || Lower(a.dsn) in seenDsns {
        BadAt(interfaces, macs, adapters, hostLabel, k);
        return Err(ValueError);
      }
      if exists j :: 0 <= j < |seenSubnets| && Overlaps(a.subnet, seenSubnets[j]) {
        BadAt(interfaces, macs, adapters, hostLabel, k);
        return Err(ValueError);
      }
      if Lower(a.gatewayMac) in seenMacs + {mac} || a.name in seenNames || a.bridge in seenBridges {
        BadAt(interfaces, macs, adapters, hostLabel, k);
        return Err(ValueError);
      }
      seenMacs, seenDsns := seenMacs + {mac} + {Lower(a.gatewayMac)}, seenDsns + {Lower(a.dsn)};
      seenSubnets := seenSubnets + [a.subnet];
      seenNames, seenBridges := seenNames + {a.name}, seenBridges + {a.bridge};
      OneMoreOk(interfaces, macs, adapters, hostLabel, k);
    }
    AllAreOk(interfaces, macs, adapters, hostLabel);
    return Ok(());
  }

  predicate AllOk(interfaces: seq<Interface>, macs: seq<string>, adapters: seq<Adapter>, hostLabel: string, count: nat)
    requires |interfaces| == |macs| == |adapters| && count <= |macs|
  {
    forall j :: 0 <= j < count ==> OwnOk(interfaces[j], macs[j], adapters[j], hostLabel) && NewAt(macs, adapters, j)
  }

  lemma OneMoreOk(interfaces: seq<Interface>, macs: seq<string>, adapters: seq<Adapter>, hostLabel: string, k: nat)
    requires |interfaces| == |macs| == |adapters| && k < |macs| && AllOk(interfaces, macs, adapters, hostLabel, k)
    requires OwnOk(interfaces[k], macs[k], adapters[k], hostLabel) && NewAt(macs, adapters, k)
    ensures AllOk(interfaces, macs, adapters, hostLabel, k + 1)
  {
    hide OwnOk, NewAt;
  }

  lemma AllAreOk(interfaces: seq<Interface>, macs: seq<string>, adapters: seq<Adapter>, hostLabel: string)
    requires |interfaces| == |macs| == |adapters| && AllOk(interfaces, macs, adapters, hostLabel, |macs|)
    ensures NetworkOk(interfaces, macs, adapters, hostLabel)
  {
    hide OwnOk, NewAt;
  }

  lemma CountsDiffer(interfaces: seq<Interface>, macs: seq<string>, adapters: seq<Adapter>, hostLabel: string)
    requires |interfaces| != |macs| || |interfaces| != |adapters|
    ensures !NetworkOk(interfaces, macs, adapters, hostLabel)
  {
  }

  // ---- The generator's output ----------------------------------------------------------------

  /** A MAC as the generator prints it, with a global unicast prefix. */
  ghost predicate GoodNic(mac: string) {
    exists octets :: IsMac(octets) && octets[0] % 4 == 0 && mac == MacText(octets)
  }

  predicate DistinctMacs(macs: seq<string>) {
    forall i, j :: 0 <= i < j < |macs| ==> macs[i] != macs[j]
  }

  predicate TokenOk(token: string) {
    forall i :: 0 <= i < |token| ==> HexChar(token[i])
  }

  /** The interfaces with the links to their networks that the profile records. */
  function Linked(interfaces: seq<Interface>, adapters: seq<Adapter>): seq<Interface>
    requires |interfaces| == |adapters|
  {
    seq(|interfaces|, i requires 0 <= i < |interfaces| => interfaces[i].(managed := Some(adapters[i].name)))
  }

  lemma UnicastMac(octets: seq<nat>)
    requires IsMac(octets) && octets[0] % 4 == 0
    ensures MacShaped(MacText(octets)) && Lower(MacText(octets)) == MacText(octets) && Unicast(MacText(octets))
  {
    hide MacText, Hex2, Value, MacShaped;
    MacIsShaped(octets);
    ShapedIsLower(MacText(octets));
    Hex2RoundTrip(octets[0]);
    MacLength(MacText(octets));
  }

  lemma SerialTexts(octets: seq<nat>)
    requires |octets| == 6
    ensures Texts(SerialOctets(octets)) == Texts(octets)[..3] + ["ff", "ff"] + Texts(octets)[3..]
  {
    hide Hex2;
    assert Hex2(0xFF) == "ff" by {
      TwoDigits();
    }
  }

  lemma TwoDigits()
    ensures Hex2(0xFF) == "ff"
  {
    assert Numeral(15, 16) == "f";
  }

  /** The serial number that the validator expects of a MAC is the one the generator derives. */
  lemma DsnAgrees(octets: seq<nat>)
    requires IsMac(octets)
    ensures PcieDsnFromMac(MacText(octets)) == Ok(ExpectedDsn(MacText(octets)))
  {
    hide Texts, Split, Join;
    DsnOfMac(octets);
    TextsSplit(octets, ':');
    SerialTexts(octets);
  }

  lemma LowerJoin(parts: seq<string>)
    requires forall i :: 0 <= i < |parts| ==> Lower(parts[i]) == parts[i]
    ensures Lower(Join(parts, '-')) == Join(parts, '-')
  {
    hide Lower;
    DashIsLower();
    if |parts| == 0 {
      NothingIsLower();
    } else if |parts| > 1 {
      LowerJoin(parts[1..]);
      LowerConcat(parts[0], ['-']);
      LowerConcat(parts[0] + ['-'], Join(parts[1..], '-'));
    }
  }

  lemma DashIsLower()
    ensures Lower(['-']) == ['-']
  {
  }

  lemma NothingIsLower()
    ensures Lower("") == ""
  {
  }

  lemma LowerConcat(a: string, b: string)
    ensures Lower(a + b) == Lower(a) + Lower(b)
  {
  }

  lemma DsnIsLower(octets: seq<nat>)
    requires |octets| == 6
    ensures Lower(Join(Texts(SerialOctets(octets)), '-')) == Join(Texts(SerialOctets(octets)), '-')
  {
    hide Hex2, Join;
    var all := SerialOctets(octets);
    forall i | 0 <= i < |all|
      ensures Lower(Texts(all)[i]) == Texts(all)[i]
    {
      Hex2IsLower(all[i]);
    }
    LowerJoin(Texts(all));
  }

  lemma GoodMacPasses(interface: Interface, mac: string, a: Adapter)
    requires GoodNic(mac) && interface.model == "i226-v"
    requires PcieDsnFromMac(mac).Ok? && a.mac == mac && a.permanentMac == mac && a.dsn == PcieDsnFromMac(mac).value
    ensures MacOk(interface, mac, a) && Lower(mac) == mac && Lower(a.dsn) == a.dsn
  {
    hide MacText, ExpectedDsn, PcieDsnFromMac, Join, Texts, Lower, MacShaped, Unicast;
    var octets :| IsMac(octets) && octets[0] % 4 == 0 && mac == MacText(octets);
    UnicastMac(octets);
    DsnAgrees(octets);
    DsnOfMac(octets);
    DsnIsLower(octets);
  }

  lemma GoodAddressesPass(mac: string, dsn: string, c: Choice, token: string, index: nat)
    requires ChoiceOk(c)
    ensures AddressesOk(Made(mac, dsn, c, token, index))
  {
    hide Pow2, GatewayMac, LanServices, Head, Dec, Hex, Routers;
    LanSubnetLast(c.third);
    assert Pow2(32 - 24) == 256;
  }

  lemma GoodGatewayPasses(c: Choice)
    requires ChoiceOk(c)
    ensures MacShaped(GatewayMac(c)) && Lower(GatewayMac(c)) == GatewayMac(c) && Unicast(GatewayMac(c))
  {
    hide MacText, Routers, MacShaped, Unicast, Lower;
    RouterOuis(c.router);
    UnicastMac(c.router.oui + Tail(c.suffix));
  }

  lemma ShorterNumeral(n: nat, base: nat)
    requires 2 <= base <= 16
    ensures |Numeral(n, base)| == if n < base then 1 else 1 + |Numeral(n / base, base)|
  {
  }

  lemma ShortDec(n: nat)
    requires n < 1000
    ensures |Dec(n)| <= 3
  {
    hide Numeral;
    ShorterNumeral(n, 10);
    ShorterNumeral(n / 10, 10);
    ShorterNumeral(n / 10 / 10, 10);
  }

  lemma ShortHex(n: nat)
    requires n < 256
    ensures |Hex(n)| <= 2
  {
    hide Numeral;
    ShorterNumeral(n, 16);
    ShorterNumeral(n / 16, 16);
  }

  lemma HexDigits(s: string, base: nat)
    requires AreDigits(s, base) && base <= 16
    ensures forall i :: 0 <= i < |s| ==> NameChar(s[i])
  {
    forall i | 0 <= i < |s|
      ensures NameChar(s[i])
    {
      assert DigitValue(s[i]) < 16;
    }
  }

  lemma GoodNamesPass(interface: Interface, a: Adapter, token: string, index: nat)
    requires TokenOk(token) && index < 256 && a.mode == "nat" && interface.managed == Some(a.name)
    requires a.name == "lan-" + Head(token) + "-" + Dec(index + 1) && a.bridge == "br" + Head(token) + Hex(index)
    ensures NamesOk(interface, a)
  {
    ShortDec(index + 1);
    ShortHex(index);
    NumeralRoundTrip(index + 1, 10);
    NumeralRoundTrip(index, 16);
    HexDigits(Dec(index + 1), 10);
    HexDigits(Hex(index), 16);
    hide Dec, Hex, AreDigits, Value;
    assert forall i :: 0 <= i < |Head(token)| ==> HexChar(Head(token)[i]);
    NameConcat("lan-", Head(token));
    NameConcat("lan-" + Head(token), "-");
    NameConcat("lan-" + Head(token) + "-", Dec(index + 1));
    NameConcat("br", Head(token));
    NameConcat("br" + Head(token), Hex(index));
  }

  lemma NameConcat(a: string, b: string)
    requires (forall i :: 0 <= i < |a| ==> NameChar(a[i])) && (forall i :: 0 <= i < |b| ==> NameChar(b[i]))
    ensures forall i :: 0 <= i < |a + b| ==> NameChar((a + b)[i])
  {
    hide NameChar;
  }

  lemma PrefixLetters(vendor: string)
    ensures 2 <= |HostnamePrefix(vendor)| <= 7
    ensures forall i :: 0 <= i < |HostnamePrefix(vendor)| ==> 'a' <= HostnamePrefix(vendor)[i] <= 'z'
  {
    var prefix := HostnamePrefix(vendor);
    assert prefix == "tplink" || prefix == "asus" || prefix == "netgear" || prefix == "miwifi" || prefix == "huawei"
           || prefix == "router";
  }

  lemma GoodHostname(vendor: string, mac: string)
    requires MacShaped(mac)
    ensures DnsLabel(HostnamePrefix(vendor) + "-" + MacSuffix(mac))
  {
    hide HostnamePrefix, MacShaped, MacSuffix;
    PrefixLetters(vendor);
    SuffixIsHex(mac);
    var p, s := HostnamePrefix(vendor), MacSuffix(mac);
    var host := p + "-" + s;
    assert host[|host| - 1] == s[3] && HexChar(s[3]);
    forall i | 0 <= i < |host|
      ensures LabelChar(host[i])
    {
      assert i < |p| ==> host[i] == p[i];
      assert i > |p| ==> host[i] == s[i - |p| - 1] && HexChar(s[i - |p| - 1]);
    }
  }

  /** One generated adapter passes its own checks exactly when it does not carry the host's name. */
  lemma GeneratedAdapterPasses(interface: Interface, mac: string, c: Choice, token: string, index: nat,
                               hostLabel: string)
    requires GoodNic(mac) && PcieDsnFromMac(mac).Ok? && ChoiceOk(c) && TokenOk(token) && index < 256
    requires interface.model == "i226-v"
    ensures var a := Made(mac, PcieDsnFromMac(mac).value, c, token, index);
            && (OwnOk(interface.(managed := Some(a.name)), mac, a, hostLabel)
               <==> hostLabel != "lan" && a.services.hostname != hostLabel)
            && Lower(mac) == mac && Lower(a.dsn) == a.dsn && Lower(a.gatewayMac) == a.gatewayMac
  {
    hide MacOk, NamesOk, AddressesOk, GatewayMac, PcieDsnFromMac, Head, Dec, Hex, ChoiceOk, Lower, MacShaped, Unicast,
      DnsLabel, HostnamePrefix;
    var a := Made(mac, PcieDsnFromMac(mac).value, c, token, index);
    var linked := interface.(managed := Some(a.name));
    GoodMacPasses(linked, mac, a);
    GoodAddressesPass(mac, a.dsn, c, token, index);
    GoodGatewayPasses(c);
    GoodNamesPass(linked, a, token, index);
    GoodHostname(c.router.vendor, a.gatewayMac);
  }

  lemma {:induction false} SeenMacsMean(macs: seq<string>, adapters: seq<Adapter>, k: nat, m: string)
    requires k <= |macs| && k <= |adapters| && m in SeenMacs(macs, adapters, k)
    ensures exists j :: 0 <= j < k && (m == Lower(macs[j]) || m == Lower(adapters[j].gatewayMac))
  {
    hide Lower;
    if m != Lower(macs[k - 1]) && m != Lower(adapters[k - 1].gatewayMac) {
      SeenMacsMean(macs, adapters, k - 1, m);
    }
  }

  /** The facts about a run of the generator that the comparisons between adapters need. */
  ghost predicate Generated(adapters: seq<Adapter>, cs: seq<Choice>, macs: seq<string>, token: string,
                            occupied: seq<Network>) {
    && |adapters| == |macs| <= THIRDS && Records(adapters, cs, macs, token) && ChoicesOk(cs, macs, occupied)
    && (forall i :: 0 <= i < |macs| ==> GoodNic(macs[i])) && TokenOk(token)
  }

  lemma AdapterAt(adapters: seq<Adapter>, cs: seq<Choice>, macs: seq<string>, token: string, occupied: seq<Network>,
                  i: nat)
    requires Generated(adapters, cs, macs, token, occupied) && i < |macs|
    ensures var a := adapters[i];
            && Lower(macs[i]) == macs[i] && Lower(a.dsn) == a.dsn && PcieDsnFromMac(macs[i]) == Ok(a.dsn)
            && a.gatewayMac == GatewayMac(cs[i]) && Lower(a.gatewayMac) == a.gatewayMac
            && a.gatewayMac !in LowerAll(macs) && a.subnet == LanSubnet(cs[i].third)
            && a.name == "lan-" + Head(token) + "-" + Dec(i + 1) && a.bridge == "br" + Head(token) + Hex(i)
  {
    hide GoodNic, PcieDsnFromMac, GatewayMac, LowerAll, Lower, Conflicts, Routers, TokenOk, Head, Dec, Hex, OwnOk,
      LanServices;
    GeneratedAdapterPasses(Interface("i226-v", None), macs[i], cs[i], token, i, "lan");
  }

  lemma NicIsUsed(macs: seq<string>, i: nat)
    requires i < |macs|
    ensures Lower(macs[i]) in LowerAll(macs)
  {
    hide LowerAll, Lower;
    LowerAllSize(macs);
  }

  lemma SameDsnSameMac(a: string, b: string)
    requires GoodNic(a) && GoodNic(b) && PcieDsnFromMac(a).Ok? && PcieDsnFromMac(a) == PcieDsnFromMac(b)
    ensures a == b
  {
    hide MacText, PcieDsnFromMac, Split;
    var x :| IsMac(x) && x[0] % 4 == 0 && a == MacText(x);
    var y :| IsMac(y) && y[0] % 4 == 0 && b == MacText(y);
    DsnInjective(a, b);
    ReadsBack(x);
    ReadsBack(y);
  }

  lemma ReadsBack(octets: seq<nat>)
    requires octets != []
    ensures Octets(Split(MacText(octets), ':')) == octets
  {
    hide Texts, Split, Join;
    TextsSplit(octets, ':');
  }

  lemma NamesDiffer(token: string, i: nat, j: nat)
    requires i != j
    ensures "lan-" + Head(token) + "-" + Dec(i + 1) != "lan-" + Head(token) + "-" + Dec(j + 1)
    ensures "br" + Head(token) + Hex(i) != "br" + Head(token) + Hex(j)
  {
    hide Dec, Hex, Head;
    var p, q := "lan-" + Head(token) + "-", "br" + Head(token);
    assert (p + Dec(i + 1))[|p|..] == Dec(i + 1) && (p + Dec(j + 1))[|p|..] == Dec(j + 1);
    assert (q + Hex(i))[|q|..] == Hex(i) && (q + Hex(j))[|q|..] == Hex(j);
    if Dec(i + 1) == Dec(j + 1) {
      DecInjective(i + 1, j + 1);
    }
    if Hex(i) == Hex(j) {
      HexInjective(i, j);
    }
  }

  lemma HexInjective(m: nat, n: nat)
    requires Hex(m) == Hex(n)
    ensures m == n
  {
    NumeralInjective(m, n, 16);
  }

  /** Generated adapters of different cards differ from each other in everything that the validator compares. */
  lemma AdaptersDiffer(adapters: seq<Adapter>, cs: seq<Choice>, macs: seq<string>, token: string,
                       occupied: seq<Network>, j: nat, k: nat)
    requires Generated(adapters, cs, macs, token, occupied) && j < k < |macs| && macs[j] != macs[k]
    ensures var a, b := adapters[k], adapters[j];
            && Lower(macs[k]) != Lower(macs[j]) && Lower(macs[k]) != Lower(b.gatewayMac)
            && Lower(a.gatewayMac) != Lower(macs[j]) && Lower(a.gatewayMac) != Lower(b.gatewayMac)
            && Lower(a.dsn) != Lower(b.dsn) && !Overlaps(a.subnet, b.subnet)
            && a.name != b.name && a.bridge != b.bridge
  {
    hide PcieDsnFromMac, GatewayMac, LowerAll, Lower, Conflicts, Routers, TokenOk, Head, Dec, Hex, Overlaps, GoodNic,
      LanSubnet;
    AdapterAt(adapters, cs, macs, token, occupied, j);
    AdapterAt(adapters, cs, macs, token, occupied, k);
    NicIsUsed(macs, j);
    NicIsUsed(macs, k);
    assert cs[j].third != cs[k].third;
    LanSubnetsApart(cs[k].third, cs[j].third);
    if adapters[k].dsn == adapters[j].dsn {
      SameDsnSameMac(macs[k], macs[j]);
    }
    NamesDiffer(token, j, k);
  }

  lemma SameLengths(adapters: seq<Adapter>, cs: seq<Choice>, macs: seq<string>, token: string, occupied: seq<Network>)
    requires Generated(adapters, cs, macs, token, occupied)
    ensures |adapters| == |macs| == |cs|
  {
  }

  lemma GeneratedIsNew(adapters: seq<Adapter>, cs: seq<Choice>, macs: seq<string>, token: string,
                       occupied: seq<Network>, k: nat)
    requires Generated(adapters, cs, macs, token, occupied) && k < |macs| && DistinctMacs(macs)
    ensures NewAt(macs, adapters, k)
  {
    hide PcieDsnFromMac, GatewayMac, LowerAll, Lower, Overlaps, LanSubnet, Generated, SeenMacs;
    SameLengths(adapters, cs, macs, token, occupied);
    AdapterAt(adapters, cs, macs, token, occupied, k);
    NicIsUsed(macs, k);
    forall j | 0 <= j < k
      ensures Lower(adapters[k].dsn) != Lower(adapters[j].dsn) && !Overlaps(adapters[k].subnet, adapters[j].subnet)
      ensures adapters[k].name != adapters[j].name && adapters[k].bridge != adapters[j].bridge
    {
      AdaptersDiffer(adapters, cs, macs, token, occupied, j, k);
    }
    if Lower(macs[k]) in SeenMacs(macs, adapters, k) {
      SeenMacsMean(macs, adapters, k, Lower(macs[k]));
      var j :| 0 <= j < k && (Lower(macs[k]) == Lower(macs[j]) || Lower(macs[k]) == Lower(adapters[j].gatewayMac));
      AdaptersDiffer(adapters, cs, macs, token, occupied, j, k);
    }
    if Lower(adapters[k].gatewayMac) in SeenMacs(macs, adapters, k) {
      var m := Lower(adapters[k].gatewayMac);
      SeenMacsMean(macs, adapters, k, m);
      var j :| 0 <= j < k && (m == Lower(macs[j]) || m == Lower(adapters[j].gatewayMac));
      AdaptersDiffer(adapters, cs, macs, token, occupied, j, k);
    }
  }

  /** The host goes by another name than the network announces. */
  predicate Unlike(a: Adapter, hostLabel: string) {
    hostLabel != "lan" && a.services.hostname != hostLabel
  }

  /** No adapter announces the host's name. */
  predicate AllUnlike(adapters: seq<Adapter>, hostLabel: string) {
    forall i :: 0 <= i < |adapters| ==> Unlike(adapters[i], hostLabel)
  }

  lemma {:induction false} SeenMacsHave(macs: seq<string>, adapters: seq<Adapter>, k: nat, j: nat)
    requires j < k <= |macs| && k <= |adapters|
    ensures Lower(macs[j]) in SeenMacs(macs, adapters, k)
  {
    hide Lower;
    if j < k - 1 {
      SeenMacsHave(macs, adapters, k - 1, j);
    }
  }

  /** The validator refuses a MAC that occurs twice. */
  lemma RepeatIsRefused(interfaces: seq<Interface>, macs: seq<string>, adapters: seq<Adapter>, hostLabel: string)
    requires |interfaces| == |macs| == |adapters| && !DistinctMacs(macs)
    ensures !NetworkOk(interfaces, macs, adapters, hostLabel)
  {
    hide OwnOk, Lower, Overlaps, SeenMacs, NetworkOk;
    var j, k :| 0 <= j < k < |macs| && macs[j] == macs[k];
    SeenMacsHave(macs, adapters, k, j);
    BadAt(interfaces, macs, adapters, hostLabel, k);
  }

  /**
   Whatever the random choices were, the validator accepts the generated profiles, linked to their
   interfaces, exactly when no two cards drew the same MAC and the host is not called "lan" or like one of
   the generated gateways.
   */
  lemma GeneratedNetworkPasses(
    interfaces: seq<Interface>, adapters: seq<Adapter>, cs: seq<Choice>, macs: seq<string>, token: string,
    occupied: seq<Network>, hostLabel: string)
    requires Generated(adapters, cs, macs, token, occupied) && |interfaces| == |macs|
    requires forall i :: 0 <= i < |interfaces| ==> interfaces[i].model == "i226-v"
    ensures NetworkOk(Linked(interfaces, adapters), macs, adapters, hostLabel)
            <==> DistinctMacs(macs) && AllUnlike(adapters, hostLabel)
  {
    hide OwnOk, NewAt, PcieDsnFromMac, Conflicts, Routers, Made, GoodNic, ChoicesOk, TokenOk;
    if !DistinctMacs(macs) {
      RepeatIsRefused(Linked(interfaces, adapters), macs, adapters, hostLabel);
    } else {
      forall i | 0 <= i < |macs|
        ensures OwnOk(Linked(interfaces, adapters)[i], macs[i], adapters[i], hostLabel)
                <==> Unlike(adapters[i], hostLabel)
        ensures NewAt(macs, adapters, i)
      {
        ChoiceAt(cs, macs, occupied, i);
        GeneratedAdapterPasses(interfaces[i], macs[i], cs[i], token, i, hostLabel);
        GeneratedIsNew(adapters, cs, macs, token, occupied, i);
      }
    }
  }

  const TWIN := MacText([0x3C, 0xFD, 0xFE, 0, 0, 1])
  const TWIN_CHOICES := [Choice(0, 1, 20, Routers()[0], 0), Choice(1, 1, 20, Routers()[0], 1)]

  lemma TwinIsGood()
    ensures GoodNic(TWIN) && Lower(TWIN) == TWIN && PcieDsnFromMac(TWIN).Ok?
  {
    hide MacText, PcieDsnFromMac, Lower;
    var octets: seq<nat> := [0x3C, 0xFD, 0xFE, 0, 0, 1];
    assert IsMac(octets) && octets[0] % 4 == 0;
    UnicastMac(octets);
    GoodNicHasDsn(TWIN);
  }

  lemma TwinIsUsed()
    ensures LowerAll([TWIN, TWIN]) == {TWIN}
  {
    hide MacText, Lower;
    TwinIsGood();
    assert [TWIN, TWIN][..1] == [TWIN] && [TWIN][..0] == [];
    assert LowerAll([TWIN]) == {TWIN};
  }

  lemma FirstRouter(third: nat, suffix: nat)
    requires third < THIRDS && suffix < SUFFIXES
    ensures ChoiceOk(Choice(third, 1, 20, Routers()[0], suffix))
  {
  }

  lemma TwinChoices()
    ensures ChoicesOk(TWIN_CHOICES, [TWIN, TWIN], [])
  {
    hide MacText, RouterMac, ChoiceOk, LowerAll;
    var r := Routers()[0];
    TwinIsUsed();
    FirstRouter(0, 0);
    FirstRouter(1, 1);
    RouterMacDiffers(0);
    RouterMacDiffers(1);
    if RouterMac(r.oui, 0) == RouterMac(r.oui, 1) {
      RouterMacInjective(r.oui, 0, 1);
    }
    assert forall i :: 0 <= i < 2 ==> TWIN_CHOICES[i].third == i && GatewayMac(TWIN_CHOICES[i]) == RouterMac(r.oui, i);
  }

  lemma RouterMacDiffers(suffix: nat)
    ensures RouterMac(Routers()[0].oui, suffix) != TWIN
  {
    hide MacText, Tail;
    var octets: seq<nat> := [0x3C, 0xFD, 0xFE, 0, 0, 1];
    var other := Routers()[0].oui + Tail(suffix);
    assert octets[0] != other[0];
    if MacText(other) == MacText(octets) {
      MacInjective(other, octets);
    }
  }

  /** A run in which both cards draw the same MAC: the generator returns profiles, and no host accepts them. */
  lemma TwinsAreRefused(token: string, interfaces: seq<Interface>, hostLabel: string)
    requires TokenOk(token) && |interfaces| == 2 && forall i :: 0 <= i < 2 ==> interfaces[i].model == "i226-v"
    ensures PcieDsnFromMac(TWIN).Ok?
    ensures var dsn := PcieDsnFromMac(TWIN).value;
      var adapters := [Made(TWIN, dsn, TWIN_CHOICES[0], token, 0), Made(TWIN, dsn, TWIN_CHOICES[1], token, 1)];
      && Generated(adapters, TWIN_CHOICES, [TWIN, TWIN], token, [])
      && !NetworkOk(Linked(interfaces, adapters), [TWIN, TWIN], adapters, hostLabel)
  {
    hide PcieDsnFromMac, Made, ChoicesOk, GoodNic, TokenOk, NetworkOk, Lower;
    TwinIsGood();
    TwinChoices();
    var dsn := PcieDsnFromMac(TWIN).value;
    var adapters := [Made(TWIN, dsn, TWIN_CHOICES[0], token, 0), Made(TWIN, dsn, TWIN_CHOICES[1], token, 1)];
    assert Generated(adapters, TWIN_CHOICES, [TWIN, TWIN], token, []);
    assert [TWIN, TWIN][0] == [TWIN, TWIN][1];
    GeneratedNetworkPasses(interfaces, adapters, TWIN_CHOICES, [TWIN, TWIN], token, [], hostLabel);
  }

  lemma ChoiceAt(cs: seq<Choice>, macs: seq<string>, occupied: seq<Network>, i: nat)
    requires ChoicesOk(cs, macs, occupied) && i < |cs|
    ensures ChoiceOk(cs[i])
  {
    hide ChoiceOk, Conflicts, GatewayMac, LowerAll;
  }

  lemma GoodNicHasDsn(mac: string)
    requires GoodNic(mac)
    ensures PcieDsnFromMac(mac).Ok?
  {
    hide PcieDsnFromMac, MacText;
    var octets :| IsMac(octets) && octets[0] % 4 == 0 && mac == MacText(octets);
    DsnAgrees(octets);
  }

  // ---- The cards of `build_record` -----------------------------------------------------------

  function CardOuis(): seq<seq<nat>> {
    [[0x3C, 0xFD, 0xFE], [0xA8, 0xB8, 0xE0]]
  }

  /** What `random_mac` prints for an I226-V card. */
  ghost predicate CardMac(mac: string) {
    exists octets :: IsMac(octets) && octets[..3] in CardOuis() && mac == MacText(octets)
  }

  lemma CardIsGood(mac: string)
    requires CardMac(mac)
    ensures GoodNic(mac) && Lower(mac) == mac
  {
    hide MacText, Lower;
    var octets :| IsMac(octets) && octets[..3] in CardOuis() && mac == MacText(octets);
    assert octets[..3][0] == octets[0];
    UnicastMac(octets);
  }

  lemma SameOui(octets: seq<nat>, oui: seq<nat>, suffix: nat)
    requires IsMac(octets) && |oui| == 3 && MacText(octets) == RouterMac(oui, suffix)
    ensures octets[..3] == oui
  {
    hide MacText, Tail;
    MacInjective(octets, oui + Tail(suffix));
  }

  lemma VendorsApart(r: Router)
    requires r in Routers()
    ensures |r.oui| == 3 && r.oui !in CardOuis()
  {
    RouterOuis(r);
    assert r.oui[0] != 0x3C && r.oui[0] != 0xA8;
  }

  /** No router vendor prints the MAC of a card. */
  lemma CardIsNoRouter(mac: string, r: Router, suffix: nat)
    requires CardMac(mac) && r in Routers()
    ensures mac != RouterMac(r.oui, suffix)
  {
    hide MacText, RouterMac, Routers, CardOuis;
    var octets :| IsMac(octets) && octets[..3] in CardOuis() && mac == MacText(octets);
    VendorsApart(r);
    if mac == RouterMac(r.oui, suffix) {
      SameOui(octets, r.oui, suffix);
    }
  }

  lemma {:induction false} LowerAllMeans(macs: seq<string>, m: string)
    requires m in LowerAll(macs)
    ensures exists i :: 0 <= i < |macs| && m == Lower(macs[i])
  {
    hide Lower;
    if m != Lower(macs[|macs| - 1]) {
      var front := macs[..|macs| - 1];
      LowerAllMeans(front, m);
      var i :| 0 <= i < |front| && m == Lower(front[i]);
      assert macs[i] == front[i];
    }
  }

  /** For cards of the generator every draw of a gateway MAC ends, however many they are. */
  lemma CardDrawsEnd(macs: seq<string>, occupied: seq<Network>)
    requires forall i :: 0 <= i < |macs| ==> CardMac(macs[i])
    ensures DrawsEnd(macs, occupied)
  {
    hide Routers, Conflicts, CardMac, LowerAll, RouterMac, Lower;
    FreeAtMost(occupied, THIRDS);
    forall r | r in Routers()
      ensures Draws(macs, occupied) <= |Spare(r.oui, macs)|
    {
      CountMacs(r.oui, SUFFIXES);
      forall m | m in MacsBelow(r.oui, SUFFIXES)
        ensures m !in LowerAll(macs)
      {
        if m in LowerAll(macs) {
          var suffix: nat :| suffix < SUFFIXES && m == RouterMac(r.oui, suffix);
          LowerAllMeans(macs, m);
          var i :| 0 <= i < |macs| && m == Lower(macs[i]);
          CardIsGood(macs[i]);
          CardIsNoRouter(macs[i], r, suffix);
        }
      }
      assert Spare(r.oui, macs) == MacsBelow(r.oui, SUFFIXES);
    }
  }

  /**
   The part of `build_record` that makes the profiles and links every interface to its network. It succeeds
   exactly when there are enough free networks, and then the validator accepts the result exactly when the
   cards' MACs are distinct and the host is not called like what the network announces.
   */
  method BuildNetwork(interfaces: seq<Interface>, macs: seq<string>, token: string, occupied: seq<Network>)
    returns (r: Result<(seq<Interface>, seq<Adapter>)>)
    requires |interfaces| == |macs| && TokenOk(token)
    requires forall i :: 0 <= i < |macs| ==> CardMac(macs[i])
    requires forall i :: 0 <= i < |interfaces| ==> interfaces[i].model == "i226-v"
    ensures r.Ok? <==> |macs| <= |Free(occupied)|
    ensures r.Ok? ==> forall hostLabel ::
      NetworkOk(r.value.0, macs, r.value.1, hostLabel) <==> DistinctMacs(macs) && AllUnlike(r.value.1, hostLabel)
  {
    hide PcieDsnFromMac, GoodNic, CardMac, DistinctMacs, TokenOk, Records, ChoicesOk, NetworkOk, Free, DrawsEnd,
      AllNew, Announces;
    CardDrawsEnd(macs, occupied);
    forall i | 0 <= i < |macs|
      ensures PcieDsnFromMac(macs[i]).Ok? && GoodNic(macs[i])
    {
      CardIsGood(macs[i]);
      GoodNicHasDsn(macs[i]);
    }
    var made, choices := GenerateLanProfiles(macs, token, occupied);
    if made.value.Err? {
      return Err(made.value.error);
    }
    var adapters, linked: seq<Interface> := made.value.value, [];
    for i := 0 to |interfaces|
      invariant linked == Linked(interfaces, adapters)[..i]
    {
      linked := linked + [interfaces[i].(managed := Some(adapters[i].name))];
    }
    assert linked == Linked(interfaces, adapters);
    RecordsCount(adapters, choices, macs, token);
    SomeLeft(choices, macs, occupied);
    forall hostLabel
      ensures NetworkOk(linked, macs, adapters, hostLabel) <==> DistinctMacs(macs) && AllUnlike(adapters, hostLabel)
    {
      GeneratedNetworkPasses(interfaces, adapters, choices, macs, token, occupied, hostLabel);
    }
    return Ok((linked, adapters));
  }

  lemma RecordsCount(adapters: seq<Adapter>, cs: seq<Choice>, macs: seq<string>, token: string)
    requires Records(adapters, cs, macs, token)
    ensures |adapters| == |cs|
  {
  }
}

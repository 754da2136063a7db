/** What `validate_network_identity` accepts, in octets and plain numbers. */
module NetworkAccepted {
  import opened Outcomes
  import opened Sequences
  import opened Text
  import opened MacAddresses
  import opened Network
  import opened NetworkCheck

  // ----- texts of octets -----

  predicate AreBytes(octets: seq<nat>) {
    forall i :: 0 <= i < |octets| ==> octets[i] < 256
  }

  /** Two hexadecimal digits for each octet, with a separator between them. */
  predicate Pairs(text: string, octets: seq<nat>, sep: char) {
    && AreBytes(octets) && |text| == 3 * |octets| - 1
    && (forall i :: 0 <= i < |octets| ==> PairAt(text, 3 * i, octets[i]))
    && forall i :: 0 < i < |octets| ==> text[3 * i - 1] == sep
  }

  predicate PairAt(text: string, at: nat, octet: nat) {
    at + 2 <= |text| && octet < 256 && text[at..at + 2] == [DIGITS[octet / 16], DIGITS[octet % 16]]
  }

  lemma OnePair(octet: nat, sep: char)
    requires octet < 256
    ensures Pairs(Hex2(octet), [octet], sep)
  {
    hide Hex2;
    HexDigitsOf(octet);
    var text := Hex2(octet);
    assert text[0..2] == text;
    assert PairAt(text, 3 * 0, [octet][0]);
  }

  lemma MorePairs(octet: nat, text: string, octets: seq<nat>, sep: char)
    requires octet < 256 && Pairs(text, octets, sep) && octets != []
    ensures Pairs(Hex2(octet) + [sep] + text, [octet] + octets, sep)
  {
    hide Hex2;
    HexDigitsOf(octet);
    var all, more := Hex2(octet) + [sep] + text, [octet] + octets;
    forall i | 0 <= i < |more|
      ensures PairAt(all, 3 * i, more[i])
    {
      if i == 0 {
        assert all[0..2] == Hex2(octet);
      } else {
        assert PairAt(text, 3 * (i - 1), octets[i - 1]);
        assert all[3 * i..3 * i + 2] == text[3 * (i - 1)..3 * (i - 1) + 2];
      }
    }
    forall i | 0 < i < |more|
      ensures all[3 * i - 1] == sep
    {
      if i > 1 {
        assert all[3 * i - 1] == text[3 * (i - 1) - 1];
      }
    }
  }

  lemma {:induction false} JoinedPairs(octets: seq<nat>, sep: char)
    requires octets != [] && AreBytes(octets)
    ensures Pairs(Join(Texts(octets), sep), octets, sep)
    decreases |octets|
  {
    hide Hex2, Pairs;
    if |octets| == 1 {
      OnePair(octets[0], sep);
      assert octets == [octets[0]];
    } else {
      JoinedPairs(octets[1..], sep);
      MorePairs(octets[0], Join(Texts(octets[1..]), sep), octets[1..], sep);
      assert octets == [octets[0]] + octets[1..] && Texts(octets)[1..] == Texts(octets[1..]);
    }
  }

  lemma SamePairs(a: string, b: string, octets: seq<nat>, sep: char)
    requires Pairs(a, octets, sep) && Pairs(b, octets, sep)
    ensures a == b
  {
    forall k | 0 <= k < |a|
      ensures a[k] == b[k]
    {
      var i := k / 3;
      if k % 3 == 2 {
        assert a[3 * (i + 1) - 1] == b[3 * (i + 1) - 1];
      } else {
        assert PairAt(a, 3 * i, octets[i]) && PairAt(b, 3 * i, octets[i]);
        assert a[k] == a[3 * i..3 * i + 2][k - 3 * i] && b[k] == b[3 * i..3 * i + 2][k - 3 * i];
      }
    }
  }

  /** A text has the pairs of some octets exactly when it is they printed. */
  lemma PairsMean(text: string, octets: seq<nat>, sep: char)
    requires octets != [] && AreBytes(octets)
    ensures Pairs(text, octets, sep) <==> text == Join(Texts(octets), sep)
  {
    hide Pairs, Texts, Join;
    JoinedPairs(octets, sep);
    if Pairs(text, octets, sep) {
      SamePairs(text, Join(Texts(octets), sep), octets, sep);
    }
  }

  // ----- MAC addresses -----

  lemma DigitOf(c: char)
    requires HexChar(c)
    ensures DigitValue(c) < 16 && DIGITS[DigitValue(c)] == c
  {
  }

  function PairValue(text: string, at: nat): nat
    requires at + 2 <= |text|
  {
    16 * DigitValue(text[at]) + DigitValue(text[at + 1])
  }

  lemma PairHolds(text: string, at: nat)
    requires at + 2 <= |text| && HexChar(text[at]) && HexChar(text[at + 1])
    ensures PairAt(text, at, PairValue(text, at))
  {
    hide DigitValue, HexChar;
    DigitOf(text[at]);
    DigitOf(text[at + 1]);
    var high, low := DigitValue(text[at]), DigitValue(text[at + 1]);
    assert (16 * high + low) / 16 == high && (16 * high + low) % 16 == low;
  }

  lemma ShapedAt(s: string, i: nat)
    requires MacShaped(s) && i < 17
    ensures if i % 3 == 2 then s[i] == ':' else HexChar(s[i])
  {
  }

  lemma ShapedIsMac(s: string) returns (octets: seq<nat>)
    requires MacShaped(s)
    ensures |octets| == 6 && Pairs(s, octets, ':')
  {
    hide HexChar, DigitValue;
    octets := seq(6, i requires 0 <= i < 6 => PairValue(s, 3 * i));
    forall i | 0 <= i < 6
      ensures PairAt(s, 3 * i, octets[i])
    {
      ShapedAt(s, 3 * i);
      ShapedAt(s, 3 * i + 1);
      PairHolds(s, 3 * i);
    }
    forall i | 0 < i < 6
      ensures s[3 * i - 1] == ':'
    {
      ShapedAt(s, 3 * i - 1);
    }
  }

  /** A text is a MAC of these octets. */
  predicate MacOf(text: string, octets: seq<nat>) {
    |octets| == 6 && Pairs(text, octets, ':')
  }

  lemma MacOfMeans(text: string, octets: seq<nat>)
    requires MacOf(text, octets)
    ensures IsMac(octets) && text == MacText(octets) && MacShaped(text) && (Unicast(text) <==> octets[0] % 4 == 0)
  {
    hide Pairs, Join, Texts, MacShaped, Hex2;
    MacBytes(text, octets);
    PairsMean(text, octets, ':');
    MacIsShaped(octets);
    MacLength(text);
    Hex2RoundTrip(octets[0]);
  }

  lemma MacBytes(text: string, octets: seq<nat>)
    requires MacOf(text, octets)
    ensures IsMac(octets) && AreBytes(octets)
  {
  }

  /** The serial number of a MAC: its octets with two of ones between the halves. */
  lemma SerialMeans(mac: string, octets: seq<nat>, dsn: string)
    requires MacOf(mac, octets)
    ensures dsn == ExpectedDsn(mac) <==> Pairs(dsn, octets[..3] + [255, 255] + octets[3..], '-')
  {
    hide Pairs, Join, Texts, MacShaped, ExpectedDsn, PcieDsnFromMac;
    MacBytes(mac, octets);
    MacOfMeans(mac, octets);
    DsnAgrees(octets);
    DsnOfMac(octets);
    PairsMean(dsn, SerialOctets(octets), '-');
  }

  // ----- one adapter -----

  /** The card and its record have one global unicast MAC, and the serial number is made from it. */
  predicate CardSays(mac: string, a: Adapter, octets: seq<nat>) {
    && MacOf(Lower(mac), octets) && octets[0] % 4 == 0
    && Lower(a.mac) == Lower(mac) && Lower(a.permanentMac) == Lower(mac)
    && Pairs(Lower(a.dsn), octets[..3] + [255, 255] + octets[3..], '-')
  }

  predicate GatewaySays(a: Adapter, octets: seq<nat>) {
    MacOf(Lower(a.gatewayMac), octets) && octets[0] % 4 == 0
  }

  /** A network of 256 addresses; gateway and guest differ and are neither its first nor its last. */
  predicate AddressesSay(a: Adapter) {
    var first := a.subnet.base;
    && a.subnet.prefix == 24 && first % 256 == 0 && a.netmask == 0xFFFF_FF00
    && first < a.gateway < first + 255 && first < a.address < first + 255 && a.address != a.gateway
    && first <= a.dhcpStart <= a.address <= a.dhcpEnd <= first + 255 && a.assignment == "dhcp-reservation"
  }

  predicate ServicesSay(a: Adapter, hostLabel: string) {
    var s := a.services;
    && s.domain == "lan" && hostLabel != "lan" && s.hostname != hostLabel
    && 2 <= |s.hostname| <= 32 && 'a' <= s.hostname[0] <= 'z' && s.hostname[|s.hostname| - 1] != '-'
    && (forall i :: 0 <= i < |s.hostname| ==>
          'a' <= s.hostname[i] <= 'z' || '0' <= s.hostname[i] <= '9' || s.hostname[i] == '-')
    && s.gatewayAsDns && s.dnsServers == [a.gateway] && s.broadcast == a.subnet.base + 255
    && 300 <= s.lease <= 604800 && s.isolation == "guest-only"
  }

  predicate Shaped(text: string, limit: nat) {
    && 1 <= |text| <= limit
    && forall i :: 0 <= i < |text| ==>
      'a' <= text[i] <= 'z' || 'A' <= text[i] <= 'Z' || '0' <= text[i] <= '9' || text[i] in "_.-"
  }

  predicate LinkSays(interface: Interface, a: Adapter) {
    && interface.model == "i226-v" && interface.managed == Some(a.name) && a.mode == "nat"
    && Shaped(a.name, 63) && Shaped(a.bridge, 15)
  }

  ghost predicate AdapterSays(interface: Interface, mac: string, a: Adapter, hostLabel: string) {
    && (exists octets :: CardSays(mac, a, octets)) && (exists octets :: GatewaySays(a, octets))
    && AddressesSay(a) && ServicesSay(a, hostLabel) && LinkSays(interface, a)
  }

  lemma CardMeans(interface: Interface, mac: string, a: Adapter)
    ensures MacOk(interface, mac, a) <==> interface.model == "i226-v" && exists octets :: CardSays(mac, a, octets)
  {
    hide Lower, Pairs, MacShaped, Unicast, ExpectedDsn;
    var m := Lower(mac);
    if MacShaped(m) {
      var octets := ShapedIsMac(m);
      MacOfMeans(m, octets);
      SerialMeans(m, octets, Lower(a.dsn));
      assert MacOk(interface, mac, a) ==> CardSays(mac, a, octets);
    }
    forall octets | CardSays(mac, a, octets)
      ensures MacShaped(m) && Unicast(m) && Lower(a.dsn) == ExpectedDsn(m)
    {
      MacOfMeans(m, octets);
      SerialMeans(m, octets, Lower(a.dsn));
    }
  }

  lemma GatewayMeans(a: Adapter)
    ensures GatewayOk(a) <==> exists octets :: GatewaySays(a, octets)
  {
    hide Lower, Pairs, MacShaped, Unicast;
    var m := Lower(a.gatewayMac);
    if MacShaped(m) {
      var octets := ShapedIsMac(m);
      MacOfMeans(m, octets);
      assert GatewayOk(a) ==> GatewaySays(a, octets);
    }
    forall octets | GatewaySays(a, octets)
      ensures MacShaped(m) && Unicast(m)
    {
      MacOfMeans(m, octets);
    }
  }

  lemma TwoFiftySix()
    ensures Pow2(8) == 256
  {
    assert Pow2(2) == 4;
    assert Pow2(4) == 16;
    assert Pow2(6) == 64;
  }

  lemma AddressesMean(a: Adapter, hostLabel: string)
    ensures AddressesOk(a) <==> AddressesSay(a)
    ensures AddressesOk(a) ==> (ServicesOk(a, hostLabel) <==> ServicesSay(a, hostLabel))
  {
    hide Pow2;
    TwoFiftySix();
  }

  lemma NamesMean(interface: Interface, a: Adapter)
    ensures NamesOk(interface, a) && interface.model == "i226-v" <==> LinkSays(interface, a)
  {
    ShapedMeans(a.name, 63);
    ShapedMeans(a.bridge, 15);
  }

  lemma ShapedMeans(text: string, limit: nat)
    ensures NameShaped(text, limit) <==> Shaped(text, limit)
  {
    assert forall c :: c in "_.-" <==> c == '_' || c == '.' || c == '-';
    assert forall i :: 0 <= i < |text| ==> (NameChar(text[i]) <==>
      'a' <= text[i] <= 'z' || 'A' <= text[i] <= 'Z' || '0' <= text[i] <= '9' || text[i] in "_.-");
  }

  lemma AdapterMeans(interface: Interface, mac: string, a: Adapter, hostLabel: string)
    ensures OwnOk(interface, mac, a, hostLabel) <==> AdapterSays(interface, mac, a, hostLabel)
  {
    hide CardSays, GatewaySays, AddressesSay, ServicesSay, LinkSays, AddressesOk, ServicesOk, GatewayOk, NamesOk;
    CardMeans(interface, mac, a);
    GatewayMeans(a);
    AddressesMean(a, hostLabel);
    NamesMean(interface, a);
    assert MacOk(interface, mac, a) ==> interface.model == "i226-v";
    assert LinkSays(interface, a) ==> interface.model == "i226-v" by {
      LinkModel(interface, a);
    }
  }

  lemma LinkModel(interface: Interface, a: Adapter)
    ensures LinkSays(interface, a) ==> interface.model == "i226-v"
  {
  }

  // ----- all adapters -----

  /** Two adapters have nothing in common: card MAC, gateway MAC, serial number, network, name or bridge. */
  predicate Apart(a: Adapter, mac: string, b: Adapter, other: string) {
    && Lower(mac) != Lower(other) && Lower(a.gatewayMac) != Lower(b.gatewayMac)
    && Lower(mac) != Lower(b.gatewayMac) && Lower(a.gatewayMac) != Lower(other)
    && Lower(a.dsn) != Lower(b.dsn) && a.subnet.base != b.subnet.base && a.name != b.name && a.bridge != b.bridge
  }

  predicate AllApart(macs: seq<string>, adapters: seq<Adapter>)
    requires |macs| == |adapters|
  {
    && (forall k :: 0 <= k < |macs| ==> Lower(adapters[k].gatewayMac) != Lower(macs[k]))
    && forall j, k :: 0 <= j < k < |macs| ==> Apart(adapters[k], macs[k], adapters[j], macs[j])
  }

  ghost predicate NetworkSays(interfaces: seq<Interface>, macs: seq<string>, adapters: seq<Adapter>,
                              hostLabel: string) {
    && |interfaces| == |macs| == |adapters| && AllApart(macs, adapters)
    && forall k :: 0 <= k < |macs| ==> AdapterSays(interfaces[k], macs[k], adapters[k], hostLabel)
  }

  lemma {:induction false} SeenMacsAre(macs: seq<string>, adapters: seq<Adapter>, k: nat, m: string)
    requires k <= |macs| == |adapters|
    ensures m in SeenMacs(macs, adapters, k)
       <==> exists j :: 0 <= j < k && (m == Lower(macs[j]) || m == Lower(adapters[j].gatewayMac))
  {
    hide Lower;
    if k > 0 {
      SeenMacsAre(macs, adapters, k - 1, m);
    }
  }

  lemma SubnetsApart(a: Network, b: Network)
    requires a.prefix == 24 && b.prefix == 24 && a.base % 256 == 0 && b.base % 256 == 0
    ensures Overlaps(a, b) <==> a.base == b.base
  {
    hide Pow2;
    TwoFiftySix();
    assert Last(a) == a.base + 255 && Last(b) == b.base + 255;
  }

  /** The adapter repeats nothing of those before it exactly when it is apart from each of them. */
  lemma NewMeans(macs: seq<string>, adapters: seq<Adapter>, k: nat)
    requires k < |macs| == |adapters| && forall j :: 0 <= j <= k ==> AddressesSay(adapters[j])
    ensures NewAt(macs, adapters, k)
       <==> Lower(adapters[k].gatewayMac) != Lower(macs[k])
            && forall j :: 0 <= j < k ==> Apart(adapters[k], macs[k], adapters[j], macs[j])
  {
    hide Lower, Overlaps, SeenMacs;
    SeenMacsAre(macs, adapters, k, Lower(macs[k]));
    SeenMacsAre(macs, adapters, k, Lower(adapters[k].gatewayMac));
    forall j | 0 <= j < k
      ensures Overlaps(adapters[k].subnet, adapters[j].subnet) <==> adapters[k].subnet.base == adapters[j].subnet.base
    {
      SubnetsApart(adapters[k].subnet, adapters[j].subnet);
    }
  }

  /** The validator accepts exactly the networks of which this can be said. */
  lemma AcceptedMeans(interfaces: seq<Interface>, macs: seq<string>, adapters: seq<Adapter>, hostLabel: string)
    ensures NetworkOk(interfaces, macs, adapters, hostLabel) <==> NetworkSays(interfaces, macs, adapters, hostLabel)
  {
    hide OwnOk, NewAt, Apart, AddressesSay;
    if |interfaces| == |macs| == |adapters| {
      forall k | 0 <= k < |macs|
        ensures OwnOk(interfaces[k], macs[k], adapters[k], hostLabel)
           <==> AdapterSays(interfaces[k], macs[k], adapters[k], hostLabel)
      {
        AdapterMeans(interfaces[k], macs[k], adapters[k], hostLabel);
      }
      if forall k :: 0 <= k < |macs| ==> AdapterSays(interfaces[k], macs[k], adapters[k], hostLabel) {
        AllNewMeans(interfaces, macs, adapters, hostLabel);
      }
    }
  }

  lemma AllNewMeans(interfaces: seq<Interface>, macs: seq<string>, adapters: seq<Adapter>, hostLabel: string)
    requires |interfaces| == |macs| == |adapters|
    requires forall k :: 0 <= k < |macs| ==> AdapterSays(interfaces[k], macs[k], adapters[k], hostLabel)
    ensures (forall k :: 0 <= k < |macs| ==> NewAt(macs, adapters, k)) <==> AllApart(macs, adapters)
  {
    hide CardSays, GatewaySays, AddressesSay, ServicesSay, LinkSays, NewAt, Apart, Lower;
    assert forall j :: 0 <= j < |macs| ==> AddressesSay(adapters[j]) by {
      forall j | 0 <= j < |macs|
        ensures AddressesSay(adapters[j])
      {
        assert AdapterSays(interfaces[j], macs[j], adapters[j], hostLabel);
      }
    }
    forall k | 0 <= k < |macs|
      ensures NewAt(macs, adapters, k)
         <==> Lower(adapters[k].gatewayMac) != Lower(macs[k])
              && forall j :: 0 <= j < k ==> Apart(adapters[k], macs[k], adapters[j], macs[j])
    {
      NewMeans(macs, adapters, k);
    }
  }
}

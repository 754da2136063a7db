/** MAC addresses as text, and the PCIe serial number that `pcie_dsn_from_mac` of `01_generate_identity.py` derives. */
module MacAddresses {
  import opened Outcomes
  import opened Sequences
  import opened Text

  predicate IsMac(octets: seq<nat>) {
    |octets| == 6 && forall i :: 0 <= i < 6 ==> octets[i] < 256
  }

  function Texts(octets: seq<nat>): (texts: seq<string>)
    ensures |texts| == |octets|
  {
    seq(|octets|, i requires 0 <= i < |octets| => Hex2(octets[i]))
  }

  function MacText(octets: seq<nat>): string {
    Join(Texts(octets), ':')
  }

  /** `int(value, 16)` of each part, in either case. */
  function Octets(parts: seq<string>): seq<nat> {
    seq(|parts|, i requires 0 <= i < |parts| => Value(Lower(parts[i]), 16))
  }

  predicate AllHex(parts: seq<string>) {
    forall i :: 0 <= i < |parts| ==> AreDigits(Lower(parts[i]), 16)
  }

  /** The serial number layout: two bytes of ones between the halves of the MAC. */
  function SerialOctets(octets: seq<nat>): seq<nat>
    requires |octets| == 6
  {
    octets[..3] + [0xFF, 0xFF] + octets[3..]
  }

  /** `pcie_dsn_from_mac`. */
  function PcieDsnFromMac(mac: string): Result<string> {
    var parts := Split(mac, ':');
    if !AllHex(parts) || |parts| != 6 then Err(ValueError)
    else Ok(Join(Texts(SerialOctets(Octets(parts))), '-'))
  }

  lemma HexHasNone(n: nat, sep: char)
    requires sep == ':' || sep == '-'
    ensures sep !in Hex2(n)
  {
    Hex2RoundTrip(n);
    hide Hex2, Value;
    forall i | 0 <= i < |Hex2(n)|
      ensures Hex2(n)[i] != sep
    {
      assert DigitValue(Hex2(n)[i]) < 16;
    }
  }

  lemma Hex2IsLower(n: nat)
    ensures Lower(Hex2(n)) == Hex2(n)
  {
    Hex2RoundTrip(n);
    hide Hex2, Value;
    forall i | 0 <= i < |Hex2(n)|
      ensures LowerChar(Hex2(n)[i]) == Hex2(n)[i]
    {
      DigitIsPlain(Hex2(n), i);
    }
  }

  lemma TextsSplit(octets: seq<nat>, sep: char)
    requires octets != [] && (sep == ':' || sep == '-')
    ensures Split(Join(Texts(octets), sep), sep) == Texts(octets)
    ensures Octets(Texts(octets)) == octets && AllHex(Texts(octets))
  {
    hide Hex2, Split, Join, Value, AreDigits, Lower;
    forall i | 0 <= i < |octets|
      ensures sep !in Texts(octets)[i] && Lower(Texts(octets)[i]) == Texts(octets)[i]
      ensures Value(Texts(octets)[i], 16) == octets[i] && AreDigits(Texts(octets)[i], 16)
    {
      HexHasNone(octets[i], sep);
      Hex2IsLower(octets[i]);
      Hex2RoundTrip(octets[i]);
    }
    SplitJoin(Texts(octets), sep);
  }

  /** A MAC that was printed reads back, so printing is injective. */
  lemma MacInjective(a: seq<nat>, b: seq<nat>)
    requires a != [] && b != [] && MacText(a) == MacText(b)
    ensures a == b
  {
    hide Texts, Split, Join;
    TextsSplit(a, ':');
    TextsSplit(b, ':');
  }

  /** The serial number determines the octets of the MAC, for every MAC that has one. */
  lemma DsnInjective(a: string, b: string)
    requires PcieDsnFromMac(a).Ok? && PcieDsnFromMac(a) == PcieDsnFromMac(b)
    ensures Octets(Split(a, ':')) == Octets(Split(b, ':'))
  {
    hide Texts, Split, Join, AllHex, Octets;
    var x, y := Octets(Split(a, ':')), Octets(Split(b, ':'));
    SixOctets(Split(a, ':'));
    SixOctets(Split(b, ':'));
    TextsSplit(SerialOctets(x), '-');
    TextsSplit(SerialOctets(y), '-');
    assert x == SerialOctets(x)[..3] + SerialOctets(x)[5..];
    assert y == SerialOctets(y)[..3] + SerialOctets(y)[5..];
  }

  lemma SixOctets(parts: seq<string>)
    ensures |Octets(parts)| == |parts|
  {
  }

  /** The serial number of a printed MAC. */
  lemma DsnOfMac(octets: seq<nat>)
    requires |octets| == 6
    ensures PcieDsnFromMac(MacText(octets)) == Ok(Join(Texts(SerialOctets(octets)), '-'))
  {
    hide Texts, Split, Join, AllHex, Octets;
    TextsSplit(octets, ':');
  }

  // ---- The shape that the validator's pattern asks for ---------------------------------------

  predicate HexChar(c: char) {
    '0' <= c <= '9' || 'a' <= c <= 'f'
  }

  /** `(?:[0-9a-f]{2}:){5}[0-9a-f]{2}`. */
  predicate MacShaped(s: string) {
    |s| == 17 && forall i :: 0 <= i < 17 ==> if i % 3 == 2 then s[i] == ':' else HexChar(s[i])
  }

  lemma HexPair(n: nat)
    requires n < 256
    ensures |Hex2(n)| == 2 && HexChar(Hex2(n)[0]) && HexChar(Hex2(n)[1])
  {
    Hex2RoundTrip(n);
    assert DigitValue(Hex2(n)[0]) < 16 && DigitValue(Hex2(n)[1]) < 16;
  }

  lemma JoinSix(parts: seq<string>, sep: char)
    requires |parts| == 6
    ensures Join(parts, sep)
            == parts[0] + [sep] + parts[1] + [sep] + parts[2] + [sep] + parts[3] + [sep] + parts[4] + [sep] + parts[5]
  {
    var p1 := parts[1..];
    var p2 := p1[1..];
    var p3 := p2[1..];
    var p4 := p3[1..];
    assert p4[1..] == [parts[5]];
    assert Join(p4, sep) == parts[4] + [sep] + parts[5];
    assert Join(p3, sep) == parts[3] + [sep] + Join(p4, sep);
    assert Join(p2, sep) == parts[2] + [sep] + Join(p3, sep);
    assert Join(p1, sep) == parts[1] + [sep] + Join(p2, sep);
  }

  lemma SixPairs(a: string, b: string, c: string, d: string, e: string, f: string, s: string)
    requires |a| == |b| == |c| == |d| == |e| == |f| == 2
    requires s == a + [':'] + b + [':'] + c + [':'] + d + [':'] + e + [':'] + f
    requires forall i :: 0 <= i < 2 ==> HexChar(a[i]) && HexChar(b[i]) && HexChar(c[i])
    requires forall i :: 0 <= i < 2 ==> HexChar(d[i]) && HexChar(e[i]) && HexChar(f[i])
    ensures MacShaped(s) && s[..2] == a
  {
    hide HexChar;
    assert s[0] == a[0] && s[1] == a[1] && s[2] == ':' && s[3] == b[0] && s[4] == b[1] && s[5] == ':';
    assert s[6] == c[0] && s[7] == c[1] && s[8] == ':' && s[9] == d[0] && s[10] == d[1] && s[11] == ':';
    assert s[12] == e[0] && s[13] == e[1] && s[14] == ':' && s[15] == f[0] && s[16] == f[1];
  }

  lemma MacIsShaped(octets: seq<nat>)
    requires IsMac(octets)
    ensures MacShaped(MacText(octets)) && MacText(octets)[..2] == Hex2(octets[0])
  {
    hide Hex2, Join, HexChar;
    forall i | 0 <= i < 6
      ensures |Hex2(octets[i])| == 2 && HexChar(Hex2(octets[i])[0]) && HexChar(Hex2(octets[i])[1])
    {
      HexPair(octets[i]);
    }
    var t := Texts(octets);
    JoinSix(t, ':');
    SixPairs(t[0], t[1], t[2], t[3], t[4], t[5], MacText(octets));
  }

  lemma ShapedIsLower(s: string)
    requires MacShaped(s)
    ensures Lower(s) == s
  {
    forall i | 0 <= i < |s|
      ensures LowerChar(s[i]) == s[i]
    {
      assert i % 3 == 2 || HexChar(s[i]);
    }
  }

  /** `text.replace(":", "")`. */
  function NoColons(s: string): string {
    if s == "" then "" else NoColons(s[..|s| - 1]) + if s[|s| - 1] == ':' then "" else [s[|s| - 1]]
  }

  lemma {:induction false} NoColonsIsHex(s: string, n: nat)
    requires n <= |s| && MacShaped(s)
    ensures |NoColons(s[..n])| == n - n / 3
    ensures forall i :: 0 <= i < |NoColons(s[..n])| ==> HexChar(NoColons(s[..n])[i])
  {
    hide HexChar;
    if n > 0 {
      NoColonsIsHex(s, n - 1);
      assert s[..n][..n - 1] == s[..n - 1];
      PlainOrColon(s, n - 1);
    }
  }

  lemma PlainOrColon(s: string, i: nat)
    requires i < |s| && MacShaped(s)
    ensures s[i] == ':' <==> i % 3 == 2
    ensures i % 3 != 2 ==> HexChar(s[i])
  {
    assert i % 3 != 2 ==> HexChar(s[i]);
  }

  /** The last four characters of a MAC without its colons. */
  function MacSuffix(mac: string): string {
    var plain := NoColons(mac);
    if |plain| <= 4 then plain else plain[|plain| - 4..]
  }

  lemma SuffixIsHex(mac: string)
    requires MacShaped(mac)
    ensures |MacSuffix(mac)| == 4 && forall i :: 0 <= i < 4 ==> HexChar(MacSuffix(mac)[i])
  {
    hide HexChar, MacShaped, NoColons;
    MacLength(mac);
    NoColonsIsHex(mac, 17);
    assert mac[..17] == mac;
  }

  lemma MacLength(mac: string)
    requires MacShaped(mac)
    ensures |mac| == 17
  {
  }

  lemma NoColonsSnoc(s: string, c: char)
    ensures NoColons(s + [c]) == NoColons(s) + if c == ':' then "" else [c]
  {
    assert (s + [c])[..|s|] == s;
  }

  /** The suffix of a MAC is the digits of its last two bytes. */
  lemma SuffixIs(mac: string)
    requires MacShaped(mac)
    ensures |mac| == 17 && MacSuffix(mac) == mac[12..14] + mac[15..17]
  {
    hide NoColons, HexChar;
    assert mac[14] == ':';
    PlainOrColon(mac, 12);
    PlainOrColon(mac, 13);
    PlainOrColon(mac, 15);
    PlainOrColon(mac, 16);
    NoColonsSnoc(mac[..12], mac[12]);
    NoColonsSnoc(mac[..13], mac[13]);
    NoColonsSnoc(mac[..14], mac[14]);
    NoColonsSnoc(mac[..15], mac[15]);
    NoColonsSnoc(mac[..16], mac[16]);
    assert mac[..13] == mac[..12] + [mac[12]] && mac[..14] == mac[..13] + [mac[13]]
           && mac[..15] == mac[..14] + [mac[14]];
    assert mac[..16] == mac[..15] + [mac[15]] && mac == mac[..16] + [mac[16]];
    assert NoColons(mac) == NoColons(mac[..12]) + [mac[12], mac[13], mac[15], mac[16]];
    assert mac[12..14] + mac[15..17] == [mac[12], mac[13], mac[15], mac[16]];
  }
}

/**
 `build_smbios_stream` succeeds on every well-formed profile: every structure is built, every
 handle is new, every reference resolves, and both final validations pass.
 */
module StreamSoundness {
  import opened Outcomes
  import opened Bytes
  import opened Sequences
  import opened Text
  import opened Structures
  import opened Walkers
  import opened RoundTrip
  import opened DimmLayout
  import opened MemorySlots
  import opened MemoryMap
  import opened MemoryTables
  import opened MemoryConservation
  import opened TableRules
  import opened ProfileStream

  // ----- well-formed profiles -----

  predicate PrintableChars(s: string) {
    forall i :: 0 <= i < |s| ==> ' ' <= s[i] <= '~'
  }

  predicate PrintableText(s: string) {
    s != "" && PrintableChars(s)
  }

  predicate AllPrintable(strings: seq<string>) {
    forall i :: 0 <= i < |strings| ==> PrintableText(strings[i])
  }

  predicate WfFixed(p: Profile) {
    && FitsByte(p.platform.biosMajor) && FitsByte(p.platform.biosMinor) && FitsByte(p.platform.chassisType)
    && AllPrintable([p.biosVendor, p.biosVersion, p.biosDate])
    && AllPrintable([p.vendor, p.productName, p.productVersion, p.systemSerial, p.productSku, p.productFamily])
    && AllPrintable([p.platform.boardVendor, p.boardName, p.boardVersion, p.boardSerial, p.identity.boardAsset])
    && AllPrintable([p.platform.chassisVendor, p.chassisVersion, p.chassisSerial,
                     p.identity.chassisAsset, p.identity.chassisSku])
  }

  predicate WfCpu(p: Profile) {
    && FitsByte(p.cpu.family) && FitsByte(p.cpu.upgrade) && FitsByte(p.cpu.voltage) && Fits16(p.cpu.family2)
    && PrintableChars(p.cpu.socket)
    && AllPrintable([p.cpu.vendor, p.cpu.version, p.cpu.serial, p.identity.cpuAsset, p.cpu.part])
  }

  /** A Type 8 structure of nine bytes whose string numbers exist. */
  predicate WfConnector(c: Copied) {
    |c.body| == 5 && AllPrintable(c.strings) && c.body[0] as int <= |c.strings| && c.body[2] as int <= |c.strings|
  }

  /** A Type 9 structure that reaches the bus address and whose string number exists. */
  predicate WfSlot(c: Copied) {
    |c.body| >= 13 && AllPrintable(c.strings) && c.body[0] as int <= |c.strings|
  }

  /** A Type 12 or 13 structure with the layout the final rules demand, or a type that is skipped. */
  predicate WfSupplemental(c: Copied) {
    Skipped(c.kind)
    || (c.kind == 12 && |c.body| == 1 && AllPrintable(c.strings) && c.body[0] as int == |c.strings|)
    || (c.kind == 13 && |c.body| == 18 && AllPrintable(c.strings) && c.body[0] as int == |c.strings|
        && BitAnd(c.body[1], 0xFE) == 0 && (forall k :: 2 <= k < 17 ==> c.body[k] == 0)
        && c.body[17] as int <= |c.strings|)
  }

  predicate WfBattery(b: Battery) {
    && 0 <= b.capacity <= 255 * 0xFFFF
    && Fits16(b.voltage) && Fits16(b.serialNumber) && Fits16(b.dateNumber)
    && AllPrintable([b.manufacturer, b.date, b.serial, b.model, b.chemistry])
  }

  predicate WfMemory(m: MemoryProfile) {
    && ValidateArray(m.sizes, m.limits).Ok? && Q35Ranges(Sum(m.sizes) * MIB).Ok?
    && |m.templates| == m.limits.slots
    && (forall i :: 0 <= i < |m.templates| ==>
          PrintableText(m.templates[i].deviceLocator) && PrintableChars(m.templates[i].bankLocator)
          && FitsByte(m.templates[i].formFactor))
    && |m.parts| == |m.sizes| && |m.serials| == |m.sizes| && |m.assets| == |m.sizes|
    && AllPrintable(m.parts) && AllPrintable(m.serials) && AllPrintable(m.assets) && PrintableText(m.vendor)
    && FitsByte(m.limits.location) && FitsByte(m.limits.use) && FitsByte(m.limits.errorCorrection)
    && FitsByte(m.typeCode) && Fits16(m.speed)
  }

  /** The electrical rules `validate_profile` and `memory_tables` share. */
  predicate Electrical(m: MemoryProfile) {
    m.ratedSpeed == m.speed && VoltageOk(m.minVoltage) && VoltageOk(m.maxVoltage) && VoltageOk(m.configuredVoltage)
  }

  /** What was copied from the host is in order. */
  predicate CopiesOk(p: Profile) {
    && (forall i :: 0 <= i < |p.connectors| ==> WfConnector(p.connectors[i]))
    && (forall i :: 0 <= i < |p.slots| ==> WfSlot(p.slots[i]))
    && (forall i :: 0 <= i < |p.supplemental| ==> WfSupplemental(p.supplemental[i]))
  }

  /**
   The handles counted up from a base stop short of the next one taken: connectors at the slots if there are
   any, both at the OEM strings if there are any, else at the memory array, supplemental records at Type 127.
   */
  predicate HandlesFit(p: Profile) {
    var next := if p.oemStrings != [] then OEM_HANDLE else ARRAY_HANDLE;
    && CONNECTOR_HANDLE + |p.connectors| <= (if p.slots != [] then SLOT_HANDLE else next)
    && SLOT_HANDLE + |p.slots| <= next
    && forall i :: END_OF_TABLE_HANDLE - EXTRA_HANDLE <= i < |p.supplemental| ==> Skipped(p.supplemental[i].kind)
  }

  predicate WfOem(p: Profile) {
    |p.oemStrings| <= 255 && AllPrintable(p.oemStrings)
  }

  /** The profiles for which the builder succeeds, said of their fields. */
  predicate WellFormed(p: Profile) {
    && ProfileValid(p) && WfFixed(p) && WfCpu(p) && CopiesOk(p) && WfOem(p) && WfMemory(p.memory)
    && (p.battery.Some? ==> WfBattery(p.battery.value))
    && HandlesFit(p)
  }

  /** The smallest machine: one socket, one 4 GiB module in the only slot, nothing copied from the host. */
  function Smallest(): Profile {
    Profile(
      true, "V", "V", "1", "D",
      [0, 0, 0, 0, 0, 0, 0, 0, 0, 0, 0, 0, 0, 0, 0, 0], "P", "1", "S", "K", "F",
      "B", "1", "S", "1", "S",
      Cpu(1, 1, 1, 1, 1, 1, 0, 0, 0x8A, 100, 1000, 1000, 1, 4, "U", "V", "1", "S", "P"), [], [], [], [],
      SmallestMemory(), None,
      Platform(1, 0, "V", "V", 3), Identity("A", "A", "K", "A"))
  }

  function SmallestMemory(): MemoryProfile {
    MemoryProfile(
      [SMALL], MemoryArray(3, 3, 3, 4 * GIB, 1), [Template("L", "", 9)], ["P"], ["S"], ["A"],
      "V", 26, 3200, 3200, 1200, 1200, 1200)
  }

  /** There are well-formed profiles. */
  lemma SmallestIsWellFormed()
    ensures WellFormed(Smallest())
  {
    hide WfMemory, WfFixed, WfCpu, ProfileValid;
    SmallestMemoryFits();
    SmallestParts();
  }

  lemma SmallestMemoryFits()
    ensures WfMemory(SmallestMemory())
  {
    var m := SmallestMemory();
    assert m.sizes[1..] == [];
    assert Sum(m.sizes) == SMALL && SMALL * MIB == 4 * GIB;
    assert ValidateArray(m.sizes, m.limits) == Ok(());
  }

  lemma SmallestParts()
    ensures WfFixed(Smallest()) && WfCpu(Smallest()) && ProfileValid(Smallest())
  {
  }

  // ----- one structure -----

  /** A record that may stand before the end of a stream, and meets the rules of its type. */
  predicate Good(r: Record, facts: Facts) {
    && Layable(r) && r.kind != END_OF_TABLE && r.handle < 0xFF00 && PrintableStrings(r.strings)
    && ShapeOk(r.kind, Formatted(r), |r.strings|, facts)
  }

  lemma PrintableIsUsable(s: string)
    requires PrintableText(s)
    ensures Usable(s) && PrintableString(AsciiBytes(s))
  {
    forall i | 0 <= i < |s|
      ensures s[i] != '\0' && s[i] as int < 0x80 && 32 <= s[i] as int <= 126
    {
    }
  }

  /** A printer given printable strings and a body that fits never raises. */
  lemma MadeOk(kind: int, handle: int, body: seq<Byte>, strings: seq<string>)
    requires FitsByte(kind) && Fits16(handle) && |body| + HEADER < 0x100 && AllPrintable(strings)
    ensures Made(kind, handle, body, strings).Ok?
    ensures PrintableStrings(Made(kind, handle, body, strings).value.strings)
  {
    forall i | 0 <= i < |strings|
      ensures Usable(strings[i]) && PrintableString(AsciiBytes(strings[i]))
    {
      PrintableIsUsable(strings[i]);
    }
  }

  /** The formatted area, byte by byte, as header and body. */
  lemma BodyView(r: Record)
    requires Layable(r)
    ensures |Formatted(r)| == |r.body| + HEADER
    ensures forall k :: HEADER <= k < |Formatted(r)| ==> Formatted(r)[k] == r.body[k - HEADER]
  {
    forall k | HEADER <= k < |Formatted(r)|
      ensures Formatted(r)[k] == r.body[k - HEADER]
    {
      FormattedAt(r, k);
    }
  }

  lemma BiosGood(p: Profile)
    requires WfFixed(p)
    ensures BiosTable(p).Ok? && Good(BiosTable(p).value, FactsOf(p))
    ensures BiosTable(p).value.kind == 0 && BiosTable(p).value.handle == 0
  {
    hide Made, Layable, Formatted, PrintableStrings, ShapeOk;
    var body: seq<Byte> := [1, 2, 0, 0, 3, FIRMWARE_SIZE / 65536 - 1, 0x08, 0, 0, 0, 0, 0, 0, 0, 0x01, 0x18,
      p.platform.biosMajor, p.platform.biosMinor, 0xFF, 0xFF, 0, 0];
    MadeOk(0, 0x0000, body, [p.biosVendor, p.biosVersion, p.biosDate]);
    assert body[0] == 1 && body[1] == 2 && body[4] == 3;
    BiosShape(BiosTable(p).value, FactsOf(p));
  }

  lemma BiosShape(r: Record, facts: Facts)
    requires Layable(r) && r.kind == 0 && |r.strings| == 3
    requires |r.body| == 22 && r.body[0] == 1 && r.body[1] == 2 && r.body[4] == 3
    ensures ShapeOk(0, Formatted(r), 3, facts)
  {
    hide Layable, Formatted;
    BodyView(r);
  }

  lemma SystemGood(p: Profile)
    requires WfFixed(p)
    ensures SystemTable(p).Ok? && Good(SystemTable(p).value, FactsOf(p))
    ensures SystemTable(p).value.kind == 1 && SystemTable(p).value.handle == 0x0100
  {
    hide Made, Layable, Formatted, PrintableStrings, SmbiosUuid;
    var head: seq<Byte> := [1, 2, 3, 4];
    var tail: seq<Byte> := [6, 5, 6];
    MadeOk(1, 0x0100, head + SmbiosUuid(p.systemUuid) + tail,
      [p.vendor, p.productName, p.productVersion, p.systemSerial, p.productSku, p.productFamily]);
    BodyView(SystemTable(p).value);
  }

  lemma BoardGood(p: Profile)
    requires WfFixed(p)
    ensures BoardTable(p).Ok? && Good(BoardTable(p).value, FactsOf(p))
    ensures BoardTable(p).value.kind == 2 && BoardTable(p).value.handle == 0x0200
    ensures U16At(Formatted(BoardTable(p).value), 11) == 0x0300
  {
    hide Made, Layable, Formatted, PrintableStrings, ShapeOk;
    var body: seq<Byte> := [1, 2, 3, 4, 5, 0x09, 6, 0x00, 0x03, 0x0A, 0];
    var strings := [p.platform.boardVendor, p.boardName, p.boardVersion, p.boardSerial, p.identity.boardAsset];
    assert PrintableText("Main Board");
    assert AllPrintable(strings + ["Main Board"]) by {
      assert forall i :: 0 <= i < 5 ==> PrintableText(strings[i]);
    }
    assert strings + ["Main Board"]
           == [p.platform.boardVendor, p.boardName, p.boardVersion, p.boardSerial, p.identity.boardAsset, "Main Board"];
    MadeOk(2, 0x0200, body,
      [p.platform.boardVendor, p.boardName, p.boardVersion, p.boardSerial, p.identity.boardAsset, "Main Board"]);
    assert body == [1, 2, 3, 4, 5, 0x09, 6, 0x00, 0x03, 0x0A, 0];
    BoardShape(BoardTable(p).value, FactsOf(p));
  }

  lemma BoardShape(r: Record, facts: Facts)
    requires Layable(r) && r.kind == 2 && |r.strings| == 6 && r.body == [1, 2, 3, 4, 5, 0x09, 6, 0x00, 0x03, 0x0A, 0]
    ensures ShapeOk(2, Formatted(r), 6, facts) && U16At(Formatted(r), 11) == 0x0300
  {
    hide Layable, Formatted;
    BodyView(r);
    assert BitAnd(0x09, 0xE0) == 0;
  }

  lemma ChassisGood(p: Profile)
    requires WfFixed(p)
    ensures ChassisTable(p).Ok? && Good(ChassisTable(p).value, FactsOf(p))
    ensures ChassisTable(p).value.kind == 3 && ChassisTable(p).value.handle == 0x0300
  {
    hide Made, Layable, Formatted, PrintableStrings, ShapeOk;
    var body: seq<Byte> := [1, p.platform.chassisType, 2, 3, 4, 3, 3, 3, 2, 0, 0, 0, 0, 0, 1, 0, 0, 5];
    MadeOk(3, 0x0300, body,
      [p.platform.chassisVendor, p.chassisVersion, p.chassisSerial, p.identity.chassisAsset, p.identity.chassisSku]);
    assert body == [1, p.platform.chassisType, 2, 3, 4, 3, 3, 3, 2, 0, 0, 0, 0, 0, 1, 0, 0, 5];
    ChassisShape(ChassisTable(p).value, p.platform.chassisType, FactsOf(p));
  }

  lemma ChassisShape(r: Record, chassisType: Byte, facts: Facts)
    requires Layable(r) && r.kind == 3 && |r.strings| == 5
    requires r.body == [1, chassisType, 2, 3, 4, 3, 3, 3, 2, 0, 0, 0, 0, 0, 1, 0, 0, 5]
    ensures ShapeOk(3, Formatted(r), 5, facts)
  {
    hide Layable, Formatted;
    BodyView(r);
  }

  lemma DecIsPrintable(n: nat)
    ensures PrintableText(Dec(n))
  {
    NumeralRoundTrip(n, 10);
    forall i | 0 <= i < |Dec(n)|
      ensures ' ' <= Dec(n)[i] <= '~'
    {
      assert DigitValue(Dec(n)[i]) < 10;
    }
  }

  lemma CpuGood(p: Profile, index: nat)
    requires ProfileValid(p) && WfCpu(p) && index < 256
    ensures CpuTable(p, index).Ok? && Good(CpuTable(p, index).value, FactsOf(p))
    ensures var r := CpuTable(p, index).value;
      && r.kind == 4 && r.handle == 0x0400 + index && |r.body| == 44
      && (forall k :: 4 <= k < 12 ==> r.body[k] == 0)
      && U16At(Formatted(r), 26) == 0xFFFF && U16At(Formatted(r), 28) == 0xFFFF && U16At(Formatted(r), 30) == 0xFFFF
  {
    hide Made, Layable, Formatted, PrintableStrings, CpuHead, CpuTail, ShapeOk;
    var cpu := p.cpu;
    DecIsPrintable(index + 1);
    var name := cpu.socket + " " + Dec(index + 1);
    var rest := [cpu.vendor, cpu.version, cpu.serial, p.identity.cpuAsset, cpu.part];
    assert PrintableText(name);
    assert forall i :: 0 <= i < |rest| ==> PrintableText(rest[i]);
    assert [name] + rest == [name, cpu.vendor, cpu.version, cpu.serial, p.identity.cpuAsset, cpu.part];
    assert AllPrintable([name] + rest);
    MadeOk(4, 0x0400 + index, CpuHead(cpu) + CpuTail(cpu), [name] + rest);
    var r := CpuTable(p, index).value;
    CpuShape(cpu, r, FactsOf(p));
  }

  lemma CpuShape(cpu: Cpu, r: Record, facts: Facts)
    requires FitsByte(cpu.family) && FitsByte(cpu.voltage) && FitsByte(cpu.upgrade) && cpu.signature == 0
    requires cpu.features == 0
    requires CountOk(cpu.cores) && CountOk(cpu.enabled) && CountOk(cpu.threads)
    requires Layable(r) && r.kind == 4 && r.body == CpuHead(cpu) + CpuTail(cpu) && |r.strings| == 6
    requires facts.cores == cpu.cores && facts.enabled == cpu.enabled && facts.threads == cpu.threads
    ensures ShapeOk(4, Formatted(r), 6, facts)
    ensures forall k :: 4 <= k < 12 ==> r.body[k] == 0
    ensures U16At(Formatted(r), 26) == 0xFFFF && U16At(Formatted(r), 28) == 0xFFFF && U16At(Formatted(r), 30) == 0xFFFF
  {
    hide Layable, Formatted, CpuHead, CpuTail, Least255;
    CpuBytes(cpu, r);
    assert BitAnd(0x41, 0xB8) == 0 && BitAnd(0x41, 7) == 1;
  }

  /** The bytes of a Type 4 structure that the rules look at. */
  lemma CpuBytes(cpu: Cpu, r: Record)
    requires FitsByte(cpu.family) && FitsByte(cpu.voltage) && FitsByte(cpu.upgrade) && cpu.signature == 0
    requires cpu.features == 0
    requires CountOk(cpu.cores) && CountOk(cpu.enabled) && CountOk(cpu.threads)
    requires Layable(r) && r.body == CpuHead(cpu) + CpuTail(cpu)
    ensures var f := Formatted(r);
      && |f| == 48 && f[4] == 1 && f[7] == 2 && f[16] == 3 && f[24] == 0x41 && f[32] == 4 && f[33] == 5 && f[34] == 6
      && f[35] as int == Least255(cpu.cores) && f[36] as int == Least255(cpu.enabled)
      && f[37] as int == Least255(cpu.threads)
      && U16At(f, 26) == 0xFFFF && U16At(f, 28) == 0xFFFF && U16At(f, 30) == 0xFFFF
      && U16At(f, 42) == cpu.cores && U16At(f, 44) == cpu.enabled && U16At(f, 46) == cpu.threads
    ensures forall k :: 4 <= k < 12 ==> r.body[k] == 0
  {
    hide Layable, Formatted, CpuHead, CpuTail, Least255;
    BodyView(r);
    var f, head, tail := Formatted(r), CpuHead(cpu), CpuTail(cpu);
    assert forall k :: 4 <= k < 24 ==> f[k] == head[k - 4];
    assert forall k :: 24 <= k < 48 ==> f[k] == tail[k - 24];
    CpuHeadBytes(cpu);
    CpuTailBytes(cpu);
    assert f[4] == head[0] && f[7] == head[3] && f[16] == head[12];
    assert U16At(f, 42) == U16At(tail, 18) && U16At(f, 44) == U16At(tail, 20) && U16At(f, 46) == U16At(tail, 22);
    forall k | 4 <= k < 12
      ensures r.body[k] == 0
    {
      assert r.body[k] == head[k];
    }
  }

  lemma CpuTailBytes(cpu: Cpu)
    requires FitsByte(cpu.upgrade) && CountOk(cpu.cores) && CountOk(cpu.enabled) && CountOk(cpu.threads)
    ensures var tail := CpuTail(cpu);
      && tail[0] == 0x41 && (forall k :: 2 <= k < 8 ==> tail[k] == 0xFF) && tail[8] == 4 && tail[9] == 5
      && tail[10] == 6
      && tail[11] as int == Least255(cpu.cores) && tail[12] as int == Least255(cpu.enabled)
      && tail[13] as int == Least255(cpu.threads)
      && U16At(tail, 18) == cpu.cores && U16At(tail, 20) == cpu.enabled && U16At(tail, 22) == cpu.threads
  {
    var tail := CpuTail(cpu);
    Lanes16(cpu.cores);
    Lanes16(cpu.enabled);
    Lanes16(cpu.threads);
    assert tail[2] == 0xFF && tail[3] == 0xFF && tail[4] == 0xFF && tail[5] == 0xFF && tail[6] == 0xFF
           && tail[7] == 0xFF;
  }

  lemma CpuHeadBytes(cpu: Cpu)
    requires FitsByte(cpu.family) && FitsByte(cpu.voltage) && cpu.signature == 0 && cpu.features == 0
    ensures var head := CpuHead(cpu);
      head[0] == 1 && head[3] == 2 && head[12] == 3 && forall k :: 4 <= k < 12 ==> head[k] == 0
  {
    var head := CpuHead(cpu);
    assert head[4] == 0 && head[5] == 0 && head[6] == 0 && head[7] == 0 && head[8] == 0 && head[9] == 0
           && head[10] == 0 && head[11] == 0;
  }

  lemma ConnectorGood(c: Copied, index: nat, facts: Facts)
    requires WfConnector(c) && index < ARRAY_HANDLE - CONNECTOR_HANDLE
    ensures ConnectorTable(c, index).Ok? && Good(ConnectorTable(c, index).value, facts)
    ensures ConnectorTable(c, index).value.kind == 8
    ensures ConnectorTable(c, index).value.handle == CONNECTOR_HANDLE + index
  {
    hide Made, Layable, Formatted, PrintableStrings;
    MadeOk(8, CONNECTOR_HANDLE + index, c.body, c.strings);
    BodyView(ConnectorTable(c, index).value);
  }

  lemma BlankedBody(body: seq<Byte>)
    requires |body| >= 13
    ensures GuestSlotBody(body).Ok?
    ensures var b := GuestSlotBody(body).value;
      && 13 <= |b| <= 15 && b[0] == body[0] && b[3] == 2 && b[9] == 0xFF && b[10] == 0xFF && b[11] == 0xFF
      && b[12] == 0xFF
      && (|b| == 15 ==> b[14] == 0)
      && |b| == (if |body| < 15 then |body| else 15)
      && forall k :: 0 <= k < |b| && k != 3 && !(9 <= k < 13) && k != 14 ==> b[k] == body[k]
  {
  }

  /** Host usage and bus addresses never reach the guest's Type 9 records. */
  lemma SlotGood(c: Copied, index: nat, facts: Facts)
    requires WfSlot(c) && index < ARRAY_HANDLE - SLOT_HANDLE
    ensures SlotTable(c, index).Ok? && Good(SlotTable(c, index).value, facts)
    ensures SlotTable(c, index).value.kind == 9 && SlotTable(c, index).value.handle == SLOT_HANDLE + index
  {
    hide Made, Layable, Formatted, PrintableStrings, GuestSlotBody;
    BlankedBody(c.body);
    MadeOk(9, SLOT_HANDLE + index, GuestSlotBody(c.body).value, c.strings);
    BodyView(SlotTable(c, index).value);
  }

  lemma OemGood(strings: seq<string>, facts: Facts)
    requires |strings| <= 255 && AllPrintable(strings)
    ensures OemTable(strings).Ok? && Good(OemTable(strings).value, facts)
    ensures OemTable(strings).value.kind == 11 && OemTable(strings).value.handle == OEM_HANDLE
  {
    hide Made, Layable, Formatted, PrintableStrings;
    MadeOk(11, OEM_HANDLE, [|strings|], strings);
    BodyView(OemTable(strings).value);
  }

  lemma SupplementalGood(c: Copied, index: nat, facts: Facts)
    requires WfSupplemental(c) && !Skipped(c.kind) && index < END_OF_TABLE_HANDLE - EXTRA_HANDLE
    ensures SupplementalTable(c, index).Ok? && Good(SupplementalTable(c, index).value, facts)
    ensures SupplementalTable(c, index).value.kind as int == c.kind
    ensures SupplementalTable(c, index).value.handle == EXTRA_HANDLE + index
  {
    hide Made, Layable, Formatted, PrintableStrings, BitAnd;
    MadeOk(c.kind, EXTRA_HANDLE + index, c.body, c.strings);
    BodyView(SupplementalTable(c, index).value);
  }

  lemma BatteryGood(b: Battery, facts: Facts)
    requires WfBattery(b)
    ensures BatteryTable(b).Ok? && Good(BatteryTable(b).value, facts)
    ensures BatteryTable(b).value.kind == 22 && BatteryTable(b).value.handle == 0x1600
  {
    hide Made, Layable, Formatted, PrintableStrings, ShapeOk, Multiplier, BatteryBody;
    BatteryFits(b);
    var multiplier := Multiplier(b.capacity);
    var capacity := if b.capacity / multiplier < 0xFFFF then b.capacity / multiplier else 0xFFFF;
    var body := BatteryBody(b, capacity, multiplier);
    BatteryStrings(b);
    BatteryBodyBytes(b, capacity, multiplier);
    MadeOk(22, 0x1600, body, ["Internal Battery", b.manufacturer, b.date, b.serial, b.model, "03.0", b.chemistry]);
    BatteryShape(body, BatteryTable(b).value, facts);
  }

  lemma BatteryStrings(b: Battery)
    requires WfBattery(b)
    ensures AllPrintable(["Internal Battery", b.manufacturer, b.date, b.serial, b.model, "03.0", b.chemistry])
  {
    var strings := [b.manufacturer, b.date, b.serial, b.model, b.chemistry];
    assert PrintableText("Internal Battery") && PrintableText("03.0");
    assert forall i :: 0 <= i < 5 ==> PrintableText(strings[i]);
    assert AllPrintable(["Internal Battery", strings[0], strings[1], strings[2], strings[3], "03.0", strings[4]]);
  }

  lemma BatteryBodyBytes(b: Battery, capacity: int, multiplier: Byte)
    ensures var body := BatteryBody(b, capacity, multiplier);
      body[0] == 1 && body[1] == 2 && body[2] == 3 && body[3] == 4 && body[4] == 5 && body[10] == 6 && body[16] == 7
  {
  }

  lemma BatteryShape(body: seq<Byte>, r: Record, facts: Facts)
    requires |body| == 22 && Layable(r) && r.kind == 22 && r.body == body && |r.strings| == 7
    requires body[0] == 1 && body[1] == 2 && body[2] == 3 && body[3] == 4 && body[4] == 5 && body[10] == 6
    requires body[16] == 7
    ensures ShapeOk(22, Formatted(r), 7, facts)
  {
    hide Layable, Formatted;
    BodyView(r);
  }

  lemma BatteryFits(b: Battery)
    requires WfBattery(b)
    ensures 1 <= Multiplier(b.capacity) <= 255 && 0 <= b.capacity / Multiplier(b.capacity)
  {
  }

  lemma BootGood(facts: Facts)
    ensures BootTable().Ok? && Good(BootTable().value, facts)
    ensures BootTable().value.kind == 32 && BootTable().value.handle == 0x2000
  {
    hide Made, Layable, Formatted, PrintableStrings;
    MadeOk(32, 0x2000, [0, 0, 0, 0, 0, 0, 0], []);
    BodyView(BootTable().value);
  }

  lemma EndGood(facts: Facts)
    ensures EndTable().Ok? && RecordAccepted(EndTable().value, true) && EndTable().value.kind == END_OF_TABLE
    ensures EndTable().value.handle == END_OF_TABLE_HANDLE
    ensures ShapeOk(END_OF_TABLE, Formatted(EndTable().value), 0, facts) && EndTable().value.strings == []
  {
    BodyView(EndTable().value);
  }

  // ----- the memory structures -----

  lemma ArrayGood(m: MemoryProfile, facts: Facts)
    requires WfMemory(m)
    ensures ArrayTable(m, |m.templates|).Ok? && Good(ArrayTable(m, |m.templates|).value, facts)
  {
    hide Made, Layable, Formatted, PrintableStrings;
    var field := CapacityField(m.limits.maximumBytes);
    var extended := if field == CAPACITY_SENTINEL then m.limits.maximumBytes else 0;
    var n := |m.templates|;
    var head: seq<Byte> := [m.limits.location, m.limits.use, m.limits.errorCorrection,
                            B0(field), B1(field), B2(field), B3(field), 0xFE, 0xFF,
               B0(n), B1(n)];
    MadeOk(16, ARRAY_HANDLE, head + Le64(extended), []);
    BodyView(ArrayTable(m, n).value);
  }

  predicate SlotPrintable(slot: Slot) {
    PrintableText(slot.deviceLocator) && PrintableText(slot.bankLocator) && FitsByte(slot.formFactor)
    && 0 <= slot.sizeMib < 0x8000_0000
  }

  lemma SlotIsPrintable(m: MemoryProfile, i: nat)
    requires WfMemory(m) && i < |m.templates|
    ensures SlotPrintable(SlotsOf(m.sizes, m.templates)[i])
  {
    SlotSizeBound(m, i);
    DecIsPrintable(i);
    assert PrintableText("BANK_" + Dec(i));
  }

  lemma DeviceStrings(m: MemoryProfile, slot: Slot, index: nat)
    requires WfMemory(m) && SlotPrintable(slot) && (slot.installed ==> index < |m.sizes|)
    ensures AllPrintable([slot.deviceLocator, slot.bankLocator]
                         + if slot.installed then [m.vendor, m.serials[index], m.assets[index], m.parts[index]] else [])
  {
  }

  lemma DeviceOk(m: MemoryProfile, slot: Slot, index: nat)
    requires WfMemory(m) && SlotPrintable(slot) && (slot.installed ==> index < |m.sizes|) && index < 16
    requires m.ratedSpeed == m.speed && VoltageOk(m.minVoltage) && VoltageOk(m.maxVoltage)
    requires VoltageOk(m.configuredVoltage)
    ensures DeviceTable(m, slot, index).Ok? && PrintableStrings(DeviceTable(m, slot, index).value.strings)
    ensures |DeviceTable(m, slot, index).value.strings| == if slot.installed then 6 else 2
  {
    hide Made, Layable, PrintableStrings, DeviceHead, DeviceMiddle, DeviceTail, AllPrintable, JedecFrom;
    var on := slot.installed;
    DeviceStrings(m, slot, index);
    var body := DeviceHead(slot, if on then m.typeCode else 0, if on then m.speed else 0, if on then m.speed else 0,
        if on then m.minVoltage else 0, if on then m.maxVoltage else 0, if on then m.configuredVoltage else 0)
      + DeviceMiddle(on, if on then JedecFrom(Lower(m.vendor), 0) else 0)
      + DeviceTail(slot.sizeMib, if on then m.speed else 0);
    MadeOk(17, DEVICE_HANDLE + index, body, [slot.deviceLocator, slot.bankLocator]
      + if on then [m.vendor, m.serials[index], m.assets[index], m.parts[index]] else []);
  }

  lemma HeadStrings(slot: Slot, typeCode: Byte, rated: int, speed: int, low: int, high: int, now: int)
    requires FitsByte(slot.formFactor)
    ensures var head := DeviceHead(slot, typeCode, rated, speed, low, high, now);
      && U16At(head, 0) == ARRAY_HANDLE && head[12] == 1 && head[13] == 2
      && (slot.installed ==> head[19] == 3 && head[20] == 4 && head[21] == 5 && head[22] == 6)
      && (!slot.installed ==> head[19] == 0 && head[20] == 0 && head[21] == 0 && head[22] == 0)
  {
  }

  lemma DeviceGood(m: MemoryProfile, slot: Slot, index: nat, facts: Facts)
    requires WfMemory(m) && SlotPrintable(slot) && (slot.installed ==> index < |m.sizes|) && index < 16
    requires m.ratedSpeed == m.speed && VoltageOk(m.minVoltage) && VoltageOk(m.maxVoltage)
    requires VoltageOk(m.configuredVoltage)
    ensures DeviceTable(m, slot, index).Ok? && Good(DeviceTable(m, slot, index).value, facts)
    ensures U16At(Formatted(DeviceTable(m, slot, index).value), 4) == ARRAY_HANDLE
  {
    hide Made, Layable, Formatted, PrintableStrings, DeviceHead, DeviceTable;
    DeviceOk(m, slot, index);
    var r := DeviceTable(m, slot, index).value;
    DeviceBodyOf(m, slot, index, r);
    if slot.installed {
      HeadStrings(slot, m.typeCode, m.ratedSpeed, m.speed, m.minVoltage, m.maxVoltage, m.configuredVoltage);
    } else {
      HeadStrings(slot, 0, 0, 0, 0, 0, 0);
    }
    BodyView(r);
    var f, head := Formatted(r), r.body[..36];
    assert forall k :: 4 <= k < 40 ==> f[k] == head[k - 4];
    assert f[16] == head[12] && f[17] == head[13] && f[23] == head[19] && f[24] == head[20] && f[25] == head[21]
           && f[26] == head[22];
    assert f[43] == r.body[39];
    assert f[4] == head[0] && f[5] == head[1];
  }

  lemma RangeGood(m: MemoryProfile, i: nat, facts: Facts)
    requires WfMemory(m) && i < 2
    ensures var t := RangeTable(Q35Ranges(Sum(m.sizes) * MIB).value[i], i);
      t.Ok? && Good(t.value, facts) && U16At(Formatted(t.value), 12) == ARRAY_HANDLE
  {
    hide Made, Layable, Formatted, PrintableStrings;
    var r := Q35Ranges(Sum(m.sizes) * MIB).value[i];
    FieldsRoundTrip(r.start, r.end);
    var f := AddressFields(r.start, r.end).value;
    var body := FieldBytes(f, [B0(ARRAY_HANDLE), B1(ARRAY_HANDLE), 1]).value;
    MadeOk(19, RANGE_HANDLE + i, body, []);
    BodyView(RangeTable(r, i).value);
    assert body[8] == B0(ARRAY_HANDLE) && body[9] == B1(ARRAY_HANDLE);
  }

  /** A piece whose addresses are aligned and whose device and range exist. */
  predicate PieceFits(piece: Piece, devices: nat) {
    && piece.device < devices <= 16 && piece.mapped < 2
    && 0 <= piece.start <= piece.end <= 0xFFFF_FFFF_FFFF_FFFF && piece.start % 1024 == 0 && (piece.end + 1) % 1024 == 0
  }

  lemma PieceGood(piece: Piece, devices: nat, i: nat, facts: Facts)
    requires PieceFits(piece, devices) && i < 0x100
    ensures var t := PieceTable(piece, i);
      && t.Ok? && Good(t.value, facts)
      && U16At(Formatted(t.value), 12) == DEVICE_HANDLE + piece.device
      && U16At(Formatted(t.value), 14) == RANGE_HANDLE + piece.mapped
  {
    hide Made, Layable, Formatted, PrintableStrings, FieldBytes, AddressFields, U16At;
    FieldsRoundTrip(piece.start, piece.end);
    var f := AddressFields(piece.start, piece.end).value;
    var device, mapped := DEVICE_HANDLE + piece.device, RANGE_HANDLE + piece.mapped;
    PieceBody(f, device, mapped);
    var body := FieldBytes(f, [B0(device), B1(device), B0(mapped), B1(mapped), 1, 0, 0]).value;
    MadeOk(20, PIECE_HANDLE + i, body, []);
    BodyWords(PieceTable(piece, i).value);
  }

  /** The handles in the body of a Type 20 structure. */
  lemma PieceBody(f: Fields, device: int, mapped: int)
    requires Fits32(f.first) && Fits32(f.last) && Fits64(f.extendedFirst) && Fits64(f.extendedLast)
    requires Fits16(device) && Fits16(mapped)
    ensures var body := FieldBytes(f, [B0(device), B1(device), B0(mapped), B1(mapped), 1, 0, 0]);
      body.Ok? && |body.value| == 31 && U16At(body.value, 8) == device && U16At(body.value, 10) == mapped
  {
    hide Le64;
    var body := FieldBytes(f, [B0(device), B1(device), B0(mapped), B1(mapped), 1, 0, 0]).value;
    Lanes16(device);
    Lanes16(mapped);
    assert body[8] == B0(device) && body[9] == B1(device) && body[10] == B0(mapped) && body[11] == B1(mapped);
  }

  lemma BodyWords(r: Record)
    requires Layable(r)
    ensures |Formatted(r)| == |r.body| + HEADER
    ensures forall k :: HEADER <= k < |Formatted(r)| - 1 ==> U16At(Formatted(r), k) == U16At(r.body, k - HEADER)
  {
    hide Layable, Formatted;
    BodyView(r);
  }

  lemma {:induction false} RowIsOverlap(sizes: seq<int>, ranges: seq<Range>, i: nat, m: nat, k: nat)
    requires i < |sizes| && m <= |ranges| && k < |Row(sizes, ranges, i, m)|
    ensures exists j :: 0 <= j < m && Overlap(sizes, ranges, i, j) == [Row(sizes, ranges, i, m)[k]]
    decreases m
  {
    hide Overlap;
    if k < |Row(sizes, ranges, i, m - 1)| {
      RowIsOverlap(sizes, ranges, i, m - 1, k);
    } else {
      OverlapIsLast(sizes, ranges, i, m, k);
    }
  }

  lemma OverlapIsLast(sizes: seq<int>, ranges: seq<Range>, i: nat, m: nat, k: nat)
    requires i < |sizes| && 0 < m <= |ranges| && |Row(sizes, ranges, i, m - 1)| <= k < |Row(sizes, ranges, i, m)|
    ensures Overlap(sizes, ranges, i, m - 1) == [Row(sizes, ranges, i, m)[k]]
  {
    assert Row(sizes, ranges, i, m) == Row(sizes, ranges, i, m - 1) + Overlap(sizes, ranges, i, m - 1);
  }

  lemma {:induction false} PieceIsOverlap(sizes: seq<int>, ranges: seq<Range>, n: nat, k: nat)
    requires n <= |sizes| && k < |Pieces(sizes, ranges, n)|
    ensures exists i, j ::
      0 <= i < n && 0 <= j < |ranges| && Overlap(sizes, ranges, i, j) == [Pieces(sizes, ranges, n)[k]]
    decreases n
  {
    hide Overlap, Row;
    PiecesStep(sizes, ranges, n);
    var front := Pieces(sizes, ranges, n - 1);
    if k < |front| {
      PieceIsOverlap(sizes, ranges, n - 1, k);
    } else {
      RowIsOverlap(sizes, ranges, n - 1, |ranges|, k - |front|);
    }
  }

  lemma {:induction false} DimmOffsetAligned(sizes: seq<int>, i: nat)
    requires i <= |sizes|
    ensures DimmOffset(sizes, i) % 1024 == 0
  {
    if i > 0 {
      DimmOffsetAligned(sizes, i - 1);
    }
  }

  lemma Q35Facts(total: int, ranges: seq<Range>)
    requires Q35Ranges(total) == Ok(ranges)
    ensures |ranges| == 2 && ranges[0].start == 0 && ranges[1].start == 4 * GIB
    ensures RangeOffset(ranges, 0) == 0 && RangeOffset(ranges, 1) == 2 * GIB
    ensures Length(ranges[0]) == 2 * GIB && Length(ranges[1]) == total - 2 * GIB
    ensures total % 1024 == 0 && 4 * GIB <= total <= 512 * GIB
  {
    hide RangeOffset;
    Q35Offsets(total);
    FirstRange(ranges);
    GibAligned(total);
  }

  lemma GibAligned(total: int)
    requires total % (4 * GIB) == 0
    ensures total % 1024 == 0
  {
    var q := total / (4 * GIB);
    assert total == 1024 * (4 * GIB / 1024 * q);
  }

  lemma OverlapFits(sizes: seq<int>, total: int, i: nat, j: nat)
    requires Q35Ranges(total).Ok? && i < |sizes| <= 16 && j < 2 && DimmOffset(sizes, i) >= 0
    requires Overlap(sizes, Q35Ranges(total).value, i, j) != []
    ensures PieceFits(Overlap(sizes, Q35Ranges(total).value, i, j)[0], |sizes|)
  {
    hide RangeOffset, DimmOffset, Q35Ranges, Length, Max, Min;
    var ranges := Q35Ranges(total).value;
    Q35Facts(total, ranges);
    DimmOffsetAligned(sizes, i);
    DimmOffsetAligned(sizes, i + 1);
    OverlapNumbers(DimmOffset(sizes, i), DimmOffset(sizes, i + 1), RangeOffset(ranges, j), Length(ranges[j]),
                   ranges[j].start);
  }

  lemma FirstRange(ranges: seq<Range>)
    ensures RangeOffset(ranges, 0) == 0
  {
  }

  lemma OverlapNumbers(from: int, to: int, offset: int, length: int, base: int)
    requires from >= 0 && from % 1024 == 0 && to % 1024 == 0 && offset % 1024 == 0 && length % 1024 == 0
    requires base % 1024 == 0
    requires 0 <= base && 0 <= offset && base + length <= 0xFFFF_FFFF_FFFF_FFFF
    ensures var first, last := Max(from, offset), Min(to, offset + length);
            first < last ==>
              && 0 <= base + first - offset < base + last - offset <= 0xFFFF_FFFF_FFFF_FFFF
              && (base + first - offset) % 1024 == 0 && (base + last - offset) % 1024 == 0
  {
    var first, last := Max(from, offset), Min(to, offset + length);
    KeepsAlignment(base, first, offset);
    SumAligned(offset, length);
    KeepsAlignment(base, last, offset);
  }

  lemma SumAligned(a: int, b: int)
    requires a % 1024 == 0 && b % 1024 == 0
    ensures (a + b) % 1024 == 0
  {
  }

  lemma KeepsAlignment(base: int, x: int, offset: int)
    requires base % 1024 == 0 && offset % 1024 == 0
    ensures x % 1024 == 0 ==> (base + x - offset) % 1024 == 0
  {
    if x % 1024 == 0 {
      SumAligned(base, x);
      SumAligned(base + x, -offset);
    }
  }

  lemma PiecesFit(m: MemoryProfile, k: nat)
    requires WfMemory(m)
    ensures var pieces := Pieces(m.sizes, Q35Ranges(Sum(m.sizes) * MIB).value, |m.sizes|);
      |pieces| == |m.sizes| + 1 && (k < |pieces| ==> PieceFits(pieces[k], |m.sizes|))
  {
    hide Pieces, Overlap, PieceFits;
    var total := Sum(m.sizes) * MIB;
    var ranges := Q35Ranges(total).value;
    assert forall i :: 0 <= i < |m.sizes| ==> ValidModule(m.sizes[i]);
    Q35Pieces(m.sizes, total);
    if k < |m.sizes| + 1 {
      PieceIsOverlap(m.sizes, ranges, |m.sizes|, k);
      var i, j :| 0 <= i < |m.sizes| && 0 <= j < |ranges|
        && Overlap(m.sizes, ranges, i, j) == [Pieces(m.sizes, ranges, |m.sizes|)[k]];
      DimmOffsetMonotone(m.sizes, 0, i);
      assert |ranges| == 2;
      OverlapFits(m.sizes, total, i, j);
    }
  }

  // ----- segments of the stream -----

  /** What a record refers to, said of its bytes; `devices` is the number of Type 17 records. */
  predicate Linked(r: Record, devices: nat)
    requires Layable(r)
  {
    var f := Formatted(r);
    match r.kind
    case 2 => |f| >= 13 && U16At(f, 11) == 0x0300
    case 4 => |f| >= 32 && U16At(f, 26) == 0xFFFF && U16At(f, 28) == 0xFFFF && U16At(f, 30) == 0xFFFF
    case 17 => |f| >= 6 && U16At(f, 4) == ARRAY_HANDLE
    case 19 => |f| >= 14 && U16At(f, 12) == ARRAY_HANDLE
    case 20 =>
      |f| >= 16 && DEVICE_HANDLE <= U16At(f, 12) < DEVICE_HANDLE + devices
      && RANGE_HANDLE <= U16At(f, 14) < RANGE_HANDLE + 2
    case _ => true
  }

  predicate Fine(r: Record, facts: Facts, devices: nat) {
    Good(r, facts) && Linked(r, devices)
  }

  predicate Ascends(records: seq<Record>, low: int, high: int) {
    && (forall i :: 0 <= i < |records| ==> low <= records[i].handle < high)
    && (forall i, j :: 0 <= i < j < |records| ==> records[i].handle < records[j].handle)
  }

  /** A stretch of the stream: fine records with ascending handles in a window, of known types. */
  predicate Segment(records: seq<Record>, low: int, high: int, kinds: set<Byte>, facts: Facts, devices: nat) {
    && Ascends(records, low, high)
    && (forall i :: 0 <= i < |records| ==> Fine(records[i], facts, devices) && records[i].kind in kinds)
  }

  lemma SegmentsJoin(a: seq<Record>, b: seq<Record>, low: int, mid: int, high: int, ka: set<Byte>, kb: set<Byte>,
                     facts: Facts, devices: nat)
    requires Segment(a, low, mid, ka, facts, devices) && Segment(b, mid, high, kb, facts, devices) && low <= mid <= high
    ensures Segment(a + b, low, high, ka + kb, facts, devices)
  {
    hide Fine;
  }

  lemma SegmentWidens(a: seq<Record>, low: int, high: int, kinds: set<Byte>, facts: Facts, devices: nat, low2: int,
                      high2: int)
    requires Segment(a, low, high, kinds, facts, devices) && low2 <= low && high <= high2
    ensures Segment(a, low2, high2, kinds, facts, devices)
  {
  }

  predicate CallFine(call: Result<Record>, handle: int, kind: Byte, facts: Facts, devices: nat) {
    call.Ok? && Fine(call.value, facts, devices) && call.value.handle == handle && call.value.kind == kind
  }

  /** Calls numbered from a base handle make a segment of one type. */
  lemma NumberedSegment(calls: Calls, base: int, kind: Byte, facts: Facts, devices: nat)
    requires forall i :: 0 <= i < |calls| ==> CallFine(calls[i], base + i, kind, facts, devices)
    ensures Collect(calls).Ok? && |Collect(calls).value| == |calls|
    ensures Segment(Collect(calls).value, base, base + |calls|, {kind}, facts, devices)
    ensures forall i :: 0 <= i < |calls| ==> calls[i] == Ok(Collect(calls).value[i])
  {
    hide Fine;
    CollectOk(calls);
    var records := Collect(calls).value;
    forall i | 0 <= i < |records|
      ensures records[i].handle == base + i && records[i].kind == kind && Fine(records[i], facts, devices)
    {
      assert CallFine(calls[i], base + i, kind, facts, devices);
    }
  }

  lemma FixedSegment(p: Profile, devices: nat)
    requires WfFixed(p)
    ensures Collect(FixedCalls(p)).Ok?
    ensures var records := Collect(FixedCalls(p)).value;
      && |records| == 4 && Segment(records, 0, 0x0400, {0, 1, 2, 3}, FactsOf(p), devices)
      && records[0].kind == 0 && records[1].kind == 1 && records[2].kind == 2 && records[3].kind == 3
      && records[3].handle == 0x0300
  {
    hide Good, BiosTable, SystemTable, BoardTable, ChassisTable, Formatted;
    BiosGood(p);
    SystemGood(p);
    BoardGood(p);
    ChassisGood(p);
    CollectOk(FixedCalls(p));
    GoodShape(BoardTable(p).value, FactsOf(p));
  }

  lemma GoodShape(r: Record, facts: Facts)
    requires Good(r, facts)
    ensures Layable(r) && r.kind as int in MINIMUM && |Formatted(r)| >= MINIMUM[r.kind as int]
  {
  }

  lemma CpuSegment(p: Profile, devices: nat)
    requires ProfileValid(p) && WfCpu(p)
    ensures Collect(CpuCalls(p)).Ok? && |Collect(CpuCalls(p)).value| == p.cpu.sockets
    ensures Segment(Collect(CpuCalls(p)).value, 0x0400, 0x0800, {4}, FactsOf(p), devices)
    ensures forall i :: 0 <= i < p.cpu.sockets ==>
      var r := Collect(CpuCalls(p)).value[i]; |r.body| == 44 && forall k :: 4 <= k < 12 ==> r.body[k] == 0
  {
    hide Good, CpuTable, Formatted, ProfileValid;
    var calls := CpuCalls(p);
    ProfileSockets(p);
    forall i | 0 <= i < |calls|
      ensures CallFine(calls[i], 0x0400 + i, 4, FactsOf(p), devices)
    {
      CpuGood(p, i);
      GoodShape(CpuTable(p, i).value, FactsOf(p));
    }
    NumberedSegment(calls, 0x0400, 4, FactsOf(p), devices);
    SegmentWidens(Collect(calls).value, 0x0400, 0x0400 + |calls|, {4}, FactsOf(p), devices, 0x0400, 0x0800);
    forall i | 0 <= i < p.cpu.sockets
      ensures var r := Collect(calls).value[i]; |r.body| == 44 && forall k :: 4 <= k < 12 ==> r.body[k] == 0
    {
      CpuGood(p, i);
      assert calls[i] == Ok(Collect(calls).value[i]);
    }
  }

  lemma ProfileSockets(p: Profile)
    requires ProfileValid(p)
    ensures 1 <= p.cpu.sockets <= 256 && Sockets(p) == p.cpu.sockets
  {
  }

  lemma ConnectorSegment(p: Profile, devices: nat)
    requires CopiesOk(p) && CONNECTOR_HANDLE + |p.connectors| <= ARRAY_HANDLE
    ensures Collect(ConnectorCalls(p)).Ok?
    ensures Segment(Collect(ConnectorCalls(p)).value, CONNECTOR_HANDLE, CONNECTOR_HANDLE + |p.connectors|,
                    {8}, FactsOf(p), devices)
  {
    hide Good, ConnectorTable, Formatted, WfConnector;
    var calls := ConnectorCalls(p);
    forall i | 0 <= i < |calls|
      ensures CallFine(calls[i], CONNECTOR_HANDLE + i, 8, FactsOf(p), devices)
    {
      ConnectorGood(p.connectors[i], i, FactsOf(p));
      GoodShape(calls[i].value, FactsOf(p));
    }
    NumberedSegment(calls, CONNECTOR_HANDLE, 8, FactsOf(p), devices);
  }

  /** The slots from any handle on that is free, as there may be none. */
  lemma SlotSegment(p: Profile, devices: nat, from: int)
    requires CopiesOk(p) && SLOT_HANDLE + |p.slots| <= ARRAY_HANDLE && (p.slots != [] ==> from <= SLOT_HANDLE)
    ensures Collect(SlotCalls(p)).Ok?
    ensures var to := if p.slots == [] then from else SLOT_HANDLE + |p.slots|;
      Segment(Collect(SlotCalls(p)).value, from, to, {9}, FactsOf(p), devices)
  {
    hide Good, SlotTable, Formatted, WfSlot;
    var calls := SlotCalls(p);
    forall i | 0 <= i < |calls|
      ensures CallFine(calls[i], SLOT_HANDLE + i, 9, FactsOf(p), devices)
    {
      SlotGood(p.slots[i], i, FactsOf(p));
      GoodShape(calls[i].value, FactsOf(p));
    }
    NumberedSegment(calls, SLOT_HANDLE, 9, FactsOf(p), devices);
  }

  lemma OemSegment(p: Profile, devices: nat, from: int)
    requires WfOem(p) && (p.oemStrings != [] ==> from <= OEM_HANDLE)
    ensures Collect(OemCalls(p)).Ok? && |Collect(OemCalls(p)).value| <= 1
    ensures var to := if p.oemStrings == [] then from else OEM_HANDLE + 1;
      Segment(Collect(OemCalls(p)).value, from, to, {11}, FactsOf(p), devices)
  {
    hide Good, OemTable, Formatted;
    var calls := OemCalls(p);
    if p.oemStrings != [] {
      OemGood(p.oemStrings, FactsOf(p));
      GoodShape(OemTable(p.oemStrings).value, FactsOf(p));
    }
    assert forall i :: 0 <= i < |calls| ==> CallFine(calls[i], OEM_HANDLE + i, 11, FactsOf(p), devices);
    NumberedSegment(calls, OEM_HANDLE, 11, FactsOf(p), devices);
  }

  /** Where the handles of the first `n` supplemental records end. */
  function ExtraEnd(n: nat): int {
    if EXTRA_HANDLE + n < END_OF_TABLE_HANDLE then EXTRA_HANDLE + n else END_OF_TABLE_HANDLE
  }

  lemma {:induction false} SupplementalSegment(items: seq<Copied>, n: nat, facts: Facts, devices: nat)
    requires n <= |items|
    requires forall i :: 0 <= i < |items| ==> WfSupplemental(items[i])
    requires forall i :: END_OF_TABLE_HANDLE - EXTRA_HANDLE <= i < |items| ==> Skipped(items[i].kind)
    ensures Collect(SupplementalCalls(items, n)).Ok?
    ensures Segment(Collect(SupplementalCalls(items, n)).value, EXTRA_HANDLE, ExtraEnd(n), {12, 13}, facts, devices)
    decreases n
  {
    hide Good, SupplementalTable, Formatted, WfSupplemental, Segment, Collect;
    if n == 0 {
      EmptySegment(EXTRA_HANDLE, {12, 13}, facts, devices);
      NothingCollected();
    } else {
      SupplementalSegment(items, n - 1, facts, devices);
      var front := SupplementalCalls(items, n - 1);
      if Skipped(items[n - 1].kind) {
        assert SupplementalCalls(items, n) == front;
        SegmentWidens(Collect(front).value, EXTRA_HANDLE, ExtraEnd(n - 1), {12, 13}, facts, devices, EXTRA_HANDLE,
                      ExtraEnd(n));
      } else {
        var one := [SupplementalTable(items[n - 1], n - 1)];
        OneSupplemental(items[n - 1], n - 1, facts, devices);
        CollectAppend(front, one);
        SegmentsJoin(Collect(front).value, Collect(one).value, EXTRA_HANDLE, ExtraEnd(n - 1), ExtraEnd(n),
                     {12, 13}, {12, 13}, facts, devices);
        assert {12, 13} + {12, 13} == {12, 13};
      }
    }
  }

  lemma OneSupplemental(c: Copied, index: nat, facts: Facts, devices: nat)
    requires WfSupplemental(c) && !Skipped(c.kind) && index < END_OF_TABLE_HANDLE - EXTRA_HANDLE
    ensures Collect([SupplementalTable(c, index)]).Ok?
    ensures Segment(Collect([SupplementalTable(c, index)]).value, EXTRA_HANDLE + index, EXTRA_HANDLE + index + 1,
                    {12, 13}, facts, devices)
  {
    hide Good, SupplementalTable, Formatted, WfSupplemental, Segment, Collect;
    SupplementalGood(c, index, facts);
    SupplementalKind(c, index);
    GoodShape(SupplementalTable(c, index).value, facts);
    SingleSegment(SupplementalTable(c, index), EXTRA_HANDLE + index, {12, 13}, facts, devices);
  }

  lemma NothingCollected()
    ensures Collect([]) == Ok([])
  {
  }

  lemma EmptySegment(low: int, kinds: set<Byte>, facts: Facts, devices: nat)
    ensures Segment([], low, low, kinds, facts, devices)
  {
  }

  lemma SingleSegment(call: Result<Record>, handle: int, kinds: set<Byte>, facts: Facts, devices: nat)
    requires call.Ok? && Fine(call.value, facts, devices) && call.value.handle == handle && call.value.kind in kinds
    ensures Collect([call]) == Ok([call.value])
    ensures Segment([call.value], handle, handle + 1, kinds, facts, devices)
  {
    hide Fine;
    CollectOk([call]);
    assert Collect([call]).value == [call.value];
  }

  lemma SupplementalKind(c: Copied, index: nat)
    requires SupplementalTable(c, index).Ok?
    ensures c.kind == 12 || c.kind == 13
  {
  }

  lemma MemorySegments(p: Profile)
    requires WellFormed(p)
    ensures MemoryRecords(p.memory).Ok?
    ensures var m, records := p.memory, MemoryRecords(p.memory).value; var n := |m.templates|;
      && Segment(records, 0x1000, 0x1500, {16, 17, 19, 20}, FactsOf(p), n)
      && 4 + n <= |records| && n == m.limits.slots
      && (forall i ::
           0 <= i < |records| ==> records[i].kind == MemoryKind(n, i) && records[i].handle == MemoryHandle(n, i))
  {
    hide Fine, ArrayTable, DeviceTable, RangeTable, PieceTable, Pieces, WfFixed, WfCpu, CopiesOk, WfOem, WfBattery,
      HandlesFit, ProfileValid, MemoryCalls, MemoryKind, MemoryHandle, WfMemory;
    var m := p.memory;
    var n := |m.templates|;
    WellFormedGuards(m);
    var ranges := Q35Ranges(Sum(m.sizes) * MIB).value;
    var slots := SlotsOf(m.sizes, m.templates);
    var pieces := Pieces(m.sizes, ranges, |m.sizes|);
    ElectricalIsValid(p);
    MemoryCallsFine(m, FactsOf(p));
    CollectOk(MemoryCalls(m, ranges, slots));
    var calls := MemoryCalls(m, ranges, slots);
    var records := Collect(calls).value;
    KindsAndHandles(n);
    forall i | 0 <= i < |records|
      ensures records[i].handle == MemoryHandle(n, i) && records[i].kind == MemoryKind(n, i)
      ensures Fine(records[i], FactsOf(p), n)
    {
      assert CallFine(calls[i], MemoryHandle(n, i), MemoryKind(n, i), FactsOf(p), n);
    }
  }

  /** The memory handles rise with the position, in their window. */
  lemma KindsAndHandles(n: nat)
    requires n <= 16
    ensures forall i :: 0 <= i < 4 + n + 16 ==> MemoryKind(n, i) in {16, 17, 19, 20}
    ensures forall i :: 0 <= i < 4 + n + 16 ==> 0x1000 <= MemoryHandle(n, i) < 0x1500
    ensures forall i, j :: 0 <= i < j < 4 + n + 16 ==> MemoryHandle(n, i) < MemoryHandle(n, j)
  {
  }

  lemma ElectricalIsValid(p: Profile)
    requires ProfileValid(p)
    ensures Electrical(p.memory)
  {
  }

  /**
   Speeds have an extended 32-bit field, and the range check lets 32 bits through, but the rated
   speed is packed into 16 bits: with everything else in order, `memory_tables` fails exactly for
   speeds above 0xFFFF.
   */
  lemma SpeedLimit(m: MemoryProfile)
    requires WfMemory(m.(speed := 0)) && Electrical(m) && Fits32(m.speed)
    ensures MemoryRecords(m).Ok? <==> m.speed <= 0xFFFF
  {
    hide Good, ArrayTable, DeviceTable, RangeTable, PieceTable, Pieces, Linked, Formatted, MemoryRecords;
    WellFormedGuards(m.(speed := 0));
    if m.speed <= 0xFFFF {
      MemoryCallsFine(m, Facts(0, 0, 0, 0, 0, false));
      CallsCollect(m);
    } else if MemoryRecords(m).Ok? {
      MemoryShape(m, MemoryRecords(m).value);
      DeviceSpeed(m, SlotsOf(m.sizes, m.templates)[0], 0);
    }
  }

  /** A profile in order but for a speed that needs the extended field: it cannot be packed. */
  lemma SpeedIsRefused()
    ensures MemoryRecords(SmallestMemory().(speed := 0x10000, ratedSpeed := 0x10000)).Err?
  {
    hide MemoryRecords, WfMemory;
    var m := SmallestMemory().(speed := 0x10000, ratedSpeed := 0x10000);
    SmallestMemoryFits();
    SpeedAside(SmallestMemory(), m.(speed := 0));
    SpeedLimit(m);
  }

  lemma SpeedAside(m: MemoryProfile, n: MemoryProfile)
    requires n == m.(speed := n.speed, ratedSpeed := n.ratedSpeed) && Fits16(n.speed) && WfMemory(m)
    ensures WfMemory(n)
  {
    hide ValidateArray, Q35Ranges, AllPrintable, PrintableText, PrintableChars;
  }

  lemma CallsCollect(m: MemoryProfile)
    requires WfMemory(m)
    requires var calls := MemoryCalls(m, Q35Ranges(Sum(m.sizes) * MIB).value, SlotsOf(m.sizes, m.templates));
      forall i :: 0 <= i < |calls| ==> calls[i].Ok?
    ensures MemoryRecords(m).Ok?
  {
    hide MemoryCalls;
    WellFormedGuards(m);
    CollectOk(MemoryCalls(m, Q35Ranges(Sum(m.sizes) * MIB).value, SlotsOf(m.sizes, m.templates)));
  }

  lemma DeviceSpeed(m: MemoryProfile, slot: Slot, index: nat)
    requires slot.installed && DeviceTable(m, slot, index).Ok?
    ensures m.speed <= 0xFFFF
  {
  }

  /** The handle and type at a position of the memory structures, with `n` slots. */
  function MemoryHandle(n: nat, i: nat): int {
    if i == 0 then ARRAY_HANDLE
    else if i < 1 + n then DEVICE_HANDLE + (i - 1)
    else if i < 3 + n then RANGE_HANDLE + (i - 1 - n)
    else PIECE_HANDLE + (i - 3 - n)
  }

  function MemoryKind(n: nat, i: nat): Byte {
    if i == 0 then 16 else if i < 1 + n then 17 else if i < 3 + n then 19 else 20
  }

  lemma WellFormedGuards(m: MemoryProfile)
    requires WfMemory(m)
    ensures |m.sizes| <= |m.templates| == m.limits.slots <= 16 && |m.sizes| >= 1
    ensures Q35Ranges(Sum(m.sizes) * MIB).Ok? && |Q35Ranges(Sum(m.sizes) * MIB).value| == 2
    ensures GuestSlotsOf(m.sizes, m.templates, m.limits) == Ok(SlotsOf(m.sizes, m.templates))
    ensures ValidateArray(m.sizes, m.limits).Ok?
    ensures |m.parts| == |m.sizes| && |m.serials| == |m.sizes| && |m.assets| == |m.sizes|
  {
    assert forall i :: 0 <= i < |m.templates| ==> PrintableText(m.templates[i].deviceLocator);
  }

  lemma MemoryCallsFine(m: MemoryProfile, facts: Facts)
    requires WfMemory(m) && Electrical(m)
    ensures var n := |m.templates|;
      Q35Ranges(Sum(m.sizes) * MIB).Ok? &&
      var calls := MemoryCalls(m, Q35Ranges(Sum(m.sizes) * MIB).value, SlotsOf(m.sizes, m.templates));
      && |calls| == 4 + n + |m.sizes|
      && forall i :: 0 <= i < |calls| ==> CallFine(calls[i], MemoryHandle(n, i), MemoryKind(n, i), facts, n)
  {
    hide Good, ArrayTable, DeviceTable, RangeTable, PieceTable, Pieces, Formatted, WfMemory;
    var n := |m.templates|;
    WellFormedGuards(m);
    var ranges := Q35Ranges(Sum(m.sizes) * MIB).value;
    var slots := SlotsOf(m.sizes, m.templates);
    var pieces := Pieces(m.sizes, ranges, |m.sizes|);
    var calls := MemoryCalls(m, ranges, slots);
    PiecesFit(m, 0);
    forall i | 0 <= i < |calls|
      ensures CallFine(calls[i], MemoryHandle(n, i), MemoryKind(n, i), facts, n)
    {
      if i == 0 {
        ArrayGood(m, facts);
      } else if i < 1 + n {
        var k := i - 1;
        assert calls[i] == DeviceTable(m, slots[k], k);
        SlotIsPrintable(m, k);
        DeviceGood(m, slots[k], k, facts);
        GoodShape(calls[i].value, facts);
      } else if i < 3 + n {
        var k := i - 1 - n;
        assert calls[i] == RangeTable(ranges[k], k);
        RangeGood(m, k, facts);
        GoodShape(calls[i].value, facts);
      } else {
        var k := i - 3 - n;
        assert calls[i] == PieceTable(pieces[k], k);
        PiecesFit(m, k);
        PieceGood(pieces[k], |m.sizes|, k, facts);
        GoodShape(calls[i].value, facts);
      }
    }
  }

  lemma BackSegment(p: Profile, devices: nat)
    requires p.battery.Some? ==> WfBattery(p.battery.value)
    ensures Collect(BackCalls(p)).Ok?
    ensures var records := Collect(BackCalls(p)).value;
      && |records| == (if p.battery.Some? then 3 else 2)
      && Segment(records[..|records| - 1], 0x1500, 0x2001, {22, 32}, FactsOf(p), devices)
      && (p.battery.Some? ==> records[0].kind == 22)
      && records[|records| - 2].kind == 32
      && records[|records| - 1] == EndTable().value && EndTable().Ok?
  {
    hide Good, BatteryTable, BootTable, EndTable, Formatted;
    BootGood(FactsOf(p));
    EndGood(FactsOf(p));
    if p.battery.Some? {
      BatteryGood(p.battery.value, FactsOf(p));
      GoodShape(BatteryTable(p.battery.value).value, FactsOf(p));
    }
    GoodShape(BootTable().value, FactsOf(p));
    CollectOk(BackCalls(p));
  }

  // ----- the whole stream -----

  /** The first stretch: four fixed structures, the processors with zeroed IDs, then Types 8, 9 and 11. */
  predicate LowShape(low: seq<Record>, sockets: int) {
    && |low| >= 4 + sockets >= 5
    && low[0].kind == 0 && low[1].kind == 1 && low[2].kind == 2 && low[3].kind == 3 && low[3].handle == 0x0300
    && (forall i :: 4 <= i < 4 + sockets ==> low[i].kind == 4 && ZeroId(low[i]))
    && (forall i :: 4 + sockets <= i < |low| ==> low[i].kind in {8, 9, 11} && (low[i].kind == 11 ==> i == |low| - 1))
  }

  predicate ZeroId(r: Record) {
    |r.body| == 44 && forall k :: 4 <= k < 12 ==> r.body[k] == 0
  }

  /** The last stretch: the memory structures at their places, a battery if there is one, and Type 32. */
  predicate TailShape(tail: seq<Record>, n: nat, battery: bool) {
    var last := if battery then 2 else 1;
    && 4 + n + last <= |tail|
    && (forall i :: 0 <= i < |tail| - last ==> tail[i].kind == MemoryKind(n, i) && tail[i].handle == MemoryHandle(n, i))
    && tail[|tail| - 1].kind == 32 && (battery ==> tail[|tail| - 2].kind == 22)
  }

  const LOW_KINDS: set<Byte> := {0, 1, 2, 3, 4, 8, 9, 11}
  const EXTRA_KINDS: set<Byte> := {12, 13}
  const TAIL_KINDS: set<Byte> := {16, 17, 19, 20, 22, 32}

  function LowCalls(p: Profile): Calls {
    FixedCalls(p) + CpuCalls(p) + ConnectorCalls(p) + SlotCalls(p) + OemCalls(p)
  }

  lemma LowSegment(p: Profile, devices: nat) returns (low: seq<Record>)
    requires WellFormed(p)
    ensures Collect(LowCalls(p)) == Ok(low)
    ensures Segment(low, 0, 0x1000, LOW_KINDS, FactsOf(p), devices) && LowShape(low, p.cpu.sockets)
  {
    hide FixedCalls, CpuCalls, ConnectorCalls, SlotCalls, OemCalls, Collect, Fine, ProfileValid, WfFixed, WfCpu,
      WfMemory, CopiesOk, WfOem;
    var facts := FactsOf(p);
    var afterK := CONNECTOR_HANDLE + |p.connectors|;
    var afterS := if p.slots == [] then afterK else SLOT_HANDLE + |p.slots|;
    var afterO := if p.oemStrings == [] then afterS else OEM_HANDLE + 1;
    ProfileSockets(p);
    FixedSegment(p, devices);
    CpuSegment(p, devices);
    ConnectorSegment(p, devices);
    SlotSegment(p, devices, afterK);
    OemSegment(p, devices, afterS);
    var f, c := Collect(FixedCalls(p)).value, Collect(CpuCalls(p)).value;
    var k, s, o := Collect(ConnectorCalls(p)).value, Collect(SlotCalls(p)).value, Collect(OemCalls(p)).value;
    CollectAppend(FixedCalls(p), CpuCalls(p));
    CollectAppend(FixedCalls(p) + CpuCalls(p), ConnectorCalls(p));
    CollectAppend(FixedCalls(p) + CpuCalls(p) + ConnectorCalls(p), SlotCalls(p));
    CollectAppend(FixedCalls(p) + CpuCalls(p) + ConnectorCalls(p) + SlotCalls(p), OemCalls(p));
    SegmentsJoin(f, c, 0, 0x0400, 0x0800, {0, 1, 2, 3}, {4}, facts, devices);
    SegmentsJoin(f + c, k, 0, 0x0800, afterK, {0, 1, 2, 3} + {4}, {8}, facts, devices);
    SegmentsJoin(f + c + k, s, 0, afterK, afterS, {0, 1, 2, 3} + {4} + {8}, {9}, facts, devices);
    SegmentsJoin(f + c + k + s, o, 0, afterS, afterO, {0, 1, 2, 3} + {4} + {8} + {9}, {11}, facts, devices);
    SegmentWidens(f + c + k + s + o, 0, afterO, {0, 1, 2, 3} + {4} + {8} + {9} + {11}, facts, devices, 0, 0x1000);
    assert {0, 1, 2, 3} + {4} + {8} + {9} + {11} == LOW_KINDS;
    low := f + c + k + s + o;
    LowKinds(f, c, k, s, o, p.cpu.sockets);
  }

  lemma LowKinds(f: seq<Record>, c: seq<Record>, k: seq<Record>, s: seq<Record>, o: seq<Record>, sockets: nat)
    requires |f| == 4 && |c| == sockets
    requires forall i :: 0 <= i < |c| ==> c[i].kind == 4
    requires forall i :: 0 <= i < |k| ==> k[i].kind == 8
    requires forall i :: 0 <= i < |s| ==> s[i].kind == 9
    requires |o| <= 1 && forall i :: 0 <= i < |o| ==> o[i].kind == 11
    ensures var low := f + c + k + s + o;
      && low[..4] == f && (forall i :: 0 <= i < 4 ==> low[i] == f[i])
      && (forall i :: 4 <= i < 4 + sockets ==> low[i] == c[i - 4] && low[i].kind == 4)
      && (forall i :: 4 + sockets <= i < |low| ==> low[i].kind in {8, 9, 11} && (low[i].kind == 11 ==> i == |low| - 1))
  {
  }

  lemma TailSegment(p: Profile) returns (tail: seq<Record>)
    requires WellFormed(p)
    ensures MemoryRecords(p.memory).Ok? && Collect(BackCalls(p)).Ok? && EndTable().Ok?
    ensures MemoryRecords(p.memory).value + Collect(BackCalls(p)).value == tail + [EndTable().value]
    ensures Segment(tail, 0x1000, 0x2001, TAIL_KINDS, FactsOf(p), |p.memory.templates|)
    ensures |p.memory.templates| == p.memory.limits.slots && TailShape(tail, |p.memory.templates|, p.battery.Some?)
    ensures |tail| == |MemoryRecords(p.memory).value| + (if p.battery.Some? then 2 else 1)
    ensures tail[..|MemoryRecords(p.memory).value|] == MemoryRecords(p.memory).value
  {
    hide BackCalls, Collect, Fine, EndTable, ProfileValid, WfFixed, WfCpu, WfMemory, MemoryRecords;
    var facts, n := FactsOf(p), |p.memory.templates|;
    MemorySegments(p);
    BackSegment(p, n);
    var memory, back := MemoryRecords(p.memory).value, Collect(BackCalls(p)).value;
    var front := back[..|back| - 1];
    SegmentsJoin(memory, front, 0x1000, 0x1500, 0x2001, {16, 17, 19, 20}, {22, 32}, facts, n);
    assert {16, 17, 19, 20} + {22, 32} == TAIL_KINDS;
    tail := memory + front;
    assert back == front + [back[|back| - 1]];
  }

  /** The stretches of a finished stream. */
  predicate Parts(p: Profile, low: seq<Record>, extra: seq<Record>, tail: seq<Record>) {
    var n := |p.memory.templates|;
    && Segment(low, 0, 0x1000, LOW_KINDS, FactsOf(p), n) && LowShape(low, p.cpu.sockets)
    && Segment(extra, EXTRA_HANDLE, END_OF_TABLE_HANDLE, EXTRA_KINDS, FactsOf(p), n)
    && Segment(tail, 0x1000, 0x2001, TAIL_KINDS, FactsOf(p), n) && TailShape(tail, n, p.battery.Some?)
    && n == p.memory.limits.slots
  }

  /** The records of a well-formed profile, in three stretches and the final Type 127. */
  lemma StreamParts(p: Profile) returns (low: seq<Record>, extra: seq<Record>, tail: seq<Record>)
    requires WellFormed(p)
    ensures EndTable().Ok? && ProfileRecords(p) == Ok(low + extra + tail + [EndTable().value])
    ensures Parts(p, low, extra, tail)
    ensures Collect(SupplementalCalls(p.supplemental, |p.supplemental|)) == Ok(extra)
    ensures MemoryRecords(p.memory).Ok?
    ensures |tail| == |MemoryRecords(p.memory).value| + (if p.battery.Some? then 2 else 1)
    ensures tail[..|MemoryRecords(p.memory).value|] == MemoryRecords(p.memory).value
  {
    hide FixedCalls, CpuCalls, ConnectorCalls, SlotCalls, OemCalls, SupplementalCalls, BackCalls, Collect, Fine,
      EndTable, MemoryRecords, Segment, MemoryKind, MemoryHandle, LowShape, TailShape;
    var n := |p.memory.templates|;
    low := LowSegment(p, n);
    SupplementalSegment(p.supplemental, |p.supplemental|, FactsOf(p), n);
    extra := Collect(SupplementalCalls(p.supplemental, |p.supplemental|)).value;
    SegmentWidens(extra, EXTRA_HANDLE, ExtraEnd(|p.supplemental|), EXTRA_KINDS, FactsOf(p), n, EXTRA_HANDLE,
                  END_OF_TABLE_HANDLE);
    CollectAppend(LowCalls(p), SupplementalCalls(p.supplemental, |p.supplemental|));
    tail := TailSegment(p);
    var memory, back := MemoryRecords(p.memory).value, Collect(BackCalls(p)).value;
    assert low + extra + memory + back == low + extra + (memory + back);
    assert low + extra + (tail + [EndTable().value]) == low + extra + tail + [EndTable().value];
  }

  // ----- handles, counts and references over the whole list -----

  lemma StretchesDiffer(low: seq<Record>, extra: seq<Record>, tail: seq<Record>, end: Record)
    requires Ascends(low, 0, 0x1000) && Ascends(extra, EXTRA_HANDLE, END_OF_TABLE_HANDLE)
    requires Ascends(tail, 0x1000, 0x2001)
    requires end.handle == END_OF_TABLE_HANDLE
    ensures HandlesDiffer(low + extra + tail + [end])
  {
    var all := low + extra + tail + [end];
    forall i, j | 0 <= i < j < |all|
      ensures all[i].handle != all[j].handle
    {
    }
  }

  lemma {:induction false} KindCountAppend(a: seq<Table>, b: seq<Table>, kind: Byte)
    ensures KindCount(a + b, kind) == KindCount(a, kind) + KindCount(b, kind)
    decreases |a|
  {
    if a == [] {
      assert a + b == b;
    } else {
      assert (a + b)[1..] == a[1..] + b;
      KindCountAppend(a[1..], b, kind);
    }
  }

  lemma {:induction false} KindCountRun(a: seq<Table>, kind: Byte, owner: Byte)
    requires forall i :: 0 <= i < |a| ==> a[i].kind == owner
    ensures KindCount(a, kind) == if kind == owner then |a| else 0
    decreases |a|
  {
    if a != [] {
      KindCountRun(a[1..], kind, owner);
    }
  }

  lemma {:induction false} KindCountNone(a: seq<Table>, kind: Byte)
    requires forall i :: 0 <= i < |a| ==> a[i].kind != kind
    ensures KindCount(a, kind) == 0
    decreases |a|
  {
    if a != [] {
      KindCountNone(a[1..], kind);
    }
  }

  /** A list of which one stretch is of one type and nothing else is. */
  lemma KindCountWindow(a: seq<Table>, kind: Byte, from: nat, to: nat)
    requires from <= to <= |a|
    requires forall i :: 0 <= i < |a| ==> (a[i].kind == kind <==> from <= i < to)
    ensures KindCount(a, kind) == to - from
  {
    KindCountNone(a[..from], kind);
    KindCountRun(a[from..to], kind, kind);
    KindCountNone(a[to..], kind);
    KindCountAppend(a[..from], a[from..to], kind);
    KindCountAppend(a[..from] + a[from..to], a[to..], kind);
    assert a == a[..from] + a[from..to] + a[to..];
  }

  /** Everything the final rules need to know of the list, position by position. */
  lemma KindWhere(p: Profile, low: seq<Record>, extra: seq<Record>, tail: seq<Record>, end: Record, i: nat)
    requires Parts(p, low, extra, tail) && end.kind == END_OF_TABLE
    requires i < |low| + |extra| + |tail| + 1
    ensures var all, s, n := low + extra + tail + [end], p.cpu.sockets, |p.memory.templates|;
      var m, last := |low| + |extra|, |low| + |extra| + |tail|;
      && (i < 4 ==> all[i].kind as int == i)
      && (4 <= i < 4 + s ==> all[i].kind == 4)
      && (4 + s <= i < m ==> all[i].kind in {8, 9, 11, 12, 13})
      && (m <= i < last - (if p.battery.Some? then 2 else 1)
         ==> all[i].kind == MemoryKind(n, i - m) && all[i].handle == MemoryHandle(n, i - m))
      && (i == last - 2 && p.battery.Some? ==> all[i].kind == 22)
      && (i == last - 1 ==> all[i].kind == 32)
      && (i == last ==> all[i] == end)
      && (i < last ==> Fine(all[i], FactsOf(p), n))
  {
    hide Fine, MemoryKind, MemoryHandle, ZeroId;
    if i < |low| {
    } else if i < |low| + |extra| {
      assert extra[i - |low|].kind in EXTRA_KINDS;
    } else if i < |low| + |extra| + |tail| {
      assert tail[i - |low| - |extra|].kind in TAIL_KINDS;
    }
  }

  lemma ResolvesAt(records: seq<Record>, i: nat)
    requires AllLayable(records) && i < |records|
    ensures Resolves(TablesOfRecords(records), records[i].handle, records[i].kind)
  {
    hide Layable;
    TablesOfRecordsAt(records, i);
    assert TablesOfRecords(records)[i].handle == records[i].handle
           && TablesOfRecords(records)[i].kind == records[i].kind;
  }

  /** Every handle a generated structure can refer to belongs to a structure of the right type. */
  predicate TargetsExist(tables: seq<Table>, n: nat) {
    && Resolves(tables, 0x0300, 3) && Resolves(tables, ARRAY_HANDLE, 16)
    && (forall h :: DEVICE_HANDLE <= h < DEVICE_HANDLE + n ==> Resolves(tables, h, 17))
    && (forall h :: RANGE_HANDLE <= h < RANGE_HANDLE + 2 ==> Resolves(tables, h, 19))
  }

  lemma LinkedRefs(tables: seq<Table>, r: Record, n: nat)
    requires Layable(r) && Linked(r, n) && TargetsExist(tables, n)
    ensures RefsOk(tables, TableOf(r))
  {
    hide Resolves, Formatted, Layable;
  }

  lemma FineIs(r: Record, facts: Facts, n: nat)
    requires Fine(r, facts, n)
    ensures Layable(r) && Linked(r, n) && ShapeOk(r.kind, Formatted(r), |r.strings|, facts)
    ensures RecordAccepted(r, false) && RecordAccepted(r, true)
  {
  }

  lemma StreamListed(p: Profile, low: seq<Record>, extra: seq<Record>, tail: seq<Record>, all: seq<Record>)
    requires Parts(p, low, extra, tail) && EndTable().Ok? && all == low + extra + tail + [EndTable().value]
    ensures WellFormedList(all) && AllLayable(all)
  {
    hide Fine, EndTable, LowShape, TailShape, RecordAccepted, Layable;
    var end := EndTable().value;
    EndGood(FactsOf(p));
    StretchesDiffer(low, extra, tail, end);
    forall i | 0 <= i < |all|
      ensures RecordAccepted(all[i], i == |all| - 1)
    {
      KindWhere(p, low, extra, tail, end, i);
      if i < |all| - 1 {
        FineIs(all[i], FactsOf(p), |p.memory.templates|);
      }
    }
    AcceptedIsLayable(all);
  }

  lemma AcceptedIsLayable(records: seq<Record>)
    requires forall i :: 0 <= i < |records| ==> RecordAccepted(records[i], i == |records| - 1)
    ensures AllLayable(records)
  {
    forall i | 0 <= i < |records|
      ensures Layable(records[i])
    {
      assert RecordAccepted(records[i], i == |records| - 1);
    }
  }

  lemma StreamCounted(p: Profile, low: seq<Record>, extra: seq<Record>, tail: seq<Record>, all: seq<Record>)
    requires Parts(p, low, extra, tail) && EndTable().Ok? && all == low + extra + tail + [EndTable().value]
    requires AllLayable(all)
    ensures CountsOk(TablesOfRecords(all), FactsOf(p))
  {
    hide Fine, EndTable, Segment, RecordAccepted, Layable, TablesOfRecords, KindCount;
    var tables, end := TablesOfRecords(all), EndTable().value;
    EndGood(FactsOf(p));
    TablesOfRecordsAt(all, 0);
    var s, n, m := p.cpu.sockets, |p.memory.templates|, |low| + |extra|;
    var last := m + |tail|;
    forall i | 0 <= i < |tables|
      ensures tables[i].kind == KindByPlace(s, n, m, last, p.battery.Some?, i, all[i].kind)
    {
      TablesOfRecordsAt(all, i);
      KindWhere(p, low, extra, tail, end, i);
    }
    CountByPlace(tables, s, n, m, last, p.battery.Some?, all);
  }

  /** The type at a position, where the position settles it. */
  function KindByPlace(s: nat, n: nat, m: nat, last: nat, battery: bool, i: nat, other: Byte): Byte {
    if i < 4 then i as Byte
    else if i < 4 + s then 4
    else if i < m then (if other in {8, 9, 11, 12, 13} then other else 8)
    else if i < last - (if battery then 2 else 1) then MemoryKind(n, i - m)
    else if i == last - 2 && battery then 22
    else if i == last - 1 then 32
    else END_OF_TABLE
  }

  lemma CountByPlace(tables: seq<Table>, s: nat, n: nat, m: nat, last: nat, battery: bool, all: seq<Record>)
    requires |tables| == |all| == last + 1 && 4 + s <= m && m + 4 + n + (if battery then 2 else 1) <= last
    requires forall i :: 0 <= i < |tables| ==> tables[i].kind == KindByPlace(s, n, m, last, battery, i, all[i].kind)
    ensures forall kind :: kind in SINGLE ==> KindCount(tables, kind) == 1
    ensures KindCount(tables, 4) == s && KindCount(tables, 17) == n && KindCount(tables, 22) == if battery then 1 else 0
  {
    hide KindCount;
    KindCountWindow(tables, 0, 0, 1);
    KindCountWindow(tables, 1, 1, 2);
    KindCountWindow(tables, 2, 2, 3);
    KindCountWindow(tables, 3, 3, 4);
    KindCountWindow(tables, 4, 4, 4 + s);
    KindCountWindow(tables, 16, m, m + 1);
    KindCountWindow(tables, 17, m + 1, m + 1 + n);
    KindCountWindow(tables, 32, last - 1, last);
    KindCountWindow(tables, END_OF_TABLE, last, last + 1);
    KindCountWindow(tables, 22, last - 2 + (if battery then 0 else 1), last - 1);
  }

  lemma StreamLinked(p: Profile, low: seq<Record>, extra: seq<Record>, tail: seq<Record>, all: seq<Record>)
    requires Parts(p, low, extra, tail) && EndTable().Ok? && all == low + extra + tail + [EndTable().value]
    requires AllLayable(all)
    ensures TargetsExist(TablesOfRecords(all), |p.memory.templates|)
  {
    hide Fine, EndTable, Segment, Layable, TablesOfRecords, Resolves;
    var end := EndTable().value;
    var base, n := |low| + |extra|, |p.memory.templates|;
    EndGood(FactsOf(p));
    ResolvesAt(all, 3);
    KindWhere(p, low, extra, tail, end, base);
    ResolvesAt(all, base);
    assert all[3] == low[3];
    forall h | DEVICE_HANDLE <= h < DEVICE_HANDLE + n
      ensures Resolves(TablesOfRecords(all), h, 17)
    {
      KindWhere(p, low, extra, tail, end, base + 1 + (h - DEVICE_HANDLE));
      ResolvesAt(all, base + 1 + (h - DEVICE_HANDLE));
    }
    forall h | RANGE_HANDLE <= h < RANGE_HANDLE + 2
      ensures Resolves(TablesOfRecords(all), h, 19)
    {
      KindWhere(p, low, extra, tail, end, base + 1 + n + (h - RANGE_HANDLE));
      ResolvesAt(all, base + 1 + n + (h - RANGE_HANDLE));
    }
  }

  lemma StreamRuled(p: Profile, low: seq<Record>, extra: seq<Record>, tail: seq<Record>, all: seq<Record>)
    requires Parts(p, low, extra, tail) && EndTable().Ok? && all == low + extra + tail + [EndTable().value]
    requires AllLayable(all)
    ensures TablesOk(TablesOfRecords(all), FactsOf(p))
  {
    hide Fine, EndTable, Parts, Layable, TablesOfRecords, Resolves, ShapeOk, RefsOk, Linked, CountsOk, TargetsExist;
    var tables, end, n, facts := TablesOfRecords(all), EndTable().value, |p.memory.templates|, FactsOf(p);
    EndGood(facts);
    StreamCounted(p, low, extra, tail, all);
    StreamLinked(p, low, extra, tail, all);
    TablesOfRecordsAt(all, 0);
    forall i | 0 <= i < |tables|
      ensures ShapeOk(tables[i].kind, tables[i].formatted, |tables[i].strings|, facts) && RefsOk(tables, tables[i])
    {
      TablesOfRecordsAt(all, i);
      KindWhere(p, low, extra, tail, end, i);
      if i < |all| - 1 {
        FineIs(all[i], facts, n);
        LinkedRefs(tables, all[i], n);
      } else {
        EndRefs(tables, all[i]);
      }
    }
  }

  lemma EndRefs(tables: seq<Table>, r: Record)
    requires Layable(r) && r.kind == END_OF_TABLE
    ensures RefsOk(tables, TableOf(r))
  {
  }
}

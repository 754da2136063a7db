/**
 What a reader finds in a built stream, type by type (DMTF DSP0134 section 7): every field and string of a
 structure by its offset, in terms of the profile.
 */
module StreamContents {
  import opened Outcomes
  import opened Bytes
  import opened Text
  import opened Structures
  import opened ProfileStream
  import opened StreamSoundness

  // ----- reading a structure -----

  /** The bytes are the characters of the text. */
  predicate Spells(bytes: seq<Byte>, text: string) {
    |bytes| == |text| && forall k :: 0 <= k < |text| ==> bytes[k] == text[k] as int
  }

  /** The string whose number stands at the offset is the text. */
  predicate Says(t: Table, offset: nat, text: string) {
    && offset < |t.formatted| && 1 <= t.formatted[offset] <= |t.strings|
    && Spells(t.strings[t.formatted[offset] - 1], text)
  }

  /** The number that bytes make when the first counts most. */
  function BigEndian(bytes: seq<Byte>): nat {
    if bytes == [] then 0 else 0x100 * BigEndian(bytes[..|bytes| - 1]) + bytes[|bytes| - 1]
  }

  predicate AllZero(f: seq<Byte>, from: nat, to: nat)
    requires from <= to <= |f|
  {
    forall k :: from <= k < to ==> f[k] == 0
  }

  function Least(a: int, b: int): int {
    if a < b then a else b
  }

  // ----- the structures -----

  predicate BiosSays(t: Table, p: Profile) {
    var f := t.formatted;
    && |f| == 26 && Says(t, 4, p.biosVendor) && Says(t, 5, p.biosVersion) && Says(t, 8, p.biosDate)
    && AllZero(f, 6, 8) && (f[9] as int + 1) * 0x1_0000 == 4 * 0x10_0000 && f[10] == 8
    && AllZero(f, 11, 18) && f[18] == 0x01 && f[19] == 0x18
    && f[20] == p.platform.biosMajor && f[21] == p.platform.biosMinor && f[22] == 0xFF && f[23] == 0xFF
    && AllZero(f, 24, 26)
  }

  /** The first three groups of the UUID are little-endian numbers, the rest stands as it is. */
  predicate SystemSays(t: Table, p: Profile) {
    var f, raw := t.formatted, p.systemUuid;
    && |f| == 27 && Says(t, 4, p.vendor) && Says(t, 5, p.productName) && Says(t, 6, p.productVersion)
    && Says(t, 7, p.systemSerial) && Says(t, 25, p.productSku) && Says(t, 26, p.productFamily)
    && U32At(f, 8) == BigEndian(raw[..4]) && U16At(f, 12) == BigEndian(raw[4..6])
    && U16At(f, 14) == BigEndian(raw[6..8])
    && (forall k :: 16 <= k < 24 ==> f[k] == raw[k - 8]) && f[24] == 6
  }

  predicate BoardSays(t: Table, p: Profile) {
    var f := t.formatted;
    && |f| == 15 && Says(t, 4, p.platform.boardVendor) && Says(t, 5, p.boardName) && Says(t, 6, p.boardVersion)
    && Says(t, 7, p.boardSerial) && Says(t, 8, p.identity.boardAsset) && Says(t, 10, "Main Board")
    && f[9] == 0x09 && U16At(f, 11) == 0x0300 && f[13] == 0x0A && f[14] == 0
  }

  predicate ChassisSays(t: Table, p: Profile) {
    var f := t.formatted;
    && |f| == 22 && Says(t, 4, p.platform.chassisVendor) && f[5] == p.platform.chassisType
    && Says(t, 6, p.chassisVersion)
    && Says(t, 7, p.chassisSerial) && Says(t, 8, p.identity.chassisAsset) && Says(t, 21, p.identity.chassisSku)
    && f[9] == 3 && f[10] == 3 && f[11] == 3 && f[12] == 2 && AllZero(f, 13, 18) && f[18] == 1
    && AllZero(f, 19, 21)
  }

  /** The processor of a socket, with a zero Processor ID and no cache references. */
  predicate CpuSays(t: Table, p: Profile, index: nat) {
    var f, cpu := t.formatted, p.cpu;
    && |f| == 48 && t.handle == 0x0400 + index
    && Says(t, 4, cpu.socket + " " + Dec(index + 1)) && Says(t, 7, cpu.vendor) && Says(t, 16, cpu.version)
    && Says(t, 32, cpu.serial) && Says(t, 33, p.identity.cpuAsset) && Says(t, 34, cpu.part)
    && f[5] == 3 && f[6] == cpu.family && AllZero(f, 8, 16) && f[17] == cpu.voltage
    && U16At(f, 18) == cpu.clockMhz && U16At(f, 20) == cpu.maxMhz && U16At(f, 22) == Least(cpu.currentMhz, cpu.maxMhz)
    && f[24] == 0x41 && f[25] == cpu.upgrade && U16At(f, 26) == 0xFFFF && U16At(f, 28) == 0xFFFF
    && U16At(f, 30) == 0xFFFF
    && f[35] as int == Least(cpu.cores, 255) && f[36] as int == Least(cpu.enabled, 255)
    && f[37] as int == Least(cpu.threads, 255)
    && U16At(f, 38) == cpu.characteristics && U16At(f, 40) == cpu.family2
    && U16At(f, 42) == cpu.cores && U16At(f, 44) == cpu.enabled && U16At(f, 46) == cpu.threads
  }

  /** Strings in the order of a list. */
  predicate Lists(t: Table, strings: seq<string>) {
    |t.strings| == |strings| && forall i :: 0 <= i < |strings| ==> Spells(t.strings[i], strings[i])
  }

  /** A structure copied with its body and strings. */
  predicate CopySays(t: Table, c: Copied) {
    && |t.formatted| == |c.body| + 4 && (forall k :: 4 <= k < |t.formatted| ==> t.formatted[k] == c.body[k - 4])
    && Lists(t, c.strings)
  }

  /** A copied slot: in use by nobody, without its address on the host and without its peers. */
  predicate SlotSays(t: Table, c: Copied) {
    var f := t.formatted;
    && 17 <= |f| <= 19 && |f| == Least(|c.body|, 15) + 4 && f[7] == 2
    && f[13] == 0xFF && f[14] == 0xFF && f[15] == 0xFF && f[16] == 0xFF && (|f| == 19 ==> f[18] == 0)
    && (forall k :: 4 <= k < |f| && k != 7 && !(13 <= k < 17) && k != 18 ==> f[k] == c.body[k - 4])
    && Lists(t, c.strings)
  }

  predicate OemSays(t: Table, strings: seq<string>) {
    |t.formatted| == 5 && t.formatted[4] == |strings| && Lists(t, strings)
  }

  /** The capacity is given in a unit of `f[21]` milliwatt-hours, the least with which it fits 16 bits. */
  predicate BatterySays(t: Table, b: Battery) {
    var f := t.formatted;
    && |f| == 26 && Says(t, 4, "Internal Battery") && Says(t, 5, b.manufacturer) && Says(t, 6, b.date)
    && Says(t, 7, b.serial) && Says(t, 8, b.model) && f[9] == 6 && Says(t, 14, "03.0") && Says(t, 20, b.chemistry)
    && U16At(f, 10) * f[21] as int <= b.capacity < (U16At(f, 10) + 1) * f[21] as int
    && f[21] >= 1 && (f[21] > 1 ==> b.capacity > 0xFFFF * (f[21] as int - 1))
    && U16At(f, 12) == b.voltage && f[15] == 0xFF && U16At(f, 16) == b.serialNumber && U16At(f, 18) == b.dateNumber
    && AllZero(f, 22, 26)
  }

  predicate BootSays(t: Table) {
    |t.formatted| == 11 && AllZero(t.formatted, 4, 11) && t.strings == []
  }

  // ----- from a printed record to what it says -----

  lemma MadeSpells(kind: int, handle: int, body: seq<Byte>, strings: seq<string>, r: Record)
    requires Made(kind, handle, body, strings) == Ok(r)
    ensures Layable(r) && r.kind == kind && r.handle == handle && r.body == body
    ensures Lists(TableOf(r), strings)
    ensures |TableOf(r).formatted| == |body| + 4
    ensures forall k :: 4 <= k < |body| + 4 ==> TableOf(r).formatted[k] == body[k - 4]
  {
    hide Formatted;
    BodyView(r);
  }

  lemma BiosReads(p: Profile, r: Record)
    requires BiosTable(p) == Ok(r)
    ensures BiosSays(TableOf(r), p)
  {
    hide Made, TableOf, Layable, Spells, BiosSays;
    var body: seq<Byte> := [1, 2, 0, 0, 3, FIRMWARE_SIZE / 65536 - 1, 0x08, 0, 0, 0, 0, 0, 0, 0, 0x01, 0x18,
      p.platform.biosMajor, p.platform.biosMinor, 0xFF, 0xFF, 0, 0];
    MadeSpells(0, 0x0000, body, [p.biosVendor, p.biosVersion, p.biosDate], r);
    BiosFields(TableOf(r), p, body);
  }

  lemma BiosFields(t: Table, p: Profile, body: seq<Byte>)
    requires FitsByte(p.platform.biosMajor) && FitsByte(p.platform.biosMinor)
    requires body == [1, 2, 0, 0, 3, 63, 0x08, 0, 0, 0, 0, 0, 0, 0, 0x01, 0x18,
                      p.platform.biosMajor, p.platform.biosMinor, 0xFF, 0xFF, 0, 0]
    requires |t.formatted| == |body| + 4 && forall k :: 4 <= k < |body| + 4 ==> t.formatted[k] == body[k - 4]
    requires Lists(t, [p.biosVendor, p.biosVersion, p.biosDate])
    ensures BiosSays(t, p)
  {
    hide Spells;
  }

  lemma UuidReads(raw: Uuid)
    ensures var wire := SmbiosUuid(raw);
      && U32At(wire, 0) == BigEndian(raw[..4]) && U16At(wire, 4) == BigEndian(raw[4..6])
      && U16At(wire, 6) == BigEndian(raw[6..8]) && forall k :: 8 <= k < 16 ==> wire[k] == raw[k]
  {
    TwoBytes(raw[4..6]);
    TwoBytes(raw[6..8]);
    FourBytes(raw[..4]);
  }

  lemma TwoBytes(b: seq<Byte>)
    requires |b| == 2
    ensures BigEndian(b) == 0x100 * b[0] as int + b[1] as int
  {
    LastByte([b[0]], [], b[0]);
    LastByte(b, [b[0]], b[1]);
  }

  lemma LastByte(b: seq<Byte>, front: seq<Byte>, last: Byte)
    requires b == front + [last]
    ensures BigEndian(b) == 0x100 * BigEndian(front) + last as int
  {
    assert b[..|b| - 1] == front;
  }

  lemma FourBytes(b: seq<Byte>)
    requires |b| == 4
    ensures BigEndian(b) == 0x100_0000 * b[0] as int + 0x1_0000 * b[1] as int + 0x100 * b[2] as int + b[3] as int
  {
    hide BigEndian;
    var two, three := b[..2], b[..3];
    TwoBytes(two);
    LastByte(three, two, b[2]);
    LastByte(b, three, b[3]);
    assert two[0] == b[0] && two[1] == b[1];
  }

  lemma SystemReads(p: Profile, r: Record)
    requires SystemTable(p) == Ok(r)
    ensures SystemSays(TableOf(r), p)
  {
    hide Made, Formatted, Layable, Spells, SmbiosUuid, BigEndian;
    var head: seq<Byte> := [1, 2, 3, 4];
    var tail: seq<Byte> := [6, 5, 6];
    var wire := SmbiosUuid(p.systemUuid);
    MadeSpells(1, 0x0100, head + wire + tail,
      [p.vendor, p.productName, p.productVersion, p.systemSerial, p.productSku, p.productFamily], r);
    UuidReads(p.systemUuid);
    var f := TableOf(r).formatted;
    forall k | 0 <= k < 16
      ensures f[8 + k] == wire[k]
    {
      assert (head + wire + tail)[4 + k] == wire[k];
    }
  }

  lemma BoardReads(p: Profile, r: Record)
    requires BoardTable(p) == Ok(r)
    ensures BoardSays(TableOf(r), p)
  {
    hide Made, Formatted, Layable, Spells;
    var body: seq<Byte> := [1, 2, 3, 4, 5, 0x09, 6, 0x00, 0x03, 0x0A, 0];
    MadeSpells(2, 0x0200, body,
      [p.platform.boardVendor, p.boardName, p.boardVersion, p.boardSerial, p.identity.boardAsset, "Main Board"], r);
  }

  lemma ChassisReads(p: Profile, r: Record)
    requires ChassisTable(p) == Ok(r)
    ensures ChassisSays(TableOf(r), p)
  {
    hide Made, Formatted, Layable, Spells;
    var body: seq<Byte> := [1, p.platform.chassisType, 2, 3, 4, 3, 3, 3, 2, 0, 0, 0, 0, 0, 1, 0, 0, 5];
    MadeSpells(3, 0x0300, body,
      [p.platform.chassisVendor, p.chassisVersion, p.chassisSerial, p.identity.chassisAsset, p.identity.chassisSku], r);
  }

  lemma CpuHeadSays(cpu: Cpu)
    requires FitsByte(cpu.family) && FitsByte(cpu.voltage) && cpu.signature == 0 && cpu.features == 0
    requires Fits16(cpu.clockMhz) && Fits16(cpu.maxMhz) && Fits16(cpu.currentMhz)
    ensures var head := CpuHead(cpu);
      && head[0] == 1 && head[1] == 3 && head[2] == cpu.family && head[3] == 2 && AllZero(head, 4, 12)
      && head[12] == 3 && head[13] == cpu.voltage
      && U16At(head, 14) == cpu.clockMhz && U16At(head, 16) == cpu.maxMhz
      && U16At(head, 18) == Least(cpu.currentMhz, cpu.maxMhz)
  {
    CpuHeadBytes(cpu);
    Lanes16(cpu.clockMhz);
    Lanes16(cpu.maxMhz);
    Lanes16(Least(cpu.currentMhz, cpu.maxMhz));
  }

  lemma CpuTailSays(cpu: Cpu)
    requires FitsByte(cpu.upgrade) && CountOk(cpu.cores) && CountOk(cpu.enabled) && CountOk(cpu.threads)
    requires Fits16(cpu.characteristics) && Fits16(cpu.family2)
    ensures var tail := CpuTail(cpu);
      && tail[1] == cpu.upgrade && U16At(tail, 14) == cpu.characteristics && U16At(tail, 16) == cpu.family2
  {
    Lanes16(cpu.characteristics);
    Lanes16(cpu.family2);
  }

  lemma CpuReads(p: Profile, index: nat, r: Record)
    requires ProfileValid(p) && CpuTable(p, index) == Ok(r)
    ensures CpuSays(TableOf(r), p, index)
  {
    hide Made, TableOf, Layable, Spells, CpuHead, CpuTail, CpuSays, Dec, U16At;
    var cpu := p.cpu;
    var body := CpuHead(cpu) + CpuTail(cpu);
    MadeSpells(4, 0x0400 + index, body,
      [cpu.socket + " " + Dec(index + 1), cpu.vendor, cpu.version, cpu.serial, p.identity.cpuAsset, cpu.part], r);
    assert TableOf(r).handle == 0x0400 + index by {
      HandleStays(r);
    }
    CpuHeadSays(cpu);
    CpuTailBytes(cpu);
    CpuTailSays(cpu);
    CpuFields(TableOf(r), p, index);
  }

  lemma HandleStays(r: Record)
    requires Layable(r)
    ensures TableOf(r).handle == r.handle && TableOf(r).kind == r.kind && TableOf(r).strings == r.strings
  {
  }

  lemma CpuFields(t: Table, p: Profile, index: nat)
    requires FitsByte(p.cpu.family) && FitsByte(p.cpu.voltage) && FitsByte(p.cpu.upgrade)
    requires p.cpu.cores >= 0 && p.cpu.enabled >= 0 && p.cpu.threads >= 0
    requires t.handle == 0x0400 + index && |t.formatted| == 48
    requires var head, tail := CpuHead(p.cpu), CpuTail(p.cpu);
      && (forall k :: 4 <= k < 48 ==> t.formatted[k] == (head + tail)[k - 4])
      && head[0] == 1 && head[1] == 3 && head[2] == p.cpu.family && head[3] == 2 && AllZero(head, 4, 12)
      && head[12] == 3 && head[13] == p.cpu.voltage
      && U16At(head, 14) == p.cpu.clockMhz && U16At(head, 16) == p.cpu.maxMhz
      && U16At(head, 18) == Least(p.cpu.currentMhz, p.cpu.maxMhz)
      && tail[0] == 0x41 && (forall k :: 2 <= k < 8 ==> tail[k] == 0xFF) && tail[8] == 4 && tail[9] == 5
      && tail[10] == 6
      && tail[11] as int == Least(p.cpu.cores, 255) && tail[12] as int == Least(p.cpu.enabled, 255)
      && tail[13] as int == Least(p.cpu.threads, 255)
      && U16At(tail, 18) == p.cpu.cores && U16At(tail, 20) == p.cpu.enabled && U16At(tail, 22) == p.cpu.threads
      && tail[1] == p.cpu.upgrade && U16At(tail, 14) == p.cpu.characteristics && U16At(tail, 16) == p.cpu.family2
    requires Lists(t, [p.cpu.socket + " " + Dec(index + 1), p.cpu.vendor, p.cpu.version, p.cpu.serial,
                       p.identity.cpuAsset, p.cpu.part])
    ensures CpuSays(t, p, index)
  {
    hide CpuHead, CpuTail, Spells, Dec;
    var f, head, tail := t.formatted, CpuHead(p.cpu), CpuTail(p.cpu);
    assert forall k :: 4 <= k < 24 ==> f[k] == head[k - 4];
    assert forall k :: 24 <= k < 48 ==> f[k] == tail[k - 24];
  }

  lemma CopyReads(c: Copied, kind: int, handle: int, r: Record)
    requires Made(kind, handle, c.body, c.strings) == Ok(r)
    ensures CopySays(TableOf(r), c) && TableOf(r).handle == handle
  {
    hide Made, Lists;
    MadeSpells(kind, handle, c.body, c.strings, r);
    HandleStays(r);
  }

  lemma SlotReads(c: Copied, index: nat, r: Record)
    requires SlotTable(c, index) == Ok(r)
    ensures SlotSays(TableOf(r), c) && TableOf(r).handle == SLOT_HANDLE + index
  {
    hide Made, TableOf, Lists, GuestSlotBody;
    var body := GuestSlotBody(c.body).value;
    SlotLongEnough(c.body);
    BlankedBody(c.body);
    MadeSpells(9, SLOT_HANDLE + index, body, c.strings, r);
    HandleStays(r);
    var f := TableOf(r).formatted;
    assert forall k :: 4 <= k < |f| ==> f[k] == body[k - 4];
  }

  lemma SlotLongEnough(body: seq<Byte>)
    requires GuestSlotBody(body).Ok?
    ensures |body| >= 13
  {
  }

  lemma OemReads(strings: seq<string>, r: Record)
    requires OemTable(strings) == Ok(r)
    ensures OemSays(TableOf(r), strings)
  {
    hide Made, TableOf, Lists;
    MadeSpells(11, OEM_HANDLE, [|strings|], strings, r);
  }

  lemma CapacityReads(capacity: int)
    requires capacity >= 0
    ensures var multiplier := Multiplier(capacity);
      && multiplier >= 1 && (multiplier > 1 ==> capacity > 0xFFFF * (multiplier - 1))
      && capacity / multiplier <= 0xFFFF
      && capacity / multiplier * multiplier <= capacity < (capacity / multiplier + 1) * multiplier
  {
    var multiplier := Multiplier(capacity);
    var steps := (capacity + 0xFFFE) / 0xFFFF;
    assert 0xFFFF * steps >= capacity && (capacity == 0 || 0xFFFF * (steps - 1) < capacity);
    assert capacity <= 0xFFFF * multiplier;
    DivisionFits(capacity, multiplier, 0xFFFF);
  }

  lemma DivisionFits(a: int, b: int, limit: int)
    requires a >= 0 && b >= 1 && a <= limit * b
    ensures a / b <= limit && a / b * b <= a < (a / b + 1) * b
  {
    var q := a / b;
    assert q * b <= a;
    if q > limit {
      ProductGrows(limit + 1, q, b);
    }
  }

  lemma ProductGrows(x: int, y: int, b: int)
    requires x <= y && b >= 0
    ensures x * b <= y * b
  {
  }

  lemma BatteryReads(b: Battery, r: Record)
    requires WfBattery(b) && BatteryTable(b) == Ok(r)
    ensures BatterySays(TableOf(r), b)
  {
    hide Made, TableOf, Lists, Multiplier, BatteryBody, BatterySays;
    var multiplier := Multiplier(b.capacity);
    CapacityReads(b.capacity);
    var capacity := if b.capacity / multiplier < 0xFFFF then b.capacity / multiplier else 0xFFFF;
    assert capacity == b.capacity / multiplier;
    MadeSpells(22, 0x1600, BatteryBody(b, capacity, multiplier),
      ["Internal Battery", b.manufacturer, b.date, b.serial, b.model, "03.0", b.chemistry], r);
    BatteryBodySays(b, capacity, multiplier);
    BatteryFields(TableOf(r), b, capacity, multiplier);
  }

  lemma BatteryBodySays(b: Battery, capacity: int, multiplier: Byte)
    requires Fits16(capacity) && Fits16(b.voltage) && Fits16(b.serialNumber) && Fits16(b.dateNumber)
    ensures var body := BatteryBody(b, capacity, multiplier);
      && body[0] == 1 && body[1] == 2 && body[2] == 3 && body[3] == 4 && body[4] == 5 && body[5] == 6
      && U16At(body, 6) == capacity && U16At(body, 8) == b.voltage && body[10] == 6 && body[11] == 0xFF
      && U16At(body, 12) == b.serialNumber && U16At(body, 14) == b.dateNumber && body[16] == 7 && body[17] == multiplier
      && AllZero(body, 18, 22)
  {
    Lanes16(capacity);
    Lanes16(b.voltage);
    Lanes16(b.serialNumber);
    Lanes16(b.dateNumber);
  }

  lemma BatteryFields(t: Table, b: Battery, capacity: int, multiplier: Byte)
    requires |t.formatted| == 26
    requires var body := BatteryBody(b, capacity, multiplier);
      && (forall k :: 4 <= k < 26 ==> t.formatted[k] == body[k - 4])
      && body[0] == 1 && body[1] == 2 && body[2] == 3 && body[3] == 4 && body[4] == 5 && body[5] == 6
      && U16At(body, 6) == capacity && U16At(body, 8) == b.voltage && body[10] == 6 && body[11] == 0xFF
      && U16At(body, 12) == b.serialNumber && U16At(body, 14) == b.dateNumber && body[16] == 7 && body[17] == multiplier
      && AllZero(body, 18, 22)
    requires capacity * multiplier <= b.capacity < (capacity + 1) * multiplier
    requires multiplier >= 1 && (multiplier as int > 1 ==> b.capacity > 0xFFFF * (multiplier as int - 1))
    requires Lists(t, ["Internal Battery", b.manufacturer, b.date, b.serial, b.model, "03.0", b.chemistry])
    ensures BatterySays(t, b)
  {
    hide BatteryBody, Spells;
    assert U16At(t.formatted, 10) == capacity && t.formatted[21] == multiplier;
  }

  lemma BootReads(r: Record)
    requires BootTable() == Ok(r)
    ensures BootSays(TableOf(r))
  {
    hide Made, TableOf;
    var body: seq<Byte> := [0, 0, 0, 0, 0, 0, 0];
    MadeSpells(32, 0x2000, body, [], r);
  }
}

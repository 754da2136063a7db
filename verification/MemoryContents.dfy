/** What a reader finds in the memory structures of a built stream (DMTF DSP0134 sections 7.17, 7.18, 7.20 and 7.21). */
module MemoryContents {
  import opened Outcomes
  import opened Bytes
  import opened Text
  import opened Structures
  import opened DimmLayout
  import opened MemorySlots
  import opened MemoryMap
  import opened MemoryTables
  import opened MemoryConservation
  import opened StreamSoundness
  import opened StreamContents

  predicate ArraySays(t: Table, m: MemoryProfile) {
    var f := t.formatted;
    && |f| == 23 && t.handle == 0x1000 && f[4] == m.limits.location && f[5] == m.limits.use
    && f[6] == m.limits.errorCorrection
    && (if U32At(f, 7) == 0x8000_0000 then U64At(f, 15) else U32At(f, 7) * 1024) == m.limits.maximumBytes
    && U16At(f, 11) == 0xFFFE && U16At(f, 13) == m.limits.slots && t.strings == []
  }

  /** A range in KiB, or in bytes where KiB do not fit 32 bits. */
  predicate AddressesSay(f: seq<Byte>, extended: nat, start: int, end: int)
    requires 12 <= extended && extended + 16 <= |f|
  {
    if U32At(f, 4) == 0xFFFF_FFFF then U64At(f, extended) == start && U64At(f, extended + 8) == end
    else U32At(f, 4) * 1024 == start && (U32At(f, 8) + 1) * 1024 == end + 1
  }

  predicate RangeSays(t: Table, range: Range, index: nat) {
    var f := t.formatted;
    && |f| == 31 && t.handle == 0x1300 + index && AddressesSay(f, 15, range.start, range.end)
    && U16At(f, 12) == 0x1000 && f[14] == 1 && t.strings == []
  }

  predicate PieceSays(t: Table, piece: Piece, index: nat) {
    var f := t.formatted;
    && |f| == 35 && t.handle == 0x1400 + index && AddressesSay(f, 19, piece.start, piece.end)
    && U16At(f, 12) == 0x1100 + piece.device && U16At(f, 14) == 0x1300 + piece.mapped
    && f[16] == 1 && f[17] == 0 && f[18] == 0 && t.strings == []
  }

  /** The manufacturer codes, by the first of these names that the vendor's contains. */
  function VendorCode(vendor: string): int {
    var name := Lower(vendor);
    if Contains(name, "samsung") then 0xCE00
    else if Contains(name, "hynix") then 0xAD00
    else if Contains(name, "micron") || Contains(name, "crucial") then 0x2C00
    else if Contains(name, "kingston") then 0x9801
    else if Contains(name, "corsair") then 0x9E01
    else if Contains(name, "adata") then 0xCB01
    else 0
  }

  /** The locators of a slot; a bank without a name is called by its number. */
  predicate LocatorsSay(t: Table, template: Template, index: nat) {
    && Says(t, 16, template.deviceLocator)
    && Says(t, 17, if template.bankLocator != "" then template.bankLocator else "BANK_" + Dec(index))
  }

  predicate ModuleSays(t: Table, m: MemoryProfile, index: nat)
    requires |t.formatted| == 92 && index < |m.parts| && index < |m.serials| && index < |m.assets|
  {
    var f := t.formatted;
    && U16At(f, 8) == 64 && U16At(f, 10) == 64 && f[18] == m.typeCode && U16At(f, 19) == 0x80
    && Says(t, 23, m.vendor) && Says(t, 24, m.serials[index]) && Says(t, 25, m.assets[index])
    && Says(t, 26, m.parts[index])
    && U16At(f, 21) == m.speed && U16At(f, 32) == m.speed && U16At(f, 34) == m.minVoltage
    && U16At(f, 36) == m.maxVoltage
    && U16At(f, 38) == m.configuredVoltage && f[40] == 3 && U16At(f, 41) == 8 && U16At(f, 44) == VendorCode(m.vendor)
    && U32At(f, 88) == (if m.speed == 0xFFFF then 0xFFFF else 0)
  }

  predicate EmptySlotSays(t: Table)
    requires |t.formatted| == 92
  {
    var f := t.formatted;
    && U16At(f, 8) == 0xFFFF && U16At(f, 10) == 0xFFFF && f[18] == 2 && AllZero(f, 19, 27) && AllZero(f, 32, 40)
    && f[40] == 2 && U16At(f, 41) == 4 && U16At(f, 44) == 0 && U32At(f, 88) == 0
  }

  /** The size in MiB, by the 16-bit field or the extended one, and in bytes as volatile memory. */
  predicate SizeSays(f: seq<Byte>, size: int)
    requires |f| == 92
  {
    && (if U16At(f, 12) == 0x7FFF then U32At(f, 28) == size else U16At(f, 12) == size && U32At(f, 28) == 0)
    && U64At(f, 60) == size * 0x10_0000
  }

  predicate DeviceSays(t: Table, m: MemoryProfile, index: nat)
    requires index < |m.templates| && |m.sizes| == |m.parts| == |m.serials| == |m.assets|
  {
    var f := t.formatted;
    && |f| == 92 && t.handle == 0x1100 + index && U16At(f, 4) == 0x1000 && U16At(f, 6) == 0xFFFE
    && SizeSays(f, if index < |m.sizes| then m.sizes[index] else 0)
    && f[14] == m.templates[index].formFactor && f[15] == 0 && LocatorsSay(t, m.templates[index], index)
    && (if index < |m.sizes| then ModuleSays(t, m, index) else EmptySlotSays(t))
    && f[27] == 0 && f[43] == 0 && AllZero(f, 46, 60) && AllZero(f, 68, 88)
  }

  // ----- from a printed record to what it says -----

  lemma ArrayReads(m: MemoryProfile, r: Record)
    requires ValidateArray(m.sizes, m.limits).Ok? && m.limits.slots >= 0 && ArrayTable(m, m.limits.slots) == Ok(r)
    ensures ArraySays(TableOf(r), m)
  {
    hide Formatted, Layable, Made, U64At, U32At, Le64;
    ArrayRoundTrip(m, r);
    ArrayBytes(m, r);
    HandleStays(r);
  }

  lemma ArrayBytes(m: MemoryProfile, r: Record)
    requires m.limits.slots >= 0 && ArrayTable(m, m.limits.slots) == Ok(r)
    ensures Layable(r) && |Formatted(r)| == 23 && U16At(Formatted(r), 11) == 0xFFFE && r.strings == []
  {
    hide Formatted, Layable, Made, U64At, U32At, Le64;
    BodyView(r);
  }

  lemma RangeReads(range: Range, index: nat, r: Record)
    requires RangeTable(range, index) == Ok(r)
    ensures RangeSays(TableOf(r), range, index)
  {
    hide Formatted, Layable, Made, U64At, U32At, AddressFields, FieldBytes;
    RangeDecodes(range, index, r);
    RangeMiddle(range, index, r);
    HandleStays(r);
  }

  lemma RangeMiddle(range: Range, index: nat, r: Record)
    requires RangeTable(range, index) == Ok(r)
    ensures Layable(r) && |Formatted(r)| == 31 && U16At(Formatted(r), 12) == 0x1000 && Formatted(r)[14] == 1
    ensures r.strings == []
  {
    hide Formatted, Layable, Made, Le64, AddressFields;
    BodyView(r);
    var f := AddressFields(range.start, range.end).value;
    assert r.body[8] == B0(ARRAY_HANDLE) && r.body[9] == B1(ARRAY_HANDLE) && r.body[10] == 1;
  }

  lemma PieceReads(piece: Piece, index: nat, r: Record)
    requires PieceTable(piece, index) == Ok(r)
    ensures PieceSays(TableOf(r), piece, index)
  {
    hide Formatted, Layable, Made, U64At, U32At, AddressFields, FieldBytes;
    PieceDecodes(piece, index, r);
    PieceMiddle(piece, index, r);
    HandleStays(r);
  }

  lemma PieceMiddle(piece: Piece, index: nat, r: Record)
    requires PieceTable(piece, index) == Ok(r)
    ensures Layable(r) && |Formatted(r)| == 35 && r.strings == []
    ensures U16At(Formatted(r), 12) == 0x1100 + piece.device && U16At(Formatted(r), 14) == 0x1300 + piece.mapped
    ensures Formatted(r)[16] == 1 && Formatted(r)[17] == 0 && Formatted(r)[18] == 0
  {
    hide Formatted, Layable, Made, Le64, AddressFields;
    BodyView(r);
    var device, mapped := DEVICE_HANDLE + piece.device, RANGE_HANDLE + piece.mapped;
    Lanes16(device);
    Lanes16(mapped);
    assert r.body[8] == B0(device) && r.body[9] == B1(device) && r.body[10] == B0(mapped) && r.body[11] == B1(mapped);
    assert r.body[12] == 1 && r.body[13] == 0 && r.body[14] == 0;
  }

  // ----- Type 17 -----

  lemma HeadFront(slot: Slot, typeCode: Byte, rated: int, speed: int, low: int, high: int, now: int)
    requires FitsByte(slot.formFactor)
    ensures var head := DeviceHead(slot, typeCode, rated, speed, low, high, now); var on := slot.installed;
      && U16At(head, 0) == 0x1000 && U16At(head, 2) == 0xFFFE
      && U16At(head, 4) == (if on then 64 else 0xFFFF) && U16At(head, 6) == (if on then 64 else 0xFFFF)
  {
    hide Field, B2, B3;
  }

  lemma HeadMiddle(slot: Slot, typeCode: Byte, rated: int, speed: int, low: int, high: int, now: int)
    requires FitsByte(slot.formFactor) && Fits16(rated)
    ensures var head := DeviceHead(slot, typeCode, rated, speed, low, high, now); var on := slot.installed;
      && head[10] == slot.formFactor && head[11] == 0 && head[12] == 1 && head[13] == 2
      && head[14] == (if on then typeCode else 2) && U16At(head, 15) == (if on then 0x80 else 0)
      && U16At(head, 17) == rated
  {
    hide Field, B0, B1, B2, B3;
    Lanes16(rated);
  }

  lemma HeadBack(slot: Slot, typeCode: Byte, rated: int, speed: int, low: int, high: int, now: int)
    requires FitsByte(slot.formFactor) && Fits16(speed) && Fits16(low) && Fits16(high) && Fits16(now)
    ensures var head := DeviceHead(slot, typeCode, rated, speed, low, high, now); var on := slot.installed;
      && head[19] == (if on then 3 else 0) && head[20] == (if on then 4 else 0) && head[21] == (if on then 5 else 0)
      && head[22] == (if on then 6 else 0) && head[23] == 0
      && U16At(head, 28) == speed && U16At(head, 30) == low && U16At(head, 32) == high && U16At(head, 34) == now
  {
    Lanes16(speed);
    Lanes16(low);
    Lanes16(high);
    Lanes16(now);
  }

  lemma MiddleSays(on: bool, jedec: int)
    requires Fits16(jedec)
    ensures var middle := DeviceMiddle(on, jedec);
      && middle[0] == (if on then 3 else 2) && U16At(middle, 1) == (if on then 8 else 4) && middle[3] == 0
      && U16At(middle, 4) == jedec && AllZero(middle, 6, 12)
  {
    Lanes16(jedec);
  }

  lemma TailSays(size: int, speed: int)
    requires Fits32(speed) && Fits64(size * MIB)
    ensures var tail := DeviceTail(size, speed);
      && AllZero(tail, 0, 8) && U64At(tail, 8) == size * MIB && AllZero(tail, 16, 36)
      && U32At(tail, 36) == if speed >= 0xFFFF then speed else 0
  {
    hide Le32, Le64, U64At, U32At;
    var extended := if speed >= 0xFFFF then speed else 0;
    ZeroBytes();
    var tail := DeviceTail(size, speed);
    var zeros := Le64(0) + Le64(0) + Le32(0);
    ReadLe64(Le64(0), size * MIB, zeros + Le32(extended));
    assert Le64(0) + Le64(size * MIB) + (zeros + Le32(extended)) == tail;
    ReadLe32(Le64(0) + Le64(size * MIB) + zeros, extended, []);
    assert Le64(0) + Le64(size * MIB) + zeros + Le32(extended) + [] == tail;
    forall k | 0 <= k < 8
      ensures tail[k] == 0
    {
      assert tail[k] == Le64(0)[k];
    }
    forall k | 16 <= k < 36
      ensures tail[k] == 0
    {
      assert tail[k] == zeros[k - 16];
    }
  }

  lemma ZeroBytes()
    ensures (forall k :: 0 <= k < 8 ==> Le64(0)[k] == 0) && forall k :: 0 <= k < 4 ==> Le32(0)[k] == 0
  {
  }

  lemma JedecMeans(vendor: string)
    ensures JedecFrom(Lower(vendor), 0) == VendorCode(vendor)
  {
    hide Contains, Lower;
    var name := Lower(vendor);
    assert JedecFrom(name, 7) == 0;
    assert JedecFrom(name, 6) == if Contains(name, "adata") then 0xCB01 else 0;
    assert JedecFrom(name, 5) == if Contains(name, "corsair") then 0x9E01 else JedecFrom(name, 6);
    assert JedecFrom(name, 4) == if Contains(name, "kingston") then 0x9801 else JedecFrom(name, 5);
    assert JedecFrom(name, 3) == if Contains(name, "crucial") then 0x2C00 else JedecFrom(name, 4);
    assert JedecFrom(name, 2) == if Contains(name, "micron") then 0x2C00 else JedecFrom(name, 3);
    assert JedecFrom(name, 1) == if Contains(name, "hynix") then 0xAD00 else JedecFrom(name, 2);
  }

  /** What the parts of a Type 17 body hold, at their own offsets. */
  predicate HeadSays(head: seq<Byte>, slot: Slot, typeCode: Byte, speed: int, low: int, high: int, now: int) {
    var on, field := slot.installed, Field(slot.sizeMib);
    && |head| == 36 && U16At(head, 0) == 0x1000 && U16At(head, 2) == 0xFFFE
    && U16At(head, 4) == (if on then 64 else 0xFFFF) && U16At(head, 6) == (if on then 64 else 0xFFFF)
    && U16At(head, 8) == field && U32At(head, 24) == (if field == SIZE_SENTINEL then slot.sizeMib else 0)
    && head[10] as int == slot.formFactor && head[11] == 0 && head[12] == 1 && head[13] == 2
    && head[14] == (if on then typeCode else 2) && U16At(head, 15) == (if on then 0x80 else 0)
    && U16At(head, 17) == speed
    && head[19] == (if on then 3 else 0) && head[20] == (if on then 4 else 0) && head[21] == (if on then 5 else 0)
    && head[22] == (if on then 6 else 0) && head[23] == 0
    && U16At(head, 28) == speed && U16At(head, 30) == low && U16At(head, 32) == high && U16At(head, 34) == now
  }

  predicate RestSays(middle: seq<Byte>, tail: seq<Byte>, slot: Slot, jedec: int, speed: int) {
    && |middle| == 12 && |tail| == 40
    && middle[0] == (if slot.installed then 3 else 2) && U16At(middle, 1) == (if slot.installed then 8 else 4)
    && middle[3] == 0 && U16At(middle, 4) == jedec && AllZero(middle, 6, 12)
    && AllZero(tail, 0, 8) && U64At(tail, 8) == slot.sizeMib * MIB && AllZero(tail, 16, 36)
    && U32At(tail, 36) == if speed >= 0xFFFF then speed else 0
  }

  predicate Placed(f: seq<Byte>, head: seq<Byte>, middle: seq<Byte>, tail: seq<Byte>) {
    && |f| == 92 && |head| == 36 && |middle| == 12 && |tail| == 40
    && (forall k :: 4 <= k < 40 ==> f[k] == head[k - 4]) && (forall k :: 40 <= k < 52 ==> f[k] == middle[k - 40])
    && (forall k :: 52 <= k < 92 ==> f[k] == tail[k - 52])
  }

  lemma HeadHolds(slot: Slot, typeCode: Byte, speed: int, low: int, high: int, now: int)
    requires FitsByte(slot.formFactor) && Fits16(speed) && Fits16(low) && Fits16(high) && Fits16(now)
    requires 0 <= slot.sizeMib < 0x8000_0000
    ensures HeadSays(DeviceHead(slot, typeCode, speed, speed, low, high, now), slot, typeCode, speed, low, high, now)
  {
    hide DeviceHead, U16At, U32At, Field;
    HeadFront(slot, typeCode, speed, speed, low, high, now);
    HeadMiddle(slot, typeCode, speed, speed, low, high, now);
    HeadBack(slot, typeCode, speed, speed, low, high, now);
    HeadSizes(slot, typeCode, speed, speed, low, high, now);
  }

  /** The body and the strings of a Type 17 record that was made. */
  lemma DeviceParts(m: MemoryProfile, slot: Slot, index: nat, r: Record) returns (middle: seq<Byte>, tail: seq<Byte>)
    requires DeviceTable(m, slot, index) == Ok(r) && 0 <= slot.sizeMib < 0x8000_0000
    ensures FitsByte(slot.formFactor) && (slot.installed ==> FitsByte(m.typeCode))
    ensures slot.installed ==> index < |m.parts| && index < |m.serials| && index < |m.assets|
    ensures Layable(r) && TableOf(r).handle == 0x1100 + index
    ensures var on, f := slot.installed, TableOf(r).formatted;
      var speed := if on then m.speed else 0;
      var low, high := if on then m.minVoltage else 0, if on then m.maxVoltage else 0;
      var now := if on then m.configuredVoltage else 0;
      var code: Byte := if on then m.typeCode else 0;
      var head := DeviceHead(slot, code, speed, speed, low, high, now);
      && HeadSays(head, slot, code, speed, low, high, now)
      && RestSays(middle, tail, slot, if on then VendorCode(m.vendor) else 0, speed)
      && Placed(f, head, middle, tail)
    ensures Lists(TableOf(r), [slot.deviceLocator, slot.bankLocator]
      + if slot.installed then [m.vendor, m.serials[index], m.assets[index], m.parts[index]] else [])
  {
    hide DeviceHead, DeviceMiddle, DeviceTail, Made, TableOf, Layable, Lists, HeadSays, JedecFrom, VendorCode, U16At,
      U32At, U64At, AllZero, Lower;
    var on := slot.installed;
    var speed := if on then m.speed else 0;
    var low, high := if on then m.minVoltage else 0, if on then m.maxVoltage else 0;
    var now := if on then m.configuredVoltage else 0;
    var code: Byte := if on then m.typeCode else 0;
    var jedec := if on then JedecFrom(Lower(m.vendor), 0) else 0;
    var head := DeviceHead(slot, code, speed, speed, low, high, now);
    middle, tail := DeviceMiddle(on, jedec), DeviceTail(slot.sizeMib, speed);
    MadeSpells(17, DEVICE_HANDLE + index, head + middle + tail,
      [slot.deviceLocator, slot.bankLocator]
      + if on then [m.vendor, m.serials[index], m.assets[index], m.parts[index]] else [], r);
    HandleStays(r);
    HeadHolds(slot, code, speed, low, high, now);
    JedecMeans(m.vendor);
    MiddleSays(on, jedec);
    TailSays(slot.sizeMib, speed);
    Placing(TableOf(r).formatted, head, middle, tail);
  }

  lemma Placing(f: seq<Byte>, head: seq<Byte>, middle: seq<Byte>, tail: seq<Byte>)
    requires |head| == 36 && |middle| == 12 && |tail| == 40 && |f| == 92
    requires forall k :: 4 <= k < 92 ==> f[k] == (head + middle + tail)[k - 4]
    ensures Placed(f, head, middle, tail)
  {
  }

  /** Words read at an offset of the structure are the words of the part they lie in. */
  lemma PlacedReads(f: seq<Byte>, head: seq<Byte>, middle: seq<Byte>, tail: seq<Byte>)
    requires Placed(f, head, middle, tail)
    ensures forall k :: 4 <= k < 39 ==> U16At(f, k) == U16At(head, k - 4)
    ensures U32At(f, 28) == U32At(head, 24) && U16At(f, 41) == U16At(middle, 1) && U16At(f, 44) == U16At(middle, 4)
    ensures U64At(f, 60) == U64At(tail, 8) && U32At(f, 88) == U32At(tail, 36)
  {
  }

  /** The fields common to slots with and without a module. */
  lemma SlotFields(f: seq<Byte>, slot: Slot, code: Byte, speed: int, low: int, high: int, now: int, jedec: int,
                   head: seq<Byte>, middle: seq<Byte>, tail: seq<Byte>)
    requires HeadSays(head, slot, code, speed, low, high, now) && RestSays(middle, tail, slot, jedec, speed)
    requires Placed(f, head, middle, tail)
    ensures |f| == 92 && U16At(f, 4) == 0x1000 && U16At(f, 6) == 0xFFFE && SizeSays(f, slot.sizeMib)
    ensures f[14] as int == slot.formFactor && f[15] == 0 && f[16] == 1 && f[17] == 2
    ensures f[27] == 0 && f[43] == 0 && AllZero(f, 46, 60) && AllZero(f, 68, 88)
  {
    hide U16At, U32At, U64At;
    PlacedReads(f, head, middle, tail);
  }

  lemma ModuleFields(t: Table, m: MemoryProfile, index: nat, head: seq<Byte>, middle: seq<Byte>, tail: seq<Byte>)
    requires index < |m.sizes| == |m.parts| == |m.serials| == |m.assets| && index < |m.templates|
    requires FitsByte(m.typeCode)
    requires t.handle == 0x1100 + index
    requires var slot := SlotAt(m.sizes, m.templates, index);
      && HeadSays(head, slot, m.typeCode, m.speed, m.minVoltage, m.maxVoltage, m.configuredVoltage)
      && RestSays(middle, tail, slot, VendorCode(m.vendor), m.speed) && Placed(t.formatted, head, middle, tail)
      && Lists(t, [slot.deviceLocator, slot.bankLocator]
         + [m.vendor, m.serials[index], m.assets[index], m.parts[index]])
    ensures DeviceSays(t, m, index)
  {
    hide U16At, U32At, U64At, VendorCode, Spells, Dec, SizeSays;
    var f, slot := t.formatted, SlotAt(m.sizes, m.templates, index);
    SlotFields(f, slot, m.typeCode, m.speed, m.minVoltage, m.maxVoltage, m.configuredVoltage, VendorCode(m.vendor),
      head, middle, tail);
    PlacedReads(f, head, middle, tail);
    assert f[18] == head[14] && f[23] == head[19] && f[24] == head[20] && f[25] == head[21] && f[26] == head[22];
    assert f[40] == middle[0];
  }

  lemma EmptyFields(t: Table, m: MemoryProfile, index: nat, head: seq<Byte>, middle: seq<Byte>, tail: seq<Byte>)
    requires |m.sizes| == |m.parts| == |m.serials| == |m.assets| && |m.sizes| <= index < |m.templates|
    requires t.handle == 0x1100 + index
    requires var slot := SlotAt(m.sizes, m.templates, index);
      && HeadSays(head, slot, 0, 0, 0, 0, 0) && RestSays(middle, tail, slot, 0, 0)
      && Placed(t.formatted, head, middle, tail)
      && Lists(t, [slot.deviceLocator, slot.bankLocator] + [])
    ensures DeviceSays(t, m, index)
  {
    hide U32At, U64At, VendorCode, Spells, Dec, SizeSays;
    var f, slot := t.formatted, SlotAt(m.sizes, m.templates, index);
    SlotFields(f, slot, 0, 0, 0, 0, 0, 0, head, middle, tail);
    PlacedReads(f, head, middle, tail);
    EmptyBytes(f, head, middle, tail, slot);
    assert f[40] == middle[0] && f[18] == head[14];
  }

  lemma EmptyBytes(f: seq<Byte>, head: seq<Byte>, middle: seq<Byte>, tail: seq<Byte>, slot: Slot)
    requires HeadSays(head, slot, 0, 0, 0, 0, 0) && Placed(f, head, middle, tail) && !slot.installed
    ensures AllZero(f, 19, 27) && AllZero(f, 32, 40)
  {
    hide U32At, Field;
  }

  /** What a made Type 17 record says of its slot. */
  lemma DeviceReads(m: MemoryProfile, index: nat, r: Record)
    requires |m.sizes| == |m.parts| == |m.serials| == |m.assets| && index < |m.templates|
    requires DeviceTable(m, SlotAt(m.sizes, m.templates, index), index) == Ok(r)
    requires index < |m.sizes| ==> 0 <= m.sizes[index] < 0x8000_0000
    ensures DeviceSays(TableOf(r), m, index)
  {
    hide DeviceHead, DeviceTable, TableOf, Layable, DeviceSays, VendorCode, HeadSays, RestSays, Placed, Lists, Dec;
    var slot := SlotAt(m.sizes, m.templates, index);
    var middle, tail := DeviceParts(m, slot, index, r);
    if slot.installed {
      var head := DeviceHead(slot, m.typeCode, m.speed, m.speed, m.minVoltage, m.maxVoltage, m.configuredVoltage);
      ModuleFields(TableOf(r), m, index, head, middle, tail);
    } else {
      var head := DeviceHead(slot, 0, 0, 0, 0, 0, 0);
      EmptyFields(TableOf(r), m, index, head, middle, tail);
    }
  }
}

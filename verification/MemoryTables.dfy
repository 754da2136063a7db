/**
 `memory_tables`: the Type 16, 17, 19 and 20 structures of the guest, and what a reader decodes
 from them (DMTF DSP0134 sections 7.17, 7.18, 7.20 and 7.21).
 */
module MemoryTables {
  import opened Outcomes
  import opened Bytes
  import opened Sequences
  import opened Text
  import opened Structures
  import opened DimmLayout
  import opened MemorySlots
  import opened MemoryMap

  const ARRAY_HANDLE := 0x1000
  const DEVICE_HANDLE := 0x1100
  const RANGE_HANDLE := 0x1300
  const PIECE_HANDLE := 0x1400

  datatype MemoryProfile = MemoryProfile(
    sizes: seq<int>, limits: MemoryArray, templates: seq<Template>,
    parts: seq<string>, serials: seq<string>, assets: seq<string>,
    vendor: string, typeCode: int, speed: int, ratedSpeed: int,
    minVoltage: int, maxVoltage: int, configuredVoltage: int)

  // ----- Type 16 -----

  const CAPACITY_SENTINEL := 0x8000_0000

  function CapacityField(maximum: int): int {
    if maximum < CAPACITY_SENTINEL * 1024 then maximum / 1024 else CAPACITY_SENTINEL
  }

  function ArrayTable(p: MemoryProfile, slotCount: nat): (t: Result<Record>)
    ensures t.Ok? ==> Layable(t.value) && t.value.kind == 16 && t.value.handle == ARRAY_HANDLE
  {
    var a := p.limits;
    var field := CapacityField(a.maximumBytes);
    var extended := if field == CAPACITY_SENTINEL then a.maximumBytes else 0;
    if !FitsByte(a.location) || !FitsByte(a.use) || !FitsByte(a.errorCorrection) || !Fits32(field)
       || !Fits16(slotCount) || !Fits64(extended) then Err(StructError)
    else Made(16, ARRAY_HANDLE,
              [a.location, a.use, a.errorCorrection, B0(field), B1(field), B2(field), B3(field), 0xFE, 0xFF,
               B0(slotCount), B1(slotCount)] + Le64(extended), [])
  }

  /** The Type 16 decoding of `host_smbios_facts`. */
  function DecodeArray(formatted: seq<Byte>): Result<MemoryArray> {
    if |formatted| < 15 then Err(RuntimeError)
    else
      var kib := U32At(formatted, 7);
      if kib == CAPACITY_SENTINEL && |formatted| < 23 then Err(RuntimeError)
      else Ok(MemoryArray(formatted[4], formatted[5], formatted[6],
                          if kib == CAPACITY_SENTINEL then U64At(formatted, 15) else kib * 1024,
                          U16At(formatted, 13)))
  }

  // ----- Type 17 -----

  const SIZE_SENTINEL := 0x7FFF

  const JEDEC_IDS: seq<(string, int)> := [("samsung", 0xCE00), ("hynix", 0xAD00), ("micron", 0x2C00),
    ("crucial", 0x2C00), ("kingston", 0x9801), ("corsair", 0x9E01), ("adata", 0xCB01)]

  /** `memory_jedec_id`: the code of the first known token in the vendor's name. */
  function JedecFrom(name: string, i: nat): (code: int)
    requires i <= |JEDEC_IDS|
    ensures Fits16(code)
    decreases |JEDEC_IDS| - i
  {
    if i == |JEDEC_IDS| then 0
    else if Contains(name, JEDEC_IDS[i].0) then JEDEC_IDS[i].1
    else JedecFrom(name, i + 1)
  }

  predicate VoltageOk(v: int) {
    800 <= v <= 2000
  }

  function Field(size: int): int {
    if size < SIZE_SENTINEL then size else SIZE_SENTINEL
  }

  /** Offsets 4 to 39 of a Type 17 structure. */
  function DeviceHead(slot: Slot, typeCode: Byte, rated: int, speed: int, low: int, high: int, now: int): (b: seq<Byte>)
    requires FitsByte(slot.formFactor)
    ensures |b| == 36
  {
    var on := slot.installed;
    var field := Field(slot.sizeMib);
    var extended := if field == SIZE_SENTINEL then slot.sizeMib else 0;
    var short := if speed < 0xFFFF then speed else 0xFFFF;
    var width := if on then 64 else 0xFFFF;
    [B0(ARRAY_HANDLE), B1(ARRAY_HANDLE), 0xFE, 0xFF, B0(width), B1(width), B0(width), B1(width), B0(field), B1(field),
     slot.formFactor, 0, 1, 2, if on then typeCode else 0x02,
     if on then 0x80 else 0, 0, B0(rated), B1(rated),
     if on then 3 else 0, if on then 4 else 0, if on then 5 else 0, if on then 6 else 0, 0,
     B0(extended), B1(extended), B2(extended), B3(extended), B0(short), B1(short),
     B0(low), B1(low), B0(high), B1(high), B0(now), B1(now)]
  }

  /** Offsets 40 to 51: memory technology, capability, and the module manufacturer. */
  function DeviceMiddle(on: bool, jedec: int): (b: seq<Byte>)
    ensures |b| == 12 && b[3] == 0
  {
    [if on then 3 else 2, if on then 8 else 4, 0, 0, B0(jedec), B1(jedec), 0, 0, 0, 0, 0, 0]
  }

  /** Offsets 52 to 91: non-volatile, volatile, cache and logical sizes, and extended speeds. */
  function DeviceTail(size: int, speed: int): (b: seq<Byte>)
    requires Fits32(speed) && Fits64(size * MIB)
    ensures |b| == 40
  {
    Le64(0) + Le64(size * MIB) + (Le64(0) + Le64(0) + Le32(0) + Le32(if speed >= 0xFFFF then speed else 0))
  }

  function DeviceTable(p: MemoryProfile, slot: Slot, index: nat): (t: Result<Record>)
    ensures t.Ok? ==> Layable(t.value) && t.value.kind == 17 && t.value.handle == DEVICE_HANDLE + index
  {
    var on := slot.installed;
    var speed, rated := if on then p.speed else 0, if on then p.ratedSpeed else 0;
    var low := if on then p.minVoltage else 0;
    var high := if on then p.maxVoltage else 0;
    var now := if on then p.configuredVoltage else 0;
    if !Fits32(rated) || !Fits32(speed) then Err(ValueError)
    else if on && rated != speed then Err(ValueError)
    else if on && !(VoltageOk(low) && VoltageOk(high) && VoltageOk(now)) then Err(ValueError)
    else if !FitsByte(slot.formFactor) || (on && !FitsByte(p.typeCode)) || !Fits16(rated)
            || !Fits32(slot.sizeMib) || !Fits64(slot.sizeMib * MIB) then Err(StructError)
    else if on && !(index < |p.parts| && index < |p.serials| && index < |p.assets|) then Err(IndexError)
    else
      var body := DeviceHead(slot, if on then p.typeCode else 0, rated, speed, low, high, now)
                  + DeviceMiddle(on, if on then JedecFrom(Lower(p.vendor), 0) else 0)
                  + DeviceTail(slot.sizeMib, speed);
      Made(17, DEVICE_HANDLE + index, body,
           [slot.deviceLocator, slot.bankLocator]
           + if on then [p.vendor, p.serials[index], p.assets[index], p.parts[index]] else [])
  }

  /** The size a reader takes from a Type 17 structure, in MiB. */
  function DecodeDeviceMib(formatted: seq<Byte>): int
    requires |formatted| >= 32
  {
    var field := U16At(formatted, 12);
    if field == SIZE_SENTINEL then U32At(formatted, 28) % 0x8000_0000 else field
  }

  // ----- Types 19 and 20 -----

  function FieldBytes(f: Fields, middle: seq<Byte>): Result<seq<Byte>> {
    if !Fits32(f.first) || !Fits32(f.last) || !Fits64(f.extendedFirst) || !Fits64(f.extendedLast) then Err(StructError)
    else Ok([B0(f.first), B1(f.first), B2(f.first), B3(f.first), B0(f.last), B1(f.last), B2(f.last), B3(f.last)]
            + middle + Le64(f.extendedFirst) + Le64(f.extendedLast))
  }

  function RangeTable(r: Range, index: nat): (t: Result<Record>)
    ensures t.Ok? ==> Layable(t.value) && t.value.kind == 19 && t.value.handle == RANGE_HANDLE + index
  {
    var f :- AddressFields(r.start, r.end);
    var body :- FieldBytes(f, [B0(ARRAY_HANDLE), B1(ARRAY_HANDLE), 1]);
    Made(19, RANGE_HANDLE + index, body, [])
  }

  function PieceTable(piece: Piece, index: nat): (t: Result<Record>)
    ensures t.Ok? ==> Layable(t.value) && t.value.kind == 20 && t.value.handle == PIECE_HANDLE + index
  {
    var f :- AddressFields(piece.start, piece.end);
    var device, mapped := DEVICE_HANDLE + piece.device, RANGE_HANDLE + piece.mapped;
    if !Fits16(device) || !Fits16(mapped) then Err(StructError)
    else
      var body :- FieldBytes(f, [B0(device), B1(device), B0(mapped), B1(mapped), 1, 0, 0]);
      Made(20, PIECE_HANDLE + index, body, [])
  }

  /** The range a reader takes from a Type 19 or Type 20 structure. */
  function DecodeRange(formatted: seq<Byte>, extendedAt: nat): (int, int)
    requires 12 <= extendedAt && extendedAt + 16 <= |formatted|
  {
    DecodeFields(Fields(U32At(formatted, 4), U32At(formatted, 8), U64At(formatted, extendedAt),
      U64At(formatted, extendedAt + 8)))
  }

  // ----- the list -----

  /** The calls `memory_tables` makes for its structures, in order. */
  function MemoryCalls(p: MemoryProfile, ranges: seq<Range>, slots: seq<Slot>): (calls: seq<Result<Record>>) {
    [ArrayTable(p, |slots|)] + DeviceCalls(p, slots) + RangeCalls(ranges)
      + PieceCalls(Pieces(p.sizes, ranges, |p.sizes|))
  }

  function DeviceCalls(p: MemoryProfile, slots: seq<Slot>): (calls: seq<Result<Record>>)
    ensures |calls| == |slots| && forall i :: 0 <= i < |slots| ==> calls[i] == DeviceTable(p, slots[i], i)
  {
    seq(|slots|, i requires 0 <= i < |slots| => DeviceTable(p, slots[i], i))
  }

  function RangeCalls(ranges: seq<Range>): (calls: seq<Result<Record>>)
    ensures |calls| == |ranges| && forall i :: 0 <= i < |ranges| ==> calls[i] == RangeTable(ranges[i], i)
  {
    seq(|ranges|, i requires 0 <= i < |ranges| => RangeTable(ranges[i], i))
  }

  function PieceCalls(pieces: seq<Piece>): (calls: seq<Result<Record>>)
    ensures |calls| == |pieces| && forall i :: 0 <= i < |pieces| ==> calls[i] == PieceTable(pieces[i], i)
  {
    seq(|pieces|, i requires 0 <= i < |pieces| => PieceTable(pieces[i], i))
  }

  /** The structures `memory_tables` returns, as records, or the exception it raises. */
  function MemoryRecords(p: MemoryProfile): Result<seq<Record>> {
    var guard :- ValidateArray(p.sizes, p.limits);
    var ranges :- Q35Ranges(Sum(p.sizes) * MIB);
    var slots :- GuestSlotsOf(p.sizes, p.templates, p.limits);
    if |p.parts| != |p.sizes| || |p.serials| != |p.sizes| || |p.assets| != |p.sizes| then Err(ValueError)
    else Collect(MemoryCalls(p, ranges, slots))
  }

  /** Where each structure stands among the calls. */
  lemma MemoryCallsAt(p: MemoryProfile, ranges: seq<Range>, slots: seq<Slot>)
    ensures var calls, pieces := MemoryCalls(p, ranges, slots), Pieces(p.sizes, ranges, |p.sizes|);
      && |calls| == 1 + |slots| + |ranges| + |pieces| && calls[0] == ArrayTable(p, |slots|)
      && (forall i :: 0 <= i < |slots| ==> calls[1 + i] == DeviceTable(p, slots[i], i))
      && (forall i :: 0 <= i < |ranges| ==> calls[1 + |slots| + i] == RangeTable(ranges[i], i))
      && (forall i :: 0 <= i < |pieces| ==> calls[1 + |slots| + |ranges| + i] == PieceTable(pieces[i], i))
  {
    hide ArrayTable, DeviceTable, RangeTable, PieceTable, Pieces, DeviceCalls, RangeCalls, PieceCalls;
    var pieces := Pieces(p.sizes, ranges, |p.sizes|);
    FourParts(ArrayTable(p, |slots|), DeviceCalls(p, slots), RangeCalls(ranges), PieceCalls(pieces),
              MemoryCalls(p, ranges, slots));
  }

  lemma MemoryCallsLayable(p: MemoryProfile, ranges: seq<Range>, slots: seq<Slot>)
    ensures OkLayable(MemoryCalls(p, ranges, slots))
  {
    hide Layable, ArrayTable, DeviceTable, RangeTable, PieceTable, Pieces;
  }

  /** `memory_tables`, structure by structure. */
  method BuildMemoryTables(p: MemoryProfile) returns (r: Result<seq<seq<Byte>>>)
    ensures MemoryRecords(p).Ok? ==>
      AllLayable(MemoryRecords(p).value) && r == Ok(LayAll(MemoryRecords(p).value))
    ensures MemoryRecords(p).Err? ==> r == Err(MemoryRecords(p).error)
  {
    hide Layable, ArrayTable, DeviceTable, RangeTable, PieceTable, Pieces, Lay, Printed, Collect, MemoryCalls;
    var guard := ValidateArray(p.sizes, p.limits);
    if guard.Err? {
      return Err(guard.error);
    }
    var ranges := Q35Ranges(Sum(p.sizes) * MIB);
    if ranges.Err? {
      return Err(ranges.error);
    }
    var slots := GuestSlots(p.sizes, p.templates, p.limits);
    if slots.Err? {
      return Err(slots.error);
    }
    if |p.parts| != |p.sizes| || |p.serials| != |p.sizes| || |p.assets| != |p.sizes| {
      return Err(ValueError);
    }
    ghost var calls := MemoryCalls(p, ranges.value, slots.value);
    MemoryCallsLayable(p, ranges.value, slots.value);
    MemoryCallsAt(p, ranges.value, slots.value);
    NonePrinted(calls);
    var first := ArrayTable(p, |slots.value|);
    OnePrinted(calls, 0, []);
    if first.Err? {
      return Err(first.error);
    }
    var tables := [] + [Lay(first.value)];
    for index := 0 to |slots.value|
      invariant Printed(calls, 1 + index, tables)
    {
      var table := DeviceTable(p, slots.value[index], index);
      assert table == calls[1 + index];
      OnePrinted(calls, 1 + index, tables);
      if table.Err? {
        return Err(table.error);
      }
      tables := tables + [Lay(table.value)];
    }
    for index := 0 to |ranges.value|
      invariant Printed(calls, 1 + |slots.value| + index, tables)
    {
      var table := RangeTable(ranges.value[index], index);
      assert table == calls[1 + |slots.value| + index];
      OnePrinted(calls, 1 + |slots.value| + index, tables);
      if table.Err? {
        return Err(table.error);
      }
      tables := tables + [Lay(table.value)];
    }
    var pieces := DeviceRanges(p.sizes, ranges.value);
    for index := 0 to |pieces|
      invariant Printed(calls, 1 + |slots.value| + |ranges.value| + index, tables)
    {
      var table := PieceTable(pieces[index], index);
      assert table == calls[1 + |slots.value| + |ranges.value| + index];
      OnePrinted(calls, 1 + |slots.value| + |ranges.value| + index, tables);
      if table.Err? {
        return Err(table.error);
      }
      tables := tables + [Lay(table.value)];
    }
    AllPrinted(calls, tables);
    return Ok(tables);
  }
}

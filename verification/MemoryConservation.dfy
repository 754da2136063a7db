/**
 What readers decode from the emitted memory tables: the platform array comes back as it was,
 and the sizes of Type 17, the lengths of Type 19 and the lengths of Type 20 all add up to the
 memory of the guest.
 */
module MemoryConservation {
  import opened Outcomes
  import opened Bytes
  import opened Sequences
  import opened Structures
  import opened DimmLayout
  import opened MemorySlots
  import opened MemoryMap
  import opened MemoryTables

  lemma FormattedAt(r: Record, k: nat)
    requires Layable(r) && HEADER <= k < |r.body| + HEADER
    ensures Formatted(r)[k] == r.body[k - HEADER]
  {
    assert Formatted(r)[HEADER..][k - HEADER] == Formatted(r)[k];
  }

  lemma U16In(r: Record, k: nat)
    requires Layable(r) && HEADER <= k && k + 2 <= |r.body| + HEADER
    ensures U16At(Formatted(r), k) == U16At(r.body, k - HEADER)
  {
    FormattedAt(r, k);
    FormattedAt(r, k + 1);
  }

  lemma U32In(r: Record, k: nat)
    requires Layable(r) && HEADER <= k && k + 4 <= |r.body| + HEADER
    ensures U32At(Formatted(r), k) == U32At(r.body, k - HEADER)
  {
    U16In(r, k);
    U16In(r, k + 2);
  }

  lemma U64In(r: Record, k: nat)
    requires Layable(r) && HEADER <= k && k + 8 <= |r.body| + HEADER
    ensures U64At(Formatted(r), k) == U64At(r.body, k - HEADER)
  {
    U32In(r, k);
    U32In(r, k + 4);
  }

  /** The Type 16 record decodes, through the host reader, to the very array it was made from. */
  lemma ArrayRoundTrip(p: MemoryProfile, r: Record)
    requires ValidateArray(p.sizes, p.limits).Ok? && ArrayTable(p, p.limits.slots) == Ok(r)
    ensures |r.body| == 19 && DecodeArray(Formatted(r)) == Ok(p.limits)
  {
    hide Formatted, Layable, Le64, U64At;
    var a := p.limits;
    var field := CapacityField(a.maximumBytes);
    var extended := if field == CAPACITY_SENTINEL then a.maximumBytes else 0;
    var head: seq<Byte> := [a.location, a.use, a.errorCorrection,
                            B0(field), B1(field), B2(field), B3(field), 0xFE, 0xFF,
               B0(a.slots), B1(a.slots)];
    assert r.body == head + Le64(extended);
    Lanes32(field);
    Lanes16(a.slots);
    U32In(r, 7);
    U16In(r, 13);
    FormattedAt(r, 4);
    FormattedAt(r, 5);
    FormattedAt(r, 6);
    U64In(r, 15);
    ReadLe64(head, extended, []);
    assert head + Le64(extended) + [] == r.body;
  }

  lemma DeviceFieldRoundTrip(size: int)
    requires 0 <= size < 0x8000_0000
    ensures var field := Field(size); var extended := if field == SIZE_SENTINEL then size else 0;
      Fits16(field) && Fits32(extended) && size == (if field == SIZE_SENTINEL then extended % 0x8000_0000 else field)
  {
  }

  lemma DeviceBodyOf(p: MemoryProfile, slot: Slot, index: nat, r: Record)
    requires DeviceTable(p, slot, index) == Ok(r)
    ensures FitsByte(slot.formFactor) && |r.body| == 88
    ensures slot.installed
            ==> FitsByte(p.typeCode) && r.body[..36] == DeviceHead(slot, p.typeCode, p.ratedSpeed, p.speed,
              p.minVoltage, p.maxVoltage, p.configuredVoltage)
    ensures !slot.installed ==> r.body[..36] == DeviceHead(slot, 0, 0, 0, 0, 0, 0)
    ensures r.body[39] == 0
  {
    hide DeviceHead;
  }

  /** A Type 17 record decodes to the size of its slot, through the sentinel when it is large. */
  lemma DeviceDecodes(p: MemoryProfile, slot: Slot, index: nat, r: Record)
    requires DeviceTable(p, slot, index) == Ok(r) && 0 <= slot.sizeMib < 0x8000_0000
    ensures |r.body| == 88 && DecodeDeviceMib(Formatted(r)) == slot.sizeMib
  {
    hide Formatted, Layable, DeviceMiddle, DeviceTail, DeviceHead, Made, JedecFrom, U16At, U32At;
    DeviceBodyOf(p, slot, index, r);
    var on := slot.installed;
    var head := r.body[..36];
    var field := Field(slot.sizeMib);
    var extended := if field == SIZE_SENTINEL then slot.sizeMib else 0;
    DeviceFieldRoundTrip(slot.sizeMib);
    if on {
      HeadSizes(slot, p.typeCode, p.ratedSpeed, p.speed, p.minVoltage, p.maxVoltage, p.configuredVoltage);
    } else {
      HeadSizes(slot, 0, 0, 0, 0, 0, 0);
    }
    U16In(r, 12);
    U32In(r, 28);
    PrefixReads(r.body, 36);
  }

  lemma PrefixReads(body: seq<Byte>, n: nat)
    requires 28 <= n <= |body|
    ensures U16At(body[..n], 8) == U16At(body, 8) && U32At(body[..n], 24) == U32At(body, 24)
  {
  }

  lemma HeadSizes(slot: Slot, typeCode: Byte, rated: int, speed: int, low: int, high: int, now: int)
    requires FitsByte(slot.formFactor) && 0 <= slot.sizeMib < 0x8000_0000
    ensures var head := DeviceHead(slot, typeCode, rated, speed, low, high, now); var field := Field(slot.sizeMib);
      U16At(head, 8) == field && U32At(head, 24) == if field == SIZE_SENTINEL then slot.sizeMib else 0
  {
    var field := Field(slot.sizeMib);
    Lanes16(field);
    Lanes32(if field == SIZE_SENTINEL then slot.sizeMib else 0);
  }

  /** A body of range fields decodes back to the range, with the fields of either width. */
  lemma FieldBytesDecode(start: int, end: int, middle: seq<Byte>, r: Record)
    requires AddressFields(start, end).Ok? && Layable(r)
    requires FieldBytes(AddressFields(start, end).value, middle) == Ok(r.body)
    ensures |r.body| == 24 + |middle|
    ensures DecodeRange(Formatted(r), 12 + |middle|) == (start, end)
  {
    hide Formatted, Layable, U32At, U64At;
    var f := AddressFields(start, end).value;
    FieldsRoundTrip(start, end);
    BodyFields(f, middle, r.body);
    U32In(r, 4);
    U32In(r, 8);
    U64In(r, 12 + |middle|);
    U64In(r, 20 + |middle|);
  }

  /** The four fields, read back from a body. */
  lemma BodyFields(f: Fields, middle: seq<Byte>, body: seq<Byte>)
    requires Fits32(f.first) && Fits32(f.last) && Fits64(f.extendedFirst) && Fits64(f.extendedLast)
    requires FieldBytes(f, middle) == Ok(body)
    ensures |body| == 24 + |middle| && U32At(body, 0) == f.first && U32At(body, 4) == f.last
    ensures U64At(body, 8 + |middle|) == f.extendedFirst && U64At(body, 16 + |middle|) == f.extendedLast
  {
    hide U64At;
    var head: seq<Byte> := [B0(f.first), B1(f.first), B2(f.first), B3(f.first),
                            B0(f.last), B1(f.last), B2(f.last), B3(f.last)];
    assert body == head + middle + Le64(f.extendedFirst) + Le64(f.extendedLast);
    Lanes32(f.first);
    Lanes32(f.last);
    ReadLe64(head + middle, f.extendedFirst, Le64(f.extendedLast));
    ReadLe64(head + middle + Le64(f.extendedFirst), f.extendedLast, []);
    assert head + middle + Le64(f.extendedFirst) + Le64(f.extendedLast) + [] == body;
    assert U32At(body, 0) == U32At(head, 0) && U32At(body, 4) == U32At(head, 4);
  }

  lemma RangeDecodes(range: Range, index: nat, r: Record)
    requires RangeTable(range, index) == Ok(r)
    ensures |r.body| == 27 && DecodeRange(Formatted(r), 15) == (range.start, range.end)
  {
    FieldBytesDecode(range.start, range.end, [B0(ARRAY_HANDLE), B1(ARRAY_HANDLE), 1], r);
  }

  lemma PieceDecodes(piece: Piece, index: nat, r: Record)
    requires PieceTable(piece, index) == Ok(r)
    ensures |r.body| == 31 && DecodeRange(Formatted(r), 19) == (piece.start, piece.end)
  {
    var device, mapped := DEVICE_HANDLE + piece.device, RANGE_HANDLE + piece.mapped;
    FieldBytesDecode(piece.start, piece.end, [B0(device), B1(device), B0(mapped), B1(mapped), 1, 0, 0], r);
  }

  // ----- the totals -----

  /** The bytes a reader counts for one record of a kind: a DIMM's size, or the length of a range. */
  function RecordBytes(kind: Byte, r: Record): int
    requires Layable(r)
  {
    if r.kind != kind then 0
    else if kind == 17 && |r.body| == 88 then DecodeDeviceMib(Formatted(r)) * MIB
    else if kind == 19 && |r.body| == 27 then var d := DecodeRange(Formatted(r), 15); d.1 - d.0 + 1
    else if kind == 20 && |r.body| == 31 then var d := DecodeRange(Formatted(r), 19); d.1 - d.0 + 1
    else 0
  }

  function DecodedTotal(kind: Byte, records: seq<Record>): int
    requires AllLayable(records)
  {
    if records == [] then 0 else RecordBytes(kind, records[0]) + DecodedTotal(kind, records[1..])
  }

  lemma {:induction false} DecodedAppend(kind: Byte, a: seq<Record>, b: seq<Record>)
    requires AllLayable(a) && AllLayable(b)
    ensures AllLayable(a + b) && DecodedTotal(kind, a + b) == DecodedTotal(kind, a) + DecodedTotal(kind, b)
    decreases |a|
  {
    hide RecordBytes, Layable;
    if a == [] {
      assert a + b == b;
    } else {
      DecodedAppend(kind, a[1..], b);
      assert (a + b)[1..] == a[1..] + b;
    }
  }

  lemma {:induction false} DecodedValues(kind: Byte, records: seq<Record>, values: seq<int>)
    requires AllLayable(records) && |values| == |records|
    requires forall i :: 0 <= i < |records| ==> RecordBytes(kind, records[i]) == values[i]
    ensures DecodedTotal(kind, records) == Sum(values)
    decreases |records|
  {
    hide RecordBytes, Layable;
    if records != [] {
      DecodedValues(kind, records[1..], values[1..]);
    }
  }

  lemma {:induction false} DecodedNone(kind: Byte, records: seq<Record>)
    requires AllLayable(records) && forall i :: 0 <= i < |records| ==> records[i].kind != kind
    ensures DecodedTotal(kind, records) == 0
    decreases |records|
  {
    if records != [] {
      DecodedNone(kind, records[1..]);
    }
  }

  lemma {:induction false} SumScaled(s: seq<int>, scaled: seq<int>)
    requires |scaled| == |s| && forall i :: 0 <= i < |s| ==> scaled[i] == s[i] * MIB
    ensures Sum(scaled) == Sum(s) * MIB
    decreases |s|
  {
    if s != [] {
      SumScaled(s[1..], scaled[1..]);
    }
  }

  lemma {:induction false} SumOfBytes(pieces: seq<Piece>, values: seq<int>)
    requires |values| == |pieces| && forall i :: 0 <= i < |pieces| ==> values[i] == PieceBytes(pieces[i])
    ensures Sum(values) == TotalBytes(pieces)
    decreases |pieces|
  {
    if pieces != [] {
      SumOfBytes(pieces[1..], values[1..]);
    }
  }

  /** The guards of `memory_tables`. */
  lemma MemoryGuards(p: MemoryProfile)
    requires MemoryRecords(p).Ok?
    ensures Q35Ranges(Sum(p.sizes) * MIB).Ok? && ValidateArray(p.sizes, p.limits).Ok?
    ensures GuestSlotsOf(p.sizes, p.templates, p.limits).Ok? && |p.templates| == p.limits.slots
    ensures |p.sizes| <= |p.templates|
    ensures |Q35Ranges(Sum(p.sizes) * MIB).value| == 2
    ensures var ranges, slots := Q35Ranges(Sum(p.sizes) * MIB).value, SlotsOf(p.sizes, p.templates);
      MemoryRecords(p) == Collect(MemoryCalls(p, ranges, slots))
  {
    hide Collect, MemoryCalls, SlotsOf, Sum;
  }

  /** The records of `memory_tables`, laid out: one array, the slots, the ranges, the pieces. */
  lemma MemoryShape(p: MemoryProfile, records: seq<Record>)
    requires MemoryRecords(p) == Ok(records)
    ensures Q35Ranges(Sum(p.sizes) * MIB).Ok? && ValidateArray(p.sizes, p.limits).Ok?
    ensures |p.templates| == p.limits.slots && |p.sizes| <= |p.templates|
    ensures GuestSlotsOf(p.sizes, p.templates, p.limits).Ok?
    ensures var slots, ranges := SlotsOf(p.sizes, p.templates), Q35Ranges(Sum(p.sizes) * MIB).value;
      var pieces := Pieces(p.sizes, ranges, |p.sizes|);
      && |ranges| == 2 && |records| == 3 + |slots| + |pieces|
      && ArrayTable(p, |slots|) == Ok(records[0])
      && (forall i :: 0 <= i < |slots| ==> DeviceTable(p, slots[i], i) == Ok(records[1 + i]))
      && (forall i :: 0 <= i < 2 ==> RangeTable(ranges[i], i) == Ok(records[1 + |slots| + i]))
      && (forall i :: 0 <= i < |pieces| ==> PieceTable(pieces[i], i) == Ok(records[3 + |slots| + i]))
  {
    hide ArrayTable, DeviceTable, RangeTable, PieceTable, Pieces, MemoryRecords, MemoryCalls, Collect, Q35Ranges,
      ValidateArray, GuestSlotsOf, SlotsOf, Sum;
    MemoryGuards(p);
    var slots, ranges := SlotsOf(p.sizes, p.templates), Q35Ranges(Sum(p.sizes) * MIB).value;
    var pieces := Pieces(p.sizes, ranges, |p.sizes|);
    var calls := MemoryCalls(p, ranges, slots);
    CollectOk(calls);
    MemoryCallsAt(p, ranges, slots);
    forall i | 0 <= i < |slots|
      ensures DeviceTable(p, slots[i], i) == Ok(records[1 + i])
    {
      assert calls[1 + i] == DeviceTable(p, slots[i], i);
    }
    forall i | 0 <= i < 2
      ensures RangeTable(ranges[i], i) == Ok(records[1 + |slots| + i])
    {
      assert calls[1 + |slots| + i] == RangeTable(ranges[i], i);
    }
    forall i | 0 <= i < |pieces|
      ensures PieceTable(pieces[i], i) == Ok(records[3 + |slots| + i])
    {
      assert calls[1 + |slots| + 2 + i] == PieceTable(pieces[i], i);
    }
  }

  lemma {:induction false} PartBoundsTotal(s: seq<int>, i: nat)
    requires (forall k :: 0 <= k < |s| ==> s[k] >= 0) && i < |s|
    ensures s[i] <= Sum(s)
    decreases |s|
  {
    if i > 0 {
      PartBoundsTotal(s[1..], i - 1);
    } else {
      SumNotNegative(s[1..]);
    }
  }

  lemma {:induction false} SumNotNegative(s: seq<int>)
    requires forall k :: 0 <= k < |s| ==> s[k] >= 0
    ensures Sum(s) >= 0
  {
    if s != [] {
      SumNotNegative(s[1..]);
    }
  }

  lemma SliceKeeps(kind: Byte, records: seq<Record>, a: nat, b: nat)
    requires AllLayable(records) && a <= b <= |records|
    ensures AllLayable(records[a..b])
    ensures (forall i :: a <= i < b ==> records[i].kind != kind)
            ==> forall i :: 0 <= i < b - a ==> records[a..b][i].kind != kind
  {
    hide Layable;
    assert forall i :: 0 <= i < b - a ==> records[a..b][i] == records[a + i];
  }

  lemma ThreeParts<T>(s: seq<T>, a: nat, b: nat)
    requires a <= b <= |s|
    ensures s == s[0..a] + (s[a..b] + s[b..|s|]) && s[a..b] + s[b..|s|] == s[a..|s|]
  {
  }

  /** Segments of a record list, decoded for one kind each. */
  lemma SplitTotal(kind: Byte, records: seq<Record>, a: nat, b: nat)
    requires AllLayable(records) && a <= b <= |records|
    requires forall i :: 0 <= i < |records| && !(a <= i < b) ==> records[i].kind != kind
    ensures AllLayable(records[a..b]) && DecodedTotal(kind, records) == DecodedTotal(kind, records[a..b])
  {
    hide RecordBytes, Layable, DecodedTotal, AllLayable;
    SliceKeeps(kind, records, 0, a);
    SliceKeeps(kind, records, a, b);
    SliceKeeps(kind, records, b, |records|);
    SliceKeeps(kind, records, a, |records|);
    var front, middle, back := records[0..a], records[a..b], records[b..|records|];
    ThreeParts(records, a, b);
    DecodedNone(kind, front);
    DecodedNone(kind, back);
    DecodedAppend(kind, middle, back);
    DecodedAppend(kind, front, middle + back);
  }

  lemma MemoryLayable(p: MemoryProfile, records: seq<Record>)
    requires MemoryRecords(p) == Ok(records)
    ensures AllLayable(records)
  {
    hide ArrayTable, DeviceTable, RangeTable, PieceTable, Pieces, Layable, MemoryCalls;
    var slots, ranges := SlotsOf(p.sizes, p.templates), Q35Ranges(Sum(p.sizes) * MIB).value;
    MemoryCallsLayable(p, ranges, slots);
    CollectOk(MemoryCalls(p, ranges, slots));
  }

  lemma FirstIsArray(p: MemoryProfile, records: seq<Record>)
    requires MemoryRecords(p) == Ok(records)
    ensures records != [] && p.limits.slots >= 0 && ArrayTable(p, p.limits.slots) == Ok(records[0])
    ensures ValidateArray(p.sizes, p.limits).Ok?
  {
    hide ArrayTable, DeviceTable, RangeTable, PieceTable, Pieces, Layable;
    MemoryShape(p, records);
  }

  lemma DevicesTotal(p: MemoryProfile, records: seq<Record>)
    requires MemoryRecords(p) == Ok(records) && AllLayable(records)
    ensures DecodedTotal(17, records) == Sum(p.sizes) * MIB
  {
    hide ArrayTable, DeviceTable, RangeTable, PieceTable, Pieces, Layable, MemoryRecords, DecodedTotal, DecodeDeviceMib;
    MemoryShape(p, records);
    KindsOfMemory(p, records);
    var slots := SlotsOf(p.sizes, p.templates);
    var devices := records[1..1 + |slots|];
    SplitTotal(17, records, 1, 1 + |slots|);
    var values := seq(|slots|, i requires 0 <= i < |slots| => slots[i].sizeMib * MIB);
    forall i | 0 <= i < |slots|
      ensures RecordBytes(17, devices[i]) == values[i]
    {
      assert devices[i] == records[1 + i];
      SlotSizeBound(p, i);
      DeviceDecodes(p, slots[i], i, records[1 + i]);
      assert records[1 + i].kind == 17;
    }
    DecodedValues(17, devices, values);
    SumScaled(SlotSizes(slots), values);
    SlotsKeepTotal(p.sizes, p.templates);
  }

  lemma SlotSizeBound(p: MemoryProfile, i: nat)
    requires ValidateArray(p.sizes, p.limits).Ok? && Q35Ranges(Sum(p.sizes) * MIB).Ok? && i < |p.templates|
    ensures 0 <= SlotsOf(p.sizes, p.templates)[i].sizeMib < 0x8000_0000
  {
    if i < |p.sizes| {
      assert forall k :: 0 <= k < |p.sizes| ==> ValidModule(p.sizes[k]);
      PartBoundsTotal(p.sizes, i);
    }
  }

  lemma KindsOfMemory(p: MemoryProfile, records: seq<Record>)
    requires MemoryRecords(p) == Ok(records)
    ensures var n := |p.templates|;
      && n + 3 <= |records| && records[0].kind == 16
      && (forall i :: 1 <= i < 1 + n ==> records[i].kind == 17)
      && (forall i :: 1 + n <= i < 3 + n ==> records[i].kind == 19)
      && (forall i :: 3 + n <= i < |records| ==> records[i].kind == 20)
  {
    hide ArrayTable, DeviceTable, RangeTable, PieceTable, Pieces;
    MemoryShape(p, records);
    var slots, ranges := SlotsOf(p.sizes, p.templates), Q35Ranges(Sum(p.sizes) * MIB).value;
    var pieces := Pieces(p.sizes, ranges, |p.sizes|);
    forall i | 1 <= i < |records|
      ensures records[i].kind == if i < 1 + |slots| then 17 else if i < 3 + |slots| then 19 else 20
    {
      if i < 1 + |slots| {
        assert DeviceTable(p, slots[i - 1], i - 1) == Ok(records[1 + (i - 1)]);
      } else if i < 3 + |slots| {
        assert RangeTable(ranges[i - 1 - |slots|], i - 1 - |slots|) == Ok(records[1 + |slots| + (i - 1 - |slots|)]);
      } else {
        assert PieceTable(pieces[i - 3 - |slots|], i - 3 - |slots|) == Ok(records[3 + |slots| + (i - 3 - |slots|)]);
      }
    }
  }

  lemma RangesTotal(p: MemoryProfile, records: seq<Record>)
    requires MemoryRecords(p) == Ok(records) && AllLayable(records)
    ensures DecodedTotal(19, records) == Sum(p.sizes) * MIB
  {
    hide ArrayTable, DeviceTable, RangeTable, PieceTable, Pieces, Layable, MemoryRecords, DecodeRange, DecodedTotal;
    MemoryShape(p, records);
    KindsOfMemory(p, records);
    var n, ranges := |p.templates|, Q35Ranges(Sum(p.sizes) * MIB).value;
    SplitTotal(19, records, 1 + n, 3 + n);
    var part := records[1 + n..3 + n];
    var values := [Length(ranges[0]), Length(ranges[1])];
    forall i | 0 <= i < 2
      ensures RecordBytes(19, part[i]) == values[i]
    {
      assert part[i] == records[1 + n + i];
      RangeDecodes(ranges[i], i, records[1 + n + i]);
    }
    DecodedValues(19, part, values);
    assert Sum(values) == values[0] + Sum(values[1..]) && Sum(values[1..]) == values[1] + Sum(values[1..][1..]);
  }

  lemma PiecesTotal(p: MemoryProfile, records: seq<Record>)
    requires MemoryRecords(p) == Ok(records) && AllLayable(records)
    ensures DecodedTotal(20, records) == Sum(p.sizes) * MIB
  {
    hide ArrayTable, DeviceTable, RangeTable, PieceTable, Pieces, Layable, MemoryRecords, DecodeRange, DecodedTotal;
    MemoryShape(p, records);
    KindsOfMemory(p, records);
    var n, ranges := |p.templates|, Q35Ranges(Sum(p.sizes) * MIB).value;
    var pieces := Pieces(p.sizes, ranges, |p.sizes|);
    SplitTotal(20, records, 3 + n, |records|);
    var part := records[3 + n..|records|];
    var values := seq(|pieces|, i requires 0 <= i < |pieces| => PieceBytes(pieces[i]));
    forall i | 0 <= i < |pieces|
      ensures RecordBytes(20, part[i]) == values[i]
    {
      assert part[i] == records[3 + n + i];
      PieceDecodes(pieces[i], i, records[3 + n + i]);
    }
    DecodedValues(20, part, values);
    SumOfBytes(pieces, values);
    assert forall k :: 0 <= k < |p.sizes| ==> ValidModule(p.sizes[k]);
    Q35Pieces(p.sizes, Sum(p.sizes) * MIB);
  }

  /**
   Conservation: whatever `memory_tables` emits, the decoded sizes of Type 17, the decoded lengths
   of Type 19 and those of Type 20 each total the guest memory, and Type 16 decodes to the platform
   array.
   */
  lemma MemoryIsConserved(p: MemoryProfile, records: seq<Record>)
    requires MemoryRecords(p) == Ok(records)
    ensures AllLayable(records) && records != []
    ensures DecodedTotal(17, records) == Sum(p.sizes) * MIB
    ensures DecodedTotal(19, records) == Sum(p.sizes) * MIB
    ensures DecodedTotal(20, records) == Sum(p.sizes) * MIB
    ensures DecodeArray(Formatted(records[0])) == Ok(p.limits)
  {
    hide *;
    MemoryLayable(p, records);
    FirstIsArray(p, records);
    DevicesTotal(p, records);
    RangesTotal(p, records);
    PiecesTotal(p, records);
    ArrayRoundTrip(p, records[0]);
  }
}

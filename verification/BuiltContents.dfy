/** A built stream, structure by structure: which structures it holds, in which order, and what each of them says. */
module BuiltContents {
  import opened Outcomes
  import opened Sequences
  import opened Text
  import opened Structures
  import opened Walkers
  import opened RoundTrip
  import opened DimmLayout
  import opened MemorySlots
  import opened MemoryMap
  import opened MemoryTables
  import opened MemoryConservation
  import opened ProfileStream
  import opened StreamSoundness
  import opened StreamBuilding
  import opened StreamContents
  import opened MemoryContents

  // ----- the groups of a stream -----

  predicate FixedSay(tables: seq<Table>, p: Profile) {
    && |tables| == 4 && tables[0].kind == 0 && tables[1].kind == 1 && tables[2].kind == 2 && tables[3].kind == 3
    && tables[0].handle == 0 && tables[1].handle == 0x0100 && tables[2].handle == 0x0200 && tables[3].handle == 0x0300
    && BiosSays(tables[0], p) && SystemSays(tables[1], p) && BoardSays(tables[2], p) && ChassisSays(tables[3], p)
  }

  predicate CpusSay(tables: seq<Table>, p: Profile) {
    && |tables| == p.cpu.sockets
    && forall i :: 0 <= i < |tables| ==> tables[i].kind == 4 && CpuSays(tables[i], p, i)
  }

  predicate ConnectorsSay(tables: seq<Table>, p: Profile) {
    && |tables| == |p.connectors|
    && forall i :: 0 <= i < |tables| ==>
      tables[i].kind == 8 && tables[i].handle == 0x0800 + i && CopySays(tables[i], p.connectors[i])
  }

  predicate SlotsSay(tables: seq<Table>, p: Profile) {
    && |tables| == |p.slots|
    && forall i :: 0 <= i < |tables| ==>
      tables[i].kind == 9 && tables[i].handle == 0x0900 + i && SlotSays(tables[i], p.slots[i])
  }

  predicate OemSay(tables: seq<Table>, p: Profile) {
    if p.oemStrings == [] then tables == []
    else |tables| == 1 && tables[0].kind == 11 && tables[0].handle == 0x0B00 && OemSays(tables[0], p.oemStrings)
  }

  /** The first `n` supplemental structures without the sensors of Types 26, 28 and 29, in order. */
  predicate ExtrasSay(tables: seq<Table>, items: seq<Copied>, n: nat)
    requires n <= |items|
  {
    if n == 0 then tables == []
    else if items[n - 1].kind == 26 || items[n - 1].kind == 28 || items[n - 1].kind == 29 then
      ExtrasSay(tables, items, n - 1)
    else
      && tables != [] && ExtrasSay(tables[..|tables| - 1], items, n - 1)
      && var last, item := tables[|tables| - 1], items[n - 1];
        && (item.kind == 12 || item.kind == 13) && last.kind as int == item.kind && last.handle == 0x3000 + (n - 1)
        && CopySays(last, item)
  }

  /** The guest's memory: two GiB from the bottom, the rest from four GiB on. */
  function GuestRanges(m: MemoryProfile): seq<Range> {
    [Range(0, 0x7FFF_FFFF), Range(0x1_0000_0000, Sum(m.sizes) * 0x10_0000 + 0x7FFF_FFFF)]
  }

  predicate MemorySay(tables: seq<Table>, m: MemoryProfile) {
    var n, ranges := |m.templates|, GuestRanges(m);
    var pieces := Pieces(m.sizes, ranges, |m.sizes|);
    && |m.sizes| == |m.parts| == |m.serials| == |m.assets|
    && |tables| == 3 + n + |pieces| && tables[0].kind == 16 && ArraySays(tables[0], m)
    && (forall i :: 1 <= i < 1 + n ==> tables[i].kind == 17 && DeviceSays(tables[i], m, i - 1))
    && tables[1 + n].kind == 19 && RangeSays(tables[1 + n], ranges[0], 0)
    && tables[2 + n].kind == 19 && RangeSays(tables[2 + n], ranges[1], 1)
    && forall i :: 3 + n <= i < |tables| ==> tables[i].kind == 20 && PieceSays(tables[i], pieces[i - 3 - n], i - 3 - n)
  }

  predicate BackSay(tables: seq<Table>, p: Profile) {
    var n := if p.battery.Some? then 1 else 0;
    && |tables| == n + 2
    && (p.battery.Some? ==>
          tables[0].kind == 22 && tables[0].handle == 0x1600 && BatterySays(tables[0], p.battery.value))
    && tables[n].kind == 32 && tables[n].handle == 0x2000 && BootSays(tables[n])
    && tables[n + 1].kind == 127 && tables[n + 1].handle == 0xFEFF && |tables[n + 1].formatted| == 4
    && tables[n + 1].strings == []
  }

  // ----- calls and tables -----

  predicate AllMade(calls: Calls) {
    forall i :: 0 <= i < |calls| ==> calls[i].Ok? && Layable(calls[i].value)
  }

  /** The tables a reader finds for a list of calls. */
  function Tables(calls: Calls): (tables: seq<Table>)
    requires AllMade(calls)
    ensures |tables| == |calls| && forall i :: 0 <= i < |calls| ==> tables[i] == TableOf(calls[i].value)
  {
    seq(|calls|, i requires 0 <= i < |calls| => TableOf(calls[i].value))
  }

  lemma CallIsMade(p: Profile, call: Result<Record>)
    requires Held(p, call)
    ensures call.Ok? && Layable(call.value)
  {
    hide ProfileRecords;
  }

  lemma CallsAreMade(p: Profile)
    requires BuildOf(p).Ok?
    ensures AllMade(FrontCalls(p)) && AllMade(BackCalls(p))
  {
    hide BuildOf, FrontCalls, BackCalls, Layable, Held;
    forall call | call in FrontCalls(p) || call in BackCalls(p)
      ensures call.Ok? && Layable(call.value)
    {
      CallIsHeld(p, call);
      CallIsMade(p, call);
    }
  }

  lemma TablesAppend(a: Calls, b: Calls)
    requires AllMade(a + b)
    ensures AllMade(a) && AllMade(b) && Tables(a + b) == Tables(a) + Tables(b)
  {
    hide Layable, TableOf;
    assert forall i :: 0 <= i < |a| ==> (a + b)[i] == a[i];
    assert forall i :: 0 <= i < |b| ==> (a + b)[|a| + i] == b[i];
  }

  /** The tables of all records are those of the calls before the memory, of the memory, and of the calls after it. */
  lemma ThreeGroups(p: Profile, records: seq<Record>)
    requires BuildOf(p).Ok? && ProfileRecords(p) == Ok(records) && AllLayable(records)
    ensures MemoryRecords(p.memory).Ok? && AllLayable(MemoryRecords(p.memory).value)
    ensures AllMade(FrontCalls(p)) && AllMade(BackCalls(p))
    ensures TablesOfRecords(records)
         == Tables(FrontCalls(p)) + TablesOfRecords(MemoryRecords(p.memory).value) + Tables(BackCalls(p))
  {
    hide BuildOf, FrontCalls, BackCalls, MemoryRecords, Layable, TableOf, Collect, TablesOfRecords;
    BuildIsValid(p);
    CallsAreMade(p);
    MemoryLayable(p.memory, MemoryRecords(p.memory).value);
    CollectOk(FrontCalls(p));
    CollectOk(BackCalls(p));
    var front, memory, back := Collect(FrontCalls(p)).value, MemoryRecords(p.memory).value, Collect(BackCalls(p)).value;
    TablesJoin(front + memory, back);
    TablesJoin(front, memory);
    TablesCollected(FrontCalls(p));
    TablesCollected(BackCalls(p));
  }

  lemma TablesCollected(calls: Calls)
    requires AllMade(calls) && Collect(calls).Ok?
    ensures AllLayable(Collect(calls).value) && TablesOfRecords(Collect(calls).value) == Tables(calls)
  {
    hide Layable, TableOf, Collect, TablesOfRecords;
    CollectOk(calls);
    TablesEach(Collect(calls).value);
  }

  lemma TablesEach(records: seq<Record>)
    requires AllLayable(records)
    ensures |TablesOfRecords(records)| == |records|
    ensures forall i :: 0 <= i < |records| ==> TablesOfRecords(records)[i] == TableOf(records[i])
  {
    hide Layable, TableOf;
    forall i | 0 <= i < |records|
      ensures |TablesOfRecords(records)| == |records| && TablesOfRecords(records)[i] == TableOf(records[i])
    {
      TablesOfRecordsAt(records, i);
    }
  }

  lemma TablesJoin(a: seq<Record>, b: seq<Record>)
    requires AllLayable(a + b)
    ensures AllLayable(a) && AllLayable(b) && TablesOfRecords(a + b) == TablesOfRecords(a) + TablesOfRecords(b)
  {
    hide Layable, TableOf, TablesOfRecords;
    assert forall i :: 0 <= i < |a| ==> (a + b)[i] == a[i];
    assert forall i :: 0 <= i < |b| ==> (a + b)[|a| + i] == b[i];
    TablesEach(a);
    TablesEach(b);
    TablesEach(a + b);
  }

  /** The groups before the memory. */
  lemma SixGroups(p: Profile)
    requires AllMade(FrontCalls(p))
    ensures AllMade(FixedCalls(p)) && AllMade(CpuCalls(p)) && AllMade(ConnectorCalls(p)) && AllMade(SlotCalls(p))
    ensures AllMade(OemCalls(p)) && AllMade(SupplementalCalls(p.supplemental, |p.supplemental|))
    ensures Tables(FrontCalls(p))
         == Tables(FixedCalls(p)) + Tables(CpuCalls(p)) + Tables(ConnectorCalls(p)) + Tables(SlotCalls(p))
            + Tables(OemCalls(p)) + Tables(SupplementalCalls(p.supplemental, |p.supplemental|))
  {
    hide FixedCalls, CpuCalls, ConnectorCalls, SlotCalls, OemCalls, SupplementalCalls, Tables, AllMade;
    var a, b, c, d, e := FixedCalls(p), CpuCalls(p), ConnectorCalls(p), SlotCalls(p), OemCalls(p);
    TablesAppend(a + b + c + d + e, SupplementalCalls(p.supplemental, |p.supplemental|));
    TablesAppend(a + b + c + d, e);
    TablesAppend(a + b + c, d);
    TablesAppend(a + b, c);
    TablesAppend(a, b);
  }

  // ----- what each group says -----

  lemma FixedReads(p: Profile)
    requires AllMade(FixedCalls(p))
    ensures FixedSay(Tables(FixedCalls(p)), p)
  {
    hide Layable, TableOf, BiosTable, SystemTable, BoardTable, ChassisTable, BiosSays, SystemSays, BoardSays,
      ChassisSays;
    var calls := FixedCalls(p);
    assert calls[0].Ok? && calls[1].Ok? && calls[2].Ok? && calls[3].Ok?;
    BiosReads(p, calls[0].value);
    SystemReads(p, calls[1].value);
    BoardReads(p, calls[2].value);
    ChassisReads(p, calls[3].value);
    FixedKinds(p);
  }

  lemma FixedKinds(p: Profile)
    requires BiosTable(p).Ok? && SystemTable(p).Ok? && BoardTable(p).Ok? && ChassisTable(p).Ok?
    ensures var a, b := TableOf(BiosTable(p).value), TableOf(SystemTable(p).value);
      a.kind == 0 && a.handle == 0 && b.kind == 1 && b.handle == 0x0100
    ensures var c, d := TableOf(BoardTable(p).value), TableOf(ChassisTable(p).value);
      c.kind == 2 && c.handle == 0x0200 && d.kind == 3 && d.handle == 0x0300
  {
    hide Made, Layable, TableOf, Formatted, SmbiosUuid;
    HandleStays(BiosTable(p).value);
    HandleStays(SystemTable(p).value);
    HandleStays(BoardTable(p).value);
    HandleStays(ChassisTable(p).value);
  }

  lemma CpusRead(p: Profile)
    requires ProfileValid(p) && AllMade(CpuCalls(p))
    ensures CpusSay(Tables(CpuCalls(p)), p)
  {
    hide Layable, TableOf, CpuTable, CpuSays;
    var calls := CpuCalls(p);
    forall i | 0 <= i < |calls|
      ensures TableOf(calls[i].value).kind == 4 && CpuSays(TableOf(calls[i].value), p, i)
    {
      CpuReads(p, i, calls[i].value);
      CpuKind(p, i);
    }
  }

  lemma CpuKind(p: Profile, index: nat)
    requires CpuTable(p, index).Ok?
    ensures TableOf(CpuTable(p, index).value).kind == 4
  {
    hide Made, Layable, TableOf, CpuHead, CpuTail, Dec;
    HandleStays(CpuTable(p, index).value);
  }

  lemma ConnectorsRead(p: Profile)
    requires AllMade(ConnectorCalls(p))
    ensures ConnectorsSay(Tables(ConnectorCalls(p)), p)
  {
    hide Layable, TableOf, Made, CopySays;
    var calls := ConnectorCalls(p);
    forall i | 0 <= i < |calls|
      ensures var t := TableOf(calls[i].value); t.kind == 8 && t.handle == 0x0800 + i && CopySays(t, p.connectors[i])
    {
      assert calls[i] == ConnectorTable(p.connectors[i], i);
      CopyReads(p.connectors[i], 8, 0x0800 + i, calls[i].value);
      HandleStays(calls[i].value);
    }
  }

  lemma SlotsRead(p: Profile)
    requires AllMade(SlotCalls(p))
    ensures SlotsSay(Tables(SlotCalls(p)), p)
  {
    hide Layable, TableOf, Made, SlotSays, GuestSlotBody;
    var calls := SlotCalls(p);
    forall i | 0 <= i < |calls|
      ensures var t := TableOf(calls[i].value); t.kind == 9 && t.handle == 0x0900 + i && SlotSays(t, p.slots[i])
    {
      assert calls[i] == SlotTable(p.slots[i], i);
      SlotReads(p.slots[i], i, calls[i].value);
      HandleStays(calls[i].value);
    }
  }

  lemma OemRead(p: Profile)
    requires AllMade(OemCalls(p))
    ensures OemSay(Tables(OemCalls(p)), p)
  {
    hide Layable, TableOf, Made, OemSays;
    if p.oemStrings != [] {
      var call := OemCalls(p)[0];
      OemReads(p.oemStrings, call.value);
      HandleStays(call.value);
    }
  }

  lemma {:induction false} ExtrasRead(items: seq<Copied>, n: nat)
    requires n <= |items| && AllMade(SupplementalCalls(items, n))
    ensures ExtrasSay(Tables(SupplementalCalls(items, n)), items, n)
    decreases n
  {
    hide Layable, TableOf, SupplementalTable, CopySays, Tables, AllMade;
    if n > 0 {
      var front, item := SupplementalCalls(items, n - 1), items[n - 1];
      if Skipped(item.kind) {
        assert SupplementalCalls(items, n) == front;
        ExtrasRead(items, n - 1);
      } else {
        var call := SupplementalTable(item, n - 1);
        TablesAppend(front, [call]);
        ExtrasRead(items, n - 1);
        ExtraReads(item, n - 1);
        assert (Tables(front) + Tables([call]))[..|Tables(front)|] == Tables(front);
      }
    }
  }

  lemma ExtraReads(item: Copied, index: nat)
    requires AllMade([SupplementalTable(item, index)])
    ensures SupplementalTable(item, index).Ok? && |Tables([SupplementalTable(item, index)])| == 1
    ensures var t := Tables([SupplementalTable(item, index)])[0];
      && (item.kind == 12 || item.kind == 13) && t.kind as int == item.kind && t.handle == 0x3000 + index
      && CopySays(t, item)
  {
    hide Layable, TableOf, Made, CopySays;
    var call := SupplementalTable(item, index);
    assert [call][0].Ok?;
    CopyReads(item, item.kind, 0x3000 + index, call.value);
    HandleStays(call.value);
  }

  lemma DevicesRead(m: MemoryProfile, records: seq<Record>)
    requires MemoryRecords(m) == Ok(records) && AllLayable(records)
    ensures |m.templates| < |records| && |m.sizes| == |m.parts| == |m.serials| == |m.assets|
    ensures forall i :: 1 <= i < 1 + |m.templates| ==> DeviceSays(TableOf(records[i]), m, i - 1)
  {
    hide Layable, TableOf, MemoryRecords, ArrayTable, DeviceTable, RangeTable, PieceTable, Pieces, DeviceSays, Sum,
      ValidateArray, GuestSlotsOf, SlotAt;
    MemoryShape(m, records);
    MemoryLists(m);
    var slots := SlotsOf(m.sizes, m.templates);
    forall i | 1 <= i < 1 + |slots|
      ensures DeviceSays(TableOf(records[i]), m, i - 1)
    {
      SlotSizeBound(m, i - 1);
      SizeOfSlot(m, i - 1);
      assert DeviceTable(m, slots[i - 1], i - 1) == Ok(records[1 + (i - 1)]);
      DeviceReads(m, i - 1, records[i]);
    }
  }

  lemma RangeAt(m: MemoryProfile, records: seq<Record>, k: nat)
    requires MemoryRecords(m) == Ok(records) && AllLayable(records) && k < 2
    ensures 1 + |m.templates| + k < |records|
    ensures RangeSays(TableOf(records[1 + |m.templates| + k]), GuestRanges(m)[k], k)
  {
    hide Layable, TableOf, MemoryRecords, ArrayTable, DeviceTable, RangeTable, PieceTable, Pieces, RangeSays, Sum,
      ValidateArray, GuestSlotsOf, SlotAt;
    MemoryShape(m, records);
    assert Q35Ranges(Sum(m.sizes) * MIB).value == GuestRanges(m);
    RangeReads(GuestRanges(m)[k], k, records[1 + |m.templates| + k]);
  }

  lemma PieceAt(m: MemoryProfile, records: seq<Record>, k: nat)
    requires MemoryRecords(m) == Ok(records) && AllLayable(records)
    requires k < |Pieces(m.sizes, GuestRanges(m), |m.sizes|)|
    ensures 3 + |m.templates| + k < |records|
    ensures PieceSays(TableOf(records[3 + |m.templates| + k]), Pieces(m.sizes, GuestRanges(m), |m.sizes|)[k], k)
  {
    hide Layable, TableOf, MemoryRecords, ArrayTable, DeviceTable, RangeTable, PieceTable, Pieces, PieceSays, Sum,
      ValidateArray, GuestSlotsOf, SlotAt;
    MemoryShape(m, records);
    assert Q35Ranges(Sum(m.sizes) * MIB).value == GuestRanges(m);
    PieceReads(Pieces(m.sizes, GuestRanges(m), |m.sizes|)[k], k, records[3 + |m.templates| + k]);
  }

  lemma MemoryCount(m: MemoryProfile, records: seq<Record>)
    requires MemoryRecords(m) == Ok(records)
    ensures |records| == 3 + |m.templates| + |Pieces(m.sizes, GuestRanges(m), |m.sizes|)|
  {
    hide ArrayTable, DeviceTable, RangeTable, PieceTable, Pieces, MemoryRecords, Sum, ValidateArray, GuestSlotsOf,
      SlotAt;
    MemoryShape(m, records);
    assert Q35Ranges(Sum(m.sizes) * MIB).value == GuestRanges(m);
  }

  lemma MemoryReads(m: MemoryProfile, records: seq<Record>)
    requires MemoryRecords(m) == Ok(records)
    ensures AllLayable(records) && MemorySay(TablesOfRecords(records), m)
  {
    hide Layable, TableOf, MemoryRecords, ArrayTable, Pieces, ArraySays, DeviceSays, RangeSays, PieceSays,
      TablesOfRecords, Sum, ValidateArray, GuestSlotsOf, SlotAt;
    FirstIsArray(m, records);
    MemoryLayable(m, records);
    TablesEach(records);
    KindsOfMemory(m, records);
    KindsStay(records);
    ArrayReads(m, records[0]);
    DevicesRead(m, records);
    MemoryCount(m, records);
    RangeAt(m, records, 0);
    RangeAt(m, records, 1);
    forall i | 3 + |m.templates| <= i < |records|
      ensures PieceSays(TableOf(records[i]), Pieces(m.sizes, GuestRanges(m), |m.sizes|)[i - 3 - |m.templates|],
                        i - 3 - |m.templates|)
    {
      PieceAt(m, records, i - 3 - |m.templates|);
    }
  }

  lemma SizeOfSlot(m: MemoryProfile, i: nat)
    requires i < |m.templates|
    ensures i < |m.sizes| ==> SlotAt(m.sizes, m.templates, i).sizeMib == m.sizes[i]
  {
  }

  lemma KindsStay(records: seq<Record>)
    requires AllLayable(records)
    ensures forall i :: 0 <= i < |records| ==> TableOf(records[i]).kind == records[i].kind
  {
    hide Layable, TableOf;
    forall i | 0 <= i < |records|
      ensures TableOf(records[i]).kind == records[i].kind
    {
      HandleStays(records[i]);
    }
  }

  lemma BackReads(p: Profile)
    requires BuildOf(p).Ok? && AllMade(BackCalls(p))
    ensures BackSay(Tables(BackCalls(p)), p)
  {
    hide Layable, TableOf, BuildOf, BatteryTable, BootTable, EndTable, BatterySays, BootSays, WfBattery;
    var calls := BackCalls(p);
    var n := if p.battery.Some? then 1 else 0;
    if p.battery.Some? {
      assert calls[0] == BatteryTable(p.battery.value);
      BuildNeedsBattery(p);
      BatteryReads(p.battery.value, calls[0].value);
      BatteryKind(p.battery.value);
    }
    assert calls[n] == BootTable() && calls[n + 1] == EndTable();
    BootReads(calls[n].value);
    LastKinds();
  }

  lemma BatteryKind(b: Battery)
    requires BatteryTable(b).Ok?
    ensures var t := TableOf(BatteryTable(b).value); t.kind == 22 && t.handle == 0x1600
  {
    hide Made, Layable, TableOf, BatteryBody, Multiplier;
    HandleStays(BatteryTable(b).value);
  }

  lemma LastKinds()
    requires BootTable().Ok? && EndTable().Ok?
    ensures var t := TableOf(BootTable().value); t.kind == 32 && t.handle == 0x2000
    ensures var t := TableOf(EndTable().value);
      t.kind == 127 && t.handle == 0xFEFF && |t.formatted| == 4 && t.strings == []
  {
    hide Made, Layable, TableOf;
    HandleStays(BootTable().value);
    HandleStays(EndTable().value);
    MadeSpells(127, 0xFEFF, [], [], EndTable().value);
  }

  // ----- the stream -----

  /**
   The parsed stream of any profile that builds: the fixed structures, a processor for each socket, the copies, the
   memory, the battery if there is one, and the last two, each with the contents the profile gives it.
   */
  lemma StreamReads(p: Profile) returns (fixed: seq<Table>, cpus: seq<Table>, connectors: seq<Table>, slots: seq<Table>,
                                         oem: seq<Table>, extras: seq<Table>, memory: seq<Table>, back: seq<Table>)
    requires BuildOf(p).Ok?
    ensures Parsed(BuildOf(p).value)
         == Some(fixed + cpus + connectors + slots + oem + extras + memory + back)
    ensures FixedSay(fixed, p) && CpusSay(cpus, p) && ConnectorsSay(connectors, p) && SlotsSay(slots, p)
    ensures OemSay(oem, p) && ExtrasSay(extras, p.supplemental, |p.supplemental|)
    ensures MemorySay(memory, p.memory) && BackSay(back, p)
  {
    hide *;
    BuildsExactly(p);
    var records := BuildSucceeds(p);
    BuildIsValid(p);
    ThreeGroups(p, records);
    SixGroups(p);
    fixed, cpus, connectors := Tables(FixedCalls(p)), Tables(CpuCalls(p)), Tables(ConnectorCalls(p));
    slots, oem := Tables(SlotCalls(p)), Tables(OemCalls(p));
    extras := Tables(SupplementalCalls(p.supplemental, |p.supplemental|));
    memory, back := TablesOfRecords(MemoryRecords(p.memory).value), Tables(BackCalls(p));
    FixedReads(p);
    CpusRead(p);
    ConnectorsRead(p);
    SlotsRead(p);
    OemRead(p);
    ExtrasRead(p.supplemental, |p.supplemental|);
    MemoryReads(p.memory, MemoryRecords(p.memory).value);
    BackReads(p);
  }

  lemma {:induction false} ExtraKinds(tables: seq<Table>, items: seq<Copied>, n: nat, i: nat)
    requires n <= |items| && ExtrasSay(tables, items, n) && i < |tables|
    ensures tables[i].kind == 12 || tables[i].kind == 13
    decreases n
  {
    hide CopySays;
    if items[n - 1].kind == 26 || items[n - 1].kind == 28 || items[n - 1].kind == 29 {
      ExtraKinds(tables, items, n - 1, i);
    } else if i < |tables| - 1 {
      ExtraKinds(tables[..|tables| - 1], items, n - 1, i);
    }
  }

  predicate HigherKinds(tables: seq<Table>) {
    forall i :: 0 <= i < |tables| ==> tables[i].kind > 3
  }

  lemma HigherAppend(a: seq<Table>, b: seq<Table>)
    requires HigherKinds(a) && HigherKinds(b)
    ensures HigherKinds(a + b)
  {
  }

  lemma MemoryKinds(memory: seq<Table>, m: MemoryProfile)
    requires MemorySay(memory, m)
    ensures HigherKinds(memory)
  {
    hide ArraySays, DeviceSays, RangeSays, PieceSays, Pieces, Sum;
  }

  lemma BackKinds(back: seq<Table>, p: Profile)
    requires BackSay(back, p)
    ensures HigherKinds(back)
  {
    hide BatterySays, BootSays;
  }

  /** The structures of Types 0 to 3 are single, stand first, and say what the profile gives them. */
  lemma FixedAreSingle(p: Profile, tables: seq<Table>, i: nat)
    requires BuildOf(p).Ok? && Parsed(BuildOf(p).value) == Some(tables) && i < |tables| && tables[i].kind <= 3
    ensures i == tables[i].kind && |tables| >= 4 && FixedSay(tables[..4], p)
  {
    hide BuildOf, Parsed, BiosSays, SystemSays, BoardSays, ChassisSays, CpuSays, CopySays, SlotSays, OemSays,
      ExtrasSay, MemorySay, BackSay;
    var fixed, cpus, connectors, slots, oem, extras, memory, back := StreamReads(p);
    forall k | 0 <= k < |extras|
      ensures extras[k].kind > 3
    {
      ExtraKinds(extras, p.supplemental, |p.supplemental|, k);
    }
    MemoryKinds(memory, p.memory);
    BackKinds(back, p);
    HigherAppend(cpus, connectors);
    HigherAppend(cpus + connectors, slots);
    HigherAppend(cpus + connectors + slots, oem);
    HigherAppend(cpus + connectors + slots + oem, extras);
    HigherAppend(cpus + connectors + slots + oem + extras, memory);
    var rest := cpus + connectors + slots + oem + extras + memory + back;
    HigherAppend(cpus + connectors + slots + oem + extras + memory, back);
    assert tables == fixed + rest;
    assert tables[..4] == fixed;
    forall k | 4 <= k < |tables|
      ensures tables[k].kind > 3
    {
      assert rest[k - 4] == tables[k];
    }
  }
}

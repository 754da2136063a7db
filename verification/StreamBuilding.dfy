/**
 For which profiles `build_smbios_stream` succeeds: on every well-formed one, and on no other.
 */
module StreamBuilding {
  import opened Outcomes
  import opened Bytes
  import opened Sequences
  import opened Structures
  import opened Walkers
  import opened RoundTrip
  import opened Loader
  import opened Text
  import opened DimmLayout
  import opened MemorySlots
  import opened MemoryMap
  import opened MemoryTables
  import opened MemoryConservation
  import opened TableRules
  import opened ProfileStream
  import opened StreamSoundness

  // ----- the builder succeeds -----

  lemma {:induction false} MemoryPartsAppend(a: seq<Record>, b: seq<Record>)
    requires AllLayable(a) && AllLayable(b)
    ensures MemoryParts(TablesOfRecords(a + b)) == MemoryParts(TablesOfRecords(a)) + MemoryParts(TablesOfRecords(b))
    decreases |a|
  {
    hide Layable, TableBytes, TableOf;
    if a == [] {
      assert a + b == b;
    } else {
      assert (a + b)[1..] == a[1..] + b && (a + b)[0] == a[0];
      MemoryPartsAppend(a[1..], b);
      MemoryPartsCons(a);
      MemoryPartsCons(a + b);
    }
  }

  lemma MemoryPartsCons(a: seq<Record>)
    requires a != [] && AllLayable(a)
    ensures MemoryParts(TablesOfRecords(a))
            == (if IsMemoryKind(a[0].kind) then [Lay(a[0])] else []) + MemoryParts(TablesOfRecords(a[1..]))
  {
    var tables, rest := TablesOfRecords(a), TablesOfRecords(a[1..]);
    assert tables == [TableOf(a[0])] + rest;
    assert tables[1..] == rest;
    assert TableBytes(TableOf(a[0])) == Lay(a[0]);
  }

  lemma {:induction false} MemoryPartsNone(a: seq<Record>)
    requires AllLayable(a) && forall i :: 0 <= i < |a| ==> !IsMemoryKind(a[i].kind)
    ensures MemoryParts(TablesOfRecords(a)) == []
    decreases |a|
  {
    if a != [] {
      MemoryPartsCons(a);
      MemoryPartsNone(a[1..]);
    }
  }

  lemma {:induction false} MemoryPartsAll(a: seq<Record>)
    requires AllLayable(a) && forall i :: 0 <= i < |a| ==> IsMemoryKind(a[i].kind)
    ensures MemoryParts(TablesOfRecords(a)) == LayAll(a)
    decreases |a|
  {
    if a != [] {
      MemoryPartsCons(a);
      MemoryPartsAll(a[1..]);
      assert LayAll(a) == [Lay(a[0])] + LayAll(a[1..]);
    }
  }

  predicate NoMemory(records: seq<Record>) {
    forall i :: 0 <= i < |records| ==> !IsMemoryKind(records[i].kind)
  }

  lemma BothLayable(a: seq<Record>, b: seq<Record>)
    requires AllLayable(a) && AllLayable(b)
    ensures AllLayable(a + b)
  {
    hide Layable;
  }

  lemma SkipFront(a: seq<Record>, b: seq<Record>)
    requires AllLayable(a) && AllLayable(b) && NoMemory(a)
    ensures AllLayable(a + b) && MemoryParts(TablesOfRecords(a + b)) == MemoryParts(TablesOfRecords(b))
  {
    hide MemoryParts, TablesOfRecords, Layable;
    BothLayable(a, b);
    MemoryPartsNone(a);
    MemoryPartsAppend(a, b);
    var parts := MemoryParts(TablesOfRecords(b));
    assert [] + parts == parts;
  }

  lemma KeepFront(a: seq<Record>, b: seq<Record>)
    requires AllLayable(a) && AllLayable(b) && NoMemory(b) && forall i :: 0 <= i < |a| ==> IsMemoryKind(a[i].kind)
    ensures AllLayable(a + b) && MemoryParts(TablesOfRecords(a + b)) == LayAll(a)
  {
    hide MemoryParts, TablesOfRecords, Layable, LayAll;
    BothLayable(a, b);
    MemoryPartsAll(a);
    MemoryPartsNone(b);
    MemoryPartsAppend(a, b);
    var parts := LayAll(a);
    assert parts + [] == parts;
  }

  lemma Sublists(low: seq<Record>, extra: seq<Record>, memory: seq<Record>, rest: seq<Record>)
    requires AllLayable(low + (extra + (memory + rest)))
    ensures AllLayable(low) && AllLayable(extra) && AllLayable(memory) && AllLayable(rest)
  {
    hide Layable;
    var all := low + (extra + (memory + rest));
    assert forall i :: 0 <= i < |low| ==> low[i] == all[i];
    assert forall i :: 0 <= i < |extra| ==> extra[i] == all[|low| + i];
    assert forall i :: 0 <= i < |memory| ==> memory[i] == all[|low| + |extra| + i];
    assert forall i :: 0 <= i < |rest| ==> rest[i] == all[|low| + |extra| + |memory| + i];
  }

  /** The memory structures of a stream stand in its tail before the battery, boot and end records. */
  lemma MemoryStands(p: Profile, low: seq<Record>, extra: seq<Record>, tail: seq<Record>, memory: seq<Record>)
    requires Parts(p, low, extra, tail) && EndTable().Ok?
    requires |tail| == |memory| + (if p.battery.Some? then 2 else 1) && tail[..|memory|] == memory
    ensures NoMemory(low) && NoMemory(extra) && NoMemory(tail[|memory|..] + [EndTable().value])
    ensures forall i :: 0 <= i < |memory| ==> IsMemoryKind(memory[i].kind)
  {
    hide Fine, EndTable;
    EndGood(FactsOf(p));
    var rest := tail[|memory|..] + [EndTable().value];
    forall i | 0 <= i < |memory|
      ensures IsMemoryKind(memory[i].kind)
    {
      assert memory[i] == tail[i];
    }
    forall i | 0 <= i < |rest|
      ensures !IsMemoryKind(rest[i].kind)
    {
      if i < |rest| - 1 {
        assert rest[i] == tail[|memory| + i];
      }
    }
  }

  /** `validate_stream` finds in the stream exactly the tables `memory_tables` returns. */
  lemma PartsMemory(p: Profile, low: seq<Record>, extra: seq<Record>, tail: seq<Record>, memory: seq<Record>,
                    all: seq<Record>)
    requires Parts(p, low, extra, tail) && EndTable().Ok? && all == low + extra + tail + [EndTable().value]
    requires AllLayable(all) && |tail| == |memory| + (if p.battery.Some? then 2 else 1) && tail[..|memory|] == memory
    ensures AllLayable(memory) && MemoryParts(TablesOfRecords(all)) == LayAll(memory)
  {
    hide AllLayable, MemoryParts, TablesOfRecords, EndTable, LayAll, Parts, NoMemory;
    var rest := tail[|memory|..] + [EndTable().value];
    assert all == low + (extra + (memory + rest));
    MemoryStands(p, low, extra, tail, memory);
    Sublists(low, extra, memory, rest);
    KeepFront(memory, rest);
    SkipFront(extra, memory + rest);
    SkipFront(low, extra + (memory + rest));
  }

  /** The records of a well-formed profile make a well-formed list that meets every rule. */
  lemma StreamIsSound(p: Profile) returns (records: seq<Record>)
    requires WellFormed(p)
    ensures ProfileRecords(p) == Ok(records) && WellFormedList(records) && AllLayable(records)
    ensures TablesOk(TablesOfRecords(records), FactsOf(p))
    ensures MemoryRecords(p.memory).Ok? && AllLayable(MemoryRecords(p.memory).value)
    ensures MemoryParts(TablesOfRecords(records)) == LayAll(MemoryRecords(p.memory).value)
  {
    hide *;
    var low, extra, tail := StreamParts(p);
    records := low + extra + tail + [EndTable().value];
    StreamListed(p, low, extra, tail, records);
    StreamRuled(p, low, extra, tail, records);
    PartsMemory(p, low, extra, tail, MemoryRecords(p.memory).value, records);
  }

  /**
   `build_smbios_stream` succeeds on every well-formed profile: no structure fails, both final
   validations pass, and the stream parses back to the records it was built from.
   */
  lemma BuildSucceeds(p: Profile) returns (records: seq<Record>)
    requires WellFormed(p)
    ensures ProfileRecords(p) == Ok(records) && WellFormedList(records) && AllLayable(records)
    ensures BuildOf(p) == Ok(Serialize(records))
    ensures Parsed(Serialize(records)) == Some(TablesOfRecords(records))
    ensures TablesOk(TablesOfRecords(records), FactsOf(p))
  {
    hide Layable, TablesOk, TablesOfRecords, Serialize, WellFormedList, ProfileRecords, MemoryRecords, ParseFrom,
      SkimFrom, MemoryParts, LayAll;
    records := StreamIsSound(p);
    PrintThenParse(records);
    ParsedAgrees(Serialize(records));
    WellFormedIsValid(p);
  }

  lemma WellFormedIsValid(p: Profile)
    requires WellFormed(p)
    ensures ProfileValid(p)
  {
  }

  lemma ParsedAgrees(data: seq<Byte>)
    requires Parsed(data).Some?
    ensures SkimFrom(data, 0, {}) == Some(Skim(MemoryParts(Parsed(data).value), true))
  {
    ReadersAgree(data);
  }

  // ----- what a built stream needs -----

  lemma SameTable(a: Record, b: Record)
    requires Layable(a) && Layable(b) && TableOf(a) == TableOf(b)
    ensures a == b
  {
  }

  /** Bytes determine the records behind them, well-formed or not. */
  lemma SerializeInjective(a: seq<Record>, b: seq<Record>)
    requires AllLayable(a) && AllLayable(b) && Serialize(a) == Serialize(b)
    ensures a == b
  {
    hide Layable, TableOf, Serialize, Cut, CellsOf, AllReadAs;
    var data := Serialize(a);
    assert data[0..] == data;
    SerializedIsCut(data, 0, a);
    SerializedIsCut(data, 0, b);
    var cells := CellsOf(a, 0);
    OneCellEach(data, cells, a);
    OneCellEach(data, cells, b);
    forall i | 0 <= i < |a|
      ensures a[i] == b[i]
    {
      ReadAsMember(data, cells, a, i);
      ReadAsMember(data, cells, b, i);
      SameTable(a[i], b[i]);
    }
  }

  lemma {:induction false} OneCellEach(data: seq<Byte>, cells: seq<Cell>, records: seq<Record>)
    requires AllReadAs(data, cells, records)
    ensures |cells| == |records|
    decreases |cells|
  {
    hide ReadsAs;
    if cells != [] {
      OneCellEach(data, cells[1..], records[1..]);
    }
  }

  /** A structure that a built stream holds: it meets the rules of its type, and its strings are printable. */
  predicate Ruled(r: Record, facts: Facts) {
    Layable(r) && PrintableStrings(r.strings) && ShapeOk(r.kind, Formatted(r), |r.strings|, facts)
  }

  /** Whenever a stream is built, its records are distinct by handle and meet every rule. */
  lemma BuiltIsRuled(p: Profile) returns (records: seq<Record>)
    requires BuildOf(p).Ok?
    ensures ProfileRecords(p) == Ok(records) && AllLayable(records) && WellFormedList(records)
    ensures TablesOk(TablesOfRecords(records), FactsOf(p))
    ensures forall i :: 0 <= i < |records| ==> Ruled(records[i], FactsOf(p))
  {
    hide Layable, TablesOk, TablesOfRecords, Serialize, WellFormedList, ProfileRecords, MemoryRecords, ParseFrom,
      SkimFrom, LayAll, Parsed, Ruled;
    records := ProfileRecords(p).value;
    RecordsLayable(p);
    var data := Serialize(records);
    var parsed := ParseThenPrint(data);
    SerializeInjective(parsed, records);
    forall i | 0 <= i < |records|
      ensures Ruled(records[i], FactsOf(p))
    {
      RecordIsRuled(records, FactsOf(p), i);
    }
  }

  lemma RecordIsRuled(records: seq<Record>, facts: Facts, i: nat)
    requires WellFormedList(records) && AllLayable(records) && TablesOk(TablesOfRecords(records), facts)
    requires i < |records|
    ensures Ruled(records[i], facts)
  {
    hide Layable, ShapeOk, Formatted, TablesOfRecords, PrintableStrings;
    TablesOfRecordsAt(records, i);
    assert RecordAccepted(records[i], i == |records| - 1);
  }

  lemma MadeStrings(kind: int, handle: int, body: seq<Byte>, strings: seq<string>)
    requires Made(kind, handle, body, strings).Ok? && PrintableStrings(Made(kind, handle, body, strings).value.strings)
    ensures AllPrintable(strings)
  {
    var encoded := Made(kind, handle, body, strings).value.strings;
    forall i | 0 <= i < |strings|
      ensures PrintableText(strings[i])
    {
      assert encoded[i] == AsciiBytes(strings[i]) && PrintableString(encoded[i]);
      forall k | 0 <= k < |strings[i]|
        ensures ' ' <= strings[i][k] <= '~'
      {
        assert encoded[i][k] == strings[i][k] as int;
      }
    }
  }

  lemma ConnectorNeeds(c: Copied, index: nat, facts: Facts)
    requires ConnectorTable(c, index).Ok? && Ruled(ConnectorTable(c, index).value, facts)
    ensures WfConnector(c)
  {
    hide Made, Layable, Formatted, PrintableStrings, AllPrintable;
    MadeStrings(8, CONNECTOR_HANDLE + index, c.body, c.strings);
    var r := ConnectorTable(c, index).value;
    BodyView(r);
    assert StringOffsets(8)[0] == 4 && StringOffsets(8)[1] == 6;
  }

  lemma SlotNeeds(c: Copied, index: nat, facts: Facts)
    requires SlotTable(c, index).Ok? && Ruled(SlotTable(c, index).value, facts)
    ensures WfSlot(c)
  {
    hide Made, Layable, Formatted, PrintableStrings, AllPrintable, GuestSlotBody;
    SlotBodyNeeds(c.body);
    BlankedBody(c.body);
    var r := SlotTable(c, index).value;
    MadeStrings(9, SLOT_HANDLE + index, r.body, c.strings);
    BodyView(r);
    assert StringOffsets(9)[0] == 4;
  }

  lemma SlotBodyNeeds(body: seq<Byte>)
    requires GuestSlotBody(body).Ok?
    ensures |body| >= 13
  {
  }

  lemma SupplementalNeeds(c: Copied, index: nat, facts: Facts)
    requires SupplementalTable(c, index).Ok? && Ruled(SupplementalTable(c, index).value, facts)
    ensures WfSupplemental(c)
  {
    hide Made, Layable, Formatted, PrintableStrings, AllPrintable, BitAnd;
    MadeStrings(c.kind, EXTRA_HANDLE + index, c.body, c.strings);
    var r := SupplementalTable(c, index).value;
    BodyView(r);
    if c.kind == 13 {
      assert StringOffsets(13)[0] == 21;
      assert forall k :: 2 <= k < 17 ==> Formatted(r)[k + 4] == c.body[k];
    }
  }

  lemma {:induction false} SupplementalIsCalled(items: seq<Copied>, n: nat, i: nat)
    requires i < n <= |items| && !Skipped(items[i].kind)
    ensures SupplementalTable(items[i], i) in SupplementalCalls(items, n)
    decreases n
  {
    hide SupplementalTable;
    if i < n - 1 {
      SupplementalIsCalled(items, n - 1, i);
    }
  }

  /** A call of the builder succeeded, and its record is in the stream and meets the rules. */
  predicate Held(p: Profile, call: Result<Record>) {
    ProfileRecords(p).Ok? && call.Ok? && call.value in ProfileRecords(p).value && Ruled(call.value, FactsOf(p))
  }

  lemma RecordIsHeld(p: Profile, r: Record)
    requires BuildOf(p).Ok? && ProfileRecords(p).Ok? && r in ProfileRecords(p).value
    ensures Held(p, Ok(r))
  {
    hide BuildOf, ProfileRecords, TablesOk, WellFormedList, Ruled;
    var records := BuiltIsRuled(p);
    var i :| 0 <= i < |records| && records[i] == r;
  }

  lemma CallIsHeld(p: Profile, call: Result<Record>)
    requires BuildOf(p).Ok? && (call in FrontCalls(p) || call in BackCalls(p))
    ensures Held(p, call)
  {
    hide FrontCalls, BackCalls, MemoryRecords, Collect, BuildOf, Held;
    BuildIsValid(p);
    var records := ProfileRecords(p).value;
    CollectOk(FrontCalls(p));
    CollectOk(BackCalls(p));
    var front, memory, back := Collect(FrontCalls(p)).value, MemoryRecords(p.memory).value, Collect(BackCalls(p)).value;
    assert records == front + memory + back;
    if call in FrontCalls(p) {
      var i :| 0 <= i < |FrontCalls(p)| && FrontCalls(p)[i] == call;
      assert front[i] == call.value;
    } else {
      var i :| 0 <= i < |BackCalls(p)| && BackCalls(p)[i] == call;
      assert back[i] == call.value;
    }
    RecordIsHeld(p, call.value);
  }

  lemma MemoryIsHeld(p: Profile, i: nat)
    requires BuildOf(p).Ok? && MemoryRecords(p.memory).Ok? && i < |MemoryRecords(p.memory).value|
    ensures Held(p, Ok(MemoryRecords(p.memory).value[i]))
  {
    hide FrontCalls, BackCalls, MemoryRecords, Collect, BuildOf, Held;
    BuildIsValid(p);
    var r := MemoryRecords(p.memory).value[i];
    assert r in ProfileRecords(p).value;
    RecordIsHeld(p, r);
  }

  /** A stream is built only from copies in order. */
  lemma BuildNeedsCopies(p: Profile)
    requires BuildOf(p).Ok?
    ensures CopiesOk(p)
  {
    hide BuildOf, Ruled, ConnectorTable, SlotTable, SupplementalTable, WfConnector, WfSlot, WfSupplemental,
      FixedCalls, CpuCalls, OemCalls, SupplementalCalls;
    var facts := FactsOf(p);
    forall i | 0 <= i < |p.connectors|
      ensures WfConnector(p.connectors[i])
    {
      assert ConnectorCalls(p)[i] in FrontCalls(p);
      CallIsHeld(p, ConnectorTable(p.connectors[i], i));
      ConnectorNeeds(p.connectors[i], i, facts);
    }
    forall i | 0 <= i < |p.slots|
      ensures WfSlot(p.slots[i])
    {
      assert SlotCalls(p)[i] in FrontCalls(p);
      CallIsHeld(p, SlotTable(p.slots[i], i));
      SlotNeeds(p.slots[i], i, facts);
    }
    forall i | 0 <= i < |p.supplemental|
      ensures WfSupplemental(p.supplemental[i])
    {
      if Skipped(p.supplemental[i].kind) {
        SkippedIsFine(p.supplemental[i]);
      } else {
        SupplementalIsCalled(p.supplemental, |p.supplemental|, i);
        CallIsHeld(p, SupplementalTable(p.supplemental[i], i));
        SupplementalNeeds(p.supplemental[i], i, facts);
      }
    }
  }

  lemma SkippedIsFine(c: Copied)
    requires Skipped(c.kind)
    ensures WfSupplemental(c)
  {
  }

  lemma PrintableFront(strings: seq<string>, n: nat)
    requires AllPrintable(strings) && n <= |strings|
    ensures AllPrintable(strings[..n])
  {
    hide PrintableText;
  }

  lemma BiosNeeds(p: Profile, facts: Facts)
    requires BiosTable(p).Ok? && Ruled(BiosTable(p).value, facts)
    ensures FitsByte(p.platform.biosMajor) && FitsByte(p.platform.biosMinor)
    ensures AllPrintable([p.biosVendor, p.biosVersion, p.biosDate])
  {
    hide Made, Layable, Formatted, PrintableStrings, AllPrintable, ShapeOk;
    var body: seq<Byte> := [1, 2, 0, 0, 3, FIRMWARE_SIZE / 65536 - 1, 0x08, 0, 0, 0, 0, 0, 0, 0, 0x01, 0x18,
      p.platform.biosMajor, p.platform.biosMinor, 0xFF, 0xFF, 0, 0];
    MadeStrings(0, 0x0000, body, [p.biosVendor, p.biosVersion, p.biosDate]);
  }

  lemma SystemNeeds(p: Profile, facts: Facts)
    requires SystemTable(p).Ok? && Ruled(SystemTable(p).value, facts)
    ensures AllPrintable([p.vendor, p.productName, p.productVersion, p.systemSerial, p.productSku, p.productFamily])
  {
    hide Made, Layable, Formatted, PrintableStrings, AllPrintable, ShapeOk, SmbiosUuid;
    var head: seq<Byte> := [1, 2, 3, 4];
    var tail: seq<Byte> := [6, 5, 6];
    MadeStrings(1, 0x0100, head + SmbiosUuid(p.systemUuid) + tail,
      [p.vendor, p.productName, p.productVersion, p.systemSerial, p.productSku, p.productFamily]);
  }

  lemma BoardNeeds(p: Profile, facts: Facts)
    requires BoardTable(p).Ok? && Ruled(BoardTable(p).value, facts)
    ensures AllPrintable([p.platform.boardVendor, p.boardName, p.boardVersion, p.boardSerial, p.identity.boardAsset])
  {
    hide Made, Layable, Formatted, PrintableStrings, AllPrintable, ShapeOk;
    var body: seq<Byte> := [1, 2, 3, 4, 5, 0x09, 6, 0x00, 0x03, 0x0A, 0];
    var strings := [p.platform.boardVendor, p.boardName, p.boardVersion, p.boardSerial,
                    p.identity.boardAsset, "Main Board"];
    MadeStrings(2, 0x0200, body, strings);
    PrintableFront(strings, 5);
    assert strings[..5] == [p.platform.boardVendor, p.boardName, p.boardVersion, p.boardSerial, p.identity.boardAsset];
  }

  lemma ChassisNeeds(p: Profile, facts: Facts)
    requires ChassisTable(p).Ok? && Ruled(ChassisTable(p).value, facts)
    ensures FitsByte(p.platform.chassisType)
    ensures AllPrintable([p.platform.chassisVendor, p.chassisVersion, p.chassisSerial,
                          p.identity.chassisAsset, p.identity.chassisSku])
  {
    hide Made, Layable, Formatted, PrintableStrings, AllPrintable, ShapeOk;
    var body: seq<Byte> := [1, p.platform.chassisType, 2, 3, 4, 3, 3, 3, 2, 0, 0, 0, 0, 0, 1, 0, 0, 5];
    MadeStrings(3, 0x0300, body,
      [p.platform.chassisVendor, p.chassisVersion, p.chassisSerial, p.identity.chassisAsset, p.identity.chassisSku]);
  }

  lemma BuildNeedsFixed(p: Profile)
    requires BuildOf(p).Ok?
    ensures WfFixed(p)
  {
    hide BuildOf, Ruled, BiosTable, SystemTable, BoardTable, ChassisTable, AllPrintable, CpuCalls, ConnectorCalls,
      SlotCalls, OemCalls, SupplementalCalls, ProfileRecords;
    var calls := FixedCalls(p);
    assert forall i :: 0 <= i < 4 ==> FrontCalls(p)[i] == calls[i];
    assert forall i :: 0 <= i < 4 ==> FrontCalls(p)[i] in FrontCalls(p);
    CallIsHeld(p, calls[0]);
    CallIsHeld(p, calls[1]);
    CallIsHeld(p, calls[2]);
    CallIsHeld(p, calls[3]);
    BiosNeeds(p, FactsOf(p));
    SystemNeeds(p, FactsOf(p));
    BoardNeeds(p, FactsOf(p));
    ChassisNeeds(p, FactsOf(p));
  }

  lemma CpuNeeds(p: Profile, index: nat, facts: Facts)
    requires CountOk(p.cpu.cores) && CountOk(p.cpu.enabled) && CountOk(p.cpu.threads)
    requires CpuTable(p, index).Ok? && Ruled(CpuTable(p, index).value, facts)
    ensures WfCpu(p)
  {
    hide Made, Layable, Formatted, PrintableStrings, AllPrintable, ShapeOk, CpuHead, CpuTail, Dec;
    var cpu := p.cpu;
    var rest := [cpu.vendor, cpu.version, cpu.serial, p.identity.cpuAsset, cpu.part];
    var name := cpu.socket + " " + Dec(index + 1);
    var strings := [name, cpu.vendor, cpu.version, cpu.serial, p.identity.cpuAsset, cpu.part];
    MadeStrings(4, 0x0400 + index, CpuHead(cpu) + CpuTail(cpu), strings);
    NameAndRest(strings, rest);
    assert forall i :: 0 <= i < |cpu.socket| ==> cpu.socket[i] == name[i];
  }

  lemma NameAndRest(strings: seq<string>, rest: seq<string>)
    requires AllPrintable(strings) && strings != [] && strings[1..] == rest
    ensures PrintableChars(strings[0]) && AllPrintable(rest)
  {
    assert PrintableText(strings[0]);
    assert forall i :: 0 <= i < |rest| ==> rest[i] == strings[i + 1];
  }

  lemma BuildIsValid(p: Profile)
    requires BuildOf(p).Ok?
    ensures ProfileValid(p) && ProfileRecords(p).Ok? && MemoryRecords(p.memory).Ok?
  {
    hide ProfileRecords, MemoryRecords, ProfileValid, Serialize, LayAll;
  }

  lemma BuildNeedsCpu(p: Profile)
    requires BuildOf(p).Ok?
    ensures WfCpu(p)
  {
    hide BuildOf, Ruled, CpuTable, FixedCalls, ConnectorCalls, SlotCalls, OemCalls, SupplementalCalls, ProfileRecords,
      WfCpu;
    BuildIsValid(p);
    assert CpuCalls(p)[0] in FrontCalls(p);
    CallIsHeld(p, CpuTable(p, 0));
    CpuNeeds(p, 0, FactsOf(p));
  }

  lemma OemNeeds(strings: seq<string>, facts: Facts)
    requires OemTable(strings).Ok? && Ruled(OemTable(strings).value, facts)
    ensures |strings| <= 255 && AllPrintable(strings)
  {
    hide Made, Layable, Formatted, PrintableStrings, AllPrintable, ShapeOk;
    MadeStrings(11, OEM_HANDLE, [|strings|], strings);
  }

  lemma BuildNeedsOem(p: Profile)
    requires BuildOf(p).Ok?
    ensures WfOem(p)
  {
    hide BuildOf, Ruled, OemTable, FixedCalls, CpuCalls, ConnectorCalls, SlotCalls, SupplementalCalls, ProfileRecords;
    if p.oemStrings != [] {
      assert OemCalls(p)[0] in FrontCalls(p);
      CallIsHeld(p, OemTable(p.oemStrings));
      OemNeeds(p.oemStrings, FactsOf(p));
    }
  }

  lemma BatteryNeeds(b: Battery, facts: Facts)
    requires BatteryTable(b).Ok? && Ruled(BatteryTable(b).value, facts)
    ensures WfBattery(b)
  {
    hide Made, Layable, Formatted, PrintableStrings, AllPrintable, ShapeOk, BatteryBody;
    var multiplier := Multiplier(b.capacity);
    var capacity := if b.capacity / multiplier < 0xFFFF then b.capacity / multiplier else 0xFFFF;
    var rest := [b.manufacturer, b.date, b.serial, b.model, b.chemistry];
    var strings := ["Internal Battery", b.manufacturer, b.date, b.serial, b.model, "03.0", b.chemistry];
    MadeStrings(22, 0x1600, BatteryBody(b, capacity, multiplier), strings);
    BatteryRest(strings, rest);
    CapacityNeeds(b.capacity);
  }

  lemma BatteryRest(strings: seq<string>, rest: seq<string>)
    requires AllPrintable(strings) && |strings| == 7 && rest == strings[1..5] + [strings[6]]
    ensures AllPrintable(rest)
  {
    forall i | 0 <= i < |rest|
      ensures PrintableText(rest[i])
    {
      assert rest[i] == strings[if i < 4 then i + 1 else 6];
    }
  }

  lemma CapacityNeeds(capacity: int)
    requires FitsByte(Multiplier(capacity))
    requires Fits16(if capacity / Multiplier(capacity) < 0xFFFF then capacity / Multiplier(capacity) else 0xFFFF)
    ensures 0 <= capacity <= 255 * 0xFFFF
  {
  }

  lemma BuildNeedsBattery(p: Profile)
    requires BuildOf(p).Ok? && p.battery.Some?
    ensures WfBattery(p.battery.value)
  {
    hide BuildOf, Ruled, BatteryTable, BootTable, EndTable, ProfileRecords, WfBattery, FrontCalls;
    assert BackCalls(p)[0] == BatteryTable(p.battery.value);
    CallIsHeld(p, BatteryTable(p.battery.value));
    BatteryNeeds(p.battery.value, FactsOf(p));
  }

  /** What the array and device records need, module by module. */
  lemma DeviceNeeds(m: MemoryProfile, slot: Slot, index: nat, facts: Facts)
    requires DeviceTable(m, slot, index).Ok? && Ruled(DeviceTable(m, slot, index).value, facts)
    ensures PrintableText(slot.deviceLocator) && PrintableText(slot.bankLocator) && FitsByte(slot.formFactor)
    ensures slot.installed ==> FitsByte(m.typeCode) && Fits16(m.speed) && PrintableText(m.vendor)
    ensures slot.installed ==> index < |m.parts| && PrintableText(m.parts[index])
    ensures slot.installed ==> index < |m.serials| && PrintableText(m.serials[index])
    ensures slot.installed ==> index < |m.assets| && PrintableText(m.assets[index])
  {
    hide Made, Layable, Formatted, PrintableStrings, ShapeOk, PrintableText, DeviceHead, DeviceMiddle, DeviceTail,
      JedecFrom;
    var on := slot.installed;
    var speed, rated := if on then m.speed else 0, if on then m.ratedSpeed else 0;
    var low := if on then m.minVoltage else 0;
    var high := if on then m.maxVoltage else 0;
    var now := if on then m.configuredVoltage else 0;
    var body := DeviceHead(slot, if on then m.typeCode else 0, rated, speed, low, high, now)
                + DeviceMiddle(on, if on then JedecFrom(Lower(m.vendor), 0) else 0)
                + DeviceTail(slot.sizeMib, speed);
    var strings := [slot.deviceLocator, slot.bankLocator]
                   + if on then [m.vendor, m.serials[index], m.assets[index], m.parts[index]] else [];
    MadeStrings(17, DEVICE_HANDLE + index, body, strings);
    assert PrintableText(strings[0]) && PrintableText(strings[1]);
    if on {
      assert PrintableText(strings[2]) && PrintableText(strings[3]) && PrintableText(strings[4])
             && PrintableText(strings[5]);
    }
  }

  lemma ArrayNeeds(m: MemoryProfile, slotCount: nat)
    requires ArrayTable(m, slotCount).Ok?
    ensures FitsByte(m.limits.location) && FitsByte(m.limits.use) && FitsByte(m.limits.errorCorrection)
  {
    hide Made;
  }

  lemma MemoryLists(m: MemoryProfile)
    requires MemoryRecords(m).Ok?
    ensures |m.parts| == |m.sizes| && |m.serials| == |m.sizes| && |m.assets| == |m.sizes| && |m.sizes| >= 1
  {
    hide MemoryCalls, Collect, SlotsOf, Sum;
  }

  lemma BuildNeedsMemory(p: Profile)
    requires BuildOf(p).Ok?
    ensures WfMemory(p.memory)
  {
    hide BuildOf, Ruled, MemoryRecords, ArrayTable, DeviceTable, RangeTable, PieceTable, Pieces, Sum, ValidateArray,
      Q35Ranges, PrintableText, GuestSlotsOf, ProfileRecords;
    var m := p.memory;
    BuildIsValid(p);
    var records, slots := MemoryRecords(m).value, SlotsOf(m.sizes, m.templates);
    MemoryShape(m, records);
    MemoryLists(m);
    ArrayNeeds(m, |slots|);
    forall i | 0 <= i < |m.templates|
      ensures PrintableText(m.templates[i].deviceLocator) && PrintableChars(m.templates[i].bankLocator)
      ensures FitsByte(m.templates[i].formFactor)
    {
      SlotNeedsDevice(p, i);
      BankIsPrintable(m.templates[i].bankLocator, slots[i].bankLocator);
    }
    forall i | 0 <= i < |m.sizes|
      ensures FitsByte(m.typeCode) && Fits16(m.speed) && PrintableText(m.vendor)
      ensures PrintableText(m.parts[i]) && PrintableText(m.serials[i]) && PrintableText(m.assets[i])
    {
      SlotNeedsDevice(p, i);
    }
    assert PrintableText(m.parts[0]);
  }

  lemma SlotNeedsDevice(p: Profile, i: nat)
    requires BuildOf(p).Ok? && i < |p.memory.templates|
    ensures var m := p.memory; var slot := SlotsOf(m.sizes, m.templates)[i];
      && PrintableText(slot.deviceLocator) && PrintableText(slot.bankLocator) && FitsByte(slot.formFactor)
      && (slot.installed ==> FitsByte(m.typeCode) && Fits16(m.speed) && PrintableText(m.vendor))
      && (slot.installed ==> i < |m.parts| && PrintableText(m.parts[i]))
      && (slot.installed ==> i < |m.serials| && PrintableText(m.serials[i]))
      && (slot.installed ==> i < |m.assets| && PrintableText(m.assets[i]))
  {
    hide BuildOf, Ruled, MemoryRecords, ArrayTable, DeviceTable, RangeTable, PieceTable, Pieces, Sum, ValidateArray,
      Q35Ranges, PrintableText, GuestSlotsOf, ProfileRecords;
    var m := p.memory;
    BuildIsValid(p);
    var records, slots := MemoryRecords(m).value, SlotsOf(m.sizes, m.templates);
    MemoryShape(m, records);
    assert DeviceTable(m, slots[i], i) == Ok(records[1 + i]);
    MemoryIsHeld(p, 1 + i);
    DeviceNeeds(m, slots[i], i, FactsOf(p));
  }

  lemma BankIsPrintable(given: string, used: string)
    requires PrintableText(used) && (given == "" || given == used)
    ensures PrintableChars(given)
  {
  }

  // ----- handles -----

  lemma HeldHandles(p: Profile, x: Result<Record>, y: Result<Record>)
    requires BuildOf(p).Ok? && Held(p, x) && Held(p, y) && x.value.kind != y.value.kind
    ensures x.value.handle != y.value.handle && x.value.handle < 0xFF00
  {
    hide BuildOf, Ruled, ProfileRecords, TablesOk, TablesOfRecords;
    var records := BuiltIsRuled(p);
    var i :| 0 <= i < |records| && records[i] == x.value;
    var j :| 0 <= j < |records| && records[j] == y.value;
    assert RecordAccepted(records[i], i == |records| - 1);
    assert i < j || j < i;
  }

  lemma ConnectorHeld(p: Profile, i: nat)
    requires BuildOf(p).Ok? && i < |p.connectors|
    ensures var call := ConnectorTable(p.connectors[i], i);
      Held(p, call) && call.value.kind == 8 && call.value.handle == CONNECTOR_HANDLE + i
  {
    hide BuildOf, Held, FixedCalls, CpuCalls, SlotCalls, OemCalls, SupplementalCalls, Made;
    assert ConnectorCalls(p)[i] in FrontCalls(p);
    CallIsHeld(p, ConnectorTable(p.connectors[i], i));
    HeldIsOk(p, ConnectorTable(p.connectors[i], i));
  }

  lemma SlotHeld(p: Profile, i: nat)
    requires BuildOf(p).Ok? && i < |p.slots|
    ensures var call := SlotTable(p.slots[i], i);
      Held(p, call) && call.value.kind == 9 && call.value.handle == SLOT_HANDLE + i
  {
    hide BuildOf, Held, FixedCalls, CpuCalls, ConnectorCalls, OemCalls, SupplementalCalls, Made, GuestSlotBody;
    assert SlotCalls(p)[i] in FrontCalls(p);
    CallIsHeld(p, SlotTable(p.slots[i], i));
    HeldIsOk(p, SlotTable(p.slots[i], i));
  }

  lemma OemHeld(p: Profile)
    requires BuildOf(p).Ok? && p.oemStrings != []
    ensures var call := OemTable(p.oemStrings);
      Held(p, call) && call.value.kind == 11 && call.value.handle == OEM_HANDLE
  {
    hide BuildOf, Held, FixedCalls, CpuCalls, ConnectorCalls, SlotCalls, SupplementalCalls, Made;
    assert OemCalls(p)[0] in FrontCalls(p);
    CallIsHeld(p, OemTable(p.oemStrings));
    HeldIsOk(p, OemTable(p.oemStrings));
  }

  lemma ArrayHeld(p: Profile) returns (call: Result<Record>)
    requires BuildOf(p).Ok?
    ensures Held(p, call) && call.Ok? && call.value.kind == 16 && call.value.handle == ARRAY_HANDLE
  {
    hide BuildOf, Held, MemoryRecords, ProfileRecords, ArrayTable, DeviceTable, RangeTable, PieceTable, Pieces, Sum,
      ValidateArray, Q35Ranges, GuestSlotsOf;
    BuildIsValid(p);
    var records := MemoryRecords(p.memory).value;
    MemoryShape(p.memory, records);
    MemoryIsHeld(p, 0);
    call := Ok(records[0]);
  }

  lemma EndHeld(p: Profile)
    requires BuildOf(p).Ok?
    ensures Held(p, EndTable()) && EndTable().value.kind == END_OF_TABLE
    ensures EndTable().value.handle == END_OF_TABLE_HANDLE
  {
    hide BuildOf, Held, FrontCalls, BatteryTable, BootTable;
    assert EndTable() in BackCalls(p);
    CallIsHeld(p, EndTable());
    HeldIsOk(p, EndTable());
  }

  lemma HeldIsOk(p: Profile, call: Result<Record>)
    requires Held(p, call)
    ensures call.Ok?
  {
  }

  lemma SupplementalHeld(p: Profile, i: nat)
    requires BuildOf(p).Ok? && i < |p.supplemental| && !Skipped(p.supplemental[i].kind)
    ensures var call := SupplementalTable(p.supplemental[i], i);
      Held(p, call) && call.value.kind in {12, 13} && call.value.handle == EXTRA_HANDLE + i
  {
    hide BuildOf, Held, FixedCalls, CpuCalls, ConnectorCalls, SlotCalls, OemCalls, SupplementalCalls, Made;
    SupplementalIsCalled(p.supplemental, |p.supplemental|, i);
    CallIsHeld(p, SupplementalTable(p.supplemental[i], i));
    HeldIsOk(p, SupplementalTable(p.supplemental[i], i));
  }

  /** No connector has the handle of a record of another type. */
  lemma ConnectorsStop(p: Profile, other: Result<Record>)
    requires BuildOf(p).Ok? && Held(p, other) && other.Ok? && other.value.kind != 8
    requires other.value.handle >= CONNECTOR_HANDLE
    ensures CONNECTOR_HANDLE + |p.connectors| <= other.value.handle
  {
    hide BuildOf, Held, ConnectorTable;
    if CONNECTOR_HANDLE + |p.connectors| > other.value.handle {
      var i := other.value.handle - CONNECTOR_HANDLE;
      ConnectorHeld(p, i);
      HeldHandles(p, ConnectorTable(p.connectors[i], i), other);
    }
  }

  lemma SlotsStop(p: Profile, other: Result<Record>)
    requires BuildOf(p).Ok? && Held(p, other) && other.Ok? && other.value.kind != 9 && other.value.handle >= SLOT_HANDLE
    ensures SLOT_HANDLE + |p.slots| <= other.value.handle
  {
    hide BuildOf, Held, SlotTable;
    if SLOT_HANDLE + |p.slots| > other.value.handle {
      var i := other.value.handle - SLOT_HANDLE;
      SlotHeld(p, i);
      HeldHandles(p, SlotTable(p.slots[i], i), other);
    }
  }

  lemma ExtrasStop(p: Profile, i: nat)
    requires BuildOf(p).Ok? && i < |p.supplemental| && !Skipped(p.supplemental[i].kind)
    ensures i < END_OF_TABLE_HANDLE - EXTRA_HANDLE
  {
    hide BuildOf, Held, SupplementalTable, EndTable;
    SupplementalHeld(p, i);
    EndHeld(p);
    HeldIsOk(p, EndTable());
    HeldHandles(p, SupplementalTable(p.supplemental[i], i), EndTable());
  }

  lemma BuildNeedsHandles(p: Profile)
    requires BuildOf(p).Ok?
    ensures HandlesFit(p)
  {
    hide BuildOf, Held, ConnectorTable, SlotTable, OemTable, Skipped;
    var first := ArrayHeld(p);
    ConnectorsStop(p, first);
    SlotsStop(p, first);
    if p.oemStrings != [] {
      OemHeld(p);
      HeldIsOk(p, OemTable(p.oemStrings));
      ConnectorsStop(p, OemTable(p.oemStrings));
      SlotsStop(p, OemTable(p.oemStrings));
    }
    if p.slots != [] {
      SlotHeld(p, 0);
      HeldIsOk(p, SlotTable(p.slots[0], 0));
      ConnectorsStop(p, SlotTable(p.slots[0], 0));
    }
    forall i | END_OF_TABLE_HANDLE - EXTRA_HANDLE <= i < |p.supplemental|
      ensures Skipped(p.supplemental[i].kind)
    {
      if !Skipped(p.supplemental[i].kind) {
        ExtrasStop(p, i);
      }
    }
  }

  /** The stream of a profile is built exactly when the profile is well-formed. */
  lemma BuildsExactly(p: Profile)
    ensures BuildOf(p).Ok? <==> WellFormed(p)
  {
    hide BuildOf, ProfileValid, WfFixed, WfCpu, CopiesOk, WfOem, WfMemory, WfBattery, HandlesFit, ProfileRecords,
      MemoryRecords;
    if BuildOf(p).Ok? {
      BuildIsValid(p);
      BuildNeedsFixed(p);
      BuildNeedsCpu(p);
      BuildNeedsCopies(p);
      BuildNeedsOem(p);
      BuildNeedsMemory(p);
      BuildNeedsHandles(p);
      if p.battery.Some? {
        BuildNeedsBattery(p);
      }
    }
    if WellFormed(p) {
      var records := BuildSucceeds(p);
    }
  }
}

/**
 `build_smbios_stream`: the complete structure stream of a guest, one structure after the other,
 from the profile that `01_generate_identity.py` settles.
 */
module ProfileStream {
  import opened Outcomes
  import opened Bytes
  import opened Sequences
  import opened Text
  import opened Structures
  import opened Walkers
  import opened DimmLayout
  import opened MemorySlots
  import opened MemoryMap
  import opened MemoryTables
  import opened TableRules

  const FIRMWARE_SIZE := 4 * 0x10_0000

  const CONNECTOR_HANDLE := 0x0800
  const SLOT_HANDLE := 0x0900
  const OEM_HANDLE := 0x0B00
  const EXTRA_HANDLE := 0x3000

  type Uuid = raw: seq<Byte> | |raw| == 16 witness [0, 0, 0, 0, 0, 0, 0, 0, 0, 0, 0, 0, 0, 0, 0, 0]

  datatype Platform = Platform(biosMajor: int, biosMinor: int, boardVendor: string, chassisVendor: string,
    chassisType: int)

  datatype Identity = Identity(boardAsset: string, chassisAsset: string, chassisSku: string, cpuAsset: string)

  datatype Cpu = Cpu(
    sockets: int, cores: int, enabled: int, threads: int, family: int, family2: int, signature: int, features: int,
    voltage: int, clockMhz: int, maxMhz: int, currentMhz: int, upgrade: int, characteristics: int,
    socket: string, vendor: string, version: string, serial: string, part: string)

  /** A structure taken over from the host: its body after the header, and its strings. */
  datatype Copied = Copied(kind: int, body: seq<Byte>, strings: seq<string>)

  datatype Battery = Battery(capacity: int, voltage: int, serialNumber: int, dateNumber: int,
    manufacturer: string, date: string, serial: string, model: string, chemistry: string)

  datatype Profile = Profile(
    policyOk: bool, // schema, cache and CPU-ID policy markers, absent host caches and the date format all as demanded
    vendor: string, biosVendor: string, biosVersion: string, biosDate: string,
    systemUuid: Uuid, productName: string, productVersion: string, systemSerial: string,
    productSku: string, productFamily: string,
    boardName: string, boardVersion: string, boardSerial: string, chassisVersion: string, chassisSerial: string,
    cpu: Cpu, connectors: seq<Copied>, slots: seq<Copied>, oemStrings: seq<string>, supplemental: seq<Copied>,
    memory: MemoryProfile, battery: Option<Battery>,
    platform: Platform, identity: Identity)

  function FactsOf(p: Profile): Facts {
    Facts(p.cpu.sockets, p.cpu.cores, p.cpu.enabled, p.cpu.threads, p.memory.limits.slots, p.battery.Some?)
  }

  // ----- validate_profile -----

  predicate CountOk(v: int) {
    1 <= v <= 65534
  }

  function Characteristics(cpu: Cpu): int {
    4 + (if cpu.cores > 1 then 8 else 0) + (if cpu.threads > cpu.cores then 16 else 0)
  }

  /** `validate_profile` returns instead of raising. */
  predicate ProfileValid(p: Profile) {
    var cpu := p.cpu;
    && p.policyOk
    && CountOk(cpu.sockets) && CountOk(cpu.cores) && CountOk(cpu.enabled) && CountOk(cpu.threads)
    && cpu.sockets <= 256 && cpu.enabled == cpu.cores && cpu.threads >= cpu.enabled && cpu.threads % cpu.cores == 0
    && cpu.characteristics == Characteristics(cpu)
    && 10 <= cpu.clockMhz <= 400
    && cpu.voltage / 0x80 % 2 == 1 && 5 <= cpu.voltage % 0x80 <= 20
    && p.memory.ratedSpeed == p.memory.speed
    && VoltageOk(p.memory.minVoltage) && VoltageOk(p.memory.maxVoltage) && VoltageOk(p.memory.configuredVoltage)
    && cpu.signature == 0 && cpu.features == 0
    && 0 < cpu.maxMhz <= 65535 && 0 < cpu.currentMhz <= 65535
  }

  // ----- the structures -----

  function BiosTable(p: Profile): (t: Result<Record>)
    ensures t.Ok? ==> Layable(t.value)
  {
    if !FitsByte(p.platform.biosMajor) || !FitsByte(p.platform.biosMinor) then Err(StructError)
    else
      var body: seq<Byte> := [1, 2, 0, 0, 3, FIRMWARE_SIZE / 65536 - 1, 0x08, 0, 0, 0, 0, 0, 0, 0, 0x01, 0x18,
        p.platform.biosMajor, p.platform.biosMinor, 0xFF, 0xFF, 0, 0];
      Made(0, 0x0000, body, [p.biosVendor, p.biosVersion, p.biosDate])
  }

  /** The wire order of a UUID: the first three groups reversed. */
  function SmbiosUuid(raw: Uuid): (wire: seq<Byte>)
    ensures |wire| == 16
  {
    [raw[3], raw[2], raw[1], raw[0], raw[5], raw[4], raw[7], raw[6]] + raw[8..]
  }

  function SystemTable(p: Profile): (t: Result<Record>)
    ensures t.Ok? ==> Layable(t.value)
  {
    var head: seq<Byte> := [1, 2, 3, 4];
    var tail: seq<Byte> := [6, 5, 6];
    Made(1, 0x0100, head + SmbiosUuid(p.systemUuid) + tail,
         [p.vendor, p.productName, p.productVersion, p.systemSerial, p.productSku, p.productFamily])
  }

  function BoardTable(p: Profile): (t: Result<Record>)
    ensures t.Ok? ==> Layable(t.value)
  {
    var body: seq<Byte> := [1, 2, 3, 4, 5, 0x09, 6, 0x00, 0x03, 0x0A, 0];
    Made(2, 0x0200, body,
         [p.platform.boardVendor, p.boardName, p.boardVersion, p.boardSerial, p.identity.boardAsset, "Main Board"])
  }

  function ChassisTable(p: Profile): (t: Result<Record>)
    ensures t.Ok? ==> Layable(t.value)
  {
    if !FitsByte(p.platform.chassisType) then Err(StructError)
    else
      var body: seq<Byte> := [1, p.platform.chassisType, 2, 3, 4, 3, 3, 3, 2, 0, 0, 0, 0, 0, 1, 0, 0, 5];
      Made(3, 0x0300, body,
           [p.platform.chassisVendor, p.chassisVersion, p.chassisSerial,
            p.identity.chassisAsset, p.identity.chassisSku])
  }

  /** Offsets 4 to 23 of a Type 4 structure; the Processor ID is at 8. */
  function CpuHead(cpu: Cpu): (head: seq<Byte>)
    requires FitsByte(cpu.family) && FitsByte(cpu.voltage)
    ensures |head| == 20
  {
    var current := if cpu.currentMhz < cpu.maxMhz then cpu.currentMhz else cpu.maxMhz;
    var family: Byte, voltage: Byte := cpu.family, cpu.voltage;
    [1, 3, family, 2,
     B0(cpu.signature), B1(cpu.signature), B2(cpu.signature), B3(cpu.signature),
     B0(cpu.features), B1(cpu.features), B2(cpu.features), B3(cpu.features),
     3, voltage, B0(cpu.clockMhz), B1(cpu.clockMhz), B0(cpu.maxMhz), B1(cpu.maxMhz), B0(current), B1(current)]
  }

  /** Offsets 24 to 47: status, cache handles, strings, and the core counts in both widths. */
  function CpuTail(cpu: Cpu): (tail: seq<Byte>)
    requires FitsByte(cpu.upgrade) && cpu.cores >= 0 && cpu.enabled >= 0 && cpu.threads >= 0
    ensures |tail| == 24
  {
    var upgrade: Byte := cpu.upgrade;
    var cores: Byte, enabled: Byte, threads: Byte := Least255(cpu.cores), Least255(cpu.enabled), Least255(cpu.threads);
    [0x41, upgrade, 0xFF, 0xFF, 0xFF, 0xFF, 0xFF, 0xFF, 4, 5, 6, cores, enabled, threads,
     B0(cpu.characteristics), B1(cpu.characteristics), B0(cpu.family2), B1(cpu.family2),
     B0(cpu.cores), B1(cpu.cores), B0(cpu.enabled), B1(cpu.enabled), B0(cpu.threads), B1(cpu.threads)]
  }

  function CpuTable(p: Profile, index: nat): (t: Result<Record>)
    ensures t.Ok? ==> Layable(t.value)
  {
    var cpu := p.cpu;
    if !FitsByte(cpu.family) || !FitsByte(cpu.voltage) || !FitsByte(cpu.upgrade) then Err(ValueError)
    else if !Fits32(cpu.signature) || !Fits32(cpu.features) || !Fits16(cpu.clockMhz) || !Fits16(cpu.maxMhz)
            || !Fits16(cpu.currentMhz) || !Fits16(cpu.characteristics) || !Fits16(cpu.family2) || !Fits16(cpu.cores)
            || !Fits16(cpu.enabled) || !Fits16(cpu.threads) then Err(StructError)
    else Made(4, 0x0400 + index, CpuHead(cpu) + CpuTail(cpu),
              [cpu.socket + " " + Dec(index + 1), cpu.vendor, cpu.version, cpu.serial, p.identity.cpuAsset, cpu.part])
  }

  function ConnectorTable(c: Copied, index: nat): (t: Result<Record>)
    ensures t.Ok? ==> Layable(t.value)
  {
    Made(8, CONNECTOR_HANDLE + index, c.body, c.strings)
  }

  /** `guest_slot_body`: host usage and bus address blanked, peer groups cut off. */
  function GuestSlotBody(body: seq<Byte>): (r: Result<seq<Byte>>)
    ensures r.Ok? ==> 13 <= |r.value| <= 15
  {
    if |body| < 13 then Err(RuntimeError)
    else
      var cut := if |body| > 15 then body[..15] else body;
      var blanked := cut[3 := 2][9 := 0xFF][10 := 0xFF][11 := 0xFF][12 := 0xFF];
      Ok(if |blanked| >= 15 then blanked[14 := 0] else blanked)
  }

  function SlotTable(c: Copied, index: nat): (t: Result<Record>)
    ensures t.Ok? ==> Layable(t.value)
  {
    var body :- GuestSlotBody(c.body);
    Made(9, SLOT_HANDLE + index, body, c.strings)
  }

  function OemTable(strings: seq<string>): (t: Result<Record>)
    ensures t.Ok? ==> Layable(t.value)
  {
    if |strings| > 255 then Err(RuntimeError)
    else
      var body: seq<Byte> := [|strings|];
      Made(11, OEM_HANDLE, body, strings)
  }

  predicate Skipped(kind: int) {
    kind == 26 || kind == 28 || kind == 29
  }

  function SupplementalTable(c: Copied, index: nat): (t: Result<Record>)
    ensures t.Ok? ==> Layable(t.value)
  {
    if c.kind != 12 && c.kind != 13 then Err(RuntimeError)
    else Made(c.kind, EXTRA_HANDLE + index, c.body, c.strings)
  }

  function Multiplier(capacity: int): int {
    if (capacity + 0xFFFE) / 0xFFFF > 1 then (capacity + 0xFFFE) / 0xFFFF else 1
  }

  function BatteryBody(b: Battery, capacity: int, multiplier: Byte): (body: seq<Byte>)
    ensures |body| == 22
  {
    [1, 2, 3, 4, 5, 6, B0(capacity), B1(capacity), B0(b.voltage), B1(b.voltage), 6, 0xFF,
     B0(b.serialNumber), B1(b.serialNumber), B0(b.dateNumber), B1(b.dateNumber), 7, multiplier, 0, 0, 0, 0]
  }

  function BatteryTable(b: Battery): (t: Result<Record>)
    ensures t.Ok? ==> Layable(t.value)
  {
    var multiplier := Multiplier(b.capacity);
    var capacity := if b.capacity / multiplier < 0xFFFF then b.capacity / multiplier else 0xFFFF;
    if !Fits16(capacity) || !Fits16(b.voltage) || !Fits16(b.serialNumber) || !Fits16(b.dateNumber) then Err(StructError)
    else if !FitsByte(multiplier) then Err(StructError)
    else Made(22, 0x1600, BatteryBody(b, capacity, multiplier),
              ["Internal Battery", b.manufacturer, b.date, b.serial, b.model, "03.0", b.chemistry])
  }

  function BootTable(): (t: Result<Record>)
    ensures t.Ok? ==> Layable(t.value)
  {
    var body: seq<Byte> := [0, 0, 0, 0, 0, 0, 0];
    Made(32, 0x2000, body, [])
  }

  function EndTable(): (t: Result<Record>)
    ensures t.Ok? ==> Layable(t.value)
  {
    Made(END_OF_TABLE, END_OF_TABLE_HANDLE, [], [])
  }

  // ----- the list of calls -----

  type Calls = seq<Result<Record>>

  function FixedCalls(p: Profile): Calls {
    [BiosTable(p), SystemTable(p), BoardTable(p), ChassisTable(p)]
  }

  function Sockets(p: Profile): nat {
    if p.cpu.sockets > 0 then p.cpu.sockets else 0
  }

  function CpuCalls(p: Profile): (calls: Calls)
    ensures |calls| == Sockets(p) && forall i :: 0 <= i < |calls| ==> calls[i] == CpuTable(p, i)
  {
    seq(Sockets(p), i requires i >= 0 => CpuTable(p, i))
  }

  function ConnectorCalls(p: Profile): (calls: Calls)
    ensures |calls| == |p.connectors| && forall i :: 0 <= i < |calls| ==> calls[i] == ConnectorTable(p.connectors[i], i)
  {
    seq(|p.connectors|, i requires 0 <= i < |p.connectors| => ConnectorTable(p.connectors[i], i))
  }

  function SlotCalls(p: Profile): (calls: Calls)
    ensures |calls| == |p.slots| && forall i :: 0 <= i < |calls| ==> calls[i] == SlotTable(p.slots[i], i)
  {
    seq(|p.slots|, i requires 0 <= i < |p.slots| => SlotTable(p.slots[i], i))
  }

  function OemCalls(p: Profile): Calls {
    if p.oemStrings == [] then [] else [OemTable(p.oemStrings)]
  }

  /** The first `n` supplemental records, without the types the builder skips. */
  function SupplementalCalls(items: seq<Copied>, n: nat): Calls
    requires n <= |items|
  {
    if n == 0 then []
    else SupplementalCalls(items, n - 1)
         + (if Skipped(items[n - 1].kind) then [] else [SupplementalTable(items[n - 1], n - 1)])
  }

  function FrontCalls(p: Profile): Calls {
    FixedCalls(p) + CpuCalls(p) + ConnectorCalls(p) + SlotCalls(p) + OemCalls(p)
    + SupplementalCalls(p.supplemental, |p.supplemental|)
  }

  function BackCalls(p: Profile): Calls {
    (if p.battery.Some? then [BatteryTable(p.battery.value)] else []) + [BootTable(), EndTable()]
  }

  /** The records of the stream in order, or the first exception on the way. */
  function ProfileRecords(p: Profile): Result<seq<Record>> {
    var front :- Collect(FrontCalls(p));
    var memory :- MemoryRecords(p.memory);
    var back :- Collect(BackCalls(p));
    Ok(front + memory + back)
  }

  /** What `build_smbios_stream` returns, or the exception it raises. */
  function BuildOf(p: Profile): Result<seq<Byte>> {
    if !ProfileValid(p) then Err(ValueError)
    else
      var records :- ProfileRecords(p);
      var memory :- MemoryRecords(p.memory);
      RecordsLayable(p);
      MemoryLaid(p.memory);
      var data := Serialize(records);
      if SkimFrom(data, 0, {}) != Some(Skim(LayAll(memory), true)) then Err(ValueError)
      else
        var checked :- ValidateTables(data, FactsOf(p));
        Ok(data)
  }

  lemma MemoryLaid(m: MemoryProfile)
    ensures MemoryRecords(m).Ok? ==> AllLayable(MemoryRecords(m).value)
  {
    hide Layable, Pieces, ArrayTable, DeviceTable, RangeTable, PieceTable;
    if MemoryRecords(m).Ok? {
      var ranges, slots := Q35Ranges(Sum(m.sizes) * MIB).value, SlotsOf(m.sizes, m.templates);
      MemoryCallsLayable(m, ranges, slots);
      CollectOk(MemoryCalls(m, ranges, slots));
    }
  }

  lemma {:induction false} SupplementalLayable(items: seq<Copied>, n: nat)
    requires n <= |items|
    ensures OkLayable(SupplementalCalls(items, n))
    decreases n
  {
    if n > 0 {
      SupplementalLayable(items, n - 1);
    }
  }

  lemma FrontLayable(p: Profile)
    ensures OkLayable(FrontCalls(p))
  {
    hide Layable, BiosTable, SystemTable, BoardTable, ChassisTable, CpuTable, ConnectorTable, SlotTable, OemTable;
    SupplementalLayable(p.supplemental, |p.supplemental|);
  }

  lemma BackLayable(p: Profile)
    ensures OkLayable(BackCalls(p))
  {
  }

  lemma RecordsLayable(p: Profile)
    ensures ProfileRecords(p).Ok? ==> AllLayable(ProfileRecords(p).value)
  {
    hide Layable, FrontCalls, BackCalls, MemoryRecords;
    FrontLayable(p);
    BackLayable(p);
    MemoryLaid(p.memory);
    CollectOk(FrontCalls(p));
    CollectOk(BackCalls(p));
  }

  lemma {:induction false} SupplementalPrefix(items: seq<Copied>, n: nat, m: nat)
    requires n <= m <= |items|
    ensures SupplementalCalls(items, n) <= SupplementalCalls(items, m)
    decreases m
  {
    if n < m {
      SupplementalPrefix(items, n, m - 1);
    }
  }

  /** One Type 4 structure per socket. */
  method CpuTables(p: Profile) returns (r: Result<seq<seq<Byte>>>)
    ensures Prints(CpuCalls(p), r)
  {
    hide Lay, Layable, Printed, Prints, Collect, CpuTable;
    ghost var calls := CpuCalls(p);
    NonePrinted(calls);
    var out: seq<seq<Byte>> := [];
    for index := 0 to Sockets(p)
      invariant Printed(calls, index, out)
    {
      var table := CpuTable(p, index);
      assert table == calls[index];
      OnePrinted(calls, index, out);
      if table.Err? {
        FailsPrints(calls, table.error);
        return Err(table.error);
      }
      out := out + [Lay(table.value)];
    }
    AllPrints(calls, out);
    return Ok(out);
  }

  /** The host's Type 8 structures. */
  method ConnectorTables(p: Profile) returns (r: Result<seq<seq<Byte>>>)
    ensures Prints(ConnectorCalls(p), r)
  {
    hide Lay, Layable, Printed, Prints, Collect, ConnectorTable;
    ghost var calls := ConnectorCalls(p);
    NonePrinted(calls);
    var out: seq<seq<Byte>> := [];
    for index := 0 to |p.connectors|
      invariant Printed(calls, index, out)
    {
      var table := ConnectorTable(p.connectors[index], index);
      assert table == calls[index];
      OnePrinted(calls, index, out);
      if table.Err? {
        FailsPrints(calls, table.error);
        return Err(table.error);
      }
      out := out + [Lay(table.value)];
    }
    AllPrints(calls, out);
    return Ok(out);
  }

  /** The host's Type 9 structures, blanked. */
  method SlotTables(p: Profile) returns (r: Result<seq<seq<Byte>>>)
    ensures Prints(SlotCalls(p), r)
  {
    hide Lay, Layable, Printed, Prints, Collect, SlotTable;
    ghost var calls := SlotCalls(p);
    NonePrinted(calls);
    var out: seq<seq<Byte>> := [];
    for index := 0 to |p.slots|
      invariant Printed(calls, index, out)
    {
      var table := SlotTable(p.slots[index], index);
      assert table == calls[index];
      OnePrinted(calls, index, out);
      if table.Err? {
        FailsPrints(calls, table.error);
        return Err(table.error);
      }
      out := out + [Lay(table.value)];
    }
    AllPrints(calls, out);
    return Ok(out);
  }

  lemma SupplementalNone(items: seq<Copied>)
    ensures SupplementalCalls(items, 0) == []
  {
  }

  lemma SupplementalStep(items: seq<Copied>, n: nat)
    requires n < |items|
    ensures SupplementalCalls(items, n + 1)
         == SupplementalCalls(items, n) + if Skipped(items[n].kind) then [] else [SupplementalTable(items[n], n)]
  {
  }

  /** The supplemental structures, without the types the builder skips. */
  method SupplementalTables(p: Profile) returns (r: Result<seq<seq<Byte>>>)
    ensures Prints(SupplementalCalls(p.supplemental, |p.supplemental|), r)
  {
    hide Lay, Layable, Printed, Prints, Collect, SupplementalTable, SupplementalCalls, Skipped;
    ghost var calls := SupplementalCalls(p.supplemental, |p.supplemental|);
    SupplementalLayable(p.supplemental, |p.supplemental|);
    NonePrinted(calls);
    SupplementalNone(p.supplemental);
    var out: seq<seq<Byte>> := [];
    for index := 0 to |p.supplemental|
      invariant SupplementalCalls(p.supplemental, index) <= calls
      invariant Printed(calls, |SupplementalCalls(p.supplemental, index)|, out)
    {
      SupplementalPrefix(p.supplemental, index + 1, |p.supplemental|);
      SupplementalStep(p.supplemental, index);
      if !Skipped(p.supplemental[index].kind) {
        ghost var at := |SupplementalCalls(p.supplemental, index)|;
        var table := SupplementalTable(p.supplemental[index], index);
        assert SupplementalCalls(p.supplemental, index + 1)[at] == table;
        assert calls[at] == table;
        OnePrinted(calls, at, out);
        if table.Err? {
          FailsPrints(calls, table.error);
          return Err(table.error);
        }
        out := out + [Lay(table.value)];
      }
    }
    AllPrints(calls, out);
    return Ok(out);
  }

  lemma FailsPrints(calls: Calls, error: Error)
    requires Collect(calls) == Err(error)
    ensures Prints(calls, Err(error))
  {
  }

  /** A list written out call by call. */
  method PrintAll(calls: Calls) returns (r: Result<seq<seq<Byte>>>)
    requires OkLayable(calls)
    ensures Prints(calls, r)
  {
    hide Lay, Layable, Printed, Prints, Collect;
    NonePrinted(calls);
    var out: seq<seq<Byte>> := [];
    for index := 0 to |calls|
      invariant Printed(calls, index, out)
    {
      OnePrinted(calls, index, out);
      if calls[index].Err? {
        FailsPrints(calls, calls[index].error);
        return Err(calls[index].error);
      }
      out := out + [Lay(calls[index].value)];
    }
    AllPrints(calls, out);
    return Ok(out);
  }

  /** The structures before the memory tables: fixed ones, processors, and what the host had. */
  method BuildFront(p: Profile) returns (r: Result<seq<seq<Byte>>>)
    ensures Prints(FrontCalls(p), r)
  {
    hide Prints, FixedCalls, CpuCalls, ConnectorCalls, SlotCalls, OemCalls, SupplementalCalls, OkLayable;
    FixedLayable(p);
    var fixed := PrintAll(FixedCalls(p));
    var cpus := CpuTables(p);
    var connectors := ConnectorTables(p);
    var slots := SlotTables(p);
    var oem := PrintAll(OemCalls(p));
    var extra := SupplementalTables(p);
    PrintsAppend(FixedCalls(p), fixed, CpuCalls(p), cpus);
    r := Then(fixed, cpus);
    PrintsAppend(FixedCalls(p) + CpuCalls(p), r, ConnectorCalls(p), connectors);
    r := Then(r, connectors);
    PrintsAppend(FixedCalls(p) + CpuCalls(p) + ConnectorCalls(p), r, SlotCalls(p), slots);
    r := Then(r, slots);
    PrintsAppend(FixedCalls(p) + CpuCalls(p) + ConnectorCalls(p) + SlotCalls(p), r, OemCalls(p), oem);
    r := Then(r, oem);
    PrintsAppend(FixedCalls(p) + CpuCalls(p) + ConnectorCalls(p) + SlotCalls(p) + OemCalls(p), r,
                 SupplementalCalls(p.supplemental, |p.supplemental|), extra);
    r := Then(r, extra);
  }

  /** Two groups in turn: the first exception, or all the structures. */
  function Then(a: Result<seq<seq<Byte>>>, b: Result<seq<seq<Byte>>>): Result<seq<seq<Byte>>> {
    if a.Err? then a else if b.Err? then b else Ok(a.value + b.value)
  }

  lemma FixedLayable(p: Profile)
    ensures OkLayable(FixedCalls(p)) && OkLayable(OemCalls(p))
  {
    hide Layable, BiosTable, SystemTable, BoardTable, ChassisTable, OemTable;
  }

  method BuildBack(p: Profile) returns (r: Result<seq<seq<Byte>>>)
    ensures Prints(BackCalls(p), r)
  {
    BackLayable(p);
    r := PrintAll(BackCalls(p));
  }

  /** `build_smbios_stream`: the structures in order, then both final validations. */
  method BuildSmbiosStream(p: Profile) returns (r: Result<seq<Byte>>)
    ensures r == BuildOf(p)
  {
    hide Lay, Layable, Collect, FrontCalls, BackCalls, MemoryRecords, SkimFrom, TablesOk, Parsed, ProfileValid;
    if !ProfileValid(p) {
      return Err(ValueError);
    }
    MemoryLaid(p.memory);
    RecordsLayable(p);
    var front := BuildFront(p);
    if front.Err? {
      return Err(front.error);
    }
    var memory := BuildMemoryTables(p.memory);
    if memory.Err? {
      return Err(memory.error);
    }
    var back := BuildBack(p);
    if back.Err? {
      return Err(back.error);
    }
    var data := Flatten(front.value + memory.value + back.value);
    Assembled(p);
    var skim, skimmed := ValidateStream(data, memory.value);
    if skim.Err? {
      return Err(skim.error);
    }
    var tables, parsed := ParseTables(data);
    if tables.Err? {
      return Err(tables.error);
    }
    if !TablesOk(tables.value, FactsOf(p)) {
      return Err(ValueError);
    }
    return Ok(data);
  }

  /** `b"".join(parts)`. */
  function Flatten(parts: seq<seq<Byte>>): seq<Byte> {
    if parts == [] then [] else parts[0] + Flatten(parts[1..])
  }

  lemma {:induction false} FlattenLaid(records: seq<Record>)
    requires AllLayable(records)
    ensures Flatten(LayAll(records)) == Serialize(records)
    decreases |records|
  {
    hide Lay, Layable;
    if records != [] {
      FlattenLaid(records[1..]);
      assert LayAll(records)[1..] == LayAll(records[1..]);
    }
  }

  lemma Assembled(p: Profile)
    requires ProfileRecords(p).Ok?
    ensures Collect(FrontCalls(p)).Ok? && AllLayable(Collect(FrontCalls(p)).value)
    ensures MemoryRecords(p.memory).Ok? && AllLayable(MemoryRecords(p.memory).value)
    ensures Collect(BackCalls(p)).Ok? && AllLayable(Collect(BackCalls(p)).value)
    ensures AllLayable(ProfileRecords(p).value)
    ensures Serialize(ProfileRecords(p).value)
         == Flatten(LayAll(Collect(FrontCalls(p)).value) + LayAll(MemoryRecords(p.memory).value)
                    + LayAll(Collect(BackCalls(p)).value))
  {
    hide Lay, Layable, FrontCalls, BackCalls, MemoryRecords, Serialize, Flatten;
    FrontLayable(p);
    BackLayable(p);
    MemoryLaid(p.memory);
    CollectOk(FrontCalls(p));
    CollectOk(BackCalls(p));
    var front, memory, back := Collect(FrontCalls(p)).value, MemoryRecords(p.memory).value, Collect(BackCalls(p)).value;
    var all := front + memory + back;
    assert AllLayable(all);
    FlattenLaid(all);
    assert LayAll(all) == LayAll(front) + LayAll(memory) + LayAll(back);
  }
}

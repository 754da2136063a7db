/**
 A built stream end to end: when the C loader takes it, that the run-time pass turns it into the one stream the
 guest check accepts, and what its memory structures add up to.
 */
module GuestStream {
  import opened Outcomes
  import opened Bytes
  import opened Sequences
  import opened Structures
  import opened Walkers
  import opened RoundTrip
  import opened Loader
  import opened Finalizer
  import opened DimmLayout
  import opened MemoryTables
  import opened MemoryConservation
  import opened TableRules
  import opened ProfileStream
  import opened StreamSoundness
  import opened StreamBuilding

  // ----- the C loader -----

  /** How many of the first `n` supplemental records have the type. */
  function ItemCount(items: seq<Copied>, n: nat, kind: int): nat
    requires n <= |items|
  {
    if n == 0 then 0 else ItemCount(items, n - 1, kind) + if items[n - 1].kind == kind then 1 else 0
  }

  function RecordCount(records: seq<Record>, kind: Byte): nat {
    if records == [] then 0
    else RecordCount(records[..|records| - 1], kind) + if records[|records| - 1].kind == kind then 1 else 0
  }

  predicate OnceEach(records: seq<Record>, kind: Byte) {
    forall i, j :: 0 <= i < j < |records| ==> !(records[i].kind == kind && records[j].kind == kind)
  }

  lemma {:induction false} OnceIsCount(records: seq<Record>, kind: Byte)
    ensures RecordCount(records, kind) == 0 <==> forall i :: 0 <= i < |records| ==> records[i].kind != kind
    ensures OnceEach(records, kind) <==> RecordCount(records, kind) <= 1
    decreases |records|
  {
    if records != [] {
      var front, last := records[..|records| - 1], |records| - 1;
      OnceIsCount(front, kind);
      assert forall i :: 0 <= i < last ==> front[i] == records[i];
      if OnceEach(front, kind) && !OnceEach(records, kind) {
        assert records[last].kind == kind;
      }
      if RecordCount(front, kind) > 0 && records[last].kind == kind {
        var i :| 0 <= i < last && front[i].kind == kind;
        assert records[i].kind == kind;
      }
    }
  }

  lemma {:induction false} SupplementalCount(items: seq<Copied>, n: nat, kind: Byte)
    requires n <= |items| && (kind == 12 || kind == 13) && Collect(SupplementalCalls(items, n)).Ok?
    ensures RecordCount(Collect(SupplementalCalls(items, n)).value, kind) == ItemCount(items, n, kind as int)
    decreases n
  {
    hide SupplementalTable, Collect;
    if n == 0 {
      NothingCollected();
    } else {
      var front, item := SupplementalCalls(items, n - 1), items[n - 1];
      if Skipped(item.kind) {
        assert SupplementalCalls(items, n) == front;
        SupplementalCount(items, n - 1, kind);
      } else {
        CollectFront(front, SupplementalTable(item, n - 1));
        SupplementalCount(items, n - 1, kind);
        SupplementalMade(item, n - 1);
        var before, made := Collect(front).value, SupplementalTable(item, n - 1).value;
        assert (before + [made])[..|before|] == before;
      }
    }
  }

  lemma CollectFront(front: Calls, last: Result<Record>)
    requires Collect(front + [last]).Ok?
    ensures Collect(front).Ok? && last.Ok? && Collect(front + [last]).value == Collect(front).value + [last.value]
  {
    assert (front + [last])[..|front|] == front;
  }

  lemma SupplementalMade(c: Copied, index: nat)
    requires SupplementalTable(c, index).Ok?
    ensures SupplementalTable(c, index).value.kind as int == c.kind
  {
  }

  /** Only Types 12 and 13 can occur twice among the types the loader does not let repeat. */
  lemma RepeatsOnlyExtra(p: Profile, low: seq<Record>, extra: seq<Record>, tail: seq<Record>, all: seq<Record>, i: nat,
                         j: nat)
    requires Parts(p, low, extra, tail) && EndTable().Ok? && all == low + extra + tail + [EndTable().value]
    requires i < j < |all| && all[i].kind == all[j].kind
    ensures CanRepeat(all[i].kind) || (|low| <= i && j < |low| + |extra|)
    ensures all[i].kind <= MAX_TYPE
  {
    hide Fine, EndTable;
    var end := EndTable().value;
    EndGood(FactsOf(p));
    KindWhere(p, low, extra, tail, end, i);
    KindWhere(p, low, extra, tail, end, j);
  }

  lemma KindInRange(p: Profile, low: seq<Record>, extra: seq<Record>, tail: seq<Record>, all: seq<Record>, i: nat)
    requires Parts(p, low, extra, tail) && EndTable().Ok? && all == low + extra + tail + [EndTable().value]
    requires i < |all|
    ensures all[i].kind <= MAX_TYPE
  {
    hide Fine, EndTable;
    EndGood(FactsOf(p));
    KindWhere(p, low, extra, tail, EndTable().value, i);
  }

  lemma LoadableStream(p: Profile, low: seq<Record>, extra: seq<Record>, tail: seq<Record>, all: seq<Record>)
    requires Parts(p, low, extra, tail) && EndTable().Ok? && all == low + extra + tail + [EndTable().value]
    requires AllLayable(all)
    ensures Loadable(TablesOfRecords(all), {}) <==> OnceEach(extra, 12) && OnceEach(extra, 13)
  {
    hide Fine, EndTable, LowShape, TailShape, Layable, TablesOfRecords, Loadable;
    var tables := TablesOfRecords(all);
    LoadableMeaning(tables, {});
    TablesOfRecordsAt(all, 0);
    forall i | 0 <= i < |all|
      ensures tables[i].kind == all[i].kind <= MAX_TYPE
    {
      TablesOfRecordsAt(all, i);
      KindInRange(p, low, extra, tail, all, i);
    }
    assert forall k :: 0 <= k < |extra| ==> all[|low| + k] == extra[k];
    if OnceEach(extra, 12) && OnceEach(extra, 13) {
      forall i, j | 0 <= i < j < |tables| && tables[i].kind == tables[j].kind
        ensures CanRepeat(tables[i].kind)
      {
        RepeatsOnlyExtra(p, low, extra, tail, all, i, j);
        if |low| <= i && j < |low| + |extra| {
          assert extra[i - |low|].kind in EXTRA_KINDS;
          assert extra[j - |low|].kind == extra[i - |low|].kind;
        }
      }
    } else {
      var kind: Byte := if OnceEach(extra, 12) then 13 else 12;
      var i, j :| 0 <= i < j < |extra| && extra[i].kind == kind && extra[j].kind == kind;
      assert tables[|low| + i].kind == tables[|low| + j].kind == kind && !CanRepeat(kind);
    }
  }

  lemma RequiredPresent(p: Profile, low: seq<Record>, extra: seq<Record>, tail: seq<Record>, all: seq<Record>)
    requires Parts(p, low, extra, tail) && EndTable().Ok? && all == low + extra + tail + [EndTable().value]
    requires AllLayable(all) && |p.memory.templates| >= 1
    ensures HasRequired(KindsOf(TablesOfRecords(all)))
  {
    hide Fine, EndTable, Segment, Layable, TablesOfRecords;
    var tables, m, n := TablesOfRecords(all), |low| + |extra|, |p.memory.templates|;
    EndGood(FactsOf(p));
    TablesOfRecordsAt(all, 0);
    var places := [0, 1, 2, 3, 4, m, m + 1, m + 1 + n, m + 3 + n, m + |tail| - 1, m + |tail|];
    forall i | 0 <= i < |REQUIRED_TYPES|
      ensures REQUIRED_TYPES[i] in KindsOf(tables)
    {
      RequiredAt(p, low, extra, tail, all, i, places[i]);
      TablesOfRecordsAt(all, places[i]);
      assert tables[places[i]].kind == REQUIRED_TYPES[i];
    }
  }

  lemma RequiredAt(p: Profile, low: seq<Record>, extra: seq<Record>, tail: seq<Record>, all: seq<Record>, i: nat,
                   place: nat)
    requires Parts(p, low, extra, tail) && EndTable().Ok? && all == low + extra + tail + [EndTable().value]
    requires i < |REQUIRED_TYPES| && |p.memory.templates| >= 1
    requires var m, n := |low| + |extra|, |p.memory.templates|;
      place == [0, 1, 2, 3, 4, m, m + 1, m + 1 + n, m + 3 + n, m + |tail| - 1, m + |tail|][i]
    ensures place < |all| && all[place].kind == REQUIRED_TYPES[i]
  {
    hide Fine, EndTable, Segment;
    EndGood(FactsOf(p));
    assert place < |all|;
    KindWhere(p, low, extra, tail, EndTable().value, place);
  }

  /** The loader's type rules, met by the records of a well-formed profile with one Type 12 and 13 at most. */
  lemma LoadsByType(p: Profile, records: seq<Record>)
    requires WellFormed(p) && ProfileRecords(p) == Ok(records) && AllLayable(records)
    ensures var items, n := p.supplemental, |p.supplemental|;
      Loadable(TablesOfRecords(records), {}) <==> ItemCount(items, n, 12) <= 1 && ItemCount(items, n, 13) <= 1
    ensures HasRequired(KindsOf(TablesOfRecords(records)))
  {
    hide *;
    var low, extra, tail := StreamParts(p);
    ItemCounts(p, extra);
    OnceIsCount(extra, 12);
    OnceIsCount(extra, 13);
    LoadableStream(p, low, extra, tail, records);
    TemplatesExist(p);
    RequiredPresent(p, low, extra, tail, records);
  }

  lemma ItemCounts(p: Profile, extra: seq<Record>)
    requires Collect(SupplementalCalls(p.supplemental, |p.supplemental|)) == Ok(extra)
    ensures RecordCount(extra, 12) == ItemCount(p.supplemental, |p.supplemental|, 12)
    ensures RecordCount(extra, 13) == ItemCount(p.supplemental, |p.supplemental|, 13)
  {
    hide Collect, SupplementalCalls, RecordCount, ItemCount;
    SupplementalCount(p.supplemental, |p.supplemental|, 12);
    SupplementalCount(p.supplemental, |p.supplemental|, 13);
  }

  lemma LoadedByType(data: seq<Byte>, tables: seq<Table>)
    requires Parsed(data) == Some(tables) && HasRequired(KindsOf(tables))
    ensures LoadedFile(data) == if Loadable(tables, {}) then Some(Tally(tables, NOTHING)) else None
  {
    hide LoadFrom, LoadedFile, Loadable, Parsed, Tally, KindsOf, Cut, IterFrom, SkimFrom;
    ReadersAgree(data);
    TallyMeaning(tables, NOTHING);
    assert NOTHING.kinds + KindsOf(tables) == KindsOf(tables);
  }

  /**
   The C loader takes a built stream exactly when the host supplied at most
   one Type 12 and at most one Type 13 structure; it then publishes the number of structures, the
   number of Type 4 structures and the size of the largest one.
   */
  lemma LoaderTakesStream(p: Profile, records: seq<Record>)
    requires BuildOf(p).Ok? && ProfileRecords(p) == Ok(records) && AllLayable(records)
    ensures var items, n := p.supplemental, |p.supplemental|;
      LoadedFile(Serialize(records)).Some? <==> ItemCount(items, n, 12) <= 1 && ItemCount(items, n, 13) <= 1
    ensures LoadedFile(Serialize(records)).Some? ==>
      var loaded := LoadedFile(Serialize(records)).value;
      loaded == Tally(TablesOfRecords(records), NOTHING) && loaded.count == |records|
        && loaded.type4Count == p.cpu.sockets
  {
    hide *;
    BuildsExactly(p);
    var built := BuildSucceeds(p);
    var tables := TablesOfRecords(records);
    LoadsByType(p, records);
    LoadedByType(Serialize(records), tables);
    TallyMeaning(tables, NOTHING);
    CountsFromRules(tables, FactsOf(p));
    CountedRecords(records, p, tables);
  }

  /** Two option structures, which every other reader takes. */
  function TwoOptions(): Profile {
    Smallest().(supplemental := [Copied(12, [0], []), Copied(12, [0], [])])
  }

  lemma TwoOptionsAreWellFormed()
    ensures WellFormed(TwoOptions())
  {
    hide WfMemory, WfFixed, WfCpu, ProfileValid;
    SmallestMemoryFits();
    SmallestParts();
    SameParts(Smallest(), TwoOptions());
  }

  lemma SameParts(p: Profile, q: Profile)
    requires q == p.(supplemental := q.supplemental)
    ensures WfFixed(q) <==> WfFixed(p)
    ensures WfCpu(q) <==> WfCpu(p)
    ensures ProfileValid(q) <==> ProfileValid(p)
  {
    hide AllPrintable, PrintableChars, VoltageOk, Characteristics;
  }

  /** Its stream is built and passes both final validations, and the loader refuses it. */
  lemma TwoOptionsAreRefused()
    ensures WellFormed(TwoOptions()) && BuildOf(TwoOptions()).Ok? && LoadedFile(BuildOf(TwoOptions()).value).None?
  {
    hide WellFormed, BuildOf, LoadedFile, ProfileRecords, Serialize, TablesOk, TablesOfRecords, WellFormedList,
      AllLayable, Parsed, Tally;
    TwoOptionsAreWellFormed();
    var records := BuildSucceeds(TwoOptions());
    LoaderTakesStream(TwoOptions(), records);
    var items := TwoOptions().supplemental;
    assert ItemCount(items, 0, 12) == 0 && ItemCount(items, 1, 12) == 1;
  }

  lemma CountedRecords(records: seq<Record>, p: Profile, tables: seq<Table>)
    requires AllLayable(records) && tables == TablesOfRecords(records)
    ensures |tables| == |records| && NOTHING.count == 0 && NOTHING.type4Count == 0
    ensures FactsOf(p).sockets == p.cpu.sockets
  {
    hide Layable;
    if records != [] {
      TablesOfRecordsAt(records, 0);
    }
  }

  lemma TemplatesExist(p: Profile)
    requires WellFormed(p)
    ensures |p.memory.templates| >= 1
  {
  }

  lemma CountsFromRules(tables: seq<Table>, facts: Facts)
    requires TablesOk(tables, facts)
    ensures KindCount(tables, 4) == facts.sockets && tables != []
  {
    assert KindCount(tables, 0) == 1;
  }

  // ----- the run-time pass and the guest check -----

  /** What `validate_guest_stream` decides for a guest's tables and its CPUID(1).EAX and EDX. */
  function GuestCheck(p: Profile, data: seq<Byte>, version: int, features: int): Result<()> {
    if !Fits32(version) || !Fits32(features) || version == 0 then Err(ValueError)
    else
      var template :- BuildOf(p);
      var expected :- PatchFrom(template, 0, version, features);
      var checked :- ValidateTables(data, FactsOf(p));
      if data != expected then Err(ValueError) else Ok(())
  }

  method ValidateGuestStream(p: Profile, data: seq<Byte>, version: int, features: int) returns (r: Result<()>)
    ensures r == GuestCheck(p, data, version, features)
  {
    hide BuildOf, PatchFrom, TablesOk, Parsed;
    if !Fits32(version) || !Fits32(features) || version == 0 {
      return Err(ValueError);
    }
    var template := BuildSmbiosStream(p);
    if template.Err? {
      return Err(template.error);
    }
    var expected := new Byte[|template.value|](i requires 0 <= i < |template.value| => template.value[i]);
    assert expected[..] == template.value;
    var failure := PatchTemplate(expected, version, features);
    if failure.Some? {
      return Err(failure.value);
    }
    var tables, parsed := ParseTables(data);
    if tables.Err? || !TablesOk(tables.value, FactsOf(p)) {
      return Err(ValueError);
    }
    if data != expected[..] {
      return Err(ValueError);
    }
    return Ok(());
  }

  lemma PatchedTable(r: Record, version: int, features: int)
    requires Fits32(version) && Fits32(features) && Layable(r) && (r.kind == PROCESSOR ==> |r.body| >= 12)
    ensures Layable(PatchRecord(r, version, features))
    ensures SameButId(TableOf(r), TableOf(PatchRecord(r, version, features)))
  {
    hide Formatted, PatchRecord;
    var q := PatchRecord(r, version, features);
    PatchedBody(r, version, features);
    BodyView(r);
    BodyView(q);
    HeadersAgree(r, q);
  }

  lemma HeadersAgree(r: Record, q: Record)
    requires Layable(r) && Layable(q) && r.kind == q.kind && r.handle == q.handle && |r.body| == |q.body|
    ensures forall k :: 0 <= k < HEADER ==> Formatted(r)[k] == Formatted(q)[k]
  {
    assert Formatted(r)[..HEADER] == Formatted(q)[..HEADER];
    assert forall k :: 0 <= k < HEADER ==> Formatted(r)[k] == Formatted(r)[..HEADER][k];
  }

  /** Patching keeps a list well formed: same handles, strings, types and lengths. */
  lemma PatchedList(records: seq<Record>, version: int, features: int)
    requires Fits32(version) && Fits32(features) && WellFormedList(records) && AllLayable(records)
    requires Finalizable(records)
    ensures var q := PatchRecords(records, version, features);
      && WellFormedList(q) && AllLayable(q)
      && |TablesOfRecords(q)| == |TablesOfRecords(records)|
      && forall i :: 0 <= i < |TablesOfRecords(q)| ==> SameButId(TablesOfRecords(records)[i], TablesOfRecords(q)[i])
  {
    hide Layable, PatchRecords, PatchRecord, TablesOfRecords, SameButId, TableOf, RecordAccepted;
    var q := PatchRecords(records, version, features);
    PatchRecordsLayable(records, version, features);
    TablesOfRecordsAt(records, 0);
    TablesOfRecordsAt(q, 0);
    forall i | 0 <= i < |records|
      ensures q[i].kind == records[i].kind && q[i].handle == records[i].handle
      ensures RecordAccepted(q[i], i == |q| - 1)
      ensures SameButId(TablesOfRecords(records)[i], TablesOfRecords(q)[i])
    {
      PatchRecordsAt(records, version, features, i);
      TablesOfRecordsAt(records, i);
      TablesOfRecordsAt(q, i);
      PatchedTable(records[i], version, features);
      PatchedAccepted(records[i], version, features, i == |records| - 1);
    }
  }

  lemma PatchedAccepted(r: Record, version: int, features: int, last: bool)
    requires Fits32(version) && Fits32(features) && RecordAccepted(r, last)
    ensures RecordAccepted(PatchRecord(r, version, features), last)
  {
    PatchedBody(r, version, features);
  }

  /** Every processor of a freshly built stream holds the placeholder, and there is at least one. */
  lemma StreamHasPlaceholders(p: Profile, records: seq<Record>)
    requires WellFormed(p) && ProfileRecords(p) == Ok(records)
    ensures Finalizable(records) && exists i :: 0 <= i < |records| && records[i].kind == PROCESSOR
  {
    hide Fine, EndTable, Segment, ProfileRecords, WellFormed, MemoryRecords, Collect, ZeroId, HasPlaceholder;
    var low, extra, tail := StreamParts(p);
    EndGood(FactsOf(p));
    var end := EndTable().value;
    forall i | 0 <= i < |records| && records[i].kind == PROCESSOR
      ensures HasPlaceholder(records[i])
    {
      KindWhere(p, low, extra, tail, end, i);
      assert records[i] == low[i];
      ZeroIsPlaceholder(low[i]);
    }
    assert records[4] == low[4] && low[4].kind == 4;
  }

  lemma ZeroIsPlaceholder(r: Record)
    requires ZeroId(r)
    ensures HasPlaceholder(r)
  {
    assert forall k :: 0 <= k < 8 ==> r.body[4..12][k] == r.body[k + 4];
    assert r.body[4..12] == PLACEHOLDER;
  }

  /**
   For every nonzero EAX and any EDX, the run-time pass over a built stream
   succeeds and leaves the one byte string the guest check accepts for those registers; it is the
   same list of records but for bytes 8 to 15 of each Type 4; and a second pass is refused.
   */
  lemma FinalStreamIsTheAcceptedOne(p: Profile, records: seq<Record>, version: int, features: int)
    requires BuildOf(p).Ok? && ProfileRecords(p) == Ok(records) && AllLayable(records)
    requires Fits32(version) && Fits32(features) && version != 0
    ensures AllLayable(PatchRecords(records, version, features))
    ensures FinalizeFrom(Serialize(records), 0, version, features)
            == (true, Serialize(PatchRecords(records, version, features)))
    ensures forall data :: GuestCheck(p, data, version, features) == Ok(())
                      <==> data == Serialize(PatchRecords(records, version, features))
    ensures forall v, f :: Fits32(v) && Fits32(f) ==>
      !FinalizeFrom(Serialize(PatchRecords(records, version, features)), 0, v, f).0
  {
    hide Layable, PatchRecords, FinalizeFrom, PatchFrom, TablesOfRecords, TablesOk, Serialize, WellFormedList,
      BuildOf, ProfileRecords, WellFormed, Finalizable, ParseFrom;
    BuildsExactly(p);
    var built := BuildSucceeds(p);
    StreamHasPlaceholders(p, records);
    PatchedList(records, version, features);
    var patched := PatchRecords(records, version, features);
    FinalizeRecords([], records, version, features);
    PlaceholderLengths(records);
    PatchTemplateRecords([], records, version, features);
    assert [] + Serialize(records) == Serialize(records) && [] + Serialize(patched) == Serialize(patched);
    PrintThenParse(patched);
    SameRules(TablesOfRecords(records), TablesOfRecords(patched), FactsOf(p));
    forall v, f | Fits32(v) && Fits32(f)
      ensures !FinalizeFrom(Serialize(patched), 0, v, f).0
    {
      SecondPassRefused(records, version, features, v, f);
    }
  }

  /** The guest check accepts exactly what the run-time pass makes of the built stream. */
  lemma CheckMeans(p: Profile, data: seq<Byte>, version: int, features: int)
    ensures GuestCheck(p, data, version, features) == Ok(())
       <==> 1 <= version <= 0xFFFF_FFFF && 0 <= features <= 0xFFFF_FFFF && BuildOf(p).Ok?
            && FinalizeFrom(BuildOf(p).value, 0, version, features) == (true, data)
  {
    hide Layable, PatchRecords, FinalizeFrom, PatchFrom, TablesOfRecords, TablesOk, Serialize, WellFormedList, BuildOf,
      ProfileRecords, WellFormed, Finalizable, ParseFrom;
    if 1 <= version <= 0xFFFF_FFFF && 0 <= features <= 0xFFFF_FFFF && BuildOf(p).Ok? {
      BuildsExactly(p);
      var records := BuildSucceeds(p);
      FinalStreamIsTheAcceptedOne(p, records, version, features);
    }
  }

  lemma PlaceholderLengths(records: seq<Record>)
    requires Finalizable(records)
    ensures forall i :: 0 <= i < |records| && records[i].kind == PROCESSOR ==> |records[i].body| >= 12
  {
  }

  // ----- conservation over the whole stream -----

  /**
   Read from a built stream, the sizes of all Type 17 structures, the lengths of all Type 19
   and those of all Type 20 each total the memory of the guest, and the one Type 16 structure
   decodes to the platform's array.
   */
  lemma StreamConservesMemory(p: Profile, records: seq<Record>)
    requires BuildOf(p).Ok? && ProfileRecords(p) == Ok(records)
    ensures AllLayable(records)
    ensures DecodedTotal(17, records) == Sum(p.memory.sizes) * MIB
    ensures DecodedTotal(19, records) == Sum(p.memory.sizes) * MIB
    ensures DecodedTotal(20, records) == Sum(p.memory.sizes) * MIB
    ensures exists i ::
      0 <= i < |records| && records[i].kind == 16 && DecodeArray(Formatted(records[i])) == Ok(p.memory.limits)
  {
    hide *;
    BuildsExactly(p);
    var built := BuildSucceeds(p);
    var base := MemoryWindow(p, records);
    var memory := MemoryRecords(p.memory).value;
    MemoryIsConserved(p.memory, memory);
    WindowTotal(17, records, base, memory);
    WindowTotal(19, records, base, memory);
    WindowTotal(20, records, base, memory);
    assert records[base] == records[base..base + |memory|][0] == memory[0];
  }

  /** The memory structures stand together in the stream, and no others are of their types. */
  lemma MemoryWindow(p: Profile, records: seq<Record>) returns (base: nat)
    requires WellFormed(p) && ProfileRecords(p) == Ok(records)
    ensures MemoryRecords(p.memory).Ok?
    ensures var memory := MemoryRecords(p.memory).value;
      && 1 <= |memory| && base + |memory| <= |records| && records[base..base + |memory|] == memory
      && records[base].kind == 16
      && (forall i :: 0 <= i < |records| && !(base <= i < base + |memory|) ==> !IsMemoryKind(records[i].kind))
  {
    hide Fine, EndTable, Segment, ProfileRecords, WellFormed, MemoryRecords, Collect, LowShape;
    var low, extra, tail := StreamParts(p);
    var memory := MemoryRecords(p.memory).value;
    base := |low| + |extra|;
    EndGood(FactsOf(p));
    var end := EndTable().value;
    assert records[base..base + |memory|] == tail[..|memory|];
    forall i | 0 <= i < |records| && !(base <= i < base + |memory|)
      ensures !IsMemoryKind(records[i].kind)
    {
      KindWhere(p, low, extra, tail, end, i);
    }
    KindWhere(p, low, extra, tail, end, base);
  }

  lemma WindowTotal(kind: Byte, records: seq<Record>, base: nat, memory: seq<Record>)
    requires AllLayable(records) && AllLayable(memory) && (kind == 17 || kind == 19 || kind == 20)
    requires base + |memory| <= |records| && records[base..base + |memory|] == memory
    requires forall i :: 0 <= i < |records| && !(base <= i < base + |memory|) ==> !IsMemoryKind(records[i].kind)
    ensures DecodedTotal(kind, records) == DecodedTotal(kind, memory)
  {
    hide Layable, DecodedTotal;
    SplitTotal(kind, records, base, base + |memory|);
  }
}

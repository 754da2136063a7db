/**
 The C loader that QEMU runs on the complete SMBIOS file (`smbios_load_full_file`), and the
 agreement of all four readers on every stream that `parse_tables` accepts.
 */
module Loader {
  import opened Outcomes
  import opened Bytes
  import opened Sequences
  import opened Structures
  import opened Walkers

  const MAX_TYPE := 127
  const REQUIRED_TYPES: seq<Byte> := [0, 1, 2, 3, 4, 16, 17, 19, 20, 32, 127]

  /** `smbios_full_type_can_repeat`. */
  predicate CanRepeat(kind: Byte) {
    kind in {4, 7, 8, 9, 17, 19, 20, 22, 41}
  }

  /** The counters the loader publishes, and the bitmap of types seen. */
  datatype Loaded = Loaded(count: nat, type4Count: nat, maxSize: nat, kinds: set<Byte>)

  const NOTHING := Loaded(0, 0, 0, {})

  function Counted(so: Loaded, kind: Byte, size: nat): Loaded {
    Loaded(so.count + 1, so.type4Count + (if kind == 4 then 1 else 0),
           if so.maxSize < size then size else so.maxSize, so.kinds + {kind})
  }

  /** The loader from an offset on: its counters and the offset after Type 127, or None on error. */
  function LoadFrom(data: seq<Byte>, offset: nat, handles: set<nat>, so: Loaded): Option<(Loaded, nat)>
    requires offset <= |data|
    decreases |data| - offset
  {
    if offset + HEADER > |data| then None
    else match CellAt(data, offset)
      case None => None
      case Some(c) =>
        var kind, handle := data[offset], U16At(data, offset + 2);
        if kind > MAX_TYPE || (kind in so.kinds && !CanRepeat(kind)) || handle in handles then None
        else
          var now := Counted(so, kind, c.end + 2 - offset);
          if kind == END_OF_TABLE then Some((now, c.end + 2))
          else LoadFrom(data, c.end + 2, handles + {handle}, now)
  }

  predicate HasRequired(kinds: set<Byte>) {
    forall i :: 0 <= i < |REQUIRED_TYPES| ==> REQUIRED_TYPES[i] in kinds
  }

  function LoadedFile(data: seq<Byte>): Option<Loaded> {
    match LoadFrom(data, 0, {}, NOTHING)
    case None => None
    case Some((so, end)) => if end == |data| && HasRequired(so.kinds) then Some(so) else None
  }

  lemma LoadStep(data: seq<Byte>, offset: nat, handles: set<nat>, so: Loaded)
    requires offset <= |data|
    ensures offset + HEADER > |data| || CellAt(data, offset).None? ==> LoadFrom(data, offset, handles, so).None?
    ensures offset + HEADER <= |data| && CellAt(data, offset).Some? ==>
      var c := CellAt(data, offset).value;
      var kind, handle, now := data[offset], U16At(data, offset + 2), Counted(so, data[offset], c.end + 2 - offset);
      LoadFrom(data, offset, handles, so)
        == (if kind > MAX_TYPE || (kind in so.kinds && !CanRepeat(kind)) || handle in handles then None
            else if kind == END_OF_TABLE then Some((now, c.end + 2))
            else LoadFrom(data, c.end + 2, handles + {handle}, now))
  {
  }

  method SmbiosLoadFullFile(data: seq<Byte>) returns (r: Option<Loaded>, ghost visited: seq<Cell>)
    ensures r == LoadedFile(data)
    ensures BeginsCut(data, visited) && (r.Some? ==> Cut(data, 0) == Some(visited))
  {
    hide LoadFrom, HasRequired, Cut, Visits, BeginsCut;
    visited := [];
    VisitsNothing(data);
    VisitsBegin(data, visited, 0);
    var seen: set<Byte> := {};
    var handles: seq<nat> := [];
    var offset, structureCount, type4Count := 0, 0, 0;
    var maxStructureSize: nat := 0;
    var sawEnd := false;
    LoadStep(data, 0, {}, NOTHING);
    if |data| < HEADER {
      return None, visited;
    }
    assert Elements(handles) == {};
    while offset < |data|
      invariant offset <= |data| && !sawEnd
      invariant LoadFrom(data, offset, Elements(handles), Loaded(structureCount, type4Count, maxStructureSize, seen))
             == LoadFrom(data, 0, {}, NOTHING)
      invariant Visits(data, visited, offset) && BeginsCut(data, visited)
      decreases |data| - offset
    {
      ghost var before := Elements(handles);
      LoadStep(data, offset, before, Loaded(structureCount, type4Count, maxStructureSize, seen));
      if |data| - offset < HEADER {
        return None, visited;
      }
      var kind, length := data[offset], data[offset + 1];
      if length < HEADER || offset + length > |data| {
        return None, visited;
      }
      if kind > MAX_TYPE {
        return None, visited;
      }
      if kind in seen && !CanRepeat(kind) {
        return None, visited;
      }
      var end := ScanDoubleNul(data, offset + length);
      if end + 1 >= |data| {
        return None, visited;
      }
      VisitsOne(data, visited, offset, Cell(offset, length, end));
      visited := visited + [Cell(offset, length, end)];
      VisitsBegin(data, visited, end + 2);
      var structureSize := end + 2 - offset;
      var handle := U16At(data, offset + 2);
      var i := 0;
      while i < |handles|
        invariant 0 <= i <= |handles|
        invariant handle !in handles[..i]
      {
        if handles[i] == handle {
          assert handles[i] in before;
          return None, visited;
        }
        i := i + 1;
      }
      assert handles[..i] == handles;
      ElementsSnoc(handles, handle);
      handles := handles + [handle];
      seen := seen + {kind};
      if kind == 4 {
        type4Count := type4Count + 1;
      }
      maxStructureSize := if maxStructureSize < structureSize then structureSize else maxStructureSize;
      structureCount := structureCount + 1;
      offset := offset + structureSize;
      if kind == END_OF_TABLE {
        sawEnd := true;
        break;
      }
    }
    if !sawEnd {
      LoadStep(data, offset, Elements(handles), Loaded(structureCount, type4Count, maxStructureSize, seen));
      return None, visited;
    }
    if offset != |data| {
      return None, visited;
    }
    if !HasRequired(seen) {
      return None, visited;
    }
    VisitsAll(data, visited);
    return Some(Loaded(structureCount, type4Count, maxStructureSize, seen)), visited;
  }

  // ----- agreement of the readers -----

  function TableBytes(t: Table): seq<Byte> {
    t.formatted + (Join(t.strings, 0) + [0, 0])
  }

  lemma AreaJoins(area: seq<Byte>)
    ensures Join(Strings(area), 0) == area
  {
    JoinSplit(area, 0);
  }

  lemma ThreeSlices(data: seq<Byte>, a: nat, b: nat, c: nat)
    requires a <= b <= c && c + 2 <= |data| && data[c] == 0 && data[c + 1] == 0
    ensures data[a..b] + (data[b..c] + [0, 0]) == data[a..c + 2]
  {
    assert data[c..c + 2] == [0, 0];
  }

  lemma TableBytesAt(data: seq<Byte>, c: Cell)
    requires CellIn(data, c) && NulPair(data, c.end)
    ensures TableBytes(TableAt(data, c)) == data[c.start..c.end + 2]
  {
    hide Strings, Join;
    AreaJoins(data[c.start + c.length..c.end]);
    ThreeSlices(data, c.start, c.start + c.length, c.end);
  }

  /** No type beyond the loader's range, and none twice that it does not let repeat. */
  predicate Loadable(tables: seq<Table>, seen: set<Byte>) {
    if tables == [] then true
    else
      var kind := tables[0].kind;
      kind <= MAX_TYPE && (kind !in seen || CanRepeat(kind)) && Loadable(tables[1..], seen + {kind})
  }

  function Tally(tables: seq<Table>, so: Loaded): Loaded {
    if tables == [] then so
    else Tally(tables[1..], Counted(so, tables[0].kind, |TableBytes(tables[0])|))
  }

  /** The memory structures `validate_stream` compares, taken from parsed tables. */
  function MemoryParts(tables: seq<Table>): seq<seq<Byte>> {
    if tables == [] then []
    else (if IsMemoryKind(tables[0].kind) then [TableBytes(tables[0])] else []) + MemoryParts(tables[1..])
  }

  lemma ParsedHead(data: seq<Byte>, offset: nat, seen: set<nat>) returns (c: Cell, rest: seq<Table>)
    requires offset <= |data| && ParseFrom(data, offset, seen).Some? && EndsTable(ParseFrom(data, offset, seen).value)
    ensures offset < |data| && CellAt(data, offset) == Some(c) && offset + HEADER <= |data|
    ensures TableAt(data, c).kind == data[offset] && TableAt(data, c).handle == U16At(data, offset + 2)
    ensures U16At(data, offset + 2) !in seen
    ensures ParseFrom(data, c.end + 2, seen + {TableAt(data, c).handle}) == Some(rest)
    ensures ParseFrom(data, offset, seen).value == [TableAt(data, c)] + rest
    ensures data[offset] == END_OF_TABLE <==> c.end + 2 == |data|
    ensures data[offset] == END_OF_TABLE ==> rest == []
    ensures data[offset] != END_OF_TABLE ==> EndsTable(rest)
    ensures TableBytes(TableAt(data, c)) == data[offset..c.end + 2]
    ensures |TableBytes(TableAt(data, c))| == c.end + 2 - offset
  {
    hide TableBytes, TableAt, TableAccepted, CellAt, ParseFrom, U16At;
    NothingParsed(data, offset, seen);
    c, rest := ParsedStep(data, offset, seen);
    HeadFields(data, offset, c);
    TableBytesAt(data, c);
    NothingParsed(data, c.end + 2, seen + {TableAt(data, c).handle});
    EndsAfter(TableAt(data, c), rest, c.end + 2 == |data|);
  }

  /** The loader, on a stream `parse_tables` accepts: it agrees on every cut, or meets a type it refuses. */
  lemma {:induction false} LoadAgrees(data: seq<Byte>, offset: nat, seen: set<nat>, so: Loaded)
    requires offset <= |data| && ParseFrom(data, offset, seen).Some? && EndsTable(ParseFrom(data, offset, seen).value)
    ensures var tables := ParseFrom(data, offset, seen).value;
      LoadFrom(data, offset, seen, so)
      == if Loadable(tables, so.kinds) then Some((Tally(tables, so), |data|)) else None
    decreases |data| - offset
  {
    hide TableBytes, TableAt, ParseFrom;
    var c, rest := ParsedHead(data, offset, seen);
    var kind, tables := data[offset], ParseFrom(data, offset, seen).value;
    assert tables[1..] == rest;
    if kind != END_OF_TABLE {
      LoadAgrees(data, c.end + 2, seen + {TableAt(data, c).handle}, Counted(so, kind, c.end + 2 - offset));
    } else {
      assert Loadable(rest, so.kinds + {kind})
             && Tally(rest, Counted(so, kind, c.end + 2 - offset)).count == so.count + 1;
    }
  }

  /** `validate_stream`, on such a stream, collects the memory structures of the parsed tables. */
  lemma {:induction false} SkimAgrees(data: seq<Byte>, offset: nat, seen: set<nat>)
    requires offset <= |data| && ParseFrom(data, offset, seen).Some? && EndsTable(ParseFrom(data, offset, seen).value)
    ensures SkimFrom(data, offset, seen) == Some(Skim(MemoryParts(ParseFrom(data, offset, seen).value), true))
    decreases |data| - offset
  {
    hide TableBytes, TableAt, ParseFrom;
    var c, rest := ParsedHead(data, offset, seen);
    assert ParseFrom(data, offset, seen).value[1..] == rest;
    if data[offset] != END_OF_TABLE {
      SkimAgrees(data, c.end + 2, seen + {TableAt(data, c).handle});
    } else {
      assert MemoryParts(rest) == [];
      assert SkimFrom(data, |data|, seen + {TableAt(data, c).handle}) == Some(Skim([], false));
    }
  }

  /**
   All four readers agree on every stream `parse_tables` accepts: its tables are those of the
   reference cut, the generator yields them with cleaned strings and returns, `validate_stream` accepts
   exactly the memory structures among them, and the C loader, unless it meets a type out of
   range, a repeated single type or a missing one, counts the same structures.
   */
  lemma ReadersAgree(data: seq<Byte>)
    requires Parsed(data).Some?
    ensures var tables := Parsed(data).value;
      && Cut(data, 0).Some? && |Cut(data, 0).value| == |tables|
      && IterFrom(data, 0) == (ObserveAll(tables), true)
      && SkimFrom(data, 0, {}) == Some(Skim(MemoryParts(tables), true))
      && LoadedFile(data) == if Loadable(tables, {}) && HasRequired(Tally(tables, NOTHING).kinds)
                             then Some(Tally(tables, NOTHING)) else None
    ensures forall i :: 0 <= i < |Cut(data, 0).value| ==>
      CellIn(data, Cut(data, 0).value[i]) && Parsed(data).value[i] == TableAt(data, Cut(data, 0).value[i])
  {
    CutAgrees(data, 0, {});
    IterAgrees(data, 0, {});
    SkimAgrees(data, 0, {});
    LoadAgrees(data, 0, {}, NOTHING);
  }

  function KindsOf(tables: seq<Table>): set<Byte> {
    set i | 0 <= i < |tables| :: tables[i].kind
  }

  /** What the loader publishes: the number of tables and of Type 4 tables, the types, and the largest size. */
  lemma {:induction false} TallyMeaning(tables: seq<Table>, so: Loaded)
    ensures var all := Tally(tables, so);
      && all.count == so.count + |tables|
      && all.type4Count == so.type4Count + KindCount(tables, 4)
      && all.kinds == so.kinds + KindsOf(tables)
      && so.maxSize <= all.maxSize
      && (forall i :: 0 <= i < |tables| ==> |TableBytes(tables[i])| <= all.maxSize)
      && (all.maxSize == so.maxSize || exists i :: 0 <= i < |tables| && all.maxSize == |TableBytes(tables[i])|)
    decreases |tables|
  {
    hide TableBytes;
    if tables != [] {
      var now, rest := Counted(so, tables[0].kind, |TableBytes(tables[0])|), tables[1..];
      TallyMeaning(rest, now);
      var all := Tally(tables, so);
      assert forall i :: 0 <= i < |rest| ==> rest[i] == tables[i + 1];
      assert KindsOf(tables) == {tables[0].kind} + KindsOf(rest) by {
        forall kind | kind in KindsOf(tables)
          ensures kind in {tables[0].kind} + KindsOf(rest)
        {
          var i :| 0 <= i < |tables| && tables[i].kind == kind;
          assert i > 0 ==> rest[i - 1].kind == kind;
        }
      }
      forall i | 0 <= i < |tables|
        ensures |TableBytes(tables[i])| <= all.maxSize
      {
        if i > 0 {
          assert rest[i - 1] == tables[i];
        }
      }
      if all.maxSize != so.maxSize && all.maxSize != now.maxSize {
        var i :| 0 <= i < |rest| && all.maxSize == |TableBytes(rest[i])|;
        assert all.maxSize == |TableBytes(tables[i + 1])|;
      }
    }
  }

  /** `Loadable`, said of the whole list: types in range, and only repeatable ones occur twice. */
  lemma {:induction false} LoadableMeaning(tables: seq<Table>, seen: set<Byte>)
    ensures Loadable(tables, seen) <==>
      && (forall i :: 0 <= i < |tables| ==> tables[i].kind <= MAX_TYPE)
      && (forall i :: 0 <= i < |tables| && tables[i].kind in seen ==> CanRepeat(tables[i].kind))
      && (forall i, j :: 0 <= i < j < |tables| && tables[i].kind == tables[j].kind ==> CanRepeat(tables[i].kind))
    decreases |tables|
  {
    if tables != [] {
      var kind, rest := tables[0].kind, tables[1..];
      LoadableMeaning(rest, seen + {kind});
      assert forall i :: 0 <= i < |rest| ==> rest[i] == tables[i + 1];
      assert forall i :: 1 <= i < |tables| ==> tables[i] == rest[i - 1];
    }
  }

  predicate AnyKind(tables: seq<Table>, kind: int) {
    exists i :: 0 <= i < |tables| && tables[i].kind as int == kind
  }

  lemma KindsHold(tables: seq<Table>, kind: Byte)
    ensures kind in KindsOf(tables) <==> AnyKind(tables, kind as int)
  {
  }

  /** The types that every file must hold. */
  predicate HoldsAll(tables: seq<Table>) {
    && AnyKind(tables, 0) && AnyKind(tables, 1) && AnyKind(tables, 2) && AnyKind(tables, 3) && AnyKind(tables, 4)
    && AnyKind(tables, 16) && AnyKind(tables, 17) && AnyKind(tables, 19) && AnyKind(tables, 20)
    && AnyKind(tables, 32) && AnyKind(tables, 127)
  }

  lemma RequiredMeans(tables: seq<Table>, kinds: set<Byte>)
    requires forall kind: Byte :: kind in kinds <==> AnyKind(tables, kind as int)
    ensures HasRequired(kinds) <==> HoldsAll(tables)
  {
    hide AnyKind;
    if HasRequired(kinds) {
      assert REQUIRED_TYPES[0] in kinds && REQUIRED_TYPES[1] in kinds && REQUIRED_TYPES[2] in kinds
             && REQUIRED_TYPES[3] in kinds && REQUIRED_TYPES[4] in kinds && REQUIRED_TYPES[5] in kinds
             && REQUIRED_TYPES[6] in kinds && REQUIRED_TYPES[7] in kinds && REQUIRED_TYPES[8] in kinds
             && REQUIRED_TYPES[9] in kinds && REQUIRED_TYPES[10] in kinds;
    }
  }

  /** A parsed stream is loaded exactly when it holds the required types, none above 127, and only some types twice. */
  lemma LoadsExactly(data: seq<Byte>, tables: seq<Table>)
    requires Parsed(data) == Some(tables)
    ensures LoadedFile(data).Some?
       <==> HoldsAll(tables) && (forall i :: 0 <= i < |tables| ==> tables[i].kind <= 127)
            && forall i, j :: 0 <= i < j < |tables| && tables[i].kind == tables[j].kind ==>
                 tables[i].kind as int in {4, 7, 8, 9, 17, 19, 20, 22, 41}
    ensures LoadedFile(data).Some? ==>
      var so := LoadedFile(data).value;
      && so.count == |tables| && so.type4Count == KindCount(tables, 4)
      && (forall i :: 0 <= i < |tables| ==> |TableBytes(tables[i])| <= so.maxSize)
      && exists i :: 0 <= i < |tables| && so.maxSize == |TableBytes(tables[i])|
  {
    hide Parsed, TableBytes, Loadable, HasRequired, HoldsAll, AnyKind, KindsOf, Cut, IterFrom, SkimFrom;
    ReadersAgree(data);
    LoadableMeaning(tables, {});
    TallyMeaning(tables, NOTHING);
    var kinds := Tally(tables, NOTHING).kinds;
    forall kind: Byte
      ensures kind in kinds <==> AnyKind(tables, kind as int)
    {
      KindsHold(tables, kind);
    }
    RequiredMeans(tables, kinds);
    SomeTable(tables);
    if LoadedFile(data).Some? {
      assert |TableBytes(tables[0])| <= LoadedFile(data).value.maxSize;
    }
  }

  lemma SomeTable(tables: seq<Table>)
    ensures HoldsAll(tables) ==> tables != []
  {
  }
}

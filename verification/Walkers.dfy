/**
 The four separately written readers of an SMBIOS structure stream: `parse_tables`,
 `validate_stream` and `iter_smbios_structures` in Python, and the C loader that QEMU runs.
 Each is a loop of its own; all are tied to the one reference reading `Cut`.
 */
module Walkers {
  import opened Outcomes
  import opened Bytes
  import opened Structures
  import opened HostText

  // ----- the cells a walk visits -----

  /** The walk has visited the first cells of the cut, and stands at the offset after them. */
  ghost predicate Visits(data: seq<Byte>, visited: seq<Cell>, offset: nat) {
    && offset <= |data| && Cut(data, 0) == Prepend(visited, Cut(data, offset))
    && BeginsCut(data, visited)
  }

  /** Where the stream can be cut at all, the cells are the first ones of the cut. */
  predicate BeginsCut(data: seq<Byte>, visited: seq<Cell>) {
    Cut(data, 0).Some? ==> visited <= Cut(data, 0).value
  }

  lemma VisitsNothing(data: seq<Byte>)
    ensures Visits(data, [], 0)
  {
    PrependNothing(Cut(data, 0));
  }

  lemma VisitsBegin(data: seq<Byte>, visited: seq<Cell>, offset: nat)
    requires Visits(data, visited, offset)
    ensures BeginsCut(data, visited)
  {
  }

  lemma VisitsOne(data: seq<Byte>, visited: seq<Cell>, offset: nat, c: Cell)
    requires Visits(data, visited, offset) && offset < |data| && CellAt(data, offset) == Some(c)
    ensures Visits(data, visited + [c], c.end + 2)
  {
    hide CellAt;
    PrependTwice(visited, [c], Cut(data, c.end + 2));
  }

  lemma VisitsAll(data: seq<Byte>, visited: seq<Cell>)
    requires Visits(data, visited, |data|)
    ensures Cut(data, 0) == Some(visited)
  {
    PrependToNothing(visited);
  }

  // ----- parse_tables -----

  predicate PrintableString(s: seq<Byte>) {
    s != [] && forall k :: 0 <= k < |s| ==> 32 <= s[k] <= 126
  }

  predicate PrintableStrings(strings: seq<seq<Byte>>) {
    forall i :: 0 <= i < |strings| ==> PrintableString(strings[i])
  }

  /** What `parse_tables` demands of one table, given whether its end is the end of the data. */
  predicate TableAccepted(t: Table, last: bool) {
    && t.handle < 0xFF00
    && PrintableStrings(t.strings)
    && (t.kind == END_OF_TABLE ==>
          last && |t.formatted| == HEADER && t.handle == END_OF_TABLE_HANDLE && t.strings == [])
  }

  /** The tables from an offset on, given the handles already seen; None where `parse_tables` raises. */
  function ParseFrom(data: seq<Byte>, offset: nat, seen: set<nat>): Option<seq<Table>>
    requires offset <= |data|
    decreases |data| - offset
  {
    if offset == |data| then Some([])
    else match CellAt(data, offset)
      case None => None
      case Some(c) =>
        var t := TableAt(data, c);
        if t.handle in seen || !TableAccepted(t, c.end + 2 == |data|) then None
        else Prepend([t], ParseFrom(data, c.end + 2, seen + {t.handle}))
  }

  function KindCount(tables: seq<Table>, kind: Byte): nat {
    if tables == [] then 0 else (if tables[0].kind == kind then 1 else 0) + KindCount(tables[1..], kind)
  }

  predicate EndsTable(tables: seq<Table>) {
    tables != [] && tables[|tables| - 1].kind == END_OF_TABLE
  }

  /** The tables `parse_tables` returns, or None where it raises. */
  function Parsed(data: seq<Byte>): Option<seq<Table>> {
    var tables := ParseFrom(data, 0, {});
    if tables.Some? && EndsTable(tables.value) then tables else None
  }

  lemma ParseStep(data: seq<Byte>, offset: nat, seen: set<nat>, done: seq<Table>)
    requires offset < |data|
    ensures CellAt(data, offset).None? ==> ParseFrom(data, offset, seen).None?
    ensures CellAt(data, offset).Some? ==>
      var c := CellAt(data, offset).value;
      var t := TableAt(data, c);
      if t.handle in seen || !TableAccepted(t, c.end + 2 == |data|) then ParseFrom(data, offset, seen).None?
      else Prepend(done, ParseFrom(data, offset, seen))
           == Prepend(done + [t], ParseFrom(data, c.end + 2, seen + {t.handle}))
  {
    hide CellAt, TableAt, TableAccepted, Prepend;
    if CellAt(data, offset).Some? {
      var c := CellAt(data, offset).value;
      var t := TableAt(data, c);
      PrependTwice(done, [t], ParseFrom(data, c.end + 2, seen + {t.handle}));
    }
  }

  method ParseTables(data: seq<Byte>) returns (r: Result<seq<Table>>, ghost visited: seq<Cell>)
    ensures Parsed(data).Some? ==> r == Ok(Parsed(data).value)
    ensures Parsed(data).None? ==> r == Err(ValueError)
    ensures BeginsCut(data, visited) && (r.Ok? ==> Cut(data, 0) == Some(visited))
  {
    hide ParseFrom, Strings, PrintableStrings, Cut, Visits, BeginsCut, U16At;
    visited := [];
    VisitsNothing(data);
    VisitsBegin(data, visited, 0);
    var tables: seq<Table> := [];
    var handles: set<nat> := {};
    var offset := 0;
    PrependNothing(ParseFrom(data, 0, {}));
    while offset < |data|
      invariant offset <= |data|
      invariant Prepend(tables, ParseFrom(data, offset, handles)) == ParseFrom(data, 0, {})
      invariant Visits(data, visited, offset) && BeginsCut(data, visited)
      decreases |data| - offset
    {
      ParseStep(data, offset, handles, tables);
      if offset + HEADER > |data| {
        return Err(ValueError), visited;
      }
      var kind, length, handle := data[offset], data[offset + 1], U16At(data, offset + 2);
      if length < HEADER || offset + length > |data| || handle in handles || handle >= 0xFF00 {
        return Err(ValueError), visited;
      }
      var found := FindDoubleNul(data, offset + length);
      if found.None? {
        return Err(ValueError), visited;
      }
      var end := found.value;
      VisitsOne(data, visited, offset, Cell(offset, length, end));
      visited := visited + [Cell(offset, length, end)];
      VisitsBegin(data, visited, end + 2);
      var strings := Strings(data[offset + length..end]);
      if !PrintableStrings(strings) {
        return Err(ValueError), visited;
      }
      handles := handles + {handle};
      tables := tables + [Table(kind, handle, data[offset..offset + length], strings)];
      offset := end + 2;
      if kind == END_OF_TABLE
         && (length != HEADER || handle != END_OF_TABLE_HANDLE || strings != [] || offset != |data|) {
        return Err(ValueError), visited;
      }
    }
    ParseEnd(data, handles, tables);
    VisitsAll(data, visited);
    if tables == [] || tables[|tables| - 1].kind != END_OF_TABLE {
      return Err(ValueError), visited;
    }
    return Ok(tables), visited;
  }

  lemma ParseEnd(data: seq<Byte>, seen: set<nat>, done: seq<Table>)
    ensures Prepend(done, ParseFrom(data, |data|, seen)) == Some(done)
  {
    PrependToNothing(done);
  }

  // ----- validate_stream -----

  /** What `validate_stream` collects: the memory structures in order, and whether Type 127 was met. */
  datatype Skim = Skim(parts: seq<seq<Byte>>, terminated: bool)

  predicate IsMemoryKind(kind: Byte) {
    kind == 16 || kind == 17 || kind == 19 || kind == 20
  }

  function Merge(first: Skim, rest: Option<Skim>): Option<Skim> {
    if rest.None? then None
    else Some(Skim(first.parts + rest.value.parts, first.terminated || rest.value.terminated))
  }

  function SkimCell(data: seq<Byte>, c: Cell): Skim
    requires CellIn(data, c)
  {
    var kind := data[c.start];
    Skim(if IsMemoryKind(kind) then [data[c.start..c.end + 2]] else [], kind == END_OF_TABLE)
  }

  function SkimFrom(data: seq<Byte>, offset: nat, seen: set<nat>): Option<Skim>
    requires offset <= |data|
    decreases |data| - offset
  {
    if offset == |data| then Some(Skim([], false))
    else match CellAt(data, offset)
      case None => None
      case Some(c) =>
        var handle := U16At(data, offset + 2);
        if handle in seen || (data[offset] == END_OF_TABLE && c.end + 2 != |data|) then None
        else Merge(SkimCell(data, c), SkimFrom(data, c.end + 2, seen + {handle}))
  }

  lemma SkimStep(data: seq<Byte>, offset: nat, seen: set<nat>, done: Skim)
    requires offset < |data|
    ensures CellAt(data, offset).None? ==> SkimFrom(data, offset, seen).None?
    ensures CellAt(data, offset).Some? ==>
      var c, handle := CellAt(data, offset).value, U16At(data, offset + 2);
      if handle in seen || (data[offset] == END_OF_TABLE && c.end + 2 != |data|) then SkimFrom(data, offset, seen).None?
      else
        var parts := if IsMemoryKind(data[offset]) then done.parts + [data[offset..c.end + 2]] else done.parts;
        var now := Skim(parts, done.terminated || data[offset] == END_OF_TABLE);
        Merge(done, SkimFrom(data, offset, seen)) == Merge(now, SkimFrom(data, c.end + 2, seen + {handle}))
  {
    hide CellAt, U16At, IsMemoryKind;
    assert done.parts + [] == done.parts;
    if CellAt(data, offset).Some? {
      var c, handle := CellAt(data, offset).value, U16At(data, offset + 2);
      var rest := SkimFrom(data, c.end + 2, seen + {handle});
      if rest.Some? {
        assert done.parts + (SkimCell(data, c).parts + rest.value.parts)
            == done.parts + SkimCell(data, c).parts + rest.value.parts;
      }
    }
  }

  /** `validate_stream` against the memory tables its caller expects: no exception is Ok. */
  method ValidateStream(data: seq<Byte>, expected: seq<seq<Byte>>) returns (r: Result<()>, ghost visited: seq<Cell>)
    ensures r == if SkimFrom(data, 0, {}) == Some(Skim(expected, true)) then Ok(()) else Err(ValueError)
    ensures BeginsCut(data, visited) && (r.Ok? ==> Cut(data, 0) == Some(visited))
  {
    hide SkimFrom, Cut, Visits, BeginsCut, IsMemoryKind, U16At, SkimCell;
    visited := [];
    VisitsNothing(data);
    VisitsBegin(data, visited, 0);
    var actual: seq<seq<Byte>> := [];
    var handles: set<nat> := {};
    var offset := 0;
    var terminated := false;
    MergeEnds(data, {}, Skim([], false));
    while offset < |data|
      invariant offset <= |data|
      invariant Merge(Skim(actual, terminated), SkimFrom(data, offset, handles)) == SkimFrom(data, 0, {})
      invariant Visits(data, visited, offset) && BeginsCut(data, visited)
      decreases |data| - offset
    {
      SkimStep(data, offset, handles, Skim(actual, terminated));
      if offset + HEADER > |data| {
        return Err(ValueError), visited;
      }
      var kind, length, handle := data[offset], data[offset + 1], U16At(data, offset + 2);
      if length < HEADER || offset + length > |data| || handle in handles {
        return Err(ValueError), visited;
      }
      handles := handles + {handle};
      var found := FindDoubleNul(data, offset + length);
      if found.None? {
        return Err(ValueError), visited;
      }
      var end := found.value + 2;
      VisitsOne(data, visited, offset, Cell(offset, length, found.value));
      visited := visited + [Cell(offset, length, found.value)];
      VisitsBegin(data, visited, end);
      if IsMemoryKind(kind) {
        actual := actual + [data[offset..end]];
      }
      if kind == END_OF_TABLE {
        if end != |data| {
          return Err(ValueError), visited;
        }
        terminated := true;
      }
      offset := end;
    }
    MergeEnds(data, handles, Skim(actual, terminated));
    VisitsAll(data, visited);
    if !terminated || actual != expected {
      return Err(ValueError), visited;
    }
    return Ok(()), visited;
  }

  lemma MergeEnds(data: seq<Byte>, seen: set<nat>, done: Skim)
    ensures Merge(done, SkimFrom(data, |data|, seen)) == Some(done)
    ensures Merge(Skim([], false), SkimFrom(data, 0, seen)) == SkimFrom(data, 0, seen)
  {
    assert done.parts + [] == done.parts;
    var all := SkimFrom(data, 0, seen);
    if all.Some? {
      assert [] + all.value.parts == all.value.parts;
    }
  }

  // ----- iter_smbios_structures -----

  /** One yield of the generator: no handle, and the strings cleaned. */
  datatype Observed = Observed(kind: Byte, formatted: seq<Byte>, strings: seq<string>)

  function Observe(t: Table): Observed {
    Observed(t.kind, t.formatted, CleanedAll(t.strings))
  }

  function ObserveAll(tables: seq<Table>): (r: seq<Observed>)
    ensures |r| == |tables| && forall i :: 0 <= i < |tables| ==> r[i] == Observe(tables[i])
  {
    seq(|tables|, i requires 0 <= i < |tables| => Observe(tables[i]))
  }

  /** What the generator yields from an offset on, and whether it returns instead of raising. */
  function IterFrom(data: seq<Byte>, offset: nat): (seq<Observed>, bool)
    requires offset <= |data|
    decreases |data| - offset
  {
    if offset + HEADER > |data| then ([], false)
    else match CellAt(data, offset)
      case None => ([], false)
      case Some(c) =>
        var t := TableAt(data, c);
        if t.kind == END_OF_TABLE then ([Observe(t)], true)
        else var rest := IterFrom(data, c.end + 2); ([Observe(t)] + rest.0, rest.1)
  }

  /** The scan for the double NUL, one byte at a time, that the generator and both C loops use. */
  method ScanDoubleNul(data: seq<Byte>, from: nat) returns (end: nat)
    requires from <= |data|
    ensures end + 1 < |data| <==> FindDoubleNul(data, from).Some?
    ensures end + 1 < |data| ==> FindDoubleNul(data, from) == Some(end)
  {
    end := from;
    while end + 1 < |data| && !(data[end] == 0 && data[end + 1] == 0)
      invariant from <= end <= |data|
      invariant FindDoubleNul(data, end) == FindDoubleNul(data, from)
    {
      end := end + 1;
    }
  }

  lemma IterStep(data: seq<Byte>, offset: nat, done: seq<Observed>)
    requires offset <= |data|
    ensures offset + HEADER > |data| || CellAt(data, offset).None? ==> IterFrom(data, offset) == ([], false)
    ensures offset + HEADER <= |data| && CellAt(data, offset).Some? ==>
      var c := CellAt(data, offset).value;
      var t := TableAt(data, c);
      (t.kind == END_OF_TABLE ==> IterFrom(data, offset) == ([Observe(t)], true))
      && (t.kind != END_OF_TABLE ==>
            IterFrom(data, offset) == ([Observe(t)] + IterFrom(data, c.end + 2).0, IterFrom(data, c.end + 2).1)
            && done + IterFrom(data, offset).0 == done + [Observe(t)] + IterFrom(data, c.end + 2).0)
  {
    hide Observe;
  }

  method IterSmbiosStructures(data: seq<Byte>)
    returns (yielded: seq<Observed>, returned: bool, ghost visited: seq<Cell>)
    ensures (yielded, returned) == IterFrom(data, 0)
    ensures BeginsCut(data, visited) && |visited| == |yielded|
    ensures Parsed(data).Some? ==> Cut(data, 0) == Some(visited)
  {
    hide IterFrom, Strings, CleanedAll, Cut, Visits, BeginsCut, Parsed;
    visited := [];
    VisitsNothing(data);
    VisitsBegin(data, visited, 0);
    IterCount(data);
    yielded := [];
    var offset := 0;
    while offset + HEADER <= |data|
      invariant offset <= |data|
      invariant yielded + IterFrom(data, offset).0 == IterFrom(data, 0).0
      invariant IterFrom(data, offset).1 == IterFrom(data, 0).1
      invariant Visits(data, visited, offset) && BeginsCut(data, visited) && |visited| == |yielded|
      decreases |data| - offset
    {
      IterStep(data, offset, yielded);
      assert yielded + [] == yielded;
      var kind, length := data[offset], data[offset + 1];
      if length < HEADER || offset + length > |data| {
        return yielded, false, visited;
      }
      var end := ScanDoubleNul(data, offset + length);
      if end + 1 >= |data| {
        return yielded, false, visited;
      }
      VisitsOne(data, visited, offset, Cell(offset, length, end));
      visited := visited + [Cell(offset, length, end)];
      VisitsBegin(data, visited, end + 2);
      var strings := Strings(data[offset + length..end]);
      yielded := yielded + [Observed(kind, data[offset..offset + length], CleanedAll(strings))];
      offset := end + 2;
      if kind == END_OF_TABLE {
        WholeCut(data, visited);
        return yielded, true, visited;
      }
    }
    IterStep(data, offset, yielded);
    assert yielded + [] == yielded;
    return yielded, false, visited;
  }

  // ----- agreement -----

  /** A reading that goes on: its first table, and the reading of the rest. */
  lemma ParsedStep(data: seq<Byte>, offset: nat, seen: set<nat>) returns (c: Cell, rest: seq<Table>)
    requires offset < |data| && ParseFrom(data, offset, seen).Some?
    ensures CellAt(data, offset) == Some(c)
    ensures TableAt(data, c).handle !in seen && TableAccepted(TableAt(data, c), c.end + 2 == |data|)
    ensures ParseFrom(data, c.end + 2, seen + {TableAt(data, c).handle}) == Some(rest)
    ensures ParseFrom(data, offset, seen) == Some([TableAt(data, c)] + rest)
  {
    hide CellAt, TableAt, TableAccepted;
    c := CellAt(data, offset).value;
    rest := ParseFrom(data, c.end + 2, seen + {TableAt(data, c).handle}).value;
  }

  /** Nothing is read exactly at the end. */
  lemma NothingParsed(data: seq<Byte>, offset: nat, seen: set<nat>)
    requires offset <= |data| && ParseFrom(data, offset, seen).Some?
    ensures ParseFrom(data, offset, seen) == Some([]) <==> offset == |data|
  {
    hide TableAt, TableAccepted;
    if offset < |data| {
      var c, rest := ParsedStep(data, offset, seen);
    }
  }

  lemma HeadFields(data: seq<Byte>, offset: nat, c: Cell)
    requires offset <= |data| && CellAt(data, offset) == Some(c)
    ensures offset + HEADER <= |data| && c.start == offset && NulPair(data, c.end)
    ensures TableAt(data, c).kind == data[offset] && TableAt(data, c).handle == U16At(data, offset + 2)
  {
  }

  lemma EndsAfter(first: Table, rest: seq<Table>, last: bool)
    requires EndsTable([first] + rest) && TableAccepted(first, last) && (rest == [] <==> last)
    ensures first.kind == END_OF_TABLE <==> last
    ensures first.kind != END_OF_TABLE ==> EndsTable(rest)
  {
  }

  lemma ObserveCons(t: Table, rest: seq<Table>)
    ensures ObserveAll([t] + rest) == [Observe(t)] + ObserveAll(rest) && Observe(t).kind == t.kind
    ensures ObserveAll([]) == []
  {
  }

  /**
   On a stream that `parse_tables` accepts, the generator yields the same tables with cleaned strings, and
   returns.
   */
  lemma {:induction false} IterAgrees(data: seq<Byte>, offset: nat, seen: set<nat>)
    requires offset <= |data| && ParseFrom(data, offset, seen).Some? && EndsTable(ParseFrom(data, offset, seen).value)
    ensures IterFrom(data, offset) == (ObserveAll(ParseFrom(data, offset, seen).value), true)
    decreases |data| - offset
  {
    hide TableAt, TableAccepted, CellAt, ParseFrom, IterFrom, Observe, U16At;
    NothingParsed(data, offset, seen);
    var c, rest := ParsedStep(data, offset, seen);
    var t := TableAt(data, c);
    HeadFields(data, offset, c);
    NothingParsed(data, c.end + 2, seen + {t.handle});
    EndsAfter(t, rest, c.end + 2 == |data|);
    IterStep(data, offset, []);
    ObserveCons(t, rest);
    if t.kind != END_OF_TABLE {
      IterAgrees(data, c.end + 2, seen + {t.handle});
    } else {
      assert [Observe(t)] + [] == [Observe(t)];
    }
  }

  /** The cells cut by `parse_tables` and the loader, and by the reference reading, are the same. */
  lemma {:induction false} CutAgrees(data: seq<Byte>, offset: nat, seen: set<nat>)
    requires offset <= |data| && ParseFrom(data, offset, seen).Some?
    ensures Cut(data, offset).Some?
    ensures var cells, tables := Cut(data, offset).value, ParseFrom(data, offset, seen).value;
      |cells| == |tables| && forall i ::
           0 <= i < |cells| ==> CellIn(data, cells[i]) && tables[i] == TableAt(data, cells[i])
    decreases |data| - offset
  {
    hide TableAt;
    if offset < |data| {
      var c := CellAt(data, offset).value;
      var t := TableAt(data, c);
      CutAgrees(data, c.end + 2, seen + {t.handle});
      var tail, rest := Cut(data, c.end + 2).value, ParseFrom(data, c.end + 2, seen + {t.handle}).value;
      assert Cut(data, offset).value == [c] + tail && ParseFrom(data, offset, seen).value == [t] + rest;
    }
  }

  /** On an accepted stream the generator yields once for each cell. */
  lemma IterCount(data: seq<Byte>)
    ensures Parsed(data).Some?
            ==> Cut(data, 0).Some? && |IterFrom(data, 0).0| == |Cut(data, 0).value| && IterFrom(data, 0).1
  {
    hide Cut, IterFrom, ParseFrom;
    if Parsed(data).Some? {
      var tables := ParseFrom(data, 0, {}).value;
      CutAgrees(data, 0, {});
      IterAgrees(data, 0, {});
      assert |ObserveAll(tables)| == |tables|;
      assert IterFrom(data, 0).0 == ObserveAll(tables);
    }
  }

  lemma WholeCut(data: seq<Byte>, visited: seq<Cell>)
    requires BeginsCut(data, visited)
    ensures Cut(data, 0).Some? && |visited| == |Cut(data, 0).value| ==> Cut(data, 0) == Some(visited)
  {
    hide Cut;
    if Cut(data, 0).Some? && |visited| == |Cut(data, 0).value| {
      var cells := Cut(data, 0).value;
      assert visited <= cells;
      assert visited == cells;
    }
  }
}

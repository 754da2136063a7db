/**
 `parse_tables` and the printers undo each other, in both directions: every well-formed list
 of records is recovered from its bytes, and whatever is parsed serialises to the same bytes.
 */
module RoundTrip {
  import opened Outcomes
  import opened Bytes
  import opened Structures
  import opened Walkers

  /** A record that may stand in a stream; only the last may be Type 127, in its one form. */
  predicate RecordAccepted(r: Record, last: bool) {
    && Layable(r)
    && r.handle < 0xFF00
    && PrintableStrings(r.strings)
    && (r.kind == END_OF_TABLE ==> last && r.body == [] && r.handle == END_OF_TABLE_HANDLE && r.strings == [])
  }

  predicate HandlesDiffer(records: seq<Record>) {
    forall i, j :: 0 <= i < j < |records| ==> records[i].handle != records[j].handle
  }

  /** Distinct handles below 0xFF00, printable nonempty strings, and a single final Type 127. */
  predicate WellFormedList(records: seq<Record>) {
    && records != [] && records[|records| - 1].kind == END_OF_TABLE
    && HandlesDiffer(records)
    && forall i :: 0 <= i < |records| ==> RecordAccepted(records[i], i == |records| - 1)
  }

  function TablesOfRecords(records: seq<Record>): seq<Table>
    requires AllLayable(records)
  {
    if records == [] then [] else [TableOf(records[0])] + TablesOfRecords(records[1..])
  }

  lemma LaidIsPrintableSplit(data: seq<Byte>, offset: nat, r: Record, rest: seq<Record>, seen: set<nat>)
    requires offset <= |data| && Layable(r) && AllLayable(rest) && r.handle !in seen
    requires data[offset..] == Lay(r) + Serialize(rest)
    requires RecordAccepted(r, rest == [])
    ensures var c := CellOf(r, offset);
      c.end + 2 <= |data| && data[c.end + 2..] == Serialize(rest)
      && ParseFrom(data, offset, seen) == Prepend([TableOf(r)], ParseFrom(data, c.end + 2, seen + {r.handle}))
  {
    hide *;
    SuffixSplits(data, offset, Lay(r), Serialize(rest));
    LaidIsFound(data, offset, r);
    var c := CellOf(r, offset);
    assert (c.end + 2 == |data|) == (rest == []) by {
      SerializeEmpty(rest);
      assert |data[c.end + 2..]| == |data| - (c.end + 2);
    }
    AcceptedReads(r, c.end + 2 == |data|);
    UnfoldParse(data, offset, seen, c);
  }

  lemma SerializeEmpty(rest: seq<Record>)
    requires AllLayable(rest)
    ensures Serialize(rest) == [] <==> rest == []
  {
  }

  lemma AcceptedReads(r: Record, last: bool)
    requires RecordAccepted(r, last)
    ensures TableAccepted(TableOf(r), last) && TableOf(r).handle == r.handle
  {
  }

  lemma UnfoldParse(data: seq<Byte>, offset: nat, seen: set<nat>, c: Cell)
    requires offset < |data| && CellAt(data, offset) == Some(c)
    requires TableAt(data, c).handle !in seen && TableAccepted(TableAt(data, c), c.end + 2 == |data|)
    ensures ParseFrom(data, offset, seen)
            == Prepend([TableAt(data, c)], ParseFrom(data, c.end + 2, seen + {TableAt(data, c).handle}))
  {
  }

  lemma {:induction false} PrintedIsParsed(data: seq<Byte>, offset: nat, records: seq<Record>, seen: set<nat>)
    requires offset <= |data| && AllLayable(records) && data[offset..] == Serialize(records)
    requires HandlesDiffer(records) && (forall i :: 0 <= i < |records| ==> records[i].handle !in seen)
    requires forall i :: 0 <= i < |records| ==> RecordAccepted(records[i], i == |records| - 1)
    ensures ParseFrom(data, offset, seen) == Some(TablesOfRecords(records))
    decreases |records|
  {
    hide Layable, RecordAccepted, Lay, CellOf, TableOf, CellAt, TableAt;
    if records == [] {
      assert |data[offset..]| == 0;
    } else {
      var r, rest := records[0], records[1..];
      LaidIsPrintableSplit(data, offset, r, rest, seen);
      assert forall i :: 0 <= i < |rest| ==> rest[i] == records[i + 1];
      PrintedIsParsed(data, CellOf(r, offset).end + 2, rest, seen + {r.handle});
    }
  }

  /** Printing then parsing: `parse_tables` recovers every well-formed list of records exactly. */
  lemma PrintThenParse(records: seq<Record>)
    requires WellFormedList(records)
    ensures AllLayable(records) && Parsed(Serialize(records)) == Some(TablesOfRecords(records))
  {
    assert forall i :: 0 <= i < |records| ==> RecordAccepted(records[i], i == |records| - 1);
    assert Serialize(records)[0..] == Serialize(records);
    PrintedIsParsed(Serialize(records), 0, records, {});
    TablesOfRecordsAt(records, |records| - 1);
  }

  lemma {:induction false} TablesOfRecordsAt(records: seq<Record>, i: nat)
    requires AllLayable(records) && i < |records|
    ensures |TablesOfRecords(records)| == |records| && TablesOfRecords(records)[i] == TableOf(records[i])
    decreases |records|
  {
    if |records| > 1 {
      TablesOfRecordsAt(records[1..], if i > 0 then i - 1 else 0);
    } else {
      assert TablesOfRecords(records[1..]) == [];
    }
  }

  lemma ParsedCell(data: seq<Byte>, offset: nat, seen: set<nat>) returns (c: Cell)
    requires offset < |data| && ParseFrom(data, offset, seen).Some?
    ensures CellIn(data, c) && c.start == offset && NulPair(data, c.end)
    ensures TableAccepted(TableAt(data, c), c.end + 2 == |data|) && TableAt(data, c).handle !in seen
    ensures ParseFrom(data, c.end + 2, seen + {TableAt(data, c).handle}).Some?
    ensures ParseFrom(data, offset, seen).value
            == [TableAt(data, c)] + ParseFrom(data, c.end + 2, seen + {TableAt(data, c).handle}).value
  {
    c := CellAt(data, offset).value;
  }

  lemma PrintableIsNotEmpty(t: Table, last: bool)
    requires TableAccepted(t, last)
    ensures NoEmptyString(t)
  {
    forall i | 0 <= i < |t.strings|
      ensures t.strings[i] != []
    {
      assert PrintableString(t.strings[i]);
    }
  }

  lemma AcceptedTableIsRecord(t: Table, last: bool)
    requires |t.formatted| >= HEADER && TableAccepted(t, last) && Layable(RecordOf(t))
    ensures RecordAccepted(RecordOf(t), last) && RecordOf(t).handle == t.handle
  {
  }

  /** The records behind parsed tables: they lay out as the data and are fit to be printed. */
  lemma {:induction false} ParsedIsPrinted(data: seq<Byte>, offset: nat, seen: set<nat>)
    returns (records: seq<Record>)
    requires offset <= |data| && ParseFrom(data, offset, seen).Some?
    ensures AllLayable(records) && Serialize(records) == data[offset..]
    ensures TablesOfRecords(records) == ParseFrom(data, offset, seen).value
    ensures HandlesDiffer(records) && (forall i :: 0 <= i < |records| ==> records[i].handle !in seen)
    ensures forall i :: 0 <= i < |records| ==> RecordAccepted(records[i], i == |records| - 1)
    decreases |data| - offset
  {
    hide Layable, RecordAccepted, Lay, TableOf, CellAt, TableAt, TableAccepted, NoEmptyString, NulPair, RecordOf,
      ParseFrom;
    if offset == |data| {
      records := [];
      ParseAtEnd(data, seen);
    } else {
      var c := ParsedCell(data, offset, seen);
      var t := TableAt(data, c);
      TableShape(data, c);
      PrintableIsNotEmpty(t, c.end + 2 == |data|);
      ReadIsLaid(data, c);
      AcceptedTableIsRecord(t, c.end + 2 == |data|);
      TableOfRecordOf(data, c);
      var rest := ParsedIsPrinted(data, c.end + 2, seen + {t.handle});
      records := [RecordOf(t)] + rest;
      assert records[1..] == rest;
      SerializeEmpty(rest);
      assert |data[c.end + 2..]| == |data| - (c.end + 2);
      assert data[offset..] == data[offset..c.end + 2] + data[c.end + 2..];
    }
  }

  lemma ParseAtEnd(data: seq<Byte>, seen: set<nat>)
    ensures ParseFrom(data, |data|, seen) == Some([])
  {
  }

  lemma TableShape(data: seq<Byte>, c: Cell)
    requires CellIn(data, c)
    ensures |TableAt(data, c).formatted| == c.length
  {
  }

  lemma TableOfRecordOf(data: seq<Byte>, c: Cell)
    requires CellIn(data, c) && Layable(RecordOf(TableAt(data, c)))
    ensures TableOf(RecordOf(TableAt(data, c))) == TableAt(data, c)
  {
    hide Layable, Strings, Formatted, Le16, U16At, NulPair;
    CellHeader(data, c);
    FormattedSplits(RecordOf(TableAt(data, c)));
  }

  lemma FormattedSplits(r: Record)
    requires Layable(r)
    ensures Formatted(r) == Header(r.kind, |r.body| + HEADER, r.handle) + r.body
  {
  }

  /** The formatted area of a cell is its header fields, packed again, and the rest. */
  lemma CellHeader(data: seq<Byte>, c: Cell)
    requires CellIn(data, c) && Fits16(U16At(data, c.start + 2)) && c.length < 0x100
    ensures var f := data[c.start..c.start + c.length];
            f == Header(data[c.start], c.length, U16At(data, c.start + 2)) + f[HEADER..]
  {
    hide U16At, Le16;
    var f := data[c.start..c.start + c.length];
    PackRead16(data, c.start + 2);
    SliceOfSlice(data, c.start, c.start + c.length, 2, HEADER);
    assert f[0] == data[c.start] && f[1] == data[c.start + 1];
    HeadAndRest(f);
  }

  lemma SliceOfSlice<T>(s: seq<T>, a: nat, b: nat, i: nat, j: nat)
    requires a <= b <= |s| && i <= j <= b - a
    ensures s[a..b][i..j] == s[a + i..a + j]
  {
    forall k | 0 <= k < j - i
      ensures s[a..b][i..j][k] == s[a + i..a + j][k]
    {
      assert s[a..b][i + k] == s[a + i + k];
    }
  }

  lemma HeadAndRest<T>(f: seq<T>)
    requires |f| >= HEADER
    ensures f == [f[0], f[1]] + f[2..HEADER] + f[HEADER..]
  {
  }

  /** Parsing then printing: what `parse_tables` accepts re-serialises to the identical bytes. */
  lemma ParseThenPrint(data: seq<Byte>) returns (records: seq<Record>)
    requires Parsed(data).Some?
    ensures WellFormedList(records)
    ensures AllLayable(records) && TablesOfRecords(records) == Parsed(data).value
    ensures Serialize(records) == data
  {
    records := ParsedIsPrinted(data, 0, {});
    assert data[0..] == data;
    assert records != [];
    TablesOfRecordsAt(records, |records| - 1);
  }

  /** The streams `parse_tables` accepts are exactly the printings of well-formed lists. */
  lemma AcceptedStreams(data: seq<Byte>)
    ensures Parsed(data).Some?
            <==> exists records :: WellFormedList(records) && AllLayable(records) && Serialize(records) == data
  {
    if Parsed(data).Some? {
      var records := ParseThenPrint(data);
    }
    if records :| WellFormedList(records) && AllLayable(records) && Serialize(records) == data {
      PrintThenParse(records);
    }
  }

  /** Two well-formed lists with the same bytes are the same list. */
  lemma PrintingIsInjective(a: seq<Record>, b: seq<Record>)
    requires WellFormedList(a) && WellFormedList(b) && AllLayable(a) && AllLayable(b)
    requires Serialize(a) == Serialize(b)
    ensures a == b
  {
    PrintThenParse(a);
    PrintThenParse(b);
    TablesOfRecordsAt(a, 0);
    TablesOfRecordsAt(b, 0);
    forall i | 0 <= i < |a|
      ensures a[i] == b[i]
    {
      TablesOfRecordsAt(a, i);
      TablesOfRecordsAt(b, i);
      assert Formatted(a[i])[HEADER..] == Formatted(b[i])[HEADER..];
    }
  }

  // ----- well-formed lists in plain terms -----

  /** A structure with room for its body, a handle of its own range, and strings of blanks to tildes. */
  predicate Ordinary(r: Record) {
    && r.handle < 0xFF00 && |r.body| <= 251
    && forall j :: 0 <= j < |r.strings| ==> IsPrintable(r.strings[j])
  }

  predicate IsPrintable(bytes: seq<Byte>) {
    |bytes| >= 1 && forall k :: 0 <= k < |bytes| ==> ' ' as int <= bytes[k] as int <= '~' as int
  }

  /** Exactly the last structure is of Type 127, without body and strings; no two have one handle. */
  predicate Proper(records: seq<Record>) {
    && records != [] && (forall i :: 0 <= i < |records| ==> Ordinary(records[i]))
    && (forall i :: 0 <= i < |records| ==> (records[i].kind as int == 127 <==> i == |records| - 1))
    && (forall i, j :: 0 <= i < j < |records| ==> records[i].handle != records[j].handle)
    && var last := records[|records| - 1]; last.handle == 0xFEFF && last.body == [] && last.strings == []
  }

  lemma OrdinaryMeans(r: Record)
    ensures Ordinary(r) <==> Layable(r) && r.handle < 0xFF00 && PrintableStrings(r.strings)
  {
    forall j | 0 <= j < |r.strings|
      ensures IsPrintable(r.strings[j]) <==> PrintableString(r.strings[j])
    {
    }
    if PrintableStrings(r.strings) {
      forall j | 0 <= j < |r.strings|
        ensures r.strings[j] != [] && 0 !in r.strings[j]
      {
        assert PrintableString(r.strings[j]);
      }
    }
  }

  lemma ProperMeans(records: seq<Record>)
    ensures WellFormedList(records) <==> Proper(records)
  {
    hide Ordinary, Layable, PrintableStrings;
    forall i | 0 <= i < |records|
      ensures Ordinary(records[i])
         <==> Layable(records[i]) && records[i].handle < 0xFF00 && PrintableStrings(records[i].strings)
    {
      OrdinaryMeans(records[i]);
    }
  }

  /** The parser accepts exactly the printings of proper lists. */
  lemma AcceptsProper(data: seq<Byte>)
    ensures Parsed(data).Some?
       <==> exists records :: Proper(records) && AllLayable(records) && data == Serialize(records)
  {
    hide Proper, Serialize, WellFormedList, Parsed, Layable;
    if Parsed(data).Some? {
      var records := ParseThenPrint(data);
      ProperMeans(records);
    }
    if records :| Proper(records) && AllLayable(records) && data == Serialize(records) {
      ProperMeans(records);
      PrintThenParse(records);
    }
  }
}

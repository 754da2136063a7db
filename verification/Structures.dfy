/**
 The SMBIOS structure layout of DMTF DSP0134 sections 6.1.2 and 6.1.3: a four-byte header,
 a formatted body, and a string area closed by a double NUL.  Two printers of the source
 build it (`structure` and `smbios_structure`); `Cut` is the reference reading of a stream.
 */
module Structures {
  import opened Outcomes
  import opened Bytes
  import opened Sequences

  const HEADER := 4
  const END_OF_TABLE := 127
  const END_OF_TABLE_HANDLE := 0xFEFF

  // ----- printing -----

  predicate Ascii(s: string) {
    forall i :: 0 <= i < |s| ==> s[i] as int < 0x80
  }

  function AsciiBytes(s: string): (bytes: seq<Byte>)
    requires Ascii(s)
    ensures |bytes| == |s| && forall i :: 0 <= i < |s| ==> bytes[i] == s[i] as int
  {
    seq(|s|, i requires 0 <= i < |s| => s[i] as int)
  }

  /** A string both printers accept: not empty, no NUL, and pure ASCII. */
  predicate Usable(s: string) {
    s != "" && '\0' !in s && Ascii(s)
  }

  predicate AllUsable(strings: seq<string>) {
    forall i :: 0 <= i < |strings| ==> Usable(strings[i])
  }

  function EncodeAll(strings: seq<string>): (bytes: seq<seq<Byte>>)
    requires AllUsable(strings)
    ensures |bytes| == |strings|
    ensures forall i :: 0 <= i < |strings| ==> bytes[i] == AsciiBytes(strings[i])
  {
    seq(|strings|, i requires 0 <= i < |strings| => AsciiBytes(strings[i]))
  }

  function Header(kind: Byte, length: Byte, handle: int): seq<Byte>
    requires Fits16(handle)
  {
    [kind, length] + Le16(handle)
  }

  /** `structure`: strings joined by NUL and closed by two. */
  function Structure(kind: int, handle: int, body: seq<Byte>, strings: seq<string>): Result<seq<Byte>> {
    if !AllUsable(strings) then Err(ValueError)
    else if !FitsByte(kind) || |body| + HEADER >= 0x100 || !Fits16(handle) then Err(StructError)
    else Ok(Header(kind, |body| + HEADER, handle) + body + (Join(EncodeAll(strings), 0) + [0, 0]))
  }

  function TerminateEach(strings: seq<seq<Byte>>): seq<Byte> {
    if strings == [] then [] else strings[0] + [0] + TerminateEach(strings[1..])
  }

  /** `smbios_structure`: every string closed by NUL, then one more, or two when there is none. */
  function SmbiosStructure(kind: int, handle: int, body: seq<Byte>, strings: seq<string>): Result<seq<Byte>> {
    if !AllUsable(strings) then Err(ValueError)
    else if !FitsByte(kind) || |body| + HEADER >= 0x100 || !Fits16(handle) then Err(StructError)
    else
      var area := if strings == [] then [0, 0] else TerminateEach(EncodeAll(strings)) + [0];
      Ok(Header(kind, |body| + HEADER, handle) + body + area)
  }

  lemma {:induction false} TerminatedIsJoined(strings: seq<seq<Byte>>)
    requires strings != []
    ensures TerminateEach(strings) == Join(strings, 0) + [0]
  {
    if |strings| > 1 {
      TerminatedIsJoined(strings[1..]);
    } else {
      assert TerminateEach(strings[1..]) == [];
    }
  }

  /** The two printers accept the same calls and lay out the same bytes. */
  lemma PrintersAgree(kind: int, handle: int, body: seq<Byte>, strings: seq<string>)
    ensures Structure(kind, handle, body, strings) == SmbiosStructure(kind, handle, body, strings)
  {
    if AllUsable(strings) {
      var bytes := EncodeAll(strings);
      if strings != [] {
        TerminatedIsJoined(bytes);
        assert TerminateEach(bytes) + [0] == Join(bytes, 0) + [0, 0];
      } else {
        assert Join(bytes, 0) + [0, 0] == [0, 0];
      }
    }
  }

  // ----- records -----

  /** One structure: what a printer is given and a parser recovers. */
  datatype Record = Record(kind: Byte, handle: nat, body: seq<Byte>, strings: seq<seq<Byte>>)

  predicate StringsLayable(strings: seq<seq<Byte>>) {
    forall i :: 0 <= i < |strings| ==> strings[i] != [] && 0 !in strings[i]
  }

  predicate Layable(r: Record) {
    Fits16(r.handle) && |r.body| + HEADER < 0x100 && StringsLayable(r.strings)
  }

  predicate AllLayable(records: seq<Record>) {
    forall i :: 0 <= i < |records| ==> Layable(records[i])
  }

  function Formatted(r: Record): (f: seq<Byte>)
    requires Layable(r)
    ensures |f| == |r.body| + HEADER && f[0] == r.kind && f[1] == |f| && f[HEADER..] == r.body
    ensures U16At(f, 2) == r.handle
  {
    Header(r.kind, |r.body| + HEADER, r.handle) + r.body
  }

  function Lay(r: Record): (bytes: seq<Byte>)
    requires Layable(r)
  {
    Formatted(r) + (Join(r.strings, 0) + [0, 0])
  }

  function Serialize(records: seq<Record>): seq<Byte>
    requires AllLayable(records)
  {
    if records == [] then [] else Lay(records[0]) + Serialize(records[1..])
  }

  /** What a printer lays out for usable strings is the record with those strings encoded. */
  lemma PrinterLaysRecord(kind: Byte, handle: nat, body: seq<Byte>, strings: seq<string>)
    requires AllUsable(strings) && |body| + HEADER < 0x100 && Fits16(handle)
    ensures Layable(Record(kind, handle, body, EncodeAll(strings)))
    ensures Structure(kind, handle, body, strings) == Ok(Lay(Record(kind, handle, body, EncodeAll(strings))))
  {
    forall i | 0 <= i < |strings|
      ensures EncodeAll(strings)[i] != [] && 0 !in EncodeAll(strings)[i]
    {
      var s, bytes := strings[i], EncodeAll(strings)[i];
      assert Usable(s);
      assert |bytes| == |s|;
      forall k | 0 <= k < |bytes|
        ensures bytes[k] != 0
      {
        assert s[k] != '\0';
      }
    }
  }

  /** The record a printer lays out for a call, or the exception it raises. */
  function Made(kind: int, handle: int, body: seq<Byte>, strings: seq<string>): (r: Result<Record>)
    ensures r.Ok? ==> Layable(r.value) && r.value.kind == kind && r.value.handle == handle && r.value.body == body
                      && |r.value.strings| == |strings|
  {
    if !AllUsable(strings) then Err(ValueError)
    else if !FitsByte(kind) || |body| + HEADER >= 0x100 || !Fits16(handle) then Err(StructError)
    else
      PrinterLaysRecord(kind, handle, body, strings);
      Ok(Record(kind, handle, body, EncodeAll(strings)))
  }

  lemma MadeIsPrinted(kind: int, handle: int, body: seq<Byte>, strings: seq<string>)
    ensures var r := Made(kind, handle, body, strings);
      && (r.Ok? ==> Layable(r.value) && Structure(kind, handle, body, strings) == Ok(Lay(r.value)))
      && (r.Err? ==> Structure(kind, handle, body, strings) == Err(r.error))
  {
    if Made(kind, handle, body, strings).Ok? {
      PrinterLaysRecord(kind, handle, body, strings);
    }
  }

  /** A list of calls made in turn: the first exception, or all the records. */
  function Collect(calls: seq<Result<Record>>): Result<seq<Record>> {
    if calls == [] then Ok([])
    else
      var front :- Collect(calls[..|calls| - 1]);
      var last :- calls[|calls| - 1];
      Ok(front + [last])
  }

  lemma {:induction false} CollectFails(calls: seq<Result<Record>>, i: nat)
    requires i <= |calls| && Collect(calls[..i]).Err?
    ensures Collect(calls) == Err(Collect(calls[..i]).error)
    decreases |calls|
  {
    if i == |calls| {
      assert calls[..i] == calls;
    } else {
      assert calls[..|calls| - 1][..i] == calls[..i];
      CollectFails(calls[..|calls| - 1], i);
    }
  }

  /** One more call in a loop over calls. */
  lemma CollectStep(calls: seq<Result<Record>>, i: nat)
    requires i < |calls| && Collect(calls[..i]).Ok?
    ensures calls[i].Ok? ==> Collect(calls[..i + 1]) == Ok(Collect(calls[..i]).value + [calls[i].value])
    ensures calls[i].Err? ==> Collect(calls) == Err(calls[i].error)
  {
    assert calls[..i + 1][..i] == calls[..i];
    if calls[i].Err? {
      CollectFails(calls, i + 1);
    }
  }

  lemma {:induction false} CollectOk(calls: seq<Result<Record>>)
    ensures Collect(calls).Ok? <==> forall i :: 0 <= i < |calls| ==> calls[i].Ok?
    ensures Collect(calls).Ok? ==> (|Collect(calls).value| == |calls|
      && forall i :: 0 <= i < |calls| ==> Collect(calls).value[i] == calls[i].value)
    decreases |calls|
  {
    if calls != [] {
      CollectOk(calls[..|calls| - 1]);
    }
  }

  function LayAll(records: seq<Record>): (laid: seq<seq<Byte>>)
    requires AllLayable(records)
    ensures |laid| == |records| && forall i :: 0 <= i < |records| ==> laid[i] == Lay(records[i])
  {
    seq(|records|, i requires 0 <= i < |records| => Lay(records[i]))
  }

  predicate OkLayable(calls: seq<Result<Record>>) {
    forall i :: 0 <= i < |calls| && calls[i].Ok? ==> Layable(calls[i].value)
  }

  /** The bytes printed by the first `n` calls of a loop, when none of them raises. */
  predicate Printed(calls: seq<Result<Record>>, n: nat, tables: seq<seq<Byte>>)
    requires n <= |calls|
  {
    Collect(calls[..n]).Ok? && AllLayable(Collect(calls[..n]).value) && tables == LayAll(Collect(calls[..n]).value)
  }

  lemma NonePrinted(calls: seq<Result<Record>>)
    ensures Printed(calls, 0, [])
  {
    assert calls[..0] == [];
  }

  lemma OnePrinted(calls: seq<Result<Record>>, n: nat, tables: seq<seq<Byte>>)
    requires n < |calls| && Printed(calls, n, tables) && OkLayable(calls)
    ensures calls[n].Ok? ==> Layable(calls[n].value) && Printed(calls, n + 1, tables + [Lay(calls[n].value)])
    ensures calls[n].Err? ==> Collect(calls) == Err(calls[n].error)
  {
    hide Lay, Layable;
    CollectStep(calls, n);
    if calls[n].Ok? {
      var done := Collect(calls[..n]).value;
      assert LayAll(done + [calls[n].value]) == LayAll(done) + [Lay(calls[n].value)];
    }
  }

  lemma AllPrinted(calls: seq<Result<Record>>, tables: seq<seq<Byte>>)
    requires Printed(calls, |calls|, tables)
    ensures Collect(calls).Ok? && AllLayable(Collect(calls).value) && tables == LayAll(Collect(calls).value)
  {
    assert calls[..|calls|] == calls;
  }

  /** `tables` are the structures some calls print, or the exception the first failing one raises. */
  ghost predicate Prints(calls: seq<Result<Record>>, tables: Result<seq<seq<Byte>>>) {
    && (Collect(calls).Ok? ==> AllLayable(Collect(calls).value) && tables == Ok(LayAll(Collect(calls).value)))
    && (Collect(calls).Err? ==> tables == Err(Collect(calls).error))
  }

  lemma {:induction false} CollectAppend(a: seq<Result<Record>>, b: seq<Result<Record>>)
    ensures Collect(a).Err? ==> Collect(a + b) == Err(Collect(a).error)
    ensures Collect(a).Ok? && Collect(b).Err? ==> Collect(a + b) == Err(Collect(b).error)
    ensures Collect(a).Ok? && Collect(b).Ok? ==> Collect(a + b) == Ok(Collect(a).value + Collect(b).value)
    decreases |b|
  {
    if b == [] {
      assert a + b == a;
      if Collect(a).Ok? {
        assert Collect(a).value + [] == Collect(a).value;
      }
    } else {
      var front := b[..|b| - 1];
      assert (a + b)[..|a + b| - 1] == a + front;
      CollectAppend(a, front);
      if Collect(a).Ok? && Collect(b).Ok? {
        assert Collect(a).value + (Collect(front).value + [b[|b| - 1].value])
            == Collect(a).value + Collect(front).value + [b[|b| - 1].value];
      }
    }
  }

  /** Groups of calls made one after the other. */
  lemma PrintsAppend(a: seq<Result<Record>>, ra: Result<seq<seq<Byte>>>, b: seq<Result<Record>>,
                     rb: Result<seq<seq<Byte>>>)
    requires Prints(a, ra)
    ensures ra.Err? ==> Prints(a + b, ra)
    ensures ra.Ok? && Prints(b, rb) ==> Prints(a + b, if rb.Err? then rb else Ok(ra.value + rb.value))
  {
    hide Lay, Layable, Collect;
    CollectAppend(a, b);
    if Collect(a).Ok? && Collect(b).Ok? && Prints(b, rb) {
      assert LayAll(Collect(a).value + Collect(b).value) == LayAll(Collect(a).value) + LayAll(Collect(b).value);
    }
  }

  lemma AllPrints(calls: seq<Result<Record>>, tables: seq<seq<Byte>>)
    requires Printed(calls, |calls|, tables)
    ensures Prints(calls, Ok(tables))
  {
    AllPrinted(calls, tables);
  }

  // ----- the reference reading -----

  predicate NulPair(data: seq<Byte>, k: nat)
    requires k + 1 < |data|
  {
    data[k] == 0 && data[k + 1] == 0
  }

  /** `data.find(b"\0\0", from)`. */
  function FindDoubleNul(data: seq<Byte>, from: nat): (r: Option<nat>)
    requires from <= |data|
    ensures r.Some? ==> from <= r.value && r.value + 1 < |data| && NulPair(data, r.value)
    ensures r.Some? ==> forall k :: from <= k < r.value ==> !NulPair(data, k)
    ensures r.None? ==> forall k :: from <= k && k + 1 < |data| ==> !NulPair(data, k)
    decreases |data| - from
  {
    if from + 1 >= |data| then None
    else if NulPair(data, from) then Some(from)
    else FindDoubleNul(data, from + 1)
  }

  /** One structure of a stream: its offset, its header length and the offset of its double NUL. */
  datatype Cell = Cell(start: nat, length: nat, end: nat)

  predicate CellIn(data: seq<Byte>, c: Cell) {
    HEADER <= c.length && c.start + c.length <= c.end && c.end + 2 <= |data| && data[c.start + 1] == c.length
  }

  /** The structure at an offset, when header, formatted area and terminator are all there. */
  function CellAt(data: seq<Byte>, offset: nat): (r: Option<Cell>)
    requires offset <= |data|
    ensures r.Some? ==> CellIn(data, r.value) && r.value.start == offset
  {
    if offset + HEADER > |data| then None
    else
      var length := data[offset + 1];
      if length < HEADER || offset + length > |data| then None
      else match FindDoubleNul(data, offset + length)
        case None => None
        case Some(end) => Some(Cell(offset, length, end))
  }

  function Prepend<T>(done: seq<T>, rest: Option<seq<T>>): Option<seq<T>> {
    if rest.Some? then Some(done + rest.value) else None
  }

  /** The cells of a stream that is cut exactly to its end, from an offset on. */
  function Cut(data: seq<Byte>, offset: nat): (r: Option<seq<Cell>>)
    requires offset <= |data|
    decreases |data| - offset
  {
    if offset == |data| then Some([])
    else match CellAt(data, offset)
      case None => None
      case Some(c) => Prepend([c], Cut(data, c.end + 2))
  }

  lemma PrependNothing<T>(rest: Option<seq<T>>)
    ensures Prepend([], rest) == rest
  {
    if rest.Some? {
      assert [] + rest.value == rest.value;
    }
  }

  lemma PrependToNothing<T>(done: seq<T>)
    ensures Prepend(done, Some([])) == Some(done)
  {
    assert done + [] == done;
  }

  lemma PrependTwice<T>(a: seq<T>, b: seq<T>, rest: Option<seq<T>>)
    ensures Prepend(a, Prepend(b, rest)) == Prepend(a + b, rest)
  {
    if rest.Some? {
      assert a + (b + rest.value) == a + b + rest.value;
    }
  }

  /** What a reader makes of one cell: kind, handle, formatted area and strings. */
  datatype Table = Table(kind: Byte, handle: nat, formatted: seq<Byte>, strings: seq<seq<Byte>>)

  function Strings(area: seq<Byte>): seq<seq<Byte>> {
    if area == [] then [] else Split(area, 0)
  }

  function TableAt(data: seq<Byte>, c: Cell): Table
    requires CellIn(data, c)
  {
    Table(data[c.start], U16At(data, c.start + 2), data[c.start..c.start + c.length],
          Strings(data[c.start + c.length..c.end]))
  }

  // ----- printing then reading -----

  lemma {:induction false} JoinedHasNoPair(strings: seq<seq<Byte>>, k: nat)
    requires StringsLayable(strings)
    requires k < |Join(strings, 0)|
    ensures !NulPair(Join(strings, 0) + [0, 0], k)
    ensures Join(strings, 0)[0] != 0
  {
    var joined := Join(strings, 0);
    var first := strings[0];
    assert first[0] in first;
    if |strings| == 1 {
      assert joined[k] in first;
    } else {
      var rest := Join(strings[1..], 0);
      assert strings[1..][0] == strings[1] != [];
      JoinedHasNoPair(strings[1..], if k > |first| then k - |first| - 1 else 0);
      if k < |first| {
        assert joined[k] == first[k] && first[k] in first;
      } else if k == |first| {
        assert (joined + [0, 0])[k + 1] == rest[0];
      } else {
        assert (joined + [0, 0])[k] == (rest + [0, 0])[k - |first| - 1];
        assert (joined + [0, 0])[k + 1] == (rest + [0, 0])[k - |first|];
      }
    }
  }

  function CellOf(r: Record, start: nat): Cell {
    Cell(start, |r.body| + HEADER, start + |r.body| + HEADER + |Join(r.strings, 0)|)
  }

  lemma AreaIsFound(data: seq<Byte>, body: nat, strings: seq<seq<Byte>>)
    requires StringsLayable(strings) && body + |Join(strings, 0)| + 2 <= |data|
    requires data[body..body + |Join(strings, 0)| + 2] == Join(strings, 0) + [0, 0]
    ensures FindDoubleNul(data, body) == Some(body + |Join(strings, 0)|)
    ensures data[body..body + |Join(strings, 0)|] == Join(strings, 0)
  {
    var area := Join(strings, 0);
    var end := body + |area|;
    var seen := data[body..end + 2];
    assert forall k :: 0 <= k < |area| + 2 ==> data[body + k] == seen[k];
    forall k | body <= k < end
      ensures !NulPair(data, k)
    {
      JoinedHasNoPair(strings, k - body);
      assert data[body + (k - body)] == seen[k - body] && data[body + (k - body + 1)] == seen[k - body + 1];
    }
    assert NulPair(data, end) by {
      assert data[body + |area|] == 0 && data[body + (|area| + 1)] == 0;
    }
    assert data[body..end] == seen[..|area|];
  }

  lemma JoinedIsSplit(strings: seq<seq<Byte>>)
    requires StringsLayable(strings)
    ensures Strings(Join(strings, 0)) == strings
  {
    if strings != [] {
      SplitJoin(strings, 0);
      assert strings[0] != [];
    }
  }

  lemma HeaderIsFound(data: seq<Byte>, offset: nat, r: Record)
    requires Layable(r) && offset + |Formatted(r)| <= |data|
    requires data[offset..offset + |Formatted(r)|] == Formatted(r)
    ensures data[offset] == r.kind && data[offset + 1] == |Formatted(r)|
    ensures U16At(data, offset + 2) == r.handle
  {
    var f, seen := Formatted(r), data[offset..offset + |Formatted(r)|];
    assert seen[0] == f[0] && seen[1] == f[1] && seen[2] == f[2] && seen[3] == f[3];
    assert U16At(data, offset + 2) == U16At(f, 2);
  }

  lemma LaidSplits(r: Record)
    requires Layable(r)
    ensures Lay(r) == Formatted(r) + (Join(r.strings, 0) + [0, 0])
  {
  }

  lemma SliceSplits(data: seq<Byte>, offset: nat, a: seq<Byte>, b: seq<Byte>)
    requires offset + |a| + |b| <= |data| && data[offset..offset + |a| + |b|] == a + b
    ensures data[offset..offset + |a|] == a && data[offset + |a|..offset + |a| + |b|] == b
  {
    var both := data[offset..offset + |a| + |b|];
    assert data[offset..offset + |a|] == both[..|a|];
    assert data[offset + |a|..offset + |a| + |b|] == both[|a|..];
  }

  /** A laid-out record is found again at its offset, whatever stands before and after it. */
  lemma LaidIsFound(data: seq<Byte>, offset: nat, r: Record)
    requires Layable(r) && offset + |Lay(r)| <= |data|
    requires data[offset..offset + |Lay(r)|] == Lay(r)
    ensures CellAt(data, offset) == Some(CellOf(r, offset)) && CellIn(data, CellOf(r, offset))
    ensures CellOf(r, offset).end + 2 == offset + |Lay(r)| && offset < |data|
    ensures TableAt(data, CellOf(r, offset)) == TableOf(r)
  {
    hide Formatted, StringsLayable, FindDoubleNul, U16At, Lay;
    var c, laid, f, area := CellOf(r, offset), Lay(r), Formatted(r), Join(r.strings, 0) + [0, 0];
    LaidSplits(r);
    SliceSplits(data, offset, f, area);
    AreaIsFound(data, c.start + c.length, r.strings);
    JoinedIsSplit(r.strings);
    HeaderIsFound(data, offset, r);
  }

  function CellsOf(records: seq<Record>, start: nat): seq<Cell> {
    if records == [] then []
    else [CellOf(records[0], start)] + CellsOf(records[1..], CellOf(records[0], start).end + 2)
  }

  function TableOf(r: Record): Table
    requires Layable(r)
  {
    Table(r.kind, r.handle, Formatted(r), r.strings)
  }

  /** The cell of the data reads as the record. */
  ghost predicate ReadsAs(data: seq<Byte>, c: Cell, r: Record) {
    CellIn(data, c) && Layable(r) && TableAt(data, c) == TableOf(r)
  }

  ghost predicate AllReadAs(data: seq<Byte>, cells: seq<Cell>, records: seq<Record>)
    decreases |cells|
  {
    if cells == [] then records == []
    else records != [] && ReadsAs(data, cells[0], records[0]) && AllReadAs(data, cells[1..], records[1..])
  }

  lemma {:induction false} ReadAsMember(data: seq<Byte>, cells: seq<Cell>, records: seq<Record>, i: nat)
    requires AllReadAs(data, cells, records) && i < |cells|
    ensures |cells| == |records| && ReadsAs(data, cells[i], records[i])
    decreases |cells|
  {
    if i > 0 {
      ReadAsMember(data, cells[1..], records[1..], i - 1);
    } else if |cells| > 1 {
      ReadAsMember(data, cells[1..], records[1..], 0);
    }
  }

  lemma SuffixSplits(data: seq<Byte>, offset: nat, a: seq<Byte>, b: seq<Byte>)
    requires offset <= |data| && data[offset..] == a + b
    ensures offset + |a| <= |data|
    ensures data[offset..offset + |a|] == a && data[offset + |a|..] == b
  {
    assert data[offset..offset + |a|] == data[offset..][..|a|];
    assert data[offset + |a|..] == data[offset..][|a|..];
  }

  /** Cutting a serialised list of records recovers exactly those records, one cell each. */
  lemma {:induction false} SerializedIsCut(data: seq<Byte>, offset: nat, records: seq<Record>)
    requires offset <= |data| && AllLayable(records) && data[offset..] == Serialize(records)
    ensures Cut(data, offset) == Some(CellsOf(records, offset))
    ensures AllReadAs(data, CellsOf(records, offset), records)
    decreases |records|
  {
    hide Lay, Layable, CellAt, TableAt, TableOf, CellOf, Formatted, CellIn;
    if records != [] {
      SuffixSplits(data, offset, Lay(records[0]), Serialize(records[1..]));
      LaidIsFound(data, offset, records[0]);
      var c := CellOf(records[0], offset);
      SerializedIsCut(data, c.end + 2, records[1..]);
      var tail := CellsOf(records[1..], c.end + 2);
      ConsCut(data, offset, c, tail);
      ConsReadAs(data, c, tail, records[0], records[1..]);
      assert [records[0]] + records[1..] == records;
    }
  }

  lemma ConsCut(data: seq<Byte>, offset: nat, c: Cell, tail: seq<Cell>)
    requires offset < |data| && CellAt(data, offset) == Some(c) && Cut(data, c.end + 2) == Some(tail)
    ensures Cut(data, offset) == Some([c] + tail)
  {
  }

  lemma ConsReadAs(data: seq<Byte>, c: Cell, cells: seq<Cell>, r: Record, records: seq<Record>)
    requires ReadsAs(data, c, r) && AllReadAs(data, cells, records)
    ensures AllReadAs(data, [c] + cells, [r] + records)
  {
    assert ([c] + cells)[1..] == cells && ([r] + records)[1..] == records;
  }

  // ----- reading then printing -----

  function RecordOf(t: Table): Record
    requires |t.formatted| >= HEADER
  {
    Record(t.kind, t.handle, t.formatted[HEADER..], t.strings)
  }

  predicate NoEmptyString(t: Table) {
    forall i :: 0 <= i < |t.strings| ==> t.strings[i] != []
  }

  /** Laying out what was read from a cell gives back the bytes of that cell. */
  lemma ReadIsLaid(data: seq<Byte>, c: Cell)
    requires CellIn(data, c) && NulPair(data, c.end) && NoEmptyString(TableAt(data, c))
    ensures Layable(RecordOf(TableAt(data, c)))
    ensures Lay(RecordOf(TableAt(data, c))) == data[c.start..c.end + 2]
  {
    hide NoEmptyString, Formatted, Layable;
    var t := TableAt(data, c);
    var r := RecordOf(t);
    var area := data[c.start + c.length..c.end];
    JoinSplit(area, 0);
    assert Join(r.strings, 0) == area;
    ReadIsFormatted(data, c);
    assert data[c.start..c.end + 2] == data[c.start..c.start + c.length] + (area + [0, 0]);
  }

  lemma ReadIsFormatted(data: seq<Byte>, c: Cell)
    requires CellIn(data, c) && NoEmptyString(TableAt(data, c))
    ensures var r := RecordOf(TableAt(data, c)); Layable(r) && Formatted(r) == data[c.start..c.start + c.length]
  {
    PackRead16(data, c.start + 2);
    JoinSplit(data[c.start + c.length..c.end], 0);
    var r := RecordOf(TableAt(data, c));
    assert Layable(r);
    assert Formatted(r) == data[c.start..c.start + c.length];
  }
}

/**
 The run-time pass over the published tables: the C `smbios_full_finalize_cpuid` writes the
 guest's CPUID(1).EAX and EDX into the Processor ID of every Type 4 structure, in place, and
 the Python checker patches a template the same way to know what the guest must show.
 */
module Finalizer {
  import opened Outcomes
  import opened Bytes
  import opened Sequences
  import opened Structures
  import opened Walkers

  const PROCESSOR := 4
  const ID_OFFSET := 8
  const ID_SIZE := 8

  const PLACEHOLDER: seq<Byte> := [0, 0, 0, 0, 0, 0, 0, 0]

  function ProcessorId(version: int, features: int): (id: seq<Byte>)
    requires Fits32(version) && Fits32(features)
    ensures |id| == ID_SIZE
  {
    Le32(version) + Le32(features)
  }

  function Overwrite(data: seq<Byte>, at: nat, bytes: seq<Byte>): (r: seq<Byte>)
    requires at + |bytes| <= |data|
    ensures |r| == |data|
  {
    data[..at] + bytes + data[at + |bytes|..]
  }

  /** `memcpy` into the tables. */
  method CopyInto(tables: array<Byte>, at: nat, bytes: seq<Byte>)
    requires at + |bytes| <= tables.Length
    modifies tables
    ensures tables[..] == Overwrite(old(tables[..]), at, bytes)
  {
    for i := 0 to |bytes|
      invariant forall k :: 0 <= k < i ==> tables[at + k] == bytes[k]
      invariant forall k :: 0 <= k < tables.Length && !(at <= k < at + i) ==> tables[k] == old(tables[k])
    {
      tables[at + i] := bytes[i];
    }
    forall k | 0 <= k < tables.Length
      ensures tables[..][k] == Overwrite(old(tables[..]), at, bytes)[k]
    {
      if at <= k < at + |bytes| {
        assert tables[at + (k - at)] == bytes[k - at];
      }
    }
  }

  /** The C pass from an offset on: whether it succeeds, and the tables it leaves. */
  function FinalizeFrom(data: seq<Byte>, offset: nat, version: int, features: int): (bool, seq<Byte>)
    requires offset <= |data| && Fits32(version) && Fits32(features)
    decreases |data| - offset
  {
    if offset == |data| then (true, data)
    else match CellAt(data, offset)
      case None => (false, data)
      case Some(c) =>
        if data[offset] != PROCESSOR then FinalizeFrom(data, c.end + 2, version, features)
        else if c.length < ID_OFFSET + ID_SIZE
             || data[offset + ID_OFFSET..offset + ID_OFFSET + ID_SIZE] != PLACEHOLDER then (false, data)
        else FinalizeFrom(Overwrite(data, offset + ID_OFFSET, ProcessorId(version, features)),
                          c.end + 2, version, features)
  }

  lemma FinalizeStep(data: seq<Byte>, offset: nat, version: int, features: int)
    requires offset < |data| && Fits32(version) && Fits32(features)
    ensures CellAt(data, offset).None? ==> FinalizeFrom(data, offset, version, features) == (false, data)
    ensures CellAt(data, offset).Some? ==>
      var c := CellAt(data, offset).value;
      FinalizeFrom(data, offset, version, features)
      == (if data[offset] != PROCESSOR then FinalizeFrom(data, c.end + 2, version, features)
          else if c.length < ID_OFFSET + ID_SIZE
               || data[offset + ID_OFFSET..offset + ID_OFFSET + ID_SIZE] != PLACEHOLDER then (false, data)
          else FinalizeFrom(Overwrite(data, offset + ID_OFFSET, ProcessorId(version, features)),
                            c.end + 2, version, features))
  {
  }

  lemma OverwriteTwice(data: seq<Byte>, at: nat, a: seq<Byte>, b: seq<Byte>)
    requires at + |a| + |b| <= |data|
    ensures Overwrite(Overwrite(data, at, a), at + |a|, b) == Overwrite(data, at, a + b)
  {
  }

  lemma SplitId(data: seq<Byte>, at: nat, version: int, features: int)
    requires Fits32(version) && Fits32(features) && at + ID_SIZE <= |data|
    ensures |Le32(version)| == 4 == |Le32(features)|
    ensures |Overwrite(data, at, Le32(version))| == |data|
    ensures Overwrite(Overwrite(data, at, Le32(version)), at + 4, Le32(features))
            == Overwrite(data, at, ProcessorId(version, features))
  {
    OverwriteTwice(data, at, Le32(version), Le32(features));
  }

  /** The two stores of the registers. */
  method WriteId(tables: array<Byte>, at: nat, version: int, features: int)
    requires Fits32(version) && Fits32(features) && at + ID_SIZE <= tables.Length
    modifies tables
    ensures tables[..] == Overwrite(old(tables[..]), at, ProcessorId(version, features))
  {
    hide Overwrite, ProcessorId;
    SplitId(tables[..], at, version, features);
    CopyInto(tables, at, Le32(version));
    CopyInto(tables, at + 4, Le32(features));
  }

  method FinalizeCpuid(tables: array<Byte>, version: int, features: int) returns (ok: bool)
    requires Fits32(version) && Fits32(features)
    modifies tables
    ensures (ok, tables[..]) == if version == 0 then (false, old(tables[..]))
                                else FinalizeFrom(old(tables[..]), 0, version, features)
  {
    hide FinalizeFrom, Overwrite, ProcessorId;
    if version == 0 {
      return false;
    }
    var offset := 0;
    while offset < tables.Length
      invariant offset <= tables.Length
      invariant FinalizeFrom(tables[..], offset, version, features)
                == FinalizeFrom(old(tables[..]), 0, version, features)
      decreases tables.Length - offset
    {
      ghost var data := tables[..];
      FinalizeStep(data, offset, version, features);
      if tables.Length - offset < HEADER {
        return false;
      }
      var kind, length := tables[offset], tables[offset + 1];
      if length < HEADER || length > tables.Length - offset {
        return false;
      }
      var end := ScanDoubleNul(tables[..], offset + length);
      if end + 1 >= tables.Length {
        return false;
      }
      if kind == PROCESSOR {
        if length < ID_OFFSET + ID_SIZE {
          return false;
        }
        if tables[offset + ID_OFFSET..offset + ID_OFFSET + ID_SIZE] != PLACEHOLDER {
          return false;
        }
        WriteId(tables, offset + ID_OFFSET, version, features);
      }
      offset := end + 2;
    }
    FinalizeEnd(tables[..], version, features);
    return true;
  }

  lemma FinalizeEnd(data: seq<Byte>, version: int, features: int)
    requires Fits32(version) && Fits32(features)
    ensures FinalizeFrom(data, |data|, version, features) == (true, data)
  {
  }

  /** The checker's loop over its template: no placeholder is demanded; it raises on a broken stream. */
  function PatchFrom(data: seq<Byte>, offset: nat, version: int, features: int): Result<seq<Byte>>
    requires offset <= |data| && Fits32(version) && Fits32(features)
    decreases |data| - offset
  {
    if offset == |data| then Ok(data)
    else if offset + HEADER > |data| then Err(StructError)
    else
      var kind, length := data[offset], data[offset + 1];
      if kind == PROCESSOR && offset + ID_OFFSET + ID_SIZE > |data| then Err(StructError)
      else
        var id := ProcessorId(version, features);
        var patched := if kind == PROCESSOR then Overwrite(data, offset + ID_OFFSET, id) else data;
        if offset + length > |data| then Err(ValueError)
        else match FindDoubleNul(patched, offset + length)
          case None => Err(ValueError)
          case Some(end) => PatchFrom(patched, end + 2, version, features)
  }

  lemma PatchUnfolds(data: seq<Byte>, offset: nat, version: int, features: int)
    requires offset <= |data| && Fits32(version) && Fits32(features)
    ensures PatchFrom(data, offset, version, features) ==
            if offset == |data| then Ok(data)
            else if offset + HEADER > |data| then Err(StructError)
            else if data[offset] == PROCESSOR && offset + ID_OFFSET + ID_SIZE > |data| then Err(StructError)
            else if offset + data[offset + 1] > |data| then Err(ValueError)
            else
              var id := ProcessorId(version, features);
              var patched := if data[offset] == PROCESSOR then Overwrite(data, offset + ID_OFFSET, id) else data;
              match FindDoubleNul(patched, offset + data[offset + 1])
              case None => Err(ValueError)
              case Some(end) => PatchFrom(patched, end + 2, version, features)
  {
    hide Overwrite, ProcessorId, FindDoubleNul;
  }

  method PatchTemplate(expected: array<Byte>, version: int, features: int) returns (error: Option<Error>)
    requires Fits32(version) && Fits32(features)
    modifies expected
    ensures var r := PatchFrom(old(expected[..]), 0, version, features);
      if r.Ok? then error == None && expected[..] == r.value else error == Some(r.error)
  {
    hide Overwrite, ProcessorId, PatchFrom, FindDoubleNul;
    var offset := 0;
    while offset < expected.Length
      invariant offset <= expected.Length
      invariant PatchFrom(expected[..], offset, version, features) == PatchFrom(old(expected[..]), 0, version, features)
      decreases expected.Length - offset
    {
      ghost var data := expected[..];
      PatchUnfolds(data, offset, version, features);
      if offset + HEADER > expected.Length {
        return Some(StructError);
      }
      var kind, length := expected[offset], expected[offset + 1];
      if kind == PROCESSOR {
        if offset + ID_OFFSET + ID_SIZE > expected.Length {
          return Some(StructError);
        }
        SplitId(data, offset + ID_OFFSET, version, features);
        CopyInto(expected, offset + ID_OFFSET, Le32(version));
        CopyInto(expected, offset + ID_OFFSET + 4, Le32(features));
      }
      if offset + length > expected.Length {
        return Some(ValueError);
      }
      var found := FindDoubleNul(expected[..], offset + length);
      if found.None? {
        return Some(ValueError);
      }
      offset := found.value + 2;
    }
    PatchUnfolds(expected[..], offset, version, features);
    return None;
  }

  // ----- what the pass means for the records -----

  /** The record with the Processor ID written, when it is a Type 4 record. */
  function PatchRecord(r: Record, version: int, features: int): (p: Record)
    requires Fits32(version) && Fits32(features)
    ensures p.kind == r.kind && p.handle == r.handle && p.strings == r.strings
    ensures r.kind != PROCESSOR ==> p == r
  {
    if r.kind == PROCESSOR && |r.body| >= 12 then
      r.(body := Overwrite(r.body, ID_OFFSET - HEADER, ProcessorId(version, features)))
    else r
  }

  function PatchRecords(records: seq<Record>, version: int, features: int): (p: seq<Record>)
    requires Fits32(version) && Fits32(features)
    ensures |p| == |records|
  {
    if records == [] then []
    else [PatchRecord(records[0], version, features)] + PatchRecords(records[1..], version, features)
  }

  /** A Type 4 record that still holds the run-time placeholder. */
  predicate HasPlaceholder(r: Record) {
    |r.body| >= 12 && r.body[4..12] == PLACEHOLDER
  }

  predicate Finalizable(records: seq<Record>) {
    forall i :: 0 <= i < |records| && records[i].kind == PROCESSOR ==> HasPlaceholder(records[i])
  }

  /** Every byte of a Type 4 body outside offsets 8 to 15 of its structure stays. */
  lemma PatchedBody(r: Record, version: int, features: int)
    requires Fits32(version) && Fits32(features)
    ensures var p := PatchRecord(r, version, features);
      && |p.body| == |r.body|
      && (forall k :: 0 <= k < |r.body| && !(4 <= k < 12) ==> p.body[k] == r.body[k])
      && (r.kind == PROCESSOR && |r.body| >= 12 ==> p.body[4..12] == ProcessorId(version, features))
      && (Layable(r) ==> Layable(p))
  {
  }

  lemma {:induction false} PatchRecordsAt(records: seq<Record>, version: int, features: int, i: nat)
    requires Fits32(version) && Fits32(features) && i < |records|
    ensures PatchRecords(records, version, features)[i] == PatchRecord(records[i], version, features)
    decreases |records|
  {
    if i > 0 {
      PatchRecordsAt(records[1..], version, features, i - 1);
    }
  }

  lemma PatchRecordsLayable(records: seq<Record>, version: int, features: int)
    requires Fits32(version) && Fits32(features) && AllLayable(records)
    ensures AllLayable(PatchRecords(records, version, features))
  {
    hide Layable, PatchRecord, PatchRecords;
    forall i | 0 <= i < |records|
      ensures Layable(PatchRecords(records, version, features)[i])
    {
      PatchRecordsAt(records, version, features, i);
      PatchedBody(records[i], version, features);
    }
  }

  lemma OverwriteMiddle(pre: seq<Byte>, a: seq<Byte>, b: seq<Byte>, c: seq<Byte>, post: seq<Byte>, bytes: seq<Byte>)
    requires |b| == |bytes|
    ensures Overwrite(pre + (a + b + c) + post, |pre| + |a|, bytes) == pre + (a + bytes + c) + post
  {
    var data := pre + (a + b + c) + post;
    assert data == (pre + a) + b + (c + post);
    assert data[..|pre| + |a|] == pre + a && data[|pre| + |a| + |bytes|..] == c + post;
  }

  function Front(r: Record): seq<Byte>
    requires Layable(r) && |r.body| >= 12
  {
    Header(r.kind, |r.body| + HEADER, r.handle) + r.body[..4]
  }

  function Back(r: Record): seq<Byte>
    requires Layable(r) && |r.body| >= 12
  {
    r.body[12..] + (Join(r.strings, 0) + [0, 0])
  }

  lemma LayParts(r: Record)
    requires Layable(r) && |r.body| >= 12
    ensures |Front(r)| == ID_OFFSET && Lay(r) == Front(r) + r.body[4..12] + Back(r)
  {
    assert r.body == r.body[..4] + r.body[4..12] + r.body[12..];
    var header, area := Header(r.kind, |r.body| + HEADER, r.handle), Join(r.strings, 0) + [0, 0];
    assert header + (r.body[..4] + r.body[4..12] + r.body[12..]) + area
        == (header + r.body[..4]) + r.body[4..12] + (r.body[12..] + area);
  }

  /** Patching the bytes of a laid-out Type 4 record lays out the patched record. */
  lemma LayPatched(pre: seq<Byte>, r: Record, post: seq<Byte>, version: int, features: int)
    requires Fits32(version) && Fits32(features) && Layable(r) && |r.body| >= 12 && r.kind == PROCESSOR
    ensures Layable(PatchRecord(r, version, features))
    ensures |Lay(PatchRecord(r, version, features))| == |Lay(r)|
    ensures |pre| + ID_OFFSET + ID_SIZE <= |pre + Lay(r) + post|
    ensures Overwrite(pre + Lay(r) + post, |pre| + ID_OFFSET, ProcessorId(version, features))
            == pre + Lay(PatchRecord(r, version, features)) + post
  {
    var p, id := PatchRecord(r, version, features), ProcessorId(version, features);
    PatchedBody(r, version, features);
    LayParts(r);
    LayParts(p);
    SameEnds(r, p);
    assert p.body[4..12] == id;
    hide Lay, Layable, PatchRecord, Front, Back, Overwrite, ProcessorId;
    OverwriteMiddle(pre, Front(r), r.body[4..12], Back(r), post, id);
  }

  lemma SameEnds(r: Record, p: Record)
    requires Layable(r) && Layable(p) && |r.body| >= 12 && |p.body| == |r.body|
    requires p.kind == r.kind && p.handle == r.handle && p.strings == r.strings
    requires forall k :: 0 <= k < |r.body| && !(4 <= k < 12) ==> p.body[k] == r.body[k]
    ensures Front(p) == Front(r) && Back(p) == Back(r)
  {
    assert p.body[..4] == r.body[..4] && p.body[12..] == r.body[12..];
  }

  /** What a laid-out record shows to a walker standing on it. */
  lemma StandOn(pre: seq<Byte>, r: Record, post: seq<Byte>)
    requires Layable(r)
    ensures var data, c := pre + Lay(r) + post, CellOf(r, |pre|);
      && |pre| < |data| && CellAt(data, |pre|) == Some(c) && |pre| + HEADER <= |data|
      && data[|pre|] == r.kind && data[|pre| + 1] == c.length == |r.body| + HEADER && c.start + c.length <= |data|
      && c.end + 2 == |pre + Lay(r)| <= |data|
      && FindDoubleNul(data, |pre| + c.length) == Some(c.end)
      && (|r.body| >= 12 ==>
            |pre| + ID_OFFSET + ID_SIZE <= |data|
            && data[|pre| + ID_OFFSET..|pre| + ID_OFFSET + ID_SIZE] == r.body[4..12])
  {
    var data := pre + Lay(r) + post;
    assert data[|pre|..|pre| + |Lay(r)|] == Lay(r);
    LaidIsFound(data, |pre|, r);
    HeaderOf(data, pre, r, post);
  }

  lemma HeaderOf(data: seq<Byte>, pre: seq<Byte>, r: Record, post: seq<Byte>)
    requires Layable(r) && data == pre + Lay(r) + post
    ensures |data| >= |pre| + |r.body| + HEADER
    ensures data[|pre|] == r.kind && data[|pre| + 1] == |r.body| + HEADER
    ensures |r.body| >= 12 ==> data[|pre| + ID_OFFSET..|pre| + ID_OFFSET + ID_SIZE] == r.body[4..12]
  {
    var f := Formatted(r);
    assert data == pre + f + (Join(r.strings, 0) + [0, 0] + post);
    assert forall k :: 0 <= k < |f| ==> data[|pre| + k] == f[k];
    assert data[|pre| + 0] == f[0] && data[|pre| + 1] == f[1];
    if |r.body| >= 12 {
      assert data[|pre| + ID_OFFSET..|pre| + ID_OFFSET + ID_SIZE] == f[ID_OFFSET..ID_OFFSET + ID_SIZE];
      assert f[ID_OFFSET..ID_OFFSET + ID_SIZE] == f[HEADER..][4..12];
    }
  }

  lemma NothingToFinalize()
    ensures Finalizable([])
  {
  }

  lemma FinalizableCons(records: seq<Record>)
    requires records != []
    ensures Finalizable(records)
       <==> (records[0].kind == PROCESSOR ==> HasPlaceholder(records[0])) && Finalizable(records[1..])
  {
    hide HasPlaceholder;
    var rest := records[1..];
    assert forall i :: 0 <= i < |rest| ==> rest[i] == records[i + 1];
    assert forall i :: 1 <= i < |records| ==> records[i] == rest[i - 1];
  }

  /**
   The in-place pass over a serialised list succeeds exactly when every Type 4 record holds its
   placeholder, and then the tables are the serialised list of patched records: boundaries,
   handles and strings are those of the input.
   */
  lemma {:induction false} FinalizeRecords(pre: seq<Byte>, records: seq<Record>, version: int, features: int)
    requires Fits32(version) && Fits32(features) && AllLayable(records)
    ensures FinalizeFrom(pre + Serialize(records), |pre|, version, features).0 <==> Finalizable(records)
    ensures AllLayable(PatchRecords(records, version, features))
    ensures Finalizable(records) ==>
      FinalizeFrom(pre + Serialize(records), |pre|, version, features).1
      == pre + Serialize(PatchRecords(records, version, features))
    decreases |records|
  {
    hide FinalizeFrom, Lay, Layable, PatchRecord, Overwrite, ProcessorId, CellOf, HasPlaceholder, Finalizable;
    PatchRecordsLayable(records, version, features);
    if records == [] {
      NothingToFinalize();
      FinalizeEnd(pre, version, features);
      assert pre + Serialize(records) == pre;
      assert pre + Serialize(PatchRecords(records, version, features)) == pre;
    } else {
      var r, rest := records[0], records[1..];
      var p, post := PatchRecord(r, version, features), Serialize(rest);
      var data := pre + Serialize(records);
      assert data == pre + Lay(r) + post;
      FinalizableCons(records);
      StandOn(pre, r, post);
      FinalizeStep(data, |pre|, version, features);
      PlaceholderSeen(data, |pre|, r);
      PatchedBody(r, version, features);
      if r.kind != PROCESSOR {
        FinalizeRecords(pre + Lay(r), rest, version, features);
        ConsPatched(pre, records, version, features);
      } else if HasPlaceholder(r) {
        LayPatched(pre, r, post, version, features);
        FinalizeRecords(pre + Lay(p), rest, version, features);
        assert |pre + Lay(p)| == |pre + Lay(r)|;
        ConsPatched(pre, records, version, features);
      }
    }
  }

  lemma PlaceholderSeen(data: seq<Byte>, offset: nat, r: Record)
    requires |r.body| >= 12 ==>
      offset + ID_OFFSET + ID_SIZE <= |data| && data[offset + ID_OFFSET..offset + ID_OFFSET + ID_SIZE] == r.body[4..12]
    ensures HasPlaceholder(r)
       <==> (|r.body| + HEADER >= ID_OFFSET + ID_SIZE
             && data[offset + ID_OFFSET..offset + ID_OFFSET + ID_SIZE] == PLACEHOLDER)
    ensures HasPlaceholder(r) ==> |r.body| >= 12
  {
  }

  lemma ConsPatched(pre: seq<Byte>, records: seq<Record>, version: int, features: int)
    requires Fits32(version) && Fits32(features) && AllLayable(records) && records != []
    requires AllLayable(PatchRecords(records, version, features))
    ensures var p := PatchRecord(records[0], version, features);
      var rest := PatchRecords(records[1..], version, features);
      Layable(p) && AllLayable(rest)
      && pre + Serialize(PatchRecords(records, version, features)) == pre + Lay(p) + Serialize(rest)
  {
    hide Layable, Lay, PatchRecord;
    var p, rest := PatchRecord(records[0], version, features), PatchRecords(records[1..], version, features);
    assert PatchRecords(records, version, features) == [p] + rest;
    assert ([p] + rest)[1..] == rest;
    assert ([p] + rest)[0] == p;
    assert forall i :: 0 <= i < |rest| ==> rest[i] == ([p] + rest)[i + 1];
  }

  lemma PatchStep(data: seq<Byte>, offset: nat, version: int, features: int, c: Cell, patched: seq<Byte>)
    requires Fits32(version) && Fits32(features) && offset + HEADER <= |data|
    requires data[offset + 1] == c.length && offset + c.length <= |data|
    requires data[offset] == PROCESSOR ==>
      offset + ID_OFFSET + ID_SIZE <= |data|
        && patched == Overwrite(data, offset + ID_OFFSET, ProcessorId(version, features))
    requires data[offset] != PROCESSOR ==> patched == data
    requires |patched| == |data| && FindDoubleNul(patched, offset + c.length) == Some(c.end)
    ensures c.end + 2 <= |patched|
    ensures PatchFrom(data, offset, version, features) == PatchFrom(patched, c.end + 2, version, features)
  {
  }

  lemma PatchFirst(pre: seq<Byte>, r: Record, post: seq<Byte>, version: int, features: int)
    requires Fits32(version) && Fits32(features) && Layable(r) && (r.kind == PROCESSOR ==> |r.body| >= 12)
    ensures Layable(PatchRecord(r, version, features))
    ensures var p := PatchRecord(r, version, features);
            PatchFrom(pre + Lay(r) + post, |pre|, version, features)
              == PatchFrom(pre + Lay(p) + post, |pre + Lay(p)|, version, features)
  {
    hide Lay, Layable, Overwrite, ProcessorId, CellOf, FindDoubleNul, PatchFrom, CellAt;
    var p := PatchRecord(r, version, features);
    PatchedBody(r, version, features);
    StandOn(pre, r, post);
    if r.kind == PROCESSOR {
      LayPatched(pre, r, post, version, features);
      StandOn(pre, p, post);
      SameCell(r, p, |pre|);
    }
    assert |pre + Lay(p)| == |pre + Lay(r)|;
    PatchStep(pre + Lay(r) + post, |pre|, version, features, CellOf(r, |pre|), pre + Lay(p) + post);
  }

  /** The checker's patch of a serialised template gives the same patched list. */
  lemma {:induction false} PatchTemplateRecords(pre: seq<Byte>, records: seq<Record>, version: int, features: int)
    requires Fits32(version) && Fits32(features) && AllLayable(records)
    requires forall i :: 0 <= i < |records| && records[i].kind == PROCESSOR ==> |records[i].body| >= 12
    ensures AllLayable(PatchRecords(records, version, features))
    ensures PatchFrom(pre + Serialize(records), |pre|, version, features)
            == Ok(pre + Serialize(PatchRecords(records, version, features)))
    decreases |records|
  {
    hide Lay, Layable, PatchRecord, Overwrite, ProcessorId, CellOf, FindDoubleNul, PatchFrom;
    PatchRecordsLayable(records, version, features);
    if records == [] {
      assert pre + Serialize(records) == pre;
      assert pre + Serialize(PatchRecords(records, version, features)) == pre;
      PatchEnd(pre, version, features);
    } else {
      var r, rest := records[0], records[1..];
      assert pre + Serialize(records) == pre + Lay(r) + Serialize(rest);
      assert forall i :: 0 <= i < |rest| ==> rest[i] == records[i + 1];
      PatchFirst(pre, r, Serialize(rest), version, features);
      PatchTemplateRecords(pre + Lay(PatchRecord(r, version, features)), rest, version, features);
      ConsPatched(pre, records, version, features);
    }
  }

  lemma PatchEnd(data: seq<Byte>, version: int, features: int)
    requires Fits32(version) && Fits32(features)
    ensures PatchFrom(data, |data|, version, features) == Ok(data)
  {
  }

  lemma SameCell(r: Record, p: Record, start: nat)
    requires |p.body| == |r.body| && p.strings == r.strings
    ensures CellOf(p, start) == CellOf(r, start)
  {
  }

  /** Once the pass has written a nonzero EAX into some Type 4 record, it refuses to run again. */
  lemma SecondPassRefused(records: seq<Record>, version: int, features: int, version2: int, features2: int)
    requires Fits32(version) && Fits32(features) && Fits32(version2) && Fits32(features2) && version != 0
    requires AllLayable(records) && Finalizable(records)
    requires exists i :: 0 <= i < |records| && records[i].kind == PROCESSOR
    ensures AllLayable(PatchRecords(records, version, features))
    ensures !FinalizeFrom(Serialize(PatchRecords(records, version, features)), 0, version2, features2).0
  {
    var patched := PatchRecords(records, version, features);
    PatchRecordsLayable(records, version, features);
    var i :| 0 <= i < |records| && records[i].kind == PROCESSOR;
    PatchRecordsAt(records, version, features, i);
    PatchedBody(records[i], version, features);
    NonzeroId(version, features);
    FinalizeRecords([], patched, version2, features2);
    assert [] + Serialize(patched) == Serialize(patched);
    assert !HasPlaceholder(patched[i]);
  }

  lemma NonzeroId(version: int, features: int)
    requires Fits32(version) && Fits32(features) && version != 0
    ensures ProcessorId(version, features) != PLACEHOLDER
  {
    var id := ProcessorId(version, features);
    ReadLe32([], version, Le32(features));
    assert [] + Le32(version) + Le32(features) == id;
    assert U32At(id, 0) == version;
    assert U32At(PLACEHOLDER, 0) == 0;
  }

  // ----- the written registers, read back -----

  /** Read as little-endian words, offset 8 holds EAX and offset 12 EDX; every other byte is as it was. */
  predicate Carries(p: Record, r: Record, version: int, features: int)
    requires Layable(p) && Layable(r)
  {
    var f, was := Formatted(p), Formatted(r);
    && |f| == |was| >= 16 && U32At(f, 8) == version && U32At(f, 12) == features && p.strings == r.strings
    && forall k :: 0 <= k < |f| && !(8 <= k < 16) ==> f[k] == was[k]
  }

  lemma IdReads(body: seq<Byte>, version: int, features: int)
    requires Fits32(version) && Fits32(features) && |body| >= 12 && body[4..12] == ProcessorId(version, features)
    ensures U32At(body, 4) == version && U32At(body, 8) == features
  {
    hide Le32, U32At;
    var pre, post := body[..4], body[12..];
    assert body == pre + Le32(version) + (Le32(features) + post);
    ReadLe32(pre, version, Le32(features) + post);
    assert body == (pre + Le32(version)) + Le32(features) + post;
    ReadLe32(pre + Le32(version), features, post);
  }

  lemma PatchedCarries(r: Record, version: int, features: int)
    requires Fits32(version) && Fits32(features) && Layable(r) && r.kind == PROCESSOR && |r.body| >= 12
    ensures Layable(PatchRecord(r, version, features))
    ensures Carries(PatchRecord(r, version, features), r, version, features)
  {
    hide PatchRecord, ProcessorId, Layable, Formatted;
    PatchedBody(r, version, features);
    var p := PatchRecord(r, version, features);
    IdReads(p.body, version, features);
    var f, was := Formatted(p), Formatted(r);
    SameFront(p, r);
    FormattedIs(p);
    FormattedIs(r);
    assert U32At(f, 8) == U32At(p.body, 4) && U32At(f, 12) == U32At(p.body, 8);
  }

  lemma FormattedIs(r: Record)
    requires Layable(r)
    ensures forall k :: HEADER <= k < |r.body| + HEADER ==> Formatted(r)[k] == r.body[k - HEADER]
  {
  }

  lemma SameFront(p: Record, r: Record)
    requires Layable(p) && Layable(r) && p.kind == r.kind && p.handle == r.handle && |p.body| == |r.body|
    ensures forall k :: 0 <= k < HEADER ==> Formatted(p)[k] == Formatted(r)[k]
  {
  }

  /** A successful pass found eight zero bytes in every processor, and left its registers there and nothing else. */
  lemma PassWrites(records: seq<Record>, version: int, features: int) returns (patched: seq<Record>)
    requires Fits32(version) && Fits32(features) && AllLayable(records)
    requires FinalizeFrom(Serialize(records), 0, version, features).0
    ensures AllLayable(patched) && FinalizeFrom(Serialize(records), 0, version, features) == (true, Serialize(patched))
    ensures |patched| == |records|
    ensures forall i :: 0 <= i < |records| && records[i].kind != 4 ==> patched[i] == records[i]
    ensures forall i :: 0 <= i < |records| && records[i].kind == 4 ==>
      |records[i].body| >= 12 && (forall k :: 4 <= k < 12 ==> records[i].body[k] == 0)
      && Carries(patched[i], records[i], version, features)
  {
    hide FinalizeFrom, Layable, PatchRecord, PatchRecords, ProcessorId, Carries;
    patched := PatchRecords(records, version, features);
    FinalizeRecords([], records, version, features);
    assert [] + Serialize(records) == Serialize(records);
    assert [] + Serialize(patched) == Serialize(patched);
    forall i | 0 <= i < |records|
      ensures records[i].kind != 4 ==> patched[i] == records[i]
      ensures records[i].kind == 4 ==>
        |records[i].body| >= 12 && (forall k :: 4 <= k < 12 ==> records[i].body[k] == 0)
        && Carries(patched[i], records[i], version, features)
    {
      PatchRecordsAt(records, version, features, i);
      if records[i].kind == 4 {
        assert HasPlaceholder(records[i]);
        ZeroPlaceholder(records[i].body);
        PatchedCarries(records[i], version, features);
      }
    }
  }

  lemma ZeroPlaceholder(body: seq<Byte>)
    requires |body| >= 12 && body[4..12] == PLACEHOLDER
    ensures forall k :: 4 <= k < 12 ==> body[k] == 0
  {
    forall k | 4 <= k < 12
      ensures body[k] == 0
    {
      assert body[k] == body[4..12][k - 4];
    }
  }
}

/** `validate_tables`: the rules every structure of a finished stream has to meet. */
module TableRules {
  import opened Outcomes
  import opened Bytes
  import opened Structures
  import opened Walkers

  /** What the rules take from the profile. */
  datatype Facts = Facts(sockets: int, cores: int, enabled: int, threads: int, deviceSlots: int, battery: bool)

  /** The bitwise `a & b`. */
  function BitAnd(a: nat, b: nat): nat {
    if a == 0 || b == 0 then 0 else 2 * BitAnd(a / 2, b / 2) + (if a % 2 == 1 && b % 2 == 1 then 1 else 0)
  }

  const MINIMUM: map<int, nat> := map[0 := 26, 1 := 27, 2 := 15, 3 := 22, 4 := 48, 8 := 9, 9 := 17, 11 := 5,
    12 := 5, 13 := 22, 16 := 23, 17 := 92, 19 := 31, 20 := 35, 22 := 26, 32 := 11, 127 := 4]

  const SINGLE: set<Byte> := {0, 1, 2, 3, 16, 32, 127}

  /** The offsets that hold string numbers. */
  function StringOffsets(kind: Byte): seq<nat> {
    match kind
    case 0 => [4, 5, 8]
    case 1 => [4, 5, 6, 7, 25, 26]
    case 2 => [4, 5, 6, 7, 8, 10]
    case 3 => [4, 6, 7, 8]
    case 4 => [4, 7, 16, 32, 33, 34]
    case 8 => [4, 6]
    case 9 => [4]
    case 13 => [21]
    case 17 => [16, 17, 23, 24, 25, 26, 43]
    case 22 => [4, 5, 6, 7, 8, 14, 20]
    case _ => []
  }

  /** The offsets that hold handles, and the type each must resolve to. */
  function References(kind: Byte): seq<(nat, Byte)> {
    match kind
    case 2 => [(11, 3)]
    case 4 => [(26, 7), (28, 7), (30, 7)]
    case 17 => [(4, 16)]
    case 19 => [(12, 16)]
    case 20 => [(12, 17), (14, 19)]
    case _ => []
  }

  predicate ZeroFrom(f: seq<Byte>, from: nat, to: nat)
    requires from <= to <= |f|
  {
    forall k :: from <= k < to ==> f[k] == 0
  }

  function Least255(v: int): int {
    if v < 255 then v else 255
  }

  /** The rules of one type beyond lengths, string numbers and references. */
  predicate KindRules(kind: Byte, f: seq<Byte>, strings: nat, facts: Facts)
    requires kind as int in MINIMUM && |f| >= MINIMUM[kind as int]
  {
    match kind
    case 2 => BitAnd(f[9], 0xE0) == 0 && f[14] == 0
    case 3 => f[19] == 0 && f[20] == 0 && f[21] as int <= strings
    case 4 =>
      BitAnd(f[24], 0xB8) == 0 && BitAnd(f[24], 7) == 1
      && U16At(f, 42) == facts.cores && U16At(f, 44) == facts.enabled && U16At(f, 46) == facts.threads
      && f[35] as int == Least255(facts.cores) && f[36] as int == Least255(facts.enabled)
      && f[37] as int == Least255(facts.threads)
    case 9 =>
      f[7] == 2 && f[13] == 0xFF && f[14] == 0xFF && f[15] == 0xFF && f[16] == 0xFF
      && |f| <= 19 && (|f| == 19 ==> f[18] == 0)
    case 11 => f[4] as int == strings
    case 12 => f[4] as int == strings
    case 13 => f[4] as int == strings && BitAnd(f[5], 0xFE) == 0 && ZeroFrom(f, 6, 21)
    case 32 => ZeroFrom(f, 4, |f|)
    case _ => true
  }

  /** Everything `validate_tables` asks of one structure by itself. */
  predicate ShapeOk(kind: Byte, f: seq<Byte>, strings: nat, facts: Facts) {
    && kind as int in MINIMUM
    && |f| >= MINIMUM[kind as int]
    && (kind != 9 ==> |f| == MINIMUM[kind as int])
    && (forall i ::
         0 <= i < |StringOffsets(kind)| ==> StringOffsets(kind)[i] < |f| && f[StringOffsets(kind)[i]] as int <= strings)
    && KindRules(kind, f, strings, facts)
  }

  predicate Resolves(tables: seq<Table>, handle: nat, kind: Byte) {
    exists i :: 0 <= i < |tables| && tables[i].handle == handle && tables[i].kind == kind
  }

  /** Every handle a structure refers to is that of a structure of the right type. */
  predicate RefsOk(tables: seq<Table>, t: Table) {
    forall i :: 0 <= i < |References(t.kind)| ==>
      var ref := References(t.kind)[i];
      ref.0 + 2 <= |t.formatted|
      && ((t.kind == 4 && U16At(t.formatted, ref.0) == 0xFFFF) || Resolves(tables, U16At(t.formatted, ref.0), ref.1))
  }

  predicate CountsOk(tables: seq<Table>, facts: Facts) {
    && (forall kind :: kind in SINGLE ==> KindCount(tables, kind) == 1)
    && KindCount(tables, 4) == facts.sockets && KindCount(tables, 17) == facts.deviceSlots
    && KindCount(tables, 22) == if facts.battery then 1 else 0
  }

  predicate TablesOk(tables: seq<Table>, facts: Facts) {
    && CountsOk(tables, facts)
    && forall i :: 0 <= i < |tables| ==>
      ShapeOk(tables[i].kind, tables[i].formatted, |tables[i].strings|, facts) && RefsOk(tables, tables[i])
  }

  function ValidateTables(data: seq<Byte>, facts: Facts): Result<()> {
    match Parsed(data)
    case None => Err(ValueError)
    case Some(tables) => if TablesOk(tables, facts) then Ok(()) else Err(ValueError)
  }

  /**
   Two lists of tables that differ at most in bytes 8 to 15 of Type 4 structures are accepted
   together: the rules do not look at the Processor ID.
   */
  ghost predicate SameButId(a: Table, b: Table) {
    && a.kind == b.kind && a.handle == b.handle && a.strings == b.strings && |a.formatted| == |b.formatted|
    && (forall k :: 0 <= k < |a.formatted| && !(a.kind == 4 && 8 <= k < 16) ==> a.formatted[k] == b.formatted[k])
  }

  lemma {:induction false} SameCount(a: seq<Table>, b: seq<Table>, kind: Byte)
    requires |a| == |b| && forall i :: 0 <= i < |a| ==> a[i].kind == b[i].kind
    ensures KindCount(a, kind) == KindCount(b, kind)
    decreases |a|
  {
    if a != [] {
      SameCount(a[1..], b[1..], kind);
    }
  }

  lemma SameShape(a: Table, b: Table, facts: Facts)
    requires SameButId(a, b) && ShapeOk(a.kind, a.formatted, |a.strings|, facts)
    ensures ShapeOk(b.kind, b.formatted, |b.strings|, facts)
  {
    if a.kind == 4 {
      var f, g := a.formatted, b.formatted;
      assert f[4] == g[4] && f[7] == g[7] && f[16] == g[16] && f[24] == g[24];
      assert f[32] == g[32] && f[33] == g[33] && f[34] == g[34] && f[35] == g[35] && f[36] == g[36] && f[37] == g[37];
      assert U16At(f, 42) == U16At(g, 42) && U16At(f, 44) == U16At(g, 44) && U16At(f, 46) == U16At(g, 46);
    } else {
      assert a.formatted == b.formatted;
    }
  }

  lemma SameRefs(a: seq<Table>, b: seq<Table>, i: nat)
    requires |a| == |b| && i < |a| && forall k :: 0 <= k < |a| ==> SameButId(a[k], b[k])
    requires RefsOk(a, a[i])
    ensures RefsOk(b, b[i])
  {
    var t, u := a[i], b[i];
    assert SameButId(t, u);
    forall k | 0 <= k < |References(u.kind)|
      ensures var ref := References(u.kind)[k];
        ref.0 + 2 <= |u.formatted|
        && ((u.kind == 4 && U16At(u.formatted, ref.0) == 0xFFFF) || Resolves(b, U16At(u.formatted, ref.0), ref.1))
    {
      var ref := References(t.kind)[k];
      assert t.kind == 4 ==> ref.0 >= 26;
      assert U16At(t.formatted, ref.0) == U16At(u.formatted, ref.0);
      if Resolves(a, U16At(t.formatted, ref.0), ref.1) {
        var j :| 0 <= j < |a| && a[j].handle == U16At(t.formatted, ref.0) && a[j].kind == ref.1;
        assert SameButId(a[j], b[j]);
      }
    }
  }

  lemma SameRules(a: seq<Table>, b: seq<Table>, facts: Facts)
    requires |a| == |b| && (forall i :: 0 <= i < |a| ==> SameButId(a[i], b[i])) && TablesOk(a, facts)
    ensures TablesOk(b, facts)
  {
    hide ShapeOk, RefsOk;
    forall kind: Byte
      ensures KindCount(b, kind) == KindCount(a, kind)
    {
      SameCount(a, b, kind);
    }
    forall i | 0 <= i < |b|
      ensures ShapeOk(b[i].kind, b[i].formatted, |b[i].strings|, facts) && RefsOk(b, b[i])
    {
      SameShape(a[i], b[i], facts);
      SameRefs(a, b, i);
    }
  }
}

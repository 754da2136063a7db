/** The rules of a finished stream, type by type, and which lists of structures meet them. */
module RuleMeanings {
  import opened Bytes
  import opened Structures
  import opened Walkers
  import opened TableRules

  /** The offset holds no string number beyond the strings there are. */
  predicate Numbered(t: Table, offset: nat) {
    offset < |t.formatted| && t.formatted[offset] as int <= |t.strings|
  }

  /** The word at the offset is the handle of a structure of the type. */
  predicate RefersTo(tables: seq<Table>, t: Table, offset: nat, kind: int) {
    && offset + 2 <= |t.formatted|
    && exists i :: 0 <= i < |tables| && tables[i].handle == U16At(t.formatted, offset) && tables[i].kind as int == kind
  }

  /** A cache reference is absent or stands for a Type 7 structure. */
  predicate CacheRef(tables: seq<Table>, t: Table, offset: nat) {
    && offset + 2 <= |t.formatted|
    && (U16At(t.formatted, offset) == 0xFFFF || RefersTo(tables, t, offset, 7))
  }

  predicate Zeros(f: seq<Byte>, from: nat, to: nat) {
    to <= |f| && forall k :: from <= k < to ==> f[k] == 0
  }

  function AtMost255(v: int): int {
    if v > 255 then 255 else v
  }

  // ----- the types -----

  predicate BiosRule(t: Table) {
    |t.formatted| == 26 && Numbered(t, 4) && Numbered(t, 5) && Numbered(t, 8)
  }

  predicate SystemRule(t: Table) {
    && |t.formatted| == 27 && Numbered(t, 4) && Numbered(t, 5) && Numbered(t, 6) && Numbered(t, 7) && Numbered(t, 25)
    && Numbered(t, 26)
  }

  /** A board has flags in its low five bits only, no contained objects, and a chassis. */
  predicate BoardRule(t: Table, tables: seq<Table>) {
    && |t.formatted| == 15 && Numbered(t, 4) && Numbered(t, 5) && Numbered(t, 6) && Numbered(t, 7) && Numbered(t, 8)
    && Numbered(t, 10) && t.formatted[9] < 32 && t.formatted[14] == 0 && RefersTo(tables, t, 11, 3)
  }

  predicate ChassisRule(t: Table) {
    && |t.formatted| == 22 && Numbered(t, 4) && Numbered(t, 6) && Numbered(t, 7) && Numbered(t, 8) && Numbered(t, 21)
    && t.formatted[19] == 0 && t.formatted[20] == 0
  }

  /** A processor is enabled, in a socket or not, and counts its cores and threads in both widths. */
  predicate CpuRule(t: Table, tables: seq<Table>, facts: Facts) {
    var f := t.formatted;
    && |f| == 48 && Numbered(t, 4) && Numbered(t, 7) && Numbered(t, 16) && Numbered(t, 32) && Numbered(t, 33)
    && Numbered(t, 34) && (f[24] == 0x01 || f[24] == 0x41)
    && CacheRef(tables, t, 26) && CacheRef(tables, t, 28) && CacheRef(tables, t, 30)
    && U16At(f, 42) == facts.cores && U16At(f, 44) == facts.enabled && U16At(f, 46) == facts.threads
    && f[35] as int == AtMost255(facts.cores) && f[36] as int == AtMost255(facts.enabled)
    && f[37] as int == AtMost255(facts.threads)
  }

  /** A slot has no host address, and no peers. */
  predicate SlotRule(t: Table) {
    var f := t.formatted;
    && 17 <= |f| <= 19 && Numbered(t, 4) && f[7] == 2 && f[13] == 255 && f[14] == 255 && f[15] == 255 && f[16] == 255
    && (|f| == 19 ==> f[18] == 0)
  }

  predicate LanguageRule(t: Table) {
    && |t.formatted| == 22 && t.formatted[4] as int == |t.strings| && t.formatted[5] <= 1 && Zeros(t.formatted, 6, 21)
    && Numbered(t, 21)
  }

  predicate DeviceRule(t: Table, tables: seq<Table>) {
    && |t.formatted| == 92 && Numbered(t, 16) && Numbered(t, 17) && Numbered(t, 23) && Numbered(t, 24)
    && Numbered(t, 25)
    && Numbered(t, 26) && Numbered(t, 43) && RefersTo(tables, t, 4, 16)
  }

  predicate BatteryRule(t: Table) {
    && |t.formatted| == 26 && Numbered(t, 4) && Numbered(t, 5) && Numbered(t, 6) && Numbered(t, 7) && Numbered(t, 8)
    && Numbered(t, 14) && Numbered(t, 20)
  }

  predicate OptionsRule(t: Table) {
    |t.formatted| == 5 && t.formatted[4] as int == |t.strings|
  }

  /** The rule of the structure's type; no other type is let through. */
  predicate Meets(t: Table, tables: seq<Table>, facts: Facts) {
    var f := t.formatted;
    match t.kind as int
    case 0 => BiosRule(t)
    case 1 => SystemRule(t)
    case 2 => BoardRule(t, tables)
    case 3 => ChassisRule(t)
    case 4 => CpuRule(t, tables, facts)
    case 8 => |f| == 9 && Numbered(t, 4) && Numbered(t, 6)
    case 9 => SlotRule(t)
    case 11 => OptionsRule(t)
    case 12 => OptionsRule(t)
    case 13 => LanguageRule(t)
    case 16 => |f| == 23
    case 17 => DeviceRule(t, tables)
    case 19 => |f| == 31 && RefersTo(tables, t, 12, 16)
    case 20 => |f| == 35 && RefersTo(tables, t, 12, 17) && RefersTo(tables, t, 14, 19)
    case 22 => BatteryRule(t)
    case 32 => |f| == 11 && Zeros(f, 4, 11)
    case 127 => |f| == 4
    case _ => false
  }

  // ----- bits -----

  lemma BitStep(a: nat, b: nat)
    ensures BitAnd(a, 2 * b) == 2 * BitAnd(a / 2, b) && BitAnd(a, 2 * b + 1) == 2 * BitAnd(a / 2, b) + a % 2
  {
  }

  lemma LowThree(a: nat)
    ensures BitAnd(a, 7) == a % 8
  {
    hide BitAnd;
    BitStep(a, 3);
    BitStep(a / 2, 1);
    BitStep(a / 4, 0);
    assert a / 2 / 2 == a / 4 && a / 4 / 2 == a / 8;
    NoBits(a / 8);
  }

  lemma NoBits(a: nat)
    ensures BitAnd(a, 0) == 0
  {
  }

  lemma ThreeZeros(a: nat, b: nat)
    ensures BitAnd(a, 8 * b) == 8 * BitAnd(a / 8, b)
  {
    hide BitAnd;
    BitStep(a, 4 * b);
    BitStep(a / 2, 2 * b);
    BitStep(a / 4, b);
    assert a / 2 / 2 == a / 4 && a / 4 / 2 == a / 8;
  }

  lemma BoardFlags(a: Byte)
    ensures BitAnd(a, 0xE0) == 0 <==> a < 32
  {
    hide BitAnd;
    ThreeZeros(a, 28);
    BitStep(a / 8, 14);
    BitStep(a / 16, 7);
    assert a as int / 8 / 2 == a / 16 && a as int / 16 / 2 == a / 32;
    LowThree(a / 32);
  }

  lemma LanguageFlags(a: Byte)
    ensures BitAnd(a, 0xFE) == 0 <==> a <= 1
  {
    hide BitAnd;
    BitStep(a, 0x7F);
    var b := a as int / 2;
    BitStep(b, 0x3F);
    BitStep(b / 2, 0x1F);
    BitStep(b / 4, 0xF);
    BitStep(b / 8, 7);
    LowThree(b / 16);
    assert b / 2 / 2 == b / 4 && b / 4 / 2 == b / 8 && b / 8 / 2 == b / 16;
  }

  lemma StatusBits(a: Byte)
    ensures BitAnd(a, 0xB8) == 0 && BitAnd(a, 7) == 1 <==> a == 0x01 || a == 0x41
  {
    hide BitAnd;
    LowThree(a);
    ThreeZeros(a, 0x17);
    var b := a as int / 8;
    BitStep(b, 0xB);
    BitStep(b / 2, 5);
    BitStep(b / 4, 2);
    BitStep(b / 8, 1);
    BitStep(b / 16, 0);
    NoBits(b / 32);
    assert b / 2 / 2 == b / 4 && b / 4 / 2 == b / 8 && b / 8 / 2 == b / 16 && b / 16 / 2 == b / 32;
  }

  // ----- one structure -----

  predicate Passes(t: Table, tables: seq<Table>, facts: Facts) {
    ShapeOk(t.kind, t.formatted, |t.strings|, facts) && RefsOk(tables, t)
  }

  lemma ResolvesMeans(tables: seq<Table>, t: Table, offset: nat, kind: Byte)
    requires offset + 2 <= |t.formatted|
    ensures Resolves(tables, U16At(t.formatted, offset), kind) <==> RefersTo(tables, t, offset, kind as int)
  {
  }

  /** The offsets of string numbers one by one. */
  predicate AllNumbered(t: Table, offsets: seq<nat>) {
    if offsets == [] then true else Numbered(t, offsets[0]) && AllNumbered(t, offsets[1..])
  }

  lemma {:induction false} OffsetsMean(t: Table, offsets: seq<nat>)
    ensures AllNumbered(t, offsets)
       <==> forall i :: 0 <= i < |offsets| ==>
         offsets[i] < |t.formatted| && t.formatted[offsets[i]] as int <= |t.strings|
    decreases |offsets|
  {
    if offsets != [] {
      OffsetsMean(t, offsets[1..]);
      assert forall i :: 0 < i < |offsets| ==> offsets[i] == offsets[1..][i - 1];
    }
  }

  predicate RefOk(tables: seq<Table>, t: Table, ref: (nat, Byte)) {
    && ref.0 + 2 <= |t.formatted|
    && ((t.kind == 4 && U16At(t.formatted, ref.0) == 0xFFFF) || RefersTo(tables, t, ref.0, ref.1 as int))
  }

  predicate AllRefs(tables: seq<Table>, t: Table, refs: seq<(nat, Byte)>) {
    if refs == [] then true else RefOk(tables, t, refs[0]) && AllRefs(tables, t, refs[1..])
  }

  lemma {:induction false} AllRefsMean(tables: seq<Table>, t: Table, refs: seq<(nat, Byte)>)
    ensures AllRefs(tables, t, refs) <==> forall i :: 0 <= i < |refs| ==> RefOk(tables, t, refs[i])
    decreases |refs|
  {
    hide RefOk;
    if refs != [] {
      AllRefsMean(tables, t, refs[1..]);
      assert forall i :: 0 < i < |refs| ==> refs[i] == refs[1..][i - 1];
    }
  }

  lemma RefsMean(tables: seq<Table>, t: Table)
    ensures RefsOk(tables, t) <==> AllRefs(tables, t, References(t.kind))
  {
    hide References, RefersTo;
    var refs := References(t.kind);
    AllRefsMean(tables, t, refs);
    forall i | 0 <= i < |refs|
      ensures var at, kind := refs[i].0, refs[i].1;
        at + 2 <= |t.formatted| ==>
          (Resolves(tables, U16At(t.formatted, at), kind) <==> RefersTo(tables, t, at, kind as int))
    {
      if refs[i].0 + 2 <= |t.formatted| {
        ResolvesMeans(tables, t, refs[i].0, refs[i].1);
      }
    }
  }

  lemma NoRefs(tables: seq<Table>, t: Table)
    ensures AllRefs(tables, t, [])
  {
  }

  lemma OneRef(tables: seq<Table>, t: Table, a: (nat, Byte))
    ensures AllRefs(tables, t, [a]) <==> RefOk(tables, t, a)
  {
    assert [a][1..] == [];
  }

  lemma TwoRefs(tables: seq<Table>, t: Table, a: (nat, Byte), b: (nat, Byte))
    ensures AllRefs(tables, t, [a, b]) <==> RefOk(tables, t, a) && RefOk(tables, t, b)
  {
    assert [a, b][1..] == [b];
    OneRef(tables, t, b);
  }

  lemma ThreeRefs(tables: seq<Table>, t: Table, a: (nat, Byte), b: (nat, Byte), c: (nat, Byte))
    ensures AllRefs(tables, t, [a, b, c]) <==> RefOk(tables, t, a) && RefOk(tables, t, b) && RefOk(tables, t, c)
  {
    assert [a, b, c][1..] == [b, c];
    TwoRefs(tables, t, b, c);
  }

  lemma Offsets1(t: Table, a: nat)
    ensures AllNumbered(t, [a]) <==> Numbered(t, a)
  {
    assert [a][1..] == [];
  }

  lemma Offsets2(t: Table, a: nat, b: nat)
    ensures AllNumbered(t, [a, b]) <==> Numbered(t, a) && Numbered(t, b)
  {
    hide Numbered;
    assert [a, b][1..] == [b];
    Offsets1(t, b);
  }

  lemma Offsets3(t: Table, a: nat, b: nat, c: nat)
    ensures AllNumbered(t, [a, b, c]) <==> Numbered(t, a) && Numbered(t, b) && Numbered(t, c)
  {
    hide Numbered;
    assert [a, b, c][1..] == [b, c];
    Offsets2(t, b, c);
  }

  lemma Offsets4(t: Table, a: nat, b: nat, c: nat, d: nat)
    ensures AllNumbered(t, [a, b, c, d]) <==> Numbered(t, a) && Numbered(t, b) && Numbered(t, c) && Numbered(t, d)
  {
    hide Numbered;
    assert [a, b, c, d][1..] == [b, c, d];
    Offsets3(t, b, c, d);
  }

  lemma Offsets6(t: Table, a: nat, b: nat, c: nat, d: nat, e: nat, f: nat)
    ensures AllNumbered(t, [a, b, c, d, e, f])
       <==> Numbered(t, a) && Numbered(t, b) && Numbered(t, c) && Numbered(t, d) && Numbered(t, e) && Numbered(t, f)
  {
    hide Numbered;
    assert [a, b, c, d, e, f][1..] == [b, c, d, e, f] && [b, c, d, e, f][1..] == [c, d, e, f];
    Offsets4(t, c, d, e, f);
  }

  lemma Offsets7(t: Table, a: nat, b: nat, c: nat, d: nat, e: nat, f: nat, g: nat)
    ensures AllNumbered(t, [a, b, c, d, e, f, g])
       <==> Numbered(t, a) && Numbered(t, b) && Numbered(t, c) && Numbered(t, d) && Numbered(t, e) && Numbered(t, f)
            && Numbered(t, g)
  {
    hide Numbered;
    assert [a, b, c, d, e, f, g][1..] == [b, c, d, e, f, g];
    Offsets6(t, b, c, d, e, f, g);
  }

  lemma FixedMean(t: Table, tables: seq<Table>, facts: Facts)
    requires t.kind <= 3
    ensures Passes(t, tables, facts) <==> Meets(t, tables, facts)
  {
    hide RefersTo, AllRefs, AllNumbered, BitAnd, Resolves, RefsOk;
    RefsMean(tables, t);
    NoRefs(tables, t);
    OffsetsMean(t, StringOffsets(t.kind));
    match t.kind as int
    case 0 => Offsets3(t, 4, 5, 8);
    case 1 => Offsets6(t, 4, 5, 6, 7, 25, 26);
    case 2 =>
      Offsets6(t, 4, 5, 6, 7, 8, 10);
      OneRef(tables, t, (11, 3));
      if |t.formatted| == 15 {
        BoardFlags(t.formatted[9]);
      }
    case 3 => Offsets4(t, 4, 6, 7, 8);
  }

  lemma CpuMeans(t: Table, tables: seq<Table>, facts: Facts)
    requires t.kind == 4
    ensures Passes(t, tables, facts) <==> Meets(t, tables, facts)
  {
    hide RefersTo, AllRefs, AllNumbered, BitAnd, Resolves, RefsOk, Numbered;
    RefsMean(tables, t);
    OffsetsMean(t, StringOffsets(t.kind));
    Offsets6(t, 4, 7, 16, 32, 33, 34);
    ThreeRefs(tables, t, (26, 7), (28, 7), (30, 7));
    if |t.formatted| == 48 {
      StatusBits(t.formatted[24]);
    }
  }

  lemma CopyMeans(t: Table, tables: seq<Table>, facts: Facts)
    requires t.kind as int in {8, 9, 11, 12, 13}
    ensures Passes(t, tables, facts) <==> Meets(t, tables, facts)
  {
    hide RefersTo, AllRefs, AllNumbered, BitAnd, Resolves, RefsOk;
    RefsMean(tables, t);
    NoRefs(tables, t);
    OffsetsMean(t, StringOffsets(t.kind));
    match t.kind as int
    case 8 => Offsets2(t, 4, 6);
    case 9 => Offsets1(t, 4);
    case 13 =>
      Offsets1(t, 21);
      if |t.formatted| == 22 {
        LanguageFlags(t.formatted[5]);
      }
    case _ => NoOffsets(t);
  }

  lemma NoOffsets(t: Table)
    ensures AllNumbered(t, [])
  {
  }

  lemma MemoryMeans(t: Table, tables: seq<Table>, facts: Facts)
    requires t.kind as int in {16, 17, 19, 20}
    ensures Passes(t, tables, facts) <==> Meets(t, tables, facts)
  {
    hide RefersTo, AllRefs, AllNumbered, Resolves, RefsOk, Numbered;
    RefsMean(tables, t);
    NoRefs(tables, t);
    NoOffsets(t);
    OffsetsMean(t, StringOffsets(t.kind));
    match t.kind as int
    case 16 =>
    case 17 =>
      Offsets7(t, 16, 17, 23, 24, 25, 26, 43);
      OneRef(tables, t, (4, 16));
    case 19 => OneRef(tables, t, (12, 16));
    case 20 => TwoRefs(tables, t, (12, 17), (14, 19));
  }

  lemma OtherMeans(t: Table, tables: seq<Table>, facts: Facts)
    requires t.kind as int !in {0, 1, 2, 3, 4, 8, 9, 11, 12, 13, 16, 17, 19, 20}
    ensures Passes(t, tables, facts) <==> Meets(t, tables, facts)
  {
    hide RefersTo, AllRefs, AllNumbered, Resolves, RefsOk, Numbered;
    RefsMean(tables, t);
    NoRefs(tables, t);
    NoOffsets(t);
    OffsetsMean(t, StringOffsets(t.kind));
    if t.kind == 22 {
      Offsets7(t, 4, 5, 6, 7, 8, 14, 20);
    }
  }

  lemma OneMeans(t: Table, tables: seq<Table>, facts: Facts)
    ensures Passes(t, tables, facts) <==> Meets(t, tables, facts)
  {
    hide Passes, Meets;
    if t.kind <= 3 {
      FixedMean(t, tables, facts);
    } else if t.kind == 4 {
      CpuMeans(t, tables, facts);
    } else if t.kind as int in {8, 9, 11, 12, 13} {
      CopyMeans(t, tables, facts);
    } else if t.kind as int in {16, 17, 19, 20} {
      MemoryMeans(t, tables, facts);
    } else {
      OtherMeans(t, tables, facts);
    }
  }

  // ----- the list -----

  /** The structures of a type, as the set of their places. */
  function Places(tables: seq<Table>, kind: int): set<nat> {
    set i: nat | i < |tables| && tables[i].kind as int == kind
  }

  lemma {:induction false} CountMeans(tables: seq<Table>, kind: Byte)
    ensures KindCount(tables, kind) == |Places(tables, kind as int)|
    decreases |tables|
  {
    if tables == [] {
      assert Places(tables, kind as int) == {};
    } else {
      CountMeans(tables[1..], kind);
      PlacesCons(tables, kind as int);
    }
  }

  lemma PlacesCons(tables: seq<Table>, kind: int)
    requires tables != []
    ensures |Places(tables, kind)| == |Places(tables[1..], kind)| + if tables[0].kind as int == kind then 1 else 0
  {
    var rest, all := Places(tables[1..], kind), Places(tables, kind);
    var later := all - {0};
    forall i: nat
      ensures i in rest <==> i + 1 in later
    {
      assert i + 1 < |tables| ==> tables[1..][i] == tables[i + 1];
    }
    MovedSize(rest, later);
    assert tables[0].kind as int != kind ==> later == all;
  }

  lemma {:induction false} MovedSize(a: set<nat>, moved: set<nat>)
    requires 0 !in moved && forall i: nat :: i in a <==> i + 1 in moved
    ensures |moved| == |a|
    decreases |moved|
  {
    if moved != {} {
      var y :| y in moved;
      var x: nat := y - 1;
      assert x in a;
      MovedSize(a - {x}, moved - {y});
    } else {
      assert forall i :: i !in a;
      assert a == {};
    }
  }

  /** A list of structures is accepted exactly when each meets its rule and the types have the counts of the profile. */
  lemma RulesMean(tables: seq<Table>, facts: Facts)
    ensures TablesOk(tables, facts)
       <==> (forall i :: 0 <= i < |tables| ==> Meets(tables[i], tables, facts))
            && (forall kind :: kind in {0, 1, 2, 3, 16, 32, 127} ==> |Places(tables, kind)| == 1)
            && |Places(tables, 4)| == facts.sockets && |Places(tables, 17)| == facts.deviceSlots
            && |Places(tables, 22)| == if facts.battery then 1 else 0
  {
    hide Meets, ShapeOk, RefsOk, KindCount, Places;
    forall i | 0 <= i < |tables|
      ensures Passes(tables[i], tables, facts) <==> Meets(tables[i], tables, facts)
    {
      OneMeans(tables[i], tables, facts);
    }
    forall kind: Byte
      ensures KindCount(tables, kind) == |Places(tables, kind as int)|
    {
      CountMeans(tables, kind);
    }
  }
}

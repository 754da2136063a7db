/**
 Choosing the DIMMs of a guest: the guards on totals and arrays, and the dynamic program over
 (installed MiB, module count) that picks one vendor's modules for the XML capacity.
 */
module DimmLayout {
  import opened Outcomes
  import opened Sequences
  import opened Sorting

  const MIB := 0x10_0000
  const GIB := 0x4000_0000
  const SMALL := 4096 // a 4 GiB module, in MiB

  /** An inclusive address range. */
  datatype Range = Range(start: int, end: int)

  function Q35Ranges(total: int): Result<seq<Range>> {
    if total < 4 * GIB || total % (4 * GIB) != 0 then Err(ValueError)
    else if total > 512 * GIB then Err(ValueError)
    else Ok([Range(0, 2 * GIB - 1), Range(4 * GIB, total + 2 * GIB - 1)])
  }

  datatype MemoryArray = MemoryArray(location: int, use: int, errorCorrection: int, maximumBytes: int, slots: int)

  predicate ValidModule(size: int) {
    size >= SMALL && size % SMALL == 0
  }

  function ValidateArray(sizes: seq<int>, limits: MemoryArray): Result<()> {
    if !(1 <= limits.slots <= 16) || limits.maximumBytes <= 0 || limits.maximumBytes % 1024 != 0
       || limits.maximumBytes > 0xFFFF_FFFF_FFFF_FFFF then Err(ValueError)
    else if sizes == [] || exists i :: 0 <= i < |sizes| && !ValidModule(sizes[i]) then Err(ValueError)
    else if |sizes| > limits.slots || Sum(sizes) * MIB > limits.maximumBytes then Err(ValueError)
    else Ok(())
  }

  datatype Entry = Entry(vendor: string, part: string)

  /** Module sizes in MiB with the parts on offer. */
  type Catalog = map<int, seq<Entry>>

  predicate Offers(entries: seq<Entry>, vendor: string) {
    exists k :: 0 <= k < |entries| && entries[k].vendor == vendor
  }

  function Vendors(catalog: Catalog): set<string> {
    set size, k | size in catalog && 0 <= k < |catalog[size]| :: catalog[size][k].vendor
  }

  /** The sizes `choose_layout` takes from the catalog for one vendor. */
  function UsableSizes(catalog: Catalog, vendor: string): set<int> {
    set size | size in catalog && ValidModule(size) && Offers(catalog[size], vendor)
  }

  // ----- the order on layouts -----

  function Count4(layout: seq<int>): nat {
    if layout == [] then 0 else (if layout[0] == SMALL then 1 else 0) + Count4(layout[1..])
  }

  /** `tuple(-v for v in a) <= tuple(-v for v in b)`. */
  predicate LargerFirst(a: seq<int>, b: seq<int>) {
    if a == [] then true
    else if b == [] then false
    else a[0] > b[0] || (a[0] == b[0] && LargerFirst(a[1..], b[1..]))
  }

  /** The order in which a state of the program is replaced: fewer 4 GiB modules, then larger modules first. */
  predicate StateLe(a: seq<int>, b: seq<int>) {
    Count4(a) < Count4(b) || (Count4(a) == Count4(b) && LargerFirst(a, b))
  }

  predicate EqualPair(layout: seq<int>) {
    |layout| == 2 && layout[0] == layout[1]
  }

  function PairRank(layout: seq<int>): nat {
    if EqualPair(layout) then 0 else 1
  }

  /** The final key: 4 GiB modules, not an equal pair, length, larger modules first. */
  predicate KeyLe(a: seq<int>, b: seq<int>) {
    Count4(a) < Count4(b) || (Count4(a) == Count4(b) &&
      (PairRank(a) < PairRank(b) || (PairRank(a) == PairRank(b) &&
        (|a| < |b| || (|a| == |b| && LargerFirst(a, b))))))
  }

  lemma {:induction false} LargerFirstReflexive(a: seq<int>)
    ensures LargerFirst(a, a)
  {
    if a != [] {
      LargerFirstReflexive(a[1..]);
    }
  }

  lemma {:induction false} LargerFirstTotal(a: seq<int>, b: seq<int>)
    ensures LargerFirst(a, b) || LargerFirst(b, a)
    ensures LargerFirst(a, b) && LargerFirst(b, a) ==> a == b
    decreases |a|
  {
    if a != [] && b != [] && a[0] == b[0] {
      LargerFirstTotal(a[1..], b[1..]);
      assert a == [a[0]] + a[1..] && b == [b[0]] + b[1..];
    }
  }

  lemma {:induction false} LargerFirstTransitive(a: seq<int>, b: seq<int>, c: seq<int>)
    requires LargerFirst(a, b) && LargerFirst(b, c)
    ensures LargerFirst(a, c)
    decreases |a|
  {
    if a != [] && a[0] == b[0] == c[0] {
      LargerFirstTransitive(a[1..], b[1..], c[1..]);
    }
  }

  lemma StateLeTransitive(a: seq<int>, b: seq<int>, c: seq<int>)
    requires StateLe(a, b) && StateLe(b, c)
    ensures StateLe(a, c)
  {
    if Count4(a) == Count4(c) {
      LargerFirstTransitive(a, b, c);
    }
  }

  lemma StateLeTotal(a: seq<int>, b: seq<int>)
    ensures StateLe(a, b) || StateLe(b, a)
    ensures StateLe(a, b) && StateLe(b, a) ==> a == b
    ensures StateLe(a, a)
  {
    LargerFirstTotal(a, b);
    LargerFirstReflexive(a);
  }

  lemma KeyLeTotal(a: seq<int>, b: seq<int>)
    ensures KeyLe(a, b) || KeyLe(b, a)
    ensures KeyLe(a, b) && KeyLe(b, a) ==> a == b
    ensures KeyLe(a, a)
  {
    LargerFirstTotal(a, b);
    LargerFirstReflexive(a);
  }

  lemma KeyLeTransitive(a: seq<int>, b: seq<int>, c: seq<int>)
    requires KeyLe(a, b) && KeyLe(b, c)
    ensures KeyLe(a, c)
  {
    if LargerFirst(a, b) && LargerFirst(b, c) {
      LargerFirstTransitive(a, b, c);
    }
  }

  // ----- what the order prefers -----

  predicate TwoEqual(layout: seq<int>) {
    |layout| == 2 && layout[0] == layout[1]
  }

  /** Where two layouts first differ, the first has the larger module. */
  predicate LargerAtDifference(a: seq<int>, b: seq<int>)
    requires |a| == |b|
  {
    forall k :: 0 <= k < |a| && a[..k] == b[..k] && a[k] != b[k] ==> a[k] > b[k]
  }

  /**
   The first layout has no more 4 GiB modules; with as many it is an equal pair if the other is one; if that
   does not decide, it has no more modules; and with as many the larger ones come first.
   */
  predicate NoWorse(a: seq<int>, b: seq<int>) {
    && multiset(a)[4096] <= multiset(b)[4096]
    && (multiset(a)[4096] == multiset(b)[4096] ==>
          && (TwoEqual(b) ==> TwoEqual(a))
          && (TwoEqual(a) == TwoEqual(b) ==> |a| <= |b| && (|a| == |b| ==> LargerAtDifference(a, b))))
  }

  lemma {:induction false} CountIsMultiplicity(layout: seq<int>)
    ensures Count4(layout) == multiset(layout)[4096]
  {
    if layout != [] {
      CountIsMultiplicity(layout[1..]);
      assert layout == [layout[0]] + layout[1..];
    }
  }

  lemma {:induction false} LargerFirstMeans(a: seq<int>, b: seq<int>)
    requires |a| == |b| && LargerFirst(a, b)
    ensures LargerAtDifference(a, b)
  {
    forall k | 0 <= k < |a| && a[..k] == b[..k] && a[k] != b[k]
      ensures a[k] > b[k]
    {
      if k > 0 {
        assert a[0] == a[..k][0] == b[..k][0] == b[0];
        LargerFirstMeans(a[1..], b[1..]);
        assert a[1..][..k - 1] == a[..k][1..] && b[1..][..k - 1] == b[..k][1..];
        assert a[1..][k - 1] == a[k] && b[1..][k - 1] == b[k];
      }
    }
  }

  lemma KeyMeans(a: seq<int>, b: seq<int>)
    requires KeyLe(a, b)
    ensures NoWorse(a, b)
  {
    hide LargerFirst, LargerAtDifference, Count4;
    CountIsMultiplicity(a);
    CountIsMultiplicity(b);
    if |a| == |b| && LargerFirst(a, b) {
      LargerFirstMeans(a, b);
    }
  }

  // ----- inserting a common module keeps the order -----

  lemma {:induction false} InsertCounts(s: seq<int>, x: int)
    ensures Count4(InsertDesc(s, x)) == Count4(s) + if x == SMALL then 1 else 0
  {
    if s == [] || x >= s[0] {
      assert ([x] + s)[1..] == s;
    } else {
      InsertCounts(s[1..], x);
      assert ([s[0]] + InsertDesc(s[1..], x))[1..] == InsertDesc(s[1..], x);
    }
  }

  lemma ConsLargerFirst(x: int, a: seq<int>, b: seq<int>)
    ensures LargerFirst([x] + a, [x] + b) <==> LargerFirst(a, b)
  {
    assert ([x] + a)[1..] == a && ([x] + b)[1..] == b;
  }

  lemma {:induction false} InsertKeepsLargerFirst(a: seq<int>, b: seq<int>, x: int)
    requires Descending(a) && Descending(b) && |a| == |b| && LargerFirst(a, b)
    ensures LargerFirst(InsertDesc(a, x), InsertDesc(b, x))
    decreases |a|
  {
    if a == [] || x >= a[0] {
      ConsLargerFirst(x, a, b);
    } else if a[0] == b[0] {
      InsertKeepsLargerFirst(a[1..], b[1..], x);
      ConsLargerFirst(a[0], InsertDesc(a[1..], x), InsertDesc(b[1..], x));
    }
  }

  lemma InsertKeepsStateLe(a: seq<int>, b: seq<int>, x: int)
    requires Descending(a) && Descending(b) && |a| == |b| && StateLe(a, b)
    ensures StateLe(InsertDesc(a, x), InsertDesc(b, x))
  {
    InsertCounts(a, x);
    InsertCounts(b, x);
    if Count4(a) == Count4(b) {
      InsertKeepsLargerFirst(a, b, x);
    }
  }

  // ----- the dynamic program for one vendor -----

  /** A layout of `count` modules out of the available sizes, as the program writes it. */
  predicate IsBuild(available: set<int>, layout: seq<int>, count: int) {
    |layout| == count && Descending(layout) && forall size :: size in layout ==> size in available
  }

  type States = map<(int, int), seq<int>>

  /** Every state holds a build of its key. */
  predicate Sound(available: set<int>, states: States) {
    forall key :: key in states ==> IsBuild(available, states[key], key.1) && Sum(states[key]) == key.0
  }

  predicate Reached(states: States, layout: seq<int>, count: int) {
    (Sum(layout), count) in states && StateLe(states[(Sum(layout), count)], layout)
  }

  /** Every build of `count` modules within the target is matched by a state at least as good. */
  ghost predicate Complete(available: set<int>, states: States, count: int, target: int) {
    forall layout :: IsBuild(available, layout, count) && Sum(layout) <= target ==> Reached(states, layout, count)
  }

  /** Old states stay, or are replaced by better ones. */
  ghost predicate Improved(before: States, after: States) {
    forall key :: key in before ==> key in after && StateLe(after[key], before[key])
  }

  /** The proposal of one more module is in the next layer, or something at least as good. */
  ghost predicate Proposed(states: States, key: (int, int), layout: seq<int>, size: int, target: int) {
    key.0 + size <= target ==>
      (key.0 + size, key.1 + 1) in states && StateLe(states[(key.0 + size, key.1 + 1)], InsertDesc(layout, size))
  }

  lemma ProposedStays(before: States, after: States, key: (int, int), layout: seq<int>, size: int, target: int)
    requires Proposed(before, key, layout, size, target) && Improved(before, after)
    ensures Proposed(after, key, layout, size, target)
  {
    if key.0 + size <= target {
      var next := (key.0 + size, key.1 + 1);
      assert next in before;
      StateLeTransitive(after[next], before[next], InsertDesc(layout, size));
    }
  }

  lemma CompleteStays(available: set<int>, before: States, after: States, count: int, target: int)
    requires Complete(available, before, count, target) && Improved(before, after)
    ensures Complete(available, after, count, target)
  {
    forall layout | IsBuild(available, layout, count) && Sum(layout) <= target
      ensures Reached(after, layout, count)
    {
      assert Reached(before, layout, count);
      var key := (Sum(layout), count);
      assert key in before;
      StateLeTransitive(after[key], before[key], layout);
    }
  }

  lemma ImprovedTransitive(a: States, b: States, c: States)
    requires Improved(a, b) && Improved(b, c)
    ensures Improved(a, c)
  {
    forall key | key in a
      ensures key in c && StateLe(c[key], a[key])
    {
      assert key in b;
      StateLeTransitive(c[key], b[key], a[key]);
    }
  }

  lemma ImprovedReflexive(a: States)
    ensures Improved(a, a)
  {
    forall key | key in a
      ensures StateLe(a[key], a[key])
    {
      StateLeTotal(a[key], a[key]);
    }
  }

  lemma BuildGrows(available: set<int>, layout: seq<int>, count: int, size: int)
    requires IsBuild(available, layout, count) && size in available
    ensures IsBuild(available, InsertDesc(layout, size), count + 1)
    ensures Sum(InsertDesc(layout, size)) == Sum(layout) + size
  {
    InsertDescSorts(layout, size);
  }

  /** A build of one more module is a build with its last module inserted. */
  lemma BuildShrinks(available: set<int>, layout: seq<int>, count: nat)
    requires IsBuild(available, layout, count + 1)
    ensures IsBuild(available, layout[..count], count) && layout[count] in available
    ensures InsertDesc(layout[..count], layout[count]) == layout
    ensures Sum(layout[..count]) + layout[count] == Sum(layout)
  {
    var front, size := layout[..count], layout[count];
    InsertLast(layout);
    assert size in layout;
    forall x | x in front
      ensures x in available
    {
      assert x in layout;
    }
    InsertDescSorts(front, size);
  }

  ghost predicate AllProposed(available: set<int>, before: States, after: States, count: int, target: int) {
    forall key, size :: key in before && key.1 == count && size in available ==>
      Proposed(after, key, before[key], size, target)
  }

  /** Once every state of a layer has proposed every size, the next layer is complete. */
  lemma LayerDone(available: set<int>, before: States, after: States, count: nat, target: int)
    requires Sound(available, before) && Complete(available, before, count, target)
    requires forall size :: size in available ==> size >= 0
    requires AllProposed(available, before, after, count, target)
    ensures Complete(available, after, count + 1, target)
  {
    hide IsBuild, Sum, Reached, Sound, AllProposed;
    forall layout | IsBuild(available, layout, count + 1) && Sum(layout) <= target
      ensures Reached(after, layout, count + 1)
    {
      FrontReached(available, before, layout, count, target);
      BuildReached(available, before, after, layout, count, target);
    }
  }

  lemma FrontReached(available: set<int>, before: States, layout: seq<int>, count: nat, target: int)
    requires Complete(available, before, count, target) && forall size :: size in available ==> size >= 0
    requires IsBuild(available, layout, count + 1) && Sum(layout) <= target
    ensures |layout| == count + 1 && Reached(before, layout[..count], count)
  {
    hide Sum, Reached;
    BuildShrinks(available, layout, count);
  }

  lemma BuildReached(available: set<int>, before: States, after: States, layout: seq<int>, count: nat, target: int)
    requires Sound(available, before) && AllProposed(available, before, after, count, target)
    requires (forall size :: size in available ==> size >= 0) && IsBuild(available, layout, count + 1)
    requires Sum(layout) <= target
    requires |layout| == count + 1 && Reached(before, layout[..count], count)
    ensures Reached(after, layout, count + 1)
  {
    hide IsBuild, StateLe, InsertDesc, Sum;
    BuildShrinks(available, layout, count);
    var front, size := layout[..count], layout[count];
    var key := (Sum(front), count);
    ProposalReaches(available, before[key], front, count, size);
    assert Proposed(after, key, before[key], size, target);
    StateLeTransitive(after[(Sum(layout), count + 1)], InsertDesc(before[key], size), layout);
  }

  lemma ProposalReaches(available: set<int>, best: seq<int>, front: seq<int>, count: int, size: int)
    requires IsBuild(available, best, count) && IsBuild(available, front, count) && StateLe(best, front)
    ensures StateLe(InsertDesc(best, size), InsertDesc(front, size))
  {
    InsertKeepsStateLe(best, front, size);
  }

  /** The inner step of the program: keep the better of the state and the proposal. */
  function Propose(states: States, key: (int, int), layout: seq<int>, size: int, target: int): States {
    var amount := key.0 + size;
    if amount > target then states
    else
      var next, proposal := (amount, key.1 + 1), InsertDesc(layout, size);
      if next !in states || !StateLe(states[next], proposal) then states[next := proposal] else states
  }

  /** The states while a layer is extended: all sound, old layers as in the snapshot. */
  ghost predicate Extending(available: set<int>, snapshot: States, states: States, count: int, target: int) {
    && Sound(available, states) && Improved(snapshot, states)
    && (forall key :: key in states ==> 0 <= key.1 <= count + 1 && key.0 <= target)
  }

  ghost predicate KeyDone(available: set<int>, states: States, key: (int, int), layout: seq<int>, target: int) {
    forall size :: size in available ==> Proposed(states, key, layout, size, target)
  }

  lemma ProposeStep(available: set<int>, snapshot: States, states: States, key: (int, int), size: int, target: int)
    requires Sound(available, snapshot) && Extending(available, snapshot, states, key.1, target)
    requires key in snapshot && key.1 >= 0 && size in available
    ensures var after := Propose(states, key, snapshot[key], size, target);
      Extending(available, snapshot, after, key.1, target) && Improved(states, after)
      && Proposed(after, key, snapshot[key], size, target)
  {
    hide IsBuild, InsertDesc, StateLe, Sum;
    var layout := snapshot[key];
    var after := Propose(states, key, layout, size, target);
    var next, proposal := (key.0 + size, key.1 + 1), InsertDesc(layout, size);
    BuildGrows(available, layout, key.1, size);
    forall k | k in states
      ensures k in after && StateLe(after[k], states[k])
    {
      StateLeTotal(after[k], states[k]);
    }
    StateLeTotal(proposal, proposal);
    ImprovedTransitive(snapshot, states, after);
  }

  lemma KeyDoneStays(available: set<int>, before: States, after: States, key: (int, int), layout: seq<int>, target: int)
    requires KeyDone(available, before, key, layout, target) && Improved(before, after)
    ensures KeyDone(available, after, key, layout, target)
  {
    forall size | size in available
      ensures Proposed(after, key, layout, size, target)
    {
      ProposedStays(before, after, key, layout, size, target);
    }
  }

  /** The `states` dictionary of one vendor after the loops over counts, states and sizes. */
  method VendorStates(available: set<int>, limit: nat, target: nat) returns (states: States)
    requires forall size :: size in available ==> size >= 0
    ensures Sound(available, states)
    ensures forall key :: key in states ==> 0 <= key.1 <= limit && key.0 <= target
    ensures forall count: nat :: count <= limit ==> Complete(available, states, count, target)
  {
    hide StateLe, InsertDesc, Sum, Improved, Proposed, KeyDone, SortedSet, Sound, Complete;
    states := map[(0, 0) := []];
    EmptyLayer(available, target);
    var sizes := SortedSet(available);
    SortedSetSorts(available);
    for count := 0 to limit
      invariant Sound(available, states)
      invariant forall key :: key in states ==> 0 <= key.1 <= count && key.0 <= target
      invariant forall n: nat :: n <= count ==> Complete(available, states, n, target)
    {
      var snapshot := states;
      var todo := snapshot.Keys;
      ImprovedReflexive(snapshot);
      while todo != {}
        invariant todo <= snapshot.Keys && Extending(available, snapshot, states, count, target)
        invariant forall key :: key in snapshot && key !in todo && key.1 == count ==>
          KeyDone(available, states, key, snapshot[key], target)
        decreases |todo|
      {
        var key :| key in todo;
        todo := todo - {key};
        if key.1 == count {
          ghost var before := states;
          ImprovedReflexive(before);
          for j := 0 to |sizes|
            invariant Extending(available, snapshot, states, count, target) && Improved(before, states)
            invariant forall i :: 0 <= i < j ==> Proposed(states, key, snapshot[key], sizes[i], target)
          {
            ghost var previous := states;
            assert sizes[j] in Elements(sizes);
            ProposeStep(available, snapshot, states, key, sizes[j], target);
            states := Propose(states, key, snapshot[key], sizes[j], target);
            ImprovedTransitive(before, previous, states);
            forall i | 0 <= i < j
              ensures Proposed(states, key, snapshot[key], sizes[i], target)
            {
              ProposedStays(previous, states, key, snapshot[key], sizes[i], target);
            }
          }
          KeyIsDone(available, sizes, states, key, snapshot[key], target);
          forall done | done in snapshot && done !in todo && done != key && done.1 == count
            ensures KeyDone(available, states, done, snapshot[done], target)
          {
            KeyDoneStays(available, before, states, done, snapshot[done], target);
          }
        }
      }
      forall n: nat | n <= count
        ensures Complete(available, states, n, target)
      {
        CompleteStays(available, snapshot, states, n, target);
      }
      AllAreProposed(available, snapshot, states, count, target);
      LayerDone(available, snapshot, states, count, target);
    }
  }

  lemma KeyIsDone(available: set<int>, sizes: seq<int>, states: States, key: (int, int), layout: seq<int>, target: int)
    requires Elements(sizes) == available
    requires forall i :: 0 <= i < |sizes| ==> Proposed(states, key, layout, sizes[i], target)
    ensures KeyDone(available, states, key, layout, target)
  {
    forall size | size in available
      ensures Proposed(states, key, layout, size, target)
    {
      assert size in Elements(sizes);
      var i :| 0 <= i < |sizes| && sizes[i] == size;
    }
  }

  lemma AllAreProposed(available: set<int>, before: States, after: States, count: int, target: int)
    requires forall key :: key in before && key.1 == count ==> KeyDone(available, after, key, before[key], target)
    ensures AllProposed(available, before, after, count, target)
  {
    forall key, size | key in before && key.1 == count && size in available
      ensures Proposed(after, key, before[key], size, target)
    {
      assert KeyDone(available, after, key, before[key], target);
    }
  }

  lemma EmptyLayer(available: set<int>, target: nat)
    ensures var states: States := map[(0, 0) := []]; Sound(available, states) && Complete(available, states, 0, target)
  {
    var states: States := map[(0, 0) := []];
    forall layout | IsBuild(available, layout, 0) && Sum(layout) <= target
      ensures Reached(states, layout, 0)
    {
      assert layout == [];
    }
  }

  // ----- choose_layout -----

  /** What the guards of `choose_layout` let through. */
  predicate Guarded(total: int, limits: MemoryArray) {
    Q35Ranges(total).Ok? && ValidateArray([total / MIB], limits).Ok?
  }

  /** A layout out of the sizes of one vendor: it fills the capacity and fits the slots. */
  predicate VendorLayout(available: set<int>, total: int, slots: int, layout: seq<int>) {
    IsBuild(available, layout, |layout|) && |layout| <= slots && Sum(layout) == total / MIB
  }

  /** A layout of one vendor's modules, in the descending order the program writes. */
  predicate IsLayout(catalog: Catalog, total: int, slots: int, layout: seq<int>) {
    exists vendor :: vendor in Vendors(catalog) && VendorLayout(UsableSizes(catalog, vendor), total, slots, layout)
  }

  lemma {:induction false} ModulesBoundCount(available: set<int>, layout: seq<int>, count: int)
    requires IsBuild(available, layout, count)
    requires forall size :: size in available ==> size >= SMALL
    ensures SMALL * count <= Sum(layout)
    decreases |layout|
  {
    if layout != [] {
      assert layout[0] in layout;
      assert forall x :: x in layout[1..] ==> x in layout;
      ModulesBoundCount(available, layout[1..], count - 1);
    }
  }

  /** The candidates of one vendor: its states at the target, and the explicit equal pair. */
  function VendorCandidates(states: States, available: set<int>, limit: int, target: int): set<seq<int>> {
    (set key | key in states && key.0 == target :: states[key])
    + (if limit >= 2 && target / 2 in available then {[target / 2, target / 2]} else {})
  }

  ghost predicate AllLayouts(available: set<int>, total: int, slots: int, candidates: set<seq<int>>) {
    forall c :: c in candidates ==> VendorLayout(available, total, slots, c)
  }

  predicate Matched(candidates: set<seq<int>>, layout: seq<int>) {
    exists c :: c in candidates && KeyLe(c, layout)
  }

  /** A state at least as good in the order of states is at least as good under the final key, equal pairs apart. */
  lemma StateLeGivesKeyLe(a: seq<int>, b: seq<int>)
    requires |a| == |b| && StateLe(a, b) && !EqualPair(b)
    ensures KeyLe(a, b)
  {
  }

  lemma EqualPairIsHalves(available: set<int>, layout: seq<int>, target: int)
    requires IsBuild(available, layout, |layout|) && Sum(layout) == target && EqualPair(layout)
    ensures layout == [target / 2, target / 2] && target / 2 in available
  {
    assert Sum(layout) == layout[0] + Sum(layout[1..]) == layout[0] + (layout[1] + Sum(layout[1..][1..]));
    assert layout[0] in layout;
  }

  lemma BuildLength(available: set<int>, layout: seq<int>, count: int)
    requires IsBuild(available, layout, count)
    ensures |layout| == count
  {
  }

  /** The cap at one module every 4 GiB loses no layout. */
  lemma LayoutWithinLimit(available: set<int>, limits: MemoryArray, total: int, limit: nat, layout: seq<int>)
    requires Guarded(total, limits)
    requires limit == (if limits.slots < total / (4 * GIB) then limits.slots else total / (4 * GIB))
    requires forall size :: size in available ==> size >= SMALL
    requires VendorLayout(available, total, limits.slots, layout)
    ensures |layout| <= limit
  {
    hide IsBuild, Sum;
    ModulesBoundCount(available, layout, |layout|);
    assert SMALL * MIB == 4 * GIB;
  }

  lemma VendorMatched(available: set<int>, states: States, limits: MemoryArray, total: int, limit: nat,
                      layout: seq<int>)
    requires Guarded(total, limits)
    requires limit == (if limits.slots < total / (4 * GIB) then limits.slots else total / (4 * GIB))
    requires forall size :: size in available ==> size >= SMALL
    requires Sound(available, states) && (Complete(available, states, |layout|, total / MIB) || |layout| > limit)
    requires VendorLayout(available, total, limits.slots, layout)
    ensures Matched(VendorCandidates(states, available, limit, total / MIB), layout)
  {
    hide StateLe, Guarded, IsBuild, Sum, KeyLe;
    var target := total / MIB;
    LayoutWithinLimit(available, limits, total, limit, layout);
    if EqualPair(layout) {
      EqualPairIsHalves(available, layout, target);
      KeyLeTotal(layout, layout);
      assert layout in VendorCandidates(states, available, limit, target);
    } else {
      assert Reached(states, layout, |layout|);
      var key := (target, |layout|);
      assert states[key] in VendorCandidates(states, available, limit, target);
      BuildLength(available, states[key], |layout|);
      StateLeGivesKeyLe(states[key], layout);
    }
  }

  /** Two modules of half the capacity make a layout. */
  lemma HalvesAreLayout(available: set<int>, total: int, slots: int, half: int)
    requires half in available && slots >= 2 && half + half == total / MIB
    ensures VendorLayout(available, total, slots, [half, half])
  {
    var c := [half, half];
    assert Sum(c) == c[0] + Sum(c[1..]) && Sum(c[1..]) == c[1] + Sum(c[1..][1..]);
  }

  lemma HalfTwice(total: int)
    requires total % (2 * MIB) == 0
    ensures total / MIB / 2 + total / MIB / 2 == total / MIB
  {
    var q := total / (2 * MIB);
    assert total == MIB * (2 * q);
    assert total / MIB == 2 * q;
  }

  lemma StateIsLayout(available: set<int>, states: States, limit: nat, total: int, slots: int, key: (int, int))
    requires Sound(available, states) && key in states && key.1 <= limit <= slots && key.0 == total / MIB
    ensures VendorLayout(available, total, slots, states[key])
  {
    hide Sum;
  }

  lemma CandidatesAreLayouts(available: set<int>, states: States, limit: nat, total: int, slots: int)
    requires Sound(available, states) && (forall key :: key in states ==> key.1 <= limit)
    requires total % (2 * MIB) == 0 && limit <= slots
    ensures AllLayouts(available, total, slots, VendorCandidates(states, available, limit, total / MIB))
  {
    hide VendorLayout, Sound, IsBuild, Sum;
    var target := total / MIB;
    forall c | c in VendorCandidates(states, available, limit, target)
      ensures VendorLayout(available, total, slots, c)
    {
      if c == [target / 2, target / 2] && limit >= 2 && target / 2 in available {
        HalfTwice(total);
        HalvesAreLayout(available, total, slots, target / 2);
      } else {
        var key :| key in states && key.0 == target && states[key] == c;
        StateIsLayout(available, states, limit, total, slots, key);
      }
    }
  }

  /** `min(candidates, key=...)`. */
  method LeastLayout(candidates: set<seq<int>>) returns (least: seq<int>)
    requires |candidates| > 0
    ensures least in candidates && forall c :: c in candidates ==> KeyLe(least, c)
  {
    hide KeyLe;
    assert exists c :: c in candidates by {
      assert (forall c :: c !in candidates) ==> candidates == {};
    }
    least :| least in candidates;
    var todo := candidates - {least};
    KeyLeTotal(least, least);
    while todo != {}
      invariant todo <= candidates && least in candidates
      invariant forall c :: c in candidates && c !in todo ==> KeyLe(least, c)
      decreases |todo|
    {
      var c :| c in todo;
      todo := todo - {c};
      KeyLeTotal(least, c);
      KeyLeTotal(c, c);
      if !KeyLe(least, c) {
        forall other | other in candidates && other !in todo && other != c
          ensures KeyLe(c, other)
        {
          KeyLeTransitive(c, least, other);
        }
        least := c;
      }
    }
  }

  /** `r` is a layout, and no layout of any vendor comes before it under the final key. */
  ghost predicate IsBest(catalog: Catalog, total: int, slots: int, r: seq<int>) {
    IsLayout(catalog, total, slots, r)
    && forall layout :: IsLayout(catalog, total, slots, layout) ==> KeyLe(r, layout)
  }

  ghost predicate VendorCovered(catalog: Catalog, vendor: string, total: int, slots: int, candidates: set<seq<int>>) {
    forall layout :: VendorLayout(UsableSizes(catalog, vendor), total, slots, layout) ==> Matched(candidates, layout)
  }

  /** The candidates are layouts, and none is missed of the vendors that are done. */
  ghost predicate Searched(catalog: Catalog, total: int, slots: int, todo: set<string>, candidates: set<seq<int>>) {
    && (forall c :: c in candidates ==> IsLayout(catalog, total, slots, c))
    && (forall vendor ::
         vendor in Vendors(catalog) && vendor !in todo ==> VendorCovered(catalog, vendor, total, slots, candidates))
  }

  /** The candidates of one vendor are added. */
  lemma VendorSearched(catalog: Catalog, total: int, limits: MemoryArray, limit: nat, todo: set<string>, vendor: string,
                       states: States, before: set<seq<int>>)
    requires Guarded(total, limits)
    requires limit == (if limits.slots < total / (4 * GIB) then limits.slots else total / (4 * GIB))
    requires vendor in todo && vendor in Vendors(catalog) && Searched(catalog, total, limits.slots, todo, before)
    requires var available := UsableSizes(catalog, vendor);
      && Sound(available, states) && (forall key :: key in states ==> key.1 <= limit)
      && (forall count: nat :: count <= limit ==> Complete(available, states, count, total / MIB))
    ensures Searched(catalog, total, limits.slots, todo - {vendor},
                     before + VendorCandidates(states, UsableSizes(catalog, vendor), limit, total / MIB))
  {
    hide KeyLe, VendorLayout, VendorCandidates, Sound, Complete, IsLayout, Vendors, VendorCovered, AllLayouts, Guarded;
    var available, slots := UsableSizes(catalog, vendor), limits.slots;
    var more := VendorCandidates(states, available, limit, total / MIB);
    GuardedTotal(total, limits);
    CandidatesAreLayouts(available, states, limit, total, slots);
    CandidatesGrow(catalog, vendor, total, slots, more);
    VendorIsCovered(catalog, vendor, total, limits, limit, states);
    CoveredStays(catalog, vendor, total, slots, more, before + more);
    forall done | done in Vendors(catalog) && done !in todo
      ensures VendorCovered(catalog, done, total, slots, before + more)
    {
      CoveredStays(catalog, done, total, slots, before, before + more);
    }
  }

  lemma GuardedTotal(total: int, limits: MemoryArray)
    requires Guarded(total, limits)
    ensures total % (2 * MIB) == 0
  {
  }

  lemma VendorIsCovered(catalog: Catalog, vendor: string, total: int, limits: MemoryArray, limit: nat, states: States)
    requires Guarded(total, limits)
    requires limit == (if limits.slots < total / (4 * GIB) then limits.slots else total / (4 * GIB))
    requires var available := UsableSizes(catalog, vendor);
      Sound(available, states) && forall count: nat ::
           count <= limit ==> Complete(available, states, count, total / MIB)
    ensures VendorCovered(catalog, vendor, total, limits.slots,
                          VendorCandidates(states, UsableSizes(catalog, vendor), limit, total / MIB))
  {
    hide KeyLe, VendorLayout, VendorCandidates, Sound, Complete, Matched, Guarded;
    var available := UsableSizes(catalog, vendor);
    forall layout | VendorLayout(available, total, limits.slots, layout)
      ensures Matched(VendorCandidates(states, available, limit, total / MIB), layout)
    {
      VendorMatched(available, states, limits, total, limit, layout);
    }
  }

  /** One vendor offers every module, they fill the capacity and the slots hold them; larger modules come first. */
  ghost predicate FromOneVendor(catalog: Catalog, total: int, slots: int, layout: seq<int>) {
    && |layout| <= slots && Sum(layout) == total / 0x10_0000
    && (forall i, j :: 0 <= i < j < |layout| ==> layout[i] >= layout[j])
    && exists vendor :: Sells(catalog, vendor) && forall i :: 0 <= i < |layout| ==> SoldBy(catalog, vendor, layout[i])
  }

  /** The vendor has a part in the catalog. */
  ghost predicate Sells(catalog: Catalog, vendor: string) {
    exists size, part :: size in catalog && Entry(vendor, part) in catalog[size]
  }

  /** The vendor has a part of this size, a multiple of 4 GiB. */
  ghost predicate SoldBy(catalog: Catalog, vendor: string, size: int) {
    size in catalog && size >= 4096 && size % 4096 == 0 && exists part :: Entry(vendor, part) in catalog[size]
  }

  lemma OffersMeans(entries: seq<Entry>, vendor: string)
    ensures Offers(entries, vendor) <==> exists part :: Entry(vendor, part) in entries
  {
    if Offers(entries, vendor) {
      var k :| 0 <= k < |entries| && entries[k].vendor == vendor;
      assert Entry(vendor, entries[k].part) == entries[k];
    }
  }

  lemma UsableMeans(catalog: Catalog, vendor: string, size: int)
    ensures size in UsableSizes(catalog, vendor) <==> SoldBy(catalog, vendor, size)
  {
    if size in catalog {
      OffersMeans(catalog[size], vendor);
    }
  }

  lemma VendorsMean(catalog: Catalog, vendor: string)
    ensures vendor in Vendors(catalog) <==> Sells(catalog, vendor)
  {
    if vendor in Vendors(catalog) {
      var size, k :| size in catalog && 0 <= k < |catalog[size]| && catalog[size][k].vendor == vendor;
      assert catalog[size][k] == Entry(vendor, catalog[size][k].part);
    }
  }

  lemma VendorLayoutMeans(catalog: Catalog, vendor: string, total: int, slots: int, layout: seq<int>)
    ensures VendorLayout(UsableSizes(catalog, vendor), total, slots, layout)
      <==> |layout| <= slots && Sum(layout) == total / 0x10_0000
           && (forall i, j :: 0 <= i < j < |layout| ==> layout[i] >= layout[j])
           && forall i :: 0 <= i < |layout| ==> SoldBy(catalog, vendor, layout[i])
  {
    hide UsableSizes, SoldBy, Sum;
    forall size
      ensures size in UsableSizes(catalog, vendor) <==> SoldBy(catalog, vendor, size)
    {
      UsableMeans(catalog, vendor, size);
    }
  }

  lemma LayoutMeans(catalog: Catalog, total: int, slots: int, layout: seq<int>)
    ensures IsLayout(catalog, total, slots, layout) <==> FromOneVendor(catalog, total, slots, layout)
  {
    hide Vendors, UsableSizes, SoldBy, Sum, VendorLayout, Sells;
    if IsLayout(catalog, total, slots, layout) {
      var vendor :| vendor in Vendors(catalog) && VendorLayout(UsableSizes(catalog, vendor), total, slots, layout);
      VendorsMean(catalog, vendor);
      VendorLayoutMeans(catalog, vendor, total, slots, layout);
    }
    if FromOneVendor(catalog, total, slots, layout) {
      var vendor :| Sells(catalog, vendor) && forall i :: 0 <= i < |layout| ==> SoldBy(catalog, vendor, layout[i]);
      VendorsMean(catalog, vendor);
      VendorLayoutMeans(catalog, vendor, total, slots, layout);
    }
  }

  /**
   The guards in plain numbers: 4 to 512 GiB in steps of four, at most 16 slots, and within the platform's
   maximum.
   */
  lemma GuardedMeans(total: int, limits: MemoryArray)
    ensures Guarded(total, limits)
      <==> total % 0x1_0000_0000 == 0 && 0x1_0000_0000 <= total <= 0x80_0000_0000 && 1 <= limits.slots <= 16
           && total <= limits.maximumBytes <= 0xFFFF_FFFF_FFFF_FFFF && limits.maximumBytes % 1024 == 0
  {
    var sizes := [total / MIB];
    assert Sum(sizes) == total / MIB by {
      assert sizes[1..] == [];
    }
    if total % 0x1_0000_0000 == 0 && total >= 0x1_0000_0000 {
      var q := total / (4 * GIB);
      assert total == 4 * GIB * q;
      assert total / MIB == 4096 * q && total / MIB * MIB == total;
      assert ValidModule(sizes[0]);
    }
  }

  lemma BestMeans(catalog: Catalog, total: int, slots: int, r: seq<int>)
    requires IsBest(catalog, total, slots, r)
    ensures FromOneVendor(catalog, total, slots, r)
    ensures forall layout :: FromOneVendor(catalog, total, slots, layout) ==> NoWorse(r, layout)
  {
    hide IsLayout, FromOneVendor, KeyLe, NoWorse;
    LayoutMeans(catalog, total, slots, r);
    forall layout | FromOneVendor(catalog, total, slots, layout)
      ensures NoWorse(r, layout)
    {
      LayoutMeans(catalog, total, slots, layout);
      KeyMeans(r, layout);
    }
  }

  /**
   The whole search: it fails exactly when no layout exists, and otherwise returns the best one, which is no
   worse than any other layout of one vendor's modules.
   */
  method ChooseLayout(total: int, catalog: Catalog, limits: MemoryArray) returns (r: Result<seq<int>>)
    ensures !Guarded(total, limits) ==> r == Err(ValueError)
    ensures Guarded(total, limits) ==>
      (r.Ok? <==> exists layout :: IsLayout(catalog, total, limits.slots, layout))
    ensures Guarded(total, limits) && r.Ok? ==> IsBest(catalog, total, limits.slots, r.value)
    ensures r.Ok? ==> FromOneVendor(catalog, total, limits.slots, r.value)
    ensures r.Ok? ==> forall layout :: FromOneVendor(catalog, total, limits.slots, layout) ==> NoWorse(r.value, layout)
    ensures r.Err? ==> r.error == ValueError
  {
    hide KeyLe, VendorCandidates, Sound, Complete, IsLayout, Vendors, VendorCovered, Matched, IsBest, FromOneVendor,
      NoWorse;
    if Q35Ranges(total).Err? || ValidateArray([total / MIB], limits).Err? {
      return Err(ValueError);
    }
    var slots := limits.slots;
    var limit := if slots < total / (4 * GIB) then slots else total / (4 * GIB);
    var candidates: set<seq<int>> := {};
    var todo := Vendors(catalog);
    while todo != {}
      invariant todo <= Vendors(catalog) && Searched(catalog, total, slots, todo, candidates)
      decreases |todo|
    {
      var vendor :| vendor in todo;
      var available := UsableSizes(catalog, vendor);
      var states := VendorStates(available, limit, total / MIB);
      VendorSearched(catalog, total, limits, limit, todo, vendor, states, candidates);
      todo := todo - {vendor};
      candidates := candidates + VendorCandidates(states, available, limit, total / MIB);
    }
    AllCovered(catalog, total, slots, candidates);
    if |candidates| == 0 {
      NothingMatches(candidates);
      return Err(ValueError);
    }
    var chosen := LeastLayout(candidates);
    LeastIsBest(catalog, total, slots, candidates, chosen);
    BestMeans(catalog, total, slots, chosen);
    return Ok(chosen);
  }

  lemma NothingMatches(candidates: set<seq<int>>)
    requires |candidates| == 0
    ensures forall layout :: !Matched(candidates, layout)
  {
  }

  lemma LeastIsBest(catalog: Catalog, total: int, slots: int, candidates: set<seq<int>>, chosen: seq<int>)
    requires forall c :: c in candidates ==> IsLayout(catalog, total, slots, c)
    requires chosen in candidates && forall c :: c in candidates ==> KeyLe(chosen, c)
    requires forall layout :: IsLayout(catalog, total, slots, layout) ==> Matched(candidates, layout)
    ensures IsBest(catalog, total, slots, chosen)
  {
    hide KeyLe;
    forall layout | IsLayout(catalog, total, slots, layout)
      ensures KeyLe(chosen, layout)
    {
      assert Matched(candidates, layout);
      var c :| c in candidates && KeyLe(c, layout);
      KeyLeTransitive(chosen, c, layout);
    }
  }

  lemma CandidatesGrow(catalog: Catalog, vendor: string, total: int, slots: int, more: set<seq<int>>)
    requires vendor in Vendors(catalog) && AllLayouts(UsableSizes(catalog, vendor), total, slots, more)
    ensures forall c :: c in more ==> IsLayout(catalog, total, slots, c)
  {
  }

  lemma CoveredStays(catalog: Catalog, vendor: string, total: int, slots: int, before: set<seq<int>>,
                     after: set<seq<int>>)
    requires VendorCovered(catalog, vendor, total, slots, before) && before <= after
    ensures VendorCovered(catalog, vendor, total, slots, after)
  {
    forall layout | VendorLayout(UsableSizes(catalog, vendor), total, slots, layout)
      ensures Matched(after, layout)
    {
      assert Matched(before, layout);
    }
  }

  lemma AllCovered(catalog: Catalog, total: int, slots: int, candidates: set<seq<int>>)
    requires forall vendor :: vendor in Vendors(catalog) ==> VendorCovered(catalog, vendor, total, slots, candidates)
    ensures forall layout :: IsLayout(catalog, total, slots, layout) ==> Matched(candidates, layout)
  {
    forall layout | IsLayout(catalog, total, slots, layout)
      ensures Matched(candidates, layout)
    {
      var vendor :| vendor in Vendors(catalog) && VendorLayout(UsableSizes(catalog, vendor), total, slots, layout);
      assert VendorCovered(catalog, vendor, total, slots, candidates);
    }
  }

  /** There is one best layout, so the outcome depends neither on set order nor on ties. */
  lemma BestIsUnique(catalog: Catalog, total: int, slots: int, a: seq<int>, b: seq<int>)
    requires IsBest(catalog, total, slots, a) && IsBest(catalog, total, slots, b)
    ensures a == b
  {
    KeyLeTotal(a, b);
  }

  /**
   Every selection of one vendor's modules, in whatever order, that fills the capacity within the
   slots is, once sorted, no better than the best layout: optimal over all multisets of modules.
   */
  lemma BestOverSelections(catalog: Catalog, total: int, slots: int, best: seq<int>, vendor: string,
                           selection: seq<int>)
    requires IsBest(catalog, total, slots, best)
    requires vendor in Vendors(catalog) && |selection| <= slots && Sum(selection) == total / MIB
    requires forall size :: size in selection ==> size in UsableSizes(catalog, vendor)
    ensures multiset(SortDesc(selection)) == multiset(selection) && KeyLe(best, SortDesc(selection))
  {
    SortDescSorts(selection);
    assert VendorLayout(UsableSizes(catalog, vendor), total, slots, SortDesc(selection));
    assert IsLayout(catalog, total, slots, SortDesc(selection));
  }
}

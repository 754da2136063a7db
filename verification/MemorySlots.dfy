/** From a chosen layout to slot records and module identities. */
module MemorySlots {
  import opened Outcomes
  import opened Sequences
  import opened Text
  import opened DimmLayout

  datatype Template = Template(deviceLocator: string, bankLocator: string, formFactor: int)

  datatype Slot = Slot(deviceLocator: string, bankLocator: string, formFactor: int, installed: bool, sizeMib: int)

  function SlotAt(sizes: seq<int>, templates: seq<Template>, index: nat): Slot
    requires index < |templates|
  {
    var t := templates[index];
    Slot(t.deviceLocator, if t.bankLocator != "" then t.bankLocator else "BANK_" + Dec(index), t.formFactor,
         index < |sizes|, if index < |sizes| then sizes[index] else 0)
  }

  function SlotsOf(sizes: seq<int>, templates: seq<Template>): (slots: seq<Slot>)
    ensures |slots| == |templates|
    ensures forall i :: 0 <= i < |templates| ==> slots[i] == SlotAt(sizes, templates, i)
  {
    seq(|templates|, i requires 0 <= i < |templates| => SlotAt(sizes, templates, i))
  }

  predicate AllNamed(templates: seq<Template>) {
    forall i :: 0 <= i < |templates| ==> templates[i].deviceLocator != ""
  }

  /** `guest_slots`, as a value. */
  function GuestSlotsOf(sizes: seq<int>, templates: seq<Template>, limits: MemoryArray): Result<seq<Slot>> {
    if ValidateArray(sizes, limits).Err? || |templates| != limits.slots || !AllNamed(templates) then Err(ValueError)
    else Ok(SlotsOf(sizes, templates))
  }

  method GuestSlots(sizes: seq<int>, templates: seq<Template>, limits: MemoryArray) returns (r: Result<seq<Slot>>)
    ensures r == GuestSlotsOf(sizes, templates, limits)
  {
    if ValidateArray(sizes, limits).Err? {
      return Err(ValueError);
    }
    if |templates| != limits.slots {
      return Err(ValueError);
    }
    var result: seq<Slot> := [];
    for index := 0 to |templates|
      invariant |result| == index
      invariant forall i ::
        0 <= i < index ==> templates[i].deviceLocator != "" && result[i] == SlotAt(sizes, templates, i)
    {
      if templates[index].deviceLocator == "" {
        return Err(ValueError);
      }
      result := result + [SlotAt(sizes, templates, index)];
    }
    assert result == SlotsOf(sizes, templates);
    return Ok(result);
  }

  function SlotSizes(slots: seq<Slot>): (sizes: seq<int>)
    ensures |sizes| == |slots|
    ensures forall i :: 0 <= i < |slots| ==> sizes[i] == slots[i].sizeMib
  {
    seq(|slots|, i requires 0 <= i < |slots| => slots[i].sizeMib)
  }

  lemma {:induction false} SumZeros(s: seq<int>)
    requires forall i :: 0 <= i < |s| ==> s[i] == 0
    ensures Sum(s) == 0
  {
    if s != [] {
      SumZeros(s[1..]);
    }
  }

  /** The slot records list the modules first and empty slots after, and keep the total. */
  lemma SlotsKeepTotal(sizes: seq<int>, templates: seq<Template>)
    requires |sizes| <= |templates|
    ensures var slots := SlotsOf(sizes, templates);
      && (forall i :: 0 <= i < |slots| ==> slots[i].installed == (i < |sizes|))
      && SlotSizes(slots)[..|sizes|] == sizes
      && Sum(SlotSizes(slots)) == Sum(sizes)
  {
    var all := SlotSizes(SlotsOf(sizes, templates));
    assert all == sizes + all[|sizes|..];
    SumAppend(sizes, all[|sizes|..]);
    SumZeros(all[|sizes|..]);
  }

  // ----- memory_identity -----

  function VendorsOf(entries: seq<Entry>): set<string> {
    set k | 0 <= k < |entries| :: entries[k].vendor
  }

  /** `vendor` has a part for every one of the sizes. */
  predicate Covers(pool: Catalog, sizes: seq<int>, vendor: string) {
    forall i :: 0 <= i < |sizes| ==> sizes[i] in pool && Offers(pool[sizes[i]], vendor)
  }

  /** `memory_identity`, for any random choice of a common vendor and of its parts. */
  method MemoryIdentity(pool: Catalog, sizes: seq<int>) returns (r: Result<(string, seq<string>)>)
    ensures sizes != [] ==> (r.Ok? <==> exists vendor :: Covers(pool, sizes, vendor))
    ensures r.Ok? ==> |r.value.1| == |sizes| && forall i :: 0 <= i < |sizes| ==>
      sizes[i] in pool && Entry(r.value.0, r.value.1[i]) in pool[sizes[i]]
  {
    if exists i :: 0 <= i < |sizes| && sizes[i] !in pool {
      return Err(RuntimeError);
    }
    if sizes == [] {
      return Err(IndexError);
    }
    var common := VendorsOf(pool[sizes[0]]);
    for i := 1 to |sizes|
      invariant forall vendor :: vendor in common <==> Covers(pool, sizes[..i], vendor)
    {
      common := common * VendorsOf(pool[sizes[i]]);
      assert sizes[..i + 1] == sizes[..i] + [sizes[i]];
    }
    assert sizes[..|sizes|] == sizes;
    if common == {} {
      assert forall vendor :: Covers(pool, sizes, vendor) ==> vendor in common;
      return Err(RuntimeError);
    }
    var vendor :| vendor in common;
    assert Covers(pool, sizes, vendor);
    var parts: seq<string> := [];
    for i := 0 to |sizes|
      invariant |parts| == i
      invariant forall j :: 0 <= j < i ==> Entry(vendor, parts[j]) in pool[sizes[j]]
    {
      assert Offers(pool[sizes[i]], vendor);
      var k :| 0 <= k < |pool[sizes[i]]| && pool[sizes[i]][k].vendor == vendor;
      assert pool[sizes[i]][k] == Entry(vendor, pool[sizes[i]][k].part);
      parts := parts + [pool[sizes[i]][k].part];
    }
    return Ok((vendor, parts));
  }

  /**
   A layout from the search gets through the rest of the pipeline: the array guard and the slot
   builder accept it for any matching list of named templates, its slots sum to the guest total,
   and some vendor has a part for every module.
   */
  lemma LayoutIsAccepted(catalog: Catalog, total: int, limits: MemoryArray, layout: seq<int>, templates: seq<Template>)
    requires Guarded(total, limits) && IsLayout(catalog, total, limits.slots, layout)
    requires |templates| == limits.slots && AllNamed(templates)
    ensures ValidateArray(layout, limits) == Ok(())
    ensures GuestSlotsOf(layout, templates, limits) == Ok(SlotsOf(layout, templates))
    ensures SlotSizes(SlotsOf(layout, templates))[..|layout|] == layout
    ensures Sum(SlotSizes(SlotsOf(layout, templates))) * MIB == total
    ensures forall i :: 0 <= i < |templates| ==> SlotsOf(layout, templates)[i].installed == (i < |layout|)
    ensures exists vendor :: Covers(catalog, layout, vendor)
  {
    var vendor :| vendor in Vendors(catalog) && VendorLayout(UsableSizes(catalog, vendor), total, limits.slots, layout);
    forall i | 0 <= i < |layout|
      ensures ValidModule(layout[i]) && layout[i] in catalog && Offers(catalog[layout[i]], vendor)
    {
      assert layout[i] in layout;
    }
    assert layout != [] by {
      assert Sum(layout) == total / MIB > 0;
    }
    assert Sum([total / MIB]) == total / MIB + Sum([]);
    assert Covers(catalog, layout, vendor);
    SlotsKeepTotal(layout, templates);
  }
}

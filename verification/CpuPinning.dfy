/**
 The CPU bindings of a domain: `vcpu_count`, `fit_vcpu_count`, `configured_cpu_bindings` and
 `set_vcpu_pinning` of `04_apply_spoof.py`.
 */
module CpuPinning {
  import opened Outcomes
  import opened Sequences
  import opened Sorting
  import opened Text
  import opened CpuSets

  /** An optional integer attribute: absent, unreadable, or read. */
  datatype Count = Unset | Unreadable | Set(value: int)

  /** The vcpu element: its text and its `current` attribute. */
  datatype Vcpu = Vcpu(text: string, current: Count)

  /** A child of cputune: a vCPU pin whose index may be unreadable, an emulator pin, or something else. */
  datatype Tune =
    | VcpuPin(vcpu: Option<int>, cpuset: string)
    | EmulatorPin(cpuset: string)
    | OtherTune(tag: string)

  /** `vcpu_count`; `hotplug` tells whether a vcpus element is present. */
  function VcpuCount(vcpu: Option<Vcpu>, hotplug: bool): Result<nat> {
    if vcpu.None? || !IsDigit(Strip(vcpu.value.text)) then Err(ValueError)
    else
      var count := Value(Strip(vcpu.value.text), 10);
      if vcpu.value.current.Unreadable? || (vcpu.value.current.Set? && vcpu.value.current.value != count) || hotplug
      then Err(ValueError)
      else if count < 1 then Err(ValueError)
      else Ok(count)
  }

  /** `fit_vcpu_count`. */
  function FitVcpuCount(vcpu: Option<Vcpu>, hotplug: bool, available: set<int>): (r: Result<nat>)
    ensures r.Ok? <==> VcpuCount(vcpu, hotplug).Ok? && VcpuCount(vcpu, hotplug).value < |available|
    ensures r.Ok? ==> 1 <= r.value < |available| && r == VcpuCount(vcpu, hotplug)
  {
    var requested :- VcpuCount(vcpu, hotplug);
    if |available| < 2 then Err(ValueError)
    else if requested > |available| - 1 then Err(ValueError)
    else Ok(requested)
  }

  // ---- Reading the bindings ------------------------------------------------------------------

  function TheOne(s: set<int>): int
    requires |s| == 1
  {
    Least(s)
  }

  /** The pins of some children by vCPU index, or nothing if one of them is unusable. */
  function Pins(children: seq<Tune>, available: set<int>): Option<map<int, int>> {
    if children == [] then Some(map[])
    else
      var before, last := Pins(children[..|children| - 1], available), children[|children| - 1];
      if before.None? || !last.VcpuPin? then before
      else
        var cpus := Parsed(last.cpuset, available);
        if last.vcpu.None? || cpus.Err? || |cpus.value| != 1 || last.vcpu.value in before.value then None
        else Some(before.value[last.vcpu.value := TheOne(cpus.value)])
  }

  /** The CPUs that the pins select, if every vCPU has one and no two share it. */
  function Pinned(children: seq<Tune>, count: nat, available: set<int>): Option<set<int>> {
    var pins := Pins(children, available);
    if pins.Some? && pins.value.Keys == Range(0, count - 1) && |pins.value.Values| == count
    then Some(pins.value.Values)
    else None
  }

  function FirstEmulator(children: seq<Tune>): (i: nat)
    ensures i <= |children| && (i < |children| ==> children[i].EmulatorPin?)
    ensures forall k :: 0 <= k < i ==> !children[k].EmulatorPin?
  {
    if children == [] || children[0].EmulatorPin? then 0 else 1 + FirstEmulator(children[1..])
  }

  function Emulator(children: seq<Tune>, selected: set<int>, available: set<int>): set<int> {
    var i := FirstEmulator(children);
    if i == |children| then available - selected
    else
      var candidate := Parsed(children[i].cpuset, available);
      if candidate.Ok? && candidate.value * selected == {} then candidate.value else available - selected
  }

  function Selected(tune: Option<seq<Tune>>, count: nat, available: set<int>): Result<set<int>> {
    var pinned := if tune.Some? then Pinned(tune.value, count, available) else None;
    if pinned.Some? then Ok(pinned.value)
    else if |available| < count then Err(ValueError)
    else Ok(Elements(SortedSet(available)[..count]))
  }

  /** The CPUs of the vCPUs and those of the emulator, for a vCPU count. */
  function Bindings(tune: Option<seq<Tune>>, count: nat, available: set<int>): Result<(set<int>, set<int>)> {
    var selected :- Selected(tune, count, available);
    var emulator := if tune.Some? then Emulator(tune.value, selected, available) else available - selected;
    if emulator == {} then Err(ValueError) else Ok((selected, emulator))
  }

  lemma {:induction false} UnusablePinStays(children: seq<Tune>, k: nat, available: set<int>)
    requires k <= |children| && Pins(children[..k], available).None?
    ensures Pins(children, available).None?
  {
    if k == |children| {
      assert children[..k] == children;
    } else {
      assert children[..|children| - 1][..k] == children[..k];
      UnusablePinStays(children[..|children| - 1], k, available);
    }
  }

  /** The loop over the pins of `configured_cpu_bindings`; an unusable pin ends it with nothing. */
  method ReadPins(children: seq<Tune>, available: set<int>) returns (r: Option<map<int, int>>)
    ensures r == Pins(children, available)
  {
    hide Parsed;
    var pins: map<int, int> := map[];
    for k := 0 to |children|
      invariant Pins(children[..k], available) == Some(pins)
    {
      assert children[..k + 1][..k] == children[..k];
      var child := children[k];
      if child.VcpuPin? {
        var values := ParseCpuSet(child.cpuset, available);
        if child.vcpu.None? || values.Err? || |values.value| != 1 || child.vcpu.value in pins {
          UnusablePinStays(children, k + 1, available);
          return None;
        }
        pins := pins[child.vcpu.value := TheOne(values.value)];
      }
    }
    assert children[..|children|] == children;
    return Some(pins);
  }

  /** `configured_cpu_bindings`. */
  method ConfiguredCpuBindings(vcpu: Option<Vcpu>, hotplug: bool, tune: Option<seq<Tune>>, available: set<int>)
    returns (r: Result<(set<int>, set<int>)>)
    ensures r == if VcpuCount(vcpu, hotplug).Ok? then Bindings(tune, VcpuCount(vcpu, hotplug).value, available)
            else Err(ValueError)
  {
    hide Parsed, Pins, SortedSet, IsDigit, Strip, Value;
    var counted := VcpuCount(vcpu, hotplug);
    if counted.Err? {
      return Err(ValueError);
    }
    var count, ordered := counted.value, SortedSet(available);
    var selected: Option<set<int>> := None;
    if tune.Some? {
      var pins := ReadPins(tune.value, available);
      if pins.Some? && pins.value.Keys == Range(0, count - 1) && |pins.value.Values| == count {
        selected := Some(pins.value.Values);
      }
    }
    if selected.None? {
      if |ordered| < count {
        return Err(ValueError);
      }
      selected := Some(Elements(ordered[..count]));
    }
    var emulator: Option<set<int>> := None;
    if tune.Some? && FirstEmulator(tune.value) < |tune.value| {
      var candidate := ParseCpuSet(tune.value[FirstEmulator(tune.value)].cpuset, available);
      if candidate.Ok? && candidate.value * selected.value == {} {
        emulator := Some(candidate.value);
      }
    }
    if emulator.None? {
      emulator := Some(available - selected.value);
    }
    if emulator.value == {} {
      return Err(ValueError);
    }
    return Ok((selected.value, emulator.value));
  }

  // ---- Writing the bindings ------------------------------------------------------------------

  function Others(children: seq<Tune>): seq<Tune> {
    if children == [] then []
    else
      Others(children[..|children| - 1])
      + if children[|children| - 1].OtherTune? then [children[|children| - 1]] else []
  }

  function VcpuPins(cpus: seq<int>): seq<Tune>
    requires AllNat(cpus)
  {
    seq(|cpus|, i requires 0 <= i < |cpus| => VcpuPin(Some(i), Dec(cpus[i])))
  }

  /** The children that pinning leaves: all that are not pins, then one pin a vCPU, then the emulator's. */
  function PinnedTune(tune: Option<seq<Tune>>, vcpus: set<int>, emulator: set<int>): seq<Tune>
    requires NonNegative(vcpus) && NonNegative(emulator)
  {
    SortedNat(vcpus);
    Others(if tune.Some? then tune.value else []) + VcpuPins(SortedSet(vcpus)) + [EmulatorPin(Formatted(emulator))]
  }

  /** The part of a domain that holds the bindings. */
  class Domain {
    var cputune: Option<seq<Tune>>

    constructor (cputune: Option<seq<Tune>>)
      ensures this.cputune == cputune
    {
      this.cputune := cputune;
    }

    /** `set_vcpu_pinning`. */
    method SetVcpuPinning(vcpus: set<int>, emulator: set<int>)
      requires NonNegative(vcpus) && NonNegative(emulator)
      modifies this
      ensures cputune == Some(PinnedTune(old(cputune), vcpus, emulator))
    {
      hide SortedSet, Formatted, Dec;
      SortedNat(vcpus);
      var children, kept := if cputune.Some? then cputune.value else [], [];
      for k := 0 to |children|
        invariant kept == Others(children[..k])
      {
        assert children[..k + 1][..k] == children[..k];
        if children[k].OtherTune? {
          kept := kept + [children[k]];
        }
      }
      assert children[..|children|] == children;
      var ordered, pins := SortedSet(vcpus), [];
      for index := 0 to |ordered|
        invariant pins == VcpuPins(ordered)[..index]
      {
        pins := pins + [VcpuPin(Some(index), Dec(ordered[index]))];
      }
      assert pins == VcpuPins(ordered);
      var text := FormatCpuSet(emulator);
      cputune := Some(kept + pins + [EmulatorPin(text)]);
    }
  }

  // ---- What the bindings mean ----------------------------------------------------------------

  lemma TheOneIs(x: int)
    ensures TheOne({x}) == x
  {
    assert x in {x};
  }

  lemma {:induction false} ParsedWithin(value: string, available: set<int>)
    ensures Parsed(value, available).Ok?
            ==> Parsed(value, available).value <= available && Parsed(value, available).value != {}
  {
    hide ParsedItems, Split;
  }

  lemma {:induction false} PinsWithin(children: seq<Tune>, available: set<int>)
    requires Pins(children, available).Some?
    ensures Pins(children, available).value.Values <= available
  {
    hide Parsed, TheOne;
    if children != [] {
      var last := children[|children| - 1];
      PinsWithin(children[..|children| - 1], available);
      if last.VcpuPin? {
        ParsedWithin(last.cpuset, available);
        OneWithin(Parsed(last.cpuset, available).value);
        var before := Pins(children[..|children| - 1], available).value;
        forall v | v in Pins(children, available).value.Values
          ensures v in available
        {
          assert v in before.Values || v == TheOne(Parsed(last.cpuset, available).value);
        }
      }
    }
  }

  lemma OneWithin(s: set<int>)
    ensures |s| == 1 ==> TheOne(s) in s
  {
  }

  lemma TakenFromSorted(available: set<int>, count: nat)
    requires count <= |available|
    ensures Elements(SortedSet(available)[..count]) <= available && |Elements(SortedSet(available)[..count])| == count
  {
    hide SortedSet;
    SortedSetSorts(available);
    var taken := SortedSet(available)[..count];
    AscendingIsSorted(taken);
    forall x | x in Elements(taken)
      ensures x in available
    {
      assert x in Elements(SortedSet(available));
    }
  }

  lemma SelectedFits(tune: Option<seq<Tune>>, count: nat, available: set<int>)
    requires count <= |available|
    ensures Selected(tune, count, available).Ok?
    ensures |Selected(tune, count, available).value| == count && Selected(tune, count, available).value <= available
  {
    hide Parsed, Pins, SortedSet, Range;
    TakenFromSorted(available, count);
    if tune.Some? && Pins(tune.value, available).Some? {
      PinsWithin(tune.value, available);
    }
  }

  lemma EmulatorFits(children: seq<Tune>, selected: set<int>, available: set<int>)
    requires available - selected != {}
    ensures Emulator(children, selected, available) != {}
    ensures Emulator(children, selected, available) <= available
    ensures Emulator(children, selected, available) * selected == {}
  {
    hide Parsed;
    var i := FirstEmulator(children);
    if i < |children| {
      ParsedWithin(children[i].cpuset, available);
    }
  }

  /**
   Once the vCPU count fits, the bindings exist: one distinct available CPU a vCPU, and a nonempty set of
   other available CPUs for the emulator, whatever the domain's own pins say.
   */
  lemma FittingCountBinds(vcpu: Option<Vcpu>, hotplug: bool, tune: Option<seq<Tune>>, available: set<int>)
    requires FitVcpuCount(vcpu, hotplug, available).Ok?
    ensures var count := FitVcpuCount(vcpu, hotplug, available).value;
            var bound := Bindings(tune, count, available);
            && bound.Ok? && |bound.value.0| == count && bound.value.0 <= available
            && bound.value.1 != {} && bound.value.1 <= available && bound.value.1 * bound.value.0 == {}
  {
    hide Selected, Emulator, VcpuCount;
    var count := FitVcpuCount(vcpu, hotplug, available).value;
    SelectedFits(tune, count, available);
    var selected := Selected(tune, count, available).value;
    RoomLeft(selected, available);
    if tune.Some? {
      EmulatorFits(tune.value, selected, available);
    }
  }

  lemma RoomLeft(selected: set<int>, available: set<int>)
    requires selected <= available && |selected| < |available|
    ensures available - selected != {}
  {
    assert available == selected + (available - selected);
  }

  // ---- Reading back what was written ---------------------------------------------------------

  lemma {:induction false} OthersHoldNoPins(children: seq<Tune>, available: set<int>)
    ensures Pins(Others(children), available) == Some(map[])
    ensures forall k :: 0 <= k < |Others(children)| ==> Others(children)[k].OtherTune?
  {
    if children != [] {
      var before, last := Others(children[..|children| - 1]), children[|children| - 1];
      OthersHoldNoPins(children[..|children| - 1], available);
      assert before + [] == before;
      assert (before + [last])[..|before|] == before;
    }
  }

  function Indexed(cpus: seq<int>, count: nat): map<int, int>
    requires count <= |cpus|
  {
    map i | 0 <= i < count :: cpus[i]
  }

  lemma {:induction false} WrittenPins(others: seq<Tune>, cpus: seq<int>, count: nat, available: set<int>)
    requires AllNat(cpus) && count <= |cpus| && Pins(others, available) == Some(map[])
    requires forall i :: 0 <= i < |cpus| ==> cpus[i] in available
    ensures Pins(others + VcpuPins(cpus)[..count], available) == Some(Indexed(cpus, count))
  {
    hide Parsed, TheOne, Dec;
    if count == 0 {
      assert others + VcpuPins(cpus)[..0] == others;
      assert Indexed(cpus, 0) == map[];
    } else {
      WrittenPins(others, cpus, count - 1, available);
      var before, all := others + VcpuPins(cpus)[..count - 1], others + VcpuPins(cpus)[..count];
      assert all == before + [VcpuPin(Some(count - 1), Dec(cpus[count - 1]))] && all[..|all| - 1] == before;
      NumberRoundTrip(cpus[count - 1], available);
      TheOneIs(cpus[count - 1]);
      assert Indexed(cpus, count) == Indexed(cpus, count - 1)[count - 1 := cpus[count - 1]];
    }
  }

  lemma IndexedMeans(cpus: seq<int>)
    ensures Indexed(cpus, |cpus|).Keys == Range(0, |cpus| - 1)
    ensures Indexed(cpus, |cpus|).Values == Elements(cpus)
  {
    var m := Indexed(cpus, |cpus|);
    forall x | x in Elements(cpus)
      ensures x in m.Values
    {
      var i :| 0 <= i < |cpus| && cpus[i] == x;
      assert i in m && m[i] == x;
    }
  }

  lemma EmulatorLast(children: seq<Tune>, text: string)
    requires forall k :: 0 <= k < |children| ==> !children[k].EmulatorPin?
    ensures FirstEmulator(children + [EmulatorPin(text)]) == |children|
  {
    var all := children + [EmulatorPin(text)];
    assert forall k :: 0 <= k < |children| ==> all[k] == children[k];
    assert all[|children|].EmulatorPin?;
  }

  lemma WrittenSelected(others: seq<Tune>, vcpus: set<int>, text: string, available: set<int>)
    requires NonNegative(available) && vcpus <= available && Pins(others, available) == Some(map[])
    ensures AllNat(SortedSet(vcpus))
    ensures Pinned(others + VcpuPins(SortedSet(vcpus)) + [EmulatorPin(text)], |vcpus|, available) == Some(vcpus)
  {
    hide Parsed, SortedSet, Pins, Dec, Range;
    SortedNat(vcpus);
    SortedSetSorts(vcpus);
    var ordered := SortedSet(vcpus);
    forall i | 0 <= i < |ordered|
      ensures ordered[i] in available
    {
      assert ordered[i] in Elements(ordered);
    }
    WrittenPins(others, ordered, |ordered|, available);
    assert VcpuPins(ordered)[..|ordered|] == VcpuPins(ordered);
    PinsIgnoreEmulator(others + VcpuPins(ordered), text, available);
    IndexedMeans(ordered);
  }

  lemma WrittenEmulator(front: seq<Tune>, selected: set<int>, emulator: set<int>, available: set<int>)
    requires NonNegative(emulator) && emulator <= available && emulator != {} && emulator * selected == {}
    requires forall k :: 0 <= k < |front| ==> !front[k].EmulatorPin?
    ensures Emulator(front + [EmulatorPin(Formatted(emulator))], selected, available) == emulator
  {
    hide Parsed, Formatted;
    EmulatorLast(front, Formatted(emulator));
    FormatThenParse(emulator, available);
  }

  /** Reading what pinning wrote gives the same two sets, and every child that is not a pin is still there. */
  lemma WriteThenRead(tune: Option<seq<Tune>>, vcpus: set<int>, emulator: set<int>, available: set<int>)
    requires NonNegative(available) && vcpus <= available && emulator <= available && emulator != {}
    requires emulator * vcpus == {}
    ensures Bindings(Some(PinnedTune(tune, vcpus, emulator)), |vcpus|, available) == Ok((vcpus, emulator))
    ensures Others(PinnedTune(tune, vcpus, emulator)) == Others(if tune.Some? then tune.value else [])
  {
    hide Parsed, Formatted, SortedSet, Pins, Dec, Others, Pinned, Emulator;
    var children := if tune.Some? then tune.value else [];
    SortedNat(vcpus);
    var ordered, others := SortedSet(vcpus), Others(children);
    OthersHoldNoPins(children, available);
    WrittenSelected(others, vcpus, Formatted(emulator), available);
    WrittenEmulator(others + VcpuPins(ordered), vcpus, emulator, available);
    OthersOfWritten(others, ordered, Formatted(emulator));
    OthersOfOthers(children);
  }

  lemma PinsIgnoreEmulator(front: seq<Tune>, text: string, available: set<int>)
    ensures Pins(front + [EmulatorPin(text)], available) == Pins(front, available)
  {
    assert (front + [EmulatorPin(text)])[..|front|] == front;
  }

  lemma {:induction false} OthersOfOthers(children: seq<Tune>)
    ensures Others(Others(children)) == Others(children)
  {
    if children != [] {
      var before, last := Others(children[..|children| - 1]), children[|children| - 1];
      OthersOfOthers(children[..|children| - 1]);
      assert before + [] == before;
      assert (before + [last])[..|before|] == before;
    }
  }

  lemma {:induction false} OthersOfPins(others: seq<Tune>, cpus: seq<int>, count: nat)
    requires AllNat(cpus) && count <= |cpus|
    ensures Others(others + VcpuPins(cpus)[..count]) == Others(others)
  {
    hide Dec;
    if count == 0 {
      assert others + VcpuPins(cpus)[..0] == others;
    } else {
      OthersOfPins(others, cpus, count - 1);
      var before, all := others + VcpuPins(cpus)[..count - 1], others + VcpuPins(cpus)[..count];
      assert all[..|all| - 1] == before && all[|all| - 1].VcpuPin?;
    }
  }

  lemma OthersOfWritten(others: seq<Tune>, cpus: seq<int>, text: string)
    requires AllNat(cpus)
    ensures Others(others + VcpuPins(cpus) + [EmulatorPin(text)]) == Others(others)
  {
    hide Dec;
    OthersOfPins(others, cpus, |cpus|);
    assert VcpuPins(cpus)[..|cpus|] == VcpuPins(cpus);
    var front := others + VcpuPins(cpus);
    assert (front + [EmulatorPin(text)])[..|front|] == front;
  }

  /** Applying the pinning to a domain that fits, and reading it again, settles: the bindings do not change. */
  lemma PinningSettles(vcpu: Option<Vcpu>, hotplug: bool, tune: Option<seq<Tune>>, available: set<int>,
                       bound: (set<int>, set<int>))
    requires NonNegative(available) && FitVcpuCount(vcpu, hotplug, available).Ok?
    requires Bindings(tune, FitVcpuCount(vcpu, hotplug, available).value, available) == Ok(bound)
    ensures NonNegative(bound.0) && NonNegative(bound.1)
    ensures var count := FitVcpuCount(vcpu, hotplug, available).value;
      Bindings(Some(PinnedTune(tune, bound.0, bound.1)), count, available) == Ok(bound)
  {
    hide Bindings, FitVcpuCount, PinnedTune;
    FittingCountBinds(vcpu, hotplug, tune, available);
    WriteThenRead(tune, bound.0, bound.1, available);
  }
}

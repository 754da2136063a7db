/** What the CPU sets and bindings of a domain mean, told from its texts. */
module CpuMeanings {
  import opened Outcomes
  import opened Sequences
  import opened Sets
  import opened Sorting
  import opened Text
  import opened CpuSets
  import opened CpuPinning

  // ---- Texts ---------------------------------------------------------------------------------

  /** Tab to carriage return, the four separators, and blank. */
  predicate Blank(c: char) {
    c as int in {9, 10, 11, 12, 13, 28, 29, 30, 31, 32}
  }

  /**
   The core stands at this place of the text with nothing but blanks around it, and does not start or end with
   one.
   */
  predicate Trimmed(text: string, core: string, from: nat) {
    && from + |core| <= |text| && text[from..from + |core|] == core
    && (core != "" ==> !Blank(core[0]) && !Blank(core[|core| - 1]))
    && forall k :: 0 <= k < |text| && !(from <= k < from + |core|) ==> Blank(text[k])
  }

  lemma {:induction false} LeftMeans(s: string) returns (from: nat)
    ensures from <= |s| && StripLeft(s) == s[from..] && forall k :: 0 <= k < from ==> Blank(s[k])
    ensures from < |s| ==> !Blank(s[from])
  {
    from := 0;
    if s != "" && IsSpace(s[0]) {
      from := LeftMeans(s[1..]);
      assert forall k :: 0 < k <= from ==> s[k] == s[1..][k - 1];
      from := from + 1;
    }
  }

  lemma {:induction false} RightMeans(s: string) returns (to: nat)
    ensures to <= |s| && StripRight(s) == s[..to] && forall k :: to <= k < |s| ==> Blank(s[k])
    ensures to > 0 ==> !Blank(s[to - 1])
  {
    to := |s|;
    if s != "" && IsSpace(s[|s| - 1]) {
      to := RightMeans(s[..|s| - 1]);
      assert s[..|s| - 1][..to] == s[..to];
    }
  }

  lemma StripMeans(text: string) returns (from: nat)
    ensures Trimmed(text, Strip(text), from)
  {
    hide StripLeft, StripRight;
    from := LeftMeans(text);
    var to := RightMeans(text[from..]);
    assert text[from..][..to] == text[from..from + to];
    forall k | 0 <= k < |text| && !(from <= k < from + to)
      ensures Blank(text[k])
    {
      if k >= from {
        assert text[from..][k - from] == text[k];
      }
    }
  }

  lemma OneCore(text: string, a: string, i: nat, b: string, j: nat)
    requires Trimmed(text, a, i) && Trimmed(text, b, j)
    ensures a == b
  {
    hide Blank;
    if a != "" {
      assert text[i] == a[0] && text[i + |a| - 1] == a[|a| - 1];
    }
    if b != "" {
      assert text[j] == b[0] && text[j + |b| - 1] == b[|b| - 1];
    }
  }

  /** A printed or padded number: nothing but blanks around its digits. */
  lemma StripIs(text: string, core: string, from: nat)
    requires Trimmed(text, core, from)
    ensures Strip(text) == core
  {
    hide Strip, Trimmed;
    var other := StripMeans(text);
    OneCore(text, core, from, Strip(text), other);
  }

  // ---- CPU sets ------------------------------------------------------------------------------

  /** The text is two numbers around the dash at this place, not in falling order, and the set is what lies between. */
  ghost predicate Between(core: string, dash: nat, cpus: set<int>) {
    && dash < |core| && core[dash] == '-' && AreDigits(core[..dash], 10) && AreDigits(core[dash + 1..], 10)
    && Value(core[..dash], 10) <= Value(core[dash + 1..], 10)
    && forall x :: x in cpus <==> Value(core[..dash], 10) <= x <= Value(core[dash + 1..], 10)
  }

  /** Nothing, one number, or a range. */
  ghost predicate Denotes(core: string, cpus: set<int>) {
    || (core == "" && cpus == {})
    || (AreDigits(core, 10) && cpus == {Value(core, 10)})
    || exists dash :: Between(core, dash, cpus)
  }

  ghost predicate ItemDenotes(text: string, cpus: set<int>) {
    exists core, from :: Trimmed(text, core, from) && Denotes(core, cpus)
  }

  lemma DigitsHaveNoDash(s: string, k: nat)
    requires AreDigits(s, 10) && k < |s|
    ensures s[k] != '-'
  {
    assert DigitValue('-') == 16;
  }

  lemma NoDigits()
    ensures !AreDigits("", 10)
  {
  }

  lemma OneDash(core: string, dash: nat, cpus: set<int>)
    requires Between(core, dash, cpus)
    ensures dash == DashIn(core) && !AreDigits(core, 10)
  {
    hide Value, AreDigits;
    var at := DashIn(core);
    if at < dash {
      assert core[..dash][at] == '-';
      DigitsHaveNoDash(core[..dash], at);
    }
    if AreDigits(core, 10) {
      DigitsHaveNoDash(core, dash);
    }
  }

  lemma CoreMeans(text: string, cpus: set<int>)
    ensures ParsedItem(text) == Ok(cpus) <==> Denotes(Strip(text), cpus)
  {
    hide Strip, Value, AreDigits;
    var core := Strip(text);
    var at := DashIn(core);
    NoDigits();
    if dash: nat :| Between(core, dash, cpus) {
      OneDash(core, dash, cpus);
      assert cpus == Range(Value(core[..at], 10), Value(core[at + 1..], 10));
    }
    if at < |core| {
      if AreDigits(core, 10) {
        DigitsHaveNoDash(core, at);
      }
      if ParsedItem(text) == Ok(cpus) {
        assert Between(core, at, cpus);
      }
    }
  }

  /** An item is read as a set exactly when it denotes it. */
  lemma ItemMeans(text: string, cpus: set<int>)
    ensures ParsedItem(text) == Ok(cpus) <==> ItemDenotes(text, cpus)
  {
    hide ParsedItem, Strip, Trimmed, Denotes;
    CoreMeans(text, cpus);
    var from := StripMeans(text);
    if core, i :| Trimmed(text, core, i) && Denotes(core, cpus) {
      StripIs(text, core, i);
    }
  }

  ghost predicate ItemsDenote(items: seq<string>, parts: seq<set<int>>) {
    |items| == |parts| && forall i :: 0 <= i < |items| ==> ItemDenotes(items[i], parts[i])
  }

  predicate Union(parts: seq<set<int>>, cpus: set<int>) {
    (forall i, x :: 0 <= i < |parts| && x in parts[i] ==> x in cpus)
    && forall x :: x in cpus ==> exists i :: 0 <= i < |parts| && x in parts[i]
  }

  /** The text is a list of items, separated by commas, that denote the parts of the set. */
  ghost predicate Lists(value: string, items: seq<string>, parts: seq<set<int>>, cpus: set<int>) {
    && items != [] && value == Join(items, ',') && (forall i :: 0 <= i < |items| ==> ',' !in items[i])
    && ItemsDenote(items, parts) && Union(parts, cpus)
  }

  /** The text is a list for this set of available CPUs, which is not empty. */
  ghost predicate SetDenotes(value: string, available: set<int>, cpus: set<int>) {
    cpus != {} && cpus <= available && exists items, parts :: Lists(value, items, parts, cpus)
  }

  lemma UnionSnoc(parts: seq<set<int>>, last: set<int>, before: set<int>)
    requires Union(parts, before)
    ensures Union(parts + [last], before + last)
  {
    var all := parts + [last];
    forall x | x in before + last
      ensures exists i :: 0 <= i < |all| && x in all[i]
    {
      if x in before {
        var i :| 0 <= i < |parts| && x in parts[i];
        assert x in all[i];
      } else {
        assert x in all[|parts|];
      }
    }
  }

  lemma OneUnion(parts: seq<set<int>>, a: set<int>, b: set<int>)
    requires Union(parts, a) && Union(parts, b)
    ensures a == b
  {
    assert forall x :: x in a <==> x in b;
  }

  lemma {:induction false} PartsOf(items: seq<string>) returns (parts: seq<set<int>>)
    requires ParsedItems(items).Ok?
    ensures ItemsDenote(items, parts) && Union(parts, ParsedItems(items).value)
    decreases |items|
  {
    hide ParsedItem, ItemDenotes, Union;
    if items == [] {
      parts := [];
      NoUnion();
    } else {
      var last := ParsedItem(items[|items| - 1]).value;
      var front := PartsOf(items[..|items| - 1]);
      ItemMeans(items[|items| - 1], last);
      UnionSnoc(front, last, ParsedItems(items[..|items| - 1]).value);
      parts := front + [last];
    }
  }

  lemma NoUnion()
    ensures Union([], {})
  {
  }

  lemma {:induction false} PartsRead(items: seq<string>, parts: seq<set<int>>)
    requires ItemsDenote(items, parts)
    ensures ParsedItems(items).Ok? && Union(parts, ParsedItems(items).value)
    decreases |items|
  {
    hide ParsedItem, ItemDenotes, Union;
    if items == [] {
      NoUnion();
      assert parts == [];
    } else {
      var n := |items| - 1;
      PartsRead(items[..n], parts[..n]);
      ItemMeans(items[n], parts[n]);
      UnionSnoc(parts[..n], parts[n], ParsedItems(items[..n]).value);
      assert parts[..n] + [parts[n]] == parts;
    }
  }

  /** A text is read as a set of CPUs exactly when it denotes it. */
  lemma SetMeans(value: string, available: set<int>, cpus: set<int>)
    ensures CpuSets.Parsed(value, available) == Ok(cpus) <==> SetDenotes(value, available, cpus)
  {
    hide ParsedItems, ItemsDenote, Union, Split, Join;
    if CpuSets.Parsed(value, available) == Ok(cpus) {
      var items := Split(value, ',');
      JoinSplit(value, ',');
      var parts := PartsOf(items);
      assert Lists(value, items, parts, cpus);
    }
    if SetDenotes(value, available, cpus) {
      var items, parts :| Lists(value, items, parts, cpus);
      SplitJoin(items, ',');
      PartsRead(items, parts);
      OneUnion(parts, cpus, ParsedItems(items).value);
    }
  }

  /** A printed range: one number, or two with a dash between them. */
  ghost predicate Prints(text: string, start: nat, end: nat) {
    if start == end then Writes(text, start, 10)
    else exists dash :: PrintsRange(text, dash, start, end)
  }

  predicate PrintsRange(text: string, dash: nat, start: nat, end: nat) {
    && dash < |text| && text[dash] == '-' && Writes(text[..dash], start, 10) && Writes(text[dash + 1..], end, 10)
  }

  lemma RangePrints(start: nat, end: nat)
    ensures Prints(RangeText(start, end), start, end)
  {
    hide Writes, Numeral;
    NumeralWrites(start, 10);
    NumeralWrites(end, 10);
    var text := RangeText(start, end);
    if start != end {
      assert text[..|Dec(start)|] == Dec(start) && text[|Dec(start)| + 1..] == Dec(end);
      assert PrintsRange(text, |Dec(start)|, start, end);
    }
  }

  predicate CoversAll(runs: seq<Run>, cpus: set<int>) {
    && (forall i :: 0 <= i < |runs| ==> runs[i].0 <= runs[i].1)
    && (forall i :: 0 <= i < |runs| - 1 ==> runs[i].1 + 1 < runs[i + 1].0)
    && (forall i, x :: 0 <= i < |runs| && runs[i].0 <= x <= runs[i].1 ==> x in cpus)
    && forall x :: x in cpus ==> exists i :: 0 <= i < |runs| && runs[i].0 <= x <= runs[i].1
  }

  ghost predicate PrintsAll(texts: seq<string>, runs: seq<Run>) {
    |texts| == |runs| && forall i :: 0 <= i < |texts| ==> Prints(texts[i], runs[i].0, runs[i].1)
  }

  lemma {:induction false} TextsPrint(runs: seq<Run>)
    ensures PrintsAll(RunTexts(runs), runs)
    decreases |runs|
  {
    hide RangeText, Prints;
    if runs != [] {
      var n := |runs| - 1;
      TextsPrint(runs[..n]);
      RangePrints(runs[n].0, runs[n].1);
    }
  }

  lemma {:induction false} CoveredMeans(runs: seq<Run>, x: int)
    ensures x in Covered(runs) <==> exists i :: 0 <= i < |runs| && runs[i].0 <= x <= runs[i].1
    decreases |runs|
  {
    if runs != [] {
      var n := |runs| - 1;
      CoveredMeans(runs[..n], x);
      if i :| 0 <= i < |runs| && runs[i].0 <= x <= runs[i].1 {
        if i < n {
          assert runs[..n][i] == runs[i];
        }
      }
      if i :| 0 <= i < n && runs[..n][i].0 <= x <= runs[..n][i].1 {
        assert runs[i] == runs[..n][i];
      }
    }
  }

  /** The text of a set: its runs in rising order with gaps between them, each printed, separated by commas. */
  lemma FormatMeans(cpus: set<int>) returns (runs: seq<Run>, texts: seq<string>)
    requires NonNegative(cpus) && cpus != {}
    ensures CpuSets.Formatted(cpus) == Join(texts, ',') && PrintsAll(texts, runs) && CoversAll(runs, cpus)
  {
    hide Runs, RunTexts, SortedSet, Covered, Join, PrintsAll, CoversAll, GoodRuns, Apart;
    SortedNat(cpus);
    SortedSetSorts(cpus);
    var values := SortedSet(cpus);
    assert values == [values[0]] + values[1..];
    runs := Runs(values[0], values[0], values[1..]);
    texts := RunTexts(runs);
    RunsCover(values[0], values[0], values[1..]);
    assert Range(values[0], values[0]) == {values[0]};
    assert Covered(runs) == cpus;
    TextsPrint(runs);
    CoveredAll(runs);
  }

  lemma CoveredAll(runs: seq<Run>)
    requires GoodRuns(runs) && Apart(runs)
    ensures CoversAll(runs, Covered(runs))
  {
    hide Covered;
    forall x
      ensures x in Covered(runs) <==> exists i :: 0 <= i < |runs| && runs[i].0 <= x <= runs[i].1
    {
      CoveredMeans(runs, x);
    }
  }

  // ---- The number of vCPUs -------------------------------------------------------------------

  ghost predicate Numbered(text: string, n: nat) {
    exists core, from :: Trimmed(text, core, from) && AreDigits(core, 10) && Value(core, 10) == n
  }

  /** A count is taken exactly from a plain positive number, when no vCPU is off and none can be plugged in. */
  lemma CountMeans(vcpu: Option<Vcpu>, hotplug: bool, n: nat)
    ensures VcpuCount(vcpu, hotplug) == Ok(n)
       <==> n >= 1 && !hotplug && vcpu.Some? && Numbered(vcpu.value.text, n)
            && (vcpu.value.current.Unset? || vcpu.value.current == Set(n))
  {
    hide Strip, Value, AreDigits, Trimmed;
    if vcpu.Some? {
      var text := vcpu.value.text;
      var from := StripMeans(text);
      if core, i :| Trimmed(text, core, i) && AreDigits(core, 10) && Value(core, 10) == n {
        StripIs(text, core, i);
      }
    }
  }

  // ---- The pins of a domain ------------------------------------------------------------------

  /** The child pins one vCPU to one available CPU. */
  ghost predicate PinsTo(child: Tune, available: set<int>, vcpu: int, cpu: int) {
    child.VcpuPin? && child.vcpu == Some(vcpu) && SetDenotes(child.cpuset, available, {cpu})
  }

  /** Every pin is usable, no vCPU has two, and the map has just these. */
  ghost predicate PinsAre(children: seq<Tune>, available: set<int>, m: map<int, int>) {
    && (forall k :: 0 <= k < |children| && children[k].VcpuPin? ==>
          children[k].vcpu.Some? && children[k].vcpu.value in m
          && PinsTo(children[k], available, children[k].vcpu.value, m[children[k].vcpu.value]))
    && (forall j, k :: 0 <= j < k < |children| && children[j].VcpuPin? && children[k].VcpuPin? ==>
          children[j].vcpu != children[k].vcpu)
    && forall v :: v in m ==> exists k :: 0 <= k < |children| && children[k].VcpuPin? && children[k].vcpu == Some(v)
  }

  lemma OneCpu(value: string, available: set<int>, cpu: int)
    ensures SetDenotes(value, available, {cpu})
       <==> CpuSets.Parsed(value, available).Ok? && |CpuSets.Parsed(value, available).value| == 1
            && TheOne(CpuSets.Parsed(value, available).value) == cpu
  {
    hide SetDenotes, CpuSets.Parsed;
    SetMeans(value, available, {cpu});
    TheOneIs(cpu);
    var parsed := CpuSets.Parsed(value, available);
    if parsed.Ok? && |parsed.value| == 1 {
      OneMember(parsed.value);
    }
  }

  lemma OneMember(s: set<int>)
    requires |s| == 1
    ensures s == {TheOne(s)}
  {
    var x := TheOne(s);
    assert |s - {x}| == 0;
  }

  lemma OthersDoNotMatter(front: seq<Tune>, last: Tune, available: set<int>, m: map<int, int>)
    requires !last.VcpuPin?
    ensures PinsAre(front + [last], available, m) <==> PinsAre(front, available, m)
  {
    hide PinsTo;
    var all := front + [last];
    assert forall k :: 0 <= k < |front| ==> all[k] == front[k];
    if PinsAre(all, available, m) {
      forall v | v in m
        ensures exists k :: 0 <= k < |front| && front[k].VcpuPin? && front[k].vcpu == Some(v)
      {
        var k :| 0 <= k < |all| && all[k].VcpuPin? && all[k].vcpu == Some(v);
        assert front[k].VcpuPin?;
      }
    }
    if PinsAre(front, available, m) {
      forall v | v in m
        ensures exists k :: 0 <= k < |all| && all[k].VcpuPin? && all[k].vcpu == Some(v)
      {
        var k :| 0 <= k < |front| && front[k].VcpuPin? && front[k].vcpu == Some(v);
        assert all[k].VcpuPin?;
      }
    }
  }

  lemma PinAdded(front: seq<Tune>, last: Tune, available: set<int>, m: map<int, int>, vcpu: int, cpu: int)
    requires PinsAre(front, available, m) && PinsTo(last, available, vcpu, cpu) && vcpu !in m
    ensures PinsAre(front + [last], available, m[vcpu := cpu])
  {
    hide PinsTo;
    var all, more := front + [last], m[vcpu := cpu];
    assert last.VcpuPin? && last.vcpu == Some(vcpu) by {
      PinIs(last, available, vcpu, cpu);
    }
    assert all[|front|] == last;
    forall v | v in more
      ensures exists k :: 0 <= k < |all| && all[k].VcpuPin? && all[k].vcpu == Some(v)
    {
      if v in m {
        var k :| 0 <= k < |front| && front[k].VcpuPin? && front[k].vcpu == Some(v);
        assert all[k] == front[k];
      } else {
        assert all[|front|].vcpu == Some(v);
      }
    }
  }

  lemma PinIs(child: Tune, available: set<int>, vcpu: int, cpu: int)
    requires PinsTo(child, available, vcpu, cpu)
    ensures child.VcpuPin? && child.vcpu == Some(vcpu)
  {
  }

  lemma PinRemoved(front: seq<Tune>, last: Tune, available: set<int>, m: map<int, int>)
    requires PinsAre(front + [last], available, m) && last.VcpuPin?
    ensures last.vcpu.Some? && last.vcpu.value in m && PinsTo(last, available, last.vcpu.value, m[last.vcpu.value])
    ensures PinsAre(front, available, m - {last.vcpu.value})
  {
    hide PinsTo;
    var all := front + [last];
    assert all[|front|] == last && forall k :: 0 <= k < |front| ==> all[k] == front[k];
    var vcpu := last.vcpu.value;
    var less := m - {vcpu};
    forall k | 0 <= k < |front| && front[k].VcpuPin?
      ensures front[k].vcpu.Some? && front[k].vcpu.value in less
      ensures PinsTo(front[k], available, front[k].vcpu.value, less[front[k].vcpu.value])
    {
      assert all[k] == front[k] && all[k].vcpu != all[|front|].vcpu;
    }
    forall v | v in less
      ensures exists k :: 0 <= k < |front| && front[k].VcpuPin? && front[k].vcpu == Some(v)
    {
      var k :| 0 <= k < |all| && all[k].VcpuPin? && all[k].vcpu == Some(v);
      assert k < |front|;
      assert front[k] == all[k];
    }
  }

  /** The pins of a domain are usable exactly when such a map exists, which is then the one. */
  lemma {:induction false} PinsMean(children: seq<Tune>, available: set<int>, m: map<int, int>)
    ensures Pins(children, available) == Some(m) <==> PinsAre(children, available, m)
    decreases |children|
  {
    hide CpuSets.Parsed, TheOne, PinsTo, PinsAre, SetDenotes;
    if children == [] {
      NoPins(available, m);
    } else {
      var n := |children| - 1;
      var front, last := children[..n], children[n];
      assert front + [last] == children;
      if !last.VcpuPin? {
        PinsMean(front, available, m);
        OthersDoNotMatter(front, last, available, m);
      } else {
        LastPin(front, last, available, m);
      }
    }
  }

  lemma NoPins(available: set<int>, m: map<int, int>)
    ensures PinsAre([], available, m) <==> m == map[]
  {
    assert m.Keys == {} ==> m == map[];
    assert (forall v :: v !in m) ==> m.Keys == {};
  }

  lemma {:induction false} LastPin(front: seq<Tune>, last: Tune, available: set<int>, m: map<int, int>)
    requires last.VcpuPin?
    ensures Pins(front + [last], available) == Some(m) <==> PinsAre(front + [last], available, m)
    decreases |front + [last]|, 0
  {
    hide CpuSets.Parsed, TheOne, PinsAre, SetDenotes;
    var all, cpus := front + [last], CpuSets.Parsed(last.cpuset, available);
    assert all[..|all| - 1] == front && all[|all| - 1] == last;
    if Pins(all, available) == Some(m) {
      var before, vcpu, cpu := Pins(front, available).value, last.vcpu.value, TheOne(cpus.value);
      PinsMean(front, available, before);
      OneCpu(last.cpuset, available, cpu);
      PinAdded(front, last, available, before, vcpu, cpu);
    }
    if PinsAre(all, available, m) {
      PinRemoved(front, last, available, m);
      var vcpu := last.vcpu.value;
      PinsMean(front, available, m - {vcpu});
      OneCpu(last.cpuset, available, m[vcpu]);
      assert m == (m - {vcpu})[vcpu := m[vcpu]];
    }
  }

  // ---- The CPUs chosen -----------------------------------------------------------------------

  /** The domain's own pins give every vCPU below the count a CPU of its own, and these are they. */
  ghost predicate OwnCpus(tune: Option<seq<Tune>>, count: nat, available: set<int>, cpus: set<int>) {
    tune.Some? && exists m :: PinsAre(tune.value, available, m) && OnePerVcpu(m, count, cpus)
  }

  ghost predicate OnePerVcpu(m: map<int, int>, count: nat, cpus: set<int>) {
    && (forall i :: i in m <==> 0 <= i < count) && cpus == m.Values
    && forall i, j :: 0 <= i < j < count ==> m[i] != m[j]
  }

  /** The smallest CPUs that are available. */
  predicate Smallest(available: set<int>, count: nat, cpus: set<int>) {
    cpus <= available && |cpus| == count && forall x, y :: x in cpus && y in available && y !in cpus ==> x < y
  }

  /** The domain's own pins where they are usable, and the smallest CPUs otherwise. */
  ghost predicate ChosenCpus(tune: Option<seq<Tune>>, count: nat, available: set<int>, cpus: set<int>) {
    OwnCpus(tune, count, available, cpus)
    || ((forall other :: !OwnCpus(tune, count, available, other)) && Smallest(available, count, cpus))
  }

  /** The first emulator pin, if its CPUs are available and no vCPU's, and all other CPUs otherwise. */
  ghost predicate EmulatorCpus(tune: Option<seq<Tune>>, available: set<int>, vcpus: set<int>, cpus: set<int>) {
    OwnEmulator(tune, available, vcpus, cpus)
    || ((forall other :: !OwnEmulator(tune, available, vcpus, other)) && cpus == available - vcpus)
  }

  ghost predicate OwnEmulator(tune: Option<seq<Tune>>, available: set<int>, vcpus: set<int>, cpus: set<int>) {
    && tune.Some? && cpus * vcpus == {}
    && exists k ::
      0 <= k < |tune.value| && FirstEmulatorPin(tune.value, k) && SetDenotes(tune.value[k].cpuset, available, cpus)
  }

  predicate FirstEmulatorPin(children: seq<Tune>, k: nat)
    requires k < |children|
  {
    children[k].EmulatorPin? && forall j :: 0 <= j < k ==> !children[j].EmulatorPin?
  }

  ghost predicate Counted(m: map<int, int>, count: nat) {
    forall i :: i in m <==> 0 <= i < count
  }

  predicate Distinct(m: map<int, int>, count: nat) {
    forall i, j :: 0 <= i < j < count && i in m && j in m ==> m[i] != m[j]
  }

  lemma {:induction false} DistinctValues(m: map<int, int>, count: nat)
    requires Counted(m, count)
    ensures (|m.Values| == count <==> Distinct(m, count)) && |m.Values| <= count
    decreases count
  {
    hide Distinct;
    if count == 0 {
      assert forall i :: i !in m;
      assert m == map[];
      NoneDistinct(m);
    } else {
      DistinctValues(m - {count - 1}, count - 1);
      ValuesWithout(m, count - 1);
      DistinctSnoc(m, count - 1);
    }
  }

  lemma NoneDistinct(m: map<int, int>)
    ensures Distinct(m, 0)
  {
  }

  lemma DistinctSnoc(m: map<int, int>, last: nat)
    requires Counted(m, last + 1)
    ensures Distinct(m, last + 1) <==> Distinct(m - {last}, last) && m[last] !in (m - {last}).Values
  {
    var less := m - {last};
    assert forall i :: 0 <= i < last ==> i in less && less[i] == m[i];
    if m[last] in less.Values {
      var i := KeyOf(less, m[last]);
      assert m[i] == m[last];
    } else {
      assert forall i :: 0 <= i < last ==> less[i] in less.Values;
    }
  }

  lemma KeyOf(m: map<int, int>, v: int) returns (i: int)
    requires v in m.Values
    ensures i in m && m[i] == v
  {
    if forall k :: k in m ==> m[k] != v {
      assert false;
    }
    i :| i in m && m[i] == v;
  }

  lemma ValuesWithout(m: map<int, int>, key: int)
    requires key in m
    ensures m.Values == (m - {key}).Values + {m[key]}
    ensures |m.Values| == |(m - {key}).Values| + if m[key] in (m - {key}).Values then 0 else 1
  {
    var less := m - {key};
    forall v | v in m.Values
      ensures v in less.Values + {m[key]}
    {
      var i := KeyOf(m, v);
      assert i != key ==> less[i] == v;
    }
    forall v | v in less.Values
      ensures v in m.Values
    {
      var i := KeyOf(less, v);
      assert m[i] == v;
    }
    assert m.Values == less.Values + {m[key]};
    if m[key] in less.Values {
      assert m.Values == less.Values;
    }
  }

  /** The map that the pins make is the only one, so their CPUs are. */
  lemma OwnMean(tune: Option<seq<Tune>>, count: nat, available: set<int>, cpus: set<int>)
    ensures OwnCpus(tune, count, available, cpus)
       <==> tune.Some? && Pinned(tune.value, count, available) == Some(cpus)
  {
    hide PinsAre, Pins, Range;
    if tune.Some? {
      var pins := Pins(tune.value, available);
      if pins.Some? {
        PinsMean(tune.value, available, pins.value);
        KeysCount(pins.value, count);
      }
      forall m | PinsAre(tune.value, available, m)
        ensures pins == Some(m)
      {
        PinsMean(tune.value, available, m);
      }
      assert OwnCpus(tune, count, available, cpus)
         ==> pins.Some? && OnePerVcpu(pins.value, count, cpus);
    }
  }

  lemma KeysCount(m: map<int, int>, count: nat)
    ensures (forall i :: i in m <==> 0 <= i < count) <==> m.Keys == Range(0, count - 1)
    ensures (forall i :: i in m <==> 0 <= i < count)
            ==> (|m.Values| == count <==> forall i, j :: 0 <= i < j < count ==> m[i] != m[j])
  {
    if forall i :: i in m <==> 0 <= i < count {
      DistinctValues(m, count);
      assert Distinct(m, count) <==> forall i, j :: 0 <= i < j < count ==> m[i] != m[j];
    }
  }

  lemma SmallestMeans(available: set<int>, count: nat, cpus: set<int>)
    ensures Smallest(available, count, cpus)
       <==> count <= |available| && cpus == Elements(SortedSet(available)[..count])
  {
    hide SortedSet;
    if count <= |available| {
      FirstAreSmallest(available, count);
      if Smallest(available, count, cpus) {
        OneSmallest(available, count, cpus, Elements(SortedSet(available)[..count]));
      }
    }
    if Smallest(available, count, cpus) {
      SubsetSize(cpus, available);
    }
  }

  lemma FirstAreSmallest(available: set<int>, count: nat)
    requires count <= |available|
    ensures Smallest(available, count, Elements(SortedSet(available)[..count]))
  {
    hide SortedSet;
    TakenFromSorted(available, count);
    SortedSetSorts(available);
    var all := SortedSet(available);
    assert forall k :: 0 <= k < count ==> all[..count][k] == all[k] && all[k] in Elements(all[..count]);
    forall x, y | x in Elements(all[..count]) && y in available && y !in Elements(all[..count])
      ensures x < y
    {
      var i :| 0 <= i < count && all[..count][i] == x;
      assert y in Elements(all);
      var j :| 0 <= j < |all| && all[j] == y;
    }
  }

  lemma OneSmallest(available: set<int>, count: nat, a: set<int>, b: set<int>)
    requires Smallest(available, count, a) && Smallest(available, count, b)
    ensures a == b
  {
    hide Smallest;
    SmallestSize(available, count, a);
    SmallestSize(available, count, b);
    EqualRests(a, b);
    if |a - b| == 0 {
      NothingOutside(a, b);
      SameSize(a, b);
    } else {
      HasMember(a - b);
      HasMember(b - a);
      var x :| x in a - b;
      var y :| y in b - a;
      NoStrangers(available, count, a, b, x, y);
    }
  }

  lemma SmallestSize(available: set<int>, count: nat, cpus: set<int>)
    requires Smallest(available, count, cpus)
    ensures |cpus| == count
  {
  }

  lemma NoStrangers(available: set<int>, count: nat, a: set<int>, b: set<int>, x: int, y: int)
    requires Smallest(available, count, a) && Smallest(available, count, b) && x in a && y in b
    ensures x in b || y in a
  {
  }

  lemma EqualRests(a: set<int>, b: set<int>)
    requires |a| == |b|
    ensures |a - b| == |b - a|
  {
    assert a == (a - b) + a * b && b == (b - a) + a * b;
  }

  lemma ChosenMeans(tune: Option<seq<Tune>>, count: nat, available: set<int>, cpus: set<int>)
    ensures Selected(tune, count, available) == Ok(cpus) <==> ChosenCpus(tune, count, available, cpus)
  {
    hide Pinned, OwnCpus, Smallest, SortedSet;
    OwnMean(tune, count, available, cpus);
    SmallestMeans(available, count, cpus);
    if tune.Some? && Pinned(tune.value, count, available).Some? {
      OwnMean(tune, count, available, Pinned(tune.value, count, available).value);
    }
    if other :| OwnCpus(tune, count, available, other) {
      OwnMean(tune, count, available, other);
    }
  }

  lemma EmulatorMeans(tune: Option<seq<Tune>>, available: set<int>, vcpus: set<int>, cpus: set<int>)
    ensures cpus == (if tune.Some? then Emulator(tune.value, vcpus, available) else available - vcpus)
       <==> EmulatorCpus(tune, available, vcpus, cpus)
  {
    hide CpuSets.Parsed, SetDenotes;
    if tune.Some? {
      var children := tune.value;
      var i := FirstEmulator(children);
      forall other
        ensures OwnEmulator(tune, available, vcpus, other)
           <==> i < |children| && CpuSets.Parsed(children[i].cpuset, available) == Ok(other) && other * vcpus == {}
      {
        if i < |children| {
          SetMeans(children[i].cpuset, available, other);
          assert FirstEmulatorPin(children, i);
        }
      }
    }
  }

  /**
   The bindings of a domain: the vCPUs get the domain's own CPUs if its pins are usable and the smallest available ones
   otherwise; the emulator gets its own if it has any apart from these and all that are left otherwise, but not none.
   */
  lemma BindingsMean(tune: Option<seq<Tune>>, count: nat, available: set<int>, vcpus: set<int>, emulator: set<int>)
    ensures Bindings(tune, count, available) == Ok((vcpus, emulator))
       <==> ChosenCpus(tune, count, available, vcpus) && EmulatorCpus(tune, available, vcpus, emulator)
            && emulator != {}
  {
    hide Selected, Emulator, ChosenCpus, EmulatorCpus;
    ChosenMeans(tune, count, available, vcpus);
    EmulatorMeans(tune, available, vcpus, emulator);
  }

  // ---- What pinning writes -------------------------------------------------------------------

  /** The places of the children that are not pins, in order. */
  predicate Remain(children: seq<Tune>, places: seq<nat>, kept: seq<Tune>) {
    && |places| == |kept|
    && (forall i :: 0 <= i < |places| ==>
          places[i] < |children| && children[places[i]] == kept[i] && kept[i].OtherTune?)
    && (forall i, j :: 0 <= i < j < |places| ==> places[i] < places[j])
    && forall k :: 0 <= k < |children| && children[k].OtherTune? ==> k in places
  }

  lemma RemainSnoc(front: seq<Tune>, last: Tune, places: seq<nat>, kept: seq<Tune>)
    requires Remain(front, places, kept) && last.OtherTune?
    ensures Remain(front + [last], places + [|front|], kept + [last])
  {
    var more := places + [|front|];
    assert forall k :: k in places ==> k in more;
    assert more[|places|] == |front|;
  }

  lemma RemainSkip(front: seq<Tune>, last: Tune, places: seq<nat>, kept: seq<Tune>)
    requires Remain(front, places, kept) && !last.OtherTune?
    ensures Remain(front + [last], places, kept)
  {
  }

  lemma {:induction false} OthersRemain(children: seq<Tune>) returns (places: seq<nat>)
    ensures Remain(children, places, Others(children))
    decreases |children|
  {
    hide Remain;
    if children == [] {
      places := [];
      NoneRemain();
    } else {
      var n := |children| - 1;
      var before := OthersRemain(children[..n]);
      assert children == children[..n] + [children[n]];
      if children[n].OtherTune? {
        RemainSnoc(children[..n], children[n], before, Others(children[..n]));
        places := before + [n];
      } else {
        assert Others(children[..n]) + [] == Others(children[..n]);
        RemainSkip(children[..n], children[n], before, Others(children[..n]));
        places := before;
      }
    }
  }

  lemma NoneRemain()
    ensures Remain([], [], [])
  {
  }

  /** Each vCPU is pinned to one CPU, in rising order, and the emulator to its own. */
  ghost predicate PinsWritten(pins: seq<Tune>, vcpus: set<int>, emulator: set<int>, cpus: seq<int>)
    requires NonNegative(emulator)
  {
    && |pins| == |cpus| + 1 && (forall i, j :: 0 <= i < j < |cpus| ==> cpus[i] < cpus[j]) && Elements(cpus) == vcpus
    && (forall i :: 0 <= i < |cpus| ==>
          cpus[i] >= 0 && pins[i].VcpuPin? && pins[i].vcpu == Some(i) && Writes(pins[i].cpuset, cpus[i], 10))
    && pins[|cpus|] == EmulatorPin(CpuSets.Formatted(emulator))
  }

  /** Pinning leaves the children that are not pins, in their order, and puts the new pins behind them. */
  lemma PinnedMeans(tune: Option<seq<Tune>>, vcpus: set<int>, emulator: set<int>)
    returns (places: seq<nat>, kept: seq<Tune>, pins: seq<Tune>, cpus: seq<int>)
    requires NonNegative(vcpus) && NonNegative(emulator)
    ensures PinnedTune(tune, vcpus, emulator) == kept + pins
    ensures Remain(if tune.Some? then tune.value else [], places, kept)
    ensures PinsWritten(pins, vcpus, emulator, cpus)
  {
    hide SortedSet, Formatted, Others, Writes, Numeral;
    var children := if tune.Some? then tune.value else [];
    places := OthersRemain(children);
    SortedSetSorts(vcpus);
    SortedNat(vcpus);
    cpus, kept := SortedSet(vcpus), Others(children);
    pins := VcpuPins(cpus) + [EmulatorPin(CpuSets.Formatted(emulator))];
    assert PinnedTune(tune, vcpus, emulator) == kept + pins;
    forall i | 0 <= i < |cpus|
      ensures Writes(pins[i].cpuset, cpus[i], 10)
    {
      NumeralWrites(cpus[i], 10);
    }
  }
}

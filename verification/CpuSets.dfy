/** CPU sets as text: `parse_cpu_set` and `format_cpu_set` of `04_apply_spoof.py`. */
module CpuSets {
  import opened Outcomes
  import opened Sequences
  import opened Sorting
  import opened Text

  /** `str.isspace` on one ASCII character. */
  predicate IsSpace(c: char) {
    c == ' ' || 9 <= c as int <= 13 || 28 <= c as int <= 31
  }

  function StripLeft(s: string): string {
    if s != "" && IsSpace(s[0]) then StripLeft(s[1..]) else s
  }

  function StripRight(s: string): string {
    if s != "" && IsSpace(s[|s| - 1]) then StripRight(s[..|s| - 1]) else s
  }

  /** `str.strip`. */
  function Strip(s: string): string {
    StripRight(StripLeft(s))
  }

  /** The position of the first dash, or the length of the text. */
  function DashIn(s: string): (i: nat)
    ensures i <= |s| && (i < |s| ==> s[i] == '-')
    ensures forall k :: 0 <= k < i ==> s[k] != '-'
  {
    if s == "" || s[0] == '-' then 0 else 1 + DashIn(s[1..])
  }

  /** `range(start, end + 1)`. */
  function Range(start: int, end: int): (r: set<int>)
    ensures forall x :: x in r <==> start <= x <= end
    decreases end - start
  {
    if end < start then {} else Range(start, end - 1) + {end}
  }

  predicate NonNegative(cpus: set<int>) {
    forall x :: x in cpus ==> x >= 0
  }

  /** One comma-separated item: nothing, a number, or a range that does not run backwards. */
  function ParsedItem(text: string): Result<set<int>> {
    var item := Strip(text);
    var dash := DashIn(item);
    if item == "" then Ok({})
    else if dash < |item| then
      var startText, endText := item[..dash], item[dash + 1..];
      if !IsDigit(startText) || !IsDigit(endText) || Value(endText, 10) < Value(startText, 10) then Err(ValueError)
      else Ok(Range(Value(startText, 10), Value(endText, 10)))
    else if IsDigit(item) then Ok({Value(item, 10)})
    else Err(ValueError)
  }

  function ParsedItems(items: seq<string>): Result<set<int>> {
    if items == [] then Ok({})
    else
      var before :- ParsedItems(items[..|items| - 1]);
      var last :- ParsedItem(items[|items| - 1]);
      Ok(before + last)
  }

  function Parsed(value: string, available: set<int>): Result<set<int>> {
    var cpus :- ParsedItems(Split(value, ','));
    if cpus == {} || !(cpus <= available) then Err(ValueError) else Ok(cpus)
  }

  lemma {:induction false} ParseErrors(items: seq<string>, k: nat)
    requires k <= |items| && ParsedItems(items[..k]).Err?
    ensures ParsedItems(items) == Err(ValueError)
  {
    hide ParsedItem;
    if k == |items| {
      assert items[..k] == items;
      AllValueErrors(items);
    } else {
      assert items[..|items| - 1][..k] == items[..k];
      ParseErrors(items[..|items| - 1], k);
    }
  }

  lemma ItemErrors(item: string)
    ensures ParsedItem(item).Err? ==> ParsedItem(item) == Err(ValueError)
  {
  }

  lemma {:induction false} AllValueErrors(items: seq<string>)
    ensures ParsedItems(items).Err? ==> ParsedItems(items) == Err(ValueError)
  {
    hide ParsedItem;
    if items != [] {
      AllValueErrors(items[..|items| - 1]);
      ItemErrors(items[|items| - 1]);
    }
  }

  /** `parse_cpu_set`. */
  method ParseCpuSet(value: string, available: set<int>) returns (r: Result<set<int>>)
    ensures r == Parsed(value, available)
  {
    hide ParsedItem, Split;
    var result: set<int> := {};
    var items := Split(value, ',');
    for i := 0 to |items|
      invariant ParsedItems(items[..i]) == Ok(result)
    {
      assert items[..i + 1][..i] == items[..i];
      var item := ParsedItem(items[i]);
      if item.Err? {
        ParseErrors(items, i + 1);
        return Err(ValueError);
      }
      result := result + item.value;
    }
    assert items[..|items|] == items;
    if result == {} || !(result <= available) {
      return Err(ValueError);
    }
    return Ok(result);
  }

  // ---- Printing ------------------------------------------------------------------------------

  /** A printed range; a single CPU prints as itself. */
  function RangeText(start: nat, end: nat): string {
    if start == end then Dec(start) else Dec(start) + "-" + Dec(end)
  }

  type Run = (nat, nat)

  predicate AllNat(s: seq<int>) {
    forall i :: 0 <= i < |s| ==> s[i] >= 0
  }

  /** The runs of consecutive numbers in an ascending list, the first one already begun. */
  function Runs(start: nat, previous: nat, rest: seq<int>): (runs: seq<Run>)
    requires AllNat(rest)
    ensures runs != [] && runs[0].0 == start
    decreases |rest|
  {
    if rest == [] then [(start, previous)]
    else if rest[0] == previous + 1 then Runs(start, rest[0], rest[1..])
    else [(start, previous)] + Runs(rest[0], rest[0], rest[1..])
  }

  function RunTexts(runs: seq<Run>): seq<string> {
    seq(|runs|, i requires 0 <= i < |runs| => RangeText(runs[i].0, runs[i].1))
  }

  function Formatted(cpus: set<int>): string
    requires NonNegative(cpus)
  {
    SortedNat(cpus);
    var values := SortedSet(cpus);
    if values == [] then "" else Join(RunTexts(Runs(values[0], values[0], values[1..])), ',')
  }

  lemma SortedNat(cpus: set<int>)
    requires NonNegative(cpus)
    ensures AllNat(SortedSet(cpus))
  {
    SortedSetSorts(cpus);
    var s := SortedSet(cpus);
    forall i | 0 <= i < |s|
      ensures s[i] >= 0
    {
      assert s[i] in Elements(s);
    }
  }

  /** `format_cpu_set`. */
  method FormatCpuSet(cpus: set<int>) returns (text: string)
    requires NonNegative(cpus)
    ensures text == Formatted(cpus)
  {
    hide RangeText, SortedSet, Join, Runs;
    SortedNat(cpus);
    var values := SortedSet(cpus);
    if values == [] {
      return "";
    }
    var ranges: seq<string> := [];
    var start: nat, previous: nat := values[0], values[0];
    for i := 1 to |values|
      invariant RunTexts(Runs(values[0], values[0], values[1..]))
                == ranges + RunTexts(Runs(start, previous, values[i..]))
    {
      var value := values[i];
      assert values[i..][0] == value && values[i..][1..] == values[i + 1..];
      RunsStep(start, previous, values[i..]);
      if value == previous + 1 {
        previous := value;
      } else {
        RunTextsCons((start, previous), Runs(value, value, values[i + 1..]));
        ranges := ranges + [RangeText(start, previous)];
        start, previous := value, value;
      }
    }
    assert values[|values|..] == [];
    RunsStep(start, previous, []);
    RunTextsCons((start, previous), []);
    assert [(start, previous)] + [] == [(start, previous)] && RunTexts([]) == [];
    assert RunTexts(Runs(start, previous, [])) == [RangeText(start, previous)];
    ranges := ranges + [RangeText(start, previous)];
    return Join(ranges, ',');
  }

  lemma RunsStep(start: nat, previous: nat, rest: seq<int>)
    requires AllNat(rest)
    ensures Runs(start, previous, rest) == if rest == [] then [(start, previous)]
                                           else if rest[0] == previous + 1 then Runs(start, rest[0], rest[1..])
                                           else [(start, previous)] + Runs(rest[0], rest[0], rest[1..])
  {
  }

  lemma RunTextsCons(run: Run, runs: seq<Run>)
    ensures RunTexts([run] + runs) == [RangeText(run.0, run.1)] + RunTexts(runs)
  {
    hide RangeText;
  }

  // ---- Round trip ----------------------------------------------------------------------------

  predicate PlainChar(c: char) {
    '0' <= c <= '9' || c == '-'
  }

  predicate PlainText(s: string) {
    s != "" && forall i :: 0 <= i < |s| ==> PlainChar(s[i])
  }

  lemma DecPlain(n: nat)
    ensures IsDigit(Dec(n)) && Value(Dec(n), 10) == n
    ensures PlainText(Dec(n)) && '-' !in Dec(n)
  {
    NumeralRoundTrip(n, 10);
    hide Value, Numeral;
    forall i | 0 <= i < |Dec(n)|
      ensures '0' <= Dec(n)[i] <= '9'
    {
      assert DigitValue(Dec(n)[i]) < 10;
    }
  }

  lemma RangeTextPlain(start: nat, end: nat)
    ensures PlainText(RangeText(start, end)) && ',' !in RangeText(start, end)
  {
    hide Dec, Value, IsDigit;
    DecPlain(start);
    DecPlain(end);
    assert forall i :: 0 <= i < |RangeText(start, end)| ==> PlainChar(RangeText(start, end)[i]);
  }

  lemma PlainStrips(s: string)
    requires PlainText(s)
    ensures Strip(s) == s
  {
    assert PlainChar(s[0]) && PlainChar(s[|s| - 1]);
  }

  lemma {:induction false} DashIs(s: string, i: nat)
    requires i <= |s| && (forall k :: 0 <= k < i ==> s[k] != '-') && (i < |s| ==> s[i] == '-')
    ensures DashIn(s) == i
  {
    if i > 0 {
      DashIs(s[1..], i - 1);
    }
  }

  /** Reading a printed range gives its numbers. */
  lemma RangeRoundTrip(start: nat, end: nat)
    requires start <= end
    ensures ParsedItem(RangeText(start, end)) == Ok(Range(start, end))
  {
    hide Dec, Value, IsDigit, Strip;
    var text := RangeText(start, end);
    DecPlain(start);
    DecPlain(end);
    RangeTextPlain(start, end);
    PlainStrips(text);
    if start == end {
      DashIs(text, |text|);
      assert Range(start, end) == {start};
    } else {
      DashIs(text, |Dec(start)|);
      assert text[..|Dec(start)|] == Dec(start) && text[|Dec(start)| + 1..] == Dec(end);
    }
  }

  predicate GoodRuns(runs: seq<Run>) {
    forall i :: 0 <= i < |runs| ==> runs[i].0 <= runs[i].1
  }

  function Covered(runs: seq<Run>): set<int> {
    if runs == [] then {} else Covered(runs[..|runs| - 1]) + Range(runs[|runs| - 1].0, runs[|runs| - 1].1)
  }

  lemma {:induction false} RunsRoundTrip(runs: seq<Run>)
    requires GoodRuns(runs)
    ensures ParsedItems(RunTexts(runs)) == Ok(Covered(runs))
  {
    hide RangeText, ParsedItem;
    if runs != [] {
      var last := runs[|runs| - 1];
      RunsRoundTrip(runs[..|runs| - 1]);
      RangeRoundTrip(last.0, last.1);
      assert RunTexts(runs)[..|runs| - 1] == RunTexts(runs[..|runs| - 1]);
    }
  }

  lemma {:induction false} CoveredCons(run: Run, runs: seq<Run>)
    ensures Covered([run] + runs) == Range(run.0, run.1) + Covered(runs)
  {
    hide Range;
    if runs == [] {
      assert [run] + runs == [run] && [run][..0] == [];
    } else {
      CoveredCons(run, runs[..|runs| - 1]);
      assert ([run] + runs)[..|runs|] == [run] + runs[..|runs| - 1];
    }
  }

  /** A run is followed by a gap of at least one number, so runs are as long as they can be. */
  predicate Apart(runs: seq<Run>) {
    forall i :: 0 <= i < |runs| - 1 ==> runs[i].1 + 1 < runs[i + 1].0
  }

  /** The runs of an ascending list cover exactly its numbers, and no two of them touch. */
  lemma {:induction false} RunsCover(start: nat, previous: nat, rest: seq<int>)
    requires start <= previous && AllNat(rest) && Ascending([previous as int] + rest)
    ensures GoodRuns(Runs(start, previous, rest)) && Apart(Runs(start, previous, rest))
    ensures Covered(Runs(start, previous, rest)) == Range(start, previous) + Elements(rest)
    decreases |rest|
  {
    hide Covered, Elements;
    var all := [previous as int] + rest;
    if rest == [] {
      NoElements();
      OneRun(start, previous);
    } else {
      var next: nat := rest[0];
      assert all[0] < all[1];
      assert Ascending([next as int] + rest[1..]) by {
        assert [next as int] + rest[1..] == all[1..];
      }
      assert rest == [rest[0]] + rest[1..];
      ElementsCons(rest[0], rest[1..]);
      if next == previous + 1 {
        RunsCover(start, next, rest[1..]);
        assert Range(start, next) == Range(start, previous) + {next as int};
      } else {
        RunsCover(next, next, rest[1..]);
        CoveredCons((start, previous), Runs(next, next, rest[1..]));
        assert Range(next, next) == {next as int};
      }
    }
  }

  lemma NoElements()
    ensures Elements<int>([]) == {}
  {
  }

  lemma OneRun(start: nat, end: nat)
    ensures Covered([(start, end)]) == Range(start, end)
  {
    assert [(start, end)][..0] == [];
    assert Covered([]) == {};
  }

  /** Parsing inverts printing on every nonempty set of available CPUs. */
  lemma FormatThenParse(cpus: set<int>, available: set<int>)
    requires cpus != {} && cpus <= available && NonNegative(cpus)
    ensures Parsed(Formatted(cpus), available) == Ok(cpus)
  {
    hide ParsedItem, RangeText, Covered, Split, Join, SortedSet;
    SortedNat(cpus);
    SortedSetSorts(cpus);
    var values := SortedSet(cpus);
    var runs := Runs(values[0], values[0], values[1..]);
    assert values == [values[0]] + values[1..];
    RunsCover(values[0], values[0], values[1..]);
    assert Range(values[0], values[0]) == {values[0]};
    assert Covered(runs) == cpus;
    RunsRoundTrip(runs);
    forall i | 0 <= i < |runs|
      ensures ',' !in RunTexts(runs)[i]
    {
      RangeTextPlain(runs[i].0, runs[i].1);
    }
    SplitJoin(RunTexts(runs), ',');
  }

  /** So two sets print alike only when they are the same. */
  lemma FormatInjective(a: set<int>, b: set<int>)
    requires a != {} && b != {} && NonNegative(a) && NonNegative(b) && Formatted(a) == Formatted(b)
    ensures a == b
  {
    hide Formatted, Parsed;
    FormatThenParse(a, a + b);
    FormatThenParse(b, a + b);
  }

  /** A single CPU number, printed alone, reads as the set of that CPU. */
  lemma NumberRoundTrip(cpu: nat, available: set<int>)
    requires cpu in available
    ensures Parsed(Dec(cpu), available) == Ok({cpu as int})
  {
    hide ParsedItem, Split;
    RangeRoundTrip(cpu, cpu);
    RangeTextPlain(cpu, cpu);
    SplitOne(Dec(cpu), ',');
    assert RangeText(cpu, cpu) == Dec(cpu);
    assert ParsedItems([Dec(cpu)]) == Ok({} + {cpu as int});
    assert [Dec(cpu)][..0] == [];
    assert Range(cpu, cpu) == {cpu as int};
  }
}

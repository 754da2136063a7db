/**
 The host's connector, slot and supplemental structures: `encode_host_smbios_table` copies them into the
 profile, and the builder accepts the copies only as far as their string numbers survive the copying.
 */
module HostTables {
  import opened Outcomes
  import opened Bytes
  import opened HostText
  import opened Sequences
  import opened Structures
  import opened TableRules
  import opened ProfileStream
  import opened StreamSoundness
  import opened StreamBuilding

  // ----- copying -----

  const NO_NAME := "NA"

  /** A string with something to say, which is kept wherever it stands. */
  predicate Named(s: string) {
    AsciiClean(s) != "" && AsciiClean(s) != NO_NAME
  }

  function Labelled(s: string): string {
    if AsciiClean(s) == "" then NO_NAME else AsciiClean(s)
  }

  function LabelledAll(strings: seq<string>): (r: seq<string>)
    ensures |r| == |strings| && forall i :: 0 <= i < |strings| ==> r[i] == Labelled(strings[i])
  {
    seq(|strings|, i requires 0 <= i < |strings| => Labelled(strings[i]))
  }

  /** The number of the last string that is named, or zero. */
  function LastNamed(strings: seq<string>): (n: nat)
    ensures n <= |strings|
  {
    if strings == [] then 0
    else if Named(strings[|strings| - 1]) then |strings|
    else LastNamed(strings[..|strings| - 1])
  }

  lemma {:induction false} LastNamedMeans(strings: seq<string>, n: nat)
    requires n <= |strings|
    ensures n == LastNamed(strings)
            <==> (n == 0 || Named(strings[n - 1])) && forall i :: n <= i < |strings| ==> !Named(strings[i])
  {
    hide Named;
    if strings != [] {
      var front := strings[..|strings| - 1];
      if n < |strings| {
        LastNamedMeans(front, n);
        assert forall i :: n <= i < |front| ==> front[i] == strings[i];
      }
    }
  }

  /** `encode_host_smbios_table`. */
  function Encoded(kind: int, formatted: seq<Byte>, strings: seq<string>): Result<Copied> {
    if |formatted| < HEADER then Err(RuntimeError)
    else Ok(Copied(kind, formatted[HEADER..], LabelledAll(strings)[..LastNamed(strings)]))
  }

  method EncodeHostSmbiosTable(kind: int, formatted: seq<Byte>, strings: seq<string>) returns (r: Result<Copied>)
    ensures r == Encoded(kind, formatted, strings)
  {
    hide AsciiClean, LastNamed, Named;
    if |formatted| < HEADER {
      return Err(RuntimeError);
    }
    var cleaned: seq<string> := [];
    for i := 0 to |strings|
      invariant cleaned == LabelledAll(strings)[..i]
    {
      var text := AsciiClean(strings[i]);
      cleaned := cleaned + [if text != "" then text else NO_NAME];
    }
    while cleaned != [] && cleaned[|cleaned| - 1] == NO_NAME
      invariant |cleaned| <= |strings| && cleaned == LabelledAll(strings)[..|cleaned|]
      invariant forall i :: |cleaned| <= i < |strings| ==> !Named(strings[i])
    {
      NotNamed(strings[|cleaned| - 1]);
      cleaned := cleaned[..|cleaned| - 1];
    }
    if cleaned != [] {
      NotNamed(strings[|cleaned| - 1]);
    }
    LastNamedMeans(strings, |cleaned|);
    return Ok(Copied(kind, formatted[HEADER..], cleaned));
  }

  lemma NotNamed(s: string)
    ensures Named(s) <==> Labelled(s) != NO_NAME
  {
    hide AsciiClean;
  }

  lemma LabelIsPrintable(s: string)
    ensures PrintableText(Labelled(s))
  {
    hide AsciiClean;
    CleanTwice(s);
    var t := Labelled(s);
    forall i | 0 <= i < |t|
      ensures ' ' <= t[i] <= '~'
    {
      assert AsciiClean(s) != "" ==> KeptChar(t[i]);
    }
  }

  /** What a copy holds: the body, and the cleaned strings as far as one says something, with "NA" for empty ones. */
  lemma CopyMeans(kind: int, formatted: seq<Byte>, strings: seq<string>)
    ensures Encoded(kind, formatted, strings).Ok? <==> |formatted| >= 4
    ensures Encoded(kind, formatted, strings).Ok? ==>
      var c := Encoded(kind, formatted, strings).value; var n := |c.strings|;
      && c.kind == kind && c.body == formatted[4..] && n <= |strings| && (n > 0 ==> c.strings[n - 1] != "NA")
      && (forall i :: 0 <= i < n ==>
            c.strings[i] == if AsciiClean(strings[i]) == "" then "NA" else AsciiClean(strings[i]))
      && forall i :: n <= i < |strings| ==> AsciiClean(strings[i]) == "" || AsciiClean(strings[i]) == "NA"
  {
    hide AsciiClean, LastNamed;
    LastNamedMeans(strings, LastNamed(strings));
  }

  // ----- what the copies are good for -----

  /** A structure that is in order with `count` strings: its layout, and string numbers that exist. */
  predicate HostRecordOk(kind: int, formatted: seq<Byte>, count: nat) {
    match kind
    case 8 => |formatted| == 9 && formatted[4] <= count && formatted[6] <= count
    case 9 => |formatted| >= 17 && formatted[4] <= count
    case 12 => |formatted| == 5 && formatted[4] == count
    case 13 => |formatted| == 22 && formatted[4] == count && formatted[21] <= count
               && BitAnd(formatted[5], 0xFE) == 0 && forall k :: 6 <= k < 21 ==> formatted[k] == 0
    case _ => Skipped(kind)
  }

  /** The copy meets what the builder demands of it. */
  predicate CopiedOk(c: Copied) {
    if c.kind == 8 then WfConnector(c) else if c.kind == 9 then WfSlot(c) else WfSupplemental(c)
  }

  lemma CopyIsPrintable(kind: int, formatted: seq<Byte>, strings: seq<string>)
    requires |formatted| >= HEADER
    ensures AllPrintable(Encoded(kind, formatted, strings).value.strings)
  {
    hide PrintableText, Labelled;
    forall i | 0 <= i < LastNamed(strings)
      ensures PrintableText(LabelledAll(strings)[i])
    {
      LabelIsPrintable(strings[i]);
    }
  }

  lemma CopyShape(kind: int, formatted: seq<Byte>, strings: seq<string>)
    requires |formatted| >= HEADER
    ensures Encoded(kind, formatted, strings).Ok?
    ensures var c := Encoded(kind, formatted, strings).value;
      && c.kind == kind && |c.strings| == LastNamed(strings) && |c.body| == |formatted| - HEADER
      && forall k :: HEADER <= k < |formatted| ==> formatted[k] == c.body[k - HEADER]
  {
  }

  /**
   A copied structure is in order exactly when the host's is with only the strings up to the last named one:
   trailing strings that clean to nothing or to "NA" are dropped, while the numbers in the body stay.
   */
  lemma EncodedExactly(kind: int, formatted: seq<Byte>, strings: seq<string>)
    requires |formatted| >= HEADER
    ensures CopiedOk(Encoded(kind, formatted, strings).value) <==> HostRecordOk(kind, formatted, LastNamed(strings))
  {
    hide AllPrintable, Encoded, LastNamed, BitAnd;
    CopyIsPrintable(kind, formatted, strings);
    CopyShape(kind, formatted, strings);
    var c, n := Encoded(kind, formatted, strings).value, LastNamed(strings);
    if kind == 13 && |formatted| == 22 {
      assert formatted[4] == c.body[0] && formatted[5] == c.body[1] && formatted[21] == c.body[17];
      assert (forall k :: 6 <= k < 21 ==> formatted[k] == 0) <==> forall k :: 2 <= k < 17 ==> c.body[k] == 0 by {
        assert forall k :: 2 <= k < 17 ==> c.body[k] == formatted[k + 4];
        assert forall k :: 6 <= k < 21 ==> formatted[k] == c.body[k - 4];
      }
    }
  }

  /** A structure in order on the host stays so when its last string is named. */
  lemma NamedLastIsKept(kind: int, formatted: seq<Byte>, strings: seq<string>)
    requires HostRecordOk(kind, formatted, |strings|) && |formatted| >= HEADER
    requires (strings == [] || Named(strings[|strings| - 1]))
    ensures CopiedOk(Encoded(kind, formatted, strings).value)
  {
    hide CopiedOk, Encoded, HostRecordOk;
    EncodedExactly(kind, formatted, strings);
  }

  // ----- one that is lost -----

  /** Two options on the host, the second called "NA": the copy has one string and still counts two. */
  function LostOption(): Copied {
    Copied(12, [2], ["Quiet boot"])
  }

  lemma BadCopyFails(p: Profile, i: nat)
    requires i < |p.supplemental| && !WfSupplemental(p.supplemental[i])
    ensures BuildOf(p).Err?
  {
    hide BuildOf, WfSupplemental;
    if BuildOf(p).Ok? {
      BuildNeedsCopies(p);
    }
  }

  lemma CleanExamples()
    ensures AsciiClean("Quiet boot") == "Quiet boot" && AsciiClean("NA") == "NA"
  {
    SentenceStays(["Quiet", "boot"]);
    SentenceStays(["NA"]);
    assert Join(["Quiet", "boot"], ' ') == "Quiet boot";
  }

  lemma SentenceStays(words: seq<string>)
    requires AllWords(words)
    ensures AsciiClean(Join(words, ' ')) == Join(words, ' ')
  {
    hide Join, Words, Keep, IsWord;
    JoinIsKept(words);
    KeepKeeps(Join(words, ' '));
    WordsOfJoin(words);
  }

  /** The host's structure is in order, its copy is not, and the profile that holds it cannot be built. */
  lemma OptionIsLost()
    ensures var formatted: seq<Byte>, strings := [12, 5, 0x40, 0, 2], ["Quiet boot", "NA"];
      && HostRecordOk(12, formatted, |strings|)
      && Encoded(12, formatted, strings) == Ok(LostOption())
      && BuildOf(Smallest().(supplemental := [LostOption()])).Err?
  {
    hide BuildOf, AsciiClean;
    CleanExamples();
    LastNamedMeans(["Quiet boot", "NA"], 1);
    assert LabelledAll(["Quiet boot", "NA"])[..1] == ["Quiet boot"];
    var formatted: seq<Byte> := [12, 5, 0x40, 0, 2];
    assert formatted[HEADER..] == [2];
    assert !WfSupplemental(LostOption());
    var p := Smallest().(supplemental := [LostOption()]);
    BadCopyFails(p, 0);
  }
}

/**
 The rewriting of the qemu:commandline element by `set_qemu_commandline` of `04_apply_spoof.py`: arguments
 that earlier runs added are taken out, user arguments stay, and the current ones are added at the end.
 */
module CommandLine {
  import opened Outcomes
  import opened Text

  /** A child of the element; only arguments have their value looked at for options. */
  datatype Child = Arg(value: string) | Env(value: string)

  // ---- What earlier runs added ---------------------------------------------------------------

  /** `generated_hda_device_arg`. */
  predicate GeneratedHda(value: string) {
    || value == "ich9-intel-hda,id=hda" || value == "ich9-intel-hda,id=sound0"
    || "ich9-intel-hda,id=hda," <= value || "ich9-intel-hda,id=sound0" <= value
    || "hda-duplex,id=hda-codec0" <= value || "hda-output,id=hda-codec0" <= value
    || "hda-duplex,id=sound0-codec0" <= value || "hda-output,id=sound0-codec0" <= value
  }

  predicate IsTable(c: Child) {
    c == Arg("-smbios") || c == Arg("-acpitable")
  }

  predicate IsDevice(c: Child) {
    c == Arg("-device")
  }

  /** An option of an earlier run starts here; it is taken out together with the child after it. */
  predicate OwnOption(children: seq<Child>, i: nat)
    requires i < |children|
  {
    IsTable(children[i]) || (IsDevice(children[i]) && i + 1 < |children| && GeneratedHda(children[i + 1].value))
  }

  function Kept(children: seq<Child>): seq<Child> {
    if children == [] then []
    else if OwnOption(children, 0) then if |children| == 1 then [] else Kept(children[2..])
    else [children[0]] + Kept(children[1..])
  }

  // ---- What a run adds -----------------------------------------------------------------------

  /** The codec kind of the profile, if the applier knows it. */
  datatype Codec = Duplex | Output | Unknown

  datatype Hda = Hda(bus: int, slot: nat, func: nat, codec: Codec, cad: nat)

  /** What a run puts on the command line; `battery` is the table's path, with whether the file is there. */
  datatype Config = Config(smbios: string, battery: Option<(string, bool)>, checkFiles: bool, hda: Option<Hda>,
    audioId: Option<string>)

  function ControllerArg(h: Hda): string {
    "ich9-intel-hda,id=hda,addr=0x" + Hex2(h.slot) + "." + Dec(h.func)
  }

  function CodecTail(h: Hda, audioId: Option<string>): string {
    ",bus=hda.0,cad=" + Dec(h.cad) + if audioId.Some? then ",audiodev=audio" + audioId.value else ""
  }

  function CodecArg(h: Hda, audioId: Option<string>): string {
    (if h.codec == Duplex then "hda-duplex,id=hda-codec0" else "hda-output,id=hda-codec0") + CodecTail(h, audioId)
  }

  /** `attach_onboard_hda_commandline`. */
  function HdaArgs(c: Config): Result<seq<Child>> {
    if c.hda.None? then Ok([])
    else if c.hda.value.bus != 0 || c.hda.value.codec == Unknown then Err(ValueError)
    else Ok([Arg("-device"), Arg(ControllerArg(c.hda.value)), Arg("-device"), Arg(CodecArg(c.hda.value, c.audioId))])
  }

  function TableArgs(c: Config): seq<Child> {
    [Arg("-smbios"), Arg("full-file=" + c.smbios)]
    + if c.battery.Some? then [Arg("-acpitable"), Arg("file=" + c.battery.value.0)] else []
  }

  function Block(c: Config): Result<seq<Child>> {
    if c.battery.Some? && c.checkFiles && !c.battery.value.1 then Err(FileNotFoundError)
    else
      var hda :- HdaArgs(c);
      Ok(TableArgs(c) + hda)
  }

  function Rewritten(children: seq<Child>, c: Config): Result<seq<Child>> {
    var block :- Block(c);
    Ok(Kept(children) + block)
  }

  /** Where the kept children stand in the original list, when it starts at an offset. */
  function Positions(children: seq<Child>, offset: nat): (ps: seq<nat>)
    ensures forall i :: 0 <= i < |ps| ==> offset <= ps[i] < offset + |children|
  {
    if children == [] then []
    else if OwnOption(children, 0) then if |children| == 1 then [] else Positions(children[2..], offset + 2)
    else [offset] + Positions(children[1..], offset + 1)
  }

  lemma Step(children: seq<Child>, start: nat)
    requires start < |children|
    ensures var next := if OwnOption(children, start) && start + 2 <= |children| then start + 2 else start + 1;
            && Kept(children[start..])
               == (if OwnOption(children, start) then [] else [children[start]]) + Kept(children[next..])
            && Positions(children[start..], start)
               == (if OwnOption(children, start) then [] else [start]) + Positions(children[next..], next)
  {
    hide GeneratedHda, IsTable, IsDevice;
    var rest := children[start..];
    assert OwnOption(rest, 0) == OwnOption(children, start);
    assert |rest| >= 2 ==> rest[2..] == children[start + 2..];
    assert rest[1..] == children[start + 1..];
    if OwnOption(rest, 0) && |rest| == 1 {
      assert children[start + 1..] == [];
    }
  }

  class Commandline {
    var children: seq<Child>

    constructor (children: seq<Child>)
      ensures this.children == children
    {
      this.children := children;
    }

    /** `set_qemu_commandline`. */
    method SetQemuCommandline(c: Config) returns (r: Result<()>)
      modifies this
      ensures r == (if Rewritten(old(children), c).Ok? then Ok(()) else Err(Rewritten(old(children), c).error))
      ensures r.Ok? ==> children == Rewritten(old(children), c).value
    {
      hide ControllerArg, CodecArg, GeneratedHda, IsTable, IsDevice, HdaArgs, Kept, OwnOption;
      var all, kept := children, [];
      var index := 0;
      assert all[0..] == all;
      while index < |all|
        invariant 0 <= index
        invariant all == old(children)
        invariant Kept(all) == kept + Kept(if index <= |all| then all[index..] else [])
      {
        Step(all, index);
        if OwnOption(all, index) {
          index := index + 2;
        } else {
          kept := kept + [all[index]];
          index := index + 1;
        }
      }
      NothingKept();
      assert kept + [] == kept && all[|all|..] == [];
      children := kept + [Arg("-smbios"), Arg("full-file=" + c.smbios)];
      if c.battery.Some? {
        if c.checkFiles && !c.battery.value.1 {
          return Err(FileNotFoundError);
        }
        children := children + [Arg("-acpitable"), Arg("file=" + c.battery.value.0)];
      }
      assert children == kept + TableArgs(c);
      var hda := HdaArgs(c);
      if hda.Err? {
        return Err(hda.error);
      }
      children := children + hda.value;
      return Ok(());
    }
  }

  // ---- User arguments ------------------------------------------------------------------------

  /** The positions rise, hold the kept children, and leave out only own options and the child after each. */
  predicate Traces(children: seq<Child>, start: nat, ps: seq<nat>, kept: seq<Child>) {
    && |ps| == |kept|
    && (forall i :: 0 <= i < |ps| ==> start <= ps[i] < |children| && children[ps[i]] == kept[i])
    && (forall i, j :: 0 <= i < j < |ps| ==> ps[i] < ps[j])
    && (forall p ::
         start <= p < |children| && p !in ps ==> OwnOption(children, p) || (p > start && OwnOption(children, p - 1)))
  }

  lemma TraceKeeps(children: seq<Child>, start: nat, ps: seq<nat>, kept: seq<Child>)
    requires start < |children| && Traces(children, start + 1, ps, kept)
    ensures Traces(children, start, [start] + ps, [children[start]] + kept)
  {
    hide OwnOption;
    assert forall p :: p in [start] + ps <==> p == start || p in ps;
  }

  lemma TraceSkips(children: seq<Child>, start: nat, next: nat, ps: seq<nat>, kept: seq<Child>)
    requires start < next <= start + 2 && next <= |children| && OwnOption(children, start)
    requires Traces(children, next, ps, kept)
    ensures Traces(children, start, ps, kept)
  {
    hide OwnOption;
  }

  lemma {:induction false} PositionsHold(children: seq<Child>, start: nat)
    requires start <= |children|
    ensures Traces(children, start, Positions(children[start..], start), Kept(children[start..]))
    decreases |children| - start
  {
    hide Traces, Positions, Kept, OwnOption;
    if start == |children| {
      assert children[start..] == [];
      TraceEmpty(children);
    } else {
      Step(children, start);
      if OwnOption(children, start) {
        var next := if start + 2 <= |children| then start + 2 else start + 1;
        PositionsHold(children, next);
        TraceSkips(children, start, next, Positions(children[next..], next), Kept(children[next..]));
        assert [] + Kept(children[next..]) == Kept(children[next..]);
        assert [] + Positions(children[next..], next) == Positions(children[next..], next);
      } else {
        PositionsHold(children, start + 1);
        TraceKeeps(children, start, Positions(children[start + 1..], start + 1), Kept(children[start + 1..]));
      }
    }
  }

  lemma TraceEmpty(children: seq<Child>)
    ensures Traces(children, |children|, Positions([], |children|), Kept([]))
  {
  }

  /** User arguments keep their order: what is kept is the list without the options of earlier runs. */
  lemma UserArgumentsKeepOrder(children: seq<Child>)
    ensures Traces(children, 0, Positions(children, 0), Kept(children))
  {
    PositionsHold(children, 0);
    assert children[0..] == children;
  }

  // ---- The fixed point -----------------------------------------------------------------------

  /** A kept `-device` has come to stand right before an argument that looks generated. */
  predicate Exposed(children: seq<Child>) {
    exists i :: 0 <= i < |children| - 1 && IsDevice(children[i]) && GeneratedHda(children[i + 1].value)
  }

  lemma NotBoth()
    ensures forall c :: IsTable(c) ==> !IsDevice(c)
  {
  }

  lemma NotGenerated()
    ensures !GeneratedHda("-smbios")
  {
    assert "-smbios"[0] == '-';
  }

  lemma Prefixed(prefix: string, rest: string)
    ensures prefix <= prefix + rest
  {
  }

  lemma ControllerIsGenerated(h: Hda)
    ensures GeneratedHda(ControllerArg(h))
  {
    hide Hex2, Dec;
    var rest := "addr=0x" + Hex2(h.slot) + "." + Dec(h.func);
    Prefixed("ich9-intel-hda,id=hda,", rest);
    ControllerSplits(h);
  }

  lemma ControllerSplits(h: Hda)
    ensures ControllerArg(h) == "ich9-intel-hda,id=hda," + ("addr=0x" + Hex2(h.slot) + "." + Dec(h.func))
  {
    hide Hex2, Dec;
    assert "ich9-intel-hda,id=hda,addr=0x" == "ich9-intel-hda,id=hda," + "addr=0x";
  }

  lemma CodecIsGenerated(h: Hda, audioId: Option<string>)
    ensures GeneratedHda(CodecArg(h, audioId))
  {
    hide Dec;
    Prefixed("hda-duplex,id=hda-codec0", CodecTail(h, audioId));
    Prefixed("hda-output,id=hda-codec0", CodecTail(h, audioId));
  }

  lemma BlockShape(c: Config)
    requires Block(c).Ok?
    ensures var first := Arg("full-file=" + c.smbios);
            && HdaArgs(c).Ok? && Block(c).value == TableArgs(c) + HdaArgs(c).value
            && TableArgs(c)[..2] == [Arg("-smbios"), first]
            && (c.battery.None? ==> |TableArgs(c)| == 2)
            && (c.battery.Some? ==> |TableArgs(c)| == 4 && TableArgs(c)[2] == Arg("-acpitable"))
            && (c.hda.None? ==> HdaArgs(c).value == [])
            && (c.hda.Some? ==>
                  HdaArgs(c).value == [Arg("-device"), Arg(ControllerArg(c.hda.value)),
                                       Arg("-device"), Arg(CodecArg(c.hda.value, c.audioId))])
  {
    hide ControllerArg, CodecArg;
  }

  lemma OwnPair(first: Child, second: Child, rest: seq<Child>)
    requires IsTable(first) || (IsDevice(first) && GeneratedHda(second.value))
    ensures Kept([first, second] + rest) == Kept(rest)
  {
    hide GeneratedHda, IsTable, IsDevice;
    assert ([first, second] + rest)[2..] == rest;
  }

  /** The recogniser knows everything a run adds, so a later run takes all of it out. */
  lemma BlockIsRecognised(c: Config)
    requires Block(c).Ok?
    ensures Kept(Block(c).value) == []
    ensures Block(c).value != [] && IsTable(Block(c).value[0]) && !GeneratedHda(Block(c).value[0].value)
  {
    hide ControllerArg, CodecArg, GeneratedHda, Block, Kept, TableArgs, HdaArgs;
    BlockShape(c);
    NotGenerated();
    var block, tables, hda := Block(c).value, TableArgs(c), HdaArgs(c).value;
    NothingKept();
    if c.hda.Some? {
      ControllerIsGenerated(c.hda.value);
      CodecIsGenerated(c.hda.value, c.audioId);
      OwnPair(hda[2], hda[3], []);
      assert [hda[2], hda[3]] + [] == hda[2..];
      OwnPair(hda[0], hda[1], hda[2..]);
      assert [hda[0], hda[1]] + hda[2..] == hda;
    }
    if c.battery.Some? {
      OwnPair(tables[2], tables[3], hda);
      OwnPair(tables[0], tables[1], [tables[2], tables[3]] + hda);
      assert block == [tables[0], tables[1]] + ([tables[2], tables[3]] + hda);
    } else {
      OwnPair(tables[0], tables[1], hda);
      assert block == [tables[0], tables[1]] + hda;
    }
    assert tables[0] == tables[..2][0];
    assert block[0] == tables[0];
  }

  lemma NothingKept()
    ensures Kept([]) == []
  {
  }

  /** Children with no own options and no exposed pair survive in front of a block. */
  lemma {:induction false} KeptBefore(kept: seq<Child>, block: seq<Child>)
    requires forall k :: k in kept ==> !IsTable(k)
    requires block != [] && IsTable(block[0]) && !GeneratedHda(block[0].value) && Kept(block) == []
    requires !Exposed(kept)
    ensures Kept(kept + block) == kept
  {
    hide GeneratedHda, IsTable, IsDevice;
    NotBoth();
    var all := kept + block;
    if kept == [] {
      assert all == block;
    } else {
      assert all[1..] == kept[1..] + block;
      forall i | 0 <= i < |kept[1..]| - 1
        ensures !(IsDevice(kept[1..][i]) && GeneratedHda(kept[1..][i + 1].value))
      {
        assert kept[1..][i] == kept[i + 1] && kept[1..][i + 1] == kept[i + 2];
      }
      KeptBefore(kept[1..], block);
      assert |kept| > 1 ==> all[1] == kept[1];
      assert |kept| == 1 ==> all[1] == block[0];
      assert !OwnOption(all, 0);
      assert kept == [kept[0]] + kept[1..];
    }
  }

  /** An exposed pair is lost in front of a block. */
  lemma {:induction false} ExposedIsLost(kept: seq<Child>, block: seq<Child>)
    requires forall k :: k in kept ==> !IsTable(k)
    requires block != [] && IsTable(block[0]) && !GeneratedHda(block[0].value) && Kept(block) == []
    ensures |Kept(kept + block)| <= |kept|
    ensures Exposed(kept) ==> |Kept(kept + block)| < |kept|
  {
    hide GeneratedHda, IsTable, IsDevice;
    NotBoth();
    var all := kept + block;
    if kept == [] {
      assert all == block;
    } else {
      assert |kept| > 1 ==> all[1] == kept[1];
      assert |kept| == 1 ==> all[1] == block[0];
      if OwnOption(all, 0) {
        assert all[2..] == kept[2..] + block;
        ExposedIsLost(kept[2..], block);
      } else {
        assert all[1..] == kept[1..] + block;
        ExposedIsLost(kept[1..], block);
        ExposedTail(kept);
      }
    }
  }

  lemma ExposedTail(kept: seq<Child>)
    requires kept != [] && !OwnOption(kept, 0)
    ensures Exposed(kept) ==> Exposed(kept[1..])
  {
    hide GeneratedHda, IsTable, IsDevice;
    if i :| 0 <= i < |kept| - 1 && IsDevice(kept[i]) && GeneratedHda(kept[i + 1].value) {
      assert i > 0;
      assert kept[1..][i - 1] == kept[i] && kept[1..][i] == kept[i + 1];
    }
  }

  lemma {:induction false} KeptHasNoTables(children: seq<Child>)
    ensures forall k :: k in Kept(children) ==> !IsTable(k)
    decreases |children|
  {
    hide GeneratedHda, IsTable, IsDevice;
    if children != [] {
      if OwnOption(children, 0) {
        if |children| > 1 {
          KeptHasNoTables(children[2..]);
        }
      } else {
        KeptHasNoTables(children[1..]);
      }
    }
  }

  /**
   A `-device` of the list that stays, and an argument that looks generated, with nothing between them but
   what is taken out.
   */
  predicate ComesTogether(children: seq<Child>) {
    var ps := Positions(children, 0);
    exists i :: 0 <= i < |ps| - 1 && IsDevice(children[ps[i]]) && GeneratedHda(children[ps[i + 1]].value)
  }

  lemma TogetherIsExposed(children: seq<Child>)
    ensures ComesTogether(children) <==> Exposed(Kept(children))
  {
    hide Positions, Kept, OwnOption, IsDevice, GeneratedHda;
    UserArgumentsKeepOrder(children);
    var ps, kept := Positions(children, 0), Kept(children);
    if i :| 0 <= i < |ps| - 1 && IsDevice(children[ps[i]]) && GeneratedHda(children[ps[i + 1]].value) {
      assert IsDevice(kept[i]) && GeneratedHda(kept[i + 1].value);
    }
    if i :| 0 <= i < |kept| - 1 && IsDevice(kept[i]) && GeneratedHda(kept[i + 1].value) {
      assert IsDevice(children[ps[i]]) && GeneratedHda(children[ps[i + 1]].value);
    }
  }

  /**
   Running a second time, even with another profile, gives what running once with the second profile gives,
   exactly when no `-device` that stays comes to stand right before an argument that looks generated.
   */
  lemma FixedPointExactly(children: seq<Child>, first: Config, second: Config)
    requires Block(first).Ok? && Block(second).Ok?
    ensures Rewritten(Rewritten(children, first).value, second) == Rewritten(children, second)
            <==> !ComesTogether(children)
  {
    hide Block, GeneratedHda, Exposed, IsTable, IsDevice, ComesTogether;
    TogetherIsExposed(children);
    var kept, block := Kept(children), Block(first).value;
    KeptHasNoTables(children);
    BlockIsRecognised(first);
    if !Exposed(kept) {
      KeptBefore(kept, block);
    } else {
      ExposedIsLost(kept, block);
      assert |Kept(kept + block) + Block(second).value| < |kept + Block(second).value|;
    }
  }

  /** Every `-device` is followed by a value that does not start with a dash, if by anything. */
  predicate DevicesHaveValues(children: seq<Child>) {
    forall i :: 0 <= i < |children| - 1 && IsDevice(children[i])
                ==> !("-" <= children[i + 1].value)
  }

  lemma {:induction false} FirstStays(children: seq<Child>)
    requires children != [] && !("-" <= children[0].value)
    ensures Kept(children) != [] && Kept(children)[0] == children[0]
  {
    assert "-" <= "-smbios" && "-" <= "-acpitable" && "-" <= "-device";
  }

  lemma {:induction false} ValuesProtect(children: seq<Child>)
    requires DevicesHaveValues(children)
    ensures !Exposed(Kept(children))
    decreases |children|
  {
    hide GeneratedHda, IsTable, IsDevice;
    if children != [] {
      if OwnOption(children, 0) {
        if |children| > 1 {
          ValuesProtect(children[2..]);
        }
      } else {
        ValuesProtect(children[1..]);
        var rest, kept := Kept(children[1..]), Kept(children);
        assert kept == [children[0]] + rest;
        if IsDevice(children[0]) && |children| > 1 {
          FirstStays(children[1..]);
        }
        forall i | 0 <= i < |kept| - 1
          ensures !(IsDevice(kept[i]) && GeneratedHda(kept[i + 1].value))
        {
          if i > 0 {
            assert kept[i] == rest[i - 1] && kept[i + 1] == rest[i];
          }
        }
      }
    }
  }

  /** Where devices have values, the rewriting is a fixed point. */
  lemma RewritingSettles(children: seq<Child>, c: Config)
    requires DevicesHaveValues(children) && Rewritten(children, c).Ok?
    ensures Rewritten(Rewritten(children, c).value, c) == Rewritten(children, c)
  {
    ValuesProtect(children);
    TogetherIsExposed(children);
    FixedPointExactly(children, c, c);
  }

  /** A `-device` whose value was an own option is left in front of the next argument and lost by the next run. */
  lemma SecondRunLosesArguments(c: Config)
    requires Block(c).Ok?
    ensures var children := [Arg("-device"), Arg("-smbios"), Arg("x"), Arg("ich9-intel-hda,id=hda")];
            && Kept(children) == [Arg("-device"), Arg("ich9-intel-hda,id=hda")]
            && Rewritten(Rewritten(children, c).value, c) != Rewritten(children, c)
  {
    hide Block;
    var children := [Arg("-device"), Arg("-smbios"), Arg("x"), Arg("ich9-intel-hda,id=hda")];
    NotGenerated();
    assert children[1..] == [Arg("-smbios"), Arg("x"), Arg("ich9-intel-hda,id=hda")];
    assert children[1..][2..] == [Arg("ich9-intel-hda,id=hda")];
    assert [Arg("ich9-intel-hda,id=hda")][1..] == [];
    var kept := Kept(children);
    assert kept == [Arg("-device"), Arg("ich9-intel-hda,id=hda")];
    assert IsDevice(kept[0]) && GeneratedHda(kept[1].value);
    TogetherIsExposed(children);
    FixedPointExactly(children, c, c);
  }

  // ---- The arguments in plain text -----------------------------------------------------------

  /**
   The texts of a sound card's numbers: slot in at least two hexadecimal digits, function and codec address in
   decimal.
   */
  predicate NumbersAre(h: Hda, slot: string, func: string, cad: string) {
    && (if h.slot < 16 then |slot| == 2 && slot[0] == '0' && Writes(slot[1..], h.slot, 16)
       else Writes(slot, h.slot, 16))
    && Writes(func, h.func, 10) && Writes(cad, h.cad, 10)
  }

  /** The name of the codec device, by the profile's kind of codec. */
  function CodecDevice(h: Hda): string {
    match h.codec
    case Duplex => "hda-duplex,id=hda-codec0,bus=hda.0,cad="
    case Output => "hda-output,id=hda-codec0,bus=hda.0,cad="
    case Unknown => ""
  }

  /** The arguments for the sound card, in plain text. */
  ghost predicate HdaSays(args: seq<Child>, c: Config) {
    if c.hda.None? then args == []
    else
      exists slot, func, cad :: NumbersAre(c.hda.value, slot, func, cad) && SoundSays(args, c, slot, func, cad)
  }

  predicate SoundSays(args: seq<Child>, c: Config, slot: string, func: string, cad: string)
    requires c.hda.Some?
  {
    var audio := if c.audioId.Some? then ",audiodev=audio" + c.audioId.value else "";
    && |args| == 4 && args[0] == Arg("-device") && args[2] == Arg("-device")
    && args[1] == Arg("ich9-intel-hda,id=hda,addr=0x" + slot + "." + func)
    && args[3] == Arg(CodecDevice(c.hda.value) + cad + audio)
  }

  /** What a run adds: the SMBIOS file, the battery table if there is one, and the sound card if there is one. */
  ghost predicate BlockSays(block: seq<Child>, c: Config) {
    var n := if c.battery.Some? then 4 else 2;
    && |block| >= n && block[0] == Arg("-smbios") && block[1] == Arg("full-file=" + c.smbios)
    && (c.battery.Some? ==> block[2] == Arg("-acpitable") && block[3] == Arg("file=" + c.battery.value.0))
    && HdaSays(block[n..], c)
  }

  /** A battery table is demanded that is not there. */
  predicate BatteryMissing(c: Config) {
    c.checkFiles && c.battery.Some? && c.battery.value.1 == false
  }

  /** The sound card is not on bus 0, or its codec is not one of the two. */
  predicate SoundRefused(c: Config) {
    c.hda.Some? && (c.hda.value.bus != 0 || !(c.hda.value.codec == Duplex || c.hda.value.codec == Output))
  }

  lemma HdaMeans(c: Config)
    requires HdaArgs(c).Ok?
    ensures HdaSays(HdaArgs(c).value, c)
  {
    hide Numeral, Writes;
    if c.hda.Some? {
      var h := c.hda.value;
      var slot, func, cad := Hex2(h.slot), Dec(h.func), Dec(h.cad);
      NumeralWrites(h.slot, 16);
      NumeralWrites(h.func, 10);
      NumeralWrites(h.cad, 10);
      HexOfSmall(h.slot);
      assert NumbersAre(h, slot, func, cad);
      CodecText(h, c.audioId);
      assert SoundSays(HdaArgs(c).value, c, slot, func, cad);
    }
  }

  lemma HexOfSmall(n: nat)
    ensures n < 16 ==> |Hex2(n)| == 2 && Hex2(n)[0] == '0' && Hex2(n)[1..] == Hex(n)
    ensures n >= 16 ==> Hex2(n) == Hex(n)
  {
  }

  lemma CodecText(h: Hda, audioId: Option<string>)
    requires h.codec != Unknown
    ensures CodecArg(h, audioId)
         == CodecDevice(h) + Dec(h.cad) + if audioId.Some? then ",audiodev=audio" + audioId.value else ""
  {
    hide Dec;
    DeviceNames();
    var stem := if h.codec == Duplex then "hda-duplex,id=hda-codec0" else "hda-output,id=hda-codec0";
    assert stem + CodecTail(h, audioId)
        == stem + ",bus=hda.0,cad=" + Dec(h.cad) + if audioId.Some? then ",audiodev=audio" + audioId.value else "";
  }

  lemma DeviceNames()
    ensures "hda-duplex,id=hda-codec0" + ",bus=hda.0,cad=" == "hda-duplex,id=hda-codec0,bus=hda.0,cad="
    ensures "hda-output,id=hda-codec0" + ",bus=hda.0,cad=" == "hda-output,id=hda-codec0,bus=hda.0,cad="
  {
  }

  /** When a run fails, with which exception, and what it adds otherwise. */
  lemma BlockMeans(c: Config)
    ensures Block(c) == Err(FileNotFoundError) <==> BatteryMissing(c)
    ensures Block(c) == Err(ValueError) <==> !BatteryMissing(c) && SoundRefused(c)
    ensures Block(c).Ok? <==> !BatteryMissing(c) && !SoundRefused(c)
    ensures Block(c).Ok? ==> BlockSays(Block(c).value, c)
  {
    hide HdaSays, ControllerArg, CodecArg;
    if Block(c).Ok? {
      HdaMeans(c);
      var n := if c.battery.Some? then 4 else 2;
      assert Block(c).value[n..] == HdaArgs(c).value;
    }
  }

  // ---- What the recogniser knows ------------------------------------------------------------

  /** The value is the controller of this name, with or without further options. */
  predicate ControllerNamed(value: string, rest: string) {
    || (value == "ich9-intel-hda,id=hda" + rest && (rest == "" || rest[0] == ','))
    || value == "ich9-intel-hda,id=sound0" + rest
  }

  /** The value is a codec of one of the two kinds, under the controller's name of now or of before. */
  predicate CodecNamed(value: string, kind: string, owner: string, rest: string) {
    && (kind == "duplex" || kind == "output") && (owner == "hda" || owner == "sound0")
    && value == "hda-" + kind + ",id=" + owner + "-codec0" + rest
  }

  lemma Starts(value: string, prefix: string) returns (rest: string)
    requires prefix <= value
    ensures value == prefix + rest
  {
    rest := value[|prefix|..];
  }

  lemma DuplexNames()
    ensures "hda-" + "duplex" + ",id=" + "hda" + "-codec0" == "hda-duplex,id=hda-codec0"
    ensures "hda-" + "duplex" + ",id=" + "sound0" + "-codec0" == "hda-duplex,id=sound0-codec0"
  {
  }

  lemma OutputNames()
    ensures "hda-" + "output" + ",id=" + "hda" + "-codec0" == "hda-output,id=hda-codec0"
    ensures "hda-" + "output" + ",id=" + "sound0" + "-codec0" == "hda-output,id=sound0-codec0"
  {
  }

  /** A value is taken for an earlier run's exactly when it names the controller or the codec. */
  lemma RecognisedMeans(value: string)
    ensures GeneratedHda(value)
       <==> (exists rest :: ControllerNamed(value, rest))
            || exists kind, owner, rest :: CodecNamed(value, kind, owner, rest)
  {
    hide ControllerNamed, CodecNamed;
    if GeneratedHda(value) {
      KnownIsNamed(value);
    }
    if rest :| ControllerNamed(value, rest) {
      ControllerIsKnown(value, rest);
    }
    if kind, owner, rest :| CodecNamed(value, kind, owner, rest) {
      CodecIsKnown(value, kind, owner, rest);
    }
  }

  lemma ControllerIsKnown(value: string, rest: string)
    requires ControllerNamed(value, rest)
    ensures GeneratedHda(value)
  {
    Prefixed("ich9-intel-hda,id=sound0", rest);
    if rest != "" && rest[0] == ',' {
      assert "ich9-intel-hda,id=hda" + rest == "ich9-intel-hda,id=hda," + rest[1..];
    }
  }

  lemma CodecIsKnown(value: string, kind: string, owner: string, rest: string)
    requires CodecNamed(value, kind, owner, rest)
    ensures GeneratedHda(value)
  {
    DuplexNames();
    OutputNames();
    Prefixed("hda-" + kind + ",id=" + owner + "-codec0", rest);
  }

  lemma KnownIsNamed(value: string)
    requires GeneratedHda(value)
    ensures (exists rest :: ControllerNamed(value, rest))
            || exists kind, owner, rest :: CodecNamed(value, kind, owner, rest)
  {
    DuplexNames();
    OutputNames();
    if value == "ich9-intel-hda,id=hda" {
      assert ControllerNamed(value, "");
    } else if "ich9-intel-hda,id=hda," <= value {
      var rest := Starts(value, "ich9-intel-hda,id=hda,");
      assert value == "ich9-intel-hda,id=hda" + ("," + rest);
      assert ControllerNamed(value, "," + rest);
    } else if "ich9-intel-hda,id=sound0" <= value {
      var rest := Starts(value, "ich9-intel-hda,id=sound0");
      assert ControllerNamed(value, rest);
    } else if "hda-duplex,id=hda-codec0" <= value {
      var rest := Starts(value, "hda-duplex,id=hda-codec0");
      assert CodecNamed(value, "duplex", "hda", rest);
    } else if "hda-output,id=hda-codec0" <= value {
      var rest := Starts(value, "hda-output,id=hda-codec0");
      assert CodecNamed(value, "output", "hda", rest);
    } else if "hda-duplex,id=sound0-codec0" <= value {
      var rest := Starts(value, "hda-duplex,id=sound0-codec0");
      assert CodecNamed(value, "duplex", "sound0", rest);
    } else {
      var rest := Starts(value, "hda-output,id=sound0-codec0");
      assert CodecNamed(value, "output", "sound0", rest);
    }
  }

  // ---- What is taken out ----------------------------------------------------------------------

  /** The value names the controller or a codec of an earlier run. */
  ghost predicate NamesHda(value: string) {
    (exists rest :: ControllerNamed(value, rest)) || exists kind, owner, rest :: CodecNamed(value, kind, owner, rest)
  }

  /** An argument of an earlier run stands here: a table, or a device with the name of the sound card or its codec. */
  ghost predicate OwnAt(children: seq<Child>, i: nat) {
    && i < |children| && children[i].Arg?
    && (children[i].value == "-smbios" || children[i].value == "-acpitable"
        || (children[i].value == "-device" && i + 1 < |children| && NamesHda(children[i + 1].value)))
  }

  lemma OwnMeans(children: seq<Child>, i: nat)
    requires i < |children|
    ensures OwnOption(children, i) <==> OwnAt(children, i)
  {
    hide GeneratedHda, NamesHda;
    if i + 1 < |children| {
      HdaIsNamed(children[i + 1].value);
    }
  }

  lemma HdaIsNamed(value: string)
    ensures GeneratedHda(value) <==> NamesHda(value)
  {
    hide GeneratedHda;
    RecognisedMeans(value);
  }

  /** From a position on: own arguments stand at the starts, apart from each other, and nowhere outside their pairs. */
  ghost predicate PairsTaken(children: seq<Child>, from: nat, starts: seq<nat>) {
    && (forall i :: 0 <= i < |starts| ==> starts[i] >= from && OwnAt(children, starts[i]))
    && (forall i, j :: 0 <= i < j < |starts| ==> starts[i] + 2 <= starts[j])
    && forall p: nat :: from <= p && OwnAt(children, p) ==> InPair(starts, p)
  }

  predicate InPair(starts: seq<nat>, p: nat) {
    exists i :: 0 <= i < |starts| && (p == starts[i] || p == starts[i] + 1)
  }

  /** What is kept stands at these places, in this order, and at no other outside the pairs. */
  predicate Left(children: seq<Child>, from: nat, starts: seq<nat>, places: seq<nat>, kept: seq<Child>) {
    && |places| == |kept| && (forall i, j :: 0 <= i < j < |places| ==> places[i] < places[j])
    && (forall i :: 0 <= i < |places| ==> from <= places[i] < |children| && kept[i] == children[places[i]])
    && forall p :: from <= p < |children| ==> (p in places <==> !InPair(starts, p))
  }

  lemma InPairFirst(from: nat, rest: seq<nat>, p: nat)
    ensures InPair([from] + rest, p) <==> p == from || p == from + 1 || InPair(rest, p)
  {
    var starts := [from] + rest;
    if i :| 0 <= i < |starts| && (p == starts[i] || p == starts[i] + 1) {
      assert i > 0 ==> starts[i] == rest[i - 1];
    }
    if i :| 0 <= i < |rest| && (p == rest[i] || p == rest[i] + 1) {
      assert starts[i + 1] == rest[i];
    }
    assert starts[0] == from;
  }

  lemma PairFirst(children: seq<Child>, from: nat, rest: seq<nat>)
    requires OwnAt(children, from) && PairsTaken(children, from + 2, rest)
    ensures PairsTaken(children, from, [from] + rest)
    ensures forall p: nat :: InPair([from] + rest, p) <==> p == from || p == from + 1 || InPair(rest, p)
  {
    hide OwnAt, InPair;
    var starts := [from] + rest;
    forall p: nat
      ensures InPair(starts, p) <==> p == from || p == from + 1 || InPair(rest, p)
    {
      InPairFirst(from, rest, p);
    }
    forall i | 0 <= i < |starts|
      ensures starts[i] >= from && OwnAt(children, starts[i])
      ensures i > 0 ==> starts[i] >= from + 2
    {
      assert i > 0 ==> starts[i] == rest[i - 1];
    }
    forall i, j | 0 <= i < j < |starts|
      ensures starts[i] + 2 <= starts[j]
    {
      assert starts[j] == rest[j - 1] && (i > 0 ==> starts[i] == rest[i - 1]);
    }
  }

  lemma NoPairBefore(children: seq<Child>, from: nat, starts: seq<nat>, p: nat)
    requires PairsTaken(children, from, starts) && p < from
    ensures !InPair(starts, p)
  {
    hide OwnAt;
  }

  lemma LeftFirst(children: seq<Child>, from: nat, starts: seq<nat>, places: seq<nat>, kept: seq<Child>)
    requires from < |children| && PairsTaken(children, from + 1, starts)
    requires Left(children, from + 1, starts, places, kept)
    ensures Left(children, from, starts, [from] + places, [children[from]] + kept)
  {
    hide OwnAt, PairsTaken, InPair;
    NoPairBefore(children, from + 1, starts, from);
    var all := [from] + places;
    assert forall p :: p in all <==> p == from || p in places;
  }

  lemma LeftSkips(children: seq<Child>, from: nat, rest: seq<nat>, places: seq<nat>, kept: seq<Child>)
    requires OwnAt(children, from) && PairsTaken(children, from + 2, rest)
    requires Left(children, from + 2, rest, places, kept)
    ensures Left(children, from, [from] + rest, places, kept)
  {
    hide OwnAt, PairsTaken, InPair;
    PairFirst(children, from, rest);
  }

  lemma PairsEnd(children: seq<Child>, from: nat)
    requires from >= |children|
    ensures PairsTaken(children, from, []) && Left(children, from, [], [], [])
  {
  }

  lemma NotOwnFirst(children: seq<Child>, from: nat, starts: seq<nat>)
    requires !OwnAt(children, from) && PairsTaken(children, from + 1, starts)
    ensures PairsTaken(children, from, starts)
  {
    hide OwnAt, InPair;
  }

  lemma {:induction false} TakenFrom(children: seq<Child>, from: nat) returns (starts: seq<nat>, places: seq<nat>)
    ensures PairsTaken(children, from, starts)
    ensures Left(children, from, starts, places, if from <= |children| then Kept(children[from..]) else [])
    decreases |children| + 2 - from
  {
    hide OwnAt, PairsTaken, Left, Kept, Positions, OwnOption;
    if from >= |children| {
      starts, places := [], [];
      PairsEnd(children, from);
      NothingKept();
      assert from == |children| ==> children[from..] == [];
    } else {
      Step(children, from);
      OwnMeans(children, from);
      if OwnOption(children, from) {
        starts, places := TakenFrom(children, from + 2);
        PairFirst(children, from, starts);
        LoneOption(children, from);
        LeftSkips(children, from, starts, places, Kept(children[from..]));
        starts := [from] + starts;
      } else {
        starts, places := TakenFrom(children, from + 1);
        LeftFirst(children, from, starts, places, Kept(children[from + 1..]));
        NotOwnFirst(children, from, starts);
        places := [from] + places;
      }
    }
  }

  lemma LoneOption(children: seq<Child>, from: nat)
    requires from < |children| && OwnOption(children, from)
    ensures Kept(children[from..]) == if from + 2 <= |children| then Kept(children[from + 2..]) else []
  {
    hide GeneratedHda, IsTable, IsDevice;
    Step(children, from);
    assert from + 1 == |children| ==> children[from + 1..] == [];
  }

  /**
   A run takes out the arguments of earlier runs, each with the child after it, and keeps all other children in their
   order; then it adds its own.
   */
  lemma TakenMeans(children: seq<Child>) returns (starts: seq<nat>, places: seq<nat>)
    ensures PairsTaken(children, 0, starts) && Left(children, 0, starts, places, Kept(children))
  {
    hide PairsTaken, Left, Kept;
    starts, places := TakenFrom(children, 0);
    assert children[0..] == children;
  }
}

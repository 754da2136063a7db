/** What every graph laid out by `render_hda_pin_nodes` satisfies: numbering, streams, connections and names. */
module HdaSoundness {
  import opened Text
  import opened HdaGraph

  predicate Converts(w: Widget) {
    w.Dac? || w.Adc?
  }

  /** Node ids count up from 2 with no gap, so the node with id `n` stands at index `n - 2`. */
  predicate Numbered(ws: seq<Widget>) {
    forall i :: 0 <= i < |ws| ==> ws[i].nid == FIRST_NID + i
  }

  /** Converters take streams in increasing order, all below the limit. */
  predicate StreamsRise(ws: seq<Widget>, limit: nat) {
    && (forall i :: 0 <= i < |ws| && Converts(ws[i]) ==> ws[i].stream < limit)
    && (forall i, j :: 0 <= i < j < |ws| && Converts(ws[i]) && Converts(ws[j]) ==> ws[i].stream < ws[j].stream)
  }

  /** The node at `d` is the last playback converter at or before index `i`. */
  predicate LastDac(ws: seq<Widget>, d: int, i: int)
    requires i < |ws|
  {
    0 <= d <= i && ws[d].Dac? && forall j :: d < j <= i ==> !ws[j].Dac?
  }

  /** Every playback pin is fed by the last playback converter before it. */
  predicate OutsFed(ws: seq<Widget>) {
    forall i :: 0 <= i < |ws| && ws[i].Out? ==> LastDac(ws, ws[i].conn - FIRST_NID, i)
  }

  /** Every capture converter reads the capture pin that is laid out right after it. */
  predicate AdcsFed(ws: seq<Widget>) {
    forall i :: 0 <= i < |ws| && ws[i].Adc? ==> i + 1 < |ws| && ws[i + 1].In? && ws[i].conn == FIRST_NID + i + 1
  }

  predicate Sound(ws: seq<Widget>, streams: nat) {
    Numbered(ws) && StreamsRise(ws, streams) && OutsFed(ws) && AdcsFed(ws)
  }

  lemma AddDac(ws: seq<Widget>, streams: nat, w: Widget)
    requires Sound(ws, streams) && w.Dac? && w.nid == FIRST_NID + |ws| && w.stream == streams
    ensures Sound(ws + [w], streams + 1) && LastDac(ws + [w], |ws|, |ws|)
  {
    var all := ws + [w];
    assert all[|ws|] == w && forall i :: 0 <= i < |ws| ==> all[i] == ws[i];
  }

  lemma AddOut(ws: seq<Widget>, streams: nat, w: Widget)
    requires Sound(ws, streams) && w.Out? && w.nid == FIRST_NID + |ws|
    requires ws != [] && LastDac(ws, w.conn - FIRST_NID, |ws| - 1)
    ensures Sound(ws + [w], streams) && LastDac(ws + [w], w.conn - FIRST_NID, |ws|)
  {
    var all := ws + [w];
    assert all[|ws|] == w && forall i :: 0 <= i < |ws| ==> all[i] == ws[i];
  }

  lemma AddIn(ws: seq<Widget>, streams: nat, w: Widget)
    requires Sound(ws, streams) && w.In? && w.nid == FIRST_NID + |ws|
    ensures Sound(ws + [w], streams)
  {
    var all := ws + [w];
    assert all[|ws|] == w && forall i :: 0 <= i < |ws| ==> all[i] == ws[i];
  }

  lemma AddAdc(ws: seq<Widget>, streams: nat, adc: Widget, pin: Widget)
    requires Sound(ws, streams) && adc.Adc? && adc.nid == FIRST_NID + |ws| && adc.stream == streams
    requires pin.In? && pin.nid == FIRST_NID + |ws| + 1 && adc.conn == pin.nid
    ensures Sound(ws + [adc] + [pin], streams + 1)
  {
    var all := ws + [adc] + [pin];
    assert all[|ws|] == adc && all[|ws| + 1] == pin && forall i :: 0 <= i < |ws| ==> all[i] == ws[i];
  }

  lemma {:induction false} PlaybackIsSound(pins: seq<Pin>, names: seq<string>, count: nat)
    requires count <= |pins| <= |names|
    ensures var ws := PlaybackNodes(pins, names, count);
            && |ws| == count + Min(count, STREAMS) && Sound(ws, Min(count, STREAMS))
            && (count > 0 ==> LastDac(ws, 2 * Min(count - 1, STREAMS - 1), |ws| - 1))
  {
    hide Dec, PlaybackNodes, Playback, Sound, LastDac;
    if count == 0 {
      NoNodes(pins, names, 0);
      NothingIsSound();
    } else {
      PlaybackIsSound(pins, names, count - 1);
      var before, k := PlaybackNodes(pins, names, count - 1), count - 1;
      PlaybackStep(pins, names, k, before);
      var dac := FIRST_NID + 2 * Min(k, STREAMS - 1);
      var all := PlaybackNodes(pins, names, count);
      var pin := all[|all| - 1];
      if k < STREAMS {
        var converter := Dac(dac, "dac" + Dec(k), k);
        AddDac(before, k, converter);
        AddOut(before + [converter], k + 1, pin);
      } else {
        AddOut(before, STREAMS, pin);
      }
    }
  }

  lemma NothingIsSound()
    ensures Sound([], 0)
  {
  }

  lemma {:induction false} CaptureIsSound(pins: seq<Pin>, names: seq<string>, playbacks: nat, count: nat)
    requires playbacks + count <= |pins| <= |names|
    ensures var ws := NodesUpTo(pins, names, playbacks, count);
            && |ws| == playbacks + Min(playbacks, STREAMS) + count + Min(count, FreeStreams(playbacks))
            && Sound(ws, Min(playbacks, STREAMS) + Min(count, FreeStreams(playbacks)))
  {
    hide Dec, NodesUpTo, PlaybackNodes, Sound;
    if count == 0 {
      PlaybackIsSound(pins, names, playbacks);
      NoNodes(pins, names, playbacks);
    } else {
      CaptureIsSound(pins, names, playbacks, count - 1);
      var before, k := NodesUpTo(pins, names, playbacks, count - 1), count - 1;
      CaptureStep(pins, names, playbacks, k, before);
      var all := NodesUpTo(pins, names, playbacks, count);
      var nid := CaptureStart(playbacks) + k + Min(k, FreeStreams(playbacks));
      if k < FreeStreams(playbacks) {
        var converter := Adc(nid, "adc" + Dec(k), Min(playbacks, STREAMS) + k, nid + 1);
        AddAdc(before, Min(playbacks, STREAMS) + k, converter, all[|all| - 1]);
      } else {
        AddIn(before, STREAMS, all[|all| - 1]);
      }
    }
  }

  /**
   Every graph is sound: ids are exactly 2 to count + 1 in order, streams are distinct and below four,
   playback pins hang on an earlier converter, and capture converters on a pin of the graph.
   */
  lemma GraphIsSound(playback: seq<Pin>, capture: seq<Pin>, includeCapture: bool)
    ensures Sound(Graph(playback, capture, includeCapture), STREAMS)
  {
    hide PlaybackNodes, CaptureNodes, Names, NodesUpTo;
    var pins := Shown(playback, capture, includeCapture);
    CaptureIsSound(pins, Names(pins, |pins|), |playback|, |pins| - |playback|);
  }

  /** The pins a graph shows, in order. */
  function PinsOf(ws: seq<Widget>): seq<(string, nat)> {
    if ws == [] then []
    else
      var w := ws[|ws| - 1];
      PinsOf(ws[..|ws| - 1]) + if w.Out? || w.In? then [(w.name, w.config)] else []
  }

  function Named(pins: seq<Pin>, names: seq<string>, count: nat): seq<(string, nat)>
    requires count <= |pins| <= |names|
  {
    seq(count, i requires 0 <= i < count => (names[i], pins[i].config))
  }

  lemma PinsOfSnoc(ws: seq<Widget>, w: Widget)
    ensures PinsOf(ws + [w]) == PinsOf(ws) + if w.Out? || w.In? then [(w.name, w.config)] else []
  {
    assert (ws + [w])[..|ws|] == ws;
  }

  lemma {:induction false} PlaybackPins(pins: seq<Pin>, names: seq<string>, count: nat)
    requires count <= |pins| <= |names|
    ensures PinsOf(PlaybackNodes(pins, names, count)) == Named(pins, names, count)
  {
    hide PlaybackNodes, PinsOf, Dec;
    if count == 0 {
      NoNodes(pins, names, 0);
      NoPins();
    } else {
      PlaybackPins(pins, names, count - 1);
      var before := PlaybackNodes(pins, names, count - 1);
      PlaybackStep(pins, names, count - 1, before);
      var dac := FIRST_NID + 2 * Min(count - 1, STREAMS - 1);
      var converter := Dac(dac, "dac" + Dec(count - 1), count - 1);
      PinsOfSnoc(before, converter);
      var all := PlaybackNodes(pins, names, count);
      PinsOfSnoc(if count <= STREAMS then before + [converter] else before, all[|all| - 1]);
    }
  }

  lemma NoPins()
    ensures PinsOf([]) == []
  {
  }

  lemma {:induction false} CapturePins(pins: seq<Pin>, names: seq<string>, playbacks: nat, count: nat)
    requires playbacks + count <= |pins| <= |names|
    ensures PinsOf(NodesUpTo(pins, names, playbacks, count)) == Named(pins, names, playbacks + count)
  {
    hide NodesUpTo, PlaybackNodes, PinsOf, Dec;
    if count == 0 {
      NoNodes(pins, names, playbacks);
      PlaybackPins(pins, names, playbacks);
    } else {
      CapturePins(pins, names, playbacks, count - 1);
      var before, k := NodesUpTo(pins, names, playbacks, count - 1), count - 1;
      CaptureStep(pins, names, playbacks, k, before);
      var nid := CaptureStart(playbacks) + k + Min(k, FreeStreams(playbacks));
      var converter := Adc(nid, "adc" + Dec(k), Min(playbacks, STREAMS) + k, nid + 1);
      PinsOfSnoc(before, converter);
      var all := NodesUpTo(pins, names, playbacks, count);
      PinsOfSnoc(if k < FreeStreams(playbacks) then before + [converter] else before, all[|all| - 1]);
    }
  }

  /** The graph shows every requested pin once, playback before capture, with its own name and configuration. */
  lemma GraphShowsPins(playback: seq<Pin>, capture: seq<Pin>, includeCapture: bool)
    ensures var pins := Shown(playback, capture, includeCapture);
            PinsOf(Graph(playback, capture, includeCapture)) == Named(pins, Names(pins, |pins|), |pins|)
  {
    hide PlaybackNodes, CaptureNodes, Names, NodesUpTo, PinsOf;
    var pins := Shown(playback, capture, includeCapture);
    CapturePins(pins, Names(pins, |pins|), |playback|, |pins| - |playback|);
  }

  // ---- Names ---------------------------------------------------------------------------------

  /** How many nodes carry a name. */
  function Uses(ws: seq<Widget>, name: string): nat {
    if ws == [] then 0 else Uses(ws[..|ws| - 1], name) + if ws[|ws| - 1].name == name then 1 else 0
  }

  lemma UsesSnoc(ws: seq<Widget>, w: Widget, name: string)
    ensures Uses(ws + [w], name) == Uses(ws, name) + if w.name == name then 1 else 0
  {
    assert (ws + [w])[..|ws|] == ws;
  }

  function Occurs(names: seq<string>, count: nat, name: string): nat
    requires count <= |names|
  {
    if count == 0 then 0 else Occurs(names, count - 1, name) + if names[count - 1] == name then 1 else 0
  }

  function Converters(stem: string, count: nat, name: string): nat {
    if count == 0 then 0 else Converters(stem, count - 1, name) + if stem + Dec(count - 1) == name then 1 else 0
  }

  lemma {:induction false} PlaybackUses(pins: seq<Pin>, names: seq<string>, count: nat, name: string)
    requires count <= |pins| <= |names|
    ensures Uses(PlaybackNodes(pins, names, count), name)
            == Occurs(names, count, name) + Converters("dac", Min(count, STREAMS), name)
  {
    hide PlaybackNodes, Uses, Dec;
    if count == 0 {
      NoNodes(pins, names, 0);
      NothingUses(name);
    } else {
      PlaybackUses(pins, names, count - 1, name);
      var before := PlaybackNodes(pins, names, count - 1);
      PlaybackStep(pins, names, count - 1, before);
      var dac := FIRST_NID + 2 * Min(count - 1, STREAMS - 1);
      var converter := Dac(dac, "dac" + Dec(count - 1), count - 1);
      UsesSnoc(before, converter, name);
      var all := PlaybackNodes(pins, names, count);
      UsesSnoc(if count <= STREAMS then before + [converter] else before, all[|all| - 1], name);
    }
  }

  lemma NothingUses(name: string)
    ensures Uses([], name) == 0
  {
  }

  lemma {:induction false} CaptureUses(pins: seq<Pin>, names: seq<string>, playbacks: nat, count: nat, name: string)
    requires playbacks + count <= |pins| <= |names|
    ensures Uses(NodesUpTo(pins, names, playbacks, count), name)
         == Occurs(names, playbacks + count, name) + Converters("dac", Min(playbacks, STREAMS), name)
            + Converters("adc", Min(count, FreeStreams(playbacks)), name)
  {
    hide NodesUpTo, PlaybackNodes, Uses, Dec;
    if count == 0 {
      NoNodes(pins, names, playbacks);
      PlaybackUses(pins, names, playbacks, name);
    } else {
      CaptureUses(pins, names, playbacks, count - 1, name);
      var before, k := NodesUpTo(pins, names, playbacks, count - 1), count - 1;
      CaptureStep(pins, names, playbacks, k, before);
      var nid := CaptureStart(playbacks) + k + Min(k, FreeStreams(playbacks));
      var converter := Adc(nid, "adc" + Dec(k), Min(playbacks, STREAMS) + k, nid + 1);
      UsesSnoc(before, converter, name);
      var all := NodesUpTo(pins, names, playbacks, count);
      UsesSnoc(if k < FreeStreams(playbacks) then before + [converter] else before, all[|all| - 1], name);
    }
  }

  function Dacs(playback: seq<Pin>): nat {
    Min(|playback|, STREAMS)
  }

  function Adcs(playback: seq<Pin>, capture: seq<Pin>, includeCapture: bool): nat {
    if includeCapture then Min(|capture|, FreeStreams(|playback|)) else 0
  }

  /** A device whose cleaned name is that of a converter, or its stem when there is a second converter. */
  predicate Clashes(base: string, stem: string, converters: nat) {
    (base == stem && converters >= 2) || exists i :: 0 <= i < converters && base == stem + Dec(i)
  }

  predicate SomeClash(pins: seq<Pin>, stem: string, converters: nat) {
    exists k :: 0 <= k < |pins| && Clashes(Base(pins[k]), stem, converters)
  }

  /** Some pin is named like a converter. */
  predicate Collides(names: seq<string>, stem: string, converters: nat) {
    exists k, i :: 0 <= k < |names| && 0 <= i < converters && names[k] == stem + Dec(i)
  }

  predicate IsStem(stem: string) {
    stem == "dac" || stem == "adc"
  }

  lemma SmallDec(i: nat)
    requires i < STREAMS
    ensures |Dec(i)| == 1 && Dec(1) == "1"
  {
  }

  lemma DecDigits(m: nat, k: nat)
    requires k < |Dec(m)|
    ensures DigitValue(Dec(m)[k]) < 10
  {
    hide DigitValue;
    NumeralRoundTrip(m, 10);
  }

  /** The free candidate, with its number: all candidates before it are taken. */
  lemma {:induction false} FreeIs(base: string, used: set<string>, index: nat) returns (m: nat)
    ensures m >= index && FreeFrom(base, used, index) == Candidate(base, m)
    ensures m > index ==> Candidate(base, index) in used
    decreases |used - Tried(base, index)|
  {
    hide Candidate;
    if Candidate(base, index) in used {
      OneMoreTried(base, used, index);
      m := FreeIs(base, used, index + 1);
    } else {
      m := index;
    }
  }

  lemma ThirdIsDigit(base: string, m: nat, text: string)
    requires text == base + Dec(m) && |text| > 2
    ensures |base| <= 2 ==> DigitValue(text[2]) < 10
  {
    hide DigitValue;
    if |base| <= 2 {
      DecDigits(m, 2 - |base|);
    }
  }

  /** A candidate that reads like a converter comes from the converter's own name or its stem. */
  lemma CandidateClashes(base: string, m: nat, stem: string, i: nat, converters: nat)
    requires IsStem(stem) && i < converters <= STREAMS && Candidate(base, m) == stem + Dec(i)
    ensures Clashes(base, stem, converters)
  {
    SmallDec(i);
    hide Dec, DigitValue, Clashes;
    if m == 0 {
      BareClash(base, stem, i, converters);
    } else {
      var text := stem + Dec(i);
      SomeDigits(m);
      assert Dec(m) == text[|base|..];
      ThirdIsDigit(base, m, text);
      assert text[2] == stem[2] == 'c';
      assert base == stem && Dec(m) == Dec(i) by {
        assert text[..|base|] == base;
        assert text[..3] == stem && text[3..] == Dec(i);
      }
      DecInjective(m, i);
      StemClash(base, stem, converters);
    }
  }

  lemma SomeDigits(m: nat)
    ensures |Dec(m)| >= 1
  {
    NumeralRoundTrip(m, 10);
  }

  lemma BareClash(base: string, stem: string, i: nat, converters: nat)
    requires base == stem + Dec(i) && i < converters
    ensures Clashes(base, stem, converters)
  {
    hide Dec;
  }

  lemma StemClash(base: string, stem: string, converters: nat)
    requires base == stem && converters >= 2
    ensures Clashes(base, stem, converters)
  {
  }

  lemma UsedMeans(pins: seq<Pin>, k: nat, name: string)
    requires k <= |pins| && name in UsedBefore(pins, k) && name !in Reserved()
    ensures exists j :: 0 <= j < k && Names(pins, |pins|)[j] == name
  {
    hide Names, Reserved;
    NamesPrefix(pins, k, |pins|);
    var j :| 0 <= j < k && Names(pins, k)[j] == name;
    assert Names(pins, |pins|)[j] == Names(pins, |pins|)[..k][j];
  }

  lemma NotReserved(stem: string, i: nat)
    requires IsStem(stem) && i < STREAMS
    ensures stem + Dec(i) !in Reserved()
  {
    SmallDec(i);
    DecDigits(i, 0);
    var name := stem + Dec(i);
    assert name[3] == Dec(i)[0] && |name| == 4;
  }

  lemma TakesOrTaken(pins: seq<Pin>, k: nat, stem: string, i: nat)
    requires k < |pins| && IsStem(stem) && i < STREAMS
    requires stem + Dec(i) in UsedBefore(pins, k) || Names(pins, |pins|)[k] == stem + Dec(i)
    ensures exists j :: 0 <= j < |pins| && Names(pins, |pins|)[j] == stem + Dec(i)
  {
    NotReserved(stem, i);
    if stem + Dec(i) in UsedBefore(pins, k) {
      UsedMeans(pins, k, stem + Dec(i));
    }
  }

  lemma FreeStep(base: string, used: set<string>, index: nat)
    ensures FreeFrom(base, used, index) == if Candidate(base, index) in used then FreeFrom(base, used, index + 1)
                                           else Candidate(base, index)
  {
    hide Candidate;
  }

  lemma FirstCandidates(base: string)
    ensures Candidate(base, 0) == base && Candidate(base, 1) == base + Dec(1)
  {
  }

  lemma StemIsUsed(pins: seq<Pin>, k: nat, stem: string)
    requires k <= |pins| && IsStem(stem)
    ensures stem in UsedBefore(pins, k)
  {
    hide Names;
  }

  lemma ClashCollides(pins: seq<Pin>, k: nat, stem: string, converters: nat)
    requires k < |pins| && IsStem(stem) && converters <= STREAMS && Clashes(Base(pins[k]), stem, converters)
    ensures Collides(Names(pins, |pins|), stem, converters)
  {
    hide Names, UsedBefore, Base, Dec, FreeFrom, Candidate;
    var base, used := Base(pins[k]), UsedBefore(pins, k);
    NameAt(pins, k);
    FreeStep(base, used, 0);
    FreeStep(base, used, 1);
    FirstCandidates(base);
    if base == stem && converters >= 2 {
      StemIsUsed(pins, k, stem);
      TakesOrTaken(pins, k, stem, 1);
    } else {
      var i :| 0 <= i < converters && base == stem + Dec(i);
      TakesOrTaken(pins, k, stem, i);
    }
  }

  lemma CollisionClashes(pins: seq<Pin>, k: nat, stem: string, i: nat, converters: nat)
    requires k < |pins| && IsStem(stem) && i < converters <= STREAMS && Names(pins, |pins|)[k] == stem + Dec(i)
    ensures Clashes(Base(pins[k]), stem, converters)
  {
    hide Names, UsedBefore, Base, Dec, FreeFrom, Candidate;
    NameAt(pins, k);
    var m := FreeIs(Base(pins[k]), UsedBefore(pins, k), 0);
    CandidateClashes(Base(pins[k]), m, stem, i, converters);
  }

  lemma CollidesExactly(pins: seq<Pin>, stem: string, converters: nat)
    requires IsStem(stem) && converters <= STREAMS
    ensures Collides(Names(pins, |pins|), stem, converters) <==> SomeClash(pins, stem, converters)
  {
    hide Names, Base, Dec, Clashes;
    var names := Names(pins, |pins|);
    if Collides(names, stem, converters) {
      var k, i :| 0 <= k < |names| && 0 <= i < converters && names[k] == stem + Dec(i);
      CollisionClashes(pins, k, stem, i, converters);
    }
    if SomeClash(pins, stem, converters) {
      var k :| 0 <= k < |pins| && Clashes(Base(pins[k]), stem, converters);
      ClashCollides(pins, k, stem, converters);
    }
  }

  lemma {:induction false} OccursOnce(names: seq<string>, count: nat, name: string)
    requires count <= |names|
    requires forall i, j :: 0 <= i < j < |names| ==> names[i] != names[j]
    ensures Occurs(names, count, name) == if name in names[..count] then 1 else 0
  {
    if count > 0 {
      OccursOnce(names, count - 1, name);
      assert names[..count] == names[..count - 1] + [names[count - 1]];
    }
  }

  lemma {:induction false} ConvertersOnce(stem: string, count: nat, name: string)
    ensures Converters(stem, count, name) == if exists i :: 0 <= i < count && name == stem + Dec(i) then 1 else 0
  {
    hide Dec;
    if count > 0 {
      ConvertersOnce(stem, count - 1, name);
      if stem + Dec(count - 1) == name {
        forall i | 0 <= i < count - 1
          ensures name != stem + Dec(i)
        {
          if name == stem + Dec(i) {
            assert name[|stem|..] == Dec(i) == Dec(count - 1);
            DecInjective(i, count - 1);
          }
        }
      }
    }
  }

  lemma OneStemEach(name: string, i: nat, j: nat)
    ensures !(name == "dac" + Dec(i) && name == "adc" + Dec(j))
  {
    assert ("dac" + Dec(i))[0] == 'd' && ("adc" + Dec(j))[0] == 'a';
  }

  ghost predicate NamesUnique(ws: seq<Widget>) {
    forall name :: Uses(ws, name) <= 1
  }

  lemma NameUses(pins: seq<Pin>, dacs: nat, adcs: nat, name: string)
    ensures var uses := Occurs(Names(pins, |pins|), |pins|, name) + Converters("dac", dacs, name)
            + Converters("adc", adcs, name);
            uses > 1 <==> (name in Names(pins, |pins|) && exists i :: 0 <= i < dacs && name == "dac" + Dec(i))
                          || (name in Names(pins, |pins|) && exists i :: 0 <= i < adcs && name == "adc" + Dec(i))
  {
    hide Names, Dec, Occurs, Converters;
    var names := Names(pins, |pins|);
    PinNamesAreDistinct(pins, |pins|);
    OccursOnce(names, |pins|, name);
    assert names[..|pins|] == names;
    ConvertersOnce("dac", dacs, name);
    ConvertersOnce("adc", adcs, name);
    if (exists i :: 0 <= i < dacs && name == "dac" + Dec(i)) && exists i :: 0 <= i < adcs && name == "adc" + Dec(i) {
      var i :| 0 <= i < dacs && name == "dac" + Dec(i);
      var j :| 0 <= j < adcs && name == "adc" + Dec(j);
      OneStemEach(name, i, j);
    }
  }

  /**
   The nodes of a graph carry distinct names exactly when no shown pin is called like a converter of the
   graph, or like the bare stem of converters of which there are two: the names of converters are not
   among those that pin names avoid.
   */
  lemma NamesUniqueExactly(playback: seq<Pin>, capture: seq<Pin>, includeCapture: bool)
    ensures NamesUnique(Graph(playback, capture, includeCapture))
            <==> !SomeClash(Shown(playback, capture, includeCapture), "dac", Dacs(playback))
                 && !SomeClash(Shown(playback, capture, includeCapture), "adc", Adcs(playback, capture, includeCapture))
  {
    hide Names, Dec, Occurs, Converters, Uses, SomeClash, NodesUpTo;
    var pins := Shown(playback, capture, includeCapture);
    var names, dacs, adcs := Names(pins, |pins|), Dacs(playback), Adcs(playback, capture, includeCapture);
    CollidesExactly(pins, "dac", dacs);
    CollidesExactly(pins, "adc", adcs);
    forall name
      ensures Uses(Graph(playback, capture, includeCapture), name)
           == Occurs(names, |pins|, name) + Converters("dac", dacs, name) + Converters("adc", adcs, name)
    {
      CaptureUses(pins, names, |playback|, |pins| - |playback|, name);
    }
    forall name {
      NameUses(pins, dacs, adcs, name);
    }
    UniqueOrNot(Graph(playback, capture, includeCapture), pins, dacs, adcs);
  }

  lemma UniqueOrNot(ws: seq<Widget>, pins: seq<Pin>, dacs: nat, adcs: nat)
    requires forall name :: Uses(ws, name) == Occurs(Names(pins, |pins|), |pins|, name) + Converters("dac", dacs, name)
                                              + Converters("adc", adcs, name)
    ensures NamesUnique(ws)
            <==> !Collides(Names(pins, |pins|), "dac", dacs) && !Collides(Names(pins, |pins|), "adc", adcs)
  {
    hide Names, Dec, Occurs, Converters, Uses;
    var names := Names(pins, |pins|);
    if Collides(names, "dac", dacs) {
      var k, i :| 0 <= k < |names| && 0 <= i < dacs && names[k] == "dac" + Dec(i);
      NameUses(pins, dacs, adcs, names[k]);
      assert Uses(ws, names[k]) > 1;
    }
    if Collides(names, "adc", adcs) {
      var k, i :| 0 <= k < |names| && 0 <= i < adcs && names[k] == "adc" + Dec(i);
      NameUses(pins, dacs, adcs, names[k]);
      assert Uses(ws, names[k]) > 1;
    }
    if !NamesUnique(ws) {
      var name :| Uses(ws, name) > 1;
      NameUses(pins, dacs, adcs, name);
      var k :| 0 <= k < |names| && names[k] == name;
    }
  }

  /** Two playback pins, one of a device called "DAC": it gets the name of the second converter. */
  lemma DacPinCollides(first: nat, second: nat)
    ensures !NamesUnique(Graph([Pin("DAC", first), Pin("Speaker", second)], [], false))
  {
    hide Names, Uses, Graph, Dec;
    var playback := [Pin("DAC", first), Pin("Speaker", second)];
    NamesUniqueExactly(playback, [], false);
    assert Shown(playback, [], false) == playback;
    DacBase(first);
    assert Clashes(Base(playback[0]), "dac", 2);
  }

  lemma DacBase(config: nat)
    ensures Base(Pin("DAC", config)) == "dac"
  {
    assert Lower("DAC") == "dac";
    assert Kept("dac"[1..]) == "ac" by {
      assert "dac"[1..] == "ac" && "ac"[1..] == "c" && "c"[1..] == "";
      assert Kept("c") == "c";
    }
  }
}

/** The HDA graph node by node: where each converter and each pin of the profile stands, and how it is named. */
module HdaLayout {
  import opened Sequences
  import opened Text
  import opened HdaGraph

  // ----- positions -----

  /** The `k`-th playback pin: behind its converter while there are four of them, behind all of them later. */
  predicate PlaybackAt(ws: seq<Widget>, pins: seq<Pin>, names: seq<string>, k: nat)
    requires k < |pins| && k < |names|
  {
    var i, dac := if k < 4 then 2 * k + 1 else 4 + k, if k < 4 then 2 + 2 * k else 8;
    i < |ws| && ws[i] == Out(2 + i, names[k], pins[k].config, dac)
  }

  predicate DacAt(ws: seq<Widget>, k: nat)
    requires k < 4
  {
    2 * k < |ws| && ws[2 * k] == Dac(2 + 2 * k, ["dac0", "dac1", "dac2", "dac3"][k], k)
  }

  /** The `k`-th capture pin, behind its converter while there are streams for one. */
  predicate CaptureAt(ws: seq<Widget>, pins: seq<Pin>, names: seq<string>, first: nat, start: nat, adcs: nat, k: nat)
    requires first + k < |pins| && first + k < |names|
  {
    var i := if k < adcs then start + 2 * k + 1 else start + adcs + k;
    i < |ws| && ws[i] == In(2 + i, names[first + k], pins[first + k].config)
  }

  predicate AdcAt(ws: seq<Widget>, start: nat, dacs: nat, k: nat)
    requires k < 4
  {
    var i := start + 2 * k;
    i < |ws| && ws[i] == Adc(2 + i, ["adc0", "adc1", "adc2", "adc3"][k], dacs + k, 3 + i)
  }

  predicate PlaybackLaid(ws: seq<Widget>, pins: seq<Pin>, names: seq<string>, count: nat, dacs: nat)
    requires count <= |pins| && count <= |names| && dacs <= 4
  {
    (forall k :: 0 <= k < count ==> PlaybackAt(ws, pins, names, k)) && forall k :: 0 <= k < dacs ==> DacAt(ws, k)
  }

  predicate CaptureLaid(ws: seq<Widget>, pins: seq<Pin>, names: seq<string>, first: nat, count: nat, start: nat,
                        dacs: nat,
                        adcs: nat)
    requires first + count <= |pins| && first + count <= |names| && adcs <= 4
  {
    && (forall k :: 0 <= k < count ==> CaptureAt(ws, pins, names, first, start, adcs, k))
    && forall k :: 0 <= k < adcs ==> AdcAt(ws, start, dacs, k)
  }

  lemma StemNames(k: nat)
    requires k < 4
    ensures "dac" + Dec(k) == ["dac0", "dac1", "dac2", "dac3"][k]
    ensures "adc" + Dec(k) == ["adc0", "adc1", "adc2", "adc3"][k]
  {
    assert Dec(k) == [DIGITS[k]];
  }

  lemma Longer(ws: seq<Widget>, more: seq<Widget>, pins: seq<Pin>, names: seq<string>, count: nat, dacs: nat)
    requires count <= |pins| && count <= |names| && dacs <= 4 && PlaybackLaid(ws, pins, names, count, dacs)
    ensures PlaybackLaid(ws + more, pins, names, count, dacs)
  {
    var all := ws + more;
    assert forall i :: 0 <= i < |ws| ==> all[i] == ws[i];
    forall k | 0 <= k < count
      ensures PlaybackAt(all, pins, names, k)
    {
      assert PlaybackAt(ws, pins, names, k);
    }
    forall k | 0 <= k < dacs
      ensures DacAt(all, k)
    {
      assert DacAt(ws, k);
    }
  }

  lemma {:induction false} PlaybackIsLaid(pins: seq<Pin>, names: seq<string>, count: nat)
    requires count <= |pins| <= |names|
    ensures |PlaybackNodes(pins, names, count)| == count + Min(count, 4)
    ensures PlaybackLaid(PlaybackNodes(pins, names, count), pins, names, count, Min(count, 4))
  {
    hide Dec, PlaybackNodes, PlaybackLaid, PlaybackAt, DacAt;
    if count == 0 {
      NoNodes(pins, names, 0);
      NothingLaid(pins, names);
    } else {
      var k := count - 1;
      PlaybackIsLaid(pins, names, k);
      var before := PlaybackNodes(pins, names, k);
      PlaybackStep(pins, names, k, before);
      var dac := 2 + 2 * Min(k, 3);
      if k < 4 {
        StemNames(k);
        var more := [Dac(dac, "dac" + Dec(k), k), Out(dac + 1, names[k], pins[k].config, dac)];
        assert PlaybackNodes(pins, names, count) == before + more;
        Longer(before, more, pins, names, k, k);
        FirstLaid(before, pins, names, k);
      } else {
        var more := [Out(6 + k, names[k], pins[k].config, dac)];
        assert PlaybackNodes(pins, names, count) == before + more;
        Longer(before, more, pins, names, k, 4);
        LaterLaid(before, pins, names, k);
      }
    }
  }

  lemma NothingLaid(pins: seq<Pin>, names: seq<string>)
    ensures PlaybackLaid([], pins, names, 0, 0)
  {
  }

  lemma FirstLaid(before: seq<Widget>, pins: seq<Pin>, names: seq<string>, k: nat)
    requires k < 4 && k < |pins| && k < |names| && |before| == 2 * k
    requires PlaybackLaid(before + [Dac(2 + 2 * k, ["dac0", "dac1", "dac2", "dac3"][k], k),
                                    Out(3 + 2 * k, names[k], pins[k].config, 2 + 2 * k)], pins, names, k, k)
    ensures PlaybackLaid(before + [Dac(2 + 2 * k, ["dac0", "dac1", "dac2", "dac3"][k], k),
                                   Out(3 + 2 * k, names[k], pins[k].config, 2 + 2 * k)], pins, names, k + 1, k + 1)
  {
    var all := before + [Dac(2 + 2 * k, ["dac0", "dac1", "dac2", "dac3"][k], k),
                         Out(3 + 2 * k, names[k], pins[k].config, 2 + 2 * k)];
    assert DacAt(all, k) && PlaybackAt(all, pins, names, k);
  }

  lemma LaterLaid(before: seq<Widget>, pins: seq<Pin>, names: seq<string>, k: nat)
    requires 4 <= k && k < |pins| && k < |names| && |before| == k + 4
    requires PlaybackLaid(before + [Out(6 + k, names[k], pins[k].config, 8)], pins, names, k, 4)
    ensures PlaybackLaid(before + [Out(6 + k, names[k], pins[k].config, 8)], pins, names, k + 1, 4)
  {
    assert PlaybackAt(before + [Out(6 + k, names[k], pins[k].config, 8)], pins, names, k);
  }

  lemma LongerCapture(ws: seq<Widget>, more: seq<Widget>, pins: seq<Pin>, names: seq<string>, first: nat, count: nat,
                      start: nat, dacs: nat, adcs: nat)
    requires first + count <= |pins| && first + count <= |names| && adcs <= 4
    requires CaptureLaid(ws, pins, names, first, count, start, dacs, adcs)
    ensures CaptureLaid(ws + more, pins, names, first, count, start, dacs, adcs)
  {
    var all := ws + more;
    assert forall i :: 0 <= i < |ws| ==> all[i] == ws[i];
    forall k | 0 <= k < count
      ensures CaptureAt(all, pins, names, first, start, adcs, k)
    {
      assert CaptureAt(ws, pins, names, first, start, adcs, k);
    }
    forall k | 0 <= k < adcs
      ensures AdcAt(all, start, dacs, k)
    {
      assert AdcAt(ws, start, dacs, k);
    }
  }

  /** Capture converters are as many as there are capture pins, while streams last. */
  lemma {:induction false} CaptureIsLaid(pins: seq<Pin>, names: seq<string>, playbacks: nat, count: nat)
    requires playbacks + count <= |pins| <= |names|
    ensures var ws, dacs := NodesUpTo(pins, names, playbacks, count), Min(playbacks, 4);
      var adcs := Min(count, 4 - dacs);
      && |ws| == playbacks + dacs + count + adcs && PlaybackLaid(ws, pins, names, playbacks, dacs)
      && CaptureLaid(ws, pins, names, playbacks, count, playbacks + dacs, dacs, adcs)
  {
    hide Dec, NodesUpTo, PlaybackNodes, PlaybackLaid, CaptureLaid;
    var dacs, start := Min(playbacks, 4), playbacks + Min(playbacks, 4);
    if count == 0 {
      PlaybackIsLaid(pins, names, playbacks);
      NoNodes(pins, names, playbacks);
      NoCaptureLaid(PlaybackNodes(pins, names, playbacks), pins, names, playbacks, start, dacs);
    } else {
      var k := count - 1;
      CaptureIsLaid(pins, names, playbacks, k);
      var before, p, nid := NodesUpTo(pins, names, playbacks, k), playbacks + k, CaptureStart(playbacks) + k + Min(k,
                                      4 - dacs);
      CaptureStep(pins, names, playbacks, k, before);
      if k < 4 - dacs {
        StemNames(k);
        var more := [Adc(nid, "adc" + Dec(k), dacs + k, nid + 1), In(nid + 1, names[p], pins[p].config)];
        assert NodesUpTo(pins, names, playbacks, count) == before + more;
        Longer(before, more, pins, names, playbacks, dacs);
        LongerCapture(before, more, pins, names, playbacks, k, start, dacs, k);
        CaptureFirst(before, pins, names, playbacks, k, start, dacs);
      } else {
        var more := [In(nid, names[p], pins[p].config)];
        assert NodesUpTo(pins, names, playbacks, count) == before + more;
        Longer(before, more, pins, names, playbacks, dacs);
        LongerCapture(before, more, pins, names, playbacks, k, start, dacs, 4 - dacs);
        CaptureLater(before, pins, names, playbacks, k, start, dacs);
      }
    }
  }

  lemma NoCaptureLaid(ws: seq<Widget>, pins: seq<Pin>, names: seq<string>, first: nat, start: nat, dacs: nat)
    requires first <= |pins| && first <= |names|
    ensures CaptureLaid(ws, pins, names, first, 0, start, dacs, 0)
  {
  }

  lemma CaptureFirst(before: seq<Widget>, pins: seq<Pin>, names: seq<string>, first: nat, k: nat, start: nat, dacs: nat)
    requires k < 4 && first + k < |pins| && first + k < |names| && |before| == start + 2 * k
    requires var all := CaptureMore(before, pins, names, first, k, start, dacs);
      CaptureLaid(all, pins, names, first, k, start, dacs, k)
    ensures var all := CaptureMore(before, pins, names, first, k, start, dacs);
      CaptureLaid(all, pins, names, first, k + 1, start, dacs, k + 1)
  {
    var all := CaptureMore(before, pins, names, first, k, start, dacs);
    var adcs := k + 1;
    assert AdcAt(all, start, dacs, k) && CaptureAt(all, pins, names, first, start, adcs, k);
    forall j | 0 <= j < k
      ensures CaptureAt(all, pins, names, first, start, adcs, j)
    {
      assert CaptureAt(all, pins, names, first, start, k, j);
    }
  }

  function CaptureMore(before: seq<Widget>, pins: seq<Pin>, names: seq<string>, first: nat, k: nat, start: nat,
                       dacs: nat):
    seq<Widget>
    requires k < 4 && first + k < |pins| && first + k < |names|
  {
    var nid := 2 + start + 2 * k;
    before + [Adc(nid, ["adc0", "adc1", "adc2", "adc3"][k], dacs + k, nid + 1),
              In(nid + 1, names[first + k], pins[first + k].config)]
  }

  function LonePin(before: seq<Widget>, pins: seq<Pin>, names: seq<string>, first: nat, k: nat, start: nat, dacs: nat):
    seq<Widget>
    requires dacs <= 4 && first + k < |pins| && first + k < |names|
  {
    before + [In(2 + start + k + (4 - dacs), names[first + k], pins[first + k].config)]
  }

  lemma CaptureLater(before: seq<Widget>, pins: seq<Pin>, names: seq<string>, first: nat, k: nat, start: nat, dacs: nat)
    requires dacs <= 4 <= dacs + k && first + k < |pins| && first + k < |names|
    requires |before| == start + k + (4 - dacs)
    requires var all := LonePin(before, pins, names, first, k, start, dacs);
      CaptureLaid(all, pins, names, first, k, start, dacs, 4 - dacs)
    ensures var all := LonePin(before, pins, names, first, k, start, dacs);
      CaptureLaid(all, pins, names, first, k + 1, start, dacs, 4 - dacs)
  {
    assert CaptureAt(LonePin(before, pins, names, first, k, start, dacs), pins, names, first, start, 4 - dacs, k);
  }

  /** Where every node of a graph stands, for any two lists of pins. */
  lemma GraphIsLaid(playback: seq<Pin>, capture: seq<Pin>, includeCapture: bool)
    ensures var pins := playback + if includeCapture then capture else [];
      var ws, names := Graph(playback, capture, includeCapture), Names(pins, |pins|);
      var n, c := |playback|, |pins| - |playback|;
      var dacs := if n < 4 then n else 4;
      var adcs := if c < 4 - dacs then c else 4 - dacs;
      && |ws| == n + dacs + c + adcs && PlaybackLaid(ws, pins, names, n, dacs)
      && CaptureLaid(ws, pins, names, n, c, n + dacs, dacs, adcs)
  {
    hide NodesUpTo, PlaybackLaid, CaptureLaid, Names;
    var pins := Shown(playback, capture, includeCapture);
    CaptureIsLaid(pins, Names(pins, |pins|), |playback|, |pins| - |playback|);
  }

  // ----- names -----

  /** The name is the base itself, or the base and this number behind it. */
  predicate Suffixed(name: string, base: string, m: nat) {
    base <= name && if m == 0 then name == base else Writes(name[|base|..], m, 10)
  }

  /** The text is a reserved name or that of an earlier pin. */
  predicate Taken(names: seq<string>, k: nat, text: string)
    requires k <= |names|
  {
    text in {"root", "func", "dac", "adc", "out", "in"} || exists j :: 0 <= j < k && names[j] == text
  }

  ghost predicate TakenWith(names: seq<string>, k: nat, base: string, m: nat)
    requires k <= |names|
  {
    exists text :: Suffixed(text, base, m) && Taken(names, k, text)
  }

  /** The pin has the first name that is free: the base, or the base with the smallest number that does it. */
  ghost predicate NamePicked(names: seq<string>, k: nat, base: string)
    requires k < |names|
  {
    !Taken(names, k, names[k])
    && exists m :: Suffixed(names[k], base, m) && forall i: nat :: i < m ==> TakenWith(names, k, base, i)
  }

  lemma {:induction false} FreeMeans(base: string, used: set<string>, index: nat) returns (m: nat)
    ensures m >= index && FreeFrom(base, used, index) == Candidate(base, m)
    ensures forall i :: index <= i < m ==> Candidate(base, i) in used
    decreases |used - Tried(base, index)|
  {
    hide Candidate;
    if Candidate(base, index) in used {
      OneMoreTried(base, used, index);
      m := FreeMeans(base, used, index + 1);
    } else {
      m := index;
    }
  }

  lemma CandidateIs(base: string, m: nat)
    ensures Suffixed(Candidate(base, m), base, m)
  {
    hide Writes, Numeral;
    NumeralWrites(m, 10);
    assert m > 0 ==> Candidate(base, m)[|base|..] == Dec(m);
  }

  lemma TakenIsUsed(pins: seq<Pin>, k: nat, text: string)
    requires k <= |pins|
    ensures text in UsedBefore(pins, k) <==> Taken(Names(pins, |pins|), k, text)
  {
    hide Names;
    var all, names := Names(pins, |pins|), Names(pins, k);
    NamesPrefix(pins, k, |pins|);
    assert forall j :: 0 <= j < k ==> names[j] == all[j];
  }

  /** Every pin's name is the first free one for its device. */
  lemma NamesMean(pins: seq<Pin>, k: nat)
    requires k < |pins|
    ensures NamePicked(Names(pins, |pins|), k, Base(pins[k]))
  {
    hide Names, Base, Candidate, UsedBefore, Taken, Suffixed;
    var names, base, used := Names(pins, |pins|), Base(pins[k]), UsedBefore(pins, k);
    NameAt(pins, k);
    var m := FreeMeans(base, used, 0);
    CandidateIs(base, m);
    TakenIsUsed(pins, k, names[k]);
    forall i: nat | i < m
      ensures TakenWith(names, k, base, i)
    {
      CandidateIs(base, i);
      TakenIsUsed(pins, k, Candidate(base, i));
    }
  }

  predicate Alphanumeric(c: char) {
    'a' <= c <= 'z' || 'A' <= c <= 'Z' || '0' <= c <= '9'
  }

  /** The small letter of a letter, and any other character as it is. */
  predicate SmallOf(small: char, c: char) {
    small == if 'A' <= c <= 'Z' then (c as int - 'A' as int + 'a' as int) as char else c
  }

  /** From a position on, the letters and digits of a text stand at these places, and in small letters they are this. */
  predicate CleanedFrom(text: string, from: nat, places: seq<nat>, cleaned: string) {
    && |places| == |cleaned| && (forall i, j :: 0 <= i < j < |places| ==> places[i] < places[j])
    && (forall i :: 0 <= i < |places| ==>
          from <= places[i] < |text| && Alphanumeric(text[places[i]]) && SmallOf(cleaned[i], text[places[i]]))
    && forall k :: from <= k < |text| && Alphanumeric(text[k]) ==> k in places
  }

  lemma LowerCharMeans(c: char)
    ensures SmallOf(LowerChar(c), c) && (IsNameChar(LowerChar(c)) <==> Alphanumeric(c))
  {
  }

  lemma PlaceAdded(text: string, from: nat, rest: seq<nat>, kept: string)
    requires from < |text| && CleanedFrom(text, from + 1, rest, kept) && Alphanumeric(text[from])
    ensures CleanedFrom(text, from, [from] + rest, [LowerChar(text[from])] + kept)
  {
    hide Alphanumeric, SmallOf, LowerChar;
    LowerCharMeans(text[from]);
    Rising(from, rest);
    var places, cleaned := [from] + rest, [LowerChar(text[from])] + kept;
    forall i | 0 <= i < |places|
      ensures from <= places[i] < |text| && Alphanumeric(text[places[i]]) && SmallOf(cleaned[i], text[places[i]])
    {
      if i > 0 {
        assert places[i] == rest[i - 1] && cleaned[i] == kept[i - 1];
      }
    }
    assert places[0] == from && forall k :: k in rest ==> k in places;
  }

  lemma PlaceSkipped(text: string, from: nat, rest: seq<nat>, kept: string)
    requires from < |text| && CleanedFrom(text, from + 1, rest, kept) && !Alphanumeric(text[from])
    ensures CleanedFrom(text, from, rest, kept)
  {
    hide Alphanumeric, SmallOf;
  }

  lemma {:induction false} KeptMeans(text: string, from: nat) returns (places: seq<nat>)
    requires from <= |text|
    ensures CleanedFrom(text, from, places, Kept(Lower(text)[from..]))
    decreases |text| - from
  {
    hide CleanedFrom, IsNameChar, Alphanumeric, LowerChar;
    if from == |text| {
      places := [];
      NoPlaces(text);
    } else {
      places := KeptMeans(text, from + 1);
      var lower := Lower(text)[from..];
      assert lower[1..] == Lower(text)[from + 1..] && lower[0] == LowerChar(text[from]);
      LowerCharMeans(text[from]);
      if Alphanumeric(text[from]) {
        PlaceAdded(text, from, places, Kept(lower[1..]));
        places := [from] + places;
      } else {
        PlaceSkipped(text, from, places, Kept(lower[1..]));
        assert "" + Kept(lower[1..]) == Kept(lower[1..]);
      }
    }
  }

  lemma NoPlaces(text: string)
    ensures CleanedFrom(text, |text|, [], "")
  {
  }

  predicate HasAlphanumeric(text: string) {
    exists k :: 0 <= k < |text| && Alphanumeric(text[k])
  }

  lemma CleanedIsSome(text: string, places: seq<nat>, cleaned: string)
    requires CleanedFrom(text, 0, places, cleaned)
    ensures cleaned != "" <==> HasAlphanumeric(text)
  {
    hide Alphanumeric, SmallOf;
    if cleaned != "" {
      assert Alphanumeric(text[places[0]]);
    }
  }

  /** The base of a name: the device's letters and digits, in small letters, or "pin" if it has none. */
  lemma BaseMeans(pin: Pin) returns (places: seq<nat>)
    ensures if HasAlphanumeric(pin.device) then CleanedFrom(pin.device, 0, places, Base(pin)) else Base(pin) == "pin"
  {
    hide HasAlphanumeric, CleanedFrom, Kept, Lower;
    places := KeptMeans(pin.device, 0);
    assert Lower(pin.device)[0..] == Lower(pin.device);
    CleanedIsSome(pin.device, places, Kept(Lower(pin.device)));
  }
}

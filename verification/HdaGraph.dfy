/**
 The HDA codec graph that `render_hda_pin_nodes` of `02_patch_qemu.py` lays out: converters and pins
 with consecutive node ids, at most four streams, and a name for every node.
 */
module HdaGraph {
  import opened Outcomes
  import opened Sequences
  import opened Text

  /** A pin of the profile, with its configuration word already read. */
  datatype Pin = Pin(device: string, config: nat)

  datatype Widget =
    | Dac(nid: nat, name: string, stream: nat)
    | Adc(nid: nat, name: string, stream: nat, conn: nat)
    | Out(nid: nat, name: string, config: nat, conn: nat)
    | In(nid: nat, name: string, config: nat)

  const FIRST_NID := 2
  const STREAMS := 4

  function Reserved(): set<string> {
    {"root", "func", "dac", "adc", "out", "in"}
  }

  // ---- Names ---------------------------------------------------------------------------------

  predicate IsNameChar(c: char) {
    'a' <= c <= 'z' || '0' <= c <= '9'
  }

  function Kept(s: string): string {
    if s == "" then "" else (if IsNameChar(s[0]) then [s[0]] else "") + Kept(s[1..])
  }

  /** The device name without punctuation, in lower case. */
  function Base(pin: Pin): string {
    var kept := Kept(Lower(pin.device));
    if kept == "" then "pin" else kept
  }

  function Candidate(base: string, index: nat): string {
    if index == 0 then base else base + Dec(index)
  }

  lemma CandidateInjective(base: string, i: nat, j: nat)
    requires Candidate(base, i) == Candidate(base, j)
    ensures i == j
  {
    hide AreDigits, Value;
    NumeralRoundTrip(i, 10);
    NumeralRoundTrip(j, 10);
    DigitsAreSome(Dec(i));
    DigitsAreSome(Dec(j));
    assert i > 0 ==> Candidate(base, i)[|base|..] == Dec(i);
    assert j > 0 ==> Candidate(base, j)[|base|..] == Dec(j);
  }

  lemma DigitsAreSome(s: string)
    ensures AreDigits(s, 10) ==> s != ""
  {
  }

  function Tried(base: string, count: nat): set<string> {
    set i: nat | i < count :: Candidate(base, i)
  }

  lemma OneMoreTried(base: string, used: set<string>, index: nat)
    requires Candidate(base, index) in used
    ensures |used - Tried(base, index + 1)| < |used - Tried(base, index)|
  {
    hide Candidate;
    forall i: nat | i < index
      ensures Candidate(base, i) != Candidate(base, index)
    {
      if Candidate(base, i) == Candidate(base, index) {
        CandidateInjective(base, i, index);
      }
    }
    assert used - Tried(base, index + 1) == used - Tried(base, index) - {Candidate(base, index)};
  }

  /** The first candidate that is free, from a given index on. */
  function FreeFrom(base: string, used: set<string>, index: nat): (name: string)
    ensures name !in used
    decreases |used - Tried(base, index)|
  {
    if Candidate(base, index) in used then
      OneMoreTried(base, used, index);
      FreeFrom(base, used, index + 1)
    else Candidate(base, index)
  }

  /** `hda_pin_node_name`, with the growing set of names as a value. */
  method PinNodeName(pin: Pin, used: set<string>) returns (name: string)
    ensures name == FreeFrom(Base(pin), used, 0)
  {
    var base := Base(pin);
    name := base;
    var index := 0;
    while name in used
      invariant name == Candidate(base, index)
      invariant FreeFrom(base, used, index) == FreeFrom(base, used, 0)
      decreases |used - Tried(base, index)|
    {
      OneMoreTried(base, used, index);
      index := index + 1;
      name := base + Dec(index);
    }
  }

  /** The names of the first pins, each the first candidate not used by a reserved name or an earlier pin. */
  function Names(pins: seq<Pin>, count: nat): (names: seq<string>)
    requires count <= |pins|
    ensures |names| == count
  {
    if count == 0 then []
    else
      var names := Names(pins, count - 1);
      names + [FreeFrom(Base(pins[count - 1]), Reserved() + Elements(names), 0)]
  }

  lemma NamesStep(pins: seq<Pin>, count: nat)
    requires 0 < count <= |pins|
    ensures Names(pins, count) == Names(pins, count - 1)
                                  + [FreeFrom(Base(pins[count - 1]), Reserved() + Elements(Names(pins, count - 1)), 0)]
  {
  }

  lemma {:induction false} NamesPrefix(pins: seq<Pin>, count: nat, total: nat)
    requires count <= total <= |pins|
    ensures Names(pins, count) == Names(pins, total)[..count]
  {
    hide FreeFrom, Base, Elements;
    if count < total {
      NamesPrefix(pins, count, total - 1);
      NamesStep(pins, total);
      assert Names(pins, total)[..count] == Names(pins, total - 1)[..count];
    }
  }

  /** No two pins share a name and no pin takes a reserved one. */
  lemma {:induction false} PinNamesAreDistinct(pins: seq<Pin>, count: nat)
    requires count <= |pins|
    ensures forall i, j :: 0 <= i < j < count ==> Names(pins, count)[i] != Names(pins, count)[j]
    ensures forall i :: 0 <= i < count ==> Names(pins, count)[i] !in Reserved()
  {
    if count > 0 {
      PinNamesAreDistinct(pins, count - 1);
      var names := Names(pins, count - 1);
      forall i | 0 <= i < count - 1
        ensures names[i] != Names(pins, count)[count - 1]
      {
        assert names[i] in Elements(names);
      }
    }
  }

  // ---- The graph -----------------------------------------------------------------------------

  function Min(a: nat, b: nat): nat {
    if a <= b then a else b
  }

  /** The nodes of one playback pin: a converter while streams last, then the pin. */
  function Playback(pins: seq<Pin>, names: seq<string>, k: nat): seq<Widget>
    requires k < |pins| <= |names|
  {
    var dac := FIRST_NID + 2 * Min(k, STREAMS - 1);
    if k < STREAMS then [Dac(dac, "dac" + Dec(k), k), Out(dac + 1, names[k], pins[k].config, dac)]
    else [Out(FIRST_NID + STREAMS + k, names[k], pins[k].config, dac)]
  }

  function PlaybackNodes(pins: seq<Pin>, names: seq<string>, count: nat): seq<Widget>
    requires count <= |pins| <= |names|
  {
    if count == 0 then [] else PlaybackNodes(pins, names, count - 1) + Playback(pins, names, count - 1)
  }

  /** Playback pins take the first streams; these are left for capture. */
  function FreeStreams(playbacks: nat): nat {
    STREAMS - Min(playbacks, STREAMS)
  }

  function CaptureStart(playbacks: nat): nat {
    FIRST_NID + playbacks + Min(playbacks, STREAMS)
  }

  /** The nodes of one capture pin: a converter that reads the pin after it while streams last, then the pin. */
  function Capture(pins: seq<Pin>, names: seq<string>, playbacks: nat, k: nat): seq<Widget>
    requires playbacks + k < |pins| <= |names|
  {
    var start, p := CaptureStart(playbacks), playbacks + k;
    if k < FreeStreams(playbacks) then
      [Adc(start + 2 * k, "adc" + Dec(k), Min(playbacks, STREAMS) + k, start + 2 * k + 1),
       In(start + 2 * k + 1, names[p], pins[p].config)]
    else [In(start + FreeStreams(playbacks) + k, names[p], pins[p].config)]
  }

  function CaptureNodes(pins: seq<Pin>, names: seq<string>, playbacks: nat, count: nat): seq<Widget>
    requires playbacks + count <= |pins| <= |names|
  {
    if count == 0 then []
    else CaptureNodes(pins, names, playbacks, count - 1) + Capture(pins, names, playbacks, count - 1)
  }

  function NodesUpTo(pins: seq<Pin>, names: seq<string>, playbacks: nat, captures: nat): seq<Widget>
    requires playbacks + captures <= |pins| <= |names|
  {
    PlaybackNodes(pins, names, playbacks) + CaptureNodes(pins, names, playbacks, captures)
  }

  /** The pins that the graph shows. */
  function Shown(playback: seq<Pin>, capture: seq<Pin>, includeCapture: bool): seq<Pin> {
    playback + if includeCapture then capture else []
  }

  lemma ShownAt(playback: seq<Pin>, capture: seq<Pin>, includeCapture: bool)
    ensures |Shown(playback, capture, includeCapture)| == |playback| + if includeCapture then |capture| else 0
    ensures forall k :: 0 <= k < |playback| ==> Shown(playback, capture, includeCapture)[k] == playback[k]
    ensures includeCapture ==>
              forall k :: 0 <= k < |capture| ==> Shown(playback, capture, includeCapture)[|playback| + k] == capture[k]
  {
  }

  function Graph(playback: seq<Pin>, capture: seq<Pin>, includeCapture: bool): seq<Widget> {
    var pins := Shown(playback, capture, includeCapture);
    var names := Names(pins, |pins|);
    NodesUpTo(pins, names, |playback|, |pins| - |playback|)
  }

  /** Capture was asked for, there is something to capture, and playback took every stream. */
  predicate NoStreamLeft(playback: seq<Pin>, capture: seq<Pin>, includeCapture: bool) {
    includeCapture && |capture| >= 1 && |playback| >= STREAMS
  }

  lemma NoNodes(pins: seq<Pin>, names: seq<string>, playbacks: nat)
    requires playbacks <= |pins| <= |names|
    ensures PlaybackNodes(pins, names, 0) == []
    ensures NodesUpTo(pins, names, playbacks, 0) == PlaybackNodes(pins, names, playbacks)
  {
  }

  lemma PlaybackStep(pins: seq<Pin>, names: seq<string>, k: nat, before: seq<Widget>)
    requires k < |pins| <= |names| && before == PlaybackNodes(pins, names, k)
    ensures var dac := FIRST_NID + 2 * Min(k, STREAMS - 1);
            PlaybackNodes(pins, names, k + 1)
              == if k < STREAMS
                 then before + [Dac(dac, "dac" + Dec(k), k)] + [Out(dac + 1, names[k], pins[k].config, dac)]
                 else before + [Out(FIRST_NID + STREAMS + k, names[k], pins[k].config, dac)]
  {
    hide Dec;
  }

  lemma CaptureStep(pins: seq<Pin>, names: seq<string>, playbacks: nat, k: nat, before: seq<Widget>)
    requires playbacks + k < |pins| <= |names| && before == NodesUpTo(pins, names, playbacks, k)
    ensures var nid := CaptureStart(playbacks) + k + Min(k, FreeStreams(playbacks));
            NodesUpTo(pins, names, playbacks, k + 1)
              == if k < FreeStreams(playbacks)
                 then before + [Adc(nid, "adc" + Dec(k), Min(playbacks, STREAMS) + k, nid + 1)]
                      + [In(nid + 1, names[playbacks + k], pins[playbacks + k].config)]
                 else before + [In(nid, names[playbacks + k], pins[playbacks + k].config)]
  {
    hide Dec, PlaybackNodes;
    var captured := CaptureNodes(pins, names, playbacks, k);
    assert before + Capture(pins, names, playbacks, k)
        == PlaybackNodes(pins, names, playbacks) + (captured + Capture(pins, names, playbacks, k));
  }

  /** The playback loop of `render_hda_pin_nodes`. */
  method RenderPlayback(playback: seq<Pin>, ghost pins: seq<Pin>, ghost names: seq<string>)
    returns (used: set<string>, widgets: seq<Widget>, nid: nat, stream: nat)
    requires |playback| <= |pins| && names == Names(pins, |pins|)
    requires forall k :: 0 <= k < |playback| ==> pins[k] == playback[k]
    ensures used == UsedBefore(pins, |playback|) && widgets == PlaybackNodes(pins, names, |playback|)
    ensures stream == Min(|playback|, STREAMS) && nid == CaptureStart(|playback|) == FIRST_NID + |widgets|
  {
    hide FreeFrom, Base, Dec, Names, UsedBefore, Reserved, Playback, PlaybackNodes;
    NoNodes(pins, names, 0);
    NothingUsed(pins);
    used, widgets, nid, stream := Reserved(), [], FIRST_NID, 0;
    var lastDac := 0;
    for index := 0 to |playback|
      invariant used == UsedBefore(pins, index)
      invariant stream == Min(index, STREAMS) && nid == FIRST_NID + index + stream
      invariant index > 0 ==> lastDac == FIRST_NID + 2 * Min(index - 1, STREAMS - 1)
      invariant widgets == PlaybackNodes(pins, names, index) && |widgets| == nid - FIRST_NID
    {
      NameAt(pins, index);
      PlaybackStep(pins, names, index, widgets);
      var pin := playback[index];
      if stream < STREAMS {
        lastDac := nid;
        widgets := widgets + [Dac(nid, "dac" + Dec(index), stream)];
        nid := nid + 1;
        stream := stream + 1;
      }
      var name := PinNodeName(pin, used);
      used := used + {name};
      widgets := widgets + [Out(nid, name, pin.config, lastDac)];
      nid := nid + 1;
    }
  }

  /**
   `render_hda_pin_nodes`: the nodes and their number, or an error when capture is asked for and
   playback left no stream for it.
   */
  method RenderHdaPinNodes(playback: seq<Pin>, capture: seq<Pin>, includeCapture: bool)
    returns (r: Result<(seq<Widget>, nat)>)
    ensures r.Err? <==> NoStreamLeft(playback, capture, includeCapture)
    ensures r.Err? ==> r.error == RuntimeError
    ensures r.Ok? ==> r.value.0 == Graph(playback, capture, includeCapture) && r.value.1 == |r.value.0|
  {
    hide FreeFrom, Base, Dec, Names, UsedBefore, Reserved, Playback, Capture, PlaybackNodes, CaptureNodes, NodesUpTo,
      Shown;
    ghost var pins := Shown(playback, capture, includeCapture);
    ghost var names := Names(pins, |pins|);
    ShownAt(playback, capture, includeCapture);
    NoNodes(pins, names, |playback|);
    var used, widgets, nid, stream := RenderPlayback(playback, pins, names);
    if includeCapture {
      var lastAdc := None;
      for index := 0 to |capture|
        invariant used == UsedBefore(pins, |playback| + index)
        invariant stream == Min(|playback|, STREAMS) + Min(index, FreeStreams(|playback|))
        invariant nid == CaptureStart(|playback|) + index + Min(index, FreeStreams(|playback|)) == FIRST_NID + |widgets|
        invariant index > 0 ==> lastAdc.Some?
        invariant lastAdc.Some? ==> FreeStreams(|playback|) > 0
        invariant widgets == NodesUpTo(pins, names, |playback|, index)
      {
        NameAt(pins, |playback| + index);
        CaptureStep(pins, names, |playback|, index, widgets);
        var pin := capture[index];
        var name := PinNodeName(pin, used);
        used := used + {name};
        if stream < STREAMS {
          lastAdc := Some(nid);
          widgets := widgets + [Adc(nid, "adc" + Dec(index), stream, nid + 1)];
          nid := nid + 1;
          stream := stream + 1;
        }
        widgets := widgets + [In(nid, name, pin.config)];
        nid := nid + 1;
        if lastAdc.None? {
          return Err(RuntimeError);
        }
      }
    }
    return Ok((widgets, nid - FIRST_NID));
  }

  /** The names that are taken when pin `k` gets its own. */
  function UsedBefore(pins: seq<Pin>, k: nat): set<string>
    requires k <= |pins|
  {
    Reserved() + Elements(Names(pins, k))
  }

  lemma NothingUsed(pins: seq<Pin>)
    ensures UsedBefore(pins, 0) == Reserved()
  {
  }

  lemma TakeLast<T>(s: seq<T>, front: seq<T>, last: T)
    requires |front| < |s| && s[..|front| + 1] == front + [last]
    ensures s[|front|] == last
  {
    assert s[..|front| + 1][|front|] == last;
  }

  lemma NameAt(pins: seq<Pin>, k: nat)
    requires k < |pins|
    ensures Names(pins, |pins|)[k] == FreeFrom(Base(pins[k]), UsedBefore(pins, k), 0)
    ensures UsedBefore(pins, k + 1) == UsedBefore(pins, k) + {Names(pins, |pins|)[k]}
  {
    hide FreeFrom, Base, Names, Elements, Reserved;
    NamesPrefix(pins, k, |pins|);
    NamesPrefix(pins, k + 1, |pins|);
    NamesStep(pins, k + 1);
    var names, name := Names(pins, k), FreeFrom(Base(pins[k]), Reserved() + Elements(Names(pins, k)), 0);
    TakeLast(Names(pins, |pins|), names, name);
    ElementsSnoc(names, name);
    assert UsedBefore(pins, k + 1) == UsedBefore(pins, k) + {name} by {
      assert Reserved() + (Elements(names) + {name}) == Reserved() + Elements(names) + {name};
    }
  }
}

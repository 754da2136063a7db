/** Whole runs of the I226-V front end: what the table and the counters hold after any history of events. */
module I226Runs {
  import opened I226Device

  /** The state after a history of events since power on. */
  function Run(h: seq<Event>): State {
    if h == [] then INITIAL else Step(Run(h[..|h| - 1]), h[|h| - 1])
  }

  // ---- The MMD table -------------------------------------------------------------------------

  predicate Writes(e: Event, reg: bv32) {
    e.Mdio? && PhyOf(e.value) == 0 && IsWrite(e.value) && RegOf(e.value) == reg
  }

  /** The last word written to the access control register since the last reset; zero if there is none. */
  function Control(h: seq<Event>): bv16 {
    if h == [] || h[|h| - 1].Reset? then 0
    else if Writes(h[|h| - 1], ACCESS_CONTROL) then DataOf(h[|h| - 1].value)
    else Control(h[..|h| - 1])
  }

  /** The last word written to the access data register outside data mode since the last reset. */
  function Address(h: seq<Event>): bv16 {
    if h == [] || h[|h| - 1].Reset? then 0
    else if Writes(h[|h| - 1], ACCESS_DATA) && Control(h[..|h| - 1]) & DATA_MODE == 0 then DataOf(h[|h| - 1].value)
    else Address(h[..|h| - 1])
  }

  /** The pair that data mode addresses after a history. */
  function Selected(h: seq<Event>): Key {
    (Control(h) & DEVICE_MASK, Address(h))
  }

  /** Every data-mode write since the last reset, with the pair it addressed, oldest first. */
  function Writings(h: seq<Event>): seq<Entry> {
    if h == [] || h[|h| - 1].Reset? then []
    else
      var front, e := h[..|h| - 1], h[|h| - 1];
      if Writes(e, ACCESS_DATA) && Control(front) & DATA_MODE != 0
      then Writings(front) + [Entry(Selected(front), DataOf(e.value))]
      else Writings(front)
  }

  /** The distinct pairs of some writings, in the order in which each was first written. */
  function Firsts(ws: seq<Entry>): seq<Key> {
    if ws == [] then []
    else
      var firsts := Firsts(ws[..|ws| - 1]);
      if ws[|ws| - 1].key in firsts then firsts else firsts + [ws[|ws| - 1].key]
  }

  /** The pairs the table has room for. */
  function Kept(ws: seq<Entry>): seq<Key> {
    if |Firsts(ws)| <= SLOTS then Firsts(ws) else Firsts(ws)[..SLOTS]
  }

  /** `value` is what the last of the writings to `key` wrote. */
  ghost predicate IsLast(ws: seq<Entry>, key: Key, value: bv16) {
    exists i :: 0 <= i < |ws| && ws[i] == Entry(key, value) && forall j :: i < j < |ws| ==> ws[j].key != key
  }

  /** The table is a bounded map of the writings: the first 64 distinct pairs, each with its last value. */
  ghost predicate Holds(entries: seq<Entry>, ws: seq<Entry>) {
    && |entries| == |Kept(ws)|
    && (forall i :: 0 <= i < |entries| ==> entries[i].key == Kept(ws)[i])
    && (forall i :: 0 <= i < |entries| ==> IsLast(ws, entries[i].key, entries[i].value))
  }

  predicate Distinct(keys: seq<Key>) {
    forall i, j :: 0 <= i < j < |keys| ==> keys[i] != keys[j]
  }

  lemma {:induction false} FirstsAreDistinct(ws: seq<Entry>)
    ensures Distinct(Firsts(ws))
    ensures forall key :: key in Firsts(ws) <==> exists i :: 0 <= i < |ws| && ws[i].key == key
  {
    if ws != [] {
      var front := ws[..|ws| - 1];
      FirstsAreDistinct(front);
      forall key
        ensures key in Firsts(ws) <==> exists i :: 0 <= i < |ws| && ws[i].key == key
      {
        if key in Firsts(front) {
          var i :| 0 <= i < |front| && front[i].key == key;
          assert ws[i].key == key;
        } else if exists i :: 0 <= i < |ws| && ws[i].key == key {
          var i :| 0 <= i < |ws| && ws[i].key == key;
          assert i < |front| ==> front[i].key == key;
        }
        assert ws[|ws| - 1].key in Firsts(ws);
      }
    }
  }

  lemma Snoc(ws: seq<Entry>, w: Entry)
    ensures Firsts(ws + [w]) == if w.key in Firsts(ws) then Firsts(ws) else Firsts(ws) + [w.key]
  {
    assert (ws + [w])[..|ws|] == ws;
  }

  lemma LastSnoc(ws: seq<Entry>, w: Entry, key: Key, value: bv16)
    requires if key == w.key then value == w.value else IsLast(ws, key, value)
    ensures IsLast(ws + [w], key, value)
  {
    var after := ws + [w];
    if key == w.key {
      assert after[|ws|] == Entry(key, value);
    } else {
      var i :| 0 <= i < |ws| && ws[i] == Entry(key, value) && forall j :: i < j < |ws| ==> ws[j].key != key;
      assert after[i] == Entry(key, value);
    }
  }

  /** One data-mode write keeps the table in step with the writings. */
  lemma StoreHolds(entries: seq<Entry>, ws: seq<Entry>, w: Entry)
    requires Holds(entries, ws)
    ensures Holds(Store(entries, w.key, w.value), ws + [w])
  {
    hide Firsts, IsLast;
    Snoc(ws, w);
    FirstsAreDistinct(ws);
    var i := Find(entries, w.key);
    StoreIs(entries, w.key, w.value, i);
    var after := Store(entries, w.key, w.value);
    if i < |entries| {
      assert Firsts(ws)[i] == w.key;
      assert Kept(ws + [w]) == Kept(ws);
      forall k | 0 <= k < |after|
        ensures after[k].key == Kept(ws)[k] && IsLast(ws + [w], after[k].key, after[k].value)
      {
        assert k != i ==> Firsts(ws)[k] != Firsts(ws)[i];
        LastSnoc(ws, w, after[k].key, after[k].value);
      }
    } else {
      KeptGrows(entries, ws, w);
      forall k | 0 <= k < |after|
        ensures after[k].key == Kept(ws + [w])[k] && IsLast(ws + [w], after[k].key, after[k].value)
      {
        LastSnoc(ws, w, after[k].key, after[k].value);
      }
    }
  }

  lemma KeptGrows(entries: seq<Entry>, ws: seq<Entry>, w: Entry)
    requires |entries| == |Kept(ws)| && (forall i :: 0 <= i < |entries| ==> entries[i].key == Kept(ws)[i])
    requires forall i :: 0 <= i < |entries| ==> entries[i].key != w.key
    ensures Kept(ws + [w]) == if |entries| < SLOTS then Kept(ws) + [w.key] else Kept(ws)
  {
    Snoc(ws, w);
    FindsKept(entries, Kept(ws), w.key);
  }

  /**
   The table refines a bounded map over any run: its entries are the first 64 distinct pairs written in
   data mode since the last reset, each with the last value written to it, and the two indirect registers
   hold what the run last wrote to them.
   */
  lemma {:induction false} TableRefinesMap(h: seq<Event>)
    ensures Run(h).mmd.control == Control(h) && Run(h).mmd.address == Address(h)
    ensures Holds(Run(h).mmd.entries, Writings(h))
  {
    hide Store, Firsts, IsLast, RegOf, PhyOf, DataOf, IsWrite, Holds;
    if h == [] || h[|h| - 1].Reset? {
      NothingWritten();
    } else {
      var front, e := h[..|h| - 1], h[|h| - 1];
      TableRefinesMap(front);
      if Writes(e, ACCESS_DATA) && Control(front) & DATA_MODE != 0 {
        StoreHolds(Run(front).mmd.entries, Writings(front), Entry(Selected(front), DataOf(e.value)));
      }
    }
  }

  lemma NothingWritten()
    ensures Holds([], [])
  {
  }

  /** The pairs in the table stay distinct and at most 64 on every run. */
  lemma TableStaysBounded(h: seq<Event>)
    ensures |Run(h).mmd.entries| <= SLOTS
    ensures forall i, j :: 0 <= i < j < |Run(h).mmd.entries| ==> Run(h).mmd.entries[i].key != Run(h).mmd.entries[j].key
  {
    TableRefinesMap(h);
    FirstsAreDistinct(Writings(h));
  }

  lemma FindsKept(entries: seq<Entry>, keys: seq<Key>, key: Key)
    requires |entries| == |keys| && forall i :: 0 <= i < |entries| ==> entries[i].key == keys[i]
    ensures Find(entries, key) < |entries| <==> key in keys
  {
    if key in keys {
      var i :| 0 <= i < |keys| && keys[i] == key;
      assert entries[i].key == key;
    }
  }

  predicate ReadsData(value: bv32) {
    PhyOf(value) == 0 && IsRead(value) && RegOf(value) == ACCESS_DATA
  }

  lemma AnswerCarries(value: bv32, data: bv16)
    ensures DataOf(Answer(value, data)) == data
    ensures Answer(value, data) & READY == READY
  {
  }

  lemma ReadAnswers(m: Mmd, value: bv32, backend: bv32)
    requires ReadsData(value) && DataMode(m)
    ensures MdicResult(m, value, backend) == Answer(value, Lookup(m.entries, CurrentKey(m)))
  {
    hide RegOf, PhyOf, Answer, Lookup;
    WriteOrRead(value);
  }

  /**
   A data-mode read after any run answers, in the low 16 bits, with the last value written to the selected
   pair, or with zero when the pair was never written or came after 64 others.
   */
  lemma ReadReturnsLastWrite(h: seq<Event>, value: bv32, answer: bv32, backend: bv32)
    requires ReadsData(value) && Control(h) & DATA_MODE != 0 && answer == MdicResult(Run(h).mmd, value, backend)
    ensures answer & READY == READY
    ensures Selected(h) in Kept(Writings(h)) ==> IsLast(Writings(h), Selected(h), DataOf(answer))
    ensures Selected(h) !in Kept(Writings(h)) ==> DataOf(answer) == 0
  {
    hide Firsts, IsLast, DataOf, Run, Writings, MdicResult, Answer, ReadsData;
    TableRefinesMap(h);
    var entries, key := Run(h).mmd.entries, Selected(h);
    AnswerCarries(value, Lookup(entries, key));
    ReadAnswers(Run(h).mmd, value, backend);
    FindsKept(entries, Kept(Writings(h)), key);
  }

  lemma DataWrite(h: seq<Event>, e: Event)
    requires Writes(e, ACCESS_DATA) && Control(h) & DATA_MODE != 0
    ensures Writings(h + [e]) == Writings(h) + [Entry(Selected(h), DataOf(e.value))]
    ensures Run(h + [e]) == Step(Run(h), e)
  {
    hide RegOf, PhyOf, DataOf, IsWrite, Step;
    assert (h + [e])[..|h|] == h;
  }

  lemma DataStep(s: State, e: Event)
    requires Writes(e, ACCESS_DATA) && DataMode(s.mmd)
    ensures Step(s, e) == s.(mmd := s.mmd.(entries := Store(s.mmd.entries, CurrentKey(s.mmd), DataOf(e.value))))
  {
    hide RegOf, PhyOf, DataOf, IsWrite, Store;
  }

  lemma StoredIsFound(entries: seq<Entry>, w: Entry)
    ensures Find(entries, w.key) < |entries| ==> Lookup(Store(entries, w.key, w.value), w.key) == w.value
  {
    hide Find;
    var i := Find(entries, w.key);
    StoreIs(entries, w.key, w.value, i);
    if i < |entries| {
      FindIs(entries[i := w], w.key, i);
    }
  }

  /** A pair already in the table still takes a new value when the table is full. */
  lemma FullTableStillUpdates(h: seq<Event>, e: Event)
    requires Writes(e, ACCESS_DATA) && Control(h) & DATA_MODE != 0 && |Kept(Writings(h))| == SLOTS
    ensures Kept(Writings(h + [e])) == Kept(Writings(h))
    ensures Selected(h) in Kept(Writings(h)) ==> Lookup(Run(h + [e]).mmd.entries, Selected(h)) == DataOf(e.value)
    ensures Selected(h) !in Kept(Writings(h)) ==> Run(h + [e]) == Run(h)
  {
    hide Store, Firsts, IsLast, DataOf, RegOf, PhyOf, IsWrite, Writings, Run, Step, Lookup, Find;
    DataWrite(h, e);
    TableRefinesMap(h);
    DataStep(Run(h), e);
    var ws, w := Writings(h), Entry(Selected(h), DataOf(e.value));
    var entries := Run(h).mmd.entries;
    Snoc(ws, w);
    FindsKept(entries, Kept(ws), w.key);
    StoredIsFound(entries, w);
    StoreIs(entries, w.key, w.value, Find(entries, w.key));
  }

  /** An access that reaches another PHY, or only reads. */
  predicate Foreign(e: Event) {
    e.Mdio? && (PhyOf(e.value) != 0 || !IsWrite(e.value))
  }

  function OwnWrites(h: seq<Event>): seq<Event> {
    if h == [] then []
    else OwnWrites(h[..|h| - 1]) + if Foreign(h[|h| - 1]) then [] else [h[|h| - 1]]
  }

  /** Accesses to a nonzero PHY address, and reads, leave no trace: a run without them ends in the same state. */
  lemma {:induction false} ForeignAccessesAreInert(h: seq<Event>)
    ensures Run(OwnWrites(h)) == Run(h)
  {
    hide RegOf, PhyOf, DataOf, IsWrite, Store, Added, Counted;
    if h != [] {
      ForeignAccessesAreInert(h[..|h| - 1]);
      var own := OwnWrites(h[..|h| - 1]);
      assert (own + [h[|h| - 1]])[..|own|] == own;
      assert own + [] == own;
    }
  }

  // ---- The packet counters -------------------------------------------------------------------

  /** One event as a counter sees it. */
  datatype Tick = Count(packets: nat) | Take | Clear | Idle

  function RxTick(e: Event): Tick {
    match e
    case Received(before, after) => Count(Counted(before.gprc, after.gprc))
    case ReadRpthc => Take
    case Reset => Clear
    case _ => Idle
  }

  function TxTick(e: Event): Tick {
    match e
    case Written(before, after) => Count(Counted(before.gptc, after.gptc))
    case ReadHgptc => Take
    case Reset => Clear
    case _ => Idle
  }

  function RxTicks(h: seq<Event>): seq<Tick> {
    seq(|h|, i requires 0 <= i < |h| => RxTick(h[i]))
  }

  function TxTicks(h: seq<Event>): seq<Tick> {
    seq(|h|, i requires 0 <= i < |h| => TxTick(h[i]))
  }

  /** All packets counted by the ticks, with no regard to reads and resets. */
  function Packets(ts: seq<Tick>): nat {
    if ts == [] then 0
    else Packets(ts[..|ts| - 1]) + if ts[|ts| - 1].Count? then ts[|ts| - 1].packets else 0
  }

  predicate Ends(t: Tick) {
    t.Take? || t.Clear?
  }

  /** The ticks since the last read or reset. */
  function Window(ts: seq<Tick>): seq<Tick> {
    if ts == [] || Ends(ts[|ts| - 1]) then [] else Window(ts[..|ts| - 1]) + [ts[|ts| - 1]]
  }

  /** A window is the part of the run after its last read or reset, or the whole run without one. */
  lemma {:induction false} WindowIsTail(earlier: seq<Tick>, since: seq<Tick>)
    requires earlier == [] || Ends(earlier[|earlier| - 1])
    requires forall i :: 0 <= i < |since| ==> !Ends(since[i])
    ensures Window(earlier + since) == since
  {
    if since == [] {
      assert earlier + since == earlier;
    } else {
      WindowIsTail(earlier, since[..|since| - 1]);
      assert (earlier + since)[..|earlier + since| - 1] == earlier + since[..|since| - 1];
    }
  }

  lemma WindowSnoc(ts: seq<Tick>, t: Tick)
    ensures Window(ts + [t]) == if Ends(t) then [] else Window(ts) + [t]
  {
    assert (ts + [t])[..|ts|] == ts;
  }

  function Capped(n: nat): nat {
    if n <= U32_MAX then n else U32_MAX
  }

  lemma PacketsSnoc(ts: seq<Tick>, t: Tick)
    ensures Packets(ts + [t]) == Packets(ts) + if t.Count? then t.packets else 0
  {
    assert (ts + [t])[..|ts|] == ts;
  }

  lemma CappedAdd(n: nat, delta: nat)
    ensures Added(Capped(n), delta) == Capped(n + delta)
  {
  }

  /**
   After any run each counter is the number of packets counted since it was last read or reset,
   or 2^32 - 1 if that is more: it saturates and never wraps.
   */
  lemma {:induction false} CountersAreCappedSums(h: seq<Event>)
    ensures Run(h).rpthc == Capped(Packets(Window(RxTicks(h))))
    ensures Run(h).hgptc == Capped(Packets(Window(TxTicks(h))))
  {
    hide MdicStep, Added, Counted, Packets, Window;
    PacketsNone();
    if h == [] {
      assert RxTicks(h) == [] && TxTicks(h) == [];
      WindowNone();
    } else {
      var front, e := h[..|h| - 1], h[|h| - 1];
      CountersAreCappedSums(front);
      var rx, tx := RxTicks(front), TxTicks(front);
      assert RxTicks(h) == rx + [RxTick(e)] && TxTicks(h) == tx + [TxTick(e)];
      WindowSnoc(rx, RxTick(e));
      WindowSnoc(tx, TxTick(e));
      PacketsSnoc(Window(rx), RxTick(e));
      PacketsSnoc(Window(tx), TxTick(e));
      if RxTick(e).Count? {
        CappedAdd(Packets(Window(rx)), RxTick(e).packets);
      }
      if TxTick(e).Count? {
        CappedAdd(Packets(Window(tx)), TxTick(e).packets);
      }
    }
  }

  lemma WindowNone()
    ensures Window([]) == []
  {
  }

  lemma PacketsNone()
    ensures Packets([]) == 0
  {
  }

  /** The values handed out by reads of the counter, and those thrown away by resets. */
  function Released(ts: seq<Tick>): nat {
    if ts == [] then 0
    else
      var front := ts[..|ts| - 1];
      Released(front) + if ts[|ts| - 1].Take? || ts[|ts| - 1].Clear? then Capped(Packets(Window(front))) else 0
  }

  /** No window of the run ever counted more than the register can hold. */
  ghost predicate NeverSaturates(ts: seq<Tick>) {
    forall k :: 0 <= k <= |ts| ==> Packets(Window(ts[..k])) <= U32_MAX
  }

  /**
   Conservation: what reads and resets took out plus what is still in the counter never exceeds the
   packets counted, and equals them exactly when no window between two reads saturated.
   */
  lemma {:induction false} PacketsAreConserved(ts: seq<Tick>)
    ensures Released(ts) + Capped(Packets(Window(ts))) <= Packets(ts)
    ensures Released(ts) + Capped(Packets(Window(ts))) == Packets(ts) <==> NeverSaturates(ts)
  {
    hide Window, Packets, NeverSaturates;
    PacketsNone();
    if ts == [] {
      WindowNone();
      NoTicks();
    } else {
      var front, t := ts[..|ts| - 1], ts[|ts| - 1];
      PacketsAreConserved(front);
      assert front + [t] == ts;
      PacketsSnoc(front, t);
      PacketsSnoc(Window(front), t);
      WindowSnoc(front, t);
      SaturatesSnoc(front, t);
      UnsaturatedNow(front);
    }
  }

  lemma UnsaturatedNow(ts: seq<Tick>)
    ensures NeverSaturates(ts) ==> Packets(Window(ts)) <= U32_MAX
  {
    hide Window, Packets;
    assert ts[..|ts|] == ts;
  }

  lemma NoTicks()
    ensures NeverSaturates([])
  {
    assert Window([]) == [] && Packets([]) == 0;
  }

  lemma SaturatesSnoc(front: seq<Tick>, t: Tick)
    ensures NeverSaturates(front + [t]) <==> NeverSaturates(front) && Packets(Window(front + [t])) <= U32_MAX
  {
    hide Window, Packets;
    var ts := front + [t];
    assert ts[..|ts|] == ts;
    forall k | 0 <= k <= |front|
      ensures ts[..k] == front[..k]
    {
    }
    if NeverSaturates(ts) {
      forall k | 0 <= k <= |front|
        ensures Packets(Window(front[..k])) <= U32_MAX
      {
        assert Packets(Window(ts[..k])) <= U32_MAX;
      }
    }
  }

  /** What reads of RPTHC returned over a run; a read returns the counter as it was. */
  function ReceivedReads(h: seq<Event>): nat {
    if h == [] then 0
    else ReceivedReads(h[..|h| - 1]) + if h[|h| - 1].ReadRpthc? then Run(h[..|h| - 1]).rpthc else 0
  }

  function TransmittedReads(h: seq<Event>): nat {
    if h == [] then 0
    else TransmittedReads(h[..|h| - 1]) + if h[|h| - 1].ReadHgptc? then Run(h[..|h| - 1]).hgptc else 0
  }

  predicate NoReset(h: seq<Event>) {
    forall i :: 0 <= i < |h| ==> !h[i].Reset?
  }

  lemma {:induction false} ReadsAreReleased(h: seq<Event>)
    requires NoReset(h)
    ensures ReceivedReads(h) == Released(RxTicks(h)) && TransmittedReads(h) == Released(TxTicks(h))
  {
    hide MdicStep, Added, Counted, Packets, Window, Run, Capped;
    if h != [] {
      var front := h[..|h| - 1];
      ReadsAreReleased(front);
      CountersAreCappedSums(front);
      assert RxTicks(h)[..|h| - 1] == RxTicks(front);
      assert TxTicks(h)[..|h| - 1] == TxTicks(front);
    }
  }

  /**
   On a run without a reset the guest loses no packet count: the values its reads returned plus the
   current value are all packets counted, exactly when no window saturated, and are never more.
   */
  lemma ReadsConservePackets(h: seq<Event>)
    requires NoReset(h)
    ensures ReceivedReads(h) + Run(h).rpthc <= Packets(RxTicks(h))
    ensures ReceivedReads(h) + Run(h).rpthc == Packets(RxTicks(h)) <==> NeverSaturates(RxTicks(h))
    ensures TransmittedReads(h) + Run(h).hgptc <= Packets(TxTicks(h))
    ensures TransmittedReads(h) + Run(h).hgptc == Packets(TxTicks(h)) <==> NeverSaturates(TxTicks(h))
  {
    ReadsAreReleased(h);
    CountersAreCappedSums(h);
    PacketsAreConserved(RxTicks(h));
    PacketsAreConserved(TxTicks(h));
  }
}

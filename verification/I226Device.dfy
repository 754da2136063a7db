/**
 The I226-V register front end embedded in `02_patch_qemu.py`: a bounded table of MMD registers
 behind IEEE 802.3 Clause 22 registers 13 and 14, and two saturating read-to-clear packet counters.
 The reused core is an oracle: what it leaves in its own registers is a parameter of each access.
 */
module I226Device {

  const SLOTS := 64
  const ACCESS_CONTROL: bv32 := 13
  const ACCESS_DATA: bv32 := 14
  const DATA_MODE: bv16 := 0x4000
  const DEVICE_MASK: bv16 := 0x1f

  const DATA_MASK: bv32 := 0x0000_FFFF
  const REG_MASK: bv32 := 0x001F_0000
  const PHY_MASK: bv32 := 0x03E0_0000
  const OP_WRITE: bv32 := 0x0400_0000
  const OP_READ: bv32 := 0x0800_0000
  const READY: bv32 := 0x1000_0000
  const ERROR: bv32 := 0x4000_0000
  const PHY_ID: bv16 := 0x888d

  const U32_MAX := 0xFFFF_FFFF

  function RegOf(value: bv32): bv32 { (value & REG_MASK) >> 16 }
  function PhyOf(value: bv32): bv32 { (value & PHY_MASK) >> 21 }
  function DataOf(value: bv32): bv16 { (value & DATA_MASK) as bv16 }
  predicate IsWrite(value: bv32) { value & OP_WRITE != 0 }
  predicate IsRead(value: bv32) { value & OP_READ != 0 && value & OP_WRITE == 0 }

  /** The words left in MDIC: accepted, refused, answered with data, and answered by the core. */
  function Accepted(value: bv32): bv32 { value | READY }
  function Refused(value: bv32): bv32 { value | READY | ERROR }
  function Answer(value: bv32, data: bv16): bv32 { (value & !DATA_MASK) | (data as bv32) | READY }
  function FromCore(backend: bv32, value: bv32): bv32 { (backend & !PHY_MASK) | (value & PHY_MASK) }

  /** The device and address that name one MMD register. */
  type Key = (bv16, bv16)

  datatype Entry = Entry(key: Key, value: bv16)

  /** The indirect access state: control and address registers, and the stored entries in order. */
  datatype Mmd = Mmd(control: bv16, address: bv16, entries: seq<Entry>)

  const BLANK := Mmd(0, 0, [])

  function CurrentKey(m: Mmd): Key {
    (m.control & DEVICE_MASK, m.address)
  }

  predicate DataMode(m: Mmd) {
    m.control & DATA_MODE != 0
  }

  /** The first entry with the key, or the number of entries. */
  function Find(entries: seq<Entry>, key: Key): (i: nat)
    ensures i <= |entries| && (i < |entries| ==> entries[i].key == key)
    ensures forall k :: 0 <= k < i ==> entries[k].key != key
  {
    if entries == [] then 0
    else if entries[0].key == key then 0
    else 1 + Find(entries[1..], key)
  }

  function Lookup(entries: seq<Entry>, key: Key): bv16 {
    var i := Find(entries, key);
    if i < |entries| then entries[i].value else 0
  }

  function Store(entries: seq<Entry>, key: Key, value: bv16): seq<Entry> {
    var i := Find(entries, key);
    if i < |entries| then entries[i := Entry(key, value)]
    else if |entries| < SLOTS then entries + [Entry(key, value)]
    else entries
  }

  /** The effect of one MDIC access on the indirect access state. */
  function MdicStep(m: Mmd, value: bv32): Mmd {
    if PhyOf(value) != 0 || !IsWrite(value) then m
    else if RegOf(value) == ACCESS_CONTROL then m.(control := DataOf(value))
    else if RegOf(value) == ACCESS_DATA then
      if DataMode(m) then m.(entries := Store(m.entries, CurrentKey(m), DataOf(value)))
      else m.(address := DataOf(value))
    else m
  }

  /** What the guest finds in MDIC afterwards; `backend` is what the core left there. */
  function MdicResult(m: Mmd, value: bv32, backend: bv32): bv32 {
    if PhyOf(value) != 0 then Refused(value)
    else if IsWrite(value) && (RegOf(value) == ACCESS_CONTROL || RegOf(value) == ACCESS_DATA) then Accepted(value)
    else if IsRead(value) && RegOf(value) == ACCESS_DATA && DataMode(m) then
      Answer(value, Lookup(m.entries, CurrentKey(m)))
    else if IsRead(value) && RegOf(value) == 0x1e then Answer(value, PHY_ID)
    else FromCore(backend, value)
  }

  /** `i226_add_host_packets`. */
  function Added(counter: nat, delta: nat): nat {
    if U32_MAX - counter < delta then U32_MAX else counter + delta
  }

  /** The packets an access counts, from the core's statistic before and after it. */
  function Counted(before: nat, after: nat): nat {
    if after >= before then after - before else 0
  }

  /** The receive and transmit counts the reused core keeps. */
  datatype Stats = Stats(gprc: nat, gptc: nat)

  /** The state this front end adds to the reused core. */
  datatype State = State(mmd: Mmd, rpthc: nat, hgptc: nat)

  const INITIAL := State(BLANK, 0, 0)

  /**
   What happens to the device: an MDIC write, any other counted register write, a packet arriving,
   a read of either counter, a reset, or an access that leaves the added state alone.
   */
  datatype Event =
    | Mdio(value: bv32)
    | Written(before: Stats, after: Stats)
    | Received(before: Stats, after: Stats)
    | ReadRpthc
    | ReadHgptc
    | Reset
    | Quiet

  function Step(s: State, e: Event): State {
    match e
    case Mdio(value) => s.(mmd := MdicStep(s.mmd, value))
    case Written(before, after) => s.(hgptc := Added(s.hgptc, Counted(before.gptc, after.gptc)))
    case Received(before, after) => s.(rpthc := Added(s.rpthc, Counted(before.gprc, after.gprc)))
    case ReadRpthc => s.(rpthc := 0)
    case ReadHgptc => s.(hgptc := 0)
    case Reset => INITIAL
    case Quiet => s
  }

  /**
   The registers told apart by the access functions. `Own` ones live in this front end and never reach
   the core, `Zero` ones read as zero, `Control` ones reach the core but their writes are not counted.
   */
  datatype Reg = Mdic | Rpthc | Hgptc | Zero | Own | Control | Other

  function ReadEvent(reg: Reg): Event {
    if reg == Rpthc then ReadRpthc else if reg == Hgptc then ReadHgptc else Quiet
  }

  function WriteEvent(reg: Reg, value: bv32, before: Stats, after: Stats): Event {
    if reg == Mdic then Mdio(value)
    else if reg == Own || reg == Control then Quiet
    else Written(before, after)
  }

  class I226 {
    var mdic: bv32
    var stats: Stats
    var rpthc: nat
    var hgptc: nat
    var mmdControl: bv16
    var mmdAddress: bv16
    var mmdCount: nat
    const mmd: array<Entry>

    ghost predicate Valid()
      reads this
    {
      mmd.Length == SLOTS && mmdCount <= SLOTS && rpthc <= U32_MAX && hgptc <= U32_MAX
    }

    ghost function Table(): Mmd
      requires Valid()
      reads this, mmd
    {
      Mmd(mmdControl, mmdAddress, mmd[..mmdCount])
    }

    ghost function Abstract(): State
      requires Valid()
      reads this, mmd
    {
      State(Table(), rpthc, hgptc)
    }

    constructor ()
      ensures Valid() && fresh(mmd) && Abstract() == INITIAL
    {
      mdic, stats, rpthc, hgptc := 0, Stats(0, 0), 0, 0;
      mmdControl, mmdAddress, mmdCount := 0, 0, 0;
      mmd := new Entry[SLOTS](_ => Entry((0, 0), 0));
    }

    /** `i226_mmd_read`. */
    method MmdRead() returns (value: bv16)
      requires Valid()
      ensures value == Lookup(Table().entries, CurrentKey(Table()))
    {
      ghost var entries, key := mmd[..mmdCount], (mmdControl & DEVICE_MASK, mmdAddress);
      for i := 0 to mmdCount
        invariant forall k :: 0 <= k < i ==> entries[k].key != key
      {
        if mmd[i].key.0 == mmdControl & DEVICE_MASK && mmd[i].key.1 == mmdAddress {
          FindIs(entries, key, i);
          return mmd[i].value;
        }
      }
      return 0;
    }

    /** `i226_mmd_write`. */
    method MmdWrite(value: bv16)
      requires Valid()
      modifies this`mmdCount, mmd
      ensures Valid()
      ensures Table().entries == Store(old(Table().entries), old(CurrentKey(Table())), value)
    {
      ghost var entries, key := mmd[..mmdCount], (mmdControl & DEVICE_MASK, mmdAddress);
      hide Find, Store;
      for i := 0 to mmdCount
        invariant forall k :: 0 <= k < i ==> entries[k].key != key
        invariant mmd[..mmdCount] == entries && mmdCount == old(mmdCount)
      {
        if mmd[i].key.0 == mmdControl & DEVICE_MASK && mmd[i].key.1 == mmdAddress {
          assert entries[i] == mmd[i];
          StoreIs(entries, key, value, i);
          mmd[i] := Entry(mmd[i].key, value);
          assert mmd[..mmdCount] == entries[i := Entry(key, value)];
          return;
        }
      }
      StoreIs(entries, key, value, mmdCount);
      if mmdCount < SLOTS {
        mmd[mmdCount] := Entry((mmdControl & DEVICE_MASK, mmdAddress), value);
        mmdCount := mmdCount + 1;
        assert mmd[..mmdCount] == entries + [Entry(key, value)];
      }
    }

    /** `i226_mdic_write`; `backend` is what the core leaves in MDIC. */
    method MdicWrite(value: bv32, backend: bv32)
      requires Valid()
      modifies this`mdic, this`mmdControl, this`mmdAddress, this`mmdCount, mmd
      ensures Valid()
      ensures Table() == MdicStep(old(Table()), value)
      ensures mdic == MdicResult(old(Table()), value, backend)
    {
      hide RegOf, PhyOf, DataOf, Store, Lookup, IsWrite, IsRead, Accepted, Refused, Answer, FromCore;
      var reg, phy, data := RegOf(value), PhyOf(value), DataOf(value);
      if phy != 0 {
        mdic := Refused(value);
        return;
      }
      mdic := FromCore(backend, value);
      if IsWrite(value) {
        WriteOrRead(value);
        if reg == ACCESS_CONTROL {
          mmdControl := data;
          mdic := Accepted(value);
        } else if reg == ACCESS_DATA {
          if mmdControl & DATA_MODE != 0 {
            MmdWrite(data);
          } else {
            mmdAddress := data;
          }
          mdic := Accepted(value);
        }
      } else if IsRead(value) {
        if reg == ACCESS_DATA && mmdControl & DATA_MODE != 0 {
          var stored := MmdRead();
          mdic := Answer(value, stored);
        } else if reg == 0x1e {
          mdic := Answer(value, PHY_ID);
        }
      }
    }

    /** `i226_mmio_read`; `core` and `after` are the word and the counts the core answers with. */
    method MmioRead(reg: Reg, core: nat, after: Stats) returns (value: nat)
      requires Valid()
      modifies this`rpthc, this`hgptc, this`stats
      ensures Valid()
      ensures Abstract() == Step(old(Abstract()), ReadEvent(reg))
      ensures reg == Rpthc ==> value == old(rpthc)
      ensures reg == Hgptc ==> value == old(hgptc)
      ensures reg == Zero ==> value == 0
      ensures reg == Mdic || reg == Own || reg == Control || reg == Other ==> value == core
      ensures rpthc == (if reg == Rpthc then 0 else old(rpthc)) && hgptc == if reg == Hgptc then 0 else old(hgptc)
      ensures stats == if reg == Rpthc || reg == Hgptc || reg == Zero then old(stats) else after
    {
      match reg {
        case Rpthc =>
          value := rpthc;
          rpthc := 0;
        case Hgptc =>
          value := hgptc;
          hgptc := 0;
        case Zero =>
          value := 0;
        case _ =>
          stats := after;
          value := core;
      }
    }

    /** `i226_mmio_write`; `backend` and `after` are what the core leaves in MDIC and in its counts. */
    method MmioWrite(reg: Reg, value: bv32, backend: bv32, after: Stats)
      requires Valid()
      modifies this, mmd
      ensures Valid()
      ensures Abstract() == Step(old(Abstract()), WriteEvent(reg, value, old(stats), after))
      ensures stats == if reg == Own then old(stats) else after
      ensures rpthc == old(rpthc) && (reg != Mdic ==> Table() == old(Table()))
      ensures var counted := after.gptc - old(stats).gptc;
        if reg == Mdic || reg == Own || reg == Control || counted < 0 then hgptc == old(hgptc)
        else if old(hgptc) + counted <= 0xFFFF_FFFF then hgptc == old(hgptc) + counted
        else hgptc == 0xFFFF_FFFF
    {
      hide MdicStep, MdicResult;
      match reg {
        case Mdic =>
          MdicWrite(value, backend);
          stats := after;
        case Own =>
        case Control =>
          stats := after;
        case _ =>
          var before := stats.gptc;
          stats := after;
          if stats.gptc >= before {
            hgptc := AddHostPackets(hgptc, stats.gptc - before);
          }
      }
    }

    /** `i226_receive` and `i226_receive_iov`; `after` is what the core leaves in its counts. */
    method Receive(after: Stats)
      requires Valid()
      modifies this`stats, this`rpthc
      ensures Valid() && stats == after
      ensures Abstract() == Step(old(Abstract()), Received(old(stats), after))
      ensures var counted := after.gprc - old(stats).gprc;
        if counted < 0 then rpthc == old(rpthc)
        else if old(rpthc) + counted <= 0xFFFF_FFFF then rpthc == old(rpthc) + counted
        else rpthc == 0xFFFF_FFFF
    {
      var before := stats.gprc;
      stats := after;
      if stats.gprc >= before {
        rpthc := AddHostPackets(rpthc, stats.gprc - before);
      }
    }

    /** `i226_reset_hold`, as far as the table and the counters are concerned. */
    method ResetHold(after: Stats)
      requires Valid()
      modifies this, mmd
      ensures Valid() && stats == after && Abstract() == Step(old(Abstract()), Reset)
      ensures rpthc == 0 && hgptc == 0 && mmdControl == 0 && mmdAddress == 0 && mmdCount == 0
    {
      stats := after;
      rpthc, hgptc := 0, 0;
      mmdControl, mmdAddress, mmdCount := 0, 0, 0;
      for i := 0 to mmd.Length
        modifies mmd
      {
        mmd[i] := Entry((0, 0), 0);
      }
    }
  }

  method AddHostPackets(counter: nat, delta: nat) returns (r: nat)
    requires counter <= U32_MAX
    ensures r == Added(counter, delta) && r <= U32_MAX
  {
    if U32_MAX - counter < delta {
      r := U32_MAX;
    } else {
      r := counter + delta;
    }
  }

  lemma {:induction false} FindIs(entries: seq<Entry>, key: Key, i: nat)
    requires i <= |entries| && (forall k :: 0 <= k < i ==> entries[k].key != key)
    requires i < |entries| ==> entries[i].key == key
    ensures Find(entries, key) == i
    decreases i
  {
    if i > 0 {
      FindIs(entries[1..], key, i - 1);
    }
  }

  lemma WriteOrRead(value: bv32)
    ensures IsWrite(value) ==> !IsRead(value)
  {
  }

  /** Storing updates the first entry with the key, appends if there is none, and drops the value when full. */
  lemma StoreIs(entries: seq<Entry>, key: Key, value: bv16, i: nat)
    requires i <= |entries| && (forall k :: 0 <= k < i ==> entries[k].key != key)
    requires i < |entries| ==> entries[i].key == key
    ensures Store(entries, key, value) == if i < |entries| then entries[i := Entry(key, value)]
                                          else if |entries| < SLOTS then entries + [Entry(key, value)] else entries
  {
    FindIs(entries, key, i);
  }
}

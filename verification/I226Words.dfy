/** The words of the I226-V's MDIC register, bit by bit (IEEE 802.3 Clause 22, registers 13, 14 and 30). */
module I226Words {
  import opened I226Device

  /** The words agree in the bits of the mask. */
  predicate Agree(a: bv32, b: bv32, mask: bv32) {
    a & mask == b & mask
  }

  /** The bits 26 and 27 of an access, and the finished flag 28. */
  predicate Writing(value: bv32) {
    (value >> 26) & 1 == 1
  }

  predicate Reading(value: bv32) {
    (value >> 27) & 1 == 1
  }

  predicate Done(value: bv32) {
    (value >> 28) & 1 == 1
  }

  function Register(value: bv32): bv32 {
    (value >> 16) & 31
  }

  function Phy(value: bv32): bv32 {
    (value >> 21) & 31
  }

  function Low(value: bv32): bv16 {
    (value & 0xFFFF) as bv16
  }

  /** The access word with a finished flag, and with the error flag 30 where it failed; all other bits stay. */
  predicate Finishes(word: bv32, value: bv32, failed: bool) {
    Done(word) && Agree(word, value, 0xAFFF_FFFF)
      && (if failed then (word >> 30) & 1 == 1 else Agree(word, value, 0x4000_0000))
  }

  /** The access word with these data and a finished flag. */
  predicate Carries(word: bv32, value: bv32, data: bv16) {
    Done(word) && Low(word) == data && Agree(word, value, 0xEFFF_0000)
  }

  /** The core's word, with the PHY address of the access in bits 21 to 25. */
  predicate PassesOn(word: bv32, backend: bv32, value: bv32) {
    Agree(word, backend, 0xFC1F_FFFF) && Phy(word) == Phy(value)
  }

  /** The value stored for the current pair, or zero if there is none. */
  predicate Stored(m: Mmd, data: bv16) {
    var device := m.control & 0x1f;
    || (exists i :: 0 <= i < |m.entries| && FirstFor(m.entries, i, device, m.address) && m.entries[i].value == data)
    || (data == 0 && forall i :: 0 <= i < |m.entries| ==> m.entries[i].key != (device, m.address))
  }

  predicate FirstFor(entries: seq<Entry>, i: nat, device: bv16, address: bv16)
    requires i < |entries|
  {
    entries[i].key == (device, address) && forall k :: 0 <= k < i ==> entries[k].key != (device, address)
  }

  /** What MDIC holds after an access. */
  ghost predicate WordSays(m: Mmd, value: bv32, backend: bv32, word: bv32) {
    if Phy(value) != 0 then Finishes(word, value, true)
    else if Writing(value) then
      if Register(value) == 13 || Register(value) == 14 then Finishes(word, value, false)
      else PassesOn(word, backend, value)
    else if Reading(value) && Register(value) == 14 && m.control & 0x4000 != 0 then
      exists data :: Stored(m, data) && Carries(word, value, data)
    else if Reading(value) && Register(value) == 30 then Carries(word, value, 0x888d)
    else PassesOn(word, backend, value)
  }

  lemma RegisterMeans(value: bv32)
    ensures RegOf(value) == Register(value)
  {
  }

  lemma PhyMeans(value: bv32)
    ensures PhyOf(value) == Phy(value)
  {
  }

  lemma DataMeans(value: bv32)
    ensures DataOf(value) == Low(value)
  {
  }

  lemma OperationMeans(value: bv32)
    ensures IsWrite(value) == Writing(value) && IsRead(value) == (Reading(value) && !Writing(value))
  {
  }

  lemma AcceptedIsDone(value: bv32)
    ensures Done(Accepted(value))
  {
  }

  lemma AcceptedKeeps(value: bv32)
    ensures Agree(Accepted(value), value, 0xAFFF_FFFF)
  {
  }

  lemma AcceptedKeepsError(value: bv32)
    ensures Agree(Accepted(value), value, 0x4000_0000)
  {
  }

  lemma AcceptedMeans(value: bv32)
    ensures Finishes(Accepted(value), value, false)
  {
    hide Accepted, Agree, Done;
    AcceptedIsDone(value);
    AcceptedKeeps(value);
    AcceptedKeepsError(value);
  }

  lemma RefusedMeans(value: bv32)
    ensures Finishes(Refused(value), value, true)
  {
  }

  lemma AnswerIsDone(value: bv32, data: bv16)
    ensures Done(Answer(value, data))
  {
  }

  lemma AnswerHasData(value: bv32, data: bv16)
    ensures Low(Answer(value, data)) == data
  {
  }

  lemma AnswerKeeps(value: bv32, data: bv16)
    ensures Agree(Answer(value, data), value, 0xEFFF_0000)
  {
  }

  lemma AnswerMeans(value: bv32, data: bv16)
    ensures Carries(Answer(value, data), value, data)
  {
    hide Answer, Agree, Done, Low;
    AnswerIsDone(value, data);
    AnswerHasData(value, data);
    AnswerKeeps(value, data);
  }

  lemma FromCoreMeans(backend: bv32, value: bv32)
    ensures PassesOn(FromCore(backend, value), backend, value)
  {
  }

  lemma LookupMeans(m: Mmd)
    ensures Stored(m, Lookup(m.entries, CurrentKey(m)))
  {
    var i := Find(m.entries, CurrentKey(m));
    if i < |m.entries| {
      assert FirstFor(m.entries, i, m.control & 0x1f, m.address);
    }
  }

  /** The word an access leaves, by its bits. */
  lemma WordMeans(m: Mmd, value: bv32, backend: bv32)
    ensures WordSays(m, value, backend, MdicResult(m, value, backend))
  {
    hide RegOf, PhyOf, IsWrite, IsRead, Accepted, Refused, Answer, FromCore, Finishes, Carries, PassesOn, Stored,
      Writing, Reading, Register, Phy, Lookup;
    RegisterMeans(value);
    PhyMeans(value);
    OperationMeans(value);
    AcceptedMeans(value);
    RefusedMeans(value);
    AnswerMeans(value, PHY_ID);
    AnswerMeans(value, Lookup(m.entries, CurrentKey(m)));
    FromCoreMeans(backend, value);
    LookupMeans(m);
  }

  /** The state an access leaves: only writes to PHY 0 count, and only those to registers 13 and 14. */
  lemma StateMeans(m: Mmd, value: bv32)
    ensures var n := MdicStep(m, value); var own := Phy(value) == 0 && Writing(value);
      && n.control == (if own && Register(value) == 13 then Low(value) else m.control)
      && n.address == (if own && Register(value) == 14 && m.control & 0x4000 == 0 then Low(value) else m.address)
      && n.entries == (if own && Register(value) == 14 && m.control & 0x4000 != 0
                       then Store(m.entries, (m.control & 0x1f, m.address), Low(value)) else m.entries)
  {
    hide RegOf, PhyOf, DataOf, IsWrite, Writing, Register, Phy, Low, Store;
    RegisterMeans(value);
    PhyMeans(value);
    DataMeans(value);
    OperationMeans(value);
  }
}

/** Which profiles `build_smbios_stream` takes, in plain numbers and characters. */
module ProfileMeanings {
  import opened Bytes
  import opened Sequences
  import opened DimmLayout
  import opened MemoryTables
  import opened TableRules
  import opened RuleMeanings
  import opened ProfileStream
  import opened StreamSoundness
  import opened StreamBuilding

  predicate IsByte(v: int) { 0 <= v <= 255 }
  predicate IsWord(v: int) { 0 <= v <= 65535 }

  /** Blanks to tildes, and at least one of them. */
  predicate IsText(s: string) {
    s != "" && AreCharacters(s)
  }

  predicate AreCharacters(s: string) {
    forall i :: 0 <= i < |s| ==> 32 <= s[i] as int <= 126
  }

  predicate AreTexts(texts: seq<string>) {
    forall i :: 0 <= i < |texts| ==> IsText(texts[i])
  }

  /** Counts of a real topology, with flags for several cores and for several threads a core. */
  predicate TopologyFits(cpu: Cpu) {
    && 1 <= cpu.sockets <= 256 && 1 <= cpu.cores <= cpu.threads <= 65534 && cpu.enabled == cpu.cores
    && cpu.threads % cpu.cores == 0
    && cpu.characteristics == (if cpu.cores == 1 then if cpu.threads == 1 then 4 else 20
                               else if cpu.threads == cpu.cores then 12 else 28)
  }

  /** The voltage is 0.5 to 2 volts in tenths behind the flag of the newer encoding. */
  predicate CpuFits(cpu: Cpu) {
    && TopologyFits(cpu) && 10 <= cpu.clockMhz <= 400 && 0x85 <= cpu.voltage <= 0x94
    && 1 <= cpu.maxMhz <= 65535 && 1 <= cpu.currentMhz <= 65535 && cpu.signature == 0 && cpu.features == 0
    && IsByte(cpu.family) && IsByte(cpu.upgrade) && IsWord(cpu.family2) && AreCharacters(cpu.socket)
    && IsText(cpu.vendor) && IsText(cpu.version) && IsText(cpu.serial) && IsText(cpu.part)
  }

  predicate FixedFit(p: Profile) {
    && IsByte(p.platform.biosMajor) && IsByte(p.platform.biosMinor) && IsByte(p.platform.chassisType)
    && IsText(p.biosVendor) && IsText(p.biosVersion) && IsText(p.biosDate)
    && IsText(p.vendor) && IsText(p.productName) && IsText(p.productVersion) && IsText(p.systemSerial)
    && IsText(p.productSku) && IsText(p.productFamily)
    && IsText(p.platform.boardVendor) && IsText(p.boardName) && IsText(p.boardVersion) && IsText(p.boardSerial)
    && IsText(p.identity.boardAsset) && IsText(p.platform.chassisVendor) && IsText(p.chassisVersion)
    && IsText(p.chassisSerial) && IsText(p.identity.chassisAsset) && IsText(p.identity.chassisSku)
    && IsText(p.identity.cpuAsset)
  }

  /** Modules of whole 4 GiB, at most one a slot, 4 to 512 GiB in all and within the platform's maximum. */
  predicate ModulesFit(m: MemoryProfile) {
    && 1 <= |m.sizes| <= m.limits.slots <= 16
    && (forall i :: 0 <= i < |m.sizes| ==> m.sizes[i] >= 4096 && m.sizes[i] % 4096 == 0)
    && Sum(m.sizes) <= 512 * 1024 && Sum(m.sizes) * 0x10_0000 <= m.limits.maximumBytes
    && m.limits.maximumBytes <= 0xFFFF_FFFF_FFFF_FFFF && m.limits.maximumBytes % 1024 == 0
  }

  predicate MemoryFits(m: MemoryProfile) {
    && ModulesFit(m) && |m.templates| == m.limits.slots
    && (forall i :: 0 <= i < |m.templates| ==>
          IsText(m.templates[i].deviceLocator) && AreCharacters(m.templates[i].bankLocator)
          && IsByte(m.templates[i].formFactor))
    && |m.parts| == |m.serials| == |m.assets| == |m.sizes|
    && AreTexts(m.parts) && AreTexts(m.serials) && AreTexts(m.assets) && IsText(m.vendor)
    && IsByte(m.limits.location) && IsByte(m.limits.use) && IsByte(m.limits.errorCorrection) && IsByte(m.typeCode)
    && IsWord(m.speed) && m.ratedSpeed == m.speed
    && 800 <= m.minVoltage <= 2000 && 800 <= m.maxVoltage <= 2000 && 800 <= m.configuredVoltage <= 2000
  }

  /** String numbers of a copy exist, and what the final rules fix is so. */
  predicate ConnectorFits(c: Copied) {
    |c.body| == 5 && AreTexts(c.strings) && c.body[0] as int <= |c.strings| && c.body[2] as int <= |c.strings|
  }

  predicate SlotFits(c: Copied) {
    |c.body| >= 13 && AreTexts(c.strings) && c.body[0] as int <= |c.strings|
  }

  predicate ExtraFits(c: Copied) {
    || c.kind == 26 || c.kind == 28 || c.kind == 29
    || (c.kind == 12 && |c.body| == 1 && AreTexts(c.strings) && c.body[0] as int == |c.strings|)
    || (c.kind == 13 && |c.body| == 18 && AreTexts(c.strings) && c.body[0] as int == |c.strings| && c.body[1] <= 1
        && (forall k :: 2 <= k < 17 ==> c.body[k] == 0) && c.body[17] as int <= |c.strings|)
  }

  /** As many copies as there are handles for them. */
  predicate CopiesFit(p: Profile) {
    && (forall i :: 0 <= i < |p.connectors| ==> ConnectorFits(p.connectors[i]))
    && (forall i :: 0 <= i < |p.slots| ==> SlotFits(p.slots[i]))
    && (forall i :: 0 <= i < |p.supplemental| ==> ExtraFits(p.supplemental[i]))
    && |p.connectors| <= (if p.slots != [] then 256 else if p.oemStrings != [] then 768 else 2048)
    && |p.slots| <= (if p.oemStrings != [] then 512 else 1792)
    && forall i :: 52991 <= i < |p.supplemental| ==> p.supplemental[i].kind in {26, 28, 29}
  }

  predicate BatteryInRange(b: Battery) {
    && 0 <= b.capacity <= 255 * 65535 && IsWord(b.voltage) && IsWord(b.serialNumber) && IsWord(b.dateNumber)
    && IsText(b.manufacturer) && IsText(b.date) && IsText(b.serial) && IsText(b.model) && IsText(b.chemistry)
  }

  predicate Fits(p: Profile) {
    && p.policyOk && FixedFit(p) && CpuFits(p.cpu) && CopiesFit(p) && MemoryFits(p.memory)
    && |p.oemStrings| <= 255 && AreTexts(p.oemStrings) && (p.battery.Some? ==> BatteryInRange(p.battery.value))
  }

  // ----- the parts one by one -----

  lemma TextMeans(s: string)
    ensures PrintableText(s) <==> IsText(s)
    ensures PrintableChars(s) <==> AreCharacters(s)
  {
  }

  lemma TextsMean(texts: seq<string>)
    ensures AllPrintable(texts) <==> AreTexts(texts)
  {
    hide PrintableText, IsText;
    forall i | 0 <= i < |texts|
      ensures PrintableText(texts[i]) <==> IsText(texts[i])
    {
      TextMeans(texts[i]);
    }
  }

  lemma TopologyMeans(cpu: Cpu)
    ensures CountOk(cpu.sockets) && CountOk(cpu.cores) && CountOk(cpu.enabled) && CountOk(cpu.threads)
            && cpu.sockets <= 256 && cpu.enabled == cpu.cores && cpu.threads >= cpu.enabled
            && cpu.threads % cpu.cores == 0
            && cpu.characteristics == Characteristics(cpu)
       <==> TopologyFits(cpu)
  {
  }

  lemma VoltageMeans(v: int)
    ensures FitsByte(v) && v / 0x80 % 2 == 1 && 5 <= v % 0x80 <= 20 <==> 0x85 <= v <= 0x94
  {
  }

  lemma Texts3(a: string, b: string, c: string)
    ensures AllPrintable([a, b, c]) <==> IsText(a) && IsText(b) && IsText(c)
  {
    hide IsText;
    var texts := [a, b, c];
    TextsMean(texts);
    assert AreTexts(texts) ==> IsText(texts[0]) && IsText(texts[1]) && IsText(texts[2]);
  }

  lemma Texts5(a: string, b: string, c: string, d: string, e: string)
    ensures AllPrintable([a, b, c, d, e]) <==> IsText(a) && IsText(b) && IsText(c) && IsText(d) && IsText(e)
  {
    hide IsText;
    var texts := [a, b, c, d, e];
    TextsMean(texts);
    assert AreTexts(texts)
           ==> IsText(texts[0]) && IsText(texts[1]) && IsText(texts[2]) && IsText(texts[3]) && IsText(texts[4]);
  }

  lemma Texts6(a: string, b: string, c: string, d: string, e: string, f: string)
    ensures AllPrintable([a, b, c, d, e, f])
       <==> IsText(a) && IsText(b) && IsText(c) && IsText(d) && IsText(e) && IsText(f)
  {
    hide IsText;
    var texts := [a, b, c, d, e, f];
    TextsMean(texts);
    assert AreTexts(texts) ==> IsText(texts[0]) && IsText(texts[1]) && IsText(texts[2]) && IsText(texts[3])
                               && IsText(texts[4]) && IsText(texts[5]);
  }

  lemma FixedAndCpu(p: Profile)
    ensures ProfileValid(p) && WfFixed(p) && WfCpu(p)
       <==> p.policyOk && FixedFit(p) && CpuFits(p.cpu) && Electrical(p.memory)
  {
    hide AllPrintable, IsText, AreCharacters, PrintableChars, TopologyFits, CountOk, Characteristics, VoltageOk;
    Texts3(p.biosVendor, p.biosVersion, p.biosDate);
    Texts6(p.vendor, p.productName, p.productVersion, p.systemSerial, p.productSku, p.productFamily);
    Texts5(p.platform.boardVendor, p.boardName, p.boardVersion, p.boardSerial, p.identity.boardAsset);
    Texts5(p.platform.chassisVendor, p.chassisVersion, p.chassisSerial, p.identity.chassisAsset, p.identity.chassisSku);
    Texts5(p.cpu.vendor, p.cpu.version, p.cpu.serial, p.identity.cpuAsset, p.cpu.part);
    TextMeans(p.cpu.socket);
    TopologyMeans(p.cpu);
    VoltageMeans(p.cpu.voltage);
  }

  lemma {:induction false} WholeSteps(sizes: seq<int>)
    requires forall i :: 0 <= i < |sizes| ==> sizes[i] >= 4096 && sizes[i] % 4096 == 0
    ensures Sum(sizes) % 4096 == 0 && Sum(sizes) >= 0 && (sizes != [] ==> Sum(sizes) >= 4096)
  {
    if sizes != [] {
      WholeSteps(sizes[1..]);
    }
  }

  lemma ModulesMean(m: MemoryProfile)
    ensures ValidateArray(m.sizes, m.limits).Ok? && Q35Ranges(Sum(m.sizes) * MIB).Ok? <==> ModulesFit(m)
  {
    hide Sum;
    if forall i :: 0 <= i < |m.sizes| ==> m.sizes[i] >= 4096 && m.sizes[i] % 4096 == 0 {
      WholeSteps(m.sizes);
      var q := Sum(m.sizes) / 4096;
      assert Sum(m.sizes) * MIB == 4 * GIB * q;
    }
  }

  lemma MemoryProfileMeans(m: MemoryProfile)
    ensures WfMemory(m) && Electrical(m) <==> MemoryFits(m)
  {
    hide ValidateArray, Q35Ranges, ModulesFit, AllPrintable, AreTexts, IsText, AreCharacters, PrintableText,
      PrintableChars, Sum;
    ModulesMean(m);
    TextsMean(m.parts);
    TextsMean(m.serials);
    TextsMean(m.assets);
    TextMeans(m.vendor);
    forall i | 0 <= i < |m.templates|
      ensures PrintableText(m.templates[i].deviceLocator) <==> IsText(m.templates[i].deviceLocator)
      ensures PrintableChars(m.templates[i].bankLocator) <==> AreCharacters(m.templates[i].bankLocator)
    {
      TextMeans(m.templates[i].deviceLocator);
      TextMeans(m.templates[i].bankLocator);
    }
  }

  lemma CopyFits(c: Copied)
    ensures (WfConnector(c) <==> ConnectorFits(c)) && (WfSlot(c) <==> SlotFits(c))
    ensures (WfSupplemental(c) <==> ExtraFits(c))
  {
    hide AllPrintable, AreTexts, BitAnd;
    TextsMean(c.strings);
    if |c.body| == 18 {
      LanguageFlags(c.body[1]);
    }
  }

  lemma CopiesMean(p: Profile)
    ensures CopiesOk(p) && HandlesFit(p) <==> CopiesFit(p)
  {
    hide WfConnector, WfSlot, WfSupplemental, ConnectorFits, SlotFits, ExtraFits;
    forall i | 0 <= i < |p.connectors|
      ensures WfConnector(p.connectors[i]) <==> ConnectorFits(p.connectors[i])
    {
      CopyFits(p.connectors[i]);
    }
    forall i | 0 <= i < |p.slots|
      ensures WfSlot(p.slots[i]) <==> SlotFits(p.slots[i])
    {
      CopyFits(p.slots[i]);
    }
    forall i | 0 <= i < |p.supplemental|
      ensures WfSupplemental(p.supplemental[i]) <==> ExtraFits(p.supplemental[i])
    {
      CopyFits(p.supplemental[i]);
    }
  }

  lemma BatteryMeans(b: Battery)
    ensures WfBattery(b) <==> BatteryInRange(b)
  {
    hide AllPrintable, IsText;
    Texts5(b.manufacturer, b.date, b.serial, b.model, b.chemistry);
  }

  /** The builder returns a stream exactly for the profiles that fit, and refuses every other one. */
  lemma BuildsFor(p: Profile)
    ensures BuildOf(p).Ok? <==> Fits(p)
  {
    hide BuildOf, ProfileValid, WfFixed, WfCpu, CopiesOk, HandlesFit, WfMemory, Electrical, WfBattery, AllPrintable,
      FixedFit, CpuFits, CopiesFit, MemoryFits, BatteryInRange, AreTexts;
    BuildsExactly(p);
    FixedAndCpu(p);
    MemoryProfileMeans(p.memory);
    CopiesMean(p);
    TextsMean(p.oemStrings);
    if p.battery.Some? {
      BatteryMeans(p.battery.value);
    }
    if WellFormed(p) {
      ElectricalIsValid(p);
    }
  }
}

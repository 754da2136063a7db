# Guest identity: a verified model

The repository makes a virtual machine present one coherent hardware identity. One script generates the
identity (`01_generate_identity.py`), one builds it into QEMU (`02_patch_qemu.py`, with C code embedded in
it), one applies it to a libvirt domain (`04_apply_spoof.py`). This project models the parts of those scripts
in which something is searched for, laid out, parsed back, allocated, or kept as state over time, and proves
what they are for. The project is for Dafny 4.11; `dafny verify dfyconfig.toml` covers all of it.

## The parts

* **SMBIOS stream** (DMTF DSP0134 sections 6.1.2, 6.1.3 and 7). `Structures` has the two
  printers and a reference reading; `Walkers` and `Loader` the four separately written readers; `RoundTrip`
  the inverse laws; `Finalizer` the run-time pass over the Type 4 records and the checker's own patch;
  `TableRules` the final rules and `RuleMeanings` what they say of each type; `ProfileStream`, `StreamSoundness`
  and `StreamBuilding` the builder and for which profiles it succeeds, which `ProfileMeanings` tells in plain
  numbers; `StreamContents`, `MemoryContents` and `BuiltContents` what a reader finds in a built stream, field by
  field; `GuestStream` what becomes of it, up to the bytes a guest may hold; `HostText` and `HostTables` the
  structures copied from the host.
* **Memory.** `DimmLayout` is the dynamic program that chooses DIMMs and its optimality; `MemorySlots` what
  follows it; `MemoryMap` the overlay of DIMMs on address ranges; `MemoryTables` and `MemoryConservation` the
  records and what they decode back to.
* **Root ports.** `RootPorts` is the greedy assignment of host ports; `RootPortPreference` which host a guest
  prefers and that none is passed over; `RootPortCapacity` says when the assignment succeeds and when any exists;
  `DomainDevices` has the device passes of both scripts over a domain; `PortRoles` what a listed port means in terms
  of the devices behind it; `FinalDevices` what the applier leaves and when it succeeds; `RootPortPruning` sets the
  two scripts against each other; `DevicesTwice` runs the device passes again.
* **CPUs and command line.** `CpuSets`, `CpuPinning`, `CommandLine`; `CpuMeanings` tells sets and bindings from the
  texts of the domain.
* **Network.** `MacAddresses`, `Network` (the generator, for every random choice), `NetworkCheck` (the independent
  validator and why it accepts) and `NetworkAccepted` (what it accepts, in octets and numbers).
* **Devices built into QEMU.** `I226Device` and `I226Runs` are the register front end of the network card and
  its histories, `I226Words` its words bit by bit; `HdaGraph` and `HdaSoundness` the codec graph, `HdaLayout` its
  nodes one by one.
* `Outcomes`, `Sequences`, `Sets`, `Sorting`, `Bytes`, `Text` are shared groundwork.

Loops and in-place updates of the source are methods and classes here. Each is proved against a function of
its inputs or of the old state, and the lemmas are about that function; for the main operations a law also says the
result in plain numbers, bytes and texts. Random choices are arbitrary values, the `igb_core_*` calls are an oracle
whose effects are parameters, host facts are inputs, and XML elements are records of the attributes that the
modelled code reads.

## Where the code differs from what one might expect

* The C loader refuses a stream with two Type 12 or two Type 13 structures, although the builder copies all
  that the host has: `GuestStream.LoaderTakesStream` gives the exact condition and
  `GuestStream.TwoOptionsAreRefused` a profile that is refused.
* A memory speed above 0xFFFF always fails to pack, although an extended speed field is also written:
  `StreamSoundness.SpeedLimit` and `StreamSoundness.SpeedIsRefused`. The host reader cannot deliver one, since
  it takes speeds from 16-bit fields and refuses 0xFFFF (01_generate_identity.py:1453-1459); only an edited
  identity record can hold it.
* Copying a host structure drops trailing strings that clean to nothing or to "NA" and leaves the numbers in
  its body, so a structure that is in order on the host may no longer build: `HostTables.EncodedExactly` and
  `StreamBuilding.BuildsExactly` give the exact conditions, `HostTables.OptionIsLost` a structure.
* The greedy port assignment can fail when an assignment exists: `RootPortCapacity.SucceedsExactly` says when it
  succeeds, `RootPortCapacity.AssignmentExistsExactly` when an assignment exists, both by counting ports before
  the call. `RootPorts.GreedyIsIncomplete` is a case between the two, and
  `RootPortCapacity.NothingLostWhenWide` tells where there is none.
* The applier's role check refuses some domains with a profile made from the very same domain, for instance with a
  memory balloon behind a root port: `RootPortPruning.ValidationExactly` gives the exact condition and
  `RootPortPruning.BalloonProfileIsRefused` a domain with the profile made for it.
* A pin can get the name of a converter in the codec graph: `HdaSoundness.NamesUniqueExactly` and
  `HdaSoundness.DacPinCollides`.
* Rewriting the command line twice can lose arguments: `CommandLine.FixedPointExactly` and
  `CommandLine.SecondRunLosesArguments`.
* Card MACs are drawn independently, and the validator refuses a repeat: `NetworkCheck.GeneratedNetworkPasses` and
  `NetworkCheck.TwinsAreRefused`.
* Under graphics passthrough the display nodes go after the ports were pruned, so a second run can take out a port
  or bridge that the first one kept: `DevicesTwice.SettlesExactly` and `DevicesTwice.SecondRunTakesPort`.
* A draw of a gateway MAC can go on for ever when a vendor has fewer spare MACs than draws:
  `Network.DrawsEndExactly`; for the generator's own cards it cannot: `NetworkCheck.CardDrawsEnd`.

## Model

| member | source | states |
|---|---|---|
| `Structures.PrintersAgree` | 01_generate_identity.py:531-536 | The two structure printers accept the same calls and lay out the same bytes, strings or none. |
| `Structures.PrinterLaysRecord` | 01_generate_identity.py:172-177 | What the printer emits for usable strings is header, body and string area of one record. |
| `Structures.MadeIsPrinted` | 01_generate_identity.py:172-177 | The record made for a call lays out as the printer's bytes, or fails with the printer's exception. |
| `Structures.LaidIsFound` | 01_generate_identity.py:441-466 | A laid-out record is found again at its offset, whatever stands before and after it. |
| `Structures.SerializedIsCut` | 01_generate_identity.py:441-466 | Cutting a serialised list gives back exactly its records, one cell each. |
| `Structures.ReadIsLaid` | 01_generate_identity.py:172-177 | Laying out what was read from a cell gives the bytes of that cell. |
| `Walkers.ParseTables` | 01_generate_identity.py:441-466 | The offset loop returns the parsed tables, or raises, as the recursive reading says; it visits the cells of the reference cut in order, all of them when it returns. |
| `Walkers.ValidateStream` | 01_generate_identity.py:239-263 | The memory-part walker accepts exactly a terminated stream whose memory structures are the expected ones; it visits the cells of the reference cut in order, all of them when it accepts. |
| `Walkers.IterSmbiosStructures` | 01_generate_identity.py:1330-1349 | What the generator yields, with its strings cleaned, before it returns or raises; one yield for each cell visited, which on an accepted stream are those of the reference cut. |
| `Walkers.ScanDoubleNul` | 01_generate_identity.py:1340-1344 | The byte-by-byte scan stops at the first double NUL, or runs off the end when there is none. |
| `Walkers.IterAgrees` | 01_generate_identity.py:1330-1349 | On an accepted stream the generator yields the tables the parser returns, with their strings cleaned, and returns. |
| `RoundTrip.PrintThenParse` | 01_generate_identity.py:441-466 | Parsing recovers every list of records with distinct handles below 0xFF00, nonempty printable strings and one final Type 127. |
| `RoundTrip.ParseThenPrint` | 01_generate_identity.py:441-466 | Re-serialising whatever the parser accepts gives the identical bytes. |
| `RoundTrip.AcceptedStreams` | 01_generate_identity.py:441-466 | The accepted streams are exactly the printings of well-formed lists. |
| `RoundTrip.AcceptsProper` | 01_generate_identity.py:441-466 | The same in plain terms: bodies of at most 251 bytes, distinct handles below 0xFF00, strings of blanks to tildes, and exactly the last structure of Type 127 with its own handle and nothing in it. |
| `RoundTrip.PrintingIsInjective` | 01_generate_identity.py:172-177 | Two well-formed lists that print alike are the same list. |
| `Loader.SmbiosLoadFullFile` | 02_patch_qemu.py:2749-2854 | The C loader's loop over the file: its counters, or refusal; it visits the cells of the reference cut in order, all of them when it succeeds. |
| `Loader.ReadersAgree` | 02_patch_qemu.py:2749-2854 | On every stream the parser accepts, its tables are those of the reference cut, the generator yields them cleaned, the memory walker collects the memory structures among them, and the loader takes the stream exactly when its type rules hold, with their counters. |
| `Loader.TallyMeaning` | 02_patch_qemu.py:2749-2854 | The published count, Type 4 count, type bitmap and maximum size are those of the parsed tables. |
| `Loader.LoadableMeaning` | 02_patch_qemu.py:2729-2747 | The loader's step-by-step test means: types in range, and only repeatable types occur twice. |
| `Loader.LoadsExactly` | 02_patch_qemu.py:2729-2854 | A parsed stream is loaded exactly when it holds Types 0 to 4, 16, 17, 19, 20, 32 and 127, none above 127, and twice only Types 4, 7, 8, 9, 17, 19, 20, 22 and 41; the counters are the number of structures, of processors, and the largest size. |
| `Finalizer.FinalizeCpuid` | 02_patch_qemu.py:2860-2907 | The C pass over the table buffer: success and the bytes left behind; EAX of zero is refused untouched. |
| `Finalizer.PatchTemplate` | 01_generate_identity.py:423-438 | The checker's patch of its template in place, with its exceptions. |
| `Finalizer.FinalizeRecords` | 02_patch_qemu.py:2860-2907 | The pass over a serialised list succeeds exactly when every Type 4 record is long enough and holds the placeholder, and leaves the list with the IDs written. |
| `Finalizer.PatchTemplateRecords` | 01_generate_identity.py:423-438 | The checker's patch of the same list gives the same bytes. |
| `Finalizer.PatchedBody` | 02_patch_qemu.py:2885-2900 | A patched record keeps its length, its layout and every byte outside the Processor ID. |
| `Finalizer.PassWrites` | 02_patch_qemu.py:2860-2907 | A successful pass found eight zero bytes in every processor; afterwards the little-endian words at 8 and 12 are EAX and EDX, and every other byte and structure is as it was. |
| `Finalizer.SecondPassRefused` | 02_patch_qemu.py:2860-2907 | After a nonzero EAX was written, no later pass with any registers succeeds. |
| `TableRules.SameRules` | 01_generate_identity.py:469-523 | Table lists that differ only in Processor IDs meet the final rules together. |
| `RuleMeanings.RulesMean` | 01_generate_identity.py:469-523 | A list is accepted exactly when each structure meets the written-out rule of its type (length, string numbers, references, fixed fields) and the types have the counts of the profile; no other type is let through. |
| `ProfileStream.BuildSmbiosStream` | 01_generate_identity.py:562-656 | The builder's appends, structure by structure, and both final validations. |
| `BuiltContents.StreamReads` | 01_generate_identity.py:562-656 | For every profile that builds, the parsed stream is Types 0 to 3, a processor for each socket, the copied connectors, slots, OEM strings and supplemental structures, the memory, the battery if any, and Types 32 and 127, in this order, each with the handle and contents the profile gives it. |
| `BuiltContents.FixedAreSingle` | 01_generate_identity.py:566-584 | The parsed structures of Types 0 to 3 are single and stand first, with the fields and strings of the profile. |
| `StreamContents.SystemReads` | 01_generate_identity.py:576-577 | The Type 1 structure: the word at 8 is the big-endian number of the first four UUID bytes, the halfwords at 12 and 14 those of the next pairs, the rest as it is; each string number leads to its string. |
| `StreamContents.UuidReads` | 01_generate_identity.py:526-528 | On the wire the first four, next two and next two bytes of a UUID are little-endian, the rest as it is. |
| `StreamContents.BiosReads` | 01_generate_identity.py:567-574 | The Type 0 structure: vendor, version and date, the size of the firmware, the release and the fixed fields. |
| `StreamContents.BoardReads` | 01_generate_identity.py:579-580 | The Type 2 structure: its six strings, and the chassis it refers to. |
| `StreamContents.ChassisReads` | 01_generate_identity.py:582-584 | The Type 3 structure: its five strings, its type and its states. |
| `StreamContents.CpuReads` | 01_generate_identity.py:586-600 | The Type 4 structure of a socket: strings, speeds with the current one capped, family, counts in both widths, no caches, a zero Processor ID. |
| `StreamContents.BatteryReads` | 01_generate_identity.py:634-647 | The Type 22 structure: the capacity in the smallest unit with which it fits 16 bits, and all other fields and strings. |
| `MemoryContents.DeviceReads` | 01_generate_identity.py:180-236 | The Type 17 structure of a slot: size by either field, locators, module strings, speeds, each voltage in its place, the manufacturer code by name; an empty slot says unknown throughout. |
| `StreamSoundness.SmallestIsWellFormed` | 01_generate_identity.py:385-420 | Well-formed profiles exist: one socket, one module, nothing copied from the host. |
| `StreamSoundness.SpeedLimit` | 01_generate_identity.py:180-236 | With everything else in order, the memory structures pack exactly when the rated speed is at most 0xFFFF. |
| `StreamSoundness.SpeedIsRefused` | 01_generate_identity.py:180-236 | Memory in order but for a speed of 0x10000 cannot be packed. |
| `StreamSoundness.SlotGood` | 01_generate_identity.py:318-326 | A blanked Type 9 record meets the rules and gets the next handle of its range. |
| `StreamSoundness.CpuGood` | 01_generate_identity.py:562-656 | Each Type 4 record meets the rules, refers to no cache, and carries a zero Processor ID. |
| `StreamSoundness.StreamRuled` | 01_generate_identity.py:469-523 | In a finished stream every rule holds: lengths, string numbers, counts, and every reference to the right type. |
| `StreamBuilding.StreamIsSound` | 01_generate_identity.py:562-656 | The records of a well-formed profile have distinct handles, meet every rule, and hold exactly the memory structures of the profile. |
| `StreamBuilding.BuildSucceeds` | 01_generate_identity.py:562-656 | Building succeeds on every well-formed profile: nothing fails to pack and both final validations pass. |
| `GuestStream.LoaderTakesStream` | 02_patch_qemu.py:2749-2854 | The C loader takes a built stream exactly when it has at most one Type 12 and one Type 13, and then publishes the record and socket counts. |
| `GuestStream.TwoOptionsAreRefused` | 02_patch_qemu.py:2749-2854 | A well-formed profile with two Type 12 structures: its stream is built, and the loader refuses it. |
| `HostText.CleanTwice` | 01_generate_identity.py:948-951 | Cleaned text is printable, keeps the words of the kept characters, and is not changed by cleaning again. |
| `HostText.CleanIsEmpty` | 01_generate_identity.py:948-951 | Nothing is left exactly of text without a kept character other than blanks. |
| `HostText.CleanMeans` | 01_generate_identity.py:948-951 | Cleaned text is the words of the printable characters other than quote, backslash and bar, in their order, with one blank between words. |
| `HostTables.EncodeHostSmbiosTable` | 01_generate_identity.py:987-1001 | The two loops label the strings and drop trailing ones that say nothing; a structure without a header is refused. |
| `HostTables.CopyMeans` | 01_generate_identity.py:987-1001 | A copy holds the body and the cleaned strings, "NA" for empty ones, up to the last that says something. |
| `HostTables.EncodedExactly` | 01_generate_identity.py:987-1001 | A copied Type 8, 9, 12 or 13 structure is in order exactly when the host's is with its strings only up to the last named one. |
| `HostTables.NamedLastIsKept` | 01_generate_identity.py:987-1001 | A structure in order on the host stays so when its last string is named. |
| `StreamBuilding.SerializeInjective` | 01_generate_identity.py:172-177 | Serialised bytes determine the records behind them, well-formed or not. |
| `StreamBuilding.BuiltIsRuled` | 01_generate_identity.py:562-656 | Whenever a stream is built, its records have distinct handles and meet every rule. |
| `StreamBuilding.BuildsExactly` | 01_generate_identity.py:562-656 | For every profile, the stream is built exactly when the profile is valid, its fixed, CPU, OEM, memory and battery fields fit and print, its copies are in order, and the counted handles stop short of the next one taken. |
| `ProfileMeanings.BuildsFor` | 01_generate_identity.py:385-420 | The builder returns a stream exactly for the profiles whose topology, speeds, voltages, modules, texts and copies are within limits given as plain numbers and characters. |
| `HostTables.OptionIsLost` | 01_generate_identity.py:996-997 | A Type 12 structure in order on the host whose copy makes the build fail. |
| `GuestStream.ValidateGuestStream` | 01_generate_identity.py:423-438 | The guest check decides by building the template, patching it and comparing. |
| `GuestStream.CheckMeans` | 01_generate_identity.py:423-438 | The guest check accepts exactly the bytes that the run-time pass makes of the built stream, for registers of 32 bits with EAX not zero. |
| `GuestStream.FinalStreamIsTheAcceptedOne` | 02_patch_qemu.py:2860-2907 | For nonzero EAX and any EDX the C pass over a built stream yields the one byte string the guest check accepts, and cannot be run again. |
| `GuestStream.StreamConservesMemory` | 01_generate_identity.py:180-236 | Read from any built stream, Type 17 sizes, Type 19 lengths and Type 20 lengths each total the guest memory, and the array record decodes to its limits. |
| `DimmLayout.VendorStates` | 01_generate_identity.py:102-115 | The dynamic program: every state is a real build of its key, and every build within the target is matched by a state at least as good. |
| `DimmLayout.LeastLayout` | 01_generate_identity.py:122-126 | The candidate with the least final key. |
| `DimmLayout.ChooseLayout` | 01_generate_identity.py:93-126 | Among all layouts that one vendor can supply within the slots, the result has the fewest 4 GiB modules, then two equal modules, then the fewest modules, then the larger module at the first difference; it fails exactly when the guards fail or no layout exists. |
| `DimmLayout.GuardedMeans` | 01_generate_identity.py:82-95 | The guards in numbers: 4 to 512 GiB in steps of four, 1 to 16 slots, within the platform's maximum. |
| `DimmLayout.BestIsUnique` | 01_generate_identity.py:122-126 | There is one best layout, so set order and ties do not matter. |
| `DimmLayout.BestOverSelections` | 01_generate_identity.py:93-126 | No selection of one vendor's modules, in any order, beats the result under the final key. |
| `MemorySlots.GuestSlots` | 01_generate_identity.py:129-145 | The slot records built from a layout and the host's slot templates, with each refusal. |
| `MemorySlots.MemoryIdentity` | 01_generate_identity.py:3015-3029 | A common vendor is found exactly when one exists, and every module gets one of its parts. |
| `MemorySlots.SlotsKeepTotal` | 01_generate_identity.py:129-145 | Modules come first and empty slots after, and the sizes keep their total. |
| `MemorySlots.LayoutIsAccepted` | 01_generate_identity.py:82-145 | A layout of the search passes the array guard, the slot builder and the part lookup. |
| `MemoryMap.FieldsRoundTrip` | 01_generate_identity.py:148-153 | The address fields decode back to every KiB-aligned range and fit their widths. |
| `MemoryMap.DeviceRanges` | 01_generate_identity.py:156-169 | The nested loops with running offsets compute the overlay. |
| `MemoryMap.PiecesAreContiguous` | 01_generate_identity.py:156-169 | Pieces follow one another without gap or overlap. |
| `MemoryMap.OverlayIsExact` | 01_generate_identity.py:156-169 | With equal totals every address of every range is in exactly one piece, and the pieces are in order. |
| `MemoryMap.DeviceBytesAreSize` | 01_generate_identity.py:156-169 | The pieces of each DIMM add up to its size. |
| `MemoryMap.Q35Pieces` | 01_generate_identity.py:42-47 | On the Q35 map there is one piece more than there are DIMMs, and none touches the hole below 4 GiB. |
| `MemoryTables.BuildMemoryTables` | 01_generate_identity.py:180-236 | The method's appends and exceptions give the laid-out memory records. |
| `MemoryConservation.MemoryShape` | 01_generate_identity.py:190-236 | Whenever the records are emitted they are one array, a device for each slot, the ranges and the pieces, in that order, and the array, slot and part checks have passed. |
| `MemoryConservation.ArrayRoundTrip` | 01_generate_identity.py:1420-1439 | The host reader decodes the emitted Type 16 record to the array it was made from. |
| `MemoryConservation.DeviceDecodes` | 01_generate_identity.py:194-226 | A Type 17 record decodes to its slot's size, through the sentinel when large. |
| `MemoryConservation.MemoryIsConserved` | 01_generate_identity.py:180-236 | Whenever the records are emitted, the three decoded totals agree with the installed memory. |
| `RootPorts.AssignRootPortIdentities` | 01_generate_identity.py:1844-1875 | The loop over sorted guests with a shrinking host list computes the greedy assignment. |
| `RootPortPreference.RankMeans` | 01_generate_identity.py:1791-1841 | Ranks order hosts by a preference written on role, lanes and address, for each of the seven roles, and mark the hosts a guest cannot use. |
| `RootPortPreference.AssignedMeans` | 01_generate_identity.py:1844-1875 | The result is returned exactly when each guest has a host of its own that it can use, in port order, and none prefers a host that is left over or went to a guest served later. |
| `RootPorts.ChosenIsBest` | 01_generate_identity.py:1791-1841 | The head of the ranked list is beaten by no host under the role's ranking. |
| `RootPorts.GreedyIsFair` | 01_generate_identity.py:1844-1875 | The pass returns some items exactly when they give every guest its own usable host without envy. |
| `RootPorts.ListingSorts` | 01_generate_identity.py:1875-1875 | The listing is the same items in port order. |
| `RootPorts.AssignedExactly` | 01_generate_identity.py:1844-1875 | An assignment is returned exactly when it covers every port, never repeats a host, uses no bucket of 9 or more, and no guest prefers a host left over or given away later; so it is unique. |
| `RootPorts.OrderIsIrrelevant` | 01_generate_identity.py:1844-1875 | The result depends on the order of neither input list. |
| `RootPorts.GreedyIsIncomplete` | 01_generate_identity.py:1791-1875 | A concrete case in which every guest could be served and the pass fails. |
| `RootPortCapacity.SucceedsExactly` | 01_generate_identity.py:1844-1875 | The operation succeeds exactly when guests are no more than hosts, graphics guests no more than the hosts they can use, and storage guests no more than those they can use outside the best ones for graphics. |
| `RootPortCapacity.AssignmentExistsExactly` | 01_generate_identity.py:1791-1875 | Every guest can be given a usable host of its own exactly when the counts suffice for all guests, for each demanding role, and for both together. |
| `RootPortCapacity.NothingLostWhenWide` | 01_generate_identity.py:1791-1875 | Where every graphics host has at least four lanes the operation succeeds whenever an assignment exists. |
| `RootPortCapacity.RoomyIsEnough` | 01_generate_identity.py:1844-1875 | Room for the greedy pass implies that an assignment exists. |
| `RootPortCapacity.TopSize` | 01_generate_identity.py:1791-1841 | The best hosts of a role are as many as asked for, and usable when enough are. |
| `DomainDevices.ListKeptGuestRootPorts` | 01_generate_identity.py:1740-1788 | The generator's loops over the devices: the kept ports with their roles, and every refusal. |
| `PortRoles.RoleAtMeans` | 01_generate_identity.py:1700-1727 | For each of the seven roles, a bus has the role exactly when a device of that kind (by tag, target or PCI class) is on it and none of an earlier role is. |
| `PortRoles.ListingMeans` | 01_generate_identity.py:1740-1788 | A port is listed exactly when it is a root port that is not an unused filler, with its index, target port and the role of what is behind it. |
| `PortRoles.ListingSucceeds` | 01_generate_identity.py:1740-1788 | The listing succeeds exactly when every number it needs is readable and no target port occurs twice. |
| `DomainDevices.Devices.Clean` | 04_apply_spoof.py:1747-1775 | The first removals of the device pass, and the balloon taken off the bus. |
| `DomainDevices.Devices.NormalizeUsbController` | 04_apply_spoof.py:1696-1740 | One USB controller remains, on the profiled root bus slot, unless a host device replaces it. |
| `DomainDevices.Devices.NormalizeOnboardHda` | 04_apply_spoof.py:1565-1588 | The domain's ICH9 card goes, and an occupied slot is refused. |
| `DomainDevices.Devices.NormalizePcieRootPorts` | 04_apply_spoof.py:1340-1393 | Empty bridges and unused fillers go, the other ports are fixed. |
| `DomainDevices.Devices.SetDevices` | 04_apply_spoof.py:1743-1783 | The passes in their order, as one function of the old devices. |
| `FinalDevices.DevicesSetExactly` | 04_apply_spoof.py:1743-1783 | The passes succeed exactly when the USB controller and the onboard sound card find their places free and every controller index that counts is readable. |
| `FinalDevices.DevicesStay` | 04_apply_spoof.py:1747-1775 | A device other than controllers and balloons is in the result exactly when it was there and is neither of a dropped kind nor superseded by the profile. |
| `FinalDevices.UsbIs` | 04_apply_spoof.py:1696-1740 | Every USB controller of the result is the profile's, or the disabled one where a host device takes its place. |
| `FinalDevices.AddedAre` | 04_apply_spoof.py:1696-1775 | A USB controller and a disabled memory balloon are always there. |
| `FinalDevices.PortsAre` | 04_apply_spoof.py:1340-1393 | The root ports of the result are those of the domain that lead to a device, have a low index or a larger controller index above them, each with backend "ioh3420", hotplug "off" and everything else as before. |
| `FinalDevices.ControllersAre` | 04_apply_spoof.py:1340-1393 | The other PCI controllers are those of the domain without the bridges that lead to nothing. |
| `DomainDevices.Devices.ValidateProfiledRootPorts` | 04_apply_spoof.py:1488-1530 | Readability, profiled ports and roles decide whether the domain is accepted. |
| `RootPortPruning.NormalizingTwice` | 04_apply_spoof.py:1340-1393 | Normalising root ports a second time changes nothing. |
| `RootPortPruning.KeptPortsAreProfiled` | 01_generate_identity.py:1740-1788 | For one domain, every root port the applier keeps was profiled by the generator, on the same bus and port. |
| `RootPortPruning.LimitShrinks` | 04_apply_spoof.py:1368-1376 | The filler limit does not grow when controllers go, except up to zero. |
| `RootPortPruning.KeptPortsExactly` | 04_apply_spoof.py:1340-1393 | The root ports that remain are those with a low index, a device behind them or a larger controller index that stays, each with the fixed settings. |
| `RootPortPruning.RootBusXhci` | 04_apply_spoof.py:1670-1677 | Afterwards xHCI is on the root bus exactly when no host device replaces it. |
| `RootPortPruning.RoleAfterIs` | 04_apply_spoof.py:1477-1485 | The role found behind a port in the final devices is that of the devices which stay. |
| `RootPortPruning.ValidationExactly` | 04_apply_spoof.py:1488-1530 | With the generator's profile the unprofiled-port check never fires, and validation passes exactly when the role behind every port of the domain that keeps its place survives. |
| `RootPortPruning.BalloonBehindPortIsRefused` | 04_apply_spoof.py:1512-1526 | A concrete domain whose own profile is refused. |
| `RootPortPruning.BalloonProfileIsRefused` | 04_apply_spoof.py:1512-1526 | On a host with one port the generator does make a profile of that domain, and the role check refuses it. |
| `DevicesTwice.SettlesExactly` | 04_apply_spoof.py:1743-1783 | Running all device passes again changes nothing exactly when no bridge, and no root port that depends on it, was kept only for display nodes that are gone afterwards. |
| `DevicesTwice.SecondRun` | 04_apply_spoof.py:1743-1777 | The removals, the USB and the HDA pass of a second run leave the result of the first as it is. |
| `DevicesTwice.SecondRunTakesPort` | 04_apply_spoof.py:1779-1783 | A concrete domain with a display behind its port: the first run keeps the port, the second takes it out. |
| `CpuSets.ParseCpuSet` | 04_apply_spoof.py:182-202 | The loop over items reads the union of their ranges, or refuses. |
| `CpuSets.FormatCpuSet` | 04_apply_spoof.py:205-218 | The loop with start and previous prints the runs. |
| `CpuSets.RunsCover` | 04_apply_spoof.py:205-218 | The printed runs cover exactly the set and no two of them touch. |
| `CpuSets.FormatThenParse` | 04_apply_spoof.py:182-218 | Parsing inverts printing on every nonempty subset of the available CPUs. |
| `CpuSets.FormatInjective` | 04_apply_spoof.py:205-218 | Different sets print differently. |
| `CpuMeanings.SetMeans` | 04_apply_spoof.py:182-202 | A text is read as a set of CPUs exactly when it is a comma list of blanks, numbers and rising ranges that denotes it, not empty and all available. |
| `CpuMeanings.FormatMeans` | 04_apply_spoof.py:205-218 | The printed text: the runs of the set in rising order with gaps between them, each as one number or two with a dash. |
| `CpuMeanings.CountMeans` | 04_apply_spoof.py:221-230 | A vCPU count is taken exactly from a plain positive number that the current attribute does not contradict, without hotplug. |
| `CpuPinning.FitVcpuCount` | 04_apply_spoof.py:233-242 | A readable count fits exactly when it is below the number of available CPUs; it is then positive and leaves a CPU over. |
| `CpuPinning.ConfiguredCpuBindings` | 04_apply_spoof.py:266-301 | The bindings read from the domain, with each fallback and refusal. |
| `CpuMeanings.BindingsMean` | 04_apply_spoof.py:266-301 | The vCPUs get the CPUs of the domain's own pins if each is usable and none is shared, and the smallest available ones otherwise; the emulator gets its first pin's CPUs if they are apart, and all others otherwise, but not none. |
| `CpuPinning.FittingCountBinds` | 04_apply_spoof.py:266-301 | Once the count fits, bindings exist: a distinct CPU a vCPU and a nonempty disjoint emulator set. |
| `CpuPinning.Domain.SetVcpuPinning` | 04_apply_spoof.py:304-316 | The new pins replace the old ones; other children stay in order. |
| `CpuMeanings.PinnedMeans` | 04_apply_spoof.py:304-316 | The children afterwards: all that are no pins, in their order, then one pin a vCPU with the CPUs in rising order, then the emulator's. |
| `CpuPinning.WriteThenRead` | 04_apply_spoof.py:266-316 | Re-reading what was written gives the same two sets, and other children are untouched. |
| `CpuPinning.PinningSettles` | 04_apply_spoof.py:266-316 | Applying the bindings and reading again does not change them. |
| `CommandLine.Commandline.SetQemuCommandline` | 04_apply_spoof.py:1915-1950 | The index loop, the rebuilt child list and the added arguments, with each refusal. |
| `CommandLine.BlockMeans` | 04_apply_spoof.py:1944-1979 | When a run fails and with which exception; otherwise what it adds, in plain text: the SMBIOS file, the battery table, the controller at its address, and "hda-duplex" or "hda-output" by the profile's kind of codec. |
| `CommandLine.RecognisedMeans` | 04_apply_spoof.py:1551-1562 | A value is taken for an earlier run's exactly when it names the controller or one of the two codecs, under the present name or the former one. |
| `CommandLine.UserArgumentsKeepOrder` | 04_apply_spoof.py:1925-1941 | Kept arguments are in their old order, and only own options and the child after each are left out. |
| `CommandLine.TakenMeans` | 04_apply_spoof.py:1925-1941 | A run takes out each "-smbios", "-acpitable" and "-device" for its own sound card together with the child after it, and keeps all others in their order. |
| `CommandLine.BlockIsRecognised` | 04_apply_spoof.py:1551-1562 | Everything a run adds is recognised and taken out by the next. |
| `CommandLine.FixedPointExactly` | 04_apply_spoof.py:1915-1979 | Running again, even with another profile, equals running once, exactly when no `-device` that stays has only taken-out arguments between it and one that looks generated. |
| `CommandLine.RewritingSettles` | 04_apply_spoof.py:1915-1979 | Where each `-device` is followed by a value without a leading dash, the rewriting is a fixed point. |
| `CommandLine.SecondRunLosesArguments` | 04_apply_spoof.py:1925-1936 | A concrete command line that a second run changes. |
| `MacAddresses.DsnInjective` | 01_generate_identity.py:2922-2927 | The serial number determines the octets of the MAC. |
| `MacAddresses.DsnOfMac` | 01_generate_identity.py:2922-2927 | The serial number of a printed MAC has ones between the halves. |
| `Network.OverlapsMeans` | 01_generate_identity.py:2875-2875 | Networks overlap exactly when they share an address. |
| `Network.FreshExists` | 01_generate_identity.py:2787-2792 | With fewer than 2^24 excluded MACs the draw can end. |
| `Network.DrawsEndExactly` | 01_generate_identity.py:2787-2792 | Every run ends its draws exactly when each router vendor has a spare MAC for every draw there can be: one for each card up to the first with an unreadable MAC, as long as networks are free. |
| `Network.FewCardsSuffice` | 01_generate_identity.py:2787-2792 | With at most 2^24 - 256 cards every draw ends. |
| `Network.PickThird` | 01_generate_identity.py:2871-2878 | The candidate loop ends with a free network, or with all 256 in conflict. |
| `Network.GenerateLanProfiles` | 01_generate_identity.py:2861-2919 | For every random choice: a run either exhausts a router vendor in a draw that never ends, or it succeeds exactly when there are as many free networks as cards and every MAC is readable, with distinct free networks and fresh gateway MACs. Each adapter announces the 220 addresses from the twentieth as DHCP range with the reserved one in it and the gateway outside, the gateway as DNS, the last address as broadcast, a gateway MAC of the named vendor and the host name made from both, and a lease of a day. |
| `NetworkCheck.ValidateNetworkIdentity` | 04_apply_spoof.py:669-750 | The loop with its seen-sets decides the rules of each adapter and the differences between them. |
| `NetworkAccepted.AcceptedMeans` | 04_apply_spoof.py:624-750 | The validator accepts exactly the networks in which every adapter has one global unicast MAC and the serial number of its octets, a network of 256 addresses with gateway and guest inside and different, well-shaped names and LAN services, and no two adapters share a MAC, serial number, network, name or bridge. |
| `NetworkCheck.DsnAgrees` | 04_apply_spoof.py:683-690 | The serial number the validator expects is the one the generator derives. |
| `NetworkCheck.AdaptersDiffer` | 04_apply_spoof.py:691-748 | Generated adapters of cards with different MACs differ in every compared value, and their subnets are disjoint. |
| `NetworkCheck.GeneratedNetworkPasses` | 04_apply_spoof.py:652-750 | Generated profiles are accepted exactly when the cards' MACs are distinct and the host is not called like what the network announces. |
| `NetworkCheck.TwinsAreRefused` | 04_apply_spoof.py:669-690 | A run in which two cards draw the same MAC: profiles are generated, and the validator refuses them on every host. |
| `NetworkCheck.CardDrawsEnd` | 01_generate_identity.py:2774-2784 | For cards with the vendor prefixes of the generator every draw of a gateway MAC can end, however many cards there are. |
| `NetworkCheck.BuildNetwork` | 01_generate_identity.py:3410-3413 | Generating and linking succeeds exactly when enough networks are free, and the result is accepted exactly when the cards drew distinct MACs and the host has a name of its own. |
| `I226Device.AddHostPackets` | 02_patch_qemu.py:573-580 | Addition that saturates at 2^32 - 1. |
| `I226Device.I226.MmdRead` | 02_patch_qemu.py:582-593 | The scan returns the value stored for the current pair, or zero. |
| `I226Device.I226.MmdWrite` | 02_patch_qemu.py:595-612 | The array is updated, extended, or left alone when full. |
| `I226Device.I226.MdicWrite` | 02_patch_qemu.py:673-714 | The indirect access protocol: new table and the word left in MDIC. |
| `I226Words.WordMeans` | 02_patch_qemu.py:673-714 | The word left in MDIC by its bits: finished, failed for another PHY, the stored value for a data-mode read, the fixed identity of register 30, or the core's word with the PHY address of the access. |
| `I226Words.StateMeans` | 02_patch_qemu.py:673-714 | Only writes to PHY 0 change the state: control by register 13, address or the table by register 14. |
| `I226Device.I226.MmioRead` | 02_patch_qemu.py:614-671 | Counters read and clear, other registers leave the added state alone. |
| `I226Device.I226.MmioWrite` | 02_patch_qemu.py:716-785 | Which writes reach the table and which are counted. |
| `I226Device.I226.Receive` | 02_patch_qemu.py:800-824 | Received packets are counted from the core's statistic. |
| `I226Device.I226.ResetHold` | 02_patch_qemu.py:1083-1107 | Reset returns the table and both counters to their initial state. |
| `I226Runs.TableRefinesMap` | 02_patch_qemu.py:582-714 | After any run the table is the first 64 distinct pairs written, in order, each with its last value. |
| `I226Runs.TableStaysBounded` | 02_patch_qemu.py:595-612 | Pairs stay distinct and at most 64. |
| `I226Runs.ReadReturnsLastWrite` | 02_patch_qemu.py:673-714 | A data-mode read answers with the last value written to the selected pair, or zero if none was kept. |
| `I226Runs.FullTableStillUpdates` | 02_patch_qemu.py:595-612 | In a full table known pairs still update and new pairs change nothing. |
| `I226Runs.ForeignAccessesAreInert` | 02_patch_qemu.py:682-685 | Dropping all accesses to other PHYs and all reads from a run leads to the same state. |
| `I226Runs.CountersAreCappedSums` | 02_patch_qemu.py:573-580 | After any run each counter is the packets counted since its last read or reset, capped at 2^32 - 1. |
| `I226Runs.WindowIsTail` | 02_patch_qemu.py:656-663 | A window is what came since the last read or reset, or the whole run without one. |
| `I226Runs.PacketsAreConserved` | 02_patch_qemu.py:656-663 | Values taken out plus the current value never exceed the packets counted, and equal them exactly when no window saturated. |
| `I226Runs.ReadsConservePackets` | 02_patch_qemu.py:656-663 | Without resets the guest's reads plus the current value are all packets counted, exactly when no window saturated. |
| `HdaGraph.PinNodeName` | 02_patch_qemu.py:1687-1695 | The first free candidate name; the search ends. |
| `HdaGraph.PinNamesAreDistinct` | 02_patch_qemu.py:1687-1695 | Pins get distinct names, none of them reserved. |
| `HdaGraph.RenderHdaPinNodes` | 02_patch_qemu.py:1698-1770 | It fails exactly when capture is asked for with a capture pin and four or more playback pins, and otherwise gives the graph in closed form with its node count. |
| `HdaLayout.GraphIsLaid` | 02_patch_qemu.py:1698-1770 | Where every converter and every pin stands, with its id, name, stream, configuration and connection, for any two lists of pins. |
| `HdaLayout.NamesMean` | 02_patch_qemu.py:1687-1695 | Each pin has the first name that is neither reserved nor an earlier pin's: the base, or the base with the smallest number that does it. |
| `HdaLayout.BaseMeans` | 02_patch_qemu.py:1688-1688 | The base is the device's letters and digits in small letters, or "pin" if there are none. |
| `HdaSoundness.GraphIsSound` | 02_patch_qemu.py:1698-1770 | Ids are 2 to count + 1 in order, streams rise below 4, every playback pin hangs on the last converter before it, every capture converter on the capture pin after it. |
| `HdaSoundness.GraphShowsPins` | 02_patch_qemu.py:1698-1770 | Every requested pin appears once, in order, with its name and configuration. |
| `HdaSoundness.NamesUniqueExactly` | 02_patch_qemu.py:1687-1770 | Node names are distinct exactly when no device is called like a converter of the graph, or like the bare stem of two of them. |
| `HdaSoundness.DacPinCollides` | 02_patch_qemu.py:1699-1712 | A concrete pair of pins for which two nodes share a name. |

## Left out

* Host probing, downloading, compiling and deploying, source patches of QEMU and EDK2, kernel work: I/O and fixed text.
* The reused network core, PCI, MSI-X and migration behind the I226-V: an oracle; its local registers that only store and return a value are not told apart.
* XML and JSON text, UUID text and dotted IPv4 text: elements are records, addresses are numbers, a UUID is sixteen bytes or taken as readable.
* Number syntax of `int(text, 0)`, `int(text, 16)` and `str.isdigit` beyond plain ASCII digits (signs, blanks, underscores, prefixes); Unicode case folding and white space.
* Policy fields of the profile that are only compared with constants, and the date format: one flag that is an input.
* Field-equality validators, catalog contents and constant identity tables: settled by reading them.
* Disk, interface and host device checks of `set_devices` after the port pass: they touch neither addresses nor classes.
* Partial edits of the domain and of the command line when an exception ends a pass: the domain is discarded then, so no state is claimed.
* `smbios_cache_size`, and SMBIOS types the builder never writes.
- ProfileStream.BuildSmbiosStream: the policy markers, the absent host caches and the date format are one input flag, because they are only compared with constants.
- Network.GenerateLanProfiles: a draw stops, without a result for the run, once its vendor has no MAC left; the luck of a draw that could end but does not is not modelled; libvirt's network UUID is not part of the record.
- MacAddresses.DsnInjective: octets of a MAC are plain hexadecimal digits in either case, without the signs, blanks, underscores or prefix that `int(value, 16)` also reads.
- DomainDevices.Devices.ValidateProfiledRootPorts: the items are as the generator assigns them, so the refusals of an item without a port, a role or a mapping reason are not modelled.
- NetworkCheck.ValidateNetworkIdentity: starts after the constant identity fields and does not model the fallback for a profile without stored LAN services.
- I226Device.I226.MmioRead: the fixed bits that status registers add to the core's word are not modelled.
- DomainDevices.Devices.SetDevices: the video model that is set when no graphics card is passed through is not part of a node here.
- HdaGraph.RenderHdaPinNodes: the rendered C text is a list of nodes, and the pin configuration is already a number.

/** From_xml recovers what To_xml wrote, and validation is stable across the two. */
module VmdefLaws {
  import opened GoTypes
  import opened Vmdef
  import opened DomainXml

  // ------------------------------------------------------------ the alias string

  lemma {:induction false} IndexOfFirst(a: string, sep: char, rest: string)
    requires sep !in a
    ensures IndexOf(a + [sep] + rest, sep) == |a|
  {
    if a != "" {
      assert (a + [sep] + rest)[1..] == a[1..] + [sep] + rest;
      IndexOfFirst(a[1..], sep, rest);
    }
  }

  lemma SplitCons(a: string, rest: string, n: nat)
    requires '_' !in a && n > 1
    ensures SplitN(a + ['_'] + rest, '_', n) == [a] + SplitN(rest, '_', n - 1)
  {
    var s := a + ['_'] + rest;
    IndexOfFirst(a, '_', rest);
    assert s[..|a|] == a && s[|a| + 1..] == rest;
  }

  /** The fields of an alias come back, whatever the last one contains. */
  lemma {:induction false} SplitJoin(fields: seq<string>)
    requires fields != [] && forall i | 0 <= i < |fields| - 1 :: '_' !in fields[i]
    ensures SplitN(Join(fields), '_', |fields|) == fields
  {
    if |fields| > 1 {
      SplitCons(fields[0], Join(fields[1..]), |fields|);
      SplitJoin(fields[1..]);
      assert [fields[0]] + fields[1..] == fields;
    }
  }

  lemma {:induction false} JoinLength(fields: seq<string>)
    ensures |Join(fields)| >= |fields| - 1
    ensures fields != [] ==> |Join(fields)| >= |fields| - 1 + |fields[|fields| - 1]|
  {
    if |fields| > 1 {
      JoinLength(fields[1..]);
    }
  }

  lemma AliasReadsBack(d: Disk, n: nat)
    ensures |Alias(d, n)| >= 5
    ensures SplitN(Alias(d, n)[3..], '_', 5) == AliasFields(d, n)
  {
    var f := AliasFields(d, n);
    JoinLength(f);
    assert Alias(d, n)[3..] == Join(f);
    assert '_' !in f[0] && '_' !in f[1] && '_' !in f[2] && '_' !in f[3];
    SplitJoin(f);
  }

  // ---------------------------------------------------------------------- disks

  predicate EnumsValid(d: Disk) { 0 <= d.device <= 2 && 0 <= d.bus <= 3 && 0 <= d.prov <= 2 && 0 <= d.man <= 1 }

  lemma EnumsParse(d: Disk)
    requires EnumsValid(d)
    ensures DeviceParse(DeviceString(d.device)) == Some(d.device)
    ensures ManString(d.man) != "" && ManParse(ManString(d.man)[0]) == Some(d.man)
    ensures ProvString(d.prov) != "" && ProvParse(ProvString(d.prov)[0]) == Some(d.prov)
    ensures BusParse(CtrlOf(d.bus).Name(), CtrlModel(d.bus)) == Some(d.bus)
  {
    assert "lsilogic" != "virtio-scsi";
  }

  /** Neither the driver, nor the counters, nor the boot order get in the way of reading a disk back. */
  lemma DiskReadBack(d: Disk, driver: string, e: Emitted, order: int)
    requires EnumsValid(d)
    ensures DiskFromXml(DiskElement(d, driver, e, order)) == Ok(d.(size := 0))
  {
    EnumsParse(d);
    AliasReadsBack(d, Count(e, CtrlOf(d.bus)));
    ElementReadsBack(d, DiskElement(d, driver, e, order), AliasFields(d, Count(e, CtrlOf(d.bus))));
  }

  lemma ElementReadsBack(d: Disk, x: DiskXml, f: seq<string>)
    requires DeviceParse(x.device) == Some(d.device) && x.target.Some? && x.source.Some?
    requires (if d.device == DEVICE_LUN then x.source.value.block else x.source.value.file) == Some(d.path)
    requires x.alias.Some? && |x.alias.value| >= 5 && SplitN(x.alias.value[3..], '_', 5) == f && |f| == 5
    requires f[0] != "" && ManParse(f[0][0]) == Some(d.man)
    requires f[1] != "" && ProvParse(f[1][0]) == Some(d.prov)
    requires BusParse(f[2], f[3]) == Some(d.bus)
    ensures DiskFromXml(x) == Ok(d.(size := 0))
  {
  }

  function Front<T>(s: seq<T>): seq<T> requires s != [] { s[..|s| - 1] }
  function Last<T>(s: seq<T>): T requires s != [] { s[|s| - 1] }

  lemma DisksReadSnoc(xs: seq<DiskXml>, x: DiskXml, read: DisksRead, d: Disk)
    requires DisksFromXml(xs) == Ok(read) && DiskFromXml(x) == Ok(d)
    ensures DisksFromXml(xs + [x])
         == Ok(if IsPrimary(x) then read.(osdisk := d) else read.(disks := read.disks + [d]))
  {
    assert (xs + [x])[..|xs|] == xs;
  }

  lemma SizelessSnoc(ds: seq<Disk>)
    requires |ds| > 1
    ensures Sizeless(ds[1..]) == Sizeless(Front(ds)[1..]) + [Last(ds).(size := 0)]
  {
  }

  lemma DisksReadStep(n: Naming, before: seq<Disk>, d: Disk, read: DisksRead)
    requires EnumsValid(d) && DisksFromXml(EmitDisks(n, before).disks) == Ok(read)
    ensures DisksFromXml(EmitDisks(n, before + [d]).disks)
         == Ok(if before == [] then read.(osdisk := d.(size := 0)) else read.(disks := read.disks + [d.(size := 0)]))
  {
    var e, order := EmitDisks(n, before), OrderOf(before, d);
    var x := DiskElement(d, n.driver(d.path), e, order);
    DiskReadBack(d, n.driver(d.path), e, order);
    DisksReadSnoc(e.disks, x, read, d.(size := 0));
    assert (before + [d])[..|before|] == before;
    assert EmitDisks(n, before + [d]).disks == e.disks + [x];
  }

  /** The primary disk and the order of the others are recovered through the boot order. */
  lemma {:induction false} DisksReadBack(n: Naming, ds: seq<Disk>)
    requires ds != [] && forall i | 0 <= i < |ds| :: EnumsValid(ds[i])
    ensures DisksFromXml(EmitDisks(n, ds).disks) == Ok(DisksRead(ds[0].(size := 0), Sizeless(ds[1..])))
  {
    assert ds == Front(ds) + [Last(ds)];
    if |ds| == 1 {
      DisksReadStep(n, [], ds[0], DisksRead(ZERO_DISK, []));
    } else {
      DisksReadBack(n, Front(ds));
      DisksReadStep(n, Front(ds), Last(ds), DisksRead(ds[0].(size := 0), Sizeless(Front(ds)[1..])));
      SizelessSnoc(ds);
    }
  }

  // ----------------------------------------------------------------- interfaces

  predicate ValidNettype(n: Net) { n.nettype == NET_BRIDGE || n.nettype == NET_LIBVIRT }

  lemma NetReadBack(vm: Vmdef, n: Net)
    requires 0 <= n.model <= 2
    ensures NetFromXml(InterfaceOf(vm, n)) == if ValidNettype(n) then Ok(n) else Err("missing Interface Source")
  {
    assert NetModelParse(NetModelString(n.model)) == Some(n.model);
  }

  lemma {:induction false} NetsReadBack(vm: Vmdef, ns: seq<Net>)
    requires (forall i | 0 <= i < |ns| :: 0 <= ns[i].model <= 2) && 0 <= vm.vlanid <= VLAN_MAX
    ensures NetsFromXml(Interfaces(vm, ns)) ==
      if forall i | 0 <= i < |ns| :: ValidNettype(ns[i]) then Ok(NetsRead(ns, if ns == [] then 0 else vm.vlanid))
      else Err("missing Interface Source")
  {
    if ns != [] {
      NetsReadBack(vm, Front(ns));
      NetReadBack(vm, Last(ns));
      assert Front(Interfaces(vm, ns)) == Interfaces(vm, Front(ns));
      assert ns == Front(ns) + [Last(ns)];
    }
  }

  lemma {:induction false} ValidNetsEach(ns: seq<Net>)
    requires ValidateNets(ns).Pass?
    ensures forall i | 0 <= i < |ns| :: 0 <= ns[i].model <= 2
  {
    if ns != [] {
      ValidNetsEach(ns[1..]);
      assert forall i | 0 < i < |ns| :: ns[i] == ns[1..][i - 1];
    }
  }

  // ----------------------------------------------------------------- round trip

  /** What the XML keeps of a definition. */
  function Canonical(vm: Vmdef): Vmdef {
    vm.(nodes := 0,
        osdisk := vm.osdisk.(size := 0), disks := Sizeless(vm.disks),
        vlanid := if vm.nets == [] then 0 else vm.vlanid,
        firmware := if vm.firmware == FIRMWARE_BIOS then FIRMWARE_BIOS else FIRMWARE_UEFI,
        genid := if vm.genid == "auto" then "" else vm.genid,
        custom := NamedFields(vm.custom))
  }

  predicate KnownArch(arch: string) { arch == "aarch64" || arch == "x86_64" }

  lemma ValidDisks(vm: Vmdef)
    requires Validate(vm).Pass?
    ensures forall i | 0 <= i < |Disks(vm)| :: ValidateDisk(Disks(vm)[i]).Pass? && EnumsValid(Disks(vm)[i])
  {
    ValidDisksEach(Disks(vm));
  }

  /** The parts of validation that reading back relies on. */
  predicate Readable(vm: Vmdef) {
    && (forall i | 0 <= i < |Disks(vm)| :: EnumsValid(Disks(vm)[i]))
    && (forall i | 0 <= i < |vm.nets| :: 0 <= vm.nets[i].model <= 2)
    && 0 <= vm.vlanid <= VLAN_MAX && vm.cpuModel != "" && InRange(vm)
  }

  lemma ValidIsReadable(vm: Vmdef)
    requires Validate(vm).Pass? && InRange(vm)
    ensures Readable(vm)
  {
    ValidDisks(vm);
    ValidNetsEach(vm.nets);
  }

  /** A validated definition never fails in the disk loop. */
  lemma ValidatedIsEmitted(hash: string -> string, vm: Vmdef, uuid: string, arch: string)
    requires Validate(vm).Pass? && KnownArch(arch)
    ensures ToXml(VirtxNaming(hash), vm, uuid, arch) == Ok(DomainOf(VirtxNaming(hash), vm, uuid))
  {
    ValidDisks(vm);
  }

  lemma FirmwareReadBack(f: int)
    ensures FirmwareFromXml(Os(Machine(f), FirmwareString(f), f == FIRMWARE_BIOS))
         == if f == FIRMWARE_BIOS then FIRMWARE_BIOS else FIRMWARE_UEFI
    ensures FirmwareFromXml(Os(Machine(f), "", f == FIRMWARE_BIOS))
         == if f == FIRMWARE_BIOS then FIRMWARE_BIOS else FIRMWARE_UEFI
  {
  }

  /** libvirt's normalisation, with or without the firmware attribute. */
  function Stored(x: Domain, migratable: bool): Domain {
    if migratable then StripFirmware(NormalizeMemory(x)) else NormalizeMemory(x)
  }

  /** A validated definition is read back in canonical form if and only if every network type
      is valid; Validate does not look at network types. */
  lemma RoundTrip(hash: string -> string, vm: Vmdef, uuid: string, arch: string, migratable: bool)
    requires Validate(vm).Pass? && InRange(vm) && KnownArch(arch)
    ensures ToXml(VirtxNaming(hash), vm, uuid, arch).Ok?
    ensures FromXml(Stored(ToXml(VirtxNaming(hash), vm, uuid, arch).value, migratable)) == Ok(Canonical(vm))
       <==> forall n | n in vm.nets :: ValidNettype(n)
  {
    ValidatedIsEmitted(hash, vm, uuid, arch);
    ValidIsReadable(vm);
    ReadStored(VirtxNaming(hash), vm, uuid, migratable);
    assert (forall n | n in vm.nets :: ValidNettype(n)) <==> forall i | 0 <= i < |vm.nets| :: ValidNettype(vm.nets[i]);
  }

  lemma ReadStored(n: Naming, vm: Vmdef, uuid: string, migratable: bool)
    requires Readable(vm)
    ensures FromXml(Stored(DomainOf(n, vm, uuid), migratable)) ==
      if forall i | 0 <= i < |vm.nets| :: ValidNettype(vm.nets[i]) then Ok(Canonical(vm))
      else Err("missing Interface Source")
  {
    DisksReadBack(n, Disks(vm));
    assert Disks(vm)[1..] == vm.disks;
    NetsReadBack(vm, vm.nets);
    FirmwareReadBack(vm.firmware);
    StoredParts(n, vm, uuid, migratable);
    PartsReadBack(vm, Stored(DomainOf(n, vm, uuid), migratable));
  }

  lemma StoredParts(n: Naming, vm: Vmdef, uuid: string, migratable: bool)
    ensures var x, y := DomainOf(n, vm, uuid), Stored(DomainOf(n, vm, uuid), migratable);
      y == x.(memory := Some(Memory(vm.memory * 1024, "KiB")),
              os := Some(x.os.value.(firmware := if migratable then "" else FirmwareString(vm.firmware))))
  {
  }

  /** From_xml puts together what its loops and the scalar elements give. */
  lemma PartsReadBack(vm: Vmdef, y: Domain)
    requires InRange(vm) && vm.cpuModel != ""
    requires y.title == vm.name && y.metadata == Some(NamedFields(vm.custom))
    requires y.genid == if vm.genid == "" then None else if vm.genid == "auto" then Some("") else Some(vm.genid)
    requires y.memory.Some? && y.memory.value.value == vm.memory * 1024
    requires y.hugepageThreads.Some? == vm.hugepages && y.numaPlacement.Some? == vm.placement
    requires y.os.Some? && FirmwareFromXml(y.os.value) == Canonical(vm).firmware
    requires y.cpu.Some? && y.cpu.value.topology == Some(Topology(vm.sockets, vm.cores, vm.threads))
    requires y.cpu.value.mode == if SpecialCpu(vm.cpuModel) then vm.cpuModel else ""
    requires y.cpu.value.model == if SpecialCpu(vm.cpuModel) then None else Some(vm.cpuModel)
    requires y.devices.Some?
    requires DisksFromXml(y.devices.value.disks) == Ok(DisksRead(vm.osdisk.(size := 0), Sizeless(vm.disks)))
    ensures var nets := NetsFromXml(y.devices.value.interfaces);
      FromXml(y) == if nets.Err? then Err(nets.error)
        else Ok(Canonical(vm).(nets := nets.value.nets, vlanid := nets.value.vlanid))
  {
    assert HasCpuModel(y.cpu.value) && CpuModelOf(y.cpu.value) == vm.cpuModel;
    assert vm.memory * 1024 / 1024 == vm.memory;
  }

  // ------------------------------------------------------ validation is stable

  lemma SizelessDiskValid(d: Disk)
    requires ValidateDisk(d).Pass?
    ensures ValidateDisk(d.(size := 0)).Pass?
  {
  }

  lemma {:induction false} SizelessValid(ds: seq<Disk>)
    requires ValidateDisks(ds).Pass?
    ensures ValidateDisks(Sizeless(ds)).Pass?
  {
    if ds != [] {
      SizelessDiskValid(ds[0]);
      SizelessValid(ds[1..]);
      assert Sizeless(ds)[1..] == Sizeless(ds[1..]);
    }
  }

  lemma {:induction false} ValidCustomSnoc(cs: seq<CustomField>, c: CustomField)
    ensures ValidateCustom(cs + [c]).Pass? <==> ValidateCustom(cs).Pass? && ValidateCustom([c]).Pass?
  {
    if cs != [] {
      assert (cs + [c])[1..] == cs[1..] + [c];
      ValidCustomSnoc(cs[1..], c);
    } else {
      assert cs + [c] == [c];
    }
  }

  lemma {:induction false} NamedFieldsValid(cs: seq<CustomField>)
    requires ValidateCustom(cs).Pass?
    ensures ValidateCustom(NamedFields(cs)).Pass?
  {
    if cs != [] {
      assert cs == Front(cs) + [Last(cs)];
      ValidCustomSnoc(Front(cs), Last(cs));
      NamedFieldsValid(Front(cs));
      ValidCustomSnoc(NamedFields(Front(cs)), Last(cs));
    }
  }

  /** What is read back passes validation again, so the register path accepts it, and reading
      back is a fixed point: a second round trip changes nothing more. */
  lemma ValidationIsStable(vm: Vmdef)
    requires Validate(vm).Pass? && InRange(vm)
    ensures Validate(Canonical(vm)).Pass? && InRange(Canonical(vm))
    ensures Canonical(Canonical(vm)) == Canonical(vm)
  {
    CanonicalScalars(vm);
    CanonicalDisksValid(vm);
    NamedFieldsValid(vm.custom);
    CanonicalTwice(vm);
  }

  lemma CanonicalDisksValid(vm: Vmdef)
    requires Validate(vm).Pass?
    ensures ValidateDisks(Disks(Canonical(vm))).Pass?
  {
    assert Disks(Canonical(vm)) == Sizeless(Disks(vm));
    SizelessValid(Disks(vm));
  }

  lemma CanonicalScalars(vm: Vmdef)
    requires ValidateScalars(vm).Pass? && InRange(vm)
    ensures ValidateScalars(Canonical(vm)).Pass? && InRange(Canonical(vm))
  {
  }

  lemma CanonicalTwice(vm: Vmdef)
    ensures Canonical(Canonical(vm)) == Canonical(vm)
  {
    NamedFieldsIdempotent(vm.custom);
    assert Sizeless(Sizeless(vm.disks)) == Sizeless(vm.disks);
  }

  /** vm_register: a stored domain is taken in if it can be read and validates. */
  predicate Registers(y: Domain) { FromXml(y).Ok? && Validate(FromXml(y).value).Pass? }

  /** Whatever the create path stored of a validated definition the register path accepts, if and only
      if every network type is valid. */
  lemma RegisterAcceptsIff(hash: string -> string, vm: Vmdef, uuid: string, arch: string, migratable: bool)
    requires Validate(vm).Pass? && InRange(vm) && KnownArch(arch)
    ensures ToXml(VirtxNaming(hash), vm, uuid, arch).Ok?
    ensures Registers(Stored(ToXml(VirtxNaming(hash), vm, uuid, arch).value, migratable))
       <==> forall n | n in vm.nets :: ValidNettype(n)
  {
    RoundTrip(hash, vm, uuid, arch, migratable);
    ValidIsReadable(vm);
    ReadStored(VirtxNaming(hash), vm, uuid, migratable);
    ValidatedIsEmitted(hash, vm, uuid, arch);
    ValidationIsStable(vm);
  }

  lemma {:induction false} NamedFieldsIdempotent(cs: seq<CustomField>)
    ensures NamedFields(NamedFields(cs)) == NamedFields(cs)
  {
    if cs != [] {
      NamedFieldsIdempotent(Front(cs));
      assert Front(NamedFields(Front(cs)) + [Last(cs)]) == NamedFields(Front(cs));
    }
  }

  // ------------------------------------------------------------ address limit

  function Pow2(n: nat): (r: nat)
    ensures r > 0
  {
    if n == 0 then 1 else 2 * Pow2(n - 1)
  }

  lemma {:induction false} Len64Is(x: nat)
    ensures x < Pow2(Len64(x)) && (x > 0 ==> Pow2(Len64(x)) <= 2 * x)
  {
    if x > 0 { Len64Is(x / 2); }
  }

  lemma Shift5(k: nat)
    ensures Pow2(k + 5) == 32 * Pow2(k)
  {
    assert Pow2(k + 1) == 2 * Pow2(k) && Pow2(k + 2) == 2 * Pow2(k + 1);
    assert Pow2(k + 3) == 2 * Pow2(k + 2) && Pow2(k + 4) == 2 * Pow2(k + 3);
  }

  lemma Shift20(k: nat)
    ensures Pow2(k + 20) == 1048576 * Pow2(k)
  {
    Shift5(k);
    Shift5(k + 5);
    Shift5(k + 10);
    Shift5(k + 15);
  }

  lemma {:induction false} Pow2Grows(a: nat, b: nat)
    requires a <= b
    ensures Pow2(a) <= Pow2(b)
  {
    if a < b { Pow2Grows(a, b - 1); }
  }

  /** The limit covers all of the memory, and where it is more than the minimum, no smaller limit
      would. */
  lemma MemoryIsAddressable(total: nat)
    requires total < TWO64
    ensures total * 1048576 < Pow2(PhysBits(total))
    ensures PhysBits(total) > 36 ==> Pow2(PhysBits(total) - 1) <= total * 1048576
  {
    var k := Len64(total);
    Len64Is(total);
    Shift20(k);
    Pow2Grows(k + 20, PhysBits(total));
    if k > 0 {
      Shift20(k - 1);
      assert Pow2(k) == 2 * Pow2(k - 1);
    }
  }
}

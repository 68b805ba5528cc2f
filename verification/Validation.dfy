/** What Validate accepts, and what From_xml can read (pkg/vmdef/vmdef.go). */
module Validation {
  import opened GoTypes
  import opened Vmdef
  import opened DomainXml
  import opened DomainMeaning

  // ----------------------------------------------------------------- validation

  /** An image in a data store or a device, on a bus that its kind of device can have. */
  ghost predicate GoodDisk(d: Disk) {
    && d.size >= 0 && CleanAbs(d.path) && (IsQcow2(d.path) || IsRaw(d.path))
    && d.device in {DEVICE_DISK, DEVICE_CDROM, DEVICE_LUN}
    && d.bus in {BUS_VIRTIO_BLK, BUS_VIRTIO_SCSI, BUS_SATA, BUS_SCSI}
    && d.prov in {PROV_NONE, PROV_THIN, PROV_THICK} && d.man in {DISK_UNMANAGED, DISK_MANAGED}
    && (d.device == DEVICE_LUN ==> d.bus == BUS_VIRTIO_SCSI)
    && (d.device == DEVICE_CDROM ==> d.bus in {BUS_VIRTIO_SCSI, BUS_SATA, BUS_SCSI})
  }

  ghost predicate GoodNet(n: Net) { |n.mac| in {0, 17} && n.model in {0, 1, 2} }

  ghost predicate GoodCustom(c: CustomField) { c.name == "" || (IsAlnum(c.name) && IsAlnum(c.value)) }

  ghost predicate GoodScalars(vm: Vmdef) {
    && 1 <= |vm.name| <= 32 && vm.memory >= 1
    && vm.cpuModel != "" && vm.sockets >= 1 && vm.cores >= 1 && vm.threads == 1
    && (|vm.genid| in {0, 36} || vm.genid == "auto")
    && |vm.disks| <= 20 && |vm.nets| <= 8 && 0 <= vm.vlanid <= 4094
  }

  lemma DiskPassesIff(d: Disk)
    ensures ValidateDisk(d).Pass? <==> GoodDisk(d)
  {
    DriverIff(d.path);
  }

  lemma {:induction false} NetsPassIff(ns: seq<Net>)
    ensures ValidateNets(ns).Pass? <==> forall n | n in ns :: GoodNet(n)
  {
    if ns != [] {
      NetsPassIff(ns[1..]);
      assert forall n :: n in ns <==> n == ns[0] || n in ns[1..];
      assert ns[0].mac == "" <==> |ns[0].mac| == 0;
      assert ValidateNets(ns).Pass? <==> GoodNet(ns[0]) && ValidateNets(ns[1..]).Pass?;
    }
  }

  lemma {:induction false} CustomPassesIff(cs: seq<CustomField>)
    ensures ValidateCustom(cs).Pass? <==> forall c | c in cs :: GoodCustom(c)
  {
    if cs != [] {
      CustomPassesIff(cs[1..]);
      assert forall c :: c in cs <==> c == cs[0] || c in cs[1..];
      assert ValidateCustom(cs).Pass? <==> GoodCustom(cs[0]) && ValidateCustom(cs[1..]).Pass?;
    }
  }

  lemma ScalarsPassIff(vm: Vmdef)
    ensures GoodScalars(vm) && vm.osdisk.path != "" <==> ValidateScalars(vm).Pass?
  {
  }

  /** Validate accepts exactly the good definitions; in particular it asks nothing of the firmware and
      of the network types. */
  lemma ValidateAcceptsIff(vm: Vmdef)
    ensures Validate(vm).Pass? <==>
      (GoodScalars(vm) && (forall d | d in Disks(vm) :: GoodDisk(d))
       && (forall n | n in vm.nets :: GoodNet(n)) && (forall c | c in vm.custom :: GoodCustom(c)))
  {
    ScalarsPassIff(vm);
    ValidDisksEach(Disks(vm));
    forall d | d in Disks(vm) ensures ValidateDisk(d).Pass? <==> GoodDisk(d) {
      DiskPassesIff(d);
    }
    NetsPassIff(vm.nets);
    CustomPassesIff(vm.custom);
    assert vm.osdisk in Disks(vm);
  }

  // -------------------------------------------------------------------- reading

  predicate Readable(x: InterfaceXml) {
    && x.source.Some? && (x.source.value.bridge.Some? || x.source.value.network.Some?)
    && x.model.Some? && x.model.value in {"virtio", "e1000e", "e1000"}
  }

  lemma {:induction false} DisksReadIff(xs: seq<DiskXml>)
    ensures DisksFromXml(xs).Ok? <==> forall x | x in xs :: DiskFromXml(x).Ok?
  {
    if xs != [] {
      DisksReadIff(xs[..|xs| - 1]);
      assert xs == xs[..|xs| - 1] + [xs[|xs| - 1]];
    }
  }

  lemma {:induction false} NetsReadIff(xs: seq<InterfaceXml>)
    ensures NetsFromXml(xs).Ok? <==> forall x | x in xs :: Readable(x)
  {
    if xs != [] {
      NetsReadIff(xs[..|xs| - 1]);
      assert xs == xs[..|xs| - 1] + [xs[|xs| - 1]];
      assert NetFromXml(xs[|xs| - 1]).Ok? <==> Readable(xs[|xs| - 1]);
    }
  }

  /** The cpu model of a domain: the model it names if its mode is none or "custom", as libvirt
      expands it, and otherwise the mode. */
  function CpuName(cpu: Cpu): Option<string> {
    match cpu.mode
    case "" => cpu.model
    case "custom" => cpu.model
    case mode => Some(mode)
  }

  /** From_xml reads exactly the domains in which no part is missing, whatever wrote them. */
  lemma ReadIff(x: Domain)
    ensures FromXml(x).Ok? <==>
      (x.cpu.Some? && x.cpu.value.topology.Some? && CpuName(x.cpu.value).Some?
       && x.memory.Some? && x.os.Some? && x.metadata.Some? && x.devices.Some?
       && (forall d | d in x.devices.value.disks :: DiskFromXml(d).Ok?)
       && (forall i | i in x.devices.value.interfaces :: Readable(i)))
    ensures FromXml(x).Ok? ==> Some(FromXml(x).value.cpuModel) == CpuName(x.cpu.value)
  {
    if x.devices.Some? {
      DisksReadIff(x.devices.value.disks);
      NetsReadIff(x.devices.value.interfaces);
    }
  }
}

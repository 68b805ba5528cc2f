/**
 What the domain that To_xml emits says about its VM (pkg/vmdef/vmdef.go), read
 off the domain alone.
 */
module DomainMeaning {
  import opened GoTypes
  import opened Vmdef
  import opened DomainXml
  import opened DomainNames

  // -------------------------------------------------------------------- drivers

  predicate EndsWith(s: string, suffix: string) { |suffix| <= |s| && s[|s| - |suffix|..] == suffix }

  lemma {:induction false} ExtIs(path: string, ext: string)
    requires ext != "" && ext[0] == '.' && '.' !in ext[1..] && '/' !in ext[1..]
    ensures Ext(path) == ext <==> EndsWith(path, ext)
    decreases |ext|
  {
    if path != "" {
      var front, front' := path[..|path| - 1], ext[..|ext| - 1];
      assert ext == front' + [ext[|ext| - 1]] && path == front + [path[|path| - 1]];
      if |ext| > 1 {
        assert front'[1..] == ext[1..][..|ext| - 2] && ext[|ext| - 1] == ext[1..][|ext| - 2];
        ExtIs(front, front');
        SameEnd(front, path[|path| - 1], front', ext[|ext| - 1]);
      }
    }
  }

  lemma SameEnd(s: string, a: char, suffix: string, b: char)
    ensures EndsWith(s + [a], suffix + [b]) <==> a == b && EndsWith(s, suffix)
  {
    if |suffix| <= |s| {
      var tail := s[|s| - |suffix|..];
      assert (s + [a])[|s| - |suffix|..] == tail + [a];
      assert (tail + [a])[..|suffix|] == tail && (suffix + [b])[..|suffix|] == suffix;
    }
  }

  predicate IsQcow2(path: string) { HasPrefix(path, DS_DIR) && EndsWith(path, ".qcow2") }

  predicate IsRaw(path: string) {
    HasPrefix(path, DEV_DIR) || (HasPrefix(path, DS_DIR) && (EndsWith(path, ".raw") || EndsWith(path, ".iso")))
  }

  /** Acceptable paths are images in the data stores and devices, and their names tell their format. */
  lemma DriverIff(path: string)
    ensures PathDriver(path) == "qcow2" <==> CleanAbs(path) && IsQcow2(path)
    ensures PathDriver(path) == "raw" <==> CleanAbs(path) && IsRaw(path)
    ensures PathDriver(path) == "" <==> !(CleanAbs(path) && (IsQcow2(path) || IsRaw(path)))
  {
    ExtIs(path, ".qcow2");
    ExtIs(path, ".raw");
    ExtIs(path, ".iso");
    assert HasPrefix(path, DEV_DIR) ==> path[1] == 'd';
    assert HasPrefix(path, DS_DIR) ==> path[1] == 'v';
  }

  /** To_xml refuses a definition exactly if the architecture or the path of a disk is unknown. */
  lemma EmittedIff(hash: string -> string, vm: Vmdef, uuid: string, arch: string)
    ensures ToXml(VirtxNaming(hash), vm, uuid, arch).Ok? <==>
      (arch == "aarch64" || arch == "x86_64")
      && forall d | d in Disks(vm) :: CleanAbs(d.path) && (IsQcow2(d.path) || IsRaw(d.path))
  {
    forall d | d in Disks(vm)
      ensures VirtxNaming(hash).driver(d.path) == "" <==> !(CleanAbs(d.path) && (IsQcow2(d.path) || IsRaw(d.path)))
    {
      DriverIff(d.path);
    }
  }

  // ---------------------------------------------------------------------- disks

  /** qcow2 images are read as qcow2 and everything else as raw; only cdroms are read-only; only
      LUNs have raw I/O, a block source and no host cache at all. */
  ghost predicate StorageMeans(d: Disk, x: DiskXml) {
    && (x.driver == "qcow2" <==> IsQcow2(d.path)) && (x.driver == "raw" <==> IsRaw(d.path))
    && (x.readOnly <==> d.device == DEVICE_CDROM)
    && (x.rawIo <==> d.device == DEVICE_LUN)
    && x.cache == (if d.device == DEVICE_LUN then "directsync" else "none")
    && x.source == Some(if d.device == DEVICE_LUN then Source(Some(d.path), None) else Source(None, Some(d.path)))
  }

  /** libvirt's words for the device and its bus; the alias carries management and provisioning. */
  ghost predicate WordsMean(d: Disk, x: DiskXml) {
    && (d.device == DEVICE_DISK ==> x.device == "disk")
    && (d.device == DEVICE_CDROM ==> x.device == "cdrom")
    && (d.device == DEVICE_LUN ==> x.device == "lun")
    && x.target.Some?
    && (d.bus == BUS_VIRTIO_BLK ==> x.target.value.bus == "virtio" && x.target.value.prefix == "vd")
    && (d.bus == BUS_SATA ==> x.target.value.bus == "sata" && x.target.value.prefix == "sd")
    && (d.bus == BUS_SCSI || d.bus == BUS_VIRTIO_SCSI ==>
          x.target.value.bus == "scsi" && x.target.value.prefix == "sd")
  }

  ghost predicate AliasMeans(d: Disk, x: DiskXml) {
    && x.alias.Some?
    && (d.man == DISK_MANAGED && 0 <= d.prov <= 2 ==> "ua-M_" + [ProvLetter(d.prov), '_'] <= x.alias.value)
    && (d.man == DISK_UNMANAGED && 0 <= d.prov <= 2 ==> "ua-U_" + [ProvLetter(d.prov), '_'] <= x.alias.value)
  }

  /** "UtT" is the order of the provisioning modes: none, thin, thick. */
  function ProvLetter(prov: int): char
    requires 0 <= prov <= 2
  {
    "UtT"[prov]
  }

  /** A scsi disk is on a controller of the model its bus asks for. */
  ghost predicate ControllerMeans(d: Disk, x: DiskXml, cs: seq<Controller>) {
    && (d.bus == BUS_SCSI ==> OnModel(x, cs, "lsilogic"))
    && (d.bus == BUS_VIRTIO_SCSI ==> OnModel(x, cs, "virtio-scsi"))
    && (d.bus == BUS_SATA || d.bus == BUS_VIRTIO_BLK ==> x.controller == None)
  }

  ghost predicate OnModel(x: DiskXml, cs: seq<Controller>, model: string) {
    x.controller.Some? && x.controller.value < |cs| && cs[x.controller.value].model == model
  }

  ghost predicate DiskMeans(d: Disk, x: DiskXml, cs: seq<Controller>) {
    StorageMeans(d, x) && WordsMean(d, x) && AliasMeans(d, x) && ControllerMeans(d, x, cs)
  }

  lemma StorageOf(hash: string -> string, ds: seq<Disk>, i: nat)
    requires i < |ds| && PathDriver(ds[i].path) != ""
    ensures StorageMeans(ds[i], ElementAt(VirtxNaming(hash), ds, i))
  {
    DriverIff(ds[i].path);
  }

  lemma WordsOf(n: Naming, ds: seq<Disk>, i: nat)
    requires i < |ds|
    ensures WordsMean(ds[i], ElementAt(n, ds, i))
  {
  }

  lemma AliasOf(n: Naming, ds: seq<Disk>, i: nat)
    requires i < |ds|
    ensures AliasMeans(ds[i], ElementAt(n, ds, i))
  {
    var x, d := ElementAt(n, ds, i), ds[i];
    if 0 <= d.man <= 1 && 0 <= d.prov <= 2 {
      var e := EmitDisks(n, ds[..i]);
      AliasStarts(d, Count(e, CtrlOf(d.bus)));
    }
  }

  lemma AliasStarts(d: Disk, n: nat)
    requires 0 <= d.man <= 1 && 0 <= d.prov <= 2
    ensures (if d.man == DISK_MANAGED then "ua-M_" else "ua-U_") + [ProvLetter(d.prov), '_'] <= Alias(d, n)
  {
    var f := AliasFields(d, n);
    var g := f[1..];
    assert Join(f) == f[0] + ['_'] + Join(g) && Join(g) == g[0] + ['_'] + Join(g[1..]);
    assert f[0] == [if d.man == DISK_MANAGED then 'M' else 'U'] && g[0] == [ProvLetter(d.prov)];
  }

  lemma ControllerOf(n: Naming, ds: seq<Disk>, i: nat)
    requires i < |ds|
    ensures ControllerMeans(ds[i], ElementAt(n, ds, i), EmitDisks(n, ds).controllers)
  {
    Counters(n, ds[..i]);
    if CtrlOf(ds[i].bus) == Scsi { ControllerIs(n, ds, i); }
  }

  lemma EmittedDevices(n: Naming, vm: Vmdef, uuid: string)
    ensures var x, e := DomainOf(n, vm, uuid), EmitDisks(n, Disks(vm));
      x.devices.Some? && x.devices.value.disks == e.disks && x.devices.value.controllers == e.controllers
  {
  }

  /** Every disk of an emitted domain says what its definition says, in disk order. */
  lemma DisksMean(hash: string -> string, vm: Vmdef, uuid: string, arch: string)
    requires ToXml(VirtxNaming(hash), vm, uuid, arch).Ok?
    ensures var x := ToXml(VirtxNaming(hash), vm, uuid, arch).value;
      x.devices.Some? && |x.devices.value.disks| == |Disks(vm)| &&
      forall i | 0 <= i < |Disks(vm)| ::
        DiskMeans(Disks(vm)[i], x.devices.value.disks[i], x.devices.value.controllers)
  {
    var n, ds := VirtxNaming(hash), Disks(vm);
    EmittedDevices(n, vm, uuid);
    Elements(n, ds);
    forall i | 0 <= i < |ds| ensures DiskMeans(ds[i], ElementAt(n, ds, i), EmitDisks(n, ds).controllers) {
      assert n.driver(ds[i].path) != "";
      StorageOf(hash, ds, i);
      WordsOf(n, ds, i);
      AliasOf(n, ds, i);
      ControllerOf(n, ds, i);
    }
  }

  lemma {:induction false} LeasePaths(n: Naming, ds: seq<Disk>)
    ensures forall l | l in EmitDisks(n, ds).leases :: l.path == "/vms/lock/" + l.key + "/" + l.key
  {
    if ds != [] {
      LeasePaths(n, ds[..|ds| - 1]);
    }
  }

  /** Each lease is on the resource file of its key. */
  lemma LeasesMean(hash: string -> string, vm: Vmdef, uuid: string, arch: string)
    requires ToXml(VirtxNaming(hash), vm, uuid, arch).Ok?
    ensures var x := ToXml(VirtxNaming(hash), vm, uuid, arch).value;
      x.devices.Some? && forall l | l in x.devices.value.leases :: l.path == "/vms/lock/" + l.key + "/" + l.key
  {
    LeasePaths(VirtxNaming(hash), Disks(vm));
  }

  // ------------------------------------------------------------ cpus and machine

  lemma ProductBound(a: int, b: int, m: int, n: int)
    requires 0 <= a <= m && 0 <= b <= n
    ensures 0 <= a * b <= m * n
  {
  }

  lemma ProductGrows(a: int, b: int)
    requires a >= 0 && b >= 1
    ensures a <= a * b
  {
  }

  lemma WrappedCount(p: int, threads: int)
    requires 1 <= p <= p * threads <= TWO64 / 4
    ensures Uint64(Int16(Int16(p) * threads)) == p * threads <==> p * threads < TWO16 / 2
  {
    if p * threads < TWO16 / 2 {
      assert Int16(p) == p;
    }
  }

  lemma Fits(sockets: int, cores: int, threads: int)
    requires 1 <= sockets < TWO16 / 2 && 1 <= cores < TWO16 / 2 && 1 <= threads < TWO16 / 2
    ensures 1 <= sockets * cores <= sockets * cores * threads <= TWO64 / 4
  {
    ProductBound(sockets, cores, TWO16 / 2, TWO16 / 2);
    ProductGrows(sockets, cores);
    ProductBound(sockets * cores, threads, TWO32 / 4, TWO16 / 2);
    ProductGrows(sockets * cores, threads);
  }

  lemma EmittedCpus(n: Naming, vm: Vmdef, uuid: string)
    ensures var x := DomainOf(n, vm, uuid);
      && x.vcpus == Uint64(Int16(Int16(vm.sockets * vm.cores) * vm.threads))
      && x.hugepageThreads == if vm.hugepages then Some(x.vcpus) else None
  {
  }

  /** The vcpus are sockets * cores * threads, but only as long as that fits an int16. */
  lemma VcpusIff(hash: string -> string, vm: Vmdef, uuid: string, arch: string)
    requires ToXml(VirtxNaming(hash), vm, uuid, arch).Ok?
    requires 1 <= vm.sockets < TWO16 / 2 && 1 <= vm.cores < TWO16 / 2 && 1 <= vm.threads < TWO16 / 2
    ensures var x := ToXml(VirtxNaming(hash), vm, uuid, arch).value;
      && (x.vcpus == vm.sockets * vm.cores * vm.threads <==> vm.sockets * vm.cores * vm.threads < TWO16 / 2)
      && x.hugepageThreads == if vm.hugepages then Some(x.vcpus) else None
  {
    EmittedCpus(VirtxNaming(hash), vm, uuid);
    Fits(vm.sockets, vm.cores, vm.threads);
    WrappedCount(vm.sockets * vm.cores, vm.threads);
  }

  /** UEFI means a q35 machine and BIOS a pc machine; the parts that carry identity and memory are
      the VM's own. */
  ghost predicate MachineMeans(vm: Vmdef, uuid: string, x: Domain) {
    && x.name == uuid && x.uuid == uuid && x.title == vm.name && x.description == vm.name
    && x.memory == Some(Memory(vm.memory, "MiB"))
    && x.os.Some?
    && (x.os.value.machine == "q35" <==> vm.firmware == FIRMWARE_UEFI)
    && (x.os.value.machine == "pc" <==> vm.firmware == FIRMWARE_BIOS)
    && (x.os.value.firmware == "efi" <==> vm.firmware == FIRMWARE_UEFI)
    && (x.os.value.firmware == "bios" <==> vm.firmware == FIRMWARE_BIOS)
    && (x.os.value.bios <==> vm.firmware == FIRMWARE_BIOS)
    && (x.numaPlacement == Some("auto") <==> vm.placement)
  }

  /** One of libvirt's cpu modes, which it may migrate in two cases, or a model of its own; and a
      generation id that is absent, left to libvirt, or given. */
  ghost predicate CpuMeans(vm: Vmdef, x: Domain) {
    && x.cpu.Some? && x.cpu.value.topology == Some(Topology(vm.sockets, vm.cores, vm.threads))
    && (if vm.cpuModel in {"host-model", "host-passthrough", "maximum"} then
          x.cpu.value.mode == vm.cpuModel && x.cpu.value.model == None
        else x.cpu.value.mode == "" && x.cpu.value.model == Some(vm.cpuModel))
    && (x.cpu.value.migratable == "on" <==> vm.cpuModel in {"host-passthrough", "maximum"})
    && (x.genid == None <==> vm.genid == "")
    && (x.genid == Some("") <==> vm.genid == "auto")
    && (vm.genid != "" && vm.genid != "auto" ==> x.genid == Some(vm.genid))
  }

  lemma MachineIsTheVms(hash: string -> string, vm: Vmdef, uuid: string, arch: string)
    requires ToXml(VirtxNaming(hash), vm, uuid, arch).Ok?
    ensures var x := ToXml(VirtxNaming(hash), vm, uuid, arch).value; MachineMeans(vm, uuid, x) && CpuMeans(vm, x)
  {
  }

  // ------------------------------------------------------------------- networks

  /** A net is a bridge or a libvirt network of its name, in the VM's VLAN if there is one, and
      keeps a MAC address that was asked for. */
  ghost predicate NetMeans(vm: Vmdef, n: Net, x: InterfaceXml) {
    && (n.nettype == NET_BRIDGE <==> x.source == Some(NetSource(Some(n.name), None)))
    && (n.nettype == NET_LIBVIRT <==> x.source == Some(NetSource(None, Some(n.name))))
    && (x.vlanTags == Some([vm.vlanid]) <==> vm.vlanid > 0) && (x.vlanTags == None <==> vm.vlanid <= 0)
    && (x.mac == Some(n.mac) <==> n.mac != "")
    && (n.model == 0 ==> x.model == Some("virtio"))
    && (n.model == 1 ==> x.model == Some("e1000e"))
    && (n.model == 2 ==> x.model == Some("e1000"))
  }

  lemma NetOf(vm: Vmdef, n: Net)
    ensures NetMeans(vm, n, InterfaceOf(vm, n))
  {
  }

  lemma EmittedNets(n: Naming, vm: Vmdef, uuid: string)
    ensures var x := DomainOf(n, vm, uuid);
      x.devices.Some? && x.devices.value.interfaces == Interfaces(vm, vm.nets)
  {
  }

  /** Every interface of an emitted domain says what its definition says, in their order. */
  lemma NetsMean(hash: string -> string, vm: Vmdef, uuid: string, arch: string)
    requires ToXml(VirtxNaming(hash), vm, uuid, arch).Ok?
    ensures var x := ToXml(VirtxNaming(hash), vm, uuid, arch).value;
      x.devices.Some? && |x.devices.value.interfaces| == |vm.nets| &&
      forall i | 0 <= i < |vm.nets| :: NetMeans(vm, vm.nets[i], x.devices.value.interfaces[i])
  {
    EmittedNets(VirtxNaming(hash), vm, uuid);
    forall i | 0 <= i < |vm.nets| ensures NetMeans(vm, vm.nets[i], Interfaces(vm, vm.nets)[i]) {
      NetOf(vm, vm.nets[i]);
    }
  }
}

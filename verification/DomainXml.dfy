/**
 The libvirt domain structures that depend on a VM definition, how To_xml fills
 them and how From_xml reads them (pkg/vmdef/vmdef.go, pkg/metadata/metadata.go).
 A Go nil pointer is None.
 */
module DomainXml {
  import opened GoTypes
  import opened Vmdef

  // ------------------------------------------------------- enumerations as text

  function DeviceString(d: int): string {
    if d == DEVICE_DISK then "disk" else if d == DEVICE_CDROM then "cdrom" else if d == DEVICE_LUN then "lun" else ""
  }

  function DeviceParse(s: string): Option<int> {
    if s == "cdrom" then Some(DEVICE_CDROM) else if s == "disk" then Some(DEVICE_DISK)
    else if s == "lun" then Some(DEVICE_LUN) else None
  }

  function NetModelString(m: int): string {
    if m == 0 then "virtio" else if m == 1 then "e1000e" else if m == 2 then "e1000" else ""
  }

  function NetModelParse(s: string): Option<int> {
    if s == "virtio" then Some(0) else if s == "e1000e" then Some(1) else if s == "e1000" then Some(2) else None
  }

  function FirmwareString(f: int): string {
    if f == FIRMWARE_BIOS then "bios" else if f == FIRMWARE_UEFI then "efi" else ""
  }

  function FirmwareParse(s: string): Option<int> {
    if s == "bios" then Some(FIRMWARE_BIOS) else if s == "efi" then Some(FIRMWARE_UEFI) else None
  }

  function Machine(f: int): string {
    if f == FIRMWARE_BIOS then "pc" else if f == FIRMWARE_UEFI then "q35" else ""
  }

  function ManString(m: int): string {
    if m == DISK_UNMANAGED then "U" else if m == DISK_MANAGED then "M" else ""
  }

  function ManParse(c: char): Option<int> {
    if c == 'U' then Some(DISK_UNMANAGED) else if c == 'M' then Some(DISK_MANAGED) else None
  }

  function ProvString(p: int): string {
    if p == PROV_NONE then "U" else if p == PROV_THIN then "t" else if p == PROV_THICK then "T" else ""
  }

  function ProvParse(c: char): Option<int> {
    if c == 'U' then Some(PROV_NONE) else if c == 't' then Some(PROV_THIN)
    else if c == 'T' then Some(PROV_THICK) else None
  }

  function BusParse(ctrlType: string, ctrlModel: string): Option<int> {
    if ctrlType == "virtio" then Some(BUS_VIRTIO_BLK)
    else if ctrlType == "sata" then Some(BUS_SATA)
    else if ctrlType == "scsi" then Some(if ctrlModel == "virtio-scsi" then BUS_VIRTIO_SCSI else BUS_SCSI)
    else None
  }

  /** Keys of disk_count; NoCtrl is the empty string an invalid bus leaves. */
  datatype Ctrl = Scsi | Sata | Virtio | NoCtrl {
    function Name(): string {
      match this case Scsi => "scsi" case Sata => "sata" case Virtio => "virtio" case NoCtrl => ""
    }
  }

  function CtrlOf(bus: int): Ctrl {
    if bus == BUS_SCSI || bus == BUS_VIRTIO_SCSI then Scsi
    else if bus == BUS_SATA then Sata
    else if bus == BUS_VIRTIO_BLK then Virtio
    else NoCtrl
  }

  function CtrlModel(bus: int): string {
    if bus == BUS_SCSI then "lsilogic" else if bus == BUS_VIRTIO_SCSI then "virtio-scsi" else ""
  }

  predicate UsesIothread(bus: int) { bus == BUS_VIRTIO_SCSI || bus == BUS_VIRTIO_BLK }

  function Itoa(n: nat): (s: string)
    ensures s != ""
  {
    if n < 10 then [('0' as int + n) as char] else Itoa(n / 10) + [('0' as int + n % 10) as char]
  }

  // ---------------------------------------------------------------- structures

  /** `letter` counts from 'a'. */
  datatype Target = Target(prefix: string, letter: nat, bus: string)
  datatype Source = Source(block: Option<string>, file: Option<string>)

  datatype DiskXml = DiskXml(
    device: string, rawIo: bool, driver: string, cache: string, iothread: Option<nat>,
    source: Option<Source>, target: Option<Target>, readOnly: bool,
    bootOrder: Option<nat>, alias: Option<string>, controller: Option<nat>)

  datatype Controller = Controller(ctrl: string, index: nat, model: string, iothread: Option<nat>)
  datatype Lease = Lease(key: string, path: string)
  datatype NetSource = NetSource(bridge: Option<string>, network: Option<string>)
  datatype InterfaceXml = InterfaceXml(
    mac: Option<string>, source: Option<NetSource>, vlanTags: Option<seq<int>>, model: Option<string>)

  datatype Devices = Devices(
    disks: seq<DiskXml>, controllers: seq<Controller>, leases: seq<Lease>, interfaces: seq<InterfaceXml>)

  datatype Topology = Topology(sockets: int, cores: int, threads: int)
  datatype Cpu = Cpu(
    mode: string, model: Option<string>, migratable: string, topology: Option<Topology>, physBits: nat)
  datatype Memory = Memory(value: int, unit: string)
  datatype Os = Os(machine: string, firmware: string, bios: bool)

  datatype Domain = Domain(
    name: string, uuid: string, title: string, description: string,
    genid: Option<string>, metadata: Option<seq<CustomField>>,
    memory: Option<Memory>, hugepageThreads: Option<int>, vcpus: int, iothreads: nat,
    numaPlacement: Option<string>, os: Option<Os>, cpu: Option<Cpu>, devices: Option<Devices>)

  // -------------------------------------------------------------------- To_xml

  /** The counters and slices that To_xml carries through its disk loop. */
  datatype Emitted = Emitted(
    count: map<Ctrl, nat>, iothreads: nat, disks: seq<DiskXml>, leases: seq<Lease>, controllers: seq<Controller>)

  function Count(e: Emitted, c: Ctrl): nat { if c in e.count then e.count[c] else 0 }

  function Join(fields: seq<string>): string {
    if fields == [] then "" else if |fields| == 1 then fields[0] else fields[0] + ['_'] + Join(fields[1..])
  }

  function AliasFields(d: Disk, n: nat): seq<string> {
    [ManString(d.man), ProvString(d.prov), CtrlOf(d.bus).Name(), CtrlModel(d.bus), Itoa(n)]
  }

  /** fmt.Sprintf("ua-%s_%s_%s_%s_%d", ...). */
  function Alias(d: Disk, n: nat): string { "ua-" + Join(AliasFields(d, n)) }

  /** The <disk> element, from the counters before this disk. */
  function DiskElement(d: Disk, driver: string, e: Emitted, order: int): DiskXml {
    var c, lun := CtrlOf(d.bus), d.device == DEVICE_LUN;
    DiskXml(
      DeviceString(d.device), lun, driver, if lun then "directsync" else "none",
      if c == Virtio then Some(e.iothreads + 1) else None,
      Some(if lun then Source(Some(d.path), None) else Source(None, Some(d.path))),
      Some(Target(if c == Virtio then "vd" else if c == NoCtrl then "" else "sd",
                  if c == Virtio then Count(e, Virtio) else Count(e, Scsi) + Count(e, Sata), c.Name())),
      d.device == DEVICE_CDROM,
      if order <= 0 then None else Some(order),
      Some(Alias(d, Count(e, c))),
      if CtrlModel(d.bus) == "" then None else Some(Count(e, c)))
  }

  function ControllerElement(d: Disk, e: Emitted): Controller {
    Controller(CtrlOf(d.bus).Name(), Count(e, CtrlOf(d.bus)), CtrlModel(d.bus),
               if UsesIothread(d.bus) then Some(e.iothreads + 1) else None)
  }

  /** What Disk_to_xml asks of other code: the driver of a path and the lease key of a disk. */
  datatype Naming = Naming(driver: string -> string, key: Disk -> string)

  function VirtxNaming(hash: string -> string): Naming {
    Naming(path => PathDriver(path), (d: Disk) => ResourceName(hash, d.device, d.path))
  }

  function LeaseOf(n: Naming, d: Disk): Lease { Lease(n.key(d), ResourcePath(n.key(d))) }

  /** Disk_to_xml on a disk with an acceptable path. */
  function EmitDisk(n: Naming, e: Emitted, d: Disk, lease: bool, order: int): Emitted {
    var c := CtrlOf(d.bus);
    Emitted(
      e.count[c := Count(e, c) + 1],
      e.iothreads + if UsesIothread(d.bus) then 1 else 0,
      e.disks + [DiskElement(d, n.driver(d.path), e, order)],
      if lease then e.leases + [LeaseOf(n, d)] else e.leases,
      if CtrlModel(d.bus) == "" then e.controllers else e.controllers + [ControllerElement(d, e)])
  }

  /** The next value of boot_order after a prefix of the disks. */
  function BootOrderAfter(ds: seq<Disk>): (n: nat)
    ensures n >= 1 && (ds != [] ==> n > 1)
  {
    if ds == [] then 1
    else if |ds| == 1 || ds[|ds| - 1].device == DEVICE_CDROM then BootOrderAfter(ds[..|ds| - 1]) + 1
    else BootOrderAfter(ds[..|ds| - 1])
  }

  function OrderOf(before: seq<Disk>, d: Disk): int {
    if before == [] || d.device == DEVICE_CDROM then BootOrderAfter(before) else -1
  }

  const CLOUD_INIT_CONTROLLER := Controller("scsi", 0, "virtio-scsi", None)

  /** Before the disk loop: scsi controller 0 is taken by cloud-init. */
  const START := Emitted(map[Scsi := 1], 0, [], [], [CLOUD_INIT_CONTROLLER])

  /** The disk loop of To_xml, as a fold. */
  function EmitDisks(n: Naming, ds: seq<Disk>): Emitted {
    if ds == [] then START
    else
      var before, d := ds[..|ds| - 1], ds[|ds| - 1];
      EmitDisk(n, EmitDisks(n, before), d, d.man != DISK_UNMANAGED, OrderOf(before, d))
  }

  function InterfaceOf(vm: Vmdef, n: Net): InterfaceXml {
    InterfaceXml(
      if n.mac != "" then Some(n.mac) else None,
      if n.nettype == NET_BRIDGE then Some(NetSource(Some(n.name), None))
      else if n.nettype == NET_LIBVIRT then Some(NetSource(None, Some(n.name)))
      else None,
      if vm.vlanid > 0 then Some([vm.vlanid]) else None,
      Some(NetModelString(n.model)))
  }

  function Interfaces(vm: Vmdef, ns: seq<Net>): (r: seq<InterfaceXml>)
    ensures |r| == |ns|
  {
    seq(|ns|, i requires 0 <= i < |ns| => InterfaceOf(vm, ns[i]))
  }

  predicate SpecialCpu(model: string) { model == "host-model" || model == "host-passthrough" || model == "maximum" }

  /** metadata.Vm.To_xml: fields without a name are dropped. */
  function NamedFields(cs: seq<CustomField>): seq<CustomField> {
    if cs == [] then []
    else if cs[|cs| - 1].name == "" then NamedFields(cs[..|cs| - 1])
    else NamedFields(cs[..|cs| - 1]) + [cs[|cs| - 1]]
  }

  /** vmdef_get_vcpus multiplies in int16 before converting to uint. */
  function Vcpus(vm: Vmdef): int { Uint64(Int16(Int16(vm.sockets * vm.cores) * vm.threads)) }

  /** bits.Len64. */
  function Len64(x: nat): nat { if x == 0 then 0 else 1 + Len64(x / 2) }

  /** The physical address limit: enough for the memory in MiB, and at least 36 bits. */
  function PhysBits(total: int): nat {
    var bits := Len64(Uint64(total)) + 20;
    if bits < 36 then 36 else bits
  }

  /** The parts of the domain that no loop computes. */
  function Assemble(vm: Vmdef, uuid: string, e: Emitted, iothreads: nat, nets: seq<InterfaceXml>,
                    fields: seq<CustomField>): Domain {
    Domain(
      uuid, uuid, vm.name, vm.name,
      if vm.genid == "" then None else if vm.genid == "auto" then Some("") else Some(vm.genid),
      Some(fields),
      Some(Memory(vm.memory, "MiB")),
      if vm.hugepages then Some(Vcpus(vm)) else None,
      Vcpus(vm), iothreads,
      if vm.placement then Some("auto") else None,
      Some(Os(Machine(vm.firmware), FirmwareString(vm.firmware), vm.firmware == FIRMWARE_BIOS)),
      Some(Cpu(if SpecialCpu(vm.cpuModel) then vm.cpuModel else "",
               if SpecialCpu(vm.cpuModel) then None else Some(vm.cpuModel),
               if vm.cpuModel == "host-passthrough" || vm.cpuModel == "maximum" then "on" else "",
               Some(Topology(vm.sockets, vm.cores, vm.threads)), PhysBits(vm.memory))),
      Some(Devices(e.disks, e.controllers, e.leases, nets)))
  }

  function DomainOf(n: Naming, vm: Vmdef, uuid: string): Domain {
    var e := EmitDisks(n, Disks(vm));
    Assemble(vm, uuid, e, e.iothreads + |vm.nets|, Interfaces(vm, vm.nets), NamedFields(vm.custom))
  }

  /** To_xml: refuses an unknown architecture and a disk path without a driver. */
  function ToXml(n: Naming, vm: Vmdef, uuid: string, arch: string): Result<Domain, string> {
    if arch != "aarch64" && arch != "x86_64" then Err("invalid architecture")
    else if exists d | d in Disks(vm) :: n.driver(d.path) == "" then Err("invalid Disk Path")
    else Ok(DomainOf(n, vm, uuid))
  }

  // -------------------------------------------------------- what libvirt changes

  /** libvirt keeps memory in KiB. */
  function NormalizeMemory(x: Domain): Domain {
    match x.memory
    case Some(Memory(v, "MiB")) => x.(memory := Some(Memory(v * 1024, "KiB")))
    case _ => x
  }

  /** The migratable XML lacks the firmware attribute. */
  function StripFirmware(x: Domain): Domain {
    if x.os.None? then x else x.(os := Some(x.os.value.(firmware := "")))
  }

  // ------------------------------------------------------------------ From_xml

  /** strings.SplitN(s, sep, n) for n > 0. */
  function SplitN(s: string, sep: char, n: nat): (r: seq<string>)
    requires n > 0
    ensures 1 <= |r| <= n
  {
    var i := IndexOf(s, sep);
    if n == 1 || i == |s| then [s] else [s[..i]] + SplitN(s[i + 1..], sep, n - 1)
  }

  const PANIC := "panic: index out of range"

  /** vmdef_disk_from_xml on a zeroed disk. */
  function DiskFromXml(x: DiskXml): Result<Disk, string> {
    if DeviceParse(x.device).None? then Err("could not parse disk device")
    else if x.source.None? then Err("missing Disk Source")
    else
      var device := DeviceParse(x.device).value;
      var path := if device == DEVICE_LUN then x.source.value.block else x.source.value.file;
      if path.None? then Err(if device == DEVICE_LUN then "missing Disk Block" else "missing Disk File")
      else if x.target.None? then Err("missing Disk Target")
      else if x.alias.None? then Err("missing Disk Alias")
      else if |x.alias.value| < 5 then Err("Disk Alias too short")
      else
        var f := SplitN(x.alias.value[3..], '_', 5);
        if |f| != 5 then Err("invalid Disk Alias")
        else if f[0] == "" then Err(PANIC)
        else if ManParse(f[0][0]).None? then Err("could not parse disk management mode")
        else if f[1] == "" then Err(PANIC)
        else if ProvParse(f[1][0]).None? then Err("could not parse disk provisioning mode")
        else if BusParse(f[2], f[3]).None? then Err("could not parse disk bus")
        else
          Ok(Disk(path.value, device, BusParse(f[2], f[3]).value, ManParse(f[0][0]).value,
                  ProvParse(f[1][0]).value, 0))
  }

  datatype DisksRead = DisksRead(osdisk: Disk, disks: seq<Disk>)

  const ZERO_DISK := Disk("", 0, 0, 0, 0, 0)

  predicate IsPrimary(x: DiskXml) { x.bootOrder == Some(1) }

  /** The disk loop of From_xml: boot order 1 is the primary disk. */
  function DisksFromXml(xs: seq<DiskXml>): Result<DisksRead, string> {
    if xs == [] then Ok(DisksRead(ZERO_DISK, []))
    else
      var before, x := DisksFromXml(xs[..|xs| - 1]), xs[|xs| - 1];
      if before.Err? then before
      else if DiskFromXml(x).Err? then Err(DiskFromXml(x).error)
      else if IsPrimary(x) then Ok(before.value.(osdisk := DiskFromXml(x).value))
      else Ok(before.value.(disks := before.value.disks + [DiskFromXml(x).value]))
  }

  function NetFromXml(x: InterfaceXml): Result<Net, string> {
    if x.source.None? then Err("missing Interface Source")
    else if x.source.value.bridge.None? && x.source.value.network.None? then
      Err("missing Interface Source Bridge or Network")
    else if x.model.None? then Err("missing Interface Model")
    else if NetModelParse(x.model.value).None? then Err("could not parse net model")
    else
      var mac := if x.mac.Some? then x.mac.value else "";
      var model := NetModelParse(x.model.value).value;
      if x.source.value.bridge.Some? then Ok(Net(x.source.value.bridge.value, NET_BRIDGE, model, mac))
      else Ok(Net(x.source.value.network.value, NET_LIBVIRT, model, mac))
  }

  function VlanOf(x: InterfaceXml): int {
    if x.vlanTags.Some? && x.vlanTags.value != [] then Int16(x.vlanTags.value[0]) else 0
  }

  datatype NetsRead = NetsRead(nets: seq<Net>, vlanid: int)

  /** The interface loop of From_xml; the last interface decides the VLAN. */
  function NetsFromXml(xs: seq<InterfaceXml>): Result<NetsRead, string> {
    if xs == [] then Ok(NetsRead([], 0))
    else
      var before, x := NetsFromXml(xs[..|xs| - 1]), xs[|xs| - 1];
      if before.Err? then before
      else if NetFromXml(x).Err? then Err(NetFromXml(x).error)
      else Ok(NetsRead(before.value.nets + [NetFromXml(x).value], VlanOf(x)))
  }

  function FirmwareFromXml(os: Os): int {
    if FirmwareParse(os.firmware).Some? then FirmwareParse(os.firmware).value
    else if os.bios then FIRMWARE_BIOS
    else FIRMWARE_UEFI
  }

  predicate HasCpuModel(cpu: Cpu) { (cpu.mode != "" && cpu.mode != "custom") || cpu.model.Some? }

  function CpuModelOf(cpu: Cpu): string
    requires HasCpuModel(cpu)
  {
    if cpu.mode != "" && cpu.mode != "custom" then cpu.mode else cpu.model.value
  }

  /** From_xml on a zeroed definition. */
  function FromXml(x: Domain): Result<Vmdef, string> {
    if x.cpu.None? || x.cpu.value.topology.None? then Err("missing CPU.Topology")
    else if !HasCpuModel(x.cpu.value) then Err("missing CPU.Mode or CPU.Model")
    else if x.memory.None? then Err("missing Memory")
    else if x.os.None? then Err("missing OS")
    else if x.devices.None? then Err("missing Devices")
    else
      var disks := DisksFromXml(x.devices.value.disks);
      if disks.Err? then Err(disks.error)
      else
        var nets := NetsFromXml(x.devices.value.interfaces);
        if nets.Err? then Err(nets.error)
        else if x.metadata.None? then Err("missing Metadata")
        else
          var t := x.cpu.value.topology.value;
          Ok(Vmdef(
            x.title, CpuModelOf(x.cpu.value), 0, Int16(t.sockets), Int16(t.cores), Int16(t.threads),
            Int32(x.memory.value.value / 1024), x.hugepageThreads.Some?, x.numaPlacement.Some?,
            disks.value.osdisk, disks.value.disks, nets.value.nets, nets.value.vlanid,
            FirmwareFromXml(x.os.value), if x.genid.Some? then x.genid.value else "", x.metadata.value))
  }
}

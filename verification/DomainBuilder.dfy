/**
 To_xml, Disk_to_xml, From_xml and the metadata conversion as the loops they
 are (pkg/vmdef/vmdef.go, pkg/metadata/metadata.go, pkg/hypervisor/cloudinit.go),
 proved against the folds of DomainXml.
 */
module DomainBuilder {
  import opened GoTypes
  import opened Vmdef
  import opened DomainXml
  import opened VmdefLaws
  import DomainNames

  /** The bus switch of Disk_to_xml. */
  method Wiring(bus: int) returns (prefix: string, ctrl: Ctrl, model: string, threaded: bool)
    ensures ctrl == CtrlOf(bus) && model == CtrlModel(bus) && threaded == UsesIothread(bus)
    ensures prefix == if ctrl == Virtio then "vd" else if ctrl == NoCtrl then "" else "sd"
    ensures model != "" <==> ctrl == Scsi
  {
    prefix, ctrl, model, threaded := "", NoCtrl, "", false;
    if bus == BUS_SCSI {
      prefix, ctrl, model := "sd", Scsi, "lsilogic";
    } else if bus == BUS_VIRTIO_SCSI {
      prefix, ctrl, model, threaded := "sd", Scsi, "virtio-scsi", true;
    } else if bus == BUS_SATA {
      prefix, ctrl := "sd", Sata;
    } else if bus == BUS_VIRTIO_BLK {
      prefix, ctrl, threaded := "vd", Virtio, true;
    }
  }

  /** The <disk> literal of Disk_to_xml; `e` is the state it is made in. */
  method DiskToElement(d: Disk, driver: string, prefix: string, letter: nat, ctrl: Ctrl, model: string, index: nat,
                       thread: Option<nat>, order: int, ghost e: Emitted) returns (x: DiskXml)
    requires ctrl == CtrlOf(d.bus) && model == CtrlModel(d.bus) && index == Count(e, ctrl)
    requires prefix == if ctrl == Virtio then "vd" else if ctrl == NoCtrl then "" else "sd"
    requires letter == if ctrl == Virtio then Count(e, Virtio) else Count(e, Scsi) + Count(e, Sata)
    requires thread == if ctrl == Virtio then Some(e.iothreads + 1) else None
    ensures x == DiskElement(d, driver, e, order)
  {
    var lun := d.device == DEVICE_LUN;
    x := DiskXml(
      DeviceString(d.device), lun, driver, if lun then "directsync" else "none", thread,
      Some(if lun then Source(Some(d.path), None) else Source(None, Some(d.path))),
      Some(Target(prefix, letter, ctrl.Name())), d.device == DEVICE_CDROM,
      if order <= 0 then None else Some(order), Some(Alias(d, index)),
      if model == "" then None else Some(index));
  }

  /** The variables that the callers of Disk_to_xml share with it. */
  class Builder {
    var count: map<Ctrl, nat>
    var iothreads: nat
    var disks: seq<DiskXml>
    var leases: seq<Lease>
    var controllers: seq<Controller>

    function State(): Emitted reads this { Emitted(count, iothreads, disks, leases, controllers) }

    constructor (reserved: bool)
      ensures State() == if reserved then START else DomainNames.NOTHING
    {
      iothreads, disks, leases := 0, [], [];
      if reserved {
        count, controllers := map[Scsi := 1], [CLOUD_INIT_CONTROLLER];
      } else {
        count, controllers := map[], [];
      }
    }

    /** A missing key of a Go map reads as 0. */
    function At(c: Ctrl): nat reads this { if c in count then count[c] else 0 }

    method AddController(ctrl: string, index: nat, model: string, threaded: bool)
      modifies this`controllers, this`iothreads
      ensures iothreads == old(iothreads) + if threaded then 1 else 0
      ensures controllers
           == old(controllers) + [Controller(ctrl, index, model, if threaded then Some(iothreads) else None)]
    {
      var thread: Option<nat> := None;
      if threaded {
        iothreads := iothreads + 1;
        thread := Some(iothreads);
      }
      controllers := controllers + [Controller(ctrl, index, model, thread)];
    }

    /** Disk_to_xml. */
    method DiskToXml(n: Naming, d: Disk, lease: bool, order: int) returns (ok: bool)
      modifies this
      ensures ok <==> n.driver(d.path) != ""
      ensures State() == if ok then EmitDisk(n, old(State()), d, lease, order) else old(State())
    {
      ghost var e := State();
      var driver := n.driver(d.path);
      if driver == "" {
        return false;
      }
      var prefix, ctrl, model, threaded := Wiring(d.bus);
      var index := At(ctrl);
      var letter := if ctrl == Virtio then At(Virtio) else At(Scsi) + At(Sata);
      if model != "" {
        AddController(ctrl.Name(), index, model, threaded);
      }
      var thread: Option<nat> := None;
      if ctrl == Virtio && threaded {
        iothreads := iothreads + 1;
        thread := Some(iothreads);
      }
      assert controllers == if CtrlModel(d.bus) == "" then e.controllers else e.controllers + [ControllerElement(d, e)];
      assert iothreads == e.iothreads + if UsesIothread(d.bus) then 1 else 0;
      var x := DiskToElement(d, driver, prefix, letter, ctrl, model, index, thread, order, e);
      disks := disks + [x];
      count := count[ctrl := index + 1];
      if lease {
        leases := leases + [LeaseOf(n, d)];
      }
      return true;
    }

    /** One round of the disk loop of To_xml. */
    method AddDisk(n: Naming, d: Disk, bootOrder: nat) returns (ok: bool, next: nat)
      modifies this
      ensures ok <==> n.driver(d.path) != ""
      ensures ok ==> Added(n, d, bootOrder, old(State()), next, State())
    {
      var order: int := -1;
      next := bootOrder;
      if bootOrder == 1 || d.device == DEVICE_CDROM {
        order := bootOrder;
        next := bootOrder + 1;
      }
      ok := DiskToXml(n, d, d.man != DISK_UNMANAGED, order);
    }
  }

  /** How a round of the disk loop changes the boot order and the rest. */
  ghost predicate Added(n: Naming, d: Disk, bootOrder: nat, e: Emitted, next: nat, e': Emitted) {
    var bootable := bootOrder == 1 || d.device == DEVICE_CDROM;
    && next == (if bootable then bootOrder + 1 else bootOrder)
    && e' == EmitDisk(n, e, d, d.man != DISK_UNMANAGED, if bootable then bootOrder else -1)
  }

  /** metadata.Vm.To_xml: the fields it keeps. */
  method MetadataToXml(cs: seq<CustomField>) returns (fields: seq<CustomField>)
    ensures fields == NamedFields(cs)
    ensures forall f :: f in fields <==> f in cs && f.name != ""
  {
    fields := [];
    for i := 0 to |cs|
      invariant fields == NamedFields(cs[..i])
      invariant forall f :: f in fields <==> f in cs[..i] && f.name != ""
    {
      assert cs[..i + 1][..i] == cs[..i];
      if cs[i].name == "" {
        continue;
      }
      fields := fields + [cs[i]];
    }
    assert cs[..|cs|] == cs;
  }

  /** Where the disk loop stands before disk i. */
  ghost predicate SoFar(n: Naming, ds: seq<Disk>, i: nat, bootOrder: nat, e: Emitted) {
    i <= |ds| && bootOrder == BootOrderAfter(ds[..i]) && e == EmitDisks(n, ds[..i])
  }

  lemma SoFarStep(n: Naming, ds: seq<Disk>, i: nat, bootOrder: nat, e: Emitted, next: nat, e': Emitted)
    requires i < |ds| && SoFar(n, ds, i, bootOrder, e) && Added(n, ds[i], bootOrder, e, next, e')
    ensures SoFar(n, ds, i + 1, next, e')
  {
    var p := ds[..i + 1];
    assert Front(p) == ds[..i] && Last(p) == ds[i];
    DomainNames.EmitSnoc(n, p);
    OrderStep(p);
  }

  lemma OrderStep(p: seq<Disk>)
    requires p != []
    ensures var before := BootOrderAfter(Front(p));
      var bootable := before == 1 || Last(p).device == DEVICE_CDROM;
      && BootOrderAfter(p) == (if bootable then before + 1 else before)
      && OrderOf(Front(p), Last(p)) == if bootable then before else -1
  {
  }

  lemma SoFarStarts(n: Naming, ds: seq<Disk>)
    ensures SoFar(n, ds, 0, 1, START)
  {
    assert ds[..0] == [];
  }

  lemma SoFarEnds(n: Naming, ds: seq<Disk>, bootOrder: nat, e: Emitted)
    requires SoFar(n, ds, |ds|, bootOrder, e)
    ensures e == EmitDisks(n, ds)
  {
    assert ds[..|ds|] == ds;
  }

  /** Every path has a driver. */
  ghost predicate Driven(n: Naming, ds: seq<Disk>) { forall d | d in ds :: n.driver(d.path) != "" }

  lemma DrivenStep(n: Naming, ds: seq<Disk>, i: nat)
    requires i < |ds| && Driven(n, ds[..i])
    ensures Driven(n, ds[..i + 1]) <==> n.driver(ds[i].path) != ""
  {
    assert ds[..i + 1] == ds[..i] + [ds[i]];
  }

  lemma DrivenPrefix(n: Naming, ds: seq<Disk>, i: nat)
    requires i <= |ds|
    ensures Driven(n, ds) ==> Driven(n, ds[..i])
    ensures i == |ds| ==> ds[..i] == ds
  {
  }

  /** The disk loop of To_xml: the counters and slices it leaves, or an error. */
  method DisksToXml(n: Naming, ds: seq<Disk>) returns (ok: bool, b: Builder)
    ensures fresh(b)
    ensures ok <==> Driven(n, ds)
    ensures ok ==> b.State() == EmitDisks(n, ds)
  {
    b := new Builder(true);
    var bootOrder: nat := 1;
    SoFarStarts(n, ds);
    for i := 0 to |ds|
      invariant Driven(n, ds[..i])
      invariant SoFar(n, ds, i, bootOrder, b.State())
    {
      ghost var e := b.State();
      var next;
      ok, next := b.AddDisk(n, ds[i], bootOrder);
      DrivenStep(n, ds, i);
      if !ok {
        DrivenPrefix(n, ds, i + 1);
        return;
      }
      SoFarStep(n, ds, i, bootOrder, e, next, b.State());
      bootOrder := next;
    }
    SoFarEnds(n, ds, bootOrder, b.State());
    DrivenPrefix(n, ds, |ds|);
    ok := true;
  }

  /** The interface loop of To_xml; every interface counts one more iothread. */
  method NetsToXml(vm: Vmdef, iothreads: nat) returns (r: seq<InterfaceXml>, threads: nat)
    ensures r == Interfaces(vm, vm.nets) && threads == iothreads + |vm.nets|
  {
    r, threads := [], iothreads;
    for i := 0 to |vm.nets|
      invariant |r| == i && threads == iothreads + i
      invariant forall k | 0 <= k < i :: r[k] == InterfaceOf(vm, vm.nets[k])
    {
      threads := threads + 1;
      var net := vm.nets[i];
      var mac := if net.mac != "" then Some(net.mac) else None;
      var source: Option<NetSource> := None;
      if net.nettype == NET_BRIDGE {
        source := Some(NetSource(Some(net.name), None));
      } else if net.nettype == NET_LIBVIRT {
        source := Some(NetSource(None, Some(net.name)));
      }
      var vlan := if vm.vlanid > 0 then Some([vm.vlanid]) else None;
      r := r + [InterfaceXml(mac, source, vlan, Some(NetModelString(net.model)))];
    }
  }

  /** To_xml, up to marshalling. */
  method BuildDomain(n: Naming, vm: Vmdef, uuid: string, arch: string) returns (r: Result<Domain, string>)
    ensures r == ToXml(n, vm, uuid, arch)
  {
    if arch != "aarch64" && arch != "x86_64" {
      return Err("invalid architecture");
    }
    var ok, b := DisksToXml(n, Disks(vm));
    if !ok {
      return Err("invalid Disk Path");
    }
    var nets, iothreads := NetsToXml(vm, b.iothreads);
    var fields := MetadataToXml(vm.custom);
    r := Ok(Assemble(vm, uuid, b.State(), iothreads, nets, fields));
  }

  /** get_iso_xml: the lease and the disk of the cloud-init image. */
  method IsoToXml(n: Naming, d: Disk) returns (r: Option<(Lease, DiskXml)>)
    ensures r == if n.driver(d.path) == "" then None
                 else Some((LeaseOf(n, d), DomainNames.CloudInitElement(n, d)))
  {
    var b := new Builder(false);
    var ok := b.DiskToXml(n, d, true, -1);
    if !ok {
      return None;
    }
    if |b.disks| != 1 || |b.leases| != 1 {
      return None;
    }
    r := Some((b.leases[0], b.disks[0]));
  }

  // ---------------------------------------------------------------- From_xml

  lemma ExtendDisksRead(xs: seq<DiskXml>, i: nat)
    requires i < |xs| && DisksFromXml(xs[..i]).Ok?
    ensures DisksFromXml(xs[..i + 1])
         == if DiskFromXml(xs[i]).Err? then Err(DiskFromXml(xs[i]).error)
            else if IsPrimary(xs[i]) then Ok(DisksFromXml(xs[..i]).value.(osdisk := DiskFromXml(xs[i]).value))
            else Ok(DisksFromXml(xs[..i]).value.(
              disks := DisksFromXml(xs[..i]).value.disks + [DiskFromXml(xs[i]).value]))
  {
    assert xs[..i + 1][..i] == xs[..i];
  }

  lemma {:induction false} FailedDisk(xs: seq<DiskXml>, i: nat)
    requires i <= |xs| && DisksFromXml(xs[..i]).Err?
    ensures DisksFromXml(xs) == DisksFromXml(xs[..i])
    decreases |xs|
  {
    if i == |xs| {
      assert xs[..i] == xs;
    } else {
      assert xs[..|xs| - 1][..i] == xs[..i];
      FailedDisk(xs[..|xs| - 1], i);
    }
  }

  /** The disk loop of From_xml. */
  method ReadDisks(xs: seq<DiskXml>) returns (r: Result<DisksRead, string>)
    ensures r == DisksFromXml(xs)
  {
    var osdisk, disks := ZERO_DISK, [];
    for i := 0 to |xs|
      invariant DisksFromXml(xs[..i]) == Ok(DisksRead(osdisk, disks))
    {
      ExtendDisksRead(xs, i);
      var disk := DiskFromXml(xs[i]);
      if disk.Err? {
        FailedDisk(xs, i + 1);
        return Err(disk.error);
      }
      if xs[i].bootOrder.Some? && xs[i].bootOrder.value == 1 {
        osdisk := disk.value;
      } else {
        disks := disks + [disk.value];
      }
    }
    assert xs[..|xs|] == xs;
    r := Ok(DisksRead(osdisk, disks));
  }

  lemma ExtendNetsRead(xs: seq<InterfaceXml>, i: nat)
    requires i < |xs| && NetsFromXml(xs[..i]).Ok?
    ensures NetsFromXml(xs[..i + 1])
         == if NetFromXml(xs[i]).Err? then Err(NetFromXml(xs[i]).error)
            else Ok(NetsRead(NetsFromXml(xs[..i]).value.nets + [NetFromXml(xs[i]).value], VlanOf(xs[i])))
  {
    assert xs[..i + 1][..i] == xs[..i];
  }

  lemma {:induction false} FailedNet(xs: seq<InterfaceXml>, i: nat)
    requires i <= |xs| && NetsFromXml(xs[..i]).Err?
    ensures NetsFromXml(xs) == NetsFromXml(xs[..i])
    decreases |xs|
  {
    if i == |xs| {
      assert xs[..i] == xs;
    } else {
      assert xs[..|xs| - 1][..i] == xs[..i];
      FailedNet(xs[..|xs| - 1], i);
    }
  }

  /** The interface loop of From_xml. */
  method ReadNets(xs: seq<InterfaceXml>) returns (r: Result<NetsRead, string>)
    ensures r == NetsFromXml(xs)
  {
    var nets, vlanid := [], 0;
    for i := 0 to |xs|
      invariant NetsFromXml(xs[..i]) == Ok(NetsRead(nets, vlanid))
    {
      ExtendNetsRead(xs, i);
      var net := NetFromXml(xs[i]);
      if net.Err? {
        FailedNet(xs, i + 1);
        return Err(net.error);
      }
      vlanid := VlanOf(xs[i]);
      nets := nets + [net.value];
    }
    assert xs[..|xs|] == xs;
    r := Ok(NetsRead(nets, vlanid));
  }

  /** From_xml, after unmarshalling, on a zeroed definition. */
  method ReadDomain(x: Domain) returns (r: Result<Vmdef, string>)
    ensures r == FromXml(x)
  {
    if x.cpu.None? || x.cpu.value.topology.None? {
      return Err("missing CPU.Topology");
    }
    var t := x.cpu.value.topology.value;
    var model;
    if x.cpu.value.mode != "" && x.cpu.value.mode != "custom" {
      model := x.cpu.value.mode;
    } else if x.cpu.value.model.Some? {
      model := x.cpu.value.model.value;
    } else {
      return Err("missing CPU.Mode or CPU.Model");
    }
    if x.memory.None? {
      return Err("missing Memory");
    }
    if x.os.None? {
      return Err("missing OS");
    }
    var firmware := FirmwareParse(x.os.value.firmware);
    if firmware.None? {
      firmware := Some(if x.os.value.bios then FIRMWARE_BIOS else FIRMWARE_UEFI);
    }
    if x.devices.None? {
      return Err("missing Devices");
    }
    var disks := ReadDisks(x.devices.value.disks);
    if disks.Err? {
      return Err(disks.error);
    }
    var nets := ReadNets(x.devices.value.interfaces);
    if nets.Err? {
      return Err(nets.error);
    }
    if x.metadata.None? {
      return Err("missing Metadata");
    }
    r := Ok(Vmdef(
      x.title, model, 0, Int16(t.sockets), Int16(t.cores), Int16(t.threads),
      Int32(x.memory.value.value / 1024), x.hugepageThreads.Some?, x.numaPlacement.Some?,
      disks.value.osdisk, disks.value.disks, nets.value.nets, nets.value.vlanid,
      firmware.value, if x.genid.Some? then x.genid.value else "", x.metadata.value));
  }

  // ------------------------------------------------------------------- leases

  /** The managed disks, in order. */
  function ManagedDisks(ds: seq<Disk>): seq<Disk> {
    if ds == [] then []
    else if Last(ds).man == DISK_UNMANAGED then ManagedDisks(Front(ds))
    else ManagedDisks(Front(ds)) + [Last(ds)]
  }

  /** The domain takes one lease per managed disk, in disk order, under that disk's lock name. */
  lemma {:induction false} LeasesAreTheManagedDisks(n: Naming, ds: seq<Disk>)
    ensures |EmitDisks(n, ds).leases| == |ManagedDisks(ds)|
    ensures forall i | 0 <= i < |ManagedDisks(ds)| :: EmitDisks(n, ds).leases[i] == LeaseOf(n, ManagedDisks(ds)[i])
  {
    if ds != [] {
      LeasesAreTheManagedDisks(n, Front(ds));
      DomainNames.EmitSnoc(n, ds);
    }
  }

  /** ManagedDisks keeps every managed disk and invents none. */
  lemma {:induction false} ManagedMeans(ds: seq<Disk>, d: Disk)
    ensures d in ManagedDisks(ds) <==> d in ds && d.man != DISK_UNMANAGED
  {
    if ds != [] {
      ManagedMeans(Front(ds), d);
      assert ds == Front(ds) + [Last(ds)];
    }
  }
}

/**
 VM definitions, their validation and lease names (pkg/vmdef/vmdef.go,
 pkg/model/virtx_model.go, pkg/lockman/lockman.go).  Enumerations are Go int16
 values, so that invalid ones exist.  A string's characters are Go's bytes.
 */
module Vmdef {
  import opened GoTypes

  datatype Disk = Disk(path: string, device: int, bus: int, man: int, prov: int, size: int)
  datatype Net = Net(name: string, nettype: int, model: int, mac: string)
  datatype CustomField = CustomField(name: string, value: string)

  datatype Vmdef = Vmdef(
    name: string,
    cpuModel: string, nodes: int, sockets: int, cores: int, threads: int,
    memory: int, hugepages: bool, placement: bool,
    osdisk: Disk, disks: seq<Disk>, nets: seq<Net>, vlanid: int,
    firmware: int, genid: string, custom: seq<CustomField>)

  const DEVICE_DISK := 0
  const DEVICE_CDROM := 1
  const DEVICE_LUN := 2
  const BUS_VIRTIO_BLK := 0
  const BUS_VIRTIO_SCSI := 1
  const BUS_SATA := 2
  const BUS_SCSI := 3
  const DISK_UNMANAGED := 0
  const DISK_MANAGED := 1
  const PROV_NONE := 0
  const PROV_THIN := 1
  const PROV_THICK := 2
  const NET_LIBVIRT := 0
  const NET_BRIDGE := 1
  const FIRMWARE_BIOS := 0
  const FIRMWARE_UEFI := 1

  const VM_NAME_MAX := 32
  const DISKS_MAX := 20
  const NETS_MAX := 8
  const MAC_LEN := 17
  const GENID_LEN := 36
  const VLAN_MAX := 4094
  const DS_DIR := "/vms/ds/"
  const DEV_DIR := "/dev/"
  const LOCK_DIR := "/vms/lock/"

  /** Osdisk first, then the additional disks. */
  function Disks(vm: Vmdef): seq<Disk> { [vm.osdisk] + vm.disks }

  /** A domain does not hold the sizes of its disks. */
  function Sizeless(ds: seq<Disk>): (r: seq<Disk>)
    ensures |r| == |ds|
  {
    seq(|ds|, i requires 0 <= i < |ds| => ds[i].(size := 0))
  }

  // -------------------------------------------------------------------- paths

  function IndexOf(s: string, c: char): (i: nat)
    ensures i <= |s| && c !in s[..i] && (i < |s| ==> s[i] == c)
    ensures c !in s ==> i == |s|
  {
    if s == [] || s[0] == c then 0 else 1 + IndexOf(s[1..], c)
  }

  /** Slash-separated, and filepath.Clean would not change it. */
  predicate CleanComponents(s: string)
    decreases |s|
  {
    var i := IndexOf(s, '/');
    s[..i] != "" && s[..i] != "." && s[..i] != ".." && (i == |s| || CleanComponents(s[i + 1..]))
  }

  /** filepath.IsAbs(path) && filepath.Clean(path) == path. */
  predicate CleanAbs(path: string) {
    path != "" && path[0] == '/' && (|path| == 1 || CleanComponents(path[1..]))
  }

  predicate HasPrefix(s: string, prefix: string) { prefix <= s }

  /** filepath.Ext: from the last dot of the last element. */
  function Ext(path: string): string {
    if path == "" || path[|path| - 1] == '/' then ""
    else if path[|path| - 1] == '.' then "."
    else
      var e := Ext(path[..|path| - 1]);
      if e == "" then "" else e + [path[|path| - 1]]
  }

  function DiskDriver(path: string): string {
    var ext := Ext(path);
    if ext == ".qcow2" then "qcow2" else if ext == ".iso" || ext == ".raw" then "raw" else ""
  }

  /** Validate_disk_path: the driver for a disk path, "" if the path is not acceptable. */
  function PathDriver(path: string): string {
    if !CleanAbs(path) then ""
    else if HasPrefix(path, DEV_DIR) then "raw"
    else if !HasPrefix(path, DS_DIR) then ""
    else DiskDriver(path)
  }

  // --------------------------------------------------------------- lease names

  function TrimSlashes(path: string): string {
    if path != "" && path[|path| - 1] == '/' then TrimSlashes(path[..|path| - 1]) else path
  }

  function LastElement(path: string): string {
    if path == "" || path[|path| - 1] == '/' then "" else LastElement(path[..|path| - 1]) + [path[|path| - 1]]
  }

  /** filepath.Base. */
  function Base(path: string): string {
    if path == "" then "."
    else
      var p := TrimSlashes(path);
      if p == "" then "/" else LastElement(p)
  }

  function LunKey(key: string): string {
    if HasPrefix(key, "dm-uuid-mpath-") then key[|"dm-uuid-mpath-"|..]
    else if HasPrefix(key, "scsi-") then key[|"scsi-"|..]
    else if HasPrefix(key, "nvme-") then key[|"nvme-"|..]
    else if HasPrefix(key, "wwn-0x") then "3" + key[|"wwn-0x"|..]
    else key
  }

  /** Get_resource_name; `hash` is the hexadecimal md5. */
  function ResourceName(hash: string -> string, device: int, path: string): string {
    if device == DEVICE_LUN then LunKey(Base(path))
    else if device == DEVICE_DISK || device == DEVICE_CDROM then
      hash(if HasPrefix(path, DS_DIR) then path[|DS_DIR|..] else path)
    else ""
  }

  function ResourcePath(name: string): string { LOCK_DIR + name + "/" + name }

  lemma {:induction false} LastElementOf(dir: string, name: string)
    requires '/' !in name
    ensures LastElement(dir + "/" + name) == name
  {
    var p := dir + "/" + name;
    if name != "" {
      var k := |name| - 1;
      assert p[..|p| - 1] == dir + "/" + name[..k];
      LastElementOf(dir, name[..k]);
      assert name == name[..k] + [name[k]];
    }
  }

  lemma BaseOf(dir: string, name: string)
    requires name != "" && '/' !in name
    ensures Base(dir + "/" + name) == name
  {
    LastElementOf(dir, name);
    assert (dir + "/" + name)[|dir + "/" + name| - 1] == name[|name| - 1];
  }

  lemma PrefixedKey(prefix: string, rest: string)
    ensures HasPrefix(prefix + rest, prefix) && (prefix + rest)[|prefix|..] == rest
  {
  }

  lemma LunKeys(wwid: string)
    ensures LunKey("wwn-0x" + wwid) == "3" + wwid
    ensures LunKey("scsi-" + ("3" + wwid)) == "3" + wwid
    ensures LunKey("dm-uuid-mpath-" + ("3" + wwid)) == "3" + wwid
  {
    PrefixedKey("wwn-0x", wwid);
    PrefixedKey("scsi-", "3" + wwid);
    PrefixedKey("dm-uuid-mpath-", "3" + wwid);
    assert ("wwn-0x" + wwid)[0] == 'w' && ("scsi-" + ("3" + wwid))[0] == 's';
    assert forall key | key != "" && key[0] != 'd' :: !HasPrefix(key, "dm-uuid-mpath-");
    assert forall key | key != "" && key[0] != 's' :: !HasPrefix(key, "scsi-");
    assert forall key | key != "" && key[0] != 'n' :: !HasPrefix(key, "nvme-");
  }

  /** The three device names of one multipath LUN lead to one lease, so the same LUN cannot be
      claimed twice under different names. */
  lemma LunAliasesShareOneName(hash: string -> string, dir: string, wwid: string)
    requires '/' !in wwid
    ensures ResourceName(hash, DEVICE_LUN, dir + "/" + ("wwn-0x" + wwid)) == "3" + wwid
    ensures ResourceName(hash, DEVICE_LUN, dir + "/" + ("scsi-" + ("3" + wwid))) == "3" + wwid
    ensures ResourceName(hash, DEVICE_LUN, dir + "/" + ("dm-uuid-mpath-" + ("3" + wwid))) == "3" + wwid
  {
    BaseOf(dir, "wwn-0x" + wwid);
    BaseOf(dir, "scsi-" + ("3" + wwid));
    BaseOf(dir, "dm-uuid-mpath-" + ("3" + wwid));
    LunKeys(wwid);
  }

  // --------------------------------------------------------------- validation

  datatype Outcome = Pass | Fail(message: string)

  function ValidateDisk(d: Disk): Outcome {
    if d.size < 0 then Fail("invalid Disk Size")
    else if PathDriver(d.path) == "" then Fail("invalid Disk Path")
    else if !(0 <= d.device <= 2) then Fail("invalid Disk Device")
    else if !(0 <= d.bus <= 3) then Fail("invalid Disk Bus")
    else if !(0 <= d.prov <= 2) then Fail("invalid Disk Provisioning mode")
    else if !(0 <= d.man <= 1) then Fail("invalid Disk Management mode")
    else if d.device == DEVICE_LUN && d.bus != BUS_VIRTIO_SCSI then Fail("invalid Bus type for Lun")
    else if d.device == DEVICE_CDROM && d.bus == BUS_VIRTIO_BLK then Fail("invalid Bus type for CDROM")
    else Pass
  }

  function ValidateDisks(ds: seq<Disk>): Outcome {
    if ds == [] then Pass else if ValidateDisk(ds[0]).Fail? then ValidateDisk(ds[0]) else ValidateDisks(ds[1..])
  }

  function ValidateNets(ns: seq<Net>): Outcome {
    if ns == [] then Pass
    else if ns[0].mac != "" && |ns[0].mac| != MAC_LEN then Fail("invalid Mac")
    else if !(0 <= ns[0].model <= 2) then Fail("invalid Net model")
    else ValidateNets(ns[1..])
  }

  predicate IsAlnum(s: string) {
    forall c | c in s :: 'A' <= c <= 'Z' || 'a' <= c <= 'z' || '0' <= c <= '9' || c == '_'
  }

  function ValidateCustom(cs: seq<CustomField>): Outcome {
    if cs == [] then Pass
    else if cs[0].name != "" && !(IsAlnum(cs[0].name) && IsAlnum(cs[0].value)) then Fail("invalid Custom Field")
    else ValidateCustom(cs[1..])
  }

  /** The checks before the loops of Validate. */
  function ValidateScalars(vm: Vmdef): Outcome {
    if vm.name == "" || |vm.name| > VM_NAME_MAX then Fail("invalid Name length")
    else if vm.memory < 1 then Fail("invalid memory size")
    else if vm.cpuModel == "" then Fail("no cpu model provided")
    else if vm.sockets < 1 || vm.cores < 1 || vm.threads < 1 then Fail("no cpu topology provided")
    else if vm.threads > 1 then Fail("unsupported cpu topology")
    else if vm.genid != "" && vm.genid != "auto" && |vm.genid| != GENID_LEN then Fail("invalid Genid")
    else if vm.osdisk.path == "" then Fail("no OS Disk")
    else if |vm.disks| > DISKS_MAX then Fail("invalid Disks")
    else if |vm.nets| > NETS_MAX then Fail("invalid Nets")
    else if vm.vlanid < 0 || vm.vlanid > VLAN_MAX then Fail("invalid Vlanid")
    else Pass
  }

  function Validate(vm: Vmdef): Outcome {
    if ValidateScalars(vm).Fail? then ValidateScalars(vm)
    else if ValidateDisks(Disks(vm)).Fail? then ValidateDisks(Disks(vm))
    else if ValidateNets(vm.nets).Fail? then ValidateNets(vm.nets)
    else ValidateCustom(vm.custom)
  }

  /** The fields hold values their Go types can hold. */
  predicate InRange(vm: Vmdef) {
    && vm.sockets == Int16(vm.sockets) && vm.cores == Int16(vm.cores) && vm.threads == Int16(vm.threads)
    && vm.memory == Int32(vm.memory) && vm.vlanid == Int16(vm.vlanid)
  }

  lemma {:induction false} ValidDisksEach(ds: seq<Disk>)
    ensures ValidateDisks(ds).Pass? <==> forall i | 0 <= i < |ds| :: ValidateDisk(ds[i]).Pass?
  {
    if ds != [] {
      ValidDisksEach(ds[1..]);
      assert forall i | 0 < i < |ds| :: ds[i] == ds[1..][i - 1];
    }
  }
}

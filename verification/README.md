# Verification models of VirtX

VirtX runs virtual machines on a set of hosts that share one filesystem and talk
by gossip.  This project models the four parts of it that have to be right in
every interleaving, and one arithmetic part, and proves what they promise.

* **Managed-disk locks.**  A host claims a disk by building a lock file in a
  private directory and renaming it into place, and releases it by a chain of
  commands under a sanlock lease: check-lvb, rm, rmdir.  `LockProtocol` is the
  protocol as single steps of any number of calls on any number of hosts, each
  free to fail or crash; `LockTable` proves that it is an atomic table from
  names to owners, `LockScripts` that every call does its steps and no others.
  `Lvb` is the sector that names the owner, `LockDir` the set-up of the lock
  directory, `HostId` the search for a sanlock host id, `ResourceNames` which
  disks share a lock.
* **The storage lifecycle.**  `Lifecycle` says how creating, updating and
  deleting a VM may end and when that is safe; `World` is the cluster's shared
  state with the single steps on it and their interleavings; `Provision` is what
  creating storage has to do, and `Outcomes` follows the storage operations step
  by step; `Storage` holds the operations as methods on the shared state, where
  other VMs may act between any two steps, and proves that they end that way and
  spare the other VMs; `ClusterSafety` puts any number of VMs together; `Overlap`
  shuffles two updates of one VM.
* **VM definitions as domain XML.**  `Vmdef` is the definition, its validation
  and its lease names, `DomainXml` what To_xml and From_xml compute,
  `DomainBuilder` their loops, `VmdefLaws` the round trip, `DomainNames` the
  freedom from conflicts of all names and numbers, `DomainMeaning` what the
  domain says about its VM, `Validation` which definitions and domains are
  accepted.
* **The replicated inventory.**  `Inventory` is the effect of each message,
  `InventoryStore` the methods that update the maps, `InventoryRuns` and
  `Reconciliation` the properties of whole runs, `Wire` the messages as bytes and
  `WireLayout` their fields.
* **The sbinary codec.**  `Sbinary` is the format, `SbinaryAttempts` what
  encoder and decoder leave behind also when they fail, `SbinaryInPlace` the code
  that writes into a buffer and decodes into given storage, `SbinaryLaws` the
  round trip and its converse, `SbinaryLayout` which byte stands where.
* **Counters and accounting.**  `Resources`.

`dafny verify dfyconfig.toml` checks everything.

## How to read the models

Strings of a definition are sequences of characters that stand for Go's bytes;
uuids on the wire and in the LVB are sequences of bytes.  Go's integer widths
are written out where they matter (`Int16`, `Int32`, `Int64`, `Uint64`).  A Go
nil pointer is `None`; a run-time panic is an error value.  A Go value passed to
sbinary is a `Val`, which carries its own type.

Foreign code is a choice: the outcome of a call to libvirt, sanlock, qemu-img or
the filesystem is nondeterministic, or a parameter (the md5 of `ResourceName`,
the answers of sanlock in `HostId.SearchJoin`).  Assumed of it: rename() replaces
an empty directory but not a non-empty one (System Interfaces volume of
POSIX.1-2017); Go's os.Rename may also refuse an empty one; a sanlock lease is
exclusive per file and ends with its chain; a domain is defined or not, nothing
in between; a new uuid is new; one VM is subject to one operation at a time
(`Overlap` says what happens otherwise).

## Findings

Where a natural claim is false, a lemma gives the failing case and another the
exact condition.

* Accepted VM events do not advance `Ts`, so events do not converge
  (`InventoryRuns.EventsDoNotConverge`); `InventoryRuns.ConvergenceIff` is the
  exact condition, for host and VM information, events and member changes.
* A dead VM that was never indexed is never collected
  (`Reconciliation.OrphansAreNotCollected`).  A round brings the index in line
  with the live VMs exactly if it is current (`Reconciliation.RoundReconcilesIff`),
  and the records exactly under the conditions of `Reconciliation.RoundClearsIff`.
* Turning a retained disk from unmanaged to managed claims no lock
  (`Lifecycle.FlippingBreaks`); a definition that did not reach the registry
  makes the next update unsafe (`Lifecycle.StaleRegistryBreaks`,
  `Lifecycle.DepartingNameBreaks`).  For both, `Lifecycle.UpdateSafeIff` is the
  exact condition.
* Overlapping updates of one VM can release a lock that is needed
  (`Overlap.DroppedDiskBreaks`, `Overlap.RepeatedPathBreaks`); exact conditions,
  for every shuffle of their steps, are `Overlap.OverlapSafeIff` when both read
  the same definition and `Overlap.LateReaderSafeIff` when the second reads what
  the first defined.
* Deleting a VM with its storage cannot release the lock of a managed cdrom
  (`Outcomes.UndeletableKeepsLock`); `Outcomes.CleanDeletionIff` with
  `Outcomes.DeletableIff` is the exact condition for a deletion without a warning.
* The vcpus of a domain are sockets times cores times threads exactly if that fits
  an int16 (`DomainMeaning.VcpusIff`).
* A Delete_resource that reports an error may have released the lock
  (`LockTable.ErrorAfterRelease`), exactly if the error is rmdir's
  (`LockTable.ErrorMeansReleasedIff`).
* An exported pointer field is encoded but never decoded
  (`SbinaryLaws.PointerFieldNeverDecodes`); `SbinaryLaws.DecodesIff` says which
  types decode at all.  For types without fixed arrays the round trip holds
  exactly for lengths below 65536 (`SbinaryLaws.RoundTripIff`).
* Validate looks neither at network types nor at the firmware: the round trip
  through the domain, and registration of what it gives, succeed exactly if all
  network types are valid, and an unknown firmware comes back as UEFI
  (`VmdefLaws.RoundTrip`, `VmdefLaws.RegisterAcceptsIff`).
* The LVB names an owner faithfully exactly if its uuid fits the sector and holds
  no zero byte (`Lvb.TextOfBlock`).

## Model

| member | source | states |
|---|---|---|
| LockProtocol.InvStep | pkg/lockman/lockman.go:374-604 | The protocol invariant survives every step of every call: a visible file carries the complete LVB of the one successful call that made it, a chain that holds a lease still finds its file at the path, and nothing is leased but to a chain under way |
| LockProtocol.OneHolder | pkg/lockman/lockman.go:571-604 | Two chains that may still remove the file of one resource are the same chain |
| LockTable.StepRefinesTable | pkg/lockman/lockman.go:374-604 | Every step of every interleaving is a claim of a free name, a release by the owner, or leaves the table of locks alone |
| LockTable.EveryRunAlternates | pkg/lockman/lockman.go:374-446 | Over every run, per name, creates and removals alternate, each removal is by the VM of the create before it, and the lock exists exactly if the last was a create; so of racing creators at most one succeeds per generation |
| LockTable.RunAlternates | pkg/lockman/lockman.go:374-446 | The same from any reachable state |
| LockTable.ResultsTell | pkg/lockman/lockman.go:374-446 | Create_resource succeeds exactly if it claimed the lock, once; a successful Delete_resource released it once; other chains change nothing |
| LockTable.ErrorMeansReleasedIff | pkg/lockman/lockman.go:431-446 | Wherever in a run a Delete_resource reports an error, it has released the lock if and only if the error is that of rmdir |
| LockTable.RmRemovesOwnFile | pkg/lockman/lockman.go:431-446 | At the rm, the file at the path is there, names the chain's VM, and was made by a create of that VM |
| LockTable.RmdirNeverRemovesAFile | pkg/lockman/lockman.go:431-446 | When a create lands between rm and rmdir the rmdir cannot succeed, and whether it fails or succeeds no lock changes |
| LockTable.WorkUnderOwnership | pkg/lockman/lockman.go:571-604 | Commands on a disk run only while their VM owns the resource, and no other chain holds or can get the lease |
| LockScripts.EveryCallFollowsItsScript | pkg/lockman/lockman.go:374-604 | Over every run, a call that succeeded took exactly the steps of its script (all of Create_resource; or check-lvb, every command given, then rm and rmdir if it removes), in order and once each; one that failed or died took a proper part of them; one under way took those before its next step |
| LockScripts.WorkIsDone | pkg/lockman/lockman.go:571-604 | Over every run, a chain that succeeded, or is at its rm or rmdir, has made all its commands on the disk; one at its k-th command, or failing there, exactly the first k |
| LockScripts.CallsCanSucceed | pkg/lockman/lockman.go:374-604 | From every reachable state, a create can succeed if its name is free, and a chain if its VM owns the resource and no one has its lease |
| LockTable.ForeignRunsKeepMine | cmd/virtx-check-lvb/main.go:47-61 | No run of calls of other VMs adds or removes a lock of this VM |
| LockTable.ErrorAfterRelease | pkg/lockman/lockman.go:431-446 | It does happen: once another create takes the name between rm and rmdir, the chain can only report an error |
| LockDir.OneLockDir | pkg/lockman/lockman.go:131-197 | Over every run the lock directory appears at most once, complete, never changes, and is there for every host whose initialization succeeded |
| LockDir.OneRename | pkg/lockman/lockman.go:131-197 | Over every run at most one rename takes effect; a host reports success exactly if it made that rename, found the directory, or lost the race; and what everybody sees is the directory of the host that made it |
| Lvb.LockFile.SetLvb | pkg/lockman/lockman.go:492-507 | Only the LVB sector changes, to the uuid cut or padded to a block |
| Lvb.LockFile.ReadLvb | pkg/lockman/lockman.go:509-534 | Returns the sector up to its first zero byte, or an error on a short file |
| Lvb.LockFile.Check | cmd/virtx-check-lvb/main.go:34-61 | Exits with 0 exactly if the uuid is not empty and the LVB reads back as it |
| Lvb.SectorHolds | pkg/lockman/lockman.go:492-507 | Byte i of the uuid is byte i of sector 2002, zeros fill the rest of the sector, and no other byte of the file changes |
| Lvb.SetThenRead | pkg/lockman/lockman.go:492-534 | Reading returns what was set if and only if the uuid fits the block and has no zero byte |
| Lvb.TextOfBlock | pkg/lockman/lockman.go:492-534 | The same for one block |
| Lvb.CheckIdentifiesOwner | cmd/virtx-check-lvb/main.go:47-61 | Set for one VM, the check passes for exactly that VM |
| HostId.BusyTable | pkg/lockman/lockman.go:289-296 | An id is busy exactly if some line gives it a timestamp; an id off the table panics |
| HostId.FirstFree | pkg/lockman/lockman.go:297-306 | The first search ends in 1..2000, reports "all busy" exactly if every slot is busy, and otherwise stops at the first free slot in cyclic order |
| HostId.FirstFreeIff | pkg/lockman/lockman.go:297-306 | That slot is the least free id from the start on, or, if those are all busy, the least free id |
| HostId.SearchJoin | pkg/lockman/lockman.go:266-321 | A returned id was not busy and its join returned 0; another error stops the search with it; "busy2" exactly if every free slot was tried and answered HOSTID_BUSY |
| Storage.Cluster.CreateResource | pkg/lockman/lockman.go:374-426 | Success adds a name that was free in the whole table, failure changes nothing; as for every method below, all steps made meanwhile are in the trace, each one leaving the definitions and the locks of other VMs alone |
| Storage.Cluster.DeleteResource | pkg/lockman/lockman.go:431-446 | Success removes a name the VM owned; failure may have removed it too; no other VM loses anything |
| Storage.Cluster.DeleteDisk | pkg/storage/storage.go:143-149 | As DeleteResource, but a device without a delete operation fails and keeps its lock |
| Storage.Cluster.DefineDomain | pkg/hypervisor/domain.go:118-144 | A successful definition may miss the registry; no lock and no other VM changes |
| Storage.Cluster.DeleteDomain | pkg/hypervisor/domain.go:490-531 | The same for undefining |
| Storage.Cluster.CreateDisk | pkg/storage/storage.go:126-132 | Making a disk is a step of the VM; it needs an operation for the device, and touches no lock and no definition |
| Storage.Cluster.Detect | pkg/storage/storage.go:134-141 | Looking at a disk may set its provisioning and size, and changes nothing else |
| Storage.Cluster.CreateOne | pkg/storage/storage.go:66-86 | One disk: nothing for a path the VM has; otherwise it claims its name exactly if it is managed, and then makes it if it asks for storage and looks at it if not; a failing step ends it |
| Provision.NewMeans | pkg/storage/storage.go:66-69 | The disks of new paths are those whose path the other definition lacks |
| Provision.PlanMeans | pkg/storage/storage.go:60-88 | The plan for a definition claims exactly the names of the managed disks of new paths; of the disks of new paths, in order and once each, it makes exactly those that are managed and ask for storage and looks at all others; each claim stands right before the work on its disk, and nothing is made without one |
| Storage.Cluster.Create | pkg/storage/storage.go:60-88 | Claims, in order, a prefix of the names of the new managed disks, all of them on success; they were free and are distinct; its steps are the plan on success, and otherwise the plan up to one step that failed; disks are made only under their locks; the VM loses nothing at any moment |
| Storage.Cluster.Rollback | pkg/storage/storage.go:43-54 | Tries every created name and removes all of them if no deletion fails; no other lock of this or any VM goes, and no disk is erased |
| Storage.Cluster.Delete | pkg/storage/storage.go:94-120 | Tries every departing managed disk whatever failed before and reports the first failure; no other lock of this or any VM goes; without a failure the names were different and there was an operation for every disk; disks are erased exactly if the caller asked for it |
| Storage.Cluster.Provide | pkg/virtx/vm_update.go:90-97 | Create, and on failure Rollback: everything is claimed and the plan carried out, or only locks claimed here and not released again remain |
| Storage.Cluster.VmUpdate | pkg/virtx/vm_update.go:71-121 | Ends as `Outcomes.UpdateOutcome` says: a failing update keeps definition and locks at every moment and a clean rollback restores the VM; an accepted one tries every departing disk; its steps begin with the plan for the disks that were asked for, carried out before the domain is defined |
| Storage.Cluster.VmCreate | pkg/virtx/vm_create.go:50-84 | Ends as `Outcomes.CreateOutcome` says; a failure with a clean rollback leaves no lock; the plan for the disks that were asked for is carried out before the domain is defined |
| Storage.Cluster.VmDelete | pkg/virtx/vm_delete.go:62-90 | Ends as `Outcomes.DeleteOutcome` says; no lock goes while the VM is defined |
| Storage.Cluster.Serve | pkg/virtx/vm_update.go:33-122 | Whatever is requested for a VM, one after the other, its steps are a life in the sense of `ClusterSafety.Lived`, while other VMs are served at the same time |
| Storage.Cluster.Others | pkg/virtx/vm_update.go:90-113 | Arbitrary steps of other VMs leave this VM as it is |
| World.OwnStepIsAtomic | pkg/lockman/lockman.go:374-446 | On the locks, every step of an operation is a step of the atomic table for that VM, or none |
| World.OwnStepSparesOthers | pkg/storage/storage.go:43-120 | No step of one VM changes anything of another |
| World.NoCdromIsMade | pkg/storage/vdisk.go:181-192 | In every interleaving, only images and LUNs are ever made |
| World.ViewIsOwn | pkg/storage/storage.go:43-120 | In every interleaving of any number of VMs, each VM is as its own last step left it |
| ClusterSafety.EveryVmIsSafe | pkg/virtx/vm_update.go:90-113 | In every interleaving of creations, updates and deletions of any number of VMs, each call free to fail and each operation free to be cut short, at every moment every managed disk of every defined VM has its lock owned by that VM, and no two defined VMs need one lock, if updates keep management mode and device of the paths they retain and the registry is written |
| ClusterSafety.OrderlyVmIsSafe | pkg/virtx/vm_create.go:63-84 | A VM whose own updates keep identities is safe at every moment, whatever other VMs do |
| ClusterSafety.TableIsExact | pkg/virtx/vm_delete.go:78-84 | When nothing was left behind, the lock table holds exactly what the defined VMs need, each lock under the VM that needs it |
| ClusterSafety.OthersTakeNoLock | pkg/storage/storage.go:43-120 | Between its own steps a VM neither loses nor gains a lock |
| ClusterSafety.UpdateIsSafeThroughout | pkg/virtx/vm_update.go:90-113 | An update that keeps identities leaves the VM safe at every moment, whether it is accepted or fails at any point |
| ClusterSafety.StepKeepsVmInv | pkg/virtx/vm_update.go:90-113 | Whenever the registry is up to date, an operation may also stop there, as when the daemon dies, and others may follow |
| ClusterSafety.LifeIsExact | pkg/virtx/vm_update.go:90-113 | After a tidy life a VM owns exactly the locks of its definition |
| Outcomes.CleanDeletionIff | pkg/storage/storage.go:143-149 | Deleting a VM can end without a warning if and only if it owns all the locks it needs, under different names, and, when its storage goes too, there is an operation for every managed disk |
| Outcomes.DeletableIff | pkg/storage/vdisk.go:181-192 | With the storage, there is an operation for exactly the disks that are images or LUNs; without it, nothing is needed |
| Outcomes.UndeletableKeepsLock | pkg/storage/vdisk.go:181-192 | The lock of a managed cdrom stays when its VM is deleted with its storage, and the caller is warned |
| Storage.RegistryGivesBack | pkg/virtx/vm_update.go:77-89 | From_xml of what To_xml stored, with or without the firmware attribute, has the disks of the definition but for their sizes |
| Storage.LeasesAreTheLocks | pkg/vmdef/vmdef.go:592-601 | The leases of a domain are exactly the locks that its definition needs |
| Lifecycle.UnsharedMeans | pkg/storage/storage.go:66-77 | The list of names to claim or release holds exactly those of managed disks whose path the other definition lacks |
| Lifecycle.StepKeepsInv | pkg/virtx/vm_create.go:63-84 | One operation keeps the VM safe and one path per lock name |
| Lifecycle.SafeDuringUpdate | pkg/virtx/vm_update.go:90-113 | A VM is safe at every moment of an identity-keeping update |
| Lifecycle.NoSharedDisk | pkg/virtx/vm_create.go:63-84 | Two safe VMs need no common lock name |
| Lifecycle.UpdateSafeIff | pkg/virtx/vm_update.go:90-113 | From any registry contents and for a VM with any locks, an update without failed deletions ends safe if and only if no managed disk of the new definition has the name of a departing one and every retained one finds its name among those owned or claimed |
| Lifecycle.BackedUpdateIsSafe | pkg/virtx/vm_update.go:90-113 | The same condition suffices whichever deletions fail |
| Lifecycle.KeepingIdentityBacks | pkg/vmdef/vmdef.go:54-61 | Keeping management mode and device of retained paths meets the condition |
| Lifecycle.BackedIffLocksKept | pkg/vmdef/vmdef.go:54-61 | If within both definitions a name stands for one path, and the VM owns what the registry says, the condition is exactly that managed disks of retained paths were managed before under the same lock |
| ResourceNames.CleanIff | pkg/vmdef/vmdef.go:88-101 | A path is left alone by filepath.Clean exactly if no component is empty, "." or ".." |
| ResourceNames.FilesShareIff | pkg/lockman/lockman.go:643-650 | Two images or cdroms with acceptable paths share a lock exactly if they have one path, if md5 does not collide |
| ResourceNames.LunKeyIff | pkg/lockman/lockman.go:622-642 | The lock of a LUN is the key that its udev name belongs to, under each of the four prefixes |
| ResourceNames.LunsShareIff | pkg/lockman/lockman.go:630-642 | Two LUNs share a lock exactly if their names belong to one key, whatever their directories |
| ResourceNames.NamesTell | pkg/lockman/lockman.go:624-654 | Among validated disks whose LUNs have a path each and no md5 as a key, a lock is for one path, and for files or for LUNs |
| ResourceNames.BackedIffKindsKept | pkg/virtx/vm_update.go:90-113 | With the names of lockman, an update of such disks is safe exactly if retained paths stay managed and none turns from a LUN into a file or back |
| Lifecycle.UpdateKeepsOnePath | pkg/storage/storage.go:66-77 | An accepted update gives no two paths one lock name |
| Lifecycle.UpdateIsExact | pkg/virtx/vm_update.go:90-113 | Exact ownership of the old definition becomes exact ownership of the new one |
| Lifecycle.DeleteSparesTheNew | pkg/storage/storage.go:94-120 | The names Delete tries are not needed by the new definition |
| Lifecycle.CreateIsExact | pkg/virtx/vm_create.go:63-84 | An accepted creation owns exactly what it needs; a failed one leaves nothing but its own leftovers |
| Lifecycle.FlippingBreaks | pkg/storage/storage.go:66-69 | A retained disk that becomes managed gets no lock |
| Lifecycle.StaleRegistryBreaks | pkg/virtx/vm_update.go:77-97 | An update from a stale registry leaves a managed disk without its lock |
| Overlap.DroppedDiskBreaks | pkg/virtx/vm_update.go:33-122 | The first update drops a disk, the second keeps it and ends without its lock |
| Overlap.OverlapSafeIff | pkg/virtx/vm_update.go:33-122 | Of two updates that read the same definition, their single steps shuffled in any way, the VM ends safe if and only if the first drops no path that the second retains (unless the second claims its name), the second does not give up what it claims, and no name the second needs is lost, that is, released by the first after the second claimed it |
| Overlap.OverlapSafeIffSpared | pkg/virtx/vm_update.go:33-122 | If the first releases no name twice that the second claims, the two definitions decide, in every shuffle |
| Overlap.NothingIsLost | pkg/storage/storage.go:94-120 | A name is lost only if the first update releases it twice |
| Overlap.LateReaderSafeIff | pkg/virtx/vm_update.go:77-113 | If the second reads the registry after the first has defined, while the first still deletes, the VM ends safe if and only if no name the second needs is lost; so always if no name is released twice that it claims |
| Overlap.OwnedAfterBoth | pkg/virtx/vm_update.go:90-113 | What the VM owns after any shuffle |
| Overlap.ActsAreOwnSteps | pkg/virtx/vm_update.go:90-113 | The steps that are shuffled are steps of the VM on the cluster |
| Overlap.RepeatedPathBreaks | pkg/vmdef/vmdef.go:173-179 | With a path listed twice, a name can be lost although the definitions spare each other |
| Lifecycle.DepartingNameBreaks | pkg/storage/storage.go:94-120 | With a stale registry an update can claim a lock for a new path and then delete it |
| Vmdef.ValidDisksEach | pkg/vmdef/vmdef.go:173-179 | The validation loop passes exactly if every disk does |
| Vmdef.LunAliasesShareOneName | pkg/lockman/lockman.go:624-654 | The wwn, scsi and multipath names of one LUN lead to one lock |
| DomainBuilder.Builder.DiskToXml | pkg/vmdef/vmdef.go:201-354 | Refuses exactly the paths without a driver; otherwise leaves counters, disks, controllers and leases as the specification says |
| DomainBuilder.DisksToXml | pkg/vmdef/vmdef.go:563-601 | The disk loop with its boot order is the fold of the specification |
| DomainBuilder.NetsToXml | pkg/vmdef/vmdef.go:602-652 | The interface loop |
| DomainBuilder.MetadataToXml | pkg/metadata/metadata.go:33-54 | Keeps exactly the fields with a name, in order |
| DomainBuilder.BuildDomain | pkg/vmdef/vmdef.go:426-770 | To_xml up to marshalling, for the parts that depend on the definition |
| DomainBuilder.IsoToXml | pkg/hypervisor/cloudinit.go:125-169 | One lease and one disk, made from empty counters |
| DomainBuilder.ReadDisks | pkg/vmdef/vmdef.go:836-849 | The disk loop of From_xml: order, primary disk and first error |
| DomainBuilder.ReadNets | pkg/vmdef/vmdef.go:850-882 | The interface loop of From_xml |
| DomainBuilder.ReadDomain | pkg/vmdef/vmdef.go:772-895 | From_xml after unmarshalling |
| DomainBuilder.LeasesAreTheManagedDisks | pkg/vmdef/vmdef.go:592-601 | One lease per managed disk, in disk order |
| VmdefLaws.SplitJoin | pkg/vmdef/vmdef.go:386-392 | Splitting a joined alias gives back its fields when none but the last contains the separator |
| VmdefLaws.AliasReadsBack | pkg/vmdef/vmdef.go:332-335 | The alias that To_xml formats splits into the five fields it was made of |
| VmdefLaws.DiskReadBack | pkg/vmdef/vmdef.go:356-410 | A disk comes back from its element, without its size |
| VmdefLaws.DisksReadBack | pkg/vmdef/vmdef.go:836-849 | So does the whole list, in order, with the primary disk found by boot order |
| VmdefLaws.RoundTrip | pkg/vmdef/vmdef.go:772-895 | From_xml of what libvirt keeps of To_xml's domain, with or without the firmware attribute, is the canonical form if and only if all network types are valid |
| VmdefLaws.ValidatedIsEmitted | pkg/vmdef/vmdef.go:579-601 | To_xml accepts every validated definition |
| VmdefLaws.MemoryIsAddressable | pkg/vmdef/vmdef.go:461-471 | The physical address limit covers the memory, and is the least that does unless it is the minimum |
| VmdefLaws.ValidationIsStable | pkg/vmdef/vmdef.go:141-199 | The canonical form of a validated definition validates, and is its own canonical form |
| VmdefLaws.RegisterAcceptsIff | pkg/virtx/vm_register.go:92-142 | From_xml and Validate accept what To_xml stored of a validated definition if and only if all its network types are valid |
| DomainMeaning.DriverIff | pkg/vmdef/vmdef.go:70-102 | Exactly the clean paths below the data stores that end in .qcow2 are qcow2; exactly those that end in .raw or .iso, and the clean paths below /dev/, are raw; all others are refused |
| DomainMeaning.EmittedIff | pkg/vmdef/vmdef.go:426-459 | To_xml accepts exactly the definitions whose disks all have such paths, on the two architectures |
| DomainMeaning.DisksMean | pkg/vmdef/vmdef.go:201-354 | In the emitted domain, in disk order: qcow2 images are read as qcow2 and everything else as raw, exactly cdroms are read-only, exactly LUNs have raw I/O, a block source and directsync, and device, bus, controller model and alias are the words for the disk's |
| DomainMeaning.LeasesMean | pkg/vmdef/vmdef.go:412-422 | Each lease is on the resource file of its key |
| DomainMeaning.VcpusIff | pkg/vmdef/vmdef.go:66-68 | The vcpus, and the threads that allocate hugepages, are sockets times cores times threads exactly if that fits an int16 |
| DomainMeaning.MachineIsTheVms | pkg/vmdef/vmdef.go:450-546 | The machine is q35 exactly for UEFI and pc exactly for BIOS; name, title, memory, placement, cpu mode or model, topology and generation id are the VM's |
| DomainMeaning.NetsMean | pkg/vmdef/vmdef.go:602-652 | In order, each interface has the bridge or network, the VLAN, the MAC address and the model of its net |
| Validation.ValidateAcceptsIff | pkg/vmdef/vmdef.go:104-199 | Validate accepts exactly the definitions whose scalars, disks, nets and custom fields are good, with every limit written out; it asks nothing of firmware and network types |
| Validation.ReadIff | pkg/vmdef/vmdef.go:772-895 | From_xml reads exactly the domains in which no part is missing; the cpu model is the mode, or the named model if the mode is none or "custom" |
| DomainNames.TargetsAreDistinct | pkg/vmdef/vmdef.go:232-244 | Target names are pairwise distinct and within one letter |
| DomainNames.AliasesAreDistinct | pkg/vmdef/vmdef.go:332-335 | Aliases are pairwise distinct, as strings |
| DomainNames.ControllersAreNumbered | pkg/vmdef/vmdef.go:245-263 | Controllers are numbered without gaps after the one for cloud-init |
| DomainNames.ScsiDisksAreWired | pkg/vmdef/vmdef.go:245-263 | Every scsi disk has a controller of its own model to itself |
| DomainNames.ThreadsAreAssigned | pkg/vmdef/vmdef.go:245-292 | Exactly the virtio disks have an iothread, each its own, within the count |
| DomainNames.BootOrdersHaveNoGaps | pkg/vmdef/vmdef.go:577-591 | The primary disk and the cdroms, and only they, get boot orders 1..k in order |
| DomainNames.ValidatedIsConflictFree | pkg/vmdef/vmdef.go:563-601 | All of this for every validated definition |
| DomainNames.CloudInitIsApart | pkg/hypervisor/cloudinit.go:125-142 | The cloud-init disk is sda on scsi controller 0, which exists and no other disk uses; its name and alias are taken by none |
| Inventory.IndexNeverLies | pkg/inventory/inventory.go:185-274 | In every reachable state an indexed VM exists and is on that host, so it is indexed once |
| InventoryRuns.IndexExact | pkg/inventory/inventory.go:185-274 | A VM is missing from its known host's index exactly if its last accepted message predates that host |
| InventoryRuns.IndexIsScanWithoutOrphans | pkg/inventory/search.go:89-139 | The index is the scan by host without the orphans |
| InventoryRuns.AcceptedMessageRepairs | pkg/inventory/inventory.go:237-254 | Any accepted message that keeps an orphan repairs its entry |
| InventoryRuns.HostTsIsMaximum | pkg/inventory/inventory.go:139-160 | A known host's Ts is the largest ever delivered for it |
| InventoryRuns.VmTsIsMaximumSinceAbsent | pkg/inventory/inventory.go:185-234 | A VM's Ts is the largest of the VmInfos delivered since it was last absent |
| InventoryRuns.LastAbsentMeans | pkg/inventory/inventory.go:185-210 | What "last absent" means |
| InventoryRuns.Convergence | pkg/inventory/inventory.go:139-254 | The same settled messages, events and member changes included, in any order and multiplicity give the same records, and the same indices but for orphans |
| InventoryRuns.ConvergenceIff | pkg/inventory/inventory.go:139-234 | For any messages whatever, every order of delivery gives the same records if and only if no two different messages tie for newest, every event is older than its VM's newest information or agrees with it, and every member change agrees with its host's |
| InventoryRuns.LastNewestWins | pkg/inventory/inventory.go:219-234 | Information that is newest on its topic is the record when it comes last |
| InventoryRuns.EventsDoNotConverge | pkg/inventory/inventory.go:185-210 | Two disagreeing events that are both late enough: the last delivered wins |
| Reconciliation.RoundReconciles | pkg/hypervisor/systeminfo.go:362-382 | After a full round the index of the host is exactly its live set, and no live VM is indexed elsewhere |
| Reconciliation.RoundReconcilesIff | pkg/serfcomm/serfcomm.go:233-263 | It is so if and only if no ghost is newer than the round and every newer live VM is indexed already |
| Reconciliation.NewerRecordIsFrozen | pkg/inventory/inventory.go:185-234 | Older messages leave a record and its index entry alone |
| Reconciliation.OrphansAreNotCollected | pkg/hypervisor/systeminfo.go:362-382 | A dead VM of the host that is not indexed is no candidate of delete_ghosts, and stays as long as no message names it |
| Reconciliation.RoundClearsIff | pkg/hypervisor/systeminfo.go:354-382 | After a full round the records have exactly the live VMs on the host if and only if no record of a live VM is newer and says otherwise, and every dead VM of the host is named by a message as new as its record |
| Reconciliation.RoundWithoutOrphansClearsIff | pkg/hypervisor/systeminfo.go:354-382 | For a round that names no orphan: exactly if every dead VM of the host is indexed and none is newer than the round |
| InventoryStore.Store.UpdateHost | pkg/inventory/inventory.go:139-160 | The in-place update has the specified effect, and keeps the index of a known host |
| InventoryStore.Store.SetHostState | pkg/inventory/inventory.go:169-177 | The same for the state, with an error for an unknown host |
| InventoryStore.Store.UpdateVm | pkg/inventory/inventory.go:219-235 | The same for a VM |
| InventoryStore.Store.UpdateVmState | pkg/inventory/inventory.go:185-210 | The same for an event, with deletion |
| InventoryStore.Store.UpdateHostdataVm | pkg/inventory/inventory.go:237-254 | The VM moves between the two index sets, and no other set changes |
| InventoryStore.Store.DeleteHostdataVm | pkg/inventory/inventory.go:256-274 | The VM leaves both index sets |
| InventoryStore.Store.SearchVms | pkg/inventory/search.go:89-139 | Lists every matching VM exactly once, with its own fields |
| InventoryStore.FieldsFilter | pkg/inventory/search.go:98-127 | What each field of a filter keeps by itself |
| InventoryStore.FiltersCombine | pkg/inventory/search.go:89-139 | A filter keeps what each of its fields keeps |
| InventoryStore.NameFilterFinds | pkg/inventory/search.go:98-100 | A name that a text filter keeps has the text in it |
| InventoryStore.HostSearchIsScan | pkg/inventory/search.go:101-103 | A search by host is the scan that the index of that host is compared with |
| InventoryStore.Store.DeleteGhosts | pkg/hypervisor/systeminfo.go:362-382 | One DELETED event per indexed VM that libvirt does not know, and no other |
| InventoryStore.OwnReportIsFullRound | pkg/serfcomm/serfcomm.go:233-263 | What a host sends from its own state is a full round for every inventory in that state, in any order |
| Wire.ValuesAreFaithful | pkg/serfcomm/serfcomm.go:179-231 | The records survive the translation to codec values and back |
| WireLayout.PayloadIs | pkg/serfcomm/serfcomm.go:77-120 | Each of the three messages is sent as its fields one after another in their order and widths, if that fits the buffer, and otherwise not at all |
| Wire.SentIsApplied | pkg/serfcomm/serfcomm.go:77-120 | Whatever is sent within the 1024-byte buffer is applied as sent, without any length condition |
| Wire.ReceivingRefinesRun | pkg/serfcomm/serfcomm.go:179-231 | A run over the wire is the run of its messages |
| Wire.Send | pkg/serfcomm/serfcomm.go:77-120 | The buffer is filled with the specified payload, or the message is dropped exactly if it does not fit |
| Wire.Receive | pkg/serfcomm/serfcomm.go:179-231 | Decoding and dispatch have the specified effect on the store |
| SbinaryLaws.RoundTrip | pkg/encoding/sbinary/sbinary.go:27-365 | For every decodable type, well-typed value with lengths below 65536, byte order and trailing bytes, encode then decode gives the value and the same count |
| SbinaryLaws.RoundTripIff | pkg/encoding/sbinary/sbinary.go:84-103 | Without fixed arrays, it holds exactly if all lengths fit in 16 bits |
| SbinaryLaws.MergePlain | pkg/encoding/sbinary/sbinary.go:314-335 | For types without fixed byte arrays and hidden fields what is decoded is the value itself |
| SbinaryLaws.PointerFieldNeverDecodes | pkg/encoding/sbinary/sbinary.go:202-286 | A type with an exported pointer field never decodes |
| SbinaryLaws.DecodesIff | pkg/encoding/sbinary/sbinary.go:202-365 | Some message decodes at a type if and only if no pointer and no unsupported kind is reachable through exported struct fields, at any depth |
| SbinaryLaws.DecodeLocal | pkg/encoding/sbinary/sbinary.go:202-365 | A successful decode depends only on the bytes it reports |
| SbinaryLaws.StrictPrefixRejected | pkg/encoding/sbinary/sbinary.go:202-365 | No strict prefix of what was decoded decodes |
| SbinaryLaws.DecodeCanonical | pkg/encoding/sbinary/sbinary.go:202-365 | Re-encoding a decoded value gives exactly the bytes that were read |
| SbinaryLayout.PutDigits | pkg/encoding/sbinary/sbinary.go:105-187 | Of every integer, negative ones included, byte i (from the least significant) is n / 256^i mod 256, and stands at place i in little-endian and at place k - 1 - i in big-endian |
| SbinaryLayout.GetDigits | pkg/encoding/sbinary/sbinary.go:202-286 | What is read is the one number below 256^k with those bytes in those places |
| SbinaryLayout.OrdersAreReversed | pkg/encoding/sbinary/sbinary.go:105-187 | The two byte orders are each other's reversal |
| SbinaryLayout.TwosComplement | pkg/encoding/sbinary/sbinary.go:105-187 | A negative integer is written as its two's complement |
| SbinaryLayout.EncodingIsLaidOut | pkg/encoding/sbinary/sbinary.go:43-187 | Every encoding is the value laid out: integers by place, a bool as 0 or 1, bytes and elements after the 16-bit count, exported fields one after another in order |
| SbinaryLayout.DecodedIsLaidOut | pkg/encoding/sbinary/sbinary.go:202-365 | What is decoded is laid out in the bytes that were read |
| SbinaryLaws.PutThenGet | pkg/encoding/sbinary/sbinary.go:105-187 | Integers survive both byte orders |
| SbinaryLaws.GetThenPut | pkg/encoding/sbinary/sbinary.go:202-286 | And back |
| SbinaryLaws.SmallMessageFits | pkg/serfcomm/serfcomm.go:38-120 | A message that fits the buffer has no length over 65535 |
| SbinaryInPlace.EncodeInto | pkg/encoding/sbinary/sbinary.go:27-41 | Succeeds if and only if the value is supported and the buffer holds its size, returns that size, and writes the encoding; otherwise returns the count and leaves the bytes that `SbinaryAttempts.TryValue` says, no more than a prefix of the encoding; changes nothing past what it writes |
| SbinaryInPlace.EncodeStruct | pkg/encoding/sbinary/sbinary.go:43-67 | The same for structs, skipping unexported fields; on failure the count stands before the field that failed |
| SbinaryInPlace.EncodeBytes | pkg/encoding/sbinary/sbinary.go:69-82 | Writes indicator and data, or nothing at all |
| SbinaryInPlace.EncodeArray | pkg/encoding/sbinary/sbinary.go:84-103 | The same for slices and arrays; on failure the count stands before the element that failed |
| SbinaryInPlace.EncodeKind | pkg/encoding/sbinary/sbinary.go:105-187 | The same for every kind |
| SbinaryInPlace.DecodeFrom | pkg/encoding/sbinary/sbinary.go:189-200 | Succeeds or fails as the format says; on failure the location and the count are as `SbinaryAttempts.StoreBase` says |
| SbinaryInPlace.DecodeStruct | pkg/encoding/sbinary/sbinary.go:288-312 | Fields are stored one by one; those after one that failed keep their contents |
| SbinaryInPlace.DecodeNewSlice | pkg/encoding/sbinary/sbinary.go:337-365 | A new slice is made and filled; elements after one that failed stay zero |
| SbinaryInPlace.DecodeArray | pkg/encoding/sbinary/sbinary.go:337-365 | The first elements are stored one by one; the others keep their contents |
| SbinaryAttempts.AttemptAgrees | pkg/encoding/sbinary/sbinary.go:43-187 | An attempt to encode succeeds exactly if the value is supported and its encoding fits, and then writes it; in any case it writes no more than a prefix of it |
| SbinaryAttempts.StoreReads | pkg/encoding/sbinary/sbinary.go:189-365 | What the decoder stores without an error is what the format decodes, and it fails exactly when the format does |
| Resources.DeltasTelescope | pkg/hypervisor/counter.go:25-31 | Summed deltas are last minus first modulo 2^64 |
| Resources.DeltasAddUpToGrowth | pkg/hypervisor/counter.go:25-31 | They are the true growth if the counter wraps at most once between samples |
| Resources.DeltaUint64 | pkg/hypervisor/counter.go:25-31 | One delta is the difference modulo 2^64 |
| Resources.DeltaInt64 | pkg/hypervisor/counter.go:33-39 | The signed delta is that difference wrapped to int64, through all intermediate overflows |
| Resources.Accumulate | pkg/hypervisor/systeminfo.go:221-259 | For distinct domains the totals are sums over the VM map it returns |
| Resources.DescribedMeans | pkg/hypervisor/systeminfo.go:221-259 | For distinct domains, that map holds exactly those libvirt could describe |
| Resources.CapacityIsDivided | pkg/hypervisor/systeminfo.go:221-259 | The two capacity sums make up the capacity of all VMs; without hugepage VMs it is all normal memory, with only such all hugepages |
| Resources.HugepagesAvailableAreFree | pkg/hypervisor/systeminfo.go:276-291 | Hugepages available to VMs are the free ones, in int32 |
| Resources.MemoryAvailable | pkg/hypervisor/systeminfo.go:281-300 | Available memory is free plus used by VMs minus reserved, in int32 |
| Resources.PoolIsConserved | pkg/hypervisor/systeminfo.go:276-300 | OS, VMs and free pages make up the total |

## Left out

- SbinaryLaws.RoundTrip: what a fixed byte array or an unexported field holds after decoding is `Merge`, that is, what it held before, as the code leaves it.
- SbinaryInPlace.EncodeInto: unaddressable values, for which Go would panic, are not modelled.
- SbinaryInPlace.DecodeFrom: storing through settable reflect values is modelled by returning what the location then holds, so byte slices that share memory with the message are not captured.
- LockTable.ForeignRunsKeepMine: needs the other VMs' uuids to fit the LVB, as canonical uuids do.
- Storage.Cluster.VmCreate: the early checks and the proxying to other hosts are one nondeterministic rejection; so are those of vm_update and vm_delete.
- Storage.Cluster.VmUpdate: the request's definition is the array of its disks, which Detect updates in place; To_xml's outcome is nondeterministic, and `VmdefLaws.ValidatedIsEmitted` says when it cannot fail.
- Overlap.OverlapSafeIff: both updates succeed, and no deletion fails but for want of the lock.
- ClusterSafety.EveryVmIsSafe: migration and registration do not move locks and are not operations of the model.
- DomainBuilder.BuildDomain: parts of a domain that do not depend on the definition (clock, power management, console, channel, graphics, audio, video, balloon, random source, features of the architecture) are not modelled.
- DomainBuilder.ReadDomain: reads into a zeroed definition, as all callers do.
- VmdefLaws.RoundTrip: libvirt changes nothing but the memory unit and, in the migratable form, the firmware attribute.
- HostId.SearchJoin: the start slot is any id in 1..2000 rather than the hash of the host uuid; the text that sanlock prints is already parsed.
- LockDir.OneLockDir: the group lookup before the first step is not modelled; its failure changes nothing.
- Init and its retry loop, lm_inq_lockspace and the cached host id: no claim is made about them.
- Collisions of temporary directory names with resource names; cleanup of temporary directories, which are never visible under a resource's name.
- The contents of disks: qemu-img, wipefs, blkdiscard and dd are steps that touch no lock; for which disks they run is modelled, their arguments are not.
- ResourceNames.NamesTell: that two LUN paths differ in their keys, and that no key is an md5 in hexadecimal, are conditions, since udev decides the names.
- DomainMeaning.VcpusIff: is for positive counts, as Validate requires.
- Search_hosts: a filter like Search_vms, without the index to compare with.
- Member changes from serf are the message that sets a host's state; connection handling, channels and timers are left out.
- Mutexes: each inventory operation is one step.
- CPU and network rates: floating point.
- Text of XML and JSON: the models work on the structures, except for the disk alias, which is a string.

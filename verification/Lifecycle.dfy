/**
 What storage creation, update and deletion do to one VM: its definition, its
 saved definition and the locks it owns (pkg/storage/storage.go,
 pkg/virtx/vm_create.go, vm_update.go, vm_delete.go).
 */
module Lifecycle {
  import opened GoTypes
  import opened Vmdef
  import opened LockProtocol
  import LockTable

  /** Get_resource_name. */
  type NameOf = (int, string) -> Name

  function Key(k: NameOf, d: Disk): Name { k(d.device, d.path) }

  predicate Managed(d: Disk) { d.man != DISK_UNMANAGED }

  /** Has_path. */
  predicate InPaths(path: string, ds: seq<Disk>) { exists d | d in ds :: d.path == path }

  /** A managed disk of one definition whose path the other definition lacks. */
  predicate Apart(d: Disk, others: seq<Disk>) { Managed(d) && !InPaths(d.path, others) }

  /** The lock names of the managed disks of xs whose paths ys lacks, in disk order: what Create has
      to claim, and, the other way round, what Delete has to release. */
  function Unshared(k: NameOf, xs: seq<Disk>, ys: seq<Disk>): seq<Name> {
    if xs == [] then []
    else
      var d := xs[|xs| - 1];
      Unshared(k, xs[..|xs| - 1], ys) + if Apart(d, ys) then [Key(k, d)] else []
  }

  function ToSet(names: seq<Name>): set<Name> { set n | n in names }

  predicate NoDup(names: seq<Name>) { forall i, j | 0 <= i < j < |names| :: names[i] != names[j] }

  /** The locks a definition needs. */
  function Needs(k: NameOf, ds: seq<Disk>): set<Name> { set d | d in ds && Managed(d) :: Key(k, d) }

  /** What Detect leaves alone. */
  predicate SameDisk(d: Disk, e: Disk) { d.path == e.path && d.device == e.device && d.man == e.man && d.bus == e.bus }

  predicate SameDisks(xs: seq<Disk>, ys: seq<Disk>) {
    |xs| == |ys| && forall i | 0 <= i < |xs| :: SameDisk(xs[i], ys[i])
  }

  /** A VM as the cluster sees it: its definition, the definition in the registry, its locks. */
  datatype Vm = Vm(defined: Option<seq<Disk>>, saved: Option<seq<Disk>>, owned: set<Name>)

  const NO_VM := Vm(None, None, {})

  /** Every managed disk of a defined VM has its lock owned by that VM. */
  predicate Safe(k: NameOf, v: Vm) { v.defined.Some? ==> Needs(k, v.defined.value) <= v.owned }

  // ----------------------------------------------------------------- outcomes

  /** An update in progress, or ended: either the VM still has its old definition and all its old
      locks, or it has the new one and every lock but those of departing disks. */
  predicate DuringUpdate(k: NameOf, v: Vm, old': seq<Disk>, next: seq<Disk>, w: Vm) {
    || (w.defined == v.defined && w.saved == v.saved && v.owned <= w.owned)
    || (w.defined == Some(next) && ToSet(Unshared(k, next, old')) !! v.owned
        && (v.owned + ToSet(Unshared(k, next, old'))) - ToSet(Unshared(k, old', next)) <= w.owned)
  }

  datatype Reply = Rejected | StorageFailed | Undefinable | Accepted(warning: bool)

  /** How an update that read old' from the registry can end. */
  predicate UpdateEnds(k: NameOf, v: Vm, old': seq<Disk>, next: seq<Disk>, r: Reply, w: Vm) {
    var fresh', departing := ToSet(Unshared(k, next, old')), ToSet(Unshared(k, old', next));
    match r
    case Rejected => w == v
    case StorageFailed => FailedUpdate(v, fresh', w)
    case Undefinable => FailedUpdate(v, fresh', w)
    case Accepted(warning) =>
      && w.defined == Some(next) && (w.saved == Some(next) || w.saved == v.saved)
      && NoDup(Unshared(k, next, old')) && fresh' !! v.owned
      && (v.owned + fresh') - departing <= w.owned <= v.owned + fresh'
      && (!warning ==> departing <= v.owned + fresh' && w.owned == (v.owned + fresh') - departing)
  }

  /** Rolled back: only locks claimed by this call can be left over. */
  predicate FailedUpdate(v: Vm, claimed: set<Name>, w: Vm) {
    w.defined == v.defined && w.saved == v.saved && v.owned <= w.owned <= v.owned + claimed
  }

  /** The VM has claimed exactly these names, which it did not own before. */
  predicate Claims(v: Vm, created: seq<Name>, w: Vm) {
    NoDup(created) && ToSet(created) !! v.owned && w == v.(owned := v.owned + ToSet(created))
  }

  /** How a creation under a new uuid can end: as an update of nothing. */
  predicate CreateEnds(k: NameOf, next: seq<Disk>, r: Reply, w: Vm) { UpdateEnds(k, NO_VM, [], next, r, w) }

  /** How a deletion can end; Delete gets every managed disk of the definition. */
  predicate DeleteEnds(k: NameOf, v: Vm, r: Reply, w: Vm) {
    match r
    case Rejected => w == v
    case StorageFailed => false
    case Undefinable => w == v
    case Accepted(warning) =>
      && v.defined.Some? && w.defined == None && (w.saved == None || w.saved == v.saved)
      && v.owned - Needs(k, v.defined.value) <= w.owned <= v.owned
      && (!warning ==> w.owned == v.owned - Needs(k, v.defined.value))
  }

  // -------------------------------------------------------------- the lists

  lemma {:induction false} UnsharedMeans(k: NameOf, xs: seq<Disk>, ys: seq<Disk>, n: Name)
    ensures n in Unshared(k, xs, ys) <==> exists i :: 0 <= i < |xs| && Apart(xs[i], ys) && Key(k, xs[i]) == n
  {
    if xs != [] {
      UnsharedMeans(k, xs[..|xs| - 1], ys, n);
    }
  }

  lemma {:induction false} UnsharedSame(k: NameOf, xs: seq<Disk>, ys: seq<Disk>, zs: seq<Disk>)
    requires SameDisks(xs, ys)
    ensures Unshared(k, xs, zs) == Unshared(k, ys, zs)
  {
    if xs != [] {
      UnsharedSame(k, xs[..|xs| - 1], ys[..|ys| - 1], zs);
    }
  }

  lemma UnsharedFromNothing(k: NameOf, xs: seq<Disk>)
    ensures ToSet(Unshared(k, xs, [])) == Needs(k, xs)
  {
    forall n ensures n in Unshared(k, xs, []) <==> n in Needs(k, xs) {
      UnsharedMeans(k, xs, [], n);
      if n in Needs(k, xs) {
        var d :| d in xs && Managed(d) && Key(k, d) == n;
        var i :| 0 <= i < |xs| && xs[i] == d;
        assert Apart(xs[i], []);
      }
    }
  }

  lemma UnsharedIsNeeded(k: NameOf, xs: seq<Disk>, ys: seq<Disk>)
    ensures ToSet(Unshared(k, xs, ys)) <= Needs(k, xs)
  {
    forall n | n in Unshared(k, xs, ys) ensures n in Needs(k, xs) {
      UnsharedMeans(k, xs, ys, n);
    }
  }

  // ------------------------------------------------------- when updates are safe

  /** No managed disk of the new definition has the name of a departing one, and every one of a
      retained path finds its name among those owned already or claimed for other disks. */
  ghost predicate Backed(k: NameOf, owned: set<Name>, xs: seq<Disk>, next: seq<Disk>) {
    forall d | d in next && Managed(d) ::
      && Key(k, d) !in Unshared(k, xs, next)
      && (InPaths(d.path, xs) ==> Key(k, d) in owned || Key(k, d) in Unshared(k, next, xs))
  }

  lemma FreshIsUnshared(k: NameOf, xs: seq<Disk>, next: seq<Disk>, d: Disk)
    requires d in next && Apart(d, xs)
    ensures Key(k, d) in Unshared(k, next, xs)
  {
    var i :| 0 <= i < |next| && next[i] == d;
    UnsharedMeans(k, next, xs, Key(k, d));
  }

  /** An accepted update from any registry contents xs is safe if the new definition is backed,
      whichever deletions fail ... */
  lemma BackedUpdateIsSafe(k: NameOf, v: Vm, xs: seq<Disk>, next: seq<Disk>, warning: bool, w: Vm)
    requires UpdateEnds(k, v, xs, next, Accepted(warning), w) && Backed(k, v.owned, xs, next)
    ensures Safe(k, w)
  {
    forall d | d in next && Managed(d) ensures Key(k, d) in w.owned {
      if !InPaths(d.path, xs) { FreshIsUnshared(k, xs, next, d); }
      assert Key(k, d) in ToSet(Unshared(k, next, xs)) || Key(k, d) in v.owned;
    }
  }

  /** ... and, when no deletion fails, only if it is backed.  This holds of every VM: whatever it
      owns, and whether or not the registry agrees with its definition. */
  lemma UpdateSafeIff(k: NameOf, v: Vm, xs: seq<Disk>, next: seq<Disk>, w: Vm)
    requires UpdateEnds(k, v, xs, next, Accepted(false), w)
    ensures Safe(k, w) <==> Backed(k, v.owned, xs, next)
  {
    if Backed(k, v.owned, xs, next) {
      BackedUpdateIsSafe(k, v, xs, next, false, w);
    }
    if Safe(k, w) {
      forall d | d in next && Managed(d)
        ensures Key(k, d) !in Unshared(k, xs, next)
        ensures Key(k, d) in v.owned || Key(k, d) in Unshared(k, next, xs)
      {
        assert Key(k, d) in Needs(k, next);
      }
    }
  }

  /** A caller's version of the condition: retained paths stay managed, on the same kind of device. */
  ghost predicate KeepsIdentity(xs: seq<Disk>, next: seq<Disk>) {
    forall d | d in next && Managed(d) && InPaths(d.path, xs) ::
      exists e :: e in xs && Managed(e) && e.path == d.path && e.device == d.device
  }

  /** Within one definition a lock name stands for one path. */
  ghost predicate OnePathPerName(k: NameOf, ds: seq<Disk>) {
    forall d, e | d in ds && e in ds && Managed(d) && Managed(e) && Key(k, d) == Key(k, e) :: d.path == e.path
  }

  lemma KeepingIdentityBacks(k: NameOf, owned: set<Name>, xs: seq<Disk>, next: seq<Disk>)
    requires KeepsIdentity(xs, next) && OnePathPerName(k, xs)
    requires Needs(k, xs) <= owned && ToSet(Unshared(k, next, xs)) !! owned
    ensures Backed(k, owned, xs, next)
  {
    UnsharedIsNeeded(k, xs, next);
    forall d | d in next && Managed(d)
      ensures Key(k, d) !in Unshared(k, xs, next) && (InPaths(d.path, xs) ==> Key(k, d) in owned)
    {
      if InPaths(d.path, xs) {
        RetainedIsNeeded(k, xs, next, d);
        RetainedStays(k, xs, next, next, d);
      } else {
        FreshIsUnshared(k, xs, next, d);
        assert Key(k, d) in ToSet(Unshared(k, next, xs));
      }
    }
  }

  /** Of an identity-keeping definition, a retained disk's name departs, for whatever update `other`
      of the same definition, exactly if that update drops its path. */
  lemma RetainedStays(k: NameOf, xs: seq<Disk>, next: seq<Disk>, other: seq<Disk>, d: Disk)
    requires KeepsIdentity(xs, next) && OnePathPerName(k, xs) && d in next && Managed(d) && InPaths(d.path, xs)
    ensures Key(k, d) in Unshared(k, xs, other) <==> !InPaths(d.path, other)
  {
    var e :| e in xs && Managed(e) && e.path == d.path && e.device == d.device;
    var j :| 0 <= j < |xs| && xs[j] == e;
    UnsharedMeans(k, xs, other, Key(k, d));
  }

  /** Managed disks of retained paths were managed before, under the same lock. */
  ghost predicate KeepsLocks(k: NameOf, xs: seq<Disk>, next: seq<Disk>) {
    forall d | d in next && Managed(d) && InPaths(d.path, xs) ::
      exists e :: e in xs && Managed(e) && e.path == d.path && Key(k, e) == Key(k, d)
  }

  /** For a VM that owns what the registry's definition needs, and names that stand for one path in
      both definitions, keeping locks is not only enough but necessary. */
  lemma BackedIffLocksKept(k: NameOf, xs: seq<Disk>, next: seq<Disk>)
    requires OnePathPerName(k, xs + next)
    ensures Backed(k, Needs(k, xs), xs, next) <==> KeepsLocks(k, xs, next)
  {
    if KeepsLocks(k, xs, next) {
      forall d | d in next && Managed(d)
        ensures Key(k, d) !in Unshared(k, xs, next) && (InPaths(d.path, xs) ==> Key(k, d) in Needs(k, xs))
      {
        UnsharedMeans(k, xs, next, Key(k, d));
        if InPaths(d.path, xs) {
          var e :| e in xs && Managed(e) && e.path == d.path && Key(k, e) == Key(k, d);
        }
      }
    }
    if Backed(k, Needs(k, xs), xs, next) {
      forall d | d in next && Managed(d) && InPaths(d.path, xs)
        ensures exists e :: e in xs && Managed(e) && e.path == d.path && Key(k, e) == Key(k, d)
      {
        UnsharedMeans(k, next, xs, Key(k, d));
        var e :| e in xs && Managed(e) && Key(k, e) == Key(k, d);
      }
    }
  }

  lemma RetainedIsNeeded(k: NameOf, xs: seq<Disk>, next: seq<Disk>, d: Disk)
    requires KeepsIdentity(xs, next) && d in next && Managed(d) && InPaths(d.path, xs)
    ensures Key(k, d) in Needs(k, xs)
  {
    var e :| e in xs && Managed(e) && e.path == d.path && e.device == d.device;
    assert Key(k, e) in Needs(k, xs);
  }

  lemma {:induction false} FreshNamesAreOneDisk(k: NameOf, ds: seq<Disk>, ys: seq<Disk>, i: nat, j: nat)
    requires NoDup(Unshared(k, ds, ys)) && i < j < |ds| && Apart(ds[i], ys) && Apart(ds[j], ys)
    ensures Key(k, ds[i]) != Key(k, ds[j])
    decreases |ds|
  {
    var front, d := ds[..|ds| - 1], ds[|ds| - 1];
    var u := Unshared(k, front, ys);
    assert u <= Unshared(k, ds, ys);
    assert forall a, b | 0 <= a < b < |u| :: u[a] == Unshared(k, ds, ys)[a] && u[b] == Unshared(k, ds, ys)[b];
    if j < |ds| - 1 {
      FreshNamesAreOneDisk(k, front, ys, i, j);
    } else {
      assert front[i] == ds[i];
      UnsharedMeans(k, front, ys, Key(k, ds[i]));
      assert Unshared(k, ds, ys)[|u|] == Key(k, d);
      var a :| 0 <= a < |u| && u[a] == Key(k, ds[i]);
    }
  }

  /** An accepted, identity-keeping update keeps one path per name. */
  lemma UpdateKeepsOnePath(k: NameOf, v: Vm, xs: seq<Disk>, next: seq<Disk>, warning: bool, w: Vm)
    requires UpdateEnds(k, v, xs, next, Accepted(warning), w) && Needs(k, xs) <= v.owned
    requires KeepsIdentity(xs, next) && OnePathPerName(k, xs)
    ensures OnePathPerName(k, next)
  {
    forall d, e | d in next && e in next && Managed(d) && Managed(e) && Key(k, d) == Key(k, e)
      ensures d.path == e.path {
      var i :| 0 <= i < |next| && next[i] == d;
      var j :| 0 <= j < |next| && next[j] == e;
      UnsharedMeans(k, next, xs, Key(k, d));
      if !Apart(d, xs) { RetainedIsNeeded(k, xs, next, d); }
      if !Apart(e, xs) { RetainedIsNeeded(k, xs, next, e); }
      if Apart(d, xs) && Apart(e, xs) {
        if i < j { FreshNamesAreOneDisk(k, next, xs, i, j); }
        if j < i { FreshNamesAreOneDisk(k, next, xs, j, i); }
      } else if !Apart(d, xs) && !Apart(e, xs) {
        var f :| f in xs && Managed(f) && f.path == d.path && f.device == d.device;
        var g :| g in xs && Managed(g) && g.path == e.path && g.device == e.device;
      }
    }
  }

  // ---------------------------------------------------------------- exactness

  /** The VM owns exactly the locks its definition needs. */
  predicate Exact(k: NameOf, v: Vm) { v.owned == if v.defined.Some? then Needs(k, v.defined.value) else {} }

  /** No managed disk of a retained path is dropped: its name is still needed. */
  ghost predicate DropsNothing(xs: seq<Disk>, next: seq<Disk>) { KeepsIdentity(next, xs) }

  /** An update that keeps identities both ways and deletes everything it should turns exact
      ownership of the old definition into exact ownership of the new one. */
  lemma UpdateIsExact(k: NameOf, v: Vm, xs: seq<Disk>, next: seq<Disk>, w: Vm)
    requires UpdateEnds(k, v, xs, next, Accepted(false), w) && v.owned == Needs(k, xs)
    requires KeepsIdentity(xs, next) && DropsNothing(xs, next) && OnePathPerName(k, xs)
    ensures Exact(k, w)
  {
    KeepingIdentityBacks(k, v.owned, xs, next);
    BackedUpdateIsSafe(k, v, xs, next, false, w);
    forall n | n in w.owned ensures n in Needs(k, next) {
      if n in Unshared(k, next, xs) {
        UnsharedIsNeeded(k, next, xs);
        assert n in ToSet(Unshared(k, next, xs));
      } else {
        KeptIsNeeded(k, xs, next, n);
      }
    }
  }

  lemma KeptIsNeeded(k: NameOf, xs: seq<Disk>, next: seq<Disk>, n: Name)
    requires DropsNothing(xs, next) && n in Needs(k, xs) && n !in Unshared(k, xs, next)
    ensures n in Needs(k, next)
  {
    var e :| e in xs && Managed(e) && Key(k, e) == n;
    var i :| 0 <= i < |xs| && xs[i] == e;
    UnsharedMeans(k, xs, next, n);
    RetainedIsNeeded(k, next, xs, e);
  }

  /** Delete after an update never takes a lock that the new definition needs. */
  lemma DeleteSparesTheNew(k: NameOf, v: Vm, xs: seq<Disk>, next: seq<Disk>, warning: bool, w: Vm)
    requires UpdateEnds(k, v, xs, next, Accepted(warning), w) && Needs(k, xs) <= v.owned
    requires KeepsIdentity(xs, next) && OnePathPerName(k, xs)
    ensures Needs(k, next) !! ToSet(Unshared(k, xs, next))
  {
    KeepingIdentityBacks(k, v.owned, xs, next);
  }

  /** Creation is exact whenever it is accepted, and a clean rollback restores the lock store. */
  lemma CreateIsExact(k: NameOf, next: seq<Disk>, r: Reply, w: Vm)
    requires CreateEnds(k, next, r, w)
    ensures r.Accepted? ==> Exact(k, w) && OnePathPerName(k, next)
    ensures !r.Accepted? ==> w.defined == None && w.owned <= Needs(k, next)
  {
    UnsharedFromNothing(k, next);
    if r.Accepted? {
      UpdateKeepsOnePath(k, NO_VM, [], next, r.warning, w);
    }
  }

  // --------------------------------------------------------------------- runs

  datatype Op = OpCreate(next: seq<Disk>) | OpUpdate(next: seq<Disk>) | OpDelete

  /** One operation on a VM, from before it to after it. */
  predicate Step(k: NameOf, v: Vm, op: Op, r: Reply, w: Vm) {
    match op
    case OpCreate(next) => v == NO_VM && CreateEnds(k, next, r, w)
    case OpUpdate(next) =>
      if v.saved.Some? then UpdateEnds(k, v, v.saved.value, next, r, w) else r == Rejected && w == v
    case OpDelete => DeleteEnds(k, v, r, w)
  }

  /** The registry is written when the definition changes, and updates keep the management mode and
      the device of the paths they retain. */
  ghost predicate Orderly(v: Vm, op: Op, w: Vm) {
    && w.saved == w.defined
    && (op.OpUpdate? && v.saved.Some? ==> KeepsIdentity(v.saved.value, op.next))
  }

  ghost predicate VmInv(k: NameOf, v: Vm) {
    Safe(k, v) && v.saved == v.defined && (v.defined.Some? ==> OnePathPerName(k, v.defined.value))
  }

  lemma StepKeepsInv(k: NameOf, v: Vm, op: Op, r: Reply, w: Vm)
    requires VmInv(k, v) && Step(k, v, op, r, w) && Orderly(v, op, w)
    ensures VmInv(k, w)
  {
    match op
    case OpCreate(next) =>
      CreateIsExact(k, next, r, w);
    case OpUpdate(next) =>
      if v.saved.Some? && r.Accepted? {
        KeepingIdentityBacks(k, v.owned, v.saved.value, next);
        BackedUpdateIsSafe(k, v, v.saved.value, next, r.warning, w);
        UpdateKeepsOnePath(k, v, v.saved.value, next, r.warning, w);
      }
    case OpDelete =>
  }

  /** Nothing is left behind: updates drop no managed disk of a retained path, deletions and rollbacks
      all succeed. */
  ghost predicate Tidy(v: Vm, op: Op, r: Reply, w: Vm) {
    && (op.OpUpdate? && v.saved.Some? ==> DropsNothing(v.saved.value, op.next))
    && (if r.Accepted? then !r.warning else w.owned == v.owned)
  }

  lemma ExactStep(k: NameOf, v: Vm, op: Op, r: Reply, w: Vm)
    requires VmInv(k, v) && Exact(k, v) && Step(k, v, op, r, w) && Orderly(v, op, w) && Tidy(v, op, r, w)
    ensures Exact(k, w)
  {
    if op.OpCreate? {
      CreateIsExact(k, op.next, r, w);
    } else if op.OpUpdate? && v.saved.Some? && r.Accepted? {
      UpdateIsExact(k, v, v.saved.value, op.next, w);
    }
  }

  /** A VM is also safe at every moment of an update, not just at its end. */
  lemma SafeDuringUpdate(k: NameOf, v: Vm, xs: seq<Disk>, next: seq<Disk>, w: Vm)
    requires VmInv(k, v) && v.saved == Some(xs) && KeepsIdentity(xs, next) && DuringUpdate(k, v, xs, next, w)
    ensures Safe(k, w)
  {
    if !(w.defined == v.defined && v.owned <= w.owned) {
      KeepingIdentityBacks(k, v.owned, xs, next);
      forall d | d in next && Managed(d) ensures Key(k, d) in w.owned {
        if !InPaths(d.path, xs) { FreshIsUnshared(k, xs, next, d); }
        assert Key(k, d) in v.owned || Key(k, d) in ToSet(Unshared(k, next, xs));
      }
    }
  }

  /** Two safe VMs never have a disk under one lock. */
  lemma NoSharedDisk(k: NameOf, locks: map<Name, Uuid>, u: Uuid, v: Uuid, d: seq<Disk>, e: seq<Disk>)
    requires u != v
    requires Safe(k, Vm(Some(d), None, LockTable.OwnedBy(locks, u)))
    requires Safe(k, Vm(Some(e), None, LockTable.OwnedBy(locks, v)))
    ensures Needs(k, d) !! Needs(k, e)
  {
    assert LockTable.OwnedBy(locks, u) !! LockTable.OwnedBy(locks, v);
  }

  // --------------------------------------------------- what goes wrong otherwise

  /** Turning a retained disk from unmanaged to managed claims no lock: the VM then has a managed
      disk that any other VM may lock. */
  lemma FlippingBreaks(k: NameOf, path: string)
    ensures var d := Disk(path, DEVICE_DISK, BUS_SCSI, DISK_UNMANAGED, PROV_THIN, 0);
      var v, next := Vm(Some([d]), Some([d]), {}), [d.(man := DISK_MANAGED)];
      && VmInv(k, v) && !KeepsIdentity([d], next)
      && UpdateEnds(k, v, [d], next, Accepted(false), Vm(Some(next), Some(next), {}))
      && !Safe(k, Vm(Some(next), Some(next), {}))
  {
    var d := Disk(path, DEVICE_DISK, BUS_SCSI, DISK_UNMANAGED, PROV_THIN, 0);
    var next := [d.(man := DISK_MANAGED)];
    assert next[0] in next && Managed(next[0]);
    assert d in [d];
    NoneUnshared(k, next, [d]);
    NoneUnshared(k, [d], next);
    assert Key(k, next[0]) in Needs(k, next);
  }

  lemma OnlyLastUnshared(k: NameOf, xs: seq<Disk>, d: Disk, ys: seq<Disk>)
    requires (forall e | e in xs :: InPaths(e.path, ys)) && Apart(d, ys)
    ensures Unshared(k, xs + [d], ys) == [Key(k, d)]
  {
    assert (xs + [d])[..|xs|] == xs;
    NoneUnshared(k, xs, ys);
  }

  /** A registry that missed a definition makes a later update go wrong: it still lists a disk that
      was dropped since, so Create claims nothing for it. */
  lemma StaleRegistryBreaks(k: NameOf, os: Disk, path: string)
    requires os.man == DISK_UNMANAGED && os.path != path
    ensures var d := Disk(path, DEVICE_DISK, BUS_SCSI, DISK_MANAGED, PROV_THIN, 0);
      var v, w := Vm(Some([os]), Some([os, d]), {}), Vm(Some([os, d]), Some([os, d]), {});
      && Safe(k, v) && KeepsIdentity(v.saved.value, [os, d])
      && UpdateEnds(k, v, [os, d], [os, d], Accepted(false), w) && !Safe(k, w)
  {
    var d := Disk(path, DEVICE_DISK, BUS_SCSI, DISK_MANAGED, PROV_THIN, 0);
    var ds := [os, d];
    assert ds[1] in ds && Managed(d);
    assert Key(k, d) in Needs(k, ds);
    AgainIsAccepted(k, Vm(Some([os]), Some(ds), {}), ds);
  }

  /** Worse, when a new path leads to the lock name of a departing disk that the registry lists but
      the VM has not got, the update claims the name and then deletes it. */
  lemma DepartingNameBreaks(k: NameOf, os: Disk, d: Disk, e: Disk)
    requires !Managed(os) && Managed(d) && Managed(e) && os.path != d.path && os.path != e.path
    requires d.path != e.path && Key(k, d) == Key(k, e)
    ensures var v, w := Vm(Some([os]), Some([os, d]), {}), Vm(Some([os, e]), Some([os, e]), {});
      && Safe(k, v) && KeepsIdentity([os, d], [os, e])
      && UpdateEnds(k, v, [os, d], [os, e], Accepted(false), w) && !Safe(k, w)
  {
    assert [os] + [d] == [os, d] && [os] + [e] == [os, e];
    OnlyLastUnshared(k, [os], e, [os, d]);
    OnlyLastUnshared(k, [os], d, [os, e]);
    assert [os, e][1] in [os, e] && Key(k, e) in Needs(k, [os, e]);
  }

  /** Updating to what the registry holds claims and releases nothing. */
  lemma AgainIsAccepted(k: NameOf, v: Vm, xs: seq<Disk>)
    requires v.saved == Some(xs)
    ensures UpdateEnds(k, v, xs, xs, Accepted(false), v.(defined := Some(xs)))
  {
    NoneUnshared(k, xs, xs);
  }

  lemma {:induction false} NoneUnshared(k: NameOf, xs: seq<Disk>, ys: seq<Disk>)
    requires forall d | d in xs :: InPaths(d.path, ys)
    ensures Unshared(k, xs, ys) == []
  {
    if xs != [] {
      assert xs[|xs| - 1] in xs;
      NoneUnshared(k, xs[..|xs| - 1], ys);
    }
  }
}

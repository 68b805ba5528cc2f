/**
 Storage and the VM lifecycle as the code runs them: one lock store shared by all
 hosts, where other VMs may act between any two steps (pkg/storage/storage.go,
 pkg/virtx/vm_create.go, vm_update.go, vm_delete.go).
 */
module Storage {
  import opened GoTypes
  import opened Vmdef
  import opened LockProtocol
  import opened Lifecycle
  import opened World
  import opened Provision
  import opened Outcomes
  import opened ClusterSafety
  import VmdefLaws
  import DomainXml
  import DomainBuilder

  class Cluster {
    const nameOf: NameOf
    var world: World
    /** Every step that any VM has made, on whatever host. */
    ghost var trace: seq<Turn>

    constructor (nameOf: NameOf)
      ensures Valid() && world == NO_WORLD && trace == [] && this.nameOf == nameOf
    {
      this.nameOf, world, trace := nameOf, NO_WORLD, [];
    }

    /** The world is what the steps of the trace made of it; each was a step of its own VM, which
        leaves the definitions and the locks of all others alone. */
    ghost predicate Valid() reads this { Interleaving(trace) && WorldAfter(trace) == world }

    function View(u: Uuid): Vm reads this { ViewIn(world, u) }

    ghost function Log(u: Uuid): seq<Entry> reads this { Own(trace, u) }

    ghost predicate LastWas(u: Uuid, a: Action) reads this { trace != [] && trace[|trace| - 1] == Turn(u, a, world) }

    ghost method Record(u: Uuid, a: Action)
      requires Interleaving(trace) && OwnStep(u, WorldAfter(trace), a, world)
      modifies this`trace
      ensures Valid() && old(trace) <= trace && LastWas(u, a)
      ensures Log(u) == old(Log(u)) + [Entry(a, View(u))]
      ensures forall v | v != u :: Log(v) == old(Log(v))
    {
      Extend(trace, Turn(u, a, world));
      trace := trace + [Turn(u, a, world)];
    }

    /** Some step of VM v, on some host. */
    method AnyStep(v: Uuid)
      requires Valid()
      modifies this
      ensures Valid() && old(trace) <= trace
      ensures forall u | u != v :: View(u) == old(View(u)) && Log(u) == old(Log(u))
    {
      ghost var before := world;
      var n: Name, d: Disk, ds: seq<Disk>, registered: bool, erases: bool := *, *, *, *, *;
      ghost var a;
      if {
        case n !in world.locks =>
          world := world.(locks := world.locks[n := v]);
          a := Claimed(n, true);
        case n in world.locks && world.locks[n] == v =>
          world := world.(locks := world.locks - {n});
          a := Released(n, erases, registered);
        case true =>
          world := world.(defined := world.defined[v := ds],
                          saved := if registered then world.saved[v := ds] else world.saved);
          a := Defined;
        case HasOps(d.device) =>
          a := Made(d.path, d.device, true);
        case HasDetect(d.device) =>
          a := Looked(d.path, d.device, true);
        case true =>
          world := world.(defined := world.defined - {v},
                          saved := if registered then world.saved - {v} else world.saved);
          a := Undefined;
      }
      assert world.defined - {v} == before.defined - {v} && world.saved - {v} == before.saved - {v};
      Record(v, a);
      forall u | u != v ensures View(u) == ViewIn(before, u) {
        OwnStepSparesOthers(v, before, a, world, u);
      }
    }

    /** Other VMs are free to make any steps; u does not notice. */
    method Others(u: Uuid)
      requires Valid()
      modifies this
      ensures Valid() && old(trace) <= trace && View(u) == old(View(u)) && Log(u) == old(Log(u))
    {
      var steps: int := *;
      while steps > 0
        invariant Valid() && old(trace) <= trace && View(u) == old(View(u)) && Log(u) == old(Log(u))
      {
        steps := steps - 1;
        var v: Uuid := *;
        if v != u {
          AnyStep(v);
        }
      }
    }

    // ------------------------------------------------------------ primitives

    /** lockman.Create_resource. */
    method CreateResource(u: Uuid, n: Name) returns (ok: bool)
      requires Valid()
      modifies this
      ensures Valid() && old(trace) <= trace
      ensures ok ==> n !in old(View(u)).owned
      ensures View(u) == if ok then old(View(u)).(owned := old(View(u)).owned + {n}) else old(View(u))
      ensures LastWas(u, Claimed(n, ok)) && Log(u) == old(Log(u)) + [Entry(Claimed(n, ok), View(u))]
    {
      Others(u);
      ok := *;
      ok := ok && n !in world.locks;
      if ok {
        world := world.(locks := world.locks[n := u]);
      }
      Record(u, Claimed(n, ok));
    }

    /** The chain that removes a resource file, perhaps after the disk: it may release the lock and
        still fail, on rmdir. */
    method RemoveResource(u: Uuid, n: Name, erases: bool) returns (ok: bool)
      requires Valid()
      modifies this
      ensures Valid() && old(trace) <= trace
      ensures View(u).defined == old(View(u)).defined && View(u).saved == old(View(u)).saved
      ensures View(u).owned == old(View(u)).owned || View(u).owned == old(View(u)).owned - {n}
      ensures ok ==> n in old(View(u)).owned && View(u).owned == old(View(u)).owned - {n}
      ensures LastWas(u, Released(n, erases, ok)) && Log(u) == old(Log(u)) + [Entry(Released(n, erases, ok), View(u))]
    {
      Others(u);
      ok := false;
      var gone := *;
      if gone && n in world.locks && world.locks[n] == u {
        world := world.(locks := world.locks - {n});
        ok := *;
      }
      Record(u, Released(n, erases, ok));
    }

    /** lockman.Delete_resource. */
    method DeleteResource(u: Uuid, n: Name) returns (ok: bool)
      requires Valid()
      modifies this
      ensures Valid() && old(trace) <= trace
      ensures View(u).defined == old(View(u)).defined && View(u).saved == old(View(u)).saved
      ensures View(u).owned == old(View(u)).owned || View(u).owned == old(View(u)).owned - {n}
      ensures ok ==> n in old(View(u)).owned && View(u).owned == old(View(u)).owned - {n}
      ensures LastWas(u, Released(n, false, ok)) && Log(u) == old(Log(u)) + [Entry(Released(n, false, ok), View(u))]
    {
      ok := RemoveResource(u, n, false);
    }

    /** hypervisor.Define_domain; a registry that cannot be written is only logged. */
    method DefineDomain(u: Uuid, ds: seq<Disk>) returns (ok: bool)
      requires Valid()
      modifies this
      ensures Valid() && old(trace) <= trace
      ensures View(u).owned == old(View(u)).owned
      ensures !ok ==> View(u) == old(View(u)) && Log(u) == old(Log(u))
      ensures ok ==> View(u).defined == Some(ds) && (View(u).saved == Some(ds) || View(u).saved == old(View(u)).saved)
      ensures ok ==> LastWas(u, Defined) && Log(u) == old(Log(u)) + [Entry(Defined, View(u))]
    {
      Others(u);
      ok := *;
      if ok {
        var written := *;
        world := world.(defined := world.defined[u := ds],
                        saved := if written then world.saved[u := ds] else world.saved);
        Record(u, Defined);
      }
    }

    /** hypervisor.Delete_domain. */
    method DeleteDomain(u: Uuid) returns (ok: bool)
      requires Valid()
      modifies this
      ensures Valid() && old(trace) <= trace
      ensures View(u).owned == old(View(u)).owned
      ensures !ok ==> View(u) == old(View(u)) && Log(u) == old(Log(u))
      ensures ok ==> View(u).defined == None && (View(u).saved == None || View(u).saved == old(View(u)).saved)
      ensures ok ==> LastWas(u, Undefined) && Log(u) == old(Log(u)) + [Entry(Undefined, View(u))]
    {
      Others(u);
      ok := *;
      if ok {
        var written := *;
        world := world.(defined := world.defined - {u}, saved := if written then world.saved - {u} else world.saved);
        Record(u, Undefined);
      }
    }

    /** storage_create_disk: commands run under the lease, which touch no lock. */
    method CreateDisk(u: Uuid, d: Disk) returns (ok: bool)
      requires Valid()
      modifies this
      ensures Valid() && old(trace) <= trace
      ensures View(u) == old(View(u)) && (ok ==> HasOps(d.device))
      ensures LastWas(u, Made(d.path, d.device, ok))
      ensures Log(u) == old(Log(u)) + [Entry(Made(d.path, d.device, ok), View(u))]
    {
      Others(u);
      ok := *;
      ok := ok && HasOps(d.device);
      Record(u, Made(d.path, d.device, ok));
    }

    /** Detect: it may set the provisioning mode and the size. */
    method Detect(u: Uuid, vm: array<Disk>, i: nat) returns (ok: bool)
      requires i < vm.Length
      requires Valid()
      modifies this, vm
      ensures Valid() && old(trace) <= trace
      ensures SameDisk(vm[i], old(vm[i])) && forall j | 0 <= j < vm.Length && j != i :: vm[j] == old(vm[j])
      ensures View(u) == old(View(u)) && (ok ==> HasDetect(vm[i].device))
      ensures LastWas(u, Looked(vm[i].path, vm[i].device, ok))
      ensures Log(u) == old(Log(u)) + [Entry(Looked(vm[i].path, vm[i].device, ok), View(u))]
    {
      Others(u);
      var prov, size;
      prov, size, ok := *, *, *;
      ok := ok && HasDetect(vm[i].device);
      if HasDetect(vm[i].device) {
        vm[i] := vm[i].(prov := prov, size := size);
      }
      Record(u, Looked(vm[i].path, vm[i].device, ok));
    }

    /** storage_delete_disk: the chain that removes the disk removes the lock too. */
    method DeleteDisk(u: Uuid, d: Disk, n: Name) returns (ok: bool)
      requires Valid()
      modifies this
      ensures Valid() && old(trace) <= trace
      ensures View(u).defined == old(View(u)).defined && View(u).saved == old(View(u)).saved
      ensures View(u).owned == old(View(u)).owned || View(u).owned == old(View(u)).owned - {n}
      ensures ok ==> n in old(View(u)).owned && View(u).owned == old(View(u)).owned - {n}
      ensures !HasOps(d.device) ==> !ok && View(u) == old(View(u))
      ensures LastWas(u, Released(n, true, ok)) && Log(u) == old(Log(u)) + [Entry(Released(n, true, ok), View(u))]
    {
      if HasOps(d.device) {
        ok := RemoveResource(u, n, true);
      } else {
        ok := false;
        Record(u, Released(n, true, ok));
      }
    }

    // --------------------------------------------------------------- storage

    /** One round of the loop of storage.Create: the lock it claimed, if any, and its steps. */
    method CreateOne(u: Uuid, vm: array<Disk>, i: nat, previous: seq<Disk>)
      returns (claimed: seq<Name>, ok: bool, ghost es: seq<Entry>)
      requires i < vm.Length
      requires Valid()
      modifies this, vm
      ensures Valid() && old(trace) <= trace
      ensures DetectedOne(old(vm[..]), vm[..], i)
      ensures RoundEnd(nameOf, old(View(u)), old(vm[i]), previous, claimed, ok, es, View(u))
      ensures Log(u) == old(Log(u)) + es
    {
      var d := vm[i];
      ghost var v0 := View(u);
      claimed, ok, es := [], true, [];
      if InPaths(d.path, previous) {
        RoundSkipped(nameOf, v0, d, previous);
        return;
      }
      if Managed(d) {
        var n := nameOf(d.device, d.path);
        ok := CreateResource(u, n);
        es := [Entry(Claimed(n, ok), View(u))];
        if !ok {
          RoundRefused(nameOf, v0, d, previous, es[0]);
          return;
        }
        claimed := [n];
      }
      ghost var w := View(u);
      ghost var a;
      ok, a := Furnish(u, vm, i);
      RoundWorked(nameOf, v0, d, previous, es, w, a, ok);
      es := es + [Entry(a, w)];
    }

    /** The end of the round: the disk is made, or looked at. */
    method Furnish(u: Uuid, vm: array<Disk>, i: nat) returns (ok: bool, ghost a: Action)
      requires i < vm.Length
      requires Valid()
      modifies this, vm
      ensures Valid() && old(trace) <= trace
      ensures DetectedOne(old(vm[..]), vm[..], i)
      ensures var d := old(vm[i]);
        a == if Managed(d) && d.prov != PROV_NONE then Made(d.path, d.device, ok) else Looked(d.path, d.device, ok)
      ensures View(u) == old(View(u)) && Log(u) == old(Log(u)) + [Entry(a, View(u))]
    {
      var d := vm[i];
      if Managed(d) && d.prov != PROV_NONE {
        ok := CreateDisk(u, d);
        a := Made(d.path, d.device, ok);
      } else {
        ok := Detect(u, vm, i);
        a := Looked(d.path, d.device, ok);
      }
    }

    /** storage.Create; `previous` is empty where the source passes nil. */
    method Create(u: Uuid, vm: array<Disk>, previous: seq<Disk>)
      returns (created: seq<Name>, ok: bool, ghost es: seq<Entry>)
      requires Valid()
      modifies this, vm
      ensures Valid() && old(trace) <= trace
      ensures SameDisks(vm[..], old(vm[..]))
      ensures CreateEnd(nameOf, old(View(u)), old(vm[..]), previous, created, ok, es, View(u))
      ensures Log(u) == old(Log(u)) + es
    {
      ghost var v0, l0, ds := View(u), Log(u), vm[..];
      created, ok, es := [], true, [];
      NoneCreated(nameOf, v0, ds, previous);
      for i := 0 to vm.Length
        invariant Detected(ds, vm[..], i)
        invariant Created(nameOf, v0, ds, i, previous, created, es, View(u))
        invariant Valid() && old(trace) <= trace && Log(u) == l0 + es
      {
        var done;
        created, done, es := CreateNext(u, vm, i, previous, created, v0, l0, ds, es);
        if !done {
          ok := false;
          return;
        }
      }
      AllCreated(nameOf, v0, ds, previous, created, es, View(u));
    }

    /** The round for disk i, after those before it. */
    method CreateNext(u: Uuid, vm: array<Disk>, i: nat, previous: seq<Disk>, created: seq<Name>,
                      ghost v0: Vm, ghost l0: seq<Entry>, ghost ds: seq<Disk>, ghost es: seq<Entry>)
      returns (now: seq<Name>, ok: bool, ghost all: seq<Entry>)
      requires i < vm.Length && Detected(ds, vm[..], i)
      requires Created(nameOf, v0, ds, i, previous, created, es, View(u))
      requires Valid() && Log(u) == l0 + es
      modifies this, vm
      ensures Valid() && old(trace) <= trace && Log(u) == l0 + all
      ensures Detected(ds, vm[..], i + 1)
      ensures ok ==> Created(nameOf, v0, ds, i + 1, previous, now, all, View(u))
      ensures !ok ==> CreateEnd(nameOf, v0, ds, previous, now, false, all, View(u))
    {
      ghost var v1, before := View(u), vm[..];
      var claimed;
      ghost var one;
      claimed, ok, one := CreateOne(u, vm, i, previous);
      DetectedMore(ds, before, vm[..], i);
      CreatedMore(nameOf, v0, ds, i, previous, created, es, v1, claimed, ok, one, View(u));
      now, all := created + claimed, es + one;
      LogMore(l0, es, one);
    }

    /** storage.Rollback: every deletion is tried, failures are only logged. */
    method Rollback(u: Uuid, created: seq<Name>) returns (ghost es: seq<Entry>)
      requires Valid()
      modifies this
      ensures Valid() && old(trace) <= trace
      ensures Releases(old(View(u)), created, ToSet(created), es, View(u)) && ErasesAll(es, false)
      ensures Log(u) == old(Log(u)) + es
    {
      ghost var v0, l0 := View(u), Log(u);
      es := [];
      for i := 0 to |created|
        invariant RolledBack(v0, created, i, es, View(u)) && ErasesAll(es, false)
        invariant Valid() && old(trace) <= trace && Log(u) == l0 + es
      {
        ghost var v1 := View(u);
        var ok := DeleteResource(u, created[i]);
        ghost var e := Entry(Released(created[i], false, ok), View(u));
        RolledBackMore(v0, created, i, es, v1, e);
        es := es + [e];
      }
      assert created[..|created|] == created;
    }

    /** The deletion of one disk by storage.Delete. */
    method DeleteOne(u: Uuid, d: Disk, delete: bool) returns (ok: bool)
      requires Valid()
      modifies this
      ensures Valid() && old(trace) <= trace
      ensures View(u).defined == old(View(u)).defined && View(u).saved == old(View(u)).saved
      ensures View(u).owned != old(View(u)).owned ==>
        (!delete || HasOps(d.device)) && View(u).owned == old(View(u)).owned - {Key(nameOf, d)}
      ensures ok ==> !delete || HasOps(d.device)
      ensures ok ==> Key(nameOf, d) in old(View(u)).owned && View(u).owned == old(View(u)).owned - {Key(nameOf, d)}
      ensures Log(u) == old(Log(u)) + [Entry(Released(Key(nameOf, d), delete, ok), View(u))]
    {
      var n := nameOf(d.device, d.path);
      if delete {
        ok := DeleteDisk(u, d, n);
      } else {
        ok := DeleteResource(u, n);
      }
    }

    /** storage.Delete: every departing managed disk is tried, the first failure is reported; `next`
        is empty where the source passes nil. */
    method Delete(u: Uuid, vm: seq<Disk>, next: seq<Disk>, delete: bool)
      returns (firstErr: Option<Name>, ghost es: seq<Entry>)
      requires Valid()
      modifies this
      ensures Valid() && old(trace) <= trace
      ensures Releases(old(View(u)), Unshared(nameOf, vm, next), Removable(nameOf, vm, next, delete), es, View(u))
      ensures Log(u) == old(Log(u)) + es && ErasesAll(es, delete)
      ensures firstErr == FirstFailure(es)
    {
      ghost var v0, l0 := View(u), Log(u);
      firstErr, es := None, [];
      for i := 0 to |vm|
        invariant Deleted(nameOf, v0, vm, i, next, delete, es, View(u)) && ErasesAll(es, delete)
        invariant Valid() && old(trace) <= trace && Log(u) == l0 + es && firstErr == FirstFailure(es)
      {
        var d := vm[i];
        if InPaths(d.path, next) || !Managed(d) {
          DeletedSkip(nameOf, v0, vm, i, next, delete, es, View(u));
          continue;
        }
        var ok;
        ok, es := DeleteNext(u, vm, i, next, delete, v0, l0, es);
        if !ok && firstErr.None? {
          firstErr := Some(nameOf(d.device, d.path));
        }
      }
      assert vm[..|vm|] == vm;
    }

    /** The deletion of disk i, after those before it. */
    method DeleteNext(u: Uuid, vm: seq<Disk>, i: nat, next: seq<Disk>, delete: bool,
                      ghost v0: Vm, ghost l0: seq<Entry>, ghost es: seq<Entry>)
      returns (ok: bool, ghost all: seq<Entry>)
      requires i < |vm| && Apart(vm[i], next)
      requires Deleted(nameOf, v0, vm, i, next, delete, es, View(u)) && ErasesAll(es, delete)
      requires Valid() && Log(u) == l0 + es
      modifies this
      ensures Valid() && old(trace) <= trace && Log(u) == l0 + all
      ensures Deleted(nameOf, v0, vm, i + 1, next, delete, all, View(u)) && ErasesAll(all, delete)
      ensures FirstFailure(all)
           == if FirstFailure(es).Some? || ok then FirstFailure(es) else Some(Key(nameOf, vm[i]))
    {
      ghost var v1 := View(u);
      ok := DeleteOne(u, vm[i], delete);
      ghost var e := Entry(Released(Key(nameOf, vm[i]), delete, ok), View(u));
      DeletedMore(nameOf, v0, vm, i, next, delete, es, v1, e);
      FailureSnoc(es, e);
      all := es + [e];
    }

    // -------------------------------------------------------------- handlers

    /** The end of vm_create and vm_update when something failed after storage.Create. */
    method Undo(u: Uuid, created: seq<Name>, ghost v0: Vm, ghost fresh': seq<Name>, ghost before: seq<Entry>)
      returns (ghost es: seq<Entry>)
      requires Claims(v0, created, View(u)) && created <= fresh' && HoldingAll(v0, before)
      requires Valid()
      modifies this
      ensures Valid() && old(trace) <= trace
      ensures FailedUpdate(v0, ToSet(fresh'), View(u))
      ensures Log(u) == old(Log(u)) + es && AllHold(v0, before + es) && ErasesAll(before + es, false)
      ensures (forall e | e in es :: !Prepares(e.action)) && (AllReleased(before + es) ==> View(u) == v0)
    {
      ghost var w := View(u);
      es := Rollback(u, created);
      UndoneIs(v0, created, fresh', w, before, es, View(u));
    }

    /** storage.Create, and storage.Rollback if it fails, as vm_create and vm_update begin. */
    method Provide(u: Uuid, vm: array<Disk>, previous: seq<Disk>)
      returns (created: seq<Name>, next: seq<Disk>, ok: bool, ghost es: seq<Entry>)
      requires Valid()
      modifies this, vm
      ensures Valid() && old(trace) <= trace
      ensures SameDisks(vm[..], old(vm[..])) && next == Sizeless(vm[..])
      ensures Provided(nameOf, old(View(u)), old(vm[..]), next, previous, created, ok, es, View(u))
      ensures Log(u) == old(Log(u)) + es
    {
      ghost var v0, l0, ds := View(u), Log(u), vm[..];
      created, ok, es := Create(u, vm, previous);
      next := Sizeless(vm[..]);
      UnsharedSame(nameOf, next, ds, previous);
      if ok {
        ProvidedIs(nameOf, v0, ds, next, previous, created, es, View(u));
      } else {
        es := GiveBack(u, ds, next, previous, created, v0, l0, es);
      }
    }

    /** storage.Create has failed. */
    method GiveBack(u: Uuid, ghost asked: seq<Disk>, ghost next: seq<Disk>, ghost previous: seq<Disk>,
                    created: seq<Name>, ghost v0: Vm, ghost l0: seq<Entry>, ghost es: seq<Entry>)
      returns (ghost all: seq<Entry>)
      requires CreateEnd(nameOf, v0, asked, previous, created, false, es, View(u))
      requires Unshared(nameOf, next, previous) == Unshared(nameOf, asked, previous)
      requires Valid() && Log(u) == l0 + es
      modifies this
      ensures Valid() && old(trace) <= trace && Log(u) == l0 + all
      ensures Provided(nameOf, v0, asked, next, previous, created, false, all, View(u))
    {
      ghost var rest := Undo(u, created, v0, Unshared(nameOf, next, previous), es);
      NotProvidedIs(nameOf, v0, asked, next, previous, created, es, rest, View(u));
      all := es + rest;
    }

    /** The definition could not be made. */
    method Abandon(u: Uuid, ghost asked: seq<Disk>, ghost next: seq<Disk>, ghost previous: seq<Disk>,
                   created: seq<Name>, ghost v0: Vm, ghost l0: seq<Entry>, ghost es: seq<Entry>)
      returns (ghost all: seq<Entry>)
      requires Provided(nameOf, v0, asked, next, previous, created, true, es, View(u))
      requires Valid() && Log(u) == l0 + es
      modifies this
      ensures Valid() && old(trace) <= trace && Log(u) == l0 + all
      ensures Failure(nameOf, v0, previous, next, all, View(u)) && Prepared(nameOf, asked, previous, true, all)
    {
      ghost var w := View(u);
      ghost var rest := Undo(u, created, v0, created, es);
      ProvidedThen(nameOf, v0, asked, next, previous, created, es, w, rest);
      all := es + rest;
    }

    /** The second half of vm_update: redefine, then delete what departs.  `before` are the steps of
        the first half. */
    method Redefine(u: Uuid, previous: seq<Disk>, next: seq<Disk>, created: seq<Name>, delete: bool,
                    ghost v0: Vm, ghost l0: seq<Entry>, ghost asked: seq<Disk>, ghost before: seq<Entry>)
      returns (r: Reply, ghost es: seq<Entry>)
      requires v0.saved == Some(previous)
      requires Provided(nameOf, v0, asked, next, previous, created, true, before, View(u))
      requires Valid() && Log(u) == l0 + before
      modifies this
      ensures Valid() && old(trace) <= trace && Log(u) == l0 + es
      ensures UpdateOutcome(nameOf, v0, next, delete, r, es, View(u))
      ensures Prepared(nameOf, asked, previous, true, es) && !r.Rejected? && !r.StorageFailed?
    {
      ghost var w := View(u);
      var ok: bool := *;
      if ok {
        ok := DefineDomain(u, next);
      }
      if ok {
        ghost var rest;
        r, rest := Depart(u, previous, next, created, delete, v0, l0, before);
        ProvidedThen(nameOf, v0, asked, next, previous, created, before, w, rest);
        return r, before + rest;
      }
      es := Abandon(u, asked, next, previous, created, v0, l0, before);
      FailedIs(nameOf, v0, previous, next, delete, es, Undefinable, View(u));
      r := Undefinable;
    }

    /** What is left once the VM has its new definition. */
    method Depart(u: Uuid, previous: seq<Disk>, next: seq<Disk>, ghost created: seq<Name>, delete: bool,
                  ghost v0: Vm, ghost l0: seq<Entry>, ghost before: seq<Entry>)
      returns (r: Reply, ghost rest: seq<Entry>)
      requires v0.saved == Some(previous) && created == Unshared(nameOf, next, previous) && HoldingAll(v0, before)
      requires Claims(v0, created, View(u).(defined := v0.defined, saved := v0.saved))
      requires View(u).defined == Some(next) && (View(u).saved == Some(next) || View(u).saved == v0.saved)
      requires Valid() && Log(u) == l0 + before + [Entry(Defined, View(u))]
      modifies this
      ensures Valid() && old(trace) <= trace && Log(u) == l0 + (before + rest)
      ensures UpdateOutcome(nameOf, v0, next, delete, r, before + rest, View(u)) && r.Accepted?
      ensures forall e | e in rest :: !Prepares(e.action)
    {
      ghost var w, e := View(u), Entry(Defined, View(u));
      var firstErr, es := Delete(u, previous, next, delete);
      AcceptedIs(nameOf, v0, previous, next, delete, before, w, e, es, View(u), firstErr.Some?);
      rest := [e] + es;
      LogMore(before, [e], es);
      LogMore(l0, before, rest);
      LogMore(l0 + before, [e], es);
      r := Accepted(firstErr.Some?);
    }

    /** vm_update once it has read the registry. */
    method ChangeFrom(u: Uuid, vm: array<Disk>, previous: seq<Disk>, delete: bool)
      returns (r: Reply, next: seq<Disk>, ghost es: seq<Entry>)
      requires Valid() && View(u).saved == Some(previous)
      modifies this, vm
      ensures Valid() && old(trace) <= trace
      ensures SameDisks(vm[..], old(vm[..])) && next == Sizeless(vm[..])
      ensures UpdateOutcome(nameOf, old(View(u)), next, delete, r, es, View(u))
      ensures Prepared(nameOf, old(vm[..]), previous, !r.StorageFailed?, es) && !r.Rejected?
      ensures Log(u) == old(Log(u)) + es
    {
      ghost var v0, l0, ds := View(u), Log(u), vm[..];
      var created, ok;
      created, next, ok, es := Provide(u, vm, previous);
      if !ok {
        FailedIs(nameOf, v0, previous, next, delete, es, StorageFailed, View(u));
        return StorageFailed, next, es;
      }
      r, es := Redefine(u, previous, next, created, delete, v0, l0, ds, es);
    }

    /** vm_update, from the checks on; Rejected stands for every early return.  `next` is the new
        definition, after Detect. */
    method VmUpdate(u: Uuid, vm: array<Disk>, delete: bool) returns (r: Reply, next: seq<Disk>, ghost es: seq<Entry>)
      requires Valid()
      modifies this, vm
      ensures Valid() && old(trace) <= trace
      ensures SameDisks(vm[..], old(vm[..])) && next == Sizeless(vm[..])
      ensures UpdateOutcome(nameOf, old(View(u)), next, delete, r, es, View(u))
      ensures !r.Rejected? ==> old(View(u)).saved.Some?
      ensures !r.Rejected? ==> Prepared(nameOf, old(vm[..]), old(View(u)).saved.value, !r.StorageFailed?, es)
      ensures Log(u) == old(Log(u)) + es
    {
      Others(u);
      var valid, loaded := *, *;
      if !valid || !loaded || u !in world.saved {
        es, next := [], Sizeless(vm[..]);
        RejectedIs(nameOf, View(u), next, delete);
        return Rejected, next, es;
      }
      r, next, es := ChangeFrom(u, vm, world.saved[u], delete);
    }

    /** The second half of vm_create. */
    method DefineNew(u: Uuid, next: seq<Disk>, created: seq<Name>,
                     ghost l0: seq<Entry>, ghost asked: seq<Disk>, ghost before: seq<Entry>)
      returns (r: Reply, ghost es: seq<Entry>)
      requires Provided(nameOf, NO_VM, asked, next, [], created, true, before, View(u))
      requires Valid() && Log(u) == l0 + before
      modifies this
      ensures Valid() && old(trace) <= trace && Log(u) == l0 + es
      ensures CreateOutcome(nameOf, next, r, es, View(u))
      ensures Prepared(nameOf, asked, [], true, es) && !r.Rejected? && !r.StorageFailed?
    {
      ghost var w := View(u);
      var ok: bool := *;
      if ok {
        ok := DefineDomain(u, next);
      }
      if ok {
        ghost var e := Entry(Defined, View(u));
        DefinedIs(nameOf, asked, next, created, before, w, e);
        return Accepted(false), before + [e];
      }
      es := Abandon(u, asked, next, [], created, NO_VM, l0, before);
      NotCreatedIs(nameOf, next, es, Undefinable, View(u));
      r := Undefinable;
    }

    /** vm_create under the new uuid u. */
    method VmCreate(u: Uuid, vm: array<Disk>) returns (r: Reply, next: seq<Disk>, ghost es: seq<Entry>)
      requires View(u) == NO_VM
      requires Valid()
      modifies this, vm
      ensures Valid() && old(trace) <= trace
      ensures SameDisks(vm[..], old(vm[..])) && next == Sizeless(vm[..])
      ensures CreateOutcome(nameOf, next, r, es, View(u))
      ensures !r.Rejected? ==> Prepared(nameOf, old(vm[..]), [], !r.StorageFailed?, es)
      ensures Log(u) == old(Log(u)) + es
    {
      var valid := *;
      if !valid {
        return Rejected, Sizeless(vm[..]), [];
      }
      r, next, es := MakeFrom(u, vm);
    }

    /** vm_create once the definition is validated. */
    method MakeFrom(u: Uuid, vm: array<Disk>) returns (r: Reply, next: seq<Disk>, ghost es: seq<Entry>)
      requires View(u) == NO_VM
      requires Valid()
      modifies this, vm
      ensures Valid() && old(trace) <= trace
      ensures SameDisks(vm[..], old(vm[..])) && next == Sizeless(vm[..])
      ensures CreateOutcome(nameOf, next, r, es, View(u))
      ensures Prepared(nameOf, old(vm[..]), [], !r.StorageFailed?, es) && !r.Rejected?
      ensures Log(u) == old(Log(u)) + es
    {
      ghost var l0, ds := Log(u), vm[..];
      var created, ok;
      created, next, ok, es := Provide(u, vm, []);
      if !ok {
        NotCreatedIs(nameOf, next, es, StorageFailed, View(u));
        return StorageFailed, next, es;
      }
      r, es := DefineNew(u, next, created, l0, ds, es);
    }

    /** vm_delete: the domain goes first, then every managed disk's lock is tried. */
    method VmDelete(u: Uuid, delete: bool) returns (r: Reply, ghost es: seq<Entry>)
      requires Valid()
      modifies this
      ensures Valid() && old(trace) <= trace
      ensures DeleteOutcome(nameOf, old(View(u)), delete, r, es, View(u))
      ensures Log(u) == old(Log(u)) + es
    {
      es := [];
      ghost var v0 := View(u);
      Others(u);
      var readable := *;
      if !readable || u !in world.defined {
        return Rejected, es;
      }
      var vm := world.defined[u];
      var ok := DeleteDomain(u);
      if !ok {
        return Undefinable, es;
      }
      ghost var w, e := View(u), Entry(Undefined, View(u));
      var firstErr, es2 := Delete(u, vm, [], delete);
      DeletedIs(nameOf, v0, vm, delete, w, e, es2, View(u), firstErr.Some?);
      es := [e] + es2;
      r := Accepted(firstErr.Some?);
    }

    // -------------------------------------------------------- one VM's requests

    /** The requests for one VM, one after the other, while those for others are served elsewhere:
        its steps are a life.  A creation is served only under a uuid that is still new. */
    method Serve(u: Uuid, requests: seq<Request>) returns (ghost life: seq<Doing>)
      requires Valid() && Log(u) == []
      modifies this
      ensures Valid() && old(trace) <= trace
      ensures Lived(nameOf, NO_VM, life) && Log(u) == Entries(life) && View(u) == Ending(NO_VM, life)
    {
      life := [];
      ViewIsOwn(trace, u);
      for i := 0 to |requests|
        invariant Valid() && old(trace) <= trace
        invariant Lived(nameOf, NO_VM, life) && Log(u) == Entries(life) && View(u) == Ending(NO_VM, life)
      {
        ghost var d := ServeOne(u, requests[i]);
        if d.Some? {
          assert (life + [d.value])[..|life|] == life;
          life := life + [d.value];
        }
      }
    }

    method ServeOne(u: Uuid, request: Request) returns (ghost d: Option<Doing>)
      requires Valid()
      modifies this
      ensures Valid() && old(trace) <= trace
      ensures d.None? ==> View(u) == old(View(u)) && Log(u) == old(Log(u))
      ensures d.Some? ==>
        Did(nameOf, old(View(u)), d.value) && Log(u) == old(Log(u)) + d.value.es && View(u) == d.value.after
    {
      ghost var t, es := trace, [];
      if request.MakeVm? && View(u) != NO_VM {
        return None;
      }
      if request.DropVm? {
        var r;
        r, es := VmDelete(u, request.delete);
        d := Some(Doing(OpDelete, request.delete, false, r, es, View(u)));
      } else {
        var ds := request.vm;
        var vm := new Disk[|ds|](i requires 0 <= i < |ds| => ds[i]);
        var r, next;
        if request.MakeVm? {
          r, next, es := VmCreate(u, vm);
          d := Some(Doing(OpCreate(next), false, false, r, es, View(u)));
        } else {
          r, next, es := VmUpdate(u, vm, request.delete);
          d := Some(Doing(OpUpdate(next), request.delete, false, r, es, View(u)));
        }
      }
      ViewAfter(t, trace, u, es);
    }
  }

  datatype Request = MakeVm(vm: seq<Disk>) | ChangeVm(vm: seq<Disk>, delete: bool) | DropVm(delete: bool)

  /** A definition was read that has the disks of vm, but for their sizes. */
  predicate GivesBack(r: Result<Vmdef, string>, vm: Vmdef) { r.Ok? && Disks(r.value) == Sizeless(Disks(vm)) }

  lemma CanonicalGivesBack(r: Result<Vmdef, string>, vm: Vmdef)
    requires r == Ok(VmdefLaws.Canonical(vm))
    ensures GivesBack(r, vm)
  {
  }

  /** The registry gives back the definition, in either form of what To_xml stored. */
  lemma RegistryGivesBack(hash: string -> string, vm: Vmdef, uuid: string, arch: string, migratable: bool)
    requires Validate(vm).Pass? && InRange(vm) && VmdefLaws.KnownArch(arch)
    requires forall n | n in vm.nets :: VmdefLaws.ValidNettype(n)
    ensures var x := DomainXml.ToXml(DomainXml.VirtxNaming(hash), vm, uuid, arch);
      x.Ok? && GivesBack(DomainXml.FromXml(VmdefLaws.Stored(x.value, migratable)), vm)
  {
    VmdefLaws.RoundTrip(hash, vm, uuid, arch, migratable);
    var x := DomainXml.ToXml(DomainXml.VirtxNaming(hash), vm, uuid, arch).value;
    CanonicalGivesBack(DomainXml.FromXml(VmdefLaws.Stored(x, migratable)), vm);
  }

  /** The leases in a domain are exactly the locks its definition needs. */
  lemma LeasesAreTheLocks(n: DomainXml.Naming, k: NameOf, ds: seq<Disk>)
    requires forall d :: n.key(d) == Key(k, d)
    ensures (set l | l in DomainXml.EmitDisks(n, ds).leases :: l.key) == Needs(k, ds)
  {
    var ls, ms := DomainXml.EmitDisks(n, ds).leases, DomainBuilder.ManagedDisks(ds);
    DomainBuilder.LeasesAreTheManagedDisks(n, ds);
    forall name ensures name in (set l | l in ls :: l.key) <==> name in Needs(k, ds) {
      if name in (set l | l in ls :: l.key) {
        var i :| 0 <= i < |ls| && ls[i].key == name;
        DomainBuilder.ManagedMeans(ds, ms[i]);
        assert Key(k, ms[i]) == name;
      }
      if name in Needs(k, ds) {
        var d :| d in ds && Managed(d) && Key(k, d) == name;
        DomainBuilder.ManagedMeans(ds, d);
        var i :| 0 <= i < |ms| && ms[i] == d;
        assert ls[i] in ls;
      }
    }
  }
}

/**
 The shared state of the cluster, the single steps that operations on VMs make on
 it, and interleavings of the steps of any number of VMs.
 */
module World {
  import opened GoTypes
  import opened Vmdef
  import Lvb
  import opened LockProtocol
  import LockTable
  import opened Lifecycle

  /** The lock table, the domains that libvirt knows on any host, and the registry. */
  datatype World = World(locks: map<Name, Uuid>, defined: map<Uuid, seq<Disk>>, saved: map<Uuid, seq<Disk>>)

  const NO_WORLD := World(map[], map[], map[])

  function ViewIn(w: World, u: Uuid): Vm {
    Vm(if u in w.defined then Some(w.defined[u]) else None, if u in w.saved then Some(w.saved[u]) else None,
       LockTable.OwnedBy(w.locks, u))
  }

  /** A step of a VM's operation and whether it succeeded: its lock is claimed, or given up, perhaps
      together with the disk; its disk is made, or only looked at; libvirt's definition changes. */
  datatype Action =
    | Claimed(name: Name, ok: bool)
    | Released(name: Name, erases: bool, ok: bool)
    | Made(path: string, device: int, ok: bool)
    | Looked(path: string, device: int, ok: bool)
    | Defined
    | Undefined

  /** What storage.Create does. */
  predicate Prepares(a: Action) { a.Claimed? || a.Made? || a.Looked? }

  /** storage_ops_map has a create and a delete operation for these. */
  predicate HasOps(device: int) { device == DEVICE_DISK || device == DEVICE_LUN }

  /** And an operation to look at these. */
  predicate HasDetect(device: int) { device == DEVICE_DISK || device == DEVICE_CDROM || device == DEVICE_LUN }

  /** A step that changes no other VM's definition, and no lock but as the lock table allows u. */
  predicate OwnStep(u: Uuid, w: World, a: Action, w': World) {
    && w'.defined - {u} == w.defined - {u} && w'.saved - {u} == w.saved - {u}
    && match a
       case Claimed(n, ok) =>
         && w'.defined == w.defined && w'.saved == w.saved
         && if ok then n !in w.locks && w'.locks == w.locks[n := u] else w'.locks == w.locks
       case Released(n, _, ok) =>
         && w'.defined == w.defined && w'.saved == w.saved
         && (w'.locks == w.locks || GaveUp(w, u, n, w')) && (ok ==> GaveUp(w, u, n, w'))
       case Made(_, device, ok) => w' == w && (ok ==> HasOps(device))
       case Looked(_, device, ok) => w' == w && (ok ==> HasDetect(device))
       case Defined => u in w'.defined && w'.locks == w.locks
       case Undefined => u !in w'.defined && w'.locks == w.locks
  }

  predicate GaveUp(w: World, u: Uuid, n: Name, w': World) {
    n in w.locks && w.locks[n] == u && w'.locks == w.locks - {n}
  }

  /** On the locks, every step is one that the lock protocol makes for this VM, or none. */
  lemma OwnStepIsAtomic(u: Uuid, w: World, a: Action, w': World) returns (eff: LockTable.Effect)
    requires OwnStep(u, w, a, w') && Lvb.Faithful(u)
    ensures LockTable.AtomicStep(w.locks, eff, w'.locks)
    ensures eff.Silent? || (eff.uuid == u && (a.Claimed? || a.Released?) && eff.name == a.name)
  {
    Lvb.TextOfBlock(u);
    if a.Claimed? && a.ok {
      eff := LockTable.Claim(a.name, u);
    } else if a.Released? && w'.locks != w.locks {
      eff := LockTable.Release(a.name, u);
    } else {
      eff := LockTable.Silent;
    }
  }

  /** No step of one VM changes anything of another. */
  lemma OwnStepSparesOthers(u: Uuid, w: World, a: Action, w': World, v: Uuid)
    requires OwnStep(u, w, a, w') && v != u
    ensures ViewIn(w', v) == ViewIn(w, v)
  {
    assert forall m: map<Uuid, seq<Disk>> :: (v in m <==> v in m - {u}) && (v in m ==> m[v] == (m - {u})[v]);
    assert LockTable.OwnedBy(w'.locks, v) == LockTable.OwnedBy(w.locks, v);
  }

  // ------------------------------------------------------------- interleavings

  /** A step of a VM and the world after it. */
  datatype Turn = Turn(uuid: Uuid, action: Action, world: World)

  ghost function WorldAfter(t: seq<Turn>): World { if t == [] then NO_WORLD else t[|t| - 1].world }

  /** Any number of VMs take steps, one at a time, from a cluster without VMs. */
  ghost predicate Interleaving(t: seq<Turn>) {
    t == [] ||
      (Interleaving(t[..|t| - 1])
       && OwnStep(t[|t| - 1].uuid, WorldAfter(t[..|t| - 1]), t[|t| - 1].action, t[|t| - 1].world))
  }

  /** A step as the VM it belongs to sees it. */
  datatype Entry = Entry(action: Action, view: Vm)

  /** The steps of one VM. */
  ghost function Own(t: seq<Turn>, u: Uuid): seq<Entry> {
    if t == [] then []
    else
      var e := t[|t| - 1];
      Own(t[..|t| - 1], u) + if e.uuid == u then [Entry(e.action, ViewIn(e.world, u))] else []
  }

  ghost function LastView(es: seq<Entry>): Vm { if es == [] then NO_VM else es[|es| - 1].view }

  /** However the steps of other VMs come in between, a VM is as its own last step left it. */
  lemma {:induction false} ViewIsOwn(t: seq<Turn>, u: Uuid)
    requires Interleaving(t)
    ensures ViewIn(WorldAfter(t), u) == LastView(Own(t, u))
  {
    if t == [] {
      assert ViewIn(NO_WORLD, u) == NO_VM;
    } else {
      var e, front := t[|t| - 1], t[..|t| - 1];
      ViewIsOwn(front, u);
      if e.uuid != u {
        OwnStepSparesOthers(e.uuid, WorldAfter(front), e.action, e.world, u);
      }
    }
  }

  /** After some more steps of u, among others, u is as the last of them left it. */
  lemma ViewAfter(t: seq<Turn>, t': seq<Turn>, u: Uuid, es: seq<Entry>)
    requires Interleaving(t) && Interleaving(t') && Own(t', u) == Own(t, u) + es
    ensures ViewIn(WorldAfter(t'), u) == if es == [] then ViewIn(WorldAfter(t), u) else LastView(es)
  {
    ViewIsOwn(t, u);
    ViewIsOwn(t', u);
  }

  lemma {:induction false} OwnPrefix(t: seq<Turn>, i: nat, u: Uuid)
    requires Interleaving(t) && i <= |t|
    ensures Interleaving(t[..i]) && Own(t[..i], u) <= Own(t, u)
    decreases |t|
  {
    if i == |t| {
      assert t[..i] == t;
    } else {
      OwnPrefix(t[..|t| - 1], i, u);
      assert t[..|t| - 1][..i] == t[..i];
    }
  }

  /** Only images and LUNs are ever made. */
  lemma NoCdromIsMade(t: seq<Turn>, i: nat)
    requires Interleaving(t) && i < |t| && t[i].action.Made? && t[i].action.ok
    ensures t[i].action.device == DEVICE_DISK || t[i].action.device == DEVICE_LUN
  {
    OwnPrefix(t, i + 1, t[i].uuid);
    LastMade(t[..i + 1]);
  }

  lemma LastMade(t: seq<Turn>)
    requires t != [] && Interleaving(t) && t[|t| - 1].action.Made? && t[|t| - 1].action.ok
    ensures HasOps(t[|t| - 1].action.device)
  {
  }

  lemma Extend(t: seq<Turn>, e: Turn)
    requires Interleaving(t) && OwnStep(e.uuid, WorldAfter(t), e.action, e.world)
    ensures Interleaving(t + [e]) && WorldAfter(t + [e]) == e.world
    ensures forall u :: Own(t + [e], u) == Own(t, u) + if e.uuid == u then [Entry(e.action, ViewIn(e.world, u))] else []
  {
    assert (t + [e])[..|t|] == t;
  }
}

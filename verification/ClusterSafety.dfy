/**
 Any number of VMs, created, updated and deleted at once on one lock store: at
 every moment every defined VM owns the locks it needs, so no two share a disk.
 */
module ClusterSafety {
  import opened GoTypes
  import opened Vmdef
  import opened LockProtocol
  import LockTable
  import opened Lifecycle
  import opened World
  import opened Outcomes

  /** An operation on a VM: what was asked, whether it was cut short, the answer if not, the VM's steps,
      and the VM afterwards. */
  datatype Doing = Doing(op: Op, delete: bool, cut: bool, reply: Reply, es: seq<Entry>, after: Vm)

  /** The operation ended as the methods of the cluster do. */
  ghost predicate Ended(k: NameOf, v: Vm, op: Op, delete: bool, r: Reply, es: seq<Entry>, w: Vm) {
    match op
    case OpCreate(next) => v == NO_VM && CreateOutcome(k, next, r, es, w)
    case OpUpdate(next) => UpdateOutcome(k, v, next, delete, r, es, w)
    case OpDelete => DeleteOutcome(k, v, delete, r, es, w)
  }

  /** The operation would have ended so, but the daemon died on the way. */
  ghost predicate CutShort(k: NameOf, v: Vm, op: Op, delete: bool, es: seq<Entry>) {
    exists rest, r, w :: Ended(k, v, op, delete, r, es + rest, w)
  }

  /** The operation ended or was cut short, and the VM is as its last step left it. */
  ghost predicate Did(k: NameOf, v: Vm, d: Doing) {
    && d.after == (if d.es == [] then v else LastView(d.es))
    && if d.cut then CutShort(k, v, d.op, d.delete, d.es) else Ended(k, v, d.op, d.delete, d.reply, d.es, d.after)
  }

  ghost function Ending(v: Vm, ds: seq<Doing>): Vm { if ds == [] then v else ds[|ds| - 1].after }

  /** A VM's operations, one after the other. */
  ghost predicate Lived(k: NameOf, v: Vm, ds: seq<Doing>) {
    ds == [] || (Lived(k, v, ds[..|ds| - 1]) && Did(k, Ending(v, ds[..|ds| - 1]), ds[|ds| - 1]))
  }

  /** Every operation left the registry up to date, and every update kept the management mode and
      the device of the paths it retained. */
  ghost predicate LivedOrderly(v: Vm, ds: seq<Doing>) {
    ds == [] ||
      (LivedOrderly(v, ds[..|ds| - 1]) && Orderly(Ending(v, ds[..|ds| - 1]), ds[|ds| - 1].op, ds[|ds| - 1].after))
  }

  /** All steps of the operations. */
  ghost function Entries(ds: seq<Doing>): seq<Entry> {
    if ds == [] then [] else Entries(ds[..|ds| - 1]) + ds[|ds| - 1].es
  }

  ghost predicate AllSafe(k: NameOf, es: seq<Entry>) { forall e | e in es :: Safe(k, e.view) }

  /** An operation leaves the VM safe at each of its steps. */
  lemma StepsAreSafe(k: NameOf, v: Vm, op: Op, delete: bool, r: Reply, es: seq<Entry>, w: Vm)
    requires VmInv(k, v) && Ended(k, v, op, delete, r, es, w)
    requires op.OpUpdate? && v.saved.Some? ==> KeepsIdentity(v.saved.value, op.next)
    ensures AllSafe(k, es)
  {
    match op
    case OpCreate(next) =>
      forall e | e in es ensures Safe(k, e.view) {
        SafeDuringCreate(k, next, e.view);
      }
    case OpUpdate(next) => UpdateIsSafeThroughout(k, v, next, delete, r, es, w);
    case OpDelete =>
  }

  /** Whenever the registry is up to date, an operation may also stop there: what follows can start from
      any of its steps. */
  lemma StepKeepsVmInv(k: NameOf, v: Vm, op: Op, delete: bool, r: Reply, es: seq<Entry>, w: Vm, e: Entry)
    requires VmInv(k, v) && Ended(k, v, op, delete, r, es, w) && e in es && e.view.saved == e.view.defined
    requires op.OpUpdate? && v.saved.Some? ==> KeepsIdentity(v.saved.value, op.next)
    ensures VmInv(k, e.view)
  {
    StepsAreSafe(k, v, op, delete, r, es, w);
    match op
    case OpCreate(next) => if r.Accepted? { CreateIsExact(k, next, r, w); }
    case OpUpdate(next) =>
      if r.Accepted? { UpdateKeepsOnePath(k, v, v.saved.value, next, r.warning, w); }
    case OpDelete =>
  }

  /** One operation, whether it ended or was cut short: the VM is safe at each of its steps, and stays
      so. */
  lemma DoingIsSafe(k: NameOf, v: Vm, d: Doing)
    requires VmInv(k, v) && Did(k, v, d) && Orderly(v, d.op, d.after)
    ensures AllSafe(k, d.es) && VmInv(k, d.after)
  {
    if d.cut {
      var rest, r, w :| Ended(k, v, d.op, d.delete, r, d.es + rest, w);
      StepsAreSafe(k, v, d.op, d.delete, r, d.es + rest, w);
      assert forall e | e in d.es :: e in d.es + rest;
      if d.es != [] {
        StepKeepsVmInv(k, v, d.op, d.delete, r, d.es + rest, w, d.es[|d.es| - 1]);
      }
    } else {
      StepsAreSafe(k, v, d.op, d.delete, d.reply, d.es, d.after);
      StepKeepsInv(k, v, d.op, d.reply, d.after);
    }
  }

  lemma SafeDuringCreate(k: NameOf, next: seq<Disk>, w: Vm)
    requires DuringUpdate(k, NO_VM, [], next, w)
    ensures Safe(k, w)
  {
    UnsharedFromNothing(k, next);
  }

  /** An update that keeps identities leaves the VM safe at every moment, whether it is accepted or
      fails at any point. */
  lemma UpdateIsSafeThroughout(k: NameOf, v: Vm, next: seq<Disk>, delete: bool, r: Reply, es: seq<Entry>, w: Vm)
    requires VmInv(k, v) && UpdateOutcome(k, v, next, delete, r, es, w)
    requires v.saved.Some? ==> KeepsIdentity(v.saved.value, next)
    ensures AllSafe(k, es)
  {
    if v.saved.Some? && !r.Rejected? {
      forall e | e in es ensures Safe(k, e.view) {
        SafeDuringUpdate(k, v, v.saved.value, next, e.view);
      }
    }
  }

  lemma {:induction false} LifeIsSafeThroughout(k: NameOf, v: Vm, ds: seq<Doing>)
    requires VmInv(k, v) && Lived(k, v, ds) && LivedOrderly(v, ds)
    ensures AllSafe(k, Entries(ds)) && VmInv(k, Ending(v, ds))
  {
    if ds != [] {
      LifeIsSafeThroughout(k, v, ds[..|ds| - 1]);
      DoingIsSafe(k, Ending(v, ds[..|ds| - 1]), ds[|ds| - 1]);
    }
  }

  // --------------------------------------------------------------- all at once

  /** The steps of u in an interleaving are those of an orderly life, the last operation of which may
      still be going on. */
  ghost predicate Living(k: NameOf, t: seq<Turn>, u: Uuid, life: seq<Doing>) {
    Lived(k, NO_VM, life) && LivedOrderly(NO_VM, life) && Own(t, u) <= Entries(life)
  }

  /** A VM whose own operations are orderly is safe at every moment, whatever steps other VMs make in
      between, orderly or not. */
  lemma OrderlyVmIsSafe(k: NameOf, t: seq<Turn>, u: Uuid, life: seq<Doing>, i: nat)
    requires Interleaving(t) && Living(k, t, u, life) && i <= |t|
    ensures Safe(k, ViewIn(WorldAfter(t[..i]), u))
  {
    OwnPrefix(t, i, u);
    ViewIsOwn(t[..i], u);
    LifeIsSafeThroughout(k, NO_VM, life);
    var es := Own(t[..i], u);
    if es != [] {
      assert es[|es| - 1] == Entries(life)[|es| - 1];
    }
  }

  /** However the steps of any number of VMs interleave, with every call free to fail: at every
      moment, every managed disk of every defined VM has its lock owned by that VM, and no two
      defined VMs need one lock. */
  lemma EveryVmIsSafe(k: NameOf, t: seq<Turn>, lives: Uuid -> seq<Doing>, i: nat)
    requires Interleaving(t) && (forall u :: Living(k, t, u, lives(u))) && i <= |t|
    ensures var w := WorldAfter(t[..i]);
      && (forall u | u in w.defined :: Safe(k, ViewIn(w, u)))
      && (forall u, v | u in w.defined && v in w.defined && u != v :: Needs(k, w.defined[u]) !! Needs(k, w.defined[v]))
  {
    var w := WorldAfter(t[..i]);
    forall u | u in w.defined ensures Safe(k, ViewIn(w, u)) {
      OrderlyVmIsSafe(k, t, u, lives(u), i);
    }
    forall u, v | u in w.defined && v in w.defined && u != v ensures Needs(k, w.defined[u]) !! Needs(k, w.defined[v]) {
      NoSharedDisk(k, w.locks, u, v, w.defined[u], w.defined[v]);
    }
  }

  // ---------------------------------------------------------------- exactness

  /** All operations ended, and nothing was left behind in any. */
  ghost predicate LivedTidily(v: Vm, ds: seq<Doing>) {
    ds == [] ||
      (LivedTidily(v, ds[..|ds| - 1]) && !ds[|ds| - 1].cut
       && Tidy(Ending(v, ds[..|ds| - 1]), ds[|ds| - 1].op, ds[|ds| - 1].reply, ds[|ds| - 1].after))
  }

  /** After a tidy life the VM owns exactly the locks that its definition needs. */
  lemma {:induction false} LifeIsExact(k: NameOf, v: Vm, ds: seq<Doing>)
    requires VmInv(k, v) && Exact(k, v) && Lived(k, v, ds) && LivedOrderly(v, ds) && LivedTidily(v, ds)
    ensures Exact(k, Ending(v, ds))
  {
    if ds != [] {
      var front, d := ds[..|ds| - 1], ds[|ds| - 1];
      LifeIsExact(k, v, front);
      LifeIsSafeThroughout(k, v, front);
      ExactStep(k, Ending(v, front), d.op, d.reply, d.after);
    }
  }

  lemma LastOfBoth(es: seq<Entry>, fs: seq<Entry>)
    ensures LastView(es + fs) == if fs == [] then LastView(es) else LastView(fs)
  {
    if fs == [] { assert es + fs == es; }
  }

  lemma {:induction false} EndingIsLastView(k: NameOf, ds: seq<Doing>)
    requires Lived(k, NO_VM, ds)
    ensures Ending(NO_VM, ds) == LastView(Entries(ds))
  {
    if ds != [] {
      var front, d := ds[..|ds| - 1], ds[|ds| - 1];
      EndingIsLastView(k, front);
      LastOfBoth(Entries(front), d.es);
    }
  }

  /** The locks under u's name are exactly those that its definition needs. */
  ghost predicate HoldsItsNeeds(k: NameOf, w: World, u: Uuid) {
    forall n :: (n in w.locks && w.locks[n] == u) <==> (u in w.defined && n in Needs(k, w.defined[u]))
  }

  lemma ExactHoldsItsNeeds(k: NameOf, w: World, u: Uuid)
    requires Exact(k, ViewIn(w, u))
    ensures HoldsItsNeeds(k, w, u)
  {
    assert forall n :: n in LockTable.OwnedBy(w.locks, u) <==> n in w.locks && w.locks[n] == u;
  }

  /** When all operations of all VMs are over, and nothing was left behind, the lock table holds
      exactly what the defined VMs need, each lock under the one VM that needs it. */
  lemma TableIsExact(k: NameOf, t: seq<Turn>, lives: Uuid -> seq<Doing>)
    requires Interleaving(t)
    requires forall u :: Living(k, t, u, lives(u)) && LivedTidily(NO_VM, lives(u)) && Own(t, u) == Entries(lives(u))
    ensures forall u :: HoldsItsNeeds(k, WorldAfter(t), u)
  {
    forall u ensures HoldsItsNeeds(k, WorldAfter(t), u) {
      assert Living(k, t, u, lives(u));
      EndsExact(k, t, u, lives(u));
      ExactHoldsItsNeeds(k, WorldAfter(t), u);
    }
  }

  lemma EndsExact(k: NameOf, t: seq<Turn>, u: Uuid, life: seq<Doing>)
    requires Interleaving(t) && Living(k, t, u, life) && LivedTidily(NO_VM, life) && Own(t, u) == Entries(life)
    ensures Exact(k, ViewIn(WorldAfter(t), u))
  {
    ViewIsOwn(t, u);
    EndingIsLastView(k, life);
    LifeIsExact(k, NO_VM, life);
  }

  // ------------------------------------------------------- locks of other VMs

  /** Along an interleaving, only a VM's own steps change what it owns: a lock that u owns before
      some steps of other VMs is u's after them, and no other becomes u's. */
  lemma {:induction false} OthersTakeNoLock(t: seq<Turn>, i: nat, u: Uuid)
    requires Interleaving(t) && i <= |t| && forall j | i <= j < |t| :: t[j].uuid != u
    ensures ViewIn(WorldAfter(t), u) == ViewIn(WorldAfter(t[..i]), u)
    decreases |t|
  {
    if i == |t| {
      assert t[..i] == t;
    } else {
      var e, front := t[|t| - 1], t[..|t| - 1];
      OthersTakeNoLock(front, i, u);
      assert front[..i] == t[..i];
      OwnStepSparesOthers(e.uuid, WorldAfter(front), e.action, e.world, u);
    }
  }
}

/**
 How storage.Create, Rollback and Delete, and the operations on VMs that use them,
 end for one VM, and how the VM looks at every moment of them.
 */
module Outcomes {
  import opened GoTypes
  import opened Vmdef
  import opened LockProtocol
  import opened Lifecycle
  import opened World
  import opened Provision

  /** The names that a list of actions tried to release, in order. */
  ghost function Attempts(es: seq<Entry>): seq<Name> {
    if es == [] then []
    else Attempts(es[..|es| - 1]) + if es[|es| - 1].action.Released? then [es[|es| - 1].action.name] else []
  }

  ghost predicate AllReleased(es: seq<Entry>) {
    forall e | e in es && e.action.Released? :: e.action.ok
  }

  /** Disks are erased along with their locks, or left alone. */
  ghost predicate ErasesAll(es: seq<Entry>, erases: bool) {
    forall e | e in es && e.action.Released? :: e.action.erases == erases
  }

  lemma AttemptsSnoc(es: seq<Entry>, e: Entry)
    ensures Attempts(es + [e]) == Attempts(es) + if e.action.Released? then [e.action.name] else []
  {
    assert (es + [e])[..|es|] == es;
  }

  /** Every moment keeps the definition and all the locks the VM had. */
  ghost predicate AllHold(v: Vm, es: seq<Entry>) { forall e | e in es :: Holding(v, e.view) }

  ghost predicate AllDuring(k: NameOf, v: Vm, previous: seq<Disk>, next: seq<Disk>, es: seq<Entry>) {
    forall e | e in es :: DuringUpdate(k, v, previous, next, e.view)
  }

  /** Delete can deal with every departing managed disk: the names differ, and, with the delete flag,
      there is an operation for each device. */
  ghost predicate Deletable(k: NameOf, xs: seq<Disk>, ys: seq<Disk>, delete: bool) {
    NoDup(Unshared(k, xs, ys)) && forall d | d in xs && Apart(d, ys) :: !delete || HasOps(d.device)
  }

  /** Every departing managed disk was tried, whatever failed before it; the locks of those that
      Delete cannot handle stay; and there is no warning only if it can handle all. */
  ghost predicate TriedAll(k: NameOf, v: Vm, previous: seq<Disk>, next: seq<Disk>, delete: bool,
                          es: seq<Entry>, w: Vm) {
    && Attempts(es) == Unshared(k, previous, next)
    && (v.owned + ToSet(Unshared(k, next, previous))) - Removable(k, previous, next, delete) <= w.owned
    && (AllReleased(es) ==> Deletable(k, previous, next, delete))
  }

  /** The VM keeps everything at every moment, and in the end has nothing more than locks that failed
      to be released again. */
  ghost predicate Failure(k: NameOf, v: Vm, previous: seq<Disk>, next: seq<Disk>, es: seq<Entry>, w: Vm) {
    && AllHold(v, es) && ErasesAll(es, false)
    && FailedUpdate(v, ToSet(Unshared(k, next, previous)), w) && (AllReleased(es) ==> w == v)
  }

  /** How an update ends, and how the VM looks at every moment of it: when it fails, the VM keeps
      everything all the time, and a rollback without errors restores it entirely. */
  ghost predicate UpdateOutcome(k: NameOf, v: Vm, next: seq<Disk>, delete: bool, r: Reply, es: seq<Entry>, w: Vm) {
    && Step(k, v, OpUpdate(next), r, w)
    && (if v.saved.None? || r.Rejected? then es == [] else AllDuring(k, v, v.saved.value, next, es))
    && ErasesAll(es, r.Accepted? && delete)
    && (r.StorageFailed? || r.Undefinable? ==> AllHold(v, es) && (AllReleased(es) ==> w == v))
    && (r.Accepted? ==> (r.warning <==> !AllReleased(es)) && TriedAll(k, v, v.saved.value, next, delete, es, w))
  }

  /** How a creation ends: as CreateEnds says, keeping the definition safe at every moment. */
  ghost predicate CreateOutcome(k: NameOf, next: seq<Disk>, r: Reply, es: seq<Entry>, w: Vm) {
    && CreateEnds(k, next, r, w) && ErasesAll(es, false) && AllDuring(k, NO_VM, [], next, es)
    && (r.Rejected? ==> es == [])
    && (r.StorageFailed? || r.Undefinable? ==> AllHold(NO_VM, es) && (AllReleased(es) ==> w == NO_VM))
  }

  /** How a deletion ends: no lock goes while the VM is defined, every one is tried once it is not. */
  ghost predicate DeleteOutcome(k: NameOf, v: Vm, delete: bool, r: Reply, es: seq<Entry>, w: Vm) {
    && DeleteEnds(k, v, r, w) && ErasesAll(es, delete)
    && (if r.Accepted? then
          v.defined.Some? && Attempts(es) == Unshared(k, v.defined.value, [])
          && v.owned - Removable(k, v.defined.value, [], delete) <= w.owned
          && (r.warning <==> !AllReleased(es))
          && (AllReleased(es) ==> Needs(k, v.defined.value) <= v.owned && Deletable(k, v.defined.value, [], delete))
          && forall e | e in es :: e.view.defined == None
        else es == [])
  }

  lemma CreatedIs(k: NameOf, next: seq<Disk>, es: seq<Entry>, e: Entry, w: Vm)
    requires HoldingAll(NO_VM, es) && e.view == w && e.action == Defined
    requires w.defined == Some(next) && (w.saved == Some(next) || w.saved == None)
    requires Claims(NO_VM, Unshared(k, next, []), w.(defined := None, saved := None))
    ensures CreateOutcome(k, next, Accepted(false), es + [e], w)
  {
  }

  lemma NotCreatedIs(k: NameOf, next: seq<Disk>, es: seq<Entry>, r: Reply, w: Vm)
    requires (r.StorageFailed? || r.Undefinable?) && Failure(k, NO_VM, [], next, es, w)
    ensures CreateOutcome(k, next, r, es, w)
  {
  }

  lemma DeletedIs(k: NameOf, v: Vm, vm: seq<Disk>, delete: bool, w: Vm, e: Entry, es: seq<Entry>, x: Vm, warning: bool)
    requires v.defined == Some(vm) && w.defined == None && (w.saved == None || w.saved == v.saved) && w.owned == v.owned
    requires e.view == w && e.action == Undefined && warning == FirstFailure(es).Some?
    requires Releases(w, Unshared(k, vm, []), Removable(k, vm, [], delete), es, x) && ErasesAll(es, delete)
    ensures DeleteOutcome(k, v, delete, Accepted(warning), [e] + es, x)
  {
    NoFailure(es);
    NoAttempts([e], es);
    AllReleasedAfter([e], es);
    UnsharedFromNothing(k, vm);
    if AllReleased(es) { CleanIsDeletable(k, vm, [], delete); }
  }

  lemma UndoneIs(v: Vm, created: seq<Name>, fresh': seq<Name>, w: Vm, before: seq<Entry>, es: seq<Entry>, x: Vm)
    requires Claims(v, created, w) && created <= fresh' && HoldingAll(v, before)
    requires Releases(w, created, ToSet(created), es, x) && ErasesAll(es, false)
    ensures FailedUpdate(v, ToSet(fresh'), x) && AllHold(v, before + es) && ErasesAll(before + es, false)
    ensures AllReleased(before + es) ==> x == v
  {
    assert ToSet(created) <= ToSet(fresh');
    AllReleasedAfter(before, es);
    assert w.owned - ToSet(created) == v.owned;
  }

  lemma AcceptedIs(k: NameOf, v: Vm, previous: seq<Disk>, next: seq<Disk>, delete: bool,
                   es1: seq<Entry>, w: Vm, e: Entry, es2: seq<Entry>, x: Vm, warning: bool)
    requires warning == FirstFailure(es2).Some?
    requires HoldingAll(v, es1) && e.view == w && e.action == Defined && v.saved == Some(previous)
    requires w.defined == Some(next) && (w.saved == Some(next) || w.saved == v.saved)
    requires Claims(v, Unshared(k, next, previous), w.(defined := v.defined, saved := v.saved))
    requires Releases(w, Unshared(k, previous, next), Removable(k, previous, next, delete), es2, x)
    requires ErasesAll(es2, delete)
    ensures UpdateOutcome(k, v, next, delete, Accepted(warning), es1 + ([e] + es2), x)
  {
    LogMore(es1, [e], es2);
    NoFailure(es2);
    NoAttempts(es1 + [e], es2);
    AllReleasedAfter(es1 + [e], es2);
    if AllReleased(es2) { CleanIsDeletable(k, previous, next, delete); }
  }

  lemma AllReleasedAfter(es1: seq<Entry>, es2: seq<Entry>)
    requires forall e | e in es1 :: !e.action.Released?
    ensures AllReleased(es1 + es2) <==> AllReleased(es2)
  {
    assert forall e | e in es2 :: e in es1 + es2;
  }

  /** If all names differ and all can be released, there is an operation for every disk. */
  lemma CleanIsDeletable(k: NameOf, xs: seq<Disk>, ys: seq<Disk>, delete: bool)
    requires NoDup(Unshared(k, xs, ys)) && Removable(k, xs, ys, delete) == ToSet(Unshared(k, xs, ys))
    ensures Deletable(k, xs, ys, delete)
  {
    forall d | d in xs && Apart(d, ys) ensures !delete || HasOps(d.device) {
      var i :| 0 <= i < |xs| && xs[i] == d;
      UnsharedMeans(k, xs, ys, Key(k, d));
      assert Key(k, d) in Removable(k, xs, ys, delete);
      var e :| e in xs && Apart(e, ys) && (!delete || HasOps(e.device)) && Key(k, e) == Key(k, d);
      var j :| 0 <= j < |xs| && xs[j] == e;
      if i < j { FreshNamesAreOneDisk(k, xs, ys, i, j); }
      if j < i { FreshNamesAreOneDisk(k, xs, ys, j, i); }
    }
  }

  lemma {:induction false} NoAttempts(es1: seq<Entry>, es2: seq<Entry>)
    requires forall e | e in es1 :: !e.action.Released?
    ensures Attempts(es1 + es2) == Attempts(es2)
    decreases |es2|, |es1|
  {
    if es2 != [] {
      assert (es1 + es2)[..|es1 + es2| - 1] == es1 + es2[..|es2| - 1];
      NoAttempts(es1, es2[..|es2| - 1]);
    } else if es1 != [] {
      assert es1 + es2 == es1 && es1[|es1| - 1] in es1;
      NoAttempts(es1[..|es1| - 1], []);
      assert es1[..|es1| - 1] + [] == es1[..|es1| - 1];
    }
  }

  lemma RejectedIs(k: NameOf, v: Vm, next: seq<Disk>, delete: bool)
    ensures UpdateOutcome(k, v, next, delete, Rejected, [], v)
  {
  }

  lemma FailedIs(k: NameOf, v: Vm, previous: seq<Disk>, next: seq<Disk>, delete: bool, es: seq<Entry>, r: Reply, w: Vm)
    requires v.saved == Some(previous) && (r.StorageFailed? || r.Undefinable?) && Failure(k, v, previous, next, es, w)
    ensures UpdateOutcome(k, v, next, delete, r, es, w)
  {
  }

  /** Rollback after its first i names. */
  ghost predicate RolledBack(v: Vm, created: seq<Name>, i: nat, es: seq<Entry>, w: Vm) {
    i <= |created| && Releases(v, created[..i], ToSet(created[..i]), es, w)
  }

  lemma RolledBackMore(v: Vm, created: seq<Name>, i: nat, es: seq<Entry>, w: Vm, e: Entry)
    requires i < |created| && RolledBack(v, created, i, es, w)
    requires e.action.Released? && e.action.name == created[i]
    requires e.view.defined == w.defined && e.view.saved == w.saved
    requires e.view.owned == w.owned || e.view.owned == w.owned - {created[i]}
    requires e.action.ok ==> created[i] in w.owned && e.view.owned == w.owned - {created[i]}
    ensures RolledBack(v, created, i + 1, es + [e], e.view)
  {
    ReleasesMore(v, created[..i], ToSet(created[..i]), es, w, e, true);
    assert created[..i + 1] == created[..i] + [created[i]];
    ToSetSnoc(created[..i], created[i]);
  }

  /** Delete after its first i disks. */
  ghost predicate Deleted(k: NameOf, v: Vm, vm: seq<Disk>, i: nat, next: seq<Disk>, delete: bool,
                          es: seq<Entry>, w: Vm) {
    i <= |vm| && Releases(v, Unshared(k, vm[..i], next), Removable(k, vm[..i], next, delete), es, w)
  }

  lemma DeletedSkip(k: NameOf, v: Vm, vm: seq<Disk>, i: nat, next: seq<Disk>, delete: bool, es: seq<Entry>, w: Vm)
    requires i < |vm| && !Apart(vm[i], next) && Deleted(k, v, vm, i, next, delete, es, w)
    ensures Deleted(k, v, vm, i + 1, next, delete, es, w)
  {
    UnsharedPrefix(k, vm, i, next);
    RemovablePrefix(k, vm, i, next, delete);
  }

  lemma DeletedMore(k: NameOf, v: Vm, vm: seq<Disk>, i: nat, next: seq<Disk>, delete: bool,
                    es: seq<Entry>, w: Vm, e: Entry)
    requires i < |vm| && Apart(vm[i], next) && Deleted(k, v, vm, i, next, delete, es, w)
    requires e.action.Released? && e.action.name == Key(k, vm[i])
    requires e.view.defined == w.defined && e.view.saved == w.saved
    requires e.view.owned == w.owned || ((!delete || HasOps(vm[i].device)) && e.view.owned == w.owned - {e.action.name})
    requires e.action.ok ==> !delete || HasOps(vm[i].device)
    requires e.action.ok ==> e.action.name in w.owned && e.view.owned == w.owned - {e.action.name}
    ensures Deleted(k, v, vm, i + 1, next, delete, es + [e], e.view)
  {
    UnsharedPrefix(k, vm, i, next);
    RemovablePrefix(k, vm, i, next, delete);
    ReleasesMore(v, Unshared(k, vm[..i], next), Removable(k, vm[..i], next, delete), es, w, e,
                 !delete || HasOps(vm[i].device));
  }

  lemma ToSetSnoc(names: seq<Name>, n: Name)
    ensures ToSet(names + [n]) == ToSet(names) + {n}
  {
  }

  /** The locks Delete can release: with the delete flag, only those of devices that it knows how to
      delete. */
  function Removable(k: NameOf, xs: seq<Disk>, ys: seq<Disk>, delete: bool): set<Name> {
    set d | d in xs && Apart(d, ys) && (!delete || HasOps(d.device)) :: Key(k, d)
  }

  lemma RemovablePrefix(k: NameOf, xs: seq<Disk>, i: nat, ys: seq<Disk>, delete: bool)
    requires i < |xs|
    ensures Removable(k, xs[..i + 1], ys, delete)
         == Removable(k, xs[..i], ys, delete)
            + if Apart(xs[i], ys) && (!delete || HasOps(xs[i].device)) then {Key(k, xs[i])} else {}
  {
    assert xs[..i + 1] == xs[..i] + [xs[i]];
  }

  /** The name of the first release that failed. */
  ghost function FirstFailure(es: seq<Entry>): Option<Name> {
    if es == [] then None
    else if FirstFailure(es[..|es| - 1]).Some? then FirstFailure(es[..|es| - 1])
    else
      var a := es[|es| - 1].action;
      if a.Released? && !a.ok then Some(a.name) else None
  }

  lemma FailureSnoc(es: seq<Entry>, e: Entry)
    ensures FirstFailure(es + [e])
         == if FirstFailure(es).Some? then FirstFailure(es)
            else if e.action.Released? && !e.action.ok then Some(e.action.name) else None
  {
    assert (es + [e])[..|es|] == es;
  }

  lemma {:induction false} NoFailure(es: seq<Entry>)
    ensures FirstFailure(es).None? <==> AllReleased(es)
  {
    if es != [] {
      NoFailure(es[..|es| - 1]);
      assert es == es[..|es| - 1] + [es[|es| - 1]];
    }
  }

  /** A VM that tried to give up locks, in order, and did so with some of `can`; if every release
      succeeded, the names were different and it could and did give up all. */
  ghost predicate Releases(v: Vm, tried: seq<Name>, can: set<Name>, es: seq<Entry>, w: Vm) {
    && w.defined == v.defined && w.saved == v.saved && Attempts(es) == tried
    && v.owned - can <= w.owned <= v.owned && can <= ToSet(tried)
    && (AllReleased(es) ==>
          NoDup(tried) && can == ToSet(tried) && ToSet(tried) <= v.owned && w.owned == v.owned - ToSet(tried))
    && forall e | e in es ::
         e.action.Released? && e.view.defined == v.defined && e.view.saved == v.saved && v.owned - can <= e.view.owned
  }

  lemma ReleasesMore(v: Vm, tried: seq<Name>, can: set<Name>, es: seq<Entry>, w: Vm, e: Entry, able: bool)
    requires Releases(v, tried, can, es, w) && e.action.Released?
    requires e.view.defined == w.defined && e.view.saved == w.saved
    requires e.view.owned == w.owned || (able && e.view.owned == w.owned - {e.action.name})
    requires e.action.ok ==> able && e.action.name in w.owned && e.view.owned == w.owned - {e.action.name}
    ensures Releases(v, tried + [e.action.name], can + if able then {e.action.name} else {}, es + [e], e.view)
  {
    ToSetSnoc(tried, e.action.name);
    AttemptsSnoc(es, e);
    assert AllReleased(es + [e]) ==> AllReleased(es) && e.action.ok by {
      assert e in es + [e];
      assert forall f | f in es :: f in es + [e];
    }
    assert forall n | n in tried :: n in ToSet(tried);
  }

  /** The name Create wants to claim for a disk. */
  function Wanted(k: NameOf, d: Disk, previous: seq<Disk>): seq<Name> {
    if Apart(d, previous) then [Key(k, d)] else []
  }

  lemma ClaimsMore(v: Vm, created: seq<Name>, w: Vm, claimed: seq<Name>, x: Vm)
    requires Claims(v, created, w) && |claimed| <= 1 && Claims(w, claimed, x)
    ensures Claims(v, created + claimed, x)
  {
    assert ToSet(created + claimed) == ToSet(created) + ToSet(claimed);
    if claimed != [] {
      assert claimed[0] in ToSet(claimed);
      assert forall n | n in created :: n in ToSet(created);
    }
  }

  /** Nothing the VM had is lost. */
  predicate Holding(v: Vm, w: Vm) { w.defined == v.defined && w.saved == v.saved && v.owned <= w.owned }

  /** No lock is given up, and none of the VM's things are lost at any moment. */
  ghost predicate HoldingAll(v: Vm, es: seq<Entry>) {
    forall e | e in es :: Prepares(e.action) && Holding(v, e.view)
  }

  lemma HoldingMore(v: Vm, w: Vm, es: seq<Entry>, one: seq<Entry>)
    requires HoldingAll(v, es) && Holding(v, w) && HoldingAll(w, one)
    ensures HoldingAll(v, es + one)
  {
  }

  /** The first i disks may have been changed by Detect, the others are as they were. */
  ghost predicate Detected(ds: seq<Disk>, now: seq<Disk>, i: nat) {
    && |now| == |ds| && i <= |ds|
    && (forall j | 0 <= j < i :: SameDisk(now[j], ds[j])) && forall j | i <= j < |ds| :: now[j] == ds[j]
  }

  /** Detect may have changed disk i. */
  ghost predicate DetectedOne(before: seq<Disk>, now: seq<Disk>, i: nat) {
    && i < |before| == |now| && SameDisk(now[i], before[i])
    && forall j | 0 <= j < |now| && j != i :: now[j] == before[j]
  }

  lemma DetectedMore(ds: seq<Disk>, before: seq<Disk>, now: seq<Disk>, i: nat)
    requires Detected(ds, before, i) && DetectedOne(before, now, i)
    ensures Detected(ds, now, i + 1)
  {
  }

  /** What one round of Create does for a disk: it claims the lock that the plan wants, if it gets that
      far, and follows the plan. */
  ghost predicate RoundEnd(k: NameOf, v: Vm, d: Disk, previous: seq<Disk>, claimed: seq<Name>, ok: bool,
                           es: seq<Entry>, w: Vm) {
    && (claimed == [] || claimed == Wanted(k, d, previous)) && (ok ==> claimed == Wanted(k, d, previous))
    && Claims(v, claimed, w) && HoldingAll(v, es) && UnderLock(k, es)
    && Follows(Actions(es), PlanOf(k, d, previous), ok)
  }

  lemma RoundSkipped(k: NameOf, v: Vm, d: Disk, previous: seq<Disk>)
    requires InPaths(d.path, previous)
    ensures RoundEnd(k, v, d, previous, [], true, [], v)
  {
  }

  lemma RoundRefused(k: NameOf, v: Vm, d: Disk, previous: seq<Disk>, e: Entry)
    requires Apart(d, previous) && e == Entry(Claimed(Key(k, d), false), v)
    ensures RoundEnd(k, v, d, previous, [], false, [e], v)
  {
  }

  /** A round that got to the work on the disk. */
  lemma RoundWorked(k: NameOf, v: Vm, d: Disk, previous: seq<Disk>, before: seq<Entry>, w: Vm, a: Action, ok: bool)
    requires !InPaths(d.path, previous) && Claims(v, Wanted(k, d, previous), w)
    requires before == if Managed(d) then [Entry(Claimed(Key(k, d), true), w)] else []
    requires a == if Managed(d) && d.prov != PROV_NONE then Made(d.path, d.device, ok) else Looked(d.path, d.device, ok)
    ensures RoundEnd(k, v, d, previous, Wanted(k, d, previous), ok, before + [Entry(a, w)], w)
  {
    ActionsOfBoth(before, [Entry(a, w)]);
  }

  /** Create after its first i disks. */
  ghost predicate Created(k: NameOf, v: Vm, ds: seq<Disk>, i: nat, previous: seq<Disk>,
                          created: seq<Name>, es: seq<Entry>, w: Vm) {
    && i <= |ds| && created == Unshared(k, ds[..i], previous) && Claims(v, created, w)
    && HoldingAll(v, es) && UnderLock(k, es) && Actions(es) == Plan(k, ds[..i], previous)
  }

  /** How Create ends: every wanted name is claimed and the plan carried out, or the names claimed are
      some first ones of those wanted, and the plan was followed up to a step that failed. */
  ghost predicate CreateEnd(k: NameOf, v: Vm, ds: seq<Disk>, previous: seq<Disk>, created: seq<Name>, ok: bool,
                            es: seq<Entry>, w: Vm) {
    && created <= Unshared(k, ds, previous) && (ok ==> created == Unshared(k, ds, previous))
    && Claims(v, created, w) && HoldingAll(v, es) && UnderLock(k, es)
    && Follows(Actions(es), Plan(k, ds, previous), ok)
  }

  lemma NoneCreated(k: NameOf, v: Vm, ds: seq<Disk>, previous: seq<Disk>)
    ensures Created(k, v, ds, 0, previous, [], [], v)
  {
  }

  lemma LogMore(before: seq<Entry>, es: seq<Entry>, more: seq<Entry>)
    ensures before + es + more == before + (es + more)
  {
  }

  /** One more disk. */
  lemma CreatedMore(k: NameOf, v: Vm, ds: seq<Disk>, i: nat, previous: seq<Disk>, created: seq<Name>,
                    es: seq<Entry>, w: Vm, claimed: seq<Name>, ok: bool, one: seq<Entry>, x: Vm)
    requires i < |ds| && Created(k, v, ds, i, previous, created, es, w)
    requires RoundEnd(k, w, ds[i], previous, claimed, ok, one, x)
    ensures ok ==> Created(k, v, ds, i + 1, previous, created + claimed, es + one, x)
    ensures !ok ==> CreateEnd(k, v, ds, previous, created + claimed, false, es + one, x)
  {
    UnsharedPrefix(k, ds, i, previous);
    ClaimsMore(v, created, w, claimed, x);
    HoldingMore(v, w, es, one);
    FollowsMore(k, ds, i, previous, es, one, ok);
    assert created + claimed <= Unshared(k, ds[..i + 1], previous);
  }

  lemma AllCreated(k: NameOf, v: Vm, ds: seq<Disk>, previous: seq<Disk>, created: seq<Name>, es: seq<Entry>, w: Vm)
    requires Created(k, v, ds, |ds|, previous, created, es, w)
    ensures CreateEnd(k, v, ds, previous, created, true, es, w)
  {
    assert ds[..|ds|] == ds;
  }

  /** How the first half of vm_create and vm_update ends, for the disks that were asked for and what
      Detect made of them: all is in place, or what was claimed is released again. */
  ghost predicate Provided(k: NameOf, v: Vm, asked: seq<Disk>, next: seq<Disk>, previous: seq<Disk>,
                           created: seq<Name>, ok: bool, es: seq<Entry>, w: Vm) {
    if ok then CreateEnd(k, v, asked, previous, created, true, es, w) && created == Unshared(k, next, previous)
    else Failure(k, v, previous, next, es, w) && Prepared(k, asked, previous, false, es)
  }

  lemma ProvidedIs(k: NameOf, v: Vm, asked: seq<Disk>, next: seq<Disk>, previous: seq<Disk>, created: seq<Name>,
                   es: seq<Entry>, w: Vm)
    requires CreateEnd(k, v, asked, previous, created, true, es, w)
    requires Unshared(k, next, previous) == Unshared(k, asked, previous)
    ensures Provided(k, v, asked, next, previous, created, true, es, w)
  {
  }

  lemma ProvidedThen(k: NameOf, v: Vm, asked: seq<Disk>, next: seq<Disk>, previous: seq<Disk>, created: seq<Name>,
                     es: seq<Entry>, w: Vm, rest: seq<Entry>)
    requires Provided(k, v, asked, next, previous, created, true, es, w) && forall e | e in rest :: !Prepares(e.action)
    ensures Prepared(k, asked, previous, true, es + rest)
  {
    PreparedIs(k, asked, previous, true, es, rest);
  }

  lemma DefinedIs(k: NameOf, asked: seq<Disk>, next: seq<Disk>, created: seq<Name>, es: seq<Entry>, w: Vm, e: Entry)
    requires Provided(k, NO_VM, asked, next, [], created, true, es, w) && e.action == Defined
    requires e.view.defined == Some(next) && (e.view.saved == Some(next) || e.view.saved == w.saved)
    requires e.view.owned == w.owned
    ensures CreateOutcome(k, next, Accepted(false), es + [e], e.view) && Prepared(k, asked, [], true, es + [e])
  {
    CreatedIs(k, next, es, e, e.view);
    ProvidedThen(k, NO_VM, asked, next, [], created, es, w, [e]);
  }

  lemma NotProvidedIs(k: NameOf, v: Vm, asked: seq<Disk>, next: seq<Disk>, previous: seq<Disk>, created: seq<Name>,
                      es: seq<Entry>, rest: seq<Entry>, w: Vm)
    requires Follows(Actions(es), Plan(k, asked, previous), false) && UnderLock(k, es)
    requires Failure(k, v, previous, next, es + rest, w) && forall e | e in rest :: !Prepares(e.action)
    ensures Provided(k, v, asked, next, previous, created, false, es + rest, w)
  {
    PreparedIs(k, asked, previous, false, es, rest);
  }

  lemma {:induction false} UnsharedPrefix(k: NameOf, xs: seq<Disk>, i: nat, ys: seq<Disk>)
    requires i < |xs|
    ensures Unshared(k, xs[..i + 1], ys) == Unshared(k, xs[..i], ys) + if Apart(xs[i], ys) then [Key(k, xs[i])] else []
    ensures Unshared(k, xs[..i + 1], ys) <= Unshared(k, xs, ys)
    decreases |xs| - i
  {
    assert xs[..i + 1][..i] == xs[..i];
    if i + 1 == |xs| {
      assert xs[..i + 1] == xs;
    } else {
      UnsharedPrefix(k, xs, i + 1, ys);
    }
  }

  // ------------------------------------------------- when deletion can be clean

  /** Releasing the names of a list one by one, all with success. */
  ghost function CleanReleases(v: Vm, names: seq<Name>, erases: bool): seq<Entry> {
    if names == [] then []
    else
      var n := names[|names| - 1];
      CleanReleases(v, names[..|names| - 1], erases)
        + [Entry(Released(n, erases, true), v.(owned := v.owned - ToSet(names)))]
  }

  lemma {:induction false} CleanReleasesAre(v: Vm, names: seq<Name>, erases: bool)
    requires NoDup(names) && ToSet(names) <= v.owned
    ensures AllReleased(CleanReleases(v, names, erases)) && ErasesAll(CleanReleases(v, names, erases), erases)
    ensures Releases(v, names, ToSet(names), CleanReleases(v, names, erases), v.(owned := v.owned - ToSet(names)))
  {
    if names == [] {
      assert v.(owned := v.owned - ToSet(names)) == v;
    } else {
      var front, n := names[..|names| - 1], names[|names| - 1];
      assert names == front + [n];
      ToSetSnoc(front, n);
      CleanReleasesAre(v, front, erases);
      var es := CleanReleases(v, front, erases);
      var e := Entry(Released(n, erases, true), v.(owned := v.owned - ToSet(names)));
      ReleasesMore(v, front, ToSet(front), es, v.(owned := v.owned - ToSet(front)), e, true);
      assert ToSet(front) + {n} == ToSet(names);
      assert forall f | f in es + [e] :: f in es || f == e;
    }
  }

  lemma DeletableIsRemovable(k: NameOf, xs: seq<Disk>, ys: seq<Disk>, delete: bool)
    requires Deletable(k, xs, ys, delete)
    ensures Removable(k, xs, ys, delete) == ToSet(Unshared(k, xs, ys))
  {
    forall n ensures n in Removable(k, xs, ys, delete) <==> n in Unshared(k, xs, ys) {
      UnsharedMeans(k, xs, ys, n);
      if n in Removable(k, xs, ys, delete) {
        var d :| d in xs && Apart(d, ys) && Key(k, d) == n;
        var i :| 0 <= i < |xs| && xs[i] == d;
      }
    }
  }

  /** Some deletion of the VM ends without a warning. */
  ghost predicate CanEndClean(k: NameOf, v: Vm, delete: bool) {
    exists es, w :: DeleteOutcome(k, v, delete, Accepted(false), es, w)
  }

  /** Deleting a VM can end without a warning if and only if the VM owns every lock it should, under
      different names, and, when its storage is to be deleted too, there is an operation for the
      device of every managed disk.  So with a managed cdrom it never does. */
  lemma CleanDeletionIff(k: NameOf, v: Vm, ds: seq<Disk>, delete: bool)
    requires v.defined == Some(ds)
    ensures CanEndClean(k, v, delete) <==> Needs(k, ds) <= v.owned && Deletable(k, ds, [], delete)
  {
    if Needs(k, ds) <= v.owned && Deletable(k, ds, [], delete) {
      var w := v.(defined := None, saved := None);
      var names := Unshared(k, ds, []);
      UnsharedFromNothing(k, ds);
      CleanReleasesAre(w, names, delete);
      DeletableIsRemovable(k, ds, [], delete);
      var es, e := CleanReleases(w, names, delete), Entry(Undefined, w);
      NoFailure(es);
      DeletedIs(k, v, ds, delete, w, e, es, w.(owned := w.owned - ToSet(names)), false);
    }
  }

  /** What that takes when the storage is to be deleted: different names, and no managed disk but
      images and LUNs. */
  lemma DeletableIff(k: NameOf, xs: seq<Disk>, ys: seq<Disk>)
    ensures Deletable(k, xs, ys, true) <==>
      (NoDup(Unshared(k, xs, ys))
       && forall d | d in xs && Apart(d, ys) :: d.device == DEVICE_DISK || d.device == DEVICE_LUN)
    ensures Deletable(k, xs, ys, false) <==> NoDup(Unshared(k, xs, ys))
  {
  }

  /** The lock of a managed cdrom stays for good, unless an image or a LUN has the same one: there is
      no operation to delete cdroms. */
  lemma UndeletableKeepsLock(k: NameOf, v: Vm, d: Disk, r: Reply, es: seq<Entry>, w: Vm)
    requires v.defined.Some? && d in v.defined.value && Managed(d) && d.device != DEVICE_DISK && d.device != DEVICE_LUN
    requires DeleteOutcome(k, v, true, r, es, w) && r.Accepted? && Key(k, d) in v.owned
    ensures Key(k, d) in w.owned
      || exists e :: e in v.defined.value && Managed(e) && e.device != d.device && Key(k, e) == Key(k, d)
    ensures r.warning
  {
    assert Apart(d, []);
    if Key(k, d) !in w.owned {
      assert Key(k, d) in Removable(k, v.defined.value, [], true);
      var e :| e in v.defined.value && Apart(e, []) && HasOps(e.device) && Key(k, e) == Key(k, d);
    }
  }
}

/**
 What storage.Create has to do for a definition, disk by disk, and what that
 comes to (pkg/storage/storage.go).
 */
module Provision {
  import opened GoTypes
  import opened Vmdef
  import opened LockProtocol
  import opened Lifecycle
  import opened World

  // ------------------------------------------------------------------- the plan

  /** Nothing for a path that the VM has already; a lock for every other managed disk; an image or a
      wiped LUN for those of them that ask for storage, and a look at the rest. */
  function PlanOf(k: NameOf, d: Disk, previous: seq<Disk>): seq<Action> {
    if InPaths(d.path, previous) then []
    else if !Managed(d) then [Looked(d.path, d.device, true)]
    else if d.prov == PROV_NONE then [Claimed(Key(k, d), true), Looked(d.path, d.device, true)]
    else [Claimed(Key(k, d), true), Made(d.path, d.device, true)]
  }

  function Plan(k: NameOf, ds: seq<Disk>, previous: seq<Disk>): seq<Action> {
    if ds == [] then [] else Plan(k, ds[..|ds| - 1], previous) + PlanOf(k, ds[|ds| - 1], previous)
  }

  function Failed(a: Action): Action
    requires Prepares(a)
  {
    match a
    case Claimed(n, _) => Claimed(n, false)
    case Made(p, d, _) => Made(p, d, false)
    case Looked(p, d, _) => Looked(p, d, false)
  }

  /** The plan was carried out, or up to some step that failed. */
  ghost predicate Follows(done: seq<Action>, plan: seq<Action>, ok: bool) {
    if ok then done == plan
    else
      && 0 < |done| <= |plan| && done[..|done| - 1] == plan[..|done| - 1]
      && Prepares(plan[|done| - 1]) && done[|done| - 1] == Failed(plan[|done| - 1])
  }

  function Actions(es: seq<Entry>): seq<Action> { seq(|es|, i requires 0 <= i < |es| => es[i].action) }

  /** Disks are made only while the VM has their locks. */
  ghost predicate UnderLock(k: NameOf, es: seq<Entry>) {
    forall e | e in es && e.action.Made? :: k(e.action.device, e.action.path) in e.view.owned
  }

  /** The steps of an operation begin with the plan for the disks that were asked for, carried out if
      it went on, and have no more of its kind. */
  ghost predicate Prepared(k: NameOf, asked: seq<Disk>, previous: seq<Disk>, ok: bool, es: seq<Entry>) {
    UnderLock(k, es) &&
    exists n | 0 <= n <= |es| ::
      Follows(Actions(es[..n]), Plan(k, asked, previous), ok) && forall i | n <= i < |es| :: !Prepares(es[i].action)
  }

  lemma ActionsOfBoth(es: seq<Entry>, fs: seq<Entry>)
    ensures Actions(es + fs) == Actions(es) + Actions(fs)
  {
  }

  lemma PreparedIs(k: NameOf, asked: seq<Disk>, previous: seq<Disk>, ok: bool, es: seq<Entry>, rest: seq<Entry>)
    requires Follows(Actions(es), Plan(k, asked, previous), ok) && UnderLock(k, es)
    requires forall e | e in rest :: !Prepares(e.action)
    ensures Prepared(k, asked, previous, ok, es + rest)
  {
    assert (es + rest)[..|es|] == es;
    forall i | |es| <= i < |es + rest| ensures !Prepares((es + rest)[i].action) {
      assert rest[i - |es|] in rest;
    }
  }

  lemma {:induction false} PlanPrefix(k: NameOf, ds: seq<Disk>, i: nat, previous: seq<Disk>)
    requires i < |ds|
    ensures Plan(k, ds[..i + 1], previous) == Plan(k, ds[..i], previous) + PlanOf(k, ds[i], previous)
    ensures Plan(k, ds[..i + 1], previous) <= Plan(k, ds, previous)
    decreases |ds| - i
  {
    assert ds[..i + 1][..i] == ds[..i];
    if i + 1 == |ds| {
      assert ds[..i + 1] == ds;
    } else {
      PlanPrefix(k, ds, i + 1, previous);
    }
  }

  /** One more disk, after the plan for the first i. */
  lemma FollowsMore(k: NameOf, ds: seq<Disk>, i: nat, previous: seq<Disk>, es: seq<Entry>, one: seq<Entry>, ok: bool)
    requires i < |ds| && Actions(es) == Plan(k, ds[..i], previous)
    requires Follows(Actions(one), PlanOf(k, ds[i], previous), ok)
    ensures ok ==> Actions(es + one) == Plan(k, ds[..i + 1], previous)
    ensures !ok ==> Follows(Actions(es + one), Plan(k, ds, previous), false)
  {
    ActionsOfBoth(es, one);
    PlanPrefix(k, ds, i, previous);
    if !ok {
      FollowsInMiddle(Actions(es), Actions(one), PlanOf(k, ds[i], previous), Plan(k, ds, previous));
    }
  }

  lemma FollowsInMiddle(before: seq<Action>, done: seq<Action>, part: seq<Action>, plan: seq<Action>)
    requires before + part <= plan && Follows(done, part, false)
    ensures Follows(before + done, plan, false)
  {
    var all := before + done;
    assert all[|all| - 1] == done[|done| - 1] && plan[|all| - 1] == part[|done| - 1];
    assert all[..|all| - 1] == before + done[..|done| - 1];
    assert plan[..|all| - 1] == before + part[..|done| - 1];
  }

  // ---------------------------------------------------------- what the plan means

  /** The disks of new paths, in disk order. */
  function New(ds: seq<Disk>, previous: seq<Disk>): seq<Disk> {
    if ds == [] then []
    else New(ds[..|ds| - 1], previous) + if InPaths(ds[|ds| - 1].path, previous) then [] else [ds[|ds| - 1]]
  }

  lemma {:induction false} NewMeans(ds: seq<Disk>, previous: seq<Disk>, d: Disk)
    ensures d in New(ds, previous) <==> d in ds && !InPaths(d.path, previous)
  {
    if ds != [] {
      NewMeans(ds[..|ds| - 1], previous, d);
      assert ds == ds[..|ds| - 1] + [ds[|ds| - 1]];
    }
  }

  /** The names claimed, and the other actions. */
  function ClaimedNames(plan: seq<Action>): seq<Name> {
    if plan == [] then []
    else
      ClaimedNames(plan[..|plan| - 1]) + if plan[|plan| - 1].Claimed? then [plan[|plan| - 1].name] else []
  }

  function Handled(plan: seq<Action>): (r: seq<Action>)
    ensures forall a | a in r :: a in plan && !a.Claimed?
  {
    if plan == [] then []
    else
      Handled(plan[..|plan| - 1]) + if plan[|plan| - 1].Claimed? then [] else [plan[|plan| - 1]]
  }

  /** Made, for a managed disk that asks for storage, and otherwise looked at. */
  predicate Handles(a: Action, d: Disk) {
    && (a.Made? <==> Managed(d) && d.prov != PROV_NONE) && (a.Looked? <==> !(Managed(d) && d.prov != PROV_NONE))
    && ((a.Made? || a.Looked?) ==> a.path == d.path && a.device == d.device && a.ok)
  }

  ghost predicate HandlesEach(done: seq<Action>, ds: seq<Disk>) {
    |done| == |ds| && forall i | 0 <= i < |ds| :: Handles(done[i], ds[i])
  }

  /** Every claim is followed by work on the disk with that lock, and no disk is made but right after
      the claim of its lock. */
  ghost predicate ClaimsFirst(k: NameOf, plan: seq<Action>) {
    && (forall j | 0 <= j < |plan| && plan[j].Claimed? ::
          j + 1 < |plan| && (plan[j + 1].Made? || plan[j + 1].Looked?)
          && plan[j] == Claimed(k(plan[j + 1].device, plan[j + 1].path), true))
    && (forall j | 0 <= j < |plan| && plan[j].Made? ::
          j > 0 && plan[j - 1] == Claimed(k(plan[j].device, plan[j].path), true))
  }

  lemma {:induction false} ClaimedNamesOfBoth(a: seq<Action>, b: seq<Action>)
    ensures ClaimedNames(a + b) == ClaimedNames(a) + ClaimedNames(b)
    decreases |b|
  {
    if b == [] {
      assert a + b == a;
    } else {
      ClaimedNamesOfBoth(a, b[..|b| - 1]);
      assert (a + b)[..|a + b| - 1] == a + b[..|b| - 1];
    }
  }

  lemma {:induction false} HandledOfBoth(a: seq<Action>, b: seq<Action>)
    ensures Handled(a + b) == Handled(a) + Handled(b)
    decreases |b|
  {
    if b == [] {
      assert a + b == a;
    } else {
      HandledOfBoth(a, b[..|b| - 1]);
      assert (a + b)[..|a + b| - 1] == a + b[..|b| - 1];
    }
  }

  lemma ProjectOne(a: Action)
    ensures ClaimedNames([a]) == if a.Claimed? then [a.name] else []
    ensures Handled([a]) == if a.Claimed? then [] else [a]
  {
    assert [a][..0] == [];
  }

  lemma ProjectPair(a: Action, b: Action)
    requires a.Claimed? && !b.Claimed?
    ensures ClaimedNames([a, b]) == [a.name] && Handled([a, b]) == [b]
  {
    ProjectOne(a);
    ProjectOne(b);
    ClaimedNamesOfBoth([a], [b]);
    HandledOfBoth([a], [b]);
    assert [a] + [b] == [a, b];
  }

  lemma ClaimsFirstBoth(k: NameOf, a: seq<Action>, b: seq<Action>)
    requires ClaimsFirst(k, a) && ClaimsFirst(k, b)
    ensures ClaimsFirst(k, a + b)
  {
  }

  lemma OneClaimsFirst(k: NameOf, d: Disk, previous: seq<Disk>)
    ensures ClaimsFirst(k, PlanOf(k, d, previous))
  {
  }

  lemma OnePlan(k: NameOf, d: Disk, previous: seq<Disk>)
    ensures ClaimedNames(PlanOf(k, d, previous)) == if Apart(d, previous) then [Key(k, d)] else []
    ensures HandlesEach(Handled(PlanOf(k, d, previous)), if InPaths(d.path, previous) then [] else [d])
  {
    if !InPaths(d.path, previous) {
      var plan := PlanOf(k, d, previous);
      if Managed(d) {
        ProjectPair(plan[0], plan[1]);
        assert plan == [plan[0], plan[1]];
      } else {
        ProjectOne(plan[0]);
        assert plan == [plan[0]];
      }
    }
  }

  lemma {:induction false} PlanClaims(k: NameOf, ds: seq<Disk>, previous: seq<Disk>)
    ensures ClaimedNames(Plan(k, ds, previous)) == Unshared(k, ds, previous)
  {
    if ds != [] {
      var front, d := ds[..|ds| - 1], ds[|ds| - 1];
      PlanClaims(k, front, previous);
      OnePlan(k, d, previous);
      ClaimedNamesOfBoth(Plan(k, front, previous), PlanOf(k, d, previous));
    }
  }

  lemma {:induction false} PlanHandles(k: NameOf, ds: seq<Disk>, previous: seq<Disk>)
    ensures HandlesEach(Handled(Plan(k, ds, previous)), New(ds, previous))
  {
    if ds != [] {
      var front, d := ds[..|ds| - 1], ds[|ds| - 1];
      PlanHandles(k, front, previous);
      OnePlan(k, d, previous);
      HandledOfBoth(Plan(k, front, previous), PlanOf(k, d, previous));
    }
  }

  lemma {:induction false} PlanClaimsFirst(k: NameOf, ds: seq<Disk>, previous: seq<Disk>)
    ensures ClaimsFirst(k, Plan(k, ds, previous))
  {
    if ds != [] {
      var front, d := ds[..|ds| - 1], ds[|ds| - 1];
      PlanClaimsFirst(k, front, previous);
      OneClaimsFirst(k, d, previous);
      ClaimsFirstBoth(k, Plan(k, front, previous), PlanOf(k, d, previous));
    }
  }

  /** storage.Create claims exactly the names of the managed disks of new paths; it makes exactly those
      of them that ask for storage, and looks at every other disk of a new path; all this in disk
      order, once for each disk, each claim right before the work on its disk; and it leaves retained
      paths alone. */
  lemma PlanMeans(k: NameOf, ds: seq<Disk>, previous: seq<Disk>)
    ensures ClaimedNames(Plan(k, ds, previous)) == Unshared(k, ds, previous)
    ensures HandlesEach(Handled(Plan(k, ds, previous)), New(ds, previous))
    ensures ClaimsFirst(k, Plan(k, ds, previous))
  {
    PlanClaims(k, ds, previous);
    PlanHandles(k, ds, previous);
    PlanClaimsFirst(k, ds, previous);
  }
}

/**
 Two updates of one VM that overlap: nothing in vm_update keeps them apart
 (pkg/virtx/vm_update.go).  Each is a list of steps, and the lists are shuffled in
 any way.
 */
module Overlap {
  import opened GoTypes
  import opened Vmdef
  import opened LockProtocol
  import opened Lifecycle
  import opened World

  /** A step of an update, as the VM sees it.  A release of a lock that the VM has not got fails and
      changes nothing; no other failures of releases are considered here. */
  datatype Act = Claiming(name: Name) | Defining(ds: seq<Disk>) | Releasing(name: Name)

  function Do(v: Vm, a: Act): Vm {
    match a
    case Claiming(n) => v.(owned := v.owned + {n})
    case Defining(ds) => v.(defined := Some(ds), saved := Some(ds))
    case Releasing(n) => v.(owned := v.owned - {n})
  }

  /** A claim needs the name to be free. */
  predicate CanDo(v: Vm, a: Act) { a.Claiming? ==> a.name !in v.owned }

  /** What such a step makes of the cluster. */
  function Turned(u: Uuid, w: World, a: Act): World {
    match a
    case Claiming(n) => w.(locks := w.locks[n := u])
    case Defining(ds) => w.(defined := w.defined[u := ds], saved := w.saved[u := ds])
    case Releasing(n) => if n in w.locks && w.locks[n] == u then w.(locks := w.locks - {n}) else w
  }

  function ActionOf(u: Uuid, w: World, a: Act): Action {
    match a
    case Claiming(n) => Claimed(n, true)
    case Defining(_) => Defined
    case Releasing(n) => Released(n, false, n in w.locks && w.locks[n] == u)
  }

  /** These are steps that the VM's operations make on the cluster. */
  lemma ActsAreOwnSteps(u: Uuid, w: World, a: Act)
    requires a.Claiming? ==> a.name !in w.locks
    ensures OwnStep(u, w, ActionOf(u, w, a), Turned(u, w, a))
    ensures CanDo(ViewIn(w, u), a) && ViewIn(Turned(u, w, a), u) == Do(ViewIn(w, u), a)
  {
  }

  /** An update to `next`: the names it claims, and those it then releases, in order. */
  datatype Update = Update(claims: seq<Name>, next: seq<Disk>, releases: seq<Name>) {
    function Length(): nat { |claims| + 1 + |releases| }

    function At(i: nat): Act
      requires i < Length()
    {
      if i < |claims| then Claiming(claims[i])
      else if i == |claims| then Defining(next)
      else Releasing(releases[i - |claims| - 1])
    }

    predicate HasDefined(i: nat) { i > |claims| }

    /** What the first i steps claim, and what they try to release. */
    function Claims(i: nat): set<Name> { ToSet(claims[..if i < |claims| then i else |claims|]) }

    predicate ClaimsDiffer(i: nat) { NoDup(claims[..if i < |claims| then i else |claims|]) }

    function Releases(i: nat): set<Name>
      requires i <= Length()
    {
      if i <= |claims| + 1 then {} else ToSet(releases[..i - |claims| - 1])
    }
  }

  /** The update from a definition that was read to a new one. */
  function UpdateFrom(k: NameOf, read: seq<Disk>, next: seq<Disk>): Update {
    Update(Unshared(k, next, read), next, Unshared(k, read, next))
  }

  /** The VM, how far the updates p and q have come, and the names that p released after q had claimed
      them. */
  datatype Both = Both(view: Vm, i: nat, j: nat, lost: set<Name>)

  /** The next step of q, if `second`, or of p.  q defines after p; if it is late, it even reads the
      registry after p has defined. */
  predicate CanGo(p: Update, q: Update, late: bool, b: Both, second: bool) {
    if second then
      && b.j < q.Length() && CanDo(b.view, q.At(b.j))
      && (late || b.j == |q.claims| ==> p.HasDefined(b.i))
    else
      b.i < p.Length() && CanDo(b.view, p.At(b.i))
  }

  function Go(p: Update, q: Update, late: bool, b: Both, second: bool): Both
    requires CanGo(p, q, late, b, second)
  {
    if second then
      var a := q.At(b.j);
      Both(Do(b.view, a), b.i, b.j + 1, if a.Claiming? then b.lost - {a.name} else b.lost)
    else
      var a := p.At(b.i);
      Both(Do(b.view, a), b.i + 1, b.j,
           if a.Releasing? && a.name in q.Claims(b.j) then b.lost + {a.name} else b.lost)
  }

  /** Where a shuffle leads; None if a claim finds its name taken, so that an update fails. */
  function Shuffle(p: Update, q: Update, late: bool, v: Vm, turns: seq<bool>): Option<Both> {
    if turns == [] then Some(Both(v, 0, 0, {}))
    else
      var b := Shuffle(p, q, late, v, turns[..|turns| - 1]);
      if b.Some? && CanGo(p, q, late, b.value, turns[|turns| - 1])
      then Some(Go(p, q, late, b.value, turns[|turns| - 1])) else None
  }

  predicate Over(p: Update, q: Update, b: Both) { b.i == p.Length() && b.j == q.Length() }

  // --------------------------------------------------------- what the VM owns

  /** Owned in the end: what it had and p claimed, less what p released, and what q claimed, less what
      was lost and what q released. */
  predicate Owns(p: Update, q: Update, v: Vm, b: Both)
    requires b.i <= p.Length() && b.j <= q.Length()
  {
    b.view.owned == (((v.owned + p.Claims(b.i)) - p.Releases(b.i)) + q.Claims(b.j)) - b.lost - q.Releases(b.j)
  }

  ghost predicate Inv(p: Update, q: Update, late: bool, v: Vm, b: Both) {
    && b.i <= p.Length() && b.j <= q.Length() && Owns(p, q, v, b)
    && p.ClaimsDiffer(b.i) && p.Claims(b.i) !! v.owned && b.lost <= p.Releases(b.i) && b.lost <= q.Claims(b.j)
    && q.Claims(b.j) !! (v.owned + p.Claims(b.i)) - p.Releases(b.i)
    && (q.HasDefined(b.j) || (late && b.j > 0) ==> p.HasDefined(b.i))
    && (q.HasDefined(b.j) ==> b.view.defined == Some(q.next) && b.view.saved == Some(q.next))
  }

  lemma ToSetSnoc(names: seq<Name>, i: nat)
    requires i < |names|
    ensures ToSet(names[..i + 1]) == ToSet(names[..i]) + {names[i]}
  {
    assert names[..i + 1] == names[..i] + [names[i]];
  }

  lemma OneMoreStep(p: Update, i: nat)
    requires i < p.Length()
    ensures p.Claims(i + 1) == p.Claims(i) + if p.At(i).Claiming? then {p.At(i).name} else {}
    ensures p.Releases(i + 1) == p.Releases(i) + if p.At(i).Releasing? then {p.At(i).name} else {}
  {
    if i < |p.claims| { ToSetSnoc(p.claims, i); }
    if i > |p.claims| { ToSetSnoc(p.releases, i - |p.claims| - 1); }
    if i == |p.claims| + 1 { assert p.releases[..0] == []; }
  }

  lemma FirstGoes(p: Update, q: Update, late: bool, v: Vm, b: Both)
    requires Inv(p, q, late, v, b) && CanGo(p, q, late, b, false)
    ensures Inv(p, q, late, v, Go(p, q, late, b, false))
  {
    OneMoreStep(p, b.i);
    if p.At(b.i).Claiming? {
      OneMoreDiffers(p.claims, b.i);
    }
  }

  lemma OneMoreDiffers(names: seq<Name>, i: nat)
    requires i < |names| && NoDup(names[..i]) && names[i] !in ToSet(names[..i])
    ensures NoDup(names[..i + 1])
  {
    assert names[..i + 1] == names[..i] + [names[i]];
    assert forall n | n in names[..i] :: n in ToSet(names[..i]);
  }

  lemma SecondGoes(p: Update, q: Update, late: bool, v: Vm, b: Both)
    requires Inv(p, q, late, v, b) && CanGo(p, q, late, b, true)
    ensures Inv(p, q, late, v, Go(p, q, late, b, true))
  {
    OneMoreStep(q, b.j);
  }

  lemma {:induction false} ShuffleKeepsInv(p: Update, q: Update, late: bool, v: Vm, turns: seq<bool>)
    requires Shuffle(p, q, late, v, turns).Some?
    ensures Inv(p, q, late, v, Shuffle(p, q, late, v, turns).value)
  {
    if turns == [] {
      assert p.claims[..0] == [] && q.claims[..0] == [];
    } else {
      var front := turns[..|turns| - 1];
      ShuffleKeepsInv(p, q, late, v, front);
      if turns[|turns| - 1] {
        SecondGoes(p, q, late, v, Shuffle(p, q, late, v, front).value);
      } else {
        FirstGoes(p, q, late, v, Shuffle(p, q, late, v, front).value);
      }
    }
  }

  // ------------------------------------------------------------- nothing lost

  /** No name that q claims is released twice by p. */
  predicate ReleasedOnce(p: Update, q: Update) {
    forall i, j | 0 <= i < j < |p.releases| && p.releases[i] == p.releases[j] :: p.releases[i] !in q.claims
  }

  /** Only a name that p releases twice can be lost. */
  lemma {:induction false} NothingIsLost(p: Update, q: Update, late: bool, v: Vm, turns: seq<bool>)
    requires ReleasedOnce(p, q) && ToSet(p.releases) <= v.owned && Shuffle(p, q, late, v, turns).Some?
    ensures Shuffle(p, q, late, v, turns).value.lost == {}
  {
    if turns != [] {
      var front := turns[..|turns| - 1];
      var b := Shuffle(p, q, late, v, front).value;
      NothingIsLost(p, q, late, v, front);
      ShuffleKeepsInv(p, q, late, v, front);
      if !turns[|turns| - 1] && p.At(b.i).Releasing? {
        ReleaseLosesNothing(p, q, late, v, b);
      }
    }
  }

  lemma ReleaseLosesNothing(p: Update, q: Update, late: bool, v: Vm, b: Both)
    requires ReleasedOnce(p, q) && ToSet(p.releases) <= v.owned && Inv(p, q, late, v, b)
    requires b.i < p.Length() && p.At(b.i).Releasing?
    ensures p.At(b.i).name !in q.Claims(b.j)
  {
    assert p.At(b.i).name in ToSet(p.releases);
    assert forall m | m in q.Claims(b.j) :: m in q.claims;
    if p.At(b.i).name in p.Releases(b.i) {
      ReleasedBefore(p, q, b.i);
    }
  }

  lemma ReleasedBefore(p: Update, q: Update, i: nat)
    requires ReleasedOnce(p, q) && i < p.Length() && p.At(i).Releasing? && p.At(i).name in p.Releases(i)
    ensures p.At(i).name !in q.claims
  {
    var r := i - |p.claims| - 1;
    var j :| 0 <= j < r && p.releases[..r][j] == p.At(i).name;
    assert p.releases[j] == p.releases[r];
  }

  // ---------------------------------------------------------------- both read xs

  /** p drops no path that q retains, unless q claims its name for another disk; and q does not give up
      what it claims. */
  ghost predicate Spares(k: NameOf, xs: seq<Disk>, n1: seq<Disk>, n2: seq<Disk>) {
    forall d | d in n2 && Managed(d) :: Spared(k, xs, n1, n2, d)
  }

  predicate Spared(k: NameOf, xs: seq<Disk>, n1: seq<Disk>, n2: seq<Disk>, d: Disk) {
    if InPaths(d.path, xs) then InPaths(d.path, n1) || Key(k, d) in Unshared(k, n2, xs)
    else Key(k, d) !in Unshared(k, xs, n2)
  }

  lemma WholeUpdate(p: Update)
    ensures p.Claims(p.Length()) == ToSet(p.claims) && p.Releases(p.Length()) == ToSet(p.releases)
    ensures p.ClaimsDiffer(p.Length()) <==> NoDup(p.claims)
  {
    assert p.claims[..|p.claims|] == p.claims && p.releases[..|p.releases|] == p.releases;
  }

  /** What the VM owns after both updates. */
  lemma OwnedAfterBoth(p: Update, q: Update, late: bool, v: Vm, turns: seq<bool>, b: Both)
    requires Shuffle(p, q, late, v, turns) == Some(b) && Over(p, q, b)
    ensures b.view.owned
         == (((v.owned + ToSet(p.claims)) - ToSet(p.releases)) + ToSet(q.claims)) - b.lost - ToSet(q.releases)
    ensures b.view.defined == Some(q.next) && Inv(p, q, late, v, b)
  {
    ShuffleKeepsInv(p, q, late, v, turns);
    WholeUpdate(p);
    WholeUpdate(q);
  }

  /** Two updates that read the same definition, their steps shuffled in any way: the VM ends safe if
      and only if the first spares what the second retains, the second what it claims, and no name is
      lost that the second needs. */
  lemma OverlapSafeIff(k: NameOf, v: Vm, xs: seq<Disk>, n1: seq<Disk>, n2: seq<Disk>, turns: seq<bool>, b: Both)
    requires VmInv(k, v) && v.defined == Some(xs) && KeepsIdentity(xs, n2)
    requires Shuffle(UpdateFrom(k, xs, n1), UpdateFrom(k, xs, n2), false, v, turns) == Some(b)
    requires Over(UpdateFrom(k, xs, n1), UpdateFrom(k, xs, n2), b)
    ensures Safe(k, b.view) <==> Spares(k, xs, n1, n2) && Needs(k, n2) !! b.lost
  {
    var p, q := UpdateFrom(k, xs, n1), UpdateFrom(k, xs, n2);
    OwnedAfterBoth(p, q, false, v, turns, b);
    forall d | d in n2 && Managed(d)
      ensures Key(k, d) in b.view.owned <==> Key(k, d) !in b.lost && Spared(k, xs, n1, n2, d)
    {
      if InPaths(d.path, xs) {
        RetainedIsNeeded(k, xs, n2, d);
        RetainedStays(k, xs, n2, n1, d);
        RetainedStays(k, xs, n2, n2, d);
      } else {
        FreshIsUnshared(k, xs, n2, d);
      }
    }
    SafeMeans(k, b.view, n2);
    assert Needs(k, n2) !! b.lost <==> forall d | d in n2 && Managed(d) :: Key(k, d) !in b.lost by {
      assert forall d | d in n2 && Managed(d) :: Key(k, d) in Needs(k, n2);
    }
  }

  lemma SafeMeans(k: NameOf, v: Vm, ds: seq<Disk>)
    requires v.defined == Some(ds)
    ensures Safe(k, v) <==> forall d | d in ds && Managed(d) :: Key(k, d) in v.owned
  {
    assert forall d | d in ds && Managed(d) :: Key(k, d) in Needs(k, ds);
  }

  /** So when the first releases no name twice that the second claims, as always when no two departing
      disks share a name, a caller can tell from the definitions. */
  lemma OverlapSafeIffSpared(k: NameOf, v: Vm, xs: seq<Disk>, n1: seq<Disk>, n2: seq<Disk>, turns: seq<bool>, b: Both)
    requires VmInv(k, v) && v.defined == Some(xs) && KeepsIdentity(xs, n2)
    requires ReleasedOnce(UpdateFrom(k, xs, n1), UpdateFrom(k, xs, n2))
    requires Shuffle(UpdateFrom(k, xs, n1), UpdateFrom(k, xs, n2), false, v, turns) == Some(b)
    requires Over(UpdateFrom(k, xs, n1), UpdateFrom(k, xs, n2), b)
    ensures Safe(k, b.view) <==> Spares(k, xs, n1, n2)
  {
    UnsharedIsNeeded(k, xs, n1);
    NothingIsLost(UpdateFrom(k, xs, n1), UpdateFrom(k, xs, n2), false, v, turns);
    OverlapSafeIff(k, v, xs, n1, n2, turns, b);
  }

  // ----------------------------------------- the second reads what the first defined

  lemma FirstIsAccepted(k: NameOf, v: Vm, xs: seq<Disk>, n1: seq<Disk>, q: Update, turns: seq<bool>, b: Both)
    requires VmInv(k, v) && v.defined == Some(xs) && KeepsIdentity(xs, n1)
    requires Shuffle(UpdateFrom(k, xs, n1), q, true, v, turns) == Some(b) && Over(UpdateFrom(k, xs, n1), q, b)
    ensures OnePathPerName(k, n1)
    ensures Needs(k, n1) <= (v.owned + ToSet(Unshared(k, n1, xs))) - ToSet(Unshared(k, xs, n1))
  {
    var p := UpdateFrom(k, xs, n1);
    ShuffleKeepsInv(p, q, true, v, turns);
    WholeUpdate(p);
    UnsharedIsNeeded(k, xs, n1);
    var w := Vm(Some(n1), Some(n1), (v.owned + ToSet(p.claims)) - ToSet(p.releases));
    assert UpdateEnds(k, v, xs, n1, Accepted(false), w);
    UpdateKeepsOnePath(k, v, xs, n1, false, w);
    KeepingIdentityBacks(k, v.owned, xs, n1);
    BackedUpdateIsSafe(k, v, xs, n1, false, w);
  }

  /** When the second update reads the registry after the first has defined, while the first is still
      deleting: the VM ends safe if and only if no name is lost that the second needs. */
  lemma LateReaderSafeIff(k: NameOf, v: Vm, xs: seq<Disk>, n1: seq<Disk>, n2: seq<Disk>, turns: seq<bool>, b: Both)
    requires VmInv(k, v) && v.defined == Some(xs) && KeepsIdentity(xs, n1) && KeepsIdentity(n1, n2)
    requires Shuffle(UpdateFrom(k, xs, n1), UpdateFrom(k, n1, n2), true, v, turns) == Some(b)
    requires Over(UpdateFrom(k, xs, n1), UpdateFrom(k, n1, n2), b)
    ensures Safe(k, b.view) <==> Needs(k, n2) !! b.lost
    ensures ReleasedOnce(UpdateFrom(k, xs, n1), UpdateFrom(k, n1, n2)) ==> Safe(k, b.view)
  {
    var p, q := UpdateFrom(k, xs, n1), UpdateFrom(k, n1, n2);
    OwnedAfterBoth(p, q, true, v, turns, b);
    FirstIsAccepted(k, v, xs, n1, q, turns, b);
    WholeUpdate(p);
    WholeUpdate(q);
    UnsharedIsNeeded(k, n1, n2);
    forall d | d in n2 && Managed(d) ensures Key(k, d) in b.view.owned <==> Key(k, d) !in b.lost {
      if InPaths(d.path, n1) {
        RetainedIsNeeded(k, n1, n2, d);
        RetainedStays(k, n1, n2, n2, d);
      } else {
        FreshIsUnshared(k, n1, n2, d);
        assert Key(k, d) in ToSet(q.claims);
      }
    }
    SafeMeans(k, b.view, n2);
    assert forall d | d in n2 && Managed(d) :: Key(k, d) in Needs(k, n2);
    if ReleasedOnce(p, q) {
      UnsharedIsNeeded(k, xs, n1);
      NothingIsLost(p, q, true, v, turns);
    }
  }

  // --------------------------------------------------------------------- cases

  lemma ShuffleSnoc(p: Update, q: Update, late: bool, v: Vm, turns: seq<bool>, second: bool, b: Both)
    requires Shuffle(p, q, late, v, turns) == Some(b) && CanGo(p, q, late, b, second)
    ensures Shuffle(p, q, late, v, turns + [second]) == Some(Go(p, q, late, b, second))
  {
    assert (turns + [second])[..|turns|] == turns;
  }

  /** The first update drops disk b, the second keeps it, and both define before the first deletes: the
      VM ends without the lock of b. */
  lemma DroppedDiskBreaks(k: NameOf, a: Disk, b: Disk) returns (turns: seq<bool>, end: Both)
    requires Managed(a) && Managed(b) && a.path != b.path && Key(k, a) != Key(k, b)
    ensures var xs := [a, b];
      var v, p, q := Vm(Some(xs), Some(xs), Needs(k, xs)), UpdateFrom(k, xs, [a]), UpdateFrom(k, xs, xs);
      && VmInv(k, v) && KeepsIdentity(xs, [a]) && KeepsIdentity(xs, xs)
      && Shuffle(p, q, false, v, turns) == Some(end) && Over(p, q, end) && !Safe(k, end.view)
  {
    var xs, n := [a, b], Key(k, b);
    DroppedLists(k, a, b);
    var v := Vm(Some(xs), Some(xs), Needs(k, xs));
    turns, end := DropsOne(Update([], [a], [n]), Update([], xs, []), v, n);
    LackingIsUnsafe(k, xs, n, end.view);
  }

  lemma LackingIsUnsafe(k: NameOf, ds: seq<Disk>, n: Name, v: Vm)
    requires v.defined == Some(ds) && n in Needs(k, ds) && n !in v.owned
    ensures !Safe(k, v)
  {
  }

  lemma DropsOne(p: Update, q: Update, v: Vm, n: Name) returns (turns: seq<bool>, end: Both)
    requires p.claims == [] && p.releases == [n] && q.claims == [] && q.releases == []
    ensures Shuffle(p, q, false, v, turns) == Some(end) && Over(p, q, end)
    ensures end.view == Vm(Some(q.next), Some(q.next), v.owned - {n})
  {
    var b0, b1 := Both(v, 0, 0, {}), Both(Vm(Some(p.next), Some(p.next), v.owned), 1, 0, {});
    var b2 := Both(Vm(Some(q.next), Some(q.next), v.owned), 1, 1, {});
    assert q.claims[..0] == [];
    ShuffleSnoc(p, q, false, v, [], false, b0);
    ShuffleSnoc(p, q, false, v, [] + [false], true, b1);
    ShuffleSnoc(p, q, false, v, [] + [false] + [true], false, b2);
    turns, end := [] + [false] + [true] + [false], Go(p, q, false, b2, false);
  }

  lemma DroppedLists(k: NameOf, a: Disk, b: Disk)
    requires Managed(a) && Managed(b) && a.path != b.path && Key(k, a) != Key(k, b)
    ensures var xs := [a, b];
      && UpdateFrom(k, xs, [a]) == Update([], [a], [Key(k, b)]) && UpdateFrom(k, xs, xs) == Update([], xs, [])
      && Key(k, b) in Needs(k, xs) && VmInv(k, Vm(Some(xs), Some(xs), Needs(k, xs)))
      && KeepsIdentity(xs, [a]) && KeepsIdentity(xs, xs)
  {
    var xs := [a, b];
    NoneUnshared(k, [a], xs);
    NoneUnshared(k, xs, xs);
    OnlyLastUnshared(k, [a], b, [a]);
    assert [a] + [b] == xs && xs[1] in xs;
  }

  /** A path may be listed twice.  When the first update drops such a disk, and the second brings a new
      disk under its lock name, it can claim the name between the first's two releases and lose it. */
  lemma RepeatedPathBreaks(k: NameOf, os: Disk, b: Disk, e: Disk) returns (turns: seq<bool>, end: Both)
    requires !Managed(os) && Managed(b) && Managed(e) && Key(k, e) == Key(k, b)
    requires os.path != b.path && os.path != e.path && b.path != e.path
    ensures var xs, n2 := [os, b, b], [os, b, e];
      var v, p, q := Vm(Some(xs), Some(xs), {Key(k, b)}), UpdateFrom(k, xs, [os]), UpdateFrom(k, xs, n2);
      && VmInv(k, v) && KeepsIdentity(xs, [os]) && KeepsIdentity(xs, n2) && Spares(k, xs, [os], n2)
      && Shuffle(p, q, false, v, turns) == Some(end) && Over(p, q, end) && !Safe(k, end.view)
  {
    var xs, n2 := [os, b, b], [os, b, e];
    RepeatedLists(k, os, b, e);
    RepeatedNeeds(k, os, b, e);
    RepeatedKeeps(k, os, b, e);
    var p, q := UpdateFrom(k, xs, [os]), UpdateFrom(k, xs, n2);
    turns, end := TakesBack(p, q, Vm(Some(xs), Some(xs), {Key(k, b)}), Key(k, b));
    LackingIsUnsafe(k, n2, Key(k, b), end.view);
  }

  lemma TakesBack(p: Update, q: Update, v: Vm, n: Name) returns (turns: seq<bool>, end: Both)
    requires p.claims == [] && p.releases == [n, n] && q.claims == [n] && q.releases == [] && v.owned == {n}
    ensures Shuffle(p, q, false, v, turns) == Some(end) && Over(p, q, end)
    ensures end.view == Vm(Some(q.next), Some(q.next), {})
  {
    var w := Vm(Some(p.next), Some(p.next), {n});
    var b0, b1, b2 := Both(v, 0, 0, {}), Both(w, 1, 0, {}), Both(w.(owned := {}), 2, 0, {});
    var b3, b4 := Both(w, 2, 1, {}), Both(w.(owned := {}), 3, 1, {n});
    var none: set<Name> := {};
    assert q.claims[..0] == [] && q.claims[..1] == [n];
    assert w.owned - {n} == none && none + {n} == w.owned && none - {n} == none;
    ShuffleSnoc(p, q, false, v, [], false, b0);
    ShuffleSnoc(p, q, false, v, [] + [false], false, b1);
    ShuffleSnoc(p, q, false, v, [] + [false] + [false], true, b2);
    ShuffleSnoc(p, q, false, v, [] + [false] + [false] + [true], false, b3);
    ShuffleSnoc(p, q, false, v, [] + [false] + [false] + [true] + [false], true, b4);
    turns, end := [] + [false] + [false] + [true] + [false] + [true], Go(p, q, false, b4, true);
  }

  lemma RepeatedLists(k: NameOf, os: Disk, b: Disk, e: Disk)
    requires !Managed(os) && Managed(b) && Managed(e) && Key(k, e) == Key(k, b)
    requires os.path != b.path && os.path != e.path && b.path != e.path
    ensures var xs, n2, n := [os, b, b], [os, b, e], Key(k, b);
      UpdateFrom(k, xs, [os]) == Update([], [os], [n, n]) && UpdateFrom(k, xs, n2) == Update([n], n2, [])
  {
    var xs, n2 := [os, b, b], [os, b, e];
    NoneUnshared(k, [os], xs);
    NoneUnshared(k, xs, n2);
    TwiceUnshared(k, os, b);
    assert [os, b] + [e] == n2;
    OnlyLastUnshared(k, [os, b], e, xs);
  }

  lemma RepeatedNeeds(k: NameOf, os: Disk, b: Disk, e: Disk)
    requires !Managed(os) && Managed(b) && Managed(e) && Key(k, e) == Key(k, b)
    ensures Needs(k, [os, b, b]) == {Key(k, b)} && Key(k, b) in Needs(k, [os, b, e])
    ensures OnePathPerName(k, [os, b, b])
  {
    assert [os, b, b][1] in [os, b, b] && [os, b, e][2] in [os, b, e];
  }

  lemma RepeatedKeeps(k: NameOf, os: Disk, b: Disk, e: Disk)
    requires !Managed(os) && Managed(b) && Managed(e) && Key(k, e) == Key(k, b)
    requires os.path != b.path && os.path != e.path && b.path != e.path
    requires Unshared(k, [os, b, e], [os, b, b]) == [Key(k, b)] && Unshared(k, [os, b, b], [os, b, e]) == []
    ensures var xs, n2 := [os, b, b], [os, b, e];
      KeepsIdentity(xs, [os]) && KeepsIdentity(xs, n2) && Spares(k, xs, [os], n2)
  {
    assert [os, b, b][1] in [os, b, b];
  }

  lemma TwiceUnshared(k: NameOf, os: Disk, b: Disk)
    requires !Managed(os) && Managed(b) && os.path != b.path
    ensures Unshared(k, [os, b, b], [os]) == [Key(k, b), Key(k, b)]
  {
    OnlyLastUnshared(k, [os], b, [os]);
    assert [os] + [b] == [os, b] && [os, b, b][..2] == [os, b];
  }
}

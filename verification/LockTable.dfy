/**
 What the lock protocol amounts to: an atomic table from resource names to the
 uuids of their owners.
 */
module LockTable {
  import opened GoTypes
  import opened Lvb
  import opened LockProtocol

  /** Who owns what, read off the visible resource files. */
  function Locks(s: State): map<Name, Uuid> {
    map n | n in s.dirs && s.dirs[n].HasFile? :: Text(s.dirs[n].file.block)
  }

  datatype Effect = Silent | Claim(name: Name, uuid: Uuid) | Release(name: Name, uuid: Uuid)

  /** Only two steps matter to the table: a rename that succeeds and an rm that succeeds. */
  function EffectOf(s: State, e: Event): Effect {
    if e.Go? && e.p in s.procs then
      var x := s.procs[e.p];
      if x.phase.AtRename? then Claim(x.call.name, x.call.uuid)
      else if x.phase.AtRm? then Release(x.call.name, x.call.uuid)
      else Silent
    else Silent
  }

  /** The atomic table: claiming a name needs it free, releasing it needs it owned. */
  ghost predicate AtomicStep(t: map<Name, Uuid>, eff: Effect, t': map<Name, Uuid>) {
    match eff
    case Silent => t' == t
    case Claim(n, u) => n !in t && t' == t[n := Text(BlockOf(u))]
    case Release(n, u) => n in t && t[n] == u && t' == t - {n}
  }

  lemma QuietLocks(s: State, t: State, n: Name, d: Dir)
    requires t.dirs == s.dirs[n := d] && (d == DirOf(s, n) || (DirOf(s, n) == Empty && d == Absent))
    ensures Locks(t) == Locks(s)
  {
  }

  lemma SilentGo(s: State, p: nat)
    requires Inv(s) && Enabled(s, Go(p)) && EffectOf(s, Go(p)).Silent?
    ensures Locks(Apply(s, Go(p))) == Locks(s)
  {
    var n := s.procs[p].call.name;
    QuietLocks(s, Apply(s, Go(p)), n, DirAfter(s, p));
  }

  lemma EmptiedLocks(s: State, t: State, n: Name)
    requires t.dirs == s.dirs[n := Empty]
    ensures Locks(t) == Locks(s) - {n}
  {
  }

  lemma FilledLocks(s: State, t: State, n: Name, f: File)
    requires t.dirs == s.dirs[n := HasFile(f)]
    ensures Locks(t) == Locks(s)[n := Text(f.block)]
  {
  }

  lemma ClaimGo(s: State, p: nat)
    requires Inv(s) && Enabled(s, Go(p)) && s.procs[p].phase.AtRename?
    ensures AtomicStep(Locks(s), Claim(s.procs[p].call.name, s.procs[p].call.uuid), Locks(Apply(s, Go(p))))
  {
    assert Typed(s.procs[p]);
    var c, t := s.procs[p].call, Apply(s, Go(p));
    FilledLocks(s, t, c.name, File(p, BlockOf(c.uuid)));
  }

  lemma ReleaseGo(s: State, p: nat)
    requires Inv(s) && Enabled(s, Go(p)) && s.procs[p].phase.AtRm?
    ensures AtomicStep(Locks(s), Release(s.procs[p].call.name, s.procs[p].call.uuid), Locks(Apply(s, Go(p))))
  {
    assert HolderOk(s, p);
    var n, t := s.procs[p].call.name, Apply(s, Go(p));
    EmptiedLocks(s, t, n);
  }

  /** Every step of every interleaving is a step of the atomic table or leaves the table alone. */
  lemma StepRefinesTable(s: State, e: Event)
    requires Inv(s) && Enabled(s, e)
    ensures AtomicStep(Locks(s), EffectOf(s, e), Locks(Apply(s, e)))
  {
    if e.Go? {
      if EffectOf(s, e).Silent? {
        SilentGo(s, e.p);
      } else if s.procs[e.p].phase.AtRename? {
        ClaimGo(s, e.p);
      } else {
        ReleaseGo(s, e.p);
      }
    }
  }

  // --------------------------------------------------------------------- runs

  ghost predicate Possible(s: State, es: seq<Event>)
    requires Inv(s)
    decreases |es|
  {
    es == [] || (Enabled(s, es[0]) && (InvStep(s, es[0]); Possible(Apply(s, es[0]), es[1..])))
  }

  ghost function After(s: State, es: seq<Event>): (r: State)
    requires Inv(s) && Possible(s, es)
    ensures Inv(r)
    decreases |es|
  {
    if es == [] then s
    else
      InvStep(s, es[0]);
      After(Apply(s, es[0]), es[1..])
  }

  /** The claims and releases of one name along a run. */
  ghost function History(s: State, es: seq<Event>, n: Name): seq<Effect>
    requires Inv(s) && Possible(s, es)
    decreases |es|
  {
    if es == [] then []
    else
      InvStep(s, es[0]);
      var rest := History(Apply(s, es[0]), es[1..], n);
      var eff := EffectOf(s, es[0]);
      if eff.Silent? || eff.name != n then rest else [eff] + rest
  }

  /** Claims and releases alternate, and each release is by the VM that made the claim before it. */
  ghost predicate Alternating(held: Option<Uuid>, h: seq<Effect>)
    decreases |h|
  {
    h == [] ||
      match h[0]
      case Silent => false
      case Claim(_, u) => held.None? && Alternating(Some(Text(BlockOf(u))), h[1..])
      case Release(_, u) => held == Some(u) && Alternating(None, h[1..])
  }

  /** The owner that a history leaves. */
  ghost function OwnerAfter(held: Option<Uuid>, h: seq<Effect>): Option<Uuid>
    decreases |h|
  {
    if h == [] then held
    else OwnerAfter(if h[0].Claim? then Some(Text(BlockOf(h[0].uuid))) else None, h[1..])
  }

  ghost function OwnerOf(t: map<Name, Uuid>, n: Name): Option<Uuid> { if n in t then Some(t[n]) else None }

  lemma {:induction false} RunAlternates(s: State, es: seq<Event>, n: Name)
    requires Inv(s) && Possible(s, es)
    ensures Alternating(OwnerOf(Locks(s), n), History(s, es, n))
    ensures OwnerOf(Locks(After(s, es)), n) == OwnerAfter(OwnerOf(Locks(s), n), History(s, es, n))
    decreases |es|
  {
    if es != [] {
      InvStep(s, es[0]);
      StepRefinesTable(s, es[0]);
      RunAlternates(Apply(s, es[0]), es[1..], n);
      var h := History(Apply(s, es[0]), es[1..], n);
      var eff := EffectOf(s, es[0]);
      assert eff.Silent? || eff.name != n || ([eff] + h)[1..] == h;
    }
  }

  /** Over every run of any number of calls: for each name, creates and removals alternate starting
      with a create, each removal is by the VM of the create before it, and the lock exists exactly
      if the last of them was a create, under that VM. */
  lemma EveryRunAlternates(es: seq<Event>, n: Name)
    requires Possible(INIT, es)
    ensures var h := History(INIT, es, n);
      Alternating(None, h) && OwnerOf(Locks(After(INIT, es)), n) == OwnerAfter(None, h)
  {
    RunAlternates(INIT, es, n);
  }

  // ---------------------------------------------------------------- ownership

  /** A command on the disk runs only while its VM owns the resource, and no other chain holds or
      can get the lease of that resource. */
  lemma WorkUnderOwnership(s: State, p: nat)
    requires Inv(s) && Live(s, p) && (s.procs[p].phase.AtWork? || s.procs[p].phase.AtRm?)
    ensures var c := s.procs[p].call;
      && c.name in Locks(s) && Locks(s)[c.name] == c.uuid && c.uuid != []
      && forall q | q in s.procs && s.procs[q].call.name == c.name && s.procs[q].call.Chain? ::
           && (q != p ==> !Leased(s.procs[q].phase) || s.procs[q].phase.AtRmdir?)
           && (s.procs[q].phase.AtAcquire? ==> !Enabled(s, Go(q)))
  {
    var c := s.procs[p].call;
    assert HolderOk(s, p);
    forall q | q in s.procs && s.procs[q].call.name == c.name && Leased(s.procs[q].phase) && !s.procs[q].phase.AtRmdir?
      ensures q == p
    {
      OneHolder(s, p, q);
    }
  }

  /** rm removes exactly the file of the chain's own VM, made by a create of that VM. */
  lemma RmRemovesOwnFile(s: State, p: nat)
    requires Inv(s) && Live(s, p) && s.procs[p].phase.AtRm? && Faithful(s.procs[p].call.uuid)
    ensures Enabled(s, Go(p))
    ensures var c := s.procs[p].call; var d := DirOf(s, c.name);
      && d.HasFile? && d.file.maker in s.procs && Text(d.file.block) == c.uuid
      && (Faithful(s.procs[d.file.maker].call.uuid) ==> s.procs[d.file.maker].call == Create(c.name, c.uuid))
  {
    assert HolderOk(s, p);
    var c := s.procs[p].call;
    assert FileOk(s, c.name, DirOf(s, c.name).file);
    TextOfBlock(s.procs[DirOf(s, c.name).file.maker].call.uuid);
  }

  /** A create that lands between a chain's rm and rmdir is safe: the rmdir cannot succeed, and
      its failing changes no lock. */
  lemma RmdirNeverRemovesAFile(s: State, p: nat)
    requires Inv(s) && Live(s, p) && s.procs[p].phase.AtRmdir?
    ensures DirOf(s, s.procs[p].call.name).HasFile? ==> !Enabled(s, Go(p))
    ensures Enabled(s, Fail(p)) && Locks(Apply(s, Fail(p))) == Locks(s)
    ensures Enabled(s, Go(p)) ==> Locks(Apply(s, Go(p))) == Locks(s)
  {
    if Enabled(s, Go(p)) { SilentGo(s, p); }
  }

  // --------------------------------------------------- what a call's result tells

  ghost predicate Acts(s: State, e: Event, p: nat) {
    e.Go? && e.p == p && !EffectOf(s, e).Silent?
  }

  /** How often the table was changed by call p. */
  ghost function Changes(s: State, es: seq<Event>, p: nat): nat
    requires Inv(s) && Possible(s, es)
    decreases |es|
  {
    if es == [] then 0
    else
      InvStep(s, es[0]);
      (if Acts(s, es[0], p) then 1 else 0) + Changes(Apply(s, es[0]), es[1..], p)
  }

  /** The number of changes that the state of a call allows. */
  ghost predicate Accounted(s: State, p: nat, changes: nat) {
    if p !in s.procs then changes == 0
    else
      var c, a := s.procs[p].call, s.procs[p].phase;
      if c.Create? then changes == if a == Done(true) then 1 else 0
      else if !c.removes then changes == 0
      else if a.AtRmdir? || a == Done(true) then changes == 1
      else if a.Done? || a.Dead? then changes <= 1
      else changes == 0
  }

  lemma AccountedStep(s: State, e: Event, p: nat, changes: nat)
    requires Inv(s) && Enabled(s, e) && Accounted(s, p, changes)
    ensures Accounted(Apply(s, e), p, changes + if Acts(s, e, p) then 1 else 0)
  {
  }

  lemma {:induction false} AccountedRun(s: State, es: seq<Event>, p: nat, changes: nat)
    requires Inv(s) && Possible(s, es) && Accounted(s, p, changes)
    ensures Accounted(After(s, es), p, changes + Changes(s, es, p))
    decreases |es|
  {
    if es != [] {
      InvStep(s, es[0]);
      AccountedStep(s, es[0], p, changes);
      AccountedRun(Apply(s, es[0]), es[1..], p, changes + if Acts(s, es[0], p) then 1 else 0);
    }
  }

  /** Create_resource reports success exactly if it claimed the lock, once; an error or a crash
      before the rename means it claimed nothing.  A Delete_resource that reports success released
      the lock once; one that reports an error may have released it too, when rmdir failed. */
  lemma ResultsTell(es: seq<Event>, p: nat)
    requires Possible(INIT, es) && p in After(INIT, es).procs
    ensures var x := After(INIT, es).procs[p];
      && (x.call.Create? ==> Changes(INIT, es, p) == if x.phase == Done(true) then 1 else 0)
      && (x.call.Chain? && x.call.removes && x.phase == Done(true) ==> Changes(INIT, es, p) == 1)
      && (x.call.Chain? ==> Changes(INIT, es, p) <= if x.call.removes then 1 else 0)
  {
    AccountedRun(INIT, es, p, 0);
  }

  /** What an error from a chain that removes its resource means for the lock, wherever in a run it
      comes: the lock was released, by this chain, if and only if the error is rmdir's.  In
      particular "an error means that the lock is still there" is false. */
  lemma ErrorMeansReleasedIff(es: seq<Event>, p: nat, rest: seq<Event>)
    requires Possible(INIT, es) && Live(After(INIT, es), p)
    requires After(INIT, es).procs[p].call.Chain? && After(INIT, es).procs[p].call.removes
    requires (InvStep(After(INIT, es), Fail(p)); Possible(Apply(After(INIT, es), Fail(p)), rest))
    ensures (InvStep(After(INIT, es), Fail(p));
      Changes(INIT, es, p) + Changes(Apply(After(INIT, es), Fail(p)), rest, p)
        == if After(INIT, es).procs[p].phase.AtRmdir? then 1 else 0)
  {
    AccountedRun(INIT, es, p, 0);
    InvStep(After(INIT, es), Fail(p));
    AccountedRun(Apply(After(INIT, es), Fail(p)), rest, p, 1);
  }

  /** And rmdir does fail: once another create has taken the name, it is all the chain can do. */
  lemma ErrorAfterRelease(s: State, p: nat, q: nat)
    requires Inv(s) && Live(s, p) && s.procs[p].phase.AtRm?
    requires Live(s, q) && s.procs[q].phase.AtRename? && s.procs[q].call.name == s.procs[p].call.name
    ensures Enabled(s, Go(p)) && Inv(Apply(s, Go(p))) && Enabled(Apply(s, Go(p)), Go(q))
    ensures var t := Apply(Apply(s, Go(p)), Go(q));
      Live(t, p) && !Enabled(t, Go(p)) && Enabled(t, Fail(p))
  {
    assert HolderOk(s, p);
    InvStep(s, Go(p));
  }

  // ---------------------------------------------------------------- other VMs

  /** The names a VM owns. */
  function OwnedBy(t: map<Name, Uuid>, u: Uuid): set<Name> { set n | n in t && t[n] == u }

  /** The calls of a run are of other VMs than u, with uuids the LVB can hold. */
  ghost predicate Foreign(s: State, es: seq<Event>, u: Uuid)
    requires Inv(s) && Possible(s, es)
    decreases |es|
  {
    es == [] ||
      (var eff := EffectOf(s, es[0]);
       InvStep(s, es[0]);
       (eff.Silent? || (eff.uuid != u && Faithful(eff.uuid))) && Foreign(Apply(s, es[0]), es[1..], u))
  }

  lemma ForeignKeepsMine(t: map<Name, Uuid>, eff: Effect, t': map<Name, Uuid>, u: Uuid)
    requires AtomicStep(t, eff, t') && (eff.Silent? || (eff.uuid != u && Faithful(eff.uuid)))
    ensures OwnedBy(t', u) == OwnedBy(t, u)
  {
    if !eff.Silent? { TextOfBlock(eff.uuid); }
  }

  /** Whatever the calls of other VMs do, a VM's own locks stay as they are. */
  lemma {:induction false} ForeignRunsKeepMine(s: State, es: seq<Event>, u: Uuid)
    requires Inv(s) && Possible(s, es) && Foreign(s, es, u)
    ensures OwnedBy(Locks(After(s, es)), u) == OwnedBy(Locks(s), u)
    decreases |es|
  {
    if es != [] {
      InvStep(s, es[0]);
      StepRefinesTable(s, es[0]);
      ForeignKeepsMine(Locks(s), EffectOf(s, es[0]), Locks(Apply(s, es[0])), u);
      ForeignRunsKeepMine(Apply(s, es[0]), es[1..], u);
    }
  }
}

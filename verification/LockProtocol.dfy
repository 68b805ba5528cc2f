/**
 Resource locks on the shared filesystem (pkg/lockman/lockman.go,
 cmd/virtx-check-lvb/main.go) as interleaved steps of any number of calls on
 any number of hosts: Create_resource and chains run by Run, among them
 Delete_resource.
 */
module LockProtocol {
  import opened GoTypes
  import opened Lvb

  type Name = string
  type Uuid = Bytes

  /** A resource file, identified by the call that made it, with its LVB sector. */
  datatype File = File(maker: nat, block: Bytes)

  /** LOCK_DIR/<name>: rename() may replace an empty directory, rmdir removes only an empty one. */
  datatype Dir = Absent | Empty | HasFile(file: File)

  /** Run's commands are check-lvb, then `works` commands on the disk, then perhaps rm and rmdir. */
  datatype Call =
    | Create(name: Name, uuid: Uuid)
    | Chain(name: Name, uuid: Uuid, works: nat, removes: bool)

  /** The next thing a call does; `lease` is the file whose sanlock lease it holds. */
  datatype Phase =
    | AtStat | AtMkdir | AtChmod | AtOpen | AtInit | AtSetLvb | AtRename(block: Bytes)
    | AtAcquire | AtCheck(lease: nat) | AtWork(lease: nat, k: nat) | AtRm(lease: nat) | AtRmdir(lease: nat)
    | Done(ok: bool) | Dead

  datatype Proc = Proc(call: Call, phase: Phase)

  datatype State = State(dirs: map<Name, Dir>, leases: map<nat, nat>, procs: map<nat, Proc>)

  const INIT := State(map[], map[], map[])

  /** Go: the next step of p succeeds.  Fail: it fails, and the call cleans up and returns the error. */
  datatype Event = Begin(p: nat, call: Call) | Go(p: nat) | Fail(p: nat) | Crash(p: nat)

  function DirOf(s: State, n: Name): Dir { if n in s.dirs then s.dirs[n] else Absent }

  predicate Live(s: State, p: nat) { p in s.procs && !s.procs[p].phase.Done? && !s.procs[p].phase.Dead? }

  // -------------------------------------------------------------------- steps

  predicate CanGo(s: State, p: nat)
    requires Live(s, p)
  {
    var c, d := s.procs[p].call, DirOf(s, s.procs[p].call.name);
    match s.procs[p].phase
    case AtRename(_) => !d.HasFile?
    case AtAcquire => d.HasFile? && d.file.maker !in s.leases
    case AtCheck(_) => d.HasFile? && CheckLvb(Ok(Text(d.file.block)), c.uuid)
    case AtRm(_) => d.HasFile?
    case AtRmdir(_) => d.Empty?
    case _ => true
  }

  /** The stat that opens Create_resource ends the call only when it sees the file. */
  predicate CanFail(s: State, p: nat)
    requires Live(s, p)
  {
    s.procs[p].phase.AtStat? ==> DirOf(s, s.procs[p].call.name).HasFile?
  }

  predicate Enabled(s: State, e: Event) {
    match e
    case Begin(p, _) => p !in s.procs
    case Go(p) => Live(s, p) && CanGo(s, p)
    case Fail(p) => Live(s, p) && CanFail(s, p)
    case Crash(p) => Live(s, p)
  }

  function Start(c: Call): Phase { if c.Create? then AtStat else AtAcquire }

  /** The command that follows the first k commands on the disk. */
  function Command(c: Call, lease: nat, k: nat): Phase
    requires c.Chain?
  {
    if k < c.works then AtWork(lease, k) else if c.removes then AtRm(lease) else Done(true)
  }

  /** Where p goes when its next step succeeds. */
  function Advance(s: State, p: nat): Phase
    requires Live(s, p) && CanGo(s, p) && Typed(s.procs[p])
  {
    var c := s.procs[p].call;
    match s.procs[p].phase
    case AtStat => AtMkdir
    case AtMkdir => AtChmod
    case AtChmod => AtOpen
    case AtOpen => AtInit
    case AtInit => AtSetLvb
    case AtSetLvb => AtRename(BlockOf(c.uuid))
    case AtRename(_) => Done(true)
    case AtAcquire => AtCheck(DirOf(s, c.name).file.maker)
    case AtCheck(l) => Command(c, l, 0)
    case AtWork(l, k) => Command(c, l, k + 1)
    case AtRm(l) => AtRmdir(l)
    case AtRmdir(_) => Done(true)
  }

  /** What that step does to the directory. */
  function DirAfter(s: State, p: nat): Dir
    requires Live(s, p)
  {
    match s.procs[p].phase
    case AtRename(b) => HasFile(File(p, b))
    case AtRm(_) => Empty
    case AtRmdir(_) => Absent
    case _ => DirOf(s, s.procs[p].call.name)
  }

  /** sanlock frees the lease of a chain that ended, or whose host died. */
  function Freed(leases: map<nat, nat>, p: nat): map<nat, nat> {
    map f | f in leases && leases[f] != p :: leases[f]
  }

  function Leases(s: State, p: nat, next: Phase): map<nat, nat> {
    if next.Done? || next.Dead? then Freed(s.leases, p)
    else if next.AtCheck? then s.leases[next.lease := p]
    else s.leases
  }

  function Apply(s: State, e: Event): State
    requires Enabled(s, e) && AllTyped(s)
  {
    match e
    case Begin(p, c) => s.(procs := s.procs[p := Proc(c, Start(c))])
    case Go(p) =>
      var next := Advance(s, p);
      State(s.dirs[s.procs[p].call.name := DirAfter(s, p)], Leases(s, p, next),
            s.procs[p := s.procs[p].(phase := next)])
    case Fail(p) => s.(leases := Freed(s.leases, p), procs := s.procs[p := s.procs[p].(phase := Done(false))])
    case Crash(p) => s.(leases := Freed(s.leases, p), procs := s.procs[p := s.procs[p].(phase := Dead)])
  }

  // ---------------------------------------------------------------- invariant

  predicate CreatePhase(a: Phase) {
    a.AtStat? || a.AtMkdir? || a.AtChmod? || a.AtOpen? || a.AtInit? || a.AtSetLvb? || a.AtRename?
  }

  predicate Leased(a: Phase) { a.AtCheck? || a.AtWork? || a.AtRm? || a.AtRmdir? }

  /** A creator is in a creator's phase and has prepared its own uuid; a chain removes only if asked to. */
  predicate Typed(x: Proc) {
    && (CreatePhase(x.phase) ==> x.call.Create?)
    && (x.phase.AtAcquire? || Leased(x.phase) ==> x.call.Chain?)
    && (x.phase.AtRename? ==> x.phase.block == BlockOf(x.call.uuid))
    && (x.phase.AtRm? || x.phase.AtRmdir? ==> x.call.removes)
  }

  predicate AllTyped(s: State) { forall p | p in s.procs :: Typed(s.procs[p]) }

  /** A visible file is complete: it carries the whole LVB of the one call that created it, which
      succeeded. */
  ghost predicate FileOk(s: State, n: Name, f: File) {
    && f.maker in s.procs && s.procs[f.maker].phase == Done(true)
    && s.procs[f.maker].call == Create(n, s.procs[f.maker].call.uuid)
    && f.block == BlockOf(s.procs[f.maker].call.uuid)
  }

  ghost predicate FilesOk(s: State) {
    forall n | n in s.dirs && s.dirs[n].HasFile? :: FileOk(s, n, s.dirs[n].file)
  }

  /** A chain that holds a lease and has not removed the file still has that file at its path, and
      once checked, the file is its VM's. */
  ghost predicate HolderOk(s: State, p: nat)
    requires p in s.procs
  {
    var c, a := s.procs[p].call, s.procs[p].phase;
    && (Leased(a) ==> a.lease in s.leases && s.leases[a.lease] == p)
    && (Leased(a) && !a.AtRmdir? ==> DirOf(s, c.name).HasFile? && DirOf(s, c.name).file.maker == a.lease)
    && (a.AtWork? || a.AtRm? ==> CheckLvb(Ok(Text(DirOf(s, c.name).file.block)), c.uuid))
  }

  ghost predicate HoldersOk(s: State) { forall p | p in s.procs :: HolderOk(s, p) }

  /** Nothing is leased but to a chain that is under way with it. */
  ghost predicate LeasesOk(s: State) { forall f | f in s.leases :: LeaseOk(s, f, s.leases[f]) }

  ghost predicate LeaseOk(s: State, f: nat, p: nat) {
    p in s.procs && Leased(s.procs[p].phase) && s.procs[p].phase.lease == f
  }

  ghost predicate Inv(s: State) { AllTyped(s) && FilesOk(s) && HoldersOk(s) && LeasesOk(s) }

  lemma TypedStep(s: State, e: Event)
    requires AllTyped(s) && Enabled(s, e)
    ensures AllTyped(Apply(s, e))
  {
  }

  lemma FilesStep(s: State, e: Event)
    requires Inv(s) && Enabled(s, e)
    ensures FilesOk(Apply(s, e))
  {
  }

  /** Two chains that have yet to remove the file at one path are the same chain. */
  lemma OneHolder(s: State, p: nat, q: nat)
    requires Inv(s) && p in s.procs && q in s.procs && s.procs[p].call.name == s.procs[q].call.name
    requires Leased(s.procs[p].phase) && !s.procs[p].phase.AtRmdir?
    requires Leased(s.procs[q].phase) && !s.procs[q].phase.AtRmdir?
    ensures p == q
  {
    assert HolderOk(s, p) && HolderOk(s, q);
  }

  /** A step that succeeds: of another chain, or of this one. */
  lemma OtherGoes(s: State, p: nat, q: nat)
    requires Inv(s) && Enabled(s, Go(p)) && q in s.procs && q != p
    ensures HolderOk(Apply(s, Go(p)), q)
  {
    assert HolderOk(s, q) && HolderOk(s, p);
    var x, y := s.procs[q], s.procs[p];
    if y.phase.AtRm? && x.call.name == y.call.name && Leased(x.phase) && !x.phase.AtRmdir? {
      OneHolder(s, p, q);
    }
  }

  lemma SameGoes(s: State, p: nat)
    requires Inv(s) && Enabled(s, Go(p))
    ensures HolderOk(Apply(s, Go(p)), p)
  {
    assert HolderOk(s, p);
  }

  lemma HolderStep(s: State, e: Event, q: nat)
    requires Inv(s) && Enabled(s, e) && q in Apply(s, e).procs
    ensures HolderOk(Apply(s, e), q)
  {
    if e.Go? {
      if q == e.p { SameGoes(s, q); } else { OtherGoes(s, e.p, q); }
    } else if q in s.procs {
      assert HolderOk(s, q);
    }
  }

  lemma LeaseStep(s: State, e: Event, f: nat)
    requires Inv(s) && Enabled(s, e) && f in Apply(s, e).leases
    ensures LeaseOk(Apply(s, e), f, Apply(s, e).leases[f])
  {
    if f in s.leases { assert LeaseOk(s, f, s.leases[f]); }
    if !e.Begin? { assert HolderOk(s, e.p); }
  }

  lemma LeasesStep(s: State, e: Event)
    requires Inv(s) && Enabled(s, e)
    ensures LeasesOk(Apply(s, e))
  {
    forall f | f in Apply(s, e).leases ensures LeaseOk(Apply(s, e), f, Apply(s, e).leases[f]) {
      LeaseStep(s, e, f);
    }
  }

  lemma InvStep(s: State, e: Event)
    requires Inv(s) && Enabled(s, e)
    ensures Inv(Apply(s, e))
  {
    TypedStep(s, e);
    FilesStep(s, e);
    LeasesStep(s, e);
    forall q | q in Apply(s, e).procs ensures HolderOk(Apply(s, e), q) {
      HolderStep(s, e, q);
    }
  }
}

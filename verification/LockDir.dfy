/**
 lm_init_lockdir: any number of hosts set up the lock directory at once
 (pkg/lockman/lockman.go).  The directory holds the lockspace file, so that no
 rename can replace it, and nothing ever removes it.
 */
module LockDir {
  import opened GoTypes

  /** `prepared` and `lockspace` say how far the private directory, or the visible one, has come. */
  datatype Contents = Contents(prepared: bool, lockspace: bool)

  datatype Phase =
    | AtStat | AtMkdir | AtChmod(d: Contents) | AtChown(d: Contents) | AtInit(d: Contents) | AtRename(d: Contents)
    | Done(ok: bool) | Dead

  /** The visible lock directory with the host that put it there, and what every host is doing. */
  datatype State = State(dir: Option<(nat, Contents)>, hosts: map<nat, Phase>)

  const INIT := State(None, map[])

  /** Fail: the next step fails; at the rename, `exists'` says that the error was ErrExist.  At the stat it
      stands for finding the directory, which ends the call well. */
  datatype Event = Begin(h: nat) | Go(h: nat) | Fail(h: nat, exists': bool) | Crash(h: nat)

  predicate Live(s: State, h: nat) { h in s.hosts && !s.hosts[h].Done? && !s.hosts[h].Dead? }

  predicate Enabled(s: State, e: Event) {
    match e
    case Begin(h) => h !in s.hosts
    case Go(h) => Live(s, h) && (s.hosts[h].AtRename? ==> s.dir.None?)
    case Fail(h, x) => Live(s, h) && (x ==> s.hosts[h].AtRename? && s.dir.Some?) && (s.hosts[h].AtStat? ==> s.dir.Some?)
    case Crash(h) => Live(s, h)
  }

  /** A stat that fails, for whatever reason, leads on; one that succeeds ends the call well. */
  function Advance(a: Phase): Phase
    requires !a.Done? && !a.Dead?
  {
    match a
    case AtStat => AtMkdir
    case AtMkdir => AtChmod(Contents(false, false))
    case AtChmod(d) => AtChown(d)
    case AtChown(d) => AtInit(d.(prepared := true))
    case AtInit(d) => AtRename(d.(lockspace := true))
    case AtRename(_) => Done(true)
  }

  function Apply(s: State, e: Event): State
    requires Enabled(s, e)
  {
    match e
    case Begin(h) => s.(hosts := s.hosts[h := AtStat])
    case Go(h) =>
      State(if s.hosts[h].AtRename? then Some((h, s.hosts[h].d)) else s.dir, s.hosts[h := Advance(s.hosts[h])])
    case Fail(h, x) => s.(hosts := s.hosts[h := Done(x || s.hosts[h].AtStat?)])
    case Crash(h) => s.(hosts := s.hosts[h := Dead])
  }

  const COMPLETE := Contents(true, true)

  /** A visible lock directory is complete, and it is there for every host that was told so. */
  ghost predicate Inv(s: State) {
    && (s.dir.Some? ==> s.dir.value.1 == COMPLETE && s.dir.value.0 in s.hosts && s.hosts[s.dir.value.0] == Done(true))
    && (forall h | h in s.hosts && s.hosts[h] == Done(true) :: s.dir.Some?)
    && (forall h | h in s.hosts ::
         (s.hosts[h].AtInit? ==> s.hosts[h].d.prepared) && (s.hosts[h].AtRename? ==> s.hosts[h].d == COMPLETE))
  }

  ghost predicate Possible(s: State, es: seq<Event>)
    decreases |es|
  {
    es == [] || (Enabled(s, es[0]) && Possible(Apply(s, es[0]), es[1..]))
  }

  ghost function After(s: State, es: seq<Event>): State
    requires Possible(s, es)
    decreases |es|
  {
    if es == [] then s else After(Apply(s, es[0]), es[1..])
  }

  lemma StepKeepsInv(s: State, e: Event)
    requires Inv(s) && Enabled(s, e)
    ensures Inv(Apply(s, e)) && (s.dir.Some? ==> Apply(s, e).dir == s.dir)
  {
  }

  /** Over every run, whatever fails: the lock directory appears at most once and complete, never
      changes afterwards, and every host whose initialization succeeded shares it. */
  lemma {:induction false} OneLockDir(s: State, es: seq<Event>)
    requires Inv(s) && Possible(s, es)
    ensures Inv(After(s, es)) && (s.dir.Some? ==> After(s, es).dir == s.dir)
    decreases |es|
  {
    if es != [] {
      StepKeepsInv(s, es[0]);
      OneLockDir(Apply(s, es[0]), es[1..]);
    }
  }

  // ------------------------------------------------------------ who won the race

  /** How a host's call came to succeed. */
  datatype Success = Renamed | Found | LostRace

  /** The successful end, if any, that this step is for host h. */
  ghost function EndOf(s: State, e: Event, h: nat): Option<Success> {
    if !Live(s, h) then None
    else if e == Go(h) && s.hosts[h].AtRename? then Some(Renamed)
    else if e.Fail? && e.h == h && s.hosts[h].AtStat? then Some(Found)
    else if e == Fail(h, true) then Some(LostRace)
    else None
  }

  /** The first successful end of host h along a run. */
  ghost function SuccessOf(s: State, es: seq<Event>, h: nat): Option<Success>
    requires Possible(s, es)
    decreases |es|
  {
    if es == [] then None
    else if EndOf(s, es[0], h).Some? then EndOf(s, es[0], h)
    else SuccessOf(Apply(s, es[0]), es[1..], h)
  }

  /** How often a rename put a directory in place. */
  ghost function Renames(s: State, es: seq<Event>): nat
    requires Possible(s, es)
    decreases |es|
  {
    if es == [] then 0
    else (if es[0].Go? && s.hosts[es[0].h].AtRename? then 1 else 0) + Renames(Apply(s, es[0]), es[1..])
  }

  ghost predicate Over(s: State, h: nat) { h in s.hosts && !Live(s, h) }

  lemma {:induction false} OverStays(s: State, es: seq<Event>, h: nat)
    requires Possible(s, es) && Over(s, h)
    ensures h in After(s, es).hosts && After(s, es).hosts[h] == s.hosts[h] && SuccessOf(s, es, h) == None
    decreases |es|
  {
    if es != [] {
      OverStays(Apply(s, es[0]), es[1..], h);
    }
  }

  /** Over every run at most one rename takes effect, and a host that reports success either made that
      rename, found the directory at its stat, or lost the race; exactly the first one's directory is
      what everybody sees. */
  lemma {:induction false} OneRename(s: State, es: seq<Event>, h: nat)
    requires Inv(s) && Possible(s, es) && !Over(s, h)
    ensures var r := After(s, es);
      && Renames(s, es) == (if r.dir.Some? && s.dir.None? then 1 else 0)
      && (h in r.hosts && r.hosts[h] == Done(true) <==> SuccessOf(s, es, h).Some?)
      && (SuccessOf(s, es, h) == Some(Renamed) <==> s.dir.None? && r.dir.Some? && r.dir.value.0 == h)
    decreases |es|
  {
    if es != [] {
      var e, t := es[0], Apply(s, es[0]);
      StepKeepsInv(s, e);
      OneLockDir(t, es[1..]);
      if Over(t, h) {
        OverStays(t, es[1..], h);
        RenamesAre(t, es[1..]);
      } else {
        OneRename(t, es[1..], h);
      }
    }
  }

  lemma {:induction false} RenamesAre(s: State, es: seq<Event>)
    requires Inv(s) && Possible(s, es)
    ensures Renames(s, es) == if After(s, es).dir.Some? && s.dir.None? then 1 else 0
    ensures s.dir.Some? ==> After(s, es).dir == s.dir
    ensures After(s, es).dir.Some? && s.dir.None? ==>
      After(s, es).dir.value.0 !in s.hosts || Live(s, After(s, es).dir.value.0)
    decreases |es|
  {
    if es != [] {
      StepKeepsInv(s, es[0]);
      RenamesAre(Apply(s, es[0]), es[1..]);
    }
  }
}

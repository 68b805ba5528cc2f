/**
 What the calls of lockman do, step by step: the successful steps of a call,
 counted over a whole run of all the calls, are its script, or the part of it
 that came before the step that failed.
 */
module LockScripts {
  import opened GoTypes
  import opened Lvb
  import opened LockProtocol
  import opened LockTable

  /** The commands on the disk, each once and in the order in which they were given. */
  function Works(lease: nat, works: nat): seq<Phase> { seq(works, k requires 0 <= k => AtWork(lease, k)) }

  /** The whole of a call, with the lease that sanlock gave it. */
  function Script(c: Call, lease: nat): seq<Phase> {
    match c
    case Create(_, u) => [AtStat, AtMkdir, AtChmod, AtOpen, AtInit, AtSetLvb, AtRename(BlockOf(u))]
    case Chain(_, _, works, removes) =>
      [AtAcquire, AtCheck(lease)] + Works(lease, works) + if removes then [AtRm(lease), AtRmdir(lease)] else []
  }

  predicate StrictPrefix<T(==)>(a: seq<T>, b: seq<T>) { a <= b && a != b }

  /** The successful steps of call p along a run. */
  ghost function Steps(s: State, es: seq<Event>, p: nat): seq<Phase>
    requires Inv(s) && Possible(s, es)
    decreases |es|
  {
    if es == [] then []
    else
      InvStep(s, es[0]);
      (if es[0] == Go(p) then [s.procs[p].phase] else []) + Steps(Apply(s, es[0]), es[1..], p)
  }

  /** How far a call has come, judged by its phase. */
  ghost predicate Followed(x: Proc, steps: seq<Phase>) {
    exists lease :: FollowedWith(x, steps, Script(x.call, lease))
  }

  ghost predicate FollowedWith(x: Proc, steps: seq<Phase>, script: seq<Phase>) {
    match x.phase
    case Done(true) => steps == script
    case Done(false) => StrictPrefix(steps, script)
    case Dead => StrictPrefix(steps, script)
    case a => steps + [a] <= script
  }

  ghost predicate FollowedIn(s: State, p: nat, steps: seq<Phase>) {
    if p in s.procs then Followed(s.procs[p], steps) else steps == []
  }

  /** The step after the i-th of a script, which is the call's own. */
  ghost predicate ComesNext(next: Phase, script: seq<Phase>, i: nat) {
    if i + 1 < |script| then next == script[i + 1] else i + 1 == |script| && next == Done(true)
  }

  lemma CreateGoesOn(s: State, p: nat, lease: nat, i: nat)
    requires Inv(s) && Enabled(s, Go(p)) && s.procs[p].call.Create?
    requires i < |Script(s.procs[p].call, lease)| && Script(s.procs[p].call, lease)[i] == s.procs[p].phase
    ensures ComesNext(Advance(s, p), Script(s.procs[p].call, lease), i)
  {
  }

  lemma ChainGoesOn(s: State, p: nat, lease: nat, i: nat)
    requires Inv(s) && Enabled(s, Go(p)) && s.procs[p].call.Chain? && !s.procs[p].phase.AtAcquire?
    requires i < |Script(s.procs[p].call, lease)| && Script(s.procs[p].call, lease)[i] == s.procs[p].phase
    ensures ComesNext(Advance(s, p), Script(s.procs[p].call, lease), i)
  {
  }

  lemma GoesOn(s: State, p: nat, lease: nat, i: nat)
    requires Inv(s) && Enabled(s, Go(p)) && !s.procs[p].phase.AtAcquire?
    requires i < |Script(s.procs[p].call, lease)| && Script(s.procs[p].call, lease)[i] == s.procs[p].phase
    ensures ComesNext(Advance(s, p), Script(s.procs[p].call, lease), i)
  {
    if s.procs[p].call.Create? { CreateGoesOn(s, p, lease, i); } else { ChainGoesOn(s, p, lease, i); }
  }

  lemma Extends(done: seq<Phase>, a: Phase, script: seq<Phase>, x: Proc, next: Phase)
    requires done + [a] <= script && ComesNext(next, script, |done|)
    requires forall b <- script :: !b.Done? && !b.Dead?
    ensures FollowedWith(x.(phase := next), done + [a], script)
  {
    var i := |done|;
    assert script[..i + 1] == done + [a];
    if i + 1 < |script| {
      assert next in script;
      assert done + [a] + [next] == script[..i + 2];
    }
  }

  lemma ScriptsAreSteps(c: Call, lease: nat)
    ensures forall b <- Script(c, lease) :: !b.Done? && !b.Dead?
  {
  }

  /** The first step of a chain, which decides the lease. */
  lemma LeaseIsChosen(x: Proc, steps: seq<Phase>, lease: nat, next: Phase)
    requires x.call.Chain? && x.phase.AtAcquire? && next.AtCheck?
    requires |steps| < |Script(x.call, lease)| && Script(x.call, lease)[|steps|] == x.phase
    ensures FollowedWith(x.(phase := next), steps + [x.phase], Script(x.call, next.lease))
  {
    assert steps == [];
  }

  /** One step of call p that succeeds. */
  lemma GoFollows(s: State, p: nat, steps: seq<Phase>)
    requires Inv(s) && Enabled(s, Go(p)) && Followed(s.procs[p], steps)
    ensures Followed(s.procs[p].(phase := Advance(s, p)), steps + [s.procs[p].phase])
  {
    var x, next := s.procs[p], Advance(s, p);
    var lease :| FollowedWith(x, steps, Script(x.call, lease));
    assert Script(x.call, lease)[|steps|] == x.phase;
    if x.phase.AtAcquire? {
      LeaseIsChosen(x, steps, lease, next);
    } else {
      GoesOn(s, p, lease, |steps|);
      ScriptsAreSteps(x.call, lease);
      Extends(steps, x.phase, Script(x.call, lease), x, next);
    }
  }

  lemma StepFollows(s: State, e: Event, p: nat, steps: seq<Phase>)
    requires Inv(s) && Enabled(s, e) && FollowedIn(s, p, steps)
    ensures FollowedIn(Apply(s, e), p, steps + if e == Go(p) then [s.procs[p].phase] else [])
  {
    if e == Go(p) {
      GoFollows(s, p, steps);
    } else if e == Fail(p) || e == Crash(p) {
      var x := s.procs[p];
      var lease :| FollowedWith(x, steps, Script(x.call, lease));
      assert FollowedWith(Apply(s, e).procs[p], steps + [], Script(x.call, lease));
    } else if e.Begin? && e.p == p {
      assert FollowedWith(Apply(s, e).procs[p], [], Script(e.call, 0));
    } else {
      assert steps + [] == steps;
    }
  }

  lemma StepsUnfold(s: State, es: seq<Event>, p: nat, steps: seq<Phase>)
    requires es != [] && Inv(s) && Possible(s, es)
    ensures Enabled(s, es[0]) && Inv(Apply(s, es[0])) && Possible(Apply(s, es[0]), es[1..])
    ensures After(s, es) == After(Apply(s, es[0]), es[1..])
    ensures steps + Steps(s, es, p) ==
      steps + (if es[0] == Go(p) then [s.procs[p].phase] else []) + Steps(Apply(s, es[0]), es[1..], p)
  {
    InvStep(s, es[0]);
    var one := if es[0] == Go(p) then [s.procs[p].phase] else [];
    var rest := Steps(Apply(s, es[0]), es[1..], p);
    assert steps + (one + rest) == steps + one + rest;
  }

  lemma {:induction false} RunFollows(s: State, es: seq<Event>, p: nat, steps: seq<Phase>, t: State, all: seq<Phase>)
    requires Inv(s) && Possible(s, es) && FollowedIn(s, p, steps)
    requires t == After(s, es) && all == steps + Steps(s, es, p)
    ensures FollowedIn(t, p, all)
    decreases |es|
  {
    if es == [] {
      assert all == steps;
    } else {
      StepsUnfold(s, es, p, steps);
      StepFollows(s, es[0], p, steps);
      var one := if es[0] == Go(p) then [s.procs[p].phase] else [];
      RunFollows(Apply(s, es[0]), es[1..], p, steps + one, t, all);
    }
  }

  /** Over every run of any number of calls: a call that succeeded took exactly the steps of its
      script, in order and once each; one that failed or died took a proper part of them; and one
      under way has taken those before its next step. */
  lemma EveryCallFollowsItsScript(es: seq<Event>, p: nat) returns (lease: nat)
    requires Possible(INIT, es) && p in After(INIT, es).procs
    ensures var x := After(INIT, es).procs[p];
      FollowedWith(x, Steps(INIT, es, p), Script(x.call, lease))
  {
    assert [] + Steps(INIT, es, p) == Steps(INIT, es, p);
    RunFollows(INIT, es, p, [], After(INIT, es), Steps(INIT, es, p));
    var x := After(INIT, es).procs[p];
    lease :| FollowedWith(x, Steps(INIT, es, p), Script(x.call, lease));
  }

  // ----------------------------------------------------- the commands on the disk

  /** The commands on the disk among the steps of a call. */
  function Worked(steps: seq<Phase>): seq<nat> {
    if steps == [] then []
    else
      var rest, last := Worked(steps[..|steps| - 1]), steps[|steps| - 1];
      if last.AtWork? then rest + [last.k] else rest
  }

  function UpTo(n: nat): seq<nat> { seq(n, k requires 0 <= k => k) }

  /** The commands among the first i steps of a script. */
  lemma {:induction false} WorkedOfScript(c: Call, lease: nat, i: nat)
    requires c.Chain? && i <= |Script(c, lease)|
    ensures Worked(Script(c, lease)[..i]) == UpTo(if i < 2 then 0 else if i - 2 < c.works then i - 2 else c.works)
  {
    if i > 0 {
      WorkedOfScript(c, lease, i - 1);
      assert Script(c, lease)[..i][..i - 1] == Script(c, lease)[..i - 1];
    }
  }

  /** The commands that a chain has made, by its phase. */
  ghost predicate HasWorked(x: Proc, w: seq<nat>)
    requires x.call.Chain?
  {
    && (x.phase == Done(true) || x.phase.AtRm? || x.phase.AtRmdir? ==> w == UpTo(x.call.works))
    && (x.phase.AtWork? ==> x.phase.k < x.call.works && w == UpTo(x.phase.k))
    && (x.phase.AtAcquire? || x.phase.AtCheck? ==> w == [])
    && |w| <= x.call.works && w == UpTo(|w|)
  }

  lemma PositionTells(c: Call, lease: nat, i: nat)
    requires c.Chain? && i < |Script(c, lease)|
    ensures var a := Script(c, lease)[i];
      && (a.AtRm? || a.AtRmdir? ==> i - 2 >= c.works)
      && (a.AtWork? ==> 2 <= i && i - 2 == a.k && a.k < c.works)
      && (a.AtAcquire? || a.AtCheck? ==> i < 2)
  {
  }

  lemma FollowingWorks(x: Proc, steps: seq<Phase>, lease: nat)
    requires x.call.Chain? && FollowedWith(x, steps, Script(x.call, lease))
    ensures HasWorked(x, Worked(steps))
  {
    var n := |steps|;
    assert steps == Script(x.call, lease)[..n];
    WorkedOfScript(x.call, lease, n);
    if !x.phase.Done? && !x.phase.Dead? {
      assert Script(x.call, lease)[n] == (steps + [x.phase])[n];
      PositionTells(x.call, lease, n);
    }
  }

  /** Which of its commands on the disk a chain has made, over every run: all of them, in order and
      once each, if it succeeded or has come to the removal of the lock; exactly the first k if it
      is at its k-th, so that one that fails there has made k; and never more than it was given. */
  lemma WorkIsDone(es: seq<Event>, p: nat)
    requires Possible(INIT, es) && p in After(INIT, es).procs && After(INIT, es).procs[p].call.Chain?
    ensures HasWorked(After(INIT, es).procs[p], Worked(Steps(INIT, es, p)))
  {
    var lease := EveryCallFollowsItsScript(es, p);
    FollowingWorks(After(INIT, es).procs[p], Steps(INIT, es, p), lease);
  }

  // ------------------------------------------------------- calls that can succeed

  /** What the next steps of p, if no one else moves, find as they need it. */
  ghost predicate Unhindered(s: State, p: nat) {
    Live(s, p) &&
    var c, a, d := s.procs[p].call, s.procs[p].phase, DirOf(s, s.procs[p].call.name);
    if c.Create? then !d.HasFile?
    else if a.AtRmdir? then d.Empty?
    else
      && d.HasFile? && CheckLvb(Ok(Text(d.file.block)), c.uuid)
      && (a.AtAcquire? ==> d.file.maker !in s.leases)
  }

  /** The number of steps ahead. */
  ghost function Ahead(x: Proc): nat {
    match x.call
    case Create(_, _) =>
      (match x.phase
       case AtStat => 7 case AtMkdir => 6 case AtChmod => 5 case AtOpen => 4
       case AtInit => 3 case AtSetLvb => 2 case AtRename(_) => 1 case _ => 0)
    case Chain(_, _, works, removes) =>
      var removal := if removes then 2 else 0;
      (match x.phase
       case AtAcquire => works + removal + 2
       case AtCheck(_) => works + removal + 1
       case AtWork(_, k) => (if k < works then works - k else 0) + removal
       case AtRm(_) => 2
       case AtRmdir(_) => 1
       case _ => 0)
  }

  /** A command on the disk is one of those that were given. */
  ghost predicate WithinWorks(x: Proc) { x.phase.AtWork? && x.call.Chain? ==> x.phase.k < x.call.works }

  /** A step of p that succeeds leaves fewer ahead. */
  ghost predicate GoesForward(s: State, p: nat)
    requires Inv(s) && Enabled(s, Go(p))
  {
    var x, t := s.procs[p], Apply(s, Go(p));
    && WithinWorks(t.procs[p]) && t.procs[p].call == x.call
    && Ahead(t.procs[p]) < Ahead(x) && (t.procs[p].phase == Done(true) || Unhindered(t, p))
  }

  lemma CreateGoesForward(s: State, p: nat)
    requires Inv(s) && Unhindered(s, p) && s.procs[p].call.Create?
    ensures Enabled(s, Go(p)) && GoesForward(s, p)
  {
    assert Typed(s.procs[p]);
  }

  lemma ChainIsEnabled(s: State, p: nat)
    requires Inv(s) && Unhindered(s, p) && s.procs[p].call.Chain?
    ensures Enabled(s, Go(p))
  {
    assert Typed(s.procs[p]);
  }

  lemma ChainStaysUnhindered(s: State, p: nat)
    requires Inv(s) && Unhindered(s, p) && s.procs[p].call.Chain? && Enabled(s, Go(p))
    ensures var t := Apply(s, Go(p)); t.procs[p].phase == Done(true) || Unhindered(t, p)
  {
    assert Typed(s.procs[p]);
  }

  lemma ChainGoesForward(s: State, p: nat)
    requires Inv(s) && Unhindered(s, p) && WithinWorks(s.procs[p]) && s.procs[p].call.Chain?
    ensures Enabled(s, Go(p)) && GoesForward(s, p)
  {
    ChainIsEnabled(s, p);
    ChainStaysUnhindered(s, p);
    assert Typed(s.procs[p]);
  }

  lemma {:induction false} RunsToTheEnd(s: State, p: nat) returns (es: seq<Event>)
    requires Inv(s) && Unhindered(s, p) && WithinWorks(s.procs[p])
    ensures Possible(s, es) && p in After(s, es).procs
    ensures After(s, es).procs[p] == Proc(s.procs[p].call, Done(true))
    decreases Ahead(s.procs[p])
  {
    if s.procs[p].call.Create? { CreateGoesForward(s, p); } else { ChainGoesForward(s, p); }
    InvStep(s, Go(p));
    var t := Apply(s, Go(p));
    var rest := [];
    if t.procs[p].phase != Done(true) {
      rest := RunsToTheEnd(t, p);
    }
    es := [Go(p)] + rest;
    assert es[1..] == rest;
  }

  /** Whatever has happened before, a create can succeed if its name is free, and a chain can succeed
      if its VM owns the resource and no one has its lease. */
  lemma CallsCanSucceed(s: State, p: nat, c: Call) returns (es: seq<Event>)
    requires Inv(s) && p !in s.procs
    requires c.Create? ==> c.name !in Locks(s)
    requires c.Chain? ==>
      OwnerOf(Locks(s), c.name) == Some(c.uuid) && c.uuid != [] && s.dirs[c.name].file.maker !in s.leases
    ensures Possible(s, es) && p in After(s, es).procs && After(s, es).procs[p] == Proc(c, Done(true))
  {
    InvStep(s, Begin(p, c));
    var t := Apply(s, Begin(p, c));
    var rest := RunsToTheEnd(t, p);
    es := [Begin(p, c)] + rest;
    assert es[1..] == rest;
  }
}

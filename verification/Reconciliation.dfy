/**
 One full report of a host (send_system_info followed by delete_ghosts) brings
 every inventory that receives it in line with the host's live VMs.
 */
module Reconciliation {
  import opened Inventory
  import opened InventoryRuns

  /** delete_ghosts: indexed under h but not reported by libvirt. */
  function Ghosts(s: State, h: Id, live: set<Id>): set<Id> {
    if h in s.hosts then s.hosts[h].vms - live else {}
  }

  /** A message of the round of host h at time ts, or one that concerns neither h's VMs nor h's
      ghosts and does not place a VM on h. */
  predicate InRound(m: Msg, h: Id, ts: int, live: set<Id>, ghosts: set<Id>) {
    match m
    case HostMsg(_) => true
    case MemberMsg(_, _) => true
    case VmMsg(v) => if v.uuid in live then v.host == h && v.ts == ts else v.uuid !in ghosts && v.host != h
    case EventMsg(e) =>
      if e.uuid in ghosts then e.runstate == RUNSTATE_DELETED && e.host == h && e.ts == ts
      else e.uuid !in live && e.host != h
  }

  /** One VmInfo per live VM and one DELETED event per ghost, in any order and mixed with
      other traffic; HostInfo first if h is unknown. */
  ghost predicate FullRound(s: State, msgs: seq<Msg>, h: Id, ts: int, live: set<Id>) {
    var ghosts := Ghosts(s, h, live);
    && (forall m | m in msgs :: InRound(m, h, ts, live, ghosts))
    && (forall u | u in live :: exists m :: m in msgs && IsVmMsg(m, u))
    && (forall u | u in ghosts :: exists m :: m in msgs && IsEvent(m, u))
    && (h in s.hosts || (msgs != [] && IsHostMsg(msgs[0], h)))
  }

  /** No ghost's record is newer than the round, and a live VM whose record is newer is indexed already. */
  ghost predicate RoundIsCurrent(s: State, h: Id, ts: int, live: set<Id>, ghosts: set<Id>) {
    && (forall u | u in ghosts && u in s.vms :: s.vms[u].ts <= ts)
    && (forall u | u in live && u in s.vms :: s.vms[u].ts <= ts || Indexed(s, u, h))
  }

  /** What holds while the round is being delivered: `done` was delivered, and h is known. */
  ghost predicate Midway(s: State, done: set<Msg>, h: Id, ts: int, live: set<Id>, ghosts: set<Id>) {
    && Consistent(s) && h in s.hosts && RoundIsCurrent(s, h, ts, live, ghosts)
    && s.hosts[h].vms <= live + ghosts
    && (forall m | m in done && m.VmMsg? && m.vm.uuid in live :: m.vm.uuid in s.hosts[h].vms)
    && (forall m | m in done && m.EventMsg? && m.event.uuid in ghosts :: m.event.uuid !in s.vms)
  }

  lemma MidwayStep(s: State, done: set<Msg>, m: Msg, h: Id, ts: int, live: set<Id>, ghosts: set<Id>)
    requires live !! ghosts && InRound(m, h, ts, live, ghosts)
    requires Midway(s, done, h, ts, live, ghosts)
    ensures Midway(Apply(s, m), done + {m}, h, ts, live, ghosts)
  {
    var r := Apply(s, m);
    ApplyKeepsConsistent(s, m);
    forall u | u in r.hosts[h].vms ensures u in live + ghosts {
      IndexStep(s, m, u, h);
      assert Indexed(r, u, h);
      if !Accepted(s, m, u) { assert Indexed(s, u, h); }
    }
    forall u | u in live && (u in s.hosts[h].vms || IsVmMsg(m, u)) ensures u in r.hosts[h].vms {
      IndexStep(s, m, u, h);
      assert Indexed(s, u, h) <==> u in s.hosts[h].vms;
      assert Indexed(r, u, h) <==> u in r.hosts[h].vms;
    }
  }

  lemma {:induction false} MidwayRun(s: State, msgs: seq<Msg>, h: Id, ts: int, live: set<Id>, ghosts: set<Id>)
    requires live !! ghosts && (forall m | m in msgs :: InRound(m, h, ts, live, ghosts))
    requires Midway(s, {}, h, ts, live, ghosts)
    ensures Midway(Run(s, msgs), Delivered(msgs), h, ts, live, ghosts)
  {
    if msgs == [] {
      assert Delivered(msgs) == {};
    } else {
      assert forall m | m in Front(msgs) :: m in msgs;
      MidwayRun(s, Front(msgs), h, ts, live, ghosts);
      DeliveredFront(msgs);
      MidwayStep(Run(s, Front(msgs)), Delivered(Front(msgs)), Final(msgs), h, ts, live, ghosts);
    }
  }

  lemma {:induction false} RunCons(s: State, m: Msg, msgs: seq<Msg>)
    ensures Run(s, [m] + msgs) == Run(Apply(s, m), msgs)
  {
    if msgs == [] {
      assert [m] + msgs == [] + [m];
      RunSnoc(s, [], m);
    } else {
      RunCons(s, m, Front(msgs));
      assert [m] + msgs == ([m] + Front(msgs)) + [Final(msgs)];
      RunSnoc(s, [m] + Front(msgs), Final(msgs));
    }
  }

  /** After a full round the index of h is exactly the live set, and no live VM is indexed elsewhere. */
  lemma RoundReconciles(s: State, msgs: seq<Msg>, h: Id, ts: int, live: set<Id>)
    requires Consistent(s) && FullRound(s, msgs, h, ts, live)
    requires RoundIsCurrent(s, h, ts, live, Ghosts(s, h, live))
    ensures var r := Run(s, msgs);
      && h in r.hosts && r.hosts[h].vms == live
      && forall u, g | u in live && Indexed(r, u, g) :: g == h
  {
    var ghosts := Ghosts(s, h, live);
    if h in s.hosts {
      MidwayRun(s, msgs, h, ts, live, ghosts);
    } else {
      var t, rest := Apply(s, msgs[0]), msgs[1..];
      assert msgs == [msgs[0]] + rest;
      RunCons(s, msgs[0], rest);
      ApplyKeepsConsistent(s, msgs[0]);
      MidwayRun(t, rest, h, ts, live, ghosts);
    }
    RoundEnds(s, msgs, h, ts, live);
  }

  lemma RoundEnds(s: State, msgs: seq<Msg>, h: Id, ts: int, live: set<Id>)
    requires FullRound(s, msgs, h, ts, live)
    requires var done := if h in s.hosts then Delivered(msgs) else Delivered(msgs[1..]);
      Midway(Run(s, msgs), done, h, ts, live, Ghosts(s, h, live))
    ensures Run(s, msgs).hosts[h].vms == live
    ensures forall u, g | u in live && Indexed(Run(s, msgs), u, g) :: g == h
  {
    var r, ghosts := Run(s, msgs), Ghosts(s, h, live);
    forall u | u in live ensures u in r.hosts[h].vms {
      var m :| m in msgs && IsVmMsg(m, u);
      if h !in s.hosts {
        assert msgs == [msgs[0]] + msgs[1..];
        assert m in msgs[1..];
      }
    }
    forall u | u in ghosts ensures u !in r.hosts[h].vms {
      var m :| m in msgs && IsEvent(m, u);
      assert !Indexed(r, u, h);
    }
    forall u, g | u in live && Indexed(r, u, g) ensures g == h {
      assert Indexed(r, u, h);
    }
  }

  /** Messages about u that are older than its record leave record and index entry alone. */
  lemma {:induction false} NewerRecordIsFrozen(s: State, msgs: seq<Msg>, u: Id, h: Id)
    requires Consistent(s) && u in s.vms
    requires forall m | m in msgs :: !Accepted(s, m, u) && (IsEvent(m, u) ==> m.event.ts < s.vms[u].ts)
    ensures var r := Run(s, msgs);
      Consistent(r) && u in r.vms && r.vms[u] == s.vms[u] && (Indexed(r, u, h) <==> Indexed(s, u, h))
  {
    if msgs != [] {
      assert (forall m | m in Front(msgs) :: m in msgs) && Final(msgs) in msgs;
      NewerRecordIsFrozen(s, Front(msgs), u, h);
      ApplyKeepsConsistent(Run(s, Front(msgs)), Final(msgs));
      IndexStep(Run(s, Front(msgs)), Final(msgs), u, h);
    }
  }

  /** The round reconciles if and only if it is current. */
  lemma RoundReconcilesIff(s: State, msgs: seq<Msg>, h: Id, ts: int, live: set<Id>)
    requires Consistent(s) && FullRound(s, msgs, h, ts, live)
    ensures h in Run(s, msgs).hosts && Run(s, msgs).hosts[h].vms == live
       <==> RoundIsCurrent(s, h, ts, live, Ghosts(s, h, live))
  {
    var r, ghosts := Run(s, msgs), Ghosts(s, h, live);
    if RoundIsCurrent(s, h, ts, live, ghosts) {
      RoundReconciles(s, msgs, h, ts, live);
    }
    if h in r.hosts && r.hosts[h].vms == live {
      forall u | u in live + ghosts && u in s.vms && s.vms[u].ts > ts ensures u in live && Indexed(s, u, h) {
        NewerRecordIsFrozen(s, msgs, u, h);
        assert u in ghosts ==> Indexed(s, u, h);
        assert Indexed(r, u, h) <==> u in live;
      }
    }
  }

  /** m does not name u. */
  predicate Silent(m: Msg, u: Id) { !IsVmMsg(m, u) && !IsEvent(m, u) }

  /** delete_ghosts walks the index, so a dead VM that is an orphan is never collected: as
      long as no message names it, its record stays, and so does its host. */
  lemma {:induction false} OrphansAreNotCollected(s: State, msgs: seq<Msg>, u: Id, h: Id, live: set<Id>)
    requires u in s.vms && s.vms[u].host == h && !Indexed(s, u, h) && (forall m | m in msgs :: Silent(m, u))
    ensures u !in Ghosts(s, h, live)
    ensures var r := Run(s, msgs);
      u in r.vms && r.vms[u].host == h && !Indexed(r, u, h) && u in Scan(r, h)
  {
    if msgs != [] {
      assert (forall m | m in Front(msgs) :: m in msgs) && Final(msgs) in msgs;
      OrphansAreNotCollected(s, Front(msgs), u, h, live);
    }
  }

  // ------------------------------------------------- when a round clears the dead

  /** m names u with a timestamp of at least ts. */
  predicate NamesSince(m: Msg, u: Id, ts: int) {
    (IsVmMsg(m, u) && m.vm.ts >= ts) || (IsEvent(m, u) && m.event.ts >= ts)
  }

  ghost predicate NamedSince(msgs: seq<Msg>, u: Id, ts: int) { exists m :: m in msgs && NamesSince(m, u, ts) }

  /** What the inventory knows of u's place. */
  predicate IsOn(s: State, u: Id, h: Id) { u in s.vms && s.vms[u].host == h }

  lemma Split(msgs: seq<Msg>)
    requires msgs != []
    ensures msgs == Front(msgs) + [Final(msgs)]
  {
  }

  lemma NamedSplit(msgs: seq<Msg>, u: Id, ts: int)
    requires msgs != []
    ensures NamedSince(msgs, u, ts) <==> NamedSince(Front(msgs), u, ts) || NamesSince(Final(msgs), u, ts)
  {
    Split(msgs);
    if NamedSince(Front(msgs), u, ts) {
      var m :| m in Front(msgs) && NamesSince(m, u, ts);
      assert m in msgs;
    }
    if NamesSince(Final(msgs), u, ts) {
      assert Final(msgs) in msgs;
    }
  }

  /** A live VM ends up on h unless its record is newer than the round and says otherwise. */
  lemma {:induction false} LiveEndsOn(s: State, msgs: seq<Msg>, h: Id, ts: int, live: set<Id>, ghosts: set<Id>, u: Id)
    requires u in live && u !in ghosts && forall m | m in msgs :: InRound(m, h, ts, live, ghosts)
    ensures var r := Run(s, msgs);
      if u in s.vms && s.vms[u].ts > ts then u in r.vms && r.vms[u] == s.vms[u]
      else if NamedSince(msgs, u, ts) then IsOn(r, u, h) && r.vms[u].ts <= ts
      else (u in r.vms <==> u in s.vms) && (u in s.vms ==> r.vms[u] == s.vms[u])
  {
    if msgs != [] {
      Split(msgs);
      NamedSplit(msgs, u, ts);
      LiveEndsOn(s, Front(msgs), h, ts, live, ghosts, u);
      assert InRound(Final(msgs), h, ts, live, ghosts);
    }
  }

  /** A dead VM of h leaves h exactly if some message is new enough to say so. */
  lemma {:induction false} DeadLeaves(s: State, msgs: seq<Msg>, h: Id, ts: int, live: set<Id>, ghosts: set<Id>, u: Id)
    requires u !in live && IsOn(s, u, h) && forall m | m in msgs :: InRound(m, h, ts, live, ghosts)
    ensures var r := Run(s, msgs);
      if NamedSince(msgs, u, s.vms[u].ts) then !IsOn(r, u, h) else u in r.vms && r.vms[u] == s.vms[u]
  {
    if msgs != [] {
      Split(msgs);
      NamedSplit(msgs, u, s.vms[u].ts);
      DeadLeaves(s, Front(msgs), h, ts, live, ghosts, u);
      assert InRound(Final(msgs), h, ts, live, ghosts);
    }
  }

  /** Nothing else comes to h. */
  lemma {:induction false} DeadStaysAway(s: State, msgs: seq<Msg>, h: Id, ts: int, live: set<Id>,
                                         ghosts: set<Id>, u: Id)
    requires u !in live && !IsOn(s, u, h) && forall m | m in msgs :: InRound(m, h, ts, live, ghosts)
    ensures !IsOn(Run(s, msgs), u, h)
  {
    if msgs != [] {
      Split(msgs);
      DeadStaysAway(s, Front(msgs), h, ts, live, ghosts, u);
      assert InRound(Final(msgs), h, ts, live, ghosts);
    }
  }

  /** No record of a live VM is newer than the round, unless it has the VM on h. */
  ghost predicate LiveCurrent(s: State, h: Id, ts: int, live: set<Id>) {
    forall u | u in live && u in s.vms :: s.vms[u].ts <= ts || s.vms[u].host == h
  }

  /** Every dead VM that the inventory has on h is named by a message as new as its record. */
  ghost predicate DeadNamed(s: State, msgs: seq<Msg>, h: Id, live: set<Id>) {
    forall u | u in Scan(s, h) && u !in live :: NamedSince(msgs, u, s.vms[u].ts)
  }

  /** After a full round the inventory has exactly the live VMs on h, in its records and not just in
      its index, if and only if no record of a live VM is newer and says otherwise, and every dead VM
      is named by a message that is new enough. */
  lemma RoundClearsIff(s: State, msgs: seq<Msg>, h: Id, ts: int, live: set<Id>)
    requires Consistent(s) && FullRound(s, msgs, h, ts, live)
    ensures Scan(Run(s, msgs), h) == live <==> LiveCurrent(s, h, ts, live) && DeadNamed(s, msgs, h, live)
  {
    var r, ghosts := Run(s, msgs), Ghosts(s, h, live);
    forall u | u in live ensures IsOn(r, u, h) <==> u !in s.vms || s.vms[u].ts <= ts || s.vms[u].host == h {
      LiveEndsOn(s, msgs, h, ts, live, ghosts, u);
      var m :| m in msgs && IsVmMsg(m, u);
      assert InRound(m, h, ts, live, ghosts) && NamesSince(m, u, ts);
    }
    forall u | u !in live ensures IsOn(r, u, h) <==> IsOn(s, u, h) && !NamedSince(msgs, u, s.vms[u].ts) {
      if IsOn(s, u, h) {
        DeadLeaves(s, msgs, h, ts, live, ghosts, u);
      } else {
        DeadStaysAway(s, msgs, h, ts, live, ghosts, u);
      }
    }
    assert forall u :: u in Scan(r, h) <==> IsOn(r, u, h);
    assert forall u :: u in Scan(s, h) <==> IsOn(s, u, h);
  }

  /** A round that names no orphan clears the dead exactly if every dead VM of h is indexed and none
      is newer than the round. */
  lemma RoundWithoutOrphansClearsIff(s: State, msgs: seq<Msg>, h: Id, ts: int, live: set<Id>)
    requires Consistent(s) && FullRound(s, msgs, h, ts, live) && LiveCurrent(s, h, ts, live)
    requires forall u, m | u in Scan(s, h) && u !in live && !Indexed(s, u, h) && m in msgs :: Silent(m, u)
    ensures Scan(Run(s, msgs), h) == live
       <==> forall u | u in Scan(s, h) && u !in live :: Indexed(s, u, h) && s.vms[u].ts <= ts
  {
    RoundClearsIff(s, msgs, h, ts, live);
    var ghosts := Ghosts(s, h, live);
    forall u | u in Scan(s, h) && u !in live
      ensures NamedSince(msgs, u, s.vms[u].ts) <==> Indexed(s, u, h) && s.vms[u].ts <= ts
    {
      assert forall m | m in msgs :: InRound(m, h, ts, live, ghosts);
      if Indexed(s, u, h) {
        assert u in ghosts;
        var m :| m in msgs && IsEvent(m, u);
        assert s.vms[u].ts <= ts ==> NamesSince(m, u, s.vms[u].ts);
      }
    }
  }
}

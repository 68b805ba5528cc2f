/** Properties of whole runs of the inventory: whom the index misses, timestamps, convergence. */
module InventoryRuns {
  import opened Inventory

  function Front(msgs: seq<Msg>): seq<Msg> requires msgs != [] { msgs[..|msgs| - 1] }
  function Final(msgs: seq<Msg>): Msg requires msgs != [] { msgs[|msgs| - 1] }
  function Reached(msgs: seq<Msg>): State { Run(EMPTY, msgs) }

  // --------------------------------------------------- completeness of the index

  predicate IsHostMsg(m: Msg, h: Id) { m.HostMsg? && m.host.uuid == h }
  predicate IsVmMsg(m: Msg, u: Id) { m.VmMsg? && m.vm.uuid == u }
  predicate IsEvent(m: Msg, u: Id) { m.EventMsg? && m.event.uuid == u }

  /** m is taken into account and leaves u in the inventory. */
  predicate Accepted(s: State, m: Msg, u: Id) {
    || (IsVmMsg(m, u) && (u in s.vms ==> s.vms[u].ts <= m.vm.ts))
    || (IsEvent(m, u) && u in s.vms && s.vms[u].ts <= m.event.ts && m.event.runstate != RUNSTATE_DELETED)
  }

  /** Position of the first HostInfo for h, or -1. */
  function Born(msgs: seq<Msg>, h: Id): (r: int)
    ensures -1 <= r < |msgs|
  {
    if msgs == [] then -1
    else if Born(Front(msgs), h) >= 0 then Born(Front(msgs), h)
    else if IsHostMsg(Final(msgs), h) then |msgs| - 1
    else -1
  }

  /** Position of the last message accepted for u, or -1. */
  function LastAccepted(msgs: seq<Msg>, u: Id): (r: int)
    ensures -1 <= r < |msgs|
  {
    if msgs == [] then -1
    else if Accepted(Reached(Front(msgs)), Final(msgs), u) then |msgs| - 1
    else LastAccepted(Front(msgs), u)
  }

  lemma {:induction false} HostsAreBorn(msgs: seq<Msg>, h: Id)
    ensures h in Reached(msgs).hosts <==> Born(msgs, h) >= 0
  {
    if msgs != [] {
      HostsAreBorn(Front(msgs), h);
    }
  }

  /** Only an accepted message indexes u, and only a deletion or a move takes u away. */
  lemma IndexStep(s: State, m: Msg, u: Id, h: Id)
    requires Consistent(s)
    ensures var r := Apply(s, m);
      if Accepted(s, m, u) then u in r.vms && (Indexed(r, u, h) <==> r.vms[u].host == h && h in s.hosts)
      else
        && (Indexed(r, u, h) <==> Indexed(s, u, h) && u in r.vms)
        && (u in r.vms ==> u in s.vms && r.vms[u].host == s.vms[u].host)
  {
    assert Indexed(s, u, h) ==> u in s.vms && s.vms[u].host == h;
  }

  /** A VM is missing from the index of its known host exactly when its last accepted
      message came before the first message of that host. */
  lemma {:induction false} IndexExact(msgs: seq<Msg>, u: Id, h: Id)
    ensures Indexed(Reached(msgs), u, h) <==>
      var s := Reached(msgs);
      u in s.vms && s.vms[u].host == h && h in s.hosts && Born(msgs, h) < LastAccepted(msgs, u)
  {
    IndexNeverLies(msgs);
    HostsAreBorn(msgs, h);
    if msgs != [] {
      IndexNeverLies(Front(msgs));
      HostsAreBorn(Front(msgs), h);
      IndexExact(Front(msgs), u, h);
      IndexStep(Reached(Front(msgs)), Final(msgs), u, h);
    }
  }

  /** Search_vms filtered by host: the scan the index stands for. */
  function Scan(s: State, h: Id): set<Id> {
    set u | u in s.vms && s.vms[u].host == h
  }

  /** The index of a host is the scan without the orphans. */
  lemma IndexIsScanWithoutOrphans(msgs: seq<Msg>, h: Id)
    requires h in Reached(msgs).hosts
    ensures Reached(msgs).hosts[h].vms
         == set u | u in Scan(Reached(msgs), h) && Born(msgs, h) < LastAccepted(msgs, u)
  {
    var s := Reached(msgs);
    forall u ensures u in s.hosts[h].vms <==> u in Scan(s, h) && Born(msgs, h) < LastAccepted(msgs, u) {
      IndexExact(msgs, u, h);
      assert u in s.hosts[h].vms <==> Indexed(s, u, h);
    }
  }

  /** Any accepted message that keeps the VM repairs its index entry. */
  lemma AcceptedMessageRepairs(s: State, m: Msg, u: Id)
    requires Consistent(s) && Accepted(s, m, u)
    ensures var r := Apply(s, m);
      u in r.vms && (r.vms[u].host in r.hosts ==> Indexed(r, u, r.vms[u].host))
  {
  }

  // ---------------------------------------------------------------- timestamps

  /** ts is the largest timestamp among the HostInfos for h. */
  ghost predicate LargestHostTs(msgs: seq<Msg>, h: Id, ts: int) {
    && (forall i | 0 <= i < |msgs| && IsHostMsg(msgs[i], h) :: msgs[i].host.ts <= ts)
    && (exists i :: 0 <= i < |msgs| && IsHostMsg(msgs[i], h) && msgs[i].host.ts == ts)
  }

  ghost predicate NoHostMsg(msgs: seq<Msg>, h: Id) { forall i | 0 <= i < |msgs| :: !IsHostMsg(msgs[i], h) }

  lemma LargestHostTsSnoc(msgs: seq<Msg>, h: Id, ts: int)
    requires msgs != [] && LargestHostTs(Front(msgs), h, ts)
    ensures !IsHostMsg(Final(msgs), h) ==> LargestHostTs(msgs, h, ts)
    ensures IsHostMsg(Final(msgs), h) ==>
      LargestHostTs(msgs, h, if Final(msgs).host.ts >= ts then Final(msgs).host.ts else ts)
  {
    var front := Front(msgs);
    assert forall i | 0 <= i < |front| :: msgs[i] == front[i];
    var i :| 0 <= i < |front| && IsHostMsg(front[i], h) && front[i].host.ts == ts;
    assert msgs[i] == front[i];
    assert msgs[|msgs| - 1] == Final(msgs);
  }

  /** A host is known iff some HostInfo for it was delivered, and its Ts is the largest delivered. */
  lemma {:induction false} HostTsIsMaximum(msgs: seq<Msg>, h: Id)
    ensures var s := Reached(msgs);
      if h in s.hosts then LargestHostTs(msgs, h, s.hosts[h].info.ts) else NoHostMsg(msgs, h)
  {
    if msgs != [] {
      var front := Front(msgs);
      HostTsIsMaximum(front, h);
      if h in Reached(front).hosts {
        LargestHostTsSnoc(msgs, h, Reached(front).hosts[h].info.ts);
      } else {
        assert forall i | 0 <= i < |front| :: msgs[i] == front[i];
        assert msgs[|msgs| - 1] == Final(msgs);
      }
    }
  }

  /** How many messages had been delivered when u was last absent from the inventory. */
  function LastAbsent(msgs: seq<Msg>, u: Id): (k: nat)
    ensures k <= |msgs|
  {
    if u !in Reached(msgs).vms then |msgs| else LastAbsent(Front(msgs), u)
  }

  lemma {:induction false} LastAbsentMeans(msgs: seq<Msg>, u: Id)
    ensures var k := LastAbsent(msgs, u);
      u !in Reached(msgs[..k]).vms && forall j | k < j <= |msgs| :: u in Reached(msgs[..j]).vms
  {
    assert msgs[..|msgs|] == msgs;
    if u in Reached(msgs).vms {
      var front := Front(msgs);
      LastAbsentMeans(front, u);
      var k := LastAbsent(msgs, u);
      assert msgs[..k] == front[..k];
      forall j | k < j <= |msgs| ensures u in Reached(msgs[..j]).vms {
        if j < |msgs| { assert msgs[..j] == front[..j]; }
      }
    }
  }

  /** ts is the largest timestamp among the VmInfos for u from position k on. */
  ghost predicate LargestVmTs(msgs: seq<Msg>, u: Id, k: nat, ts: int) {
    && (forall i | k <= i < |msgs| && IsVmMsg(msgs[i], u) :: msgs[i].vm.ts <= ts)
    && (exists i :: k <= i < |msgs| && IsVmMsg(msgs[i], u) && msgs[i].vm.ts == ts)
  }

  lemma LargestVmTsSnoc(msgs: seq<Msg>, u: Id, k: nat, ts: int)
    requires msgs != [] && LargestVmTs(Front(msgs), u, k, ts)
    ensures !IsVmMsg(Final(msgs), u) ==> LargestVmTs(msgs, u, k, ts)
    ensures IsVmMsg(Final(msgs), u) ==>
      LargestVmTs(msgs, u, k, if Final(msgs).vm.ts >= ts then Final(msgs).vm.ts else ts)
  {
    var front := Front(msgs);
    assert forall i | 0 <= i < |front| :: msgs[i] == front[i];
    var i :| k <= i < |front| && IsVmMsg(front[i], u) && front[i].vm.ts == ts;
    assert msgs[i] == front[i];
    assert msgs[|msgs| - 1] == Final(msgs);
  }

  /** The Ts of a VM is the largest of the VmInfos delivered since it was last absent;
      events and host messages in between do not change that. */
  lemma {:induction false} VmTsIsMaximumSinceAbsent(msgs: seq<Msg>, u: Id)
    requires u in Reached(msgs).vms
    ensures LargestVmTs(msgs, u, LastAbsent(msgs, u), Reached(msgs).vms[u].ts)
  {
    var front := Front(msgs);
    if u in Reached(front).vms {
      VmTsIsMaximumSinceAbsent(front, u);
      LargestVmTsSnoc(msgs, u, LastAbsent(front, u), Reached(front).vms[u].ts);
    } else {
      assert IsVmMsg(msgs[|msgs| - 1], u);
    }
  }

  // --------------------------------------------------------------- convergence

  /** What a message is about; only host and VM information has a topic. */
  datatype Topic = HostTopic(h: Id) | VmTopic(u: Id)

  predicate IsInfo(m: Msg) { m.HostMsg? || m.VmMsg? }

  function TopicOf(m: Msg): Topic
    requires IsInfo(m)
  {
    if m.HostMsg? then HostTopic(m.host.uuid) else VmTopic(m.vm.uuid)
  }

  function Stamp(m: Msg): int
    requires IsInfo(m)
  {
    if m.HostMsg? then m.host.ts else m.vm.ts
  }

  /** Host or VM information with the largest timestamp on its topic. */
  ghost predicate Newest(ms: set<Msg>, m: Msg) {
    m in ms && IsInfo(m) && forall x | x in ms && IsInfo(x) && TopicOf(x) == TopicOf(m) :: Stamp(x) <= Stamp(m)
  }

  /** No two different messages tie for newest on one topic. */
  ghost predicate UniqueNewest(ms: set<Msg>) {
    forall x, y | Newest(ms, x) && Newest(ms, y) && TopicOf(x) == TopicOf(y) :: x == y
  }

  /** The event would leave the record as it is. */
  predicate Restates(e: VmEvent, v: VmInfo) {
    e.runstate != RUNSTATE_DELETED && e.host == v.host && e.runstate == v.runstate
  }

  /** An event about a VM is older than the VM's newest information, or agrees with it. */
  ghost predicate EventsAgree(ms: set<Msg>) {
    forall e, v | EventMsg(e) in ms && Newest(ms, VmMsg(v)) && v.uuid == e.uuid :: e.ts < v.ts || Restates(e, v)
  }

  /** A member change agrees with the host's newest information. */
  ghost predicate MembersAgree(ms: set<Msg>) {
    forall h, c, i | MemberMsg(h, c) in ms && Newest(ms, HostMsg(i)) && i.uuid == h :: c == i.cstate
  }

  ghost predicate Settled(ms: set<Msg>) { UniqueNewest(ms) && EventsAgree(ms) && MembersAgree(ms) }

  ghost function Delivered(msgs: seq<Msg>): set<Msg> { set m | m in msgs }

  lemma DeliveredFront(msgs: seq<Msg>)
    requires msgs != []
    ensures Delivered(msgs) == Delivered(Front(msgs)) + {Final(msgs)}
  {
    assert msgs == Front(msgs) + [Final(msgs)];
  }

  /** Once a VM's newest information has come, it is the record, whatever else comes. */
  lemma {:induction false} VmSettles(msgs: seq<Msg>, ms: set<Msg>, v: VmInfo)
    requires Delivered(msgs) <= ms && Settled(ms) && Newest(ms, VmMsg(v))
    ensures var s := Reached(msgs);
      if VmMsg(v) in msgs then v.uuid in s.vms && s.vms[v.uuid] == v
      else v.uuid in s.vms ==> s.vms[v.uuid].ts <= v.ts
  {
    if msgs != [] {
      DeliveredFront(msgs);
      VmSettles(Front(msgs), ms, v);
      assert msgs == Front(msgs) + [Final(msgs)] && Final(msgs) in ms;
      VmSettlesStep(Reached(Front(msgs)), Final(msgs), ms, v, VmMsg(v) in Front(msgs));
    }
  }

  lemma VmSettlesStep(s: State, m: Msg, ms: set<Msg>, v: VmInfo, come: bool)
    requires m in ms && Settled(ms) && Newest(ms, VmMsg(v))
    requires if come then v.uuid in s.vms && s.vms[v.uuid] == v else v.uuid in s.vms ==> s.vms[v.uuid].ts <= v.ts
    ensures var r := Apply(s, m);
      if come || m == VmMsg(v) then v.uuid in r.vms && r.vms[v.uuid] == v
      else v.uuid in r.vms ==> r.vms[v.uuid].ts <= v.ts
  {
    if IsVmMsg(m, v.uuid) {
      assert TopicOf(m) == TopicOf(VmMsg(v));
      assert Stamp(m) >= Stamp(VmMsg(v)) ==> Newest(ms, m);
    }
  }

  /** Once a host's newest information has come, it is the record, whatever else comes. */
  lemma {:induction false} HostSettles(msgs: seq<Msg>, ms: set<Msg>, i: HostInfo)
    requires Delivered(msgs) <= ms && Settled(ms) && Newest(ms, HostMsg(i))
    ensures var s := Reached(msgs);
      if HostMsg(i) in msgs then i.uuid in s.hosts && s.hosts[i.uuid].info == i
      else i.uuid in s.hosts ==> s.hosts[i.uuid].info.ts <= i.ts
  {
    if msgs != [] {
      DeliveredFront(msgs);
      HostSettles(Front(msgs), ms, i);
      assert msgs == Front(msgs) + [Final(msgs)] && Final(msgs) in ms;
      HostSettlesStep(Reached(Front(msgs)), Final(msgs), ms, i, HostMsg(i) in Front(msgs));
    }
  }

  lemma HostSettlesStep(s: State, m: Msg, ms: set<Msg>, i: HostInfo, come: bool)
    requires m in ms && Settled(ms) && Newest(ms, HostMsg(i))
    requires if come then i.uuid in s.hosts && s.hosts[i.uuid].info == i
             else i.uuid in s.hosts ==> s.hosts[i.uuid].info.ts <= i.ts
    ensures var r := Apply(s, m);
      if come || m == HostMsg(i) then i.uuid in r.hosts && r.hosts[i.uuid].info == i
      else i.uuid in r.hosts ==> r.hosts[i.uuid].info.ts <= i.ts
  {
    if IsHostMsg(m, i.uuid) {
      assert TopicOf(m) == TopicOf(HostMsg(i));
      assert Stamp(m) >= Stamp(HostMsg(i)) ==> Newest(ms, m);
    }
  }

  /** Among finitely many messages on a topic one is newest. */
  lemma {:induction false} NewestExists(msgs: seq<Msg>, m: Msg) returns (x: Msg)
    requires m in msgs && IsInfo(m)
    ensures Newest(Delivered(msgs), x) && TopicOf(x) == TopicOf(m)
  {
    var z := Final(msgs);
    DeliveredFront(msgs);
    assert msgs == Front(msgs) + [z];
    if m in Front(msgs) {
      x := NewestExists(Front(msgs), m);
      if IsInfo(z) && TopicOf(z) == TopicOf(m) && Stamp(z) > Stamp(x) {
        x := z;
      }
    } else if exists y :: y in Front(msgs) && IsInfo(y) && TopicOf(y) == TopicOf(m) {
      var y :| y in Front(msgs) && IsInfo(y) && TopicOf(y) == TopicOf(m);
      x := NewestExists(Front(msgs), y);
      if Stamp(z) > Stamp(x) {
        x := z;
      }
    } else {
      x := m;
    }
  }

  lemma {:induction false} KnownByInfo(msgs: seq<Msg>, u: Id)
    ensures u in Reached(msgs).vms ==> exists v: VmInfo :: VmMsg(v) in msgs && v.uuid == u
    ensures u in Reached(msgs).hosts ==> exists i: HostInfo :: HostMsg(i) in msgs && i.uuid == u
  {
    if msgs != [] {
      KnownByInfo(Front(msgs), u);
      assert msgs == Front(msgs) + [Final(msgs)];
      if u in Reached(Front(msgs)).vms {
        var v: VmInfo :| VmMsg(v) in Front(msgs) && v.uuid == u;
        assert VmMsg(v) in msgs;
      }
      if u in Reached(Front(msgs)).hosts {
        var i: HostInfo :| HostMsg(i) in Front(msgs) && i.uuid == u;
        assert HostMsg(i) in msgs;
      }
    }
  }

  /** Same records everywhere; the per-host indices are compared separately. */
  ghost predicate SameRecords(s: State, r: State) {
    && s.vms == r.vms
    && s.hosts.Keys == r.hosts.Keys
    && forall h | h in s.hosts :: s.hosts[h].info == r.hosts[h].info
  }

  lemma SameVm(a: seq<Msg>, b: seq<Msg>, u: Id)
    requires Delivered(a) == Delivered(b) && Settled(Delivered(a)) && u in Reached(a).vms
    ensures u in Reached(b).vms && Reached(b).vms[u] == Reached(a).vms[u]
  {
    KnownByInfo(a, u);
    var v: VmInfo :| VmMsg(v) in a && v.uuid == u;
    var x := NewestExists(a, VmMsg(v));
    assert x in Delivered(a) && x in Delivered(b);
    VmSettles(a, Delivered(a), x.vm);
    VmSettles(b, Delivered(a), x.vm);
  }

  lemma SameHost(a: seq<Msg>, b: seq<Msg>, h: Id)
    requires Delivered(a) == Delivered(b) && Settled(Delivered(a)) && h in Reached(a).hosts
    ensures h in Reached(b).hosts && Reached(b).hosts[h].info == Reached(a).hosts[h].info
  {
    KnownByInfo(a, h);
    var i: HostInfo :| HostMsg(i) in a && i.uuid == h;
    var x := NewestExists(a, HostMsg(i));
    assert x in Delivered(a) && x in Delivered(b);
    HostSettles(a, Delivered(a), x.host);
    HostSettles(b, Delivered(a), x.host);
  }

  /** Two inventories that were given the same settled messages, in any order and any number of
      times, agree on every record, and on every index entry except orphans. */
  lemma Convergence(a: seq<Msg>, b: seq<Msg>)
    requires Delivered(a) == Delivered(b) && Settled(Delivered(a))
    ensures SameRecords(Reached(a), Reached(b))
    ensures forall u, h | Indexed(Reached(a), u, h) && !Indexed(Reached(b), u, h) ::
      u in Reached(b).vms && Reached(b).vms[u].host == h && LastAccepted(b, u) <= Born(b, h)
  {
    forall u ensures u in Reached(a).vms <==> u in Reached(b).vms
             ensures u in Reached(a).vms ==> Reached(a).vms[u] == Reached(b).vms[u]
    {
      if u in Reached(a).vms { SameVm(a, b, u); }
      if u in Reached(b).vms { SameVm(b, a, u); }
    }
    forall h ensures h in Reached(a).hosts <==> h in Reached(b).hosts
             ensures h in Reached(a).hosts ==> Reached(a).hosts[h].info == Reached(b).hosts[h].info
    {
      if h in Reached(a).hosts { SameHost(a, b, h); }
      if h in Reached(b).hosts { SameHost(b, a, h); }
    }
    forall u, h | Indexed(Reached(a), u, h) && !Indexed(Reached(b), u, h)
      ensures u in Reached(b).vms && Reached(b).vms[u].host == h && LastAccepted(b, u) <= Born(b, h)
    {
      IndexNeverLies(a);
      IndexExact(b, u, h);
    }
  }

  /** Information that is newest on its topic is the record when it comes last. */
  lemma LastNewestWins(msgs: seq<Msg>, m: Msg)
    requires Newest(Delivered(msgs + [m]), m)
    ensures var r := Reached(msgs + [m]);
      if m.VmMsg? then m.vm.uuid in r.vms && r.vms[m.vm.uuid] == m.vm
      else m.host.uuid in r.hosts && r.hosts[m.host.uuid].info == m.host
  {
    RunSnoc(EMPTY, msgs, m);
    if m.VmMsg? && m.vm.uuid in Reached(msgs).vms { VmNotNewer(msgs, m); }
    if m.HostMsg? && m.host.uuid in Reached(msgs).hosts { HostNotNewer(msgs, m); }
  }

  lemma VmNotNewer(msgs: seq<Msg>, m: Msg)
    requires m.VmMsg? && Newest(Delivered(msgs + [m]), m) && m.vm.uuid in Reached(msgs).vms
    ensures Reached(msgs).vms[m.vm.uuid].ts <= m.vm.ts
  {
    var u := m.vm.uuid;
    VmTsIsMaximumSinceAbsent(msgs, u);
    var k := LastAbsent(msgs, u);
    var i :| k <= i < |msgs| && IsVmMsg(msgs[i], u) && msgs[i].vm.ts == Reached(msgs).vms[u].ts;
    OlderThanNewest(msgs, m, i);
  }

  lemma HostNotNewer(msgs: seq<Msg>, m: Msg)
    requires m.HostMsg? && Newest(Delivered(msgs + [m]), m) && m.host.uuid in Reached(msgs).hosts
    ensures Reached(msgs).hosts[m.host.uuid].info.ts <= m.host.ts
  {
    var h := m.host.uuid;
    HostTsIsMaximum(msgs, h);
    var i :| 0 <= i < |msgs| && IsHostMsg(msgs[i], h) && msgs[i].host.ts == Reached(msgs).hosts[h].info.ts;
    OlderThanNewest(msgs, m, i);
  }

  lemma OlderThanNewest(msgs: seq<Msg>, m: Msg, i: nat)
    requires Newest(Delivered(msgs + [m]), m) && i < |msgs| && IsInfo(msgs[i]) && TopicOf(msgs[i]) == TopicOf(m)
    ensures Stamp(msgs[i]) <= Stamp(m)
  {
    assert msgs[i] == (msgs + [m])[i];
  }

  // ------------------------------------------------------- when order matters

  ghost predicate Permutation(a: seq<Msg>, b: seq<Msg>) { multiset(a) == multiset(b) }

  /** Every order of delivery ends in the same records. */
  ghost predicate OrderIrrelevant(msgs: seq<Msg>) {
    forall a | Permutation(a, msgs) :: SameRecords(Reached(a), Reached(msgs))
  }

  lemma PermutedDelivers(a: seq<Msg>, b: seq<Msg>)
    requires Permutation(a, b)
    ensures Delivered(a) == Delivered(b)
  {
    assert forall m :: m in a <==> m in multiset(a);
    assert forall m :: m in b <==> m in multiset(b);
  }

  /** Any message can come last. */
  lemma {:induction false} CanComeLast(msgs: seq<Msg>, m: Msg) returns (front: seq<Msg>)
    requires m in msgs
    ensures Permutation(front + [m], msgs)
  {
    var i :| 0 <= i < |msgs| && msgs[i] == m;
    front := msgs[..i] + msgs[i + 1..];
    assert msgs == msgs[..i] + [m] + msgs[i + 1..];
  }

  /** A newest message can come last, and is the record then. */
  lemma NewestLast(msgs: seq<Msg>, m: Msg) returns (a: seq<Msg>)
    requires Newest(Delivered(msgs), m)
    ensures Permutation(a, msgs)
    ensures if m.VmMsg? then m.vm.uuid in Reached(a).vms && Reached(a).vms[m.vm.uuid] == m.vm
            else m.host.uuid in Reached(a).hosts && Reached(a).hosts[m.host.uuid].info == m.host
  {
    var front := CanComeLast(msgs, m);
    a := front + [m];
    PermutedDelivers(a, msgs);
    LastNewestWins(front, m);
  }

  /** Another message can come right after it, and meets it as the record. */
  lemma NewestThen(msgs: seq<Msg>, m: Msg, x: Msg) returns (before: seq<Msg>)
    requires Newest(Delivered(msgs), m) && x in msgs && x != m
    ensures Permutation(before + [x], msgs) && Reached(before + [x]) == Apply(Reached(before), x)
    ensures if m.VmMsg? then m.vm.uuid in Reached(before).vms && Reached(before).vms[m.vm.uuid] == m.vm
            else m.host.uuid in Reached(before).hosts && Reached(before).hosts[m.host.uuid].info == m.host
  {
    var rest := CanComeLast(msgs, x);
    PermutedDelivers(rest + [x], msgs);
    assert m in Delivered(rest + [x]) && m in rest;
    var front := CanComeLast(rest, m);
    before := front + [m];
    PermutedDelivers(before, rest);
    assert multiset(before + [x]) == multiset(rest + [x]);
    assert Delivered(before) <= Delivered(msgs);
    LastNewestWins(front, m);
    RunSnoc(EMPTY, before, x);
  }

  lemma IrrelevantOrdersAgree(msgs: seq<Msg>, a: seq<Msg>, b: seq<Msg>)
    requires OrderIrrelevant(msgs) && Permutation(a, msgs) && Permutation(b, msgs)
    ensures SameRecords(Reached(a), Reached(b))
  {
  }

  lemma IrrelevantHasUniqueNewest(msgs: seq<Msg>)
    requires OrderIrrelevant(msgs)
    ensures UniqueNewest(Delivered(msgs))
  {
    var ms := Delivered(msgs);
    forall x, y | Newest(ms, x) && Newest(ms, y) && TopicOf(x) == TopicOf(y) ensures x == y {
      var a := NewestLast(msgs, x);
      var b := NewestLast(msgs, y);
      IrrelevantOrdersAgree(msgs, a, b);
    }
  }

  lemma IrrelevantEventsAgree(msgs: seq<Msg>)
    requires OrderIrrelevant(msgs)
    ensures EventsAgree(Delivered(msgs))
  {
    var ms := Delivered(msgs);
    forall e, v | EventMsg(e) in ms && Newest(ms, VmMsg(v)) && v.uuid == e.uuid && e.ts >= v.ts ensures Restates(e, v) {
      var a := NewestLast(msgs, VmMsg(v));
      var before := NewestThen(msgs, VmMsg(v), EventMsg(e));
      IrrelevantOrdersAgree(msgs, a, before + [EventMsg(e)]);
    }
  }

  lemma IrrelevantMembersAgree(msgs: seq<Msg>)
    requires OrderIrrelevant(msgs)
    ensures MembersAgree(Delivered(msgs))
  {
    var ms := Delivered(msgs);
    forall h, c, i | MemberMsg(h, c) in ms && Newest(ms, HostMsg(i)) && i.uuid == h ensures c == i.cstate {
      var a := NewestLast(msgs, HostMsg(i));
      var before := NewestThen(msgs, HostMsg(i), MemberMsg(h, c));
      IrrelevantOrdersAgree(msgs, a, before + [MemberMsg(h, c)]);
    }
  }

  /** For any messages whatever, the order of delivery does not matter to the records if and only if
      no two different messages tie for newest, every event is older than its VM's newest information
      or agrees with it, and every member change agrees with its host's newest information. */
  lemma ConvergenceIff(msgs: seq<Msg>)
    ensures OrderIrrelevant(msgs) <==> Settled(Delivered(msgs))
  {
    if Settled(Delivered(msgs)) {
      forall a | Permutation(a, msgs) ensures SameRecords(Reached(a), Reached(msgs)) {
        PermutedDelivers(a, msgs);
        Convergence(a, msgs);
      }
    }
    if OrderIrrelevant(msgs) {
      IrrelevantHasUniqueNewest(msgs);
      IrrelevantEventsAgree(msgs);
      IrrelevantMembersAgree(msgs);
    }
  }

  lemma RunSnoc(s: State, msgs: seq<Msg>, m: Msg)
    ensures Run(s, msgs + [m]) == Apply(Run(s, msgs), m)
  {
    assert (msgs + [m])[..|msgs|] == msgs;
  }

  /** A stored timestamp lets every later event in, whichever came before. */
  lemma EventIsAccepted(s: State, e: VmEvent)
    requires e.uuid in s.vms && s.vms[e.uuid].ts <= e.ts && e.runstate != RUNSTATE_DELETED
    ensures var r := Apply(s, EventMsg(e));
      e.uuid in r.vms && r.vms[e.uuid].runstate == e.runstate && r.vms[e.uuid].ts == s.vms[e.uuid].ts
  {
  }

  lemma LastEventWins(v: VmInfo, e: VmEvent, f: VmEvent)
    requires v.uuid == e.uuid == f.uuid && v.ts <= e.ts && v.ts <= f.ts
    requires e.runstate != RUNSTATE_DELETED && f.runstate != RUNSTATE_DELETED
    ensures var r := Reached([] + [VmMsg(v)] + [EventMsg(e)] + [EventMsg(f)]);
      v.uuid in r.vms && r.vms[v.uuid].runstate == f.runstate
  {
    RunSnoc(EMPTY, [], VmMsg(v));
    RunSnoc(EMPTY, [] + [VmMsg(v)], EventMsg(e));
    RunSnoc(EMPTY, [] + [VmMsg(v)] + [EventMsg(e)], EventMsg(f));
    var s := Apply(EMPTY, VmMsg(v));
    EventIsAccepted(s, e);
    EventIsAccepted(Apply(s, EventMsg(e)), f);
  }

  /** A case that is not settled: an accepted event does not advance Ts, so of two disagreeing events
      with different timestamps the one delivered last wins. */
  lemma EventsDoNotConverge(v: VmInfo, e: VmEvent, f: VmEvent)
    requires v.uuid == e.uuid == f.uuid && v.ts <= e.ts && v.ts <= f.ts && e.runstate != f.runstate
    requires e.runstate != RUNSTATE_DELETED && f.runstate != RUNSTATE_DELETED
    ensures var a := [] + [VmMsg(v)] + [EventMsg(e)] + [EventMsg(f)];
      var b := [] + [VmMsg(v)] + [EventMsg(f)] + [EventMsg(e)];
      multiset(a) == multiset(b) && !SameRecords(Reached(a), Reached(b))
  {
    LastEventWins(v, e, f);
    LastEventWins(v, f, e);
  }
}

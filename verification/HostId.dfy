/** Finding a sanlock host id (pkg/lockman/lockman.go). */
module HostId {
  import opened GoTypes

  const HOST_ID_MAX := 2000
  const SANLK_HOSTID_BUSY := -262

  predicate Valid(id: int) { 1 <= id <= HOST_ID_MAX }

  /** host_id_next. */
  function Next(id: int): int { if id + 1 > HOST_ID_MAX then 1 else id + 1 }

  /** The k-th id in cyclic order from a start. */
  function Slot(start: int, k: nat): (id: int)
    ensures Valid(id)
  {
    (start - 1 + k) % HOST_ID_MAX + 1
  }

  lemma SlotNext(start: int, k: nat)
    requires Valid(start)
    ensures Slot(start, 0) == start && Slot(start, k + 1) == Next(Slot(start, k))
  {
  }

  /** 2000 consecutive slots are all the ids. */
  lemma SlotsCover(start: int, id: int) returns (k: nat)
    requires Valid(start) && Valid(id)
    ensures k < HOST_ID_MAX && Slot(start, k) == id
  {
    k := if id >= start then id - start else id - start + HOST_ID_MAX;
  }

  /** A line "<id> timestamp <ts>" of `sanlock client host_status`. */
  datatype HostStatus = HostStatus(id: int, ts: int)

  /** Some line gives this id a timestamp. */
  ghost predicate HostStatusBusy(lines: seq<HostStatus>, id: int) {
    exists l :: l in lines && l.ts != 0 && l.id == id
  }

  /** The busy table; None when an id overruns it, which panics. */
  method BusyTable(lines: seq<HostStatus>) returns (r: Option<array<bool>>)
    ensures r.Some? <==> forall l | l in lines && l.ts != 0 :: 0 <= l.id <= HOST_ID_MAX
    ensures r.Some? ==> fresh(r.value) && r.value.Length == HOST_ID_MAX + 1
    ensures r.Some? ==> forall id | 0 <= id <= HOST_ID_MAX :: (r.value[id] <==> HostStatusBusy(lines, id))
  {
    var busy := new bool[HOST_ID_MAX + 1](i => false);
    for i := 0 to |lines|
      invariant forall k | 0 <= k < i && lines[k].ts != 0 :: 0 <= lines[k].id <= HOST_ID_MAX && busy[lines[k].id]
      invariant forall id | 0 <= id <= HOST_ID_MAX && busy[id] ::
        exists k :: 0 <= k < i && lines[k].ts != 0 && lines[k].id == id
    {
      if lines[i].ts != 0 {
        if !(0 <= lines[i].id <= HOST_ID_MAX) {
          return None;
        }
        busy[lines[i].id] := true;
      }
    }
    r := Some(busy);
  }

  datatype Search = Joined(id: int) | AllBusy | Busy2 | Failed(id: int, code: int)

  /** The first search: the first id from `start` that the daemon does not see as busy. */
  method FirstFree(start: int, busy: array<bool>) returns (id: int, i: nat, ghost k: nat)
    requires Valid(start) && busy.Length == HOST_ID_MAX + 1
    ensures Valid(id) && i <= HOST_ID_MAX + 1
    ensures i > HOST_ID_MAX <==> forall j | Valid(j) :: busy[j]
    ensures i <= HOST_ID_MAX ==> !busy[id] && id == Slot(start, k) && forall j | 0 <= j < k :: busy[Slot(start, j)]
  {
    id, i, k := start, 0, 0;
    while i <= HOST_ID_MAX
      invariant i <= HOST_ID_MAX + 1 && Valid(id) && id == Slot(start, i)
      invariant forall j | 0 <= j < i :: busy[Slot(start, j)]
    {
      SlotNext(start, i);
      assert i == HOST_ID_MAX ==> id == Slot(start, 0);
      i := i + 1;
      if !busy[id] {
        k := i - 1;
        return;
      }
      id := Next(id);
    }
    forall j | Valid(j) ensures busy[j] {
      var m := SlotsCover(start, j);
    }
  }

  /** A probe that the second search passes over. */
  predicate Passed(busy: seq<bool>, join: (nat, int) -> int, first: int, j: nat)
    requires |busy| == HOST_ID_MAX + 1
  {
    busy[Slot(first, j)] || join(j, Slot(first, j)) == SANLK_HOSTID_BUSY
  }

  ghost predicate AnsweredBusy(join: (nat, int) -> int, id: int) {
    exists j: nat :: j <= HOST_ID_MAX && join(j, id) == SANLK_HOSTID_BUSY
  }

  /** The first id in cyclic order from `start` that is not busy. */
  ghost predicate IsFirstFree(start: int, busy: seq<bool>, first: int)
    requires |busy| == HOST_ID_MAX + 1
  {
    Valid(first) && !busy[first]
    && exists m: nat :: first == Slot(start, m) && forall j | 0 <= j < m :: busy[Slot(start, j)]
  }

  /** How many steps in cyclic order lead from `start` to an id. */
  function Steps(start: int, id: int): int { if id >= start then id - start else id - start + HOST_ID_MAX }

  lemma SlotAfterSteps(start: int, id: int)
    requires Valid(start) && Valid(id)
    ensures 0 <= Steps(start, id) < HOST_ID_MAX && Slot(start, Steps(start, id)) == id
  {
  }

  lemma StepsToSlot(start: int, k: nat)
    requires Valid(start) && k < HOST_ID_MAX
    ensures Steps(start, Slot(start, k)) == k
  {
  }

  lemma FirstIsNearest(start: int, busy: seq<bool>, first: int, id: int)
    requires Valid(start) && |busy| == HOST_ID_MAX + 1
    requires IsFirstFree(start, busy, first) && Valid(id) && !busy[id]
    ensures Steps(start, first) <= Steps(start, id)
  {
    var m: nat :| first == Slot(start, m) && forall j | 0 <= j < m :: busy[Slot(start, j)];
    SlotAfterSteps(start, first);
    SlotAfterSteps(start, id);
    if m < HOST_ID_MAX { StepsToSlot(start, m); }
  }

  lemma NearestIsFirst(start: int, busy: seq<bool>, first: int)
    requires Valid(start) && |busy| == HOST_ID_MAX + 1 && Valid(first) && !busy[first]
    requires forall id | Valid(id) && !busy[id] :: Steps(start, first) <= Steps(start, id)
    ensures IsFirstFree(start, busy, first)
  {
    SlotAfterSteps(start, first);
    forall j | 0 <= j < Steps(start, first) ensures busy[Slot(start, j)] {
      StepsToSlot(start, j);
    }
  }

  /** first is met before id on the way up from `start`, and then from 1. */
  predicate Before(start: int, first: int, id: int) {
    if first >= start then id < start || first <= id else first <= id < start
  }

  /** That is the least free id from `start` on, or, if all of those are busy, the least of all. */
  lemma FirstFreeIff(start: int, busy: seq<bool>, first: int)
    requires Valid(start) && |busy| == HOST_ID_MAX + 1
    ensures IsFirstFree(start, busy, first) <==>
      (Valid(first) && !busy[first] && forall id | Valid(id) && !busy[id] :: Before(start, first, id))
  {
    if IsFirstFree(start, busy, first) {
      forall id | Valid(id) && !busy[id] ensures Before(start, first, id) {
        FirstIsNearest(start, busy, first, id);
      }
    }
    if Valid(first) && !busy[first] && forall id | Valid(id) && !busy[id] :: Before(start, first, id) {
      NearestIsFirst(start, busy, first);
    }
  }

  /**
   lm_search_join_lockspace, from its start slot and busy table; join(j, id) is
   what sanlock answers to the j-th probe.  `first` is where the second search
   starts and `k` the probe that decides it.
   */
  method SearchJoin(start: int, busy: array<bool>, join: (nat, int) -> int)
    returns (r: Search, ghost first: int, ghost k: nat)
    requires Valid(start) && busy.Length == HOST_ID_MAX + 1
    ensures r.AllBusy? <==> forall j | Valid(j) :: busy[j]
    ensures !r.AllBusy? ==> IsFirstFree(start, busy[..], first)
    ensures !r.AllBusy? ==> forall j | 0 <= j < k :: Passed(busy[..], join, first, j)
    ensures r.Joined? || r.Failed? ==> r.id == Slot(first, k) && Valid(r.id) && !busy[r.id]
    ensures r.Joined? ==> join(k, r.id) == 0
    ensures r.Failed? ==> r.code == join(k, r.id) && r.code != 0 && r.code != SANLK_HOSTID_BUSY
    ensures r.Busy2? <==> !r.AllBusy? && forall j | 0 <= j <= HOST_ID_MAX :: Passed(busy[..], join, first, j)
    ensures r.Busy2? ==> forall id | Valid(id) && !busy[id] :: AnsweredBusy(join, id)
  {
    var id, i, m := FirstFree(start, busy);
    first, k := id, 0;
    if i > HOST_ID_MAX {
      return AllBusy, first, k;
    }
    i := 0;
    while i <= HOST_ID_MAX
      invariant i <= HOST_ID_MAX + 1 && Valid(id) && id == Slot(first, i)
      invariant forall j | 0 <= j < i :: Passed(busy[..], join, first, j)
    {
      SlotNext(first, i);
      k := i;
      i := i + 1;
      if busy[id] {
        id := Next(id);
        continue;
      }
      var code := join(i - 1, id);
      assert Passed(busy[..], join, first, i - 1) <==> code == SANLK_HOSTID_BUSY;
      if code == 0 {
        return Joined(id), first, k;
      } else if code != SANLK_HOSTID_BUSY {
        return Failed(id, code), first, k;
      }
      id := Next(id);
    }
    k := i;
    forall j | Valid(j) && !busy[j] ensures AnsweredBusy(join, j) {
      var t := SlotsCover(first, j);
      assert Passed(busy[..], join, first, t);
    }
    r := Busy2;
  }
}

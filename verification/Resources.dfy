/** Wrapping counters and host resource accounting (pkg/hypervisor/counter.go, systeminfo.go). */
module Resources {
  import opened GoTypes

  const MAX_UINT64: int := TWO64 - 1
  const MAX_INT64: int := TWO64 / 2 - 1
  const MIN_INT64: int := -(TWO64 / 2)

  type uint64 = x: int | 0 <= x < TWO64
  type int64 = x: int | MIN_INT64 <= x <= MAX_INT64
  type int32 = x: int | -(TWO32 / 2) <= x < TWO32 / 2

  // ----------------------------------------------------------------- counters

  function CounterDeltaUint64(c1: uint64, c0: uint64): (r: uint64) {
    if c1 >= c0 then c1 - c0 else MAX_UINT64 - c0 + c1 + 1
  }

  /** Every operation wraps, as Go's int64 does. */
  function CounterDeltaInt64(c1: int64, c0: int64): (r: int64) {
    if c1 >= c0 then Int64(c1 - c0) else Int64(Int64(Int64(MAX_INT64 - c0) + Int64(c1 - MIN_INT64)) + 1)
  }

  lemma Int32Off(x: int) returns (k: int)
    ensures Int32(x) == x + k * TWO32
  {
    k := WrapOff(x, TWO32);
  }

  lemma Int64Off(x: int) returns (k: int)
    ensures Int64(x) == x + k * TWO64
  {
    k := WrapOff(x, TWO64);
  }

  lemma Int32Is(x: int, y: int32, k: int)
    requires y == x + k * TWO32
    ensures Int32(x) == y
  {
    WrapIs(x, TWO32, y, k);
  }

  lemma Int64Is(x: int, y: int64, k: int)
    requires y == x + k * TWO64
    ensures Int64(x) == y
  {
    WrapIs(x, TWO64, y, k);
  }

  lemma Uint64Off(x: int) returns (k: int)
    ensures Uint64(x) == x + k * TWO64
  {
    k := -(x / TWO64);
  }

  lemma Uint64Is(x: int, y: uint64, k: int)
    requires y == x + k * TWO64
    ensures Uint64(x) == y
  {
    var j := Uint64Off(x);
  }

  lemma DeltaUint64(c1: uint64, c0: uint64)
    ensures CounterDeltaUint64(c1, c0) == Uint64(c1 - c0)
  {
  }

  /** The signed difference is the unsigned one, wrapped. */
  lemma DeltaInt64(c1: int64, c0: int64)
    ensures CounterDeltaInt64(c1, c0) == Int64(c1 - c0)
  {
    if c1 < c0 {
      var a := Int64Off(MAX_INT64 - c0);
      var b := Int64Off(c1 - MIN_INT64);
      var sum := Int64(MAX_INT64 - c0) + Int64(c1 - MIN_INT64);
      assert sum == c1 - c0 - 1 + (a + b + 1) * TWO64;
      var c := Int64Off(sum);
      assert Int64(sum) + 1 == c1 - c0 + (a + b + c + 1) * TWO64;
      var d := Int64Off(Int64(sum) + 1);
      Int64Is(c1 - c0, CounterDeltaInt64(c1, c0), a + b + c + d + 1);
    }
  }

  /** The sum of all the deltas along a run of samples. */
  function SumDeltas(samples: seq<uint64>): int {
    if |samples| <= 1 then 0
    else
      var n := |samples|;
      SumDeltas(samples[..n - 1]) + CounterDeltaUint64(samples[n - 1], samples[n - 2])
  }

  /** Summed deltas are last minus first, modulo the counter's width. */
  lemma {:induction false} DeltasTelescope(samples: seq<uint64>)
    requires samples != []
    ensures Uint64(SumDeltas(samples)) == Uint64(samples[|samples| - 1] as int - samples[0] as int)
  {
    if |samples| > 1 {
      var n := |samples|;
      DeltasTelescope(samples[..n - 1]);
      var a := Uint64Off(SumDeltas(samples[..n - 1]));
      var b := Uint64Off(samples[n - 2] as int - samples[0] as int);
      var c := Uint64Off(samples[n - 1] as int - samples[n - 2] as int);
      var d := Uint64Off(samples[n - 1] as int - samples[0] as int);
      DeltaUint64(samples[n - 1], samples[n - 2]);
      Uint64Is(SumDeltas(samples), Uint64(samples[n - 1] as int - samples[0] as int), a - b - c + d);
    }
  }

  /** What a 64-bit counter shows of a quantity that only grows. */
  ghost predicate Shows(samples: seq<uint64>, truth: seq<nat>) {
    && |samples| == |truth|
    && (forall i | 0 <= i < |truth| :: samples[i] == Uint64(truth[i]))
    && forall i | 0 < i < |truth| :: truth[i - 1] <= truth[i] < truth[i - 1] + TWO64
  }

  /** However often the counter wraps in all, the deltas add up to the true growth as long as it wraps
      at most once between two samples. */
  lemma {:induction false} DeltasAddUpToGrowth(samples: seq<uint64>, truth: seq<nat>)
    requires samples != [] && Shows(samples, truth)
    ensures SumDeltas(samples) + truth[0] == truth[|truth| - 1]
  {
    if |samples| > 1 {
      var n := |samples|;
      assert Shows(samples[..n - 1], truth[..n - 1]);
      DeltasAddUpToGrowth(samples[..n - 1], truth[..n - 1]);
      DeltaUint64(samples[n - 1], samples[n - 2]);
      GrowthOf(truth[n - 1], truth[n - 2]);
    }
  }

  lemma GrowthOf(t1: nat, t0: nat)
    requires t0 <= t1 < t0 + TWO64
    ensures Uint64(Uint64(t1) - Uint64(t0)) == t1 - t0
  {
  }

  // ------------------------------------------------------------------- totals

  /** What the accumulation loop looks at; `ok` is false when libvirt reported an error. */
  datatype Dom = Dom(uuid: string, ok: bool, hp: bool, capacity: nat, used: nat)

  datatype Totals = Totals(hpCapacity: uint64, memoryCapacity: uint64, memoryUsed: uint64)

  type Amount = Dom -> nat

  const HpCapacity: Amount := (d: Dom) => if d.hp then d.capacity else 0
  const MemoryCapacity: Amount := (d: Dom) => if d.hp then 0 else d.capacity
  const MemoryUsed: Amount := (d: Dom) => d.used

  /** The sum over a map of VMs, in any order. */
  ghost function SumOf(m: map<string, Dom>, f: Amount): nat {
    if m == map[] then 0
    else
      var k :| k in m;
      f(m[k]) + SumOf(m - {k}, f)
  }

  lemma {:induction false} SumWithout(m: map<string, Dom>, f: Amount, k: string)
    requires k in m
    ensures SumOf(m, f) == f(m[k]) + SumOf(m - {k}, f)
  {
    var j :| j in m && SumOf(m, f) == f(m[j]) + SumOf(m - {j}, f);
    if j != k {
      SumWithout(m - {j}, f, k);
      SumWithout(m - {k}, f, j);
      assert m - {j} - {k} == m - {k} - {j};
    }
  }

  lemma SumAdds(m: map<string, Dom>, f: Amount, d: Dom)
    requires d.uuid !in m
    ensures SumOf(m[d.uuid := d], f) == SumOf(m, f) + f(d)
  {
    SumWithout(m[d.uuid := d], f, d.uuid);
    assert m[d.uuid := d] - {d.uuid} == m;
  }

  lemma {:induction false} SumsAdd(m: map<string, Dom>, f: Amount, g: Amount, h: Amount)
    requires forall u | u in m :: f(m[u]) + g(m[u]) == h(m[u])
    ensures SumOf(m, f) + SumOf(m, g) == SumOf(m, h)
  {
    if m != map[] {
      var u :| u in m;
      SumWithout(m, f, u);
      SumWithout(m, g, u);
      SumWithout(m, h, u);
      SumsAdd(m - {u}, f, g, h);
    }
  }

  lemma {:induction false} SumOfNothing(m: map<string, Dom>, f: Amount)
    requires forall u | u in m :: f(m[u]) == 0
    ensures SumOf(m, f) == 0
  {
    if m != map[] {
      var u :| u in m;
      SumWithout(m, f, u);
      SumOfNothing(m - {u}, f);
    }
  }

  /** Every VM's capacity counts once: as hugepages if it uses them, and else as normal memory. */
  lemma CapacityIsDivided(m: map<string, Dom>, capacity: Amount)
    requires forall d :: capacity(d) == d.capacity
    ensures SumOf(m, HpCapacity) + SumOf(m, MemoryCapacity) == SumOf(m, capacity)
    ensures (forall u | u in m :: m[u].hp) ==> SumOf(m, HpCapacity) == SumOf(m, capacity)
    ensures (forall u | u in m :: !m[u].hp) ==> SumOf(m, MemoryCapacity) == SumOf(m, capacity)
  {
    SumsAdd(m, HpCapacity, MemoryCapacity, capacity);
    if forall u | u in m :: m[u].hp { SumOfNothing(m, MemoryCapacity); }
    if forall u | u in m :: !m[u].hp { SumOfNothing(m, HpCapacity); }
  }

  /** The map that the loop builds: the domains libvirt could describe. */
  function Described(doms: seq<Dom>): map<string, Dom> {
    if doms == [] then map[]
    else
      var d := doms[|doms| - 1];
      if d.ok then Described(doms[..|doms| - 1])[d.uuid := d] else Described(doms[..|doms| - 1])
  }

  ghost predicate Distinct(doms: seq<Dom>) { forall i, j | 0 <= i < j < |doms| :: doms[i].uuid != doms[j].uuid }

  lemma {:induction false} DescribedNames(doms: seq<Dom>, u: string)
    requires u in Described(doms)
    ensures exists i :: 0 <= i < |doms| && doms[i].uuid == u
  {
    if doms[|doms| - 1].uuid != u {
      DescribedNames(doms[..|doms| - 1], u);
    }
  }

  /** Under different uuids, it holds exactly the domains that libvirt could describe. */
  lemma {:induction false} DescribedMeans(doms: seq<Dom>, u: string, d: Dom)
    requires Distinct(doms)
    ensures u in Described(doms) && Described(doms)[u] == d <==> d in doms && d.ok && d.uuid == u
  {
    if doms != [] {
      var front, last := doms[..|doms| - 1], doms[|doms| - 1];
      DescribedMeans(front, u, d);
      assert doms == front + [last];
      if last.uuid == u && u in Described(front) {
        DescribedNames(front, u);
      }
    }
  }

  /** A uint64 accumulator holds the sum over the VMs. */
  ghost predicate Holds(x: uint64, m: map<string, Dom>, f: Amount) { x == Uint64(SumOf(m, f)) }

  lemma HoldsAdd(x: uint64, m: map<string, Dom>, f: Amount, d: Dom)
    requires Holds(x, m, f) && d.uuid !in m
    ensures Holds(Uint64(x + f(d)), m[d.uuid := d], f)
  {
    SumAdds(m, f, d);
    WrapSum(SumOf(m, f), f(d));
  }

  lemma WrapSum(a: int, b: int)
    ensures Uint64(Uint64(a) + b) == Uint64(a + b)
  {
  }

  ghost predicate TotalsAre(t: Totals, m: map<string, Dom>) {
    && Holds(t.hpCapacity, m, HpCapacity) && Holds(t.memoryCapacity, m, MemoryCapacity)
    && Holds(t.memoryUsed, m, MemoryUsed)
  }

  lemma TotalsAdd(t: Totals, m: map<string, Dom>, d: Dom, hp: uint64, mem: uint64, used: uint64)
    requires TotalsAre(t, m) && d.uuid !in m
    requires if d.hp then hp == Uint64(t.hpCapacity + d.capacity) && mem == t.memoryCapacity
             else hp == t.hpCapacity && mem == Uint64(t.memoryCapacity + d.capacity)
    requires used == Uint64(t.memoryUsed + d.used)
    ensures TotalsAre(Totals(hp, mem, used), m[d.uuid := d])
  {
    HoldsAdd(t.hpCapacity, m, HpCapacity, d);
    HoldsAdd(t.memoryCapacity, m, MemoryCapacity, d);
    HoldsAdd(t.memoryUsed, m, MemoryUsed, d);
  }

  /** The accumulation loop of system_info_get: the totals are sums over the VM map it returns. */
  method Accumulate(doms: seq<Dom>) returns (t: Totals, vms: map<string, Dom>)
    ensures vms == Described(doms)
    ensures Distinct(doms) ==> TotalsAre(t, vms)
  {
    t, vms := Totals(0, 0, 0), map[];
    for i := 0 to |doms|
      invariant vms == Described(doms[..i])
      invariant Distinct(doms) ==> TotalsAre(t, vms)
    {
      var d := doms[i];
      assert doms[..i + 1][..i] == doms[..i];
      if !d.ok {
        continue;
      }
      ghost var before, named := t, d.uuid in vms;
      if named {
        DescribedNames(doms[..i], d.uuid);
      }
      var hp, mem, used := t.hpCapacity, t.memoryCapacity, Uint64(t.memoryUsed + d.used);
      if d.hp {
        hp := Uint64(hp + d.capacity);
      } else {
        mem := Uint64(mem + d.capacity);
      }
      if Distinct(doms) {
        TotalsAdd(before, vms, d, hp, mem, used);
      }
      t := Totals(hp, mem, used);
      vms := vms[d.uuid := d];
    }
    assert doms[..|doms|] == doms;
  }

  // ---------------------------------------------------------------- resources

  datatype Pool = Pool(total: int32, free: int32, used: int32, reservedvms: int32, usedvms: int32, usedos: int32,
                       availablevms: int32)

  /** The derived fields of a pool of pages, in int32. */
  function PoolOf(total: int32, free: int32, reserved: uint64, usedByVms: uint64): Pool {
    var used: int32 := Int32(total - free);
    var reservedvms: int32, usedvms: int32 := Int32(reserved), Int32(usedByVms);
    var usedos: int32 := Int32(used - usedvms);
    Pool(total, free, used, reservedvms, usedvms, usedos, Int32(Int32(total - reservedvms) - usedos))
  }

  lemma AvailableIs(total: int32, free: int32, reserved: uint64, usedByVms: uint64, y: int32, k: int)
    requires y == free + Int32(usedByVms) - Int32(reserved) + k * TWO32
    ensures PoolOf(total, free, reserved, usedByVms).availablevms == y
  {
    var p := PoolOf(total, free, reserved, usedByVms);
    var a := Int32Off(total - free);
    var b := Int32Off(p.used - p.usedvms);
    var c := Int32Off(total - p.reservedvms);
    assert p.usedos == total - free - p.usedvms + (a + b) * TWO32;
    assert Int32(total - p.reservedvms) - p.usedos == free + p.usedvms - p.reservedvms + (c - a - b) * TWO32;
    Int32Is(Int32(total - p.reservedvms) - p.usedos, y, k - c + a + b);
  }

  /** All capacity of hugepage VMs is in use, so what they can still get is what is free. */
  lemma HugepagesAvailableAreFree(total: int32, free: int32, t: Totals)
    ensures PoolOf(total, free, t.hpCapacity, t.hpCapacity).availablevms == free
  {
    AvailableIs(total, free, t.hpCapacity, t.hpCapacity, free, 0);
  }

  /** For normal memory, what is free, plus what VMs use of their reservations, minus those. */
  lemma MemoryAvailable(total: int32, free: int32, t: Totals)
    ensures var p := PoolOf(total, free, t.memoryCapacity, t.memoryUsed);
      p.availablevms == Int32(p.free + p.usedvms - p.reservedvms)
  {
    var p := PoolOf(total, free, t.memoryCapacity, t.memoryUsed);
    var k := Int32Off(p.free + p.usedvms - p.reservedvms);
    AvailableIs(total, free, t.memoryCapacity, t.memoryUsed, Int32(p.free + p.usedvms - p.reservedvms), k);
  }

  /** Nothing is counted twice or lost: OS, VMs and free pages make up the total. */
  lemma PoolIsConserved(total: int32, free: int32, reserved: uint64, usedByVms: uint64)
    ensures var p := PoolOf(total, free, reserved, usedByVms);
      Int32(p.usedos + p.usedvms + p.free) == p.total
  {
    var p := PoolOf(total, free, reserved, usedByVms);
    var a := Int32Off(total - free);
    var b := Int32Off(p.used - p.usedvms);
    Int32Is(p.usedos + p.usedvms + p.free, total, -a - b);
  }
}

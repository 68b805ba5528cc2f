/** The names and numbers To_xml hands out never conflict. */
module DomainNames {
  import opened GoTypes
  import opened Vmdef
  import opened DomainXml
  import opened VmdefLaws

  // ------------------------------------------------ what "no conflict" means

  /** The iothread that serves a disk, directly or through its controller. */
  function ThreadOf(x: DiskXml, controllers: seq<Controller>): Option<nat> {
    if x.iothread.Some? then x.iothread
    else if x.controller.Some? && x.controller.value < |controllers| then controllers[x.controller.value].iothread
    else None
  }

  ghost predicate DistinctTargets(xs: seq<DiskXml>) {
    && (forall i | 0 <= i < |xs| :: xs[i].target.Some? && xs[i].target.value.letter < 26)
    && (forall i, j | 0 <= i < j < |xs| :: (xs[i].target.value.prefix, xs[i].target.value.letter)
                                        != (xs[j].target.value.prefix, xs[j].target.value.letter))
  }

  ghost predicate DistinctAliases(xs: seq<DiskXml>) {
    && (forall i | 0 <= i < |xs| :: xs[i].alias.Some?)
    && (forall i, j | 0 <= i < j < |xs| :: xs[i].alias != xs[j].alias)
  }

  /** Controllers are numbered by position, so (type, index) pairs are unique. */
  ghost predicate NumberedControllers(cs: seq<Controller>) {
    forall k | 0 <= k < |cs| :: cs[k].ctrl == "scsi" && cs[k].index == k
  }

  /** A scsi disk sits alone on a controller of its own model, apart from cloud-init's. */
  ghost predicate ScsiWired(ds: seq<Disk>, xs: seq<DiskXml>, cs: seq<Controller>)
    requires |ds| == |xs|
  {
    && (forall i | 0 <= i < |ds| :: xs[i].controller.Some? <==> CtrlOf(ds[i].bus) == Scsi)
    && (forall i | 0 <= i < |ds| && xs[i].controller.Some? ::
          0 < xs[i].controller.value < |cs| && cs[xs[i].controller.value].model == CtrlModel(ds[i].bus))
    && (forall i, j | 0 <= i < j < |ds| && xs[i].controller.Some? :: xs[i].controller != xs[j].controller)
  }

  /** Iothreads 1..n serve one disk each. */
  ghost predicate ThreadsAssigned(ds: seq<Disk>, xs: seq<DiskXml>, cs: seq<Controller>, n: nat)
    requires |ds| == |xs|
  {
    && (forall i | 0 <= i < |ds| :: ThreadOf(xs[i], cs).Some? <==> UsesIothread(ds[i].bus))
    && (forall i | 0 <= i < |ds| && ThreadOf(xs[i], cs).Some? :: 1 <= ThreadOf(xs[i], cs).value <= n)
    && (forall i, j | 0 <= i < j < |ds| && ThreadOf(xs[i], cs).Some? :: ThreadOf(xs[i], cs) != ThreadOf(xs[j], cs))
  }

  /** Boot orders count 1, 2, ... over the primary disk and then the cdroms, without gaps. */
  ghost predicate BootOrdered(ds: seq<Disk>, xs: seq<DiskXml>, k: nat)
    requires |ds| == |xs|
  {
    && (forall i | 0 <= i < |ds| :: xs[i].bootOrder.Some? <==> i == 0 || ds[i].device == DEVICE_CDROM)
    && (forall i | 0 <= i < |ds| && xs[i].bootOrder.Some? :: 1 <= xs[i].bootOrder.value <= k)
    && (forall i, j | 0 <= i < j < |ds| && xs[i].bootOrder.Some? && xs[j].bootOrder.Some? ::
          xs[i].bootOrder.value < xs[j].bootOrder.value)
    && (forall t | 1 <= t <= k :: exists i :: 0 <= i < |ds| && xs[i].bootOrder == Some(t))
  }

  // ------------------------------------------------------------- closed forms

  /** How many of the disks use controller type c. */
  function Of(c: Ctrl, ds: seq<Disk>): (r: nat)
    ensures r <= |ds|
  {
    if ds == [] then 0 else Of(c, Front(ds)) + if CtrlOf(Last(ds).bus) == c then 1 else 0
  }

  /** How many of the disks use an iothread. */
  function Threads(ds: seq<Disk>): (r: nat)
    ensures r <= |ds|
  {
    if ds == [] then 0 else Threads(Front(ds)) + if UsesIothread(Last(ds).bus) then 1 else 0
  }

  lemma {:induction false} OfBoth(ds: seq<Disk>)
    ensures Of(Scsi, ds) + Of(Sata, ds) <= |ds|
  {
    if ds != [] { OfBoth(Front(ds)); }
  }

  lemma {:induction false} OfGrows(c: Ctrl, ds: seq<Disk>, i: nat, j: nat)
    requires i < j <= |ds|
    ensures Of(c, ds[..i]) + (if CtrlOf(ds[i].bus) == c then 1 else 0) <= Of(c, ds[..j])
    decreases j
  {
    assert Front(ds[..j]) == ds[..j - 1] && Last(ds[..j]) == ds[j - 1];
    if i < j - 1 { OfGrows(c, ds, i, j - 1); }
  }

  lemma {:induction false} ThreadsGrow(ds: seq<Disk>, i: nat, j: nat)
    requires i < j <= |ds|
    ensures Threads(ds[..i]) + (if UsesIothread(ds[i].bus) then 1 else 0) <= Threads(ds[..j])
    decreases j
  {
    assert Front(ds[..j]) == ds[..j - 1] && Last(ds[..j]) == ds[j - 1];
    if i < j - 1 { ThreadsGrow(ds, i, j - 1); }
  }

  lemma {:induction false} OrderGrows(ds: seq<Disk>, i: nat, j: nat)
    requires i < j <= |ds|
    ensures BootOrderAfter(ds[..i]) + (if i == 0 || ds[i].device == DEVICE_CDROM then 1 else 0)
         <= BootOrderAfter(ds[..j])
    decreases j
  {
    assert Front(ds[..j]) == ds[..j - 1] && Last(ds[..j]) == ds[j - 1];
    if i < j - 1 { OrderGrows(ds, i, j - 1); } else if i == 0 { assert ds[..0] == []; }
  }

  /** The counters after the disk loop. */
  ghost predicate Counted(e: Emitted, ds: seq<Disk>) {
    && Count(e, Scsi) == 1 + Of(Scsi, ds) && Count(e, Sata) == Of(Sata, ds) && Count(e, Virtio) == Of(Virtio, ds)
    && e.iothreads == Threads(ds) && |e.disks| == |ds| && |e.controllers| == 1 + Of(Scsi, ds)
  }

  lemma CountedStep(n: Naming, e: Emitted, ds: seq<Disk>, lease: bool, order: int)
    requires ds != [] && Counted(e, Front(ds))
    ensures Counted(EmitDisk(n, e, Last(ds), lease, order), ds)
  {
  }

  lemma EmitSnoc(n: Naming, ds: seq<Disk>)
    requires ds != []
    ensures EmitDisks(n, ds) == EmitDisk(n, EmitDisks(n, Front(ds)), Last(ds), Last(ds).man != DISK_UNMANAGED,
                                         OrderOf(Front(ds), Last(ds)))
  {
  }

  lemma {:induction false} Counters(n: Naming, ds: seq<Disk>)
    ensures Counted(EmitDisks(n, ds), ds)
  {
    if ds != [] {
      Counters(n, Front(ds));
      EmitSnoc(n, ds);
      CountedStep(n, EmitDisks(n, Front(ds)), ds, Last(ds).man != DISK_UNMANAGED, OrderOf(Front(ds), Last(ds)));
    }
  }

  ghost predicate DiskAt(e: Emitted, i: nat, x: DiskXml) { i < |e.disks| && e.disks[i] == x }

  ghost predicate ControllerAt(e: Emitted, k: nat, c: Controller) { k < |e.controllers| && e.controllers[k] == c }

  lemma EmitKeeps(n: Naming, e: Emitted, d: Disk, lease: bool, order: int, i: nat, x: DiskXml, k: nat, c: Controller)
    ensures DiskAt(e, i, x) ==> DiskAt(EmitDisk(n, e, d, lease, order), i, x)
    ensures ControllerAt(e, k, c) ==> ControllerAt(EmitDisk(n, e, d, lease, order), k, c)
  {
  }

  lemma EmitAdds(n: Naming, e: Emitted, d: Disk, lease: bool, order: int)
    ensures DiskAt(EmitDisk(n, e, d, lease, order), |e.disks|, DiskElement(d, n.driver(d.path), e, order))
    ensures CtrlOf(d.bus) == Scsi ==>
      ControllerAt(EmitDisk(n, e, d, lease, order), |e.controllers|, ControllerElement(d, e))
  {
  }

  /** The i-th <disk>: made from the counters after the first i disks. */
  ghost function ElementAt(n: Naming, ds: seq<Disk>, i: nat): DiskXml
    requires i < |ds|
  {
    DiskElement(ds[i], n.driver(ds[i].path), EmitDisks(n, ds[..i]), OrderOf(ds[..i], ds[i]))
  }

  lemma ElementOfFront(n: Naming, ds: seq<Disk>, i: nat)
    requires i < |ds| - 1
    ensures ElementAt(n, ds, i) == ElementAt(n, Front(ds), i)
  {
    assert Front(ds)[..i] == ds[..i];
  }

  lemma {:induction false} DiskIs(n: Naming, ds: seq<Disk>, i: nat)
    requires i < |ds|
    ensures DiskAt(EmitDisks(n, ds), i, ElementAt(n, ds, i))
  {
    var e, d, o := EmitDisks(n, Front(ds)), Last(ds), OrderOf(Front(ds), Last(ds));
    EmitSnoc(n, ds);
    if i == |ds| - 1 {
      Counters(n, Front(ds));
      EmitAdds(n, e, d, d.man != DISK_UNMANAGED, o);
    } else {
      DiskIs(n, Front(ds), i);
      EmitKeeps(n, e, d, d.man != DISK_UNMANAGED, o, i, ElementAt(n, Front(ds), i), 0, CLOUD_INIT_CONTROLLER);
      ElementOfFront(n, ds, i);
    }
  }

  /** The controller made for the i-th disk, if that is a scsi disk, and its number. */
  ghost function ControllerFor(n: Naming, ds: seq<Disk>, i: nat): Controller
    requires i < |ds|
  {
    ControllerElement(ds[i], EmitDisks(n, ds[..i]))
  }

  ghost function ControllerNumber(ds: seq<Disk>, i: nat): nat
    requires i <= |ds|
  {
    1 + Of(Scsi, ds[..i])
  }

  lemma ControllerOfFront(n: Naming, ds: seq<Disk>, i: nat)
    requires i < |ds| - 1
    ensures ControllerFor(n, ds, i) == ControllerFor(n, Front(ds), i)
    ensures ControllerNumber(ds, i) == ControllerNumber(Front(ds), i)
  {
    assert Front(ds)[..i] == ds[..i];
  }

  lemma LastController(n: Naming, ds: seq<Disk>)
    requires ds != [] && CtrlOf(Last(ds).bus) == Scsi
    ensures ControllerAt(EmitDisks(n, ds), ControllerNumber(ds, |ds| - 1), ControllerFor(n, ds, |ds| - 1))
  {
    var d := Last(ds);
    EmitSnoc(n, ds);
    Counters(n, Front(ds));
    EmitAdds(n, EmitDisks(n, Front(ds)), d, d.man != DISK_UNMANAGED, OrderOf(Front(ds), d));
  }

  lemma {:induction false} ControllerIs(n: Naming, ds: seq<Disk>, i: nat)
    requires i < |ds| && CtrlOf(ds[i].bus) == Scsi
    ensures ControllerAt(EmitDisks(n, ds), ControllerNumber(ds, i), ControllerFor(n, ds, i))
  {
    if i == |ds| - 1 {
      LastController(n, ds);
    } else {
      var d := Last(ds);
      EmitSnoc(n, ds);
      ControllerIs(n, Front(ds), i);
      ControllerOfFront(n, ds, i);
      EmitKeeps(n, EmitDisks(n, Front(ds)), d, d.man != DISK_UNMANAGED, OrderOf(Front(ds), d), 0, ElementAt(n, ds, 0),
                ControllerNumber(ds, i), ControllerFor(n, ds, i));
    }
  }

  /** The number a disk's alias carries. */
  ghost function NumberOf(ds: seq<Disk>, i: nat): nat
    requires i < |ds|
  {
    Of(CtrlOf(ds[i].bus), ds[..i]) + if CtrlOf(ds[i].bus) == Scsi then 1 else 0
  }

  lemma TargetIs(n: Naming, ds: seq<Disk>, i: nat)
    requires i < |ds| && EnumsValid(ds[i])
    ensures var c := CtrlOf(ds[i].bus);
      ElementAt(n, ds, i).target
      == Some(if c == Virtio then Target("vd", Of(Virtio, ds[..i]), c.Name())
              else Target("sd", 1 + Of(Scsi, ds[..i]) + Of(Sata, ds[..i]), c.Name()))
  {
    Counters(n, ds[..i]);
  }

  lemma AliasIs(n: Naming, ds: seq<Disk>, i: nat)
    requires i < |ds| && EnumsValid(ds[i])
    ensures ElementAt(n, ds, i).alias == Some(Alias(ds[i], NumberOf(ds, i)))
  {
    Counters(n, ds[..i]);
  }

  lemma SlotIs(n: Naming, ds: seq<Disk>, i: nat)
    requires i < |ds| && EnumsValid(ds[i])
    ensures var x, c := ElementAt(n, ds, i), CtrlOf(ds[i].bus);
      && x.controller == (if c == Scsi then Some(1 + Of(Scsi, ds[..i])) else None)
      && x.iothread == (if c == Virtio then Some(Threads(ds[..i]) + 1) else None)
      && x.bootOrder == if i == 0 || ds[i].device == DEVICE_CDROM then Some(BootOrderAfter(ds[..i])) else None
  {
    Counters(n, ds[..i]);
  }

  lemma ThreadIs(n: Naming, ds: seq<Disk>, i: nat)
    requires i < |ds| && EnumsValid(ds[i])
    ensures ThreadOf(ElementAt(n, ds, i), EmitDisks(n, ds).controllers)
         == if UsesIothread(ds[i].bus) then Some(Threads(ds[..i]) + 1) else None
  {
    SlotIs(n, ds, i);
    if CtrlOf(ds[i].bus) == Scsi {
      ControllerIs(n, ds, i);
      ThreadThrough(ElementAt(n, ds, i), EmitDisks(n, ds).controllers,
                    ControllerNumber(ds, i), ControllerFor(n, ds, i));
      ScsiThread(n, ds, i);
    }
  }

  lemma ThreadThrough(x: DiskXml, cs: seq<Controller>, k: nat, c: Controller)
    requires x.iothread == None && x.controller == Some(k) && k < |cs| && cs[k] == c
    ensures ThreadOf(x, cs) == c.iothread
  {
  }

  lemma ScsiThread(n: Naming, ds: seq<Disk>, i: nat)
    requires i < |ds| && CtrlOf(ds[i].bus) == Scsi
    ensures ControllerElement(ds[i], EmitDisks(n, ds[..i])).iothread
         == if UsesIothread(ds[i].bus) then Some(Threads(ds[..i]) + 1) else None
  {
    Counters(n, ds[..i]);
  }

  /** All elements of the disk list at once. */
  lemma Elements(n: Naming, ds: seq<Disk>)
    ensures |EmitDisks(n, ds).disks| == |ds|
    ensures forall i | 0 <= i < |ds| :: EmitDisks(n, ds).disks[i] == ElementAt(n, ds, i)
  {
    Counters(n, ds);
    forall i | 0 <= i < |ds| ensures EmitDisks(n, ds).disks[i] == ElementAt(n, ds, i) {
      DiskIs(n, ds, i);
    }
  }

  // ------------------------------------------------------------------ theorems

  lemma TargetsDiffer(n: Naming, ds: seq<Disk>, i: nat, j: nat)
    requires i < j < |ds| && EnumsValid(ds[i]) && EnumsValid(ds[j])
    requires ElementAt(n, ds, i).target.Some? && ElementAt(n, ds, j).target.Some?
    ensures var t, u := ElementAt(n, ds, i).target.value, ElementAt(n, ds, j).target.value;
      (t.prefix, t.letter) != (u.prefix, u.letter)
  {
    TargetIs(n, ds, i);
    TargetIs(n, ds, j);
    OfGrows(Scsi, ds, i, j);
    OfGrows(Sata, ds, i, j);
    OfGrows(Virtio, ds, i, j);
    assert "vd"[0] != "sd"[0];
  }

  lemma TargetsAreDistinct(n: Naming, ds: seq<Disk>)
    requires |ds| <= DISKS_MAX + 1 && forall i | 0 <= i < |ds| :: EnumsValid(ds[i])
    ensures DistinctTargets(EmitDisks(n, ds).disks)
  {
    Elements(n, ds);
    var xs := EmitDisks(n, ds).disks;
    forall i | 0 <= i < |ds| ensures xs[i].target.Some? && xs[i].target.value.letter < 26 {
      TargetIs(n, ds, i);
      OfBoth(ds[..i]);
    }
    forall i, j | 0 <= i < j < |ds|
      ensures (xs[i].target.value.prefix, xs[i].target.value.letter)
           != (xs[j].target.value.prefix, xs[j].target.value.letter)
    {
      TargetsDiffer(n, ds, i, j);
    }
  }

  lemma {:induction false} ItoaInjective(a: nat, b: nat)
    requires Itoa(a) == Itoa(b)
    ensures a == b
  {
    var s, t := Itoa(a), Itoa(b);
    if a >= 10 && b >= 10 {
      assert s[..|s| - 1] == Itoa(a / 10) && t[..|t| - 1] == Itoa(b / 10);
      ItoaInjective(a / 10, b / 10);
      assert s[|s| - 1] == t[|t| - 1];
    } else if a < 10 && b < 10 {
      assert s[0] == t[0];
    }
  }

  lemma AliasDetermines(d: Disk, m: nat, f: Disk, k: nat)
    requires Alias(d, m) == Alias(f, k)
    ensures CtrlOf(d.bus) == CtrlOf(f.bus) && m == k
  {
    AliasReadsBack(d, m);
    AliasReadsBack(f, k);
    assert AliasFields(d, m)[2] == AliasFields(f, k)[2] && AliasFields(d, m)[4] == AliasFields(f, k)[4];
    ItoaInjective(m, k);
    NamesDiffer(CtrlOf(d.bus), CtrlOf(f.bus));
  }

  lemma NamesDiffer(c: Ctrl, d: Ctrl)
    requires c.Name() == d.Name()
    ensures c == d
  {
    assert "scsi"[1] != "sata"[1] && "virtio"[0] == 'v';
  }

  lemma AliasesDiffer(ds: seq<Disk>, i: nat, j: nat)
    requires i < j < |ds|
    ensures Alias(ds[i], NumberOf(ds, i)) != Alias(ds[j], NumberOf(ds, j))
  {
    if Alias(ds[i], NumberOf(ds, i)) == Alias(ds[j], NumberOf(ds, j)) {
      AliasDetermines(ds[i], NumberOf(ds, i), ds[j], NumberOf(ds, j));
      OfGrows(CtrlOf(ds[i].bus), ds, i, j);
    }
  }

  lemma AliasesAreDistinct(n: Naming, ds: seq<Disk>)
    requires forall i | 0 <= i < |ds| :: EnumsValid(ds[i])
    ensures DistinctAliases(EmitDisks(n, ds).disks)
  {
    Elements(n, ds);
    var xs := EmitDisks(n, ds).disks;
    forall i | 0 <= i < |ds| ensures xs[i].alias == Some(Alias(ds[i], NumberOf(ds, i))) {
      AliasIs(n, ds, i);
    }
    forall i, j | 0 <= i < j < |ds| ensures xs[i].alias != xs[j].alias {
      AliasesDiffer(ds, i, j);
    }
  }

  lemma ControllerAdds(n: Naming, e: Emitted, d: Disk, lease: bool, order: int)
    requires NumberedControllers(e.controllers) && |e.controllers| == Count(e, Scsi)
    ensures NumberedControllers(EmitDisk(n, e, d, lease, order).controllers)
  {
  }

  lemma {:induction false} ControllersAreNumbered(n: Naming, ds: seq<Disk>)
    ensures NumberedControllers(EmitDisks(n, ds).controllers)
    ensures ControllerAt(EmitDisks(n, ds), 0, CLOUD_INIT_CONTROLLER)
  {
    if ds != [] {
      var d, o := Last(ds), OrderOf(Front(ds), Last(ds));
      ControllersAreNumbered(n, Front(ds));
      Counters(n, Front(ds));
      EmitSnoc(n, ds);
      ControllerAdds(n, EmitDisks(n, Front(ds)), d, d.man != DISK_UNMANAGED, o);
      EmitKeeps(n, EmitDisks(n, Front(ds)), d, d.man != DISK_UNMANAGED, o,
                0, ElementAt(n, ds, 0), 0, CLOUD_INIT_CONTROLLER);
    }
  }

  lemma ScsiDisksAreWired(n: Naming, ds: seq<Disk>)
    requires forall i | 0 <= i < |ds| :: EnumsValid(ds[i])
    ensures |EmitDisks(n, ds).disks| == |ds| && ScsiWired(ds, EmitDisks(n, ds).disks, EmitDisks(n, ds).controllers)
  {
    Elements(n, ds);
    var xs, cs := EmitDisks(n, ds).disks, EmitDisks(n, ds).controllers;
    forall i | 0 <= i < |ds|
      ensures xs[i].controller == if CtrlOf(ds[i].bus) == Scsi then Some(1 + Of(Scsi, ds[..i])) else None
      ensures CtrlOf(ds[i].bus) == Scsi ==>
        1 + Of(Scsi, ds[..i]) < |cs| && cs[1 + Of(Scsi, ds[..i])].model == CtrlModel(ds[i].bus)
    {
      SlotIs(n, ds, i);
      if CtrlOf(ds[i].bus) == Scsi { ControllerIs(n, ds, i); }
    }
    forall i, j | 0 <= i < j < |ds| && xs[i].controller.Some? ensures xs[i].controller != xs[j].controller {
      OfGrows(Scsi, ds, i, j);
    }
  }

  lemma ThreadsAreAssigned(n: Naming, ds: seq<Disk>)
    requires forall i | 0 <= i < |ds| :: EnumsValid(ds[i])
    ensures var e := EmitDisks(n, ds);
      |e.disks| == |ds| && ThreadsAssigned(ds, e.disks, e.controllers, e.iothreads)
  {
    Elements(n, ds);
    Counters(n, ds);
    assert ds[..|ds|] == ds;
    var xs, cs := EmitDisks(n, ds).disks, EmitDisks(n, ds).controllers;
    forall i | 0 <= i < |ds|
      ensures ThreadOf(xs[i], cs) == if UsesIothread(ds[i].bus) then Some(Threads(ds[..i]) + 1) else None
      ensures UsesIothread(ds[i].bus) ==> Threads(ds[..i]) + 1 <= Threads(ds)
    {
      ThreadIs(n, ds, i);
      ThreadsGrow(ds, i, |ds|);
    }
    forall i, j | 0 <= i < j < |ds| && ThreadOf(xs[i], cs).Some? ensures ThreadOf(xs[i], cs) != ThreadOf(xs[j], cs) {
      ThreadsGrow(ds, i, j);
    }
  }

  /** Every order below the next one has been given to some disk. */
  lemma {:induction false} OrderIsUsed(ds: seq<Disk>, t: nat) returns (i: nat)
    requires 1 <= t < BootOrderAfter(ds)
    ensures i < |ds| && (i == 0 || ds[i].device == DEVICE_CDROM) && BootOrderAfter(ds[..i]) == t
  {
    if t < BootOrderAfter(Front(ds)) {
      i := OrderIsUsed(Front(ds), t);
      assert Front(ds)[..i] == ds[..i];
    } else {
      i := |ds| - 1;
    }
  }

  ghost predicate OrdersAre(ds: seq<Disk>, xs: seq<DiskXml>) {
    |xs| == |ds| && forall i | 0 <= i < |ds| ::
      xs[i].bootOrder == if i == 0 || ds[i].device == DEVICE_CDROM then Some(BootOrderAfter(ds[..i])) else None
  }

  lemma OrdersStrictlyGrow(ds: seq<Disk>, xs: seq<DiskXml>, i: nat, j: nat)
    requires OrdersAre(ds, xs) && i < j < |ds| && xs[i].bootOrder.Some? && xs[j].bootOrder.Some?
    ensures xs[i].bootOrder.value < xs[j].bootOrder.value
  {
    OrderGrows(ds, i, j);
  }

  lemma OrdersBounded(ds: seq<Disk>, xs: seq<DiskXml>, i: nat)
    requires OrdersAre(ds, xs) && i < |ds| && xs[i].bootOrder.Some?
    ensures 1 <= xs[i].bootOrder.value < BootOrderAfter(ds)
  {
    OrderGrows(ds, i, |ds|);
    assert ds[..|ds|] == ds;
  }

  lemma OrdersAreUsed(ds: seq<Disk>, xs: seq<DiskXml>, t: nat)
    requires OrdersAre(ds, xs) && 1 <= t < BootOrderAfter(ds)
    ensures exists i :: 0 <= i < |ds| && xs[i].bootOrder == Some(t)
  {
    var i := OrderIsUsed(ds, t);
    assert xs[i].bootOrder == Some(t);
  }

  lemma OrdersHaveNoGaps(ds: seq<Disk>, xs: seq<DiskXml>)
    requires OrdersAre(ds, xs)
    ensures BootOrdered(ds, xs, BootOrderAfter(ds) - 1)
  {
    forall i | 0 <= i < |ds| && xs[i].bootOrder.Some? ensures 1 <= xs[i].bootOrder.value < BootOrderAfter(ds) {
      OrdersBounded(ds, xs, i);
    }
    forall i, j | 0 <= i < j < |ds| && xs[i].bootOrder.Some? && xs[j].bootOrder.Some?
      ensures xs[i].bootOrder.value < xs[j].bootOrder.value
    {
      OrdersStrictlyGrow(ds, xs, i, j);
    }
    forall t | 1 <= t < BootOrderAfter(ds) ensures exists i :: 0 <= i < |ds| && xs[i].bootOrder == Some(t) {
      OrdersAreUsed(ds, xs, t);
    }
  }

  lemma BootOrdersHaveNoGaps(n: Naming, ds: seq<Disk>)
    requires forall i | 0 <= i < |ds| :: EnumsValid(ds[i])
    ensures |EmitDisks(n, ds).disks| == |ds| && BootOrdered(ds, EmitDisks(n, ds).disks, BootOrderAfter(ds) - 1)
  {
    Elements(n, ds);
    forall i | 0 <= i < |ds|
      ensures ElementAt(n, ds, i).bootOrder
           == if i == 0 || ds[i].device == DEVICE_CDROM then Some(BootOrderAfter(ds[..i])) else None
    {
      SlotIs(n, ds, i);
    }
    OrdersHaveNoGaps(ds, EmitDisks(n, ds).disks);
  }

  /** No two names or numbers given to the disks get in each other's way. */
  ghost predicate ConflictFree(ds: seq<Disk>, xs: seq<DiskXml>, cs: seq<Controller>, threads: nat, orders: nat) {
    && |xs| == |ds| && DistinctTargets(xs) && DistinctAliases(xs) && NumberedControllers(cs)
    && ScsiWired(ds, xs, cs) && ThreadsAssigned(ds, xs, cs, threads) && BootOrdered(ds, xs, orders)
  }

  lemma EmittedIsConflictFree(n: Naming, ds: seq<Disk>)
    requires |ds| <= DISKS_MAX + 1 && forall i | 0 <= i < |ds| :: EnumsValid(ds[i])
    ensures var e := EmitDisks(n, ds); ConflictFree(ds, e.disks, e.controllers, e.iothreads, BootOrderAfter(ds) - 1)
  {
    TargetsAreDistinct(n, ds);
    AliasesAreDistinct(n, ds);
    ControllersAreNumbered(n, ds);
    ScsiDisksAreWired(n, ds);
    ThreadsAreAssigned(n, ds);
    BootOrdersHaveNoGaps(n, ds);
  }

  /** Everything emitted for a validated definition is free of conflicts; the iothreads left over are
      one for each interface. */
  lemma ValidatedIsConflictFree(n: Naming, vm: Vmdef, uuid: string)
    requires Validate(vm).Pass?
    ensures var x := DomainOf(n, vm, uuid);
      x.iothreads >= |vm.nets| && x.devices.Some?
      && ConflictFree(Disks(vm), x.devices.value.disks, x.devices.value.controllers, x.iothreads - |vm.nets|,
                      BootOrderAfter(Disks(vm)) - 1)
  {
    ValidDisks(vm);
    EmittedIsConflictFree(n, Disks(vm));
  }

  // ----------------------------------------------------------- cloud-init's disk

  /** get_iso_xml starts Disk_to_xml from empty counters. */
  const NOTHING := Emitted(map[], 0, [], [], [])

  function CloudInitDisk(path: string, prov: int): Disk {
    Disk(path, DEVICE_CDROM, BUS_VIRTIO_SCSI, DISK_MANAGED, prov, 0)
  }

  ghost predicate Separate(x: DiskXml, y: DiskXml) {
    && y.target.Some? && x.target.Some?
    && (y.target.value.prefix, y.target.value.letter) != (x.target.value.prefix, x.target.value.letter)
    && y.alias != x.alias && y.controller != x.controller
  }

  /** The <disk> of the cloud-init image. */
  function CloudInitElement(n: Naming, d: Disk): DiskXml { DiskElement(d, n.driver(d.path), NOTHING, -1) }

  lemma CloudInitSlot(n: Naming, path: string, prov: int)
    ensures var x := CloudInitElement(n, CloudInitDisk(path, prov));
      && x.target == Some(Target("sd", 0, "scsi")) && x.controller == Some(0) && x.bootOrder == None
      && x.alias == Some(Alias(CloudInitDisk(path, prov), 0))
  {
  }

  lemma CloudInitApartFrom(n: Naming, ds: seq<Disk>, i: nat, path: string, prov: int)
    requires i < |ds| && EnumsValid(ds[i])
    ensures Separate(CloudInitElement(n, CloudInitDisk(path, prov)), ElementAt(n, ds, i))
  {
    var d := CloudInitDisk(path, prov);
    CloudInitSlot(n, path, prov);
    TargetIs(n, ds, i);
    AliasIs(n, ds, i);
    SlotIs(n, ds, i);
    assert "vd"[0] != "sd"[0];
    if Alias(ds[i], NumberOf(ds, i)) == Alias(d, 0) {
      AliasDetermines(ds[i], NumberOf(ds, i), d, 0);
    }
  }

  /** The cloud-init disk is sda on scsi controller 0: its name and alias are taken by no disk of
      the VM, its controller by no other disk, and that controller exists with the right model. */
  lemma CloudInitIsApart(n: Naming, ds: seq<Disk>, path: string, prov: int)
    requires forall i | 0 <= i < |ds| :: EnumsValid(ds[i])
    ensures var x := CloudInitElement(n, CloudInitDisk(path, prov));
      var e := EmitDisks(n, ds);
      && EmitDisk(n, NOTHING, CloudInitDisk(path, prov), true, -1).disks == [x]
      && x.target == Some(Target("sd", 0, "scsi")) && x.controller == Some(0) && x.bootOrder == None
      && e.controllers != [] && e.controllers[0].model == "virtio-scsi" && e.controllers[0].iothread == None
      && forall y | y in e.disks :: Separate(x, y)
  {
    CloudInitSlot(n, path, prov);
    ControllersAreNumbered(n, ds);
    Elements(n, ds);
    forall i | 0 <= i < |ds| ensures Separate(CloudInitElement(n, CloudInitDisk(path, prov)), ElementAt(n, ds, i)) {
      CloudInitApartFrom(n, ds, i, path, prov);
    }
  }
}

/** The inventory as the source keeps it: two maps updated in place. */
module InventoryStore {
  import opened GoTypes
  import opened Inventory
  import opened InventoryRuns
  import opened Reconciliation

  /** VmListFields used as a filter; a zero field does not filter. */
  datatype VmFilter = VmFilter(name: Bytes, host: Id, runstate: int, vlanid: int, custom: CustomField, ts: int)

  datatype VmListItem = VmListItem(
    uuid: Id, name: Bytes, host: Id, runstate: int, vlanid: int, custom: CustomField, ts: int)

  predicate OccursAt(s: Bytes, part: Bytes, i: nat) {
    i + |part| <= |s| && s[i..i + |part|] == part
  }

  /** strings.Contains. */
  predicate Contains(s: Bytes, part: Bytes) {
    exists i | 0 <= i <= |s| :: OccursAt(s, part, i)
  }

  predicate Matches(v: VmInfo, f: VmFilter) {
    && (f.name != [] ==> Contains(v.name, f.name))
    && (f.host != [] ==> v.host == f.host)
    && (f.runstate > 0 ==> v.runstate == f.runstate)
    && (f.vlanid > 0 ==> v.vlanid == f.vlanid)
    && (f.custom.name != [] ==> f.custom in v.custom)
    && (f.ts != 0 ==> v.ts <= f.ts)
  }

  const NO_FILTER := VmFilter([], [], 0, 0, CustomField([], []), 0)

  /** A filter keeps what each of its fields alone would keep. */
  lemma FiltersCombine(v: VmInfo, f: VmFilter)
    ensures Matches(v, f) <==>
      (Matches(v, NO_FILTER.(name := f.name)) && Matches(v, NO_FILTER.(host := f.host))
       && Matches(v, NO_FILTER.(runstate := f.runstate)) && Matches(v, NO_FILTER.(vlanid := f.vlanid))
       && Matches(v, NO_FILTER.(custom := f.custom)) && Matches(v, NO_FILTER.(ts := f.ts)))
  {
  }

  /** What each field alone keeps: names with the text anywhere in them, the given host, runstate, VLAN
      or custom field, and what is not newer than the timestamp. */
  lemma FieldsFilter(v: VmInfo, text: Bytes, before: Bytes, after: Bytes, n: int, c: CustomField)
    ensures v.name == before + text + after ==> Matches(v, NO_FILTER.(name := text))
    ensures Matches(v, NO_FILTER.(host := text)) <==> text == [] || v.host == text
    ensures Matches(v, NO_FILTER.(runstate := n)) <==> n <= 0 || v.runstate == n
    ensures Matches(v, NO_FILTER.(vlanid := n)) <==> n <= 0 || v.vlanid == n
    ensures Matches(v, NO_FILTER.(custom := c)) <==> c.name == [] || c in v.custom
    ensures Matches(v, NO_FILTER.(ts := n)) <==> n == 0 || v.ts <= n
  {
    if v.name == before + text + after {
      assert OccursAt(v.name, text, |before|);
    }
  }

  lemma NameFilterFinds(v: VmInfo, text: Bytes) returns (before: Bytes, after: Bytes)
    requires Matches(v, NO_FILTER.(name := text))
    ensures v.name == before + text + after
  {
    before, after := [], v.name;
    if text != [] {
      var i :| 0 <= i <= |v.name| && OccursAt(v.name, text, i);
      before, after := v.name[..i], v.name[i + |text|..];
    }
  }

  /** A search by host scans for what the index of that host should hold. */
  lemma HostSearchIsScan(s: State, h: Id)
    requires h != []
    ensures (set u | u in s.vms && Matches(s.vms[u], NO_FILTER.(host := h))) == Scan(s, h)
  {
    forall u | u in s.vms ensures Matches(s.vms[u], NO_FILTER.(host := h)) <==> s.vms[u].host == h {
      FieldsFilter(s.vms[u], h, [], [], 0, CustomField([], []));
    }
  }

  function Item(v: VmInfo, f: VmFilter): VmListItem {
    VmListItem(v.uuid, v.name, v.host, v.runstate, v.vlanid, f.custom, v.ts)
  }

  /** The item describes the VM; of its custom fields it has the one that was searched for. */
  predicate Shows(item: VmListItem, v: VmInfo, f: VmFilter) {
    && item.uuid == v.uuid && item.name == v.name && item.host == v.host && item.runstate == v.runstate
    && item.vlanid == v.vlanid && item.ts == v.ts && item.custom == f.custom
  }

  class Store {
    var hosts: Hosts
    var vms: Vms

    constructor ()
      ensures Contents() == EMPTY
    {
      hosts, vms := map[], map[];
    }

    function Contents(): State
      reads this
    {
      State(hosts, vms)
    }

    method UpdateHost(i: HostInfo)
      modifies this
      ensures Contents() == Inventory.UpdateHost(old(Contents()), i)
    {
      var data := Hostdata(i, {});
      if i.uuid in hosts {
        if hosts[i.uuid].info.ts > i.ts { return; }
        data := hosts[i.uuid].(info := i);
      }
      hosts := hosts[i.uuid := data];
    }

    method SetHostState(h: Id, cstate: int) returns (ok: bool)
      modifies this
      ensures ok == (h in old(hosts))
      ensures Contents() == Inventory.SetHostState(old(Contents()), h, cstate)
    {
      if h !in hosts { return false; }
      var data := hosts[h];
      data := data.(info := data.info.(cstate := cstate));
      hosts := hosts[h := data];
      return true;
    }

    method UpdateVm(v: VmInfo)
      modifies this
      ensures Contents() == Inventory.UpdateVm(old(Contents()), v)
    {
      if v.uuid in vms && vms[v.uuid].ts > v.ts { return; }
      var oldHost := if v.uuid in vms then vms[v.uuid].host else [];
      UpdateHostdataVm(v.uuid, oldHost, v.host);
      vms := vms[v.uuid := v];
    }

    method UpdateVmState(e: VmEvent) returns (ok: bool)
      modifies this
      ensures ok == (e.uuid in old(vms))
      ensures Contents() == Inventory.UpdateVmState(old(Contents()), e)
    {
      if e.uuid !in vms { return false; }
      var v := vms[e.uuid];
      if v.ts > e.ts { return true; }
      if e.runstate == RUNSTATE_DELETED {
        DeleteHostdataVm(e.uuid, v.host, e.host);
        vms := vms - {e.uuid};
        return true;
      }
      UpdateHostdataVm(e.uuid, v.host, e.host);
      v := v.(host := e.host, runstate := e.runstate);
      vms := vms[e.uuid := v];
      return true;
    }

    method UpdateHostdataVm(u: Id, src: Id, dest: Id)
      modifies this`hosts
      ensures hosts == Moved(old(hosts), u, src, dest)
    {
      if src in hosts && src != dest {
        hosts := hosts[src := hosts[src].(vms := hosts[src].vms - {u})];
      }
      if dest in hosts {
        hosts := hosts[dest := hosts[dest].(vms := hosts[dest].vms + {u})];
      }
    }

    method DeleteHostdataVm(u: Id, src: Id, dest: Id)
      modifies this`hosts
      ensures hosts == Dropped(old(hosts), u, src, dest)
    {
      if src in hosts {
        hosts := hosts[src := hosts[src].(vms := hosts[src].vms - {u})];
      }
      if src == dest { return; }
      if dest in hosts {
        hosts := hosts[dest := hosts[dest].(vms := hosts[dest].vms - {u})];
      }
    }

    /** Search_vms lists every matching VM exactly once, whatever the map order. */
    method SearchVms(f: VmFilter) returns (items: seq<VmListItem>)
      requires Consistent(Contents())
      ensures forall i | 0 <= i < |items| ::
        items[i].uuid in vms && Matches(vms[items[i].uuid], f) && Shows(items[i], vms[items[i].uuid], f)
      ensures forall u | u in vms && Matches(vms[u], f) :: exists i :: 0 <= i < |items| && items[i].uuid == u
      ensures forall i, j | 0 <= i < j < |items| :: items[i].uuid != items[j].uuid
    {
      items := [];
      var todo := vms.Keys;
      while todo != {}
        invariant todo <= vms.Keys
        invariant forall i | 0 <= i < |items| ::
          items[i].uuid in vms.Keys - todo && Matches(vms[items[i].uuid], f) && items[i] == Item(vms[items[i].uuid], f)
        invariant forall u | u in vms.Keys - todo && Matches(vms[u], f) :: Item(vms[u], f) in items
        invariant forall i, j | 0 <= i < j < |items| :: items[i].uuid != items[j].uuid
        decreases todo
      {
        var u :| u in todo;
        todo := todo - {u};
        if Matches(vms[u], f) {
          items := items + [Item(vms[u], f)];
        }
      }
      forall u | u in vms && Matches(vms[u], f) ensures exists i :: 0 <= i < |items| && items[i].uuid == u {
        var i :| 0 <= i < |items| && items[i] == Item(vms[u], f);
      }
    }

    /** delete_ghosts: one DELETED event for each VM indexed under h that libvirt does not know. */
    method DeleteGhosts(h: Id, live: set<Id>, ts: int) returns (events: seq<VmEvent>)
      ensures Announces(events, Ghosts(Contents(), h, live), h, ts)
    {
      events := [];
      if h !in hosts { return; }
      var todo := hosts[h].vms;
      ghost var done: set<Id> := {};
      while todo != {}
        invariant done !! todo && done + todo == hosts[h].vms
        invariant Announces(events, done - live, h, ts)
        decreases todo
      {
        var u :| u in todo;
        OneMoreDone(done, todo, live, u);
        if u !in live {
          AnnouncesMore(events, done - live, h, ts, u);
          events := events + [VmEvent(u, h, RUNSTATE_DELETED, ts)];
        }
        todo, done := todo - {u}, done + {u};
      }
      assert done - live == Ghosts(Contents(), h, live);
    }
  }

  /** One DELETED event for each of these VMs, and no other event. */
  ghost predicate Announces(events: seq<VmEvent>, gone: set<Id>, h: Id, ts: int) {
    && (forall u :: u in gone <==> VmEvent(u, h, RUNSTATE_DELETED, ts) in events)
    && (forall e | e in events :: e == VmEvent(e.uuid, h, RUNSTATE_DELETED, ts))
    && |events| == |gone|
  }

  lemma AnnouncesMore(events: seq<VmEvent>, gone: set<Id>, h: Id, ts: int, u: Id)
    requires Announces(events, gone, h, ts) && u !in gone
    ensures Announces(events + [VmEvent(u, h, RUNSTATE_DELETED, ts)], gone + {u}, h, ts)
  {
  }

  lemma OneMoreDone(done: set<Id>, todo: set<Id>, live: set<Id>, u: Id)
    requires done !! todo && u in todo
    ensures done + {u} !! todo - {u} && (done + {u}) + (todo - {u}) == done + todo
    ensures done + {u} - live == if u in live then done - live else (done - live) + {u}
  {
  }

  /** What send_system_info and delete_ghosts emit for one report of host h. */
  function ReportMsgs(host: HostInfo, vms: seq<VmInfo>, ghosts: seq<VmEvent>): seq<Msg> {
    [HostMsg(host)] + seq(|vms|, i requires 0 <= i < |vms| => VmMsg(vms[i]))
      + seq(|ghosts|, i requires 0 <= i < |ghosts| => EventMsg(ghosts[i]))
  }

  /** The report a host builds from the state s it sees itself is a full round for every
      inventory in state s, in whatever order its messages arrive when the host is known. */
  lemma OwnReportIsFullRound(s: State, host: HostInfo, vms: seq<VmInfo>, ghosts: seq<VmEvent>,
                             live: set<Id>, msgs: seq<Msg>)
    requires forall v | v in vms :: v.host == host.uuid && v.ts == host.ts
    requires live == set v | v in vms :: v.uuid
    requires Announces(ghosts, Ghosts(s, host.uuid, live), host.uuid, host.ts)
    requires multiset(msgs) == multiset(ReportMsgs(host, vms, ghosts))
    requires host.uuid in s.hosts || (msgs != [] && msgs[0] == HostMsg(host))
    ensures FullRound(s, msgs, host.uuid, host.ts, live)
  {
    var sent := ReportMsgs(host, vms, ghosts);
    forall m ensures m in msgs <==> m in sent {
      assert m in msgs <==> m in multiset(msgs);
      assert m in sent <==> m in multiset(sent);
    }
    forall m | m in msgs ensures InRound(m, host.uuid, host.ts, live, Ghosts(s, host.uuid, live)) {
      assert m in sent;
    }
    forall u | u in live ensures exists m :: m in msgs && IsVmMsg(m, u) {
      var v :| v in vms && v.uuid == u;
      var i :| 0 <= i < |vms| && vms[i] == v;
      assert sent[1 + i] == VmMsg(v);
      assert VmMsg(v) in msgs;
    }
    forall u | u in Ghosts(s, host.uuid, live) ensures exists m :: m in msgs && IsEvent(m, u) {
      var e := VmEvent(u, host.uuid, RUNSTATE_DELETED, host.ts);
      var i :| 0 <= i < |ghosts| && ghosts[i] == e;
      assert sent[1 + |vms| + i] == EventMsg(e);
      assert EventMsg(e) in msgs;
    }
  }
}

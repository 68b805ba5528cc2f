/**
 The replicated inventory (pkg/inventory/inventory.go) as a state and the
 effect of each message on it.  `InventoryStore` holds the methods that update
 the maps in place and are proved to have these effects.
 */
module Inventory {
  import opened GoTypes

  /** A Go string used as a key: a host or VM uuid. */
  type Id = Bytes

  datatype CustomField = CustomField(name: Bytes, value: Bytes)

  datatype HostInfo = HostInfo(
    uuid: Id, name: Bytes, arch: Bytes, vendor: Bytes,
    model: Bytes, nodes: int, sockets: int, cores: int, threads: int,
    cstate: int, memoryAvailable: int, hpAvailable: int, osid: Bytes, osv: Bytes, ts: int)

  datatype VmEvent = VmEvent(uuid: Id, host: Id, runstate: int, ts: int)

  datatype VmInfo = VmInfo(
    uuid: Id, host: Id, runstate: int, ts: int,
    name: Bytes, vlanid: int, custom: seq<CustomField>, vcpus: int)

  const RUNSTATE_DELETED := 1

  /** Host information plus the index of the VMs that run there. */
  datatype Hostdata = Hostdata(info: HostInfo, vms: set<Id>)

  type Hosts = map<Id, Hostdata>
  type Vms = map<Id, VmInfo>

  datatype State = State(hosts: Hosts, vms: Vms)

  const EMPTY := State(map[], map[])

  // ------------------------------------------------------- effect of messages

  /** The index after u has been moved from host `src` to host `dest`. */
  function Moved(hosts: Hosts, u: Id, src: Id, dest: Id): (r: Hosts) {
    map h | h in hosts ::
      if h == dest then hosts[h].(vms := hosts[h].vms + {u})
      else if h == src then hosts[h].(vms := hosts[h].vms - {u})
      else hosts[h]
  }

  /** The index after u has been removed from both hosts. */
  function Dropped(hosts: Hosts, u: Id, src: Id, dest: Id): (r: Hosts) {
    map h | h in hosts :: if h == src || h == dest then hosts[h].(vms := hosts[h].vms - {u}) else hosts[h]
  }

  /** The host an earlier record names; Go's zero value is the empty string. */
  function OldHost(s: State, u: Id): Id {
    if u in s.vms then s.vms[u].host else []
  }

  function UpdateHost(s: State, i: HostInfo): (r: State) {
    if i.uuid !in s.hosts then s.(hosts := s.hosts[i.uuid := Hostdata(i, {})])
    else if s.hosts[i.uuid].info.ts > i.ts then s
    else s.(hosts := s.hosts[i.uuid := s.hosts[i.uuid].(info := i)])
  }

  function SetHostState(s: State, h: Id, cstate: int): (r: State) {
    if h !in s.hosts then s
    else s.(hosts := s.hosts[h := s.hosts[h].(info := s.hosts[h].info.(cstate := cstate))])
  }

  function UpdateVm(s: State, v: VmInfo): (r: State) {
    if v.uuid in s.vms && s.vms[v.uuid].ts > v.ts then s
    else State(Moved(s.hosts, v.uuid, OldHost(s, v.uuid), v.host), s.vms[v.uuid := v])
  }

  function UpdateVmState(s: State, e: VmEvent): (r: State) {
    if e.uuid !in s.vms || s.vms[e.uuid].ts > e.ts then s
    else if e.runstate == RUNSTATE_DELETED then
      State(Dropped(s.hosts, e.uuid, s.vms[e.uuid].host, e.host), s.vms - {e.uuid})
    else
      State(Moved(s.hosts, e.uuid, s.vms[e.uuid].host, e.host),
            s.vms[e.uuid := s.vms[e.uuid].(host := e.host, runstate := e.runstate)])
  }

  /** What gossip delivers. */
  datatype Msg =
    | HostMsg(host: HostInfo)
    | VmMsg(vm: VmInfo)
    | EventMsg(event: VmEvent)
    | MemberMsg(member: Id, cstate: int)

  function Apply(s: State, m: Msg): (r: State) {
    match m
    case HostMsg(i) => UpdateHost(s, i)
    case VmMsg(v) => UpdateVm(s, v)
    case EventMsg(e) => UpdateVmState(s, e)
    case MemberMsg(h, c) => SetHostState(s, h, c)
  }

  function Run(s: State, msgs: seq<Msg>): (r: State) {
    if msgs == [] then s else Apply(Run(s, msgs[..|msgs| - 1]), msgs[|msgs| - 1])
  }

  // ---------------------------------------------------------- the index

  predicate Indexed(s: State, u: Id, h: Id) {
    h in s.hosts && u in s.hosts[h].vms
  }

  /** Keys agree with the records, and the index never claims more than the VM map. */
  ghost predicate Consistent(s: State) {
    && (forall h | h in s.hosts :: s.hosts[h].info.uuid == h)
    && (forall u | u in s.vms :: s.vms[u].uuid == u)
    && (forall u, h | Indexed(s, u, h) :: u in s.vms && s.vms[u].host == h)
  }

  lemma ApplyKeepsConsistent(s: State, m: Msg)
    requires Consistent(s)
    ensures Consistent(Apply(s, m))
  {
    var r := Apply(s, m);
    forall u, h | Indexed(r, u, h) ensures u in r.vms && r.vms[u].host == h {
      if Indexed(s, u, h) {
      }
    }
  }

  /** In every reachable state the index is sound, so no VM is indexed under two hosts. */
  lemma {:induction false} IndexNeverLies(msgs: seq<Msg>)
    ensures Consistent(Run(EMPTY, msgs))
    ensures var s := Run(EMPTY, msgs);
      forall u, h, g | Indexed(s, u, h) && Indexed(s, u, g) :: h == g
  {
    if msgs != [] {
      IndexNeverLies(msgs[..|msgs| - 1]);
      ApplyKeepsConsistent(Run(EMPTY, msgs[..|msgs| - 1]), msgs[|msgs| - 1]);
    }
  }
}

/**
 Messages between hosts (pkg/serfcomm/serfcomm.go): the inventory's records as
 sbinary values, and what a receiver does with a payload.
 */
module Wire {
  import opened GoTypes
  import opened Sbinary
  import opened SbinaryLaws
  import opened SbinaryAttempts
  import opened SbinaryInPlace
  import opened Inventory
  import opened InventoryStore

  const MAX_MESSAGE_SIZE := 1024

  /** The names of the three user events. */
  datatype Label = HI | VI | VE | Other(name: Bytes)

  // -------------------------------------------------------- records as values

  function Exported(vs: seq<Val>): Val {
    Struct(seq(|vs|, i requires 0 <= i < |vs| => Field(true, vs[i])))
  }

  function CustomVal(c: CustomField): Val { Exported([String(c.name), String(c.value)]) }

  const ZERO_CUSTOM := CustomVal(CustomField([], []))

  function CustomVals(cs: seq<CustomField>): seq<Val> {
    seq(|cs|, i requires 0 <= i < |cs| => CustomVal(cs[i]))
  }

  function EventVal(e: VmEvent): Val {
    Exported([String(e.uuid), String(e.host), Int(W2, e.runstate), Int(W8, e.ts)])
  }

  function VmVal(v: VmInfo): Val {
    Exported([EventVal(VmEvent(v.uuid, v.host, v.runstate, v.ts)),
              String(v.name), Int(W2, v.vlanid), Slice(ZERO_CUSTOM, CustomVals(v.custom)), Int(W2, v.vcpus)])
  }

  function HostVal(i: HostInfo): Val {
    Exported([String(i.uuid), Exported([
      String(i.name), Exported([String(i.arch), String(i.vendor)]),
      Exported([String(i.model), Int(W2, i.nodes), Int(W2, i.sockets), Int(W2, i.cores), Int(W2, i.threads)]),
      Int(W2, i.cstate), Int(W4, i.memoryAvailable), Int(W4, i.hpAvailable),
      String(i.osid), String(i.osv), Int(W8, i.ts)])])
  }

  const ZERO_EVENT := VmEvent([], [], 0, 0)
  const ZERO_VM := VmInfo([], [], 0, 0, [], 0, [], 0)
  const ZERO_HOST := HostInfo([], [], [], [], [], 0, 0, 0, 0, 0, 0, 0, [], [], 0)

  function MsgVal(m: Msg): Val
    requires !m.MemberMsg?
  {
    match m case HostMsg(i) => HostVal(i) case VmMsg(v) => VmVal(v) case EventMsg(e) => EventVal(e)
  }

  function LabelOf(m: Msg): Label
    requires !m.MemberMsg?
  {
    match m case HostMsg(_) => HI case VmMsg(_) => VI case EventMsg(_) => VE
  }

  // ---------------------------------------------------- and values as records

  function At(v: Val, i: nat): Val { if v.Struct? && i < |v.fields| then v.fields[i].v else NilPtr }
  function Str(v: Val): Bytes { if v.String? then v.bs else [] }
  function Num(v: Val): int { if v.Int? then v.n else 0 }

  function CustomsOf(v: Val): seq<CustomField> {
    if v.Slice? then seq(|v.vs|, i requires 0 <= i < |v.vs| => CustomField(Str(At(v.vs[i], 0)), Str(At(v.vs[i], 1))))
    else []
  }

  function EventOf(v: Val): VmEvent {
    VmEvent(Str(At(v, 0)), Str(At(v, 1)), Num(At(v, 2)), Num(At(v, 3)))
  }

  function VmOf(v: Val): VmInfo {
    var e := EventOf(At(v, 0));
    VmInfo(e.uuid, e.host, e.runstate, e.ts, Str(At(v, 1)), Num(At(v, 2)), CustomsOf(At(v, 3)), Num(At(v, 4)))
  }

  function HostOf(v: Val): HostInfo {
    var f := At(v, 1);
    var arch, cpu := At(f, 1), At(f, 2);
    HostInfo(Str(At(v, 0)), Str(At(f, 0)), Str(At(arch, 0)), Str(At(arch, 1)),
             Str(At(cpu, 0)), Num(At(cpu, 1)), Num(At(cpu, 2)), Num(At(cpu, 3)), Num(At(cpu, 4)),
             Num(At(f, 3)), Num(At(f, 4)), Num(At(f, 5)), Str(At(f, 6)), Str(At(f, 7)), Num(At(f, 8)))
  }

  lemma ValuesAreFaithful(m: Msg)
    requires !m.MemberMsg?
    ensures match m
      case HostMsg(i) => HostOf(HostVal(i)) == i
      case VmMsg(v) => VmOf(VmVal(v)) == v
      case EventMsg(e) => EventOf(EventVal(e)) == e
  {
    if m.VmMsg? {
      assert CustomsOf(At(VmVal(m.vm), 3)) == m.vm.custom;
    }
  }

  // ----------------------------------------------------------- sending, receiving

  /** send_host_info, send_vm_info, send_vm_event: the payload, if it fits the buffer. */
  function Payload(m: Msg): (r: Option<Bytes>)
    requires !m.MemberMsg?
  {
    var e := Encode(LittleEndian, Ref(MsgVal(m)));
    if e.Ok? && |e.value| <= MAX_MESSAGE_SIZE then Some(e.value) else None
  }

  /** handle_user_event: decode into a zeroed record, then update; a payload that does not
      decode, or an unknown event, changes nothing. */
  function HandleUserEvent(s: State, name: Label, payload: Bytes): (r: State) {
    match name
    case HI =>
      var d := Decode(LittleEndian, Ref(HostVal(ZERO_HOST)), payload);
      if d.Err? then s else UpdateHost(s, HostOf(d.value.v))
    case VE =>
      var d := Decode(LittleEndian, Ref(EventVal(ZERO_EVENT)), payload);
      if d.Err? then s else UpdateVmState(s, EventOf(d.value.v))
    case VI =>
      var d := Decode(LittleEndian, Ref(VmVal(ZERO_VM)), payload);
      if d.Err? then s else UpdateVm(s, VmOf(d.value.v))
    case Other(_) => s
  }

  // ------------------------------------------------- types of the three records

  /** A type the codec handles without any side condition on lengths. */
  predicate Simple(v: Val) { Decodable(v) && Dense(v) && Plain(v) }

  lemma {:induction false} ExportedSame(vs: seq<Val>, ws: seq<Val>)
    requires |vs| == |ws| && forall i | 0 <= i < |vs| :: SameType(vs[i], ws[i])
    ensures SameType(Exported(vs), Exported(ws))
  {
    if vs != [] {
      ExportedSame(vs[1..], ws[1..]);
      assert Exported(vs).fields[1..] == Exported(vs[1..]).fields;
      assert Exported(ws).fields[1..] == Exported(ws[1..]).fields;
    }
  }

  lemma {:induction false} ExportedSimple(vs: seq<Val>)
    requires forall i | 0 <= i < |vs| :: Simple(vs[i])
    ensures Simple(Exported(vs))
    ensures vs != [] ==> MinSize(Exported(vs)) >= MinSize(vs[0])
  {
    if vs != [] {
      ExportedSimple(vs[1..]);
      assert Exported(vs).fields[1..] == Exported(vs[1..]).fields;
    }
  }

  lemma EventType(e: VmEvent)
    ensures SameType(EventVal(e), EventVal(ZERO_EVENT)) && Simple(EventVal(ZERO_EVENT))
  {
    var z := ZERO_EVENT;
    ExportedSame([String(e.uuid), String(e.host), Int(W2, e.runstate), Int(W8, e.ts)],
                 [String(z.uuid), String(z.host), Int(W2, z.runstate), Int(W8, z.ts)]);
    ExportedSimple([String(z.uuid), String(z.host), Int(W2, z.runstate), Int(W8, z.ts)]);
  }

  lemma VmType(v: VmInfo)
    ensures SameType(VmVal(v), VmVal(ZERO_VM)) && Simple(VmVal(ZERO_VM))
  {
    EventType(VmEvent(v.uuid, v.host, v.runstate, v.ts));
    assert ZERO_EVENT == VmEvent([], [], 0, 0);
    ExportedSimple([String([]), String([])]);
    assert ZERO_CUSTOM == Exported([String([]), String([])]);
    var z := [EventVal(ZERO_EVENT), String([]), Int(W2, 0), Slice(ZERO_CUSTOM, CustomVals([])), Int(W2, 0)];
    ExportedSame([EventVal(VmEvent(v.uuid, v.host, v.runstate, v.ts)), String(v.name), Int(W2, v.vlanid),
                  Slice(ZERO_CUSTOM, CustomVals(v.custom)), Int(W2, v.vcpus)], z);
    assert MinSize(ZERO_CUSTOM) > 0;
    assert Simple(z[3]);
    ExportedSimple(z);
  }

  function HostFields(i: HostInfo): seq<Val> {
    [String(i.name), Exported([String(i.arch), String(i.vendor)]),
     Exported([String(i.model), Int(W2, i.nodes), Int(W2, i.sockets), Int(W2, i.cores), Int(W2, i.threads)]),
     Int(W2, i.cstate), Int(W4, i.memoryAvailable), Int(W4, i.hpAvailable), String(i.osid), String(i.osv),
     Int(W8, i.ts)]
  }

  lemma HostType(i: HostInfo)
    ensures SameType(HostVal(i), HostVal(ZERO_HOST)) && Simple(HostVal(ZERO_HOST))
  {
    var z := ZERO_HOST;
    ExportedSame([String(i.arch), String(i.vendor)], [String([]), String([])]);
    ExportedSame([String(i.model), Int(W2, i.nodes), Int(W2, i.sockets), Int(W2, i.cores), Int(W2, i.threads)],
                 [String([]), Int(W2, 0), Int(W2, 0), Int(W2, 0), Int(W2, 0)]);
    ExportedSame(HostFields(i), HostFields(z));
    ExportedSame([String(i.uuid), Exported(HostFields(i))], [String([]), Exported(HostFields(z))]);
    HostIsSimple();
  }

  lemma HostIsSimple()
    ensures Simple(HostVal(ZERO_HOST))
  {
    HostFieldsAreSimple();
    ExportedSimple(HostFields(ZERO_HOST));
    ExportedSimple([String([]), Exported(HostFields(ZERO_HOST))]);
  }

  lemma HostFieldsAreSimple()
    ensures var z := HostFields(ZERO_HOST); Simple(z[1]) && Simple(z[2])
  {
    ExportedSimple([String([]), String([])]);
    ExportedSimple([String([]), Int(W2, 0), Int(W2, 0), Int(W2, 0), Int(W2, 0)]);
  }

  // ---------------------------------------------------------------- end to end

  /** A record of the right type whose encoding fits the buffer arrives as it was sent. */
  lemma PayloadReadsBack(v: Val, zero: Val, rest: Bytes)
    requires WellTyped(v) && SameType(v, zero) && Simple(zero)
    requires EncBase(LittleEndian, v).Ok? && |EncBase(LittleEndian, v).value| <= MAX_MESSAGE_SIZE
    ensures var e := EncBase(LittleEndian, v).value;
      DecBase(LittleEndian, zero, e + rest) == Ok(Decoded(v, |e|))
  {
    SmallMessageFits(LittleEndian, v, zero);
    RoundTrip(LittleEndian, v, zero, rest);
    MergePlain(v, zero);
  }

  /** Whatever one host manages to send, a receiver applies exactly that message: no length
      condition is needed, because the payload fits the sender's buffer. */
  lemma SentIsApplied(s: State, m: Msg)
    requires !m.MemberMsg? && WellTyped(MsgVal(m)) && Payload(m).Some?
    ensures HandleUserEvent(s, LabelOf(m), Payload(m).value) == Apply(s, m)
  {
    match m
    case HostMsg(i) => HostIsApplied(s, i);
    case VmMsg(v) => VmIsApplied(s, v);
    case EventMsg(e) => EventIsApplied(s, e);
  }

  lemma HostIsApplied(s: State, i: HostInfo)
    requires WellTyped(HostVal(i)) && Payload(HostMsg(i)).Some?
    ensures HandleUserEvent(s, HI, Payload(HostMsg(i)).value) == UpdateHost(s, i)
  {
    HostReadsBack(i);
    ValuesAreFaithful(HostMsg(i));
  }

  lemma HostReadsBack(i: HostInfo)
    requires WellTyped(HostVal(i)) && Payload(HostMsg(i)).Some?
    ensures var p := Payload(HostMsg(i)).value;
      Decode(LittleEndian, Ref(HostVal(ZERO_HOST)), p) == Ok(Decoded(HostVal(i), |p|))
  {
    var p := Payload(HostMsg(i)).value;
    assert p + [] == p;
    HostType(i);
    PayloadReadsBack(HostVal(i), HostVal(ZERO_HOST), []);
  }

  lemma VmIsApplied(s: State, v: VmInfo)
    requires WellTyped(VmVal(v)) && Payload(VmMsg(v)).Some?
    ensures HandleUserEvent(s, VI, Payload(VmMsg(v)).value) == UpdateVm(s, v)
  {
    VmReadsBack(v);
    ValuesAreFaithful(VmMsg(v));
  }

  lemma VmReadsBack(v: VmInfo)
    requires WellTyped(VmVal(v)) && Payload(VmMsg(v)).Some?
    ensures var p := Payload(VmMsg(v)).value;
      Decode(LittleEndian, Ref(VmVal(ZERO_VM)), p) == Ok(Decoded(VmVal(v), |p|))
  {
    var p := Payload(VmMsg(v)).value;
    assert p + [] == p;
    VmType(v);
    PayloadReadsBack(VmVal(v), VmVal(ZERO_VM), []);
  }

  lemma EventIsApplied(s: State, e: VmEvent)
    requires WellTyped(EventVal(e)) && Payload(EventMsg(e)).Some?
    ensures HandleUserEvent(s, VE, Payload(EventMsg(e)).value) == UpdateVmState(s, e)
  {
    EventReadsBack(e);
    ValuesAreFaithful(EventMsg(e));
  }

  lemma EventReadsBack(e: VmEvent)
    requires WellTyped(EventVal(e)) && Payload(EventMsg(e)).Some?
    ensures var p := Payload(EventMsg(e)).value;
      Decode(LittleEndian, Ref(EventVal(ZERO_EVENT)), p) == Ok(Decoded(EventVal(e), |p|))
  {
    var p := Payload(EventMsg(e)).value;
    assert p + [] == p;
    EventType(e);
    PayloadReadsBack(EventVal(e), EventVal(ZERO_EVENT), []);
  }

  /** A run in which every message goes over the wire. */
  function ReceiveAll(s: State, sent: seq<(Label, Bytes)>): State {
    if sent == [] then s
    else HandleUserEvent(ReceiveAll(s, sent[..|sent| - 1]), sent[|sent| - 1].0, sent[|sent| - 1].1)
  }

  predicate CanSend(m: Msg) {
    !m.MemberMsg? && WellTyped(MsgVal(m)) && Payload(m).Some?
  }

  function Sent(m: Msg): (Label, Bytes)
    requires CanSend(m)
  {
    (LabelOf(m), Payload(m).value)
  }

  /** Receiving payloads refines applying messages, over whole runs: every theorem about `Run`
      holds of an inventory fed from the wire. */
  lemma {:induction false} ReceivingRefinesRun(s: State, msgs: seq<Msg>)
    requires forall i | 0 <= i < |msgs| :: CanSend(msgs[i])
    ensures ReceiveAll(s, seq(|msgs|, i requires 0 <= i < |msgs| => Sent(msgs[i]))) == Run(s, msgs)
  {
    if msgs != [] {
      var n := |msgs| - 1;
      ReceivingRefinesRun(s, msgs[..n]);
      var sent := seq(|msgs|, i requires 0 <= i < |msgs| => Sent(msgs[i]));
      assert sent[..n] == seq(n, i requires 0 <= i < n => Sent(msgs[..n][i]));
      SentIsApplied(Run(s, msgs[..n]), msgs[n]);
    }
  }

  // ------------------------------------------------------------------- in place

  /** The send functions share one buffer; what it held before does not matter. */
  method Send(buf: array<byte>, m: Msg) returns (payload: Option<Bytes>)
    requires buf.Length == MAX_MESSAGE_SIZE && !m.MemberMsg?
    modifies buf
    ensures payload == Payload(m)
  {
    var n, err := EncodeInto(buf, LittleEndian, Ref(MsgVal(m)));
    if err.Some? { return None; }
    return Some(buf[..n]);
  }

  method Receive(store: Store, name: Label, payload: Bytes)
    modifies store
    ensures store.Contents() == HandleUserEvent(old(store.Contents()), name, payload)
  {
    match name
    case HI =>
      var d := DecodeFrom(payload, LittleEndian, Ref(HostVal(ZERO_HOST)));
      if d.err.None? { store.UpdateHost(HostOf(d.v)); }
    case VE =>
      var d := DecodeFrom(payload, LittleEndian, Ref(EventVal(ZERO_EVENT)));
      if d.err.None? { var _ := store.UpdateVmState(EventOf(d.v)); }
    case VI =>
      var d := DecodeFrom(payload, LittleEndian, Ref(VmVal(ZERO_VM)));
      if d.err.None? { store.UpdateVm(VmOf(d.v)); }
    case Other(_) =>
  }
}

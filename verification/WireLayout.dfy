/** The bytes of the three messages, field by field (pkg/serfcomm/serfcomm.go). */
module WireLayout {
  import opened GoTypes
  import opened Sbinary
  import opened SbinaryLayout
  import opened Inventory
  import opened Wire

  // ------------------------------------------------------------ what is expected

  function Text(s: Bytes): Bytes { Number(2, |s|) + s }

  /** An integer of k bytes; `SbinaryLayout.PutDigits` says which byte stands where. */
  function Number(k: nat, n: int): Bytes { PutUint(LittleEndian, k, n) }

  function EventBytes(e: VmEvent): Bytes {
    Joined([Text(e.uuid), Text(e.host), Number(2, e.runstate), Number(8, e.ts)])
  }

  function CustomBytes(cs: seq<CustomField>): Bytes {
    Number(2, |cs|) + Joined(seq(|cs|, i requires 0 <= i < |cs| => Joined([Text(cs[i].name), Text(cs[i].value)])))
  }

  function VmBytes(v: VmInfo): Bytes {
    Joined([EventBytes(VmEvent(v.uuid, v.host, v.runstate, v.ts)), Text(v.name), Number(2, v.vlanid),
            CustomBytes(v.custom), Number(2, v.vcpus)])
  }

  function CpuBytes(i: HostInfo): Bytes {
    Joined([Text(i.model), Number(2, i.nodes), Number(2, i.sockets), Number(2, i.cores), Number(2, i.threads)])
  }

  function HostBytes(i: HostInfo): Bytes {
    Joined([Text(i.uuid),
            Joined([Text(i.name), Joined([Text(i.arch), Text(i.vendor)]), CpuBytes(i),
                    Number(2, i.cstate), Number(4, i.memoryAvailable), Number(4, i.hpAvailable),
                    Text(i.osid), Text(i.osv), Number(8, i.ts)])])
  }

  function MsgBytes(m: Msg): Bytes
    requires !m.MemberMsg?
  {
    match m case HostMsg(i) => HostBytes(i) case VmMsg(v) => VmBytes(v) case EventMsg(e) => EventBytes(e)
  }

  // ------------------------------------------------------- what the encoder writes

  predicate Writes(v: Val, s: Bytes) { EncValue(LittleEndian, v) == Ok(s) }

  lemma {:induction false} ElemsJoin(vs: seq<Val>, parts: seq<Bytes>)
    requires |vs| == |parts| && forall i | 0 <= i < |vs| :: Writes(vs[i], parts[i])
    ensures EncElems(LittleEndian, vs) == Ok(Joined(parts))
  {
    if vs != [] { ElemsJoin(vs[1..], parts[1..]); }
  }

  lemma {:induction false} FieldsAreElems(vs: seq<Val>)
    ensures EncFields(LittleEndian, Exported(vs).fields) == EncElems(LittleEndian, vs)
  {
    if vs != [] {
      FieldsAreElems(vs[1..]);
      assert Exported(vs).fields[1..] == Exported(vs[1..]).fields;
    }
  }

  lemma StructJoins(vs: seq<Val>, parts: seq<Bytes>)
    requires |vs| == |parts| && forall i | 0 <= i < |vs| :: Writes(vs[i], parts[i])
    ensures Writes(Exported(vs), Joined(parts))
  {
    FieldsAreElems(vs);
    ElemsJoin(vs, parts);
  }

  lemma TextWrites(s: Bytes)
    ensures Writes(String(s), Text(s))
  {
  }

  lemma NumberWrites(w: Width, n: int)
    ensures Writes(Int(w, n), Number(w.Bytes(), n))
  {
  }

  lemma EventWrites(e: VmEvent)
    ensures Writes(EventVal(e), EventBytes(e))
  {
    TextWrites(e.uuid);
    TextWrites(e.host);
    NumberWrites(W2, e.runstate);
    NumberWrites(W8, e.ts);
    StructJoins([String(e.uuid), String(e.host), Int(W2, e.runstate), Int(W8, e.ts)],
                [Text(e.uuid), Text(e.host), Number(2, e.runstate), Number(8, e.ts)]);
  }

  lemma CustomsWrite(cs: seq<CustomField>)
    ensures Writes(Slice(ZERO_CUSTOM, CustomVals(cs)), CustomBytes(cs))
  {
    var parts := seq(|cs|, i requires 0 <= i < |cs| => Joined([Text(cs[i].name), Text(cs[i].value)]));
    forall i | 0 <= i < |cs| ensures Writes(CustomVals(cs)[i], parts[i]) {
      TextWrites(cs[i].name);
      TextWrites(cs[i].value);
      StructJoins([String(cs[i].name), String(cs[i].value)], [Text(cs[i].name), Text(cs[i].value)]);
    }
    ElemsJoin(CustomVals(cs), parts);
  }

  lemma VmWrites(v: VmInfo)
    ensures Writes(VmVal(v), VmBytes(v))
  {
    var e := VmEvent(v.uuid, v.host, v.runstate, v.ts);
    EventWrites(e);
    CustomsWrite(v.custom);
    TextWrites(v.name);
    NumberWrites(W2, v.vlanid);
    NumberWrites(W2, v.vcpus);
    var custom := Slice(ZERO_CUSTOM, CustomVals(v.custom));
    StructJoins([EventVal(e), String(v.name), Int(W2, v.vlanid), custom, Int(W2, v.vcpus)],
                [EventBytes(e), Text(v.name), Number(2, v.vlanid), CustomBytes(v.custom), Number(2, v.vcpus)]);
  }

  function CpuVal(i: HostInfo): Val {
    Exported([String(i.model), Int(W2, i.nodes), Int(W2, i.sockets), Int(W2, i.cores), Int(W2, i.threads)])
  }

  lemma CpuWrites(i: HostInfo)
    ensures Writes(CpuVal(i), CpuBytes(i))
  {
    TextWrites(i.model);
    NumberWrites(W2, i.nodes);
    NumberWrites(W2, i.sockets);
    NumberWrites(W2, i.cores);
    NumberWrites(W2, i.threads);
    StructJoins([String(i.model), Int(W2, i.nodes), Int(W2, i.sockets), Int(W2, i.cores), Int(W2, i.threads)],
                [Text(i.model), Number(2, i.nodes), Number(2, i.sockets), Number(2, i.cores), Number(2, i.threads)]);
  }

  lemma HostWrites(i: HostInfo)
    ensures Writes(HostVal(i), HostBytes(i))
  {
    var arch, cpu := Exported([String(i.arch), String(i.vendor)]), CpuVal(i);
    TextWrites(i.arch);
    TextWrites(i.vendor);
    StructJoins([String(i.arch), String(i.vendor)], [Text(i.arch), Text(i.vendor)]);
    CpuWrites(i);
    TextWrites(i.uuid);
    TextWrites(i.name);
    NumberWrites(W2, i.cstate);
    NumberWrites(W4, i.memoryAvailable);
    NumberWrites(W4, i.hpAvailable);
    TextWrites(i.osid);
    TextWrites(i.osv);
    NumberWrites(W8, i.ts);
    var vs := [String(i.name), arch, cpu, Int(W2, i.cstate), Int(W4, i.memoryAvailable), Int(W4, i.hpAvailable),
               String(i.osid), String(i.osv), Int(W8, i.ts)];
    var parts := [Text(i.name), Joined([Text(i.arch), Text(i.vendor)]), CpuBytes(i),
                  Number(2, i.cstate), Number(4, i.memoryAvailable), Number(4, i.hpAvailable),
                  Text(i.osid), Text(i.osv), Number(8, i.ts)];
    StructJoins(vs, parts);
    StructJoins([String(i.uuid), Exported(vs)], [Text(i.uuid), Joined(parts)]);
  }

  /** What a host sends is exactly these bytes, if they fit the buffer, and otherwise nothing. */
  lemma PayloadIs(m: Msg)
    requires !m.MemberMsg?
    ensures Payload(m) == if |MsgBytes(m)| <= 1024 then Some(MsgBytes(m)) else None
  {
    match m
    case HostMsg(i) => HostWrites(i);
    case VmMsg(v) => VmWrites(v);
    case EventMsg(e) => EventWrites(e);
  }
}

/** Laws of the codec: round trip, locality, prefix-freedom and canonicity. */
module SbinaryLaws {
  import opened GoTypes
  import opened Sbinary

  // ---------------------------------------------------------------- integers

  lemma {:induction false} PutThenGet(o: Order, k: nat, n: int)
    ensures GetUint(o, PutUint(o, k, n)) == n % Pow256(k)
  {
    if k > 0 {
      PutThenGet(o, k - 1, n / 256);
      DigitModulo(n, Pow256(k - 1));
      var s := PutUint(o, k, n);
      if o.LittleEndian? {
        assert s[1..] == PutUint(o, k - 1, n / 256);
      } else {
        assert s[..|s| - 1] == PutUint(o, k - 1, n / 256);
      }
    }
  }

  lemma DigitModulo(n: int, p: int)
    requires p > 0
    ensures n % (256 * p) == n % 256 + 256 * ((n / 256) % p)
  {
    var r, q := n % 256 + 256 * ((n / 256) % p), (n / 256) / p;
    assert n == r + (256 * p) * q;
    ModuloUnique(n, 256 * p, q, r);
  }

  lemma ModuloUnique(n: int, p: int, q: int, r: int)
    requires 0 <= r < p && n == p * q + r
    ensures n % p == r
  {
    assert (n / p - q) * p == r - n % p;
    QuotientZero(n / p - q, p);
  }

  lemma LowestDigit(b: byte, n: int)
    ensures (b + 256 * n) % 256 == b && (b + 256 * n) / 256 == n
  {
  }

  lemma {:induction false} GetThenPut(o: Order, s: Bytes)
    ensures PutUint(o, |s|, GetUint(o, s)) == s
  {
    if s != [] {
      var k := |s| - 1;
      if o.LittleEndian? {
        GetThenPut(o, s[1..]);
        LowestDigit(s[0], GetUint(o, s[1..]));
        assert [s[0]] + s[1..] == s;
      } else {
        GetThenPut(o, s[..k]);
        LowestDigit(s[k], GetUint(o, s[..k]));
        assert s[..k] + [s[k]] == s;
      }
    }
  }

  /** Only the value modulo 256^k matters. */
  lemma {:induction false} PutUintModulo(o: Order, k: nat, n: int, m: int)
    requires n % Pow256(k) == m % Pow256(k)
    ensures PutUint(o, k, n) == PutUint(o, k, m)
  {
    if k > 0 {
      DigitModulo(n, Pow256(k - 1));
      DigitModulo(m, Pow256(k - 1));
      PutUintModulo(o, k - 1, n / 256, m / 256);
    }
  }

  /** A signed integer is the two's complement reading of its unsigned image. */
  lemma SignedImage(v: int, p: int)
    requires p > 0 && p % 2 == 0
    ensures -p / 2 <= v < p / 2 ==> Signed(v % p, p) == v
    ensures 0 <= v < p ==> Signed(v, p) % p == v
  {
    if 0 <= v < p {
      ModuloUnique(v, p, 0, v);
      ModuloUnique(v - p, p, -1, v);
    } else if -p / 2 <= v < 0 {
      ModuloUnique(v, p, -1, v + p);
    }
  }

  lemma LengthThenBody(o: Order, n: nat, body: Bytes, rest: Bytes)
    ensures var buf := PutUint(o, 2, n) + body + rest;
      GetUint16(o, buf) == n % TWO16 && buf[2..] == body + rest
  {
    var buf := PutUint(o, 2, n) + body + rest;
    assert buf[..2] == PutUint(o, 2, n);
    LengthReadsBack(o, n);
  }

  lemma LengthReadsBack(o: Order, n: nat)
    ensures GetUint(o, PutUint(o, 2, n)) == n % TWO16
  {
    PutThenGet(o, 2, n);
    TwoBytes();
  }

  lemma TwoBytes()
    ensures Pow256(2) == TWO16
  {
    assert Pow256(1) == 256 * Pow256(0);
  }

  // ---------------------------------------------------- types and side conditions

  /** a and b are values of one Go type, as far as exported fields go. */
  predicate SameType(a: Val, b: Val)
    decreases a
  {
    match a
    case Uint(w, _) => b.Uint? && b.w == w
    case Int(w, _) => b.Int? && b.w == w
    case Bool(_) => b.Bool?
    case String(_) => b.String?
    case ByteSlice(_) => b.ByteSlice?
    case ByteArray(bs) => b.ByteArray? && |b.bs| == |bs|
    case Slice(z, _) => b.Slice? && b.zero == z
    case Array(vs) => b.Array? && SameTypes(vs, b.vs)
    case Struct(fs) => b.Struct? && SameFieldTypes(fs, b.fields)
    case NilPtr => b.NilPtr? || b.Ref?
    case Ref(_) => b.NilPtr? || b.Ref?
    case Unsupported => b.Unsupported?
  }

  predicate SameTypes(vs: seq<Val>, ws: seq<Val>) {
    if vs == [] then ws == [] else ws != [] && SameType(vs[0], ws[0]) && SameTypes(vs[1..], ws[1..])
  }

  predicate SameFieldTypes(fs: seq<Field>, gs: seq<Field>) {
    if fs == [] then gs == []
    else
      assert fs[0] in fs && fs[0].v < fs[0];
      gs != [] && fs[0].exported == gs[0].exported && (fs[0].exported ==> SameType(fs[0].v, gs[0].v)) &&
      SameFieldTypes(fs[1..], gs[1..])
  }

  /** Integers are in range and the elements of a slice have its element type. */
  predicate WellTyped(v: Val) {
    match v
    case Uint(w, n) => 0 <= n < Pow256(w.Bytes())
    case Int(w, n) => -Pow256(w.Bytes()) / 2 <= n < Pow256(w.Bytes()) / 2
    case Slice(z, vs) => WellTypedElems(z, vs)
    case Array(vs) => WellTypedSeq(vs)
    case Struct(fs) => WellTypedFields(fs)
    case _ => true
  }

  predicate WellTypedElems(z: Val, vs: seq<Val>)
    decreases vs
  {
    vs == [] || (WellTyped(vs[0]) && SameType(vs[0], z) && WellTypedElems(z, vs[1..]))
  }

  predicate WellTypedSeq(vs: seq<Val>) {
    vs == [] || (WellTyped(vs[0]) && WellTypedSeq(vs[1..]))
  }

  predicate WellTypedFields(fs: seq<Field>) {
    fs == [] || (
      assert fs[0] in fs && fs[0].v < fs[0];
      (fs[0].exported ==> WellTyped(fs[0].v)) && WellTypedFields(fs[1..]))
  }

  /** The type of v has no pointer or unsupported kind where the codec looks. */
  predicate Decodable(v: Val) {
    match v
    case Slice(z, _) => Decodable(z)
    case Array(vs) => DecodableSeq(vs)
    case Struct(fs) => DecodableFields(fs)
    case NilPtr => false
    case Ref(_) => false
    case Unsupported => false
    case _ => true
  }

  predicate DecodableSeq(vs: seq<Val>) {
    vs == [] || (Decodable(vs[0]) && DecodableSeq(vs[1..]))
  }

  predicate DecodableFields(fs: seq<Field>) {
    fs == [] || (
      assert fs[0] in fs && fs[0].v < fs[0];
      (fs[0].exported ==> Decodable(fs[0].v)) && DecodableFields(fs[1..]))
  }

  /** Every length fits the 16-bit length indicator. */
  predicate LengthsFit(v: Val) {
    match v
    case String(bs) => |bs| < TWO16
    case ByteSlice(bs) => |bs| < TWO16
    case ByteArray(bs) => |bs| < TWO16
    case Slice(_, vs) => |vs| < TWO16 && AllLengthsFit(vs)
    case Array(vs) => |vs| < TWO16 && AllLengthsFit(vs)
    case Struct(fs) => FieldLengthsFit(fs)
    case _ => true
  }

  predicate AllLengthsFit(vs: seq<Val>) {
    vs == [] || (LengthsFit(vs[0]) && AllLengthsFit(vs[1..]))
  }

  predicate FieldLengthsFit(fs: seq<Field>) {
    fs == [] || (
      assert fs[0] in fs && fs[0].v < fs[0];
      (fs[0].exported ==> LengthsFit(fs[0].v)) && FieldLengthsFit(fs[1..]))
  }

  /** What a location holds after v is stored into it: unexported fields and byte
      arrays keep their old contents, everything else is v. */
  function Merge(v: Val, loc: Val): (r: Val)
    decreases v
  {
    match v
    case ByteArray(_) => loc
    case Slice(z, vs) => Slice(z, MergeElems(z, vs))
    case Array(vs) => if loc.Array? && |vs| == |loc.vs| then Array(MergeArray(vs, loc.vs)) else v
    case Struct(fs) => if loc.Struct? && |fs| == |loc.fields| then Struct(MergeFields(fs, loc.fields)) else v
    case _ => v
  }

  function MergeElems(z: Val, vs: seq<Val>): (r: seq<Val>)
    ensures |r| == |vs|
    decreases vs
  {
    if vs == [] then [] else [Merge(vs[0], z)] + MergeElems(z, vs[1..])
  }

  function MergeArray(vs: seq<Val>, locs: seq<Val>): (r: seq<Val>)
    requires |vs| == |locs|
    decreases vs
  {
    if vs == [] then [] else [Merge(vs[0], locs[0])] + MergeArray(vs[1..], locs[1..])
  }

  function MergeFields(fs: seq<Field>, locs: seq<Field>): (r: seq<Field>)
    requires |fs| == |locs|
    decreases fs
  {
    if fs == [] then []
    else
      assert fs[0] in fs && fs[0].v < fs[0];
      [if fs[0].exported then Field(true, Merge(fs[0].v, locs[0].v)) else locs[0]] + MergeFields(fs[1..], locs[1..])
  }

  // -------------------------------------------------------------- round trip

  /** v is a value that a location `loc` of its type can receive. */
  predicate Sendable(v: Val, loc: Val) {
    WellTyped(v) && SameType(v, loc) && Decodable(loc) && LengthsFit(v)
  }

  /** The encoding of v, whatever follows it, decodes at loc to v and to its own length. */
  predicate ReadsBack(o: Order, v: Val, loc: Val, rest: Bytes) {
    var e := EncBase(o, v);
    e.Ok? && DecBase(o, loc, e.value + rest) == Ok(Decoded(Merge(v, loc), |e.value|))
  }

  predicate ElemsReadBack(o: Order, z: Val, vs: seq<Val>, rest: Bytes) {
    var e := EncElems(o, vs);
    e.Ok? && DecRepeat(o, z, |vs|, e.value + rest) == Ok(Decoded(MergeElems(z, vs), |e.value|))
  }

  predicate ArrayReadsBack(o: Order, vs: seq<Val>, locs: seq<Val>, rest: Bytes)
    requires |vs| == |locs|
  {
    var e := EncElems(o, vs);
    e.Ok? && DecPrefix(o, locs, |vs|, e.value + rest) == Ok(Decoded(MergeArray(vs, locs), |e.value|))
  }

  predicate FieldsReadBack(o: Order, fs: seq<Field>, locs: seq<Field>, rest: Bytes)
    requires |fs| == |locs|
  {
    var e := EncFields(o, fs);
    e.Ok? && DecFields(o, locs, e.value + rest) == Ok(Decoded(MergeFields(fs, locs), |e.value|))
  }

  /** Every value a location can receive arrives unchanged. */
  lemma {:induction false} RoundTrip(o: Order, v: Val, loc: Val, rest: Bytes)
    requires Sendable(v, loc)
    ensures ReadsBack(o, v, loc, rest)
    decreases v
  {
    match v
    case Uint(_, _) => IntReadsBack(o, v, loc, rest);
    case Int(_, _) => IntReadsBack(o, v, loc, rest);
    case Bool(_) =>
    case String(bs) => BytesReadBack(o, v, loc, rest);
    case ByteSlice(bs) => BytesReadBack(o, v, loc, rest);
    case ByteArray(bs) => BytesReadBack(o, v, loc, rest);
    case Slice(z, vs) =>
      RoundTripElems(o, z, vs, rest);
      SliceReadsBack(o, z, vs, loc, rest);
    case Array(vs) =>
      RoundTripArray(o, vs, loc.vs, rest);
      ArrayValueReadsBack(o, vs, loc, rest);
    case Struct(fs) =>
      RoundTripFields(o, fs, loc.fields, rest);
  }

  lemma IntReadsBack(o: Order, v: Val, loc: Val, rest: Bytes)
    requires (v.Uint? || v.Int?) && Sendable(v, loc)
    ensures ReadsBack(o, v, loc, rest)
  {
    var k := v.w.Bytes();
    var bs := PutUint(o, k, v.n);
    assert (bs + rest)[..k] == bs;
    PutThenGet(o, k, v.n);
    if v.Uint? {
      ModuloUnique(v.n, Pow256(k), 0, v.n);
    } else {
      SignedImage(v.n, Pow256(k));
    }
  }

  /** Counted bytes, whatever follows them, are read as they were. */
  lemma CountedBytesReadBack(o: Order, bs: Bytes, rest: Bytes)
    requires |bs| < TWO16
    ensures DecBytes(o, PutUint(o, 2, |bs|) + bs + rest) == Ok(bs)
  {
    LengthThenBody(o, |bs|, bs, rest);
  }

  lemma BytesReadBack(o: Order, v: Val, loc: Val, rest: Bytes)
    requires (v.String? || v.ByteSlice? || v.ByteArray?) && Sendable(v, loc)
    ensures ReadsBack(o, v, loc, rest)
  {
    CountedBytesReadBack(o, v.bs, rest);
  }

  lemma SliceReadsBack(o: Order, z: Val, vs: seq<Val>, loc: Val, rest: Bytes)
    requires loc.Slice? && loc.zero == z && |vs| < TWO16 && ElemsReadBack(o, z, vs, rest)
    ensures ReadsBack(o, Slice(z, vs), loc, rest)
  {
    LengthThenBody(o, |vs|, EncElems(o, vs).value, rest);
  }

  lemma ArrayValueReadsBack(o: Order, vs: seq<Val>, loc: Val, rest: Bytes)
    requires loc.Array? && |loc.vs| == |vs| < TWO16 && ArrayReadsBack(o, vs, loc.vs, rest)
    ensures ReadsBack(o, Array(vs), loc, rest)
  {
    LengthThenBody(o, |vs|, EncElems(o, vs).value, rest);
  }

  lemma {:induction false} RoundTripElems(o: Order, z: Val, vs: seq<Val>, rest: Bytes)
    requires WellTypedElems(z, vs) && Decodable(z) && AllLengthsFit(vs)
    ensures ElemsReadBack(o, z, vs, rest)
    decreases vs
  {
    if vs != [] {
      RoundTripElems(o, z, vs[1..], rest);
      var tail := EncElems(o, vs[1..]).value;
      RoundTrip(o, vs[0], z, tail + rest);
      ElemsReadBackStep(o, z, vs, rest);
    }
  }

  lemma ElemsReadBackStep(o: Order, z: Val, vs: seq<Val>, rest: Bytes)
    requires vs != [] && !vs[0].Ref? && !vs[0].NilPtr?
    requires ElemsReadBack(o, z, vs[1..], rest)
    requires ReadsBack(o, vs[0], z, EncElems(o, vs[1..]).value + rest)
    ensures ElemsReadBack(o, z, vs, rest)
  {
    var head, tail := EncBase(o, vs[0]).value, EncElems(o, vs[1..]).value;
    var buf, more := head + (tail + rest), tail + rest;
    EncodedOneMore(o, vs, head, tail);
    Regroup(head, tail, rest);
    DecodedOneMore(o, z, |vs| - 1, buf, more, Merge(vs[0], z), |head|, MergeElems(z, vs[1..]), |tail|);
  }

  lemma Regroup(a: Bytes, b: Bytes, c: Bytes)
    ensures a + b + c == a + (b + c) && (a + (b + c))[|a|..] == b + c
  {
  }

  lemma EncodedOneMore(o: Order, vs: seq<Val>, head: Bytes, tail: Bytes)
    requires vs != [] && !vs[0].Ref? && !vs[0].NilPtr?
    requires EncBase(o, vs[0]) == Ok(head) && EncElems(o, vs[1..]) == Ok(tail)
    ensures EncElems(o, vs) == Ok(head + tail)
  {
  }

  lemma DecodedOneMore(o: Order, z: Val, k: nat, buf: Bytes, more: Bytes, x: Val, n: nat, ys: seq<Val>, m: nat)
    requires DecBase(o, z, buf) == Ok(Decoded(x, n)) && buf[n..] == more
    requires DecRepeat(o, z, k, more) == Ok(Decoded(ys, m))
    ensures DecRepeat(o, z, k + 1, buf) == Ok(Decoded([x] + ys, n + m))
  {
    RepeatUnfold(o, z, k + 1, buf);
  }

  lemma {:induction false} RoundTripArray(o: Order, vs: seq<Val>, locs: seq<Val>, rest: Bytes)
    requires WellTypedSeq(vs) && SameTypes(vs, locs) && DecodableSeq(locs) && AllLengthsFit(vs)
    ensures |vs| == |locs| && ArrayReadsBack(o, vs, locs, rest)
    decreases vs
  {
    if vs != [] {
      RoundTripArray(o, vs[1..], locs[1..], rest);
      var head, tail := EncBase(o, vs[0]), EncElems(o, vs[1..]).value;
      RoundTrip(o, vs[0], locs[0], tail + rest);
      assert head.value + tail + rest == head.value + (tail + rest);
      assert (head.value + (tail + rest))[|head.value|..] == tail + rest;
    }
  }

  lemma {:induction false} RoundTripFields(o: Order, fs: seq<Field>, locs: seq<Field>, rest: Bytes)
    requires WellTypedFields(fs) && SameFieldTypes(fs, locs) && DecodableFields(locs) && FieldLengthsFit(fs)
    ensures |fs| == |locs| && FieldsReadBack(o, fs, locs, rest)
    decreases fs
  {
    if fs != [] {
      assert fs[0] in fs && fs[0].v < fs[0];
      RoundTripFields(o, fs[1..], locs[1..], rest);
      if fs[0].exported {
        var head, tail := EncBase(o, fs[0].v), EncFields(o, fs[1..]).value;
        RoundTrip(o, fs[0].v, locs[0].v, tail + rest);
        assert head.value + tail + rest == head.value + (tail + rest);
        assert (head.value + (tail + rest))[|head.value|..] == tail + rest;
      }
    }
  }

  /** A type all of whose fields are exported and that has no byte array. */
  predicate Plain(v: Val) {
    match v
    case ByteArray(_) => false
    case Slice(z, _) => Plain(z)
    case Array(vs) => PlainSeq(vs)
    case Struct(fs) => PlainFields(fs)
    case _ => true
  }

  predicate PlainSeq(vs: seq<Val>) {
    vs == [] || (Plain(vs[0]) && PlainSeq(vs[1..]))
  }

  predicate PlainFields(fs: seq<Field>) {
    fs == [] || (
      assert fs[0] in fs && fs[0].v < fs[0];
      fs[0].exported && Plain(fs[0].v) && PlainFields(fs[1..]))
  }

  /** For such types a decode leaves nothing of the old contents. */
  lemma {:induction false} MergePlain(v: Val, loc: Val)
    requires SameType(v, loc) && WellTyped(v) && Plain(loc)
    ensures Merge(v, loc) == v
    decreases v
  {
    match v
    case Slice(z, vs) => MergePlainElems(z, vs);
    case Array(vs) => if |vs| == |loc.vs| { MergePlainArray(vs, loc.vs); }
    case Struct(fs) => if |fs| == |loc.fields| { MergePlainFields(fs, loc.fields); }
    case _ =>
  }

  lemma {:induction false} MergePlainElems(z: Val, vs: seq<Val>)
    requires WellTypedElems(z, vs) && Plain(z)
    ensures MergeElems(z, vs) == vs
    decreases vs
  {
    if vs != [] {
      MergePlain(vs[0], z);
      MergePlainElems(z, vs[1..]);
    }
  }

  lemma {:induction false} MergePlainArray(vs: seq<Val>, locs: seq<Val>)
    requires SameTypes(vs, locs) && WellTypedSeq(vs) && PlainSeq(locs) && |vs| == |locs|
    ensures MergeArray(vs, locs) == vs
    decreases vs
  {
    if vs != [] {
      MergePlain(vs[0], locs[0]);
      MergePlainArray(vs[1..], locs[1..]);
    }
  }

  lemma {:induction false} MergePlainFields(fs: seq<Field>, locs: seq<Field>)
    requires SameFieldTypes(fs, locs) && WellTypedFields(fs) && PlainFields(locs) && |fs| == |locs|
    ensures MergeFields(fs, locs) == fs
    decreases fs
  {
    if fs != [] {
      assert fs[0] in fs && fs[0].v < fs[0];
      MergePlain(fs[0].v, locs[0].v);
      MergePlainFields(fs[1..], locs[1..]);
    }
  }

  /** Pointers are a one-way street: Encode follows an exported pointer field, Decode always
      fails on a struct that has one. */
  lemma {:induction false} PointerFieldNeverDecodes(o: Order, locs: seq<Field>, i: nat, buf: Bytes)
    requires i < |locs| && locs[i].exported && (locs[i].v.NilPtr? || locs[i].v.Ref?)
    ensures DecFields(o, locs, buf).Err?
    decreases i
  {
    assert locs[0] in locs && locs[0].v < locs[0];
    if i > 0 {
      if !locs[0].exported {
        PointerFieldNeverDecodes(o, locs[1..], i - 1, buf);
      } else if DecBase(o, locs[0].v, buf).Ok? {
        PointerFieldNeverDecodes(o, locs[1..], i - 1, buf[DecBase(o, locs[0].v, buf).value.n..]);
      }
    }
  }

  // ------------------------------------------------------- which types decode

  /** No pointer and no unsupported kind is reachable through exported struct fields.  What a slice or
      an array holds does not count, since it may be decoded with no elements. */
  predicate Settable(loc: Val)
    decreases loc, 0
  {
    match loc
    case NilPtr => false
    case Ref(_) => false
    case Unsupported => false
    case Struct(fs) => SettableFields(fs)
    case _ => true
  }

  predicate SettableFields(fs: seq<Field>)
    decreases fs, 0
  {
    fs == [] || (
      assert fs[0] in fs && fs[0].v < fs[0];
      (fs[0].exported ==> Settable(fs[0].v)) && SettableFields(fs[1..]))
  }

  /** The bytes that the emptiest value takes. */
  function Room(loc: Val): (n: nat)
    decreases loc, 0
  {
    match loc
    case Uint(w, _) => w.Bytes()
    case Int(w, _) => w.Bytes()
    case Bool(_) => 1
    case Struct(fs) => RoomForFields(fs)
    case _ => 2
  }

  function RoomForFields(fs: seq<Field>): (n: nat)
    decreases fs, 0
  {
    if fs == [] then 0
    else
      assert fs[0] in fs && fs[0].v < fs[0];
      (if fs[0].exported then Room(fs[0].v) else 0) + RoomForFields(fs[1..])
  }

  predicate AllZero(buf: Bytes) { forall i | 0 <= i < |buf| :: buf[i] == 0 }

  lemma {:induction false} ZeroIsZero(o: Order, s: Bytes)
    requires AllZero(s)
    ensures GetUint(o, s) == 0
  {
    if s != [] {
      if o.LittleEndian? { ZeroIsZero(o, s[1..]); } else { ZeroIsZero(o, s[..|s| - 1]); }
    }
  }

  /** Enough zero bytes decode at every such type, as its emptiest value. */
  lemma {:induction false} ZerosDecode(o: Order, loc: Val, buf: Bytes)
    requires Settable(loc) && AllZero(buf) && |buf| >= Room(loc)
    ensures DecBase(o, loc, buf).Ok? && DecBase(o, loc, buf).value.n == Room(loc)
    decreases loc, 0
  {
    if |buf| >= 2 { ZeroIsZero(o, buf[..2]); }
    if loc.Struct? { ZeroFieldsDecode(o, loc.fields, buf); }
  }

  lemma {:induction false} ZeroFieldsDecode(o: Order, fs: seq<Field>, buf: Bytes)
    requires SettableFields(fs) && AllZero(buf) && |buf| >= RoomForFields(fs)
    ensures DecFields(o, fs, buf).Ok? && DecFields(o, fs, buf).value.n == RoomForFields(fs)
    decreases fs, 0
  {
    if fs != [] {
      assert fs[0] in fs && fs[0].v < fs[0];
      if fs[0].exported {
        ZerosDecode(o, fs[0].v, buf);
        ZeroFieldsDecode(o, fs[1..], buf[Room(fs[0].v)..]);
      } else {
        ZeroFieldsDecode(o, fs[1..], buf);
      }
    }
  }

  lemma {:induction false} DecodedIsSettable(o: Order, loc: Val, buf: Bytes)
    requires DecBase(o, loc, buf).Ok?
    ensures Settable(loc)
    decreases loc, 0
  {
    if loc.Struct? { DecodedFieldsAreSettable(o, loc.fields, buf); }
  }

  lemma {:induction false} DecodedFieldsAreSettable(o: Order, fs: seq<Field>, buf: Bytes)
    requires DecFields(o, fs, buf).Ok?
    ensures SettableFields(fs)
    decreases fs, 0
  {
    if fs != [] {
      assert fs[0] in fs && fs[0].v < fs[0];
      if fs[0].exported {
        DecodedIsSettable(o, fs[0].v, buf);
        DecodedFieldsAreSettable(o, fs[1..], buf[DecBase(o, fs[0].v, buf).value.n..]);
      } else {
        DecodedFieldsAreSettable(o, fs[1..], buf);
      }
    }
  }

  /** Some message decodes into a location if and only if no pointer and no unsupported kind is
      reachable in it, at any depth of exported struct fields. */
  lemma DecodesIff(o: Order, loc: Val)
    ensures (exists buf :: DecBase(o, loc, buf).Ok?) <==> Settable(loc)
  {
    if Settable(loc) {
      var buf: Bytes := seq(Room(loc), i => 0);
      ZerosDecode(o, loc, buf);
    }
    if exists buf :: DecBase(o, loc, buf).Ok? {
      var buf :| DecBase(o, loc, buf).Ok?;
      DecodedIsSettable(o, loc, buf);
    }
  }

  // ---------------------------------------------------------------- locality

  /** b and c start with the same n bytes. */
  predicate Agree(b: Bytes, c: Bytes, n: nat) {
    n <= |b| && n <= |c| && b[..n] == c[..n]
  }

  lemma AgreeSplit(b: Bytes, c: Bytes, i: nat, n: nat)
    requires Agree(b, c, n) && i <= n
    ensures Agree(b, c, i) && Agree(b[i..], c[i..], n - i)
    ensures forall j | 0 <= j < n :: b[j] == c[j]
  {
    assert b[..i] == b[..n][..i] && c[..i] == c[..n][..i];
    assert b[i..][..n - i] == b[..n][i..] && c[i..][..n - i] == c[..n][i..];
    forall j | 0 <= j < n ensures b[j] == c[j] {
      assert b[j] == b[..n][j] && c[j] == c[..n][j];
    }
  }

  /** A successful decode depends only on the bytes it reports as consumed. */
  lemma {:induction false} DecodeLocal(o: Order, loc: Val, b: Bytes, c: Bytes)
    requires DecBase(o, loc, b).Ok? && Agree(b, c, DecBase(o, loc, b).value.n)
    ensures DecBase(o, loc, c) == DecBase(o, loc, b)
    decreases loc, 0
  {
    match loc
    case Slice(z, _) =>
      CountLocal(o, loc, b, c);
      RepeatLocal(o, z, GetUint16(o, b), b[2..], c[2..]);
    case Array(vs) =>
      CountLocal(o, loc, b, c);
      PrefixLocal(o, vs, GetUint16(o, b), b[2..], c[2..]);
    case Struct(fs) => FieldsLocal(o, fs, b, c);
    case _ => PlainLocal(o, loc, b, c);
  }

  lemma PlainLocal(o: Order, loc: Val, b: Bytes, c: Bytes)
    requires !loc.Slice? && !loc.Array? && !loc.Struct?
    requires DecBase(o, loc, b).Ok? && Agree(b, c, DecBase(o, loc, b).value.n)
    ensures DecBase(o, loc, c) == DecBase(o, loc, b)
  {
    if loc.Bool? { AgreeSplit(b, c, 1, 1); }
    if loc.String? || loc.ByteSlice? || loc.ByteArray? { DecBytesLocal(o, b, c); }
  }

  /** The element count of a slice or an array, and what follows it. */
  lemma CountLocal(o: Order, loc: Val, b: Bytes, c: Bytes)
    requires (loc.Slice? || loc.Array?) && DecBase(o, loc, b).Ok? && Agree(b, c, DecBase(o, loc, b).value.n)
    ensures |c| >= 2 && GetUint16(o, c) == GetUint16(o, b)
    ensures Agree(b[2..], c[2..], DecBase(o, loc, b).value.n - 2)
  {
    AgreeSplit(b, c, 2, DecBase(o, loc, b).value.n);
  }

  lemma DecBytesLocal(o: Order, b: Bytes, c: Bytes)
    requires DecBytes(o, b).Ok? && Agree(b, c, 2 + |DecBytes(o, b).value|)
    ensures DecBytes(o, c) == DecBytes(o, b)
  {
    var n := |DecBytes(o, b).value|;
    AgreeSplit(b, c, 2, 2 + n);
    assert b[2..2 + n] == b[2..][..n] && c[2..2 + n] == c[2..][..n];
  }

  lemma {:induction false} RepeatLocal(o: Order, z: Val, k: nat, b: Bytes, c: Bytes)
    requires DecRepeat(o, z, k, b).Ok? && Agree(b, c, DecRepeat(o, z, k, b).value.n)
    ensures DecRepeat(o, z, k, c) == DecRepeat(o, z, k, b)
    decreases z, 1, k
  {
    if k > 0 {
      var m := DecBase(o, z, b).value.n;
      AgreeSplit(b, c, m, DecRepeat(o, z, k, b).value.n);
      DecodeLocal(o, z, b, c);
      RepeatLocal(o, z, k - 1, b[m..], c[m..]);
    }
  }

  lemma {:induction false} PrefixLocal(o: Order, locs: seq<Val>, k: nat, b: Bytes, c: Bytes)
    requires k <= |locs| && DecPrefix(o, locs, k, b).Ok? && Agree(b, c, DecPrefix(o, locs, k, b).value.n)
    ensures DecPrefix(o, locs, k, c) == DecPrefix(o, locs, k, b)
    decreases locs, 0
  {
    if k > 0 {
      var m := DecBase(o, locs[0], b).value.n;
      AgreeSplit(b, c, m, DecPrefix(o, locs, k, b).value.n);
      DecodeLocal(o, locs[0], b, c);
      PrefixLocal(o, locs[1..], k - 1, b[m..], c[m..]);
    }
  }

  lemma {:induction false} FieldsLocal(o: Order, locs: seq<Field>, b: Bytes, c: Bytes)
    requires DecFields(o, locs, b).Ok? && Agree(b, c, DecFields(o, locs, b).value.n)
    ensures DecFields(o, locs, c) == DecFields(o, locs, b)
    decreases locs, 0
  {
    if locs != [] {
      assert locs[0] in locs && locs[0].v < locs[0];
      if locs[0].exported {
        var m := DecBase(o, locs[0].v, b).value.n;
        AgreeSplit(b, c, m, DecFields(o, locs, b).value.n);
        DecodeLocal(o, locs[0].v, b, c);
        FieldsLocal(o, locs[1..], b[m..], c[m..]);
      } else {
        FieldsLocal(o, locs[1..], b, c);
      }
    }
  }

  /** No message is a proper prefix of another: a decode of n bytes fails on every shorter prefix. */
  lemma StrictPrefixRejected(o: Order, loc: Val, buf: Bytes, k: nat)
    requires DecBase(o, loc, buf).Ok? && k < DecBase(o, loc, buf).value.n
    ensures DecBase(o, loc, buf[..k]).Err?
  {
    var d := DecBase(o, loc, buf[..k]);
    if d.Ok? {
      assert buf[..k][..d.value.n] == buf[..d.value.n];
      DecodeLocal(o, loc, buf[..k], buf);
    }
  }

  // --------------------------------------------------------------- canonicity

  /** A type without fixed-size arrays (and decodable). */
  predicate Dynamic(v: Val) {
    match v
    case Slice(z, _) => Dynamic(z)
    case Struct(fs) => DynamicFields(fs)
    case ByteArray(_) => false
    case Array(_) => false
    case NilPtr => false
    case Ref(_) => false
    case Unsupported => false
    case _ => true
  }

  predicate DynamicFields(fs: seq<Field>) {
    fs == [] || (
      assert fs[0] in fs && fs[0].v < fs[0];
      (fs[0].exported ==> Dynamic(fs[0].v)) && DynamicFields(fs[1..]))
  }

  /** d was decoded from buf into loc; it is well typed, and encodes to what was read. */
  predicate Canonical(o: Order, loc: Val, buf: Bytes, d: Decoded<Val>) {
    && d.n <= |buf| && EncBase(o, d.v) == Ok(buf[..d.n])
    && WellTyped(d.v) && SameType(d.v, loc) && LengthsFit(d.v)
  }

  predicate CanonicalElems(o: Order, z: Val, buf: Bytes, d: Decoded<seq<Val>>) {
    && d.n <= |buf| && EncElems(o, d.v) == Ok(buf[..d.n])
    && WellTypedElems(z, d.v) && AllLengthsFit(d.v)
  }

  predicate CanonicalFields(o: Order, locs: seq<Field>, buf: Bytes, d: Decoded<seq<Field>>) {
    && d.n <= |buf| && EncFields(o, d.v) == Ok(buf[..d.n])
    && WellTypedFields(d.v) && SameFieldTypes(d.v, locs) && FieldLengthsFit(d.v)
  }

  /** Re-encoding a decoded value reproduces exactly the bytes that were consumed. */
  lemma {:induction false} DecodeCanonical(o: Order, loc: Val, buf: Bytes)
    requires Dynamic(loc) && DecBase(o, loc, buf).Ok?
    ensures Canonical(o, loc, buf, DecBase(o, loc, buf).value)
    decreases loc, 0
  {
    match loc
    case Uint(_, _) => IntCanonical(o, loc, buf);
    case Int(_, _) => IntCanonical(o, loc, buf);
    case Bool(_) => assert buf[..1] == [buf[0]];
    case String(_) => LengthCanonical(o, buf, |DecBytes(o, buf).value|);
    case ByteSlice(_) => LengthCanonical(o, buf, |DecBytes(o, buf).value|);
    case Slice(z, _) =>
      RepeatCanonical(o, z, GetUint16(o, buf), buf[2..]);
      SliceCanonical(o, loc, buf);
    case Struct(fs) => FieldsCanonical(o, fs, buf);
  }

  lemma SliceCanonical(o: Order, loc: Val, buf: Bytes)
    requires loc.Slice? && DecBase(o, loc, buf).Ok?
    requires CanonicalElems(o, loc.zero, buf[2..], DecRepeat(o, loc.zero, GetUint16(o, buf), buf[2..]).value)
    ensures Canonical(o, loc, buf, DecBase(o, loc, buf).value)
  {
    var d := DecRepeat(o, loc.zero, GetUint16(o, buf), buf[2..]).value;
    LengthCanonical(o, buf, d.n);
    assert EncBase(o, Slice(loc.zero, d.v)) == Ok(PutUint(o, 2, |d.v|) + buf[2..][..d.n]);
  }

  lemma IntCanonical(o: Order, loc: Val, buf: Bytes)
    requires (loc.Uint? || loc.Int?) && DecBase(o, loc, buf).Ok?
    ensures Canonical(o, loc, buf, DecBase(o, loc, buf).value)
  {
    var k := loc.w.Bytes();
    var u, p := GetUint(o, buf[..k]), Pow256(k);
    GetThenPut(o, buf[..k]);
    SignedImage(u, p);
    ModuloUnique(u, p, 0, u);
    if loc.Int? {
      PutUintModulo(o, k, u, Signed(u, p));
    }
  }

  lemma LengthCanonical(o: Order, buf: Bytes, m: nat)
    requires 2 + m <= |buf|
    ensures PutUint(o, 2, GetUint16(o, buf)) + buf[2..2 + m] == buf[..2 + m]
    ensures buf[2..][..m] == buf[2..2 + m]
  {
    GetThenPut(o, buf[..2]);
  }

  lemma {:induction false} RepeatCanonical(o: Order, z: Val, k: nat, buf: Bytes)
    requires Dynamic(z) && DecRepeat(o, z, k, buf).Ok?
    ensures CanonicalElems(o, z, buf, DecRepeat(o, z, k, buf).value)
    decreases z, 1, k
  {
    if k > 0 {
      RepeatUnfold(o, z, k, buf);
      DecodeCanonical(o, z, buf);
      var d := DecBase(o, z, buf).value;
      RepeatCanonical(o, z, k - 1, buf[d.n..]);
      RepeatCanonicalStep(o, z, buf, d, DecRepeat(o, z, k - 1, buf[d.n..]).value);
    }
  }

  lemma RepeatCanonicalStep(o: Order, z: Val, buf: Bytes, d: Decoded<Val>, e: Decoded<seq<Val>>)
    requires Canonical(o, z, buf, d) && !d.v.Ref? && !d.v.NilPtr? && CanonicalElems(o, z, buf[d.n..], e)
    ensures CanonicalElems(o, z, buf, Decoded([d.v] + e.v, d.n + e.n))
  {
    assert ([d.v] + e.v)[1..] == e.v;
    assert buf[..d.n] + buf[d.n..][..e.n] == buf[..d.n + e.n];
  }

  lemma {:induction false} FieldsCanonical(o: Order, locs: seq<Field>, buf: Bytes)
    requires DynamicFields(locs) && DecFields(o, locs, buf).Ok?
    ensures CanonicalFields(o, locs, buf, DecFields(o, locs, buf).value)
    decreases locs, 0
  {
    if locs != [] {
      assert locs[0] in locs && locs[0].v < locs[0];
      if locs[0].exported {
        DecodeCanonical(o, locs[0].v, buf);
        var n := DecBase(o, locs[0].v, buf).value.n;
        FieldsCanonical(o, locs[1..], buf[n..]);
        var m := DecFields(o, locs[1..], buf[n..]).value.n;
        assert buf[..n] + buf[n..][..m] == buf[..n + m];
      } else {
        FieldsCanonical(o, locs[1..], buf);
      }
    }
  }

  // ------------------------------------------------- when lengths are at stake

  /** A value of a dynamic type survives the round trip if and only if its lengths fit 16 bits. */
  lemma RoundTripIff(o: Order, v: Val, loc: Val, rest: Bytes)
    requires WellTyped(v) && SameType(v, loc) && Dynamic(loc)
    ensures ReadsBack(o, v, loc, rest) <==> LengthsFit(v)
  {
    if LengthsFit(v) {
      DynamicIsDecodable(loc);
      RoundTrip(o, v, loc, rest);
    }
    if ReadsBack(o, v, loc, rest) {
      DecodeCanonical(o, loc, EncBase(o, v).value + rest);
      MergeLengths(v, loc);
    }
  }

  lemma {:induction false} DynamicIsDecodable(v: Val)
    requires Dynamic(v)
    ensures Decodable(v)
  {
    match v
    case Slice(z, _) => DynamicIsDecodable(z);
    case Struct(fs) => DynamicFieldsAreDecodable(fs);
    case _ =>
  }

  lemma {:induction false} DynamicFieldsAreDecodable(fs: seq<Field>)
    requires DynamicFields(fs)
    ensures DecodableFields(fs)
  {
    if fs != [] {
      assert fs[0] in fs && fs[0].v < fs[0];
      if fs[0].exported { DynamicIsDecodable(fs[0].v); }
      DynamicFieldsAreDecodable(fs[1..]);
    }
  }

  lemma {:induction false} MergeLengths(v: Val, loc: Val)
    requires SameType(v, loc) && WellTyped(v) && Dynamic(loc) && LengthsFit(Merge(v, loc))
    ensures LengthsFit(v)
    decreases v
  {
    match v
    case Slice(z, vs) => MergeElemLengths(z, vs);
    case Struct(fs) => if |fs| == |loc.fields| { MergeFieldLengths(fs, loc.fields); }
    case _ =>
  }

  lemma {:induction false} MergeElemLengths(z: Val, vs: seq<Val>)
    requires WellTypedElems(z, vs) && Dynamic(z) && AllLengthsFit(MergeElems(z, vs))
    ensures AllLengthsFit(vs)
    decreases vs
  {
    if vs != [] {
      MergeLengths(vs[0], z);
      assert MergeElems(z, vs)[1..] == MergeElems(z, vs[1..]);
      MergeElemLengths(z, vs[1..]);
    }
  }

  lemma {:induction false} MergeFieldLengths(fs: seq<Field>, locs: seq<Field>)
    requires SameFieldTypes(fs, locs) && WellTypedFields(fs) && DynamicFields(locs)
    requires |fs| == |locs| && FieldLengthsFit(MergeFields(fs, locs))
    ensures FieldLengthsFit(fs)
    decreases fs
  {
    if fs != [] {
      assert fs[0] in fs && fs[0].v < fs[0];
      assert MergeFields(fs, locs)[1..] == MergeFields(fs[1..], locs[1..]);
      if fs[0].exported { MergeLengths(fs[0].v, locs[0].v); }
      MergeFieldLengths(fs[1..], locs[1..]);
    }
  }

  /** The fewest bytes any value of v's type takes. */
  function MinSize(v: Val): nat {
    match v
    case Uint(w, _) => w.Bytes()
    case Int(w, _) => w.Bytes()
    case Bool(_) => 1
    case Struct(fs) => MinFieldsSize(fs)
    case NilPtr => 0
    case Ref(_) => 0
    case Unsupported => 0
    case _ => 2
  }

  function MinFieldsSize(fs: seq<Field>): nat {
    if fs == [] then 0
    else
      assert fs[0] in fs && fs[0].v < fs[0];
      (if fs[0].exported then MinSize(fs[0].v) else 0) + MinFieldsSize(fs[1..])
  }

  /** A type without pointers in which no slice or array element takes zero bytes. */
  predicate Dense(v: Val) {
    match v
    case NilPtr => false
    case Ref(_) => false
    case Unsupported => false
    case Slice(z, _) => MinSize(z) > 0 && Dense(z)
    case Array(vs) => DenseSeq(vs)
    case Struct(fs) => DenseFields(fs)
    case _ => true
  }

  predicate DenseSeq(vs: seq<Val>) {
    vs == [] || (MinSize(vs[0]) > 0 && Dense(vs[0]) && DenseSeq(vs[1..]))
  }

  predicate DenseFields(fs: seq<Field>) {
    fs == [] || (
      assert fs[0] in fs && fs[0].v < fs[0];
      (fs[0].exported ==> Dense(fs[0].v)) && DenseFields(fs[1..]))
  }

  /** Success in a buffer under 64 KiB already bounds every length. */
  lemma {:induction false} SmallMessageFits(o: Order, v: Val, loc: Val)
    requires WellTyped(v) && SameType(v, loc) && Dense(loc)
    requires EncBase(o, v).Ok? && |EncBase(o, v).value| < TWO16
    ensures LengthsFit(v) && MinSize(loc) <= |EncBase(o, v).value|
    decreases v
  {
    match v
    case Slice(z, vs) => SmallElemsFit(o, z, vs);
    case Array(vs) => SmallArrayFits(o, vs, loc.vs);
    case Struct(fs) => SmallFieldsFit(o, fs, loc.fields);
    case _ =>
  }

  lemma {:induction false} SmallElemsFit(o: Order, z: Val, vs: seq<Val>)
    requires WellTypedElems(z, vs) && Dense(z) && MinSize(z) > 0
    requires EncElems(o, vs).Ok? && |EncElems(o, vs).value| < TWO16
    ensures AllLengthsFit(vs) && |vs| <= |EncElems(o, vs).value|
    decreases vs
  {
    if vs != [] {
      SmallMessageFits(o, vs[0], z);
      SmallElemsFit(o, z, vs[1..]);
    }
  }

  lemma {:induction false} SmallArrayFits(o: Order, vs: seq<Val>, locs: seq<Val>)
    requires WellTypedSeq(vs) && SameTypes(vs, locs) && DenseSeq(locs)
    requires EncElems(o, vs).Ok? && |EncElems(o, vs).value| < TWO16
    ensures AllLengthsFit(vs) && |vs| <= |EncElems(o, vs).value|
    decreases vs
  {
    if vs != [] {
      SmallMessageFits(o, vs[0], locs[0]);
      SmallArrayFits(o, vs[1..], locs[1..]);
    }
  }

  lemma {:induction false} SmallFieldsFit(o: Order, fs: seq<Field>, locs: seq<Field>)
    requires WellTypedFields(fs) && SameFieldTypes(fs, locs) && DenseFields(locs)
    requires EncFields(o, fs).Ok? && |EncFields(o, fs).value| < TWO16
    ensures FieldLengthsFit(fs) && MinFieldsSize(locs) <= |EncFields(o, fs).value|
    decreases fs
  {
    if fs != [] {
      assert fs[0] in fs && fs[0].v < fs[0];
      if fs[0].exported { SmallMessageFits(o, fs[0].v, locs[0].v); }
      SmallFieldsFit(o, fs[1..], locs[1..]);
    }
  }
}

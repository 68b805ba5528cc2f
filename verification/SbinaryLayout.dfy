/**
 The bytes of an encoding, place by place: which byte of an integer stands
 where in either byte order, and where the parts of a composite value are.
 */
module SbinaryLayout {
  import opened GoTypes
  import opened Sbinary
  import opened SbinaryLaws

  /** Where the i-th least significant of k bytes stands: little-endian integers start with the
      least significant byte, big-endian ones end with it. */
  function Place(o: Order, k: nat, i: nat): nat
    requires i < k
  {
    match o case LittleEndian => i case BigEndian => k - 1 - i
  }

  /** s is n in base 256.  For a negative n this is two's complement, since `/` rounds down. */
  ghost predicate IsDigits(o: Order, n: int, s: Bytes) {
    forall i | 0 <= i < |s| :: s[Place(o, |s|, i)] == n / Pow256(i) % 256
  }

  lemma QuotientOfQuotient(n: int, p: int)
    requires p > 0
    ensures n / 256 / p == n / (256 * p)
  {
    DigitModulo(n, p);
    assert n == n / 256 * 256 + n % 256;
    var q, k := n / 256 / p, n / (256 * p);
    assert (k - q) * (256 * p) == 0;
    QuotientZero(k - q, 256 * p);
  }

  /** order.PutUint8/16/32/64 write the bytes of n, each in its place. */
  lemma {:induction false} PutDigits(o: Order, k: nat, n: int)
    ensures IsDigits(o, n, PutUint(o, k, n))
  {
    if k > 0 {
      PutDigits(o, k - 1, n / 256);
      var s, rest := PutUint(o, k, n), PutUint(o, k - 1, n / 256);
      forall i | 0 <= i < k ensures s[Place(o, k, i)] == n / Pow256(i) % 256 {
        if i > 0 {
          assert s[Place(o, k, i)] == rest[Place(o, k - 1, i - 1)];
          QuotientOfQuotient(n, Pow256(i - 1));
        }
      }
    }
  }

  /** order.Uint8/16/32/64 read the one integer below 256^k that has those bytes. */
  lemma GetDigits(o: Order, s: Bytes)
    ensures 0 <= GetUint(o, s) < Pow256(|s|) && IsDigits(o, GetUint(o, s), s)
  {
    GetThenPut(o, s);
    PutDigits(o, |s|, GetUint(o, s));
  }

  /** The two byte orders are each other's reversal. */
  lemma OrdersAreReversed(k: nat, n: int, j: nat)
    requires j < k
    ensures PutUint(BigEndian, k, n)[j] == PutUint(LittleEndian, k, n)[k - 1 - j]
  {
    PutDigits(BigEndian, k, n);
    PutDigits(LittleEndian, k, n);
    assert Place(BigEndian, k, k - 1 - j) == j && Place(LittleEndian, k, k - 1 - j) == k - 1 - j;
  }

  /** A negative integer is written as its two's complement. */
  lemma TwosComplement(o: Order, k: nat, n: int)
    requires -Pow256(k) <= n < 0
    ensures PutUint(o, k, n) == PutUint(o, k, n + Pow256(k))
  {
    ModuloUnique(n, Pow256(k), -1, n + Pow256(k));
    ModuloUnique(n + Pow256(k), Pow256(k), 0, n + Pow256(k));
    PutUintModulo(o, k, n, n + Pow256(k));
  }

  // --------------------------------------------------------------- whole values

  function Joined(parts: seq<Bytes>): Bytes {
    if parts == [] then [] else parts[0] + Joined(parts[1..])
  }

  /** s begins with the 16-bit length indicator of n. */
  ghost predicate Counted(o: Order, n: nat, s: Bytes) {
    |s| >= 2 && IsDigits(o, n, s[..2])
  }

  /** s is v as it goes over the wire: integers by their bytes, a bool as 0 or 1, bytes and elements
      after their length indicator, elements and exported fields one after another in their order,
      a pointer as what it points to. */
  ghost predicate LaidOut(o: Order, v: Val, s: Bytes)
    decreases v
  {
    match v
    case Uint(w, n) => |s| == w.Bytes() && IsDigits(o, n, s)
    case Int(w, n) => |s| == w.Bytes() && IsDigits(o, n, s)
    case Bool(b) => s == [if b then 1 else 0]
    case String(bs) => Counted(o, |bs|, s) && s[2..] == bs
    case ByteSlice(bs) => Counted(o, |bs|, s) && s[2..] == bs
    case ByteArray(bs) => Counted(o, |bs|, s) && s[2..] == bs
    case Slice(_, vs) => Counted(o, |vs|, s) && exists parts :: Joined(parts) == s[2..] && ElemsLaidOut(o, vs, parts)
    case Array(vs) => Counted(o, |vs|, s) && exists parts :: Joined(parts) == s[2..] && ElemsLaidOut(o, vs, parts)
    case Struct(fs) => exists parts :: Joined(parts) == s && FieldsLaidOut(o, fs, parts)
    case Ref(w) => LaidOut(o, w, s)
    case NilPtr => false
    case Unsupported => false
  }

  ghost predicate ElemsLaidOut(o: Order, vs: seq<Val>, parts: seq<Bytes>)
    decreases vs
  {
    |parts| == |vs| && forall i | 0 <= i < |vs| :: LaidOut(o, vs[i], parts[i])
  }

  ghost predicate FieldsLaidOut(o: Order, fs: seq<Field>, parts: seq<Bytes>)
    decreases fs
  {
    |parts| == |fs| && forall i | 0 <= i < |fs| :: FieldLaidOut(o, fs[i], parts[i])
  }

  /** A field that is not exported takes no bytes. */
  ghost predicate FieldLaidOut(o: Order, f: Field, s: Bytes)
    decreases f
  {
    if f.exported then LaidOut(o, f.v, s) else s == []
  }

  lemma CountLaidOut(o: Order, n: nat, body: Bytes)
    ensures Counted(o, n, PutUint(o, 2, n) + body) && (PutUint(o, 2, n) + body)[2..] == body
  {
    PutDigits(o, 2, n);
    assert (PutUint(o, 2, n) + body)[..2] == PutUint(o, 2, n);
  }

  /** What the encoder writes is the value, laid out. */
  lemma {:induction false} EncodingIsLaidOut(o: Order, v: Val)
    requires EncValue(o, v).Ok?
    ensures LaidOut(o, v, EncValue(o, v).value)
    decreases v
  {
    match v
    case Uint(w, n) => PutDigits(o, w.Bytes(), n);
    case Int(w, n) => PutDigits(o, w.Bytes(), n);
    case Bool(_) =>
    case String(bs) => CountLaidOut(o, |bs|, bs);
    case ByteSlice(bs) => CountLaidOut(o, |bs|, bs);
    case ByteArray(bs) => CountLaidOut(o, |bs|, bs);
    case Slice(_, vs) =>
      var parts := PartsOfElems(o, vs);
      CountLaidOut(o, |vs|, Joined(parts));
    case Array(vs) =>
      var parts := PartsOfElems(o, vs);
      CountLaidOut(o, |vs|, Joined(parts));
    case Struct(fs) =>
      var parts := PartsOfFields(o, fs);
    case Ref(w) => EncodingIsLaidOut(o, w);
  }

  lemma {:induction false} PartsOfElems(o: Order, vs: seq<Val>) returns (parts: seq<Bytes>)
    requires EncElems(o, vs).Ok?
    ensures Joined(parts) == EncElems(o, vs).value && ElemsLaidOut(o, vs, parts)
    decreases vs
  {
    parts := [];
    if vs != [] {
      EncodingIsLaidOut(o, vs[0]);
      var rest := PartsOfElems(o, vs[1..]);
      parts := [EncValue(o, vs[0]).value] + rest;
      assert parts[1..] == rest;
      forall i | 0 < i < |vs| ensures LaidOut(o, vs[i], parts[i]) {
        assert LaidOut(o, vs[1..][i - 1], rest[i - 1]);
      }
    }
  }

  lemma {:induction false} PartsOfFields(o: Order, fs: seq<Field>) returns (parts: seq<Bytes>)
    requires EncFields(o, fs).Ok?
    ensures Joined(parts) == EncFields(o, fs).value && FieldsLaidOut(o, fs, parts)
    decreases fs
  {
    parts := [];
    if fs != [] {
      assert fs[0] in fs && fs[0].v < fs[0];
      var head := [];
      if fs[0].exported {
        EncodingIsLaidOut(o, fs[0].v);
        head := EncValue(o, fs[0].v).value;
      }
      var rest := PartsOfFields(o, fs[1..]);
      parts := [head] + rest;
      assert parts[1..] == rest;
      forall i | 0 < i < |fs| ensures FieldLaidOut(o, fs[i], parts[i]) {
        assert FieldLaidOut(o, fs[1..][i - 1], rest[i - 1]);
      }
    }
  }

  /** What the decoder takes a message for is laid out in the bytes that it reads. */
  lemma DecodedIsLaidOut(o: Order, loc: Val, buf: Bytes)
    requires Dynamic(loc) && DecBase(o, loc, buf).Ok?
    ensures var d := DecBase(o, loc, buf).value; LaidOut(o, d.v, buf[..d.n])
  {
    DecodeCanonical(o, loc, buf);
    EncodingIsLaidOut(o, DecBase(o, loc, buf).value.v);
  }
}

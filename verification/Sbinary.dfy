/**
 The sbinary codec (pkg/encoding/sbinary/sbinary.go) as a pure specification.

 As with Go's reflect.Value, a `Val` carries its kind along with its contents.
 `Enc*` is what the encoder writes.  `Dec*` is what the decoder leaves in a
 settable location (given as the value the location held before) and how many
 bytes it consumes.
 */
module Sbinary {
  import opened GoTypes

  datatype Order = LittleEndian | BigEndian

  datatype Width = W1 | W2 | W4 | W8 {
    function Bytes(): (n: nat) {
      match this case W1 => 1 case W2 => 2 case W4 => 4 case W8 => 8
    }
  }

  /** ByteSlice is []byte and ByteArray is [n]byte.  A Slice keeps the zero value
      of its element type, which reflect.MakeSlice puts in every new element. */
  datatype Val =
    | Uint(w: Width, n: int)
    | Int(w: Width, n: int)
    | Bool(b: bool)
    | String(bs: Bytes)
    | ByteSlice(bs: Bytes)
    | ByteArray(bs: Bytes)
    | Slice(zero: Val, vs: seq<Val>)
    | Array(vs: seq<Val>)
    | Struct(fields: seq<Field>)
    | NilPtr
    | Ref(target: Val)
    | Unsupported

  datatype Field = Field(exported: bool, v: Val)

  datatype Error = BufferTooSmall | NilPointer | PtrToPtr | NotSupported | IllegalBool | ArrayTooSmall | NotAPointer

  // ---------------------------------------------------------------- integers

  function Pow256(k: nat): (r: int)
    ensures r >= 1 && (k > 0 ==> r % 2 == 0)
  {
    if k == 0 then 1 else 256 * Pow256(k - 1)
  }

  /** The k low bytes of n. */
  function PutUint(o: Order, k: nat, n: int): (r: Bytes)
    ensures |r| == k
  {
    if k == 0 then []
    else if o.LittleEndian? then [n % 256] + PutUint(o, k - 1, n / 256)
    else PutUint(o, k - 1, n / 256) + [n % 256]
  }

  function GetUint(o: Order, s: Bytes): (r: int)
    ensures 0 <= r < Pow256(|s|)
  {
    if s == [] then 0
    else if o.LittleEndian? then s[0] + 256 * GetUint(o, s[1..])
    else GetUint(o, s[..|s| - 1]) * 256 + s[|s| - 1]
  }

  /** SetInt on the unsigned image u: its top bit is the sign. */
  function Signed(u: int, p: int): int {
    if u < p / 2 then u else u - p
  }

  function GetUint16(o: Order, buf: Bytes): (r: nat)
    requires |buf| >= 2
    ensures r < TWO16
  {
    assert Pow256(2) == TWO16 by { assert Pow256(1) == 256 * Pow256(0); }
    GetUint(o, buf[..2])
  }

  // ---------------------------------------------------------------- encoding

  type EncResult = Result<Bytes, Error>

  /** r with `head` in front of the bytes, if there are bytes. */
  function Prepend(head: EncResult, r: EncResult): EncResult {
    if head.Err? then head else if r.Err? then r else Ok(head.value + r.value)
  }

  /** encode_value: one pointer is followed, a pointer to a pointer is refused. */
  function EncValue(o: Order, v: Val): (r: EncResult)
    decreases v, 1
  {
    match v
    case NilPtr => Err(NilPointer)
    case Ref(w) => EncBase(o, w)
    case _ => EncBase(o, v)
  }

  function EncBase(o: Order, v: Val): (r: EncResult)
    decreases v, 0
  {
    match v
    case NilPtr => Err(PtrToPtr)
    case Ref(_) => Err(PtrToPtr)
    case Unsupported => Err(NotSupported)
    case Uint(w, n) => Ok(PutUint(o, w.Bytes(), n))
    case Int(w, n) => Ok(PutUint(o, w.Bytes(), n))
    case Bool(b) => Ok([if b then 1 else 0])
    case String(bs) => Ok(PutUint(o, 2, |bs|) + bs)
    case ByteSlice(bs) => Ok(PutUint(o, 2, |bs|) + bs)
    case ByteArray(bs) => Ok(PutUint(o, 2, |bs|) + bs)
    case Slice(_, vs) => Prepend(Ok(PutUint(o, 2, |vs|)), EncElems(o, vs))
    case Array(vs) => Prepend(Ok(PutUint(o, 2, |vs|)), EncElems(o, vs))
    case Struct(fs) => EncFields(o, fs)
  }

  function EncElems(o: Order, vs: seq<Val>): (r: EncResult)
    decreases vs, 0
  {
    if vs == [] then Ok([]) else Prepend(EncValue(o, vs[0]), EncElems(o, vs[1..]))
  }

  function EncFields(o: Order, fs: seq<Field>): (r: EncResult)
    decreases fs, 0
  {
    if fs == [] then Ok([])
    else if !fs[0].exported then EncFields(o, fs[1..])
    else
      assert fs[0] in fs && fs[0].v < fs[0];
      Prepend(EncValue(o, fs[0].v), EncFields(o, fs[1..]))
  }

  // ---------------------------------------------------------------- decoding

  /** A decoded thing and the number of bytes it took. */
  datatype Decoded<+T> = Decoded(v: T, n: nat)
  type DecResult<+T> = Result<Decoded<T>, Error>

  /** r with the element x, decoded from n bytes, in front. */
  function Push<T>(x: T, n: nat, r: DecResult<seq<T>>): DecResult<seq<T>> {
    if r.Err? then r else Ok(Decoded([x] + r.value.v, n + r.value.n))
  }

  /** A 2-byte length indicator and that many bytes. */
  function DecBytes(o: Order, buf: Bytes): (r: Result<Bytes, Error>)
    ensures r.Ok? ==> 2 + |r.value| <= |buf| && r.value == buf[2..2 + |r.value|]
    ensures r.Ok? ==> |r.value| < TWO16
  {
    if |buf| < 2 then Err(BufferTooSmall)
    else
      var n := GetUint16(o, buf);
      if |buf| - 2 < n then Err(BufferTooSmall) else Ok(buf[2..2 + n])
  }

  /** decode_value into a location, after it has followed the pointer to the location. */
  function DecBase(o: Order, loc: Val, buf: Bytes): (r: DecResult<Val>)
    ensures r.Ok? ==> r.value.n <= |buf|
    decreases loc, 0
  {
    match loc
    case NilPtr => Err(PtrToPtr)
    case Ref(_) => Err(PtrToPtr)
    case Unsupported => Err(NotSupported)
    case Uint(w, _) =>
      if |buf| < w.Bytes() then Err(BufferTooSmall)
      else Ok(Decoded(Uint(w, GetUint(o, buf[..w.Bytes()])), w.Bytes()))
    case Int(w, _) =>
      if |buf| < w.Bytes() then Err(BufferTooSmall)
      else Ok(Decoded(Int(w, Signed(GetUint(o, buf[..w.Bytes()]), Pow256(w.Bytes()))), w.Bytes()))
    case Bool(_) =>
      if |buf| < 1 then Err(BufferTooSmall)
      else if buf[0] > 1 then Err(IllegalBool)
      else Ok(Decoded(Bool(buf[0] == 1), 1))
    case String(_) =>
      var d := DecBytes(o, buf);
      if d.Err? then Err(d.error) else Ok(Decoded(String(d.value), 2 + |d.value|))
    case ByteSlice(_) =>
      var d := DecBytes(o, buf);
      if d.Err? then Err(d.error) else Ok(Decoded(ByteSlice(d.value), 2 + |d.value|))
    case ByteArray(_) =>
      // the bytes are consumed, but only strings and slices are stored
      var d := DecBytes(o, buf);
      if d.Err? then Err(d.error) else Ok(Decoded(loc, 2 + |d.value|))
    case Slice(z, _) =>
      if |buf| < 2 then Err(BufferTooSmall)
      else
        var d := DecRepeat(o, z, GetUint16(o, buf), buf[2..]);
        if d.Err? then Err(d.error) else Ok(Decoded(Slice(z, d.value.v), 2 + d.value.n))
    case Array(vs) =>
      if |buf| < 2 then Err(BufferTooSmall)
      else if GetUint16(o, buf) > |vs| then Err(ArrayTooSmall)
      else
        var d := DecPrefix(o, vs, GetUint16(o, buf), buf[2..]);
        if d.Err? then Err(d.error) else Ok(Decoded(Array(d.value.v), 2 + d.value.n))
    case Struct(fs) =>
      var d := DecFields(o, fs, buf);
      if d.Err? then Err(d.error) else Ok(Decoded(Struct(d.value.v), d.value.n))
  }

  /** Decoding into the k elements of a new slice, each holding `zero`. */
  function DecRepeat(o: Order, zero: Val, k: nat, buf: Bytes): (r: DecResult<seq<Val>>)
    ensures r.Ok? ==> r.value.n <= |buf| && |r.value.v| == k
    decreases zero, 1, k
  {
    if k == 0 then Ok(Decoded([], 0))
    else
      var d := DecBase(o, zero, buf);
      if d.Err? then Err(d.error)
      else Push(d.value.v, d.value.n, DecRepeat(o, zero, k - 1, buf[d.value.n..]))
  }

  /** One round of DecRepeat. */
  lemma RepeatUnfold(o: Order, z: Val, k: nat, buf: Bytes)
    requires k > 0
    ensures var d := DecBase(o, z, buf);
      DecRepeat(o, z, k, buf)
        == if d.Err? then Err(d.error) else Push(d.value.v, d.value.n, DecRepeat(o, z, k - 1, buf[d.value.n..]))
  {
  }

  /** Decoding into the first k elements of an array; the others keep their contents. */
  function DecPrefix(o: Order, locs: seq<Val>, k: nat, buf: Bytes): (r: DecResult<seq<Val>>)
    requires k <= |locs|
    ensures r.Ok? ==> r.value.n <= |buf| && |r.value.v| == |locs|
    decreases locs, 0
  {
    if k == 0 then Ok(Decoded(locs, 0))
    else
      var d := DecBase(o, locs[0], buf);
      if d.Err? then Err(d.error)
      else Push(d.value.v, d.value.n, DecPrefix(o, locs[1..], k - 1, buf[d.value.n..]))
  }

  /** One round of DecPrefix. */
  lemma PrefixUnfold(o: Order, locs: seq<Val>, k: nat, buf: Bytes)
    requires 0 < k <= |locs|
    ensures var d := DecBase(o, locs[0], buf);
      DecPrefix(o, locs, k, buf)
        == if d.Err? then Err(d.error) else Push(d.value.v, d.value.n, DecPrefix(o, locs[1..], k - 1, buf[d.value.n..]))
  {
  }

  /** Fields that are not exported are skipped and keep their contents. */
  function DecFields(o: Order, locs: seq<Field>, buf: Bytes): (r: DecResult<seq<Field>>)
    ensures r.Ok? ==> r.value.n <= |buf| && |r.value.v| == |locs|
    decreases locs, 0
  {
    if locs == [] then Ok(Decoded([], 0))
    else if !locs[0].exported then Push(locs[0], 0, DecFields(o, locs[1..], buf))
    else
      assert locs[0] in locs && locs[0].v < locs[0];
      var d := DecBase(o, locs[0].v, buf);
      if d.Err? then Err(d.error)
      else Push(Field(true, d.value.v), d.value.n, DecFields(o, locs[1..], buf[d.value.n..]))
  }

  // ------------------------------------------------------------ entry points

  /** Encode(buf, order, data), on a buffer with room for everything. */
  function Encode(o: Order, data: Val): (r: EncResult) {
    EncValue(o, data)
  }

  /** Decode(buf, order, &loc): data must be a non-nil pointer. */
  function Decode(o: Order, data: Val, buf: Bytes): (r: DecResult<Val>) {
    if data.Ref? then DecBase(o, data.target, buf) else Err(NotAPointer)
  }
}

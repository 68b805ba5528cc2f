/**
 What sbinary leaves behind when it fails: the bytes the encoder has written, the
 values the decoder has stored, and the counts they return; and that without a
 failure this is the format of `Sbinary`.
 */
module SbinaryAttempts {
  import opened GoTypes
  import opened Sbinary

  // ---------------------------------------------------------------- encoding

  /** An attempt to encode into a buffer: the bytes it writes, the count and the error it returns. */
  datatype Attempt = Attempt(written: Bytes, n: nat, err: Option<Error>)

  /** The attempt keeps to its room, and without an error it counts every byte. */
  predicate Within(t: Attempt, room: nat) {
    |t.written| <= room && t.n <= |t.written| && (t.err.None? ==> t.n == |t.written|)
  }

  const NOTHING := Attempt([], 0, None)

  function Refused(e: Error): Attempt { Attempt([], 0, Some(e)) }

  /** What is written in one piece is written whole or not at all. */
  function Leaf(bs: Bytes, room: nat): (t: Attempt)
    ensures Within(t, room)
  {
    if room < |bs| then Refused(BufferTooSmall) else Attempt(bs, |bs|, None)
  }

  /** An element, then the rest of the loop.  A loop that fails counts the elements before. */
  function Cons(t: Attempt, rest: Attempt): Attempt {
    if t.err.Some? then Attempt(t.written, 0, t.err)
    else Attempt(t.written + rest.written, t.n + rest.n, rest.err)
  }

  function TryValue(o: Order, v: Val, room: nat): (t: Attempt)
    ensures Within(t, room)
    decreases v, 1
  {
    match v
    case NilPtr => Refused(NilPointer)
    case Ref(w) => TryBase(o, w, room)
    case _ => TryBase(o, v, room)
  }

  function TryBase(o: Order, v: Val, room: nat): (t: Attempt)
    ensures Within(t, room)
    decreases v, 0
  {
    match v
    case NilPtr => Refused(PtrToPtr)
    case Ref(_) => Refused(PtrToPtr)
    case Unsupported => Refused(NotSupported)
    case Uint(w, n) => Leaf(PutUint(o, w.Bytes(), n), room)
    case Int(w, n) => Leaf(PutUint(o, w.Bytes(), n), room)
    case Bool(b) => Leaf([if b then 1 else 0], room)
    case String(bs) => Leaf(PutUint(o, 2, |bs|) + bs, room)
    case ByteSlice(bs) => Leaf(PutUint(o, 2, |bs|) + bs, room)
    case ByteArray(bs) => Leaf(PutUint(o, 2, |bs|) + bs, room)
    case Slice(_, vs) => if room < 2 then Refused(BufferTooSmall) else Counted(o, |vs|, TryElems(o, vs, room - 2))
    case Array(vs) => if room < 2 then Refused(BufferTooSmall) else Counted(o, |vs|, TryElems(o, vs, room - 2))
    case Struct(fs) => TryFields(o, fs, room)
  }

  function Counted(o: Order, k: nat, t: Attempt): Attempt { Attempt(PutUint(o, 2, k) + t.written, 2 + t.n, t.err) }

  function TryElems(o: Order, vs: seq<Val>, room: nat): (t: Attempt)
    ensures Within(t, room)
    decreases vs, 0
  {
    if vs == [] then NOTHING
    else
      var t := TryValue(o, vs[0], room);
      Cons(t, if t.err.Some? then NOTHING else TryElems(o, vs[1..], room - |t.written|))
  }

  function TryFields(o: Order, fs: seq<Field>, room: nat): (t: Attempt)
    ensures Within(t, room)
    decreases fs, 0
  {
    if fs == [] then NOTHING
    else if !fs[0].exported then TryFields(o, fs[1..], room)
    else
      assert fs[0] in fs && fs[0].v < fs[0];
      var t := TryValue(o, fs[0].v, room);
      Cons(t, if t.err.Some? then NOTHING else TryFields(o, fs[1..], room - |t.written|))
  }

  /** The attempt succeeds exactly if the value is supported and its encoding fits; then it writes the
      encoding, and in any case no more than a prefix of it. */
  predicate Agrees(t: Attempt, e: EncResult, room: nat) {
    && (t.err.None? <==> e.Ok? && |e.value| <= room)
    && (t.err.None? ==> t.written == e.value)
    && (e.Ok? ==> t.written <= e.value)
  }

  lemma ConsAgrees(t: Attempt, e: EncResult, rest: Attempt, f: EncResult, room: nat)
    requires Within(t, room) && Agrees(t, e, room) && (t.err.None? ==> Agrees(rest, f, room - |t.written|))
    ensures Agrees(Cons(t, rest), Prepend(e, f), room)
  {
    if e.Ok? && f.Ok? {
      assert t.written <= e.value + f.value;
      assert t.err.None? ==> t.written + rest.written <= e.value + f.value;
    }
  }

  lemma CountedAgrees(o: Order, k: nat, t: Attempt, e: EncResult, room: nat)
    requires Agrees(t, e, room)
    ensures Agrees(Counted(o, k, t), Prepend(Ok(PutUint(o, 2, k)), e), room + 2)
  {
    if e.Ok? {
      assert PutUint(o, 2, k) + t.written <= PutUint(o, 2, k) + e.value;
    }
  }

  lemma {:induction false} AttemptAgrees(o: Order, v: Val, room: nat)
    ensures Agrees(TryBase(o, v, room), EncBase(o, v), room)
    decreases v, 0
  {
    match v
    case Slice(_, vs) =>
      if room >= 2 {
        ElemsAgree(o, vs, room - 2);
        CountedAgrees(o, |vs|, TryElems(o, vs, room - 2), EncElems(o, vs), room - 2);
      } else {
        TooSmallAgrees(o, |vs|, EncElems(o, vs), room);
      }
    case Array(vs) =>
      if room >= 2 {
        ElemsAgree(o, vs, room - 2);
        CountedAgrees(o, |vs|, TryElems(o, vs, room - 2), EncElems(o, vs), room - 2);
      } else {
        TooSmallAgrees(o, |vs|, EncElems(o, vs), room);
      }
    case Struct(fs) => FieldsAgree(o, fs, room);
    case _ =>
  }

  lemma TooSmallAgrees(o: Order, k: nat, e: EncResult, room: nat)
    requires room < 2
    ensures Agrees(Refused(BufferTooSmall), Prepend(Ok(PutUint(o, 2, k)), e), room)
  {
  }

  lemma {:induction false} ValueAgrees(o: Order, v: Val, room: nat)
    ensures Agrees(TryValue(o, v, room), EncValue(o, v), room)
    decreases v, 1
  {
    if v.Ref? {
      AttemptAgrees(o, v.target, room);
    } else if !v.NilPtr? {
      AttemptAgrees(o, v, room);
    }
  }

  lemma {:induction false} ElemsAgree(o: Order, vs: seq<Val>, room: nat)
    ensures Agrees(TryElems(o, vs, room), EncElems(o, vs), room)
    decreases vs, 0
  {
    if vs != [] {
      var t := TryValue(o, vs[0], room);
      ValueAgrees(o, vs[0], room);
      if t.err.None? { ElemsAgree(o, vs[1..], room - |t.written|); }
      var rest := if t.err.Some? then NOTHING else TryElems(o, vs[1..], room - |t.written|);
      ConsAgrees(t, EncValue(o, vs[0]), rest, EncElems(o, vs[1..]), room);
    }
  }

  lemma {:induction false} FieldsAgree(o: Order, fs: seq<Field>, room: nat)
    ensures Agrees(TryFields(o, fs, room), EncFields(o, fs), room)
    decreases fs, 0
  {
    if fs != [] {
      assert fs[0] in fs && fs[0].v < fs[0];
      if !fs[0].exported {
        FieldsAgree(o, fs[1..], room);
      } else {
        var t := TryValue(o, fs[0].v, room);
        ValueAgrees(o, fs[0].v, room);
        if t.err.None? { FieldsAgree(o, fs[1..], room - |t.written|); }
        var rest := if t.err.Some? then NOTHING else TryFields(o, fs[1..], room - |t.written|);
        ConsAgrees(t, EncValue(o, fs[0].v), rest, EncFields(o, fs[1..]), room);
      }
    }
  }

  // ---------------------------------------------------------------- decoding

  /** A decode into a location: what the location holds then, the count and the error returned. */
  datatype Stored<T> = Stored(v: T, n: nat, err: Option<Error>)

  function Failed<T>(v: T, n: nat, e: Error): Stored<T> { Stored(v, n, Some(e)) }

  /** An element, then the rest of the loop; `left` is what the locations after a failed element hold. */
  function Onto<T>(v: T, n: nat, err: Option<Error>, rest: Stored<seq<T>>, left: seq<T>): Stored<seq<T>> {
    if err.Some? then Stored([v] + left, 0, err) else Stored([v] + rest.v, n + rest.n, rest.err)
  }

  /** A string or bytes: the failure may come after the length indicator. */
  predicate IsBytes(loc: Val) { loc.String? || loc.ByteSlice? || loc.ByteArray? }

  /** What is read in one piece is stored whole or not at all. */
  function StoreLeaf(loc: Val, room: nat, r: DecResult<Val>): (d: Stored<Val>) {
    if r.Ok? then Stored(r.value.v, r.value.n, None)
    else Failed(loc, if IsBytes(loc) && room >= 2 then 2 else 0, r.error)
  }

  function Copies(v: Val, k: nat): seq<Val> { if k == 0 then [] else [v] + Copies(v, k - 1) }

  function StoreBase(o: Order, loc: Val, buf: Bytes): (d: Stored<Val>)
    ensures d.n <= |buf|
    decreases loc, 0
  {
    match loc
    case Slice(z, _) =>
      if |buf| < 2 then Failed(loc, 0, BufferTooSmall)
      else
        var d := StoreRepeat(o, z, GetUint16(o, buf), buf[2..]);
        Stored(Slice(z, d.v), 2 + d.n, d.err)
    case Array(vs) =>
      if |buf| < 2 then Failed(loc, 0, BufferTooSmall)
      else if GetUint16(o, buf) > |vs| then Failed(loc, 2, ArrayTooSmall)
      else
        var d := StorePrefix(o, vs, GetUint16(o, buf), buf[2..]);
        Stored(Array(d.v), 2 + d.n, d.err)
    case Struct(fs) =>
      var d := StoreFields(o, fs, buf);
      Stored(Struct(d.v), d.n, d.err)
    case _ => StoreLeaf(loc, |buf|, DecBase(o, loc, buf))
  }

  /** The elements of a new slice; those after a failed one keep their zero value. */
  function StoreRepeat(o: Order, zero: Val, k: nat, buf: Bytes): (d: Stored<seq<Val>>)
    ensures d.n <= |buf|
    decreases zero, 1, k
  {
    if k == 0 then Stored([], 0, None)
    else
      var d := StoreBase(o, zero, buf);
      Onto(d.v, d.n, d.err, if d.err.Some? then Stored([], 0, None) else StoreRepeat(o, zero, k - 1, buf[d.n..]),
           Copies(zero, k - 1))
  }

  function StorePrefix(o: Order, locs: seq<Val>, k: nat, buf: Bytes): (d: Stored<seq<Val>>)
    requires k <= |locs|
    ensures d.n <= |buf|
    decreases locs, 0
  {
    if k == 0 then Stored(locs, 0, None)
    else
      var d := StoreBase(o, locs[0], buf);
      Onto(d.v, d.n, d.err, if d.err.Some? then Stored([], 0, None) else StorePrefix(o, locs[1..], k - 1, buf[d.n..]),
           locs[1..])
  }

  function StoreFields(o: Order, locs: seq<Field>, buf: Bytes): (d: Stored<seq<Field>>)
    ensures d.n <= |buf|
    decreases locs, 0
  {
    if locs == [] then Stored([], 0, None)
    else if !locs[0].exported then Onto(locs[0], 0, None, StoreFields(o, locs[1..], buf), [])
    else
      assert locs[0] in locs && locs[0].v < locs[0];
      var d := StoreBase(o, locs[0].v, buf);
      Onto(Field(true, d.v), d.n, d.err,
           if d.err.Some? then Stored([], 0, None) else StoreFields(o, locs[1..], buf[d.n..]), locs[1..])
  }

  /** The result without what a failure leaves behind. */
  function Read<T>(d: Stored<T>): DecResult<T> {
    if d.err.Some? then Err(d.err.value) else Ok(Decoded(d.v, d.n))
  }

  lemma OntoReads<T>(v: T, n: nat, err: Option<Error>, rest: Stored<seq<T>>, left: seq<T>)
    ensures Read(Onto(v, n, err, rest, left)) == if err.Some? then Err(err.value) else Push(v, n, Read(rest))
  {
  }

  /** The unfolding of both sides at a slice, and at an array that is large enough. */
  lemma SliceUnfolds(o: Order, z: Val, vs: seq<Val>, buf: Bytes)
    requires |buf| >= 2
    ensures var d := StoreRepeat(o, z, GetUint16(o, buf), buf[2..]);
      StoreBase(o, Slice(z, vs), buf) == Stored(Slice(z, d.v), 2 + d.n, d.err)
  {
  }

  lemma DecodedSliceUnfolds(o: Order, z: Val, vs: seq<Val>, buf: Bytes)
    requires |buf| >= 2
    ensures var d := DecRepeat(o, z, GetUint16(o, buf), buf[2..]);
      DecBase(o, Slice(z, vs), buf) == if d.Err? then Err(d.error) else Ok(Decoded(Slice(z, d.value.v), 2 + d.value.n))
  {
  }

  lemma ArrayUnfolds(o: Order, vs: seq<Val>, buf: Bytes)
    requires |buf| >= 2 && GetUint16(o, buf) <= |vs|
    ensures var d := StorePrefix(o, vs, GetUint16(o, buf), buf[2..]);
      StoreBase(o, Array(vs), buf) == Stored(Array(d.v), 2 + d.n, d.err)
  {
  }

  lemma DecodedArrayUnfolds(o: Order, vs: seq<Val>, buf: Bytes)
    requires |buf| >= 2 && GetUint16(o, buf) <= |vs|
    ensures var d := DecPrefix(o, vs, GetUint16(o, buf), buf[2..]);
      DecBase(o, Array(vs), buf) == if d.Err? then Err(d.error) else Ok(Decoded(Array(d.value.v), 2 + d.value.n))
  {
  }

  lemma SliceReads(o: Order, z: Val, vs: seq<Val>, buf: Bytes, d: Stored<seq<Val>>)
    requires |buf| >= 2 && d == StoreRepeat(o, z, GetUint16(o, buf), buf[2..])
    requires Read(d) == DecRepeat(o, z, GetUint16(o, buf), buf[2..])
    ensures Read(StoreBase(o, Slice(z, vs), buf)) == DecBase(o, Slice(z, vs), buf)
  {
    SliceUnfolds(o, z, vs, buf);
    DecodedSliceUnfolds(o, z, vs, buf);
  }

  lemma ArrayReads(o: Order, vs: seq<Val>, buf: Bytes, d: Stored<seq<Val>>)
    requires |buf| >= 2 && GetUint16(o, buf) <= |vs|
    requires d == StorePrefix(o, vs, GetUint16(o, buf), buf[2..])
    requires Read(d) == DecPrefix(o, vs, GetUint16(o, buf), buf[2..])
    ensures Read(StoreBase(o, Array(vs), buf)) == DecBase(o, Array(vs), buf)
  {
    ArrayUnfolds(o, vs, buf);
    DecodedArrayUnfolds(o, vs, buf);
  }

  lemma RefusedReads(o: Order, loc: Val, buf: Bytes)
    requires (loc.Slice? || loc.Array?) && (|buf| < 2 || (loc.Array? && GetUint16(o, buf) > |loc.vs|))
    ensures Read(StoreBase(o, loc, buf)) == DecBase(o, loc, buf)
  {
  }

  /** Decoding succeeds or fails as the format says. */
  lemma {:induction false} StoreReads(o: Order, loc: Val, buf: Bytes)
    ensures Read(StoreBase(o, loc, buf)) == DecBase(o, loc, buf)
    decreases loc, 0
  {
    match loc
    case Slice(z, _) =>
      if |buf| >= 2 {
        RepeatReads(o, z, GetUint16(o, buf), buf[2..]);
        SliceReads(o, z, loc.vs, buf, StoreRepeat(o, z, GetUint16(o, buf), buf[2..]));
      } else {
        RefusedReads(o, loc, buf);
      }
    case Array(vs) =>
      if |buf| >= 2 && GetUint16(o, buf) <= |vs| {
        PrefixReads(o, vs, GetUint16(o, buf), buf[2..]);
        ArrayReads(o, vs, buf, StorePrefix(o, vs, GetUint16(o, buf), buf[2..]));
      } else {
        RefusedReads(o, loc, buf);
      }
    case Struct(fs) => FieldsRead(o, fs, buf);
    case _ =>
  }

  /** One round of StoreRepeat and of StorePrefix. */
  lemma StoreRepeatUnfold(o: Order, zero: Val, k: nat, buf: Bytes)
    requires k > 0
    ensures var d := StoreBase(o, zero, buf);
      StoreRepeat(o, zero, k, buf)
        == Onto(d.v, d.n, d.err, if d.err.Some? then Stored([], 0, None) else StoreRepeat(o, zero, k - 1, buf[d.n..]),
                Copies(zero, k - 1))
  {
  }

  lemma StorePrefixUnfold(o: Order, locs: seq<Val>, k: nat, buf: Bytes)
    requires 0 < k <= |locs|
    ensures var d := StoreBase(o, locs[0], buf);
      StorePrefix(o, locs, k, buf)
        == Onto(d.v, d.n, d.err,
                if d.err.Some? then Stored([], 0, None) else StorePrefix(o, locs[1..], k - 1, buf[d.n..]), locs[1..])
  {
  }

  lemma RepeatRoundReads(o: Order, zero: Val, k: nat, buf: Bytes, d: Stored<Val>, rest: Stored<seq<Val>>)
    requires k > 0 && d == StoreBase(o, zero, buf) && Read(d) == DecBase(o, zero, buf)
    requires d.err.None? ==> rest == StoreRepeat(o, zero, k - 1, buf[d.n..])
    requires d.err.None? ==> Read(rest) == DecRepeat(o, zero, k - 1, buf[d.n..])
    ensures Read(StoreRepeat(o, zero, k, buf)) == DecRepeat(o, zero, k, buf)
  {
    RepeatUnfold(o, zero, k, buf);
    StoreRepeatUnfold(o, zero, k, buf);
    OntoReads(d.v, d.n, d.err, if d.err.Some? then Stored([], 0, None) else rest, Copies(zero, k - 1));
  }

  lemma {:induction false} RepeatReads(o: Order, zero: Val, k: nat, buf: Bytes)
    ensures Read(StoreRepeat(o, zero, k, buf)) == DecRepeat(o, zero, k, buf)
    decreases zero, 1, k
  {
    if k > 0 {
      StoreReads(o, zero, buf);
      var d := StoreBase(o, zero, buf);
      if d.err.None? {
        RepeatReads(o, zero, k - 1, buf[d.n..]);
        RepeatRoundReads(o, zero, k, buf, d, StoreRepeat(o, zero, k - 1, buf[d.n..]));
      } else {
        RepeatRoundReads(o, zero, k, buf, d, Stored([], 0, None));
      }
    }
  }

  lemma {:induction false} PrefixReads(o: Order, locs: seq<Val>, k: nat, buf: Bytes)
    requires k <= |locs|
    ensures Read(StorePrefix(o, locs, k, buf)) == DecPrefix(o, locs, k, buf)
    decreases locs, 0
  {
    if k > 0 {
      StoreReads(o, locs[0], buf);
      var d := StoreBase(o, locs[0], buf);
      if d.err.None? {
        PrefixReads(o, locs[1..], k - 1, buf[d.n..]);
        PrefixRoundReads(o, locs, k, buf, d, StorePrefix(o, locs[1..], k - 1, buf[d.n..]));
      } else {
        PrefixRoundReads(o, locs, k, buf, d, Stored([], 0, None));
      }
    }
  }

  lemma PrefixRoundReads(o: Order, locs: seq<Val>, k: nat, buf: Bytes, d: Stored<Val>, rest: Stored<seq<Val>>)
    requires 0 < k <= |locs| && d == StoreBase(o, locs[0], buf) && Read(d) == DecBase(o, locs[0], buf)
    requires d.err.None? ==> rest == StorePrefix(o, locs[1..], k - 1, buf[d.n..])
    requires d.err.None? ==> Read(rest) == DecPrefix(o, locs[1..], k - 1, buf[d.n..])
    ensures Read(StorePrefix(o, locs, k, buf)) == DecPrefix(o, locs, k, buf)
  {
    PrefixUnfold(o, locs, k, buf);
    StorePrefixUnfold(o, locs, k, buf);
    OntoReads(d.v, d.n, d.err, if d.err.Some? then Stored([], 0, None) else rest, locs[1..]);
  }

  lemma {:induction false} FieldsRead(o: Order, locs: seq<Field>, buf: Bytes)
    ensures Read(StoreFields(o, locs, buf)) == DecFields(o, locs, buf)
    decreases locs, 0
  {
    if locs != [] {
      assert locs[0] in locs && locs[0].v < locs[0];
      if !locs[0].exported {
        FieldsRead(o, locs[1..], buf);
      } else {
        StoreReads(o, locs[0].v, buf);
        var d := StoreBase(o, locs[0].v, buf);
        if d.err.None? { FieldsRead(o, locs[1..], buf[d.n..]); }
      }
    }
  }
}

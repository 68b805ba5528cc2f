/**
 The encoder and decoder as the source runs them: loops over one byte buffer
 with a moving offset.  Each method is proved to do what `SbinaryAttempts` says,
 on success and on failure; `buf[offset:]` of the encoder is written as an offset
 into the same array.
 */
module SbinaryInPlace {
  import opened GoTypes
  import opened Sbinary
  import opened SbinaryAttempts

  /** `after` is `before` with bs written at off and nothing else changed. */
  ghost predicate Written(before: Bytes, after: Bytes, off: nat, bs: Bytes) {
    off + |bs| <= |before| && after == before[..off] + bs + before[off + |bs|..]
  }

  lemma WrittenThen(a: Bytes, b: Bytes, c: Bytes, off: nat, x: Bytes, y: Bytes)
    requires Written(a, b, off, x) && Written(b, c, off + |x|, y)
    ensures Written(a, c, off, x + y)
  {
    assert b[..off + |x|] == a[..off] + x;
    assert b[off + |x| + |y|..] == a[off + |x + y|..];
  }

  lemma NothingWritten(a: Bytes, off: nat)
    requires off <= |a|
    ensures Written(a, a, off, [])
  {
    assert a == a[..off] + [] + a[off..];
  }

  /** The attempt t was made at off. */
  ghost predicate Tried(before: Bytes, after: Bytes, off: nat, t: Attempt, n: nat, err: Option<Error>) {
    Written(before, after, off, t.written) && n == t.n && err == t.err
  }

  /** Go's copy() and ByteOrder.PutUintN: bytes into the buffer. */
  method Store(buf: array<byte>, off: nat, bs: Bytes)
    requires off + |bs| <= buf.Length
    modifies buf
    ensures Written(old(buf[..]), buf[..], off, bs)
  {
    var i := 0;
    while i < |bs|
      invariant i <= |bs|
      invariant forall k | 0 <= k < i :: buf[off + k] == bs[k]
      invariant forall k | 0 <= k < off || off + i <= k < buf.Length :: buf[k] == old(buf[k])
    {
      buf[off + i] := bs[i];
      i := i + 1;
    }
    WrittenEach(old(buf[..]), buf[..], off, bs);
  }

  lemma WrittenEach(before: Bytes, after: Bytes, off: nat, bs: Bytes)
    requires |after| == |before| && off + |bs| <= |before|
    requires forall k | 0 <= k < |bs| :: after[off + k] == bs[k]
    requires forall k | 0 <= k < off || off + |bs| <= k < |before| :: after[k] == before[k]
    ensures Written(before, after, off, bs)
  {
    var all := before[..off] + bs + before[off + |bs|..];
    forall k | 0 <= k < |all| ensures all[k] == after[k] {
      if off <= k < off + |bs| { assert after[off + (k - off)] == bs[k - off]; }
    }
  }

  method EncodeScalar(buf: array<byte>, off: nat, bs: Bytes) returns (n: nat, err: Option<Error>)
    requires off <= buf.Length
    modifies buf
    ensures Tried(old(buf[..]), buf[..], off, Leaf(bs, buf.Length - off), n, err)
  {
    if buf.Length - off < |bs| {
      NothingWritten(buf[..], off);
      return 0, Some(BufferTooSmall);
    }
    Store(buf, off, bs);
    return |bs|, None;
  }

  /** encode_bytes: one check for indicator and data together. */
  method EncodeBytes(buf: array<byte>, off: nat, o: Order, data: Bytes) returns (n: nat, err: Option<Error>)
    requires off <= buf.Length
    modifies buf
    ensures Tried(old(buf[..]), buf[..], off, Leaf(PutUint(o, 2, |data|) + data, buf.Length - off), n, err)
  {
    if buf.Length - off < 2 + |data| {
      NothingWritten(buf[..], off);
      return 0, Some(BufferTooSmall);
    }
    Store(buf, off, PutUint(o, 2, |data|));
    ghost var mid := buf[..];
    Store(buf, off + 2, data);
    WrittenThen(old(buf[..]), mid, buf[..], off, PutUint(o, 2, |data|), data);
    return 2 + |data|, None;
  }

  method EncodeValue(buf: array<byte>, off: nat, o: Order, v: Val) returns (n: nat, err: Option<Error>)
    requires off <= buf.Length
    modifies buf
    ensures Tried(old(buf[..]), buf[..], off, TryValue(o, v, buf.Length - off), n, err)
    decreases v, 2
  {
    match v
    case NilPtr =>
      NothingWritten(buf[..], off);
      return 0, Some(NilPointer);
    case Ref(w) => n, err := EncodeKind(buf, off, o, w);
    case _ => n, err := EncodeKind(buf, off, o, v);
  }

  /** The switch of encode_value on the kind of the value. */
  method EncodeKind(buf: array<byte>, off: nat, o: Order, v: Val) returns (n: nat, err: Option<Error>)
    requires off <= buf.Length
    modifies buf
    ensures Tried(old(buf[..]), buf[..], off, TryBase(o, v, buf.Length - off), n, err)
    decreases v, 1
  {
    match v
    case NilPtr => n, err := Refuse(buf, off, PtrToPtr);
    case Ref(_) => n, err := Refuse(buf, off, PtrToPtr);
    case Unsupported => n, err := Refuse(buf, off, NotSupported);
    case Slice(_, vs) => n, err := EncodeArray(buf, off, o, vs);
    case Array(vs) => n, err := EncodeArray(buf, off, o, vs);
    case Struct(fs) => n, err := EncodeStruct(buf, off, o, fs);
    case _ => n, err := EncodeLeaf(buf, off, o, v);
  }

  /** The kinds that are written in one piece. */
  predicate IsLeaf(v: Val) { v.Uint? || v.Int? || v.Bool? || v.String? || v.ByteSlice? || v.ByteArray? }

  method EncodeLeaf(buf: array<byte>, off: nat, o: Order, v: Val) returns (n: nat, err: Option<Error>)
    requires off <= buf.Length && IsLeaf(v)
    modifies buf
    ensures Tried(old(buf[..]), buf[..], off, TryBase(o, v, buf.Length - off), n, err)
  {
    match v
    case Uint(w, i) => n, err := EncodeScalar(buf, off, PutUint(o, w.Bytes(), i));
    case Int(w, i) => n, err := EncodeScalar(buf, off, PutUint(o, w.Bytes(), i));
    case Bool(b) => n, err := EncodeScalar(buf, off, [if b then 1 else 0]);
    case String(bs) => n, err := EncodeBytes(buf, off, o, bs);
    case ByteSlice(bs) => n, err := EncodeBytes(buf, off, o, bs);
    case ByteArray(bs) => n, err := EncodeBytes(buf, off, o, bs);
  }

  method Refuse(buf: array<byte>, off: nat, e: Error) returns (n: nat, err: Option<Error>)
    requires off <= buf.Length
    ensures Tried(buf[..], buf[..], off, Refused(e), n, err)
  {
    NothingWritten(buf[..], off);
    return 0, Some(e);
  }

  /** What a loop has written, and what is still to come, make up the attempt `spec`. */
  ghost predicate Progress(before: Bytes, now: Bytes, off: nat, done: Bytes, spec: Attempt, todo: Attempt) {
    Written(before, now, off, done) && spec == Attempt(done + todo.written, |done| + todo.n, todo.err)
  }

  lemma LoopEnds(before: Bytes, now: Bytes, off: nat, done: Bytes, spec: Attempt)
    requires Progress(before, now, off, done, spec, NOTHING)
    ensures Tried(before, now, off, spec, |done|, None)
  {
    assert done + [] == done;
  }

  /** After the length indicator. */
  lemma CountWritten(before: Bytes, now: Bytes, off: nat, o: Order, k: nat, todo: Attempt)
    requires Written(before, now, off, PutUint(o, 2, k))
    ensures Progress(before, now, off, PutUint(o, 2, k), Counted(o, k, todo), todo)
  {
  }

  /** One round of a loop: the attempt t for an element, then the rest. */
  lemma RoundStep(before: Bytes, mid: Bytes, now: Bytes, off: nat, done: Bytes, t: Attempt, rest: Attempt,
                  spec: Attempt, n: nat, err: Option<Error>)
    requires Progress(before, mid, off, done, spec, Cons(t, rest)) && Tried(mid, now, off + |done|, t, n, err)
    requires err.None? ==> n == |t.written|
    ensures err.None? ==> Progress(before, now, off, done + t.written, spec, rest)
    ensures err.Some? ==> Tried(before, now, off, spec, |done|, err)
  {
    WrittenThen(before, mid, now, off, done, t.written);
    if err.None? {
      assert done + (t.written + rest.written) == done + t.written + rest.written;
    }
  }

  /** The rest of a loop after the attempt t. */
  ghost function ElemsAfter(o: Order, t: Attempt, vs: seq<Val>, room: nat): Attempt
    requires Within(t, room)
  {
    if t.err.Some? then NOTHING else TryElems(o, vs, room - |t.written|)
  }

  ghost function FieldsAfter(o: Order, t: Attempt, fs: seq<Field>, room: nat): Attempt
    requires Within(t, room)
  {
    if t.err.Some? then NOTHING else TryFields(o, fs, room - |t.written|)
  }

  lemma ElemsUnfold(o: Order, vs: seq<Val>, room: nat)
    requires vs != []
    ensures TryElems(o, vs, room)
         == Cons(TryValue(o, vs[0], room), ElemsAfter(o, TryValue(o, vs[0], room), vs[1..], room))
  {
  }

  lemma FieldsUnfold(o: Order, fs: seq<Field>, room: nat)
    requires fs != []
    ensures TryFields(o, fs, room)
         == if !fs[0].exported then TryFields(o, fs[1..], room)
            else Cons(TryValue(o, fs[0].v, room), FieldsAfter(o, TryValue(o, fs[0].v, room), fs[1..], room))
  {
  }

  /** One round of a loop over elements or fields: `before` and `start` are the buffer and the offset at
      which the loop began, `done` is what it has written. */
  method EncodeRound(buf: array<byte>, off: nat, o: Order, v: Val, ghost before: Bytes, ghost start: nat,
                     ghost done: Bytes, ghost rest: Attempt, ghost spec: Attempt) returns (n: nat, err: Option<Error>)
    requires start + |done| == off <= buf.Length
    requires Progress(before, buf[..], start, done, spec, Cons(TryValue(o, v, buf.Length - off), rest))
    modifies buf
    ensures var t := TryValue(o, v, buf.Length - off);
      if err.None? then
        t.err.None? && n == |t.written| && off + n <= buf.Length
        && Progress(before, buf[..], start, done + t.written, spec, rest)
      else
        Tried(before, buf[..], start, spec, |done|, err)
    decreases v, 3
  {
    ghost var mid := buf[..];
    n, err := EncodeValue(buf, off, o, v);
    RoundStep(before, mid, buf[..], start, done, TryValue(o, v, buf.Length - off), rest, spec, n, err);
  }

  /** encode_array: length indicator, then the elements in order. */
  method EncodeArray(buf: array<byte>, off: nat, o: Order, vs: seq<Val>) returns (n: nat, err: Option<Error>)
    requires off <= buf.Length
    modifies buf
    ensures var room := buf.Length - off;
      Tried(old(buf[..]), buf[..], off,
            if room < 2 then Refused(BufferTooSmall) else Counted(o, |vs|, TryElems(o, vs, room - 2)), n, err)
    decreases vs, 4
  {
    if buf.Length - off < 2 {
      n, err := Refuse(buf, off, BufferTooSmall);
      return;
    }
    ghost var spec := Counted(o, |vs|, TryElems(o, vs, buf.Length - off - 2));
    ghost var done := PutUint(o, 2, |vs|);
    Store(buf, off, PutUint(o, 2, |vs|));
    CountWritten(old(buf[..]), buf[..], off, o, |vs|, TryElems(o, vs, buf.Length - (off + 2)));
    var offset, i := 2, 0;
    ghost var left := vs;
    while i < |vs|
      invariant i <= |vs| && left == vs[i..] && offset == |done| && off + offset <= buf.Length
      invariant Progress(old(buf[..]), buf[..], off, done, spec, TryElems(o, left, buf.Length - (off + offset)))
    {
      n, err, done := EncodeElem(buf, off + offset, o, left, vs[i], old(buf[..]), off, done, spec);
      if err.Some? { return offset, err; }
      offset, i, left := offset + n, i + 1, left[1..];
    }
    LoopEnds(old(buf[..]), buf[..], off, done, spec);
    return offset, None;
  }

  lemma ElemBegins(before: Bytes, now: Bytes, off: nat, done: Bytes, spec: Attempt, o: Order, vs: seq<Val>, room: nat)
    requires vs != [] && Progress(before, now, off, done, spec, TryElems(o, vs, room))
    ensures var t := TryValue(o, vs[0], room);
      Progress(before, now, off, done, spec, Cons(t, ElemsAfter(o, t, vs[1..], room)))
  {
    ElemsUnfold(o, vs, room);
  }

  lemma ElemEnds(before: Bytes, now: Bytes, off: nat, done: Bytes, spec: Attempt, o: Order, t: Attempt, vs: seq<Val>,
                 room: nat)
    requires Within(t, room) && t.err.None? && Progress(before, now, off, done, spec, ElemsAfter(o, t, vs, room))
    ensures Progress(before, now, off, done, spec, TryElems(o, vs, room - |t.written|))
  {
  }

  /** One round of encode_array: v is the first of the elements left. */
  method EncodeElem(buf: array<byte>, off: nat, o: Order, ghost left: seq<Val>, v: Val, ghost before: Bytes,
                    ghost start: nat, ghost done: Bytes, ghost spec: Attempt)
    returns (n: nat, err: Option<Error>, ghost done': Bytes)
    requires left != [] && left[0] == v && start + |done| == off <= buf.Length
    requires Progress(before, buf[..], start, done, spec, TryElems(o, left, buf.Length - off))
    modifies buf
    ensures err.Some? ==> Tried(before, buf[..], start, spec, |done|, err)
    ensures err.None? ==> |done'| == |done| + n && off + n <= buf.Length
    ensures err.None? ==>
      Progress(before, buf[..], start, done', spec, TryElems(o, left[1..], buf.Length - (off + n)))
    decreases v, 4
  {
    ghost var room := buf.Length - off;
    ghost var t := TryValue(o, v, room);
    ghost var rest := ElemsAfter(o, t, left[1..], room);
    ElemBegins(before, buf[..], start, done, spec, o, left, room);
    n, err := EncodeRound(buf, off, o, v, before, start, done, rest, spec);
    done' := done + t.written;
    if err.None? { ElemEnds(before, buf[..], start, done', spec, o, t, left[1..], room); }
  }

  /** encode_struct: exported fields in order, the others skipped. */
  method EncodeStruct(buf: array<byte>, off: nat, o: Order, fs: seq<Field>) returns (n: nat, err: Option<Error>)
    requires off <= buf.Length
    modifies buf
    ensures Tried(old(buf[..]), buf[..], off, TryFields(o, fs, buf.Length - off), n, err)
    decreases fs, 4
  {
    ghost var spec := TryFields(o, fs, buf.Length - off);
    ghost var done: Bytes := [];
    NothingWritten(buf[..], off);
    assert [] + spec.written == spec.written;
    var offset, i := 0, 0;
    ghost var left := fs;
    while i < |fs|
      invariant i <= |fs| && left == fs[i..] && offset == |done| && off + offset <= buf.Length
      invariant Progress(old(buf[..]), buf[..], off, done, spec, TryFields(o, left, buf.Length - (off + offset)))
    {
      if fs[i].exported {
        assert fs[i] in fs && fs[i].v < fs[i];
        n, err, done := EncodeField(buf, off + offset, o, left, fs[i].v, old(buf[..]), off, done, spec);
        if err.Some? { return offset, err; }
        offset := offset + n;
      } else {
        SkipField(old(buf[..]), buf[..], off, done, spec, o, left, buf.Length - (off + offset));
      }
      i, left := i + 1, left[1..];
    }
    LoopEnds(old(buf[..]), buf[..], off, done, spec);
    return offset, None;
  }

  lemma SkipField(before: Bytes, now: Bytes, off: nat, done: Bytes, spec: Attempt, o: Order, fs: seq<Field>, room: nat)
    requires fs != [] && !fs[0].exported && Progress(before, now, off, done, spec, TryFields(o, fs, room))
    ensures Progress(before, now, off, done, spec, TryFields(o, fs[1..], room))
  {
    FieldsUnfold(o, fs, room);
  }

  /** One round of encode_struct: v is in the first of the fields left, which is exported. */
  method EncodeField(buf: array<byte>, off: nat, o: Order, ghost left: seq<Field>, v: Val, ghost before: Bytes,
                     ghost start: nat, ghost done: Bytes, ghost spec: Attempt)
    returns (n: nat, err: Option<Error>, ghost done': Bytes)
    requires left != [] && left[0].exported && left[0].v == v && start + |done| == off <= buf.Length
    requires Progress(before, buf[..], start, done, spec, TryFields(o, left, buf.Length - off))
    modifies buf
    ensures err.Some? ==> Tried(before, buf[..], start, spec, |done|, err)
    ensures err.None? ==> |done'| == |done| + n && off + n <= buf.Length
    ensures err.None? ==>
      Progress(before, buf[..], start, done', spec, TryFields(o, left[1..], buf.Length - (off + n)))
    decreases v, 4
  {
    ghost var room := buf.Length - off;
    ghost var t := TryValue(o, v, room);
    FieldsUnfold(o, left, room);
    n, err := EncodeRound(buf, off, o, v, before, start, done, FieldsAfter(o, t, left[1..], room), spec);
    done' := done + t.written;
  }

  /** No more than a prefix of a supported value's encoding was written, and nothing past that. */
  ghost predicate WrotePrefix(before: Bytes, after: Bytes, n: nat, e: EncResult) {
    |after| == |before|
    && exists k | n <= k <= |after| :: after[k..] == before[k..] && (e.Ok? ==> after[..k] <= e.value)
  }

  /** Encode(buf, order, data): it succeeds exactly if the value is supported and its encoding fits, and
      writes that; otherwise it writes no more than a prefix of it; and nothing past what it writes. */
  method EncodeInto(buf: array<byte>, o: Order, data: Val) returns (n: nat, err: Option<Error>)
    modifies buf
    ensures Tried(old(buf[..]), buf[..], 0, TryValue(o, data, buf.Length), n, err)
    ensures err.None? <==> Encode(o, data).Ok? && |Encode(o, data).value| <= buf.Length
    ensures err.None? ==> n == |Encode(o, data).value| <= buf.Length && buf[..n] == Encode(o, data).value
    ensures WrotePrefix(old(buf[..]), buf[..], n, Encode(o, data))
  {
    n, err := EncodeValue(buf, 0, o, data);
    ValueAgrees(o, data, buf.Length);
    WholeAttempt(old(buf[..]), buf[..], TryValue(o, data, buf.Length), n, err, Encode(o, data));
  }

  lemma WholeAttempt(before: Bytes, after: Bytes, t: Attempt, n: nat, err: Option<Error>, e: EncResult)
    requires Tried(before, after, 0, t, n, err) && Within(t, |before|) && Agrees(t, e, |before|)
    ensures WrotePrefix(before, after, n, e)
    ensures err.None? ==> n == |t.written| && after[..n] == t.written
  {
    var k := |t.written|;
    assert after[..k] == t.written && after[k..] == before[k..];
  }

  // ---------------------------------------------------------------- decoding

  /** What is decoded so far, and what decoding the rest would add, make up `spec`. */
  ghost predicate Reading<T>(spec: Stored<seq<T>>, out: seq<T>, n: nat, todo: Stored<seq<T>>) {
    spec == Stored(out + todo.v, n + todo.n, todo.err)
  }

  lemma ReadingStarts<T>(spec: Stored<seq<T>>)
    ensures Reading(spec, [], 0, spec)
  {
    assert [] + spec.v == spec.v;
  }

  /** One round of a decoding loop: the element v, then the rest, or what stays behind it. */
  lemma ReadingRound<T>(spec: Stored<seq<T>>, out: seq<T>, n: nat, v: T, m: nat, err: Option<Error>,
                        rest: Stored<seq<T>>, left: seq<T>)
    requires Reading(spec, out, n, Onto(v, m, err, rest, left))
    ensures err.None? ==> Reading(spec, out + [v], n + m, rest)
    ensures err.Some? ==> spec == Stored(out + [v] + left, n, err)
  {
    assert out + ([v] + rest.v) == out + [v] + rest.v;
    assert out + ([v] + left) == out + [v] + left;
  }

  /** decode_value into a location, after it has followed the pointer to the location. */
  method DecodeValue(buf: Bytes, o: Order, loc: Val) returns (d: Stored<Val>)
    ensures d == StoreBase(o, loc, buf)
    decreases loc, 2
  {
    match loc
    case Slice(z, _) =>
      if |buf| < 2 { return Failed(loc, 0, BufferTooSmall); }
      var elems := DecodeNewSlice(buf[2..], o, z, GetUint16(o, buf));
      return Stored(Slice(z, elems.v), 2 + elems.n, elems.err);
    case Array(vs) =>
      if |buf| < 2 { return Failed(loc, 0, BufferTooSmall); }
      var k := GetUint16(o, buf);
      if k > |vs| { return Failed(loc, 2, ArrayTooSmall); }
      var elems := DecodeArray(buf[2..], o, vs, k);
      return Stored(Array(elems.v), 2 + elems.n, elems.err);
    case Struct(fs) =>
      var fields := DecodeStruct(buf, o, fs);
      return Stored(Struct(fields.v), fields.n, fields.err);
    case _ =>
      return StoreLeaf(loc, |buf|, DecBase(o, loc, buf));
  }

  /** One round of decodeArray on a slice: the element, and what is left of the specification. */
  method DecodeNext(rest: Bytes, o: Order, zero: Val, ghost n: nat, ghost k: nat, ghost out: seq<Val>,
                    ghost spec: Stored<seq<Val>>) returns (d: Stored<Val>)
    requires k > 0 && Reading(spec, out, n, StoreRepeat(o, zero, k, rest))
    ensures d.n <= |rest|
    ensures d.err.Some? ==> spec == Stored(out + [d.v] + Copies(zero, k - 1), n, d.err)
    ensures d.err.None? ==> Reading(spec, out + [d.v], n + d.n, StoreRepeat(o, zero, k - 1, rest[d.n..]))
    decreases zero, 3
  {
    d := DecodeValue(rest, o, zero);
    RepeatRound(spec, out, o, zero, k, rest, n, d);
  }

  lemma RepeatRound(spec: Stored<seq<Val>>, out: seq<Val>, o: Order, zero: Val, k: nat, buf: Bytes, n: nat,
                    d: Stored<Val>)
    requires k > 0 && Reading(spec, out, n, StoreRepeat(o, zero, k, buf)) && d == StoreBase(o, zero, buf)
    ensures d.err.Some? ==> spec == Stored(out + [d.v] + Copies(zero, k - 1), n, d.err)
    ensures d.err.None? ==> Reading(spec, out + [d.v], n + d.n, StoreRepeat(o, zero, k - 1, buf[d.n..]))
  {
    StoreRepeatUnfold(o, zero, k, buf);
    ReadingRound(spec, out, n, d.v, d.n, d.err,
                 if d.err.Some? then Stored([], 0, None) else StoreRepeat(o, zero, k - 1, buf[d.n..]),
                 Copies(zero, k - 1));
  }

  /** decodeArray on a slice: make k elements, then decode into each; `rest` is buf[offset:]. */
  method DecodeNewSlice(buf: Bytes, o: Order, zero: Val, k: nat) returns (d: Stored<seq<Val>>)
    ensures d == StoreRepeat(o, zero, k, buf)
    decreases zero, 4
  {
    ghost var spec := StoreRepeat(o, zero, k, buf);
    var out: seq<Val>, offset: nat, i, rest := [], 0, 0, buf;
    ghost var left := k;
    ReadingStarts(spec);
    while i < k
      invariant i + left == k
      invariant Reading(spec, out, offset, StoreRepeat(o, zero, left, rest))
    {
      var e := DecodeNext(rest, o, zero, offset, left, out, spec);
      if e.err.Some? { return Stored(out + [e.v] + Copies(zero, k - i - 1), offset, e.err); }
      out, offset, i, rest := out + [e.v], offset + e.n, i + 1, rest[e.n..];
      left := left - 1;
    }
    assert out + [] == out;
    return Stored(out, offset, None);
  }

  /** One round of decodeArray on an array. */
  method DecodeElem(rest: Bytes, o: Order, locs: seq<Val>, ghost n: nat, ghost k: nat, ghost out: seq<Val>,
                    ghost spec: Stored<seq<Val>>) returns (d: Stored<Val>)
    requires 0 < k <= |locs| && Reading(spec, out, n, StorePrefix(o, locs, k, rest))
    ensures d.n <= |rest|
    ensures d.err.Some? ==> spec == Stored(out + [d.v] + locs[1..], n, d.err)
    ensures d.err.None? ==> Reading(spec, out + [d.v], n + d.n, StorePrefix(o, locs[1..], k - 1, rest[d.n..]))
    decreases locs, 3
  {
    d := DecodeValue(rest, o, locs[0]);
    PrefixRound(spec, out, o, locs, k, rest, n, d);
  }

  lemma PrefixRound(spec: Stored<seq<Val>>, out: seq<Val>, o: Order, locs: seq<Val>, k: nat, buf: Bytes, n: nat,
                    d: Stored<Val>)
    requires 0 < k <= |locs| && Reading(spec, out, n, StorePrefix(o, locs, k, buf)) && d == StoreBase(o, locs[0], buf)
    ensures d.err.Some? ==> spec == Stored(out + [d.v] + locs[1..], n, d.err)
    ensures d.err.None? ==> Reading(spec, out + [d.v], n + d.n, StorePrefix(o, locs[1..], k - 1, buf[d.n..]))
  {
    StorePrefixUnfold(o, locs, k, buf);
    ReadingRound(spec, out, n, d.v, d.n, d.err,
                 if d.err.Some? then Stored([], 0, None) else StorePrefix(o, locs[1..], k - 1, buf[d.n..]), locs[1..]);
  }

  /** decodeArray on an array: decode into the first k elements; `left` are those not decoded yet. */
  method DecodeArray(buf: Bytes, o: Order, locs: seq<Val>, k: nat) returns (d: Stored<seq<Val>>)
    requires k <= |locs|
    ensures d == StorePrefix(o, locs, k, buf)
    decreases locs, 4
  {
    ghost var spec := StorePrefix(o, locs, k, buf);
    var out: seq<Val>, offset: nat, i, rest, left := [], 0, 0, buf, locs;
    ghost var togo := k;
    ReadingStarts(spec);
    while i < k
      invariant i + togo == k && left == locs[i..]
      invariant Reading(spec, out, offset, StorePrefix(o, left, togo, rest))
    {
      var e := DecodeElem(rest, o, left, offset, togo, out, spec);
      if e.err.Some? { return Stored(out + [e.v] + left[1..], offset, e.err); }
      out, offset, i, rest, left := out + [e.v], offset + e.n, i + 1, rest[e.n..], left[1..];
      togo := togo - 1;
    }
    return Stored(out + left, offset, None);
  }

  /** One round of decode_struct; a field that is not exported keeps its contents. */
  method DecodeField(rest: Bytes, o: Order, locs: seq<Field>, ghost n: nat, ghost out: seq<Field>,
                     ghost spec: Stored<seq<Field>>) returns (d: Stored<Field>)
    requires locs != [] && Reading(spec, out, n, StoreFields(o, locs, rest))
    ensures d.n <= |rest|
    ensures d.err.Some? ==> spec == Stored(out + [d.v] + locs[1..], n, d.err)
    ensures d.err.None? ==> Reading(spec, out + [d.v], n + d.n, StoreFields(o, locs[1..], rest[d.n..]))
    decreases locs, 3
  {
    if !locs[0].exported {
      SkipRound(spec, out, o, locs, rest, n);
      return Stored(locs[0], 0, None);
    }
    assert locs[0] in locs && locs[0].v < locs[0];
    var e := DecodeValue(rest, o, locs[0].v);
    FieldRound(spec, out, o, locs, rest, n, e);
    return Stored(Field(true, e.v), e.n, e.err);
  }

  lemma SkipRound(spec: Stored<seq<Field>>, out: seq<Field>, o: Order, locs: seq<Field>, buf: Bytes, n: nat)
    requires locs != [] && !locs[0].exported && Reading(spec, out, n, StoreFields(o, locs, buf))
    ensures Reading(spec, out + [locs[0]], n, StoreFields(o, locs[1..], buf[0..]))
  {
    assert buf[0..] == buf;
    ReadingRound(spec, out, n, locs[0], 0, None, StoreFields(o, locs[1..], buf), []);
  }

  lemma FieldRound(spec: Stored<seq<Field>>, out: seq<Field>, o: Order, locs: seq<Field>, buf: Bytes, n: nat,
                   d: Stored<Val>)
    requires locs != [] && locs[0].exported && Reading(spec, out, n, StoreFields(o, locs, buf))
    requires d == StoreBase(o, locs[0].v, buf)
    ensures d.err.Some? ==> spec == Stored(out + [Field(true, d.v)] + locs[1..], n, d.err)
    ensures d.err.None? ==>
      Reading(spec, out + [Field(true, d.v)], n + d.n, StoreFields(o, locs[1..], buf[d.n..]))
  {
    ReadingRound(spec, out, n, Field(true, d.v), d.n, d.err,
                 if d.err.Some? then Stored([], 0, None) else StoreFields(o, locs[1..], buf[d.n..]), locs[1..]);
  }

  /** decode_struct; `left` are the fields not decoded yet. */
  method DecodeStruct(buf: Bytes, o: Order, locs: seq<Field>) returns (d: Stored<seq<Field>>)
    ensures d == StoreFields(o, locs, buf)
    decreases locs, 4
  {
    ghost var spec := StoreFields(o, locs, buf);
    var out: seq<Field>, offset: nat, i, rest, left := [], 0, 0, buf, locs;
    ReadingStarts(spec);
    while i < |locs|
      invariant i <= |locs| && left == locs[i..]
      invariant Reading(spec, out, offset, StoreFields(o, left, rest))
    {
      var e := DecodeField(rest, o, left, offset, out, spec);
      if e.err.Some? { return Stored(out + [e.v] + left[1..], offset, e.err); }
      out, offset, i, rest, left := out + [e.v], offset + e.n, i + 1, rest[e.n..], left[1..];
    }
    assert out + [] == out;
    return Stored(out, offset, None);
  }

  /** Decode(buf, order, &loc): the location, count and error that it leaves; it succeeds or fails as
      the format says. */
  method DecodeFrom(buf: Bytes, o: Order, data: Val) returns (d: Stored<Val>)
    ensures Read(d) == Decode(o, data, buf)
    ensures d == if data.Ref? then StoreBase(o, data.target, buf) else Failed(data, 0, NotAPointer)
  {
    if !data.Ref? { return Failed(data, 0, NotAPointer); }
    d := DecodeValue(buf, o, data.target);
    StoreReads(o, data.target, buf);
  }
}

/**
 The lock value block: one sector of the resource file that names the VM owning
 the resource (pkg/lockman/lockman.go, cmd/virtx-check-lvb/main.go).
 */
module Lvb {
  import opened GoTypes

  const BLOCK_SIZE := 512
  const LVB_SECTOR := 2002
  const LVB_OFFSET := LVB_SECTOR * BLOCK_SIZE

  function Zeros(n: nat): (z: Bytes)
    ensures |z| == n
  {
    seq(n, i => 0)
  }

  /** What lm_set_lvb puts into the sector: the uuid, cut or padded with zeros to a block. */
  function BlockOf(uuid: Bytes): (b: Bytes)
    ensures |b| == BLOCK_SIZE
  {
    if |uuid| >= BLOCK_SIZE then uuid[..BLOCK_SIZE] else uuid + Zeros(BLOCK_SIZE - |uuid|)
  }

  /** bytes.IndexByte(b, 0), with |b| for "not found". */
  function FirstZero(b: Bytes): (i: nat)
    ensures i <= |b| && (i < |b| ==> b[i] == 0) && forall k | 0 <= k < i :: b[k] != 0
  {
    if b == [] || b[0] == 0 then 0 else 1 + FirstZero(b[1..])
  }

  /** The text Read_lvb finds in a block. */
  function Text(b: Bytes): Bytes { b[..FirstZero(b)] }

  /** What Read_lvb returns on a file with these contents. */
  function LvbOf(data: Bytes): Result<Bytes, string> {
    if |data| < LVB_OFFSET + BLOCK_SIZE then Err("pread incomplete")
    else Ok(Text(data[LVB_OFFSET..LVB_OFFSET + BLOCK_SIZE]))
  }

  /** virtx-check-lvb exits with 0. */
  predicate CheckLvb(lvb: Result<Bytes, string>, uuid: Bytes) { |uuid| >= 1 && lvb == Ok(uuid) }

  /** A file after writing b at an offset; a gap reads as zeros. */
  function Overwritten(data: Bytes, offset: nat, b: Bytes): Bytes {
    (if |data| >= offset then data[..offset] else data + Zeros(offset - |data|))
    + b + if |data| >= offset + |b| then data[offset + |b|..] else []
  }

  /** A uuid that the sector can hold. */
  predicate Faithful(uuid: Bytes) { |uuid| <= BLOCK_SIZE && 0 !in uuid }

  /** A file opened by lockman. */
  class LockFile {
    var data: Bytes

    constructor (data: Bytes)
      ensures this.data == data
    {
      this.data := data;
    }

    /** lm_pwrite, when the system call writes everything. */
    method Pwrite(buf: array<byte>, offset: nat)
      modifies this
      ensures data == Overwritten(old(data), offset, buf[..])
    {
      data := Overwritten(data, offset, buf[..]);
    }

    /** lm_pread: a short read is an error. */
    method Pread(buf: array<byte>, offset: nat) returns (ok: bool)
      modifies buf
      ensures ok <==> offset + buf.Length <= |data|
      ensures ok ==> buf[..] == data[offset..offset + buf.Length]
    {
      if offset + buf.Length > |data| {
        return false;
      }
      for i := 0 to buf.Length
        invariant forall k | 0 <= k < i :: buf[k] == data[offset + k]
      {
        buf[i] := data[offset + i];
      }
      ok := true;
    }

    /** lm_set_lvb. */
    method SetLvb(uuid: Bytes)
      modifies this
      ensures data == Overwritten(old(data), LVB_OFFSET, BlockOf(uuid))
    {
      var buf := new byte[BLOCK_SIZE](i => 0);
      var n := if |uuid| < BLOCK_SIZE then |uuid| else BLOCK_SIZE;
      for i := 0 to n
        modifies buf
        invariant forall k | 0 <= k < i :: buf[k] == uuid[k]
        invariant forall k | i <= k < BLOCK_SIZE :: buf[k] == 0
      {
        buf[i] := uuid[i];
      }
      assert buf[..] == BlockOf(uuid);
      Pwrite(buf, LVB_OFFSET);
    }

    /** Read_lvb. */
    method ReadLvb() returns (r: Result<Bytes, string>)
      ensures r == LvbOf(data)
    {
      var buf := new byte[BLOCK_SIZE](i => 0);
      var ok := Pread(buf, LVB_OFFSET);
      if !ok {
        return Err("pread incomplete");
      }
      var i := 0;
      while i < buf.Length && buf[i] != 0
        invariant 0 <= i <= buf.Length
        invariant forall k | 0 <= k < i :: buf[k] != 0
      {
        i := i + 1;
      }
      FirstZeroIs(buf[..], i);
      assert buf[..i] == Text(buf[..]);
      r := Ok(buf[..i]);
    }

    /** check_lvb, with the length test of its caller. */
    method Check(uuid: Bytes) returns (code: int)
      ensures code == 0 <==> CheckLvb(LvbOf(data), uuid)
    {
      if |uuid| < 1 {
        return 1;
      }
      var lvb := ReadLvb();
      if lvb.Err? {
        return 1;
      }
      code := if uuid != lvb.value then 1 else 0;
    }
  }

  lemma FirstZeroIs(b: Bytes, i: nat)
    requires i <= |b| && (i < |b| ==> b[i] == 0) && forall k | 0 <= k < i :: b[k] != 0
    ensures FirstZero(b) == i
  {
    var z := FirstZero(b);
    assert z < |b| ==> b[z] == 0;
  }

  /** The LVB names the uuid it was set to exactly if the uuid fits and holds no zero byte. */
  lemma TextOfBlock(uuid: Bytes)
    ensures Text(BlockOf(uuid)) == uuid <==> Faithful(uuid)
  {
    var b := BlockOf(uuid);
    if Faithful(uuid) {
      FirstZeroIs(b, |uuid|);
    } else if |uuid| <= BLOCK_SIZE {
      var k :| 0 <= k < |uuid| && uuid[k] == 0;
      assert b[k] == 0;
    }
  }

  lemma SectorOf(data: Bytes, block: Bytes)
    requires |block| == BLOCK_SIZE
    ensures var d := Overwritten(data, LVB_OFFSET, block);
      && |d| >= LVB_OFFSET + BLOCK_SIZE && d[LVB_OFFSET..LVB_OFFSET + BLOCK_SIZE] == block
      && forall i | 0 <= i < |data| && !(LVB_OFFSET <= i < LVB_OFFSET + BLOCK_SIZE) :: i < |d| && d[i] == data[i]
  {
  }

  /** Where the uuid goes: byte i of it to byte i of sector 2002, as far as one sector holds it, with
      zeros up to the end of the sector, and nothing else in the file changes. */
  lemma SectorHolds(data: Bytes, uuid: Bytes, i: nat)
    ensures var d := Overwritten(data, LVB_OFFSET, BlockOf(uuid));
      && |d| >= 2003 * 512
      && (i < 512 ==> d[2002 * 512 + i] == if i < |uuid| then uuid[i] else 0)
      && (i < |data| && i / 512 != 2002 ==> i < |d| && d[i] == data[i])
  {
    SectorOf(data, BlockOf(uuid));
    var d := Overwritten(data, LVB_OFFSET, BlockOf(uuid));
    if i < 512 {
      assert d[LVB_OFFSET + i] == d[LVB_OFFSET..LVB_OFFSET + BLOCK_SIZE][i];
    }
  }

  /** Setting and reading back: a round trip on faithful uuids only, and the rest of the file is kept. */
  lemma SetThenRead(data: Bytes, uuid: Bytes)
    ensures LvbOf(Overwritten(data, LVB_OFFSET, BlockOf(uuid))) == Ok(uuid) <==> Faithful(uuid)
  {
    SectorOf(data, BlockOf(uuid));
    TextOfBlock(uuid);
  }

  /** The check distinguishes owners: set for one VM, it passes for exactly that VM. */
  lemma CheckIdentifiesOwner(data: Bytes, owner: Bytes, uuid: Bytes)
    requires Faithful(owner)
    ensures CheckLvb(LvbOf(Overwritten(data, LVB_OFFSET, BlockOf(owner))), uuid) <==> uuid == owner && uuid != []
  {
    SetThenRead(data, owner);
  }
}

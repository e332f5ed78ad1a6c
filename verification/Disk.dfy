/** The disk: reads and writes of any bytes, through a buffer of one block, act on the disk
    as on a flat array of bytes. */
module Disk {
  import opened Bits

  // ---- flat bytes and blocks --------------------------------------------------------------------

  function Flat(blocks: seq<seq<nat>>): seq<nat> {
    if |blocks| == 0 then [] else blocks[0] + Flat(blocks[1..])
  }

  predicate Blocked(blocks: seq<seq<nat>>, sz: nat) {
    forall b :: 0 <= b < |blocks| ==> |blocks[b]| == sz
  }

  // data in place of what stood at a position.
  function Splice(bytes: seq<nat>, at: nat, data: seq<nat>): (r: seq<nat>)
    requires at + |data| <= |bytes|
    ensures |r| == |bytes|
  {
    bytes[..at] + data + bytes[at + |data|..]
  }

  // A write changes exactly the bytes it covers, and a read there gives them back.
  lemma SpliceMeaning(bytes: seq<nat>, at: nat, data: seq<nat>)
    requires at + |data| <= |bytes|
    ensures Splice(bytes, at, data)[at..at + |data|] == data
    ensures forall i :: 0 <= i < |bytes| && !(at <= i < at + |data|) ==> Splice(bytes, at, data)[i] == bytes[i]
  {
  }

  // A later write to other bytes leaves what was written.
  lemma SpliceElsewhere(bytes: seq<nat>, at: nat, data: seq<nat>, other: nat, more: seq<nat>)
    requires at + |data| <= |bytes| && other + |more| <= |bytes|
    requires at + |data| <= other || other + |more| <= at
    ensures Splice(Splice(bytes, at, data), other, more)[at..at + |data|] == data
  {
    assert forall i :: 0 <= i < |data| ==> Splice(Splice(bytes, at, data), other, more)[at + i] == data[i];
  }

  lemma SpliceAppend(bytes: seq<nat>, at: nat, a: seq<nat>, b: seq<nat>)
    requires at + |a| + |b| <= |bytes|
    ensures Splice(Splice(bytes, at, a), at + |a|, b) == Splice(bytes, at, a + b)
  {
  }

  lemma SpliceInside(bytes: seq<nat>, at: nat, len: nat, offset: nat, data: seq<nat>)
    requires at + len <= |bytes| && offset + |data| <= len
    ensures Splice(bytes, at, Splice(bytes[at..at + len], offset, data)) == Splice(bytes, at + offset, data)
  {
  }

  lemma {:induction false} FlatLength(blocks: seq<seq<nat>>, sz: nat)
    requires Blocked(blocks, sz)
    ensures |Flat(blocks)| == |blocks| * sz
  {
    if |blocks| > 0 {
      FlatLength(blocks[1..], sz);
    }
  }

  lemma {:induction false} FlatBlock(blocks: seq<seq<nat>>, sz: nat, b: nat)
    requires Blocked(blocks, sz) && b < |blocks|
    ensures b * sz + sz <= |Flat(blocks)| == |blocks| * sz
    ensures blocks[b] == Flat(blocks)[b * sz..b * sz + sz]
  {
    FlatLength(blocks, sz);
    if b > 0 {
      FlatBlock(blocks[1..], sz, b - 1);
      assert b * sz == (b - 1) * sz + sz;
      assert Flat(blocks)[sz..] == Flat(blocks[1..]);
      assert Flat(blocks)[b * sz..b * sz + sz] == Flat(blocks)[sz..][(b - 1) * sz..(b - 1) * sz + sz];
    } else {
      MulMono(1, |blocks|, sz);
    }
  }

  lemma {:induction false} FlatSplice(blocks: seq<seq<nat>>, sz: nat, b: nat, block: seq<nat>)
    requires Blocked(blocks, sz) && b < |blocks| && |block| == sz
    ensures b * sz + sz <= |Flat(blocks)|
    ensures Flat(blocks[b := block]) == Splice(Flat(blocks), b * sz, block)
  {
    FlatBlock(blocks, sz, b);
    if b > 0 {
      FlatSplice(blocks[1..], sz, b - 1, block);
      assert b * sz == (b - 1) * sz + sz;
      assert blocks[b := block][1..] == blocks[1..][b - 1 := block];
    } else {
      assert blocks[b := block][1..] == blocks[1..];
    }
  }

  lemma SliceSlice(bytes: seq<nat>, at: nat, len: nat, i: nat, n: nat)
    requires at + len <= |bytes| && i + n <= len
    ensures bytes[at..at + len][i..i + n] == bytes[at + i..at + i + n]
  {
    var a, b := bytes[at..at + len][i..i + n], bytes[at + i..at + i + n];
    assert |a| == |b| && forall j :: 0 <= j < n ==> a[j] == b[j];
  }

  // The first pos bytes wanted have been read.
  ghost predicate ReadSoFar(now: seq<nat>, was: seq<nat>, bytes: seq<nat>, start: nat, pos: nat) {
    start + pos <= |bytes| && pos <= |was| && now == Splice(was, 0, bytes[start..start + pos])
  }

  lemma ReadGrows(was: seq<nat>, bytes: seq<nat>, start: nat, pos: nat, n: nat, before: seq<nat>, after: seq<nat>)
    requires ReadSoFar(before, was, bytes, start, pos) && start + pos + n <= |bytes| && pos + n <= |was|
    requires after == Splice(before, pos, bytes[start + pos..start + pos + n])
    ensures ReadSoFar(after, was, bytes, start, pos + n)
  {
    SpliceAppend(was, 0, bytes[start..start + pos], bytes[start + pos..start + pos + n]);
    assert bytes[start..start + pos] + bytes[start + pos..start + pos + n] == bytes[start..start + (pos + n)];
  }

  // The first pos bytes given have been written.
  ghost predicate WrittenSoFar(now: seq<nat>, bytes: seq<nat>, start: nat, data: seq<nat>, pos: nat) {
    start + pos <= |bytes| && pos <= |data| && now == Splice(bytes, start, data[..pos])
  }

  lemma WriteGrows(bytes: seq<nat>, start: nat, data: seq<nat>, pos: nat, n: nat, before: seq<nat>, after: seq<nat>)
    requires WrittenSoFar(before, bytes, start, data, pos) && start + pos + n <= |bytes| && pos + n <= |data|
    requires after == Splice(before, start + pos, data[pos..pos + n])
    ensures WrittenSoFar(after, bytes, start, data, pos + n)
  {
    SpliceAppend(bytes, start, data[..pos], data[pos..pos + n]);
    assert data[..pos] + data[pos..pos + n] == data[..pos + n];
  }

  lemma PartChanged(bytes: seq<nat>, at: nat, len: nat, offset: nat, data: seq<nat>, block: seq<nat>)
    requires at + len <= |bytes| && block == bytes[at..at + len] && at <= offset && offset + |data| <= at + len
    ensures Splice(bytes, at, Splice(block, offset - at, data)) == Splice(bytes, offset, data)
  {
    SpliceInside(bytes, at, len, offset - at, data);
  }

  // A changed part of one block is a changed part of the disk.
  lemma ChunkWritten(blocks: seq<seq<nat>>, sz: nat, b: nat, offset: nat, data: seq<nat>)
    requires Blocked(blocks, sz) && b < |blocks| && b * sz <= offset && offset + |data| <= b * sz + sz
    ensures offset + |data| <= |Flat(blocks)|
    ensures Flat(blocks[b := Splice(blocks[b], offset - b * sz, data)]) == Splice(Flat(blocks), offset, data)
  {
    FlatBlock(blocks, sz, b);
    PartChanged(Flat(blocks), b * sz, sz, offset, data, blocks[b]);
    FlatSplice(blocks, sz, b, Splice(blocks[b], offset - b * sz, data));
  }

  function RoundDown(a: nat, k: nat): nat { Shl(Shr(a, k), k) }

  // The block a byte is in.
  lemma RoundDownExact(a: nat, k: nat)
    ensures RoundDown(a, k) == a / Pow2(k) * Pow2(k) <= a < RoundDown(a, k) + Pow2(k)
    ensures RoundDown(a, k) / Pow2(k) == a / Pow2(k)
  {
    ShrLow(a, k);
    LowBound(a, k);
    ShrLowDivMod(a, k);
    ShlPow2(Shr(a, k), k);
    DivModUnique(RoundDown(a, k), a / Pow2(k), Pow2(k), 0);
  }

  lemma BlockInDisk(a: nat, n: nat, sz: nat)
    requires sz > 0 && a < n * sz
    ensures a / sz < n
  {
    if a / sz >= n {
      MulMono(n, a / sz, sz);
    }
  }

  class Sd {
    const k: nat                   // blksz == 2^k
    const blksz: nat
    const buf: array<nat>          // one block
    var blocks: seq<seq<nat>>      // the device

    ghost predicate Valid()
      reads this, buf
    {
      && blksz == Pow2(k) == buf.Length
      && Blocked(blocks, blksz)
      && |blocks| * blksz <= 0x8000_0000   // what an int offset reaches
    }

    // A device of blocks of 2^k bytes, and a buffer for one of them.
    constructor (k: nat, blocks: seq<seq<nat>>)
      requires Blocked(blocks, Pow2(k)) && |blocks| * Pow2(k) <= 0x8000_0000
      ensures Valid() && this.k == k && this.blocks == blocks && fresh(buf)
    {
      this.k, blksz, this.blocks := k, Pow2(k), blocks;
      buf := new nat[Pow2(k)](_ => 0);
    }

    // The disk as its users see it.
    function Bytes(): seq<nat>
      reads this
    {
      Flat(blocks)
    }

    method BlkRead(blkno: nat)
      requires Valid() && blkno < |blocks|
      modifies buf
      ensures buf[..] == blocks[blkno]
    {
      var i := 0;
      while i < blksz
        invariant i <= blksz && buf[..i] == blocks[blkno][..i]
      {
        buf[i] := blocks[blkno][i];
        i := i + 1;
      }
    }

    method BlkWrite(blkno: nat)
      requires Valid() && blkno < |blocks|
      modifies this`blocks
      ensures Valid() && blocks == old(blocks)[blkno := buf[..]]
    {
      blocks := blocks[blkno := buf[..]];
    }

    // memcpy into a buffer (section 7.24.2.1 of C11).
    method CopyIn(dst: array<nat>, at: nat, src: seq<nat>)
      requires at + |src| <= dst.Length
      modifies dst
      ensures dst[..] == Splice(old(dst[..]), at, src)
    {
      var i := 0;
      while i < |src|
        invariant i <= |src|
        invariant forall j :: 0 <= j < dst.Length ==>
                    dst[j] == if at <= j < at + i then src[j - at] else old(dst[j])
      {
        dst[at + i] := src[i];
        i := i + 1;
      }
    }

    // The bytes left in the block from offset on, but no more than are wanted.
    function Chunk(offset: nat, st: nat, left: nat): (n: nat)
      requires st <= offset < st + blksz && left > 0
      ensures 0 < n <= left && offset + n <= st + blksz
      ensures n == left || offset + n == st + blksz
    {
      var n := blksz - (offset - st);
      if n > left then left else n
    }

    lemma BlockOf(offset: nat)
      requires Valid() && offset < |Bytes()|
      ensures var st := RoundDown(offset, k);
              && st <= offset < st + blksz <= |Bytes()|
              && st / blksz < |blocks| && st == st / blksz * blksz
              && blocks[st / blksz] == Bytes()[st..st + blksz]
    {
      FlatLength(blocks, blksz);
      RoundDownExact(offset, k);
      BlockInDisk(offset, |blocks|, blksz);
      FlatBlock(blocks, blksz, offset / blksz);
    }

    lemma NextBlock(st: nat)
      requires Valid() && st % blksz == 0
      ensures RoundDown(st, k) == st
    {
      RoundDownExact(st, k);
    }

    lemma AfterBlock(offset: nat)
      requires Valid()
      ensures RoundDown(RoundDown(offset, k) + blksz, k) == RoundDown(offset, k) + blksz
    {
      RoundDownExact(offset, k);
      var q := offset / blksz;
      assert (q + 1) * blksz == q * blksz + blksz;
      DivModUnique(RoundDown(offset, k) + blksz, q + 1, blksz, 0);
      NextBlock(RoundDown(offset, k) + blksz);
    }

    // Any bytes of the disk, in whatever blocks they are.
    method SdRead(offset0: nat, dst: array<nat>, count: nat) returns (pos: nat)
      requires Valid() && offset0 + count <= |Bytes()| && count <= dst.Length && dst != buf
      modifies buf, dst
      ensures Valid() && blocks == old(blocks) && pos == count
      ensures dst[..] == Splice(old(dst[..]), 0, Bytes()[offset0..offset0 + count])
    {
      ghost var bytes, was := Bytes(), dst[..];
      var offset := offset0;
      pos := 0;
      var st := RoundDown(offset, k);
      while pos < count
        invariant pos <= count
        invariant pos < count ==> offset == offset0 + pos && st == RoundDown(offset, k)
        invariant ReadSoFar(dst[..], was, bytes, offset0, pos)
        decreases count - pos
      {
        var n := ReadNext(offset, st, count - pos, dst, pos, offset0, was, bytes);
        pos := pos + n;
        offset := st + blksz;
        st := offset;
      }
    }

    // As much as is wanted of the block that offset is in.
    method ReadNext(offset: nat, st: nat, left: nat, dst: array<nat>, pos: nat,
                    ghost start: nat, ghost was: seq<nat>, ghost bytes: seq<nat>)
      returns (n: nat)
      requires Valid() && bytes == Bytes() && left > 0 && start + pos == offset && offset + left <= |bytes|
      requires st == RoundDown(offset, k) && dst != buf && pos + left <= |was|
      requires ReadSoFar(dst[..], was, bytes, start, pos)
      modifies buf, dst
      ensures 0 < n <= left && (n == left || offset + n == st + blksz) && RoundDown(st + blksz, k) == st + blksz
      ensures ReadSoFar(dst[..], was, bytes, start, pos + n)
    {
      BlockOf(offset);
      AfterBlock(offset);
      n := Chunk(offset, st, left);
      ghost var before := dst[..];
      ReadChunk(offset, st, n, dst, pos);
      ReadGrows(was, bytes, start, pos, n, before, dst[..]);
    }

    method ReadChunk(offset: nat, st: nat, n: nat, dst: array<nat>, pos: nat)
      requires Valid() && offset < |Bytes()| && st == RoundDown(offset, k) && st <= offset
      requires offset + n <= st + blksz <= |Bytes()| && pos + n <= dst.Length && dst != buf
      modifies buf, dst
      ensures Valid() && dst[..] == Splice(old(dst[..]), pos, Bytes()[offset..offset + n])
    {
      BlockOf(offset);
      BlkRead(st / blksz);
      SliceSlice(Bytes(), st, blksz, offset - st, n);
      CopyIn(dst, pos, buf[offset - st..offset - st + n]);
    }

    // Any bytes of the disk, leaving the rest of their blocks as they were.
    method SdWrite(offset0: nat, src: array<nat>, count: nat) returns (pos: nat)
      requires Valid() && offset0 + count <= |Bytes()| && count <= src.Length && src != buf
      modifies this`blocks, buf
      ensures Valid() && pos == count && |blocks| == |old(blocks)|
      ensures Bytes() == Splice(old(Bytes()), offset0, src[..][..count])
    {
      ghost var bytes := Bytes();
      var offset := offset0;
      pos := 0;
      var st := RoundDown(offset, k);
      while pos < count
        invariant pos <= count && Valid() && |blocks| == |old(blocks)|
        invariant pos < count ==> offset == offset0 + pos && st == RoundDown(offset, k)
        invariant WrittenSoFar(Bytes(), bytes, offset0, src[..], pos)
        decreases count - pos
      {
        var n := WriteNext(offset, st, count - pos, src, pos, offset0, bytes);
        pos := pos + n;
        offset := st + blksz;
        st := offset;
      }
    }

    // As much as is given for the block that offset is in.
    method WriteNext(offset: nat, st: nat, left: nat, src: array<nat>, pos: nat,
                     ghost start: nat, ghost bytes: seq<nat>)
      returns (n: nat)
      requires Valid() && left > 0 && start + pos == offset && offset + left <= |bytes|
      requires st == RoundDown(offset, k) && src != buf && pos + left <= src.Length
      requires WrittenSoFar(Bytes(), bytes, start, src[..], pos)
      modifies this`blocks, buf
      ensures Valid() && |blocks| == |old(blocks)|
      ensures 0 < n <= left && (n == left || offset + n == st + blksz) && RoundDown(st + blksz, k) == st + blksz
      ensures WrittenSoFar(Bytes(), bytes, start, src[..], pos + n)
    {
      BlockOf(offset);
      AfterBlock(offset);
      n := Chunk(offset, st, left);
      ghost var before := Bytes();
      WriteChunk(offset, st, src[pos..pos + n]);
      WriteGrows(bytes, start, src[..], pos, n, before, Bytes());
    }

    // A part of one block: read, changed and written back; a whole block needs no reading.
    method WriteChunk(offset: nat, st: nat, data: seq<nat>)
      requires Valid() && offset < |Bytes()| && st == RoundDown(offset, k) && st <= offset
      requires |data| > 0 && offset + |data| <= st + blksz <= |Bytes()|
      modifies this`blocks, buf
      ensures Valid() && |blocks| == |old(blocks)|
      ensures Bytes() == Splice(old(Bytes()), offset, data)
    {
      BlockOf(offset);
      var n := |data|;
      if n < blksz {
        BlkRead(st / blksz);
      }
      CopyIn(buf, offset - st, data);
      ghost var block := blocks[st / blksz];
      assert |block| == blksz && buf[..] == Splice(block, offset - st, data);
      ChunkWritten(blocks, blksz, st / blksz, offset, data);
      BlkWrite(st / blksz);
    }
  }
}

/** lib/bio/bio.c: reads, writes and erases of any byte range on a device that only knows blocks. */
module Bio {
  import opened Wrappers
  import opened Multiples

  // ------------------------------------------------------------- range checks

  const OFF_MAX: int := 0x8000_0000_0000_0000
  const SIZE_MAX: int := 0x1_0000_0000_0000_0000
  const UINT_MAX: int := 0x1_0000_0000

  /** (off_t)x of an unsigned 64-bit sum */
  function ToOff(x: nat): int {
    var u := x % SIZE_MAX;
    if u >= OFF_MAX then u - SIZE_MAX else u
  }

  /** bio_trim_range */
  function TrimRange(total: nat, offset: int, len: nat): int {
    if offset < 0 then 0
    else if offset >= total then 0
    else if len == 0 then 0
    else if ToOff(offset + len) > total then total - offset
    else len
  }

  /** The part of [offset, offset + len) that lies on the device. */
  function Clip(total: nat, offset: int, len: nat): nat {
    if offset < 0 || offset >= total then 0 else if offset + len > total then total - offset else len
  }

  /** The end of the range is a proper off_t, or so large that it wraps beyond the device again. */
  predicate TrimsRight(total: nat, offset: int, len: nat) {
    offset < 0 || offset >= total || offset + len < OFF_MAX || offset + len > SIZE_MAX + total
  }

  /** Trimming is right exactly while the end of the range is a proper off_t, or so large that
      the wrapped end lies beyond the device again. */
  lemma TrimRangeIff(total: nat, offset: int, len: nat)
    requires total < OFF_MAX && -OFF_MAX <= offset < OFF_MAX && len < SIZE_MAX
    ensures TrimRange(total, offset, len) == Clip(total, offset, len)
       <==> TrimsRight(total, offset, len)
  {
  }

  /** On a device of 4096 bytes, a length of 2^63 is not trimmed at all. */
  lemma TrimExample()
    ensures Clip(4096, 0, OFF_MAX) == 4096 && TrimRange(4096, 0, OFF_MAX) == OFF_MAX
  {
  }

  /** bio_trim_block_range */
  function TrimBlockRange(blockCount: nat, block: nat, count: nat): int {
    if block > blockCount then 0
    else if count == 0 then 0
    else if (block + count) % UINT_MAX > blockCount then blockCount - block
    else count
  }

  lemma TrimBlockRangeIff(blockCount: nat, block: nat, count: nat)
    requires blockCount < UINT_MAX && block < UINT_MAX && count < UINT_MAX
    ensures TrimBlockRange(blockCount, block, count) == (if block > blockCount then 0 else if block + count > blockCount then blockCount - block else count)
       <==> block > blockCount || block + count < UINT_MAX
  {
  }

  /** On a device of 8 blocks, 2^32 - 1 blocks from block 1 on are not trimmed. */
  lemma TrimBlockExample()
    ensures TrimBlockRange(8, 1, UINT_MAX - 1) == UINT_MAX - 1
  {
  }

  /** divpow2(len, block_shift): the length is cut to 32 bits first */
  function WholeBlocks(len: nat, bs: nat): nat
    requires bs > 0
  {
    (len % UINT_MAX) / bs
  }

  /** Less than a block is left after the direct transfer exactly when the length fits 32 bits. */
  lemma DirectLeavesPartIff(len: nat, bs: nat)
    requires 0 < bs <= UINT_MAX
    ensures Pos(WholeBlocks(len, bs), bs) <= len
    ensures len - Pos(WholeBlocks(len, bs), bs) < bs <==> len < UINT_MAX
  {
    var u := len % UINT_MAX;
    PosOf(u, bs);
    assert len >= UINT_MAX ==> len - u >= UINT_MAX;
  }

  /** Of 2^32 bytes the direct transfer moves none. */
  lemma DirectExample()
    ensures WholeBlocks(UINT_MAX, 512) == 0 && UINT_MAX - Pos(WholeBlocks(UINT_MAX, 512), 512) == UINT_MAX
  {
  }

  // ------------------------------------------------------------- positions

  /** Where block `n` begins: n * bs. */
  function Pos(n: nat, bs: nat): nat { if n == 0 then 0 else Pos(n - 1, bs) + bs }

  lemma {:induction false} PosIs(n: nat, bs: nat)
    ensures Pos(n, bs) == n * bs
  {
    if n > 0 { PosIs(n - 1, bs); }
  }

  lemma {:induction false} PosAdds(a: nat, b: nat, bs: nat)
    ensures Pos(a + b, bs) == Pos(a, bs) + Pos(b, bs)
  {
    if b > 0 { PosAdds(a, b - 1, bs); }
  }

  lemma {:induction false} PosOrder(a: nat, b: nat, bs: nat)
    ensures a <= b ==> Pos(a, bs) <= Pos(b, bs)
  {
    if a < b { PosOrder(a, b - 1, bs); }
  }

  lemma PosOf(offset: nat, bs: nat)
    requires bs > 0
    ensures offset == Pos(offset / bs, bs) + offset % bs && offset % bs < bs
  {
    MultipleForm(offset, bs);
    PosIs(offset / bs, bs);
  }

  /** How much of a transfer lies in a block it does not begin at the start of. */
  function HeadLen(offset: nat, len: nat, bs: nat): (r: nat)
    requires bs > 0
    ensures r <= len
  {
    if offset % bs == 0 then 0 else if bs - offset % bs <= len then bs - offset % bs else len
  }

  /** What is left of a trimmed transfer after its head fits 32 bits, or goes block by block. */
  predicate Direct(total: nat, offset: int, len: nat, bs: nat, bounce: bool)
    requires bs > 0
  {
    var n := Clip(total, offset, len);
    bounce || n == 0 || offset < 0 || n - HeadLen(offset, n, bs) < UINT_MAX
  }

  // ------------------------------------------------------------- the byte array

  /** `s` with `b` in place of the bytes from `off` on. */
  function Splice(s: seq<byte>, off: nat, b: seq<byte>): seq<byte>
    requires off + |b| <= |s|
  {
    s[..off] + b + s[off + |b|..]
  }

  lemma SpliceTwo(s: seq<byte>, off: nat, a: seq<byte>, b: seq<byte>)
    requires off + |a| + |b| <= |s|
    ensures Splice(Splice(s, off, a), off + |a|, b) == Splice(s, off, a + b)
  {
  }

  lemma Join(s: seq<byte>, a: nat, b: nat, c: nat)
    requires a <= b <= c <= |s|
    ensures s[a..b] + s[b..c] == s[a..c]
  {
  }

  lemma Prefix(s: seq<byte>, p: nat, n: nat, m: nat)
    requires n <= m && p + m <= |s|
    ensures s[p..p + m][..n] == s[p..p + n]
  {
  }

  lemma Within(s: seq<byte>, p: nat, m: nat, at: nat, n: nat)
    requires at + n <= m && p + m <= |s|
    ensures s[p..p + m][at..at + n] == s[p + at..p + at + n]
  {
    var l, r := s[p..p + m][at..at + n], s[p + at..p + at + n];
    assert |l| == |r| && forall i | 0 <= i < n :: l[i] == s[p + at + i] == r[i];
  }

  /** Writing a buffer piece by piece. */
  lemma SpliceMore(s: seq<byte>, off: nat, buf: seq<byte>, a: nat, b: nat)
    requires a <= b <= |buf| && off + |buf| <= |s|
    ensures Splice(Splice(s, off, buf[..a]), off + a, buf[a..b]) == Splice(s, off, buf[..b])
  {
    SpliceTwo(s, off, buf[..a], buf[a..b]);
    assert buf[..a] + buf[a..b] == buf[..b];
  }

  /** Rewriting a block with some of its bytes changed changes only those. */
  lemma SpliceWithin(s: seq<byte>, start: nat, block: seq<byte>, at: nat, b: seq<byte>)
    requires start + |block| <= |s| && s[start..start + |block|] == block && at + |b| <= |block|
    ensures Splice(s, start, Splice(block, at, b)) == Splice(s, start + at, b)
  {
    var l, r := Splice(s, start, Splice(block, at, b)), Splice(s, start + at, b);
    forall i | 0 <= i < |s| ensures l[i] == r[i] {
      if start <= i < start + |block| { assert s[i] == block[i - start]; }
    }
  }

  /** `s'` is `s` with `b` written at `off`; opened by `assert Open(0)` where the bytes matter. */
  ghost predicate Written(s: seq<byte>, off: nat, b: seq<byte>, s': seq<byte>) {
    off + |b| <= |s| && |s'| == |s| && forall u {:trigger Open(u)} :: Open(u) ==> s' == Splice(s, off, b)
  }

  lemma WrittenNothing(s: seq<byte>, off: nat)
    requires off <= |s|
    ensures Written(s, off, [], s)
  {
    assert Open(0);
  }

  lemma WrittenIs(s: seq<byte>, off: nat, b: seq<byte>, s': seq<byte>)
    requires Written(s, off, b, s')
    ensures s' == Splice(s, off, b)
  {
    assert Open(0);
  }

  lemma PatchIs(s: seq<byte>, p: nat, block: seq<byte>, at: nat, b: seq<byte>, s': seq<byte>)
    requires p + |block| <= |s| && block == s[p..p + |block|] && at + |b| <= |block| && Written(s, p, Splice(block, at, b), s')
    ensures Written(s, p + at, b, s')
  {
    assert Open(0);
    SpliceWithin(s, p, block, at, b);
  }

  lemma WrittenMore(s: seq<byte>, off: nat, buf: seq<byte>, a: nat, b: nat, s1: seq<byte>, s2: seq<byte>)
    requires a <= b <= |buf| && off + |buf| <= |s|
    requires Written(s, off, buf[..a], s1) && Written(s1, off + a, buf[a..b], s2)
    ensures Written(s, off, buf[..b], s2)
  {
    assert Open(0);
    SpliceMore(s, off, buf, a, b);
  }

  function Filled(n: nat, b: byte): seq<byte> { seq(n, _ => b) }

  lemma FilledSlice(len: nat, a: nat, n: nat, e: byte)
    requires a + n <= len
    ensures Filled(len, e)[a..a + n] == Filled(n, e)
  {
  }

  /** What a read of the range gives back after a write of it, and of anything apart from it. */
  lemma ReadAfterWrite(s: seq<byte>, off: nat, b: seq<byte>, at: nat, len: nat)
    requires off + |b| <= |s| && at + len <= |s|
    ensures Splice(s, off, b)[off..off + |b|] == b
    ensures at + len <= off || off + |b| <= at ==> Splice(s, off, b)[at..at + len] == s[at..at + len]
  {
  }

  // ------------------------------------------------------------- the device

  class BlockDevice {
    const bs: nat
    const blockCount: nat
    const data: array<byte>
    const eraseByte: byte

    ghost predicate Valid()
      reads this
    {
      0 < bs <= UINT_MAX && data.Length == Pos(blockCount, bs)
    }

    constructor (blockSize: nat, count: nat)
      requires 0 < blockSize <= UINT_MAX
      ensures Valid() && bs == blockSize && blockCount == count && fresh(data)
    {
      bs, blockCount, eraseByte := blockSize, count, 0;
      data := new byte[Pos(count, blockSize)](_ => 0);
    }

    /** Blocks on the device end on the device. */
    lemma BlocksInside(block: nat, n: nat)
      requires Valid() && block + n <= blockCount
      ensures Pos(block, bs) + Pos(n, bs) <= data.Length
    {
      PosAdds(block, n, bs);
      PosAdds(block + n, blockCount - block - n, bs);
    }

    /** A byte on the device lies in a block on the device. */
    lemma InDevice(block: nat)
      requires Valid() && Pos(block, bs) < data.Length
      ensures block < blockCount
    {
      PosOrder(blockCount, block, bs);
    }

    lemma BlocksFit(block: nat, n: nat)
      requires Valid() && Pos(block, bs) + Pos(n, bs) <= data.Length
      ensures block + n <= blockCount
    {
      PosAdds(block, n, bs);
      PosOrder(blockCount + 1, block + n, bs);
    }

    /** dev->read_block, succeeding */
    method ReadBlock(block: nat, n: nat) returns (r: seq<byte>)
      requires Valid() && block + n <= blockCount
      ensures Pos(block, bs) + Pos(n, bs) <= data.Length && r == data[Pos(block, bs)..Pos(block, bs) + Pos(n, bs)]
    {
      BlocksInside(block, n);
      r := data[Pos(block, bs)..Pos(block, bs) + Pos(n, bs)];
    }

    /** dev->write_block, succeeding */
    method WriteBlock(block: nat, b: seq<byte>, n: nat)
      requires Valid() && block + n <= blockCount && |b| == Pos(n, bs)
      modifies data
      ensures Pos(block, bs) + |b| <= data.Length && Written(old(data[..]), Pos(block, bs), b, data[..])
    {
      BlocksInside(block, n);
      var at := Pos(block, bs);
      forall i | 0 <= i < |b| { data[at + i] := b[i]; }
      assert data[..] == Splice(old(data[..]), at, b);
    }

    /** One block into the bounce buffer; `p` is where it is. */
    method ReadOne(block: nat, ghost p: nat) returns (r: seq<byte>)
      requires Valid() && p == Pos(block, bs) && p < data.Length
      ensures p + bs <= data.Length && r == data[..][p..p + bs] && Pos(block + 1, bs) == p + bs
    {
      InDevice(block);
      PosAdds(block, 1, bs);
      assert Pos(1, bs) == bs;
      r := ReadBlock(block, 1);
    }

    /** The whole blocks in the middle of a read, one by one through the bounce buffer. */
    method ReadBounced(first: nat, len: nat) returns (b: seq<byte>, block: nat)
      requires Valid() && Pos(first, bs) + len <= data.Length
      ensures |b| <= len && b == data[Pos(first, bs)..Pos(first, bs) + |b|] && Pos(block, bs) == Pos(first, bs) + |b|
      ensures len - |b| < bs
    {
      b, block := [], first;
      ghost var at := Pos(first, bs);
      ghost var p := at;
      while len - |b| >= bs
        invariant |b| <= len && p == at + |b| && b == data[..][at..p] && p == Pos(block, bs)
        decreases len - |b|
      {
        var temp := ReadOne(block, p);
        Join(data[..], at, p, p + bs);
        b, p := b + temp, p + bs;
        block := block + 1;
      }
    }

    /** The same in one transfer. */
    method ReadDirect(first: nat, len: nat) returns (b: seq<byte>, block: nat)
      requires Valid() && Pos(first, bs) + len <= data.Length && len < UINT_MAX
      ensures |b| <= len && b == data[Pos(first, bs)..Pos(first, bs) + |b|] && Pos(block, bs) == Pos(first, bs) + |b|
      ensures len - |b| < bs
    {
      var n := WholeBlocks(len, bs);
      DirectLeavesPartIff(len, bs);
      BlocksFit(first, n);
      PosAdds(first, n, bs);
      b := ReadBlock(first, n);
      block := first + n;
    }

    /** The part of a read that begins inside a block. */
    method ReadHead(offset: nat, len: nat) returns (b: seq<byte>, block: nat)
      requires Valid() && 0 < len && offset + len <= data.Length
      ensures |b| == HeadLen(offset, len, bs) && b == data[offset..offset + |b|] && (|b| < len ==> Pos(block, bs) == offset + |b|)
    {
      b, block := [], offset / bs;
      PosOf(offset, bs);
      InDevice(block);
      if offset % bs != 0 {
        var at := offset % bs;
        var temp := ReadOne(block, offset - at);
        var toCopy := if bs - at <= len then bs - at else len;
        Within(data[..], offset - at, bs, at, toCopy);
        b := temp[at..at + toCopy];
        block := block + 1;
      }
    }

    method ReadMiddle(first: nat, len: nat, bounce: bool) returns (b: seq<byte>, block: nat)
      requires Valid() && Pos(first, bs) + len <= data.Length && (bounce || len < UINT_MAX)
      ensures |b| <= len && b == data[Pos(first, bs)..Pos(first, bs) + |b|] && Pos(block, bs) == Pos(first, bs) + |b|
      ensures len - |b| < bs
    {
      if bounce { b, block := ReadBounced(first, len); } else { b, block := ReadDirect(first, len); }
    }

    /** The first `n` bytes of a block. */
    method ReadTail(block: nat, n: nat) returns (b: seq<byte>)
      requires Valid() && Pos(block, bs) < data.Length && n <= bs
      ensures Pos(block, bs) + n <= data.Length && b == data[..][Pos(block, bs)..Pos(block, bs) + n]
    {
      ghost var p := Pos(block, bs);
      var temp := ReadOne(block, p);
      b := temp[..n];
      Prefix(data[..], p, n, bs);
    }

    /** A read from a block boundary on. */
    method ReadRest(first: nat, len: nat, bounce: bool) returns (b: seq<byte>)
      requires Valid() && Pos(first, bs) + len <= data.Length && (bounce || len < UINT_MAX)
      ensures b == data[Pos(first, bs)..Pos(first, bs) + len]
    {
      var block;
      b, block := ReadMiddle(first, len, bounce);
      if |b| < len {
        var at := Pos(first, bs);
        var tail := ReadTail(block, len - |b|);
        Join(data[..], at, at + |b|, at + len);
        assert tail == data[..][at + |b|..at + len];
        b := b + tail;
      }
    }

    /** bio_default_read: exactly the bytes asked for */
    method DefaultRead(offset: nat, len: nat, bounce: bool) returns (buf: seq<byte>)
      requires Valid() && 0 < len && offset + len <= data.Length
      requires bounce || len - HeadLen(offset, len, bs) < UINT_MAX
      ensures buf == data[offset..offset + len]
    {
      var block;
      buf, block := ReadHead(offset, len);
      if |buf| < len {
        var rest := ReadRest(block, len - |buf|, bounce);
        Join(data[..], offset, offset + |buf|, offset + len);
        buf := buf + rest;
      }
    }

    /** The whole blocks in the middle of a write, one by one through the bounce buffer. */
    method WriteBounced(first: nat, buf: seq<byte>) returns (done: nat, block: nat)
      requires Valid() && Pos(first, bs) + |buf| <= data.Length
      modifies data
      ensures done <= |buf| && Written(old(data[..]), Pos(first, bs), buf[..done], data[..])
      ensures Pos(block, bs) == Pos(first, bs) + done && |buf| - done < bs
    {
      done, block := 0, first;
      ghost var was, at := data[..], Pos(first, bs);
      WrittenNothing(was, at);
      while |buf| - done >= bs
        invariant done <= |buf| && Written(was, at, buf[..done], data[..]) && Pos(block, bs) == at + done
        decreases |buf| - done
      {
        WriteNext(block, buf, done, at, was);
        done := done + bs;
        block := block + 1;
      }
    }

    /** One turn of that loop. */
    method WriteNext(block: nat, buf: seq<byte>, done: nat, ghost at: nat, ghost was: seq<byte>)
      requires Valid() && done + bs <= |buf| && at + |buf| <= data.Length == |was| && Pos(block, bs) == at + done
      requires Written(was, at, buf[..done], data[..])
      modifies data
      ensures Written(was, at, buf[..done + bs], data[..]) && Pos(block + 1, bs) == at + done + bs
    {
      ghost var mid := data[..];
      WriteOne(block, buf[done..done + bs], at + done);
      WrittenMore(was, at, buf, done, done + bs, mid, data[..]);
    }

    /** One block from the bounce buffer; `p` is where it goes. */
    method WriteOne(block: nat, b: seq<byte>, ghost p: nat)
      requires Valid() && p == Pos(block, bs) && p < data.Length && |b| == bs
      modifies data
      ensures Pos(block + 1, bs) == p + bs && Written(old(data[..]), p, b, data[..])
    {
      InDevice(block);
      PosAdds(block, 1, bs);
      assert Pos(1, bs) == bs;
      WriteBlock(block, b, 1);
    }

    /** The same in one transfer. */
    method WriteDirect(first: nat, buf: seq<byte>) returns (done: nat, block: nat)
      requires Valid() && Pos(first, bs) + |buf| <= data.Length && |buf| < UINT_MAX
      modifies data
      ensures done <= |buf| && Written(old(data[..]), Pos(first, bs), buf[..done], data[..])
      ensures Pos(block, bs) == Pos(first, bs) + done && |buf| - done < bs
    {
      var n := WholeBlocks(|buf|, bs);
      DirectLeavesPartIff(|buf|, bs);
      BlocksFit(first, n);
      PosAdds(first, n, bs);
      done := Pos(n, bs);
      WriteBlock(first, buf[..done], n);
      block := first + n;
    }

    /** Some bytes of one block are replaced: read it, change it, write it back. */
    method Patch(block: nat, at: nat, b: seq<byte>, ghost p: nat)
      requires Valid() && p == Pos(block, bs) && p < data.Length && at + |b| <= bs
      modifies data
      ensures Written(old(data[..]), p + at, b, data[..])
    {
      ghost var was := data[..];
      var temp := ReadOne(block, p);
      WriteOne(block, Splice(temp, at, b), p);
      PatchIs(was, p, temp, at, b, data[..]);
    }

    /** The part of a write that begins inside a block. */
    method WriteHead(buf: seq<byte>, offset: nat) returns (done: nat, block: nat)
      requires Valid() && 0 < |buf| && offset + |buf| <= data.Length
      modifies data
      ensures done == HeadLen(offset, |buf|, bs) && Written(old(data[..]), offset, buf[..done], data[..])
      ensures done < |buf| ==> Pos(block, bs) == offset + done
    {
      done, block := 0, offset / bs;
      PosOf(offset, bs);
      InDevice(block);
      WrittenNothing(data[..], offset);
      if offset % bs != 0 {
        var at := offset % bs;
        done := Min(bs - at, |buf|);
        PosAdds(block, 1, bs);
        assert Pos(1, bs) == bs;
        Patch(block, at, buf[..done], offset - at);
        block := block + 1;
      }
    }

    method WriteMiddle(first: nat, buf: seq<byte>, bounce: bool) returns (done: nat, block: nat)
      requires Valid() && Pos(first, bs) + |buf| <= data.Length && (bounce || |buf| < UINT_MAX)
      modifies data
      ensures done <= |buf| && Written(old(data[..]), Pos(first, bs), buf[..done], data[..])
      ensures Pos(block, bs) == Pos(first, bs) + done && |buf| - done < bs
    {
      if bounce { done, block := WriteBounced(first, buf); } else { done, block := WriteDirect(first, buf); }
    }

    /** A write from a block boundary on. */
    method WriteRest(first: nat, buf: seq<byte>, bounce: bool)
      requires Valid() && Pos(first, bs) + |buf| <= data.Length && (bounce || |buf| < UINT_MAX)
      modifies data
      ensures Written(old(data[..]), Pos(first, bs), buf, data[..])
    {
      ghost var was, at := data[..], Pos(first, bs);
      var done, block := WriteMiddle(first, buf, bounce);
      assert buf[..|buf|] == buf;
      if done < |buf| {
        ghost var mid := data[..];
        assert buf[done..|buf|] == buf[done..];
        Patch(block, 0, buf[done..], at + done);
        WrittenMore(was, at, buf, done, |buf|, mid, data[..]);
      }
    }

    /** bio_default_write: exactly the bytes given, the rest of the first and last block kept */
    method DefaultWrite(buf: seq<byte>, offset: nat, bounce: bool)
      requires Valid() && 0 < |buf| && offset + |buf| <= data.Length
      requires bounce || |buf| - HeadLen(offset, |buf|, bs) < UINT_MAX
      modifies data
      ensures Written(old(data[..]), offset, buf, data[..]) && data[..] == Splice(old(data[..]), offset, buf)
    {
      ghost var was := data[..];
      var done, block := WriteHead(buf, offset);
      assert buf[..|buf|] == buf;
      if done < |buf| {
        ghost var mid := data[..];
        assert buf[done..|buf|] == buf[done..];
        WriteRest(block, buf[done..], bounce);
        WrittenMore(was, offset, buf, done, |buf|, mid, data[..]);
      }
      WrittenIs(was, offset, buf, data[..]);
    }

    /** One write of bio_default_erase, after `erased` bytes of `len`. */
    method ErasePiece(offset: nat, len: nat, erased: nat, bounce: bool, ghost was: seq<byte>) returns (n: nat)
      requires Valid() && erased < len && offset + len <= data.Length == |was| && bs < UINT_MAX
      requires Written(was, offset, Filled(len, eraseByte)[..erased], data[..])
      modifies data
      ensures 0 < n <= len - erased && Written(was, offset, Filled(len, eraseByte)[..erased + n], data[..])
    {
      n := Min(len - erased, bs);
      ghost var mid := data[..];
      DefaultWrite(Filled(n, eraseByte), offset + erased, bounce);
      FilledSlice(len, erased, n, eraseByte);
      WrittenMore(was, offset, Filled(len, eraseByte), erased, erased + n, mid, data[..]);
    }

    /** bio_default_erase: the erase byte over exactly the range, block-sized pieces at a time */
    method DefaultErase(offset: nat, len: nat, bounce: nat -> bool) returns (erased: nat)
      requires Valid() && 0 < len && offset + len <= data.Length && bs < UINT_MAX
      modifies data
      ensures data[..] == Splice(old(data[..]), offset, Filled(len, eraseByte)) && erased == len
    {
      ghost var was, all := data[..], Filled(len, eraseByte);
      erased := 0;
      WrittenNothing(was, offset);
      while erased < len
        invariant erased <= len && Written(was, offset, all[..erased], data[..])
      {
        var n := ErasePiece(offset, len, erased, bounce(erased), was);
        erased := erased + n;
      }
      assert all[..len] == all;
      WrittenIs(was, offset, all, data[..]);
    }

    /** bio_read: the bytes of the range that are on the device */
    method Read(offset: int, len: nat, bounce: bool) returns (buf: seq<byte>)
      requires Valid() && data.Length < OFF_MAX && -OFF_MAX <= offset < OFF_MAX && len < SIZE_MAX
      requires TrimsRight(data.Length, offset, len) && Direct(data.Length, offset, len, bs, bounce)
      ensures |buf| == Clip(data.Length, offset, len)
      ensures |buf| > 0 ==> buf == data[offset..offset + |buf|]
    {
      TrimRangeIff(data.Length, offset, len);
      var n := TrimRange(data.Length, offset, len);
      if n == 0 { return []; }
      buf := DefaultRead(offset, n, bounce);
    }

    /** bio_write: the bytes that fit on the device, and no others */
    method Write(buf: seq<byte>, offset: int, bounce: bool) returns (n: nat)
      requires Valid() && data.Length < OFF_MAX && -OFF_MAX <= offset < OFF_MAX && |buf| < SIZE_MAX
      requires TrimsRight(data.Length, offset, |buf|) && Direct(data.Length, offset, |buf|, bs, bounce)
      modifies data
      ensures n == Clip(data.Length, offset, |buf|)
      ensures data[..] == if n == 0 then old(data[..]) else Splice(old(data[..]), offset, buf[..n])
    {
      TrimRangeIff(data.Length, offset, |buf|);
      n := TrimRange(data.Length, offset, |buf|);
      if n > 0 { DefaultWrite(buf[..n], offset, bounce); }
    }
  }
}

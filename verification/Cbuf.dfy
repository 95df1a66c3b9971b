/** lib/cbuf/cbuf.c: a ring of 2^k bytes that is a FIFO of at most 2^k - 1 bytes, with an event
    that is signaled while there is something to read. */
module Cbuf {
  import opened Wrappers
  import opened Multiples
  import opened SchedSpec
  import opened SchedIdle
  import Sched
  import Event
  import EventLock

  /** Subtraction of C's 32-bit unsigned integers. */
  function UintSub(a: nat, b: nat): nat { (a - b) % 0x1_0000_0000 }

  /** modpow2: the low `k` bits */
  function ModPow2(v: nat, k: nat): nat { v % Pow2(k) }

  /** Wrap-around at 2^32 does no harm below it. */
  lemma UintSubMod(a: nat, b: nat, k: nat)
    requires k <= 32 && a < Pow2(k) && b < Pow2(k)
    ensures ModPow2(UintSub(a, b), k) == if a >= b then a - b else Pow2(k) - b + a
  {
    Pow2Adds(k, 32 - k);
    WordIs();
    WrapMod(a, b, Pow2(k), Pow2(32 - k));
  }

  lemma WordIs()
    ensures Pow2(32) == 0x1_0000_0000
  {
    assert Pow2(8) == 0x100 && Pow2(16) == 0x1_0000 && Pow2(24) == 0x100_0000;
  }

  lemma WrapMod(a: nat, b: nat, n: nat, m: nat)
    requires n * m == 0x1_0000_0000 && m >= 1 && a < n && b < n
    ensures UintSub(a, b) % n == if a >= b then a - b else n - b + a
  {
    AtLeast(n, m);
    if a >= b {
      ModOf(0, n, a - b);
    } else {
      assert UintSub(a, b) == n * (m - 1) + (n - b + a);
      ModOf(m - 1, n, n - b + a);
    }
  }

  // ------------------------------------------------------------- the ring

  /** What a ring holds, oldest first. */
  ghost function Held(b: seq<byte>, head: nat, tail: nat): seq<byte>
    requires head < |b| && tail < |b|
  {
    if head >= tail then b[tail..head] else b[tail..] + b[..head]
  }

  /** The next place in the ring, for an increment that reaches the end of the buffer at most */
  function Inc(p: nat, inc: nat, n: nat): nat
    requires p < n && p + inc <= n
  {
    if p + inc == n then 0 else p + inc
  }

  /** It is modpow2 of the sum. */
  lemma IncIsMod(p: nat, inc: nat, n: nat)
    requires p < n && p + inc <= n
    ensures Inc(p, inc, n) == (p + inc) % n
  {
    if p + inc < n { ModOf(0, n, p + inc); } else { ModOf(1, n, 0); }
  }

  /** The contiguous room after the head, as the three cases of cbuf_write work it out. */
  function Room(n: nat, head: nat, tail: nat): (r: nat)
    requires head < n && tail < n
    ensures head + r <= n
  {
    if head >= tail then (if tail == 0 then n - head - 1 else n - head) else tail - head - 1
  }

  /** Copying into the room after the head appends. */
  lemma WriteAppends(b: seq<byte>, b': seq<byte>, head: nat, tail: nat, chunk: seq<byte>)
    requires head < |b| && tail < |b| && |chunk| <= Room(|b|, head, tail)
    requires b' == b[..head] + chunk + b[head + |chunk|..]
    ensures Held(b', Inc(head, |chunk|, |b|), tail) == Held(b, head, tail) + chunk
  {
    var head' := Inc(head, |chunk|, |b|);
    if head >= tail {
      if head' == 0 && |chunk| > 0 {
        assert b'[tail..] == b[tail..head] + chunk;
        assert b'[tail..] + b'[..0] == b'[tail..];
      } else {
        assert b'[tail..head'] == b[tail..head] + chunk;
      }
    } else {
      assert b'[tail..] == b[tail..] && b'[..head'] == b[..head] + chunk;
    }
  }

  /** The contiguous bytes after the tail, as the two cases of cbuf_read work it out. */
  function Run(n: nat, head: nat, tail: nat): (r: nat)
    requires head < n && tail < n
    ensures tail + r <= n
  {
    if head > tail then head - tail else n - tail
  }

  /** Moving the tail on drops the bytes it passes. */
  lemma ReadDrops(b: seq<byte>, head: nat, tail: nat, k: nat)
    requires head < |b| && tail < |b| && head != tail && k <= Run(|b|, head, tail)
    ensures k <= |Held(b, head, tail)|
    ensures b[tail..tail + k] == Held(b, head, tail)[..k]
    ensures Held(b, head, Inc(tail, k, |b|)) == Held(b, head, tail)[k..]
  {
    if tail + k == |b| && head < tail {
      assert Held(b, head, tail)[k..] == b[..head];
    }
  }

  lemma Regroup(a: seq<byte>, b: seq<byte>, c: seq<byte>)
    ensures (a + b) + c == a + (b + c)
  {
  }

  lemma AppendMore(was: seq<byte>, data: seq<byte>, pos: nat, n: nat)
    requires pos + n <= |data|
    ensures (was + data[..pos]) + data[pos..][..n] == was + data[..pos + n]
  {
    assert data[..pos] + data[pos..][..n] == data[..pos + n];
    Regroup(was, data[..pos], data[pos..][..n]);
  }

  /** A ring that is not full has room after its head, and no more than is free. */
  lemma RoomLeft(b: seq<byte>, head: nat, tail: nat)
    requires head < |b| && tail < |b|
    ensures |Held(b, head, tail)| < |b|
    ensures |Held(b, head, tail)| < |b| - 1 ==> 0 < Room(|b|, head, tail)
    ensures |Held(b, head, tail)| + Room(|b|, head, tail) < |b|
  {
  }

  lemma Rejoin(s: seq<byte>, k: nat)
    requires k <= |s|
    ensures s[..k] + s[k..] == s
  {
  }

  lemma TakeOut(b: seq<byte>, head: nat, tail: nat, k: nat)
    requires head < |b| && tail < |b| && head != tail && k <= Run(|b|, head, tail)
    ensures Inc(tail, k, |b|) < |b| && b[tail..tail + k] + Held(b, head, Inc(tail, k, |b|)) == Held(b, head, tail)
  {
    ReadDrops(b, head, tail, k);
    Rejoin(Held(b, head, tail), k);
  }

  lemma PrefixIs(a: seq<byte>, b: seq<byte>)
    ensures (a + b)[..|a|] == a && (a + b)[|a|..] == b
  {
  }

  class Ring {
    const lenPow2: nat
    const buf: array<byte>
    var head: nat
    var tail: nat
    const event: EventLock.EventT

    /** The event is signaled exactly while the ring is not empty, and then nobody waits for it. */
    ghost predicate Valid()
      reads this, buf, event, event.kernel
    {
      && Shape() && event.Valid() && !event.auto && Event.Inv(event.View())
      && (event.signaled <==> head != tail)
    }

    ghost predicate Shape()
      reads this
    {
      lenPow2 < 32 && buf.Length == Pow2(lenPow2) && head < buf.Length && tail < buf.Length
    }

    ghost function Contents(): seq<byte>
      requires Shape()
      reads this, buf
    {
      Held(buf[..], head, tail)
    }

    /** cbuf_initialize, for a power of two */
    constructor (k: nat, kernel: Sched.Kernel, wait: Wid)
      requires k < 32 && kernel.Valid() && wait in kernel.waits && kernel.waits[wait].list == []
      ensures Valid() && lenPow2 == k && Contents() == [] && fresh(buf) && fresh(event) && event.kernel == kernel
    {
      lenPow2, head, tail := k, 0, 0;
      buf := new byte[Pow2(k)](_ => 0);
      event := new EventLock.EventT(kernel, wait, false, false);
    }

    /** cbuf_space_used */
    method SpaceUsed() returns (n: nat)
      requires Shape()
      ensures n == |Contents()|
    {
      UintSubMod(head, tail, lenPow2);
      n := ModPow2(UintSub(head, tail), lenPow2);
    }

    /** cbuf_space_avail */
    method SpaceAvail() returns (n: nat)
      requires Shape()
      ensures n == Pow2(lenPow2) - 1 - |Contents()|
    {
      UintSubMod(head, tail, lenPow2);
      var consumed := ModPow2(UintSub(head, tail), lenPow2);
      n := Pow2(lenPow2) - consumed - 1;
    }

    /** One memcpy into the ring. */
    method CopyIn(chunk: seq<byte>)
      requires Shape() && |chunk| <= Room(buf.Length, head, tail)
      modifies buf, this`head
      ensures Shape() && Contents() == old(Contents()) + chunk
    {
      forall i | 0 <= i < |chunk| { buf[head + i] := chunk[i]; }
      assert buf[..] == old(buf[..])[..head] + chunk + old(buf[..])[head + |chunk|..];
      WriteAppends(old(buf[..]), buf[..], head, tail, chunk);
      head := Inc(head, |chunk|, buf.Length);
    }

    /** event_signal, once there is something to read */
    method Signal(cpu: nat, resched: bool)
      requires Shape() && event.Valid() && !event.auto && Event.Inv(event.View()) && head != tail
      requires cpu < |event.kernel.idle| && (!event.signaled ==> WakeAllOk(event.kernel.View(), cpu, event.wait, resched))
      modifies event, event.kernel
      ensures Valid()
    {
      Event.StepKeeps(event.View(), Event.OpSignal);
      event.SignalEvent(cpu, resched);
    }

    /** One turn of the loop of cbuf_write. */
    method FillOnce(data: seq<byte>) returns (n: nat)
      requires Shape() && data != [] && |Contents()| < buf.Length - 1
      modifies buf, this`head
      ensures Shape() && 0 < n <= |data| && Contents() == old(Contents()) + data[..n] && |Contents()| < buf.Length
    {
      RoomLeft(buf[..], head, tail);
      n := Min(Room(buf.Length, head, tail), |data|);
      CopyIn(data[..n]);
    }

    /** The loop of cbuf_write */
    method Fill(data: seq<byte>) returns (pos: nat)
      requires Shape()
      modifies buf, this`head
      ensures Shape()
      ensures pos == Min(|data|, Pow2(lenPow2) - 1 - |old(Contents())|)
      ensures Contents() == old(Contents()) + data[..pos]
    {
      pos := 0;
      ghost var was := Contents();
      var avail := SpaceAvail();
      assert was + data[..0] == was;
      while pos < |data| && avail > 0
        invariant Shape() && pos <= |data| && avail == buf.Length - 1 - |Contents()|
        invariant Contents() == was + data[..pos]
        decreases |data| - pos
      {
        var n := FillOnce(data[pos..]);
        AppendMore(was, data, pos, n);
        pos := pos + n;
        avail := SpaceAvail();
      }
    }

    /** cbuf_write: appends as much as there is room for. */
    method Write(data: seq<byte>, cpu: nat) returns (pos: nat)
      requires Valid() && cpu < |event.kernel.idle|
      modifies this`head, buf, event, event.kernel
      ensures Valid()
      ensures pos == Min(|data|, Pow2(lenPow2) - 1 - |old(Contents())|)
      ensures Contents() == old(Contents()) + data[..pos]
    {
      pos := Fill(data);
      if head != tail { Signal(cpu, false); }
    }

    /** cbuf_write_char */
    method WriteChar(c: byte, cpu: nat, canReschedule: bool) returns (ret: nat)
      requires Valid() && cpu < |event.kernel.idle|
      requires |Contents()| < Pow2(lenPow2) - 1 && Contents() == [] ==> WakeAllOk(event.kernel.View(), cpu, event.wait, canReschedule)
      modifies this`head, buf, event, event.kernel
      ensures Valid()
      ensures ret == if |old(Contents())| < Pow2(lenPow2) - 1 then 1 else 0
      ensures Contents() == old(Contents()) + if ret == 1 then [c] else []
    {
      ret := 0;
      var avail := SpaceAvail();
      if avail > 0 {
        CopyIn([c]);
        ret := 1;
        if head != tail { Signal(cpu, canReschedule); }
      }
    }

    /** One memcpy out of the ring, of at most `max` bytes. */
    method CopyOut(max: nat) returns (chunk: seq<byte>)
      requires Shape() && tail != head && max > 0
      modifies this`tail
      ensures Shape() && 0 < |chunk| <= max && chunk + Contents() == old(Contents())
    {
      var readLen := Min(Run(buf.Length, head, tail), max);
      TakeOut(buf[..], head, tail, readLen);
      chunk := buf[..][tail..tail + readLen];
      tail := Inc(tail, readLen, buf.Length);
    }

    /** The loop of cbuf_read */
    method Drain(buflen: nat) returns (data: seq<byte>)
      requires Shape()
      modifies this`tail
      ensures Shape() && |data| == Min(buflen, |old(Contents())|)
      ensures data == old(Contents())[..|data|] && Contents() == old(Contents())[|data|..]
    {
      data := [];
      ghost var all := Contents();
      while |data| < buflen && tail != head
        invariant Shape() && |data| <= buflen && data + Contents() == all
        decreases buflen - |data|
      {
        ghost var got := data;
        var chunk := CopyOut(buflen - |data|);
        data := data + chunk;
        Regroup(got, chunk, Contents());
      }
      assert tail == head ==> Contents() == [];
      PrefixIs(data, Contents());
    }

    /** cbuf_read, the part under the lock: removes the oldest bytes, in order. */
    method Read(buflen: nat) returns (data: seq<byte>)
      requires Valid()
      modifies this`tail, event
      ensures Valid() && |data| == Min(buflen, |old(Contents())|)
      ensures data == old(Contents())[..|data|] && Contents() == old(Contents())[|data|..]
    {
      data := [];
      if tail != head {
        data := Drain(buflen);
        if tail == head {
          Event.StepKeeps(event.View(), Event.OpUnsignal);
          event.UnsignalEvent();
        }
      }
    }

    /** cbuf_peek: the two regions, one after the other, are the contents. */
    method Peek() returns (ret: nat, first: seq<byte>, second: seq<byte>)
      requires Valid()
      ensures first + second == Contents() && ret == |Contents()|
    {
      ret := SpaceUsed();
      var sz := Pow2(lenPow2);
      if ret + tail > sz {
        first := buf[tail..sz];
        second := buf[..ret - |first|];
      } else {
        first := buf[tail..tail + ret];
        second := [];
      }
    }
  }
}

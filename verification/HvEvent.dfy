/** hv/hv_event.c: events between CPUs, each written to and read from the target's ring in one
    piece of sizeof(struct hv_event) bytes. */
module HvEvent {
  import opened Wrappers
  import opened SchedSpec
  import opened Multiples
  import opened Cbuf
  import Sched

  const PERCPU_MAX_EVENT: nat := 32
  /** sizeof(struct hv_event): a 16-bit id and 8 bytes */
  const EVENT_SIZE: nat := 10

  type Short = i: int | -0x8000 <= i < 0x8000
  datatype Evt = Evt(id: Short, buf: seq<byte>)

  predicate Fits(e: Evt) { |e.buf| == 8 }

  /** The bytes of the structure, low byte of the id first. */
  function Encode(e: Evt): (s: seq<byte>)
    requires Fits(e)
    ensures |s| == EVENT_SIZE
  {
    var u := if e.id < 0 then e.id + 0x1_0000 else e.id;
    [u % 256, u / 256] + e.buf
  }

  function Decode(s: seq<byte>): (e: Evt)
    requires |s| == EVENT_SIZE
    ensures Fits(e)
  {
    var u := (s[0] as int) + 256 * (s[1] as int);
    Evt(if u >= 0x8000 then u - 0x1_0000 else u, s[2..])
  }

  lemma DecodeEncode(e: Evt)
    requires Fits(e)
    ensures Decode(Encode(e)) == e
  {
    assert Encode(e)[2..] == e.buf;
  }

  /** round_up_pow2_u32 */
  function RoundUpPow2(v: bv32): bv32 {
    var a := v - 1;
    var b := a | (a >> 1);
    var c := b | (b >> 2);
    var d := c | (c >> 4);
    var e := d | (d >> 8);
    var f := e | (e >> 16);
    f + 1
  }

  const RING_POW2: nat := 9
  /** What a ring of the size hv_event_init works out can hold. */
  const CAPACITY: nat := 511

  /** hv_event_init makes rings of 2^9 bytes. */
  lemma RingSize()
    ensures RoundUpPow2((PERCPU_MAX_EVENT * EVENT_SIZE) as bv32) == 512 && Pow2(RING_POW2) == CAPACITY + 1 == 512
  {
    assert (PERCPU_MAX_EVENT * EVENT_SIZE) as bv32 == 320;
  }

  // ------------------------------------------------ the byte stream of one CPU

  function SendBytes(bytes: seq<byte>, e: Evt): seq<byte>
    requires Fits(e) && |bytes| <= CAPACITY
  {
    bytes + Encode(e)[..Min(EVENT_SIZE, CAPACITY - |bytes|)]
  }

  function ReceiveBytes(bytes: seq<byte>): seq<byte> { bytes[Min(EVENT_SIZE, |bytes|)..] }

  /** The event the handler acts on, if it got a whole one. */
  function Received(bytes: seq<byte>): Option<Evt> {
    if |bytes| >= EVENT_SIZE then Some(Decode(bytes[..EVENT_SIZE])) else None
  }

  class CpuEvent {
    const ring: Ring

    ghost predicate Valid()
      reads this, ring, ring.buf, ring.event, ring.event.kernel
    {
      ring.Valid() && ring.lenPow2 == RING_POW2
    }

    ghost function Bytes(): seq<byte>
      requires Valid()
      reads this, ring, ring.buf, ring.event, ring.event.kernel
    {
      ring.Contents()
    }

    /** hv_event_init, for one CPU */
    constructor (kernel: Sched.Kernel, wait: Wid)
      requires kernel.Valid() && wait in kernel.waits && kernel.waits[wait].list == []
      ensures Valid() && Bytes() == []
    {
      ring := new Ring(RING_POW2, kernel, wait);
    }

    /** hv_send_event, called on CPU `cpu` */
    method Send(e: Evt, cpu: nat) returns (ok: bool)
      requires Valid() && Fits(e) && cpu < |ring.event.kernel.idle|
      modifies ring`head, ring.buf, ring.event, ring.event.kernel
      ensures Valid() && |old(Bytes())| <= CAPACITY
      ensures Bytes() == SendBytes(old(Bytes()), e) && (ok <==> |old(Bytes())| + EVENT_SIZE <= CAPACITY)
      ensures Bytes() == old(Bytes()) + Encode(e)[..|Bytes()| - |old(Bytes())|]
      ensures |Bytes()| == Min(|old(Bytes())| + EVENT_SIZE, CAPACITY)
    {
      RingSize();
      var len := ring.Write(Encode(e), cpu);
      ok := len == EVENT_SIZE;
    }

    /** hv_event_handler, up to the call of the event's function */
    method Handle() returns (e: Option<Evt>)
      requires Valid()
      modifies ring`tail, ring.event
      ensures Valid() && Bytes() == ReceiveBytes(old(Bytes())) && e == Received(old(Bytes()))
      ensures if |old(Bytes())| < EVENT_SIZE then e == None && Bytes() == []
              else e.Some? && e == Some(Decode(old(Bytes())[..EVENT_SIZE])) && Bytes() == old(Bytes())[EVENT_SIZE..]
    {
      var data := ring.Read(EVENT_SIZE);
      if |data| != EVENT_SIZE { return None; }
      return Some(Decode(data));
    }
  }

  // -------------------------------------------------- events on top of the bytes

  function EncodeAll(es: seq<Evt>): (s: seq<byte>)
    requires forall i | 0 <= i < |es| :: Fits(es[i])
    ensures |s| == EVENT_SIZE * |es|
  {
    if es == [] then [] else Encode(es[0]) + EncodeAll(es[1..])
  }

  lemma {:induction false} EncodeAllAppends(es: seq<Evt>, e: Evt)
    requires (forall i | 0 <= i < |es| :: Fits(es[i])) && Fits(e)
    ensures EncodeAll(es + [e]) == EncodeAll(es) + Encode(e)
  {
    if es != [] {
      assert (es + [e])[1..] == es[1..] + [e];
      EncodeAllAppends(es[1..], e);
    }
  }

  /** What is in the ring, what was sent and what was handled. */
  datatype H = H(bytes: seq<byte>, sent: seq<Evt>, handled: seq<Evt>)

  /** `Some(e)` sends an event, `None` runs the handler. */
  function Step(h: H, op: Option<Evt>): H
    requires (op.Some? ==> Fits(op.value)) && |h.bytes| <= CAPACITY
  {
    match op
    case Some(e) => H(SendBytes(h.bytes, e), h.sent + [e], h.handled)
    case None =>
      match Received(h.bytes)
      case Some(e) => H(ReceiveBytes(h.bytes), h.sent, h.handled + [e])
      case None => h.(bytes := ReceiveBytes(h.bytes))
  }

  /** The ring holds exactly the events sent and not yet handled, whole and in order. */
  ghost predicate Orderly(h: H) {
    && |h.handled| <= |h.sent| && h.handled == h.sent[..|h.handled|]
    && (forall i | 0 <= i < |h.sent| :: Fits(h.sent[i]))
    && h.bytes == EncodeAll(h.sent[|h.handled|..])
  }

  ghost predicate IsRun(hs: seq<H>, ops: seq<Option<Evt>>) {
    && |hs| == |ops| + 1 && hs[0] == H([], [], [])
    && forall i | 0 <= i < |ops| ::
         && (ops[i].Some? ==> Fits(ops[i].value) && |hs[i].sent| - |hs[i].handled| < PERCPU_MAX_EVENT)
         && (|hs[i].bytes| <= CAPACITY ==> hs[i + 1] == Step(hs[i], ops[i]))
  }

  /** Sending keeps order exactly when the whole event fits, that is with at most 50 outstanding. */
  lemma SendWholeIff(h: H, e: Evt)
    requires Orderly(h) && Fits(e) && |h.bytes| <= CAPACITY
    ensures |h.sent| - |h.handled| <= 50 <==> |h.bytes| + EVENT_SIZE <= CAPACITY
    ensures Orderly(Step(h, Some(e))) <==> |h.sent| - |h.handled| <= 50
  {
    var out, h' := h.sent[|h.handled|..], Step(h, Some(e));
    assert h'.sent[..|h.handled|] == h.sent[..|h.handled|];
    assert h'.sent[|h.handled|..] == out + [e];
    assert forall i | 0 <= i < |h'.sent| :: Fits(h'.sent[i]);
    EncodeAllAppends(out, e);
    if |out| <= 50 {
      assert Encode(e)[..EVENT_SIZE] == Encode(e);
    } else {
      assert |h'.bytes| < |EncodeAll(out)| + EVENT_SIZE;
    }
  }

  /** With 51 events outstanding the next one is cut to a byte. */
  lemma SplitExample(e: Evt)
    requires Fits(e)
    ensures exists h: H :: Orderly(h) && |h.sent| - |h.handled| == 51 && |h.bytes| <= CAPACITY && !Orderly(Step(h, Some(e)))
  {
    var es := seq(51, _ => e);
    var h := H(EncodeAll(es), es, []);
    assert es[0..] == es && es[..0] == [];
    assert Orderly(h);
    SendWholeIff(h, e);
  }

  /** The handler takes the oldest outstanding event, and nothing only when there is none. */
  lemma HandleKeeps(h: H)
    requires Orderly(h) && |h.bytes| <= CAPACITY
    ensures Orderly(Step(h, None)) && Step(h, None).sent == h.sent
    ensures |Step(h, None).handled| == |h.handled| + if |h.handled| < |h.sent| then 1 else 0
  {
    var out := h.sent[|h.handled|..];
    if out != [] {
      var e := out[0];
      assert h.bytes[..EVENT_SIZE] == Encode(e) && h.bytes[EVENT_SIZE..] == EncodeAll(out[1..]);
      DecodeEncode(e);
      assert h.sent[..|h.handled| + 1] == h.sent[..|h.handled|] + [e];
      assert h.sent[|h.handled| + 1..] == out[1..];
    }
  }

  /** With at most 32 events outstanding none is split, lost or reordered, and no send fails. */
  lemma {:induction false} NeverSplit(hs: seq<H>, ops: seq<Option<Evt>>, n: nat)
    requires IsRun(hs, ops) && n < |hs|
    ensures Orderly(hs[n]) && |hs[n].bytes| <= EVENT_SIZE * PERCPU_MAX_EVENT
  {
    if n > 0 {
      NeverSplit(hs, ops, n - 1);
      match ops[n - 1]
      case Some(e) => SendWholeIff(hs[n - 1], e);
      case None => HandleKeeps(hs[n - 1]);
    }
  }
}

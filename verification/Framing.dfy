/**
 Framing over a byte stream: `[version][length u32 LE][payload]`.

 `FeedOne` is one call of the Rust `feed`; `Drain` calls it until it stops, which
 is what one call of the Python `feed` does.
 */
module Framing {
  import opened Types
  import opened Wire
  import opened WireLaws
  import WireIo

  datatype Fed = NeedMore | Popped(payload: seq<byte>, rest: seq<byte>) | BadFrame

  function FeedOne(maxFrame: nat, buf: seq<byte>): (r: Fed)
    ensures r.Popped? ==> |r.rest| < |buf|
  {
    if |buf| < HEADER_LEN then NeedMore
    else if buf[0] != PROTOCOL_VERSION then BadFrame
    else
      var len := FromLE(buf[1..5]);
      if len > maxFrame then BadFrame
      else if |buf| < HEADER_LEN + len then NeedMore
      else Popped(buf[HEADER_LEN..HEADER_LEN + len], buf[HEADER_LEN + len..])
  }

  /** The bytes of one frame; the length is cut to 32 bits as the writer cuts it. */
  function Framed(payload: seq<byte>): seq<byte> {
    [PROTOCOL_VERSION] + LE(|payload|, 4) + payload
  }

  function Frame(maxFrame: nat, payload: seq<byte>): Option<seq<byte>> {
    if |payload| > maxFrame then None else Some(Framed(payload))
  }

  datatype Drained = Drained(out: seq<seq<byte>>, rest: seq<byte>, ok: bool)

  function Drain(maxFrame: nat, buf: seq<byte>): Drained
    decreases |buf|
  {
    match FeedOne(maxFrame, buf)
    case NeedMore => Drained([], buf, true)
    case BadFrame => Drained([], buf, false)
    case Popped(p, rest) => var d := Drain(maxFrame, rest); Drained([p] + d.out, d.rest, d.ok)
  }

  /** Feeding chunk after chunk, until the stream ends or a bad frame shows up. */
  function Run(maxFrame: nat, stash: seq<byte>, chunks: seq<seq<byte>>): Drained
    decreases |chunks|
  {
    if chunks == [] then Drained([], stash, true) else
    var d := Drain(maxFrame, stash + chunks[0]);
    if !d.ok then d else
    var e := Run(maxFrame, d.rest, chunks[1..]);
    Drained(d.out + e.out, e.rest, e.ok)
  }

  function Concat(chunks: seq<seq<byte>>): seq<byte> {
    if chunks == [] then [] else chunks[0] + Concat(chunks[1..])
  }

  function Frames(payloads: seq<seq<byte>>): seq<byte> {
    if payloads == [] then [] else Framed(payloads[0]) + Frames(payloads[1..])
  }

  /** Payloads that a codec of this limit sends and whose length fits the header. */
  predicate Sendable(maxFrame: nat, payloads: seq<seq<byte>>) {
    forall i :: 0 <= i < |payloads| ==> |payloads[i]| <= maxFrame && |payloads[i]| < 0x1_0000_0000
  }

  /** Later bytes do not change what is popped first, nor whether the front is bad. */
  lemma FeedOneExtends(maxFrame: nat, a: seq<byte>, b: seq<byte>)
    ensures FeedOne(maxFrame, a).BadFrame? ==> FeedOne(maxFrame, a + b).BadFrame?
    ensures FeedOne(maxFrame, a).Popped? ==>
              FeedOne(maxFrame, a + b) == Popped(FeedOne(maxFrame, a).payload, FeedOne(maxFrame, a).rest + b)
  {
    if |a| >= HEADER_LEN {
      assert (a + b)[1..5] == a[1..5];
      var len := FromLE(a[1..5]);
      if |a| >= HEADER_LEN + len {
        assert (a + b)[HEADER_LEN..HEADER_LEN + len] == a[HEADER_LEN..HEADER_LEN + len];
        assert (a + b)[HEADER_LEN + len..] == a[HEADER_LEN + len..] + b;
      }
    }
  }

  /** Draining in two goes is draining in one. */
  lemma {:induction false} DrainAppend(maxFrame: nat, a: seq<byte>, b: seq<byte>)
    ensures var d := Drain(maxFrame, a);
            var e := Drain(maxFrame, a + b);
            if d.ok then
              var f := Drain(maxFrame, d.rest + b);
              e == Drained(d.out + f.out, f.rest, f.ok)
            else !e.ok && e.out == d.out
    decreases |a|
  {
    hide FeedOne;
    FeedOneExtends(maxFrame, a, b);
    var r := FeedOne(maxFrame, a);
    var d := Drain(maxFrame, a);
    if r.Popped? {
      DrainAppend(maxFrame, r.rest, b);
      if d.ok {
        var f := Drain(maxFrame, d.rest + b);
        assert [r.payload] + (Drain(maxFrame, r.rest).out + f.out) == d.out + f.out;
      }
    } else if r.NeedMore? {
      assert d == Drained([], a, true);
      assert [] + Drain(maxFrame, a + b).out == Drain(maxFrame, a + b).out;
    }
  }

  /** What is left after draining holds no complete frame. */
  lemma {:induction false} DrainSettles(maxFrame: nat, a: seq<byte>)
    ensures Drain(maxFrame, a).ok ==> FeedOne(maxFrame, Drain(maxFrame, a).rest).NeedMore?
    decreases |a|
  {
    var r := FeedOne(maxFrame, a);
    if r.Popped? { DrainSettles(maxFrame, r.rest); }
  }

  /** However a stream is cut into chunks, the same payloads come out, and the same errors. */
  lemma {:induction false} ChunkingIrrelevant(maxFrame: nat, stash: seq<byte>, chunks: seq<seq<byte>>)
    requires FeedOne(maxFrame, stash).NeedMore?
    ensures var r := Run(maxFrame, stash, chunks);
            var d := Drain(maxFrame, stash + Concat(chunks));
            r.out == d.out && r.ok == d.ok && (r.ok ==> r.rest == d.rest)
    decreases |chunks|
  {
    hide FeedOne;
    if chunks == [] {
      assert stash + Concat(chunks) == stash;
    } else {
      var a, b := stash + chunks[0], Concat(chunks[1..]);
      assert stash + Concat(chunks) == a + b by { Assoc(stash, chunks[0], b); }
      DrainAppend(maxFrame, a, b);
      var d := Drain(maxFrame, a);
      if d.ok {
        DrainSettles(maxFrame, a);
        ChunkingIrrelevant(maxFrame, d.rest, chunks[1..]);
      }
    }
  }

  lemma FramePops(maxFrame: nat, payload: seq<byte>, rest: seq<byte>)
    requires Sendable(maxFrame, [payload])
    ensures FeedOne(maxFrame, Framed(payload) + rest) == Popped(payload, rest)
  {
    assert [payload][0] == payload;
    var s := Framed(payload) + rest;
    LERoundTrip(|payload|, 4);
    assert s[1..5] == LE(|payload|, 4);
    assert s[HEADER_LEN..HEADER_LEN + |payload|] == payload;
    assert s[HEADER_LEN + |payload|..] == rest;
  }

  /** A frame cut short asks for more bytes. */
  lemma PartialFrameWaits(maxFrame: nat, payload: seq<byte>, n: nat)
    requires Sendable(maxFrame, [payload]) && n < |Framed(payload)|
    ensures FeedOne(maxFrame, Framed(payload)[..n]).NeedMore?
  {
    assert [payload][0] == payload;
    if n >= HEADER_LEN {
      LERoundTrip(|payload|, 4);
      assert Framed(payload)[..n][1..5] == LE(|payload|, 4);
    }
  }

  lemma {:induction false} FramesDrain(maxFrame: nat, payloads: seq<seq<byte>>, tail: seq<byte>)
    requires Sendable(maxFrame, payloads) && FeedOne(maxFrame, tail).NeedMore?
    ensures Drain(maxFrame, Frames(payloads) + tail) == Drained(payloads, tail, true)
    decreases |payloads|
  {
    if payloads == [] {
      assert Frames(payloads) + tail == tail;
    } else {
      var rest := Frames(payloads[1..]) + tail;
      Assoc(Framed(payloads[0]), Frames(payloads[1..]), tail);
      FramePops(maxFrame, payloads[0], rest);
      FramesDrain(maxFrame, payloads[1..], tail);
      hide FeedOne, Framed;
      assert payloads == [payloads[0]] + payloads[1..];
    }
  }

  /**
   A stream of frames, cut anywhere inside the last one and delivered in any chunks,
   yields exactly the complete payloads in order and keeps only the unfinished frame.
   */
  lemma FramingRoundTrip(maxFrame: nat, payloads: seq<seq<byte>>, next: seq<byte>, n: nat, chunks: seq<seq<byte>>)
    requires Sendable(maxFrame, payloads) && Sendable(maxFrame, [next]) && n < |Framed(next)|
    requires Concat(chunks) == Frames(payloads) + Framed(next)[..n]
    ensures Run(maxFrame, [], chunks) == Drained(payloads, Framed(next)[..n], true)
  {
    PartialFrameWaits(maxFrame, next, n);
    FramesDrain(maxFrame, payloads, Framed(next)[..n]);
    ChunkingIrrelevant(maxFrame, [], chunks);
    assert [] + Concat(chunks) == Concat(chunks);
  }

  /** The growing receive buffer that the Rust codec pops frames from. */
  class ByteBuf {
    var data: seq<byte>

    constructor ()
      ensures data == []
    {
      data := [];
    }
  }

  class FrameCodec {
    const maxFrame: nat

    constructor (max: nat)
      ensures maxFrame == max
    {
      maxFrame := max;
    }

    method Frame(payload: seq<byte>) returns (r: Option<seq<byte>>)
      ensures r == if |payload| > maxFrame then None else Some(Framed(payload))
    {
      if |payload| > maxFrame { return None; }
      var w := new WireIo.Writer();
      w.Raw([PROTOCOL_VERSION]);
      w.Raw(LE(|payload|, 4));
      w.Raw(payload);
      assert w.buf == Framed(payload) by { assert [] + [PROTOCOL_VERSION] == [PROTOCOL_VERSION]; }
      return Some(w.buf);
    }

    /** At most one payload; the buffer changes only when a payload is returned. */
    method Feed(buf: ByteBuf) returns (r: Option<Option<seq<byte>>>)
      modifies buf
      ensures match FeedOne(maxFrame, old(buf.data))
              case NeedMore => r == Some(None) && buf.data == old(buf.data)
              case BadFrame => r == None && buf.data == old(buf.data)
              case Popped(p, rest) => r == Some(Some(p)) && buf.data == rest
    {
      if |buf.data| < HEADER_LEN { return Some(None); }
      if buf.data[0] != PROTOCOL_VERSION { return None; }
      var len := FromLE(buf.data[1..5]);
      if len > maxFrame { return None; }
      if |buf.data| < HEADER_LEN + len { return Some(None); }
      var payload := buf.data[HEADER_LEN..HEADER_LEN + len];
      buf.data := buf.data[HEADER_LEN + len..];
      return Some(Some(payload));
    }
  }

  /** The Python codec keeps its own stash and drains it in one call. */
  class StashCodec {
    const maxFrame: nat
    var stash: seq<byte>

    constructor (max: nat)
      ensures maxFrame == max && stash == []
    {
      maxFrame, stash := max, [];
    }

    /** None stands for the exception: the payloads popped by that call are lost with it. */
    method Feed(chunk: seq<byte>) returns (r: Option<seq<seq<byte>>>)
      modifies this
      ensures var d := Drain(maxFrame, old(stash) + chunk);
              stash == d.rest && r == if d.ok then Some(d.out) else None
    {
      stash := stash + chunk;
      ghost var all := Drain(maxFrame, stash);
      var out: seq<seq<byte>> := [];
      while |stash| >= HEADER_LEN
        invariant var d := Drain(maxFrame, stash);
                  all.out == out + d.out && all.rest == d.rest && all.ok == d.ok
        decreases |stash|
      {
        if stash[0] != PROTOCOL_VERSION { return None; }
        var len := FromLE(stash[1..5]);
        if len > maxFrame { return None; }
        if |stash| < HEADER_LEN + len { break; }
        ghost var rest := Drain(maxFrame, stash[HEADER_LEN + len..]);
        Assoc(out, [stash[HEADER_LEN..HEADER_LEN + len]], rest.out);
        out := out + [stash[HEADER_LEN..HEADER_LEN + len]];
        stash := stash[HEADER_LEN + len..];
      }
      assert out + [] == out;
      return Some(out);
    }
  }
}

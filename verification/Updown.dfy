/** The communication layer's two loops: `Downlinker.deframing`, which pools reads and queues packets, and
    `Uplinker.uplink`, which frames, retries and loops a handshake back. */
module Updown {
  import opened Bytes
  import opened Framing
  import opened FramingTheorems

  class Downlinker {
    const deframer: Framer
    /** the queue of packets on their way to the ground side */
    var outgoing: seq<bytes>
    /** the log of discarded bytes, when one is kept */
    var discarded: Option<bytes>

    constructor (deframer: Framer, discarded: Option<bytes>)
      ensures this.deframer == deframer && outgoing == [] && this.discarded == discarded
    {
      this.deframer, this.outgoing, this.discarded := deframer, [], discarded;
    }

    /** One turn of the deframing loop: the new bytes join the pool, its packets go to the queue. */
    method DeframeRead(pool: bytes, chunk: bytes) returns (rest: bytes)
      modifies this
      ensures var all := deframer.Drain(pool + chunk);
        && rest == all.leftover
        && outgoing == old(outgoing) + all.packets
        && discarded == Logged(old(discarded), deframer.Reported(all.discarded))
    {
      var frames, left, dropped := deframer.DeframeAll(pool + chunk);
      for k := 0 to |frames|
        invariant outgoing == old(outgoing) + frames[..k]
        invariant discarded == old(discarded)
      {
        QueueOne(old(outgoing), frames, k);
        outgoing := outgoing + [frames[k]];
      }
      assert frames[..|frames|] == frames;
      if discarded.Some? {
        discarded := Some(discarded.value + dropped);
      }
      rest := left;
    }

    /** The deframing loop over successive reads does what one drain of the whole stream would do: same packets, same
        discarded bytes, same final pool. */
    method Deframing(chunks: seq<bytes>) returns (pool: bytes)
      modifies this
      ensures var all := deframer.Drain(Concat(chunks));
        && pool == all.leftover
        && outgoing == old(outgoing) + all.packets
        && discarded == Logged(old(discarded), deframer.Reported(all.discarded))
    {
      pool := [];
      ghost var all := Batch([], [], []);
      ghost var queue, log := outgoing, discarded;
      Nothing(deframer, chunks, queue, log);
      for i := 0 to |chunks|
        invariant all == deframer.Drain(Concat(chunks[..i]))
        invariant pool == all.leftover
        invariant outgoing == queue + all.packets
        invariant discarded == Logged(log, deframer.Reported(all.discarded))
      {
        ghost var next := deframer.Drain(pool + chunks[i]);
        pool := DeframeRead(pool, chunks[i]);
        OneMoreRead(deframer, chunks, i, all, next);
        LoggedTwice(log, deframer, all.discarded, next.discarded);
        QueuedTwice(queue, all.packets, next.packets);
        all := next.After(all.packets, all.discarded);
      }
      assert chunks[..|chunks|] == chunks;
    }

    /** `add_loopback_frame` */
    method AddLoopbackFrame(frame: bytes)
      modifies this`outgoing
      ensures outgoing == old(outgoing) + [frame]
    {
      outgoing := outgoing + [frame];
    }
  }

  /** The discard log, when one is kept, grows by what was dropped. */
  function Logged(log: Option<bytes>, dropped: bytes): Option<bytes> {
    if log.Some? then Some(log.value + dropped) else None
  }

  lemma LoggedTwice(log: Option<bytes>, f: Framer, a: bytes, b: bytes)
    ensures Logged(Logged(log, f.Reported(a)), f.Reported(b)) == Logged(log, f.Reported(a + b))
  {
    if log.Some? {
      var v, x, y := log.value, f.Reported(a), f.Reported(b);
      assert f.Reported(a + b) == x + y;
      assert v + x + y == v + (x + y);
    }
  }

  lemma QueuedTwice(queue: seq<bytes>, a: seq<bytes>, b: seq<bytes>)
    ensures queue + a + b == queue + (a + b)
  {
  }

  lemma QueueOne(queue: seq<bytes>, frames: seq<bytes>, k: nat)
    requires k < |frames|
    ensures queue + frames[..k] + [frames[k]] == queue + frames[..k + 1]
  {
  }

  lemma Nothing(f: Framer, chunks: seq<bytes>, queue: seq<bytes>, log: Option<bytes>)
    ensures f.Drain(Concat(chunks[..0])) == Batch([], [], [])
    ensures queue + [] == queue && Logged(log, f.Reported([])) == log
  {
    assert log.Some? ==> log.value + [] == log.value;
  }

  lemma OneMoreRead(f: Framer, chunks: seq<bytes>, i: nat, was: Batch, next: Batch)
    requires i < |chunks|
    requires was == f.Drain(Concat(chunks[..i])) && next == f.Drain(was.leftover + chunks[i])
    ensures f.Drain(Concat(chunks[..i + 1])) == next.After(was.packets, was.discarded)
  {
    assert chunks[..i + 1] == chunks[..i] + [chunks[i]];
    ConcatAppend(chunks[..i], chunks[i]);
    ChunkingInvariance(f, Concat(chunks[..i]), chunks[i]);
  }

  const RETRY_COUNT := 3

  /** n attempts: at least one and at most three, none after an accepted one, and fewer than three only behind one. */
  predicate Attempts(accepted: seq<bool>, n: nat)
    requires |accepted| == RETRY_COUNT
  {
    && 1 <= n <= RETRY_COUNT
    && (forall i | 0 <= i < n - 1 :: !accepted[i])
    && (n < RETRY_COUNT ==> accepted[n - 1])
  }

  class Uplinker {
    const framer: Framer
    const handshake: bytes  // the serialized handshake descriptor
    const loopback: Downlinker
    /** every write attempted on the hardware adapter */
    var writes: seq<bytes>

    constructor (framer: Framer, handshake: bytes, loopback: Downlinker)
      ensures this.framer == framer && this.handshake == handshake && this.loopback == loopback && writes == []
    {
      this.framer, this.handshake, this.loopback, this.writes := framer, handshake, loopback, [];
    }

    /** `uplink`, for one packet: `accepted` says what each write attempt would report. Every write is the framed
        packet; a handshake goes back if and only if one of the attempts is accepted, and no attempt follows an
        accepted one. */
    method Uplink(packet: bytes, accepted: seq<bool>) returns (sent: Result<bool>)
      requires |accepted| == RETRY_COUNT
      modifies this`writes, loopback`outgoing
      ensures sent.Err? <==> |packet| >= 0x1_0000_0000
      ensures sent.Err? ==> writes == old(writes)
      ensures loopback.outgoing == old(loopback.outgoing)
        + (if sent.Ok? && true in accepted then [GetHandshake(handshake, packet)] else [])
      ensures sent.Ok? ==> sent.value == (true in accepted)
      ensures old(writes) <= writes
      ensures sent.Ok? ==> Attempts(accepted, |writes| - |old(writes)|)
      ensures forall i | |old(writes)| <= i < |writes| :: Wire(framer, writes[i], packet)
    {
      var framed := framer.Frame(packet);
      FrameOnWire(framer, packet);
      if framed.Err? {
        return Err(framed.error);
      }
      for retry := 0 to RETRY_COUNT
        invariant true !in accepted[..retry]
        invariant loopback.outgoing == old(loopback.outgoing)
        invariant |writes| == |old(writes)| + retry && old(writes) <= writes
        invariant forall i | |old(writes)| <= i < |writes| :: Wire(framer, writes[i], packet)
      {
        writes := writes + [framed.value];
        assert forall i | 0 <= i < retry :: accepted[..retry][i] == accepted[i];
        if accepted[retry] {
          loopback.AddLoopbackFrame(GetHandshake(handshake, packet));
          assert true in accepted;
          return Ok(true);
        }
        assert accepted[..retry + 1] == accepted[..retry] + [accepted[retry]];
      }
      assert accepted[..RETRY_COUNT] == accepted;
      return Ok(false);
    }
  }

  /** `get_handshake`: the packet itself behind a handshake descriptor. */
  function GetHandshake(handshake: bytes, packet: bytes): (echo: bytes)
    ensures handshake <= echo && echo[|handshake|..] == packet
  {
    handshake + packet
  }
}

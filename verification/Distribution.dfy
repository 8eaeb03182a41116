/** The `Distributor`: cuts its receive buffer into length-prefixed messages and hands each to the decoders registered
    for its descriptor. */
module Distribution {
  import opened Bytes
  import opened FilePackets
  import Updown

  /** Messages cut from a buffer, and what stays behind. */
  datatype Cut = Cut(messages: seq<bytes>, leftover: bytes)
  {
    /** This cut, with messages found earlier put in front. */
    function After(earlier: seq<bytes>): Cut {
      Cut(earlier + messages, leftover)
    }
  }

  lemma AfterTwice(c: Cut, a: seq<bytes>, b: seq<bytes>)
    ensures c.After(b).After(a) == c.After(a + b)
  {
    assert a + (b + c.messages) == (a + b) + c.messages;
  }

  /** A message handed to a decoder: descriptor and payload. */
  datatype Delivery = Delivery(descriptor: nat, payload: bytes)

  /** Size of the complete raw message at the front of the buffer, or 0. */
  function MessageSize(buf: bytes): (n: nat)
    ensures n == 0 || 4 <= n <= |buf|
  {
    if |buf| < 4 then 0
    else
      var expected: int := U32At(buf, 0) + 4;
      if |buf| < expected then 0 else expected
  }

  /** Reference meaning of `parse_into_raw_msgs_api` without a key. */
  function CutMessages(buf: bytes): Cut
    decreases |buf|
  {
    var n := MessageSize(buf);
    if n == 0 then Cut([], buf) else CutMessages(buf[n..]).After([buf[..n]])
  }

  /** `parse_raw_msg_api` and the descriptor lookup: nothing for a truncated or unknown descriptor, or one without
      decoders. */
  function Dispatch(cfg: Config, decoders: set<nat>, raw: bytes): Option<Delivery> {
    if |raw| < 4 + cfg.width then None
    else
      var descriptor := ReadBigEndian(raw[4..4 + cfg.width]);
      if descriptor !in cfg.apids || descriptor !in decoders then None
      else Some(Delivery(descriptor, raw[4 + cfg.width..]))
  }

  function Deliveries(cfg: Config, decoders: set<nat>, raws: seq<bytes>): seq<Delivery> {
    if raws == [] then []
    else
      var first := Dispatch(cfg, decoders, raws[0]);
      (if first.Some? then [first.value] else []) + Deliveries(cfg, decoders, raws[1..])
  }

  /** A delivery in the hands of one decoder. */
  datatype Handed = Handed(decoder: nat, delivery: Delivery)

  function ToEach(decoders: seq<nat>, d: Delivery): seq<Handed> {
    seq(|decoders|, i requires 0 <= i < |decoders| => Handed(decoders[i], d))
  }

  /** Each delivery to each decoder registered for its descriptor, in the order of registration. */
  function HandOut(registered: map<nat, seq<nat>>, deliveries: seq<Delivery>): seq<Handed> {
    if deliveries == [] then []
    else
      var rest, last := deliveries[..|deliveries| - 1], deliveries[|deliveries| - 1];
      HandOut(registered, rest)
        + ToEach(if last.descriptor in registered then registered[last.descriptor] else [], last)
  }

  function HasDecoders(registered: map<nat, seq<nat>>): set<nat> {
    set d | d in registered && registered[d] != []
  }

  class Distributor {
    const cfg: Config
    var buf: bytes
    var registered: map<nat, seq<nat>>

    constructor (cfg: Config)
      ensures this.cfg == cfg && buf == [] && registered == map d | d in cfg.apids :: []
    {
      this.cfg, this.buf, this.registered := cfg, [], map d | d in cfg.apids :: [];
    }

    method Register(descriptor: nat, decoder: nat) returns (error: Option<Error>)
      modifies this`registered
      ensures error == if descriptor in old(registered) then None else Some(KeyError)
      ensures registered == if descriptor in old(registered)
        then old(registered)[descriptor := old(registered)[descriptor] + [decoder]] else old(registered)
    {
      if descriptor !in registered {
        return Some(KeyError);
      }
      registered := registered[descriptor := registered[descriptor] + [decoder]];
      return None;
    }

    /** `parse_into_raw_msgs_api`, on the receive buffer in place. */
    method ParseIntoRawMsgs() returns (rawMsgs: seq<bytes>)
      modifies this`buf
      ensures Cut(rawMsgs, buf) == CutMessages(old(buf))
    {
      rawMsgs := [];
      while true
        invariant CutMessages(old(buf)) == CutMessages(buf).After(rawMsgs)
        decreases |buf|
      {
        if |buf| < 4 {
          break;
        }
        var expectedLen: int := U32At(buf, 0) + 4;
        if |buf| < expectedLen {
          break;
        }
        AfterTwice(CutMessages(buf[expectedLen..]), rawMsgs, [buf[..expectedLen]]);
        rawMsgs := rawMsgs + [buf[..expectedLen]];
        buf := buf[expectedLen..];
      }
    }

    /** `on_recv`: what reaches decoders is what the whole messages of buffer and data call for, to every decoder of the
        descriptor; a bad message is skipped alone. */
    method OnRecv(data: bytes) returns (handed: seq<Handed>)
      modifies this`buf
      ensures var cut := CutMessages(old(buf) + data);
        && buf == cut.leftover
        && handed == HandOut(registered, Deliveries(cfg, HasDecoders(registered), cut.messages))
    {
      buf := buf + data;
      var rawMsgs := ParseIntoRawMsgs();
      handed := [];
      ghost var delivered := [];
      assert rawMsgs[..0] == [];
      for i := 0 to |rawMsgs|
        invariant buf == CutMessages(old(buf) + data).leftover
        invariant delivered == Deliveries(cfg, HasDecoders(registered), rawMsgs[..i])
        invariant handed == HandOut(registered, delivered)
      {
        DeliverOne(cfg, HasDecoders(registered), rawMsgs, i);
        var one := Dispatch(cfg, HasDecoders(registered), rawMsgs[i]);
        if one.Some? {
          var decoders := registered[one.value.descriptor];
          ghost var before := handed;
          for k := 0 to |decoders|
            invariant handed == before + ToEach(decoders[..k], one.value)
          {
            assert ToEach(decoders[..k + 1], one.value) ==
              ToEach(decoders[..k], one.value) + [Handed(decoders[k], one.value)];
            handed := handed + [Handed(decoders[k], one.value)];
          }
          assert decoders[..|decoders|] == decoders;
          HandOneMore(registered, delivered, one.value);
          delivered := delivered + [one.value];
        }
      }
      assert rawMsgs[..|rawMsgs|] == rawMsgs;
    }
  }

  lemma HandOneMore(registered: map<nat, seq<nat>>, deliveries: seq<Delivery>, d: Delivery)
    requires d.descriptor in registered
    ensures HandOut(registered, deliveries + [d]) ==
      HandOut(registered, deliveries) + ToEach(registered[d.descriptor], d)
  {
    assert (deliveries + [d])[..|deliveries|] == deliveries;
  }

  // ---------------------------------------------------------------- what one decoder receives

  /** The payloads handed to decoder x, in order. */
  function Taken(x: nat, handed: seq<Handed>): seq<bytes> {
    if handed == [] then []
    else
      var last := handed[|handed| - 1];
      Taken(x, handed[..|handed| - 1]) + (if last.decoder == x then [last.delivery.payload] else [])
  }

  /** How often x is registered in a list. */
  function TimesIn(x: nat, decoders: seq<nat>): nat {
    if decoders == [] then 0
    else TimesIn(x, decoders[..|decoders| - 1]) + (if decoders[|decoders| - 1] == x then 1 else 0)
  }

  /** Each payload as often as x is registered for its descriptor. */
  function PayloadsFor(x: nat, registered: map<nat, seq<nat>>, deliveries: seq<Delivery>): seq<bytes> {
    if deliveries == [] then []
    else
      var rest, last := deliveries[..|deliveries| - 1], deliveries[|deliveries| - 1];
      var times := if last.descriptor in registered then TimesIn(x, registered[last.descriptor]) else 0;
      PayloadsFor(x, registered, rest) + seq(times, _ => last.payload)
  }

  lemma {:induction false} TakenAppend(x: nat, a: seq<Handed>, b: seq<Handed>)
    ensures Taken(x, a + b) == Taken(x, a) + Taken(x, b)
    decreases |b|
  {
    if b == [] {
      assert a + b == a;
    } else {
      assert (a + b)[..|a + b| - 1] == a + b[..|b| - 1];
      TakenAppend(x, a, b[..|b| - 1]);
    }
  }

  lemma {:induction false} TakenFromEach(x: nat, decoders: seq<nat>, d: Delivery)
    ensures Taken(x, ToEach(decoders, d)) == seq(TimesIn(x, decoders), _ => d.payload)
    decreases |decoders|
  {
    if decoders != [] {
      var k := |decoders| - 1;
      TakenFromEach(x, decoders[..k], d);
      assert ToEach(decoders, d)[..k] == ToEach(decoders[..k], d);
      assert seq(TimesIn(x, decoders[..k]), _ => d.payload) + [d.payload] ==
        seq(TimesIn(x, decoders[..k]) + 1, _ => d.payload);
    }
  }

  /** Every decoder receives exactly the payloads of the descriptors it is registered for, in order, and as often as it
      is registered. */
  lemma {:induction false} DecoderReceives(x: nat, registered: map<nat, seq<nat>>, deliveries: seq<Delivery>)
    ensures Taken(x, HandOut(registered, deliveries)) == PayloadsFor(x, registered, deliveries)
    decreases |deliveries|
  {
    if deliveries != [] {
      var rest, last := deliveries[..|deliveries| - 1], deliveries[|deliveries| - 1];
      var decoders := if last.descriptor in registered then registered[last.descriptor] else [];
      DecoderReceives(x, registered, rest);
      TakenAppend(x, HandOut(registered, rest), ToEach(decoders, last));
      TakenFromEach(x, decoders, last);
    }
  }

  lemma DeliverOne(cfg: Config, decoders: set<nat>, raws: seq<bytes>, i: nat)
    requires i < |raws|
    ensures Deliveries(cfg, decoders, raws[..i + 1]) == Deliveries(cfg, decoders, raws[..i])
      + (var one := Dispatch(cfg, decoders, raws[i]); if one.Some? then [one.value] else [])
  {
    assert raws[..i + 1] == raws[..i] + [raws[i]];
    DeliveriesAppend(cfg, decoders, raws[..i], [raws[i]]);
    assert Deliveries(cfg, decoders, [raws[i]][1..]) == [];
  }

  // ---------------------------------------------------------------- independence from read boundaries

  /** A complete message at the front stays the same when more data arrives. */
  lemma FrontStays(a: bytes, b: bytes)
    requires MessageSize(a) > 0
    ensures var n := MessageSize(a); MessageSize(a + b) == n && (a + b)[n..] == a[n..] + b && (a + b)[..n] == a[..n]
  {
    assert forall i | 0 <= i < 4 :: (a + b)[i] == a[i];
  }

  lemma {:induction false} CutChunked(a: bytes, b: bytes)
    ensures var first := CutMessages(a); var second := CutMessages(first.leftover + b);
      CutMessages(a + b) == second.After(first.messages)
    decreases |a|
  {
    var n := MessageSize(a);
    if n > 0 {
      FrontStays(a, b);
      CutChunked(a[n..], b);
      AfterTwice(CutMessages(CutMessages(a).leftover + b), [a[..n]], CutMessages(a[n..]).messages);
    }
  }

  lemma {:induction false} DeliveriesAppend(cfg: Config, decoders: set<nat>, a: seq<bytes>, b: seq<bytes>)
    ensures Deliveries(cfg, decoders, a + b) == Deliveries(cfg, decoders, a) + Deliveries(cfg, decoders, b)
  {
    if a == [] {
      assert a + b == b;
    } else {
      assert (a + b)[1..] == a[1..] + b;
      DeliveriesAppend(cfg, decoders, a[1..], b);
    }
  }

  /** What successive `on_recv` calls deliver, starting from a buffer. */
  function Received(cfg: Config, decoders: set<nat>, buf: bytes, chunks: seq<bytes>): seq<Delivery>
    decreases |chunks|
  {
    if chunks == [] then []
    else
      var cut := CutMessages(buf + chunks[0]);
      Deliveries(cfg, decoders, cut.messages) + Received(cfg, decoders, cut.leftover, chunks[1..])
  }

  lemma {:induction false} CutLeftoverAgain(buf: bytes)
    ensures CutMessages(CutMessages(buf).leftover) == Cut([], CutMessages(buf).leftover)
    decreases |buf|
  {
    if MessageSize(buf) > 0 {
      CutLeftoverAgain(buf[MessageSize(buf)..]);
    }
  }

  /** However a stream is cut into `on_recv` calls, the decoders receive what one call with all of it delivers. */
  lemma {:induction false} ReceiveChunked(cfg: Config, decoders: set<nat>, buf: bytes, chunks: seq<bytes>)
    requires CutMessages(buf) == Cut([], buf)
    ensures Received(cfg, decoders, buf, chunks) ==
      Deliveries(cfg, decoders, CutMessages(buf + Concat(chunks)).messages)
    decreases |chunks|
  {
    if chunks == [] {
      assert buf + Concat(chunks) == buf;
    } else {
      var cut := CutMessages(buf + chunks[0]);
      var rest := CutMessages(cut.leftover + Concat(chunks[1..]));
      CutLeftoverAgain(buf + chunks[0]);
      ReceiveChunked(cfg, decoders, cut.leftover, chunks[1..]);
      CutChunked(buf + chunks[0], Concat(chunks[1..]));
      Regroup(buf, chunks[0], Concat(chunks[1..]));
      DeliveriesAppend(cfg, decoders, cut.messages, rest.messages);
    }
  }

  // ---------------------------------------------------------------- streams of file packets

  /** An encoded packet as it stands in the receive stream: without the leading marker word. */
  function OnStream(cfg: Config, p: Packet): bytes
    requires Encode(cfg, p).Ok?
  {
    Encode(cfg, p).value[4..]
  }

  function PacketStream(cfg: Config, packets: seq<Packet>): bytes
    requires forall p | p in packets :: Encode(cfg, p).Ok?
  {
    if packets == [] then [] else OnStream(cfg, packets[0]) + PacketStream(cfg, packets[1..])
  }

  function BodiesTo(descriptor: nat, packets: seq<Packet>): seq<Delivery>
    requires forall p | p in packets :: Packable(p)
  {
    if packets == [] then [] else [Delivery(descriptor, Body(packets[0]))] + BodiesTo(descriptor, packets[1..])
  }

  /** A length-prefixed message with a descriptor and payload. */
  lemma MessageDispatches(cfg: Config, decoders: set<nat>, descriptor: nat, payload: bytes, tail: bytes)
    requires cfg.Valid() && descriptor in cfg.apids && descriptor in decoders && descriptor < Pow256(cfg.width)
    requires cfg.width + |payload| < 0x1_0000_0000
    ensures var raw := Big32(cfg.width + |payload|) + BigEndian(descriptor, cfg.width) + payload;
      && Dispatch(cfg, decoders, raw) == Some(Delivery(descriptor, payload))
      && CutMessages(raw + tail) == Cut([raw] + CutMessages(tail).messages, CutMessages(tail).leftover)
  {
    var raw := Big32(cfg.width + |payload|) + BigEndian(descriptor, cfg.width) + payload;
    var buf := raw + tail;
    assert buf[0..4] == Big32(cfg.width + |payload|);
    ReadBig32At(buf, 0, cfg.width + |payload|);
    assert buf[..|raw|] == raw && buf[|raw|..] == tail;
    assert raw[4..4 + cfg.width] == BigEndian(descriptor, cfg.width) && raw[4 + cfg.width..] == payload;
    BigEndianThenRead(descriptor, cfg.width);
  }

  lemma OnStreamIsMessage(cfg: Config, p: Packet)
    requires Encode(cfg, p).Ok?
    ensures OnStream(cfg, p) == Big32(cfg.width + |Body(p)|) + BigEndian(cfg.file, cfg.width) + Body(p)
  {
  }

  /** A stream of encoded packets delivers exactly the packets' bodies, in order, to the file decoder. */
  lemma {:induction false} PacketStreamDelivers(cfg: Config, decoders: set<nat>, packets: seq<Packet>)
    requires cfg.Valid() && cfg.file in decoders
    requires forall p | p in packets :: Encode(cfg, p).Ok?
    ensures Deliveries(cfg, decoders, CutMessages(PacketStream(cfg, packets)).messages) == BodiesTo(cfg.file, packets)
  {
    if packets != [] {
      var p, rest := packets[0], packets[1..];
      PacketStreamDelivers(cfg, decoders, rest);
      OnStreamIsMessage(cfg, p);
      MessageDispatches(cfg, decoders, cfg.file, Body(p), PacketStream(cfg, rest));
      DeliveriesAppend(cfg, decoders, [OnStream(cfg, p)], CutMessages(PacketStream(cfg, rest)).messages);
      OneDelivery(cfg, decoders, OnStream(cfg, p));
    }
  }

  lemma OneDelivery(cfg: Config, decoders: set<nat>, raw: bytes)
    requires Dispatch(cfg, decoders, raw).Some?
    ensures Deliveries(cfg, decoders, [raw]) == [Dispatch(cfg, decoders, raw).value]
  {
    assert [raw][1..] == [];
  }

  // ---------------------------------------------------------------- the handshake loop

  /** `ZmqClient.send`: the marker is stripped when it is there. */
  function ClientSend(message: bytes): (sent: bytes)
    ensures if ZZZZ <= message then message == ZZZZ + sent else sent == message
  {
    if |message| >= 4 && message[..4] == ZZZZ then message[4..] else message
  }

  /** `ZmqGround.receive_all`: the length is stripped. */
  function GroundReceive(message: bytes): bytes {
    if |message| >= 4 then message[4..] else []
  }

  /** `ZmqGround.send_all`: the length is put in front again. */
  function GroundSend(packet: bytes): bytes
    requires |packet| < 0x1_0000_0000
  {
    Big32(|packet|) + packet
  }

  /** The bytes that arrive at the display layer when a packet's uplink is echoed. */
  function Echo(cfg: Config, p: Packet): bytes
    requires Encode(cfg, p).Ok?
  {
    var packet := GroundReceive(ClientSend(Encode(cfg, p).value));
    var handshake := Updown.GetHandshake(BigEndian(cfg.hand, cfg.width), packet);
    if |handshake| < 0x1_0000_0000 then GroundSend(handshake) else []
  }

  /** A packet sent, stripped, echoed, length-prefixed and parsed arrives as exactly the bytes the uplinker expects; and
      no other packet's echo does. */
  lemma LoopbackIsExpected(cfg: Config, decoders: set<nat>, p: Packet, q: Packet)
    requires cfg.Valid() && cfg.hand in decoders
    requires Encode(cfg, p).Ok? && Encode(cfg, q).Ok?
    ensures Deliveries(cfg, decoders, CutMessages(Echo(cfg, p)).messages) == [Delivery(cfg.hand, Expected(cfg, p))]
    ensures Deliveries(cfg, decoders, CutMessages(Echo(cfg, q)).messages) == [Delivery(cfg.hand, Expected(cfg, p))]
      <==> p == q
  {
    EchoDelivers(cfg, decoders, p);
    EchoDelivers(cfg, decoders, q);
    ExpectedInjective(cfg, p, q);
  }

  lemma EchoDelivers(cfg: Config, decoders: set<nat>, p: Packet)
    requires cfg.Valid() && cfg.hand in decoders
    requires Encode(cfg, p).Ok?
    ensures Deliveries(cfg, decoders, CutMessages(Echo(cfg, p)).messages) == [Delivery(cfg.hand, Expected(cfg, p))]
  {
    BodySize(p);
    EchoIsMessage(cfg, p);
    MessageDispatches(cfg, decoders, cfg.hand, Expected(cfg, p), []);
    assert Echo(cfg, p) + [] == Echo(cfg, p);
    OneDelivery(cfg, decoders, Echo(cfg, p));
  }

  lemma EchoIsMessage(cfg: Config, p: Packet)
    requires cfg.Valid() && Encode(cfg, p).Ok?
    ensures Echo(cfg, p) ==
      Big32(cfg.width + |Expected(cfg, p)|) + BigEndian(cfg.hand, cfg.width) + Expected(cfg, p)
  {
    var sent := Encode(cfg, p).value;
    BodySize(p);
    ExpectedIsTail(cfg, p);
    assert sent[..4] == ZZZZ;
    assert sent[4..][4..] == sent[8..];
    Regroup(Big32(cfg.width + |Expected(cfg, p)|), BigEndian(cfg.hand, cfg.width), Expected(cfg, p));
  }
}

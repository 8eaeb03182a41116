/** What a stream of arbitrary messages delivers, good and bad ones mixed. */
module MessageStream {
  import opened Bytes
  import opened FilePackets
  import opened Distribution

  /** The message body is this descriptor, which some decoder is registered for, and then this payload. */
  predicate Carries(cfg: Config, decoders: set<nat>, body: bytes, d: Delivery) {
    && d.descriptor in cfg.apids && d.descriptor in decoders && d.descriptor < Pow256(cfg.width)
    && body == BigEndian(d.descriptor, cfg.width) + d.payload
  }

  /** A message is dispatched exactly as what it carries; bodies too short for a descriptor, and those whose descriptor
      is unknown or has no decoders, carry nothing. */
  lemma DispatchIff(cfg: Config, decoders: set<nat>, size: bytes, body: bytes, d: Delivery)
    requires |size| == 4
    ensures Dispatch(cfg, decoders, size + body) == Some(d) <==> Carries(cfg, decoders, body, d)
  {
    var raw := size + body;
    assert raw[4..] == body;
    if |body| >= cfg.width {
      var head := body[..cfg.width];
      assert raw[4..4 + cfg.width] == head && raw[4 + cfg.width..] == body[cfg.width..];
      ReadThenBigEndian(head);
      assert body == head + body[cfg.width..];
    }
    if Carries(cfg, decoders, body, d) {
      BigEndianThenRead(d.descriptor, cfg.width);
      assert body[..cfg.width] == BigEndian(d.descriptor, cfg.width) && body[cfg.width..] == d.payload;
    }
  }

  function Message(body: bytes): bytes
    requires |body| < 0x1_0000_0000
  {
    Big32(|body|) + body
  }

  predicate Sized(bodies: seq<bytes>) {
    forall i | 0 <= i < |bodies| :: |bodies[i]| < 0x1_0000_0000
  }

  function Stream(bodies: seq<bytes>): bytes
    requires Sized(bodies)
  {
    if bodies == [] then [] else Message(bodies[0]) + Stream(bodies[1..])
  }

  /** The deliveries are what the bodies carry, in order; bodies that carry nothing are left out. */
  ghost predicate DeliversBodies(cfg: Config, decoders: set<nat>, bodies: seq<bytes>, deliveries: seq<Delivery>) {
    if bodies == [] then deliveries == []
    else if exists d :: Carries(cfg, decoders, bodies[0], d) then
      && deliveries != [] && Carries(cfg, decoders, bodies[0], deliveries[0])
      && DeliversBodies(cfg, decoders, bodies[1..], deliveries[1..])
    else DeliversBodies(cfg, decoders, bodies[1..], deliveries)
  }

  lemma FrontMessage(body: bytes, rest: bytes)
    requires |body| < 0x1_0000_0000
    ensures CutMessages(Message(body) + rest) == CutMessages(rest).After([Message(body)])
  {
    var buf := Message(body) + rest;
    assert buf[..4] == Big32(|body|);
    assert buf[0..4] == Big32(|body|);
    ReadBig32At(buf, 0, |body|);
    assert buf[..|Message(body)|] == Message(body) && buf[|Message(body)|..] == rest;
  }

  /** Any messages, with the beginning of another behind them: every good one is delivered, in order, and every bad one
      is skipped alone. */
  lemma {:induction false} StreamDelivers(cfg: Config, decoders: set<nat>, bodies: seq<bytes>, tail: bytes)
    requires Sized(bodies) && MessageSize(tail) == 0
    ensures var cut := CutMessages(Stream(bodies) + tail);
      && cut.leftover == tail && |cut.messages| == |bodies|
      && DeliversBodies(cfg, decoders, bodies, Deliveries(cfg, decoders, cut.messages))
  {
    if bodies == [] {
      assert [] + tail == tail;
    } else {
      var body, rest := bodies[0], Stream(bodies[1..]) + tail;
      StreamDelivers(cfg, decoders, bodies[1..], tail);
      FrontMessage(body, rest);
      Regroup(Message(body), Stream(bodies[1..]), tail);
      var raws := CutMessages(rest).messages;
      assert ([Message(body)] + raws)[1..] == raws;
      forall d ensures Dispatch(cfg, decoders, Message(body)) == Some(d) <==> Carries(cfg, decoders, body, d) {
        DispatchIff(cfg, decoders, Big32(|body|), body, d);
      }
      FirstDelivered(cfg, decoders, bodies, Message(body), raws);
    }
  }

  lemma FirstDelivered(cfg: Config, decoders: set<nat>, bodies: seq<bytes>, raw: bytes, raws: seq<bytes>)
    requires bodies != [] && DeliversBodies(cfg, decoders, bodies[1..], Deliveries(cfg, decoders, raws))
    requires forall d :: Dispatch(cfg, decoders, raw) == Some(d) <==> Carries(cfg, decoders, bodies[0], d)
    ensures DeliversBodies(cfg, decoders, bodies, Deliveries(cfg, decoders, [raw] + raws))
  {
    var first := Dispatch(cfg, decoders, raw);
    var more := Deliveries(cfg, decoders, raws);
    assert ([raw] + raws)[1..] == raws;
    if first.Some? {
      assert Carries(cfg, decoders, bodies[0], first.value);
      assert ([first.value] + more)[1..] == more;
    } else {
      assert [] + more == more;
    }
  }
}

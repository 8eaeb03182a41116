/** What draining a pool means: it does not depend on how the stream was cut into reads, loses no byte, and undoes
    framing. */
module FramingTheorems {
  import opened Bytes
  import opened Framing

  // ---------------------------------------------------------------- independence from read boundaries

  /** Once the front of a pool calls for an action, more bytes behind it change nothing. */
  lemma HeadStable(f: Framer, a: bytes, b: bytes)
    requires !f.Head(a).Wait?
    ensures f.Head(a + b) == f.Head(a)
  {
    assert forall i | 0 <= i < |a| :: (a + b)[i] == a[i];
    match f
    case FpFramerDeframer(sum) =>
      var size: int := U32At(a, 4);
      if HEADER_SIZE + size <= |a| {
        assert (a + b)[..HEADER_SIZE + size] == a[..HEADER_SIZE + size];
      }
    case TcpServerFramerDeframer =>
      assert |a| >= 4 ==> (a + b)[..4] == a[..4];
  }

  /** Draining a stream in two reads, carrying the pool over, extracts what one drain of the whole stream extracts. */
  lemma {:induction false} ChunkingInvariance(f: Framer, a: bytes, b: bytes)
    ensures f.Drain(a + b) == f.Drain(f.Drain(a).leftover + b).After(f.Drain(a).packets, f.Drain(a).discarded)
    decreases |a|
  {
    match f.Head(a)
    case Wait =>
    case Skip =>
      HeadStable(f, a, b);
      assert (a + b)[1..] == a[1..] + b;
      ChunkingInvariance(f, a[1..], b);
      AfterTwice(f.Drain(f.Drain(a).leftover + b), [], [a[0]], f.Drain(a[1..]).packets, f.Drain(a[1..]).discarded);
    case Take(start, stop, size) =>
      HeadStable(f, a, b);
      assert (a + b)[size..] == a[size..] + b;
      assert (a + b)[start..stop] == a[start..stop];
      ChunkingInvariance(f, a[size..], b);
      AfterTwice(f.Drain(f.Drain(a).leftover + b), [a[start..stop]], [], f.Drain(a[size..]).packets,
        f.Drain(a[size..]).discarded);
  }

  /** What is left over is always something to wait on: draining it again extracts nothing. */
  lemma {:induction false} LeftoverWaits(f: Framer, data: bytes)
    ensures f.Head(f.Drain(data).leftover).Wait?
    decreases |data|
  {
    match f.Head(data)
    case Wait =>
    case Skip => LeftoverWaits(f, data[1..]);
    case Take(_, _, size) => LeftoverWaits(f, data[size..]);
  }

  /** The pool carried between reads stays below one maximal frame. */
  lemma {:induction false} FpPoolBounded(sum: Checksum, data: bytes)
    ensures |FpFramerDeframer(sum).Drain(data).leftover| <= 4106
  {
    LeftoverWaits(FpFramerDeframer(sum), data);
  }

  // ---------------------------------------------------------------- conservation

  datatype Event = Dropped(b: byte) | Framed(payload: bytes)

  /** The history of a drain: in stream order, the bytes dropped and the packets taken. */
  function Trace(f: Framer, data: bytes): seq<Event>
    decreases |data|
  {
    match f.Head(data)
    case Wait => []
    case Skip => [Dropped(data[0])] + Trace(f, data[1..])
    case Take(start, stop, size) => [Framed(data[start..stop])] + Trace(f, data[size..])
  }

  /** What carries a payload on the way down: the F Prime frame, or marker, length and payload. */
  function Carrier(f: Framer, p: bytes): bytes {
    if f.FpFramerDeframer? then (if |p| < MAXIMUM_DATA_SIZE then FpFrame(f.checksum, p) else [])
    else if |p| < 0x1_0000_0000 then ZZZZ + Big32(|p|) + p
    else []
  }

  /** The bytes a history stands for: dropped bytes as they are, packets as what carries them. */
  function OnWire(f: Framer, events: seq<Event>): bytes {
    if events == [] then []
    else (match events[0]
          case Dropped(b) => [b]
          case Framed(p) => Carrier(f, p)) + OnWire(f, events[1..])
  }

  function Payloads(events: seq<Event>): seq<bytes> {
    if events == [] then []
    else (if events[0].Framed? then [events[0].payload] else []) + Payloads(events[1..])
  }

  function Drops(events: seq<Event>): bytes {
    if events == [] then []
    else (if events[0].Dropped? then [events[0].b] else []) + Drops(events[1..])
  }

  /** The bytes consumed for a packet are exactly the frame of that packet. */
  lemma TakenIsFrame(sum: Checksum, data: bytes)
    requires FpHead(sum, data).Take?
    ensures var h := FpHead(sum, data);
      h.stop - h.start < MAXIMUM_DATA_SIZE && data[..h.size] == FpFrame(sum, data[h.start..h.stop])
  {
    var h := FpHead(sum, data);
    var p := data[h.start..h.stop];
    ReadThenBig32(data, 0);
    ReadThenBig32(data, 4);
    ReadThenBig32(data, h.stop);
    assert FpHeader(|p|) == data[..4] + data[4..8];
    assert FpHeader(|p|) + p == data[..h.stop];
  }

  lemma TakenIsMessage(data: bytes)
    requires TcpHead(data).Take?
    ensures var h := TcpHead(data);
      h.stop - h.start < 0x1_0000_0000 && data[..h.size] == ZZZZ + Big32(h.stop - h.start) + data[h.start..h.stop]
  {
    ReadThenBig32(data, 4);
    var h := TcpHead(data);
    assert data[..h.size] == data[..4] + data[4..8] + data[8..h.size];
  }

  /** The bytes consumed for a packet are exactly what carries it. */
  lemma TakenIsCarrier(f: Framer, data: bytes)
    requires f.Head(data).Take?
    ensures var h := f.Head(data); data[..h.size] == Carrier(f, data[h.start..h.stop])
  {
    match f
    case FpFramerDeframer(sum) => TakenIsFrame(sum, data);
    case TcpServerFramerDeframer => TakenIsMessage(data);
  }

  lemma TraceSkip(f: Framer, data: bytes)
    requires f.Head(data).Skip?
    ensures var t := Trace(f, data[1..]);
      && OnWire(f, Trace(f, data)) == [data[0]] + OnWire(f, t)
      && Payloads(Trace(f, data)) == Payloads(t)
      && Drops(Trace(f, data)) == [data[0]] + Drops(t)
  {
    assert ([Dropped(data[0])] + Trace(f, data[1..]))[1..] == Trace(f, data[1..]);
  }

  lemma TraceTake(f: Framer, data: bytes)
    requires f.Head(data).Take?
    ensures var h := f.Head(data); var t := Trace(f, data[h.size..]);
      && OnWire(f, Trace(f, data)) == data[..h.size] + OnWire(f, t)
      && Payloads(Trace(f, data)) == [data[h.start..h.stop]] + Payloads(t)
      && Drops(Trace(f, data)) == Drops(t)
  {
    var h := f.Head(data);
    TakenIsCarrier(f, data);
    assert ([Framed(data[h.start..h.stop])] + Trace(f, data[h.size..]))[1..] == Trace(f, data[h.size..]);
  }

  /** No byte is lost or invented, in either format: the stream is its history written out again, followed by the
      leftover; the packets and the discarded bytes are those of the history. */
  lemma {:induction false} DeframingConserves(f: Framer, data: bytes)
    ensures var all := f.Drain(data);
      && data == OnWire(f, Trace(f, data)) + all.leftover
      && all.packets == Payloads(Trace(f, data))
      && all.discarded == Drops(Trace(f, data))
    decreases |data|
  {
    match f.Head(data)
    case Wait =>
    case Skip =>
      DeframingConserves(f, data[1..]);
      TraceSkip(f, data);
      Rejoin(data, 1, OnWire(f, Trace(f, data[1..])), f.Drain(data[1..]).leftover);
      assert data[..1] == [data[0]];
    case Take(start, stop, size) =>
      DeframingConserves(f, data[size..]);
      TraceTake(f, data);
      Rejoin(data, size, OnWire(f, Trace(f, data[size..])), f.Drain(data[size..]).leftover);
      DrainTake(f, data, start, stop, size, []);
  }

  lemma Rejoin(data: bytes, k: nat, x: bytes, y: bytes)
    requires k <= |data| && data[k..] == x + y
    ensures data == (data[..k] + x) + y
  {
    assert data == data[..k] + data[k..];
  }

  /** Only packets below the maximum come out. */
  lemma {:induction false} PacketsBounded(sum: Checksum, data: bytes)
    ensures forall p | p in FpFramerDeframer(sum).Drain(data).packets :: |p| < MAXIMUM_DATA_SIZE
    decreases |data|
  {
    match FpHead(sum, data)
    case Wait =>
    case Skip => PacketsBounded(sum, data[1..]);
    case Take(start, stop, size) =>
      PacketsBounded(sum, data[size..]);
      assert FpFramerDeframer(sum).Drain(data).packets ==
        [data[start..stop]] + FpFramerDeframer(sum).Drain(data[size..]).packets;
  }

  // ---------------------------------------------------------------- framing is undone

  /** What `frame` accepts. */
  type sized = p: bytes | |p| < 0x1_0000_0000

  /** What `frame` makes of payloads, one after the other. */
  function Frames(sum: Checksum, payloads: seq<sized>): bytes {
    if payloads == [] then [] else FpFramerDeframer(sum).Frame(payloads[0]).value + Frames(sum, payloads[1..])
  }

  lemma FrameHead(sum: Checksum, p: bytes, tail: bytes)
    requires |p| < MAXIMUM_DATA_SIZE
    ensures FpHead(sum, FpFrame(sum, p) + tail) == Take(8, 8 + |p|, 12 + |p|)
  {
    var framed := FpHeader(|p|) + p;
    var data := FpFrame(sum, p) + tail;
    Big32ThenRead(START_TOKEN);
    Big32ThenRead(|p|);
    Big32ThenRead(sum(framed));
    assert data[..8 + |p|] == framed;
    assert data[0..4] == Big32(START_TOKEN) && data[4..8] == Big32(|p|) &&
      data[8 + |p|..12 + |p|] == Big32(sum(framed));
    ReadSlice(data, 0);
    ReadSlice(data, 4);
    ReadSlice(data, 8 + |p|);
  }

  lemma ReadSlice(data: bytes, i: nat)
    requires i + 4 <= |data|
    ensures U32At(data[i..i + 4], 0) == U32At(data, i)
  {
    assert data[i..i + 4][0] == data[i];
  }

  lemma {:induction false} FramesDrain(sum: Checksum, payloads: seq<sized>, tail: bytes)
    requires forall p | p in payloads :: |p| < MAXIMUM_DATA_SIZE
    ensures FpFramerDeframer(sum).Drain(Frames(sum, payloads) + tail) ==
      FpFramerDeframer(sum).Drain(tail).After(payloads, [])
  {
    if payloads == [] {
      assert Frames(sum, payloads) + tail == tail;
    } else {
      FramesDrain(sum, payloads[1..], tail);
      FrameDrain(sum, payloads[0], Frames(sum, payloads[1..]) + tail);
      AfterTwice(FpFramerDeframer(sum).Drain(tail), [payloads[0]], [], payloads[1..], []);
      FramesCons(sum, payloads, tail);
    }
  }

  lemma FramesCons(sum: Checksum, payloads: seq<sized>, tail: bytes)
    requires payloads != []
    ensures Frames(sum, payloads) + tail == FpFrame(sum, payloads[0]) + (Frames(sum, payloads[1..]) + tail)
    ensures [payloads[0]] + payloads[1..] == payloads
  {
    Regroup(FpFrame(sum, payloads[0]), Frames(sum, payloads[1..]), tail);
  }

  lemma FrameDrain(sum: Checksum, p: bytes, rest: bytes)
    requires |p| < MAXIMUM_DATA_SIZE
    ensures FpFramerDeframer(sum).Drain(FpFrame(sum, p) + rest) == FpFramerDeframer(sum).Drain(rest).After([p], [])
  {
    var data := FpFrame(sum, p) + rest;
    FrameHead(sum, p, rest);
    assert data[12 + |p|..] == rest && data[8..8 + |p|] == p;
  }

  /** Concatenated frames come back as exactly their payloads, with nothing left over or discarded, precisely when every
      payload is below the deframer's maximum: `frame` itself accepts larger ones. */
  lemma DeframeUndoesFrame(sum: Checksum, payloads: seq<sized>)
    ensures FpFramerDeframer(sum).Drain(Frames(sum, payloads)) == Batch(payloads, [], [])
      <==> forall p | p in payloads :: |p| < MAXIMUM_DATA_SIZE
  {
    PacketsBounded(sum, Frames(sum, payloads));
    if forall p | p in payloads :: |p| < MAXIMUM_DATA_SIZE {
      FramesDrain(sum, payloads, []);
      assert Frames(sum, payloads) + [] == Frames(sum, payloads);
    }
  }

  /** No start word begins inside the garbage. */
  predicate NoStartIn(garbage: bytes, tail: bytes) {
    forall k: nat | k < |garbage| && k + 4 <= |garbage + tail| :: U32At(garbage + tail, k) != START_TOKEN
  }

  /** Resynchronisation: garbage in which no start word begins is discarded exactly, whatever follows it, if and only if
      at least 7 bytes follow: with fewer, its last bytes stay in the pool. */
  lemma GarbageDiscardedExactly(sum: Checksum, garbage: bytes, tail: bytes)
    requires NoStartIn(garbage, tail)
    ensures FpFramerDeframer(sum).Drain(garbage + tail) == FpFramerDeframer(sum).Drain(tail).After([], garbage)
      <==> garbage == [] || |tail| >= 7
  {
    if garbage == [] {
      assert garbage + tail == tail;
      AfterNothing(FpFramerDeframer(sum).Drain(tail));
    } else if |tail| >= 7 {
      GarbageDiscarded(sum, garbage, tail);
    } else {
      GarbageKept(sum, garbage, tail);
    }
  }

  lemma AfterNothing(b: Batch)
    ensures b.After([], []) == b
  {
  }

  lemma GarbageShorter(garbage: bytes, tail: bytes)
    requires garbage != [] && NoStartIn(garbage, tail)
    ensures (garbage + tail)[1..] == garbage[1..] + tail
    ensures NoStartIn(garbage[1..], tail)
    ensures |garbage + tail| >= 8 ==> U32At(garbage + tail, 0) != START_TOKEN
  {
    var data, rest := garbage + tail, garbage[1..] + tail;
    assert data[1..] == rest;
    forall k: nat | k < |garbage[1..]| && k + 4 <= |rest| ensures U32At(rest, k) != START_TOKEN {
      ReadShifted(data, k);
    }
  }

  lemma {:induction false} GarbageDiscarded(sum: Checksum, garbage: bytes, tail: bytes)
    requires |tail| >= 7 && NoStartIn(garbage, tail)
    ensures FpFramerDeframer(sum).Drain(garbage + tail) == FpFramerDeframer(sum).Drain(tail).After([], garbage)
  {
    var f := FpFramerDeframer(sum);
    if garbage == [] {
      assert garbage + tail == tail;
      AfterNothing(f.Drain(tail));
    } else {
      GarbageShorter(garbage, tail);
      GarbageDiscarded(sum, garbage[1..], tail);
      AfterTwice(f.Drain(tail), [], [garbage[0]], [], garbage[1..]);
      GarbageCons(garbage);
    }
  }

  lemma {:induction false} GarbageKept(sum: Checksum, garbage: bytes, tail: bytes)
    requires garbage != [] && |tail| < 7 && NoStartIn(garbage, tail)
    ensures |FpFramerDeframer(sum).Drain(garbage + tail).leftover| > |tail|
    ensures FpFramerDeframer(sum).Drain(tail).leftover == tail
  {
    if |garbage + tail| >= 8 {
      GarbageShorter(garbage, tail);
      GarbageKept(sum, garbage[1..], tail);
    }
  }

  lemma ReadShifted(data: bytes, k: nat)
    requires k + 5 <= |data|
    ensures U32At(data[1..], k) == U32At(data, k + 1)
  {
  }

  lemma GarbageCons(garbage: bytes)
    requires garbage != []
    ensures [garbage[0]] + garbage[1..] == garbage
  {
  }

  // ---------------------------------------------------------------- what goes on the wire

  /** The bytes of a framed payload, read one field after the other. */
  predicate Wire(f: Framer, w: bytes, p: bytes) {
    match f
    case FpFramerDeframer(sum) =>
      && |w| == 12 + |p|
      && U32At(w, 0) == START_TOKEN && U32At(w, 4) == |p| && w[8..8 + |p|] == p
      && U32At(w, 8 + |p|) == sum(w[..8 + |p|])
    case TcpServerFramerDeframer =>
      && |w| == 13 + |p|
      && w[..9] == [0x41, 0x35, 0x41, 0x35, 0x20, 0x47, 0x55, 0x49, 0x20]
      && U32At(w, 9) == |p| && w[13..] == p
  }

  /** `frame` fails exactly when the length does not fit in 32 bits, and otherwise puts the payload on the wire. */
  lemma FrameOnWire(f: Framer, p: bytes)
    ensures f.Frame(p).Ok? <==> |p| < 0x1_0000_0000
    ensures f.Frame(p).Ok? ==> Wire(f, f.Frame(p).value, p)
  {
    if |p| < 0x1_0000_0000 {
      match f
      case FpFramerDeframer(sum) => FpFrameOnWire(sum, p);
      case TcpServerFramerDeframer => TcpFrameOnWire(p);
    }
  }

  lemma FpFrameOnWire(sum: Checksum, p: bytes)
    requires |p| < 0x1_0000_0000
    ensures Wire(FpFramerDeframer(sum), FpFramerDeframer(sum).Frame(p).value, p)
  {
    var w := FpFramerDeframer(sum).Frame(p).value;
    var framed := FpHeader(|p|) + p;
    Big32ThenRead(START_TOKEN);
    Big32ThenRead(|p|);
    Big32ThenRead(sum(framed));
    assert w[0..4] == Big32(START_TOKEN) && w[4..8] == Big32(|p|);
    assert w[8 + |p|..12 + |p|] == Big32(sum(framed)) && w[..8 + |p|] == framed;
    ReadSlice(w, 0);
    ReadSlice(w, 4);
    ReadSlice(w, 8 + |p|);
  }

  lemma TcpFrameOnWire(p: bytes)
    requires |p| < 0x1_0000_0000
    ensures Wire(TcpServerFramerDeframer, TcpServerFramerDeframer.Frame(p).value, p)
  {
    var w := TcpServerFramerDeframer.Frame(p).value;
    Big32ThenRead(|p|);
    assert w[9..13] == Big32(|p|);
    ReadSlice(w, 9);
  }

  /** A framed payload is deframed to exactly itself if and only if it is below the deframer's maximum. */
  lemma WireDrains(sum: Checksum, w: bytes, p: bytes)
    requires Wire(FpFramerDeframer(sum), w, p)
    ensures FpFramerDeframer(sum).Drain(w) == Batch([p], [], []) <==> |p| < MAXIMUM_DATA_SIZE
  {
    var f := FpFramerDeframer(sum);
    if |p| < MAXIMUM_DATA_SIZE {
      assert f.Head(w) == Take(8, 8 + |p|, 12 + |p|);
      assert w[12 + |p|..] == [] && f.Drain([]) == Batch([], [], []);
    } else {
      PacketsBounded(sum, w);
      assert f.Drain(w) == Batch([p], [], []) ==> p in f.Drain(w).packets;
    }
  }

  /** For every payload that frames, and of `frame` itself. */
  lemma FrameDeframes(sum: Checksum, p: bytes)
    requires |p| < 0x1_0000_0000
    ensures var f := FpFramerDeframer(sum);
      f.Frame(p).Ok? && (f.Drain(f.Frame(p).value) == Batch([p], [], []) <==> |p| < MAXIMUM_DATA_SIZE)
  {
    FrameOnWire(FpFramerDeframer(sum), p);
    WireDrains(sum, FpFramerDeframer(sum).Frame(p).value, p);
  }

  // ---------------------------------------------------------------- TCP server format

  /** Messages as the TCP server receives them from the display layer. */
  function TcpStream(payloads: seq<sized>): bytes {
    if payloads == [] then [] else ZZZZ + Big32(|payloads[0]|) + payloads[0] + TcpStream(payloads[1..])
  }

  lemma TcpMessageDrain(p: sized, rest: bytes)
    ensures TcpServerFramerDeframer.Drain(ZZZZ + Big32(|p|) + p + rest) ==
      TcpServerFramerDeframer.Drain(rest).After([p], [])
  {
    var data := ZZZZ + Big32(|p|) + p + rest;
    assert data[..4] == ZZZZ && data[4..8] == Big32(|p|);
    Big32ThenRead(|p|);
    ReadSlice(data, 4);
    assert data[8 + |p|..] == rest && data[8..8 + |p|] == p;
  }

  /** The messages of a TCP stream come back as exactly their payloads. */
  lemma {:induction false} TcpStreamDrains(payloads: seq<sized>, tail: bytes)
    ensures TcpServerFramerDeframer.Drain(TcpStream(payloads) + tail) ==
      TcpServerFramerDeframer.Drain(tail).After(payloads, [])
  {
    var f := TcpServerFramerDeframer;
    if payloads == [] {
      assert TcpStream(payloads) + tail == tail;
    } else {
      var p, rest := payloads[0], TcpStream(payloads[1..]) + tail;
      assert ZZZZ + Big32(|p|) + p + rest == TcpStream(payloads) + tail;
      TcpMessageDrain(p, rest);
      TcpStreamDrains(payloads[1..], tail);
      AfterTwice(f.Drain(tail), [p], [], payloads[1..], []);
      assert [p] + payloads[1..] == payloads;
    }
  }

  predicate MarkerAt(s: bytes, k: nat) {
    k + 4 <= |s| && s[k..k + 4] == ZZZZ
  }

  /** No marker begins inside the garbage. */
  predicate NoMarkerIn(garbage: bytes, tail: bytes) {
    forall k: nat | k < |garbage| :: !MarkerAt(garbage + tail, k)
  }

  /** Garbage in which no marker begins is shifted away exactly if and only if at least 4 bytes follow. */
  lemma TcpGarbageShifted(garbage: bytes, tail: bytes)
    requires NoMarkerIn(garbage, tail)
    ensures TcpServerFramerDeframer.Drain(garbage + tail) == TcpServerFramerDeframer.Drain(tail).After([], garbage)
      <==> garbage == [] || |tail| >= 4
  {
    if garbage == [] {
      assert garbage + tail == tail;
      AfterNothing(TcpServerFramerDeframer.Drain(tail));
    } else if |tail| >= 4 {
      TcpGarbageGone(garbage, tail);
    } else {
      TcpGarbageKept(garbage, tail);
    }
  }

  lemma TcpShorter(garbage: bytes, tail: bytes)
    requires garbage != [] && NoMarkerIn(garbage, tail)
    ensures (garbage + tail)[1..] == garbage[1..] + tail
    ensures NoMarkerIn(garbage[1..], tail)
    ensures |garbage + tail| > 4 ==> TcpServerFramerDeframer.Head(garbage + tail).Skip?
  {
    var data, rest := garbage + tail, garbage[1..] + tail;
    assert data[1..] == rest;
    forall k: nat | k < |garbage[1..]| ensures !MarkerAt(rest, k) {
      if k + 4 <= |rest| {
        assert rest[k..k + 4] == data[k + 1..k + 5];
        assert !MarkerAt(data, k + 1);
      }
    }
    assert !MarkerAt(data, 0);
    if |data| > 4 {
      assert data[0..4] == data[..4];
    }
  }

  lemma {:induction false} TcpGarbageGone(garbage: bytes, tail: bytes)
    requires |tail| >= 4 && NoMarkerIn(garbage, tail)
    ensures TcpServerFramerDeframer.Drain(garbage + tail) == TcpServerFramerDeframer.Drain(tail).After([], garbage)
  {
    var f := TcpServerFramerDeframer;
    if garbage == [] {
      assert garbage + tail == tail;
      AfterNothing(f.Drain(tail));
    } else {
      TcpShorter(garbage, tail);
      TcpGarbageGone(garbage[1..], tail);
      AfterTwice(f.Drain(tail), [], [garbage[0]], [], garbage[1..]);
      GarbageCons(garbage);
    }
  }

  lemma {:induction false} TcpGarbageKept(garbage: bytes, tail: bytes)
    requires garbage != [] && |tail| < 4 && NoMarkerIn(garbage, tail)
    ensures |TcpServerFramerDeframer.Drain(garbage + tail).leftover| > |tail|
    ensures TcpServerFramerDeframer.Drain(tail).leftover == tail
  {
    if |garbage + tail| > 4 {
      TcpShorter(garbage, tail);
      TcpGarbageKept(garbage[1..], tail);
    }
  }
}

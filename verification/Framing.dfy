/** Deframing of byte streams: `FpFramerDeframer` (start word, length, payload, checksum; resynchronises one byte at a
    time) and `TcpServerFramerDeframer` ("ZZZZ", length, payload). Both are drained by the same `deframe_all` loop. */
module Framing {
  import opened Bytes

  const HEADER_SIZE := 8
  const CHECKSUM_SIZE := 4
  const MAXIMUM_DATA_SIZE := 4096
  const START_TOKEN: u32 := 0xDEADBEEF
  const A5A5_GUI: bytes := [0x41, 0x35, 0x41, 0x35, 0x20, 0x47, 0x55, 0x49, 0x20]

  /** The checksum is any function of the bytes to a 32-bit word. */
  type Checksum = bytes -> u32

  /** What the front of the data pool calls for: wait for more bytes, throw one byte away, or take a packet
      (payload at [start..stop], `size` bytes consumed). */
  datatype Head = Wait | Skip | Take(start: nat, stop: nat, size: nat)

  /** Everything extracted from a pool: packets, bytes kept for later, bytes thrown away. */
  datatype Batch = Batch(packets: seq<bytes>, leftover: bytes, discarded: bytes)
  {
    /** This batch, with packets and discarded bytes found earlier put in front. */
    function After(packets: seq<bytes>, gone: bytes): Batch {
      Batch(packets + this.packets, leftover, gone + discarded)
    }
  }

  lemma AfterTwice(b: Batch, p: seq<bytes>, g: bytes, q: seq<bytes>, h: bytes)
    ensures b.After(q, h).After(p, g) == b.After(p + q, g + h)
  {
    assert p + (q + b.packets) == (p + q) + b.packets;
    assert g + (h + b.discarded) == (g + h) + b.discarded;
  }

  datatype Framer = FpFramerDeframer(checksum: Checksum) | TcpServerFramerDeframer
  {
    function Head(data: bytes): (h: Head)
      ensures h.Skip? ==> data != []
      ensures h.Take? ==> h.start <= h.stop <= h.size <= |data| && 0 < h.size
    {
      match this
      case FpFramerDeframer(sum) => FpHead(sum, data)
      case TcpServerFramerDeframer => TcpHead(data)
    }

    /** Reference meaning of draining a pool. */
    function Drain(data: bytes): Batch
      decreases |data|
    {
      match Head(data)
      case Wait => Batch([], data, [])
      case Skip => Drain(data[1..]).After([], [data[0]])
      case Take(start, stop, size) => Drain(data[size..]).After([data[start..stop]], [])
    }

    /** The TCP deframer never reports what it shifted away. */
    function Reported(discarded: bytes): bytes {
      if TcpServerFramerDeframer? then [] else discarded
    }

    /** `frame`: what goes on the wire for `data`; packing the length fails past 32 bits. */
    function Frame(data: bytes): Result<bytes> {
      if |data| >= 0x1_0000_0000 then Err(StructError)
      else if FpFramerDeframer? then Ok(FpFrame(checksum, data))
      else Ok(A5A5_GUI + Big32(|data|) + data)
    }

    /** What a drain shows its caller. */
    function Shown(data: bytes): Batch {
      Drain(data).(discarded := Reported(Drain(data).discarded))
    }

    lemma ShownAfter(data: bytes, rest: bytes, packet: bytes, gone: bytes)
      requires Drain(data) == Drain(rest).After([packet], gone)
      ensures Shown(data) == Shown(rest).After([packet], Reported(gone))
    {
    }

    /** `deframe`: one packet, or none with the pool brought to its next start. */
    method Deframe(data: bytes) returns (packet: Option<bytes>, leftover: bytes, discarded: bytes)
      ensures TcpServerFramerDeframer? ==> discarded == []
      ensures packet.None? ==> Head(leftover).Wait? && Shown(data) == Batch([], leftover, discarded)
      ensures packet.Some? ==> |leftover| < |data| && Shown(data) == Shown(leftover).After([packet.value], discarded)
    {
      ghost var gone;
      match this {
        case FpFramerDeframer(sum) =>
          packet, leftover, discarded := FpDeframe(sum, data);
          gone := discarded;
        case TcpServerFramerDeframer =>
          packet, leftover, gone := TcpDeframe(data);
          discarded := [];
      }
      if packet.Some? {
        ShownAfter(data, leftover, packet.value, gone);
      }
    }

    /** `deframe_all`: the loop drains the pool completely. */
    method DeframeAll(input: bytes) returns (packets: seq<bytes>, data: bytes, discarded: bytes)
      ensures var all := Drain(input);
        packets == all.packets && data == all.leftover && discarded == Reported(all.discarded)
      ensures discarded == if FpFramerDeframer? then Drain(input).discarded else []
    {
      data, packets, discarded := input, [], [];
      while true
        invariant Shown(input) == Shown(data).After(packets, discarded)
        decreases |data|
      {
        var deframed, rest, dropped := Deframe(data);
        if deframed.None? {
          assert Shown(data).After(packets, discarded) == Batch(packets, rest, discarded + dropped);
          return packets, rest, discarded + dropped;
        }
        AfterTwice(Shown(rest), packets, discarded, [deframed.value], dropped);
        discarded := discarded + dropped;
        packets := packets + [deframed.value];
        data := rest;
      }
    }
  }

  /** What has been thrown away so far, and what is left to drain. */
  predicate Draining(f: Framer, input: bytes, data: bytes, gone: bytes) {
    f.Drain(input) == f.Drain(data).After([], gone)
  }

  lemma StartsDraining(f: Framer, input: bytes)
    ensures Draining(f, input, input, [])
  {
  }

  lemma DrainWait(f: Framer, input: bytes, data: bytes, gone: bytes)
    requires Draining(f, input, data, gone) && f.Head(data).Wait?
    ensures f.Drain(input) == Batch([], data, gone)
  {
  }

  lemma DrainSkip(f: Framer, data: bytes, gone: bytes)
    requires f.Head(data).Skip?
    ensures f.Drain(data).After([], gone) == f.Drain(data[1..]).After([], gone + data[0..1])
  {
    assert data[0..1] == [data[0]];
    AfterTwice(f.Drain(data[1..]), [], gone, [], [data[0]]);
  }

  lemma DrainTake(f: Framer, data: bytes, start: nat, stop: nat, size: nat, gone: bytes)
    requires f.Head(data) == Take(start, stop, size)
    ensures f.Drain(data).After([], gone) == f.Drain(data[size..]).After([data[start..stop]], gone)
  {
    var rest, packet := f.Drain(data[size..]), data[start..stop];
    assert f.Drain(data) == rest.After([packet], []);
    AfterTwice(rest, [], gone, [packet], []);
    assert [] + [packet] == [packet] && gone + [] == gone;
  }

  lemma SkipGoesOn(f: Framer, input: bytes, data: bytes, gone: bytes)
    requires Draining(f, input, data, gone) && f.Head(data).Skip?
    ensures data != [] && Draining(f, input, data[1..], gone + data[0..1])
  {
    DrainSkip(f, data, gone);
  }

  lemma TakeEnds(f: Framer, input: bytes, data: bytes, gone: bytes, start: nat, stop: nat, size: nat)
    requires Draining(f, input, data, gone) && f.Head(data) == Take(start, stop, size)
    ensures f.Drain(input) == f.Drain(data[size..]).After([data[start..stop]], gone)
  {
    DrainTake(f, data, start, stop, size, gone);
  }

  // ---------------------------------------------------------------- F Prime format

  function FpHeader(size: u32): bytes {
    Big32(START_TOKEN) + Big32(size)
  }

  function FpFrame(sum: Checksum, data: bytes): (f: bytes)
    requires |data| < 0x1_0000_0000
    ensures |f| == |data| + 12
  {
    var framed := FpHeader(|data|) + data;
    framed + Big32(sum(framed))
  }

  function FpHead(sum: Checksum, data: bytes): Head {
    if |data| < HEADER_SIZE then Wait
    else
      var size: int := U32At(data, 4);
      if U32At(data, 0) != START_TOKEN || size >= MAXIMUM_DATA_SIZE then Skip
      else if |data| < HEADER_SIZE + size + CHECKSUM_SIZE then Wait
      else if U32At(data, HEADER_SIZE + size) == sum(data[..HEADER_SIZE + size])
      then Take(HEADER_SIZE, HEADER_SIZE + size, HEADER_SIZE + size + CHECKSUM_SIZE)
      else Skip
  }

  lemma FpWaits(sum: Checksum, data: bytes)
    requires |data| >= HEADER_SIZE && U32At(data, 0) == START_TOKEN && U32At(data, 4) < MAXIMUM_DATA_SIZE
    requires |data| < HEADER_SIZE + U32At(data, 4) + CHECKSUM_SIZE
    ensures FpFramerDeframer(sum).Head(data) == Wait
  {
  }

  lemma FpTakes(sum: Checksum, data: bytes, size: nat)
    requires |data| >= HEADER_SIZE + size + CHECKSUM_SIZE && U32At(data, 0) == START_TOKEN
    requires U32At(data, 4) == size < MAXIMUM_DATA_SIZE
    requires U32At(data, HEADER_SIZE + size) == sum(data[..HEADER_SIZE + size])
    ensures FpFramerDeframer(sum).Head(data)
      == Take(HEADER_SIZE, HEADER_SIZE + size, HEADER_SIZE + size + CHECKSUM_SIZE)
  {
  }

  lemma FpSkips(sum: Checksum, data: bytes, size: nat)
    requires |data| >= HEADER_SIZE && U32At(data, 4) == size
    requires U32At(data, 0) == START_TOKEN && size < MAXIMUM_DATA_SIZE ==>
      && |data| >= HEADER_SIZE + size + CHECKSUM_SIZE
      && U32At(data, HEADER_SIZE + size) != sum(data[..HEADER_SIZE + size])
    ensures FpFramerDeframer(sum).Head(data) == Skip
  {
  }

  lemma FpWaitEnds(sum: Checksum, input: bytes, data: bytes, gone: bytes)
    requires Draining(FpFramerDeframer(sum), input, data, gone)
    requires |data| >= HEADER_SIZE && U32At(data, 0) == START_TOKEN && U32At(data, 4) < MAXIMUM_DATA_SIZE
    requires |data| < HEADER_SIZE + U32At(data, 4) + CHECKSUM_SIZE
    ensures FpHead(sum, data).Wait? && FpFramerDeframer(sum).Drain(input) == Batch([], data, gone)
  {
    FpWaits(sum, data);
    DrainWait(FpFramerDeframer(sum), input, data, gone);
  }

  lemma FpTakeEnds(sum: Checksum, input: bytes, data: bytes, gone: bytes, size: nat)
    requires Draining(FpFramerDeframer(sum), input, data, gone)
    requires |data| >= HEADER_SIZE + size + CHECKSUM_SIZE && U32At(data, 0) == START_TOKEN
    requires U32At(data, 4) == size < MAXIMUM_DATA_SIZE
    requires U32At(data, HEADER_SIZE + size) == sum(data[..HEADER_SIZE + size])
    ensures var f, total := FpFramerDeframer(sum), HEADER_SIZE + size + CHECKSUM_SIZE;
      f.Drain(input) == f.Drain(data[total..]).After([data[HEADER_SIZE..HEADER_SIZE + size]], gone)
  {
    FpTakes(sum, data, size);
    TakeEnds(FpFramerDeframer(sum), input, data, gone, HEADER_SIZE, HEADER_SIZE + size,
             HEADER_SIZE + size + CHECKSUM_SIZE);
  }

  lemma FpSkipGoesOn(sum: Checksum, input: bytes, data: bytes, gone: bytes, size: nat)
    requires Draining(FpFramerDeframer(sum), input, data, gone)
    requires |data| >= HEADER_SIZE && U32At(data, 4) == size
    requires U32At(data, 0) == START_TOKEN && size < MAXIMUM_DATA_SIZE ==>
      && |data| >= HEADER_SIZE + size + CHECKSUM_SIZE
      && U32At(data, HEADER_SIZE + size) != sum(data[..HEADER_SIZE + size])
    ensures Draining(FpFramerDeframer(sum), input, data[1..], gone + data[0..1])
  {
    FpSkips(sum, data, size);
    SkipGoesOn(FpFramerDeframer(sum), input, data, gone);
  }

  method FpDeframe(sum: Checksum, input: bytes) returns (packet: Option<bytes>, data: bytes, discarded: bytes)
    ensures packet.None? ==> FpHead(sum, data).Wait? && FpFramerDeframer(sum).Drain(input) == Batch([], data, discarded)
    ensures packet.Some? ==> |data| < |input|
    ensures packet.Some? ==>
      FpFramerDeframer(sum).Drain(input) == FpFramerDeframer(sum).Drain(data).After([packet.value], discarded)
  {
    ghost var f := FpFramerDeframer(sum);
    data, discarded := input, [];
    StartsDraining(f, input);
    while |data| >= HEADER_SIZE
      invariant |data| <= |input|
      invariant Draining(f, input, data, discarded)
      decreases |data|
    {
      var start, dataSize: int := U32At(data, 0), U32At(data, 4);
      var totalSize := HEADER_SIZE + dataSize + CHECKSUM_SIZE;
      if start == START_TOKEN && dataSize < MAXIMUM_DATA_SIZE {
        if |data| < totalSize {
          FpWaitEnds(sum, input, data, discarded);
          return None, data, discarded;
        }
        var deframed, check := data[HEADER_SIZE..HEADER_SIZE + dataSize], U32At(data, HEADER_SIZE + dataSize);
        if check == sum(data[..HEADER_SIZE + dataSize]) {
          FpTakeEnds(sum, input, data, discarded, dataSize);
          return Some(deframed), data[totalSize..], discarded;
        }
      }
      FpSkipGoesOn(sum, input, data, discarded, dataSize);
      discarded := discarded + data[0..1];
      data := data[1..];
    }
    DrainWait(f, input, data, discarded);
    return None, data, discarded;
  }

  // ---------------------------------------------------------------- TCP server format

  function TcpHead(data: bytes): Head {
    if |data| > 4 && data[..4] != ZZZZ then Skip
    else if |data| < 8 then Wait
    else
      var size: int := U32At(data, 4);
      if |data| < size + 8 then Wait else Take(8, 8 + size, 8 + size)
  }

  method TcpDeframe(input: bytes) returns (packet: Option<bytes>, data: bytes, ghost gone: bytes)
    ensures packet.None? ==> TcpHead(data).Wait? && TcpServerFramerDeframer.Drain(input) == Batch([], data, gone)
    ensures packet.Some? ==> |data| < |input|
    ensures packet.Some? ==>
      TcpServerFramerDeframer.Drain(input) == TcpServerFramerDeframer.Drain(data).After([packet.value], gone)
  {
    ghost var f := TcpServerFramerDeframer;
    gone := [];
    data := input;
    StartsDraining(f, input);
    while |data| > 4 && data[..4] != ZZZZ
      invariant |data| <= |input|
      invariant Draining(f, input, data, gone)
    {
      SkipGoesOn(f, input, data, gone);
      gone := gone + data[0..1];
      data := data[1..];
    }
    if |data| < 8 {
      DrainWait(f, input, data, gone);
      return None, data, gone;
    }
    var dataLen: int := U32At(data, 4);
    if |data| < dataLen + 8 {
      DrainWait(f, input, data, gone);
      return None, data, gone;
    }
    packet := Some(data[8..dataLen + 8]);
    TakeEnds(f, input, data, gone, 8, 8 + dataLen, dataLen + 8);
    data := data[dataLen + 8..];
  }
}

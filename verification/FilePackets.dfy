/** The four file packets: their byte layout (`FileEncoder.encode_api`) and its reading (`FileDecoder.decode_api`). */
module FilePackets {
  import opened Bytes

  /** The decoder leaves the one-element tuple of `unpack_from` in place of an END packet's hash; a tuple cannot be
      packed again. */
  datatype Hash = Word(value: int) | Wrapped(word: u32)

  datatype Packet =
    | Start(seqId: int, size: int, source: bytes, dest: bytes)
    | Data(seqId: int, offset: int, data: bytes)
    | End(seqId: int, hash: Hash)
    | Cancel(seqId: int)

  /** The descriptor table: width of a serialized descriptor and the values in use. */
  datatype Config = Config(width: nat, file: nat, hand: nat, apids: set<nat>)
  {
    ghost predicate Valid() {
      width in {1, 2, 4, 8} && file != hand && {file, hand} <= apids && file < Pow256(width) && hand < Pow256(width)
    }
  }

  // ---------------------------------------------------------------- descriptors

  function Pow256(n: nat): nat {
    if n == 0 then 1 else 256 * Pow256(n - 1)
  }

  /** Big-endian of a given width. */
  function BigEndian(v: nat, width: nat): (b: bytes)
    ensures |b| == width
  {
    if width == 0 then [] else BigEndian(v / 256, width - 1) + [v % 256]
  }

  function ReadBigEndian(b: bytes): nat {
    if b == [] then 0 else ReadBigEndian(b[..|b| - 1]) * 256 + b[|b| - 1] as int
  }

  lemma {:induction false} BigEndianThenRead(v: nat, width: nat)
    requires v < Pow256(width)
    ensures ReadBigEndian(BigEndian(v, width)) == v
  {
    if width > 0 {
      BigEndianThenRead(v / 256, width - 1);
      assert BigEndian(v, width)[..width - 1] == BigEndian(v / 256, width - 1);
    }
  }

  lemma {:induction false} ReadThenBigEndian(b: bytes)
    ensures ReadBigEndian(b) < Pow256(|b|) && BigEndian(ReadBigEndian(b), |b|) == b
  {
    if b != [] {
      var front, last := b[..|b| - 1], b[|b| - 1];
      var v := ReadBigEndian(b);
      ReadThenBigEndian(front);
      assert v / 256 == ReadBigEndian(front) && v % 256 == last;
      assert b == front + [last];
    }
  }

  // ---------------------------------------------------------------- encoding

  predicate Is32(v: int) { 0 <= v < 0x1_0000_0000 }

  /** The values `struct.pack` accepts. */
  predicate Packable(p: Packet) {
    Is32(p.seqId) && match p
      case Start(_, size, source, dest) => Is32(size) && |source| < 256 && |dest| < 256
      case Data(_, offset, data) => Is32(offset) && |data| < 0x1_0000
      case End(_, hash) => hash.Word? && Is32(hash.value)
      case Cancel(_) => true
  }

  function TypeCode(p: Packet): byte {
    match p case Start(_, _, _, _) => 0 case Data(_, _, _) => 1 case End(_, _) => 2 case Cancel(_) => 3
  }

  function TypeSpecific(p: Packet): bytes
    requires Packable(p)
  {
    match p
    case Start(_, size, source, dest) => Big32(size) + [|source|] + source + [|dest|] + dest
    case Data(_, offset, data) => Big32(offset) + [|data| / 256, |data| % 256] + data
    case End(_, hash) => Big32(hash.value)
    case Cancel(_) => []
  }

  /** The packet body: type, sequence id, then what the type calls for. */
  function Body(p: Packet): bytes
    requires Packable(p)
  {
    [TypeCode(p)] + Big32(p.seqId) + TypeSpecific(p)
  }

  /** `encode_api`: marker word, 32-bit length, file descriptor, body. */
  function Encode(cfg: Config, p: Packet): Result<bytes> {
    if !Packable(p) || cfg.width + |Body(p)| >= 0x1_0000_0000 then Err(StructError)
    else Ok(ZZZZ + Big32(cfg.width + |Body(p)|) + BigEndian(cfg.file, cfg.width) + Body(p))
  }

  lemma BodySize(p: Packet)
    requires Packable(p)
    ensures 5 <= |Body(p)| <= 11 + 0x1_0000
  {
  }

  // ---------------------------------------------------------------- decoding

  /** `data[i:j]`, clamped to the data. */
  function Slice(data: bytes, i: nat, j: nat): bytes {
    var hi := if j < |data| then j else |data|;
    if i < hi then data[i..hi] else []
  }

  /** `decode_api` */
  function Decode(data: bytes): Result<Packet> {
    if |data| < 5 then Err(StructError)
    else
      var seqId := U32At(data, 1);
      match data[0]
      case 0 =>
        if |data| < 10 then Err(StructError)
        else
          var n: int := data[9];
          if |data| < n + 11 then Err(StructError)
          else
            var m: int := data[n + 10];
            Ok(Start(seqId, U32At(data, 5), Slice(data, 10, n + 10), Slice(data, n + 11, n + m + 11)))
      case 1 =>
        if |data| < 11 then Err(StructError)
        else Ok(Data(seqId, U32At(data, 5), Slice(data, 11, 11 + U16At(data, 9))))
      case 2 =>
        if |data| < 9 then Err(StructError) else Ok(End(seqId, Wrapped(U32At(data, 5))))
      case 3 => Ok(Cancel(seqId))
      case _ => Err(ValueError)
  }

  /** What decoding makes of an encoded packet. */
  function AsDecoded(p: Packet): Packet
    requires Packable(p)
  {
    if p.End? then End(p.seqId, Wrapped(p.hash.value)) else p
  }

  lemma ReadBig32At(data: bytes, i: nat, w: u32)
    requires i + 4 <= |data| && data[i..i + 4] == Big32(w)
    ensures U32At(data, i) == w
  {
    Big32ThenRead(w);
    assert data[i..i + 4][0] == data[i] && data[i..i + 4][1] == data[i + 1];
    assert data[i..i + 4][2] == data[i + 2] && data[i..i + 4][3] == data[i + 3];
  }

  lemma HeaderReads(p: Packet, tail: bytes)
    requires Packable(p)
    ensures var b := Body(p) + tail;
      b[0] == TypeCode(p) && U32At(b, 1) == p.seqId && b[5..] == TypeSpecific(p) + tail
  {
    LayoutReads([TypeCode(p)], Big32(p.seqId), TypeSpecific(p), tail);
    ReadBig32At(Body(p) + tail, 1, p.seqId);
  }

  lemma LayoutReads(a: bytes, b: bytes, c: bytes, tail: bytes)
    requires |a| == 1 && |b| == 4
    ensures var s := a + b + c + tail; |s| >= 5 && s[0] == a[0] && s[1..5] == b && s[5..] == c + tail
  {
    Regroup(a + b, c, tail);
  }

  lemma PathsRead(size: bytes, source: bytes, dest: bytes, n: byte, m: byte, tail: bytes)
    requires |size| == 4 && |source| == n && |dest| == m
    ensures var t := size + [n] + source + [m] + dest + tail;
      && |t| >= n + m + 6
      && t[..4] == size && t[4] == n && t[5..5 + n] == source && t[n + 5] == m && t[n + 6..n + m + 6] == dest
  {
  }

  lemma StartFields(p: Packet, tail: bytes)
    requires p.Start? && Packable(p)
    ensures var b := Body(p) + tail; var n, m := |p.source|, |p.dest|;
      && b[5..9] == Big32(p.size) && b[9] == n && b[10..10 + n] == p.source
      && b[n + 10] == m && b[n + 11..n + m + 11] == p.dest
  {
    var b, t := Body(p) + tail, TypeSpecific(p) + tail;
    var n, m := |p.source|, |p.dest|;
    HeaderReads(p, tail);
    PathsRead(Big32(p.size), p.source, p.dest, n, m, tail);
    assert b[5..] == t;
    assert b[5..9] == t[..4] && b[10..10 + n] == t[5..5 + n] && b[n + 11..n + m + 11] == t[n + 6..n + m + 6];
  }

  lemma StartDecodes(p: Packet, tail: bytes)
    requires p.Start? && Packable(p)
    ensures Decode(Body(p) + tail) == Ok(p)
  {
    var b := Body(p) + tail;
    var n, m := |p.source|, |p.dest|;
    HeaderReads(p, tail);
    StartFields(p, tail);
    ReadBig32At(b, 5, p.size);
  }

  lemma DataDecodes(p: Packet, tail: bytes)
    requires p.Data? && Packable(p)
    ensures Decode(Body(p) + tail) == Ok(p)
  {
    var b := Body(p) + tail;
    var t := TypeSpecific(p) + tail;
    var n := |p.data|;
    HeaderReads(p, tail);
    assert t[..4] == Big32(p.offset) && t[4] == n / 256 && t[5] == n % 256 && t[6..6 + n] == p.data;
    assert b[5..9] == t[..4] && b[9] == t[4] && b[10] == t[5] && b[11..11 + n] == t[6..6 + n];
    ReadBig32At(b, 5, p.offset);
  }

  /** Decoding an encoded body gives the packet back, whatever trails it, except that an END packet's hash comes back
      wrapped in a tuple: the round trip is exact precisely for the other three. */
  lemma DecodeUndoesEncode(p: Packet, tail: bytes)
    requires Packable(p)
    ensures Decode(Body(p) + tail) == Ok(AsDecoded(p))
    ensures Decode(Body(p) + tail) == Ok(p) <==> !p.End?
    ensures Packable(AsDecoded(p)) <==> !p.End?
  {
    match p
    case Start(_, _, _, _) => StartDecodes(p, tail);
    case Data(_, _, _) => DataDecodes(p, tail);
    case End(_, hash) =>
      var b := Body(p) + tail;
      HeaderReads(p, tail);
      assert b[5..9] == Big32(hash.value);
      ReadBig32At(b, 5, hash.value);
    case Cancel(_) => HeaderReads(p, tail);
  }

  /** Different packets never share a body. */
  lemma BodyInjective(p: Packet, q: Packet)
    requires Packable(p) && Packable(q)
    ensures Body(p) == Body(q) <==> p == q
  {
    DecodeUndoesEncode(p, []);
    DecodeUndoesEncode(q, []);
    assert Body(p) + [] == Body(p) && Body(q) + [] == Body(q);
  }

  /** The bytes `FileUplinker.send` remembers: the encoding without marker and length. */
  function Expected(cfg: Config, p: Packet): bytes
    requires Packable(p)
  {
    BigEndian(cfg.file, cfg.width) + Body(p)
  }

  lemma ExpectedIsTail(cfg: Config, p: Packet)
    requires Encode(cfg, p).Ok?
    ensures Encode(cfg, p).value[8..] == Expected(cfg, p)
  {
  }

  lemma ExpectedInjective(cfg: Config, p: Packet, q: Packet)
    requires Packable(p) && Packable(q)
    ensures Expected(cfg, p) == Expected(cfg, q) <==> p == q
  {
    BodyInjective(p, q);
    assert Expected(cfg, p)[cfg.width..] == Body(p) && Expected(cfg, q)[cfg.width..] == Body(q);
  }
}

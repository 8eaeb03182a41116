/** From a file cut into packets, over the byte stream, back to a file: encoder, distributor, decoder and downlinker
    together. */
module FileTransfer {
  import opened Bytes
  import opened Checksum
  import opened FilePackets
  import opened TransmitFiles
  import opened Distribution
  import opened Downlink

  /** The packets the file decoder makes of its deliveries; what it cannot decode is dropped by `on_recv`. */
  function Decoded(cfg: Config, deliveries: seq<Delivery>): (packets: seq<Packet>)
  {
    if deliveries == [] then []
    else
      var d := deliveries[0];
      (if d.descriptor == cfg.file && Decode(d.payload).Ok? then [Decode(d.payload).value] else [])
      + Decoded(cfg, deliveries[1..])
  }

  /** DATA packets, with any sequence ids, for pieces. */
  function DataPackets(ids: seq<int>, pieces: seq<Piece>): seq<Packet>
    requires |ids| == |pieces|
  {
    seq(|pieces|, i requires 0 <= i < |pieces| => Data(ids[i], pieces[i].offset, pieces[i].data))
  }

  predicate Nonnegative(packets: seq<Packet>) {
    forall i | 0 <= i < |packets| && packets[i].Data? :: packets[i].offset >= 0
  }

  /** How opening a destination ends, for each packet by its place. */
  type Openings = nat -> Opening

  /** The downlinker fed with packets. */
  function ReceiveAll(d: Downlinker, packets: seq<Packet>, opens: Openings): (after: Downlinker)
    requires d.Sane() && Nonnegative(packets)
    ensures after.Sane() && after.directory == d.directory
  {
    if packets == [] then d
    else Receive(ReceiveAll(d, packets[..|packets| - 1], opens), packets[|packets| - 1], opens(|packets| - 1))
  }

  /** A file after writing pieces in order. */
  function WriteAll(content: bytes, pieces: seq<Piece>): bytes {
    if pieces == [] then content else WriteAt(WriteAll(content, pieces[..|pieces| - 1]), pieces[|pieces| - 1])
  }

  /** Some piece holds file byte i. */
  predicate Covered(pieces: seq<Piece>, i: nat) {
    exists k | 0 <= k < |pieces| :: Covers(pieces[k], i)
  }

  predicate AllCutFrom(pieces: seq<Piece>, file: bytes) {
    forall k | 0 <= k < |pieces| :: CutFrom(pieces[k], file)
  }

  /** Pieces of one file, in any order and with any repetition, leave every byte they cover right. */
  lemma {:induction false} WriteAllCovers(content: bytes, pieces: seq<Piece>, file: bytes)
    requires AllCutFrom(pieces, file)
    ensures var after := WriteAll(content, pieces);
      forall i: nat | Covered(pieces, i) :: i < |after| && i < |file| && after[i] == file[i]
    decreases |pieces|
  {
    if pieces != [] {
      var before, last := pieces[..|pieces| - 1], pieces[|pieces| - 1];
      assert AllCutFrom(before, file);
      WriteAllCovers(content, before, file);
      var mid, after := WriteAll(content, before), WriteAll(content, pieces);
      assert CutFrom(pieces[|pieces| - 1], file);
      forall i: nat | Covered(pieces, i) ensures i < |after| && i < |file| && after[i] == file[i] {
        if !Covers(last, i) {
          var k :| 0 <= k < |pieces| && Covers(pieces[k], i);
          assert k < |before| && Covers(before[k], i);
          assert Covered(before, i);
        }
        ByteWritten(mid, last, file, i);
      }
    }
  }

  lemma ByteWritten(content: bytes, p: Piece, file: bytes, i: nat)
    requires CutFrom(p, file)
    requires Covers(p, i) || (i < |content| && i < |file| && content[i] == file[i])
    ensures var after := WriteAt(content, p); i < |after| && i < |file| && after[i] == file[i]
  {
    WriteAtReads(content, p);
    if Covers(p, i) {
      CoveredByte(p, file, i);
      assert WriteAt(content, p)[p.offset + (i - p.offset)] == p.data[i - p.offset];
    }
  }

  lemma CoveredByte(p: Piece, file: bytes, i: nat)
    requires CutFrom(p, file) && Covers(p, i)
    ensures i < |file| && p.data[i - p.offset] == file[i]
  {
    assert file[p.offset..p.offset + |p.data|][i - p.offset] == file[i];
  }

  lemma {:induction false} DataPacketsWritten(d: Downlinker, ids: seq<int>, pieces: seq<Piece>, opens: Openings)
    requires d.Valid() && d.state == RUNNING && |ids| == |pieces|
    ensures Nonnegative(DataPackets(ids, pieces))
    ensures var after := ReceiveAll(d, DataPackets(ids, pieces), opens);
      && after.Valid() && after.state == RUNNING && after.active == d.active && after.files == d.files
      && after.sequence == d.sequence + |pieces|
      && after.disk == d.disk[d.active.value := WriteAll(d.disk[d.active.value], pieces)]
    decreases |pieces|
  {
    if pieces == [] {
      assert d.disk[d.active.value := d.disk[d.active.value]] == d.disk;
    } else {
      var n := |pieces| - 1;
      DataPacketsWritten(d, ids[..n], pieces[..n], opens);
      LastDataPacket(ids, pieces);
      var before := ReceiveAll(d, DataPackets(ids[..n], pieces[..n]), opens);
      assert ReceiveAll(d, DataPackets(ids, pieces), opens) == OnData(before, pieces[n]);
    }
  }

  lemma LastDataPacket(ids: seq<int>, pieces: seq<Piece>)
    requires |ids| == |pieces| > 0
    ensures var n := |pieces| - 1;
      && Nonnegative(DataPackets(ids, pieces))
      && DataPackets(ids, pieces)[..n] == DataPackets(ids[..n], pieces[..n])
      && DataPackets(ids, pieces)[n] == Data(ids[n], pieces[n].offset, pieces[n].data)
  {
  }

  /** What decoding makes of encoded packets. */
  function AllDecoded(packets: seq<Packet>): seq<Packet>
    requires forall p | p in packets :: Packable(p)
  {
    seq(|packets|, i requires 0 <= i < |packets| => assert packets[i] in packets; AsDecoded(packets[i]))
  }

  lemma {:induction false} BodiesDecode(cfg: Config, packets: seq<Packet>)
    requires forall p | p in packets :: Packable(p)
    ensures Decoded(cfg, BodiesTo(cfg.file, packets)) == AllDecoded(packets)
  {
    if packets != [] {
      var p, rest := packets[0], packets[1..];
      assert BodiesTo(cfg.file, packets)[1..] == BodiesTo(cfg.file, rest);
      BodyDecodes(p);
      AllDecodedCons(packets);
      BodiesDecode(cfg, rest);
    }
  }

  lemma BodyDecodes(p: Packet)
    requires Packable(p)
    ensures Decode(Body(p)) == Ok(AsDecoded(p))
  {
    DecodeUndoesEncode(p, []);
    assert Body(p) + [] == Body(p);
  }

  lemma AllDecodedCons(packets: seq<Packet>)
    requires packets != [] && forall p | p in packets :: Packable(p)
    ensures forall p | p in packets[1..] :: Packable(p)
    ensures AllDecoded(packets) == [AsDecoded(packets[0])] + AllDecoded(packets[1..])
  {
    assert forall p | p in packets[1..] :: p in packets;
  }

  /** Encoded packets, cut into reads anyhow, decode back to themselves, but for the tuples in END packets. */
  lemma StreamDecodes(cfg: Config, decoders: set<nat>, packets: seq<Packet>, chunks: seq<bytes>)
    requires cfg.Valid() && cfg.file in decoders
    requires forall p | p in packets :: Encode(cfg, p).Ok?
    requires Concat(chunks) == PacketStream(cfg, packets)
    ensures Decoded(cfg, Received(cfg, decoders, [], chunks)) == AllDecoded(packets)
  {
    assert CutMessages([]) == Cut([], []);
    ReceiveChunked(cfg, decoders, [], chunks);
    assert [] + Concat(chunks) == Concat(chunks);
    PacketStreamDelivers(cfg, decoders, packets);
    BodiesDecode(cfg, packets);
  }

  /** Pieces of a file leave what the old content had behind the file's end. */
  lemma {:induction false} WriteAllTail(content: bytes, pieces: seq<Piece>, file: bytes)
    requires AllCutFrom(pieces, file)
    ensures var after := WriteAll(content, pieces);
      && |content| <= |after| <= (if |content| < |file| then |file| else |content|)
      && forall i | |file| <= i < |content| :: after[i] == content[i]
    decreases |pieces|
  {
    if pieces != [] {
      var before, last := pieces[..|pieces| - 1], pieces[|pieces| - 1];
      assert AllCutFrom(before, file);
      WriteAllTail(content, before, file);
      assert CutFrom(pieces[|pieces| - 1], file);
      WriteAtReads(WriteAll(content, before), last);
      WriteAtLength(WriteAll(content, before), last);
    }
  }

  lemma WriteAtLength(content: bytes, p: Piece)
    ensures |WriteAt(content, p)| == |content| || |WriteAt(content, p)| == p.offset + |p.data|
  {
  }

  /** `file` written over `content`: opening for writing does not truncate, so a longer old file keeps its tail. */
  function Overlaid(content: bytes, file: bytes): bytes {
    file + (if |content| > |file| then content[|file|..] else [])
  }

  /** The destination holds the file, over what was there, and nothing else on disk has changed. */
  predicate Delivered(d: Downlinker, after: Downlinker, file: bytes)
    requires d.Valid() && d.state == RUNNING
  {
    && after.state == RUNNING && after.active == d.active
    && after.disk.Keys == d.disk.Keys
    && after.disk[d.active.value] == Overlaid(d.disk[d.active.value], file)
    && forall path | path in d.disk && path != d.active.value :: after.disk[path] == d.disk[path]
  }

  lemma PiecesDelivered(d: Downlinker, ids: seq<int>, pieces: seq<Piece>, file: bytes, opens: Openings)
    requires d.Valid() && d.state == RUNNING && |ids| == |pieces| && AllCutFrom(pieces, file)
    requires forall i: nat | i < |file| :: Covered(pieces, i)
    ensures Nonnegative(DataPackets(ids, pieces))
    ensures Delivered(d, ReceiveAll(d, DataPackets(ids, pieces), opens), file)
  {
    DataPacketsWritten(d, ids, pieces, opens);
    WriteAllCovers(d.disk[d.active.value], pieces, file);
    WriteAllTail(d.disk[d.active.value], pieces, file);
    var after := WriteAll(d.disk[d.active.value], pieces);
    forall i: nat | i < |file| ensures i < |after| && after[i] == file[i] {
      assert Covered(pieces, i);
    }
    OverlaidFromCover(d.disk[d.active.value], file, after);
  }

  /** DATA packets cut from a file in any way, encoded, stripped of the marker word, concatenated, split anyhow into
      reads, distributed, decoded, and received by a running downlinker in any order, with repetitions: whenever they
      cover the file, the destination is the file, followed only by what a longer old file had there; it equals the file
      if and only if the old one was not longer. No other file on disk changes. */
  lemma EndToEndIdentity(cfg: Config, decoders: set<nat>, file: bytes, ids: seq<int>, pieces: seq<Piece>,
                         chunks: seq<bytes>, d: Downlinker, opens: Openings)
    requires cfg.Valid() && cfg.file in decoders && d.Valid() && d.state == RUNNING
    requires |ids| == |pieces| && AllCutFrom(pieces, file)
    requires forall p | p in DataPackets(ids, pieces) :: Encode(cfg, p).Ok?
    requires Concat(chunks) == PacketStream(cfg, DataPackets(ids, pieces))
    requires forall i: nat | i < |file| :: Covered(pieces, i)
    ensures var packets := Decoded(cfg, Received(cfg, decoders, [], chunks));
      && Nonnegative(packets)
      && var after := ReceiveAll(d, packets, opens);
        && Delivered(d, after, file)
        && (after.disk[d.active.value] == file <==> |d.disk[d.active.value]| <= |file|)
  {
    StreamDecodes(cfg, decoders, DataPackets(ids, pieces), chunks);
    assert AllDecoded(DataPackets(ids, pieces)) == DataPackets(ids, pieces);
    PiecesDelivered(d, ids, pieces, file, opens);
    IdenticalIff(d.disk[d.active.value], file);
  }

  lemma OverlaidFromCover(content: bytes, file: bytes, after: bytes)
    requires forall i: nat | i < |file| :: i < |after| && after[i] == file[i]
    requires |content| <= |after| <= (if |content| < |file| then |file| else |content|)
    requires forall i | |file| <= i < |content| :: after[i] == content[i]
    ensures after == Overlaid(content, file)
  {
    if file != [] {
      var last := file[|file| - 1];
      assert |file| <= |after|;
    }
  }

  /** The destination is the file itself exactly when nothing longer was there before. */
  lemma IdenticalIff(content: bytes, file: bytes)
    ensures file <= Overlaid(content, file)
    ensures Overlaid(content, file) == file <==> |content| <= |file|
  {
  }

  /** The pieces of a sequential uplink cover their file. */
  lemma {:induction false} TilesCover(pieces: seq<Piece>, file: bytes, start: nat, chunk: nat)
    requires Tiles(pieces, file, start, chunk)
    ensures AllCutFrom(pieces, file)
    ensures forall i: nat | start <= i < |file| :: Covered(pieces, i)
    decreases |pieces|
  {
    if pieces != [] {
      var p, rest := pieces[0], pieces[1..];
      TilesCover(rest, file, start + |p.data|, chunk);
      forall i: nat | start <= i < |file| ensures Covered(pieces, i) {
        if Covers(p, i) {
          assert Covers(pieces[0], i);
        } else {
          assert Covered(rest, i);
          var k :| 0 <= k < |rest| && Covers(rest[k], i);
          assert Covers(pieces[k + 1], i);
        }
      }
      forall k | 0 <= k < |pieces| ensures CutFrom(pieces[k], file) {
        if k > 0 {
          assert CutFrom(rest[k - 1], file);
        }
      }
    }
  }

  /** What the uplinker cuts from a file read sequentially is enough to restore it. */
  lemma SequentialPlanDelivers(v: FileView, chunk: nat, ids: seq<int>, d: Downlinker, opens: Openings)
    requires v.Fresh() && v.packets.None? && chunk > 0
    requires d.Valid() && d.state == RUNNING && |ids| == |v.Opened().Plan(chunk)|
    ensures Nonnegative(DataPackets(ids, v.Opened().Plan(chunk)))
    ensures Delivered(d, ReceiveAll(d, DataPackets(ids, v.Opened().Plan(chunk)), opens), v.content)
  {
    var plan := v.Opened().Plan(chunk);
    SequentialPlan(v, chunk);
    TilesCover(plan, v.content, 0, chunk);
    PiecesDelivered(d, ids, plan, v.content, opens);
  }
}

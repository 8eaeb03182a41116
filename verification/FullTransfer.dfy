/** A whole transfer: everything a finished sequential uplink has sent, read back by a distributor, a decoder and a
    downlinker, restores the file. */
module FullTransfer {
  import opened Bytes
  import opened Checksum
  import opened FilePackets
  import opened TransmitFiles
  import opened Distribution
  import opened Downlink
  import opened FileTransfer
  import UplinkProtocol

  lemma NonnegativeParts(a: seq<Packet>, b: seq<Packet>)
    ensures Nonnegative(a + b) <==> Nonnegative(a) && Nonnegative(b)
  {
    if Nonnegative(a + b) {
      assert forall i | 0 <= i < |a| :: a[i] == (a + b)[i];
      assert forall i | 0 <= i < |b| :: b[i] == (a + b)[|a| + i];
    }
  }

  /** The outcomes from a place on. */
  function From(opens: Openings, n: nat): Openings {
    (i: nat) => opens(n + i)
  }

  lemma {:induction false} ReceiveInTurn(d: Downlinker, a: seq<Packet>, b: seq<Packet>, opens: Openings)
    requires d.Sane() && Nonnegative(a) && Nonnegative(b)
    ensures Nonnegative(a + b)
    ensures ReceiveAll(d, a + b, opens) == ReceiveAll(ReceiveAll(d, a, opens), b, From(opens, |a|))
    decreases |b|
  {
    NonnegativeParts(a, b);
    if b == [] {
      assert a + b == a;
    } else {
      var front, whole := b[..|b| - 1], a + b;
      NonnegativeShorter(a, b);
      AllButLast(a, b);
      assert From(opens, |a|)(|b| - 1) == opens(|whole| - 1);
      ReceiveInTurn(d, a, front, opens);
      OneMoreInTurn(d, whole, opens, ReceiveAll(d, a, opens), b, From(opens, |a|));
    }
  }

  lemma NonnegativeShorter(a: seq<Packet>, b: seq<Packet>)
    requires Nonnegative(a) && Nonnegative(b) && b != []
    ensures Nonnegative(b[..|b| - 1]) && Nonnegative(a + b[..|b| - 1])
    ensures b[|b| - 1].Data? ==> b[|b| - 1].offset >= 0
  {
    NonnegativeParts(a, b[..|b| - 1]);
  }

  /** The same last packet, with the same outcome, behind the same state. */
  lemma OneMoreInTurn(d: Downlinker, whole: seq<Packet>, opens: Openings, mid: Downlinker, b: seq<Packet>,
                      late: Openings)
    requires d.Sane() && mid.Sane() && whole != [] && b != [] && Nonnegative(whole) && Nonnegative(b)
    requires Nonnegative(whole[..|whole| - 1]) && Nonnegative(b[..|b| - 1])
    requires ReceiveAll(d, whole[..|whole| - 1], opens) == ReceiveAll(mid, b[..|b| - 1], late)
    requires whole[|whole| - 1] == b[|b| - 1] && opens(|whole| - 1) == late(|b| - 1)
    ensures ReceiveAll(d, whole, opens) == ReceiveAll(mid, b, late)
  {
    LastReceived(d, whole, opens);
    LastReceived(mid, b, late);
  }

  lemma AllButLast(a: seq<Packet>, b: seq<Packet>)
    requires b != []
    ensures (a + b)[..|a + b| - 1] == a + b[..|b| - 1] && (a + b)[|a + b| - 1] == b[|b| - 1]
  {
  }

  lemma LastReceived(d: Downlinker, packets: seq<Packet>, opens: Openings)
    requires d.Sane() && packets != [] && Nonnegative(packets)
    ensures var k := |packets| - 1;
      Nonnegative(packets[..k])
      && ReceiveAll(d, packets, opens) == Receive(ReceiveAll(d, packets[..k], opens), packets[k], opens(k))
  {
  }

  lemma ReceiveOne(d: Downlinker, p: Packet, opens: Openings)
    requires d.Sane() && (p.Data? ==> p.offset >= 0)
    ensures Nonnegative([p]) && ReceiveAll(d, [p], opens) == Receive(d, p, opens(0))
  {
    assert [p][..0] == [];
  }

  /** After an open that raised anything but a permission error, nothing that arrives is taken, whatever it is, until
      the timer fires: the next START fails the assertion, and all else finds the downlinker idle. */
  lemma {:induction false} StuckLosesAll(d: Downlinker, packets: seq<Packet>, opens: Openings)
    requires d.Sane() && !d.Valid() && Nonnegative(packets)
    ensures var after := ReceiveAll(d, packets, opens);
      !after.Valid() && after == d.(sequence := after.sequence) && Finished(after).Valid()
    decreases |packets|
  {
    if packets != [] {
      StuckLosesAll(d, packets[..|packets| - 1], opens);
    }
  }

  /** A downlinker that is not running takes no data. */
  lemma {:induction false} DataIgnored(d: Downlinker, ids: seq<int>, pieces: seq<Piece>, opens: Openings)
    requires d.Sane() && d.state != RUNNING && |ids| == |pieces|
    ensures Nonnegative(DataPackets(ids, pieces))
    ensures ReceiveAll(d, DataPackets(ids, pieces), opens) == d.(sequence := d.sequence + |pieces|)
    decreases |pieces|
  {
    if pieces != [] {
      var n := |pieces| - 1;
      DataIgnored(d, ids[..n], pieces[..n], opens);
      assert DataPackets(ids, pieces)[..n] == DataPackets(ids[..n], pieces[..n]);
      assert DataPackets(ids, pieces)[n] == Data(ids[n], pieces[n].offset, pieces[n].data);
    }
  }

  /** Where a START packet directs a transfer. */
  function Destination(d: Downlinker, dest: bytes): bytes {
    Join(d.directory, Sanitize(dest))
  }

  /** What was at a path before. */
  function Before(d: Downlinker, path: bytes): bytes {
    if path in d.disk then d.disk[path] else []
  }

  /** START, then DATA packets that cover a file, in any order and with repetitions, then END. When the downlinker is
      in a valid state and the destination opens, the file stands there, over what a longer old file had, and the
      downlinker is idle again; otherwise the whole transfer leaves no trace on disk. A valid state follows unless the
      one before was not, or the open raised something else than a permission error. */
  lemma TransferReceived(d: Downlinker, start: Packet, ids: seq<int>, pieces: seq<Piece>, end: Packet, file: bytes,
                         opens: Openings)
    requires d.Sane() && start.Start? && end.End? && |ids| == |pieces| && AllCutFrom(pieces, file)
    requires forall i: nat | i < |file| :: Covered(pieces, i)
    ensures Nonnegative([start] + DataPackets(ids, pieces) + [end])
    ensures var after := ReceiveAll(d, [start] + DataPackets(ids, pieces) + [end], opens);
      && (after.Valid() <==> d.Valid() && opens(0) != Refused)
      && if d.Valid() && opens(0) == Opened then Restored(d, after, Destination(d, start.dest), file)
         else after.disk == d.disk && after.files == d.files
  {
    var begun := Receive(d, start, opens(0));
    TransferInParts(d, start, ids, pieces, end, opens);
    if begun.state == RUNNING {
      Restores(d, start.dest, begun, ids, pieces, file, From(opens, 1));
    } else {
      DataIgnored(begun, ids, pieces, From(opens, 1));
    }
  }

  lemma TransferInParts(d: Downlinker, start: Packet, ids: seq<int>, pieces: seq<Piece>, end: Packet, opens: Openings)
    requires d.Sane() && start.Start? && (end.End? || end.Cancel?) && |ids| == |pieces|
    ensures var datas := DataPackets(ids, pieces); var begun := Receive(d, start, opens(0));
      && Nonnegative(datas) && Nonnegative([start] + datas + [end])
      && ReceiveAll(d, [start] + datas + [end], opens)
        == Receive(ReceiveAll(begun, datas, From(opens, 1)), end, opens(1 + |datas|))
  {
    var datas := DataPackets(ids, pieces);
    ReceiveOne(d, start, opens);
    DataPacketsNonnegative(ids, pieces);
    ReceiveInTurn(d, [start], datas, opens);
    var written := ReceiveAll(Receive(d, start, opens(0)), datas, From(opens, 1));
    ReceiveOne(written, end, From(opens, 1 + |datas|));
    ReceiveInTurn(d, [start] + datas, [end], opens);
  }

  /** The file stands at the path, over what was there; nothing else on disk has changed, and nothing is open. */
  predicate Restored(d: Downlinker, after: Downlinker, path: bytes, file: bytes) {
    && after.state == IDLE && after.active.None? && after.sequence == 0
    && after.files == d.files + [path]
    && after.disk == d.disk[path := Overlaid(Before(d, path), file)]
  }

  lemma DataPacketsNonnegative(ids: seq<int>, pieces: seq<Piece>)
    requires |ids| == |pieces|
    ensures Nonnegative(DataPackets(ids, pieces))
  {
  }

  lemma Restores(d: Downlinker, dest: bytes, begun: Downlinker, ids: seq<int>, pieces: seq<Piece>, file: bytes,
                 opens: Openings)
    requires d.Valid() && begun == OnStart(d, dest, Opened)
    requires |ids| == |pieces| && AllCutFrom(pieces, file) && forall i: nat | i < |file| :: Covered(pieces, i)
    ensures Nonnegative(DataPackets(ids, pieces))
    ensures var written := ReceiveAll(begun, DataPackets(ids, pieces), opens);
      written.state == RUNNING && Restored(d, Finished(written), Destination(d, dest), file)
  {
    var path := Destination(d, dest);
    PiecesDelivered(begun, ids, pieces, file, opens);
    DataPacketsWritten(begun, ids, pieces, opens);
    var written := ReceiveAll(begun, DataPackets(ids, pieces), opens);
    DiskUpdated(d.disk, begun.disk, written.disk, path, WriteAll(Before(d, path), pieces));
  }

  /** What the file system allows: a name that never opens as a file does not. */
  predicate Plausible(dest: bytes, opening: Opening) {
    NeverOpens(dest) ==> opening != Opened
  }

  /** Two transfers in a row, to a destination that names a directory and then to any other: when the first open raises
      anything but a permission error, the second transfer is lost with it, although its destination would open. */
  lemma DirectoryLosesNext(d: Downlinker, first: Packet, start: Packet, ids: seq<int>, pieces: seq<Piece>, end: Packet,
                           opens: Openings)
    requires d.Valid() && first.Start? && start.Start? && end.End? && |ids| == |pieces|
    requires NeverOpens(first.dest) && Plausible(first.dest, opens(0)) && opens(0) != Denied
    ensures var packets := [first] + ([start] + DataPackets(ids, pieces) + [end]);
      && Nonnegative(packets)
      && var after := ReceiveAll(d, packets, opens);
        !after.Valid() && after.disk == d.disk && after.files == d.files
  {
    var rest := [start] + DataPackets(ids, pieces) + [end];
    DataPacketsNonnegative(ids, pieces);
    NonnegativeParts([start], DataPackets(ids, pieces));
    NonnegativeParts([start] + DataPackets(ids, pieces), [end]);
    ReceiveOne(d, first, opens);
    ReceiveInTurn(d, [first], rest, opens);
    StuckLosesAll(Receive(d, first, opens(0)), rest, From(opens, 1));
  }

  lemma DiskUpdated(before: map<bytes, bytes>, begun: map<bytes, bytes>, written: map<bytes, bytes>, path: bytes,
                    content: bytes)
    requires begun == before[path := if path in before then before[path] else []] && written == begun[path := content]
    ensures written == before[path := content]
  {
  }

  lemma TranscriptInParts(t: UplinkProtocol.Transfer)
    requires forall p | p in t.Transcript(t.Length()) :: Packable(p)
    ensures var n := |t.plan|; var ids := seq(n, i => i + 1);
      AllDecoded(t.Transcript(t.Length())) ==
        [t.PacketAt(0)] + DataPackets(ids, t.plan) + [End(n + 1, Wrapped(Register(t.plan)))]
  {
    var n := |t.plan|;
    var all := AllDecoded(t.Transcript(t.Length()));
    var parts := [t.PacketAt(0)] + DataPackets(seq(n, i => i + 1), t.plan) + [End(n + 1, Wrapped(Register(t.plan)))];
    forall i | 0 <= i < |all| ensures all[i] == parts[i] {
      assert t.Transcript(t.Length())[i] == t.PacketAt(i);
    }
  }

  lemma TranscriptEncodes(t: UplinkProtocol.Transfer)
    requires t.Encodable()
    ensures forall p | p in t.Transcript(t.Length()) :: Encode(t.cfg, p).Ok? && Packable(p)
  {
    forall p | p in t.Transcript(t.Length()) ensures Encode(t.cfg, p).Ok? && Packable(p) {
      var i :| 0 <= i < t.Length() && t.Transcript(t.Length())[i] == p;
      assert t.Goes(i);
    }
  }

  /** Everything a sequential uplink sends from START to END when all of it encodes, encoded, concatenated, cut into
      reads anyhow, distributed, decoded and received, restores exactly the uplinked file if and only if its destination
      opens. */
  lemma UplinkedFileRestored(cfg: Config, decoders: set<nat>, chunk: nat, file: FileView, chunks: seq<bytes>,
                             d: Downlinker, opens: Openings)
    requires cfg.Valid() && cfg.file in decoders && d.Valid()
    requires file.Fresh() && file.packets.None? && chunk > 0
    requires UplinkProtocol.TransferOf(cfg, chunk, file).Encodable()
    ensures var t := UplinkProtocol.TransferOf(cfg, chunk, file);
      forall p | p in t.Transcript(t.Length()) :: Encode(cfg, p).Ok?
    ensures var t := UplinkProtocol.TransferOf(cfg, chunk, file);
      Concat(chunks) == PacketStream(cfg, t.Transcript(t.Length())) ==>
        var packets := Decoded(cfg, Received(cfg, decoders, [], chunks));
        && Nonnegative(packets)
        && var after := ReceiveAll(d, packets, opens);
          if opens(0) == Opened then Restored(d, after, Destination(d, file.dest), file.content)
          else after.disk == d.disk && after.files == d.files
  {
    var t := UplinkProtocol.TransferOf(cfg, chunk, file);
    TranscriptEncodes(t);
    if Concat(chunks) == PacketStream(cfg, t.Transcript(t.Length())) {
      StreamDecodes(cfg, decoders, t.Transcript(t.Length()), chunks);
      TranscriptInParts(t);
      SequentialPlan(file, chunk);
      TilesCover(t.plan, file.content, 0, chunk);
      TransferReceived(d, t.PacketAt(0), seq(|t.plan|, i => i + 1), t.plan,
        End(|t.plan| + 1, Wrapped(Register(t.plan))), file.content, opens);
    }
  }
}

/** What any run of a downlinker leaves behind, said of the packets alone; END and CANCEL packets among them. */
module DownlinkRuns {
  import opened Bytes
  import opened Checksum
  import opened FilePackets
  import opened Downlink
  import opened FileTransfer
  import opened FullTransfer

  /** END finishes whatever is in progress, a transfer whose destination did not open too; CANCEL only a running one.
      Otherwise they change nothing; neither touches the disk. */
  lemma ClosingPackets(d: Downlinker, p: Packet, opening: Opening)
    requires d.Sane() && (p.End? || p.Cancel?)
    ensures d.state == IDLE || (p.Cancel? && d.state == ERROR) ==> Receive(d, p, opening) == d
    ensures d.state == RUNNING || (p.End? && d.state == ERROR) ==>
      var after := Receive(d, p, opening);
      after.state == IDLE && after.active.None? && after == d.(state := IDLE, active := None, sequence := 0)
  {
  }

  /** START, DATA packets, CANCEL: a destination that opened keeps exactly what was written before the CANCEL, and
      nothing is open any more. A transfer whose destination was denied leaves nothing, and the CANCEL does not end
      it. */
  lemma CancelStops(d: Downlinker, start: Packet, ids: seq<int>, pieces: seq<Piece>, cancel: Packet, opens: Openings)
    requires d.Valid() && start.Start? && cancel.Cancel? && |ids| == |pieces|
    ensures Nonnegative([start] + DataPackets(ids, pieces) + [cancel])
    ensures var path := Destination(d, start.dest);
      var after := ReceiveAll(d, [start] + DataPackets(ids, pieces) + [cancel], opens);
      && (opens(0) == Opened ==> after == Downlinker(d.directory, IDLE, None, 0, d.files + [path],
                                                    d.disk[path := WriteAll(Before(d, path), pieces)]))
      && (opens(0) == Denied ==> after.state == ERROR && after.disk == d.disk && after.files == d.files)
  {
    var begun := Receive(d, start, opens(0));
    TransferInParts(d, start, ids, pieces, cancel, opens);
    if begun.state == RUNNING {
      DataPacketsWritten(begun, ids, pieces, From(opens, 1));
      DiskUpdated(d.disk, begun.disk, ReceiveAll(begun, DataPackets(ids, pieces), From(opens, 1)).disk,
                  Destination(d, start.dest), WriteAll(Before(d, Destination(d, start.dest)), pieces));
    } else {
      DataIgnored(begun, ids, pieces, From(opens, 1));
    }
  }

  /** DATA that comes after the CANCEL changes nothing but the count. */
  lemma LateDataDropped(d: Downlinker, start: Packet, ids: seq<int>, pieces: seq<Piece>, cancel: Packet,
                        lateIds: seq<int>, late: seq<Piece>, opens: Openings)
    requires d.Valid() && start.Start? && cancel.Cancel? && |ids| == |pieces| && |lateIds| == |late|
    requires opens(0) != Refused
    ensures Nonnegative([start] + DataPackets(ids, pieces) + [cancel])
    ensures Nonnegative([start] + DataPackets(ids, pieces) + [cancel] + DataPackets(lateIds, late))
    ensures var whole := [start] + DataPackets(ids, pieces) + [cancel];
      var canceled := ReceiveAll(d, whole, opens);
      ReceiveAll(d, whole + DataPackets(lateIds, late), opens)
        == canceled.(sequence := canceled.sequence + |late|)
  {
    var whole := [start] + DataPackets(ids, pieces) + [cancel];
    CancelStops(d, start, ids, pieces, cancel, opens);
    DataPacketsNonnegative(lateIds, late);
    ReceiveInTurn(d, whole, DataPackets(lateIds, late), opens);
    DataIgnored(ReceiveAll(d, whole, opens), lateIds, late, From(opens, |whole|));
  }

  // ---------------------------------------------------------------- any run

  /** The destination the packets leave open: that of the last packet that is no DATA, if it is a START that opened. */
  function Writing(directory: bytes, packets: seq<Packet>, opens: Openings): Option<bytes> {
    if packets == [] then None
    else
      var k := |packets| - 1;
      match packets[k]
      case Data(_, _, _) => Writing(directory, packets[..k], opens)
      case Start(_, _, _, dest) => if opens(k) == Opened then Some(Join(directory, Sanitize(dest))) else None
      case _ => None
  }

  /** The pieces that came while this path was open. */
  function PiecesFor(directory: bytes, packets: seq<Packet>, opens: Openings, path: bytes): seq<Piece>
    requires Nonnegative(packets)
  {
    if packets == [] then []
    else
      var k := |packets| - 1;
      var front := PiecesFor(directory, packets[..k], opens, path);
      if packets[k].Data? && Writing(directory, packets[..k], opens) == Some(path)
      then front + [Piece(packets[k].offset, packets[k].data)] else front
  }

  /** The paths of the STARTs that opened, in order. */
  function OpenedPaths(directory: bytes, packets: seq<Packet>, opens: Openings): seq<bytes> {
    if packets == [] then []
    else
      var k := |packets| - 1;
      var front := OpenedPaths(directory, packets[..k], opens);
      if packets[k].Start? && opens(k) == Opened then front + [Join(directory, Sanitize(packets[k].dest))] else front
  }

  /** State and disk are those the packets call for. */
  ghost predicate RunAs(d: Downlinker, after: Downlinker, packets: seq<Packet>, opens: Openings)
    requires Nonnegative(packets)
  {
    var writing := Writing(d.directory, packets, opens);
    && after.Valid()
    && (after.state == RUNNING <==> writing.Some?)
    && (writing.Some? ==> after.active == writing)
    && after.files == d.files + OpenedPaths(d.directory, packets, opens)
    && (forall path :: path in after.disk <==> path in d.disk || path in OpenedPaths(d.directory, packets, opens))
    && (forall path ::
          Before(after, path) == WriteAll(Before(d, path), PiecesFor(d.directory, packets, opens, path)))
  }

  /** From idle, whatever packets come: as long as no destination is refused, the downlinker is running exactly when the
      last packet that is no DATA is a START that opened, and every file holds what was there before with exactly those
      pieces written over it that came while it was open. */
  lemma {:induction false} RunLeaves(d: Downlinker, packets: seq<Packet>, opens: Openings)
    requires d.Valid() && d.state == IDLE && Nonnegative(packets)
    requires forall i | 0 <= i < |packets| && packets[i].Start? :: opens(i) != Refused
    ensures RunAs(d, ReceiveAll(d, packets, opens), packets, opens)
    decreases |packets|
  {
    if packets == [] {
      assert d.files + [] == d.files;
    } else {
      var k := |packets| - 1;
      RunLeaves(d, packets[..k], opens);
      LastReceived(d, packets, opens);
      OneMorePacket(d, ReceiveAll(d, packets[..k], opens), packets, opens);
    }
  }

  lemma OneMorePacket(d: Downlinker, before: Downlinker, packets: seq<Packet>, opens: Openings)
    requires packets != [] && Nonnegative(packets) && before.directory == d.directory
    requires packets[|packets| - 1].Start? ==> opens(|packets| - 1) != Refused
    requires RunAs(d, before, packets[..|packets| - 1], opens)
    ensures RunAs(d, Receive(before, packets[|packets| - 1], opens(|packets| - 1)), packets, opens)
  {
    var k := |packets| - 1;
    var p := packets[k];
    var after := Receive(before, p, opens(k));
    if p.Data? && before.state == RUNNING {
      OneMorePiece(d, before, packets, opens);
    } else {
      forall path
        ensures PiecesFor(d.directory, packets, opens, path) == PiecesFor(d.directory, packets[..k], opens, path)
        ensures Before(after, path) == Before(before, path)
      {
      }
    }
  }

  lemma OneMorePiece(d: Downlinker, before: Downlinker, packets: seq<Packet>, opens: Openings)
    requires packets != [] && Nonnegative(packets) && before.directory == d.directory
    requires packets[|packets| - 1].Data? && before.state == RUNNING
    requires RunAs(d, before, packets[..|packets| - 1], opens)
    ensures RunAs(d, Receive(before, packets[|packets| - 1], opens(|packets| - 1)), packets, opens)
  {
    var k := |packets| - 1;
    var piece := Piece(packets[k].offset, packets[k].data);
    var after := Receive(before, packets[k], opens(k));
    forall path ensures Before(after, path) == WriteAll(Before(d, path), PiecesFor(d.directory, packets, opens, path)) {
      var was := PiecesFor(d.directory, packets[..k], opens, path);
      if before.active == Some(path) {
        assert (was + [piece])[..|was + [piece]| - 1] == was;
      }
    }
  }
}

/** `TransmitFile`: a file on its way up, read chunk by chunk, or only in the requested packets. */
module TransmitFiles {
  import opened Bytes
  import opened Checksum
  import opened FilePackets
  import opened Sorting

  datatype Status = QUEUED | TRANSMITTING | FINISHED | CANCELED | TIMEOUT

  /** The state of a transmit file, as a value. `fd` is the position of the open file; `transmit` what is left of the
      requested packets; `onDisk` whether the source file still exists. */
  datatype FileView = FileView(source: bytes, dest: bytes, size: nat, content: bytes, packets: Option<seq<int>>,
                               onDisk: bool, fd: Option<nat>, seek: nat, transmit: seq<int>, state: Status,
                               checksum: u32)
  {
    /** As constructed, and not yet started. */
    predicate Fresh() {
      onDisk && fd.None? && checksum == 0 && transmit == packets.GetOr([])
    }

    function Opened(): FileView {
      this.(fd := Some(0), state := TRANSMITTING)
    }

    /** What is still to be read. */
    function Remaining(): nat
      requires fd.Some?
    {
      if packets.Some? then |transmit| else if fd.value < |content| then |content| - fd.value else 0
    }

    /** `read`: the view afterwards and the data. Sequential mode reads on; packet mode takes the next requested packet
        (1-based), and any failure on the way (list exhausted, negative position) reads as nothing. */
    function Read(chunk: nat): (r: (FileView, bytes))
      requires fd.Some?
      ensures r.0.fd.Some? && r.0.packets == packets &&
        r.0 == this.(fd := r.0.fd, seek := r.0.seek, transmit := r.0.transmit)
      ensures r.1 != [] ==> r.0.Remaining() < Remaining()
    {
      if packets.None? then
        var data := Slice(content, fd.value, fd.value + chunk);
        (this.(seek := fd.value, fd := Some(fd.value + |data|)), data)
      else if transmit == [] then (this.(seek := fd.value), [])
      else
        var seekTo := (transmit[0] - 1) * chunk;
        if seekTo < 0 then (this.(seek := fd.value, transmit := transmit[1..]), [])
        else
          var data := Slice(content, seekTo, seekTo + chunk);
          (this.(seek := seekTo, fd := Some(seekTo + |data|), transmit := transmit[1..]), data)
    }

    /** The pieces successive reads return, up to the first empty one. */
    function Plan(chunk: nat): (plan: seq<Piece>)
      requires fd.Some?
      decreases Remaining()
    {
      var r := Read(chunk);
      if r.1 == [] then [] else [Piece(r.0.seek, r.1)] + r.0.Plan(chunk)
    }
  }

  class TransmitFile {
    const source: bytes
    const dest: bytes
    const size: nat
    const content: bytes
    const packets: Option<seq<int>>
    const checksum: CFDPChecksum
    var onDisk: bool
    var fd: Option<nat>
    var seek: nat
    var transmitPackets: seq<int>
    var state: Status

    function View(): FileView
      reads this, checksum
    {
      FileView(source, dest, size, content, packets, onDisk, fd, seek, transmitPackets, state, checksum.value)
    }

    constructor (source: bytes, dest: bytes, content: bytes, packets: Option<seq<int>>)
      ensures fresh(checksum)
      ensures View() == FileView(source, dest, |content|, content,
                                 if packets.Some? then Some(SortedSet(packets.value)) else None,
                                 true, None, 0, if packets.Some? then SortedSet(packets.value) else [], QUEUED, 0)
      ensures View().Fresh()
    {
      this.source, this.dest, this.size, this.content := source, dest, |content|, content;
      this.packets := if packets.Some? then Some(SortedSet(packets.value)) else None;
      this.transmitPackets := if packets.Some? then SortedSet(packets.value) else [];
      this.checksum := new CFDPChecksum();
      this.onDisk, this.fd, this.seek, this.state := true, None, 0, QUEUED;
    }

    /** `open` in READ mode */
    method Open() returns (error: Option<Error>)
      modifies this
      ensures old(fd).Some? ==> error == Some(AssertionError) && View() == old(View())
      ensures old(fd).None? && !old(onDisk) ==>
        error == Some(FileMissing) && View() == old(View()).(state := TRANSMITTING)
      ensures old(fd).None? && old(onDisk) ==> error == None && View() == old(View()).Opened()
    {
      if fd.Some? {
        return Some(AssertionError);
      }
      state := TRANSMITTING;
      if !onDisk {
        return Some(FileMissing);
      }
      fd := Some(0);
      return None;
    }

    /** `read` */
    method Read(chunk: nat) returns (data: bytes, error: Option<Error>)
      modifies this
      ensures old(fd).None? ==> error == Some(AssertionError) && View() == old(View()) && data == []
      ensures old(fd).Some? ==> error == None && (View(), data) == old(View()).Read(chunk)
    {
      if fd.None? {
        return [], Some(AssertionError);
      }
      error := None;
      seek := fd.value;
      if packets.None? {
        data := Slice(content, fd.value, fd.value + chunk);
        fd := Some(fd.value + |data|);
      } else {
        if transmitPackets == [] {
          return [], None;
        }
        var currentPacket := transmitPackets[0] - 1;
        transmitPackets := transmitPackets[1..];
        var seekTo := currentPacket * chunk;
        if seekTo < 0 {
          return [], None;
        }
        data := Slice(content, seekTo, seekTo + chunk);
        fd := Some(seekTo + |data|);
        seek := seekTo;
      }
    }

    /** `close` */
    method Close()
      modifies this`fd
      ensures View() == old(View()).(fd := None)
    {
      fd := None;
    }
  }

  // ---------------------------------------------------------------- sequential plans tile the file

  /** The pieces lie end to end from `start`, each non-empty and at most a chunk, only the last one shorter. */
  predicate Tiles(pieces: seq<Piece>, file: bytes, start: nat, chunk: nat)
    decreases |pieces|
  {
    if pieces == [] then start >= |file|
    else
      var p := pieces[0];
      && p.offset == start && CutFrom(p, file) && 0 < |p.data| <= chunk
      && (|p.data| < chunk ==> start + |p.data| == |file|)
      && Tiles(pieces[1..], file, start + |p.data|, chunk)
  }

  lemma {:induction false} SequentialTiles(v: FileView, chunk: nat)
    requires v.fd.Some? && v.packets.None? && chunk > 0
    ensures Tiles(v.Plan(chunk), v.content, v.fd.value, chunk)
    decreases v.Remaining()
  {
    var r := v.Read(chunk);
    if r.1 != [] {
      SequentialTiles(r.0, chunk);
      assert v.Plan(chunk)[1..] == r.0.Plan(chunk);
    }
  }

  lemma {:induction false} TilesTotal(pieces: seq<Piece>, file: bytes, start: nat, chunk: nat, before: seq<Piece>)
    requires Tiles(pieces, file, start, chunk) && start <= |file|
    requires Total(before) == Weighted(file[..start], 0)
    ensures Total(before + pieces) == Weighted(file, 0)
    decreases |pieces|
  {
    if pieces == [] {
      assert before + pieces == before && file[..start] == file;
    } else {
      OneMoreTile(pieces[0], file, start, before);
      TilesTotal(pieces[1..], file, start + |pieces[0].data|, chunk, before + [pieces[0]]);
      MoveOver(before, pieces);
    }
  }

  lemma MoveOver(before: seq<Piece>, pieces: seq<Piece>)
    requires pieces != []
    ensures before + [pieces[0]] + pieces[1..] == before + pieces
  {
  }

  lemma OneMoreTile(p: Piece, file: bytes, start: nat, before: seq<Piece>)
    requires p.offset == start && CutFrom(p, file) && Total(before) == Weighted(file[..start], 0)
    ensures Total(before + [p]) == Weighted(file[..start + |p.data|], 0)
  {
    assert (before + [p])[..|before|] == before;
    assert file[..start + |p.data|] == file[..start] + p.data;
    WeightedSplit(file[..start], p.data, 0);
  }

  lemma {:induction false} TilesCount(pieces: seq<Piece>, file: bytes, start: nat, chunk: nat)
    requires Tiles(pieces, file, start, chunk) && start <= |file| && chunk > 0
    ensures |pieces| == (|file| - start + chunk - 1) / chunk
    decreases |pieces|
  {
    if pieces == [] {
      DivSmall(chunk - 1, chunk);
    } else {
      TilesCount(pieces[1..], file, start + |pieces[0].data|, chunk);
      TileCount(|file| - start, |pieces[0].data|, chunk, |pieces| - 1);
    }
  }

  lemma TileCount(left: nat, taken: nat, chunk: nat, more: nat)
    requires 0 < taken <= chunk && taken <= left && (taken < chunk ==> taken == left)
    requires more == (left - taken + chunk - 1) / chunk
    ensures more + 1 == (left + chunk - 1) / chunk
  {
    if taken == chunk {
      assert (left - chunk + chunk - 1) / chunk == (left - 1) / chunk;
      DivStep(left - 1, chunk);
    } else {
      DivSmall(chunk - 1, chunk);
      DivStep(left - 1, chunk);
      DivSmall(left - 1, chunk);
    }
  }

  lemma DivSmall(a: nat, c: nat)
    requires a < c
    ensures a / c == 0
  {
  }

  lemma DivStep(a: nat, c: nat)
    requires c > 0
    ensures (a + c) / c == a / c + 1
  {
    var q, r := a / c, a % c;
    assert a + c == (q + 1) * c + r;
    DivUnique(a + c, c, q + 1, r);
  }

  lemma DivUnique(a: nat, c: nat, q: nat, r: nat)
    requires c > 0 && r < c && a == q * c + r
    ensures a / c == q
  {
    var d := a / c - q;
    assert a == (a / c) * c + a % c;
    assert d * c == r - a % c;
    MultipleIsLarge(d, c);
  }

  lemma MultipleIsLarge(d: int, c: nat)
    ensures d == 0 || d * c >= c || d * c + c <= 0
  {
    if d > 0 {
      assert (d - 1) * c >= 0;
    } else if d < 0 {
      assert (-d - 1) * c >= 0;
    }
  }

  /** A file read sequentially is cut into ceil(size / chunk) contiguous pieces, and their checksum is the file's. */
  lemma SequentialPlan(v: FileView, chunk: nat)
    requires v.Fresh() && v.packets.None? && chunk > 0
    ensures var plan := v.Opened().Plan(chunk);
      && Tiles(plan, v.content, 0, chunk)
      && |plan| == (|v.content| + chunk - 1) / chunk
      && Register(plan) == FileChecksum(v.content)
  {
    SequentialTiles(v.Opened(), chunk);
    TilesOfFile(v.Opened().Plan(chunk), v.content, chunk);
  }

  /** Tiles of a whole file: how many there are, and their checksum. */
  lemma TilesOfFile(plan: seq<Piece>, file: bytes, chunk: nat)
    requires Tiles(plan, file, 0, chunk) && chunk > 0
    ensures |plan| == (|file| + chunk - 1) / chunk && Register(plan) == FileChecksum(file)
  {
    assert file[..0] == [] && [] + plan == plan;
    TilesTotal(plan, file, 0, chunk, []);
    TilesCount(plan, file, 0, chunk);
    RegisterIsTotal(plan);
  }

  // ---------------------------------------------------------------- packet-list plans

  /** Requested packet p holds part of the file. */
  predicate Holds(p: int, size: nat, chunk: nat) {
    1 <= p && (p - 1) * chunk < size
  }

  /** The piece of the file that packet p stands for. */
  function PieceOf(p: int, file: bytes, chunk: nat): Piece
    requires 1 <= p
  {
    Piece((p - 1) * chunk, Slice(file, (p - 1) * chunk, (p - 1) * chunk + chunk))
  }

  /** The pieces of the leading packets that hold part of the file. */
  function LeadingPieces(packets: seq<int>, file: bytes, chunk: nat): seq<Piece> {
    if packets == [] || !Holds(packets[0], |file|, chunk) then []
    else [PieceOf(packets[0], file, chunk)] + LeadingPieces(packets[1..], file, chunk)
  }

  lemma {:induction false} PacketPlanIsLeading(v: FileView, chunk: nat)
    requires v.fd.Some? && v.packets.Some? && chunk > 0
    ensures v.Plan(chunk) == LeadingPieces(v.transmit, v.content, chunk)
    decreases |v.transmit|
  {
    if v.transmit != [] {
      var p := v.transmit[0];
      if p < 1 {
        assert (p - 1) * chunk < 0;
      }
      if v.Read(chunk).1 != [] {
        PacketPlanIsLeading(v.Read(chunk).0, chunk);
      }
    }
  }

  /** The requested packets that hold part of the file, in order. */
  function Holding(packets: seq<int>, size: nat, chunk: nat): seq<int> {
    if packets == [] then []
    else (if Holds(packets[0], size, chunk) then [packets[0]] else []) + Holding(packets[1..], size, chunk)
  }

  predicate AllFrom(low: int, s: seq<int>) {
    forall i | 0 <= i < |s| :: low <= s[i]
  }

  function PiecesOf(packets: seq<int>, file: bytes, chunk: nat): seq<Piece>
    requires AllFrom(1, packets)
  {
    if packets == [] then [] else [PieceOf(packets[0], file, chunk)] + PiecesOf(packets[1..], file, chunk)
  }

  lemma {:induction false} HoldingMembers(packets: seq<int>, size: nat, chunk: nat)
    ensures forall p :: p in Holding(packets, size, chunk) <==> p in packets && Holds(p, size, chunk)
    ensures forall low | AllFrom(low, packets) :: AllFrom(low, Holding(packets, size, chunk))
    ensures AllFrom(1, Holding(packets, size, chunk))
  {
    if packets != [] {
      HoldingMembers(packets[1..], size, chunk);
      assert forall low | AllFrom(low, packets) :: AllFrom(low, packets[1..]);
      assert forall p :: p in packets <==> p == packets[0] || p in packets[1..];
    }
  }

  lemma {:induction false} PastEnd(packets: seq<int>, p: int, size: nat, chunk: nat)
    requires 1 <= p && (p - 1) * chunk >= size
    requires AllFrom(p, packets)
    ensures Holding(packets, size, chunk) == []
  {
    if packets != [] {
      var q := packets[0];
      Monotone(p - 1, q - 1, chunk);
      PastEnd(packets[1..], p, size, chunk);
    }
  }

  lemma Monotone(a: nat, b: nat, c: nat)
    requires a <= b
    ensures a * c <= b * c
  {
    assert (b - a) * c >= 0;
  }

  lemma {:induction false} LeadingIsAll(packets: seq<int>, file: bytes, chunk: nat)
    requires Ascending(packets) && AllFrom(1, packets)
    ensures AllFrom(1, Holding(packets, |file|, chunk))
    ensures LeadingPieces(packets, file, chunk) == PiecesOf(Holding(packets, |file|, chunk), file, chunk)
  {
    HoldingMembers(packets, |file|, chunk);
    if packets != [] {
      LeadingIsAll(packets[1..], file, chunk);
      if Holds(packets[0], |file|, chunk) {
        assert Holding(packets, |file|, chunk)[1..] == Holding(packets[1..], |file|, chunk);
      } else {
        PastEnd(packets[1..], packets[0], |file|, chunk);
      }
    }
  }

  lemma {:induction false} HoldingAscending(packets: seq<int>, size: nat, chunk: nat)
    requires Ascending(packets)
    ensures Ascending(Holding(packets, size, chunk))
  {
    if packets != [] {
      HoldingAscending(packets[1..], size, chunk);
      HoldingMembers(packets[1..], size, chunk);
      assert AllFrom(packets[0] + 1, packets[1..]);
    }
  }

  /** With every requested packet at least 1, the pieces sent are exactly those of the requested packets that hold part
      of the file, strictly ascending and without repeats, although reading stops at the first empty packet. A request
      below 1 sorts first and reads as empty, so then nothing is sent at all: completeness holds if and only if no
      request is below 1 or no requested packet holds part of the file. */
  lemma PacketListPlan(v: FileView, requested: seq<int>, chunk: nat)
    requires v.Fresh() && v.packets == Some(SortedSet(requested)) && chunk > 0
    ensures var holding := Holding(SortedSet(requested), |v.content|, chunk);
      && Ascending(holding) && AllFrom(1, holding)
      && (forall p :: p in holding <==> p in requested && Holds(p, |v.content|, chunk))
      && (v.Opened().Plan(chunk) == PiecesOf(holding, v.content, chunk) <==> AllFrom(1, requested) || holding == [])
    ensures !AllFrom(1, requested) ==> v.Opened().Plan(chunk) == []
  {
    var packets := SortedSet(requested);
    SortedSetSorts(requested);
    HoldingMembers(packets, |v.content|, chunk);
    HoldingAscending(packets, |v.content|, chunk);
    PacketPlanIsLeading(v.Opened(), chunk);
    if AllFrom(1, requested) {
      assert forall i | 0 <= i < |packets| :: packets[i] in requested;
      LeadingIsAll(packets, v.content, chunk);
    } else {
      var i :| 0 <= i < |requested| && requested[i] < 1;
      assert requested[i] in packets;
    }
  }
}

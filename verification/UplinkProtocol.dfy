/** Whole runs of one uplink, against a reference protocol: a transcript fixed by the file, advanced one packet by the
    exact echo of the last one sent, cut short by cancel or timeout. */
module UplinkProtocol {
  import opened Bytes
  import opened Checksum
  import opened FilePackets
  import opened TransmitFiles
  import opened Uplink
  import opened SequenceSearch
  import opened Sorting

  datatype Event = Handshake(data: bytes) | CancelRequest | TimerFires

  /** The uplinker's response to an event; a timer that is not pending cannot fire. */
  function Respond(cfg: Config, chunk: nat, u: Uplinker, e: Event): Uplinker {
    match e
    case Handshake(data) => HandshakeStep(cfg, chunk, u, data).after
    case CancelRequest => CancelStep(u)
    case TimerFires => if u.armed then TimeoutStep(u).after else u
  }

  function Run(cfg: Config, chunk: nat, u: Uplinker, events: seq<Event>): Uplinker {
    if events == [] then u else Respond(cfg, chunk, Run(cfg, chunk, u, events[..|events| - 1]), events[|events| - 1])
  }

  // ---------------------------------------------------------------- the reference protocol

  /** One transfer: the file as enqueued, and the pieces its reads will return. */
  datatype Transfer = Transfer(cfg: Config, file: FileView, plan: seq<Piece>)
  {
    /** How many packets the whole transfer takes. */
    function Length(): nat {
      |plan| + 2
    }

    /** START with id 0, the pieces in order with ids 1, 2, ..., then END with the checksum of the pieces. */
    function PacketAt(i: nat): Packet {
      if i == 0 then Start(0, file.size, file.source, file.dest)
      else if i <= |plan| then Data(i, plan[i - 1].offset, plan[i - 1].data)
      else End(i, Word(Register(plan)))
    }

    /** The packet can be encoded: an attempt to send it succeeds. */
    predicate Goes(i: nat) {
      Encode(cfg, PacketAt(i)).Ok?
    }

    function Transcript(k: nat): seq<Packet> {
      seq(k, i requires 0 <= i < k => PacketAt(i))
    }

    /** What goes out of the first k packets: those that can be encoded. */
    function Sent(k: nat): seq<Packet> {
      if k == 0 then [] else if Goes(k - 1) then Sent(k - 1) + [PacketAt(k - 1)] else Sent(k - 1)
    }

    /** The last of the first k packets that goes out; START, if no other. */
    function Last(k: nat): nat {
      if k == 0 then 0 else if k == 1 || Goes(k - 1) then k - 1 else Last(k - 1)
    }

    /** Every packet of the transfer can be encoded. */
    ghost predicate Encodable() {
      forall i: nat | i < Length() :: Goes(i)
    }

    /** The echo that packet i calls for. */
    function EchoOf(i: nat): bytes {
      EchoBytes(cfg, PacketAt(i))
    }
  }

  /** The bytes the uplinker expects back for a packet. */
  function EchoBytes(cfg: Config, p: Packet): bytes {
    if Packable(p) then Expected(cfg, p) else []
  }

  lemma {:induction false} SentLength(t: Transfer, k: nat)
    ensures |t.Sent(k)| <= k
  {
    if k > 0 {
      SentLength(t, k - 1);
    }
  }

  lemma {:induction false} OneMissing(t: Transfer, k: nat, i: nat)
    requires i < k && !t.Goes(i)
    ensures |t.Sent(k)| < k
  {
    if i < k - 1 {
      OneMissing(t, k - 1, i);
    } else {
      SentLength(t, k - 1);
    }
  }

  lemma {:induction false} AllGo(t: Transfer, k: nat)
    requires forall i: nat | i < k :: t.Goes(i)
    ensures t.Sent(k) == t.Transcript(k) && t.Last(k) == if k == 0 then 0 else k - 1
  {
    if k > 0 {
      AllGo(t, k - 1);
      TranscriptGrows(t, k - 1);
    }
  }

  lemma TranscriptGrows(t: Transfer, k: nat)
    ensures t.Transcript(k + 1) == t.Transcript(k) + [t.PacketAt(k)]
  {
  }

  /** All of the first k packets go out if and only if each can be encoded. */
  lemma SentIsTranscript(t: Transfer, k: nat)
    ensures |t.Sent(k)| <= k
    ensures t.Sent(k) == t.Transcript(k) <==> forall i: nat | i < k :: t.Goes(i)
    ensures (forall i: nat | i < k :: t.Goes(i)) ==> t.Last(k) == if k == 0 then 0 else k - 1
  {
    SentLength(t, k);
    if forall i: nat | i < k :: t.Goes(i) {
      AllGo(t, k);
    } else {
      var i: nat :| i < k && !t.Goes(i);
      OneMissing(t, k, i);
      assert |t.Transcript(k)| == k;
    }
  }

  lemma EncodesIff(cfg: Config, p: Packet)
    requires cfg.Valid()
    ensures Encode(cfg, p).Ok? <==> Packable(p)
  {
    if Packable(p) {
      BodySize(p);
    }
  }

  /** END and CANCEL packets go out if and only if their ids fit. */
  lemma IdsDecide(t: Transfer, k: nat)
    requires t.cfg.Valid()
    ensures CancelGoes(t, k) <==> k < 0x1_0000_0000
    ensures k > |t.plan| ==> (t.Goes(k) <==> k < 0x1_0000_0000)
    ensures k >= 0x1_0000_0000 ==> !t.Goes(k)
  {
    EncodesIff(t.cfg, Cancel(k));
    EncodesIff(t.cfg, t.PacketAt(k));
  }

  /** Where a transfer stands. `k` packets have been attempted; a canceled transfer has a CANCEL packet behind them once
      it leaves Sending. */
  datatype Phase =
    | Sending(k: nat, canceled: bool)
    | Waiting(k: nat, canceled: bool)
    | Over(k: nat, outcome: Status)

  /** END has not gone out among the first k packets. */
  predicate NotEnded(t: Transfer, k: nat) {
    k <= |t.plan| + 1 || !t.Goes(|t.plan| + 1)
  }

  predicate Ended(t: Transfer, k: nat) {
    k == t.Length() && t.Goes(|t.plan| + 1)
  }

  predicate CancelGoes(t: Transfer, k: nat) {
    Encode(t.cfg, Cancel(k)).Ok?
  }

  predicate PhaseOk(t: Transfer, ph: Phase) {
    1 <= ph.k
    && match ph
      case Sending(k, _) => NotEnded(t, k)
      case Waiting(k, canceled) => if canceled then NotEnded(t, k) && CancelGoes(t, k) else Ended(t, k)
      case Over(k, FINISHED) => Ended(t, k)
      case Over(k, CANCELED) => NotEnded(t, k) && CancelGoes(t, k)
      case Over(k, outcome) => NotEnded(t, k) && outcome == TIMEOUT
  }

  predicate CancelSent(ph: Phase) {
    (ph.Waiting? && ph.canceled) || (ph.Over? && ph.outcome == CANCELED)
  }

  /** Everything sent by a transfer in this phase. */
  function Log(t: Transfer, ph: Phase): seq<Packet> {
    if CancelSent(ph) then t.Sent(ph.k) + [Cancel(ph.k)] else t.Sent(ph.k)
  }

  /** The echo the phase is waiting for: of the last packet that went out. */
  function Awaited(t: Transfer, ph: Phase): bytes {
    if CancelSent(ph) then EchoBytes(t.cfg, Cancel(ph.k)) else t.EchoOf(t.Last(ph.k))
  }

  /** The awaited echo brings on the next packet, whether or not it can be encoded. */
  function Advance(t: Transfer, ph: Phase, e: Event): Phase {
    match (ph, e)
    case (Sending(k, canceled), Handshake(data)) =>
      if data != Awaited(t, ph) then ph
      else if canceled then (if CancelGoes(t, k) then Waiting(k, true) else Sending(k + 1, true))
      else if k <= |t.plan| || !t.Goes(k) then Sending(k + 1, false)
      else Waiting(k + 1, false)
    case (Sending(k, _), CancelRequest) => Sending(k, true)
    case (Sending(k, _), TimerFires) => Over(k, TIMEOUT)
    case (Waiting(k, canceled), Handshake(data)) =>
      if data != Awaited(t, ph) then ph else Over(k, if canceled then CANCELED else FINISHED)
    case _ => ph
  }

  lemma AdvanceKeepsPhaseOk(t: Transfer, ph: Phase, e: Event)
    requires t.cfg.Valid() && PhaseOk(t, ph)
    ensures PhaseOk(t, Advance(t, ph, e))
  {
    IdsDecide(t, ph.k);
    IdsDecide(t, |t.plan| + 1);
  }

  function Advances(t: Transfer, events: seq<Event>): Phase {
    if events == [] then Sending(1, false)
    else Advance(t, Advances(t, events[..|events| - 1]), events[|events| - 1])
  }

  lemma {:induction false} AdvancesOk(t: Transfer, events: seq<Event>)
    requires t.cfg.Valid()
    ensures PhaseOk(t, Advances(t, events))
    decreases |events|
  {
    if events != [] {
      AdvancesOk(t, events[..|events| - 1]);
      AdvanceKeepsPhaseOk(t, Advances(t, events[..|events| - 1]), events[|events| - 1]);
    }
  }

  // ---------------------------------------------------------------- refinement

  /** The active file while its transfer sends: k packets have been attempted, k - 1 pieces read and summed. */
  predicate FileSending(t: Transfer, chunk: nat, f: FileView, k: nat)
    requires 1 <= k <= |t.plan| + 1
  {
    && f.fd.Some?
    && f.Plan(chunk) == t.plan[k - 1..]
    && f.checksum == Register(t.plan[..k - 1])
  }

  /** The uplinker's state is that of a transfer in this phase, on top of what it had sent and released before. */
  predicate Implements(t: Transfer, chunk: nat, was: Uplinker, u: Uplinker, ph: Phase)
    requires ph.k >= 1
  {
    && u.active.Some?
    && u.sent == was.sent + Log(t, ph)
    && var f := u.active.value;
      match ph
        case Sending(k, canceled) =>
          && u.state == (if canceled then CANCELED_STATE else RUNNING)
          && f.state == (if canceled then CANCELED else TRANSMITTING)
          && u.sequence == k && u.armed && u.releases == was.releases
          && u.expected == Some(Awaited(t, ph))
          && f.onDisk && f.fd.Some?
          && (!canceled && k <= |t.plan| + 1 ==> FileSending(t, chunk, f, k))
        case Waiting(k, canceled) =>
          && u.state == END_WAIT && (if canceled then f.state == CANCELED else f.state == TRANSMITTING)
          && u.sequence == 0 && u.armed && u.releases == was.releases
          && u.expected == Some(Awaited(t, ph))
          && !f.onDisk && f.fd.None?
        case Over(k, outcome) =>
          && u.state == IDLE && f.state == outcome
          && u.sequence == 0 && !u.armed && u.releases == was.releases + 1
          && u.expected == (if outcome == TIMEOUT then None else Some(Awaited(t, ph)))
          && !f.onDisk && f.fd.None?
  }

  function TransferOf(cfg: Config, chunk: nat, file: FileView): Transfer {
    Transfer(cfg, file, file.Opened().Plan(chunk))
  }

  /** A start from idle fails exactly when its START packet cannot be encoded, and has then sent nothing; otherwise the
      transfer is under way. */
  lemma StartImplements(cfg: Config, chunk: nat, was: Uplinker, file: FileView)
    requires cfg.Valid() && was.state == IDLE && was.sequence == 0 && file.Fresh()
    ensures var t := TransferOf(cfg, chunk, file); var s := StartStep(cfg, was, file);
      && (s.error.None? <==> t.Goes(0))
      && if t.Goes(0) then Implements(t, chunk, was, s.after, Sending(1, false))
         else s.error == Some(StructError) && s.after.sent == was.sent
  {
    var t := TransferOf(cfg, chunk, file);
    if t.Goes(0) {
      ExpectedIsTail(cfg, t.PacketAt(0));
      EncodesIff(cfg, t.PacketAt(0));
      assert t.Sent(0) == [] && t.Sent(1) == [t.PacketAt(0)];
      assert t.plan[0..] == t.plan && t.plan[..0] == [];
    }
  }

  /** What the file and the transcript offer next. */
  lemma NextPiece(t: Transfer, chunk: nat, f: FileView, k: nat)
    requires 1 <= k <= |t.plan| + 1 && FileSending(t, chunk, f, k)
    ensures var r := f.Read(chunk);
      && r.0.onDisk == f.onDisk && r.0.state == f.state
      && if k <= |t.plan| then
        && r.1 != []
        && t.PacketAt(k) == Data(k, r.0.seek, r.1)
        && FileSending(t, chunk, Summed(r.0, r.1), k + 1)
      else r.1 == [] && t.PacketAt(k) == End(k, Word(r.0.checksum))
  {
    if k <= |t.plan| {
      NextData(t, chunk, f, k);
    } else {
      assert t.plan[k - 1..] == [] && t.plan[..k - 1] == t.plan;
    }
  }

  lemma NextData(t: Transfer, chunk: nat, f: FileView, k: nat)
    requires 1 <= k <= |t.plan| && FileSending(t, chunk, f, k)
    ensures var r := f.Read(chunk);
      && r.1 != [] && t.plan[k - 1] == Piece(r.0.seek, r.1)
      && FileSending(t, chunk, Summed(r.0, r.1), k + 1)
  {
    var r := f.Read(chunk);
    PlanIgnoresChecksum(r.0, chunk, Summed(r.0, r.1).checksum);
    Unrolled(t.plan, k, Piece(r.0.seek, r.1), r.0.Plan(chunk), f.Plan(chunk));
  }

  lemma Unrolled(plan: seq<Piece>, k: nat, first: Piece, rest: seq<Piece>, whole: seq<Piece>)
    requires 1 <= k <= |plan| && whole == plan[k - 1..] && (whole == [] || whole == [first] + rest)
    ensures whole != [] && plan[k - 1] == first && rest == plan[k..]
    ensures plan[..k] == plan[..k - 1] + [first]
    ensures Register(plan[..k]) == (Register(plan[..k - 1]) as int + Weighted(first.data, first.offset)) % MODULUS
  {
    assert plan[..k] == plan[..k - 1] + [plan[k - 1]];
    assert plan[..k][..k - 1] == plan[..k - 1];
    assert plan[k - 1..] == [plan[k - 1]] + plan[k..];
  }

  lemma ReadIgnoresChecksum(f: FileView, chunk: nat, c: u32)
    requires f.fd.Some?
    ensures f.(checksum := c).Read(chunk) == (f.Read(chunk).0.(checksum := c), f.Read(chunk).1)
  {
    var g := f.(checksum := c);
    assert g.content == f.content && g.packets == f.packets && g.transmit == f.transmit && g.fd == f.fd;
    if f.packets.Some? && f.transmit != [] {
      var seekTo := (f.transmit[0] - 1) * chunk;
      assert g.Read(chunk).1 == f.Read(chunk).1;
    }
  }

  lemma {:induction false} PlanIgnoresChecksum(f: FileView, chunk: nat, c: u32)
    requires f.fd.Some?
    ensures f.(checksum := c).Plan(chunk) == f.Plan(chunk)
    decreases f.Remaining()
  {
    ReadIgnoresChecksum(f, chunk, c);
    if f.Read(chunk).1 != [] {
      PlanIgnoresChecksum(f.Read(chunk).0, chunk, c);
    }
  }

  /** An attempt to send: it goes out, or it only uses up its number. */
  lemma Attempted(t: Transfer, u: Uplinker, p: Packet)
    requires t.cfg.Valid()
    ensures SendNext(t.cfg, u, p).error.None? <==> Encode(t.cfg, p).Ok?
    ensures SendNext(t.cfg, u, p).after ==
      if Encode(t.cfg, p).Ok?
      then u.(sequence := u.sequence + 1, sent := u.sent + [p], armed := true, expected := Some(EchoBytes(t.cfg, p)))
      else u.(sequence := u.sequence + 1)
  {
    if Encode(t.cfg, p).Ok? {
      ExpectedIsTail(t.cfg, p);
    }
  }

  lemma LogGrows(t: Transfer, was: seq<Packet>, k: nat)
    ensures t.Goes(k) ==> was + t.Sent(k) + [t.PacketAt(k)] == was + t.Sent(k + 1) && (k > 0 ==> t.Last(k + 1) == k)
    ensures !t.Goes(k) ==> t.Sent(k + 1) == t.Sent(k) && (k > 0 ==> t.Last(k + 1) == t.Last(k))
    ensures was + t.Sent(k) + [Cancel(k)] == was + (t.Sent(k) + [Cancel(k)])
  {
  }

  /** The next packet after the awaited echo. */
  lemma NextPacket(t: Transfer, chunk: nat, was: Uplinker, u: Uplinker, k: nat)
    requires t.cfg.Valid() && 1 <= k && PhaseOk(t, Sending(k, false))
    requires Implements(t, chunk, was, u, Sending(k, false))
    ensures var e := Handshake(Awaited(t, Sending(k, false)));
      Implements(t, chunk, was, HandshakeStep(t.cfg, chunk, u, e.data).after, Advance(t, Sending(k, false), e))
  {
    var r := u.active.value.Read(chunk);
    RunningReads(t, chunk, u, Awaited(t, Sending(k, false)));
    NextRead(t, chunk, was, u, k, r.0, r.1);
  }

  lemma RunningReads(t: Transfer, chunk: nat, u: Uplinker, data: bytes)
    requires u.state == RUNNING && u.expected == Some(data) && u.active.Some? && u.active.value.fd.Some?
    ensures var r := u.active.value.Read(chunk);
      HandshakeStep(t.cfg, chunk, u, data) == AfterRead(t.cfg, u, r.0, r.1)
  {
  }

  lemma NextRead(t: Transfer, chunk: nat, was: Uplinker, u: Uplinker, k: nat, file: FileView, outgoing: bytes)
    requires t.cfg.Valid() && 1 <= k && NotEnded(t, k) && Attempts(t, was, u, k)
    requires u.active.Some? && var f := u.active.value;
      && f.fd.Some? && f.onDisk && f.state == TRANSMITTING && (file, outgoing) == f.Read(chunk)
      && (k <= |t.plan| + 1 ==> FileSending(t, chunk, f, k))
    ensures Implements(t, chunk, was, AfterRead(t.cfg, u, file, outgoing).after,
                       if k <= |t.plan| || !t.Goes(k) then Sending(k + 1, false) else Waiting(k + 1, false))
  {
    if k > |t.plan| + 1 {
      NothingSent(t, chunk, was, u, k, file, outgoing);
    } else {
      NextPiece(t, chunk, u.active.value, k);
      if k <= |t.plan| {
        DataAttempted(t, chunk, was, u, k, file, outgoing);
      } else {
        EndAttempted(t, chunk, was, u, k, file);
      }
    }
  }

  /** The uplinker is running, with k packets attempted. */
  predicate Attempts(t: Transfer, was: Uplinker, u: Uplinker, k: nat)
    requires 1 <= k
  {
    && u.state == RUNNING && u.sequence == k && u.armed && u.sent == was.sent + t.Sent(k) && u.releases == was.releases
    && u.expected == Some(t.EchoOf(t.Last(k)))
  }

  lemma DataAttempted(t: Transfer, chunk: nat, was: Uplinker, u: Uplinker, k: nat, file: FileView, outgoing: bytes)
    requires t.cfg.Valid() && 1 <= k <= |t.plan| && Attempts(t, was, u, k)
    requires outgoing != [] && t.PacketAt(k) == Data(k, file.seek, outgoing)
    requires file.state == TRANSMITTING && file.onDisk && file.fd.Some?
    requires FileSending(t, chunk, Summed(file, outgoing), k + 1)
    ensures Implements(t, chunk, was, AfterRead(t.cfg, u, file, outgoing).after, Sending(k + 1, false))
  {
    Attempted(t, u.(active := Some(Summed(file, outgoing))), t.PacketAt(k));
    LogGrows(t, was.sent, k);
  }

  lemma EndAttempted(t: Transfer, chunk: nat, was: Uplinker, u: Uplinker, k: nat, file: FileView)
    requires t.cfg.Valid() && k == |t.plan| + 1 && Attempts(t, was, u, k)
    requires t.PacketAt(k) == End(k, Word(file.checksum)) && file.onDisk && file.state == TRANSMITTING && file.fd.Some?
    ensures Implements(t, chunk, was, AfterRead(t.cfg, u, file, []).after,
                       if t.Goes(k) then Waiting(k + 1, false) else Sending(k + 1, false))
  {
    Attempted(t, u.(active := Some(file)), t.PacketAt(k));
    LogGrows(t, was.sent, k);
  }

  /** Past an END whose id does not fit, nothing goes out. */
  lemma NothingSent(t: Transfer, chunk: nat, was: Uplinker, u: Uplinker, k: nat, file: FileView, outgoing: bytes)
    requires t.cfg.Valid() && k > |t.plan| + 1 && NotEnded(t, k) && Attempts(t, was, u, k)
    requires file.onDisk && file.state == TRANSMITTING && file.fd.Some?
    ensures !t.Goes(k)
    ensures Implements(t, chunk, was, AfterRead(t.cfg, u, file, outgoing).after, Sending(k + 1, false))
  {
    IdsDecide(t, |t.plan| + 1);
    IdsDecide(t, k);
    LogGrows(t, was.sent, k);
    if outgoing == [] {
      EncodesIff(t.cfg, End(k, Word(file.checksum)));
      Attempted(t, u.(active := Some(file)), End(k, Word(file.checksum)));
    } else {
      EncodesIff(t.cfg, Data(k, file.seek, outgoing));
      Attempted(t, u.(active := Some(Summed(file, outgoing))), Data(k, file.seek, outgoing));
    }
  }

  lemma CancelPacket(t: Transfer, chunk: nat, was: Uplinker, u: Uplinker, k: nat)
    requires t.cfg.Valid() && 1 <= k && PhaseOk(t, Sending(k, true))
    requires Implements(t, chunk, was, u, Sending(k, true))
    ensures var e := Handshake(Awaited(t, Sending(k, true)));
      Implements(t, chunk, was, HandshakeStep(t.cfg, chunk, u, e.data).after, Advance(t, Sending(k, true), e))
  {
    assert HandshakeStep(t.cfg, chunk, u, Awaited(t, Sending(k, true))) == SendThenFinish(t.cfg, u, Cancel(k));
    CancelAttempted(t, chunk, was, u, k);
  }

  lemma CancelAttempted(t: Transfer, chunk: nat, was: Uplinker, u: Uplinker, k: nat)
    requires t.cfg.Valid() && 1 <= k && Implements(t, chunk, was, u, Sending(k, true))
    ensures Implements(t, chunk, was, SendThenFinish(t.cfg, u, Cancel(k)).after,
                       if CancelGoes(t, k) then Waiting(k, true) else Sending(k + 1, true))
  {
    Attempted(t, u, Cancel(k));
    LogGrows(t, was.sent, k);
    IdsDecide(t, k);
  }

  /** Each response of the uplinker is the protocol's. */
  lemma RespondImplements(t: Transfer, chunk: nat, was: Uplinker, u: Uplinker, ph: Phase, e: Event)
    requires t.cfg.Valid() && PhaseOk(t, ph)
    requires Implements(t, chunk, was, u, ph)
    ensures Advance(t, ph, e).k >= 1 && Implements(t, chunk, was, Respond(t.cfg, chunk, u, e), Advance(t, ph, e))
  {
    match ph
    case Sending(_, _) =>
      if e == Handshake(Awaited(t, ph)) {
        NextAttempt(t, chunk, was, u, ph);
      } else if e.Handshake? {
        OtherEchoIgnored(t, chunk, was, u, ph, e.data);
      } else {
        Interrupted(t, chunk, was, u, ph, e);
      }
    case Waiting(_, _) => WaitingResponds(t, chunk, was, u, ph, e);
    case Over(_, _) => OverIgnores(t, chunk, was, u, ph, e);
  }

  lemma NextAttempt(t: Transfer, chunk: nat, was: Uplinker, u: Uplinker, ph: Phase)
    requires t.cfg.Valid() && PhaseOk(t, ph) && ph.Sending?
    requires Implements(t, chunk, was, u, ph)
    ensures var e := Handshake(Awaited(t, ph));
      Advance(t, ph, e).k >= 1 && Implements(t, chunk, was, Respond(t.cfg, chunk, u, e), Advance(t, ph, e))
  {
    if ph.canceled {
      CancelPacket(t, chunk, was, u, ph.k);
    } else {
      NextPacket(t, chunk, was, u, ph.k);
    }
  }

  lemma OtherEchoIgnored(t: Transfer, chunk: nat, was: Uplinker, u: Uplinker, ph: Phase, data: bytes)
    requires ph.k >= 1 && ph.Sending? && data != Awaited(t, ph)
    requires Implements(t, chunk, was, u, ph)
    ensures Respond(t.cfg, chunk, u, Handshake(data)) == u && Advance(t, ph, Handshake(data)) == ph
  {
  }

  /** A finished uplinker does nothing more: even an echo it still expects meets a closed file. */
  lemma OverIgnores(t: Transfer, chunk: nat, was: Uplinker, u: Uplinker, ph: Phase, e: Event)
    requires ph.k >= 1 && ph.Over?
    requires Implements(t, chunk, was, u, ph)
    ensures Respond(t.cfg, chunk, u, e) == u && Advance(t, ph, e) == ph
  {
  }

  /** Cancel request or timeout while sending. */
  lemma Interrupted(t: Transfer, chunk: nat, was: Uplinker, u: Uplinker, ph: Phase, e: Event)
    requires ph.k >= 1 && ph.Sending? && !e.Handshake?
    requires Implements(t, chunk, was, u, ph)
    ensures Implements(t, chunk, was, Respond(t.cfg, chunk, u, e), Advance(t, ph, e))
  {
  }

  lemma WaitingResponds(t: Transfer, chunk: nat, was: Uplinker, u: Uplinker, ph: Phase, e: Event)
    requires ph.k >= 1 && ph.Waiting?
    requires Implements(t, chunk, was, u, ph)
    ensures Implements(t, chunk, was, Respond(t.cfg, chunk, u, e), Advance(t, ph, e))
  {
  }

  /** Whatever handshakes, cancel requests and timeouts a started transfer meets, in whatever order, and whichever of
      its packets can be encoded, the uplinker is in the state the protocol reaches. */
  lemma {:induction false} UplinkRefinesProtocol(cfg: Config, chunk: nat, was: Uplinker, file: FileView,
                                                 events: seq<Event>)
    requires cfg.Valid() && was.state == IDLE && was.sequence == 0 && file.Fresh()
    requires StartStep(cfg, was, file).error.None?
    ensures var t := TransferOf(cfg, chunk, file);
      && PhaseOk(t, Advances(t, events))
      && Implements(t, chunk, was, Run(cfg, chunk, StartStep(cfg, was, file).after, events), Advances(t, events))
    decreases |events|
  {
    var t := TransferOf(cfg, chunk, file);
    AdvancesOk(t, events);
    if events == [] {
      StartImplements(cfg, chunk, was, file);
    } else {
      var before := events[..|events| - 1];
      UplinkRefinesProtocol(cfg, chunk, was, file, before);
      RespondImplements(t, chunk, was, Run(cfg, chunk, StartStep(cfg, was, file).after, before), Advances(t, before),
                        events[|events| - 1]);
    }
  }

  /** Safety of any run of any started transfer: what has been sent is the encodable part of the first k packets of
      the transcript, in order, possibly with one CANCEL packet behind it; the semaphore is released at most once, and
      exactly when the uplinker is idle again. A transfer that is FINISHED has attempted every packet and sent END; it
      has sent the whole transcript if and only if every packet can be encoded. */
  lemma UplinkSafety(cfg: Config, chunk: nat, was: Uplinker, file: FileView, events: seq<Event>)
    requires cfg.Valid() && was.state == IDLE && was.sequence == 0 && file.Fresh()
    requires StartStep(cfg, was, file).error.None?
    ensures var t := TransferOf(cfg, chunk, file); var u := Run(cfg, chunk, StartStep(cfg, was, file).after, events);
      var k := Advances(t, events).k;
      && 1 <= k && u.active.Some?
      && (|| u.sent == was.sent + t.Sent(k)
          || (NotEnded(t, k) && u.sent == was.sent + (t.Sent(k) + [Cancel(k)])))
      && u.releases == was.releases + (if u.state == IDLE then 1 else 0)
      && (u.state == IDLE ==> u.sequence == 0 && !u.active.value.onDisk)
      && (u.active.value.state == FINISHED ==>
            && k == t.Length() && t.Goes(k - 1)
            && (u.sent == was.sent + t.Transcript(k) <==> t.Encodable()))
  {
    UplinkRefinesProtocol(cfg, chunk, was, file, events);
    var t := TransferOf(cfg, chunk, file);
    var k := Advances(t, events).k;
    SentIsTranscript(t, k);
    SameBehind(was.sent, t.Sent(k), t.Transcript(k));
  }

  /** At any time of any run: a start is refused, and changes nothing, until the transfer is over; then an echo changes
      nothing, and raises the assertion that the file is open exactly when it repeats the last one awaited, which a
      timeout forgets. */
  lemma UplinkRefuses(cfg: Config, chunk: nat, was: Uplinker, file: FileView, events: seq<Event>, other: FileView,
                      data: bytes)
    requires cfg.Valid() && was.state == IDLE && was.sequence == 0 && file.Fresh()
    requires StartStep(cfg, was, file).error.None?
    ensures var t := TransferOf(cfg, chunk, file); var ph := Advances(t, events);
      var u := Run(cfg, chunk, StartStep(cfg, was, file).after, events);
      && (!ph.Over? ==> StartStep(cfg, u, other) == Step(u, Some(BusyError)))
      && (ph.Over? && ph.outcome != TIMEOUT && data == Awaited(t, ph) ==>
            HandshakeStep(cfg, chunk, u, data) == Step(u, Some(AssertionError)))
      && (ph.Over? && (ph.outcome == TIMEOUT || data != Awaited(t, ph)) ==>
            HandshakeStep(cfg, chunk, u, data) == Step(u, None))
  {
    UplinkRefinesProtocol(cfg, chunk, was, file, events);
  }

  lemma SameBehind(a: seq<Packet>, b: seq<Packet>, c: seq<Packet>)
    ensures a + b == a + c <==> b == c
  {
    if a + b == a + c {
      assert b == (a + b)[|a|..] && c == (a + c)[|a|..];
    }
  }

  // ---------------------------------------------------------------- handshakes only

  function Handshakes(datas: seq<bytes>): seq<Event> {
    seq(|datas|, i requires 0 <= i < |datas| => Handshake(datas[i]))
  }

  /** "This is the echo of packet i", for each packet of the transcript. */
  function EchoTests(t: Transfer): (tests: seq<bytes -> bool>)
    ensures |tests| == t.Length()
    ensures forall i: nat, d | i < t.Length() :: tests[i](d) <==> d == t.EchoOf(i)
  {
    seq(t.Length(), i requires 0 <= i < t.Length() => var echo := t.EchoOf(i); (d: bytes) => d == echo)
  }

  /** The phase reached on m echoes matched in order, when all packets go out. */
  function PhaseAt(t: Transfer, m: nat): Phase
    requires m <= t.Length()
  {
    if m + 1 < t.Length() then Sending(m + 1, false)
    else if m + 1 == t.Length() then Waiting(m + 1, false)
    else Over(m, FINISHED)
  }

  lemma {:induction false} HandshakesAdvance(t: Transfer, datas: seq<bytes>)
    requires t.Encodable()
    ensures Advances(t, Handshakes(datas)) == PhaseAt(t, Matched(EchoTests(t), datas))
    decreases |datas|
  {
    if datas != [] {
      var n := |datas| - 1;
      var m := Matched(EchoTests(t), datas[..n]);
      HandshakesAdvance(t, datas[..n]);
      AdvancesStep(t, datas);
      EchoAdvances(t, m, datas[n]);
      MatchedStep(EchoTests(t), datas);
    }
  }

  lemma AdvancesStep(t: Transfer, datas: seq<bytes>)
    requires datas != []
    ensures var n := |datas| - 1;
      Advances(t, Handshakes(datas)) == Advance(t, Advances(t, Handshakes(datas[..n])), Handshake(datas[n]))
  {
    HandshakesLast(datas);
  }

  lemma MatchedStep(tests: seq<bytes -> bool>, datas: seq<bytes>)
    requires datas != []
    ensures var n := |datas| - 1; var m := Matched(tests, datas[..n]);
      Matched(tests, datas) == if m < |tests| && tests[m](datas[n]) then m + 1 else m
  {
  }

  lemma EchoAdvances(t: Transfer, m: nat, d: bytes)
    requires t.Encodable() && m <= t.Length()
    ensures Advance(t, PhaseAt(t, m), Handshake(d)) ==
      PhaseAt(t, if m < t.Length() && EchoTests(t)[m](d) then m + 1 else m)
  {
    if m < t.Length() {
      SentIsTranscript(t, m + 1);
      assert m + 1 < t.Length() ==> t.Goes(m + 1);
    }
    AdvanceMatches(t, m, d, m < t.Length() && EchoTests(t)[m](d));
  }

  lemma HandshakesLast(datas: seq<bytes>)
    requires datas != []
    ensures Handshakes(datas)[..|datas| - 1] == Handshakes(datas[..|datas| - 1])
    ensures |Handshakes(datas)| == |datas| && Handshakes(datas)[|datas| - 1] == Handshake(datas[|datas| - 1])
  {
  }

  lemma AdvanceMatches(t: Transfer, m: nat, d: bytes, answers: bool)
    requires m <= t.Length() && (answers <==> m < t.Length() && d == t.EchoOf(m))
    requires m < t.Length() ==> t.Last(m + 1) == m && (m + 1 < t.Length() ==> t.Goes(m + 1))
    ensures Advance(t, PhaseAt(t, m), Handshake(d)) == PhaseAt(t, if answers then m + 1 else m)
  {
    if m < t.Length() {
      assert PhaseAt(t, m).k == m + 1 && Awaited(t, PhaseAt(t, m)) == t.EchoOf(m);
    }
  }

  /** After m echoes matched in order, exactly the first m + 1 packets of the transcript have been sent, so never more
      than one is unanswered; the uplinker is idle again, the file FINISHED and the semaphore released, if and only if
      the echoes of all its packets occur in order among the handshakes. */
  ghost predicate RanTo(t: Transfer, was: Uplinker, u: Uplinker, datas: seq<bytes>) {
    var m := Matched(EchoTests(t), datas);
    && u.active.Some?
    && u.sent == was.sent + t.Transcript(if m < t.Length() then m + 1 else m)
    && (u.state == IDLE <==> u.active.value.state == FINISHED)
    && (u.state == IDLE <==> CanEmbed(EchoTests(t), datas, t.Length()))
    && u.releases == was.releases + (if u.state == IDLE then 1 else 0)
  }

  /** A start, and then handshakes. */
  function Uplinked(cfg: Config, chunk: nat, was: Uplinker, file: FileView, datas: seq<bytes>): Uplinker {
    Run(cfg, chunk, StartStep(cfg, was, file).after, Handshakes(datas))
  }

  /** A transfer without cancel or timeout runs as it should under every stream of correct, duplicated, stale and junk
      handshakes if and only if all its packets can be encoded. */
  lemma UplinkWholeRun(cfg: Config, chunk: nat, was: Uplinker, file: FileView)
    requires cfg.Valid() && was.state == IDLE && was.sequence == 0 && file.Fresh()
    ensures var t := TransferOf(cfg, chunk, file);
      (forall datas :: RanTo(t, was, Uplinked(cfg, chunk, was, file, datas), datas)) <==> t.Encodable()
  {
    var t := TransferOf(cfg, chunk, file);
    if t.Encodable() {
      forall datas ensures RanTo(t, was, Uplinked(cfg, chunk, was, file, datas), datas) {
        EncodableRuns(cfg, chunk, was, file, datas);
      }
    } else {
      var datas := BadRun(cfg, chunk, was, file);
    }
  }

  lemma EncodableRuns(cfg: Config, chunk: nat, was: Uplinker, file: FileView, datas: seq<bytes>)
    requires cfg.Valid() && was.state == IDLE && was.sequence == 0 && file.Fresh()
    requires TransferOf(cfg, chunk, file).Encodable()
    ensures RanTo(TransferOf(cfg, chunk, file), was, Uplinked(cfg, chunk, was, file, datas), datas)
  {
    var t := TransferOf(cfg, chunk, file);
    var u := Uplinked(cfg, chunk, was, file, datas);
    assert t.Goes(0);
    StartImplements(cfg, chunk, was, file);
    UplinkRefinesProtocol(cfg, chunk, was, file, Handshakes(datas));
    HandshakesAdvance(t, datas);
    ReadRun(t, chunk, was, u, datas);
  }

  lemma ReadRun(t: Transfer, chunk: nat, was: Uplinker, u: Uplinker, datas: seq<bytes>)
    requires t.Encodable() && Implements(t, chunk, was, u, PhaseAt(t, Matched(EchoTests(t), datas)))
    ensures RanTo(t, was, u, datas)
  {
    var m := Matched(EchoTests(t), datas);
    ReadPhase(t, chunk, was, u, m);
    AllGo(t, if m < t.Length() then m + 1 else m);
    GreedyIsComplete(EchoTests(t), datas);
  }

  lemma ReadPhase(t: Transfer, chunk: nat, was: Uplinker, u: Uplinker, m: nat)
    requires m <= t.Length() && Implements(t, chunk, was, u, PhaseAt(t, m))
    ensures u.active.Some?
    ensures u.sent == was.sent + t.Sent(if m < t.Length() then m + 1 else m)
    ensures u.state == IDLE <==> m == t.Length()
    ensures u.active.value.state == FINISHED <==> m == t.Length()
    ensures u.releases == was.releases + (if u.state == IDLE then 1 else 0)
  {
  }

  // ---------------------------------------------------------------- packets that cannot be encoded

  /** The echoes that drive a transfer on, attempt by attempt: each of the last packet that went out. */
  function Driving(t: Transfer, n: nat): seq<bytes> {
    seq(n, i requires 0 <= i < n => t.EchoOf(t.Last(i + 1)))
  }

  /** Where they drive it. */
  function DrivenTo(t: Transfer, n: nat): Phase
    requires n <= t.Length()
  {
    if n <= |t.plan| then Sending(n + 1, false)
    else if n == |t.plan| + 1 then Waiting(n + 1, false)
    else Over(n, FINISHED)
  }

  lemma {:induction false} Driven(t: Transfer, n: nat)
    requires n <= |t.plan| || (n <= t.Length() && t.Goes(|t.plan| + 1))
    ensures Advances(t, Handshakes(Driving(t, n))) == DrivenTo(t, n)
  {
    if n > 0 {
      Driven(t, n - 1);
      DrivingGrows(t, n - 1);
      DrivenStep(t, n - 1);
    }
  }

  lemma DrivingGrows(t: Transfer, n: nat)
    ensures Advances(t, Handshakes(Driving(t, n + 1)))
      == Advance(t, Advances(t, Handshakes(Driving(t, n))), Handshake(t.EchoOf(t.Last(n + 1))))
  {
    DrivingPrefix(t, n);
    AdvancesStep(t, Driving(t, n + 1));
  }

  lemma DrivingPrefix(t: Transfer, n: nat)
    ensures |Driving(t, n + 1)| == n + 1 && Driving(t, n + 1)[..n] == Driving(t, n)
    ensures Driving(t, n + 1)[n] == t.EchoOf(t.Last(n + 1))
  {
  }

  lemma DrivenStep(t: Transfer, n: nat)
    requires n < |t.plan| || (n < t.Length() && t.Goes(|t.plan| + 1))
    ensures Advance(t, DrivenTo(t, n), Handshake(t.EchoOf(t.Last(n + 1)))) == DrivenTo(t, n + 1)
  {
    if n == |t.plan| + 1 {
      assert t.Last(n + 1) == n == t.Last(t.Length());
    }
  }

  /** A transfer whose START and END go out can always be driven to FINISHED, and has then sent exactly the packets that
      can be encoded: the pieces of the others are lost, although the checksum in END counts them. */
  lemma FinishesWithout(cfg: Config, chunk: nat, was: Uplinker, file: FileView)
    requires cfg.Valid() && was.state == IDLE && was.sequence == 0 && file.Fresh()
    requires TransferOf(cfg, chunk, file).Goes(0)
    requires TransferOf(cfg, chunk, file).Goes(TransferOf(cfg, chunk, file).Length() - 1)
    ensures var t := TransferOf(cfg, chunk, file);
      var u := Uplinked(cfg, chunk, was, file, Driving(t, t.Length()));
      && u.state == IDLE && u.active.Some? && u.active.value.state == FINISHED
      && u.sent == was.sent + t.Sent(t.Length())
  {
    var t := TransferOf(cfg, chunk, file);
    StartImplements(cfg, chunk, was, file);
    UplinkRefinesProtocol(cfg, chunk, was, file, Handshakes(Driving(t, t.Length())));
    Driven(t, t.Length());
  }

  /** For instance: a file of 65537 bytes in chunks of 65536. The START echo arrives twice, and the transfer ends
      FINISHED with its first 65536 bytes never sent. */
  lemma LongChunkLost(cfg: Config, was: Uplinker, file: FileView)
    requires cfg.Valid() && was.state == IDLE && was.sequence == 0 && file.Fresh() && file.packets.None?
    requires |file.content| == 65537 == file.size && StartFits(file)
    ensures var t := TransferOf(cfg, 65536, file);
      var u := Uplinked(cfg, 65536, was, file, [t.EchoOf(0), t.EchoOf(0), t.EchoOf(2), t.EchoOf(3)]);
      && u.state == IDLE && u.active.Some? && u.active.value.state == FINISHED
      && u.sent == was.sent + [t.PacketAt(0), Data(2, 65536, file.content[65536..]), t.PacketAt(3)]
  {
    var t := TransferOf(cfg, 65536, file);
    LongChunkPlan(file);
    LongChunkGoes(t);
    FirstPieceLost(t);
    FinishesWithout(cfg, 65536, was, file);
  }

  lemma LongChunkGoes(t: Transfer)
    requires t.cfg.Valid() && StartFits(t.file) && |t.plan| == 2
    requires |t.plan[0].data| == 65536 && t.plan[1].offset == 65536 && |t.plan[1].data| == 1
    ensures t.Goes(0) && !t.Goes(1) && t.Goes(2) && t.Goes(3)
  {
    EncodesIff(t.cfg, t.PacketAt(0));
    EncodesIff(t.cfg, t.PacketAt(1));
    EncodesIff(t.cfg, t.PacketAt(2));
    EncodesIff(t.cfg, t.PacketAt(3));
  }

  lemma FirstPieceLost(t: Transfer)
    requires |t.plan| == 2 && t.Goes(0) && !t.Goes(1) && t.Goes(2) && t.Goes(3)
    ensures t.Sent(4) == [t.PacketAt(0), t.PacketAt(2), t.PacketAt(3)]
    ensures Driving(t, 4) == [t.EchoOf(0), t.EchoOf(0), t.EchoOf(2), t.EchoOf(3)]
  {
    assert t.Sent(1) == [t.PacketAt(0)] && t.Sent(2) == t.Sent(1);
    assert t.Sent(3) == [t.PacketAt(0), t.PacketAt(2)];
    assert t.Last(1) == 0 && t.Last(2) == 0 && t.Last(3) == 2 && t.Last(4) == 3;
  }

  lemma LongChunkPlan(file: FileView)
    requires file.Fresh() && file.packets.None? && |file.content| == 65537
    ensures file.Opened().Plan(65536) == [Piece(0, file.content[..65536]), Piece(65536, file.content[65536..])]
  {
    SequentialPlan(file, 65536);
    TwoTiles(file.Opened().Plan(65536), file.content, 65536);
  }

  lemma TwoTiles(plan: seq<Piece>, file: bytes, chunk: nat)
    requires Tiles(plan, file, 0, chunk) && |file| == chunk + 1 && chunk > 0
    ensures plan == [Piece(0, file[..chunk]), Piece(chunk, file[chunk..])]
  {
    var p, rest := plan[0], plan[1..];
    assert p.data == file[0..chunk] == file[..chunk];
    assert Tiles(rest, file, chunk, chunk) && rest != [];
    assert rest[0].data == file[chunk..chunk + 1] == file[chunk..];
    assert Tiles(rest[1..], file, chunk + 1, chunk) && rest[1..] == [];
  }

  /** The shortest run that shows a transfer cannot be encoded: the echoes of all packets before the first that
      cannot. */
  lemma BadRun(cfg: Config, chunk: nat, was: Uplinker, file: FileView) returns (datas: seq<bytes>)
    requires cfg.Valid() && was.state == IDLE && was.sequence == 0 && file.Fresh()
    requires !TransferOf(cfg, chunk, file).Encodable()
    ensures !RanTo(TransferOf(cfg, chunk, file), was, Uplinked(cfg, chunk, was, file, datas), datas)
  {
    var t := TransferOf(cfg, chunk, file);
    var k := FirstBad(t);
    datas := Driving(t, k);
    EchoesMatch(t, k);
    SentAtBad(cfg, chunk, was, file, k);
    SentLength(t, k);
    NotRanTo(t, was, Uplinked(cfg, chunk, was, file, datas), datas, t.Sent(k));
  }

  /** Those echoes have brought out the first k packets only. */
  lemma SentAtBad(cfg: Config, chunk: nat, was: Uplinker, file: FileView, k: nat)
    requires cfg.Valid() && was.state == IDLE && was.sequence == 0 && file.Fresh()
    requires var t := TransferOf(cfg, chunk, file); k < t.Length() && !t.Goes(k) && forall i: nat | i < k :: t.Goes(i)
    ensures var t := TransferOf(cfg, chunk, file);
      Uplinked(cfg, chunk, was, file, Driving(t, k)).sent == was.sent + t.Sent(k)
  {
    var t := TransferOf(cfg, chunk, file);
    StartImplements(cfg, chunk, was, file);
    if k == 0 {
      assert Handshakes(Driving(t, k)) == [];
    } else {
      UplinkRefinesProtocol(cfg, chunk, was, file, Handshakes(Driving(t, k)));
      DrivenToBad(t, k);
      SentSending(t, chunk, was, Uplinked(cfg, chunk, was, file, Driving(t, k)), k + 1);
    }
  }

  lemma SentSending(t: Transfer, chunk: nat, was: Uplinker, u: Uplinker, k: nat)
    requires k >= 1 && Implements(t, chunk, was, u, Sending(k, false))
    ensures u.sent == was.sent + t.Sent(k)
  {
  }

  /** Too few packets sent for the echoes matched. */
  lemma NotRanTo(t: Transfer, was: Uplinker, u: Uplinker, datas: seq<bytes>, sent: seq<Packet>)
    requires u.sent == was.sent + sent && |sent| <= Matched(EchoTests(t), datas) < t.Length()
    ensures !RanTo(t, was, u, datas)
  {
    var m := Matched(EchoTests(t), datas);
    assert |was.sent + t.Transcript(m + 1)| == |was.sent| + m + 1;
  }

  lemma FirstBad(t: Transfer) returns (k: nat)
    requires !t.Encodable()
    ensures k < t.Length() && !t.Goes(k) && forall i: nat | i < k :: t.Goes(i)
  {
    k := 0;
    while t.Goes(k)
      invariant k < t.Length() && forall i: nat | i < k :: t.Goes(i)
      decreases t.Length() - k
    {
      k := k + 1;
    }
  }

  /** The phase right after the first packet that cannot be encoded. */
  lemma DrivenToBad(t: Transfer, k: nat)
    requires 1 <= k < t.Length() && !t.Goes(k) && forall i: nat | i < k :: t.Goes(i)
    ensures Advances(t, Handshakes(Driving(t, k))) == Sending(k + 1, false)
    ensures t.Sent(k + 1) == t.Sent(k)
  {
    Driven(t, k - 1);
    DrivingGrows(t, k - 1);
  }

  /** Those echoes match the first k packets in order. */
  lemma {:induction false} EchoesMatch(t: Transfer, k: nat)
    requires k < t.Length() && forall i: nat | i < k :: t.Goes(i)
    ensures Matched(EchoTests(t), Driving(t, k)) == k
  {
    if k > 0 {
      EchoesMatch(t, k - 1);
      AllGo(t, k);
      DrivingPrefix(t, k - 1);
      OwnEchoMatches(t, k - 1);
      MatchedStep(EchoTests(t), Driving(t, k));
    }
  }

  lemma OwnEchoMatches(t: Transfer, i: nat)
    requires i < t.Length()
    ensures |EchoTests(t)| == t.Length() && EchoTests(t)[i](t.EchoOf(i))
  {
  }

  /** No packet of a transcript answers for another: an old echo never advances the transfer. */
  lemma StaleEchoesDiffer(t: Transfer, i: nat, j: nat)
    requires t.Goes(i) && t.Goes(j)
    ensures t.EchoOf(i) == t.EchoOf(j) <==> i == j
  {
    ExpectedInjective(t.cfg, t.PacketAt(i), t.PacketAt(j));
  }

  // ---------------------------------------------------------------- which transfers can be encoded

  /** The START packet's fields fit. */
  predicate StartFits(file: FileView) {
    file.size < 0x1_0000_0000 && |file.source| < 256 && |file.dest| < 256
  }

  predicate PiecesFit(plan: seq<Piece>) {
    forall i | 0 <= i < |plan| :: plan[i].offset < 0x1_0000_0000 && |plan[i].data| < 0x1_0000
  }

  lemma EncodableMeaning(t: Transfer)
    requires t.cfg.Valid()
    ensures t.Encodable() <==> StartFits(t.file) && PiecesFit(t.plan) && t.Length() <= 0x1_0000_0000
  {
    forall i: nat | i < t.Length() ensures t.Goes(i) <==> Packable(t.PacketAt(i)) {
      EncodesIff(t.cfg, t.PacketAt(i));
    }
    if t.Encodable() {
      assert t.Goes(0) && t.Goes(t.Length() - 1);
      forall i | 0 <= i < |t.plan| ensures t.plan[i].offset < 0x1_0000_0000 && |t.plan[i].data| < 0x1_0000 {
        assert t.Goes(i + 1);
      }
    }
  }

  /** How many pieces a transfer sends. */
  function PieceCount(file: FileView, chunk: nat): nat {
    if chunk == 0 then 0
    else
      match file.packets
      case None => (|file.content| + chunk - 1) / chunk
      case Some(requested) => if AllFrom(1, requested) then |Holding(requested, |file.content|, chunk)| else 0
  }

  /** No piece it sends is longer than a DATA packet can say: the longest a sequential transfer reads is the chunk or
      the file; a requested packet is as long as the chunk or what the file has from there. */
  predicate PiecesShort(file: FileView, chunk: nat) {
    chunk < 0x1_0000 ||
    match file.packets
    case None => |file.content| < 0x1_0000
    case Some(requested) => AllFrom(1, requested) ==>
      forall p | p in requested && Holds(p, |file.content|, chunk) :: NearEnd(p, |file.content|, chunk)
  }

  /** Less than 64 KiB is left of the file from requested packet p on. */
  predicate NearEnd(p: int, size: nat, chunk: nat) {
    size - (p - 1) * chunk < 0x1_0000
  }

  lemma SequentialPieces(file: FileView, chunk: nat)
    requires file.Fresh() && file.packets.None? && chunk > 0
    ensures var plan := file.Opened().Plan(chunk);
      && |plan| == PieceCount(file, chunk)
      && (forall i | 0 <= i < |plan| :: plan[i].offset < |file.content|)
      && ((forall i | 0 <= i < |plan| :: |plan[i].data| < 0x1_0000) <==> PiecesShort(file, chunk))
  {
    var plan := file.Opened().Plan(chunk);
    SequentialPlan(file, chunk);
    forall i | 0 <= i < |plan| ensures CutFrom(plan[i], file.content) && 0 < |plan[i].data| <= chunk {
      TileInFile(plan, file.content, 0, chunk, i);
    }
    if !PiecesShort(file, chunk) {
      assert plan != [] && |plan[0].data| >= 0x1_0000;
    }
  }

  lemma {:induction false} PiecesOfAt(packets: seq<int>, file: bytes, chunk: nat, i: nat)
    requires AllFrom(1, packets) && i < |packets|
    ensures |PiecesOf(packets, file, chunk)| == |packets|
    ensures PiecesOf(packets, file, chunk)[i] == PieceOf(packets[i], file, chunk)
    decreases |packets|
  {
    if |packets| > 1 {
      PiecesOfAt(packets[1..], file, chunk, if i > 0 then i - 1 else 0);
    }
  }

  lemma PieceLength(p: int, file: bytes, chunk: nat)
    requires Holds(p, |file|, chunk)
    ensures (p - 1) * chunk >= 0 && PieceOf(p, file, chunk).offset < |file|
    ensures var left := |file| - (p - 1) * chunk;
      |PieceOf(p, file, chunk).data| == if chunk < left then chunk else left
  {
    assert (p - 1) * chunk >= 0;
  }

  /** The plan of a packet list. */
  lemma PacketListPieces(file: FileView, chunk: nat)
    requires file.Fresh() && file.packets.Some? && Ascending(file.packets.value) && chunk > 0
    ensures var plan := file.Opened().Plan(chunk); var requested := file.packets.value;
      && |plan| == PieceCount(file, chunk)
      && (AllFrom(1, requested) ==>
            AllFrom(1, Holding(requested, |file.content|, chunk))
            && plan == PiecesOf(Holding(requested, |file.content|, chunk), file.content, chunk))
  {
    var requested := file.packets.value;
    var holding := Holding(requested, |file.content|, chunk);
    PacketPlanIsLeading(file.Opened(), chunk);
    HoldingMembers(requested, |file.content|, chunk);
    if AllFrom(1, requested) {
      LeadingIsAll(requested, file.content, chunk);
      if holding != [] {
        PiecesOfAt(holding, file.content, chunk, 0);
      }
    } else {
      var i :| 0 <= i < |requested| && requested[i] < 1;
      assert requested[0] <= requested[i];
    }
  }

  lemma PacketListShort(file: FileView, chunk: nat)
    requires file.Fresh() && file.packets.Some? && Ascending(file.packets.value) && chunk > 0
    ensures var plan := file.Opened().Plan(chunk);
      && (forall i | 0 <= i < |plan| :: plan[i].offset < |file.content|)
      && ((forall i | 0 <= i < |plan| :: |plan[i].data| < 0x1_0000) <==> PiecesShort(file, chunk))
  {
    var requested := file.packets.value;
    PacketListPieces(file, chunk);
    if AllFrom(1, requested) {
      var holding, plan := Holding(requested, |file.content|, chunk), file.Opened().Plan(chunk);
      HoldingMembers(requested, |file.content|, chunk);
      forall i | 0 <= i < |holding|
        ensures Holds(holding[i], |file.content|, chunk) && |plan| == |holding|
          && plan[i] == PieceOf(holding[i], file.content, chunk)
      {
        assert holding[i] in holding;
        PiecesOfAt(holding, file.content, chunk, i);
      }
      LengthsDecide(holding, plan, file.content, chunk);
    }
  }

  lemma LengthsDecide(holding: seq<int>, plan: seq<Piece>, file: bytes, chunk: nat)
    requires |plan| == |holding|
    requires forall i | 0 <= i < |holding| ::
      Holds(holding[i], |file|, chunk) && plan[i] == PieceOf(holding[i], file, chunk)
    ensures forall i | 0 <= i < |plan| :: plan[i].offset < |file|
    ensures (forall i | 0 <= i < |plan| :: |plan[i].data| < 0x1_0000)
      <==> chunk < 0x1_0000 || forall p | p in holding :: NearEnd(p, |file|, chunk)
  {
    forall i | 0 <= i < |plan|
      ensures plan[i].offset < |file|
      ensures |plan[i].data| < 0x1_0000 <==> chunk < 0x1_0000 || NearEnd(holding[i], |file|, chunk)
    {
      PieceLength(holding[i], file, chunk);
    }
    if forall p | p in holding :: NearEnd(p, |file|, chunk) {
      forall i | 0 <= i < |plan| ensures |plan[i].data| < 0x1_0000 {
        assert holding[i] in holding;
      }
    }
    if forall i | 0 <= i < |plan| :: |plan[i].data| < 0x1_0000 {
      forall p | p in holding ensures chunk < 0x1_0000 || NearEnd(p, |file|, chunk) {
        var i :| 0 <= i < |holding| && holding[i] == p;
        assert |plan[i].data| < 0x1_0000;
      }
    }
  }

  /** When a transfer can be encoded throughout, in either mode: the caller can tell from the file, the requested
      packets and the chunk before starting it. */
  lemma EncodableIff(cfg: Config, chunk: nat, file: FileView)
    requires cfg.Valid() && file.Fresh() && file.size == |file.content|
    requires file.packets.Some? ==> Ascending(file.packets.value)
    ensures TransferOf(cfg, chunk, file).Encodable() <==>
      StartFits(file) && PiecesShort(file, chunk) && PieceCount(file, chunk) + 2 <= 0x1_0000_0000
  {
    var t := TransferOf(cfg, chunk, file);
    EncodableMeaning(t);
    if chunk == 0 {
      assert t.plan == [];
    } else if file.packets.None? {
      SequentialPieces(file, chunk);
    } else {
      PacketListPieces(file, chunk);
      PacketListShort(file, chunk);
    }
  }

  /** A transfer without cancel or timeout runs as it should under every stream of handshakes if and only if START
      fits, no piece is too long and the packets are not too many. */
  lemma UplinkRunsIff(cfg: Config, chunk: nat, was: Uplinker, file: FileView)
    requires cfg.Valid() && was.state == IDLE && was.sequence == 0 && file.Fresh() && file.size == |file.content|
    requires file.packets.Some? ==> Ascending(file.packets.value)
    ensures var t := TransferOf(cfg, chunk, file);
      (forall datas :: RanTo(t, was, Uplinked(cfg, chunk, was, file, datas), datas)) <==>
        StartFits(file) && PiecesShort(file, chunk) && PieceCount(file, chunk) + 2 <= 0x1_0000_0000
  {
    UplinkWholeRun(cfg, chunk, was, file);
    EncodableIff(cfg, chunk, file);
  }

  lemma {:induction false} TileInFile(pieces: seq<Piece>, file: bytes, start: nat, chunk: nat, i: nat)
    requires Tiles(pieces, file, start, chunk) && i < |pieces|
    ensures CutFrom(pieces[i], file) && 0 < |pieces[i].data| <= chunk
    decreases |pieces|
  {
    if i > 0 {
      TileInFile(pieces[1..], file, start + |pieces[0].data|, chunk, i - 1);
    }
  }

  /** The whole sequential transfer: START, the file cut into ceil(size / chunk) contiguous pieces, and END carrying the
      CFDP checksum of the whole file. */
  lemma SequentialTranscript(cfg: Config, chunk: nat, file: FileView)
    requires file.Fresh() && file.packets.None? && chunk > 0
    ensures var t := TransferOf(cfg, chunk, file);
      && t.Length() == 2 + (|file.content| + chunk - 1) / chunk
      && Tiles(t.plan, file.content, 0, chunk)
      && t.PacketAt(t.Length() - 1) == End(t.Length() - 1, Word(FileChecksum(file.content)))
  {
    SequentialPlan(file, chunk);
  }
}

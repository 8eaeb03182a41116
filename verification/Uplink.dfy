/** `FileUplinker`: a file goes up one packet at a time, each after the echo of the one before. The step functions say
    what each entry point does to the uplinker's state; the class does it in place. */
module Uplink {
  import opened Bytes
  import opened FilePackets
  import opened TransmitFiles
  import Checksum

  datatype FileState = IDLE | RUNNING | CANCELED_STATE | END_WAIT

  /** The uplinker's state. `expected` is None for the initial empty list, which no bytes equal; `armed` says a timeout
      is pending; `sent` is every packet handed to the encoder; `releases` counts releases of the queue's semaphore. */
  datatype Uplinker = Uplinker(state: FileState, active: Option<FileView>, sequence: nat, expected: Option<bytes>,
                               armed: bool, sent: seq<Packet>, releases: nat)

  /** A step's outcome: the state it leaves, and the exception it raises, if any. */
  datatype Step = Step(after: Uplinker, error: Option<Error>)

  const INITIAL := Uplinker(IDLE, None, 0, None, false, [], 0)

  /** `send` with a handshake; an encoding error leaves everything as it was. */
  function SendStep(cfg: Config, u: Uplinker, p: Packet): Step {
    var e := Encode(cfg, p);
    if e.Err? then Step(u, Some(e.error))
    else Step(u.(sent := u.sent + [p], armed := true, expected := Some(e.value[8..])), None)
  }

  /** `send` of the next packet: the sequence number is taken first. */
  function SendNext(cfg: Config, u: Uplinker, p: Packet): Step {
    SendStep(cfg, u.(sequence := u.sequence + 1), p)
  }

  /** `start` */
  function StartStep(cfg: Config, u: Uplinker, file: FileView): Step {
    if u.state != IDLE then Step(u, Some(BusyError))
    else
      var u1 := u.(state := RUNNING);
      if file.fd.Some? then Step(u1.(active := Some(file)), Some(AssertionError))
      else if !file.onDisk then Step(u1.(active := Some(file.(state := TRANSMITTING))), Some(FileMissing))
      else SendNext(cfg, u1.(active := Some(file.Opened())),
        Packet.Start(u.sequence, file.size, file.source, file.dest))
  }

  /** `finish`: the file is closed and its source removed; removing it twice fails. */
  function FinishStep(u: Uplinker, wait: bool): Step {
    if u.active.None? then Step(u, Some(AttributeError))
    else
      var file := u.active.value.(fd := None);
      var u1 := u.(active := Some(file), sequence := 0, state := END_WAIT);
      if !file.onDisk then Step(u1, Some(FileMissing))
      else
        var u2 := u1.(active := Some(file.(onDisk := false)));
        var idle := u2.(state := IDLE, expected := None, releases := u2.releases + 1, armed := false);
        Step(if wait then u2 else idle, None)
  }

  function SendThenFinish(cfg: Config, u: Uplinker, p: Packet): Step {
    var s := SendNext(cfg, u, p);
    if s.error.Some? then s else FinishStep(s.after, true)
  }

  /** `data_callback` */
  function HandshakeStep(cfg: Config, chunk: nat, u: Uplinker, data: bytes): Step {
    if u.expected != Some(data) then Step(u, None)
    else if u.active.None? then Step(u, Some(AttributeError))
    else
      var file := u.active.value;
      match u.state
      case END_WAIT =>
        Step(u.(active := Some(file.(state := if file.state != CANCELED then FINISHED else CANCELED)), state := IDLE,
                releases := u.releases + 1, armed := false), None)
      case CANCELED_STATE => SendThenFinish(cfg, u, Cancel(u.sequence))
      case _ =>
        if file.fd.None? then Step(u, Some(AssertionError))
        else var r := file.Read(chunk); AfterRead(cfg, u, r.0, r.1)
  }

  /** `data_callback`, once the next chunk has been read: END on an empty one, DATA otherwise. */
  function AfterRead(cfg: Config, u: Uplinker, file: FileView, outgoing: bytes): Step {
    if outgoing == [] then SendThenFinish(cfg, u.(active := Some(file)), End(u.sequence, Word(file.checksum)))
    else SendNext(cfg, u.(active := Some(Summed(file, outgoing))), Data(u.sequence, file.seek, outgoing))
  }

  /** The file with a piece at its seek position added to the checksum. */
  function Summed(file: FileView, outgoing: bytes): FileView {
    file.(checksum := (file.checksum as int + Checksum.Weighted(outgoing, file.seek)) % Checksum.MODULUS)
  }

  /** `cancel` */
  function CancelStep(u: Uplinker): Uplinker {
    if u.state != RUNNING then u
    else u.(state := CANCELED_STATE,
            active := if u.active.Some? then Some(u.active.value.(state := CANCELED)) else None)
  }

  /** `timeout` */
  function TimeoutStep(u: Uplinker): Step {
    var s := FinishStep(u, false);
    if s.error.Some? then s else Step(s.after.(active := Some(s.after.active.value.(state := TIMEOUT))), None)
  }

  // ---------------------------------------------------------------- the class

  class FileUplinker {
    const cfg: Config
    const chunk: nat
    var state: FileState
    var active: TransmitFile?
    var sequence: nat
    var expected: Option<bytes>
    var armed: bool
    var sent: seq<Packet>
    var busyReleases: nat

    constructor (cfg: Config, chunk: nat)
      ensures this.cfg == cfg && this.chunk == chunk && View() == INITIAL && active == null
    {
      this.cfg, this.chunk, this.state, this.active, this.sequence := cfg, chunk, IDLE, null, 0;
      this.expected, this.armed, this.sent, this.busyReleases := None, false, [], 0;
    }

    ghost function Footprint(): set<object>
      reads this
    {
      if active == null then {this} else {this, active, active.checksum}
    }

    function View(): Uplinker
      reads this, active, if active == null then {} else {active.checksum}
    {
      var file := if active == null then None else Some(active.View());
      Uplinker(state, file, sequence, expected, armed, sent, busyReleases)
    }

    method Send(p: Packet) returns (error: Option<Error>)
      modifies this`sent, this`armed, this`expected
      ensures Step(View(), error) == SendStep(cfg, old(View()), p)
    {
      var ret := Encode(cfg, p);
      if ret.Err? {
        return Some(ret.error);
      }
      sent := sent + [p];
      armed := true;
      expected := Some(ret.value[8..]);
      return None;
    }

    /** `get_next_sequence` */
    method NextSequence() returns (tmp: nat)
      modifies this`sequence
      ensures tmp == old(sequence) && sequence == old(sequence) + 1
    {
      tmp := sequence;
      sequence := sequence + 1;
    }

    method Start(file: TransmitFile) returns (error: Option<Error>)
      modifies this, file
      ensures Step(View(), error) == StartStep(cfg, old(View()), old(file.View()))
    {
      if state != IDLE {
        return Some(BusyError);
      }
      state := RUNNING;
      active := file;
      error := active.Open();
      if error.Some? {
        return;
      }
      var tmp := NextSequence();
      error := Send(Packet.Start(tmp, active.size, active.source, active.dest));
    }

    method Finish(wait: bool) returns (error: Option<Error>)
      modifies Footprint()
      ensures active == old(active)
      ensures Step(View(), error) == FinishStep(old(View()), wait)
    {
      if active == null {
        return Some(AttributeError);
      }
      active.Close();
      sequence := 0;
      state := END_WAIT;
      if !active.onDisk {
        return Some(FileMissing);
      }
      active.onDisk := false;
      if !wait {
        state := IDLE;
        expected := None;
        busyReleases := busyReleases + 1;
        armed := false;
      }
      return None;
    }

    method DataCallback(data: bytes) returns (error: Option<Error>)
      modifies Footprint()
      ensures active == old(active)
      ensures Step(View(), error) == HandshakeStep(cfg, chunk, old(View()), data)
    {
      if expected != Some(data) {
        return None;
      }
      if active == null {
        return Some(AttributeError);
      }
      if state == END_WAIT {
        active.state := if active.state != CANCELED then FINISHED else CANCELED;
        state := IDLE;
        busyReleases := busyReleases + 1;
        armed := false;
        return None;
      }
      if state == CANCELED_STATE {
        error := SendAndFinish(Packet.Cancel(sequence));
        return;
      }
      error := SendNextPiece();
    }

    /** The last branch of `data_callback` */
    method SendNextPiece() returns (error: Option<Error>)
      requires active != null
      modifies Footprint()
      ensures active == old(active)
      ensures var u := old(View()); var file := old(active.View());
        Step(View(), error) == if file.fd.None? then Step(u, Some(AssertionError))
                               else var r := file.Read(chunk); AfterRead(cfg, u, r.0, r.1)
    {
      var outgoing;
      outgoing, error := active.Read(chunk);
      if error.Some? {
        return;
      }
      if outgoing == [] {
        error := SendAndFinish(End(sequence, Word(active.checksum.value)));
      } else {
        active.checksum.Update(outgoing, active.seek);
        var tmp := NextSequence();
        error := Send(Data(tmp, active.seek, outgoing));
      }
    }

    method SendAndFinish(p: Packet) returns (error: Option<Error>)
      modifies Footprint()
      ensures active == old(active)
      ensures Step(View(), error) == SendThenFinish(cfg, old(View()), p)
    {
      var _ := NextSequence();
      error := Send(p);
      if error.Some? {
        return;
      }
      error := Finish(true);
    }

    method Cancel()
      modifies Footprint()
      ensures active == old(active)
      ensures View() == CancelStep(old(View()))
    {
      if state == RUNNING {
        state := CANCELED_STATE;
        if active != null {
          active.state := CANCELED;
        }
      }
    }

    method Timeout() returns (error: Option<Error>)
      modifies Footprint()
      ensures active == old(active)
      ensures Step(View(), error) == TimeoutStep(old(View()))
    {
      error := Finish(false);
      if error.None? {
        active.state := TIMEOUT;
      }
    }
  }
}

/** `FileDownlinker`: packets of one file at a time are written to a destination file at their offsets. */
module Downlink {
  import opened Bytes
  import opened Checksum
  import opened FilePackets

  const SEPARATOR: byte := 0x2F
  const UNDERSCORE: byte := 0x5F
  const DOT: byte := 0x2E

  datatype State = IDLE | RUNNING | ERROR

  /** How opening a destination for writing ends: with the file open, in a permission error, or in any other error. */
  datatype Opening = Opened | Denied | Refused

  /** The downlinker's state: `active` is the destination path of the transfer in progress, `disk` the files written,
      `files` the destinations opened so far. */
  datatype Downlinker = Downlinker(directory: bytes, state: State, active: Option<bytes>, sequence: nat,
                                   files: seq<bytes>, disk: map<bytes, bytes>)
  {
    /** What holds in every run. */
    predicate Sane() {
      (state != IDLE ==> active.Some?) && (state == RUNNING ==> active.value in disk)
    }

    /** And nothing is open while idle. */
    predicate Valid() {
      Sane() && (state == IDLE ==> active.None?)
    }
  }

  /** `sanitize`: no separator survives. */
  function Sanitize(name: bytes): (clean: bytes)
    ensures |clean| == |name| && SEPARATOR !in clean
    ensures forall i | 0 <= i < |name| :: clean[i] == (if name[i] == SEPARATOR then UNDERSCORE else name[i])
  {
    seq(|name|, i requires 0 <= i < |name| => if name[i] == SEPARATOR then UNDERSCORE else name[i])
  }

  /** `os.path.join(directory, name)` for a name without separators */
  function Join(directory: bytes, name: bytes): (path: bytes)
    ensures directory <= path && |name| <= |path| <= |directory| + 1 + |name| && path[|path| - |name|..] == name
    ensures directory != [] ==> |path| > |name| && path[|path| - |name| - 1] == SEPARATOR
  {
    if directory == [] || directory[|directory| - 1] == SEPARATOR then directory + name
    else directory + [SEPARATOR] + name
  }

  /** Seek and write: a gap reads as zeros, writing nothing changes nothing. */
  function WriteAt(content: bytes, p: Piece): bytes {
    if p.data == [] then content
    else
      var padded: bytes := if |content| < p.offset then content + seq(p.offset - |content|, _ => 0) else content;
      padded[..p.offset] + p.data + (if |padded| > p.offset + |p.data| then padded[p.offset + |p.data|..] else [])
  }

  lemma WriteAtReads(content: bytes, p: Piece)
    ensures var after := WriteAt(content, p);
      && |after| >= |content|
      && (p.data != [] ==> |after| >= p.offset + |p.data|)
      && (forall i | 0 <= i < |p.data| :: after[p.offset + i] == p.data[i])
      && (forall i: nat | i < |content| && !Covers(p, i) :: after[i] == content[i])
  {
  }

  /** `finish` */
  function Finished(d: Downlinker): Downlinker {
    d.(state := IDLE, active := None, sequence := 0)
  }

  /** `handle_start` */
  function OnStart(d: Downlinker, dest: bytes, opening: Opening): Downlinker {
    var free := if d.state != IDLE then Finished(d) else d;
    var path := Join(d.directory, Sanitize(dest));
    if free.active.Some? then free
    else
      match opening
      case Refused => free.(active := Some(path))
      case Denied => free.(active := Some(path), state := ERROR)
      case Opened =>
        free.(active := Some(path), state := RUNNING, sequence := free.sequence + 1, files := free.files + [path],
              disk := free.disk[path := if path in free.disk then free.disk[path] else []])
  }

  /** The exception a packet raises, if any: a file is already open, or cannot be opened. */
  function Raised(d: Downlinker, p: Packet, opening: Opening): Option<Error> {
    if !p.Start? then None
    else if d.state == IDLE && d.active.Some? then Some(AssertionError)
    else if opening == Refused then Some(OpenError)
    else None
  }

  /** `handle_data` */
  function OnData(d: Downlinker, p: Piece): Downlinker
    requires d.Sane()
  {
    var counted := d.(sequence := d.sequence + 1);
    if d.state != RUNNING then counted
    else counted.(disk := d.disk[d.active.value := WriteAt(d.disk[d.active.value], p)])
  }

  /** `data_callback`: a valid state stays valid unless a START meets an error other than a denied permission. */
  function Receive(d: Downlinker, p: Packet, opening: Opening): (after: Downlinker)
    requires d.Sane() && (p.Data? ==> p.offset >= 0)
    ensures after.Sane() && after.directory == d.directory
    ensures d.Valid() ==> (after.Valid() <==> !(p.Start? && opening == Refused))
    ensures !d.Valid() ==> !after.Valid() && after == d.(sequence := after.sequence)
  {
    match p
    case Start(_, _, _, dest) => OnStart(d, dest, opening)
    case Data(_, offset, data) => OnData(d, Piece(offset, data))
    case End(_, _) => if d.state == IDLE then d else Finished(d)
    case Cancel(_) => if d.state == RUNNING then Finished(d) else d
  }

  /** A destination that cannot be opened as a file, wherever it is: it names a directory, or holds a NUL. */
  predicate NeverOpens(dest: bytes) {
    Sanitize(dest) in {[], [DOT], [DOT, DOT]} || 0 in dest
  }

  class FileDownlinker {
    const directory: bytes
    var state: State
    var active: Option<bytes>
    var sequence: nat
    var files: seq<bytes>
    var disk: map<bytes, bytes>

    function View(): Downlinker
      reads this
    {
      Downlinker(directory, state, active, sequence, files, disk)
    }

    constructor (directory: bytes)
      ensures View() == Downlinker(directory, IDLE, None, 0, [], map[]) && View().Valid()
    {
      this.directory, this.state, this.active, this.sequence, this.files, this.disk :=
        directory, IDLE, None, 0, [], map[];
    }

    /** A transfer in progress is finished first; the assertion that nothing is open then fails exactly after an open
        that raised something else than a permission error. */
    method HandleStart(dest: bytes, opening: Opening) returns (error: Option<Error>)
      requires View().Sane()
      modifies this
      ensures View() == OnStart(old(View()), dest, opening)
      ensures error == if !old(View()).Valid() then Some(AssertionError)
                       else if opening == Refused then Some(OpenError) else None
    {
      if state != IDLE {
        error := Finish();
      }
      if active.Some? {
        return Some(AssertionError);
      }
      var path := Join(directory, Sanitize(dest));
      active := Some(path);
      match opening {
        case Refused => return Some(OpenError);
        case Denied => state := ERROR;
        case Opened =>
          if path !in disk {
            disk := disk[path := []];
          }
          files := files + [path];
          state := RUNNING;
          sequence := sequence + 1;
          assert disk == old(disk)[path := if path in old(disk) then old(disk)[path] else []];
      }
      return None;
    }

    method HandleData(offset: nat, data: bytes)
      requires View().Sane()
      modifies this
      ensures View() == OnData(old(View()), Piece(offset, data))
    {
      if state == RUNNING {
        disk := disk[active.value := WriteAt(disk[active.value], Piece(offset, data))];
      }
      sequence := sequence + 1;
    }

    /** The end of `finish` fails when nothing is open. */
    method Finish() returns (error: Option<Error>)
      modifies this`state, this`sequence, this`active
      ensures View() == Finished(old(View()))
      ensures error == if old(active).None? then Some(AttributeError) else None
    {
      state := IDLE;
      sequence := 0;
      if active.None? {
        return Some(AttributeError);
      }
      active := None;
      return None;
    }

    method DataCallback(p: Packet, opening: Opening) returns (error: Option<Error>)
      requires View().Sane() && (p.Data? ==> p.offset >= 0)
      modifies this
      ensures View() == Receive(old(View()), p, opening) && View().Sane()
      ensures error == Raised(old(View()), p, opening)
    {
      error := None;
      match p
      case Start(_, _, _, dest) => error := HandleStart(dest, opening);
      case Data(_, offset, data) => HandleData(offset, data);
      case End(_, _) =>
        if state != IDLE {
          error := Finish();
        }
      case Cancel(_) =>
        if state == RUNNING {
          error := Finish();
        }
    }

    /** `timeout`: whatever the state, a valid one follows. */
    method Timeout() returns (error: Option<Error>)
      modifies this
      ensures View() == Finished(old(View())) && View().Valid()
      ensures error == if old(active).None? then Some(AttributeError) else None
    {
      error := Finish();
    }
  }
}

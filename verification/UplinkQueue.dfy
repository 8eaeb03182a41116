/** The uplink queue's thread, the user's pause and unpause, timers and handshakes, interleaved step by step around the
    `busy` semaphore. */
module UplinkQueue {
  import opened Bytes
  import opened FilePackets
  import opened TransmitFiles
  import opened Uplink

  /** Where the queue thread's loop stands. */
  datatype Thread =
    | Checking                        // about to test `running`
    | Getting                         // blocked in queue.get
    | Acquiring(file: FileView)       // about to acquire busy for this file
    | Starting(file: FileView)        // busy acquired, about to start
    | Started                         // waiting to acquire busy again
    | Held                            // acquired again, about to release
    | Dead                            // a start has failed, and its exception has ended the thread

  /** Where the user's pause stands. */
  datatype User = Free | Pausing | Paused

  datatype System = System(up: Uplinker, permits: nat, running: bool, thread: Thread, user: User,
                           queue: seq<FileView>, starts: nat)

  const INITIAL_SYSTEM := System(INITIAL, 1, true, Checking, Free, [], 0)

  datatype Action =
    | CheckRunning | Get | Acquire | StartFile | AcquireAgain | Release
    | Enqueue(file: FileView)
    | Echoed(data: bytes) | TimerFires
    | CancelCall | Pause | PauseAcquire | Unpause

  /** A file whose start cannot fail: it is there, and its START packet encodes. */
  predicate Startable(cfg: Config, file: FileView) {
    file.fd.None? && file.onDisk && Encode(cfg, Packet.Start(0, file.size, file.source, file.dest)).Ok?
  }

  /** The uplinker takes a step; releases of `busy` it makes become permits. */
  function Uplinks(s: System, up: Uplinker): System {
    var released := if up.releases > s.up.releases then up.releases - s.up.releases else 0;
    s.(up := up, permits := s.permits + released)
  }

  /** One atomic step; an action that is blocked or does not apply changes nothing. */
  function Next(cfg: Config, chunk: nat, s: System, a: Action): System {
    match a
    case CheckRunning => if s.thread.Checking? && s.running then s.(thread := Getting) else s
    case Get =>
      if !s.thread.Getting? || s.queue == [] then s
      else if !s.running then s.(queue := s.queue[1..] + [s.queue[0]], thread := Checking)
      else s.(queue := s.queue[1..], thread := Acquiring(s.queue[0]))
    case Acquire =>
      if s.thread.Acquiring? && s.permits > 0
      then s.(permits := s.permits - 1, thread := Starting(s.thread.file))
      else s
    case StartFile =>
      if !s.thread.Starting? then s
      else
        var start := StartStep(cfg, s.up, s.thread.file);
        Uplinks(s, start.after).(thread := if start.error.Some? then Dead else Started, starts := s.starts + 1)
    case AcquireAgain =>
      if s.thread.Started? && s.permits > 0 then s.(permits := s.permits - 1, thread := Held) else s
    case Release => if s.thread.Held? then s.(permits := s.permits + 1, thread := Checking) else s
    case Enqueue(file) => if file.fd.None? then s.(queue := s.queue + [file]) else s
    case Echoed(data) => Uplinks(s, HandshakeStep(cfg, chunk, s.up, data).after)
    case TimerFires => if s.up.armed then Uplinks(s, TimeoutStep(s.up).after) else s
    case CancelCall => s.(up := CancelStep(s.up))
    case Pause =>
      var canceled := s.(up := CancelStep(s.up));
      if s.running && s.user == Free then canceled.(running := false, user := Pausing) else canceled
    case PauseAcquire =>
      if s.user == Pausing && s.permits > 0 then s.(permits := s.permits - 1, user := Paused) else s
    case Unpause =>
      if s.running then s
      else s.(permits := s.permits + 1, running := true, user := if s.user == Paused then Free else s.user)
  }

  /** A file whose start was tried has not been finished yet. */
  predicate InFlight(s: System) {
    (s.thread.Started? || s.thread.Dead?) && s.up.state != IDLE
  }

  /** Everyone who owns the permit: a transfer (from before its start until it finishes), the queue thread between its
      second acquire and its release, a user whose pause has returned. */
  function Holders(s: System): nat {
    (if s.thread.Starting? || InFlight(s) then 1 else 0) + (if s.thread.Held? then 1 else 0)
    + (if s.user == Paused then 1 else 0)
  }

  predicate Inv(cfg: Config, s: System) {
    && s.permits + Holders(s) == 1
    && (s.running <==> s.user == Free)
    && (!s.thread.Started? && !s.thread.Dead? ==> s.up.state == IDLE)
    && s.starts == s.up.releases + (if InFlight(s) then 1 else 0)
    && (s.up.state == IDLE ==> s.up.sequence == 0 && !s.up.armed && (s.up.active.Some? ==> s.up.active.value.fd.None?))
    && (s.up.state != IDLE ==> s.up.active.Some?)
    && (forall i | 0 <= i < |s.queue| :: s.queue[i].fd.None?)
    && (s.thread.Acquiring? || s.thread.Starting? ==> s.thread.file.fd.None?)
  }

  /** What an echo or a timeout can do to the uplinker: nothing while idle; otherwise it stays in flight, or becomes
      idle and releases once. */
  predicate Settles(u: Uplinker, v: Uplinker) {
    if u.state == IDLE then v == u
    else
      && v.active.Some?
      && if v.state == IDLE then v.releases == u.releases + 1 && v.sequence == 0 && !v.armed && v.active.value.fd.None?
         else v.releases == u.releases
  }

  lemma EchoSettles(cfg: Config, chunk: nat, u: Uplinker, data: bytes)
    requires u.state == IDLE ==> (u.active.Some? ==> u.active.value.fd.None?)
    requires u.state != IDLE ==> u.active.Some?
    requires u.state == END_WAIT ==> u.active.value.fd.None? && u.sequence == 0
    ensures Settles(u, HandshakeStep(cfg, chunk, u, data).after)
    ensures var v := HandshakeStep(cfg, chunk, u, data).after;
      v.state == END_WAIT ==> v.active.Some? && v.active.value.fd.None? && v.sequence == 0
  {
    if u.expected == Some(data) && u.state == RUNNING && u.active.value.fd.Some? {
      var r := u.active.value.Read(chunk);
      assert HandshakeStep(cfg, chunk, u, data) == AfterRead(cfg, u, r.0, r.1);
    }
  }

  /** In END_WAIT the file is closed and the sequence restarted. */
  predicate Ending(u: Uplinker) {
    u.state == END_WAIT ==> u.active.Some? && u.active.value.fd.None? && u.sequence == 0
  }

  /** Every step keeps the invariant, as long as unpause is not called while a pause is still blocked. */
  lemma StepKeepsInv(cfg: Config, chunk: nat, s: System, a: Action)
    requires Inv(cfg, s) && Ending(s.up)
    requires a.Unpause? ==> s.user != Pausing
    ensures Inv(cfg, Next(cfg, chunk, s, a)) && Ending(Next(cfg, chunk, s, a).up)
  {
    match a
    case Echoed(data) =>
      EchoSettles(cfg, chunk, s.up, data);
      SettlingKeepsInv(cfg, s, HandshakeStep(cfg, chunk, s.up, data).after);
    case TimerFires =>
      if s.up.armed {
        TimeoutSettles(s.up);
        SettlingKeepsInv(cfg, s, TimeoutStep(s.up).after);
      }
    case StartFile => StartKeepsInv(cfg, chunk, s);
    case Get => QueueKeepsInv(cfg, chunk, s, a);
    case Enqueue(_) => QueueKeepsInv(cfg, chunk, s, a);
    case CancelCall => UserKeepsInv(cfg, chunk, s, a);
    case Pause => UserKeepsInv(cfg, chunk, s, a);
    case PauseAcquire => UserKeepsInv(cfg, chunk, s, a);
    case Unpause => UserKeepsInv(cfg, chunk, s, a);
    case _ => ThreadKeepsInv(cfg, chunk, s, a);
  }

  lemma SettlingKeepsInv(cfg: Config, s: System, up: Uplinker)
    requires Inv(cfg, s) && Settles(s.up, up)
    ensures Inv(cfg, Uplinks(s, up))
  {
  }

  lemma StartKeepsInv(cfg: Config, chunk: nat, s: System)
    requires Inv(cfg, s)
    ensures Inv(cfg, Next(cfg, chunk, s, StartFile))
    ensures Ending(s.up) ==> Ending(Next(cfg, chunk, s, StartFile).up)
  {
    if s.thread.Starting? {
      StartRuns(cfg, s.up, s.thread.file);
    }
  }

  lemma UserKeepsInv(cfg: Config, chunk: nat, s: System, a: Action)
    requires Inv(cfg, s) && Ending(s.up) && (a.CancelCall? || a.Pause? || a.PauseAcquire? || a.Unpause?)
    requires a.Unpause? ==> s.user != Pausing
    ensures Inv(cfg, Next(cfg, chunk, s, a)) && Ending(Next(cfg, chunk, s, a).up)
  {
  }

  lemma ThreadKeepsInv(cfg: Config, chunk: nat, s: System, a: Action)
    requires Inv(cfg, s) && (a.CheckRunning? || a.Acquire? || a.AcquireAgain? || a.Release?)
    ensures Inv(cfg, Next(cfg, chunk, s, a)) && Next(cfg, chunk, s, a).up == s.up
  {
  }

  lemma QueueKeepsInv(cfg: Config, chunk: nat, s: System, a: Action)
    requires Inv(cfg, s) && (a.Get? || a.Enqueue?)
    ensures Inv(cfg, Next(cfg, chunk, s, a))
  {
  }

  lemma TimeoutSettles(u: Uplinker)
    requires u.state != IDLE && u.active.Some?
    ensures Settles(u, TimeoutStep(u).after) && Ending(TimeoutStep(u).after)
  {
  }

  /** A start from idle fails exactly for a file that cannot be started; either way the uplinker is running. */
  lemma StartRuns(cfg: Config, u: Uplinker, file: FileView)
    requires u.state == IDLE && u.sequence == 0 && file.fd.None?
    ensures var r := StartStep(cfg, u, file);
      && (r.error.None? <==> Startable(cfg, file)) && r.error != Some(BusyError)
      && r.after.state == RUNNING && r.after.active.Some? && r.after.releases == u.releases
  {
  }

  /** Unpausing keeps the invariant exactly when no pause is still blocked. */
  lemma UnpauseSafeIff(cfg: Config, chunk: nat, s: System)
    requires Inv(cfg, s)
    ensures Inv(cfg, Next(cfg, chunk, s, Unpause)) <==> s.user != Pausing
  {
  }

  /** What goes wrong otherwise: the blocked pause returns with a transfer still in flight. */
  lemma EarlyUnpauseBreaksPause(cfg: Config, chunk: nat, s: System)
    requires Inv(cfg, s) && InFlight(s) && s.user == Pausing
    ensures var t := Next(cfg, chunk, Next(cfg, chunk, s, Unpause), PauseAcquire);
      t.user == Paused && InFlight(t) && t.permits + Holders(t) == 2
  {
  }

  // ---------------------------------------------------------------- whole runs

  function Run(cfg: Config, chunk: nat, actions: seq<Action>): System {
    if actions == [] then INITIAL_SYSTEM
    else Next(cfg, chunk, Run(cfg, chunk, actions[..|actions| - 1]), actions[|actions| - 1])
  }

  lemma RunStep(cfg: Config, chunk: nat, before: seq<Action>, a: Action)
    ensures Run(cfg, chunk, before + [a]) == Next(cfg, chunk, Run(cfg, chunk, before), a)
  {
    assert (before + [a])[..|before|] == before;
  }

  /** A file goes up, and a pause blocks on its transfer. */
  function PauseDuringTransfer(file: FileView): seq<Action> {
    [Enqueue(file)] + [CheckRunning] + [Get] + [Acquire] + [StartFile] + [Pause]
  }

  lemma FileAcquires(cfg: Config, chunk: nat, file: FileView)
    requires Startable(cfg, file)
    ensures Run(cfg, chunk, [Enqueue(file)] + [CheckRunning] + [Get] + [Acquire])
      == INITIAL_SYSTEM.(thread := Starting(file), permits := 0)
  {
    var a1 := [Enqueue(file)];
    assert [] + a1 == a1;
    RunStep(cfg, chunk, [], Enqueue(file));
    RunStep(cfg, chunk, a1, CheckRunning);
    RunStep(cfg, chunk, a1 + [CheckRunning], Get);
    RunStep(cfg, chunk, a1 + [CheckRunning] + [Get], Acquire);
  }

  lemma PauseBlocks(cfg: Config, chunk: nat, file: FileView)
    requires Startable(cfg, file)
    ensures var s := Run(cfg, chunk, PauseDuringTransfer(file)); InFlight(s) && s.user == Pausing && s.permits == 0
  {
    var a4 := [Enqueue(file)] + [CheckRunning] + [Get] + [Acquire];
    FileAcquires(cfg, chunk, file);
    RunStep(cfg, chunk, a4, StartFile);
    StartRuns(cfg, INITIAL, file);
    RunStep(cfg, chunk, a4 + [StartFile], Pause);
  }

  /** A run with an early unpause, for any file: the pause has returned, and the file is still going up. */
  lemma EarlyUnpauseReached(cfg: Config, chunk: nat, file: FileView)
    requires Startable(cfg, file)
    ensures var t := Run(cfg, chunk, PauseDuringTransfer(file) + [Unpause] + [PauseAcquire]);
      t.user == Paused && InFlight(t) && t.permits + Holders(t) == 2
  {
    var actions := PauseDuringTransfer(file);
    PauseBlocks(cfg, chunk, file);
    NoUnpauseIsOrderly(cfg, chunk, actions);
    RunKeepsInv(cfg, chunk, actions);
    RunStep(cfg, chunk, actions, Unpause);
    RunStep(cfg, chunk, actions + [Unpause], PauseAcquire);
    EarlyUnpauseBreaksPause(cfg, chunk, Run(cfg, chunk, actions));
  }

  lemma {:induction false} NoUnpauseIsOrderly(cfg: Config, chunk: nat, actions: seq<Action>)
    requires forall i | 0 <= i < |actions| :: !actions[i].Unpause?
    ensures Orderly(cfg, chunk, actions)
    decreases |actions|
  {
    if actions != [] {
      NoUnpauseIsOrderly(cfg, chunk, actions[..|actions| - 1]);
    }
  }

  /** Unpause is only ever called when no pause is blocked. */
  predicate Orderly(cfg: Config, chunk: nat, actions: seq<Action>) {
    actions != [] ==>
      var before := actions[..|actions| - 1];
      Orderly(cfg, chunk, before) && (actions[|actions| - 1].Unpause? ==> Run(cfg, chunk, before).user != Pausing)
  }

  lemma {:induction false} RunKeepsInv(cfg: Config, chunk: nat, actions: seq<Action>)
    requires Orderly(cfg, chunk, actions)
    ensures Inv(cfg, Run(cfg, chunk, actions)) && Ending(Run(cfg, chunk, actions).up)
    decreases |actions|
  {
    if actions != [] {
      var before := actions[..|actions| - 1];
      RunKeepsInv(cfg, chunk, before);
      StepKeepsInv(cfg, chunk, Run(cfg, chunk, before), actions[|actions| - 1]);
    }
  }

  lemma {:induction false} OrderlyPrefix(cfg: Config, chunk: nat, actions: seq<Action>, n: nat)
    requires Orderly(cfg, chunk, actions) && n <= |actions|
    ensures Orderly(cfg, chunk, actions[..n])
    decreases |actions|
  {
    if n == |actions| {
      assert actions[..n] == actions;
    } else {
      OrderlyPrefix(cfg, chunk, actions[..|actions| - 1], n);
      assert actions[..|actions| - 1][..n] == actions[..n];
    }
  }

  ghost predicate InvAt(cfg: Config, chunk: nat, actions: seq<Action>, n: nat)
    requires n <= |actions|
  {
    Inv(cfg, Run(cfg, chunk, actions[..n]))
  }

  lemma {:induction false} InvMeansOrderly(cfg: Config, chunk: nat, actions: seq<Action>)
    requires forall n: nat | n <= |actions| :: InvAt(cfg, chunk, actions, n)
    ensures Orderly(cfg, chunk, actions)
    decreases |actions|
  {
    if actions != [] {
      var k := |actions| - 1;
      var before := actions[..k];
      forall n: nat | n <= k ensures InvAt(cfg, chunk, before, n) {
        assert before[..n] == actions[..n] && InvAt(cfg, chunk, actions, n);
      }
      InvMeansOrderly(cfg, chunk, before);
      RunKeepsInv(cfg, chunk, before);
      assert InvAt(cfg, chunk, actions, k + 1) && actions[..k + 1] == actions;
      LastStepIff(cfg, chunk, Run(cfg, chunk, before), actions[k]);
    }
  }

  /** The invariant holds all along a run if and only if no unpause in it is called while a pause is blocked. */
  lemma OrderlyIff(cfg: Config, chunk: nat, actions: seq<Action>)
    ensures (forall n: nat | n <= |actions| :: InvAt(cfg, chunk, actions, n)) <==> Orderly(cfg, chunk, actions)
  {
    if Orderly(cfg, chunk, actions) {
      forall n: nat | n <= |actions| ensures InvAt(cfg, chunk, actions, n) {
        OrderlyPrefix(cfg, chunk, actions, n);
        RunKeepsInv(cfg, chunk, actions[..n]);
      }
    }
    if forall n: nat | n <= |actions| :: InvAt(cfg, chunk, actions, n) {
      InvMeansOrderly(cfg, chunk, actions);
    }
  }

  lemma LastStepIff(cfg: Config, chunk: nat, s: System, a: Action)
    requires Inv(cfg, s) && Ending(s.up)
    ensures Inv(cfg, Next(cfg, chunk, s, a)) <==> (a.Unpause? ==> s.user != Pausing)
  {
    if a.Unpause? {
      UnpauseSafeIff(cfg, chunk, s);
    } else {
      StepKeepsInv(cfg, chunk, s, a);
    }
  }

  /** In every reachable state the permit has exactly one owner, counting the semaphore itself; each started file has
      released it at most once; a start never finds the uplinker busy, and fails exactly for a file that cannot be
      started; and while a pause holds, nothing is in flight. */
  lemma UplinkMutualExclusion(cfg: Config, chunk: nat, actions: seq<Action>)
    requires Orderly(cfg, chunk, actions)
    ensures var s := Run(cfg, chunk, actions);
      && s.permits + Holders(s) == 1
      && s.up.releases <= s.starts <= s.up.releases + 1
      && (s.thread.Starting? ==>
            var start := StartStep(cfg, s.up, s.thread.file);
            && s.up.state == IDLE && start.error != Some(BusyError)
            && (start.error.None? <==> Startable(cfg, s.thread.file)))
      && (s.user == Paused ==> s.up.state == IDLE && !s.thread.Starting?)
  {
    RunKeepsInv(cfg, chunk, actions);
    var s := Run(cfg, chunk, actions);
    if s.thread.Starting? {
      StartRuns(cfg, s.up, s.thread.file);
    }
  }

  // ---------------------------------------------------------------- a start that fails

  /** The queue's last word: the thread is dead and the uplinker stays in its failed start, with no timer to end it. */
  predicate Wedged(s: System) {
    s.thread.Dead? && s.up.state in {RUNNING, CANCELED_STATE} && s.up.expected.None? && !s.up.armed && s.permits == 0
  }

  /** After a start that fails when nothing is expected any more, as at the first file or after a timeout, the queue is
      wedged: nothing is uplinked again, the permit never returns, and a pause never does, whatever happens except an
      unpause of a paused queue. */
  lemma WedgedForEver(cfg: Config, chunk: nat, s: System, a: Action)
    requires Wedged(s) && !a.Unpause?
    ensures var t := Next(cfg, chunk, s, a);
      Wedged(t) && t.up.sent == s.up.sent && t.starts == s.starts && (s.user != Paused ==> t.user != Paused)
  {
  }

  lemma StartWedges(cfg: Config, chunk: nat, s: System)
    requires Inv(cfg, s) && s.thread.Starting? && s.up.expected.None? && !Startable(cfg, s.thread.file)
    ensures Wedged(Next(cfg, chunk, s, StartFile))
  {
    StartRuns(cfg, s.up, s.thread.file);
  }
}

/** In which order the queued files are uplinked: first in, first out, but for what a pause rotates to the back. */
module UplinkOrder {
  import opened Bytes
  import opened FilePackets
  import opened TransmitFiles
  import opened Uplink
  import opened UplinkQueue

  /** The file an action puts on the queue. */
  function NewIn(a: Action): seq<FileView> {
    if a.Enqueue? && a.file.fd.None? then [a.file] else []
  }

  /** The file an action gives to the uplinker. */
  function NewOut(s: System, a: Action): seq<FileView> {
    if a.StartFile? && s.thread.Starting? then [s.thread.file] else []
  }

  /** The files put on the queue, in order. */
  function Enqueued(actions: seq<Action>): seq<FileView> {
    if actions == [] then []
    else Enqueued(actions[..|actions| - 1]) + NewIn(actions[|actions| - 1])
  }

  /** The files given to the uplinker, in order. */
  function StartedFiles(cfg: Config, chunk: nat, actions: seq<Action>): seq<FileView> {
    if actions == [] then []
    else
      var before := actions[..|actions| - 1];
      StartedFiles(cfg, chunk, before) + NewOut(Run(cfg, chunk, before), actions[|actions| - 1])
  }

  /** What the thread has taken from the queue and not yet started. */
  function InHand(s: System): seq<FileView> {
    if s.thread.Acquiring? || s.thread.Starting? then [s.thread.file] else []
  }

  /** All files in hand or on the queue. */
  function Held(s: System): multiset<FileView> {
    multiset(InHand(s)) + multiset(s.queue)
  }

  /** A paused queue puts the file it was waiting for behind the others. */
  predicate Rotates(s: System, a: Action) {
    a.Get? && s.thread.Getting? && !s.running && s.queue != [] && s.queue[1..] + [s.queue[0]] != s.queue
  }

  /** Files go up in the order in which they were put on the queue. */
  predicate InOrder(cfg: Config, chunk: nat, actions: seq<Action>) {
    var s := Run(cfg, chunk, actions);
    StartedFiles(cfg, chunk, actions) + InHand(s) + s.queue == Enqueued(actions)
  }

  /** What a step does to the queue and to the file in hand. */
  ghost predicate Moves(s: System, a: Action, t: System) {
    && t.starts == s.starts + |NewOut(s, a)|
    && if a.Enqueue? then t.queue == s.queue + NewIn(a) && InHand(t) == InHand(s)
       else if a.Get? && s.thread.Getting? && s.queue != [] then
         InHand(s) == []
         && if s.running then t.queue == s.queue[1..] && InHand(t) == [s.queue[0]]
            else t.queue == s.queue[1..] + [s.queue[0]] && InHand(t) == []
       else t.queue == s.queue && InHand(s) == NewOut(s, a) + InHand(t)
  }

  lemma StepMoves(cfg: Config, chunk: nat, s: System, a: Action)
    ensures Moves(s, a, Next(cfg, chunk, s, a))
  {
  }

  lemma MovesBalance(s: System, a: Action, t: System)
    requires Moves(s, a, t)
    ensures Held(s) + multiset(NewIn(a)) == multiset(NewOut(s, a)) + Held(t)
  {
    if a.Get? && s.thread.Getting? && s.queue != [] {
      assert s.queue == [s.queue[0]] + s.queue[1..];
    }
  }

  lemma Balance<T>(done: seq<T>, out: seq<T>, all: seq<T>, more: seq<T>, was: multiset<T>, now: multiset<T>)
    requires multiset(done) + was == multiset(all) && was + multiset(more) == multiset(out) + now
    ensures multiset(done + out) + now == multiset(all + more)
  {
    assert multiset(done + out) == multiset(done) + multiset(out);
    assert multiset(all + more) == multiset(done) + (was + multiset(more));
  }

  lemma MovesInOrderIff(s: System, a: Action, t: System, done: seq<FileView>, all: seq<FileView>)
    requires Moves(s, a, t)
    requires done + InHand(s) + s.queue == all
    ensures done + NewOut(s, a) + InHand(t) + t.queue == all + NewIn(a) <==> !Rotates(s, a)
  {
    if a.Enqueue? {
      PutBehind(done, InHand(s), s.queue, NewIn(a));
      assert done + NewOut(s, a) == done;
    } else if a.Get? && s.thread.Getting? && s.queue != [] {
      TakesFront(s, a, t, done, all);
    } else {
      PutInFront(done, NewOut(s, a), InHand(t), s.queue);
      assert all + NewIn(a) == all;
    }
  }

  lemma PutBehind<T>(done: seq<T>, hand: seq<T>, queue: seq<T>, more: seq<T>)
    ensures done + hand + (queue + more) == done + hand + queue + more
  {
  }

  lemma PutInFront<T>(done: seq<T>, out: seq<T>, hand: seq<T>, queue: seq<T>)
    ensures done + out + hand + queue == done + (out + hand) + queue
  {
  }

  lemma TakesFront(s: System, a: Action, t: System, done: seq<FileView>, all: seq<FileView>)
    requires a.Get? && s.thread.Getting? && s.queue != [] && Moves(s, a, t)
    requires done + InHand(s) + s.queue == all
    ensures done + NewOut(s, a) + InHand(t) + t.queue == all + NewIn(a) <==> !Rotates(s, a)
  {
    var first, rest := [s.queue[0]], s.queue[1..];
    assert s.queue == first + rest;
    assert done + [] == done && all + [] == all;
    if s.running {
      Regrouped(done, first, rest);
    } else {
      SameTail(done, s.queue, t.queue);
    }
  }

  lemma Regrouped<T>(a: seq<T>, b: seq<T>, c: seq<T>)
    ensures a + (b + c) == a + b + c
  {
  }

  /** No file is lost and none goes up more often than it was enqueued, whatever the order and whatever is paused. */
  lemma {:induction false} NothingLost(cfg: Config, chunk: nat, actions: seq<Action>)
    ensures multiset(StartedFiles(cfg, chunk, actions)) + Held(Run(cfg, chunk, actions)) == multiset(Enqueued(actions))
    ensures |StartedFiles(cfg, chunk, actions)| == Run(cfg, chunk, actions).starts
    decreases |actions|
  {
    if actions != [] {
      var before, a := actions[..|actions| - 1], actions[|actions| - 1];
      NothingLost(cfg, chunk, before);
      var t := LastStep(cfg, chunk, actions);
      var s := Run(cfg, chunk, before);
      MovesBalance(s, a, t);
      Balance(StartedFiles(cfg, chunk, before), NewOut(s, a), Enqueued(before), NewIn(a), Held(s), Held(t));
    }
  }

  lemma LastStep(cfg: Config, chunk: nat, actions: seq<Action>) returns (t: System)
    requires actions != []
    ensures var before, a := actions[..|actions| - 1], actions[|actions| - 1];
      && t == Run(cfg, chunk, actions) && Moves(Run(cfg, chunk, before), a, t)
      && Enqueued(actions) == Enqueued(before) + NewIn(a)
      && StartedFiles(cfg, chunk, actions) == StartedFiles(cfg, chunk, before) + NewOut(Run(cfg, chunk, before), a)
  {
    t := Run(cfg, chunk, actions);
    StepMoves(cfg, chunk, Run(cfg, chunk, actions[..|actions| - 1]), actions[|actions| - 1]);
  }

  /** One more step keeps the order if and only if it does not rotate the queue. */
  lemma StepInOrderIff(cfg: Config, chunk: nat, actions: seq<Action>)
    requires actions != [] && InOrder(cfg, chunk, actions[..|actions| - 1])
    ensures InOrder(cfg, chunk, actions)
      <==> !Rotates(Run(cfg, chunk, actions[..|actions| - 1]), actions[|actions| - 1])
  {
    var before := actions[..|actions| - 1];
    var t := LastStep(cfg, chunk, actions);
    MovesInOrderIff(Run(cfg, chunk, before), actions[|actions| - 1], t, StartedFiles(cfg, chunk, before),
                    Enqueued(before));
  }

  lemma SameTail<T>(s: seq<T>, a: seq<T>, b: seq<T>)
    ensures s + a == s + b <==> a == b
  {
    if s + a == s + b {
      assert a == (s + a)[|s|..] == (s + b)[|s|..] == b;
    }
  }

  predicate RotatesAt(cfg: Config, chunk: nat, actions: seq<Action>, i: nat)
    requires i < |actions|
  {
    Rotates(Run(cfg, chunk, actions[..i]), actions[i])
  }

  predicate InOrderAt(cfg: Config, chunk: nat, actions: seq<Action>, n: nat)
    requires n <= |actions|
  {
    InOrder(cfg, chunk, actions[..n])
  }

  /** All along a run the first file in is the first to go up, if and only if no pause rotates a queue of different
      files. */
  lemma FirstInFirstOutIff(cfg: Config, chunk: nat, actions: seq<Action>)
    ensures (forall n: nat | n <= |actions| :: InOrderAt(cfg, chunk, actions, n))
      <==> (forall i: nat | i < |actions| :: !RotatesAt(cfg, chunk, actions, i))
  {
    if forall n: nat | n <= |actions| :: InOrderAt(cfg, chunk, actions, n) {
      forall i: nat | i < |actions| ensures !RotatesAt(cfg, chunk, actions, i) {
        assert InOrderAt(cfg, chunk, actions, i) && InOrderAt(cfg, chunk, actions, i + 1);
        assert actions[..i + 1][..i] == actions[..i];
        StepInOrderIff(cfg, chunk, actions[..i + 1]);
      }
    }
    if forall i: nat | i < |actions| :: !RotatesAt(cfg, chunk, actions, i) {
      forall n: nat | n <= |actions| ensures InOrderAt(cfg, chunk, actions, n) {
        UnrotatedInOrder(cfg, chunk, actions, n);
      }
    }
  }

  lemma {:induction false} UnrotatedInOrder(cfg: Config, chunk: nat, actions: seq<Action>, n: nat)
    requires n <= |actions| && forall i: nat | i < |actions| :: !RotatesAt(cfg, chunk, actions, i)
    ensures InOrderAt(cfg, chunk, actions, n)
    decreases n
  {
    if n > 0 {
      UnrotatedInOrder(cfg, chunk, actions, n - 1);
      assert InOrderAt(cfg, chunk, actions, n - 1) && !RotatesAt(cfg, chunk, actions, n - 1);
      assert actions[..n][..n - 1] == actions[..n - 1];
      StepInOrderIff(cfg, chunk, actions[..n]);
    }
  }

  /** A pause that finds the thread waiting, and two files enqueued meanwhile: the first is put behind the second. */
  lemma PauseReorders(cfg: Config, chunk: nat, first: FileView, second: FileView)
    requires first.fd.None? && second.fd.None?
    ensures var actions := [CheckRunning] + [Pause] + [Enqueue(first)] + [Enqueue(second)] + [Get];
      && Enqueued(actions) == [first, second] && Run(cfg, chunk, actions).queue == [second, first]
      && StartedFiles(cfg, chunk, actions) == [] && InHand(Run(cfg, chunk, actions)) == []
  {
    var a2 := [CheckRunning] + [Pause];
    PausedWaiting(cfg, chunk);
    QueueStep(cfg, chunk, a2, Enqueue(first));
    QueueStep(cfg, chunk, a2 + [Enqueue(first)], Enqueue(second));
    var s := Run(cfg, chunk, a2 + [Enqueue(first)] + [Enqueue(second)]);
    assert s.queue == [first, second] && s.thread == Getting && !s.running;
    QueueStep(cfg, chunk, a2 + [Enqueue(first)] + [Enqueue(second)], Get);
    assert [first, second][1..] + [first] == [second, first];
  }

  lemma PausedWaiting(cfg: Config, chunk: nat)
    ensures var actions := [CheckRunning] + [Pause]; var s := Run(cfg, chunk, actions);
      && s.queue == [] && s.thread == Getting && !s.running
      && Enqueued(actions) == [] && StartedFiles(cfg, chunk, actions) == []
  {
    assert [] + [CheckRunning] == [CheckRunning];
    QueueStep(cfg, chunk, [], CheckRunning);
    QueueStep(cfg, chunk, [CheckRunning], Pause);
  }

  lemma QueueStep(cfg: Config, chunk: nat, before: seq<Action>, a: Action)
    ensures Run(cfg, chunk, before + [a]) == Next(cfg, chunk, Run(cfg, chunk, before), a)
    ensures Enqueued(before + [a]) == Enqueued(before) + NewIn(a)
    ensures StartedFiles(cfg, chunk, before + [a])
      == StartedFiles(cfg, chunk, before) + NewOut(Run(cfg, chunk, before), a)
  {
    assert (before + [a])[..|before|] == before;
  }
}

/** Which sessions are live after any run, said of the events alone: polling keeps a session, silence loses it. */
module SessionLifetime {
  import opened Bytes
  import opened SessionHistory
  import opened SessionDelivery

  /** When the session was last polled. */
  function LastPoll<T>(events: seq<Event<T>>, k: string): Option<real> {
    if events == [] then None
    else
      var n := |events| - 1;
      match events[n]
      case Retrieve(start, _, now) => if start == Some(k) then Some(now) else LastPoll(events[..n], k)
      case _ => LastPoll(events[..n], k)
  }

  /** The clear time last set. */
  function ClearTime<T>(events: seq<Event<T>>): real {
    if events == [] then -1.0
    else
      var n := |events| - 1;
      match events[n]
      case SetClearTime(time) => time
      case _ => ClearTime(events[..n])
  }

  /** A clear at this time, behind these events, spares the session: it is not named, and was polled recently enough if
      sessions expire at all. */
  predicate Spares<T>(events: seq<Event<T>>, gone: Key, at: real, k: string) {
    && gone != Some(k)
    && (ClearTime(events) <= 0.0
        || (LastPoll(events, k).Some? && LastPoll(events, k).value + ClearTime(events) >= at))
  }

  /** Polled, and spared by every clear since. */
  predicate Live<T>(keeps: bool, events: seq<Event<T>>, k: string) {
    if events == [] then false
    else
      var n := |events| - 1;
      match events[n]
      case Retrieve(start, _, _) => start == Some(k) || Live(keeps, events[..n], k)
      case Clear(gone, at) => Live(keeps, events[..n], k) && (keeps || Spares(events[..n], gone, at, k))
      case _ => Live(keeps, events[..n], k)
  }

  /** In the store: exactly the live sessions, each with the time of its last poll, and the clear time last set. */
  ghost predicate Timely<T>(keeps: bool, events: seq<Event<T>>) {
    var tr := Run(keeps, events);
    && tr.h.clearTime == ClearTime(events)
    && (forall k :: k in tr.records <==> Live(keeps, events, k))
    && forall k | k in tr.records ::
         k in tr.h.lastRequest && LastPoll(events, k) == Some(tr.h.lastRequest[k])
  }

  /** After any run, the sessions with a cursor are those that were polled and that every clear since has spared. */
  lemma {:induction false} LiveIff<T>(keeps: bool, events: seq<Event<T>>)
    ensures Timely(keeps, events)
    decreases |events|
  {
    if events != [] {
      var n := |events| - 1;
      LiveIff(keeps, events[..n]);
      RunIsSane(keeps, events[..n]);
      RunIsSane(keeps, events);
      match events[n]
      case Retrieve(start, limit, now) => RetrieveTimely(keeps, events, start, limit, now);
      case Clear(gone, at) => ClearTimely(keeps, events, gone, at);
      case Arrive(_) =>
      case SetClearTime(_) =>
    }
  }

  lemma RetrieveTimely<T>(keeps: bool, events: seq<Event<T>>, start: Key, limit: Option<int>, now: real)
    requires events != [] && events[|events| - 1] == Event.Retrieve(start, limit, now)
    requires Timely(keeps, events[..|events| - 1]) && Sane(Run(keeps, events))
    ensures Timely(keeps, events)
  {
  }

  /** A clear keeps what it does not remove. */
  lemma ClearOnlyRemoves<T>(tr: Tracked<T>, gone: Key, at: real, k: string)
    requires Sane(tr) && k in Next(tr, Clear(gone, at)).records
    ensures var after := Next(tr, Clear(gone, at));
      && k in tr.records && k in tr.h.lastRequest
      && k in after.h.lastRequest && after.h.lastRequest[k] == tr.h.lastRequest[k]
  {
    assert CountersOk(tr, k);
    NextKeepsSane(tr, Clear(gone, at));
    assert CountersOk(Next(tr, Clear(gone, at)), k);
  }

  lemma KeptByAll<T>(tr: Tracked<T>, gone: Key, at: real)
    requires Sane(tr) && tr.h.keeps
    ensures Next(tr, Clear(gone, at)).records == tr.records
  {
  }

  lemma ClearTimely<T>(keeps: bool, events: seq<Event<T>>, gone: Key, at: real)
    requires events != [] && events[|events| - 1] == Clear(gone, at)
    requires Timely(keeps, events[..|events| - 1])
    requires Sane(Run(keeps, events[..|events| - 1])) && Run(keeps, events[..|events| - 1]).h.keeps == keeps
    ensures Timely(keeps, events)
  {
    var front := events[..|events| - 1];
    var tr, after := Run(keeps, front), Run(keeps, events);
    forall k ensures k in after.records <==> Live(keeps, events, k) {
      if keeps {
        KeptByAll(tr, gone, at);
      } else if k in tr.records {
        ClearKeepsLiveSessions(tr, gone, at, k);
      }
    }
    forall k | k in after.records
      ensures k in after.h.lastRequest && LastPoll(events, k) == Some(after.h.lastRequest[k])
    {
      ClearOnlyRemoves(tr, gone, at, k);
    }
  }

  /** A live session survives the next clear if and only if it is not named, and the clear time is not positive or its
      last poll is no longer ago than that; what it was given is not touched. */
  lemma SurvivesClearIff<T>(events: seq<Event<T>>, gone: Key, at: real, k: string)
    requires k in Run(false, events).records
    ensures var before, after := Run(false, events), Run(false, events + [Clear(gone, at)]);
      && LastPoll(events, k).Some?
      && (k in after.records <==>
            && gone != Some(k)
            && (ClearTime(events) <= 0.0 || LastPoll(events, k).value + ClearTime(events) >= at))
      && (k in after.records ==> after.records[k] == before.records[k])
  {
    LiveIff(false, events);
    RunIsSane(false, events);
    RunStep(false, events, Clear(gone, at));
    ClearKeepsLiveSessions(Run(false, events), gone, at, k);
  }
}

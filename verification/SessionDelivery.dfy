/** Whole runs of a session history, against the log of everything that ever arrived. */
module SessionDelivery {
  import opened Bytes
  import opened SessionHistory

  /** What happens to a history. The limit of a retrieve is any integer: the endpoint takes it from the request. */
  datatype Event<T> =
    | Arrive(item: T)
    | Retrieve(start: Key, limit: Option<int>, now: real)
    | Clear(gone: Key, at: real)
    | SetClearTime(time: real)

  /** One session's record: arrivals at its registration, where in the log its deliveries begin, all it was given so
      far, and arrivals at its last retrieve. */
  datatype Record<T> = Record(registered: nat, first: nat, given: seq<T>, lastSeen: nat)

  /** A history together with the log of arrivals, the number of them cleared, and a record per live session. */
  datatype Tracked<T> = Tracked(h: Store<T>, log: seq<T>, base: nat, records: map<string, Record<T>>)

  function Begin<T>(keeps: bool): Tracked<T> {
    Tracked(Store(keeps, [], map[], map[], -1.0, 0, map[], map[]), [], 0, map[])
  }

  /** A limit that does not send a cursor back. */
  predicate Forward(limit: Option<int>) {
    limit.None? || limit.value >= 0
  }

  /** The records after a retrieve: a new session is entered, then the batch is added to what it was given. */
  function Delivered<T>(tr: Tracked<T>, start: Key, limit: Option<int>, now: real): map<string, Record<T>>
    requires OffsetsKnown(tr.h)
  {
    if start.None? then tr.records
    else
      var n := |tr.log|;
      var r := if start in tr.h.cursors && start.value in tr.records then tr.records[start.value]
               else Record(n, if tr.h.keeps then 0 else n, [], n);
      tr.records[start.value := r.(given := r.given + Batch(Prepared(tr.h, start, now), start, limit), lastSeen := n)]
  }

  ghost function Next<T>(tr: Tracked<T>, e: Event<T>): Tracked<T>
    requires OffsetsKnown(tr.h)
  {
    match e
    case Arrive(item) =>
      tr.(h := tr.h.(objects := tr.h.objects + [item], count := tr.h.count + 1), log := tr.log + [item])
    case Retrieve(start, limit, now) =>
      tr.(h := Retrieved(tr.h, start, limit, now), records := Delivered(tr, start, limit, now))
    case Clear(gone, at) =>
      var h := Cleared(tr.h, gone, at);
      var dropped := |tr.h.objects| - |h.objects|;
      Tracked(h, tr.log, if dropped >= 0 then tr.base + dropped else tr.base,
              map k | k in tr.records && Some(k) in h.cursors :: tr.records[k])
    case SetClearTime(time) => tr.(h := tr.h.(clearTime := time))
  }

  // ---------------------------------------------------------------- what holds in every run

  /** A live session's counters. */
  ghost predicate CountersOk<T>(tr: Tracked<T>, k: string)
    requires k in tr.records
  {
    var r := tr.records[k];
    && r.registered <= r.lastSeen <= |tr.log|
    && r.first == (if tr.h.keeps then 0 else r.registered)
    && k in tr.h.lastRequest
    && k in tr.h.offsets && tr.h.offsets[k] == r.registered
    && k in tr.h.values && tr.h.values[k] == r.lastSeen - r.registered
  }

  ghost predicate StoreOk<T>(tr: Tracked<T>) {
    && tr.base <= |tr.log|
    && tr.h.objects == tr.log[tr.base..]
    && tr.h.count == |tr.log|
    && (tr.h.keeps ==> tr.base == 0)
    && (forall k :: k in tr.records <==> Some(k) in tr.h.cursors)
    && OffsetsKnown(tr.h)
  }

  ghost predicate Sane<T>(tr: Tracked<T>) {
    StoreOk(tr) && forall k | k in tr.records :: CountersOk(tr, k)
  }

  lemma NextKeepsSane<T>(tr: Tracked<T>, e: Event<T>)
    requires Sane(tr)
    ensures Sane(Next(tr, e)) && Next(tr, e).h.keeps == tr.h.keeps
  {
    match e
    case Arrive(item) =>
      var after := Next(tr, e);
      assert after.log[after.base..] == tr.log[tr.base..] + [item];
      CountersStay(tr, after);
    case Retrieve(start, limit, now) => RetrieveKeepsSane(tr, start, limit, now);
    case Clear(gone, at) => ClearKeepsSane(tr, gone, at);
    case SetClearTime(time) => CountersStay(tr, Next(tr, e));
  }

  lemma RetrieveKeepsSane<T>(tr: Tracked<T>, start: Key, limit: Option<int>, now: real)
    requires Sane(tr)
    ensures Sane(Next(tr, Event.Retrieve(start, limit, now)))
  {
    var after := Next(tr, Event.Retrieve(start, limit, now));
    RetrieveKeepsStore(tr, start, limit, now);
    forall k | k in after.records ensures CountersOk(after, k) {
      RetrieveKeepsCounters(tr, start, limit, now, k);
    }
  }

  lemma RetrieveKeepsStore<T>(tr: Tracked<T>, start: Key, limit: Option<int>, now: real)
    requires StoreOk(tr)
    ensures StoreOk(Next(tr, Event.Retrieve(start, limit, now)))
  {
    var h := Retrieved(tr.h, start, limit, now);
    assert h.cursors.Keys == tr.h.cursors.Keys + {start};
  }

  lemma RetrieveKeepsCounters<T>(tr: Tracked<T>, start: Key, limit: Option<int>, now: real, k: string)
    requires Sane(tr) && k in Next(tr, Event.Retrieve(start, limit, now)).records
    ensures CountersOk(Next(tr, Event.Retrieve(start, limit, now)), k)
  {
    if k in tr.records {
      assert CountersOk(tr, k);
    }
  }

  lemma ClearKeepsSane<T>(tr: Tracked<T>, gone: Key, at: real)
    requires Sane(tr)
    ensures Sane(Next(tr, Clear(gone, at)))
  {
    var after := Next(tr, Clear(gone, at));
    ClearDropsFront(tr.h, gone, at);
    StillHeld(tr.log, tr.base, after.base - tr.base);
    forall k | k in after.records ensures CountersOk(after, k) {
      assert CountersOk(tr, k);
      ExpiredLeaves(tr.h, gone, at, k);
    }
  }

  lemma CountersStay<T>(tr: Tracked<T>, after: Tracked<T>)
    requires Sane(tr) && after.records == tr.records && tr.log <= after.log && after.h.keeps == tr.h.keeps
    requires after.h.(objects := tr.h.objects, count := tr.h.count, clearTime := tr.h.clearTime) == tr.h
    ensures forall k | k in after.records :: CountersOk(after, k)
  {
    forall k | k in after.records ensures CountersOk(after, k) {
      assert CountersOk(tr, k);
    }
  }

  // ---------------------------------------------------------------- clearing

  /** The cursors that survive a clear, before they are shifted. */
  function Left<T>(h: Store<T>, gone: Key, at: real): map<Key, int> {
    var cursors := h.cursors - (set k | k in Expired(h, at) :: Some(k));
    if gone.Some? then cursors - {gone} else cursors
  }

  lemma ClearDropsFront<T>(h: Store<T>, gone: Key, at: real)
    ensures var after := Cleared(h, gone, at); var n := |h.objects| - |after.objects|;
      && 0 <= n && after.objects == h.objects[n..]
      && (if h.keeps then after == h else after.cursors.Keys == Left(h, gone, at).Keys)
      && after.cursors.Keys <= h.cursors.Keys
      && after == h.(objects := after.objects, cursors := after.cursors, lastRequest := after.lastRequest)
  {
  }

  lemma ExpiredLeaves<T>(h: Store<T>, gone: Key, at: real, k: string)
    requires k in h.lastRequest && Some(k) in Cleared(h, gone, at).cursors
    ensures k in Cleared(h, gone, at).lastRequest
  {
    if !h.keeps {
      ClearDropsFront(h, gone, at);
      assert Some(k) in Left(h, gone, at);
    }
  }

  /** The clear drops only items that every surviving session has passed. */
  ghost predicate DropsOnlySeen<T>(h: Store<T>, gone: Key, at: real) {
    var n := |h.objects| - |Cleared(h, gone, at).objects|;
    forall c | c in Cleared(h, gone, at).cursors && c in h.cursors ::
      n <= (if h.cursors[c] > 0 then h.cursors[c] else 0)
  }

  /** No cursor is negative, or one is so far below zero that nothing is dropped at all. */
  predicate SafeToClear(left: map<Key, int>, size: nat) {
    (forall c | c in left :: left[c] >= 0) || exists c :: c in left && left[c] + size <= 0
  }

  /** In any state: clearing drops only what every surviving session has passed if and only if no surviving cursor is
      negative, or one is so far below zero that nothing is dropped at all. */
  lemma ClearSafeIff<T>(h: Store<T>, gone: Key, at: real)
    ensures DropsOnlySeen(h, gone, at) <==> h.keeps || SafeToClear(Left(h, gone, at), |h.objects|)
  {
    if !h.keeps {
      var left := Left(h, gone, at);
      var n := Bound(Earliest(left), |h.objects|);
      ClearDropsFront(h, gone, at);
      HowMany(h, gone, at);
      SurvivorsOnly(h.cursors, left, Cleared(h, gone, at).cursors.Keys, n);
      LeastDecides(left, |h.objects|);
    }
  }

  lemma HowMany<T>(h: Store<T>, gone: Key, at: real)
    requires !h.keeps
    ensures |h.objects| - |Cleared(h, gone, at).objects| == Bound(Earliest(Left(h, gone, at)), |h.objects|)
  {
  }

  lemma SurvivorsOnly(cursors: map<Key, int>, left: map<Key, int>, survivors: set<Key>, n: nat)
    requires survivors == left.Keys && forall c | c in left :: c in cursors && cursors[c] == left[c]
    ensures (forall c | c in survivors && c in cursors :: n <= (if cursors[c] > 0 then cursors[c] else 0))
      <==> forall c | c in left :: n <= (if left[c] > 0 then left[c] else 0)
  {
    if forall c | c in survivors && c in cursors :: n <= (if cursors[c] > 0 then cursors[c] else 0) {
      forall c | c in left ensures n <= (if left[c] > 0 then left[c] else 0) {
        assert c in survivors && c in cursors;
      }
    }
  }

  /** Dropping up to the least cursor, read as a Python slice bound. */
  lemma LeastDecides(left: map<Key, int>, size: nat)
    ensures (forall c | c in left :: Bound(Earliest(left), size) <= (if left[c] > 0 then left[c] else 0))
      <==> SafeToClear(left, size)
  {
    if left != map[] {
      var c :| c in left && left[c] == Earliest(left);
    }
  }

  /** With cursors inside the list, as runs keep them: the items dropped are as many as the least surviving cursor
      allows, it ends at 0, and nothing is dropped when no cursor survives. */
  lemma ClearDropsOnlySeen<T>(h: Store<T>, gone: Key, at: real)
    requires forall c | c in h.cursors :: 0 <= h.cursors[c] <= |h.objects|
    ensures var after := Cleared(h, gone, at); var n := |h.objects| - |after.objects|;
      && 0 <= n && after.objects == h.objects[n..]
      && (forall c | c in after.cursors ::
            c in h.cursors && after.cursors[c] == h.cursors[c] - n && 0 <= after.cursors[c] <= |after.objects|)
      && (after.cursors == map[] && !h.keeps ==> n == 0)
      && (after.cursors != map[] && !h.keeps ==> exists c :: c in after.cursors && after.cursors[c] == 0)
  {
    if !h.keeps {
      ClearDropsFront(h, gone, at);
      assert forall c | c in Left(h, gone, at) :: 0 <= Left(h, gone, at)[c] <= |h.objects|;
      Shifted(Left(h, gone, at), Cleared(h, gone, at).cursors, h.objects);
    }
  }

  /** Cursors shifted down by the least of them. */
  lemma Shifted<T>(left: map<Key, int>, after: map<Key, int>, objects: seq<T>)
    requires forall c | c in left :: 0 <= left[c] <= |objects|
    requires after == map c | c in left :: left[c] - Earliest(left)
    ensures var n := Bound(Earliest(left), |objects|);
      && n == Earliest(left) && |objects| - |objects[n..]| == n
      && (forall c | c in after :: c in left && after[c] == left[c] - n && 0 <= after[c] <= |objects| - n)
      && (after == map[] ==> n == 0)
      && (after != map[] ==> exists c :: c in after && after[c] == 0)
  {
    if left == map[] {
      assert after == map[];
    } else {
      var c :| c in left && left[c] == Earliest(left);
      assert c in after && after[c] == 0;
    }
  }

  /** A session survives a clear exactly when it is not the one named and has not let its time run out. */
  lemma ClearKeepsLiveSessions<T>(tr: Tracked<T>, gone: Key, at: real, k: string)
    requires Sane(tr) && k in tr.records && !tr.h.keeps
    ensures k in Next(tr, Clear(gone, at)).records <==>
      gone != Some(k) && (tr.h.clearTime > 0.0 ==> tr.h.lastRequest[k] + tr.h.clearTime >= at)
    ensures k in Next(tr, Clear(gone, at)).records ==> Next(tr, Clear(gone, at)).records[k] == tr.records[k]
  {
    assert CountersOk(tr, k);
    var some := set j | j in Expired(tr.h, at) :: Some(j);
    assert Some(k) in some <==> k in Expired(tr.h, at);
  }

  // ---------------------------------------------------------------- delivery

  /** All a session was given is the contiguous slice of the log from where its deliveries began to its cursor, and all
      it has not been given is still held. */
  ghost predicate ExactlyOnce<T>(tr: Tracked<T>, k: string) {
    && k in tr.records && Some(k) in tr.h.cursors && tr.base <= |tr.log|
    && 0 <= tr.h.cursors[Some(k)] <= |tr.h.objects|
    && var r, at := tr.records[k], tr.base + tr.h.cursors[Some(k)];
      && r.first <= at <= |tr.log|
      && r.given == tr.log[r.first..at]
      && tr.h.objects[tr.h.cursors[Some(k)]..] == tr.log[at..]
  }

  /** A live session's record agrees with its cursor and the log. */
  ghost predicate RecordOk<T>(tr: Tracked<T>, k: string)
    requires k in tr.records && Some(k) in tr.h.cursors
  {
    var r, at := tr.records[k], tr.base + tr.h.cursors[Some(k)];
    0 <= r.first <= at <= r.lastSeen <= |tr.log| && r.given == tr.log[r.first..at]
  }

  ghost predicate CursorsInside<T>(tr: Tracked<T>) {
    forall c | c in tr.h.cursors :: 0 <= tr.h.cursors[c] <= |tr.h.objects|
  }

  ghost predicate Inv<T>(tr: Tracked<T>) {
    Sane(tr) && CursorsInside(tr) && forall k | k in tr.records :: RecordOk(tr, k)
  }

  lemma InvDelivers<T>(tr: Tracked<T>, k: string)
    requires Inv(tr) && k in tr.records
    ensures ExactlyOnce(tr, k)
  {
    assert RecordOk(tr, k);
    StillHeld(tr.log, tr.base, tr.h.cursors[Some(k)]);
  }

  lemma StillHeld<T>(log: seq<T>, base: nat, cursor: int)
    requires base <= |log| && 0 <= cursor <= |log| - base
    ensures log[base..][cursor..] == log[base + cursor..]
  {
  }

  lemma ArriveKeepsInv<T>(tr: Tracked<T>, item: T)
    requires Inv(tr)
    ensures Inv(Next(tr, Arrive(item)))
  {
    NextKeepsSane(tr, Arrive(item));
    var after := Next(tr, Arrive(item));
    forall k | k in after.records ensures RecordOk(after, k) {
      assert RecordOk(tr, k);
      var r, at := tr.records[k], tr.base + tr.h.cursors[Some(k)];
      assert after.log[r.first..at] == tr.log[r.first..at];
    }
  }

  /** What one retrieve does. Its end is never before its start if and only if the limit is absent or not negative; then
      it delivers the contiguous slice of the log from the session's position, up to the limit. */
  lemma RetrieveDelivers<T>(tr: Tracked<T>, start: Key, limit: Option<int>, now: real)
    requires Inv(tr)
    ensures var p := Prepared(tr.h, start, now);
      var from := tr.base + From(p, start); var to := tr.base + To(p, start, limit);
      && tr.base <= from <= |tr.log|
      && (start.Some? ==> from == if start in tr.h.cursors then tr.base + tr.h.cursors[start]
                                  else if tr.h.keeps then 0 else |tr.log|)
      && (from <= to <==> Forward(limit))
      && (Forward(limit) ==>
        && to <= |tr.log| && Batch(p, start, limit) == tr.log[from..to]
        && to == (if limit.Some? && from + limit.value <= |tr.log| then from + limit.value else |tr.log|))
  {
    var p := Prepared(tr.h, start, now);
    RetrieveStart(tr, start, now);
    RetrieveBounds(|p.objects|, From(p, start), limit);
    if Forward(limit) {
      SliceOfTail(tr.log, tr.base, From(p, start), To(p, start, limit));
    }
  }

  /** Where a retrieve starts: inside the list. */
  lemma RetrieveStart<T>(tr: Tracked<T>, start: Key, now: real)
    requires StoreOk(tr) && CursorsInside(tr)
    ensures var p := Prepared(tr.h, start, now);
      && p.objects == tr.h.objects && 0 <= From(p, start) <= |p.objects|
      && (start.Some? ==> From(p, start) == if start in tr.h.cursors then tr.h.cursors[start]
                                            else if tr.h.keeps then 0 else |tr.h.objects|)
  {
  }

  lemma RetrieveBounds(size: nat, from: int, limit: Option<int>)
    requires 0 <= from <= size
    ensures var to := Min(size, from + limit.GetOr(size));
      && (from <= to <==> Forward(limit))
      && (Forward(limit) ==> to == if limit.Some? && from + limit.value <= size then from + limit.value else size)
  {
  }

  lemma SliceOfTail<T>(log: seq<T>, base: nat, i: int, j: int)
    requires base <= |log| && 0 <= i <= j <= |log| - base
    ensures Slice(log[base..], i, j) == log[base + i..base + j]
  {
  }

  lemma RetrieveKeepsInside<T>(tr: Tracked<T>, start: Key, limit: Option<int>, now: real)
    requires Inv(tr) && Forward(limit)
    ensures CursorsInside(Next(tr, Event.Retrieve(start, limit, now)))
  {
    var p := Prepared(tr.h, start, now);
    assert 0 <= To(p, start, limit) <= |tr.h.objects|;
    assert forall c | c in p.cursors :: 0 <= p.cursors[c] <= |tr.h.objects|;
  }

  lemma RetrieveKeepsOthers<T>(tr: Tracked<T>, start: Key, limit: Option<int>, now: real, j: string)
    requires Inv(tr) && j in tr.records && start != Some(j)
    ensures var after := Next(tr, Event.Retrieve(start, limit, now));
      j in after.records && Some(j) in after.h.cursors && RecordOk(after, j)
  {
    assert RecordOk(tr, j);
  }

  lemma RetrieveKeepsInv<T>(tr: Tracked<T>, start: Key, limit: Option<int>, now: real)
    requires Inv(tr) && Forward(limit)
    ensures Inv(Next(tr, Event.Retrieve(start, limit, now)))
  {
    NextKeepsSane(tr, Event.Retrieve(start, limit, now));
    RetrieveKeepsInside(tr, start, limit, now);
    var after := Next(tr, Event.Retrieve(start, limit, now));
    forall j | j in after.records ensures RecordOk(after, j) {
      if start == Some(j) {
        RetrievedRecordOk(tr, j, limit, now);
      } else {
        RetrieveKeepsOthers(tr, start, limit, now, j);
      }
    }
  }

  lemma RetrievedRecordOk<T>(tr: Tracked<T>, k: string, limit: Option<int>, now: real)
    requires Inv(tr) && Forward(limit)
    ensures var after := Next(tr, Event.Retrieve(Some(k), limit, now));
      k in after.records && Some(k) in after.h.cursors && RecordOk(after, k)
  {
    RetrieveDelivers(tr, Some(k), limit, now);
    if Some(k) in tr.h.cursors {
      KnownRecordOk(tr, k, limit, now);
    } else {
      var p := Prepared(tr.h, Some(k), now);
      var from, to := tr.base + From(p, Some(k)), tr.base + To(p, Some(k), limit);
      assert [] + tr.log[from..to] == tr.log[from..to];
    }
  }

  lemma KnownRecordOk<T>(tr: Tracked<T>, k: string, limit: Option<int>, now: real)
    requires Inv(tr) && Forward(limit) && k in tr.records
    ensures var after := Next(tr, Event.Retrieve(Some(k), limit, now));
      k in after.records && Some(k) in after.h.cursors && RecordOk(after, k)
  {
    RetrieveDelivers(tr, Some(k), limit, now);
    var p := Prepared(tr.h, Some(k), now);
    var from, to := tr.base + From(p, Some(k)), tr.base + To(p, Some(k), limit);
    assert RecordOk(tr, k);
    Joined(tr.log, tr.records[k].first, from, to);
    RetrieveEnters(tr, k, limit, now);
    KnownGiven(tr, k, limit, now);
  }

  /** What a known session's record becomes. */
  lemma KnownGiven<T>(tr: Tracked<T>, k: string, limit: Option<int>, now: real)
    requires OffsetsKnown(tr.h) && k in tr.records && Some(k) in tr.h.cursors
    ensures var after := Next(tr, Event.Retrieve(Some(k), limit, now)); var p := Prepared(tr.h, Some(k), now);
      && k in after.records && Some(k) in after.h.cursors && after.log == tr.log && after.base == tr.base
      && after.h.cursors[Some(k)] == To(p, Some(k), limit)
      && after.records[k]
        == tr.records[k].(given := tr.records[k].given + Batch(p, Some(k), limit), lastSeen := |tr.log|)
  {
  }

  lemma Joined<T>(log: seq<T>, a: nat, b: nat, c: nat)
    requires a <= b <= c <= |log|
    ensures log[a..b] + log[b..c] == log[a..c]
  {
  }

  /** A negative limit leaves the session's cursor before what it was given, or before the list. */
  lemma BackwardBreaks<T>(tr: Tracked<T>, k: string, limit: Option<int>, now: real)
    requires Inv(tr) && !Forward(limit)
    ensures !ExactlyOnce(Next(tr, Event.Retrieve(Some(k), limit, now)), k)
  {
    RetrieveDelivers(tr, Some(k), limit, now);
    if Some(k) in tr.h.cursors {
      assert RecordOk(tr, k);
    }
  }

  lemma BackwardLeavesInv<T>(tr: Tracked<T>, start: Key, limit: Option<int>, now: real)
    requires Inv(tr) && !Forward(limit)
    ensures !Inv(Next(tr, Event.Retrieve(start, limit, now)))
  {
    var after := Next(tr, Event.Retrieve(start, limit, now));
    if start.Some? {
      BackwardBreaks(tr, start.value, limit, now);
      if Inv(after) {
        assert start in after.h.cursors;
        InvDelivers(after, start.value);
      }
    } else {
      assert start in after.h.cursors && after.h.cursors[start] < 0;
    }
  }

  lemma ClearKeepsInv<T>(tr: Tracked<T>, gone: Key, at: real)
    requires Inv(tr)
    ensures Inv(Next(tr, Clear(gone, at)))
  {
    ClearKeepsSane(tr, gone, at);
    var after := Next(tr, Clear(gone, at));
    ClearKeepsInside(tr, gone, at);
    forall k | k in after.records ensures RecordOk(after, k) {
      assert RecordOk(tr, k);
      ClearKeepsPosition(tr, gone, at, k);
    }
  }

  lemma ClearKeepsInside<T>(tr: Tracked<T>, gone: Key, at: real)
    requires CursorsInside(tr) && OffsetsKnown(tr.h)
    ensures CursorsInside(Next(tr, Clear(gone, at)))
  {
    ClearDropsOnlySeen(tr.h, gone, at);
  }

  /** A surviving session's position in the log stays. */
  lemma ClearKeepsPosition<T>(tr: Tracked<T>, gone: Key, at: real, k: string)
    requires CursorsInside(tr) && OffsetsKnown(tr.h) && k in Next(tr, Clear(gone, at)).records
    ensures var after := Next(tr, Clear(gone, at));
      && Some(k) in after.h.cursors && Some(k) in tr.h.cursors
      && after.records[k] == tr.records[k] && after.log == tr.log
      && after.base + after.h.cursors[Some(k)] == tr.base + tr.h.cursors[Some(k)]
  {
    ClearDropsOnlySeen(tr.h, gone, at);
  }

  lemma SetTimeKeepsInv<T>(tr: Tracked<T>, time: real)
    requires Inv(tr)
    ensures Inv(Next(tr, SetClearTime(time)))
  {
    NextKeepsSane(tr, SetClearTime(time));
    forall k | k in tr.records ensures RecordOk(Next(tr, SetClearTime(time)), k) {
      assert RecordOk(tr, k);
    }
  }

  /** An event that keeps delivery exact. */
  predicate Harmless<T>(e: Event<T>) {
    e.Retrieve? ==> Forward(e.limit)
  }

  /** From any state in which every session's deliveries are exact, an event keeps them so if and only if it is not a
      retrieve with a negative limit: by a known session, a new one or none, in either history. */
  lemma NextKeepsInvIff<T>(tr: Tracked<T>, e: Event<T>)
    requires Inv(tr)
    ensures Inv(Next(tr, e)) <==> Harmless(e)
  {
    match e
    case Arrive(item) => ArriveKeepsInv(tr, item);
    case Retrieve(start, limit, now) =>
      if Forward(limit) {
        RetrieveKeepsInv(tr, start, limit, now);
      } else {
        BackwardLeavesInv(tr, start, limit, now);
      }
    case Clear(gone, at) => ClearKeepsInv(tr, gone, at);
    case SetClearTime(time) => SetTimeKeepsInv(tr, time);
  }

  // ---------------------------------------------------------------- whole runs

  lemma NextKeepsOffsets<T>(tr: Tracked<T>, e: Event<T>)
    requires OffsetsKnown(tr.h)
    ensures OffsetsKnown(Next(tr, e).h)
  {
    if e.Clear? {
      ClearDropsFront(tr.h, e.gone, e.at);
    }
  }

  /** The state after a run of events, from a new history. */
  ghost function Run<T>(keeps: bool, events: seq<Event<T>>): (tr: Tracked<T>)
    ensures OffsetsKnown(tr.h)
  {
    if events == [] then Begin(keeps)
    else
      var before := Run(keeps, events[..|events| - 1]);
      NextKeepsOffsets(before, events[|events| - 1]);
      Next(before, events[|events| - 1])
  }

  lemma {:induction false} RunIsSane<T>(keeps: bool, events: seq<Event<T>>)
    ensures Sane(Run(keeps, events)) && Run(keeps, events).h.keeps == keeps
    decreases |events|
  {
    if events != [] {
      RunIsSane(keeps, events[..|events| - 1]);
      NextKeepsSane(Run(keeps, events[..|events| - 1]), events[|events| - 1]);
    }
  }

  /** Everything that arrives, in order. */
  function Arrivals<T>(events: seq<Event<T>>): seq<T> {
    if events == [] then []
    else if events[|events| - 1].Arrive? then Arrivals(events[..|events| - 1]) + [events[|events| - 1].item]
    else Arrivals(events[..|events| - 1])
  }

  lemma {:induction false} LogIsArrivals<T>(keeps: bool, events: seq<Event<T>>)
    ensures Run(keeps, events).log == Arrivals(events)
    decreases |events|
  {
    if events != [] {
      LogIsArrivals(keeps, events[..|events| - 1]);
    }
  }

  predicate AllHarmless<T>(events: seq<Event<T>>) {
    forall i | 0 <= i < |events| :: Harmless(events[i])
  }

  lemma {:induction false} RunKeepsInv<T>(keeps: bool, events: seq<Event<T>>)
    requires AllHarmless(events)
    ensures Inv(Run(keeps, events))
    decreases |events|
  {
    if events != [] {
      RunKeepsInv(keeps, events[..|events| - 1]);
      NextKeepsInvIff(Run(keeps, events[..|events| - 1]), events[|events| - 1]);
    }
  }

  /** Deliveries are exact all along a run if and only if no retrieve in it has a negative limit. */
  lemma {:induction false} RunDeliversIff<T>(keeps: bool, events: seq<Event<T>>)
    ensures (forall n: nat | n <= |events| :: Inv(Run(keeps, events[..n]))) <==> AllHarmless(events)
    decreases |events|
  {
    if AllHarmless(events) {
      forall n: nat | n <= |events| ensures Inv(Run(keeps, events[..n])) {
        RunKeepsInv(keeps, events[..n]);
      }
    }
    if forall n: nat | n <= |events| :: Inv(Run(keeps, events[..n])) {
      forall i | 0 <= i < |events| ensures Harmless(events[i]) {
        assert events[..i + 1][..i] == events[..i];
        NextKeepsInvIff(Run(keeps, events[..i]), events[i]);
      }
    }
  }

  /** Exactly-once delivery. Over any run of arrivals, retrieves by any sessions with or without limits, clears and
      expiries: all a live session was ever given, batch after batch, is the contiguous slice of the arrivals from where
      it registered (from the very first, in the non-clearing history) to its cursor, and all it has not been given is
      still held; provided no retrieve had a negative limit, and not beyond the first that has one. */
  lemma ExactlyOnceDelivery<T>(keeps: bool, events: seq<Event<T>>, k: string)
    ensures var tr := Run(keeps, events);
      AllHarmless(events) && k in tr.records ==>
        var r := tr.records[k];
        && Some(k) in tr.h.cursors
        && 0 <= tr.h.cursors[Some(k)] <= |tr.h.objects|
        && var at := tr.base + tr.h.cursors[Some(k)];
          && 0 <= r.first <= at <= |Arrivals(events)|
          && r.first == (if keeps then 0 else r.registered)
          && r.given == Arrivals(events)[r.first..at]
          && tr.h.objects[tr.h.cursors[Some(k)]..] == Arrivals(events)[at..]
  {
    LogIsArrivals(keeps, events);
    RunIsSane(keeps, events);
    var tr := Run(keeps, events);
    if AllHarmless(events) && k in tr.records {
      RunKeepsInv(keeps, events);
      InvDelivers(tr, k);
      assert CountersOk(tr, k);
    }
  }

  lemma RunStep<T>(keeps: bool, before: seq<Event<T>>, e: Event<T>)
    ensures Run(keeps, before + [e]) == Next(Run(keeps, before), e)
  {
    assert (before + [e])[..|before|] == before;
  }

  /** After such a run, a session's next retrieve leaves its deliveries exact if and only if its limit is absent or not
      negative, whether or not the session is new. */
  lemma RetrieveDeliversIff<T>(keeps: bool, before: seq<Event<T>>, k: string, limit: Option<int>, now: real)
    requires AllHarmless(before)
    ensures ExactlyOnce(Run(keeps, before + [Event.Retrieve(Some(k), limit, now)]), k) <==> Forward(limit)
  {
    var e: Event<T> := Event.Retrieve(Some(k), limit, now);
    var tr := Run(keeps, before);
    RunKeepsInv(keeps, before);
    RunStep(keeps, before, e);
    if Forward(limit) {
      RetrieveKeepsInv(tr, Some(k), limit, now);
      InvDelivers(Next(tr, e), k);
    } else {
      BackwardBreaks(tr, k, limit, now);
    }
  }

  /** The seen counter of a live session counts the arrivals between its registration and its last retrieve, in any run
      at all; without a session it counts every arrival. In the clearing history it is at least what the session was
      given; the non-clearing history holds every arrival. */
  lemma CountersAgree<T>(keeps: bool, events: seq<Event<T>>, k: string)
    ensures var tr := Run(keeps, events);
      && SeenCount(tr.h, None) == tr.h.count == |Arrivals(events)|
      && (keeps ==> tr.h.objects == Arrivals(events))
      && (k in tr.records ==>
        var r := tr.records[k];
        && r.registered <= r.lastSeen <= tr.h.count
        && SeenCount(tr.h, Some(k)) == r.lastSeen - r.registered
        && k in tr.h.offsets && tr.h.offsets[k] == r.registered
        && (AllHarmless(events) ==>
              |r.given| <= SeenCount(tr.h, Some(k)) + (if keeps then tr.h.offsets[k] else 0)))
  {
    LogIsArrivals(keeps, events);
    RunIsSane(keeps, events);
    var tr := Run(keeps, events);
    if k in tr.records {
      assert CountersOk(tr, k);
      if AllHarmless(events) {
        RunKeepsInv(keeps, events);
        GivenCounted(tr, k);
      }
    }
  }

  lemma GivenCounted<T>(tr: Tracked<T>, k: string)
    requires Inv(tr) && k in tr.records
    ensures k in tr.h.offsets
    ensures |tr.records[k].given| <= SeenCount(tr.h, Some(k)) + (if tr.h.keeps then tr.h.offsets[k] else 0)
  {
    assert RecordOk(tr, k) && CountersOk(tr, k);
  }

  /** Right after a retrieve, whatever its limit, that leaves the session's cursor at the end, the clearing history's
      count equals what the session was given, and the non-clearing history has given it offset plus count items: every
      arrival. */
  lemma CaughtUp<T>(tr: Tracked<T>, k: string, limit: Option<int>, now: real)
    requires Inv(tr)
    ensures var after := Next(tr, Event.Retrieve(Some(k), limit, now));
      && k in after.records && k in after.h.offsets && Some(k) in after.h.cursors
      && (limit.None? ==> after.h.cursors[Some(k)] == |after.h.objects|)
      && (after.h.cursors[Some(k)] == |after.h.objects| ==>
        var r := after.records[k];
        && |r.given| == SeenCount(after.h, Some(k)) + (if tr.h.keeps then after.h.offsets[k] else 0)
        && r.first <= |tr.log| && r.given == tr.log[r.first..])
  {
    RetrieveEnters(tr, k, limit, now);
    RetrieveKeepsSane(tr, Some(k), limit, now);
    if Forward(limit) {
      RetrieveKeepsInv(tr, Some(k), limit, now);
      ReadCaughtUp(Next(tr, Event.Retrieve(Some(k), limit, now)), k);
    }
  }

  lemma RetrieveEnters<T>(tr: Tracked<T>, k: string, limit: Option<int>, now: real)
    requires StoreOk(tr) && CursorsInside(tr)
    ensures var after := Next(tr, Event.Retrieve(Some(k), limit, now));
      && k in after.records && after.records[k].lastSeen == |tr.log|
      && Some(k) in after.h.cursors && k in after.h.offsets
      && after.log == tr.log && after.h.objects == tr.h.objects && after.h.keeps == tr.h.keeps
      && (!Forward(limit) ==> after.h.cursors[Some(k)] < |after.h.objects|)
      && (limit.None? ==> after.h.cursors[Some(k)] == |after.h.objects|)
  {
    var p := Prepared(tr.h, Some(k), now);
    RetrieveStart(tr, Some(k), now);
    RetrieveBounds(|p.objects|, From(p, Some(k)), limit);
  }

  lemma ReadCaughtUp<T>(tr: Tracked<T>, k: string)
    requires Inv(tr) && k in tr.records && tr.records[k].lastSeen == |tr.log|
    ensures k in tr.h.offsets
    ensures tr.h.cursors[Some(k)] == |tr.h.objects| ==>
      && |tr.records[k].given| == SeenCount(tr.h, Some(k)) + (if tr.h.keeps then tr.h.offsets[k] else 0)
      && tr.records[k].first <= |tr.log| && tr.records[k].given == tr.log[tr.records[k].first..]
  {
    assert RecordOk(tr, k) && CountersOk(tr, k);
  }

  // ---------------------------------------------------------------- what a negative limit does

  function Ask<T>(k: string, limit: Option<int>): Event<T> {
    Event.Retrieve(Some(k), limit, 0.0)
  }

  /** A known session's retrieve. */
  lemma NextAsk<T>(tr: Tracked<T>, k: string, limit: Option<int>)
    requires OffsetsKnown(tr.h) && k in tr.records && Some(k) in tr.h.cursors
    ensures var after := Next(tr, Ask(k, limit));
      var from := tr.h.cursors[Some(k)]; var to := Min(|tr.h.objects|, from + limit.GetOr(|tr.h.objects|));
      && after.h.objects == tr.h.objects && after.h.clearTime == tr.h.clearTime && after.log == tr.log
      && after.h.cursors == tr.h.cursors[Some(k) := to]
      && after.records == tr.records[k := tr.records[k].(given := tr.records[k].given + Slice(tr.h.objects, from, to),
                                                         lastSeen := |tr.log|)]
  {
  }

  lemma NextAskNew<T>(tr: Tracked<T>, k: string, limit: Option<int>)
    requires OffsetsKnown(tr.h) && k !in tr.records && Some(k) !in tr.h.cursors && !tr.h.keeps
    ensures var after := Next(tr, Ask(k, limit));
      var from := |tr.h.objects|; var to := Min(from, from + limit.GetOr(from));
      && after.h.objects == tr.h.objects && after.h.clearTime == tr.h.clearTime && after.log == tr.log
      && after.h.cursors == tr.h.cursors[Some(k) := to]
      && after.records == tr.records[k := Record(|tr.log|, |tr.log|, Slice(tr.h.objects, from, to), |tr.log|)]
  {
    var from := |tr.h.objects|; var to := Min(from, from + limit.GetOr(from));
    assert [] + Slice(tr.h.objects, from, to) == Slice(tr.h.objects, from, to);
  }

  /** The part of a clearing history's state that decides what is delivered. */
  ghost predicate Shows<T>(events: seq<Event<T>>, objects: seq<T>, log: seq<T>, cursors: map<Key, int>,
                           records: map<string, Record<T>>) {
    var tr := Run(false, events);
    && !tr.h.keeps && tr.h.clearTime <= 0.0
    && tr.h.objects == objects && tr.log == log && tr.h.cursors == cursors && tr.records == records
  }

  lemma ShowsNothing<T>()
    ensures Shows<T>([], [], [], map[], map[])
  {
  }

  lemma AskKnown<T>(events: seq<Event<T>>, objects: seq<T>, log: seq<T>, cursors: map<Key, int>,
                    records: map<string, Record<T>>, k: string, limit: Option<int>, to: int, batch: seq<T>)
    requires Shows(events, objects, log, cursors, records) && k in records && Some(k) in cursors
    requires to == Min(|objects|, cursors[Some(k)] + limit.GetOr(|objects|))
    requires batch == Slice(objects, cursors[Some(k)], to)
    ensures Shows(events + [Ask(k, limit)], objects, log, cursors[Some(k) := to],
                  records[k := records[k].(given := records[k].given + batch, lastSeen := |log|)])
  {
    RunStep(false, events, Ask(k, limit));
    NextAsk(Run(false, events), k, limit);
  }

  lemma AskNew<T>(events: seq<Event<T>>, objects: seq<T>, log: seq<T>, cursors: map<Key, int>,
                  records: map<string, Record<T>>, k: string, limit: Option<int>, to: int)
    requires Shows(events, objects, log, cursors, records) && k !in records && Some(k) !in cursors
    requires to == Min(|objects|, |objects| + limit.GetOr(|objects|)) && Slice(objects, |objects|, to) == []
    ensures Shows(events + [Ask(k, limit)], objects, log, cursors[Some(k) := to],
                  records[k := Record(|log|, |log|, [], |log|)])
  {
    RunStep(false, events, Ask(k, limit));
    NextAskNew(Run(false, events), k, limit);
  }

  lemma Arrives<T>(events: seq<Event<T>>, objects: seq<T>, log: seq<T>, cursors: map<Key, int>,
                   records: map<string, Record<T>>, item: T)
    requires Shows(events, objects, log, cursors, records)
    ensures Shows(events + [Arrive(item)], objects + [item], log + [item], cursors, records)
  {
    RunStep(false, events, Arrive(item));
  }

  /** The state of a single session's history with one item. */
  ghost predicate Alone<T>(events: seq<Event<T>>, x: T, cursor: int, r: Record<T>) {
    Shows(events, [x], [x], map[Some("s") := cursor], map["s" := r])
  }

  lemma AskAlone<T>(events: seq<Event<T>>, x: T, cursor: int, r: Record<T>, limit: Option<int>, to: int, batch: seq<T>)
    requires Alone(events, x, cursor, r)
    requires to == Min(1, cursor + limit.GetOr(1)) && batch == Slice([x], cursor, to)
    ensures Alone(events + [Ask("s", limit)], x, to, r.(given := r.given + batch, lastSeen := 1))
  {
    var cursors: map<Key, int>, records := map[Some("s") := cursor], map["s" := r];
    AskKnown(events, [x], [x], cursors, records, "s", limit, to, batch);
    assert cursors[Some("s") := to] == map[Some("s") := to];
    assert records["s" := r.(given := r.given + batch, lastSeen := 1)]
      == map["s" := r.(given := r.given + batch, lastSeen := 1)];
  }

  /** The session registers, and x arrives. */
  lemma OneArrived<T>(x: T)
    ensures Alone([Ask("s", None)] + [Arrive(x)], x, 0, Record(0, 0, [], 0))
  {
    var e0: seq<Event<T>> := [];
    ShowsNothing<T>();
    AskNew(e0, [], [], map[], map[], "s", None, 0);
    assert e0 + [Ask("s", None)] == [Ask("s", None)];
    Arrives([Ask("s", None)], [], [], map[Some("s") := 0], map["s" := Record(0, 0, [], 0)], x);
  }

  /** Given x once, the session asks with limit -1, and then for everything new: it is given x again. */
  lemma GivenAgain<T>(events: seq<Event<T>>, x: T)
    requires Alone(events, x, 1, Record(0, 0, [x], 1))
    ensures Alone(events + [Ask("s", Some(-1))] + [Ask("s", None)], x, 1, Record(0, 0, [x, x], 1))
  {
    var none: seq<T> := [];
    assert [x] + none == [x] && [x] + [x] == [x, x];
    AskAlone(events, x, 1, Record(0, 0, [x], 1), Some(-1), 0, none);
    AskAlone(events + [Ask("s", Some(-1))], x, 0, Record(0, 0, [x], 1), None, 1, [x]);
  }

  /** An item is delivered twice: x arrives once, and the session has been given it twice. */
  lemma NegativeLimitRepeats<T>(x: T)
    ensures Alone([Ask("s", None)] + [Arrive(x)] + [Ask("s", None)] + [Ask("s", Some(-1))] + [Ask("s", None)], x, 1,
                  Record(0, 0, [x, x], 1))
  {
    var none: seq<T> := [];
    assert none + [x] == [x];
    OneArrived(x);
    AskAlone([Ask("s", None)] + [Arrive(x)], x, 0, Record(0, 0, none, 0), None, 1, [x]);
    GivenAgain([Ask("s", None)] + [Arrive(x)] + [Ask("s", None)], x);
  }

  /** A new session is given what arrived before it registered. */
  lemma NegativeLimitReachesBack<T>(x: T)
    ensures Alone([Arrive(x)] + [Ask("s", Some(-1))] + [Ask("s", None)], x, 1, Record(1, 1, [x], 1))
  {
    var e0: seq<Event<T>> := [];
    var none: seq<T> := [];
    ShowsNothing<T>();
    Arrives(e0, [], [], map[], map[], x);
    assert e0 + [Arrive(x)] == [Arrive(x)] && none + [x] == [x];
    AskNew([Arrive(x)], [x], [x], map[], map[], "s", Some(-1), 0);
    AskAlone([Arrive(x)] + [Ask("s", Some(-1))], x, 0, Record(1, 1, none, 1), None, 1, [x]);
  }

  /** Two sessions, registered before anything arrived and given what `s` and `t` say. */
  ghost predicate Both<T>(events: seq<Event<T>>, objects: seq<T>, log: seq<T>, atS: int, atT: int, s: Record<T>,
                          t: Record<T>) {
    Shows(events, objects, log, map[Some("s") := atS, Some("t") := atT], map["s" := s, "t" := t])
  }

  lemma BothRegister<T>()
    ensures var none: Record<T> := Record(0, 0, [], 0);
      Both([Ask("s", None)] + [Ask("t", None)], [], [], 0, 0, none, none)
  {
    var e0: seq<Event<T>> := [];
    ShowsNothing<T>();
    AskNew(e0, [], [], map[], map[], "s", None, 0);
    assert e0 + [Ask("s", None)] == [Ask("s", None)];
    AskNew<T>([Ask("s", None)], [], [], map[Some("s") := 0], map["s" := Record(0, 0, [], 0)], "t", None, 0);
  }

  lemma UpdatePair<K, V>(i: K, j: K, v: V, w: V, now: V)
    requires i != j
    ensures map[i := v, j := w][i := now] == map[i := now, j := w]
    ensures map[i := v, j := w][j := now] == map[i := v, j := now]
  {
  }

  lemma AskFirst<T>(events: seq<Event<T>>, objects: seq<T>, log: seq<T>, atS: int, atT: int, s: Record<T>, t: Record<T>,
                    limit: Option<int>, to: int, batch: seq<T>)
    requires Both(events, objects, log, atS, atT, s, t)
    requires to == Min(|objects|, atS + limit.GetOr(|objects|)) && batch == Slice(objects, atS, to)
    ensures Both(events + [Ask("s", limit)], objects, log, to, atT, s.(given := s.given + batch, lastSeen := |log|), t)
  {
    var cursors: map<Key, int>, records := map[Some("s") := atS, Some("t") := atT], map["s" := s, "t" := t];
    var r := s.(given := s.given + batch, lastSeen := |log|);
    AskKnown(events, objects, log, cursors, records, "s", limit, to, batch);
    UpdatePair(Some("s"), Some("t"), atS, atT, to);
    UpdatePair("s", "t", s, t, r);
  }

  lemma AskSecond<T>(events: seq<Event<T>>, objects: seq<T>, log: seq<T>, atS: int, atT: int, s: Record<T>,
                     t: Record<T>, limit: Option<int>, to: int, batch: seq<T>)
    requires Both(events, objects, log, atS, atT, s, t)
    requires to == Min(|objects|, atT + limit.GetOr(|objects|)) && batch == Slice(objects, atT, to)
    ensures Both(events + [Ask("t", limit)], objects, log, atS, to, s, t.(given := t.given + batch, lastSeen := |log|))
  {
    var cursors: map<Key, int>, records := map[Some("s") := atS, Some("t") := atT], map["s" := s, "t" := t];
    var r := t.(given := t.given + batch, lastSeen := |log|);
    AskKnown(events, objects, log, cursors, records, "t", limit, to, batch);
    UpdatePair(Some("s"), Some("t"), atS, atT, to);
    UpdatePair("s", "t", s, t, r);
  }

  /** Another session's items are lost: three items arrive after s and t have registered, s asks with limit -1 (and is
      given two of them), the history is cleared, and t, all caught up, has been given none. */
  lemma NegativeLimitLoses<T>(a: T, b: T, c: T)
    ensures Both([Ask("s", None)] + [Ask("t", None)] + [Arrive(a)] + [Arrive(b)] + [Arrive(c)]
                   + [Ask("s", Some(-1))] + [Clear(None, 0.0)] + [Ask("t", None)],
                 [c], [a, b, c], 0, 1, Record(0, 0, [a, b], 3), Record(0, 0, [], 3))
  {
    var e2: seq<Event<T>> := [Ask("s", None)] + [Ask("t", None)];
    var cursors: map<Key, int>, records := map[Some("s") := 0, Some("t") := 0],
                                           map["s" := Record(0, 0, [], 0), "t" := Record(0, 0, [], 0)];
    BothRegister<T>();
    Arrives(e2, [], [], cursors, records, a);
    Arrives(e2 + [Arrive(a)], [a], [a], cursors, records, b);
    Arrives(e2 + [Arrive(a)] + [Arrive(b)], [a, b], [a, b], cursors, records, c);
    LosesFrom(e2 + [Arrive(a)] + [Arrive(b)] + [Arrive(c)], a, b, c);
  }

  lemma LosesFrom<T>(events: seq<Event<T>>, a: T, b: T, c: T)
    requires Both(events, [a, b, c], [a, b, c], 0, 0, Record(0, 0, [], 0), Record(0, 0, [], 0))
    ensures Both(events + [Ask("s", Some(-1))] + [Clear(None, 0.0)] + [Ask("t", None)], [c], [a, b, c], 0, 1,
                 Record(0, 0, [a, b], 3), Record(0, 0, [], 3))
  {
    var items := [a, b, c];
    var none: seq<T> := [];
    assert none + none == none;
    var s, t := Record(0, 0, [a, b], 3), Record(0, 0, [], 0);
    assert Slice(items, 0, -1) == items[0..2] == [a, b] && none + [a, b] == [a, b];
    AskFirst(events, items, items, 0, 0, Record(0, 0, [], 0), t, Some(-1), -1, [a, b]);
    var back := events + [Ask("s", Some(-1))];
    ClearBoth(back, items, s, t);
    assert items[2..] == [c];
    AskSecond(back + [Clear(None, 0.0)], [c], items, 0, 1, s, t, None, 1, none);
  }

  lemma ClearBoth<T>(events: seq<Event<T>>, items: seq<T>, s: Record<T>, t: Record<T>)
    requires |items| == 3 && Both(events, items, items, -1, 0, s, t)
    ensures Both(events + [Clear(None, 0.0)], items[2..], items, 0, 1, s, t)
  {
    RunStep(false, events, Clear(None, 0.0));
    LeastOfTwo(Run(false, events).h);
    NextClear(Run(false, events), Cleared(Run(false, events).h, None, 0.0));
  }

  lemma NextClear<T>(tr: Tracked<T>, h: Store<T>)
    requires OffsetsKnown(tr.h) && h == Cleared(tr.h, None, 0.0)
    requires forall k | k in tr.records :: Some(k) in h.cursors
    ensures Next(tr, Clear(None, 0.0)).h == h
    ensures Next(tr, Clear(None, 0.0)).records == tr.records && Next(tr, Clear(None, 0.0)).log == tr.log
  {
  }

  lemma LeastOfTwo<T>(h: Store<T>)
    requires h.cursors == map[Some("s") := -1, Some("t") := 0] && h.clearTime <= 0.0 && |h.objects| == 3 && !h.keeps
    ensures var after := Cleared(h, None, 0.0);
      && after.objects == h.objects[2..] && after.clearTime == h.clearTime && !after.keeps
      && after.cursors == map[Some("s") := 0, Some("t") := 1]
  {
    assert Left(h, None, 0.0) == h.cursors;
    assert h.cursors[Some("s")] == -1;
    assert Earliest(h.cursors) == -1;
  }
}

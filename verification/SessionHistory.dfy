/** The RAM histories behind the display layer: many sessions, each with a cursor into one shared list that clearing
    shortens. The four classes of the inheritance chain are the four layers of methods below: RamHistory,
    SelfCleaningRamHistory, FlaskEndpointRamHistory and NonClearingHistory. */
module SessionHistory {
  import opened Bytes

  /** A session key; None stands for a call without one. */
  type Key = Option<string>

  /** `s[i:j]` */
  function Slice<T>(s: seq<T>, i: int, j: int): seq<T> {
    if Bound(i, |s|) <= Bound(j, |s|) then s[Bound(i, |s|)..Bound(j, |s|)] else []
  }

  function Min(a: int, b: int): int {
    if a <= b then a else b
  }

  /** The state of a history. `keeps` distinguishes the non-clearing one. */
  datatype Store<T> = Store(keeps: bool, objects: seq<T>, cursors: map<Key, int>, lastRequest: map<string, real>,
                            clearTime: real, count: nat, offsets: map<string, int>, values: map<string, int>)

  // ---------------------------------------------------------------- retrieve, layer by layer

  /** Where a retrieve starts: at the session's cursor, at the end for a new session, at 0 without a session. */
  function From<T>(h: Store<T>, start: Key): int {
    if start.None? then 0 else if start in h.cursors then h.cursors[start] else |h.objects|
  }

  function To<T>(h: Store<T>, start: Key, limit: Option<int>): int {
    Min(|h.objects|, From(h, start) + limit.GetOr(|h.objects|))
  }

  function Batch<T>(h: Store<T>, start: Key, limit: Option<int>): seq<T> {
    Slice(h.objects, From(h, start), To(h, start, limit))
  }

  function RamRetrieved<T>(h: Store<T>, start: Key, limit: Option<int>): Store<T> {
    h.(cursors := h.cursors[start := To(h, start, limit)])
  }

  function Touched<T>(h: Store<T>, start: Key, now: real): Store<T> {
    if start.Some? then h.(lastRequest := h.lastRequest[start.value := now]) else h
  }

  function Counted<T>(h: Store<T>, start: Key): Store<T>
    requires OffsetsKnown(h)
  {
    if start.None? then h
    else
      var k := start.value;
      var g := if start !in h.cursors then h.(offsets := h.offsets[k := h.count]) else h;
      g.(values := g.values[k := g.count - g.offsets[k]])
  }

  /** A new session of the non-clearing history starts at the beginning. */
  function Seeded<T>(h: Store<T>, start: Key): Store<T> {
    if h.keeps && start.Some? && start !in h.cursors
    then h.(cursors := h.cursors[start := 0], offsets := h.offsets[start.value := h.count])
    else h
  }

  ghost predicate OffsetsKnown<T>(h: Store<T>) {
    forall k :: Some(k) in h.cursors ==> k in h.offsets
  }

  /** The whole `retrieve`: the state before the cursor moves. */
  function Prepared<T>(h: Store<T>, start: Key, now: real): Store<T>
    requires OffsetsKnown(h)
  {
    Touched(Counted(Seeded(h, start), start), start, now)
  }

  function Retrieved<T>(h: Store<T>, start: Key, limit: Option<int>, now: real): Store<T>
    requires OffsetsKnown(h)
  {
    RamRetrieved(Prepared(h, start, now), start, limit)
  }

  /** The count at the session's last retrieve, or of everything. */
  function SeenCount<T>(h: Store<T>, start: Key): int {
    if start.Some? && start.value in h.values then h.values[start.value] else h.count
  }

  // ---------------------------------------------------------------- clear, layer by layer

  /** Sessions whose last request is too old. */
  function Expired<T>(h: Store<T>, now: real): set<string> {
    set k | k in h.lastRequest && h.clearTime > 0.0 && h.lastRequest[k] + h.clearTime < now
  }

  lemma EarliestExists(cursors: map<Key, int>)
    requires cursors != map[]
    ensures exists k :: k in cursors && forall j | j in cursors :: cursors[k] <= cursors[j]
  {
    var _ := LeastOf(cursors, cursors.Keys);
  }

  lemma {:induction false} LeastOf(cursors: map<Key, int>, keys: set<Key>) returns (k: Key)
    requires keys <= cursors.Keys && keys != {}
    ensures k in keys && forall j | j in keys :: cursors[k] <= cursors[j]
    decreases |keys|
  {
    k :| k in keys;
    if keys != {k} {
      var other := LeastOf(cursors, keys - {k});
      if cursors[other] < cursors[k] {
        k := other;
      }
    }
  }

  /** The least cursor, 0 when there is none. */
  ghost function Earliest(cursors: map<Key, int>): (e: int)
    ensures cursors == map[] ==> e == 0
    ensures cursors != map[] ==>
      (exists k :: k in cursors && cursors[k] == e) && forall j | j in cursors :: e <= cursors[j]
  {
    if cursors == map[] then 0
    else
      EarliestExists(cursors);
      var k :| k in cursors && forall j | j in cursors :: cursors[k] <= cursors[j];
      cursors[k]
  }

  /** `RamHistory.clear` */
  ghost function RamCleared<T>(h: Store<T>, start: Key): Store<T> {
    var left := if start.Some? then h.cursors - {start} else h.cursors;
    var earliest := Earliest(left);
    h.(cursors := map k | k in left :: left[k] - earliest,
       objects := h.objects[Bound(earliest, |h.objects|)..])
  }

  /** The whole `clear`; the non-clearing history never clears. */
  ghost function Cleared<T>(h: Store<T>, start: Key, now: real): Store<T> {
    if h.keeps then h
    else
      var gone := Expired(h, now);
      RamCleared(h.(cursors := h.cursors - (set k | k in gone :: Some(k)), lastRequest := h.lastRequest - gone), start)
  }

  // ---------------------------------------------------------------- the class

  class History<T> {
    const keeps: bool
    var objects: seq<T>
    var retrievedCursors: map<Key, int>
    var lastRequest: map<string, real>
    var clearTime: real
    var count: nat
    var countOffsets: map<string, int>
    var countValues: map<string, int>

    function View(): Store<T>
      reads this
    {
      Store(keeps, objects, retrievedCursors, lastRequest, clearTime, count, countOffsets, countValues)
    }

    constructor (keeps: bool)
      ensures View() == Store(keeps, [], map[], map[], -1.0, 0, map[], map[])
    {
      this.keeps, this.objects, this.retrievedCursors, this.lastRequest := keeps, [], map[], map[];
      this.clearTime, this.count, this.countOffsets, this.countValues := -1.0, 0, map[], map[];
    }

    method DataCallback(data: T)
      modifies this`objects, this`count
      ensures View() == old(View()).(objects := old(objects) + [data], count := old(count) + 1)
    {
      count := count + 1;
      objects := objects + [data];
    }

    method SetClearTime(time: real)
      modifies this`clearTime
      ensures clearTime == time
    {
      clearTime := time;
    }

    method RamRetrieve(start: Key, limit: Option<int>) returns (objs: seq<T>)
      modifies this`retrievedCursors
      ensures View() == RamRetrieved(old(View()), start, limit)
      ensures objs == Batch(old(View()), start, limit)
    {
      var index := 0;
      var size := |objects|;
      if start.Some? {
        index := if start in retrievedCursors then retrievedCursors[start] else size;
      }
      var endSlice := Min(size, index + (if limit.Some? then limit.value else size));
      objs := Slice(objects, index, endSlice);
      retrievedCursors := retrievedCursors[start := endSlice];
    }

    method SelfCleaningRetrieve(start: Key, limit: Option<int>, now: real) returns (objs: seq<T>)
      modifies this`retrievedCursors, this`lastRequest
      ensures View() == RamRetrieved(Touched(old(View()), start, now), start, limit)
      ensures objs == Batch(Touched(old(View()), start, now), start, limit)
    {
      if start.Some? {
        lastRequest := lastRequest[start.value := now];
      }
      objs := RamRetrieve(start, limit);
    }

    method FlaskRetrieve(start: Key, limit: Option<int>, now: real) returns (objs: seq<T>)
      requires OffsetsKnown(View())
      modifies this
      ensures var before := Touched(Counted(old(View()), start), start, now);
        View() == RamRetrieved(before, start, limit) && objs == Batch(before, start, limit)
    {
      if start.Some? {
        if start !in retrievedCursors {
          countOffsets := countOffsets[start.value := count];
        }
        countValues := countValues[start.value := count - countOffsets[start.value]];
      }
      objs := SelfCleaningRetrieve(start, limit, now);
    }

    /** `retrieve`, of either endpoint history */
    method Retrieve(start: Key, limit: Option<int>, now: real) returns (objs: seq<T>)
      requires OffsetsKnown(View())
      modifies this
      ensures View() == Retrieved(old(View()), start, limit, now)
      ensures objs == Batch(Prepared(old(View()), start, now), start, limit)
    {
      if keeps && start.Some? && start !in retrievedCursors {
        retrievedCursors := retrievedCursors[start := 0];
        countOffsets := countOffsets[start.value := count];
      }
      objs := FlaskRetrieve(start, limit, now);
    }

    /** `min(self.retrieved_cursors.values())` */
    method EarliestCursor() returns (earliest: int)
      ensures earliest == Earliest(retrievedCursors)
    {
      if retrievedCursors == map[] {
        return 0;
      }
      var keys := retrievedCursors.Keys;
      var k :| k in keys;
      keys := keys - {k};
      earliest := retrievedCursors[k];
      while keys != {}
        invariant keys <= retrievedCursors.Keys
        invariant exists j :: j in retrievedCursors && retrievedCursors[j] == earliest
        invariant forall j | j in retrievedCursors && j !in keys :: earliest <= retrievedCursors[j]
        decreases |keys|
      {
        k :| k in keys;
        keys := keys - {k};
        earliest := Min(earliest, retrievedCursors[k]);
      }
    }

    method RamClear(start: Key)
      modifies this`retrievedCursors, this`objects
      ensures View() == RamCleared(old(View()), start)
    {
      if start.Some? {
        retrievedCursors := retrievedCursors - {start};
      }
      var earliest := EarliestCursor();
      objects := objects[Bound(earliest, |objects|)..];
      retrievedCursors := map k | k in retrievedCursors :: retrievedCursors[k] - earliest;
    }

    /** `clear`, of either endpoint history */
    method Clear(start: Key, now: real)
      modifies this
      ensures View() == Cleared(old(View()), start, now)
    {
      if keeps {
        return;
      }
      var deletes := set k | k in lastRequest && clearTime > 0.0 && lastRequest[k] + clearTime < now;
      retrievedCursors := retrievedCursors - (set k | k in deletes :: Some(k));
      lastRequest := lastRequest - deletes;
      RamClear(start);
    }

    /** `get_seen_count` */
    function GetSeenCount(start: Key): (n: int)
      reads this
      ensures n == SeenCount(View(), start)
    {
      if start.Some? && start.value in countValues then countValues[start.value] else count
    }
  }
}

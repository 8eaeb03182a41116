/** What a chronological history holds: the stable time-sort of what it accepted and still keeps, and of that, each item
    not yet retrieved exactly once. */
module ChronoTheorems {
  import opened Sequences
  import opened Bytes
  import opened ChronoHistory

  // ---------------------------------------------------------------- stable sorting

  /** The items of one time, in order. */
  function AtTime<T>(s: seq<Item<T>>, time: int): seq<Item<T>> {
    if s == [] then []
    else if s[|s| - 1].time == time then AtTime(s[..|s| - 1], time) + [s[|s| - 1]]
    else AtTime(s[..|s| - 1], time)
  }

  /** In time order, and for each time the same items in the same order. */
  ghost predicate StableSortOf<T>(sorted: seq<Item<T>>, s: seq<Item<T>>) {
    Sorted(sorted) && forall time :: AtTime(sorted, time) == AtTime(s, time)
  }

  lemma {:induction false} AtTimeAppend<T>(a: seq<Item<T>>, b: seq<Item<T>>, time: int)
    ensures AtTime(a + b, time) == AtTime(a, time) + AtTime(b, time)
    decreases |b|
  {
    if b == [] {
      assert a + b == a;
    } else {
      assert (a + b)[..|a + b| - 1] == a + b[..|b| - 1];
      AtTimeAppend(a, b[..|b| - 1], time);
    }
  }

  lemma {:induction false} AtTimeNone<T>(s: seq<Item<T>>, time: int)
    requires forall i | 0 <= i < |s| :: s[i].time != time
    ensures AtTime(s, time) == []
  {
    if s != [] {
      AtTimeNone(s[..|s| - 1], time);
    }
  }

  lemma {:induction false} AtTimeHolds<T>(s: seq<Item<T>>, i: nat)
    requires i < |s|
    ensures AtTime(s, s[i].time) != []
  {
    if i < |s| - 1 {
      AtTimeHolds(s[..|s| - 1], i);
    }
  }

  /** Two time-sorted lists with the same items at either's last time end at the same time. */
  lemma LastTimeAgrees<T>(a: seq<Item<T>>, b: seq<Item<T>>, t: int, u: int)
    requires Sorted(a) && Sorted(b) && a != [] && b != []
    requires t == a[|a| - 1].time && u == b[|b| - 1].time
    requires AtTime(a, t) == AtTime(b, t) && AtTime(a, u) == AtTime(b, u)
    ensures t == u
  {
    AtTimeHolds(a, |a| - 1);
    AtTimeHolds(b, |b| - 1);
    if u < t {
      AtTimeNone(b, t);
    } else if t < u {
      AtTimeNone(a, u);
    }
  }

  ghost predicate SameAtTimes<T>(a: seq<Item<T>>, b: seq<Item<T>>) {
    forall time :: AtTime(a, time) == AtTime(b, time)
  }

  lemma ShorterSame<T>(a: seq<Item<T>>, b: seq<Item<T>>)
    requires Sorted(a) && Sorted(b) && a != [] && b != [] && SameAtTimes(a, b)
    ensures a[|a| - 1] == b[|b| - 1]
    ensures SameAtTimes(a[..|a| - 1], b[..|b| - 1])
  {
    var x, y := a[|a| - 1], b[|b| - 1];
    var a', b' := a[..|a| - 1], b[..|b| - 1];
    assert AtTime(a, x.time) == AtTime(b, x.time) && AtTime(a, y.time) == AtTime(b, y.time);
    LastTimeAgrees(a, b, x.time, y.time);
    LastAndRest(AtTime(a', x.time), x, AtTime(b', x.time), y);
    forall time ensures AtTime(a', time) == AtTime(b', time) {
      assert AtTime(a, time) == AtTime(b, time);
    }
  }

  lemma {:induction false} SameTimesSame<T>(a: seq<Item<T>>, b: seq<Item<T>>)
    requires Sorted(a) && Sorted(b) && SameAtTimes(a, b)
    ensures a == b
    decreases |a|
  {
    if a == [] || b == [] {
      EmptyAgrees(a, b);
    } else {
      ShorterSame(a, b);
      SameTimesSame(a[..|a| - 1], b[..|b| - 1]);
      assert a == a[..|a| - 1] + [a[|a| - 1]] && b == b[..|b| - 1] + [b[|b| - 1]];
    }
  }

  lemma EmptyAgrees<T>(a: seq<Item<T>>, b: seq<Item<T>>)
    requires a == [] || b == []
    requires SameAtTimes(a, b)
    ensures a == b
  {
    if a != [] {
      AtTimeHolds(a, 0);
    } else if b != [] {
      AtTimeHolds(b, 0);
    }
  }

  lemma LastAndRest<T>(a: seq<T>, x: T, b: seq<T>, y: T)
    requires a + [x] == b + [y]
    ensures a == b && x == y
  {
    assert (a + [x])[|a|] == x && |a| == |b|;
    assert (a + [x])[..|a|] == a && (b + [y])[..|b|] == b;
  }

  /** A stable sort is unique. */
  lemma StableSortUnique<T>(a: seq<Item<T>>, b: seq<Item<T>>, s: seq<Item<T>>)
    requires StableSortOf(a, s) && StableSortOf(b, s)
    ensures a == b
  {
    forall time ensures AtTime(a, time) == AtTime(b, time) {
      assert AtTime(a, time) == AtTime(s, time);
    }
    SameTimesSame(a, b);
  }

  /** Inserting an arrival into the stable sort gives the stable sort with the arrival behind. */
  lemma InsertIsStable<T>(x: Item<T>, sorted: seq<Item<T>>, s: seq<Item<T>>)
    requires StableSortOf(sorted, s)
    ensures StableSortOf(Insert(x, sorted), s + [x])
  {
    InsertSorted(x, sorted);
    forall time ensures AtTime(Insert(x, sorted), time) == AtTime(s + [x], time) {
      InsertAtTime(x, sorted, time);
      AtTimeAppend(s, [x], time);
      assert AtTime(sorted, time) == AtTime(s, time);
    }
  }

  lemma InsertAtTime<T>(x: Item<T>, sorted: seq<Item<T>>, time: int)
    ensures AtTime(Insert(x, sorted), time) == AtTime(sorted, time) + AtTime([x], time)
  {
    var p := Place(x.time, sorted);
    assert sorted == sorted[..p] + sorted[p..];
    BetweenAtTime(x, sorted[..p], sorted[p..], time);
  }

  lemma BetweenAtTime<T>(x: Item<T>, before: seq<Item<T>>, behind: seq<Item<T>>, time: int)
    requires forall i | 0 <= i < |behind| :: behind[i].time != x.time
    ensures AtTime(before + [x] + behind, time) == AtTime(before + behind, time) + AtTime([x], time)
  {
    AtTimeAppend(before, behind, time);
    AtTimeAppend(before + [x], behind, time);
    AtTimeAppend(before, [x], time);
    if time == x.time {
      AtTimeNone(behind, time);
    } else {
      AtTimeNone([x], time);
    }
    Swap(AtTime(before, time), AtTime([x], time), AtTime(behind, time));
  }

  lemma Swap<T>(a: seq<T>, x: seq<T>, b: seq<T>)
    requires x == [] || b == []
    ensures (a + x) + b == (a + b) + x
  {
  }

  lemma InsertSorted<T>(x: Item<T>, sorted: seq<Item<T>>)
    requires Sorted(sorted)
    ensures Sorted(Insert(x, sorted))
  {
  }

  /** The items from a time on, in order. */
  function Since<T>(s: seq<Item<T>>, time: int): seq<Item<T>> {
    if s == [] then []
    else if s[|s| - 1].time >= time then Since(s[..|s| - 1], time) + [s[|s| - 1]]
    else Since(s[..|s| - 1], time)
  }

  lemma {:induction false} AtTimeSince<T>(s: seq<Item<T>>, from: int, time: int)
    ensures AtTime(Since(s, from), time) == if time >= from then AtTime(s, time) else []
  {
    if s != [] {
      var last := s[|s| - 1];
      AtTimeSince(s[..|s| - 1], from, time);
      if last.time >= from {
        AtTimeAppend(Since(s[..|s| - 1], from), [last], time);
        assert [last][..0] == [];
      }
    }
  }

  /** Cutting a stable sort at a time leaves the stable sort of what is not before that time. */
  lemma CutIsStable<T>(sorted: seq<Item<T>>, s: seq<Item<T>>, from: int)
    requires StableSortOf(sorted, s)
    ensures StableSortOf(From(sorted, FirstAt(from, sorted)), Since(s, from))
  {
    var i := FirstAt(from, sorted);
    assert From(sorted, i) == sorted[i..];
    forall time ensures AtTime(sorted[i..], time) == AtTime(Since(s, from), time) {
      AtTimeSince(s, from, time);
      CutAtTime(sorted, from, time);
      assert AtTime(sorted, time) == AtTime(s, time);
    }
  }

  lemma CutAtTime<T>(sorted: seq<Item<T>>, from: int, time: int)
    requires Sorted(sorted)
    ensures AtTime(sorted[FirstAt(from, sorted)..], time) == if time >= from then AtTime(sorted, time) else []
  {
    var i := FirstAt(from, sorted);
    SortedAround(sorted, from);
    SplitAtTime(sorted, i, time);
    if time >= from {
      AtTimeNone(sorted[..i], time);
    } else {
      AtTimeNone(sorted[i..], time);
    }
  }

  lemma SortedAround<T>(sorted: seq<Item<T>>, from: int)
    requires Sorted(sorted)
    ensures var i := FirstAt(from, sorted);
      && (forall k | 0 <= k < |sorted[..i]| :: sorted[..i][k].time < from)
      && (forall k | 0 <= k < |sorted[i..]| :: sorted[i..][k].time >= from)
  {
  }

  lemma SplitAtTime<T>(s: seq<Item<T>>, i: nat, time: int)
    requires i <= |s|
    ensures AtTime(s, time) == AtTime(s[..i], time) + AtTime(s[i..], time)
  {
    assert s == s[..i] + s[i..];
    AtTimeAppend(s[..i], s[i..], time);
  }

  // ---------------------------------------------------------------- cutting at a position

  /** What is behind the first j items of time t, in order: the later items and the rest of that time. */
  function Behind<T>(s: seq<Item<T>>, t: int, j: nat): seq<Item<T>> {
    if s == [] then []
    else
      var rest, last := Behind(s[..|s| - 1], t, j), s[|s| - 1];
      if last.time > t || (last.time == t && |AtTime(s[..|s| - 1], t)| >= j) then rest + [last] else rest
  }

  lemma {:induction false} AtTimeBehind<T>(s: seq<Item<T>>, t: int, j: nat, time: int)
    ensures AtTime(Behind(s, t, j), time) ==
      if time > t then AtTime(s, time) else if time == t then From(AtTime(s, t), j) else []
  {
    if s != [] {
      var before, last := s[..|s| - 1], s[|s| - 1];
      AtTimeBehind(before, t, j, time);
      AtTimeAppend(Behind(before, t, j), [last], time);
      AtTimeOne(last, time);
      FromGrows(AtTime(before, t), last, j);
    }
  }

  lemma FromGrows<T>(s: seq<T>, x: T, j: nat)
    ensures From(s + [x], j) == if |s| >= j then From(s, j) + [x] else []
    ensures |s| < j ==> From(s, j) == []
  {
  }

  lemma AtTimeOne<T>(x: Item<T>, time: int)
    ensures AtTime([x], time) == if x.time == time then [x] else []
  {
    assert [x][..0] == [];
  }

  lemma {:induction false} AtTimeAll<T>(s: seq<Item<T>>, time: int)
    requires forall i | 0 <= i < |s| :: s[i].time == time
    ensures AtTime(s, time) == s
  {
    if s != [] {
      AtTimeAll(s[..|s| - 1], time);
      assert s == s[..|s| - 1] + [s[|s| - 1]];
    }
  }

  lemma CutAtPosition<T>(sorted: seq<Item<T>>, p: nat, time: int)
    requires Sorted(sorted) && p < |sorted|
    ensures var t := sorted[p].time; var f := FirstAt(t, sorted);
      f <= p && AtTime(sorted[p..], time) ==
        if time > t then AtTime(sorted, time) else if time == t then From(AtTime(sorted, t), p - f) else []
  {
    var t := sorted[p].time;
    var f := FirstAt(t, sorted);
    SortedAround(sorted, t);
    assert f <= p;
    SplitAtTime(sorted, p, time);
    if time > t {
      AtTimeNone(sorted[..p], time);
    } else if time < t {
      AtTimeNone(sorted[p..], time);
    } else {
      TieBefore(sorted, p);
    }
  }

  /** Before position p, the items of its time are those behind the first of them. */
  lemma TieBefore<T>(sorted: seq<Item<T>>, p: nat)
    requires Sorted(sorted) && p < |sorted|
    ensures var t := sorted[p].time; FirstAt(t, sorted) <= p && |AtTime(sorted[..p], t)| == p - FirstAt(t, sorted)
  {
    var t := sorted[p].time;
    var f := FirstAt(t, sorted);
    assert f <= p;
    SplitAtTime(sorted[..p], f, t);
    AtTimeNone(sorted[..p][..f], t);
    AtTimeAll(sorted[..p][f..], t);
  }

  /** Cutting a stable sort at any position, even between items of one time, leaves the stable sort of the rest. */
  lemma PositionIsStable<T>(sorted: seq<Item<T>>, s: seq<Item<T>>, p: nat)
    requires StableSortOf(sorted, s) && p < |sorted|
    ensures var t := sorted[p].time; var f := FirstAt(t, sorted);
      f <= p && StableSortOf(sorted[p..], Behind(s, t, p - f))
  {
    var t := sorted[p].time;
    var f := FirstAt(t, sorted);
    CutAtPosition(sorted, p, t);
    assert AtTime(sorted, t) == AtTime(s, t);
    SortedTail(sorted, p);
    forall time ensures AtTime(sorted[p..], time) == AtTime(Behind(s, t, p - f), time) {
      assert AtTime(sorted, time) == AtTime(s, time);
      CutAtPosition(sorted, p, time);
      AtTimeBehind(s, t, p - f, time);
    }
  }

  lemma SortedTail<T>(sorted: seq<Item<T>>, p: nat)
    requires Sorted(sorted) && p <= |sorted|
    ensures Sorted(sorted[p..])
  {
  }

  // ---------------------------------------------------------------- subsequences

  /** Positions after x has been inserted into both lists. */
  function Shifted(at: seq<nat>, p: nat, q: nat): seq<nat>
    requires p <= |at|
  {
    seq(|at| + 1, j requires 0 <= j < |at| + 1 => if j < p then at[j] else if j == p then q else at[j - 1] + 1)
  }

  /** Inserting an item by time into a sorted list and into a subsequence of it keeps the subsequence. */
  lemma InsertBoth<T>(x: Item<T>, sub: seq<Item<T>>, s: seq<Item<T>>, at: seq<nat>)
    requires Sorted(s) && OccursAt(sub, s, at)
    ensures OccursAt(Insert(x, sub), Insert(x, s), Shifted(at, Place(x.time, sub), Place(x.time, s)))
  {
    var p, q := Place(x.time, sub), Place(x.time, s);
    var shifted := Shifted(at, p, q);
    OccursSorted(sub, s, at);
    SameSide(x.time, sub, s, at);
    InsertLength(x, sub);
    InsertLength(x, s);
    forall j | 0 <= j < |shifted|
      ensures shifted[j] < |Insert(x, s)| && Insert(x, sub)[j] == Insert(x, s)[shifted[j]]
    {
      ShiftedOne(x, sub, s, at, j);
    }
    ShiftedAscends(at, p, q);
  }

  lemma InsertLength<T>(x: Item<T>, s: seq<Item<T>>)
    ensures |Insert(x, s)| == |s| + 1
  {
  }

  lemma ShiftedAscends(at: seq<nat>, p: nat, q: nat)
    requires p <= |at| && (forall i, j | 0 <= i < j < |at| :: at[i] < at[j])
    requires forall j | 0 <= j < |at| :: j < p <==> at[j] < q
    ensures var shifted := Shifted(at, p, q); forall i, j | 0 <= i < j < |shifted| :: shifted[i] < shifted[j]
  {
  }

  lemma ShiftedOne<T>(x: Item<T>, sub: seq<Item<T>>, s: seq<Item<T>>, at: seq<nat>, j: nat)
    requires OccursAt(sub, s, at) && j <= |at|
    requires forall k | 0 <= k < |at| :: k < Place(x.time, sub) <==> at[k] < Place(x.time, s)
    ensures var to := Shifted(at, Place(x.time, sub), Place(x.time, s))[j];
      |Insert(x, sub)| == |sub| + 1 && to < |Insert(x, s)| && Insert(x, sub)[j] == Insert(x, s)[to]
  {
    var p, q := Place(x.time, sub), Place(x.time, s);
    ShiftedAt(at, p, q, j);
    if j == p {
      InsertIndex(x, sub, p);
      InsertIndex(x, s, q);
    } else {
      ShiftedOther(x, sub, s, at, j, if j < p then j else j - 1);
    }
  }

  /** An item other than the inserted one, at position i of the subsequence before and j after. */
  lemma ShiftedOther<T>(x: Item<T>, sub: seq<Item<T>>, s: seq<Item<T>>, at: seq<nat>, j: nat, i: nat)
    requires OccursAt(sub, s, at) && i < |at|
    requires i < Place(x.time, sub) <==> at[i] < Place(x.time, s)
    requires j == if i < Place(x.time, sub) then i else i + 1
    ensures var to := if i < Place(x.time, sub) then at[i] else at[i] + 1;
      |Insert(x, sub)| == |sub| + 1 && to < |Insert(x, s)| && Insert(x, sub)[j] == Insert(x, s)[to]
  {
    Unshifted(sub, s, at, i);
    InsertIndex(x, sub, j);
    InsertIndex(x, s, if i < Place(x.time, sub) then at[i] else at[i] + 1);
  }

  lemma ShiftedAt(at: seq<nat>, p: nat, q: nat, j: nat)
    requires p <= |at| && j <= |at|
    ensures Shifted(at, p, q)[j] == if j < p then at[j] else if j == p then q else at[j - 1] + 1
  {
  }

  lemma Unshifted<T>(sub: seq<T>, s: seq<T>, at: seq<nat>, j: nat)
    requires OccursAt(sub, s, at) && j < |at|
    ensures at[j] < |s| && sub[j] == s[at[j]]
  {
  }

  /** An item of the subsequence is placed like its occurrence. */
  lemma SameSide<T>(time: int, sub: seq<Item<T>>, s: seq<Item<T>>, at: seq<nat>)
    requires Sorted(sub) && Sorted(s) && OccursAt(sub, s, at)
    ensures forall j | 0 <= j < |at| :: j < Place(time, sub) <==> at[j] < Place(time, s)
  {
    PlaceSplits(time, sub);
    PlaceSplits(time, s);
    forall j | 0 <= j < |at| ensures j < Place(time, sub) <==> at[j] < Place(time, s) {
      assert sub[j] == s[at[j]];
    }
  }

  lemma PlaceSplits<T>(time: int, s: seq<Item<T>>)
    requires Sorted(s)
    ensures forall i | 0 <= i < |s| :: i < Place(time, s) <==> s[i].time <= time
  {
  }

  lemma InsertIndex<T>(x: Item<T>, s: seq<Item<T>>, i: nat)
    ensures |Insert(x, s)| == |s| + 1
    ensures i < Place(x.time, s) ==> Insert(x, s)[i] == s[i]
    ensures i == Place(x.time, s) ==> Insert(x, s)[i] == x
    ensures Place(x.time, s) < i <= |s| ==> Insert(x, s)[i] == s[i - 1]
  {
  }

  lemma OccursSorted<T>(sub: seq<Item<T>>, s: seq<Item<T>>, at: seq<nat>)
    requires Sorted(s) && OccursAt(sub, s, at)
    ensures Sorted(sub)
  {
    forall i, j | 0 <= i < j < |sub| ensures sub[i].time <= sub[j].time {
      assert at[i] < at[j] && s[at[i]].time <= s[at[j]].time;
    }
  }

  // ---------------------------------------------------------------- whole runs

  datatype Event<!T> =
    | Arrive(item: Item<T>)
    | Retrieve(start: Start<T>)
    | RetrieveNew(repeats: bool)
    | Clear(start: Start<T>)

  /** A history with what it accepted and still keeps, everything it ever accepted, and every item a non-repeating
      `retrieve_new` handed out. */
  datatype Tracked<T> = Tracked(c: Chrono<T>, kept: seq<Item<T>>, accepted: seq<Item<T>>, given: seq<Item<T>>)

  /** What a clear keeps of the arrivals: nothing, those from a time on, or those behind a position in time order. */
  function KeptBy<T>(c: Chrono<T>, kept: seq<Item<T>>, start: Start<T>): seq<Item<T>> {
    match start
    case Everything => []
    case At(time) => Since(kept, time)
    case _ =>
      var p := Bound(IndexOf(start, c.objects), |c.objects|);
      if p == |c.objects| then []
      else
        var t := c.objects[p].time;
        Behind(kept, t, if FirstAt(t, c.objects) <= p then p - FirstAt(t, c.objects) else 0)
  }

  function Next<T>(tr: Tracked<T>, e: Event<T>, filter: Item<T> -> bool): Tracked<T> {
    match e
    case Arrive(x) =>
      if filter(x) then Tracked(Arrived(tr.c, x), tr.kept + [x], tr.accepted + [x], tr.given) else tr
    case Retrieve(_) => tr.(c := Retrieved(tr.c))
    case RetrieveNew(repeats) =>
      tr.(c := Retrieved(tr.c), given := if repeats then tr.given else tr.given + tr.c.unseen)
    case Clear(start) => tr.(c := Cleared(tr.c, start), kept := KeptBy(tr.c, tr.kept, start))
  }

  ghost predicate Inv<T>(c: Chrono<T>, kept: seq<Item<T>>) {
    && StableSortOf(c.objects, kept)
    && c.cursor <= |c.objects|
    && Subsequence(c.unseen, c.objects[c.cursor..])
  }

  lemma ArriveKeepsInv<T>(c: Chrono<T>, kept: seq<Item<T>>, x: Item<T>)
    requires Inv(c, kept)
    ensures Inv(Arrived(c, x), kept + [x])
  {
    InsertIsStable(x, c.objects, kept);
    var at :| OccursAt(c.unseen, c.objects[c.cursor..], at);
    if Place(x.time, c.objects) < c.cursor {
      ArriveBefore(c, x, at);
    } else {
      ArriveBehind(c, x, at);
    }
  }

  /** An arrival behind the cursor. */
  lemma ArriveBehind<T>(c: Chrono<T>, x: Item<T>, at: seq<nat>)
    requires Sorted(c.objects) && c.cursor <= Place(x.time, c.objects)
    requires OccursAt(c.unseen, c.objects[c.cursor..], at)
    ensures Subsequence(Arrived(c, x).unseen, Arrived(c, x).objects[Arrived(c, x).cursor..])
  {
    var tail := c.objects[c.cursor..];
    InsertBoth(x, c.unseen, tail, at);
    InsertTail(x, c.objects, c.cursor);
  }

  lemma InsertTail<T>(x: Item<T>, s: seq<Item<T>>, k: nat)
    requires k <= Place(x.time, s)
    ensures Insert(x, s[k..]) == Insert(x, s)[k..]
  {
    PlaceInTail(x.time, s, k);
    CutAround(x, s, Place(x.time, s), k);
  }

  lemma CutAround<T>(x: T, s: seq<T>, p: nat, k: nat)
    requires k <= p <= |s|
    ensures s[k..][..p - k] + [x] + s[k..][p - k..] == (s[..p] + [x] + s[p..])[k..]
  {
  }

  lemma PlaceInTail<T>(time: int, s: seq<Item<T>>, k: nat)
    requires k <= Place(time, s)
    ensures Place(time, s[k..]) == Place(time, s) - k
  {
    PlaceUnique(time, s[k..], Place(time, s) - k);
  }

  /** An arrival earlier than the cursor: everything from its place on is later, so it goes first among the new ones. */
  lemma ArriveBefore<T>(c: Chrono<T>, x: Item<T>, at: seq<nat>)
    requires c.cursor <= |c.objects| && Place(x.time, c.objects) < c.cursor
    requires OccursAt(c.unseen, c.objects[c.cursor..], at)
    ensures Subsequence(Arrived(c, x).unseen, Arrived(c, x).objects[Arrived(c, x).cursor..])
  {
    var q := Place(x.time, c.objects);
    forall j | 0 <= j < |c.unseen| ensures c.unseen[j].time > x.time {
      assert c.unseen[j] == c.objects[c.cursor..][at[j]];
    }
    PlaceUnique(x.time, c.unseen, 0);
    FirstOccurs(x, c.unseen, c.objects, c.cursor, q, at);
    InsertFirst(x, c.unseen);
    InsertAhead(x, c.objects);
  }

  lemma InsertFirst<T>(x: Item<T>, s: seq<Item<T>>)
    requires Place(x.time, s) == 0
    ensures Insert(x, s) == [x] + s
  {
  }

  lemma InsertAhead<T>(x: Item<T>, s: seq<Item<T>>)
    ensures Insert(x, s)[Place(x.time, s)..] == [x] + s[Place(x.time, s)..]
  {
  }

  /** A new first item, in front of everything from an earlier position on. */
  lemma FirstOccurs<T>(x: T, sub: seq<T>, s: seq<T>, k: nat, q: nat, at: seq<nat>)
    requires q <= k <= |s| && OccursAt(sub, s[k..], at)
    ensures Subsequence([x] + sub, [x] + s[q..])
  {
    var moved := seq(|at|, j requires 0 <= j < |at| => at[j] + 1 + (k - q));
    forall j | 0 <= j < |sub| ensures moved[j] < |[x] + s[q..]| && sub[j] == ([x] + s[q..])[moved[j]] {
      assert sub[j] == s[k..][at[j]] == s[q..][at[j] + (k - q)];
    }
    assert OccursAt([x] + sub, [x] + s[q..], [0] + moved);
  }

  // ---------------------------------------------------------------- clearing

  /** Clears at a time keep the stable sort, and so do clears at any position, negative or not. */
  lemma ClearIsStable<T>(c: Chrono<T>, kept: seq<Item<T>>, start: Start<T>)
    requires StableSortOf(c.objects, kept)
    ensures StableSortOf(Cleared(c, start).objects, KeptBy(c, kept, start))
  {
    match start
    case Everything =>
    case At(time) => CutIsStable(c.objects, kept, time);
    case _ => PositionClearIsStable(c, kept, start, Bound(IndexOf(start, c.objects), |c.objects|));
  }

  lemma PositionClearIsStable<T>(c: Chrono<T>, kept: seq<Item<T>>, start: Start<T>, p: nat)
    requires StableSortOf(c.objects, kept) && (start.Index? || start.Where?)
    requires p == Bound(IndexOf(start, c.objects), |c.objects|)
    ensures StableSortOf(Cleared(c, start).objects, KeptBy(c, kept, start))
  {
    assert Cleared(c, start).objects == c.objects[p..];
    if p < |c.objects| {
      PositionIsStable(c.objects, kept, p);
    } else {
      assert KeptBy(c, kept, start) == [];
    }
  }

  /** After a clear at a negative position the cursor is inside the list if and only if nothing was retrieved before and
      the position is inside it too; at any other it always is. */
  lemma CursorInsideIff<T>(c: Chrono<T>, start: Start<T>)
    requires c.cursor <= |c.objects|
    ensures var index := ClearIndex(start, c.objects);
      Cleared(c, start).cursor <= |Cleared(c, start).objects| <==>
        index >= 0 || (c.cursor == 0 && -index <= |c.objects|)
  {
  }

  /** No new item before position i is as late as the item there. */
  predicate NewBeforeAreEarlier<T(==)>(c: Chrono<T>, i: int)
    requires 0 <= i < |c.objects|
  {
    forall z | z in c.unseen && z in c.objects[..i] :: z.time < c.objects[i].time
  }

  lemma ClearedNew<T>(c: Chrono<T>, kept: seq<Item<T>>, i: nat)
    requires Inv(c, kept) && i < |c.objects|
    ensures var unseen := Cleared(c, Index(i)).unseen; var t := c.objects[i].time;
      && Sorted(c.unseen) && unseen == c.unseen[FirstAt(t, c.unseen)..]
      && forall z :: z in unseen <==> z in c.unseen && z.time >= t
  {
    var at :| OccursAt(c.unseen, c.objects[c.cursor..], at);
    OccursSorted(c.unseen, c.objects[c.cursor..], at);
    SplitMembers(c.unseen, c.objects[i].time);
  }

  lemma SplitMembers<T>(s: seq<Item<T>>, t: int)
    requires Sorted(s)
    ensures forall z :: z in s[FirstAt(t, s)..] <==> z in s && z.time >= t
  {
    var f := FirstAt(t, s);
    SortedAround(s, t);
    assert s == s[..f] + s[f..];
    forall z | z in s && z.time >= t ensures z in s[f..] {
      assert z !in s[..f];
    }
  }

  /** After a clear by position, counted from the end when negative, no cleared item is among the new ones if and only
      if no new item before the position is as late as the item there. */
  lemma ClearByPositionIff<T>(c: Chrono<T>, kept: seq<Item<T>>, index: int)
    requires Inv(c, kept) && Bound(index, |c.objects|) < |c.objects|
    ensures var i := Bound(index, |c.objects|);
      (forall z | z in Cleared(c, Index(index)).unseen :: z !in c.objects[..i]) <==> NewBeforeAreEarlier(c, i)
  {
    var i := Bound(index, |c.objects|);
    var unseen := Cleared(c, Index(i)).unseen;
    assert Cleared(c, Index(index)).unseen == unseen;
    ClearedNew(c, kept, i);
    if forall z | z in unseen :: z !in c.objects[..i] {
      forall z | z in c.unseen && z in c.objects[..i] ensures z.time < c.objects[i].time {
        assert z !in unseen;
      }
    }
    forall z | NewBeforeAreEarlier(c, i) && z in unseen ensures z !in c.objects[..i] {
    }
  }

  /** A clear that leaves no cleared item among the new ones: of everything, up to a time, behind nothing but retrieved
      items, of the whole list, or at a position before which no new item is as late. */
  predicate CleanCut<T(==)>(c: Chrono<T>, start: Start<T>) {
    start.Everything? || start.At? ||
    var i := IndexOf(start, c.objects);
    i >= 0 && (i <= c.cursor || i >= |c.objects| || NewBeforeAreEarlier(c, i))
  }

  lemma ClearKeepsFresh<T>(c: Chrono<T>, kept: seq<Item<T>>, start: Start<T>)
    requires Inv(c, kept) && CleanCut(c, start)
    ensures var after := Cleared(c, start);
      after.cursor <= |after.objects| && Subsequence(after.unseen, after.objects[after.cursor..])
  {
    var after := Cleared(c, start);
    var i := ClearIndex(start, c.objects);
    CursorInsideIff(c, start);
    if after.objects == [] {
      assert OccursAt(after.unseen, after.objects[after.cursor..], []);
    } else {
      assert after == Cleared(c, Index(i));
      ClearAtPosition(c, kept, i);
    }
  }

  lemma ClearAtPosition<T>(c: Chrono<T>, kept: seq<Item<T>>, i: nat)
    requires Inv(c, kept) && i < |c.objects|
    requires i <= c.cursor || NewBeforeAreEarlier(c, i) || i == FirstAt(c.objects[i].time, c.objects)
    ensures var after := Cleared(c, Index(i)); Subsequence(after.unseen, after.objects[after.cursor..])
  {
    var t := c.objects[i].time;
    var cut := FirstAt(t, c.unseen);
    var from := if c.cursor >= i then c.cursor else i;
    var at :| OccursAt(c.unseen, c.objects[c.cursor..], at);
    ClearedNew(c, kept, i);
    forall j | cut <= j < |c.unseen| ensures c.cursor + at[j] >= from {
      NotBefore(c, at, i, j, cut);
    }
    LaterOccurs(c.unseen, c.objects, c.cursor, at, cut, from);
    ClearedShape(c, i, from);
  }

  lemma ClearedShape<T>(c: Chrono<T>, i: nat, from: nat)
    requires i < |c.objects| && c.cursor <= |c.objects| && from == (if c.cursor >= i then c.cursor else i)
    ensures var after := Cleared(c, Index(i));
      && after.unseen == From(c.unseen, FirstAt(c.objects[i].time, c.unseen))
      && after.cursor <= |after.objects| && after.objects[after.cursor..] == c.objects[from..]
  {
    assert Cleared(c, Index(i)).objects == c.objects[i..];
    assert c.objects[i..][0] == c.objects[i];
    assert c.objects[i..][from - i..] == c.objects[from..];
  }

  /** Among distinct items it takes a clean cut: a clear at a position keeps the new ones in order behind the cursor if
      and only if it is one. */
  lemma CleanCutIff<T>(c: Chrono<T>, kept: seq<Item<T>>, i: nat)
    requires Inv(c, kept) && i < |c.objects|
    requires forall j, k | 0 <= j < k < |c.objects| :: c.objects[j] != c.objects[k]
    ensures var after := Cleared(c, Index(i));
      after.cursor <= |after.objects|
      && (Subsequence(after.unseen, after.objects[after.cursor..]) <==> CleanCut(c, Index(i)))
  {
    ClearedShape(c, i, if c.cursor >= i then c.cursor else i);
    if CleanCut(c, Index(i)) {
      ClearKeepsFresh(c, kept, Index(i));
    } else {
      UncleanBreaks(c, kept, i);
    }
  }

  lemma UncleanBreaks<T>(c: Chrono<T>, kept: seq<Item<T>>, i: nat)
    requires Inv(c, kept) && c.cursor < i < |c.objects| && !NewBeforeAreEarlier(c, i)
    requires forall j, k | 0 <= j < k < |c.objects| :: c.objects[j] != c.objects[k]
    ensures !Subsequence(Cleared(c, Index(i)).unseen, c.objects[i..])
  {
    var z :| z in c.unseen && z in c.objects[..i] && z.time >= c.objects[i].time;
    StillNew(c, kept, i, z);
    NotInTail(c.objects, i, z);
    NotASub(Cleared(c, Index(i)).unseen, c.objects[i..], z);
  }

  lemma StillNew<T>(c: Chrono<T>, kept: seq<Item<T>>, i: nat, z: Item<T>)
    requires Inv(c, kept) && i < |c.objects| && z in c.unseen && z.time >= c.objects[i].time
    ensures z in Cleared(c, Index(i)).unseen
  {
    ClearedNew(c, kept, i);
  }

  lemma NotASub<T>(sub: seq<T>, s: seq<T>, z: T)
    requires z in sub && z !in s
    ensures !Subsequence(sub, s)
  {
    if Subsequence(sub, s) {
      MembersOfSub(sub, s);
    }
  }

  lemma NotInTail<T>(s: seq<T>, i: nat, z: T)
    requires i <= |s| && z in s[..i] && forall j, k | 0 <= j < k < |s| :: s[j] != s[k]
    ensures z !in s[i..]
  {
    var k :| 0 <= k < i && s[k] == z;
    forall m | 0 <= m < |s[i..]| ensures s[i..][m] != z {
      assert s[i..][m] == s[i + m];
    }
  }

  lemma MembersOfSub<T>(sub: seq<T>, s: seq<T>)
    requires Subsequence(sub, s)
    ensures forall z | z in sub :: z in s
  {
    var at :| OccursAt(sub, s, at);
  }

  lemma NotBefore<T>(c: Chrono<T>, at: seq<nat>, i: nat, j: nat, cut: nat)
    requires Sorted(c.objects) && c.cursor <= |c.objects| && OccursAt(c.unseen, c.objects[c.cursor..], at)
    requires i < |c.objects| && cut == FirstAt(c.objects[i].time, c.unseen) && cut <= j < |c.unseen| && Sorted(c.unseen)
    requires i <= c.cursor || NewBeforeAreEarlier(c, i) || i == FirstAt(c.objects[i].time, c.objects)
    ensures c.cursor + at[j] >= i
  {
    var k, z := c.cursor + at[j], c.unseen[j];
    assert z == c.objects[k] && z.time >= c.unseen[cut].time >= c.objects[i].time;
    MemberBefore(c.objects, i, k);
  }

  lemma MemberBefore<T>(s: seq<T>, i: nat, k: nat)
    requires i <= |s| && k < |s|
    ensures k < i ==> s[k] in s[..i]
  {
    if k < i {
      assert s[..i][k] == s[k];
    }
  }

  /** The items of a subsequence from `cut` on, when they all occur at `from` or later. */
  lemma LaterOccurs<T>(sub: seq<T>, s: seq<T>, k: nat, at: seq<nat>, cut: nat, from: nat)
    requires k <= from <= |s| && cut <= |sub| && OccursAt(sub, s[k..], at)
    requires forall j | cut <= j < |sub| :: k + at[j] >= from
    ensures Subsequence(From(sub, cut), s[from..])
  {
    var n := |sub| - cut;
    var moved := seq(n, j requires 0 <= j < n => k + at[cut + j] - from);
    assert From(sub, cut) == sub[cut..];
    assert OccursAt(sub[cut..], s[from..], moved);
  }

  lemma NothingNew<T>(c: Chrono<T>)
    ensures Subsequence([], Retrieved(c).objects[|c.objects|..])
  {
    var none: seq<Item<T>> := [];
    assert OccursAt(none, c.objects[|c.objects|..], []);
  }

  /** An event that is not a clear which could leave cleared items among the new ones. */
  predicate CleanEvent<T(==)>(c: Chrono<T>, e: Event<T>) {
    e.Clear? ==> CleanCut(c, e.start)
  }

  lemma NextKeepsInv<T>(tr: Tracked<T>, e: Event<T>, filter: Item<T> -> bool)
    requires Inv(tr.c, tr.kept) && CleanEvent(tr.c, e)
    ensures Inv(Next(tr, e, filter).c, Next(tr, e, filter).kept)
  {
    match e
    case Arrive(x) =>
      if filter(x) {
        ArriveKeepsInv(tr.c, tr.kept, x);
      }
    case Retrieve(_) => NothingNew(tr.c);
    case RetrieveNew(_) => NothingNew(tr.c);
    case Clear(start) =>
      ClearIsStable(tr.c, tr.kept, start);
      ClearKeepsFresh(tr.c, tr.kept, start);
  }

  function Run<T>(events: seq<Event<T>>, filter: Item<T> -> bool): Tracked<T> {
    if events == [] then Tracked(Chrono([], [], 0), [], [], [])
    else Next(Run(events[..|events| - 1], filter), events[|events| - 1], filter)
  }

  /** Over any run of arrivals, retrieves and clears of any kind, the objects are the stable time-sort of the accepted
      arrivals not cleared. */
  lemma {:induction false} ChronologicalOrder<T>(events: seq<Event<T>>, filter: Item<T> -> bool)
    ensures StableSortOf(Run(events, filter).c.objects, Run(events, filter).kept)
    decreases |events|
  {
    if events != [] {
      var before, e := Run(events[..|events| - 1], filter), events[|events| - 1];
      ChronologicalOrder(events[..|events| - 1], filter);
      match e
      case Arrive(x) => InsertIsStable(x, before.c.objects, before.kept);
      case Clear(start) => ClearIsStable(before.c, before.kept, start);
      case _ =>
    }
  }

  /** Every clear of the run is clean in the state it meets. */
  predicate Clean<T(==)>(events: seq<Event<T>>, filter: Item<T> -> bool) {
    events == [] ||
    var before := events[..|events| - 1];
    Clean(before, filter) && CleanEvent(Run(before, filter).c, events[|events| - 1])
  }

  /** If its clears by position or predicate are clean, the new objects are also a subsequence of those behind the
      cursor: in order, each one kept, none twice. */
  lemma {:induction false} NewInOrder<T>(events: seq<Event<T>>, filter: Item<T> -> bool)
    requires Clean(events, filter)
    ensures var c := Run(events, filter).c; c.cursor <= |c.objects| && Subsequence(c.unseen, c.objects[c.cursor..])
    ensures Inv(Run(events, filter).c, Run(events, filter).kept)
    decreases |events|
  {
    if events == [] {
      var none: seq<Item<T>> := [];
      assert OccursAt(none, none[0..], []);
    } else {
      NewInOrder(events[..|events| - 1], filter);
      NextKeepsInv(Run(events[..|events| - 1], filter), events[|events| - 1], filter);
    }
  }

  lemma RunStep<T>(before: seq<Event<T>>, e: Event<T>, filter: Item<T> -> bool)
    ensures Run(before + [e], filter) == Next(Run(before, filter), e, filter)
  {
    assert (before + [e])[..|before|] == before;
  }

  /** A run that is not clean: two items of one time arrive, the first is cleared by position, and it is still new. */
  lemma ClearInsideTie<T>(a: T, b: T)
    requires a != b
    ensures var x, y := Item(0, a), Item(0, b);
      var c := Run([Event.Arrive(x)] + [Event.Arrive(y)] + [Event.Clear(Index(1))], _ => true).c;
      c.objects == [y] && c.unseen == [x, y]
  {
    var x, y := Item(0, a), Item(0, b);
    var all: Item<T> -> bool := _ => true;
    var e0: seq<Event<T>> := [];
    RunStep(e0, Event.Arrive(x), all);
    assert e0 + [Event.Arrive(x)] == [Event.Arrive(x)];
    RunStep([Event.Arrive(x)], Event.Arrive(y), all);
    var c := Run([Event.Arrive(x)] + [Event.Arrive(y)], all).c;
    assert c == Chrono([x, y], [x, y], 0);
    RunStep([Event.Arrive(x)] + [Event.Arrive(y)], Event.Clear(Index(1)), all);
    assert FirstAt(0, [x, y]) == 0;
  }

  /** Only arrivals and non-repeating `retrieve_new` calls. */
  predicate OnlyNew<T>(events: seq<Event<T>>) {
    forall i | 0 <= i < |events| :: events[i].Arrive? || events[i] == Event.RetrieveNew(false)
  }

  /** Then every accepted arrival has been handed out exactly once, or is still waiting: together, the batches and what
      waits are a permutation of the arrivals. */
  lemma {:induction false} NewExactlyOnce<T>(events: seq<Event<T>>, filter: Item<T> -> bool)
    requires OnlyNew(events)
    ensures var tr := Run(events, filter);
      multiset(tr.given) + multiset(tr.c.unseen) == multiset(tr.accepted) && tr.kept == tr.accepted
    decreases |events|
  {
    if events != [] {
      var before := Run(events[..|events| - 1], filter);
      NewExactlyOnce(events[..|events| - 1], filter);
      match events[|events| - 1]
      case Arrive(x) =>
        InsertMultiset(x, before.c.unseen);
      case RetrieveNew(_) =>
      case _ =>
    }
  }

  lemma InsertMultiset<T>(x: Item<T>, s: seq<Item<T>>)
    ensures multiset(Insert(x, s)) == multiset(s) + multiset{x}
  {
    var p := Place(x.time, s);
    assert s == s[..p] + s[p..];
  }
}

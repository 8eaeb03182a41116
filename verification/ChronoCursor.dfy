/** What a chronological history accepts, and where its cursor stands: at the first object not yet retrieved. */
module ChronoCursor {
  import opened Bytes
  import opened ChronoHistory
  import opened ChronoTheorems

  /** The arrivals that pass the filter, in order. */
  function Passing<T>(events: seq<Event<T>>, filter: Item<T> -> bool): seq<Item<T>> {
    if events == [] then []
    else
      var front, last := Passing(events[..|events| - 1], filter), events[|events| - 1];
      if last.Arrive? && filter(last.item) then front + [last.item] else front
  }

  lemma {:induction false} AcceptedPass<T>(events: seq<Event<T>>, filter: Item<T> -> bool)
    ensures Run(events, filter).accepted == Passing(events, filter)
    decreases |events|
  {
    if events != [] {
      AcceptedPass(events[..|events| - 1], filter);
    }
  }

  /** The cursor stands at the first new object, or behind all objects when none is new. */
  ghost predicate AtFirstNew<T>(c: Chrono<T>) {
    if c.unseen == [] then c.cursor == |c.objects|
    else c.cursor < |c.objects| && c.objects[c.cursor] == c.unseen[0]
  }

  ghost predicate Ordered<T>(c: Chrono<T>) {
    Sorted(c.objects) && Sorted(c.unseen) && AtFirstNew(c)
  }

  /** A clear that removes only what has been retrieved, or everything. */
  predicate Prompt<T>(c: Chrono<T>, e: Event<T>) {
    e.Clear? ==>
      var i := ClearIndex(e.start, c.objects); 0 <= i && (i <= c.cursor || i >= |c.objects|)
  }

  predicate AllPrompt<T>(events: seq<Event<T>>, filter: Item<T> -> bool) {
    events == [] ||
    var before := events[..|events| - 1];
    AllPrompt(before, filter) && Prompt(Run(before, filter).c, events[|events| - 1])
  }

  lemma InsertSorted<T>(x: Item<T>, s: seq<Item<T>>)
    requires Sorted(s)
    ensures Sorted(Insert(x, s))
  {
    var p := Place(x.time, s);
    PlaceSplits(x.time, s);
  }

  lemma ArriveOrdered<T>(c: Chrono<T>, x: Item<T>)
    requires Ordered(c)
    ensures Ordered(Arrived(c, x))
  {
    InsertSorted(x, c.objects);
    InsertSorted(x, c.unseen);
    PlaceSplits(x.time, c.objects);
    PlaceSplits(x.time, c.unseen);
    var q := Place(x.time, c.objects);
    InsertIndex(x, c.objects, q);
    InsertIndex(x, c.objects, c.cursor);
    InsertIndex(x, c.unseen, 0);
  }

  lemma ClearOrdered<T>(c: Chrono<T>, start: Start<T>)
    requires Ordered(c) && Prompt(c, Event.Clear(start))
    ensures Ordered(Cleared(c, start))
  {
    var i := ClearIndex(start, c.objects);
    var after := Cleared(c, start);
    if i < |c.objects| {
      assert after.objects == c.objects[i..];
      if c.unseen != [] {
        assert c.objects[i].time <= c.objects[c.cursor].time;
        assert FirstAt(c.objects[i].time, c.unseen) == 0;
        assert after.unseen == c.unseen;
      }
    }
  }

  /** In any run that clears only what was retrieved, or everything, the cursor stands at the first new object: so
      `retrieve_new` with repeats begins with it. */
  lemma {:induction false} CursorAtFirstNew<T>(events: seq<Event<T>>, filter: Item<T> -> bool)
    requires AllPrompt(events, filter)
    ensures Ordered(Run(events, filter).c)
    decreases |events|
  {
    if events != [] {
      var before := events[..|events| - 1];
      CursorAtFirstNew(before, filter);
      match events[|events| - 1]
      case Arrive(x) => ArriveOrdered(Run(before, filter).c, x);
      case Clear(start) => ClearOrdered(Run(before, filter).c, start);
      case _ =>
    }
  }
}

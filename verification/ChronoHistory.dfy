/** `ChronologicalHistory`: arrivals kept in time order, with a separate list of those not yet retrieved. */
module ChronoHistory {
  import opened Bytes

  /** A timed item; times are taken as totally ordered keys. */
  datatype Item<T> = Item(time: int, body: T)

  /** Where a retrieve or a clear starts. */
  datatype Start<!T> = Everything | At(time: int) | Index(index: int) | Where(pred: Item<T> -> bool)

  predicate Sorted<T>(s: seq<Item<T>>) {
    forall i, j | 0 <= i < j < |s| :: s[i].time <= s[j].time
  }

  /** The position behind the last item not later than `time`. */
  function Place<T>(time: int, ordered: seq<Item<T>>): (i: nat)
    ensures i <= |ordered|
    ensures i > 0 ==> ordered[i - 1].time <= time
    ensures forall k | i <= k < |ordered| :: ordered[k].time > time
  {
    if ordered == [] then 0
    else if ordered[|ordered| - 1].time <= time then |ordered|
    else Place(time, ordered[..|ordered| - 1])
  }

  lemma PlaceUnique<T>(time: int, s: seq<Item<T>>, i: nat)
    requires i <= |s| && (i > 0 ==> s[i - 1].time <= time) && forall k | i <= k < |s| :: s[k].time > time
    ensures Place(time, s) == i
  {
    var p := Place(time, s);
    if i > 0 {
      var before := s[i - 1];
    }
    if p > 0 {
      var before := s[p - 1];
    }
  }

  function Insert<T>(x: Item<T>, ordered: seq<Item<T>>): seq<Item<T>> {
    ordered[..Place(x.time, ordered)] + [x] + ordered[Place(x.time, ordered)..]
  }

  /** The first position whose item is not before `time`. */
  function FirstAt<T>(time: int, ordered: seq<Item<T>>): (i: nat)
    ensures i <= |ordered|
    ensures forall k | 0 <= k < i :: ordered[k].time < time
    ensures i < |ordered| ==> ordered[i].time >= time
  {
    if ordered == [] || ordered[0].time >= time then 0 else 1 + FirstAt(time, ordered[1..])
  }

  function FirstWhere<T>(pred: Item<T> -> bool, ordered: seq<Item<T>>): (i: nat)
    ensures i <= |ordered|
    ensures forall k | 0 <= k < i :: !pred(ordered[k])
    ensures i < |ordered| ==> pred(ordered[i])
  {
    if ordered == [] || pred(ordered[0]) then 0 else 1 + FirstWhere(pred, ordered[1..])
  }

  /** `__get_index` */
  function IndexOf<T>(start: Start<T>, ordered: seq<Item<T>>): (i: int)
    ensures start.Everything? ==> i == 0
    ensures start.Index? ==> i == start.index
    ensures start.At? || start.Where? ==> 0 <= i <= |ordered|
    ensures start.At? ==> forall k | 0 <= k < i :: ordered[k].time < start.time
    ensures start.At? && i < |ordered| ==> ordered[i].time >= start.time
    ensures start.Where? ==> forall k | 0 <= k < i :: !start.pred(ordered[k])
    ensures start.Where? && i < |ordered| ==> start.pred(ordered[i])
  {
    match start
    case Everything => 0
    case At(time) => FirstAt(time, ordered)
    case Index(i) => i
    case Where(pred) => FirstWhere(pred, ordered)
  }

  /** `s[i:]`, from the end when negative */
  function From<T>(s: seq<T>, i: int): seq<T> {
    s[Bound(i, |s|)..]
  }

  /** The state of a history. */
  datatype Chrono<T> = Chrono(objects: seq<Item<T>>, unseen: seq<Item<T>>, cursor: nat)

  function Min(a: nat, b: nat): nat {
    if a <= b then a else b
  }

  /** An accepted arrival */
  function Arrived<T>(c: Chrono<T>, x: Item<T>): Chrono<T> {
    Chrono(Insert(x, c.objects), Insert(x, c.unseen), Min(Place(x.time, c.objects), c.cursor))
  }

  function Retrieved<T>(c: Chrono<T>): Chrono<T> {
    Chrono(c.objects, [], |c.objects|)
  }

  /** Up to where a clear removes objects: all of them when it names no start. */
  function ClearIndex<T>(start: Start<T>, ordered: seq<Item<T>>): int {
    if start.Everything? then |ordered| else IndexOf(start, ordered)
  }

  function Cleared<T>(c: Chrono<T>, start: Start<T>): Chrono<T> {
    var index := ClearIndex(start, c.objects);
    var objects := From(c.objects, index);
    Chrono(objects,
           if objects == [] then [] else From(c.unseen, FirstAt(objects[0].time, c.unseen)),
           if c.cursor >= index then c.cursor - index else 0)
  }

  class ChronologicalHistory<T> {
    const filter: Item<T> -> bool
    var objects: seq<Item<T>>
    var newObjects: seq<Item<T>>
    var retrievedCursor: nat

    function View(): Chrono<T>
      reads this
    {
      Chrono(objects, newObjects, retrievedCursor)
    }

    constructor (filter: Item<T> -> bool)
      ensures this.filter == filter && View() == Chrono([], [], 0)
    {
      this.filter, this.objects, this.newObjects, this.retrievedCursor := filter, [], [], 0;
    }

    /** `__insert_chrono`: from the back, behind the last item that is not later. */
    static method InsertChrono(x: Item<T>, ordered: seq<Item<T>>) returns (inserted: seq<Item<T>>, index: nat)
      ensures inserted == Insert(x, ordered) && index == Place(x.time, ordered)
    {
      var i := |ordered|;
      while i > 0
        invariant 0 <= i <= |ordered|
        invariant forall k | i <= k < |ordered| :: ordered[k].time > x.time
      {
        if ordered[i - 1].time <= x.time {
          PlaceUnique(x.time, ordered, i);
          return ordered[..i] + [x] + ordered[i..], i;
        }
        i := i - 1;
      }
      PlaceUnique(x.time, ordered, 0);
      assert ordered[..0] + [x] + ordered[0..] == [x] + ordered;
      return [x] + ordered, 0;
    }

    method DataCallback(data: Item<T>)
      modifies this
      ensures View() == if filter(data) then Arrived(old(View()), data) else old(View())
    {
      if filter(data) {
        var index;
        newObjects, index := InsertChrono(data, newObjects);
        objects, index := InsertChrono(data, objects);
        retrievedCursor := Min(index, retrievedCursor);
      }
    }

    /** `__get_index` */
    static method GetIndex(start: Start<T>, ordered: seq<Item<T>>) returns (index: int)
      requires !start.Everything?
      ensures index == IndexOf(start, ordered)
    {
      match start {
        case At(time) =>
          index := 0;
          while index < |ordered| && ordered[index].time < time
            invariant 0 <= index <= |ordered|
            invariant FirstAt(time, ordered) == index + FirstAt(time, ordered[index..])
          {
            assert ordered[index..][1..] == ordered[index + 1..];
            index := index + 1;
          }
        case Where(pred) =>
          index := 0;
          while index < |ordered| && !pred(ordered[index])
            invariant 0 <= index <= |ordered|
            invariant FirstWhere(pred, ordered) == index + FirstWhere(pred, ordered[index..])
          {
            assert ordered[index..][1..] == ordered[index + 1..];
            index := index + 1;
          }
        case Index(i) => index := i;
      }
    }

    method Retrieve(start: Start<T>) returns (result: seq<Item<T>>)
      modifies this
      ensures View() == Retrieved(old(View()))
      ensures result == From(old(objects), IndexOf(start, old(objects)))
    {
      var index: int := 0;
      if !start.Everything? {
        index := GetIndex(start, objects);
      }
      retrievedCursor := |objects|;
      newObjects := [];
      return From(objects, index);
    }

    method RetrieveNew(repeats: bool) returns (result: seq<Item<T>>)
      modifies this
      ensures View() == Retrieved(old(View()))
      ensures result == if repeats then From(old(objects), old(retrievedCursor)) else old(newObjects)
    {
      var index := retrievedCursor;
      retrievedCursor := |objects|;
      result := if repeats then From(objects, index) else newObjects;
      newObjects := [];
    }

    /** `__clear_list` */
    static method ClearList(start: Start<T>, ordered: seq<Item<T>>) returns (rest: seq<Item<T>>, index: int)
      ensures index == ClearIndex(start, ordered) && rest == From(ordered, index)
    {
      index := |ordered|;
      if !start.Everything? {
        index := GetIndex(start, ordered);
      }
      rest := From(ordered, index);
    }

    method Clear(start: Start<T>)
      modifies this
      ensures View() == Cleared(old(View()), start)
    {
      ghost var before := View();
      var rest, index := ClearList(start, objects);
      var unseen := [];
      if |rest| > 0 {
        var cut;
        unseen, cut := ClearList(At(rest[0].time), newObjects);
      }
      ClearedIs(before, start, index, rest, unseen);
      objects, newObjects := rest, unseen;
      retrievedCursor := if retrievedCursor >= index then retrievedCursor - index else 0;
    }
  }

  lemma ClearedIs<T>(c: Chrono<T>, start: Start<T>, index: int, objects: seq<Item<T>>, unseen: seq<Item<T>>)
    requires index == ClearIndex(start, c.objects) && objects == From(c.objects, index)
    requires unseen == if |objects| > 0 then From(c.unseen, FirstAt(objects[0].time, c.unseen)) else []
    ensures Cleared(c, start) == Chrono(objects, unseen, if c.cursor >= index then c.cursor - index else 0)
  {
  }
}

/** `sorted(set(...))` over integers. */
module Sorting {
  predicate Ascending(s: seq<int>) {
    forall i, j | 0 <= i < j < |s| :: s[i] < s[j]
  }

  function Insert(x: int, s: seq<int>): seq<int> {
    if s == [] || x < s[0] then [x] + s else if x == s[0] then s else [s[0]] + Insert(x, s[1..])
  }

  /** `sorted(list(set(packets)))` */
  function SortedSet(s: seq<int>): seq<int> {
    if s == [] then [] else Insert(s[0], SortedSet(s[1..]))
  }

  lemma ConsMembers(a: int, s: seq<int>)
    ensures forall y :: y in [a] + s <==> y == a || y in s
  {
  }

  lemma Uncons(s: seq<int>)
    requires s != []
    ensures s == [s[0]] + s[1..]
  {
  }

  lemma {:induction false} InsertMembers(x: int, s: seq<int>)
    ensures forall y :: y in Insert(x, s) <==> y == x || y in s
  {
    if s == [] || x < s[0] {
      ConsMembers(x, s);
    } else if x > s[0] {
      InsertMembers(x, s[1..]);
      Uncons(s);
      ConsMembers(s[0], s[1..]);
      ConsMembers(s[0], Insert(x, s[1..]));
    }
  }

  lemma ConsAscending(a: int, s: seq<int>)
    requires Ascending(s) && forall y | y in s :: a < y
    ensures Ascending([a] + s)
  {
    forall i, j | 0 <= i < j < |[a] + s| ensures ([a] + s)[i] < ([a] + s)[j] {
      assert ([a] + s)[j] == s[j - 1] && s[j - 1] in s;
    }
  }

  lemma TailAscending(s: seq<int>)
    requires Ascending(s) && s != []
    ensures Ascending(s[1..]) && forall y | y in s[1..] :: s[0] < y
  {
  }

  lemma {:induction false} InsertKeeps(x: int, s: seq<int>)
    requires Ascending(s)
    ensures Ascending(Insert(x, s)) && forall y :: y in Insert(x, s) <==> y == x || y in s
  {
    InsertMembers(x, s);
    if s != [] {
      TailAscending(s);
      if x < s[0] {
        ConsAscending(x, s);
      } else if x > s[0] {
        InsertKeeps(x, s[1..]);
        ConsAscending(s[0], Insert(x, s[1..]));
      }
    }
  }

  lemma {:induction false} SortedSetSorts(s: seq<int>)
    ensures Ascending(SortedSet(s)) && forall y :: y in SortedSet(s) <==> y in s
  {
    if s != [] {
      SortedSetSorts(s[1..]);
      InsertKeeps(s[0], SortedSet(s[1..]));
      Uncons(s);
      ConsMembers(s[0], s[1..]);
    }
  }

  lemma HeadIsMember(s: seq<int>)
    ensures s == [] || s[0] in s
  {
  }

  /** An ascending list is determined by its members. */
  lemma {:induction false} AscendingUnique(s: seq<int>, t: seq<int>)
    requires Ascending(s) && Ascending(t) && forall x :: x in s <==> x in t
    ensures s == t
  {
    HeadIsMember(s);
    HeadIsMember(t);
    if s != [] && t != [] {
      TailAscending(s);
      TailAscending(t);
      Uncons(s);
      Uncons(t);
      ConsMembers(s[0], s[1..]);
      ConsMembers(t[0], t[1..]);
      AscendingUnique(s[1..], t[1..]);
    }
  }

  lemma {:induction false} InsertLength(x: int, s: seq<int>)
    requires Ascending(s) && x !in s
    ensures |Insert(x, s)| == |s| + 1
  {
    if s != [] && x > s[0] {
      TailAscending(s);
      Uncons(s);
      ConsMembers(s[0], s[1..]);
      InsertLength(x, s[1..]);
    }
  }

  /** Sorting a list without repeats loses nothing. */
  lemma {:induction false} SortedSetLength(s: seq<int>)
    requires forall i, j | 0 <= i < j < |s| :: s[i] != s[j]
    ensures |SortedSet(s)| == |s|
  {
    if s != [] {
      SortedSetLength(s[1..]);
      SortedSetSorts(s[1..]);
      InsertLength(s[0], SortedSet(s[1..]));
    }
  }
}

/** Subsequences, and what is left of a sequence when some items are taken out. */
module Sequences {

  /** The items of `sub` occur in `s` at the strictly increasing positions `at`. */
  ghost predicate OccursAt<T>(sub: seq<T>, s: seq<T>, at: seq<nat>) {
    && |at| == |sub|
    && (forall j | 0 <= j < |at| :: at[j] < |s| && sub[j] == s[at[j]])
    && (forall i, j | 0 <= i < j < |at| :: at[i] < at[j])
  }

  ghost predicate Subsequence<T>(sub: seq<T>, s: seq<T>) {
    exists at :: OccursAt(sub, s, at)
  }

  /** All the items of s with the property and no others, as often as in s and in their order there. */
  ghost predicate Sifts<T(!new)>(r: seq<T>, s: seq<T>, p: T -> bool) {
    Subsequence(r, s) && forall x :: multiset(r)[x] == if p(x) then multiset(s)[x] else 0
  }

  lemma SiftsNothing<T(!new)>(p: T -> bool)
    ensures Sifts([], [], p)
  {
    assert OccursAt<T>([], [], []);
  }

  lemma OccursOneMore<T>(r: seq<T>, s: seq<T>, x: T, at: seq<nat>)
    requires OccursAt(r, s, at)
    ensures OccursAt(r, s + [x], at) && OccursAt(r + [x], s + [x], at + [|s|])
  {
  }

  lemma SiftsOneMore<T(!new)>(r: seq<T>, s: seq<T>, x: T, p: T -> bool)
    requires Sifts(r, s, p)
    ensures Sifts(if p(x) then r + [x] else r, s + [x], p)
  {
    var at: seq<nat> :| OccursAt(r, s, at);
    OccursOneMore(r, s, x, at);
    assert multiset(s + [x]) == multiset(s) + multiset{x};
    assert multiset(r + [x]) == multiset(r) + multiset{x};
  }

  lemma SiftsSame<T(!new)>(r: seq<T>, s: seq<T>, p: T -> bool, q: T -> bool)
    requires Sifts(r, s, p) && forall x :: p(x) == q(x)
    ensures Sifts(r, s, q)
  {
  }
}

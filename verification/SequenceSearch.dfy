/** `find_history_sequence`: a greedy search for items that satisfy a list of predicates in order. */
module SequenceSearch {

  /** How many predicates the greedy search has consumed after the items. */
  function Matched<T>(preds: seq<T -> bool>, items: seq<T>): (n: nat)
    ensures n <= |preds|
  {
    if items == [] then 0
    else
      var m := Matched(preds, items[..|items| - 1]);
      if m < |preds| && preds[m](items[|items| - 1]) then m + 1 else m
  }

  /** The items the greedy search keeps. */
  function Kept<T>(preds: seq<T -> bool>, items: seq<T>): (kept: seq<T>)
    ensures |kept| == Matched(preds, items)
  {
    if items == [] then []
    else
      var before := Kept(preds, items[..|items| - 1]);
      var last := items[|items| - 1];
      if |before| < |preds| && preds[|before|](last) then before + [last] else before
  }

  /** The chosen items, at strictly increasing positions, satisfy the first |chosen| predicates in order. */
  ghost predicate Embeds<T>(preds: seq<T -> bool>, items: seq<T>, chosen: seq<nat>) {
    && |chosen| <= |preds|
    && (forall j | 0 <= j < |chosen| :: chosen[j] < |items| && preds[j](items[chosen[j]]))
    && (forall i, j | 0 <= i < j < |chosen| :: chosen[i] < chosen[j])
  }

  function Pick<T>(items: seq<T>, chosen: seq<nat>): seq<T>
    requires forall j | 0 <= j < |chosen| :: chosen[j] < |items|
  {
    seq(|chosen|, j requires 0 <= j < |chosen| => items[chosen[j]])
  }

  /** Some increasing choice of items satisfies the first k predicates in order. */
  ghost predicate CanEmbed<T>(preds: seq<T -> bool>, items: seq<T>, k: nat) {
    exists chosen :: |chosen| == k && Embeds(preds, items, chosen)
  }

  class SequenceSearcher<T> {
    var retVal: seq<T>
    var seqPreds: seq<T -> bool>
    ghost const all: seq<T -> bool>
    ghost var fed: seq<T>

    constructor (seqPreds: seq<T -> bool>)
      ensures all == seqPreds && Valid() && fed == [] && retVal == []
    {
      this.retVal, this.seqPreds, this.all, this.fed := [], seqPreds, seqPreds, [];
    }

    /** The predicates still open are those the greedy search has not consumed; one item was kept for each other. */
    ghost predicate Valid()
      reads this
    {
      retVal == Kept(all, fed) && seqPreds == all[|retVal|..]
    }

    /** `incremental_search` */
    method IncrementalSearch(item: T) returns (done: bool)
      requires Valid() && seqPreds != []
      modifies this
      ensures Valid() && fed == old(fed) + [item]
      ensures done <==> Matched(all, fed) == |all|
    {
      assert (fed + [item])[..|fed|] == fed;
      fed := fed + [item];
      if seqPreds[0](item) {
        retVal := retVal + [item];
        seqPreds := seqPreds[1..];
        return seqPreds == [];
      }
      return false;
    }

    /** `search_current_history`: stops at the first item that completes the sequence. It succeeds exactly when the
        whole sequence can be embedded in the items, and keeps as many items as the longest embeddable prefix. */
    method SearchCurrentHistory(items: seq<T>) returns (done: bool)
      requires Valid() && fed == []
      modifies this
      ensures Valid()
      ensures done <==> CanEmbed(all, items, |all|)
      ensures forall k: nat :: CanEmbed(all, items, k) <==> k <= |retVal|
      ensures exists chosen :: Embeds(all, items, chosen) && retVal == Pick(items, chosen)
    {
      GreedyIsComplete(all, items);
      if seqPreds == [] {
        MatchedGrows(all, items, 0);
        assert Embeds(all, items, []);
        return true;
      }
      for i := 0 to |items|
        invariant Valid() && fed == items[..i] && seqPreds != []
      {
        assert items[..i + 1] == items[..i] + [items[i]];
        done := IncrementalSearch(items[i]);
        if done {
          MatchedGrows(all, items, i + 1);
          var chosen := GreedyEmbeds(all, items[..i + 1]);
          assert Embeds(all, items, chosen) && Pick(items, chosen) == Pick(items[..i + 1], chosen);
          return;
        }
      }
      assert items[..|items|] == items;
      var chosen := GreedyEmbeds(all, items);
      return false;
    }
  }

  lemma {:induction false} MatchedGrows<T>(preds: seq<T -> bool>, items: seq<T>, n: nat)
    requires n <= |items|
    ensures Matched(preds, items[..n]) <= Matched(preds, items)
    decreases |items|
  {
    if n == |items| {
      assert items[..n] == items;
    } else {
      MatchedGrows(preds, items[..|items| - 1], n);
      assert items[..|items| - 1][..n] == items[..n];
    }
  }

  /** No embedding beats the greedy search. */
  lemma {:induction false} EmbeddingBounded<T>(preds: seq<T -> bool>, items: seq<T>, chosen: seq<nat>)
    requires Embeds(preds, items, chosen)
    ensures |chosen| <= Matched(preds, items)
    decreases |chosen|
  {
    if chosen != [] {
      var k := |chosen| - 1;
      var at := chosen[k];
      assert Embeds(preds, items[..at], chosen[..k]);
      EmbeddingBounded(preds, items[..at], chosen[..k]);
      assert items[..at + 1][..at] == items[..at];
      MatchedGrows(preds, items, at + 1);
    }
  }

  /** The greedy search finds an embedding of as many predicates as it consumes. */
  lemma {:induction false} GreedyEmbeds<T>(preds: seq<T -> bool>, items: seq<T>) returns (chosen: seq<nat>)
    ensures Embeds(preds, items, chosen) && |chosen| == Matched(preds, items)
    ensures Pick(items, chosen) == Kept(preds, items)
    decreases |items|
  {
    if items == [] {
      chosen := [];
    } else {
      chosen := GreedyEmbeds(preds, items[..|items| - 1]);
      if |chosen| < |preds| && preds[|chosen|](items[|items| - 1]) {
        OneMoreChosen(preds, items, chosen);
        chosen := chosen + [|items| - 1];
      } else {
        ChosenBefore(preds, items, chosen);
      }
    }
  }

  /** What is chosen from all but the last item is chosen from all. */
  lemma ChosenBefore<T>(preds: seq<T -> bool>, items: seq<T>, chosen: seq<nat>)
    requires items != [] && Embeds(preds, items[..|items| - 1], chosen)
    ensures Embeds(preds, items, chosen) && Pick(items, chosen) == Pick(items[..|items| - 1], chosen)
  {
    assert forall j | 0 <= j < |chosen| :: items[..|items| - 1][chosen[j]] == items[chosen[j]];
  }

  lemma OneMoreChosen<T>(preds: seq<T -> bool>, items: seq<T>, chosen: seq<nat>)
    requires items != [] && Embeds(preds, items[..|items| - 1], chosen)
    requires |chosen| < |preds| && preds[|chosen|](items[|items| - 1])
    ensures Embeds(preds, items, chosen + [|items| - 1])
    ensures Pick(items, chosen + [|items| - 1]) == Pick(items[..|items| - 1], chosen) + [items[|items| - 1]]
  {
    ChosenBefore(preds, items, chosen);
  }

  /** The first k predicates can be satisfied in order by some increasing choice of items if and only if the greedy
      search consumes at least k. */
  lemma GreedyIsComplete<T>(preds: seq<T -> bool>, items: seq<T>)
    ensures forall k: nat :: CanEmbed(preds, items, k) <==> k <= Matched(preds, items)
  {
    var best := GreedyEmbeds(preds, items);
    forall k: nat | CanEmbed(preds, items, k) ensures k <= |best| {
      var chosen :| |chosen| == k && Embeds(preds, items, chosen);
      EmbeddingBounded(preds, items, chosen);
    }
    forall k: nat | k <= |best| ensures CanEmbed(preds, items, k) {
      assert Embeds(preds, items, best[..k]);
    }
  }
}

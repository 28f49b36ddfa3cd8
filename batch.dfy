/** The sequential enrichment both revisions perform: walk the candidates in
    order, ask for each one's details, and append what comes back. One
    candidate's failure contributes nothing and does not stop the walk. */
module Batch {

  /** The results of walking `items` in order, where `found(x)` is what one
      item contributes (empty when its details are absent or its fetch failed). */
  function Enrich<A, R>(items: seq<A>, found: A -> seq<R>): seq<R> {
    if items == [] then [] else Enrich(items[..|items| - 1], found) + found(items[|items| - 1])
  }

  /** The walk is item by item: two runs of items give their results in order. */
  lemma {:induction false} EnrichAppend<A, R>(a: seq<A>, b: seq<A>, found: A -> seq<R>)
    ensures Enrich(a + b, found) == Enrich(a, found) + Enrich(b, found)
    decreases |b|
  {
    if b == [] {
      assert a + b == a;
    } else {
      var b' := b[..|b| - 1];
      assert (a + b)[..|a + b| - 1] == a + b';
      assert (a + b)[|a + b| - 1] == b[|b| - 1];
      EnrichAppend(a, b', found);
    }
  }

  /** One more item walked: its results come after those of the items before it. */
  lemma EnrichStep<A, R>(items: seq<A>, i: nat, found: A -> seq<R>)
    requires i < |items|
    ensures Enrich(items[..i + 1], found) == Enrich(items[..i], found) + found(items[i])
  {
    assert items[..i + 1][..i] == items[..i];
  }

  /** An item that contributes nothing (an absent or failed fetch) leaves the
      results of all the other items as they would be without it. */
  lemma EnrichDropsEmpty<A, R>(a: seq<A>, x: A, b: seq<A>, found: A -> seq<R>)
    requires found(x) == []
    ensures Enrich(a + [x] + b, found) == Enrich(a + b, found)
  {
    EnrichAppend(a + [x], b, found);
    EnrichAppend(a, [x], found);
    EnrichAppend(a, b, found);
    assert [x][..0] == [];
  }

  /** An item with a result leaves the walk with at least one result. */
  lemma {:induction false} EnrichNonEmpty<A, R>(items: seq<A>, found: A -> seq<R>, k: nat)
    requires k < |items| && found(items[k]) != []
    ensures Enrich(items, found) != []
  {
    if k < |items| - 1 {
      EnrichNonEmpty(items[..|items| - 1], found, k);
    }
  }

  /** With at most one result per item there are at most as many results as items. */
  lemma {:induction false} EnrichBounded<A, R>(items: seq<A>, found: A -> seq<R>)
    requires forall k | 0 <= k < |items| :: |found(items[k])| <= 1
    ensures |Enrich(items, found)| <= |items|
  {
    if items != [] {
      EnrichBounded(items[..|items| - 1], found);
    }
  }

  /** With exactly one result per item, every item is in the results, at its own position. */
  lemma {:induction false} EnrichComplete<A, R>(items: seq<A>, found: A -> seq<R>)
    requires forall k | 0 <= k < |items| :: |found(items[k])| == 1
    ensures |Enrich(items, found)| == |items|
    ensures forall k | 0 <= k < |items| :: Enrich(items, found)[k] == found(items[k])[0]
  {
    if items != [] {
      EnrichComplete(items[..|items| - 1], found);
    }
  }

  /** Every result comes from one of the items. */
  lemma {:induction false} EnrichFromItems<A, R>(items: seq<A>, found: A -> seq<R>)
    ensures forall r | r in Enrich(items, found) :: exists k | 0 <= k < |items| :: r in found(items[k])
  {
    if items != [] {
      var init := items[..|items| - 1];
      EnrichFromItems(init, found);
      forall r | r in Enrich(items, found)
        ensures exists k | 0 <= k < |items| :: r in found(items[k])
      {
        if r in Enrich(init, found) {
          var k :| 0 <= k < |init| && r in found(init[k]);
          assert items[k] == init[k];
        } else {
          assert r in found(items[|items| - 1]);
        }
      }
    }
  }
}

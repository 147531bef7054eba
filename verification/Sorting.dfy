/** The one sort of this model: Python's stable sort, as repeated placing after everything not greater. */
module Sorting {

  /** Put x behind every item that it does not come before. */
  function Place<T>(items: seq<T>, x: T, before: (T, T) -> bool): (placed: seq<T>)
    ensures |placed| == |items| + 1 && multiset(placed) == multiset(items) + multiset{x}
  {
    if items == [] then [x]
    else
      var init, last := items[..|items| - 1], items[|items| - 1];
      assert items == init + [last];
      if before(x, last) then Place(init, x, before) + [last] else items + [x]
  }

  function Sort<T>(items: seq<T>, before: (T, T) -> bool): (sorted: seq<T>)
    ensures |sorted| == |items| && multiset(sorted) == multiset(items)
  {
    if items == [] then []
    else
      var init, last := items[..|items| - 1], items[|items| - 1];
      assert items == init + [last];
      Place(Sort(init, before), last, before)
  }

  /** `before` compares by a key: it is asymmetric, and not coming before is transitive. */
  ghost predicate ByKey<T(!new)>(before: (T, T) -> bool) {
    && (forall a, b :: before(a, b) ==> !before(b, a))
    && (forall a, b, c :: !before(b, a) && !before(c, b) ==> !before(c, a))
  }

  predicate Ordered<T>(items: seq<T>, before: (T, T) -> bool) {
    forall i, j :: 0 <= i < j < |items| ==> !before(items[j], items[i])
  }

  lemma FirstOrRest<T>(items: seq<T>)
    requires items != []
    ensures forall y :: y in items <==> y == items[0] || y in items[1..]
  {
    assert items == [items[0]] + items[1..];
  }

  /** The members of a list with one item placed. */
  lemma PlaceMembers<T>(items: seq<T>, x: T, before: (T, T) -> bool)
    ensures forall y :: y in Place(items, x, before) <==> y in items || y == x
  {
    var placed := Place(items, x, before);
    assert forall y :: y in placed <==> y in multiset(placed);
    hide Place;
  }

  lemma SortMembers<T>(items: seq<T>, before: (T, T) -> bool)
    ensures forall y :: y in Sort(items, before) <==> y in items
  {
    var sorted := Sort(items, before);
    assert forall y :: y in sorted <==> y in multiset(sorted);
    hide Sort;
  }

  lemma Append<T>(items: seq<T>, x: T, before: (T, T) -> bool)
    requires Ordered(items, before) && forall y :: y in items ==> !before(x, y)
    ensures Ordered(items + [x], before)
  {
  }

  lemma {:induction false} PlaceOrdered<T(!new)>(items: seq<T>, x: T, before: (T, T) -> bool)
    requires Ordered(items, before) && ByKey(before)
    ensures Ordered(Place(items, x, before), before)
  {
    if items != [] {
      var n := |items| - 1;
      var init, last := items[..n], items[n];
      if before(x, last) {
        PlaceOrdered(init, x, before);
        PlaceMembers(init, x, before);
        assert forall y :: y in init ==> !before(last, y);
        hide Ordered;
        Append(Place(init, x, before), last, before);
      } else {
        assert forall y :: y in items ==> y == last || !before(last, y);
        hide Ordered;
        assert forall y :: y in items ==> !before(x, y);
        Append(items, x, before);
      }
    }
  }

  lemma {:induction false} SortOrdered<T(!new)>(items: seq<T>, before: (T, T) -> bool)
    requires ByKey(before)
    ensures Ordered(Sort(items, before), before)
  {
    hide ByKey;
    if items != [] {
      SortOrdered(items[..|items| - 1], before);
      PlaceOrdered(Sort(items[..|items| - 1], before), items[|items| - 1], before);
    }
  }

  // --- What a sort is, place by place ---

  function Inserted<T>(items: seq<T>, k: nat, x: T): (r: seq<T>)
    requires k <= |items|
    ensures |r| == |items| + 1
  {
    items[..k] + [x] + items[k..]
  }

  lemma InsertedBefore<T>(init: seq<T>, last: T, k: nat, x: T)
    requires k <= |init|
    ensures Inserted(init, k, x) + [last] == Inserted(init + [last], k, x)
  {
    assert (init + [last])[..k] == init[..k];
    assert (init + [last])[k..] == init[k..] + [last];
  }

  lemma InsertedLast<T>(items: seq<T>, x: T)
    ensures items + [x] == Inserted(items, |items|, x)
  {
  }

  /** Where x was put. */
  lemma {:induction false} PlacedAt<T>(items: seq<T>, x: T, before: (T, T) -> bool) returns (k: nat)
    ensures k <= |items| && Place(items, x, before) == Inserted(items, k, x)
    ensures k > 0 ==> !before(x, items[k - 1])
    ensures forall j :: k <= j < |items| ==> before(x, items[j])
  {
    hide Inserted;
    k := |items|;
    InsertedLast(items, x);
    if items != [] {
      var n := |items| - 1;
      assert items == items[..n] + [items[n]];
      if before(x, items[n]) {
        k := PlacedAt(items[..n], x, before);
        InsertedBefore(items[..n], items[n], k, x);
      }
    } else {
      assert [] + [x] == [x];
    }
  }

  /** In an ordered list that is behind everything it does not come before. */
  lemma BehindAll<T(!new)>(items: seq<T>, x: T, before: (T, T) -> bool, k: nat)
    requires Ordered(items, before) && ByKey(before) && k <= |items| && (k > 0 ==> !before(x, items[k - 1]))
    ensures forall j :: 0 <= j < k ==> !before(x, items[j])
  {
  }

  /** Item i, which is x, goes in front of item j, which is y. */
  predicate Precedes<T>(before: (T, T) -> bool, x: T, i: nat, y: T, j: nat) {
    i != j && (before(x, y) || (!before(y, x) && i < j))
  }

  /** The sorted list holds item `at[n]` in place n: each item once, in order, equal ones as they were. */
  ghost predicate Arranges<T>(items: seq<T>, sorted: seq<T>, before: (T, T) -> bool, at: seq<nat>) {
    && |at| == |sorted| == |items|
    && (forall n :: 0 <= n < |at| ==> at[n] < |items| && sorted[n] == items[at[n]])
    && (forall i :: 0 <= i < |items| ==> i in at)
    && (forall n, m :: 0 <= n < m < |at| ==> Precedes(before, sorted[n], at[n], sorted[m], at[m]))
  }

  lemma InsertedAt<T>(items: seq<T>, k: nat, x: T, n: nat)
    requires k <= |items| && n <= |items|
    ensures Inserted(items, k, x)[n] == if n < k then items[n] else if n == k then x else items[n - 1]
  {
  }

  lemma InsertedPair<T>(sorted: seq<T>, before: (T, T) -> bool, at: seq<nat>, k: nat, x: T, i: nat, n: nat, m: nat)
    requires |at| == |sorted| && k <= |at| && n < m <= |at|
    requires forall p, q :: 0 <= p < q < |at| ==> Precedes(before, sorted[p], at[p], sorted[q], at[q])
    requires forall j :: 0 <= j < k ==> Precedes(before, sorted[j], at[j], x, i)
    requires forall j :: k <= j < |at| ==> Precedes(before, x, i, sorted[j], at[j])
    ensures
      var after, places := Inserted(sorted, k, x), Inserted<nat>(at, k, i);
      Precedes(before, after[n], places[n], after[m], places[m])
  {
    InsertedAt(sorted, k, x, n);
    InsertedAt(sorted, k, x, m);
    InsertedAt<nat>(at, k, i, n);
    InsertedAt<nat>(at, k, i, m);
    hide Precedes, Inserted;
  }

  lemma ArrangesOneMore<T>(items: seq<T>, sorted: seq<T>, before: (T, T) -> bool, at: seq<nat>, k: nat)
    requires items != [] && |at| == |sorted| && k <= |at| && Arranges(items[..|items| - 1], sorted, before, at)
    requires forall j :: 0 <= j < k ==> !before(items[|items| - 1], sorted[j])
    requires forall j :: k <= j < |sorted| ==> before(items[|items| - 1], sorted[j])
    ensures Arranges(items, Inserted(sorted, k, items[|items| - 1]), before, Inserted<nat>(at, k, |items| - 1))
  {
    var last := |items| - 1;
    assert forall j :: 0 <= j < k ==> Precedes(before, sorted[j], at[j], items[last], last);
    assert forall j :: k <= j < |at| ==> Precedes(before, items[last], last, sorted[j], at[j]);
    hide Precedes, Inserted;
    forall n, m | 0 <= n < m <= |at|
      ensures
        var after, places := Inserted(sorted, k, items[last]), Inserted<nat>(at, k, last);
        Precedes(before, after[n], places[n], after[m], places[m])
    {
      InsertedPair(sorted, before, at, k, items[last], last, n, m);
    }
    forall n | 0 <= n <= |at|
      ensures Inserted<nat>(at, k, last)[n] < |items|
      ensures Inserted(sorted, k, items[last])[n] == items[Inserted<nat>(at, k, last)[n]]
    {
      InsertedAt(sorted, k, items[last], n);
      InsertedAt<nat>(at, k, last, n);
    }
    forall i | 0 <= i < |items|
      ensures i in Inserted<nat>(at, k, last)
    {
      InsertedMembers<nat>(at, k, last, i);
    }
  }

  lemma InsertedMembers<T>(items: seq<T>, k: nat, x: T, y: T)
    requires k <= |items| && (y == x || y in items)
    ensures y in Inserted(items, k, x)
  {
    assert items == items[..k] + items[k..];
  }

  lemma {:induction false} SortArranges<T(!new)>(items: seq<T>, before: (T, T) -> bool) returns (at: seq<nat>)
    requires ByKey(before)
    ensures Arranges(items, Sort(items, before), before, at)
  {
    hide ByKey, Arranges, Ordered, Inserted, Place;
    if items == [] {
      at := [];
      NothingArranged(before);
    } else {
      var n := |items| - 1;
      var sorted := Sort(items[..n], before);
      at := SortArranges(items[..n], before);
      SortOrdered(items[..n], before);
      var k := PlacedAt(sorted, items[n], before);
      BehindAll(sorted, items[n], before, k);
      ArrangedLength(items[..n], sorted, before, at);
      ArrangesOneMore(items, sorted, before, at, k);
      at := Inserted<nat>(at, k, n);
    }
  }

  lemma ArrangedLength<T>(items: seq<T>, sorted: seq<T>, before: (T, T) -> bool, at: seq<nat>)
    requires Arranges(items, sorted, before, at)
    ensures |at| == |sorted|
  {
  }

  lemma NothingArranged<T>(before: (T, T) -> bool)
    ensures Arranges([], Sort([], before), before, [])
  {
  }
}

/** The percentile of the recorded timings, over exact numbers. */
module Percentile {
  import opened Arithmetic
  import opened Rounding
  import opened Sorting
  import opened Wrappers

  /** Where the q-th percentile of n values lies. */
  function Position(n: nat, q: real): real
    requires n > 0
  {
    q / 100.0 * (n - 1) as real
  }

  /** The rank that the q-th percentile of n values picks. */
  function Rank(n: nat, q: real): (k: nat)
    requires n > 0
    ensures k < n
  {
    var k := Round(Position(n, q));
    if k > n - 1 then n - 1 else if k < 0 then 0 else k
  }

  predicate Lower(a: real, b: real) {
    a < b
  }

  /** sorted(values) */
  function Sorted(values: seq<real>): (r: seq<real>)
    ensures Ordered(r, Lower) && multiset(r) == multiset(values) && |r| == |values|
  {
    assert ByKey(Lower);
    SortOrdered(values, Lower);
    Sort(values, Lower)
  }

  function Pct(values: seq<real>, q: real): Option<real> {
    if values == [] then None else Some(Sorted(values)[Rank(|values|, q)])
  }

  // --- What a percentile is ---

  function CountBelow(values: seq<real>, v: real): nat {
    if values == [] then 0 else (if values[0] < v then 1 else 0) + CountBelow(values[1..], v)
  }

  function CountUpTo(values: seq<real>, v: real): nat {
    if values == [] then 0 else (if values[0] <= v then 1 else 0) + CountUpTo(values[1..], v)
  }

  lemma {:induction false} CountsAfterRemoval(values: seq<real>, i: nat, v: real)
    requires i < |values|
    ensures CountBelow(values, v) == CountBelow(values[..i] + values[i + 1..], v) + if values[i] < v then 1 else 0
    ensures CountUpTo(values, v) == CountUpTo(values[..i] + values[i + 1..], v) + if values[i] <= v then 1 else 0
  {
    if i > 0 {
      CountsAfterRemoval(values[1..], i - 1, v);
      var rest := values[..i] + values[i + 1..];
      assert rest[1..] == values[1..][..i - 1] + values[1..][i..];
    } else {
      assert values[..0] + values[1..] == values[1..];
    }
  }

  lemma SameRest(a: seq<real>, b: seq<real>, i: nat)
    requires a != [] && multiset(a) == multiset(b) && i < |b| && b[i] == a[0]
    ensures multiset(a[1..]) == multiset(b[..i] + b[i + 1..])
  {
    Without(a, 0);
    Without(b, i);
    assert a[..0] + a[1..] == a[1..];
  }

  lemma Without(values: seq<real>, i: nat)
    requires i < |values|
    ensures multiset(values[..i] + values[i + 1..]) == multiset(values) - multiset{values[i]}
  {
    assert values == values[..i] + [values[i]] + values[i + 1..];
  }

  /** The counts do not depend on the order of the values. */
  lemma {:induction false} CountsPermute(a: seq<real>, b: seq<real>, v: real)
    requires multiset(a) == multiset(b)
    ensures CountBelow(a, v) == CountBelow(b, v) && CountUpTo(a, v) == CountUpTo(b, v)
  {
    if a == [] {
      assert |b| == |multiset(b)| == 0;
    } else {
      assert a[0] in multiset(b);
      var i :| 0 <= i < |b| && b[i] == a[0];
      var rest := b[..i] + b[i + 1..];
      CountsAfterRemoval(b, i, v);
      SameRest(a, b, i);
      CountsPermute(a[1..], rest, v);
    }
  }

  /** In a sorted list the counts place the value: below it lie only indices under `k`. */
  lemma {:induction false} CountsInOrder(values: seq<real>, v: real, k: nat)
    requires Ordered(values, Lower) && k < |values|
    ensures CountBelow(values, v) <= k <==> v <= values[k]
    ensures k < CountUpTo(values, v) <==> values[k] <= v
  {
    if k > 0 {
      CountsInOrder(values[1..], v, k - 1);
    } else {
      NoneBelow(values, v);
    }
  }

  lemma {:induction false} NoneBelow(values: seq<real>, v: real)
    requires Ordered(values, Lower) && values != []
    ensures CountBelow(values, v) == 0 <==> v <= values[0]
    ensures CountUpTo(values, v) == 0 <==> v < values[0]
  {
    if |values| > 1 {
      NoneBelow(values[1..], v);
    }
  }

  lemma PctAtRank(values: seq<real>, q: real, v: real)
    requires values != []
    ensures Pct(values, q) == Some(v) <==>
      v in values && CountBelow(values, v) <= Rank(|values|, q) < CountUpTo(values, v)
  {
    var sorted, k := Sorted(values), Rank(|values|, q);
    CountsPermute(values, sorted, v);
    CountsInOrder(sorted, v, k);
    assert sorted[k] in multiset(sorted);
  }

  /** Index k lies nearest to q hundredths of the way from the first of n to the last, a tie going to the even one. */
  predicate Nearest(n: nat, q: real, k: int) {
    var off := 100.0 * k as real - q * (n as real - 1.0);
    -50.0 <= off <= 50.0 && (off == 50.0 || off == -50.0 ==> k % 2 == 0)
  }

  lemma PositionScaled(n: nat, q: real)
    requires n > 0
    ensures 100.0 * Position(n, q) == q * (n as real - 1.0)
    ensures 0.0 <= q <= 100.0 ==> 0.0 <= Position(n, q) <= (n - 1) as real
  {
    var p, w := q / 100.0, (n - 1) as real;
    assert w == n as real - 1.0;
    assert 100.0 * p == q;
    if 0.0 <= q <= 100.0 {
      Scale(0.0, p, w);
      Scale(p, 1.0, w);
    }
  }

  /** The rank is the one nearest index. */
  lemma RankExactly(n: nat, q: real, k: int)
    requires n > 0 && 0.0 <= q <= 100.0
    ensures k == Rank(n, q) <==> Nearest(n, q, k)
  {
    var x := Position(n, q);
    PositionScaled(n, q);
    RoundExactly(x, k);
    RoundMonotone(0.0, x);
    RoundMonotone(x, (n - 1) as real);
    RoundWhole(0);
    RoundWhole(n - 1);
    hide Round, Position;
    assert Rank(n, q) == Round(x);
    assert 100.0 * (k as real - x) == 100.0 * k as real - q * (n as real - 1.0);
  }

  /** The percentile is exactly the member with at most k values below it and more than k up to it, where k is the index
      nearest to q hundredths of the way. */
  lemma PctExactly(values: seq<real>, q: real, k: int, v: real)
    requires 0.0 <= q <= 100.0 && Nearest(|values|, q, k)
    ensures values == [] ==> Pct(values, q) == None
    ensures values != [] ==>
      (Pct(values, q) == Some(v) <==> v in values && CountBelow(values, v) <= k < CountUpTo(values, v))
  {
    if values != [] {
      PctAtRank(values, q, v);
      RankExactly(|values|, q, k);
    }
  }

  lemma RankMonotone(n: nat, p: real, q: real)
    requires n > 0 && p <= q
    ensures Rank(n, p) <= Rank(n, q)
  {
    Scale(p / 100.0, q / 100.0, (n - 1) as real);
    RoundMonotone(Position(n, p), Position(n, q));
    hide Round, Position;
  }

  lemma RankEnds(n: nat)
    requires n > 0
    ensures Rank(n, 0.0) == 0 && Rank(n, 100.0) == n - 1
  {
    assert Position(n, 0.0) == 0.0;
    assert Position(n, 100.0) == (n - 1) as real;
  }

  /** A higher percentile is never smaller, so p50 <= p95 <= p99. */
  lemma PctMonotone(values: seq<real>, p: real, q: real)
    requires values != [] && p <= q
    ensures Pct(values, p).value <= Pct(values, q).value
  {
    RankMonotone(|values|, p, q);
    hide Rank;
  }

  /** The order in which the threads recorded the timings does not matter. */
  lemma PctPermutes(a: seq<real>, b: seq<real>, q: real)
    requires multiset(a) == multiset(b)
    ensures Pct(a, q) == Pct(b, q)
  {
    assert |a| == |multiset(a)| == |multiset(b)| == |b|;
    if a != [] {
      var v := Pct(a, q).value;
      PctAtRank(a, q, v);
      PctAtRank(b, q, v);
      CountsPermute(a, b, v);
      assert v in multiset(a);
    }
  }

  /** At 0 and below it is the least value, at 100 and above the greatest. */
  lemma PctEnds(values: seq<real>, q: real, w: real)
    requires w in values
    ensures q <= 0.0 ==> Pct(values, q).value <= w
    ensures q >= 100.0 ==> w <= Pct(values, q).value
  {
    var sorted, n := Sorted(values), |values|;
    assert w in multiset(sorted);
    var i :| 0 <= i < |sorted| && sorted[i] == w;
    RankEnds(n);
    if q <= 0.0 {
      RankMonotone(n, q, 0.0);
    } else if q >= 100.0 {
      RankMonotone(n, 100.0, q);
    }
    hide Rank, Sorted;
  }
}

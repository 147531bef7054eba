/** Quantities by layer, in thousandths of a unit, and how a need is met from them oldest first. */
module Amounts {

  function Min(a: nat, b: nat): nat {
    if a <= b then a else b
  }

  /** a - b, but never below zero. */
  function Minus(a: nat, b: nat): nat {
    if a >= b then a - b else 0
  }

  function Sum(amounts: seq<nat>): nat {
    if amounts == [] then 0 else Sum(amounts[..|amounts| - 1]) + amounts[|amounts| - 1]
  }

  /** The amount at a place; a place that is not listed holds none. */
  function Amount(amounts: seq<nat>, i: nat): nat {
    if i < |amounts| then amounts[i] else 0
  }

  /** What is still needed after the first n places gave what they hold. */
  function Left(amounts: seq<nat>, need: nat, n: nat): nat
    requires n <= |amounts|
  {
    if n == 0 then need else Minus(Left(amounts, need, n - 1), amounts[n - 1])
  }

  /** What each place gives towards the need, the first place first. */
  function Takes(amounts: seq<nat>, need: nat): (taken: seq<nat>)
    ensures |taken| == |amounts|
  {
    seq(|amounts|, i requires 0 <= i < |amounts| => Min(Left(amounts, need, i), amounts[i]))
  }

  lemma LeftStart(amounts: seq<nat>, need: nat)
    ensures Left(amounts, need, 0) == need
  {
  }

  /** One place's turn. */
  lemma TakeNext(amounts: seq<nat>, need: nat, i: nat)
    requires i < |amounts|
    ensures Takes(amounts, need)[i] == Min(Left(amounts, need, i), amounts[i])
    ensures Takes(amounts, need)[i] <= Left(amounts, need, i) && Takes(amounts, need)[i] <= amounts[i]
    ensures Left(amounts, need, i + 1) == Left(amounts, need, i) - Takes(amounts, need)[i]
  {
  }

  lemma {:induction false} TakesUpTo(amounts: seq<nat>, need: nat, n: nat)
    requires n <= |amounts|
    ensures Sum(Takes(amounts, need)[..n]) + Left(amounts, need, n) == need
    ensures Left(amounts, need, n) == Minus(need, Sum(amounts[..n]))
  {
    hide Sum, Takes, Left;
    if n == 0 {
      LeftStart(amounts, need);
      SumNone();
    } else {
      TakesUpTo(amounts, need, n - 1);
      SumNext(Takes(amounts, need), n - 1);
      SumNext(amounts, n - 1);
      TakeNext(amounts, need, n - 1);
    }
  }

  lemma SumNone()
    ensures Sum([]) == 0
  {
  }

  lemma SumNext(amounts: seq<nat>, n: nat)
    requires n < |amounts|
    ensures Sum(amounts[..n + 1]) == Sum(amounts[..n]) + amounts[n]
  {
    assert amounts[..n + 1][..n] == amounts[..n];
  }

  /** Altogether the places give the whole need, or all they hold. */
  lemma TakesAll(amounts: seq<nat>, need: nat)
    ensures Sum(Takes(amounts, need)) == Min(need, Sum(amounts))
    ensures Left(amounts, need, |amounts|) == Minus(need, Sum(amounts))
  {
    var taken := Takes(amounts, need);
    TakesUpTo(amounts, need, |amounts|);
    assert taken[..|amounts|] == taken && amounts[..|amounts|] == amounts;
  }

  lemma {:induction false} SumPlus(a: seq<nat>, b: seq<nat>, c: seq<nat>)
    requires |c| == |a| && forall i :: 0 <= i < |a| ==> c[i] == a[i] + Amount(b, i)
    requires |b| <= |a|
    ensures Sum(c) == Sum(a) + Sum(b)
  {
    if a != [] {
      var n := |a| - 1;
      if |b| == |a| {
        SumPlus(a[..n], b[..n], c[..n]);
      } else {
        SumPlus(a[..n], b, c[..n]);
      }
    }
  }

  lemma {:induction false} SumBounded(a: seq<nat>, b: seq<nat>)
    requires |a| == |b| && forall i :: 0 <= i < |a| ==> a[i] <= b[i]
    ensures Sum(a) <= Sum(b)
    ensures Sum(a) == Sum(b) ==> a == b
  {
    if a != [] {
      var n := |a| - 1;
      SumBounded(a[..n], b[..n]);
      assert a == a[..n] + [a[n]] && b == b[..n] + [b[n]];
    }
  }
}

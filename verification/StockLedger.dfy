/** First-in-first-out cost layers of one stock key: receipts add a layer, sales peel the oldest, returns put
    back exactly what their sale took, and cancelled returns take it out again. */
module StockLedger {
  import opened Amounts
  import opened Wrappers

  /** `original` is the quantity of the movement that created the layer; `byReturn` tells a layer that a return
      created for units sold without stock. */
  datatype Layer = Layer(original: nat, remaining: nat, cost: real, byReturn: bool)

  /** A sale: what it took from each layer, what it sold without stock and at which cost, and its total cost. */
  datatype Sale = Sale(qty: nat, taken: seq<nat>, short: nat, shortCost: real, cost: real)

  /** A return of one sale: what it put back on each layer. */
  datatype Return = Return(sale: nat, qty: nat, put: seq<nat>, inForce: bool)

  datatype Stock = Stock(block: bool, onHand: int, layers: seq<Layer>, sales: seq<Sale>, returned: seq<Return>)

  datatype Refusal =
    NotPositive | InsufficientStock | InsufficientLayers | MoreThanSold | AlreadyCancelled | UnknownDocument

  // --- Specification of the four movements ---

  function Remaining(layers: seq<Layer>): (amounts: seq<nat>)
    ensures |amounts| == |layers|
  {
    seq(|layers|, i requires 0 <= i < |layers| => layers[i].remaining)
  }

  function Received(s: Stock, qty: nat, cost: real): Result<Stock, Refusal> {
    if qty == 0 then Failure(NotPositive)
    else Success(s.(onHand := s.onHand + qty, layers := s.layers + [Layer(qty, qty, cost, false)]))
  }

  /** The layers with these amounts taken out, or put in. */
  function Without(layers: seq<Layer>, taken: seq<nat>): (r: seq<Layer>)
    ensures |r| == |layers|
  {
    seq(|layers|, i requires 0 <= i < |layers| => layers[i].(remaining := Minus(layers[i].remaining, Amount(taken, i))))
  }

  function With(layers: seq<Layer>, put: seq<nat>): (r: seq<Layer>)
    ensures |r| == |layers|
  {
    seq(|layers|, i requires 0 <= i < |layers| => layers[i].(remaining := layers[i].remaining + Amount(put, i)))
  }

  function Price(qty: nat, cost: real): real {
    qty as real * cost
  }

  lemma NoPrice(cost: real)
    ensures Price(0, cost) == 0.0
  {
  }

  function Cost(layers: seq<Layer>, taken: seq<nat>, n: nat): real
    requires n <= |layers| && n <= |taken|
  {
    if n == 0 then 0.0 else Cost(layers, taken, n - 1) + Price(taken[n - 1], layers[n - 1].cost)
  }

  /** The cost of the last layer that gave something; zero when none did. */
  function LastCost(layers: seq<Layer>, taken: seq<nat>, n: nat): real
    requires n <= |layers| && n <= |taken|
  {
    if n == 0 then 0.0 else if taken[n - 1] > 0 then layers[n - 1].cost else LastCost(layers, taken, n - 1)
  }

  /** A unit sold without stock is costed at the last layer peeled, else at the given cost. */
  function ShortCost(last: real, otherwise: real): real {
    if last > 0.0 then last else otherwise
  }

  function SaleOf(s: Stock, qty: nat, otherwise: real): Sale {
    var taken := Takes(Remaining(s.layers), qty);
    var short := Left(Remaining(s.layers), qty, |s.layers|);
    var shortCost := ShortCost(LastCost(s.layers, taken, |taken|), otherwise);
    Sale(qty, taken, short, shortCost, Cost(s.layers, taken, |taken|) + Price(short, shortCost))
  }

  function Issued(s: Stock, qty: nat, otherwise: real): Result<Stock, Refusal> {
    var sale := SaleOf(s, qty, otherwise);
    if qty == 0 then Failure(NotPositive)
    else if s.block && s.onHand < qty then Failure(InsufficientStock)
    else if s.block && sale.short > 0 then Failure(InsufficientLayers)
    else Success(s.(onHand := s.onHand - qty, layers := Without(s.layers, sale.taken), sales := s.sales + [sale]))
  }

  /** What the returns of a sale that are in force put back on a layer. */
  function Already(returned: seq<Return>, sale: nat, layer: nat): nat {
    if returned == [] then 0
    else
      var last := returned[|returned| - 1];
      Already(returned[..|returned| - 1], sale, layer)
      + if last.sale == sale && last.inForce then Amount(last.put, layer) else 0
  }

  function ReturnedQty(returned: seq<Return>, sale: nat): nat {
    if returned == [] then 0
    else
      var last := returned[|returned| - 1];
      ReturnedQty(returned[..|returned| - 1], sale) + if last.sale == sale && last.inForce then last.qty else 0
  }

  /** What a sale took from each layer and no return in force has put back. */
  function Owed(s: Stock, sale: nat): (owed: seq<nat>)
    requires sale < |s.sales|
    ensures |owed| == |s.sales[sale].taken|
  {
    var taken := s.sales[sale].taken;
    seq(|taken|, i requires 0 <= i < |taken| => Minus(taken[i], Already(s.returned, sale, i)))
  }

  /** What may be put back on each layer: what is owed to it, but never more than makes it whole again. */
  function MayPut(layers: seq<Layer>, owed: seq<nat>): (amounts: seq<nat>)
    ensures |amounts| == |owed|
  {
    seq(|owed|, i requires 0 <= i < |owed| =>
      if i < |layers| then Min(owed[i], Minus(layers[i].original, layers[i].remaining)) else 0)
  }

  function MayPutAll(s: Stock, sale: nat): seq<nat>
    requires sale < |s.sales|
  {
    MayPut(s.layers, Owed(s, sale))
  }

  /** The units of a return beyond what its layers take, up to those sold without stock. */
  function FreshQty(s: Stock, sale: nat, qty: nat): nat
    requires sale < |s.sales|
  {
    var amounts := MayPutAll(s, sale);
    Min(Left(amounts, qty, |amounts|), s.sales[sale].short)
  }

  /** The amounts with zeros up to n places; every sale lists at most as many places as there are layers. */
  function Pad(amounts: seq<nat>, n: nat): (r: seq<nat>)
    ensures |amounts| <= n ==> |r| == n
  {
    amounts + seq(Minus(n, |amounts|), _ => 0)
  }

  function Returned(s: Stock, sale: nat, qty: nat): Result<Stock, Refusal> {
    if qty == 0 then Failure(NotPositive)
    else if sale >= |s.sales| then Failure(UnknownDocument)
    else if ReturnedQty(s.returned, sale) + qty > s.sales[sale].qty then Failure(MoreThanSold)
    else
      var put := Takes(MayPutAll(s, sale), qty);
      var more := FreshQty(s, sale, qty);
      var back := With(s.layers, put);
      if more > 0 then
        Success(s.(
          onHand := s.onHand + qty,
          layers := back + [Layer(qty, more, s.sales[sale].shortCost, true)],
          returned := s.returned + [Return(sale, qty, Pad(put, |s.layers|) + [more], true)]))
      else
        Success(s.(onHand := s.onHand + qty, layers := back, returned := s.returned + [Return(sale, qty, put, true)]))
  }

  function Backwards(amounts: seq<nat>): (r: seq<nat>)
    ensures |r| == |amounts|
  {
    seq(|amounts|, i requires 0 <= i < |amounts| => amounts[|amounts| - 1 - i])
  }

  /** What the layers still hold of what a sale took, at most. */
  function Held(layers: seq<Layer>, taken: seq<nat>): (amounts: seq<nat>)
    ensures |amounts| == |taken|
  {
    seq(|taken|, i requires 0 <= i < |taken| => if i < |layers| then Min(taken[i], layers[i].remaining) else 0)
  }

  /** What a return without detail is undone from: the layers its sale peeled, the last one first. */
  function Undone(layers: seq<Layer>, taken: seq<nat>, need: nat): (amounts: seq<nat>)
    ensures |amounts| == |taken|
  {
    Backwards(Takes(Backwards(Held(layers, taken)), need))
  }

  predicate NoDetail(put: seq<nat>) {
    forall i :: 0 <= i < |put| ==> put[i] == 0
  }

  /** What a cancel takes from the layers: what the return put there, or without such detail an estimate. */
  function Unput(s: Stock, r: nat): seq<nat>
    requires r < |s.returned|
  {
    var ret := s.returned[r];
    if NoDetail(ret.put) && ret.sale < |s.sales| then
      Undone(s.layers, s.sales[ret.sale].taken, Minus(ret.qty, s.sales[ret.sale].short))
    else ret.put
  }

  function Cancelled(s: Stock, r: nat): Result<Stock, Refusal> {
    if r >= |s.returned| then Failure(UnknownDocument)
    else if !s.returned[r].inForce then Failure(AlreadyCancelled)
    else if s.block && s.onHand < s.returned[r].qty then Failure(InsufficientStock)
    else Success(s.(
      onHand := s.onHand - s.returned[r].qty,
      layers := Without(s.layers, Unput(s, r)),
      returned := s.returned[r := s.returned[r].(inForce := false)]))
  }

  // --- The ledger ---

  class Ledger {
    const block: bool
    var onHand: int
    var layers: seq<Layer>
    var sales: seq<Sale>
    var returned: seq<Return>

    constructor (block: bool)
      ensures View() == Stock(block, 0, [], [], [])
    {
      this.block := block;
      onHand, layers, sales, returned := 0, [], [], [];
    }

    function View(): Stock
      reads this
    {
      Stock(block, onHand, layers, sales, returned)
    }

    method Receive(qty: nat, cost: real) returns (refused: Option<Refusal>)
      modifies this
      ensures match Received(old(View()), qty, cost)
              case Success(after) => refused.None? && View() == after
              case Failure(why) => refused == Some(why) && View() == old(View())
    {
      if qty == 0 {
        return Some(NotPositive);
      }
      refused := None;
      onHand := onHand + qty;
      layers := layers + [Layer(qty, qty, cost, false)];
    }

    method Issue(qty: nat, otherwise: real) returns (refused: Option<Refusal>)
      modifies this
      ensures match Issued(old(View()), qty, otherwise)
              case Success(after) => refused.None? && View() == after
              case Failure(why) => refused == Some(why) && View() == old(View())
    {
      hide Takes, Left, Without, Cost, LastCost, Price;
      if qty == 0 {
        return Some(NotPositive);
      }
      if block && onHand < qty {
        return Some(InsufficientStock);
      }
      var peeled, taken, remaining, costTotal, lastCost := Peel(layers, qty);
      var shortCost := ShortCost(lastCost, otherwise);
      NoPrice(shortCost);
      if remaining > 0 {
        if block {
          return Some(InsufficientLayers);
        }
        costTotal := costTotal + Price(remaining, shortCost);
      }
      onHand := onHand - qty;
      layers := peeled;
      sales := sales + [Sale(qty, taken, remaining, shortCost, costTotal)];
      refused := None;
    }

    /** Put a return back on the layers that its sale peeled. */
    method TakeBack(sale: nat, qty: nat) returns (refused: Option<Refusal>)
      modifies this
      ensures match Returned(old(View()), sale, qty)
              case Success(after) => refused.None? && View() == after
              case Failure(why) => refused == Some(why) && View() == old(View())
    {
      hide Takes, Left, With, MayPut, ReturnedQty;
      if qty == 0 {
        return Some(NotPositive);
      }
      if sale >= |sales| {
        return Some(UnknownDocument);
      }
      if ReturnedQty(returned, sale) + qty > sales[sale].qty {
        return Some(MoreThanSold);
      }
      var back, put, left := Restore(layers, Owed(View(), sale), qty);
      var more := if left <= sales[sale].short then left else sales[sale].short;
      onHand := onHand + qty;
      if more > 0 {
        returned := returned + [Return(sale, qty, Pad(put, |layers|) + [more], true)];
        layers := back + [Layer(qty, more, sales[sale].shortCost, true)];
      } else {
        layers := back;
        returned := returned + [Return(sale, qty, put, true)];
      }
      refused := None;
    }

    /** Take out of the layers what a return put there, as far as it is still there. */
    method Cancel(r: nat) returns (refused: Option<Refusal>)
      modifies this
      ensures match Cancelled(old(View()), r)
              case Success(after) => refused.None? && View() == after
              case Failure(why) => refused == Some(why) && View() == old(View())
    {
      if r >= |returned| {
        return Some(UnknownDocument);
      }
      if !returned[r].inForce {
        return Some(AlreadyCancelled);
      }
      if block && onHand < returned[r].qty {
        return Some(InsufficientStock);
      }
      hide Without, Undone;
      onHand := onHand - returned[r].qty;
      var ret := returned[r];
      if NoDetail(ret.put) && ret.sale < |sales| {
        layers := UndoPeels(layers, sales[ret.sale].taken, Minus(ret.qty, sales[ret.sale].short));
      } else {
        layers := UndoDetail(layers, ret.put);
      }
      returned := returned[r := ret.(inForce := false)];
      refused := None;
    }
  }

  /** Take out of each layer what was put there, as far as it is still there. */
  method UndoDetail(layers: seq<Layer>, put: seq<nat>) returns (left: seq<Layer>)
    ensures left == Without(layers, put)
  {
    left := layers;
    for i := 0 to |put|
      invariant |left| == |layers|
      invariant forall k :: 0 <= k < |layers| ==>
        left[k] == if k < i then layers[k].(remaining := Minus(layers[k].remaining, put[k])) else layers[k]
    {
      if i < |left| {
        var take := Min(put[i], left[i].remaining);
        left := left[i := left[i].(remaining := left[i].remaining - take)];
      }
    }
  }

  /** One layer's turn in undoing without detail. */
  lemma UndoTurn(layers: seq<Layer>, taken: seq<nat>, need: nat, i: nat)
    requires i < |taken|
    ensures
      var back := Backwards(Held(layers, taken));
      var left := Left(back, need, |taken| - 1 - i);
      && Undone(layers, taken, need)[i] == Min(left, Held(layers, taken)[i]) <= left
      && Left(back, need, |taken| - i) == left - Undone(layers, taken, need)[i]
  {
    hide Takes, Backwards, Held, Left, Min;
    var back, n := Backwards(Held(layers, taken)), |taken| - 1 - i;
    TakeNext(back, need, n);
    BackwardsAt(Held(layers, taken), n);
    BackwardsAt(Takes(back, need), i);
  }

  lemma HeldAt(layers: seq<Layer>, taken: seq<nat>, i: nat)
    requires i < |taken|
    ensures Held(layers, taken)[i] == if i < |layers| then Min(taken[i], layers[i].remaining) else 0
  {
  }

  lemma BackwardsAt(amounts: seq<nat>, i: nat)
    requires i < |amounts|
    ensures Backwards(amounts)[i] == amounts[|amounts| - 1 - i]
  {
  }

  /** Empty the layers that a sale peeled, the last one first. */
  method UndoPeels(layers: seq<Layer>, taken: seq<nat>, need: nat) returns (after: seq<Layer>)
    ensures after == Without(layers, Undone(layers, taken, need))
  {
    ghost var all, back := Undone(layers, taken, need), Backwards(Held(layers, taken));
    LeftStart(back, need);
    hide Undone, Backwards, Held, Left;
    after := layers;
    var left := need;
    for i := |taken| downto 0
      invariant |after| == |layers| && left == Left(back, need, |taken| - i)
      invariant forall k :: 0 <= k < |layers| ==>
        after[k] == if i <= k < |taken| then layers[k].(remaining := Minus(layers[k].remaining, all[k])) else layers[k]
    {
      UndoTurn(layers, taken, need, i);
      HeldAt(layers, taken, i);
      var take := 0;
      if i < |after| {
        take := Min(left, Min(taken[i], after[i].remaining));
        after := after[i := after[i].(remaining := after[i].remaining - take)];
      }
      left := left - take;
    }
  }

  lemma IsWithout(layers: seq<Layer>, taken: seq<nat>, r: seq<Layer>)
    requires |r| == |layers| == |taken|
    requires forall k :: 0 <= k < |layers| ==> r[k] == layers[k].(remaining := Minus(layers[k].remaining, taken[k]))
    ensures r == Without(layers, taken)
  {
  }

  lemma IsWith(layers: seq<Layer>, put: seq<nat>, r: seq<Layer>)
    requires |r| == |layers|
    requires forall k :: 0 <= k < |layers| ==>
      r[k] == if k < |put| then layers[k].(remaining := layers[k].remaining + put[k]) else layers[k]
    ensures r == With(layers, put)
  {
  }

  /** One layer's turn in peeling. */
  lemma PeelTurn(layers: seq<Layer>, qty: nat, i: nat)
    requires i < |layers|
    ensures
      var amounts, all := Remaining(layers), Takes(Remaining(layers), qty);
      && all[i] == Min(Left(amounts, qty, i), layers[i].remaining)
      && all[i] <= Left(amounts, qty, i) && all[i] <= layers[i].remaining
      && Left(amounts, qty, i + 1) == Left(amounts, qty, i) - all[i]
  {
    TakeNext(Remaining(layers), qty, i);
    assert Remaining(layers)[i] == layers[i].remaining;
  }

  /** Peel the oldest layers until the need is met. */
  method Peel(layers: seq<Layer>, qty: nat)
    returns (peeled: seq<Layer>, taken: seq<nat>, remaining: nat, costTotal: real, lastCost: real)
    ensures taken == Takes(Remaining(layers), qty) && peeled == Without(layers, taken)
    ensures remaining == Left(Remaining(layers), qty, |layers|)
    ensures costTotal == Cost(layers, taken, |taken|) && lastCost == LastCost(layers, taken, |taken|)
  {
    ghost var amounts := Remaining(layers);
    ghost var all := Takes(amounts, qty);
    hide Takes, Remaining, Left, Without, Price;
    peeled, taken := layers, [];
    remaining, costTotal, lastCost := qty, 0.0, 0.0;
    assert Left(amounts, qty, 0) == qty by { LeftStart(amounts, qty); }
    for i := 0 to |layers|
      invariant |peeled| == |layers| && |taken| == i
      invariant forall k :: 0 <= k < i ==> taken[k] == all[k]
      invariant forall k :: 0 <= k < |layers| ==>
        peeled[k] == if k < i then layers[k].(remaining := Minus(layers[k].remaining, all[k])) else layers[k]
      invariant remaining == Left(amounts, qty, i)
      invariant costTotal == Cost(layers, all, i)
      invariant lastCost == LastCost(layers, all, i)
    {
      PeelTurn(layers, qty, i);
      var take := Min(remaining, peeled[i].remaining);
      costTotal := costTotal + Price(take, peeled[i].cost);
      if take > 0 {
        lastCost := peeled[i].cost;
      }
      peeled := peeled[i := peeled[i].(remaining := peeled[i].remaining - take)];
      taken := taken + [take];
      remaining := remaining - take;
    }
    assert taken == all;
    IsWithout(layers, all, peeled);
  }

  /** One layer's turn in a return: it gets no more than is left, is owed to it, or makes it whole again. */
  lemma RestoreTurn(layers: seq<Layer>, owed: seq<nat>, qty: nat, i: nat)
    requires i < |owed|
    ensures
      var amounts, all := MayPut(layers, owed), Takes(MayPut(layers, owed), qty);
      var left := Left(amounts, qty, i);
      && (if i < |layers| then all[i] == Min(Min(left, owed[i]), Minus(layers[i].original, layers[i].remaining))
          else all[i] == 0)
      && all[i] <= left && Left(amounts, qty, i + 1) == left - all[i]
  {
    TakeNext(MayPut(layers, owed), qty, i);
  }

  /** Put a quantity back on the layers that it is owed to, oldest first. */
  method Restore(layers: seq<Layer>, owed: seq<nat>, qty: nat) returns (back: seq<Layer>, put: seq<nat>, left: nat)
    ensures put == Takes(MayPut(layers, owed), qty) && back == With(layers, put)
    ensures left == Left(MayPut(layers, owed), qty, |put|)
  {
    ghost var amounts := MayPut(layers, owed);
    ghost var all := Takes(amounts, qty);
    hide Takes, MayPut, Left, With;
    back, put, left := layers, [], qty;
    LeftStart(amounts, qty);
    for i := 0 to |owed|
      invariant |back| == |layers| && |put| == i
      invariant forall k :: 0 <= k < i ==> put[k] == all[k]
      invariant forall k :: 0 <= k < |layers| ==>
        back[k] == if k < i then layers[k].(remaining := layers[k].remaining + all[k]) else layers[k]
      invariant left == Left(amounts, qty, i)
    {
      RestoreTurn(layers, owed, qty, i);
      var take := 0;
      if i < |back| {
        take := Min(Min(left, owed[i]), Minus(back[i].original, back[i].remaining));
        back := back[i := back[i].(remaining := back[i].remaining + take)];
      }
      put := put + [take];
      left := left - take;
    }
    assert put == all;
    IsWith(layers, all, back);
  }
}

/** What the cost layers keep over every run of receipts, sales, returns and cancelled returns. */
module LedgerLaws {
  import opened Amounts
  import opened StockLedger
  import opened Wrappers

  function Total(layers: seq<Layer>): nat {
    Sum(Remaining(layers))
  }

  function Shorts(sales: seq<Sale>): nat {
    if sales == [] then 0 else Shorts(sales[..|sales| - 1]) + sales[|sales| - 1].short
  }

  /** What the first n sales took from a layer and has not been put back. */
  function OwedOn(sales: seq<Sale>, returned: seq<Return>, layer: nat, n: nat): nat
    requires n <= |sales|
  {
    if n == 0 then 0
    else
      OwedOn(sales, returned, layer, n - 1)
      + Minus(Amount(sales[n - 1].taken, layer), Already(returned, n - 1, layer))
  }

  // --- The laws ---

  ghost predicate SalesAddUp(sales: seq<Sale>, layers: nat) {
    forall i :: 0 <= i < |sales| ==> Sum(sales[i].taken) + sales[i].short == sales[i].qty && |sales[i].taken| <= layers
  }

  /** A return puts back what it brings, on layers its sale peeled or on one of its own. */
  ghost predicate ReturnAddsUp(r: Return, sales: seq<Sale>, layers: seq<Layer>) {
    && r.sale < |sales| && |r.put| <= |layers| && Sum(r.put) == r.qty > 0
    && forall j :: |sales[r.sale].taken| <= j < |r.put| && r.put[j] > 0 ==> layers[j].byReturn
  }

  ghost predicate ReturnsAddUp(returned: seq<Return>, sales: seq<Sale>, layers: seq<Layer>) {
    forall r :: 0 <= r < |returned| ==> ReturnAddsUp(returned[r], sales, layers)
  }

  ghost predicate WithinSold(sales: seq<Sale>, returned: seq<Return>) {
    forall i :: 0 <= i < |sales| ==> ReturnedQty(returned, i) <= sales[i].qty
  }

  ghost predicate WithinTaken(sales: seq<Sale>, returned: seq<Return>) {
    forall i, j :: 0 <= i < |sales| && 0 <= j < |sales[i].taken| ==> Already(returned, i, j) <= sales[i].taken[j]
  }

  /** A layer lacks exactly what was taken from it and not put back; a layer made by a return at least that. */
  ghost predicate LayerExact(layers: seq<Layer>, sales: seq<Sale>, returned: seq<Return>, j: nat)
    requires j < |layers|
  {
    var whole := layers[j].remaining + OwedOn(sales, returned, j, |sales|);
    whole <= layers[j].original && (!layers[j].byReturn ==> whole == layers[j].original)
  }

  ghost predicate LayersExact(layers: seq<Layer>, sales: seq<Sale>, returned: seq<Return>) {
    forall j :: 0 <= j < |layers| ==> LayerExact(layers, sales, returned, j)
  }

  /** The layers hold what is on hand, and what was sold without stock. */
  ghost predicate Balanced(s: Stock) {
    Total(s.layers) == s.onHand + Shorts(s.sales) && (s.block ==> Shorts(s.sales) == 0)
  }

  ghost predicate Good(s: Stock) {
    && SalesAddUp(s.sales, |s.layers|) && ReturnsAddUp(s.returned, s.sales, s.layers)
    && WithinSold(s.sales, s.returned) && WithinTaken(s.sales, s.returned)
    && LayersExact(s.layers, s.sales, s.returned) && Balanced(s)
  }

  // --- Sums over sales and returns ---

  lemma {:induction false} NoReturns(returned: seq<Return>, sale: nat, layer: nat)
    requires forall r :: 0 <= r < |returned| ==> returned[r].sale != sale
    ensures Already(returned, sale, layer) == 0 && ReturnedQty(returned, sale) == 0
  {
    if returned != [] {
      NoReturns(returned[..|returned| - 1], sale, layer);
    }
  }

  lemma OneMoreReturn(returned: seq<Return>, r: Return, sale: nat, layer: nat)
    ensures Already(returned + [r], sale, layer)
      == Already(returned, sale, layer) + if r.sale == sale && r.inForce then Amount(r.put, layer) else 0
    ensures ReturnedQty(returned + [r], sale)
      == ReturnedQty(returned, sale) + if r.sale == sale && r.inForce then r.qty else 0
  {
    assert (returned + [r])[..|returned|] == returned;
  }

  lemma {:induction false} OneLessReturn(returned: seq<Return>, r: nat, sale: nat, layer: nat)
    requires r < |returned| && returned[r].inForce
    ensures
      var after := returned[r := returned[r].(inForce := false)];
      && Already(after, sale, layer) + (if returned[r].sale == sale then Amount(returned[r].put, layer) else 0)
         == Already(returned, sale, layer)
      && ReturnedQty(after, sale) + (if returned[r].sale == sale then returned[r].qty else 0)
         == ReturnedQty(returned, sale)
  {
    var n := |returned| - 1;
    var after := returned[r := returned[r].(inForce := false)];
    if r < n {
      OneLessReturn(returned[..n], r, sale, layer);
      assert after[..n] == returned[..n][r := returned[r].(inForce := false)];
    } else {
      assert after[..n] == returned[..n];
    }
  }

  /** Sales made later, or layers no sale peeled, owe nothing. */
  lemma {:induction false} NothingOwed(sales: seq<Sale>, returned: seq<Return>, layer: nat, n: nat)
    requires n <= |sales| && forall i :: 0 <= i < n ==> |sales[i].taken| <= layer
    ensures OwedOn(sales, returned, layer, n) == 0
  {
    if n > 0 {
      NothingOwed(sales, returned, layer, n - 1);
    }
  }

  /** When the returns of one sale change, what is owed changes by that sale's share alone. */
  lemma {:induction false} OwedShift(sales: seq<Sale>, sales': seq<Sale>, returned: seq<Return>, returned': seq<Return>,
                                     layer: nat, n: nat, sale: nat, d: int)
    requires n <= |sales| && n <= |sales'| && sales[..n] == sales'[..n]
    requires forall i: nat :: i != sale ==> Already(returned', i, layer) == Already(returned, i, layer)
    requires sale < n ==>
      Minus(Amount(sales[sale].taken, layer), Already(returned', sale, layer))
        == Minus(Amount(sales[sale].taken, layer), Already(returned, sale, layer)) + d
    ensures OwedOn(sales', returned', layer, n) == OwedOn(sales, returned, layer, n) + if sale < n then d else 0
  {
    if n > 0 {
      assert sales[..n][n - 1] == sales'[..n][n - 1];
      assert sales[..n - 1] == sales[..n][..n - 1] && sales'[..n - 1] == sales'[..n][..n - 1];
      OwedShift(sales, sales', returned, returned', layer, n - 1, sale, d);
    }
  }

  // --- Receipts ---

  lemma RemainingAppend(layers: seq<Layer>, l: Layer)
    ensures Total(layers + [l]) == Total(layers) + l.remaining
  {
    assert Remaining(layers + [l]) == Remaining(layers) + [l.remaining];
    assert Remaining(layers + [l])[..|layers|] == Remaining(layers);
  }

  /** A new layer leaves the laws about layers as they were: no sale has peeled it yet. */
  lemma LayerAdded(layers: seq<Layer>, sales: seq<Sale>, returned: seq<Return>, l: Layer)
    requires SalesAddUp(sales, |layers|) && LayersExact(layers, sales, returned)
    requires l.remaining <= l.original && (!l.byReturn ==> l.remaining == l.original)
    ensures LayersExact(layers + [l], sales, returned) && SalesAddUp(sales, |layers + [l]|)
  {
    var layers' := layers + [l];
    NothingOwed(sales, returned, |layers|, |sales|);
    forall j | 0 <= j < |layers'|
      ensures LayerExact(layers', sales, returned, j)
    {
      assert j < |layers| ==> LayerExact(layers, sales, returned, j);
    }
  }

  /** Layers that are added, or only change what remains on them, leave what the returns add up to. */
  lemma StillAddsUp(returned: seq<Return>, sales: seq<Sale>, layers: seq<Layer>, layers': seq<Layer>)
    requires ReturnsAddUp(returned, sales, layers) && |layers'| >= |layers|
    requires forall j :: 0 <= j < |layers| ==> layers'[j].byReturn == layers[j].byReturn
    ensures ReturnsAddUp(returned, sales, layers')
  {
    forall r | 0 <= r < |returned|
      ensures ReturnAddsUp(returned[r], sales, layers')
    {
      assert ReturnAddsUp(returned[r], sales, layers);
    }
  }

  /** A receipt keeps the laws. */
  lemma ReceiptKeeps(s: Stock, qty: nat, cost: real)
    requires Good(s) && Received(s, qty, cost).Success?
    ensures Good(Received(s, qty, cost).value)
  {
    var l := Layer(qty, qty, cost, false);
    RemainingAppend(s.layers, l);
    LayerAdded(s.layers, s.sales, s.returned, l);
    StillAddsUp(s.returned, s.sales, s.layers, s.layers + [l]);
  }

  // --- Sales ---

  lemma TotalWithout(layers: seq<Layer>, taken: seq<nat>)
    requires |taken| <= |layers| && forall j :: 0 <= j < |taken| ==> taken[j] <= layers[j].remaining
    ensures Total(Without(layers, taken)) + Sum(taken) == Total(layers)
  {
    SumPlus(Remaining(Without(layers, taken)), taken, Remaining(layers));
  }

  lemma TotalWith(layers: seq<Layer>, put: seq<nat>)
    requires |put| <= |layers|
    ensures Total(With(layers, put)) == Total(layers) + Sum(put)
  {
    SumPlus(Remaining(layers), put, Remaining(With(layers, put)));
  }

  /** What a sale takes: at most what each layer holds, and all of the need that is not short. */
  lemma SaleTakes(layers: seq<Layer>, qty: nat)
    ensures
      var taken := Takes(Remaining(layers), qty);
      && |taken| == |layers| && (forall j :: 0 <= j < |layers| ==> taken[j] <= layers[j].remaining)
      && Sum(taken) + Left(Remaining(layers), qty, |layers|) == qty
      && Left(Remaining(layers), qty, |layers|) == Minus(qty, Total(layers))
  {
    var amounts := Remaining(layers);
    TakesAll(amounts, qty);
    forall j | 0 <= j < |layers|
      ensures Takes(amounts, qty)[j] <= layers[j].remaining
    {
      TakeNext(amounts, qty, j);
    }
  }

  lemma {:induction false} SaleOwes(layers: seq<Layer>, sales: seq<Sale>, returned: seq<Return>, sale: Sale)
    requires LayersExact(layers, sales, returned) && ReturnsAddUp(returned, sales, layers)
    requires |sale.taken| == |layers| && forall j :: 0 <= j < |layers| ==> sale.taken[j] <= layers[j].remaining
    ensures LayersExact(Without(layers, sale.taken), sales + [sale], returned)
  {
    var layers', sales' := Without(layers, sale.taken), sales + [sale];
    forall j | 0 <= j < |layers|
      ensures LayerExact(layers', sales', returned, j)
    {
      assert LayerExact(layers, sales, returned, j);
      assert sales'[..|sales|] == sales[..|sales|];
      OwedShift(sales, sales', returned, returned, j, |sales|, |sales|, 0);
      NoneForNewSale(returned, sales, layers, j);
      hide Without, Already, ReturnsAddUp, LayersExact;
      assert OwedOn(sales', returned, j, |sales'|) == OwedOn(sales, returned, j, |sales|) + sale.taken[j];
    }
  }

  lemma NoneForNewSale(returned: seq<Return>, sales: seq<Sale>, layers: seq<Layer>, j: nat)
    requires ReturnsAddUp(returned, sales, layers)
    ensures Already(returned, |sales|, j) == 0 && ReturnedQty(returned, |sales|) == 0
  {
    assert forall r :: 0 <= r < |returned| ==> ReturnAddsUp(returned[r], sales, layers);
    NoReturns(returned, |sales|, j);
  }

  lemma SaleFits(sales: seq<Sale>, returned: seq<Return>, layers: seq<Layer>, sale: Sale)
    requires SalesAddUp(sales, |layers|) && ReturnsAddUp(returned, sales, layers)
    requires WithinSold(sales, returned) && WithinTaken(sales, returned)
    requires Sum(sale.taken) + sale.short == sale.qty && |sale.taken| == |layers|
    ensures SalesAddUp(sales + [sale], |layers|) && ReturnsAddUp(returned, sales + [sale], Without(layers, sale.taken))
    ensures WithinSold(sales + [sale], returned) && WithinTaken(sales + [sale], returned)
  {
    var sales', layers' := sales + [sale], Without(layers, sale.taken);
    forall r | 0 <= r < |returned|
      ensures ReturnAddsUp(returned[r], sales', layers')
    {
      assert ReturnAddsUp(returned[r], sales, layers);
    }
    NoneForNewSale(returned, sales, layers, 0);
    forall j: nat
      ensures Already(returned, |sales|, j) == 0
    {
      NoneForNewSale(returned, sales, layers, j);
    }
    hide Without, Already, ReturnedQty, ReturnsAddUp;
  }

  /** A sale keeps the laws. */
  lemma SaleKeeps(s: Stock, qty: nat, otherwise: real)
    requires Good(s) && Issued(s, qty, otherwise).Success?
    ensures Good(Issued(s, qty, otherwise).value)
  {
    hide Without, Takes, Left, Total, LayersExact, SalesAddUp, ReturnsAddUp, WithinSold, WithinTaken, Cost, LastCost;
    var sale := SaleOf(s, qty, otherwise);
    SaleTakes(s.layers, qty);
    SaleOwes(s.layers, s.sales, s.returned, sale);
    SaleFits(s.sales, s.returned, s.layers, sale);
    TotalWithout(s.layers, sale.taken);
    assert (s.sales + [sale])[..|s.sales|] == s.sales;
  }

  /** In every state: where stock may not go negative, a sale goes through exactly when both the stock on hand and
      the layers cover it, and each refusal says which of them does not. */
  lemma SaleExactly(s: Stock, qty: nat, otherwise: real)
    ensures Issued(s, qty, otherwise).Success? <==>
      0 < qty && (s.block ==> qty <= s.onHand && qty <= Total(s.layers))
    ensures Issued(s, qty, otherwise) == Failure(InsufficientStock) <==> s.block && 0 < qty && s.onHand < qty
    ensures Issued(s, qty, otherwise) == Failure(InsufficientLayers) <==>
      s.block && 0 < qty <= s.onHand && Total(s.layers) < qty
  {
    hide Takes, Left, Total, Cost, LastCost, Without;
    SaleTakes(s.layers, qty);
  }

  /** Where the laws hold the layers cover what is on hand, so a sale goes through exactly when that covers it. */
  lemma SaleGoesThrough(s: Stock, qty: nat, otherwise: real)
    requires Good(s) && s.block
    ensures Issued(s, qty, otherwise).Success? <==> 0 < qty <= s.onHand
    ensures Issued(s, qty, otherwise) != Failure(InsufficientLayers)
  {
    hide Total, Issued, LayersExact, SalesAddUp, ReturnsAddUp, WithinSold, WithinTaken;
    SaleExactly(s, qty, otherwise);
  }

  // --- Returns ---

  /** Where the laws hold, a layer has room for everything owed to it: the cap never bites. */
  lemma RoomForOwed(s: Stock, sale: nat, j: nat)
    requires Good(s) && sale < |s.sales| && j < |s.sales[sale].taken|
    ensures j < |s.layers| && MayPutAll(s, sale)[j] == Owed(s, sale)[j]
    ensures Owed(s, sale)[j] == s.sales[sale].taken[j] - Already(s.returned, sale, j)
  {
    assert LayerExact(s.layers, s.sales, s.returned, j);
    OneOfOwed(s.sales, s.returned, j, |s.sales|, sale);
    hide Already, OwedOn;
  }

  lemma {:induction false} OneOfOwed(sales: seq<Sale>, returned: seq<Return>, layer: nat, n: nat, sale: nat)
    requires sale < n <= |sales|
    ensures Minus(Amount(sales[sale].taken, layer), Already(returned, sale, layer)) <= OwedOn(sales, returned, layer, n)
  {
    if sale < n - 1 {
      OneOfOwed(sales, returned, layer, n - 1, sale);
    }
  }

  function AlreadyAll(returned: seq<Return>, sale: nat, n: nat): (amounts: seq<nat>)
    ensures |amounts| == n
  {
    seq(n, j requires 0 <= j < n => Already(returned, sale, j))
  }

  lemma {:induction false} SumPrefix(put: seq<nat>, n: nat, part: seq<nat>)
    requires |part| == n && forall j :: 0 <= j < n ==> part[j] == Amount(put, j)
    ensures Sum(part) <= Sum(put)
  {
    if n > |put| {
      assert part[n - 1] == 0;
      SumPrefix(put, n - 1, part[..n - 1]);
    } else if n < |put| {
      SumPrefix(put[..|put| - 1], n, part);
    } else {
      assert part == put;
    }
  }

  lemma SumsAdd(a: seq<nat>, b: seq<nat>, c: seq<nat>)
    requires |a| == |b| == |c| && forall j :: 0 <= j < |a| ==> c[j] == a[j] + b[j]
    ensures Sum(c) == Sum(a) + Sum(b)
  {
    SumPlus(a, b, c);
  }

  /** The returns of a sale put back no more on its layers than they brought. */
  lemma {:induction false} AlreadyTotal(returned: seq<Return>, sale: nat, n: nat)
    requires forall r :: 0 <= r < |returned| ==> Sum(returned[r].put) == returned[r].qty
    ensures Sum(AlreadyAll(returned, sale, n)) <= ReturnedQty(returned, sale)
  {
    if returned == [] {
      ZeroSum(AlreadyAll(returned, sale, n));
    } else {
      var last, before := returned[|returned| - 1], returned[..|returned| - 1];
      AlreadyTotal(before, sale, n);
      var part := seq(n, j requires 0 <= j < n => Amount(last.put, j));
      SumPrefix(last.put, n, part);
      if last.sale == sale && last.inForce {
        SumsAdd(AlreadyAll(before, sale, n), part, AlreadyAll(returned, sale, n));
      } else {
        assert AlreadyAll(returned, sale, n) == AlreadyAll(before, sale, n);
      }
    }
  }

  lemma {:induction false} ZeroSum(amounts: seq<nat>)
    requires forall j :: 0 <= j < |amounts| ==> amounts[j] == 0
    ensures Sum(amounts) == 0
  {
    if amounts != [] {
      ZeroSum(amounts[..|amounts| - 1]);
    }
  }

  lemma OwedSplits(s: Stock, sale: nat)
    requires Good(s) && sale < |s.sales|
    ensures MayPutAll(s, sale) == Owed(s, sale)
    ensures Sum(Owed(s, sale)) + Sum(AlreadyAll(s.returned, sale, |s.sales[sale].taken|)) == Sum(s.sales[sale].taken)
  {
    var taken := s.sales[sale].taken;
    var already := AlreadyAll(s.returned, sale, |taken|);
    forall j | 0 <= j < |taken|
      ensures MayPutAll(s, sale)[j] == Owed(s, sale)[j] && taken[j] == Owed(s, sale)[j] + already[j]
    {
      RoomForOwed(s, sale, j);
    }
    hide MayPut, Owed, AlreadyAll, Good;
    SumsAdd(Owed(s, sale), already, taken);
  }

  /** How many units of a return find a place: on the layers of its sale or among those sold without stock. */
  function Puts(s: Stock, sale: nat, qty: nat): nat
    requires sale < |s.sales|
  {
    Min(qty, Sum(MayPutAll(s, sale)) + s.sales[sale].short)
  }

  /** In every state: a return puts back as many units as find a place, so all it brings exactly when there is
      a place for all. */
  lemma ReturnPuts(s: Stock, sale: nat, qty: nat)
    requires sale < |s.sales|
    ensures
      var put := Sum(Takes(MayPutAll(s, sale), qty)) + FreshQty(s, sale, qty);
      put == Puts(s, sale, qty) && (put == qty <==> qty <= Sum(MayPutAll(s, sale)) + s.sales[sale].short)
  {
    hide Takes, Left, MayPutAll, Sum;
    TakesAll(MayPutAll(s, sale), qty);
  }

  /** Where the laws hold there is a place for every unit that may still be returned. */
  lemma PlaceForAll(s: Stock, sale: nat)
    requires Good(s) && sale < |s.sales|
    ensures Sum(MayPutAll(s, sale)) + s.sales[sale].short + ReturnedQty(s.returned, sale) >= s.sales[sale].qty
  {
    OwedSplits(s, sale);
    assert forall r :: 0 <= r < |s.returned| ==> ReturnAddsUp(s.returned[r], s.sales, s.layers);
    AlreadyTotal(s.returned, sale, |s.sales[sale].taken|);
    hide MayPutAll, Owed, AlreadyAll, LayersExact, WithinSold, WithinTaken, Balanced, ReturnsAddUp, ReturnedQty;
  }

  /** Where the laws hold a return of no more than is left of its sale puts back exactly what it brings. */
  lemma ReturnPutsAll(s: Stock, sale: nat, qty: nat)
    requires Good(s) && sale < |s.sales| && ReturnedQty(s.returned, sale) + qty <= s.sales[sale].qty
    ensures Sum(Takes(MayPutAll(s, sale), qty)) + FreshQty(s, sale, qty) == qty == Puts(s, sale, qty)
  {
    hide Takes, FreshQty, MayPutAll, Good, ReturnedQty, Sum;
    PlaceForAll(s, sale);
    ReturnPuts(s, sale, qty);
  }

  /** What a return changes in what is owed: on each layer its sale peeled, what it puts there. */
  lemma ReturnOwes(sales: seq<Sale>, returned: seq<Return>, r: Return, j: nat)
    requires r.inForce && r.sale < |sales|
    requires j < |sales[r.sale].taken| ==> Already(returned, r.sale, j) + Amount(r.put, j) <= sales[r.sale].taken[j]
    ensures OwedOn(sales, returned + [r], j, |sales|) + (if j < |sales[r.sale].taken| then Amount(r.put, j) else 0)
      == OwedOn(sales, returned, j, |sales|)
  {
    forall i: nat
      ensures Already(returned + [r], i, j) == Already(returned, i, j) + if r.sale == i then Amount(r.put, j) else 0
    {
      OneMoreReturn(returned, r, i, j);
    }
    var d: int := if j < |sales[r.sale].taken| then 0 - Amount(r.put, j) else 0;
    hide Already, OwedOn;
    OwedShift(sales, sales, returned, returned + [r], j, |sales|, r.sale, d);
  }

  /** A return that puts at most what is owed on each layer keeps the laws about layers. */
  lemma ReturnedLayers(layers: seq<Layer>, sales: seq<Sale>, returned: seq<Return>, r: Return, put: seq<nat>)
    requires LayersExact(layers, sales, returned) && r.inForce && r.sale < |sales|
    requires |put| == |sales[r.sale].taken| <= |layers|
    requires forall j: nat :: j < |layers| ==> Amount(r.put, j) == Amount(put, j)
    requires forall j :: 0 <= j < |put| ==> Already(returned, r.sale, j) + put[j] <= sales[r.sale].taken[j]
    ensures LayersExact(With(layers, put), sales, returned + [r])
  {
    forall j | 0 <= j < |layers|
      ensures LayerExact(With(layers, put), sales, returned + [r], j)
    {
      assert LayerExact(layers, sales, returned, j);
      assert Amount(r.put, j) == Amount(put, j);
      ReturnOwes(sales, returned, r, j);
      hide Already, OwedOn;
    }
  }

  lemma ReturnedWithin(sales: seq<Sale>, returned: seq<Return>, r: Return)
    requires WithinSold(sales, returned) && WithinTaken(sales, returned) && r.inForce && r.sale < |sales|
    requires ReturnedQty(returned, r.sale) + r.qty <= sales[r.sale].qty
    requires forall j :: 0 <= j < |sales[r.sale].taken| ==>
      Already(returned, r.sale, j) + Amount(r.put, j) <= sales[r.sale].taken[j]
    ensures WithinSold(sales, returned + [r]) && WithinTaken(sales, returned + [r])
  {
    forall i, j | 0 <= i < |sales| && 0 <= j < |sales[i].taken|
      ensures Already(returned + [r], i, j) <= sales[i].taken[j]
    {
      OneMoreReturn(returned, r, i, j);
    }
    forall i | 0 <= i < |sales|
      ensures ReturnedQty(returned + [r], i) <= sales[i].qty
    {
      OneMoreReturn(returned, r, i, 0);
    }
  }

  lemma PadSum(put: seq<nat>, n: nat)
    requires |put| <= n
    ensures Sum(Pad(put, n)) == Sum(put)
  {
    var zeros := seq(n, _ => 0);
    ZeroSum(zeros);
    SumPlus(zeros, put, Pad(put, n));
  }

  /** Padding adds nothing below n, and what follows it stands at n. */
  lemma PadAmount(put: seq<nat>, n: nat, more: nat)
    requires |put| <= n
    ensures forall j: nat :: j < n ==> Amount(Pad(put, n) + [more], j) == Amount(put, j)
    ensures Amount(Pad(put, n) + [more], n) == more
  {
  }

  lemma AmountsAt(put: seq<nat>)
    ensures forall j :: 0 <= j < |put| ==> Amount(put, j) == put[j]
  {
  }

  /** The return that a successful one records, and what it leaves of the layers its sale peeled. */
  function Recorded(s: Stock, sale: nat, qty: nat): Return
    requires sale < |s.sales|
  {
    Return(sale, qty, Takes(MayPutAll(s, sale), qty), true)
  }

  /** A return that finds room for everything on the layers of its sale keeps the laws. */
  lemma PlainReturnKeeps(s: Stock, sale: nat, qty: nat)
    requires Good(s) && sale < |s.sales| && 0 < qty && ReturnedQty(s.returned, sale) + qty <= s.sales[sale].qty
    requires FreshQty(s, sale, qty) == 0
    ensures Good(Returned(s, sale, qty).value)
  {
    hide Takes, MayPutAll, FreshQty, Total, WithinSold, WithinTaken, LayersExact, Already, ReturnedQty;
    var r := Recorded(s, sale, qty);
    ReturnPutsAll(s, sale, qty);
    PutsWhatIsOwed(s, sale, qty);
    ReturnedLayers(s.layers, s.sales, s.returned, r, r.put);
    ReturnedWithin(s.sales, s.returned, r);
    TotalWith(s.layers, r.put);
    StillAddsUp(s.returned, s.sales, s.layers, With(s.layers, r.put));
  }

  lemma PutsWhatIsOwed(s: Stock, sale: nat, qty: nat)
    requires Good(s) && sale < |s.sales|
    ensures
      var put := Takes(MayPutAll(s, sale), qty);
      && |put| == |s.sales[sale].taken| <= |s.layers|
      && forall j :: 0 <= j < |put| ==> Already(s.returned, sale, j) + put[j] <= s.sales[sale].taken[j]
  {
    var put := Takes(MayPutAll(s, sale), qty);
    forall j | 0 <= j < |put|
      ensures Already(s.returned, sale, j) + put[j] <= s.sales[sale].taken[j]
    {
      RoomForOwed(s, sale, j);
      TakeNext(MayPutAll(s, sale), qty, j);
    }
  }

  function FreshReturn(s: Stock, sale: nat, qty: nat): Return
    requires sale < |s.sales|
  {
    Return(sale, qty, Pad(Takes(MayPutAll(s, sale), qty), |s.layers|) + [FreshQty(s, sale, qty)], true)
  }

  function FreshLayers(s: Stock, sale: nat, qty: nat): seq<Layer>
    requires sale < |s.sales|
  {
    With(s.layers, Takes(MayPutAll(s, sale), qty)) + [Layer(qty, FreshQty(s, sale, qty), s.sales[sale].shortCost, true)]
  }

  lemma FreshExact(s: Stock, sale: nat, qty: nat)
    requires Good(s) && sale < |s.sales| && FreshQty(s, sale, qty) <= qty
    requires ReturnedQty(s.returned, sale) + qty <= s.sales[sale].qty
    ensures
      var r, layers := FreshReturn(s, sale, qty), FreshLayers(s, sale, qty);
      && LayersExact(layers, s.sales, s.returned + [r]) && SalesAddUp(s.sales, |layers|)
      && WithinSold(s.sales, s.returned + [r]) && WithinTaken(s.sales, s.returned + [r])
  {
    hide Takes, MayPutAll, FreshQty, LayersExact, Already, ReturnedQty, Pad, Amount, ReturnsAddUp, WithinSold,
         WithinTaken;
    var put, more := Takes(MayPutAll(s, sale), qty), FreshQty(s, sale, qty);
    PutsWhatIsOwed(s, sale, qty);
    var r, l := FreshReturn(s, sale, qty), Layer(qty, more, s.sales[sale].shortCost, true);
    PadAmount(put, |s.layers|, more);
    ReturnedLayers(s.layers, s.sales, s.returned, r, put);
    AmountsAt(put);
    ReturnedWithin(s.sales, s.returned, r);
    LayerAdded(With(s.layers, put), s.sales, s.returned + [r], l);
  }

  lemma FreshTotals(s: Stock, sale: nat, qty: nat)
    requires Good(s) && sale < |s.sales| && 0 < qty && ReturnedQty(s.returned, sale) + qty <= s.sales[sale].qty
    ensures Total(FreshLayers(s, sale, qty)) == Total(s.layers) + qty
    ensures ReturnsAddUp(s.returned + [FreshReturn(s, sale, qty)], s.sales, FreshLayers(s, sale, qty))
  {
    var put, more := Takes(MayPutAll(s, sale), qty), FreshQty(s, sale, qty);
    var r, layers := FreshReturn(s, sale, qty), FreshLayers(s, sale, qty);
    ReturnPutsAll(s, sale, qty);
    PutsWhatIsOwed(s, sale, qty);
    TotalWith(s.layers, put);
    RemainingAppend(With(s.layers, put), Layer(qty, more, s.sales[sale].shortCost, true));
    StillAddsUp(s.returned, s.sales, s.layers, layers);
    hide Takes, MayPutAll, FreshQty, Total, Good, Already, ReturnedQty, ReturnAddsUp;
    FreshAddsUp(s, r, put, more, layers);
  }

  /** A return of more than its sale's layers take makes a new layer for the rest, and keeps the laws. */
  lemma FreshReturnKeeps(s: Stock, sale: nat, qty: nat)
    requires Good(s) && sale < |s.sales| && 0 < qty && ReturnedQty(s.returned, sale) + qty <= s.sales[sale].qty
    requires FreshQty(s, sale, qty) > 0
    ensures Good(Returned(s, sale, qty).value)
  {
    ReturnPutsAll(s, sale, qty);
    FreshExact(s, sale, qty);
    FreshTotals(s, sale, qty);
    FreshShape(s, sale, qty);
    hide Takes, MayPutAll, FreshQty, Total, WithinSold, WithinTaken, LayersExact, ReturnsAddUp, SalesAddUp,
         FreshLayers, FreshReturn, Returned, ReturnedQty;
  }

  lemma FreshAddsUp(s: Stock, r: Return, put: seq<nat>, more: nat, layers: seq<Layer>)
    requires r.sale < |s.sales| && |put| == |s.sales[r.sale].taken| <= |s.layers| && |layers| == |s.layers| + 1
    requires r.put == Pad(put, |s.layers|) + [more] && layers[|s.layers|].byReturn && Sum(put) + more == r.qty
    requires r.qty > 0
    ensures ReturnAddsUp(r, s.sales, layers)
  {
    var padded := Pad(put, |s.layers|);
    PadSum(put, |s.layers|);
    assert r.put[..|padded|] == padded;
  }

  lemma PlainShape(s: Stock, sale: nat, qty: nat)
    requires Returned(s, sale, qty).Success? && FreshQty(s, sale, qty) == 0
    ensures Returned(s, sale, qty).value == s.(
      onHand := s.onHand + qty, layers := With(s.layers, Takes(MayPutAll(s, sale), qty)),
      returned := s.returned + [Recorded(s, sale, qty)])
  {
    hide FreshQty, With, Takes, MayPutAll, ReturnedQty;
  }

  lemma FreshShape(s: Stock, sale: nat, qty: nat)
    requires Returned(s, sale, qty).Success? && FreshQty(s, sale, qty) > 0
    ensures Returned(s, sale, qty).value == s.(
      onHand := s.onHand + qty,
      layers := FreshLayers(s, sale, qty), returned := s.returned + [FreshReturn(s, sale, qty)])
  {
    hide FreshQty, With, Takes, MayPutAll, ReturnedQty, Pad;
  }

  /** A return keeps the laws. */
  lemma ReturnKeeps(s: Stock, sale: nat, qty: nat)
    requires Good(s) && Returned(s, sale, qty).Success?
    ensures Good(Returned(s, sale, qty).value)
  {
    hide Good, FreshQty, Takes, MayPutAll, With;
    if FreshQty(s, sale, qty) == 0 {
      PlainReturnKeeps(s, sale, qty);
    } else {
      FreshReturnKeeps(s, sale, qty);
    }
  }

  // --- Cancelled returns ---

  /** Everything that the return put back is still on its layers. */
  predicate StillThere(s: Stock, r: nat)
    requires r < |s.returned|
  {
    forall j :: 0 <= j < |s.returned[r].put| && j < |s.layers| ==> s.returned[r].put[j] <= s.layers[j].remaining
  }

  lemma CancelOwes(sales: seq<Sale>, returned: seq<Return>, r: nat, j: nat)
    requires r < |returned| && returned[r].inForce && returned[r].sale < |sales| && WithinTaken(sales, returned)
    ensures
      var after := returned[r := returned[r].(inForce := false)];
      OwedOn(sales, after, j, |sales|) == OwedOn(sales, returned, j, |sales|)
        + if j < |sales[returned[r].sale].taken| then Amount(returned[r].put, j) else 0
  {
    var sale := returned[r].sale;
    var after := returned[r := returned[r].(inForce := false)];
    forall i: nat
      ensures Already(after, i, j) + (if sale == i then Amount(returned[r].put, j) else 0) == Already(returned, i, j)
    {
      OneLessReturn(returned, r, i, j);
    }
    var d: int := if j < |sales[sale].taken| then Amount(returned[r].put, j) else 0;
    hide Already, OwedOn;
    OwedShift(sales, sales, returned, after, j, |sales|, sale, d);
  }

  lemma CancelledLayers(layers: seq<Layer>, sales: seq<Sale>, returned: seq<Return>, r: nat)
    requires LayersExact(layers, sales, returned) && r < |returned| && returned[r].inForce
    requires ReturnAddsUp(returned[r], sales, layers) && WithinTaken(sales, returned)
    requires forall j :: 0 <= j < |returned[r].put| ==> returned[r].put[j] <= layers[j].remaining
    ensures LayersExact(Without(layers, returned[r].put), sales, returned[r := returned[r].(inForce := false)])
  {
    var after, layers' := returned[r := returned[r].(inForce := false)], Without(layers, returned[r].put);
    forall j | 0 <= j < |layers|
      ensures LayerExact(layers', sales, after, j)
    {
      assert LayerExact(layers, sales, returned, j);
      CancelOwes(sales, returned, r, j);
      hide Already, OwedOn;
    }
  }

  lemma CancelledWithin(sales: seq<Sale>, returned: seq<Return>, r: nat)
    requires WithinSold(sales, returned) && WithinTaken(sales, returned) && r < |returned| && returned[r].inForce
    ensures
      var after := returned[r := returned[r].(inForce := false)];
      WithinSold(sales, after) && WithinTaken(sales, after)
  {
    var after := returned[r := returned[r].(inForce := false)];
    forall i, j | 0 <= i < |sales| && 0 <= j < |sales[i].taken|
      ensures Already(after, i, j) <= sales[i].taken[j]
    {
      OneLessReturn(returned, r, i, j);
    }
    forall i | 0 <= i < |sales|
      ensures ReturnedQty(after, i) <= sales[i].qty
    {
      OneLessReturn(returned, r, i, 0);
    }
  }

  /** What a cancelled return leaves: the layers lose what is still there of it. */
  lemma TotalCancelled(layers: seq<Layer>, put: seq<nat>)
    requires |put| <= |layers|
    ensures
      var there := forall j :: 0 <= j < |put| ==> put[j] <= layers[j].remaining;
      && (there ==> Total(Without(layers, put)) + Sum(put) == Total(layers))
      && (!there ==> Total(Without(layers, put)) + Sum(put) > Total(layers))
  {
    var taken := seq(|put|, j requires 0 <= j < |put| => Min(put[j], layers[j].remaining));
    assert Without(layers, put) == Without(layers, taken);
    TotalWithout(layers, taken);
    SumBounded(taken, put);
    if forall j :: 0 <= j < |put| ==> put[j] <= layers[j].remaining {
      assert taken == put;
    } else {
      var j :| 0 <= j < |put| && put[j] > layers[j].remaining;
      assert taken[j] != put[j];
    }
  }

  /** A return that brought something has detail, so its cancel follows the detail. */
  lemma DetailDecides(s: Stock, r: nat)
    requires r < |s.returned| && ReturnAddsUp(s.returned[r], s.sales, s.layers)
    ensures Unput(s, r) == s.returned[r].put
  {
    if NoDetail(s.returned[r].put) {
      ZeroSum(s.returned[r].put);
    }
    hide Undone;
  }

  lemma CancelShape(s: Stock, r: nat)
    requires Cancelled(s, r).Success? && ReturnAddsUp(s.returned[r], s.sales, s.layers)
    ensures Cancelled(s, r).value == s.(
      onHand := s.onHand - s.returned[r].qty, layers := Without(s.layers, s.returned[r].put),
      returned := s.returned[r := s.returned[r].(inForce := false)])
  {
    DetailDecides(s, r);
    hide Unput, Without, ReturnAddsUp;
  }

  lemma CancelledAddsUp(s: Stock, r: nat)
    requires r < |s.returned| && ReturnsAddUp(s.returned, s.sales, s.layers)
    ensures
      ReturnsAddUp(s.returned[r := s.returned[r].(inForce := false)], s.sales, Without(s.layers, s.returned[r].put))
  {
    var layers := Without(s.layers, s.returned[r].put);
    StillAddsUp(s.returned, s.sales, s.layers, layers);
    var after := s.returned[r := s.returned[r].(inForce := false)];
    forall k | 0 <= k < |after|
      ensures ReturnAddsUp(after[k], s.sales, layers)
    {
      assert ReturnAddsUp(s.returned[k], s.sales, layers);
    }
  }

  /** Cancelling a return keeps the laws exactly when everything that the return put back is still on its
      layers: units sold again in the meantime leave the layers with more than is on hand. */
  lemma CancelKeepsExactly(s: Stock, r: nat)
    requires Good(s) && Cancelled(s, r).Success?
    ensures Good(Cancelled(s, r).value) <==> StillThere(s, r)
  {
    assert ReturnAddsUp(s.returned[r], s.sales, s.layers);
    CancelShape(s, r);
    TotalCancelled(s.layers, s.returned[r].put);
    if StillThere(s, r) {
      CancelledLayers(s.layers, s.sales, s.returned, r);
      CancelledWithin(s.sales, s.returned, r);
      CancelledAddsUp(s, r);
    }
    hide Total, Without, WithinSold, WithinTaken, LayersExact, SalesAddUp, ReturnsAddUp;
  }
}

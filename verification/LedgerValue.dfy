/** The value of the cost layers: what comes in, what goes out, and what returns put back. */
module LedgerValue {
  import opened Amounts
  import opened Arithmetic
  import opened LedgerDrift
  import opened LedgerLaws
  import opened LedgerRuns
  import opened Rounding
  import opened StockLedger

  /** What these amounts of the first n layers are worth. */
  function Worth(layers: seq<Layer>, amounts: seq<nat>, n: nat): real
    requires n <= |layers|
  {
    if n == 0 then 0.0 else Worth(layers, amounts, n - 1) + Price(Amount(amounts, n - 1), layers[n - 1].cost)
  }

  function Value(layers: seq<Layer>): real {
    Worth(layers, Remaining(layers), |layers|)
  }

  /** The value of all receipts. */
  function ReceivedValue(layers: seq<Layer>): real {
    if layers == [] then 0.0
    else
      var last := layers[|layers| - 1];
      ReceivedValue(layers[..|layers| - 1]) + if last.byReturn then 0.0 else Price(last.original, last.cost)
  }

  /** The cost of all units that sales took from layers. */
  function PeeledCost(sales: seq<Sale>): real {
    if sales == [] then 0.0
    else
      var last := sales[|sales| - 1];
      PeeledCost(sales[..|sales| - 1]) + last.cost - Price(last.short, last.shortCost)
  }

  /** The value of all units that returns in force put on layers. */
  function PutValue(layers: seq<Layer>, returned: seq<Return>): real {
    if returned == [] then 0.0
    else
      var last := returned[|returned| - 1];
      PutValue(layers, returned[..|returned| - 1]) + if last.inForce then Worth(layers, last.put, |layers|) else 0.0
  }

  /** Value received and put back is on the layers or was peeled, but for the value that is stuck. */
  ghost predicate Conserved(s: Stock, stuck: real) {
    Value(s.layers) + PeeledCost(s.sales) == ReceivedValue(s.layers) + PutValue(s.layers, s.returned) + stuck
  }

  /** The value that a cancel leaves on the layers of what the return is recorded to have put there, less what it
      takes beyond the record. */
  function StuckValue(s: Stock, r: nat): real
    requires r < |s.returned|
  {
    Worth(s.layers, s.returned[r].put, |s.layers|) - Worth(s.layers, Removed(s.layers, Unput(s, r)), |s.layers|)
  }

  function StepStuckValue(s: Stock, m: Movement): real {
    if m.CancelReturn? && Cancelled(s, m.r).Success? then StuckValue(s, m.r) else 0.0
  }

  function RunStuckValue(block: bool, moves: seq<Movement>): real {
    if moves == [] then 0.0
    else
      var n := |moves| - 1;
      RunStuckValue(block, moves[..n]) + StepStuckValue(Run(block, moves[..n]), moves[n])
  }

  // --- Sums of prices ---

  lemma PriceAdds(a: nat, b: nat, cost: real)
    ensures Price(a + b, cost) == Price(a, cost) + Price(b, cost)
  {
  }

  ghost predicate SameCosts(layers: seq<Layer>, layers': seq<Layer>, n: nat) {
    n <= |layers| && n <= |layers'| && forall j :: 0 <= j < n ==> layers'[j].cost == layers[j].cost
  }

  lemma {:induction false} SameWorth(layers: seq<Layer>, layers': seq<Layer>, amounts: seq<nat>, amounts': seq<nat>,
                                     n: nat)
    requires SameCosts(layers, layers', n)
    requires forall j: nat :: j < n ==> Amount(amounts, j) == Amount(amounts', j)
    ensures Worth(layers, amounts, n) == Worth(layers', amounts', n)
  {
    hide Price, Amount;
    if n > 0 {
      SameWorth(layers, layers', amounts, amounts', n - 1);
      assert Amount(amounts, n - 1) == Amount(amounts', n - 1);
    }
  }

  lemma {:induction false} WorthAdds(layers: seq<Layer>, a: seq<nat>, b: seq<nat>, c: seq<nat>, n: nat)
    requires n <= |layers|
    requires forall j: nat :: j < n ==> Amount(c, j) == Amount(a, j) + Amount(b, j)
    ensures Worth(layers, c, n) == Worth(layers, a, n) + Worth(layers, b, n)
  {
    hide Price, Amount;
    if n > 0 {
      WorthAdds(layers, a, b, c, n - 1);
      assert Amount(c, n - 1) == Amount(a, n - 1) + Amount(b, n - 1);
      PriceAdds(Amount(a, n - 1), Amount(b, n - 1), layers[n - 1].cost);
    }
  }

  lemma {:induction false} WorthIsCost(layers: seq<Layer>, taken: seq<nat>, n: nat)
    requires n <= |layers| && n <= |taken|
    ensures Worth(layers, taken, n) == Cost(layers, taken, n)
  {
    hide Price;
    if n > 0 {
      WorthIsCost(layers, taken, n - 1);
    }
  }

  /** Places beyond the amounts are worth nothing. */
  lemma WorthOneMore(layers: seq<Layer>, l: Layer, amounts: seq<nat>)
    ensures Worth(layers + [l], amounts, |layers| + 1)
      == Worth(layers, amounts, |layers|) + Price(Amount(amounts, |layers|), l.cost)
  {
    SameWorth(layers, layers + [l], amounts, amounts, |layers|);
    hide Price;
  }

  lemma ValueWithout(layers: seq<Layer>, taken: seq<nat>)
    requires forall j: nat :: j < |layers| ==> Amount(taken, j) <= layers[j].remaining
    ensures Value(Without(layers, taken)) + Worth(layers, taken, |layers|) == Value(layers)
  {
    var after := Without(layers, taken);
    SameWorth(after, layers, Remaining(after), Remaining(after), |layers|);
    forall j: nat | j < |layers|
      ensures Amount(Remaining(layers), j) == Amount(Remaining(after), j) + Amount(taken, j)
    {
    }
    hide Worth, Remaining, Without;
    WorthAdds(layers, Remaining(after), taken, Remaining(layers), |layers|);
  }

  lemma ValueWith(layers: seq<Layer>, put: seq<nat>)
    ensures Value(With(layers, put)) == Value(layers) + Worth(layers, put, |layers|)
  {
    var after := With(layers, put);
    SameWorth(after, layers, Remaining(after), Remaining(after), |layers|);
    forall j: nat | j < |layers|
      ensures Amount(Remaining(after), j) == Amount(Remaining(layers), j) + Amount(put, j)
    {
    }
    hide Worth, Remaining, With;
    WorthAdds(layers, Remaining(layers), put, Remaining(after), |layers|);
  }

  lemma ValueAppend(layers: seq<Layer>, l: Layer)
    ensures Value(layers + [l]) == Value(layers) + Price(l.remaining, l.cost)
  {
    var all := Remaining(layers + [l]);
    WorthOneMore(layers, l, all);
    assert forall j: nat :: j < |layers| ==> Amount(all, j) == Amount(Remaining(layers), j);
    SameWorth(layers, layers, all, Remaining(layers), |layers|);
    hide Worth, Price;
  }

  /** Layers that change only in what remains on them. */
  ghost predicate SameLayers(layers: seq<Layer>, layers': seq<Layer>) {
    && |layers'| == |layers|
    && forall j :: 0 <= j < |layers| ==> layers'[j] == layers[j].(remaining := layers'[j].remaining)
  }

  lemma {:induction false} SameReceived(layers: seq<Layer>, layers': seq<Layer>)
    requires SameLayers(layers, layers')
    ensures ReceivedValue(layers') == ReceivedValue(layers)
  {
    hide Price;
    if layers != [] {
      SameReceived(layers[..|layers| - 1], layers'[..|layers| - 1]);
    }
  }

  lemma {:induction false} SamePut(layers: seq<Layer>, layers': seq<Layer>, returned: seq<Return>)
    requires SameLayers(layers, layers')
    ensures PutValue(layers', returned) == PutValue(layers, returned)
  {
    if returned != [] {
      var last := returned[|returned| - 1];
      SamePut(layers, layers', returned[..|returned| - 1]);
      SameWorth(layers, layers', last.put, last.put, |layers|);
      hide Worth;
    }
  }

  /** A layer that no return has put anything on leaves the value put back as it was. */
  lemma {:induction false} PutOneMoreLayer(layers: seq<Layer>, l: Layer, returned: seq<Return>)
    requires forall r :: 0 <= r < |returned| ==> |returned[r].put| <= |layers|
    ensures PutValue(layers + [l], returned) == PutValue(layers, returned)
  {
    if returned != [] {
      var last := returned[|returned| - 1];
      PutOneMoreLayer(layers, l, returned[..|returned| - 1]);
      WorthOneMore(layers, l, last.put);
      NoPrice(l.cost);
      hide Worth, Price;
    }
  }

  lemma PutOneMoreReturn(layers: seq<Layer>, returned: seq<Return>, r: Return)
    requires r.inForce
    ensures PutValue(layers, returned + [r]) == PutValue(layers, returned) + Worth(layers, r.put, |layers|)
  {
    assert (returned + [r])[..|returned|] == returned;
  }

  lemma {:induction false} PutOneLess(layers: seq<Layer>, returned: seq<Return>, r: nat)
    requires r < |returned| && returned[r].inForce
    ensures PutValue(layers, returned[r := returned[r].(inForce := false)]) + Worth(layers, returned[r].put, |layers|)
      == PutValue(layers, returned)
  {
    hide Worth;
    var n := |returned| - 1;
    var after := returned[r := returned[r].(inForce := false)];
    if r < n {
      PutOneLess(layers, returned[..n], r);
      assert after[..n] == returned[..n][r := returned[r].(inForce := false)];
    } else {
      assert after[..n] == returned[..n];
    }
  }

  // --- Every movement conserves value ---

  lemma RecordsFit(s: Stock)
    requires Sound(s)
    ensures forall r :: 0 <= r < |s.returned| ==> |s.returned[r].put| <= |s.layers|
  {
    hide SalesAddUp, WithinSold, Shorts, Sum;
    assert forall r :: 0 <= r < |s.returned| ==> ReturnKnown(s.returned[r], |s.sales|, |s.layers|);
  }

  lemma ReceiptConserves(s: Stock, qty: nat, cost: real, stuck: real)
    requires Sound(s) && Conserved(s, stuck) && Received(s, qty, cost).Success?
    ensures Conserved(Received(s, qty, cost).value, stuck)
  {
    var l := Layer(qty, qty, cost, false);
    RecordsFit(s);
    PutOneMoreLayer(s.layers, l, s.returned);
    ValueAppend(s.layers, l);
    assert (s.layers + [l])[..|s.layers|] == s.layers;
    hide Sound, Value, PutValue, Price;
  }

  lemma SaleConserves(s: Stock, qty: nat, otherwise: real, stuck: real)
    requires Sound(s) && Conserved(s, stuck) && Issued(s, qty, otherwise).Success?
    ensures Conserved(Issued(s, qty, otherwise).value, stuck)
  {
    var sale := SaleOf(s, qty, otherwise);
    var after := Without(s.layers, sale.taken);
    SaleTakes(s.layers, qty);
    ValueWithout(s.layers, sale.taken);
    WorthIsCost(s.layers, sale.taken, |s.layers|);
    assert SameLayers(s.layers, after);
    hide Takes, Left, Without, Worth, Cost, LastCost, Price, Total, Value, Sound;
    SameReceived(s.layers, after);
    SamePut(s.layers, after, s.returned);
    assert (s.sales + [sale])[..|s.sales|] == s.sales;
    hide ReceivedValue, PutValue;
  }

  lemma PlainReturnConserves(s: Stock, sale: nat, qty: nat, stuck: real)
    requires Sound(s) && Conserved(s, stuck) && Returned(s, sale, qty).Success? && FreshQty(s, sale, qty) == 0
    ensures Conserved(Returned(s, sale, qty).value, stuck)
  {
    var put := Takes(MayPutAll(s, sale), qty);
    var after, r := With(s.layers, put), Recorded(s, sale, qty);
    PlainShape(s, sale, qty);
    ValueWith(s.layers, put);
    assert SameLayers(s.layers, after);
    SameReceived(s.layers, after);
    hide Takes, MayPutAll, With, Returned, FreshQty, Sound, Value;
    PutOneMoreReturn(after, s.returned, r);
    SamePut(s.layers, after, s.returned);
    SameWorth(s.layers, after, put, put, |after|);
    hide Worth, PutValue, ReceivedValue, PeeledCost;
  }

  /** A new layer of units put back: the layers gain what the return gains. */
  lemma NewLayerConserves(layers: seq<Layer>, put: seq<nat>, returned: seq<Return>, r: Return, l: Layer)
    requires r.inForce && l.byReturn && (forall k :: 0 <= k < |returned| ==> |returned[k].put| <= |layers|)
    requires forall j: nat :: j < |layers| ==> Amount(r.put, j) == Amount(put, j)
    requires Amount(r.put, |layers|) == l.remaining
    ensures
      var after := With(layers, put) + [l];
      && Value(after) + PutValue(layers, returned) == Value(layers) + PutValue(after, returned + [r])
      && ReceivedValue(after) == ReceivedValue(layers)
  {
    var back := With(layers, put);
    var after := back + [l];
    assert SameLayers(layers, back);
    ValueWith(layers, put);
    hide With, Value, Price, Amount;
    assert after[..|back|] == back;
    ValueAppend(back, l);
    SameReceived(layers, back);
    PutOneMoreLayer(back, l, returned);
    SamePut(layers, back, returned);
    PutOneMoreReturn(after, returned, r);
    WorthOneMore(back, l, r.put);
    SameWorth(layers, back, put, r.put, |back|);
    hide Worth, PutValue;
  }

  lemma FreshReturnConserves(s: Stock, sale: nat, qty: nat, stuck: real)
    requires Sound(s) && Conserved(s, stuck) && Returned(s, sale, qty).Success? && FreshQty(s, sale, qty) > 0
    ensures Conserved(Returned(s, sale, qty).value, stuck)
  {
    var put, more := Takes(MayPutAll(s, sale), qty), FreshQty(s, sale, qty);
    var r, l := FreshReturn(s, sale, qty), Layer(qty, more, s.sales[sale].shortCost, true);
    FreshShape(s, sale, qty);
    QtyPositive(s, sale, qty);
    assert |s.sales[sale].taken| <= |s.layers|;
    RecordsFit(s);
    assert forall j: nat :: j < |s.layers| ==> Amount(r.put, j) == Amount(put, j);
    assert Amount(r.put, |s.layers|) == more;
    hide Takes, MayPutAll, Returned, FreshQty, Sound, FreshReturn, Pad, Amount;
    NewLayerConserves(s.layers, put, s.returned, r, l);
    hide Value, PutValue, ReceivedValue, PeeledCost, With;
  }

  lemma ReturnConserves(s: Stock, sale: nat, qty: nat, stuck: real)
    requires Sound(s) && Conserved(s, stuck) && Returned(s, sale, qty).Success?
    ensures Conserved(Returned(s, sale, qty).value, stuck)
  {
    hide Sound, Conserved, FreshQty, Takes, MayPutAll, With;
    if FreshQty(s, sale, qty) == 0 {
      PlainReturnConserves(s, sale, qty, stuck);
    } else {
      FreshReturnConserves(s, sale, qty, stuck);
    }
  }

  lemma ValueRemoved(layers: seq<Layer>, put: seq<nat>)
    ensures Value(Without(layers, put)) + Worth(layers, Removed(layers, put), |layers|) == Value(layers)
  {
    var amounts := Removed(layers, put);
    assert Without(layers, put) == Without(layers, amounts);
    hide Without, Worth, Value;
    ValueWithout(layers, amounts);
  }

  lemma CancelConserves(s: Stock, r: nat, stuck: real)
    requires Conserved(s, stuck) && Cancelled(s, r).Success?
    ensures Conserved(Cancelled(s, r).value, stuck + StuckValue(s, r))
  {
    hide Unput, Worth, Value, Removed, PeeledCost;
    var after, returned := Without(s.layers, Unput(s, r)), s.returned[r := s.returned[r].(inForce := false)];
    ValueRemoved(s.layers, Unput(s, r));
    assert SameLayers(s.layers, after);
    hide Without, SameLayers;
    SameReceived(s.layers, after);
    SamePut(s.layers, after, returned);
    PutOneLess(s.layers, s.returned, r);
    hide PutValue, ReceivedValue;
  }

  lemma StepConserves(s: Stock, m: Movement, stuck: real)
    requires Sound(s) && Conserved(s, stuck)
    ensures Conserved(Step(s, m), stuck + StepStuckValue(s, m))
  {
    hide Sound, Conserved, Received, Issued, Returned, Cancelled, StuckValue;
    if Attempt(s, m).Success? {
      match m
      case Receive(qty, cost) => ReceiptConserves(s, qty, cost, stuck);
      case Sell(qty, otherwise) => SaleConserves(s, qty, otherwise, stuck);
      case TakeBack(sale, qty) => ReturnConserves(s, sale, qty, stuck);
      case CancelReturn(r) => CancelConserves(s, r, stuck);
    }
  }

  /** Over every run, the value of all receipts, of all units put back and of what cancels left stuck is the value
      on the layers and the cost of all units peeled. */
  lemma {:induction false} RunValue(block: bool, moves: seq<Movement>)
    ensures Conserved(Run(block, moves), RunStuckValue(block, moves))
  {
    if moves != [] {
      hide Conserved, Sound, Step, StepStuckValue;
      var before, n := moves[..|moves| - 1], |moves| - 1;
      RunValue(block, before);
      RunSound(block, before);
      StepConserves(Run(block, before), moves[n], RunStuckValue(block, before));
    }
  }

  lemma NoValueStuck(s: Stock, m: Movement)
    requires Good(s) && Clean(s, m)
    ensures StepStuckValue(s, m) == 0.0
  {
    hide Good, Cancelled;
    if m.CancelReturn? && Cancelled(s, m.r).Success? {
      AcceptedCancel(s, m.r);
      AllRemoved(s, m.r);
    }
  }

  lemma AllRemoved(s: Stock, r: nat)
    requires Good(s) && r < |s.returned| && StillThere(s, r)
    ensures StuckValue(s, r) == 0.0
  {
    assert ReturnAddsUp(s.returned[r], s.sales, s.layers);
    hide Good, Unput, Worth, Sum;
    DetailDecides(s, r);
    var put := s.returned[r].put;
    SameWorth(s.layers, s.layers, put, Removed(s.layers, put), |s.layers|);
  }

  /** So over every run without a cancel of resold units nothing is stuck, and value is conserved. */
  lemma {:induction false} RunConservesValue(block: bool, moves: seq<Movement>)
    requires CleanRun(block, moves)
    ensures RunStuckValue(block, moves) == 0.0 && Conserved(Run(block, moves), 0.0)
  {
    RunValue(block, moves);
    hide Conserved;
    if moves != [] {
      var before, n := moves[..|moves| - 1], |moves| - 1;
      RunConservesValue(block, before);
      RunKeepsLaws(block, before);
      NoValueStuck(Run(block, before), moves[n]);
      hide StepStuckValue, Good, Clean;
    }
  }

  // --- The reversal at the average cost of the sale ---

  /** What a return adds to the value on the layers. */
  function PutBackValue(s: Stock, sale: nat, qty: nat): real
    requires Returned(s, sale, qty).Success?
  {
    Value(Returned(s, sale, qty).value.layers) - Value(s.layers)
  }

  function AverageCost(sale: Sale): real
    requires sale.qty > 0
  {
    sale.cost / sale.qty as real
  }

  /** The unit cost that a sale is stamped with. */
  function StampedCost(sale: Sale): real
    requires sale.qty > 0
  {
    Quantized(AverageCost(sale))
  }

  /** The stamped cost of the sale times the quantity that comes back. */
  function Reversal(sale: Sale, qty: nat): real
    requires sale.qty > 0
  {
    Price(qty, StampedCost(sale))
  }

  /** The cost of unit u of a sale, oldest first: its layer's, or that of a unit sold without stock. */
  function UnitCost(layers: seq<Layer>, sale: Sale, u: nat): real {
    var units := Queue(sale.taken, |sale.taken|);
    if u < |units| && units[u] < |layers| then layers[units[u]].cost else sale.shortCost
  }

  function UnitsCost(layers: seq<Layer>, sale: Sale, q: nat): real {
    if q == 0 then 0.0 else UnitsCost(layers, sale, q - 1) + UnitCost(layers, sale, q - 1)
  }

  predicate OneCost(layers: seq<Layer>, sale: Sale) {
    forall u :: 0 <= u < sale.qty ==> UnitCost(layers, sale, u) == UnitCost(layers, sale, 0)
  }

  /** Every sale is costed at what its layers cost, which never changes afterwards. */
  ghost predicate Costed(s: Stock) {
    forall i :: 0 <= i < |s.sales| ==> CostedSale(s.layers, s.sales[i])
  }

  ghost predicate CostedSale(layers: seq<Layer>, sale: Sale) {
    sale.qty > 0 && |sale.taken| <= |layers|
    && sale.cost == Worth(layers, sale.taken, |layers|) + Price(sale.short, sale.shortCost)
  }

  lemma StaysCosted(layers: seq<Layer>, layers': seq<Layer>, sale: Sale)
    requires CostedSale(layers, sale) && SameCosts(layers, layers', |layers|) && |layers'| <= |layers| + 1
    ensures CostedSale(layers', sale)
  {
    SameWorth(layers, layers', sale.taken, sale.taken, |layers|);
    if |layers'| > |layers| {
      NoPrice(layers'[|layers|].cost);
    }
    hide Price;
  }

  lemma StepKeepsCosts(s: Stock, m: Movement)
    ensures SameCosts(s.layers, Step(s, m).layers, |s.layers|) && |Step(s, m).layers| <= |s.layers| + 1
  {
    hide Takes, Left, MayPutAll, Unput, Cost, LastCost, Pad, FreshQty, ReturnedQty, Price, SaleOf;
  }

  lemma NewSaleCosted(s: Stock, qty: nat, otherwise: real)
    requires Issued(s, qty, otherwise).Success?
    ensures CostedSale(Issued(s, qty, otherwise).value.layers, SaleOf(s, qty, otherwise))
  {
    var sale := SaleOf(s, qty, otherwise);
    var after := Without(s.layers, sale.taken);
    SaleTakes(s.layers, qty);
    WorthIsCost(s.layers, sale.taken, |s.layers|);
    SameWorth(s.layers, after, sale.taken, sale.taken, |after|);
    hide Takes, Left, Worth, Cost, LastCost, Price, Total, Without;
  }

  lemma StepKeepsSales(s: Stock, m: Movement)
    ensures |s.sales| <= |Step(s, m).sales| <= |s.sales| + 1 && Step(s, m).sales[..|s.sales|] == s.sales
    ensures |Step(s, m).sales| > |s.sales| ==>
      m.Sell? && Issued(s, m.qty, m.otherwise).Success? && Step(s, m).sales[|s.sales|] == SaleOf(s, m.qty, m.otherwise)
  {
    hide Takes, Left, MayPutAll, Unput, Cost, LastCost, Pad, FreshQty, ReturnedQty, Price, SaleOf, With, Without;
  }

  lemma {:induction false} RunCosted(block: bool, moves: seq<Movement>)
    ensures Costed(Run(block, moves))
  {
    if moves != [] {
      RunCosted(block, moves[..|moves| - 1]);
      var s, m := Run(block, moves[..|moves| - 1]), moves[|moves| - 1];
      StepKeepsCosts(s, m);
      StepKeepsSales(s, m);
      var t := Step(s, m);
      if |t.sales| > |s.sales| {
        NewSaleIn(s, m);
      }
      hide Step, CostedSale, SameCosts, SaleOf;
      forall i | 0 <= i < |s.sales|
        ensures CostedSale(t.layers, t.sales[i])
      {
        assert t.sales[i] == t.sales[..|s.sales|][i];
        StaysCosted(s.layers, t.layers, s.sales[i]);
      }
    }
  }

  lemma NewSaleIn(s: Stock, m: Movement)
    requires |Step(s, m).sales| > |s.sales|
    ensures CostedSale(Step(s, m).layers, Step(s, m).sales[|s.sales|])
  {
    StepKeepsSales(s, m);
    NewSaleCosted(s, m.qty, m.otherwise);
    hide CostedSale, SaleOf, Without;
  }

  // --- The value of a return ---

  lemma PutBackIs(s: Stock, sale: nat, qty: nat)
    requires Returned(s, sale, qty).Success?
    ensures PutBackValue(s, sale, qty)
      == Worth(s.layers, Takes(MayPutAll(s, sale), qty), |s.layers|)
         + Price(FreshQty(s, sale, qty), s.sales[sale].shortCost)
  {
    var put, more := Takes(MayPutAll(s, sale), qty), FreshQty(s, sale, qty);
    ValueWith(s.layers, put);
    if more == 0 {
      PlainShape(s, sale, qty);
      NoPrice(s.sales[sale].shortCost);
    } else {
      FreshShape(s, sale, qty);
      ValueAppend(With(s.layers, put), Layer(qty, more, s.sales[sale].shortCost, true));
    }
    hide Returned, Takes, MayPutAll, FreshQty, Value, Worth, Price, With, FreshReturn;
  }

  lemma {:induction false} WorthBeyond(layers: seq<Layer>, amounts: seq<nat>, n: nat)
    requires |amounts| <= n <= |layers|
    ensures Worth(layers, amounts, n) == Cost(layers, amounts, |amounts|)
  {
    hide Price;
    if n > |amounts| {
      WorthBeyond(layers, amounts, n - 1);
      NoPrice(layers[n - 1].cost);
    } else {
      WorthIsCost(layers, amounts, n);
    }
  }

  lemma {:induction false} QueueNames(amounts: seq<nat>, n: nat)
    requires n <= |amounts|
    ensures forall u :: u in Queue(amounts, n) ==> u < n && amounts[u] > 0
    ensures forall j: nat :: j < n && amounts[j] > 0 ==> j in Queue(amounts, n)
  {
    if n > 0 {
      QueueNames(amounts, n - 1);
      var last := Repeat(n - 1, amounts[n - 1]);
      assert forall u :: u in last ==> u == n - 1 && amounts[n - 1] > 0;
      assert amounts[n - 1] > 0 ==> last[0] == n - 1;
    }
  }

  lemma FirstTaken(amounts: seq<nat>, q: nat)
    ensures
      var units := Queue(amounts, |amounts|);
      && |units| == Sum(amounts)
      && Queue(Takes(amounts, q), |amounts|) == units[..Min(q, |units|)]
  {
    var taken := Takes(amounts, q);
    forall i | 0 <= i < |amounts|
      ensures taken[i] <= amounts[i]
    {
      TakeNext(amounts, q, i);
    }
    var rest: seq<nat> := seq(|amounts|, i requires 0 <= i < |amounts| => amounts[i] - taken[i]);
    QueueSplits(amounts, rest, q, |amounts|);
    QueueLength(amounts, |amounts|);
    QueueLength(taken, |amounts|);
    TakesAll(amounts, q);
    assert amounts[..|amounts|] == amounts && taken[..|taken|] == taken;
    hide Queue, Takes;
  }

  /** The first q units of a sale cost what its queue says, then what a unit without stock costs. */
  lemma {:induction false} UnitsCostIs(layers: seq<Layer>, sale: Sale, q: nat)
    requires |sale.taken| <= |layers|
    ensures
      var units := Queue(sale.taken, |sale.taken|);
      UnitsCost(layers, sale, q) == CostOf(layers, units[..Min(q, |units|)]) + Price(Minus(q, |units|), sale.shortCost)
  {
    var units := Queue(sale.taken, |sale.taken|);
    QueueNames(sale.taken, |sale.taken|);
    hide Queue;
    if q == 0 {
      NoPrice(sale.shortCost);
    } else {
      UnitsCostIs(layers, sale, q - 1);
      if q <= |units| {
        assert units[q - 1] in units;
        assert units[..q][..q - 1] == units[..q - 1];
      } else {
        PriceAdds(q - 1 - |units|, 1, sale.shortCost);
      }
    }
  }

  /** A sale as far as it may still be returned: what each layer may still get back. */
  function Open(s: Stock, sale: nat): Sale
    requires sale < |s.sales|
  {
    s.sales[sale].(taken := MayPutAll(s, sale))
  }

  lemma OpenFits(s: Stock, sale: nat)
    requires SalesAddUp(s.sales, |s.layers|) && sale < |s.sales|
    ensures |MayPutAll(s, sale)| == |s.sales[sale].taken| <= |s.layers|
    ensures Sum(s.sales[sale].taken) + s.sales[sale].short == s.sales[sale].qty
  {
  }

  lemma PutBackFirst(s: Stock, sale: nat, qty: nat)
    requires SalesAddUp(s.sales, |s.layers|) && Returned(s, sale, qty).Success? && sale < |s.sales|
    ensures PutBackValue(s, sale, qty) == UnitsCost(s.layers, Open(s, sale), Puts(s, sale, qty))
  {
    hide SalesAddUp, Returned, PutBackValue, Takes, MayPutAll, Worth, UnitsCost, FreshQty, ReturnedQty, Sum;
    var open, put := MayPutAll(s, sale), Takes(MayPutAll(s, sale), qty);
    OpenFits(s, sale);
    PutBackIs(s, sale, qty);
    ReturnPuts(s, sale, qty);
    TakesAll(open, qty);
    WorthBeyond(s.layers, put, |s.layers|);
    CostOfQueue(s.layers, put, |open|);
    FirstTaken(open, qty);
    UnitsCostIs(s.layers, Open(s, sale), Puts(s, sale, qty));
    hide Queue, CostOf, Cost, Price;
  }

  /** In every run, a return puts back the value of the first units that find a place again, as many as do. */
  lemma ReturnValue(block: bool, moves: seq<Movement>, sale: nat, qty: nat)
    requires Returned(Run(block, moves), sale, qty).Success?
    ensures
      var s := Run(block, moves);
      sale < |s.sales| && PutBackValue(s, sale, qty) == UnitsCost(s.layers, Open(s, sale), Puts(s, sale, qty))
  {
    var s := Run(block, moves);
    RunSound(block, moves);
    assert SalesAddUp(s.sales, |s.layers|);
    hide *;
    QtyPositive(s, sale, qty);
    PutBackFirst(s, sale, qty);
  }

  /** While nothing of a sale is returned, everything it took may be put back. */
  lemma NothingBack(s: Stock, sale: nat)
    requires Good(s) && sale < |s.sales| && ReturnedQty(s.returned, sale) == 0
    ensures MayPutAll(s, sale) == s.sales[sale].taken
  {
    var taken := s.sales[sale].taken;
    assert forall r :: 0 <= r < |s.returned| ==> ReturnAddsUp(s.returned[r], s.sales, s.layers);
    forall j | 0 <= j < |taken|
      ensures MayPutAll(s, sale)[j] == taken[j]
    {
      RoomForOwed(s, sale, j);
      NoneInForce(s.returned, sale, j);
    }
    hide Good, MayPut, Owed;
  }

  lemma {:induction false} NoneInForce(returned: seq<Return>, sale: nat, layer: nat)
    requires ReturnedQty(returned, sale) == 0 && forall r :: 0 <= r < |returned| ==> returned[r].qty > 0
    ensures Already(returned, sale, layer) == 0
  {
    if returned != [] {
      NoneInForce(returned[..|returned| - 1], sale, layer);
    }
  }

  lemma AverageOfEven(sale: Sale, c: real)
    requires sale.qty > 0 && sale.cost == Price(sale.qty, c)
    ensures AverageCost(sale) == c
  {
  }

  lemma OneUnit(q: nat, c: real)
    ensures Price(q + 1, c) == Price(q, c) + c
  {
    PriceAdds(q, 1, c);
  }

  lemma {:induction false} EvenUnits(layers: seq<Layer>, sale: Sale, q: nat, c: real)
    requires forall u :: 0 <= u < q ==> UnitCost(layers, sale, u) == c
    ensures UnitsCost(layers, sale, q) == Price(q, c)
  {
    hide UnitCost;
    NoPrice(c);
    hide Price;
    if q > 0 {
      EvenUnits(layers, sale, q - 1, c);
      OneUnit(q - 1, c);
    }
  }

  lemma LastUnit(layers: seq<Layer>, sale: Sale, u: nat, c: real)
    requires UnitsCost(layers, sale, u) == Price(u, c) && UnitsCost(layers, sale, u + 1) == Price(u + 1, c)
    ensures UnitCost(layers, sale, u) == c
  {
    hide UnitCost, Price;
    OneUnit(u, c);
  }

  /** Every first part of n units costs its share of c exactly when each of them costs c. */
  lemma EachUnitAt(layers: seq<Layer>, sale: Sale, n: nat, c: real)
    ensures (forall qty :: 0 < qty <= n ==> UnitsCost(layers, sale, qty) == Price(qty, c))
      <==> forall u :: 0 <= u < n ==> UnitCost(layers, sale, u) == c
  {
    NoPrice(c);
    hide UnitCost, Price;
    if forall u :: 0 <= u < n ==> UnitCost(layers, sale, u) == c {
      forall qty | 0 < qty <= n
        ensures UnitsCost(layers, sale, qty) == Price(qty, c)
      {
        EvenUnits(layers, sale, qty, c);
      }
    }
    if forall qty :: 0 < qty <= n ==> UnitsCost(layers, sale, qty) == Price(qty, c) {
      forall u | 0 <= u < n
        ensures UnitCost(layers, sale, u) == c
      {
        assert UnitsCost(layers, sale, u + 1) == Price(u + 1, c);
        assert UnitsCost(layers, sale, u) == Price(u, c);
        LastUnit(layers, sale, u, c);
      }
    }
  }

  /** Every unit of a sale that finds a place again cost what the sale is stamped with, and each may find one, or
      that cost is zero. */
  predicate OpenAtStamp(s: Stock, sale: nat)
    requires sale < |s.sales| && s.sales[sale].qty > 0
  {
    var left, c := Minus(s.sales[sale].qty, ReturnedQty(s.returned, sale)), StampedCost(s.sales[sale]);
    && (forall u :: 0 <= u < Puts(s, sale, left) ==> UnitCost(s.layers, Open(s, sale), u) == c)
    && (Puts(s, sale, left) == left || c == 0.0)
  }

  /** The first q units, as far as there are n, match the cost c for every q up to `left` exactly when each of the
      n costs c and there are enough of them, or c is zero. */
  lemma FirstUnitsAt(layers: seq<Layer>, sale: Sale, n: nat, left: nat, c: real)
    requires n <= left
    ensures (forall qty :: 0 < qty <= left ==> UnitsCost(layers, sale, Min(qty, n)) == Price(qty, c))
      <==> (forall u :: 0 <= u < n ==> UnitCost(layers, sale, u) == c) && (n == left || c == 0.0)
  {
    hide UnitCost, UnitsCost, Price;
    EachUnitAt(layers, sale, n, c);
    NoUnits(layers, sale, c);
    if n < left && UnitsCost(layers, sale, n) == Price(n, c) {
      OneUnit(n, c);
      if c == 0.0 {
        forall qty
          ensures Price(qty, c) == 0.0
        {
          FreeUnits(qty);
        }
      } else {
        assert UnitsCost(layers, sale, Min(n + 1, n)) != Price(n + 1, c);
      }
    }
    forall qty | 0 < qty <= n
      ensures Min(qty, n) == qty
    {
    }
    if forall qty :: 0 < qty <= left ==> UnitsCost(layers, sale, Min(qty, n)) == Price(qty, c) {
      forall qty | 0 < qty <= n
        ensures UnitsCost(layers, sale, qty) == Price(qty, c)
      {
        assert UnitsCost(layers, sale, Min(qty, n)) == Price(qty, c);
      }
    }
  }

  lemma NoUnits(layers: seq<Layer>, sale: Sale, c: real)
    ensures UnitsCost(layers, sale, 0) == Price(0, c) == 0.0
  {
  }

  lemma FreeUnits(qty: nat)
    ensures Price(qty, 0.0) == 0.0
  {
  }

  lemma PutsUpTo(s: Stock, sale: nat, qty: nat, left: nat)
    requires sale < |s.sales| && qty <= left
    ensures Puts(s, sale, qty) == Min(qty, Puts(s, sale, left)) && Puts(s, sale, left) <= left
  {
    hide Sum, MayPutAll;
  }

  lemma ReversalExactly(s: Stock, sale: nat)
    requires Sound(s) && sale < |s.sales| && s.sales[sale].qty > 0
    ensures
      var doc, back := s.sales[sale], ReturnedQty(s.returned, sale);
      && back <= doc.qty && (forall qty :: 0 < qty <= doc.qty - back ==> Returned(s, sale, qty).Success?)
      && ((forall qty :: 0 < qty <= doc.qty - back ==> PutBackValue(s, sale, qty) == Reversal(doc, qty))
           <==> OpenAtStamp(s, sale))
  {
    var doc, back := s.sales[sale], ReturnedQty(s.returned, sale);
    assert SalesAddUp(s.sales, |s.layers|) && back <= doc.qty;
    hide Sound, SalesAddUp, PutBackValue, Takes, MayPutAll, FreshQty, With, UnitCost, StampedCost, Price, UnitsCost,
         Open, ReturnedQty, Puts, Min;
    var left: nat := doc.qty - back;
    PutsUpTo(s, sale, left, left);
    FirstUnitsAt(s.layers, Open(s, sale), Puts(s, sale, left), left, StampedCost(doc));
    forall qty | 0 < qty <= left
      ensures Returned(s, sale, qty).Success?
      ensures PutBackValue(s, sale, qty) == UnitsCost(s.layers, Open(s, sale), Min(qty, Puts(s, sale, left)))
    {
      PutsUpTo(s, sale, qty, left);
      PutBackFirst(s, sale, qty);
    }
    hide Returned;
  }

  /** While nothing of the sale is returned, that is when all its units cost the same and in four places. */
  lemma UnreturnedAtStamp(s: Stock, sale: nat)
    requires Good(s) && Costed(s) && sale < |s.sales| && ReturnedQty(s.returned, sale) == 0
    ensures
      var doc := s.sales[sale];
      var c := UnitCost(s.layers, doc, 0);
      doc.qty > 0 && (OpenAtStamp(s, sale) <==> OneCost(s.layers, doc) && Quantized(c) == c)
  {
    var doc := s.sales[sale];
    assert SalesAddUp(s.sales, |s.layers|);
    hide Good, Costed, SalesAddUp, UnitCost, MayPutAll, Price, UnitsCost, StampedCost, OneCost, ReturnedQty, Puts,
         Quantized;
    SaleCostsItsUnits(s, sale);
    NothingBack(s, sale);
    ReturnPutsAll(s, sale, doc.qty);
    assert Open(s, sale) == doc;
    hide Open;
    StampOfOne(s.layers, doc);
  }

  lemma StampOfOne(layers: seq<Layer>, sale: Sale)
    requires sale.qty > 0 && sale.cost == UnitsCost(layers, sale, sale.qty)
    ensures
      var c := UnitCost(layers, sale, 0);
      OneCost(layers, sale) && Quantized(c) == c
      <==> forall u :: 0 <= u < sale.qty ==> UnitCost(layers, sale, u) == StampedCost(sale)
  {
    hide UnitCost, Price, UnitsCost, AverageCost, Quantized;
    if OneCost(layers, sale) {
      var c := UnitCost(layers, sale, 0);
      EvenUnits(layers, sale, sale.qty, c);
      AverageOfEven(sale, c);
    }
    if forall u :: 0 <= u < sale.qty ==> UnitCost(layers, sale, u) == StampedCost(sale) {
      QuantizedTwice(AverageCost(sale));
    }
  }

  lemma SaleCostsItsUnits(s: Stock, sale: nat)
    requires SalesAddUp(s.sales, |s.layers|) && Costed(s) && sale < |s.sales|
    ensures s.sales[sale].qty > 0 && s.sales[sale].cost == UnitsCost(s.layers, s.sales[sale], s.sales[sale].qty)
  {
    var doc := s.sales[sale];
    assert CostedSale(s.layers, doc) && Sum(doc.taken) + doc.short == doc.qty;
    hide SalesAddUp, Costed, Worth;
    WorthBeyond(s.layers, doc.taken, |s.layers|);
    CostOfQueue(s.layers, doc.taken, |doc.taken|);
    QueueLength(doc.taken, |doc.taken|);
    assert doc.taken[..|doc.taken|] == doc.taken;
    UnitsCostIs(s.layers, doc, doc.qty);
    hide Queue, CostOf, Cost, Price, UnitsCost;
    var units := Queue(doc.taken, |doc.taken|);
    assert units[..|units|] == units;
  }

  lemma {:induction false} EvenWorth(layers: seq<Layer>, amounts: seq<nat>, n: nat, c: real)
    requires n <= |layers| && n <= |amounts|
    requires forall j :: 0 <= j < n && amounts[j] > 0 ==> layers[j].cost == c
    ensures Worth(layers, amounts, n) == Price(Sum(amounts[..n]), c)
  {
    NoPrice(c);
    if n > 0 {
      EvenWorth(layers, amounts, n - 1, c);
      assert amounts[..n][..n - 1] == amounts[..n - 1];
      NoPrice(layers[n - 1].cost);
      hide Price;
      PriceAdds(Sum(amounts[..n - 1]), amounts[n - 1], c);
    }
  }

  /** In a sale of one unit cost, each layer it peeled has that cost, and so have units sold without stock. */
  lemma OneCostOfParts(layers: seq<Layer>, sale: Sale)
    requires |sale.taken| <= |layers| && Sum(sale.taken) + sale.short == sale.qty && OneCost(layers, sale)
    ensures
      var c := UnitCost(layers, sale, 0);
      && (forall j :: 0 <= j < |sale.taken| && sale.taken[j] > 0 ==> layers[j].cost == c)
      && (sale.short > 0 ==> sale.shortCost == c)
  {
    var units := Queue(sale.taken, |sale.taken|);
    QueueNames(sale.taken, |sale.taken|);
    QueueLength(sale.taken, |sale.taken|);
    assert sale.taken[..|sale.taken|] == sale.taken;
    hide Queue, Sum;
    forall j: nat | j < |sale.taken| && sale.taken[j] > 0
      ensures layers[j].cost == UnitCost(layers, sale, 0)
    {
      var u :| 0 <= u < |units| && units[u] == j;
      assert UnitCost(layers, sale, u) == UnitCost(layers, sale, 0);
    }
    assert sale.short > 0 ==> UnitCost(layers, sale, |units|) == UnitCost(layers, sale, 0);
  }

  /** Only layers that the sale peeled get something. */
  predicate OnlyOn(put: seq<nat>, taken: seq<nat>) {
    |put| == |taken| && forall j :: 0 <= j < |put| && put[j] > 0 ==> taken[j] > 0
  }

  /** Every layer that gave something has this cost. */
  predicate AllAt(layers: seq<Layer>, taken: seq<nat>, c: real) {
    |taken| <= |layers| && forall j :: 0 <= j < |taken| && taken[j] > 0 ==> layers[j].cost == c
  }

  lemma PutOnTaken(s: Stock, sale: nat, qty: nat)
    requires sale < |s.sales|
    ensures OnlyOn(Takes(MayPutAll(s, sale), qty), s.sales[sale].taken)
    ensures FreshQty(s, sale, qty) > 0 ==> s.sales[sale].short > 0
  {
    var put, taken := Takes(MayPutAll(s, sale), qty), s.sales[sale].taken;
    forall j | 0 <= j < |put| && put[j] > 0
      ensures taken[j] > 0
    {
      TakeNext(MayPutAll(s, sale), qty, j);
    }
    hide Takes, Left, MayPutAll;
  }

  lemma EvenSale(s: Stock, sale: nat)
    requires SalesAddUp(s.sales, |s.layers|) && Costed(s) && sale < |s.sales| && OneCost(s.layers, s.sales[sale])
    ensures
      var doc := s.sales[sale];
      var c := UnitCost(s.layers, doc, 0);
      && doc.qty > 0 && AllAt(s.layers, doc.taken, c) && AverageCost(doc) == c && (doc.short > 0 ==> doc.shortCost == c)
  {
    hide SalesAddUp, Costed, UnitCost, UnitsCost, Price, AverageCost, Sum;
    var doc := s.sales[sale];
    var c := UnitCost(s.layers, doc, 0);
    SaleCostsItsUnits(s, sale);
    OpenFits(s, sale);
    OneCostOfParts(s.layers, doc);
    EvenUnits(s.layers, doc, doc.qty, c);
    AverageOfEven(doc, c);
  }

  /** Units at one cost on layers and on a new layer, together. */
  lemma EvenPutBack(layers: seq<Layer>, put: seq<nat>, taken: seq<nat>, more: nat, shortCost: real, c: real)
    requires OnlyOn(put, taken) && AllAt(layers, taken, c) && (more > 0 ==> shortCost == c)
    ensures Worth(layers, put, |layers|) + Price(more, shortCost) == Price(Sum(put) + more, c)
  {
    PutWorth(layers, put, c);
    NoPrice(c);
    NoPrice(shortCost);
    PriceAdds(Sum(put), more, c);
    hide Worth, Price, Sum;
  }

  lemma EvenReturn(s: Stock, sale: nat, qty: nat)
    requires SalesAddUp(s.sales, |s.layers|) && Costed(s) && Returned(s, sale, qty).Success? && sale < |s.sales|
    requires OneCost(s.layers, s.sales[sale])
    ensures
      var doc := s.sales[sale];
      var c := UnitCost(s.layers, doc, 0);
      && doc.qty > 0 && PutBackValue(s, sale, qty) == Price(Puts(s, sale, qty), c)
      && Reversal(doc, qty) == Price(qty, Quantized(c))
  {
    hide SalesAddUp, Costed, PutBackValue, Returned, Takes, MayPutAll, FreshQty, Worth, Price, Sum, OneCost, OnlyOn,
         AllAt, AverageCost, With, Quantized, UnitCost;
    var doc, put := s.sales[sale], Takes(MayPutAll(s, sale), qty);
    var c := UnitCost(s.layers, doc, 0);
    EvenSale(s, sale);
    PutBackIs(s, sale, qty);
    ReturnPuts(s, sale, qty);
    PutOnTaken(s, sale, qty);
    EvenPutBack(s.layers, put, doc.taken, FreshQty(s, sale, qty), doc.shortCost, c);
  }

  lemma PricesDiffer(a: nat, b: nat, c: real)
    ensures Price(a, c) == Price(b, c) <==> a == b || c == 0.0
  {
    if a != b {
      assert (a as real - b as real) * c == Price(a, c) - Price(b, c);
    }
  }

  /** In every run: in a sale whose units cost the same, in four places, a return puts back its value at the stamped
      cost exactly when all it brings finds a place, or that cost is zero. */
  lemma EveryReturnMatches(block: bool, moves: seq<Movement>, sale: nat, qty: nat)
    requires Returned(Run(block, moves), sale, qty).Success?
    ensures
      var s := Run(block, moves);
      && sale < |s.sales| && s.sales[sale].qty > 0
      && var c := UnitCost(s.layers, s.sales[sale], 0);
      (OneCost(s.layers, s.sales[sale]) && Quantized(c) == c ==>
        (PutBackValue(s, sale, qty) == Reversal(s.sales[sale], qty) <==> Puts(s, sale, qty) == qty || c == 0.0))
  {
    var s := Run(block, moves);
    RunSound(block, moves);
    assert SalesAddUp(s.sales, |s.layers|);
    RunCosted(block, moves);
    hide *;
    QtyPositive(s, sale, qty);
    PositiveSale(s, sale);
    var c := UnitCost(s.layers, s.sales[sale], 0);
    if OneCost(s.layers, s.sales[sale]) && Quantized(c) == c {
      EvenReturn(s, sale, qty);
      PricesDiffer(Puts(s, sale, qty), qty, c);
    }
  }

  lemma PositiveSale(s: Stock, sale: nat)
    requires Costed(s) && sale < |s.sales|
    ensures s.sales[sale].qty > 0
  {
    assert CostedSale(s.layers, s.sales[sale]);
    hide Worth;
  }

  lemma PutWorth(layers: seq<Layer>, put: seq<nat>, c: real)
    requires |put| <= |layers| && forall j :: 0 <= j < |put| && put[j] > 0 ==> layers[j].cost == c
    ensures Worth(layers, put, |layers|) == Price(Sum(put), c)
  {
    WorthBeyond(layers, put, |layers|);
    WorthIsCost(layers, put, |put|);
    EvenWorth(layers, put, |put|, c);
    assert put[..|put|] == put;
    hide Worth, Cost, Price, Sum;
  }

  /** In every run, for every sale: the reversal is exact for whatever part comes back next exactly when every unit
      that finds a place again cost what the sale is stamped with, and each finds one or that cost is zero. */
  lemma RunReversalExactly(block: bool, moves: seq<Movement>, sale: nat)
    requires sale < |Run(block, moves).sales|
    ensures
      var s := Run(block, moves);
      var doc, back := s.sales[sale], ReturnedQty(s.returned, sale);
      && doc.qty > 0 && back <= doc.qty
      && (forall qty :: 0 < qty <= doc.qty - back ==> Returned(s, sale, qty).Success?)
      && ((forall qty :: 0 < qty <= doc.qty - back ==> PutBackValue(s, sale, qty) == Reversal(doc, qty))
           <==> OpenAtStamp(s, sale))
  {
    hide *;
    var s := Run(block, moves);
    RunSound(block, moves);
    RunCosted(block, moves);
    PositiveSale(s, sale);
    ReversalExactly(s, sale);
  }

  /** In a run without a cancel of resold units, and with nothing of the sale returned, that is when all units of the
      sale cost the same, in four places. */
  lemma UnreturnedReversal(block: bool, moves: seq<Movement>, sale: nat)
    requires CleanRun(block, moves) && sale < |Run(block, moves).sales|
    requires ReturnedQty(Run(block, moves).returned, sale) == 0
    ensures
      var s := Run(block, moves);
      var doc := s.sales[sale];
      var c := UnitCost(s.layers, doc, 0);
      doc.qty > 0 && (OpenAtStamp(s, sale) <==> OneCost(s.layers, doc) && Quantized(c) == c)
  {
    hide *;
    RunKeepsLaws(block, moves);
    RunCosted(block, moves);
    UnreturnedAtStamp(Run(block, moves), sale);
  }

  /** In the run that drifts down, a return that is accepted reverses the cost of a unit and puts back no value. */
  lemma ResaleReverses()
    ensures
      var s := Run(true, Resale());
      && Returned(s, 1, 1).Success? && s.sales[1].qty > 0
      && PutBackValue(s, 1, 1) == 0.0 && Reversal(s.sales[1], 1) == 1.0
  {
    ResaleState();
    hide Resale, Run;
    ResaleFails();
    var doc := Run(true, Resale()).sales[1];
    assert doc == SaleTwo() && AverageCost(doc) == 1.0;
    RoundWhole(10000);
    hide Returned, Value, Round;
  }

  lemma Spread(n: real, c: real, d: real, e: real, cost: real)
    requires n >= 0.0 && 0.0 - e <= d - c <= e && c * n == cost
    ensures 0.0 - e * n <= n * d - cost <= e * n
  {
    Scale(d - c, e, n);
    Scale(0.0 - e, d - c, n);
    assert (d - c) * n == d * n - c * n;
    assert (0.0 - e) * n == 0.0 - e * n;
  }

  lemma StampedShare(sale: Sale)
    requires sale.qty > 0
    ensures 0.0 - 0.00005 * sale.qty as real <= Reversal(sale, sale.qty) - sale.cost <= 0.00005 * sale.qty as real
  {
    var c := AverageCost(sale);
    QuantizedExactly(c, Round(c * 10000.0));
    assert c * sale.qty as real == sale.cost;
    hide AverageCost, Quantized;
    Spread(sale.qty as real, c, StampedCost(sale), 0.00005, sale.cost);
  }

  /** In every run, reversing a whole sale differs from what its units cost by at most half a hundredth of a hundredth
      for each unit. */
  lemma StampWithin(block: bool, moves: seq<Movement>, sale: nat)
    requires sale < |Run(block, moves).sales|
    ensures
      var s := Run(block, moves);
      var doc := s.sales[sale];
      && doc.qty > 0
      && var off := Reversal(doc, doc.qty) - UnitsCost(s.layers, doc, doc.qty);
      0.0 - 0.00005 * doc.qty as real <= off <= 0.00005 * doc.qty as real
  {
    var s := Run(block, moves);
    RunSound(block, moves);
    assert SalesAddUp(s.sales, |s.layers|);
    RunCosted(block, moves);
    hide *;
    SaleCostsItsUnits(s, sale);
    StampedShare(s.sales[sale]);
  }
}

/** Whole runs of the ledger, the movements that undo each other, and the order in which units leave. */
module LedgerRuns {
  import opened Amounts
  import opened LedgerLaws
  import opened StockLedger
  import opened Wrappers

  datatype Movement =
    | Receive(qty: nat, cost: real)
    | Sell(qty: nat, otherwise: real)
    | TakeBack(sale: nat, qty: nat)
    | CancelReturn(r: nat)

  function Attempt(s: Stock, m: Movement): Result<Stock, Refusal> {
    match m
    case Receive(qty, cost) => Received(s, qty, cost)
    case Sell(qty, otherwise) => Issued(s, qty, otherwise)
    case TakeBack(sale, qty) => Returned(s, sale, qty)
    case CancelReturn(r) => Cancelled(s, r)
  }

  /** A refused movement is rolled back. */
  function Step(s: Stock, m: Movement): Stock {
    match Attempt(s, m)
    case Success(t) => t
    case Failure(_) => s
  }

  function Run(block: bool, moves: seq<Movement>): Stock {
    if moves == [] then Stock(block, 0, [], [], [])
    else Step(Run(block, moves[..|moves| - 1]), moves[|moves| - 1])
  }

  /** No return is cancelled after units that it put back were sold again. */
  predicate Clean(s: Stock, m: Movement) {
    m.CancelReturn? && Cancelled(s, m.r).Success? ==> StillThere(s, m.r)
  }

  predicate CleanRun(block: bool, moves: seq<Movement>) {
    moves != [] ==>
      var n := |moves| - 1;
      CleanRun(block, moves[..n]) && Clean(Run(block, moves[..n]), moves[n])
  }

  lemma StepKeeps(s: Stock, m: Movement)
    requires Good(s) && Clean(s, m)
    ensures Good(Step(s, m))
  {
    hide Good, Received, Issued, Returned, Cancelled, StillThere;
    match m
    case Receive(qty, cost) =>
      if Attempt(s, m).Success? {
        ReceiptKeeps(s, qty, cost);
      }
    case Sell(qty, otherwise) =>
      if Attempt(s, m).Success? {
        SaleKeeps(s, qty, otherwise);
      }
    case TakeBack(sale, qty) =>
      if Attempt(s, m).Success? {
        ReturnKeeps(s, sale, qty);
      }
    case CancelReturn(r) =>
      if Attempt(s, m).Success? {
        CancelKeepsExactly(s, r);
      }
  }

  /** After every run without such a cancel the laws hold: each layer lacks exactly what is owed to it, and the
      layers together hold what is on hand and what was sold without stock. */
  lemma {:induction false} RunKeepsLaws(block: bool, moves: seq<Movement>)
    requires CleanRun(block, moves)
    ensures Good(Run(block, moves))
  {
    if moves != [] {
      var n := |moves| - 1;
      RunKeepsLaws(block, moves[..n]);
      StepKeeps(Run(block, moves[..n]), moves[n]);
    }
  }

  /** The laws break at the first such cancel, and at no other movement. */
  lemma FirstBreak(block: bool, moves: seq<Movement>, m: Movement)
    requires CleanRun(block, moves)
    ensures Good(Step(Run(block, moves), m)) <==> Clean(Run(block, moves), m)
  {
    RunKeepsLaws(block, moves);
    var s := Run(block, moves);
    if Clean(s, m) {
      StepKeeps(s, m);
    } else {
      CancelKeepsExactly(s, m.r);
    }
  }

  // --- What holds in every run, whatever is cancelled ---

  ghost predicate Capped(layers: seq<Layer>) {
    forall j :: 0 <= j < |layers| ==> layers[j].remaining <= layers[j].original
  }

  /** A return names a known sale and records no more than it brings, on layers that exist. */
  ghost predicate ReturnKnown(r: Return, sales: nat, layers: nat) {
    r.sale < sales && |r.put| <= layers && Sum(r.put) <= r.qty && 0 < r.qty
  }

  ghost predicate ReturnsKnown(returned: seq<Return>, sales: nat, layers: nat) {
    forall r :: 0 <= r < |returned| ==> ReturnKnown(returned[r], sales, layers)
  }

  /** The documents add up and no layer is above its original quantity; the layers need not match what is on hand. */
  ghost predicate Sound(s: Stock) {
    && SalesAddUp(s.sales, |s.layers|) && ReturnsKnown(s.returned, |s.sales|, |s.layers|)
    && WithinSold(s.sales, s.returned) && Capped(s.layers)
    && (s.block ==> s.onHand >= 0 && Shorts(s.sales) == 0)
  }

  lemma {:induction false} LeftAtMost(amounts: seq<nat>, need: nat, n: nat)
    requires n <= |amounts|
    ensures Left(amounts, need, n) <= need
  {
    if n > 0 {
      LeftAtMost(amounts, need, n - 1);
    }
  }

  lemma ReturnStaysCapped(s: Stock, sale: nat, qty: nat)
    requires Capped(s.layers) && Returned(s, sale, qty).Success?
    ensures Capped(Returned(s, sale, qty).value.layers)
  {
    var amounts := MayPutAll(s, sale);
    var put, back := Takes(amounts, qty), With(s.layers, Takes(amounts, qty));
    LeftAtMost(amounts, qty, |amounts|);
    forall j | 0 <= j < |back|
      ensures back[j].remaining <= back[j].original
    {
      if j < |put| {
        TakeNext(amounts, qty, j);
      }
    }
    assert Capped(back);
    hide Left, Takes, MayPutAll, With;
  }

  lemma KnownMore(returned: seq<Return>, sales: nat, layers: nat, sales': nat, layers': nat)
    requires ReturnsKnown(returned, sales, layers) && sales <= sales' && layers <= layers'
    ensures ReturnsKnown(returned, sales', layers')
  {
    hide Sum;
    forall r | 0 <= r < |returned|
      ensures ReturnKnown(returned[r], sales', layers')
    {
      assert ReturnKnown(returned[r], sales, layers);
    }
  }

  lemma ReceiptSound(s: Stock, qty: nat, cost: real)
    requires Sound(s) && Received(s, qty, cost).Success?
    ensures Sound(Received(s, qty, cost).value)
  {
    hide ReturnsKnown, WithinSold, Sum, Shorts;
    KnownMore(s.returned, |s.sales|, |s.layers|, |s.sales|, |s.layers| + 1);
  }

  /** No return names a sale that is yet to be made. */
  lemma NewSaleUnreturned(s: Stock, layer: nat)
    requires ReturnsKnown(s.returned, |s.sales|, |s.layers|)
    ensures Already(s.returned, |s.sales|, layer) == 0 && ReturnedQty(s.returned, |s.sales|) == 0
  {
    hide Sum;
    assert forall r :: 0 <= r < |s.returned| ==> ReturnKnown(s.returned[r], |s.sales|, |s.layers|);
    NoReturns(s.returned, |s.sales|, layer);
  }

  lemma SaleSound(s: Stock, qty: nat, otherwise: real)
    requires Sound(s) && Issued(s, qty, otherwise).Success?
    ensures Sound(Issued(s, qty, otherwise).value)
  {
    hide Takes, Left, Cost, LastCost, ReturnsKnown, Sum, Total, ReturnedQty;
    var sale := SaleOf(s, qty, otherwise);
    SaleTakes(s.layers, qty);
    NewSaleUnreturned(s, 0);
    KnownMore(s.returned, |s.sales|, |s.layers|, |s.sales| + 1, |s.layers|);
    assert (s.sales + [sale])[..|s.sales|] == s.sales;
  }

  lemma SoldStaysWithin(s: Stock, r: Return)
    requires WithinSold(s.sales, s.returned) && r.sale < |s.sales|
    requires ReturnedQty(s.returned, r.sale) + r.qty <= s.sales[r.sale].qty
    ensures WithinSold(s.sales, s.returned + [r])
  {
    forall i | 0 <= i < |s.sales|
      ensures ReturnedQty(s.returned + [r], i) <= s.sales[i].qty
    {
      OneMoreReturn(s.returned, r, i, 0);
    }
  }

  /** The return that a successful one records is known, and its layers stay. */
  lemma RecordedKnown(s: Stock, sale: nat, qty: nat)
    requires SalesAddUp(s.sales, |s.layers|) && Returned(s, sale, qty).Success? && sale < |s.sales|
    ensures
      var back := Returned(s, sale, qty).value;
      && back.sales == s.sales && back.block == s.block && back.onHand == s.onHand + qty
      && |s.layers| <= |back.layers| && |back.returned| == |s.returned| + 1
      && back.returned[..|s.returned|] == s.returned
      && var r := back.returned[|s.returned|];
         ReturnKnown(r, |s.sales|, |back.layers|) && r.sale == sale && r.qty == qty && r.inForce
  {
    assert |s.sales[sale].taken| <= |s.layers|;
    hide Takes, MayPutAll, FreshQty, Sum, SalesAddUp, ReturnedQty, With, Pad, Returned;
    ReturnPuts(s, sale, qty);
    var put, more := Takes(MayPutAll(s, sale), qty), FreshQty(s, sale, qty);
    assert 0 < qty by { QtyPositive(s, sale, qty); }
    if more == 0 {
      PlainShape(s, sale, qty);
    } else {
      FreshShape(s, sale, qty);
      PadSum(put, |s.layers|);
      SumAppend(Pad(put, |s.layers|), more);
    }
  }

  lemma QtyPositive(s: Stock, sale: nat, qty: nat)
    requires Returned(s, sale, qty).Success?
    ensures 0 < qty && sale < |s.sales| && ReturnedQty(s.returned, sale) + qty <= s.sales[sale].qty
  {
    hide Takes, MayPutAll, FreshQty, ReturnedQty, With, Pad;
  }

  lemma SumAppend(amounts: seq<nat>, x: nat)
    ensures Sum(amounts + [x]) == Sum(amounts) + x
  {
    assert (amounts + [x])[..|amounts|] == amounts;
  }

  lemma ReturnSound(s: Stock, sale: nat, qty: nat)
    requires Sound(s) && Returned(s, sale, qty).Success?
    ensures Sound(Returned(s, sale, qty).value)
  {
    hide Returned, ReturnKnown, WithinSold, Capped, Shorts, ReturnedQty, Sum;
    var back := Returned(s, sale, qty).value;
    QtyPositive(s, sale, qty);
    RecordedKnown(s, sale, qty);
    ReturnStaysCapped(s, sale, qty);
    var r := back.returned[|s.returned|];
    assert back.returned == s.returned + [r];
    SoldStaysWithin(s, r);
    KnownMore(s.returned, |s.sales|, |s.layers|, |s.sales|, |back.layers|);
  }

  lemma CancelSound(s: Stock, r: nat)
    requires Sound(s) && Cancelled(s, r).Success?
    ensures Sound(Cancelled(s, r).value)
  {
    hide Unput, Sum, Shorts, ReturnedQty;
    var after := Cancelled(s, r).value;
    forall i | 0 <= i < |s.sales|
      ensures ReturnedQty(after.returned, i) <= s.sales[i].qty
    {
      OneLessReturn(s.returned, r, i, 0);
    }
    forall k | 0 <= k < |after.returned|
      ensures ReturnKnown(after.returned[k], |s.sales|, |s.layers|)
    {
      assert ReturnKnown(s.returned[k], |s.sales|, |s.layers|);
    }
  }

  lemma StepSound(s: Stock, m: Movement)
    requires Sound(s)
    ensures Sound(Step(s, m))
  {
    hide Sound, Received, Issued, Returned, Cancelled;
    if Attempt(s, m).Success? {
      match m
      case Receive(qty, cost) => ReceiptSound(s, qty, cost);
      case Sell(qty, otherwise) => SaleSound(s, qty, otherwise);
      case TakeBack(sale, qty) => ReturnSound(s, sale, qty);
      case CancelReturn(r) => CancelSound(s, r);
    }
  }

  /** In every run, whatever is cancelled: sales add up to what they took and what they sold without stock, returns
      name known sales and stay within what was sold, and where stock may not go negative it does not. */
  lemma {:induction false} RunSound(block: bool, moves: seq<Movement>)
    ensures Sound(Run(block, moves))
  {
    if moves != [] {
      hide Sound, Step;
      RunSound(block, moves[..|moves| - 1]);
      StepSound(Run(block, moves[..|moves| - 1]), moves[|moves| - 1]);
    } else {
      NothingYet(block);
    }
  }

  lemma NothingYet(block: bool)
    ensures Sound(Stock(block, 0, [], [], []))
  {
  }

  /** In every run, whatever is cancelled, a return never puts a layer above its original quantity. */
  lemma NeverAboveOriginal(block: bool, moves: seq<Movement>, j: nat)
    requires j < |Run(block, moves).layers|
    ensures var l := Run(block, moves).layers[j]; l.remaining <= l.original
  {
    RunSound(block, moves);
    hide SalesAddUp, ReturnsKnown, WithinSold, Shorts, Run;
  }

  /** In every run, whatever is cancelled, a sale lists no layer that does not exist. */
  lemma SalesKnowTheirLayers(block: bool, moves: seq<Movement>, i: nat)
    requires i < |Run(block, moves).sales|
    ensures |Run(block, moves).sales[i].taken| <= |Run(block, moves).layers|
  {
    RunSound(block, moves);
    hide ReturnsKnown, WithinSold, Shorts, Run, Capped, Sum;
  }

  // --- The reconciliation of layers with stock on hand ---

  /** The rule that the inventory invariants check for a key that has layers. */
  predicate Reconciles(s: Stock) {
    Total(s.layers) == if s.onHand > 0 then s.onHand else 0
  }

  /** After every run without such a cancel the rule holds if and only if nothing was ever sold without stock or
      the layers are empty; so it always holds where stock may not go negative. */
  lemma ReconcilesExactly(block: bool, moves: seq<Movement>)
    requires CleanRun(block, moves)
    ensures
      var s := Run(block, moves);
      && (Reconciles(s) <==> Shorts(s.sales) == 0 || Total(s.layers) == 0)
      && (block ==> Reconciles(s))
  {
    RunKeepsLaws(block, moves);
    RunKeepsPolicy(block, moves);
    hide Total, Shorts, CleanRun, Run, LayersExact, SalesAddUp, ReturnsAddUp, WithinSold, WithinTaken;
  }

  lemma {:induction false} RunKeepsPolicy(block: bool, moves: seq<Movement>)
    ensures Run(block, moves).block == block
  {
    if moves != [] {
      RunKeepsPolicy(block, moves[..|moves| - 1]);
      hide Takes, Left, MayPutAll, Unput, Without, With, Cost, LastCost, Pad, FreshQty, ReturnedQty;
    }
  }

  /** Two units sold without stock and five received: the layers hold five, three are on hand. */
  lemma ShortThenReceived()
    ensures
      var s := Step(Step(Stock(false, 0, [], [], []), Sell(2, 1.0)), Receive(5, 1.0));
      s.onHand == 3 && Total(s.layers) == 5 && !Reconciles(s)
  {
    var sold := Step(Stock(false, 0, [], [], []), Sell(2, 1.0));
    assert Remaining([]) == [] && Left([], 2, 0) == 2;
    assert sold.layers == [] && sold.onHand == -2;
    var s := Step(sold, Receive(5, 1.0));
    assert s.layers == [] + [Layer(5, 5, 1.0, false)];
    RemainingAppend([], Layer(5, 5, 1.0, false));
  }

  // --- Movements that undo each other ---

  lemma PutBackTaken(layers: seq<Layer>, taken: seq<nat>)
    requires |taken| == |layers| && forall j :: 0 <= j < |layers| ==> taken[j] <= layers[j].remaining
    ensures With(Without(layers, taken), taken) == layers
  {
  }

  lemma TakeBackPut(layers: seq<Layer>, put: seq<nat>)
    ensures Without(With(layers, put), put) == layers
  {
  }

  lemma NewSaleMayPut(s: Stock, sold: Stock, sale: Sale)
    requires Sound(s) && sold.sales == s.sales + [sale] && sold.returned == s.returned
    requires sold.layers == Without(s.layers, sale.taken) && |sale.taken| == |s.layers|
    requires forall j :: 0 <= j < |s.layers| ==> sale.taken[j] <= s.layers[j].remaining
    ensures MayPutAll(sold, |s.sales|) == sale.taken && ReturnedQty(s.returned, |s.sales|) == 0
  {
    hide SalesAddUp, ReturnsKnown, WithinSold, Shorts;
    NewSaleUnreturned(s, 0);
    forall j | 0 <= j < |sale.taken|
      ensures MayPutAll(sold, |s.sales|)[j] == sale.taken[j]
    {
      NewSaleUnreturned(s, j);
    }
  }

  /** Straight after a sale, everything it took may be put back. */
  lemma NewSaleIsOwed(s: Stock, qty: nat, otherwise: real)
    requires Sound(s) && Issued(s, qty, otherwise).Success?
    ensures
      var sold, sale := Issued(s, qty, otherwise).value, SaleOf(s, qty, otherwise);
      && sold == s.(onHand := s.onHand - qty, layers := Without(s.layers, sale.taken), sales := s.sales + [sale])
      && MayPutAll(sold, |s.sales|) == sale.taken && ReturnedQty(sold.returned, |s.sales|) == 0
      && Sum(sale.taken) + sale.short == qty == sale.qty
      && |sale.taken| == |s.layers| && With(sold.layers, sale.taken) == s.layers
  {
    hide Sound, MayPutAll, Takes, Left, Total, Cost, LastCost, ReturnedQty, With, Without;
    var sold, sale := Issued(s, qty, otherwise).value, SaleOf(s, qty, otherwise);
    SaleTakes(s.layers, qty);
    PutBackTaken(s.layers, sale.taken);
    NewSaleMayPut(s, sold, sale);
  }

  lemma ReturnAfterSale(s: Stock, qty: nat, otherwise: real)
    requires Sound(s) && Issued(s, qty, otherwise).Success?
    ensures
      var sold := Issued(s, qty, otherwise).value;
      var back := Returned(sold, |s.sales|, qty);
      var short := sold.sales[|s.sales|].short;
      && back.Success? && back.value.onHand == s.onHand
      && (short == 0 ==> back.value.layers == s.layers)
      && (short > 0 ==> back.value.layers == s.layers + [Layer(qty, short, sold.sales[|s.sales|].shortCost, true)])
  {
    var sold := Issued(s, qty, otherwise).value;
    var sale := SaleOf(s, qty, otherwise);
    NewSaleIsOwed(s, qty, otherwise);
    TakesEverything(sale.taken, qty);
    hide Sound, MayPutAll, Takes, Left, ReturnedQty, With, Without, SaleOf;
  }

  /** In every run, whatever was cancelled: returning a whole sale at once gives back every layer as it was before
      the sale, and one more layer for what had been sold without stock. */
  lemma ReturnUndoesSale(block: bool, moves: seq<Movement>, qty: nat, otherwise: real)
    requires Issued(Run(block, moves), qty, otherwise).Success?
    ensures
      var s := Run(block, moves);
      var sold := Issued(s, qty, otherwise).value;
      var back := Returned(sold, |s.sales|, qty);
      var short := sold.sales[|s.sales|].short;
      && back.Success? && back.value.onHand == s.onHand
      && (short == 0 ==> back.value.layers == s.layers)
      && (short > 0 ==> back.value.layers == s.layers + [Layer(qty, short, sold.sales[|s.sales|].shortCost, true)])
  {
    hide Run, Sound, Issued, Returned;
    RunSound(block, moves);
    ReturnAfterSale(Run(block, moves), qty, otherwise);
  }

  /** Places that together hold no more than the need give all they hold. */
  lemma TakesEverything(amounts: seq<nat>, need: nat)
    requires Sum(amounts) <= need
    ensures Takes(amounts, need) == amounts && Left(amounts, need, |amounts|) == need - Sum(amounts)
  {
    TakesAll(amounts, need);
    forall i | 0 <= i < |amounts|
      ensures Takes(amounts, need)[i] <= amounts[i]
    {
      TakeNext(amounts, need, i);
    }
    SumBounded(Takes(amounts, need), amounts);
  }

  lemma {:induction false} SumZero(amounts: seq<nat>)
    requires Sum(amounts) == 0
    ensures NoDetail(amounts)
  {
    if amounts != [] {
      SumZero(amounts[..|amounts| - 1]);
    }
  }

  lemma SumsZero(amounts: seq<nat>)
    ensures Sum(amounts) == 0 <==> NoDetail(amounts)
  {
    hide Sum;
    if Sum(amounts) == 0 {
      SumZero(amounts);
    } else if NoDetail(amounts) {
      ZeroSum(amounts);
    }
  }

  lemma BackwardsNothing(amounts: seq<nat>)
    ensures NoDetail(Backwards(amounts)) <==> NoDetail(amounts)
  {
    hide Backwards;
    forall i | 0 <= i < |amounts|
      ensures Backwards(amounts)[|amounts| - 1 - i] == amounts[i]
    {
      BackwardsAt(amounts, |amounts| - 1 - i);
    }
    forall i | 0 <= i < |amounts|
      ensures Backwards(amounts)[i] == amounts[|amounts| - 1 - i]
    {
      BackwardsAt(amounts, i);
    }
  }

  /** The estimate takes nothing exactly when the layers hold nothing of what the sale took. */
  lemma UndoneNothing(layers: seq<Layer>, taken: seq<nat>, need: nat)
    requires need > 0
    ensures NoDetail(Undone(layers, taken, need)) <==> NoDetail(Held(layers, taken))
  {
    var back := Backwards(Held(layers, taken));
    hide Takes, Backwards, Held, NoDetail, Sum;
    TakesAll(back, need);
    SumsZero(back);
    SumsZero(Takes(back, need));
    BackwardsNothing(Held(layers, taken));
    BackwardsNothing(Takes(back, need));
  }

  /** Taking amounts that the layers hold changes them exactly when there is something to take. */
  lemma WithoutNothing(layers: seq<Layer>, amounts: seq<nat>)
    requires |amounts| <= |layers| && forall j :: 0 <= j < |amounts| ==> amounts[j] <= layers[j].remaining
    ensures Without(layers, amounts) == layers <==> NoDetail(amounts)
  {
    forall j | 0 <= j < |amounts|
      ensures Without(layers, amounts)[j] == layers[j] <==> amounts[j] == 0
    {
    }
    if NoDetail(amounts) {
      assert forall j :: 0 <= j < |layers| ==> Without(layers, amounts)[j] == layers[j];
    }
    hide Without;
  }

  lemma UndoneHeld(layers: seq<Layer>, taken: seq<nat>, need: nat)
    requires |taken| <= |layers|
    ensures forall j :: 0 <= j < |taken| ==> Undone(layers, taken, need)[j] <= layers[j].remaining
  {
    hide Undone, Held, Backwards, Left;
    forall j | 0 <= j < |taken|
      ensures Undone(layers, taken, need)[j] <= layers[j].remaining
    {
      UndoTurn(layers, taken, need, j);
      HeldAt(layers, taken, j);
    }
  }

  lemma WithNothing(layers: seq<Layer>, put: seq<nat>)
    requires NoDetail(put)
    ensures With(layers, put) == layers
  {
  }

  lemma CancelAllowed(s: Stock, r: nat)
    requires r < |s.returned| && s.returned[r].inForce && (s.block ==> s.onHand >= s.returned[r].qty)
    ensures Cancelled(s, r) == Success(s.(
      onHand := s.onHand - s.returned[r].qty, layers := Without(s.layers, Unput(s, r)),
      returned := s.returned[r := s.returned[r].(inForce := false)]))
  {
    hide Unput, Without;
  }

  lemma NothingRecorded(s: Stock, sale: nat, qty: nat)
    requires Returned(s, sale, qty).Success? && sale < |s.sales|
    requires Puts(s, sale, qty) == 0 && FreshQty(s, sale, qty) == 0
    ensures
      var back := Returned(s, sale, qty).value;
      back.layers == s.layers && back.sales == s.sales && back.returned[..|s.returned|] == s.returned
      && |back.returned| == |s.returned| + 1 && NoDetail(back.returned[|s.returned|].put)
      && back.returned[|s.returned|].qty == qty && back.returned[|s.returned|].sale == sale
    ensures s.sales[sale].short == 0 < qty
  {
    hide Returned, Takes, MayPutAll, FreshQty, With, Sum, NoDetail;
    var put := Takes(MayPutAll(s, sale), qty);
    QtyPositive(s, sale, qty);
    ReturnPuts(s, sale, qty);
    SumsZero(put);
    PlainShape(s, sale, qty);
    WithNothing(s.layers, put);
  }

  /** What the estimate takes for such a return. */
  lemma UnputNothing(s: Stock, r: nat)
    requires r < |s.returned| && s.returned[r].sale < |s.sales| && NoDetail(s.returned[r].put)
    requires s.sales[s.returned[r].sale].short == 0
    ensures Unput(s, r) == Undone(s.layers, s.sales[s.returned[r].sale].taken, s.returned[r].qty)
  {
    hide Undone, NoDetail;
  }

  /** A return of which nothing was put back: its cancel falls back on the estimate. */
  lemma CancelOfNothing(s: Stock, sale: nat, qty: nat)
    requires SalesAddUp(s.sales, |s.layers|) && Returned(s, sale, qty).Success? && sale < |s.sales|
    requires Puts(s, sale, qty) == 0 && FreshQty(s, sale, qty) == 0
    ensures
      var back := Returned(s, sale, qty).value;
      var out := Without(back.layers, Unput(back, |s.returned|));
      back.layers == s.layers && (out == s.layers <==> NoDetail(Held(s.layers, s.sales[sale].taken)))
  {
    assert |s.sales[sale].taken| <= |s.layers|;
    hide *;
    var taken := s.sales[sale].taken;
    NothingRecorded(s, sale, qty);
    UnputNothing(Returned(s, sale, qty).value, |s.returned|);
    UndoneNothing(s.layers, taken, qty);
    UndoneHeld(s.layers, taken, qty);
    WithoutNothing(s.layers, Undone(s.layers, taken, qty));
  }

  /** A return that put something back on the layers of its sale alone. */
  lemma CancelOfPlain(s: Stock, sale: nat, qty: nat)
    requires Returned(s, sale, qty).Success? && sale < |s.sales|
    requires Puts(s, sale, qty) > 0 && FreshQty(s, sale, qty) == 0
    ensures
      var back := Returned(s, sale, qty).value;
      Without(back.layers, Unput(back, |s.returned|)) == s.layers
  {
    hide Returned, Takes, MayPutAll, FreshQty, With, Without, Undone, Sum, NoDetail;
    var put := Takes(MayPutAll(s, sale), qty);
    ReturnPuts(s, sale, qty);
    SumsZero(put);
    PlainShape(s, sale, qty);
    TakeBackPut(s.layers, put);
  }

  /** A return that also made a layer of its own. */
  lemma CancelOfFresh(s: Stock, sale: nat, qty: nat)
    requires SalesAddUp(s.sales, |s.layers|) && Returned(s, sale, qty).Success? && sale < |s.sales|
    requires FreshQty(s, sale, qty) > 0
    ensures
      var back := Returned(s, sale, qty).value;
      var out := Without(back.layers, Unput(back, |s.returned|));
      |out| == |s.layers| + 1 && out[..|s.layers|] == s.layers && out[|s.layers|].remaining == 0
  {
    assert |s.sales[sale].taken| <= |s.layers|;
    hide SalesAddUp, Returned, Takes, MayPutAll, FreshQty, Without, With, Pad, Undone;
    var back := Returned(s, sale, qty).value;
    var put, more := Takes(MayPutAll(s, sale), qty), FreshQty(s, sale, qty);
    FreshShape(s, sale, qty);
    assert back.returned[|s.returned|].put[|s.layers|] == more;
    FreshTakenOut(s.layers, put, back.layers[|s.layers|], more);
  }

  /** Taking a padded return out again, its own new layer included. */
  lemma FreshTakenOut(layers: seq<Layer>, put: seq<nat>, l: Layer, more: nat)
    requires |put| <= |layers| && l.remaining == more
    ensures
      var all := Pad(put, |layers|) + [more];
      var out := Without(With(layers, put) + [l], all);
      && |out| == |layers| + 1 && out[..|layers|] == layers && out[|layers|].remaining == 0
  {
  }

  lemma StraightCancel(s: Stock, sale: nat, qty: nat)
    requires Sound(s) && Returned(s, sale, qty).Success? && sale < |s.sales|
    ensures
      var cancelled := Cancelled(Returned(s, sale, qty).value, |s.returned|);
      && cancelled.Success? && cancelled.value.onHand == s.onHand
      && |s.layers| <= |cancelled.value.layers| <= |s.layers| + 1
      && (|cancelled.value.layers| > |s.layers| ==> cancelled.value.layers[|s.layers|].remaining == 0)
      && (cancelled.value.layers[..|s.layers|] == s.layers
          <==> Puts(s, sale, qty) > 0 || NoDetail(Held(s.layers, s.sales[sale].taken)))
  {
    assert SalesAddUp(s.sales, |s.layers|) && (s.block ==> s.onHand >= 0);
    hide *;
    var back := Returned(s, sale, qty).value;
    RecordedKnown(s, sale, qty);
    CancelAllowed(back, |s.returned|);
    var out := Without(back.layers, Unput(back, |s.returned|));
    ReturnPuts(s, sale, qty);
    if FreshQty(s, sale, qty) > 0 {
      CancelOfFresh(s, sale, qty);
    } else {
      if Puts(s, sale, qty) > 0 {
        CancelOfPlain(s, sale, qty);
      } else {
        CancelOfNothing(s, sale, qty);
      }
      PlainSize(s, sale, qty);
      assert out[..|s.layers|] == out;
    }
  }

  lemma PlainSize(s: Stock, sale: nat, qty: nat)
    requires Returned(s, sale, qty).Success? && sale < |s.sales| && FreshQty(s, sale, qty) == 0
    ensures |Returned(s, sale, qty).value.layers| == |s.layers|
  {
    hide FreshQty;
    PlainShape(s, sale, qty);
  }

  /** In every run, whatever was cancelled: cancelling a return straight after it goes through, and gives back every
      layer as it was before the return, a layer that the return made staying empty, exactly when the return put
      something back or its sale's layers are empty; else the estimate takes out units that it never put there. */
  lemma CancelStraightAway(block: bool, moves: seq<Movement>, sale: nat, qty: nat)
    requires Returned(Run(block, moves), sale, qty).Success?
    ensures
      var s := Run(block, moves);
      var cancelled := Cancelled(Returned(s, sale, qty).value, |s.returned|);
      && sale < |s.sales| && cancelled.Success? && cancelled.value.onHand == s.onHand
      && |s.layers| <= |cancelled.value.layers| <= |s.layers| + 1
      && (|cancelled.value.layers| > |s.layers| ==> cancelled.value.layers[|s.layers|].remaining == 0)
      && (cancelled.value.layers[..|s.layers|] == s.layers
          <==> Puts(s, sale, qty) > 0 || NoDetail(Held(s.layers, s.sales[sale].taken)))
  {
    hide *;
    RunSound(block, moves);
    QtyPositive(Run(block, moves), sale, qty);
    StraightCancel(Run(block, moves), sale, qty);
  }

  /** So in every run without a cancel of resold units it gives them back. */
  lemma CancelUndoesReturn(block: bool, moves: seq<Movement>, sale: nat, qty: nat)
    requires CleanRun(block, moves) && Returned(Run(block, moves), sale, qty).Success?
    ensures
      var s := Run(block, moves);
      var cancelled := Cancelled(Returned(s, sale, qty).value, |s.returned|);
      && cancelled.Success? && cancelled.value.onHand == s.onHand
      && |s.layers| <= |cancelled.value.layers| <= |s.layers| + 1
      && cancelled.value.layers[..|s.layers|] == s.layers
      && (|cancelled.value.layers| > |s.layers| ==> cancelled.value.layers[|s.layers|].remaining == 0)
  {
    hide *;
    var s := Run(block, moves);
    RunKeepsLaws(block, moves);
    QtyPositive(s, sale, qty);
    ReturnPutsAll(s, sale, qty);
    CancelStraightAway(block, moves, sale, qty);
  }

  // --- First in, first out ---

  function Repeat(layer: nat, n: nat): (units: seq<nat>)
    ensures |units| == n
  {
    seq(n, _ => layer)
  }

  /** The units of the first n layers as one queue, each named by its layer. */
  function Queue(amounts: seq<nat>, n: nat): seq<nat>
    requires n <= |amounts|
  {
    if n == 0 then [] else Queue(amounts, n - 1) + Repeat(n - 1, amounts[n - 1])
  }

  lemma {:induction false} QueueSplits(amounts: seq<nat>, rest: seq<nat>, need: nat, n: nat)
    requires n <= |amounts| == |rest|
    requires forall i :: 0 <= i < |amounts| ==> rest[i] == amounts[i] - Takes(amounts, need)[i]
    ensures Queue(amounts, n) == Queue(Takes(amounts, need), n) + Queue(rest, n)
    ensures Left(amounts, need, n) > 0 ==> Queue(rest, n) == []
  {
    hide Takes, Repeat, Left;
    if n > 0 {
      TakeNext(amounts, need, n - 1);
      QueueSplits(amounts, rest, need, n - 1);
      var taken := Takes(amounts, need);
      var t, r := taken[n - 1], rest[n - 1];
      JoinRepeats(Queue(taken, n - 1), Queue(rest, n - 1), n - 1, t, r);
    }
  }

  lemma JoinRepeats(a: seq<nat>, b: seq<nat>, layer: nat, t: nat, r: nat)
    requires t == 0 || b == []
    ensures (a + b) + Repeat(layer, t + r) == (a + Repeat(layer, t)) + (b + Repeat(layer, r))
  {
  }

  lemma {:induction false} QueueLength(amounts: seq<nat>, n: nat)
    requires n <= |amounts|
    ensures |Queue(amounts, n)| == Sum(amounts[..n])
  {
    if n > 0 {
      QueueLength(amounts, n - 1);
      assert amounts[..n][..n - 1] == amounts[..n - 1];
    }
  }

  function UnitsOf(layers: seq<Layer>): seq<nat> {
    Queue(Remaining(layers), |layers|)
  }

  /** What a run of units costs, each at its layer's cost. */
  function CostOf(layers: seq<Layer>, units: seq<nat>): real {
    if units == [] then 0.0
    else
      CostOf(layers, units[..|units| - 1])
      + if units[|units| - 1] < |layers| then layers[units[|units| - 1]].cost else 0.0
  }

  lemma {:induction false} CostAppend(layers: seq<Layer>, a: seq<nat>, b: seq<nat>)
    ensures CostOf(layers, a + b) == CostOf(layers, a) + CostOf(layers, b)
  {
    if b == [] {
      assert a + b == a;
    } else {
      var n := |b| - 1;
      CostAppend(layers, a, b[..n]);
      assert (a + b)[..|a| + n] == a + b[..n];
    }
  }

  lemma {:induction false} CostRepeat(layers: seq<Layer>, layer: nat, n: nat)
    requires layer < |layers|
    ensures CostOf(layers, Repeat(layer, n)) == Price(n, layers[layer].cost)
  {
    if n > 0 {
      CostRepeat(layers, layer, n - 1);
      assert Repeat(layer, n)[..n - 1] == Repeat(layer, n - 1);
    }
  }

  lemma {:induction false} CostOfQueue(layers: seq<Layer>, taken: seq<nat>, n: nat)
    requires n <= |taken| && n <= |layers|
    ensures CostOf(layers, Queue(taken, n)) == Cost(layers, taken, n)
  {
    if n > 0 {
      CostOfQueue(layers, taken, n - 1);
      CostAppend(layers, Queue(taken, n - 1), Repeat(n - 1, taken[n - 1]));
      CostRepeat(layers, n - 1, taken[n - 1]);
      hide CostOf, Repeat, Price;
    }
  }

  /** A sale takes the front of the queue and leaves the rest in order; what it takes is costed unit by unit,
      oldest first, and what is short at the stated cost. */
  lemma FirstInFirstOut(s: Stock, qty: nat, otherwise: real)
    requires Issued(s, qty, otherwise).Success?
    ensures
      var sold := Issued(s, qty, otherwise).value;
      var sale := sold.sales[|s.sales|];
      var k := Min(qty, |UnitsOf(s.layers)|);
      && UnitsOf(sold.layers) == UnitsOf(s.layers)[k..]
      && sale.short == qty - k
      && sale.cost == CostOf(s.layers, UnitsOf(s.layers)[..k])
           + Price(sale.short, sale.shortCost)
  {
    var sale := SaleOf(s, qty, otherwise);
    QueueServed(s.layers, qty);
    CostOfQueue(s.layers, sale.taken, |sale.taken|);
    hide Takes, Left, Queue, CostOf, Cost, LastCost, UnitsOf, Without, Price;
  }

  lemma QueueServed(layers: seq<Layer>, qty: nat)
    ensures
      var taken, units := Takes(Remaining(layers), qty), UnitsOf(layers);
      var k := Min(qty, |units|);
      && units[..k] == Queue(taken, |taken|) && units[k..] == UnitsOf(Without(layers, taken))
      && Left(Remaining(layers), qty, |layers|) == qty - k
  {
    var amounts := Remaining(layers);
    var taken := Takes(amounts, qty);
    var rest := Remaining(Without(layers, taken));
    SaleTakes(layers, qty);
    QueueSplits(amounts, rest, qty, |amounts|);
    QueueLength(amounts, |amounts|);
    QueueLength(taken, |amounts|);
    assert amounts[..|amounts|] == amounts && taken[..|taken|] == taken;
    hide Takes, Left, Queue, Remaining, Without;
  }

  /** The last unit of a queue is of the last layer that gave something. */
  lemma {:induction false} LastOfQueue(layers: seq<Layer>, taken: seq<nat>, n: nat)
    requires n <= |taken| && n <= |layers|
    ensures
      var units := Queue(taken, n);
      && (units == [] ==> LastCost(layers, taken, n) == 0.0)
      && (units != [] ==> var u := units[|units| - 1]; u < n && LastCost(layers, taken, n) == layers[u].cost)
  {
    if n > 0 {
      LastOfQueue(layers, taken, n - 1);
      var last := Repeat(n - 1, taken[n - 1]);
      assert taken[n - 1] > 0 ==> last[taken[n - 1] - 1] == n - 1;
    }
  }

  lemma LastServed(layers: seq<Layer>, qty: nat)
    ensures
      var taken, served := Takes(Remaining(layers), qty), UnitsOf(layers)[..Min(qty, |UnitsOf(layers)|)];
      && (served == [] ==> LastCost(layers, taken, |taken|) == 0.0)
      && (served != [] ==>
            var u := served[|served| - 1];
            u < |layers| && LastCost(layers, taken, |taken|) == layers[u].cost)
  {
    QueueServed(layers, qty);
    var taken := Takes(Remaining(layers), qty);
    hide Takes, Left, Queue, LastCost, UnitsOf, Without;
    LastOfQueue(layers, taken, |taken|);
  }

  /** Units sold without stock are costed at the last unit that the layers gave, if there is one that cost something,
      and otherwise at the best other cost known; so never at zero where any is known. */
  lemma ShortIsCosted(s: Stock, qty: nat, otherwise: real)
    requires Issued(s, qty, otherwise).Success?
    ensures
      var sold := Issued(s, qty, otherwise).value;
      var served := UnitsOf(s.layers)[..Min(qty, |UnitsOf(s.layers)|)];
      && |sold.sales| == |s.sales| + 1
      && var sale := sold.sales[|s.sales|];
      && (served == [] ==> sale.shortCost == otherwise)
      && (served != [] ==>
            var u := served[|served| - 1];
            && u < |s.layers|
            && (s.layers[u].cost > 0.0 ==> sale.shortCost == s.layers[u].cost)
            && (s.layers[u].cost <= 0.0 ==> sale.shortCost == otherwise))
  {
    hide Takes, Left, Cost, LastCost, UnitsOf, Without, Price;
    LastServed(s.layers, qty);
  }

  /** A receipt puts its own units at the end of the queue, at its own cost. */
  lemma ReceiptQueues(s: Stock, qty: nat, cost: real)
    ensures Received(s, qty, cost).Success? <==> qty > 0
    ensures qty > 0 ==>
      var t := Received(s, qty, cost).value;
      && UnitsOf(t.layers) == UnitsOf(s.layers) + Repeat(|s.layers|, qty)
      && |t.layers| == |s.layers| + 1 && t.layers[..|s.layers|] == s.layers
      && t.layers[|s.layers|].cost == cost && t.layers[|s.layers|].original == qty && !t.layers[|s.layers|].byReturn
      && t.onHand == s.onHand + qty && t.sales == s.sales && t.returned == s.returned && t.block == s.block
  {
    if qty > 0 {
      var t := Received(s, qty, cost).value;
      var n := |s.layers|;
      assert Remaining(t.layers) == Remaining(s.layers) + [qty];
      SameQueue(Remaining(t.layers), Remaining(s.layers), n);
    }
  }

  lemma {:induction false} SameQueue(a: seq<nat>, b: seq<nat>, n: nat)
    requires n <= |a| && n <= |b| && a[..n] == b[..n]
    ensures Queue(a, n) == Queue(b, n)
  {
    if n > 0 {
      assert a[..n - 1] == a[..n][..n - 1] && b[..n - 1] == b[..n][..n - 1];
      assert a[..n][n - 1] == b[..n][n - 1];
      SameQueue(a, b, n - 1);
    }
  }

  // --- Refusals of returns and cancels ---

  /** In every state: a return is refused for a zero quantity, an unknown sale, or more than is left of the sale. */
  lemma ReturnExactly(s: Stock, sale: nat, qty: nat)
    ensures Returned(s, sale, qty).Success? <==>
      0 < qty && sale < |s.sales| && ReturnedQty(s.returned, sale) + qty <= s.sales[sale].qty
    ensures Returned(s, sale, qty) == Failure(UnknownDocument) <==> 0 < qty && sale >= |s.sales|
    ensures Returned(s, sale, qty) == Failure(MoreThanSold) <==>
      0 < qty && sale < |s.sales| && ReturnedQty(s.returned, sale) + qty > s.sales[sale].qty
  {
    hide Takes, MayPutAll, FreshQty, ReturnedQty, With, Pad;
  }

  /** The rooms are filled in order: one gets something only where all before it are full, a new layer only where all
      are, and no more goes there than was sold short. */
  ghost predicate Refills(room: seq<nat>, short: nat, qty: nat, put: seq<nat>, more: nat) {
    && |put| == |room| && (forall j :: 0 <= j < |put| ==> put[j] <= room[j])
    && (forall i, j :: 0 <= i < j < |put| && put[j] > 0 ==> put[i] == room[i])
    && more <= short && (more > 0 ==> put == room) && Sum(put) + more == Min(qty, Sum(room) + short)
  }

  lemma TakesInOrder(amounts: seq<nat>, need: nat, i: nat, j: nat)
    requires i < j < |amounts| && Takes(amounts, need)[j] > 0
    ensures Takes(amounts, need)[i] == amounts[i]
  {
    hide Takes, Left;
    TakeNext(amounts, need, i);
    TakeNext(amounts, need, j);
    LeftFalls(amounts, need, i + 1, j);
  }

  lemma LeftOver(amounts: seq<nat>, need: nat, i: nat)
    requires i < |amounts| && Left(amounts, need, |amounts|) > 0
    ensures Takes(amounts, need)[i] == amounts[i]
  {
    hide Takes, Left;
    TakeNext(amounts, need, i);
    LeftFalls(amounts, need, i + 1, |amounts|);
  }

  lemma TakesRefill(room: seq<nat>, short: nat, qty: nat, more: nat)
    requires more == Min(Left(room, qty, |room|), short)
    requires Sum(Takes(room, qty)) + more == Min(qty, Sum(room) + short)
    ensures Refills(room, short, qty, Takes(room, qty), more)
  {
    hide Takes, Left, Sum;
    var put := Takes(room, qty);
    forall j | 0 <= j < |put|
      ensures put[j] <= room[j]
    {
      TakeNext(room, qty, j);
    }
    forall i, j | 0 <= i < j < |put| && put[j] > 0
      ensures put[i] == room[i]
    {
      TakesInOrder(room, qty, i, j);
    }
    forall i | 0 <= i < |put| && more > 0
      ensures put[i] == room[i]
    {
      LeftOver(room, qty, i);
    }
  }

  lemma PutRefills(s: Stock, sale: nat, qty: nat)
    requires sale < |s.sales|
    ensures
      Refills(MayPutAll(s, sale), s.sales[sale].short, qty, Takes(MayPutAll(s, sale), qty), FreshQty(s, sale, qty))
  {
    hide Takes, Left, MayPutAll, Sum, Refills, Min;
    ReturnPuts(s, sale, qty);
    TakesRefill(MayPutAll(s, sale), s.sales[sale].short, qty, FreshQty(s, sale, qty));
  }

  /** The room of a layer. */
  predicate RoomOf(s: Stock, sale: nat, j: nat, room: nat)
    requires sale < |s.sales| && j < |s.sales[sale].taken| && j < |s.layers|
  {
    var owed := Minus(s.sales[sale].taken[j], Already(s.returned, sale, j));
    var free := Minus(s.layers[j].original, s.layers[j].remaining);
    room <= owed && room <= free && (room == owed || room == free)
  }

  lemma RoomIs(s: Stock, sale: nat, j: nat)
    requires sale < |s.sales| && j < |s.sales[sale].taken| && j < |s.layers|
    ensures RoomOf(s, sale, j, MayPutAll(s, sale)[j])
  {
    hide Already;
  }

  /** What a return changes. */
  ghost predicate Reinstated(s: Stock, t: Stock, sale: nat, qty: nat, put: seq<nat>, more: nat)
    requires sale < |s.sales|
  {
    && t.onHand == s.onHand + qty && t.sales == s.sales && t.block == s.block
    && |t.layers| == |s.layers| + (if more > 0 then 1 else 0)
    && (forall j :: 0 <= j < |s.layers| ==>
          t.layers[j] == s.layers[j].(remaining := s.layers[j].remaining + Amount(put, j)))
    && (more > 0 ==> t.layers[|s.layers|] == Layer(qty, more, s.sales[sale].shortCost, true))
    && |t.returned| == |s.returned| + 1 && t.returned[..|s.returned|] == s.returned
    && var r := t.returned[|s.returned|];
    r.sale == sale && r.qty == qty && r.inForce && Amount(r.put, |s.layers|) == more
    && forall j :: 0 <= j < |s.layers| ==> Amount(r.put, j) == Amount(put, j)
  }

  lemma ReturnReinstates(s: Stock, sale: nat, qty: nat)
    requires Returned(s, sale, qty).Success? && |s.sales[sale].taken| <= |s.layers|
    ensures
      Reinstated(s, Returned(s, sale, qty).value, sale, qty, Takes(MayPutAll(s, sale), qty), FreshQty(s, sale, qty))
  {
    hide Takes, FreshQty, ReturnedQty, MayPutAll;
    assert |MayPutAll(s, sale)| == |s.sales[sale].taken| by { RoomsCount(s, sale); }
  }

  lemma RoomsCount(s: Stock, sale: nat)
    requires sale < |s.sales|
    ensures |MayPutAll(s, sale)| == |s.sales[sale].taken|
  {
  }

  /** Where a return goes, in every state: each layer has room for what the sale took from it and no return in force has
      put back, as far as that does not lift it above what it first held; the rooms are filled oldest first, and what
      is left goes to a new layer at the shortfall's cost. */
  lemma ReturnPlaces(s: Stock, sale: nat, qty: nat) returns (room: seq<nat>, put: seq<nat>, more: nat)
    requires Returned(s, sale, qty).Success? && |s.sales[sale].taken| <= |s.layers|
    ensures |room| == |s.sales[sale].taken| && forall j :: 0 <= j < |room| ==> RoomOf(s, sale, j, room[j])
    ensures Refills(room, s.sales[sale].short, qty, put, more)
    ensures Reinstated(s, Returned(s, sale, qty).value, sale, qty, put, more)
  {
    hide Takes, FreshQty, Refills, Already, Reinstated, RoomOf, MayPutAll;
    room, put, more := MayPutAll(s, sale), Takes(MayPutAll(s, sale), qty), FreshQty(s, sale, qty);
    RoomsCount(s, sale);
    PutRefills(s, sale, qty);
    ReturnReinstates(s, sale, qty);
    forall j | 0 <= j < |room|
      ensures RoomOf(s, sale, j, room[j])
    {
      RoomIs(s, sale, j);
    }
  }

  /** In every state: a cancel is refused for an unknown or cancelled return, or where stock may not go negative and
      less is on hand than the return brought; it only takes the return out of force and its quantity off hand. */
  lemma CancelExactly(s: Stock, r: nat)
    ensures Cancelled(s, r).Success? <==>
      r < |s.returned| && s.returned[r].inForce && (s.block ==> s.returned[r].qty <= s.onHand)
    ensures Cancelled(s, r) == Failure(AlreadyCancelled) <==> r < |s.returned| && !s.returned[r].inForce
    ensures Cancelled(s, r) == Failure(UnknownDocument) <==> r >= |s.returned|
    ensures Cancelled(s, r).Success? ==>
      var t := Cancelled(s, r).value;
      && t.onHand == s.onHand - s.returned[r].qty && t.sales == s.sales && |t.layers| == |s.layers|
      && t.returned == s.returned[r := s.returned[r].(inForce := false)]
      && forall j :: 0 <= j < |s.layers| ==> t.layers[j] == s.layers[j].(remaining := t.layers[j].remaining)
  {
    hide Unput;
  }

  /** From these layers this much can go: of each no more than the sale took from it and it still holds, altogether the
      need or all of that, and nothing from a layer while a later one has more to give. */
  ghost predicate Estimate(layers: seq<Layer>, taken: seq<nat>, need: nat, gone: seq<nat>)
    requires |taken| <= |layers|
  {
    && |gone| == |taken|
    && (forall j :: 0 <= j < |taken| ==> gone[j] <= taken[j] && gone[j] <= layers[j].remaining)
    && (forall i, j :: 0 <= i < j < |taken| && gone[j] < taken[j] && gone[j] < layers[j].remaining ==> gone[i] == 0)
    && exists room: seq<nat> ::
         && |room| == |taken| && (forall j :: 0 <= j < |taken| ==> room[j] == Min(taken[j], layers[j].remaining))
         && Sum(gone) == Min(need, Sum(room))
  }

  lemma EstimateHolds(layers: seq<Layer>, taken: seq<nat>, need: nat)
    requires |taken| <= |layers|
    ensures Estimate(layers, taken, need, Undone(layers, taken, need))
  {
    var gone, back := Undone(layers, taken, need), Backwards(Held(layers, taken));
    EstimateTotal(layers, taken, need);
    hide Undone, Backwards, Left, Sum;
    forall j | 0 <= j < |taken|
      ensures gone[j] <= taken[j] && gone[j] <= layers[j].remaining
    {
      UndoTurn(layers, taken, need, j);
      HeldAt(layers, taken, j);
    }
    forall i, j | 0 <= i < j < |taken| && gone[j] < taken[j] && gone[j] < layers[j].remaining
      ensures gone[i] == 0
    {
      UndoTurn(layers, taken, need, j);
      HeldAt(layers, taken, j);
      UndoTurn(layers, taken, need, i);
      LeftFalls(back, need, |taken| - j, |taken| - 1 - i);
    }
  }

  /** What taking these amounts out takes, as far as it is there. */
  function Taking(layers: seq<Layer>, out: seq<nat>): (gone: seq<nat>)
    ensures |gone| == |out|
  {
    seq(|out|, j requires 0 <= j < |out| => if j < |layers| then Min(out[j], layers[j].remaining) else 0)
  }

  lemma TakenOut(layers: seq<Layer>, out: seq<nat>)
    ensures forall j :: 0 <= j < |layers| ==>
      && Without(layers, out)[j].remaining == layers[j].remaining - Amount(Taking(layers, out), j)
      && Amount(Taking(layers, out), j) == Min(Amount(out, j), layers[j].remaining)
  {
  }

  /** What a cancel takes out of the layers: what the return is recorded to have put there, as far as it is still there,
      and where nothing is recorded an estimate of what it brought beyond the sale's shortfall. */
  lemma CancelTakes(s: Stock, r: nat) returns (gone: seq<nat>)
    requires Cancelled(s, r).Success?
    requires forall k :: 0 <= k < |s.sales| ==> |s.sales[k].taken| <= |s.layers|
    ensures forall j :: 0 <= j < |s.layers| ==>
      Cancelled(s, r).value.layers[j].remaining == s.layers[j].remaining - Amount(gone, j)
    ensures
      var put := s.returned[r].put;
      (exists j :: 0 <= j < |put| && put[j] > 0) ==>
        forall j :: 0 <= j < |s.layers| ==> Amount(gone, j) == Min(Amount(put, j), s.layers[j].remaining)
    ensures
      var ret := s.returned[r];
      (forall j :: 0 <= j < |ret.put| ==> ret.put[j] == 0) && ret.sale < |s.sales| ==>
        var sale := s.sales[ret.sale];
        Estimate(s.layers, sale.taken, if ret.qty >= sale.short then ret.qty - sale.short else 0, gone)
  {
    hide Undone, Estimate, Sum, Min;
    var ret := s.returned[r];
    var out := Unput(s, r);
    gone := Taking(s.layers, out);
    TakenOut(s.layers, out);
    hide Without, Amount, Taking;
    if NoDetail(ret.put) && ret.sale < |s.sales| {
      var sale := s.sales[ret.sale];
      var need := Minus(ret.qty, sale.short);
      EstimateHolds(s.layers, sale.taken, need);
      EstimateWithin(s.layers, sale.taken, need, out);
    }
  }

  lemma EstimateWithin(layers: seq<Layer>, taken: seq<nat>, need: nat, gone: seq<nat>)
    requires |taken| <= |layers| && Estimate(layers, taken, need, gone)
    ensures Taking(layers, gone) == gone
  {
    hide Sum;
  }

  lemma {:induction false} LeftFalls(amounts: seq<nat>, need: nat, m: nat, n: nat)
    requires m <= n <= |amounts|
    ensures Left(amounts, need, n) <= Left(amounts, need, m)
  {
    if m < n {
      LeftFalls(amounts, need, m, n - 1);
    }
  }

  lemma {:induction false} SumFirst(amounts: seq<nat>)
    requires amounts != []
    ensures Sum(amounts) == amounts[0] + Sum(amounts[1..])
  {
    var n := |amounts| - 1;
    if n > 0 {
      SumFirst(amounts[..n]);
      assert amounts[..n][1..] == amounts[1..][..n - 1];
    } else {
      assert amounts[..n] == [] == amounts[1..];
    }
  }

  lemma {:induction false} BackwardsSum(amounts: seq<nat>)
    ensures Sum(Backwards(amounts)) == Sum(amounts)
  {
    if amounts != [] {
      var n := |amounts| - 1;
      BackwardsSum(amounts[1..]);
      SumFirst(amounts);
      assert Backwards(amounts)[..n] == Backwards(amounts[1..]);
    }
  }

  lemma EstimateTotal(layers: seq<Layer>, taken: seq<nat>, need: nat)
    ensures Sum(Undone(layers, taken, need)) == Min(need, Sum(Held(layers, taken)))
  {
    var back := Backwards(Held(layers, taken));
    hide Backwards, Held, Takes, Sum;
    TakesAll(back, need);
    BackwardsSum(Takes(back, need));
    BackwardsSum(Held(layers, taken));
  }

  // --- The limit of a cancel ---

  lemma OneLayer(remaining: nat, need: nat)
    ensures Takes([remaining], need) == [Min(need, remaining)] && Left([remaining], need, 1) == Minus(need, remaining)
  {
    assert Left([remaining], need, 0) == need;
  }

  lemma SellFromOne(s: Stock, qty: nat)
    requires |s.layers| == 1 && 0 < qty <= s.onHand && qty <= s.layers[0].remaining
    ensures
      var t := Step(s, Sell(qty, 0.0));
      && t.onHand == s.onHand - qty && t.block == s.block && t.returned == s.returned
      && t.layers == [s.layers[0].(remaining := s.layers[0].remaining - qty)]
      && |t.sales| == |s.sales| + 1 && t.sales[..|s.sales|] == s.sales
      && t.sales[|s.sales|].qty == qty && t.sales[|s.sales|].taken == [qty] && t.sales[|s.sales|].short == 0
  {
    assert Remaining(s.layers) == [s.layers[0].remaining];
    OneLayer(s.layers[0].remaining, qty);
    hide Takes, Left, Cost, LastCost;
  }

  lemma ReturnToOne(s: Stock, qty: nat)
    requires 0 < qty && |s.layers| == 1 && |s.sales| == 1 && s.returned == [] && s.sales[0].qty == qty
    requires s.sales[0].taken == [qty] && s.sales[0].short == 0 && s.layers[0].remaining + qty <= s.layers[0].original
    ensures
      Step(s, TakeBack(0, qty)) == s.(
        onHand := s.onHand + qty, layers := [s.layers[0].(remaining := s.layers[0].remaining + qty)],
        returned := [Return(0, qty, [qty], true)])
  {
    assert MayPutAll(s, 0) == [qty];
    OneLayer(qty, qty);
    hide Takes, Left, MayPutAll;
  }

  /** Five units are sold, returned, and three of them sold again; cancelling the return then leaves four units
      in the layers with one on hand. */
  lemma ResoldUnits()
    ensures
      var s1 := Step(Stock(true, 0, [], [], []), Receive(5, 1.0));
      var s4 := Step(Step(Step(s1, Sell(5, 0.0)), TakeBack(0, 5)), Sell(3, 0.0));
      var after := Step(Step(s4, Receive(4, 1.0)), CancelReturn(0));
      after.onHand == 1 && Total(after.layers) == 4
  {
    hide Issued, Returned, Total;
    var s1 := Step(Stock(true, 0, [], [], []), Receive(5, 1.0));
    assert s1 == Stock(true, 5, [Layer(5, 5, 1.0, false)], [], []);
    SellFromOne(s1, 5);
    var s2 := Step(s1, Sell(5, 0.0));
    ReturnToOne(s2, 5);
    var s3 := Step(s2, TakeBack(0, 5));
    SellFromOne(s3, 3);
    var s4 := Step(s3, Sell(3, 0.0));
    assert s4.onHand == 2 && s4.layers == [Layer(5, 2, 1.0, false)] && s4.returned == [Return(0, 5, [5], true)];
    var s5 := Step(s4, Receive(4, 1.0));
    assert s5.onHand == 6 && s5.layers == [Layer(5, 2, 1.0, false), Layer(4, 4, 1.0, false)];
    CancelLeaves(s5);
  }

  lemma CancelLeaves(s: Stock)
    requires s.block && s.onHand == 6 && s.returned == [Return(0, 5, [5], true)]
    requires s.layers == [Layer(5, 2, 1.0, false), Layer(4, 4, 1.0, false)]
    ensures var after := Step(s, CancelReturn(0)); after.onHand == 1 && Total(after.layers) == 4
  {
    var put: seq<nat> := [5];
    assert s.returned[0].put[0] == put[0] > 0;
    assert Unput(s, 0) == put;
    var after := Step(s, CancelReturn(0));
    hide Unput;
    var amounts: seq<nat> := [0, 4];
    assert Remaining(after.layers) == amounts;
    assert amounts[..1] == [0] && amounts[..1][..0] == [];
    assert Sum(amounts[..1]) == 0;
  }
}

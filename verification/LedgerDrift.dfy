/** How far the layers drift from what is on hand once a cancel finds units gone, for every run, and what follows. */
module LedgerDrift {
  import opened Amounts
  import opened LedgerLaws
  import opened LedgerRuns
  import opened StockLedger
  import opened Wrappers

  /** What taking these amounts out removes from each layer. */
  function Removed(layers: seq<Layer>, put: seq<nat>): (amounts: seq<nat>)
    ensures |amounts| == |layers|
  {
    seq(|layers|, j requires 0 <= j < |layers| => Min(Amount(put, j), layers[j].remaining))
  }

  /** The units of a return that its cancel does not take out of the layers. */
  function Stuck(s: Stock, r: nat): nat
    requires r < |s.returned|
  {
    Minus(s.returned[r].qty, Sum(Removed(s.layers, Unput(s, r))))
  }

  function StepStuck(s: Stock, m: Movement): nat {
    if m.CancelReturn? && Cancelled(s, m.r).Success? then Stuck(s, m.r) else 0
  }

  /** The units of a return that find no place on the layers. */
  function StepUnplaced(s: Stock, m: Movement): nat {
    if m.TakeBack? && Returned(s, m.sale, m.qty).Success? then Minus(m.qty, Puts(s, m.sale, m.qty)) else 0
  }

  function StuckUnits(block: bool, moves: seq<Movement>): nat {
    if moves == [] then 0
    else
      var n := |moves| - 1;
      StuckUnits(block, moves[..n]) + StepStuck(Run(block, moves[..n]), moves[n])
  }

  function UnplacedUnits(block: bool, moves: seq<Movement>): nat {
    if moves == [] then 0
    else
      var n := |moves| - 1;
      UnplacedUnits(block, moves[..n]) + StepUnplaced(Run(block, moves[..n]), moves[n])
  }

  // --- The law of every run ---

  lemma TotalRemoved(layers: seq<Layer>, put: seq<nat>)
    ensures Total(Without(layers, put)) + Sum(Removed(layers, put)) == Total(layers)
  {
    var amounts := Removed(layers, put);
    assert Without(layers, put) == Without(layers, amounts);
    hide Without, Total, Sum;
    TotalWithout(layers, amounts);
  }

  lemma RemovedAtMost(layers: seq<Layer>, put: seq<nat>)
    requires |put| <= |layers|
    ensures Sum(Removed(layers, put)) <= Sum(put)
  {
    hide Sum;
    SumBounded(Removed(layers, put), Pad(put, |layers|));
    PadSum(put, |layers|);
  }

  lemma UndoneAtMost(layers: seq<Layer>, taken: seq<nat>, need: nat)
    ensures Sum(Undone(layers, taken, need)) <= need
  {
    var back := Backwards(Held(layers, taken));
    hide Backwards, Held, Takes, Sum;
    TakesAll(back, need);
    BackwardsSum(Takes(back, need));
  }

  /** A cancel never takes out more than the return brought. */
  lemma CancelAtMost(s: Stock, r: nat)
    requires Sound(s) && r < |s.returned|
    ensures Sum(Removed(s.layers, Unput(s, r))) + Stuck(s, r) == s.returned[r].qty
  {
    assert ReturnKnown(s.returned[r], |s.sales|, |s.layers|);
    var sale := s.sales[s.returned[r].sale];
    assert |sale.taken| <= |s.layers|;
    hide Sound, Undone, Removed, Sum, NoDetail;
    UndoneAtMost(s.layers, sale.taken, Minus(s.returned[r].qty, sale.short));
    RemovedAtMost(s.layers, Unput(s, r));
  }

  ghost predicate Drifted(s: Stock, unplaced: nat, stuck: nat) {
    Total(s.layers) + unplaced == s.onHand + Shorts(s.sales) + stuck
  }

  lemma SaleDrift(s: Stock, qty: nat, otherwise: real, unplaced: nat, stuck: nat)
    requires Drifted(s, unplaced, stuck) && Issued(s, qty, otherwise).Success?
    ensures Drifted(Issued(s, qty, otherwise).value, unplaced, stuck)
  {
    hide Without, Takes, Left, Total, Cost, LastCost, Sum;
    var sale := SaleOf(s, qty, otherwise);
    SaleTakes(s.layers, qty);
    TotalWithout(s.layers, sale.taken);
    assert (s.sales + [sale])[..|s.sales|] == s.sales;
  }

  lemma ReturnDrift(s: Stock, sale: nat, qty: nat, unplaced: nat, stuck: nat)
    requires Sound(s) && Drifted(s, unplaced, stuck) && Returned(s, sale, qty).Success? && sale < |s.sales|
    ensures Drifted(Returned(s, sale, qty).value, unplaced + Minus(qty, Puts(s, sale, qty)), stuck)
  {
    assert |s.sales[sale].taken| <= |s.layers|;
    hide Sound, Returned, With, Takes, MayPutAll, FreshQty, Total, Shorts, Sum, Pad;
    var put, more := Takes(MayPutAll(s, sale), qty), FreshQty(s, sale, qty);
    ReturnPuts(s, sale, qty);
    TotalWith(s.layers, put);
    if more == 0 {
      PlainShape(s, sale, qty);
    } else {
      FreshShape(s, sale, qty);
      RemainingAppend(With(s.layers, put), Layer(qty, more, s.sales[sale].shortCost, true));
    }
  }

  lemma CancelDrift(s: Stock, r: nat, unplaced: nat, stuck: nat)
    requires Sound(s) && Drifted(s, unplaced, stuck) && Cancelled(s, r).Success?
    ensures Drifted(Cancelled(s, r).value, unplaced, stuck + Stuck(s, r))
  {
    hide Sound, Without, Unput, Removed, Total, Shorts, Sum, Stuck;
    CancelAtMost(s, r);
    TotalRemoved(s.layers, Unput(s, r));
  }

  lemma StepDrift(s: Stock, m: Movement, unplaced: nat, stuck: nat)
    requires Sound(s) && Drifted(s, unplaced, stuck)
    ensures Drifted(Step(s, m), unplaced + StepUnplaced(s, m), stuck + StepStuck(s, m))
  {
    hide Sound, Issued, Returned, Cancelled, Total, Shorts, Puts, Stuck;
    if Attempt(s, m).Success? {
      match m
      case Receive(qty, cost) => RemainingAppend(s.layers, Layer(qty, qty, cost, false));
      case Sell(qty, otherwise) => SaleDrift(s, qty, otherwise, unplaced, stuck);
      case TakeBack(sale, qty) =>
        QtyPositive(s, sale, qty);
        ReturnDrift(s, sale, qty, unplaced, stuck);
      case CancelReturn(r) => CancelDrift(s, r, unplaced, stuck);
    }
  }

  /** In every run: the layers hold what is on hand and what was sold without stock, more by the units that cancels
      could not take out, and less by those that returns could not put back. */
  lemma {:induction false} RunDrift(block: bool, moves: seq<Movement>)
    ensures
      var s := Run(block, moves);
      Total(s.layers) + UnplacedUnits(block, moves) == s.onHand + Shorts(s.sales) + StuckUnits(block, moves)
  {
    if moves == [] {
      SumNone();
    } else {
      hide Total, Shorts, StepStuck, StepUnplaced, Sound, Step;
      var n := |moves| - 1;
      RunDrift(block, moves[..n]);
      RunSound(block, moves[..n]);
      StepDrift(Run(block, moves[..n]), moves[n], UnplacedUnits(block, moves[..n]), StuckUnits(block, moves[..n]));
    }
  }

  // --- What follows ---

  /** Without a cancel of resold units nothing drifts. */
  lemma {:induction false} CleanRunsDoNotDrift(block: bool, moves: seq<Movement>)
    requires CleanRun(block, moves)
    ensures StuckUnits(block, moves) == 0 == UnplacedUnits(block, moves)
  {
    if moves != [] {
      var n := |moves| - 1;
      CleanRunsDoNotDrift(block, moves[..n]);
      RunKeepsLaws(block, moves[..n]);
      CleanStep(Run(block, moves[..n]), moves[n]);
      hide StepStuck, StepUnplaced, Good, Clean;
    }
  }

  lemma CleanStep(s: Stock, m: Movement)
    requires Good(s) && Clean(s, m)
    ensures StepStuck(s, m) == 0 == StepUnplaced(s, m)
  {
    hide Good, Returned, Cancelled, Puts, Stuck, StillThere;
    if m.TakeBack? && Returned(s, m.sale, m.qty).Success? {
      QtyPositive(s, m.sale, m.qty);
      ReturnPutsAll(s, m.sale, m.qty);
    }
    if m.CancelReturn? && Cancelled(s, m.r).Success? {
      AcceptedCancel(s, m.r);
      NothingStuck(s, m.r);
    }
  }

  lemma AcceptedCancel(s: Stock, r: nat)
    requires Cancelled(s, r).Success?
    ensures r < |s.returned|
  {
    hide Unput, Without;
  }

  lemma NothingStuck(s: Stock, r: nat)
    requires Good(s) && r < |s.returned| && StillThere(s, r)
    ensures Stuck(s, r) == 0
  {
    assert ReturnAddsUp(s.returned[r], s.sales, s.layers);
    hide Good, Unput, Sum;
    var put := s.returned[r].put;
    DetailDecides(s, r);
    assert Removed(s.layers, put) == Pad(put, |s.layers|);
    PadSum(put, |s.layers|);
  }

  /** Where stock may not go negative, all that is on hand can be sold, in whatever lots, exactly when returns could
      not put back no more units than cancels could not take out. */
  lemma AllSellable(moves: seq<Movement>)
    ensures
      var s := Run(true, moves);
      (forall qty: nat, otherwise: real :: 0 < qty <= s.onHand ==> Issued(s, qty, otherwise).Success?)
      <==> UnplacedUnits(true, moves) <= StuckUnits(true, moves)
  {
    var s := Run(true, moves);
    RunDrift(true, moves);
    RunSound(true, moves);
    RunKeepsPolicy(true, moves);
    hide Run, Total, Shorts, Issued, SalesAddUp, ReturnsKnown, WithinSold, Capped, UnplacedUnits, StuckUnits;
    forall qty: nat, otherwise: real
      ensures Issued(s, qty, otherwise).Success? <==> 0 < qty <= s.onHand && qty <= Total(s.layers)
    {
      SaleExactly(s, qty, otherwise);
    }
    if s.onHand > 0 {
      var all: nat := s.onHand;
      assert Issued(s, all, 0.0).Success? <==> all <= Total(s.layers);
    }
  }

  /** In every run: the reconciliation rule holds exactly when, with stock on hand, what was sold without stock and
      what is stuck make up for what was not put back, and otherwise when the layers are empty. */
  lemma ReconcilesInEveryRun(block: bool, moves: seq<Movement>)
    ensures
      var s := Run(block, moves);
      Reconciles(s) <==>
        if s.onHand > 0 then Shorts(s.sales) + StuckUnits(block, moves) == UnplacedUnits(block, moves)
        else Total(s.layers) == 0
  {
    hide Run, Total, Shorts, UnplacedUnits, StuckUnits;
    RunDrift(block, moves);
  }

  // --- A run that drifts down ---

  lemma TwoTakes(a: nat, b: nat, need: nat)
    ensures Takes([a, b], need) == [Min(need, a), Min(Minus(need, a), b)]
    ensures Left([a, b], need, 2) == Minus(Minus(need, a), b)
  {
    assert Left([a, b], need, 0) == need;
    assert Left([a, b], need, 1) == Minus(need, a);
  }

  /** A received layer of two units of which some remain. */
  function Pair(remaining: nat): Layer {
    Layer(2, remaining, 1.0, false)
  }

  /** The two sales of the run: the first empties the first layer, the second takes one unit of each. */
  function SaleOne(): Sale {
    Sale(2, [2], 0, 1.0, 2.0)
  }

  function SaleTwo(): Sale {
    Sale(2, [1, 1], 0, 1.0, 2.0)
  }

  lemma FirstSale()
    ensures Step(Stock(true, 2, [Pair(2)], [], []), Sell(2, 0.0)) == Stock(true, 0, [Pair(0)], [SaleOne()], [])
  {
    var s := Stock(true, 2, [Pair(2)], [], []);
    assert Remaining(s.layers) == [2];
    OneLayer(2, 2);
    assert SaleOf(s, 2, 0.0) == SaleOne() by {
      assert Cost(s.layers, [2], 0) == 0.0 && Cost(s.layers, [2], 1) == 2.0;
    }
    hide Takes, Left, SaleOf;
  }

  lemma FirstReturn()
    ensures Step(Stock(true, 0, [Pair(0)], [SaleOne()], []), TakeBack(0, 1))
      == Stock(true, 1, [Pair(1)], [SaleOne()], [Return(0, 1, [1], true)])
  {
    var s := Stock(true, 0, [Pair(0)], [SaleOne()], []);
    assert MayPutAll(s, 0) == [2];
    OneLayer(2, 1);
    hide Takes, Left, MayPutAll;
  }

  lemma SecondSale()
    ensures
      var returned := [Return(0, 1, [1], true)];
      Step(Stock(true, 3, [Pair(1), Pair(2)], [SaleOne()], returned), Sell(2, 0.0))
      == Stock(true, 1, [Pair(0), Pair(1)], [SaleOne(), SaleTwo()], returned)
  {
    var returned := [Return(0, 1, [1], true)];
    var s := Stock(true, 3, [Pair(1), Pair(2)], [SaleOne()], returned);
    assert Remaining(s.layers) == [1, 2];
    TwoTakes(1, 2, 2);
    assert SaleOf(s, 2, 0.0) == SaleTwo() by {
      assert Cost(s.layers, [1, 1], 0) == 0.0 && Cost(s.layers, [1, 1], 1) == 1.0;
      assert Cost(s.layers, [1, 1], 2) == 2.0;
    }
    hide Takes, Left, SaleOf;
  }

  lemma CancelFindsNothing()
    ensures
      var sales := [SaleOne(), SaleTwo()];
      Step(Stock(true, 1, [Pair(0), Pair(1)], sales, [Return(0, 1, [1], true)]), CancelReturn(0))
      == Stock(true, 0, [Pair(0), Pair(1)], sales, [Return(0, 1, [1], false)])
  {
    var put: seq<nat> := [1];
    assert put[0] == 1 && !NoDetail(put);
    hide Undone;
  }

  lemma WholeReturn()
    ensures
      var sales, gone := [SaleOne(), SaleTwo()], Return(0, 1, [1], false);
      Step(Stock(true, 0, [Pair(0), Pair(1)], sales, [gone]), TakeBack(0, 2))
      == Stock(true, 2, [Pair(2), Pair(1)], sales, [gone, Return(0, 2, [2], true)])
  {
    var sales, gone := [SaleOne(), SaleTwo()], Return(0, 1, [1], false);
    var s := Stock(true, 0, [Pair(0), Pair(1)], sales, [gone]);
    assert [gone][..0] == [] && Already([gone], 0, 0) == 0 && ReturnedQty([gone], 0) == 0;
    hide Already, ReturnedQty;
    assert MayPutAll(s, 0) == [2];
    OneLayer(2, 2);
    hide Takes, Left, MayPutAll;
  }

  /** The state once the first sale is returned again as a whole: its cancelled unit stands in the layers twice. */
  function Doubled(onHand: int, second: nat, more: seq<Return>): Stock {
    Stock(true, onHand, [Pair(2), Pair(second)], [SaleOne(), SaleTwo()],
          [Return(0, 1, [1], false), Return(0, 2, [2], true)] + more)
  }

  function OneBack(): Return {
    Return(1, 1, [0, 1], true)
  }

  function NoneBack(inForce: bool): Return {
    Return(1, 1, [0, 0], inForce)
  }

  /** What the returns after the doubled state put back for the second sale. */
  lemma ForSaleTwo(more: seq<Return>, j: nat)
    ensures
      var returned := [Return(0, 1, [1], false), Return(0, 2, [2], true)] + more;
      Already(returned, 1, j) == Already(more, 1, j) && ReturnedQty(returned, 1) == ReturnedQty(more, 1)
    decreases |more|
  {
    var head := [Return(0, 1, [1], false), Return(0, 2, [2], true)];
    if more == [] {
      assert head + more == head;
      NoReturns(head, 1, j);
    } else {
      var n := |more| - 1;
      assert (head + more)[..|head + more| - 1] == head + more[..n];
      ForSaleTwo(more[..n], j);
    }
  }

  lemma OneBackCounts(j: nat)
    ensures Already([OneBack()], 1, j) == (if j == 1 then 1 else 0) && ReturnedQty([OneBack()], 1) == 1
    ensures Already([OneBack(), NoneBack(false)], 1, j) == Already([OneBack()], 1, j)
    ensures ReturnedQty([OneBack(), NoneBack(false)], 1) == 1
  {
    assert [OneBack()][..0] == [] && [OneBack(), NoneBack(false)][..1] == [OneBack()];
    assert Already([], 1, j) == 0 && ReturnedQty([], 1) == 0;
  }

  /** One unit of the second sale still finds its place, on the second layer. */
  lemma LastPlace()
    ensures Step(Doubled(2, 1, []), TakeBack(1, 1)) == Doubled(3, 2, [OneBack()])
  {
    var s := Doubled(2, 1, []);
    ForSaleTwo([], 0);
    ForSaleTwo([], 1);
    assert Already([], 1, 0) == 0 == Already([], 1, 1) && ReturnedQty([], 1) == 0;
    hide Already, ReturnedQty;
    assert Owed(s, 1) == [1, 1] && MayPutAll(s, 1) == [0, 1];
    TwoTakes(0, 1, 1);
    hide Takes, Left, MayPutAll, Owed;
    assert s.returned + [OneBack()] == Doubled(3, 2, [OneBack()]).returned;
  }

  /** The other unit finds none: the first layer is whole already. */
  lemma NoPlace(onHand: int, second: nat, more: seq<Return>)
    requires Already(more, 1, 0) == 0 && Already(more, 1, 1) == 1 == ReturnedQty(more, 1)
    ensures
      var s := Doubled(onHand, second, more);
      && Returned(s, 1, 1) == Success(Doubled(onHand + 1, second, more + [NoneBack(true)]))
      && Puts(s, 1, 1) == 0
  {
    var s := Doubled(onHand, second, more);
    ForSaleTwo(more, 0);
    ForSaleTwo(more, 1);
    hide Already, ReturnedQty;
    assert Owed(s, 1) == [1, 0] && MayPutAll(s, 1) == [0, 0];
    TwoTakes(0, 0, 1);
    assert NoDetail([0, 0]);
    ZeroSum([0, 0]);
    hide Takes, Left, MayPutAll, Owed, Sum;
    assert s.returned + [NoneBack(true)] == Doubled(onHand + 1, second, more + [NoneBack(true)]).returned;
    assert With(s.layers, [0, 0]) == s.layers;
  }

  /** Its cancel falls back on the estimate, which takes a unit from the second layer. */
  lemma EstimateTakes()
    ensures
      Cancelled(Doubled(4, 2, [OneBack(), NoneBack(true)]), 3)
      == Success(Doubled(3, 1, [OneBack(), NoneBack(false)]))
  {
    var s := Doubled(4, 2, [OneBack(), NoneBack(true)]);
    EstimateIs(s.layers);
    hide Undone, NoDetail;
    assert NoDetail([0, 0]) by { ZerosAreNoDetail(); }
    assert s.returned[3] == NoneBack(true);
    assert Unput(s, 3) == [0, 1];
    hide Unput;
    assert Without(s.layers, [0, 1]) == [Pair(2), Pair(1)];
    assert s.returned[3 := NoneBack(false)] == Doubled(3, 1, [OneBack(), NoneBack(false)]).returned;
  }

  lemma EstimateIs(layers: seq<Layer>)
    requires layers == [Pair(2), Pair(2)]
    ensures Undone(layers, [1, 1], 1) == [0, 1]
  {
    assert Held(layers, [1, 1]) == [1, 1] && Backwards([1, 1]) == [1, 1];
    TwoTakes(1, 1, 1);
    assert Backwards([1, 0]) == [0, 1];
    hide Takes, Held, Backwards;
  }

  lemma ZerosAreNoDetail()
    ensures NoDetail([0, 0])
  {
  }

  function Resale(): seq<Movement> {
    [Receive(2, 1.0), Sell(2, 0.0), TakeBack(0, 1), Receive(2, 1.0), Sell(2, 0.0), CancelReturn(0), TakeBack(0, 2),
     TakeBack(1, 1)]
  }

  lemma RunNext(block: bool, moves: seq<Movement>, k: nat)
    requires k < |moves|
    ensures Run(block, moves[..k + 1]) == Step(Run(block, moves[..k]), moves[k])
  {
    hide Step;
    assert moves[..k + 1][..k] == moves[..k];
  }

  /** Two units are received and sold, one comes back, and with two more received two are sold again; the return is
      cancelled, the first sale returned as a whole, and then one unit of the second. */
  lemma ResaleState()
    ensures Run(true, Resale()) == Doubled(3, 2, [OneBack()])
  {
    var m := Resale();
    hide Step;
    assert Run(true, m[..0]) == Stock(true, 0, [], [], []);
    assert m[..8] == m;
    assert m[0] == Receive(2, 1.0) && m[1] == Sell(2, 0.0) && m[2] == TakeBack(0, 1) && m[3] == Receive(2, 1.0);
    assert m[4] == Sell(2, 0.0) && m[5] == CancelReturn(0) && m[6] == TakeBack(0, 2) && m[7] == TakeBack(1, 1);
    hide Resale, Run, Pair, SaleOne, SaleTwo;
    RunNext(true, m, 0);
    RunNext(true, m, 1);
    RunNext(true, m, 2);
    RunNext(true, m, 3);
    RunNext(true, m, 4);
    RunNext(true, m, 5);
    RunNext(true, m, 6);
    RunNext(true, m, 7);
    FirstReceipt();
    FirstSale();
    FirstReturn();
    SecondReceipt();
    SecondSale();
    CancelFindsNothing();
    WholeReturn();
    assert Doubled(2, 1, []).returned == [Return(0, 1, [1], false), Return(0, 2, [2], true)];
    LastPlace();
  }

  lemma FirstReceipt()
    ensures Step(Stock(true, 0, [], [], []), Receive(2, 1.0)) == Stock(true, 2, [Pair(2)], [], [])
  {
    assert [] + [Pair(2)] == [Pair(2)];
  }

  lemma SecondReceipt()
    ensures
      var sales, returned := [SaleOne()], [Return(0, 1, [1], true)];
      Step(Stock(true, 1, [Pair(1)], sales, returned), Receive(2, 1.0))
      == Stock(true, 3, [Pair(1), Pair(2)], sales, returned)
  {
  }

  /** From there every promise about single movements fails: the second unit of the second sale is taken back
      without a place on any layer; cancelling that return at once takes a unit from a layer; and once it is
      returned again, four units are on hand of which the layers have three, and four cannot be sold. */
  lemma ResaleFails()
    ensures
      var s := Run(true, Resale());
      var back := Returned(s, 1, 1);
      && back.Success? && Puts(s, 1, 1) == 0 && back.value.layers == s.layers && back.value.onHand == s.onHand + 1
      && var cancelled := Cancelled(back.value, |s.returned|);
      && cancelled.Success? && cancelled.value.layers != s.layers && cancelled.value.onHand == s.onHand
      && var again := Returned(cancelled.value, 1, 1);
      && again.Success? && again.value.onHand == 4 && Total(again.value.layers) == 3
      && Issued(again.value, 4, 0.0) == Failure(InsufficientLayers)
  {
    ResaleState();
    OneBackCounts(0);
    OneBackCounts(1);
    hide Resale, Run, Returned, Cancelled, Issued, Puts, Already, ReturnedQty, Total;
    NoPlace(3, 2, [OneBack()]);
    assert [OneBack()] + [NoneBack(true)] == [OneBack(), NoneBack(true)];
    EstimateTakes();
    assert Pair(2) != Pair(1);
    assert Doubled(3, 2, [OneBack()]).layers[1] != Doubled(3, 1, [OneBack(), NoneBack(false)]).layers[1];
    NoPlace(3, 1, [OneBack(), NoneBack(false)]);
    var end := Doubled(4, 1, [OneBack(), NoneBack(false)] + [NoneBack(true)]);
    ThreeInLayers(end.layers);
    SaleExactly(end, 4, 0.0);
  }

  lemma ThreeInLayers(layers: seq<Layer>)
    requires layers == [Pair(2), Pair(1)]
    ensures Total(layers) == 3
  {
    RemainingAppend([Pair(2)], Pair(1));
    RemainingAppend([], Pair(2));
    assert [Pair(2)] + [Pair(1)] == layers && [] + [Pair(2)] == [Pair(2)];
    SumNone();
    assert Remaining([]) == [];
  }
}

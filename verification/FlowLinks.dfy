/** Chaining the numbered steps of a flow, in place: each depends on the step before it. */
module FlowLinks {
  import opened Decimals
  import opened RegisterRows
  import opened Sorting

  predicate Numbered(row: ReviewedRow) {
    row.step != "" && AllDigits(row.step)
  }

  function StepOf(row: ReviewedRow): nat
    requires Numbered(row)
  {
    DecimalValue(row.step)
  }

  /** Row j comes before row i in their flow: a lower step, or the same step listed earlier. */
  predicate Earlier(rows: seq<ReviewedRow>, j: nat, i: nat) {
    j < |rows| && i < |rows| && Numbered(rows[j]) && Numbered(rows[i]) && rows[j].flowId == rows[i].flowId
    && (StepOf(rows[j]) < StepOf(rows[i]) || (StepOf(rows[j]) == StepOf(rows[i]) && j < i))
  }

  /** Row j is the last one before row i. */
  ghost predicate Previous(rows: seq<ReviewedRow>, j: nat, i: nat) {
    Earlier(rows, j, i) && forall k :: Earlier(rows, k, i) ==> k == j || Earlier(rows, k, j)
  }

  /** Row i once linked: a dependency that is already set stays. */
  ghost function LinkedRow(rows: seq<ReviewedRow>, i: nat): (row: ReviewedRow)
    requires i < |rows|
    ensures row == rows[i].(dependsOn := row.dependsOn)
  {
    if rows[i].dependsOn == "" && exists j: nat :: Previous(rows, j, i) then
      var j: nat :| Previous(rows, j, i);
      rows[i].(dependsOn := rows[j].task.id)
    else rows[i]
  }

  ghost function Linked(rows: seq<ReviewedRow>): (linked: seq<ReviewedRow>)
    ensures |linked| == |rows| && forall i :: 0 <= i < |rows| ==> linked[i] == LinkedRow(rows, i)
  {
    seq(|rows|, i requires 0 <= i < |rows| => LinkedRow(rows, i))
  }

  lemma LinkedToPrevious(rows: seq<ReviewedRow>, j: nat, i: nat)
    requires Previous(rows, j, i)
    ensures rows[i].dependsOn == "" ==> LinkedRow(rows, i) == rows[i].(dependsOn := rows[j].task.id)
  {
  }

  // --- The in-place pass ---

  /** These are, in listed order, the first n rows' indices that are numbered steps of this flow. */
  ghost predicate StepsOf(rows: seq<ReviewedRow>, flow: string, n: nat, items: seq<nat>)
    requires n <= |rows|
  {
    && (forall i: nat :: i in items <==> i < n && Numbered(rows[i]) && rows[i].flowId == flow)
    && (forall p, q :: 0 <= p < q < |items| ==> items[p] < items[q])
  }

  lemma OneMoreStep(rows: seq<ReviewedRow>, flow: string, n: nat, items: seq<nat>)
    requires n < |rows| && StepsOf(rows, flow, n, items)
    ensures
      StepsOf(rows, flow, n + 1, if Numbered(rows[n]) && rows[n].flowId == flow then items + [n] else items)
  {
    assert forall p :: 0 <= p < |items| ==> items[p] in items;
  }

  predicate AllNumbered(rows: seq<ReviewedRow>, items: seq<nat>) {
    forall k :: k in items ==> k < |rows| && Numbered(rows[k])
  }

  ghost predicate InOrder(rows: seq<ReviewedRow>, items: seq<nat>) {
    forall p, q :: 0 <= p < q < |items| ==> Earlier(rows, items[p], items[q])
  }

  lemma Members(items: seq<nat>)
    requires items != []
    ensures var n := |items| - 1; items[n] in items && forall k :: k in items <==> k in items[..n] || k == items[n]
  {
    var n := |items| - 1;
    assert items == items[..n] + [items[n]];
  }

  /** Row i has a lower step than row j. */
  predicate LowerStepAt(rows: seq<ReviewedRow>, i: nat, j: nat) {
    i < |rows| && j < |rows| && Numbered(rows[i]) && Numbered(rows[j]) && StepOf(rows[i]) < StepOf(rows[j])
  }

  function ByStep(rows: seq<ReviewedRow>): (nat, nat) -> bool {
    (i: nat, j: nat) => LowerStepAt(rows, i, j)
  }

  /** items.sort by step, which keeps equal steps in listed order. */
  function SortedSteps(rows: seq<ReviewedRow>, items: seq<nat>): (r: seq<nat>)
    ensures forall k :: k in r <==> k in items
  {
    SortMembers(items, ByStep(rows));
    Sort(items, ByStep(rows))
  }

  lemma InOrderAppend(rows: seq<ReviewedRow>, items: seq<nat>, i: nat)
    requires InOrder(rows, items) && forall k :: k in items ==> Earlier(rows, k, i)
    ensures InOrder(rows, items + [i])
  {
    hide Earlier;
  }

  lemma OneInOrder(rows: seq<ReviewedRow>, i: nat)
    ensures InOrder(rows, [i])
  {
  }

  lemma InOrderInit(rows: seq<ReviewedRow>, items: seq<nat>)
    requires items != [] && InOrder(rows, items)
    ensures
      var n := |items| - 1;
      InOrder(rows, items[..n]) && forall k :: k in items[..n] ==> Earlier(rows, k, items[n])
  {
    hide Earlier;
  }

  lemma {:induction false} PlaceInOrder(rows: seq<ReviewedRow>, items: seq<nat>, i: nat)
    requires i < |rows| && Numbered(rows[i]) && AllNumbered(rows, items) && InOrder(rows, items)
    requires forall k :: k in items ==> k < i && rows[k].flowId == rows[i].flowId
    ensures InOrder(rows, Place(items, i, ByStep(rows)))
  {
    hide InOrder;
    if items != [] {
      Members(items);
      InOrderInit(rows, items);
      var last, before := items[|items| - 1], items[..|items| - 1];
      if LowerStepAt(rows, i, last) {
        PlaceInOrder(rows, before, i);
        PlaceMembers(before, i, ByStep(rows));
        InOrderAppend(rows, Place(before, i, ByStep(rows)), last);
      } else {
        InOrderAppend(rows, items, i);
      }
    } else {
      OneInOrder(rows, i);
    }
  }

  lemma {:induction false} SortedStepsInOrder(rows: seq<ReviewedRow>, flow: string, items: seq<nat>)
    requires AllNumbered(rows, items)
    requires forall k :: k in items ==> rows[k].flowId == flow
    requires forall p, q :: 0 <= p < q < |items| ==> items[p] < items[q]
    ensures InOrder(rows, SortedSteps(rows, items))
  {
    if items != [] {
      Members(items);
      var n := |items| - 1;
      SortedStepsInOrder(rows, flow, items[..n]);
      forall k | k in items[..n]
        ensures k < items[n]
      {
        var p :| 0 <= p < n && items[p] == k;
      }
      var sorted := SortedSteps(rows, items[..n]);
      assert forall k :: k in sorted ==> k < items[n] && rows[k].flowId == flow;
      hide Numbered, StepOf, InOrder, Earlier, SortedSteps, Place;
      PlaceInOrder(rows, sorted, items[n]);
    }
  }

  /** In the sorted steps of a whole flow, the neighbour is the previous step. */
  lemma NeighbourIsPrevious(rows: seq<ReviewedRow>, flow: string, items: seq<nat>, p: nat)
    requires p < |items| && InOrder(rows, items)
    requires forall k: nat :: k in items <==> k < |rows| && Numbered(rows[k]) && rows[k].flowId == flow
    ensures p > 0 ==> Previous(rows, items[p - 1], items[p])
    ensures p == 0 ==> forall j: nat :: !Earlier(rows, j, items[p])
  {
    assert items[p] in items;
    forall k: nat | Earlier(rows, k, items[p])
      ensures p > 0 && (k == items[p - 1] || Earlier(rows, k, items[p - 1]))
    {
      assert k in items;
      var q: nat :| q < |items| && items[q] == k;
    }
  }

  /** The steps of one whole flow, in order. */
  ghost predicate FlowInOrder(rows: seq<ReviewedRow>, flow: string, items: seq<nat>) {
    InOrder(rows, items) && forall k: nat :: k in items <==> k < |rows| && Numbered(rows[k]) && rows[k].flowId == flow
  }

  lemma AtIndex(rows: seq<ReviewedRow>, flow: string, items: seq<nat>, p: nat)
    requires p < |items| && FlowInOrder(rows, flow, items)
    ensures items[p] < |rows| && items[p] in items && items[p] !in items[..p]
    ensures p > 0 ==> items[p - 1] < |rows|
    ensures LinkedRow(rows, items[p])
      == if p > 0 && rows[items[p]].dependsOn == "" then rows[items[p]].(dependsOn := rows[items[p - 1]].task.id)
         else rows[items[p]]
    ensures items[..p + 1] == items[..p] + [items[p]]
  {
    NeighbourIsPrevious(rows, flow, items, p);
    assert items[p] in items;
    assert forall q :: 0 <= q < p ==> Earlier(rows, items[q], items[p]);
    if p > 0 {
      assert items[p - 1] in items;
      LinkedToPrevious(rows, items[p - 1], items[p]);
    }
  }

  /** One flow's inner loop. */
  method LinkFlow(rows: array<ReviewedRow>, ghost was: seq<ReviewedRow>, ghost flow: string, items: seq<nat>)
    requires rows.Length == |was| && FlowInOrder(was, flow, items)
    requires forall i :: 0 <= i < |was| ==> rows[i].task == was[i].task
    requires forall i :: 0 <= i < |was| && i in items ==> rows[i] == was[i]
    modifies rows
    ensures forall i :: 0 <= i < |was| ==> rows[i] == if i in items then LinkedRow(was, i) else old(rows[i])
  {
    hide *;
    for index := 0 to |items|
      invariant forall i :: 0 <= i < |was| ==>
        rows[i] == if i in items[..index] then LinkedRow(was, i) else old(rows[i])
    {
      AtIndex(was, flow, items, index);
      if index > 0 {
        AtIndex(was, flow, items, index - 1);
      }
      var row := rows[items[index]];
      if index > 0 && row.dependsOn == "" {
        rows[items[index]] := row.(dependsOn := rows[items[index - 1]].task.id);
      }
    }
    assert items[..|items|] == items;
  }

  /** The rows once the flows listed are linked. */
  ghost predicate LinkedSoFar(was: seq<ReviewedRow>, now: seq<ReviewedRow>, flows: seq<string>) {
    |now| == |was| && forall i :: 0 <= i < |was| ==>
      now[i] == if Numbered(was[i]) && was[i].flowId in flows then LinkedRow(was, i) else was[i]
  }

  /** After the first n rows: the flows in the order met, and for each its numbered rows. */
  ghost predicate Grouped(rows: seq<ReviewedRow>, n: nat, order: seq<string>, groups: map<string, seq<nat>>)
    requires n <= |rows|
  {
    && (forall flow :: flow in groups <==> flow in order)
    && (forall a, b :: 0 <= a < b < |order| ==> order[a] != order[b])
    && (forall flow :: flow in groups ==> StepsOf(rows, flow, n, groups[flow]))
    && (forall i :: 0 <= i < n && Numbered(rows[i]) ==> rows[i].flowId in groups)
  }

  lemma NoStepsYet(rows: seq<ReviewedRow>, n: nat, order: seq<string>, groups: map<string, seq<nat>>, flow: string)
    requires n <= |rows| && Grouped(rows, n, order, groups) && flow !in groups
    ensures Grouped(rows, n, order + [flow], groups[flow := []])
  {
    assert StepsOf(rows, flow, n, []);
    hide StepsOf, Numbered;
  }

  lemma AddStep(rows: seq<ReviewedRow>, n: nat, order: seq<string>, groups: map<string, seq<nat>>)
    requires n < |rows| && Grouped(rows, n, order, groups)
    requires Numbered(rows[n]) ==> rows[n].flowId in groups
    ensures
      var flow := rows[n].flowId;
      Grouped(rows, n + 1, order, if Numbered(rows[n]) then groups[flow := groups[flow] + [n]] else groups)
  {
    hide StepsOf, Numbered;
    forall f | f in groups
      ensures StepsOf(rows, f, n + 1, if Numbered(rows[n]) && rows[n].flowId == f then groups[f] + [n] else groups[f])
    {
      OneMoreStep(rows, f, n, groups[f]);
    }
  }

  lemma SortedFlow(rows: seq<ReviewedRow>, flow: string, items: seq<nat>)
    requires StepsOf(rows, flow, |rows|, items)
    ensures AllNumbered(rows, items) && FlowInOrder(rows, flow, SortedSteps(rows, items))
  {
    hide InOrder, SortedSteps, StepOf;
    SortedStepsInOrder(rows, flow, items);
  }

  lemma WholeFlow(rows: seq<ReviewedRow>, order: seq<string>, groups: map<string, seq<nat>>, g: nat)
    requires Grouped(rows, |rows|, order, groups) && g < |order|
    ensures order[g] in groups && order[g] !in order[..g] && order[..g + 1] == order[..g] + [order[g]]
    ensures AllNumbered(rows, groups[order[g]])
    ensures FlowInOrder(rows, order[g], SortedSteps(rows, groups[order[g]]))
  {
    hide StepsOf, FlowInOrder, AllNumbered, SortedSteps;
    var flow := order[g];
    assert flow in order;
    SortedFlow(rows, flow, groups[flow]);
  }

  lemma OneFlowLinked(was: seq<ReviewedRow>, now: seq<ReviewedRow>, later: seq<ReviewedRow>, flows: seq<string>,
                      flow: string, items: seq<nat>)
    requires LinkedSoFar(was, now, flows) && |later| == |was| && FlowInOrder(was, flow, items)
    requires forall i :: 0 <= i < |was| ==> later[i] == if i in items then LinkedRow(was, i) else now[i]
    ensures LinkedSoFar(was, later, flows + [flow])
  {
    hide Numbered, InOrder, LinkedRow;
  }

  lemma AllLinked(was: seq<ReviewedRow>, now: seq<ReviewedRow>, order: seq<string>, groups: map<string, seq<nat>>)
    requires LinkedSoFar(was, now, order) && Grouped(was, |was|, order, groups)
    ensures now == Linked(was)
  {
    forall i | 0 <= i < |was| && !Numbered(was[i])
      ensures LinkedRow(was, i) == was[i]
    {
      assert forall j: nat :: !Previous(was, j, i);
    }
    hide StepsOf, Numbered, LinkedRow;
  }

  /** Link every flow in place; the steps are those read while grouping. */
  method LinkFlowDependencies(rows: array<ReviewedRow>)
    modifies rows
    ensures rows[..] == Linked(old(rows[..]))
  {
    hide InOrder, LinkedRow, StepsOf, SortedSteps, Linked, Numbered;
    var was := rows[..];
    var groups: map<string, seq<nat>> := map[];
    var order: seq<string> := [];
    for n := 0 to rows.Length
      invariant rows[..] == was
      invariant Grouped(was, n, order, groups)
    {
      if Numbered(rows[n]) {
        var flow := rows[n].flowId;
        if flow !in groups {
          NoStepsYet(was, n, order, groups, flow);
          order := order + [flow];
          groups := groups[flow := []];
        }
        AddStep(was, n, order, groups);
        groups := groups[flow := groups[flow] + [n]];
      } else {
        AddStep(was, n, order, groups);
      }
    }
    hide Grouped;
    for g := 0 to |order|
      invariant LinkedSoFar(was, rows[..], order[..g])
    {
      WholeFlow(was, order, groups, g);
      var items := SortedSteps(was, groups[order[g]]);
      ghost var now := rows[..];
      LinkFlow(rows, was, order[g], items);
      OneFlowLinked(was, now, rows[..], order[..g], order[g], items);
    }
    assert order[..|order|] == order;
    AllLinked(was, rows[..], order, groups);
  }

  // --- What the links mean ---

  /** No two numbered rows of a flow share a step. */
  ghost predicate DistinctSteps(rows: seq<ReviewedRow>) {
    forall i: nat, j: nat :: Earlier(rows, j, i) ==> StepOf(rows[j]) < StepOf(rows[i])
  }

  ghost predicate DistinctIds(rows: seq<ReviewedRow>) {
    forall i, j :: 0 <= i < j < |rows| ==> rows[i].task.id != rows[j].task.id
  }

  /** Row j holds a lower step of row i's flow. */
  predicate LowerStep(rows: seq<ReviewedRow>, j: nat, i: nat) {
    j < |rows| && i < |rows| && Numbered(rows[j]) && Numbered(rows[i]) && rows[j].flowId == rows[i].flowId
    && StepOf(rows[j]) < StepOf(rows[i])
  }

  /** Row j holds the next lower step. */
  ghost predicate NextLower(rows: seq<ReviewedRow>, j: nat, i: nat) {
    LowerStep(rows, j, i) && forall k: nat :: LowerStep(rows, k, i) ==> StepOf(rows[k]) <= StepOf(rows[j])
  }

  /** Among the first n rows, the last one before row i, if there is one. */
  lemma {:induction false} LastEarlier(rows: seq<ReviewedRow>, i: nat, n: nat) returns (found: bool, j: nat)
    requires i < |rows| && n <= |rows|
    ensures found ==>
      Earlier(rows, j, i) && forall k: nat :: k < n && Earlier(rows, k, i) ==> k == j || Earlier(rows, k, j)
    ensures !found ==> forall k: nat :: k < n ==> !Earlier(rows, k, i)
  {
    if n == 0 {
      found, j := false, 0;
    } else {
      found, j := LastEarlier(rows, i, n - 1);
      if Earlier(rows, n - 1, i) && (!found || Earlier(rows, j, n - 1)) {
        found, j := true, n - 1;
      }
    }
  }

  /** A numbered row with an earlier one has a previous one. */
  lemma PreviousExists(rows: seq<ReviewedRow>, j: nat, i: nat) returns (previous: nat)
    requires Earlier(rows, j, i)
    ensures Previous(rows, previous, i)
  {
    var found: bool;
    found, previous := LastEarlier(rows, i, |rows|);
  }

  lemma NextLowerUnique(rows: seq<ReviewedRow>, j: nat, k: nat, i: nat)
    requires DistinctSteps(rows) && NextLower(rows, j, i) && NextLower(rows, k, i)
    ensures j == k
  {
    assert StepOf(rows[j]) == StepOf(rows[k]);
    assert !Earlier(rows, j, k) && !Earlier(rows, k, j);
  }

  /** With distinct steps, the dependency of a row without a preset is the id of exactly the next lower
      step of its flow; a first step and a row without a number are unchanged. */
  lemma DependsOnNextLower(rows: seq<ReviewedRow>, i: nat)
    requires DistinctSteps(rows) && i < |rows| && rows[i].dependsOn == ""
    ensures (exists j: nat :: LowerStep(rows, j, i)) ==> exists j: nat :: NextLower(rows, j, i)
    ensures forall j: nat :: NextLower(rows, j, i) ==> Linked(rows)[i] == rows[i].(dependsOn := rows[j].task.id)
    ensures (forall j: nat :: !LowerStep(rows, j, i)) ==> Linked(rows)[i] == rows[i]
  {
    forall j: nat | LowerStep(rows, j, i)
      ensures exists k: nat :: NextLower(rows, k, i)
      ensures NextLower(rows, j, i) ==> Linked(rows)[i] == rows[i].(dependsOn := rows[j].task.id)
    {
      assert Earlier(rows, j, i);
      var k := PreviousExists(rows, j, i);
      assert LowerStep(rows, k, i);
      forall m: nat | LowerStep(rows, m, i)
        ensures StepOf(rows[m]) <= StepOf(rows[k])
      {
        assert Earlier(rows, m, i);
      }
      assert NextLower(rows, k, i);
      LinkedToPrevious(rows, k, i);
      if NextLower(rows, j, i) {
        NextLowerUnique(rows, j, k, i);
      }
    }
    if forall j: nat :: !LowerStep(rows, j, i) {
      forall j: nat
        ensures !Previous(rows, j, i)
      {
        assert Earlier(rows, j, i) ==> LowerStep(rows, j, i);
      }
    }
  }

  /** A dependency set beforehand is never overwritten, and no other cell changes. */
  lemma PresetsStay(rows: seq<ReviewedRow>, i: nat)
    requires i < |rows|
    ensures rows[i].dependsOn != "" ==> Linked(rows)[i] == rows[i]
    ensures Linked(rows)[i] == rows[i].(dependsOn := Linked(rows)[i].dependsOn)
  {
    assert Linked(rows)[i] == LinkedRow(rows, i);
  }

  lemma SameSteps(rows: seq<ReviewedRow>, other: seq<ReviewedRow>, j: nat, i: nat)
    requires |rows| == |other|
    requires forall k :: 0 <= k < |rows| ==> other[k] == rows[k].(dependsOn := other[k].dependsOn)
    ensures Previous(rows, j, i) <==> Previous(other, j, i)
  {
    assert forall a: nat, b: nat :: Earlier(rows, a, b) <==> Earlier(other, a, b);
  }

  /** Linking again changes nothing. */
  lemma LinkingAgain(rows: seq<ReviewedRow>)
    ensures Linked(Linked(rows)) == Linked(rows)
  {
    var once := Linked(rows);
    forall i | 0 <= i < |rows|
      ensures LinkedRow(once, i) == once[i]
    {
      if once[i].dependsOn == "" && exists j: nat :: Previous(once, j, i) {
        var j: nat :| Previous(once, j, i);
        SameSteps(rows, once, j, i);
        LinkedToPrevious(rows, j, i);
        LinkedToPrevious(once, j, i);
      }
    }
  }

  /** The dependency a row gets does not depend on the order of the rows. */
  lemma OrderDoesNotMatter(rows: seq<ReviewedRow>, other: seq<ReviewedRow>, i: nat, j: nat)
    requires DistinctSteps(rows) && DistinctSteps(other)
    requires forall row :: row in rows <==> row in other
    requires i < |rows| && j < |other| && rows[i] == other[j]
    ensures Linked(rows)[i] == Linked(other)[j]
  {
    if rows[i].dependsOn == "" {
      DependsOnNextLower(rows, i);
      DependsOnNextLower(other, j);
      if exists k: nat :: NextLower(rows, k, i) {
        var k: nat :| NextLower(rows, k, i);
        var m := SameNextLower(rows, other, i, j, k);
      } else if exists m: nat :: LowerStep(other, m, j) {
        var m: nat :| LowerStep(other, m, j);
        var k: nat := Occurrence(rows, other[m]);
        assert LowerStep(rows, k, i);
      }
    }
  }

  lemma Occurrence(rows: seq<ReviewedRow>, row: ReviewedRow) returns (k: nat)
    requires row in rows
    ensures k < |rows| && rows[k] == row
  {
    k :| 0 <= k < |rows| && rows[k] == row;
  }

  lemma SameNextLower(rows: seq<ReviewedRow>, other: seq<ReviewedRow>, i: nat, j: nat, k: nat) returns (m: nat)
    requires forall row :: row in rows <==> row in other
    requires i < |rows| && j < |other| && rows[i] == other[j] && NextLower(rows, k, i)
    ensures NextLower(other, m, j) && other[m] == rows[k]
  {
    m := Occurrence(other, rows[k]);
    forall n: nat | LowerStep(other, n, j)
      ensures StepOf(other[n]) <= StepOf(other[m])
    {
      var p := Occurrence(rows, other[n]);
      assert LowerStep(rows, p, i);
    }
  }

  // --- The links, from the step cells alone ---

  /** The step cell holds one or more of the digits 0 to 9, and nothing else. */
  predicate IsNumber(step: string) {
    step != "" && forall k :: 0 <= k < |step| ==> '0' <= step[k] <= '9'
  }

  /** Both rows are numbered steps of one flow, and row j has the lower number, or the same one and stands above. */
  predicate ComesBefore(rows: seq<ReviewedRow>, j: nat, i: nat) {
    && j < |rows| && i < |rows| && rows[j].flowId == rows[i].flowId
    && IsNumber(rows[j].step) && IsNumber(rows[i].step)
    && var a, b := DecimalValue(rows[j].step), DecimalValue(rows[i].step); a < b || (a == b && j < i)
  }

  /** Row j is before row i, and every other row before row i is before row j. */
  ghost predicate JustBefore(rows: seq<ReviewedRow>, j: nat, i: nat) {
    ComesBefore(rows, j, i) && forall k: nat :: ComesBefore(rows, k, i) && k != j ==> ComesBefore(rows, k, j)
  }

  lemma BeforeIsEarlier(rows: seq<ReviewedRow>, j: nat, i: nat)
    ensures ComesBefore(rows, j, i) <==> Earlier(rows, j, i)
  {
  }

  /** A row whose dependency is set keeps it. Any other row with a row before it gets the id of the one just before it,
      and a row with none before it stays as it is. */
  lemma LinkExactly(rows: seq<ReviewedRow>, i: nat)
    requires i < |rows|
    ensures
      var linked := Linked(rows)[i];
      && (rows[i].dependsOn != "" ==> linked == rows[i])
      && (forall j: nat :: JustBefore(rows, j, i) && rows[i].dependsOn == "" ==>
            linked == rows[i].(dependsOn := rows[j].task.id))
      && ((forall j: nat :: !ComesBefore(rows, j, i)) ==> linked == rows[i])
      && ((exists j: nat :: ComesBefore(rows, j, i)) ==> exists j: nat :: JustBefore(rows, j, i))
  {
    assert Linked(rows)[i] == LinkedRow(rows, i);
    forall a: nat, b: nat
      ensures ComesBefore(rows, a, b) <==> Earlier(rows, a, b)
    {
      BeforeIsEarlier(rows, a, b);
    }
    hide ComesBefore, Earlier;
    forall j: nat
      ensures JustBefore(rows, j, i) <==> Previous(rows, j, i)
    {
    }
    if j: nat :| ComesBefore(rows, j, i) {
      var k := PreviousExists(rows, j, i);
      LinkedToPrevious(rows, k, i);
      assert JustBefore(rows, k, i);
    }
    hide LinkedRow;
    forall j: nat | JustBefore(rows, j, i)
      ensures rows[i].dependsOn == "" ==> LinkedRow(rows, i) == rows[i].(dependsOn := rows[j].task.id)
    {
      LinkedToPrevious(rows, j, i);
    }
  }

  // --- Following dependencies ---

  /** Each row of the path depends on the next. */
  ghost predicate Walk(linked: seq<ReviewedRow>, path: seq<nat>) {
    && (forall p :: 0 <= p < |path| ==> path[p] < |linked|)
    && (forall p :: 0 <= p < |path| - 1 ==>
          linked[path[p]].dependsOn != "" && linked[path[p]].dependsOn == linked[path[p + 1]].task.id)
  }

  ghost predicate NoPresets(rows: seq<ReviewedRow>) {
    forall i :: 0 <= i < |rows| ==> rows[i].dependsOn == ""
  }

  /** A dependency of a linked register leads to the previous step. */
  lemma DependencyIsPrevious(rows: seq<ReviewedRow>, j: nat, i: nat)
    requires DistinctIds(rows) && NoPresets(rows) && i < |rows| && j < |rows|
    requires Linked(rows)[i].dependsOn != "" && Linked(rows)[i].dependsOn == Linked(rows)[j].task.id
    ensures Previous(rows, j, i)
  {
    assert Linked(rows)[i] == LinkedRow(rows, i) && Linked(rows)[j] == LinkedRow(rows, j);
    var k: nat :| Previous(rows, k, i) && LinkedRow(rows, i) == rows[i].(dependsOn := rows[k].task.id);
    assert rows[k].task.id == rows[j].task.id;
  }

  lemma WalkStep(rows: seq<ReviewedRow>, path: seq<nat>, q: nat)
    requires DistinctIds(rows) && NoPresets(rows) && Walk(Linked(rows), path) && 0 < q < |path|
    ensures Earlier(rows, path[q], path[q - 1])
  {
    assert Linked(rows)[path[q - 1]].dependsOn == Linked(rows)[path[q - 1 + 1]].task.id;
    hide DistinctIds, NoPresets, Linked, Earlier;
    DependencyIsPrevious(rows, path[q], path[q - 1]);
  }

  /** Whatever path of dependencies is followed, it goes strictly back in the flow: no row is met twice, so
      there is no cycle, and with distinct steps the step falls each time. */
  lemma {:induction false} WalksGoBack(rows: seq<ReviewedRow>, path: seq<nat>, p: nat, q: nat)
    requires DistinctIds(rows) && NoPresets(rows) && Walk(Linked(rows), path) && p < q < |path|
    ensures Earlier(rows, path[q], path[p])
    ensures DistinctSteps(rows) ==> StepOf(rows[path[q]]) < StepOf(rows[path[p]])
    decreases q
  {
    hide *;
    WalkStep(rows, path, q);
    if p < q - 1 {
      WalksGoBack(rows, path, p, q - 1);
      EarlierStill(rows, path[q], path[q - 1], path[p]);
    }
    LowerWhereDistinct(rows, path[q], path[p]);
  }

  lemma EarlierStill(rows: seq<ReviewedRow>, i: nat, j: nat, k: nat)
    requires Earlier(rows, i, j) && Earlier(rows, j, k)
    ensures Earlier(rows, i, k)
  {
    hide Numbered;
  }

  lemma LowerWhereDistinct(rows: seq<ReviewedRow>, j: nat, i: nat)
    requires Earlier(rows, j, i)
    ensures DistinctSteps(rows) ==> StepOf(rows[j]) < StepOf(rows[i])
  {
  }

  ghost predicate First(rows: seq<ReviewedRow>, i: nat) {
    forall k: nat :: !Earlier(rows, k, i)
  }

  /** The path visits exactly row i and the rows before it in its flow, from row i to the flow's first. */
  ghost predicate BackToFirst(rows: seq<ReviewedRow>, i: nat, path: seq<nat>) {
    && path != [] && path[0] == i && First(rows, path[|path| - 1])
    && forall k: nat :: k in path <==> k == i || Earlier(rows, k, i)
  }

  lemma LongerWalk(rows: seq<ReviewedRow>, i: nat, j: nat, rest: seq<nat>)
    requires NoPresets(rows) && Previous(rows, j, i) && rows[j].task.id != ""
    requires Walk(Linked(rows), rest) && BackToFirst(rows, j, rest)
    ensures Walk(Linked(rows), [i] + rest) && BackToFirst(rows, i, [i] + rest)
  {
    LinkLeads(rows, i, j);
    hide LinkedRow, Linked, Earlier, First, Previous, NoPresets;
    WalkFrom(Linked(rows), i, rest);
    hide Walk;
    FirstOrRest([i] + rest);
    assert ([i] + rest)[1..] == rest;
  }

  lemma WalkFrom(linked: seq<ReviewedRow>, i: nat, rest: seq<nat>)
    requires rest != [] && Walk(linked, rest) && i < |linked|
    requires linked[i].dependsOn != "" && linked[i].dependsOn == linked[rest[0]].task.id
    ensures Walk(linked, [i] + rest)
  {
    var path := [i] + rest;
    forall p | 0 <= p < |path| - 1
      ensures linked[path[p]].dependsOn != "" && linked[path[p]].dependsOn == linked[path[p + 1]].task.id
    {
      if p > 0 {
        assert path[p] == rest[p - 1] && path[p + 1] == rest[p - 1 + 1];
      }
    }
  }

  /** A link leads to the previous row, and everything else before a row is before its previous one. */
  lemma LinkLeads(rows: seq<ReviewedRow>, i: nat, j: nat)
    requires NoPresets(rows) && Previous(rows, j, i)
    ensures i < |rows| && j < |rows| && Linked(rows)[i].dependsOn == Linked(rows)[j].task.id == rows[j].task.id
    ensures forall k: nat :: Earlier(rows, k, i) <==> k == j || Earlier(rows, k, j)
  {
    LinkedToPrevious(rows, j, i);
    assert Linked(rows)[i] == LinkedRow(rows, i) && Linked(rows)[j] == LinkedRow(rows, j);
    assert forall k: nat :: Earlier(rows, k, j) ==> Earlier(rows, k, i);
  }

  /** From every numbered row, following dependencies visits exactly the earlier steps of its flow and
      ends at the flow's first. */
  lemma {:induction false} WalkToFirst(rows: seq<ReviewedRow>, i: nat) returns (path: seq<nat>)
    requires NoPresets(rows) && i < |rows| && Numbered(rows[i])
    requires forall k :: 0 <= k < |rows| ==> rows[k].task.id != ""
    ensures Walk(Linked(rows), path) && BackToFirst(rows, i, path)
    decreases StepOf(rows[i]), i
  {
    if First(rows, i) {
      path := [i];
    } else {
      var k: nat :| Earlier(rows, k, i);
      var j := PreviousExists(rows, k, i);
      var rest := WalkToFirst(rows, j);
      LongerWalk(rows, i, j, rest);
      path := [i] + rest;
    }
  }
}

/** The sheets that count and list open claims, and how they agree. */
module Sheets {
  import opened Decision
  import opened FlowLinks
  import opened Readiness
  import opened Register
  import opened RegisterRows
  import opened Sorting
  import opened Text

  predicate Open(row: ReviewedRow) {
    row.task.status == "Partial" || row.task.status == "Mechanism not found"
  }

  function One(holds: bool): nat {
    if holds then 1 else 0
  }

  predicate AtGate(row: ReviewedRow, gate: string) {
    row.os.gate == gate
  }

  predicate AtWork(row: ReviewedRow, work: string) {
    row.os.workStatus == work
  }

  function CountGate(rows: seq<ReviewedRow>, gate: string): nat {
    if rows == [] then 0 else CountGate(rows[..|rows| - 1], gate) + One(AtGate(rows[|rows| - 1], gate))
  }

  function CountWork(rows: seq<ReviewedRow>, work: string): nat {
    if rows == [] then 0 else CountWork(rows[..|rows| - 1], work) + One(AtWork(rows[|rows| - 1], work))
  }

  // --- Lists sorted by task id ---

  /** A listed claim, first its task id. */
  datatype Line = Line(id: string, cells: seq<string>)

  predicate IdBefore(a: Line, b: Line) {
    Less(a.id, b.id)
  }

  /** lines.sort by id; equal ids keep their order. */
  function SortedLines(lines: seq<Line>): seq<Line> {
    Sort(lines, IdBefore)
  }

  function Ids(lines: seq<Line>): (ids: seq<string>)
    ensures |ids| == |lines|
  {
    seq(|lines|, i requires 0 <= i < |lines| => lines[i].id)
  }

  function EvidenceLine(row: ReviewedRow): Line {
    Line(row.task.id, [row.task.action, row.task.status, row.os.codeEvidence,
      if row.task.status == "Partial" then "Keep the corrected note. Do not mark it supported."
      else "Keep it as not found. Do not implement it under the feature freeze."])
  }

  /** What the gap sheet recommends for a claim. */
  datatype Advice = TrialBalance | SecondFactor | Limited | NotPresent

  function AdviceText(advice: Advice): string {
    match advice
    case TrialBalance =>
      "Trial balance exists. A nightly invariant check with an alert does not. Decide whether to build the check."
    case SecondFactor =>
      "Admin second factor is not in the product. Decide whether MVP requires it before a bank or auditor review."
    case Limited =>
      "Keep the corrected limit in the pilot story. Build the missing piece only if you accept it into MVP."
    case NotPresent =>
      "Leave it out of the pilot, or accept a build. Do not describe it as present."
  }

  function NextStep(row: ReviewedRow): Advice {
    if row.task.id == "S-0561" then TrialBalance
    else if row.task.id == "SEC-0624" then SecondFactor
    else if row.task.status == "Partial" then Limited
    else NotPresent
  }

  function DecisionLine(row: ReviewedRow): Line {
    Line(row.task.id, [row.task.action, row.task.status, AdviceText(NextStep(row)), "", "", ""])
  }

  /** The open rows in register order. */
  function OpenRows(rows: seq<ReviewedRow>): (open: seq<ReviewedRow>)
    ensures forall row :: row in open <==> row in rows && Open(row)
  {
    if rows == [] then []
    else
      assert rows == rows[..|rows| - 1] + [rows[|rows| - 1]];
      OpenRows(rows[..|rows| - 1]) + if Open(rows[|rows| - 1]) then [rows[|rows| - 1]] else []
  }

  function EvidenceLines(open: seq<ReviewedRow>): seq<Line> {
    seq(|open|, i requires 0 <= i < |open| => EvidenceLine(open[i]))
  }

  function DecisionLines(open: seq<ReviewedRow>): seq<Line> {
    seq(|open|, i requires 0 <= i < |open| => DecisionLine(open[i]))
  }

  lemma OneMoreRow(rows: seq<ReviewedRow>, i: nat)
    requires i < |rows|
    ensures
      var before, after := OpenRows(rows[..i]), OpenRows(rows[..i + 1]);
      && EvidenceLines(after) == EvidenceLines(before) + (if Open(rows[i]) then [EvidenceLine(rows[i])] else [])
      && DecisionLines(after) == DecisionLines(before) + (if Open(rows[i]) then [DecisionLine(rows[i])] else [])
  {
    hide EvidenceLine, DecisionLine, EvidenceLines, DecisionLines, Open;
    assert rows[..i + 1][..i] == rows[..i] && rows[..i + 1][i] == rows[i];
    var before := OpenRows(rows[..i]);
    if Open(rows[i]) {
      OneMoreLine(before, rows[i]);
      assert OpenRows(rows[..i + 1]) == before + [rows[i]];
    } else {
      assert OpenRows(rows[..i + 1]) == before + [];
      assert OpenRows(rows[..i + 1]) == before;
    }
  }

  lemma OneMoreLine(open: seq<ReviewedRow>, row: ReviewedRow)
    ensures EvidenceLines(open + [row]) == EvidenceLines(open) + [EvidenceLine(row)]
    ensures DecisionLines(open + [row]) == DecisionLines(open) + [DecisionLine(row)]
  {
    hide EvidenceLine, DecisionLine;
  }

  method CapabilityEvidence(rows: seq<ReviewedRow>) returns (lines: seq<Line>)
    ensures lines == SortedLines(EvidenceLines(OpenRows(rows)))
  {
    lines := [];
    assert lines == EvidenceLines(OpenRows(rows[..0])) == DecisionLines(OpenRows(rows[..0]));
    hide OpenRows, EvidenceLines, DecisionLines, SortedLines, EvidenceLine, DecisionLine, Open;
    for i := 0 to |rows|
      invariant lines == EvidenceLines(OpenRows(rows[..i]))
    {
      OneMoreRow(rows, i);
      if Open(rows[i]) {
        lines := lines + [EvidenceLine(rows[i])];
      }
    }
    assert rows[..|rows|] == rows;
    lines := SortedLines(lines);
  }

  method DecisionFor(row: ReviewedRow) returns (line: Line)
    requires Open(row)
    ensures line == DecisionLine(row)
  {
    var step := if row.task.status == "Partial" then Limited else NotPresent;
    if row.task.id == "SEC-0624" {
      step := SecondFactor;
    }
    if row.task.id == "S-0561" {
      step := TrialBalance;
    }
    line := Line(row.task.id, [row.task.action, row.task.status, AdviceText(step), "", "", ""]);
  }

  method GapDecisions(rows: seq<ReviewedRow>) returns (lines: seq<Line>)
    ensures lines == SortedLines(DecisionLines(OpenRows(rows)))
  {
    lines := [];
    assert lines == EvidenceLines(OpenRows(rows[..0])) == DecisionLines(OpenRows(rows[..0]));
    hide OpenRows, EvidenceLines, DecisionLines, SortedLines, EvidenceLine, DecisionLine, Open;
    for i := 0 to |rows|
      invariant lines == DecisionLines(OpenRows(rows[..i]))
    {
      OneMoreRow(rows, i);
      if !Open(rows[i]) {
        continue;
      }
      var line := DecisionFor(rows[i]);
      lines := lines + [line];
    }
    assert rows[..|rows|] == rows;
    lines := SortedLines(lines);
  }

  // --- Agreement ---

  lemma InitIds(a: seq<Line>)
    requires a != []
    ensures var n := |a| - 1; Ids(a[..n]) == Ids(a)[..n] && Ids(a)[n] == a[n].id
  {
  }

  lemma IdsAppend(a: seq<Line>, x: Line)
    ensures Ids(a + [x]) == Ids(a) + [x.id]
  {
  }

  lemma {:induction false} PlaceAlike(a: seq<Line>, b: seq<Line>, x: Line, y: Line)
    requires Ids(a) == Ids(b) && x.id == y.id
    ensures Ids(Place(a, x, IdBefore)) == Ids(Place(b, y, IdBefore))
  {
    hide Ids, Less;
    assert |a| == |b|;
    IdsAppend(a, x);
    IdsAppend(b, y);
    if a != [] {
      var n := |a| - 1;
      InitIds(a);
      InitIds(b);
      assert IdBefore(x, a[n]) == IdBefore(y, b[n]);
      PlaceAlike(a[..n], b[..n], x, y);
      IdsAppend(Place(a[..n], x, IdBefore), a[n]);
      IdsAppend(Place(b[..n], y, IdBefore), b[n]);
    } else {
      assert b == [] && Place(a, x, IdBefore) == a + [x] && Place(b, y, IdBefore) == b + [y];
    }
  }

  lemma {:induction false} SortedAlike(a: seq<Line>, b: seq<Line>)
    requires Ids(a) == Ids(b)
    ensures Ids(SortedLines(a)) == Ids(SortedLines(b))
  {
    hide Ids, Place;
    assert |a| == |b|;
    if a != [] {
      var n := |a| - 1;
      InitIds(a);
      InitIds(b);
      SortedAlike(a[..n], b[..n]);
      PlaceAlike(SortedLines(a[..n]), SortedLines(b[..n]), a[n], b[n]);
    }
  }

  lemma IdsAreKeys()
    ensures ByKey(IdBefore)
  {
    LessIsOrder();
    forall a: Line, b: Line, c: Line
      ensures IdBefore(a, b) ==> !IdBefore(b, a)
      ensures !IdBefore(b, a) && !IdBefore(c, b) ==> !IdBefore(c, a)
    {
      assert Less(a.id, b.id) ==> !Less(b.id, a.id);
      assert !Less(b.id, a.id) && !Less(c.id, b.id) ==> !Less(c.id, a.id);
      hide Less;
    }
  }

  /** The capability-evidence and gap-decision lists hold the same ids in the same ascending order: those of
      the open rows. */
  lemma ListsAgree(rows: seq<ReviewedRow>)
    ensures
      var evidence := SortedLines(EvidenceLines(OpenRows(rows)));
      var decisions := SortedLines(DecisionLines(OpenRows(rows)));
      && Ids(evidence) == Ids(decisions) && Ordered(evidence, IdBefore)
      && |evidence| == |decisions| == |OpenRows(rows)|
      && multiset(evidence) == multiset(EvidenceLines(OpenRows(rows)))
  {
    var open := OpenRows(rows);
    assert Ids(EvidenceLines(open)) == Ids(DecisionLines(open));
    SortedAlike(EvidenceLines(open), DecisionLines(open));
    IdsAreKeys();
    SortOrdered(EvidenceLines(open), IdBefore);
  }

  /** On a reviewed row the work status says exactly whether the claim is open, and how. */
  lemma WorkStatusIsOpen(s: Sources, row: TaskRow)
    ensures
      var r := Review(s, row);
      && (r.os.workStatus == "Gap" <==> r.task.status == "Mechanism not found")
      && (r.os.workStatus == "Built - partial" <==> r.task.status == "Partial")
  {
    FindingSettlesStatus(s, row);
    DerivedWork(s, row);
    var r, f := Review(s, row), ApplyEvidence(s, row);
    hide *;
    WorkStatusKinds(f.status, f.outcome);
  }

  lemma DerivedWork(s: Sources, row: TaskRow)
    ensures
      var r, f := Review(s, row), ApplyEvidence(s, row);
      r.task.status == f.status && r.os.workStatus == WorkStatus(f.status, f.outcome)
  {
    hide ApplyEvidence, AuthoredPriority, PreviousPriority, RefinePriority, FlowFor, ScopeClass, PriorityDecision,
         WorkStatus, OsLayer, CapabilityClass, Criticality, FailureImpact, ComplianceImpact, ReleaseGate,
         CodeEvidence, RiskScore, AuditNote, EvidenceFor, Field;
  }

  lemma FindingSettlesStatus(s: Sources, row: TaskRow)
    ensures var f := ApplyEvidence(s, row); f.outcome in {"Mechanism not found", "Partial"} ==> f.status == f.outcome
  {
    hide Absent, CodeSymbol;
  }

  lemma WorkStatusKinds(status: string, outcome: string)
    requires outcome in {"Mechanism not found", "Partial"} ==> status == outcome
    ensures WorkStatus(status, outcome) == "Gap" <==> status == "Mechanism not found"
    ensures WorkStatus(status, outcome) == "Built - partial" <==> status == "Partial"
  {
    assert "Mechanism not found"[0] != "Partial"[0];
    assert "Gap"[0] != "Built - partial"[0] && "Claimed - unverified"[0] != "Gap"[0];
    assert |"Built - partial"| != |"Built - unverified"|;
    assert "Claimed - unverified"[0] != "Built - partial"[0];
  }

  /** A reviewed row, linked or not. */
  ghost predicate Reviewed(s: Sources, row: ReviewedRow) {
    exists raw :: row == Review(s, raw).(dependsOn := row.dependsOn)
  }

  ghost predicate AllReviewed(s: Sources, rows: seq<ReviewedRow>) {
    hide Reviewed;
    forall k :: 0 <= k < |rows| ==> Reviewed(s, rows[k])
  }

  lemma RebuiltReviewed(s: Sources, csv: seq<TaskRow>)
    ensures AllReviewed(s, Rebuild(s, csv))
  {
    var current := Current(s, csv);
    var reviews := Reviews(s, current);
    hide Review, Current;
    forall k | 0 <= k < |reviews|
      ensures Reviewed(s, Linked(reviews)[k])
    {
      var row := Linked(reviews)[k];
      assert row == LinkedRow(reviews, k);
      hide LinkedRow;
      assert row == Review(s, current[k]).(dependsOn := row.dependsOn);
    }
  }

  lemma RowCounts(s: Sources, row: ReviewedRow)
    requires Reviewed(s, row)
    ensures One(AtGate(row, "MVP")) + One(AtGate(row, "Pilot")) + One(AtGate(row, "Later")) == 1
    ensures One(AtWork(row, "Gap")) + One(AtWork(row, "Built - partial")) == One(Open(row))
  {
    hide Review, ReleaseGate;
    var raw :| row == Review(s, raw).(dependsOn := row.dependsOn);
    WorkStatusIsOpen(s, raw);
    DerivedGate(s, raw);
    GateKinds(row.task);
    assert "Gap" != "Built - partial" && "MVP" != "Pilot" && "Later" != "MVP";
  }

  lemma DerivedGate(s: Sources, row: TaskRow)
    ensures Review(s, row).os.gate == ReleaseGate(Review(s, row).task)
  {
    hide ReviewedTask, ApplyEvidence, AuthoredPriority, PreviousPriority, FlowFor, ScopeClass, PriorityDecision,
         WorkStatus, OsLayer, CapabilityClass, Criticality, FailureImpact, ComplianceImpact, ReleaseGate,
         CodeEvidence, RiskScore, AuditNote, EvidenceFor, Field;
  }

  lemma GateKinds(row: TaskRow)
    ensures ReleaseGate(row) in {"MVP", "Pilot", "Later"}
  {
  }

  lemma {:induction false} GatesPartition(rows: seq<ReviewedRow>, a: string, b: string, c: string)
    requires forall k :: 0 <= k < |rows| ==>
      One(AtGate(rows[k], a)) + One(AtGate(rows[k], b)) + One(AtGate(rows[k], c)) == 1
    ensures CountGate(rows, a) + CountGate(rows, b) + CountGate(rows, c) == |rows|
  {
    hide AtGate, One;
    if rows != [] {
      GatesPartition(rows[..|rows| - 1], a, b, c);
    }
  }

  lemma {:induction false} OpenWork(rows: seq<ReviewedRow>, a: string, b: string)
    requires forall k :: 0 <= k < |rows| ==> One(AtWork(rows[k], a)) + One(AtWork(rows[k], b)) == One(Open(rows[k]))
    ensures CountWork(rows, a) + CountWork(rows, b) == |OpenRows(rows)|
  {
    hide AtWork, Open;
    if rows != [] {
      OpenWork(rows[..|rows| - 1], a, b);
    }
  }

  /** The three release gates partition the register, and Gap with Built - partial count the open claims. */
  lemma CountsAgree(s: Sources, rows: seq<ReviewedRow>)
    requires AllReviewed(s, rows)
    ensures CountGate(rows, "MVP") + CountGate(rows, "Pilot") + CountGate(rows, "Later") == |rows|
    ensures CountWork(rows, "Gap") + CountWork(rows, "Built - partial") == |OpenRows(rows)|
  {
    hide Reviewed, AtGate, AtWork, One, Open, CountGate, CountWork, OpenRows;
    forall k | 0 <= k < |rows|
      ensures One(AtGate(rows[k], "MVP")) + One(AtGate(rows[k], "Pilot")) + One(AtGate(rows[k], "Later")) == 1
      ensures One(AtWork(rows[k], "Gap")) + One(AtWork(rows[k], "Built - partial")) == One(Open(rows[k]))
    {
      RowCounts(s, rows[k]);
    }
    GatesPartition(rows, "MVP", "Pilot", "Later");
    OpenWork(rows, "Gap", "Built - partial");
  }

  /** The sheets of a rebuilt register agree with one another: the gate counts partition its rows, both lists
      hold one line for each row counted as Gap or Built - partial, and name the same ids in ascending order. */
  lemma SheetsAgree(s: Sources, csv: seq<TaskRow>)
    ensures
      var rows := Rebuild(s, csv);
      var evidence := SortedLines(EvidenceLines(OpenRows(rows)));
      var decisions := SortedLines(DecisionLines(OpenRows(rows)));
      && CountGate(rows, "MVP") + CountGate(rows, "Pilot") + CountGate(rows, "Later") == |rows|
      && CountWork(rows, "Gap") + CountWork(rows, "Built - partial") == |evidence| == |decisions|
      && Ids(evidence) == Ids(decisions) && Ordered(evidence, IdBefore)
      && multiset(evidence) == multiset(EvidenceLines(OpenRows(rows)))
  {
    hide *;
    RebuiltReviewed(s, csv);
    CountsAgree(s, Rebuild(s, csv));
    ListsAgree(Rebuild(s, csv));
  }

  // --- What the lists say ---

  /** The claim is still open. */
  predicate Pending(row: ReviewedRow) {
    row.task.status in {"Partial", "Mechanism not found"}
  }

  /** The action beside a pending claim: keep the note of a partial one, keep a missing one as not found. */
  predicate ActionFits(status: string, action: string) {
    action == if status == "Partial" then "Keep the corrected note. Do not mark it supported."
              else "Keep it as not found. Do not implement it under the feature freeze."
  }

  predicate EvidenceFits(line: Line, row: ReviewedRow) {
    && |line.cells| == 4 && ActionFits(row.task.status, line.cells[3])
    && line == Line(row.task.id, [row.task.action, row.task.status, row.os.codeEvidence, line.cells[3]])
  }

  predicate WordsFit(advice: Advice, words: string) {
    match advice
    case TrialBalance => words ==
      "Trial balance exists. A nightly invariant check with an alert does not. Decide whether to build the check."
    case SecondFactor => words ==
      "Admin second factor is not in the product. Decide whether MVP requires it before a bank or auditor review."
    case Limited => words ==
      "Keep the corrected limit in the pilot story. Build the missing piece only if you accept it into MVP."
    case NotPresent =>
      words == "Leave it out of the pilot, or accept a build. Do not describe it as present."
  }

  /** The advice for a pending claim: two ids have their own, and otherwise the status decides. */
  predicate AdviceFits(id: string, status: string, words: string) {
    && (id == "S-0561" ==> WordsFit(TrialBalance, words))
    && (id == "SEC-0624" ==> WordsFit(SecondFactor, words))
    && (id != "S-0561" && id != "SEC-0624" ==> WordsFit(if status == "Partial" then Limited else NotPresent, words))
  }

  predicate DecisionFits(line: Line, row: ReviewedRow) {
    && |line.cells| == 6 && AdviceFits(row.task.id, row.task.status, line.cells[2])
    && line == Line(row.task.id, [row.task.action, row.task.status, line.cells[2], "", "", ""])
  }

  /** Line n is about row `at[n]`; the rows are the pending ones, each once, by ascending id, equal ids in row order. */
  ghost predicate Lists(rows: seq<ReviewedRow>, lines: seq<Line>, at: seq<nat>) {
    && |at| == |lines| && (forall n :: 0 <= n < |at| ==> at[n] < |rows| && lines[n].id == rows[at[n]].task.id)
    && (forall i :: 0 <= i < |rows| ==> (Pending(rows[i]) <==> i in at))
    && (forall n, m :: 0 <= n < m < |at| ==>
          Less(lines[n].id, lines[m].id) || (lines[n].id == lines[m].id && at[n] < at[m]))
  }

  lemma EvidenceLineFits(row: ReviewedRow)
    ensures EvidenceFits(EvidenceLine(row), row)
  {
  }

  lemma TextFits(advice: Advice)
    ensures WordsFit(advice, AdviceText(advice))
  {
  }

  lemma StepFits(row: ReviewedRow, words: string)
    requires WordsFit(NextStep(row), words)
    ensures AdviceFits(row.task.id, row.task.status, words)
  {
    hide WordsFit;
    var id := row.task.id;
    assert id == "S-0561" ==> |id| == 6;
    assert id == "SEC-0624" ==> |id| == 8;
  }

  lemma DecisionLineFits(row: ReviewedRow)
    ensures DecisionFits(DecisionLine(row), row)
  {
    hide AdviceFits, AdviceText, NextStep, WordsFit;
    TextFits(NextStep(row));
    StepFits(row, AdviceText(NextStep(row)));
  }

  /** The places of the open rows, in register order. */
  ghost predicate OpenAt(rows: seq<ReviewedRow>, open: seq<ReviewedRow>, at: seq<nat>) {
    && |at| == |open| && (forall n :: 0 <= n < |at| ==> at[n] < |rows| && open[n] == rows[at[n]])
    && (forall i :: 0 <= i < |rows| ==> (Pending(rows[i]) <==> i in at))
    && (forall n, m :: 0 <= n < m < |at| ==> at[n] < at[m])
  }

  lemma OpenNext(rows: seq<ReviewedRow>, open: seq<ReviewedRow>, at: seq<nat>)
    requires rows != [] && OpenAt(rows[..|rows| - 1], open, at)
    ensures
      var n := |rows| - 1;
      if Pending(rows[n]) then OpenAt(rows, open + [rows[n]], at + [n]) else OpenAt(rows, open, at)
  {
    hide Pending;
    var n := |rows| - 1;
    assert n !in at;
    assert forall i :: 0 <= i < n ==> (i in at + [n] <==> i in at);
    assert (at + [n])[|at|] == n;
  }

  lemma {:induction false} OpenPlaces(rows: seq<ReviewedRow>) returns (at: seq<nat>)
    ensures OpenAt(rows, OpenRows(rows), at)
  {
    hide OpenAt;
    if rows == [] {
      at := [];
      NoneOpen();
    } else {
      var n := |rows| - 1;
      at := OpenPlaces(rows[..n]);
      OpenNext(rows, OpenRows(rows[..n]), at);
      if Open(rows[n]) {
        at := at + [n];
      } else {
        assert OpenRows(rows[..n]) + [] == OpenRows(rows[..n]);
      }
    }
  }

  lemma NoneOpen()
    ensures OpenAt([], OpenRows([]), [])
  {
  }

  lemma LessOrSame(a: Line, i: nat, b: Line, j: nat)
    requires Precedes(IdBefore, a, i, b, j)
    ensures Less(a.id, b.id) || (a.id == b.id && i < j)
  {
    LessTotal(a.id, b.id);
    hide Less;
  }

  function Through(at: seq<nat>, p: seq<nat>): (places: seq<nat>)
    requires forall n :: 0 <= n < |p| ==> p[n] < |at|
    ensures |places| == |p| && forall n :: 0 <= n < |p| ==> places[n] == at[p[n]]
  {
    seq(|p|, n requires 0 <= n < |p| => at[p[n]])
  }

  lemma ThroughMembers(at: seq<nat>, p: seq<nat>, i: nat)
    requires forall n :: 0 <= n < |p| ==> p[n] < |at|
    requires forall k :: 0 <= k < |at| ==> k in p
    ensures i in Through(at, p) <==> i in at
  {
    if i in at {
      var k :| 0 <= k < |at| && at[k] == i;
      assert k in p;
      var n :| 0 <= n < |p| && p[n] == k;
      assert Through(at, p)[n] == i;
    }
    if i in Through(at, p) {
      var n :| 0 <= n < |p| && Through(at, p)[n] == i;
      assert at[p[n]] == i;
    }
  }

  /** From the sorted lines back to the rows. */
  lemma ListedRows(rows: seq<ReviewedRow>, open: seq<ReviewedRow>, at: seq<nat>, lines: seq<Line>, p: seq<nat>)
    requires OpenAt(rows, open, at) && |lines| == |open|
    requires forall n :: 0 <= n < |open| ==> lines[n].id == open[n].task.id
    requires Arranges(lines, SortedLines(lines), IdBefore, p)
    ensures |p| == |SortedLines(lines)| && forall n :: 0 <= n < |p| ==> p[n] < |at|
    ensures Lists(rows, SortedLines(lines), Through(at, p))
    ensures forall n :: 0 <= n < |p| ==>
      at[p[n]] < |rows| && rows[at[p[n]]] == open[p[n]] && SortedLines(lines)[n] == lines[p[n]]
  {
    hide SortedLines, Pending, Less, Through, Precedes;
    var sorted, places := SortedLines(lines), Through(at, p);
    forall n, m | 0 <= n < m < |places|
      ensures Less(sorted[n].id, sorted[m].id) || (sorted[n].id == sorted[m].id && places[n] < places[m])
    {
      LessOrSame(sorted[n], p[n], sorted[m], p[m]);
    }
    forall i | 0 <= i < |rows|
      ensures i in places <==> i in at
    {
      ThroughMembers(at, p, i);
    }
  }

  lemma SortedRows(rows: seq<ReviewedRow>, lines: seq<Line>) returns (open: seq<nat>, p: seq<nat>, at: seq<nat>)
    requires |lines| == |OpenRows(rows)| && forall n :: 0 <= n < |lines| ==> lines[n].id == OpenRows(rows)[n].task.id
    ensures |at| == |p| == |SortedLines(lines)| && Lists(rows, SortedLines(lines), at)
    ensures forall n :: 0 <= n < |at| ==>
      p[n] < |lines| && at[n] < |rows| && rows[at[n]] == OpenRows(rows)[p[n]] && SortedLines(lines)[n] == lines[p[n]]
  {
    open := OpenPlaces(rows);
    IdsAreKeys();
    p := SortArranges(lines, IdBefore);
    hide OpenRows, OpenAt, IdBefore, Sort, Lists;
    ListedRows(rows, OpenRows(rows), open, lines, p);
    at := Through(open, p);
  }

  /** The capability-evidence sheet has one line for each pending claim, in id order, and this is what it says. */
  lemma EvidenceListed(rows: seq<ReviewedRow>) returns (at: seq<nat>)
    ensures Lists(rows, SortedLines(EvidenceLines(OpenRows(rows))), at)
    ensures forall n :: 0 <= n < |at| ==>
      at[n] < |rows| && EvidenceFits(SortedLines(EvidenceLines(OpenRows(rows)))[n], rows[at[n]])
  {
    var lines := EvidenceLines(OpenRows(rows));
    var open, p;
    open, p, at := SortedRows(rows, lines);
    hide OpenRows, SortedLines, Lists, EvidenceFits;
    forall n | 0 <= n < |at|
      ensures EvidenceFits(SortedLines(lines)[n], rows[at[n]])
    {
      EvidenceLineFits(rows[at[n]]);
    }
  }

  /** The gap sheet has the same claims in the same order, each with the advice for its id and its status. */
  lemma DecisionsListed(rows: seq<ReviewedRow>) returns (at: seq<nat>)
    ensures Lists(rows, SortedLines(DecisionLines(OpenRows(rows))), at)
    ensures forall n :: 0 <= n < |at| ==>
      at[n] < |rows| && DecisionFits(SortedLines(DecisionLines(OpenRows(rows)))[n], rows[at[n]])
  {
    var lines := DecisionLines(OpenRows(rows));
    var open, p;
    open, p, at := SortedRows(rows, lines);
    hide OpenRows, SortedLines, Lists, DecisionFits;
    forall n | 0 <= n < |at|
      ensures DecisionFits(SortedLines(lines)[n], rows[at[n]])
    {
      DecisionLineFits(rows[at[n]]);
    }
  }
}

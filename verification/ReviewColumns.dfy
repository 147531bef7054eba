/** What each column of a reviewed row is, from the row and the sources alone. */
module ReviewColumns {
  import opened Decision
  import opened FlowLinks
  import opened Readiness
  import opened Register
  import opened RegisterRows
  import opened Text

  // --- Groups of categories: each stands for the same in every derived column ---

  predicate TaxOrAssets(category: string) {
    category == "GST / Tax / Compliance" || category == "Finance & Fixed Assets"
  }

  predicate Payroll(category: string) {
    category == "Payroll & Statutory Dues"
  }

  predicate Receivables(category: string) {
    category == "Receivables & Payables"
  }

  predicate Security(category: string) {
    category == "Security / Exception / Recovery"
  }

  predicate Closing(category: string) {
    category == "Reporting & Business Intelligence" || category == "Import / Export / Period Close"
  }

  predicate MoneyOrGoods(category: string) {
    category == "Payments & Reconciliation" || category == "Inventory Lifecycle"
  }

  predicate Making(category: string) {
    category == "Workshop Job" || category == "Manufacturing" || category == "Project Billing"
  }

  predicate Trading(category: string) {
    || category == "Customer-to-Cash" || category == "Procure-to-Pay"
    || category == "Returns / Complaints / After-Sales" || category == "Operations, Fleet & Delivery"
    || category == "Multi-Godown / Multi-Store"
  }

  predicate Insurance(category: string) {
    category == "Insurance Distribution"
  }

  predicate Growing(category: string) {
    category == "Sales / CRM / Customer Lifecycle" || (|category| >= 9 && category[..9] == "Growth OS")
  }

  predicate Runs(category: string) {
    MoneyOrGoods(category) || Making(category) || Trading(category)
  }

  predicate Controls(category: string) {
    TaxOrAssets(category) || Payroll(category) || Receivables(category) || Security(category) || Closing(category)
  }

  predicate Vertical(category: string) {
    Payroll(category) || Making(category) || Insurance(category)
  }

  predicate Serious(category: string) {
    TaxOrAssets(category) || Payroll(category) || Receivables(category) || MoneyOrGoods(category)
  }

  lemma LayerWords()
    ensures "RUN" != "CONTROL" && "RUN" != "GROW" && "RUN" != "KERNEL"
    ensures "CONTROL" != "GROW" && "CONTROL" != "KERNEL" && "GROW" != "KERNEL"
  {
    assert "RUN"[0] != "CONTROL"[0] && "RUN"[0] != "GROW"[0] && "RUN"[0] != "KERNEL"[0];
    assert "CONTROL"[0] != "GROW"[0] && "CONTROL"[0] != "KERNEL"[0] && "GROW"[0] != "KERNEL"[0];
  }

  lemma RunIs(category: string)
    ensures IsRun(category) <==> Runs(category)
  {
  }

  lemma ControlIs(category: string)
    ensures IsControl(category) <==> Controls(category)
  {
  }

  lemma VerticalIs(category: string)
    ensures IsVertical(category) <==> Vertical(category)
  {
  }

  /** What the layer of a category says. */
  predicate LayerFits(layer: string, category: string) {
    && (layer == "RUN" <==> Runs(category))
    && (layer == "CONTROL" <==> !Runs(category) && Controls(category))
    && (layer == "GROW" <==> !Runs(category) && !Controls(category) && (Growing(category) || Insurance(category)))
    && layer in {"RUN", "CONTROL", "GROW", "KERNEL"}
  }

  lemma LayerExactly(category: string)
    ensures LayerFits(OsLayer(category), category)
  {
    LayerWords();
    RunIs(category);
    ControlIs(category);
    hide IsRun, IsControl, Runs, Controls;
  }

  lemma LevelWords()
    ensures "High" != "Medium" && "High" != "Low" && "Medium" != "Low"
  {
    assert "High"[0] != "Medium"[0] && "High"[0] != "Low"[0] && "Medium"[0] != "Low"[0];
  }

  /** What the two impacts of a row say. */
  predicate FailureFits(impact: string, row: TaskRow) {
    && (impact == "High" <==> Serious(row.category))
    && (impact == "Low" <==> !Serious(row.category) && row.priority == "P3")
    && impact in {"High", "Medium", "Low"}
  }

  predicate ComplianceFits(impact: string, category: string) {
    && (impact == "High" <==> TaxOrAssets(category) || Payroll(category))
    && (impact == "Medium" <==>
          !TaxOrAssets(category) && !Payroll(category) && (Security(category) || Receivables(category)))
    && impact in {"High", "Medium", "Low"}
  }

  lemma FailureExactly(row: TaskRow)
    ensures FailureFits(FailureImpact(row), row)
  {
    LevelWords();
  }

  lemma ComplianceExactly(row: TaskRow)
    ensures ComplianceFits(ComplianceImpact(row), row.category)
  {
    LevelWords();
  }

  /** A row of no vertical, whose kind gives no class of its own. */
  predicate PlainKind(row: TaskRow) {
    row.kind != "D" && row.kind != "SaaS" && row.kind != "UX" && row.kind != "I"
  }

  lemma ClassWords()
    ensures "Future" != "Vertical extension" && "Future" != "Adjacent" && "Future" != "Differentiator"
    ensures "Core" !in {"Future", "Vertical extension", "Adjacent", "Differentiator"}
    ensures "Vertical extension" != "Adjacent" && "Vertical extension" != "Differentiator"
    ensures "Adjacent" != "Differentiator"
  {
    assert "Future"[0] == 'F' && "Vertical extension"[0] == 'V' && "Adjacent"[0] == 'A' && "Differentiator"[0] == 'D';
    assert "Core"[0] == 'C';
  }

  lemma KindWords()
    ensures "D" != "SaaS" && "D" != "UX" && "D" != "I" && "SaaS" != "UX" && "SaaS" != "I" && "UX" != "I"
  {
    assert "D"[0] != "SaaS"[0] && "D"[0] != "UX"[0] && "D"[0] != "I"[0];
    assert "SaaS"[0] != "UX"[0] && "SaaS"[0] != "I"[0] && "UX"[0] != "I"[0];
  }

  /** What the class of a row says: the future ones first, then the verticals, then by kind. */
  predicate ClassFits(capability: string, row: TaskRow) {
    && (capability == "Future" <==> row.priority == "P3" || row.kind == "D")
    && (capability == "Vertical extension" <==> row.priority != "P3" && row.kind != "D" && Vertical(row.category))
    && (capability == "Adjacent" <==> row.priority != "P3" && !Vertical(row.category) && row.kind == "SaaS")
    && (capability == "Differentiator" <==>
          row.priority != "P3" && !Vertical(row.category) && (row.kind == "UX" || row.kind == "I"))
    && (capability == "Core" <==> row.priority != "P3" && !Vertical(row.category) && PlainKind(row))
    && capability in {"Future", "Vertical extension", "Adjacent", "Differentiator", "Core"}
  }

  lemma ClassExactly(row: TaskRow)
    ensures ClassFits(CapabilityClass(row), row)
  {
    ClassWords();
    KindWords();
    VerticalIs(row.category);
    hide IsVertical, Vertical;
  }

  lemma PriorityWords()
    ensures "P0" != "P1" && "P0" != "P3" && "P1" != "P3"
  {
    assert "P0"[1] != "P1"[1] && "P0"[1] != "P3"[1] && "P1"[1] != "P3"[1];
  }

  /** What the release gate says: every P0 is for the MVP; the pilot takes P1 work of the run and control layers that
      is no vertical and of a plain kind; the rest is later. */
  predicate GateFits(gate: string, row: TaskRow) {
    && (gate == "MVP" <==> row.priority == "P0")
    && (gate == "Pilot" <==>
          && row.priority == "P1" && PlainKind(row) && !Vertical(row.category)
          && (Runs(row.category) || Controls(row.category)))
    && gate in {"MVP", "Pilot", "Later"}
  }

  lemma GateExactly(row: TaskRow)
    ensures GateFits(ReleaseGate(row), row)
  {
    assert "MVP"[0] != "Pilot"[0] && "MVP"[0] != "Later"[0] && "Pilot"[0] != "Later"[0];
    PriorityWords();
    ClassExactly(row);
    LayerExactly(row.category);
    hide OsLayer, CapabilityClass, Runs, Controls, Vertical, PlainKind;
  }

  /** The weight of a row's class. */
  function Weight(row: TaskRow): int {
    if row.priority == "P3" || row.kind == "D" then 1
    else if Vertical(row.category) then 2
    else if row.kind == "SaaS" then 1
    else if row.kind == "UX" || row.kind == "I" then 2
    else 3
  }

  lemma WeightIs(row: TaskRow)
    ensures ClassWeight(CapabilityClass(row)) == Weight(row)
  {
    ClassWords();
    ClassExactly(row);
    hide CapabilityClass, Vertical;
  }

  /** The risk score of a row. */
  function Risk(row: TaskRow): int {
    var failure := if Serious(row.category) then 3 else if row.priority == "P3" then 1 else 2;
    var compliance :=
      if TaxOrAssets(row.category) || Payroll(row.category) then 3
      else if Security(row.category) || Receivables(row.category) then 2 else 1;
    failure * compliance * Weight(row)
  }

  lemma RiskIs(row: TaskRow)
    ensures RiskScore(row) == Risk(row)
  {
    LevelWords();
    FailureExactly(row);
    ComplianceExactly(row);
    WeightIs(row);
    hide FailureImpact, ComplianceImpact, ClassWeight, CapabilityClass, Serious, TaxOrAssets, Payroll, Security,
         Receivables, Weight;
  }

  lemma CriticalityWords()
    ensures "Critical" != "High" && "Critical" != "Medium" && "Critical" != "Low"
  {
    assert "Critical"[0] != "High"[0] && "Critical"[0] != "Medium"[0] && "Critical"[0] != "Low"[0];
  }

  /** Security, receivables, money and goods, and the strict categories share none. */
  lemma Apart(category: string)
    ensures Security(category) ==>
      !TaxOrAssets(category) && !Payroll(category) && !Receivables(category) && !MoneyOrGoods(category)
    ensures Receivables(category) ==> !TaxOrAssets(category) && !Payroll(category) && !MoneyOrGoods(category)
    ensures MoneyOrGoods(category) ==> !TaxOrAssets(category) && !Payroll(category)
  {
    assert Security(category) ==> |category| == 31;
    assert Receivables(category) ==> |category| == 22 && category[0] == 'R';
    assert MoneyOrGoods(category) ==> |category| == 25 || |category| == 19;
    assert TaxOrAssets(category) ==> |category| == 22 && (category[0] == 'G' || category[0] == 'F');
    assert Payroll(category) ==> |category| == 24;
    hide *;
  }

  /** How critical a row is, by what its category stands for and the weight of its class: tax, asset and payroll work
      is critical unless of the least weight; receivables are as critical as their class; money, goods and security
      are high only at full weight; the rest is never above medium. */
  predicate CriticalityFits(level: string, row: TaskRow) {
    var c, w := row.category, Weight(row);
    var strict := TaxOrAssets(c) || Payroll(c);
    && (level == "Critical" <==> (strict && w >= 2) || (Receivables(c) && w == 3))
    && (level == "High" <==>
          (strict && w == 1) || (Receivables(c) && w == 2) || ((MoneyOrGoods(c) || Security(c)) && w == 3))
    && (level == "Low" <==> !strict && !Receivables(c) && w == 1 && !(Security(c) && row.priority != "P3"))
    && level in {"Critical", "High", "Medium", "Low"}
  }

  /** The score of a row by what its category stands for. */
  lemma Scores(row: TaskRow)
    ensures
      var c, w, low := row.category, Weight(row), row.priority == "P3";
      var strict := TaxOrAssets(c) || Payroll(c);
      && (strict ==> Risk(row) == 9 * w) && (Receivables(c) ==> Risk(row) == 6 * w)
      && (MoneyOrGoods(c) ==> Risk(row) == 3 * w)
      && (Security(c) ==> Risk(row) == if low then 2 * w else 4 * w)
      && (!strict && !Receivables(c) && !MoneyOrGoods(c) && !Security(c) ==> Risk(row) == if low then w else 2 * w)
  {
    Apart(row.category);
    hide TaxOrAssets, Payroll, Receivables, Security, MoneyOrGoods, Weight;
  }

  lemma Weights(row: TaskRow)
    ensures Weight(row) in {1, 2, 3} && (row.priority == "P3" ==> Weight(row) == 1)
  {
    hide Vertical;
  }

  lemma Bands(row: TaskRow)
    ensures
      var score, c, w := Risk(row), row.category, Weight(row);
      var strict := TaxOrAssets(c) || Payroll(c);
      && (score >= 18 <==> (strict && w >= 2) || (Receivables(c) && w == 3))
      && (9 <= score < 18 <==>
            (strict && w == 1) || (Receivables(c) && w == 2) || ((MoneyOrGoods(c) || Security(c)) && w == 3))
      && (score < 4 <==> !strict && !Receivables(c) && w == 1 && !(Security(c) && row.priority != "P3"))
  {
    hide *;
    Apart(row.category);
    Weights(row);
    Scores(row);
  }

  lemma CriticalityExactly(row: TaskRow)
    ensures CriticalityFits(Criticality(row), row)
  {
    CriticalityWords();
    LevelWords();
    RiskIs(row);
    Bands(row);
    hide RiskScore, Risk, TaxOrAssets, Payroll, Receivables, Security, MoneyOrGoods, Vertical, Weight;
  }

  // --- Evidence of the code ---

  /** What the code evidence and the work status of a row say. */
  predicate WorkFits(evidence: string, work: string, status: string, outcome: string) {
    var gone := status == "Mechanism not found" || outcome == "Mechanism not found";
    var partly := !gone && (status == "Partial" || outcome == "Partial");
    var built := outcome == "Code symbol found" || status == "In product" || status == "Code Complete & Verified";
    && (evidence == "Not in code" <==> gone) && (work == "Gap" <==> gone)
    && (evidence == "Partial" <==> partly) && (work == "Built - partial" <==> partly)
    && (evidence == "Cited in code" <==> !gone && !partly && built)
    && (work == "Built - unverified" <==> !gone && !partly && built)
    && (evidence == "Not independently checked" <==> !gone && !partly && !built)
    && (work == "Claimed - unverified" <==> !gone && !partly && !built)
  }

  lemma EvidenceWords()
    ensures "Not in code" != "Partial" && "Not in code" != "Cited in code"
    ensures "Not in code" != "Not independently checked" && "Partial" != "Cited in code"
    ensures "Partial" != "Not independently checked" && "Cited in code" != "Not independently checked"
  {
    assert |"Not in code"| == 11 && |"Partial"| == 7 && |"Cited in code"| == 13;
    assert |"Not independently checked"| == 25;
  }

  lemma WorkWords()
    ensures "Gap" != "Built - partial" && "Gap" != "Built - unverified" && "Gap" != "Claimed - unverified"
    ensures "Built - partial" != "Built - unverified" && "Built - partial" != "Claimed - unverified"
    ensures "Built - unverified" != "Claimed - unverified"
  {
    assert |"Gap"| == 3 && |"Built - partial"| == 15 && |"Built - unverified"| == 18 && |"Claimed - unverified"| == 20;
  }

  lemma WorkExactly(status: string, outcome: string)
    ensures WorkFits(CodeEvidence(status, outcome), WorkStatus(status, outcome), status, outcome)
  {
    EvidenceWords();
    WorkWords();
  }

  /** The derived columns of a row with these twelve and this outcome. */
  predicate DerivedFit(os: OsFields, row: TaskRow, outcome: string) {
    && LayerFits(os.layer, row.category) && ClassFits(os.capability, row) && CriticalityFits(os.criticality, row)
    && FailureFits(os.failureImpact, row) && ComplianceFits(os.complianceImpact, row.category)
    && GateFits(os.gate, row) && WorkFits(os.codeEvidence, os.workStatus, row.status, outcome)
    && os.osReady == "No" && os.proposed == row.priority && os.risk == Risk(row)
  }

  /** A cell of hand or CI evidence: empty where there is none. */
  function Cell(s: Sources, id: string, column: string): string {
    if id in s.evidence && column in s.evidence[id] then s.evidence[id][column] else ""
  }

  /** The columns copied from the evidence of a task. */
  predicate EvidenceFit(s: Sources, os: OsFields, id: string) {
    && os.owner == Cell(s, id, "Owner") && os.targetDate == Cell(s, id, "Target date")
    && os.estimate == Cell(s, id, "Estimate days") && os.blockedBy == Cell(s, id, "Blocked by")
    && os.testCase == Cell(s, id, "Test case ID") && os.lastVerified == Cell(s, id, "Last verified")
    && os.verifiedBy == Cell(s, id, "Verified by")
    && (Cell(s, id, "Verification result") == "" ==> os.result == "Not run")
    && (Cell(s, id, "Verification result") != "" ==> os.result == Cell(s, id, "Verification result"))
  }

  lemma CellIs(s: Sources, id: string, column: string)
    ensures Field(EvidenceFor(s, id), column) == Cell(s, id, column)
  {
  }

  lemma DerivesEvidence(s: Sources, row: TaskRow, outcome: string, id: string)
    ensures EvidenceFit(s, Derive(row, outcome, EvidenceFor(s, id)), id)
  {
    hide OsLayer, CapabilityClass, Criticality, FailureImpact, ComplianceImpact, ReleaseGate, CodeEvidence, WorkStatus,
         RiskScore, EvidenceFor, Field, Cell;
    CellIs(s, id, "Owner");
    CellIs(s, id, "Target date");
    CellIs(s, id, "Estimate days");
    CellIs(s, id, "Blocked by");
    CellIs(s, id, "Test case ID");
    CellIs(s, id, "Last verified");
    CellIs(s, id, "Verified by");
    CellIs(s, id, "Verification result");
  }

  lemma Derives(row: TaskRow, outcome: string, evidence: Evidence)
    ensures DerivedFit(Derive(row, outcome, evidence), row, outcome)
  {
    hide OsLayer, CapabilityClass, Criticality, FailureImpact, ComplianceImpact, ReleaseGate, CodeEvidence, WorkStatus,
         RiskScore, Risk, Field, LayerFits, ClassFits, CriticalityFits, FailureFits, ComplianceFits, GateFits, WorkFits;
    LayerExactly(row.category);
    ClassExactly(row);
    CriticalityExactly(row);
    FailureExactly(row);
    ComplianceExactly(row);
    GateExactly(row);
    WorkExactly(row.status, outcome);
    RiskIs(row);
  }

  /** The columns that the review derives and copies, from the reviewed twelve, the outcome and the evidence. */
  lemma DerivedColumns(s: Sources, row: TaskRow)
    ensures
      var r := Review(s, row);
      && DerivedFit(r.os, r.task, r.outcome) && EvidenceFit(s, r.os, row.id)
      && r.dependsOn == Cell(s, row.id, "Depends on")
  {
    hide ReviewedTask, ApplyEvidence, AuthoredPriority, PreviousPriority, FlowFor, ScopeClass, PriorityDecision, Derive,
         AuditNote, EvidenceFor, Field, DerivedFit, EvidenceFit, Cell;
    var r := Review(s, row);
    SameId(s, row);
    Derives(r.task, r.outcome, EvidenceFor(s, row.id));
    DerivesEvidence(s, r.task, r.outcome, row.id);
    CellIs(s, row.id, "Depends on");
  }

  // --- Priorities ---

  /** The same letter, or the upper and lower case of one. */
  predicate SameLetter(c: char, d: char) {
    c == d || ('A' <= c <= 'Z' && d as int == c as int + 32) || ('A' <= d <= 'Z' && c as int == d as int + 32)
  }

  /** The text has the phrase at i, in whatever case. */
  predicate SaysAt(text: string, phrase: string, i: int) {
    0 <= i <= |text| - |phrase| && forall j :: 0 <= j < |phrase| ==> SameLetter(text[i + j], phrase[j])
  }

  ghost predicate Says(text: string, phrases: seq<string>) {
    exists k, i :: 0 <= k < |phrases| && SaysAt(text, phrases[k], i)
  }

  lemma LowerLetters(c: char, d: char)
    ensures LowerChar(c) == LowerChar(d) <==> SameLetter(c, d)
  {
  }

  lemma SaysLower(text: string, phrase: string, i: int)
    ensures At(Lower(text), Lower(phrase), i) <==> SaysAt(text, phrase, i)
  {
    if 0 <= i <= |text| - |phrase| {
      var part := Lower(text)[i..i + |phrase|];
      forall j | 0 <= j < |phrase|
        ensures part[j] == Lower(phrase)[j] <==> SameLetter(text[i + j], phrase[j])
      {
        assert part[j] == LowerChar(text[i + j]);
        LowerLetters(text[i + j], phrase[j]);
      }
      hide Lower;
    }
  }

  lemma SaysExactly(text: string, phrases: seq<string>)
    ensures AnyPhrase(phrases, Lower(text)) <==> Says(text, phrases)
  {
    hide At, Lower, SaysAt;
    forall k, i | 0 <= k < |phrases|
      ensures At(Lower(text), Lower(phrases[k]), i) <==> SaysAt(text, phrases[k], i)
    {
      SaysLower(text, phrases[k], i);
    }
    if AnyPhrase(phrases, Lower(text)) {
      var k :| 0 <= k < |phrases| && Contains(Lower(text), Lower(phrases[k]));
      var i :| 0 <= i <= |Lower(text)| && At(Lower(text), Lower(phrases[k]), i);
      assert SaysAt(text, phrases[k], i);
    }
    if Says(text, phrases) {
      var k, i :| 0 <= k < |phrases| && SaysAt(text, phrases[k], i);
      assert At(Lower(text), Lower(phrases[k]), i);
      Inside(Lower(text), Lower(phrases[k]), i);
    }
  }

  lemma Inside(text: string, token: string, i: int)
    requires At(text, token, i)
    ensures Contains(text, token)
  {
  }

  /** The authored priority: the filled workbook's, else that of the last added flow task of this id, else the source
      table's, else the stored one. */
  ghost predicate AuthoredFits(s: Sources, row: TaskRow, authored: string) {
    && (row.id in s.authored ==> authored == s.authored[row.id])
    && (row.id !in s.authored ==>
          && (forall k :: LastTask(s.flowTasks, row.id, k) ==> authored == s.flowTasks[k].priority)
          && (!Present(s.flowTasks, row.id) ==>
                authored == if row.id in s.planned then s.planned[row.id] else row.priority))
  }

  lemma AuthoredExactly(s: Sources, row: TaskRow)
    ensures AuthoredFits(s, row, AuthoredPriority(s, row))
  {
    hide FlowTask, Present, LastTask;
    FlowTaskExactly(s.flowTasks, row.id);
  }

  /** The priorities of a reviewed row and the sentence about them. */
  lemma PriorityColumns(s: Sources, row: TaskRow)
    ensures
      var r := Review(s, row);
      var previous := if row.id in s.prereview then s.prereview[row.id] else row.priority;
      && AuthoredFits(s, row, r.authored)
      && r.task.priority == (
           if Says(row.action, s.lowPhrases) then "P3"
           else if Says(row.action, s.highPhrases) then "P0"
           else r.authored)
      && SentenceFits(r.decision, r.authored, r.task.priority, previous)
  {
    hide ApplyEvidence, AuthoredPriority, FlowFor, ScopeClass, PriorityDecision, Derive, AuditNote, EvidenceFor, Field,
         AnyPhrase, Lower, Says, AuthoredFits, ReviewedTask, SentenceFits;
    AuthoredExactly(s, row);
    FinalPriority(s, row);
    SaysExactly(row.action, s.lowPhrases);
    SaysExactly(row.action, s.highPhrases);
    SentenceExactly(AuthoredPriority(s, row), ReviewedTask(s, row).priority, PreviousPriority(s, row));
  }

  /** The other columns of the twelve, the outcome and the audit note, from the finding about the row. */
  lemma FindingColumns(s: Sources, row: TaskRow)
    ensures
      var r, f := Review(s, row), ApplyEvidence(s, row);
      && r.task == row.(category := f.category, priority := r.task.priority, status := f.status, notes := f.note)
      && r.outcome == f.outcome
      && (r.decision == "Unchanged" ==> r.audit == f.audit)
      && (r.decision != "Unchanged" ==> r.audit == if f.audit == "" then r.decision else f.audit + " " + r.decision)
  {
    hide ApplyEvidence, AuthoredPriority, FlowFor, ScopeClass, PriorityDecision, Derive, EvidenceFor, Field,
         RefinePriority, PreviousPriority;
  }

  // --- Place and scope ---

  predicate Theme(persona: string) {
    || persona == "Statutory Compliance" || persona == "AI & Differentiation" || persona == "Architecture & Platform"
    || persona == "Hardware Integrations" || persona == "External Integrations" || persona == "All Roles"
    || persona == "Platform / SaaS Admin" || persona == "System Administrator"
  }

  predicate SystemRole(persona: string) {
    |persona| >= 8 && persona[..8] == "System /"
  }

  /** What the scope of a row says, the first that applies. */
  predicate ScopeFits(s: Sources, scope: string, persona: string, kind: string) {
    var cross := persona == "Multiple / Cross-persona";
    && (scope == "Growth role" <==> kind == "G-OS")
    && (scope == "Cross-persona" <==> kind != "G-OS" && cross)
    && (scope == "System engine" <==> kind != "G-OS" && !cross && SystemRole(persona))
    && (scope == "Platform or theme scope" <==> kind != "G-OS" && !cross && !SystemRole(persona) && Theme(persona))
    && (scope == "Operational role" <==>
          kind != "G-OS" && !cross && !SystemRole(persona) && !Theme(persona) && persona in s.operational)
    && (scope == "Named role" <==>
          kind != "G-OS" && !cross && !SystemRole(persona) && !Theme(persona) && persona !in s.operational)
  }

  lemma ScopeWords()
    ensures "Growth role" !in {"Cross-persona", "System engine", "Platform or theme scope", "Operational role"}
    ensures "Cross-persona" !in {"System engine", "Platform or theme scope", "Operational role", "Named role"}
    ensures "System engine" !in {"Platform or theme scope", "Operational role", "Named role"}
    ensures "Platform or theme scope" !in {"Operational role", "Named role"} && "Operational role" != "Named role"
    ensures "Growth role" != "Named role"
  {
    assert "Growth role"[0] == 'G' && "Cross-persona"[0] == 'C' && "System engine"[0] == 'S';
    assert "Platform or theme scope"[0] == 'P' && "Operational role"[0] == 'O' && "Named role"[0] == 'N';
  }

  lemma ThemeIs(persona: string)
    ensures IsTheme(persona) <==> Theme(persona)
  {
  }

  lemma ScopeExactly(s: Sources, persona: string, kind: string)
    ensures ScopeFits(s, ScopeClass(s, persona, kind), persona, kind)
  {
    ScopeWords();
    ThemeIs(persona);
    hide IsTheme, Theme;
  }

  /** Where a row is placed: by its id, else by its category without a step, else among the others. */
  predicate PlaceFits(s: Sources, r: ReviewedRow) {
    var here, category := Placement(r.flowId, r.flowName, r.step, r.flowModule), r.task.category;
    && (r.task.id in s.placed ==> here == s.placed[r.task.id])
    && (r.task.id !in s.placed && category in s.areas ==>
          && here.step == "" && here.flowId == s.areas[category].flowId && here.name == s.areas[category].name
          && here.area == s.areas[category].area)
    && (r.task.id !in s.placed && category !in s.areas ==>
          && here.flowId == "OTHER" && here.step == "" && here.area == ""
          && here.name == if category == "" then "Unassigned" else category)
  }

  /** The slice, the scope and the flow of a reviewed row. */
  lemma PlaceColumns(s: Sources, row: TaskRow)
    ensures
      var r := Review(s, row);
      && r.slice == s.sliceOf(row.id, row.kind) && ScopeFits(s, r.scope, row.persona, row.kind) && PlaceFits(s, r)
  {
    hide ApplyEvidence, AuthoredPriority, PreviousPriority, ScopeClass, PriorityDecision, Derive, AuditNote,
         EvidenceFor, Field, RefinePriority, ScopeFits;
    ScopeExactly(s, row.persona, row.kind);
  }

  /** In the rebuilt register row i is the reviewed current row i, but for the link of its flow. */
  lemma RebuiltRow(s: Sources, csv: seq<TaskRow>, i: nat)
    requires i < |Current(s, csv)|
    ensures |Rebuild(s, csv)| == |Current(s, csv)|
    ensures
      var r, review := Rebuild(s, csv)[i], Review(s, Current(s, csv)[i]);
      && r == review.(dependsOn := r.dependsOn) && (review.dependsOn != "" ==> r == review)
  {
    hide Review, Current, LinkedRow, Linked;
    PresetsStay(Reviews(s, Current(s, csv)), i);
  }
}

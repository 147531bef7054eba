/** The register rebuild: every stored row is restored, checked and re-derived, and the next run reads it back. */
module Register {
  import opened Decision
  import opened FlowLinks
  import opened Readiness
  import opened RegisterRows
  import opened Text
  import opened Wrappers

  /** A hard token is the name of an absent mechanism; the note of a soft one names the wrong mechanism. */
  datatype Kind = Hard | Soft

  function TokensOf(kind: Kind): seq<string> {
    match kind
    case Hard => [
      "pg_trgm", "GinIndex", "Shift+P", "Privacy Mode", "Z-score", "django-otp", "WebSocket", "location_tag",
      "TIME_BARRED", "206AB", "Ctrl+K", "Command Palette", "type-to-confirm", "hash chaining"]
    case Soft => ["SimpleHistory", "PlanQuotaExceeded", "Hindi/Gujarati", "Gujarati/Tamil"]
  }

  predicate IsTheme(persona: string) {
    persona in {
      "Statutory Compliance", "AI & Differentiation", "Architecture & Platform", "Hardware Integrations",
      "External Integrations", "All Roles", "Platform / SaaS Admin", "System Administrator"}
  }

  /** A hand-checked row: its note is replaced, and its category when one is given. */
  datatype Checked = Checked(category: Option<string>, note: string, audit: string)

  datatype Placement = Placement(flowId: string, name: string, step: string, area: string)

  /** Everything a run reads besides the register itself; `messages` gives the audit message listed beside a token. */
  datatype Sources = Sources(
    authored: map<string, string>,
    planned: map<string, string>,
    flowTasks: seq<TaskRow>,
    prereview: map<string, string>,
    blob: string,
    evidence: map<string, Evidence>,
    checked: map<string, Checked>,
    lowPhrases: seq<string>,
    highPhrases: seq<string>,
    identifiers: string -> seq<string>,
    messages: string -> string,
    skipped: set<string>,
    operational: set<string>,
    placed: map<string, Placement>,
    areas: map<string, Placement>,
    sliceOf: (string, string) -> string)

  // --- One row ---

  /** The first listed token that the text contains. */
  function Absent(tokens: seq<string>, text: string): Option<string> {
    if tokens == [] then None
    else if Contains(text, tokens[0]) then Some(tokens[0])
    else Absent(tokens[1..], text)
  }

  /** The identifiers of a note that count as code symbols. */
  function Symbols(words: seq<string>, skipped: set<string>, blob: string): seq<string> {
    if words == [] then []
    else
      var rest := Symbols(words[1..], skipped, blob);
      if |words[0]| >= 8 && words[0] !in skipped && Contains(blob, words[0]) then [words[0]] + rest else rest
  }

  /** The first of the longest, which a stable sort by falling length puts in front. */
  function Longest(words: seq<string>): (longest: string)
    ensures forall w :: w in words ==> |w| <= |longest|
    ensures words != [] ==> longest in words
  {
    if words == [] then ""
    else
      var rest := Longest(words[1..]);
      if |words[0]| >= |rest| then words[0] else rest
  }

  function CodeSymbol(s: Sources, note: string): string {
    Longest(Symbols(s.identifiers(note), s.skipped, s.blob))
  }

  datatype Finding = Finding(status: string, category: string, note: string, outcome: string, audit: string)

  /** Hand-checked rows first, then absent mechanisms, then code symbols. */
  function ApplyEvidence(s: Sources, row: TaskRow): Finding {
    var text := row.action + "\n" + row.notes;
    if row.id in s.checked then
      var spec := s.checked[row.id];
      var category := if spec.category.Some? then spec.category.value else row.category;
      Finding("Partial", category, spec.note, "Partial", spec.audit)
    else if Absent(TokensOf(Hard), text).Some? then
      Finding("Mechanism not found", row.category, row.notes, "Mechanism not found",
              s.messages(Absent(TokensOf(Hard), text).value))
    else if Absent(TokensOf(Soft), text).Some? then
      Finding("Partial", row.category, row.notes, "Partial", s.messages(Absent(TokensOf(Soft), text).value))
    else
      var hit := CodeSymbol(s, row.notes);
      if hit != "" then
        Finding(row.status, row.category, row.notes, "Code symbol found",
                "Matched " + hit + " in product code. This is not a functional test.")
      else Finding(row.status, row.category, row.notes, "Author assertion", "")
  }

  function LowerChar(c: char): char {
    if 'A' <= c <= 'Z' then c + 32 as char else c
  }

  function Lower(text: string): string {
    seq(|text|, i requires 0 <= i < |text| => LowerChar(text[i]))
  }

  predicate AnyPhrase(phrases: seq<string>, text: string) {
    exists i :: 0 <= i < |phrases| && Contains(text, Lower(phrases[i]))
  }

  /** Polish phrases in the action give P3, statutory ones P0, and otherwise the priority stays. */
  function RefinePriority(s: Sources, row: TaskRow): string {
    if AnyPhrase(s.lowPhrases, Lower(row.action)) then "P3"
    else if AnyPhrase(s.highPhrases, Lower(row.action)) then "P0"
    else row.priority
  }

  function FlowFor(s: Sources, id: string, category: string): Placement {
    if id in s.placed then s.placed[id]
    else if category in s.areas then s.areas[category].(step := "")
    else Placement("OTHER", if category == "" then "Unassigned" else category, "", "")
  }

  function ScopeClass(s: Sources, persona: string, kind: string): string {
    if kind == "G-OS" then "Growth role"
    else if persona == "Multiple / Cross-persona" then "Cross-persona"
    else if At(persona, "System /", 0) then "System engine"
    else if IsTheme(persona) then "Platform or theme scope"
    else if persona in s.operational then "Operational role"
    else "Named role"
  }

  /** The added flow task with this id; the last one when the table repeats an id. */
  function FlowTask(tasks: seq<TaskRow>, id: string): (r: Option<TaskRow>)
    ensures r.Some? ==> r.value in tasks && r.value.id == id
    ensures r.None? ==> forall task :: task in tasks ==> task.id != id
  {
    if tasks == [] then None
    else if tasks[|tasks| - 1].id == id then Some(tasks[|tasks| - 1])
    else FlowTask(tasks[..|tasks| - 1], id)
  }

  predicate Sourced(s: Sources, id: string) {
    id in s.authored || FlowTask(s.flowTasks, id).Some? || id in s.planned
  }

  /** The authored priority: from the filled workbook, else from the source tables, else as stored. */
  function AuthoredPriority(s: Sources, row: TaskRow): string {
    if row.id in s.authored then s.authored[row.id]
    else if FlowTask(s.flowTasks, row.id).Some? then FlowTask(s.flowTasks, row.id).value.priority
    else if row.id in s.planned then s.planned[row.id]
    else row.priority
  }

  function PreviousPriority(s: Sources, row: TaskRow): string {
    if row.id in s.prereview then s.prereview[row.id] else row.priority
  }

  /** The row's own twelve columns after the review. */
  function ReviewedTask(s: Sources, row: TaskRow): TaskRow {
    var restored := row.(priority := AuthoredPriority(s, row));
    var finding := ApplyEvidence(s, row);
    row.(category := finding.category, priority := RefinePriority(s, restored), status := finding.status,
         notes := finding.note)
  }

  function AuditNote(audit: string, decision: string): string {
    if decision == "Unchanged" then audit else (if audit == "" then "" else audit + " ") + decision
  }

  function EvidenceFor(s: Sources, id: string): Evidence {
    if id in s.evidence then s.evidence[id] else map[]
  }

  /** A reviewed row before the flows are linked. */
  function Review(s: Sources, row: TaskRow): ReviewedRow {
    var task := ReviewedTask(s, row);
    var finding := ApplyEvidence(s, row);
    var decision := PriorityDecision(AuthoredPriority(s, row), task.priority, PreviousPriority(s, row));
    var flow := FlowFor(s, task.id, task.category);
    ReviewedRow(
      task, s.sliceOf(task.id, task.kind), ScopeClass(s, task.persona, task.kind), AuthoredPriority(s, row),
      decision, finding.outcome, AuditNote(finding.audit, decision), flow.flowId, flow.name, flow.step, flow.area,
      Derive(task, finding.outcome, EvidenceFor(s, task.id)), Field(EvidenceFor(s, task.id), "Depends on"))
  }

  // --- The whole register ---

  /** A stored row, replaced by its added flow task when there is one. */
  function Refreshed(s: Sources, row: TaskRow): TaskRow {
    match FlowTask(s.flowTasks, row.id)
    case Some(task) => task
    case None => row
  }

  predicate Present(csv: seq<TaskRow>, id: string) {
    exists i :: 0 <= i < |csv| && csv[i].id == id
  }

  /** The first n added flow tasks that the register does not have yet. */
  function Missing(s: Sources, csv: seq<TaskRow>, n: nat): seq<TaskRow>
    requires n <= |s.flowTasks|
  {
    if n == 0 then []
    else Missing(s, csv, n - 1) + if Present(csv, s.flowTasks[n - 1].id) then [] else [s.flowTasks[n - 1]]
  }

  lemma {:induction false} MissingMembers(s: Sources, csv: seq<TaskRow>, n: nat)
    requires n <= |s.flowTasks|
    ensures forall task :: task in Missing(s, csv, n) <==> task in s.flowTasks[..n] && !Present(csv, task.id)
  {
    if n > 0 {
      MissingMembers(s, csv, n - 1);
      assert s.flowTasks[..n] == s.flowTasks[..n - 1] + [s.flowTasks[n - 1]];
    }
  }

  function Current(s: Sources, csv: seq<TaskRow>): seq<TaskRow> {
    seq(|csv|, i requires 0 <= i < |csv| => Refreshed(s, csv[i])) + Missing(s, csv, |s.flowTasks|)
  }

  function Reviews(s: Sources, rows: seq<TaskRow>): seq<ReviewedRow> {
    hide Review;
    seq(|rows|, i requires 0 <= i < |rows| => Review(s, rows[i]))
  }

  ghost function Rebuild(s: Sources, csv: seq<TaskRow>): seq<ReviewedRow> {
    Linked(Reviews(s, Current(s, csv)))
  }

  /** The twelve columns that are written back. */
  function Stored(rows: seq<ReviewedRow>): seq<TaskRow> {
    seq(|rows|, i requires 0 <= i < |rows| => rows[i].task)
  }

  method RefreshRows(s: Sources, csv: seq<TaskRow>) returns (current: seq<TaskRow>, present: set<string>)
    ensures current == seq(|csv|, i requires 0 <= i < |csv| => Refreshed(s, csv[i]))
    ensures forall id :: id in present <==> Present(csv, id)
  {
    hide FlowTask;
    current, present := [], {};
    for i := 0 to |csv|
      invariant current == seq(i, k requires 0 <= k < i => Refreshed(s, csv[k]))
      invariant forall id :: id in present <==> Present(csv[..i], id)
    {
      var flow := FlowTask(s.flowTasks, csv[i].id);
      var row := if flow.Some? then flow.value else csv[i];
      current := current + [row];
      present := present + {row.id};
      PresentNext(csv, i);
      hide Present;
    }
    assert csv[..|csv|] == csv;
  }

  /** The rows under review: stored rows refreshed, then missing flow tasks appended. */
  method CurrentRows(s: Sources, csv: seq<TaskRow>) returns (current: seq<TaskRow>)
    ensures current == Current(s, csv)
  {
    hide Present, Refreshed;
    var present: set<string>;
    current, present := RefreshRows(s, csv);
    ghost var refreshed := current;
    for n := 0 to |s.flowTasks|
      invariant current == refreshed + Missing(s, csv, n)
    {
      assert current + [s.flowTasks[n]] == refreshed + (Missing(s, csv, n) + [s.flowTasks[n]]);
      if s.flowTasks[n].id !in present {
        current := current + [s.flowTasks[n]];
      }
    }
  }

  method LoadRows(s: Sources, csv: seq<TaskRow>) returns (reviewed: array<ReviewedRow>)
    ensures fresh(reviewed) && reviewed[..] == Rebuild(s, csv)
  {
    hide Review, Linked, Current;
    var current := CurrentRows(s, csv);
    var rows: seq<ReviewedRow> := [];
    for i := 0 to |current|
      invariant rows == seq(i, k requires 0 <= k < i => Review(s, current[k]))
    {
      rows := rows + [Review(s, current[i])];
    }
    reviewed := new ReviewedRow[|rows|](i requires 0 <= i < |rows| => rows[i]);
    assert reviewed[..] == rows == Reviews(s, current);
    LinkFlowDependencies(reviewed);
  }

  lemma {:induction false} NoneMissing(s: Sources, csv: seq<TaskRow>, n: nat)
    requires n <= |s.flowTasks| && forall task :: task in s.flowTasks ==> Present(csv, task.id)
    ensures Missing(s, csv, n) == []
  {
    if n > 0 {
      NoneMissing(s, csv, n - 1);
      assert s.flowTasks[n - 1] in s.flowTasks;
    }
  }

  lemma PresentNext(csv: seq<TaskRow>, i: nat)
    requires i < |csv|
    ensures forall id :: Present(csv[..i + 1], id) <==> Present(csv[..i], id) || id == csv[i].id
  {
    forall id
      ensures Present(csv[..i + 1], id) <==> Present(csv[..i], id) || id == csv[i].id
    {
      if Present(csv[..i], id) {
        var k :| 0 <= k < i && csv[..i][k].id == id;
        assert csv[..i + 1][k].id == id;
      }
      assert csv[..i + 1][i] == csv[i];
    }
  }

  /** The rows under review: the stored ones in their places, each replaced by the last added flow task of its id if
      there is one, and then the added flow tasks that are not stored, in table order. */
  lemma CurrentExactly(s: Sources, csv: seq<TaskRow>) returns (added: seq<nat>)
    ensures |Current(s, csv)| == |csv| + |added|
    ensures forall i :: 0 <= i < |csv| ==>
      && (forall k :: LastTask(s.flowTasks, csv[i].id, k) ==> Current(s, csv)[i] == s.flowTasks[k])
      && (!Present(s.flowTasks, csv[i].id) ==> Current(s, csv)[i] == csv[i])
    ensures forall n :: 0 <= n < |added| ==>
      added[n] < |s.flowTasks| && Current(s, csv)[|csv| + n] == s.flowTasks[added[n]]
    ensures forall n, m :: 0 <= n < m < |added| ==> added[n] < added[m]
    ensures forall k: nat :: k in added <==> k < |s.flowTasks| && !Present(csv, s.flowTasks[k].id)
  {
    added := MissingIndices(s, csv, |s.flowTasks|);
    hide Missing;
    forall i | 0 <= i < |csv|
      ensures forall k :: LastTask(s.flowTasks, csv[i].id, k) ==> Refreshed(s, csv[i]) == s.flowTasks[k]
      ensures !Present(s.flowTasks, csv[i].id) ==> Refreshed(s, csv[i]) == csv[i]
    {
      RefreshedExactly(s, csv[i]);
    }
    hide LastTask, Present, Refreshed;
  }

  /** Task k is the last one with this id. */
  predicate LastTask(tasks: seq<TaskRow>, id: string, k: int) {
    0 <= k < |tasks| && tasks[k].id == id && forall j :: k < j < |tasks| ==> tasks[j].id != id
  }

  lemma {:induction false} FlowTaskLast(tasks: seq<TaskRow>, id: string, k: nat)
    requires LastTask(tasks, id, k)
    ensures FlowTask(tasks, id) == Some(tasks[k])
  {
    var n := |tasks| - 1;
    if k < n {
      FlowTaskLast(tasks[..n], id, k);
    }
  }

  lemma {:induction false} FlowTaskNone(tasks: seq<TaskRow>, id: string)
    requires !Present(tasks, id)
    ensures FlowTask(tasks, id) == None
  {
    if tasks != [] {
      var n := |tasks| - 1;
      assert tasks[n].id != id;
      FlowTaskNone(tasks[..n], id);
    }
  }

  lemma FlowTaskExactly(tasks: seq<TaskRow>, id: string)
    ensures forall k :: LastTask(tasks, id, k) ==> FlowTask(tasks, id) == Some(tasks[k])
    ensures !Present(tasks, id) ==> FlowTask(tasks, id) == None
    ensures FlowTask(tasks, id).None? ==> !Present(tasks, id)
  {
    forall k | LastTask(tasks, id, k)
      ensures FlowTask(tasks, id) == Some(tasks[k])
    {
      FlowTaskLast(tasks, id, k);
    }
    if !Present(tasks, id) {
      FlowTaskNone(tasks, id);
    }
  }

  lemma RefreshedExactly(s: Sources, row: TaskRow)
    ensures forall k :: LastTask(s.flowTasks, row.id, k) ==> Refreshed(s, row) == s.flowTasks[k]
    ensures !Present(s.flowTasks, row.id) ==> Refreshed(s, row) == row
  {
    hide FlowTask, Present, LastTask;
    FlowTaskExactly(s.flowTasks, row.id);
  }

  lemma {:induction false} MissingIndices(s: Sources, csv: seq<TaskRow>, n: nat) returns (added: seq<nat>)
    requires n <= |s.flowTasks|
    ensures |added| == |Missing(s, csv, n)|
    ensures forall i :: 0 <= i < |added| ==> added[i] < n && Missing(s, csv, n)[i] == s.flowTasks[added[i]]
    ensures forall i, j :: 0 <= i < j < |added| ==> added[i] < added[j]
    ensures forall k: nat :: k in added <==> k < n && !Present(csv, s.flowTasks[k].id)
  {
    hide Present;
    added := [];
    if n > 0 {
      added := MissingIndices(s, csv, n - 1);
      if !Present(csv, s.flowTasks[n - 1].id) {
        added := added + [n - 1];
      }
    }
  }

  // --- What a finding means ---

  predicate Listed(tokens: seq<string>, token: string) {
    exists k :: 0 <= k < |tokens| && tokens[k] == token
  }

  lemma {:induction false} NoneAbsent(tokens: seq<string>, text: string, k: nat)
    requires Absent(tokens, text).None? && k < |tokens|
    ensures !Contains(text, tokens[k])
  {
    if k > 0 {
      NoneAbsent(tokens[1..], text, k - 1);
    }
  }

  /** Token k is the first listed one that the text names. */
  predicate FirstNamed(tokens: seq<string>, text: string, k: nat) {
    k < |tokens| && Contains(text, tokens[k]) && forall j :: 0 <= j < k ==> !Contains(text, tokens[j])
  }

  /** What is reported is the first listed token that the text names. */
  lemma {:induction false} FirstAbsent(tokens: seq<string>, text: string) returns (k: nat)
    requires Absent(tokens, text).Some?
    ensures FirstNamed(tokens, text, k) && Absent(tokens, text) == Some(tokens[k])
  {
    if Contains(text, tokens[0]) {
      k := 0;
    } else {
      var rest := tokens[1..];
      k := FirstAbsent(rest, text);
      assert rest[k] == tokens[k + 1];
      assert forall j :: 0 < j < k + 1 ==> tokens[j] == rest[j - 1];
      k := k + 1;
    }
  }

  /** The text names one of the tokens. */
  predicate Names(text: string, tokens: seq<string>) {
    exists k :: 0 <= k < |tokens| && Contains(text, tokens[k])
  }

  lemma AbsentExactly(tokens: seq<string>, text: string)
    ensures Absent(tokens, text).Some? <==> Names(text, tokens)
  {
    if Absent(tokens, text).Some? {
      var k := FirstAbsent(tokens, text);
    } else {
      forall k | 0 <= k < |tokens|
        ensures !Contains(text, tokens[k])
      {
        NoneAbsent(tokens, text, k);
      }
    }
  }

  predicate IsSymbol(s: Sources, note: string, word: string) {
    word in s.identifiers(note) && |word| >= 8 && word !in s.skipped && Contains(s.blob, word)
  }

  lemma {:induction false} SymbolsExactly(words: seq<string>, skipped: set<string>, blob: string, word: string)
    ensures word in Symbols(words, skipped, blob) <==>
      word in words && |word| >= 8 && word !in skipped && Contains(blob, word)
  {
    if words != [] {
      SymbolsExactly(words[1..], skipped, blob, word);
    }
  }

  /** A note's code symbol is one of its symbols in the product code and no other is longer; there is none
      exactly when no symbol of the note is in the code. */
  lemma CodeSymbolExactly(s: Sources, note: string)
    ensures CodeSymbol(s, note) != "" ==> IsSymbol(s, note, CodeSymbol(s, note))
    ensures forall word :: IsSymbol(s, note, word) ==> 8 <= |word| <= |CodeSymbol(s, note)|
  {
    hide Contains;
    forall word
      ensures word in Symbols(s.identifiers(note), s.skipped, s.blob) <==> IsSymbol(s, note, word)
    {
      SymbolsExactly(s.identifiers(note), s.skipped, s.blob, word);
    }
  }

  /** Word k of the note is the first of its longest symbols. */
  predicate FirstLongest(s: Sources, note: string, k: nat) {
    var words := s.identifiers(note);
    && k < |words| && IsSymbol(s, note, words[k])
    && forall j :: 0 <= j < |words| && IsSymbol(s, note, words[j]) ==>
         |words[j]| <= |words[k]| && (j < k ==> |words[j]| < |words[k]|)
  }

  predicate Counts(word: string, skipped: set<string>, blob: string) {
    |word| >= 8 && word !in skipped && Contains(blob, word)
  }

  lemma {:induction false} LongestIsFirst(words: seq<string>, skipped: set<string>, blob: string, k: nat)
    requires k < |words| && Counts(words[k], skipped, blob)
    requires forall j :: 0 <= j < |words| && Counts(words[j], skipped, blob) ==>
      |words[j]| <= |words[k]| && (j < k ==> |words[j]| < |words[k]|)
    ensures Longest(Symbols(words, skipped, blob)) == words[k]
  {
    hide Contains;
    var rest := words[1..];
    if k == 0 {
      var found := Symbols(rest, skipped, blob);
      var longest := Longest(found);
      if found != [] {
        SymbolsExactly(rest, skipped, blob, longest);
        var j :| 0 <= j < |rest| && rest[j] == longest;
        assert words[j + 1] == longest;
      }
      assert ([words[0]] + found)[1..] == found;
    } else {
      forall j | 0 <= j < |rest|
        ensures rest[j] == words[j + 1]
      {
      }
      LongestIsFirst(rest, skipped, blob, k - 1);
      assert ([words[0]] + Symbols(rest, skipped, blob))[1..] == Symbols(rest, skipped, blob);
    }
  }

  /** The code symbol reported is the first of the longest. */
  lemma CodeSymbolFirst(s: Sources, note: string, k: nat)
    requires FirstLongest(s, note, k)
    ensures CodeSymbol(s, note) == s.identifiers(note)[k]
  {
    var words := s.identifiers(note);
    forall j | 0 <= j < |words|
      ensures IsSymbol(s, note, words[j]) <==> Counts(words[j], s.skipped, s.blob)
    {
    }
    hide Contains, IsSymbol, Counts;
    LongestIsFirst(words, s.skipped, s.blob, k);
  }

  /** When the status changes and to what: a hand-checked row and a row that names a wrong mechanism become
      Partial, a row that names an absent one becomes Mechanism not found, and any other row keeps its status,
      category and note, with the outcome saying whether a code symbol was found. */
  lemma FindingExactly(s: Sources, row: TaskRow)
    ensures
      var text := row.action + "\n" + row.notes;
      var f := ApplyEvidence(s, row);
      && (f.outcome == "Mechanism not found" <==> row.id !in s.checked && Names(text, TokensOf(Hard)))
      && (f.outcome == "Partial" <==>
            row.id in s.checked || (Names(text, TokensOf(Soft)) && !Names(text, TokensOf(Hard))))
      && (f.outcome == "Code symbol found" <==>
            (row.id !in s.checked && !Names(text, TokensOf(Hard)) && !Names(text, TokensOf(Soft))
             && exists word :: IsSymbol(s, row.notes, word)))
      && (f.outcome in {"Mechanism not found", "Partial"} ==> f.status == f.outcome)
      && (f.outcome !in {"Mechanism not found", "Partial"} ==> f.status == row.status)
      && (row.id !in s.checked ==> f.category == row.category && f.note == row.notes)
      && (row.id in s.checked ==>
            && f.note == s.checked[row.id].note && f.audit == s.checked[row.id].audit
            && (s.checked[row.id].category.Some? ==> Some(f.category) == s.checked[row.id].category)
            && (s.checked[row.id].category.None? ==> f.category == row.category))
      && (f.outcome == "Author assertion" ==> f.audit == "")
      && f.outcome in {"Mechanism not found", "Partial", "Code symbol found", "Author assertion"}
  {
    var text := row.action + "\n" + row.notes;
    hide Absent, Names, CodeSymbol, IsSymbol, TokensOf;
    AbsentExactly(TokensOf(Hard), text);
    AbsentExactly(TokensOf(Soft), text);
    CodeSymbolExactly(s, row.notes);
  }

  lemma {:induction false} FirstNamedIs(tokens: seq<string>, text: string, k: nat)
    requires FirstNamed(tokens, text, k)
    ensures Absent(tokens, text) == Some(tokens[k])
  {
    if k > 0 {
      FirstNamedIs(tokens[1..], text, k - 1);
    }
  }

  /** The audit message of a row that is not hand-checked: that of the first absent mechanism it names, else of the
      first wrong one, else the first of its longest code symbols. */
  lemma AuditExactly(s: Sources, row: TaskRow, k: nat)
    requires row.id !in s.checked
    ensures
      var text := row.action + "\n" + row.notes;
      var audit := ApplyEvidence(s, row).audit;
      && (FirstNamed(TokensOf(Hard), text, k) ==> audit == s.messages(TokensOf(Hard)[k]))
      && (FirstNamed(TokensOf(Soft), text, k) && !Names(text, TokensOf(Hard)) ==>
            audit == s.messages(TokensOf(Soft)[k]))
      && (FirstLongest(s, row.notes, k) && !Names(text, TokensOf(Hard)) && !Names(text, TokensOf(Soft)) ==>
            audit == "Matched " + s.identifiers(row.notes)[k] + " in product code. This is not a functional test.")
  {
    var text := row.action + "\n" + row.notes;
    hide Absent, Names, CodeSymbol, FirstLongest, TokensOf, FirstNamed;
    AbsentExactly(TokensOf(Hard), text);
    AbsentExactly(TokensOf(Soft), text);
    if FirstNamed(TokensOf(Hard), text, k) {
      FirstNamedIs(TokensOf(Hard), text, k);
    }
    if FirstNamed(TokensOf(Soft), text, k) {
      FirstNamedIs(TokensOf(Soft), text, k);
    }
    if FirstLongest(s, row.notes, k) {
      CodeSymbolFirst(s, row.notes, k);
      SymbolLength(s, row.notes, k);
    }
  }

  lemma SymbolLength(s: Sources, note: string, k: nat)
    requires FirstLongest(s, note, k)
    ensures s.identifiers(note)[k] != ""
  {
  }

  /** The words that count as absent and as wrong mechanisms, in the order in which they are looked for. */
  lemma TokenWords()
    ensures
      var hard, soft := TokensOf(Hard), TokensOf(Soft);
      && |hard| == 14 && |soft| == 4
      && hard[0] == "pg_trgm" && hard[1] == "GinIndex" && hard[2] == "Shift+P" && hard[3] == "Privacy Mode"
      && hard[4] == "Z-score" && hard[5] == "django-otp" && hard[6] == "WebSocket" && hard[7] == "location_tag"
      && hard[8] == "TIME_BARRED" && hard[9] == "206AB" && hard[10] == "Ctrl+K" && hard[11] == "Command Palette"
      && hard[12] == "type-to-confirm" && hard[13] == "hash chaining"
      && soft[0] == "SimpleHistory" && soft[1] == "PlanQuotaExceeded" && soft[2] == "Hindi/Gujarati"
      && soft[3] == "Gujarati/Tamil"
  {
  }

  /** Which priority a review settles on: a polish phrase in the action wins over a statutory one, either wins over
      the authored priority, and nothing else changes it. */
  lemma FinalPriority(s: Sources, row: TaskRow)
    ensures ReviewedTask(s, row).priority ==
      if AnyPhrase(s.lowPhrases, Lower(row.action)) then "P3"
      else if AnyPhrase(s.highPhrases, Lower(row.action)) then "P0"
      else AuthoredPriority(s, row)
  {
    hide AnyPhrase, Lower, AuthoredPriority, ApplyEvidence;
  }

  /** Which rows the priority sheets list as changed, and which they count as kept: a kept row is one that a
      phrase moved away from its authored priority to the very priority it had before. */
  lemma PrioritySheets(s: Sources, row: TaskRow)
    ensures
      var decision, authored, previous := Review(s, row).decision, AuthoredPriority(s, row), PreviousPriority(s, row);
      var polish, statutory := AnyPhrase(s.lowPhrases, Lower(row.action)), AnyPhrase(s.highPhrases, Lower(row.action));
      && (CountedKept(decision) <==>
            (polish && previous == "P3" != authored) || (!polish && statutory && previous == "P0" != authored))
      && (ListedChanged(decision) <==> previous != if polish then "P3" else if statutory then "P0" else authored)
  {
    hide ReviewedTask, ApplyEvidence, PriorityDecision, Derive, FlowFor, ScopeClass, AuditNote, EvidenceFor, Field,
         AuthoredPriority, PreviousPriority, AnyPhrase, Lower, ListedChanged, CountedKept;
    var final, authored := ReviewedTask(s, row).priority, AuthoredPriority(s, row);
    FinalPriority(s, row);
    DecisionKinds(authored, final, PreviousPriority(s, row));
    assert Review(s, row).decision == PriorityDecision(authored, final, PreviousPriority(s, row));
    hide Review;
  }

  // --- Reading the output back ---

  ghost predicate Distinct(rows: seq<TaskRow>) {
    forall i, j :: 0 <= i < j < |rows| ==> rows[i].id != rows[j].id
  }

  /** Checking a row again once its finding is stored gives the same finding. */
  lemma FindingAgain(s: Sources, row: TaskRow, priority: string)
    ensures
      var f := ApplyEvidence(s, row);
      ApplyEvidence(s, row.(category := f.category, priority := priority, status := f.status, notes := f.note)) == f
  {
    hide Absent, CodeSymbol, TokensOf;
  }

  /** A reviewed row reviews to itself in all twelve columns. */
  lemma ReviewedTaskAgain(s: Sources, row: TaskRow)
    ensures ReviewedTask(s, ReviewedTask(s, row)) == ReviewedTask(s, row)
    ensures ApplyEvidence(s, ReviewedTask(s, row)) == ApplyEvidence(s, row)
  {
    FindingAgain(s, row, ReviewedTask(s, row).priority);
    hide ApplyEvidence, Lower, AnyPhrase, FlowTask;
  }

  /** What a second review of a row changes: nothing, exactly when the stored priority was already the final
      one, or it has a recorded authored priority and a recorded pre-review one. */
  lemma ReviewAgain(s: Sources, row: TaskRow)
    ensures
      var again := Review(s, ReviewedTask(s, row));
      var sourced := Sourced(s, row.id) && row.id in s.prereview;
      again == Review(s, row) <==> row.priority == ReviewedTask(s, row).priority || sourced
  {
    var task := ReviewedTask(s, row);
    ReviewedTaskAgain(s, row);
    var first, again := Review(s, row), Review(s, task);
    hide Absent, Contains, Longest, Symbols, Lower, AnyPhrase, FlowTask, ApplyEvidence, Derive, FlowFor, ScopeClass,
         PriorityDecision;
    if row.priority != task.priority {
      if !Sourced(s, row.id) {
        assert first.authored == row.priority && again.authored == task.priority;
      } else if row.id !in s.prereview {
        ChangeIsVisible(AuthoredPriority(s, row), task.priority, row.priority, AuthoredPriority(s, task));
      }
    }
  }

  lemma FlowTaskFound(tasks: seq<TaskRow>, i: nat)
    requires i < |tasks| && Distinct(tasks)
    ensures FlowTask(tasks, tasks[i].id) == Some(tasks[i])
  {
    if i < |tasks| - 1 {
      FlowTaskFound(tasks[..|tasks| - 1], i);
    }
  }

  lemma PresentInEither(a: seq<TaskRow>, b: seq<TaskRow>, id: string)
    ensures Present(a + b, id) <==> Present(a, id) || Present(b, id)
  {
    assert forall i :: 0 <= i < |a| ==> (a + b)[i] == a[i];
    assert forall i :: 0 <= i < |b| ==> (a + b)[|a| + i] == b[i];
  }

  lemma MissingIds(s: Sources, csv: seq<TaskRow>, id: string)
    ensures Present(Missing(s, csv, |s.flowTasks|), id) <==> Present(s.flowTasks, id) && !Present(csv, id)
  {
    var missing := Missing(s, csv, |s.flowTasks|);
    MissingMembers(s, csv, |s.flowTasks|);
    assert s.flowTasks[..|s.flowTasks|] == s.flowTasks;
    hide Missing;
    if Present(missing, id) {
      var k :| 0 <= k < |missing| && missing[k].id == id;
      assert missing[k] in missing;
      var n :| 0 <= n < |s.flowTasks| && s.flowTasks[n] == missing[k];
    } else if Present(s.flowTasks, id) {
      var n :| 0 <= n < |s.flowTasks| && s.flowTasks[n].id == id;
      assert s.flowTasks[n] in s.flowTasks;
    }
  }

  /** The ids under review: the stored ones and those of the added flow tasks. */
  lemma CurrentIds(s: Sources, csv: seq<TaskRow>, id: string)
    ensures Present(Current(s, csv), id) <==> Present(csv, id) || Present(s.flowTasks, id)
  {
    var refreshed := seq(|csv|, i requires 0 <= i < |csv| => Refreshed(s, csv[i]));
    assert forall i :: 0 <= i < |csv| ==> refreshed[i].id == csv[i].id;
    assert Present(refreshed, id) <==> Present(csv, id);
    hide Missing, Present, Refreshed;
    PresentInEither(refreshed, Missing(s, csv, |s.flowTasks|), id);
    MissingIds(s, csv, id);
  }

  /** A row under review that belongs to an added flow task is that task. */
  lemma FlowRowsAreFresh(s: Sources, csv: seq<TaskRow>, i: nat)
    requires Distinct(s.flowTasks) && i < |Current(s, csv)|
    ensures
      var row := Current(s, csv)[i];
      FlowTask(s.flowTasks, row.id).Some? ==> FlowTask(s.flowTasks, row.id).value == row
  {
    var row := Current(s, csv)[i];
    if i < |csv| {
    } else {
      var missing := Missing(s, csv, |s.flowTasks|);
      MissingMembers(s, csv, |s.flowTasks|);
      assert row in missing;
      assert s.flowTasks[..|s.flowTasks|] == s.flowTasks;
      var n :| 0 <= n < |s.flowTasks| && s.flowTasks[n] == row;
      FlowTaskFound(s.flowTasks, n);
    }
  }

  lemma StoredRows(s: Sources, csv: seq<TaskRow>)
    ensures |Rebuild(s, csv)| == |Stored(Rebuild(s, csv))| == |Current(s, csv)|
    ensures forall i :: 0 <= i < |Current(s, csv)| ==>
      && Stored(Rebuild(s, csv))[i] == ReviewedTask(s, Current(s, csv)[i])
      && Stored(Rebuild(s, csv))[i].id == Current(s, csv)[i].id
  {
    hide LinkedRow, ReviewedTask, Current, Review;
    var current := Current(s, csv);
    var reviews := Reviews(s, current);
    assert forall i :: 0 <= i < |reviews| ==> Linked(reviews)[i] == LinkedRow(reviews, i);
    forall i | 0 <= i < |current|
      ensures reviews[i].task == ReviewedTask(s, current[i])
      ensures ReviewedTask(s, current[i]).id == current[i].id
    {
      ReviewedColumns(s, current[i]);
    }
  }

  lemma ReviewedColumns(s: Sources, row: TaskRow)
    ensures Review(s, row).task == ReviewedTask(s, row) && ReviewedTask(s, row).id == row.id
  {
    hide ReviewedTask, ApplyEvidence, AuthoredPriority, PreviousPriority, FlowFor, ScopeClass, PriorityDecision,
         Derive, AuditNote, EvidenceFor, Field;
    SameId(s, row);
  }

  lemma SameId(s: Sources, row: TaskRow)
    ensures ReviewedTask(s, row).id == row.id
  {
    hide ApplyEvidence, RefinePriority, AuthoredPriority;
  }

  /** Every added flow task is in the stored register, so a second run misses none. */
  lemma NoneMissingAgain(s: Sources, csv: seq<TaskRow>)
    ensures Missing(s, Stored(Rebuild(s, csv)), |s.flowTasks|) == []
  {
    var current, stored := Current(s, csv), Stored(Rebuild(s, csv));
    StoredRows(s, csv);
    hide Current, Rebuild, Stored, ReviewedTask, Missing;
    forall task | task in s.flowTasks
      ensures Present(stored, task.id)
    {
      var n :| 0 <= n < |s.flowTasks| && s.flowTasks[n] == task;
      assert Present(s.flowTasks, task.id);
      CurrentIds(s, csv, task.id);
      var i :| 0 <= i < |current| && current[i].id == task.id;
      assert stored[i].id == task.id;
    }
    NoneMissing(s, stored, |s.flowTasks|);
  }

  /** The rows that a second run reviews. */
  lemma CurrentAgain(s: Sources, csv: seq<TaskRow>)
    requires Distinct(s.flowTasks)
    ensures
      var current, again := Current(s, csv), Current(s, Stored(Rebuild(s, csv)));
      |again| == |current| && forall i :: 0 <= i < |current| ==>
        again[i] == if FlowTask(s.flowTasks, current[i].id).Some? then current[i] else ReviewedTask(s, current[i])
  {
    hide Missing, FlowTask, Rebuild, Stored, ReviewedTask;
    var current, stored := Current(s, csv), Stored(Rebuild(s, csv));
    StoredRows(s, csv);
    NoneMissingAgain(s, csv);
    forall i | 0 <= i < |current|
      ensures stored[i].id == current[i].id
      ensures FlowTask(s.flowTasks, current[i].id).Some? ==> FlowTask(s.flowTasks, current[i].id).value == current[i]
    {
      FlowRowsAreFresh(s, csv, i);
    }
  }

  /** Rebuilding the rebuilt register gives the same twelve columns, row for row. */
  lemma RebuildIsFixed(s: Sources, csv: seq<TaskRow>)
    requires Distinct(s.flowTasks)
    ensures Stored(Rebuild(s, Stored(Rebuild(s, csv)))) == Stored(Rebuild(s, csv))
  {
    hide Current, ReviewedTask, Rebuild, FlowTask, Stored;
    var once := Stored(Rebuild(s, csv));
    var current, again := Current(s, csv), Current(s, once);
    CurrentAgain(s, csv);
    StoredRows(s, csv);
    StoredRows(s, once);
    forall i | 0 <= i < |current|
      ensures Stored(Rebuild(s, once))[i] == once[i]
    {
      ReviewedTaskAgain(s, current[i]);
    }
  }

  lemma ConcatDistinct(a: seq<TaskRow>, b: seq<TaskRow>)
    requires Distinct(a) && Distinct(b) && forall x, y :: x in a && y in b ==> x.id != y.id
    ensures Distinct(a + b)
  {
    assert forall i :: 0 <= i < |a| ==> a[i] in a;
    assert forall i :: 0 <= i < |b| ==> b[i] in b;
  }

  lemma CurrentDistinct(s: Sources, csv: seq<TaskRow>)
    requires Distinct(s.flowTasks) && Distinct(csv)
    ensures Distinct(Current(s, csv))
  {
    var refreshed := seq(|csv|, i requires 0 <= i < |csv| => Refreshed(s, csv[i]));
    var missing := Missing(s, csv, |s.flowTasks|);
    MissingMembers(s, csv, |s.flowTasks|);
    MissingDistinct(s, csv, |s.flowTasks|);
    assert forall i :: 0 <= i < |csv| ==> refreshed[i].id == csv[i].id;
    assert Distinct(refreshed);
    hide Refreshed, Missing, Distinct;
    forall x, y | x in refreshed && y in missing
      ensures x.id != y.id
    {
      var i :| 0 <= i < |csv| && refreshed[i] == x;
      assert Present(csv, csv[i].id);
    }
    ConcatDistinct(refreshed, missing);
  }

  /** Distinct ids stay distinct, so every dependency names one row. */
  lemma IdsStayDistinct(s: Sources, csv: seq<TaskRow>)
    requires Distinct(s.flowTasks)
    requires Distinct(csv)
    ensures DistinctIds(Rebuild(s, csv))
  {
    hide Rebuild, ReviewedTask, Current;
    var rebuilt := Rebuild(s, csv);
    StoredRows(s, csv);
    CurrentDistinct(s, csv);
    assert forall i :: 0 <= i < |rebuilt| ==> rebuilt[i].task == Stored(rebuilt)[i];
  }

  lemma ListedEarlier(s: Sources, csv: seq<TaskRow>, n: nat, task: TaskRow)
    requires Distinct(s.flowTasks) && n < |s.flowTasks| && task in Missing(s, csv, n)
    ensures task.id != s.flowTasks[n].id
  {
    MissingMembers(s, csv, n);
    var k :| 0 <= k < n && s.flowTasks[..n][k] == task;
    hide Missing;
  }

  lemma {:induction false} MissingDistinct(s: Sources, csv: seq<TaskRow>, n: nat)
    requires Distinct(s.flowTasks) && n <= |s.flowTasks|
    ensures Distinct(Missing(s, csv, n))
  {
    if n > 0 {
      MissingDistinct(s, csv, n - 1);
      hide Distinct;
      var before := Missing(s, csv, n - 1);
      forall task | task in before
        ensures task.id != s.flowTasks[n - 1].id
      {
        ListedEarlier(s, csv, n - 1, task);
      }
      AppendDistinct(before, s.flowTasks[n - 1]);
      assert before + [] == before;
    } else {
      assert Missing(s, csv, n) == [];
    }
  }

  lemma AppendDistinct(rows: seq<TaskRow>, row: TaskRow)
    requires Distinct(rows) && forall r :: r in rows ==> r.id != row.id
    ensures Distinct(rows + [row])
  {
    assert forall i :: 0 <= i < |rows| ==> rows[i] in rows;
  }

  /** Without dependencies set by hand, no chain of dependencies in a rebuilt register meets a row twice. */
  lemma NoDependencyCycle(s: Sources, csv: seq<TaskRow>, path: seq<nat>, p: nat, q: nat)
    requires Distinct(s.flowTasks) && Distinct(csv) && NoPresets(Reviews(s, Current(s, csv)))
    requires Walk(Rebuild(s, csv), path) && p < q < |path|
    ensures path[p] != path[q]
  {
    hide Current, Review, NoPresets;
    var current, reviews := Current(s, csv), Reviews(s, Current(s, csv));
    CurrentDistinct(s, csv);
    forall i | 0 <= i < |current|
      ensures reviews[i].task.id == current[i].id
    {
      ReviewedColumns(s, current[i]);
    }
    assert DistinctIds(reviews);
    hide Reviews, DistinctIds;
    WalksGoBack(reviews, path, p, q);
  }

  /** The link of a row depends on the ids, flows and steps alone. */
  lemma SameLinks(rows: seq<ReviewedRow>, other: seq<ReviewedRow>, i: nat)
    requires |rows| == |other| && i < |rows|
    requires forall k :: 0 <= k < |rows| ==>
      && rows[k].task.id == other[k].task.id && rows[k].flowId == other[k].flowId
      && rows[k].step == other[k].step && rows[k].dependsOn == other[k].dependsOn
    ensures Linked(rows)[i].dependsOn == Linked(other)[i].dependsOn
  {
    assert Linked(rows)[i] == LinkedRow(rows, i) && Linked(other)[i] == LinkedRow(other, i);
    assert forall a: nat, b: nat :: Earlier(rows, a, b) <==> Earlier(other, a, b);
    assert forall a: nat, b: nat :: Previous(rows, a, b) <==> Previous(other, a, b);
    if j: nat :| Previous(rows, j, i) {
      LinkedToPrevious(rows, j, i);
      LinkedToPrevious(other, j, i);
    }
  }

  /** Whether a second run leaves every column of this row as it is: it is an added flow task, its stored priority is
      what its phrases give or without one its authored priority, or both earlier priorities are on record. */
  predicate Settled(s: Sources, row: TaskRow) {
    || FlowTask(s.flowTasks, row.id).Some?
    || row.priority == (
         if AnyPhrase(s.lowPhrases, Lower(row.action)) then "P3"
         else if AnyPhrase(s.highPhrases, Lower(row.action)) then "P0"
         else AuthoredPriority(s, row))
    || (Sourced(s, row.id) && row.id in s.prereview)
  }

  lemma ReviewPlace(s: Sources, row: TaskRow)
    ensures
      var once, again := Review(s, row), Review(s, ReviewedTask(s, row));
      once.task.id == again.task.id && once.flowId == again.flowId && once.step == again.step
      && once.dependsOn == again.dependsOn
  {
    ReviewedTaskAgain(s, row);
    hide ReviewedTask, ApplyEvidence, AuthoredPriority, PreviousPriority, Derive, ScopeClass, PriorityDecision;
  }

  predicate SamePlace(a: ReviewedRow, b: ReviewedRow) {
    a.task.id == b.task.id && a.flowId == b.flowId && a.step == b.step && a.dependsOn == b.dependsOn
  }

  lemma LinkedAlike(rows: seq<ReviewedRow>, other: seq<ReviewedRow>, i: nat)
    requires |rows| == |other| && i < |rows|
    requires forall k :: 0 <= k < |rows| ==> SamePlace(rows[k], other[k])
    ensures Linked(rows)[i] == Linked(other)[i] <==> rows[i] == other[i]
  {
    hide LinkedRow, Linked;
    SameLinks(rows, other, i);
    PresetsStay(rows, i);
    PresetsStay(other, i);
    assert SamePlace(rows[i], other[i]);
  }

  /** Reviewing the rows of the second run. */
  lemma ReviewedAgain(s: Sources, csv: seq<TaskRow>, k: nat)
    requires Distinct(s.flowTasks) && k < |Current(s, csv)|
    ensures
      var first, second := Reviews(s, Current(s, csv)), Reviews(s, Current(s, Stored(Rebuild(s, csv))));
      && |second| == |first| == |Current(s, csv)|
      && SamePlace(first[k], second[k])
      && (first[k] == second[k] <==> Settled(s, Current(s, csv)[k]))
  {
    hide Review, Current, Rebuild, Stored, ReviewedTask, FlowTask, Sourced, AnyPhrase, Lower, AuthoredPriority;
    CurrentAgain(s, csv);
    var row := Current(s, csv)[k];
    FinalPriority(s, row);
    ReviewAgain(s, row);
    ReviewPlace(s, row);
  }

  /** A second run reproduces every column of a row, the decision text and the dependency included, exactly
      when the row is settled: it is an added flow task, its stored priority was already the final one, or it
      has both a recorded authored priority and a recorded pre-review one. */
  lemma DerivedColumnsAgain(s: Sources, csv: seq<TaskRow>, i: nat)
    requires Distinct(s.flowTasks) && i < |Current(s, csv)|
    ensures |Rebuild(s, csv)| == |Rebuild(s, Stored(Rebuild(s, csv)))| == |Current(s, csv)|
    ensures Rebuild(s, Stored(Rebuild(s, csv)))[i] == Rebuild(s, csv)[i] <==> Settled(s, Current(s, csv)[i])
  {
    hide Current, Reviews, Stored, Settled, Linked, SamePlace, Review;
    var current, again := Current(s, csv), Current(s, Stored(Rebuild(s, csv)));
    var first, second := Reviews(s, current), Reviews(s, again);
    ReviewedAgain(s, csv, i);
    forall k | 0 <= k < |current|
      ensures SamePlace(first[k], second[k])
    {
      ReviewedAgain(s, csv, k);
    }
    LinkedAlike(first, second, i);
  }
}

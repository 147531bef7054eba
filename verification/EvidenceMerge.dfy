/** Test results merged into the evidence file: a later mapped test overrides, and nothing is invented. */
module EvidenceMerge {
  import opened Sorting
  import opened Text
  import opened Wrappers

  const FIELDS := [
    "Task ID", "Owner", "Target date", "Estimate days", "Depends on", "Blocked by", "Test case ID",
    "Last verified", "Verified by", "Verification result"]

  /** A line of a CSV file by column name; an absent cell reads as empty. */
  type Row = map<string, string>

  function Get(row: Row, field: string): string {
    if field in row then row[field] else ""
  }

  // --- The task-to-test map ---

  datatype Mapped = Mapped(test: string, task: string)

  predicate Space(c: char) {
    9 <= c as int <= 13 || 28 <= c as int <= 32
  }

  function StripLeft(s: string): string {
    if s != [] && Space(s[0]) then StripLeft(s[1..]) else s
  }

  function StripRight(s: string): string {
    if s != [] && Space(s[|s| - 1]) then StripRight(s[..|s| - 1]) else s
  }

  /** s.strip() */
  function Strip(s: string): string {
    StripRight(StripLeft(s))
  }

  /** Set a key of an ordered dictionary: a known key keeps its place. */
  function Put(entries: seq<Mapped>, test: string, task: string): seq<Mapped> {
    if entries == [] then [Mapped(test, task)]
    else if entries[0].test == test then [Mapped(test, task)] + entries[1..]
    else [entries[0]] + Put(entries[1..], test, task)
  }

  /** The line maps this test: neither cell is blank. */
  predicate Maps(line: Row) {
    Strip(Get(line, "Task ID")) != "" && Strip(Get(line, "Test case ID")) != ""
  }

  function LoadMap(lines: seq<Row>): seq<Mapped> {
    if lines == [] then []
    else
      var last, before := lines[|lines| - 1], LoadMap(lines[..|lines| - 1]);
      if Maps(last) then Put(before, Strip(Get(last, "Test case ID")), Strip(Get(last, "Task ID"))) else before
  }

  ghost predicate DistinctTests(entries: seq<Mapped>) {
    forall i, j :: 0 <= i < j < |entries| ==> entries[i].test != entries[j].test
  }

  lemma DistinctFirst(first: Mapped, rest: seq<Mapped>)
    requires DistinctTests(rest) && forall e :: e in rest ==> e.test != first.test
    ensures DistinctTests([first] + rest)
  {
  }

  lemma {:induction false} PutMembers(entries: seq<Mapped>, test: string, task: string)
    requires DistinctTests(entries)
    ensures DistinctTests(Put(entries, test, task))
    ensures forall e :: e in Put(entries, test, task) <==> e == Mapped(test, task) || (e in entries && e.test != test)
  {
    if entries != [] {
      var first, rest := entries[0], entries[1..];
      FirstOrRest(entries);
      assert forall e :: e in rest ==> e.test != first.test;
      if first.test != test {
        PutMembers(rest, test, task);
        FirstOrRest([first] + Put(rest, test, task));
        DistinctFirst(first, Put(rest, test, task));
      } else {
        FirstOrRest([Mapped(test, task)] + rest);
        DistinctFirst(Mapped(test, task), rest);
      }
      hide DistinctTests;
    }
  }

  /** The last line that maps this test. */
  predicate LastMapping(lines: seq<Row>, test: string, k: nat) {
    && k < |lines| && Maps(lines[k]) && Strip(Get(lines[k], "Test case ID")) == test
    && forall j :: k < j < |lines| && Maps(lines[j]) ==> Strip(Get(lines[j], "Test case ID")) != test
  }

  /** Each test is mapped once, to the id on its last line, and no blank id or test is mapped. */
  lemma {:induction false} LoadMapExactly(lines: seq<Row>, test: string, task: string)
    ensures DistinctTests(LoadMap(lines))
    ensures Mapped(test, task) in LoadMap(lines) <==>
      exists k: nat :: LastMapping(lines, test, k) && Strip(Get(lines[k], "Task ID")) == task
    ensures Mapped(test, task) in LoadMap(lines) ==> test != "" && task != ""
  {
    hide Strip, Get;
    if lines != [] {
      var n := |lines| - 1;
      var before := lines[..n];
      LoadMapExactly(before, test, task);
      assert lines == before + [lines[n]];
      var t := Strip(Get(lines[n], "Test case ID"));
      if Maps(lines[n]) {
        PutMembers(LoadMap(before), t, Strip(Get(lines[n], "Task ID")));
      }
      var own := Maps(lines[n]) && t == test;
      assert own ==> LastMapping(lines, test, n);
      forall k: nat
        ensures LastMapping(lines, test, k) <==> if own then k == n else LastMapping(before, test, k)
      {
        assert k < n ==> lines[k] == before[k];
      }
    }
  }

  // --- The test results ---

  datatype Case = Case(name: string, classname: string, failed: bool, skipped: bool)

  function Node(c: Case): string {
    if c.classname == "" then c.name else c.classname + "::" + c.name
  }

  function Outcome(c: Case): string {
    if c.skipped then "Skipped" else if c.failed then "Fail" else "Pass"
  }

  predicate Answers(c: Case, id: string) {
    Node(c) == id || c.name == id
  }

  /** The last case that answers to this id. */
  function LastCase(cases: seq<Case>, id: string): (r: Option<nat>)
    ensures r.Some? ==> r.value < |cases| && Answers(cases[r.value], id)
    ensures forall k :: 0 <= k < |cases| && (r.None? || r.value < k) ==> !Answers(cases[k], id)
  {
    hide Answers;
    if cases == [] then None
    else if Answers(cases[|cases| - 1], id) then Some(|cases| - 1)
    else LastCase(cases[..|cases| - 1], id)
  }

  /** The results by id are exactly the outcomes of the last cases. */
  ghost predicate ResultsOf(results: map<string, string>, cases: seq<Case>) {
    forall id :: (id in results <==> LastCase(cases, id).Some?)
      && (id in results ==> results[id] == Outcome(cases[LastCase(cases, id).value]))
  }

  ghost function Results(cases: seq<Case>): (results: map<string, string>)
    ensures ResultsOf(results, cases)
  {
    var ids := (set c | c in cases :: c.name) + (set c | c in cases :: Node(c));
    map id | id in ids && LastCase(cases, id).Some? :: Outcome(cases[LastCase(cases, id).value])
  }

  method JunitResults(cases: seq<Case>) returns (results: map<string, string>)
    ensures results == Results(cases)
  {
    results := map[];
    for i := 0 to |cases|
      invariant ResultsOf(results, cases[..i])
    {
      ghost var before := results;
      var result := if cases[i].skipped then "Skipped" else if cases[i].failed then "Fail" else "Pass";
      results := results[Node(cases[i]) := result];
      results := results[cases[i].name := result];
      OneMoreCase(before, results, cases, i);
    }
    assert cases[..|cases|] == cases;
    SameResults(results, Results(cases), cases);
  }

  lemma SameResults(a: map<string, string>, b: map<string, string>, cases: seq<Case>)
    requires ResultsOf(a, cases) && ResultsOf(b, cases)
    ensures a == b
  {
  }

  lemma OneMoreCase(before: map<string, string>, after: map<string, string>, cases: seq<Case>, i: nat)
    requires i < |cases| && ResultsOf(before, cases[..i])
    requires after == before[Node(cases[i]) := Outcome(cases[i])][cases[i].name := Outcome(cases[i])]
    ensures ResultsOf(after, cases[..i + 1])
  {
    hide Outcome, Node;
    forall id
      ensures LastCase(cases[..i + 1], id) == if Answers(cases[i], id) then Some(i) else LastCase(cases[..i], id)
    {
      assert cases[..i + 1][..i] == cases[..i];
    }
  }

  // --- The evidence file ---

  /** The rows of the evidence file by task id; a later row of the same task replaces an earlier one. */
  function ReadEvidence(lines: seq<Row>): map<string, Row> {
    if lines == [] then map[]
    else
      var last, before := lines[|lines| - 1], ReadEvidence(lines[..|lines| - 1]);
      if Get(last, "Task ID") != "" then before[Get(last, "Task ID") := last] else before
  }

  const BLANK: Row := map field | field in FIELDS :: ""

  /** A row with the result of one test written in. */
  function Stamped(row: Row, task: string, test: string, today: string, result: string): Row {
    row["Task ID" := task]["Test case ID" := test]["Last verified" := today]["Verified by" := "CI"]
       ["Verification result" := result]
  }

  /** The last of the first n mapped tests of this task that has a result. */
  function LastRun(mapping: seq<Mapped>, n: nat, results: map<string, string>, task: string): (r: Option<nat>)
    requires n <= |mapping|
    ensures r.Some? ==> r.value < n && mapping[r.value].task == task && mapping[r.value].test in results
    ensures forall k :: (if r.Some? then r.value + 1 else 0) <= k < n && mapping[k].task == task ==>
      mapping[k].test !in results
  {
    if n == 0 then None
    else if mapping[n - 1].task == task && mapping[n - 1].test in results then Some(n - 1)
    else LastRun(mapping, n - 1, results, task)
  }

  function CountRun(mapping: seq<Mapped>, n: nat, results: map<string, string>): nat
    requires n <= |mapping|
  {
    if n == 0 then 0 else CountRun(mapping, n - 1, results) + if mapping[n - 1].test in results then 1 else 0
  }

  /** The row of a task once the first n mapped tests are applied. */
  function MergedRow(existing: map<string, Row>, mapping: seq<Mapped>, n: nat, results: map<string, string>,
                     today: string, task: string): Row
    requires n <= |mapping|
  {
    var row := if task in existing then existing[task] else BLANK;
    match LastRun(mapping, n, results, task)
    case Some(k) => Stamped(row, task, mapping[k].test, today, results[mapping[k].test])
    case None => row
  }

  ghost predicate MergedAt(now: map<string, Row>, existing: map<string, Row>, mapping: seq<Mapped>, n: nat,
                           results: map<string, string>, today: string, task: string)
    requires n <= |mapping|
  {
    && (task in now <==> task in existing || LastRun(mapping, n, results, task).Some?)
    && (task in now ==> now[task] == MergedRow(existing, mapping, n, results, today, task))
  }

  /** What the rows by task are once the first n mapped tests are applied. */
  ghost predicate IsMerged(now: map<string, Row>, existing: map<string, Row>, mapping: seq<Mapped>, n: nat,
                           results: map<string, string>, today: string)
    requires n <= |mapping|
  {
    forall task :: MergedAt(now, existing, mapping, n, results, today, task)
  }

  lemma StampAgain(row: Row, task: string, test: string, today: string, result: string, test': string, result': string)
    ensures Stamped(Stamped(row, task, test, today, result), task, test', today, result')
      == Stamped(row, task, test', today, result')
  {
  }

  function Tasks(mapping: seq<Mapped>): (tasks: set<string>)
    ensures forall k :: 0 <= k < |mapping| ==> mapping[k].task in tasks
  {
    set m | m in mapping :: m.task
  }

  ghost function MergedRows(existing: map<string, Row>, mapping: seq<Mapped>, results: map<string, string>,
                            today: string): map<string, Row>
  {
    hide MergedRow, LastRun;
    map task | task in existing.Keys + Tasks(mapping)
        && (task in existing || LastRun(mapping, |mapping|, results, task).Some?) ::
      MergedRow(existing, mapping, |mapping|, results, today, task)
  }

  lemma MergedRowsAt(existing: map<string, Row>, mapping: seq<Mapped>, results: map<string, string>, today: string,
                     task: string)
    ensures MergedAt(MergedRows(existing, mapping, results, today), existing, mapping, |mapping|, results, today, task)
  {
    hide MergedRow, LastRun, Tasks;
  }

  ghost function Merged(existing: map<string, Row>, mapping: seq<Mapped>, results: map<string, string>, today: string)
    : (merged: map<string, Row>)
    ensures IsMerged(merged, existing, mapping, |mapping|, results, today)
  {
    var merged := MergedRows(existing, mapping, results, today);
    assert IsMerged(merged, existing, mapping, |mapping|, results, today) by {
      hide MergedRows, MergedAt;
      forall task
        ensures MergedAt(merged, existing, mapping, |mapping|, results, today, task)
      {
        MergedRowsAt(existing, mapping, results, today, task);
      }
    }
    merged
  }

  lemma SameMerged(a: map<string, Row>, b: map<string, Row>, existing: map<string, Row>, mapping: seq<Mapped>,
                   results: map<string, string>, today: string)
    requires IsMerged(a, existing, mapping, |mapping|, results, today)
    requires IsMerged(b, existing, mapping, |mapping|, results, today)
    ensures a == b
  {
    hide MergedRow, LastRun;
    forall task
      ensures (task in a <==> task in b) && (task in a ==> a[task] == b[task])
    {
      assert MergedAt(a, existing, mapping, |mapping|, results, today, task);
      assert MergedAt(b, existing, mapping, |mapping|, results, today, task);
    }
  }

  /** One more mapped test stamps its own task's row, when it has a result. */
  lemma RowStep(existing: map<string, Row>, mapping: seq<Mapped>, n: nat, results: map<string, string>,
                today: string, task: string)
    requires n < |mapping|
    ensures
      var before, after := LastRun(mapping, n, results, task), LastRun(mapping, n + 1, results, task);
      var row := MergedRow(existing, mapping, n, results, today, task);
      var row' := MergedRow(existing, mapping, n + 1, results, today, task);
      var m := mapping[n];
      if m.task == task && m.test in results
      then after.Some? && row' == Stamped(row, task, m.test, today, results[m.test])
      else after == before && row' == row
  {
    var k := LastRun(mapping, n, results, task);
    if k.Some? && mapping[n].test in results {
      StampAgain(if task in existing then existing[task] else BLANK, task, mapping[k.value].test, today,
                 results[mapping[k.value].test], mapping[n].test, results[mapping[n].test]);
    }
    hide Stamped, BLANK;
  }

  function Next(now: map<string, Row>, m: Mapped, results: map<string, string>, today: string): map<string, Row> {
    if m.test in results
    then now[m.task := Stamped(if m.task in now then now[m.task] else BLANK, m.task, m.test, today, results[m.test])]
    else now
  }

  lemma MergeStepAt(now: map<string, Row>, existing: map<string, Row>, mapping: seq<Mapped>, n: nat,
                    results: map<string, string>, today: string, task: string)
    requires n < |mapping| && MergedAt(now, existing, mapping, n, results, today, task)
    ensures MergedAt(Next(now, mapping[n], results, today), existing, mapping, n + 1, results, today, task)
  {
    RowStep(existing, mapping, n, results, today, task);
    assert task !in now ==> MergedRow(existing, mapping, n, results, today, task) == BLANK;
    hide Stamped, BLANK, MergedRow, LastRun;
  }

  lemma MergeStep(now: map<string, Row>, existing: map<string, Row>, mapping: seq<Mapped>, n: nat,
                  results: map<string, string>, today: string)
    requires n < |mapping| && IsMerged(now, existing, mapping, n, results, today)
    ensures IsMerged(Next(now, mapping[n], results, today), existing, mapping, n + 1, results, today)
  {
    var after, next := Next(now, mapping[n], results, today), n + 1;
    hide Next, MergedAt;
    forall task
      ensures MergedAt(after, existing, mapping, next, results, today, task)
    {
      MergeStepAt(now, existing, mapping, n, results, today, task);
    }
  }

  method MergeResults(existing: map<string, Row>, mapping: seq<Mapped>, results: map<string, string>, today: string)
    returns (merged: map<string, Row>, updated: nat)
    ensures merged == Merged(existing, mapping, results, today)
    ensures updated == CountRun(mapping, |mapping|, results)
  {
    hide IsMerged, BLANK;
    merged, updated := existing, 0;
    NothingMerged(existing, mapping, results, today);
    for n := 0 to |mapping|
      invariant IsMerged(merged, existing, mapping, n, results, today)
      invariant updated == CountRun(mapping, n, results)
    {
      MergeStep(merged, existing, mapping, n, results, today);
      var test, task := mapping[n].test, mapping[n].task;
      if test !in results {
        continue;
      }
      var row := if task in merged then merged[task] else BLANK;
      row := row["Task ID" := task];
      row := row["Test case ID" := test];
      row := row["Last verified" := today];
      row := row["Verified by" := "CI"];
      row := row["Verification result" := results[test]];
      merged := merged[task := row];
      updated := updated + 1;
    }
    SameMerged(merged, Merged(existing, mapping, results, today), existing, mapping, results, today);
  }

  lemma NothingMerged(existing: map<string, Row>, mapping: seq<Mapped>, results: map<string, string>, today: string)
    ensures IsMerged(existing, existing, mapping, 0, results, today)
  {
  }

  // --- Writing back ---

  /** The ten columns that are written. */
  function Project(row: Row): Row {
    map field | field in FIELDS :: Get(row, field)
  }

  function Lines(rows: map<string, Row>, keys: seq<string>): (lines: seq<Row>)
    requires forall key :: key in keys ==> key in rows
    ensures |lines| == |keys|
  {
    seq(|keys|, i requires 0 <= i < |keys| => assert keys[i] in keys; Project(rows[keys[i]]))
  }

  lemma SortedMembers(keys: set<string>)
    ensures forall key :: key in SortedKeys(keys) <==> key in keys
  {
    assert forall key :: key in SortedKeys(keys) <==> key in Elements(SortedKeys(keys));
  }

  ghost function Written(rows: map<string, Row>): seq<Row> {
    SortedMembers(rows.Keys);
    Lines(rows, SortedKeys(rows.Keys))
  }

  method Sorted(keys: set<string>) returns (sorted: seq<string>)
    ensures sorted == SortedKeys(keys)
  {
    var listed: seq<string> := [];
    var left := keys;
    while left != {}
      invariant left <= keys && Distinct(listed) && Elements(listed) == keys - left
    {
      var key :| key in left;
      assert key !in Elements(listed);
      listed := listed + [key];
      left := left - {key};
    }
    SortAscends(listed);
    sorted := Sort(listed, Less);
    AscendingUnique(sorted, SortedKeys(keys));
  }

  method WriteLines(rows: map<string, Row>, keys: seq<string>) returns (lines: seq<Row>)
    requires forall key :: key in keys ==> key in rows
    ensures lines == Lines(rows, keys)
  {
    hide Project;
    lines := [];
    for i := 0 to |keys|
      invariant lines == Lines(rows, keys)[..i]
    {
      assert keys[i] in keys;
      lines := lines + [Project(rows[keys[i]])];
    }
  }

  method WriteEvidence(rows: map<string, Row>) returns (lines: seq<Row>)
    ensures lines == Written(rows)
  {
    hide SortedKeys, Lines;
    var keys := Sorted(rows.Keys);
    SortedMembers(rows.Keys);
    lines := WriteLines(rows, keys);
  }

  function ReadFile(file: Option<seq<Row>>): map<string, Row> {
    match file
    case Some(lines) => ReadEvidence(lines)
    case None => map[]
  }

  /** The evidence file after the command: without a mapped test nothing is written. */
  ghost function Run(table: seq<Row>, cases: seq<Case>, file: Option<seq<Row>>, today: string): Option<seq<Row>> {
    if LoadMap(table) == [] then file
    else Some(Written(Merged(ReadFile(file), LoadMap(table), Results(cases), today)))
  }

  /** The whole command: the map file, the report, the evidence file (None when absent) and the day give the
      evidence file afterwards and the reported count. */
  method Apply(table: seq<Row>, cases: seq<Case>, file: Option<seq<Row>>, today: string)
    returns (after: Option<seq<Row>>, updated: nat)
    ensures after == Run(table, cases, file, today)
    ensures updated == CountRun(LoadMap(table), |LoadMap(table)|, Results(cases))
  {
    hide Merged, Written, Results, LoadMap, ReadFile;
    var mapping := LoadMap(table);
    if mapping == [] {
      return file, 0;
    }
    var results := JunitResults(cases);
    var existing := ReadFile(file);
    var merged;
    merged, updated := MergeResults(existing, mapping, results, today);
    var lines := WriteEvidence(merged);
    after := Some(lines);
  }

  // --- What is written ---

  /** A case is the test of this id: by its name alone, or by its class and its name. */
  predicate Reports(c: Case, id: string) {
    id == c.name || (c.classname != "" && id == c.classname + "::" + c.name)
  }

  /** What a case counts as: a skip is a skip even with a failure beside it. */
  predicate Counts(c: Case, result: string) {
    && (result == "Skipped" <==> c.skipped)
    && (result == "Fail" <==> c.failed && !c.skipped)
    && (result == "Pass" <==> !c.failed && !c.skipped)
  }

  lemma CaseExactly(c: Case, id: string)
    ensures Answers(c, id) <==> Reports(c, id)
    ensures Counts(c, Outcome(c))
  {
  }

  /** The mapped test k is the last one of its task that ran, and case c is its last case in the report. */
  ghost predicate Decides(mapping: seq<Mapped>, cases: seq<Case>, task: string, k: nat, c: nat) {
    && k < |mapping| && c < |cases| && mapping[k].task == task && Reports(cases[c], mapping[k].test)
    && (forall later :: c < later < |cases| ==> !Reports(cases[later], mapping[k].test))
    && (forall m, d :: k < m < |mapping| && 0 <= d < |cases| && mapping[m].task == task ==>
          !Reports(cases[d], mapping[m].test))
  }

  lemma DecidesExactly(mapping: seq<Mapped>, cases: seq<Case>, task: string, k: nat, c: nat)
    ensures Decides(mapping, cases, task, k, c) <==>
      (LastRun(mapping, |mapping|, Results(cases), task) == Some(k) && LastCase(cases, mapping[k].test) == Some(c))
  {
    var results := Results(cases);
    hide Answers, Reports, Counts, Outcome, Results;
    forall d, id | 0 <= d < |cases|
      ensures Answers(cases[d], id) <==> Reports(cases[d], id)
    {
      CaseExactly(cases[d], id);
    }
    forall m | 0 <= m < |mapping|
      ensures mapping[m].test !in results <==> forall d :: 0 <= d < |cases| ==> !Reports(cases[d], mapping[m].test)
    {
    }
    hide ResultsOf;
    if Decides(mapping, cases, task, k, c) {
      assert mapping[k].test in results;
    }
  }

  /** The row holds what this case says of this test, and in every other column what it held before. */
  ghost predicate Holds(row: Row, before: Row, task: string, test: string, today: string, c: Case) {
    && Get(row, "Task ID") == task && Get(row, "Test case ID") == test && Get(row, "Last verified") == today
    && Get(row, "Verified by") == "CI" && Counts(c, Get(row, "Verification result"))
    && forall field ::
         field !in {"Task ID", "Test case ID", "Last verified", "Verified by", "Verification result"} ==>
         Get(row, field) == Get(before, field)
  }

  lemma StampHolds(row: Row, task: string, test: string, today: string, c: Case)
    ensures Holds(Stamped(row, task, test, today, Outcome(c)), row, task, test, today, c)
  {
    CaseExactly(c, test);
    hide Outcome, Counts;
  }

  function RowBefore(existing: map<string, Row>, task: string): Row {
    if task in existing then existing[task] else map[]
  }

  /** The row of a task with a deciding case. */
  lemma DecidedRow(existing: map<string, Row>, mapping: seq<Mapped>, cases: seq<Case>, today: string, task: string,
                   k: nat, c: nat)
    requires Decides(mapping, cases, task, k, c)
    ensures
      var merged := Merged(existing, mapping, Results(cases), today);
      task in merged && Holds(merged[task], RowBefore(existing, task), task, mapping[k].test, today, cases[c])
  {
    var results := Results(cases);
    var merged := Merged(existing, mapping, results, today);
    DecidesExactly(mapping, cases, task, k, c);
    hide Decides, Outcome, LastRun, Results, Merged, Stamped, Holds, BLANK, Answers, LastCase, Reports;
    assert results[mapping[k].test] == Outcome(cases[c]);
    assert MergedAt(merged, existing, mapping, |mapping|, results, today, task);
    if task in existing {
      StampHolds(existing[task], task, mapping[k].test, today, cases[c]);
    } else {
      StampHolds(BLANK, task, mapping[k].test, today, cases[c]);
      BlankHolds(merged[task], task, mapping[k].test, today, cases[c]);
    }
  }

  /** The row of a task without one. */
  lemma UndecidedRow(existing: map<string, Row>, mapping: seq<Mapped>, cases: seq<Case>, today: string, task: string)
    requires forall k: nat, c: nat :: !Decides(mapping, cases, task, k, c)
    ensures
      var merged := Merged(existing, mapping, Results(cases), today);
      (task in merged <==> task in existing) && (task in existing ==> merged[task] == existing[task])
  {
    var results := Results(cases);
    var merged := Merged(existing, mapping, results, today);
    var last := LastRun(mapping, |mapping|, results, task);
    hide Decides, Outcome, Merged, Results, Answers, Reports, Stamped, BLANK;
    if last.Some? {
      var c := LastCase(cases, mapping[last.value].test);
      assert c.Some?;
      DecidesExactly(mapping, cases, task, last.value, c.value);
    }
    assert MergedAt(merged, existing, mapping, |mapping|, results, today, task);
  }

  /** A row changes exactly when a mapped test of its task ran. Then its result is "Skipped", "Fail" or "Pass" as the
      last case of the last such test was skipped, failed or neither, and every other column survives. */
  lemma ResultsAreReal(existing: map<string, Row>, mapping: seq<Mapped>, cases: seq<Case>, today: string, task: string)
    ensures
      var merged := Merged(existing, mapping, Results(cases), today);
      && (forall k: nat, c: nat :: Decides(mapping, cases, task, k, c) ==>
            task in merged && Holds(merged[task], RowBefore(existing, task), task, mapping[k].test, today, cases[c]))
      && ((forall k: nat, c: nat :: !Decides(mapping, cases, task, k, c)) ==>
            (task in merged <==> task in existing) && (task in existing ==> merged[task] == existing[task]))
  {
    hide Merged, Results, Holds, RowBefore, Reports;
    forall k: nat, c: nat | Decides(mapping, cases, task, k, c)
      ensures
        var merged := Merged(existing, mapping, Results(cases), today);
        task in merged && Holds(merged[task], RowBefore(existing, task), task, mapping[k].test, today, cases[c])
    {
      DecidedRow(existing, mapping, cases, today, task, k, c);
    }
    if forall k: nat, c: nat :: !Decides(mapping, cases, task, k, c) {
      UndecidedRow(existing, mapping, cases, today, task);
    }
  }

  /** A task without a row starts from one with every column empty. */
  lemma BlankHolds(row: Row, task: string, test: string, today: string, c: Case)
    requires Holds(row, BLANK, task, test, today, c)
    ensures Holds(row, map[], task, test, today, c)
  {
    hide Counts;
  }

  /** The report has a case that is the test of this id. */
  predicate Reported(cases: seq<Case>, id: string) {
    exists c :: 0 <= c < |cases| && Reports(cases[c], id)
  }

  lemma ReportedExactly(cases: seq<Case>, id: string)
    ensures id in Results(cases) <==> Reported(cases, id)
  {
    hide Answers, Reports, Outcome, Results, Counts;
    forall c | 0 <= c < |cases|
      ensures Answers(cases[c], id) <==> Reports(cases[c], id)
    {
      CaseExactly(cases[c], id);
    }
    assert ResultsOf(Results(cases), cases);
  }

  /** The mapped tests, among the first n, that the report has. */
  function Answered(mapping: seq<Mapped>, n: nat, cases: seq<Case>): set<nat>
    requires n <= |mapping|
  {
    set k: nat | k < n && Reported(cases, mapping[k].test)
  }

  lemma AnsweredStep(mapping: seq<Mapped>, n: nat, cases: seq<Case>)
    requires n < |mapping|
    ensures Answered(mapping, n + 1, cases)
      == if Reported(cases, mapping[n].test) then Answered(mapping, n, cases) + {n} else Answered(mapping, n, cases)
  {
    hide Reported;
  }

  lemma {:induction false} CountAnswered(mapping: seq<Mapped>, n: nat, results: map<string, string>, cases: seq<Case>)
    requires n <= |mapping|
    requires forall k :: 0 <= k < n ==> (mapping[k].test in results <==> Reported(cases, mapping[k].test))
    ensures CountRun(mapping, n, results) == |Answered(mapping, n, cases)|
  {
    hide Reported;
    if n > 0 {
      CountAnswered(mapping, n - 1, results, cases);
      AnsweredStep(mapping, n - 1, cases);
      assert n - 1 !in Answered(mapping, n - 1, cases);
    } else {
      assert Answered(mapping, n, cases) == {};
    }
  }

  /** The reported count is the number of mapped tests that the report has. */
  lemma UpdatedExactly(mapping: seq<Mapped>, n: nat, cases: seq<Case>)
    requires n <= |mapping|
    ensures CountRun(mapping, n, Results(cases)) == |Answered(mapping, n, cases)|
  {
    hide *;
    forall k | 0 <= k < n
      ensures mapping[k].test in Results(cases) <==> Reported(cases, mapping[k].test)
    {
      ReportedExactly(cases, mapping[k].test);
    }
    CountAnswered(mapping, n, Results(cases), cases);
  }

  // --- One row per task, and running again ---

  /** Every row is kept under its own task id, and no id is blank. */
  ghost predicate Keyed(rows: map<string, Row>) {
    forall task :: task in rows ==> task != "" && Get(rows[task], "Task ID") == task
  }

  lemma {:induction false} ReadKeyed(lines: seq<Row>)
    ensures Keyed(ReadEvidence(lines))
  {
    if lines != [] {
      ReadKeyed(lines[..|lines| - 1]);
    }
  }

  lemma TasksNotBlank(table: seq<Row>, k: nat)
    requires k < |LoadMap(table)|
    ensures LoadMap(table)[k].task != ""
  {
    var m := LoadMap(table)[k];
    LoadMapExactly(table, m.test, m.task);
  }

  lemma MergedKeyed(existing: map<string, Row>, table: seq<Row>, results: map<string, string>, today: string)
    requires Keyed(existing)
    ensures Keyed(Merged(existing, LoadMap(table), results, today))
  {
    var mapping := LoadMap(table);
    var merged := Merged(existing, mapping, results, today);
    hide Merged, LoadMap, Get, Stamped, BLANK;
    forall task | task in merged
      ensures task != "" && Get(merged[task], "Task ID") == task
    {
      assert MergedAt(merged, existing, mapping, |mapping|, results, today, task);
      var last := LastRun(mapping, |mapping|, results, task);
      if last.Some? {
        TasksNotBlank(table, last.value);
        StampedField(if task in existing then existing[task] else BLANK, task, mapping[last.value].test, today,
                     results[mapping[last.value].test], "Task ID");
      }
    }
  }

  function TaskIds(lines: seq<Row>): seq<string> {
    seq(|lines|, i requires 0 <= i < |lines| => Get(lines[i], "Task ID"))
  }

  lemma WrittenIds(rows: map<string, Row>)
    requires Keyed(rows)
    ensures |Written(rows)| == |SortedKeys(rows.Keys)| && TaskIds(Written(rows)) == SortedKeys(rows.Keys)
  {
    var keys := SortedKeys(rows.Keys);
    SortedMembers(rows.Keys);
    hide SortedKeys;
    forall i | 0 <= i < |keys|
      ensures Get(Project(rows[keys[i]]), "Task ID") == keys[i]
    {
      assert keys[i] in rows;
      assert FIELDS[0] == "Task ID";
    }
    hide Get, Project;
  }

  /** Where a test is mapped, the evidence file has one row for each task, in strictly ascending order of non-blank
      ids; otherwise the command leaves the file alone. */
  lemma OneRowEach(table: seq<Row>, cases: seq<Case>, file: Option<seq<Row>>, today: string)
    ensures LoadMap(table) == [] ==> Run(table, cases, file, today) == file
    ensures LoadMap(table) != [] ==>
      var merged := Merged(ReadFile(file), LoadMap(table), Results(cases), today);
      var after := Run(table, cases, file, today);
      after.Some? && Ascending(TaskIds(after.value)) && Elements(TaskIds(after.value)) == merged.Keys && "" !in merged
  {
    hide Merged, Written, Results, LoadMap;
    if file.Some? {
      ReadKeyed(file.value);
    }
    MergedKeyed(ReadFile(file), table, Results(cases), today);
    WrittenIds(Merged(ReadFile(file), LoadMap(table), Results(cases), today));
  }

  function Projected(rows: map<string, Row>): map<string, Row> {
    map task | task in rows :: Project(rows[task])
  }

  lemma LastLine(rows: map<string, Row>, keys: seq<string>)
    requires keys != [] && forall key :: key in keys ==> key in rows
    ensures
      var n := |keys| - 1;
      && keys[n] in keys && Lines(rows, keys)[..n] == Lines(rows, keys[..n])
      && Lines(rows, keys)[n] == Project(rows[keys[n]])
  {
    hide Project, FIELDS;
  }

  lemma {:induction false} ReadLines(rows: map<string, Row>, keys: seq<string>)
    requires Keyed(rows) && forall key :: key in keys ==> key in rows
    ensures ReadEvidence(Lines(rows, keys)) == map task | task in keys :: Project(rows[task])
  {
    if keys != [] {
      var n := |keys| - 1;
      assert keys[n] in keys && keys == keys[..n] + [keys[n]];
      hide Project, FIELDS;
      ReadLines(rows, keys[..n]);
      LastLine(rows, keys);
      hide Lines, Get;
      ProjectId(rows[keys[n]]);
    }
  }

  lemma ProjectId(row: Row)
    ensures Get(Project(row), "Task ID") == Get(row, "Task ID")
  {
    assert FIELDS[0] == "Task ID";
  }

  /** Reading the written file gives back every row's ten columns. */
  lemma ReadWritten(rows: map<string, Row>)
    requires Keyed(rows)
    ensures ReadEvidence(Written(rows)) == Projected(rows)
  {
    SortedMembers(rows.Keys);
    hide SortedKeys, Lines, ReadEvidence, Project, Keyed, FIELDS;
    ReadLines(rows, SortedKeys(rows.Keys));
  }

  lemma ProjectTwice(row: Row)
    ensures Project(Project(row)) == Project(row)
  {
  }

  lemma StampProjected(row: Row, task: string, test: string, today: string, result: string)
    ensures Project(Stamped(Project(Stamped(row, task, test, today, result)), task, test, today, result))
      == Project(Stamped(row, task, test, today, result))
  {
    var once := Stamped(row, task, test, today, result);
    var again := Stamped(Project(once), task, test, today, result);
    hide FIELDS;
    forall field | field in FIELDS
      ensures Get(again, field) == Get(once, field)
    {
      StampedField(row, task, test, today, result, field);
      StampedField(Project(once), task, test, today, result, field);
    }
    hide Stamped;
  }

  lemma StampedField(row: Row, task: string, test: string, today: string, result: string, field: string)
    ensures Get(Stamped(row, task, test, today, result), field)
      == if field == "Verification result" then result else if field == "Verified by" then "CI"
         else if field == "Last verified" then today else if field == "Test case ID" then test
         else if field == "Task ID" then task else Get(row, field)
  {
    hide FIELDS;
  }

  lemma WrittenAlike(a: map<string, Row>, b: map<string, Row>)
    requires a.Keys == b.Keys && forall task :: task in a ==> Project(a[task]) == Project(b[task])
    ensures Written(a) == Written(b)
  {
    SortedMembers(a.Keys);
    hide Project, SortedKeys;
  }

  /** Merging the same results into the written rows writes the same rows. */
  lemma MergedAgain(existing: map<string, Row>, mapping: seq<Mapped>, results: map<string, string>, today: string)
    ensures
      var once := Merged(existing, mapping, results, today);
      var again := Merged(Projected(once), mapping, results, today);
      again.Keys == once.Keys && forall task :: task in once ==> Project(again[task]) == Project(once[task])
  {
    var once := Merged(existing, mapping, results, today);
    var again := Merged(Projected(once), mapping, results, today);
    hide Merged, Stamped, BLANK, Project;
    forall task
      ensures task in again <==> task in once
      ensures task in once ==> Project(again[task]) == Project(once[task])
    {
      assert MergedAt(once, existing, mapping, |mapping|, results, today, task);
      assert MergedAt(again, Projected(once), mapping, |mapping|, results, today, task);
      var last := LastRun(mapping, |mapping|, results, task);
      if last.Some? {
        var test := mapping[last.value].test;
        StampProjected(if task in existing then existing[task] else BLANK, task, test, today, results[test]);
      } else if task in once {
        ProjectTwice(once[task]);
      }
    }
  }

  /** Running the command again with the same map, report and day leaves the file as it is. */
  lemma RunAgain(table: seq<Row>, cases: seq<Case>, file: Option<seq<Row>>, today: string)
    ensures Run(table, cases, Run(table, cases, file, today), today) == Run(table, cases, file, today)
  {
    var mapping, results := LoadMap(table), Results(cases);
    if mapping != [] {
      hide Merged, Written, Results, LoadMap;
      var once := Merged(ReadFile(file), mapping, results, today);
      if file.Some? {
        ReadKeyed(file.value);
      }
      MergedKeyed(ReadFile(file), table, results, today);
      ReadWritten(once);
      MergedAgain(ReadFile(file), mapping, results, today);
      WrittenAlike(Merged(Projected(once), mapping, results, today), once);
    }
  }
}

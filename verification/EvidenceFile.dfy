/** The evidence file after the command, said cell by cell from the map file, the report and the file before. */
module EvidenceFile {
  import opened EvidenceMerge
  import opened Text
  import opened Wrappers

  // --- The map file ---

  predicate White(c: char) {
    c as int in {9, 10, 11, 12, 13, 28, 29, 30, 31, 32}
  }

  /** From place i on, t is s without the white space at both ends. */
  predicate TrimsAt(s: string, t: string, i: nat) {
    && i + |t| <= |s| && s[i..i + |t|] == t
    && (forall k :: 0 <= k < |s| && !(i <= k < i + |t|) ==> White(s[k]))
    && (t != [] ==> !White(t[0]) && !White(t[|t| - 1]))
  }

  ghost predicate Trims(s: string, t: string) {
    exists i: nat :: TrimsAt(s, t, i)
  }

  lemma {:induction false} LeftEnd(s: string) returns (i: nat)
    ensures i <= |s| && StripLeft(s) == s[i..] && forall k :: 0 <= k < i ==> White(s[k])
    ensures i < |s| ==> !White(s[i])
  {
    i := 0;
    if s != [] && Space(s[0]) {
      i := LeftEnd(s[1..]);
      i := i + 1;
    }
  }

  lemma {:induction false} RightEnd(s: string) returns (n: nat)
    ensures n <= |s| && StripRight(s) == s[..n] && forall k :: n <= k < |s| ==> White(s[k])
    ensures n > 0 ==> !White(s[n - 1])
  {
    n := |s|;
    if s != [] && Space(s[|s| - 1]) {
      n := RightEnd(s[..|s| - 1]);
    }
  }

  lemma StripTrims(s: string)
    ensures Trims(s, Strip(s))
  {
    var i := LeftEnd(s);
    var n := RightEnd(s[i..]);
    hide StripLeft, StripRight, White;
    assert s[i..][..n] == s[i..i + n];
    assert forall k :: i + n <= k < |s| ==> s[k] == s[i..][k - i];
    assert TrimsAt(s, Strip(s), i);
  }

  lemma TrimsOnce(s: string, t: string, u: string)
    requires Trims(s, t) && Trims(s, u)
    ensures t == u
  {
    var i: nat :| TrimsAt(s, t, i);
    var j: nat :| TrimsAt(s, u, j);
    hide White;
    if t != [] {
      assert s[i] == t[0] && s[i + |t| - 1] == t[|t| - 1];
    }
    if u != [] {
      assert s[j] == u[0] && s[j + |u| - 1] == u[|u| - 1];
    }
  }

  /** A line maps this test to this task: neither is blank. */
  ghost predicate MapLine(line: Row, test: string, task: string) {
    Trims(Get(line, "Test case ID"), test) && Trims(Get(line, "Task ID"), task) && test != "" && task != ""
  }

  lemma MapLineExactly(line: Row, test: string, task: string)
    ensures MapLine(line, test, task) <==>
      Maps(line) && test == Strip(Get(line, "Test case ID")) && task == Strip(Get(line, "Task ID"))
  {
    hide Trims, Strip;
    StripTrims(Get(line, "Test case ID"));
    StripTrims(Get(line, "Task ID"));
    if MapLine(line, test, task) {
      TrimsOnce(Get(line, "Test case ID"), test, Strip(Get(line, "Test case ID")));
      TrimsOnce(Get(line, "Task ID"), task, Strip(Get(line, "Task ID")));
    }
  }

  ghost predicate MapsTest(line: Row, test: string) {
    exists task :: MapLine(line, test, task)
  }

  lemma MapsTestExactly(line: Row, test: string)
    ensures MapsTest(line, test) <==> Maps(line) && test == Strip(Get(line, "Test case ID"))
  {
    hide MapLine, Maps, Strip;
    forall task
      ensures MapLine(line, test, task) <==>
        Maps(line) && test == Strip(Get(line, "Test case ID")) && task == Strip(Get(line, "Task ID"))
    {
      MapLineExactly(line, test, task);
    }
    if Maps(line) && test == Strip(Get(line, "Test case ID")) {
      assert MapLine(line, test, Strip(Get(line, "Task ID")));
    }
  }

  /** Line k is the last one that maps this test, and it maps it to this task. */
  ghost predicate LastMap(lines: seq<Row>, test: string, task: string, k: nat) {
    k < |lines| && MapLine(lines[k], test, task) && forall j :: k < j < |lines| ==> !MapsTest(lines[j], test)
  }

  /** Line k is the first one that maps this test. */
  ghost predicate FirstMap(lines: seq<Row>, test: string, k: nat) {
    k < |lines| && MapsTest(lines[k], test) && forall j :: 0 <= j < k ==> !MapsTest(lines[j], test)
  }

  /** A test is mapped to the task on the last line that maps it. */
  lemma MapExactly(lines: seq<Row>, test: string, task: string)
    ensures Mapped(test, task) in LoadMap(lines) <==> exists k: nat :: LastMap(lines, test, task, k)
  {
    hide LoadMap, MapLine, MapsTest, Maps, Strip, Get;
    LoadMapExactly(lines, test, task);
    forall k: nat | k < |lines|
      ensures MapsTest(lines[k], test) <==> Maps(lines[k]) && test == Strip(Get(lines[k], "Test case ID"))
    {
      MapsTestExactly(lines[k], test);
    }
    forall k: nat
      ensures LastMap(lines, test, task, k) <==>
        LastMapping(lines, test, k) && Strip(Get(lines[k], "Task ID")) == task
    {
      if k < |lines| {
        MapLineExactly(lines[k], test, task);
      }
    }
  }

  predicate HasTest(entries: seq<Mapped>, test: string) {
    exists i :: 0 <= i < |entries| && entries[i].test == test
  }

  /** A new key goes to the end. */
  lemma {:induction false} PutNew(entries: seq<Mapped>, test: string, task: string)
    requires forall i :: 0 <= i < |entries| ==> entries[i].test != test
    ensures Put(entries, test, task) == entries + [Mapped(test, task)]
  {
    if entries != [] {
      PutNew(entries[1..], test, task);
      assert entries == [entries[0]] + entries[1..];
    }
  }

  /** A known key keeps its place. */
  lemma {:induction false} PutKnown(entries: seq<Mapped>, test: string, task: string, i: nat)
    requires i < |entries| && entries[i].test == test && forall j :: 0 <= j < i ==> entries[j].test != test
    ensures Put(entries, test, task) == entries[i := Mapped(test, task)]
  {
    if i > 0 {
      PutKnown(entries[1..], test, task, i - 1);
    }
  }

  lemma FirstOf(entries: seq<Mapped>, test: string) returns (i: nat)
    requires HasTest(entries, test)
    ensures i < |entries| && entries[i].test == test && forall j :: 0 <= j < i ==> entries[j].test != test
  {
    i := 0;
    while entries[i].test != test
      invariant i < |entries| && forall j :: 0 <= j < i ==> entries[j].test != test
      decreases |entries| - i
    {
      i := i + 1;
    }
  }

  lemma PutTests(entries: seq<Mapped>, test: string, task: string)
    ensures
      var after := Put(entries, test, task);
      && |entries| <= |after| <= |entries| + 1
      && (forall i :: 0 <= i < |entries| ==> after[i].test == entries[i].test)
      && HasTest(after, test)
      && (|after| > |entries| ==> after[|entries|].test == test && !HasTest(entries, test))
  {
    hide Put;
    var after := Put(entries, test, task);
    if HasTest(entries, test) {
      var i := FirstOf(entries, test);
      PutKnown(entries, test, task, i);
      assert after[i].test == test;
    } else {
      PutNew(entries, test, task);
      assert after[|entries|].test == test;
    }
  }

  lemma FirstMapKept(lines: seq<Row>, test: string, k: nat)
    requires lines != [] && FirstMap(lines[..|lines| - 1], test, k)
    ensures FirstMap(lines, test, k)
  {
    hide MapsTest;
    assert forall j :: 0 <= j <= k ==> lines[j] == lines[..|lines| - 1][j];
  }

  /** A test that some line maps is in the map. */
  lemma {:induction false} MapHas(lines: seq<Row>, k: nat, test: string)
    requires k < |lines| && MapsTest(lines[k], test)
    ensures HasTest(LoadMap(lines), test)
  {
    hide MapsTest, Maps, Strip, Put;
    var n := |lines| - 1;
    var last, before := lines[n], LoadMap(lines[..n]);
    MapsTestExactly(last, test);
    if Maps(last) {
      PutTests(before, Strip(Get(last, "Test case ID")), Strip(Get(last, "Task ID")));
    }
    if k < n {
      MapHas(lines[..n], k, test);
      var i :| 0 <= i < |before| && before[i].test == test;
      assert LoadMap(lines)[i].test == test;
    }
  }

  ghost predicate InOrder(lines: seq<Row>, tests: seq<Mapped>, first: seq<nat>) {
    && |first| == |tests|
    && (forall i :: 0 <= i < |first| ==> FirstMap(lines, tests[i].test, first[i]))
    && (forall i, j :: 0 <= i < j < |first| ==> first[i] < first[j])
  }

  lemma NewTest(lines: seq<Row>, test: string)
    requires lines != [] && MapsTest(lines[|lines| - 1], test) && !HasTest(LoadMap(lines[..|lines| - 1]), test)
    ensures FirstMap(lines, test, |lines| - 1)
  {
    hide MapsTest, HasTest, LoadMap;
    var before := lines[..|lines| - 1];
    forall j | 0 <= j < |before|
      ensures !MapsTest(before[j], test)
    {
      if MapsTest(before[j], test) {
        MapHas(before, j, test);
      }
    }
  }

  lemma MoreLines(lines: seq<Row>, tests: seq<Mapped>, first: seq<nat>)
    requires lines != [] && InOrder(lines[..|lines| - 1], tests, first)
    ensures InOrder(lines, tests, first) && forall i :: 0 <= i < |first| ==> first[i] < |lines| - 1
  {
    FirstMapBelow(lines[..|lines| - 1], tests, first);
    hide FirstMap;
    forall i | 0 <= i < |first|
      ensures FirstMap(lines, tests[i].test, first[i])
    {
      FirstMapKept(lines, tests[i].test, first[i]);
    }
  }

  /** Each mapped test has a first line, and the order of these lines is the order of the tests. */
  lemma {:induction false} MapOrder(lines: seq<Row>) returns (first: seq<nat>)
    ensures InOrder(lines, LoadMap(lines), first)
  {
    hide FirstMap, Put, MapsTest, Strip, Maps, HasTest;
    first := [];
    if lines != [] {
      var n := |lines| - 1;
      var before := LoadMap(lines[..n]);
      first := MapOrder(lines[..n]);
      MoreLines(lines, before, first);
      var test := Strip(Get(lines[n], "Test case ID"));
      if Maps(lines[n]) {
        PutTests(before, test, Strip(Get(lines[n], "Task ID")));
        if |LoadMap(lines)| > |before| {
          MapsTestExactly(lines[n], test);
          NewTest(lines, test);
          first := first + [n];
        }
      }
    }
  }

  lemma FirstMapBelow(lines: seq<Row>, tests: seq<Mapped>, first: seq<nat>)
    requires InOrder(lines, tests, first)
    ensures forall i :: 0 <= i < |first| ==> first[i] < |lines|
  {
  }

  // --- The file before ---

  /** The last line of this task. */
  predicate LastRow(lines: seq<Row>, task: string, i: int) {
    && 0 <= i < |lines| && Get(lines[i], "Task ID") == task
    && forall j :: i < j < |lines| ==> Get(lines[j], "Task ID") != task
  }

  predicate HasRow(lines: seq<Row>, task: string) {
    exists i :: 0 <= i < |lines| && Get(lines[i], "Task ID") == task
  }

  lemma {:induction false} ReadLast(lines: seq<Row>, task: string) returns (i: int)
    requires task in ReadEvidence(lines)
    ensures LastRow(lines, task, i) && ReadEvidence(lines)[task] == lines[i] && task != ""
  {
    hide Get;
    i := |lines| - 1;
    if Get(lines[i], "Task ID") != task {
      i := ReadLast(lines[..i], task);
    } else if task == "" {
      i := ReadLast(lines[..i], task);
      assert false;
    }
  }

  lemma {:induction false} ReadHas(lines: seq<Row>, task: string)
    requires HasRow(lines, task) && task != ""
    ensures task in ReadEvidence(lines)
  {
    hide Get;
    var n := |lines| - 1;
    if Get(lines[n], "Task ID") != task {
      var i :| 0 <= i < |lines| && Get(lines[i], "Task ID") == task;
      assert lines[..n][i] == lines[i];
      ReadHas(lines[..n], task);
    }
  }

  /** The lines of a file that may be absent. */
  function LinesOf(file: Option<seq<Row>>): seq<Row> {
    if file.Some? then file.value else []
  }

  /** What the file held for this task: its last line, or nothing. */
  ghost predicate Held(file: Option<seq<Row>>, task: string, before: Row) {
    && (forall i :: LastRow(LinesOf(file), task, i) ==> before == LinesOf(file)[i])
    && (!HasRow(LinesOf(file), task) ==> before == map[])
  }

  lemma ReadExactly(file: Option<seq<Row>>, task: string)
    requires task != ""
    ensures task in ReadFile(file) <==> HasRow(LinesOf(file), task)
    ensures Held(file, task, RowBefore(ReadFile(file), task))
  {
    var lines := LinesOf(file);
    assert ReadFile(file) == ReadEvidence(lines);
    hide ReadEvidence, ReadFile, Get;
    if task in ReadEvidence(lines) {
      var i := ReadLast(lines, task);
    } else if HasRow(lines, task) {
      ReadHas(lines, task);
    }
  }

  // --- The file afterwards ---

  /** The cells of a task's line: what its deciding case says, and otherwise what the file held before. */
  ghost predicate Fits(row: Row, before: Row, mapping: seq<Mapped>, cases: seq<Case>, today: string, task: string) {
    && row.Keys == {"Task ID", "Owner", "Target date", "Estimate days", "Depends on", "Blocked by", "Test case ID",
                    "Last verified", "Verified by", "Verification result"}
    && row["Task ID"] == task
    && (forall field :: field in {"Owner", "Target date", "Estimate days", "Depends on", "Blocked by"} ==>
          row[field] == Get(before, field))
    && (forall k: nat, c: nat :: Decides(mapping, cases, task, k, c) ==>
          && row["Test case ID"] == mapping[k].test && row["Last verified"] == today && row["Verified by"] == "CI"
          && Counts(cases[c], row["Verification result"]))
    && (Untested(mapping, cases, task) ==>
          forall field :: field in {"Test case ID", "Last verified", "Verified by", "Verification result"} ==>
            row[field] == Get(before, field))
  }

  /** No mapped test of this task is in the report. */
  ghost predicate Untested(mapping: seq<Mapped>, cases: seq<Case>, task: string) {
    forall k: nat, c: nat :: !Decides(mapping, cases, task, k, c)
  }

  lemma ProjectedCells(row: Row)
    ensures Project(row).Keys == {
        "Task ID", "Owner", "Target date", "Estimate days", "Depends on", "Blocked by", "Test case ID",
        "Last verified", "Verified by", "Verification result"}
    ensures forall field :: field in Project(row) ==> Project(row)[field] == Get(row, field)
  {
    assert Project(row).Keys == set field | field in FIELDS;
    FieldSet();
    hide FIELDS;
  }

  lemma FieldSet()
    ensures (set field | field in FIELDS) == {
        "Task ID", "Owner", "Target date", "Estimate days", "Depends on", "Blocked by", "Test case ID",
        "Last verified", "Verified by", "Verification result"}
  {
    assert FIELDS[0] == "Task ID" && FIELDS[1] == "Owner" && FIELDS[2] == "Target date" && FIELDS[3] == "Estimate days";
    assert FIELDS[4] == "Depends on" && FIELDS[5] == "Blocked by" && FIELDS[6] == "Test case ID";
    assert FIELDS[7] == "Last verified" && FIELDS[8] == "Verified by" && FIELDS[9] == "Verification result";
  }

  /** Where a case decides, it is the only one. */
  lemma DecidesOnce(mapping: seq<Mapped>, cases: seq<Case>, task: string, k: nat, c: nat, k': nat, c': nat)
    requires Decides(mapping, cases, task, k, c) && Decides(mapping, cases, task, k', c')
    ensures k == k' && c == c'
  {
    hide Reports;
  }

  lemma DecidedFits(row: Row, before: Row, mapping: seq<Mapped>, cases: seq<Case>, today: string, task: string,
                    k: nat, c: nat)
    requires Decides(mapping, cases, task, k, c) && Holds(row, before, task, mapping[k].test, today, cases[c])
    ensures Fits(Project(row), before, mapping, cases, today, task)
  {
    ProjectedCells(row);
    hide Counts, Project, Get;
    forall k': nat, c': nat | Decides(mapping, cases, task, k', c')
      ensures k == k' && c == c'
    {
      DecidesOnce(mapping, cases, task, k, c, k', c');
    }
    assert !Untested(mapping, cases, task);
    hide Decides, Untested;
  }

  lemma UntestedFits(row: Row, mapping: seq<Mapped>, cases: seq<Case>, today: string, task: string)
    requires Untested(mapping, cases, task) && Get(row, "Task ID") == task
    ensures Fits(Project(row), row, mapping, cases, today, task)
  {
    ProjectedCells(row);
    hide Counts, Project, Get, Decides;
  }

  /** The written line of one task. */
  lemma LineFits(existing: map<string, Row>, mapping: seq<Mapped>, cases: seq<Case>, today: string, task: string)
    requires Keyed(existing) && task in Merged(existing, mapping, Results(cases), today)
    ensures
      var merged := Merged(existing, mapping, Results(cases), today);
      Fits(Project(merged[task]), RowBefore(existing, task), mapping, cases, today, task)
  {
    var merged := Merged(existing, mapping, Results(cases), today);
    ResultsAreReal(existing, mapping, cases, today, task);
    hide Merged, Results, Counts, Project, Get, Fits, Holds, Reports;
    if Untested(mapping, cases, task) {
      UntestedFits(merged[task], mapping, cases, today, task);
    } else {
      var k: nat, c: nat :| Decides(mapping, cases, task, k, c);
      DecidedFits(merged[task], RowBefore(existing, task), mapping, cases, today, task, k, c);
    }
  }

  lemma WrittenLine(rows: map<string, Row>, n: nat)
    requires n < |Written(rows)|
    ensures |Written(rows)| == |SortedKeys(rows.Keys)| && SortedKeys(rows.Keys)[n] in rows
    ensures Written(rows)[n] == Project(rows[SortedKeys(rows.Keys)[n]])
  {
    SortedMembers(rows.Keys);
    hide SortedKeys, Project;
    assert SortedKeys(rows.Keys)[n] in SortedKeys(rows.Keys);
  }

  lemma MergedLine(existing: map<string, Row>, table: seq<Row>, cases: seq<Case>, today: string, n: nat)
    returns (task: string)
    requires Keyed(existing) && n < |Written(Merged(existing, LoadMap(table), Results(cases), today))|
    ensures task != ""
    ensures
      var row := Written(Merged(existing, LoadMap(table), Results(cases), today))[n];
      Fits(row, RowBefore(existing, task), LoadMap(table), cases, today, task)
  {
    hide Merged, Results, LoadMap, SortedKeys, Project, Fits, Written, Get, RowBefore;
    var merged := Merged(existing, LoadMap(table), Results(cases), today);
    WrittenLine(merged, n);
    task := SortedKeys(merged.Keys)[n];
    MergedKeyed(existing, table, Results(cases), today);
    LineFits(existing, LoadMap(table), cases, today, task);
  }

  lemma FileKeyed(file: Option<seq<Row>>)
    ensures Keyed(ReadFile(file))
  {
    if file.Some? {
      ReadKeyed(file.value);
    }
  }

  /** Every line of the file afterwards, cell by cell. */
  lemma FileExactly(table: seq<Row>, cases: seq<Case>, file: Option<seq<Row>>, today: string, n: nat)
    returns (task: string, before: Row)
    requires LoadMap(table) != [] && n < |Run(table, cases, file, today).value|
    ensures Held(file, task, before)
    ensures Fits(Run(table, cases, file, today).value[n], before, LoadMap(table), cases, today, task)
  {
    hide Merged, Results, LoadMap, ReadFile, Fits, Written, Held, Get, RowBefore, Keyed;
    FileKeyed(file);
    task := MergedLine(ReadFile(file), table, cases, today, n);
    before := RowBefore(ReadFile(file), task);
    ReadExactly(file, task);
  }

  /** The tasks of the file afterwards are those it had and those with a mapped test in the report. */
  lemma FileTasks(table: seq<Row>, cases: seq<Case>, file: Option<seq<Row>>, today: string, task: string)
    requires LoadMap(table) != []
    ensures
      task in TaskIds(Run(table, cases, file, today).value) <==>
        task != "" && (HasRow(LinesOf(file), task) || !Untested(LoadMap(table), cases, task))
  {
    var mapping, existing := LoadMap(table), ReadFile(file);
    var merged := Merged(existing, mapping, Results(cases), today);
    OneRowEach(table, cases, file, today);
    var ids := TaskIds(Run(table, cases, file, today).value);
    assert task in ids <==> task in Elements(ids);
    ResultsAreReal(existing, mapping, cases, today, task);
    hide Merged, Results, LoadMap, ReadFile, Run, TaskIds, Decides, Holds;
    if task != "" {
      ReadExactly(file, task);
    }
  }
}

/** The separate gate that compares the register's claims with the tokens found in product code. */
module RegisterGate {
  import opened Register
  import opened RegisterRows
  import opened Text
  import opened Wrappers

  const TOKENS := [
    "pg_trgm", "GinIndex", "Shift+P", "Privacy Mode", "Z-score", "django-otp", "WebSocket", "location_tag",
    "TIME_BARRED", "206AB", "Ctrl+K", "Command Palette", "type-to-confirm", "hash chaining", "CartSession",
    "SimpleHistory", "PlanQuotaExceeded"]

  const SUPPORTED := {"Validated (Supported)", "In product", "Code Complete & Verified"}

  const SKIPPED_DIRS := {"__pycache__", "node_modules", "migrations", ".venv", "venv"}

  const SUFFIXES := {".py", ".ts", ".tsx", ".js", ".jsx"}

  /** A file below a scan root: the directories on the way, its suffix, and its text unless unreadable. */
  datatype ProductFile = ProductFile(dirs: seq<string>, suffix: string, text: Option<string>)

  predicate Visited(file: ProductFile) {
    (forall i :: 0 <= i < |file.dirs| ==> file.dirs[i] !in SKIPPED_DIRS) && file.suffix in SUFFIXES && file.text.Some?
  }

  /** The token is in product code. */
  predicate InProduct(files: seq<ProductFile>, token: string) {
    exists f :: 0 <= f < |files| && Visited(files[f]) && Contains(files[f].text.value, token)
  }

  function PresentTokens(files: seq<ProductFile>): set<string> {
    set token | token in TOKENS && InProduct(files, token)
  }

  /** The words that are looked for, in the order in which they are reported. */
  function Words(): seq<string> {
    ["pg_trgm", "GinIndex", "Shift+P", "Privacy Mode", "Z-score", "django-otp", "WebSocket", "location_tag",
     "TIME_BARRED", "206AB", "Ctrl+K", "Command Palette", "type-to-confirm", "hash chaining", "CartSession",
     "SimpleHistory", "PlanQuotaExceeded"]
  }

  /** A readable source file outside generated and foreign directories that contains the word. */
  predicate Mentions(file: ProductFile, word: string) {
    && file.text.Some? && Contains(file.text.value, word)
    && file.suffix in {".py", ".ts", ".tsx", ".js", ".jsx"}
    && forall dir :: dir in file.dirs ==> dir !in {"__pycache__", "node_modules", "migrations", ".venv", "venv"}
  }

  predicate InCode(files: seq<ProductFile>, word: string) {
    exists f :: 0 <= f < |files| && Mentions(files[f], word)
  }

  lemma MentionsExactly(file: ProductFile, word: string)
    ensures Mentions(file, word) <==> Visited(file) && Contains(file.text.value, word)
  {
    hide Contains;
    assert forall i :: 0 <= i < |file.dirs| ==> file.dirs[i] in file.dirs;
    if Visited(file) {
      forall dir | dir in file.dirs
        ensures dir !in SKIPPED_DIRS
      {
        var i :| 0 <= i < |file.dirs| && file.dirs[i] == dir;
      }
    }
  }

  lemma InCodeExactly(files: seq<ProductFile>, word: string)
    ensures InCode(files, word) <==> InProduct(files, word)
  {
    hide Contains, Mentions;
    forall f | 0 <= f < |files|
      ensures Mentions(files[f], word) <==> Visited(files[f]) && Contains(files[f].text.value, word)
    {
      MentionsExactly(files[f], word);
    }
    hide Visited;
  }

  /** The tokens found are the listed words that some product file mentions. */
  lemma PresentExactly(files: seq<ProductFile>, word: string)
    ensures word in PresentTokens(files) <==> word in Words() && InCode(files, word)
  {
    assert Words() == TOKENS;
    InCodeExactly(files, word);
    hide InCode, InProduct, Words, TOKENS;
  }

  method TokensInProduct(files: seq<ProductFile>) returns (found: set<string>)
    ensures found == PresentTokens(files)
    ensures forall word :: word in found <==> word in Words() && InCode(files, word)
  {
    hide Contains, Visited, TOKENS, Mentions, Words;
    found := {};
    for f := 0 to |files|
      invariant forall token :: token in found <==> token in TOKENS && InProduct(files[..f], token)
    {
      OneMoreFile(files, f);
      if Visited(files[f]) {
        VisitedHasText(files[f]);
        var text := files[f].text.value;
        ghost var before := found;
        for t := 0 to |TOKENS|
          invariant forall token :: token in found <==>
            token in before || (token in TOKENS[..t] && Contains(text, token))
        {
          assert TOKENS[..t + 1] == TOKENS[..t] + [TOKENS[t]];
          if Contains(text, TOKENS[t]) {
            found := found + {TOKENS[t]};
          }
        }
        assert TOKENS[..|TOKENS|] == TOKENS;
      }
    }
    assert files[..|files|] == files;
    hide InProduct, InCode, PresentTokens;
    assert found == PresentTokens(files);
    forall word
      ensures word in found <==> word in Words() && InCode(files, word)
    {
      PresentExactly(files, word);
    }
  }

  lemma VisitedHasText(file: ProductFile)
    requires Visited(file)
    ensures file.text.Some?
  {
  }

  lemma OneMoreFile(files: seq<ProductFile>, f: nat)
    requires f < |files|
    ensures forall token :: InProduct(files[..f + 1], token) <==>
      InProduct(files[..f], token) || (Visited(files[f]) && Contains(files[f].text.value, token))
  {
    forall token
      ensures InProduct(files[..f + 1], token) <==>
        InProduct(files[..f], token) || (Visited(files[f]) && Contains(files[f].text.value, token))
    {
      assert forall k :: 0 <= k < f ==> files[..f + 1][k] == files[..f][k] == files[k];
      assert files[..f + 1][f] == files[f];
    }
  }

  // --- The comparison ---

  /** What is wrong with one row. */
  datatype Problem = Stale(id: string, tokens: seq<string>) | Unbacked(id: string, status: string, tokens: seq<string>)

  /** The tokens, in order, that the note names and whose presence in product code is as asked. */
  function Named(tokens: seq<string>, note: string, present: set<string>, wanted: bool): (named: seq<string>)
    ensures forall t :: t in named <==> t in tokens && Contains(note, t) && (t in present) == wanted
  {
    if tokens == [] then []
    else
      var rest := Named(tokens[1..], note, present, wanted);
      if Contains(note, tokens[0]) && (tokens[0] in present) == wanted then [tokens[0]] + rest else rest
  }

  function ProblemOf(row: TaskRow, present: set<string>): Option<Problem> {
    if row.status == "Mechanism not found" then
      var stale := Named(TOKENS, row.notes, present, true);
      if stale != [] then Some(Stale(row.id, stale)) else None
    else if row.status in SUPPORTED then
      var missing := Named(TOKENS, row.notes, present, false);
      if missing != [] then Some(Unbacked(row.id, row.status, missing)) else None
    else None
  }

  function Problems(rows: seq<TaskRow>, present: set<string>): seq<Problem> {
    if rows == [] then []
    else
      Problems(rows[..|rows| - 1], present)
      + match ProblemOf(rows[|rows| - 1], present) case Some(p) => [p] case None => []
  }

  /** Whether a row's claim agrees with the tokens in product code. */
  predicate Agrees(row: TaskRow, present: set<string>) {
    forall t :: t in TOKENS && Contains(row.notes, t) ==>
      && (row.status == "Mechanism not found" ==> t !in present)
      && (row.status in SUPPORTED ==> t in present)
  }

  /** The note names this word against its claim: absent but in the code, or supported but not in it. */
  predicate Blames(row: TaskRow, files: seq<ProductFile>, word: string) {
    && word in Words() && Contains(row.notes, word)
    && if row.status == "Mechanism not found" then InCode(files, word)
       else row.status in {"Validated (Supported)", "In product", "Code Complete & Verified"} && !InCode(files, word)
  }

  predicate Blamed(row: TaskRow, files: seq<ProductFile>) {
    exists w :: 0 <= w < |Words()| && Blames(row, files, Words()[w])
  }

  ghost predicate Places(tokens: seq<string>, named: seq<string>, at: seq<nat>) {
    && |at| == |named| && (forall n :: 0 <= n < |at| ==> at[n] < |tokens| && named[n] == tokens[at[n]])
    && (forall n, m :: 0 <= n < m < |at| ==> at[n] < at[m])
  }

  function Later(at: seq<nat>): seq<nat> {
    seq(|at|, n requires 0 <= n < |at| => at[n] + 1)
  }

  lemma PlacesLater(tokens: seq<string>, named: seq<string>, at: seq<nat>)
    requires tokens != [] && Places(tokens[1..], named, at)
    ensures Places(tokens, named, Later(at))
  {
    assert forall n :: 0 <= n < |at| ==> tokens[1..][at[n]] == tokens[at[n] + 1];
  }

  lemma PlacesFirst(tokens: seq<string>, named: seq<string>, at: seq<nat>)
    requires tokens != [] && Places(tokens, named, at) && forall n :: 0 <= n < |at| ==> at[n] > 0
    ensures Places(tokens, [tokens[0]] + named, [0] + at)
  {
  }

  lemma {:induction false} NamedPlaces(tokens: seq<string>, note: string, present: set<string>, wanted: bool)
    returns (at: seq<nat>)
    ensures Places(tokens, Named(tokens, note, present, wanted), at)
  {
    hide Contains, Places;
    at := [];
    if tokens != [] {
      var rest := Named(tokens[1..], note, present, wanted);
      at := NamedPlaces(tokens[1..], note, present, wanted);
      PlacesLater(tokens, rest, at);
      at := Later(at);
      if Contains(note, tokens[0]) && (tokens[0] in present) == wanted {
        PlacesFirst(tokens, rest, at);
        at := [0] + at;
      }
    } else {
      NoPlaces(tokens);
    }
  }

  lemma NoPlaces(tokens: seq<string>)
    ensures Places(tokens, [], [])
  {
  }

  /** The problem is about this row: its id, its kind, its status, and the words that blame it in the order listed. */
  ghost predicate About(p: Problem, row: TaskRow, files: seq<ProductFile>) {
    && p.id == row.id && (p.Stale? <==> row.status == "Mechanism not found") && (p.Unbacked? ==> p.status == row.status)
    && (forall word :: word in p.tokens <==> Blames(row, files, word))
    && exists at :: Places(Words(), p.tokens, at)
  }

  lemma SomeBlames(row: TaskRow, files: seq<ProductFile>, word: string)
    requires Blames(row, files, word)
    ensures Blamed(row, files)
  {
    hide Contains, InCode;
    var w :| 0 <= w < |Words()| && Words()[w] == word;
    hide Words;
    assert Blames(row, files, Words()[w]);
  }

  lemma BlamesExactly(row: TaskRow, files: seq<ProductFile>, word: string)
    ensures
      var present := PresentTokens(files);
      Blames(row, files, word) <==>
        && word in TOKENS && Contains(row.notes, word)
        && if row.status == "Mechanism not found" then word in present else row.status in SUPPORTED && word !in present
  {
    assert Words() == TOKENS;
    PresentExactly(files, word);
    hide Contains, InCode, PresentTokens, Words, TOKENS;
  }

  lemma NamedFits(row: TaskRow, files: seq<ProductFile>, wanted: bool)
    requires wanted == (row.status == "Mechanism not found") && (wanted || row.status in SUPPORTED)
    ensures
      var named := Named(TOKENS, row.notes, PresentTokens(files), wanted);
      (forall word :: word in named <==> Blames(row, files, word)) && exists at :: Places(Words(), named, at)
  {
    var present := PresentTokens(files);
    assert Words() == TOKENS;
    hide Contains, InCode, PresentTokens, Words, TOKENS, Blames, Places;
    forall word
      ensures word in Named(TOKENS, row.notes, present, wanted) <==> Blames(row, files, word)
    {
      BlamesExactly(row, files, word);
    }
    var at := NamedPlaces(TOKENS, row.notes, present, wanted);
  }

  /** A row is a problem exactly when some word blames it. */
  lemma ProblemFits(row: TaskRow, files: seq<ProductFile>)
    ensures ProblemOf(row, PresentTokens(files)).Some? <==> Blamed(row, files)
    ensures ProblemOf(row, PresentTokens(files)).Some? ==> About(ProblemOf(row, PresentTokens(files)).value, row, files)
  {
    hide Contains, PresentTokens, Words, TOKENS, Blames, Places, Blamed;
    var not := row.status == "Mechanism not found";
    if not || row.status in SUPPORTED {
      NamedFits(row, files, not);
      var named := Named(TOKENS, row.notes, PresentTokens(files), not);
      hide Named;
      if named != [] {
        assert named[0] in named;
        SomeBlames(row, files, named[0]);
      } else if Blamed(row, files) {
        var word := Blaming(row, files);
        assert false;
      }
    } else if Blamed(row, files) {
      var word := Blaming(row, files);
      BlamesExactly(row, files, word);
    }
  }

  lemma Blaming(row: TaskRow, files: seq<ProductFile>) returns (word: string)
    requires Blamed(row, files)
    ensures Blames(row, files, word)
  {
    hide Blames, Words;
    var w :| 0 <= w < |Words()| && Blames(row, files, Words()[w]);
    word := Words()[w];
  }

  /** The problems are those of these rows, in register order, and they are all the blamed ones. */
  ghost predicate Report(rows: seq<TaskRow>, files: seq<ProductFile>, problems: seq<Problem>, at: seq<nat>) {
    && |at| == |problems|
    && (forall n :: 0 <= n < |at| ==> at[n] < |rows| && About(problems[n], rows[at[n]], files))
    && (forall n, m :: 0 <= n < m < |at| ==> at[n] < at[m])
    && (forall i :: 0 <= i < |rows| ==> (Blamed(rows[i], files) <==> i in at))
  }

  lemma ReportSkips(rows: seq<TaskRow>, files: seq<ProductFile>, problems: seq<Problem>, at: seq<nat>)
    requires rows != [] && Report(rows[..|rows| - 1], files, problems, at) && !Blamed(rows[|rows| - 1], files)
    ensures Report(rows, files, problems, at)
  {
    hide Blamed, About;
    assert |rows| - 1 !in at;
  }

  lemma ReportAdds(rows: seq<TaskRow>, files: seq<ProductFile>, problems: seq<Problem>, at: seq<nat>, p: Problem)
    requires rows != [] && Report(rows[..|rows| - 1], files, problems, at)
    requires Blamed(rows[|rows| - 1], files) && About(p, rows[|rows| - 1], files)
    ensures Report(rows, files, problems + [p], at + [|rows| - 1])
  {
    hide Blamed, About;
    var n := |rows| - 1;
    assert forall i :: 0 <= i < n ==> (i in at + [n] <==> i in at);
    assert (at + [n])[|at|] == n;
  }

  lemma {:induction false} ProblemsExactly(rows: seq<TaskRow>, files: seq<ProductFile>) returns (at: seq<nat>)
    ensures Report(rows, files, Problems(rows, PresentTokens(files)), at)
  {
    hide PresentTokens, Report, About, Blamed, ProblemOf;
    if rows == [] {
      at := [];
      EmptyReport(files);
    } else {
      var n := |rows| - 1;
      var before := Problems(rows[..n], PresentTokens(files));
      at := ProblemsExactly(rows[..n], files);
      ProblemFits(rows[n], files);
      if Blamed(rows[n], files) {
        ReportAdds(rows, files, before, at, ProblemOf(rows[n], PresentTokens(files)).value);
        at := at + [n];
      } else {
        ReportSkips(rows, files, before, at);
        assert before + [] == before;
      }
    }
  }

  lemma EmptyReport(files: seq<ProductFile>)
    ensures Report([], files, [], [])
  {
  }

  lemma CleanCheck(rows: seq<TaskRow>, files: seq<ProductFile>)
    ensures Problems(rows, PresentTokens(files)) == [] <==> forall i :: 0 <= i < |rows| ==> !Blamed(rows[i], files)
  {
    hide PresentTokens, About, Blamed, Problems;
    var at := ProblemsExactly(rows, files);
    if at != [] {
      assert at[0] in at;
    } else {
      forall i: nat | i < |rows|
        ensures !Blamed(rows[i], files)
      {
        assert i !in at;
      }
    }
  }

  method Check(rows: seq<TaskRow>, files: seq<ProductFile>) returns (problems: seq<Problem>, exit: nat)
    ensures problems == Problems(rows, PresentTokens(files))
    ensures exists at :: Report(rows, files, problems, at)
    ensures exit == if forall i :: 0 <= i < |rows| ==> !Blamed(rows[i], files) then 0 else 1
  {
    var present := TokensInProduct(files);
    problems := [];
    for i := 0 to |rows|
      invariant problems == Problems(rows[..i], present)
    {
      var row := rows[i];
      if row.status == "Mechanism not found" {
        var stale := Named(TOKENS, row.notes, present, true);
        if stale != [] {
          problems := problems + [Stale(row.id, stale)];
        }
      } else if row.status in SUPPORTED {
        var missing := Named(TOKENS, row.notes, present, false);
        if missing != [] {
          problems := problems + [Unbacked(row.id, row.status, missing)];
        }
      }
      assert rows[..i + 1][..i] == rows[..i];
      hide Named, Contains, TOKENS;
    }
    assert rows[..|rows|] == rows;
    exit := if problems == [] then 0 else 1;
    CleanCheck(rows, files);
    ghost var at := ProblemsExactly(rows, files);
  }

  lemma ProblemExactly(row: TaskRow, present: set<string>)
    ensures ProblemOf(row, present).None? <==> Agrees(row, present)
  {
    hide Contains, TOKENS;
    var stale, missing := Named(TOKENS, row.notes, present, true), Named(TOKENS, row.notes, present, false);
    assert stale != [] ==> stale[0] in stale;
    assert missing != [] ==> missing[0] in missing;
  }

  /** The gate exits clean exactly when no row's claim disagrees with the tokens found. */
  lemma {:induction false} CleanExactly(rows: seq<TaskRow>, present: set<string>)
    ensures Problems(rows, present) == [] <==> forall row :: row in rows ==> Agrees(row, present)
  {
    hide Agrees, ProblemOf;
    if rows != [] {
      var n := |rows| - 1;
      CleanExactly(rows[..n], present);
      ProblemExactly(rows[n], present);
      assert rows == rows[..n] + [rows[n]];
    }
  }

  // --- The builder and the gate ---

  lemma InNeitherPart(action: string, notes: string, token: string)
    requires !Contains(action + "\n" + notes, token)
    ensures !Contains(action, token) && !Contains(notes, token)
  {
    hide Contains;
    assert [] + action + ("\n" + notes) == action + "\n" + notes;
    assert action + "\n" + notes + [] == action + "\n" + notes;
    if Contains(action, token) {
      ContainsWider([], action, "\n" + notes, token);
    }
    if Contains(notes, token) {
      ContainsWider(action + "\n", notes, [], token);
    }
  }

  lemma NotListed(tokens: seq<string>, text: string, token: string)
    requires Absent(tokens, text).None? && Listed(tokens, token)
    ensures !Contains(text, token)
  {
    var k :| 0 <= k < |tokens| && tokens[k] == token;
    NoneAbsent(tokens, text, k);
  }

  /** Each gate token but one is a token that the builder looks for. */
  lemma TokenPlaces(t: nat)
    requires t < |TOKENS|
    ensures TOKENS[t] == "CartSession" || Listed(TokensOf(Hard), TOKENS[t]) || Listed(TokensOf(Soft), TOKENS[t])
  {
    assert t < 14 ==> TOKENS[t] == TokensOf(Hard)[t];
    assert t > 14 ==> TOKENS[t] == TokensOf(Soft)[t - 15];
  }

  /** A reviewed row that still has a supported status names no absent mechanism, in its action or its note. */
  lemma SupportedNamesNone(s: Sources, row: TaskRow, token: string)
    requires ReviewedTask(s, row).status in SUPPORTED
    requires Listed(TokensOf(Hard), token) || Listed(TokensOf(Soft), token)
    ensures !Contains(ReviewedTask(s, row).action, token) && !Contains(ReviewedTask(s, row).notes, token)
  {
    var text := row.action + "\n" + row.notes;
    SupportedFinding(s, row);
    hide ReviewedTask, ApplyEvidence, TokensOf, Absent, Listed, Contains;
    if Listed(TokensOf(Hard), token) {
      NotListed(TokensOf(Hard), text, token);
    } else {
      NotListed(TokensOf(Soft), text, token);
    }
    InNeitherPart(row.action, row.notes, token);
  }

  lemma SupportedFinding(s: Sources, row: TaskRow)
    requires ReviewedTask(s, row).status in SUPPORTED
    ensures
      var text := row.action + "\n" + row.notes;
      Absent(TokensOf(Hard), text).None? && Absent(TokensOf(Soft), text).None?
    ensures ReviewedTask(s, row).action == row.action && ReviewedTask(s, row).notes == row.notes
  {
    hide Absent, CodeSymbol, RefinePriority, AuthoredPriority, TokensOf;
  }

  lemma UnbackedToken(row: TaskRow, present: set<string>, t: string)
    requires row.status in SUPPORTED
    requires ProblemOf(row, present).Some? && t in ProblemOf(row, present).value.tokens
    ensures t in TOKENS && Contains(row.notes, t) && t !in present
  {
    hide Contains, TOKENS;
  }

  lemma OnlyCartSessionMissed(s: Sources, raw: TaskRow, t: string)
    requires ReviewedTask(s, raw).status in SUPPORTED && t in TOKENS && Contains(ReviewedTask(s, raw).notes, t)
    ensures t == "CartSession"
  {
    var k :| 0 <= k < |TOKENS| && TOKENS[k] == t;
    TokenPlaces(k);
    hide Contains, ReviewedTask, TOKENS, TokensOf, Listed;
    if t != "CartSession" {
      SupportedNamesNone(s, raw, t);
    }
  }

  /** On a rebuilt register the gate can blame a supported row for CartSession alone. */
  lemma OnlyCartSession(s: Sources, csv: seq<TaskRow>, present: set<string>, row: TaskRow, t: string)
    requires row in Stored(Rebuild(s, csv)) && row.status in SUPPORTED
    requires ProblemOf(row, present).Some? && t in ProblemOf(row, present).value.tokens
    ensures t == "CartSession" && t !in present
  {
    hide Rebuild, Stored, Current, Contains, ReviewedTask, ProblemOf, TOKENS;
    StoredRows(s, csv);
    UnbackedToken(row, present, t);
    var i :| 0 <= i < |Stored(Rebuild(s, csv))| && Stored(Rebuild(s, csv))[i] == row;
    OnlyCartSessionMissed(s, Current(s, csv)[i], t);
  }
}

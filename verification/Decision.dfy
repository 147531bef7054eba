/** The sentence that records a priority decision, and the parse that reads the previous priority back. */
module Decision {
  import opened Text
  import opened Wrappers

  const MARKER := "The previous workbook had "

  function PriorityDecision(authored: string, final: string, previous: string): string {
    if final == previous && final == authored then "Unchanged"
    else if final == authored && final != previous then
      "Restored to authored " + final + ". " + MARKER + (previous + " after a keyword rebalance.")
    else if final != previous then
      "Set to " + final + ". " + MARKER + (previous + (". Authored priority was " + authored + "."))
    else
      "Kept " + final + ". " + MARKER + (previous + (". Authored priority was " + authored + "."))
  }

  predicate StartsWith(text: string, prefix: string) {
    At(text, prefix, 0)
  }

  /** The rows that the priority sheet lists as changed, and those it counts as kept. */
  predicate ListedChanged(decision: string) {
    Contains(decision, "The previous workbook had") && !StartsWith(decision, "Kept ")
  }

  predicate CountedKept(decision: string) {
    StartsWith(decision, "Kept ")
  }

  /** decision.split(MARKER, 1)[1].split(".", 1)[0].split(" ", 1)[0], or empty without the marker. */
  function RecoverPrevious(decision: string): string {
    if Contains(decision, MARKER) then Before(Before(AfterFirst(decision, MARKER), "."), " ") else ""
  }

  /** No space and no full stop. */
  predicate Plain(priority: string) {
    forall i :: 0 <= i < |priority| ==> priority[i] != ' ' && priority[i] != '.'
  }

  /** What follows the marker in a sentence about a change. */
  function Tail(authored: string, final: string): string {
    if final == authored then " after a keyword rebalance." else ". Authored priority was " + authored + "."
  }

  function Lead(authored: string, final: string): string {
    if final == authored then "Restored to authored " else "Set to "
  }

  lemma Sentence(authored: string, final: string, previous: string)
    requires final != previous
    ensures PriorityDecision(authored, final, previous)
      == Lead(authored, final) + final + ". " + MARKER + (previous + Tail(authored, final))
  {
  }

  /** The four sentences: which one is written, and the priorities that stand in it. */
  predicate SentenceFits(sentence: string, authored: string, final: string, previous: string) {
    var had := ". The previous workbook had " + previous;
    && (authored == final == previous ==> sentence == "Unchanged")
    && (authored == final != previous ==>
          sentence == "Restored to authored " + final + had + " after a keyword rebalance.")
    && (final != authored && final != previous ==>
          sentence == "Set to " + final + had + ". Authored priority was " + authored + ".")
    && (authored != final == previous ==>
          sentence == "Kept " + final + had + ". Authored priority was " + authored + ".")
  }

  lemma RestoredText(final: string, previous: string)
    requires final != previous
    ensures PriorityDecision(final, final, previous)
      == "Restored to authored " + final + (". The previous workbook had " + previous) + " after a keyword rebalance."
  {
    var had := ". The previous workbook had ";
    assert had == ". " + MARKER;
    Regroup("Restored to authored ", final, ". ", MARKER, previous, " after a keyword rebalance.");
    hide MARKER;
  }

  lemma ChosenText(authored: string, final: string, previous: string)
    requires authored != final
    ensures PriorityDecision(authored, final, previous)
      == (if final == previous then "Kept " else "Set to ") + final + (". The previous workbook had " + previous)
         + ". Authored priority was " + authored + "."
  {
    var had := ". The previous workbook had ";
    assert had == ". " + MARKER;
    var lead, tail := if final == previous then "Kept " else "Set to ", ". Authored priority was ";
    Regroup(lead, final, ". ", MARKER, previous, tail + authored + ".");
    RegroupTail(lead + final + (had + previous), tail, authored, ".");
    hide MARKER;
  }

  lemma SentenceExactly(authored: string, final: string, previous: string)
    ensures SentenceFits(PriorityDecision(authored, final, previous), authored, final, previous)
  {
    if authored != final {
      hide PriorityDecision;
      ChosenText(authored, final, previous);
    } else if final != previous {
      hide PriorityDecision;
      RestoredText(final, previous);
    }
  }

  lemma Regroup(lead: string, final: string, dot: string, marker: string, previous: string, tail: string)
    ensures lead + final + dot + marker + (previous + tail) == lead + final + ((dot + marker) + previous) + tail
  {
  }

  lemma RegroupTail(text: string, tail: string, authored: string, dot: string)
    ensures text + (tail + authored + dot) == text + tail + authored + dot
  {
  }

  lemma FirstMarker(lead: string, final: string, rest: string)
    requires lead == "Restored to authored " || lead == "Set to "
    requires Plain(final)
    ensures Find(lead + final + ". " + MARKER + rest, MARKER, 0) == Some(|lead + final| + 2)
  {
    var text := lead + final + ". " + MARKER + rest;
    var p := |lead + final| + 2;
    assert text[p..p + |MARKER|] == MARKER;
    assert At(text, MARKER, p);
    forall k | 0 <= k < p
      ensures !At(text, MARKER, k)
    {
      BeforeMarker(lead, final, MARKER + rest, k);
      assert text == lead + final + ". " + (MARKER + rest);
      MarkerLetters(text, k);
    }
    hide At;
  }

  /** Before the marker no "The " starts: the lead has none, and a plain priority has no space. */
  lemma BeforeMarker(lead: string, final: string, rest: string, k: nat)
    requires lead == "Restored to authored " || lead == "Set to "
    requires Plain(final) && k < |lead + final| + 2 && k + 3 < |lead + final + ". " + rest|
    ensures
      var text := lead + final + ". " + rest;
      !(text[k] == 'T' && text[k + 1] == 'h' && text[k + 2] == 'e' && text[k + 3] == ' ')
  {
    var text, d := lead + final + ". " + rest, |lead + final|;
    assert text[d] == '.' && text[d + 1] == ' ';
    if k < |lead| {
      assert text[k] == lead[k];
    } else {
      assert forall i :: |lead| <= i < d ==> text[i] == final[i - |lead|];
    }
  }

  lemma MarkerLetters(text: string, k: nat)
    ensures At(text, MARKER, k) ==>
      k + 3 < |text| && text[k] == 'T' && text[k + 1] == 'h' && text[k + 2] == 'e' && text[k + 3] == ' '
  {
    if At(text, MARKER, k) {
      var s := text[k..k + |MARKER|];
      assert s[0] == text[k] && s[1] == text[k + 1] && s[2] == text[k + 2] && s[3] == text[k + 3];
    }
  }

  lemma RecoverFrom(lead: string, final: string, rest: string)
    requires lead == "Restored to authored " || lead == "Set to "
    requires Plain(final)
    ensures RecoverPrevious(lead + final + ". " + MARKER + rest) == Before(Before(rest, "."), " ")
  {
    var text := lead + final + ". " + MARKER + rest;
    FirstMarker(lead, final, rest);
    assert At(text, MARKER, |lead + final| + 2);
    assert text[|lead + final| + 2 + |MARKER|..] == rest;
  }

  lemma BeforeChar(text: string, c: char)
    ensures |Before(text, [c])| <= |text| && Before(text, [c]) == text[..|Before(text, [c])|]
    ensures c !in Before(text, [c])
    ensures |Before(text, [c])| == |text| || text[|Before(text, [c])|] == c
  {
    forall k | 0 <= k < |text|
      ensures At(text, [c], k) <==> text[k] == c
    {
      assert text[k..k + 1] == [text[k]];
    }
  }

  lemma BeforeFirst(text: string, c: char, n: nat)
    requires n <= |text| && c !in text[..n] && (n < |text| ==> text[n] == c)
    ensures Before(text, [c]) == text[..n]
  {
    BeforeChar(text, c);
    var m := |Before(text, [c])|;
    assert forall i :: 0 <= i < n ==> text[i] in text[..n];
    assert forall i :: 0 <= i < m ==> text[i] in text[..m];
  }

  lemma RecoverPlain(previous: string, authored: string, final: string)
    ensures Before(Before(previous + Tail(authored, final), "."), " ") == previous <==> Plain(previous)
  {
    var rest := previous + Tail(authored, final);
    var x := Before(rest, ".");
    BeforeChar(rest, '.');
    BeforeChar(x, ' ');
    if Plain(previous) {
      assert forall c :: c in previous ==> c != '.' && c != ' ';
      if final == authored {
        AfterText(previous);
      } else {
        AuthoredText(previous, authored);
      }
    } else {
      var y := Before(x, " ");
      assert forall c :: c in y ==> c in x;
      assert Plain(y);
    }
  }

  lemma AfterText(previous: string)
    requires Plain(previous)
    ensures Before(Before(previous + " after a keyword rebalance.", "."), " ") == previous
  {
    var phrase := " after a keyword rebalance";
    var rest := previous + " after a keyword rebalance.";
    var n := |previous| + |phrase|;
    assert rest[..n] == previous + phrase;
    assert forall c :: c in previous ==> c != '.' && c != ' ';
    assert '.' !in phrase;
    BeforeFirst(rest, '.', n);
    var x := previous + phrase;
    assert x[..|previous|] == previous;
    BeforeFirst(x, ' ', |previous|);
  }

  lemma AuthoredText(previous: string, authored: string)
    requires Plain(previous)
    ensures Before(Before(previous + (". Authored priority was " + authored + "."), "."), " ") == previous
  {
    var tail := ". Authored priority was " + authored + ".";
    var rest := previous + tail;
    assert forall c :: c in previous ==> c != '.' && c != ' ';
    assert tail[0] == '.';
    assert rest[..|previous|] == previous;
    BeforeFirst(rest, '.', |previous|);
    assert previous[..|previous|] == previous;
    BeforeFirst(previous, ' ', |previous|);
  }

  /** Reading a change sentence back gives the previous priority exactly when that priority has no space
      and no full stop. */
  lemma RecoversExactly(authored: string, final: string, previous: string)
    requires Plain(final) && final != previous
    ensures RecoverPrevious(PriorityDecision(authored, final, previous)) == previous <==> Plain(previous)
  {
    Sentence(authored, final, previous);
    RecoverFrom(Lead(authored, final), final, previous + Tail(authored, final));
    RecoverPlain(previous, authored, final);
  }

  lemma ChangeSentence(authored: string, final: string, previous: string)
    requires final != previous
    ensures
      var d := PriorityDecision(authored, final, previous);
      d != [] && d[0] != 'K' && d[0] != 'U' && ListedChanged(d)
  {
    Sentence(authored, final, previous);
    var d := PriorityDecision(authored, final, previous);
    var lead, rest := Lead(authored, final), previous + Tail(authored, final);
    MarkerInside(lead + final + ". ", rest);
    assert d[0] == lead[0];
    FirstLetter(d, "Kept ");
  }

  lemma MarkerInside(before: string, rest: string)
    ensures Contains(before + MARKER + rest, "The previous workbook had")
  {
    var text := before + MARKER + rest;
    var short := "The previous workbook had";
    var p := |before|;
    assert text[p..p + |MARKER|] == MARKER;
    assert MARKER[..|short|] == short;
    assert text[p..p + |short|] == text[p..p + |MARKER|][..|short|];
    assert At(text, short, p);
  }

  lemma FirstLetter(text: string, prefix: string)
    requires prefix != []
    ensures StartsWith(text, prefix) ==> text != [] && text[0] == prefix[0]
  {
    if StartsWith(text, prefix) {
      assert text[0..|prefix|][0] == text[0];
    }
  }

  lemma KeptSentence(authored: string, final: string)
    requires final != authored
    ensures
      var d := PriorityDecision(authored, final, final);
      d != "Unchanged" && StartsWith(d, "Kept ")
  {
    var d := PriorityDecision(authored, final, final);
    assert d[0..5] == "Kept ";
    assert d[0] == 'K';
  }

  /** The sheet lists a row as changed exactly when the final priority differs from the previous one,
      counts it as kept exactly when only the authored one differs, and otherwise says Unchanged. */
  lemma DecisionKinds(authored: string, final: string, previous: string)
    ensures
      var d := PriorityDecision(authored, final, previous);
      && (ListedChanged(d) <==> final != previous)
      && (CountedKept(d) <==> final == previous != authored)
      && (d == "Unchanged" <==> authored == final == previous)
  {
    if final != previous {
      ChangeSentence(authored, final, previous);
    } else if final != authored {
      KeptSentence(authored, final);
    } else {
      FirstLetter("Unchanged", "Kept ");
    }
  }

  /** Two different first letters: a change sentence is never an Unchanged or Kept one. */
  lemma ChangeIsVisible(authored: string, final: string, previous: string, other: string)
    requires final != previous
    ensures PriorityDecision(authored, final, previous) != PriorityDecision(other, final, final)
  {
    DecisionKinds(authored, final, previous);
    DecisionKinds(other, final, final);
  }
}

/** Strings as Python sees them: substring tests, splitting once, and code-point order. */
module Text {
  import opened Sorting
  import opened Wrappers

  predicate At(text: string, token: string, i: int) {
    0 <= i <= |text| - |token| && text[i..i + |token|] == token
  }

  /** `token in text`. */
  predicate Contains(text: string, token: string) {
    exists i :: 0 <= i <= |text| && At(text, token, i)
  }

  /** A text contains a token exactly when it is the token with something, maybe nothing, on either side. */
  lemma ContainsExactly(text: string, token: string)
    ensures Contains(text, token) <==> exists before, after :: text == before + token + after
  {
    if Contains(text, token) {
      var i :| 0 <= i <= |text| && At(text, token, i);
      assert text == text[..i] + token + text[i + |token|..];
    }
    forall before, after | text == before + token + after
      ensures Contains(text, token)
    {
      assert text[|before|..|before| + |token|] == token;
      assert At(text, token, |before|);
    }
  }

  lemma ContainsWider(before: string, text: string, after: string, token: string)
    requires Contains(text, token)
    ensures Contains(before + text + after, token)
  {
    var i :| 0 <= i <= |text| && At(text, token, i);
    var whole := before + text + after;
    var k := |before| + i;
    assert whole[k..k + |token|] == text[i..i + |token|];
    assert At(whole, token, k);
  }

  /** The first place of `token` in `text` from `from` on; None when there is none. */
  function Find(text: string, token: string, from: nat): (r: Option<nat>)
    ensures r.Some? ==> from <= r.value && At(text, token, r.value)
    ensures forall k :: from <= k <= |text| && (r.None? || k < r.value) ==> !At(text, token, k)
    decreases |text| - from
  {
    if At(text, token, from) then Some(from)
    else if from >= |text| then None
    else Find(text, token, from + 1)
  }

  /** text.split(token, 1)[0] */
  function Before(text: string, token: string): string {
    match Find(text, token, 0)
    case Some(i) => text[..i]
    case None => text
  }

  /** text.split(token, 1)[1], for a text that contains the token. */
  function AfterFirst(text: string, token: string): string
    requires Contains(text, token)
  {
    text[Find(text, token, 0).value + |token|..]
  }

  // --- Order ---

  predicate Less(a: string, b: string) {
    if b == [] then false
    else if a == [] then true
    else a[0] < b[0] || (a[0] == b[0] && Less(a[1..], b[1..]))
  }

  /** Up to place k they agree; there a ends, or has the smaller character. */
  predicate LessAt(a: string, b: string, k: nat) {
    k <= |a| && k < |b| && a[..k] == b[..k] && (k < |a| ==> a[k] < b[k])
  }

  /** A text is less when it is the beginning of the other, or smaller in the first place where they differ. */
  lemma {:induction false} LessExactly(a: string, b: string)
    ensures Less(a, b) <==> exists k: nat :: LessAt(a, b, k)
  {
    if a == [] || b == [] {
      assert b != [] ==> LessAt(a, b, 0);
    } else {
      LessExactly(a[1..], b[1..]);
      if a[0] < b[0] {
        assert LessAt(a, b, 0);
      } else if Less(a, b) {
        var k: nat :| LessAt(a[1..], b[1..], k);
        assert a[..k + 1] == [a[0]] + a[1..][..k] && b[..k + 1] == [b[0]] + b[1..][..k];
        assert LessAt(a, b, k + 1);
      }
      forall k: nat | LessAt(a, b, k)
        ensures Less(a, b)
      {
        if k > 0 {
          assert a[..k][0] == a[0] && b[..k][0] == b[0];
          assert a[..k][1..] == a[1..][..k - 1] && b[..k][1..] == b[1..][..k - 1];
          assert LessAt(a[1..], b[1..], k - 1);
        }
      }
    }
  }

  lemma {:induction false} LessTotal(a: string, b: string)
    ensures a == b || Less(a, b) || Less(b, a)
    ensures !(Less(a, b) && Less(b, a)) && !Less(a, a)
  {
    if a != [] && b != [] {
      LessTotal(a[1..], b[1..]);
      LessTotal(a[1..], a[1..]);
      if a[0] == b[0] && a[1..] == b[1..] {
        assert a == [a[0]] + a[1..] && b == [b[0]] + b[1..];
      }
    } else if a != [] {
      LessTotal(a[1..], a[1..]);
    }
  }

  lemma {:induction false} LessTransitive(a: string, b: string, c: string)
    requires Less(a, b) && Less(b, c)
    ensures Less(a, c)
  {
    if a != [] && a[0] == b[0] == c[0] {
      LessTransitive(a[1..], b[1..], c[1..]);
    }
  }

  predicate Ascending(s: seq<string>) {
    forall i, j :: 0 <= i < j < |s| ==> Less(s[i], s[j])
  }

  function Elements(s: seq<string>): (keys: set<string>)
    ensures forall y :: y in keys <==> y in s
  {
    set y | y in s
  }

  predicate Distinct(s: seq<string>) {
    forall i, j :: 0 <= i < j < |s| ==> s[i] != s[j]
  }

  lemma LessIsOrder()
    ensures ByKey(Less)
  {
    forall a, b, c
      ensures Less(a, b) ==> !Less(b, a)
      ensures !Less(b, a) && !Less(c, b) ==> !Less(c, a)
    {
      LessTotal(a, b);
      LessTotal(b, c);
      LessTotal(a, c);
      if Less(a, b) && Less(b, c) {
        LessTransitive(a, b, c);
      }
    }
  }

  lemma {:induction false} DistinctCounts(s: seq<string>, x: string)
    requires Distinct(s)
    ensures multiset(s)[x] == if x in s then 1 else 0
  {
    if s != [] {
      var n := |s| - 1;
      assert s == s[..n] + [s[n]];
      DistinctCounts(s[..n], x);
    }
  }

  lemma TwiceCounts(s: seq<string>, i: nat, j: nat)
    requires i < j < |s| && s[i] == s[j]
    ensures multiset(s)[s[i]] >= 2
  {
    assert s == s[..j] + [s[j]] + s[j + 1..];
    assert s[..j][i] == s[i];
  }

  /** Sorting distinct strings lists them in ascending order. */
  lemma SortAscends(s: seq<string>)
    requires Distinct(s)
    ensures var t := Sort(s, Less); Ascending(t) && Elements(t) == Elements(s) && |t| == |s|
  {
    var t := Sort(s, Less);
    LessIsOrder();
    SortOrdered(s, Less);
    SortMembers(s, Less);
    forall i, j | 0 <= i < j < |t|
      ensures Less(t[i], t[j])
    {
      DistinctCounts(s, t[i]);
      LessTotal(t[i], t[j]);
      if t[i] == t[j] {
        TwiceCounts(t, i, j);
      }
    }
  }

  /** The strings of a set, in some order. */
  ghost function AsList(keys: set<string>): (s: seq<string>)
    ensures Distinct(s) && Elements(s) == keys && |s| == |keys|
    decreases |keys|
  {
    if keys == {} then []
    else
      var k :| k in keys;
      var rest := AsList(keys - {k});
      assert k !in rest by { assert k !in Elements(rest); }
      rest + [k]
  }

  /** sorted(keys). */
  ghost function SortedKeys(keys: set<string>): (s: seq<string>)
    ensures Ascending(s) && Elements(s) == keys && |s| == |keys|
  {
    SortAscends(AsList(keys));
    Sort(AsList(keys), Less)
  }

  /** There is only one ascending list of the same strings. */
  lemma {:induction false} AscendingUnique(a: seq<string>, b: seq<string>)
    requires Ascending(a) && Ascending(b) && Elements(a) == Elements(b)
    ensures a == b
  {
    assert a != [] ==> a[0] in Elements(a);
    assert b != [] ==> b[0] in Elements(b);
    if a != [] {
      SmallestFirst(a, b[0]);
      SmallestFirst(b, a[0]);
      LessTotal(a[0], b[0]);
      DropFirst(a);
      DropFirst(b);
      AscendingUnique(a[1..], b[1..]);
      assert a == [a[0]] + a[1..] && b == [b[0]] + b[1..];
    }
  }

  lemma SmallestFirst(s: seq<string>, x: string)
    requires s != [] && Ascending(s) && x in s
    ensures x == s[0] || Less(s[0], x)
  {
  }

  lemma DropFirst(s: seq<string>)
    requires s != [] && Ascending(s)
    ensures Ascending(s[1..]) && Elements(s[1..]) == Elements(s) - {s[0]}
  {
    LessTotal(s[0], s[0]);
    assert forall k :: 0 <= k < |s[1..]| ==> s[1..][k] != s[0];
    hide Less, Ascending;
    FirstOrRest(s);
  }
}

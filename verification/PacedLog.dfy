/** Logs of timed events in which each virtual user keeps a minimum gap, and how many events a
    sliding half-open window of such a log can hold. */
module PacedLog {
  import opened Arithmetic

  datatype Event = Event(vu: nat, at: real)

  function Ceil(x: real): (n: int)
    ensures (n - 1) as real < x <= n as real
  {
    -((-x).Floor)
  }

  lemma CeilLeast(x: real, n: int)
    ensures Ceil(x) <= n <==> x <= n as real
  {
  }

  /** Events of one user in `vus` are at least `gap` seconds apart, in log order. */
  predicate Paced(log: seq<Event>, vus: set<nat>, gap: real) {
    forall i, j :: 0 <= i < j < |log| && log[i].vu == log[j].vu && log[i].vu in vus ==> log[j].at >= log[i].at + gap
  }

  predicate Inside(e: Event, vus: set<nat>, from: real, width: real) {
    e.vu in vus && from <= e.at < from + width
  }

  /** How many events of these users fall in [from, from + width). */
  function InWindow(log: seq<Event>, vus: set<nat>, from: real, width: real): nat {
    if log == [] then 0
    else InWindow(log[..|log| - 1], vus, from, width) + if Inside(log[|log| - 1], vus, from, width) then 1 else 0
  }

  lemma {:induction false} InWindowSplit(log: seq<Event>, vus: set<nat>, v: nat, from: real, width: real)
    requires v in vus
    ensures InWindow(log, vus, from, width) == InWindow(log, vus - {v}, from, width) + InWindow(log, {v}, from, width)
  {
    if log != [] {
      InWindowSplit(log[..|log| - 1], vus, v, from, width);
    }
  }

  lemma {:induction false} InWindowNone(log: seq<Event>, from: real, width: real)
    ensures InWindow(log, {}, from, width) == 0
  {
    if log != [] {
      InWindowNone(log[..|log| - 1], from, width);
    }
  }

  lemma {:induction false} AllInside(log: seq<Event>, vus: set<nat>, from: real, width: real)
    requires forall e :: e in log ==> Inside(e, vus, from, width)
    ensures InWindow(log, vus, from, width) == |log|
  {
    hide Inside;
    if log != [] {
      AllInside(log[..|log| - 1], vus, from, width);
    }
  }

  /** The length of k gaps. */
  function Gaps(k: int, gap: real): real {
    k as real * gap
  }

  lemma OneMoreGap(k: int, gap: real)
    ensures Gaps(k - 1, gap) + gap == Gaps(k, gap)
    ensures Gaps(0, gap) == 0.0
    ensures gap > 0.0 && k >= 0 ==> Gaps(k, gap) >= 0.0
  {
    assert (k - 1) as real == k as real - 1.0;
  }

  lemma FewerGaps(few: int, many: int, gap: real)
    requires few <= many && gap >= 0.0
    ensures Gaps(few, gap) <= Gaps(many, gap)
    ensures few < many ==> Gaps(few, gap) + gap <= Gaps(many, gap)
    decreases many - few
  {
    if few < many {
      OneMoreGap(many, gap);
      FewerGaps(few, many - 1, gap);
    }
  }

  lemma LongerGaps(n: nat, a: real, b: real)
    requires a <= b
    ensures Gaps(n, a) <= Gaps(n, b)
  {
    Scale(a, b, n as real);
  }

  /** The last of k events of one user in a window comes k - 1 gaps after the window opens. */
  lemma {:induction false} LastInside(log: seq<Event>, v: nat, gap: real, from: real, width: real) returns (i: nat)
    requires Paced(log, {v}, gap) && InWindow(log, {v}, from, width) > 0
    ensures i < |log| && Inside(log[i], {v}, from, width)
    ensures log[i].at >= from + Gaps(InWindow(log, {v}, from, width) - 1, gap)
  {
    OneMoreGap(0, gap);
    hide Gaps;
    var last := |log| - 1;
    var k := InWindow(log[..last], {v}, from, width);
    if !Inside(log[last], {v}, from, width) {
      i := LastInside(log[..last], v, gap, from, width);
    } else {
      i := last;
      if k > 0 {
        var j := LastInside(log[..last], v, gap, from, width);
        assert log[..last][j] == log[j];
        assert log[last].at >= log[j].at + gap;
        OneMoreGap(k, gap);
      }
    }
  }

  lemma OneUserBound(log: seq<Event>, v: nat, gap: real, from: real, width: real)
    requires gap > 0.0 && width > 0.0 && Paced(log, {v}, gap)
    ensures InWindow(log, {v}, from, width) <= Ceil(width / gap)
  {
    var k := InWindow(log, {v}, from, width);
    if k == 0 {
      CeilLeast(width / gap, -1);
      assert width / gap > 0.0;
    } else {
      var i := LastInside(log, v, gap, from, width);
      QuotientAbove(k - 1, gap, width);
    }
  }

  lemma QuotientAbove(n: int, gap: real, width: real)
    requires gap > 0.0 && Gaps(n, gap) < width
    ensures n as real < width / gap
  {
    assert width / gap * gap == width;
  }

  /** n users keeping a gap put at most n * ceil(width / gap) events in any window. */
  lemma {:induction false} WindowBound(log: seq<Event>, vus: set<nat>, gap: real, from: real, width: real)
    requires gap > 0.0 && width > 0.0 && Paced(log, vus, gap)
    ensures InWindow(log, vus, from, width) <= |vus| * Ceil(width / gap)
    decreases |vus|
  {
    if vus == {} {
      InWindowNone(log, from, width);
    } else {
      var v :| v in vus;
      InWindowSplit(log, vus, v, from, width);
      OneUserBound(log, v, gap, from, width);
      WindowBound(log, vus - {v}, gap, from, width);
      assert |vus| * Ceil(width / gap) == |vus - {v}| * Ceil(width / gap) + Ceil(width / gap);
    }
  }

  /** The listed users below n. */
  function Below(vus: set<nat>, n: nat): set<nat> {
    set v | v in vus && v < n
  }

  lemma BelowStep(vus: set<nat>, n: nat)
    ensures |Below(vus, n + 1)| == |Below(vus, n)| + if n in vus then 1 else 0
  {
    if n in vus {
      assert Below(vus, n + 1) == Below(vus, n) + {n};
    } else {
      assert Below(vus, n + 1) == Below(vus, n);
    }
  }

  lemma OneMoreTime(x: int, k: int)
    ensures x * k == x * (k - 1) + x
  {
  }

  lemma RoundsFit(gap: real, width: real)
    requires gap > 0.0 && width > 0.0
    ensures Ceil(width / gap) >= 1 && Gaps(Ceil(width / gap) - 1, gap) < width
  {
    var q := width / gap;
    assert q * gap == width && q > 0.0;
    assert (q - (Ceil(q) - 1) as real) * gap > 0.0;
  }
}

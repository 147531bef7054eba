/** Signing in before a run, one login every gap, and the spread of the month-end arrivals. */
module SetupAndArrivals {
  import opened Arithmetic
  import opened PacedLog
  import opened Wrappers

  /** How long the server takes for one sign-in, and the session it gives, if any. */
  datatype SignIn = SignIn(took: real, session: Option<string>)

  predicate Timed(plan: seq<SignIn>, longest: real) {
    forall i :: 0 <= i < |plan| ==> 0.0 <= plan[i].took <= longest
  }

  /** When sign-in i starts: every earlier one took its time and was followed by the gap. */
  function StartOf(plan: seq<SignIn>, gap: real, i: nat): real
    requires i <= |plan|
  {
    if i == 0 then 0.0 else StartOf(plan, gap, i - 1) + plan[i - 1].took + gap
  }

  function Starts(plan: seq<SignIn>, gap: real, n: nat): (log: seq<Event>)
    requires n <= |plan|
    ensures |log| == n && forall i :: 0 <= i < n ==> log[i] == Event(0, StartOf(plan, gap, i))
  {
    seq(n, i requires 0 <= i < n => Event(0, StartOf(plan, gap, i)))
  }

  /** When the last answer arrives. */
  function EndOf(plan: seq<SignIn>, gap: real): real {
    if plan == [] then 0.0 else StartOf(plan, gap, |plan| - 1) + plan[|plan| - 1].took
  }

  /** The sessions of the first n answers, when all gave one. */
  predicate AllAnswered(plan: seq<SignIn>, n: nat)
    requires n <= |plan|
  {
    forall i :: 0 <= i < n ==> plan[i].session.Some?
  }

  lemma StartNext(plan: seq<SignIn>, gap: real, i: nat)
    requires i < |plan|
    ensures StartOf(plan, gap, i) == if i == 0 then 0.0 else StartOf(plan, gap, i - 1) + plan[i - 1].took + gap
  {
  }

  /** setup() of the mixed and SLO drivers: the gap comes before every sign-in but the first. */
  method MixedSetup(emails: seq<string>, password: string, plan: seq<SignIn>, gap: real)
    returns (r: Result<seq<string>, string>, log: seq<Event>, clock: real)
    requires 0 < |emails| == |plan|
    ensures r.Success? <==> emails[0] != "" && password != "" && AllAnswered(plan, |plan|)
    ensures r.Success? ==>
      |r.value| == |emails| && forall i :: 0 <= i < |emails| ==> Some(r.value[i]) == plan[i].session
    ensures |log| <= |plan| && log == Starts(plan, gap, |log|)
    ensures r.Success? ==> |log| == |plan| && clock == EndOf(plan, gap)
    ensures r.Failure? && 0 < |log| ==> AllAnswered(plan, |log| - 1) && plan[|log| - 1].session.None?
  {
    hide StartOf;
    log, clock := [], 0.0;
    if emails[0] == "" || password == "" {
      return Failure("EMAIL (or STAFF_EMAILS) and PASSWORD are required."), log, clock;
    }
    var sessions := [];
    for i := 0 to |emails|
      invariant |sessions| == |log| == i && log == Starts(plan, gap, i)
      invariant AllAnswered(plan, i)
      invariant forall j :: 0 <= j < i ==> Some(sessions[j]) == plan[j].session
      invariant clock == if i == 0 then 0.0 else StartOf(plan, gap, i - 1) + plan[i - 1].took
    {
      StartNext(plan, gap, i);
      if i > 0 {
        clock := clock + gap;
      }
      log := log + [Event(0, clock)];
      clock := clock + plan[i].took;
      if plan[i].session.None? {
        return Failure("sign-in for " + emails[i] + " gave no session"), log, clock;
      }
      sessions := sessions + [plan[i].session.value];
    }
    r := Success(sessions);
  }

  /** setup() of the month-end driver: the gap follows every tenant, then one more account signs in. */
  method MonthEndSetup(plan: seq<SignIn>, invoice: Option<SignIn>, gap: real)
    returns (r: Result<(seq<string>, Option<string>), string>, log: seq<Event>, clock: real)
    ensures r.Success? <==> AllAnswered(plan, |plan|) && (invoice.Some? ==> invoice.value.session.Some?)
    ensures r.Success? ==>
      |r.value.0| == |plan| && forall i :: 0 <= i < |plan| ==> Some(r.value.0[i]) == plan[i].session
    ensures r.Success? ==> r.value.1 == if invoice.Some? then invoice.value.session else None
    ensures r.Success? ==>
      var whole := if invoice.Some? then plan + [invoice.value] else plan;
      log == Starts(whole, gap, |whole|)
      && clock == if invoice.Some? then EndOf(whole, gap) else StartOf(plan, gap, |plan|)
  {
    log, clock := [], 0.0;
    var sessions := [];
    for i := 0 to |plan|
      invariant |sessions| == i && log == Starts(plan, gap, i) && clock == StartOf(plan, gap, i)
      invariant AllAnswered(plan, i)
      invariant forall j :: 0 <= j < i ==> Some(sessions[j]) == plan[j].session
    {
      log := log + [Event(0, clock)];
      clock := clock + plan[i].took;
      if plan[i].session.None? {
        return Failure("sign-in gave no session"), log, clock;
      }
      sessions := sessions + [plan[i].session.value];
      clock := clock + gap;
    }
    if invoice.None? {
      return Success((sessions, None)), log, clock;
    }
    ghost var whole := plan + [invoice.value];
    StartOfPrefix(plan, invoice.value, gap);
    log := log + [Event(0, clock)];
    clock := clock + invoice.value.took;
    if invoice.value.session.None? {
      return Failure("sign-in gave no session"), log, clock;
    }
    assert log == Starts(whole, gap, |whole|);
    r := Success((sessions, invoice.value.session));
  }

  lemma {:induction false} StartOfPrefix(plan: seq<SignIn>, last: SignIn, gap: real)
    ensures forall i :: 0 <= i <= |plan| ==> StartOf(plan + [last], gap, i) == StartOf(plan, gap, i)
  {
    var i := 0;
    while i < |plan|
      invariant 0 <= i <= |plan|
      invariant forall j :: 0 <= j <= i ==> StartOf(plan + [last], gap, j) == StartOf(plan, gap, j)
    {
      i := i + 1;
    }
  }

  // --- The sign-in limit: ten a minute from one address ---

  lemma {:induction false} StartsApart(plan: seq<SignIn>, gap: real, i: nat, j: nat)
    requires i < j <= |plan| && gap >= 0.0 && forall k :: 0 <= k < |plan| ==> plan[k].took >= 0.0
    ensures StartOf(plan, gap, j) >= StartOf(plan, gap, i) + gap
  {
    if i < j - 1 {
      StartsApart(plan, gap, i, j - 1);
    }
  }

  /** However long each sign-in takes, setup with the default gap of 7 s starts at most 9 in a minute. */
  lemma NineSignIns(plan: seq<SignIn>, from: real)
    requires forall k :: 0 <= k < |plan| ==> plan[k].took >= 0.0
    ensures InWindow(Starts(plan, 7.0, |plan|), {0}, from, 60.0) <= 9
  {
    SignInsAtMost(plan, 7.0, from);
    assert Ceil(60.0 / 7.0) == 9;
  }

  /** However many logins sign in and however long each takes, setup keeps every minute to ten sign-ins exactly
      when the gap is at least 6 seconds. */
  lemma SignInGapExact(gap: real)
    requires gap >= 0.0
    ensures (forall plan: seq<SignIn>, from: real :: TakesTime(plan) ==> SignInsWithin(plan, gap, from) <= 10)
      <==> gap >= 6.0
  {
    if gap >= 6.0 {
      forall plan: seq<SignIn>, from: real | TakesTime(plan)
        ensures SignInsWithin(plan, gap, from) <= 10
      {
        SignInsAtMost(plan, gap, from);
        CeilLeast(60.0 / gap, 10);
        QuotientAtMost(60.0, gap, 10.0);
      }
    } else {
      var plan := seq(11, _ => SignIn(0.0, Some("")));
      ElevenAtOnce(plan, gap);
      assert TakesTime(plan) && SignInsWithin(plan, gap, 0.0) > 10;
    }
  }

  predicate TakesTime(plan: seq<SignIn>) {
    forall i :: 0 <= i < |plan| ==> plan[i].took >= 0.0
  }

  /** How many sign-ins of setup start in a minute. */
  function SignInsWithin(plan: seq<SignIn>, gap: real, from: real): nat {
    InWindow(Starts(plan, gap, |plan|), {0}, from, 60.0)
  }

  lemma SignInsAtMost(plan: seq<SignIn>, gap: real, from: real)
    requires gap > 0.0 && TakesTime(plan)
    ensures SignInsWithin(plan, gap, from) <= Ceil(60.0 / gap)
  {
    forall i, j | 0 <= i < j < |plan|
      ensures StartOf(plan, gap, j) >= StartOf(plan, gap, i) + gap
    {
      StartsApart(plan, gap, i, j);
    }
    WindowBound(Starts(plan, gap, |plan|), {0}, gap, from, 60.0);
  }

  /** Eleven sign-ins that take no time, less than 6 seconds apart, all start within a minute. */
  lemma ElevenAtOnce(plan: seq<SignIn>, gap: real)
    requires |plan| == 11 && 0.0 <= gap < 6.0 && forall i :: 0 <= i < 11 ==> plan[i].took == 0.0
    ensures SignInsWithin(plan, gap, 0.0) == 11
  {
    var log := Starts(plan, gap, 11);
    OneMoreGap(0, gap);
    assert Gaps(10, gap) < 60.0;
    hide Gaps;
    forall i | 0 <= i < 11
      ensures 0.0 <= StartOf(plan, gap, i) < 60.0
    {
      EvenStart(plan, gap, 0.0, i);
      FewerGaps(0, i, gap);
      FewerGaps(i, 10, gap);
    }
    hide StartOf;
    AllInside(log, {0}, 0.0, 60.0);
  }

  // --- The setup timeout ---

  /** setupTimeout for n logins, in seconds. */
  function Timeout(n: nat, gap: real): int {
    Ceil(Gaps(if n < 1 then 1 else n, gap + 2.0)) + 60
  }

  /** Two seconds and the gap for each login, of at least one, rounded up to whole seconds, and a minute more. */
  lemma TimeoutExactly(n: nat, gap: real)
    ensures Timeout(0, gap) == Timeout(1, gap)
    ensures n >= 1 ==> n as real * (gap + 2.0) + 60.0 <= Timeout(n, gap) as real < n as real * (gap + 2.0) + 61.0
  {
  }

  lemma {:induction false} StartAtMost(plan: seq<SignIn>, gap: real, longest: real, i: nat)
    requires i <= |plan| && Timed(plan, longest)
    ensures StartOf(plan, gap, i) <= Gaps(i, longest + gap)
  {
    OneMoreGap(0, longest + gap);
    hide Gaps;
    if i > 0 {
      StartAtMost(plan, gap, longest, i - 1);
      OneMoreGap(i, longest + gap);
    }
  }

  lemma {:induction false} EvenStart(plan: seq<SignIn>, gap: real, took: real, i: nat)
    requires i <= |plan| && forall k :: 0 <= k < |plan| ==> plan[k].took == took
    ensures StartOf(plan, gap, i) == Gaps(i, took + gap)
  {
    OneMoreGap(0, took + gap);
    hide Gaps;
    if i > 0 {
      EvenStart(plan, gap, took, i - 1);
      OneMoreGap(i, took + gap);
    }
  }

  /** For any number of logins, setup ends within its timeout whatever each sign-in takes up to
      `longest`, exactly when `longest` is at most 2 seconds. */
  lemma SetupFitsExact(gap: real, longest: real)
    requires gap >= 0.0 && longest >= 0.0
    ensures (forall plan: seq<SignIn> :: plan != [] && Timed(plan, longest) ==>
        EndOf(plan, gap) <= Timeout(|plan|, gap) as real)
      <==> longest <= 2.0
  {
    if longest <= 2.0 {
      forall plan: seq<SignIn> | plan != [] && Timed(plan, longest)
        ensures EndOf(plan, gap) <= Timeout(|plan|, gap) as real
      {
        EndFits(plan, gap, longest);
      }
    } else {
      var over := longest - 2.0;
      var n := EnoughTimes(over, gap + 61.0);
      var plan := seq(n, _ => SignIn(longest, Some("")));
      EvenStart(plan, gap, longest, n - 1);
      OneMoreGap(n, longest + gap);
      assert EndOf(plan, gap) == n as real * (longest + gap) - gap;
      assert n as real * (longest + gap) == n as real * over + n as real * (gap + 2.0);
      assert Timed(plan, longest);
    }
  }

  lemma EnoughTimes(over: real, x: real) returns (n: nat)
    requires over > 0.0 && x > 0.0
    ensures n >= 1 && n as real * over > x
  {
    var q := x / over;
    assert q * over == x && q > 0.0;
    n := q.Floor + 1;
    Exceeds(n as real, q, over);
  }

  lemma Exceeds(m: real, q: real, over: real)
    requires m > q && over > 0.0
    ensures m * over > q * over
  {
    Product(m - q, over);
    Distribute(m - q, q, over);
    assert (m - q + q) * over == m * over;
  }

  lemma EndFits(plan: seq<SignIn>, gap: real, longest: real)
    requires plan != [] && gap >= 0.0 && Timed(plan, longest) && longest <= 2.0
    ensures EndOf(plan, gap) <= Gaps(|plan|, gap + 2.0) <= Timeout(|plan|, gap) as real
  {
    var n := |plan|;
    hide Gaps, StartOf;
    StartAtMost(plan, gap, longest, n - 1);
    LongerGaps(n - 1, longest + gap, gap + 2.0);
    OneMoreGap(n, gap + 2.0);
  }

  /** The month-end driver allows for one login more, so it fits with or without the invoice account. */
  lemma MonthEndFits(plan: seq<SignIn>, invoice: SignIn, gap: real)
    requires gap >= 0.0 && Timed(plan + [invoice], 2.0)
    ensures EndOf(plan + [invoice], gap) <= Timeout(|plan| + 1, gap) as real
    ensures StartOf(plan, gap, |plan|) <= Timeout(|plan| + 1, gap) as real
  {
    EndFits(plan + [invoice], gap, 2.0);
    StartOfPrefix(plan, invoice, gap);
  }

  // --- Arrivals of the tenants ---

  /** (index / n) * seconds(DURATION) * 0.9: when the tenant with this session starts. */
  function Arrival(index: nat, n: nat, duration: real): real
    requires n > 0
  {
    index as real / n as real * duration * 0.9
  }

  /** (__VU - 1) % n: the session a user id takes. */
  function SessionIndex(vu: nat, n: nat): nat
    requires vu >= 1 && n > 0
  {
    (vu - 1) % n
  }

  /** n consecutive user ids take the n sessions one each, the first users the first ones in order. */
  lemma SessionsOneToOne(first: nat, n: nat, index: nat) returns (vu: nat)
    requires first >= 1 && index < n
    ensures first <= vu < first + n && SessionIndex(vu, n) == index
    ensures forall other :: first <= other < first + n && SessionIndex(other, n) == index ==> other == vu
    ensures first == 1 ==> vu == index + 1
  {
    var v := OneInARow(first - 1, n, index);
    vu := v + 1;
    if v < n {
      DivModUnique(v, n, 0, v);
    }
    forall other | first <= other < first + n && SessionIndex(other, n) == index
      ensures other == vu
    {
      SameResidue(v, other - 1, n);
    }
  }

  /** The distance between neighbouring arrivals. */
  function Spacing(n: nat, duration: real): real
    requires n > 0
  {
    duration * 0.9 / n as real
  }

  lemma ArrivalIsMultiple(index: nat, n: nat, duration: real)
    requires n > 0 && duration > 0.0
    ensures Spacing(n, duration) > 0.0 && Arrival(index, n, duration) == Gaps(index, Spacing(n, duration))
    ensures Gaps(n, Spacing(n, duration)) == duration * 0.9
  {
    var step := Spacing(n, duration);
    assert step * n as real == duration * 0.9;
    assert index as real / n as real * (duration * 0.9) == index as real * (duration * 0.9 / n as real);
  }

  function Arrivals(n: nat, step: real): (log: seq<Event>)
    ensures |log| == n && forall i :: 0 <= i < n ==> log[i] == Event(0, Gaps(i, step))
  {
    seq(n, i requires 0 <= i < n => Event(0, Gaps(i, step)))
  }

  /** x brought into [0, n]. */
  function Clamp(x: int, n: nat): nat {
    if x < 0 then 0 else if x > n then n else x
  }

  lemma MultipleAtLeast(i: int, step: real, x: real)
    requires step > 0.0
    ensures Gaps(i, step) >= x <==> i >= Ceil(x / step)
  {
    CeilLeast(x / step, i);
    QuotientAtMost(x, step, i as real);
  }

  /** Exactly how many of the first n multiples of a step fall in a window. */
  lemma {:induction false} ArrivalCount(n: nat, step: real, from: real, width: real)
    requires step > 0.0 && width > 0.0
    ensures InWindow(Arrivals(n, step), {0}, from, width)
      == Clamp(Ceil((from + width) / step), n) - Clamp(Ceil(from / step), n)
  {
    if n > 0 {
      ArrivalCount(n - 1, step, from, width);
      assert Arrivals(n, step)[..n - 1] == Arrivals(n - 1, step);
      MultipleAtLeast(n - 1, step, from);
      MultipleAtLeast(n - 1, step, from + width);
      WindowOpens(step, from, width);
    }
  }

  lemma WindowOpens(step: real, from: real, width: real)
    requires step > 0.0 && width > 0.0
    ensures Ceil(from / step) <= Ceil((from + width) / step)
  {
    assert (from + width) / step == from / step + width / step;
    assert width / step > 0.0;
  }

  lemma GapsGrow(i: int, n: int, step: real)
    requires i < n && step > 0.0
    ensures Gaps(i, step) < Gaps(n, step)
  {
    Product((n - i) as real, step);
    Distribute((n - i) as real, i as real, step);
  }

  lemma CeilSum(a: real, b: real)
    ensures b.Floor <= Ceil(a + b) - Ceil(a) <= Ceil(b)
  {
  }

  lemma CountBounds(n: nat, step: real, from: real, width: real)
    requires step > 0.0 && width > 0.0
    ensures InWindow(Arrivals(n, step), {0}, from, width) <= Ceil(width / step)
    ensures 0.0 <= from && from + width <= Gaps(n, step) ==>
      InWindow(Arrivals(n, step), {0}, from, width) >= (width / step).Floor
  {
    ArrivalCount(n, step, from, width);
    MultipleAtLeast(n, step, from + width);
    MultipleAtLeast(0, step, 0.0 - from);
    MultipleAtLeast(0, step, 0.0 - width);
    SplitWindow(step, from, width);
    hide *;
    CeilSum(from / step, width / step);
    WindowOpens(step, from, width);
    FromStart(step, from);
    FromStart(step, width);
  }

  lemma SplitWindow(step: real, from: real, width: real)
    requires step > 0.0
    ensures (from + width) / step == from / step + width / step
  {
  }

  lemma FromStart(step: real, x: real)
    requires step > 0.0
    ensures x >= 0.0 ==> Ceil(x / step) >= 0
  {
    if x >= 0.0 {
      assert x / step >= 0.0;
    }
  }

  lemma ArrivalTimes(i: real, n: real, d: real)
    requires n > 0.0
    ensures i / n * d * n == i * d
  {
    var q := i / n;
    assert q * n == i;
    assert q * d * n == (q * n) * d;
  }

  /** All arrivals lie in [0, 0.9 * duration), each a whole number of spacings. */
  lemma ArrivalsInside(n: nat, duration: real, i: nat)
    requires i < n && duration > 0.0
    ensures Arrival(i, n, duration) == Gaps(i, Spacing(n, duration))
    ensures 0.0 <= Arrival(i, n, duration) < 0.9 * duration
    ensures Arrival(i, n, duration) * n as real == i as real * (0.9 * duration)
  {
    ArrivalIsMultiple(i, n, duration);
    ArrivalTimes(i as real, n as real, 0.9 * duration);
    assert Arrival(i, n, duration) == i as real / n as real * (0.9 * duration);
    OneMoreGap(i, Spacing(n, duration));
    GapsGrow(i, n, Spacing(n, duration));
  }

  function ArrivalLog(n: nat, duration: real): (log: seq<Event>)
    requires n > 0
    ensures |log| == n && forall i :: 0 <= i < n ==> log[i] == Event(0, Arrival(i, n, duration))
  {
    seq(n, i requires 0 <= i < n => Event(0, Arrival(i, n, duration)))
  }

  /** The arrivals of n tenants are spread evenly: a window of `width` seconds holds at most
      ceil(width * n / (0.9 * duration)) of them, and one that lies inside the arrival time holds at
      least the floor of that. */
  lemma EvenArrivals(n: nat, duration: real, from: real, width: real)
    requires n > 0 && duration > 0.0 && width > 0.0
    ensures InWindow(ArrivalLog(n, duration), {0}, from, width) <= Ceil(width * n as real / (duration * 0.9))
    ensures 0.0 <= from && from + width <= duration * 0.9 ==>
      InWindow(ArrivalLog(n, duration), {0}, from, width) >= (width * n as real / (duration * 0.9)).Floor
  {
    var step := Spacing(n, duration);
    ArrivalIsMultiple(0, n, duration);
    Invert(width, n as real, duration * 0.9);
    assert width / step == width * n as real / (duration * 0.9);
    forall i | 0 <= i < n
      ensures Arrival(i, n, duration) == Gaps(i, step)
    {
      ArrivalsInside(n, duration, i);
    }
    hide *;
    assert ArrivalLog(n, duration) == Arrivals(n, step);
    CountBounds(n, step, from, width);
  }

  lemma Invert(w: real, n: real, d: real)
    requires n > 0.0 && d > 0.0
    ensures d / n > 0.0 && w / (d / n) == w * n / d
  {
    assert d / n * n == d;
    var q := w / (d / n);
    assert q * (d / n) == w;
    assert q * d == q * (d / n) * n;
    assert q * d == w * n;
  }
}

/** The worker threads of the pool comparison: each asks its endpoints in turn, and records the response in
    shared tables under one lock. A run is any interleaving of the threads' single steps; recording is a lock,
    a read, a write and an unlock, so another thread may run between any two of them. */
module PoolWorkers {
  import opened Wrappers

  const ENDPOINTS: nat := 3

  datatype Response = Answered(ms: real) | Refused(code: string)

  datatype Record = Record(thread: nat, endpoint: nat, response: Response)

  /** `seen` is the error count read before it is written back one higher. */
  datatype Phase =
    | Idle
    | Asking(endpoint: nat)
    | Holding(record: Record)
    | Locked(record: Record)
    | Loaded(record: Record, seen: nat)
    | Written
    | Stopped

  /** The shared tables `timings` and `errors` and each thread's counter, with three histories: the endpoints
      asked, the responses received and the records written. */
  datatype State = State(
    next: seq<nat>, phases: seq<Phase>, owner: Option<nat>, timings: seq<seq<real>>, errors: multiset<(nat, string)>,
    asked: seq<nat>, received: seq<Record>, written: seq<Record>)

  datatype Action = Ask(t: nat) | Stop(t: nat) | Receive(t: nat, response: Response)
    | Acquire(t: nat) | Load(t: nat) | Store(t: nat) | Release(t: nat)

  function Init(threads: nat): State {
    State(seq(threads, t => t), seq(threads, _ => Idle), None, seq(ENDPOINTS, _ => []), multiset{}, [], [], [])
  }

  predicate Enabled(s: State, a: Action) {
    a.t < |s.phases| && a.t < |s.next|
    && match a
       case Ask(t) => s.phases[t].Idle?
       case Stop(t) => s.phases[t].Idle?
       case Receive(t, _) => s.phases[t].Asking?
       case Acquire(t) => s.phases[t].Holding? && s.owner.None?
       case Load(t) => s.phases[t].Locked?
       case Store(t) => s.phases[t].Loaded? && s.phases[t].record.endpoint < |s.timings|
       case Release(t) => s.phases[t].Written?
  }

  function Key(r: Record): (nat, string)
    requires r.response.Refused?
  {
    (r.endpoint, r.response.code)
  }

  function Next(s: State, a: Action): State
    requires Enabled(s, a)
  {
    var t := a.t;
    match a
    case Ask(_) =>
      var endpoint := s.next[t] % ENDPOINTS;
      s.(next := s.next[t := s.next[t] + 1], phases := s.phases[t := Asking(endpoint)], asked := s.asked + [endpoint])
    case Stop(_) => s.(phases := s.phases[t := Stopped])
    case Receive(_, response) =>
      var record := Record(t, s.phases[t].endpoint, response);
      s.(phases := s.phases[t := Holding(record)], received := s.received + [record])
    case Acquire(_) => s.(phases := s.phases[t := Locked(s.phases[t].record)], owner := Some(t))
    case Load(_) =>
      var r := s.phases[t].record;
      s.(phases := s.phases[t := Loaded(r, if r.response.Refused? then s.errors[Key(r)] else 0)])
    case Store(_) =>
      var r := s.phases[t].record;
      var done := s.(phases := s.phases[t := Written], written := s.written + [r]);
      if r.response.Answered? then done.(timings := s.timings[r.endpoint := s.timings[r.endpoint] + [r.response.ms]])
      else done.(errors := s.errors[Key(r) := s.phases[t].seen + 1])
    case Release(_) => s.(phases := s.phases[t := Idle], owner := None)
  }

  /** The state that a run leads to; None if some action is not possible in its place. */
  function Reach(threads: nat, run: seq<Action>): Option<State> {
    if run == [] then Some(Init(threads))
    else match Reach(threads, run[..|run| - 1])
      case None => None
      case Some(s) => if Enabled(s, run[|run| - 1]) then Some(Next(s, run[|run| - 1])) else None
  }

  // --- The tables say exactly what was written ---

  function Times(records: seq<Record>, endpoint: nat): seq<real> {
    if records == [] then []
    else
      var last := records[|records| - 1];
      Times(records[..|records| - 1], endpoint)
      + if last.endpoint == endpoint && last.response.Answered? then [last.response.ms] else []
  }

  function Errors(records: seq<Record>): multiset<(nat, string)> {
    if records == [] then multiset{}
    else
      var last := records[|records| - 1];
      Errors(records[..|records| - 1]) + if last.response.Refused? then multiset{Key(last)} else multiset{}
  }

  predicate Critical(p: Phase) {
    p.Locked? || p.Loaded? || p.Written?
  }

  /** One thread at a time is between its lock and its unlock, the owner, and what it read is still current. */
  ghost predicate LockInv(s: State) {
    && |s.next| == |s.phases| && (s.owner.Some? ==> s.owner.value < |s.phases|)
    && (forall t :: 0 <= t < |s.phases| ==> (Critical(s.phases[t]) <==> s.owner == Some(t)))
    && (forall t :: 0 <= t < |s.phases| && s.phases[t].Loaded? && s.phases[t].record.response.Refused? ==>
          s.phases[t].seen == s.errors[Key(s.phases[t].record)])
  }

  ghost predicate TableInv(s: State) {
    && |s.timings| == ENDPOINTS && s.errors == Errors(s.written)
    && forall e :: 0 <= e < ENDPOINTS ==> s.timings[e] == Times(s.written, e)
  }

  lemma LockStep(s: State, a: Action)
    requires LockInv(s) && Enabled(s, a)
    ensures LockInv(Next(s, a))
  {
  }

  lemma OneMoreRecord(records: seq<Record>, r: Record)
    ensures Errors(records + [r]) == Errors(records) + if r.response.Refused? then multiset{Key(r)} else multiset{}
    ensures forall e ::
      Times(records + [r], e)
      == Times(records, e) + if r.endpoint == e && r.response.Answered? then [r.response.ms] else []
  {
    assert (records + [r])[..|records|] == records;
  }

  lemma TableStep(s: State, a: Action)
    requires LockInv(s) && TableInv(s) && Enabled(s, a)
    ensures TableInv(Next(s, a))
  {
    hide Times, Errors;
    if a.Store? {
      OneMoreRecord(s.written, s.phases[a.t].record);
    }
  }

  // --- No response is lost or written twice ---

  /** The response a thread has received and not written. */
  function Unwritten(p: Phase): multiset<Record> {
    if p.Holding? || p.Locked? || p.Loaded? then multiset{p.record} else multiset{}
  }

  function AllUnwritten(phases: seq<Phase>): multiset<Record> {
    if phases == [] then multiset{} else AllUnwritten(phases[..|phases| - 1]) + Unwritten(phases[|phases| - 1])
  }

  function Unfinished(p: Phase): nat {
    if p.Asking? || p.Holding? || p.Locked? || p.Loaded? then 1 else 0
  }

  /** Threads in the middle of an iteration whose response is not written. */
  function Busy(phases: seq<Phase>): nat {
    if phases == [] then 0
    else Busy(phases[..|phases| - 1]) + Unfinished(phases[|phases| - 1])
  }

  lemma AddBoth(a: multiset<Record>, x: multiset<Record>, b: multiset<Record>, y: multiset<Record>, c: multiset<Record>)
    requires a + x == b + y
    ensures a + c + x == b + c + y
  {
    assert a + c + x == a + x + c;
    assert b + c + y == b + y + c;
  }

  lemma {:induction false} PhaseUpdate(phases: seq<Phase>, t: nat, p: Phase)
    requires t < |phases|
    ensures AllUnwritten(phases[t := p]) + Unwritten(phases[t]) == AllUnwritten(phases) + Unwritten(p)
    ensures Busy(phases[t := p]) + Unfinished(phases[t]) == Busy(phases) + Unfinished(p)
  {
    hide Unwritten, Unfinished;
    var n := |phases| - 1;
    if t < n {
      PhaseUpdate(phases[..n], t, p);
      assert phases[t := p][..n] == phases[..n][t := p];
      AddBoth(AllUnwritten(phases[..n][t := p]), Unwritten(phases[t]), AllUnwritten(phases[..n]), Unwritten(p),
              Unwritten(phases[n]));
    } else {
      assert phases[t := p][..n] == phases[..n];
    }
  }

  ghost predicate CountInv(s: State) {
    && multiset(s.received) == multiset(s.written) + AllUnwritten(s.phases)
    && |s.asked| == |s.written| + Busy(s.phases)
  }

  /** One step moves at most one response: from received to unwritten, or from unwritten to written. */
  lemma Moves(s: State, a: Action) returns (got: seq<Record>, put: seq<Record>)
    requires Enabled(s, a)
    ensures
      var after := Next(s, a);
      var p, p' := s.phases[a.t], after.phases[a.t];
      && after.phases == s.phases[a.t := p']
      && after.received == s.received + got && after.written == s.written + put
      && multiset(got) + Unwritten(p) == multiset(put) + Unwritten(p')
  {
    got := if a.Receive? then [Next(s, a).phases[a.t].record] else [];
    put := if a.Store? then [s.phases[a.t].record] else [];
    NextChanges(s, a);
    MovesOne(s, a);
    hide *;
  }

  /** What an action does to its own thread. */
  ghost predicate PhaseStep(a: Action, p: Phase, p': Phase) {
    match a
    case Ask(_) => p.Idle? && p'.Asking?
    case Stop(_) => p.Idle? && p'.Stopped?
    case Receive(_, _) => p.Asking? && p'.Holding?
    case Acquire(_) => p.Holding? && p'.Locked? && p'.record == p.record
    case Load(_) => p.Locked? && p'.Loaded? && p'.record == p.record
    case Store(_) => p.Loaded? && p'.Written?
    case Release(_) => p.Written? && p'.Idle?
  }

  lemma PhaseAfter(s: State, a: Action)
    requires Enabled(s, a)
    ensures PhaseStep(a, s.phases[a.t], Next(s, a).phases[a.t])
  {
    hide Key;
  }

  lemma NextChanges(s: State, a: Action)
    requires Enabled(s, a)
    ensures
      var after := Next(s, a);
      && |after.phases| == |s.phases| && after.phases == s.phases[a.t := after.phases[a.t]]
      && (a.Receive? ==> after.phases[a.t].Holding?)
      && after.received == s.received + (if a.Receive? then [after.phases[a.t].record] else [])
      && after.written == s.written + (if a.Store? then [s.phases[a.t].record] else [])
  {
    hide Key;
  }

  lemma MovesOne(s: State, a: Action)
    requires Enabled(s, a)
    ensures
      var p, p' := s.phases[a.t], Next(s, a).phases[a.t];
      && (a.Receive? ==> Unwritten(p) == multiset{} && Unwritten(p') == multiset{p'.record})
      && (a.Store? ==> Unwritten(p) == multiset{p.record} && Unwritten(p') == multiset{})
      && (!a.Receive? && !a.Store? ==> Unwritten(p') == Unwritten(p))
  {
    hide Next, Enabled;
    PhaseAfter(s, a);
  }

  /** An iteration starts with its request and is finished by its record. */
  lemma Starts(s: State, a: Action)
    requires Enabled(s, a)
    ensures
      var after := Next(s, a);
      |after.asked| + |s.written| + Unfinished(s.phases[a.t])
        == |s.asked| + |after.written| + Unfinished(after.phases[a.t])
  {
    hide Key;
  }

  lemma CountStep(s: State, a: Action)
    requires CountInv(s) && Enabled(s, a)
    ensures CountInv(Next(s, a))
  {
    var after := Next(s, a);
    var p, p' := s.phases[a.t], after.phases[a.t];
    var got, put := Moves(s, a);
    Starts(s, a);
    PhaseUpdate(s.phases, a.t, p');
    hide Next, Enabled, AllUnwritten, Busy, Unwritten, Unfinished;
    var left, left', u, u' := AllUnwritten(s.phases), AllUnwritten(after.phases), Unwritten(p), Unwritten(p');
    assert multiset(after.received) == multiset(s.received) + multiset(got);
    assert multiset(after.written) == multiset(s.written) + multiset(put);
    Balance(multiset(s.written), left, left', u, u', multiset(got), multiset(put));
  }

  lemma Balance(written: multiset<Record>, left: multiset<Record>, left': multiset<Record>,
                u: multiset<Record>, u': multiset<Record>, got: multiset<Record>, put: multiset<Record>)
    requires left' + u == left + u' && got + u == put + u'
    ensures written + left + got == written + put + left'
  {
    forall r
      ensures (written + left + got)[r] == (written + put + left')[r]
    {
      assert (left' + u)[r] == (left + u')[r] && (got + u)[r] == (put + u')[r];
    }
  }

  // --- Turns ---

  /** How many of from, ..., to - 1 ask this endpoint. */
  function Turns(from: nat, to: nat, endpoint: nat): nat {
    if to <= from then 0 else Turns(from, to - 1, endpoint) + if (to - 1) % ENDPOINTS == endpoint then 1 else 0
  }

  /** The threads' turns at an endpoint: thread t has counted from t up to next[t]. */
  function AllTurns(next: seq<nat>, endpoint: nat): nat {
    if next == [] then 0
    else AllTurns(next[..|next| - 1], endpoint) + Turns(|next| - 1, next[|next| - 1], endpoint)
  }

  lemma {:induction false} TurnTaken(next: seq<nat>, t: nat, endpoint: nat)
    requires t < |next| && t <= next[t]
    ensures AllTurns(next[t := next[t] + 1], endpoint)
      == AllTurns(next, endpoint) + if next[t] % ENDPOINTS == endpoint then 1 else 0
  {
    var n := |next| - 1;
    var after := next[t := next[t] + 1];
    if t < n {
      TurnTaken(next[..n], t, endpoint);
      assert after[..n] == next[..n][t := next[t] + 1];
    } else {
      assert after[..n] == next[..n];
    }
  }

  ghost predicate TurnInv(s: State) {
    && (forall t :: 0 <= t < |s.next| ==> t <= s.next[t])
    && forall e: nat :: multiset(s.asked)[e] == AllTurns(s.next, e)
  }

  lemma TurnStep(s: State, a: Action)
    requires TurnInv(s) && Enabled(s, a)
    ensures TurnInv(Next(s, a))
  {
    if a.Ask? {
      forall e: nat
        ensures multiset(Next(s, a).asked)[e] == AllTurns(Next(s, a).next, e)
      {
        TurnTaken(s.next, a.t, e);
      }
    }
  }

  /** Three turns in a row ask each endpoint once. */
  lemma ThreeTurns(from: nat, to: nat, e: nat)
    requires from + 3 <= to && e < ENDPOINTS
    ensures Turns(from, to, e) == Turns(from, to - 3, e) + 1
  {
    assert Turns(from, to, e) == Turns(from, to - 1, e) + if (to - 1) % ENDPOINTS == e then 1 else 0;
    assert Turns(from, to - 1, e) == Turns(from, to - 2, e) + if (to - 2) % ENDPOINTS == e then 1 else 0;
    assert Turns(from, to - 2, e) == Turns(from, to - 3, e) + if (to - 3) % ENDPOINTS == e then 1 else 0;
    hide Turns;
    ThreeResidues(to - 3);
  }

  lemma ThreeResidues(n: nat)
    ensures (n + 1) % ENDPOINTS == if n % ENDPOINTS == 2 then 0 else n % ENDPOINTS + 1
    ensures (n + 2) % ENDPOINTS == if n % ENDPOINTS == 0 then 2 else n % ENDPOINTS - 1
  {
  }

  lemma FewTurns(from: nat, to: nat, e: nat)
    requires to < from + 3
    ensures Turns(from, to, e) <= 1
  {
    if from < to {
      assert Turns(from, from, e) == 0;
      assert Turns(from, from + 1, e) <= 1;
      ThreeResidues(from);
      hide ENDPOINTS;
    }
  }

  /** The turns of one thread at two endpoints differ by at most one. */
  lemma {:induction false} TurnsLevel(from: nat, to: nat, e: nat, f: nat)
    requires e < ENDPOINTS && f < ENDPOINTS
    ensures Turns(from, to, e) <= Turns(from, to, f) + 1
  {
    hide Turns;
    if from + 3 <= to {
      ThreeTurns(from, to, e);
      ThreeTurns(from, to, f);
      TurnsLevel(from, to - 3, e, f);
    } else {
      FewTurns(from, to, e);
    }
  }

  lemma {:induction false} AllTurnsLevel(next: seq<nat>, e: nat, f: nat)
    requires e < ENDPOINTS && f < ENDPOINTS
    ensures AllTurns(next, e) <= AllTurns(next, f) + |next|
  {
    if next != [] {
      var n := |next| - 1;
      AllTurnsLevel(next[..n], e, f);
      TurnsLevel(n, next[n], e, f);
    }
  }

  // --- Every run ---

  predicate Known(p: Phase) {
    && (p.Asking? ==> p.endpoint < ENDPOINTS)
    && (p.Holding? || p.Locked? || p.Loaded? ==> p.record.endpoint < ENDPOINTS)
  }

  ghost predicate KnownInv(s: State) {
    && (forall t :: 0 <= t < |s.phases| ==> Known(s.phases[t]))
    && (forall r :: r in s.written ==> r.endpoint < ENDPOINTS)
  }

  lemma KnownStep(s: State, a: Action)
    requires KnownInv(s) && Enabled(s, a)
    ensures KnownInv(Next(s, a))
  {
  }

  ghost predicate Inv(threads: nat, s: State) {
    |s.phases| == threads && LockInv(s) && TableInv(s) && CountInv(s) && TurnInv(s) && KnownInv(s)
  }

  lemma {:induction false} IdleCounts(threads: nat, endpoint: nat)
    ensures AllUnwritten(seq(threads, _ => Idle)) == multiset{} && Busy(seq(threads, _ => Idle)) == 0
    ensures AllTurns(seq(threads, t => t), endpoint) == 0
  {
    if threads > 0 {
      IdleCounts(threads - 1, endpoint);
      assert seq(threads, _ => Idle)[..threads - 1] == seq(threads - 1, _ => Idle);
      assert seq(threads, t => t)[..threads - 1] == seq(threads - 1, t => t);
    }
  }

  lemma InitInv(threads: nat)
    ensures Inv(threads, Init(threads))
  {
    forall e: nat
      ensures AllTurns(Init(threads).next, e) == 0
    {
      IdleCounts(threads, e);
    }
    IdleCounts(threads, 0);
  }

  /** Every state of every interleaving keeps the invariant. */
  lemma {:induction false} RunKeeps(threads: nat, run: seq<Action>)
    requires Reach(threads, run).Some?
    ensures Inv(threads, Reach(threads, run).value)
  {
    if run == [] {
      InitInv(threads);
    } else {
      var before := run[..|run| - 1];
      RunKeeps(threads, before);
      var s, a := Reach(threads, before).value, run[|run| - 1];
      LockStep(s, a);
      TableStep(s, a);
      CountStep(s, a);
      TurnStep(s, a);
      KnownStep(s, a);
      hide LockInv, TableInv, CountInv, TurnInv, KnownInv;
    }
  }

  /** No two threads are between lock and unlock at once. */
  lemma OneAtATime(threads: nat, run: seq<Action>, t: nat, u: nat)
    requires Reach(threads, run).Some? && t < threads && u < threads
    ensures
      var s := Reach(threads, run).value;
      |s.phases| == threads && (Critical(s.phases[t]) && Critical(s.phases[u]) ==> t == u)
  {
    RunKeeps(threads, run);
  }

  function Total(timings: seq<seq<real>>): nat {
    if timings == [] then 0 else Total(timings[..|timings| - 1]) + |timings[|timings| - 1]|
  }

  lemma {:induction false} TablesTotal(records: seq<Record>)
    requires forall r :: r in records ==> r.endpoint < ENDPOINTS
    ensures |Times(records, 0)| + |Times(records, 1)| + |Times(records, 2)| + |Errors(records)| == |records|
  {
    if records != [] {
      TablesTotal(records[..|records| - 1]);
    }
  }

  /** The summary that is printed: `requests`, and the exit code. */
  function Requests(s: State): nat {
    Total(s.timings) + |s.errors|
  }

  function ExitCode(s: State): nat {
    if |s.errors| > 0 then 1 else 0
  }

  predicate AllStopped(s: State) {
    forall t :: 0 <= t < |s.phases| ==> s.phases[t].Stopped?
  }

  lemma {:induction false} NothingLeft(phases: seq<Phase>)
    requires forall t :: 0 <= t < |phases| ==> phases[t].Stopped?
    ensures AllUnwritten(phases) == multiset{} && Busy(phases) == 0
  {
    if phases != [] {
      NothingLeft(phases[..|phases| - 1]);
    }
  }

  lemma {:induction false} ErrorsExactly(records: seq<Record>, key: (nat, string))
    ensures key in Errors(records) <==> exists r :: r in records && r.response.Refused? && Key(r) == key
  {
    if records != [] {
      var n := |records| - 1;
      ErrorsExactly(records[..n], key);
      assert records == records[..n] + [records[n]];
    }
  }

  /** At every moment the tables hold exactly the records written so far, so none is lost or counted twice. */
  lemma TablesExactly(threads: nat, run: seq<Action>)
    requires Reach(threads, run).Some?
    ensures
      var s := Reach(threads, run).value;
      && |s.timings| == ENDPOINTS && (forall e :: 0 <= e < ENDPOINTS ==> s.timings[e] == Times(s.written, e))
      && s.errors == Errors(s.written) && Requests(s) == |s.written|
  {
    RunKeeps(threads, run);
    var s := Reach(threads, run).value;
    TablesTotal(s.written);
    TotalOfThree(s.timings);
  }

  lemma TotalOfThree(timings: seq<seq<real>>)
    requires |timings| == 3
    ensures Total(timings) == |timings[0]| + |timings[1]| + |timings[2]|
  {
    assert Total(timings[..0]) == 0;
    assert timings[..1][..0] == timings[..0] && timings[..2][..1] == timings[..1];
    assert Total(timings[..1]) == |timings[0]|;
    assert Total(timings[..2]) == |timings[0]| + |timings[1]|;
  }

  lemma SameRecords(a: seq<Record>, b: seq<Record>)
    requires multiset(a) == multiset(b)
    ensures |a| == |b| && forall r :: r in a <==> r in b
  {
    assert |a| == |multiset(a)| && |b| == |multiset(b)|;
    assert forall r :: r in a <==> r in multiset(a);
    assert forall r :: r in b <==> r in multiset(b);
  }

  /** Once every thread has stopped, every request asked was received and written exactly once, the printed
      number of requests is the number asked, and the exit code is 1 exactly when a response was refused. */
  lemma AllAccounted(threads: nat, run: seq<Action>)
    requires Reach(threads, run).Some? && AllStopped(Reach(threads, run).value)
    ensures
      var s := Reach(threads, run).value;
      && multiset(s.written) == multiset(s.received)
      && Requests(s) == |s.received| == |s.asked|
      && (ExitCode(s) == 1 <==> exists r :: r in s.received && r.response.Refused?)
  {
    hide Times, Errors, LockInv, TurnInv, KnownInv, TableInv, Requests, Reach, Key;
    RunKeeps(threads, run);
    TablesExactly(threads, run);
    var s := Reach(threads, run).value;
    NothingLeft(s.phases);
    SameRecords(s.received, s.written);
    if |s.errors| > 0 {
      var key :| key in s.errors;
      ErrorsExactly(s.written, key);
    }
    forall r | r in s.written && r.response.Refused?
      ensures |s.errors| > 0
    {
      ErrorsExactly(s.written, Key(r));
    }
  }

  /** At every moment of every interleaving, the requests asked of two endpoints differ by at most the number
      of threads. */
  lemma AttemptsLevel(threads: nat, run: seq<Action>, e: nat, f: nat)
    requires Reach(threads, run).Some? && e < ENDPOINTS && f < ENDPOINTS
    ensures
      var asked := multiset(Reach(threads, run).value.asked);
      asked[e] <= asked[f] + threads
  {
    RunKeeps(threads, run);
    AllTurnsLevel(Reach(threads, run).value.next, e, f);
  }

  lemma CanStep(s: State) returns (a: Action)
    requires LockInv(s) && KnownInv(s) && |s.timings| == ENDPOINTS && !AllStopped(s)
    ensures Enabled(s, a)
  {
    if s.owner.Some? {
      var t := s.owner.value;
      assert Critical(s.phases[t]) && Known(s.phases[t]);
      a := if s.phases[t].Locked? then Load(t) else if s.phases[t].Loaded? then Store(t) else Release(t);
    } else {
      var t: nat :| t < |s.phases| && !s.phases[t].Stopped?;
      assert !Critical(s.phases[t]);
      a := if s.phases[t].Idle? then Ask(t) else if s.phases[t].Asking? then Receive(t, Answered(0.0)) else Acquire(t);
    }
  }

  /** No interleaving gets stuck: until every thread has stopped, some thread can take a step. */
  lemma NeverStuck(threads: nat, run: seq<Action>)
    requires Reach(threads, run).Some? && !AllStopped(Reach(threads, run).value)
    ensures exists a :: Enabled(Reach(threads, run).value, a)
  {
    RunKeeps(threads, run);
    var a := CanStep(Reach(threads, run).value);
  }

  // --- The run itself, action by action ---

  /** How many iterations of thread t the actions start. */
  function Asks(run: seq<Action>, t: nat): nat {
    if run == [] then 0
    else Asks(run[..|run| - 1], t) + if run[|run| - 1] == Ask(t) then 1 else 0
  }

  /** The endpoints asked: thread t asks t, t + 1, ... in turn, modulo three. */
  function AskedBy(run: seq<Action>): seq<nat> {
    if run == [] then []
    else
      var before, a := run[..|run| - 1], run[|run| - 1];
      AskedBy(before) + if a.Ask? then [(a.t + Asks(before, a.t)) % 3] else []
  }

  /** The responses received, each with its thread and the endpoint that thread asked last. */
  function ReceivedBy(run: seq<Action>): seq<Record> {
    if run == [] then []
    else
      var before, a := run[..|run| - 1], run[|run| - 1];
      ReceivedBy(before) + if a.Receive? then [Record(a.t, (a.t + Asks(before, a.t) + 2) % 3, a.response)] else []
  }

  /** Each thread has counted its iterations, and holds on to the endpoint it asked last. */
  ghost predicate Turning(s: State, run: seq<Action>) {
    && |s.next| == |s.phases|
    && forall t :: 0 <= t < |s.phases| ==>
         && s.next[t] == t + Asks(run, t)
         && (s.phases[t].Asking? ==> s.phases[t].endpoint == (t + Asks(run, t) + 2) % 3)
  }

  lemma AsksNext(run: seq<Action>, t: nat)
    requires run != []
    ensures Asks(run, t) == Asks(run[..|run| - 1], t) + if run[|run| - 1] == Ask(t) then 1 else 0
  {
  }

  lemma TurningStep(s: State, run: seq<Action>)
    requires run != [] && Turning(s, run[..|run| - 1]) && Enabled(s, run[|run| - 1])
    ensures Turning(Next(s, run[|run| - 1]), run)
  {
    var a := run[|run| - 1];
    var after := Next(s, a);
    hide Asks, Key;
    forall t: nat | t < |s.phases|
      ensures after.next[t] == t + Asks(run, t)
      ensures after.phases[t].Asking? ==> after.phases[t].endpoint == (t + Asks(run, t) + 2) % 3
    {
      AsksNext(run, t);
    }
  }

  /** In every run the endpoints asked and the responses received are those of its actions. */
  lemma {:induction false} RunExactly(threads: nat, run: seq<Action>)
    requires Reach(threads, run).Some?
    ensures Turning(Reach(threads, run).value, run)
    ensures Reach(threads, run).value.asked == AskedBy(run)
    ensures Reach(threads, run).value.received == ReceivedBy(run)
  {
    hide Asks, Turning, Key;
    if run == [] {
      NotTurned(threads);
    } else {
      var before, a := run[..|run| - 1], run[|run| - 1];
      RunExactly(threads, before);
      var s := Reach(threads, before).value;
      TurningStep(s, run);
      HistoryStep(s, run);
    }
  }

  lemma HistoryStep(s: State, run: seq<Action>)
    requires run != [] && Turning(s, run[..|run| - 1]) && Enabled(s, run[|run| - 1])
    requires s.asked == AskedBy(run[..|run| - 1]) && s.received == ReceivedBy(run[..|run| - 1])
    ensures Next(s, run[|run| - 1]).asked == AskedBy(run) && Next(s, run[|run| - 1]).received == ReceivedBy(run)
  {
    hide Asks, Key, Next, Enabled;
    var a, before := run[|run| - 1], run[..|run| - 1];
    HistoryAfter(s, a);
    AskedNext(run);
    assert s.next[a.t] == a.t + Asks(before, a.t);
    hide AskedBy, ReceivedBy, Turning;
  }

  lemma AskedNext(run: seq<Action>)
    requires run != []
    ensures
      var before, a := run[..|run| - 1], run[|run| - 1];
      && AskedBy(run) == AskedBy(before) + (if a.Ask? then [(a.t + Asks(before, a.t)) % 3] else [])
      && ReceivedBy(run) == ReceivedBy(before)
           + if a.Receive? then [Record(a.t, (a.t + Asks(before, a.t) + 2) % 3, a.response)] else []
  {
    hide Asks;
  }

  lemma HistoryAfter(s: State, a: Action)
    requires Enabled(s, a)
    ensures a.t < |s.phases| && a.t < |s.next| && (a.Receive? ==> s.phases[a.t].Asking?)
    ensures Next(s, a).asked == s.asked + if a.Ask? then [s.next[a.t] % 3] else []
    ensures Next(s, a).received
      == s.received + if a.Receive? then [Record(a.t, s.phases[a.t].endpoint, a.response)] else []
  {
    hide Key;
  }

  lemma NotTurned(threads: nat)
    ensures Turning(Init(threads), [])
  {
  }

  // --- The tables, record by record ---

  predicate TimedAt(records: seq<Record>, e: nat, k: int) {
    0 <= k < |records| && records[k].endpoint == e && records[k].response.Answered?
  }

  /** The times are those of the answered records of this endpoint, in the order written. */
  ghost predicate TimesAre(times: seq<real>, records: seq<Record>, e: nat, at: seq<nat>) {
    && |at| == |times| && (forall n, m :: 0 <= n < m < |at| ==> at[n] < at[m])
    && (forall n :: 0 <= n < |at| ==> TimedAt(records, e, at[n]) && times[n] == records[at[n]].response.ms)
    && (forall k :: 0 <= k < |records| && TimedAt(records, e, k) ==> k in at)
  }

  /** The records of this endpoint that were refused with this code. */
  function RefusedAt(records: seq<Record>, e: nat, code: string): set<nat> {
    set k: nat | k < |records| && records[k].endpoint == e && records[k].response == Refused(code)
  }

  lemma TimesNext(times: seq<real>, records: seq<Record>, e: nat, at: seq<nat>, r: Record)
    requires TimesAre(times, records, e, at)
    ensures
      if r.endpoint == e && r.response.Answered?
      then TimesAre(times + [r.response.ms], records + [r], e, at + [|records|])
      else TimesAre(times, records + [r], e, at)
  {
    var more, places := records + [r], at + [|records|];
    assert forall k :: 0 <= k < |records| ==>
      more[k] == records[k] && (TimedAt(more, e, k) <==> TimedAt(records, e, k));
    assert places[|at|] == |records|;
    assert forall k :: k in at ==> k in places;
    hide TimedAt;
    assert TimedAt(more, e, |records|) <==> r.endpoint == e && r.response.Answered? by {
      assert more[|records|] == r;
    }
  }

  lemma {:induction false} TimesExactly(records: seq<Record>, e: nat) returns (at: seq<nat>)
    ensures TimesAre(Times(records, e), records, e, at)
  {
    hide TimesAre;
    if records == [] {
      at := [];
      NoTimes(e);
    } else {
      var n := |records| - 1;
      at := TimesExactly(records[..n], e);
      TimesNext(Times(records[..n], e), records[..n], e, at, records[n]);
      assert records == records[..n] + [records[n]];
      if records[n].endpoint == e && records[n].response.Answered? {
        at := at + [n];
      } else {
        assert Times(records[..n], e) + [] == Times(records[..n], e);
      }
    }
  }

  lemma NoTimes(e: nat)
    ensures TimesAre(Times([], e), [], e, [])
  {
  }

  lemma {:induction false} ErrorsCount(records: seq<Record>, e: nat, code: string)
    ensures Errors(records)[(e, code)] == |RefusedAt(records, e, code)|
  {
    if records == [] {
      assert RefusedAt(records, e, code) == {};
    } else {
      var n := |records| - 1;
      ErrorsCount(records[..n], e, code);
      RefusedNext(records, e, code);
      hide RefusedAt;
    }
  }

  lemma RefusedNext(records: seq<Record>, e: nat, code: string)
    requires records != []
    ensures
      var n := |records| - 1;
      |RefusedAt(records, e, code)| == |RefusedAt(records[..n], e, code)|
        + if records[n].endpoint == e && records[n].response == Refused(code) then 1 else 0
  {
    var n := |records| - 1;
    var before := RefusedAt(records[..n], e, code);
    assert n !in before;
    var own := records[n].endpoint == e && records[n].response == Refused(code);
    forall k: nat
      ensures k in RefusedAt(records, e, code) <==> k in before || (k == n && own)
    {
      assert k < n ==> records[..n][k] == records[k];
    }
    hide RefusedAt;
    if own {
      assert RefusedAt(records, e, code) == before + {n};
    } else {
      assert RefusedAt(records, e, code) == before;
    }
  }

  /** At every moment the times of an endpoint are those of its answered records in the order written, and the count of
      an endpoint's refusals with a code is the number of its records refused with it. */
  lemma TablesAre(threads: nat, run: seq<Action>, e: nat, code: string) returns (at: seq<nat>)
    requires Reach(threads, run).Some? && e < 3
    ensures
      var s := Reach(threads, run).value;
      && |s.timings| == 3 && TimesAre(s.timings[e], s.written, e, at)
      && s.errors[(e, code)] == |RefusedAt(s.written, e, code)|
  {
    var s := Reach(threads, run).value;
    TablesExactly(threads, run);
    hide Reach, Times, Errors, TimesAre, RefusedAt, Requests;
    at := TimesExactly(s.written, e);
    ErrorsCount(s.written, e, code);
  }
}

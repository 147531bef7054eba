/** The k6 drivers as one timed machine: virtual users with a shared iteration counter, a shared draft
    pool, a login table and pauses. A run is any interleaving of their steps. */
module LoadRun {
  import opened Wrappers
  import opened PacedLog

  datatype Role = Reader | Writer

  /** `logins` is the number of sessions that setup returned; `fallback` is the single-draft mode that only
      the SLO driver has; pauses are the sleeps after a request and after a skipped iteration. */
  datatype Config = Config(
    roles: seq<Role>, logins: nat, pool: seq<string>, fallback: Option<string>,
    readPause: real, writePause: real, skipPause: real)

  predicate Valid(cfg: Config) {
    cfg.readPause >= 0.0 && cfg.writePause >= 0.0 && cfg.skipPause >= 0.0
  }

  datatype Draft = Draft(index: nat, id: string)

  datatype Request = Request(vu: nat, at: real, draft: Option<Draft>)

  /** Asleep until a time, about to send, or waiting for the response. */
  datatype Phase = Waiting(until: real) | Ready(draft: Option<Draft>) | Sent

  datatype State = State(clock: real, phases: seq<Phase>, counter: nat, requests: seq<Request>)

  datatype Action = Begin(vu: nat, at: real) | Send(vu: nat, at: real) | Finish(vu: nat, at: real)

  function Pause(cfg: Config, vu: nat): real
    requires vu < |cfg.roles|
  {
    if cfg.roles[vu].Writer? then cfg.writePause else cfg.readPause
  }

  /** What iteration `index` of the writing scenario completes, if anything. */
  function Target(cfg: Config, index: nat): Option<string> {
    if cfg.logins == 0 then None
    else if cfg.pool != [] then if index < |cfg.pool| then Some(cfg.pool[index]) else None
    else cfg.fallback
  }

  function Init(cfg: Config): State {
    State(0.0, seq(|cfg.roles|, _ => Waiting(0.0)), 0, [])
  }

  predicate Enabled(cfg: Config, s: State, a: Action) {
    a.vu < |cfg.roles| && a.vu < |s.phases| && s.clock <= a.at
    && match a
       case Begin(v, at) => s.phases[v].Waiting? && s.phases[v].until <= at
       case Send(v, _) => s.phases[v].Ready?
       case Finish(v, _) => s.phases[v].Sent?
  }

  /** How an iteration starts: a writer takes the next iteration number whatever it then does with it. */
  function Claim(cfg: Config, counter: nat, role: Role, at: real): Phase {
    if cfg.logins == 0 then Waiting(at + cfg.skipPause)
    else if role.Reader? then Ready(None)
    else match Target(cfg, counter)
      case Some(id) => Ready(Some(Draft(counter, id)))
      case None => Waiting(at + cfg.skipPause)
  }

  function Next(cfg: Config, s: State, a: Action): State
    requires Enabled(cfg, s, a)
  {
    match a
    case Begin(v, at) =>
      var writes := cfg.roles[v].Writer?;
      State(
        at, s.phases[v := Claim(cfg, s.counter, cfg.roles[v], at)], s.counter + (if writes then 1 else 0), s.requests)
    case Send(v, at) =>
      State(at, s.phases[v := Sent], s.counter, s.requests + [Request(v, at, s.phases[v].draft)])
    case Finish(v, at) =>
      State(at, s.phases[v := Waiting(at + Pause(cfg, v))], s.counter, s.requests)
  }

  /** What an iteration's start does: a writer always uses up a number; with a session, a reader gets ready, and
      a writer does where the pool has that number or there is no pool but a fallback; otherwise the user pauses. */
  lemma BeginExactly(cfg: Config, s: State, a: Action)
    requires Enabled(cfg, s, a) && a.Begin?
    ensures
      var writes := cfg.roles[a.vu].Writer?;
      var t := Next(cfg, s, a);
      var p := t.phases[a.vu];
      && t.clock == a.at && t.requests == s.requests && t.counter == s.counter + (if writes then 1 else 0)
      && t.phases == s.phases[a.vu := p]
      && (p.Ready? <==> cfg.logins > 0
                        && (writes ==> s.counter < |cfg.pool| || (cfg.pool == [] && cfg.fallback.Some?)))
      && (p.Ready? && !writes ==> p.draft == None)
      && (p.Ready? && writes && cfg.pool != [] ==> p.draft == Some(Draft(s.counter, cfg.pool[s.counter])))
      && (p.Ready? && writes && cfg.pool == [] ==> p.draft == Some(Draft(s.counter, cfg.fallback.value)))
      && (!p.Ready? ==> p == Waiting(a.at + cfg.skipPause))
  {
  }

  /** The state a sequence of actions leads to from s; None if some action is not possible in its place. */
  function Exec(cfg: Config, s: State, run: seq<Action>): Option<State> {
    if run == [] then Some(s)
    else match Exec(cfg, s, run[..|run| - 1])
      case None => None
      case Some(t) => if Enabled(cfg, t, run[|run| - 1]) then Some(Next(cfg, t, run[|run| - 1])) else None
  }

  function Reach(cfg: Config, run: seq<Action>): Option<State> {
    Exec(cfg, Init(cfg), run)
  }

  // --- Invariants ---

  /** No request of a user can follow an earlier one before that one's pause has passed. */
  ghost predicate PaceInv(cfg: Config, s: State) {
    && |s.phases| == |cfg.roles|
    && (forall i :: 0 <= i < |s.requests| ==>
          s.requests[i].vu < |cfg.roles| && s.requests[i].at <= s.clock && Kept(cfg, s, s.requests[i]))
    && (forall i, j :: 0 <= i < j < |s.requests| && s.requests[i].vu == s.requests[j].vu ==>
          s.requests[j].at >= s.requests[i].at + Pause(cfg, s.requests[i].vu))
  }

  ghost predicate Kept(cfg: Config, s: State, r: Request)
    requires |s.phases| == |cfg.roles| && r.vu < |cfg.roles|
  {
    match s.phases[r.vu]
    case Waiting(until) => until >= r.at + Pause(cfg, r.vu)
    case Ready(_) => s.clock >= r.at + Pause(cfg, r.vu)
    case Sent => true
  }

  ghost predicate Claimed(cfg: Config, s: State, v: nat, draft: Option<Draft>) {
    v < |cfg.roles| && cfg.logins > 0
    && (draft.Some? <==> cfg.roles[v].Writer?)
    && (draft.Some? ==> draft.value.index < s.counter && Target(cfg, draft.value.index) == Some(draft.value.id))
  }

  ghost predicate Posted(s: State, index: nat) {
    exists i :: 0 <= i < |s.requests| && s.requests[i].draft.Some? && s.requests[i].draft.value.index == index
  }

  ghost predicate Holds(s: State, v: nat, index: nat)
    requires v < |s.phases|
  {
    s.phases[v].Ready? && s.phases[v].draft.Some? && s.phases[v].draft.value.index == index
  }

  /** Every claimed iteration with a target is held by one user or was posted once, never both. */
  ghost predicate DraftInv(cfg: Config, s: State) {
    && |s.phases| == |cfg.roles|
    && (forall i :: 0 <= i < |s.requests| ==> Claimed(cfg, s, s.requests[i].vu, s.requests[i].draft))
    && (forall v :: 0 <= v < |s.phases| && s.phases[v].Ready? ==> Claimed(cfg, s, v, s.phases[v].draft))
    && (forall i, j :: 0 <= i < j < |s.requests| && s.requests[i].draft.Some? && s.requests[j].draft.Some? ==>
          s.requests[i].draft.value.index != s.requests[j].draft.value.index)
    && (forall v, index :: 0 <= v < |s.phases| && Holds(s, v, index) ==> !Posted(s, index))
    && (forall v, w, index :: 0 <= v < |s.phases| && 0 <= w < |s.phases| && Holds(s, v, index) && Holds(s, w, index) ==>
          v == w)
    && (forall index :: 0 <= index < s.counter && Target(cfg, index).Some? ==> Accounted(s, index))
  }

  ghost predicate Accounted(s: State, index: nat) {
    Posted(s, index) || exists v :: 0 <= v < |s.phases| && Holds(s, v, index)
  }

  lemma PaceStep(cfg: Config, s: State, a: Action)
    requires Valid(cfg) && PaceInv(cfg, s) && Enabled(cfg, s, a)
    ensures PaceInv(cfg, Next(cfg, s, a))
  {
  }

  lemma BelowCounter(cfg: Config, s: State)
    requires DraftInv(cfg, s)
    ensures forall index: nat :: Posted(s, index) ==> index < s.counter
    ensures forall v, index: nat :: 0 <= v < |s.phases| && Holds(s, v, index) ==> index < s.counter
  {
  }

  lemma DraftBegin(cfg: Config, s: State, a: Action)
    requires DraftInv(cfg, s) && Enabled(cfg, s, a) && a.Begin?
    ensures DraftInv(cfg, Next(cfg, s, a))
  {
    var t := Next(cfg, s, a);
    BelowCounter(cfg, s);
    assert forall index :: Posted(t, index) <==> Posted(s, index);
    assert forall v, index :: 0 <= v < |t.phases| && v != a.vu ==> (Holds(t, v, index) <==> Holds(s, v, index));
    assert forall index :: Holds(t, a.vu, index) ==> index == s.counter;
    forall index | 0 <= index < t.counter && Target(cfg, index).Some?
      ensures Accounted(t, index)
    {
      if index == s.counter {
        assert Holds(t, a.vu, index);
      } else {
        assert Accounted(s, index);
      }
    }
  }

  lemma SendPosts(s: State, t: State, v: nat, at: real)
    requires v < |s.phases| && s.phases[v].Ready?
    requires t.requests == s.requests + [Request(v, at, s.phases[v].draft)]
    ensures forall index :: Posted(t, index) <==> Posted(s, index) || Holds(s, v, index)
  {
    forall index
      ensures Posted(t, index) <==> Posted(s, index) || Holds(s, v, index)
    {
      if Posted(s, index) {
        var i :| 0 <= i < |s.requests| && s.requests[i].draft.Some? && s.requests[i].draft.value.index == index;
        assert t.requests[i] == s.requests[i];
      }
      if Holds(s, v, index) {
        assert t.requests[|s.requests|].draft == s.phases[v].draft;
      }
    }
  }

  lemma PostedAt(s: State, i: nat)
    requires i < |s.requests| && s.requests[i].draft.Some?
    ensures Posted(s, s.requests[i].draft.value.index)
  {
  }

  lemma DraftSend(cfg: Config, s: State, a: Action)
    requires DraftInv(cfg, s) && Enabled(cfg, s, a) && a.Send?
    ensures DraftInv(cfg, Next(cfg, s, a))
  {
    var t := Next(cfg, s, a);
    SendPosts(s, t, a.vu, a.at);
    hide Target, Posted;
    assert forall v, index :: 0 <= v < |t.phases| && v != a.vu ==> (Holds(t, v, index) <==> Holds(s, v, index));
    assert forall index :: !Holds(t, a.vu, index);
    forall i | 0 <= i < |s.requests| && s.requests[i].draft.Some? && s.phases[a.vu].draft.Some?
      ensures s.requests[i].draft.value.index != s.phases[a.vu].draft.value.index
    {
      PostedAt(s, i);
      assert Holds(s, a.vu, s.phases[a.vu].draft.value.index);
    }
    assert forall index :: Accounted(s, index) ==> Accounted(t, index);
  }

  lemma DraftFinish(cfg: Config, s: State, a: Action)
    requires DraftInv(cfg, s) && Enabled(cfg, s, a) && a.Finish?
    ensures DraftInv(cfg, Next(cfg, s, a))
  {
    var t := Next(cfg, s, a);
    assert forall index :: Posted(t, index) <==> Posted(s, index);
    assert forall v, index :: 0 <= v < |t.phases| ==> (Holds(t, v, index) <==> Holds(s, v, index));
    assert forall index :: Accounted(s, index) ==> Accounted(t, index);
  }

  lemma {:induction false} RunKeeps(cfg: Config, run: seq<Action>)
    requires Valid(cfg) && Reach(cfg, run).Some?
    ensures PaceInv(cfg, Reach(cfg, run).value) && DraftInv(cfg, Reach(cfg, run).value)
  {
    if run != [] {
      var before, a := run[..|run| - 1], run[|run| - 1];
      RunKeeps(cfg, before);
      StepKeeps(cfg, Reach(cfg, before).value, a);
    }
  }

  lemma StepKeeps(cfg: Config, s: State, a: Action)
    requires Valid(cfg) && PaceInv(cfg, s) && DraftInv(cfg, s) && Enabled(cfg, s, a)
    ensures PaceInv(cfg, Next(cfg, s, a)) && DraftInv(cfg, Next(cfg, s, a))
  {
    PaceStep(cfg, s, a);
    match a
    case Begin(_, _) => DraftBegin(cfg, s, a);
    case Send(_, _) => DraftSend(cfg, s, a);
    case Finish(_, _) => DraftFinish(cfg, s, a);
  }

  // --- Drafts ---

  /** How many drafts of the pool the first `counter` iterations reach. */
  function ReachedPool(cfg: Config, s: State): nat {
    if s.counter < |cfg.pool| then s.counter else |cfg.pool|
  }

  ghost predicate AllIdle(s: State) {
    forall v :: 0 <= v < |s.phases| ==> s.phases[v].Waiting?
  }

  /** In every run with a pool: a completion always names the pool entry of its own iteration number, never
      the single-draft fallback; no number is used twice; only numbers already claimed are posted; and once
      every user is idle, exactly the claimed part of the pool has been posted. */
  lemma EachDraftOnce(cfg: Config, run: seq<Action>)
    requires Valid(cfg) && Reach(cfg, run).Some? && cfg.pool != [] && cfg.logins > 0
    ensures
      var s := Reach(cfg, run).value;
      && (forall i :: 0 <= i < |s.requests| && s.requests[i].draft.Some? ==>
            var d := s.requests[i].draft.value;
            d.index < ReachedPool(cfg, s) && d.id == cfg.pool[d.index])
      && (forall i, j :: 0 <= i < j < |s.requests| && s.requests[i].draft.Some? && s.requests[j].draft.Some? ==>
            s.requests[i].draft.value.index != s.requests[j].draft.value.index)
      && (AllIdle(s) ==> forall index :: 0 <= index < ReachedPool(cfg, s) ==> Posted(s, index))
  {
    RunKeeps(cfg, run);
    var s := Reach(cfg, run).value;
    forall index | AllIdle(s) && 0 <= index < ReachedPool(cfg, s)
      ensures Posted(s, index)
    {
      assert Accounted(s, index);
    }
  }

  /** No invoice id is completed twice. */
  ghost predicate NoIdTwice(s: State) {
    forall i, j :: 0 <= i < j < |s.requests| && s.requests[i].draft.Some? && s.requests[j].draft.Some? ==>
      s.requests[i].draft.value.id != s.requests[j].draft.value.id
  }

  ghost predicate Distinct(pool: seq<string>) {
    forall i, j :: 0 <= i < j < |pool| ==> pool[i] != pool[j]
  }

  // --- Every paced log is the log of a run ---

  /** The requests of a state as a log of timed events. */
  function Events(rs: seq<Request>): (log: seq<Event>)
    ensures |log| == |rs| && forall i :: 0 <= i < |rs| ==> log[i] == Event(rs[i].vu, rs[i].at)
  {
    seq(|rs|, i requires 0 <= i < |rs| => Event(rs[i].vu, rs[i].at))
  }

  lemma {:induction false} ExecConcat(cfg: Config, s: State, a: seq<Action>, b: seq<Action>)
    requires Exec(cfg, s, a).Some?
    ensures Exec(cfg, s, a + b) == Exec(cfg, Exec(cfg, s, a).value, b)
  {
    if b == [] {
      assert a + b == a;
    } else {
      assert (a + b)[..|a + b| - 1] == a + b[..|b| - 1];
      ExecConcat(cfg, s, a, b[..|b| - 1]);
    }
  }

  /** The first `claims` iterations of the writers, if there are any, all have a draft. */
  ghost predicate Stocked(cfg: Config, claims: nat) {
    cfg.logins > 0
    && (|cfg.pool| >= claims || (cfg.pool == [] && cfg.fallback.Some?)
        || forall v :: 0 <= v < |cfg.roles| ==> cfg.roles[v].Reader?)
  }

  /** One user sends one request at one instant and rests. */
  function Turn(v: nat, at: real): seq<Action> {
    [Begin(v, at), Send(v, at), Finish(v, at)]
  }

  /** Where one turn leaves the machine. */
  ghost predicate TurnDone(cfg: Config, s: State, t: State, v: nat, at: real)
    requires v < |cfg.roles| && |s.phases| == |cfg.roles|
  {
    && t.clock == at && t.phases == s.phases[v := Waiting(at + Pause(cfg, v))]
    && s.counter <= t.counter <= s.counter + 1 && (cfg.roles[v].Writer? ==> t.counter == s.counter + 1)
    && Events(t.requests) == Events(s.requests) + [Event(v, at)]
  }

  lemma TurnRuns(cfg: Config, s: State, v: nat, at: real)
    requires v < |cfg.roles| && |s.phases| == |cfg.roles| && Stocked(cfg, s.counter + 1)
    requires s.clock <= at && s.phases[v].Waiting? && s.phases[v].until <= at
    ensures Exec(cfg, s, Turn(v, at)).Some?
    ensures TurnDone(cfg, s, Exec(cfg, s, Turn(v, at)).value, v, at)
  {
    var b, c, d := Begin(v, at), Send(v, at), Finish(v, at);
    var s1 := Next(cfg, s, b);
    var s2 := Next(cfg, s1, c);
    var s3 := Next(cfg, s2, d);
    assert Exec(cfg, s, []) == Some(s);
    assert [b][..0] == [] && Exec(cfg, s, [b]) == Some(s1);
    assert [b, c][..1] == [b] && Exec(cfg, s, [b, c]) == Some(s2);
    assert [b, c, d][..2] == [b, c] && Exec(cfg, s, [b, c, d]) == Some(s3);
  }

  /** Two events of one user lie at least its pause apart. */
  predicate Clear(cfg: Config, e: Event, f: Event)
    requires e.vu < |cfg.roles|
  {
    e.vu == f.vu ==> e.at >= f.at + Pause(cfg, e.vu) || f.at >= e.at + Pause(cfg, e.vu)
  }

  ghost predicate Known(cfg: Config, log: seq<Event>) {
    forall e :: e in log ==> e.vu < |cfg.roles| && e.at >= 0.0
  }

  /** Every two listed events, in whatever order, are clear of each other. */
  ghost predicate Apart(cfg: Config, log: seq<Event>)
    requires Known(cfg, log)
  {
    forall i, j :: 0 <= i < |log| && 0 <= j < |log| && i != j ==> log[i] in log && Clear(cfg, log[i], log[j])
  }

  /** Everyone rests from their own last listed event, and the clock shows a listed time. */
  ghost predicate Rested(cfg: Config, s: State, log: seq<Event>)
    requires Known(cfg, log)
  {
    && |s.phases| == |cfg.roles| && AllIdle(s)
    && (s.clock == 0.0 || exists e :: e in log && s.clock == e.at)
    && (forall v :: 0 <= v < |s.phases| ==>
          s.phases[v].until == 0.0 || exists e :: e in log && e.vu == v && s.phases[v].until == e.at + Pause(cfg, v))
  }

  /** Exactly the listed events were requests, and no more iterations were started. */
  ghost predicate AllSent(cfg: Config, s: State, log: seq<Event>)
    requires Known(cfg, log)
  {
    && multiset(Events(s.requests)) == multiset(log) && s.counter <= |log|
    && ((forall e :: e in log ==> cfg.roles[e.vu].Writer?) ==> s.counter == |log|)
  }

  lemma Latest(log: seq<Event>) returns (m: nat)
    requires log != []
    ensures m < |log| && forall e :: e in log ==> e.at <= log[m].at
  {
    var last := |log| - 1;
    assert log == log[..last] + [log[last]];
    if last == 0 {
      m := 0;
    } else {
      m := Latest(log[..last]);
      if log[last].at > log[m].at {
        m := last;
      }
    }
  }

  function Without(log: seq<Event>, m: nat): (rest: seq<Event>)
    requires m < |log|
    ensures |rest| == |log| - 1 && multiset(log) == multiset(rest) + multiset{log[m]}
    ensures forall i :: 0 <= i < |rest| ==> rest[i] == log[if i < m then i else i + 1]
  {
    assert log == log[..m] + [log[m]] + log[m + 1..];
    log[..m] + log[m + 1..]
  }

  lemma RestApart(cfg: Config, log: seq<Event>, m: nat)
    requires m < |log| && Known(cfg, log) && Apart(cfg, log)
    ensures Known(cfg, Without(log, m)) && Apart(cfg, Without(log, m))
    ensures forall e :: e in Without(log, m) ==> e in log && Clear(cfg, log[m], e)
  {
    var rest := Without(log, m);
    hide Clear, Without;
    forall e | e in rest
      ensures e in log && Clear(cfg, log[m], e)
    {
      var i :| 0 <= i < |rest| && rest[i] == e;
      assert log[m] in log && log[if i < m then i else i + 1] in log;
    }
    assert Known(cfg, rest);
    forall i, j | 0 <= i < |rest| && 0 <= j < |rest| && i != j
      ensures rest[i] in rest && Clear(cfg, rest[i], rest[j])
    {
      assert log[if i < m then i else i + 1] in log;
    }
  }

  lemma NextRests(cfg: Config, s: State, t: State, log: seq<Event>, m: nat)
    requires m < |log| && Known(cfg, log) && Known(cfg, Without(log, m))
    requires Rested(cfg, s, Without(log, m)) && TurnDone(cfg, s, t, log[m].vu, log[m].at)
    requires forall e :: e in Without(log, m) ==> e in log
    ensures Rested(cfg, t, log)
  {
    assert log[m] in log;
    hide Pause, Without, Events, Known;
  }

  lemma NextSent(cfg: Config, s: State, t: State, log: seq<Event>, m: nat)
    requires m < |log| && Known(cfg, log) && Known(cfg, Without(log, m)) && |s.phases| == |cfg.roles|
    requires AllSent(cfg, s, Without(log, m)) && TurnDone(cfg, s, t, log[m].vu, log[m].at)
    requires forall e :: e in Without(log, m) ==> e in log
    ensures AllSent(cfg, t, log)
  {
    assert log[m] in log;
    assert multiset(Events(s.requests) + [log[m]]) == multiset(Events(s.requests)) + multiset{log[m]};
    hide Pause, Without, Events, Known;
  }

  lemma MayTurn(cfg: Config, s: State, log: seq<Event>, m: nat)
    requires Valid(cfg) && m < |log| && Known(cfg, log) && Known(cfg, Without(log, m))
    requires Rested(cfg, s, Without(log, m))
    requires forall e :: e in Without(log, m) ==> e in log && Clear(cfg, log[m], e)
    requires forall e :: e in log ==> e.at <= log[m].at
    ensures
      var v, at := log[m].vu, log[m].at;
      v < |s.phases| && s.clock <= at && s.phases[v].Waiting? && s.phases[v].until <= at
  {
    assert log[m] in log;
    var v, rest := log[m].vu, Without(log, m);
    hide Without, Known;
    if s.phases[v].until != 0.0 {
      var e :| e in rest && e.vu == v && s.phases[v].until == e.at + Pause(cfg, v);
      assert Clear(cfg, log[m], e);
    }
  }

  /** Any events, in whatever order, of which each user's are at least its pause apart, are exactly the requests
      of some run, as long as drafts last. */
  lemma {:induction false} LogRuns(cfg: Config, log: seq<Event>) returns (run: seq<Action>)
    requires Valid(cfg) && Known(cfg, log) && Apart(cfg, log) && Stocked(cfg, |log|)
    ensures Reach(cfg, run).Some? && Rested(cfg, Reach(cfg, run).value, log) && AllSent(cfg, Reach(cfg, run).value, log)
    decreases |log|
  {
    if log == [] {
      run := [];
    } else {
      var m := Latest(log);
      RestApart(cfg, log, m);
      hide Without;
      var before := LogRuns(cfg, Without(log, m));
      var s := Reach(cfg, before).value;
      MayTurn(cfg, s, log, m);
      TurnRuns(cfg, s, log[m].vu, log[m].at);
      run := before + Turn(log[m].vu, log[m].at);
      ExecConcat(cfg, Init(cfg), before, Turn(log[m].vu, log[m].at));
      hide Rested, AllSent, TurnDone, Apart, Known, Turn;
      NextRests(cfg, s, Reach(cfg, run).value, log, m);
      NextSent(cfg, s, Reach(cfg, run).value, log, m);
    }
  }

  /** k requests of one user, a gap apart, from time 0. */
  function Ticks(v: nat, gap: real, k: nat): (log: seq<Event>)
    ensures |log| == k
  {
    seq(k, i requires 0 <= i < k => Event(v, Gaps(i, gap)))
  }

  lemma TicksApart(cfg: Config, v: nat, k: nat)
    requires Valid(cfg) && v < |cfg.roles|
    ensures var log := Ticks(v, Pause(cfg, v), k); Known(cfg, log) && Apart(cfg, log)
  {
    var gap := Pause(cfg, v);
    var log := Ticks(v, gap, k);
    OneMoreGap(0, gap);
    forall i | 0 <= i < k
      ensures log[i].vu == v && log[i].at == Gaps(i, gap) >= 0.0
    {
      FewerGaps(0, i, gap);
    }
    hide Ticks, Gaps;
    forall i, j | 0 <= i < k && 0 <= j < k && i != j
      ensures Clear(cfg, log[i], log[j])
    {
      FewerGaps(if i < j then i else j, if i < j then j else i, gap);
    }
  }

  // --- Exactly when each invoice is completed at most once ---

  /** One writer working alone posts the first `count` iterations. */
  lemma SoloPosts(cfg: Config, v: nat, count: nat) returns (run: seq<Action>)
    requires Valid(cfg) && v < |cfg.roles| && cfg.roles[v].Writer? && Stocked(cfg, count)
    ensures Reach(cfg, run).Some?
    ensures forall index :: 0 <= index < count ==> Posted(Reach(cfg, run).value, index)
  {
    var log := Ticks(v, Pause(cfg, v), count);
    TicksApart(cfg, v, count);
    assert forall e :: e in log ==> e.vu == v;
    hide Ticks, Apart;
    run := LogRuns(cfg, log);
    RunKeeps(cfg, run);
    var s := Reach(cfg, run).value;
    assert s.counter == count;
    hide Rested, AllSent;
    forall index | 0 <= index < count
      ensures Posted(s, index)
    {
      assert Target(cfg, index).Some?;
      assert Accounted(s, index);
    }
  }

  lemma TwoPosts(cfg: Config, s: State, x: nat, y: nat)
    requires DraftInv(cfg, s) && Posted(s, x) && Posted(s, y) && x != y && Target(cfg, x) == Target(cfg, y)
    ensures !NoIdTwice(s)
  {
    var i :| 0 <= i < |s.requests| && s.requests[i].draft.Some? && s.requests[i].draft.value.index == x;
    var j :| 0 <= j < |s.requests| && s.requests[j].draft.Some? && s.requests[j].draft.value.index == y;
    assert s.requests[i].draft.value.id == s.requests[j].draft.value.id;
    if i < j {
      assert !NoIdTwice(s);
    } else {
      assert j < i && !NoIdTwice(s);
    }
  }

  /** With at least one writer and one session, no run completes an invoice twice exactly when the pool
      lists no id twice and an empty pool is not backed by the single-draft fallback. */
  lemma OnceExactly(cfg: Config, writer: nat)
    requires Valid(cfg) && cfg.logins > 0 && writer < |cfg.roles| && cfg.roles[writer].Writer?
    ensures (forall run :: Reach(cfg, run).Some? ==> NoIdTwice(Reach(cfg, run).value))
      <==> Distinct(cfg.pool) && (cfg.pool == [] ==> cfg.fallback.None?)
  {
    if Distinct(cfg.pool) && (cfg.pool == [] ==> cfg.fallback.None?) {
      forall run | Reach(cfg, run).Some?
        ensures NoIdTwice(Reach(cfg, run).value)
      {
        RunKeeps(cfg, run);
      }
    } else if cfg.pool == [] {
      var run := SoloPosts(cfg, writer, 2);
      RunKeeps(cfg, run);
      TwoPosts(cfg, Reach(cfg, run).value, 0, 1);
    } else {
      var i, j :| 0 <= i < j < |cfg.pool| && cfg.pool[i] == cfg.pool[j];
      var run := SoloPosts(cfg, writer, |cfg.pool|);
      RunKeeps(cfg, run);
      TwoPosts(cfg, Reach(cfg, run).value, i, j);
    }
  }

  // --- Pace of a run ---

  /** Users that all pause at least `gap` leave a paced log in every run. */
  lemma RunPaced(cfg: Config, run: seq<Action>, vus: set<nat>, gap: real)
    requires Valid(cfg) && Reach(cfg, run).Some?
    requires forall v :: v in vus && v < |cfg.roles| ==> gap <= Pause(cfg, v)
    ensures Paced(Events(Reach(cfg, run).value.requests), vus, gap)
  {
    RunKeeps(cfg, run);
  }

  /** Every run keeps these users within a limit in every window of this width. */
  ghost predicate WithinLimit(cfg: Config, vus: set<nat>, width: real, limit: nat) {
    forall run, from: real :: Reach(cfg, run).Some? ==>
      InWindow(Events(Reach(cfg, run).value.requests), vus, from, width) <= limit
  }

  /** The most requests that one user sends in a window of this width. */
  function MostOf(cfg: Config, v: nat, width: real): nat
    requires v < |cfg.roles| && Pause(cfg, v) > 0.0 && width > 0.0
  {
    RoundsFit(Pause(cfg, v), width);
    Ceil(width / Pause(cfg, v))
  }

  ghost predicate Pausing(cfg: Config, vus: set<nat>) {
    forall v :: v in vus ==> v < |cfg.roles| && Pause(cfg, v) > 0.0
  }

  /** The most requests that the listed users below n send in a window together. */
  function Most(cfg: Config, vus: set<nat>, n: nat, width: real): nat
    requires Pausing(cfg, vus) && width > 0.0
  {
    if n == 0 then 0 else Most(cfg, vus, n - 1, width) + if n - 1 in vus then MostOf(cfg, n - 1, width) else 0
  }

  /** No window of a run holds more. */
  lemma {:induction false} AtMost(cfg: Config, run: seq<Action>, vus: set<nat>, n: nat, from: real, width: real)
    requires Valid(cfg) && Reach(cfg, run).Some? && Pausing(cfg, vus) && width > 0.0
    ensures InWindow(Events(Reach(cfg, run).value.requests), Below(vus, n), from, width) <= Most(cfg, vus, n, width)
  {
    hide Reach, Events, InWindow;
    var log := Events(Reach(cfg, run).value.requests);
    if n == 0 {
      InWindowNone(log, from, width);
      assert Below(vus, 0) == {};
    } else {
      AtMost(cfg, run, vus, n - 1, from, width);
      BelowStep(vus, n - 1);
      if n - 1 in vus {
        InWindowSplit(log, Below(vus, n), n - 1, from, width);
        RunPaced(cfg, run, {n - 1}, Pause(cfg, n - 1));
        OneUserBound(log, n - 1, Pause(cfg, n - 1), from, width);
        assert Below(vus, n) - {n - 1} == Below(vus, n - 1);
      } else {
        assert Below(vus, n) == Below(vus, n - 1);
      }
    }
  }

  /** Each listed user below n as often as a window holds. */
  function AllTicks(cfg: Config, vus: set<nat>, n: nat, width: real): (log: seq<Event>)
    requires Pausing(cfg, vus) && width > 0.0
    ensures |log| == Most(cfg, vus, n, width)
  {
    if n == 0 then []
    else
      AllTicks(cfg, vus, n - 1, width)
      + if n - 1 in vus then Ticks(n - 1, Pause(cfg, n - 1), MostOf(cfg, n - 1, width)) else []
  }

  lemma TicksInside(cfg: Config, v: nat, width: real, e: Event)
    requires v < |cfg.roles| && Pause(cfg, v) > 0.0 && width > 0.0
    requires e in Ticks(v, Pause(cfg, v), MostOf(cfg, v, width))
    ensures e.vu == v && 0.0 <= e.at < width
  {
    var gap, k := Pause(cfg, v), MostOf(cfg, v, width);
    var i :| 0 <= i < k && Ticks(v, gap, k)[i] == e;
    RoundsFit(gap, width);
    OneMoreGap(0, gap);
    hide Gaps;
    FewerGaps(0, i, gap);
    FewerGaps(i, k - 1, gap);
  }

  lemma {:induction false} AllTicksInside(cfg: Config, vus: set<nat>, n: nat, width: real, e: Event)
    requires Pausing(cfg, vus) && width > 0.0 && e in AllTicks(cfg, vus, n, width)
    ensures e.vu in vus && e.vu < n && 0.0 <= e.at < width
  {
    hide Ticks;
    if n > 0 {
      if e in AllTicks(cfg, vus, n - 1, width) {
        AllTicksInside(cfg, vus, n - 1, width, e);
      } else {
        TicksInside(cfg, n - 1, width, e);
      }
    }
  }

  lemma ConcatApart(cfg: Config, a: seq<Event>, b: seq<Event>)
    requires Known(cfg, a) && Known(cfg, b) && Apart(cfg, a) && Apart(cfg, b)
    requires forall e, f :: e in a && f in b ==> e.vu != f.vu
    ensures Known(cfg, a + b) && Apart(cfg, a + b)
  {
    forall i, j | 0 <= i < |a + b| && 0 <= j < |a + b| && i != j
      ensures Clear(cfg, (a + b)[i], (a + b)[j])
    {
      assert i < |a| ==> a[i] in a;
      assert i >= |a| ==> b[i - |a|] in b;
      assert j < |a| ==> a[j] in a;
      assert j >= |a| ==> b[j - |a|] in b;
      hide Pause;
    }
  }

  lemma {:induction false} AllTicksApart(cfg: Config, vus: set<nat>, n: nat, width: real)
    requires Valid(cfg) && Pausing(cfg, vus) && width > 0.0
    ensures var log := AllTicks(cfg, vus, n, width); Known(cfg, log) && Apart(cfg, log)
  {
    hide AllTicks, Ticks, Apart, Known, Pause, MostOf;
    if n == 0 {
      NoTicksApart(cfg, vus, width);
    } else {
      AllTicksApart(cfg, vus, n - 1, width);
      AllTicksStep(cfg, vus, n, width);
      if n - 1 in vus {
        OwnTicksApart(cfg, vus, n - 1, width);
      }
    }
  }

  lemma NoTicksApart(cfg: Config, vus: set<nat>, width: real)
    requires Pausing(cfg, vus) && width > 0.0
    ensures var log := AllTicks(cfg, vus, 0, width); Known(cfg, log) && Apart(cfg, log)
  {
  }

  /** One user's own times follow those of the users below. */
  lemma OwnTicksApart(cfg: Config, vus: set<nat>, v: nat, width: real)
    requires Valid(cfg) && Pausing(cfg, vus) && width > 0.0 && v in vus
    requires var before := AllTicks(cfg, vus, v, width); Known(cfg, before) && Apart(cfg, before)
    ensures
      var log := AllTicks(cfg, vus, v, width) + Ticks(v, Pause(cfg, v), MostOf(cfg, v, width));
      Known(cfg, log) && Apart(cfg, log)
  {
    hide AllTicks, Ticks, Apart, Known, Pause, MostOf;
    var k := MostOf(cfg, v, width);
    var before, own := AllTicks(cfg, vus, v, width), Ticks(v, Pause(cfg, v), k);
    TicksApart(cfg, v, k);
    forall e, f | e in before && f in own
      ensures e.vu != f.vu
    {
      AllTicksInside(cfg, vus, v, width, e);
      TicksInside(cfg, v, width, f);
    }
    ConcatApart(cfg, before, own);
  }

  lemma AllTicksStep(cfg: Config, vus: set<nat>, n: nat, width: real)
    requires Pausing(cfg, vus) && width > 0.0 && n > 0
    ensures
      var before := AllTicks(cfg, vus, n - 1, width);
      AllTicks(cfg, vus, n, width)
      == if n - 1 in vus then before + Ticks(n - 1, Pause(cfg, n - 1), MostOf(cfg, n - 1, width)) else before
  {
  }

  lemma PrefixApart(cfg: Config, log: seq<Event>, k: nat)
    requires Known(cfg, log) && Apart(cfg, log) && k <= |log|
    ensures Known(cfg, log[..k]) && Apart(cfg, log[..k])
  {
    hide Clear;
    assert forall e :: e in log[..k] ==> e in log;
  }

  /** A run with this many requests of the listed users in one window, as long as drafts last. */
  lemma CrowdedWindow(cfg: Config, vus: set<nat>, width: real, k: nat) returns (run: seq<Action>)
    requires Valid(cfg) && Pausing(cfg, vus) && width > 0.0
    requires k <= Most(cfg, vus, |cfg.roles|, width) && Stocked(cfg, k)
    ensures Reach(cfg, run).Some? && InWindow(Events(Reach(cfg, run).value.requests), vus, 0.0, width) == k
  {
    var all := AllTicks(cfg, vus, |cfg.roles|, width);
    AllTicksApart(cfg, vus, |cfg.roles|, width);
    PrefixApart(cfg, all, k);
    run := LogRuns(cfg, all[..k]);
    var log := Events(Reach(cfg, run).value.requests);
    assert |log| == |multiset(log)| == |multiset(all[..k])| == k;
    forall e | e in log
      ensures Inside(e, vus, 0.0, width)
    {
      assert e in multiset(log);
      assert e in all[..k] && e in all;
      AllTicksInside(cfg, vus, |cfg.roles|, width, e);
    }
    AllInside(log, vus, 0.0, width);
  }

  /** Exactly when every run keeps these users within a limit in every window, given drafts enough to exceed
      it: their requests in a window are at most the sum over the users of ceil(width / pause), and some run
      reaches that. */
  lemma RunLimitExact(cfg: Config, vus: set<nat>, width: real, limit: nat)
    requires Valid(cfg) && Pausing(cfg, vus) && width > 0.0
    ensures Most(cfg, vus, |cfg.roles|, width) <= limit ==> WithinLimit(cfg, vus, width, limit)
    ensures Stocked(cfg, limit + 1) ==>
      (WithinLimit(cfg, vus, width, limit) <==> Most(cfg, vus, |cfg.roles|, width) <= limit)
  {
    assert Below(vus, |cfg.roles|) == vus;
    if Most(cfg, vus, |cfg.roles|, width) <= limit {
      forall run, from: real | Reach(cfg, run).Some?
        ensures InWindow(Events(Reach(cfg, run).value.requests), vus, from, width) <= limit
      {
        AtMost(cfg, run, vus, |cfg.roles|, from, width);
      }
    } else if Stocked(cfg, limit + 1) {
      var run := CrowdedWindow(cfg, vus, width, limit + 1);
      assert InWindow(Events(Reach(cfg, run).value.requests), vus, 0.0, width) > limit;
    }
  }

  // --- Sums of users' shares ---

  lemma {:induction false} MostOfSame(cfg: Config, vus: set<nat>, n: nat, gap: real, width: real)
    requires Pausing(cfg, vus) && width > 0.0 && gap > 0.0 && forall v :: v in vus ==> Pause(cfg, v) == gap
    ensures Most(cfg, vus, n, width) == |Below(vus, n)| * Ceil(width / gap)
  {
    if n == 0 {
      assert Below(vus, 0) == {};
    } else {
      MostOfSame(cfg, vus, n - 1, gap, width);
      BelowStep(vus, n - 1);
      if n - 1 in vus {
        OneMoreTime(Ceil(width / gap), |Below(vus, n)|);
      }
    }
  }

  lemma {:induction false} MostOfBoth(cfg: Config, a: set<nat>, b: set<nat>, n: nat, width: real)
    requires Pausing(cfg, a) && Pausing(cfg, b) && a !! b && width > 0.0
    ensures Most(cfg, a + b, n, width) == Most(cfg, a, n, width) + Most(cfg, b, n, width)
  {
    if n > 0 {
      MostOfBoth(cfg, a, b, n - 1, width);
    }
  }

  // --- A pool that runs dry ---

  /** The draft numbers of the first n requests. */
  function Indices(rs: seq<Request>, n: nat): set<nat>
    requires n <= |rs|
  {
    if n == 0 then {}
    else Indices(rs, n - 1) + if rs[n - 1].draft.Some? then {rs[n - 1].draft.value.index} else {}
  }

  lemma {:induction false} IndexOfRequest(rs: seq<Request>, n: nat, index: nat)
    requires n <= |rs| && index in Indices(rs, n)
    ensures exists i :: 0 <= i < n && rs[i].draft.Some? && rs[i].draft.value.index == index
  {
    if index in Indices(rs, n - 1) {
      IndexOfRequest(rs, n - 1, index);
    }
  }

  ghost predicate OncePerDraft(rs: seq<Request>) {
    forall i, j :: 0 <= i < j < |rs| && rs[i].draft.Some? && rs[j].draft.Some? ==>
      rs[i].draft.value.index != rs[j].draft.value.index
  }

  lemma NewIndex(rs: seq<Request>, n: nat)
    requires n < |rs| && OncePerDraft(rs) && rs[n].draft.Some?
    ensures rs[n].draft.value.index !in Indices(rs, n)
  {
    if rs[n].draft.value.index in Indices(rs, n) {
      IndexOfRequest(rs, n, rs[n].draft.value.index);
      assert false;
    }
  }

  /** Requests with distinct drafts are no more than the drafts. */
  lemma {:induction false} DraftedAtMost(rs: seq<Request>, n: nat, vus: set<nat>, from: real, width: real)
    requires n <= |rs| && OncePerDraft(rs) && forall i :: 0 <= i < |rs| && rs[i].vu in vus ==> rs[i].draft.Some?
    ensures InWindow(Events(rs)[..n], vus, from, width) <= |Indices(rs, n)|
  {
    hide OncePerDraft;
    if n > 0 {
      DraftedAtMost(rs, n - 1, vus, from, width);
      if rs[n - 1].draft.Some? {
        NewIndex(rs, n - 1);
      }
      assert Events(rs)[..n][..n - 1] == Events(rs)[..n - 1];
    }
  }

  function UpTo(n: nat): (s: set<nat>)
    ensures |s| == n && forall i: nat :: i in s <==> i < n
  {
    if n == 0 then {} else UpTo(n - 1) + {n - 1}
  }

  lemma Smaller(a: set<nat>, b: set<nat>)
    requires a <= b
    ensures |a| <= |b|
  {
    assert b == a + (b - a);
  }

  /** Without the single-draft fallback writers never send more requests than the pool has drafts, and without
      a session none. */
  lemma WritersWithinPool(cfg: Config, run: seq<Action>, vus: set<nat>, from: real, width: real)
    requires Valid(cfg) && Reach(cfg, run).Some? && cfg.fallback.None?
    requires forall v :: v in vus ==> v < |cfg.roles| && cfg.roles[v].Writer?
    ensures InWindow(Events(Reach(cfg, run).value.requests), vus, from, width)
      <= if cfg.logins == 0 then 0 else |cfg.pool|
  {
    RunKeeps(cfg, run);
    var rs := Reach(cfg, run).value.requests;
    hide PaceInv;
    DraftedAtMost(rs, |rs|, vus, from, width);
    assert Events(rs)[..|rs|] == Events(rs);
    forall index | index in Indices(rs, |rs|)
      ensures index < |cfg.pool|
    {
      IndexOfRequest(rs, |rs|, index);
    }
    Smaller(Indices(rs, |rs|), UpTo(|cfg.pool|));
    if cfg.logins == 0 {
      assert rs == [];
    }
  }
}

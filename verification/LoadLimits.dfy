/** The server limits the load drivers promise to respect, as theorems over every run. */
module LoadLimits {
  import opened Arithmetic
  import opened PacedLog
  import opened LoadRun

  const WRITE_VUS := 7
  const READ_PAUSE := 0.4

  /** Math.max(2, (WRITE_VUS * 60) / COMPLETES_PER_MIN). */
  function WritePause(completesPerMin: real): (p: real)
    requires completesPerMin > 0.0
    ensures p >= 2.0
  {
    var share := (WRITE_VUS * 60) as real / completesPerMin;
    if share > 2.0 then share else 2.0
  }

  function Writers(cfg: Config): set<nat> {
    set v | 0 <= v < |cfg.roles| && cfg.roles[v].Writer?
  }

  /** The mixed soak: seven writers among the users, no single-draft fallback. */
  ghost predicate MixedSoak(cfg: Config, completesPerMin: real)
    requires completesPerMin > 0.0
  {
    |Writers(cfg)| == WRITE_VUS && cfg.fallback.None?
    && cfg.readPause == READ_PAUSE && cfg.skipPause == 1.0 && cfg.writePause == WritePause(completesPerMin)
  }

  /** The writers pause two seconds or more, and longer only where seven of them would exceed the pace. */
  lemma WritePauseExactly(completesPerMin: real, p: real)
    requires completesPerMin > 0.0
    ensures p == WritePause(completesPerMin) <==>
      p >= 2.0 && p * completesPerMin >= 420.0 && (p == 2.0 || p * completesPerMin == 420.0)
  {
    var share := 420.0 / completesPerMin;
    assert share * completesPerMin == 420.0;
    QuotientAtMost(420.0, completesPerMin, p);
    assert p * completesPerMin == 420.0 ==> p == share by {
      if p * completesPerMin == 420.0 {
        assert (p - share) * completesPerMin == 0.0;
      }
    }
  }

  // --- Completes per minute ---

  lemma WriteSharesAtMost(completesPerMin: real, k: int)
    requires completesPerMin > 0.0 && 1 <= k < 30
    ensures Ceil(60.0 / WritePause(completesPerMin)) <= k <==> completesPerMin <= (7 * k) as real
  {
    var p, share := WritePause(completesPerMin), 420.0 / completesPerMin;
    CeilLeast(60.0 / p, k);
    assert share * completesPerMin == 420.0;
    assert 60.0 / p <= k as real <==> 60.0 <= k as real * p by { QuotientAtMost(60.0, p, k as real); }
    if p == 2.0 {
      assert 60.0 > k as real * p;
      assert share <= 2.0;
      assert 2.0 * completesPerMin >= 420.0 by { Scale(share, 2.0, completesPerMin); }
    } else {
      assert 60.0 / share == completesPerMin / 7.0 by { assert completesPerMin / 7.0 * share == 60.0; }
    }
  }

  /** For every whole COMPLETES_PER_MIN and every interleaving, any 60-second window holds at most
      COMPLETES_PER_MIN + 6 completions: 56 for the default of 50. */
  lemma CompletesPerMinute(cfg: Config, completesPerMin: nat, run: seq<Action>, from: real)
    requires completesPerMin >= 1 && MixedSoak(cfg, completesPerMin as real) && Reach(cfg, run).Some?
    ensures InWindow(Events(Reach(cfg, run).value.requests), Writers(cfg), from, 60.0)
      <= completesPerMin + 6
  {
    var c := completesPerMin;
    var p := WritePause(c as real);
    RunPaced(cfg, run, Writers(cfg), p);
    WindowBound(Events(Reach(cfg, run).value.requests), Writers(cfg), p, from, 60.0);
    var k := (c + 6) / 7;
    if k < 30 {
      WriteSharesAtMost(c as real, k);
    } else {
      assert Ceil(60.0 / p) <= 30 by {
        CeilLeast(60.0 / p, 30);
        QuotientAtMost(60.0, p, 30.0);
      }
    }
  }

  /** The promise to stay within 60 completions a minute, for every run and window, holds exactly for
      COMPLETES_PER_MIN up to 56, unless no session signs in or the pool has no more than 60 drafts at all: from
      there to 60 the seven writers can complete 63. */
  lemma CompleteLimitExact(cfg: Config, completesPerMin: real)
    requires completesPerMin > 0.0 && MixedSoak(cfg, completesPerMin)
    ensures WithinLimit(cfg, Writers(cfg), 60.0, 60)
      <==> completesPerMin <= 56.0 || cfg.logins == 0 || |cfg.pool| <= 60
  {
    var p := WritePause(completesPerMin);
    assert Below(Writers(cfg), |cfg.roles|) == Writers(cfg);
    assert Pausing(cfg, Writers(cfg));
    MostOfSame(cfg, Writers(cfg), |cfg.roles|, p, 60.0);
    WriteSharesAtMost(completesPerMin, 8);
    RunLimitExact(cfg, Writers(cfg), 60.0, 60);
    if cfg.logins == 0 || |cfg.pool| <= 60 {
      forall run, from: real | Reach(cfg, run).Some?
        ensures InWindow(Events(Reach(cfg, run).value.requests), Writers(cfg), from, 60.0) <= 60
      {
        WritersWithinPool(cfg, run, Writers(cfg), from, 60.0);
      }
    } else {
      assert Stocked(cfg, 61);
      hide WithinLimit, Most, Writers, WritePause, Stocked;
    }
  }

  // --- Requests per login ---

  /** The users, numbered from 0, that share login `s` of `logins`. */
  function OnLogin(users: nat, logins: nat, s: nat): set<nat>
    requires logins > 0
  {
    set v | 0 <= v < users && v % logins == s
  }

  /** ceil(users / logins). */
  function Share(users: nat, logins: nat): nat
    requires logins > 0
  {
    (users + logins - 1) / logins
  }

  lemma FewUsers(users: nat, logins: nat, s: nat)
    requires s < logins && users <= logins
    ensures OnLogin(users, logins, s) == if s < users then {s} else {}
  {
    forall v | 0 <= v < users
      ensures v % logins == v
    {
      DivModUnique(v, logins, 0, v);
    }
  }

  /** Login s carries (users - s) / logins users, rounded up; login 0 carries the most. */
  lemma {:induction false} LoginLoad(users: nat, logins: nat, s: nat)
    requires s < logins
    ensures |OnLogin(users, logins, s)| == (if users <= s then 0 else Share(users - s, logins)) <= Share(users, logins)
    decreases users
  {
    hide *;
    if users <= logins {
      FewUsers(users, logins, s);
      if s < users {
        ShareOne(users - s, logins);
        ShareOne(users, logins);
      }
    } else {
      var fewer := users - logins;
      LoginLoad(fewer, logins, s);
      LastOnLogin(users, logins, s);
      ShareStep(users, logins);
      if fewer <= s {
        ShareOne(users - s, logins);
      } else {
        ShareStep(users - s, logins);
      }
    }
  }

  lemma ShareOne(users: nat, logins: nat)
    requires 1 <= users <= logins
    ensures Share(users, logins) == 1
  {
    DivModUnique(users + logins - 1, logins, 1, users - 1);
  }

  lemma ShareStep(users: int, logins: nat)
    requires users >= logins > 0
    ensures Share(users, logins) == Share(users - logins, logins) + 1
  {
    var q, r := (users - 1) / logins, (users - 1) % logins;
    assert users - logins + logins - 1 == logins * q + r;
    DivModUnique(users + logins - 1, logins, q + 1, r);
  }

  lemma LastOnLogin(users: nat, logins: nat, s: nat)
    requires s < logins < users
    ensures |OnLogin(users, logins, s)| == |OnLogin(users - logins, logins, s)| + 1
  {
    var fewer := users - logins;
    var v := OneInARow(fewer, logins, s);
    forall w | fewer <= w < users && w % logins == s
      ensures w == v
    {
      SameResidue(v, w, logins);
    }
    assert OnLogin(users, logins, s) == OnLogin(fewer, logins, s) + {v};
  }

  /** Any 10-second window of any run puts at most 25 requests per user sharing a login on that login. */
  lemma RequestsPerLogin(cfg: Config, completesPerMin: real, run: seq<Action>, s: nat, from: real)
    requires completesPerMin > 0.0 && MixedSoak(cfg, completesPerMin) && Reach(cfg, run).Some? && s < cfg.logins
    ensures InWindow(Events(Reach(cfg, run).value.requests), OnLogin(|cfg.roles|, cfg.logins, s), from, 10.0)
      <= 25 * Share(|cfg.roles|, cfg.logins)
  {
    var vus := OnLogin(|cfg.roles|, cfg.logins, s);
    RunPaced(cfg, run, vus, READ_PAUSE);
    WindowBound(Events(Reach(cfg, run).value.requests), vus, READ_PAUSE, from, 10.0);
    LoginLoad(|cfg.roles|, cfg.logins, s);
  }

  /** One login per user keeps every login far below the limit of 100 requests in 10 seconds. */
  lemma OneLoginEach(cfg: Config, completesPerMin: real, run: seq<Action>, s: nat, from: real)
    requires completesPerMin > 0.0 && MixedSoak(cfg, completesPerMin) && Reach(cfg, run).Some?
    requires s < cfg.logins && |cfg.roles| == cfg.logins
    ensures |OnLogin(|cfg.roles|, cfg.logins, s)| == 1
    ensures InWindow(Events(Reach(cfg, run).value.requests), OnLogin(|cfg.roles|, cfg.logins, s), from, 10.0)
      <= 25 < 100
  {
    LoginLoad(|cfg.roles|, cfg.logins, s);
    ShareOne(cfg.logins, cfg.logins);
    ShareOne(cfg.logins - s, cfg.logins);
    RequestsPerLogin(cfg, completesPerMin, run, s, from);
  }

  function ReadersOn(cfg: Config, s: nat): set<nat>
    requires cfg.logins > 0
  {
    set v | v in OnLogin(|cfg.roles|, cfg.logins, s) && cfg.roles[v].Reader?
  }

  function WritersOn(cfg: Config, s: nat): set<nat>
    requires cfg.logins > 0
  {
    set v | v in OnLogin(|cfg.roles|, cfg.logins, s) && cfg.roles[v].Writer?
  }

  /** The most requests in 10 seconds on a login: 25 for each reader, and ceil(10 / pause) for each writer. */
  function LoginPeak(cfg: Config, completesPerMin: real, s: nat): int
    requires cfg.logins > 0 && completesPerMin > 0.0
  {
    25 * |ReadersOn(cfg, s)| + |WritersOn(cfg, s)| * Ceil(10.0 / WritePause(completesPerMin))
  }

  lemma PeakIsMost(cfg: Config, completesPerMin: real, s: nat)
    requires completesPerMin > 0.0 && MixedSoak(cfg, completesPerMin) && s < cfg.logins
    ensures
      var vus := OnLogin(|cfg.roles|, cfg.logins, s);
      Pausing(cfg, vus) && Most(cfg, vus, |cfg.roles|, 10.0) == LoginPeak(cfg, completesPerMin, s)
  {
    var n, readers, writers := |cfg.roles|, ReadersOn(cfg, s), WritersOn(cfg, s);
    assert readers + writers == OnLogin(n, cfg.logins, s);
    assert Pausing(cfg, readers) && Pausing(cfg, writers);
    assert Below(readers, n) == readers && Below(writers, n) == writers;
    assert Ceil(10.0 / READ_PAUSE) == 25;
    MostOfSame(cfg, readers, n, READ_PAUSE, 10.0);
    MostOfSame(cfg, writers, n, WritePause(completesPerMin), 10.0);
    MostOfBoth(cfg, readers, writers, n, 10.0);
  }

  /** A login stays within the API limit in every run of the mixed soak exactly when its peak is within it, as long
      as there are drafts enough to exceed it. */
  lemma LoginLimitExact(cfg: Config, completesPerMin: real, s: nat)
    requires completesPerMin > 0.0 && MixedSoak(cfg, completesPerMin) && s < cfg.logins
    ensures
      var vus := OnLogin(|cfg.roles|, cfg.logins, s);
      && (LoginPeak(cfg, completesPerMin, s) <= 100 ==> WithinLimit(cfg, vus, 10.0, 100))
      && (|cfg.pool| > 100 ==>
            (WithinLimit(cfg, vus, 10.0, 100) <==> LoginPeak(cfg, completesPerMin, s) <= 100))
  {
    PeakIsMost(cfg, completesPerMin, s);
    hide LoginPeak, OnLogin, WithinLimit, Most, Pausing;
    RunLimitExact(cfg, OnLogin(|cfg.roles|, cfg.logins, s), 10.0, 100);
  }

  /** Readers alone stay within the API limit on every login, in every run, exactly when no login is
      shared by more than four of them: 25 readers need at least seven logins. */
  lemma SharingExact(cfg: Config)
    requires Valid(cfg) && cfg.readPause == 0.4 && cfg.logins > 0
    requires forall v :: 0 <= v < |cfg.roles| ==> cfg.roles[v].Reader?
    ensures (forall s :: 0 <= s < cfg.logins ==> WithinLimit(cfg, OnLogin(|cfg.roles|, cfg.logins, s), 10.0, 100))
      <==> Share(|cfg.roles|, cfg.logins) <= 4
  {
    var users, logins := |cfg.roles|, cfg.logins;
    forall s | 0 <= s < logins
      ensures WithinLimit(cfg, OnLogin(users, logins, s), 10.0, 100) <==> |OnLogin(users, logins, s)| <= 4
      ensures |OnLogin(users, logins, s)| <= Share(users, logins)
    {
      OneLoginOfReaders(cfg, s);
      hide WithinLimit, OnLogin, Share;
      LoginLoad(users, logins, s);
    }
    LoginLoad(users, logins, 0);
    assert users == 0 ==> Share(users, logins) == 0 by {
      if users == 0 {
        DivModUnique(logins - 1, logins, 0, logins - 1);
      }
    }
    hide WithinLimit, OnLogin;
  }

  lemma OneLoginOfReaders(cfg: Config, s: nat)
    requires Valid(cfg) && cfg.readPause == READ_PAUSE && s < cfg.logins
    requires forall v :: 0 <= v < |cfg.roles| ==> cfg.roles[v].Reader?
    ensures
      var vus := OnLogin(|cfg.roles|, cfg.logins, s);
      WithinLimit(cfg, vus, 10.0, 100) <==> |vus| <= 4
  {
    var n, vus := |cfg.roles|, OnLogin(|cfg.roles|, cfg.logins, s);
    assert Ceil(10.0 / READ_PAUSE) == 25;
    assert Below(vus, n) == vus && Pausing(cfg, vus);
    MostOfSame(cfg, vus, n, READ_PAUSE, 10.0);
    hide WithinLimit, Most, OnLogin, Pausing;
    RunLimitExact(cfg, vus, 10.0, 100);
  }
}

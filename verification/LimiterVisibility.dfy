/** Which parameters make the boundary of pruning show in runs of logins. */
module LimiterVisibility {
  import opened Wrappers
  import opened RateLimiter
  import opened LimiterRuns
  import opened LimiterPruning
  import opened LimiterRetry
  import LoginRuns

  type Logins = seq<LoginRuns.Login>

  /** Every attempt after every run of logins is answered as by a limiter that never forgets. */
  ghost predicate Invisible(cfg: Config) {
    forall ls: Logins, key: string, now: real :: LoginRuns.Timed(ls) && LoginRuns.DoneBy(ls, now) ==>
      HitStep(cfg, LoginRuns.After(cfg, ls), key, now).1
      == HitStep(Unpruned(cfg), LoginRuns.After(Unpruned(cfg), ls), key, now).1
  }

  // ---- without lockouts streaks do not matter ----

  /** At this time the two let the same attempts through the window. */
  ghost predicate SameWindow(cfg: Config, p: Limiter, u: Limiter, now: real) {
    forall key: string :: Expire(Queue(p, key), now - cfg.window) == Expire(Queue(u, key), now - cfg.window)
  }

  lemma SameWindowLater(cfg: Config, p: Limiter, u: Limiter, now: real, later: real)
    requires SameWindow(cfg, p, u, now) && now <= later
    ensures SameWindow(cfg, p, u, later)
  {
    hide Expire, Queue;
    forall key: string ensures Expire(Queue(p, key), later - cfg.window) == Expire(Queue(u, key), later - cfg.window) {
      assert Expire(Queue(p, key), now - cfg.window) == Expire(Queue(u, key), now - cfg.window);
      ExpireLater(Queue(p, key), now - cfg.window, later - cfg.window);
      ExpireLater(Queue(u, key), now - cfg.window, later - cfg.window);
    }
  }

  lemma HitKeepsWindow(cfg: Config, p: Limiter, u: Limiter, key: string, now: real)
    requires SameWindow(cfg, p, u, now) && !LockedOut(p, key, now) && !LockedOut(u, key, now)
    requires forall k :: Sorted(Queue(p, k)) && Sorted(Queue(u, k))
    ensures HitStep(cfg, p, key, now).1 == HitStep(Unpruned(cfg), u, key, now).1
    ensures SameWindow(cfg, HitStep(cfg, p, key, now).0, HitStep(Unpruned(cfg), u, key, now).0, now)
  {
    hide Expire, HitStep, Ceil, Sorted, Queue, SameStreak, ActiveUntil;
    HitAnswer(cfg, p, key, now);
    HitAnswer(Unpruned(cfg), u, key, now);
    assert Expire(Queue(p, key), now - cfg.window) == Expire(Queue(u, key), now - cfg.window);
    var p', u' := HitStep(cfg, p, key, now).0, HitStep(Unpruned(cfg), u, key, now).0;
    forall k: string ensures Expire(Queue(p', k), now - cfg.window) == Expire(Queue(u', k), now - cfg.window) {
      assert Expire(Queue(p, k), now - cfg.window) == Expire(Queue(u, k), now - cfg.window);
      HitOnKey(cfg, p, key, k, now);
      HitOnKey(Unpruned(cfg), u, key, k, now);
    }
  }

  lemma FailureKeepsAttempts(cfg: Config, s: Limiter, key: string, now: real)
    ensures FailureStep(cfg, s, key, now).attempts == s.attempts
  {
    hide Penalty, NextCount, StreaksAtFailure;
  }

  lemma EndKeepsWindow(cfg: Config, p: Limiter, u: Limiter, key: string, now: real)
    requires SameWindow(cfg, p, u, now)
    ensures SameWindow(cfg, FailureStep(cfg, p, key, now), FailureStep(Unpruned(cfg), u, key, now), now)
    ensures SameWindow(cfg, SuccessStep(p, key), SuccessStep(u, key), now)
  {
    hide Expire, FailureStep;
    FailureKeepsAttempts(cfg, p, key, now);
    FailureKeepsAttempts(Unpruned(cfg), u, key, now);
    var p', u' := FailureStep(cfg, p, key, now), FailureStep(Unpruned(cfg), u, key, now);
    forall k: string ensures Expire(Queue(p', k), now - cfg.window) == Expire(Queue(u', k), now - cfg.window) {
      assert Expire(Queue(p, k), now - cfg.window) == Expire(Queue(u, k), now - cfg.window);
    }
    var p'', u'' := SuccessStep(p, key), SuccessStep(u, key);
    forall k: string ensures Expire(Queue(p'', k), now - cfg.window) == Expire(Queue(u'', k), now - cfg.window) {
      assert Expire(Queue(p, k), now - cfg.window) == Expire(Queue(u, k), now - cfg.window);
    }
  }

  /** Queues are sorted in runs of logins too. */
  lemma LoginQueuesSorted(cfg: Config, ls: Logins, now: real)
    requires LoginRuns.Timed(ls) && LoginRuns.DoneBy(ls, now)
    ensures forall key :: Sorted(Queue(LoginRuns.After(cfg, ls), key))
  {
    hide After, Queue, Sorted;
    LoginOpsAgree(cfg, ls);
    LoginOpsTimed(cfg, ls, now);
    QueuesSorted(cfg, LoginOps(cfg, ls), now);
  }

  lemma {:induction false} RunKeepsWindow(cfg: Config, ls: Logins, now: real)
    requires NeverBites(cfg) && LoginRuns.Timed(ls) && LoginRuns.DoneBy(ls, now)
    ensures SameWindow(cfg, LoginRuns.After(cfg, ls), LoginRuns.After(Unpruned(cfg), ls), now)
  {
    hide HitStep, FailureStep, SuccessStep, NeverBites, SameWindow, Sorted, Queue;
    if ls == [] {
      NothingSameWindow(cfg, now);
    } else {
      var front, l := ls[..|ls| - 1], ls[|ls| - 1];
      var p, u := LoginRuns.After(cfg, front), LoginRuns.After(Unpruned(cfg), front);
      RunKeepsWindow(cfg, front, l.hitAt);
      RunIsUnbitten(cfg, front, l.hitAt);
      assert NeverBites(Unpruned(cfg)) by { UnprunedBites(cfg); }
      RunIsUnbitten(Unpruned(cfg), front, l.hitAt);
      LoginQueuesSorted(cfg, front, l.hitAt);
      LoginQueuesSorted(Unpruned(cfg), front, l.hitAt);
      HitKeepsWindow(cfg, p, u, l.key, l.hitAt);
      var p', u' := HitStep(cfg, p, l.key, l.hitAt).0, HitStep(Unpruned(cfg), u, l.key, l.hitAt).0;
      SameWindowLater(cfg, p', u', l.hitAt, l.failAt);
      EndKeepsWindow(cfg, p', u', l.key, l.failAt);
      SameWindowLater(cfg, LoginRuns.After(cfg, ls), LoginRuns.After(Unpruned(cfg), ls), l.failAt, now);
    }
  }

  lemma NothingSameWindow(cfg: Config, now: real)
    ensures SameWindow(cfg, EMPTY, EMPTY, now)
  {
  }

  lemma UnprunedBites(cfg: Config)
    ensures NeverBites(Unpruned(cfg)) <==> NeverBites(cfg)
  {
  }

  lemma NeverBitesIsInvisible(cfg: Config)
    requires NeverBites(cfg)
    ensures Invisible(cfg)
  {
    hide HitStep, NeverBites, SameWindow, Sorted, Queue;
    forall ls: Logins, key: string, now: real | LoginRuns.Timed(ls) && LoginRuns.DoneBy(ls, now)
      ensures HitStep(cfg, LoginRuns.After(cfg, ls), key, now).1
           == HitStep(Unpruned(cfg), LoginRuns.After(Unpruned(cfg), ls), key, now).1
    {
      RunKeepsWindow(cfg, ls, now);
      RunIsUnbitten(cfg, ls, now);
      UnprunedBites(cfg);
      RunIsUnbitten(Unpruned(cfg), ls, now);
      LoginQueuesSorted(cfg, ls, now);
      LoginQueuesSorted(Unpruned(cfg), ls, now);
      HitKeepsWindow(cfg, LoginRuns.After(cfg, ls), LoginRuns.After(Unpruned(cfg), ls), key, now);
    }
  }

  // ---- a crowd of wrong passwords ----

  function Name(i: nat): string {
    seq(i + 1, _ => 'x')
  }

  function Wrong(key: string, at: real): LoginRuns.Login {
    LoginRuns.Login(key, at, at, false)
  }

  /** When an attempt made at time 0 has left the window. */
  function Tick(cfg: Config): real {
    if cfg.window <= 0.0 then 0.0 else cfg.window
  }

  /**
    * Wrong passwords, all failing at the same time: several from one address, whose first attempt has left the window
    * by then, and one from each of n others.
    */
  function Crowd(cfg: Config, strikes: nat, n: nat): Logins {
    if n > 0 then Crowd(cfg, strikes, n - 1) + [Wrong(Name(n), Tick(cfg))]
    else if strikes > 1 then Crowd(cfg, strikes - 1, 0) + [Wrong(Name(0), Tick(cfg))]
    else [LoginRuns.Login(Name(0), 0.0, Tick(cfg), false)]
  }

  /** What the limiter remembers of it. */
  ghost predicate CrowdState(cfg: Config, s: Limiter, strikes: nat, n: nat) {
    && s.lockouts == map[] && s.attempts.Keys == s.streaks.Keys && |s.streaks| == n + 1
    && (forall k :: k in s.streaks ==> |k| <= n + 1 && s.streaks[k].last == Tick(cfg))
    && Name(0) in s.streaks && s.streaks[Name(0)].count == strikes
    && |Expire(s.attempts[Name(0)], Tick(cfg) - cfg.window)| < strikes
  }

  lemma AfterOneLogin(cfg: Config, ls: Logins, l: LoginRuns.Login)
    ensures LoginRuns.After(cfg, ls + [l]) == LoginRuns.LoginStep(cfg, LoginRuns.After(cfg, ls), l)
  {
    hide LoginRuns.LoginStep;
    assert (ls + [l])[..|ls|] == ls;
  }

  /** An attempt that sets off no pruning, on a key with room in its window. */
  lemma RoomyHit(cfg: Config, s: Limiter, key: string, now: real)
    requires s.lockouts == map[] && |Expire(Queue(s, key), now - cfg.window)| < cfg.maxAttempts
    requires key in s.attempts || (|s.attempts| <= PRUNE_ABOVE && |s.streaks| <= PRUNE_ABOVE)
    ensures HitStep(cfg, s, key, now)
         == (s.(attempts := s.attempts[key := Expire(Queue(s, key), now - cfg.window) + [now]]), None)
  {
    hide Prune, Ceil;
    assert s.lockouts - {key} == s.lockouts;
    assert [] + [now] == [now];
  }

  /** A failure that sets off neither pruning nor a lockout. */
  lemma MildFailure(cfg: Config, s: Limiter, key: string, before: nat, now: real)
    requires |s.streaks| <= PRUNE_ABOVE && 0.0 <= cfg.streakReset && before + 1 < cfg.maxAttempts
    requires if key in s.streaks then s.streaks[key] == Streak(before, now) else before == 0
    ensures FailureStep(cfg, s, key, now) == s.(streaks := s.streaks[key := Streak(before + 1, now)])
  {
    hide PruneStreaks, Penalty;
  }

  lemma MildLogin(cfg: Config, s: Limiter, key: string, before: nat, at: real, now: real)
    requires s.lockouts == map[] && |Expire(Queue(s, key), at - cfg.window)| < cfg.maxAttempts
    requires |s.attempts| <= PRUNE_ABOVE && |s.streaks| <= PRUNE_ABOVE
    requires 0.0 <= cfg.streakReset && before + 1 < cfg.maxAttempts
    requires if key in s.streaks then s.streaks[key] == Streak(before, now) else before == 0
    ensures LoginRuns.LoginStep(cfg, s, LoginRuns.Login(key, at, now, false))
         == Limiter(
              s.attempts[key := Expire(Queue(s, key), at - cfg.window) + [at]],
              s.streaks[key := Streak(before + 1, now)], map[])
  {
    hide HitStep, FailureStep, Queue, Expire;
    RoomyHit(cfg, s, key, at);
    var live := Expire(Queue(s, key), at - cfg.window);
    MildFailure(cfg, s.(attempts := s.attempts[key := live + [at]]), key, before, now);
  }

  lemma {:induction false} CrowdIsRemembered(cfg: Config, strikes: nat, n: nat)
    requires 0.0 <= cfg.streakReset && 1 <= strikes < cfg.maxAttempts && n <= PRUNE_ABOVE
    ensures CrowdState(cfg, LoginRuns.After(cfg, Crowd(cfg, strikes, n)), strikes, n)
  {
    hide LoginRuns.LoginStep, LoginRuns.After, Name, CrowdState, Tick;
    if n > 0 {
      CrowdIsRemembered(cfg, strikes, n - 1);
      AfterOneLogin(cfg, Crowd(cfg, strikes, n - 1), Wrong(Name(n), Tick(cfg)));
      StrangerStep(cfg, LoginRuns.After(cfg, Crowd(cfg, strikes, n - 1)), strikes, n - 1);
    } else if strikes > 1 {
      CrowdIsRemembered(cfg, strikes - 1, 0);
      AfterOneLogin(cfg, Crowd(cfg, strikes - 1, 0), Wrong(Name(0), Tick(cfg)));
      StrikeStep(cfg, LoginRuns.After(cfg, Crowd(cfg, strikes - 1, 0)), strikes - 1);
    } else {
      FirstStrike(cfg);
    }
  }

  lemma ExpireNone(cutoff: real)
    ensures Expire([], cutoff) == []
  {
  }

  lemma ExpireOne(at: real, cutoff: real)
    ensures at <= cutoff ==> Expire([at], cutoff) == []
  {
  }

  lemma OneStruck(cfg: Config, name: string)
    requires name == Name(0) && |name| == 1
    ensures CrowdState(cfg, Limiter(map[name := [0.0]], map[name := Streak(1, Tick(cfg))], map[]), 1, 0)
  {
    hide Name, Expire;
    ExpireOne(0.0, Tick(cfg) - cfg.window);
    var s := Limiter(map[name := [0.0]], map[name := Streak(1, Tick(cfg))], map[]);
    assert s.attempts.Keys == {name} && s.streaks.Keys == {name} && |s.streaks| == |s.streaks.Keys|;
  }

  lemma FirstStrike(cfg: Config)
    requires 0.0 <= cfg.streakReset && 2 <= cfg.maxAttempts
    ensures CrowdState(cfg, LoginRuns.After(cfg, [LoginRuns.Login(Name(0), 0.0, Tick(cfg), false)]), 1, 0)
  {
    assert |Name(0)| == 1;
    hide LoginRuns.LoginStep, Name, Expire;
    var l := LoginRuns.Login(Name(0), 0.0, Tick(cfg), false);
    assert [l][..0] == [];
    MildLogin(cfg, EMPTY, Name(0), 0, 0.0, Tick(cfg));
    ExpireNone(0.0 - cfg.window);
    OneStruck(cfg, Name(0));
  }

  /** The state after one more wrong password, given what it did to the three dictionaries. */
  lemma CrowdGrows(
    cfg: Config, s: Limiter, strikes: nat, n: nat, key: string, q: seq<real>, count: nat, strikes': nat, n': nat)
    requires CrowdState(cfg, s, strikes, n) && |key| <= n' + 1 && n <= n'
    requires n' == (if key in s.streaks then n else n + 1)
    requires if key == Name(0) then count == strikes' && |Expire(q, Tick(cfg) - cfg.window)| < strikes'
             else strikes' == strikes
    ensures var s' := Limiter(s.attempts[key := q], s.streaks[key := Streak(count, Tick(cfg))], map[]);
            CrowdState(cfg, s', strikes', n')
  {
    hide Name, Tick, Expire;
    var streaks := s.streaks[key := Streak(count, Tick(cfg))];
    assert streaks.Keys == s.streaks.Keys + {key} && s.attempts[key := q].Keys == s.attempts.Keys + {key};
    assert |streaks| == |streaks.Keys| && |s.streaks| == |s.streaks.Keys|;
  }

  lemma SizeOfKeys(s: Limiter)
    requires s.attempts.Keys == s.streaks.Keys
    ensures |s.attempts| == |s.streaks|
  {
    assert |s.attempts| == |s.attempts.Keys| && |s.streaks| == |s.streaks.Keys|;
  }

  lemma NameIs(i: nat)
    ensures |Name(i)| == i + 1
  {
  }

  lemma StrikeFits(cfg: Config, s: Limiter, strikes: nat)
    requires CrowdState(cfg, s, strikes, 0)
    ensures Name(0) in s.attempts && Name(0) in s.streaks && s.streaks[Name(0)] == Streak(strikes, Tick(cfg))
    ensures |s.attempts| == |s.streaks| == 1 && s.lockouts == map[]
    ensures |Expire(Queue(s, Name(0)), Tick(cfg) - cfg.window)| < strikes
  {
    hide Name, Expire, Tick;
    SizeOfKeys(s);
  }

  lemma StrikeStep(cfg: Config, s: Limiter, strikes: nat)
    requires 0.0 <= cfg.streakReset && CrowdState(cfg, s, strikes, 0) && strikes + 1 < cfg.maxAttempts
    ensures CrowdState(cfg, LoginRuns.LoginStep(cfg, s, Wrong(Name(0), Tick(cfg))), strikes + 1, 0)
  {
    hide LoginRuns.LoginStep, Name, Tick, Expire, Queue, CrowdState;
    StrikeFits(cfg, s, strikes);
    NameIs(0);
    var now := Tick(cfg);
    MildLogin(cfg, s, Name(0), strikes, now, now);
    var q := Expire(Queue(s, Name(0)), now - cfg.window) + [now];
    ExpireShape(q, now - cfg.window);
    CrowdGrows(cfg, s, strikes, 0, Name(0), q, strikes + 1, strikes + 1, 0);
  }

  lemma StrangerIsNew(cfg: Config, s: Limiter, strikes: nat, n: nat)
    requires CrowdState(cfg, s, strikes, n)
    ensures Name(n + 1) !in s.streaks && Name(n + 1) != Name(0)
    ensures |s.attempts| == |s.streaks| == n + 1 && s.lockouts == map[]
    ensures Queue(s, Name(n + 1)) == []
  {
    NameIs(0);
    NameIs(n + 1);
    hide Name, Expire, Tick;
    SizeOfKeys(s);
  }

  lemma StrangerStep(cfg: Config, s: Limiter, strikes: nat, n: nat)
    requires 0.0 <= cfg.streakReset && 2 <= cfg.maxAttempts && CrowdState(cfg, s, strikes, n) && n < PRUNE_ABOVE
    ensures CrowdState(cfg, LoginRuns.LoginStep(cfg, s, Wrong(Name(n + 1), Tick(cfg))), strikes, n + 1)
  {
    hide LoginRuns.LoginStep, Name, Tick, Expire, Queue, CrowdState;
    StrangerIsNew(cfg, s, strikes, n);
    NameIs(n + 1);
    var now, key := Tick(cfg), Name(n + 1);
    ExpireShape([], now - cfg.window);
    MildLogin(cfg, s, key, 0, now, now);
    CrowdGrows(cfg, s, strikes, n, key, Expire([], now - cfg.window) + [now], 1, strikes, n + 1);
  }

  // ---- and one more, as the streak is about to decay ----

  /** The attempt is let through, and leaves room for another. */
  lemma LateHit(cfg: Config, s: Limiter, n: nat, at: real)
    requires cfg.maxAttempts >= 2 && CrowdState(cfg, s, cfg.maxAttempts - 1, n) && Tick(cfg) <= at
    ensures var q := Expire(Queue(s, Name(0)), at - cfg.window) + [at];
            |q| < cfg.maxAttempts && HitStep(cfg, s, Name(0), at) == (s.(attempts := s.attempts[Name(0) := q]), None)
  {
    hide Name, Expire, Tick, HitStep;
    var q := Queue(s, Name(0));
    ExpireLater(q, Tick(cfg) - cfg.window, at - cfg.window);
    ExpireShape(Expire(q, Tick(cfg) - cfg.window), at - cfg.window);
    RoomyHit(cfg, s, Name(0), at);
  }

  lemma PrunedAtFailure(cfg: Config, s: Limiter, key: string, now: real)
    requires cfg.pruning && |s.streaks| > PRUNE_ABOVE && cfg.maxAttempts >= 2
    requires forall k :: k in s.streaks ==> s.streaks[k].last <= now - cfg.streakReset
    ensures FailureStep(cfg, s, key, now).lockouts == s.lockouts
    ensures FailureStep(cfg, s, key, now).attempts == s.attempts
  {
    hide Penalty;
    assert PruneStreaks(s.streaks, now - cfg.streakReset) == map[];
  }

  lemma RoomForAnother(cfg: Config, s: Limiter, key: string, now: real)
    requires s.lockouts == map[] && key in s.attempts && |s.attempts[key]| < cfg.maxAttempts
    ensures HitStep(cfg, s, key, now).1 == None
  {
    hide Expire, HitStep;
    ExpireShape(s.attempts[key], now - cfg.window);
    RoomyHit(cfg, s, key, now);
  }

  /** The limiter has pruned the streak and starts a new one... */
  lemma LateFailurePruned(cfg: Config, s: Limiter, q: seq<real>)
    requires cfg.pruning && cfg.maxAttempts >= 2 && CrowdState(cfg, s, cfg.maxAttempts - 1, PRUNE_ABOVE)
    requires |q| < cfg.maxAttempts
    ensures var s', at := s.(attempts := s.attempts[Name(0) := q]), Tick(cfg) + cfg.streakReset;
            HitStep(cfg, FailureStep(cfg, s', Name(0), at), Name(0), at).1 == None
  {
    hide Name, HitStep, FailureStep, Expire, Tick;
    var s', at := s.(attempts := s.attempts[Name(0) := q]), Tick(cfg) + cfg.streakReset;
    PrunedAtFailure(cfg, s', Name(0), at);
    RoomForAnother(cfg, FailureStep(cfg, s', Name(0), at), Name(0), at);
  }

  /** ...and the limiter that forgets nothing counts it to the end and locks the address out. */
  lemma LateFailureUnpruned(cfg: Config, s: Limiter, q: seq<real>, n: nat)
    requires cfg.maxAttempts >= 2 && !cfg.pruning && FirstPenalty(cfg) > 0.0
    requires CrowdState(cfg, s, cfg.maxAttempts - 1, n)
    ensures var s', at := s.(attempts := s.attempts[Name(0) := q]), Tick(cfg) + cfg.streakReset;
            HitStep(cfg, FailureStep(cfg, s', Name(0), at), Name(0), at).1.Some?
  {
    hide Name, Penalty, Ceil, Prune, WindowStep, Expire, Tick;
    PenaltyRange(cfg, cfg.maxAttempts);
  }

  lemma {:induction false} CrowdTimed(cfg: Config, strikes: nat, n: nat)
    ensures LoginRuns.Timed(Crowd(cfg, strikes, n)) && LoginRuns.DoneBy(Crowd(cfg, strikes, n), Tick(cfg))
  {
    hide Name;
    if n > 0 {
      CrowdTimed(cfg, strikes, n - 1);
    } else if strikes > 1 {
      CrowdTimed(cfg, strikes - 1, 0);
    }
  }

  lemma CrowdShows(cfg: Config)
    requires cfg.maxAttempts >= 2 && 0.0 <= cfg.streakReset && cfg.pruning && FirstPenalty(cfg) > 0.0
    ensures !Invisible(cfg)
  {
    hide Crowd, LoginRuns.After, HitStep, FailureStep, CrowdState, Name, Expire, Tick;
    var m, at, whole := cfg.maxAttempts, Tick(cfg) + cfg.streakReset, Unpruned(cfg);
    var crowd := Crowd(cfg, m - 1, PRUNE_ABOVE);
    var l := Wrong(Name(0), at);
    var ls := crowd + [l];
    SameCrowd(cfg, m - 1, PRUNE_ABOVE);
    CrowdTimed(cfg, m - 1, PRUNE_ABOVE);
    CrowdIsRemembered(cfg, m - 1, PRUNE_ABOVE);
    CrowdIsRemembered(whole, m - 1, PRUNE_ABOVE);
    AfterOneLogin(cfg, crowd, l);
    AfterOneLogin(whole, crowd, l);
    var p, u := LoginRuns.After(cfg, crowd), LoginRuns.After(whole, crowd);
    LateHit(cfg, p, PRUNE_ABOVE, at);
    LateHit(whole, u, PRUNE_ABOVE, at);
    LateFailurePruned(cfg, p, Expire(Queue(p, Name(0)), at - cfg.window) + [at]);
    LateFailureUnpruned(whole, u, Expire(Queue(u, Name(0)), at - cfg.window) + [at], PRUNE_ABOVE);
    assert LoginRuns.Timed(ls) && LoginRuns.DoneBy(ls, at);
    assert HitStep(cfg, LoginRuns.After(cfg, ls), Name(0), at).1 == None;
    assert HitStep(whole, LoginRuns.After(whole, ls), Name(0), at).1.Some?;
  }

  lemma {:induction false} SameCrowd(cfg: Config, strikes: nat, n: nat)
    ensures Crowd(Unpruned(cfg), strikes, n) == Crowd(cfg, strikes, n) && Tick(Unpruned(cfg)) == Tick(cfg)
  {
    hide Name;
    if n > 0 {
      SameCrowd(cfg, strikes, n - 1);
    } else if strikes > 1 {
      SameCrowd(cfg, strikes - 1, 0);
    }
  }

  /**
    * The boundary is real: where more than one attempt is allowed, pruning shows in some run of logins exactly when
    * lockouts are felt at all.
    */
  lemma InvisibleExactly(cfg: Config)
    requires cfg.pruning && cfg.maxAttempts >= 2
    ensures Invisible(cfg) <==> NeverBites(cfg)
  {
    hide Invisible;
    if NeverBites(cfg) {
      NeverBitesIsInvisible(cfg);
    } else {
      CrowdShows(cfg);
    }
  }

  /** The parameters of the proxy are among those for which it shows. */
  lemma DefaultPruningShows()
    ensures !Invisible(DEFAULTS)
  {
    hide Invisible;
    InvisibleExactly(DEFAULTS);
  }
}

/** A rejected attempt costs nothing: no later event of any run can tell whether it was made. */
module LimiterRejections {
  import opened Wrappers
  import opened RateLimiter
  import opened LimiterRuns
  import LimiterPruning
  import opened LimiterRetry

  /** a is b without some entries at its front that are no later than the cutoff. */
  predicate Trims(a: seq<real>, b: seq<real>, cutoff: real) {
    && |a| <= |b| && a == b[|b| - |a|..] && (a == [] ==> b == [])
    && forall i :: 0 <= i < |b| - |a| ==> b[i] <= cutoff
  }

  /** At this time, and from then on, the two limiters behave alike. */
  ghost predicate Twins(cfg: Config, p: Limiter, u: Limiter, now: real) {
    && p.streaks == u.streaks && p.attempts.Keys == u.attempts.Keys
    && (forall k :: k in p.attempts ==> Trims(p.attempts[k], u.attempts[k], now - cfg.window))
    && (forall k: string :: LimiterPruning.ActiveUntil(p, k, now) == LimiterPruning.ActiveUntil(u, k, now))
  }

  lemma {:induction false} TrimsExpire(a: seq<real>, b: seq<real>, cutoff: real)
    requires Trims(a, b, cutoff)
    ensures Expire(a, cutoff) == Expire(b, cutoff)
    ensures IsStaleQueue(a, cutoff) == IsStaleQueue(b, cutoff)
  {
    if |a| < |b| {
      assert b[0] <= cutoff;
      assert a == b[1..][|b[1..]| - |a|..];
      forall i | 0 <= i < |b[1..]| - |a| ensures b[1..][i] <= cutoff {
        assert b[1..][i] == b[i + 1];
      }
      TrimsExpire(a, b[1..], cutoff);
    } else {
      assert a == b;
    }
  }

  lemma TwinsLater(cfg: Config, p: Limiter, u: Limiter, now: real, later: real)
    requires Twins(cfg, p, u, now) && now <= later
    ensures Twins(cfg, p, u, later)
  {
    forall k: string ensures LimiterPruning.ActiveUntil(p, k, later) == LimiterPruning.ActiveUntil(u, k, later) {
      assert LimiterPruning.ActiveUntil(p, k, now) == LimiterPruning.ActiveUntil(u, k, now);
    }
  }

  lemma TwinsAnswer(cfg: Config, p: Limiter, u: Limiter, key: string, now: real)
    requires Twins(cfg, p, u, now)
    ensures HitStep(cfg, p, key, now).1 == HitStep(cfg, u, key, now).1
  {
    hide HitStep, Expire, Ceil;
    HitAnswer(cfg, p, key, now);
    HitAnswer(cfg, u, key, now);
    assert LimiterPruning.ActiveUntil(p, key, now) == LimiterPruning.ActiveUntil(u, key, now);
    if key in p.attempts {
      TrimsExpire(p.attempts[key], u.attempts[key], now - cfg.window);
    }
  }

  lemma PruneTwins(cfg: Config, p: Limiter, u: Limiter, now: real)
    requires Twins(cfg, p, u, now)
    ensures Twins(cfg, Prune(cfg, p, now), Prune(cfg, u, now), now)
  {
    hide Expire, Trims, IsStaleQueue;
    forall k | k in p.attempts
      ensures IsStaleQueue(p.attempts[k], now - cfg.window) == IsStaleQueue(u.attempts[k], now - cfg.window)
    {
      TrimsExpire(p.attempts[k], u.attempts[k], now - cfg.window);
    }
    forall k: string
      ensures LimiterPruning.ActiveUntil(Prune(cfg, p, now), k, now)
           == LimiterPruning.ActiveUntil(Prune(cfg, u, now), k, now)
    {
      assert LimiterPruning.ActiveUntil(p, k, now) == LimiterPruning.ActiveUntil(u, k, now);
    }
  }

  lemma SameSizes(p: Limiter, u: Limiter)
    requires p.attempts.Keys == u.attempts.Keys
    ensures |p.attempts| == |u.attempts|
  {
    assert |p.attempts| == |p.attempts.Keys| && |u.attempts| == |u.attempts.Keys|;
  }

  lemma TrimsItself(q: seq<real>, cutoff: real)
    ensures Trims(q, q, cutoff)
  {
  }

  lemma TwinsWithQueue(cfg: Config, p: Limiter, u: Limiter, key: string, q: seq<real>, now: real)
    requires Twins(cfg, p, u, now)
    ensures Twins(cfg, p.(attempts := p.attempts[key := q]), u.(attempts := u.attempts[key := q]), now)
  {
    hide Trims;
    TrimsItself(q, now - cfg.window);
    var p', u' := p.(attempts := p.attempts[key := q]), u.(attempts := u.attempts[key := q]);
    forall k: string ensures LimiterPruning.ActiveUntil(p', k, now) == LimiterPruning.ActiveUntil(u', k, now) {
      assert LimiterPruning.ActiveUntil(p, k, now) == LimiterPruning.ActiveUntil(u, k, now);
    }
  }

  lemma TwinsUnlocked(cfg: Config, p: Limiter, u: Limiter, key: string, now: real)
    requires Twins(cfg, p, u, now) && !LockedOut(p, key, now)
    ensures Twins(cfg, p.(lockouts := p.lockouts - {key}), u.(lockouts := u.lockouts - {key}), now)
  {
    hide Trims;
    var p', u' := p.(lockouts := p.lockouts - {key}), u.(lockouts := u.lockouts - {key});
    forall k: string ensures LimiterPruning.ActiveUntil(p', k, now) == LimiterPruning.ActiveUntil(u', k, now) {
      assert LimiterPruning.ActiveUntil(p, k, now) == LimiterPruning.ActiveUntil(u, k, now);
    }
  }

  lemma WindowKeepsTwins(cfg: Config, p: Limiter, u: Limiter, key: string, now: real)
    requires Twins(cfg, p, u, now)
    ensures Twins(cfg, WindowStep(cfg, p, key, now).0, WindowStep(cfg, u, key, now).0, now)
  {
    hide Twins, Trims, Expire, Prune, Ceil;
    TwinsMean(cfg, p, u, key, now);
    if key in p.attempts {
      var q := Expire(p.attempts[key], now - cfg.window);
      TwinsWithQueue(cfg, p, u, key, q, now);
      TwinsWithQueue(cfg, p, u, key, q + [now], now);
    } else {
      SameSizes(p, u);
      PruneTwins(cfg, p, u, now);
      TwinsWithQueue(cfg, p, u, key, [now], now);
      TwinsWithQueue(cfg, Prune(cfg, p, now), Prune(cfg, u, now), key, [now], now);
    }
  }

  lemma TwinsMean(cfg: Config, p: Limiter, u: Limiter, key: string, now: real)
    requires Twins(cfg, p, u, now)
    ensures p.streaks == u.streaks && p.attempts.Keys == u.attempts.Keys
    ensures LockedOut(p, key, now) == LockedOut(u, key, now)
    ensures key in p.attempts ==>
      Expire(p.attempts[key], now - cfg.window) == Expire(u.attempts[key], now - cfg.window)
  {
    hide Trims, Expire;
    assert LimiterPruning.ActiveUntil(p, key, now) == LimiterPruning.ActiveUntil(u, key, now);
    if key in p.attempts {
      TrimsExpire(p.attempts[key], u.attempts[key], now - cfg.window);
    }
  }

  lemma HitKeepsTwins(cfg: Config, p: Limiter, u: Limiter, key: string, now: real)
    requires Twins(cfg, p, u, now)
    ensures Twins(cfg, HitStep(cfg, p, key, now).0, HitStep(cfg, u, key, now).0, now)
  {
    hide Twins, WindowStep, Ceil;
    TwinsMean(cfg, p, u, key, now);
    if !LockedOut(p, key, now) {
      TwinsUnlocked(cfg, p, u, key, now);
      WindowKeepsTwins(cfg, p.(lockouts := p.lockouts - {key}), u.(lockouts := u.lockouts - {key}), key, now);
    }
  }

  lemma FailureKeepsTwins(cfg: Config, p: Limiter, u: Limiter, key: string, now: real)
    requires Twins(cfg, p, u, now)
    ensures Twins(cfg, FailureStep(cfg, p, key, now), FailureStep(cfg, u, key, now), now)
  {
    hide Trims, Penalty, NextCount, StreaksAtFailure;
    var p', u' := FailureStep(cfg, p, key, now), FailureStep(cfg, u, key, now);
    SameSizes(p, u);
    assert StreaksAtFailure(cfg, p, now) == StreaksAtFailure(cfg, u, now) by { SameStreaksAtFailure(cfg, p, u, now); }
    forall k: string ensures LimiterPruning.ActiveUntil(p', k, now) == LimiterPruning.ActiveUntil(u', k, now) {
      assert LimiterPruning.ActiveUntil(p, k, now) == LimiterPruning.ActiveUntil(u, k, now);
    }
  }

  lemma SameStreaksAtFailure(cfg: Config, p: Limiter, u: Limiter, now: real)
    requires p.streaks == u.streaks
    ensures StreaksAtFailure(cfg, p, now) == StreaksAtFailure(cfg, u, now)
  {
  }

  lemma SuccessKeepsTwins(cfg: Config, p: Limiter, u: Limiter, key: string, now: real)
    requires Twins(cfg, p, u, now)
    ensures Twins(cfg, SuccessStep(p, key), SuccessStep(u, key), now)
  {
    hide Trims;
    var p', u' := SuccessStep(p, key), SuccessStep(u, key);
    forall k: string ensures LimiterPruning.ActiveUntil(p', k, now) == LimiterPruning.ActiveUntil(u', k, now) {
      assert LimiterPruning.ActiveUntil(p, k, now) == LimiterPruning.ActiveUntil(u, k, now);
    }
  }

  /** Once alike, alike for the rest of every run. */
  lemma {:induction false} TwinsForever(
    cfg: Config, ops: seq<Op>, others: seq<Op>, more: seq<Op>, now: real, later: real)
    requires Twins(cfg, After(cfg, ops), After(cfg, others), now)
    requires Timed(more) && StartsBy(more, later) && now <= later && forall i :: 0 <= i < |more| ==> now <= more[i].now
    ensures Twins(cfg, After(cfg, ops + more), After(cfg, others + more), later)
    decreases |more|
  {
    hide Twins, HitStep, FailureStep, SuccessStep, After;
    if more == [] {
      assert ops + more == ops && others + more == others;
      TwinsLater(cfg, After(cfg, ops), After(cfg, others), now, later);
    } else {
      var front, op := more[..|more| - 1], more[|more| - 1];
      TwinsForever(cfg, ops, others, front, now, op.now);
      var p, u := After(cfg, ops + front), After(cfg, others + front);
      AfterOne(cfg, ops + front, op);
      AfterOne(cfg, others + front, op);
      assert ops + more == ops + front + [op] && others + more == others + front + [op];
      match op {
        case Hit(key, t) => HitKeepsTwins(cfg, p, u, key, t);
        case Failure(key, t) => FailureKeepsTwins(cfg, p, u, key, t);
        case Success(key, t) => SuccessKeepsTwins(cfg, p, u, key, t);
      }
      TwinsLater(cfg, After(cfg, ops + more), After(cfg, others + more), op.now, later);
    }
  }

  lemma RejectionKeepsTwins(cfg: Config, s: Limiter, key: string, now: real)
    requires HitStep(cfg, s, key, now).1.Some?
    ensures Twins(cfg, HitStep(cfg, s, key, now).0, s, now)
  {
    hide Expire, Prune, Ceil, Twins, Trims;
    OverIsTwin(cfg, s, now);
    if key in s.attempts && !(key in s.lockouts && s.lockouts[key] > now) {
      ExpireTrims(s.attempts[key], now - cfg.window);
      TrimmedIsTwin(cfg, s, key, now);
    }
  }

  lemma ExpireTrims(q: seq<real>, cutoff: real)
    ensures Expire(q, cutoff) != [] ==> Trims(Expire(q, cutoff), q, cutoff)
  {
    hide Expire;
    ExpireShape(q, cutoff);
  }

  /** Dropping expired attempts of one key, and a lockout that is over, makes a twin. */
  lemma TrimmedIsTwin(cfg: Config, s: Limiter, key: string, now: real)
    requires key in s.attempts && !(key in s.lockouts && s.lockouts[key] > now)
    ensures var q := Expire(s.attempts[key], now - cfg.window);
            var s' := Limiter(s.attempts[key := q], s.streaks, s.lockouts - {key});
            Trims(q, s.attempts[key], now - cfg.window) ==>
              Twins(cfg, s', s, now)
  {
    hide Expire, Trims, LimiterPruning.ActiveUntil;
    var q := Expire(s.attempts[key], now - cfg.window);
    var s' := Limiter(s.attempts[key := q], s.streaks, s.lockouts - {key});
    assert s'.attempts.Keys == s.attempts.Keys;
    forall k: string
      ensures LimiterPruning.ActiveUntil(s', k, now) == LimiterPruning.ActiveUntil(s, k, now)
    {
      OverIsInactive(s, s', key, k, now);
    }
    forall k | k in s'.attempts && k != key ensures Trims(s'.attempts[k], s.attempts[k], now - cfg.window) {
      TrimsItself(s.attempts[k], now - cfg.window);
    }
  }

  lemma OverIsInactive(s: Limiter, s': Limiter, key: string, k: string, now: real)
    requires s'.lockouts == s.lockouts - {key} && !(key in s.lockouts && s.lockouts[key] > now)
    ensures LimiterPruning.ActiveUntil(s', k, now) == LimiterPruning.ActiveUntil(s, k, now)
  {
  }

  lemma OverIsTwin(cfg: Config, s: Limiter, now: real)
    ensures Twins(cfg, s, s, now)
  {
  }

  /**
    * A rejected attempt costs nothing: whatever happens afterwards, on this key or on others, every later attempt is
    * answered as if the rejected one had not been made.
    */
  lemma RejectedHitsCostNothing(
    cfg: Config, ops: seq<Op>, key: string, now: real, more: seq<Op>, later: real, other: string)
    requires Answer(cfg, ops, key, now).Some?
    requires Timed(ops + [Hit(key, now)] + more) && StartsBy(ops + [Hit(key, now)] + more, later)
    ensures Answer(cfg, ops + [Hit(key, now)] + more, other, later) == Answer(cfg, ops + more, other, later)
  {
    hide Twins, HitStep, After;
    var hit := ops + [Hit(key, now)];
    AfterOne(cfg, ops, Hit(key, now));
    RejectionKeepsTwins(cfg, After(cfg, ops), key, now);
    var all := hit + more;
    assert all[|ops|] == Hit(key, now);
    forall i | 0 <= i < |more| ensures now <= more[i].now <= later {
      assert all[|hit| + i] == more[i];
    }
    forall i, j | 0 <= i < j < |more| ensures more[i].now <= more[j].now {
      assert all[|hit| + i] == more[i] && all[|hit| + j] == more[j];
    }
    TwinsForever(cfg, hit, ops, more, now, later);
    TwinsAnswer(cfg, After(cfg, hit + more), After(cfg, ops + more), other, later);
  }
}

/**
  * The login endpoint driving the limiter (src/mcp_proxy/api/auth.py): a failure is only ever
  * recorded after an attempt that the limiter accepted.
  */
module LoginRuns {
  import opened Wrappers
  import opened RateLimiter

  /** One request: the clock at `hit`, the clock at `record_failure`, and whether the password is right. */
  datatype Login = Login(key: string, hitAt: real, failAt: real, correct: bool)

  datatype Reply = TooMany(retryAfter: int) | InvalidPassword | Welcome

  function LoginReply(cfg: Config, s: Limiter, l: Login): Reply {
    var retry := HitStep(cfg, s, l.key, l.hitAt).1;
    if retry.Some? then TooMany(retry.value) else if l.correct then Welcome else InvalidPassword
  }

  function LoginStep(cfg: Config, s: Limiter, l: Login): Limiter {
    var (s', retry) := HitStep(cfg, s, l.key, l.hitAt);
    if retry.Some? then s'
    else if l.correct then SuccessStep(s', l.key)
    else FailureStep(cfg, s', l.key, l.failAt)
  }

  /** `auth_login` with authentication on; `admin` is the session's admin flag. */
  method AuthLogin(limiter: LoginRateLimiter, l: Login, admin: bool) returns (reply: Reply, admin': bool)
    requires limiter.cfg.pruning
    modifies limiter
    ensures reply == LoginReply(limiter.cfg, old(limiter.State()), l)
    ensures limiter.State() == LoginStep(limiter.cfg, old(limiter.State()), l)
    ensures admin' == (admin || reply == Welcome)
    ensures var (tried, retry) := HitStep(limiter.cfg, old(limiter.State()), l.key, l.hitAt);
            if retry.Some? then reply == TooMany(retry.value) && limiter.State() == tried
            else if l.correct then reply == Welcome && limiter.State() == SuccessStep(tried, l.key)
            else reply == InvalidPassword && limiter.State() == FailureStep(limiter.cfg, tried, l.key, l.failAt)
  {
    hide HitStep, FailureStep;
    var retry := limiter.Hit(l.key, l.hitAt);
    if retry.Some? { return TooMany(retry.value), admin; }
    if !l.correct {
      limiter.RecordFailure(l.key, l.failAt);
      return InvalidPassword, admin;
    }
    limiter.RecordSuccess(l.key);
    return Welcome, true;
  }

  function After(cfg: Config, ls: seq<Login>): Limiter {
    if ls == [] then EMPTY else LoginStep(cfg, After(cfg, ls[..|ls| - 1]), ls[|ls| - 1])
  }

  /** The clock never runs backwards, within a request or from one to the next. */
  predicate Timed(ls: seq<Login>) {
    && (forall i :: 0 <= i < |ls| ==> ls[i].hitAt <= ls[i].failAt)
    && (forall i, j :: 0 <= i < j < |ls| ==> ls[i].failAt <= ls[j].hitAt)
  }

  predicate DoneBy(ls: seq<Login>, now: real) {
    forall i :: 0 <= i < |ls| ==> ls[i].failAt <= now
  }

  /** The streak this request leads to, where it is a recorded failure. */
  function FailureCount(cfg: Config, s: Limiter, l: Login): Option<nat> {
    if LoginReply(cfg, s, l) != InvalidPassword then None
    else
      var s' := HitStep(cfg, s, l.key, l.hitAt).0;
      Some(NextCount(cfg, StreaksAtFailure(cfg, s', l.failAt), l.key, l.failAt))
  }

  /** The lockout this request imposes, in seconds, if any. */
  function PenaltyImposed(cfg: Config, s: Limiter, l: Login): Option<real> {
    var count :- FailureCount(cfg, s, l);
    if count >= cfg.maxAttempts then Some(Penalty(cfg, count)) else None
  }

  /** The lockout that a streak long enough imposes is recorded, or over. */
  ghost predicate Locked(cfg: Config, s: Limiter, key: string, st: Streak, now: real) {
    st.count >= cfg.maxAttempts ==>
      var until := st.last + Penalty(cfg, st.count);
      until <= now || (key in s.lockouts && s.lockouts[key] == until)
  }

  /** A streak past the threshold got there through a shorter lockout that fitted in streakReset. */
  ghost predicate StreakOk(cfg: Config, s: Limiter, key: string, now: real) {
    key in s.streaks ==>
      var st := s.streaks[key];
      && 1 <= st.count && st.last <= now && Locked(cfg, s, key, st, now)
      && (st.count > cfg.maxAttempts ==> Penalty(cfg, st.count - 1) <= cfg.streakReset)
  }

  lemma HitKeepsStreak(cfg: Config, s: Limiter, hitKey: string, key: string, before: real, now: real)
    requires StreakOk(cfg, s, key, before) && before <= now
    ensures StreakOk(cfg, HitStep(cfg, s, hitKey, now).0, key, now)
    ensures HitStep(cfg, s, key, now).1.None? && key in s.streaks && s.streaks[key].count >= cfg.maxAttempts
      ==> s.streaks[key].last + Penalty(cfg, s.streaks[key].count) <= now
  {
    hide Penalty, Expire, PruneAttempts, Ceil;
  }

  lemma PenaltyDoubles(cfg: Config, count: nat)
    requires count >= cfg.maxAttempts
    ensures Penalty(cfg, count) <= cfg.lockoutMax
    ensures count == cfg.maxAttempts ==> Penalty(cfg, count) <= cfg.lockoutBase
    ensures count > cfg.maxAttempts ==>
      Penalty(cfg, count) <= 2.0 * Penalty(cfg, count - 1) || Penalty(cfg, count) <= Penalty(cfg, count - 1)
  {
    if count > cfg.maxAttempts {
      var k := count - cfg.maxAttempts;
      var b, p := cfg.lockoutBase, Pow2(k - 1) as real;
      assert Pow2(k) as real == 2.0 * p;
      assert b * (2.0 * p) == 2.0 * (b * p);
    }
  }

  /** The bound on a lockout: twice the time in which a streak decays, or the base. */
  function Ceiling(cfg: Config): real {
    if cfg.lockoutBase >= 2.0 * cfg.streakReset then cfg.lockoutBase else 2.0 * cfg.streakReset
  }

  /** A failure recorded after an accepted attempt keeps the invariant and respects the ceiling. */
  lemma FailureKeepsStreak(cfg: Config, s: Limiter, failKey: string, key: string, hitAt: real, now: real)
    requires StreakOk(cfg, s, key, hitAt) && hitAt <= now
    requires key == failKey && key in s.streaks && s.streaks[key].count >= cfg.maxAttempts
      ==> s.streaks[key].last + Penalty(cfg, s.streaks[key].count) <= hitAt
    ensures StreakOk(cfg, FailureStep(cfg, s, failKey, now), key, now)
    ensures key == failKey ==>
      var count := NextCount(cfg, StreaksAtFailure(cfg, s, now), key, now);
      count >= cfg.maxAttempts ==> Penalty(cfg, count) <= Ceiling(cfg)
  {
    hide Penalty;
    if key == failKey {
      var count := NextCount(cfg, StreaksAtFailure(cfg, s, now), key, now);
      if count >= cfg.maxAttempts {
        PenaltyDoubles(cfg, count);
      }
    }
  }

  lemma StepKeepsStreak(cfg: Config, s: Limiter, l: Login, key: string, before: real)
    requires StreakOk(cfg, s, key, before) && before <= l.hitAt <= l.failAt
    ensures StreakOk(cfg, LoginStep(cfg, s, l), key, l.failAt)
    ensures key == l.key && PenaltyImposed(cfg, s, l).Some?
      ==> PenaltyImposed(cfg, s, l).value <= Ceiling(cfg)
  {
    hide HitStep, FailureStep, Penalty, NextCount, StreaksAtFailure;
    HitKeepsStreak(cfg, s, l.key, key, before, l.hitAt);
    var (s', retry) := HitStep(cfg, s, l.key, l.hitAt);
    HitKeepsStreakEntry(cfg, s, l.key, l.hitAt);
    if retry.None? && !l.correct {
      FailureKeepsStreak(cfg, s', l.key, key, l.hitAt, l.failAt);
    }
  }

  /** A hit never changes a streak, though a prune may drop one. */
  lemma HitKeepsStreakEntry(cfg: Config, s: Limiter, key: string, now: real)
    ensures var s' := HitStep(cfg, s, key, now).0;
            forall k :: k in s'.streaks ==> k in s.streaks && s'.streaks[k] == s.streaks[k]
  {
    hide Expire, PruneAttempts, PruneLockouts, Ceil;
  }

  lemma {:induction false} RunKeepsStreak(cfg: Config, ls: seq<Login>, key: string, now: real)
    requires Timed(ls) && DoneBy(ls, now)
    ensures StreakOk(cfg, After(cfg, ls), key, now)
  {
    hide LoginStep, Penalty;
    if ls != [] {
      var front, l := ls[..|ls| - 1], ls[|ls| - 1];
      RunKeepsStreak(cfg, front, key, l.hitAt);
      StepKeepsStreak(cfg, After(cfg, front), l, key, l.hitAt);
    }
  }

  /** A lockout that was not there before a request is the one that the request imposes, on its own key. */
  lemma ImposedExactly(cfg: Config, s: Limiter, l: Login, key: string)
    ensures var next, p := LoginStep(cfg, s, l), PenaltyImposed(cfg, s, l);
            && (key in next.lockouts && !(key in s.lockouts && s.lockouts[key] == next.lockouts[key]) ==>
                  key == l.key && p.Some? && next.lockouts[key] == l.failAt + p.value)
            && (p.Some? ==> l.key in next.lockouts && next.lockouts[l.key] == l.failAt + p.value)
  {
    hide HitStep, Penalty, NextCount, StreaksAtFailure;
    HitAddsNoLockout(cfg, s, l.key, key, l.hitAt);
  }

  lemma HitAddsNoLockout(cfg: Config, s: Limiter, hitKey: string, key: string, now: real)
    ensures var tried := HitStep(cfg, s, hitKey, now).0;
            key in tried.lockouts ==> key in s.lockouts && tried.lockouts[key] == s.lockouts[key]
  {
    hide Expire, Ceil, PruneAttempts, PruneStreaks;
  }

  /**
    * The lockout ceiling: in every run of logins, no lockout ever imposed is longer than the base
    * or twice streakReset, whichever is larger, however large lockoutMax is. (To fail again a
    * client must first sit out the lockout it has, and meanwhile its streak decays.)
    */
  lemma LockoutCeiling(cfg: Config, ls: seq<Login>, l: Login)
    requires Timed(ls + [l])
    ensures var s, next := After(cfg, ls), LoginStep(cfg, After(cfg, ls), l);
            forall key :: key in next.lockouts && !(key in s.lockouts && s.lockouts[key] == next.lockouts[key]) ==>
              && key == l.key
              && (next.lockouts[key] - l.failAt <= cfg.lockoutBase
                  || next.lockouts[key] - l.failAt <= 2.0 * cfg.streakReset)
  {
    hide PenaltyImposed, LoginStep, StreakOk;
    forall key {
      ImposedExactly(cfg, After(cfg, ls), l, key);
    }
    var all := ls + [l];
    assert all[|ls|] == l && forall i :: 0 <= i < |ls| ==> all[i] == ls[i];
    RunKeepsStreak(cfg, ls, l.key, l.hitAt);
    StepKeepsStreak(cfg, After(cfg, ls), l, l.key, l.hitAt);
  }

  lemma DefaultPenalties(count: nat)
    requires count >= DEFAULTS.maxAttempts
    ensures count <= 9 ==> Penalty(DEFAULTS, count) <= 960.0
    ensures count >= 9 ==> Penalty(DEFAULTS, count) > DEFAULTS.streakReset
  {
    if count >= 9 {
      Pow2AtLeast16(count - 5);
    }
    assert Pow2(1) == 2 && Pow2(2) == 4 && Pow2(3) == 2 * Pow2(2) && Pow2(4) == 2 * Pow2(3);
  }

  lemma {:induction false} Pow2AtLeast16(n: nat)
    requires n >= 4
    ensures Pow2(n) >= 16
  {
    if n == 4 {
      assert Pow2(2) == 4 && Pow2(3) == 8;
    } else {
      Pow2AtLeast16(n - 1);
    }
  }

  /** With the default parameters no streak ever passes 9 and no lockout is longer than 960 seconds. */
  lemma DefaultCeiling(ls: seq<Login>, key: string)
    requires Timed(ls)
    ensures var s := After(DEFAULTS, ls);
            key in s.streaks ==> (
              && 1 <= s.streaks[key].count <= 9
              && (s.streaks[key].count >= 5 ==> Penalty(DEFAULTS, s.streaks[key].count) <= 960.0))
  {
    hide Penalty, LoginStep, After;
    var s := After(DEFAULTS, ls);
    RunKeepsStreak(DEFAULTS, ls, key, if ls == [] then 0.0 else ls[|ls| - 1].failAt);
    if key in s.streaks && s.streaks[key].count >= 5 {
      var count := s.streaks[key].count;
      DefaultPenalties(count);
      if count > 5 {
        DefaultPenalties(count - 1);
      }
    }
  }
}

/**
  * The login rate limiter (src/mcp_proxy/rate_limit.py): a sliding window of accepted attempts per
  * key, and a lockout that doubles with each consecutive failure. Clock readings are parameters.
  */
module RateLimiter {
  import opened Wrappers

  type Pos = n: int | n >= 1 witness 1

  /**
    * The constructor's parameters. `pruning` is not one of them: it is true of the limiter itself,
    * and false of the imaginary limiter that never forgets, with which it is compared.
    */
  datatype Config = Config(
    maxAttempts: Pos, window: real, lockoutBase: real, lockoutMax: real, streakReset: real, pruning: bool)

  const DEFAULTS := Config(5, 60.0, 60.0, 3600.0, 900.0, true)

  const PRUNE_ABOVE := 4096

  datatype Streak = Streak(count: nat, last: real)

  datatype Limiter = Limiter(
    attempts: map<string, seq<real>>, streaks: map<string, Streak>, lockouts: map<string, real>)

  const EMPTY := Limiter(map[], map[], map[])

  /** `math.ceil` */
  function Ceil(x: real): (n: int)
    ensures n as real - 1.0 < x <= n as real
  {
    -((-x).Floor)
  }

  function Pow2(n: nat): nat {
    if n == 0 then 1 else 2 * Pow2(n - 1)
  }

  function Min(a: real, b: real): real {
    if a <= b then a else b
  }

  /** The lockout imposed when a failure brings the streak to this count. */
  function Penalty(cfg: Config, count: nat): real
    requires count >= cfg.maxAttempts
  {
    Min(cfg.lockoutBase * Pow2(count - cfg.maxAttempts) as real, cfg.lockoutMax)
  }

  /** The queue once everything at or before the cutoff is popped from its front. */
  function Expire(q: seq<real>, cutoff: real): seq<real> {
    if q != [] && q[0] <= cutoff then Expire(q[1..], cutoff) else q
  }

  lemma {:induction false} ExpireShape(q: seq<real>, cutoff: real)
    ensures var r := Expire(q, cutoff);
            && |r| <= |q| && r == q[|q| - |r|..]
            && (r != [] ==> r[0] > cutoff)
            && forall i :: 0 <= i < |q| - |r| ==> q[i] <= cutoff
  {
    if q != [] && q[0] <= cutoff {
      ExpireShape(q[1..], cutoff);
      assert forall i :: 1 <= i < |q| ==> q[i] == q[1..][i - 1];
    }
  }

  function Queue(s: Limiter, key: string): seq<real> {
    if key in s.attempts then s.attempts[key] else []
  }

  predicate IsStaleQueue(q: seq<real>, cutoff: real) {
    q == [] || q[|q| - 1] <= cutoff
  }

  function PruneAttempts(m: map<string, seq<real>>, cutoff: real): map<string, seq<real>> {
    map k | k in m && !IsStaleQueue(m[k], cutoff) :: m[k]
  }

  function PruneLockouts(m: map<string, real>, now: real): map<string, real> {
    map k | k in m && m[k] > now :: m[k]
  }

  function PruneStreaks(m: map<string, Streak>, cutoff: real): map<string, Streak> {
    map k | k in m && m[k].last > cutoff :: m[k]
  }

  /** `_prune_locked` */
  function Prune(cfg: Config, s: Limiter, now: real): Limiter {
    Limiter(
      PruneAttempts(s.attempts, now - cfg.window),
      PruneStreaks(s.streaks, now - cfg.streakReset),
      PruneLockouts(s.lockouts, now))
  }

  predicate Crowded(cfg: Config, s: Limiter) {
    cfg.pruning && (|s.attempts| > PRUNE_ABOVE || |s.streaks| > PRUNE_ABOVE)
  }

  /** What `hit` does once no lockout stands in the way. */
  function WindowStep(cfg: Config, s: Limiter, key: string, now: real): (Limiter, Option<int>) {
    if key in s.attempts then
      var q := Expire(s.attempts[key], now - cfg.window);
      if |q| >= cfg.maxAttempts then
        (s.(attempts := s.attempts[key := q]), Some(Ceil(q[0] + cfg.window - now)))
      else (s.(attempts := s.attempts[key := q + [now]]), None)
    else
      var kept := if Crowded(cfg, s) then Prune(cfg, s, now) else s;
      (kept.(attempts := kept.attempts[key := [now]]), None)
  }

  /** `hit`: the new state, and the seconds to wait where the attempt is rejected. */
  function HitStep(cfg: Config, s: Limiter, key: string, now: real): (Limiter, Option<int>) {
    if key in s.lockouts && s.lockouts[key] > now then (s, Some(Ceil(s.lockouts[key] - now)))
    else WindowStep(cfg, s.(lockouts := s.lockouts - {key}), key, now)
  }

  function StreaksAtFailure(cfg: Config, s: Limiter, now: real): map<string, Streak> {
    if cfg.pruning && |s.streaks| > PRUNE_ABOVE then PruneStreaks(s.streaks, now - cfg.streakReset)
    else s.streaks
  }

  /** The streak a failure leads to: one more than a recent enough predecessor, or a new one. */
  function NextCount(cfg: Config, streaks: map<string, Streak>, key: string, now: real): nat {
    var prev := if key in streaks then streaks[key] else Streak(0, 0.0);
    if now - prev.last <= cfg.streakReset then prev.count + 1 else 1
  }

  /** `record_failure` */
  function FailureStep(cfg: Config, s: Limiter, key: string, now: real): Limiter {
    var streaks := StreaksAtFailure(cfg, s, now);
    var count := NextCount(cfg, streaks, key, now);
    var s := s.(streaks := streaks[key := Streak(count, now)]);
    if count >= cfg.maxAttempts then s.(lockouts := s.lockouts[key := now + Penalty(cfg, count)]) else s
  }

  /** `record_success` */
  function SuccessStep(s: Limiter, key: string): Limiter {
    Limiter(s.attempts - {key}, s.streaks - {key}, s.lockouts - {key})
  }

  lemma UpdateTwice(m: map<string, seq<real>>, k: string, a: seq<real>, b: seq<real>)
    ensures m[k := a][k := b] == m[k := b]
  {
  }

  /** The limiter itself: three dictionaries that every method changes in place. */
  class LoginRateLimiter {
    const cfg: Config
    var attempts: map<string, seq<real>>
    var streaks: map<string, Streak>
    var lockouts: map<string, real>

    function State(): Limiter
      reads this
    {
      Limiter(attempts, streaks, lockouts)
    }

    constructor (cfg: Config)
      ensures this.cfg == cfg && State() == EMPTY
    {
      this.cfg := cfg;
      attempts, streaks, lockouts := map[], map[], map[];
    }

    method Hit(key: string, now: real) returns (retry: Option<int>)
      requires cfg.pruning
      modifies this
      ensures (State(), retry) == HitStep(cfg, old(State()), key, now)
    {
      hide WindowStep;
      if key in lockouts {
        if lockouts[key] > now { return Some(Ceil(lockouts[key] - now)); }
      }
      lockouts := lockouts - {key};
      retry := HitWindow(key, now);
    }

    method HitWindow(key: string, now: real) returns (retry: Option<int>)
      requires cfg.pruning
      modifies this
      ensures (State(), retry) == WindowStep(cfg, old(State()), key, now)
    {
      hide Expire, Prune, Ceil;
      if key in attempts {
        ExpireQueue(key, now);
        if |attempts[key]| >= cfg.maxAttempts {
          return Some(Ceil(attempts[key][0] + cfg.window - now));
        }
        UpdateTwice(old(attempts), key, attempts[key], attempts[key] + [now]);
      } else {
        if |attempts| > PRUNE_ABOVE || |streaks| > PRUNE_ABOVE {
          PruneLocked(now);
        }
        UpdateTwice(attempts, key, [], [now]);
        assert [] + [now] == [now];
        attempts := attempts[key := []];
      }
      attempts := attempts[key := attempts[key] + [now]];
      return None;
    }

    /** The loop of `hit` that pops what has left the window. */
    method ExpireQueue(key: string, now: real)
      requires key in attempts
      modifies this`attempts
      ensures attempts == old(attempts)[key := Expire(old(attempts)[key], now - cfg.window)]
    {
      var q := attempts[key];
      while q != [] && q[0] <= now - cfg.window
        invariant Expire(q, now - cfg.window) == Expire(old(attempts)[key], now - cfg.window)
        decreases |q|
      {
        q := q[1..];
      }
      attempts := attempts[key := q];
    }

    method RecordFailure(key: string, now: real)
      requires cfg.pruning
      modifies this
      ensures State() == FailureStep(cfg, old(State()), key, now)
    {
      hide Penalty, PruneStreaks;
      if |streaks| > PRUNE_ABOVE {
        PruneStreaksLocked(now);
      }
      var prev := if key in streaks then streaks[key] else Streak(0, 0.0);
      var count := if now - prev.last <= cfg.streakReset then prev.count + 1 else 1;
      streaks := streaks[key := Streak(count, now)];
      if count >= cfg.maxAttempts {
        lockouts := lockouts[key := now + Penalty(cfg, count)];
      }
    }

    method RecordSuccess(key: string)
      modifies this
      ensures State() == SuccessStep(old(State()), key)
    {
      attempts := attempts - {key};
      streaks := streaks - {key};
      lockouts := lockouts - {key};
    }

    method PruneLocked(now: real)
      modifies this
      ensures State() == Prune(cfg, old(State()), now)
    {
      PruneAttemptsLocked(now);
      PruneLockoutsLocked(now);
      PruneStreaksLocked(now);
    }

    method PruneAttemptsLocked(now: real)
      modifies this`attempts
      ensures attempts == PruneAttempts(old(attempts), now - cfg.window)
    {
      var stale := set k | k in attempts && IsStaleQueue(attempts[k], now - cfg.window);
      while stale != {}
        invariant stale <= attempts.Keys
        invariant attempts.Keys == PruneAttempts(old(attempts), now - cfg.window).Keys + stale
        invariant stale !! PruneAttempts(old(attempts), now - cfg.window).Keys
        invariant forall k :: k in attempts ==> k in old(attempts) && attempts[k] == old(attempts)[k]
        decreases stale
      {
        var k :| k in stale;
        attempts, stale := attempts - {k}, stale - {k};
      }
    }

    method PruneLockoutsLocked(now: real)
      modifies this`lockouts
      ensures lockouts == PruneLockouts(old(lockouts), now)
    {
      var expired := set k | k in lockouts && lockouts[k] <= now;
      while expired != {}
        invariant expired <= lockouts.Keys
        invariant lockouts.Keys == PruneLockouts(old(lockouts), now).Keys + expired
        invariant expired !! PruneLockouts(old(lockouts), now).Keys
        invariant forall k :: k in lockouts ==> k in old(lockouts) && lockouts[k] == old(lockouts)[k]
        decreases expired
      {
        var k :| k in expired;
        lockouts, expired := lockouts - {k}, expired - {k};
      }
    }

    method PruneStreaksLocked(now: real)
      modifies this`streaks
      ensures streaks == PruneStreaks(old(streaks), now - cfg.streakReset)
    {
      var stale := set k | k in streaks && streaks[k].last <= now - cfg.streakReset;
      while stale != {}
        invariant stale <= streaks.Keys
        invariant streaks.Keys == PruneStreaks(old(streaks), now - cfg.streakReset).Keys + stale
        invariant stale !! PruneStreaks(old(streaks), now - cfg.streakReset).Keys
        invariant forall k :: k in streaks ==> k in old(streaks) && streaks[k] == old(streaks)[k]
        decreases stale
      {
        var k :| k in stale;
        streaks, stale := streaks - {k}, stale - {k};
      }
    }
  }
}

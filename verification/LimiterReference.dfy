/** The limiter's answers computed from the run of events alone, without any of its dictionaries. */
module LimiterReference {
  import opened Wrappers
  import opened RateLimiter
  import opened LimiterRuns
  import opened LimiterPruning
  import opened LimiterRetry

  /** When a key failed since its last success, oldest first. */
  function Failures(ops: seq<Op>, key: string): seq<real> {
    if ops == [] then []
    else
      var front, op := Failures(ops[..|ops| - 1], key), ops[|ops| - 1];
      if op.key != key || op.Hit? then front else if op.Failure? then front + [op.now] else []
  }

  /** The last n failures are a streak: none came too late after the one before, and the first of them did. */
  ghost predicate IsStreak(times: seq<real>, reset: real, n: nat) {
    && n <= |times| && (n == 0 <==> times == [])
    && (forall i :: |times| - n < i < |times| ==> times[i] - times[i - 1] <= reset)
    && (0 < n < |times| ==> times[|times| - n] - times[|times| - n - 1] > reset)
  }

  lemma StreakIsUnique(times: seq<real>, reset: real, m: nat, n: nat)
    requires IsStreak(times, reset, m) && IsStreak(times, reset, n)
    ensures m == n
  {
  }

  /** The length of that streak. */
  function StreakLength(times: seq<real>, reset: real): (n: nat)
    ensures IsStreak(times, reset, n)
  {
    if |times| <= 1 then |times|
    else if times[|times| - 1] - times[|times| - 2] > reset then 1
    else
      var front := times[..|times| - 1];
      var n := StreakLength(front, reset);
      assert forall i :: 0 <= i < |front| ==> front[i] == times[i];
      n + 1
  }

  /** When the lockout ends that the latest failure of a streak long enough has imposed. */
  function LockedUntil(cfg: Config, times: seq<real>): Option<real> {
    if times == [] then None
    else
      var n := StreakLength(times, cfg.streakReset);
      if n >= cfg.maxAttempts then Some(times[|times| - 1] + Doubled(cfg, n - cfg.maxAttempts))
      else LockedUntil(cfg, times[..|times| - 1])
  }

  /** The first lockout is as long as the base, and each further failure doubles it, up to the maximum. */
  function Doubled(cfg: Config, times: nat): (penalty: real) {
    var full := Power(cfg.lockoutBase, times);
    if full < cfg.lockoutMax then full else cfg.lockoutMax
  }

  function Power(base: real, doublings: nat): real {
    if doublings == 0 then base else 2.0 * Power(base, doublings - 1)
  }

  /** The answer to an attempt, from the run before it: still locked out, too many in the window, or let through. */
  function Reference(cfg: Config, ops: seq<Op>, key: string, now: real): Option<int>
    decreases |ops|, 1
  {
    var until, let := LockedUntil(cfg, Failures(ops, key)), LetThrough(cfg, ops, key);
    if until.Some? && until.value > now then Some(Ceil(until.value - now))
    else if |let| >= cfg.maxAttempts && let[|let| - cfg.maxAttempts] > now - cfg.window then
      Some(Ceil(let[|let| - cfg.maxAttempts] + cfg.window - now))
    else None
  }

  /** The attempts let through since the last success. */
  function LetThrough(cfg: Config, ops: seq<Op>, key: string): seq<real>
    decreases |ops|, 0
  {
    if ops == [] then []
    else
      var front, op := ops[..|ops| - 1], ops[|ops| - 1];
      var before := LetThrough(cfg, front, key);
      if op.key != key || op.Failure? then before
      else if op.Success? then []
      else if Reference(cfg, front, key, op.now).None? then before + [op.now]
      else before
  }

  lemma {:induction false} PowerIs(base: real, doublings: nat)
    ensures Power(base, doublings) == base * Pow2(doublings) as real
  {
    if doublings > 0 {
      PowerIs(base, doublings - 1);
    }
  }

  lemma PenaltyIsDoubled(cfg: Config, count: nat)
    requires count >= cfg.maxAttempts
    ensures Penalty(cfg, count) == Doubled(cfg, count - cfg.maxAttempts)
  {
    PowerIs(cfg.lockoutBase, count - cfg.maxAttempts);
  }

  lemma {:induction false} FailuresBy(ops: seq<Op>, key: string, now: real)
    requires StartsBy(ops, now)
    ensures forall i :: 0 <= i < |Failures(ops, key)| ==> Failures(ops, key)[i] <= now
  {
    if ops != [] {
      FailuresBy(ops[..|ops| - 1], key, now);
    }
  }

  /** What a limiter that never prunes remembers of a key is what the run says. */
  ghost predicate Remembers(cfg: Config, s: Limiter, times: seq<real>, key: string, now: real) {
    && (key in s.streaks <==> times != [])
    && (key in s.streaks ==>
          s.streaks[key] == Streak(StreakLength(times, cfg.streakReset), times[|times| - 1]))
    && (var until := LockedUntil(cfg, times);
        ActiveUntil(s, key, now) == if until.Some? && until.value > now then until else None)
  }

  lemma RemembersLater(cfg: Config, s: Limiter, times: seq<real>, key: string, now: real, later: real)
    requires Remembers(cfg, s, times, key, now) && now <= later
    ensures Remembers(cfg, s, times, key, later)
  {
    hide LockedUntil, StreakLength;
  }

  lemma FailureRemembers(cfg: Config, s: Limiter, times: seq<real>, key: string, now: real)
    requires !cfg.pruning && Remembers(cfg, s, times, key, now)
    ensures Remembers(cfg, FailureStep(cfg, s, key, now), times + [now], key, now)
  {
    hide Penalty, Doubled;
    var all := times + [now];
    assert all[..|times|] == times;
    var n := StreakLength(all, cfg.streakReset);
    assert NextCount(cfg, s.streaks, key, now) == n;
    if n >= cfg.maxAttempts {
      PenaltyIsDoubled(cfg, n);
    }
  }

  lemma OthersRemember(cfg: Config, s: Limiter, times: seq<real>, key: string, op: Op)
    requires !cfg.pruning && Remembers(cfg, s, times, key, op.now) && (op.key != key || op.Hit?)
    ensures Remembers(cfg, Step(cfg, s, op), times, key, op.now)
  {
    hide LockedUntil, StreakLength, Penalty, NextCount, HitStep;
    if op.Hit? {
      HitOnLocks(cfg, s, op.key, key, op.now);
      UnprunedHit(cfg, s, op.key, op.now);
    }
  }

  lemma UnprunedHit(cfg: Config, s: Limiter, key: string, now: real)
    requires !cfg.pruning
    ensures HitStep(cfg, s, key, now).0.streaks == s.streaks
  {
    assert Unpruned(cfg) == cfg;
    UnprunedHitStreaks(cfg, s, key, now);
  }

  lemma SuccessRemembers(cfg: Config, s: Limiter, key: string, now: real)
    ensures Remembers(cfg, SuccessStep(s, key), [], key, now)
  {
  }

  /** In every run. */
  lemma {:induction false} RunRemembers(cfg: Config, ops: seq<Op>, key: string, now: real)
    requires !cfg.pruning && Timed(ops) && StartsBy(ops, now)
    ensures Remembers(cfg, After(cfg, ops), Failures(ops, key), key, now)
    decreases |ops|
  {
    hide Remembers, HitStep, FailureStep, SuccessStep;
    if ops == [] {
      EmptyRemembers(cfg, key, now);
    } else {
      var front, op := ops[..|ops| - 1], ops[|ops| - 1];
      RunRemembers(cfg, front, key, op.now);
      var s, times := After(cfg, front), Failures(front, key);
      if op.key != key || op.Hit? {
        OthersRemember(cfg, s, times, key, op);
      } else if op.Failure? {
        FailureRemembers(cfg, s, times, key, op.now);
      } else {
        SuccessRemembers(cfg, s, key, op.now);
      }
      RemembersLater(cfg, After(cfg, ops), Failures(ops, key), key, op.now, now);
    }
  }

  lemma EmptyRemembers(cfg: Config, key: string, now: real)
    ensures Remembers(cfg, EMPTY, [], key, now)
  {
  }

  lemma {:induction false} ReferenceIgnoresPruning(cfg: Config, ops: seq<Op>, key: string, now: real)
    ensures Reference(Unpruned(cfg), ops, key, now) == Reference(cfg, ops, key, now)
    ensures LetThrough(Unpruned(cfg), ops, key) == LetThrough(cfg, ops, key)
    decreases |ops|
  {
    LockIgnoresPruning(cfg, Failures(ops, key));
    if ops != [] {
      var front, op := ops[..|ops| - 1], ops[|ops| - 1];
      ReferenceIgnoresPruning(cfg, front, key, op.now);
    }
  }

  lemma {:induction false} LockIgnoresPruning(cfg: Config, times: seq<real>)
    ensures LockedUntil(Unpruned(cfg), times) == LockedUntil(cfg, times)
  {
    if times != [] {
      LockIgnoresPruning(cfg, times[..|times| - 1]);
    }
  }

  /** A limiter that never prunes answers every attempt of every run as the reference does. */
  lemma {:induction false} UnprunedFollowsReference(cfg: Config, ops: seq<Op>, key: string, now: real)
    requires !cfg.pruning && Timed(ops) && StartsBy(ops, now)
    ensures HitStep(cfg, After(cfg, ops), key, now).1 == Reference(cfg, ops, key, now)
    ensures Accepted(cfg, ops, key) == LetThrough(cfg, ops, key)
    decreases |ops|
  {
    hide HitStep, After, LockedUntil, Failures, StreakLength, Ceil;
    if ops != [] {
      var front, op := ops[..|ops| - 1], ops[|ops| - 1];
      UnprunedFollowsReference(cfg, front, key, op.now);
    }
    RunRemembers(cfg, ops, key, now);
    HitExactly(cfg, ops, key, now);
  }

  /**
    * The limiter is its stateless reference: away from the boundary of pruning, every attempt of every run is answered
    * from the failures, successes and attempts of its key alone.
    */
  lemma FollowsReference(cfg: Config, ops: seq<Op>, key: string, now: real)
    requires Timed(ops) && StartsBy(ops, now) && OffBoundary(cfg, ops)
    ensures HitStep(cfg, After(cfg, ops), key, now).1 == Reference(cfg, ops, key, now)
  {
    hide HitStep, After, Reference, OffBoundary;
    PruningInvisible(cfg, ops, key, now);
    UnprunedFollowsReference(Unpruned(cfg), ops, key, now);
    ReferenceIgnoresPruning(cfg, ops, key, now);
  }

  /** The streak a limiter remembers is the streak of the run. */
  lemma StreakIsCounted(cfg: Config, ops: seq<Op>, key: string, now: real)
    requires Timed(ops) && StartsBy(ops, now) && OffBoundary(cfg, ops) && key in After(cfg, ops).streaks
    ensures IsStreak(Failures(ops, key), cfg.streakReset, After(cfg, ops).streaks[key].count)
  {
    hide After, Failures, OffBoundary, StreakLength, LockedUntil, IsStreak;
    RunSimulates(cfg, ops, now);
    assert SameKey(cfg, After(cfg, ops), After(Unpruned(cfg), ops), key, now);
    RunRemembers(Unpruned(cfg), ops, key, now);
  }

  /** The failure number maxAttempts + j of a streak locks the key for the base doubled j times, up to a maximum. */
  lemma StreakLocks(cfg: Config, ops: seq<Op>, key: string, now: real, j: nat)
    requires Timed(ops) && StartsBy(ops, now) && OffBoundary(cfg, ops + [Failure(key, now)])
    requires IsStreak(Failures(ops + [Failure(key, now)], key), cfg.streakReset, cfg.maxAttempts + j)
    ensures var s := After(cfg, ops + [Failure(key, now)]);
            && key in s.lockouts && s.streaks[key] == Streak(cfg.maxAttempts + j, now)
            && s.lockouts[key] - now
               == if Power(cfg.lockoutBase, j) < cfg.lockoutMax then Power(cfg.lockoutBase, j) else cfg.lockoutMax
  {
    hide After, Failures, OffBoundary, LockedUntil, IsStreak, Penalty, NextCount, StreaksAtFailure;
    var all := ops + [Failure(key, now)];
    AfterOne(cfg, ops, Failure(key, now));
    assert all[|all| - 1] == Failure(key, now);
    assert key in After(cfg, all).streaks;
    AppendedTimed(ops, key, now);
    StreakIsCounted(cfg, all, key, now);
    StreakIsUnique(Failures(all, key), cfg.streakReset, cfg.maxAttempts + j, After(cfg, all).streaks[key].count);
    PenaltyIsDoubled(cfg, cfg.maxAttempts + j);
  }

  lemma AppendedTimed(ops: seq<Op>, key: string, now: real)
    requires Timed(ops) && StartsBy(ops, now)
    ensures Timed(ops + [Failure(key, now)]) && StartsBy(ops + [Failure(key, now)], now)
  {
  }
}

/** Pruning against never forgetting: when the two limiters are indistinguishable, and when not. */
module LimiterPruning {
  import opened Wrappers
  import opened RateLimiter
  import opened LimiterRuns

  /** The same parameters, for a limiter that never prunes. */
  function Unpruned(cfg: Config): Config {
    cfg.(pruning := false)
  }

  /** When the lockout of a key ends, if it is still on. */
  function ActiveUntil(s: Limiter, key: string, now: real): Option<real> {
    if LockedOut(s, key, now) then Some(s.lockouts[key]) else None
  }

  /** What the pruning limiter p remembers of a streak of the unpruned limiter u. */
  predicate SameStreak(cfg: Config, p: Limiter, u: Limiter, key: string, now: real) {
    if key in p.streaks then key in u.streaks && p.streaks[key] == u.streaks[key]
    else key in u.streaks ==> u.streaks[key].last <= now - cfg.streakReset
  }

  predicate SameKey(cfg: Config, p: Limiter, u: Limiter, key: string, now: real) {
    && Expire(Queue(p, key), now - cfg.window) == Expire(Queue(u, key), now - cfg.window)
    && ActiveUntil(p, key, now) == ActiveUntil(u, key, now)
    && SameStreak(cfg, p, u, key, now)
  }

  /** The simulation relation: at this time the two differ only in what is out of date anyway. */
  ghost predicate Simulates(cfg: Config, p: Limiter, u: Limiter, now: real) {
    forall key: string :: SameKey(cfg, p, u, key, now)
  }

  lemma {:induction false} ExpireLater(q: seq<real>, a: real, b: real)
    requires a <= b
    ensures Expire(Expire(q, a), b) == Expire(q, b)
  {
    if q != [] && q[0] <= a {
      ExpireLater(q[1..], a, b);
    }
  }

  lemma {:induction false} ExpireAll(q: seq<real>, cutoff: real)
    requires forall i :: 0 <= i < |q| ==> q[i] <= cutoff
    ensures Expire(q, cutoff) == []
  {
    if q != [] {
      ExpireAll(q[1..], cutoff);
    }
  }

  lemma SameKeyLater(cfg: Config, p: Limiter, u: Limiter, key: string, now: real, later: real)
    requires SameKey(cfg, p, u, key, now) && now <= later
    ensures SameKey(cfg, p, u, key, later)
  {
    hide Expire;
    ExpireLater(Queue(p, key), now - cfg.window, later - cfg.window);
    ExpireLater(Queue(u, key), now - cfg.window, later - cfg.window);
  }

  /** No queue entry is dropped by a prune that is still inside the window. */
  lemma PrunedQueue(cfg: Config, s: Limiter, key: string, now: real)
    requires Sorted(Queue(s, key))
    ensures Expire(Queue(Prune(cfg, s, now), key), now - cfg.window) == Expire(Queue(s, key), now - cfg.window)
  {
    var q := Queue(s, key);
    if key in s.attempts && IsStaleQueue(q, now - cfg.window) {
      ExpireAll(q, now - cfg.window);
    }
  }

  lemma {:induction false} ExpireIdempotent(q: seq<real>, cutoff: real)
    ensures Expire(Expire(q, cutoff), cutoff) == Expire(q, cutoff)
  {
    ExpireLater(q, cutoff, cutoff);
  }

  lemma {:induction false} ExpireAppend(q: seq<real>, t: real, cutoff: real)
    ensures Expire(q + [t], cutoff) ==
      if Expire(q, cutoff) == [] then Expire([t], cutoff) else Expire(q, cutoff) + [t]
  {
    if q == [] {
      assert q + [t] == [t];
    } else {
      assert (q + [t])[1..] == q[1..] + [t];
      if q[0] <= cutoff {
        ExpireAppend(q[1..], t, cutoff);
      }
    }
  }

  lemma HitOnLocks(cfg: Config, s: Limiter, hitKey: string, key: string, now: real)
    ensures var s' := HitStep(cfg, s, hitKey, now).0;
            ActiveUntil(s', key, now) == ActiveUntil(s, key, now) && SameStreak(cfg, s', s, key, now)
  {
    hide Expire, PruneAttempts, Ceil;
  }

  /** What a hit makes of a key: nothing for another key, and a function of the live queue for its own. */
  lemma HitOnKey(cfg: Config, s: Limiter, hitKey: string, key: string, now: real)
    requires Sorted(Queue(s, key))
    ensures var (s', r) := HitStep(cfg, s, hitKey, now);
            var live := Expire(Queue(s, key), now - cfg.window);
            && Expire(Queue(s', key), now - cfg.window) ==
              (if hitKey == key && r.None? then Expire(live + [now], now - cfg.window) else live)
            && ActiveUntil(s', key, now) == ActiveUntil(s, key, now)
            && SameStreak(cfg, s', s, key, now)
  {
    hide Expire, HitStep, Sorted, Prune, ActiveUntil, SameStreak, Queue;
    ExpireIdempotent(Queue(s, key), now - cfg.window);
    SameQueue(s, hitKey, key);
    PrunedQueue(cfg, s.(lockouts := s.lockouts - {hitKey}), key, now);
    HitOnQueue(cfg, s, hitKey, key, now);
    HitOnLocks(cfg, s, hitKey, key, now);
  }

  /** A hit answers alike on both sides and keeps the relation. */
  lemma HitSimulates(cfg: Config, p: Limiter, u: Limiter, hitKey: string, now: real)
    requires Simulates(cfg, p, u, now)
    requires forall key :: Sorted(Queue(p, key)) && Sorted(Queue(u, key))
    ensures HitStep(cfg, p, hitKey, now).1 == HitStep(Unpruned(cfg), u, hitKey, now).1
    ensures Simulates(cfg, HitStep(cfg, p, hitKey, now).0, HitStep(Unpruned(cfg), u, hitKey, now).0, now)
  {
    hide Expire, HitStep, Ceil, Sorted;
    HitAnswer(cfg, p, hitKey, now);
    HitAnswer(Unpruned(cfg), u, hitKey, now);
    assert SameKey(cfg, p, u, hitKey, now);
    forall key: string
      ensures SameKey(cfg, HitStep(cfg, p, hitKey, now).0, HitStep(Unpruned(cfg), u, hitKey, now).0, key, now)
    {
      assert SameKey(cfg, p, u, key, now);
      HitOnKey(cfg, p, hitKey, key, now);
      HitOnKey(Unpruned(cfg), u, hitKey, key, now);
      UnprunedHitStreaks(cfg, u, hitKey, now);
    }
  }

  lemma UnprunedHitStreaks(cfg: Config, u: Limiter, key: string, now: real)
    ensures HitStep(Unpruned(cfg), u, key, now).0.streaks == u.streaks
  {
    hide Expire, Ceil;
  }

  /** The boundary: a failure exactly streakReset after the last one, whose streak has been pruned. */
  predicate Boundary(cfg: Config, p: Limiter, u: Limiter, key: string, now: real) {
    && key in u.streaks && u.streaks[key].last == now - cfg.streakReset
    && key !in StreaksAtFailure(cfg, p, now)
  }

  predicate CountsPositive(s: Limiter) {
    forall key :: key in s.streaks ==> s.streaks[key].count >= 1
  }

  /** The two limiters count the same streak for a failure. */
  predicate SameCount(cfg: Config, p: Limiter, u: Limiter, key: string, now: real) {
    NextCount(cfg, StreaksAtFailure(cfg, p, now), key, now)
    == NextCount(Unpruned(cfg), StreaksAtFailure(Unpruned(cfg), u, now), key, now)
  }

  lemma FailureSameCount(cfg: Config, p: Limiter, u: Limiter, key: string, now: real)
    requires SameKey(cfg, p, u, key, now) && CountsPositive(u)
    requires key in u.streaks ==> u.streaks[key].last <= now
    ensures SameCount(cfg, p, u, key, now) <==> !Boundary(cfg, p, u, key, now)
  {
    hide Expire;
  }

  lemma FailureOnOwnKey(cfg: Config, p: Limiter, u: Limiter, key: string, now: real)
    requires SameKey(cfg, p, u, key, now)
    ensures SameKey(cfg, FailureStep(cfg, p, key, now), FailureStep(Unpruned(cfg), u, key, now), key, now)
      <==> SameCount(cfg, p, u, key, now)
  {
    hide Expire, NextCount, StreaksAtFailure;
  }

  lemma FailureOnOtherKeys(cfg: Config, p: Limiter, u: Limiter, failKey: string, key: string, now: real)
    requires failKey != key && SameKey(cfg, p, u, key, now)
    ensures SameKey(cfg, FailureStep(cfg, p, failKey, now), FailureStep(Unpruned(cfg), u, failKey, now), key, now)
  {
    hide Expire, Penalty, NextCount;
  }

  /** A failure keeps the relation exactly when it is not at the boundary. */
  lemma FailureSimulatesExactly(cfg: Config, p: Limiter, u: Limiter, failKey: string, now: real)
    requires Simulates(cfg, p, u, now) && CountsPositive(u)
    requires failKey in u.streaks ==> u.streaks[failKey].last <= now
    ensures Simulates(cfg, FailureStep(cfg, p, failKey, now), FailureStep(Unpruned(cfg), u, failKey, now), now)
      <==> !Boundary(cfg, p, u, failKey, now)
  {
    hide SameKey, FailureStep, SameCount;
    assert SameKey(cfg, p, u, failKey, now);
    FailureSameCount(cfg, p, u, failKey, now);
    FailureOnOwnKey(cfg, p, u, failKey, now);
    var p', u' := FailureStep(cfg, p, failKey, now), FailureStep(Unpruned(cfg), u, failKey, now);
    forall key: string | key != failKey ensures SameKey(cfg, p', u', key, now) {
      FailureOnOtherKeys(cfg, p, u, failKey, key, now);
    }
  }

  /** The time of the last failure of a key since its last success: a fact about the run alone. */
  function LastFailure(ops: seq<Op>, key: string): Option<real> {
    if ops == [] then None
    else
      var op := ops[|ops| - 1];
      if op.key == key && op.Failure? then Some(op.now)
      else if op.key == key && op.Success? then None
      else LastFailure(ops[..|ops| - 1], key)
  }

  /** No failure lands exactly streakReset after its predecessor on the same key. */
  predicate OffBoundary(cfg: Config, ops: seq<Op>) {
    forall i :: 0 <= i < |ops| && ops[i].Failure? ==>
      LastFailure(ops[..i], ops[i].key) != Some(ops[i].now - cfg.streakReset)
  }

  /** The unpruned limiter's streaks are dated by the run. */
  lemma {:induction false} UnprunedStreaks(cfg: Config, ops: seq<Op>, now: real)
    requires Timed(ops) && StartsBy(ops, now)
    ensures var u := After(Unpruned(cfg), ops);
            CountsPositive(u) && forall key ::
              (key in u.streaks <==> LastFailure(ops, key).Some?)
              && (key in u.streaks ==> LastFailure(ops, key) == Some(u.streaks[key].last) && u.streaks[key].last <= now)
  {
    hide HitStep, Penalty;
    if ops != [] {
      var front, op := ops[..|ops| - 1], ops[|ops| - 1];
      UnprunedStreaks(cfg, front, op.now);
      if op.Hit? {
        UnprunedHitStreaks(cfg, After(Unpruned(cfg), front), op.key, op.now);
      }
    }
  }

  lemma SuccessSimulates(cfg: Config, p: Limiter, u: Limiter, key: string, now: real)
    requires Simulates(cfg, p, u, now)
    ensures Simulates(cfg, SuccessStep(p, key), SuccessStep(u, key), now)
  {
    hide Expire;
    forall k: string ensures SameKey(cfg, SuccessStep(p, key), SuccessStep(u, key), k, now) {
      assert SameKey(cfg, p, u, k, now);
    }
  }

  lemma SimulatesLater(cfg: Config, p: Limiter, u: Limiter, now: real, later: real)
    requires Simulates(cfg, p, u, now) && now <= later
    ensures Simulates(cfg, p, u, later)
  {
    hide SameKey;
    forall key: string ensures SameKey(cfg, p, u, key, later) {
      SameKeyLater(cfg, p, u, key, now, later);
    }
  }

  lemma EmptySimulates(cfg: Config, now: real)
    ensures Simulates(cfg, EMPTY, EMPTY, now)
  {
  }

  lemma QueuesSorted(cfg: Config, ops: seq<Op>, now: real)
    requires Timed(ops) && StartsBy(ops, now)
    ensures forall key :: Sorted(Queue(After(cfg, ops), key))
  {
    forall key ensures Sorted(Queue(After(cfg, ops), key)) {
      RunKeepsQueueInv(cfg, ops, key, now);
    }
  }

  lemma {:induction false} RunSimulates(cfg: Config, ops: seq<Op>, now: real)
    requires Timed(ops) && StartsBy(ops, now) && OffBoundary(cfg, ops)
    ensures Simulates(cfg, After(cfg, ops), After(Unpruned(cfg), ops), now)
  {
    hide HitStep, FailureStep, SuccessStep, SameKey, Simulates, CountsPositive, Sorted, Queue;
    if ops == [] {
      EmptySimulates(cfg, now);
    } else {
      var front, op := ops[..|ops| - 1], ops[|ops| - 1];
      assert forall i :: 0 <= i < |front| ==> front[..i] == ops[..i];
      RunSimulates(cfg, front, op.now);
      var p, u := After(cfg, front), After(Unpruned(cfg), front);
      match op {
        case Hit(key, t) =>
          QueuesSorted(cfg, front, t);
          QueuesSorted(Unpruned(cfg), front, t);
          HitSimulates(cfg, p, u, key, t);
        case Failure(key, t) =>
          UnprunedStreaks(cfg, front, t);
          assert !Boundary(cfg, p, u, key, t);
          FailureSimulatesExactly(cfg, p, u, key, t);
        case Success(key, t) =>
          SuccessSimulates(cfg, p, u, key, t);
      }
      SimulatesLater(cfg, After(cfg, ops), After(Unpruned(cfg), ops), op.now, now);
    }
  }

  /**
    * Pruning is invisible: away from the boundary, every attempt of every run is answered as by a
    * limiter that never forgets anything.
    */
  lemma PruningInvisible(cfg: Config, ops: seq<Op>, key: string, now: real)
    requires Timed(ops) && StartsBy(ops, now) && OffBoundary(cfg, ops)
    ensures HitStep(cfg, After(cfg, ops), key, now).1 == HitStep(Unpruned(cfg), After(Unpruned(cfg), ops), key, now).1
  {
    hide HitStep, SameKey, Simulates, After, Sorted, Queue;
    RunSimulates(cfg, ops, now);
    QueuesSorted(cfg, ops, now);
    QueuesSorted(Unpruned(cfg), ops, now);
    HitSimulates(cfg, After(cfg, ops), After(Unpruned(cfg), ops), key, now);
  }

  /** What a crowded limiter keeps: attempts in the window, streaks that can grow, lockouts that are not over. */
  lemma PruneExactly(cfg: Config, s: Limiter, now: real, key: string)
    ensures var kept := Prune(cfg, s, now);
            && (key in kept.attempts <==> key in s.attempts && s.attempts[key] != []
                                          && s.attempts[key][|s.attempts[key]| - 1] > now - cfg.window)
            && (key in kept.streaks <==> key in s.streaks && s.streaks[key].last > now - cfg.streakReset)
            && (key in kept.lockouts <==> key in s.lockouts && s.lockouts[key] > now)
    ensures var kept := Prune(cfg, s, now);
            && (key in kept.attempts ==> kept.attempts[key] == s.attempts[key])
            && (key in kept.streaks ==> kept.streaks[key] == s.streaks[key])
            && (key in kept.lockouts ==> kept.lockouts[key] == s.lockouts[key])
  {
  }

  /** The first attempt of a new key makes a limiter with more than 4096 keys forget whatever has expired. */
  lemma CrowdedHitForgets(cfg: Config, s: Limiter, key: string, now: real)
    requires cfg.pruning && (|s.attempts| > 4096 || |s.streaks| > 4096)
    requires key !in s.attempts && !(key in s.lockouts && s.lockouts[key] > now)
    ensures var kept := HitStep(cfg, s, key, now).0;
            && kept.attempts[key] == [now]
            && (forall k :: k in kept.attempts && k != key ==>
                  kept.attempts[k] != [] && kept.attempts[k][|kept.attempts[k]| - 1] > now - cfg.window)
            && (forall k :: k in kept.streaks ==> kept.streaks[k].last > now - cfg.streakReset)
            && (forall k :: k in kept.lockouts ==> kept.lockouts[k] > now)
  {
  }

  /** A failure in a limiter with more than 4096 streaks makes it forget those that are over. */
  lemma CrowdedFailureForgets(cfg: Config, s: Limiter, key: string, now: real)
    requires cfg.pruning && |s.streaks| > 4096
    ensures var kept := FailureStep(cfg, s, key, now);
            && key in kept.streaks && kept.streaks[key].last == now
            && forall k :: k in kept.streaks && k != key ==> kept.streaks[k].last > now - cfg.streakReset
  {
    hide Penalty;
  }
}

/** What a Retry-After is worth: how often a client that waits as told is turned away again. */
module LimiterRetry {
  import opened Wrappers
  import opened RateLimiter
  import opened LimiterRuns
  import LoginRuns

  function Answer(cfg: Config, ops: seq<Op>, key: string, now: real): Option<int> {
    HitStep(cfg, After(cfg, ops), key, now).1
  }

  predicate NotOn(ops: seq<Op>, key: string) {
    forall i :: 0 <= i < |ops| ==> ops[i].key != key
  }

  /** A rejection always asks for at least one second. */
  lemma RetryAtLeastOne(cfg: Config, s: Limiter, key: string, now: real)
    ensures HitStep(cfg, s, key, now).1.Some? ==> HitStep(cfg, s, key, now).1.value >= 1
  {
    hide HitStep;
    HitAnswer(cfg, s, key, now);
    ExpireShape(Queue(s, key), now - cfg.window);
  }

  /** A lockout entry is either gone or what it was. */
  predicate LockoutKept(s: Limiter, s': Limiter, key: string) {
    key in s'.lockouts ==> key in s.lockouts && s'.lockouts[key] == s.lockouts[key]
  }

  lemma HitKeepsLockout(cfg: Config, s: Limiter, hitKey: string, key: string, now: real)
    ensures LockoutKept(s, HitStep(cfg, s, hitKey, now).0, key)
    ensures hitKey == key && !LockedOut(s, key, now) ==> key !in HitStep(cfg, s, hitKey, now).0.lockouts
  {
    hide Expire, Crowded, Ceil;
  }

  /** Events on other keys change neither the history nor the lockout of a key. */
  lemma {:induction false} Quiet(cfg: Config, ops: seq<Op>, others: seq<Op>, key: string)
    requires NotOn(others, key)
    ensures Accepted(cfg, ops + others, key) == Accepted(cfg, ops, key)
    ensures LockoutKept(After(cfg, ops), After(cfg, ops + others), key)
  {
    hide HitStep, Penalty, NextCount;
    if others == [] {
      assert ops + others == ops;
    } else {
      var front, op := others[..|others| - 1], others[|others| - 1];
      Quiet(cfg, ops, front, key);
      assert (ops + others)[..|ops + others| - 1] == ops + front;
      if op.Hit? {
        HitKeepsLockout(cfg, After(cfg, ops + front), op.key, key, op.now);
      }
    }
  }

  lemma AfterHit(cfg: Config, ops: seq<Op>, key: string, now: real)
    ensures After(cfg, ops + [Hit(key, now)]) == HitStep(cfg, After(cfg, ops), key, now).0
    ensures Answer(cfg, ops, key, now).Some? ==> Accepted(cfg, ops + [Hit(key, now)], key) == Accepted(cfg, ops, key)
  {
    hide HitStep;
    assert (ops + [Hit(key, now)])[..|ops|] == ops;
  }

  /** The run in which a key is tried once more and then left alone. */
  function Retried(ops: seq<Op>, key: string, now: real, others: seq<Op>): seq<Op> {
    ops + [Hit(key, now)] + others
  }

  lemma TimedPrefix(ops: seq<Op>, key: string, now: real, others: seq<Op>)
    requires Timed(Retried(ops, key, now, others))
    ensures Timed(ops) && StartsBy(ops, now)
  {
    var all := Retried(ops, key, now, others);
    assert all[|ops|] == Hit(key, now);
    assert forall i :: 0 <= i < |ops| ==> all[i] == ops[i];
  }

  /** After a rejection nothing but the passing of time changes the next answer. */
  lemma RetryAnswer(cfg: Config, ops: seq<Op>, key: string, now: real, others: seq<Op>, later: real)
    requires Timed(Retried(ops, key, now, others)) && StartsBy(Retried(ops, key, now, others), later)
    requires NotOn(others, key) && Answer(cfg, ops, key, now).Some? && now <= later
    ensures var h := Accepted(cfg, ops, key);
            var s := After(cfg, ops);
            var a := Answer(cfg, Retried(ops, key, now, others), key, later);
            && (!LockedOut(s, key, now) ==> (a.Some? <==> WindowFull(cfg, h, later)))
            && (!LockedOut(s, key, later) ==> (a.Some? <==> WindowFull(cfg, h, later)))
            && Accepted(cfg, Retried(ops, key, now, others), key) == h
            && LockoutKept(s, After(cfg, Retried(ops, key, now, others)), key)
            && (!LockedOut(s, key, now) ==> key !in After(cfg, Retried(ops, key, now, others)).lockouts)
  {
    hide HitStep, Accepted, After, WindowFull, Ceil, Timed;
    AfterHit(cfg, ops, key, now);
    HitKeepsLockout(cfg, After(cfg, ops), key, key, now);
    Quiet(cfg, ops + [Hit(key, now)], others, key);
    HitExactly(cfg, Retried(ops, key, now, others), key, later);
  }

  /** After a rejection by the window, waiting as told leads to acceptance. */
  lemma WindowWait(cfg: Config, ops: seq<Op>, key: string, now: real, others: seq<Op>, later: real)
    requires Timed(Retried(ops, key, now, others)) && StartsBy(Retried(ops, key, now, others), later)
    requires NotOn(others, key) && Answer(cfg, ops, key, now).Some? && !LockedOut(After(cfg, ops), key, now)
    requires later >= now + Answer(cfg, ops, key, now).value as real
    ensures Answer(cfg, Retried(ops, key, now, others), key, later) == None
  {
    hide HitStep, Accepted, After, Timed;
    TimedPrefix(ops, key, now, others);
    HitExactly(cfg, ops, key, now);
    RetryAtLeastOne(cfg, After(cfg, ops), key, now);
    RetryAnswer(cfg, ops, key, now, others, later);
  }

  /** Waiting as told at most twice always leads to acceptance, whatever other keys do meanwhile. */
  lemma TwoWaits(cfg: Config, ops: seq<Op>, key: string, t0: real, others: seq<Op>, t1: real, more: seq<Op>, t2: real)
    requires var again := Retried(ops, key, t0, others);
             && NotOn(others, key) && NotOn(more, key)
             && Timed(Retried(again, key, t1, more)) && StartsBy(Retried(again, key, t1, more), t2)
             && Answer(cfg, ops, key, t0).Some? && t1 >= t0 + Answer(cfg, ops, key, t0).value as real
             && Answer(cfg, again, key, t1).Some? && t2 >= t1 + Answer(cfg, again, key, t1).value as real
    ensures Answer(cfg, Retried(Retried(ops, key, t0, others), key, t1, more), key, t2) == None
  {
    hide HitStep, Accepted, After, Timed;
    var again := Retried(ops, key, t0, others);
    TimedPrefix(again, key, t1, more);
    TimedPrefix(ops, key, t0, others);
    HitExactly(cfg, ops, key, t0);
    RetryAtLeastOne(cfg, After(cfg, ops), key, t0);
    RetryAnswer(cfg, ops, key, t0, others, t1);
    WindowWait(cfg, again, key, t1, more, t2);
  }

  // ---- runs of logins ----

  /** The limiter operations that a run of logins performs. */
  function LoginOps(cfg: Config, ls: seq<LoginRuns.Login>): seq<Op> {
    if ls == [] then []
    else
      var front, l := LoginOps(cfg, ls[..|ls| - 1]), ls[|ls| - 1];
      var hit := front + [Hit(l.key, l.hitAt)];
      if Answer(cfg, front, l.key, l.hitAt).Some? then hit
      else if l.correct then hit + [Success(l.key, l.failAt)]
      else hit + [Failure(l.key, l.failAt)]
  }

  lemma {:induction false} LoginOpsAgree(cfg: Config, ls: seq<LoginRuns.Login>)
    ensures After(cfg, LoginOps(cfg, ls)) == LoginRuns.After(cfg, ls)
  {
    hide HitStep, FailureStep, SuccessStep, After;
    if ls == [] {
      assert After(cfg, []) == EMPTY by { EmptyRun(cfg); }
    } else {
      var front, l := LoginOps(cfg, ls[..|ls| - 1]), ls[|ls| - 1];
      LoginOpsAgree(cfg, ls[..|ls| - 1]);
      AfterOne(cfg, front, Hit(l.key, l.hitAt));
      AfterOne(cfg, front + [Hit(l.key, l.hitAt)], Success(l.key, l.failAt));
      AfterOne(cfg, front + [Hit(l.key, l.hitAt)], Failure(l.key, l.failAt));
    }
  }

  lemma EmptyRun(cfg: Config)
    ensures After(cfg, []) == EMPTY
  {
  }

  lemma {:induction false} LoginOpsTimed(cfg: Config, ls: seq<LoginRuns.Login>, now: real)
    requires LoginRuns.Timed(ls) && LoginRuns.DoneBy(ls, now)
    ensures Timed(LoginOps(cfg, ls)) && StartsBy(LoginOps(cfg, ls), now)
  {
    hide HitStep, After;
    if ls != [] {
      LoginOpsTimed(cfg, ls[..|ls| - 1], ls[|ls| - 1].hitAt);
    }
  }

  /** The shortest lockout: the one imposed as soon as a streak reaches maxAttempts. */
  function FirstPenalty(cfg: Config): real {
    Min(cfg.lockoutBase, cfg.lockoutMax)
  }

  /**
    * The parameters for which one honoured wait is enough: no lockout is ever felt, or none is
    * shorter than the window, or the window is no longer than the least possible wait.
    */
  predicate OneWaitConfig(cfg: Config) {
    NeverBites(cfg) || FirstPenalty(cfg) >= cfg.window || cfg.window <= 1.0
  }

  /** No lockout is ever felt: it has no length, or no streak ever grows to be punished. */
  predicate NeverBites(cfg: Config) {
    FirstPenalty(cfg) <= 0.0 || (cfg.streakReset < 0.0 && cfg.maxAttempts >= 2)
  }

  ghost predicate Unbitten(s: Limiter, now: real) {
    && (forall k :: k in s.lockouts ==> s.lockouts[k] <= now)
    && (forall k :: k in s.streaks ==> s.streaks[k].last <= now)
  }

  lemma FailureKeepsUnbitten(cfg: Config, s: Limiter, key: string, now: real)
    requires NeverBites(cfg) && Unbitten(s, now)
    ensures Unbitten(FailureStep(cfg, s, key, now), now)
  {
    hide Penalty;
    var count := NextCount(cfg, StreaksAtFailure(cfg, s, now), key, now);
    if count >= cfg.maxAttempts {
      PenaltyRange(cfg, count);
    }
  }

  lemma {:induction false} RunIsUnbitten(cfg: Config, ls: seq<LoginRuns.Login>, now: real)
    requires NeverBites(cfg) && LoginRuns.Timed(ls) && LoginRuns.DoneBy(ls, now)
    ensures Unbitten(LoginRuns.After(cfg, ls), now)
  {
    hide HitStep, FailureStep, NeverBites;
    if ls != [] {
      var front, l := ls[..|ls| - 1], ls[|ls| - 1];
      var s := LoginRuns.After(cfg, front);
      RunIsUnbitten(cfg, front, l.hitAt);
      HitKeepsUnbitten(cfg, s, l.key, l.hitAt);
      FailureKeepsUnbitten(cfg, HitStep(cfg, s, l.key, l.hitAt).0, l.key, l.failAt);
    }
  }

  lemma HitKeepsUnbitten(cfg: Config, s: Limiter, key: string, now: real)
    requires Unbitten(s, now)
    ensures Unbitten(HitStep(cfg, s, key, now).0, now)
  {
    hide Expire, Ceil, PruneAttempts;
  }

  lemma {:induction false} Pow2Positive(n: nat)
    ensures Pow2(n) >= 1
  {
    if n > 0 {
      Pow2Positive(n - 1);
    }
  }

  lemma Scale(b: real, p: real) returns (full: real)
    requires p >= 1.0
    ensures full == b * p
    ensures b > 0.0 ==> full >= b
    ensures b <= 0.0 ==> full <= 0.0
  {
    full := b * p;
    if b > 0.0 {
      assert b * (p - 1.0) >= 0.0;
    } else {
      assert (0.0 - b) * p >= 0.0;
    }
  }

  lemma PenaltyRange(cfg: Config, count: nat)
    requires count >= cfg.maxAttempts
    ensures FirstPenalty(cfg) > 0.0 ==> Penalty(cfg, count) >= FirstPenalty(cfg)
    ensures FirstPenalty(cfg) <= 0.0 ==> Penalty(cfg, count) <= 0.0
    ensures count == cfg.maxAttempts ==> Penalty(cfg, count) == FirstPenalty(cfg)
  {
    var p := Pow2(count - cfg.maxAttempts) as real;
    Pow2Positive(count - cfg.maxAttempts);
    var full := Scale(cfg.lockoutBase, p);
    assert Penalty(cfg, count) == Min(full, cfg.lockoutMax);
  }

  /** A recorded lockout is over, or outlasts the window of everything accepted before it. */
  ghost predicate LockoutCovers(cfg: Config, s: Limiter, h: seq<real>, key: string, now: real) {
    key in s.lockouts ==>
      if FirstPenalty(cfg) <= 0.0 then s.lockouts[key] <= now
      else forall i :: 0 <= i < |h| ==> h[i] + FirstPenalty(cfg) <= s.lockouts[key]
  }

  lemma FailureCovers(cfg: Config, s: Limiter, h: seq<real>, failKey: string, key: string, now: real)
    requires LockoutCovers(cfg, s, h, key, now) && forall i :: 0 <= i < |h| ==> h[i] <= now
    ensures LockoutCovers(cfg, FailureStep(cfg, s, failKey, now), h, key, now)
  {
    hide Penalty, NextCount;
    var count := NextCount(cfg, StreaksAtFailure(cfg, s, now), failKey, now);
    if count >= cfg.maxAttempts {
      PenaltyRange(cfg, count);
    }
  }

  lemma HitCovers(cfg: Config, ops: seq<Op>, hitKey: string, key: string, now: real)
    requires LockoutCovers(cfg, After(cfg, ops), Accepted(cfg, ops, key), key, now)
    ensures var all := ops + [Hit(hitKey, now)];
            LockoutCovers(cfg, After(cfg, all), Accepted(cfg, all, key), key, now)
  {
    hide HitStep, After;
    AfterOne(cfg, ops, Hit(hitKey, now));
    HitKeepsLockout(cfg, After(cfg, ops), hitKey, key, now);
    assert (ops + [Hit(hitKey, now)])[..|ops|] == ops;
    HitAnswer(cfg, After(cfg, ops), hitKey, now);
  }

  lemma EmptyCovers(cfg: Config, key: string, now: real)
    ensures LockoutCovers(cfg, After(cfg, []), Accepted(cfg, [], key), key, now)
  {
  }

  lemma CoversLater(cfg: Config, s: Limiter, h: seq<real>, key: string, now: real, later: real)
    requires LockoutCovers(cfg, s, h, key, now) && now <= later
    ensures LockoutCovers(cfg, s, h, key, later)
  {
  }

  lemma AcceptedBy(cfg: Config, ops: seq<Op>, key: string, now: real)
    requires Timed(ops) && StartsBy(ops, now)
    ensures forall i :: 0 <= i < |Accepted(cfg, ops, key)| ==> Accepted(cfg, ops, key)[i] <= now
  {
    hide After, Accepted;
    RunKeepsQueueInv(cfg, ops, key, now);
  }

  lemma EndCovers(cfg: Config, ops: seq<Op>, op: Op, key: string)
    requires !op.Hit? && Timed(ops) && StartsBy(ops, op.now)
    requires LockoutCovers(cfg, After(cfg, ops), Accepted(cfg, ops, key), key, op.now)
    ensures LockoutCovers(cfg, After(cfg, ops + [op]), Accepted(cfg, ops + [op], key), key, op.now)
  {
    hide FailureStep, After, Timed;
    AfterOne(cfg, ops, op);
    assert (ops + [op])[..|ops|] == ops;
    if op.Failure? {
      AcceptedBy(cfg, ops, key, op.now);
      FailureCovers(cfg, After(cfg, ops), Accepted(cfg, ops, key), op.key, key, op.now);
    }
  }

  lemma {:induction false} RunCovers(cfg: Config, ls: seq<LoginRuns.Login>, key: string, now: real)
    requires LoginRuns.Timed(ls) && LoginRuns.DoneBy(ls, now)
    ensures var ops := LoginOps(cfg, ls);
            LockoutCovers(cfg, After(cfg, ops), Accepted(cfg, ops, key), key, now)
  {
    hide HitStep, FailureStep, After, LockoutCovers, Accepted;
    if ls == [] {
      EmptyCovers(cfg, key, now);
    } else {
      var front, l := LoginOps(cfg, ls[..|ls| - 1]), ls[|ls| - 1];
      var hit := front + [Hit(l.key, l.hitAt)];
      RunCovers(cfg, ls[..|ls| - 1], key, l.hitAt);
      LoginOpsTimed(cfg, ls[..|ls| - 1], l.hitAt);
      HitCovers(cfg, front, l.key, key, l.hitAt);
      CoversLater(cfg, After(cfg, hit), Accepted(cfg, hit, key), key, l.hitAt, l.failAt);
      EndCovers(cfg, hit, Success(l.key, l.failAt), key);
      EndCovers(cfg, hit, Failure(l.key, l.failAt), key);
      CoversLater(cfg, After(cfg, LoginOps(cfg, ls)), Accepted(cfg, LoginOps(cfg, ls), key), key, l.failAt, now);
    }
  }

  /** After any run of logins, a client that is turned away and waits as told is let in. */
  ghost predicate OneWaitSuffices(cfg: Config) {
    forall ls: seq<LoginRuns.Login>, key: string, t0: real, others: seq<Op>, t1: real ::
      && LoginRuns.Timed(ls) && LoginRuns.DoneBy(ls, t0) && NotOn(others, key)
      && Timed(Retried(LoginOps(cfg, ls), key, t0, others))
      && StartsBy(Retried(LoginOps(cfg, ls), key, t0, others), t1)
      && Answer(cfg, LoginOps(cfg, ls), key, t0).Some?
      && t1 >= t0 + Answer(cfg, LoginOps(cfg, ls), key, t0).value as real
      ==> Answer(cfg, Retried(LoginOps(cfg, ls), key, t0, others), key, t1) == None
  }

  lemma OneWait(cfg: Config, ls: seq<LoginRuns.Login>, key: string, t0: real, others: seq<Op>, t1: real)
    requires OneWaitConfig(cfg)
    requires LoginRuns.Timed(ls) && LoginRuns.DoneBy(ls, t0) && NotOn(others, key)
    requires var ops := LoginOps(cfg, ls);
             && Timed(Retried(ops, key, t0, others)) && StartsBy(Retried(ops, key, t0, others), t1)
             && Answer(cfg, ops, key, t0).Some? && t1 >= t0 + Answer(cfg, ops, key, t0).value as real
    ensures Answer(cfg, Retried(LoginOps(cfg, ls), key, t0, others), key, t1) == None
  {
    hide HitStep, Accepted, After, Timed, LoginOps;
    var ops := LoginOps(cfg, ls);
    var s, h := After(cfg, ops), Accepted(cfg, ops, key);
    TimedPrefix(ops, key, t0, others);
    RetryAtLeastOne(cfg, s, key, t0);
    if NeverBites(cfg) {
      RunIsUnbitten(cfg, ls, t0);
      LoginOpsAgree(cfg, ls);
    }
    if !LockedOut(s, key, t0) {
      WindowWait(cfg, ops, key, t0, others, t1);
    } else {
      HitExactly(cfg, ops, key, t0);
      RunCovers(cfg, ls, key, t0);
      AcceptedBy(cfg, ops, key, t0);
      RetryAnswer(cfg, ops, key, t0, others, t1);
    }
  }

  // ---- and the parameters for which it is not enough ----

  function Strikes(n: nat): seq<LoginRuns.Login> {
    seq(n, _ => LoginRuns.Login("x", 0.0, 0.0, false))
  }

  /** The limiter after n wrong passwords at time 0. */
  function Struck(cfg: Config, n: nat): Limiter
    requires n <= cfg.maxAttempts
  {
    if n == 0 then EMPTY
    else
      Limiter(
        map["x" := seq(n, _ => 0.0)],
        map["x" := Streak(n, 0.0)],
        if n == cfg.maxAttempts then map["x" := Penalty(cfg, n)] else map[])
  }

  lemma ExpireZeros(n: nat, cutoff: real)
    requires cutoff < 0.0
    ensures Expire(seq(n, _ => 0.0), cutoff) == seq(n, _ => 0.0)
  {
  }

  lemma StrikeHit(cfg: Config, n: nat)
    requires n < cfg.maxAttempts && cfg.window > 0.0
    ensures HitStep(cfg, Struck(cfg, n), "x", 0.0) ==
      (Struck(cfg, n).(attempts := map["x" := seq(n + 1, _ => 0.0)]), None)
  {
    hide Expire, Prune, Ceil, Penalty;
    var s := Struck(cfg, n);
    ExpireZeros(n, 0.0 - cfg.window);
    assert seq(n, _ => 0.0) + [0.0] == seq(n + 1, _ => 0.0);
    assert [0.0] == seq(1, _ => 0.0);
    assert s.lockouts - {"x"} == s.lockouts;
    assert s.attempts["x" := seq(n + 1, _ => 0.0)] == map["x" := seq(n + 1, _ => 0.0)];
  }

  lemma StrikeFailure(cfg: Config, n: nat)
    requires n < cfg.maxAttempts && (cfg.streakReset >= 0.0 || n == 0)
    ensures FailureStep(cfg, Struck(cfg, n).(attempts := map["x" := seq(n + 1, _ => 0.0)]), "x", 0.0)
      == Struck(cfg, n + 1)
  {
    hide PruneStreaks, Penalty;
    var s := Struck(cfg, n);
    assert s.streaks["x" := Streak(n + 1, 0.0)] == map["x" := Streak(n + 1, 0.0)];
    assert s.lockouts["x" := 0.0 + Penalty(cfg, cfg.maxAttempts)] == map["x" := Penalty(cfg, cfg.maxAttempts)];
  }

  lemma {:induction false} AfterStrikes(cfg: Config, n: nat)
    requires n <= cfg.maxAttempts && cfg.window > 0.0 && (cfg.streakReset >= 0.0 || n <= 1)
    ensures LoginRuns.After(cfg, Strikes(n)) == Struck(cfg, n)
  {
    hide HitStep, FailureStep, Struck;
    if n == 0 {
      assert Struck(cfg, 0) == EMPTY by { NotStruck(cfg); }
    } else {
      assert Strikes(n)[..n - 1] == Strikes(n - 1);
      AfterStrikes(cfg, n - 1);
      StrikeHit(cfg, n - 1);
      StrikeFailure(cfg, n - 1);
    }
  }

  lemma NotStruck(cfg: Config)
    ensures Struck(cfg, 0) == EMPTY
  {
  }

  /** The moment within the first lockout at which the stated wait falls shortest of the window. */
  function Impatient(cfg: Config): real {
    if FirstPenalty(cfg) >= 1.0 then FirstPenalty(cfg) - 1.0 else 0.0
  }

  lemma ImpatientHits(cfg: Config)
    requires !OneWaitConfig(cfg)
    ensures var (s', r) := HitStep(cfg, Struck(cfg, cfg.maxAttempts), "x", Impatient(cfg));
            && r == Some(1) && HitStep(cfg, s', "x", Impatient(cfg) + 1.0).1.Some?
  {
    hide Penalty, Expire, Ceil;
    var t0, m := Impatient(cfg), cfg.maxAttempts;
    var s := Struck(cfg, m);
    PenaltyRange(cfg, m);
    assert Ceil(FirstPenalty(cfg) - t0) == 1 by { CeilOne(FirstPenalty(cfg) - t0); }
    ExpireZeros(m, t0 + 1.0 - cfg.window);
  }

  lemma CeilOne(x: real)
    requires 0.0 < x <= 1.0
    ensures Ceil(x) == 1
  {
  }

  lemma TimedEnd(ops: seq<Op>, key: string, now: real)
    requires Timed(ops) && StartsBy(ops, now)
    ensures Timed(ops + [Hit(key, now)]) && StartsBy(ops + [Hit(key, now)], now + 1.0)
  {
  }

  lemma NotEnough(cfg: Config)
    requires !OneWaitConfig(cfg)
    ensures !OneWaitSuffices(cfg)
  {
    hide HitStep, After, LoginOps, Struck, Timed, StartsBy;
    var ls, t0 := Strikes(cfg.maxAttempts), Impatient(cfg);
    var ops := LoginOps(cfg, ls);
    AfterStrikes(cfg, cfg.maxAttempts);
    LoginOpsAgree(cfg, ls);
    LoginOpsTimed(cfg, ls, t0);
    ImpatientHits(cfg);
    AfterHit(cfg, ops, "x", t0);
    assert Retried(ops, "x", t0, []) == ops + [Hit("x", t0)];
    TimedEnd(ops, "x", t0);
    assert Answer(cfg, Retried(ops, "x", t0, []), "x", t0 + 1.0).Some?;
  }

  /**
    * Exactly when one honoured wait is enough after every run of logins. The parameters a lockout
    * must be compared with include lockoutMax: a base as long as the window is not enough, because
    * the lockout imposed is the smaller of the base and the maximum.
    */
  lemma OneWaitExactly(cfg: Config)
    ensures OneWaitSuffices(cfg) <==> OneWaitConfig(cfg)
  {
    hide Answer, After, LoginOps, Timed, OneWaitConfig;
    if OneWaitConfig(cfg) {
      forall ls: seq<LoginRuns.Login>, key: string, t0: real, others: seq<Op>, t1: real |
        && LoginRuns.Timed(ls) && LoginRuns.DoneBy(ls, t0) && NotOn(others, key)
        && Timed(Retried(LoginOps(cfg, ls), key, t0, others))
        && StartsBy(Retried(LoginOps(cfg, ls), key, t0, others), t1)
        && Answer(cfg, LoginOps(cfg, ls), key, t0).Some?
        && t1 >= t0 + Answer(cfg, LoginOps(cfg, ls), key, t0).value as real
        ensures Answer(cfg, Retried(LoginOps(cfg, ls), key, t0, others), key, t1) == None
      {
        OneWait(cfg, ls, key, t0, others, t1);
      }
    } else {
      NotEnough(cfg);
    }
  }
}

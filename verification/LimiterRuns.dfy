/** Runs of the rate limiter, and the bound they keep on accepted attempts. */
module LimiterRuns {
  import opened Wrappers
  import opened RateLimiter
  import opened IntSets

  datatype Op =
    | Hit(key: string, now: real)
    | Failure(key: string, now: real)
    | Success(key: string, now: real)

  function Step(cfg: Config, s: Limiter, op: Op): Limiter {
    match op
    case Hit(key, now) => HitStep(cfg, s, key, now).0
    case Failure(key, now) => FailureStep(cfg, s, key, now)
    case Success(key, _) => SuccessStep(s, key)
  }

  /** The limiter after a run that starts with an empty one. */
  function After(cfg: Config, ops: seq<Op>): Limiter {
    if ops == [] then EMPTY else Step(cfg, After(cfg, ops[..|ops| - 1]), ops[|ops| - 1])
  }

  lemma AfterOne(cfg: Config, ops: seq<Op>, op: Op)
    ensures After(cfg, ops + [op]) == Step(cfg, After(cfg, ops), op)
  {
    assert (ops + [op])[..|ops|] == ops;
  }

  /** The clock never runs backwards. */
  predicate Timed(ops: seq<Op>) {
    forall i, j :: 0 <= i < j < |ops| ==> ops[i].now <= ops[j].now
  }

  predicate StartsBy(ops: seq<Op>, now: real) {
    forall i :: 0 <= i < |ops| ==> ops[i].now <= now
  }

  /** The times of the attempts accepted for a key since its last success, oldest first. */
  function Accepted(cfg: Config, ops: seq<Op>, key: string): seq<real> {
    if ops == [] then []
    else
      var front, op := ops[..|ops| - 1], ops[|ops| - 1];
      var h := Accepted(cfg, front, key);
      if op.key != key then h
      else match op
        case Hit(_, now) => if HitStep(cfg, After(cfg, front), key, now).1.None? then h + [now] else h
        case Failure(_, _) => h
        case Success(_, _) => []
  }

  predicate Sorted(h: seq<real>) {
    forall i, j :: 0 <= i < j < |h| ==> h[i] <= h[j]
  }

  /** Any n + 1 consecutive times span at least w. */
  predicate Spaced(h: seq<real>, n: nat, w: real) {
    forall i :: 0 <= i && i + n < |h| ==> h[i + n] - h[i] >= w
  }

  /** The queue is the end of the history, cut where everything earlier has left the window. */
  ghost predicate QueueInv(cfg: Config, q: seq<real>, h: seq<real>, now: real) {
    && |q| <= |h| && q == h[|h| - |q|..] && |q| <= cfg.maxAttempts
    && Sorted(h) && (forall i :: 0 <= i < |h| ==> h[i] <= now)
    && (forall i :: 0 <= i < |h| - |q| ==> h[i] <= now - cfg.window)
    && Spaced(h, cfg.maxAttempts, cfg.window)
  }

  lemma QueueInvLater(cfg: Config, q: seq<real>, h: seq<real>, now: real, later: real)
    requires QueueInv(cfg, q, h, now) && now <= later
    ensures QueueInv(cfg, q, h, later)
  {
  }

  lemma QueueInvExpire(cfg: Config, q: seq<real>, h: seq<real>, now: real)
    requires QueueInv(cfg, q, h, now)
    ensures QueueInv(cfg, Expire(q, now - cfg.window), h, now)
  {
    hide Expire;
    var r := Expire(q, now - cfg.window);
    ExpireShape(q, now - cfg.window);
    assert r == h[|h| - |r|..];
    forall i | 0 <= i < |h| - |r| ensures h[i] <= now - cfg.window {
      if i >= |h| - |q| {
        assert h[i] == q[i - (|h| - |q|)];
      }
    }
  }

  lemma QueueInvAppend(cfg: Config, q: seq<real>, h: seq<real>, now: real)
    requires QueueInv(cfg, q, h, now) && |q| < cfg.maxAttempts
    ensures QueueInv(cfg, q + [now], h + [now], now)
  {
    var h' := h + [now];
    forall i | 0 <= i && i + cfg.maxAttempts < |h'| ensures h'[i + cfg.maxAttempts] - h'[i] >= cfg.window {
      if i + cfg.maxAttempts == |h| {
        assert i < |h| - |q|;
      }
    }
  }

  lemma QueueInvPruned(cfg: Config, q: seq<real>, h: seq<real>, now: real)
    requires QueueInv(cfg, q, h, now) && IsStaleQueue(q, now - cfg.window)
    ensures QueueInv(cfg, [], h, now)
  {
    if q != [] {
      assert q[|q| - 1] == h[|h| - 1];
    }
  }

  lemma ExpireNothing(cutoff: real)
    ensures Expire([], cutoff) == []
  {
  }

  /** What a hit can make of a queue: append to its live end, cut to it, prune it, or leave it. */
  lemma HitOnQueue(cfg: Config, s: Limiter, hitKey: string, key: string, now: real)
    ensures var (s', r) := HitStep(cfg, s, hitKey, now);
            var q := Queue(s, key);
            var live := Expire(q, now - cfg.window);
            if hitKey != key then
              || Queue(s', key) == q
              || Queue(s', key) == Queue(Prune(cfg, s.(lockouts := s.lockouts - {hitKey}), now), key)
            else if r.None? then |live| < cfg.maxAttempts && Queue(s', key) == live + [now]
            else Queue(s', key) == q || Queue(s', key) == live
  {
    hide Expire, Prune, Ceil, Crowded;
    ExpireNothing(now - cfg.window);
    assert [] + [now] == [now];
  }

  lemma PrunedQueueCases(cfg: Config, s: Limiter, key: string, now: real)
    ensures var q := Queue(Prune(cfg, s, now), key);
            q == Queue(s, key) || (q == [] && IsStaleQueue(Queue(s, key), now - cfg.window))
  {
  }

  lemma HitKeepsQueueInv(cfg: Config, s: Limiter, h: seq<real>, hitKey: string, key: string, now: real)
    requires QueueInv(cfg, Queue(s, key), h, now)
    ensures var (s', r) := HitStep(cfg, s, hitKey, now);
            QueueInv(cfg, Queue(s', key), if hitKey == key && r.None? then h + [now] else h, now)
  {
    hide Expire, QueueInv, HitStep, Prune, IsStaleQueue, Queue;
    var q := Queue(s, key);
    var live := Expire(q, now - cfg.window);
    QueueInvExpire(cfg, q, h, now);
    if |live| < cfg.maxAttempts {
      QueueInvAppend(cfg, live, h, now);
    }
    if IsStaleQueue(q, now - cfg.window) {
      QueueInvPruned(cfg, q, h, now);
    }
    SameQueue(s, hitKey, key);
    PrunedQueueCases(cfg, s.(lockouts := s.lockouts - {hitKey}), key, now);
    HitOnQueue(cfg, s, hitKey, key, now);
  }

  lemma SameQueue(s: Limiter, hitKey: string, key: string)
    ensures Queue(s.(lockouts := s.lockouts - {hitKey}), key) == Queue(s, key)
  {
  }

  /** In every run, the queue kept for a key is the live end of its history. */
  lemma {:induction false} RunKeepsQueueInv(cfg: Config, ops: seq<Op>, key: string, now: real)
    requires Timed(ops) && StartsBy(ops, now)
    ensures QueueInv(cfg, Queue(After(cfg, ops), key), Accepted(cfg, ops, key), now)
  {
    hide QueueInv, HitStep, Penalty;
    if ops == [] {
      EmptyQueueInv(cfg, now);
    } else {
      var front, op := ops[..|ops| - 1], ops[|ops| - 1];
      RunKeepsQueueInv(cfg, front, key, op.now);
      var s, h := After(cfg, front), Accepted(cfg, front, key);
      match op {
        case Hit(hitKey, t) => HitKeepsQueueInv(cfg, s, h, hitKey, key, t);
        case Failure(_, _) =>
        case Success(_, _) => EmptyQueueInv(cfg, now);
      }
      QueueInvLater(cfg, Queue(After(cfg, ops), key), Accepted(cfg, ops, key), op.now, now);
    }
  }

  lemma EmptyQueueInv(cfg: Config, now: real)
    ensures QueueInv(cfg, [], [], now)
  {
  }

  lemma FarApart(h: seq<real>, n: Pos, w: real, i: nat, j: nat)
    requires Sorted(h) && Spaced(h, n, w) && i + n <= j < |h|
    ensures h[j] - h[i] >= w
  {
    assert h[i + n] - h[i] >= w;
  }

  /** At most n of the times of a sorted, spaced history are pairwise closer than w. */
  lemma SpacedCount(h: seq<real>, n: Pos, w: real, inside: set<int>)
    requires Sorted(h) && Spaced(h, n, w)
    requires forall i :: i in inside ==> 0 <= i < |h|
    requires forall i, j :: i in inside && j in inside ==> h[j] - h[i] < w
    ensures |inside| <= n
  {
    var lo := 0;
    while lo < |h| && lo !in inside
      invariant 0 <= lo <= |h| && forall i :: i in inside ==> lo <= i
    {
      lo := lo + 1;
    }
    forall j | j in inside && lo + n <= j ensures h[j] - h[lo] >= w {
      FarApart(h, n, w, lo, j);
    }
    RangeSize(inside, lo, n);
  }

  /**
    * The sliding window: in every run, whatever the lockouts, rejections and prunes along the way,
    * at most maxAttempts attempts accepted since the key's last success fall into any half-open
    * interval as long as the window, open at either end.
    */
  lemma SlidingWindow(cfg: Config, ops: seq<Op>, key: string, a: real)
    requires Timed(ops)
    ensures var h := Accepted(cfg, ops, key);
            && |set i | 0 <= i < |h| && a < h[i] <= a + cfg.window| <= cfg.maxAttempts
            && |set i | 0 <= i < |h| && a <= h[i] < a + cfg.window| <= cfg.maxAttempts
  {
    var h := Accepted(cfg, ops, key);
    RunKeepsQueueInv(cfg, ops, key, if ops == [] then 0.0 else ops[|ops| - 1].now);
    SpacedCount(h, cfg.maxAttempts, cfg.window, set i | 0 <= i < |h| && a < h[i] <= a + cfg.window);
    SpacedCount(h, cfg.maxAttempts, cfg.window, set i | 0 <= i < |h| && a <= h[i] < a + cfg.window);
  }

  predicate LockedOut(s: Limiter, key: string, now: real) {
    key in s.lockouts && s.lockouts[key] > now
  }

  /** The window is full: the last maxAttempts accepted attempts are all still inside it. */
  predicate WindowFull(cfg: Config, h: seq<real>, now: real) {
    |h| >= cfg.maxAttempts && h[|h| - cfg.maxAttempts] > now - cfg.window
  }

  /**
    * Exactly when an attempt is turned away, in terms of the run and not of the queue: during a
    * lockout until it ends, and while the window is full until its oldest attempt leaves it.
    */
  lemma HitExactly(cfg: Config, ops: seq<Op>, key: string, now: real)
    requires Timed(ops) && StartsBy(ops, now)
    ensures var s, h := After(cfg, ops), Accepted(cfg, ops, key);
            HitStep(cfg, s, key, now).1 ==
            if LockedOut(s, key, now) then Some(Ceil(s.lockouts[key] - now))
            else if WindowFull(cfg, h, now) then Some(Ceil(h[|h| - cfg.maxAttempts] + cfg.window - now))
            else None
  {
    hide Expire, HitStep, QueueInv, Ceil, WindowFull, After, Accepted;
    var s, h := After(cfg, ops), Accepted(cfg, ops, key);
    RunKeepsQueueInv(cfg, ops, key, now);
    QueueInvExpire(cfg, Queue(s, key), h, now);
    ExpireShape(Queue(s, key), now - cfg.window);
    HitAnswer(cfg, s, key, now);
    FullQueue(cfg, Expire(Queue(s, key), now - cfg.window), h, now);
  }

  /** The answer of `hit`, read off the key's lockout and queue. */
  lemma HitAnswer(cfg: Config, s: Limiter, key: string, now: real)
    ensures var q := Expire(Queue(s, key), now - cfg.window);
            HitStep(cfg, s, key, now).1 ==
            if LockedOut(s, key, now) then Some(Ceil(s.lockouts[key] - now))
            else if |q| >= cfg.maxAttempts then Some(Ceil(q[0] + cfg.window - now))
            else None
  {
    hide Ceil, Prune, Expire, Crowded;
    ExpireNothing(now - cfg.window);
  }

  lemma FullQueue(cfg: Config, q: seq<real>, h: seq<real>, now: real)
    requires QueueInv(cfg, q, h, now) && (q != [] ==> q[0] > now - cfg.window)
    ensures |q| >= cfg.maxAttempts <==> WindowFull(cfg, h, now)
    ensures |q| >= cfg.maxAttempts ==> q[0] == h[|h| - cfg.maxAttempts]
  {
    if |h| >= cfg.maxAttempts && |q| < cfg.maxAttempts {
      assert h[|h| - cfg.maxAttempts] <= now - cfg.window;
    }
  }
}

/**
 * Per-caller admission control: one token bucket per (sender, category),
 * created full on first use, refilled continuously at the category's
 * per-minute limit (capped at one minute's worth) and drained by one token
 * per admitted request; buckets idle for too long are dropped.
 *
 * Time is a parameter `now` in seconds instead of a clock reading; token
 * levels are reals (no f32 rounding).
 */
module RateLimiter {
  import opened Text

  datatype LimitType = Tts | Ai | Audio | Listen

  type Key = (string, LimitType)

  /** `now.duration_since(since)` in seconds: saturates at zero when `since` is later. */
  function Elapsed(now: real, since: real): (e: real)
    ensures e >= 0.0
    ensures since <= now ==> since + e == now
  {
    if now >= since then now - since else 0.0
  }

  /** The level `refill` leaves: grown by elapsed·rate, never above capacity. */
  function Refilled(tokens: real, maxTokens: real, rate: real, elapsed: real): (r: real)
    ensures r <= maxTokens
    ensures r == maxTokens || r == tokens + elapsed * rate
    ensures rate >= 0.0 && elapsed >= 0.0 && tokens <= maxTokens ==> tokens <= r
    ensures elapsed == 0.0 && tokens <= maxTokens ==> r == tokens
  {
    Min(tokens + elapsed * rate, maxTokens)
  }

  class TokenBucket {
    var tokens: real
    var maxTokens: real
    /** Tokens per second. */
    var refillRate: real
    var lastUpdate: real

    ghost predicate Valid()
      reads this
    {
      0.0 <= tokens <= maxTokens && refillRate >= 0.0
    }

    /** `TokenBucket::new`: full, refilling a minute's limit over sixty seconds. */
    constructor (maxTokens: real, tokensPerMinute: real, now: real)
      ensures this.tokens == maxTokens && this.maxTokens == maxTokens
      ensures refillRate * 60.0 == tokensPerMinute && lastUpdate == now
    {
      tokens := maxTokens;
      this.maxTokens := maxTokens;
      refillRate := tokensPerMinute / 60.0;
      lastUpdate := now;
    }

    /** `refill`: the level grows with the time since the last update, capped; the update time moves to `now`. */
    method Refill(now: real)
      requires Valid()
      modifies this
      ensures Valid()
      ensures tokens == Refilled(old(tokens), maxTokens, refillRate, Elapsed(now, old(lastUpdate)))
      ensures old(tokens) <= tokens <= maxTokens
      ensures lastUpdate == now && maxTokens == old(maxTokens) && refillRate == old(refillRate)
    {
      var elapsed := Elapsed(now, lastUpdate);
      tokens := Min(tokens + elapsed * refillRate, maxTokens);
      lastUpdate := now;
    }

    /**
     * `try_consume`: refill, then take `amount` if that many are there. The
     * update time advances whether or not the request is admitted.
     */
    method TryConsume(amount: real, now: real) returns (ok: bool)
      requires Valid() && amount >= 0.0
      modifies this
      ensures Valid()
      ensures var level := Refilled(old(tokens), maxTokens, refillRate, Elapsed(now, old(lastUpdate)));
        && ok == (level >= amount)
        && tokens == (if ok then level - amount else level)
      ensures lastUpdate == now && maxTokens == old(maxTokens) && refillRate == old(refillRate)
    {
      Refill(now);
      if tokens >= amount {
        tokens := tokens - amount;
        ok := true;
      } else {
        ok := false;
      }
    }
  }

  /**
   * The admissions of `n` requests of one token each, in a row with no time
   * passing, from a bucket holding `level`.
   */
  function Burst(level: real, n: nat): (r: seq<bool>)
    ensures |r| == n
  {
    if n == 0 then []
    else if level >= 1.0 then [true] + Burst(level - 1.0, n - 1)
    else [false] + Burst(level, n - 1)
  }

  /** From a whole number `m` of tokens, exactly the first `m` of a burst are admitted. */
  lemma {:induction false} BurstAdmitsLevel(m: nat, n: nat)
    ensures Burst(m as real, n) == seq(n, i => i < m)
  {
    if n > 0 {
      if m >= 1 {
        BurstAdmitsLevel(m - 1, n - 1);
        assert (m - 1) as real == m as real - 1.0;
      } else {
        BurstAdmitsLevel(0, n - 1);
      }
    }
  }

  /** `as_secs() < max_age` on a non-negative duration is the same as "less than max_age seconds". */
  lemma WholeSecondsBelow(elapsed: real, maxAge: nat)
    requires elapsed >= 0.0
    ensures elapsed.Floor < maxAge <==> elapsed < maxAge as real
  {
    if elapsed.Floor < maxAge {
      assert elapsed < (elapsed.Floor + 1) as real;
      assert (elapsed.Floor + 1) as real <= maxAge as real;
    }
  }

  class Limiter {
    var buckets: map<Key, TokenBucket>
    const ttsPerMinute: real
    const aiPerMinute: real
    const audioPerMinute: real
    const listenPerMinute: real

    /** The per-minute limit of a category, which is also its bucket capacity. */
    function LimitFor(t: LimitType): (r: real)
      reads this
      ensures t == Tts ==> r == ttsPerMinute
      ensures t == Ai ==> r == aiPerMinute
      ensures t == Audio ==> r == audioPerMinute
      ensures t == Listen ==> r == listenPerMinute
    {
      match t
      case Tts => ttsPerMinute
      case Ai => aiPerMinute
      case Audio => audioPerMinute
      case Listen => listenPerMinute
    }

    /** Every bucket is well-formed, sized and paced for its category, and no two keys share one. */
    ghost predicate Valid()
      reads this, buckets.Values
    {
      && ttsPerMinute >= 0.0 && aiPerMinute >= 0.0 && audioPerMinute >= 0.0 && listenPerMinute >= 0.0
      && (forall k :: k in buckets ==>
            buckets[k].Valid() && buckets[k].maxTokens == LimitFor(k.1) && buckets[k].refillRate * 60.0 == LimitFor(k.1))
      && (forall k1, k2 :: k1 in buckets && k2 in buckets && k1 != k2 ==> buckets[k1] != buckets[k2])
    }

    /** `RateLimiter::new` with per-minute limits for TTS, AI, audio and listening. */
    constructor (tts: nat, ai: nat, audio: nat, listen: nat)
      ensures Valid() && buckets == map[]
      ensures ttsPerMinute == tts as real && aiPerMinute == ai as real
      ensures audioPerMinute == audio as real && listenPerMinute == listen as real
    {
      buckets := map[];
      ttsPerMinute := tts as real;
      aiPerMinute := ai as real;
      audioPerMinute := audio as real;
      listenPerMinute := listen as real;
    }

    /** `RateLimiter::default`: 30 TTS, 10 AI, 20 audio and 30 listen requests per minute. */
    constructor Default()
      ensures Valid() && buckets == map[]
      ensures LimitFor(Tts) == 30.0 && LimitFor(Ai) == 10.0 && LimitFor(Audio) == 20.0 && LimitFor(Listen) == 30.0
    {
      buckets := map[];
      ttsPerMinute := 30.0;
      aiPerMinute := 10.0;
      audioPerMinute := 20.0;
      listenPerMinute := 30.0;
    }

    /** The level `check` finds for `sender` in `category` at `now`, after refill; a bucket not yet created counts as full. */
    ghost function LevelAt(sender: string, category: LimitType, now: real): real
      reads this, buckets.Values
    {
      var key := (sender, category);
      if key in buckets then
        var b := buckets[key];
        Refilled(b.tokens, b.maxTokens, b.refillRate, Elapsed(now, b.lastUpdate))
      else LimitFor(category)
    }

    /**
     * Whether `check` would admit a request of `sender` in `category` at `now`.
     * A bucket with a limit of at least one is refilled by a whole token
     * 60/limit seconds after its last update, whatever its level was.
     */
    ghost function Admits(sender: string, category: LimitType, now: real): (r: bool)
      reads this, buckets.Values
      ensures r == (LevelAt(sender, category, now) >= 1.0)
      ensures (&& Valid() && LimitFor(category) >= 1.0 && (sender, category) in buckets
               && Elapsed(now, buckets[(sender, category)].lastUpdate) >= 60.0 / LimitFor(category)) ==> r
      ensures (sender, category) !in buckets ==> (r <==> LimitFor(category) >= 1.0)
    {
      var key := (sender, category);
      if key in buckets && Valid() && LimitFor(category) >= 1.0 && Elapsed(now, buckets[key].lastUpdate) >= 60.0 / LimitFor(category) then
        var b := buckets[key];
        RefillAfterWait(b.tokens, b.maxTokens, b.refillRate, Elapsed(now, b.lastUpdate));
        LevelAt(sender, category, now) >= 1.0
      else LevelAt(sender, category, now) >= 1.0
    }

    /**
     * `check`: admit one request of `sender` in `category` if its bucket has a
     * token, creating a full bucket on first use. No other bucket changes.
     */
    method Check(sender: string, category: LimitType, now: real) returns (ok: bool)
      requires Valid()
      modifies this, buckets.Values
      ensures Valid()
      ensures ok == old(Admits(sender, category, now))
      ensures buckets.Keys == old(buckets.Keys) + {(sender, category)}
      ensures forall k :: k in old(buckets) ==> buckets[k] == old(buckets[k])
      ensures forall k :: k in old(buckets) && k != (sender, category) ==> unchanged(old(buckets[k]))
      ensures (sender, category) !in old(buckets) ==>
        && fresh(buckets[(sender, category)])
        && ok == (LimitFor(category) >= 1.0)
        && buckets[(sender, category)].tokens == (if ok then LimitFor(category) - 1.0 else LimitFor(category))
      ensures (sender, category) in old(buckets) ==>
        var b := buckets[(sender, category)];
        var level := Refilled(old(b.tokens), b.maxTokens, b.refillRate, Elapsed(now, old(b.lastUpdate)));
        && ok == (level >= 1.0)
        && b.tokens == (if ok then level - 1.0 else level)
      ensures var b := buckets[(sender, category)];
        && b.tokens == (if ok then old(LevelAt(sender, category, now)) - 1.0 else old(LevelAt(sender, category, now)))
        && b.lastUpdate == now
        && b.maxTokens == LimitFor(category) && b.refillRate * 60.0 == LimitFor(category)
    {
      var limit := LimitFor(category);
      var key := (sender, category);
      var bucket: TokenBucket;
      if key in buckets {
        bucket := buckets[key];
      } else {
        bucket := new TokenBucket(limit, limit, now);
        buckets := buckets[key := bucket];
      }
      ok := bucket.TryConsume(1.0, now);
    }

    /** `remaining`: the level of a known bucket; for an unseen key the TTS limit, whatever the category. */
    function Remaining(sender: string, category: LimitType): (r: real)
      reads this, buckets.Values
      ensures (sender, category) !in buckets ==> r == ttsPerMinute
      ensures Valid() && (sender, category) in buckets ==> 0.0 <= r <= LimitFor(category)
    {
      if (sender, category) in buckets then buckets[(sender, category)].tokens else ttsPerMinute
    }

    /** `cleanup`: keeps exactly the buckets updated fewer than `maxAge` whole seconds before `now`. */
    method Cleanup(maxAge: nat, now: real)
      requires Valid()
      modifies this
      ensures Valid()
      ensures forall k :: k in buckets <==>
        k in old(buckets) && Elapsed(now, old(buckets)[k].lastUpdate) < maxAge as real
      ensures forall k :: k in buckets ==> buckets[k] == old(buckets)[k]
    {
      var all := buckets;
      var todo := all.Keys;
      var kept: map<Key, TokenBucket> := map[];
      while todo != {}
        invariant todo <= all.Keys
        invariant forall k :: k in kept <==>
          k in all && k !in todo && Elapsed(now, all[k].lastUpdate) < maxAge as real
        invariant forall k :: k in kept ==> kept[k] == all[k]
        decreases todo
      {
        var k :| k in todo;
        var age := Elapsed(now, all[k].lastUpdate);
        WholeSecondsBelow(age, maxAge);
        if age.Floor < maxAge {
          kept := kept[k := all[k]];
        }
        todo := todo - {k};
      }
      buckets := kept;
    }
  }

  /**
   * `n` checks in a row for a sender never seen before, with no time passing:
   * exactly the first L are admitted, L being the category's whole-number limit.
   */
  method CheckBurst(limiter: Limiter, sender: string, category: LimitType, now: real, n: nat, limit: nat)
    returns (results: seq<bool>)
    requires limiter.Valid() && (sender, category) !in limiter.buckets
    requires limiter.LimitFor(category) == limit as real
    modifies limiter, limiter.buckets.Values
    ensures results == seq(n, i => i < limit)
  {
    BurstAdmitsLevel(limit, n);
    if n == 0 {
      return [];
    }
    var first := FirstCheck(limiter, sender, category, now);
    var rest := RecheckBurst(limiter, sender, category, now, n - 1);
    results := [first] + rest;
    BurstStep([], limit as real, n);
    assert [] + Burst(limit as real, n) == Burst(limit as real, n);
  }

  /** The first `check` of a key: a full bucket is created, and one token taken if the limit allows. */
  method FirstCheck(limiter: Limiter, sender: string, category: LimitType, now: real) returns (ok: bool)
    requires limiter.Valid() && (sender, category) !in limiter.buckets
    modifies limiter, limiter.buckets.Values
    ensures limiter.Valid()
    ensures limiter.buckets.Keys == old(limiter.buckets.Keys) + {(sender, category)}
    ensures forall k :: k in old(limiter.buckets) ==> limiter.buckets[k] == old(limiter.buckets[k])
    ensures fresh(limiter.buckets[(sender, category)])
    ensures var b := limiter.buckets[(sender, category)];
      && ok == (limiter.LimitFor(category) >= 1.0)
      && b.tokens == (if ok then limiter.LimitFor(category) - 1.0 else limiter.LimitFor(category))
      && b.lastUpdate == now
  {
    ok := limiter.Check(sender, category, now);
  }

  /** `m` more checks of a key whose bucket was last updated at `now`: the burst from the bucket's current level. */
  method RecheckBurst(limiter: Limiter, sender: string, category: LimitType, now: real, m: nat)
    returns (results: seq<bool>)
    requires limiter.Valid() && (sender, category) in limiter.buckets
    requires limiter.buckets[(sender, category)].lastUpdate == now
    modifies limiter, limiter.buckets.Values
    ensures results == Burst(old(limiter.buckets[(sender, category)].tokens), m)
    decreases m
  {
    if m == 0 {
      return [];
    }
    var ok := RecheckAtSameTime(limiter, sender, category, now);
    var rest := RecheckBurst(limiter, sender, category, now, m - 1);
    results := [ok] + rest;
  }

  /** A `check` on a key whose bucket was last updated at `now`: no refill, one token taken if there is one. */
  method RecheckAtSameTime(limiter: Limiter, sender: string, category: LimitType, now: real) returns (ok: bool)
    requires limiter.Valid() && (sender, category) in limiter.buckets
    requires limiter.buckets[(sender, category)].lastUpdate == now
    modifies limiter, limiter.buckets.Values
    ensures limiter.Valid() && limiter.buckets == old(limiter.buckets)
    ensures var b := limiter.buckets[(sender, category)];
      && ok == (old(b.tokens) >= 1.0)
      && b.tokens == (if ok then old(b.tokens) - 1.0 else old(b.tokens))
      && b.lastUpdate == now
  {
    assert Elapsed(now, now) == 0.0;
    ok := limiter.Check(sender, category, now);
  }

  /** Waiting 60/capacity seconds at the bucket's pace refills at least one token, from any level. */
  lemma RefillAfterWait(tokens: real, maxTokens: real, rate: real, elapsed: real)
    requires 0.0 <= tokens && 1.0 <= maxTokens && rate * 60.0 == maxTokens
    requires elapsed >= 60.0 / maxTokens
    ensures Refilled(tokens, maxTokens, rate, elapsed) >= 1.0
  {
    assert rate == maxTokens / 60.0;
    assert elapsed * rate >= (60.0 / maxTokens) * (maxTokens / 60.0);
    assert (60.0 / maxTokens) * (maxTokens / 60.0) == 1.0;
  }

  /**
   * A check of a known sender made at least 60/limit seconds after its
   * bucket's last update is admitted, even when the bucket was drained.
   */
  method CheckAfterWait(limiter: Limiter, sender: string, category: LimitType, now: real) returns (ok: bool)
    requires limiter.Valid() && (sender, category) in limiter.buckets && limiter.LimitFor(category) >= 1.0
    requires Elapsed(now, limiter.buckets[(sender, category)].lastUpdate) >= 60.0 / limiter.LimitFor(category)
    modifies limiter, limiter.buckets.Values
    ensures ok
  {
    ok := limiter.Check(sender, category, now);
  }

  /** One more admission of a burst, moved from the pending part to the results. */
  lemma BurstStep(done: seq<bool>, level: real, m: nat)
    requires m > 0
    ensures done + Burst(level, m) ==
      (done + [level >= 1.0]) + Burst(if level >= 1.0 then level - 1.0 else level, m - 1)
  {
  }
}

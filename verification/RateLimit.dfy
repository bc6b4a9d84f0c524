/**
  The adaptive token bucket (`packages/queue/src/rate-limit.ts`).

  Tokens are reals, times are whole milliseconds on one clock. A stored key is visible
  until its expiry; `pexpire` is set by a take and by nothing else.
 */
module RateLimit {
  import opened Wrappers

  datatype BucketConfig = BucketConfig(capacity: real, refillWindowMs: real) {
    predicate Valid() {
      capacity > 0.0 && refillWindowMs > 0.0
    }

    function Rate(): real
      requires Valid()
    {
      capacity / refillWindowMs
    }

    function TtlMs(): int {
      Ceil(if refillWindowMs * 2.0 > 60_000.0 then refillWindowMs * 2.0 else 60_000.0)
    }
  }

  datatype Entry = Entry(tokens: real, updatedAt: int, expiresAt: Option<int>)

  datatype RateLimitResult = RateLimitResult(allowed: bool, retryAfterMs: int)

  function Ceil(x: real): (r: int)
    ensures r as real - 1.0 < x <= r as real
  {
    -((-x).Floor)
  }

  function RMin(a: real, b: real): real { if a < b then a else b }

  function RMax(a: real, b: real): real { if a < b then b else a }

  // ---------------------------------------------------------------- one key

  /** The key as the server reads it at `now`. */
  function Visible(e: Option<Entry>, now: int): Option<Entry> {
    match e
    case Some(x) => if x.expiresAt.Some? && x.expiresAt.value <= now then None else e
    case None => None
  }

  /** Tokens earned in `elapsed` milliseconds; none when the clock stands or runs backwards. */
  function Earned(c: BucketConfig, elapsed: int): (r: real)
    requires c.Valid()
    ensures r >= 0.0
  {
    if elapsed <= 0 then 0.0 else
      assert elapsed as real * c.Rate() >= 0.0 by { Positive(elapsed as real, c); }
      elapsed as real * c.Rate()
  }

  lemma Positive(x: real, c: BucketConfig)
    requires c.Valid()
    ensures c.Rate() > 0.0 && (x >= 0.0 ==> x * c.Rate() >= 0.0)
  {
    assert c.Rate() * c.refillWindowMs == c.capacity;
  }

  /** Tokens a take at `now` finds, after continuous refill capped at capacity. */
  function Available(c: BucketConfig, e: Option<Entry>, now: int): real
    requires c.Valid()
  {
    match Visible(e, now)
    case None => c.capacity
    case Some(x) => RMin(c.capacity, x.tokens + Earned(c, now - x.updatedAt))
  }

  function TakeEntry(c: BucketConfig, e: Option<Entry>, cost: real, now: int): (Entry, RateLimitResult)
    requires c.Valid()
  {
    var tokens := Available(c, e, now);
    Positive(0.0, c);
    if tokens < cost then
      (Entry(tokens, now, Some(now + c.TtlMs())), RateLimitResult(false, Ceil((cost - tokens) / c.Rate())))
    else
      (Entry(tokens - cost, now, Some(now + c.TtlMs())), RateLimitResult(true, 0))
  }

  /** Linear from all at half usage down to nothing at full usage. */
  function AllowedFraction(usage: real): real {
    RMax(0.0, (1.0 - usage) * 2.0)
  }

  function WholeShare(capacity: real, fraction: real): real {
    (capacity * fraction).Floor as real
  }

  /** Tokens left to a bucket by a usage report: all below half, falling to none at full usage. */
  function UsageCeiling(c: BucketConfig, usage: real): Option<real> {
    var clamped := RMin(RMax(usage, 0.0), 1.0);
    if clamped < 0.5 then None
    else Some(WholeShare(c.capacity, AllowedFraction(clamped)))
  }

  function NarrowEntry(c: BucketConfig, e: Option<Entry>, usage: real, now: int): Option<Entry> {
    match UsageCeiling(c, usage)
    case None => e
    case Some(ceiling) =>
      var stored := Visible(e, now);
      var current := if stored.Some? then stored.value.tokens else c.capacity;
      if current <= ceiling then e
      else Some(Entry(ceiling, now, if stored.Some? then stored.value.expiresAt else None))
  }

  // ---------------------------------------------------------------- the store

  function Lookup(entries: map<string, Entry>, key: string): Option<Entry> {
    if key in entries then Some(entries[key]) else None
  }

  class RateLimiter {
    var entries: map<string, Entry>

    constructor ()
      ensures entries == map[]
    {
      entries := map[];
    }

    method TakeToken(key: string, config: BucketConfig, cost: real, now: int) returns (r: RateLimitResult)
      requires config.Valid()
      modifies this
      ensures entries == old(entries)[key := TakeEntry(config, Lookup(old(entries), key), cost, now).0]
      ensures r == TakeEntry(config, Lookup(old(entries), key), cost, now).1
    {
      Positive(0.0, config);
      var tokens, updatedAt := config.capacity, now;
      var bucket := Visible(Lookup(entries, key), now);
      if bucket.Some? {
        tokens, updatedAt := bucket.value.tokens, bucket.value.updatedAt;
      }
      var elapsed := if now - updatedAt > 0 then now - updatedAt else 0;
      tokens := RMin(config.capacity, tokens + elapsed as real * config.Rate());
      var expiry := Some(now + config.TtlMs());
      if tokens < cost {
        entries := entries[key := Entry(tokens, now, expiry)];
        r := RateLimitResult(false, Ceil((cost - tokens) / config.Rate()));
      } else {
        entries := entries[key := Entry(tokens - cost, now, expiry)];
        r := RateLimitResult(true, 0);
      }
    }

    method ApplyProviderUsage(key: string, usage: real, config: BucketConfig, now: int)
      modifies this
      ensures Lookup(entries, key) == NarrowEntry(config, Lookup(old(entries), key), usage, now)
      ensures entries - {key} == old(entries) - {key}
    {
      var limit := UsageCeiling(config, usage);
      if limit.None? {
        return;
      }
      var ceiling := limit.value;
      var bucket := Visible(Lookup(entries, key), now);
      var current := if bucket.Some? then bucket.value.tokens else config.capacity;
      if current <= ceiling {
        return;
      }
      var expiry := if bucket.Some? then bucket.value.expiresAt else None;
      entries := entries[key := Entry(ceiling, now, expiry)];
    }
  }

  // ---------------------------------------------------------------- runs of one key

  datatype Event = Take(cost: real, at: int) | Narrow(usage: real, at: int)

  function Step(c: BucketConfig, e: Option<Entry>, ev: Event): Option<Entry>
    requires c.Valid()
  {
    match ev
    case Take(cost, at) => Some(TakeEntry(c, e, cost, at).0)
    case Narrow(usage, at) => NarrowEntry(c, e, usage, at)
  }

  /** Cost granted by one event: nothing unless it is a take that is allowed. */
  function Granted(c: BucketConfig, e: Option<Entry>, ev: Event): real
    requires c.Valid()
  {
    if ev.Take? && TakeEntry(c, e, ev.cost, ev.at).1.allowed then ev.cost else 0.0
  }

  /** Times do not go back, and none precedes `clock`. */
  ghost predicate Ordered(events: seq<Event>, clock: int) {
    events == [] || (clock <= events[0].at && Ordered(events[1..], events[0].at))
  }

  /** Cost granted between `s` and `t` inclusive over a run. */
  function GrantedIn(c: BucketConfig, e: Option<Entry>, events: seq<Event>, s: int, t: int): real
    requires c.Valid()
    decreases events
  {
    hide Granted, Step;
    if events == [] then 0.0 else
      var ev := events[0];
      (if s <= ev.at <= t then Granted(c, e, ev) else 0.0) + GrantedIn(c, Step(c, e, ev), events[1..], s, t)
  }

  // ---------------------------------------------------------------- the ideal bucket

  /** A bucket that is never narrowed and never forgotten: `tokens` after its last grant, at time `at`. */
  datatype Ideal = Ideal(tokens: real, at: int)

  function IdealAvailable(c: BucketConfig, v: Ideal, now: int): real
    requires c.Valid()
  {
    RMin(c.capacity, v.tokens + Earned(c, now - v.at))
  }

  function IdealStep(c: BucketConfig, v: Ideal, granted: Option<real>, now: int): Ideal
    requires c.Valid()
  {
    if granted.Some? then Ideal(IdealAvailable(c, v, now) - granted.value, now) else v
  }

  lemma EarnedAdds(c: BucketConfig, a: int, b: int)
    requires c.Valid() && a >= 0 && b >= 0
    ensures Earned(c, a + b) == Earned(c, a) + Earned(c, b)
  {
    var r := c.Rate();
    assert (a + b) as real * r == a as real * r + b as real * r;
  }

  /** The refill fills the whole capacity in one window. */
  lemma EarnedIs(c: BucketConfig, elapsed: int)
    requires c.Valid() && elapsed >= 0
    ensures Earned(c, elapsed) * c.refillWindowMs == c.capacity * elapsed as real
  {
    var r, w, n := c.Rate(), c.refillWindowMs, elapsed as real;
    assert r * w == c.capacity;
    assert Earned(c, elapsed) == n * r;
    assert n * r * w == n * (r * w);
  }

  lemma EarnedGrows(c: BucketConfig, a: int, b: int)
    requires c.Valid() && a <= b
    ensures Earned(c, a) <= Earned(c, b)
  {
    if a > 0 {
      EarnedAdds(c, a, b - a);
    }
  }

  /** A key outlives the time an empty bucket takes to fill. */
  lemma TtlRefills(c: BucketConfig, elapsed: int)
    requires c.Valid() && elapsed >= c.TtlMs()
    ensures Earned(c, elapsed) >= c.capacity
  {
    var w, r := c.refillWindowMs, c.Rate();
    assert w * r == c.capacity;
    Positive(elapsed as real - w, c);
    assert elapsed as real * r == w * r + (elapsed as real - w) * r;
  }

  /** What the stored key can never exceed, at `clock` and from then on. */
  ghost predicate Below(c: BucketConfig, e: Option<Entry>, v: Ideal, clock: int)
    requires c.Valid()
  {
    && v.tokens >= 0.0 && v.at <= clock
    && match e
       case None => v.tokens + Earned(c, clock - v.at) >= c.capacity
       case Some(x) =>
         && x.updatedAt <= clock
         && (v.tokens + Earned(c, clock - v.at) >= c.capacity
             || x.tokens + Earned(c, clock - x.updatedAt) <= v.tokens + Earned(c, clock - v.at))
         && (x.expiresAt.Some? ==> v.tokens + Earned(c, x.expiresAt.value - v.at) >= c.capacity)
  }

  lemma BelowLater(c: BucketConfig, e: Option<Entry>, v: Ideal, clock: int, now: int)
    requires c.Valid() && Below(c, e, v, clock) && clock <= now
    ensures Below(c, e, v, now)
    ensures Available(c, e, now) <= IdealAvailable(c, v, now)
    ensures IdealAvailable(c, v, now) <= IdealAvailable(c, v, clock) + Earned(c, now - clock)
  {
    EarnedAdds(c, clock - v.at, now - clock);
    if e.Some? {
      EarnedAdds(c, clock - e.value.updatedAt, now - clock);
      if e.value.expiresAt.Some? && e.value.expiresAt.value <= now {
        EarnedGrows(c, e.value.expiresAt.value - v.at, now - v.at);
      }
    }
  }

  function GrantOf(c: BucketConfig, e: Option<Entry>, ev: Event): Option<real>
    requires c.Valid()
  {
    if ev.Take? && TakeEntry(c, e, ev.cost, ev.at).1.allowed then Some(ev.cost) else None
  }

  /** Every event keeps the stored key below the ideal bucket that makes the same grants. */
  lemma StepKeepsBelow(c: BucketConfig, e: Option<Entry>, v: Ideal, clock: int, ev: Event)
    requires c.Valid() && Below(c, e, v, clock) && clock <= ev.at
    ensures Below(c, Step(c, e, ev), IdealStep(c, v, GrantOf(c, e, ev), ev.at), ev.at)
  {
    BelowLater(c, e, v, clock, ev.at);
    match ev
    case Take(cost, at) =>
      TtlRefills(c, c.TtlMs());
      EarnedAdds(c, at - v.at, c.TtlMs());
    case Narrow(usage, at) =>
  }

  /** A take is paid for by the ideal bucket. */
  lemma GrantIsPaid(c: BucketConfig, e: Option<Entry>, v: Ideal, clock: int, ev: Event)
    requires c.Valid() && Below(c, e, v, clock) && clock <= ev.at
    ensures var v' := IdealStep(c, v, GrantOf(c, e, ev), ev.at);
      0.0 <= IdealAvailable(c, v', ev.at) && Granted(c, e, ev) + IdealAvailable(c, v', ev.at) <= IdealAvailable(c, v, ev.at)
  {
    BelowLater(c, e, v, clock, ev.at);
  }

  lemma {:induction false} NothingAfter(c: BucketConfig, e: Option<Entry>, events: seq<Event>, clock: int, s: int, t: int)
    requires c.Valid() && Ordered(events, clock) && t < clock
    ensures GrantedIn(c, e, events, s, t) == 0.0
    decreases events
  {
    if events != [] {
      NothingAfter(c, Step(c, e, events[0]), events[1..], events[0].at, s, t);
    }
  }

  lemma {:induction false} BoundFrom(c: BucketConfig, e: Option<Entry>, v: Ideal, clock: int, events: seq<Event>, s: int, t: int)
    requires c.Valid() && Below(c, e, v, clock) && Ordered(events, clock) && s <= t
    ensures clock <= s ==> GrantedIn(c, e, events, s, t) <= c.capacity + Earned(c, t - s)
    ensures s <= clock <= t ==> GrantedIn(c, e, events, s, t) <= IdealAvailable(c, v, clock) + Earned(c, t - clock)
    decreases events
  {
    hide Below, Step, IdealStep, Granted, GrantOf, IdealAvailable, Earned;
    if events == [] {
      BelowLater(c, e, v, clock, clock);
      NonNegative(c, v, clock, e);
    } else {
      var ev := events[0];
      var n := ev.at;
      var e', v' := Step(c, e, ev), IdealStep(c, v, GrantOf(c, e, ev), n);
      NonNegative(c, v, clock, e);
      if n > t {
        NothingAfter(c, e, events, n, s, t);
      } else {
        BelowLater(c, e, v, clock, n);
        StepKeepsBelow(c, e, v, clock, ev);
        GrantIsPaid(c, e, v, clock, ev);
        BoundFrom(c, e', v', n, events[1..], s, t);
        AtMostFull(c, v, n);
        if s <= n {
          if clock <= s {
            EarnedAdds(c, n - s, t - n);
          } else {
            EarnedAdds(c, n - clock, t - n);
          }
        }
      }
    }
  }

  lemma AtMostFull(c: BucketConfig, v: Ideal, now: int)
    requires c.Valid()
    ensures IdealAvailable(c, v, now) <= c.capacity
  {
  }

  lemma NonNegative(c: BucketConfig, v: Ideal, clock: int, e: Option<Entry>)
    requires c.Valid() && Below(c, e, v, clock)
    ensures 0.0 <= IdealAvailable(c, v, clock)
  {
  }

  /**
    However takes, narrowings and expiries interleave, the cost granted in any window is at most a full
    bucket plus what the window refills.
   */
  lemma WindowBound(c: BucketConfig, events: seq<Event>, clock: int, s: int, t: int)
    requires c.Valid() && Ordered(events, clock) && s <= t
    ensures GrantedIn(c, None, events, s, t) <= c.capacity + Earned(c, t - s)
    ensures GrantedIn(c, None, events, s, t) * c.refillWindowMs <= c.capacity * (c.refillWindowMs + (t - s) as real)
  {
    hide GrantedIn, Earned, Ordered, Below, IdealAvailable;
    var v := Ideal(c.capacity, clock);
    assert Below(c, None, v, clock) by { FullIsBelow(c, clock); }
    BoundFrom(c, None, v, clock, events, s, t);
    if t < clock {
      NothingAfter(c, None, events, clock, s, t);
      NoneEarned(c, t - s);
    } else if s < clock {
      AtMostFull(c, v, clock);
      EarnedGrows(c, t - clock, t - s);
    }
    EarnedIs(c, t - s);
    Scaled(GrantedIn(c, None, events, s, t), c.capacity + Earned(c, t - s), c.refillWindowMs);
    Product(c.capacity, Earned(c, t - s), c.refillWindowMs);
    Product(c.refillWindowMs, (t - s) as real, c.capacity);
  }

  lemma FullIsBelow(c: BucketConfig, clock: int)
    requires c.Valid()
    ensures Below(c, None, Ideal(c.capacity, clock), clock)
  {
  }

  lemma NoneEarned(c: BucketConfig, elapsed: int)
    requires c.Valid()
    ensures Earned(c, elapsed) >= 0.0
  {
  }

  lemma Scaled(a: real, b: real, w: real)
    requires a <= b && w > 0.0
    ensures a * w <= b * w
  {
    assert (b - a) * w >= 0.0;
    Product(b, -a, w);
    assert -a * w == -(a * w);
  }

  lemma Product(a: real, b: real, w: real)
    ensures (a + b) * w == a * w + b * w
  {
  }

  lemma GrantedCons(c: BucketConfig, e: Option<Entry>, ev: Event, rest: seq<Event>, s: int, t: int)
    requires c.Valid()
    ensures GrantedIn(c, e, [ev] + rest, s, t) ==
      (if s <= ev.at <= t then Granted(c, e, ev) else 0.0) + GrantedIn(c, Step(c, e, ev), rest, s, t)
    ensures GrantedIn(c, e, [], s, t) == 0.0
  {
    hide Granted, Step;
    assert ([ev] + rest)[1..] == rest;
  }

  /** The bound is met: a full bucket is spent at the start of a window no longer than the refill's, and what the window refilled at its end. */
  lemma {:induction false} BoundIsMet(c: BucketConfig, s: int, t: int)
    requires c.Valid() && s < t && Earned(c, t - s) <= c.capacity
    ensures
      var events := [Take(c.capacity, s), Take(Earned(c, t - s), t)];
      Ordered(events, s) && GrantedIn(c, None, events, s, t) == c.capacity + Earned(c, t - s)
  {
    hide Earned, TakeEntry, GrantedIn, Covers;
    var first, second := Take(c.capacity, s), Take(Earned(c, t - s), t);
    TwoGranted(c, first, second, s, t);
    OrderedTwo(first, second);
    MissingIsFull(c, c.capacity, s);
    RefillsExactly(c, None, c.capacity, s, Earned(c, t - s), t);
    CoversIff(c, 0.0, t - s, Earned(c, t - s));
  }

  lemma OrderedTwo(first: Event, second: Event)
    requires first.at <= second.at
    ensures Ordered([first, second], first.at)
  {
    var events := [first, second];
    assert events[1..] == [second] && [second][1..] == [];
    assert Ordered([second][1..], second.at);
    assert Ordered(events[1..], first.at);
  }

  lemma TwoGranted(c: BucketConfig, first: Event, second: Event, s: int, t: int)
    requires c.Valid() && s <= first.at <= t && s <= second.at <= t
    ensures GrantedIn(c, None, [first, second], s, t) == Granted(c, None, first) + Granted(c, Step(c, None, first), second)
  {
    hide Granted, Step;
    assert [first] + [second] == [first, second] && [second] + [] == [second];
    GrantedCons(c, None, first, [second], s, t);
    GrantedCons(c, Step(c, None, first), second, [], s, t);
  }

  // ---------------------------------------------------------------- the numbers written out

  /** `tokens` and what refills in `elapsed` reach a cost within capacity. */
  predicate Covers(c: BucketConfig, tokens: real, elapsed: int, cost: real) {
    cost <= c.capacity && (cost - tokens) * c.refillWindowMs <= c.capacity * elapsed as real
  }

  lemma CoversIff(c: BucketConfig, tokens: real, elapsed: int, cost: real)
    requires c.Valid() && elapsed >= 0
    ensures Covers(c, tokens, elapsed, cost) <==> cost <= RMin(c.capacity, tokens + Earned(c, elapsed))
  {
    hide Earned;
    EarnedIs(c, elapsed);
    var gap, earned, w := cost - tokens, Earned(c, elapsed), c.refillWindowMs;
    if gap <= earned { Scaled(gap, earned, w); } else { Grows(earned, gap, w); }
  }

  /** A missing key grants any cost within capacity. */
  lemma MissingIsFull(c: BucketConfig, cost: real, now: int)
    requires c.Valid()
    ensures TakeEntry(c, None, cost, now).1.allowed <==> cost <= c.capacity
    ensures cost <= c.capacity ==> TakeEntry(c, None, cost, now).0.tokens == c.capacity - cost
  {
  }

  /**
    After a take at `a`, whatever it left is granted at `t` exactly with what refills at capacity per window:
    an emptied bucket grants half its capacity after half a window, and no sooner. The key's expiry adds nothing.
   */
  lemma RefillsExactly(c: BucketConfig, e: Option<Entry>, spent: real, a: int, cost: real, t: int)
    requires c.Valid() && a <= t && TakeEntry(c, e, spent, a).0.tokens >= 0.0
    ensures
      var left := TakeEntry(c, e, spent, a).0;
      TakeEntry(c, Some(left), cost, t).1.allowed <==> Covers(c, left.tokens, t - a, cost)
  {
    hide Earned, Covers, Available;
    var left := TakeEntry(c, e, spent, a).0;
    CoversIff(c, left.tokens, t - a, cost);
    assert left.updatedAt == a && left.expiresAt == Some(a + c.TtlMs());
    if t - a >= c.TtlMs() { TtlRefills(c, t - a); }
    assert Available(c, Some(left), t) == RMin(c.capacity, left.tokens + Earned(c, t - a)) by { AvailableIs(c, left, t); }
  }

  lemma AvailableIs(c: BucketConfig, x: Entry, t: int)
    requires c.Valid() && x.tokens >= 0.0
    requires x.expiresAt.Some? && x.expiresAt.value <= t ==> Earned(c, t - x.updatedAt) >= c.capacity
    ensures Available(c, Some(x), t) == RMin(c.capacity, x.tokens + Earned(c, t - x.updatedAt))
  {
    hide Earned;
  }

  /** A refusal's wait is the least number of milliseconds that refills what is missing. */
  lemma RetryIsLeast(c: BucketConfig, e: Option<Entry>, cost: real, now: int, wait: int)
    requires c.Valid() && (e.Some? ==> e.value.tokens >= 0.0) && !TakeEntry(c, e, cost, now).1.allowed && wait >= 0
    ensures
      var (left, r) := TakeEntry(c, e, cost, now);
      wait >= r.retryAfterMs <==> (cost - left.tokens) * c.refillWindowMs <= c.capacity * wait as real
  {
    hide Earned;
    var (left, r) := TakeEntry(c, e, cost, now);
    assert left.tokens >= 0.0;
    WaitIsExact(c, left.tokens, cost, wait);
    EarnedIs(c, wait);
    var gap, earned, w := cost - left.tokens, Earned(c, wait), c.refillWindowMs;
    if gap <= earned { Scaled(gap, earned, w); } else { Grows(earned, gap, w); }
  }

  /** The key is gone once two windows and a minute have passed since the last take, and not before. */
  lemma KeyOutlives(c: BucketConfig, e: Option<Entry>, cost: real, now: int, t: int)
    requires c.Valid() && now <= t
    ensures Visible(Some(TakeEntry(c, e, cost, now).0), t).Some? <==> (t - now) as real < 2.0 * c.refillWindowMs || t - now < 60_000
  {
    hide Available;
    var ttl := if c.refillWindowMs * 2.0 > 60_000.0 then c.refillWindowMs * 2.0 else 60_000.0;
    CeilOrder(ttl, t - now);
  }

  /** A report of half or more leaves the whole tokens of twice the share that is free; of less, everything. */
  lemma CeilingIs(c: BucketConfig, usage: real)
    requires c.Valid()
    ensures UsageCeiling(c, usage).None? <==> usage < 0.5
    ensures usage >= 1.0 ==> UsageCeiling(c, usage) == Some(0.0)
    ensures 0.5 <= usage <= 1.0 ==>
      var ceiling := UsageCeiling(c, usage).value;
      ceiling == ceiling.Floor as real && ceiling <= c.capacity * (2.0 - 2.0 * usage) < ceiling + 1.0
  {
    if 0.5 <= usage <= 1.0 {
      assert AllowedFraction(usage) == 2.0 - 2.0 * usage;
    }
  }

  // ---------------------------------------------------------------- takes alone: expiry cannot be told

  /** Whether each take of a run is allowed. */
  function Answers(c: BucketConfig, e: Option<Entry>, takes: seq<(real, int)>): seq<bool>
    requires c.Valid()
    decreases takes
  {
    if takes == [] then [] else
      var (entry, r) := TakeEntry(c, e, takes[0].0, takes[0].1);
      [r.allowed] + Answers(c, Some(entry), takes[1..])
  }

  /** The same for a bucket that never expires and is written by grants only. */
  function IdealAnswers(c: BucketConfig, v: Ideal, takes: seq<(real, int)>): seq<bool>
    requires c.Valid()
    decreases takes
  {
    if takes == [] then [] else
      var (cost, now) := takes[0];
      var allowed := cost <= IdealAvailable(c, v, now);
      [allowed] + IdealAnswers(c, IdealStep(c, v, if allowed then Some(cost) else None, now), takes[1..])
  }

  ghost predicate TakesOrdered(takes: seq<(real, int)>, clock: int) {
    takes == [] || (clock <= takes[0].1 && TakesOrdered(takes[1..], takes[0].1))
  }

  /** The stored key holds exactly what the ideal bucket does, at `clock` and from then on. */
  ghost predicate Same(c: BucketConfig, e: Option<Entry>, v: Ideal, clock: int)
    requires c.Valid()
  {
    && v.tokens >= 0.0 && v.at <= clock
    && match e
       case None => v.tokens + Earned(c, clock - v.at) >= c.capacity
       case Some(x) =>
         && x.updatedAt <= clock
         && RMin(c.capacity, x.tokens + Earned(c, clock - x.updatedAt)) == IdealAvailable(c, v, clock)
         && (x.expiresAt.Some? ==> v.tokens + Earned(c, x.expiresAt.value - v.at) >= c.capacity)
  }

  lemma SameLater(c: BucketConfig, e: Option<Entry>, v: Ideal, clock: int, now: int)
    requires c.Valid() && Same(c, e, v, clock) && clock <= now
    ensures Same(c, e, v, now) && Available(c, e, now) == IdealAvailable(c, v, now)
  {
    EarnedAdds(c, clock - v.at, now - clock);
    if e.Some? {
      EarnedAdds(c, clock - e.value.updatedAt, now - clock);
      if e.value.expiresAt.Some? && e.value.expiresAt.value <= now {
        EarnedGrows(c, e.value.expiresAt.value - v.at, now - v.at);
      }
    }
  }

  lemma TakeKeepsSame(c: BucketConfig, e: Option<Entry>, v: Ideal, cost: real, now: int)
    requires c.Valid() && Same(c, e, v, now) && Available(c, e, now) == IdealAvailable(c, v, now)
    ensures Same(c, Some(TakeEntry(c, e, cost, now).0),
                 IdealStep(c, v, if cost <= IdealAvailable(c, v, now) then Some(cost) else None, now), now)
  {
    TtlRefills(c, c.TtlMs());
    EarnedAdds(c, now - v.at, c.TtlMs());
  }

  /** Without usage reports the stored, expiring bucket answers every run as the ideal bucket does. */
  lemma {:induction false} TakesRefineIdeal(c: BucketConfig, e: Option<Entry>, v: Ideal, clock: int, takes: seq<(real, int)>)
    requires c.Valid() && Same(c, e, v, clock) && TakesOrdered(takes, clock)
    ensures Answers(c, e, takes) == IdealAnswers(c, v, takes)
    decreases takes
  {
    hide Same, IdealAvailable, IdealStep, Available;
    if takes != [] {
      var (cost, now) := takes[0];
      SameLater(c, e, v, clock, now);
      TakeKeepsSame(c, e, v, cost, now);
      var allowed := cost <= IdealAvailable(c, v, now);
      TakesRefineIdeal(c, Some(TakeEntry(c, e, cost, now).0),
                       IdealStep(c, v, if allowed then Some(cost) else None, now), now, takes[1..]);
    }
  }

  lemma FreshKeyIsIdeal(c: BucketConfig, clock: int, takes: seq<(real, int)>)
    requires c.Valid() && TakesOrdered(takes, clock)
    ensures Answers(c, None, takes) == IdealAnswers(c, Ideal(c.capacity, clock), takes)
  {
    TakesRefineIdeal(c, None, Ideal(c.capacity, clock), clock, takes);
  }

  // ---------------------------------------------------------------- how long to wait

  /** The key after a run of polls. */
  function AfterPolls(c: BucketConfig, e: Option<Entry>, polls: seq<(real, int)>): Option<Entry>
    requires c.Valid()
    decreases polls
  {
    if polls == [] then e else AfterPolls(c, Some(TakeEntry(c, e, polls[0].0, polls[0].1).0), polls[1..])
  }

  lemma PollsAre(c: BucketConfig, e: Option<Entry>, cost: real, at: int, rest: seq<(real, int)>)
    requires c.Valid()
    ensures AfterPolls(c, e, []) == e
    ensures AfterPolls(c, e, [(cost, at)] + rest) == AfterPolls(c, Some(TakeEntry(c, e, cost, at).0), rest)
    ensures Answers(c, e, [(cost, at)] + rest) == [TakeEntry(c, e, cost, at).1.allowed] + Answers(c, Some(TakeEntry(c, e, cost, at).0), rest)
  {
    hide TakeEntry;
    assert ([(cost, at)] + rest)[1..] == rest;
  }

  ghost predicate NoneAllowed(answers: seq<bool>) {
    forall i :: 0 <= i < |answers| ==> !answers[i]
  }

  /** Refused polls leave what is available later as one refill from the start gives it. */
  lemma {:induction false} RefusedPollsChangeNothing(c: BucketConfig, e: Option<Entry>, v: Ideal, clock: int, polls: seq<(real, int)>, t: int)
    requires c.Valid() && Same(c, e, v, clock) && TakesOrdered(polls, clock) && clock <= t
    requires NoneAllowed(Answers(c, e, polls)) && (polls != [] ==> polls[|polls| - 1].1 <= t)
    ensures Available(c, AfterPolls(c, e, polls), t) == IdealAvailable(c, v, t)
    decreases polls
  {
    hide Same, IdealAvailable, Available;
    SameLater(c, e, v, clock, t);
    if polls != [] {
      var (cost, now) := polls[0];
      SameLater(c, e, v, clock, now);
      TakeKeepsSame(c, e, v, cost, now);
      var e' := Some(TakeEntry(c, e, cost, now).0);
      assert Answers(c, e, polls)[1..] == Answers(c, e', polls[1..]);
      assert !Answers(c, e, polls)[0];
      LastIsLatest(polls, clock);
      RefusedPollsChangeNothing(c, e', v, now, polls[1..], t);
    }
  }

  lemma {:induction false} LastIsLatest(polls: seq<(real, int)>, clock: int)
    requires TakesOrdered(polls, clock) && polls != []
    ensures clock <= polls[0].1 <= polls[|polls| - 1].1
    decreases polls
  {
    if |polls| > 1 {
      LastIsLatest(polls[1..], polls[0].1);
    }
  }

  /** Tokens `have` reach `cost` at the first whole millisecond not before the quotient. */
  lemma WaitIsExact(c: BucketConfig, have: real, cost: real, elapsed: int)
    requires c.Valid() && 0.0 <= have < cost && elapsed >= 0
    ensures cost <= have + Earned(c, elapsed) <==> elapsed >= Ceil((cost - have) / c.Rate())
  {
    hide Ceil;
    Positive(0.0, c);
    var r := c.Rate();
    var q := (cost - have) / r;
    Reaches(have, cost, r, q, elapsed as real);
    CeilOrder(q, elapsed);
  }

  lemma Reaches(have: real, cost: real, r: real, q: real, x: real)
    requires r > 0.0 && q == (cost - have) / r
    ensures cost <= have + x * r <==> q <= x
  {
    assert q * r == cost - have;
    if q <= x { Grows(q, x, r); } else { Grows(x, q, r); }
  }

  lemma CeilOrder(q: real, n: int)
    ensures q <= n as real <==> Ceil(q) <= n
  {
  }

  lemma Grows(a: real, b: real, r: real)
    requires a <= b && r > 0.0
    ensures a * r <= b * r && (a < b ==> a * r < b * r)
  {
    assert (b - a) * r >= 0.0 && (a < b ==> (b - a) * r > 0.0);
    assert b * r == a * r + (b - a) * r;
  }

  /**
    `retryAfterMs` is exact. After a refusal of a cost the bucket can hold, and whatever further polls are
    refused meanwhile, the same take succeeds at `t` exactly when the wait has passed.
   */
  lemma RetryAfterIsExact(c: BucketConfig, e: Option<Entry>, cost: real, now: int, polls: seq<(real, int)>, t: int)
    requires c.Valid() && cost <= c.capacity && now <= t
    requires e.Some? ==> e.value.tokens >= 0.0
    requires TakesOrdered(polls, now) && (polls != [] ==> polls[|polls| - 1].1 <= t)
    requires !TakeEntry(c, e, cost, now).1.allowed
    requires NoneAllowed(Answers(c, Some(TakeEntry(c, e, cost, now).0), polls))
    ensures
      var (entry, r) := TakeEntry(c, e, cost, now);
      TakeEntry(c, AfterPolls(c, Some(entry), polls), cost, t).1.allowed <==> t >= now + r.retryAfterMs
  {
    hide Answers;
    var (entry, r) := TakeEntry(c, e, cost, now);
    var v := Ideal(entry.tokens, now);
    TtlRefills(c, c.TtlMs());
    assert 0.0 <= Available(c, e, now) < cost;
    assert Same(c, Some(entry), v, now);
    RefusedPollsChangeNothing(c, Some(entry), v, now, polls, t);
    WaitIsExact(c, entry.tokens, cost, t - now);
  }

  /** A cost above capacity is refused whatever the key holds, so no wait is long enough for it. */
  lemma AboveCapacityNeverAllowed(c: BucketConfig, e: Option<Entry>, cost: real, now: int)
    requires c.Valid()
    ensures cost > c.capacity ==> !TakeEntry(c, e, cost, now).1.allowed
    ensures (exists t :: t >= now && TakeEntry(c, Some(TakeEntry(c, e, cost, now).0), cost, t).1.allowed)
       <==> cost <= c.capacity
  {
    if cost <= c.capacity {
      var t := now + c.TtlMs();
      assert TakeEntry(c, Some(TakeEntry(c, e, cost, now).0), cost, t).1.allowed;
    }
  }

  // ---------------------------------------------------------------- what a usage report does

  /** A usage report never raises what is available, at its time or later. */
  lemma NarrowOnlyReduces(c: BucketConfig, e: Option<Entry>, usage: real, now: int, t: int)
    requires c.Valid() && now <= t && (e.Some? ==> e.value.updatedAt <= now)
    ensures Available(c, NarrowEntry(c, e, usage, now), t) <= Available(c, e, t)
  {
    if e.Some? {
      EarnedGrows(c, t - now, t - e.value.updatedAt);
    }
  }

  /**
    A usage report of half or more brings what is available down to its ceiling exactly when the stored
    count was above it or the refilled one is not: the comparison ignores the refill since the last write.
   */
  lemma NarrowCapsIff(c: BucketConfig, e: Option<Entry>, usage: real, now: int)
    requires c.Valid() && usage >= 0.5
    ensures
      var ceiling := UsageCeiling(c, usage);
      ceiling.Some? &&
      (Available(c, NarrowEntry(c, e, usage, now), now) <= ceiling.value <==>
        || (Visible(e, now).Some? ==> Visible(e, now).value.tokens > ceiling.value)
        || Available(c, e, now) <= ceiling.value)
  {
    hide UsageCeiling;
    CeilingWithinCapacity(c, usage);
  }

  lemma CeilingWithinCapacity(c: BucketConfig, usage: real)
    requires c.Valid() && usage >= 0.5
    ensures UsageCeiling(c, usage).Some? && 0.0 <= UsageCeiling(c, usage).value <= c.capacity
  {
    hide WholeShare;
    WholeShareWithin(c.capacity, AllowedFraction(RMin(RMax(usage, 0.0), 1.0)));
  }

  lemma WholeShareWithin(x: real, f: real)
    requires x >= 0.0 && 0.0 <= f <= 1.0
    ensures 0.0 <= WholeShare(x, f) <= x
  {
    var p := x * f;
    if f > 0.0 {
      Grows(0.0, x, f);
    }
    if x > 0.0 {
      Grows(f, 1.0, x);
    }
    assert 0.0 <= p <= x;
    assert p - 1.0 < p.Floor as real <= p;
  }

  /** A key emptied an hour ago is full again, and a report of 90% usage leaves it so. */
  lemma ReportIgnoredAfterIdle()
    ensures
      var c := BucketConfig(10.0, 3_600_000.0);
      var e := Some(Entry(0.0, 0, Some(7_200_000)));
      NarrowEntry(c, e, 0.9, 3_600_000) == e && Available(c, e, 3_600_000) == 10.0
  {
    var c := BucketConfig(10.0, 3_600_000.0);
    assert c.Rate() * 3_600_000.0 == 10.0;
  }
}

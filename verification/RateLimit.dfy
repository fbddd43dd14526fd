/** The in-process fixed-window limiter: counters in one map, cleaned up lazily. */
module RateLimit {
  import opened Wrappers

  datatype Window = Window(count: int, resetAt: int)

  datatype Outcome = Outcome(allowed: bool, retryAfterSeconds: int)

  type Buckets = map<string, Window>

  const SWEEP_SIZE := 10_000

  // ---------- one call ----------

  function Lookup(buckets: Buckets, key: string): Option<Window> {
    if key in buckets then Some(buckets[key]) else None
  }

  predicate IsLive(w: Option<Window>, now: int) {
    w.Some? && w.value.resetAt > now
  }

  function LiveOnly(buckets: Buckets, now: int): Buckets {
    map key | key in buckets && buckets[key].resetAt > now :: buckets[key]
  }

  function Swept(buckets: Buckets, now: int): Buckets {
    if |buckets| < SWEEP_SIZE then buckets else LiveOnly(buckets, now)
  }

  /** The key's window after an attempt. */
  function NextWindow(w: Option<Window>, now: int, windowMs: int): Window {
    if IsLive(w, now) then w.value.(count := w.value.count + 1) else Window(1, now + windowMs)
  }

  function CeilSeconds(ms: int): int {
    (ms + 999) / 1000
  }

  function RetryAfter(w: Window, now: int): int {
    var seconds := CeilSeconds(w.resetAt - now);
    if seconds < 1 then 1 else seconds
  }

  /** What an attempt on a key answers. */
  function Answer(w: Option<Window>, now: int, limit: int): Outcome {
    if IsLive(w, now) && w.value.count + 1 > limit then Outcome(false, RetryAfter(w.value, now)) else Outcome(true, 0)
  }

  function AfterHit(buckets: Buckets, key: string, now: int, windowMs: int): Buckets {
    buckets[key := NextWindow(Lookup(buckets, key), now, windowMs)]
  }

  datatype Call =
    | Hit(key: string, now: int, limit: int, windowMs: int)
    | Reset(key: string)
    | ClearAll

  function StepBuckets(buckets: Buckets, call: Call): Buckets {
    match call
    case Hit(key, now, _, windowMs) => AfterHit(Swept(buckets, now), key, now, windowMs)
    case Reset(key) => buckets - {key}
    case ClearAll => map[]
  }

  function StepAnswer(buckets: Buckets, call: Call): Option<Outcome> {
    match call
    case Hit(key, now, limit, _) => Some(Answer(Lookup(Swept(buckets, now), key), now, limit))
    case _ => None
  }

  function Answers(buckets: Buckets, calls: seq<Call>): seq<Option<Outcome>>
    decreases |calls|
  {
    if calls == [] then []
    else [StepAnswer(buckets, calls[0])] + Answers(StepBuckets(buckets, calls[0]), calls[1..])
  }

  // ---------- the limiter that never cleans up ----------

  function StepKept(buckets: Buckets, call: Call): Buckets {
    match call
    case Hit(key, now, _, windowMs) => AfterHit(buckets, key, now, windowMs)
    case Reset(key) => buckets - {key}
    case ClearAll => map[]
  }

  function StepKeptAnswer(buckets: Buckets, call: Call): Option<Outcome> {
    match call
    case Hit(key, now, limit, _) => Some(Answer(Lookup(buckets, key), now, limit))
    case _ => None
  }

  function KeptAnswers(buckets: Buckets, calls: seq<Call>): seq<Option<Outcome>>
    decreases |calls|
  {
    if calls == [] then []
    else [StepKeptAnswer(buckets, calls[0])] + KeptAnswers(StepKept(buckets, calls[0]), calls[1..])
  }

  /** Attempts carry a clock that never goes back. */
  predicate Ordered(clock: int, calls: seq<Call>)
    decreases |calls|
  {
    calls == []
    || (if calls[0].Hit? then clock <= calls[0].now && Ordered(calls[0].now, calls[1..]) else Ordered(clock, calls[1..]))
  }

  // ---------- the sweep is invisible ----------

  ghost predicate SameLive(b: Buckets, c: Buckets, clock: int) {
    LiveOnly(b, clock) == LiveOnly(c, clock)
  }

  lemma LiveLookup(b: Buckets, clock: int, key: string)
    ensures IsLive(Lookup(b, key), clock) <==> key in LiveOnly(b, clock)
    ensures key in LiveOnly(b, clock) ==> Lookup(b, key) == Some(LiveOnly(b, clock)[key])
  {
  }

  lemma SameLiveLater(b: Buckets, c: Buckets, clock: int, later: int)
    requires SameLive(b, c, clock) && clock <= later
    ensures SameLive(b, c, later)
  {
    assert LiveOnly(b, later) == LiveOnly(LiveOnly(b, clock), later);
    assert LiveOnly(c, later) == LiveOnly(LiveOnly(c, clock), later);
  }

  lemma SweptSameLive(b: Buckets, now: int)
    ensures SameLive(Swept(b, now), b, now)
  {
    assert LiveOnly(LiveOnly(b, now), now) == LiveOnly(b, now);
  }

  /** An attempt sees and leaves the same live windows in both. */
  lemma HitSameLive(b: Buckets, c: Buckets, key: string, now: int, limit: int, windowMs: int)
    requires SameLive(b, c, now)
    ensures Answer(Lookup(b, key), now, limit) == Answer(Lookup(c, key), now, limit)
    ensures SameLive(AfterHit(b, key, now, windowMs), AfterHit(c, key, now, windowMs), now)
  {
    LiveLookup(b, now, key);
    LiveLookup(c, now, key);
    var w := NextWindow(Lookup(b, key), now, windowMs);
    assert w == NextWindow(Lookup(c, key), now, windowMs);
    LiveAfterUpdate(b, key, w, now);
    LiveAfterUpdate(c, key, w, now);
  }

  lemma LiveAfterUpdate(b: Buckets, key: string, w: Window, now: int)
    ensures LiveOnly(b[key := w], now)
            == if w.resetAt > now then LiveOnly(b, now)[key := w] else LiveOnly(b, now) - {key}
  {
  }

  lemma LiveAfterRemove(b: Buckets, key: string, now: int)
    ensures LiveOnly(b - {key}, now) == LiveOnly(b, now) - {key}
  {
  }

  lemma {:induction false} SweepInvisibleFrom(b: Buckets, c: Buckets, clock: int, calls: seq<Call>)
    requires SameLive(b, c, clock) && Ordered(clock, calls)
    ensures Answers(b, calls) == KeptAnswers(c, calls)
    decreases |calls|
  {
    if calls != [] {
      match calls[0]
      case Hit(key, now, limit, windowMs) =>
        SameLiveLater(b, c, clock, now);
        SweptSameLive(b, now);
        HitSameLive(Swept(b, now), c, key, now, limit, windowMs);
        SweepInvisibleFrom(StepBuckets(b, calls[0]), StepKept(c, calls[0]), now, calls[1..]);
      case Reset(key) =>
        LiveAfterRemove(b, key, clock);
        LiveAfterRemove(c, key, clock);
        SweepInvisibleFrom(b - {key}, c - {key}, clock, calls[1..]);
      case ClearAll =>
        SweepInvisibleFrom(map[], map[], clock, calls[1..]);
    }
  }

  /** Over every sequence of calls the limiter answers as one that never forgets a window. */
  lemma SweepInvisible(clock: int, calls: seq<Call>)
    requires Ordered(clock, calls)
    ensures Answers(map[], calls) == KeptAnswers(map[], calls)
  {
    SweepInvisibleFrom(map[], map[], clock, calls);
  }

  /** After an attempt the map holds at most 10,000 windows, or only live ones; an attempt
      with no window length may leave its own dead one beside them. */
  lemma SizeBounded(buckets: Buckets, key: string, now: int, limit: int, windowMs: int)
    ensures var after := StepBuckets(buckets, Hit(key, now, limit, windowMs));
            |after| <= 10_000 || |after| <= |LiveOnly(after, now)| + (if windowMs > 0 then 0 else 1)
  {
    var swept := Swept(buckets, now);
    var after := StepBuckets(buckets, Hit(key, now, limit, windowMs));
    assert after.Keys == swept.Keys + {key};
    if |buckets| >= SWEEP_SIZE {
      forall k | k in after && k != key ensures after[k].resetAt > now {
        assert k in swept;
      }
      assert after.Keys <= LiveOnly(after, now).Keys + {key};
      if windowMs > 0 {
        assert after[key].resetAt > now;
        assert after == LiveOnly(after, now);
      } else {
        SubsetSize(after.Keys, LiveOnly(after, now).Keys + {key});
      }
    }
  }

  lemma {:induction false} SubsetSize<T>(a: set<T>, b: set<T>)
    requires a <= b
    ensures |a| <= |b|
    decreases b
  {
    if a != {} {
      var x :| x in a;
      SubsetSize(a - {x}, b - {x});
    }
  }

  // ---------- one key on its own ----------

  /** A key's attempts, as (time, outcome), in a run of the whole limiter. */
  datatype Stamped = Stamped(now: int, outcome: Outcome)

  function OutcomesFor(buckets: Buckets, calls: seq<Call>, key: string): seq<Stamped>
    decreases |calls|
  {
    if calls == [] then []
    else
      var rest := OutcomesFor(StepBuckets(buckets, calls[0]), calls[1..], key);
      if calls[0].Hit? && calls[0].key == key
      then [Stamped(calls[0].now, StepAnswer(buckets, calls[0]).value)] + rest else rest
  }

  /** The times of a key's own attempts. */
  function TimesOf(calls: seq<Call>, key: string): seq<int>
    decreases |calls|
  {
    if calls == [] then []
    else (if calls[0].Hit? && calls[0].key == key then [calls[0].now] else []) + TimesOf(calls[1..], key)
  }

  /** A single counter under one limit and window. */
  function Counter(w: Option<Window>, times: seq<int>, limit: int, windowMs: int): seq<Stamped>
    decreases |times|
  {
    if times == [] then []
    else [Stamped(times[0], Answer(w, times[0], limit))]
         + Counter(Some(NextWindow(w, times[0], windowMs)), times[1..], limit, windowMs)
  }

  /** Every attempt on `key` uses this limit and window, and nothing resets it. */
  predicate FixedPolicy(calls: seq<Call>, key: string, limit: int, windowMs: int) {
    forall call <- calls ::
      match call
      case Hit(k, _, l, w) => k == key ==> l == limit && w == windowMs
      case Reset(k) => k != key
      case ClearAll => false
  }

  /** The same window, or two that are over: the next attempt cannot tell them apart. */
  predicate Alike(v: Option<Window>, w: Option<Window>, clock: int) {
    v == w || (!IsLive(v, clock) && !IsLive(w, clock))
  }

  lemma OwnStep(b: Buckets, w: Option<Window>, clock: int, key: string, now: int, limit: int, windowMs: int)
    requires Alike(Lookup(b, key), w, clock) && clock <= now
    ensures Answer(Lookup(Swept(b, now), key), now, limit) == Answer(w, now, limit)
    ensures Lookup(StepBuckets(b, Hit(key, now, limit, windowMs)), key) == Some(NextWindow(w, now, windowMs))
  {
  }

  lemma OtherStep(b: Buckets, w: Option<Window>, clock: int, key: string, call: Call)
    requires Alike(Lookup(b, key), w, clock)
    requires match call case Hit(k, now, _, _) => k != key && clock <= now case Reset(k) => k != key case ClearAll => false
    ensures Alike(Lookup(StepBuckets(b, call), key), w, if call.Hit? then call.now else clock)
  {
  }

  lemma {:induction false} KeyAloneFrom(
    b: Buckets, w: Option<Window>, clock: int, calls: seq<Call>, key: string, limit: int, windowMs: int)
    requires Ordered(clock, calls) && FixedPolicy(calls, key, limit, windowMs) && Alike(Lookup(b, key), w, clock)
    ensures OutcomesFor(b, calls, key) == Counter(w, TimesOf(calls, key), limit, windowMs)
    decreases |calls|
  {
    if calls != [] {
      var call, rest := calls[0], calls[1..];
      assert call in calls;
      assert FixedPolicy(rest, key, limit, windowMs) by {
        assert forall c <- rest :: c in calls;
      }
      var b' := StepBuckets(b, call);
      if call.Hit? && call.key == key {
        OwnStep(b, w, clock, key, call.now, limit, windowMs);
        var w' := Some(NextWindow(w, call.now, windowMs));
        KeyAloneFrom(b', w', call.now, rest, key, limit, windowMs);
        assert TimesOf(calls, key) == [call.now] + TimesOf(rest, key);
      } else {
        OtherStep(b, w, clock, key, call);
        KeyAloneFrom(b', w, if call.Hit? then call.now else clock, rest, key, limit, windowMs);
        assert TimesOf(calls, key) == [] + TimesOf(rest, key) == TimesOf(rest, key);
      }
    }
  }

  /** One key under attack does not touch another: a key's outcomes are those of a lone
      counter fed its own attempts. */
  lemma KeysIndependent(clock: int, calls: seq<Call>, key: string, limit: int, windowMs: int)
    requires Ordered(clock, calls) && FixedPolicy(calls, key, limit, windowMs)
    ensures OutcomesFor(map[], calls, key) == Counter(None, TimesOf(calls, key), limit, windowMs)
  {
    KeyAloneFrom(map[], None, clock, calls, key, limit, windowMs);
  }

  // ---------- how many attempts get through ----------

  function AllowedIn(outcomes: seq<Stamped>, lo: int, hi: int): nat {
    if outcomes == [] then 0
    else (if outcomes[0].outcome.allowed && lo <= outcomes[0].now < hi then 1 else 0) + AllowedIn(outcomes[1..], lo, hi)
  }

  predicate TimesFrom(clock: int, times: seq<int>)
    decreases |times|
  {
    times == [] || (clock <= times[0] && TimesFrom(times[0], times[1..]))
  }

  lemma {:induction false} TimesOrdered(clock: int, calls: seq<Call>, key: string)
    requires Ordered(clock, calls)
    ensures TimesFrom(clock, TimesOf(calls, key))
    decreases |calls|
  {
    if calls != [] {
      var call := calls[0];
      var clock' := if call.Hit? then call.now else clock;
      TimesOrdered(clock', calls[1..], key);
      var rest := TimesOf(calls[1..], key);
      if call.Hit? && call.key == key {
        assert TimesOf(calls, key)[1..] == rest;
      } else {
        assert TimesOf(calls, key) == rest;
      }
    }
  }

  function AtLeastOne(limit: int): int {
    if limit < 1 then 1 else limit
  }

  /** Attempts a live window has left; a dead one has none, the next attempt opens another. */
  function Credit(w: Option<Window>, now: int, limit: int): int {
    if IsLive(w, now) && w.value.count < AtLeastOne(limit) then AtLeastOne(limit) - w.value.count else 0
  }

  /** When the next window can open at the earliest. */
  function NextOpening(w: Option<Window>, now: int): int {
    if IsLive(w, now) then w.value.resetAt else now
  }

  lemma {:induction false} NoneAfter(w: Option<Window>, times: seq<int>, limit: int, windowMs: int, lo: int, hi: int)
    requires TimesFrom(hi, times)
    ensures AllowedIn(Counter(w, times, limit, windowMs), lo, hi) == 0
    decreases |times|
  {
    if times != [] {
      var rest := times[1..];
      assert TimesFrom(hi, rest);
      NoneAfter(Some(NextWindow(w, times[0], windowMs)), rest, limit, windowMs, lo, hi);
    }
  }

  /** With `n` more windows fitting before `hi`, at most the credit and `n` full limits get through. */
  lemma {:induction false} TailBound(
    w: Option<Window>, now: int, times: seq<int>, limit: int, windowMs: int, lo: int, hi: int, n: nat)
    requires windowMs > 0 && TimesFrom(now, times)
    requires w.Some? ==> w.value.count >= 1
    requires hi <= NextOpening(w, now) + n * windowMs
    ensures AllowedIn(Counter(w, times, limit, windowMs), lo, hi) <= Credit(w, now, limit) + n * AtLeastOne(limit)
    decreases |times|
  {
    assert n * AtLeastOne(limit) >= 0;
    if times != [] {
      var t, rest := times[0], times[1..];
      var w' := Some(NextWindow(w, t, windowMs));
      if t >= hi {
        assert TimesFrom(hi, times);
        NoneAfter(w, times, limit, windowMs, lo, hi);
      } else if IsLive(w, t) {
        TailBound(w', t, rest, limit, windowMs, lo, hi, n);
      } else {
        assert n >= 1;
        assert n * windowMs == (n - 1) * windowMs + windowMs;
        TailBound(w', t, rest, limit, windowMs, lo, hi, n - 1);
        assert n * AtLeastOne(limit) == (n - 1) * AtLeastOne(limit) + AtLeastOne(limit);
      }
    }
  }

  lemma {:induction false} CounterBound(
    w: Option<Window>, now: int, times: seq<int>, limit: int, windowMs: int, lo: int, k: nat)
    requires windowMs > 0 && TimesFrom(now, times)
    requires w.Some? ==> w.value.count >= 1
    ensures AllowedIn(Counter(w, times, limit, windowMs), lo, lo + k * windowMs) <= (k + 1) * AtLeastOne(limit) - 1
    decreases |times|
  {
    var m := AtLeastOne(limit);
    assert (k + 1) * m == k * m + m && k * m >= 0;
    if times != [] {
      var t := times[0];
      if t < lo {
        CounterBound(Some(NextWindow(w, t, windowMs)), t, times[1..], limit, windowMs, lo, k);
      } else if k == 0 {
        NoneAfter(w, times, limit, windowMs, lo, lo);
      } else {
        TailBound(w, t, times, limit, windowMs, lo, lo + k * windowMs, k);
        assert k * m >= m;
      }
    }
  }

  /** In any half-open stretch of k windows, at most (k + 1) * limit - 1 attempts on a key
      get through, whatever the other keys do. */
  lemma AtMostPerStretch(clock: int, calls: seq<Call>, key: string, limit: int, windowMs: int, lo: int, k: nat)
    requires Ordered(clock, calls) && FixedPolicy(calls, key, limit, windowMs)
    requires limit >= 1 && windowMs > 0
    ensures AllowedIn(OutcomesFor(map[], calls, key), lo, lo + k * windowMs) <= (k + 1) * limit - 1
  {
    KeysIndependent(clock, calls, key, limit, windowMs);
    TimesOrdered(clock, calls, key);
    CounterBound(None, clock, TimesOf(calls, key), limit, windowMs, lo, k);
  }

  // ---------- the bound is met ----------

  function Repeat(t: int, n: nat): seq<int> {
    seq(n, _ => t)
  }

  /** A burst inside a live window with room for it all gets through. */
  lemma {:induction false} BurstAllowed(
    w: Window, t: int, n: nat, later: seq<int>, limit: int, windowMs: int, lo: int, hi: int)
    requires w.resetAt > t && w.count + n <= limit && lo <= t < hi
    ensures AllowedIn(Counter(Some(w), Repeat(t, n) + later, limit, windowMs), lo, hi)
            == n + AllowedIn(Counter(Some(w.(count := w.count + n)), later, limit, windowMs), lo, hi)
    decreases n
  {
    var times := Repeat(t, n) + later;
    if n == 0 {
      assert times == later;
    } else {
      assert times[0] == t && times[1..] == Repeat(t, n - 1) + later;
      BurstAllowed(w.(count := w.count + 1), t, n - 1, later, limit, windowMs, lo, hi);
    }
  }

  /** `limit` attempts at `t` and again at each of the next window lengths. */
  function Bursts(t: int, limit: nat, windowMs: int, n: nat): seq<int>
    decreases n
  {
    if n == 0 then [] else Repeat(t, limit) + Bursts(t + windowMs, limit, windowMs, n - 1)
  }

  lemma {:induction false} BurstsOrdered(t: int, limit: nat, windowMs: int, n: nat, clock: int)
    requires windowMs > 0 && clock <= t
    ensures TimesFrom(clock, Bursts(t, limit, windowMs, n))
    decreases n
  {
    if n > 0 {
      var later := Bursts(t + windowMs, limit, windowMs, n - 1);
      BurstsOrdered(t + windowMs, limit, windowMs, n - 1, t);
      RepeatOrdered(t, limit, later);
      LaterClock(clock, t, Repeat(t, limit) + later);
    }
  }

  lemma LaterClock(clock: int, t: int, times: seq<int>)
    requires clock <= t && TimesFrom(t, times)
    ensures TimesFrom(clock, times)
  {
  }

  /** A burst of `limit` at a moment without a live window opens one and gets through whole. */
  lemma FreshBurst(w: Option<Window>, t: int, later: seq<int>, limit: int, windowMs: int, lo: int, hi: int)
    requires limit >= 1 && windowMs > 0 && !IsLive(w, t) && lo <= t < hi
    ensures AllowedIn(Counter(w, Repeat(t, limit) + later, limit, windowMs), lo, hi)
            == limit + AllowedIn(Counter(Some(Window(limit, t + windowMs)), later, limit, windowMs), lo, hi)
  {
    var times := Repeat(t, limit) + later;
    assert times[0] == t && times[1..] == Repeat(t, limit - 1) + later;
    BurstAllowed(Window(1, t + windowMs), t, limit - 1, later, limit, windowMs, lo, hi);
    var all := Counter(w, times, limit, windowMs);
    assert all[0] == Stamped(t, Outcome(true, 0));
    assert all[1..] == Counter(Some(Window(1, t + windowMs)), times[1..], limit, windowMs);
  }

  lemma {:induction false} BurstsAllowed(
    w: Option<Window>, t: int, n: nat, limit: int, windowMs: int, lo: int, hi: int)
    requires limit >= 1 && windowMs > 0 && !IsLive(w, t) && lo <= t && t + n * windowMs < hi + windowMs
    ensures AllowedIn(Counter(w, Bursts(t, limit, windowMs, n), limit, windowMs), lo, hi) == n * limit
    decreases n
  {
    if n > 0 {
      assert n * windowMs == (n - 1) * windowMs + windowMs && (n - 1) * windowMs >= 0;
      var later := Bursts(t + windowMs, limit, windowMs, n - 1);
      FreshBurst(w, t, later, limit, windowMs, lo, hi);
      BurstsAllowed(Some(Window(limit, t + windowMs)), t + windowMs, n - 1, limit, windowMs, lo, hi);
      assert n * limit == (n - 1) * limit + limit;
    }
  }

  /** One attempt just before the stretch, the rest of its limit inside, a full burst at each reset. */
  function WorstTimes(limit: nat, windowMs: int, lo: int, k: nat): seq<int>
    requires limit >= 1
  {
    [lo - 1] + (Repeat(lo, limit - 1) + Bursts(lo - 1 + windowMs, limit, windowMs, k))
  }

  lemma WorstTimesOrdered(limit: nat, windowMs: int, lo: int, k: nat)
    requires limit >= 1 && windowMs > 0
    ensures TimesFrom(lo - 1, WorstTimes(limit, windowMs, lo, k))
  {
    var later := Bursts(lo - 1 + windowMs, limit, windowMs, k);
    BurstsOrdered(lo - 1 + windowMs, limit, windowMs, k, lo);
    RepeatOrdered(lo, limit - 1, later);
    LaterClock(lo - 1, lo, Repeat(lo, limit - 1) + later);
    assert WorstTimes(limit, windowMs, lo, k)[1..] == Repeat(lo, limit - 1) + later;
  }

  /** The attempt before the stretch does not count but opens the window. */
  lemma FirstOutside(times: seq<int>, limit: int, windowMs: int, lo: int, hi: int)
    requires times != [] && times[0] < lo
    ensures AllowedIn(Counter(None, times, limit, windowMs), lo, hi)
            == AllowedIn(Counter(Some(Window(1, times[0] + windowMs)), times[1..], limit, windowMs), lo, hi)
  {
    var all := Counter(None, times, limit, windowMs);
    assert all[1..] == Counter(Some(Window(1, times[0] + windowMs)), times[1..], limit, windowMs);
  }

  lemma RestOfLimit(reset: int, later: seq<int>, limit: nat, windowMs: int, lo: int, hi: int)
    requires limit >= 1 && (limit > 1 ==> lo < reset && lo < hi)
    ensures AllowedIn(Counter(Some(Window(1, reset)), Repeat(lo, limit - 1) + later, limit, windowMs), lo, hi)
            == limit - 1 + AllowedIn(Counter(Some(Window(limit, reset)), later, limit, windowMs), lo, hi)
  {
    if limit == 1 {
      assert Repeat(lo, limit - 1) + later == later;
    } else {
      BurstAllowed(Window(1, reset), lo, limit - 1, later, limit, windowMs, lo, hi);
    }
  }

  lemma WorstTimesAllowed(limit: nat, windowMs: int, lo: int, k: nat)
    requires windowMs > 0 && (limit == 1 || (limit > 1 && k >= 1 && windowMs > 1))
    ensures AllowedIn(Counter(None, WorstTimes(limit, windowMs, lo, k), limit, windowMs), lo, lo + k * windowMs)
            == (k + 1) * limit - 1
  {
    var hi, reset := lo + k * windowMs, lo - 1 + windowMs;
    assert k >= 1 ==> k * windowMs >= windowMs;
    var later := Bursts(reset, limit, windowMs, k);
    var times := WorstTimes(limit, windowMs, lo, k);
    assert times[1..] == Repeat(lo, limit - 1) + later;
    FirstOutside(times, limit, windowMs, lo, hi);
    RestOfLimit(reset, later, limit, windowMs, lo, hi);
    BurstsAllowed(Some(Window(limit, reset)), reset, k, limit, windowMs, lo, hi);
    assert (k + 1) * limit == k * limit + limit;
  }

  // ---------- exactly when ----------

  lemma {:induction false} EmptyStretch(outcomes: seq<Stamped>, lo: int)
    ensures AllowedIn(outcomes, lo, lo) == 0
  {
    if outcomes != [] {
      EmptyStretch(outcomes[1..], lo);
    }
  }

  /** Windows of one tick cannot reach over the start of a stretch. */
  lemma {:induction false} OneTickBound(w: Option<Window>, now: int, times: seq<int>, limit: int, lo: int, k: nat)
    requires limit >= 1 && TimesFrom(now, times)
    requires w.Some? ==> w.value.count >= 1 && w.value.resetAt <= now + 1 && now < lo
    ensures AllowedIn(Counter(w, times, limit, 1), lo, lo + k) <= k * limit
    decreases |times|
  {
    assert k * limit >= 0;
    if times != [] {
      var t := times[0];
      if t < lo {
        OneTickBound(Some(NextWindow(w, t, 1)), t, times[1..], limit, lo, k);
      } else {
        TailBound(w, t, times, limit, 1, lo, lo + k, k);
      }
    }
  }

  /** A run of the limiter whose calls are the attempts at `times` on one key. */
  function Attempts(times: seq<int>, key: string, limit: int, windowMs: int): seq<Call> {
    if times == [] then [] else [Hit(key, times[0], limit, windowMs)] + Attempts(times[1..], key, limit, windowMs)
  }

  lemma {:induction false} AttemptsFit(clock: int, times: seq<int>, key: string, limit: int, windowMs: int)
    requires TimesFrom(clock, times)
    ensures var calls := Attempts(times, key, limit, windowMs);
            Ordered(clock, calls) && FixedPolicy(calls, key, limit, windowMs) && TimesOf(calls, key) == times
    decreases |times|
  {
    if times != [] {
      AttemptsFit(times[0], times[1..], key, limit, windowMs);
      var calls := Attempts(times, key, limit, windowMs);
      assert calls[1..] == Attempts(times[1..], key, limit, windowMs);
    }
  }

  /** A run of the limiter lets as many attempts through in the stretch as the bound allows. */
  ghost predicate BoundMet(clock: int, calls: seq<Call>, key: string, limit: int, windowMs: int, lo: int, k: nat) {
    && Ordered(clock, calls) && FixedPolicy(calls, key, limit, windowMs)
    && AllowedIn(OutcomesFor(map[], calls, key), lo, lo + k * windowMs) == (k + 1) * limit - 1
  }

  /** For every number of windows the limiter itself can be driven to the bound, except
      that windows of one tick, or a stretch of none, leave no room to borrow from before. */
  lemma StretchBoundMet(key: string, limit: int, windowMs: int, lo: int, k: nat)
    requires limit >= 1 && windowMs > 0
    ensures (exists clock, calls :: BoundMet(clock, calls, key, limit, windowMs, lo, k))
            <==> limit == 1 || (k >= 1 && windowMs > 1)
  {
    if limit == 1 || (k >= 1 && windowMs > 1) {
      var times := WorstTimes(limit, windowMs, lo, k);
      var calls := Attempts(times, key, limit, windowMs);
      WorstTimesOrdered(limit, windowMs, lo, k);
      AttemptsFit(lo - 1, times, key, limit, windowMs);
      KeysIndependent(lo - 1, calls, key, limit, windowMs);
      WorstTimesAllowed(limit, windowMs, lo, k);
      assert BoundMet(lo - 1, calls, key, limit, windowMs, lo, k);
    } else {
      forall clock, calls | Ordered(clock, calls) && FixedPolicy(calls, key, limit, windowMs)
        ensures AllowedIn(OutcomesFor(map[], calls, key), lo, lo + k * windowMs) < (k + 1) * limit - 1
      {
        BoundOutOfReach(clock, calls, key, limit, windowMs, lo, k);
      }
    }
  }

  lemma BoundOutOfReach(clock: int, calls: seq<Call>, key: string, limit: int, windowMs: int, lo: int, k: nat)
    requires Ordered(clock, calls) && FixedPolicy(calls, key, limit, windowMs)
    requires limit > 1 && (k == 0 || windowMs == 1)
    ensures AllowedIn(OutcomesFor(map[], calls, key), lo, lo + k * windowMs) < (k + 1) * limit - 1
  {
    assert (k + 1) * limit == k * limit + limit;
    if k == 0 {
      EmptyStretch(OutcomesFor(map[], calls, key), lo);
    } else {
      KeysIndependent(clock, calls, key, limit, windowMs);
      TimesOrdered(clock, calls, key);
      OneTickBound(None, clock, TimesOf(calls, key), limit, lo, k);
    }
  }

  lemma {:induction false} RepeatOrdered(t: int, n: nat, later: seq<int>)
    requires TimesFrom(t, later)
    ensures TimesFrom(t, Repeat(t, n) + later)
    decreases n
  {
    var times := Repeat(t, n) + later;
    if n == 0 {
      assert times == later;
    } else {
      assert times[1..] == Repeat(t, n - 1) + later;
      RepeatOrdered(t, n - 1, later);
    }
  }

  // ---------- what is let through ----------

  /** Of a burst of attempts that meets no live window the first `limit` are let through,
      and the first one always; only a denial reports a time, of at least a second. */
  lemma BurstOutcomes(key: string, now: int, limit: int, windowMs: int, n: nat, i: nat)
    requires windowMs > 0 && i < n
    ensures var outcomes := OutcomesFor(map[], Attempts(Repeat(now, n), key, limit, windowMs), key);
            && |outcomes| == n && outcomes[i].now == now
            && (outcomes[i].outcome.allowed <==> i == 0 || i < limit)
            && (if outcomes[i].outcome.allowed then outcomes[i].outcome.retryAfterSeconds == 0
                else outcomes[i].outcome.retryAfterSeconds >= 1)
  {
    assert Repeat(now, n) + [] == Repeat(now, n);
    RepeatOrdered(now, n, []);
    AttemptsFit(now, Repeat(now, n), key, limit, windowMs);
    KeysIndependent(now, Attempts(Repeat(now, n), key, limit, windowMs), key, limit, windowMs);
    var first := Counter(None, Repeat(now, n), limit, windowMs);
    assert Repeat(now, n)[1..] == Repeat(now, n - 1);
    assert first[1..] == Counter(Some(Window(1, now + windowMs)), Repeat(now, n - 1), limit, windowMs);
    CountedOutcomes(Window(1, now + windowMs), now, limit, windowMs, n - 1);
    assert i > 0 ==> first[i] == first[1..][i - 1];
  }

  lemma {:induction false} CountedOutcomes(w: Window, now: int, limit: int, windowMs: int, n: nat)
    requires w.resetAt > now
    ensures var outcomes := Counter(Some(w), Repeat(now, n), limit, windowMs);
            && |outcomes| == n
            && forall i: nat | i < n ::
                 && outcomes[i].now == now && (outcomes[i].outcome.allowed <==> w.count + i + 1 <= limit)
                 && (if outcomes[i].outcome.allowed then outcomes[i].outcome.retryAfterSeconds == 0
                     else outcomes[i].outcome.retryAfterSeconds >= 1)
    decreases n
  {
    if n > 0 {
      var next := w.(count := w.count + 1);
      CountedOutcomes(next, now, limit, windowMs, n - 1);
      assert Repeat(now, n)[1..] == Repeat(now, n - 1);
      assert Counter(Some(w), Repeat(now, n), limit, windowMs)
          == [Stamped(now, Answer(Some(w), now, limit))] + Counter(Some(next), Repeat(now, n - 1), limit, windowMs);
    }
  }

  /** After a reset of its key, or of everything, the next attempt is let through. */
  lemma ResetForgives(b: Buckets, key: string, now: int, limit: int, windowMs: int)
    ensures StepAnswer(StepBuckets(b, Reset(key)), Hit(key, now, limit, windowMs)) == Some(Outcome(true, 0))
    ensures StepAnswer(StepBuckets(b, ClearAll), Hit(key, now, limit, windowMs)) == Some(Outcome(true, 0))
    ensures forall other | other != key :: Lookup(StepBuckets(b, Reset(key)), other) == Lookup(b, other)
  {
  }

  // ---------- the retry time ----------

  function FinalBuckets(buckets: Buckets, calls: seq<Call>): Buckets
    decreases |calls|
  {
    if calls == [] then buckets else FinalBuckets(StepBuckets(buckets, calls[0]), calls[1..])
  }

  /** Calls that do not attempt `key` leave its window alone or drop it. */
  lemma {:induction false} OthersKeepWindow(b: Buckets, calls: seq<Call>, key: string)
    requires forall call <- calls | call.Hit? :: call.key != key
    ensures var after := Lookup(FinalBuckets(b, calls), key); after.None? || after == Lookup(b, key)
    decreases |calls|
  {
    if calls != [] {
      assert calls[0] in calls;
      assert forall call <- calls[1..] :: call in calls;
      OthersKeepWindow(StepBuckets(b, calls[0]), calls[1..], key);
    }
  }

  /** After a denial, the key's next attempt is let through once the reported seconds are over. */
  lemma RetryTimeSuffices(
    b: Buckets, key: string, t: int, limit: int, windowMs: int, others: seq<Call>, t': int, limit': int, windowMs': int)
    requires forall call <- others | call.Hit? :: call.key != key
    requires var denied := StepAnswer(b, Hit(key, t, limit, windowMs)).value;
             !denied.allowed && t' >= t + 1000 * denied.retryAfterSeconds
    ensures var after := FinalBuckets(StepBuckets(b, Hit(key, t, limit, windowMs)), others);
            StepAnswer(after, Hit(key, t', limit', windowMs')).value.allowed
  {
    var first := StepBuckets(b, Hit(key, t, limit, windowMs));
    OthersKeepWindow(first, others, key);
    var w := Lookup(first, key).value;
    assert w.resetAt - t <= 1000 * RetryAfter(w, t);
  }

  /** Calls that neither attempt nor reset `key` keep its live window. */
  lemma {:induction false} OthersKeepLive(b: Buckets, calls: seq<Call>, key: string, until: int)
    requires IsLive(Lookup(b, key), until)
    requires forall call <- calls ::
               match call case Hit(k, now, _, _) => k != key && now <= until case Reset(k) => k != key case ClearAll => false
    ensures Lookup(FinalBuckets(b, calls), key) == Lookup(b, key)
    decreases |calls|
  {
    if calls != [] {
      assert calls[0] in calls;
      assert forall call <- calls[1..] :: call in calls;
      OthersKeepLive(StepBuckets(b, calls[0]), calls[1..], key, until);
    }
  }

  /** The reported time is right to the second: a whole second earlier the key is still shut. */
  lemma RetryTimeNeeded(
    b: Buckets, key: string, t: int, limit: int, windowMs: int, others: seq<Call>, t': int)
    requires var denied := StepAnswer(b, Hit(key, t, limit, windowMs)).value;
             !denied.allowed && t <= t' <= t + 1000 * (denied.retryAfterSeconds - 1)
    requires forall call <- others ::
               match call case Hit(k, now, _, _) => k != key && now <= t' case Reset(k) => k != key case ClearAll => false
    ensures var after := FinalBuckets(StepBuckets(b, Hit(key, t, limit, windowMs)), others);
            !StepAnswer(after, Hit(key, t', limit, windowMs)).value.allowed
  {
    var first := StepBuckets(b, Hit(key, t, limit, windowMs));
    OthersKeepLive(first, others, key, t');
  }

  // ---------- the limiter itself ----------

  /** The shared map, changed in place. */
  class RateLimiter {
    var buckets: map<string, Window>

    constructor ()
      ensures buckets == map[]
    {
      buckets := map[];
    }

    method Sweep(now: int)
      modifies this
      ensures buckets == Swept(old(buckets), now)
    {
      if |buckets| < SWEEP_SIZE {
        return;
      }
      var keys := buckets.Keys;
      while keys != {}
        invariant keys <= buckets.Keys <= old(buckets).Keys
        invariant forall key :: key in buckets ==> buckets[key] == old(buckets)[key]
        invariant forall key :: key in old(buckets) && key !in keys ==> (key in buckets <==> old(buckets)[key].resetAt > now)
        decreases keys
      {
        var key :| key in keys;
        keys := keys - {key};
        if buckets[key].resetAt <= now {
          buckets := buckets - {key};
        }
      }
    }

    method RecordHit(key: string, limit: int, windowMs: int, now: int) returns (r: Outcome)
      modifies this
      ensures buckets == StepBuckets(old(buckets), Hit(key, now, limit, windowMs))
      ensures Some(r) == StepAnswer(old(buckets), Hit(key, now, limit, windowMs))
    {
      Sweep(now);
      if key !in buckets || buckets[key].resetAt <= now {
        buckets := buckets[key := Window(1, now + windowMs)];
        return Outcome(true, 0);
      }
      var existing := buckets[key];
      existing := existing.(count := existing.count + 1);
      buckets := buckets[key := existing];
      if existing.count > limit {
        var seconds := CeilSeconds(existing.resetAt - now);
        return Outcome(false, if seconds < 1 then 1 else seconds);
      }
      return Outcome(true, 0);
    }

    method Forget(key: string)
      modifies this
      ensures buckets == StepBuckets(old(buckets), Reset(key))
    {
      buckets := buckets - {key};
    }

    method Clear()
      modifies this
      ensures buckets == StepBuckets(old(buckets), ClearAll)
    {
      buckets := map[];
    }

    /** A whole sequence of calls; what is proved of `Answers` is true of the object. */
    method Serve(calls: seq<Call>) returns (answers: seq<Option<Outcome>>)
      modifies this
      ensures answers == Answers(old(buckets), calls)
      ensures buckets == FinalBuckets(old(buckets), calls)
    {
      answers := [];
      for i := 0 to |calls|
        invariant answers + Answers(buckets, calls[i..]) == Answers(old(buckets), calls)
        invariant FinalBuckets(buckets, calls[i..]) == FinalBuckets(old(buckets), calls)
      {
        assert calls[i..][1..] == calls[i + 1..];
        var answer := None;
        match calls[i] {
          case Hit(key, now, limit, windowMs) =>
            var r := RecordHit(key, limit, windowMs, now);
            answer := Some(r);
          case Reset(key) => Forget(key);
          case ClearAll => Clear();
        }
        answers := answers + [answer];
      }
    }
  }
}

/** The per-key request limiter of the API middleware (internal/api/auth.go).

    A limiter refills to its full limit on the first call at least a minute after the previous
    refill. Times are integer nanoseconds; a call's three clock readings (limiter creation, age
    test, refill stamp) may differ. */
module RateLimiting {
  import opened Prelude

  const MINUTE: int := 60_000_000_000

  datatype Limiter = Limiter(tokens: int, lastReset: int)

  /** `born` is used only when the call creates the limiter. */
  datatype Call = Call(key: string, born: int, seen: int, stamp: int)

  function Refilled(l: Limiter, limit: int, c: Call): Limiter {
    if c.seen - l.lastReset >= MINUTE then Limiter(limit, c.stamp) else l
  }

  predicate Granted(l: Limiter, limit: int, c: Call) {
    Refilled(l, limit, c).tokens > 0
  }

  function Taken(l: Limiter, limit: int, c: Call): Limiter {
    var r := Refilled(l, limit, c);
    if r.tokens > 0 then r.(tokens := r.tokens - 1) else r
  }

  type Table = map<string, Limiter>

  function LimiterFor(table: Table, limit: int, c: Call): Limiter {
    if c.key in table then table[c.key] else Limiter(limit, c.born)
  }

  class AuthMiddleware {
    var rateLimiters: Table

    constructor ()
      ensures rateLimiters == map[]
    {
      rateLimiters := map[];
    }

    method CheckRateLimit(c: Call, limit: int) returns (ok: bool)
      modifies this
      ensures ok == Granted(LimiterFor(old(rateLimiters), limit, c), limit, c)
      ensures rateLimiters
           == old(rateLimiters)[c.key := Taken(LimiterFor(old(rateLimiters), limit, c), limit, c)]
    {
      if c.key !in rateLimiters {
        rateLimiters := rateLimiters[c.key := Limiter(limit, c.born)];
      }
      var rl := rateLimiters[c.key];
      if c.seen - rl.lastReset >= MINUTE {
        rl := Limiter(limit, c.stamp);
        rateLimiters := rateLimiters[c.key := rl];
      }
      if rl.tokens <= 0 {
        return false;
      }
      rateLimiters := rateLimiters[c.key := rl.(tokens := rl.tokens - 1)];
      return true;
    }
  }

  // ----- Runs -----

  function After(table: Table, limits: string -> int, c: Call): Table {
    table[c.key := Taken(LimiterFor(table, limits(c.key), c), limits(c.key), c)]
  }

  /** Stamps of the granted calls of one key over a run of calls of any keys. */
  function GrantsOf(table: Table, limits: string -> int, calls: seq<Call>, key: string): seq<int>
    decreases |calls|
  {
    if calls == [] then []
    else
      var c := calls[0];
      var rest := GrantsOf(After(table, limits, c), limits, calls[1..], key);
      if c.key == key && Granted(LimiterFor(table, limits(key), c), limits(key), c)
      then [c.stamp] + rest
      else rest
  }

  function Only(calls: seq<Call>, key: string): seq<Call> {
    if calls == [] then []
    else if calls[0].key == key then [calls[0]] + Only(calls[1..], key)
    else Only(calls[1..], key)
  }

  /** The stamps one limiter grants on its own calls. */
  function Grants(l: Limiter, limit: int, calls: seq<Call>): seq<int>
    decreases |calls|
  {
    if calls == [] then []
    else
      var rest := Grants(Taken(l, limit, calls[0]), limit, calls[1..]);
      if Granted(l, limit, calls[0]) then [calls[0].stamp] + rest else rest
  }

  function KeyGrants(table: Table, limit: int, calls: seq<Call>, key: string): seq<int> {
    if key in table then Grants(table[key], limit, calls)
    else if calls == [] then []
    else Grants(Limiter(limit, calls[0].born), limit, calls)
  }

  /** Calls on one key never affect another: a key's grants depend on its own calls alone. */
  lemma {:induction false} KeysAreIndependent(
    table: Table, limits: string -> int, calls: seq<Call>, key: string)
    ensures GrantsOf(table, limits, calls, key)
         == KeyGrants(table, limits(key), Only(calls, key), key)
    decreases |calls|
  {
    if calls != [] {
      var c := calls[0];
      KeysAreIndependent(After(table, limits, c), limits, calls[1..], key);
      if c.key == key {
        assert Only(calls, key)[1..] == Only(calls[1..], key);
      }
    }
  }

  // ----- Which calls are granted -----

  /** When the current minute of a key began: at the birth of its limiter, or at the last call that
      came at least a minute after the beginning before it. */
  function Began(calls: seq<Call>, n: nat): int
    requires n <= |calls| && calls != []
  {
    if n == 0 then calls[0].born
    else if calls[n - 1].seen - Began(calls, n - 1) >= 60_000_000_000 then calls[n - 1].stamp
    else Began(calls, n - 1)
  }

  /** How many of the first `n` calls belong to that minute. */
  function InMinute(calls: seq<Call>, n: nat): nat
    requires n <= |calls| && calls != []
  {
    if n == 0 then 0
    else if calls[n - 1].seen - Began(calls, n - 1) >= 60_000_000_000 then 1
    else InMinute(calls, n - 1) + 1
  }

  /** The stamps of the calls that are among the first `limit` of their minute. */
  function EarlyStamps(limit: int, calls: seq<Call>, n: nat): seq<int>
    requires n <= |calls| && calls != []
    decreases |calls| - n
  {
    if n == |calls| then []
    else if InMinute(calls, n + 1) <= limit
    then [calls[n].stamp] + EarlyStamps(limit, calls, n + 1)
    else EarlyStamps(limit, calls, n + 1)
  }

  /** The limiter after `n` calls remembers the beginning of the minute and what is left of it. */
  ghost predicate Remembers(l: Limiter, limit: int, calls: seq<Call>, n: nat)
    requires n <= |calls| && calls != []
  {
    l.lastReset == Began(calls, n)
    && l.tokens == if limit <= 0 then limit
                   else if InMinute(calls, n) >= limit then 0 else limit - InMinute(calls, n)
  }

  lemma {:induction false} GrantsAreEarly(l: Limiter, limit: int, calls: seq<Call>, n: nat)
    requires n <= |calls| && calls != [] && Remembers(l, limit, calls, n)
    ensures Grants(l, limit, calls[n..]) == EarlyStamps(limit, calls, n)
    decreases |calls| - n
  {
    if n < |calls| {
      var c := calls[n];
      assert calls[n..][0] == c && calls[n..][1..] == calls[n + 1..];
      assert Remembers(Taken(l, limit, c), limit, calls, n + 1);
      GrantsAreEarly(Taken(l, limit, c), limit, calls, n + 1);
    }
  }

  /** Exactly the first `limit` calls of each of a key's minutes are granted, whatever the clock and
      the other keys do. */
  lemma GrantedIffEarly(limits: string -> int, calls: seq<Call>, key: string)
    ensures var own := Only(calls, key);
            GrantsOf(map[], limits, calls, key)
            == if own == [] then [] else EarlyStamps(limits(key), own, 0)
  {
    KeysAreIndependent(map[], limits, calls, key);
    var own := Only(calls, key);
    if own != [] {
      GrantsAreEarly(Limiter(limits(key), own[0].born), limits(key), own, 0);
      assert own[0..] == own;
    }
  }

  /** A nondecreasing clock, as seen in the order in which calls get the limiter's lock. */
  ghost predicate Timed(start: int, calls: seq<Call>)
    decreases |calls|
  {
    calls == []
    || (start <= calls[0].seen <= calls[0].stamp && calls[0].born <= calls[0].seen
        && Timed(calls[0].stamp, calls[1..]))
  }

  lemma {:induction false} OnlyTimed(start: int, earlier: int, calls: seq<Call>, key: string)
    requires Timed(start, calls) && earlier <= start
    ensures Timed(earlier, Only(calls, key))
    decreases |calls|
  {
    if calls != [] {
      var c := calls[0];
      if c.key == key {
        OnlyTimed(c.stamp, c.stamp, calls[1..], key);
        assert Only(calls, key)[1..] == Only(calls[1..], key);
      } else {
        OnlyTimed(c.stamp, earlier, calls[1..], key);
      }
    }
  }

  // ----- At most twice the limit in any minute -----

  /** How many stamps lie in the half-open interval. */
  function Within(stamps: seq<int>, from: int, to: int): nat {
    if stamps == [] then 0
    else (if from <= stamps[0] < to then 1 else 0) + Within(stamps[1..], from, to)
  }

  function Cap(limit: int): nat {
    if limit > 0 then limit else 0
  }

  /** What a limiter can still grant inside the minute from `a`, given when the next call comes. */
  function Budget(l: Limiter, limit: int, next: int, a: int): nat {
    if l.lastReset >= a then Cap(l.tokens)
    else if next >= a then Cap(l.tokens) + Cap(limit)
    else 2 * Cap(limit)
  }

  lemma WithinCons(x: int, rest: seq<int>, from: int, to: int)
    ensures Within([x] + rest, from, to)
         == (if from <= x < to then 1 else 0) + Within(rest, from, to)
  {
  }

  lemma {:induction false} MinuteBudget(l: Limiter, limit: int, calls: seq<Call>, a: int)
    requires Timed(l.lastReset, calls) && l.tokens <= Cap(limit)
    ensures calls != [] ==>
              Within(Grants(l, limit, calls), a, a + MINUTE) <= Budget(l, limit, calls[0].stamp, a)
    decreases |calls|
  {
    if calls != [] {
      var c, rest := calls[0], calls[1..];
      var l' := Taken(l, limit, c);
      TimedFrom(c.stamp, l'.lastReset, rest);
      MinuteBudget(l', limit, rest, a);
      if Granted(l, limit, c) {
        WithinCons(c.stamp, Grants(l', limit, rest), a, a + MINUTE);
      }
      LateGrants(l', limit, rest, c.stamp, a);
    }
  }

  lemma {:induction false} TimedFrom(start: int, earlier: int, calls: seq<Call>)
    requires Timed(start, calls) && earlier <= start
    ensures Timed(earlier, calls)
  {
  }

  /** Nothing is counted once the clock has left the interval. */
  lemma {:induction false} LateGrants(l: Limiter, limit: int, calls: seq<Call>, start: int, a: int)
    requires Timed(start, calls)
    ensures start >= a + MINUTE ==> Within(Grants(l, limit, calls), a, a + MINUTE) == 0
    decreases |calls|
  {
    if calls != [] {
      var c := calls[0];
      LateGrants(Taken(l, limit, c), limit, calls[1..], c.stamp, a);
      WithinCons(c.stamp, Grants(Taken(l, limit, c), limit, calls[1..]), a, a + MINUTE);
    }
  }

  /** Over every run and for every key, no minute sees more than twice the key's limit. */
  lemma TwiceLimitPerMinute(
    limits: string -> int, calls: seq<Call>, start: int, key: string, a: int)
    requires Timed(start, calls)
    ensures Within(GrantsOf(map[], limits, calls, key), a, a + MINUTE) <= 2 * Cap(limits(key))
  {
    KeysAreIndependent(map[], limits, calls, key);
    OnlyTimed(start, start, calls, key);
    var own := Only(calls, key);
    if own != [] {
      var l := Limiter(limits(key), own[0].born);
      assert Timed(l.lastReset, own);
      MinuteBudget(l, limits(key), own, a);
    }
  }

  // ----- The long-run rate -----

  /** How many stamps are not past `end`. */
  function UpTo(stamps: seq<int>, end: int): nat {
    if stamps == [] then 0 else (if stamps[0] <= end then 1 else 0) + UpTo(stamps[1..], end)
  }

  lemma UpToCons(x: int, rest: seq<int>, end: int)
    ensures UpTo([x] + rest, end) == (if x <= end then 1 else 0) + UpTo(rest, end)
  {
  }

  function Minutes(span: int): nat
    requires span >= 0
  {
    span / MINUTE
  }

  lemma RefillsFit(cap: nat, longer: int, shorter: int)
    requires 0 <= shorter && shorter + MINUTE <= longer
    ensures cap + cap * Minutes(shorter) <= cap * Minutes(longer)
  {
    var m, n := Minutes(shorter), Minutes(longer);
    assert m + 1 <= n;
    assert cap * (m + 1) <= cap * n;
  }

  lemma {:induction false} LongRunBudget(l: Limiter, limit: int, calls: seq<Call>, end: int)
    requires Timed(l.lastReset, calls) && l.tokens <= Cap(limit)
    ensures l.lastReset <= end ==>
              UpTo(Grants(l, limit, calls), end)
              <= Cap(l.tokens) + Cap(limit) * Minutes(end - l.lastReset)
    ensures end < l.lastReset ==> UpTo(Grants(l, limit, calls), end) == 0
    decreases |calls|
  {
    if calls != [] {
      var c, rest := calls[0], calls[1..];
      var l' := Taken(l, limit, c);
      TimedFrom(c.stamp, l'.lastReset, rest);
      LongRunBudget(l', limit, rest, end);
      if Granted(l, limit, c) {
        UpToCons(c.stamp, Grants(l', limit, rest), end);
      }
      if c.seen - l.lastReset >= MINUTE && l'.lastReset <= end {
        RefillsFit(Cap(limit), end - l.lastReset, end - l'.lastReset);
      }
    }
  }

  /** Within `span` of a key's first call at most limit * (1 + whole minutes in span) requests
      are granted. */
  lemma LongRunRate(limits: string -> int, calls: seq<Call>, start: int, key: string, span: int)
    requires Timed(start, calls) && span >= 0 && Only(calls, key) != []
    ensures UpTo(GrantsOf(map[], limits, calls, key), Only(calls, key)[0].born + span)
         <= Cap(limits(key)) + Cap(limits(key)) * Minutes(span)
  {
    KeysAreIndependent(map[], limits, calls, key);
    OnlyTimed(start, start, calls, key);
    var own := Only(calls, key);
    LongRunBudget(Limiter(limits(key), own[0].born), limits(key), own, own[0].born + span);
  }

  // ----- The factor two is real -----

  function Burst(key: string, at: int, n: nat): seq<Call> {
    Repeat(Call(key, 0, at, at), n)
  }

  lemma {:induction false} DrainBurst(
    l: Limiter, limit: int, key: string, at: int, n: nat, more: seq<Call>)
    requires l.tokens >= n && at - l.lastReset < MINUTE
    ensures Grants(l, limit, Burst(key, at, n) + more)
         == Repeat(at, n) + Grants(l.(tokens := l.tokens - n), limit, more)
    decreases n
  {
    var calls := Burst(key, at, n) + more;
    if n == 0 {
      assert calls == more;
    } else {
      assert calls[1..] == Burst(key, at, n - 1) + more;
      DrainBurst(l.(tokens := l.tokens - 1), limit, key, at, n - 1, more);
      assert Repeat(at, n) == [at] + Repeat(at, n - 1);
    }
  }

  lemma {:induction false} WithinRepeat(x: int, n: nat, rest: seq<int>, from: int, to: int)
    requires from <= x < to
    ensures Within(Repeat(x, n) + rest, from, to) == n + Within(rest, from, to)
  {
    if n == 0 {
      assert Repeat(x, n) + rest == rest;
    } else {
      WithinRepeat(x, n - 1, rest, from, to);
      assert (Repeat(x, n) + rest)[1..] == Repeat(x, n - 1) + rest;
    }
  }

  lemma {:induction false} BurstIsTimed(start: int, key: string, at: int, n: nat, more: seq<Call>)
    requires 0 <= start <= at && Timed(at, more)
    ensures Timed(start, Burst(key, at, n) + more)
    decreases n
  {
    var calls := Burst(key, at, n) + more;
    if n == 0 {
      assert calls == more;
      TimedFrom(at, start, more);
    } else {
      assert calls[1..] == Burst(key, at, n - 1) + more;
      BurstIsTimed(at, key, at, n - 1, more);
    }
  }

  lemma {:induction false} OnlyOwn(calls: seq<Call>, key: string)
    requires forall i :: 0 <= i < |calls| ==> calls[i].key == key
    ensures Only(calls, key) == calls
  {
    if calls != [] {
      OnlyOwn(calls[1..], key);
    }
  }

  function TwoBursts(key: string, limit: nat): seq<Call> {
    Burst(key, MINUTE - 1, limit) + Burst(key, MINUTE, limit)
  }

  /** The bound is attained: for every positive limit, a burst just before a refill and one just
      after it get twice the limit inside one minute, so "requests per minute" holds only up to
      this factor. */
  lemma DoubleBurst(key: string, limits: string -> int)
    requires limits(key) > 0
    ensures var calls := TwoBursts(key, limits(key));
            Timed(0, calls)
            && Within(GrantsOf(map[], limits, calls, key), MINUTE - 1, 2 * MINUTE - 1)
               == 2 * limits(key)
  {
    var limit := limits(key);
    var early, late := Burst(key, MINUTE - 1, limit), Burst(key, MINUTE, limit);
    assert late + [] == late;
    BurstIsTimed(MINUTE - 1, key, MINUTE, limit, []);
    BurstIsTimed(MINUTE, key, MINUTE, limit, []);
    BurstIsTimed(0, key, MINUTE - 1, limit, late);
    KeysAreIndependent(map[], limits, early + late, key);
    OnlyOwn(early + late, key);
    BothBurstsGranted(key, limit);
  }

  /** A run in which the key gets more than its limit in the minute from `a`. */
  ghost predicate Exceeds(
    limits: string -> int, key: string, start: int, calls: seq<Call>, a: int)
  {
    Timed(start, calls)
    && Within(GrantsOf(map[], limits, calls, key), a, a + MINUTE) > Cap(limits(key))
  }

  /** So "requests per minute" holds in every minute of every run exactly for keys that may make no
      request at all. */
  lemma PerMinuteIff(key: string, limits: string -> int)
    ensures (forall start, calls, a :: !Exceeds(limits, key, start, calls, a)) <==> limits(key) <= 0
  {
    if limits(key) <= 0 {
      forall start, calls, a
        ensures !Exceeds(limits, key, start, calls, a)
      {
        if Timed(start, calls) {
          TwiceLimitPerMinute(limits, calls, start, key, a);
        }
      }
    } else {
      DoubleBurst(key, limits);
      assert Exceeds(limits, key, 0, TwoBursts(key, limits(key)), MINUTE - 1);
    }
  }

  lemma BothBurstsGranted(key: string, limit: int)
    requires limit > 0
    ensures Within(Grants(Limiter(limit, 0), limit, TwoBursts(key, limit)),
                   MINUTE - 1, 2 * MINUTE - 1) == 2 * limit
  {
    RefillBurst(key, limit);
    DrainBurst(Limiter(limit, 0), limit, key, MINUTE - 1, limit, Burst(key, MINUTE, limit));
    var late := Repeat(MINUTE, limit);
    assert late + [] == late;
    WithinRepeat(MINUTE - 1, limit, late, MINUTE - 1, 2 * MINUTE - 1);
    WithinRepeat(MINUTE, limit, [], MINUTE - 1, 2 * MINUTE - 1);
  }

  lemma RefillBurst(key: string, limit: int)
    requires limit > 0
    ensures Grants(Limiter(0, 0), limit, Burst(key, MINUTE, limit)) == Repeat(MINUTE, limit)
  {
    var calls, rest := Burst(key, MINUTE, limit), Burst(key, MINUTE, limit - 1);
    assert calls[1..] == rest && rest + [] == rest;
    DrainBurst(Limiter(limit - 1, MINUTE), limit, key, MINUTE, limit - 1, []);
    var later := Repeat(MINUTE, limit - 1);
    assert later + [] == later && [MINUTE] + later == Repeat(MINUTE, limit);
  }
}

/**
The token-bucket rate limiter (extension-example/ratelimit/main.go).

Times and durations are integer nanoseconds, as in Go; tokens and rates are reals.  Converting a real
number of nanoseconds to a duration drops the fraction, which the model keeps.  A take reads the clock
before it gets the lock, so takes may happen out of the order of their clocks.
*/
module Limiter {

  import opened Common

  datatype Bucket = Bucket(tokens: real, last: int)

  datatype Config = Config(rate: real, burst: real)

  /** The buckets and the time of the last sweep. */
  datatype State = State(buckets: map<string, Bucket>, lastSweep: int)

  const SECOND := 1_000_000_000
  const SWEEP_EVERY := 60 * SECOND
  const DEFAULT := Config(100.0 / 60.0, 20.0)

  predicate ValidConfig(c: Config) {
    c.rate > 0.0 && c.burst >= 1.0
  }

  /** What an operator typed, parsed: a bad value falls back rather than switching limiting off. */
  function Configured(perMinute: Option<real>, burst: Option<real>): (c: Config)
    ensures ValidConfig(c)
    ensures perMinute.Some? && perMinute.value > 0.0 ==> c.rate * 60.0 == perMinute.value
    ensures burst.Some? && burst.value >= 1.0 ==> c.burst == burst.value
    ensures perMinute.None? || perMinute.value <= 0.0 ==> c.rate * 60.0 == 100.0
    ensures burst.None? || burst.value < 1.0 ==> c.burst == 20.0
  {
    Config(if perMinute.Some? && perMinute.value > 0.0 then perMinute.value / 60.0 else DEFAULT.rate,
           if burst.Some? && burst.value >= 1.0 then burst.value else DEFAULT.burst)
  }

  function Seconds(d: int): real {
    d as real / 1000000000.0
  }

  /** Tokens earned over a duration. */
  function Earned(c: Config, d: int): real {
    Seconds(d) * c.rate
  }

  function Min(a: real, b: real): real {
    if a <= b then a else b
  }

  /** The bucket's tokens at time t, before or after its last take, if nothing is taken and nothing overflows. */
  function Line(c: Config, b: Bucket, t: int): real {
    b.tokens + Earned(c, t - b.last)
  }

  /** Tokens the caller would find at time t. */
  function Level(c: Config, buckets: map<string, Bucket>, key: string, t: int): real {
    if key in buckets then Min(Line(c, buckets[key], t), c.burst) else c.burst
  }

  /** How long a bucket must be idle before it is forgotten. */
  function Idle(c: Config): int
    requires ValidConfig(c)
  {
    (c.burst / c.rate * 1000000000.0).Floor + SWEEP_EVERY
  }

  predicate SweepDue(s: State, now: int) {
    now - s.lastSweep >= SWEEP_EVERY
  }

  function Swept(c: Config, s: State, now: int): State
    requires ValidConfig(c)
  {
    if !SweepDue(s, now) then s
    else State(map k | k in s.buckets && !(now - s.buckets[k].last > Idle(c)) :: s.buckets[k], now)
  }

  /** How long a refused caller is told to wait. */
  function RetryAfter(c: Config, level: real): int
    requires ValidConfig(c)
  {
    ((1.0 - level) / c.rate * 1000000000.0).Floor + SECOND
  }

  /** The whole seconds that go into the Retry-After header. */
  function Header(retryAfter: int): int {
    (Seconds(retryAfter) + 0.5).Floor
  }

  datatype Decision = Allowed | Refused(retryAfter: int)

  function Decide(c: Config, level: real): Decision
    requires ValidConfig(c)
  {
    if level < 1.0 then Refused(RetryAfter(c, level)) else Allowed
  }

  /** A take on buckets that have already been swept, or never are. */
  function Charged(c: Config, buckets: map<string, Bucket>, key: string, now: int): map<string, Bucket> {
    var level := Level(c, buckets, key, now);
    buckets[key := Bucket(if level < 1.0 then level else level - 1.0, now)]
  }

  function TakeState(c: Config, s: State, key: string, now: int): State
    requires ValidConfig(c)
  {
    var t := Swept(c, s, now);
    State(Charged(c, t.buckets, key, now), t.lastSweep)
  }

  function TakeDecision(c: Config, s: State, key: string, now: int): Decision
    requires ValidConfig(c)
  {
    Decide(c, Level(c, Swept(c, s, now).buckets, key, now))
  }

  // ----- arithmetic -----

  lemma EarnedAdds(c: Config, d: int, e: int)
    ensures Earned(c, d + e) == Earned(c, d) + Earned(c, e)
  {
    assert Seconds(d + e) == Seconds(d) + Seconds(e);
    Distribute(Seconds(d), Seconds(e), c.rate);
  }

  lemma Distribute(x: real, y: real, z: real)
    ensures (x + y) * z == x * z + y * z
  {
  }

  lemma EarnedMonotone(c: Config, d: int, e: int)
    requires ValidConfig(c) && d <= e
    ensures Earned(c, d) <= Earned(c, e)
    ensures Earned(c, 0) == 0.0
  {
    assert Seconds(d) <= Seconds(e);
    Scale(Seconds(d), Seconds(e), c.rate);
  }

  lemma Scale(x: real, y: real, z: real)
    requires x <= y && z > 0.0
    ensures x * z <= y * z
  {
  }

  /** A duration at least x/rate seconds long earns at least x. */
  lemma EarnsAtLeast(c: Config, x: real, d: int)
    requires ValidConfig(c) && Seconds(d) >= x / c.rate
    ensures Earned(c, d) >= x
  {
    Scale(x / c.rate, Seconds(d), c.rate);
    assert x / c.rate * c.rate == x;
  }

  /** A bucket idle for longer than Idle, less what a sweep adds to it, has refilled. */
  lemma IdleRefills(c: Config, d: int)
    requires ValidConfig(c) && d > Idle(c) - SWEEP_EVERY
    ensures Earned(c, d) >= c.burst
  {
    var x := c.burst / c.rate * 1000000000.0;
    assert d as real >= x;
    assert Seconds(d) >= x / 1000000000.0;
    EarnsAtLeast(c, c.burst, d);
  }

  /** The advertised whole seconds are enough to earn what is missing. */
  lemma HeaderIsEnough(c: Config, level: real)
    requires ValidConfig(c) && level < 1.0
    ensures Header(RetryAfter(c, level)) >= 1
    ensures Earned(c, Header(RetryAfter(c, level)) * SECOND) >= 1.0 - level
    ensures Header(RetryAfter(c, level)) as real <= (1.0 - level) / c.rate + 1.5
  {
    var need := (1.0 - level) / c.rate;
    var w, h := RetryAfter(c, level), Header(RetryAfter(c, level));
    assert need > 0.0;
    assert w as real > need * 1000000000.0 - 1.0 + 1000000000.0;
    assert Seconds(w) > need + 0.999999999;
    assert h as real > Seconds(w) - 0.5;
    assert Seconds(h * SECOND) == h as real;
    EarnsAtLeast(c, 1.0 - level, h * SECOND);
  }

  /** A bucket earns at the rate, whichever of the two times is later. */
  lemma LineAdds(c: Config, b: Bucket, t: int, u: int)
    ensures Line(c, b, u) == Line(c, b, t) + Earned(c, u - t)
  {
    EarnedAdds(c, t - b.last, u - t);
    assert t - b.last + (u - t) == u - b.last;
  }

  // ----- runs -----

  /** One take: who, and the clock it read. */
  datatype Event = Event(key: string, at: int)

  /** The limiter after the first n takes, starting from one that was just created. */
  ghost function After(c: Config, start: int, events: seq<Event>, n: nat): State
    requires ValidConfig(c) && n <= |events|
  {
    if n == 0 then State(map[], start) else TakeState(c, After(c, start, events, n - 1), events[n - 1].key, events[n - 1].at)
  }

  ghost function DecisionAt(c: Config, start: int, events: seq<Event>, n: nat): Decision
    requires ValidConfig(c) && n < |events|
  {
    TakeDecision(c, After(c, start, events, n), events[n].key, events[n].at)
  }

  ghost function Decisions(c: Config, start: int, events: seq<Event>): seq<Decision>
    requires ValidConfig(c)
  {
    seq(|events|, i requires 0 <= i < |events| => DecisionAt(c, start, events, i))
  }

  /** The buckets of a limiter that never forgets one. */
  ghost function Unswept(c: Config, events: seq<Event>, n: nat): map<string, Bucket>
    requires ValidConfig(c) && n <= |events|
  {
    if n == 0 then map[] else Charged(c, Unswept(c, events, n - 1), events[n - 1].key, events[n - 1].at)
  }

  ghost function UnsweptAt(c: Config, events: seq<Event>, n: nat): Decision
    requires ValidConfig(c) && n < |events|
  {
    Decide(c, Level(c, Unswept(c, events, n), events[n].key, events[n].at))
  }

  ghost function UnsweptDecisions(c: Config, events: seq<Event>): seq<Decision>
    requires ValidConfig(c)
  {
    seq(|events|, i requires 0 <= i < |events| => UnsweptAt(c, events, i))
  }

  // ----- a limiter that never sweeps keeps its promises in any order -----

  predicate Within(e: Event, key: string, from: int, to: int) {
    e.key == key && from <= e.at <= to
  }

  /** Allowed takes of one caller whose clocks lie within a time interval, among the first n takes. */
  function AllowedIn(events: seq<Event>, made: seq<Decision>, n: nat, key: string, from: int, to: int): nat
    requires n <= |events| == |made|
  {
    if n == 0 then 0
    else
      AllowedIn(events, made, n - 1, key, from, to) +
      if Within(events[n - 1], key, from, to) && made[n - 1] == Allowed then 1 else 0
  }

  /** A full bucket and what the interval earns. */
  function Budget(c: Config, from: int, to: int): real {
    c.burst + Earned(c, to - from)
  }

  /** What of the budget the caller could still spend by the end of the interval. */
  function Unspent(c: Config, buckets: map<string, Bucket>, key: string, from: int, to: int): real {
    if key in buckets then Min(Line(c, buckets[key], to), Budget(c, from, to)) else Budget(c, from, to)
  }

  /** A take never adds to what is unspent, and one that is allowed within the interval spends a token of it. */
  lemma TakeSpends(c: Config, buckets: map<string, Bucket>, e: Event, key: string, from: int, to: int)
    requires ValidConfig(c) && from <= to
    ensures var counted := Within(e, key, from, to) && Decide(c, Level(c, buckets, e.key, e.at)) == Allowed;
            && Unspent(c, Charged(c, buckets, e.key, e.at), key, from, to)
               <= Unspent(c, buckets, key, from, to) - (if counted then 1.0 else 0.0)
            && (counted ==> Unspent(c, Charged(c, buckets, e.key, e.at), key, from, to) >= 0.0)
  {
    if e.key == key {
      var b := Charged(c, buckets, key, e.at)[key];
      LineAdds(c, b, e.at, to);
      EarnedMonotone(c, 0, 0);
      EarnedMonotone(c, 0, to - from);
      if key in buckets {
        LineAdds(c, buckets[key], e.at, to);
      }
      if Within(e, key, from, to) {
        EarnedMonotone(c, to - e.at, to - from);
        EarnedMonotone(c, 0, to - e.at);
      }
    }
  }

  lemma {:induction false} BudgetHolds(c: Config, events: seq<Event>, n: nat, key: string, from: int, to: int)
    requires ValidConfig(c) && n <= |events| && from <= to
    ensures AllowedIn(events, UnsweptDecisions(c, events), n, key, from, to) as real +
            Unspent(c, Unswept(c, events, n), key, from, to) <= Budget(c, from, to)
  {
    if n > 0 {
      BudgetHolds(c, events, n - 1, key, from, to);
      TakeSpends(c, Unswept(c, events, n - 1), events[n - 1], key, from, to);
    }
  }

  /** The limit holds in every order of the takes. */
  lemma {:induction false} UnsweptRateIsBounded(c: Config, events: seq<Event>, n: nat, key: string, from: int, to: int)
    requires ValidConfig(c) && n <= |events| && from <= to
    ensures AllowedIn(events, UnsweptDecisions(c, events), n, key, from, to) as real <= Budget(c, from, to)
  {
    if n == 0 {
      EarnedMonotone(c, 0, to - from);
    } else {
      UnsweptRateIsBounded(c, events, n - 1, key, from, to);
      BudgetHolds(c, events, n, key, from, to);
      TakeSpends(c, Unswept(c, events, n - 1), events[n - 1], key, from, to);
    }
  }

  // ----- and it refuses nobody it need not -----

  /** Allowed takes of one caller from take i on, before take j. */
  function AllowedSince(events: seq<Event>, made: seq<Decision>, i: nat, j: nat, key: string): nat
    requires j <= |events| == |made|
  {
    if j <= i then 0
    else AllowedSince(events, made, i, j - 1, key) + if events[j - 1].key == key && made[j - 1] == Allowed then 1 else 0
  }

  /** What a bucket that was full before the caller's take i would hold at time t, after the first n takes. */
  ghost function FullAt(c: Config, events: seq<Event>, i: nat, n: nat, key: string, t: int): real
    requires ValidConfig(c) && i < n <= |events|
  {
    c.burst + Earned(c, t - events[i].at) - AllowedSince(events, UnsweptDecisions(c, events), i, n, key) as real
  }

  /** The value is the least of these over the caller's takes. */
  ghost predicate IsLeast(c: Config, events: seq<Event>, n: nat, key: string, t: int, x: real)
    requires ValidConfig(c) && n <= |events|
  {
    && (forall i: nat :: i < n && events[i].key == key ==> x <= FullAt(c, events, i, n, key, t))
    && (exists i: nat :: i < n && events[i].key == key && x == FullAt(c, events, i, n, key, t))
  }

  lemma FullStep(c: Config, events: seq<Event>, i: nat, n: nat, key: string, t: int)
    requires ValidConfig(c) && i < n < |events|
    ensures FullAt(c, events, i, n + 1, key, t) ==
              FullAt(c, events, i, n, key, t) - if events[n].key == key && UnsweptAt(c, events, n) == Allowed then 1.0 else 0.0
  {
  }

  /** The least so far, and the full bucket of this take: the smaller of both, less what is taken. */
  lemma ChargedLine(c: Config, was: map<string, Bucket>, key: string, u: int, t: int)
    requires ValidConfig(c)
    ensures var full, spent := c.burst + Earned(c, t - u), if Level(c, was, key, u) < 1.0 then 0.0 else 1.0;
            Line(c, Charged(c, was, key, u)[key], t) == (if key in was then Min(Line(c, was[key], t), full) else full) - spent
  {
    EarnedMonotone(c, 0, 0);
    LineAdds(c, Charged(c, was, key, u)[key], u, t);
    if key in was {
      LineAdds(c, was[key], u, t);
    }
  }

  /** Somebody else's take changes neither. */
  lemma LeastOfOther(c: Config, events: seq<Event>, m: nat, key: string, t: int, x: real)
    requires ValidConfig(c) && m < |events| && events[m].key != key && IsLeast(c, events, m, key, t, x)
    ensures IsLeast(c, events, m + 1, key, t, x)
  {
    forall i: nat | i < m
      ensures FullAt(c, events, i, m + 1, key, t) == FullAt(c, events, i, m, key, t)
    {
      FullStep(c, events, i, m, key, t);
    }
    var i: nat :| i < m && events[i].key == key && x == FullAt(c, events, i, m, key, t);
    assert x == FullAt(c, events, i, m + 1, key, t);
  }

  /** The caller's own take m lowers all of them by what it spends, and adds its own. */
  lemma LeastOfOwn(c: Config, events: seq<Event>, m: nat, t: int, before: Option<real>, x: real)
    requires ValidConfig(c) && m < |events|
    requires before.Some? ==> IsLeast(c, events, m, events[m].key, t, before.value)
    requires before.None? ==> forall i: nat :: i < m ==> events[i].key != events[m].key
    requires var full := c.burst + Earned(c, t - events[m].at);
             x == (if before.Some? then Min(before.value, full) else full) - if UnsweptAt(c, events, m) == Allowed then 1.0 else 0.0
    ensures IsLeast(c, events, m + 1, events[m].key, t, x)
  {
    var key, spent := events[m].key, if UnsweptAt(c, events, m) == Allowed then 1.0 else 0.0;
    assert AllowedSince(events, UnsweptDecisions(c, events), m, m, key) == 0;
    assert FullAt(c, events, m, m + 1, key, t) == c.burst + Earned(c, t - events[m].at) - spent;
    forall i: nat | i < m
      ensures FullAt(c, events, i, m + 1, key, t) == FullAt(c, events, i, m, key, t) - spent
    {
      FullStep(c, events, i, m, key, t);
    }
    if before.Some? && before.value <= c.burst + Earned(c, t - events[m].at) {
      var i: nat :| i < m && events[i].key == key && before.value == FullAt(c, events, i, m, key, t);
      assert x == FullAt(c, events, i, m + 1, key, t);
    } else {
      assert x == FullAt(c, events, m, m + 1, key, t);
    }
  }

  ghost predicate Took(events: seq<Event>, n: nat, key: string)
    requires n <= |events|
  {
    exists i: nat :: i < n && events[i].key == key
  }

  /** A bucket's line is the lowest of the lines of full buckets, one started at each of the caller's takes. */
  lemma {:induction false} LineIsLeast(c: Config, events: seq<Event>, n: nat, key: string, t: int)
    requires ValidConfig(c) && n <= |events|
    ensures key in Unswept(c, events, n) <==> Took(events, n, key)
    ensures key in Unswept(c, events, n) ==> IsLeast(c, events, n, key, t, Line(c, Unswept(c, events, n)[key], t))
  {
    if n > 0 {
      var m := n - 1;
      var was := Unswept(c, events, m);
      LineIsLeast(c, events, m, key, t);
      if events[m].key == key {
        assert Took(events, n, key);
        ChargedLine(c, was, key, events[m].at, t);
        LeastOfOwn(c, events, m, t, if key in was then Some(Line(c, was[key], t)) else None, Line(c, Unswept(c, events, n)[key], t));
      } else {
        assert Took(events, n, key) <==> Took(events, m, key);
        if key in was {
          LeastOfOther(c, events, m, key, t, Line(c, was[key], t));
        }
      }
    }
  }

  /** The caller may make its take j, counting from its take i: that and the ones allowed since fit a burst and what was earned. */
  ghost predicate FitsSince(c: Config, events: seq<Event>, made: seq<Decision>, i: nat, j: nat)
    requires i <= j < |events| == |made|
  {
    AllowedSince(events, made, i, j, events[j].key) as real + 1.0
      <= c.burst + (events[j].at - events[i].at) as real / 1000000000.0 * c.rate
  }

  ghost predicate Fits(c: Config, events: seq<Event>, made: seq<Decision>, j: nat)
    requires j < |events| == |made|
  {
    forall i: nat :: i <= j && events[i].key == events[j].key ==> FitsSince(c, events, made, i, j)
  }

  /** Without sweeping a take is allowed exactly if it fits from every earlier take of the caller on, in any order of clocks. */
  lemma UnsweptAllowsExactly(c: Config, events: seq<Event>, j: nat)
    requires ValidConfig(c) && j < |events|
    ensures UnsweptAt(c, events, j) == Allowed <==> Fits(c, events, UnsweptDecisions(c, events), j)
  {
    var key, was := events[j].key, Unswept(c, events, j);
    LineIsLeast(c, events, j, key, events[j].at);
    FitsNow(c, events, j);
    if key in was {
      LeastFits(c, events, j, Line(c, was[key], events[j].at));
    } else {
      assert forall i: nat :: i < j ==> events[i].key != key;
    }
  }

  lemma FitsNow(c: Config, events: seq<Event>, j: nat)
    requires ValidConfig(c) && j < |events|
    ensures FitsSince(c, events, UnsweptDecisions(c, events), j, j)
  {
    EarnedMonotone(c, 0, 0);
  }

  lemma FitsMeans(c: Config, events: seq<Event>, i: nat, j: nat)
    requires ValidConfig(c) && i < j < |events|
    ensures FitsSince(c, events, UnsweptDecisions(c, events), i, j) <==> FullAt(c, events, i, j, events[j].key, events[j].at) >= 1.0
  {
  }

  /** The least of the full buckets has a token exactly if all of them do. */
  lemma LeastFits(c: Config, events: seq<Event>, j: nat, x: real)
    requires ValidConfig(c) && j < |events| && IsLeast(c, events, j, events[j].key, events[j].at, x)
    ensures x >= 1.0 <==> Fits(c, events, UnsweptDecisions(c, events), j)
  {
    FitsNow(c, events, j);
    forall i: nat | i < j && events[i].key == events[j].key
      ensures FitsSince(c, events, UnsweptDecisions(c, events), i, j) <==> FullAt(c, events, i, j, events[j].key, events[j].at) >= 1.0
    {
      FitsMeans(c, events, i, j);
    }
    var i: nat :| i < j && events[i].key == events[j].key && x == FullAt(c, events, i, j, events[j].key, events[j].at);
    assert FitsSince(c, events, UnsweptDecisions(c, events), i, j) <==> x >= 1.0;
  }

  /** A refused take leaves the bucket on its line. */
  lemma RefusalKeepsLine(c: Config, b: Bucket, e: Event, buckets: map<string, Bucket>, t: int)
    requires ValidConfig(c) && e.key in buckets && b == buckets[e.key]
    requires Decide(c, Level(c, buckets, e.key, e.at)).Refused?
    ensures Line(c, Charged(c, buckets, e.key, e.at)[e.key], t) == Line(c, b, t)
  {
    LineAdds(c, b, e.at, t);
    LineAdds(c, Charged(c, buckets, e.key, e.at)[e.key], e.at, t);
    EarnedMonotone(c, 0, 0);
  }

  // ----- Retry-After is honest -----

  /** While its takes are refused a bucket stays on its line, until it is swept. */
  lemma {:induction false} QuietLine(c: Config, start: int, events: seq<Event>, i: nat, j: nat, key: string, t: int)
    requires ValidConfig(c) && i <= j <= |events| && key in After(c, start, events, i).buckets
    requires forall k :: i <= k < j && events[k].key == key ==> DecisionAt(c, start, events, k).Refused?
    ensures var was, now := After(c, start, events, i).buckets, After(c, start, events, j).buckets;
            key in now ==> Line(c, now[key], t) == Line(c, was[key], t)
  {
    if i < j {
      QuietLine(c, start, events, i, j - 1, key, t);
      var s, e := After(c, start, events, j - 1), events[j - 1];
      var swept := Swept(c, s, e.at).buckets;
      if e.key == key && key in swept {
        RefusalKeepsLine(c, swept[key], e, swept, t);
      }
    }
  }

  /**
  A refused caller who comes back after the advertised whole seconds is allowed, whatever other callers and the
  sweeper did, however often the caller was refused meanwhile, and in any order of the clocks.
  */
  lemma RetryAfterIsHonest(c: Config, start: int, events: seq<Event>, i: nat, j: nat)
    requires ValidConfig(c) && i < j < |events| && events[i].key == events[j].key
    requires DecisionAt(c, start, events, i).Refused?
    requires forall k :: i < k < j && events[k].key == events[i].key ==> DecisionAt(c, start, events, k).Refused?
    requires events[j].at >= events[i].at + Header(DecisionAt(c, start, events, i).retryAfter) * SECOND
    ensures DecisionAt(c, start, events, j) == Allowed
  {
    var key, t, u := events[i].key, events[i].at, events[j].at;
    var level := Level(c, Swept(c, After(c, start, events, i), t).buckets, key, t);
    HeaderIsEnough(c, level);
    EarnedMonotone(c, Header(RetryAfter(c, level)) * SECOND, u - t);
    QuietLine(c, start, events, i + 1, j, key, u);
    assert After(c, start, events, i + 1).buckets[key] == Bucket(level, t);
  }

  // ----- sweeping is invisible -----

  /** No take comes after one that read a clock more than d later. */
  ghost predicate TimelyBy(events: seq<Event>, d: int) {
    forall i, j :: 0 <= i < j < |events| ==> events[i].at - d <= events[j].at
  }

  /** Half a sweep interval. */
  const SLACK := SWEEP_EVERY / 2

  ghost predicate Timely(events: seq<Event>) {
    TimelyBy(events, SLACK)
  }

  /** The latest clock among the first n takes. */
  ghost function Latest(events: seq<Event>, n: nat): int
    requires n <= |events|
  {
    if n == 0 then if |events| == 0 then 0 else events[0].at
    else var m := Latest(events, n - 1); if events[n - 1].at <= m then m else events[n - 1].at
  }

  lemma {:induction false} LatestBounds(events: seq<Event>, n: nat, k: nat)
    requires Timely(events) && n <= k < |events|
    ensures Latest(events, n) - SLACK <= events[k].at
  {
    if n > 0 {
      LatestBounds(events, n - 1, k);
    }
  }

  /** Every bucket is worth something by `clock`, and was at most the slack below it at its own last take. */
  ghost predicate Good(c: Config, buckets: map<string, Bucket>, clock: int) {
    forall k :: k in buckets ==> Line(c, buckets[k], clock) >= 0.0 && buckets[k].tokens + Earned(c, SLACK) >= 0.0
  }

  lemma LaterIsGood(c: Config, buckets: map<string, Bucket>, clock: int, later: int)
    requires ValidConfig(c) && Good(c, buckets, clock) && clock <= later
    ensures Good(c, buckets, later)
  {
    EarnedMonotone(c, 0, later - clock);
    forall k | k in buckets
      ensures Line(c, buckets[k], later) >= 0.0
    {
      LineAdds(c, buckets[k], clock, later);
    }
  }

  /** Forgetting idle buckets changes no level at any time a later take may have read. */
  lemma SweepKeepsLevels(c: Config, s: State, clock: int, now: int, key: string, t: int)
    requires ValidConfig(c) && Good(c, s.buckets, clock) && now - SLACK <= t
    ensures Level(c, Swept(c, s, now).buckets, key, t) == Level(c, s.buckets, key, t)
  {
    if key in s.buckets && key !in Swept(c, s, now).buckets {
      var b := s.buckets[key];
      var d := t - b.last - SLACK;
      IdleRefills(c, d);
      EarnedAdds(c, d, SLACK);
      assert d + SLACK == t - b.last;
    }
  }

  lemma ChargeIsGood(c: Config, buckets: map<string, Bucket>, clock: int, e: Event, later: int)
    requires ValidConfig(c) && Good(c, buckets, clock) && clock - SLACK <= e.at <= later && clock <= later
    ensures Good(c, Charged(c, buckets, e.key, e.at), later)
  {
    LaterIsGood(c, buckets, clock, later);
    var after := Charged(c, buckets, e.key, e.at);
    LineAdds(c, after[e.key], e.at, later);
    EarnedMonotone(c, 0, 0);
    EarnedMonotone(c, 0, SLACK);
    EarnedMonotone(c, 0, later - e.at);
    if e.key in buckets {
      LineAdds(c, buckets[e.key], e.at, later);
      LineAdds(c, buckets[e.key], clock, e.at);
      EarnedMonotone(c, -SLACK, e.at - clock);
      EarnedAdds(c, -SLACK, SLACK);
    }
  }

  lemma {:induction false} RunIsGood(c: Config, start: int, events: seq<Event>, n: nat)
    requires ValidConfig(c) && Timely(events) && n <= |events|
    ensures Good(c, After(c, start, events, n).buckets, Latest(events, n))
  {
    if n > 0 {
      var e, s := events[n - 1], After(c, start, events, n - 1);
      RunIsGood(c, start, events, n - 1);
      LatestBounds(events, n - 1, n - 1);
      ChargeIsGood(c, Swept(c, s, e.at).buckets, Latest(events, n - 1), e, Latest(events, n));
    }
  }

  /** Both limiters see the same level for every caller at every time a later take may have read. */
  lemma {:induction false} SameLevels(c: Config, start: int, events: seq<Event>, n: nat, key: string, t: int)
    requires ValidConfig(c) && Timely(events) && n <= |events| && Latest(events, n) - SLACK <= t
    ensures Level(c, After(c, start, events, n).buckets, key, t) == Level(c, Unswept(c, events, n), key, t)
  {
    if n > 0 {
      var e, s, clock := events[n - 1], After(c, start, events, n - 1), Latest(events, n - 1);
      RunIsGood(c, start, events, n - 1);
      LatestBounds(events, n - 1, n - 1);
      SameLevels(c, start, events, n - 1, e.key, e.at);
      SweepKeepsLevels(c, s, clock, e.at, e.key, e.at);
      if e.key != key {
        SameLevels(c, start, events, n - 1, key, t);
        SweepKeepsLevels(c, s, clock, e.at, key, t);
      }
    }
  }

  /** One decision, and one advertised wait, is the one the limiter without sweeping would have made. */
  lemma SameDecision(c: Config, start: int, events: seq<Event>, n: nat)
    requires ValidConfig(c) && Timely(events) && n < |events|
    ensures DecisionAt(c, start, events, n) == UnsweptAt(c, events, n)
  {
    var e := events[n];
    RunIsGood(c, start, events, n);
    LatestBounds(events, n, n);
    SameLevels(c, start, events, n, e.key, e.at);
    SweepKeepsLevels(c, After(c, start, events, n), Latest(events, n), e.at, e.key, e.at);
  }

  /** While no take is half a sweep interval late, every decision is the one made without sweeping. */
  lemma SweepingIsInvisible(c: Config, start: int, events: seq<Event>)
    requires ValidConfig(c) && Timely(events)
    ensures Decisions(c, start, events) == UnsweptDecisions(c, events)
  {
    forall n | 0 <= n < |events|
      ensures DecisionAt(c, start, events, n) == UnsweptAt(c, events, n)
    {
      SameDecision(c, start, events, n);
    }
  }

  /**
  The limit.  In every run and for every caller, the takes allowed in any time interval number at most
  burst + rate * length.
  */
  lemma RateIsBounded(c: Config, start: int, events: seq<Event>, n: nat, key: string, from: int, to: int)
    requires ValidConfig(c) && Timely(events) && n <= |events| && from <= to
    ensures AllowedIn(events, Decisions(c, start, events), n, key, from, to) as real <= c.burst + Earned(c, to - from)
  {
    SweepingIsInvisible(c, start, events);
    UnsweptRateIsBounded(c, events, n, key, from, to);
  }

  /**
  The decision.  While no take is half a sweep interval late, a take is allowed exactly if, from every earlier take of the
  same caller on, it and the takes allowed since are no more than a burst and what was earned in between.
  */
  lemma AllowsExactly(c: Config, start: int, events: seq<Event>, j: nat)
    requires ValidConfig(c) && Timely(events) && j < |events|
    ensures DecisionAt(c, start, events, j) == Allowed <==> Fits(c, events, Decisions(c, start, events), j)
  {
    SweepingIsInvisible(c, start, events);
    SameDecision(c, start, events, j);
    UnsweptAllowsExactly(c, events, j);
  }

  // ----- and half a sweep interval is exactly what that takes -----

  const PLAIN := Config(1.0, 1.0)
  const START := 50 * SECOND

  /** Takes that are late by a nanosecond more: the second dates the bucket back, the third sweeps it. */
  const LATE := [Event("a", 100 * SECOND), Event("a", 70 * SECOND - 1), Event("b", 131 * SECOND), Event("a", 101 * SECOND - 1)]

  lemma LateIsLate()
    ensures TimelyBy(LATE, SLACK + 1)
  {
  }

  lemma LateSecond()
    ensures After(PLAIN, START, LATE, 2) == State(map["a" := Bucket(-30.000000001, 70 * SECOND - 1)], START)
    ensures DecisionAt(PLAIN, START, LATE, 0) == Allowed
  {
    assert After(PLAIN, START, LATE, 1) == State(map["a" := Bucket(0.0, 100 * SECOND)], START);
    assert Earned(PLAIN, -30 * SECOND - 1) == -30.000000001;
  }

  lemma LateLast()
    ensures DecisionAt(PLAIN, START, LATE, 3) == Allowed
  {
    LateSecond();
    assert Idle(PLAIN) == 61 * SECOND by {
      assert PLAIN.burst / PLAIN.rate * 1000000000.0 == 1000000000.0;
    }
    assert Swept(PLAIN, After(PLAIN, START, LATE, 2), 131 * SECOND).buckets == map[];
    assert "a" != "b";
    assert "a" !in After(PLAIN, START, LATE, 3).buckets;
  }

  /** Two takes within less than a second, at one token a second. */
  lemma LateTakeOverspends()
    ensures AllowedIn(LATE, Decisions(PLAIN, START, LATE), 4, "a", 100 * SECOND, 101 * SECOND - 1) as real
            > Budget(PLAIN, 100 * SECOND, 101 * SECOND - 1)
  {
    LateSecond();
    LateLast();
    var made, from, to := Decisions(PLAIN, START, LATE), 100 * SECOND, 101 * SECOND - 1;
    assert AllowedIn(LATE, made, 1, "a", from, to) == 1;
    assert AllowedIn(LATE, made, 3, "a", from, to) == AllowedIn(LATE, made, 2, "a", from, to) >= 1;
    assert Earned(PLAIN, to - from) == 0.999999999;
  }

  ghost predicate AlwaysInvisible(d: int) {
    forall c, start, events ::
      ValidConfig(c) && TimelyBy(events, d) ==> Decisions(c, start, events) == UnsweptDecisions(c, events)
  }

  ghost predicate KeepsTheLimit(c: Config, start: int, events: seq<Event>)
    requires ValidConfig(c)
  {
    forall key, from, to :: from <= to ==>
      AllowedIn(events, Decisions(c, start, events), |events|, key, from, to) as real <= Budget(c, from, to)
  }

  ghost predicate AlwaysKeepsTheLimit(d: int) {
    forall c, start, events :: ValidConfig(c) && TimelyBy(events, d) ==> KeepsTheLimit(c, start, events)
  }

  /**
  Takes may be out of the order of their clocks by d, in every run and under every configuration, if and only if d is
  at most half a sweep interval: for sweeping to be invisible, and for the limit to hold.
  */
  lemma SlackIsExact(d: int)
    ensures AlwaysInvisible(d) <==> d <= SLACK
    ensures AlwaysKeepsTheLimit(d) <==> d <= SLACK
  {
    if d <= SLACK {
      forall c, start, events | ValidConfig(c) && TimelyBy(events, d)
        ensures Decisions(c, start, events) == UnsweptDecisions(c, events) && KeepsTheLimit(c, start, events)
      {
        InvisibleWithin(c, start, events, d);
      }
    } else {
      LateIsLate();
      LateTakeOverspends();
      assert TimelyBy(LATE, d);
      assert !KeepsTheLimit(PLAIN, START, LATE);
      UnsweptRateIsBounded(PLAIN, LATE, 4, "a", 100 * SECOND, 101 * SECOND - 1);
      assert Decisions(PLAIN, START, LATE) != UnsweptDecisions(PLAIN, LATE);
    }
  }

  lemma InvisibleWithin(c: Config, start: int, events: seq<Event>, d: int)
    requires ValidConfig(c) && TimelyBy(events, d) && d <= SLACK
    ensures Decisions(c, start, events) == UnsweptDecisions(c, events) && KeepsTheLimit(c, start, events)
  {
    assert Timely(events);
    SweepingIsInvisible(c, start, events);
    forall key, from, to | from <= to
      ensures AllowedIn(events, Decisions(c, start, events), |events|, key, from, to) as real <= Budget(c, from, to)
    {
      RateIsBounded(c, start, events, |events|, key, from, to);
    }
  }

  // ----- the limiter as an object -----

  datatype Verdict = Continue | TooManyRequests(retryAfterSeconds: int)

  predicate Exempt(path: string, exempt: seq<string>) {
    HasPrefix(path, "/api/plugins/ratelimit/") || exists i :: 0 <= i < |exempt| && HasPrefix(path, exempt[i])
  }

  /** Who shares a budget: an identified user wherever they come from, everyone else by address. */
  function BucketKey(userId: Option<string>, clientIP: string): string {
    if userId.Some? && userId.value != "" then "user:" + userId.value else "ip:" + clientIP
  }

  /** A user's budget is never an address's, and different users or addresses have different budgets. */
  lemma BucketKeysAreSeparate(u: Option<string>, ip: string, v: Option<string>, ip': string)
    requires BucketKey(u, ip) == BucketKey(v, ip')
    ensures if u.Some? && u.value != "" then v == u else (v.None? || v.value == "") && ip == ip'
  {
    var k, l := BucketKey(u, ip), BucketKey(v, ip');
    assert k[0] == l[0];
    if u.Some? && u.value != "" {
      assert k[5..] == u.value && l[5..] == v.value;
    } else {
      assert k[3..] == ip && l[3..] == ip';
    }
  }

  /** Credits what a bucket has earned, up to the burst, and takes one token if there is one. */
  method Spend(c: Config, b: Bucket, now: int) returns (after: Bucket, d: Decision)
    requires ValidConfig(c)
    ensures var level := Min(Line(c, b, now), c.burst);
            d == Decide(c, level) && after == Bucket(if level < 1.0 then level else level - 1.0, now)
  {
    var tokens := b.tokens + Seconds(now - b.last) * c.rate;
    tokens := if tokens <= c.burst then tokens else c.burst;
    if tokens < 1.0 {
      return Bucket(tokens, now), Refused(((1.0 - tokens) / c.rate * 1000000000.0).Floor + SECOND);
    }
    return Bucket(tokens - 1.0, now), Allowed;
  }

  /** A bucket made on the spot is full. */
  lemma FullBucket(c: Config, now: int)
    requires ValidConfig(c)
    ensures Min(Line(c, Bucket(c.burst, now), now), c.burst) == c.burst
  {
    EarnedMonotone(c, 0, 0);
  }

  class Limiter {
    var config: Config
    var exemptPaths: seq<string>
    var buckets: map<string, Bucket>
    var lastSweep: int
    var allowed: nat
    var rejected: nat

    ghost predicate Valid()
      reads this
    {
      ValidConfig(config)
    }

    ghost function View(): State
      reads this
    {
      State(buckets, lastSweep)
    }

    constructor (now: int)
      ensures Valid() && config == DEFAULT && View() == State(map[], now) && allowed == rejected == 0
    {
      config, exemptPaths, buckets, lastSweep, allowed, rejected := DEFAULT, [], map[], now, 0, 0;
    }

    /** sweepLocked: drop the buckets that have been idle long enough to be full again. */
    method Sweep(now: int)
      requires Valid()
      modifies this`buckets, this`lastSweep
      ensures View() == Swept(config, old(View()), now)
      ensures lastSweep == if now - old(lastSweep) >= 60_000_000_000 then now else old(lastSweep)
      ensures var idle := (config.burst / config.rate * 1000000000.0).Floor + 60_000_000_000;
              forall k :: k in old(buckets) ==>
                (k !in buckets <==> now - old(lastSweep) >= 60_000_000_000 && now - old(buckets)[k].last > idle)
    {
      ghost var before := View();
      if now - lastSweep < SWEEP_EVERY {
        return;
      }
      lastSweep := now;
      var idle := (config.burst / config.rate * 1000000000.0).Floor + SWEEP_EVERY;
      var todo := buckets.Keys;
      while todo != {}
        invariant todo <= old(buckets).Keys && lastSweep == now
        invariant forall k :: k in buckets <==> k in old(buckets) && (k in todo || !(now - old(buckets)[k].last > idle))
        invariant forall k :: k in buckets ==> buckets[k] == old(buckets)[k]
        decreases todo
      {
        var k :| k in todo;
        if now - buckets[k].last > idle {
          buckets := buckets - {k};
        }
        todo := todo - {k};
      }
      assert buckets == Swept(config, before, now).buckets;
    }

    method Take(key: string, now: int) returns (d: Decision)
      requires Valid()
      modifies this`buckets, this`lastSweep, this`allowed
      ensures View() == TakeState(config, old(View()), key, now)
      ensures d == TakeDecision(config, old(View()), key, now)
      ensures allowed == old(allowed) + if d == Allowed then 1 else 0
    {
      Sweep(now);
      if key !in buckets {
        FullBucket(config, now);
        buckets := buckets[key := Bucket(config.burst, now)];
      }
      var after;
      after, d := Spend(config, buckets[key], now);
      buckets := buckets[key := after];
      if d == Allowed {
        allowed := allowed + 1;
      }
    }

    /** The filter itself: exempt paths are free, everyone else pays or is told when to come back. */
    method Check(path: string, userId: Option<string>, clientIP: string, now: int) returns (v: Verdict)
      requires Valid()
      modifies this`buckets, this`lastSweep, this`allowed, this`rejected
      ensures Exempt(path, exemptPaths) ==>
                v == Continue && View() == old(View()) && allowed == old(allowed) && rejected == old(rejected)
      ensures !Exempt(path, exemptPaths) ==>
                var key := BucketKey(userId, clientIP);
                var d := TakeDecision(config, old(View()), key, now);
                && View() == TakeState(config, old(View()), key, now)
                && v == (if d == Allowed then Continue else TooManyRequests(Header(d.retryAfter)))
                && allowed == old(allowed) + (if v == Continue then 1 else 0)
                && rejected == old(rejected) + (if v == Continue then 0 else 1)
    {
      var exempt := IsExempt(path);
      if exempt {
        return Continue;
      }
      var d := Take(BucketKey(userId, clientIP), now);
      if d == Allowed {
        return Continue;
      }
      rejected := rejected + 1;
      return TooManyRequests(Header(d.retryAfter));
    }

    method IsExempt(path: string) returns (b: bool)
      ensures b == Exempt(path, exemptPaths)
      ensures b <==> "/api/plugins/ratelimit/" <= path || exists i :: 0 <= i < |exemptPaths| && exemptPaths[i] <= path
    {
      if HasPrefix(path, "/api/plugins/ratelimit/") {
        return true;
      }
      for i := 0 to |exemptPaths|
        invariant forall k :: 0 <= k < i ==> !HasPrefix(path, exemptPaths[k])
      {
        if HasPrefix(path, exemptPaths[i]) {
          return true;
        }
      }
      return false;
    }

    /** Existing buckets keep their tokens. */
    method Configure(perMinute: Option<real>, burst: Option<real>, exempt: seq<string>)
      modifies this`config, this`exemptPaths
      ensures Valid() && config == Configured(perMinute, burst) && exemptPaths == exempt && View() == old(View())
    {
      var rate, b := DEFAULT.rate, DEFAULT.burst;
      if perMinute.Some? && perMinute.value > 0.0 {
        rate := perMinute.value / 60.0;
      }
      if burst.Some? && burst.value >= 1.0 {
        b := burst.value;
      }
      config, exemptPaths := Config(rate, b), exempt;
    }
  }
}

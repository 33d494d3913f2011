/**
Restarting crashed plugins (core/pluginhost/supervisor.go).

Crashes of one plugin fall into windows: a window opens with a crash and takes in every later one until a
crash comes more than CrashWindow after it opened.  `ts` are the moments one plugin crashed since its history
was last cleared.  Times are in nanoseconds.
*/
module Supervisor {

  import opened Common

  datatype Config = Config(initialBackoff: int, maxBackoff: int, crashThreshold: int, crashWindow: int)

  const SECOND := 1_000_000_000

  function Effective(c: Config): (r: Config)
    ensures Sane(r)
    ensures r.initialBackoff in {c.initialBackoff, 1_000_000_000} && r.maxBackoff in {c.maxBackoff, 60_000_000_000}
    ensures r.crashThreshold in {c.crashThreshold, 5} && r.crashWindow in {c.crashWindow, 300_000_000_000}
    ensures c.initialBackoff > 0 ==> r.initialBackoff == c.initialBackoff
    ensures c.maxBackoff > 0 ==> r.maxBackoff == c.maxBackoff
    ensures c.crashThreshold > 0 ==> r.crashThreshold == c.crashThreshold
    ensures c.crashWindow > 0 ==> r.crashWindow == c.crashWindow
  {
    Config(if c.initialBackoff <= 0 then SECOND else c.initialBackoff,
           if c.maxBackoff <= 0 then 60 * SECOND else c.maxBackoff,
           if c.crashThreshold <= 0 then 5 else c.crashThreshold,
           if c.crashWindow <= 0 then 300 * SECOND else c.crashWindow)
  }

  predicate Sane(c: Config) {
    c.initialBackoff > 0 && c.maxBackoff > 0 && c.crashThreshold > 0 && c.crashWindow > 0
  }

  // ----- windows of crashes -----

  /** The crash that opened the window of crash i. */
  function Opening(c: Config, ts: seq<int>, i: nat): (w: nat)
    requires i < |ts|
    ensures w <= i
  {
    if i == 0 || ts[i] - ts[Opening(c, ts, i - 1)] > c.crashWindow then i else Opening(c, ts, i - 1)
  }

  /** How many crashes the window of crash i has seen, it included. */
  function CountAt(c: Config, ts: seq<int>, i: nat): (n: nat)
    requires i < |ts|
    ensures n > 0
  {
    i - Opening(c, ts, i) + 1
  }

  /** The crash count that ends in quarantine: the configured one, but never the first crash of a window. */
  function Limit(c: Config): (n: nat)
    ensures n >= 2
  {
    if c.crashThreshold >= 2 then c.crashThreshold else 2
  }

  /** A window is one stretch of crashes, all close enough to the first. */
  lemma {:induction false} WindowIsAStretch(c: Config, ts: seq<int>, i: nat, k: nat)
    requires Sane(c) && i < |ts| && Opening(c, ts, i) <= k <= i
    ensures Opening(c, ts, k) == Opening(c, ts, i)
    ensures ts[k] - ts[Opening(c, ts, i)] <= c.crashWindow
  {
    if k < i {
      WindowIsAStretch(c, ts, i - 1, k);
    }
  }

  /** The next window opens exactly with the first crash that comes too late for this one. */
  lemma WindowCloses(c: Config, ts: seq<int>, i: nat)
    requires Sane(c) && i + 1 < |ts|
    ensures Opening(c, ts, i + 1) != Opening(c, ts, i) <==> ts[i + 1] - ts[Opening(c, ts, i)] > c.crashWindow
  {
  }

  lemma {:induction false} OpeningOfPrefix(c: Config, ts: seq<int>, t: int, i: nat)
    requires i < |ts|
    ensures Opening(c, ts + [t], i) == Opening(c, ts, i)
  {
    if i > 0 {
      OpeningOfPrefix(c, ts, t, i - 1);
    }
  }

  /** Crash i is reported as one too many. */
  predicate TooMany(c: Config, ts: seq<int>, i: nat)
    requires i < |ts|
  {
    CountAt(c, ts, i) >= Limit(c)
  }

  /** How many of the crashes from..i were answered with a restart. */
  function Restarts(c: Config, ts: seq<int>, from: nat, i: nat): nat
    requires from <= i <= |ts|
  {
    if i == from then 0 else Restarts(c, ts, from, i - 1) + if TooMany(c, ts, i - 1) then 0 else 1
  }

  /** Within one window a plugin is restarted at most Limit - 1 times, however often it crashes. */
  lemma {:induction false} RestartsAreBounded(c: Config, ts: seq<int>, i: nat)
    requires Sane(c) && i < |ts|
    ensures var n := CountAt(c, ts, i);
            Restarts(c, ts, Opening(c, ts, i), i + 1) == if n < Limit(c) then n else Limit(c) - 1
  {
    if Opening(c, ts, i) < i {
      RestartsAreBounded(c, ts, i - 1);
    }
  }

  /** Quarantine on the threshold-th crash of a window, as configured, holds exactly for thresholds above 1. */
  lemma ThresholdIsExact(c: Config)
    requires Sane(c)
    ensures (forall ts: seq<int>, i: nat :: i < |ts| ==> (TooMany(c, ts, i) <==> CountAt(c, ts, i) >= c.crashThreshold))
            <==> c.crashThreshold >= 2
    ensures forall ts: seq<int>, i: nat :: i < |ts| && c.crashThreshold < 2 ==> (TooMany(c, ts, i) <==> CountAt(c, ts, i) >= 2)
  {
    if c.crashThreshold < 2 {
      assert !TooMany(c, [0], 0) && CountAt(c, [0], 0) >= c.crashThreshold;
    }
  }

  /** Crashes far enough apart never lead to quarantine. */
  lemma {:induction false} SlowCrashesNeverQuarantine(c: Config, ts: seq<int>, i: nat)
    requires Sane(c) && i < |ts|
    requires forall k :: 0 < k <= i ==> ts[k] - ts[k - 1] > c.crashWindow
    ensures CountAt(c, ts, i) == 1 && !TooMany(c, ts, i)
  {
    if i > 0 {
      SlowCrashesNeverQuarantine(c, ts, i - 1);
    }
  }

  // ----- backoff -----

  function Pow2(n: nat): (p: int)
    ensures p > 0
  {
    if n == 0 then 1 else 2 * Pow2(n - 1)
  }

  function Min(a: int, b: int): int {
    if a < b then a else b
  }

  /** Doubling once more. */
  lemma DoubleMore(x: int, n: nat)
    ensures x * Pow2(n + 1) == 2 * (x * Pow2(n))
  {
  }

  lemma {:induction false} DoublingGrows(x: int, m: nat, n: nat)
    requires x > 0 && m <= n
    ensures x * Pow2(m) <= x * Pow2(n)
  {
    if m < n {
      DoublingGrows(x, m, n - 1);
      DoubleMore(x, n - 1);
      assert x * Pow2(n - 1) > 0;
    }
  }

  /** The delay before restart number n of a window. */
  function Delay(c: Config, n: nat): int
    requires n > 0
  {
    if n == 1 then c.initialBackoff else Min(c.initialBackoff * Pow2(n - 1), c.maxBackoff)
  }

  /** The delay is the capped doubling in every case but the first restart with an initial delay above the cap. */
  lemma DelayIsCappedDoubling(c: Config, n: nat)
    requires Sane(c) && n > 0
    ensures Delay(c, n) == Min(c.initialBackoff * Pow2(n - 1), c.maxBackoff) <==> n >= 2 || c.initialBackoff <= c.maxBackoff
    ensures n == 1 ==> Delay(c, n) == c.initialBackoff
    ensures n >= 2 ==> Delay(c, n) <= c.maxBackoff && Delay(c, n) <= Delay(c, n + 1)
  {
    assert Pow2(0) == 1;
    DoublingGrows(c.initialBackoff, n - 1, n);
  }

  method Doubled(c: Config, n: nat) returns (backoff: int)
    requires Sane(c) && n > 0
    ensures backoff == Delay(c, n)
  {
    backoff := c.initialBackoff;
    assert Pow2(0) == 1;
    for i := 0 to n - 1
      invariant backoff == c.initialBackoff * Pow2(i)
      invariant i > 0 ==> backoff < c.maxBackoff
    {
      DoubleMore(c.initialBackoff, i);
      backoff := backoff * 2;
      if backoff >= c.maxBackoff {
        DoublingGrows(c.initialBackoff, i + 1, n - 1);
        return c.maxBackoff;
      }
    }
  }

  // ----- the record of one plugin -----

  datatype CrashRecord = CrashRecord(count: nat, firstAt: int)

  /** What a history of crashes leaves to remember: how many the current window has seen and when it opened. */
  function Current(c: Config, ts: seq<int>): Option<CrashRecord> {
    if ts == [] then None else Some(CrashRecord(CountAt(c, ts, |ts| - 1), ts[Opening(c, ts, |ts| - 1)]))
  }

  /** The record after one more crash. */
  function Next(c: Config, rec: Option<CrashRecord>, now: int): CrashRecord {
    if rec.None? || now - rec.value.firstAt > c.crashWindow then CrashRecord(1, now)
    else CrashRecord(rec.value.count + 1, rec.value.firstAt)
  }

  /** The record is enough to go on: one more crash in the record is one more crash in the history. */
  lemma RecordFollowsHistory(c: Config, ts: seq<int>, now: int)
    requires Sane(c)
    ensures Current(c, ts + [now]) == Some(Next(c, Current(c, ts), now))
    ensures TooMany(c, ts + [now], |ts|) <==> Next(c, Current(c, ts), now).count >= Limit(c)
  {
    if ts != [] {
      OpeningOfPrefix(c, ts, now, |ts| - 1);
    }
  }

  /** When the window opened, or would open, that takes in a crash now. */
  function OpenedAt(c: Config, rec: Option<CrashRecord>, now: int): int {
    Next(c, rec, now).firstAt
  }

  /** The crashes already counted in that window; none if this crash opens it. */
  function Base(c: Config, rec: Option<CrashRecord>, now: int): (n: int)
  {
    Next(c, rec, now).count - 1
  }

  /** How many rounds that window still has room for: the one that quarantines is the last. */
  function Room(c: Config, rec: Option<CrashRecord>, now: int): int {
    if Base(c, rec, now) < Limit(c) then Limit(c) - Base(c, rec, now) else 1
  }

  // ----- the supervisor -----

  datatype Launch = Launched | Disabled | Failed

  /** What one round of recover meets: the time, a shutdown while waiting, whether the plugin is still registered. */
  datatype Attempt = Attempt(now: int, shutdown: bool, present: bool, launch: Launch)

  datatype Outcome = Quarantined | Abandoned | Restarted

  /** The first k rounds all come within the window the first of them falls into or opens. */
  ghost predicate InWindow(c: Config, rec: Option<CrashRecord>, steps: seq<Attempt>, k: nat) {
    0 < k <= |steps| && forall i :: 0 <= i < k ==> steps[i].now - OpenedAt(c, rec, steps[0].now) <= c.crashWindow
  }

  /** After a round that does not quarantine, the same window has one crash more and room for one round less. */
  lemma RoomShrinks(c: Config, rec: Option<CrashRecord>, steps: seq<Attempt>, k: nat)
    requires Sane(c) && 1 < k <= |steps| && InWindow(c, rec, steps, k)
    requires Next(c, rec, steps[0].now).count < Limit(c)
    ensures var next := Some(Next(c, rec, steps[0].now));
            && InWindow(c, next, steps[1..], k - 1)
            && Base(c, next, steps[1].now) == Base(c, rec, steps[0].now) + 1
            && Room(c, next, steps[1].now) + 1 == Room(c, rec, steps[0].now)
  {
    assert steps[1].now - OpenedAt(c, rec, steps[0].now) <= c.crashWindow;
    assert forall i :: 0 <= i < |steps| - 1 ==> steps[1..][i] == steps[i + 1];
  }

  function Lookup<T>(m: map<string, T>, key: string): Option<T> {
    if key in m then Some(m[key]) else None
  }

  ghost function HistoryOf(history: map<string, seq<int>>, key: string): seq<int> {
    if key in history then history[key] else []
  }

  /** The history with more crashes of one plugin. */
  ghost function Recorded(history: map<string, seq<int>>, key: string, ts: seq<int>): map<string, seq<int>> {
    if ts == [] then history else history[key := HistoryOf(history, key) + ts]
  }

  lemma RecordedTwice(history: map<string, seq<int>>, key: string, a: seq<int>, b: seq<int>)
    ensures Recorded(Recorded(history, key, a), key, b) == Recorded(history, key, a + b)
  {
    if a == [] {
      assert a + b == b;
    } else if b == [] {
      assert a + b == a;
    } else {
      assert HistoryOf(history, key) + a + b == HistoryOf(history, key) + (a + b);
    }
  }

  ghost predicate Mirrors(c: Config, history: map<string, seq<int>>, crashes: map<string, CrashRecord>) {
    forall key :: MirrorsAt(c, history, crashes, key)
  }

  ghost predicate MirrorsAt(c: Config, history: map<string, seq<int>>, crashes: map<string, CrashRecord>, key: string) {
    Lookup(crashes, key) == Current(c, HistoryOf(history, key))
  }

  lemma CrashKeepsMirror(c: Config, history: map<string, seq<int>>, crashes: map<string, CrashRecord>, key: string, now: int)
    requires Sane(c) && Mirrors(c, history, crashes)
    ensures Mirrors(c, Recorded(history, key, [now]), crashes[key := Next(c, Lookup(crashes, key), now)])
  {
    assert MirrorsAt(c, history, crashes, key);
    RecordFollowsHistory(c, HistoryOf(history, key), now);
    var after, records := Recorded(history, key, [now]), crashes[key := Next(c, Lookup(crashes, key), now)];
    forall other
      ensures MirrorsAt(c, after, records, other)
    {
      assert MirrorsAt(c, history, crashes, other);
    }
  }

  lemma ClearKeepsMirror(c: Config, history: map<string, seq<int>>, crashes: map<string, CrashRecord>, key: string)
    requires Mirrors(c, history, crashes)
    ensures Mirrors(c, history - {key}, crashes - {key})
  {
    forall other
      ensures MirrorsAt(c, history - {key}, crashes - {key}, other)
    {
      assert MirrorsAt(c, history, crashes, other);
    }
  }

  class Supervisor {
    const cfg: Config
    var crashes: map<string, CrashRecord>
    var quarantined: map<string, int>
    /** When each plugin crashed since its history was cleared. */
    ghost var history: map<string, seq<int>>

    ghost function History(key: string): seq<int>
      reads this`history
    {
      HistoryOf(history, key)
    }

    ghost function Record(key: string): Option<CrashRecord>
      reads this`crashes
    {
      Lookup(crashes, key)
    }

    ghost predicate Valid()
      reads this`crashes, this`history
    {
      Sane(cfg) && Mirrors(cfg, history, crashes)
    }

    constructor (c: Config)
      ensures Valid() && cfg == Effective(c) && history == map[] && quarantined == map[]
    {
      cfg, crashes, quarantined, history := Effective(c), map[], map[], map[];
    }

    /** Records a crash and says whether it is one too many for its window. */
    method TooManyCrashes(key: string, now: int) returns (r: bool)
      requires Valid()
      modifies this`crashes, this`history
      ensures Valid()
      ensures history == Recorded(old(history), key, [now])
      ensures Record(key) == Some(Next(cfg, old(Record(key)), now))
      ensures r <==> TooMany(cfg, History(key), |History(key)| - 1)
      ensures r <==> Next(cfg, old(Record(key)), now).count >= Limit(cfg)
    {
      CrashKeepsMirror(cfg, history, crashes, key, now);
      RecordFollowsHistory(cfg, History(key), now);
      assert MirrorsAt(cfg, history, crashes, key);
      history := Recorded(history, key, [now]);
      if key !in crashes || now - crashes[key].firstAt > cfg.crashWindow {
        crashes := crashes[key := CrashRecord(1, now)];
        r := false;
      } else {
        var count := crashes[key].count + 1;
        crashes := crashes[key := crashes[key].(count := count)];
        r := count >= cfg.crashThreshold;
      }
    }

    method BackoffFor(key: string) returns (backoff: int)
      requires Valid()
      ensures backoff == Delay(cfg, if History(key) == [] then 1 else CountAt(cfg, History(key), |History(key)| - 1))
    {
      assert MirrorsAt(cfg, history, crashes, key);
      var n := if key in crashes then crashes[key].count else 1;
      backoff := Doubled(cfg, n);
    }

    method ClearCrashes(key: string)
      requires Valid()
      modifies this
      ensures Valid()
      ensures history == old(history) - {key} && quarantined == old(quarantined) - {key}
    {
      ClearKeepsMirror(cfg, history, crashes, key);
      crashes, quarantined, history := crashes - {key}, quarantined - {key}, history - {key};
    }

    /**
    One round: count the crash, then quarantine, or wait and give up or relaunch; `None` is a relaunch that failed.
    `waits` is the delay, if there was one.
    */
    method Round(key: string, step: Attempt) returns (r: Option<Outcome>, waits: seq<int>)
      requires Valid()
      modifies this
      ensures Valid()
      ensures RoundDone(cfg, key, old(View(key)), View(key), step, r == Some(Quarantined))
      ensures r == Some(Quarantined) <==> TooMany(cfg, History(key), |History(key)| - 1)
      ensures r == Some(Restarted) <==> r != Some(Quarantined) && !step.shutdown && step.present && step.launch.Launched?
      ensures r.None? <==> r != Some(Quarantined) && !step.shutdown && step.present && step.launch.Failed?
      ensures waits == if r == Some(Quarantined) then [] else [Delay(cfg, Next(cfg, old(Record(key)), step.now).count)]
    {
      var tooMany := TooManyCrashes(key, step.now);
      if tooMany {
        quarantined := quarantined[key := step.now];
        return Some(Quarantined), [];
      }
      var backoff := BackoffFor(key);
      assert MirrorsAt(cfg, history, crashes, key);
      if step.shutdown || !step.present {
        return Some(Abandoned), [backoff];
      }
      match step.launch {
        case Launched => return Some(Restarted), [backoff];
        case Disabled => return Some(Abandoned), [backoff];
        case Failed => return None, [backoff];
      }
    }

    /**
    The restart policy for one crash; each failed relaunch counts as another crash and starts over.  `steps` is
    what successive rounds meet, the last being followed by a shutdown.  However many rounds there could be, those
    that fall into the first one's window are at most as many as the window has room for.
    */
    method Recover(key: string, steps: seq<Attempt>) returns (outcome: Outcome, used: nat, waits: seq<int>)
      requires Valid()
      modifies this
      ensures Valid()
      ensures Recovered(cfg, key, old(View(key)), View(key), steps, used, outcome)
      ensures Followed(steps, used, outcome)
      ensures Waited(cfg, old(Record(key)), steps, used, outcome, waits)
      decreases |steps|
    {
      if |steps| == 0 {
        return Abandoned, 0, [];
      }
      ghost var before := View(key);
      var r;
      r, waits := Round(key, steps[0]);
      if r.Some? {
        LastRound(cfg, key, before, View(key), steps, r.value);
        OnlyRound(cfg, before.rec, steps, r.value, waits);
        return r.value, 1, waits;
      }
      ghost var between := View(key);
      var later;
      outcome, used, later := Recover(key, steps[1..]);
      FollowedStep(steps, used, outcome);
      WaitedStep(cfg, before.rec, steps, used, outcome, later);
      waits, used := waits + later, used + 1;
      OneMoreRound(cfg, key, before, between, View(key), steps, used, outcome);
    }

    ghost function View(key: string): Books
      reads this
    {
      Books(history, quarantined, Record(key))
    }
  }

  /** The histories, the quarantines, and the record of the plugin in question. */
  datatype Books = Books(history: map<string, seq<int>>, quarantined: map<string, int>, rec: Option<CrashRecord>)

  /** What a call of recover did in `used` rounds. */
  ghost predicate Recovered(
    c: Config, key: string, was: Books, now: Books, steps: seq<Attempt>, used: nat, outcome: Outcome)
  {
    && used <= |steps|
    && now.history == Recorded(was.history, key, Times(steps, used))
    && (used == 0 ==> outcome.Abandoned? && now == was)
    && (used > 0 ==> now.rec.Some? && (outcome.Quarantined? <==> now.rec.value.count >= Limit(c)))
    && now.quarantined ==
       (if outcome.Quarantined? && used > 0 then was.quarantined[key := steps[used - 1].now] else was.quarantined)
    && (outcome.Restarted? ==> used > 0 && steps[used - 1].launch.Launched?)
    && Bounded(c, was.rec, now.rec, steps, used)
  }

  /** One round took the books from one state to the next. */
  ghost predicate RoundDone(c: Config, key: string, was: Books, now: Books, step: Attempt, quarantine: bool) {
    && now.history == Recorded(was.history, key, [step.now])
    && now.rec == Some(Next(c, was.rec, step.now))
    && (quarantine <==> Next(c, was.rec, step.now).count >= Limit(c))
    && now.quarantined == if quarantine then was.quarantined[key := step.now] else was.quarantined
  }

  /** Which rounds there were: each but the last ended in a failed relaunch, and the outcome is the last one's. */
  ghost predicate Followed(steps: seq<Attempt>, used: nat, outcome: Outcome) {
    && used <= |steps| && (used == 0 <==> steps == [])
    && (forall k :: 0 <= k < used - 1 ==> !steps[k].shutdown && steps[k].present && steps[k].launch.Failed?)
    && (used > 0 && !outcome.Quarantined? ==>
          var last := steps[used - 1];
          && (outcome.Restarted? <==> !last.shutdown && last.present && last.launch.Launched?)
          && (!last.shutdown && last.present && last.launch.Failed? ==> used == |steps|))
  }

  lemma FollowedStep(steps: seq<Attempt>, used: nat, outcome: Outcome)
    requires steps != [] && Followed(steps[1..], used, outcome) && (used == 0 ==> outcome.Abandoned?)
    requires !steps[0].shutdown && steps[0].present && steps[0].launch.Failed?
    ensures Followed(steps, used + 1, outcome)
  {
    assert forall k :: 0 < k < |steps| ==> steps[k] == steps[1..][k - 1];
  }

  /** The record after the crashes of the first n rounds. */
  function RecordAfter(c: Config, rec: Option<CrashRecord>, steps: seq<Attempt>, n: nat): (r: Option<CrashRecord>)
    requires n <= |steps|
    ensures n > 0 ==> r.Some?
  {
    if n == 0 then rec else Some(Next(c, RecordAfter(c, rec, steps, n - 1), steps[n - 1].now))
  }

  lemma {:induction false} RecordAfterFirst(c: Config, rec: Option<CrashRecord>, steps: seq<Attempt>, n: nat)
    requires n < |steps|
    ensures RecordAfter(c, Some(Next(c, rec, steps[0].now)), steps[1..], n) == RecordAfter(c, rec, steps, n + 1)
  {
    if n > 0 {
      RecordAfterFirst(c, rec, steps, n - 1);
      assert steps[1..][n - 1] == steps[n];
    }
  }

  /** The n-th round is one too many. */
  predicate Last(c: Config, rec: Option<CrashRecord>, steps: seq<Attempt>, n: nat)
    requires 0 < n <= |steps|
  {
    RecordAfter(c, rec, steps, n).value.count >= Limit(c)
  }

  /** Every round waits for the delay of its place in its window, but one that quarantines, which is the first to be too many. */
  ghost predicate Waited(c: Config, rec: Option<CrashRecord>, steps: seq<Attempt>, used: nat, outcome: Outcome, waits: seq<int>) {
    && used <= |steps| && |waits| == (if outcome.Quarantined? then used - 1 else used)
    && (outcome.Quarantined? ==> Last(c, rec, steps, used))
    && forall i: nat :: i < |waits| ==> WaitsAt(c, rec, steps, i, waits[i])
  }

  ghost predicate WaitsAt(c: Config, rec: Option<CrashRecord>, steps: seq<Attempt>, i: nat, wait: int) {
    && i < |steps| && !Last(c, rec, steps, i + 1)
    && var n := RecordAfter(c, rec, steps, i + 1).value.count; n > 0 && wait == Delay(c, n)
  }

  lemma OnlyRound(c: Config, rec: Option<CrashRecord>, steps: seq<Attempt>, outcome: Outcome, waits: seq<int>)
    requires steps != [] && (outcome.Quarantined? <==> Next(c, rec, steps[0].now).count >= Limit(c))
    requires waits == if outcome.Quarantined? then [] else [Delay(c, Next(c, rec, steps[0].now).count)]
    ensures Waited(c, rec, steps, 1, outcome, waits)
  {
    assert RecordAfter(c, rec, steps, 0) == rec;
    assert RecordAfter(c, rec, steps, 1) == Some(Next(c, rec, steps[0].now));
  }

  lemma WaitedStep(c: Config, rec: Option<CrashRecord>, steps: seq<Attempt>, used: nat, outcome: Outcome, later: seq<int>)
    requires steps != [] && Next(c, rec, steps[0].now).count < Limit(c)
    requires Waited(c, Some(Next(c, rec, steps[0].now)), steps[1..], used, outcome, later)
    ensures Waited(c, rec, steps, used + 1, outcome, [Delay(c, Next(c, rec, steps[0].now).count)] + later)
  {
    var next, waits := Some(Next(c, rec, steps[0].now)), [Delay(c, Next(c, rec, steps[0].now).count)] + later;
    if outcome.Quarantined? {
      RecordAfterFirst(c, rec, steps, used);
    }
    forall i: nat | i < |waits|
      ensures WaitsAt(c, rec, steps, i, waits[i])
    {
      assert RecordAfter(c, rec, steps, 0) == rec;
      if i > 0 {
        RecordAfterFirst(c, rec, steps, i);
        assert WaitsAt(c, next, steps[1..], i - 1, later[i - 1]);
      }
    }
  }

  lemma LastRound(c: Config, key: string, was: Books, now: Books, steps: seq<Attempt>, outcome: Outcome)
    requires Sane(c) && steps != [] && RoundDone(c, key, was, now, steps[0], outcome.Quarantined?)
    requires outcome.Restarted? ==> steps[0].launch.Launched?
    ensures Recovered(c, key, was, now, steps, 1, outcome)
  {
    FirstTime(steps);
  }

  lemma OneMoreRound(
    c: Config, key: string, was: Books, between: Books, now: Books, steps: seq<Attempt>, used: nat, outcome: Outcome)
    requires Sane(c) && 0 < used <= |steps| && RoundDone(c, key, was, between, steps[0], false)
    requires Recovered(c, key, between, now, steps[1..], used - 1, outcome)
    ensures Recovered(c, key, was, now, steps, used, outcome)
  {
    TimesStep(steps, used);
    RecordedTwice(was.history, key, [steps[0].now], Times(steps[1..], used - 1));
    BoundedStep(c, was.rec, now.rec, steps, used);
  }

  /**
  The rounds that ran: while they stay in the first one's window they are counted one by one, and there are no more
  of them than it had room for.
  */
  ghost predicate Bounded(c: Config, was: Option<CrashRecord>, now: Option<CrashRecord>, steps: seq<Attempt>, used: nat) {
    && used <= |steps|
    && (InWindow(c, was, steps, used) ==> now.Some? && now.value.count == Base(c, was, steps[0].now) + used)
    && forall k: nat :: k <= used && InWindow(c, was, steps, k) ==> k <= Room(c, was, steps[0].now)
  }

  lemma BoundedStep(c: Config, was: Option<CrashRecord>, now: Option<CrashRecord>, steps: seq<Attempt>, used: nat)
    requires Sane(c) && 0 < used <= |steps| && Next(c, was, steps[0].now).count < Limit(c)
    requires Bounded(c, Some(Next(c, was, steps[0].now)), now, steps[1..], used - 1)
    requires used == 1 ==> now == Some(Next(c, was, steps[0].now))
    ensures Bounded(c, was, now, steps, used)
  {
    forall k: nat | k <= used && InWindow(c, was, steps, k)
      ensures k <= Room(c, was, steps[0].now)
    {
      if k > 1 {
        RoomShrinks(c, was, steps, k);
      }
    }
    if used > 1 && InWindow(c, was, steps, used) {
      RoomShrinks(c, was, steps, used);
    }
  }

  function Times(steps: seq<Attempt>, n: nat): (ts: seq<int>)
    requires n <= |steps|
    ensures |ts| == n && forall i :: 0 <= i < n ==> ts[i] == steps[i].now
  {
    seq(n, i requires 0 <= i < |steps| => steps[i].now)
  }

  lemma FirstTime(steps: seq<Attempt>)
    requires |steps| > 0
    ensures Times(steps, 1) == [steps[0].now]
  {
  }

  lemma TimesStep(steps: seq<Attempt>, n: nat)
    requires 0 < n <= |steps|
    ensures Times(steps, n) == [steps[0].now] + Times(steps[1..], n - 1)
  {
  }
}

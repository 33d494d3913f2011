/**
Claiming scheduled jobs (core/pluginhost/scheduler.go): each tick offers every job whose schedule matches the
current minute, and `claim` lets one through per job and minute.  `log` records what was claimed; times are
counted in whole minutes.
*/
module Scheduler {
  import opened Common
  import Cron

  datatype Claimed = Claimed(id: string, minute: int)

  datatype State = State(lastRun: map<string, int>, clock: int, log: seq<Claimed>)

  const HOUR_IN_MINUTES := 60

  function JobId(plugin: string, job: string): string {
    Joined(plugin, job)
  }

  function Pruned(lastRun: map<string, int>, minute: int): map<string, int> {
    map k | k in lastRun && !(minute - lastRun[k] > HOUR_IN_MINUTES) :: lastRun[k]
  }

  function Apply(s: State, id: string, minute: int): State {
    if id in s.lastRun && s.lastRun[id] == minute then s.(clock := minute)
    else State(Pruned(s.lastRun[id := minute], minute), minute, s.log + [Claimed(id, minute)])
  }

  ghost predicate IsRun(trace: seq<State>, offers: seq<Claimed>) {
    && |trace| == |offers| + 1
    && trace[0].lastRun == map[] && trace[0].log == []
    && forall i :: 0 <= i < |offers| ==>
         trace[i].clock <= offers[i].minute && trace[i + 1] == Apply(trace[i], offers[i].id, offers[i].minute)
  }

  /** The table remembers this minute's claims, and only claims that were made. */
  ghost predicate Inv(s: State) {
    && (forall c :: c in s.log ==> c.minute <= s.clock)
    && (forall c :: c in s.log && c.minute == s.clock ==> c.id in s.lastRun && s.lastRun[c.id] == s.clock)
    && (forall k :: k in s.lastRun ==> Claimed(k, s.lastRun[k]) in s.log)
  }

  ghost predicate NoRepeats(log: seq<Claimed>) {
    forall i, j :: 0 <= i < j < |log| ==> log[i] != log[j]
  }

  /** A claim goes through exactly when that job has not been claimed in that minute. */
  lemma ClaimedIffFirst(s: State, id: string, minute: int)
    requires Inv(s) && s.clock <= minute
    ensures |Apply(s, id, minute).log| > |s.log| <==> Claimed(id, minute) !in s.log
    ensures Inv(Apply(s, id, minute))
    ensures NoRepeats(s.log) ==> NoRepeats(Apply(s, id, minute).log)
  {
    assert Claimed(id, minute) in s.log ==> id in s.lastRun && s.lastRun[id] == minute;
    assert id in s.lastRun ==> Claimed(id, s.lastRun[id]) in s.log;
  }

  lemma {:induction false} RunKeepsInv(trace: seq<State>, offers: seq<Claimed>, i: nat)
    requires IsRun(trace, offers) && i <= |offers|
    ensures Inv(trace[i]) && NoRepeats(trace[i].log)
  {
    if i > 0 {
      RunKeepsInv(trace, offers, i - 1);
      ClaimedIffFirst(trace[i - 1], offers[i - 1].id, offers[i - 1].minute);
    }
  }

  /** Over any run with a clock that never goes back, no job is claimed twice in a minute, despite the pruning. */
  lemma AtMostOncePerMinute(trace: seq<State>, offers: seq<Claimed>, i: nat, a: nat, b: nat)
    requires IsRun(trace, offers) && i <= |offers|
    requires a < |trace[i].log| && b < |trace[i].log| && trace[i].log[a] == trace[i].log[b]
    ensures a == b
  {
    RunKeepsInv(trace, offers, i);
  }

  // ----- clocks that go back -----

  /** A run of offers under any clock at all. */
  ghost predicate IsAnyRun(trace: seq<State>, offers: seq<Claimed>) {
    && |trace| == |offers| + 1
    && trace[0].lastRun == map[]
    && forall i :: 0 <= i < |offers| ==> trace[i + 1] == Apply(trace[i], offers[i].id, offers[i].minute)
  }

  predicate Remembers(s: State, c: Claimed) {
    c.id in s.lastRun && s.lastRun[c.id] == c.minute
  }

  /** Offer k was claimed. */
  predicate Went(trace: seq<State>, offers: seq<Claimed>, k: nat)
    requires k < |offers| < |trace|
  {
    !Remembers(trace[k], offers[k])
  }

  /** Offer k makes the scheduler forget c: the same job in another minute, or a claim more than an hour later. */
  predicate Displaces(trace: seq<State>, offers: seq<Claimed>, k: nat, c: Claimed)
    requires k < |offers| < |trace|
  {
    if offers[k].id == c.id then offers[k].minute != c.minute
    else Went(trace, offers, k) && offers[k].minute - c.minute > 60
  }

  lemma OfferRemembers(s: State, c: Claimed)
    ensures Remembers(Apply(s, c.id, c.minute), c)
  {
  }

  lemma RemembersUntilDisplaced(trace: seq<State>, offers: seq<Claimed>, k: nat, c: Claimed)
    requires IsAnyRun(trace, offers) && k < |offers|
    ensures offers[k] != c && Remembers(trace[k], c) ==> (Remembers(trace[k + 1], c) <==> !Displaces(trace, offers, k, c))
    ensures offers[k] != c && !Remembers(trace[k], c) ==> !Remembers(trace[k + 1], c)
  {
  }

  /** The offers strictly between i and j are for something else. */
  ghost predicate NotBetween(offers: seq<Claimed>, i: nat, j: nat, c: Claimed) {
    j <= |offers| && forall k :: i < k < j ==> offers[k] != c
  }

  /** Some offer strictly between i and j makes the scheduler forget c. */
  ghost predicate DisplacedBetween(trace: seq<State>, offers: seq<Claimed>, i: nat, j: nat, c: Claimed)
    requires j <= |offers| < |trace|
  {
    exists k :: i < k < j && Displaces(trace, offers, k, c)
  }

  lemma {:induction false} ForgottenIffDisplaced(trace: seq<State>, offers: seq<Claimed>, i: nat, j: nat)
    requires IsAnyRun(trace, offers) && i < j <= |offers| && NotBetween(offers, i, j, offers[i])
    ensures !Remembers(trace[j], offers[i]) <==> DisplacedBetween(trace, offers, i, j, offers[i])
  {
    var c := offers[i];
    if j == i + 1 {
      OfferRemembers(trace[i], c);
    } else {
      ForgottenIffDisplaced(trace, offers, i, j - 1);
      RemembersUntilDisplaced(trace, offers, j - 1, c);
      if DisplacedBetween(trace, offers, i, j - 1, c) {
        var k :| i < k < j - 1 && Displaces(trace, offers, k, c);
        assert DisplacedBetween(trace, offers, i, j, c);
      } else if Displaces(trace, offers, j - 1, c) {
        assert DisplacedBetween(trace, offers, i, j, c);
      }
    }
  }

  /** The offer of i comes again at j, nothing like it in between. */
  ghost predicate ComesAgain(offers: seq<Claimed>, i: nat, j: nat) {
    i < j < |offers| && offers[i] == offers[j] && NotBetween(offers, i, j, offers[i])
  }

  ghost predicate RunsTwice(trace: seq<State>, offers: seq<Claimed>)
    requires |offers| < |trace|
  {
    exists i, j :: 0 <= i < j < |offers| && offers[i] == offers[j] && Went(trace, offers, i) && Went(trace, offers, j)
  }

  ghost predicate ComesAgainForgotten(trace: seq<State>, offers: seq<Claimed>)
    requires |offers| < |trace|
  {
    exists i: nat, j: nat :: ComesAgain(offers, i, j) && DisplacedBetween(trace, offers, i, j, offers[i])
  }

  /** Under any clock: some job runs twice in a minute if and only if one is offered again after being forgotten. */
  lemma RunsTwiceIffForgotten(trace: seq<State>, offers: seq<Claimed>)
    requires IsAnyRun(trace, offers)
    ensures RunsTwice(trace, offers) <==> ComesAgainForgotten(trace, offers)
  {
    if RunsTwice(trace, offers) {
      var i, j :| 0 <= i < j < |offers| && offers[i] == offers[j] && Went(trace, offers, i) && Went(trace, offers, j);
      var l := LastBefore(offers, i, j);
      ForgottenIffDisplaced(trace, offers, l, j);
      assert ComesAgain(offers, l, j);
    }
    if ComesAgainForgotten(trace, offers) {
      var i: nat, j: nat :| ComesAgain(offers, i, j) && DisplacedBetween(trace, offers, i, j, offers[i]);
      ForgottenIffDisplaced(trace, offers, i, j);
      var f := FirstClaim(trace, offers, i);
      assert offers[f] == offers[j] && Went(trace, offers, f) && Went(trace, offers, j);
    }
  }

  lemma {:induction false} LastBefore(offers: seq<Claimed>, i: nat, j: nat) returns (l: nat)
    requires i < j < |offers| && offers[i] == offers[j]
    ensures i <= l && ComesAgain(offers, l, j)
    decreases j - i
  {
    if k: nat :| i < k < j && offers[k] == offers[i] {
      l := LastBefore(offers, k, j);
    } else {
      l := i;
    }
  }

  /** What the scheduler remembers it has claimed. */
  lemma {:induction false} RememberedWasClaimed(trace: seq<State>, offers: seq<Claimed>, n: nat, c: Claimed) returns (f: nat)
    requires IsAnyRun(trace, offers) && n <= |offers| && Remembers(trace[n], c)
    ensures f < n && offers[f] == c && Went(trace, offers, f)
  {
    if Remembers(trace[n - 1], c) {
      f := RememberedWasClaimed(trace, offers, n - 1, c);
    } else {
      f := n - 1;
      RemembersUntilDisplaced(trace, offers, f, c);
    }
  }

  lemma FirstClaim(trace: seq<State>, offers: seq<Claimed>, i: nat) returns (f: nat)
    requires IsAnyRun(trace, offers) && i < |offers|
    ensures f <= i && offers[f] == offers[i] && Went(trace, offers, f)
  {
    if Went(trace, offers, i) {
      f := i;
    } else {
      f := RememberedWasClaimed(trace, offers, i, offers[i]);
    }
  }

  /** For one, a clock that leaves a minute and comes back repeats every job it offers in between. */
  lemma ClockStepRepeats(s: State, id: string, m: int, k: int)
    requires m != k && !Remembers(s, Claimed(id, m))
    ensures var s3 := Apply(Apply(Apply(s, id, m), id, k), id, m);
            s3.log == s.log + [Claimed(id, m), Claimed(id, k), Claimed(id, m)]
  {
  }

  /** Ids of different plugins collide if and only if the key of one, closed by a NUL, starts the key of the other. */
  lemma JobIdsCollideExactly(p: string, q: string)
    requires p != q
    ensures (exists n, m :: JobId(p, n) == JobId(q, m)) <==> HasPrefix(q, p + ['\0']) || HasPrefix(p, q + ['\0'])
  {
    JoinedCollide(p, q);
    if n, m :| Joined(p, n) == Joined(q, m) {
      assert JobId(p, n) == JobId(q, m);
    }
    if n, m :| JobId(p, n) == JobId(q, m) {
      assert Joined(p, n) == Joined(q, m);
    }
  }

  /** Jobs of different plugins, or with different names, have different ids while plugin keys contain no NUL. */
  lemma JobIdsAreSeparate(p: string, n: string, q: string, m: string)
    requires '\0' !in p && '\0' !in q && JobId(p, n) == JobId(q, m)
    ensures p == q && n == m
  {
    JoinedIsSeparate(p, n, q, m);
  }

  // ----- the scheduler -----

  datatype Job = Job(plugin: string, name: string, cron: string)

  /** The schedule parses and its masks hold this minute. */
  ghost predicate Due(job: Job, t: Cron.Time) {
    var f := Cron.Fields(job.cron);
    |f| == 5 && (forall i :: 0 <= i < 5 ==> Cron.GoodField(f[i], Cron.LimitsOf(i))) && Cron.MaskFires(f, t)
  }

  /** The state after the first n jobs have been offered. */
  ghost function Offered(s: State, minute: int, t: Cron.Time, jobs: seq<Job>, n: nat): State
    requires n <= |jobs|
  {
    if n == 0 then s
    else
      var r := Offered(s, minute, t, jobs, n - 1);
      if Due(jobs[n - 1], t) then Apply(r, JobId(jobs[n - 1].plugin, jobs[n - 1].name), minute) else r
  }

  ghost predicate FromADueJob(c: Claimed, minute: int, t: Cron.Time, jobs: seq<Job>) {
    c.minute == minute && exists i :: 0 <= i < |jobs| && Due(jobs[i], t) && c.id == JobId(jobs[i].plugin, jobs[i].name)
  }

  /** Whatever a tick claims is a job due in that very minute. */
  lemma {:induction false} OnlyDueJobsAreClaimed(s: State, minute: int, t: Cron.Time, jobs: seq<Job>, n: nat, k: nat)
    requires n <= |jobs| && |s.log| <= k < |Offered(s, minute, t, jobs, n).log|
    ensures FromADueJob(Offered(s, minute, t, jobs, n).log[k], minute, t, jobs)
  {
    var r := Offered(s, minute, t, jobs, n - 1);
    if k < |r.log| {
      OnlyDueJobsAreClaimed(s, minute, t, jobs, n - 1, k);
    }
  }

  lemma {:induction false} OfferedKeepsInv(s: State, minute: int, t: Cron.Time, jobs: seq<Job>, n: nat)
    requires n <= |jobs| && Inv(s) && s.clock <= minute
    ensures Inv(Offered(s, minute, t, jobs, n)) && Offered(s, minute, t, jobs, n).clock <= minute
    ensures NoRepeats(s.log) ==> NoRepeats(Offered(s, minute, t, jobs, n).log)
  {
    if n > 0 {
      OfferedKeepsInv(s, minute, t, jobs, n - 1);
      ClaimedIffFirst(Offered(s, minute, t, jobs, n - 1), JobId(jobs[n - 1].plugin, jobs[n - 1].name), minute);
    }
  }

  class Scheduler {
    var lastRun: map<string, int>
    ghost var clock: int
    ghost var log: seq<Claimed>

    ghost function View(): State
      reads this
    {
      State(lastRun, clock, log)
    }

    constructor ()
      ensures View() == State(map[], 0, [])
    {
      lastRun, clock, log := map[], 0, [];
    }

    method Claim(plugin: string, job: string, minute: int) returns (claimed: bool)
      modifies this
      ensures View() == Apply(old(View()), JobId(plugin, job), minute)
      ensures claimed <==> |log| > |old(log)|
    {
      var id := JobId(plugin, job);
      clock := minute;
      if id in lastRun && lastRun[id] == minute {
        return false;
      }
      lastRun := lastRun[id := minute];
      log := log + [Claimed(id, minute)];
      ghost var full := lastRun;
      var todo := lastRun.Keys;
      while todo != {}
        invariant clock == minute && log == old(log) + [Claimed(id, minute)]
        invariant todo <= lastRun.Keys <= full.Keys
        invariant forall k :: k in lastRun ==> lastRun[k] == full[k]
        invariant forall k :: k in full && k !in todo ==> (k in lastRun <==> !(minute - full[k] > HOUR_IN_MINUTES))
        decreases |todo|
      {
        var k :| k in todo;
        todo := todo - {k};
        if minute - lastRun[k] > HOUR_IN_MINUTES {
          lastRun := lastRun - {k};
        }
      }
      return true;
    }

    /** One tick at time t, which falls into `minute`; `ran` are the jobs started. */
    method Tick(minute: int, t: Cron.Time, jobs: seq<Job>) returns (ran: seq<Job>)
      requires Cron.ValidTime(t)
      modifies this
      ensures View() == Offered(old(View()), minute, t, jobs, |jobs|)
      ensures old(Inv(View()) && clock <= minute && NoRepeats(log)) ==> Inv(View()) && clock <= minute && NoRepeats(log)
      ensures |log| == |old(log)| + |ran|
      ensures forall i :: 0 <= i < |ran| ==> Due(ran[i], t)
    {
      ran := [];
      for i := 0 to |jobs|
        invariant View() == Offered(old(View()), minute, t, jobs, i)
        invariant |log| == |old(log)| + |ran|
        invariant forall j :: 0 <= j < |ran| ==> Due(ran[j], t)
      {
        var schedule := Cron.ParseSchedule(jobs[i].cron);
        if schedule.Some? {
          Cron.MatchesMeansMasks(schedule.value, Cron.Fields(jobs[i].cron), t);
          if Cron.Matches(schedule.value, t) {
            var claimed := Claim(jobs[i].plugin, jobs[i].name, minute);
            if claimed {
              ran := ran + [jobs[i]];
            }
          }
        }
      }
      if old(Inv(View()) && clock <= minute && NoRepeats(log)) {
        OfferedKeepsInv(old(View()), minute, t, jobs, |jobs|);
      }
    }
  }
}

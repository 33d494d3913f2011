/**
The circuit breaker (core/pluginhost/breaker.go).

The breaker keeps four counters and flags.  The reference below keeps none: it says what the breaker must do
from the log of the calls made on it.  Each call is one step, and Reset is not among them.  Times are in
nanoseconds.
*/
module Breaker {

  datatype Config = Config(failureThreshold: int, openDuration: int, halfOpenSuccesses: int)

  function Effective(c: Config): (r: Config)
    ensures Sane(r)
    ensures r.failureThreshold in {c.failureThreshold, 5} && r.openDuration in {c.openDuration, 5_000_000_000}
    ensures r.halfOpenSuccesses in {c.halfOpenSuccesses, 2}
    ensures c.failureThreshold > 0 ==> r.failureThreshold == c.failureThreshold
    ensures c.openDuration > 0 ==> r.openDuration == c.openDuration
    ensures c.halfOpenSuccesses > 0 ==> r.halfOpenSuccesses == c.halfOpenSuccesses
  {
    Config(if c.failureThreshold <= 0 then 5 else c.failureThreshold,
           if c.openDuration <= 0 then 5_000_000_000 else c.openDuration,
           if c.halfOpenSuccesses <= 0 then 2 else c.halfOpenSuccesses)
  }

  predicate Sane(c: Config) {
    c.failureThreshold > 0 && c.openDuration > 0 && c.halfOpenSuccesses > 0
  }

  datatype Event =
    | Success
    | Failure(now: nat)
    | Allow(now: nat, granted: bool)

  // ----- the reference: what the log says -----

  /** Failures in a row, the latest n events considered: since the last success, or since the start. */
  function FailRun(log: seq<Event>, n: nat): nat
    requires n <= |log|
  {
    if n == 0 then 0
    else if log[n - 1].Success? then 0
    else FailRun(log, n - 1) + if log[n - 1].Failure? then 1 else 0
  }

  /** Successes in a row: since the last failure. */
  function OkRun(log: seq<Event>, n: nat): nat
    requires n <= |log|
  {
    if n == 0 then 0
    else if log[n - 1].Failure? then 0
    else OkRun(log, n - 1) + if log[n - 1].Success? then 1 else 0
  }

  /** Tripped by the threshold-th failure in a row, until the required successes in a row. */
  predicate Tripped(c: Config, log: seq<Event>, n: nat)
    requires n <= |log|
  {
    if n == 0 then false
    else if log[n - 1].Failure? then Tripped(c, log, n - 1) || FailRun(log, n) >= c.failureThreshold
    else if log[n - 1].Success? then Tripped(c, log, n - 1) && OkRun(log, n) < c.halfOpenSuccesses
    else Tripped(c, log, n - 1)
  }

  /** When the last failure was recorded, 0 if none was. */
  function LastFailure(log: seq<Event>, n: nat): nat
    requires n <= |log|
  {
    if n == 0 then 0 else if log[n - 1].Failure? then log[n - 1].now else LastFailure(log, n - 1)
  }

  /** A call let through while tripped has not been answered by a record yet. */
  predicate ProbeOut(c: Config, log: seq<Event>, n: nat)
    requires n <= |log|
  {
    n > 0 && log[n - 1].Allow? && ((log[n - 1].granted && Tripped(c, log, n - 1)) || ProbeOut(c, log, n - 1))
  }

  /** What Allow answers after the first n events. */
  predicate Permits(c: Config, log: seq<Event>, n: nat, now: nat)
    requires n <= |log|
  {
    !Tripped(c, log, n) || (now >= LastFailure(log, n) + c.openDuration && !ProbeOut(c, log, n))
  }

  /** A log the breaker could have produced. */
  ghost predicate Legal(c: Config, log: seq<Event>) {
    forall i :: 0 <= i < |log| && log[i].Allow? ==> (log[i].granted <==> Permits(c, log, i, log[i].now))
  }

  // ----- what the reference promises -----

  /** While closed, fewer failures in a row than the threshold; while tripped, fewer successes than required. */
  lemma {:induction false} RunsStayBelow(c: Config, log: seq<Event>, n: nat)
    requires Sane(c) && n <= |log|
    ensures !Tripped(c, log, n) ==> FailRun(log, n) < c.failureThreshold
    ensures Tripped(c, log, n) ==> OkRun(log, n) < c.halfOpenSuccesses
  {
    if n > 0 {
      RunsStayBelow(c, log, n - 1);
    }
  }

  /** It trips on exactly the threshold-th failure in a row, on no other event. */
  lemma TripsExactly(c: Config, log: seq<Event>, n: nat)
    requires Sane(c) && n < |log| && !Tripped(c, log, n)
    ensures Tripped(c, log, n + 1) <==> log[n].Failure? && FailRun(log, n + 1) == c.failureThreshold
  {
    RunsStayBelow(c, log, n);
  }

  /** It closes on exactly the required success in a row, on no other event. */
  lemma ClosesExactly(c: Config, log: seq<Event>, n: nat)
    requires Sane(c) && n < |log| && Tripped(c, log, n)
    ensures !Tripped(c, log, n + 1) <==> log[n].Success? && OkRun(log, n + 1) == c.halfOpenSuccesses
  {
    RunsStayBelow(c, log, n);
  }

  /** A failure while tripped starts the full window again. */
  lemma FailureRestartsWindow(c: Config, log: seq<Event>, n: nat, m: nat, now: nat)
    requires Sane(c) && n < m <= |log| && log[n].Failure? && Tripped(c, log, m)
    requires forall i :: n < i < m ==> !log[i].Failure?
    requires now < log[n].now + c.openDuration
    ensures !Permits(c, log, m, now)
  {
    LastFailureIs(log, n, m);
  }

  lemma {:induction false} LastFailureIs(log: seq<Event>, n: nat, m: nat)
    requires n < m <= |log| && log[n].Failure? && forall i :: n < i < m ==> !log[i].Failure?
    ensures LastFailure(log, m) == log[n].now
  {
    if n < m - 1 {
      LastFailureIs(log, n, m - 1);
    }
  }

  /** Between two records, at most one call gets through a tripped breaker. */
  lemma OneProbeAtATime(c: Config, log: seq<Event>, i: nat, j: nat)
    requires Sane(c) && Legal(c, log) && i < j < |log|
    requires forall k :: i <= k <= j ==> log[k].Allow?
    requires log[i].granted && Tripped(c, log, i)
    ensures !log[j].granted
  {
    ProbeStaysOut(c, log, i, j);
  }

  lemma {:induction false} ProbeStaysOut(c: Config, log: seq<Event>, i: nat, j: nat)
    requires i < j <= |log|
    requires forall k :: i <= k < j ==> log[k].Allow?
    requires log[i].granted && Tripped(c, log, i)
    ensures Tripped(c, log, j) && ProbeOut(c, log, j)
  {
    if i < j - 1 {
      ProbeStaysOut(c, log, i, j - 1);
    }
  }

  /** A record frees the probe, so a breaker whose calls are all answered never locks itself out. */
  lemma RecordFreesProbe(c: Config, log: seq<Event>, n: nat, now: nat)
    requires Sane(c) && 0 < n <= |log| && !log[n - 1].Allow?
    ensures Permits(c, log, n, now) <==> !Tripped(c, log, n) || now >= LastFailure(log, n) + c.openDuration
  {
  }

  /** The failure at j made the threshold, and up to event n there were never enough successes in a row since. */
  ghost predicate TrippedBy(c: Config, log: seq<Event>, n: nat, j: nat)
    requires n <= |log|
  {
    && j < n && log[j].Failure? && FailRun(log, j + 1) >= c.failureThreshold
    && forall k :: j < k <= n ==> OkRun(log, k) < c.halfOpenSuccesses
  }

  /** Tripped means: some failure made the threshold and nothing closed the breaker since.  A new one is closed. */
  lemma {:induction false} TrippedExactly(c: Config, log: seq<Event>, n: nat)
    requires Sane(c) && n <= |log|
    ensures Tripped(c, log, n) <==> exists j: nat :: TrippedBy(c, log, n, j)
  {
    if n > 0 {
      var m := n - 1;
      TrippedExactly(c, log, m);
      if Tripped(c, log, n) {
        if Tripped(c, log, m) {
          var j: nat :| TrippedBy(c, log, m, j);
          assert TrippedBy(c, log, n, j);
        } else {
          assert TrippedBy(c, log, n, m);
        }
      }
      if j: nat :| TrippedBy(c, log, n, j) {
        if j < m {
          assert TrippedBy(c, log, m, j);
        }
        assert OkRun(log, n) < c.halfOpenSuccesses;
      }
    }
  }

  /** The call at i got through the tripped breaker, and nothing was recorded since. */
  ghost predicate ProbeFrom(c: Config, log: seq<Event>, n: nat, i: nat)
    requires n <= |log|
  {
    i < n && log[i].Allow? && log[i].granted && Tripped(c, log, i) && forall k :: i < k < n ==> log[k].Allow?
  }

  /** A call is let through exactly if the breaker is closed, or its window is over and no probe is unanswered. */
  lemma {:induction false} PermitsExactly(c: Config, log: seq<Event>, n: nat, now: nat)
    requires Sane(c) && n <= |log|
    ensures Permits(c, log, n, now) <==>
              Tripped(c, log, n) ==> now >= LastFailure(log, n) + c.openDuration && !exists i: nat :: ProbeFrom(c, log, n, i)
  {
    ProbeOutExactly(c, log, n);
  }

  lemma {:induction false} ProbeOutExactly(c: Config, log: seq<Event>, n: nat)
    requires n <= |log|
    ensures ProbeOut(c, log, n) <==> exists i: nat :: ProbeFrom(c, log, n, i)
  {
    if n > 0 {
      var m := n - 1;
      ProbeOutExactly(c, log, m);
      if ProbeOut(c, log, n) {
        if ProbeOut(c, log, m) {
          var i: nat :| ProbeFrom(c, log, m, i);
          assert ProbeFrom(c, log, n, i);
        } else {
          assert ProbeFrom(c, log, n, m);
        }
      }
      if i: nat :| ProbeFrom(c, log, n, i) {
        assert i < m ==> ProbeFrom(c, log, m, i) && log[m].Allow?;
      }
    }
  }

  // ----- the log may grow -----

  lemma {:induction false} Extends(c: Config, log: seq<Event>, e: Event, n: nat)
    requires n <= |log|
    ensures FailRun(log + [e], n) == FailRun(log, n) && OkRun(log + [e], n) == OkRun(log, n)
    ensures Tripped(c, log + [e], n) == Tripped(c, log, n) && LastFailure(log + [e], n) == LastFailure(log, n)
    ensures ProbeOut(c, log + [e], n) == ProbeOut(c, log, n)
  {
    if n > 0 {
      Extends(c, log, e, n - 1);
    }
  }

  lemma LegalExtends(c: Config, log: seq<Event>, e: Event)
    requires Legal(c, log)
    requires e.Allow? ==> (e.granted <==> Permits(c, log, |log|, e.now))
    ensures Legal(c, log + [e])
  {
    forall i | 0 <= i < |log + [e]| && (log + [e])[i].Allow?
      ensures (log + [e])[i].granted <==> Permits(c, log + [e], i, (log + [e])[i].now)
    {
      Extends(c, log, e, i);
    }
  }

  // ----- the breaker -----

  class Breaker {
    const cfg: Config
    var consecutiveFailures: int
    var openUntilNanos: int
    var halfOpenSuccesses: int
    var probing: bool
    ghost var log: seq<Event>

    /** The four fields are what the log says. */
    ghost predicate Valid()
      reads this
    {
      var n := |log|;
      && Sane(cfg) && Legal(cfg, log)
      && openUntilNanos == (if Tripped(cfg, log, n) then LastFailure(log, n) + cfg.openDuration else 0)
      && consecutiveFailures == (if Tripped(cfg, log, n) then 0 else FailRun(log, n))
      && halfOpenSuccesses == (if Tripped(cfg, log, n) then OkRun(log, n) else 0)
      && (probing <==> Tripped(cfg, log, n) && ProbeOut(cfg, log, n))
    }

    constructor (c: Config)
      ensures Valid() && cfg == Effective(c) && log == []
    {
      cfg, log := Effective(c), [];
      consecutiveFailures, openUntilNanos, halfOpenSuccesses, probing := 0, 0, 0, false;
    }

    method TryAllow(now: nat) returns (granted: bool)
      requires Valid()
      modifies this`probing, this`log
      ensures Valid()
      ensures granted <==> Permits(cfg, old(log), |old(log)|, now)
      ensures log == old(log) + [Allow(now, granted)]
    {
      if openUntilNanos == 0 {
        granted := true;
      } else if now < openUntilNanos {
        granted := false;
      } else {
        granted := !probing;
        probing := true;
      }
      Extends(cfg, log, Allow(now, granted), |log|);
      LegalExtends(cfg, log, Allow(now, granted));
      log := log + [Allow(now, granted)];
    }

    /** Whether the breaker is refusing everything right now. */
    method Open(now: nat) returns (r: bool)
      requires Valid()
      ensures r <==> Tripped(cfg, log, |log|) && now < LastFailure(log, |log|) + cfg.openDuration
    {
      r := openUntilNanos != 0 && now < openUntilNanos;
    }

    method RecordSuccess()
      requires Valid()
      modifies this
      ensures Valid() && log == old(log) + [Success]
    {
      RunsStayBelow(cfg, log, |log|);
      Extends(cfg, log, Success, |log|);
      LegalExtends(cfg, log, Success);
      log := log + [Success];
      consecutiveFailures := 0;
      if openUntilNanos == 0 {
        return;
      }
      halfOpenSuccesses := halfOpenSuccesses + 1;
      if halfOpenSuccesses >= cfg.halfOpenSuccesses {
        openUntilNanos := 0;
        halfOpenSuccesses := 0;
      }
      probing := false;
    }

    method RecordFailure(now: nat)
      requires Valid()
      modifies this
      ensures Valid() && log == old(log) + [Failure(now)]
    {
      RunsStayBelow(cfg, log, |log|);
      Extends(cfg, log, Failure(now), |log|);
      LegalExtends(cfg, log, Failure(now));
      log := log + [Failure(now)];
      halfOpenSuccesses := 0;
      if openUntilNanos != 0 {
        openUntilNanos := now + cfg.openDuration;
        probing := false;
        return;
      }
      consecutiveFailures := consecutiveFailures + 1;
      if consecutiveFailures >= cfg.failureThreshold {
        openUntilNanos := now + cfg.openDuration;
        consecutiveFailures := 0;
      }
    }
  }
}

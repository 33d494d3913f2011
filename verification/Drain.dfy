/**
Admission against a draining instance (core/pluginhost/instance.go).

`BeginRequest` checks the state, increments the in-flight count and checks the state again, without
a lock, while `Drain` stores `Draining`, polls the count and finally kills the process.  Every atomic
load, store, add or compare-and-swap of the Go code is one action here, and a run interleaves the
actions of any number of request callers, drains and kills.
*/
module Drain {
  import opened Common

  /** Lifecycle position of an instance. */
  datatype Life = Starting | Ready | Draining | Stopped | Failed | Quarantined

  /** How far one caller of BeginRequest, and the reservation it may have been granted, has come. */
  datatype Caller =
    | Checked      // saw Ready, has not incremented yet
    | Counted      // incremented, has not re-checked yet
    | Retreating   // re-check failed, has not decremented yet
    | Granted      // holds a reservation whose end function has not run
    | Releasing    // end won its compare-and-swap, has not decremented yet
    | Finished     // refused, or ended

  /** How far one call of Drain or Kill has come; `clean` is whether it will report a clean drain. */
  datatype Closer =
    | Polling
    | Waiting
    | Killing(clean: bool)
    | Loading(clean: bool)
    | Swapping(seen: Life, clean: bool)
    | Closed(clean: bool)

  datatype Sys = Sys(
    state: Life,
    inflight: int,
    alive: bool,
    callers: map<nat, Caller>,
    closers: map<nat, Closer>)

  datatype Action =
    | Look(t: nat)        // BeginRequest: first state load
    | Count(t: nat)       // BeginRequest: increment
    | Relook(t: nat)      // BeginRequest: second state load
    | Retreat(t: nat)     // BeginRequest: decrement on refusal
    | End(t: nat)         // end function: compare-and-swap on done
    | Settle(t: nat)      // end function: decrement
    | StartDrain(c: nat)  // Drain: store Draining
    | Poll(c: nat)        // Drain: load the count at the head of the loop
    | Tick(c: nat)        // Drain: ticker fired before the deadline
    | GiveUp(c: nat)      // Drain: cancelled, or past the deadline
    | StartKill(c: nat)   // Kill: enter terminate directly
    | KillProcess(c: nat) // terminate: kill the process
    | LoadState(c: nat)   // terminate: load the state
    | SwapState(c: nat)   // terminate: compare-and-swap to Stopped
    | MarkReady
    | MarkFailed
    | MarkQuarantined

  const INITIAL := Sys(Starting, 0, true, map[], map[])

  predicate At(s: Sys, t: nat, c: Caller) {
    t in s.callers && s.callers[t] == c
  }

  predicate In(s: Sys, c: nat, p: Closer) {
    c in s.closers && s.closers[c] == p
  }

  predicate Enabled(s: Sys, a: Action) {
    match a
    case Look(t) => t !in s.callers
    case Count(t) => At(s, t, Checked)
    case Relook(t) => At(s, t, Counted)
    case Retreat(t) => At(s, t, Retreating)
    case End(t) => t in s.callers && s.callers[t] in {Granted, Releasing, Finished}
    case Settle(t) => At(s, t, Releasing)
    case StartDrain(c) => c !in s.closers
    case Poll(c) => In(s, c, Polling)
    case Tick(c) => In(s, c, Waiting)
    case GiveUp(c) => In(s, c, Waiting)
    case StartKill(c) => c !in s.closers
    case KillProcess(c) => c in s.closers && s.closers[c].Killing?
    case LoadState(c) => c in s.closers && s.closers[c].Loading?
    case SwapState(c) => c in s.closers && s.closers[c].Swapping?
    case _ => true
  }

  function Move(s: Sys, t: nat, c: Caller): Sys {
    s.(callers := s.callers[t := c])
  }

  function Go(s: Sys, c: nat, p: Closer): Sys {
    s.(closers := s.closers[c := p])
  }

  predicate IsCallers(a: Action) {
    a.Look? || a.Count? || a.Relook? || a.Retreat? || a.End? || a.Settle?
  }

  /** The accesses of BeginRequest and of the end function it returns. */
  function CallerStep(s: Sys, a: Action): Sys
    requires Enabled(s, a) && IsCallers(a)
  {
    match a
    case Look(t) => Move(s, t, if s.state == Ready then Checked else Finished)
    case Count(t) => Move(s, t, Counted).(inflight := s.inflight + 1)
    case Relook(t) => Move(s, t, if s.state == Ready then Granted else Retreating)
    case Retreat(t) => Move(s, t, Finished).(inflight := s.inflight - 1)
    case End(t) => if s.callers[t] == Granted then Move(s, t, Releasing) else s
    case Settle(t) => Move(s, t, Finished).(inflight := s.inflight - 1)
  }

  function Apply(s: Sys, a: Action): Sys
    requires Enabled(s, a)
  {
    match a
    case StartDrain(c) => Go(s, c, Polling).(state := Draining)
    case Poll(c) => Go(s, c, if s.inflight > 0 then Waiting else Killing(true))
    case Tick(c) => Go(s, c, Polling)
    case GiveUp(c) => Go(s, c, Killing(false))
    case StartKill(c) => Go(s, c, Killing(false))
    case KillProcess(c) => Go(s, c, Loading(s.closers[c].clean)).(alive := false)
    case LoadState(c) => LoadStep(s, c)
    case SwapState(c) => SwapStep(s, c)
    case MarkReady => s.(state := Ready)
    case MarkFailed => s.(state := Failed)
    case MarkQuarantined => s.(state := Quarantined)
    case _ => CallerStep(s, a)
  }

  /** terminate leaves a quarantine alone and goes for anything else. */
  function LoadStep(s: Sys, c: nat): Sys
    requires c in s.closers && s.closers[c].Loading?
  {
    var clean := s.closers[c].clean;
    Go(s, c, if s.state == Quarantined then Closed(clean) else Swapping(s.state, clean))
  }

  /** The compare-and-swap; when the state has changed meanwhile, terminate loads it again. */
  function SwapStep(s: Sys, c: nat): Sys
    requires c in s.closers && s.closers[c].Swapping?
  {
    var p := s.closers[c];
    if s.state == p.seen then Go(s, c, Closed(p.clean)).(state := Stopped) else Go(s, c, Loading(p.clean))
  }

  /** `trace` is what an instance goes through when exactly `acts` happen to it. */
  ghost predicate IsRun(trace: seq<Sys>, acts: seq<Action>) {
    && |trace| == |acts| + 1
    && trace[0] == INITIAL
    && forall i :: 0 <= i < |acts| ==> Enabled(trace[i], acts[i]) && trace[i + 1] == Apply(trace[i], acts[i])
  }

  // ----- what every interleaving keeps -----

  predicate Counts(c: Caller) {
    c == Counted || c == Retreating || c == Granted || c == Releasing
  }

  function CountingIn(callers: map<nat, Caller>): set<nat> {
    set t | t in callers && Counts(callers[t])
  }

  /** Callers whose increment has not been undone. */
  function Counting(s: Sys): set<nat> {
    CountingIn(s.callers)
  }

  /** Reservations granted and not given back. */
  function Outstanding(s: Sys): set<nat> {
    OutstandingIn(s.callers)
  }

  function OutstandingIn(callers: map<nat, Caller>): set<nat> {
    set t | t in callers && (callers[t] == Granted || callers[t] == Releasing)
  }

  /** Nobody is about to swap a quarantine away. */
  ghost predicate NoneSawQuarantine(closers: map<nat, Closer>) {
    forall c :: c in closers && closers[c].Swapping? ==> closers[c].seen != Quarantined
  }

  ghost predicate Inv(s: Sys) {
    s.inflight == |Counting(s)| && NoneSawQuarantine(s.closers)
  }

  lemma MoveCounts(callers: map<nat, Caller>, t: nat, c: Caller)
    ensures CountingIn(callers[t := c]) == if Counts(c) then CountingIn(callers) + {t} else CountingIn(callers) - {t}
  {
  }

  lemma MoveOutstanding(callers: map<nat, Caller>, t: nat, c: Caller)
    ensures OutstandingIn(callers[t := c]) ==
            if c == Granted || c == Releasing then OutstandingIn(callers) + {t} else OutstandingIn(callers) - {t}
  {
  }

  /** A caller moves on and the count follows: up when it starts to count, down when it stops. */
  lemma CallerMoves(s: Sys, t: nat, c: Caller, n: int)
    requires Inv(s)
    requires n == s.inflight + (if Counts(c) then 1 else 0) - (if t in s.callers && Counts(s.callers[t]) then 1 else 0)
    ensures Inv(Move(s, t, c).(inflight := n))
  {
    MoveCounts(s.callers, t, c);
    assert t in CountingIn(s.callers) <==> t in s.callers && Counts(s.callers[t]);
  }

  lemma CallerKeepsInv(s: Sys, a: Action)
    requires Inv(s) && Enabled(s, a) && IsCallers(a)
    ensures Inv(Apply(s, a))
  {
    var s' := Apply(s, a);
    match a {
      case Look(t) => CallerMoves(s, t, s'.callers[t], s.inflight);
      case Count(t) => CallerMoves(s, t, Counted, s.inflight + 1);
      case Relook(t) => CallerMoves(s, t, s'.callers[t], s.inflight);
      case Retreat(t) => CallerMoves(s, t, Finished, s.inflight - 1);
      case End(t) => CallerMoves(s, t, Releasing, s.inflight + if Counts(s.callers[t]) then 0 else 1);
      case Settle(t) => CallerMoves(s, t, Finished, s.inflight - 1);
    }
  }

  lemma CloserKeepsInv(s: Sys, a: Action)
    requires Inv(s) && Enabled(s, a) && !IsCallers(a)
    ensures Inv(Apply(s, a))
  {
    assert Apply(s, a).callers == s.callers;
  }

  lemma StepKeepsInv(s: Sys, a: Action)
    requires Inv(s) && Enabled(s, a)
    ensures Inv(Apply(s, a))
  {
    if IsCallers(a) {
      CallerKeepsInv(s, a);
    } else {
      CloserKeepsInv(s, a);
    }
  }

  /**
  In every interleaving the in-flight count is exactly the number of reservations granted and not
  ended plus the callers between their increment and its undoing; in particular it is never negative.
  */
  lemma {:induction false} InflightIsExact(trace: seq<Sys>, acts: seq<Action>, i: nat)
    requires IsRun(trace, acts) && i <= |acts|
    ensures Inv(trace[i])
    ensures |Outstanding(trace[i])| <= trace[i].inflight
  {
    if i > 0 {
      InflightIsExact(trace, acts, i - 1);
      StepKeepsInv(trace[i - 1], acts[i - 1]);
    } else {
      assert Counting(INITIAL) == {};
    }
    var s := trace[i];
    SubsetSize(Outstanding(s), Counting(s));
  }

  /** The closer has decided to kill because it read a count of zero. */
  predicate Clean(s: Sys, c: nat) {
    c in s.closers &&
    match s.closers[c]
    case Polling => false
    case Waiting => false
    case Killing(clean) => clean
    case Loading(clean) => clean
    case Swapping(_, clean) => clean
    case Closed(clean) => clean
  }

  /** What a drain has established once it has stored Draining and nobody marks the instance ready again. */
  ghost predicate Drained(s: Sys, c: nat) {
    s.state != Ready && c in s.closers && (Clean(s, c) ==> Outstanding(s) == {})
  }

  lemma StepKeepsDrained(s: Sys, a: Action, c: nat)
    requires Inv(s) && Enabled(s, a) && a != MarkReady && Drained(s, c)
    ensures Drained(Apply(s, a), c)
  {
    var s' := Apply(s, a);
    assert Outstanding(s') <= Outstanding(s);
    if Clean(s', c) && !Clean(s, c) {
      assert a == Poll(c);
      assert Outstanding(s) <= Counting(s) == {};
    }
  }

  /**
  The drain theorem.  Take any run in which drain `c` starts and MarkReady is not called after it.
  From the moment `c` has read a zero count, through the kill, its clean return and everything that
  follows, no reservation is outstanding: none was at the kill and none is granted afterwards.
  */
  lemma {:induction false} CleanDrainLosesNoRequest(
    trace: seq<Sys>, acts: seq<Action>, c: nat, start: nat, i: nat)
    requires IsRun(trace, acts)
    requires start < i <= |acts| && acts[start] == StartDrain(c)
    requires forall k :: start < k < |acts| ==> acts[k] != MarkReady
    ensures c in trace[i].closers && trace[i].state != Ready
    ensures Clean(trace[i], c) ==> Outstanding(trace[i]) == {}
  {
    if i == start + 1 {
      assert trace[i] == Apply(trace[start], StartDrain(c));
    } else {
      CleanDrainLosesNoRequest(trace, acts, c, start, i - 1);
      InflightIsExact(trace, acts, i - 1);
      StepKeepsDrained(trace[i - 1], acts[i - 1], c);
    }
  }

  // ----- what a drain reports -----

  /** The loop of Drain is over. */
  predicate Decided(p: Closer) {
    !p.Polling? && !p.Waiting?
  }

  /** The process has been killed. */
  predicate HasKilled(p: Closer) {
    p.Loading? || p.Swapping? || p.Closed?
  }

  /** How far a drain is, told by whether it has read a zero, has given up and has killed the process. */
  predicate Tells(p: Closer, zero: bool, gaveUp: bool, killed: bool) {
    && (Decided(p) <==> zero || gaveUp)
    && (Decided(p) ==> (p.clean <==> zero) && (!p.clean <==> gaveUp))
    && (HasKilled(p) <==> killed)
  }

  lemma CloserStep(s: Sys, a: Action, c: nat, zero: bool, gaveUp: bool, killed: bool)
    requires Inv(s) && Enabled(s, a) && c in s.closers && Tells(s.closers[c], zero, gaveUp, killed)
    ensures c in Apply(s, a).closers
    ensures Tells(Apply(s, a).closers[c], zero || (a == Poll(c) && s.inflight == 0), gaveUp || a == GiveUp(c),
                  killed || a == KillProcess(c))
  {
    if a in {Poll(c), GiveUp(c), Tick(c), KillProcess(c), LoadState(c), SwapState(c)} {
    } else {
      assert Apply(s, a).closers[c] == s.closers[c];
    }
  }

  /** Drain c, started at `start`, read a count of zero before step i. */
  ghost predicate ReadZero(trace: seq<Sys>, acts: seq<Action>, c: nat, start: nat, i: nat)
    requires |trace| == |acts| + 1 && i <= |acts|
  {
    exists k :: start < k < i && acts[k] == Poll(c) && trace[k].inflight == 0
  }

  ghost predicate Happened(acts: seq<Action>, a: Action, start: nat, i: nat)
    requires i <= |acts|
  {
    exists k :: start < k < i && acts[k] == a
  }

  lemma HappenedStep(acts: seq<Action>, a: Action, start: nat, i: nat)
    requires start < i < |acts|
    ensures Happened(acts, a, start, i + 1) <==> Happened(acts, a, start, i) || acts[i] == a
  {
  }

  lemma ReadZeroStep(trace: seq<Sys>, acts: seq<Action>, c: nat, start: nat, i: nat)
    requires |trace| == |acts| + 1 && start < i < |acts|
    ensures ReadZero(trace, acts, c, start, i + 1) <==>
            ReadZero(trace, acts, c, start, i) || (acts[i] == Poll(c) && trace[i].inflight == 0)
  {
  }

  lemma {:induction false} DrainTold(trace: seq<Sys>, acts: seq<Action>, c: nat, start: nat, i: nat)
    requires IsRun(trace, acts) && start < i <= |acts| && acts[start] == StartDrain(c)
    ensures c in trace[i].closers
    ensures Tells(trace[i].closers[c], ReadZero(trace, acts, c, start, i), Happened(acts, GiveUp(c), start, i),
                  Happened(acts, KillProcess(c), start, i))
  {
    if i == start + 1 {
      assert trace[i].closers[c] == Polling;
    } else {
      var j := i - 1;
      DrainTold(trace, acts, c, start, j);
      InflightIsExact(trace, acts, j);
      CloserStep(trace[j], acts[j], c, ReadZero(trace, acts, c, start, j), Happened(acts, GiveUp(c), start, j),
                 Happened(acts, KillProcess(c), start, j));
      ReadZeroStep(trace, acts, c, start, j);
      HappenedStep(acts, GiveUp(c), start, j);
      HappenedStep(acts, KillProcess(c), start, j);
    }
  }

  /**
  Exactly what Drain reports, in every run: it is on its way to a clean report if and only if it has read a count of
  zero, and once it has returned, it returned an error if and only if it gave up waiting.
  */
  lemma DrainReportsExactly(trace: seq<Sys>, acts: seq<Action>, c: nat, start: nat, i: nat)
    requires IsRun(trace, acts) && start < i <= |acts| && acts[start] == StartDrain(c)
    ensures c in trace[i].closers
    ensures Clean(trace[i], c) <==> exists k :: start < k < i && acts[k] == Poll(c) && trace[k].inflight == 0
    ensures trace[i].closers[c].Closed? ==>
              && (trace[i].closers[c].clean <==> exists k :: start < k < i && acts[k] == Poll(c) && trace[k].inflight == 0)
              && (!trace[i].closers[c].clean <==> exists k :: start < k < i && acts[k] == GiveUp(c))
  {
    DrainTold(trace, acts, c, start, i);
  }

  /** Whoever gets as far as the state has killed the process, and it never comes back. */
  lemma {:induction false} KilledIsDead(trace: seq<Sys>, acts: seq<Action>, c: nat, i: nat)
    requires IsRun(trace, acts) && i <= |acts| && c in trace[i].closers
    ensures trace[i].closers[c].Loading? || trace[i].closers[c].Swapping? || trace[i].closers[c].Closed? ==> !trace[i].alive
  {
    if i > 0 && c in trace[i - 1].closers {
      KilledIsDead(trace, acts, c, i - 1);
    }
  }

  /** The step with which a drain or a kill returns leaves the instance stopped or quarantined. */
  lemma ReturnsSettled(s: Sys, a: Action, c: nat)
    requires Inv(s) && Enabled(s, a) && c in s.closers && !s.closers[c].Closed?
    requires c in Apply(s, a).closers && Apply(s, a).closers[c].Closed?
    ensures Apply(s, a).state == if s.state == Quarantined then Quarantined else Stopped
  {
  }

  /** Nothing in flight and nobody interfering: Drain kills the process and returns clean, with the instance stopped. */
  lemma IdleDrainStops(s: Sys, c: nat)
    requires s.inflight == 0 && c !in s.closers
    ensures var d := Apply(Apply(Apply(s, StartDrain(c)), Poll(c)), KillProcess(c));
            && d == Sys(Draining, 0, false, s.callers, s.closers[c := Loading(true)])
            && Apply(Apply(d, LoadState(c)), SwapState(c)) == Sys(Stopped, 0, false, s.callers, s.closers[c := Closed(true)])
  {
    var d := Apply(s, StartDrain(c));
    assert d == Sys(Draining, 0, s.alive, s.callers, s.closers[c := Polling]);
    var p := Apply(d, Poll(c));
    assert p == Sys(Draining, 0, s.alive, s.callers, s.closers[c := Killing(true)]);
    var k := Apply(p, KillProcess(c));
    assert k == Sys(Draining, 0, false, s.callers, s.closers[c := Loading(true)]);
    assert Apply(k, LoadState(c)) == Sys(Draining, 0, false, s.callers, s.closers[c := Swapping(Draining, true)]);
  }

  /** A ready instance grants a reservation to whoever runs BeginRequest undisturbed. */
  lemma ReadyGrants(s: Sys, t: nat)
    requires s.state == Ready && t !in s.callers
    ensures Apply(Apply(Apply(s, Look(t)), Count(t)), Relook(t))
            == s.(callers := s.callers[t := Granted], inflight := s.inflight + 1)
  {
    var l := Apply(s, Look(t));
    assert l == s.(callers := s.callers[t := Checked]);
    assert Apply(l, Count(t)) == s.(callers := s.callers[t := Counted], inflight := s.inflight + 1);
  }

  /** One that starts to drain after the increment refuses, and takes the increment back. */
  lemma DrainRefuses(s: Sys, t: nat, c: nat)
    requires s.state == Ready && t !in s.callers && c !in s.closers
    ensures Apply(Apply(Apply(Apply(Apply(s, Look(t)), Count(t)), StartDrain(c)), Relook(t)), Retreat(t))
            == s.(callers := s.callers[t := Finished], state := Draining, closers := s.closers[c := Polling])
  {
    var l := Apply(s, Look(t));
    assert l == s.(callers := s.callers[t := Checked]);
    var n := Apply(l, Count(t));
    assert n == s.(callers := s.callers[t := Counted], inflight := s.inflight + 1);
    var d := Apply(n, StartDrain(c));
    var r := Apply(d, Relook(t));
    assert r == d.(callers := s.callers[t := Retreating]);
  }

  /**
  Without the promise about MarkReady the theorem fails.  From an instance that drain 0 has just
  killed cleanly, MarkReady lets BeginRequest grant a reservation on the dead process.
  */
  lemma ReadyAgainBreaksTheDrain()
    ensures var s := Apply(Apply(Apply(INITIAL, StartDrain(0)), Poll(0)), KillProcess(0));
            var r := Apply(s, MarkReady);
            var g := Apply(Apply(Apply(r, Look(7)), Count(7)), Relook(7));
            && Clean(s, 0) && Outstanding(s) == {}
            && Clean(g, 0) && !g.alive && 7 in Outstanding(g)
  {
    IdleDrainStops(INITIAL, 0);
    var s := Sys(Draining, 0, false, map[], map[0 := Loading(true)]);
    var r := s.(state := Ready);
    assert Apply(s, MarkReady) == r;
    ReadyGrants(r, 7);
    var g := r.(callers := map[7 := Granted], inflight := 1);
    assert Apply(Apply(Apply(r, Look(7)), Count(7)), Relook(7)) == g;
    assert Clean(s, 0) && Clean(g, 0);
    assert 7 in OutstandingIn(g.callers);
  }

  /** What can happen from s on, with nobody marking the instance ready. */
  ghost predicate Continues(s: Sys, trace: seq<Sys>, acts: seq<Action>) {
    && |trace| == |acts| + 1 && trace[0] == s
    && forall i :: 0 <= i < |acts| ==>
         acts[i] != MarkReady && Enabled(trace[i], acts[i]) && trace[i + 1] == Apply(trace[i], acts[i])
  }

  /** Somebody who has not asked yet can still get a reservation. */
  ghost predicate CanGrant(s: Sys, t: nat) {
    exists trace, acts :: Continues(s, trace, acts) && At(trace[|acts|], t, Granted)
  }

  lemma {:induction false} NotReadyRefuses(s: Sys, trace: seq<Sys>, acts: seq<Action>, t: nat, i: nat)
    requires Continues(s, trace, acts) && s.state != Ready && t !in s.callers && i <= |acts|
    ensures trace[i].state != Ready && (t in trace[i].callers ==> trace[i].callers[t] == Finished)
  {
    if i > 0 {
      NotReadyRefuses(s, trace, acts, t, i - 1);
    }
  }

  /** While nobody marks the instance ready, a new caller can get a reservation if and only if the instance is ready now. */
  lemma {:induction false} GrantsIffReady(s: Sys, t: nat)
    requires t !in s.callers
    ensures CanGrant(s, t) <==> s.state == Ready
  {
    if s.state == Ready {
      ReadyGrants(s, t);
      var l := Apply(s, Look(t));
      var n := Apply(l, Count(t));
      var g := Apply(n, Relook(t));
      assert Continues(s, [s, l, n, g], [Look(t), Count(t), Relook(t)]);
    } else if trace, acts :| Continues(s, trace, acts) && At(trace[|acts|], t, Granted) {
      NotReadyRefuses(s, trace, acts, t, |acts|);
    }
  }

  /** A granted reservation gives back its increment exactly once, however often its end function is called. */
  lemma EndIsIdempotent(s: Sys, t: nat)
    requires Inv(s) && At(s, t, Granted)
    ensures var s1 := Apply(s, End(t));
            && Apply(s1, End(t)) == s1
            && var s2 := Apply(s1, Settle(t));
               && s2.inflight == s.inflight - 1
               && Apply(s2, End(t)) == s2
               && !Enabled(s2, Settle(t))
               && Outstanding(s2) == Outstanding(s) - {t}
  {
    var s2 := Apply(Apply(s, End(t)), Settle(t));
    assert Outstanding(s2) == Outstanding(s) - {t};
  }

  // ----- quarantine -----

  /**
  Exactly the stores of Drain, MarkReady and MarkFailed can lift a quarantine; terminate, which loads
  the state and swaps it in two separate steps, never does.
  */
  lemma QuarantineLiftedExactlyBy(s: Sys, a: Action)
    requires Inv(s) && Enabled(s, a) && s.state == Quarantined
    ensures Apply(s, a).state == Quarantined <==> !(a.StartDrain? || a.MarkReady? || a.MarkFailed?)
  {
  }

  /** Over whole runs: a quarantine outlives every kill that enforces it. */
  lemma {:induction false} QuarantineOutlivesKills(trace: seq<Sys>, acts: seq<Action>, i: nat, j: nat)
    requires IsRun(trace, acts) && i <= j <= |acts|
    requires trace[i].state == Quarantined
    requires forall k :: i <= k < j ==> !(acts[k].StartDrain? || acts[k].MarkReady? || acts[k].MarkFailed?)
    ensures trace[j].state == Quarantined
  {
    if i < j {
      QuarantineOutlivesKills(trace, acts, i, j - 1);
      InflightIsExact(trace, acts, j - 1);
      QuarantineLiftedExactlyBy(trace[j - 1], acts[j - 1]);
    }
  }

  /** A kill on its own reaches Stopped or leaves the quarantine, and the process is dead. */
  lemma KillSettles(s: Sys, c: nat)
    requires Inv(s) && c !in s.closers
    ensures var k := Apply(Apply(s, StartKill(c)), KillProcess(c));
            var l := Apply(k, LoadState(c));
            var e := if l.closers[c].Closed? then l else Apply(l, SwapState(c));
            && !e.alive && e.closers[c] == Closed(false) && e.callers == s.callers && e.inflight == s.inflight
            && e.state == if s.state == Quarantined then Quarantined else Stopped
  {
    var k := Apply(Apply(s, StartKill(c)), KillProcess(c));
    assert k.closers[c] == Loading(false) && !k.alive && k.state == s.state && k.callers == s.callers && k.inflight == s.inflight;
    var l := Apply(k, LoadState(c));
    assert l.closers[c] == if s.state == Quarantined then Closed(false) else Swapping(s.state, false);
  }

  // ----- the instance as an object -----

  /** A store by MarkReady, MarkFailed or MarkQuarantined, another drain's store, or another kill. */
  datatype Disturbance = Marked(mark: Life) | Drained | Killed

  predicate AllMarks(xs: seq<Disturbance>) {
    forall i :: 0 <= i < |xs| && xs[i].Marked? ==> xs[i].mark in {Ready, Failed, Quarantined}
  }

  function Settled(state: Life): Life {
    if state == Quarantined then Quarantined else Stopped
  }

  function Effect(state: Life, x: Disturbance): Life {
    match x
    case Marked(mark) => mark
    case Drained => Draining
    case Killed => Settled(state)
  }

  function Effects(state: Life, xs: seq<Disturbance>, n: nat): Life
    requires n <= |xs|
  {
    if n == 0 then state else Effect(Effects(state, xs, n - 1), xs[n - 1])
  }

  /** The state after the first n turns' disturbances and nothing else. */
  function AfterTurns(state: Life, others: seq<seq<Disturbance>>, n: nat): Life
    requires n <= |others|
  {
    if n == 0 then state else Effects(AfterTurns(state, others, n - 1), others[n - 1], |others[n - 1]|)
  }

  /** Nobody who was closing the instance has moved on. */
  ghost predicate KeepsClosers(s: Sys, s': Sys) {
    forall c :: c in s.closers ==> c in s'.closers && s'.closers[c] == s.closers[c]
  }

  lemma {:induction false} FreshCloser(closers: map<nat, Closer>) returns (d: nat)
    ensures d !in closers
  {
    d := FreshNat(closers.Keys);
    assert d !in closers.Keys;
  }

  lemma {:induction false} FreshNat(s: set<nat>) returns (d: nat)
    ensures forall x :: x in s ==> x < d
    decreases s
  {
    d := 0;
    if s != {} {
      var x :| x in s;
      var e := FreshNat(s - {x});
      assert forall y :: y in s ==> y == x || y in s - {x};
      d := if e <= x then x + 1 else e;
    }
  }

  /** The done flag an end function closes over. */
  class Ticket {
    var done: bool

    constructor ()
      ensures !done
    {
      done := false;
    }
  }

  /**
  The fields of an instance, one method per atomic access.  `sys` is what the run model says has happened; the code
  sees none of it, neither who is calling nor how far they have come.
  */
  class Instance {
    var state: Life
    var inflight: int
    var alive: bool
    ghost var sys: Sys

    ghost predicate Valid()
      reads this
    {
      Inv(sys) && sys.state == state && sys.inflight == inflight && sys.alive == alive
    }

    constructor ()
      ensures Valid() && sys == INITIAL
    {
      state, inflight, alive, sys := Starting, 0, true, INITIAL;
    }

    method Look(ghost t: nat) returns (ready: bool)
      requires Valid() && Enabled(sys, Action.Look(t))
      modifies this`sys
      ensures Valid() && sys == Apply(old(sys), Action.Look(t)) && (ready <==> state == Ready)
    {
      StepKeepsInv(sys, Action.Look(t));
      ready := state == Ready;
      sys := Apply(sys, Action.Look(t));
    }

    method Increment(ghost t: nat)
      requires Valid() && Enabled(sys, Count(t))
      modifies this`inflight, this`sys
      ensures Valid() && sys == Apply(old(sys), Count(t))
    {
      StepKeepsInv(sys, Count(t));
      inflight := inflight + 1;
      sys := Apply(sys, Count(t));
    }

    method Relook(ghost t: nat) returns (granted: bool)
      requires Valid() && Enabled(sys, Action.Relook(t))
      modifies this`sys
      ensures Valid() && sys == Apply(old(sys), Action.Relook(t))
      ensures granted <==> state == Ready
    {
      StepKeepsInv(sys, Action.Relook(t));
      granted := state == Ready;
      sys := Apply(sys, Action.Relook(t));
    }

    method Decrement(ghost t: nat, ghost refused: bool)
      requires Valid() && Enabled(sys, if refused then Retreat(t) else Settle(t))
      modifies this`inflight, this`sys
      ensures Valid() && sys == Apply(old(sys), if refused then Retreat(t) else Settle(t))
    {
      StepKeepsInv(sys, if refused then Retreat(t) else Settle(t));
      inflight := inflight - 1;
      sys := Apply(sys, if refused then Retreat(t) else Settle(t));
    }

    /**
    BeginRequest, with a drain perhaps storing its state between the increment and the second look: a ticket exactly if
    the instance is ready and stays so, counted while it is out; a refusal leaves the count as it was.
    */
    method BeginRequest(ghost t: nat, drained: bool, ghost c: nat) returns (ticket: Ticket?)
      requires Valid() && t !in sys.callers && c !in sys.closers
      modifies this`inflight, this`state, this`sys
      ensures Valid() && t in sys.callers
      ensures ticket != null <==> old(state) == Ready && !drained
      ensures ticket != null ==> fresh(ticket) && !ticket.done
      ensures sys.callers == old(sys.callers)[t := if ticket != null then Granted else Finished]
      ensures inflight == old(inflight) + if ticket != null then 1 else 0
    {
      ghost var s := sys;
      var ready := Look(t);
      if !ready {
        return null;
      }
      Increment(t);
      if drained {
        StoreDraining(c);
      }
      var granted := Relook(t);
      if !granted {
        Decrement(t, true);
        DrainRefuses(s, t, c);
        return null;
      }
      ReadyGrants(s, t);
      ticket := new Ticket();
    }

    /** The compare-and-swap of the end function on the caller's own flag. */
    method Finish(ticket: Ticket, ghost t: nat) returns (won: bool)
      requires Valid() && Enabled(sys, End(t)) && (ticket.done <==> !At(sys, t, Granted))
      modifies ticket, this`sys
      ensures Valid() && sys == Apply(old(sys), End(t))
      ensures ticket.done && (won <==> !old(ticket.done)) && (won ==> At(sys, t, Releasing))
    {
      StepKeepsInv(sys, End(t));
      won := !ticket.done;
      ticket.done := true;
      sys := Apply(sys, End(t));
    }

    /** The end function when nobody interferes: however often it is called, the reservation is given back once. */
    method EndCall(ticket: Ticket, ghost t: nat)
      requires Valid() && t in sys.callers && (if ticket.done then At(sys, t, Finished) else At(sys, t, Granted))
      modifies ticket, this`inflight, this`sys
      ensures Valid() && ticket.done && At(sys, t, Finished)
      ensures inflight == old(inflight) - if old(ticket.done) then 0 else 1
      ensures Outstanding(sys) == old(Outstanding(sys)) - {t}
    {
      MoveOutstanding(sys.callers, t, Finished);
      var won := Finish(ticket, t);
      if won {
        Decrement(t, false);
      }
    }

    method StoreDraining(ghost c: nat)
      requires Valid() && Enabled(sys, StartDrain(c))
      modifies this`state, this`sys
      ensures Valid() && sys == Apply(old(sys), StartDrain(c)) && state == Draining
    {
      StepKeepsInv(sys, StartDrain(c));
      state := Draining;
      sys := Apply(sys, StartDrain(c));
    }

    /** The head of Drain's loop: true means there is nothing left to wait for. */
    method Idle(ghost c: nat) returns (idle: bool)
      requires Valid() && Enabled(sys, Poll(c))
      modifies this`sys
      ensures Valid() && sys == Apply(old(sys), Poll(c))
      ensures idle <==> inflight == 0
      ensures idle <==> Clean(sys, c)
      ensures idle ==> Outstanding(sys) == {}
    {
      StepKeepsInv(sys, Poll(c));
      idle := !(inflight > 0);
      assert Outstanding(sys) <= Counting(sys);
      sys := Apply(sys, Poll(c));
      assert Outstanding(sys) == old(Outstanding(sys));
    }

    method KillProcess(ghost c: nat)
      requires Valid() && Enabled(sys, Action.KillProcess(c))
      modifies this`alive, this`sys
      ensures Valid() && sys == Apply(old(sys), Action.KillProcess(c)) && !alive
    {
      StepKeepsInv(sys, Action.KillProcess(c));
      alive := false;
      sys := Apply(sys, Action.KillProcess(c));
    }

    method LoadState(ghost c: nat) returns (seen: Life)
      requires Valid() && Enabled(sys, Action.LoadState(c))
      modifies this`sys
      ensures Valid() && sys == Apply(old(sys), Action.LoadState(c)) && seen == state
    {
      StepKeepsInv(sys, Action.LoadState(c));
      seen := state;
      sys := Apply(sys, Action.LoadState(c));
    }

    method SwapState(ghost c: nat, seen: Life) returns (swapped: bool)
      requires Valid() && Enabled(sys, Action.SwapState(c)) && sys.closers[c].seen == seen
      modifies this`state, this`sys
      ensures Valid() && sys == Apply(old(sys), Action.SwapState(c))
      ensures (swapped <==> old(state) == seen) && state == if swapped then Stopped else old(state)
    {
      StepKeepsInv(sys, Action.SwapState(c));
      swapped := state == seen;
      if swapped {
        state := Stopped;
      }
      sys := Apply(sys, Action.SwapState(c));
    }

    method SetState(mark: Life)
      requires Valid() && (mark == Ready || mark == Failed || mark == Quarantined)
      modifies this`state, this`sys
      ensures Valid() && state == mark && sys == Apply(old(sys), MarkOf(mark))
    {
      StepKeepsInv(sys, MarkOf(mark));
      state := mark;
      sys := Apply(sys, MarkOf(mark));
    }

    /** Another drain begins. */
    method OtherDrain()
      requires Valid()
      modifies this`state, this`sys
      ensures Valid() && state == Draining && KeepsClosers(old(sys), sys)
    {
      ghost var d := FreshCloser(sys.closers);
      StoreDraining(d);
    }

    /** Another kill runs to its end. */
    method OtherKill()
      requires Valid() && !alive
      modifies this`alive, this`state, this`sys
      ensures Valid() && !alive && state == Effect(old(state), Killed) && KeepsClosers(old(sys), sys)
    {
      ghost var d := FreshCloser(sys.closers);
      EnterKill(d);
      KillProcess(d);
      var seen := LoadState(d);
      if seen != Quarantined {
        var swapped := SwapState(d, seen);
      }
    }

    method EnterKill(ghost c: nat)
      requires Valid() && c !in sys.closers
      modifies this`sys
      ensures Valid() && sys == Apply(old(sys), StartKill(c))
    {
      StepKeepsInv(sys, StartKill(c));
      sys := Apply(sys, StartKill(c));
    }

    /** What somebody else does to the state between two accesses of terminate. */
    method Disturb(x: Disturbance)
      requires Valid() && !alive && (x.Marked? ==> x.mark in {Ready, Failed, Quarantined})
      modifies this`alive, this`state, this`sys
      ensures Valid() && !alive && state == Effect(old(state), x) && KeepsClosers(old(sys), sys)
    {
      match x {
        case Marked(mark) => SetState(mark);
        case Drained => OtherDrain();
        case Killed => OtherKill();
      }
    }

    method DisturbAll(xs: seq<Disturbance>)
      requires Valid() && !alive && AllMarks(xs)
      modifies this`alive, this`state, this`sys
      ensures Valid() && !alive && state == Effects(old(state), xs, |xs|) && KeepsClosers(old(sys), sys)
    {
      for i := 0 to |xs|
        invariant Valid() && !alive && state == Effects(old(state), xs, i) && KeepsClosers(old(sys), sys)
      {
        Disturb(xs[i]);
      }
    }

    /**
    terminate, while others change the state between its load and its compare-and-swap, any number of times: `others` are
    those changes, turn by turn of the loop, and `used` the number of turns they happened in.  The process dies, and the
    instance ends up quarantined exactly if the others leave it so, and stopped otherwise.
    */
    method Terminate(ghost c: nat, others: seq<seq<Disturbance>>) returns (used: nat)
      requires Valid() && Enabled(sys, Action.KillProcess(c)) && forall i :: 0 <= i < |others| ==> AllMarks(others[i])
      modifies this`alive, this`state, this`sys
      ensures Valid() && !alive && used <= |others|
      ensures state == if AfterTurns(old(state), others, used) == Quarantined then Quarantined else Stopped
    {
      ghost var was := state;
      KillProcess(c);
      used := 0;
      var left := false;
      while !left
        invariant Valid() && !alive && used <= |others|
        invariant if left then state == Settled(AfterTurns(was, others, used))
                  else Enabled(sys, Action.LoadState(c)) && state == AfterTurns(was, others, used)
        decreases !left, |others| - used
      {
        var seen := LoadState(c);
        if seen == Quarantined {
          left := true;
        } else {
          if used < |others| {
            DisturbAll(others[used]);
            used := used + 1;
          }
          left := SwapState(c, seen);
        }
      }
    }
  }

  function MarkOf(mark: Life): Action {
    if mark == Ready then MarkReady else if mark == Failed then MarkFailed else MarkQuarantined
  }
}

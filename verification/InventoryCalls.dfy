/**
One call of reserve or restock (extension-example/inventory/main.go), attempt by attempt.

The handler of request t takes its database steps between anybody else's.  A reply can be lost: the SDK reports a
commit whose reply did not arrive as a plain error (sdk/plugin/host.go), and so does a write outside a transaction.
*/
module InventoryCalls {
  import opened Common
  import opened Inventory

  // ----- the handlers -----

  /**
  How one attempt ended for the handler.  `Done` changed the database and `Lost` is a commit, or a write outside a
  transaction, that was sent and never answered: the host may carry it out or not, at once or later.  Nothing else
  changes anything.
  */
  datatype Outcome = Done | Lost | Conflict | RateLimited | NoSuchItem | NotEnough | Failed

  datatype Kind = Reserving | Restocking

  /** The outcomes a handler tries again after. */
  predicate Busy(kind: Kind, o: Outcome) {
    o.Conflict? || (o.RateLimited? && kind.Reserving?)
  }

  function MaxAttempts(kind: Kind): (n: nat)
    ensures n > 0
  {
    if kind.Reserving? then 8 else 3
  }

  function Success(kind: Kind): int {
    if kind.Reserving? then 201 else 200
  }

  /** What the caller is told when an attempt that is not tried again ended like this. */
  function StatusFor(kind: Kind, o: Outcome): int {
    match o
    case Done => Success(kind)
    case Conflict => if kind.Reserving? then 503 else 409
    case RateLimited => if kind.Reserving? then 503 else 500
    case NoSuchItem => 404
    case NotEnough => if kind.Reserving? then 409 else 500
    case Lost => 500
    case Failed => 500
  }

  /** One call of reserve or restock: the attempts that have ended, and the answer once there is one. */
  datatype Call = Call(kind: Kind, sku: string, qty: int, past: seq<Outcome>, status: Option<int>)

  function NewCall(kind: Kind, sku: string, qty: int): Call {
    Call(kind, sku, qty, [], if qty <= 0 then Some(400) else None)
  }

  /** After these attempts: none to try again, or the answer. */
  function StatusAfter(kind: Kind, past: seq<Outcome>): Option<int>
    requires past != []
  {
    var o := past[|past| - 1];
    if Busy(kind, o) && |past| < MaxAttempts(kind) then None else Some(StatusFor(kind, o))
  }

  function Ends(c: Call, o: Outcome): Call {
    c.(past := c.past + [o], status := StatusAfter(c.kind, c.past + [o]))
  }

  /** What the handler of a request does next, together with what becomes of it. */
  datatype Turn =
    | Refused(o: Outcome)   // no transaction, or the read failed
    | Read
    | Write                 // the version-checked write
    | GiveUp(o: Outcome)    // a later step failed: rolled back
    | Finish                // the commit
    | NoReply               // the commit, or the write of a restock, is sent and not answered

  /** The step on the database, if the move takes one. */
  function StepOf(c: Call, t: nat, m: Turn): Option<Action> {
    match m
    case Refused(_) => None
    case Read => Some(if c.kind.Reserving? then ReserveRead(t, c.sku, c.qty) else RestockRead(t, c.sku, c.qty))
    case Write => Some(if c.kind.Reserving? then ReserveWrite(t) else RestockWrite(t))
    case GiveUp(_) => Some(Rollback(t))
    case Finish => Some(Commit(t))
    case NoReply => None
  }

  predicate NothingLanded(o: Outcome) {
    o.RateLimited? || o.Failed?
  }

  ghost predicate MoveEnabled(s: Sys, c: Call, t: nat, m: Turn) {
    && c.status.None?
    && (StepOf(c, t, m).Some? ==> Enabled(s, StepOf(c, t, m).value))
    && match m
       case Refused(o) => PhaseOf(s, t).Idle? && NothingLanded(o)
       case GiveUp(o) => NothingLanded(o)
       case NoReply => PhaseOf(s, t).Written? || PhaseOf(s, t).Counting?
       case _ => true
  }

  /** Whether the move ends the attempt, and how, judging by the database before and after it. */
  function OutcomeOf(s: Sys, s': Sys, c: Call, t: nat, m: Turn): Option<Outcome> {
    match m
    case Refused(o) => Some(o)
    case GiveUp(o) => Some(o)
    case Read =>
      if !PhaseOf(s', t).Idle? then None else if c.sku in s.rows then Some(NotEnough) else Some(NoSuchItem)
    case Write =>
      if PhaseOf(s', t).Written? then None else if s'.log == s.log then Some(Conflict) else Some(Done)
    case Finish => Some(Done)
    case NoReply => Some(Lost)
  }

  datatype World = World(s: Sys, c: Call)

  /** A step of somebody else, of the handler, or of the host carrying out or dropping what was not answered. */
  datatype Step = Other(a: Action) | Own(m: Turn) | Late(done: bool)

  function LateAction(s: Sys, t: nat, done: bool): Action {
    if !done then Rollback(t) else if PhaseOf(s, t).Counting? then RestockWrite(t) else Commit(t)
  }

  /** The request an action belongs to. */
  function Actor(a: Action): Option<nat> {
    if a.PutItem? then None else Some(a.t)
  }

  ghost predicate StepEnabled(w: World, t: nat, e: Step) {
    match e
    case Other(a) => Enabled(w.s, a) && Actor(a) != Some(t)
    case Own(m) => MoveEnabled(w.s, w.c, t, m)
    case Late(done) => w.c.status.Some? && !PhaseOf(w.s, t).Idle? && Enabled(w.s, LateAction(w.s, t, done))
  }

  function Moved(w: World, t: nat, m: Turn): Sys {
    if StepOf(w.c, t, m).Some? then Apply(w.s, StepOf(w.c, t, m).value) else w.s
  }

  function StepWorld(w: World, t: nat, e: Step): World {
    match e
    case Other(a) => World(Apply(w.s, a), w.c)
    case Own(m) =>
      var s' := Moved(w, t, m);
      var o := OutcomeOf(w.s, s', w.c, t, m);
      World(s', if o.None? then w.c else Ends(w.c, o.value))
    case Late(done) => World(Apply(w.s, LateAction(w.s, t, done)), w.c)
  }

  /** One call by request t, its database steps interleaved with anybody's. */
  ghost predicate IsCall(trace: seq<World>, steps: seq<Step>, t: nat, kind: Kind, sku: string, qty: int) {
    && |trace| == |steps| + 1
    && Inv(trace[0].s) && PhaseOf(trace[0].s, t).Idle? && trace[0].c == NewCall(kind, sku, qty)
    && forall i :: 0 <= i < |steps| ==> StepEnabled(trace[i], t, steps[i]) && trace[i + 1] == StepWorld(trace[i], t, steps[i])
  }

  /** The committed changes request t made. */
  function MadeBy(log: seq<Event>, t: nat): seq<Event> {
    if log == [] then []
    else
      var e := log[|log| - 1];
      MadeBy(log[..|log| - 1], t) + if !e.Put? && e.request == t then [e] else []
  }

  lemma MadeByAppend(log: seq<Event>, e: Event, t: nat)
    ensures MadeBy(log + [e], t) == MadeBy(log, t) + if !e.Put? && e.request == t then [e] else []
  {
    assert (log + [e])[..|log|] == log;
  }

  function TheChange(c: Call, t: nat): Event {
    if c.kind.Reserving? then Sold(c.sku, c.qty, t) else Stocked(c.sku, c.qty, t)
  }

  predicate LastWas(past: seq<Outcome>, o: Outcome) {
    past != [] && past[|past| - 1] == o
  }

  /** The request's phase belongs to this call, and outlives it only while a request is unanswered. */
  predicate PhaseFits(c: Call, p: Phase) {
    p.Idle? ||
    (p.sku == c.sku && p.qty == c.qty && (c.status.None? || LastWas(c.past, Lost)) && (p.Counting? <==> c.kind.Restocking?))
  }

  /** The attempts so far: all but the last were tried again, and the answer is the last one's. */
  ghost predicate GoodPast(c: Call) {
    && |c.past| <= MaxAttempts(c.kind)
    && (forall i :: 0 <= i < |c.past| - 1 ==> Busy(c.kind, c.past[i]))
    && (c.past == [] ==> c.status == NewCall(c.kind, c.sku, c.qty).status)
    && (c.past != [] ==> c.qty > 0 && c.status == StatusAfter(c.kind, c.past))
  }

  /** Its one change is in the log, or not, as far as the answers tell. */
  ghost predicate MadeFits(c: Call, t: nat, pending: bool, before: seq<Event>, made: seq<Event>) {
    && (made == before || made == before + [TheChange(c, t)])
    && (LastWas(c.past, Done) ==> made == before + [TheChange(c, t)])
    && (made != before ==> LastWas(c.past, Done) || (LastWas(c.past, Lost) && !pending))
  }

  ghost predicate CallInv(w: World, t: nat, before: seq<Event>) {
    && Inv(w.s) && GoodPast(w.c) && PhaseFits(w.c, PhaseOf(w.s, t))
    && MadeFits(w.c, t, !PhaseOf(w.s, t).Idle?, before, MadeBy(w.s.log, t))
  }

  lemma OthersMakeNothing(s: Sys, a: Action, t: nat)
    requires Enabled(s, a) && Actor(a) != Some(t)
    ensures MadeBy(Apply(s, a).log, t) == MadeBy(s.log, t)
    ensures PhaseOf(Apply(s, a), t) == PhaseOf(s, t)
  {
    var s' := Apply(s, a);
    if s'.log != s.log {
      MadeByAppend(s.log, s'.log[|s.log|], t);
      assert s'.log == s.log + [s'.log[|s.log|]];
    }
  }

  lemma EndsIsGood(c: Call, o: Outcome)
    requires GoodPast(c) && c.status.None?
    ensures GoodPast(Ends(c, o)) && LastWas(Ends(c, o).past, o)
  {
  }

  /** What an own step does to the log, by the outcome it leads to. */
  lemma OwnStepMakes(s: Sys, c: Call, t: nat, a: Action)
    requires Inv(s) && Enabled(s, a) && Actor(a) == Some(t) && PhaseFits(c, PhaseOf(s, t))
    ensures var s' := Apply(s, a);
            && (a.Commit? ==> c.kind.Reserving? && s'.log == s.log + [TheChange(c, t)] && PhaseOf(s', t).Idle?)
            && (a.RestockWrite? ==>
                  PhaseOf(s', t).Idle? && (s'.log == s.log || (c.kind.Restocking? && s'.log == s.log + [TheChange(c, t)])))
            && (!a.Commit? && !a.RestockWrite? ==> s'.log == s.log)
  {
    assert Remembers(s.rows, PhaseOf(s, t));
  }

  lemma OwnMoveMakes(w: World, t: nat, m: Turn)
    requires Inv(w.s) && PhaseFits(w.c, PhaseOf(w.s, t)) && MoveEnabled(w.s, w.c, t, m)
    ensures var s' := Moved(w, t, m);
            var o := OutcomeOf(w.s, s', w.c, t, m);
            && Inv(s')
            && PhaseFits(if o.Some? then Ends(w.c, o.value) else w.c, PhaseOf(s', t))
            && s'.log == w.s.log + if o == Some(Done) then [TheChange(w.c, t)] else []
  {
    var a := StepOf(w.c, t, m);
    if a.Some? {
      StepKeepsInv(w.s, a.value);
      OwnStepMakes(w.s, w.c, t, a.value);
    }
  }

  function After(c: Call, o: Option<Outcome>): Call {
    if o.Some? then Ends(c, o.value) else c
  }

  /** The books of a call after a turn that ended its attempt with o, or did not end it. */
  lemma MadeStep(c: Call, t: nat, o: Option<Outcome>, was: bool, pending: bool, before: seq<Event>, made: seq<Event>)
    requires GoodPast(c) && c.status.None? && MadeFits(c, t, was, before, made)
    ensures made == before && GoodPast(After(c, o))
    ensures MadeFits(After(c, o), t, pending, before, made + if o == Some(Done) then [TheChange(c, t)] else [])
    ensures made + (if o == Some(Done) then [TheChange(c, t)] else []) != before
            <==> After(c, o).status == Some(Success(c.kind))
  {
    if o.Some? {
      EndsIsGood(c, o.value);
    }
  }

  lemma OwnMoveMadeBy(w: World, t: nat, m: Turn)
    requires Inv(w.s) && PhaseFits(w.c, PhaseOf(w.s, t)) && MoveEnabled(w.s, w.c, t, m)
    ensures var o := OutcomeOf(w.s, Moved(w, t, m), w.c, t, m);
            MadeBy(Moved(w, t, m).log, t) == MadeBy(w.s.log, t) + if o == Some(Done) then [TheChange(w.c, t)] else []
  {
    OwnMoveMakes(w, t, m);
    MadeByOutcome(w.s.log, Moved(w, t, m).log, w.c, t, OutcomeOf(w.s, Moved(w, t, m), w.c, t, m) == Some(Done));
  }

  lemma MadeByOutcome(log: seq<Event>, next: seq<Event>, c: Call, t: nat, done: bool)
    requires next == log + if done then [TheChange(c, t)] else []
    ensures MadeBy(next, t) == MadeBy(log, t) + if done then [TheChange(c, t)] else []
  {
    if done {
      MadeByAppend(log, TheChange(c, t), t);
    } else {
      assert next == log;
    }
  }

  lemma OwnMoveKeepsCall(w: World, t: nat, m: Turn, before: seq<Event>)
    requires CallInv(w, t, before) && MoveEnabled(w.s, w.c, t, m)
    ensures var w' := StepWorld(w, t, Own(m));
            && CallInv(w', t, before)
            && MadeBy(w.s.log, t) == before && (MadeBy(w'.s.log, t) != before <==> w'.c.status == Some(Success(w.c.kind)))
  {
    OwnMoveMakes(w, t, m);
    OwnMoveMadeBy(w, t, m);
    var s' := Moved(w, t, m);
    var o := OutcomeOf(w.s, s', w.c, t, m);
    MadeStep(w.c, t, o, !PhaseOf(w.s, t).Idle?, !PhaseOf(s', t).Idle?, before, MadeBy(w.s.log, t));
    assert StepWorld(w, t, Own(m)) == World(s', After(w.c, o));
  }

  lemma LateKeepsCall(w: World, t: nat, done: bool, before: seq<Event>)
    requires CallInv(w, t, before) && StepEnabled(w, t, Late(done))
    ensures CallInv(StepWorld(w, t, Late(done)), t, before)
  {
    var a := LateAction(w.s, t, done);
    StepKeepsInv(w.s, a);
    OwnStepMakes(w.s, w.c, t, a);
    MadeByAppend(w.s.log, TheChange(w.c, t), t);
  }

  lemma StepKeepsCall(w: World, t: nat, e: Step, before: seq<Event>)
    requires CallInv(w, t, before) && StepEnabled(w, t, e)
    ensures CallInv(StepWorld(w, t, e), t, before) && SameCall(w.c, StepWorld(w, t, e).c)
  {
    match e {
      case Other(a) =>
        StepKeepsInv(w.s, a);
        OthersMakeNothing(w.s, a, t);
      case Own(m) => OwnMoveKeepsCall(w, t, m, before);
      case Late(done) => LateKeepsCall(w, t, done, before);
    }
  }

  lemma {:induction false} CallKeepsInv(
    trace: seq<World>, steps: seq<Step>, t: nat, kind: Kind, sku: string, qty: int, i: nat)
    requires IsCall(trace, steps, t, kind, sku, qty) && i <= |steps|
    ensures CallInv(trace[i], t, MadeBy(trace[0].s.log, t))
    ensures SameCall(trace[0].c, trace[i].c)
  {
    if i > 0 {
      CallKeepsInv(trace, steps, t, kind, sku, qty, i - 1);
      assert StepEnabled(trace[i - 1], t, steps[i - 1]);
      StepKeepsCall(trace[i - 1], t, steps[i - 1], MadeBy(trace[0].s.log, t));
    }
  }

  predicate SameCall(a: Call, b: Call) {
    a.kind == b.kind && a.sku == b.sku && a.qty == b.qty
  }

  /**
  Whatever else happens in the database and whichever replies are lost: a call changes stock at most once, and by
  exactly what was asked for; a caller who is told so can rely on it; and a caller who is told anything else can rely
  on the contrary, except after a 500 for a request that was sent and not answered.
  */
  lemma CallTakesEffectAtMostOnce(
    trace: seq<World>, steps: seq<Step>, t: nat, kind: Kind, sku: string, qty: int, i: nat)
    requires IsCall(trace, steps, t, kind, sku, qty) && i <= |steps|
    ensures var c := trace[i].c;
            var made, before := MadeBy(trace[i].s.log, t), MadeBy(trace[0].s.log, t);
            && (made == before || made == before + [TheChange(trace[0].c, t)])
            && (c.status == Some(Success(kind)) ==> made == before + [TheChange(trace[0].c, t)])
            && (c.status != Some(Success(kind)) && made != before ==> c.status == Some(500) && LastWas(c.past, Lost))
  {
    CallKeepsInv(trace, steps, t, kind, sku, qty, i);
  }

  /** The host carried out, at step k, what the handler had no answer to. */
  ghost predicate LandsLate(trace: seq<World>, steps: seq<Step>, k: nat)
    requires |trace| == |steps| + 1 && k < |steps|
  {
    steps[k] == Late(true) && trace[k + 1].s.log != trace[k].s.log
  }

  ghost predicate LandedLate(trace: seq<World>, steps: seq<Step>, i: nat)
    requires |trace| == |steps| + 1 && i <= |steps|
  {
    exists k :: 0 <= k < i && LandsLate(trace, steps, k)
  }

  /** Exactly when the change is there: the caller was told so, or the host carried out the unanswered request. */
  lemma {:induction false} ChangedIff(
    trace: seq<World>, steps: seq<Step>, t: nat, kind: Kind, sku: string, qty: int, i: nat)
    requires IsCall(trace, steps, t, kind, sku, qty) && i <= |steps|
    ensures MadeBy(trace[i].s.log, t) != MadeBy(trace[0].s.log, t)
            <==> trace[i].c.status == Some(Success(kind)) || LandedLate(trace, steps, i)
  {
    if i > 0 {
      var j := i - 1;
      ChangedIff(trace, steps, t, kind, sku, qty, j);
      CallKeepsInv(trace, steps, t, kind, sku, qty, j);
      CallKeepsInv(trace, steps, t, kind, sku, qty, i);
      ChangedStep(trace[j], t, steps[j], MadeBy(trace[0].s.log, t));
      assert LandedLate(trace, steps, i) <==> LandedLate(trace, steps, j) || LandsLate(trace, steps, j);
    }
  }

  lemma LateChanges(w: World, t: nat, done: bool, before: seq<Event>)
    requires CallInv(w, t, before) && StepEnabled(w, t, Late(done))
    ensures var w' := StepWorld(w, t, Late(done));
            MadeBy(w.s.log, t) == before && (MadeBy(w'.s.log, t) != before <==> done && w'.s.log != w.s.log)
  {
    OwnStepMakes(w.s, w.c, t, LateAction(w.s, t, done));
    MadeByAppend(w.s.log, TheChange(w.c, t), t);
  }

  lemma ChangedStep(w: World, t: nat, e: Step, before: seq<Event>)
    requires CallInv(w, t, before) && StepEnabled(w, t, e)
    ensures var w' := StepWorld(w, t, e);
            var was, now := MadeBy(w.s.log, t) != before, MadeBy(w'.s.log, t) != before;
            && (e.Late? ==> w'.c == w.c && !was && (now <==> e.done && w'.s.log != w.s.log))
            && (e.Other? ==> w'.c == w.c && (now <==> was))
            && (e.Own? ==> !was && (now <==> w'.c.status == Some(Success(w.c.kind))))
  {
    match e {
      case Other(a) => OthersMakeNothing(w.s, a, t);
      case Own(m) => OwnMoveKeepsCall(w, t, m, before);
      case Late(done) => LateChanges(w, t, done, before);
    }
  }

  // ----- what the answers mean -----

  /** Reading: there is no such item exactly if it is not stored, and not enough exactly if less than asked for is left. */
  lemma ReadTellsTheTruth(w: World, t: nat)
    requires MoveEnabled(w.s, w.c, t, Read)
    ensures var rows, c, next := w.s.rows, w.c, StepWorld(w, t, Own(Read)).c;
            if c.sku !in rows then next == Ends(c, NoSuchItem)
            else if c.kind.Reserving? && rows[c.sku].item.onHand < rows[c.sku].item.reserved + c.qty then next == Ends(c, NotEnough)
            else next == c
  {
  }

  /** The committed changes of an item among the first n. */
  function Changes(log: seq<Event>, n: nat, sku: string): nat
    requires n <= |log|
  {
    if n == 0 then 0 else Changes(log, n - 1, sku) + if log[n - 1].sku == sku then 1 else 0
  }

  lemma {:induction false} ChangesOfPrefix(log: seq<Event>, e: Event, n: nat, sku: string)
    requires n <= |log|
    ensures Changes(log + [e], n, sku) == Changes(log, n, sku)
  {
    if n > 0 {
      ChangesOfPrefix(log, e, n - 1, sku);
    }
  }

  /** One step counts an item's version up by one for each change it commits to that item. */
  lemma VersionStep(s: Sys, a: Action, sku: string)
    requires Inv(s) && Enabled(s, a) && sku in s.rows
    ensures var s' := Apply(s, a);
            && sku in s'.rows
            && s'.rows[sku].version - s.rows[sku].version == Changes(s'.log, |s'.log|, sku) - Changes(s.log, |s.log|, sku)
  {
    var s' := Apply(s, a);
    if s'.log != s.log {
      var e := s'.log[|s.log|];
      assert s'.log == s.log + [e];
      ChangesOfPrefix(s.log, e, |s.log|, sku);
    }
  }

  /** The handler does nothing on its own from step i to step j. */
  ghost predicate OthersOnly(steps: seq<Step>, i: nat, j: nat)
    requires j <= |steps|
  {
    forall k :: i <= k < j ==> steps[k].Other?
  }

  lemma {:induction false} OthersCount(
    trace: seq<World>, steps: seq<Step>, t: nat, kind: Kind, sku: string, qty: int, i: nat, j: nat)
    requires IsCall(trace, steps, t, kind, sku, qty) && i <= j <= |steps| && OthersOnly(steps, i, j) && sku in trace[i].s.rows
    ensures trace[j].c == trace[i].c && PhaseOf(trace[j].s, t) == PhaseOf(trace[i].s, t) && sku in trace[j].s.rows
    ensures trace[j].s.rows[sku].version - trace[i].s.rows[sku].version ==
              Changes(trace[j].s.log, |trace[j].s.log|, sku) - Changes(trace[i].s.log, |trace[i].s.log|, sku)
    decreases j
  {
    if i < j {
      OthersCount(trace, steps, t, kind, sku, qty, i, j - 1);
      CallKeepsInv(trace, steps, t, kind, sku, qty, j - 1);
      assert steps[j - 1].Other? && StepEnabled(trace[j - 1], t, steps[j - 1]);
      OthersMakeNothing(trace[j - 1].s, steps[j - 1].a, t);
      VersionStep(trace[j - 1].s, steps[j - 1].a, sku);
    }
  }

  lemma WriteConflicts(w: World, t: nat)
    requires Inv(w.s) && PhaseFits(w.c, PhaseOf(w.s, t)) && MoveEnabled(w.s, w.c, t, Write)
    ensures var p, next := PhaseOf(w.s, t), StepWorld(w, t, Own(Write)).c;
            && p.sku == w.c.sku && p.sku in w.s.rows
            && (w.s.rows[p.sku].version != p.version ==> next == Ends(w.c, Conflict))
            && (w.s.rows[p.sku].version == p.version ==> next == if w.c.kind.Reserving? then w.c else Ends(w.c, Done))
  {
    assert Remembers(w.s.rows, PhaseOf(w.s, t));
  }

  /** An attempt that read at step i and writes at step j conflicts exactly if somebody changed the item in between. */
  lemma ConflictMeansSomebodyWrote(
    trace: seq<World>, steps: seq<Step>, t: nat, kind: Kind, sku: string, qty: int, i: nat, j: nat)
    requires IsCall(trace, steps, t, kind, sku, qty) && i < j < |steps|
    requires steps[i] == Own(Read) && trace[i + 1].c == trace[i].c && OthersOnly(steps, i + 1, j) && steps[j] == Own(Write)
    ensures var c, next := trace[j].c, trace[j + 1].c;
            var was, now := Changes(trace[i].s.log, |trace[i].s.log|, sku), Changes(trace[j].s.log, |trace[j].s.log|, sku);
            && (now != was ==> next == Ends(c, Conflict))
            && (now == was ==> next == if kind.Reserving? then c else Ends(c, Done))
  {
    CallKeepsInv(trace, steps, t, kind, sku, qty, i);
    CallKeepsInv(trace, steps, t, kind, sku, qty, j);
    assert StepEnabled(trace[i], t, steps[i]) && StepEnabled(trace[j], t, steps[j]);
    ReadTellsTheTruth(trace[i], t);
    ReadRemembers(trace[i], t);
    OthersCount(trace, steps, t, kind, sku, qty, i + 1, j);
    WriteConflicts(trace[j], t);
  }

  lemma ReadRemembers(w: World, t: nat)
    requires MoveEnabled(w.s, w.c, t, Read) && StepWorld(w, t, Own(Read)).c == w.c
    ensures var w' := StepWorld(w, t, Own(Read));
            && w'.s.rows == w.s.rows && w'.s.log == w.s.log && w.c.sku in w.s.rows
            && !PhaseOf(w'.s, t).Idle? && PhaseOf(w'.s, t).version == w.s.rows[w.c.sku].version
  {
  }

  /** Left alone, a reservation of no more than what is left succeeds, and takes exactly that. */
  lemma UndisturbedReserveSucceeds(s: Sys, t: nat, sku: string, qty: int)
    requires Inv(s) && PhaseOf(s, t).Idle? && Unlocked(s, sku) && sku in s.rows && qty > 0
    requires s.rows[sku].item.reserved + qty <= s.rows[sku].item.onHand
    ensures var w1 := StepWorld(World(s, NewCall(Reserving, sku, qty)), t, Own(Read));
            var w2 := StepWorld(w1, t, Own(Write));
            var w3 := StepWorld(w2, t, Own(Finish));
            && MoveEnabled(s, NewCall(Reserving, sku, qty), t, Read)
            && MoveEnabled(w1.s, w1.c, t, Write) && MoveEnabled(w2.s, w2.c, t, Finish)
            && w3.c.status == Some(201) && w3.c.past == [Done]
            && w3.s.rows[sku].item == s.rows[sku].item.(reserved := s.rows[sku].item.reserved + qty)
            && w3.s.log == s.log + [Sold(sku, qty, t)]
  {
    var w1 := StepWorld(World(s, NewCall(Reserving, sku, qty)), t, Own(Read));
    assert forall u :: PhaseOf(w1.s, u).Written? ==> PhaseOf(s, u).Written? && PhaseOf(s, u) == PhaseOf(w1.s, u);
  }

  // ----- the retry loops -----

  /** The loop of reserve over the outcomes its attempts would have; returns the answer and how many attempts ran. */
  method Reserve(sku: string, qty: int, outcomes: seq<Outcome>) returns (status: int, used: nat)
    requires |outcomes| >= 8
    ensures qty <= 0 ==> status == 400 && used == 0
    ensures qty > 0 ==> 0 < used <= 8 && forall i :: 0 <= i < used - 1 ==> outcomes[i] in {Conflict, RateLimited}
    ensures qty > 0 ==>
              var last := outcomes[used - 1];
              && (last in {Conflict, RateLimited} ==> used == 8 && status == 503)
              && (last == Done ==> status == 201) && (last == NoSuchItem ==> status == 404) && (last == NotEnough ==> status == 409)
              && (last in {Lost, Failed} ==> status == 500)
    ensures used <= |outcomes| && GoodPast(Call(Reserving, sku, qty, outcomes[..used], Some(status)))
  {
    used := 0;
    if qty <= 0 {
      return 400, 0;
    }
    var last := Failed;
    while used < MaxAttempts(Reserving)
      invariant used <= MaxAttempts(Reserving)
      invariant forall i :: 0 <= i < used ==> Busy(Reserving, outcomes[i])
      invariant used > 0 ==> last == outcomes[used - 1]
    {
      last := outcomes[used];
      used := used + 1;
      if !last.Conflict? && !last.RateLimited? {
        break;
      }
    }
    status := match last
      case Conflict => 503
      case RateLimited => 503
      case NoSuchItem => 404
      case NotEnough => 409
      case Done => 201
      case _ => 500;
  }

  /** The loop of restock: only a conflict is tried again, and the third is final. */
  method Restock(sku: string, qty: int, outcomes: seq<Outcome>) returns (status: int, used: nat)
    requires |outcomes| >= 3
    ensures qty <= 0 ==> status == 400 && used == 0
    ensures qty > 0 ==> 0 < used <= 3 && forall i :: 0 <= i < used - 1 ==> outcomes[i] == Conflict
    ensures qty > 0 ==>
              var last := outcomes[used - 1];
              && (last == Conflict ==> used == 3 && status == 409)
              && (last == Done ==> status == 200) && (last == NoSuchItem ==> status == 404)
              && (last in {Lost, Failed, RateLimited, NotEnough} ==> status == 500)
    ensures used <= |outcomes| && GoodPast(Call(Restocking, sku, qty, outcomes[..used], Some(status)))
  {
    used := 0;
    if qty <= 0 {
      return 400, 0;
    }
    while true
      invariant used < MaxAttempts(Restocking)
      invariant forall i :: 0 <= i < used ==> outcomes[i].Conflict?
      decreases MaxAttempts(Restocking) - used
    {
      var o := outcomes[used];
      used := used + 1;
      match o
      case NoSuchItem => return 404, used;
      case Done => return 200, used;
      case Conflict =>
        if used == MaxAttempts(Restocking) {
          return 409, used;
        }
      case _ => return 500, used;
    }
  }

  /** The loop answers like the call: the attempts and the status of a finished call are determined by the outcomes. */
  lemma AnswerIsDetermined(a: Call, b: Call, outcomes: seq<Outcome>)
    requires GoodPast(a) && GoodPast(b) && a.status.Some? && b.status.Some?
    requires a.kind == b.kind && a.sku == b.sku && a.qty == b.qty
    requires a.past <= outcomes && b.past <= outcomes
    ensures a == b
  {
    if |a.past| < |b.past| {
      NoLonger(a, b, outcomes);
    }
    if |b.past| < |a.past| {
      NoLonger(b, a, outcomes);
    }
  }

  lemma NoLonger(a: Call, b: Call, outcomes: seq<Outcome>)
    requires GoodPast(a) && GoodPast(b) && a.status.Some? && a.kind == b.kind && a.sku == b.sku && a.qty == b.qty
    requires a.past <= outcomes && b.past <= outcomes
    ensures |b.past| <= |a.past|
  {
    assert forall i :: 0 <= i < |a.past| && i < |b.past| ==> a.past[i] == outcomes[i] == b.past[i];
  }

  /** The loop answers a finished call with the status it has, after as many attempts as it made. */
  lemma CallAnswersLikeTheLoop(
    trace: seq<World>, steps: seq<Step>, t: nat, kind: Kind, sku: string, qty: int, i: nat,
    outcomes: seq<Outcome>, status: int, used: nat)
    requires IsCall(trace, steps, t, kind, sku, qty) && i <= |steps| && trace[i].c.status.Some?
    requires trace[i].c.past <= outcomes && used <= |outcomes|
    requires GoodPast(Call(kind, sku, qty, outcomes[..used], Some(status)))
    ensures trace[i].c.status == Some(status) && |trace[i].c.past| == used
  {
    CallKeepsInv(trace, steps, t, kind, sku, qty, i);
    AnswerIsDetermined(trace[i].c, Call(kind, sku, qty, outcomes[..used], Some(status)), outcomes);
  }
}

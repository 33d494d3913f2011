/**
Open transactions per plugin (core/db/tx.go, `TxRegistry`).

Begin has two critical sections with an unlocked call to the database between them; Lookup, Commit,
Rollback, the reaper and Close each have one.  A run interleaves any number of them.  `begins` holds the
calls of Begin that have been admitted and have not finished, and `ended` records every time some party
took a transaction out of the registry and thereby became the one to commit or roll it back.
*/
module TxRegistry {

  import opened Common

  /** A transaction in the registry; `handle` is the database transaction itself. */
  datatype Tx = Tx(handle: nat, plugin: string, expiresAt: int)

  datatype Begin =
    | Admitted(plugin: string, timeout: int)              // counted, database not asked yet
    | Opened(plugin: string, timeout: int, handle: nat)   // database transaction open, not registered yet
    | Failing(plugin: string, timeout: int)               // database refused, count not given back yet

  datatype Reg = Reg(
    txs: map<string, Tx>,
    open: map<string, nat>,
    maxOpen: int,
    begins: map<nat, Begin>,
    handles: set<nat>,
    ended: multiset<nat>)

  datatype Action =
    | Admit(b: nat, plugin: string, timeout: int)
    | OpenTx(b: nat, handle: nat)
    | OpenFails(b: nat)
    | Release(b: nat)
    | Register(b: nat, id: string, now: int)
    | Lookup(plugin: string, id: string, now: int)
    | Take(plugin: string, id: string)
    | ReapExpired(now: int)
    | Close

  const DEFAULT_TIMEOUT := 30_000_000_000
  const MAX_TIMEOUT := 300_000_000_000
  const MAX_OPEN := 8

  function Timeout(t: int): int {
    if t <= 0 then DEFAULT_TIMEOUT else if t > MAX_TIMEOUT then MAX_TIMEOUT else t
  }

  function Limit(maxOpen: int): (l: nat)
    ensures l >= 1
  {
    if maxOpen > 0 then maxOpen else MAX_OPEN
  }

  /** Reading a Go map: an absent key counts zero. */
  function Count(open: map<string, nat>, p: string): nat {
    if p in open then open[p] else 0
  }

  /** The saturating decrement that release and dropLocked share. */
  function Decrement(open: map<string, nat>, p: string): map<string, nat> {
    if Count(open, p) == 0 then open
    else if Count(open, p) == 1 then open - {p}
    else open[p := open[p] - 1]
  }

  // ----- counting sets -----

  function Owned(txs: map<string, Tx>, p: string): set<string> {
    set id | id in txs && txs[id].plugin == p
  }

  function Beginning(begins: map<nat, Begin>, p: string): set<nat> {
    set b | b in begins && begins[b].plugin == p
  }

  /** The counters once all of `ids` have been dropped, one decrement each. */
  function OpenWithout(open: map<string, nat>, txs: map<string, Tx>, ids: set<string>): map<string, nat> {
    map p | p in open && open[p] > |Owned(txs, p) * ids| :: open[p] - |Owned(txs, p) * ids|
  }

  function ExpiredIds(txs: map<string, Tx>, now: int): set<string> {
    set id | id in txs && now > txs[id].expiresAt
  }

  function Handles(txs: map<string, Tx>, ids: set<string>): set<nat> {
    set id | id in ids && id in txs :: txs[id].handle
  }

  // ----- the critical sections -----

  predicate Enabled(r: Reg, a: Action) {
    match a
    case Admit(b, _, _) => b !in r.begins
    case OpenTx(b, h) => b in r.begins && r.begins[b].Admitted? && h !in r.handles
    case OpenFails(b) => b in r.begins && r.begins[b].Admitted?
    case Release(b) => b in r.begins && r.begins[b].Failing?
    case Register(b, id, _) => b in r.begins && r.begins[b].Opened? && id !in r.txs
    case _ => true
  }

  function Drop(r: Reg, id: string): Reg
    requires id in r.txs
  {
    r.(txs := r.txs - {id}, open := Decrement(r.open, r.txs[id].plugin), ended := r.ended + multiset{r.txs[id].handle})
  }

  function DropAll(r: Reg, ids: set<string>): Reg {
    r.(txs := r.txs - ids, open := OpenWithout(r.open, r.txs, ids), ended := r.ended + multiset(Handles(r.txs, ids)))
  }

  predicate Holds(txs: map<string, Tx>, plugin: string, id: string) {
    id in txs && txs[id].plugin == plugin
  }

  predicate IsBegin(a: Action) {
    a.Admit? || a.OpenTx? || a.OpenFails? || a.Release? || a.Register?
  }

  /** The critical sections of a begin, and what happens between them. */
  function BeginStep(r: Reg, a: Action): Reg
    requires Enabled(r, a) && IsBegin(a)
  {
    match a
    case Admit(b, p, timeout) =>
      if Count(r.open, p) >= Limit(r.maxOpen) then r
      else r.(open := r.open[p := Count(r.open, p) + 1], begins := r.begins[b := Admitted(p, Timeout(timeout))])
    case OpenTx(b, h) =>
      var g := r.begins[b];
      r.(begins := r.begins[b := Opened(g.plugin, g.timeout, h)], handles := r.handles + {h})
    case OpenFails(b) => r.(begins := r.begins[b := Failing(r.begins[b].plugin, r.begins[b].timeout)])
    case Release(b) => r.(open := Decrement(r.open, r.begins[b].plugin), begins := r.begins - {b})
    case Register(b, id, now) =>
      var g := r.begins[b];
      r.(txs := r.txs[id := Tx(g.handle, g.plugin, now + g.timeout)], begins := r.begins - {b})
  }

  function Apply(r: Reg, a: Action): Reg
    requires Enabled(r, a)
  {
    match a
    case Lookup(p, id, now) => if Holds(r.txs, p, id) && now > r.txs[id].expiresAt then Drop(r, id) else r
    case Take(p, id) => if Holds(r.txs, p, id) then Drop(r, id) else r
    case ReapExpired(now) => DropAll(r, ExpiredIds(r.txs, now))
    case Close => DropAll(r, r.txs.Keys)
    case _ => BeginStep(r, a)
  }

  function Fresh(maxOpen: int): Reg {
    Reg(map[], map[], maxOpen, map[], {}, multiset{})
  }

  ghost predicate IsRun(trace: seq<Reg>, acts: seq<Action>) {
    && |trace| == |acts| + 1
    && trace[0] == Fresh(trace[0].maxOpen)
    && forall i :: 0 <= i < |acts| ==> Enabled(trace[i], acts[i]) && trace[i + 1] == Apply(trace[i], acts[i])
  }

  // ----- what every interleaving keeps -----

  /** The counter of a plugin is its registered transactions plus its admitted Begins still in flight. */
  ghost predicate CountedFor(r: Reg, p: string) {
    && Count(r.open, p) == |Owned(r.txs, p)| + |Beginning(r.begins, p)|
    && (p in r.open ==> r.open[p] > 0)
  }

  ghost predicate Counted(r: Reg) {
    forall p :: CountedFor(r, p)
  }

  ghost predicate WithinLimit(r: Reg) {
    forall p :: Count(r.open, p) <= Limit(r.maxOpen)
  }

  /** Every database transaction is in exactly one place: being registered, registered, or ended once. */
  ghost predicate OnePlace(r: Reg) {
    && (forall id :: id in r.txs ==> r.txs[id].handle in r.handles && r.ended[r.txs[id].handle] == 0)
    && (forall b :: b in r.begins && r.begins[b].Opened? ==> r.begins[b].handle in r.handles && r.ended[r.begins[b].handle] == 0)
    && (forall i, j :: i in r.txs && j in r.txs && i != j ==> r.txs[i].handle != r.txs[j].handle)
    && (forall b, c :: b in r.begins && c in r.begins && b != c && r.begins[b].Opened? && r.begins[c].Opened? ==>
          r.begins[b].handle != r.begins[c].handle)
    && (forall b, i :: b in r.begins && r.begins[b].Opened? && i in r.txs ==> r.begins[b].handle != r.txs[i].handle)
    && (forall h :: r.ended[h] > 0 ==> h in r.handles)
    && (forall h :: r.ended[h] <= 1)
  }

  ghost predicate Inv(r: Reg) {
    Counted(r) && WithinLimit(r) && OnePlace(r)
  }

  lemma OwnedDrop(txs: map<string, Tx>, ids: set<string>, p: string)
    ensures Owned(txs - ids, p) == Owned(txs, p) - ids
    ensures |Owned(txs - ids, p)| + |Owned(txs, p) * ids| == |Owned(txs, p)|
  {
    var all := Owned(txs, p);
    assert Owned(txs - ids, p) == all - ids;
    assert all == (all - ids) + (all * ids);
  }

  lemma OwnedAdd(txs: map<string, Tx>, id: string, t: Tx, p: string)
    requires id !in txs
    ensures |Owned(txs[id := t], p)| == |Owned(txs, p)| + if p == t.plugin then 1 else 0
  {
    if p == t.plugin {
      assert Owned(txs[id := t], p) == Owned(txs, p) + {id};
    } else {
      assert Owned(txs[id := t], p) == Owned(txs, p);
    }
  }

  lemma BeginningAdd(begins: map<nat, Begin>, b: nat, g: Begin, p: string)
    requires b !in begins
    ensures |Beginning(begins[b := g], p)| == |Beginning(begins, p)| + if p == g.plugin then 1 else 0
  {
    if p == g.plugin {
      assert Beginning(begins[b := g], p) == Beginning(begins, p) + {b};
    } else {
      assert Beginning(begins[b := g], p) == Beginning(begins, p);
    }
  }

  lemma BeginningRemove(begins: map<nat, Begin>, b: nat, p: string)
    requires b in begins
    ensures |Beginning(begins - {b}, p)| + (if p == begins[b].plugin then 1 else 0) == |Beginning(begins, p)|
  {
    assert b in Beginning(begins, begins[b].plugin);
    assert Beginning(begins - {b}, p) == Beginning(begins, p) - {b};
  }

  lemma BeginningMove(begins: map<nat, Begin>, b: nat, g: Begin, p: string)
    requires b in begins && g.plugin == begins[b].plugin
    ensures Beginning(begins[b := g], p) == Beginning(begins, p)
  {
  }

  lemma OwnedRemove(txs: map<string, Tx>, id: string, p: string)
    requires id in txs
    ensures |Owned(txs - {id}, p)| + (if p == txs[id].plugin then 1 else 0) == |Owned(txs, p)|
  {
    assert id in Owned(txs, txs[id].plugin);
    assert Owned(txs - {id}, p) == Owned(txs, p) - {id};
  }

  lemma DropAllCounts(r: Reg, ids: set<string>, p: string)
    requires CountedFor(r, p)
    ensures CountedFor(DropAll(r, ids), p)
  {
    OwnedDrop(r.txs, ids, p);
  }

  lemma DropKeepsCounted(r: Reg, id: string, p: string)
    requires CountedFor(r, p) && id in r.txs
    ensures CountedFor(Drop(r, id), p)
  {
    OwnedRemove(r.txs, id, p);
  }

  lemma BeginKeepsCounted(r: Reg, a: Action, p: string)
    requires CountedFor(r, p) && Enabled(r, a) && IsBegin(a)
    ensures CountedFor(BeginStep(r, a), p)
  {
    match a {
      case Admit(b, q, timeout) => BeginningAdd(r.begins, b, Admitted(q, Timeout(timeout)), p);
      case OpenTx(b, h) => BeginningMove(r.begins, b, Opened(r.begins[b].plugin, r.begins[b].timeout, h), p);
      case OpenFails(b) => BeginningMove(r.begins, b, Failing(r.begins[b].plugin, r.begins[b].timeout), p);
      case Release(b) => BeginningRemove(r.begins, b, p);
      case Register(b, id, now) =>
        BeginningRemove(r.begins, b, p);
        OwnedAdd(r.txs, id, BeginStep(r, a).txs[id], p);
    }
  }

  lemma StepKeepsCounted(r: Reg, a: Action, p: string)
    requires Counted(r) && Enabled(r, a)
    ensures CountedFor(Apply(r, a), p)
  {
    assert CountedFor(r, p);
    match a {
      case Lookup(q, id, now) => if Holds(r.txs, q, id) { DropKeepsCounted(r, id, p); }
      case Take(q, id) => if Holds(r.txs, q, id) { DropKeepsCounted(r, id, p); }
      case ReapExpired(now) => DropAllCounts(r, ExpiredIds(r.txs, now), p);
      case Close => DropAllCounts(r, r.txs.Keys, p);
      case _ => BeginKeepsCounted(r, a, p);
    }
  }

  lemma StepKeepsLimit(r: Reg, a: Action)
    requires WithinLimit(r) && Enabled(r, a)
    ensures WithinLimit(Apply(r, a)) && Apply(r, a).maxOpen == r.maxOpen
  {
    var r' := Apply(r, a);
    forall p
      ensures Count(r'.open, p) <= Limit(r'.maxOpen)
    {
      assert Count(r'.open, p) <= Count(r.open, p) || Count(r'.open, p) <= Limit(r.maxOpen);
    }
  }

  lemma DropAllKeepsPlaces(r: Reg, ids: set<string>)
    requires OnePlace(r) && ids <= r.txs.Keys
    ensures OnePlace(DropAll(r, ids))
  {
    var r', dropped := DropAll(r, ids), Handles(r.txs, ids);
    forall h
      ensures r'.ended[h] == r.ended[h] + if h in dropped then 1 else 0
      ensures h in dropped ==> h in r.handles && r.ended[h] == 0
    {
    }
    assert forall id :: id in r'.txs ==> r.txs[id].handle !in dropped;
    assert forall b :: b in r.begins && r.begins[b].Opened? ==> r.begins[b].handle !in dropped;
  }

  lemma DropIsDropAll(r: Reg, id: string)
    requires id in r.txs
    ensures DropAll(r, {id}).(open := Drop(r, id).open) == Drop(r, id)
  {
    assert Handles(r.txs, {id}) == {r.txs[id].handle};
  }

  lemma DropKeepsPlaces(r: Reg, id: string)
    requires OnePlace(r) && id in r.txs
    ensures OnePlace(Drop(r, id))
  {
    DropAllKeepsPlaces(r, {id});
    DropIsDropAll(r, id);
  }

  lemma BeginKeepsPlaces(r: Reg, a: Action)
    requires OnePlace(r) && Enabled(r, a) && IsBegin(a)
    ensures OnePlace(BeginStep(r, a))
  {
  }

  lemma StepKeepsPlaces(r: Reg, a: Action)
    requires OnePlace(r) && Enabled(r, a)
    ensures OnePlace(Apply(r, a))
  {
    match a {
      case Lookup(p, id, now) => if Holds(r.txs, p, id) { DropKeepsPlaces(r, id); }
      case Take(p, id) => if Holds(r.txs, p, id) { DropKeepsPlaces(r, id); }
      case ReapExpired(now) => DropAllKeepsPlaces(r, ExpiredIds(r.txs, now));
      case Close => DropAllKeepsPlaces(r, r.txs.Keys);
      case _ => BeginKeepsPlaces(r, a);
    }
  }

  lemma FreshIsGood(maxOpen: int)
    ensures Inv(Fresh(maxOpen))
  {
    var r := Fresh(maxOpen);
    forall p
      ensures CountedFor(r, p)
    {
      assert Owned(r.txs, p) == {} && Beginning(r.begins, p) == {};
    }
  }

  lemma StepKeepsInv(r: Reg, a: Action)
    requires Inv(r) && Enabled(r, a)
    ensures Inv(Apply(r, a))
  {
    forall p
      ensures CountedFor(Apply(r, a), p)
    {
      StepKeepsCounted(r, a, p);
    }
    StepKeepsLimit(r, a);
    StepKeepsPlaces(r, a);
  }

  lemma {:induction false} RunKeepsInv(trace: seq<Reg>, acts: seq<Action>, i: nat)
    requires IsRun(trace, acts) && i <= |acts|
    ensures Inv(trace[i])
  {
    if i == 0 {
      FreshIsGood(trace[0].maxOpen);
    } else {
      RunKeepsInv(trace, acts, i - 1);
      StepKeepsInv(trace[i - 1], acts[i - 1]);
    }
  }

  /** In every interleaving the counter is exact and the ceiling is never exceeded. */
  lemma CounterIsExactAndBounded(trace: seq<Reg>, acts: seq<Action>, i: nat, p: string)
    requires IsRun(trace, acts) && i <= |acts|
    ensures Count(trace[i].open, p) == |Owned(trace[i].txs, p)| + |Beginning(trace[i].begins, p)|
    ensures |Owned(trace[i].txs, p)| + |Beginning(trace[i].begins, p)| <= if trace[0].maxOpen > 0 then trace[0].maxOpen else 8
  {
    RunKeepsInv(trace, acts, i);
    SameCeiling(trace, acts, i);
    assert CountedFor(trace[i], p);
  }

  lemma {:induction false} SameCeiling(trace: seq<Reg>, acts: seq<Action>, i: nat)
    requires IsRun(trace, acts) && i <= |acts|
    ensures trace[i].maxOpen == trace[0].maxOpen
  {
    if i > 0 {
      SameCeiling(trace, acts, i - 1);
    }
  }

  /** The guarded decrements never meet a zero: whatever is released or dropped was counted. */
  lemma DecrementsNeverSaturate(trace: seq<Reg>, acts: seq<Action>, i: nat)
    requires IsRun(trace, acts) && i <= |acts|
    ensures forall b :: b in trace[i].begins ==> Count(trace[i].open, trace[i].begins[b].plugin) > 0
    ensures forall id :: id in trace[i].txs ==> Count(trace[i].open, trace[i].txs[id].plugin) > 0
  {
    RunKeepsInv(trace, acts, i);
    var r := trace[i];
    forall b | b in r.begins
      ensures Count(r.open, r.begins[b].plugin) > 0
    {
      assert CountedFor(r, r.begins[b].plugin) && b in Beginning(r.begins, r.begins[b].plugin);
    }
    forall id | id in r.txs
      ensures Count(r.open, r.txs[id].plugin) > 0
    {
      assert CountedFor(r, r.txs[id].plugin) && id in Owned(r.txs, r.txs[id].plugin);
    }
  }

  /**
  Each transaction is ended by at most one party, and while it is registered by none: Commit, Rollback,
  an expired Lookup, the reaper and Close never both get hold of the same one.
  */
  lemma EndedAtMostOnce(trace: seq<Reg>, acts: seq<Action>, i: nat, h: nat)
    requires IsRun(trace, acts) && i <= |acts|
    ensures trace[i].ended[h] <= 1
    ensures forall id :: id in trace[i].txs && trace[i].txs[id].handle == h ==> trace[i].ended[h] == 0
  {
    RunKeepsInv(trace, acts, i);
  }

  /** A transaction id in the hands of another plugin is worth nothing. */
  lemma ForeignIdIsUseless(r: Reg, plugin: string, id: string, now: int)
    requires id in r.txs && r.txs[id].plugin != plugin
    ensures Apply(r, Lookup(plugin, id, now)) == r && Apply(r, Take(plugin, id)) == r
  {
  }

  // ----- the life of one transaction -----

  /**
  A begin is refused exactly when the plugin has as many transactions open or being opened as the ceiling allows, eight
  unless another ceiling is set; otherwise it is counted, with the timeout asked for, which is thirty seconds if none is
  given and never more than five minutes.
  */
  lemma AdmitMeans(trace: seq<Reg>, acts: seq<Action>, i: nat, b: nat, p: string, timeout: int)
    requires IsRun(trace, acts) && i < |acts| && acts[i] == Admit(b, p, timeout)
    ensures var n := |Owned(trace[i].txs, p)| + |Beginning(trace[i].begins, p)|;
            var cap := if trace[0].maxOpen > 0 then trace[0].maxOpen else 8;
            var wait := if timeout <= 0 then 30_000_000_000 else if timeout > 300_000_000_000 then 300_000_000_000 else timeout;
            && b !in trace[i].begins
            && (n >= cap ==> trace[i + 1] == trace[i])
            && (n < cap ==> trace[i + 1].begins == trace[i].begins[b := Admitted(p, wait)])
  {
    CounterIsExactAndBounded(trace, acts, i, p);
    SameCeiling(trace, acts, i);
  }

  /** The begin b is over: its transaction is registered, or its slot was given back. */
  predicate Finishes(a: Action, b: nat) {
    (a.Register? || a.Release?) && a.b == b
  }

  lemma {:induction false} BeginKeepsItsTimeout(trace: seq<Reg>, acts: seq<Action>, i: nat, j: nat, b: nat)
    requires IsRun(trace, acts) && i <= j <= |acts| && b in trace[i].begins
    requires forall m :: i <= m < j ==> !Finishes(acts[m], b)
    ensures b in trace[j].begins && trace[j].begins[b].plugin == trace[i].begins[b].plugin
    ensures trace[j].begins[b].timeout == trace[i].begins[b].timeout
  {
    if i < j {
      BeginKeepsItsTimeout(trace, acts, i, j - 1, b);
      assert !Finishes(acts[j - 1], b);
      BeginStays(trace[j - 1], acts[j - 1], b);
    }
  }

  lemma BeginStays(r: Reg, a: Action, b: nat)
    requires Enabled(r, a) && b in r.begins && !Finishes(a, b)
    ensures b in Apply(r, a).begins && Apply(r, a).begins[b].plugin == r.begins[b].plugin
    ensures Apply(r, a).begins[b].timeout == r.begins[b].timeout
  {
  }

  /** This step ends the transaction: its owner takes it, or looks it up too late, or the reaper is past it, or all close. */
  predicate Ends(a: Action, plugin: string, id: string, deadline: int) {
    match a
    case Take(p, k) => p == plugin && k == id
    case Lookup(p, k, now) => p == plugin && k == id && now > deadline
    case ReapExpired(now) => now > deadline
    case Close => true
    case _ => false
  }

  lemma StaysUnlessEnded(r: Reg, a: Action, id: string)
    requires Enabled(r, a) && id in r.txs
    ensures id in Apply(r, a).txs <==> !Ends(a, r.txs[id].plugin, id, r.txs[id].expiresAt)
    ensures id in Apply(r, a).txs ==> Apply(r, a).txs[id] == r.txs[id]
  {
  }

  lemma OneStepOfLife(r: Reg, a: Action, t: Tx, id: string)
    requires Enabled(r, a) && (a.Register? ==> a.id != id) && (id in r.txs ==> r.txs[id] == t)
    ensures id in Apply(r, a).txs <==> id in r.txs && !Ends(a, t.plugin, id, t.expiresAt)
    ensures id in Apply(r, a).txs ==> Apply(r, a).txs[id] == t
  {
    if id in r.txs {
      StaysUnlessEnded(r, a, id);
    }
  }

  /** From step j, where id was registered, to step k: nobody ended it. */
  ghost predicate NotEnded(acts: seq<Action>, j: nat, k: nat, t: Tx, id: string)
    requires k <= |acts|
  {
    forall m :: j < m < k ==> !Ends(acts[m], t.plugin, id, t.expiresAt)
  }

  lemma NotEndedStep(acts: seq<Action>, j: nat, k: nat, t: Tx, id: string)
    requires j + 1 < k <= |acts|
    ensures NotEnded(acts, j, k, t, id) <==> NotEnded(acts, j, k - 1, t, id) && !Ends(acts[k - 1], t.plugin, id, t.expiresAt)
  {
  }

  ghost predicate IdNotReused(acts: seq<Action>, j: nat, k: nat, id: string)
    requires k <= |acts|
  {
    forall m :: j < m < k && acts[m].Register? ==> acts[m].id != id
  }

  lemma {:induction false} LivesUntilEnded(trace: seq<Reg>, acts: seq<Action>, j: nat, k: nat, id: string)
    requires IsRun(trace, acts) && j < k <= |acts| && id in trace[j + 1].txs && IdNotReused(acts, j, k, id)
    ensures id in trace[k].txs <==> NotEnded(acts, j, k, trace[j + 1].txs[id], id)
    ensures id in trace[k].txs ==> trace[k].txs[id] == trace[j + 1].txs[id]
    decreases k
  {
    if k > j + 1 {
      LivesUntilEnded(trace, acts, j, k - 1, id);
      assert acts[k - 1].Register? ==> acts[k - 1].id != id;
      OneStepOfLife(trace[k - 1], acts[k - 1], trace[j + 1].txs[id], id);
      NotEndedStep(acts, j, k, trace[j + 1].txs[id], id);
    }
  }

  /**
  The life of a transaction, from its admission at step i over its registration at step j to any later step k: it belongs
  to the plugin that began it, its deadline is the timeout it asked for after the clock of its registration, and it is
  there until the owner commits or rolls it back, looks it up after the deadline, or the reaper comes by after the
  deadline, or everything is closed.
  */
  lemma TransactionLivesAsAsked(trace: seq<Reg>, acts: seq<Action>, i: nat, j: nat, k: nat, b: nat, p: string, timeout: int,
                                id: string, now: int)
    requires IsRun(trace, acts) && i < j < k <= |acts|
    requires acts[i] == Admit(b, p, timeout) && acts[j] == Register(b, id, now)
    requires b in trace[i + 1].begins && (forall m :: i < m < j ==> !Finishes(acts[m], b)) && IdNotReused(acts, j, k, id)
    ensures var wait := if timeout <= 0 then 30_000_000_000 else if timeout > 300_000_000_000 then 300_000_000_000 else timeout;
            var t := Tx(trace[j].begins[b].handle, p, now + wait);
            && trace[j + 1].txs[id] == t
            && (id in trace[k].txs <==> NotEnded(acts, j, k, t, id))
            && (id in trace[k].txs ==> trace[k].txs[id] == t)
  {
    AdmitMeans(trace, acts, i, b, p, timeout);
    assert Enabled(trace[i], acts[i]);
    BeginKeepsItsTimeout(trace, acts, i + 1, j, b);
    LivesUntilEnded(trace, acts, j, k, id);
  }

  // ----- the registry as an object -----

  lemma OneMoreOwned(txs: map<string, Tx>, ids: set<string>, id: string, p: string)
    requires id in txs && id !in ids
    ensures |Owned(txs, p) * (ids + {id})| == |Owned(txs, p) * ids| + if p == txs[id].plugin then 1 else 0
  {
    if p == txs[id].plugin {
      assert Owned(txs, p) * (ids + {id}) == Owned(txs, p) * ids + {id};
    } else {
      assert Owned(txs, p) * (ids + {id}) == Owned(txs, p) * ids;
    }
  }

  /** Dropping one more id is one more decrement. */
  lemma OneMoreDrop(open: map<string, nat>, txs: map<string, Tx>, ids: set<string>, id: string)
    requires id in txs && id !in ids
    requires forall p :: p in open ==> open[p] > 0
    ensures OpenWithout(open, txs, ids + {id}) == Decrement(OpenWithout(open, txs, ids), txs[id].plugin)
  {
    var before, after := OpenWithout(open, txs, ids), OpenWithout(open, txs, ids + {id});
    var want := Decrement(before, txs[id].plugin);
    forall p
      ensures p in after <==> p in want
      ensures p in after ==> after[p] == want[p]
    {
      OneMoreOwned(txs, ids, id, p);
    }
  }

  lemma NothingDropped(open: map<string, nat>, txs: map<string, Tx>)
    requires forall p :: p in open ==> open[p] > 0
    ensures OpenWithout(open, txs, {}) == open
  {
    forall p
      ensures |Owned(txs, p) * {}| == 0
    {
      assert Owned(txs, p) * {} == {};
    }
  }

  /** What the dropping loop relies on; every reachable registry has it. */
  ghost predicate Tidy(open: map<string, nat>, txs: map<string, Tx>) {
    (forall p :: p in open ==> open[p] > 0) && DistinctHandles(txs)
  }

  ghost predicate DistinctHandles(txs: map<string, Tx>) {
    forall i, j :: i in txs && j in txs && i != j ==> txs[i].handle != txs[j].handle
  }

  lemma ReachableIsTidy(r: Reg)
    requires Inv(r)
    ensures Tidy(r.open, r.txs)
  {
    assert forall p :: p in r.open ==> CountedFor(r, p);
  }

  lemma OneMoreHandle(open: map<string, nat>, txs: map<string, Tx>, ids: set<string>, id: string)
    requires Tidy(open, txs) && ids <= txs.Keys && id in txs && id !in ids
    ensures multiset(Handles(txs, ids + {id})) == multiset(Handles(txs, ids)) + multiset{txs[id].handle}
  {
    var h := txs[id].handle;
    assert Handles(txs, ids + {id}) == Handles(txs, ids) + {h};
    assert h !in Handles(txs, ids);
  }

  lemma RemoveOneMore(txs: map<string, Tx>, ids: set<string>, id: string)
    requires id in txs && id !in ids
    ensures txs - (ids + {id}) == txs - ids - {id}
    ensures id in txs - ids && (txs - ids)[id] == txs[id]
  {
  }

  lemma AddOneMore(a: multiset<nat>, b: multiset<nat>, c: multiset<nat>)
    ensures a + (b + c) == a + b + c
  {
  }

  /** One more id in a reap or a close. */
  lemma DropAllStep(r: Reg, ids: set<string>, id: string)
    requires Tidy(r.open, r.txs) && ids <= r.txs.Keys && id in r.txs && id !in ids
    ensures Drop(DropAll(r, ids), id) == DropAll(r, ids + {id})
  {
    OneMoreDrop(r.open, r.txs, ids, id);
    OneMoreHandle(r.open, r.txs, ids, id);
    RemoveOneMore(r.txs, ids, id);
    AddOneMore(r.ended, multiset(Handles(r.txs, ids)), multiset{r.txs[id].handle});
  }

  lemma DropNone(r: Reg)
    requires Tidy(r.open, r.txs)
    ensures DropAll(r, {}) == r
  {
    NothingDropped(r.open, r.txs);
    assert Handles(r.txs, {}) == {};
    assert r.txs - {} == r.txs;
  }

  lemma GoalStep(goal: set<string>, todo: set<string>, id: string)
    requires id in todo
    ensures id in goal ==> goal - (todo - {id}) == goal - todo + {id}
    ensures id !in goal ==> goal - (todo - {id}) == goal - todo
  {
  }

  function DueIds(txs: map<string, Tx>, all: bool, now: int): set<string> {
    set id | id in txs && (all || now > txs[id].expiresAt)
  }

  /** A sweep over the registry r, with `todo` still to look at and `dropped` gone. */
  ghost predicate Sweeping(v: Reg, r: Reg, all: bool, now: int, todo: set<string>, dropped: set<string>) {
    Tidy(r.open, r.txs) && todo <= r.txs.Keys && dropped == DueIds(r.txs, all, now) - todo && v == DropAll(r, dropped)
  }

  lemma SweepBegins(r: Reg, all: bool, now: int)
    requires Tidy(r.open, r.txs)
    ensures Sweeping(r, r, all, now, r.txs.Keys, {})
  {
    assert DueIds(r.txs, all, now) - r.txs.Keys == {};
    DropNone(r);
  }

  lemma SweepEnds(v: Reg, r: Reg, all: bool, now: int, dropped: set<string>)
    requires Sweeping(v, r, all, now, {}, dropped)
    ensures dropped == DueIds(r.txs, all, now) && v == DropAll(r, DueIds(r.txs, all, now))
  {
    assert DueIds(r.txs, all, now) - {} == DueIds(r.txs, all, now);
  }

  /** What is due is what has expired, or everything. */
  lemma DueIdsAre(txs: map<string, Tx>, now: int)
    ensures DueIds(txs, false, now) == ExpiredIds(txs, now)
    ensures DueIds(txs, true, now) == txs.Keys
    ensures txs - txs.Keys == map[]
  {
  }

  class Registry {
    var txs: map<string, Tx>
    var open: map<string, nat>
    var maxOpen: int
    ghost var begins: map<nat, Begin>
    ghost var handles: set<nat>
    ghost var ended: multiset<nat>

    ghost function View(): Reg
      reads this
    {
      Reg(txs, open, maxOpen, begins, handles, ended)
    }

    ghost predicate Valid()
      reads this
    {
      Inv(View())
    }

    constructor (maxOpen: int)
      ensures Valid() && View() == Fresh(maxOpen)
    {
      FreshIsGood(maxOpen);
      txs, open := map[], map[];
      this.maxOpen := maxOpen;
      begins, handles, ended := map[], {}, multiset{};
    }

    /** First critical section of Begin: false is ErrTooManyTx. */
    method AdmitBegin(ghost b: nat, plugin: string, ghost timeout: int) returns (ok: bool)
      requires Valid() && Enabled(View(), Admit(b, plugin, timeout))
      modifies this
      ensures Valid() && View() == Apply(old(View()), Admit(b, plugin, timeout))
      ensures ok <==> Count(old(open), plugin) < if maxOpen > 0 then maxOpen else 8
    {
      StepKeepsInv(View(), Admit(b, plugin, timeout));
      var n := if plugin in open then open[plugin] else 0;
      if n >= Limit(maxOpen) {
        return false;
      }
      open := open[plugin := n + 1];
      begins := begins[b := Admitted(plugin, Timeout(timeout))];
      return true;
    }

    /** The release closure of Begin, when the database refused. */
    method ReleaseBegin(ghost b: nat, plugin: string)
      requires Valid() && Enabled(View(), Release(b)) && begins[b].plugin == plugin
      modifies this
      ensures Valid() && View() == Apply(old(View()), Release(b))
    {
      StepKeepsInv(View(), Release(b));
      if plugin in open && open[plugin] > 0 {
        open := open[plugin := open[plugin] - 1];
        if open[plugin] == 0 {
          open := open - {plugin};
        }
      }
      begins := begins - {b};
      assert open == Decrement(old(open), plugin);
    }

    /** Second critical section of Begin. */
    method RegisterBegin(ghost b: nat, plugin: string, timeout: int, handle: nat, id: string, now: int)
      requires Valid() && Enabled(View(), Register(b, id, now)) && begins[b] == Opened(plugin, timeout, handle)
      modifies this
      ensures Valid() && View() == Apply(old(View()), Register(b, id, now))
    {
      StepKeepsInv(View(), Register(b, id, now));
      txs := txs[id := Tx(handle, plugin, now + timeout)];
      begins := begins - {b};
    }

    method DropLocked(id: string, t: Tx)
      requires id in txs && txs[id] == t
      modifies this`txs, this`open, this`ended
      ensures View() == Drop(old(View()), id)
    {
      txs := txs - {id};
      if t.plugin in open && open[t.plugin] > 0 {
        open := open[t.plugin := open[t.plugin] - 1];
        if open[t.plugin] == 0 {
          open := open - {t.plugin};
        }
      }
      ended := ended + multiset{t.handle};
      assert open == Decrement(old(open), t.plugin);
    }

    /** The live transaction, or None for ErrUnknownTx. */
    method LookupTx(plugin: string, id: string, now: int) returns (r: Option<nat>)
      requires Valid()
      modifies this`txs, this`open, this`ended
      ensures Valid() && View() == Apply(old(View()), Lookup(plugin, id, now))
      ensures r.Some? <==> Holds(old(txs), plugin, id) && now <= old(txs)[id].expiresAt
      ensures r.Some? ==> r.value == old(txs)[id].handle && View() == old(View())
      ensures r.None? ==> !Holds(txs, plugin, id)
    {
      StepKeepsInv(View(), Lookup(plugin, id, now));
      if id !in txs || txs[id].plugin != plugin {
        return None;
      }
      var t := txs[id];
      if now > t.expiresAt {
        DropLocked(id, t);
        return None;
      }
      return Some(t.handle);
    }

    /** The critical section of Commit and Rollback: whoever gets the handle ends the transaction. */
    method TakeTx(plugin: string, id: string) returns (r: Option<nat>)
      requires Valid()
      modifies this`txs, this`open, this`ended
      ensures Valid() && View() == Apply(old(View()), Take(plugin, id))
      ensures r.Some? <==> Holds(old(txs), plugin, id)
      ensures r.Some? ==> r.value == old(txs)[id].handle && ended == old(ended) + multiset{r.value}
    {
      StepKeepsInv(View(), Take(plugin, id));
      if id !in txs || txs[id].plugin != plugin {
        return None;
      }
      var t := txs[id];
      DropLocked(id, t);
      return Some(t.handle);
    }

    /** The body of the loop that ReapExpired and Close share: one of the transactions still to look at. */
    method DropNext(all: bool, now: int, ghost r: Reg, todo: set<string>, dropped: set<string>)
      returns (left: set<string>, more: set<string>)
      requires todo != {} && Sweeping(View(), r, all, now, todo, dropped)
      modifies this`txs, this`open, this`ended
      ensures Sweeping(View(), r, all, now, left, more) && left < todo
    {
      var id :| id in todo;
      left, more := todo - {id}, dropped;
      GoalStep(DueIds(r.txs, all, now), todo, id);
      var t := txs[id];
      if all || now > t.expiresAt {
        DropAllStep(r, dropped, id);
        DropLocked(id, t);
        more := dropped + {id};
      }
    }

    /** Drop every transaction, or only the expired ones; returns the ids that were dropped. */
    method DropWhere(all: bool, now: int) returns (dropped: set<string>)
      requires Valid()
      modifies this`txs, this`open, this`ended
      ensures View() == DropAll(old(View()), DueIds(old(txs), all, now))
      ensures dropped == DueIds(old(txs), all, now)
    {
      ghost var r := View();
      ReachableIsTidy(r);
      dropped := {};
      var todo := txs.Keys;
      SweepBegins(r, all, now);
      while todo != {}
        invariant Sweeping(View(), r, all, now, todo, dropped)
        decreases todo
      {
        todo, dropped := DropNext(all, now, r, todo, dropped);
      }
      SweepEnds(View(), r, all, now, dropped);
    }

    /** Rolls back every transaction past its deadline and says which. */
    method ReapExpired(now: int) returns (reaped: set<string>)
      requires Valid()
      modifies this`txs, this`open, this`ended
      ensures Valid() && View() == Apply(old(View()), Action.ReapExpired(now))
      ensures reaped == ExpiredIds(old(txs), now)
    {
      StepKeepsInv(View(), Action.ReapExpired(now));
      reaped := DropWhere(false, now);
      DueIdsAre(old(txs), now);
    }

    /** Close rolls back everything registered at that moment. */
    method Close()
      requires Valid()
      modifies this`txs, this`open, this`ended
      ensures Valid() && View() == Apply(old(View()), Action.Close) && txs == map[]
    {
      StepKeepsInv(View(), Action.Close);
      var _ := DropWhere(true, 0);
      DueIdsAre(old(txs), 0);
    }
  }
}

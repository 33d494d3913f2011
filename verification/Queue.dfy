/**
The durable queue (core/db/queue.go) over its table (core/db/migrations/000007_create_plugin_queue.up.sql).

Every method of the Go type is one SQL statement, so every operation here is one atomic transition of
the table.  Times are in nanoseconds.  Each operation carries the clock it read, and since a clock is
read before its statement runs, a run may execute statements out of the order of their clocks.
*/
module Queue {

  import opened Common

  datatype Status = Pending | Processing | Done | Dead

  datatype Msg = Msg(
    owner: string,
    topic: string,
    payload: string,
    priority: int,
    status: Status,
    attempts: int,
    maxAttempts: int,
    availableAt: int,
    lockedUntil: Option<int>,
    dedup: Option<string>,
    lastError: Option<string>,
    updatedAt: int)

  type Table = map<nat, Msg>

  const DEFAULT_MAX_ATTEMPTS := 5
  const DEFAULT_VISIBILITY := 30_000_000_000

  datatype Op =
    | Enqueue(owner: string, topic: string, payload: string, priority: int, maxAttempts: int, delay: int,
              dedup: Option<string>, now: int)
    | Claim(owner: string, topic: string, limit: int, visibility: int, skipped: set<nat>, now: int)
    | Ack(owner: string, id: nat, now: int)
    | Nack(owner: string, id: nat, reason: string, retryAfter: int, now: int)
    | ReapExpired(now: int)
    | RetryDead(owner: string, id: nat, now: int)
    | PurgeDone(olderThan: int, now: int)

  /** The table and the next value of its id sequence. */
  datatype Sys = Sys(rows: Table, nextId: nat)

  predicate InFlight(m: Msg) {
    m.status == Pending || m.status == Processing
  }

  // ----- Enqueue -----

  /** The partial unique index: another message in flight has the same owner, topic and dedup key. */
  predicate Conflicts(rows: Table, owner: string, topic: string, dedup: Option<string>) {
    dedup.Some? && exists id :: id in rows && InFlight(rows[id]) && rows[id].owner == owner && rows[id].topic == topic && rows[id].dedup == dedup
  }

  function NewMsg(op: Op): Msg
    requires op.Enqueue?
  {
    Msg(op.owner, op.topic, op.payload, op.priority, Pending, 0,
        if op.maxAttempts <= 0 then DEFAULT_MAX_ATTEMPTS else op.maxAttempts,
        op.now + op.delay, None, op.dedup, None, op.now)
  }

  // ----- Claim -----

  predicate Claimable(rows: Table, op: Op, id: nat)
    requires op.Claim?
  {
    && id in rows && id !in op.skipped
    && rows[id].owner == op.owner && rows[id].topic == op.topic
    && rows[id].status == Pending && rows[id].availableAt <= op.now
  }

  function Eligible(rows: Table, op: Op): set<nat>
    requires op.Claim?
  {
    set id | id in rows && Claimable(rows, op, id)
  }

  /** ORDER BY priority DESC, id */
  predicate Ahead(rows: Table, a: nat, b: nat)
    requires a in rows && b in rows
  {
    rows[a].priority > rows[b].priority || (rows[a].priority == rows[b].priority && a <= b)
  }

  lemma AnyId(ids: set<nat>) returns (x: nat)
    requires |ids| > 0
    ensures x in ids
  {
    x :| x in ids;
  }

  predicate Leads(rows: Table, ids: set<nat>, b: nat)
    requires ids <= rows.Keys
  {
    b in ids && forall i :: i in ids ==> Ahead(rows, b, i)
  }

  lemma {:induction false} FirstExists(rows: Table, ids: set<nat>)
    requires |ids| > 0 && ids <= rows.Keys
    ensures exists b :: Leads(rows, ids, b)
    decreases |ids|
  {
    var x := AnyId(ids);
    var rest := ids - {x};
    assert ids == rest + {x};
    if rest == {} {
      assert Leads(rows, ids, x);
    } else {
      FirstExists(rows, rest);
      var b :| Leads(rows, rest, b);
      LeaderOfTwo(rows, rest, x, b);
    }
  }

  lemma LeaderOfTwo(rows: Table, rest: set<nat>, x: nat, b: nat)
    requires rest + {x} <= rows.Keys && Leads(rows, rest, b)
    ensures Leads(rows, rest + {x}, if Ahead(rows, x, b) then x else b)
  {
  }

  function First(rows: Table, ids: set<nat>): (b: nat)
    requires ids != {} && ids <= rows.Keys
    ensures b in ids && forall i :: i in ids ==> Ahead(rows, b, i)
  {
    assert |ids| > 0;
    FirstExists(rows, ids);
    var b :| Leads(rows, ids, b);
    b
  }

  /** The first `limit` of the ids in claim order. */
  function Leading(rows: Table, ids: set<nat>, limit: nat): (r: set<nat>)
    requires ids <= rows.Keys
    ensures r <= ids
    decreases limit
  {
    if limit == 0 || ids == {} then {}
    else var b := First(rows, ids); {b} + Leading(rows, ids - {b}, limit - 1)
  }

  function ClaimLimit(limit: int): nat {
    if limit <= 0 then 1 else limit
  }

  function Visibility(v: int): (r: int)
    ensures r > 0
  {
    if v <= 0 then DEFAULT_VISIBILITY else v
  }

  /** The ids one claim delivers. */
  function Claimed(rows: Table, op: Op): (r: set<nat>)
    requires op.Claim?
    ensures forall id :: id in r ==> Claimable(rows, op, id)
  {
    Leading(rows, Eligible(rows, op), ClaimLimit(op.limit))
  }

  function Delivered(m: Msg, op: Op): Msg
    requires op.Claim?
  {
    m.(status := Processing, attempts := m.attempts + 1, lockedUntil := Some(op.now + Visibility(op.visibility)),
       updatedAt := op.now)
  }

  /** The table with some of its messages leased. */
  function Leasing(rows: Table, ids: set<nat>, op: Op): (r: Table)
    requires op.Claim?
  {
    map id | id in rows :: if id in ids then Delivered(rows[id], op) else rows[id]
  }

  // ----- the other statements, row by row -----

  /** Back to the pool, or parked once the attempts are used up. */
  function Returned(m: Msg): Status {
    if m.attempts >= m.maxAttempts then Dead else Pending
  }

  predicate Addressed(rows: Table, id: nat, owner: string, status: Status) {
    id in rows && rows[id].owner == owner && rows[id].status == status
  }

  predicate Expired(m: Msg, now: int) {
    m.status == Processing && m.lockedUntil.Some? && m.lockedUntil.value < now
  }

  function Reaped(m: Msg, now: int): Msg {
    m.(status := Returned(m), lockedUntil := None,
       lastError := if m.lastError.None? then Some("visibility timeout expired") else m.lastError, updatedAt := now)
  }

  predicate Purgeable(m: Msg, op: Op)
    requires op.PurgeDone?
  {
    m.status == Done && m.updatedAt < op.now - op.olderThan
  }

  function NextRows(s: Sys, op: Op): Table {
    var rows := s.rows;
    match op
    case Enqueue(owner, topic, _, _, _, _, dedup, _) =>
      if topic == "" || Conflicts(rows, owner, topic, dedup) then rows else rows[s.nextId := NewMsg(op)]
    case Claim(_, _, _, _, _, _) =>
      Leasing(rows, Claimed(rows, op), op)
    case Ack(owner, id, now) =>
      if Addressed(rows, id, owner, Processing)
      then rows[id := rows[id].(status := Done, lockedUntil := None, updatedAt := now)] else rows
    case Nack(owner, id, reason, retryAfter, now) =>
      if Addressed(rows, id, owner, Processing)
      then rows[id := rows[id].(status := Returned(rows[id]), lockedUntil := None, lastError := Some(reason), updatedAt := now,
                                availableAt := now + if retryAfter <= 0 then 0 else retryAfter)]
      else rows
    case ReapExpired(now) =>
      map id | id in rows :: if Expired(rows[id], now) then Reaped(rows[id], now) else rows[id]
    case RetryDead(owner, id, now) =>
      if Addressed(rows, id, owner, Dead) && !Conflicts(rows, owner, rows[id].topic, rows[id].dedup)
      then rows[id := rows[id].(status := Pending, attempts := 0, availableAt := now, lockedUntil := None, updatedAt := now)]
      else rows
    case PurgeDone(_, _) =>
      map id | id in rows && !Purgeable(rows[id], op) :: rows[id]
  }

  function Apply(s: Sys, op: Op): Sys {
    Sys(NextRows(s, op), if op.Enqueue? && op.topic != "" then s.nextId + 1 else s.nextId)
  }

  ghost predicate IsRun(trace: seq<Sys>, ops: seq<Op>) {
    && |trace| == |ops| + 1
    && trace[0].rows == map[]
    && forall i :: 0 <= i < |ops| ==> trace[i + 1] == Apply(trace[i], ops[i])
  }

  // ----- what every run keeps -----

  ghost predicate GoodMsg(m: Msg) {
    && m.maxAttempts >= 1
    && 0 <= m.attempts <= m.maxAttempts
    && (m.status == Pending ==> m.attempts < m.maxAttempts)
    && (m.status == Processing ==> m.attempts >= 1 && m.lockedUntil.Some?)
    && (m.status == Done ==> m.attempts >= 1)
    && (m.status == Dead ==> m.attempts == m.maxAttempts)
    && (m.status != Processing ==> m.lockedUntil.None?)
  }

  /** At most one message in flight per owner, topic and dedup key. */
  ghost predicate Deduplicated(rows: Table) {
    forall a, b :: a in rows && b in rows && a != b && InFlight(rows[a]) && InFlight(rows[b]) ==> !SameKey(rows[a], rows[b])
  }

  ghost predicate Inv(s: Sys) {
    && (forall id :: id in s.rows ==> id < s.nextId && GoodMsg(s.rows[id]))
    && Deduplicated(s.rows)
  }

  lemma StepKeepsMessages(s: Sys, op: Op, id: nat)
    requires Inv(s) && id in Apply(s, op).rows
    ensures id < Apply(s, op).nextId && GoodMsg(Apply(s, op).rows[id])
  {
  }

  /** The two messages share owner, topic and dedup key. */
  predicate SameKey(m: Msg, n: Msg) {
    m.dedup.Some? && m.owner == n.owner && m.topic == n.topic && m.dedup == n.dedup
  }

  lemma StepKeepsDedup(s: Sys, op: Op)
    requires Inv(s)
    ensures Deduplicated(Apply(s, op).rows)
  {
    var t := Apply(s, op);
    forall a, b | a in t.rows && b in t.rows && a != b && InFlight(t.rows[a]) && InFlight(t.rows[b])
      ensures !SameKey(t.rows[a], t.rows[b])
    {
      if a in s.rows && b in s.rows {
        SameIdentity(s, op, a);
        SameIdentity(s, op, b);
      }
    }
  }

  /** Nothing but RetryDead puts a message that was out of flight back in, and identities never change. */
  lemma SameIdentity(s: Sys, op: Op, id: nat)
    requires id in s.rows && id in Apply(s, op).rows && id < s.nextId
    ensures var m, n := s.rows[id], Apply(s, op).rows[id];
            && m.owner == n.owner && m.topic == n.topic && m.dedup == n.dedup && m.maxAttempts == n.maxAttempts
            && (InFlight(n) ==> InFlight(m) || op.RetryDead?)
  {
  }

  lemma StepKeeps(s: Sys, op: Op)
    requires Inv(s)
    ensures Inv(Apply(s, op))
  {
    StepKeepsDedup(s, op);
    forall id | id in Apply(s, op).rows
      ensures id < Apply(s, op).nextId && GoodMsg(Apply(s, op).rows[id])
    {
      StepKeepsMessages(s, op, id);
    }
  }

  lemma {:induction false} RunKeepsInv(trace: seq<Sys>, ops: seq<Op>, i: nat)
    requires IsRun(trace, ops) && i <= |ops|
    ensures Inv(trace[i])
  {
    if i > 0 {
      RunKeepsInv(trace, ops, i - 1);
      StepKeeps(trace[i - 1], ops[i - 1]);
    }
  }

  /**
  In every reachable table: a pending message has attempts left, one being processed has used between
  one and all of them and carries a lock, a dead one has used them all, a done one at least one; and no
  two messages in flight share a dedup key.
  */
  lemma ReachableTables(trace: seq<Sys>, ops: seq<Op>, i: nat, id: nat)
    requires IsRun(trace, ops) && i <= |ops| && id in trace[i].rows
    ensures var m := trace[i].rows[id];
            && (m.status == Pending ==> 0 <= m.attempts < m.maxAttempts)
            && (m.status == Processing ==> 1 <= m.attempts <= m.maxAttempts && m.lockedUntil.Some?)
            && (m.status == Done ==> 1 <= m.attempts <= m.maxAttempts)
            && (m.status == Dead ==> m.attempts == m.maxAttempts)
    ensures Deduplicated(trace[i].rows)
  {
    RunKeepsInv(trace, ops, i);
  }

  // ----- nothing is lost -----

  /** A message leaves the table only when it is done and the purge is due. */
  lemma VanishesOnlyWhenDone(s: Sys, op: Op, id: nat)
    requires id in s.rows && id !in Apply(s, op).rows
    ensures op.PurgeDone? && s.rows[id].status == Done && s.rows[id].updatedAt < op.now - op.olderThan
  {
  }

  /** Ids are never used again. */
  lemma {:induction false} GoneStaysGone(trace: seq<Sys>, ops: seq<Op>, i: nat, j: nat, id: nat)
    requires IsRun(trace, ops) && i <= j <= |ops|
    requires id < trace[i].nextId && id !in trace[i].rows
    ensures id < trace[j].nextId && id !in trace[j].rows
  {
    if i < j {
      GoneStaysGone(trace, ops, i, j - 1, id);
    }
  }

  /** Step number k delivered the message to a consumer. */
  predicate Delivers(trace: seq<Sys>, ops: seq<Op>, k: nat, id: nat)
    requires k < |ops| <= |trace|
  {
    ops[k].Claim? && id in Claimed(trace[k].rows, ops[k])
  }

  /** At-least-once: whatever is being processed or done was delivered before. */
  lemma {:induction false} DoneWasDelivered(trace: seq<Sys>, ops: seq<Op>, j: nat, id: nat)
    requires IsRun(trace, ops) && j <= |ops|
    requires id in trace[j].rows && trace[j].rows[id].status in {Processing, Done}
    ensures exists k :: 0 <= k < j && Delivers(trace, ops, k, id)
  {
    if j > 0 {
      var s, op := trace[j - 1], ops[j - 1];
      if op.Claim? && id in Claimed(s.rows, op) {
        assert Delivers(trace, ops, j - 1, id);
      } else {
        assert id in s.rows && s.rows[id].status in {Processing, Done};
        DoneWasDelivered(trace, ops, j - 1, id);
      }
    }
  }

  lemma OutIsKept(s: Sys, op: Op, id: nat)
    requires id < s.nextId && (id in s.rows ==> s.rows[id].status == Done)
    ensures id in Apply(s, op).rows ==> id in s.rows && Apply(s, op).rows[id] == s.rows[id]
    ensures op.Claim? ==> id !in Claimed(s.rows, op)
  {
  }

  /** Acknowledged is final: a done message only waits for the purge, and is never delivered, returned or reaped again. */
  lemma {:induction false} DoneIsFinal(trace: seq<Sys>, ops: seq<Op>, i: nat, j: nat, id: nat)
    requires IsRun(trace, ops) && i <= j <= |ops|
    requires id in trace[i].rows && trace[i].rows[id].status == Done
    ensures id in trace[j].rows ==> trace[j].rows[id] == trace[i].rows[id]
    ensures forall k :: i <= k < j ==> !Delivers(trace, ops, k, id)
    ensures id < trace[j].nextId
  {
    RunKeepsInv(trace, ops, i);
    if i < j {
      DoneIsFinal(trace, ops, i, j - 1, id);
      OutIsKept(trace[j - 1], ops[j - 1], id);
    }
  }

  // ----- deliveries are counted -----

  /** How often the message was delivered by the steps from i up to j. */
  ghost function Deliveries(trace: seq<Sys>, ops: seq<Op>, i: nat, j: nat, id: nat): nat
    requires i <= j <= |ops| <= |trace|
  {
    if i == j then 0
    else Deliveries(trace, ops, i, j - 1, id) + if Delivers(trace, ops, j - 1, id) then 1 else 0
  }

  predicate Retries(op: Op, id: nat) {
    op.RetryDead? && op.id == id
  }

  /**
  While nobody retries it by hand, a message's attempt counter goes up by exactly one per delivery, so
  it is delivered at most maxAttempts times.
  */
  lemma {:induction false} AttemptsCountDeliveries(trace: seq<Sys>, ops: seq<Op>, i: nat, j: nat, id: nat)
    requires IsRun(trace, ops) && i <= j <= |ops|
    requires id in trace[i].rows && id in trace[j].rows
    requires forall k :: i <= k < j ==> !Retries(ops[k], id)
    ensures trace[j].rows[id].attempts == trace[i].rows[id].attempts + Deliveries(trace, ops, i, j, id)
    ensures trace[j].rows[id].maxAttempts == trace[i].rows[id].maxAttempts
    ensures Deliveries(trace, ops, i, j, id) <= trace[i].rows[id].maxAttempts
  {
    RunKeepsInv(trace, ops, i);
    RunKeepsInv(trace, ops, j);
    if i < j {
      StillThere(trace, ops, i, j, id);
      AttemptsCountDeliveries(trace, ops, i, j - 1, id);
      RunKeepsInv(trace, ops, j - 1);
      OneStepAttempts(trace[j - 1], ops[j - 1], id);
    }
  }

  lemma StillThere(trace: seq<Sys>, ops: seq<Op>, i: nat, j: nat, id: nat)
    requires IsRun(trace, ops) && i < j <= |ops|
    requires id in trace[i].rows && id in trace[j].rows
    ensures id in trace[j - 1].rows
  {
    RunKeepsInv(trace, ops, i);
    NextIdGrows(trace, ops, i, j - 1);
  }

  lemma {:induction false} NextIdGrows(trace: seq<Sys>, ops: seq<Op>, i: nat, j: nat)
    requires IsRun(trace, ops) && i <= j <= |ops|
    ensures trace[i].nextId <= trace[j].nextId
  {
    if i < j {
      NextIdGrows(trace, ops, i, j - 1);
    }
  }

  lemma OneStepAttempts(s: Sys, op: Op, id: nat)
    requires id in s.rows && id < s.nextId && id in Apply(s, op).rows && !Retries(op, id)
    ensures Apply(s, op).rows[id].maxAttempts == s.rows[id].maxAttempts
    ensures Apply(s, op).rows[id].attempts == s.rows[id].attempts + if op.Claim? && id in Claimed(s.rows, op) then 1 else 0
  {
  }

  // ----- exclusivity -----

  predicate Returns(op: Op, id: nat) {
    op.Nack? && op.id == id
  }

  /** Under a lease until `deadline`, finished, or gone. */
  ghost predicate Leased(s: Sys, id: nat, deadline: int) {
    id in s.rows ==>
      s.rows[id].status == Done || (s.rows[id].status == Processing && s.rows[id].lockedUntil == Some(deadline))
  }

  /** A reaper whose clock had passed the deadline. */
  predicate ReapsAfter(op: Op, deadline: int) {
    op.ReapExpired? && deadline < op.now
  }

  lemma LeaseHolds(s: Sys, op: Op, id: nat, deadline: int)
    requires Inv(s) && id < s.nextId && Leased(s, id, deadline) && !Returns(op, id) && !ReapsAfter(op, deadline)
    ensures Leased(Apply(s, op), id, deadline)
  {
  }

  lemma {:induction false} LeaseHoldsThroughout(trace: seq<Sys>, ops: seq<Op>, i: nat, j: nat, id: nat, deadline: int)
    requires IsRun(trace, ops) && i <= j <= |ops|
    requires id in trace[i].rows && Leased(trace[i], id, deadline)
    requires forall k :: i <= k < j ==> !Returns(ops[k], id) && !ReapsAfter(ops[k], deadline)
    ensures Leased(trace[j], id, deadline)
  {
    if i < j {
      LeaseHoldsThroughout(trace, ops, i, j - 1, id, deadline);
      RunKeepsInv(trace, ops, i);
      RunKeepsInv(trace, ops, j - 1);
      NextIdGrows(trace, ops, i, j - 1);
      LeaseHolds(trace[j - 1], ops[j - 1], id, deadline);
    }
  }

  /**
  Two deliveries of one message with no Nack between them, in whatever order the operations read their clocks: some
  reaper in between read a time past the first delivery's visibility timeout.
  */
  lemma RedeliveredOnlyByReaper(trace: seq<Sys>, ops: seq<Op>, i: nat, j: nat, id: nat)
    requires IsRun(trace, ops) && i < j < |ops|
    requires Delivers(trace, ops, i, id) && Delivers(trace, ops, j, id)
    requires forall k :: i < k < j ==> !Returns(ops[k], id)
    ensures exists k :: i < k < j && ReapsAfter(ops[k], ops[i].now + Visibility(ops[i].visibility))
  {
    var deadline := ops[i].now + Visibility(ops[i].visibility);
    assert Leased(trace[i + 1], id, deadline);
    if forall k :: i < k < j ==> !ReapsAfter(ops[k], deadline) {
      LeaseHoldsThroughout(trace, ops, i + 1, j, id, deadline);
    }
  }

  /** So when no operation in between read a later clock than the second delivery, the two are that far apart. */
  lemma ClaimsAreApart(trace: seq<Sys>, ops: seq<Op>, i: nat, j: nat, id: nat)
    requires IsRun(trace, ops) && i < j < |ops|
    requires Delivers(trace, ops, i, id) && Delivers(trace, ops, j, id)
    requires forall k :: i < k < j ==> !Returns(ops[k], id) && ops[k].now <= ops[j].now
    ensures ops[j].now > ops[i].now + Visibility(ops[i].visibility)
  {
    RedeliveredOnlyByReaper(trace, ops, i, j, id);
  }

  // ----- ordering and isolation -----

  /** A claim takes as many as it may, and never passes over a message that is ahead of one it took. */
  lemma {:induction false} LeadingSpec(rows: Table, ids: set<nat>, limit: nat)
    requires ids <= rows.Keys
    ensures |Leading(rows, ids, limit)| == if limit <= |ids| then limit else |ids|
    ensures forall c, e :: c in Leading(rows, ids, limit) && e in ids - Leading(rows, ids, limit) ==> Ahead(rows, c, e)
    decreases limit
  {
    if limit > 0 && ids != {} {
      LeadingSpec(rows, ids - {First(rows, ids)}, limit - 1);
    }
  }

  /** The claim may take the message: it is the caller's, on this topic, waiting, due, and no other consumer holds its row. */
  ghost predicate Takeable(rows: Table, op: Op, id: nat)
    requires op.Claim?
  {
    && id in rows && id !in op.skipped && rows[id].owner == op.owner && rows[id].topic == op.topic
    && rows[id].status == Pending && rows[id].availableAt <= op.now
  }

  /**
  The claim took these: each is one it may take, each has a higher priority than any it may take and left, or the same
  and a smaller id, and there are as many as the limit allows, where no limit allows one.
  */
  ghost predicate TookFirst(rows: Table, op: Op, taken: set<nat>)
    requires op.Claim?
  {
    && (forall id :: id in taken ==> Takeable(rows, op, id))
    && (forall c: nat, e: nat :: c in taken && e !in taken && Takeable(rows, op, e) ==>
          rows[c].priority > rows[e].priority || (rows[c].priority == rows[e].priority && c < e))
    && var all, n := set id | id in rows && Takeable(rows, op, id), if op.limit <= 0 then 1 else op.limit;
       |taken| == if |all| <= n then |all| else n
  }

  lemma ClaimMeans(rows: Table, op: Op)
    requires op.Claim?
    ensures TookFirst(rows, op, Claimed(rows, op))
  {
    var all := set id | id in rows && Takeable(rows, op, id);
    assert all == Eligible(rows, op);
    LeadingSpec(rows, all, ClaimLimit(op.limit));
    forall c, e | c in Claimed(rows, op) && e !in Claimed(rows, op) && Takeable(rows, op, e)
      ensures rows[c].priority > rows[e].priority || (rows[c].priority == rows[e].priority && c < e)
    {
      assert Ahead(rows, c, e);
    }
  }

  /** These messages are leased for the visibility timeout, thirty seconds if none is given, and no other is touched. */
  ghost predicate LeasedOnly(was: Table, op: Op, taken: set<nat>, rows: Table)
    requires op.Claim? && taken <= was.Keys
  {
    && rows.Keys == was.Keys
    && (forall id :: id in rows && id !in taken ==> rows[id] == was[id])
    && forall id :: id in taken ==>
         rows[id] == was[id].(status := Processing, attempts := was[id].attempts + 1, updatedAt := op.now,
                              lockedUntil := Some(op.now + if op.visibility <= 0 then 30_000_000_000 else op.visibility))
  }

  lemma LeasingMeans(was: Table, op: Op)
    requires op.Claim?
    ensures Claimed(was, op) <= was.Keys
    ensures LeasedOnly(was, op, Claimed(was, op), Leasing(was, Claimed(was, op), op))
  {
  }

  /** Nothing one plugin does changes another plugin's messages. */
  lemma OwnersAreIsolated(s: Sys, op: Op, id: nat)
    requires id in s.rows && id < s.nextId
    requires !op.ReapExpired? && !op.PurgeDone? && op.owner != s.rows[id].owner
    ensures id in Apply(s, op).rows && Apply(s, op).rows[id] == s.rows[id]
  {
  }

  // ----- the queue as an object -----

  /** The message is waiting or being worked on, with this owner, topic and dedup key. */
  ghost predicate InFlightWith(rows: Table, id: nat, owner: string, topic: string, dedup: Option<string>) {
    && id in rows && rows[id].status in {Pending, Processing}
    && rows[id].owner == owner && rows[id].topic == topic && rows[id].dedup == dedup
  }

  lemma ConflictsMeans(rows: Table, owner: string, topic: string, dedup: Option<string>)
    ensures Conflicts(rows, owner, topic, dedup) <==> dedup.Some? && exists id :: InFlightWith(rows, id, owner, topic, dedup)
  {
    forall id | InFlightWith(rows, id, owner, topic, dedup)
      ensures dedup.Some? ==> Conflicts(rows, owner, topic, dedup)
    {
      assert InFlight(rows[id]);
    }
    forall id | id in rows && InFlight(rows[id]) && rows[id].owner == owner && rows[id].topic == topic && rows[id].dedup == dedup
      ensures InFlightWith(rows, id, owner, topic, dedup)
    {
    }
  }

  datatype Publish = Rejected | Duplicate | Queued(id: nat)

  /** The message b leads, and there is only one such. */
  lemma LeaderIsFirst(rows: Table, ids: set<nat>, b: nat)
    requires ids != {} && ids <= rows.Keys && Leads(rows, ids, b)
    ensures b == First(rows, ids)
  {
    var f := First(rows, ids);
    assert Ahead(rows, b, f) && Ahead(rows, f, b);
  }

  /** ORDER BY ... LIMIT 1: the leader of the ids, found by looking at each. */
  method FindLeader(rows: Table, ids: set<nat>) returns (b: nat)
    requires ids != {} && ids <= rows.Keys
    ensures b == First(rows, ids)
    ensures b in ids && forall i :: i in ids && i != b ==>
              rows[b].priority > rows[i].priority || (rows[b].priority == rows[i].priority && b < i)
  {
    b :| b in ids;
    var todo := ids - {b};
    while todo != {}
      invariant todo <= ids && b in ids - todo
      invariant Leads(rows, ids - todo, b)
      decreases todo
    {
      var x: nat :| x in todo;
      LeaderOfTwo(rows, ids - todo, x, b);
      assert ids - todo + {x} == ids - (todo - {x});
      if Ahead(rows, x, b) {
        b := x;
      }
      todo := todo - {x};
    }
    assert ids - {} == ids;
    LeaderIsFirst(rows, ids, b);
  }

  lemma LeaseOneMore(rows: Table, ids: set<nat>, b: nat, op: Op)
    requires op.Claim? && b in rows && b !in ids
    ensures b in Leasing(rows, ids, op)
    ensures Leasing(rows, ids, op)[b := Delivered(Leasing(rows, ids, op)[b], op)] == Leasing(rows, ids + {b}, op)
  {
  }

  /** Leasing some messages does not change the order of the others. */
  lemma PrioritiesStay(was: Table, leased: set<nat>, left: set<nat>, op: Op)
    requires op.Claim? && left <= was.Keys && leased !! left
    ensures left <= Leasing(was, leased, op).Keys
    ensures forall id :: id in left ==> Leasing(was, leased, op)[id] == was[id]
  {
  }

  lemma SameLeader(was: Table, now: Table, ids: set<nat>, b: nat)
    requires ids != {} && ids <= was.Keys && ids <= now.Keys && forall id :: id in ids ==> now[id] == was[id]
    requires b == First(now, ids)
    ensures b == First(was, ids)
  {
    assert forall i :: i in ids ==> Ahead(now, b, i);
    assert Leads(was, ids, b);
    LeaderIsFirst(was, ids, b);
  }

  /** So far `leased` are leased, and what remains to be leased are the first n of `left`. */
  ghost predicate Selecting(was: Table, op: Op, rows: Table, leased: set<nat>, left: set<nat>, n: nat)
    requires op.Claim?
  {
    && left <= was.Keys && leased !! left
    && leased + Leading(was, left, n) == Claimed(was, op)
    && rows == Leasing(was, leased, op)
  }

  lemma SelectOneMore(was: Table, op: Op, rows: Table, leased: set<nat>, left: set<nat>, n: nat, b: nat)
    requires op.Claim? && Selecting(was, op, rows, leased, left, n) && n > 0 && left != {} && left <= rows.Keys
    requires b == First(rows, left)
    ensures Selecting(was, op, rows[b := Delivered(rows[b], op)], leased + {b}, left - {b}, n - 1)
  {
    PrioritiesStay(was, leased, left, op);
    SameLeader(was, rows, left, b);
    LeaseOneMore(was, leased, b, op);
    assert leased + {b} + Leading(was, left - {b}, n - 1) == leased + Leading(was, left, n);
  }

  /** The claim statement: picks the leader of what is left and leases it, until the limit is reached. */
  method SelectAndLease(was: Table, op: Op) returns (rows: Table, leased: set<nat>)
    requires op.Claim?
    ensures leased == Claimed(was, op)
    ensures rows == Leasing(was, leased, op)
  {
    var left, n := Eligible(was, op), ClaimLimit(op.limit);
    rows, leased := was, {};
    assert Leasing(was, {}, op) == was;
    while n > 0 && left != {}
      invariant Selecting(was, op, rows, leased, left, n)
      decreases n
    {
      PrioritiesStay(was, leased, left, op);
      var b := FindLeader(rows, left);
      SelectOneMore(was, op, rows, leased, left, n, b);
      rows := rows[b := Delivered(rows[b], op)];
      leased, left, n := leased + {b}, left - {b}, n - 1;
    }
    assert leased + {} == leased;
  }

  /** A statement that treats every row alike, with `todo` still to be treated. */
  ghost predicate Halfway(was: Table, goal: Table, now: Table, todo: set<nat>) {
    && todo <= was.Keys && goal.Keys <= was.Keys
    && now.Keys == goal.Keys + todo
    && forall id :: id in now ==> now[id] == if id in todo then was[id] else goal[id]
  }

  lemma TreatOne(was: Table, goal: Table, now: Table, todo: set<nat>, id: nat)
    requires Halfway(was, goal, now, todo) && id in todo
    ensures Halfway(was, goal, if id in goal then now[id := goal[id]] else now - {id}, todo - {id})
  {
  }

  /** Exactly the leases that have run out are over: back to the pool while attempts are left, and otherwise parked. */
  ghost predicate ReapedOnly(was: Table, now: int, rows: Table) {
    rows.Keys == was.Keys && forall id :: id in rows ==>
      var m := was[id];
      rows[id] == if m.status == Processing && m.lockedUntil.Some? && m.lockedUntil.value < now
                  then m.(status := if m.attempts < m.maxAttempts then Pending else Dead, lockedUntil := None, updatedAt := now,
                          lastError := if m.lastError.Some? then m.lastError else Some("visibility timeout expired"))
                  else m
  }

  lemma ReapingMeans(was: Table, now: int)
    ensures ReapedOnly(was, now, map id | id in was :: if Expired(was[id], now) then Reaped(was[id], now) else was[id])
  {
  }

  /** Every message in processing has a lease that has not run out. */
  ghost predicate NoneOverdue(rows: Table, now: int) {
    forall id :: id in rows && rows[id].status == Processing ==> rows[id].lockedUntil.Some? && now <= rows[id].lockedUntil.value
  }

  lemma NothingOverdue(s: Sys, now: int)
    requires Inv(s)
    ensures NoneOverdue(NextRows(s, Op.ReapExpired(now)), now)
  {
  }

  /** The reaper's statement, row by row. */
  method ReapRows(was: Table, now: int) returns (rows: Table)
    ensures rows == map id | id in was :: if Expired(was[id], now) then Reaped(was[id], now) else was[id]
  {
    ghost var goal := map id | id in was :: if Expired(was[id], now) then Reaped(was[id], now) else was[id];
    rows := was;
    var todo := was.Keys;
    while todo != {}
      invariant Halfway(was, goal, rows, todo)
      decreases todo
    {
      var id: nat :| id in todo;
      TreatOne(was, goal, rows, todo, id);
      if Expired(rows[id], now) {
        rows := rows[id := Reaped(rows[id], now)];
      } else {
        assert rows[id := goal[id]] == rows;
      }
      todo := todo - {id};
    }
    assert rows == goal;
  }

  /** The purge's statement, row by row. */
  method PurgeRows(was: Table, op: Op) returns (rows: Table)
    requires op.PurgeDone?
    ensures rows == map id | id in was && !Purgeable(was[id], op) :: was[id]
  {
    ghost var goal := map id | id in was && !Purgeable(was[id], op) :: was[id];
    rows := was;
    var todo := was.Keys;
    while todo != {}
      invariant Halfway(was, goal, rows, todo)
      decreases todo
    {
      var id: nat :| id in todo;
      TreatOne(was, goal, rows, todo, id);
      if Purgeable(rows[id], op) {
        rows := rows - {id};
      } else {
        assert rows[id := goal[id]] == rows;
      }
      todo := todo - {id};
    }
    assert rows == goal;
  }

  class PluginQueue {
    var rows: Table
    var nextId: nat

    ghost function View(): Sys
      reads this
    {
      Sys(rows, nextId)
    }

    ghost predicate Valid()
      reads this
    {
      Inv(View())
    }

    constructor ()
      ensures Valid() && View() == Sys(map[], 1)
    {
      rows, nextId := map[], 1;
    }

    method Enqueue(owner: string, topic: string, payload: string, priority: int, maxAttempts: int, delay: int,
                   dedup: Option<string>, now: int)
      returns (r: Publish)
      requires Valid()
      modifies this
      ensures Valid()
      ensures View() == Apply(old(View()), Op.Enqueue(owner, topic, payload, priority, maxAttempts, delay, dedup, now))
      ensures r == Rejected <==> topic == ""
      ensures r == Duplicate <==> topic != "" && dedup.Some? && exists id :: InFlightWith(old(rows), id, owner, topic, dedup)
      ensures r.Queued? ==> r.id == old(nextId) && r.id !in old(rows)
      ensures r.Queued? ==>
                rows == old(rows)[r.id := Msg(owner, topic, payload, priority, Pending, 0,
                                              if maxAttempts <= 0 then 5 else maxAttempts, now + delay, None, dedup, None, now)]
      ensures !r.Queued? ==> rows == old(rows)
      ensures nextId == old(nextId) + if topic == "" then 0 else 1
    {
      StepKeeps(View(), Op.Enqueue(owner, topic, payload, priority, maxAttempts, delay, dedup, now));
      if topic == "" {
        return Rejected;
      }
      var id := nextId;
      nextId := nextId + 1;
      ConflictsMeans(rows, owner, topic, dedup);
      if Conflicts(rows, owner, topic, dedup) {
        return Duplicate;
      }
      var attempts := maxAttempts;
      if attempts <= 0 {
        attempts := DEFAULT_MAX_ATTEMPTS;
      }
      rows := rows[id := Msg(owner, topic, payload, priority, Pending, 0, attempts, now + delay, None, dedup, None, now)];
      return Queued(id);
    }

    /** Leases the leading claimable messages one by one; `skipped` are rows other consumers hold locked. */
    method Claim(owner: string, topic: string, limit: int, visibility: int, skipped: set<nat>, now: int)
      returns (leased: set<nat>)
      requires Valid()
      modifies this`rows
      ensures Valid()
      ensures View() == Apply(old(View()), Op.Claim(owner, topic, limit, visibility, skipped, now))
      ensures leased == Claimed(old(rows), Op.Claim(owner, topic, limit, visibility, skipped, now))
      ensures leased <= old(rows).Keys
      ensures TookFirst(old(rows), Op.Claim(owner, topic, limit, visibility, skipped, now), leased)
      ensures LeasedOnly(old(rows), Op.Claim(owner, topic, limit, visibility, skipped, now), leased, rows)
    {
      var op := Op.Claim(owner, topic, limit, visibility, skipped, now);
      ghost var was := rows;
      StepKeeps(View(), op);
      rows, leased := SelectAndLease(rows, op);
      assert View() == Apply(old(View()), op);
      assert TookFirst(was, op, leased) by {
        ClaimMeans(was, op);
      }
      assert leased <= was.Keys && LeasedOnly(was, op, leased, rows) by {
        LeasingMeans(was, op);
      }
    }

    /** Marks a delivered message done; an id that is not the owner's to finish is ignored. */
    method Ack(owner: string, id: nat, now: int)
      requires Valid()
      modifies this`rows
      ensures Valid() && View() == Apply(old(View()), Op.Ack(owner, id, now))
      ensures rows == if id in old(rows) && old(rows)[id].owner == owner && old(rows)[id].status == Processing
                      then old(rows)[id := old(rows)[id].(status := Done, lockedUntil := None, updatedAt := now)] else old(rows)
    {
      StepKeeps(View(), Op.Ack(owner, id, now));
      if Addressed(rows, id, owner, Processing) {
        rows := rows[id := rows[id].(status := Done, lockedUntil := None, updatedAt := now)];
      }
    }

    /** Returns whether this call parked the message, which is when OnDeadLetter fires. */
    method Nack(owner: string, id: nat, reason: string, retryAfter: int, now: int) returns (dead: bool)
      requires Valid()
      modifies this`rows
      ensures Valid()
      ensures View() == Apply(old(View()), Op.Nack(owner, id, reason, retryAfter, now))
      ensures dead <==> id in old(rows) && old(rows)[id].owner == owner && old(rows)[id].status == Processing &&
                        old(rows)[id].attempts >= old(rows)[id].maxAttempts
      ensures rows == if id in old(rows) && old(rows)[id].owner == owner && old(rows)[id].status == Processing
                      then old(rows)[id := old(rows)[id].(
                             status := if dead then Dead else Pending, lockedUntil := None, lastError := Some(reason),
                             updatedAt := now, availableAt := now + if retryAfter > 0 then retryAfter else 0)]
                      else old(rows)
    {
      StepKeeps(View(), Op.Nack(owner, id, reason, retryAfter, now));
      dead := false;
      var wait := retryAfter;
      if wait <= 0 {
        wait := 0;
      }
      if Addressed(rows, id, owner, Processing) {
        var m := rows[id];
        rows := rows[id := m.(status := Returned(m), availableAt := now + wait, lockedUntil := None,
                              lastError := Some(reason), updatedAt := now)];
        dead := Returned(m) == Dead;
      }
    }

    /** Goes over the table and returns every message whose lease has run out. */
    method ReapExpired(now: int)
      requires Valid()
      modifies this`rows
      ensures Valid() && View() == Apply(old(View()), Op.ReapExpired(now))
      ensures NoneOverdue(rows, now) && ReapedOnly(old(rows), now, rows)
    {
      StepKeeps(View(), Op.ReapExpired(now));
      NothingOverdue(View(), now);
      ReapingMeans(rows, now);
      rows := ReapRows(rows, now);
    }

    /** False when there is no such dead message, or its dedup key is in flight again. */
    method RetryDead(owner: string, id: nat, now: int) returns (ok: bool)
      requires Valid()
      modifies this`rows
      ensures Valid() && View() == Apply(old(View()), Op.RetryDead(owner, id, now))
      ensures ok <==> id in old(rows) && old(rows)[id].owner == owner && old(rows)[id].status == Dead &&
                      (old(rows)[id].dedup.Some? ==>
                         forall k :: !InFlightWith(old(rows), k, owner, old(rows)[id].topic, old(rows)[id].dedup))
      ensures ok ==> rows == old(rows)[id := old(rows)[id].(
                               status := Pending, attempts := 0, availableAt := now, lockedUntil := None, updatedAt := now)]
      ensures !ok ==> rows == old(rows)
    {
      StepKeeps(View(), Op.RetryDead(owner, id, now));
      if id in rows {
        ConflictsMeans(rows, owner, rows[id].topic, rows[id].dedup);
      }
      ok := Addressed(rows, id, owner, Dead) && !Conflicts(rows, owner, rows[id].topic, rows[id].dedup);
      if ok {
        rows := rows[id := rows[id].(status := Pending, attempts := 0, availableAt := now, lockedUntil := None, updatedAt := now)];
      }
    }

    /** Goes over the table and deletes the done messages that are old enough, nothing else. */
    method PurgeDone(olderThan: int, now: int)
      requires Valid()
      modifies this`rows
      ensures Valid() && View() == Apply(old(View()), Op.PurgeDone(olderThan, now))
      ensures forall id :: id in rows <==>
                id in old(rows) && !(old(rows)[id].status == Done && old(rows)[id].updatedAt < now - olderThan)
      ensures forall id :: id in rows ==> rows[id] == old(rows)[id]
    {
      var op := Op.PurgeDone(olderThan, now);
      StepKeeps(View(), op);
      rows := PurgeRows(rows, op);
    }
  }
}

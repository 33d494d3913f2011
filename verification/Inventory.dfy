/**
Selling stock with version-checked writes (extension-example/inventory/main.go over the document writes of
core/db/tx.go).

Any number of requests interleave.  Each database statement is one step: a read sees committed rows only, a
write inside a transaction holds its row until commit or rollback, and writers of the same row wait for it.
`log` records the committed changes in commit order, with the request that made them.
*/
module Inventory {

  import opened Common

  datatype Item = Item(onHand: int, reserved: int)

  datatype Row = Row(item: Item, version: nat)

  // ----- versioned documents -----

  /** Expected version 0 writes unconditionally; any other applies only while the stored version matches. */
  function PutVersioned(rows: map<string, Row>, sku: string, item: Item, expected: int): (r: Option<map<string, Row>>)
    ensures r.None? <==> expected != 0 && !(sku in rows && rows[sku].version == expected)
    ensures r.Some? ==> r.value == rows[sku := Row(item, if sku in rows then rows[sku].version + 1 else 1)]
  {
    if expected == 0 then
      Some(rows[sku := Row(item, if sku in rows then rows[sku].version + 1 else 1)])
    else if sku in rows && rows[sku].version == expected then
      Some(rows[sku := Row(item, rows[sku].version + 1)])
    else
      None
  }

  // ----- requests -----

  /** Where a request stands; `item` and `version` are what it read. */
  datatype Phase =
    | Idle
    | Decided(sku: string, qty: int, item: Item, version: nat)   // reserve: read the level, found it enough
    | Written(sku: string, qty: int, item: Item, version: nat)   // reserve: wrote the row, not yet committed
    | Counting(sku: string, qty: int, item: Item, version: nat)  // restock: read the level

  datatype Event =
    | Put(sku: string, item: Item)
    | Sold(sku: string, qty: int, request: nat)
    | Stocked(sku: string, qty: int, request: nat)

  datatype Sys = Sys(rows: map<string, Row>, requests: map<nat, Phase>, log: seq<Event>)

  datatype Action =
    | ReserveRead(t: nat, sku: string, qty: int)
    | ReserveWrite(t: nat)
    | Commit(t: nat)
    | Rollback(t: nat)
    | RestockRead(t: nat, sku: string, qty: int)
    | RestockWrite(t: nat)
    | PutItem(sku: string, item: Item)

  function PhaseOf(s: Sys, t: nat): Phase {
    if t in s.requests then s.requests[t] else Idle
  }

  function Move(s: Sys, t: nat, p: Phase): Sys {
    s.(requests := s.requests[t := p])
  }

  /** No uncommitted write holds the row. */
  ghost predicate Unlocked(s: Sys, sku: string) {
    forall t :: PhaseOf(s, t).Written? ==> PhaseOf(s, t).sku != sku
  }

  ghost predicate Enabled(s: Sys, a: Action) {
    match a
    case ReserveRead(t, _, qty) => PhaseOf(s, t).Idle? && qty > 0
    case ReserveWrite(t) => PhaseOf(s, t).Decided? && Unlocked(s, PhaseOf(s, t).sku)
    case Commit(t) => PhaseOf(s, t).Written?
    case Rollback(t) => !PhaseOf(s, t).Idle?
    case RestockRead(t, _, qty) => PhaseOf(s, t).Idle? && qty > 0
    case RestockWrite(t) => PhaseOf(s, t).Counting? && Unlocked(s, PhaseOf(s, t).sku)
    case PutItem(sku, _) => Unlocked(s, sku)
  }

  function Apply(s: Sys, a: Action): Sys {
    match a
    case ReserveRead(t, sku, qty) =>
      if sku !in s.rows || s.rows[sku].item.onHand - s.rows[sku].item.reserved < qty then s
      else Move(s, t, Decided(sku, qty, s.rows[sku].item, s.rows[sku].version))
    case ReserveWrite(t) =>
      var p := PhaseOf(s, t);
      if !p.Decided? then s
      else
        var put := PutVersioned(s.rows, p.sku, p.item.(reserved := p.item.reserved + p.qty), p.version);
        if put.None? then Move(s, t, Idle)
        else Move(s, t, Written(p.sku, p.qty, p.item, p.version))
    case Commit(t) =>
      var p := PhaseOf(s, t);
      if !p.Written? then s
      else
        var put := PutVersioned(s.rows, p.sku, p.item.(reserved := p.item.reserved + p.qty), p.version);
        if put.None? then Move(s, t, Idle)
        else Sys(put.value, s.requests[t := Idle], s.log + [Sold(p.sku, p.qty, t)])
    case Rollback(t) => Move(s, t, Idle)
    case RestockRead(t, sku, qty) =>
      if sku !in s.rows then s
      else Move(s, t, Counting(sku, qty, s.rows[sku].item, s.rows[sku].version))
    case RestockWrite(t) =>
      var p := PhaseOf(s, t);
      if !p.Counting? then s
      else
        var put := PutVersioned(s.rows, p.sku, p.item.(onHand := p.item.onHand + p.qty), p.version);
        if put.None? then Move(s, t, Idle)
        else Sys(put.value, s.requests[t := Idle], s.log + [Stocked(p.sku, p.qty, t)])
    case PutItem(sku, item) =>
      s.(rows := PutVersioned(s.rows, sku, item, 0).value, log := s.log + [Put(sku, item)])
  }

  ghost predicate IsRun(trace: seq<Sys>, acts: seq<Action>) {
    && |trace| == |acts| + 1
    && trace[0] == Sys(map[], map[], [])
    && forall i :: 0 <= i < |acts| ==> Enabled(trace[i], acts[i]) && trace[i + 1] == Apply(trace[i], acts[i])
  }

  // ----- the serial reference -----

  /** The item after the first n committed changes, each applied alone to the level the one before it left. */
  function Replay(log: seq<Event>, n: nat, sku: string): Option<Item>
    requires n <= |log|
  {
    if n == 0 then None
    else
      var e := log[n - 1];
      var was := Replay(log, n - 1, sku);
      if e.sku != sku then was
      else if e.Put? then Some(e.item)
      else if was.None? then None
      else if e.Sold? then Some(was.value.(reserved := was.value.reserved + e.qty))
      else Some(was.value.(onHand := was.value.onHand + e.qty))
  }

  lemma {:induction false} ReplayOfPrefix(log: seq<Event>, e: Event, n: nat, sku: string)
    requires n <= |log|
    ensures Replay(log + [e], n, sku) == Replay(log, n, sku)
  {
    if n > 0 {
      ReplayOfPrefix(log, e, n - 1, sku);
    }
  }

  /** The i-th sale was covered by stock that every earlier sale had left over. */
  predicate Covered(log: seq<Event>, i: nat)
    requires i < |log|
  {
    log[i].Sold? ==>
      var was := Replay(log, i, log[i].sku);
      was.Some? && 0 < log[i].qty <= was.value.onHand - was.value.reserved
  }

  ghost predicate AllCovered(log: seq<Event>) {
    forall i: nat :: i < |log| ==> Covered(log, i)
  }

  /** The committed rows are exactly what the log replays to. */
  ghost predicate Serial(s: Sys) {
    forall sku :: Replay(s.log, |s.log|, sku) == if sku in s.rows then Some(s.rows[sku].item) else None
  }

  /** What a request remembers is current as long as the version is. */
  predicate Remembers(rows: map<string, Row>, p: Phase) {
    !p.Idle? ==>
      && p.qty > 0 && p.version > 0 && p.sku in rows && p.version <= rows[p.sku].version
      && (p.version == rows[p.sku].version ==> p.item == rows[p.sku].item)
      && (!p.Counting? ==> p.qty <= p.item.onHand - p.item.reserved)
      && (p.Written? ==> p.version == rows[p.sku].version)
  }

  ghost predicate AllRemember(s: Sys) {
    forall t :: Remembers(s.rows, PhaseOf(s, t))
  }

  /** Rows are held by one uncommitted write at most. */
  ghost predicate OneWriter(s: Sys) {
    forall t, u :: PhaseOf(s, t).Written? && PhaseOf(s, u).Written? && PhaseOf(s, t).sku == PhaseOf(s, u).sku ==> t == u
  }

  ghost predicate Versioned(s: Sys) {
    forall sku :: sku in s.rows ==> s.rows[sku].version > 0
  }

  ghost predicate Inv(s: Sys) {
    Versioned(s) && AllRemember(s) && OneWriter(s) && Serial(s) && AllCovered(s.log)
  }

  /** Appending one change, made to the level the log replays to, keeps rows and log in step. */
  lemma LogStep(s: Sys, s': Sys, e: Event, version: nat)
    requires Serial(s) && AllCovered(s.log) && Versioned(s)
    requires s'.log == s.log + [e] && version > 0
    requires e.Put? || e.sku in s.rows
    requires e.Sold? ==> 0 < e.qty <= s.rows[e.sku].item.onHand - s.rows[e.sku].item.reserved
    requires s'.rows == s.rows[e.sku := Row(
                 match e
                 case Put(_, item) => item
                 case Sold(sku, qty, _) => s.rows[sku].item.(reserved := s.rows[sku].item.reserved + qty)
                 case Stocked(sku, qty, _) => s.rows[sku].item.(onHand := s.rows[sku].item.onHand + qty), version)]
    ensures Serial(s') && AllCovered(s'.log) && Versioned(s')
  {
    forall sku
      ensures Replay(s'.log, |s'.log|, sku) == if sku in s'.rows then Some(s'.rows[sku].item) else None
    {
      ReplayOfPrefix(s.log, e, |s.log|, sku);
    }
    forall i: nat | i < |s'.log|
      ensures Covered(s'.log, i)
    {
      ReplayOfPrefix(s.log, e, i, s'.log[i].sku);
      if i < |s.log| {
        assert Covered(s.log, i);
      }
    }
  }

  /** A committed write leaves every other request with a stale version. */
  lemma WriteOutdates(s: Sys, s': Sys, t: nat, sku: string, item: Item)
    requires AllRemember(s) && OneWriter(s)
    requires forall u :: u != t && PhaseOf(s, u).Written? ==> PhaseOf(s, u).sku != sku
    requires s'.rows == s.rows[sku := Row(item, if sku in s.rows then s.rows[sku].version + 1 else 1)]
    requires s'.requests == s.requests || s'.requests == s.requests[t := Idle]
    requires PhaseOf(s', t).Written? ==> PhaseOf(s', t).sku != sku
    ensures AllRemember(s') && OneWriter(s')
  {
    forall u
      ensures Remembers(s'.rows, PhaseOf(s', u))
    {
      assert Remembers(s.rows, PhaseOf(s, u));
    }
    forall u, v | PhaseOf(s', u).Written? && PhaseOf(s', v).Written? && PhaseOf(s', u).sku == PhaseOf(s', v).sku
      ensures u == v
    {
      assert PhaseOf(s, u).Written? && PhaseOf(s, v).Written?;
    }
  }

  /** A request moving on without a committed write. */
  lemma MoveKeepsInv(s: Sys, t: nat, p: Phase)
    requires Inv(s) && Remembers(s.rows, p)
    requires p.Written? ==> Unlocked(s, p.sku)
    ensures Inv(Move(s, t, p))
  {
    var s' := Move(s, t, p);
    forall u
      ensures Remembers(s'.rows, PhaseOf(s', u))
    {
      assert Remembers(s.rows, PhaseOf(s, u));
    }
    forall u, v | PhaseOf(s', u).Written? && PhaseOf(s', v).Written? && PhaseOf(s', u).sku == PhaseOf(s', v).sku
      ensures u == v
    {
      assert u != t ==> PhaseOf(s, u).Written?;
      assert v != t ==> PhaseOf(s, v).Written?;
    }
  }

  lemma CommitKeepsInv(s: Sys, t: nat)
    requires Inv(s) && PhaseOf(s, t).Written?
    ensures Inv(Apply(s, Commit(t)))
  {
    var p, s' := PhaseOf(s, t), Apply(s, Commit(t));
    assert Remembers(s.rows, p);
    LogStep(s, s', Sold(p.sku, p.qty, t), p.version + 1);
    WriteOutdates(s, s', t, p.sku, p.item.(reserved := p.item.reserved + p.qty));
  }

  lemma RestockKeepsInv(s: Sys, t: nat)
    requires Inv(s) && Enabled(s, RestockWrite(t))
    ensures Inv(Apply(s, RestockWrite(t)))
  {
    var p, s' := PhaseOf(s, t), Apply(s, RestockWrite(t));
    assert Remembers(s.rows, p);
    if p.version == s.rows[p.sku].version {
      LogStep(s, s', Stocked(p.sku, p.qty, t), p.version + 1);
      WriteOutdates(s, s', t, p.sku, p.item.(onHand := p.item.onHand + p.qty));
    } else {
      MoveKeepsInv(s, t, Idle);
    }
  }

  lemma PutKeepsInv(s: Sys, sku: string, item: Item)
    requires Inv(s) && Unlocked(s, sku)
    ensures Inv(Apply(s, PutItem(sku, item)))
  {
    var s' := Apply(s, PutItem(sku, item));
    LogStep(s, s', Put(sku, item), if sku in s.rows then s.rows[sku].version + 1 else 1);
    assert PhaseOf(s', 0) == PhaseOf(s, 0);
    WriteOutdates(s, s', 0, sku, item);
  }

  lemma StepKeepsInv(s: Sys, a: Action)
    requires Inv(s) && Enabled(s, a)
    ensures Inv(Apply(s, a))
  {
    match a
    case ReserveRead(t, sku, qty) =>
      if sku in s.rows && s.rows[sku].item.onHand - s.rows[sku].item.reserved >= qty {
        MoveKeepsInv(s, t, Decided(sku, qty, s.rows[sku].item, s.rows[sku].version));
      }
    case ReserveWrite(t) =>
      var p := PhaseOf(s, t);
      assert Remembers(s.rows, p);
      if p.version == s.rows[p.sku].version {
        MoveKeepsInv(s, t, Written(p.sku, p.qty, p.item, p.version));
      } else {
        MoveKeepsInv(s, t, Idle);
      }
    case Commit(t) => CommitKeepsInv(s, t);
    case Rollback(t) => MoveKeepsInv(s, t, Idle);
    case RestockRead(t, sku, qty) =>
      if sku in s.rows {
        MoveKeepsInv(s, t, Counting(sku, qty, s.rows[sku].item, s.rows[sku].version));
      }
    case RestockWrite(t) => RestockKeepsInv(s, t);
    case PutItem(sku, item) => PutKeepsInv(s, sku, item);
  }

  lemma {:induction false} RunKeepsInv(trace: seq<Sys>, acts: seq<Action>, i: nat)
    requires IsRun(trace, acts) && i <= |acts|
    ensures Inv(trace[i])
  {
    if i > 0 {
      RunKeepsInv(trace, acts, i - 1);
      StepKeepsInv(trace[i - 1], acts[i - 1]);
    }
  }

  // ----- what every run promises -----

  /**
  However the requests interleave, the stored levels are those of a serial execution of the committed changes,
  and in that execution every sale is covered by stock no other sale took.
  */
  lemma NoUnitIsSoldTwice(trace: seq<Sys>, acts: seq<Action>, i: nat)
    requires IsRun(trace, acts) && i <= |acts|
    ensures Serial(trace[i]) && AllCovered(trace[i].log)
  {
    RunKeepsInv(trace, acts, i);
  }

  function TotalSold(log: seq<Event>, from: nat, n: nat, sku: string): int
    requires from <= n <= |log|
  {
    if n == from then 0
    else TotalSold(log, from, n - 1, sku) + if log[n - 1].Sold? && log[n - 1].sku == sku then log[n - 1].qty else 0
  }

  function TotalStocked(log: seq<Event>, from: nat, n: nat, sku: string): int
    requires from <= n <= |log|
  {
    if n == from then 0
    else TotalStocked(log, from, n - 1, sku) + if log[n - 1].Stocked? && log[n - 1].sku == sku then log[n - 1].qty else 0
  }

  predicate NoPut(log: seq<Event>, from: nat, n: nat, sku: string)
    requires from <= n <= |log|
  {
    forall i :: from <= i < n ==> !(log[i].Put? && log[i].sku == sku)
  }

  lemma {:induction false} ReplayAddsUp(log: seq<Event>, from: nat, n: nat, sku: string)
    requires from <= n <= |log| && NoPut(log, from, n, sku) && Replay(log, from, sku).Some?
    ensures var was := Replay(log, from, sku).value;
            Replay(log, n, sku) ==
              Some(Item(was.onHand + TotalStocked(log, from, n, sku), was.reserved + TotalSold(log, from, n, sku)))
  {
    if n > from {
      ReplayAddsUp(log, from, n - 1, sku);
    }
  }

  lemma {:induction false} LogOnlyGrows(trace: seq<Sys>, acts: seq<Action>, i: nat, j: nat)
    requires IsRun(trace, acts) && i <= j <= |acts|
    ensures |trace[i].log| <= |trace[j].log| && trace[j].log[..|trace[i].log|] == trace[i].log
  {
    if i < j {
      LogOnlyGrows(trace, acts, i, j - 1);
    }
  }

  lemma {:induction false} ReplayOfPrefixes(log: seq<Event>, m: nat, n: nat, sku: string)
    requires n <= m <= |log|
    ensures Replay(log[..m], n, sku) == Replay(log, n, sku)
  {
    if n > 0 {
      ReplayOfPrefixes(log, m, n - 1, sku);
    }
  }

  /**
  Conservation between any two moments without a PutItem of that item in between: the reserved count grew by
  exactly the committed reservations and the stock by exactly the committed restocks.
  */
  lemma StockIsConserved(trace: seq<Sys>, acts: seq<Action>, i: nat, j: nat, sku: string)
    requires IsRun(trace, acts) && i <= j <= |acts| && sku in trace[i].rows
    requires |trace[i].log| <= |trace[j].log| && NoPut(trace[j].log, |trace[i].log|, |trace[j].log|, sku)
    ensures var log, from := trace[j].log, |trace[i].log|;
            && sku in trace[j].rows
            && trace[j].rows[sku].item.reserved == trace[i].rows[sku].item.reserved + TotalSold(log, from, |log|, sku)
            && trace[j].rows[sku].item.onHand == trace[i].rows[sku].item.onHand + TotalStocked(log, from, |log|, sku)
  {
    RunKeepsInv(trace, acts, i);
    RunKeepsInv(trace, acts, j);
    LogOnlyGrows(trace, acts, i, j);
    var log, from := trace[j].log, |trace[i].log|;
    ReplayOfPrefixes(log, from, from, sku);
    assert Replay(trace[i].log, from, sku) == Some(trace[i].rows[sku].item);
    ReplayAddsUp(log, from, |log|, sku);
    assert Replay(log, |log|, sku) == if sku in trace[j].rows then Some(trace[j].rows[sku].item) else None;
  }

  predicate WithinStock(item: Item) {
    item.reserved <= item.onHand
  }

  ghost predicate AllWithinStock(s: Sys) {
    forall sku :: sku in s.rows ==> WithinStock(s.rows[sku].item)
  }

  /** Reservations never exceed stock: only a PutItem that says so itself can break it. */
  lemma StepStaysWithinStock(s: Sys, a: Action)
    requires Inv(s) && Enabled(s, a) && AllWithinStock(s)
    ensures AllWithinStock(Apply(s, a)) <==> (a.PutItem? ==> WithinStock(a.item))
  {
    StepKeepsInv(s, a);
    if a.Commit? || a.RestockWrite? {
      assert Remembers(s.rows, PhaseOf(s, a.t));
    }
    if a.PutItem? {
      assert a.sku in Apply(s, a).rows;
    }
  }

  lemma {:induction false} RunStaysWithinStock(trace: seq<Sys>, acts: seq<Action>, i: nat)
    requires IsRun(trace, acts) && i <= |acts|
    requires forall k :: 0 <= k < i && acts[k].PutItem? ==> WithinStock(acts[k].item)
    ensures AllWithinStock(trace[i])
  {
    if i > 0 {
      RunStaysWithinStock(trace, acts, i - 1);
      RunKeepsInv(trace, acts, i - 1);
      StepStaysWithinStock(trace[i - 1], acts[i - 1]);
    }
  }
}

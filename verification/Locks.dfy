/**
Lease locks (core/hostsvc/memory.go, `MemoryLocks`).

`held` is the table the Go code keeps.  `grants` is what the callers were told: for every lease ever
handed out, the lock it is for, the deadline they last saw, and whether they gave it back.  Lease ids
are taken to be fresh and the clock never goes back.  Times are in nanoseconds.
*/
module Locks {
  import opened Common

  datatype Lock = Lock(lease: string, expiresAt: int)

  datatype Grant = Grant(key: string, deadline: int, released: bool)

  datatype Sys = Sys(held: map<string, Lock>, lastSweep: int, maxHeld: int, clock: int, grants: map<string, Grant>)

  datatype Action =
    | Acquire(plugin: string, name: string, ttl: int, lease: string, now: int)
    | Renew(plugin: string, name: string, lease: string, ttl: int, now: int)
    | Release(plugin: string, name: string, lease: string, now: int)

  const DEFAULT_TTL := 30_000_000_000
  const SWEEP_INTERVAL := 30_000_000_000
  const DEFAULT_MAX_LOCKS := 10_000

  function LockKey(plugin: string, name: string): string {
    Joined(plugin, name)
  }

  function Ttl(ttl: int): (t: int)
    ensures t > 0
  {
    if ttl <= 0 then DEFAULT_TTL else ttl
  }

  function Ceiling(maxHeld: int): (m: nat)
    ensures m > 0
  {
    if maxHeld > 0 then maxHeld else DEFAULT_MAX_LOCKS
  }

  /** A deadline is live while the clock is strictly before it. */
  predicate Expired(now: int, deadline: int) {
    !(now < deadline)
  }

  function Swept(held: map<string, Lock>, lastSweep: int, now: int): map<string, Lock> {
    if now - lastSweep < SWEEP_INTERVAL then held
    else map k | k in held && !Expired(now, held[k].expiresAt) :: held[k]
  }

  /** tryAcquire hands out the lock: it is free, and the table has room for it. */
  predicate Free(held: map<string, Lock>, maxHeld: int, key: string, now: int) {
    if key in held then Expired(now, held[key].expiresAt) else |held| < Ceiling(maxHeld)
  }

  /** The lease is the current, unexpired one. */
  predicate Current(held: map<string, Lock>, key: string, lease: string, now: int) {
    key in held && held[key].lease == lease && !Expired(now, held[key].expiresAt)
  }

  predicate Enabled(s: Sys, a: Action) {
    s.clock <= a.now && (a.Acquire? ==> a.lease !in s.grants)
  }

  function AcquireStep(s: Sys, key: string, ttl: int, lease: string, now: int): Sys {
    var held := Swept(s.held, s.lastSweep, now);
    var lastSweep := if now - s.lastSweep < SWEEP_INTERVAL then s.lastSweep else now;
    if !Free(held, s.maxHeld, key, now) then Sys(held, lastSweep, s.maxHeld, now, s.grants)
    else
      var deadline := now + Ttl(ttl);
      Sys(held[key := Lock(lease, deadline)], lastSweep, s.maxHeld, now, s.grants[lease := Grant(key, deadline, false)])
  }

  function RenewStep(s: Sys, key: string, lease: string, ttl: int, now: int): Sys {
    if !Current(s.held, key, lease, now) then s.(clock := now)
    else
      var deadline := now + Ttl(ttl);
      s.(clock := now, held := s.held[key := Lock(lease, deadline)], grants := s.grants[lease := Grant(key, deadline, false)])
  }

  function ReleaseStep(s: Sys, key: string, lease: string, now: int): Sys {
    s.(clock := now,
       held := if key in s.held && s.held[key].lease == lease then s.held - {key} else s.held,
       grants := if lease in s.grants && s.grants[lease].key == key
                 then s.grants[lease := s.grants[lease].(released := true)] else s.grants)
  }

  function Apply(s: Sys, a: Action): Sys {
    var key := LockKey(a.plugin, a.name);
    match a
    case Acquire(_, _, ttl, lease, now) => AcquireStep(s, key, ttl, lease, now)
    case Renew(_, _, lease, ttl, now) => RenewStep(s, key, lease, ttl, now)
    case Release(_, _, lease, now) => ReleaseStep(s, key, lease, now)
  }

  ghost predicate IsRun(trace: seq<Sys>, acts: seq<Action>) {
    && |trace| == |acts| + 1
    && trace[0].held == map[] && trace[0].grants == map[]
    && forall i :: 0 <= i < |acts| ==> Enabled(trace[i], acts[i]) && trace[i + 1] == Apply(trace[i], acts[i])
  }

  // ----- what every run keeps -----

  /** Someone holding this lease still believes, at time t, that they own the lock. */
  predicate Live(s: Sys, lease: string, t: int) {
    lease in s.grants && !s.grants[lease].released && t < s.grants[lease].deadline
  }

  /** The table only holds leases that were granted and not given back, with the deadline the holder saw. */
  ghost predicate Granted(s: Sys) {
    forall k :: k in s.held ==>
      s.held[k].lease in s.grants && s.grants[s.held[k].lease] == Grant(k, s.held[k].expiresAt, false)
  }

  predicate InTable(s: Sys, lease: string)
    requires lease in s.grants
  {
    s.grants[lease].key in s.held && s.held[s.grants[lease].key].lease == lease
  }

  /** Every lease that is still live is the one in the table. */
  ghost predicate Tabled(s: Sys) {
    forall lease :: Live(s, lease, s.clock) ==> InTable(s, lease)
  }

  ghost predicate Inv(s: Sys) {
    Granted(s) && Tabled(s) && |s.held| <= Ceiling(s.maxHeld)
  }

  lemma SweepShrinks(held: map<string, Lock>, lastSweep: int, now: int)
    ensures |Swept(held, lastSweep, now)| <= |held|
    ensures forall k :: k in held && k !in Swept(held, lastSweep, now) ==> Expired(now, held[k].expiresAt)
    ensures forall k :: k in Swept(held, lastSweep, now) ==> k in held && Swept(held, lastSweep, now)[k] == held[k]
  {
    SubsetSize(Swept(held, lastSweep, now).Keys, held.Keys);
  }

  lemma LiveSurvivesSweep(s: Sys, lease: string, now: int)
    requires Inv(s) && s.clock <= now && Live(s, lease, now)
    ensures var k := s.grants[lease].key;
            && InTable(s, lease) && s.held[k].expiresAt == s.grants[lease].deadline
            && k in Swept(s.held, s.lastSweep, now) && Swept(s.held, s.lastSweep, now)[k].lease == lease
            && !Free(Swept(s.held, s.lastSweep, now), s.maxHeld, k, now)
  {
    assert Live(s, lease, s.clock);
  }

  lemma AcquireKeepsInv(s: Sys, a: Action)
    requires Inv(s) && Enabled(s, a) && a.Acquire?
    ensures Inv(Apply(s, a))
  {
    var s' := Apply(s, a);
    SweepShrinks(s.held, s.lastSweep, a.now);
    forall lease | Live(s', lease, s'.clock)
      ensures InTable(s', lease)
    {
      if lease in s.grants {
        assert s'.grants[lease] == s.grants[lease];
        LiveSurvivesSweep(s, lease, a.now);
      }
    }
    AcquireKeepsRoom(s, LockKey(a.plugin, a.name), a.ttl, a.lease, a.now);
  }

  lemma AcquireKeepsRoom(s: Sys, key: string, ttl: int, lease: string, now: int)
    requires |s.held| <= Ceiling(s.maxHeld)
    ensures |AcquireStep(s, key, ttl, lease, now).held| <= Ceiling(s.maxHeld)
  {
    var held := Swept(s.held, s.lastSweep, now);
    SweepShrinks(s.held, s.lastSweep, now);
    assert held[key := Lock(lease, now + Ttl(ttl))].Keys == held.Keys + {key};
  }

  lemma RenewKeepsInv(s: Sys, a: Action)
    requires Inv(s) && Enabled(s, a) && a.Renew?
    ensures Inv(Apply(s, a))
  {
    var s' := Apply(s, a);
    assert s'.held.Keys == s.held.Keys;
    forall lease | Live(s', lease, s'.clock)
      ensures InTable(s', lease)
    {
      if lease != a.lease || s'.grants == s.grants {
        assert Live(s, lease, s.clock);
      }
    }
  }

  lemma ReleaseKeepsInv(s: Sys, a: Action)
    requires Inv(s) && Enabled(s, a) && a.Release?
    ensures Inv(Apply(s, a))
  {
    var s' := Apply(s, a);
    SubsetSize(s'.held.Keys, s.held.Keys);
    forall lease | Live(s', lease, s'.clock)
      ensures InTable(s', lease)
    {
      assert Live(s, lease, s.clock);
    }
  }

  lemma StepKeepsInv(s: Sys, a: Action)
    requires Inv(s) && Enabled(s, a)
    ensures Inv(Apply(s, a))
  {
    match a
    case Acquire(_, _, _, _, _) => AcquireKeepsInv(s, a);
    case Renew(_, _, _, _, _) => RenewKeepsInv(s, a);
    case Release(_, _, _, _) => ReleaseKeepsInv(s, a);
  }

  lemma {:induction false} RunKeepsInv(trace: seq<Sys>, acts: seq<Action>, i: nat)
    requires IsRun(trace, acts) && i <= |acts|
    ensures Inv(trace[i])
  {
    if i > 0 {
      RunKeepsInv(trace, acts, i - 1);
      StepKeepsInv(trace[i - 1], acts[i - 1]);
    }
  }

  /** Mutual exclusion: at no moment of any run are two leases on the same lock live. */
  lemma AtMostOneLive(trace: seq<Sys>, acts: seq<Action>, i: nat, a: string, b: string, t: int)
    requires IsRun(trace, acts) && i <= |acts| && trace[i].clock <= t
    requires Live(trace[i], a, t) && Live(trace[i], b, t)
    requires trace[i].grants[a].key == trace[i].grants[b].key
    ensures a == b
  {
    RunKeepsInv(trace, acts, i);
    assert Live(trace[i], a, trace[i].clock) && Live(trace[i], b, trace[i].clock);
  }

  /** The table never outgrows its ceiling. */
  lemma TableIsBounded(trace: seq<Sys>, acts: seq<Action>, i: nat)
    requires IsRun(trace, acts) && i <= |acts|
    ensures |trace[i].held| <= Ceiling(trace[i].maxHeld)
  {
    RunKeepsInv(trace, acts, i);
  }

  /** The lease was granted once and is not the one in the table any more. */
  predicate Lost(s: Sys, lease: string) {
    lease in s.grants && !InTable(s, lease)
  }

  /** A lease is lost the moment another one is granted on its lock. */
  lemma GrantSupersedes(s: Sys, a: Action, lease: string)
    requires Inv(s) && Enabled(s, a) && a.Acquire? && lease in s.grants
    requires s.grants[lease].key == LockKey(a.plugin, a.name) && a.lease in Apply(s, a).grants
    ensures Lost(Apply(s, a), lease)
  {
  }

  lemma LostStaysLost(s: Sys, a: Action, lease: string)
    requires Inv(s) && Enabled(s, a) && Lost(s, lease)
    ensures Lost(Apply(s, a), lease)
  {
    if a.Acquire? {
      SweepShrinks(s.held, s.lastSweep, a.now);
    }
  }

  /**
  Over whole runs: a lease that was superseded, or lost in any other way, never again extends or releases a lock,
  whatever name it is used with.
  */
  lemma {:induction false} SupersededIsPowerless(trace: seq<Sys>, acts: seq<Action>, i: nat, j: nat, lease: string)
    requires IsRun(trace, acts) && i <= j < |acts| && Lost(trace[i], lease)
    ensures Lost(trace[j], lease)
    ensures !acts[j].Acquire? && acts[j].lease == lease ==> trace[j + 1].held == trace[j].held
  {
    if i < j {
      SupersededIsPowerless(trace, acts, i, j - 1, lease);
      RunKeepsInv(trace, acts, j - 1);
      LostStaysLost(trace[j - 1], acts[j - 1], lease);
    }
    RunKeepsInv(trace, acts, j);
  }

  /**
  Nobody loses a live lock to somebody else's step: whoever holds a lease keeps it in the table until its
  deadline passes or a Release names it.
  */
  lemma LiveLeaseStays(s: Sys, a: Action, lease: string)
    requires Inv(s) && Enabled(s, a) && Live(s, lease, a.now)
    requires !(a.Release? && a.lease == lease)
    ensures Live(Apply(s, a), lease, a.now)
    ensures Apply(s, a).grants[lease].key == s.grants[lease].key
    ensures InTable(Apply(s, a), lease)
  {
    StepKeepsInv(s, a);
    assert Live(s, lease, s.clock);
    if a.Acquire? {
      SweepShrinks(s.held, s.lastSweep, a.now);
    }
  }

  // ----- what a caller is told -----

  /** The leases that are neither given back nor past their deadline. */
  function Outstanding(grants: map<string, Grant>, now: int): set<string> {
    set l | l in grants && !grants[l].released && now < grants[l].deadline
  }

  /** Once swept, the table has one entry for each lease outstanding. */
  lemma SweptCounts(s: Sys, now: int)
    requires Inv(s) && s.clock <= now && now - s.lastSweep >= 30_000_000_000
    ensures |Swept(s.held, s.lastSweep, now)| == |Outstanding(s.grants, now)|
  {
    var kept, out := Swept(s.held, s.lastSweep, now), Outstanding(s.grants, now);
    assert forall l :: l in out ==> Live(s, l, s.clock);
    Paired(kept.Keys, out, map k | k in kept :: kept[k].lease, map l | l in out :: s.grants[l].key);
  }

  /** Sets that two maps pair off have the same size. */
  lemma {:induction false} Paired(a: set<string>, b: set<string>, f: map<string, string>, g: map<string, string>)
    requires a <= f.Keys && forall x :: x in a ==> f[x] in b && f[x] in g && g[f[x]] == x
    requires b <= g.Keys && forall y :: y in b ==> g[y] in a && g[y] in f && f[g[y]] == y
    ensures |a| == |b|
    decreases |a|
  {
    if a == {} {
      assert forall y :: y in b ==> g[y] in a;
    } else {
      var x :| x in a;
      Paired(a - {x}, b - {f[x]}, f, g);
    }
  }

  /** Nobody the callers know of has the lock. */
  ghost predicate Unclaimed(s: Sys, key: string, now: int) {
    forall l :: l in s.grants && s.grants[l].key == key ==> s.grants[l].released || s.grants[l].deadline <= now
  }

  lemma UnclaimedMeans(s: Sys, key: string, now: int)
    requires Inv(s) && s.clock <= now
    ensures Unclaimed(s, key, now) <==> key in s.held ==> s.held[key].expiresAt <= now
  {
    if Unclaimed(s, key, now) {
      if key in s.held {
        assert s.grants[s.held[key].lease].key == key;
      }
    } else {
      var l :| l in s.grants && s.grants[l].key == key && !s.grants[l].released && now < s.grants[l].deadline;
      assert Live(s, l, s.clock);
    }
  }

  /**
  A lock is granted exactly when nobody has it and either its name is still in the table or there is room, where a table
  due for a sweep holds the leases outstanding.  The grant lasts as long as asked, or thirty seconds.
  */
  lemma AcquireGrantsExactly(s: Sys, a: Action)
    requires Inv(s) && Enabled(s, a) && a.Acquire?
    ensures var key, due := LockKey(a.plugin, a.name), a.now - s.lastSweep >= 30_000_000_000;
            a.lease in Apply(s, a).grants <==>
              && Unclaimed(s, key, a.now)
              && (key in s.held ||
                  (if due then |Outstanding(s.grants, a.now)| else |s.held|) < if s.maxHeld > 0 then s.maxHeld else 10_000)
    ensures Apply(s, a).grants ==
              if a.lease in Apply(s, a).grants
              then s.grants[a.lease := Grant(LockKey(a.plugin, a.name), a.now + if a.ttl <= 0 then 30_000_000_000 else a.ttl, false)]
              else s.grants
  {
    var key := LockKey(a.plugin, a.name);
    UnclaimedMeans(s, key, a.now);
    SweepShrinks(s.held, s.lastSweep, a.now);
    if a.now - s.lastSweep >= 30_000_000_000 {
      SweptCounts(s, a.now);
      if key in s.held && key !in Swept(s.held, s.lastSweep, a.now) {
        SubsetSize(Swept(s.held, s.lastSweep, a.now).Keys, s.held.Keys - {key});
      }
    }
  }

  /** What an attempt leaves in the table of the other names: all of them, or the unexpired once a sweep is due. */
  lemma AcquireSweepsExactly(s: Sys, a: Action, k: string)
    requires a.Acquire? && k != LockKey(a.plugin, a.name)
    ensures var due := a.now - s.lastSweep >= 30_000_000_000;
            && Apply(s, a).lastSweep == (if due then a.now else s.lastSweep)
            && (k in Apply(s, a).held <==> k in s.held && (due ==> a.now < s.held[k].expiresAt))
            && (k in Apply(s, a).held ==> Apply(s, a).held[k] == s.held[k])
  {
  }

  /** A lease can be extended exactly while it is outstanding, from now on and for as long as asked. */
  lemma RenewExtendsExactly(s: Sys, a: Action)
    requires Inv(s) && Enabled(s, a) && a.Renew?
    ensures Apply(s, a).grants ==
              if a.lease in Outstanding(s.grants, a.now) && s.grants[a.lease].key == LockKey(a.plugin, a.name)
              then s.grants[a.lease := s.grants[a.lease].(deadline := a.now + if a.ttl <= 0 then 30_000_000_000 else a.ttl)]
              else s.grants
    ensures Apply(s, a).clock == a.now
  {
    assert a.lease in Outstanding(s.grants, a.now) ==> Live(s, a.lease, s.clock);
  }

  // ----- the lock table -----

  class MemoryLocks {
    var held: map<string, Lock>
    var lastSweep: int
    const maxHeld: int
    ghost var clock: int
    ghost var grants: map<string, Grant>

    ghost function View(): Sys
      reads this
    {
      Sys(held, lastSweep, maxHeld, clock, grants)
    }

    ghost predicate Valid()
      reads this
    {
      Inv(View())
    }

    constructor (now: int, maxHeld: int)
      ensures Valid() && held == map[] && grants == map[] && lastSweep == now && this.maxHeld == maxHeld
    {
      this.held, this.lastSweep, this.maxHeld := map[], now, maxHeld;
      this.clock, this.grants := now, map[];
    }

    /** Drops expired locks, at most once per interval. */
    method SweepLocked(now: int)
      modifies this`held, this`lastSweep
      ensures held == Swept(old(held), old(lastSweep), now)
      ensures lastSweep == if now - old(lastSweep) < SWEEP_INTERVAL then old(lastSweep) else now
    {
      if now - lastSweep < SWEEP_INTERVAL {
        return;
      }
      lastSweep := now;
      var todo := held.Keys;
      while todo != {}
        invariant lastSweep == now
        invariant todo <= held.Keys <= old(held).Keys
        invariant forall k :: k in held ==> held[k] == old(held)[k]
        invariant forall k :: k in old(held) && k !in todo ==>
                    (k in held <==> !Expired(now, old(held)[k].expiresAt))
        decreases |todo|
      {
        var k :| k in todo;
        todo := todo - {k};
        if Expired(now, held[k].expiresAt) {
          held := held - {k};
        }
      }
    }

    /** One attempt at the lock; `lease` is the id a grant would carry. */
    method TryAcquire(plugin: string, name: string, ttl: int, lease: string, now: int) returns (granted: bool)
      requires Valid() && Enabled(View(), Acquire(plugin, name, ttl, lease, now))
      modifies this
      ensures Valid() && View() == Apply(old(View()), Acquire(plugin, name, ttl, lease, now))
      ensures granted <==> lease in grants
      ensures granted ==> Live(View(), lease, now)
      ensures granted ==> held[LockKey(plugin, name)] == Lock(lease, now + if ttl <= 0 then 30_000_000_000 else ttl)
    {
      StepKeepsInv(View(), Acquire(plugin, name, ttl, lease, now));
      SweepLocked(now);
      clock := now;
      var key := LockKey(plugin, name);
      if key in held {
        if !Expired(now, held[key].expiresAt) {
          return false;
        }
      } else if |held| >= Ceiling(maxHeld) {
        return false;
      }
      held := held[key := Lock(lease, now + Ttl(ttl))];
      grants := grants[lease := Grant(key, now + Ttl(ttl), false)];
      return true;
    }

    method Renew(plugin: string, name: string, lease: string, ttl: int, now: int) returns (renewed: bool)
      requires Valid() && Enabled(View(), Action.Renew(plugin, name, lease, ttl, now))
      modifies this`held, this`clock, this`grants
      ensures Valid() && View() == Apply(old(View()), Action.Renew(plugin, name, lease, ttl, now))
      ensures renewed <==> lease in Outstanding(old(grants), now) && old(grants)[lease].key == LockKey(plugin, name)
      ensures renewed ==> LockKey(plugin, name) in held
      ensures renewed ==> held[LockKey(plugin, name)] == Lock(lease, now + if ttl <= 0 then 30_000_000_000 else ttl)
    {
      StepKeepsInv(View(), Action.Renew(plugin, name, lease, ttl, now));
      assert lease in Outstanding(grants, now) ==> Live(View(), lease, clock);
      clock := now;
      var key := LockKey(plugin, name);
      if key !in held || held[key].lease != lease || Expired(now, held[key].expiresAt) {
        return false;
      }
      held := held[key := Lock(lease, now + Ttl(ttl))];
      grants := grants[lease := Grant(key, now + Ttl(ttl), false)];
      return true;
    }

    method Release(plugin: string, name: string, lease: string, ghost now: int)
      requires Valid() && Enabled(View(), Action.Release(plugin, name, lease, now))
      modifies this`held, this`clock, this`grants
      ensures Valid() && View() == Apply(old(View()), Action.Release(plugin, name, lease, now))
    {
      StepKeepsInv(View(), Action.Release(plugin, name, lease, now));
      clock := now;
      var key := LockKey(plugin, name);
      if key in held && held[key].lease == lease {
        held := held - {key};
      }
      if lease in grants && grants[lease].key == key {
        grants := grants[lease := grants[lease].(released := true)];
      }
    }
  }

  // ----- keys -----

  /**
  Two plugins can come to share a lock if and only if the key of one, closed by a NUL, starts the key of the other;
  one plugin's own names never collide.
  */
  lemma LockKeysCollideExactly(p: string, q: string)
    ensures p != q ==>
              ((exists n, m :: LockKey(p, n) == LockKey(q, m)) <==> HasPrefix(q, p + ['\0']) || HasPrefix(p, q + ['\0']))
    ensures p == q ==> forall n, m :: LockKey(p, n) == LockKey(q, m) ==> n == m
  {
    if p != q {
      JoinedCollide(p, q);
      if HasPrefix(q, p + ['\0']) || HasPrefix(p, q + ['\0']) {
        var n, m :| Joined(p, n) == Joined(q, m);
        assert LockKey(p, n) == LockKey(q, m);
      }
      if n, m :| LockKey(p, n) == LockKey(q, m) {
        assert Joined(p, n) == Joined(q, m);
      }
    } else {
      forall n, m | LockKey(p, n) == LockKey(q, m)
        ensures n == m
      {
        assert LockKey(p, n)[|p| + 1..] == n && LockKey(q, m)[|q| + 1..] == m;
      }
    }
  }

  /** In particular, plugins whose keys contain no NUL never share a lock. */
  lemma LockKeysAreSeparate(p: string, n: string, q: string, m: string)
    requires '\0' !in p && '\0' !in q && LockKey(p, n) == LockKey(q, m)
    ensures p == q && n == m
  {
    JoinedIsSeparate(p, n, q, m);
  }
}

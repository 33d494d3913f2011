/**
Smooth weighted round-robin over the replicas of one plugin (core/pluginhost/registry.go, `pick`).

The counters are mutable and persist between picks; the states of the replicas are read afresh by
every pick and may change at any moment, so they are parameters: `states` is what the weighted loop
reads and `later` what the fallback loop reads after it.
*/
module RoundRobin {
  import opened Common
  import opened Drain

  /** One process of a plugin: its identity and its normalised weight. */
  datatype Replica = Replica(id: nat, weight: int)

  /** NewInstance replaces a weight that is not positive by one. */
  function Normalised(weight: int): (w: int)
    ensures (weight >= 1 ==> w == weight) && (weight < 1 ==> w == 1)
  {
    if weight <= 0 then 1 else weight
  }

  predicate Servable(s: Life) {
    s == Ready || s == Draining
  }

  // ----- sums -----

  /** Sum of the first n entries. */
  function SumTo(s: seq<int>, n: nat): int
    requires n <= |s|
  {
    if n == 0 then 0 else SumTo(s, n - 1) + s[n - 1]
  }

  function Sum(s: seq<int>): int {
    SumTo(s, |s|)
  }

  lemma {:induction false} SumUpdate(s: seq<int>, i: nat, x: int, n: nat)
    requires i < |s| && n <= |s|
    ensures SumTo(s[i := x], n) == SumTo(s, n) + if i < n then x - s[i] else 0
  {
    if n > 0 {
      SumUpdate(s, i, x, n - 1);
    }
  }

  lemma {:induction false} SumAbove(s: seq<int>, bound: int, n: nat)
    requires n <= |s| && forall k :: 0 <= k < n ==> s[k] <= bound
    ensures SumTo(s, n) <= n * bound
  {
    if n > 0 {
      SumAbove(s, bound, n - 1);
    }
  }

  lemma {:induction false} SumBelow(s: seq<int>, bound: int, n: nat)
    requires n <= |s| && forall k :: 0 <= k < n ==> s[k] >= bound
    ensures SumTo(s, n) >= n * bound
  {
    if n > 0 {
      SumBelow(s, bound, n - 1);
    }
  }

  lemma {:induction false} NonNegativeSumZero(s: seq<int>, n: nat)
    requires n <= |s| && SumTo(s, n) == 0 && forall k :: 0 <= k < n ==> s[k] >= 0
    ensures forall k :: 0 <= k < n ==> s[k] == 0
  {
    if n > 0 {
      SumBelow(s, 0, n - 1);
      NonNegativeSumZero(s, n - 1);
    }
  }

  // ----- one pick as a function of the counters -----

  /** Every ready replica earns its weight. */
  function Boosted(w: seq<int>, cur: seq<int>, states: seq<Life>): (r: seq<int>)
    requires |w| == |cur| == |states|
  {
    seq(|cur|, i requires 0 <= i < |cur| => if states[i] == Ready then cur[i] + w[i] else cur[i])
  }

  /** Total weight of the ready replicas among the first n. */
  function ReadyTotal(w: seq<int>, states: seq<Life>, n: nat): int
    requires n <= |w| == |states|
  {
    if n == 0 then 0 else ReadyTotal(w, states, n - 1) + if states[n - 1] == Ready then w[n - 1] else 0
  }

  /** The first of the greatest ready entries among the first n, or -1 when none of them is ready. */
  function Best(v: seq<int>, states: seq<Life>, n: nat): (b: int)
    requires n <= |v| == |states|
    ensures -1 <= b < n
  {
    if n == 0 then -1 else
    var b := Best(v, states, n - 1);
    if states[n - 1] == Ready && (b < 0 || v[n - 1] > v[b]) then n - 1 else b
  }

  lemma {:induction false} BestIsFirstGreatest(v: seq<int>, states: seq<Life>, n: nat)
    requires n <= |v| == |states|
    ensures var b := Best(v, states, n);
            && (b == -1 <==> forall k :: 0 <= k < n ==> states[k] != Ready)
            && (b >= 0 ==> states[b] == Ready && forall k :: 0 <= k < n && states[k] == Ready ==> v[k] <= v[b])
            && (b >= 0 ==> forall k :: 0 <= k < b && states[k] == Ready ==> v[k] < v[b])
  {
    if n > 0 {
      BestIsFirstGreatest(v, states, n - 1);
    }
  }

  function FirstServable(states: seq<Life>, from: nat): (r: Option<nat>)
    requires from <= |states|
    ensures r.Some? ==> from <= r.value < |states| && Servable(states[r.value])
    ensures r.Some? ==> forall k :: from <= k < r.value ==> !Servable(states[k])
    ensures r.None? ==> forall k :: from <= k < |states| ==> !Servable(states[k])
    decreases |states| - from
  {
    if from == |states| then None
    else if Servable(states[from]) then Some(from)
    else FirstServable(states, from + 1)
  }

  /** What one pick chooses and what it leaves in the counters. */
  function Turn(w: seq<int>, cur: seq<int>, states: seq<Life>, later: seq<Life>): (r: (Option<nat>, seq<int>))
    requires |w| == |cur| == |states| == |later|
    ensures |r.1| == |cur|
    ensures r.0.Some? ==> r.0.value < |w|
  {
    if |w| == 0 then (None, cur)
    else if |w| == 1 then (if Servable(states[0]) then Some(0) else None, cur)
    else
      var v := Boosted(w, cur, states);
      var b := Best(v, states, |w|);
      if b < 0 then (FirstServable(later, 0), cur)
      else (Some(b), v[b := v[b] - ReadyTotal(w, states, |w|)])
  }

  /** The weights of the ready replicas, and zero for the others. */
  function ReadyWeights(w: seq<int>, states: seq<Life>): (r: seq<int>)
    requires |w| == |states|
    ensures |r| == |w|
  {
    seq(|w|, i requires 0 <= i < |w| => if states[i] == Ready then w[i] else 0)
  }

  lemma {:induction false} ReadyTotalIsSum(w: seq<int>, states: seq<Life>, n: nat)
    requires n <= |w| == |states|
    ensures ReadyTotal(w, states, n) == SumTo(ReadyWeights(w, states), n)
  {
    if n > 0 {
      ReadyTotalIsSum(w, states, n - 1);
    }
  }

  /** Nobody is ready: the counters stay, and the first replica that can still serve is taken, if there is one. */
  ghost predicate FallsBack(later: seq<Life>, cur: seq<int>, r: Option<nat>, next: seq<int>) {
    && next == cur
    && (r.None? <==> forall k :: 0 <= k < |later| ==> later[k] != Ready && later[k] != Draining)
    && (r.Some? ==> r.value < |later| && (later[r.value] == Ready || later[r.value] == Draining))
    && (r.Some? ==> forall k :: 0 <= k < r.value ==> later[k] != Ready && later[k] != Draining)
  }

  /**
  Somebody is ready: every ready replica is credited its weight, the first of the ready ones with the most credit is
  taken, and pays what was handed out.
  */
  ghost predicate Takes(w: seq<int>, cur: seq<int>, states: seq<Life>, r: Option<nat>, next: seq<int>)
    requires |w| == |cur| == |states|
  {
    && r.Some? && r.value < |w| && states[r.value] == Ready && |next| == |cur|
    && (forall k :: 0 <= k < |w| && states[k] == Ready ==> cur[k] + w[k] <= cur[r.value] + w[r.value])
    && (forall k :: 0 <= k < r.value && states[k] == Ready ==> cur[k] + w[k] < cur[r.value] + w[r.value])
    && forall k :: 0 <= k < |w| ==>
         next[k] == cur[k] + (if states[k] == Ready then w[k] else 0) - if k == r.value then Sum(ReadyWeights(w, states)) else 0
  }

  /** What a pick does: of one replica or none without counting, of several by credit, or by what can still serve. */
  lemma TurnMeans(w: seq<int>, cur: seq<int>, states: seq<Life>, later: seq<Life>)
    requires |w| == |cur| == |states| == |later|
    ensures var (r, next) := Turn(w, cur, states, later);
            && (|w| == 0 ==> r == None && next == cur)
            && (|w| == 1 ==> next == cur && r == if states[0] == Ready || states[0] == Draining then Some(0) else None)
            && (|w| > 1 && (forall k :: 0 <= k < |w| ==> states[k] != Ready) ==> FallsBack(later, cur, r, next))
            && (|w| > 1 && (exists k :: 0 <= k < |w| && states[k] == Ready) ==> Takes(w, cur, states, r, next))
  {
    if |w| > 1 {
      var v := Boosted(w, cur, states);
      BestIsFirstGreatest(v, states, |w|);
      ReadyTotalIsSum(w, states, |w|);
    }
  }

  lemma {:induction false} BoostAddsReadyTotal(w: seq<int>, cur: seq<int>, states: seq<Life>, n: nat)
    requires n <= |w| == |cur| == |states|
    ensures SumTo(Boosted(w, cur, states), n) == SumTo(cur, n) + ReadyTotal(w, states, n)
  {
    if n > 0 {
      BoostAddsReadyTotal(w, cur, states, n - 1);
    }
  }

  lemma TurnConservesSum(w: seq<int>, cur: seq<int>, states: seq<Life>, later: seq<Life>)
    requires |w| == |cur| == |states| == |later|
    ensures Sum(Turn(w, cur, states, later).1) == Sum(cur)
  {
    if |w| > 1 {
      var v := Boosted(w, cur, states);
      var b := Best(v, states, |w|);
      BoostAddsReadyTotal(w, cur, states, |w|);
      if b >= 0 {
        SumUpdate(v, b, v[b] - ReadyTotal(w, states, |w|), |w|);
      }
    }
  }

  // ----- arbitrary readiness -----

  /** Counters after a run of picks that see arbitrary states. */
  ghost function CountersAfter(w: seq<int>, seen: seq<(seq<Life>, seq<Life>)>): (cur: seq<int>)
    requires forall k :: 0 <= k < |seen| ==> |seen[k].0| == |w| == |seen[k].1|
    ensures |cur| == |w|
  {
    if seen == [] then seq(|w|, _ => 0)
    else
      var last := seen[|seen| - 1];
      Turn(w, CountersAfter(w, seen[..|seen| - 1]), last.0, last.1).1
  }

  lemma {:induction false} ZerosSum(s: seq<int>, n: nat)
    requires n <= |s| && forall k :: 0 <= k < n ==> s[k] == 0
    ensures SumTo(s, n) == 0
  {
    if n > 0 {
      ZerosSum(s, n - 1);
    }
  }

  /** The counters sum to zero in every reachable state, however readiness changed between picks. */
  lemma {:induction false} CountersAlwaysSumToZero(w: seq<int>, seen: seq<(seq<Life>, seq<Life>)>)
    requires forall k :: 0 <= k < |seen| ==> |seen[k].0| == |w| == |seen[k].1|
    ensures Sum(CountersAfter(w, seen)) == 0
  {
    if seen == [] {
      ZerosSum(CountersAfter(w, seen), |w|);
    } else {
      var before := seen[..|seen| - 1];
      var last := seen[|seen| - 1];
      CountersAlwaysSumToZero(w, before);
      TurnConservesSum(w, CountersAfter(w, before), last.0, last.1);
    }
  }

  // ----- every replica ready: exact fairness -----

  ghost predicate Weights(w: seq<int>) {
    |w| > 0 && forall k :: 0 <= k < |w| ==> w[k] >= 1
  }

  function AllReady(n: nat): (s: seq<Life>)
    ensures |s| == n && forall k :: 0 <= k < n ==> s[k] == Ready
  {
    seq(n, _ => Ready)
  }

  /** One pick with every replica ready moves the counters from c to d by choosing b. */
  ghost predicate TurnsTo(w: seq<int>, c: seq<int>, b: nat, d: seq<int>) {
    |c| == |w| && Turn(w, c, AllReady(|w|), AllReady(|w|)) == (Some(b), d)
  }

  /** `cs` are the counters before and after each of `picks`, starting from a new replica set. */
  ghost predicate IsRun(w: seq<int>, cs: seq<seq<int>>, picks: seq<nat>) {
    && |cs| == |picks| + 1
    && cs[0] == seq(|w|, _ => 0)
    && forall k :: 0 <= k < |picks| ==> TurnsTo(w, cs[k], picks[k], cs[k + 1])
  }

  /** How often replica i was chosen by the first n picks. */
  ghost function Chosen(picks: seq<nat>, i: nat, n: nat): nat
    requires n <= |picks|
  {
    if n == 0 then 0 else Chosen(picks, i, n - 1) + if picks[n - 1] == i then 1 else 0
  }

  lemma {:induction false} AllReadyTotal(w: seq<int>, n: nat)
    requires n <= |w|
    ensures ReadyTotal(w, AllReady(|w|), n) == SumTo(w, n)
  {
    if n > 0 {
      AllReadyTotal(w, n - 1);
    }
  }

  /** Everyone earns its weight and the leader, who then had the most, pays the total. */
  ghost predicate Pays(w: seq<int>, c: seq<int>, b: nat, d: seq<int>) {
    && b < |w| == |c| == |d|
    && (forall i :: 0 <= i < |w| ==> d[i] == c[i] + w[i] - if i == b then Sum(w) else 0)
    && (forall i :: 0 <= i < |w| ==> c[i] + w[i] <= c[b] + w[b])
  }

  lemma TurnPays(w: seq<int>, c: seq<int>, b: nat, d: seq<int>)
    requires TurnsTo(w, c, b, d)
    ensures Pays(w, c, b, d)
  {
    AllReadyTotal(w, |w|);
    BestIsFirstGreatest(Boosted(w, c, AllReady(|w|)), AllReady(|w|), |w|);
    if |w| == 1 {
      assert SumTo(w, 1) == SumTo(w, 0) + w[0];
    }
  }

  /** A run seen only through what each pick pays. */
  ghost predicate Schedule(w: seq<int>, cs: seq<seq<int>>, picks: seq<nat>) {
    && |cs| == |picks| + 1
    && (forall k :: 0 <= k < |cs| ==> |cs[k]| == |w|)
    && (forall i :: 0 <= i < |w| ==> cs[0][i] == 0)
    && (forall k :: 0 <= k < |picks| ==> Pays(w, cs[k], picks[k], cs[k + 1]) && Sum(cs[k]) == 0)
    && Sum(cs[|picks|]) == 0
  }

  lemma {:induction false} RunKeepsSum(w: seq<int>, cs: seq<seq<int>>, picks: seq<nat>, n: nat)
    requires IsRun(w, cs, picks) && n <= |picks|
    ensures |cs[n]| == |w| && Sum(cs[n]) == 0
  {
    if n == 0 {
      ZerosSum(cs[0], |w|);
    } else {
      RunKeepsSum(w, cs, picks, n - 1);
      assert TurnsTo(w, cs[n - 1], picks[n - 1], cs[n]);
      TurnConservesSum(w, cs[n - 1], AllReady(|w|), AllReady(|w|));
    }
  }

  lemma RunIsSchedule(w: seq<int>, cs: seq<seq<int>>, picks: seq<nat>)
    requires IsRun(w, cs, picks)
    ensures Schedule(w, cs, picks)
  {
    forall k | 0 <= k <= |picks|
      ensures |cs[k]| == |w| && Sum(cs[k]) == 0
    {
      RunKeepsSum(w, cs, picks, k);
    }
    forall k | 0 <= k < |picks|
      ensures Pays(w, cs[k], picks[k], cs[k + 1])
    {
      assert TurnsTo(w, cs[k], picks[k], cs[k + 1]);
      TurnPays(w, cs[k], picks[k], cs[k + 1]);
    }
  }

  lemma Distribute(a: int, b: int, c: int)
    ensures a * (b + c) == a * b + a * c
  {
  }

  /** counter i = n * w(i) - W * (times i was chosen) */
  lemma {:induction false} CounterForm(w: seq<int>, cs: seq<seq<int>>, picks: seq<nat>, i: nat, n: nat)
    requires Schedule(w, cs, picks) && i < |w| && n <= |picks|
    ensures cs[n][i] == n * w[i] - Sum(w) * Chosen(picks, i, n)
  {
    if n > 0 {
      CounterForm(w, cs, picks, i, n - 1);
      assert Pays(w, cs[n - 1], picks[n - 1], cs[n]);
      FormStep(cs[n - 1][i], n - 1, w[i], Sum(w), Chosen(picks, i, n - 1), picks[n - 1] == i);
    }
  }

  lemma FormStep(cur: int, n: int, weight: int, total: int, count: int, chosen: bool)
    requires cur == n * weight - total * count
    ensures cur + weight - (if chosen then total else 0)
         == (n + 1) * weight - total * (count + if chosen then 1 else 0)
  {
    Distribute(weight, n, 1);
    Distribute(total, count, 1);
  }

  lemma {:induction false} SumOfPairs(a: seq<int>, b: seq<int>, c: seq<int>, n: nat)
    requires n <= |a| == |b| == |c| && forall k :: 0 <= k < |a| ==> c[k] == a[k] + b[k]
    ensures SumTo(c, n) == SumTo(a, n) + SumTo(b, n)
  {
    if n > 0 {
      SumOfPairs(a, b, c, n - 1);
    }
  }

  /** Before paying, the leader is above zero, because all the earned counters together make up W. */
  lemma LeaderIsPositive(w: seq<int>, c: seq<int>, b: nat, d: seq<int>)
    requires Weights(w) && Pays(w, c, b, d) && Sum(c) == 0
    ensures c[b] + w[b] > 0
  {
    var earned := seq(|w|, i requires 0 <= i < |w| => c[i] + w[i]);
    SumOfPairs(c, w, earned, |w|);
    SumBelow(w, 1, |w|);
    if c[b] + w[b] <= 0 {
      SumAbove(earned, 0, |w|);
    }
  }

  /** No counter ever falls a whole round behind. */
  lemma {:induction false} CounterAboveMinusTotal(w: seq<int>, cs: seq<seq<int>>, picks: seq<nat>, i: nat, n: nat)
    requires Weights(w) && Schedule(w, cs, picks) && i < |w| && n <= |picks|
    ensures cs[n][i] > -Sum(w)
  {
    if n == 0 {
      SumBelow(w, 1, |w|);
    } else {
      CounterAboveMinusTotal(w, cs, picks, i, n - 1);
      LeaderIsPositive(w, cs[n - 1], picks[n - 1], cs[n]);
    }
  }

  lemma MultipleAbove(total: int, weight: int, count: int)
    requires total >= 1 && total * weight - total * count > -total
    ensures total * weight - total * count >= 0
  {
    if weight < count {
      Distribute(total, weight, -count);
      Distribute(total, weight - count + 1, -1);
    }
  }

  lemma ZeroProduct(total: int, d: int)
    requires total >= 1 && total * d == 0
    ensures d == 0
  {
  }

  lemma TotalIsPositive(w: seq<int>)
    requires Weights(w)
    ensures Sum(w) >= 1
  {
    SumBelow(w, 1, |w|);
  }

  /** The total weight. */
  ghost function Total(w: seq<int>): (t: nat)
    requires Weights(w)
    ensures t == Sum(w) >= 1
  {
    TotalIsPositive(w);
    Sum(w)
  }

  /** After W picks, W the total weight, every counter is back at zero. */
  lemma FullRound(w: seq<int>, cs: seq<seq<int>>, picks: seq<nat>)
    requires Weights(w) && Schedule(w, cs, picks) && |picks| >= Total(w)
    ensures forall i :: 0 <= i < |w| ==> cs[Total(w)][i] == 0
  {
    var total := Total(w);
    var cur := cs[total];
    forall i | 0 <= i < |w|
      ensures cur[i] >= 0
    {
      CounterForm(w, cs, picks, i, total);
      CounterAboveMinusTotal(w, cs, picks, i, total);
      MultipleAbove(total, w[i], Chosen(picks, i, total));
    }
    if total < |picks| {
      assert Pays(w, cs[total], picks[total], cs[total + 1]);
    }
    NonNegativeSumZero(cur, |w|);
  }

  /** The counters repeat every W picks. */
  lemma {:induction false} Periodic(w: seq<int>, cs: seq<seq<int>>, picks: seq<nat>, n: nat)
    requires Weights(w) && IsRun(w, cs, picks) && n + Total(w) <= |picks|
    ensures cs[n + Total(w)] == cs[n]
  {
    RunIsSchedule(w, cs, picks);
    if n == 0 {
      FullRound(w, cs, picks);
    } else {
      Periodic(w, cs, picks, n - 1);
      var m := n - 1 + Total(w);
      assert TurnsTo(w, cs[n - 1], picks[n - 1], cs[n]) && TurnsTo(w, cs[m], picks[m], cs[m + 1]);
    }
  }

  /**
  Any W consecutive picks, starting anywhere in a run with every replica ready, choose each replica
  exactly its weight many times, and leave the counters where they were.
  */
  lemma AnyWindowIsFair(w: seq<int>, cs: seq<seq<int>>, picks: seq<nat>, i: nat, n: nat)
    requires Weights(w) && IsRun(w, cs, picks) && i < |w|
    requires n + Total(w) <= |picks|
    ensures Chosen(picks, i, n + Total(w)) - Chosen(picks, i, n) == w[i]
    ensures cs[n + Total(w)] == cs[n]
  {
    Periodic(w, cs, picks, n);
    RunIsSchedule(w, cs, picks);
    EqualCountersAreFair(w, cs, picks, i, n, Total(w));
  }

  lemma EqualCountersAreFair(w: seq<int>, cs: seq<seq<int>>, picks: seq<nat>, i: nat, n: nat, total: nat)
    requires Schedule(w, cs, picks) && i < |w| && total == Sum(w) >= 1
    requires n + total <= |picks| && cs[n + total] == cs[n]
    ensures Chosen(picks, i, n + total) - Chosen(picks, i, n) == w[i]
  {
    CounterForm(w, cs, picks, i, n);
    CounterForm(w, cs, picks, i, n + total);
    SameCounter(n, w[i], total, Chosen(picks, i, n), Chosen(picks, i, n + total));
  }

  lemma SameCounter(n: int, weight: int, total: int, before: int, after: int)
    requires total >= 1 && n * weight - total * before == (n + total) * weight - total * after
    ensures after - before == weight
  {
    Distribute(weight, n, total);
    Distribute(total, before, weight);
    Distribute(total, after, -before - weight);
    ZeroProduct(total, after - before - weight);
  }

  /**
  Smoothness: after every single pick, not only at the end of a round, a replica has had less than one
  pick more, and at most |w| - 1 picks fewer, than its share n * w(i) / W.
  */
  lemma EveryPrefixIsSmooth(w: seq<int>, cs: seq<seq<int>>, picks: seq<nat>, i: nat, n: nat)
    requires Weights(w) && IsRun(w, cs, picks) && i < |w| && n <= |picks|
    ensures Sum(w) * Chosen(picks, i, n) < n * w[i] + Sum(w)
    ensures Sum(w) * Chosen(picks, i, n) >= n * w[i] - (|w| - 1) * Sum(w)
  {
    RunIsSchedule(w, cs, picks);
    CounterForm(w, cs, picks, i, n);
    CounterAboveMinusTotal(w, cs, picks, i, n);
    CounterBelow(w, cs, picks, i, n);
  }

  /** No counter gets further ahead than the others can be behind. */
  lemma CounterBelow(w: seq<int>, cs: seq<seq<int>>, picks: seq<nat>, i: nat, n: nat)
    requires Weights(w) && Schedule(w, cs, picks) && i < |w| && n <= |picks|
    ensures cs[n][i] <= (|w| - 1) * Sum(w)
  {
    var cur, total := cs[n], Sum(w);
    assert Sum(cur) == 0;
    var rest := cur[i := -total];
    forall k | 0 <= k < |rest|
      ensures rest[k] >= -total
    {
      if k != i {
        CounterAboveMinusTotal(w, cs, picks, k, n);
      }
    }
    SumBelow(rest, -total, |w|);
    SumUpdate(cur, i, -total, |w|);
    Distribute(total, |w| - 1, 1);
  }

  // ----- the replica set as an object -----

  ghost predicate IsBoosted(w: seq<int>, cur: seq<int>, states: seq<Life>, v: seq<int>) {
    && |w| == |cur| == |states| == |v|
    && forall k :: 0 <= k < |v| ==> v[k] == if states[k] == Ready then cur[k] + w[k] else cur[k]
  }

  class ReplicaSet {
    const instances: seq<Replica>
    const current: array<int>

    ghost predicate Valid() {
      current.Length == |instances|
    }

    ghost function Weight(): (w: seq<int>)
      ensures |w| == |instances|
    {
      seq(|instances|, i requires 0 <= i < |instances| => instances[i].weight)
    }

    constructor (instances: seq<Replica>)
      ensures Valid() && fresh(current) && this.instances == instances
      ensures current[..] == seq(|instances|, _ => 0)
    {
      this.instances := instances;
      current := new int[|instances|](_ => 0);
    }

    /** The weighted loop of pick: credit every ready replica and find the leader. */
    method Credit(states: seq<Life>) returns (best: int, total: int)
      requires Valid() && |states| == |instances|
      modifies current
      ensures Valid()
      ensures current[..] == Boosted(Weight(), old(current[..]), states)
      ensures best == Best(current[..], states, |states|)
      ensures total == ReadyTotal(Weight(), states, |states|)
    {
      ghost var w, cur := Weight(), current[..];
      assert IsBoosted(w, cur, states, Boosted(w, cur, states));
      ghost var v :| IsBoosted(w, cur, states, v);
      total, best := 0, -1;
      for idx := 0 to |instances|
        invariant IsBoosted(w, cur, states, v)
        invariant best == Best(v, states, idx)
        invariant total == ReadyTotal(w, states, idx)
        invariant forall k :: 0 <= k < idx ==> current[k] == v[k]
        invariant forall k :: idx <= k < |instances| ==> current[k] == cur[k]
      {
        if states[idx] == Ready {
          current[idx] := current[idx] + instances[idx].weight;
          total := total + instances[idx].weight;
          if best < 0 || current[idx] > current[best] {
            best := idx;
          }
        }
      }
      assert current[..] == v == Boosted(w, cur, states);
    }

    /** The fallback loop of pick. */
    method Fallback(later: seq<Life>) returns (r: Option<nat>)
      ensures r == FirstServable(later, 0)
    {
      for idx := 0 to |later|
        invariant FirstServable(later, 0) == FirstServable(later, idx)
      {
        if Servable(later[idx]) {
          return Some(idx);
        }
      }
      return None;
    }

    /** Picks among several replicas: credit the ready ones, charge the leader, or fall back. */
    method PickAmong(states: seq<Life>, later: seq<Life>) returns (r: Option<nat>)
      requires Valid() && |states| == |instances| == |later| > 1
      modifies current
      ensures Valid()
      ensures (r, current[..]) == Turn(Weight(), old(current[..]), states, later)
    {
      var best, total := Credit(states);
      BestIsFirstGreatest(current[..], states, |states|);
      if best < 0 {
        assert current[..] == old(current[..]);
        r := Fallback(later);
        return;
      }
      ghost var v := current[..];
      current[best] := current[best] - total;
      assert current[..] == v[best := v[best] - total];
      return Some(best);
    }

    method Pick(states: seq<Life>, later: seq<Life>) returns (r: Option<nat>)
      requires Valid() && |states| == |instances| == |later|
      modifies current
      ensures Valid()
      ensures (r, current[..]) == Turn(Weight(), old(current[..]), states, later)
      ensures |instances| == 1 ==> (r.Some? <==> states[0] == Ready || states[0] == Draining)
      ensures |instances| > 1 && (exists k :: 0 <= k < |states| && states[k] == Ready) ==>
                Takes(Weight(), old(current[..]), states, r, current[..])
      ensures |instances| > 1 && (forall k :: 0 <= k < |states| ==> states[k] != Ready) ==>
                FallsBack(later, old(current[..]), r, current[..])
    {
      TurnMeans(Weight(), current[..], states, later);
      if |instances| == 0 {
        return None;
      }
      if |instances| == 1 {
        return if Servable(states[0]) then Some(0) else None;
      }
      r := PickAmong(states, later);
    }
  }
}

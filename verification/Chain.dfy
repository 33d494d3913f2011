/**
The per-phase filter table (core/pipeline/chain.go).

BuildChain is handed the plugins in the order a Go map happened to yield them.  The main result is
that the finished chain does not depend on that order.
*/
module Chain {
  import opened Common
  import opened Ordering
  import Pathmatch

  datatype FilterDecl = FilterDecl(
    name: string,
    phase: string,
    order: int,
    failClosed: bool,
    timeoutMS: int,
    needsRequestBody: bool,
    needsResponseBody: bool,
    maxBodyBytes: int)

  /** A declaration with its patterns compiled; `methods` is None for all methods. */
  datatype CompiledFilter = CompiledFilter(decl: FilterDecl, paths: Pathmatch.Set, methods: Option<set<string>>)

  datatype Filter = Filter(
    pluginKey: string,
    decl: FilterDecl,
    compiled: CompiledFilter,
    timeout: int,
    maxBody: int,
    allowIdentityMutation: bool)

  datatype PluginFilters = PluginFilters(key: string, filters: seq<CompiledFilter>, allowIdentityMutation: bool)

  datatype Defaults = Defaults(timeout: int, maxBodyBytes: int)

  /** Timeouts are in milliseconds. */
  const DEFAULTS := Defaults(50, 0x10_0000)

  const PRE_ROUTE: nat := 1
  const AUTHENTICATE: nat := 2
  const AUTHORIZE: nat := 3
  const PRE_HANDLER: nat := 4
  const POST_HANDLER: nat := 5
  const ON_ERROR: nat := 6
  const LOG: nat := 7
  const PHASE_COUNT: nat := 8

  datatype Table = Table(
    phases: seq<seq<Filter>>,
    anyNeedsRequestBody: bool,
    maxRequestBody: int,
    anyNeedsResponseBody: bool)

  const EMPTY := Table([[], [], [], [], [], [], [], []], false, 0, false)

  /** The name of phase i + 1. */
  const PHASE_NAMES := ["pre_route", "authenticate", "authorize", "pre_handler", "post_handler", "on_error", "log"]

  function PhaseFromName(name: string): (p: Option<nat>)
    ensures p.None? <==> name !in PHASE_NAMES
    ensures p.Some? ==> 1 <= p.value < PHASE_COUNT && PHASE_NAMES[p.value - 1] == name
  {
    if name == "pre_route" then Some(PRE_ROUTE)
    else if name == "authenticate" then Some(AUTHENTICATE)
    else if name == "authorize" then Some(AUTHORIZE)
    else if name == "pre_handler" then Some(PRE_HANDLER)
    else if name == "post_handler" then Some(POST_HANDLER)
    else if name == "on_error" then Some(ON_ERROR)
    else if name == "log" then Some(LOG)
    else None
  }

  function Effective(d: Defaults): (r: Defaults)
    ensures r.timeout == d.timeout > 0 || (d.timeout <= 0 && r.timeout == 50)
    ensures r.maxBodyBytes == d.maxBodyBytes > 0 || (d.maxBodyBytes <= 0 && r.maxBodyBytes == 1_048_576)
  {
    Defaults(if d.timeout <= 0 then DEFAULTS.timeout else d.timeout,
             if d.maxBodyBytes <= 0 then DEFAULTS.maxBodyBytes else d.maxBodyBytes)
  }

  function MakeFilter(p: PluginFilters, cf: CompiledFilter, d: Defaults): Filter {
    Filter(p.key, cf.decl, cf,
           if cf.decl.timeoutMS > 0 then cf.decl.timeoutMS else d.timeout,
           if cf.decl.maxBodyBytes > 0 then cf.decl.maxBodyBytes else d.maxBodyBytes,
           p.allowIdentityMutation)
  }

  /** Declared order, then plugin key, then filter name. */
  predicate FilterLeq(a: Filter, b: Filter) {
    if a.decl.order != b.decl.order then a.decl.order < b.decl.order
    else if a.pluginKey != b.pluginKey then StrLess(a.pluginKey, b.pluginKey)
    else StrLeq(a.decl.name, b.decl.name)
  }

  lemma FilterLeqIsPreorder()
    ensures TotalPreorder(FilterLeq)
  {
    forall a: Filter, b: Filter
      ensures FilterLeq(a, b) || FilterLeq(b, a)
    {
      StrTotal(a.pluginKey, b.pluginKey);
      StrTotal(a.decl.name, b.decl.name);
    }
    forall a: Filter, b: Filter, c: Filter | FilterLeq(a, b) && FilterLeq(b, c)
      ensures FilterLeq(a, c)
    {
      FilterLeqTransitive(a, b, c);
    }
  }

  lemma FilterLeqTransitive(a: Filter, b: Filter, c: Filter)
    requires FilterLeq(a, b) && FilterLeq(b, c)
    ensures FilterLeq(a, c)
  {
    if a.decl.order == b.decl.order == c.decl.order {
      if a.pluginKey == b.pluginKey == c.pluginKey {
        StrTransitive(a.decl.name, b.decl.name, c.decl.name);
      } else if a.pluginKey != b.pluginKey && b.pluginKey != c.pluginKey {
        StrTransitive(a.pluginKey, b.pluginKey, c.pluginKey);
        if a.pluginKey == c.pluginKey {
          StrAntisymmetric(a.pluginKey, b.pluginKey);
        }
      }
    }
  }

  // ----- what a chain contains -----

  /** The filters one plugin contributes to one phase, in the order it declared them. */
  function Part(p: PluginFilters, cfs: seq<CompiledFilter>, d: Defaults, phase: nat): (r: seq<Filter>)
    ensures forall f :: f in r ==> f.pluginKey == p.key
  {
    if cfs == [] then []
    else
      var last := cfs[|cfs| - 1];
      Part(p, cfs[..|cfs| - 1], d, phase) +
      if PhaseFromName(last.decl.phase) == Some(phase) then [MakeFilter(p, last, d)] else []
  }

  /** The filters of all plugins for one phase, plugin after plugin. */
  function Collect(ps: seq<PluginFilters>, d: Defaults, phase: nat): seq<Filter> {
    if ps == [] then []
    else
      var last := ps[|ps| - 1];
      Collect(ps[..|ps| - 1], d, phase) + Part(last, last.filters, d, phase)
  }

  ghost predicate KnownPhases(ps: seq<PluginFilters>) {
    forall p, cf :: p in ps && cf in p.filters ==> PhaseFromName(cf.decl.phase).Some?
  }

  ghost predicate Wants(ps: seq<PluginFilters>, p: PluginFilters, cf: CompiledFilter) {
    p in ps && cf in p.filters && cf.decl.needsRequestBody
  }

  /** The largest body any filter asked for, and zero when none did. */
  ghost predicate LargestBody(ps: seq<PluginFilters>, d: Defaults, m: int) {
    && (forall p, cf :: Wants(ps, p, cf) ==> MakeFilter(p, cf, d).maxBody <= m)
    && m >= 0
    && (m == 0 || exists p, cf :: Wants(ps, p, cf) && MakeFilter(p, cf, d).maxBody == m)
  }

  ghost predicate AnyWantsResponse(ps: seq<PluginFilters>) {
    exists p, cf :: p in ps && cf in p.filters && cf.decl.needsResponseBody
  }

  ghost predicate AnyWantsRequest(ps: seq<PluginFilters>) {
    exists p, cf :: Wants(ps, p, cf)
  }

  /** `t` is the chain of the plugins `ps`: every phase holds exactly its filters, stably sorted. */
  ghost predicate IsChainOf(t: Table, ps: seq<PluginFilters>, d: Defaults) {
    && |t.phases| == PHASE_COUNT
    && (forall i :: 0 <= i < PHASE_COUNT ==> t.phases[i] == StableSort(FilterLeq, Collect(ps, d, i)))
    && t.anyNeedsRequestBody == AnyWantsRequest(ps)
    && t.anyNeedsResponseBody == AnyWantsResponse(ps)
    && LargestBody(ps, d, t.maxRequestBody)
  }

  // ----- order independence -----

  ghost predicate DistinctKeys(ps: seq<PluginFilters>) {
    forall i, j :: 0 <= i < j < |ps| ==> ps[i].key != ps[j].key
  }

  /** The same plugins, each once, in possibly different orders. */
  ghost predicate Rearranged(ps: seq<PluginFilters>, qs: seq<PluginFilters>) {
    DistinctKeys(ps) && DistinctKeys(qs) && forall p :: p in ps <==> p in qs
  }

  lemma {:induction false} ForeignClassEmpty(s: seq<Filter>, c: Filter)
    requires forall f :: f in s ==> f.pluginKey != c.pluginKey
    ensures Class(FilterLeq, s, c) == []
  {
    if s != [] {
      var f := s[0];
      ForeignClassEmpty(s[1..], c);
      if FilterLeq(f, c) && FilterLeq(c, f) {
        StrAntisymmetric(f.pluginKey, c.pluginKey);
      }
    }
  }

  /** Filters that compare equal come from one plugin, so their order is that plugin's own. */
  lemma {:induction false} ClassComesFromOnePlugin(
    ps: seq<PluginFilters>, d: Defaults, phase: nat, c: Filter, p: PluginFilters)
    requires DistinctKeys(ps) && p.key == c.pluginKey
    requires forall q :: q in ps && q.key == p.key ==> q == p
    ensures Class(FilterLeq, Collect(ps, d, phase), c) ==
            if p in ps then Class(FilterLeq, Part(p, p.filters, d, phase), c) else []
  {
    if ps != [] {
      var front, last := ps[..|ps| - 1], ps[|ps| - 1];
      assert ps == front + [last];
      ClassComesFromOnePlugin(front, d, phase, c, p);
      ClassConcat(FilterLeq, Collect(front, d, phase), Part(last, last.filters, d, phase), c);
      if last == p {
        assert p !in front;
      } else {
        ForeignClassEmpty(Part(last, last.filters, d, phase), c);
      }
    }
  }

  lemma SamePhase(ps: seq<PluginFilters>, qs: seq<PluginFilters>, d: Defaults, phase: nat)
    requires Rearranged(ps, qs)
    ensures StableSort(FilterLeq, Collect(ps, d, phase)) == StableSort(FilterLeq, Collect(qs, d, phase))
  {
    forall c: Filter
      ensures Class(FilterLeq, Collect(ps, d, phase), c) == Class(FilterLeq, Collect(qs, d, phase), c)
    {
      var p := if exists q :: q in ps && q.key == c.pluginKey
               then var q :| q in ps && q.key == c.pluginKey; q
               else PluginFilters(c.pluginKey, [], false);
      ClassComesFromOnePlugin(ps, d, phase, c, p);
      ClassComesFromOnePlugin(qs, d, phase, c, p);
    }
    FilterLeqIsPreorder();
    SortDependsOnClasses(FilterLeq, Collect(ps, d, phase), Collect(qs, d, phase));
  }

  /** A chain of some plugins is also the chain of the same plugins in any other order. */
  lemma ChainOfAnyOrder(ps: seq<PluginFilters>, qs: seq<PluginFilters>, d: Defaults, t: Table)
    requires Rearranged(ps, qs) && IsChainOf(t, ps, d)
    ensures IsChainOf(t, qs, d)
  {
    forall i | 0 <= i < PHASE_COUNT
      ensures t.phases[i] == StableSort(FilterLeq, Collect(qs, d, i))
    {
      SamePhase(ps, qs, d, i);
    }
    forall p, cf
      ensures Wants(ps, p, cf) <==> Wants(qs, p, cf)
    {
    }
  }

  /** The chain is the same whatever order the plugins were enumerated in. */
  lemma ChainIgnoresPluginOrder(
    ps: seq<PluginFilters>, qs: seq<PluginFilters>, d: Defaults, t: Table, u: Table)
    requires Rearranged(ps, qs)
    requires IsChainOf(t, ps, d) && IsChainOf(u, qs, d)
    ensures t == u
  {
    ChainOfAnyOrder(ps, qs, d, t);
    assert t.phases == u.phases;
  }

  /** Every phase is sorted and holds each of its filters exactly as often as it was declared. */
  lemma EachFilterOnceInItsPhase(t: Table, ps: seq<PluginFilters>, d: Defaults, phase: nat)
    requires IsChainOf(t, ps, d) && phase < PHASE_COUNT
    ensures Sorted(FilterLeq, t.phases[phase])
    ensures multiset(t.phases[phase]) == multiset(Collect(ps, d, phase))
  {
    FilterLeqIsPreorder();
    StableSortSpec(FilterLeq, Collect(ps, d, phase));
  }

  /** The filter this declaration of this plugin makes in this phase: its own limits where it gives them. */
  predicate Declares(p: PluginFilters, cf: CompiledFilter, d: Defaults, phase: nat, f: Filter) {
    && 0 < phase <= 7
    && cf.decl.phase == ["pre_route", "authenticate", "authorize", "pre_handler", "post_handler", "on_error", "log"][phase - 1]
    && f.pluginKey == p.key && f.decl == cf.decl && f.compiled == cf && f.allowIdentityMutation == p.allowIdentityMutation
    && f.timeout == (if cf.decl.timeoutMS <= 0 then d.timeout else cf.decl.timeoutMS)
    && f.maxBody == (if cf.decl.maxBodyBytes <= 0 then d.maxBodyBytes else cf.decl.maxBodyBytes)
  }

  lemma DeclaresMeans(p: PluginFilters, cf: CompiledFilter, d: Defaults, phase: nat, f: Filter)
    ensures Declares(p, cf, d, phase, f) <==> PhaseFromName(cf.decl.phase) == Some(phase) && f == MakeFilter(p, cf, d)
  {
  }

  ghost predicate DeclaredBy(p: PluginFilters, cfs: seq<CompiledFilter>, d: Defaults, phase: nat, f: Filter) {
    exists cf :: cf in cfs && Declares(p, cf, d, phase, f)
  }

  lemma {:induction false} PartMeans(p: PluginFilters, cfs: seq<CompiledFilter>, d: Defaults, phase: nat, f: Filter)
    ensures f in Part(p, cfs, d, phase) <==> DeclaredBy(p, cfs, d, phase, f)
  {
    if cfs != [] {
      var front, last := cfs[..|cfs| - 1], cfs[|cfs| - 1];
      PartMeans(p, front, d, phase, f);
      assert cfs == front + [last];
      DeclaresMeans(p, last, d, phase, f);
      if DeclaredBy(p, front, d, phase, f) {
        var cf :| cf in front && Declares(p, cf, d, phase, f);
        assert cf in cfs;
      }
      if Declares(p, last, d, phase, f) {
        assert last in cfs;
      }
    }
  }

  lemma {:induction false} CollectMeans(ps: seq<PluginFilters>, d: Defaults, phase: nat, f: Filter)
    ensures f in Collect(ps, d, phase) <==> exists p :: p in ps && DeclaredBy(p, p.filters, d, phase, f)
  {
    if ps != [] {
      var front, last := ps[..|ps| - 1], ps[|ps| - 1];
      CollectMeans(front, d, phase, f);
      PartMeans(last, last.filters, d, phase, f);
      assert ps == front + [last];
    }
  }

  /** This filter runs first: smaller order, then smaller plugin key, then smaller name. */
  predicate RunsFirst(a: Filter, b: Filter) {
    || a.decl.order < b.decl.order
    || (a.decl.order == b.decl.order && StrLess(a.pluginKey, b.pluginKey))
    || (a.decl.order == b.decl.order && a.pluginKey == b.pluginKey && StrLess(a.decl.name, b.decl.name))
  }

  /** A phase of a chain: exactly the filters some plugin declares for it, and none after one it runs before. */
  lemma PhaseMeans(t: Table, ps: seq<PluginFilters>, d: Defaults, phase: nat)
    requires IsChainOf(t, ps, d) && phase < PHASE_COUNT
    ensures forall f :: f in t.phases[phase] <==> exists p :: p in ps && DeclaredBy(p, p.filters, d, phase, f)
    ensures forall i, j :: 0 <= i < j < |t.phases[phase]| ==> !RunsFirst(t.phases[phase][j], t.phases[phase][i])
  {
    EachFilterOnceInItsPhase(t, ps, d, phase);
    var fs := t.phases[phase];
    forall f
      ensures f in fs <==> exists p :: p in ps && DeclaredBy(p, p.filters, d, phase, f)
    {
      CollectMeans(ps, d, phase, f);
      assert f in multiset(fs) <==> f in multiset(Collect(ps, d, phase));
    }
    forall i, j | 0 <= i < j < |fs|
      ensures !RunsFirst(fs[j], fs[i])
    {
      NotBefore(fs[i], fs[j]);
    }
  }

  lemma NotBefore(a: Filter, b: Filter)
    requires FilterLeq(a, b)
    ensures !RunsFirst(b, a)
  {
    if StrLess(b.pluginKey, a.pluginKey) && StrLess(a.pluginKey, b.pluginKey) {
      StrAntisymmetric(a.pluginKey, b.pluginKey);
    }
    if StrLess(b.decl.name, a.decl.name) && StrLeq(a.decl.name, b.decl.name) {
      StrAntisymmetric(a.decl.name, b.decl.name);
    }
  }

  // ----- counting -----

  function Lengths(phases: seq<seq<Filter>>): nat {
    if phases == [] then 0 else Lengths(phases[..|phases| - 1]) + |phases[|phases| - 1]|
  }

  method Len(t: Table) returns (n: nat)
    ensures n == Lengths(t.phases)
  {
    n := 0;
    for i := 0 to |t.phases|
      invariant n == Lengths(t.phases[..i])
    {
      assert t.phases[..i + 1][..i] == t.phases[..i];
      n := n + |t.phases[i]|;
    }
    assert t.phases[..|t.phases|] == t.phases;
  }

  // ----- building -----

  /** The state of the collecting loops after all of `ps` and the first filters `cfs` of plugin p. */
  ghost predicate Collected(
    t: Table, ps: seq<PluginFilters>, p: PluginFilters, cfs: seq<CompiledFilter>, d: Defaults)
  {
    && |t.phases| == PHASE_COUNT
    && (forall i :: 0 <= i < PHASE_COUNT ==> t.phases[i] == Collect(ps, d, i) + Part(p, cfs, d, i))
    && Flags(t, ps + [p.(filters := cfs)], d)
  }

  ghost predicate Flags(t: Table, ps: seq<PluginFilters>, d: Defaults) {
    && t.anyNeedsRequestBody == AnyWantsRequest(ps)
    && t.anyNeedsResponseBody == AnyWantsResponse(ps)
    && LargestBody(ps, d, t.maxRequestBody)
  }

  function AddFilter(t: Table, phase: nat, f: Filter): Table
    requires phase < |t.phases|
  {
    Table(t.phases[phase := t.phases[phase] + [f]],
          t.anyNeedsRequestBody || f.decl.needsRequestBody,
          if f.decl.needsRequestBody && f.maxBody > t.maxRequestBody then f.maxBody else t.maxRequestBody,
          t.anyNeedsResponseBody || f.decl.needsResponseBody)
  }

  /** Filters that want the request body still do after one more declaration. */
  lemma StillWants(
    ps: seq<PluginFilters>, p: PluginFilters, cfs: seq<CompiledFilter>, cf: CompiledFilter, d: Defaults,
    x: PluginFilters, c: CompiledFilter)
    returns (y: PluginFilters)
    requires Wants(ps + [p.(filters := cfs)], x, c)
    ensures Wants(ps + [p.(filters := cfs + [cf])], y, c) && MakeFilter(y, c, d) == MakeFilter(x, c, d)
  {
    y := if x in ps then x else p.(filters := cfs + [cf]);
  }

  /** And only the new one joins them. */
  lemma WantedAlready(
    ps: seq<PluginFilters>, p: PluginFilters, cfs: seq<CompiledFilter>, cf: CompiledFilter, d: Defaults,
    y: PluginFilters, c: CompiledFilter)
    returns (x: PluginFilters)
    requires Wants(ps + [p.(filters := cfs + [cf])], y, c)
    ensures (c == cf && MakeFilter(y, c, d) == MakeFilter(p, cf, d)) ||
            (Wants(ps + [p.(filters := cfs)], x, c) && MakeFilter(x, c, d) == MakeFilter(y, c, d))
  {
    x := if y in ps then y else p.(filters := cfs);
  }

  lemma AddKeepsFlags(
    t: Table, ps: seq<PluginFilters>, p: PluginFilters, cfs: seq<CompiledFilter>, cf: CompiledFilter,
    d: Defaults, phase: nat)
    requires phase < |t.phases| && Flags(t, ps + [p.(filters := cfs)], d)
    ensures Flags(AddFilter(t, phase, MakeFilter(p, cf, d)), ps + [p.(filters := cfs + [cf])], d)
  {
    AddKeepsResponseFlag(ps, p, cfs, cf);
    AddKeepsRequestFlag(ps, p, cfs, cf, d);
    AddKeepsLargest(ps, p, cfs, cf, d, t.maxRequestBody);
  }

  lemma AddKeepsRequestFlag(
    ps: seq<PluginFilters>, p: PluginFilters, cfs: seq<CompiledFilter>, cf: CompiledFilter, d: Defaults)
    ensures AnyWantsRequest(ps + [p.(filters := cfs + [cf])]) <==>
            AnyWantsRequest(ps + [p.(filters := cfs)]) || cf.decl.needsRequestBody
  {
    var qs, rs := ps + [p.(filters := cfs)], ps + [p.(filters := cfs + [cf])];
    if x, c :| Wants(qs, x, c) {
      var _ := StillWants(ps, p, cfs, cf, d, x, c);
    }
    if y, c :| Wants(rs, y, c) {
      var _ := WantedAlready(ps, p, cfs, cf, d, y, c);
    }
    if cf.decl.needsRequestBody {
      assert Wants(rs, p.(filters := cfs + [cf]), cf);
    }
  }

  lemma AddKeepsLargest(
    ps: seq<PluginFilters>, p: PluginFilters, cfs: seq<CompiledFilter>, cf: CompiledFilter, d: Defaults, m: int)
    requires LargestBody(ps + [p.(filters := cfs)], d, m)
    ensures var f := MakeFilter(p, cf, d);
            LargestBody(ps + [p.(filters := cfs + [cf])], d, if f.decl.needsRequestBody && f.maxBody > m then f.maxBody else m)
  {
    var qs, rs, f := ps + [p.(filters := cfs)], ps + [p.(filters := cfs + [cf])], MakeFilter(p, cf, d);
    var n := if f.decl.needsRequestBody && f.maxBody > m then f.maxBody else m;
    forall y, c | Wants(rs, y, c)
      ensures MakeFilter(y, c, d).maxBody <= n
    {
      var _ := WantedAlready(ps, p, cfs, cf, d, y, c);
    }
    if n != m {
      assert Wants(rs, p.(filters := cfs + [cf]), cf);
    } else if m != 0 {
      var x, c :| Wants(qs, x, c) && MakeFilter(x, c, d).maxBody == m;
      var _ := StillWants(ps, p, cfs, cf, d, x, c);
    }
  }

  lemma AddKeepsResponseFlag(ps: seq<PluginFilters>, p: PluginFilters, cfs: seq<CompiledFilter>, cf: CompiledFilter)
    ensures AnyWantsResponse(ps + [p.(filters := cfs + [cf])]) <==>
            AnyWantsResponse(ps + [p.(filters := cfs)]) || cf.decl.needsResponseBody
  {
    var qs, rs := ps + [p.(filters := cfs)], ps + [p.(filters := cfs + [cf])];
    var q, r := p.(filters := cfs), p.(filters := cfs + [cf]);
    assert q in qs && r in rs && cf in r.filters;
    if AnyWantsResponse(qs) {
      var x, c :| x in qs && c in x.filters && c.decl.needsResponseBody;
      var y := if x in ps then x else r;
      assert y in rs && c in y.filters;
    }
    if AnyWantsResponse(rs) && !cf.decl.needsResponseBody {
      var y, c :| y in rs && c in y.filters && c.decl.needsResponseBody;
      var x := if y in ps then y else q;
      assert x in qs && c in x.filters;
    }
  }

  /** The state of the outer collecting loop after all of `ps`. */
  ghost predicate Built(t: Table, ps: seq<PluginFilters>, d: Defaults) {
    && |t.phases| == PHASE_COUNT
    && (forall i :: 0 <= i < PHASE_COUNT ==> t.phases[i] == Collect(ps, d, i))
    && Flags(t, ps, d)
  }

  lemma StartPlugin(t: Table, ps: seq<PluginFilters>, p: PluginFilters, d: Defaults)
    requires Built(t, ps, d)
    ensures Collected(t, ps, p, [], d)
  {
    var qs := ps + [p.(filters := [])];
    forall x, c
      ensures Wants(qs, x, c) <==> Wants(ps, x, c)
    {
    }
    assert AnyWantsResponse(qs) <==> AnyWantsResponse(ps) by {
      if AnyWantsResponse(ps) {
        var x, c :| x in ps && c in x.filters && c.decl.needsResponseBody;
        assert x in qs;
      }
    }
  }

  lemma NextFilter(
    t: Table, ps: seq<PluginFilters>, p: PluginFilters, cfs: seq<CompiledFilter>, cf: CompiledFilter, d: Defaults,
    phase: nat)
    requires Collected(t, ps, p, cfs, d) && PhaseFromName(cf.decl.phase) == Some(phase)
    ensures Collected(AddFilter(t, phase, MakeFilter(p, cf, d)), ps, p, cfs + [cf], d)
  {
    AddKeepsFlags(t, ps, p, cfs, cf, d, phase);
    assert (cfs + [cf])[..|cfs|] == cfs;
  }

  lemma EndPlugin(t: Table, ps: seq<PluginFilters>, p: PluginFilters, d: Defaults)
    requires Collected(t, ps, p, p.filters, d)
    ensures Built(t, ps + [p], d)
  {
    assert p.(filters := p.filters) == p;
    assert (ps + [p])[..|ps|] == ps;
  }

  /** Where the inner loop stands after j declarations of plugin p. */
  ghost predicate Gathered(t: Table, ps: seq<PluginFilters>, p: PluginFilters, j: nat, d: Defaults) {
    j <= |p.filters| && KnownUpTo(p.filters, j) && Collected(t, ps, p, p.filters[..j], d)
  }

  predicate KnownUpTo(cfs: seq<CompiledFilter>, j: nat) {
    j <= |cfs| && forall k :: 0 <= k < j ==> PhaseFromName(cfs[k].decl.phase).Some?
  }

  method AddDeclaration(t: Table, ghost ps: seq<PluginFilters>, p: PluginFilters, j: nat, d: Defaults)
    returns (r: Option<Table>)
    requires j < |p.filters| && Gathered(t, ps, p, j, d)
    ensures r.None? <==> PhaseFromName(p.filters[j].decl.phase).None?
    ensures r.Some? ==> Gathered(r.value, ps, p, j + 1, d)
  {
    var cf := p.filters[j];
    var phase := PhaseFromName(cf.decl.phase);
    if phase.None? {
      return None;
    }
    NextFilter(t, ps, p, p.filters[..j], cf, d, phase.value);
    assert p.filters[..j + 1] == p.filters[..j] + [cf];
    return Some(AddFilter(t, phase.value, MakeFilter(p, cf, d)));
  }

  /** The inner loop of BuildChain: one plugin's declarations. */
  method AddPlugin(t: Table, ghost ps: seq<PluginFilters>, p: PluginFilters, d: Defaults) returns (r: Option<Table>)
    requires Built(t, ps, d)
    ensures r.None? <==> exists cf :: cf in p.filters && PhaseFromName(cf.decl.phase).None?
    ensures r.Some? ==> Built(r.value, ps + [p], d)
  {
    var c := t;
    BeginPlugin(c, ps, p, d);
    for j := 0 to |p.filters|
      invariant Gathered(c, ps, p, j, d)
    {
      var next := AddDeclaration(c, ps, p, j, d);
      if next.None? {
        assert p.filters[j] in p.filters;
        return None;
      }
      c := next.value;
    }
    FinishPlugin(c, ps, p, d);
    return Some(c);
  }

  lemma BeginPlugin(t: Table, ps: seq<PluginFilters>, p: PluginFilters, d: Defaults)
    requires Built(t, ps, d)
    ensures Gathered(t, ps, p, 0, d)
  {
    StartPlugin(t, ps, p, d);
    assert p.filters[..0] == [];
  }

  lemma FinishPlugin(t: Table, ps: seq<PluginFilters>, p: PluginFilters, d: Defaults)
    requires Gathered(t, ps, p, |p.filters|, d)
    ensures Built(t, ps + [p], d)
    ensures forall cf :: cf in p.filters ==> PhaseFromName(cf.decl.phase).Some?
  {
    assert p.filters[..|p.filters|] == p.filters;
    EndPlugin(t, ps, p, d);
  }

  method BuildChain(plugins: seq<PluginFilters>, defaults: Defaults) returns (r: Option<Table>)
    ensures r.None? <==> !KnownPhases(plugins)
    ensures r.Some? ==> IsChainOf(r.value, plugins, Effective(defaults))
  {
    var d := Effective(defaults);
    var c := EMPTY;
    for i := 0 to |plugins|
      invariant KnownPhases(plugins[..i])
      invariant Built(c, plugins[..i], d)
    {
      assert plugins[..i + 1] == plugins[..i] + [plugins[i]];
      var next := AddPlugin(c, plugins[..i], plugins[i], d);
      if next.None? {
        assert plugins[i] in plugins;
        return None;
      }
      c := next.value;
    }
    assert plugins[..|plugins|] == plugins;
    c := SortPhases(c);
    return Some(c);
  }

  method SortPhases(t: Table) returns (r: Table)
    ensures r == t.(phases := r.phases) && |r.phases| == |t.phases|
    ensures forall k :: 0 <= k < |t.phases| ==> r.phases[k] == StableSort(FilterLeq, t.phases[k])
  {
    r := t;
    for i := 0 to |t.phases|
      invariant r == t.(phases := r.phases) && |r.phases| == |t.phases|
      invariant forall k :: 0 <= k < i ==> r.phases[k] == StableSort(FilterLeq, t.phases[k])
      invariant forall k :: i <= k < |t.phases| ==> r.phases[k] == t.phases[k]
    {
      r := r.(phases := r.phases[i := StableSort(FilterLeq, r.phases[i])]);
    }
  }
}

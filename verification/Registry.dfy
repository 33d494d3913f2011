/**
The routing registry (core/pluginhost/registry.go): registrations, and the immutable snapshot that
is rebuilt from them and published on every change.
*/
module Registry {
  import opened Chain
  import opened Common
  import opened RoundRobin

  datatype Registration = Registration(
    key: string,
    instances: seq<Replica>,
    filters: seq<CompiledFilter>,
    allowIdentityMutation: bool)

  /** A view of every routable plugin; replica sets are shared by reference between snapshots. */
  datatype Snapshot = Snapshot(plugins: map<string, ReplicaSet>, chain: Table, version: nat)

  function Contribution(reg: Registration): PluginFilters {
    PluginFilters(reg.key, reg.filters, reg.allowIdentityMutation)
  }

  /** `ps` enumerates, in some order, the registrations that declare filters. */
  ghost predicate Lists(ps: seq<PluginFilters>, regs: map<string, Registration>) {
    && DistinctKeys(ps)
    && (forall p :: p in ps ==> p.key in regs && regs[p.key].filters != [] && p == Contribution(regs[p.key]))
    && (forall k :: k in regs && regs[k].filters != [] ==> Contribution(regs[k]) in ps)
  }

  /** The chain the registrations call for; an unknown phase anywhere means no filters at all. */
  ghost predicate ChainFor(t: Table, ps: seq<PluginFilters>, defaults: Defaults) {
    if KnownPhases(ps) then IsChainOf(t, ps, Effective(defaults)) else t == EMPTY
  }

  ghost predicate WellKeyed(regs: map<string, Registration>) {
    forall k :: k in regs ==> regs[k].key == k && regs[k].instances != []
  }

  lemma ListsAreRearranged(ps: seq<PluginFilters>, qs: seq<PluginFilters>, regs: map<string, Registration>)
    requires WellKeyed(regs) && Lists(ps, regs) && Lists(qs, regs)
    ensures Rearranged(ps, qs)
  {
  }

  lemma ChainForAnyListing(
    t: Table, ps: seq<PluginFilters>, qs: seq<PluginFilters>, regs: map<string, Registration>, defaults: Defaults)
    requires WellKeyed(regs) && Lists(ps, regs) && Lists(qs, regs) && ChainFor(t, ps, defaults)
    ensures ChainFor(t, qs, defaults)
  {
    ListsAreRearranged(ps, qs, regs);
    assert KnownPhases(ps) == KnownPhases(qs);
    if KnownPhases(ps) {
      ChainOfAnyOrder(ps, qs, Effective(defaults), t);
    }
  }

  /** The snapshot routes exactly the registered plugins to exactly their instances, through their chain. */
  ghost predicate Mirrors(snap: Snapshot, regs: map<string, Registration>, defaults: Defaults) {
    && snap.plugins.Keys == regs.Keys
    && (forall k :: k in regs ==> snap.plugins[k].Valid() && snap.plugins[k].instances == regs[k].instances)
    && ChainOfAll(snap.chain, regs, defaults)
  }

  /** The chain is right however the registrations are listed. */
  ghost predicate ChainOfAll(t: Table, regs: map<string, Registration>, defaults: Defaults) {
    forall ps :: Lists(ps, regs) ==> ChainFor(t, ps, defaults)
  }

  /** Two snapshots of the same registrations route alike and carry the same chain. */
  lemma SnapshotIsDetermined(s: Snapshot, t: Snapshot, regs: map<string, Registration>, defaults: Defaults)
    requires WellKeyed(regs) && Mirrors(s, regs, defaults) && Mirrors(t, regs, defaults)
    ensures s.plugins.Keys == t.plugins.Keys
    ensures forall k :: k in s.plugins ==> s.plugins[k].instances == t.plugins[k].instances
    ensures s.chain == t.chain
  {
    var ps := ListingExists(regs, regs.Keys);
    assert Lists(ps, regs);
    assert ChainFor(s.chain, ps, defaults) && ChainFor(t.chain, ps, defaults);
    if KnownPhases(ps) {
      assert Rearranged(ps, ps);
      ChainIgnoresPluginOrder(ps, ps, Effective(defaults), s.chain, t.chain);
    }
  }

  /** `ps` enumerates those of some of the registrations that declare filters. */
  ghost predicate ListsSome(ps: seq<PluginFilters>, regs: map<string, Registration>, keys: set<string>)
    requires keys <= regs.Keys
  {
    && DistinctKeys(ps)
    && (forall p :: p in ps ==> p.key in keys && regs[p.key].filters != [] && p == Contribution(regs[p.key]))
    && (forall k :: k in keys && regs[k].filters != [] ==> Contribution(regs[k]) in ps)
  }

  lemma ListOneMore(ps: seq<PluginFilters>, regs: map<string, Registration>, keys: set<string>, key: string)
    requires WellKeyed(regs) && keys <= regs.Keys && key in regs && key !in keys && ListsSome(ps, regs, keys)
    ensures ListsSome(if regs[key].filters != [] then ps + [Contribution(regs[key])] else ps, regs, keys + {key})
  {
  }

  /** Every set of registrations has a listing. */
  lemma {:induction false} ListingExists(regs: map<string, Registration>, keys: set<string>)
    returns (ps: seq<PluginFilters>)
    requires WellKeyed(regs) && keys <= regs.Keys
    ensures ListsSome(ps, regs, keys)
    decreases keys
  {
    if keys == {} {
      ps := [];
    } else {
      var k :| k in keys;
      ps := ListingExists(regs, keys - {k});
      ListOneMore(ps, regs, keys - {k}, k);
      assert keys - {k} + {k} == keys;
      if regs[k].filters != [] {
        ps := ps + [Contribution(regs[k])];
      }
    }
  }

  /** The old replica set can serve these instances. */
  predicate CarriesOver(old_: map<string, ReplicaSet>, key: string, instances: seq<Replica>) {
    key in old_ && old_[key].instances == instances
  }

  class Registry {
    var current: Snapshot
    var version: nat
    var regs: map<string, Registration>
    var defaults: Defaults

    ghost predicate Valid()
      reads this
    {
      && WellKeyed(regs)
      && current.version == version
      && Mirrors(current, regs, defaults)
    }

    constructor ()
      ensures Valid() && version == 0 && regs == map[]
    {
      current := Snapshot(map[], EMPTY, 0);
      version := 0;
      regs := map[];
      defaults := DEFAULTS;
      new;
      forall ps | Lists(ps, regs)
        ensures ChainFor(EMPTY, ps, defaults)
      {
        EmptyChainOfNothing(ps);
      }
    }

    /** The replica set that will serve one key: the old one when its instances are unchanged. */
    method Carry(old_: map<string, ReplicaSet>, key: string, instances: seq<Replica>) returns (rs: ReplicaSet)
      ensures rs.instances == instances && rs.Valid()
      ensures if CarriesOver(old_, key, instances) then rs == old_[key]
              else fresh(rs) && fresh(rs.current) && rs.current[..] == seq(|instances|, _ => 0)
      requires key in old_ ==> old_[key].Valid()
    {
      if key in old_ && old_[key].instances == instances {
        rs := old_[key];
      } else {
        rs := new ReplicaSet(instances);
      }
    }

    /** Walk the registrations in whatever order the map yields them. */
    method CollectPlugins() returns (plugins: map<string, ReplicaSet>, pfs: seq<PluginFilters>)
      requires WellKeyed(regs)
      requires forall k :: k in current.plugins ==> current.plugins[k].Valid()
      ensures plugins.Keys == regs.Keys
      ensures forall k :: k in regs ==> plugins[k].Valid() && plugins[k].instances == regs[k].instances
      ensures forall k :: k in regs && CarriesOver(current.plugins, k, regs[k].instances) ==> plugins[k] == current.plugins[k]
      ensures forall k :: k in regs && !CarriesOver(current.plugins, k, regs[k].instances) ==>
                fresh(plugins[k]) && plugins[k].current[..] == seq(|regs[k].instances|, _ => 0)
      ensures Lists(pfs, regs)
    {
      plugins, pfs := map[], [];
      var todo := regs.Keys;
      while todo != {}
        invariant todo <= regs.Keys && plugins.Keys == regs.Keys - todo
        invariant forall k :: k in plugins ==> plugins[k].Valid() && plugins[k].instances == regs[k].instances
        invariant forall k :: k in plugins && CarriesOver(current.plugins, k, regs[k].instances) ==> plugins[k] == current.plugins[k]
        invariant forall k :: k in plugins && !CarriesOver(current.plugins, k, regs[k].instances) ==>
                    fresh(plugins[k]) && fresh(plugins[k].current) && plugins[k].current[..] == seq(|regs[k].instances|, _ => 0)
        invariant ListsSome(pfs, regs, regs.Keys - todo)
        decreases todo
      {
        var key :| key in todo;
        var reg := regs[key];
        ListOneMore(pfs, regs, regs.Keys - todo, key);
        assert regs.Keys - todo + {key} == regs.Keys - (todo - {key});
        var rs := Carry(current.plugins, key, reg.instances);
        plugins := plugins[key := rs];
        if reg.filters != [] {
          pfs := pfs + [Contribution(reg)];
        }
        todo := todo - {key};
      }
    }

    /** The chain of the collected plugins, or an empty one when that fails. */
    method ChainOrNone(pfs: seq<PluginFilters>, defaults: Defaults, ghost regs: map<string, Registration>)
      returns (chain: Table)
      requires WellKeyed(regs) && Lists(pfs, regs)
      ensures ChainOfAll(chain, regs, defaults)
    {
      var built := BuildChain(pfs, defaults);
      chain := if built.None? then EMPTY else built.value;
      forall ps | Lists(ps, regs)
        ensures ChainFor(chain, ps, defaults)
      {
        ChainForAnyListing(chain, pfs, ps, regs, defaults);
      }
    }

    /** rebuildLocked and publishLocked: the next snapshot, from the registrations alone. */
    method Rebuild()
      requires WellKeyed(regs)
      requires forall k :: k in current.plugins ==> current.plugins[k].Valid()
      modifies this`current, this`version
      ensures Valid()
      ensures version == old(version) + 1
      ensures forall k :: k in regs && k in old(current.plugins) && old(current.plugins)[k].instances == regs[k].instances
                ==> current.plugins[k] == old(current.plugins)[k]
      ensures forall k :: k in regs && !(k in old(current.plugins) && old(current.plugins)[k].instances == regs[k].instances)
                ==> fresh(current.plugins[k]) && current.plugins[k].current[..] == seq(|regs[k].instances|, _ => 0)
    {
      var plugins, pfs := CollectPlugins();
      var chain := ChainOrNone(pfs, defaults, regs);
      version := version + 1;
      current := Snapshot(plugins, chain, version);
    }

    /** Register, replace or (with no instances) remove a plugin; returns the displaced instances. */
    method InstallPlugin(reg: Registration) returns (displaced: seq<Replica>)
      requires Valid()
      modifies this`current, this`version, this`regs
      ensures Valid()
      ensures regs == if reg.instances == [] then old(regs) - {reg.key} else old(regs)[reg.key := reg]
      ensures version == old(version) + 1
      ensures displaced == if reg.key in old(regs) then old(regs)[reg.key].instances else []
      // every other plugin, and this one when its processes did not change, keeps its round-robin position
      ensures forall k :: k in regs && k in old(regs) && old(regs)[k].instances == regs[k].instances
                ==> current.plugins[k] == old(current.plugins)[k]
      ensures forall k :: k in regs && !(k in old(regs) && old(regs)[k].instances == regs[k].instances)
                ==> fresh(current.plugins[k]) && current.plugins[k].current[..] == seq(|regs[k].instances|, _ => 0)
    {
      displaced := if reg.key in current.plugins then current.plugins[reg.key].instances else [];
      if |reg.instances| == 0 {
        regs := regs - {reg.key};
      } else {
        regs := regs[reg.key := reg];
      }
      Rebuild();
    }

    /** Take a plugin out of rotation. */
    method Remove(key: string) returns (displaced: seq<Replica>)
      requires Valid()
      modifies this`current, this`version, this`regs
      ensures Valid() && key !in current.plugins && regs == old(regs) - {key}
      ensures displaced == if key in old(regs) then old(regs)[key].instances else []
    {
      displaced := InstallPlugin(Registration(key, [], [], false));
    }

    /** The registry half of DrainAll: nothing is routable afterwards. */
    method Clear()
      requires Valid()
      modifies this`current, this`version, this`regs
      ensures Valid() && regs == map[] && current.plugins == map[] && version == old(version) + 1
    {
      regs := map[];
      Rebuild();
    }
  }

  lemma EmptyChainOfNothing(ps: seq<PluginFilters>)
    requires Lists(ps, map[])
    ensures ps == [] && ChainFor(EMPTY, ps, DEFAULTS)
  {
    HasMember(ps);
  }

  lemma HasMember(ps: seq<PluginFilters>)
    ensures ps != [] ==> exists p :: p in ps
  {
    if ps != [] {
      assert ps[0] in ps;
    }
  }
}

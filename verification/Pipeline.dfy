/**
Running a phase of filters over one request (core/pipeline/runner.go, context.go and headers.go).

What the plugins answer is an arbitrary input: one `Env` per filter says whether the plugin is resolved,
whether its breaker allows the call, whether it admits the request and what it replies.
*/
module Pipeline {
  import opened Chain
  import opened Common
  import Pathmatch

  type Headers = map<string, seq<string>>

  type HeaderEdits = seq<(string, seq<string>)>  // in the order the edits are applied

  datatype Identity = Identity(userId: string, username: string, roles: seq<string>)

  datatype Response = Response(status: int, headers: Headers, body: string)

  datatype Mutation = Mutation(
    setRequest: HeaderEdits,
    removeRequest: seq<string>,
    setResponse: HeaderEdits,
    removeResponse: seq<string>,
    rewritePath: string,
    setIdentity: Option<Identity>,
    setContext: seq<(string, string)>)

  datatype Reply =
    | Error
    | Continue
    | ShortCircuit(response: Option<Response>)
    | Mutate(mutation: Option<Mutation>)

  datatype Env = Env(resolved: bool, allowed: bool, begins: bool, reply: Reply)

  /** The request as filters and the gateway see it. */
  datatype Data = Data(
    meth: string,
    path: string,
    header: Headers,
    identity: Option<Identity>,
    values: map<string, string>,
    body: string,
    responseStatus: int,
    responseHeader: Headers,
    responseBody: string)

  /** A request and the plugins it holds capacity on. */
  datatype Ctx = Ctx(data: Data, admitted: set<string>)

  datatype FilterRequest = FilterRequest(
    phase: nat,
    filterName: string,
    meth: string,
    path: string,
    headers: Headers,
    identity: Option<Identity>,
    values: map<string, string>,
    body: string,
    upstreamStatus: int,
    upstreamHeaders: Headers,
    upstreamBody: string)

  // ----- headers -----

  predicate IsToken(c: char) {
    'a' <= c <= 'z' || 'A' <= c <= 'Z' || '0' <= c <= '9' || c in "!#$%&'*+-.^_`|~"
  }

  function Recase(k: string, upper: bool): (r: string)
    ensures |r| == |k|
  {
    if k == "" then ""
    else
      var c := if upper && 'a' <= k[0] <= 'z' then k[0] - 'a' + 'A'
               else if !upper && 'A' <= k[0] <= 'Z' then k[0] - 'A' + 'a' else k[0];
      [c] + Recase(k[1..], k[0] == '-')
  }

  /** Canonical header spelling; a key with a byte no header may contain is left alone. */
  function Canonical(k: string): string {
    if forall i :: 0 <= i < |k| ==> IsToken(k[i]) then Recase(k, true) else k
  }

  lemma {:induction false} RecaseIsStable(k: string, upper: bool)
    ensures Recase(Recase(k, upper), upper) == Recase(k, upper)
    ensures (forall i :: 0 <= i < |k| ==> IsToken(k[i])) ==> forall i :: 0 <= i < |k| ==> IsToken(Recase(k, upper)[i])
  {
    if k != "" {
      RecaseIsStable(k[1..], k[0] == '-');
      assert Recase(k, upper)[1..] == Recase(k[1..], k[0] == '-');
      assert Recase(k, upper)[0] == '-' <==> k[0] == '-';
    }
  }

  lemma CanonicalIsStable(k: string)
    ensures Canonical(Canonical(k)) == Canonical(k)
  {
    RecaseIsStable(k, true);
  }

  function Removed(h: Headers, remove: seq<string>, n: nat): Headers
    requires n <= |remove|
  {
    if n == 0 then h else Removed(h, remove, n - 1) - {Canonical(remove[n - 1])}
  }

  function Added(h: Headers, edits: HeaderEdits, n: nat): Headers
    requires n <= |edits|
  {
    if n == 0 then h else Added(h, edits, n - 1)[Canonical(edits[n - 1].0) := edits[n - 1].1]
  }

  function Edited(h: Headers, edits: HeaderEdits, remove: seq<string>): Headers {
    Added(Removed(h, remove, |remove|), edits, |edits|)
  }

  ghost predicate NoRemoval(remove: seq<string>, n: nat, k: string) {
    n <= |remove| && forall i :: 0 <= i < n ==> Canonical(remove[i]) != k
  }

  lemma NoRemovalStep(remove: seq<string>, n: nat, k: string)
    requires 0 < n <= |remove|
    ensures NoRemoval(remove, n, k) <==> NoRemoval(remove, n - 1, k) && Canonical(remove[n - 1]) != k
  {
  }

  lemma {:induction false} RemovedMeans(h: Headers, remove: seq<string>, n: nat, k: string)
    requires n <= |remove|
    ensures k in Removed(h, remove, n) <==> k in h && NoRemoval(remove, n, k)
    ensures k in Removed(h, remove, n) ==> Removed(h, remove, n)[k] == h[k]
  {
    if n > 0 {
      RemovedMeans(h, remove, n - 1, k);
      NoRemovalStep(remove, n, k);
    }
  }

  /** Edit i is the last of the first n for this header. */
  ghost predicate LastEdit(edits: HeaderEdits, n: nat, i: nat, k: string) {
    i < n <= |edits| && Canonical(edits[i].0) == k && forall j :: i < j < n ==> Canonical(edits[j].0) != k
  }

  ghost predicate NoEdit(edits: HeaderEdits, n: nat, k: string) {
    n <= |edits| && forall i :: 0 <= i < n ==> Canonical(edits[i].0) != k
  }

  lemma {:induction false} LastEditWins(h: Headers, edits: HeaderEdits, n: nat, i: nat, k: string)
    requires LastEdit(edits, n, i, k)
    ensures k in Added(h, edits, n) && Added(h, edits, n)[k] == edits[i].1
  {
    if i < n - 1 {
      LastEditWins(h, edits, n - 1, i, k);
    }
  }

  lemma {:induction false} NoEditKeeps(h: Headers, edits: HeaderEdits, n: nat, k: string)
    requires NoEdit(edits, n, k)
    ensures k in Added(h, edits, n) <==> k in h
    ensures k in h ==> Added(h, edits, n)[k] == h[k]
  {
    if n > 0 {
      NoEditKeeps(h, edits, n - 1, k);
    }
  }

  /** Removals come first: a header named in both lists ends up replaced, not gone. */
  lemma EditMeans(h: Headers, edits: HeaderEdits, remove: seq<string>, i: nat, k: string)
    ensures LastEdit(edits, |edits|, i, k) ==> k in Edited(h, edits, remove) && Edited(h, edits, remove)[k] == edits[i].1
    ensures NoEdit(edits, |edits|, k) ==>
              && (k in Edited(h, edits, remove) <==> k in h && NoRemoval(remove, |remove|, k))
              && (k in Edited(h, edits, remove) ==> Edited(h, edits, remove)[k] == h[k])
  {
    RemovedMeans(h, remove, |remove|, k);
    var left := Removed(h, remove, |remove|);
    if LastEdit(edits, |edits|, i, k) {
      LastEditWins(left, edits, |edits|, i, k);
    }
    if NoEdit(edits, |edits|, k) {
      NoEditKeeps(left, edits, |edits|, k);
    }
  }

  method ApplyHeaderMutation(h: Headers, edits: HeaderEdits, remove: seq<string>) returns (out: Headers)
    ensures out == Edited(h, edits, remove)
  {
    out := h;
    for i := 0 to |remove|
      invariant out == Removed(h, remove, i)
    {
      out := out - {Canonical(remove[i])};
    }
    for i := 0 to |edits|
      invariant out == Added(Removed(h, remove, |remove|), edits, i)
    {
      out := out[Canonical(edits[i].0) := edits[i].1];
    }
  }

  // ----- one filter -----

  predicate IsResponsePhase(phase: nat) {
    phase == POST_HANDLER || phase == ON_ERROR || phase == LOG
  }

  predicate IdentityPhase(phase: nat) {
    phase == AUTHENTICATE || phase == AUTHORIZE
  }

  function Recorded(values: map<string, string>, pairs: seq<(string, string)>, n: nat): map<string, string>
    requires n <= |pairs|
  {
    if n == 0 then values else Recorded(values, pairs, n - 1)[pairs[n - 1].0 := pairs[n - 1].1]
  }

  function Mutated(c: Data, m: Mutation, phase: nat, allowIdentity: bool): Data {
    c.(header := Edited(c.header, m.setRequest, m.removeRequest),
       responseHeader :=
         if IsResponsePhase(phase) then Edited(c.responseHeader, m.setResponse, m.removeResponse) else c.responseHeader,
       path := if m.rewritePath != "" && !IsResponsePhase(phase) then m.rewritePath else c.path,
       identity := if m.setIdentity.Some? && allowIdentity then m.setIdentity else c.identity,
       values := Recorded(c.values, m.setContext, |m.setContext|))
  }

  ghost predicate Matches(f: Filter, c: Data) {
    && (f.compiled.methods.None? || c.meth in f.compiled.methods.value)
    && Pathmatch.CoveredBy(f.compiled.paths, c.path)
  }

  predicate TooBig(c: Data, f: Filter) {
    f.decl.needsRequestBody && |c.body| > f.maxBody
  }

  /** The filter is called: body within its limit, plugin running, breaker closed, request admitted. */
  predicate Callable(c: Ctx, f: Filter, e: Env) {
    !TooBig(c.data, f) && e.resolved && e.allowed && (f.pluginKey in c.admitted || e.begins)
  }

  /** The filter reached no decision. */
  predicate Undecided(c: Ctx, f: Filter, e: Env) {
    !Callable(c, f, e) || e.reply.Error?
  }

  function Failure(f: Filter, status: int, message: string): Option<Response> {
    if f.decl.failClosed then Some(Response(status, map["Content-Type" := ["text/plain; charset=utf-8"]], message)) else None
  }

  function Label(f: Filter): string {
    f.pluginKey + "/" + if f.decl.name != "" then f.decl.name else f.decl.phase
  }

  /** The response a called filter stops the phase with, if any. */
  function Answer(f: Filter, e: Env): Option<Response> {
    if e.reply.Error? then Failure(f, 503, "filter " + Label(f) + " failed")
    else if e.reply.ShortCircuit? then e.reply.response
    else None
  }

  /** The request after a called filter has replied. */
  function Answered(c: Data, phase: nat, f: Filter, e: Env): Data {
    if e.reply.Mutate? && e.reply.mutation.Some?
    then Mutated(c, e.reply.mutation.value, phase, f.allowIdentityMutation && IdentityPhase(phase))
    else c
  }

  /** The response that stops the phase here, if any. */
  function Stop(c: Ctx, f: Filter, e: Env): Option<Response> {
    if TooBig(c.data, f) then Failure(f, 413, "request body too large for filter " + Label(f))
    else if !e.resolved then Failure(f, 503, "plugin " + f.pluginKey + " is unavailable")
    else if !e.allowed then Failure(f, 503, "plugin " + f.pluginKey + " is unhealthy")
    else if !Callable(c, f, e) then Failure(f, 503, "plugin " + f.pluginKey + " is draining")
    else Answer(f, e)
  }

  function After(c: Ctx, phase: nat, f: Filter, e: Env): Ctx {
    if !Callable(c, f, e) then c else Ctx(Answered(c.data, phase, f, e), c.admitted + {f.pluginKey})
  }

  /** What a called filter is told, computed afresh from the request. */
  function Request(c: Data, phase: nat, f: Filter): FilterRequest {
    var upstream := IsResponsePhase(phase);
    FilterRequest(phase, f.decl.name, c.meth, c.path, c.header, c.identity, c.values,
                  if f.decl.needsRequestBody then c.body else "",
                  if upstream then c.responseStatus else 0,
                  if upstream then c.responseHeader else map[],
                  if upstream && f.decl.needsResponseBody then c.responseBody else "")
  }

  // ----- a phase -----

  datatype Sent = Sent(at: nat, request: FilterRequest)

  datatype PhaseRun = PhaseRun(ctx: Ctx, stop: Option<Response>, sent: seq<Sent>)

  /** One more filter, number `at`. */
  ghost function Next(r: PhaseRun, phase: nat, f: Filter, e: Env, at: nat): PhaseRun {
    if r.stop.Some? || !Matches(f, r.ctx.data) then r
    else
      PhaseRun(After(r.ctx, phase, f, e), Stop(r.ctx, f, e),
               if Callable(r.ctx, f, e) then r.sent + [Sent(at, Request(r.ctx.data, phase, f))] else r.sent)
  }

  /** The phase after its first n filters. */
  ghost function Run(c: Ctx, phase: nat, filters: seq<Filter>, envs: seq<Env>, n: nat): PhaseRun
    requires n <= |filters| == |envs|
  {
    if n == 0 then PhaseRun(c, None, [])
    else Next(Run(c, phase, filters, envs, n - 1), phase, filters[n - 1], envs[n - 1], n - 1)
  }

  ghost function RunPhase(c: Ctx, phase: nat, filters: seq<Filter>, envs: seq<Env>): PhaseRun
    requires |filters| == |envs|
  {
    Run(c, phase, filters, envs, |filters|)
  }

  lemma {:induction false} StoppedStays(c: Ctx, phase: nat, filters: seq<Filter>, envs: seq<Env>, m: nat, n: nat)
    requires m <= n <= |filters| == |envs| && Run(c, phase, filters, envs, m).stop.Some?
    ensures Run(c, phase, filters, envs, n) == Run(c, phase, filters, envs, m)
  {
    if m < n {
      StoppedStays(c, phase, filters, envs, m, n - 1);
    }
  }

  /** The identity a reply sets, if it sets one. */
  function IdentitySet(e: Env): Option<Identity> {
    if e.reply.Mutate? && e.reply.mutation.Some? then e.reply.mutation.value.setIdentity else None
  }

  /** Filter j of the phase is reached, matches, is called, may set an identity and does. */
  ghost predicate Grants(c: Ctx, phase: nat, filters: seq<Filter>, envs: seq<Env>, j: nat)
    requires j < |filters| == |envs|
  {
    var r := Run(c, phase, filters, envs, j);
    && IdentityPhase(phase) && r.stop.None? && Matches(filters[j], r.ctx.data) && Callable(r.ctx, filters[j], envs[j])
    && filters[j].allowIdentityMutation && IdentitySet(envs[j]).Some?
  }

  /** Filter j is the last of the first n to grant an identity. */
  ghost predicate GrantsLast(c: Ctx, phase: nat, filters: seq<Filter>, envs: seq<Env>, n: nat, j: nat)
    requires n <= |filters| == |envs|
  {
    j < n && Grants(c, phase, filters, envs, j) && forall k: nat :: j < k < n ==> !Grants(c, phase, filters, envs, k)
  }

  ghost predicate NoneGrants(c: Ctx, phase: nat, filters: seq<Filter>, envs: seq<Env>, n: nat)
    requires n <= |filters| == |envs|
  {
    forall j: nat :: j < n ==> !Grants(c, phase, filters, envs, j)
  }

  lemma {:induction false} OneFilterIdentity(c: Ctx, phase: nat, filters: seq<Filter>, envs: seq<Env>, j: nat)
    requires j < |filters| == |envs|
    ensures Run(c, phase, filters, envs, j + 1).ctx.data.identity ==
            if Grants(c, phase, filters, envs, j) then IdentitySet(envs[j]) else Run(c, phase, filters, envs, j).ctx.data.identity
  {
  }

  /** The identity of the last filter that grants one, or the one the request came with if there is none. */
  ghost predicate Leaves(c: Ctx, phase: nat, filters: seq<Filter>, envs: seq<Env>, n: nat, id: Option<Identity>)
    requires n <= |filters| == |envs|
  {
    if NoneGrants(c, phase, filters, envs, n) then id == c.data.identity
    else exists j: nat :: GrantsLast(c, phase, filters, envs, n, j) && id == IdentitySet(envs[j])
  }

  lemma {:induction false} NoneYet(c: Ctx, phase: nat, filters: seq<Filter>, envs: seq<Env>, n: nat)
    requires n < |filters| == |envs|
    ensures NoneGrants(c, phase, filters, envs, n + 1) <==>
            NoneGrants(c, phase, filters, envs, n) && !Grants(c, phase, filters, envs, n)
  {
  }

  lemma {:induction false} StillLast(c: Ctx, phase: nat, filters: seq<Filter>, envs: seq<Env>, n: nat, j: nat)
    requires n < |filters| == |envs| && GrantsLast(c, phase, filters, envs, n, j) && !Grants(c, phase, filters, envs, n)
    ensures GrantsLast(c, phase, filters, envs, n + 1, j)
  {
  }

  lemma {:induction false} LeavesNext(
    c: Ctx, phase: nat, filters: seq<Filter>, envs: seq<Env>, n: nat, was: Option<Identity>, id: Option<Identity>)
    requires n < |filters| == |envs| && Leaves(c, phase, filters, envs, n, was)
    requires id == if Grants(c, phase, filters, envs, n) then IdentitySet(envs[n]) else was
    ensures Leaves(c, phase, filters, envs, n + 1, id)
  {
    NoneYet(c, phase, filters, envs, n);
    if Grants(c, phase, filters, envs, n) {
      assert GrantsLast(c, phase, filters, envs, n + 1, n);
    } else if !NoneGrants(c, phase, filters, envs, n) {
      var j: nat :| GrantsLast(c, phase, filters, envs, n, j) && was == IdentitySet(envs[j]);
      StillLast(c, phase, filters, envs, n, j);
    }
  }

  /**
  Exactly whose identity a phase leaves: that of the last filter which was called, was permitted to set one and did, and
  the one the request came with if there was none.  An identity is never lost.
  */
  lemma {:induction false} IdentityIsGranted(c: Ctx, phase: nat, filters: seq<Filter>, envs: seq<Env>, n: nat)
    requires n <= |filters| == |envs|
    ensures Leaves(c, phase, filters, envs, n, Run(c, phase, filters, envs, n).ctx.data.identity)
    ensures c.data.identity.Some? ==> Run(c, phase, filters, envs, n).ctx.data.identity.Some?
  {
    if n > 0 {
      IdentityIsGranted(c, phase, filters, envs, n - 1);
      OneFilterIdentity(c, phase, filters, envs, n - 1);
      LeavesNext(c, phase, filters, envs, n - 1, Run(c, phase, filters, envs, n - 1).ctx.data.identity,
                 Run(c, phase, filters, envs, n).ctx.data.identity);
    }
  }

  /** A matching fail-closed filter that reaches no decision stops the phase, wherever it stands in it. */
  lemma FailClosedStops(c: Ctx, phase: nat, filters: seq<Filter>, envs: seq<Env>, i: nat)
    requires i < |filters| == |envs|
    requires var r := Run(c, phase, filters, envs, i);
             r.stop.None? && Matches(filters[i], r.ctx.data) && Undecided(r.ctx, filters[i], envs[i])
    ensures var r := Run(c, phase, filters, envs, i);
            Run(c, phase, filters, envs, i + 1).stop.Some? <==> filters[i].decl.failClosed
    ensures filters[i].decl.failClosed ==>
              && RunPhase(c, phase, filters, envs).stop.Some?
              && RunPhase(c, phase, filters, envs).stop.value.status in {413, 503}
              && RunPhase(c, phase, filters, envs).ctx.data.identity == Run(c, phase, filters, envs, i).ctx.data.identity
  {
    if filters[i].decl.failClosed {
      StoppedStays(c, phase, filters, envs, i + 1, |filters|);
    }
  }

  /** The phase stops for two reasons only: a filter answered the request, or a fail-closed one reached no decision. */
  lemma {:induction false} StopHasAReason(c: Ctx, phase: nat, filters: seq<Filter>, envs: seq<Env>, n: nat) returns (i: nat)
    requires n <= |filters| == |envs| && Run(c, phase, filters, envs, n).stop.Some?
    ensures i < n
    ensures var r := Run(c, phase, filters, envs, i);
            && r.stop.None? && Matches(filters[i], r.ctx.data)
            && (if Undecided(r.ctx, filters[i], envs[i]) then filters[i].decl.failClosed
                else envs[i].reply == ShortCircuit(Run(c, phase, filters, envs, n).stop))
  {
    if Run(c, phase, filters, envs, n - 1).stop.Some? {
      i := StopHasAReason(c, phase, filters, envs, n - 1);
    } else {
      i := n - 1;
    }
  }

  /** Every filter that is called is told the request as it stands at that moment. */
  lemma {:induction false} SentIsCurrent(c: Ctx, phase: nat, filters: seq<Filter>, envs: seq<Env>, n: nat, k: nat)
    requires n <= |filters| == |envs| && k < |Run(c, phase, filters, envs, n).sent|
    ensures var s := Run(c, phase, filters, envs, n).sent[k];
            && s.at < n
            && s.request == Request(Run(c, phase, filters, envs, s.at).ctx.data, phase, filters[s.at])
            && s.request.headers == Run(c, phase, filters, envs, s.at).ctx.data.header
  {
    if k < |Run(c, phase, filters, envs, n - 1).sent| {
      SentIsCurrent(c, phase, filters, envs, n - 1, k);
    }
  }

  /** Capacity once taken is kept for the rest of the request. */
  lemma {:induction false} AdmissionsOnlyGrow(c: Ctx, phase: nat, filters: seq<Filter>, envs: seq<Env>, n: nat)
    requires n <= |filters| == |envs|
    ensures c.admitted <= Run(c, phase, filters, envs, n).ctx.admitted
    ensures Run(c, phase, filters, envs, n).ctx.data.body == c.data.body && Run(c, phase, filters, envs, n).ctx.data.meth == c.data.meth
  {
    if n > 0 {
      AdmissionsOnlyGrow(c, phase, filters, envs, n - 1);
    }
  }

  // ----- the request context -----

  /**
  The capacity a request holds: per plugin, the number of its reservation.  Reservations are numbered from 0
  in the order they are made; `freed` are those given back.
  */
  datatype Ledger = Ledger(held: map<string, nat>, begun: nat, freed: set<nat>)

  /** Every reservation is either held, once, or given back. */
  ghost predicate Balanced(l: Ledger) {
    && (forall r :: r in l.freed ==> r < l.begun)
    && (forall k :: k in l.held ==> l.held[k] < l.begun && l.held[k] !in l.freed)
    && (forall j, k :: j in l.held && k in l.held && l.held[j] == l.held[k] ==> j == k)
    && (forall r :: 0 <= r < l.begun ==> r in l.freed || Holds(l, r))
  }

  ghost predicate Holds(l: Ledger, r: nat) {
    exists k :: k in l.held && l.held[k] == r
  }

  type Admissions = l: Ledger | Balanced(l) witness Ledger(map[], 0, {})

  function Reserve(l: Admissions, key: string): (r: Admissions)
    requires key !in l.held
    ensures r.held.Keys == l.held.Keys + {key}
  {
    var next := Ledger(l.held[key := l.begun], l.begun + 1, l.freed);
    ReserveBalances(l, key);
    next
  }

  lemma ReserveBalances(l: Ledger, key: string)
    requires Balanced(l) && key !in l.held
    ensures Balanced(Ledger(l.held[key := l.begun], l.begun + 1, l.freed))
  {
    var next := Ledger(l.held[key := l.begun], l.begun + 1, l.freed);
    forall r: nat | r < l.begun + 1 && r !in l.freed
      ensures Holds(next, r)
    {
      if r == l.begun {
        assert next.held[key] == r;
      } else {
        var k :| k in l.held && l.held[k] == r;
        assert next.held[k] == r;
      }
    }
  }

  lemma FreeBalances(l: Ledger, key: string)
    requires Balanced(l) && key in l.held
    ensures Balanced(Ledger(l.held - {key}, l.begun, l.freed + {l.held[key]}))
  {
    var next := Ledger(l.held - {key}, l.begun, l.freed + {l.held[key]});
    forall r: nat | r < l.begun && r !in next.freed
      ensures Holds(next, r)
    {
      var k :| k in l.held && l.held[k] == r;
      assert next.held[k] == r;
    }
  }

  class RequestContext {
    var data: Data
    /** Wire form of the headers, empty when there is none cached. */
    var protoHeaders: Headers
    var admissions: Admissions

    ghost function View(): Ctx
      reads this
    {
      Ctx(data, admissions.held.Keys)
    }

    /** The cache is empty or current. */
    ghost predicate Valid()
      reads this
    {
      protoHeaders == map[] || protoHeaders == data.header
    }

    constructor (meth: string, path: string, header: Headers, body: string)
      ensures Valid() && admissions == Ledger(map[], 0, {})
      ensures data == Data(meth, path, header, None, map[], body, 0, map[], "")
    {
      data := Data(meth, path, header, None, map[], body, 0, map[], "");
      protoHeaders, admissions := map[], Ledger(map[], 0, {});
    }

    /** Reserves capacity on a plugin once per request; `begins` is what the instance would answer. */
    method Admit(key: string, begins: bool) returns (ok: bool)
      modifies this`admissions
      ensures ok <==> key in old(admissions).held || begins
      ensures admissions.held.Keys == old(admissions).held.Keys + if ok then {key} else {}
      ensures admissions == if ok && key !in old(admissions).held then Reserve(old(admissions), key) else old(admissions)
    {
      if key in admissions.held {
        return true;
      }
      if !begins {
        return false;
      }
      admissions := Reserve(admissions, key);
      return true;
    }

    /** Gives back every reservation, each exactly once. */
    method ReleaseAdmissions()
      modifies this`admissions
      ensures admissions.held == map[] && admissions.begun == old(admissions).begun
      ensures forall r :: r in admissions.freed <==> 0 <= r < admissions.begun
    {
      while admissions.held != map[]
        invariant admissions.begun == old(admissions).begun
        decreases |admissions.held|
      {
        var key: string :| key in admissions.held;
        FreeBalances(admissions, key);
        admissions := Ledger(admissions.held - {key}, admissions.begun, admissions.freed + {admissions.held[key]});
      }
      assert forall r :: 0 <= r < admissions.begun ==> !Holds(admissions, r);
    }

    method WireHeaders() returns (wire: Headers)
      requires Valid()
      modifies this`protoHeaders
      ensures Valid() && wire == data.header
    {
      if protoHeaders == map[] {
        protoHeaders := data.header;
      }
      wire := protoHeaders;
    }

    method BuildFilterRequest(phase: nat, f: Filter) returns (req: FilterRequest)
      requires Valid()
      modifies this`protoHeaders
      ensures Valid() && req == Request(data, phase, f)
    {
      var wire := WireHeaders();
      req := FilterRequest(phase, f.decl.name, data.meth, data.path, wire, data.identity, data.values, "", 0, map[], "");
      if f.decl.needsRequestBody {
        req := req.(body := data.body);
      }
      if IsResponsePhase(phase) {
        req := req.(upstreamStatus := data.responseStatus, upstreamHeaders := data.responseHeader);
        if f.decl.needsResponseBody {
          req := req.(upstreamBody := data.responseBody);
        }
      }
    }

    method ApplyMutation(mutation: Option<Mutation>, phase: nat, allowIdentity: bool)
      requires Valid()
      modifies this`data, this`protoHeaders
      ensures Valid()
      ensures data == if mutation.None? then old(data) else Mutated(old(data), mutation.value, phase, allowIdentity)
    {
      if mutation.None? {
        return;
      }
      var m := mutation.value;
      var header := ApplyHeaderMutation(data.header, m.setRequest, m.removeRequest);
      data := data.(header := header);
      protoHeaders := map[];
      if IsResponsePhase(phase) {
        var responseHeader := ApplyHeaderMutation(data.responseHeader, m.setResponse, m.removeResponse);
        data := data.(responseHeader := responseHeader);
      }
      if m.rewritePath != "" && !IsResponsePhase(phase) {
        data := data.(path := m.rewritePath);
      }
      if m.setIdentity.Some? && allowIdentity {
        data := data.(identity := m.setIdentity);
      }
      var values := RecordValues(data.values, m.setContext);
      data := data.(values := values);
    }
  }

  method RecordValues(values: map<string, string>, pairs: seq<(string, string)>) returns (out: map<string, string>)
    ensures out == Recorded(values, pairs, |pairs|)
  {
    out := values;
    for i := 0 to |pairs|
      invariant out == Recorded(values, pairs, i)
    {
      out := out[pairs[i].0 := pairs[i].1];
    }
  }

  /** Calls an admitted filter and does what it replies. */
  method CallFilter(rc: RequestContext, phase: nat, f: Filter, e: Env) returns (stop: Option<Response>, req: FilterRequest)
    requires rc.Valid()
    modifies rc`data, rc`protoHeaders
    ensures rc.Valid() && rc.data == Answered(old(rc.data), phase, f, e)
    ensures req == Request(old(rc.data), phase, f) && stop == Answer(f, e)
  {
    req := rc.BuildFilterRequest(phase, f);
    match e.reply {
      case Error => stop := Failure(f, 503, "filter " + Label(f) + " failed");
      case ShortCircuit(response) => stop := response;
      case Mutate(mutation) =>
        var allowIdentity := f.allowIdentityMutation && IdentityPhase(phase);
        rc.ApplyMutation(mutation, phase, allowIdentity);
        stop := None;
      case _ => stop := None;
    }
  }

  /** Runs one filter; `healthy` is what its breaker is told, if it was called at all. */
  method RunOne(rc: RequestContext, phase: nat, f: Filter, e: Env)
    returns (stop: Option<Response>, sent: Option<FilterRequest>, healthy: Option<bool>)
    requires rc.Valid()
    modifies rc
    ensures rc.Valid()
    ensures rc.View() == After(old(rc.View()), phase, f, e)
    ensures stop == Stop(old(rc.View()), f, e)
    ensures sent == if Callable(old(rc.View()), f, e) then Some(Request(old(rc.data), phase, f)) else None
    ensures healthy == if sent.None? then None else Some(!e.reply.Error?)
  {
    stop, sent, healthy := None, None, None;
    if f.decl.needsRequestBody && |rc.data.body| > f.maxBody {
      stop := Failure(f, 413, "request body too large for filter " + Label(f));
      return;
    }
    if !e.resolved {
      stop := Failure(f, 503, "plugin " + f.pluginKey + " is unavailable");
      return;
    }
    if !e.allowed {
      stop := Failure(f, 503, "plugin " + f.pluginKey + " is unhealthy");
      return;
    }
    var admitted := rc.Admit(f.pluginKey, e.begins);
    if !admitted {
      stop := Failure(f, 503, "plugin " + f.pluginKey + " is draining");
      return;
    }
    var req;
    stop, req := CallFilter(rc, phase, f, e);
    sent, healthy := Some(req), Some(!e.reply.Error?);
  }

  method MatchesFilter(rc: RequestContext, f: Filter) returns (hit: bool)
    requires Pathmatch.ValidSet(f.compiled.paths)
    ensures hit == Matches(f, rc.data)
  {
    if f.compiled.methods.Some? && rc.data.meth !in f.compiled.methods.value {
      return false;
    }
    hit := Pathmatch.MatchSet(f.compiled.paths, rc.data.path);
  }

  ghost predicate Compiled(filters: seq<Filter>) {
    forall i :: 0 <= i < |filters| ==> Pathmatch.ValidSet(filters[i].compiled.paths)
  }

  /** The body of the loop: one filter, if it matches. */
  method RunNext(rc: RequestContext, phase: nat, f: Filter, e: Env, at: nat, sent: seq<Sent>)
    returns (stop: Option<Response>, more: seq<Sent>)
    requires rc.Valid() && Pathmatch.ValidSet(f.compiled.paths)
    modifies rc
    ensures rc.Valid()
    ensures PhaseRun(rc.View(), stop, more) == Next(PhaseRun(old(rc.View()), None, sent), phase, f, e, at)
  {
    stop, more := None, sent;
    var hit := MatchesFilter(rc, f);
    if hit {
      var request, healthy;
      stop, request, healthy := RunOne(rc, phase, f, e);
      if request.Some? {
        more := sent + [Sent(at, request.value)];
      }
    }
  }

  /** What has happened after n filters. */
  ghost predicate Ran(c: Ctx, phase: nat, filters: seq<Filter>, envs: seq<Env>, n: nat, run: PhaseRun) {
    n <= |filters| == |envs| && run == Run(c, phase, filters, envs, n)
  }

  lemma RanOneMore(c: Ctx, phase: nat, filters: seq<Filter>, envs: seq<Env>, n: nat, run: PhaseRun, next: PhaseRun)
    requires n < |filters| == |envs| && Ran(c, phase, filters, envs, n, run) && next == Next(run, phase, filters[n], envs[n], n)
    ensures Ran(c, phase, filters, envs, n + 1, next)
    ensures next.stop.Some? ==> next == RunPhase(c, phase, filters, envs)
  {
    if next.stop.Some? {
      StoppedStays(c, phase, filters, envs, n + 1, |filters|);
    }
  }

  /** Runs every matching filter of the phase in order, until one stops it. */
  method RunFilters(rc: RequestContext, phase: nat, filters: seq<Filter>, envs: seq<Env>)
    returns (stop: Option<Response>, sent: seq<Sent>)
    requires rc.Valid() && |filters| == |envs| && Compiled(filters)
    modifies rc
    ensures rc.Valid()
    ensures PhaseRun(rc.View(), stop, sent) == RunPhase(old(rc.View()), phase, filters, envs)
  {
    ghost var c := rc.View();
    sent := [];
    for i := 0 to |filters|
      invariant rc.Valid() && Ran(c, phase, filters, envs, i, PhaseRun(rc.View(), None, sent))
    {
      ghost var run := PhaseRun(rc.View(), None, sent);
      stop, sent := RunNext(rc, phase, filters[i], envs[i], i, sent);
      RanOneMore(c, phase, filters, envs, i, run, PhaseRun(rc.View(), stop, sent));
      if stop.Some? {
        return;
      }
    }
    stop := None;
  }
}

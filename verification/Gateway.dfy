/**
Serving a plugin route (core/gateway/plugin_handler.go, `servePlugin` and `callBackend`): session, the
authentication phases, the refusal of anonymous callers, dispatch to the backend, and the response phases.
*/
module Gateway {
  import opened Chain
  import opened Common
  import opened Pipeline

  const PREFIX := "/api/plugins/"

  /** How the backend can be reached: the instance of the request's snapshot, then a different live one. */
  datatype Backend = Backend(
    picked: bool, begins: bool, live: bool, other: bool, liveBegins: bool,
    reply: Option<Response>)  // None when the call fails

  /** `auth` is whether sessions are configured at all; `envs` are the plugins' answers, phase by phase. */
  datatype Inputs = Inputs(auth: bool, session: Option<Identity>, envs: seq<seq<Env>>, backend: Backend)

  datatype BackendRequest = BackendRequest(
    key: string, meth: string, headers: Headers, body: string, identity: Option<Identity>)

  datatype Answer =
    | Stopped(phase: nat, response: Response)
    | Unauthenticated
    | NotRoutable
    | Unavailable(gone: bool)
    | BackendFailed
    | Served(status: int, data: Data)  // the status as it is written

  ghost predicate Fits(t: Table, x: Inputs) {
    && |t.phases| == PHASE_COUNT == |x.envs|
    && forall p :: 0 <= p < PHASE_COUNT ==> |t.phases[p]| == |x.envs[p]| && Compiled(t.phases[p])
  }

  /** Keeps a plugin's status inside what may be written. */
  function NormalizeStatus(code: int): (r: int)
    ensures 100 <= r <= 599
    ensures r == code <==> 100 <= code <= 599
    ensures code == 0 ==> r == 200
    ensures code != 0 && r != code ==> r == 502
  {
    if code == 0 then 200 else if code < 100 || code > 599 then 502 else code
  }

  /** The plugin a path belongs to. */
  function PluginOf(path: string): (r: Option<string>)
    ensures r.Some? ==> PREFIX <= path && '/' !in r.value && PREFIX + r.value <= path
    ensures r.None? <==> !(PREFIX <= path) || path == PREFIX
  {
    if !(PREFIX <= path) || path == PREFIX then None
    else
      var rest := path[|PREFIX|..];
      assert path == PREFIX + rest;
      Some(rest[..Find(rest, '/')])
  }

  /** A path belongs to the plugin whose key, free of slashes, is the whole of what follows the prefix or all up to a slash. */
  lemma PluginOfExactly(path: string, key: string)
    ensures PluginOf(path) == Some(key) <==>
              && '/' !in key && path != "/api/plugins/"
              && (path == "/api/plugins/" + key || "/api/plugins/" + (key + "/") <= path)
  {
    KeyAfter(PREFIX, path, key);
  }

  lemma KeyAfter(prefix: string, path: string, key: string)
    ensures prefix <= path && path[|prefix|..][..Find(path[|prefix|..], '/')] == key <==>
              '/' !in key && (path == prefix + key || prefix + (key + "/") <= path)
  {
    if prefix <= path {
      var rest := path[|prefix|..];
      assert path == prefix + rest;
      KeyBefore(rest, key);
      Shared(prefix, key, rest);
      Shared(prefix, key + "/", rest);
    } else {
      NotWithout(prefix, key, path);
      NotWithout(prefix, key + "/", path);
    }
  }

  lemma NotWithout(p: string, u: string, path: string)
    requires !(p <= path)
    ensures !(p + u <= path)
  {
    assert (p + u)[..|p|] == p;
  }

  lemma Shared(p: string, u: string, w: string)
    ensures (p + u == p + w <==> u == w) && (p + u <= p + w <==> u <= w)
  {
    assert (p + u)[|p|..] == u && (p + w)[|p|..] == w;
    if u <= w {
      assert w == u + w[|u|..];
      assert p + w == p + u + w[|u|..];
    }
    if p + u <= p + w {
      assert (p + w)[..|p| + |u|] == p + u && (p + w)[..|p| + |u|][|p|..] == w[..|u|];
    }
  }

  lemma KeyBefore(rest: string, key: string)
    ensures rest[..Find(rest, '/')] == key <==> '/' !in key && (rest == key || key + "/" <= rest)
  {
    var n := Find(rest, '/');
    if rest[..n] == key {
      assert n < |rest| ==> key + "/" == rest[..n + 1];
      assert n == |rest| ==> rest[..n] == rest;
    }
    if '/' !in key && key + "/" <= rest {
      assert rest == key + ['/'] + rest[|key| + 1..];
      FindFirst(key, '/', rest[|key| + 1..]);
    }
    if '/' !in key && rest == key {
      FindNone(rest, '/');
      assert rest[..|rest|] == rest;
    }
  }

  // ----- the phases before dispatch -----

  /** A resolved session is the identity to start from; one that does not resolve leaves the request anonymous. */
  function Start(c: Ctx, x: Inputs): Ctx {
    if x.auth && x.session.Some? then c.(data := c.data.(identity := x.session)) else c
  }

  ghost function PhaseOf(c: Ctx, t: Table, x: Inputs, p: nat): PhaseRun
    requires Fits(t, x) && p < PHASE_COUNT
  {
    RunPhase(c, p, t.phases[p], x.envs[p])
  }

  ghost function Authenticated(c: Ctx, t: Table, x: Inputs): PhaseRun
    requires Fits(t, x)
  {
    PhaseOf(Start(c, x), t, x, AUTHENTICATE)
  }

  ghost function Authorized(c: Ctx, t: Table, x: Inputs): PhaseRun
    requires Fits(t, x)
  {
    PhaseOf(Authenticated(c, t, x).ctx, t, x, AUTHORIZE)
  }

  ghost function Handled(c: Ctx, t: Table, x: Inputs): PhaseRun
    requires Fits(t, x)
  {
    PhaseOf(Authorized(c, t, x).ctx, t, x, PRE_HANDLER)
  }

  predicate Admits(c: Ctx, b: Backend, key: string) {
    (b.picked && (key in c.admitted || b.begins)) || (b.live && b.other && (key in c.admitted || b.liveBegins))
  }

  /** Its path names a plugin, and that admits the request. */
  ghost predicate Routed(c: Ctx, x: Inputs) {
    var key := PluginOf(c.data.path);
    key.Some? && Admits(c, x.backend, key.value)
  }

  /** No phase before dispatch stops the request, and it is identified where it must be. */
  ghost predicate Passes(c: Ctx, t: Table, x: Inputs)
    requires Fits(t, x)
  {
    && Authenticated(c, t, x).stop.None?
    && Authorized(c, t, x).stop.None?
    && (x.auth ==> Authorized(c, t, x).ctx.data.identity.Some?)
    && Handled(c, t, x).stop.None?
  }

  /** What a request that does not pass is answered: the first reason in order. */
  ghost function Refusal(c: Ctx, t: Table, x: Inputs): Answer
    requires Fits(t, x) && !Passes(c, t, x)
  {
    if Authenticated(c, t, x).stop.Some? then Stopped(AUTHENTICATE, Authenticated(c, t, x).stop.value)
    else if Authorized(c, t, x).stop.Some? then Stopped(AUTHORIZE, Authorized(c, t, x).stop.value)
    else if x.auth && Authorized(c, t, x).ctx.data.identity.None? then Unauthenticated
    else Stopped(PRE_HANDLER, Handled(c, t, x).stop.value)
  }

  /** The request gets as far as its backend. */
  ghost predicate Reaches(c: Ctx, t: Table, x: Inputs)
    requires Fits(t, x)
  {
    Passes(c, t, x) && Routed(Handled(c, t, x).ctx, x)
  }

  /** The context in which phase p starts. */
  ghost function Entry(c: Ctx, t: Table, x: Inputs, p: nat): Ctx
    requires Fits(t, x) && p in {AUTHENTICATE, AUTHORIZE, PRE_HANDLER}
  {
    if p == AUTHENTICATE then Start(c, x)
    else if p == AUTHORIZE then Authenticated(c, t, x).ctx
    else Authorized(c, t, x).ctx
  }

  /** Some filter of phase p was called, was permitted to set an identity and set this one. */
  ghost predicate GrantedIn(c: Ctx, t: Table, x: Inputs, p: nat, id: Option<Identity>)
    requires Fits(t, x) && p in {AUTHENTICATE, AUTHORIZE}
  {
    exists j: nat :: j < |t.phases[p]| && Grants(Entry(c, t, x, p), p, t.phases[p], x.envs[p], j) && id == IdentitySet(x.envs[p][j])
  }

  lemma PhaseIdentity(c: Ctx, t: Table, x: Inputs, p: nat)
    requires Fits(t, x) && p in {AUTHENTICATE, AUTHORIZE}
    ensures var id := RunPhase(Entry(c, t, x, p), p, t.phases[p], x.envs[p]).ctx.data.identity;
            id == Entry(c, t, x, p).data.identity || GrantedIn(c, t, x, p, id)
  {
    IdentityIsGranted(Entry(c, t, x, p), p, t.phases[p], x.envs[p], |t.phases[p]|);
  }

  /**
  Whatever the filters answer: the identity left by authorize is the one the backend would be given, and it is
  the session's own or one set in authenticate or authorize by a filter that was called and is permitted to set it.
  */
  lemma IdentityComesFromAuthentication(c: Ctx, t: Table, x: Inputs)
    requires Fits(t, x)
    ensures Handled(c, t, x).ctx.data.identity == Authorized(c, t, x).ctx.data.identity
    ensures var id := Authorized(c, t, x).ctx.data.identity;
            || id == (if x.auth && x.session.Some? then x.session else c.data.identity)
            || GrantedIn(c, t, x, AUTHENTICATE, id) || GrantedIn(c, t, x, AUTHORIZE, id)
    ensures Handled(c, t, x).ctx.data.body == c.data.body && Handled(c, t, x).ctx.data.meth == c.data.meth
  {
    PhaseIdentity(c, t, x, AUTHENTICATE);
    PhaseIdentity(c, t, x, AUTHORIZE);
    AdmissionsOnlyGrow(Start(c, x), AUTHENTICATE, t.phases[AUTHENTICATE], x.envs[AUTHENTICATE], |t.phases[AUTHENTICATE]|);
    AdmissionsOnlyGrow(Authenticated(c, t, x).ctx, AUTHORIZE, t.phases[AUTHORIZE], x.envs[AUTHORIZE], |t.phases[AUTHORIZE]|);
    AdmissionsOnlyGrow(Authorized(c, t, x).ctx, PRE_HANDLER, t.phases[PRE_HANDLER], x.envs[PRE_HANDLER], |t.phases[PRE_HANDLER]|);
    IdentityIsGranted(Authorized(c, t, x).ctx, PRE_HANDLER, t.phases[PRE_HANDLER], x.envs[PRE_HANDLER], |t.phases[PRE_HANDLER]|);
  }

  /** Without a session and without a filter that grants one, no backend is reached when sessions are configured. */
  lemma AnonymousNeverReaches(c: Ctx, t: Table, x: Inputs)
    requires Fits(t, x) && x.auth && x.session.None? && c.data.identity.None?
    requires forall id :: !GrantedIn(c, t, x, AUTHENTICATE, id) && !GrantedIn(c, t, x, AUTHORIZE, id)
    ensures !Reaches(c, t, x)
  {
    IdentityComesFromAuthentication(c, t, x);
  }

  /** A matching fail-closed filter that reaches no decision keeps the request from its backend. */
  lemma GuardsHold(c: Ctx, t: Table, x: Inputs, p: nat, i: nat)
    requires Fits(t, x) && p in {AUTHENTICATE, AUTHORIZE, PRE_HANDLER} && i < |t.phases[p]|
    requires t.phases[p][i].decl.failClosed
    requires var r := Run(Entry(c, t, x, p), p, t.phases[p], x.envs[p], i);
             r.stop.None? && Matches(t.phases[p][i], r.ctx.data) && Undecided(r.ctx, t.phases[p][i], x.envs[p][i])
    ensures !Reaches(c, t, x)
  {
    FailClosedStops(Entry(c, t, x, p), p, t.phases[p], x.envs[p], i);
  }

  /** Nothing before authentication can claim an identity. */
  lemma PreRouteStaysAnonymous(c: Ctx, t: Table, x: Inputs)
    requires Fits(t, x)
    ensures PhaseOf(c, t, x, PRE_ROUTE).ctx.data.identity == c.data.identity
  {
    IdentityIsGranted(c, PRE_ROUTE, t.phases[PRE_ROUTE], x.envs[PRE_ROUTE], |t.phases[PRE_ROUTE]|);
  }

  lemma ResponsePhaseKeepsIdentity(c: Ctx, t: Table, x: Inputs, p: nat)
    requires Fits(t, x) && IsResponsePhase(p)
    ensures PhaseOf(c, t, x, p).ctx.data.identity == c.data.identity
  {
    IdentityIsGranted(c, p, t.phases[p], x.envs[p], |t.phases[p]|);
  }

  // ----- the response -----

  /** A request for which a response was written by a filter remembers it. */
  function Written(d: Data, response: Response): Data {
    d.(responseStatus := NormalizeStatus(response.status), responseHeader := response.headers, responseBody := response.body)
  }

  /** The last phase of a request: its own answer if it stops, and otherwise this one. */
  ghost predicate EndsIn(r: PhaseRun, phase: nat, otherwise: Answer, answer: Answer, now: Ctx) {
    if r.stop.Some?
    then answer == Stopped(phase, r.stop.value) && now == Ctx(Written(r.ctx.data, r.stop.value), r.ctx.admitted)
    else answer == otherwise && now == r.ctx
  }

  function WithStatus(c: Ctx, status: int): Ctx {
    c.(data := c.data.(responseStatus := status))
  }

  /**
  How a routable request is answered: on_error runs with 404 if the plugin is gone, 503 if it cannot take the request, 502 if
  the call failed, or the status of a reply of 500 and above, and post_handler runs on every reply on_error did not stop.
  */
  ghost predicate Responds(c: Ctx, t: Table, x: Inputs, called: bool, answer: Answer, now: Ctx)
    requires Fits(t, x)
  {
    if !called then
      EndsIn(PhaseOf(WithStatus(c, if x.backend.live then 503 else 404), t, x, ON_ERROR), ON_ERROR,
             Unavailable(!x.backend.live), answer, now)
    else if x.backend.reply.None? then
      EndsIn(PhaseOf(WithStatus(c, 502), t, x, ON_ERROR), ON_ERROR, BackendFailed, answer, now)
    else
      var y := x.backend.reply.value;
      var replied := Ctx(c.data.(responseStatus := y.status, responseHeader := y.headers, responseBody := y.body), c.admitted);
      var errors := if y.status >= 500 then PhaseOf(replied, t, x, ON_ERROR) else PhaseRun(replied, None, []);
      if errors.stop.Some? then EndsIn(errors, ON_ERROR, NotRoutable, answer, now)
      else
        var r := PhaseOf(errors.ctx, t, x, POST_HANDLER);
        EndsIn(r, POST_HANDLER, Served(NormalizeStatus(r.ctx.data.responseStatus), r.ctx.data), answer, now)
  }

  /** A passed request is answered for its plugin's backend, or as not routable. */
  ghost predicate Dispatches(c: Ctx, t: Table, x: Inputs, called: bool, answer: Answer, now: Ctx)
    requires Fits(t, x)
  {
    var key := PluginOf(c.data.path);
    if key.None? then answer == NotRoutable && now == c
    else Responds(Ctx(c.data, c.admitted + if called then {key.value} else {}), t, x, called, answer, now)
  }

  /** Where no filter is declared for on_error and post_handler, the answer and its status are the gateway's own. */
  lemma UnfilteredResponse(c: Ctx, t: Table, x: Inputs, called: bool, answer: Answer, now: Ctx)
    requires Fits(t, x) && t.phases[ON_ERROR] == [] && t.phases[POST_HANDLER] == []
    ensures var b, status, d := x.backend, now.data.responseStatus, now.data;
            Responds(c, t, x, called, answer, now) <==>
              && now.admitted == c.admitted
              && (!called ==> answer == Unavailable(!b.live) && d == c.data.(responseStatus := if b.live then 503 else 404))
              && (called && b.reply.None? ==> answer == BackendFailed && d == c.data.(responseStatus := 502))
              && (called && b.reply.Some? ==>
                    && d == c.data.(responseStatus := b.reply.value.status, responseHeader := b.reply.value.headers,
                                    responseBody := b.reply.value.body)
                    && answer == Served(if status == 0 then 200 else if 100 <= status <= 599 then status else 502, d))
  {
  }

  /** A filter of on_error that stops the phase has the last word on a failure, and of post_handler on a reply below 500. */
  lemma StoppedResponse(c: Ctx, t: Table, x: Inputs, answer: Answer, now: Ctx)
    requires Fits(t, x) && Responds(c, t, x, true, answer, now)
    ensures x.backend.reply.None? ==>
              var r := PhaseOf(c.(data := c.data.(responseStatus := 502)), t, x, 6).stop;
              if r.Some? then answer == Stopped(6, r.value) && Remembers(now.data, r.value) else answer == BackendFailed
    ensures x.backend.reply.Some? && x.backend.reply.value.status < 500 ==>
              var y := x.backend.reply.value;
              var replied := c.data.(responseStatus := y.status, responseHeader := y.headers, responseBody := y.body);
              var r := PhaseOf(c.(data := replied), t, x, 5).stop;
              if r.Some? then answer == Stopped(5, r.value) && Remembers(now.data, r.value) else answer.Served?
  {
  }

  predicate Remembers(d: Data, r: Response) {
    && d.responseHeader == r.headers && d.responseBody == r.body
    && d.responseStatus == if r.status == 0 then 200 else if 100 <= r.status <= 599 then r.status else 502
  }

  /** A caller is told to authenticate exactly if no filter answered first, sessions are configured and nobody was identified. */
  lemma RefusalMeans(c: Ctx, t: Table, x: Inputs)
    requires Fits(t, x) && !Passes(c, t, x)
    ensures var first, second, third := Authenticated(c, t, x), Authorized(c, t, x), Handled(c, t, x);
            var open := first.stop.None? && second.stop.None?;
            && (Refusal(c, t, x) == Unauthenticated <==> open && x.auth && second.ctx.data.identity.None?)
            && (first.stop.Some? ==> Refusal(c, t, x) == Stopped(2, first.stop.value))
            && (first.stop.None? && second.stop.Some? ==> Refusal(c, t, x) == Stopped(3, second.stop.value))
            && (open && Refusal(c, t, x) != Unauthenticated ==> third.stop.Some? && Refusal(c, t, x) == Stopped(4, third.stop.value))
  {
  }

  // ----- the handler -----

  method WriteStop(rc: RequestContext, response: Response)
    requires rc.Valid()
    modifies rc`data
    ensures rc.Valid() && rc.data == Written(old(rc.data), response)
  {
    rc.data := rc.data.(responseStatus := NormalizeStatus(response.status),
                        responseHeader := response.headers, responseBody := response.body);
  }

  /** Session, authenticate, authorize, the refusal, and pre_handler; `None` means carry on. */
  method Admission(rc: RequestContext, t: Table, x: Inputs) returns (answer: Option<Answer>)
    requires rc.Valid() && Fits(t, x)
    modifies rc
    ensures rc.Valid()
    ensures answer.None? <==> Passes(old(rc.View()), t, x)
    ensures answer.None? ==> rc.View() == Handled(old(rc.View()), t, x).ctx
    ensures answer.Some? ==> answer.value == Refusal(old(rc.View()), t, x)
    ensures answer.Some? && answer.value.Unauthenticated? ==> rc.data.responseStatus == 401
    ensures answer.Some? && answer.value.Stopped? ==> rc.data.responseStatus == NormalizeStatus(answer.value.response.status)
  {
    if x.auth && x.session.Some? {
      rc.data := rc.data.(identity := x.session);
    }
    var stop, sent := RunFilters(rc, AUTHENTICATE, t.phases[AUTHENTICATE], x.envs[AUTHENTICATE]);
    if stop.Some? {
      WriteStop(rc, stop.value);
      return Some(Stopped(AUTHENTICATE, stop.value));
    }
    stop, sent := RunFilters(rc, AUTHORIZE, t.phases[AUTHORIZE], x.envs[AUTHORIZE]);
    if stop.Some? {
      WriteStop(rc, stop.value);
      return Some(Stopped(AUTHORIZE, stop.value));
    }
    if x.auth && rc.data.identity.None? {
      rc.data := rc.data.(responseStatus := 401);
      return Some(Unauthenticated);
    }
    stop, sent := RunFilters(rc, PRE_HANDLER, t.phases[PRE_HANDLER], x.envs[PRE_HANDLER]);
    if stop.Some? {
      WriteStop(rc, stop.value);
      return Some(Stopped(PRE_HANDLER, stop.value));
    }
    return None;
  }

  method CallBackend(rc: RequestContext, b: Backend, key: string) returns (dispatched: Option<BackendRequest>)
    requires rc.Valid()
    modifies rc`admissions
    ensures dispatched.Some? <==> Admits(old(rc.View()), b, key)
    ensures dispatched.Some? <==>
              if key in old(rc.admissions).held then b.picked || (b.live && b.other)
              else (b.picked && b.begins) || (b.live && b.other && b.liveBegins)
    ensures dispatched.Some? ==> dispatched.value == ForBackend(rc.data, key)
    ensures rc.admissions.held.Keys == old(rc.admissions).held.Keys + if dispatched.Some? then {key} else {}
  {
    var d := rc.data;
    var request := Some(BackendRequest(key, d.meth, d.header, d.body, d.identity));
    if b.picked {
      var ok := rc.Admit(key, b.begins);
      if ok {
        return request;
      }
    }
    if b.live && b.other {
      var ok := rc.Admit(key, b.liveBegins);
      if ok {
        return request;
      }
    }
    return None;
  }

  /** The phases after the backend answered or could not be called. */
  method Respond(rc: RequestContext, t: Table, x: Inputs, called: bool) returns (answer: Answer)
    requires rc.Valid() && Fits(t, x)
    modifies rc
    ensures rc.Valid() && rc.data.identity == old(rc.data.identity)
    ensures Responds(old(rc.View()), t, x, called, answer, rc.View())
  {
    var stop, sent;
    if !called || x.backend.reply.None? {
      var status := if called then 502 else if x.backend.live then 503 else 404;
      rc.data := rc.data.(responseStatus := status);
      ResponsePhaseKeepsIdentity(rc.View(), t, x, ON_ERROR);
      stop, sent := RunFilters(rc, ON_ERROR, t.phases[ON_ERROR], x.envs[ON_ERROR]);
      if stop.Some? {
        WriteStop(rc, stop.value);
        return Stopped(ON_ERROR, stop.value);
      }
      return if called then BackendFailed else Unavailable(!x.backend.live);
    }
    var reply := x.backend.reply.value;
    rc.data := rc.data.(responseStatus := reply.status, responseHeader := reply.headers, responseBody := reply.body);
    if rc.data.responseStatus >= 500 {
      ResponsePhaseKeepsIdentity(rc.View(), t, x, ON_ERROR);
      stop, sent := RunFilters(rc, ON_ERROR, t.phases[ON_ERROR], x.envs[ON_ERROR]);
      if stop.Some? {
        WriteStop(rc, stop.value);
        return Stopped(ON_ERROR, stop.value);
      }
    }
    ResponsePhaseKeepsIdentity(rc.View(), t, x, POST_HANDLER);
    stop, sent := RunFilters(rc, POST_HANDLER, t.phases[POST_HANDLER], x.envs[POST_HANDLER]);
    if stop.Some? {
      WriteStop(rc, stop.value);
      return Stopped(POST_HANDLER, stop.value);
    }
    return Served(NormalizeStatus(rc.data.responseStatus), rc.data);
  }

  /** What is sent to the backend of a request. */
  function ForBackend(d: Data, key: string): BackendRequest {
    BackendRequest(key, d.meth, d.header, d.body, d.identity)
  }

  /** Routes a request that passed, on its path as it now stands. */
  method Dispatch(rc: RequestContext, t: Table, x: Inputs) returns (answer: Answer, dispatched: Option<BackendRequest>)
    requires rc.Valid() && Fits(t, x)
    modifies rc
    ensures rc.Valid() && rc.data.identity == old(rc.data).identity
    ensures dispatched.Some? <==> Routed(old(rc.View()), x)
    ensures dispatched.Some? ==>
              PluginOf(old(rc.data).path).Some? && dispatched.value == ForBackend(old(rc.data), PluginOf(old(rc.data).path).value)
    ensures Dispatches(old(rc.View()), t, x, dispatched.Some?, answer, rc.View())
  {
    var key := PluginOf(rc.data.path);
    if key.None? {
      return NotRoutable, None;
    }
    dispatched := CallBackend(rc, x.backend, key.value);
    answer := Respond(rc, t, x, dispatched.Some?);
  }

  /**
  The backend is called exactly when every phase before it let the request through, and then with the identity
  left by authorize — never an anonymous one where sessions are configured — and the headers as they stand.
  */
  method ServePlugin(rc: RequestContext, t: Table, x: Inputs) returns (answer: Answer, dispatched: Option<BackendRequest>)
    requires rc.Valid() && Fits(t, x)
    modifies rc
    ensures rc.Valid()
    ensures dispatched.Some? <==> Reaches(old(rc.View()), t, x)
    ensures dispatched.Some? ==>
              var h := Handled(old(rc.View()), t, x).ctx.data;
              && PluginOf(h.path).Some? && dispatched.value == ForBackend(h, PluginOf(h.path).value)
              && dispatched.value.identity == Authorized(old(rc.View()), t, x).ctx.data.identity == rc.data.identity
              && (x.auth ==> dispatched.value.identity.Some?)
              && dispatched.value.meth == old(rc.data).meth && dispatched.value.body == old(rc.data).body
    ensures Passes(old(rc.View()), t, x) ==>
              Dispatches(Handled(old(rc.View()), t, x).ctx, t, x, dispatched.Some?, answer, rc.View())
    ensures !Passes(old(rc.View()), t, x) ==> answer == Refusal(old(rc.View()), t, x)
  {
    ghost var c := rc.View();
    var refused := Admission(rc, t, x);
    if refused.Some? {
      return refused.value, None;
    }
    IdentityComesFromAuthentication(c, t, x);
    answer, dispatched := Dispatch(rc, t, x);
  }
}

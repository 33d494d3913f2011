/**
What one filter of a phase does to a request, said field by field (core/pipeline/runner.go, context.go, headers.go).

`Pipeline` computes a phase; here every part of one of its steps is described by what the filter's declaration, the
request and the plugin's reply say, for every filter of every phase of every request.
*/
module Filtering {
  import opened Chain
  import opened Common
  import opened Pipeline
  import Pathmatch

  // ----- header names -----

  /** The bytes a header name may have. */
  predicate NameByte(c: char) {
    || c in "!#$%&'*+-.^_`|~" || c in "0123456789"
    || c in "ABCDEFGHIJKLMNOPQRSTUVWXYZ" || c in "abcdefghijklmnopqrstuvwxyz"
  }

  ghost predicate IsName(k: string) {
    forall i :: 0 <= i < |k| ==> NameByte(k[i])
  }

  lemma Digits(c: char)
    ensures '0' <= c <= '9' <==> c in "0123456789"
  {
  }

  lemma Capitals(c: char)
    ensures 'A' <= c <= 'Z' <==> c in "ABCDEFGHIJKLMNOPQRSTUVWXYZ"
  {
  }

  lemma Smalls(c: char)
    ensures 'a' <= c <= 'z' <==> c in "abcdefghijklmnopqrstuvwxyz"
  {
  }

  lemma TokenMeans(c: char)
    ensures IsToken(c) <==> NameByte(c)
  {
    Digits(c);
    Capitals(c);
    Smalls(c);
  }

  lemma NameMeans(k: string)
    ensures IsName(k) <==> forall i :: 0 <= i < |k| ==> IsToken(k[i])
  {
    forall i | 0 <= i < |k|
      ensures NameByte(k[i]) <==> IsToken(k[i])
    {
      TokenMeans(k[i]);
    }
  }

  predicate Small(c: char) {
    'a' <= c <= 'z'
  }

  predicate Capital(c: char) {
    'A' <= c <= 'Z'
  }

  /** The same character, or the same letter, one small and one capital. */
  predicate SameLetter(a: char, b: char) {
    a == b || (Capital(a) && b as int == a as int + 32) || (Capital(b) && a as int == b as int + 32)
  }

  ghost predicate SameButForCase(a: string, b: string) {
    |a| == |b| && forall i :: 0 <= i < |a| ==> SameLetter(a[i], b[i])
  }

  /** No letter is small where a word starts, nor capital elsewhere. */
  predicate WellCased(starts: bool, c: char) {
    if starts then !Small(c) else !Capital(c)
  }

  predicate CasedAt(k: string, upper: bool, i: nat)
    requires i < |k|
  {
    WellCased(if i == 0 then upper else k[i - 1] == '-', k[i])
  }

  ghost predicate Capitalised(k: string, upper: bool) {
    forall i: nat :: i < |k| ==> CasedAt(k, upper, i)
  }

  lemma {:induction false} RecaseMeans(k: string, upper: bool)
    ensures SameButForCase(k, Recase(k, upper)) && Capitalised(Recase(k, upper), upper)
  {
    if k != "" {
      var r, rest := Recase(k, upper), Recase(k[1..], k[0] == '-');
      RecaseMeans(k[1..], k[0] == '-');
      assert r[0] == '-' <==> k[0] == '-';
      SameLonger(k[0], k[1..], r[0], rest);
      CasedLonger(r[0], rest, upper);
      assert r == [r[0]] + rest && k == [k[0]] + k[1..];
    }
  }

  lemma SameLonger(c: char, s: string, d: char, t: string)
    requires SameLetter(c, d) && SameButForCase(s, t)
    ensures SameButForCase([c] + s, [d] + t)
  {
  }

  lemma CasedLonger(c: char, s: string, upper: bool)
    requires WellCased(upper, c) && Capitalised(s, c == '-')
    ensures Capitalised([c] + s, upper)
  {
    var k := [c] + s;
    forall i: nat | i < |k|
      ensures CasedAt(k, upper, i)
    {
      if i > 0 {
        assert CasedAt(s, c == '-', i - 1);
      }
    }
  }

  lemma OneCase(starts: bool, a: char, b: char)
    requires SameLetter(a, b) && WellCased(starts, a) && WellCased(starts, b)
    ensures a == b
  {
  }

  /** Spelling a name canonically forgets its case and nothing else. */
  lemma {:induction false} OneSpelling(a: string, b: string, upper: bool, n: nat)
    requires n <= |a| && SameButForCase(a, b) && Capitalised(a, upper) && Capitalised(b, upper)
    ensures a[..n] == b[..n]
  {
    if n > 0 {
      OneSpelling(a, b, upper, n - 1);
      assert n > 1 ==> a[n - 2] == a[..n - 1][n - 2] == b[..n - 1][n - 2] == b[n - 2];
      assert CasedAt(a, upper, n - 1) && CasedAt(b, upper, n - 1);
      OneCase(if n == 1 then upper else a[n - 2] == '-', a[n - 1], b[n - 1]);
      assert a[..n] == a[..n - 1] + [a[n - 1]] && b[..n] == b[..n - 1] + [b[n - 1]];
    }
  }

  lemma SameAsBoth(a: string, b: string, c: string)
    requires SameButForCase(a, b) && SameButForCase(b, c)
    ensures SameButForCase(a, c) && SameButForCase(b, a)
  {
  }

  lemma SpellingMeans(k: string)
    ensures IsName(k) ==> IsName(Canonical(k)) && Capitalised(Canonical(k), true) && SameButForCase(k, Canonical(k))
    ensures !IsName(k) ==> Canonical(k) == k
  {
    NameMeans(k);
    RecaseMeans(k, true);
    RecaseIsStable(k, true);
    NameMeans(Canonical(k));
  }

  /**
  Two names are one header exactly when they are equal, or both are proper names and differ in the case of letters only;
  the spelling used has capitals exactly at the start of words.
  */
  lemma SameHeaderExactly(a: string, b: string)
    ensures Canonical(a) == Canonical(b) <==> a == b || (IsName(a) && IsName(b) && SameButForCase(a, b))
  {
    SpellingMeans(a);
    SpellingMeans(b);
    var x, y := Canonical(a), Canonical(b);
    if IsName(a) && IsName(b) {
      SameAsBoth(a, x, x);
      SameAsBoth(b, y, y);
      if x == y {
        SameAsBoth(a, x, b);
      }
      if SameButForCase(a, b) {
        SameAsBoth(a, b, y);
        SameAsBoth(x, a, y);
        OneSpelling(x, y, true, |x|);
        assert x[..|x|] == x && y[..|y|] == y;
      }
    }
  }

  // ----- what a reply changes -----

  /** What an edit makes of one header: the last value set wins over any removal, and without one a removal deletes it. */
  ghost predicate EditedAt(was: Headers, now: Headers, edits: HeaderEdits, remove: seq<string>, k: string) {
    if HasEdit(edits, |edits|, k)
    then exists i: nat :: LastEdit(edits, |edits|, i, k) && k in now && now[k] == edits[i].1
    else (k in now <==> k in was && NoRemoval(remove, |remove|, k)) && (k in now ==> now[k] == was[k])
  }

  ghost predicate HasEdit(edits: HeaderEdits, n: nat, k: string) {
    exists i: nat :: LastEdit(edits, n, i, k)
  }

  lemma {:induction false} EditedOrNot(edits: HeaderEdits, n: nat, k: string)
    requires n <= |edits|
    ensures NoEdit(edits, n, k) <==> !HasEdit(edits, n, k)
  {
    if n > 0 {
      var m := n - 1;
      EditedOrNot(edits, m, k);
      if Canonical(edits[m].0) == k {
        assert LastEdit(edits, n, m, k);
      } else {
        SkipEdit(edits, m, k);
      }
    }
  }

  lemma SkipEdit(edits: HeaderEdits, m: nat, k: string)
    requires m < |edits| && Canonical(edits[m].0) != k
    ensures NoEdit(edits, m + 1, k) <==> NoEdit(edits, m, k)
    ensures HasEdit(edits, m + 1, k) <==> HasEdit(edits, m, k)
  {
    var n := m + 1;
    if i: nat :| LastEdit(edits, m, i, k) {
      SameLastEdit(edits, m, i, k);
    }
    if i: nat :| LastEdit(edits, n, i, k) {
      SameLastEdit(edits, m, i, k);
    }
  }

  lemma SameLastEdit(edits: HeaderEdits, m: nat, i: nat, k: string)
    requires m < |edits| && Canonical(edits[m].0) != k
    ensures LastEdit(edits, m + 1, i, k) <==> LastEdit(edits, m, i, k)
  {
  }

  lemma EditedEverywhere(was: Headers, edits: HeaderEdits, remove: seq<string>, k: string)
    ensures EditedAt(was, Edited(was, edits, remove), edits, remove, k)
  {
    EditedOrNot(edits, |edits|, k);
    if HasEdit(edits, |edits|, k) {
      var i: nat :| LastEdit(edits, |edits|, i, k);
      EditMeans(was, edits, remove, i, k);
    } else {
      EditMeans(was, edits, remove, 0, k);
    }
  }

  /** The last of the first n pairs for the key. */
  ghost predicate LastPair(pairs: seq<(string, string)>, n: nat, i: nat, k: string) {
    i < n <= |pairs| && pairs[i].0 == k && forall j :: i < j < n ==> pairs[j].0 != k
  }

  ghost predicate RecordedAt(was: map<string, string>, now: map<string, string>, pairs: seq<(string, string)>, n: nat, k: string) {
    if exists i: nat :: LastPair(pairs, n, i, k)
    then exists i: nat :: LastPair(pairs, n, i, k) && k in now && now[k] == pairs[i].1
    else (k in now <==> k in was) && (k in now ==> now[k] == was[k])
  }

  lemma {:induction false} RecordedEverywhere(was: map<string, string>, pairs: seq<(string, string)>, n: nat, k: string)
    requires n <= |pairs|
    ensures RecordedAt(was, Recorded(was, pairs, n), pairs, n, k)
  {
    if n > 0 {
      var m, before := n - 1, Recorded(was, pairs, n - 1);
      RecordedEverywhere(was, pairs, m, k);
      if pairs[m].0 == k {
        assert LastPair(pairs, n, m, k);
      } else {
        if i: nat :| LastPair(pairs, n, i, k) {
          assert LastPair(pairs, m, i, k);
        }
        if i: nat :| LastPair(pairs, m, i, k) && k in before && before[k] == pairs[i].1 {
          assert LastPair(pairs, n, i, k);
        }
      }
    }
  }

  /** The filter runs once the answer is there. */
  predicate Late(phase: nat) {
    phase in {5, 6, 7}
  }

  /**
  The request after a mutation: its headers and values as edited, its path rewritten unless the answer is already there,
  the answer's headers edited only then, the identity set only where that is allowed, and nothing else.
  */
  ghost predicate ChangedBy(was: Data, now: Data, m: Mutation, phase: nat, mayIdentify: bool) {
    && now == Data(was.meth, if m.rewritePath == "" || Late(phase) then was.path else m.rewritePath, now.header,
                   if m.setIdentity.None? || !mayIdentify then was.identity else m.setIdentity, now.values, was.body,
                   was.responseStatus, now.responseHeader, was.responseBody)
    && (forall k :: EditedAt(was.header, now.header, m.setRequest, m.removeRequest, k))
    && (forall k :: RecordedAt(was.values, now.values, m.setContext, |m.setContext|, k))
    && (Late(phase) ==> forall k :: EditedAt(was.responseHeader, now.responseHeader, m.setResponse, m.removeResponse, k))
    && (!Late(phase) ==> now.responseHeader == was.responseHeader)
  }

  lemma MutationMeans(c: Data, m: Mutation, phase: nat, mayIdentify: bool)
    ensures ChangedBy(c, Mutated(c, m, phase, mayIdentify), m, phase, mayIdentify)
  {
    forall k
      ensures EditedAt(c.header, Edited(c.header, m.setRequest, m.removeRequest), m.setRequest, m.removeRequest, k)
    {
      EditedEverywhere(c.header, m.setRequest, m.removeRequest, k);
    }
    forall k
      ensures EditedAt(c.responseHeader, Edited(c.responseHeader, m.setResponse, m.removeResponse), m.setResponse, m.removeResponse, k)
    {
      EditedEverywhere(c.responseHeader, m.setResponse, m.removeResponse, k);
    }
    forall k
      ensures RecordedAt(c.values, Recorded(c.values, m.setContext, |m.setContext|), m.setContext, |m.setContext|, k)
    {
      RecordedEverywhere(c.values, m.setContext, |m.setContext|, k);
    }
  }

  // ----- one filter of a phase -----

  ghost predicate Hit(f: Filter, d: Data) {
    (f.compiled.methods.Some? ==> d.meth in f.compiled.methods.value) && Pathmatch.CoveredBy(f.compiled.paths, d.path)
  }

  predicate Oversized(f: Filter, d: Data) {
    f.decl.needsRequestBody && f.maxBody < |d.body|
  }

  /** The plugin is asked: it can be reached, its breaker lets the call through, and it has room for this request. */
  predicate Asked(f: Filter, e: Env, c: Ctx) {
    !Oversized(f, c.data) && e.resolved && e.allowed && (f.pluginKey !in c.admitted ==> e.begins)
  }

  function Plain(status: int, text: string): Response {
    Response(status, map["Content-Type" := ["text/plain; charset=utf-8"]], text)
  }

  /** How a fail-closed filter that reached no decision ends the request, and in which order the reasons are found. */
  ghost predicate Refuses(f: Filter, e: Env, c: Ctx, r: Response) {
    var who := f.pluginKey + "/" + (if f.decl.name == "" then f.decl.phase else f.decl.name);
    r == if Oversized(f, c.data) then Plain(413, "request body too large for filter " + who)
         else if !e.resolved then Plain(503, "plugin " + f.pluginKey + " is unavailable")
         else if !e.allowed then Plain(503, "plugin " + f.pluginKey + " is unhealthy")
         else if !Asked(f, e, c) then Plain(503, "plugin " + f.pluginKey + " is draining")
         else Plain(503, "filter " + who + " failed")
  }

  /** What a filter is told: bodies only if it asks for them, the answer only once it is there. */
  ghost predicate Tells(q: FilterRequest, phase: nat, f: Filter, d: Data) {
    && q.phase == phase && q.filterName == f.decl.name && q.meth == d.meth && q.path == d.path && q.headers == d.header
    && q.identity == d.identity && q.values == d.values
    && (f.decl.needsRequestBody ==> q.body == d.body) && (!f.decl.needsRequestBody ==> q.body == "")
    && (Late(phase) ==> q.upstreamStatus == d.responseStatus && q.upstreamHeaders == d.responseHeader)
    && (!Late(phase) ==> q.upstreamStatus == 0 && q.upstreamHeaders == map[])
    && (Late(phase) && f.decl.needsResponseBody ==> q.upstreamBody == d.responseBody)
    && (!(Late(phase) && f.decl.needsResponseBody) ==> q.upstreamBody == "")
  }

  /** A filter that is asked and does not fail. */
  ghost predicate Decides(was: PhaseRun, now: PhaseRun, phase: nat, f: Filter, e: Env) {
    match e.reply
    case Error => false
    case Continue => now.stop.None? && now.ctx.data == was.ctx.data
    case ShortCircuit(response) => now.stop == response && now.ctx.data == was.ctx.data
    case Mutate(None) => now.stop.None? && now.ctx.data == was.ctx.data
    case Mutate(Some(m)) =>
      now.stop.None? && ChangedBy(was.ctx.data, now.ctx.data, m, phase, f.allowIdentityMutation && phase in {2, 3})
  }

  /** The whole effect of a filter number `at` on a phase that is still running. */
  ghost predicate Steps(was: PhaseRun, now: PhaseRun, phase: nat, f: Filter, e: Env, at: nat) {
    if !Hit(f, was.ctx.data) then now == was
    else
      var asked := Asked(f, e, was.ctx);
      && now.ctx.admitted == was.ctx.admitted + (if asked then {f.pluginKey} else {})
      && (!asked ==> now.sent == was.sent)
      && (asked ==> now.sent != [] && now.sent[..|now.sent| - 1] == was.sent)
      && (asked ==> now.sent[|now.sent| - 1].at == at && Tells(now.sent[|now.sent| - 1].request, phase, f, was.ctx.data))
      && (asked && !e.reply.Error? ==> Decides(was, now, phase, f, e))
      && (!asked || e.reply.Error? ==> now.ctx.data == was.ctx.data)
      && (!asked || e.reply.Error? ==> (f.decl.failClosed <==> now.stop.Some?))
      && (!asked || e.reply.Error? ==> now.stop.Some? ==> Refuses(f, e, was.ctx, now.stop.value))
  }

  lemma DecisionMeans(was: PhaseRun, phase: nat, f: Filter, e: Env, at: nat)
    requires was.stop.None? && Hit(f, was.ctx.data) && Asked(f, e, was.ctx) && !e.reply.Error?
    ensures Decides(was, Next(was, phase, f, e, at), phase, f, e)
  {
    if e.reply.Mutate? && e.reply.mutation.Some? {
      MutationMeans(was.ctx.data, e.reply.mutation.value, phase, f.allowIdentityMutation && phase in {2, 3});
    }
  }

  /** Every filter of every phase does exactly that, until one stops the phase. */
  lemma FilterMeans(c: Ctx, phase: nat, filters: seq<Filter>, envs: seq<Env>, i: nat)
    requires i < |filters| == |envs|
    ensures var was, now := Run(c, phase, filters, envs, i), Run(c, phase, filters, envs, i + 1);
            if was.stop.Some? then now == was else Steps(was, now, phase, filters[i], envs[i], i)
  {
    var was, f, e := Run(c, phase, filters, envs, i), filters[i], envs[i];
    if was.stop.None? && Hit(f, was.ctx.data) && Asked(f, e, was.ctx) && !e.reply.Error? {
      DecisionMeans(was, phase, f, e, i);
    }
  }
}

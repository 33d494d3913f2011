/**
Path globs (pathmatch/pathmatch.go): compiling a pattern, matching a path by walking it with slices,
and sets of patterns.  `Covers` says declaratively what a compiled pattern means and `Means` what the
pattern text means; the walking matcher is proved to agree with both.
*/
module Pathmatch {

  import opened Common

  datatype Pattern =
    | All
    | Exact(literal: string)
    | Prefix(literal: string)
    | Wild(segs: seq<string>, trailingAll: bool)

  datatype Set = Set(patterns: seq<Pattern>, matchAll: bool)

  // ----- text helpers -----

  predicate HasSuffix(s: string, p: string) {
    |p| <= |s| && s[|s| - |p|..] == p
  }

  predicate Contains(s: string, p: string) {
    exists i :: 0 <= i <= |s| && HasPrefix(s[i..], p)
  }

  /** Position of the first slash, or the length when there is none. */
  function SlashAt(s: string): (i: nat)
    ensures i <= |s| && '/' !in s[..i] && (i < |s| ==> s[i] == '/')
  {
    Find(s, '/')
  }

  function Split(s: string): (r: seq<string>)
    ensures |r| >= 1
    decreases |s|
  {
    var i := SlashAt(s);
    if i == |s| then [s] else [s[..i]] + Split(s[i + 1..])
  }

  function TrimLeft(s: string): (r: string)
    ensures |r| <= |s| && (r == "" || r[0] != '/')
  {
    if s != "" && s[0] == '/' then TrimLeft(s[1..]) else s
  }

  function TrimRight(s: string): (r: string)
    ensures |r| <= |s|
  {
    if s != "" && s[|s| - 1] == '/' then TrimRight(s[..|s| - 1]) else s
  }

  function SplitSegments(path: string): seq<string> {
    var trimmed := TrimRight(TrimLeft(path));
    if trimmed == "" then [] else Split(trimmed)
  }

  // ----- compiling -----

  /** The pattern without its final "/ **", and whether it had one. */
  function Body(pattern: string): (string, bool) {
    if HasSuffix(pattern, "/**") then (pattern[..|pattern| - 3], true) else (pattern, false)
  }

  predicate PartialWildcard(seg: string) {
    seg != "*" && '*' in seg
  }

  function Compile(pattern: string): Result<Pattern> {
    if pattern == "" then Err("empty pattern")
    else if pattern == "**" || pattern == "/**" then Ok(All)
    else if !HasPrefix(pattern, "/") then Err("must start with a slash")
    else
      var (body, trailingAll) := Body(pattern);
      if Contains(body, "**") then Err("two stars inside")
      else
        var segs := SplitSegments(body);
        if exists s :: s in segs && PartialWildcard(s) then Err("star inside a segment")
        else if "*" in segs then Ok(Wild(segs, trailingAll))
        else if trailingAll then Ok(Prefix(body))
        else Ok(Exact(body))
  }

  // ----- what patterns mean -----

  /** The non-empty segments of a path. */
  function Segments(path: string): (r: seq<string>)
    ensures forall s :: s in r ==> s != ""
    decreases |path|
  {
    if path == "" then []
    else if path[0] == '/' then Segments(path[1..])
    else [path[..SlashAt(path)]] + Segments(path[SlashAt(path)..])
  }

  /** Pattern segments match path segments one for one as far as the pattern goes. */
  ghost predicate Pointwise(segs: seq<string>, ps: seq<string>) {
    |segs| <= |ps| && forall i :: 0 <= i < |segs| ==> segs[i] == "*" || segs[i] == ps[i]
  }

  ghost predicate WildCovers(segs: seq<string>, trailingAll: bool, path: string) {
    && Pointwise(segs, Segments(path))
    && (trailingAll || (|Segments(path)| == |segs| && !HasSuffix(path, "//")))
  }

  ghost predicate Covers(p: Pattern, path: string) {
    match p
    case All => true
    case Exact(l) => path == l
    case Prefix(l) => path == l || HasPrefix(path, l + "/")
    case Wild(segs, trailingAll) => WildCovers(segs, trailingAll, path)
  }

  /** What a pattern means, read off its text. */
  ghost predicate Means(pattern: string, path: string) {
    if pattern == "**" then true
    else
      var (body, below) := Body(pattern);
      if pattern == "/**" then true
      else if '*' in body then WildCovers(SplitSegments(body), below, path)
      else path == body || (below && HasPrefix(path, body + "/"))
  }

  // ----- the walking matcher -----

  /** First non-empty segment and what follows it. */
  method NextSegment(path: string) returns (seg: string, rest: string, ghost pre: string)
    ensures Segments(path) == [] ==> seg == "" && rest == ""
    ensures Segments(path) != [] ==> seg == Segments(path)[0] && Segments(rest) == Segments(path)[1..]
    ensures seg != "" ==> path == pre + rest && pre != "" && pre[|pre| - 1] != '/'
    ensures rest == "" || rest[0] == '/'
    ensures seg == "" <==> Segments(path) == []
  {
    ghost var skipped;
    var p;
    p, skipped := SkipSlashes(path);
    if p == "" {
      return "", "", "";
    }
    var i := SlashAt(p);
    seg, rest := p[..i], p[i..];
    pre := skipped + seg;
    CutSegment(path, skipped, p);
  }

  method SkipSlashes(path: string) returns (p: string, ghost skipped: string)
    ensures Segments(p) == Segments(path) && path == skipped + p
    ensures p == "" || p[0] != '/'
  {
    p, skipped := path, "";
    while |p| > 0 && p[0] == '/'
      invariant Segments(p) == Segments(path) && path == skipped + p
    {
      SlashOff(path, skipped, p);
      skipped := skipped + [p[0]];
      p := p[1..];
    }
  }

  lemma SlashOff(path: string, skipped: string, p: string)
    requires path == skipped + p && p != "" && p[0] == '/'
    ensures path == (skipped + [p[0]]) + p[1..] && Segments(p[1..]) == Segments(p)
  {
    assert p == [p[0]] + p[1..];
    Regroup(skipped, [p[0]], p[1..]);
  }

  lemma Regroup(a: string, b: string, c: string)
    ensures a + (b + c) == (a + b) + c
  {
  }

  /** Cutting the segment a string starts with. */
  lemma CutSegment(path: string, skipped: string, p: string)
    requires path == skipped + p && p != "" && p[0] != '/'
    ensures var i := SlashAt(p); var pre := skipped + p[..i];
            && Segments(p) == [p[..i]] + Segments(p[i..]) && p[..i] != ""
            && path == pre + p[i..] && pre != "" && pre[|pre| - 1] != '/'
            && (p[i..] == "" || p[i..][0] == '/')
  {
    var i := SlashAt(p);
    assert p == p[..i] + p[i..];
    Regroup(skipped, p[..i], p[i..]);
    assert (skipped + p[..i])[|skipped| + i - 1] == p[i - 1];
    assert p[i - 1] in p[..i];
  }

  /** Segments of a suffix that is only slashes. */
  lemma {:induction false} OnlySlashes(rest: string)
    requires rest == "" || rest[0] == '/'
    ensures Segments(rest) == [] <==> forall c :: c in rest ==> c == '/'
    decreases |rest|
  {
    if rest != "" {
      var t := rest[1..];
      assert rest == [rest[0]] + t;
      if t != "" && t[0] != '/' {
        assert t[0] in rest && Segments(t) != [];
      } else {
        OnlySlashes(t);
        assert forall c :: c in rest <==> c == rest[0] || c in t;
      }
    }
  }

  lemma DoubleSlashAtEnd(path: string)
    ensures HasSuffix(path, "//") <==> |path| >= 2 && path[|path| - 1] == path[|path| - 2] == '/'
  {
    if |path| >= 2 {
      assert path[|path| - 2..] == [path[|path| - 2], path[|path| - 1]];
    }
  }

  /** What is left after the last segment decides whether there was at most one trailing slash. */
  lemma TrailingSlash(path: string, pre: string, rest: string)
    requires path == pre + rest && pre != "" && pre[|pre| - 1] != '/'
    requires rest == "" || rest[0] == '/'
    ensures rest == "" || rest == "/" <==> Segments(rest) == [] && !HasSuffix(path, "//")
  {
    OnlySlashes(rest);
    DoubleSlashAtEnd(path);
    if rest == "" || rest == "/" {
      assert path[|pre| - 1] == pre[|pre| - 1];
    } else if Segments(rest) == [] {
      assert |rest| >= 2 && rest[|rest| - 1] in rest && rest[|rest| - 2] in rest;
      assert path[|path| - 2..] == "//";
    }
  }

  /** The walk has consumed `done`, which held the first k segments. */
  ghost predicate Walked(path: string, k: nat, done: string, rest: string) {
    && path == done + rest
    && k <= |Segments(path)| && Segments(rest) == Segments(path)[k..]
    && (k > 0 ==> (rest == "" || rest[0] == '/') && done != "" && done[|done| - 1] != '/')
  }

  lemma WalkOn(path: string, k: nat, done: string, rest: string, pre: string, next: string)
    requires Walked(path, k, done, rest)
    requires Segments(rest) != [] && Segments(next) == Segments(rest)[1..]
    requires rest == pre + next && pre != "" && pre[|pre| - 1] != '/'
    requires next == "" || next[0] == '/'
    ensures Walked(path, k + 1, done + pre, next)
  {
    Regroup(done, pre, next);
    assert (done + pre)[|done| + |pre| - 1] == pre[|pre| - 1];
    DropOneMore(Segments(path), k);
  }

  lemma DropOneMore(ps: seq<string>, k: nat)
    requires k < |ps|
    ensures ps[k..][1..] == ps[k + 1..]
  {
  }

  method MatchSegments(segs: seq<string>, trailingAll: bool, path: string) returns (ok: bool)
    requires segs != []
    ensures ok == WildCovers(segs, trailingAll, path)
  {
    var rest := path;
    ghost var ps := Segments(path);
    ghost var done := "";
    for k := 0 to |segs|
      invariant Walked(path, k, done, rest)
      invariant forall j :: 0 <= j < k ==> segs[j] == "*" || segs[j] == ps[j]
    {
      var got, next, pre := NextSegment(rest);
      if got == "" {
        return false;
      }
      WalkOn(path, k, done, rest, pre, next);
      assert got == ps[k];
      rest, done := next, done + pre;
      if segs[k] != "*" && segs[k] != got {
        return false;
      }
    }
    if trailingAll {
      return true;
    }
    TrailingSlash(path, done, rest);
    return rest == "" || rest == "/";
  }

  /** A compiled wildcard pattern always has a segment to match. */
  predicate WellFormed(p: Pattern) {
    p.Wild? ==> p.segs != []
  }

  method Match(p: Pattern, path: string) returns (ok: bool)
    requires WellFormed(p)
    ensures ok == Covers(p, path)
  {
    match p {
      case All => return true;
      case Exact(literal) => return path == literal;
      case Prefix(literal) =>
        if !HasPrefix(path, literal) {
          return false;
        }
        var rest := path[|literal|..];
        assert path == literal + rest;
        assert rest != "" ==> path[..|literal| + 1] == literal + [rest[0]];
        return rest == "" || rest == "/" || rest[0] == '/';
      case Wild(segs, trailingAll) =>
        ok := MatchSegments(segs, trailingAll, path);
    }
  }

  // ----- sets -----

  ghost predicate SetCovers(patterns: seq<string>, path: string) {
    exists i :: 0 <= i < |patterns| && Means(patterns[i], path)
  }

  ghost predicate ValidSet(s: Set) {
    && (forall i :: 0 <= i < |s.patterns| ==> WellFormed(s.patterns[i]))
    && (s.matchAll <==> exists i :: 0 <= i < |s.patterns| && s.patterns[i] == All)
  }

  ghost predicate CoveredBy(s: Set, path: string) {
    exists i :: 0 <= i < |s.patterns| && Covers(s.patterns[i], path)
  }

  method CompileSet(patterns: seq<string>) returns (r: Result<Set>)
    ensures r.Err? <==> exists i :: 0 <= i < |patterns| && Compile(patterns[i]).Err?
    ensures r.Ok? ==> ValidSet(r.value) && |r.value.patterns| == |patterns|
    ensures r.Ok? ==> forall path :: CoveredBy(r.value, path) <==> SetCovers(patterns, path)
  {
    var s := Set([], false);
    for i := 0 to |patterns|
      invariant CompiledUpTo(patterns, s, i)
    {
      match Compile(patterns[i]) {
        case Err(reason) => return Err(reason);
        case Ok(p) =>
          CompiledNext(patterns, s, i, p);
          s := Set(s.patterns + [p], s.matchAll || p == All);
      }
    }
    forall path
      ensures CoveredBy(s, path) <==> SetCovers(patterns, path)
    {
      CompiledCovers(patterns, s, path);
    }
    return Ok(s);
  }

  ghost predicate CompiledUpTo(patterns: seq<string>, s: Set, n: nat) {
    && ValidSet(s) && |s.patterns| == n <= |patterns|
    && forall k :: 0 <= k < n ==> Compile(patterns[k]) == Ok(s.patterns[k])
  }

  lemma CompiledNext(patterns: seq<string>, s: Set, n: nat, p: Pattern)
    requires CompiledUpTo(patterns, s, n) && n < |patterns| && Compile(patterns[n]) == Ok(p)
    ensures CompiledUpTo(patterns, Set(s.patterns + [p], s.matchAll || p == All), n + 1)
  {
    CompileKeepsMeaning(patterns[n], "");
    var after := s.patterns + [p];
    assert after[n] == p && forall k :: 0 <= k < n ==> after[k] == s.patterns[k];
  }

  lemma CompiledCovers(patterns: seq<string>, s: Set, path: string)
    requires CompiledUpTo(patterns, s, |patterns|)
    ensures CoveredBy(s, path) <==> SetCovers(patterns, path)
  {
    forall k | 0 <= k < |patterns|
      ensures Covers(s.patterns[k], path) <==> Means(patterns[k], path)
    {
      CompileKeepsMeaning(patterns[k], path);
    }
  }

  method MatchSet(s: Set, path: string) returns (ok: bool)
    requires ValidSet(s)
    ensures ok == CoveredBy(s, path)
  {
    if s.matchAll {
      ghost var i :| 0 <= i < |s.patterns| && s.patterns[i] == All;
      assert Covers(s.patterns[i], path);
      return true;
    }
    for i := 0 to |s.patterns|
      invariant forall k :: 0 <= k < i ==> !Covers(s.patterns[k], path)
    {
      var hit := Match(s.patterns[i], path);
      if hit {
        return true;
      }
    }
    return false;
  }

  // ----- compiling keeps the meaning -----

  ghost predicate StarIn(segs: seq<string>) {
    exists seg :: seg in segs && '*' in seg
  }

  lemma StarInCons(head: string, segs: seq<string>)
    ensures StarIn([head] + segs) <==> '*' in head || StarIn(segs)
  {
    if '*' in head {
      assert head in [head] + segs;
    }
    if seg :| seg in segs && '*' in seg {
      assert seg in [head] + segs;
    }
  }

  lemma StarInParts(s: string, i: nat)
    requires i < |s| && s[i] == '/'
    ensures '*' in s <==> '*' in s[..i] || '*' in s[i + 1..]
  {
    assert s == s[..i] + ['/'] + s[i + 1..];
  }

  lemma {:induction false} StarInSplit(s: string)
    ensures '*' in s <==> StarIn(Split(s))
    decreases |s|
  {
    var i := SlashAt(s);
    if i < |s| {
      StarInSplit(s[i + 1..]);
      StarInParts(s, i);
      StarInCons(s[..i], Split(s[i + 1..]));
    } else {
      StarInCons(s, []);
    }
  }

  lemma {:induction false} StarInTrimLeft(s: string)
    ensures '*' in s <==> '*' in TrimLeft(s)
  {
    if s != "" && s[0] == '/' {
      assert s == ['/'] + s[1..];
      StarInTrimLeft(s[1..]);
    }
  }

  lemma {:induction false} StarInTrimRight(s: string)
    ensures '*' in s <==> '*' in TrimRight(s)
  {
    if s != "" && s[|s| - 1] == '/' {
      assert s == s[..|s| - 1] + ['/'];
      StarInTrimRight(s[..|s| - 1]);
    }
  }

  lemma StarInSegments(body: string)
    ensures '*' in body <==> exists seg :: seg in SplitSegments(body) && '*' in seg
  {
    var trimmed := TrimRight(TrimLeft(body));
    StarInTrimLeft(body);
    StarInTrimRight(TrimLeft(body));
    StarInSplit(trimmed);
  }

  /** Every pattern that compiles matches exactly the paths its text means. */
  lemma CompileKeepsMeaning(pattern: string, path: string)
    requires Compile(pattern).Ok?
    ensures WellFormed(Compile(pattern).value)
    ensures Covers(Compile(pattern).value, path) <==> Means(pattern, path)
  {
    if pattern != "**" && pattern != "/**" {
      var (body, below) := Body(pattern);
      var segs := SplitSegments(body);
      StarInSegments(body);
      if '*' in body {
        var seg :| seg in segs && '*' in seg;
        assert !PartialWildcard(seg);
      } else {
        assert "*" !in segs by {
          assert '*' in "*" by { assert "*"[0] == '*'; }
        }
      }
    }
  }

  /** A wildcard pattern with a doubled slash between segments compiles, and matches nothing. */
  lemma DoubledSlashNeverMatches(p: Pattern, path: string)
    requires p.Wild? && "" in p.segs
    ensures !Covers(p, path)
  {
    var i :| 0 <= i < |p.segs| && p.segs[i] == "";
    if Covers(p, path) {
      assert Segments(path)[i] in Segments(path);
    }
  }

  /** The path that spells out the segments. */
  function Spelled(segs: seq<string>): string {
    if segs == [] then "" else "/" + segs[0] + Spelled(segs[1..])
  }

  predicate PlainSegment(seg: string) {
    seg != "" && '/' !in seg
  }

  lemma SlashAfter(seg: string, rest: string)
    requires PlainSegment(seg) && (rest == "" || rest[0] == '/')
    ensures Segments("/" + seg + rest) == [seg] + Segments(rest)
  {
    var path := "/" + seg + rest;
    assert path[1..] == seg + rest;
    var i := SlashAt(seg + rest);
    if rest == "" {
      assert seg + rest == seg;
      FindNone(seg, '/');
    } else {
      assert seg + rest == seg + ['/'] + rest[1..];
      FindFirst(seg, '/', rest[1..]);
    }
    assert (seg + rest)[..i] == seg && (seg + rest)[i..] == rest;
  }

  lemma {:induction false} SegmentsOfSpelled(segs: seq<string>)
    requires forall seg :: seg in segs ==> PlainSegment(seg)
    ensures Segments(Spelled(segs)) == segs
    ensures Spelled(segs) == "" || Spelled(segs)[0] == '/'
    ensures Spelled(segs) == "" || Spelled(segs)[|Spelled(segs)| - 1] != '/'
  {
    if segs != [] {
      SegmentsOfSpelled(segs[1..]);
      assert PlainSegment(segs[0]);
      SlashAfter(segs[0], Spelled(segs[1..]));
      assert segs == [segs[0]] + segs[1..];
    }
  }

  lemma {:induction false} SplitHasNoSlash(s: string)
    ensures forall seg :: seg in Split(s) ==> '/' !in seg
    decreases |s|
  {
    var i := SlashAt(s);
    if i < |s| {
      SplitHasNoSlash(s[i + 1..]);
    }
  }

  /** A wildcard pattern that compiles matches some path if and only if it has no empty segment. */
  lemma WildMatchesIffNoEmptySegment(pattern: string)
    requires Compile(pattern).Ok? && Compile(pattern).value.Wild?
    ensures (exists path :: Covers(Compile(pattern).value, path)) <==> "" !in Compile(pattern).value.segs
  {
    var p := Compile(pattern).value;
    if "" in p.segs {
      forall path
        ensures !Covers(p, path)
      {
        DoubledSlashNeverMatches(p, path);
      }
    } else {
      SegmentsHaveNoSlash(Body(pattern).0);
      SegmentsOfSpelled(p.segs);
      assert Covers(p, Spelled(p.segs));
    }
  }

  lemma SegmentsHaveNoSlash(body: string)
    ensures forall seg :: seg in SplitSegments(body) ==> '/' !in seg
  {
    SplitHasNoSlash(TrimRight(TrimLeft(body)));
  }

  /** A prefix pattern does not spill into a sibling that merely starts with the same letters. */
  lemma PrefixStopsAtSegment(l: string, c: char, tail: string)
    requires c != '/'
    ensures !Covers(Prefix(l), l + [c] + tail)
  {
    var path := l + [c] + tail;
    assert path[..|l| + 1] == l + [c];
    assert (l + [c])[|l|] != (l + "/")[|l|];
  }

  // ----- which patterns compile -----

  /** Two stars in a row at position i. */
  predicate StarsAt(s: string, i: nat) {
    i + 1 < |s| && s[i] == '*' && s[i + 1] == '*'
  }

  lemma {:induction false} StarsInSplit(s: string, i: nat)
    requires StarsAt(s, i)
    ensures exists seg :: seg in Split(s) && PartialWildcard(seg)
    decreases |s|
  {
    var k := SlashAt(s);
    if k == |s| {
      assert s[i] == '*' && s[i] in s && |s| >= 2;
      assert Split(s)[0] == s && PartialWildcard(s);
      assert s in Split(s);
    } else if i < k {
      assert i + 1 < k;
      var seg := s[..k];
      assert seg[i] == '*' && seg[i] in seg && |seg| >= 2;
      assert Split(s)[0] == seg && PartialWildcard(seg);
      assert seg in Split(s);
    } else {
      var tail := s[k + 1..];
      StarsInSplit(tail, i - k - 1);
      var seg :| seg in Split(tail) && PartialWildcard(seg);
      assert seg in Split(s);
    }
  }

  lemma {:induction false} StarsSurviveTrimLeft(s: string, i: nat) returns (j: nat)
    requires StarsAt(s, i)
    ensures StarsAt(TrimLeft(s), j)
  {
    if s[0] == '/' {
      j := StarsSurviveTrimLeft(s[1..], i - 1);
    } else {
      j := i;
    }
  }

  lemma {:induction false} StarsSurviveTrimRight(s: string, i: nat)
    requires StarsAt(s, i)
    ensures StarsAt(TrimRight(s), i)
  {
    if s[|s| - 1] == '/' {
      StarsSurviveTrimRight(s[..|s| - 1], i);
    }
  }

  /** A double star inside the body makes some segment a partial wildcard, so that check is subsumed. */
  lemma DoubleStarIsPartial(body: string)
    requires Contains(body, "**")
    ensures exists seg :: seg in SplitSegments(body) && PartialWildcard(seg)
  {
    var i :| 0 <= i <= |body| && HasPrefix(body[i..], "**");
    assert body[i..][..2] == "**";
    assert body[i] == body[i..][..2][0] && body[i + 1] == body[i..][..2][1];
    var j := StarsSurviveTrimLeft(body, i);
    StarsSurviveTrimRight(TrimLeft(body), j);
    StarsInSplit(TrimRight(TrimLeft(body)), j);
  }

  /**
  Exactly the patterns that compile: the lone double star, and every pattern that starts with a slash
  and, leaving aside one final double-star segment, uses a star only as a whole segment.
  */
  lemma CompileAcceptsExactly(pattern: string)
    ensures Compile(pattern).Ok? <==>
              pattern == "**" ||
              (HasPrefix(pattern, "/") && forall seg :: seg in SplitSegments(Body(pattern).0) ==> seg == "*" || '*' !in seg)
  {
    var body := Body(pattern).0;
    if pattern == "/**" {
      assert body == "";
    } else if Contains(body, "**") {
      DoubleStarIsPartial(body);
    }
  }
}

/**
What a path pattern covers, character by character (pathmatch/pathmatch.go).

`Pathmatch` compiles a pattern and matches by segments; here the text of the pattern and the text of the path are compared
directly, for patterns without a star, with a star segment, and with everything below.
*/
module Paths {
  import opened Common
  import opened Pathmatch

  // ----- walking a path -----

  /** After slashes only, characters i up to j are a whole segment that the pattern's segment accepts. */
  ghost predicate Takes(seg: string, path: string, i: nat, j: nat) {
    && i < j <= |path| && (forall k :: 0 <= k < i ==> path[k] == '/') && (forall k :: i <= k < j ==> path[k] != '/')
    && (j < |path| ==> path[j] == '/') && (seg == "*" || seg == path[i..j])
  }

  /** Segment after segment is taken, and then only one more slash may follow, or anything if all below is covered. */
  ghost predicate Walks(segs: seq<string>, below: bool, path: string)
    decreases |segs|
  {
    if segs == [] then below || path == "" || path == "/"
    else exists i: nat, j: nat :: Takes(segs[0], path, i, j) && Walks(segs[1..], below, path[j..])
  }

  lemma {:induction false} TakenIsFirst(seg: string, path: string, i: nat, j: nat)
    requires Takes(seg, path, i, j)
    ensures Segments(path) == [path[i..j]] + Segments(path[j..])
    decreases i
  {
    if i == 0 {
      assert path[j..] == "" || path[j..][0] == '/';
      FirstSlash(path, j);
      assert path[0..j] == path[..j];
    } else {
      assert path[0] == '/';
      assert forall k :: 0 <= k < |path| - 1 ==> path[1..][k] == path[k + 1];
      assert path[1..][i - 1..j - 1] == path[i..j] && path[1..][j - 1..] == path[j..];
      TakenIsFirst(seg, path[1..], i - 1, j - 1);
    }
  }

  lemma FirstSlash(path: string, j: nat)
    requires j <= |path| && (forall k :: 0 <= k < j ==> path[k] != '/') && (j < |path| ==> path[j] == '/')
    ensures SlashAt(path) == j
  {
    assert forall k :: 0 <= k < SlashAt(path) ==> path[k] in path[..SlashAt(path)];
  }

  lemma {:induction false} FirstIsTaken(path: string) returns (i: nat, j: nat)
    requires Segments(path) != []
    ensures Takes("*", path, i, j)
    decreases |path|
  {
    if path[0] == '/' {
      i, j := FirstIsTaken(path[1..]);
      i, j := i + 1, j + 1;
      assert forall k :: 0 < k < |path| ==> path[k] == path[1..][k - 1];
    } else {
      i, j := 0, SlashAt(path);
      assert forall k :: 0 <= k < j ==> path[k] in path[..j];
    }
  }

  lemma {:induction false} NothingTaken(path: string, seg: string, i: nat, j: nat)
    requires Segments(path) == []
    ensures !Takes(seg, path, i, j)
    decreases |path|
  {
    if Takes(seg, path, i, j) {
      TakenIsFirst(seg, path, i, j);
    }
  }

  lemma OnlyOneTaken(s: string, t: string, path: string, i: nat, j: nat, m: nat, n: nat)
    requires Takes(s, path, i, j) && Takes(t, path, m, n)
    ensures i == m && j == n
  {
    assert path[i] != '/' && path[m] != '/';
    assert (j < |path| ==> path[j] == '/') && (n < |path| ==> path[n] == '/');
  }

  lemma SegmentsNeedRoom(rest: string)
    requires rest == "" || rest[0] == '/'
    ensures Segments(rest) != [] ==> |rest| >= 2
  {
    if |rest| == 1 {
      assert rest[1..] == "" && Segments(rest) == Segments(rest[1..]);
    }
  }

  /** Whether the end of the path is as it should be, with the segments before j gone. */
  lemma EndAfter(path: string, i: nat, j: nat, n: nat)
    requires Takes("*", path, i, j)
    ensures var rest := path[j..];
            (|Segments(rest)| == n && !HasSuffix(path, "//")) <==>
              if n == 0 then rest == "" || rest == "/" else |Segments(rest)| == n && !HasSuffix(rest, "//")
  {
    var pre, rest := path[..j], path[j..];
    assert path == pre + rest && pre[|pre| - 1] == path[j - 1];
    TrailingSlash(path, pre, rest);
    DoubleSlashAtEnd(path);
    DoubleSlashAtEnd(rest);
    SegmentsNeedRoom(rest);
    if n > 0 && |Segments(rest)| == n {
      assert path[|path| - 1] == rest[|rest| - 1] && path[|path| - 2] == rest[|rest| - 2];
    }
  }

  lemma PointwiseStep(segs: seq<string>, first: string, ps: seq<string>)
    requires segs != []
    ensures Pointwise(segs, [first] + ps) <==> (segs[0] == "*" || segs[0] == first) && Pointwise(segs[1..], ps)
  {
    assert forall k :: 0 < k < |segs| ==> segs[k] == segs[1..][k - 1];
    assert forall k :: 0 < k <= |ps| ==> ([first] + ps)[k] == ps[k - 1];
    if Pointwise(segs, [first] + ps) {
      assert segs[0] == "*" || segs[0] == ([first] + ps)[0];
      forall k | 0 <= k < |segs| - 1
        ensures segs[1..][k] == "*" || segs[1..][k] == ps[k]
      {
        assert segs[k + 1] == "*" || segs[k + 1] == ([first] + ps)[k + 1];
      }
    }
  }

  lemma CoversStep(segs: seq<string>, below: bool, path: string, i: nat, j: nat)
    requires segs != [] && Takes("*", path, i, j)
    ensures WildCovers(segs, below, path) <==>
              && (segs[0] == "*" || segs[0] == path[i..j])
              && if |segs| == 1 then Walks([], below, path[j..]) else WildCovers(segs[1..], below, path[j..])
  {
    TakenIsFirst("*", path, i, j);
    PointwiseStep(segs, path[i..j], Segments(path[j..]));
    EndAfter(path, i, j, |segs| - 1);
  }

  /** The segment matcher accepts a path exactly if it can be walked through. */
  lemma {:induction false} CoversIsWalking(segs: seq<string>, below: bool, path: string)
    requires segs != []
    ensures WildCovers(segs, below, path) <==> Walks(segs, below, path)
    decreases |segs|
  {
    if Segments(path) == [] {
      forall i: nat, j: nat
        ensures !Takes(segs[0], path, i, j)
      {
        NothingTaken(path, segs[0], i, j);
      }
    } else {
      var i, j := FirstIsTaken(path);
      CoversStep(segs, below, path, i, j);
      if |segs| == 1 {
        assert segs[1..] == [];
      } else {
        CoversIsWalking(segs[1..], below, path[j..]);
      }
      WalkStep(segs, below, path, i, j);
    }
  }

  lemma WalkStep(segs: seq<string>, below: bool, path: string, i: nat, j: nat)
    requires segs != [] && Takes("*", path, i, j)
    ensures Walks(segs, below, path) <==> (segs[0] == "*" || segs[0] == path[i..j]) && Walks(segs[1..], below, path[j..])
  {
    if (segs[0] == "*" || segs[0] == path[i..j]) && Walks(segs[1..], below, path[j..]) {
      assert Takes(segs[0], path, i, j);
    }
    if m: nat, n: nat :| Takes(segs[0], path, m, n) && Walks(segs[1..], below, path[n..]) {
      OnlyOneTaken("*", segs[0], path, i, j, m, n);
    }
  }

  // ----- the text of a pattern -----

  ghost predicate OnlySlash(s: string) {
    forall k :: 0 <= k < |s| ==> s[k] == '/'
  }

  lemma {:induction false} TrimmedLeft(a: string, x: string)
    requires OnlySlash(a) && (x == "" || x[0] != '/')
    ensures TrimLeft(a + x) == x
    decreases |a|
  {
    if a == "" {
      assert a + x == x;
    } else {
      assert (a + x)[1..] == a[1..] + x;
      TrimmedLeft(a[1..], x);
    }
  }

  lemma {:induction false} TrimmedRight(x: string, b: string)
    requires OnlySlash(b) && (x == "" || x[|x| - 1] != '/')
    ensures TrimRight(x + b) == x
    decreases |b|
  {
    if b == "" {
      assert x + b == x;
    } else {
      var front := b[..|b| - 1];
      assert (x + b)[..|x + b| - 1] == x + front;
      TrimmedRight(x, front);
    }
  }

  /** The segments with one slash between any two. */
  function Between(segs: seq<string>): string
    requires segs != []
  {
    if |segs| == 1 then segs[0] else segs[0] + "/" + Between(segs[1..])
  }

  /** Proper segments: without slashes, and neither the first nor the last is empty. */
  ghost predicate Proper(segs: seq<string>) {
    segs != [] && segs[0] != "" && segs[|segs| - 1] != "" && forall seg :: seg in segs ==> '/' !in seg
  }

  lemma {:induction false} SplitOf(segs: seq<string>)
    requires segs != [] && forall seg :: seg in segs ==> '/' !in seg
    ensures Split(Between(segs)) == segs
    decreases |segs|
  {
    assert segs[0] in segs;
    if |segs| == 1 {
      FindNone(segs[0], '/');
    } else {
      SplitOf(segs[1..]);
      SplitFirst(segs[0], Between(segs[1..]));
      assert segs == [segs[0]] + segs[1..];
    }
  }

  lemma SplitFirst(seg: string, rest: string)
    requires '/' !in seg
    ensures Split(seg + "/" + rest) == [seg] + Split(rest)
  {
    var text := seg + "/" + rest;
    FindFirst(seg, '/', rest);
    assert text[..|seg|] == seg && text[|seg| + 1..] == rest;
  }

  lemma {:induction false} BetweenEnds(segs: seq<string>)
    requires Proper(segs) || (segs != [] && segs[|segs| - 1] != "" && forall seg :: seg in segs ==> '/' !in seg)
    ensures Between(segs) != "" && Between(segs)[|Between(segs)| - 1] != '/'
    decreases |segs|
  {
    var last := segs[|segs| - 1];
    assert last in segs && last[|last| - 1] in last;
    if |segs| > 1 {
      BetweenEnds(segs[1..]);
    }
  }

  lemma {:induction false} SegmentsOf(a: string, segs: seq<string>, b: string)
    requires OnlySlash(a) && Proper(segs) && OnlySlash(b)
    ensures SplitSegments(a + Between(segs) + b) == segs
  {
    var x := Between(segs);
    BetweenEnds(segs);
    assert segs[0] in segs && segs[0][0] in segs[0];
    assert x[0] == segs[0][0];
    assert a + x + b == a + (x + b);
    TrimmedLeft(a, x + b);
    TrimmedRight(x, b);
    SplitOf(segs);
  }

  lemma BelowBody(body: string)
    ensures Body(body + "/**") == (body, true)
  {
    var pattern := body + "/**";
    assert pattern[|pattern| - 3..] == "/**" && pattern[..|pattern| - 3] == body;
  }

  /** A pattern without a star covers itself and nothing else. */
  lemma PlainPatternMeans(pattern: string, path: string)
    requires Compile(pattern).Ok? && '*' !in pattern
    ensures Covers(Compile(pattern).value, path) <==> path == pattern
  {
    CompileKeepsMeaning(pattern, path);
    assert "**"[0] == '*' && "/**"[1] == '*';
    SuffixHasStar(pattern);
  }

  lemma SuffixHasStar(pattern: string)
    ensures HasSuffix(pattern, "/**") ==> '*' in pattern
  {
    if HasSuffix(pattern, "/**") {
      assert pattern[|pattern| - 3..][1] == '*';
      assert pattern[|pattern| - 2] in pattern;
    }
  }

  /** Followed by a slash and two stars it covers itself and all below, and alone they cover everything. */
  lemma BelowPatternMeans(body: string, path: string)
    requires Compile(body + "/**").Ok? && '*' !in body
    ensures Covers(Compile(body + "/**").value, path) <==> body == "" || path == body || body + "/" <= path
  {
    CompileKeepsMeaning(body + "/**", path);
    BelowBody(body);
    assert |body + "/**"| == |body| + 3;
    assert "" + "/**" == "/**";
  }

  /** With a star among its segments it covers the paths that can be walked through with them. */
  lemma StarPatternMeans(a: string, segs: seq<string>, b: string, below: bool, path: string)
    requires a != "" && OnlySlash(a) && Proper(segs) && OnlySlash(b) && exists seg :: seg in segs && '*' in seg
    requires var pattern := a + Between(segs) + b + if below then "/**" else "";
             Compile(pattern).Ok? && (!below ==> !HasSuffix(pattern, "/**"))
    ensures var pattern := a + Between(segs) + b + if below then "/**" else "";
            Covers(Compile(pattern).value, path) <==> Walks(segs, below, path)
  {
    var body := a + Between(segs) + b;
    var pattern := body + if below then "/**" else "";
    CompileKeepsMeaning(pattern, path);
    SegmentsOf(a, segs, b);
    StarInSegments(body);
    CoversIsWalking(segs, below, path);
    BetweenEnds(segs);
    assert body[0] == '/' && |body| >= 2;
    assert pattern[0] == '/' && "**"[0] == '*';
    if below {
      BelowBody(body);
      assert |pattern| >= 5;
    } else {
      assert pattern == body;
      assert HasSuffix("/**", "/**");
    }
  }
}

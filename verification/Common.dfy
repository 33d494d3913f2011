/** Shared vocabulary: optional values, results, prefixes, joined keys and a fact about finite sets. */
module Common {

  datatype Option<+T> = None | Some(value: T)

  datatype Result<+T> = Ok(value: T) | Err(reason: string)

  predicate HasPrefix(s: string, p: string) {
    |p| <= |s| && s[..|p|] == p
  }

  /** The index of the first c, or the length. */
  function Find(s: string, c: char): (i: nat)
    ensures i <= |s| && (i < |s| ==> s[i] == c) && forall j :: 0 <= j < i ==> s[j] != c
  {
    if s == "" || s[0] == c then 0
    else
      var i := Find(s[1..], c) + 1;
      assert forall j :: 1 <= j < i ==> s[j] == s[1..][j - 1];
      i
  }

  lemma FindFirst(s: string, c: char, t: string)
    requires c !in s
    ensures Find(s + [c] + t, c) == |s|
  {
    var all := s + [c] + t;
    assert forall j :: 0 <= j < |s| ==> all[j] == s[j];
    assert all[|s|] == c;
  }

  lemma FindNone(s: string, c: char)
    requires c !in s
    ensures Find(s, c) == |s|
  {
  }

  lemma SubsetSize<T>(a: set<T>, b: set<T>)
    requires a <= b
    ensures |a| <= |b|
  {
    if a != {} {
      var x :| x in a;
      SubsetSize(a - {x}, b - {x});
    }
  }

  lemma {:induction false} MembersSize<T>(xs: seq<T>)
    ensures |set x | x in xs| <= |xs|
  {
    if xs != [] {
      var front, last := xs[..|xs| - 1], xs[|xs| - 1];
      MembersSize(front);
      assert xs == front + [last];
      assert (set x | x in xs) == (set x | x in front) + {last};
    }
  }

  /** More items than things: one comes twice. */
  lemma {:induction false} Pigeonhole<T>(xs: seq<T>, s: set<T>) returns (i: nat, j: nat)
    requires |xs| > |s| && forall k :: 0 <= k < |xs| ==> xs[k] in s
    ensures i < j < |xs| && xs[i] == xs[j]
    decreases xs
  {
    var front, last := xs[..|xs| - 1], xs[|xs| - 1];
    if k :| 0 <= k < |front| && front[k] == last {
      return k, |xs| - 1;
    }
    i, j := Pigeonhole(front, s - {last});
  }

  // ----- keys made of two strings with a NUL between them -----

  function Joined(p: string, n: string): string {
    p + ['\0'] + n
  }

  /** Two keys can be joined to the same string exactly when one, closed by a NUL, starts the other. */
  lemma JoinedCollide(p: string, q: string)
    requires p != q
    ensures (exists n, m :: Joined(p, n) == Joined(q, m)) <==> HasPrefix(q, p + ['\0']) || HasPrefix(p, q + ['\0'])
  {
    if n, m :| Joined(p, n) == Joined(q, m) {
      if |p| <= |q| {
        SharedStart(p, n, q, m);
      } else {
        SharedStart(q, m, p, n);
      }
    }
    if HasPrefix(q, p + ['\0']) {
      Collide(p, q);
    }
    if HasPrefix(p, q + ['\0']) {
      Collide(q, p);
    }
  }

  lemma Collide(p: string, q: string)
    requires HasPrefix(q, p + ['\0'])
    ensures Joined(p, q[|p| + 1..] + ['\0']) == Joined(q, "")
  {
    assert q == p + ['\0'] + q[|p| + 1..];
  }

  lemma SharedStart(p: string, n: string, q: string, m: string)
    requires Joined(p, n) == Joined(q, m) && |p| <= |q|
    ensures p == q || HasPrefix(q, p + ['\0'])
  {
    var k := Joined(p, n);
    assert k[..|p|] == p && k[..|q|] == q && k[|p|] == '\0';
    if |p| < |q| {
      assert q[..|p| + 1] == k[..|p| + 1] == p + ['\0'];
    }
  }

  lemma HoldsNul(p: string, q: string)
    ensures HasPrefix(q, p + ['\0']) ==> '\0' in q
  {
    if HasPrefix(q, p + ['\0']) {
      assert q[|p|] == (p + ['\0'])[|p|];
    }
  }

  /** The parts of a joined key can be told apart while the first contains no NUL. */
  lemma JoinedIsSeparate(p: string, n: string, q: string, m: string)
    requires '\0' !in p && '\0' !in q && Joined(p, n) == Joined(q, m)
    ensures p == q && n == m
  {
    HoldsNul(p, q);
    HoldsNul(q, p);
    if p != q {
      JoinedCollide(p, q);
    }
    assert Joined(p, n)[|p| + 1..] == n && Joined(q, m)[|q| + 1..] == m;
  }
}

/**
What a query predicate means, read off the texts a caller writes (core/db/query.go): the operator's spelling, the dotted
field, and the values.
*/
module Denotations {
  import opened Common
  import opened Ordering
  import opened Predicates

  // ----- operators -----

  predicate Blank(c: char) {
    c == ' ' || c == '\t' || c == '\n' || c == '\r' || c as int == 11 || c as int == 12
  }

  predicate AllBlank(s: string) {
    forall i :: 0 <= i < |s| ==> Blank(s[i])
  }

  /** The letters of s are those of w, in either case. */
  predicate SameLetters(s: string, w: string) {
    |s| == |w| && forall i :: 0 <= i < |s| ==> s[i] == w[i] || ('A' <= w[i] <= 'Z' && s[i] as int == w[i] as int + 32)
  }

  /** Text t is the word w in either case, with blanks around it. */
  ghost predicate Spells(t: string, w: string) {
    exists a, core, b :: t == a + core + b && AllBlank(a) && AllBlank(b) && SameLetters(core, w)
  }

  /** A word in capitals that neither starts nor ends with a blank. */
  predicate IsWord(w: string) {
    (w != "" ==> !Blank(w[0]) && !Blank(w[|w| - 1])) && forall i :: 0 <= i < |w| ==> !('a' <= w[i] <= 'z')
  }

  lemma {:induction false} UpperLetters(s: string, w: string)
    requires IsWord(w) || forall i :: 0 <= i < |w| ==> !('a' <= w[i] <= 'z')
    ensures Upper(s) == w <==> SameLetters(s, w)
  {
    if s != "" && w != "" {
      UpperLetters(s[1..], w[1..]);
      assert s == [s[0]] + s[1..] && w == [w[0]] + w[1..];
      assert SameLetters(s, w) ==> SameLetters(s[1..], w[1..]);
      assert Upper(s)[1..] == Upper(s[1..]) && |Upper(s)| == 1 + |Upper(s[1..])|;
      assert Upper(s) == w <==> Upper(s)[0] == w[0] && Upper(s[1..]) == w[1..];
    }
  }

  lemma {:induction false} Trimmed(s: string) returns (a: string, b: string)
    ensures s == a + TrimSpace(s) + b && AllBlank(a) && AllBlank(b)
    decreases |s|
  {
    if s != "" && Space(s[0]) {
      var c, d := Trimmed(s[1..]);
      BlankBefore(s, c, d);
      a, b := [s[0]] + c, d;
    } else if s != "" && Space(s[|s| - 1]) {
      var c, d := Trimmed(s[..|s| - 1]);
      BlankAfter(s, c, d);
      a, b := c, d + [s[|s| - 1]];
    } else {
      a, b := "", "";
    }
  }

  lemma {:induction false} BlankBefore(s: string, c: string, d: string)
    requires s != "" && Space(s[0]) && s[1..] == c + TrimSpace(s[1..]) + d
    ensures s == [s[0]] + c + TrimSpace(s) + d
  {
    assert s == [s[0]] + s[1..];
  }

  lemma {:induction false} BlankAfter(s: string, c: string, d: string)
    requires s != "" && !Space(s[0]) && Space(s[|s| - 1])
    requires s[..|s| - 1] == c + TrimSpace(s[..|s| - 1]) + d
    ensures s == c + TrimSpace(s) + (d + [s[|s| - 1]])
  {
    assert s == s[..|s| - 1] + [s[|s| - 1]];
  }

  predicate NoBlankEnds(s: string) {
    s != "" ==> !Blank(s[0]) && !Blank(s[|s| - 1])
  }

  lemma {:induction false} TrimFront(a: string, rest: string)
    requires AllBlank(a)
    ensures TrimSpace(a + rest) == TrimSpace(rest)
  {
    if a == "" {
      assert a + rest == rest;
    } else {
      TrimFront(a[1..], rest);
      assert (a + rest)[0] == a[0] && (a + rest)[1..] == a[1..] + rest;
    }
  }

  lemma {:induction false} TrimBack(core: string, b: string)
    requires AllBlank(b) && core != "" && !Blank(core[0])
    ensures TrimSpace(core + b) == TrimSpace(core)
  {
    if b == "" {
      assert core + b == core;
    } else {
      var s, front := core + b, b[..|b| - 1];
      TrimBack(core, front);
      assert s[0] == core[0] && s[|s| - 1] == b[|b| - 1] && s[..|s| - 1] == core + front;
    }
  }

  lemma {:induction false} TrimmedIs(a: string, core: string, b: string)
    requires AllBlank(a) && AllBlank(b) && NoBlankEnds(core)
    ensures TrimSpace(a + core + b) == core
  {
    assert a + core + b == a + (core + b);
    TrimFront(a, core + b);
    TrimBehind(core, b);
  }

  lemma {:induction false} TrimBehind(core: string, b: string)
    requires AllBlank(b) && NoBlankEnds(core)
    ensures TrimSpace(core + b) == core
  {
    TrimNothing(core);
    if core == "" {
      assert core + b == b + core;
      TrimFront(b, core);
    } else {
      TrimBack(core, b);
    }
  }

  lemma {:induction false} TrimNothing(core: string)
    requires NoBlankEnds(core)
    ensures TrimSpace(core) == core
  {
  }

  /** Trimming and raising to capitals yields a word exactly for the texts that spell it. */
  lemma {:induction false} SpellsExactly(t: string, w: string)
    requires IsWord(w)
    ensures Upper(TrimSpace(t)) == w <==> Spells(t, w)
  {
    if Upper(TrimSpace(t)) == w {
      var a, b := Trimmed(t);
      UpperLetters(TrimSpace(t), w);
      assert t == a + TrimSpace(t) + b;
    }
    if a, core, b :| t == a + core + b && AllBlank(a) && AllBlank(b) && SameLetters(core, w) {
      TrimmedIs(a, core, b);
      UpperLetters(core, w);
    }
  }

  /** The texts of comparisons, the empty text among them. */
  const COMPARISONS := ["", "=", "!=", ">", ">=", "<", "<=", "LIKE"]

  lemma AllSpelled(t: string)
    ensures forall w :: w in COMPARISONS + ["IN", "BETWEEN", "IS NULL", "IS NOT NULL"] ==> (Upper(TrimSpace(t)) == w <==> Spells(t, w))
  {
    forall w | w in COMPARISONS + ["IN", "BETWEEN", "IS NULL", "IS NOT NULL"]
      ensures Upper(TrimSpace(t)) == w <==> Spells(t, w)
    {
      SpellsExactly(t, w);
    }
  }

  // ----- fields -----

  /** The segments with dots between them. */
  function Dotted(path: Path): string {
    if path == [] then "" else if |path| == 1 then path[0] else path[0] + ['.'] + Dotted(path[1..])
  }

  /** A letter, then letters, digits and underscores. */
  predicate IsName(s: string) {
    && s != "" && ('a' <= s[0] <= 'z' || 'A' <= s[0] <= 'Z')
    && forall i :: 0 <= i < |s| ==> 'a' <= s[i] <= 'z' || 'A' <= s[i] <= 'Z' || '0' <= s[i] <= '9' || s[i] == '_'
  }

  /** The field is this path, written with dots. */
  ghost predicate Names(field: string, path: Path) {
    path != [] && Dotted(path) == field && forall i :: 0 <= i < |path| ==> IsName(path[i])
  }

  lemma {:induction false} SplitJoins(s: string)
    ensures Dotted(SplitDots(s)) == s
  {
    if s != "" {
      var rest := SplitDots(s[1..]);
      SplitJoins(s[1..]);
      assert s == [s[0]] + s[1..];
      if s[0] == '.' {
        assert ([""] + rest)[1..] == rest;
      } else {
        var parts := [[s[0]] + rest[0]] + rest[1..];
        assert parts[1..] == rest[1..] && |parts| == |rest|;
        if |rest| > 1 {
          assert Dotted(parts) == [s[0]] + rest[0] + ['.'] + Dotted(rest[1..]);
        }
      }
    }
  }

  lemma {:induction false} SplitOne(seg: string)
    requires '.' !in seg
    ensures SplitDots(seg) == [seg]
  {
    if seg != "" {
      SplitOne(seg[1..]);
      assert seg == [seg[0]] + seg[1..];
    }
  }

  lemma {:induction false} SplitFirst(seg: string, more: string)
    requires '.' !in seg
    ensures SplitDots(seg + ['.'] + more) == [seg] + SplitDots(more)
  {
    var s := seg + ['.'] + more;
    if seg == "" {
      assert s[0] == '.' && s[1..] == more;
    } else {
      SplitFirst(seg[1..], more);
      assert s[0] == seg[0] && s[1..] == seg[1..] + ['.'] + more;
      assert seg == [seg[0]] + seg[1..];
      var rest := [seg[1..]] + SplitDots(more);
      assert rest[1..] == SplitDots(more);
    }
  }

  lemma {:induction false} JoinSplits(path: Path)
    requires path != [] && forall i :: 0 <= i < |path| ==> '.' !in path[i]
    ensures SplitDots(Dotted(path)) == path
  {
    if |path| == 1 {
      SplitOne(path[0]);
    } else {
      JoinSplits(path[1..]);
      SplitFirst(path[0], Dotted(path[1..]));
      assert path == [path[0]] + path[1..];
    }
  }

  /** A field is accepted exactly when it is names with dots between them, and those are its path. */
  lemma {:induction false} PathExactly(field: string, path: Path)
    ensures JsonPath(field) == Some(path) <==> Names(field, path)
  {
    if JsonPath(field) == Some(path) {
      SplitJoins(field);
    }
    if Names(field, path) {
      JoinSplits(path);
    }
  }

  /** The values on the way from a document down a path. */
  ghost predicate Walk(doc: Json, path: Path, nodes: seq<Json>) {
    && |nodes| == |path| + 1 && nodes[0] == doc
    && forall i :: 0 <= i < |path| ==> nodes[i].Object? && path[i] in nodes[i].fields && nodes[i + 1] == nodes[i].fields[path[i]]
  }

  /** A path leads to a value exactly where there is such a way, and to that value. */
  lemma {:induction false} ResolveWalks(doc: Json, path: Path, v: Json)
    requires v != Null
    ensures Resolve(doc, path) == v <==> exists nodes :: Walk(doc, path, nodes) && nodes[|path|] == v
    decreases |path|
  {
    if path == [] {
      assert Walk(doc, path, [doc]);
    } else if doc.Object? && path[0] in doc.fields {
      var next := doc.fields[path[0]];
      ResolveWalks(next, path[1..], v);
      if nodes :| Walk(next, path[1..], nodes) && nodes[|path| - 1] == v {
        WalkFrom(doc, path, nodes);
        assert ([doc] + nodes)[|path|] == v;
      }
      if nodes :| Walk(doc, path, nodes) && nodes[|path|] == v {
        WalkOn(doc, path, nodes);
        assert nodes[1..][|path| - 1] == v;
      }
    }
  }

  lemma {:induction false} WalkFrom(doc: Json, path: Path, nodes: seq<Json>)
    requires path != [] && doc.Object? && path[0] in doc.fields && Walk(doc.fields[path[0]], path[1..], nodes)
    ensures Walk(doc, path, [doc] + nodes)
  {
    var all := [doc] + nodes;
    forall i | 0 <= i < |path|
      ensures all[i].Object? && path[i] in all[i].fields && all[i + 1] == all[i].fields[path[i]]
    {
      assert i > 0 ==> all[i] == nodes[i - 1] && path[i] == path[1..][i - 1];
    }
  }

  lemma {:induction false} WalkOn(doc: Json, path: Path, nodes: seq<Json>)
    requires path != [] && Walk(doc, path, nodes)
    ensures doc.Object? && path[0] in doc.fields && Walk(doc.fields[path[0]], path[1..], nodes[1..])
  {
    var rest := nodes[1..];
    forall i | 0 <= i < |path| - 1
      ensures rest[i].Object? && path[1..][i] in rest[i].fields && rest[i + 1] == rest[i].fields[path[1..][i]]
    {
      assert rest[i] == nodes[i + 1] && path[1..][i] == path[i + 1];
    }
  }

  // ----- predicates -----

  /** A predicate is accepted exactly when its field is a path, its operator is spelled right and it has the values for it. */
  lemma {:induction false} AcceptableExactly(p: Predicate)
    ensures Acceptable(p) <==>
            && (exists path :: Names(p.field, path))
            && ((|p.values| == 1 && exists w :: w in COMPARISONS && Spells(p.op, w)) || Spells(p.op, "IN") ||
                (|p.values| == 2 && Spells(p.op, "BETWEEN")) || Spells(p.op, "IS NULL") || Spells(p.op, "IS NOT NULL"))
  {
    SomePath(p.field);
    OtherSpelled(p.op);
    OneComparison(p.op);
  }

  lemma {:induction false} SomePath(field: string)
    ensures JsonPath(field).Some? <==> exists path :: Names(field, path)
  {
    if JsonPath(field).Some? {
      PathExactly(field, JsonPath(field).value);
    }
    if path :| Names(field, path) {
      PathExactly(field, path);
    }
  }

  lemma ComparisonSpelled(t: string)
    ensures Spells(t, "") || Spells(t, "=") <==> OperatorOf(t) == Comparison(Eq)
    ensures Spells(t, "!=") <==> OperatorOf(t) == Comparison(Ne)
    ensures Spells(t, ">") <==> OperatorOf(t) == Comparison(Gt)
    ensures Spells(t, ">=") <==> OperatorOf(t) == Comparison(Gte)
    ensures Spells(t, "<") <==> OperatorOf(t) == Comparison(Lt)
    ensures Spells(t, "<=") <==> OperatorOf(t) == Comparison(Lte)
    ensures Spells(t, "LIKE") <==> OperatorOf(t) == Comparison(Like)
  {
    AllSpelled(t);
  }

  lemma OtherSpelled(t: string)
    ensures Spells(t, "IN") <==> OperatorOf(t) == In
    ensures Spells(t, "BETWEEN") <==> OperatorOf(t) == Between
    ensures Spells(t, "IS NULL") <==> OperatorOf(t) == IsNull
    ensures Spells(t, "IS NOT NULL") <==> OperatorOf(t) == IsNotNull
  {
    AllSpelled(t);
  }

  lemma OneComparison(t: string)
    ensures OperatorOf(t).Comparison? <==> exists w :: w in COMPARISONS && Spells(t, w)
  {
    AllSpelled(t);
    var op := Upper(TrimSpace(t));
    assert OperatorOf(t).Comparison? <==> op in COMPARISONS;
    if op in COMPARISONS {
      assert Spells(t, op);
    }
  }

  /** What each comparison means for a document whose field has the text v, or none. */
  lemma {:induction false} ComparisonMeans(p: Predicate, path: Path, doc: Json)
    requires Names(p.field, path) && |p.values| == 1
    ensures var v := SqlText(doc, path);
            && (Spells(p.op, "") || Spells(p.op, "=") ==> (Holds(p, doc) <==> v == Some(p.values[0])))
            && (Spells(p.op, "!=") ==> (Holds(p, doc) <==> v.Some? && v.value != p.values[0]))
            && (Spells(p.op, ">") ==> (Holds(p, doc) <==> v.Some? && StrLess(p.values[0], v.value)))
            && (Spells(p.op, ">=") ==> (Holds(p, doc) <==> v.Some? && !StrLess(v.value, p.values[0])))
            && (Spells(p.op, "<") ==> (Holds(p, doc) <==> v.Some? && StrLess(v.value, p.values[0])))
            && (Spells(p.op, "<=") ==> (Holds(p, doc) <==> v.Some? && !StrLess(p.values[0], v.value)))
            && (Spells(p.op, "LIKE") ==> (Holds(p, doc) <==> v.Some? && LikeMatches(v.value, p.values[0])))
  {
    ComparisonSpelled(p.op);
    PathExactly(p.field, path);
    var v := SqlText(doc, path);
    if v.Some? {
      NotLess(v.value, p.values[0]);
      NotLess(p.values[0], v.value);
    }
  }

  lemma NotLess(a: string, b: string)
    ensures !StrLess(a, b) <==> StrLeq(b, a)
  {
    StrTotal(a, b);
    if StrLeq(a, b) && StrLeq(b, a) {
      StrAntisymmetric(a, b);
    }
  }

  /** And each of the other operators. */
  lemma {:induction false} OthersMean(p: Predicate, path: Path, doc: Json)
    requires Names(p.field, path)
    ensures var v := SqlText(doc, path);
            && (Spells(p.op, "IN") ==> (Holds(p, doc) <==> exists i :: 0 <= i < |p.values| && v == Some(p.values[i])))
            && (Spells(p.op, "BETWEEN") && |p.values| == 2 ==>
                  (Holds(p, doc) <==> v.Some? && !StrLess(v.value, p.values[0]) && !StrLess(p.values[1], v.value)))
            && (Spells(p.op, "IS NULL") ==> (Holds(p, doc) <==> v.None?))
            && (Spells(p.op, "IS NOT NULL") ==> (Holds(p, doc) <==> v.Some?))
  {
    OtherSpelled(p.op);
    PathExactly(p.field, path);
    var v := SqlText(doc, path);
    if v.Some? && |p.values| == 2 {
      NotLess(v.value, p.values[0]);
      NotLess(p.values[1], v.value);
    }
  }

  /** LIKE: `%` stands for any stretch of text, `_` for any one character, a backslash for the character after it. */
  lemma {:induction false} LikeMeans(text: string, c: char, rest: string)
    ensures LikeMatches(text, "") <==> text == ""
    ensures LikeMatches(text, ['%'] + rest) <==> exists i :: 0 <= i <= |text| && LikeMatches(text[i..], rest)
    ensures LikeMatches(text, ['_'] + rest) <==> text != "" && LikeMatches(text[1..], rest)
    ensures LikeMatches(text, ['\\', c] + rest) <==> text != "" && text[0] == c && LikeMatches(text[1..], rest)
    ensures c !in "%_\\" ==> (LikeMatches(text, [c] + rest) <==> text != "" && text[0] == c && LikeMatches(text[1..], rest))
  {
    AnyStretch(text, rest);
    assert (['_'] + rest)[1..] == rest && ([c] + rest)[1..] == rest && (['\\', c] + rest)[2..] == rest;
    assert c !in "%_\\" ==> c != '%' && c != '_' && c != '\\' by {
      assert "%_\\"[0] == '%' && "%_\\"[1] == '_' && "%_\\"[2] == '\\';
    }
  }

  lemma {:induction false} AnyStretch(text: string, rest: string)
    ensures LikeMatches(text, ['%'] + rest) <==> exists i :: 0 <= i <= |text| && LikeMatches(text[i..], rest)
    decreases |text|
  {
    var pattern := ['%'] + rest;
    assert pattern[1..] == rest && text[0..] == text;
    if text != "" {
      AnyStretch(text[1..], rest);
      if i :| 0 <= i <= |text[1..]| && LikeMatches(text[1..][i..], rest) {
        assert text[1..][i..] == text[i + 1..];
      }
      if i :| 0 <= i <= |text| && LikeMatches(text[i..], rest) {
        assert i > 0 ==> text[1..][i - 1..] == text[i..];
      }
    }
  }
}

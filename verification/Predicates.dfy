/**
Predicates, sorting and keyset pagination over a document table (core/db/query.go).

The SQL text is kept as a small syntax tree whose values are numbered placeholders, exactly as the Go
code numbers them, and evaluated under SQL's three-valued logic against the list of bound arguments.
A table is a sequence of rows in arbitrary physical order with distinct ids.
*/
module Predicates {
  import opened Common
  import opened Ordering

  // ----- documents -----

  /**
  A JSON value.  `sql` is how the database renders it as text and `host` how lookupPath does; the two
  agree for strings and booleans but not for every number: JSONB keeps the zero of 1.50, Go does not.
  */
  datatype Json =
    | Null
    | Scalar(sql: string, host: string)
    | Object(fields: map<string, Json>, sql: string, host: string)

  type Path = seq<string>

  datatype Row = Row(id: string, doc: Json)

  type Table = seq<Row>

  function Resolve(doc: Json, path: Path): Json
    decreases |path|
  {
    if path == [] then doc
    else if doc.Object? && path[0] in doc.fields then Resolve(doc.fields[path[0]], path[1..])
    else Null
  }

  /** data->>'field' and data#>>'{a,b}': SQL NULL when nothing is there. */
  function SqlText(doc: Json, path: Path): Option<string> {
    match Resolve(doc, path)
    case Null => None
    case Scalar(sql, _) => Some(sql)
    case Object(_, sql, _) => Some(sql)
  }

  function LookupPath(doc: Json, path: Path): string {
    match Resolve(doc, path)
    case Null => ""
    case Scalar(_, host) => host
    case Object(_, _, host) => host
  }

  // ----- identifiers and operators -----

  predicate Letter(c: char) {
    'a' <= c <= 'z' || 'A' <= c <= 'Z'
  }

  predicate Identifier(s: string) {
    s != "" && Letter(s[0]) && forall i :: 0 <= i < |s| ==> Letter(s[i]) || '0' <= s[i] <= '9' || s[i] == '_'
  }

  function SplitDots(s: string): (r: seq<string>)
    ensures |r| >= 1
  {
    if s == "" then [""]
    else
      var rest := SplitDots(s[1..]);
      if s[0] == '.' then [""] + rest else [[s[0]] + rest[0]] + rest[1..]
  }

  function JsonPath(field: string): Option<Path> {
    var parts := SplitDots(field);
    if forall i :: 0 <= i < |parts| ==> Identifier(parts[i]) then Some(parts) else None
  }

  function Upper(s: string): string {
    if s == "" then "" else [if 'a' <= s[0] <= 'z' then (s[0] as int - 32) as char else s[0]] + Upper(s[1..])
  }

  predicate Space(c: char) {
    c == ' ' || '\t' <= c <= '\r'
  }

  function TrimSpace(s: string): string {
    if s != "" && Space(s[0]) then TrimSpace(s[1..])
    else if s != "" && Space(s[|s| - 1]) then TrimSpace(s[..|s| - 1])
    else s
  }

  datatype Op = Eq | Ne | Gt | Gte | Lt | Lte | Like

  datatype Operator = Comparison(op: Op) | In | Between | IsNull | IsNotNull | Unsupported

  function OperatorOf(text: string): Operator {
    var op := Upper(TrimSpace(text));
    if op == "" || op == "=" then Comparison(Eq)
    else if op == "!=" then Comparison(Ne)
    else if op == ">" then Comparison(Gt)
    else if op == ">=" then Comparison(Gte)
    else if op == "<" then Comparison(Lt)
    else if op == "<=" then Comparison(Lte)
    else if op == "LIKE" then Comparison(Like)
    else if op == "IN" then In
    else if op == "BETWEEN" then Between
    else if op == "IS NULL" then IsNull
    else if op == "IS NOT NULL" then IsNotNull
    else Unsupported
  }

  datatype Predicate = Predicate(field: string, op: string, values: seq<string>)

  /** LIKE with the default escape character. */
  predicate LikeMatches(text: string, pattern: string)
    decreases |text| + |pattern|
  {
    if pattern == "" then text == ""
    else if pattern[0] == '%' then
      LikeMatches(text, pattern[1..]) || (text != "" && LikeMatches(text[1..], pattern))
    else if pattern[0] == '\\' && |pattern| >= 2 then
      text != "" && text[0] == pattern[1] && LikeMatches(text[1..], pattern[2..])
    else text != "" && (pattern[0] == '_' || pattern[0] == text[0]) && LikeMatches(text[1..], pattern[1..])
  }

  predicate Compares(op: Op, a: string, b: string) {
    match op
    case Eq => a == b
    case Ne => a != b
    case Gt => StrLess(b, a)
    case Gte => StrLeq(b, a)
    case Lt => StrLess(a, b)
    case Lte => StrLeq(a, b)
    case Like => LikeMatches(a, b)
  }

  // ----- what predicates denote -----

  predicate Acceptable(p: Predicate) {
    JsonPath(p.field).Some? &&
    match OperatorOf(p.op)
    case Comparison(_) => |p.values| == 1
    case Between => |p.values| == 2
    case Unsupported => false
    case _ => true
  }

  /** A predicate on an absent field holds only for IS NULL, and one that is not acceptable never. */
  predicate Holds(p: Predicate, doc: Json) {
    Acceptable(p) &&
    var v := SqlText(doc, JsonPath(p.field).value);
    match OperatorOf(p.op)
    case Comparison(op) => v.Some? && Compares(op, v.value, p.values[0])
    case In => v.Some? && v.value in p.values
    case Between => v.Some? && StrLeq(p.values[0], v.value) && StrLeq(v.value, p.values[1])
    case IsNull => v.None?
    case IsNotNull => v.Some?
    case Unsupported => false
  }

  predicate AllAcceptable(ps: seq<Predicate>) {
    forall i :: 0 <= i < |ps| ==> Acceptable(ps[i])
  }

  lemma AcceptableSnoc(ps: seq<Predicate>, p: Predicate)
    ensures AllAcceptable(ps + [p]) <==> AllAcceptable(ps) && Acceptable(p)
  {
    var qs := ps + [p];
    assert qs[|ps|] == p && forall i :: 0 <= i < |ps| ==> qs[i] == ps[i];
  }

  ghost predicate AllHold(ps: seq<Predicate>, doc: Json) {
    forall i :: 0 <= i < |ps| ==> Holds(ps[i], doc)
  }

  // ----- SQL conditions over placeholders -----

  datatype Arg = Text(text: string) | Number(number: int)

  datatype Truth = True | False | Unknown

  /** Placeholders count from one, as $1, $2, ... do. */
  datatype Cond =
    | Compare(path: Path, op: Op, arg: nat)
    | Among(path: Path, args: seq<nat>)
    | Within(path: Path, lo: nat, hi: nat)
    | Absent(path: Path)
    | Present(path: Path)
    | Never
    | RowBeyond(paths: seq<Path>, descending: bool, args: seq<nat>)

  function Truly(b: bool): Truth {
    if b then True else False
  }

  function And(a: Truth, b: Truth): Truth {
    if a == False || b == False then False else if a == Unknown || b == Unknown then Unknown else True
  }

  function Or(a: Truth, b: Truth): Truth {
    if a == True || b == True then True else if a == Unknown || b == Unknown then Unknown else False
  }

  /** The text bound to a placeholder; anything else has no text. */
  function Bound(args: seq<Arg>, k: nat): Option<string> {
    if 1 <= k <= |args| && args[k - 1].Text? then Some(args[k - 1].text) else None
  }

  function EvalCompare(op: Op, a: Option<string>, b: Option<string>): Truth {
    if a.None? || b.None? then Unknown else Truly(Compares(op, a.value, b.value))
  }

  function EvalAmong(v: Option<string>, ks: seq<nat>, args: seq<Arg>): Truth {
    if ks == [] then False
    else Or(EvalAmong(v, ks[..|ks| - 1], args), EvalCompare(Eq, v, Bound(args, ks[|ks| - 1])))
  }

  /** (x1, x2, ...) > (y1, y2, ...), or < when descending: decided by the first pair that differs or has a NULL. */
  function EvalBeyond(xs: seq<Option<string>>, ys: seq<Option<string>>, descending: bool): Truth
    requires |xs| == |ys|
  {
    if xs == [] then False
    else if xs[0].None? || ys[0].None? then Unknown
    else if xs[0] == ys[0] then EvalBeyond(xs[1..], ys[1..], descending)
    else Truly(if descending then StrLess(xs[0].value, ys[0].value) else StrLess(ys[0].value, xs[0].value))
  }

  /** The sort columns of a row, with the id as the last one. */
  function Columns(paths: seq<Path>, row: Row): (r: seq<Option<string>>)
    ensures |r| == |paths| + 1
  {
    seq(|paths|, i requires 0 <= i < |paths| => SqlText(row.doc, paths[i])) + [Some(row.id)]
  }

  function BoundAll(args: seq<Arg>, ks: seq<nat>): (r: seq<Option<string>>)
    ensures |r| == |ks|
  {
    seq(|ks|, i requires 0 <= i < |ks| => Bound(args, ks[i]))
  }

  function Eval(c: Cond, row: Row, args: seq<Arg>): Truth {
    match c
    case Compare(path, op, k) => EvalCompare(op, SqlText(row.doc, path), Bound(args, k))
    case Among(path, ks) => EvalAmong(SqlText(row.doc, path), ks, args)
    case Within(path, lo, hi) =>
      var v := SqlText(row.doc, path);
      And(EvalCompare(Gte, v, Bound(args, lo)), EvalCompare(Lte, v, Bound(args, hi)))
    case Absent(path) => Truly(SqlText(row.doc, path).None?)
    case Present(path) => Truly(SqlText(row.doc, path).Some?)
    case Never => False
    case RowBeyond(paths, descending, ks) =>
      if |ks| == |paths| + 1 then EvalBeyond(Columns(paths, row), BoundAll(args, ks), descending) else Unknown
  }

  /** The conditions joined by AND; an empty WHERE is true. */
  function EvalAll(cs: seq<Cond>, row: Row, args: seq<Arg>): Truth {
    if cs == [] then True else And(EvalAll(cs[..|cs| - 1], row, args), Eval(cs[|cs| - 1], row, args))
  }

  lemma EvalSnoc(cs: seq<Cond>, c: Cond, row: Row, args: seq<Arg>)
    ensures EvalAll(cs + [c], row, args) == And(EvalAll(cs, row, args), Eval(c, row, args))
  {
    assert (cs + [c])[..|cs|] == cs;
  }

  /** Conditions whose placeholders are all bound by `args` do not notice arguments appended later. */
  predicate InScope(c: Cond, n: nat) {
    match c
    case Compare(_, _, k) => 1 <= k <= n
    case Among(_, ks) => forall i :: 0 <= i < |ks| ==> 1 <= ks[i] <= n
    case Within(_, lo, hi) => 1 <= lo <= n && 1 <= hi <= n
    case RowBeyond(_, _, ks) => forall i :: 0 <= i < |ks| ==> 1 <= ks[i] <= n
    case _ => true
  }

  lemma {:induction false} AmongExtends(v: Option<string>, ks: seq<nat>, args: seq<Arg>, more: seq<Arg>)
    requires forall i :: 0 <= i < |ks| ==> 1 <= ks[i] <= |args|
    ensures EvalAmong(v, ks, args + more) == EvalAmong(v, ks, args)
  {
    if ks != [] {
      AmongExtends(v, ks[..|ks| - 1], args, more);
    }
  }

  lemma EvalExtends(c: Cond, row: Row, args: seq<Arg>, more: seq<Arg>)
    requires InScope(c, |args|)
    ensures Eval(c, row, args + more) == Eval(c, row, args)
  {
    match c {
      case Among(path, ks) => AmongExtends(SqlText(row.doc, path), ks, args, more);
      case RowBeyond(_, _, ks) => assert BoundAll(args + more, ks) == BoundAll(args, ks);
      case _ =>
    }
  }

  lemma {:induction false} EvalAllExtends(cs: seq<Cond>, row: Row, args: seq<Arg>, more: seq<Arg>)
    requires forall i :: 0 <= i < |cs| ==> InScope(cs[i], |args|)
    ensures EvalAll(cs, row, args + more) == EvalAll(cs, row, args)
  {
    if cs != [] {
      EvalAllExtends(cs[..|cs| - 1], row, args, more);
      EvalExtends(cs[|cs| - 1], row, args, more);
    }
  }

  // ----- rendering predicates -----

  /** n + 1, n + 2, ..., n + k */
  function Numbers(n: nat, k: nat): (r: seq<nat>)
    ensures |r| == k && forall i :: 0 <= i < k ==> r[i] == n + 1 + i
  {
    seq(k, i requires 0 <= i < k => n + 1 + i)
  }

  /** The placeholders of a condition, from left to right. */
  function Placeholders(c: Cond): seq<nat> {
    match c
    case Compare(_, _, k) => [k]
    case Among(_, ks) => ks
    case Within(_, lo, hi) => [lo, hi]
    case RowBeyond(_, _, ks) => ks
    case _ => []
  }

  function AllPlaceholders(cs: seq<Cond>): seq<nat> {
    if cs == [] then [] else AllPlaceholders(cs[..|cs| - 1]) + Placeholders(cs[|cs| - 1])
  }

  function Texts(values: seq<string>): (r: seq<Arg>)
    ensures |r| == |values|
  {
    seq(|values|, i requires 0 <= i < |values| => Text(values[i]))
  }

  /** One condition stands for one predicate when its arguments sit right after n others. */
  ghost predicate RendersOne(c: Cond, more: seq<Arg>, p: Predicate, n: nat) {
    && ScopedIn([c], n + |more|)
    && Placeholders(c) == Numbers(n, |more|)
    && MeansOne(c, more, p, n)
  }

  ghost predicate MeansOne(c: Cond, more: seq<Arg>, p: Predicate, n: nat) {
    forall row: Row, before: seq<Arg> {:trigger Eval(c, row, before + more)} :: |before| == n ==>
      (Eval(c, row, before + more) == True <==> Holds(p, row.doc))
  }

  /** Conditions and arguments stand for a list of predicates when they sit after n other arguments. */
  ghost predicate Renders(cs: seq<Cond>, args: seq<Arg>, ps: seq<Predicate>, n: nat) {
    && ScopedIn(cs, n + |args|)
    && AllPlaceholders(cs) == Numbers(n, |args|)
    && MeansAll(cs, args, ps, n)
  }

  ghost predicate ScopedIn(cs: seq<Cond>, n: nat) {
    forall i :: 0 <= i < |cs| ==> InScope(cs[i], n)
  }

  ghost predicate MeansAll(cs: seq<Cond>, args: seq<Arg>, ps: seq<Predicate>, n: nat) {
    forall row: Row, before: seq<Arg> {:trigger EvalAll(cs, row, before + args)} :: |before| == n ==>
      (EvalAll(cs, row, before + args) == True <==> AllHold(ps, row.doc))
  }

  lemma ScopeSnoc(cs: seq<Cond>, c: Cond, n: nat, m: nat)
    requires ScopedIn(cs, n) && ScopedIn([c], m) && n <= m
    ensures ScopedIn(cs + [c], m)
  {
    assert InScope([c][0], m);
    forall i | 0 <= i < |cs + [c]|
      ensures InScope((cs + [c])[i], m)
    {
      if i < |cs| {
        ScopeGrows(cs[i], n, m);
      }
    }
  }

  lemma PlaceholdersSnoc(cs: seq<Cond>, c: Cond, n: nat, k: nat, m: nat)
    requires AllPlaceholders(cs) == Numbers(n, k) && Placeholders(c) == Numbers(n + k, m)
    ensures AllPlaceholders(cs + [c]) == Numbers(n, k + m)
  {
    assert (cs + [c])[..|cs|] == cs;
    NumbersSplit(n, k, m);
  }

  lemma NumbersSplit(n: nat, k: nat, m: nat)
    ensures Numbers(n, k + m) == Numbers(n, k) + Numbers(n + k, m)
  {
  }

  lemma MeaningSnoc(
    cs: seq<Cond>, args: seq<Arg>, ps: seq<Predicate>, n: nat, c: Cond, more: seq<Arg>, p: Predicate,
    row: Row, before: seq<Arg>)
    requires ScopedIn(cs, n + |args|) && |before| == n
    requires EvalAll(cs, row, before + args) == True <==> AllHold(ps, row.doc)
    requires Eval(c, row, before + args + more) == True <==> Holds(p, row.doc)
    ensures EvalAll(cs + [c], row, before + (args + more)) == True <==> AllHold(ps + [p], row.doc)
  {
    assert before + (args + more) == before + args + more;
    JoinedMeaning(cs, c, row, before + args, more);
    AllHoldSnoc(ps, p, row.doc);
  }

  lemma MeansAllSnoc(
    cs: seq<Cond>, args: seq<Arg>, ps: seq<Predicate>, n: nat, c: Cond, more: seq<Arg>, p: Predicate)
    requires ScopedIn(cs, n + |args|) && MeansAll(cs, args, ps, n) && MeansOne(c, more, p, n + |args|)
    ensures MeansAll(cs + [c], args + more, ps + [p], n)
  {
    forall row: Row, before: seq<Arg> | |before| == n
      ensures EvalAll(cs + [c], row, before + (args + more)) == True <==> AllHold(ps + [p], row.doc)
    {
      assert |before + args| == n + |args|;
      MeaningSnoc(cs, args, ps, n, c, more, p, row, before);
    }
  }

  lemma {:induction false} RendersSnoc(
    cs: seq<Cond>, args: seq<Arg>, ps: seq<Predicate>, n: nat, c: Cond, more: seq<Arg>, p: Predicate)
    requires Renders(cs, args, ps, n) && RendersOne(c, more, p, n + |args|)
    ensures Renders(cs + [c], args + more, ps + [p], n)
  {
    ScopeSnoc(cs, c, n + |args|, n + |args + more|);
    PlaceholdersSnoc(cs, c, n, |args|, |more|);
    MeansAllSnoc(cs, args, ps, n, c, more, p);
  }

  lemma JoinedMeaning(cs: seq<Cond>, c: Cond, row: Row, bound: seq<Arg>, more: seq<Arg>)
    requires forall i :: 0 <= i < |cs| ==> InScope(cs[i], |bound|)
    ensures EvalAll(cs + [c], row, bound + more) == True
            <==> EvalAll(cs, row, bound) == True && Eval(c, row, bound + more) == True
  {
    EvalAllExtends(cs, row, bound, more);
    EvalSnoc(cs, c, row, bound + more);
  }

  lemma AllHoldSnoc(ps: seq<Predicate>, p: Predicate, doc: Json)
    ensures AllHold(ps + [p], doc) <==> AllHold(ps, doc) && Holds(p, doc)
  {
    var qs := ps + [p];
    assert qs[|ps|] == p;
    assert forall i :: 0 <= i < |ps| ==> qs[i] == ps[i];
  }

  lemma ScopeGrows(c: Cond, n: nat, m: nat)
    requires InScope(c, n) && n <= m
    ensures InScope(c, m)
  {
  }

  lemma {:induction false} AmongIsMembership(v: Option<string>, values: seq<string>, k: nat, before: seq<Arg>)
    requires k <= |values|
    ensures EvalAmong(v, Numbers(|before|, |values|)[..k], before + Texts(values)) == True
            <==> v.Some? && v.value in values[..k]
    ensures v.Some? ==> EvalAmong(v, Numbers(|before|, |values|)[..k], before + Texts(values)) != Unknown
  {
    var ks, args := Numbers(|before|, |values|), before + Texts(values);
    if k > 0 {
      AmongIsMembership(v, values, k - 1, before);
      assert ks[..k][..k - 1] == ks[..k - 1] && ks[..k][k - 1] == |before| + k;
      assert Bound(args, |before| + k) == Some(values[k - 1]);
      assert values[..k] == values[..k - 1] + [values[k - 1]];
    }
  }

  /** Each operator's condition means what the operator denotes. */
  lemma MembershipMeans(p: Predicate, n: nat)
    requires Acceptable(p) && OperatorOf(p.op).In?
    ensures MeansOne(Among(JsonPath(p.field).value, Numbers(n, |p.values|)), Texts(p.values), p, n)
  {
    var path := JsonPath(p.field).value;
    forall row: Row, before: seq<Arg> | |before| == n
      ensures Eval(Among(path, Numbers(n, |p.values|)), row, before + Texts(p.values)) == True <==> Holds(p, row.doc)
    {
      AmongIsMembership(SqlText(row.doc, path), p.values, |p.values|, before);
      assert Numbers(n, |p.values|)[..|p.values|] == Numbers(n, |p.values|);
      assert p.values[..|p.values|] == p.values;
    }
  }

  lemma ClauseMeansPredicate(p: Predicate, n: nat)
    requires Acceptable(p)
    ensures var path := JsonPath(p.field).value;
            match OperatorOf(p.op)
            case Comparison(op) => RendersOne(Compare(path, op, n + 1), [Text(p.values[0])], p, n)
            case In => RendersOne(if p.values == [] then Never else Among(path, Numbers(n, |p.values|)), Texts(p.values), p, n)
            case Between => RendersOne(Within(path, n + 1, n + 2), [Text(p.values[0]), Text(p.values[1])], p, n)
            case IsNull => RendersOne(Absent(path), [], p, n)
            case IsNotNull => RendersOne(Present(path), [], p, n)
            case Unsupported => true
  {
    match OperatorOf(p.op) {
      case In => MembershipMeans(p, n);
      case _ =>
    }
  }

  /** The body of buildWhere's loop for one predicate, after n arguments have been bound. */
  method RenderClause(p: Predicate, n: nat) returns (r: Result<(Cond, seq<Arg>)>)
    ensures r.Ok? <==> Acceptable(p)
    ensures r.Ok? ==> RendersOne(r.value.0, r.value.1, p, n)
  {
    var path := JsonPath(p.field);
    if path.None? {
      return Err("field");
    }
    if Acceptable(p) {
      ClauseMeansPredicate(p, n);
    }
    match OperatorOf(p.op) {
      case Comparison(op) =>
        if |p.values| != 1 {
          return Err("operator needs exactly one value");
        }
        return Ok((Compare(path.value, op, n + 1), [Text(p.values[0])]));
      case In =>
        if |p.values| == 0 {
          assert Texts(p.values) == [];
          return Ok((Never, []));
        }
        var ks: seq<nat>, args: seq<Arg> := [], [];
        for i := 0 to |p.values|
          invariant ks == Numbers(n, |p.values|)[..i] && args == Texts(p.values)[..i]
        {
          ks := ks + [n + i + 1];
          args := args + [Text(p.values[i])];
        }
        assert ks == Numbers(n, |p.values|) && args == Texts(p.values);
        return Ok((Among(path.value, ks), args));
      case Between =>
        if |p.values| != 2 {
          return Err("BETWEEN needs exactly two values");
        }
        return Ok((Within(path.value, n + 1, n + 2), [Text(p.values[0]), Text(p.values[1])]));
      case IsNull =>
        return Ok((Absent(path.value), []));
      case IsNotNull =>
        return Ok((Present(path.value), []));
      case Unsupported =>
        return Err("unsupported operator");
    }
  }

  /**
  The predicate compiler.  It accepts exactly the acceptable lists, and for every row the rendered
  conditions are true of the bound arguments exactly when every predicate holds; the placeholders are
  argOffset + 1, argOffset + 2, ... in order, one for each argument.
  */
  method BuildWhere(preds: seq<Predicate>, argOffset: nat) returns (r: Result<(seq<Cond>, seq<Arg>)>)
    ensures r.Ok? <==> AllAcceptable(preds)
    ensures r.Ok? ==> Renders(r.value.0, r.value.1, preds, argOffset)
  {
    var clauses: seq<Cond>, args: seq<Arg> := [], [];
    for i := 0 to |preds|
      invariant RenderedUpTo(clauses, args, preds, i, argOffset)
    {
      var next := AppendClause(clauses, args, preds, i, argOffset);
      if next.Err? {
        return Err(next.reason);
      }
      clauses, args := next.value.0, next.value.1;
    }
    assert preds[..|preds|] == preds;
    return Ok((clauses, args));
  }

  ghost predicate RenderedUpTo(cs: seq<Cond>, args: seq<Arg>, preds: seq<Predicate>, i: nat, n: nat) {
    && i <= |preds|
    && AllAcceptable(preds[..i])
    && Renders(cs, args, preds[..i], n)
  }

  lemma RenderedNext(
    cs: seq<Cond>, args: seq<Arg>, preds: seq<Predicate>, i: nat, n: nat, c: Cond, more: seq<Arg>)
    requires i < |preds| && RenderedUpTo(cs, args, preds, i, n)
    requires Acceptable(preds[i]) && RendersOne(c, more, preds[i], n + |args|)
    ensures RenderedUpTo(cs + [c], args + more, preds, i + 1, n)
  {
    RendersSnoc(cs, args, preds[..i], n, c, more, preds[i]);
    AcceptableSnoc(preds[..i], preds[i]);
    assert preds[..i + 1] == preds[..i] + [preds[i]];
  }

  method AppendClause(clauses: seq<Cond>, args: seq<Arg>, preds: seq<Predicate>, i: nat, argOffset: nat)
    returns (r: Result<(seq<Cond>, seq<Arg>)>)
    requires i < |preds| && RenderedUpTo(clauses, args, preds, i, argOffset)
    ensures r.Ok? <==> Acceptable(preds[i])
    ensures r.Ok? ==> RenderedUpTo(r.value.0, r.value.1, preds, i + 1, argOffset)
  {
    var one := RenderClause(preds[i], argOffset + |args|);
    if one.Err? {
      return Err(one.reason);
    }
    RenderedNext(clauses, args, preds, i, argOffset, one.value.0, one.value.1);
    return Ok((clauses + [one.value.0], args + one.value.1));
  }
}

/**
Keyset pagination (core/db/query.go, `Query`): what one page holds, and what a caller who follows
NextCursor sees while rows come and go between the pages.
*/
module Paging {
  import opened Common
  import opened Ordering
  import opened Predicates

  datatype SortField = SortField(field: string, descending: bool)

  /** The keyset token: the sort values and the id of the last row returned. */
  datatype Cursor = Cursor(keys: seq<string>, id: string)

  datatype Options = Options(predicates: seq<Predicate>, sort: seq<SortField>, limit: int, cursor: Option<Cursor>)

  datatype Page = Page(rows: seq<Row>, next: Option<Cursor>, hasMore: bool)

  const DEFAULT_LIMIT := 100
  const MAX_LIMIT := 1000

  function EffectiveLimit(limit: int): (l: nat)
    ensures 1 <= l <= MAX_LIMIT
  {
    if limit <= 0 then DEFAULT_LIMIT else if limit > MAX_LIMIT then MAX_LIMIT else limit
  }

  // ----- the order of rows -----

  type Cols = seq<Option<string>>

  /** ORDER BY puts NULL after every value, and before every value when descending. */
  predicate OptLeq(a: Option<string>, b: Option<string>) {
    b.None? || (a.Some? && StrLeq(a.value, b.value))
  }

  predicate ColsLeq(xs: Cols, ys: Cols)
    requires |xs| == |ys|
  {
    xs == [] || (if xs[0] == ys[0] then ColsLeq(xs[1..], ys[1..]) else OptLeq(xs[0], ys[0]))
  }

  predicate DirLeq(descending: bool, xs: Cols, ys: Cols)
    requires |xs| == |ys|
  {
    if descending then ColsLeq(ys, xs) else ColsLeq(xs, ys)
  }

  predicate DirLess(descending: bool, xs: Cols, ys: Cols)
    requires |xs| == |ys|
  {
    xs != ys && DirLeq(descending, xs, ys)
  }

  /** ORDER BY the sort columns and the id, all in one direction. */
  function RowOrder(paths: seq<Path>, descending: bool): (Row, Row) -> bool {
    (a: Row, b: Row) => DirLeq(descending, Columns(paths, a), Columns(paths, b))
  }

  lemma OptOrder(a: Option<string>, b: Option<string>, c: Option<string>)
    ensures OptLeq(a, b) || OptLeq(b, a)
    ensures OptLeq(a, b) && OptLeq(b, a) ==> a == b
    ensures OptLeq(a, b) && OptLeq(b, c) ==> OptLeq(a, c)
  {
    if a.Some? && b.Some? {
      StrTotal(a.value, b.value);
      if StrLeq(a.value, b.value) && StrLeq(b.value, a.value) {
        StrAntisymmetric(a.value, b.value);
      }
      if c.Some? && StrLeq(a.value, b.value) && StrLeq(b.value, c.value) {
        StrTransitive(a.value, b.value, c.value);
      }
    }
  }

  lemma {:induction false} ColsTotal(xs: Cols, ys: Cols)
    requires |xs| == |ys|
    ensures ColsLeq(xs, ys) || ColsLeq(ys, xs)
  {
    if xs != [] {
      OptOrder(xs[0], ys[0], ys[0]);
      ColsTotal(xs[1..], ys[1..]);
    }
  }

  lemma {:induction false} ColsAntisymmetric(xs: Cols, ys: Cols)
    requires |xs| == |ys| && ColsLeq(xs, ys) && ColsLeq(ys, xs)
    ensures xs == ys
  {
    if xs != [] {
      OptOrder(xs[0], ys[0], ys[0]);
      ColsAntisymmetric(xs[1..], ys[1..]);
      assert xs == [xs[0]] + xs[1..] && ys == [ys[0]] + ys[1..];
    }
  }

  lemma {:induction false} ColsTransitive(xs: Cols, ys: Cols, zs: Cols)
    requires |xs| == |ys| == |zs| && ColsLeq(xs, ys) && ColsLeq(ys, zs)
    ensures ColsLeq(xs, zs)
  {
    if xs != [] {
      OptOrder(xs[0], ys[0], zs[0]);
      OptOrder(xs[0], ys[0], xs[0]);
      if xs[0] == ys[0] == zs[0] {
        ColsTransitive(xs[1..], ys[1..], zs[1..]);
      }
    }
  }

  lemma RowOrderIsTotal(paths: seq<Path>, descending: bool)
    ensures TotalPreorder(RowOrder(paths, descending))
  {
    var leq := RowOrder(paths, descending);
    forall a: Row, b: Row
      ensures leq(a, b) || leq(b, a)
    {
      ColsTotal(Columns(paths, a), Columns(paths, b));
    }
    forall a: Row, b: Row, c: Row | leq(a, b) && leq(b, c)
      ensures leq(a, c)
    {
      DirTransitive(descending, Columns(paths, a), Columns(paths, b), Columns(paths, c));
    }
  }

  lemma DirTransitive(descending: bool, xs: Cols, ys: Cols, zs: Cols)
    requires |xs| == |ys| == |zs| && DirLeq(descending, xs, ys) && DirLeq(descending, ys, zs)
    ensures DirLeq(descending, xs, zs)
    ensures DirLess(descending, xs, ys) || DirLess(descending, ys, zs) ==> DirLess(descending, xs, zs)
  {
    if descending {
      ColsTransitive(zs, ys, xs);
    } else {
      ColsTransitive(xs, ys, zs);
    }
    if xs == zs {
      ColsAntisymmetric(xs, ys);
    }
  }

  /** On rows without NULLs the cursor's row comparison is the strict part of the sort order. */
  lemma {:induction false} BeyondIsAfter(xs: Cols, ys: Cols, descending: bool)
    requires |xs| == |ys|
    requires forall i :: 0 <= i < |xs| ==> xs[i].Some? && ys[i].Some?
    ensures EvalBeyond(xs, ys, descending) == True <==> DirLess(descending, ys, xs)
  {
    if xs != [] {
      if xs[0] == ys[0] {
        BeyondIsAfter(xs[1..], ys[1..], descending);
        assert xs == [xs[0]] + xs[1..] && ys == [ys[0]] + ys[1..];
      }
    }
  }

  // ----- what a query asks for -----

  datatype Plan = Plan(preds: seq<Predicate>, paths: seq<Path>, descending: bool, limit: nat)

  ghost predicate ValidPlan(p: Plan) {
    && AllAcceptable(p.preds)
    && p.limit >= 1
  }

  /** The sort fields are usable: all are paths and all go the same way. */
  ghost predicate SortOk(sort: seq<SortField>) {
    forall i :: 0 <= i < |sort| ==> JsonPath(sort[i].field).Some? && sort[i].descending == sort[0].descending
  }

  ghost function SortPaths(sort: seq<SortField>): (r: seq<Path>)
    requires SortOk(sort)
    ensures |r| == |sort|
  {
    seq(|sort|, i requires 0 <= i < |sort| => JsonPath(sort[i].field).value)
  }

  ghost predicate Askable(o: Options) {
    && AllAcceptable(o.predicates)
    && SortOk(o.sort)
    && (o.cursor.Some? ==> |o.cursor.value.keys| == |o.sort|)
  }

  ghost function PlanOf(o: Options): (p: Plan)
    requires Askable(o)
    ensures ValidPlan(p)
  {
    Plan(o.predicates, SortPaths(o.sort), o.sort != [] && o.sort[0].descending, EffectiveLimit(o.limit))
  }

  function CursorCols(c: Cursor): (r: Cols)
    ensures |r| == |c.keys| + 1
  {
    seq(|c.keys|, i requires 0 <= i < |c.keys| => Some(c.keys[i])) + [Some(c.id)]
  }

  /** The cursor's row comparison is true of the row. */
  ghost predicate Past(p: Plan, cursor: Cursor, row: Row) {
    && |cursor.keys| == |p.paths|
    && EvalBeyond(Columns(p.paths, row), CursorCols(cursor), p.descending) == True
  }

  ghost predicate Wanted(p: Plan, cursor: Option<Cursor>, row: Row)
    requires ValidPlan(p)
  {
    && AllHold(p.preds, row.doc)
    && (cursor.Some? ==> Past(p, cursor.value, row))
  }

  ghost function Picked(p: Plan, cursor: Option<Cursor>, table: Table): (r: seq<Row>)
    requires ValidPlan(p)
    ensures forall x :: x in r <==> x in table && Wanted(p, cursor, x)
    ensures |r| <= |table|
  {
    if table == [] then []
    else
      Picked(p, cursor, table[..|table| - 1]) +
      if Wanted(p, cursor, table[|table| - 1]) then [table[|table| - 1]] else []
  }

  /** All the wanted rows in query order. */
  ghost function Ranked(p: Plan, cursor: Option<Cursor>, table: Table): seq<Row>
    requires ValidPlan(p)
  {
    StableSort(RowOrder(p.paths, p.descending), Picked(p, cursor, table))
  }

  function SortKeysOf(doc: Json, paths: seq<Path>): seq<string> {
    seq(|paths|, i requires 0 <= i < |paths| => LookupPath(doc, paths[i]))
  }

  function CursorAt(paths: seq<Path>, row: Row): Cursor {
    Cursor(SortKeysOf(row.doc, paths), row.id)
  }

  function FirstRows(rows: seq<Row>, n: nat): (r: seq<Row>)
    ensures |r| <= n && r <= rows
  {
    if |rows| <= n then rows else rows[..n]
  }

  /** The page a query answers with. */
  ghost function PageOf(p: Plan, cursor: Option<Cursor>, table: Table): Page
    requires ValidPlan(p)
  {
    PageFrom(p, Ranked(p, cursor, table))
  }

  /** The first page of these rows. */
  function PageFrom(p: Plan, all: seq<Row>): Page
    requires p.limit > 0
  {
    var rows := FirstRows(all, p.limit);
    var hasMore := |all| > p.limit;
    Page(rows,
         if hasMore && rows[p.limit - 1].id != "" then Some(CursorAt(p.paths, rows[p.limit - 1])) else None,
         hasMore)
  }

  // ----- the statement Query builds -----

  datatype Statement = Statement(conds: seq<Cond>, paths: seq<Path>, descending: bool, limitArg: nat)

  function Selected(conds: seq<Cond>, args: seq<Arg>, table: Table): seq<Row> {
    if table == [] then []
    else
      Selected(conds, args, table[..|table| - 1]) +
      if EvalAll(conds, table[|table| - 1], args) == True then [table[|table| - 1]] else []
  }

  function LimitOf(args: seq<Arg>, k: nat): nat {
    if 1 <= k <= |args| && args[k - 1].Number? && args[k - 1].number >= 0 then args[k - 1].number else 0
  }

  /** What the database answers: WHERE, then ORDER BY, then LIMIT. */
  function Execute(st: Statement, args: seq<Arg>, table: Table): seq<Row> {
    FirstRows(StableSort(RowOrder(st.paths, st.descending), Selected(st.conds, args, table)), LimitOf(args, st.limitArg))
  }

  lemma {:induction false} SelectedIsPicked(
    conds: seq<Cond>, args: seq<Arg>, p: Plan, cursor: Option<Cursor>, table: Table)
    requires ValidPlan(p)
    requires Filters(conds, args, p, cursor)
    ensures Selected(conds, args, table) == Picked(p, cursor, table)
  {
    if table != [] {
      SelectedIsPicked(conds, args, p, cursor, table[..|table| - 1]);
    }
  }

  lemma RenderedMeaning(p: Plan, conds: seq<Cond>, args: seq<Arg>, row: Row)
    requires ValidPlan(p) && Renders(conds, args, p.preds, 0)
    ensures EvalAll(conds, row, args) == True <==> AllHold(p.preds, row.doc)
  {
    var none: seq<Arg> := [];
    assert none + args == args;
  }

  /** Appending the limit argument leaves the meaning of the conditions alone. */
  lemma FirstPageMeaning(p: Plan, conds: seq<Cond>, args: seq<Arg>, limit: Arg, row: Row)
    requires ValidPlan(p) && Renders(conds, args, p.preds, 0)
    ensures EvalAll(conds, row, args + [limit]) == True <==> Wanted(p, None, row)
  {
    RenderedMeaning(p, conds, args, row);
    EvalAllExtends(conds, row, args, [limit]);
  }

  /** The cursor's placeholders name the cursor's own values, whatever is appended after them. */
  lemma CursorCondition(p: Plan, c: Cursor, args: seq<Arg>, limit: Arg, row: Row)
    requires |c.keys| == |p.paths|
    ensures var more := Texts(c.keys + [c.id]);
            Eval(RowBeyond(p.paths, p.descending, Numbers(|args|, |more|)), row, args + (more + [limit])) == True
            <==> Past(p, c, row)
  {
    var more := Texts(c.keys + [c.id]);
    assert BoundAll(args + (more + [limit]), Numbers(|args|, |more|)) == CursorCols(c);
  }

  lemma NextPageMeaning(p: Plan, c: Cursor, conds: seq<Cond>, args: seq<Arg>, limit: Arg, row: Row)
    requires ValidPlan(p) && Renders(conds, args, p.preds, 0) && |c.keys| == |p.paths|
    ensures var more := Texts(c.keys + [c.id]);
            var beyond := RowBeyond(p.paths, p.descending, Numbers(|args|, |more|));
            EvalAll(conds + [beyond], row, args + (more + [limit])) == True <==> Wanted(p, Some(c), row)
  {
    var more := Texts(c.keys + [c.id]);
    var beyond := RowBeyond(p.paths, p.descending, Numbers(|args|, |more|));
    RenderedMeaning(p, conds, args, row);
    JoinedMeaning(conds, beyond, row, args, more + [limit]);
    CursorCondition(p, c, args, limit, row);
  }

  // ----- Query -----

  /** The sort loop of Query: usable paths, all in one direction. */
  method PrepareSort(sort: seq<SortField>) returns (r: Result<(seq<Path>, bool)>)
    ensures r.Ok? <==> SortOk(sort)
    ensures r.Ok? ==> r.value.0 == SortPaths(sort) && r.value.1 == (sort != [] && sort[0].descending)
  {
    var paths: seq<Path>, descending := [], false;
    for i := 0 to |sort|
      invariant |paths| == i && SortOk(sort[..i])
      invariant forall k :: 0 <= k < i ==> paths[k] == JsonPath(sort[k].field).value
      invariant descending == (i > 0 && sort[0].descending)
    {
      assert SortOk(sort) ==> JsonPath(sort[i].field).Some? && sort[i].descending == sort[0].descending;
      var path := JsonPath(sort[i].field);
      if path.None? {
        return Err("field");
      }
      if i == 0 {
        descending := sort[i].descending;
      } else if sort[i].descending != descending {
        return Err("every sort field must go in the same direction");
      }
      paths := paths + [path.value];
    }
    assert sort[..|sort|] == sort;
    return Ok((paths, descending));
  }

  /** The conditions are true of exactly the wanted rows. */
  ghost predicate Filters(conds: seq<Cond>, args: seq<Arg>, p: Plan, cursor: Option<Cursor>)
    requires ValidPlan(p)
  {
    forall row: Row :: EvalAll(conds, row, args) == True <==> Wanted(p, cursor, row)
  }

  /** What the statement and its arguments say, whichever page is asked for. */
  ghost predicate Asks(st: Statement, args: seq<Arg>, p: Plan, cursor: Option<Cursor>)
    requires ValidPlan(p)
  {
    && st.paths == p.paths && st.descending == p.descending
    && Filters(st.conds, args, p, cursor)
    && LimitOf(args, st.limitArg) == p.limit + 1
    && AllPlaceholders(st.conds) + [st.limitArg] == Numbers(0, |args|)
  }

  /** The statement and its arguments: the predicates' conditions, the cursor's if there is one, and the limit. */
  function Assembled(conds: seq<Cond>, bound: seq<Arg>, paths: seq<Path>, descending: bool, limit: nat,
                     cursor: Option<Cursor>): (Statement, seq<Arg>)
  {
    if cursor.None? then (Statement(conds, paths, descending, |bound| + 1), bound + [Number(limit + 1)])
    else
      var more := Texts(cursor.value.keys + [cursor.value.id]);
      var beyond := RowBeyond(paths, descending, Numbers(|bound|, |more|));
      (Statement(conds + [beyond], paths, descending, |bound + more| + 1), bound + more + [Number(limit + 1)])
  }

  lemma LimitComesLast(args: seq<Arg>, n: nat)
    ensures LimitOf(args + [Number(n)], |args| + 1) == n
    ensures Numbers(0, |args| + 1) == Numbers(0, |args|) + [|args| + 1]
  {
  }

  /** The conditions of the assembled statement are true of exactly the wanted rows. */
  ghost predicate Selects(p: Plan, conds: seq<Cond>, args: seq<Arg>, cursor: Option<Cursor>)
    requires ValidPlan(p)
  {
    var a := Assembled(conds, args, p.paths, p.descending, p.limit, cursor);
    Filters(a.0.conds, a.1, p, cursor)
  }

  lemma {:induction false} FirstPageSelects(p: Plan, conds: seq<Cond>, args: seq<Arg>)
    requires ValidPlan(p) && Renders(conds, args, p.preds, 0)
    ensures Selects(p, conds, args, None)
  {
    forall row: Row
      ensures EvalAll(conds, row, args + [Number(p.limit + 1)]) == True <==> Wanted(p, None, row)
    {
      FirstPageMeaning(p, conds, args, Number(p.limit + 1), row);
    }
  }

  lemma {:induction false} NextPageSelects(p: Plan, c: Cursor, conds: seq<Cond>, args: seq<Arg>)
    requires ValidPlan(p) && Renders(conds, args, p.preds, 0) && |c.keys| == |p.paths|
    ensures Selects(p, conds, args, Some(c))
  {
    var more, limit := Texts(c.keys + [c.id]), Number(p.limit + 1);
    var beyond := RowBeyond(p.paths, p.descending, Numbers(|args|, |more|));
    assert args + more + [limit] == args + (more + [limit]);
    forall row: Row
      ensures EvalAll(conds + [beyond], row, args + more + [limit]) == True <==> Wanted(p, Some(c), row)
    {
      NextPageMeaning(p, c, conds, args, limit, row);
    }
  }

  /** The placeholders run from one to the number of arguments, and the last is the limit. */
  ghost predicate Numbered(p: Plan, conds: seq<Cond>, args: seq<Arg>, cursor: Option<Cursor>) {
    var a := Assembled(conds, args, p.paths, p.descending, p.limit, cursor);
    LimitOf(a.1, a.0.limitArg) == p.limit + 1 && AllPlaceholders(a.0.conds) + [a.0.limitArg] == Numbers(0, |a.1|)
  }

  lemma AssembledIsNumbered(p: Plan, conds: seq<Cond>, args: seq<Arg>, cursor: Option<Cursor>)
    requires AllPlaceholders(conds) == Numbers(0, |args|) && (cursor.Some? ==> |cursor.value.keys| == |p.paths|)
    ensures Numbered(p, conds, args, cursor)
  {
    if cursor.None? {
      LimitComesLast(args, p.limit + 1);
    } else {
      var more := Texts(cursor.value.keys + [cursor.value.id]);
      NumberedThrough(conds, RowBeyond(p.paths, p.descending, Numbers(|args|, |more|)), args, more, p.limit + 1);
    }
  }

  lemma NumberedThrough(conds: seq<Cond>, beyond: Cond, args: seq<Arg>, more: seq<Arg>, limit: nat)
    requires AllPlaceholders(conds) == Numbers(0, |args|) && Placeholders(beyond) == Numbers(|args|, |more|)
    ensures LimitOf(args + more + [Number(limit)], |args + more| + 1) == limit
    ensures AllPlaceholders(conds + [beyond]) + [|args + more| + 1] == Numbers(0, |args + more + [Number(limit)]|)
  {
    PlaceholdersSnoc(conds, beyond, 0, |args|, |more|);
    LimitComesLast(args + more, limit);
  }

  /** Placeholders and arguments for the cursor, one key after another and then the id. */
  method CursorArgs(keys: seq<string>, id: string, bound: nat) returns (ks: seq<nat>, more: seq<Arg>)
    ensures more == Texts(keys + [id]) && ks == Numbers(bound, |more|)
  {
    ks, more := [], [];
    for i := 0 to |keys|
      invariant |more| == i && ks == Numbers(bound, i)
      invariant forall k :: 0 <= k < i ==> more[k] == Text(keys[k])
    {
      more := more + [Text(keys[i])];
      ks := ks + [bound + |more|];
    }
    more := more + [Text(id)];
    ks := ks + [bound + |more|];
  }

  /** It asks exactly for the wanted rows after the cursor, in order, one more than the limit. */
  lemma AssembledAsks(p: Plan, conds: seq<Cond>, bound: seq<Arg>, cursor: Option<Cursor>)
    requires ValidPlan(p) && Renders(conds, bound, p.preds, 0)
    requires cursor.Some? ==> |cursor.value.keys| == |p.paths|
    ensures var a := Assembled(conds, bound, p.paths, p.descending, p.limit, cursor); Asks(a.0, a.1, p, cursor)
  {
    AssembledIsNumbered(p, conds, bound, cursor);
    if cursor.None? {
      FirstPageSelects(p, conds, bound);
    } else {
      NextPageSelects(p, cursor.value, conds, bound);
    }
  }

  /** The cursor clause, the limit argument and the finished statement. */
  method Assemble(conds: seq<Cond>, bound: seq<Arg>, paths: seq<Path>, descending: bool, limit: nat,
                  cursor: Option<Cursor>)
    returns (r: Result<(Statement, seq<Arg>)>)
    ensures r.Ok? <==> (cursor.Some? ==> |cursor.value.keys| == |paths|)
    ensures r.Ok? ==> r.value == Assembled(conds, bound, paths, descending, limit, cursor)
  {
    var args, all := bound, conds;
    if cursor.Some? {
      var cur := cursor.value;
      if |cur.keys| != |paths| {
        return Err("cursor does not match the current sort");
      }
      var ks, more := CursorArgs(cur.keys, cur.id, |args|);
      all := all + [RowBeyond(paths, descending, ks)];
      args := args + more;
    }
    return Ok((Statement(all, paths, descending, |args| + 1), args + [Number(limit + 1)]));
  }

  /** Everything Query does before it talks to the database. */
  method Prepare(o: Options) returns (r: Result<(Statement, seq<Arg>)>)
    ensures r.Ok? <==> Askable(o)
    ensures r.Ok? ==> Asks(r.value.0, r.value.1, PlanOf(o), o.cursor)
    ensures var n := if o.limit <= 0 then 100 else if o.limit > 1000 then 1000 else o.limit;
            r.Ok? ==> LimitOf(r.value.1, r.value.0.limitArg) == n + 1
  {
    var where := BuildWhere(o.predicates, 0);
    if where.Err? {
      return Err(where.reason);
    }
    var sorted := PrepareSort(o.sort);
    if sorted.Err? {
      return Err(sorted.reason);
    }
    var paths, descending, limit := sorted.value.0, sorted.value.1, EffectiveLimit(o.limit);
    ghost var p := Plan(o.predicates, paths, descending, limit);
    if o.cursor.Some? ==> |o.cursor.value.keys| == |paths| {
      AssembledAsks(p, where.value.0, where.value.1, o.cursor);
    }
    r := Assemble(where.value.0, where.value.1, paths, descending, limit, o.cursor);
  }

  /** The scan loop of Query: keep up to `limit` rows and notice whether one more came back. */
  method Scan(rows: seq<Row>, limit: nat) returns (kept: seq<Row>, hasMore: bool)
    requires |rows| <= limit + 1
    ensures kept == FirstRows(rows, limit) && hasMore == (|rows| > limit)
  {
    kept, hasMore := [], false;
    for i := 0 to |rows|
      invariant kept == rows[..i] && i <= limit && !hasMore
    {
      if |kept| == limit {
        hasMore := true;
        break;
      }
      kept := kept + [rows[i]];
    }
  }

  /** A row that sorts the page but is not a JSON object cannot be turned into a cursor. */
  ghost predicate Undecodable(p: Plan, page: Page) {
    page.next.Some? && p.paths != [] && page.rows != [] && page.rows[|page.rows| - 1].doc.Scalar?
  }

  /** What Query does with the rows the database returned. */
  method Finish(ghost p: Plan, ghost all: seq<Row>, paths: seq<Path>, limit: nat, rows: seq<Row>)
    returns (r: Result<Page>)
    requires p.limit == limit > 0 && p.paths == paths && rows == FirstRows(all, limit + 1)
    ensures Undecodable(p, PageFrom(p, all)) ==> r.Err?
    ensures !Undecodable(p, PageFrom(p, all)) ==> r == Ok(PageFrom(p, all))
  {
    var kept, hasMore := Scan(rows, limit);
    assert kept == FirstRows(all, limit) && hasMore == (|all| > limit);
    var next: Option<Cursor> := None;
    if hasMore && kept[|kept| - 1].id != "" {
      var last := kept[|kept| - 1];
      if paths != [] && last.doc.Scalar? {
        return Err("decode document for cursor");
      }
      next := Some(CursorAt(paths, last));
    }
    return Ok(Page(kept, next, hasMore));
  }

  method Query(table: Table, o: Options) returns (r: Result<Page>)
    ensures !Askable(o) ==> r.Err?
    ensures Askable(o) && Undecodable(PlanOf(o), PageOf(PlanOf(o), o.cursor, table)) ==> r.Err?
    ensures Askable(o) && !Undecodable(PlanOf(o), PageOf(PlanOf(o), o.cursor, table)) ==>
              r == Ok(PageOf(PlanOf(o), o.cursor, table))
    ensures var n := if o.limit <= 0 then 100 else if o.limit > 1000 then 1000 else o.limit;
            r.Ok? ==> |r.value.rows| <= n && (r.value.hasMore ==> |r.value.rows| == n)
  {
    var prepared := Prepare(o);
    if prepared.Err? {
      return Err(prepared.reason);
    }
    var st, args := prepared.value.0, prepared.value.1;
    var rows := Execute(st, args, table);
    AnswerIsRanked(st, args, PlanOf(o), o.cursor, table);
    r := Finish(PlanOf(o), Ranked(PlanOf(o), o.cursor, table), st.paths, EffectiveLimit(o.limit), rows);
  }

  lemma AnswerIsRanked(st: Statement, args: seq<Arg>, p: Plan, cursor: Option<Cursor>, table: Table)
    requires ValidPlan(p) && Asks(st, args, p, cursor)
    ensures Execute(st, args, table) == FirstRows(Ranked(p, cursor, table), p.limit + 1)
  {
    SelectedIsPicked(st.conds, args, p, cursor, table);
  }

  // ----- following the cursor -----

  ghost predicate DistinctIds(table: Table) {
    forall i, j :: 0 <= i < j < |table| ==> table[i].id != table[j].id
  }

  /** Distinct, non-empty ids. */
  ghost predicate Identified(table: Table) {
    DistinctIds(table) && forall r :: r in table ==> r.id != ""
  }

  /** And every sort field is there and reads the same to the database and to Go. */
  ghost predicate Sortable(p: Plan, table: Table) {
    Identified(table) && forall r :: r in table ==> Keyed(p, r)
  }

  ghost predicate Keyed(p: Plan, r: Row) {
    forall i :: 0 <= i < |p.paths| ==> SqlText(r.doc, p.paths[i]) == Some(LookupPath(r.doc, p.paths[i]))
  }

  lemma KeyedColumns(p: Plan, r: Row)
    requires Keyed(p, r)
    ensures forall i :: 0 <= i < |Columns(p.paths, r)| ==> Columns(p.paths, r)[i].Some?
    ensures CursorCols(CursorAt(p.paths, r)) == Columns(p.paths, r)
  {
  }

  /** Row a comes strictly before row b in query order. */
  ghost predicate Before(p: Plan, a: Row, b: Row) {
    DirLess(p.descending, Columns(p.paths, a), Columns(p.paths, b))
  }

  ghost predicate Ascending(p: Plan, rows: seq<Row>) {
    forall i, j :: 0 <= i < j < |rows| ==> Before(p, rows[i], rows[j])
  }

  lemma DifferentIdsDifferentColumns(p: Plan, a: Row, b: Row)
    ensures Columns(p.paths, a) == Columns(p.paths, b) ==> a.id == b.id
  {
    var xs, ys := Columns(p.paths, a), Columns(p.paths, b);
    assert xs[|p.paths|] == Some(a.id) && ys[|p.paths|] == Some(b.id);
  }

  /** No row of the table is picked twice. */
  lemma {:induction false} PickedDistinct(p: Plan, cursor: Option<Cursor>, table: Table)
    requires ValidPlan(p)
    requires DistinctIds(table)
    ensures forall i, j :: 0 <= i < j < |Picked(p, cursor, table)| ==>
              Picked(p, cursor, table)[i].id != Picked(p, cursor, table)[j].id
  {
    if table != [] {
      var front, last := table[..|table| - 1], table[|table| - 1];
      PickedDistinct(p, cursor, front);
      var s := Picked(p, cursor, front);
      forall i | 0 <= i < |s|
        ensures s[i].id != last.id
      {
        assert s[i] in s && s[i] in front;
        var k :| 0 <= k < |front| && front[k] == s[i];
        assert table[k] == front[k];
      }
    }
  }

  lemma RankedMembers(p: Plan, cursor: Option<Cursor>, table: Table)
    requires ValidPlan(p) && Identified(table)
    ensures var ranked := Ranked(p, cursor, table);
            && Sorted(RowOrder(p.paths, p.descending), ranked)
            && (forall i, j :: 0 <= i < j < |ranked| ==> ranked[i] != ranked[j])
            && (forall r :: r in ranked <==> r in table && Wanted(p, cursor, r))
  {
    var picked, ranked := Picked(p, cursor, table), Ranked(p, cursor, table);
    RowOrderIsTotal(p.paths, p.descending);
    StableSortSpec(RowOrder(p.paths, p.descending), picked);
    SameMembers(ranked, picked);
    PickedDistinct(p, cursor, table);
    DistinctRearranged(picked, ranked);
  }

  /** The answer is strictly ascending and holds exactly the wanted rows of the table. */
  lemma RankedFacts(p: Plan, cursor: Option<Cursor>, table: Table)
    requires ValidPlan(p) && Identified(table)
    ensures Ascending(p, Ranked(p, cursor, table))
    ensures forall r :: r in Ranked(p, cursor, table) <==> r in table && Wanted(p, cursor, r)
  {
    RankedMembers(p, cursor, table);
    SortedIsAscending(p, table, Ranked(p, cursor, table));
  }

  lemma SortedIsAscending(p: Plan, table: Table, rows: seq<Row>)
    requires DistinctIds(table)
    requires Sorted(RowOrder(p.paths, p.descending), rows)
    requires forall i, j :: 0 <= i < j < |rows| ==> rows[i] != rows[j]
    requires forall r :: r in rows ==> r in table
    ensures Ascending(p, rows)
  {
    forall i, j | 0 <= i < j < |rows|
      ensures Before(p, rows[i], rows[j])
    {
      var a, b := rows[i], rows[j];
      assert RowOrder(p.paths, p.descending)(a, b);
      OneRowPerId(table, a, b);
      DifferentIdsDifferentColumns(p, a, b);
    }
  }

  lemma OneRowPerId(table: Table, a: Row, b: Row)
    requires DistinctIds(table)
    requires a in table && b in table
    ensures a.id == b.id ==> a == b
  {
    var i :| 0 <= i < |table| && table[i] == a;
    var j :| 0 <= j < |table| && table[j] == b;
  }

  lemma FrontFacts(p: Plan, all: seq<Row>, limit: nat)
    requires Ascending(p, all) && limit >= 1
    ensures Ascending(p, FirstRows(all, limit))
    ensures forall r :: r in FirstRows(all, limit) ==> r in all
    ensures forall r :: r in all && r !in FirstRows(all, limit) ==>
              |all| > limit && Before(p, FirstRows(all, limit)[limit - 1], r)
  {
    var rows := FirstRows(all, limit);
    assert forall m :: 0 <= m < |rows| ==> rows[m] == all[m] && rows[m] in rows && all[m] in all;
    forall r | r in all && r !in rows
      ensures |all| > limit && Before(p, rows[limit - 1], r)
    {
      var k :| 0 <= k < |all| && all[k] == r;
    }
  }

  /** The whole answer behind a page, and the page as its front. */
  lemma PageShape(p: Plan, all: seq<Row>, page: Page)
    requires p.limit > 0 && page == PageFrom(p, all) && forall r :: r in all ==> r.id != ""
    ensures page.rows == FirstRows(all, p.limit) && page.hasMore == (|all| > p.limit)
    ensures page.hasMore ==> page.rows != [] && page.next == Some(CursorAt(p.paths, page.rows[|page.rows| - 1]))
  {
    if page.hasMore {
      assert all[p.limit - 1] in all;
    }
  }

  /** One page: in order, wanted, nothing wanted before its end left out, and a cursor exactly at its end. */
  ghost predicate GoodPage(p: Plan, cursor: Option<Cursor>, table: Table, page: Page)
    requires ValidPlan(p)
  {
    && Ascending(p, page.rows)
    && (forall r :: r in page.rows ==> r in table && Wanted(p, cursor, r))
    && (page.hasMore ==> page.rows != [] && page.next == Some(CursorAt(p.paths, page.rows[|page.rows| - 1])))
    && (forall r :: r in table && Wanted(p, cursor, r) && r !in page.rows ==>
          page.hasMore && Before(p, page.rows[|page.rows| - 1], r))
  }

  lemma PageFacts(p: Plan, cursor: Option<Cursor>, table: Table)
    requires ValidPlan(p) && Identified(table)
    ensures GoodPage(p, cursor, table, PageOf(p, cursor, table))
  {
    var all, page := Ranked(p, cursor, table), PageOf(p, cursor, table);
    RankedFacts(p, cursor, table);
    PageShape(p, all, page);
    FrontFacts(p, all, p.limit);
  }

  /** Pages read one after another from whatever the table was at the time, until HasMore is false. */
  ghost predicate IsScan(p: Plan, tables: seq<Table>, pages: seq<Page>)
    requires ValidPlan(p)
  {
    && |tables| == |pages| > 0
    && pages[0] == PageOf(p, None, tables[0])
    && (forall i :: 0 <= i < |pages| - 1 ==> pages[i].hasMore && pages[i + 1] == PageOf(p, pages[i].next, tables[i + 1]))
    && !pages[|pages| - 1].hasMore
  }

  /** Between pages rows may come, go and change, but an id keeps its sort key. */
  ghost predicate SameKeys(p: Plan, tables: seq<Table>) {
    forall i, j, r, s :: 0 <= i < |tables| && 0 <= j < |tables| && r in tables[i] && s in tables[j] && r.id == s.id ==>
      Columns(p.paths, r) == Columns(p.paths, s)
  }

  function Rows(pages: seq<Page>, from: nat): seq<Row>
    requires from <= |pages|
    decreases |pages| - from
  {
    if from == |pages| then [] else pages[from].rows + Rows(pages, from + 1)
  }

  ghost function CursorBefore(pages: seq<Page>, i: nat): Option<Cursor>
    requires i < |pages|
  {
    if i == 0 then None else pages[i - 1].next
  }

  lemma PageOfScan(p: Plan, tables: seq<Table>, pages: seq<Page>, i: nat)
    requires ValidPlan(p) && IsScan(p, tables, pages) && i < |pages|
    ensures pages[i] == PageOf(p, CursorBefore(pages, i), tables[i])
  {
  }

  function LastRow(page: Page): Row
    requires page.rows != []
  {
    page.rows[|page.rows| - 1]
  }

  lemma BeforeTransitive(p: Plan, a: Row, b: Row, c: Row)
    requires Before(p, a, b) && Before(p, b, c)
    ensures Before(p, a, c)
  {
    DirTransitive(p.descending, Columns(p.paths, a), Columns(p.paths, b), Columns(p.paths, c));
  }

  ghost predicate AllAfter(p: Plan, page: Page, rows: seq<Row>) {
    forall r :: r in rows ==> page.rows != [] && Before(p, LastRow(page), r)
  }

  lemma {:induction false} JoinAscending(p: Plan, page: Page, rest: seq<Row>)
    requires Ascending(p, page.rows) && Ascending(p, rest) && AllAfter(p, page, rest)
    ensures Ascending(p, page.rows + rest)
  {
    var xs := page.rows;
    forall i, j | 0 <= i < j < |xs + rest|
      ensures Before(p, (xs + rest)[i], (xs + rest)[j])
    {
      if i < |xs| <= j {
        var r := rest[j - |xs|];
        assert r in rest;
        if i < |xs| - 1 {
          BeforeTransitive(p, xs[i], LastRow(page), r);
        }
      }
    }
  }

  lemma AfterCarriesOn(p: Plan, page: Page, page': Page, rest: seq<Row>)
    requires AllAfter(p, page, page'.rows) && AllAfter(p, page', rest)
    ensures AllAfter(p, page, page'.rows + rest)
  {
    forall r | r in page'.rows + rest
      ensures page.rows != [] && Before(p, LastRow(page), r)
    {
      if r !in page'.rows {
        assert r in rest && LastRow(page') in page'.rows;
        BeforeTransitive(p, LastRow(page), LastRow(page'), r);
      }
    }
  }

  /** The row was in one of the tables, and matched. */
  ghost predicate Seen(p: Plan, tables: seq<Table>, r: Row)
    requires ValidPlan(p)
  {
    AllHold(p.preds, r.doc) && exists k :: 0 <= k < |tables| && r in tables[k]
  }

  /** The id is there, and matches, in every table from i on. */
  ghost predicate Stays(p: Plan, tables: seq<Table>, i: nat, id: string)
    requires ValidPlan(p)
  {
    forall k :: i <= k < |tables| ==> exists r :: r in tables[k] && r.id == id && AllHold(p.preds, r.doc)
  }

  /** Two ascending sequences with the same members are the same. */
  lemma {:induction false} AscendingUnique(p: Plan, a: seq<Row>, b: seq<Row>)
    requires Ascending(p, a) && Ascending(p, b) && forall r :: r in a <==> r in b
    ensures a == b
  {
    if a == [] || b == [] {
      HasRow(a);
      HasRow(b);
    } else {
      SameFirst(p, a, b);
      forall r
        ensures r in a[1..] <==> r in b[1..]
      {
        TailMember(p, a, r);
        TailMember(p, b, r);
      }
      AscendingUnique(p, a[1..], b[1..]);
      assert a == [a[0]] + a[1..] && b == [b[0]] + b[1..];
    }
  }

  lemma HasRow(rows: seq<Row>)
    ensures rows != [] ==> exists r :: r in rows
  {
    if rows != [] {
      assert rows[0] in rows;
    }
  }

  lemma SameFirst(p: Plan, a: seq<Row>, b: seq<Row>)
    requires Ascending(p, a) && Ascending(p, b) && a != [] && b != [] && forall r :: r in a <==> r in b
    ensures a[0] == b[0]
  {
    assert a[0] in b && b[0] in a;
    var i :| 0 <= i < |b| && b[i] == a[0];
    var j :| 0 <= j < |a| && a[j] == b[0];
    if i > 0 && j > 0 {
      BeforeTransitive(p, a[0], b[0], a[0]);
    }
  }

  lemma TailMember(p: Plan, a: seq<Row>, r: Row)
    requires Ascending(p, a) && a != []
    ensures r in a[1..] <==> r in a && r != a[0]
  {
    assert a == [a[0]] + a[1..];
    assert forall k :: 1 <= k < |a| ==> Before(p, a[0], a[k]);
  }

  /** The cursor a page returns is accepted by the same query, which then means the same plan. */
  lemma NextCursorIsAccepted(o: Options, table: Table)
    requires Askable(o)
    ensures var page := PageOf(PlanOf(o), o.cursor, table);
            && Askable(o.(cursor := page.next))
            && PlanOf(o.(cursor := page.next)) == PlanOf(o)
  {
  }

  /** On sortable tables the cursor can always be written, so Query answers with the page. */
  lemma SortableIsDecodable(o: Options, table: Table)
    requires Askable(o) && Sortable(PlanOf(o), table)
    ensures !Undecodable(PlanOf(o), PageOf(PlanOf(o), o.cursor, table))
  {
    var p := PlanOf(o);
    var page := PageOf(p, o.cursor, table);
    RankedFacts(p, o.cursor, table);
    if page.rows != [] && p.paths != [] {
      var last := LastRow(page);
      assert last in Ranked(p, o.cursor, table);
      assert Keyed(p, last) && SqlText(last.doc, p.paths[0]).Some?;
    }
  }
}

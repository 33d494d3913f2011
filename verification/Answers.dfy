/**
What one query answers, read off its options (core/db/query.go): which rows, in which order, how many, and the cursor
to go on with.
*/
module Answers {
  import opened Common
  import opened Ordering
  import opened Predicates
  import opened Paging
  import Denotations

  // ----- which options are accepted -----

  /** A query is answered exactly when its predicates are accepted, it sorts by paths in one direction, and its cursor fits. */
  lemma AskableExactly(o: Options)
    ensures Askable(o) <==>
              && (forall p :: p in o.predicates ==> Acceptable(p))
              && (forall i :: 0 <= i < |o.sort| ==> Named(o.sort[i].field))
              && (forall i, j :: 0 <= i < |o.sort| && 0 <= j < |o.sort| ==> o.sort[i].descending == o.sort[j].descending)
              && (o.cursor.Some? ==> |o.cursor.value.keys| == |o.sort|)
  {
    forall i | 0 <= i < |o.sort|
      ensures JsonPath(o.sort[i].field).Some? <==> Named(o.sort[i].field)
    {
      Denotations.SomePath(o.sort[i].field);
    }
    assert (forall p :: p in o.predicates ==> Acceptable(p)) <==> AllAcceptable(o.predicates);
    assert (forall i, j :: 0 <= i < |o.sort| && 0 <= j < |o.sort| ==> o.sort[i].descending == o.sort[j].descending)
      <==> forall i :: 0 <= i < |o.sort| ==> o.sort[i].descending == o.sort[0].descending;
  }

  /** The field is a path into a document. */
  ghost predicate Named(field: string) {
    exists path :: Denotations.Names(field, path)
  }

  // ----- columns -----

  /** Text a comes before text b, and every text before a missing one. */
  predicate TextBefore(a: Option<string>, b: Option<string>) {
    a.Some? && (b.None? || StrLess(a.value, b.value))
  }

  /** The columns agree before k, and xs comes first at k. */
  predicate FirstAt(descending: bool, xs: Cols, ys: Cols, k: nat) {
    && k < |xs| == |ys| && (forall i :: 0 <= i < k ==> xs[i] == ys[i])
    && if descending then TextBefore(ys[k], xs[k]) else TextBefore(xs[k], ys[k])
  }

  lemma TextOrder(a: Option<string>, b: Option<string>)
    requires a != b
    ensures OptLeq(a, b) <==> TextBefore(a, b)
  {
  }

  lemma {:induction false} FirstLater(descending: bool, xs: Cols, ys: Cols, k: nat)
    requires xs != [] && ys != [] && xs[0] == ys[0] && FirstAt(descending, xs[1..], ys[1..], k)
    ensures FirstAt(descending, xs, ys, k + 1)
  {
    forall i | 0 <= i < k + 1
      ensures xs[i] == ys[i]
    {
      assert i > 0 ==> xs[i] == xs[1..][i - 1] && ys[i] == ys[1..][i - 1];
    }
  }

  lemma {:induction false} FirstEarlier(descending: bool, xs: Cols, ys: Cols, k: nat)
    requires xs != [] && ys != [] && xs[0] == ys[0] && FirstAt(descending, xs, ys, k)
    ensures k > 0 && FirstAt(descending, xs[1..], ys[1..], k - 1)
  {
  }

  /** The order of rows is decided by the first column in which they differ. */
  lemma {:induction false} OrderMeans(descending: bool, xs: Cols, ys: Cols)
    requires |xs| == |ys|
    ensures DirLess(descending, xs, ys) <==> exists k: nat :: FirstAt(descending, xs, ys, k)
  {
    if xs != [] {
      if xs[0] == ys[0] {
        OrderMeans(descending, xs[1..], ys[1..]);
        assert xs == [xs[0]] + xs[1..] && ys == [ys[0]] + ys[1..];
        if k: nat :| FirstAt(descending, xs[1..], ys[1..], k) {
          FirstLater(descending, xs, ys, k);
        }
        if k: nat :| FirstAt(descending, xs, ys, k) {
          FirstEarlier(descending, xs, ys, k);
        }
      } else {
        TextOrder(xs[0], ys[0]);
        TextOrder(ys[0], xs[0]);
        assert DirLess(descending, xs, ys) ==> FirstAt(descending, xs, ys, 0);
        assert forall k: nat :: FirstAt(descending, xs, ys, k) ==> k == 0;
      }
    }
  }

  /** The columns agree before k, all present, and at k the row's is beyond the cursor's. */
  predicate BeyondAt(descending: bool, xs: Cols, ys: Cols, k: nat) {
    && k < |xs| == |ys| && (forall i :: 0 <= i < k ==> xs[i] == ys[i] && xs[i].Some?)
    && xs[k].Some? && ys[k].Some?
    && if descending then StrLess(xs[k].value, ys[k].value) else StrLess(ys[k].value, xs[k].value)
  }

  lemma {:induction false} BeyondLater(descending: bool, xs: Cols, ys: Cols, k: nat)
    requires xs != [] && ys != [] && xs[0] == ys[0] && xs[0].Some? && BeyondAt(descending, xs[1..], ys[1..], k)
    ensures BeyondAt(descending, xs, ys, k + 1)
  {
    forall i | 0 <= i < k + 1
      ensures xs[i] == ys[i] && xs[i].Some?
    {
      assert i > 0 ==> xs[i] == xs[1..][i - 1] && ys[i] == ys[1..][i - 1];
    }
  }

  lemma {:induction false} BeyondEarlier(descending: bool, xs: Cols, ys: Cols, k: nat)
    requires xs != [] && ys != [] && xs[0] == ys[0] && BeyondAt(descending, xs, ys, k)
    ensures k > 0 && xs[0].Some? && BeyondAt(descending, xs[1..], ys[1..], k - 1)
  {
  }

  lemma {:induction false} BeyondMeans(descending: bool, xs: Cols, ys: Cols)
    requires |xs| == |ys|
    ensures EvalBeyond(xs, ys, descending) == True <==> exists k: nat :: BeyondAt(descending, xs, ys, k)
  {
    if xs != [] {
      if xs[0] == ys[0] {
        BeyondMeans(descending, xs[1..], ys[1..]);
        if k: nat :| BeyondAt(descending, xs, ys, k) {
          BeyondEarlier(descending, xs, ys, k);
        }
        if xs[0].Some? {
          if k: nat :| BeyondAt(descending, xs[1..], ys[1..], k) {
            BeyondLater(descending, xs, ys, k);
          }
        }
      } else {
        assert EvalBeyond(xs, ys, descending) == True ==> BeyondAt(descending, xs, ys, 0);
        assert forall k: nat :: BeyondAt(descending, xs, ys, k) ==> k == 0;
      }
    }
  }

  // ----- rows -----

  /** The text of sort field i of a row, and its id after the last field. */
  function SortText(o: Options, r: Row, i: nat): Option<string> {
    if i < |o.sort| && JsonPath(o.sort[i].field).Some? then SqlText(r.doc, JsonPath(o.sort[i].field).value) else Some(r.id)
  }

  predicate Down(o: Options) {
    o.sort != [] && o.sort[0].descending
  }

  /** Row a comes before row b: the same up to sort field k and before it there, the id being the last field. */
  predicate RowFirst(o: Options, a: Row, b: Row, k: nat) {
    && k <= |o.sort| && (forall i :: 0 <= i < k ==> SortText(o, a, i) == SortText(o, b, i))
    && if Down(o) then TextBefore(SortText(o, b, k), SortText(o, a, k)) else TextBefore(SortText(o, a, k), SortText(o, b, k))
  }

  ghost predicate SortsFirst(o: Options, a: Row, b: Row) {
    exists k: nat :: RowFirst(o, a, b, k)
  }

  /** What the cursor has for field k. */
  function CursorText(c: Cursor, k: nat): string {
    if k < |c.keys| then c.keys[k] else c.id
  }

  /** Row r is beyond the cursor: the same up to field k, and past it there. */
  predicate RowPast(o: Options, c: Cursor, r: Row, k: nat) {
    && k <= |o.sort| && (forall i :: 0 <= i < k ==> SortText(o, r, i) == Some(CursorText(c, i)))
    && SortText(o, r, k).Some?
    && if Down(o) then StrLess(SortText(o, r, k).value, CursorText(c, k)) else StrLess(CursorText(c, k), SortText(o, r, k).value)
  }

  lemma {:induction false} SortColumns(o: Options, r: Row)
    requires Askable(o)
    ensures |Columns(PlanOf(o).paths, r)| == |o.sort| + 1
    ensures forall i :: 0 <= i <= |o.sort| ==> Columns(PlanOf(o).paths, r)[i] == SortText(o, r, i)
  {
  }

  /** Rows are ordered by the sort fields as they were asked for. */
  lemma {:induction false} BeforeMeans(o: Options, a: Row, b: Row)
    requires Askable(o)
    ensures Before(PlanOf(o), a, b) <==> SortsFirst(o, a, b)
  {
    var p := PlanOf(o);
    var xs, ys := Columns(p.paths, a), Columns(p.paths, b);
    SortColumns(o, a);
    SortColumns(o, b);
    OrderMeans(p.descending, xs, ys);
    forall k: nat
      ensures FirstAt(p.descending, xs, ys, k) <==> RowFirst(o, a, b, k)
    {
    }
    if k: nat :| FirstAt(p.descending, xs, ys, k) {
      assert RowFirst(o, a, b, k);
    }
    if k: nat :| RowFirst(o, a, b, k) {
      assert FirstAt(p.descending, xs, ys, k);
    }
  }

  lemma {:induction false} PastMeans(o: Options, c: Cursor, r: Row)
    requires Askable(o) && |c.keys| == |o.sort|
    ensures Past(PlanOf(o), c, r) <==> exists k: nat :: RowPast(o, c, r, k)
  {
    var p := PlanOf(o);
    var xs, ys := Columns(p.paths, r), CursorCols(c);
    SortColumns(o, r);
    BeyondMeans(p.descending, xs, ys);
    if k: nat :| BeyondAt(p.descending, xs, ys, k) {
      PastAt(o, c, r, k);
    }
    if k: nat :| RowPast(o, c, r, k) {
      PastAt(o, c, r, k);
    }
  }

  lemma {:induction false} PastAt(o: Options, c: Cursor, r: Row, k: nat)
    requires Askable(o) && |c.keys| == |o.sort|
    ensures BeyondAt(PlanOf(o).descending, Columns(PlanOf(o).paths, r), CursorCols(c), k) <==> RowPast(o, c, r, k)
  {
    SortColumns(o, r);
    assert forall i :: 0 <= i <= |c.keys| ==> CursorCols(c)[i] == Some(CursorText(c, i));
  }

  // ----- the page -----

  /** The rows a query asks for: all its predicates hold, and they are beyond its cursor. */
  ghost predicate AskedFor(o: Options, r: Row) {
    && (forall i :: 0 <= i < |o.predicates| ==> Holds(o.predicates[i], r.doc))
    && (o.cursor.Some? ==> exists k: nat :: RowPast(o, o.cursor.value, r, k))
  }

  lemma {:induction false} AskedForIsWanted(o: Options, r: Row)
    requires Askable(o)
    ensures AskedFor(o, r) <==> Wanted(PlanOf(o), o.cursor, r)
  {
    if o.cursor.Some? {
      PastMeans(o, o.cursor.value, r);
    }
  }

  /** The page size: what was asked for, 100 if nothing was, and never more than 1000. */
  function PageSize(limit: int): nat {
    if limit <= 0 then 100 else if limit <= 1000 then limit else 1000
  }

  ghost function AllAskedFor(o: Options, table: Table): set<Row> {
    set r | r in table && AskedFor(o, r)
  }

  /** In order, and only what was asked for. */
  ghost predicate InOrder(o: Options, rows: seq<Row>) {
    forall i, j :: 0 <= i < j < |rows| ==> SortsFirst(o, rows[i], rows[j])
  }

  /** Row r comes after the last row of the page. */
  ghost predicate ComesBehind(o: Options, page: Page, r: Row) {
    page.rows != [] && SortsFirst(o, LastRow(page), r)
  }

  lemma {:induction false} DistinctSize(rows: seq<Row>, s: set<Row>)
    requires (forall i, j :: 0 <= i < j < |rows| ==> rows[i] != rows[j]) && forall r :: r in rows <==> r in s
    ensures |rows| == |s|
    decreases |rows|
  {
    if rows == [] {
      assert s == {};
    } else {
      var front, last := rows[..|rows| - 1], rows[|rows| - 1];
      assert rows == front + [last] && last !in front;
      DistinctSize(front, s - {last});
    }
  }

  lemma {:induction false} RankedSize(o: Options, table: Table)
    requires Askable(o) && Identified(table)
    ensures |Ranked(PlanOf(o), o.cursor, table)| == |AllAskedFor(o, table)|
  {
    RankedMembers(PlanOf(o), o.cursor, table);
    forall r
      ensures r in Ranked(PlanOf(o), o.cursor, table) <==> r in AllAskedFor(o, table)
    {
      AskedForIsWanted(o, r);
    }
    DistinctSize(Ranked(PlanOf(o), o.cursor, table), AllAskedFor(o, table));
  }

  /** A page holds as many rows as were asked for, up to the page size, and says that there is more exactly when there is. */
  lemma {:induction false} SizeMeans(o: Options, table: Table)
    requires Askable(o) && Identified(table)
    ensures var page, n, m := PageOf(PlanOf(o), o.cursor, table), PageSize(o.limit), |AllAskedFor(o, table)|;
            |page.rows| == (if m <= n then m else n) && (page.hasMore <==> m > n)
  {
    RankedSize(o, table);
  }

  /** And they are rows it asked for, in order, and none is passed over that comes before the last. */
  lemma {:induction false} PageMeans(o: Options, table: Table)
    requires Askable(o) && Identified(table)
    ensures var page := PageOf(PlanOf(o), o.cursor, table);
            && InOrder(o, page.rows)
            && (forall r :: r in page.rows ==> r in table && AskedFor(o, r))
            && (forall r :: r in table && AskedFor(o, r) && r !in page.rows ==> ComesBehind(o, page, r))
  {
    var p, page := PlanOf(o), PageOf(PlanOf(o), o.cursor, table);
    PageFacts(p, o.cursor, table);
    forall i, j | 0 <= i < j < |page.rows|
      ensures SortsFirst(o, page.rows[i], page.rows[j])
    {
      BeforeMeans(o, page.rows[i], page.rows[j]);
    }
    forall r
      ensures AskedFor(o, r) <==> Wanted(p, o.cursor, r)
    {
      AskedForIsWanted(o, r);
    }
    forall r | r in table && AskedFor(o, r) && r !in page.rows
      ensures ComesBehind(o, page, r)
    {
      assert Wanted(p, o.cursor, r);
      BeforeMeans(o, LastRow(page), r);
    }
  }

  /** The cursor to go on with holds what Go renders of the last row's sort fields, and its id. */
  lemma {:induction false} NextMeans(o: Options, table: Table)
    requires Askable(o) && Identified(table)
    ensures var page := PageOf(PlanOf(o), o.cursor, table);
            && (page.next.Some? <==> page.hasMore)
            && (page.next.Some? ==>
                  && page.rows != [] && page.next.value.id == LastRow(page).id && |page.next.value.keys| == |o.sort|
                  && forall i :: 0 <= i < |o.sort| ==>
                       page.next.value.keys[i] == LookupPath(LastRow(page).doc, JsonPath(o.sort[i].field).value))
  {
    PageFacts(PlanOf(o), o.cursor, table);
  }
}

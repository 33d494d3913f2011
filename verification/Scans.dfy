/**
Following NextCursor through a document table (core/db/query.go), with nothing assumed about the documents.

The database orders rows by its own text of the sort fields, NULL where a document has none, and no row comparison is
true of a NULL.  A cursor carries the text Go renders instead: the empty string where there is no field, and for some
numbers another text than the database's.  The results say exactly when a scan comes back in order, which rows it
returns, when it repeats one and when it ends.
*/
module Scans {
  import opened Common
  import opened Ordering
  import opened Predicates
  import opened Paging

  // ----- columns -----

  /** The first missing column, or the number of columns. */
  function FirstMissing(xs: Cols): (k: nat)
    ensures k <= |xs| && (k < |xs| ==> xs[k].None?) && forall i :: 0 <= i < k ==> xs[i].Some?
  {
    if xs == [] || xs[0].None? then 0
    else
      var k := FirstMissing(xs[1..]) + 1;
      assert forall i :: 1 <= i < k ==> xs[i] == xs[1..][i - 1];
      k
  }

  predicate AllPresent(xs: Cols) {
    forall i :: 0 <= i < |xs| ==> xs[i].Some?
  }

  lemma ConsLess(descending: bool, x: Option<string>, xs: Cols, ys: Cols)
    requires |xs| == |ys|
    ensures DirLess(descending, [x] + xs, [x] + ys) <==> DirLess(descending, xs, ys)
  {
    assert ([x] + xs)[1..] == xs && ([x] + ys)[1..] == ys;
  }

  lemma HeadLess(descending: bool, xs: Cols, ys: Cols)
    requires |xs| == |ys| > 0 && xs[0] != ys[0]
    ensures DirLess(descending, xs, ys) <==> if descending then OptLeq(ys[0], xs[0]) else OptLeq(xs[0], ys[0])
  {
  }

  lemma TakeCons(xs: Cols, k: nat)
    requires 0 < k <= |xs|
    ensures xs[..k] == [xs[0]] + xs[1..][..k - 1] && xs[k..] == xs[1..][k - 1..]
  {
  }

  /** A row is beyond a cursor exactly when it is strictly beyond it on the columns before its first missing one. */
  lemma {:induction false} BeyondExactly(xs: Cols, ys: Cols, descending: bool)
    requires |xs| == |ys| && AllPresent(ys)
    ensures var k := FirstMissing(xs);
            EvalBeyond(xs, ys, descending) == True <==> DirLess(descending, ys[..k], xs[..k])
  {
    var k := FirstMissing(xs);
    if xs != [] && xs[0].Some? {
      if xs[0] == ys[0] {
        BeyondExactly(xs[1..], ys[1..], descending);
        assert xs[..k] == [xs[0]] + xs[1..][..k - 1] && ys[..k] == [xs[0]] + ys[1..][..k - 1];
        ConsLess(descending, xs[0], ys[1..][..k - 1], xs[1..][..k - 1]);
      } else {
        HeadLess(descending, ys[..k], xs[..k]);
      }
    }
  }

  // ----- rows and cursors -----

  /** What the cursor of a page that ends on row l is compared as. */
  function CursorOf(p: Plan, l: Row): (r: Cols)
    ensures |r| == |p.paths| + 1 && AllPresent(r)
  {
    CursorCols(CursorAt(p.paths, l))
  }

  /** The cursor of row l selects row r exactly when r is strictly beyond it on the columns before r's first missing one. */
  lemma PastExactly(p: Plan, l: Row, r: Row)
    ensures var k := FirstMissing(Columns(p.paths, r));
            Past(p, CursorAt(p.paths, l), r) <==> DirLess(p.descending, CursorOf(p, l)[..k], Columns(p.paths, r)[..k])
  {
    BeyondExactly(Columns(p.paths, r), CursorOf(p, l), p.descending);
  }

  /** Row r is beyond the cursor of row l, on the columns it has, and yet not after l. */
  predicate Revisits(p: Plan, l: Row, r: Row) {
    var k := FirstMissing(Columns(p.paths, r));
    && DirLess(p.descending, CursorOf(p, l)[..k], Columns(p.paths, r)[..k])
    && DirLeq(p.descending, Columns(p.paths, r), Columns(p.paths, l))
  }

  lemma RevisitsExactly(p: Plan, l: Row, r: Row)
    ensures Past(p, CursorAt(p.paths, l), r) && !Before(p, l, r) <==> Revisits(p, l, r)
  {
    PastExactly(p, l, r);
    NotBefore(p, l, r);
  }

  lemma NotBefore(p: Plan, l: Row, r: Row)
    ensures !Before(p, l, r) <==> DirLeq(p.descending, Columns(p.paths, r), Columns(p.paths, l))
  {
    var xs, ys := Columns(p.paths, l), Columns(p.paths, r);
    ColsTotal(xs, ys);
    if DirLeq(p.descending, xs, ys) && DirLeq(p.descending, ys, xs) {
      ColsAntisymmetric(xs, ys);
    }
  }

  lemma BeforeTotal(p: Plan, a: Row, b: Row)
    ensures !(Before(p, a, b) && Before(p, b, a))
    ensures a.id != b.id ==> Before(p, a, b) || Before(p, b, a)
  {
    if Before(p, a, b) && Before(p, b, a) {
      BeforeTransitive(p, a, b, a);
    }
    ColsTotal(Columns(p.paths, a), Columns(p.paths, b));
    DifferentIdsDifferentColumns(p, a, b);
  }

  // ----- scans -----

  ghost predicate AllIdentified(tables: seq<Table>) {
    forall i :: 0 <= i < |tables| ==> Identified(tables[i])
  }

  /** A scan seen through what its pages promise. */
  ghost predicate Scanned(p: Plan, tables: seq<Table>, pages: seq<Page>)
    requires ValidPlan(p)
  {
    |tables| == |pages| > 0 && forall i: nat :: i < |pages| ==> PageAt(p, tables, pages, i)
  }

  ghost predicate PageAt(p: Plan, tables: seq<Table>, pages: seq<Page>, i: nat)
    requires ValidPlan(p) && i < |pages| == |tables|
  {
    && Identified(tables[i])
    && GoodPage(p, CursorBefore(pages, i), tables[i], pages[i])
    && (pages[i].hasMore <==> i < |pages| - 1)
  }

  lemma {:induction false} PageOfScanAt(p: Plan, tables: seq<Table>, pages: seq<Page>, i: nat)
    requires ValidPlan(p) && IsScan(p, tables, pages) && i < |pages| == |tables| && Identified(tables[i])
    ensures PageAt(p, tables, pages, i)
  {
    PageOfScan(p, tables, pages, i);
    PageFacts(p, CursorBefore(pages, i), tables[i]);
    assert GoodPage(p, CursorBefore(pages, i), tables[i], pages[i]);
  }

  lemma ScanIsScanned(p: Plan, tables: seq<Table>, pages: seq<Page>)
    requires ValidPlan(p) && IsScan(p, tables, pages) && AllIdentified(tables)
    ensures Scanned(p, tables, pages)
  {
    forall i: nat | i < |pages|
      ensures PageAt(p, tables, pages, i)
    {
      PageOfScanAt(p, tables, pages, i);
    }
  }

  /** Page i has a successor. */
  predicate Ends(pages: seq<Page>, i: nat) {
    i + 1 < |pages| && pages[i].rows != []
  }

  /** The page after page i starts again with rows that do not come after page i's last. */
  ghost predicate GoesBack(p: Plan, pages: seq<Page>, i: nat) {
    Ends(pages, i) && exists x :: x in pages[i + 1].rows && !Before(p, LastRow(pages[i]), x)
  }

  ghost predicate TableGoesBack(p: Plan, table: Table, last: Row)
    requires ValidPlan(p)
  {
    exists x :: x in table && AllHold(p.preds, x.doc) && Revisits(p, last, x)
  }

  lemma EndOf(p: Plan, tables: seq<Table>, pages: seq<Page>, i: nat)
    requires ValidPlan(p) && Scanned(p, tables, pages) && i + 1 < |pages|
    ensures Ends(pages, i) && LastRow(pages[i]) in tables[i]
    ensures AllHold(p.preds, LastRow(pages[i]).doc)
    ensures CursorBefore(pages, i + 1) == Some(CursorAt(p.paths, LastRow(pages[i])))
  {
    assert PageAt(p, tables, pages, i);
    assert LastRow(pages[i]) in pages[i].rows;
  }

  /**
  Exactly when a page goes back: the table then holds a matching row that is beyond the cursor, on the columns it has,
  and not after the row the cursor was made from.
  */
  lemma GoesBackIff(p: Plan, tables: seq<Table>, pages: seq<Page>, i: nat)
    requires ValidPlan(p) && IsScan(p, tables, pages) && AllIdentified(tables) && i + 1 < |pages|
    ensures Ends(pages, i)
    ensures GoesBack(p, pages, i) <==> TableGoesBack(p, tables[i + 1], LastRow(pages[i]))
  {
    ScanIsScanned(p, tables, pages);
    EndOf(p, tables, pages, i);
    var l := LastRow(pages[i]);
    if GoesBack(p, pages, i) {
      var x :| x in pages[i + 1].rows && !Before(p, l, x);
      assert PageAt(p, tables, pages, i + 1);
      RevisitsExactly(p, l, x);
    }
    if TableGoesBack(p, tables[i + 1], l) {
      var x :| x in tables[i + 1] && AllHold(p.preds, x.doc) && Revisits(p, l, x);
      RevisitedMeansBack(p, tables, pages, i, x);
    }
  }

  lemma RevisitedMeansBack(p: Plan, tables: seq<Table>, pages: seq<Page>, i: nat, x: Row)
    requires ValidPlan(p) && Scanned(p, tables, pages) && i + 1 < |pages| && Ends(pages, i)
    requires x in tables[i + 1] && AllHold(p.preds, x.doc) && Revisits(p, LastRow(pages[i]), x)
    ensures GoesBack(p, pages, i)
  {
    EndOf(p, tables, pages, i);
    var l := LastRow(pages[i]);
    RevisitsExactly(p, l, x);
    OnPageOrBehindIt(p, tables, pages, i + 1, x);
    if x !in pages[i + 1].rows {
      var last := LastRow(pages[i + 1]);
      assert last in pages[i + 1].rows;
      if Before(p, l, last) {
        BeforeTransitive(p, l, last, x);
      }
    }
  }

  ghost predicate NeverGoesBack(p: Plan, pages: seq<Page>) {
    forall i: nat :: i + 1 < |pages| ==> !GoesBack(p, pages, i)
  }

  lemma PageIsAscending(p: Plan, tables: seq<Table>, pages: seq<Page>, i: nat)
    requires ValidPlan(p) && Scanned(p, tables, pages) && i < |pages|
    ensures Ascending(p, pages[i].rows)
  {
    assert PageAt(p, tables, pages, i);
  }

  /** All the later pages come after page i. */
  lemma {:induction false} RestIsAfter(p: Plan, tables: seq<Table>, pages: seq<Page>, i: nat)
    requires ValidPlan(p) && Scanned(p, tables, pages) && NeverGoesBack(p, pages) && i + 1 < |pages|
    ensures AllAfter(p, pages[i], Rows(pages, i + 1))
    decreases |pages| - i
  {
    LeadsOn(p, tables, pages, i);
    if i + 2 < |pages| {
      RestIsAfter(p, tables, pages, i + 1);
      AfterCarriesOn(p, pages[i], pages[i + 1], Rows(pages, i + 2));
    } else {
      assert Rows(pages, i + 1) == pages[i + 1].rows;
    }
  }

  lemma {:induction false} OrderedFrom(p: Plan, tables: seq<Table>, pages: seq<Page>, i: nat)
    requires ValidPlan(p) && Scanned(p, tables, pages) && NeverGoesBack(p, pages) && i <= |pages|
    ensures Ascending(p, Rows(pages, i))
    decreases |pages| - i
  {
    if i < |pages| {
      PageIsAscending(p, tables, pages, i);
      if i + 1 == |pages| {
        assert Rows(pages, i) == pages[i].rows;
      } else {
        OrderedFrom(p, tables, pages, i + 1);
        RestIsAfter(p, tables, pages, i);
        JoinAscending(p, pages[i], Rows(pages, i + 1));
      }
    }
  }

  lemma LeadsOn(p: Plan, tables: seq<Table>, pages: seq<Page>, i: nat)
    requires ValidPlan(p) && Scanned(p, tables, pages) && NeverGoesBack(p, pages) && i + 1 < |pages|
    ensures AllAfter(p, pages[i], pages[i + 1].rows)
  {
    EndOf(p, tables, pages, i);
    assert !GoesBack(p, pages, i);
  }

  lemma AscendingTail(p: Plan, first: seq<Row>, rest: seq<Row>)
    requires Ascending(p, first + rest)
    ensures Ascending(p, rest)
  {
    forall i, j | 0 <= i < j < |rest|
      ensures Before(p, rest[i], rest[j])
    {
      assert rest[i] == (first + rest)[|first| + i] && rest[j] == (first + rest)[|first| + j];
    }
  }

  lemma {:induction false} OrderedSuffix(p: Plan, pages: seq<Page>, i: nat)
    requires i <= |pages| && Ascending(p, Rows(pages, 0))
    ensures Ascending(p, Rows(pages, i))
  {
    if i > 0 {
      OrderedSuffix(p, pages, i - 1);
      AscendingTail(p, pages[i - 1].rows, Rows(pages, i));
    }
  }

  lemma OrderedPagesLeadOn(p: Plan, pages: seq<Page>, i: nat)
    requires Ends(pages, i) && Ascending(p, Rows(pages, i))
    ensures !GoesBack(p, pages, i)
  {
    var first, second := pages[i].rows, pages[i + 1].rows;
    var all := Rows(pages, i);
    assert Rows(pages, i + 1) == second + Rows(pages, i + 2);
    assert all == first + (second + Rows(pages, i + 2));
    forall x | x in second
      ensures Before(p, LastRow(pages[i]), x)
    {
      var k :| 0 <= k < |second| && second[k] == x;
      assert all[|first| - 1] == LastRow(pages[i]) && all[|first| + k] == x;
    }
  }

  /** A scan comes back in strict order exactly when none of its pages goes back, whatever changes between them. */
  lemma OrderedIffNeverGoesBack(p: Plan, tables: seq<Table>, pages: seq<Page>)
    requires ValidPlan(p) && IsScan(p, tables, pages) && AllIdentified(tables)
    ensures Ascending(p, Rows(pages, 0)) <==> NeverGoesBack(p, pages)
  {
    ScanIsScanned(p, tables, pages);
    if NeverGoesBack(p, pages) {
      OrderedFrom(p, tables, pages, 0);
    }
    if Ascending(p, Rows(pages, 0)) {
      forall i: nat | i + 1 < |pages|
        ensures !GoesBack(p, pages, i)
      {
        EndOf(p, tables, pages, i);
        OrderedSuffix(p, pages, i);
        OrderedPagesLeadOn(p, pages, i);
      }
    }
  }

  // ----- repeated ids -----

  ghost predicate RepeatsAnId(rows: seq<Row>) {
    exists i, j :: 0 <= i < j < |rows| && rows[i].id == rows[j].id
  }

  lemma {:induction false} PageRowsAreRows(pages: seq<Page>, from: nat, m: nat, x: Row)
    requires from <= m < |pages| && x in pages[m].rows
    ensures x in Rows(pages, from)
    decreases m - from
  {
    if from < m {
      PageRowsAreRows(pages, from + 1, m, x);
    }
  }

  lemma {:induction false} TwoPages(pages: seq<Page>, from: nat, j: nat, m: nat, x: Row)
    requires from <= j < m < |pages| && x in pages[j].rows && x in pages[m].rows
    ensures RepeatsAnId(Rows(pages, from))
    decreases j - from
  {
    var front, rest := pages[from].rows, Rows(pages, from + 1);
    assert Rows(pages, from) == front + rest;
    if from == j {
      PageRowsAreRows(pages, from + 1, m, x);
      var a :| 0 <= a < |front| && front[a] == x;
      var b :| 0 <= b < |rest| && rest[b] == x;
      assert (front + rest)[a] == x && (front + rest)[|front| + b] == x;
    } else {
      TwoPages(pages, from + 1, j, m, x);
      var a, b :| 0 <= a < b < |rest| && rest[a].id == rest[b].id;
      assert (front + rest)[|front| + a] == rest[a] && (front + rest)[|front| + b] == rest[b];
    }
  }

  ghost predicate OnPageUpTo(pages: seq<Page>, i: nat, r: Row) {
    exists j :: 0 <= j <= i < |pages| && r in pages[j].rows
  }

  /** Page m ends before r and its cursor does not select r. */
  ghost predicate SkippedAt(p: Plan, pages: seq<Page>, m: nat, r: Row) {
    Ends(pages, m) && Before(p, LastRow(pages[m]), r) && !Past(p, CursorAt(p.paths, LastRow(pages[m])), r)
  }

  ghost predicate SkippedUpTo(p: Plan, pages: seq<Page>, i: nat, r: Row) {
    exists m: nat :: m <= i && SkippedAt(p, pages, m, r)
  }

  /** In a table that does not change, a matching row is returned, or skipped, or still to come. */
  lemma {:induction false} ReturnedOrSkipped(p: Plan, table: Table, tables: seq<Table>, pages: seq<Page>, i: nat, r: Row)
    requires ValidPlan(p) && Scanned(p, tables, pages) && i + 1 < |pages|
    requires (forall k :: 0 <= k < |tables| ==> tables[k] == table) && r in table && AllHold(p.preds, r.doc)
    ensures Ends(pages, i)
    ensures OnPageUpTo(pages, i, r) || SkippedUpTo(p, pages, i, r)
            || (Before(p, LastRow(pages[i]), r) && Past(p, CursorAt(p.paths, LastRow(pages[i])), r))
  {
    EndOf(p, tables, pages, i);
    if i > 0 {
      ReturnedOrSkipped(p, table, tables, pages, i - 1, r);
      if OnPageUpTo(pages, i - 1, r) {
        var j :| 0 <= j <= i - 1 && r in pages[j].rows;
        return;
      }
      if SkippedUpTo(p, pages, i - 1, r) {
        var m: nat :| m <= i - 1 && SkippedAt(p, pages, m, r);
        return;
      }
      EndOf(p, tables, pages, i - 1);
    }
    OnPageOrBehindIt(p, tables, pages, i, r);
    if r in pages[i].rows {
      assert OnPageUpTo(pages, i, r);
    } else if !Past(p, CursorAt(p.paths, LastRow(pages[i])), r) {
      assert SkippedAt(p, pages, i, r);
    }
  }

  /** The first row of a page that goes back has been returned before. */
  lemma FirstWasReturned(p: Plan, table: Table, tables: seq<Table>, pages: seq<Page>, i: nat)
    requires ValidPlan(p) && Scanned(p, tables, pages) && i + 1 < |pages| && GoesBack(p, pages, i)
    requires forall k :: 0 <= k < |tables| ==> tables[k] == table
    requires NoJumps(p, table)
    ensures pages[i + 1].rows != [] && OnPageUpTo(pages, i, pages[i + 1].rows[0])
  {
    EndOf(p, tables, pages, i);
    var l, rows := LastRow(pages[i]), pages[i + 1].rows;
    assert PageAt(p, tables, pages, i + 1);
    var x :| x in rows && !Before(p, l, x);
    var f := rows[0];
    assert f in rows;
    FirstIsNotAfter(p, rows, l, x);
    ReturnedOrSkipped(p, table, tables, pages, i, f);
    if !OnPageUpTo(pages, i, f) {
      var m: nat :| m <= i && SkippedAt(p, pages, m, f);
      EndOf(p, tables, pages, m);
      assert !JumpsOver(p, LastRow(pages[m]), f);
      SkippedEndIsSelected(p, LastRow(pages[m]), l, f);
      FirstIsNotBeyond(p, table, pages[i + 1], CursorAt(p.paths, l), LastRow(pages[m]));
    }
  }

  lemma FirstIsNotAfter(p: Plan, rows: seq<Row>, l: Row, x: Row)
    requires Ascending(p, rows) && x in rows && !Before(p, l, x)
    ensures !Before(p, l, rows[0])
  {
    var k :| 0 <= k < |rows| && rows[k] == x;
    if k > 0 && Before(p, l, rows[0]) {
      BeforeTransitive(p, l, rows[0], x);
    }
  }

  /** The cursor of row e passes over a later row f, and not just because f ties with e as far as it has columns. */
  ghost predicate JumpsOver(p: Plan, e: Row, f: Row) {
    var k := FirstMissing(Columns(p.paths, f));
    && Before(p, e, f) && !Past(p, CursorAt(p.paths, e), f)
    && Columns(p.paths, f)[..k] != Columns(p.paths, e)[..k]
  }

  ghost predicate NoJumps(p: Plan, table: Table)
    requires ValidPlan(p)
  {
    forall e, f :: e in table && f in table && AllHold(p.preds, e.doc) && AllHold(p.preds, f.doc) ==> !JumpsOver(p, e, f)
  }

  /** What agrees with selected columns up to their first missing one is selected as well. */
  lemma {:induction false} TiesAreSelected(xs: Cols, ys: Cols, cursor: Cols, descending: bool)
    requires |xs| == |ys| == |cursor| && xs[..FirstMissing(xs)] == ys[..FirstMissing(xs)]
    requires EvalBeyond(xs, cursor, descending) == True
    ensures EvalBeyond(ys, cursor, descending) == True
  {
    var k := FirstMissing(xs);
    assert xs[..k][0] == xs[0] && ys[..k][0] == ys[0];
    if xs[0] == cursor[0] {
      assert xs[..k][1..] == xs[1..][..k - 1] && ys[..k][1..] == ys[1..][..k - 1];
      TiesAreSelected(xs[1..], ys[1..], cursor[1..], descending);
    }
  }

  /** If f was skipped after a page ending on e, and the cursor of l selects f again, it selects e too. */
  lemma SkippedEndIsSelected(p: Plan, e: Row, l: Row, f: Row)
    requires Before(p, e, f) && !Past(p, CursorAt(p.paths, e), f) && !JumpsOver(p, e, f)
    requires Past(p, CursorAt(p.paths, l), f)
    ensures Past(p, CursorAt(p.paths, l), e)
  {
    TiesAreSelected(Columns(p.paths, f), Columns(p.paths, e), CursorOf(p, l), p.descending);
  }

  /** Nothing a page's cursor selects comes before the page's first row. */
  lemma FirstIsNotBeyond(p: Plan, table: Table, page: Page, c: Cursor, e: Row)
    requires ValidPlan(p) && GoodPage(p, Some(c), table, page) && page.rows != []
    requires e in table && AllHold(p.preds, e.doc) && Past(p, c, e)
    ensures !Before(p, e, page.rows[0])
  {
    assert Wanted(p, Some(c), e);
    var rows := page.rows;
    if e in rows {
      var k :| 0 <= k < |rows| && rows[k] == e;
      if k > 0 {
        BeforeTotal(p, rows[0], e);
      }
    } else {
      var last := LastRow(page);
      if |rows| > 1 {
        assert Before(p, rows[0], rows[|rows| - 1]);
        BeforeTransitive(p, rows[0], last, e);
      }
      BeforeTotal(p, rows[0], e);
    }
  }

  lemma {:induction false} RowsAreFromTables(p: Plan, tables: seq<Table>, pages: seq<Page>, i: nat, r: Row) returns (k: nat)
    requires ValidPlan(p) && Scanned(p, tables, pages) && i <= |pages| && r in Rows(pages, i)
    ensures i <= k < |pages| && r in pages[k].rows && r in tables[k]
    decreases |pages| - i
  {
    assert PageAt(p, tables, pages, i);
    if r in pages[i].rows {
      k := i;
    } else {
      k := RowsAreFromTables(p, tables, pages, i + 1, r);
    }
  }

  /** Rows in strict order repeat no id, as long as an id keeps its sort key. */
  lemma NoRepeatsInOrder(p: Plan, tables: seq<Table>, pages: seq<Page>)
    requires ValidPlan(p) && Scanned(p, tables, pages) && Ascending(p, Rows(pages, 0))
    requires SameKeys(p, tables) || forall k :: 0 <= k < |tables| ==> tables[k] == tables[0]
    ensures !RepeatsAnId(Rows(pages, 0))
  {
    var rows := Rows(pages, 0);
    forall i, j | 0 <= i < j < |rows|
      ensures rows[i].id != rows[j].id
    {
      assert rows[i] in rows && rows[j] in rows;
      var a := RowsAreFromTables(p, tables, pages, 0, rows[i]);
      var b := RowsAreFromTables(p, tables, pages, 0, rows[j]);
      assert Before(p, rows[i], rows[j]);
      if !SameKeys(p, tables) {
        assert tables[a] == tables[0] && tables[b] == tables[0] && PageAt(p, tables, pages, 0);
        OneRowPerId(tables[0], rows[i], rows[j]);
      }
    }
  }

  /** An id comes twice only if a page goes back, as long as an id keeps its sort key. */
  lemma RepeatsOnlyIfGoesBack(p: Plan, tables: seq<Table>, pages: seq<Page>)
    requires ValidPlan(p) && IsScan(p, tables, pages) && AllIdentified(tables) && SameKeys(p, tables)
    ensures RepeatsAnId(Rows(pages, 0)) ==> !NeverGoesBack(p, pages)
  {
    if NeverGoesBack(p, pages) {
      OrderedIffNeverGoesBack(p, tables, pages);
      ScanIsScanned(p, tables, pages);
      NoRepeatsInOrder(p, tables, pages);
    }
  }

  /** On a table that does not change and in which no cursor jumps, an id comes twice exactly when a page goes back. */
  lemma {:induction false} RepeatsIffGoesBack(p: Plan, table: Table, tables: seq<Table>, pages: seq<Page>)
    requires ValidPlan(p) && IsScan(p, tables, pages) && Identified(table) && NoJumps(p, table)
    requires forall k :: 0 <= k < |tables| ==> tables[k] == table
    ensures RepeatsAnId(Rows(pages, 0)) <==> !NeverGoesBack(p, pages)
  {
    ScanIsScanned(p, tables, pages);
    if NeverGoesBack(p, pages) {
      OrderedFrom(p, tables, pages, 0);
      NoRepeatsInOrder(p, tables, pages);
    } else {
      var i: nat :| i + 1 < |pages| && GoesBack(p, pages, i);
      BackRepeats(p, table, tables, pages, i);
    }
  }

  lemma {:induction false} BackRepeats(p: Plan, table: Table, tables: seq<Table>, pages: seq<Page>, i: nat)
    requires ValidPlan(p) && Scanned(p, tables, pages) && NoJumps(p, table) && i + 1 < |pages| && GoesBack(p, pages, i)
    requires forall k :: 0 <= k < |tables| ==> tables[k] == table
    ensures RepeatsAnId(Rows(pages, 0))
  {
    FirstWasReturned(p, table, tables, pages, i);
    var f := pages[i + 1].rows[0];
    var j :| 0 <= j <= i && f in pages[j].rows;
    TwoPages(pages, 0, j, i + 1, f);
  }

  // ----- lost rows -----

  /** Page i is the last one that ends before r. */
  ghost predicate LastEndBefore(p: Plan, pages: seq<Page>, i: nat, r: Row) {
    && Ends(pages, i) && Before(p, LastRow(pages[i]), r)
    && (Ends(pages, i + 1) ==> !Before(p, LastRow(pages[i + 1]), r))
  }

  /** The cursor handed out right before r's place selects r. */
  ghost predicate NotPassedOver(p: Plan, pages: seq<Page>, r: Row) {
    forall i: nat :: LastEndBefore(p, pages, i, r) ==> Past(p, CursorAt(p.paths, LastRow(pages[i])), r)
  }

  ghost predicate ReturnsId(pages: seq<Page>, id: string) {
    exists x :: x in Rows(pages, 0) && x.id == id
  }

  lemma PageIsAfter(p: Plan, tables: seq<Table>, pages: seq<Page>, i: nat, j: nat, x: Row)
    requires ValidPlan(p) && Scanned(p, tables, pages) && NeverGoesBack(p, pages) && i < j < |pages| && x in pages[j].rows
    ensures Ends(pages, i) && Before(p, LastRow(pages[i]), x)
  {
    EndOf(p, tables, pages, i);
    RestIsAfter(p, tables, pages, i);
    PageRowsAreRows(pages, i + 1, j, x);
  }

  lemma PageIsNotAfter(p: Plan, tables: seq<Table>, pages: seq<Page>, i: nat, j: nat, x: Row)
    requires ValidPlan(p) && Scanned(p, tables, pages) && NeverGoesBack(p, pages) && j <= i && Ends(pages, i)
    requires x in pages[j].rows
    ensures !Before(p, LastRow(pages[i]), x)
  {
    var l := LastRow(pages[i]);
    assert l in pages[i].rows;
    if i == j {
      assert PageAt(p, tables, pages, i);
      LastIsLast(p, pages[i], x);
    } else {
      EndOf(p, tables, pages, j);
      assert PageAt(p, tables, pages, j);
      PageIsAfter(p, tables, pages, j, i, l);
      LastIsLast(p, pages[j], x);
      if Before(p, l, x) {
        BeforeTransitive(p, LastRow(pages[j]), l, x);
      }
    }
  }

  lemma LastIsLast(p: Plan, page: Page, x: Row)
    requires Ascending(p, page.rows) && x in page.rows
    ensures !Before(p, LastRow(page), x)
  {
    var k :| 0 <= k < |page.rows| && page.rows[k] == x;
    if k < |page.rows| - 1 {
      BeforeTotal(p, x, LastRow(page));
    }
  }

  /** The last page end before r, among the first n; none if r comes before them all. */
  lemma {:induction false} FindLastEnd(p: Plan, tables: seq<Table>, pages: seq<Page>, r: Row, n: nat) returns (i: int)
    requires ValidPlan(p) && Scanned(p, tables, pages) && n < |pages|
    requires n < |pages| - 1 ==> Ends(pages, n) && !Before(p, LastRow(pages[n]), r)
    ensures -1 <= i < n
    ensures i >= 0 ==> LastEndBefore(p, pages, i, r)
    ensures i + 1 < |pages| - 1 ==> Ends(pages, i + 1) && !Before(p, LastRow(pages[i + 1]), r)
  {
    if n == 0 {
      i := -1;
    } else {
      EndOf(p, tables, pages, n - 1);
      if Before(p, LastRow(pages[n - 1]), r) {
        i := n - 1;
      } else {
        i := FindLastEnd(p, tables, pages, r, n - 1);
      }
    }
  }

  /**
  Exactly which rows a scan returns.  Take any scan that never goes back, of tables that change between the pages, and
  a row that is there and matches throughout.  It is returned if and only if the last page that ends before its place
  hands out a cursor that selects it, which by PastExactly means: the row is strictly beyond the cursor on the columns
  before its own first missing one.
  */
  lemma ReturnedIffNotPassedOver(p: Plan, tables: seq<Table>, pages: seq<Page>, r: Row)
    requires ValidPlan(p) && IsScan(p, tables, pages) && AllIdentified(tables) && SameKeys(p, tables)
    requires NeverGoesBack(p, pages) && r in tables[0] && Stays(p, tables, 0, r.id)
    ensures ReturnsId(pages, r.id) <==> NotPassedOver(p, pages, r)
  {
    ScanIsScanned(p, tables, pages);
    if ReturnsId(pages, r.id) {
      var x :| x in Rows(pages, 0) && x.id == r.id;
      ReturnedIsNotPassedOver(p, tables, pages, r, x);
    }
    if NotPassedOver(p, pages, r) {
      NotPassedOverIsReturned(p, tables, pages, r);
    }
  }

  lemma ReturnedIsNotPassedOver(p: Plan, tables: seq<Table>, pages: seq<Page>, r: Row, x: Row)
    requires ValidPlan(p) && Scanned(p, tables, pages) && SameKeys(p, tables) && NeverGoesBack(p, pages)
    requires r in tables[0] && x in Rows(pages, 0) && x.id == r.id
    ensures NotPassedOver(p, pages, r)
  {
    var j := RowsAreFromTables(p, tables, pages, 0, x);
    assert Columns(p.paths, x) == Columns(p.paths, r);
    forall i: nat | LastEndBefore(p, pages, i, r)
      ensures Past(p, CursorAt(p.paths, LastRow(pages[i])), r)
    {
      if j <= i {
        PageIsNotAfter(p, tables, pages, i, j, x);
      } else if i + 1 < j {
        PageIsAfter(p, tables, pages, i + 1, j, x);
      } else {
        EndOf(p, tables, pages, i);
        assert PageAt(p, tables, pages, j);
      }
    }
  }

  lemma NotPassedOverIsReturned(p: Plan, tables: seq<Table>, pages: seq<Page>, r: Row)
    requires ValidPlan(p) && Scanned(p, tables, pages) && SameKeys(p, tables)
    requires r in tables[0] && Stays(p, tables, 0, r.id) && NotPassedOver(p, pages, r)
    ensures ReturnsId(pages, r.id)
  {
    var i := FindLastEnd(p, tables, pages, r, |pages| - 1);
    var j: nat := i + 1;
    var s := RowStays(p, tables, j, r);
    if i >= 0 {
      assert LastEndBefore(p, pages, i, r);
      SelectedBy(p, tables, pages, i, r, s);
    }
    OnPageOrBehindIt(p, tables, pages, j, s);
    SameColumns(p, LastRow(pages[j]), r, s);
    PageRowsAreRows(pages, 0, j, s);
  }

  /** What a row's cursor and place are depends on its columns alone. */
  lemma SameColumns(p: Plan, l: Row, r: Row, s: Row)
    requires Columns(p.paths, s) == Columns(p.paths, r)
    ensures Before(p, l, s) <==> Before(p, l, r)
    ensures Past(p, CursorAt(p.paths, l), s) <==> Past(p, CursorAt(p.paths, l), r)
  {
  }

  lemma SelectedBy(p: Plan, tables: seq<Table>, pages: seq<Page>, i: nat, r: Row, s: Row)
    requires ValidPlan(p) && Scanned(p, tables, pages) && i + 1 < |pages| && Ends(pages, i)
    requires Past(p, CursorAt(p.paths, LastRow(pages[i])), r) && Columns(p.paths, s) == Columns(p.paths, r)
    requires AllHold(p.preds, s.doc)
    ensures Wanted(p, CursorBefore(pages, i + 1), s)
  {
    EndOf(p, tables, pages, i);
    SameColumns(p, LastRow(pages[i]), r, s);
  }

  /** The row as table j has it. */
  lemma RowStays(p: Plan, tables: seq<Table>, j: nat, r: Row) returns (s: Row)
    requires ValidPlan(p) && SameKeys(p, tables) && j < |tables| && r in tables[0] && Stays(p, tables, 0, r.id)
    ensures s in tables[j] && s.id == r.id && AllHold(p.preds, s.doc)
    ensures Columns(p.paths, s) == Columns(p.paths, r)
  {
    s :| s in tables[j] && s.id == r.id && AllHold(p.preds, s.doc);
  }

  lemma OnPageOrBehindIt(p: Plan, tables: seq<Table>, pages: seq<Page>, j: nat, s: Row)
    requires ValidPlan(p) && Scanned(p, tables, pages) && j < |pages| && s in tables[j]
    requires Wanted(p, CursorBefore(pages, j), s)
    ensures s in pages[j].rows || (Ends(pages, j) && Before(p, LastRow(pages[j]), s))
  {
    assert PageAt(p, tables, pages, j);
  }

  /** For one, a row without the leading sort field is returned only if it is on the first page. */
  lemma {:induction false} NullKeyOnlyOnFirstPage(p: Plan, tables: seq<Table>, pages: seq<Page>, r: Row)
    requires ValidPlan(p) && IsScan(p, tables, pages) && AllIdentified(tables)
    requires p.paths != [] && SqlText(r.doc, p.paths[0]).None?
    ensures r in Rows(pages, 0) <==> r in pages[0].rows
  {
    ScanIsScanned(p, tables, pages);
    if r in pages[0].rows {
      PageRowsAreRows(pages, 0, 0, r);
    }
    if r in Rows(pages, 0) {
      var k := RowsAreFromTables(p, tables, pages, 0, r);
      if k > 0 {
        NullKeyNotLater(p, tables, pages, r, k);
      }
    }
  }

  lemma {:induction false} NullKeyNotLater(p: Plan, tables: seq<Table>, pages: seq<Page>, r: Row, k: nat)
    requires ValidPlan(p) && Scanned(p, tables, pages) && 0 < |p.paths| && SqlText(r.doc, p.paths[0]).None?
    requires 0 < k < |pages|
    ensures r !in pages[k].rows
  {
    EndOf(p, tables, pages, k - 1);
    NullKeyIsNotPast(p, LastRow(pages[k - 1]), r);
    assert PageAt(p, tables, pages, k);
  }

  lemma {:induction false} NullKeyIsNotPast(p: Plan, l: Row, r: Row)
    requires 0 < |p.paths| && SqlText(r.doc, p.paths[0]).None?
    ensures !Past(p, CursorAt(p.paths, l), r)
  {
    assert Columns(p.paths, r)[0].None?;
  }
}

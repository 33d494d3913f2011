/**
Scans of a table that does not change while it is read (core/db/query.go): what they return, and whether they end.
*/
module QuietScans {
  import opened Common
  import opened Ordering
  import opened Predicates
  import opened Paging
  import opened Scans

  // ----- what a quiet scan returns -----

  ghost predicate Quiet(table: Table, tables: seq<Table>) {
    forall k :: 0 <= k < |tables| ==> tables[k] == table
  }

  ghost predicate NonePassedOver(p: Plan, pages: seq<Page>, table: Table)
    requires ValidPlan(p)
  {
    forall r :: r in table && AllHold(p.preds, r.doc) ==> NotPassedOver(p, pages, r)
  }

  lemma QuietKeys(p: Plan, table: Table, tables: seq<Table>)
    requires Quiet(table, tables) && Identified(table)
    ensures SameKeys(p, tables) && AllIdentified(tables)
  {
    forall i, j, r, s | 0 <= i < |tables| && 0 <= j < |tables| && r in tables[i] && s in tables[j] && r.id == s.id
      ensures Columns(p.paths, r) == Columns(p.paths, s)
    {
      OneRowPerId(table, r, s);
    }
  }

  /** A row of the table is returned exactly when its id is. */
  lemma ReturnsRow(p: Plan, table: Table, tables: seq<Table>, pages: seq<Page>, r: Row)
    requires ValidPlan(p) && IsScan(p, tables, pages) && Quiet(table, tables) && Identified(table) && r in table
    ensures r in Rows(pages, 0) <==> ReturnsId(pages, r.id)
  {
    QuietKeys(p, table, tables);
    ScanIsScanned(p, tables, pages);
    if ReturnsId(pages, r.id) {
      var x :| x in Rows(pages, 0) && x.id == r.id;
      var k := RowsAreFromTables(p, tables, pages, 0, x);
      OneRowPerId(table, x, r);
    }
  }

  lemma ReturnedMatches(p: Plan, tables: seq<Table>, pages: seq<Page>, r: Row)
    requires ValidPlan(p) && IsScan(p, tables, pages) && AllIdentified(tables) && r in Rows(pages, 0)
    ensures Seen(p, tables, r)
  {
    ScanIsScanned(p, tables, pages);
    var k := RowsAreFromTables(p, tables, pages, 0, r);
    assert PageAt(p, tables, pages, k);
  }

  /**
  Exactly when a scan of an unchanged table puts together the sorted, filtered table: no page goes back, and the
  cursor handed out right before each row's place selects the row.
  */
  lemma QuietScanIff(p: Plan, table: Table, tables: seq<Table>, pages: seq<Page>)
    requires ValidPlan(p) && IsScan(p, tables, pages) && Quiet(table, tables) && Identified(table)
    ensures Rows(pages, 0) == Ranked(p, None, table) <==> NeverGoesBack(p, pages) && NonePassedOver(p, pages, table)
  {
    var rows, ranked := Rows(pages, 0), Ranked(p, None, table);
    QuietKeys(p, table, tables);
    OrderedIffNeverGoesBack(p, tables, pages);
    RankedFacts(p, None, table);
    if NeverGoesBack(p, pages) {
      MembersIff(p, table, tables, pages);
      if NonePassedOver(p, pages, table) {
        AscendingUnique(p, rows, ranked);
      }
    }
  }

  lemma MembersIff(p: Plan, table: Table, tables: seq<Table>, pages: seq<Page>)
    requires ValidPlan(p) && IsScan(p, tables, pages) && Quiet(table, tables) && Identified(table)
    requires NeverGoesBack(p, pages)
    ensures forall r :: r in Rows(pages, 0) ==> r in table && AllHold(p.preds, r.doc)
    ensures forall r :: r in table && AllHold(p.preds, r.doc) ==> (r in Rows(pages, 0) <==> NotPassedOver(p, pages, r))
  {
    QuietKeys(p, table, tables);
    forall r | r in Rows(pages, 0)
      ensures r in table && AllHold(p.preds, r.doc)
    {
      ReturnedMatches(p, tables, pages, r);
    }
    forall r | r in table && AllHold(p.preds, r.doc)
      ensures r in Rows(pages, 0) <==> NotPassedOver(p, pages, r)
    {
      ReturnsRow(p, table, tables, pages, r);
      ReturnedIffNotPassedOver(p, tables, pages, r);
    }
  }

  // ----- following any cursor -----

  /** Page n of whoever follows the cursors that f answers with. */
  ghost function Follow(f: Option<Cursor> -> Page, n: nat): Page {
    if n == 0 then f(None) else f(Follow(f, n - 1).next)
  }

  /** Pages 0 to n all say that there is more. */
  ghost predicate GoesOn(f: Option<Cursor> -> Page, n: nat) {
    forall i: nat :: i <= n ==> Follow(f, i).hasMore
  }

  ghost predicate EndsAt(f: Option<Cursor> -> Page, n: nat) {
    !Follow(f, n).hasMore && (n > 0 ==> GoesOn(f, n - 1))
  }

  /** Two pages hand out the same cursor. */
  ghost predicate SameCursor(f: Option<Cursor> -> Page, i: nat, j: nat) {
    i < j && GoesOn(f, j) && Follow(f, i).next == Follow(f, j).next
  }

  lemma {:induction false} SameFromThere(f: Option<Cursor> -> Page, i: nat, j: nat, d: nat)
    requires SameCursor(f, i, j) && d > 0
    ensures Follow(f, i + d) == Follow(f, j + d)
  {
    if d > 1 {
      SameFromThere(f, i, j, d - 1);
    }
  }

  lemma NeverEnds(f: Option<Cursor> -> Page, i: nat, j: nat, n: nat)
    requires SameCursor(f, i, j)
    ensures !EndsAt(f, n)
  {
    if EndsAt(f, n) {
      assert n > j;
      SameFromThere(f, i, j, n - j);
    }
  }

  lemma {:induction false} EndsOrGoesOn(f: Option<Cursor> -> Page, n: nat)
    ensures GoesOn(f, n) || exists k: nat :: k <= n && EndsAt(f, k)
  {
    if n > 0 {
      EndsOrGoesOn(f, n - 1);
    }
    if !GoesOn(f, n) && (n > 0 ==> GoesOn(f, n - 1)) {
      assert EndsAt(f, n);
    }
  }

  ghost predicate SomeCursorTwice(f: Option<Cursor> -> Page) {
    exists i: nat, j: nat :: SameCursor(f, i, j)
  }

  ghost predicate HandsOut(f: Option<Cursor> -> Page, cursors: set<Option<Cursor>>, c: Option<Cursor>) {
    f(c).hasMore ==> f(c).next in cursors
  }

  /** With finitely many cursors to hand out, following them ends exactly if none is handed out twice. */
  lemma EndsIff(f: Option<Cursor> -> Page, cursors: set<Option<Cursor>>)
    requires forall c :: HandsOut(f, cursors, c)
    ensures (exists n: nat :: EndsAt(f, n)) <==> !SomeCursorTwice(f)
    ensures !SomeCursorTwice(f) ==> exists n: nat :: n <= |cursors| && EndsAt(f, n)
  {
    if i: nat, j: nat :| SameCursor(f, i, j) {
      forall n: nat
        ensures !EndsAt(f, n)
      {
        NeverEnds(f, i, j, n);
      }
    } else {
      EndsOrGoesOn(f, |cursors|);
      if GoesOn(f, |cursors|) {
        var out := seq(|cursors| + 1, i requires 0 <= i => Follow(f, i).next);
        forall k | 0 <= k < |out|
          ensures out[k] in cursors
        {
          assert Follow(f, k).hasMore && HandsOut(f, cursors, if k == 0 then None else Follow(f, k - 1).next);
        }
        var i, j := Pigeonhole(out, cursors);
        assert GoesOn(f, j);
        assert SameCursor(f, i, j);
      }
    }
  }

  // ----- following NextCursor -----

  /** The answers of a query to every cursor, while the table does not change. */
  ghost function Reader(p: Plan, table: Table): Option<Cursor> -> Page
    requires ValidPlan(p)
  {
    c => if ValidPlan(p) then PageOf(p, c, table) else Page([], None, false)
  }

  ghost function Followed(f: Option<Cursor> -> Page, n: nat): (pages: seq<Page>)
    ensures |pages| == n + 1 && forall i :: 0 <= i <= n ==> pages[i] == Follow(f, i)
  {
    if n == 0 then [Follow(f, 0)] else Followed(f, n - 1) + [Follow(f, n)]
  }

  function Copies(table: Table, n: nat): (tables: seq<Table>)
    ensures |tables| == n && Quiet(table, tables)
  {
    seq(n, _ => table)
  }

  lemma ReaderReads(p: Plan, table: Table, c: Option<Cursor>)
    requires ValidPlan(p)
    ensures Reader(p, table)(c) == PageOf(p, c, table)
  {
  }

  /** Following the cursor to its end is a scan. */
  lemma FollowingIsScanning(p: Plan, table: Table, n: nat)
    requires ValidPlan(p) && EndsAt(Reader(p, table), n)
    ensures IsScan(p, Copies(table, n + 1), Followed(Reader(p, table), n))
  {
    var f := Reader(p, table);
    var pages := Followed(f, n);
    ReaderReads(p, table, None);
    forall i | 0 <= i < n
      ensures pages[i].hasMore && pages[i + 1] == PageOf(p, pages[i].next, table)
    {
      ReaderReads(p, table, pages[i].next);
      assert Follow(f, i).hasMore;
    }
  }

  ghost predicate Answers(f: Option<Cursor> -> Page, pages: seq<Page>, i: nat) {
    i < |pages| && pages[i] == f(CursorBefore(pages, i))
  }

  lemma {:induction false} AnswersFollow(f: Option<Cursor> -> Page, pages: seq<Page>, i: nat)
    requires i < |pages| && forall k: nat :: k < |pages| ==> Answers(f, pages, k)
    ensures pages[i] == Follow(f, i)
  {
    assert Answers(f, pages, i);
    if i > 0 {
      AnswersFollow(f, pages, i - 1);
    }
  }

  /** And there is no other. */
  lemma ScanFollows(p: Plan, table: Table, tables: seq<Table>, pages: seq<Page>, i: nat)
    requires ValidPlan(p) && IsScan(p, tables, pages) && Quiet(table, tables) && i < |pages|
    ensures pages[i] == Follow(Reader(p, table), i)
  {
    forall k: nat | k < |pages|
      ensures Answers(Reader(p, table), pages, k)
    {
      ReadAt(p, table, tables, pages, k);
    }
    AnswersFollow(Reader(p, table), pages, i);
  }

  lemma ReadAt(p: Plan, table: Table, tables: seq<Table>, pages: seq<Page>, i: nat)
    requires ValidPlan(p) && IsScan(p, tables, pages) && Quiet(table, tables) && i < |pages|
    ensures pages[i] == Reader(p, table)(CursorBefore(pages, i))
    ensures i + 1 < |pages| ==> |pages[i].rows| == p.limit
  {
    PageOfScan(p, tables, pages, i);
    ReaderReads(p, table, CursorBefore(pages, i));
  }

  lemma ScanEnds(p: Plan, table: Table, tables: seq<Table>, pages: seq<Page>)
    requires ValidPlan(p) && IsScan(p, tables, pages) && Quiet(table, tables)
    ensures EndsAt(Reader(p, table), |pages| - 1)
  {
    forall i: nat | i < |pages|
      ensures Follow(Reader(p, table), i).hasMore <==> i < |pages| - 1
    {
      ScanFollows(p, table, tables, pages, i);
    }
  }

  ghost predicate Matching(p: Plan, table: Table, r: Row) {
    r in table && AllHold(p.preds, r.doc)
  }

  /** Some matching row comes after l. */
  ghost predicate NotLast(p: Plan, table: Table, l: Row) {
    exists r :: Matching(p, table, r) && Before(p, l, r)
  }

  /**
  A page that says there is more ends on a row the cursor selected, which is not the last, and makes its own cursor
  from it.
  */
  lemma {:induction false} PageEnd(p: Plan, cursor: Option<Cursor>, table: Table) returns (l: Row)
    requires ValidPlan(p) && Identified(table) && PageOf(p, cursor, table).hasMore
    ensures PageOf(p, cursor, table).rows != [] && l == LastRow(PageOf(p, cursor, table))
    ensures Matching(p, table, l) && NotLast(p, table, l) && Wanted(p, cursor, l)
    ensures PageOf(p, cursor, table).next == Some(CursorAt(p.paths, l))
  {
    RankedFacts(p, cursor, table);
    l := EndOfFront(p, cursor, table, Ranked(p, cursor, table));
  }

  lemma {:induction false} EndOfFront(p: Plan, cursor: Option<Cursor>, table: Table, all: seq<Row>) returns (l: Row)
    requires ValidPlan(p) && Identified(table) && Ascending(p, all) && |all| > p.limit
    requires forall r :: r in all ==> r in table && Wanted(p, cursor, r)
    ensures PageFrom(p, all).rows != [] && l == LastRow(PageFrom(p, all))
    ensures Matching(p, table, l) && NotLast(p, table, l) && Wanted(p, cursor, l)
    ensures PageFrom(p, all).next == Some(CursorAt(p.paths, l))
  {
    l := all[p.limit - 1];
    var r := all[p.limit];
    assert l in all && r in all && Before(p, l, r);
    assert Matching(p, table, r);
  }

  function Cursors(p: Plan, table: Table): (cs: seq<Option<Cursor>>)
    ensures |cs| == |table| && forall i :: 0 <= i < |table| ==> cs[i] == Some(CursorAt(p.paths, table[i]))
  {
    seq(|table|, i requires 0 <= i < |table| => Some(CursorAt(p.paths, table[i])))
  }

  function CursorsOf(p: Plan, table: Table): set<Option<Cursor>> {
    var cs := Cursors(p, table);
    set c | c in cs
  }

  lemma CursorIsOf(p: Plan, table: Table, l: Row)
    requires l in table
    ensures Some(CursorAt(p.paths, l)) in CursorsOf(p, table) && |CursorsOf(p, table)| <= |table|
  {
    var cs := Cursors(p, table);
    var i :| 0 <= i < |table| && table[i] == l;
    assert cs[i] in cs;
    MembersSize(cs);
  }

  /**
  Following NextCursor through a table that does not change ends if and only if no cursor is handed out twice, and if
  it ends then after at most one page more than there are rows.
  */
  lemma QuietScanEndsIff(p: Plan, table: Table)
    requires ValidPlan(p) && Identified(table)
    ensures (exists n: nat :: EndsAt(Reader(p, table), n)) <==> !SomeCursorTwice(Reader(p, table))
    ensures !SomeCursorTwice(Reader(p, table)) ==> exists n: nat :: n <= |table| && EndsAt(Reader(p, table), n)
  {
    var f, cursors := Reader(p, table), CursorsOf(p, table);
    forall c
      ensures HandsOut(f, cursors, c)
    {
      ReaderReads(p, table, c);
      if PageOf(p, c, table).hasMore {
        var l := PageEnd(p, c, table);
        CursorIsOf(p, table, l);
      }
    }
    EndsIff(f, cursors);
    if table != [] {
      CursorIsOf(p, table, table[0]);
    }
    assert |cursors| <= |table|;
  }

  /** A row that a page which says there is more can end on. */
  ghost predicate MayEnd(p: Plan, table: Table, l: Row) {
    Matching(p, table, l) && NotLast(p, table, l)
  }

  /** Rows of the table, each selected by the cursor made from the one before. */
  ghost predicate Chained(p: Plan, table: Table, rows: seq<Row>) {
    && (forall i :: 0 <= i < |rows| ==> MayEnd(p, table, rows[i]))
    && forall i: nat :: i + 1 < |rows| ==> Linked(p, rows, i)
  }

  ghost predicate Linked(p: Plan, rows: seq<Row>, i: nat) {
    i + 1 < |rows| && Past(p, CursorAt(p.paths, rows[i]), rows[i + 1])
  }

  /** The cursor a page hands out was made from row l, which the cursor it was asked with selects. */
  ghost predicate MadeFrom(p: Plan, table: Table, c: Option<Cursor>, next: Option<Cursor>, l: Row) {
    MayEnd(p, table, l) && next == Some(CursorAt(p.paths, l)) && (c.Some? ==> Past(p, c.value, l))
  }

  ghost predicate Makes(f: Option<Cursor> -> Page, p: Plan, table: Table, c: Option<Cursor>) {
    f(c).hasMore ==> exists l :: MadeFrom(p, table, c, f(c).next, l)
  }

  lemma ReaderMakes(p: Plan, table: Table, c: Option<Cursor>)
    requires ValidPlan(p) && Identified(table)
    ensures Makes(Reader(p, table), p, table, c)
  {
    ReaderReads(p, table, c);
    if PageOf(p, c, table).hasMore {
      var l := PageEnd(p, c, table);
      assert MadeFrom(p, table, c, PageOf(p, c, table).next, l);
    }
  }

  /** The rows that pages 0 to n end on. */
  lemma {:induction false} EndRows(f: Option<Cursor> -> Page, p: Plan, table: Table, n: nat) returns (rows: seq<Row>)
    requires GoesOn(f, n) && forall c :: Makes(f, p, table, c)
    ensures |rows| == n + 1 && Chained(p, table, rows) && HandedOut(f, p, rows)
  {
    assert Follow(f, n).hasMore;
    if n == 0 {
      assert Makes(f, p, table, None);
      var l :| MadeFrom(p, table, None, f(None).next, l);
      rows := [l];
    } else {
      assert GoesOn(f, n - 1);
      rows := EndRows(f, p, table, n - 1);
      rows := OneMoreEnd(f, p, table, rows);
    }
  }

  /** Page i hands out the cursor made from row i. */
  ghost predicate HandedOut(f: Option<Cursor> -> Page, p: Plan, rows: seq<Row>) {
    forall i :: 0 <= i < |rows| ==> Follow(f, i).next == Some(CursorAt(p.paths, rows[i]))
  }

  lemma {:induction false} OneMoreEnd(f: Option<Cursor> -> Page, p: Plan, table: Table, rows: seq<Row>)
    returns (more: seq<Row>)
    requires rows != [] && Chained(p, table, rows) && HandedOut(f, p, rows) && Follow(f, |rows|).hasMore
    requires forall c :: Makes(f, p, table, c)
    ensures |more| == |rows| + 1 && Chained(p, table, more) && HandedOut(f, p, more)
  {
    var c := Follow(f, |rows| - 1).next;
    assert Makes(f, p, table, c);
    var l :| MadeFrom(p, table, c, f(c).next, l);
    ChainOn(p, table, rows, l);
    more := rows + [l];
  }

  lemma ChainOn(p: Plan, table: Table, rows: seq<Row>, l: Row)
    requires MayEnd(p, table, l)
    requires Chained(p, table, rows) && rows != [] && Past(p, CursorAt(p.paths, rows[|rows| - 1]), l)
    ensures Chained(p, table, rows + [l])
  {
    forall i: nat | i + 1 < |rows + [l]|
      ensures Linked(p, rows + [l], i)
    {
      assert i + 1 < |rows| ==> Linked(p, rows, i);
    }
  }

  /** If a cursor is handed out twice, some chain of rows comes back to where it was. */
  lemma CursorTwiceChainsBack(p: Plan, table: Table, i: nat, j: nat) returns (rows: seq<Row>)
    requires ValidPlan(p) && Identified(table) && SameCursor(Reader(p, table), i, j)
    ensures |rows| > j && Chained(p, table, rows) && rows[i] == rows[j]
  {
    forall c
      ensures Makes(Reader(p, table), p, table, c)
    {
      ReaderMakes(p, table, c);
    }
    rows := EndRows(Reader(p, table), p, table, j);
    OneRowPerId(table, rows[i], rows[j]);
  }

  ghost predicate StepsUp(p: Plan, rows: seq<Row>, k: nat) {
    k + 1 < |rows| && Before(p, rows[k], rows[k + 1])
  }

  lemma {:induction false} StepsUpThrough(p: Plan, rows: seq<Row>, i: nat, j: nat)
    requires i < j < |rows| && forall k: nat :: k + 1 < |rows| ==> StepsUp(p, rows, k)
    ensures Before(p, rows[i], rows[j])
  {
    assert StepsUp(p, rows, j - 1);
    if i < j - 1 {
      StepsUpThrough(p, rows, i, j - 1);
      BeforeTransitive(p, rows[i], rows[j - 1], rows[j]);
    }
  }
}

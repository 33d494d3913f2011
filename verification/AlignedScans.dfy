/**
Scans in which every cursor lies where it should: between the row it was made from and the next (core/db/query.go).

It does where every sort field is there and reads the same to the database and to Go.  It need not where they read
differently: the column is JSONB, whose numbers keep their trailing zeros, so 1.50 is the text "1.50" to the database
and "1.5" to lookupPath, and 1234567.5 becomes "1.2345675e+06".
*/
module AlignedScans {
  import opened Common
  import opened Ordering
  import opened Predicates
  import opened Paging
  import opened Scans
  import opened QuietScans

  // ----- tables that change -----

  /** The cursor made from row l selects row r exactly if r comes after l. */
  ghost predicate Tells(p: Plan, l: Row, r: Row) {
    Past(p, CursorAt(p.paths, l), r) <==> Before(p, l, r)
  }

  /** Every cursor made from a matching row of one of the tables tells the rows of all of them apart. */
  ghost predicate TellsAll(p: Plan, tables: seq<Table>) {
    forall i, j, l, r :: 0 <= i < |tables| && 0 <= j < |tables| && Matching(p, tables[i], l) && Matching(p, tables[j], r) ==>
      Tells(p, l, r)
  }

  lemma TellingNeverGoesBack(p: Plan, tables: seq<Table>, pages: seq<Page>)
    requires ValidPlan(p) && IsScan(p, tables, pages) && AllIdentified(tables) && TellsAll(p, tables)
    ensures NeverGoesBack(p, pages)
  {
    ScanIsScanned(p, tables, pages);
    forall i: nat | i + 1 < |pages|
      ensures !GoesBack(p, pages, i)
    {
      EndOf(p, tables, pages, i);
      assert PageAt(p, tables, pages, i + 1);
      forall x | x in pages[i + 1].rows
        ensures Before(p, LastRow(pages[i]), x)
      {
        assert Wanted(p, CursorBefore(pages, i + 1), x);
        assert Matching(p, tables[i], LastRow(pages[i])) && Matching(p, tables[i + 1], x);
        assert Tells(p, LastRow(pages[i]), x);
      }
    }
  }

  lemma TellingPassesNothingOver(p: Plan, tables: seq<Table>, pages: seq<Page>, r: Row)
    requires ValidPlan(p) && IsScan(p, tables, pages) && AllIdentified(tables) && TellsAll(p, tables)
    requires Matching(p, tables[0], r)
    ensures NotPassedOver(p, pages, r)
  {
    ScanIsScanned(p, tables, pages);
    forall i: nat | LastEndBefore(p, pages, i, r)
      ensures Past(p, CursorAt(p.paths, LastRow(pages[i])), r)
    {
      EndOf(p, tables, pages, i);
      assert Matching(p, tables[i], LastRow(pages[i]));
      assert Tells(p, LastRow(pages[i]), r);
    }
  }

  /**
  Order and no repetition, whatever happens to the table between the pages: the rows come back in
  strictly ascending query order, each matched the predicates in the table it was read from, and no id
  is returned twice.
  */
  lemma ScanIsOrderedWithoutRepeats(p: Plan, tables: seq<Table>, pages: seq<Page>)
    requires ValidPlan(p) && IsScan(p, tables, pages) && AllIdentified(tables) && SameKeys(p, tables)
    requires TellsAll(p, tables)
    ensures Ascending(p, Rows(pages, 0)) && !RepeatsAnId(Rows(pages, 0))
    ensures forall r :: r in Rows(pages, 0) ==> Seen(p, tables, r)
  {
    TellingNeverGoesBack(p, tables, pages);
    OrderedIffNeverGoesBack(p, tables, pages);
    RepeatsOnlyIfGoesBack(p, tables, pages);
    forall r | r in Rows(pages, 0)
      ensures Seen(p, tables, r)
    {
      ReturnedMatches(p, tables, pages, r);
    }
  }

  /** Completeness: a row that exists and matches throughout the scan is returned. */
  lemma ScanIsComplete(p: Plan, tables: seq<Table>, pages: seq<Page>, id: string)
    requires ValidPlan(p) && IsScan(p, tables, pages) && AllIdentified(tables) && SameKeys(p, tables)
    requires TellsAll(p, tables) && Stays(p, tables, 0, id)
    ensures ReturnsId(pages, id)
  {
    var r :| r in tables[0] && r.id == id && AllHold(p.preds, r.doc);
    TellingNeverGoesBack(p, tables, pages);
    TellingPassesNothingOver(p, tables, pages, r);
    ReturnedIffNotPassedOver(p, tables, pages, r);
  }

  /** Cursors tell rows apart where every sort field is there and reads the same on both sides. */
  lemma KeyedTells(p: Plan, l: Row, r: Row)
    requires Keyed(p, l) && Keyed(p, r)
    ensures Tells(p, l, r)
  {
    KeyedColumns(p, l);
    KeyedColumns(p, r);
    BeyondIsAfter(Columns(p.paths, r), Columns(p.paths, l), p.descending);
  }

  lemma SortableTellsAll(p: Plan, tables: seq<Table>)
    requires forall i :: 0 <= i < |tables| ==> Sortable(p, tables[i])
    ensures TellsAll(p, tables)
  {
    forall i, j, l, r | 0 <= i < |tables| && 0 <= j < |tables| && Matching(p, tables[i], l) && Matching(p, tables[j], r)
      ensures Tells(p, l, r)
    {
      KeyedTells(p, l, r);
    }
  }

  // ----- a table that does not change -----

  /** No row lacks a sort field. */
  ghost predicate Complete(p: Plan, table: Table) {
    Identified(table) && forall r :: r in table ==> AllPresent(Columns(p.paths, r))
  }

  /** The cursor made from row l lies between l and the next row: it selects exactly the matching rows after l. */
  ghost predicate AlignedAt(p: Plan, table: Table, l: Row)
    requires ValidPlan(p)
  {
    forall r :: Matching(p, table, r) ==> Tells(p, l, r)
  }

  ghost predicate Aligned(p: Plan, table: Table)
    requires ValidPlan(p)
  {
    forall l :: Matching(p, table, l) && NotLast(p, table, l) ==> AlignedAt(p, table, l)
  }

  /** Following NextCursor ends and puts together the sorted, filtered table. */
  ghost predicate ScansRight(p: Plan, table: Table)
    requires ValidPlan(p)
  {
    exists pages :: IsScan(p, Copies(table, |pages|), pages) && Rows(pages, 0) == Ranked(p, None, table)
  }

  ghost predicate AlwaysScansRight(p: Plan, table: Table)
    requires ValidPlan(p)
  {
    forall n: nat :: n >= 1 ==> ScansRight(p.(limit := n), table)
  }

  // ----- aligned is enough -----

  lemma PageEndsAligned(p: Plan, table: Table, tables: seq<Table>, pages: seq<Page>, i: nat)
    requires ValidPlan(p) && Identified(table) && Aligned(p, table)
    requires IsScan(p, tables, pages) && Quiet(table, tables) && i + 1 < |pages|
    ensures Ends(pages, i) && AlignedAt(p, table, LastRow(pages[i]))
    ensures CursorBefore(pages, i + 1) == Some(CursorAt(p.paths, LastRow(pages[i])))
  {
    PageOfScan(p, tables, pages, i);
    var l := PageEnd(p, CursorBefore(pages, i), table);
  }

  lemma AlignedNeverGoesBack(p: Plan, table: Table, tables: seq<Table>, pages: seq<Page>)
    requires ValidPlan(p) && Identified(table) && Aligned(p, table) && IsScan(p, tables, pages) && Quiet(table, tables)
    ensures NeverGoesBack(p, pages)
  {
    QuietKeys(p, table, tables);
    ScanIsScanned(p, tables, pages);
    forall i: nat | i + 1 < |pages|
      ensures !GoesBack(p, pages, i)
    {
      PageEndsAligned(p, table, tables, pages, i);
      assert PageAt(p, tables, pages, i + 1);
      forall x | x in pages[i + 1].rows
        ensures Before(p, LastRow(pages[i]), x)
      {
        assert Wanted(p, CursorBefore(pages, i + 1), x) && Matching(p, table, x);
      }
    }
  }

  lemma AlignedNonePassedOver(p: Plan, table: Table, tables: seq<Table>, pages: seq<Page>)
    requires ValidPlan(p) && Identified(table) && Aligned(p, table) && IsScan(p, tables, pages) && Quiet(table, tables)
    ensures NonePassedOver(p, pages, table)
  {
    forall r, i: nat | Matching(p, table, r) && LastEndBefore(p, pages, i, r)
      ensures Past(p, CursorAt(p.paths, LastRow(pages[i])), r)
    {
      PageEndsAligned(p, table, tables, pages, i);
    }
  }

  lemma AlignedChainGoesUp(p: Plan, table: Table, rows: seq<Row>, i: nat, j: nat)
    requires ValidPlan(p) && Aligned(p, table) && Chained(p, table, rows) && i < j < |rows|
    ensures Before(p, rows[i], rows[j])
  {
    forall k: nat | k + 1 < |rows|
      ensures StepsUp(p, rows, k)
    {
      assert Linked(p, rows, k) && MayEnd(p, table, rows[k]) && MayEnd(p, table, rows[k + 1]);
      assert AlignedAt(p, table, rows[k]);
    }
    StepsUpThrough(p, rows, i, j);
  }

  /**
  Following NextCursor through such a table ends, after at most one page more than the full ones, and the pages put
  together are the sorted, filtered table.
  */
  lemma AlignedScanIsTheSortedTable(p: Plan, table: Table) returns (pages: seq<Page>)
    requires ValidPlan(p) && Identified(table) && Aligned(p, table)
    ensures IsScan(p, Copies(table, |pages|), pages) && Rows(pages, 0) == Ranked(p, None, table)
    ensures |pages| <= |Ranked(p, None, table)| / p.limit + 1
  {
    if i: nat, j: nat :| SameCursor(Reader(p, table), i, j) {
      var rows := CursorTwiceChainsBack(p, table, i, j);
      AlignedChainGoesUp(p, table, rows, i, j);
    }
    QuietScanEndsIff(p, table);
    var n: nat :| EndsAt(Reader(p, table), n);
    FollowingIsScanning(p, table, n);
    pages := Followed(Reader(p, table), n);
    AlignedNeverGoesBack(p, table, Copies(table, n + 1), pages);
    AlignedNonePassedOver(p, table, Copies(table, n + 1), pages);
    QuietScanIff(p, table, Copies(table, n + 1), pages);
    PagesAreFull(p, table, Copies(table, n + 1), pages);
    FullPages(pages, p.limit, 0);
    Quotient(n, p.limit, |Ranked(p, None, table)|);
  }

  lemma SortableIsAligned(p: Plan, table: Table)
    requires ValidPlan(p) && Sortable(p, table)
    ensures Aligned(p, table)
  {
    forall l, r | Matching(p, table, l) && Matching(p, table, r)
      ensures Tells(p, l, r)
    {
      KeyedTells(p, l, r);
    }
  }

  ghost predicate AllButLastHold(pages: seq<Page>, n: nat) {
    forall i :: 0 <= i < |pages| - 1 ==> |pages[i].rows| == n
  }

  lemma {:induction false} FullPages(pages: seq<Page>, n: nat, i: nat)
    requires AllButLastHold(pages, n) && i < |pages|
    ensures |Rows(pages, i)| >= (|pages| - 1 - i) * n
    decreases |pages| - i
  {
    if i + 1 < |pages| {
      FullPages(pages, n, i + 1);
      assert (|pages| - 1 - i) * n == (|pages| - 1 - (i + 1)) * n + n;
    }
  }

  lemma PagesAreFull(p: Plan, table: Table, tables: seq<Table>, pages: seq<Page>)
    requires ValidPlan(p) && IsScan(p, tables, pages) && Quiet(table, tables)
    ensures AllButLastHold(pages, p.limit)
  {
    forall i | 0 <= i < |pages| - 1
      ensures |pages[i].rows| == p.limit
    {
      ReadAt(p, table, tables, pages, i);
    }
  }

  lemma Quotient(a: nat, b: nat, n: nat)
    requires b > 0 && a * b <= n
    ensures a <= n / b
  {
    if a > n / b {
      MoreTimes(n / b + 1, a, b);
    }
  }

  lemma {:induction false} MoreTimes(a: nat, b: nat, c: nat)
    requires a <= b
    ensures a * c <= b * c
    decreases b - a
  {
    if a < b {
      MoreTimes(a, b - 1, c);
      assert (b - 1) * c + c == b * c;
    }
  }

  // ----- and needed -----

  /** What is after a selected row is selected, where no field is missing. */
  lemma SelectedUpwards(p: Plan, c: Cursor, x: Row, y: Row)
    requires AllPresent(Columns(p.paths, x)) && AllPresent(Columns(p.paths, y)) && |c.keys| == |p.paths|
    requires Past(p, c, x) && Before(p, x, y)
    ensures Past(p, c, y)
  {
    var cs, xs, ys := CursorCols(c), Columns(p.paths, x), Columns(p.paths, y);
    BeyondIsAfter(xs, cs, p.descending);
    BeyondIsAfter(ys, cs, p.descending);
    DirTransitive(p.descending, cs, xs, ys);
  }

  /** The first page of the scan ends on row l, and there is more. */
  ghost predicate FirstEndsOn(p: Plan, table: Table, l: Row)
    requires ValidPlan(p)
  {
    |Ranked(p, None, table)| > p.limit && l == Ranked(p, None, table)[p.limit - 1]
  }

  /** How the first two pages of such a scan hang together. */
  lemma {:induction false} FirstTwoPages(p: Plan, table: Table, pages: seq<Page>, l: Row)
    requires ValidPlan(p) && Identified(table) && FirstEndsOn(p, table, l)
    requires IsScan(p, Copies(table, |pages|), pages)
    ensures |pages| > 1 && pages[0].rows == Ranked(p, None, table)[..p.limit]
    ensures pages[0].next == Some(CursorAt(p.paths, l))
  {
    PageOfScan(p, Copies(table, |pages|), pages, 0);
    var k := PageEnd(p, None, table);
  }

  lemma {:induction false} SecondIsGood(p: Plan, table: Table, pages: seq<Page>)
    requires ValidPlan(p) && Identified(table) && IsScan(p, Copies(table, |pages|), pages) && |pages| > 1
    ensures GoodPage(p, pages[0].next, table, pages[1])
    ensures |pages| > 2 ==> pages[1].rows != []
  {
    PageOfScan(p, Copies(table, |pages|), pages, 1);
    PageFacts(p, pages[0].next, table);
  }

  /** Where the second page starts if the pages put together are `all`. */
  lemma {:induction false} SecondStarts(pages: seq<Page>, all: seq<Row>, n: nat)
    requires |pages| > 1 && n < |all| && Rows(pages, 0) == all && pages[0].rows == all[..n]
    requires |pages| > 2 ==> pages[1].rows != []
    ensures pages[1].rows != [] && pages[1].rows[0] == all[n]
  {
    assert Rows(pages, 0) == pages[0].rows + Rows(pages, 1);
    assert Rows(pages, 1) == pages[1].rows + Rows(pages, 2);
    assert |pages| == 2 ==> Rows(pages, 2) == [];
    assert all[n] == (pages[0].rows + (pages[1].rows + Rows(pages, 2)))[n];
  }

  lemma {:induction false} SecondPageIsNext(p: Plan, table: Table, all: seq<Row>, pages: seq<Page>, l: Row)
    requires p.limit < |all| && Rows(pages, 0) == all && Next(p, table, l, all[p.limit])
    requires |pages| > 1 && pages[0].rows == all[..p.limit] && (|pages| > 2 ==> pages[1].rows != [])
    ensures pages[1].rows != [] && Next(p, table, l, pages[1].rows[0])
  {
    SecondStarts(pages, all, p.limit);
  }

  /** What is known of the first two pages. */
  ghost predicate StartsOn(p: Plan, table: Table, pages: seq<Page>, l: Row)
    requires ValidPlan(p)
  {
    && |pages| > 1 && pages[0].rows == FirstRows(Ranked(p, None, table), p.limit)
    && GoodPage(p, Some(CursorAt(p.paths, l)), table, pages[1]) && (|pages| > 2 ==> pages[1].rows != [])
  }

  lemma {:induction false} ScanStartsOn(p: Plan, table: Table, pages: seq<Page>, l: Row)
    requires ValidPlan(p) && Identified(table) && FirstEndsOn(p, table, l) && IsScan(p, Copies(table, |pages|), pages)
    ensures StartsOn(p, table, pages, l)
  {
    FirstTwoPages(p, table, pages, l);
    SecondIsGood(p, table, pages);
  }

  lemma {:induction false} SecondPageIsGood(p: Plan, table: Table, pages: seq<Page>, l: Row)
    requires ValidPlan(p) && Identified(table) && FirstEndsOn(p, table, l) && StartsOn(p, table, pages, l)
    requires Rows(pages, 0) == Ranked(p, None, table)
    ensures pages[1].rows != [] && Next(p, table, l, pages[1].rows[0])
  {
    RankedNext(p, table, p.limit);
    SecondPageIsNext(p, table, Ranked(p, None, table), pages, l);
  }

  /** Row `first` comes next after row l. */
  ghost predicate Next(p: Plan, table: Table, l: Row, first: Row) {
    forall r :: Matching(p, table, r) ==> NextFor(p, l, first, r)
  }

  ghost predicate NextFor(p: Plan, l: Row, first: Row, r: Row) {
    if Before(p, l, r) then r == first || Before(p, first, r) else Before(p, r, first)
  }

  lemma {:induction false} AlignedFromPage(p: Plan, table: Table, page: Page, l: Row)
    requires ValidPlan(p) && Complete(p, table) && page.rows != [] && Next(p, table, l, page.rows[0])
    requires GoodPage(p, Some(CursorAt(p.paths, l)), table, page)
    ensures AlignedAt(p, table, l)
  {
    forall r | Matching(p, table, r)
      ensures Tells(p, l, r)
    {
      assert NextFor(p, l, page.rows[0], r);
      AlignedFor(p, table, page, CursorAt(p.paths, l), l, r);
    }
  }

  /** If the scan whose first page ends on l comes out right, the cursor made from l is aligned. */
  lemma {:induction false} RightMeansAligned(p: Plan, table: Table, l: Row)
    requires ValidPlan(p) && Complete(p, table) && FirstEndsOn(p, table, l) && ScansRight(p, table)
    ensures AlignedAt(p, table, l)
  {
    var pages: seq<Page> :| IsScan(p, Copies(table, |pages|), pages) && Rows(pages, 0) == Ranked(p, None, table);
    ScanStartsOn(p, table, pages, l);
    SecondPageIsGood(p, table, pages, l);
    AlignedFromPage(p, table, pages[1], l);
  }

  /** The rows a page is asked for from its first row on are exactly those from that row on. */
  lemma AlignedFor(p: Plan, table: Table, page: Page, c: Cursor, l: Row, r: Row)
    requires ValidPlan(p) && Complete(p, table) && GoodPage(p, Some(c), table, page) && page.rows != []
    requires |c.keys| == |p.paths| && Matching(p, table, r)
    requires Before(p, l, r) ==> r == page.rows[0] || Before(p, page.rows[0], r)
    requires !Before(p, l, r) ==> Before(p, r, page.rows[0])
    ensures Past(p, c, r) <==> Before(p, l, r)
  {
    var first := page.rows[0];
    assert first in page.rows && Wanted(p, Some(c), first);
    if Before(p, first, r) {
      SelectedUpwards(p, c, first, r);
    }
    if Past(p, c, r) {
      FirstIsNotBeyond(p, table, page, c, r);
    }
  }

  lemma SameRanking(p: Plan, table: Table, m: nat)
    requires ValidPlan(p) && m >= 1
    ensures Ranked(p.(limit := m), None, table) == Ranked(p, None, table)
  {
    SamePicked(p, table, m);
  }

  lemma {:induction false} SamePicked(p: Plan, table: Table, m: nat)
    requires ValidPlan(p) && m >= 1
    ensures Picked(p.(limit := m), None, table) == Picked(p, None, table)
  {
    if table != [] {
      SamePicked(p, table[..|table| - 1], m);
    }
  }

  lemma {:induction false} RankedNext(p: Plan, table: Table, m: nat)
    requires ValidPlan(p) && Identified(table) && 1 <= m < |Ranked(p, None, table)|
    ensures Next(p, table, Ranked(p, None, table)[m - 1], Ranked(p, None, table)[m])
  {
    RankedFacts(p, None, table);
    NextInOrder(p, table, Ranked(p, None, table), m);
  }

  lemma {:induction false} NextInOrder(p: Plan, table: Table, all: seq<Row>, m: nat)
    requires Ascending(p, all) && 1 <= m < |all| && forall r :: Matching(p, table, r) ==> r in all
    ensures Next(p, table, all[m - 1], all[m])
  {
    forall r | Matching(p, table, r)
      ensures NextFor(p, all[m - 1], all[m], r)
    {
      NextInOrderFor(p, all, m, r);
    }
  }

  lemma {:induction false} NextInOrderFor(p: Plan, all: seq<Row>, m: nat, r: Row)
    requires Ascending(p, all) && 1 <= m < |all| && r in all
    ensures NextFor(p, all[m - 1], all[m], r)
  {
    var k :| 0 <= k < |all| && all[k] == r;
    PlacesAround(p, all, m, k);
  }

  lemma PlacesAround(p: Plan, all: seq<Row>, m: nat, k: nat)
    requires Ascending(p, all) && 1 <= m < |all| && k < |all|
    ensures Before(p, all[m - 1], all[k]) <==> m <= k
    ensures Before(p, all[m], all[k]) <==> m < k
    ensures k < m ==> Before(p, all[k], all[m])
  {
    NotBothWays(p, all[k], all[m]);
    NotBothWays(p, all[k], all[m - 1]);
  }

  lemma NotBothWays(p: Plan, a: Row, b: Row)
    ensures Before(p, a, b) ==> !Before(p, b, a)
    ensures !Before(p, a, a)
  {
    BeforeTotal(p, a, b);
    BeforeTotal(p, a, a);
  }

  /**
  Where no sort field is missing, following NextCursor returns exactly the sorted, filtered table for every page size
  if and only if every cursor selects exactly the rows after the one it was made from, whatever text it carries.
  */
  lemma {:induction false} AlwaysRightIffAligned(p: Plan, table: Table)
    requires ValidPlan(p) && Complete(p, table)
    ensures AlwaysScansRight(p, table) <==> Aligned(p, table)
  {
    if Aligned(p, table) {
      forall n: nat | n >= 1
        ensures ScansRight(p.(limit := n), table)
      {
        AlignedAnyLimit(p, table, n);
        var pages := AlignedScanIsTheSortedTable(p.(limit := n), table);
      }
    }
    if AlwaysScansRight(p, table) {
      forall l | Matching(p, table, l) && NotLast(p, table, l)
        ensures AlignedAt(p, table, l)
      {
        AlwaysRightMeansAligned(p, table, l);
      }
    }
  }

  lemma {:induction false} AlwaysRightMeansAligned(p: Plan, table: Table, l: Row)
    requires ValidPlan(p) && Complete(p, table) && AlwaysScansRight(p, table)
    requires Matching(p, table, l) && NotLast(p, table, l)
    ensures AlignedAt(p, table, l)
  {
    var m := EndOn(p, table, l);
    RightMeansAligned(p.(limit := m), table, l);
    AlignedAtAnyLimit(p, table, m, l);
  }

  lemma {:induction false} EndOn(p: Plan, table: Table, l: Row) returns (m: nat)
    requires ValidPlan(p) && Identified(table) && Matching(p, table, l) && NotLast(p, table, l)
    ensures m >= 1 && FirstEndsOn(p.(limit := m), table, l)
  {
    m := PlaceOf(p, table, l);
    SameRanking(p, table, m);
    assert Ranked(p.(limit := m), None, table)[m - 1] == l;
  }

  lemma AlignedAtAnyLimit(p: Plan, table: Table, n: nat, l: Row)
    requires ValidPlan(p) && n >= 1
    ensures AlignedAt(p.(limit := n), table, l) <==> AlignedAt(p, table, l)
  {
    var q := p.(limit := n);
    forall r
      ensures Matching(q, table, r) <==> Matching(p, table, r)
      ensures Before(q, l, r) <==> Before(p, l, r)
      ensures Past(q, CursorAt(q.paths, l), r) <==> Past(p, CursorAt(p.paths, l), r)
    {
    }
  }

  lemma AlignedAnyLimit(p: Plan, table: Table, n: nat)
    requires ValidPlan(p) && n >= 1 && Aligned(p, table)
    ensures Aligned(p.(limit := n), table)
  {
    var q := p.(limit := n);
    forall l | Matching(q, table, l) && NotLast(q, table, l)
      ensures AlignedAt(q, table, l)
    {
      var r :| Matching(q, table, r) && Before(q, l, r);
      assert Matching(p, table, r) && Before(p, l, r) && Matching(p, table, l);
      AlignedAtAnyLimit(p, table, n, l);
    }
  }

  /** How many rows of the ranking there are up to l. */
  lemma {:induction false} PlaceOf(p: Plan, table: Table, l: Row) returns (m: nat)
    requires ValidPlan(p) && Identified(table) && Matching(p, table, l) && NotLast(p, table, l)
    ensures 1 <= m < |Ranked(p, None, table)| && Ranked(p, None, table)[m - 1] == l
  {
    RankedFacts(p, None, table);
    var r :| Matching(p, table, r) && Before(p, l, r);
    assert Wanted(p, None, l) && Wanted(p, None, r);
    m := PlaceIn(p, Ranked(p, None, table), l, r);
  }

  lemma {:induction false} PlaceIn(p: Plan, all: seq<Row>, l: Row, r: Row) returns (m: nat)
    requires Ascending(p, all) && l in all && r in all && Before(p, l, r)
    ensures 1 <= m < |all| && all[m - 1] == l
  {
    var k :| 0 <= k < |all| && all[k] == l;
    var j :| 0 <= j < |all| && all[j] == r;
    NotBothWays(p, l, r);
    assert j < k ==> Before(p, r, l);
    m := k + 1;
  }

  // ----- a scan that never ends -----

  /** A document with a = 1.50, and one with a = 2. */
  const PRICE := Row("1", Object(map["a" := Scalar("1.50", "1.5")], "", ""))
  const ROUND := Row("2", Object(map["a" := Scalar("2", "2")], "", ""))
  const PRICES := [PRICE, ROUND]
  const BY_A := Plan([], [["a"]], false, 1)
  const STUCK := Page([PRICE], Some(Cursor(["1.5"], "1")), true)

  lemma PriceColumns()
    ensures Columns([["a"]], PRICE) == [Some("1.50"), Some("1")] && Columns([["a"]], ROUND) == [Some("2"), Some("2")]
    ensures CursorAt([["a"]], PRICE) == Cursor(["1.5"], "1") && CursorCols(Cursor(["1.5"], "1")) == [Some("1.5"), Some("1")]
  {
    assert Resolve(PRICE.doc, ["a"]) == Scalar("1.50", "1.5") && Resolve(ROUND.doc, ["a"]) == Scalar("2", "2");
    assert SortKeysOf(PRICE.doc, [["a"]]) == ["1.5"];
  }

  lemma PriceTexts()
    ensures StrLess("1.5", "1.50") && StrLess("1.5", "2") && StrLeq("1.50", "2")
  {
    assert "1.5"[1..] == ".5" && "1.50"[1..] == ".50" && ".5"[1..] == "5" && ".50"[1..] == "50" && "50"[1..] == "0";
    assert "5"[1..] == "";
  }

  lemma PricesSorted()
    ensures StableSort(RowOrder([["a"]], false), PRICES) == PRICES
  {
    PriceColumns();
    PriceTexts();
    var leq := RowOrder([["a"]], false);
    assert leq(PRICE, ROUND);
    assert PRICES[1..] == [ROUND] && [ROUND][1..] == [];
    assert StableSort(leq, [ROUND]) == [ROUND];
  }

  /** Both rows are beyond no cursor, and beyond the one made from the first. */
  lemma PricesPicked(c: Option<Cursor>)
    requires c == None || c == Some(Cursor(["1.5"], "1"))
    ensures Picked(BY_A, c, PRICES) == PRICES
  {
    PriceColumns();
    PriceTexts();
    assert c.Some? ==> Past(BY_A, c.value, PRICE) && Past(BY_A, c.value, ROUND);
    assert PRICES[..1] == [PRICE] && [PRICE][..0] == [];
    assert Picked(BY_A, c, [PRICE]) == [PRICE];
  }

  lemma PageIsStuck(c: Option<Cursor>)
    requires c == None || c == Some(Cursor(["1.5"], "1"))
    ensures PageOf(BY_A, c, PRICES) == STUCK
  {
    PricesPicked(c);
    PricesSorted();
    PriceColumns();
    assert PRICES[..1] == [PRICE];
  }

  /**
  One document at a time by a: every page is the first, so following NextCursor never ends and the second document is
  never returned, although both have the sort field.
  */
  lemma TrailingZeroNeverEnds(pages: seq<Page>)
    ensures PageOf(BY_A, None, PRICES) == STUCK && PageOf(BY_A, STUCK.next, PRICES) == STUCK
    ensures !IsScan(BY_A, Copies(PRICES, |pages|), pages)
  {
    PageIsStuck(None);
    PageIsStuck(STUCK.next);
    if IsScan(BY_A, Copies(PRICES, |pages|), pages) {
      var f := Reader(BY_A, PRICES);
      ReaderReads(BY_A, PRICES, None);
      ReaderReads(BY_A, PRICES, STUCK.next);
      assert Follow(f, 0) == STUCK && Follow(f, 1) == STUCK;
      assert SameCursor(f, 0, 1);
      ScanEnds(BY_A, PRICES, Copies(PRICES, |pages|), pages);
      NeverEnds(f, 0, 1, |pages| - 1);
    }
  }

  // ----- a scan that goes back and repeats nothing -----

  /** A document whose field a is one text to the database and another to Go. */
  function Twofold(id: string, sql: string, host: string): Row {
    Row(id, Object(map["a" := Scalar(sql, host)], "", ""))
  }

  const FIRST := Twofold("1", "1", "25")
  const SECOND := Twofold("2", "2", "35")
  const THIRD := Twofold("3", "3", "15")
  const FOURTH := Twofold("4", "4", "4")
  const FOUR := [FIRST, SECOND, THIRD, FOURTH]

  lemma TwofoldColumns(id: string, sql: string, host: string)
    ensures Columns([["a"]], Twofold(id, sql, host)) == [Some(sql), Some(id)]
    ensures CursorAt([["a"]], Twofold(id, sql, host)) == Cursor([host], id)
    ensures CursorCols(Cursor([host], id)) == [Some(host), Some(id)]
  {
    var r := Twofold(id, sql, host);
    assert Resolve(r.doc, ["a"]) == Scalar(sql, host);
    assert SortKeysOf(r.doc, [["a"]]) == [host];
  }

  /** The first column decides. */
  lemma TwofoldBefore(id: string, sql: string, host: string, id': string, sql': string, host': string)
    requires StrLess(sql, sql')
    ensures Before(BY_A, Twofold(id, sql, host), Twofold(id', sql', host'))
  {
    TwofoldColumns(id, sql, host);
    TwofoldColumns(id', sql', host');
  }

  lemma TwofoldPast(c: Cursor, key: string, id: string, sql: string, host: string)
    requires c.keys == [key] && key != sql
    ensures Past(BY_A, c, Twofold(id, sql, host)) <==> StrLess(key, sql)
  {
    TwofoldColumns(id, sql, host);
    assert CursorCols(c) == [Some(key), Some(c.id)];
  }

  /** A ranking is known by its members and its order. */
  lemma RankedIs(p: Plan, cursor: Option<Cursor>, table: Table, rows: seq<Row>)
    requires ValidPlan(p) && Identified(table) && Ascending(p, rows)
    requires forall r :: r in rows <==> r in table && Wanted(p, cursor, r)
    ensures Ranked(p, cursor, table) == rows
  {
    RankedFacts(p, cursor, table);
    AscendingUnique(p, Ranked(p, cursor, table), rows);
  }

  lemma SomeTexts()
    ensures StrLess("1", "2") && StrLess("2", "3") && StrLess("3", "4")
    ensures !StrLess("15", "1") && StrLess("15", "2") && StrLess("15", "3") && StrLess("15", "4")
    ensures !StrLess("25", "1") && !StrLess("25", "2") && StrLess("25", "3") && StrLess("25", "4")
    ensures !StrLess("35", "1") && !StrLess("35", "2") && !StrLess("35", "3") && StrLess("35", "4")
  {
    assert "15"[1..] == "5" && "25"[1..] == "5" && "35"[1..] == "5" && "1"[1..] == "" && "2"[1..] == "" && "3"[1..] == "";
  }

  lemma FourInOrder()
    ensures Identified(FOUR) && Ascending(BY_A, FOUR)
  {
    SomeTexts();
    TwofoldBefore("1", "1", "25", "2", "2", "35");
    TwofoldBefore("2", "2", "35", "3", "3", "15");
    TwofoldBefore("3", "3", "15", "4", "4", "4");
    assert StepsUp(BY_A, FOUR, 0) && StepsUp(BY_A, FOUR, 1) && StepsUp(BY_A, FOUR, 2);
    forall i: nat, j: nat | i < j < |FOUR|
      ensures Before(BY_A, FOUR[i], FOUR[j])
    {
      StepsUpThrough(BY_A, FOUR, i, j);
    }
  }

  /** What a cursor with this key selects. */
  lemma FourPast(c: Cursor, key: string)
    requires c.keys == [key] && key in ["15", "25", "35"]
    ensures !Past(BY_A, c, FIRST)
    ensures Past(BY_A, c, SECOND) <==> key == "15"
    ensures Past(BY_A, c, THIRD) <==> key != "35"
    ensures Past(BY_A, c, FOURTH)
  {
    SomeTexts();
    TwofoldPast(c, key, "1", "1", "25");
    TwofoldPast(c, key, "2", "2", "35");
    TwofoldPast(c, key, "3", "3", "15");
    TwofoldPast(c, key, "4", "4", "4");
  }

  /** The rows from place k on are what a cursor selects that selects exactly those. */
  lemma FourRanked(c: Option<Cursor>, k: nat)
    requires k < 4 && forall i :: 0 <= i < 4 ==> (c.Some? ==> (Past(BY_A, c.value, FOUR[i]) <==> k <= i))
    requires c.None? ==> k == 0
    ensures Ranked(BY_A, c, FOUR) == FOUR[k..]
  {
    FourInOrder();
    var rows := FOUR[k..];
    assert forall i :: 0 <= i < |rows| ==> rows[i] == FOUR[k + i];
    forall r
      ensures r in rows <==> r in FOUR && Wanted(BY_A, c, r)
    {
    }
    RankedIs(BY_A, c, FOUR, rows);
  }

  lemma FourCursors()
    ensures CursorAt(BY_A.paths, FIRST) == Cursor(["25"], "1") && CursorAt(BY_A.paths, SECOND) == Cursor(["35"], "2")
    ensures CursorAt(BY_A.paths, THIRD) == Cursor(["15"], "3")
  {
    TwofoldColumns("1", "1", "25");
    TwofoldColumns("2", "2", "35");
    TwofoldColumns("3", "3", "15");
  }

  lemma FourPage(c: Option<Cursor>, k: nat)
    requires k < 4 && Ranked(BY_A, c, FOUR) == FOUR[k..]
    ensures PageOf(BY_A, c, FOUR) ==
            Page([FOUR[k]], if k < 3 then Some(CursorAt(BY_A.paths, FOUR[k])) else None, k < 3)
  {
    assert FOUR[k..][0] == FOUR[k];
    assert k < 3 ==> FOUR[k..][..1] == [FOUR[k]];
    assert k == 3 ==> FOUR[k..] == [FOUR[k]];
  }

  const ASTRAY := [Page([FIRST], Some(Cursor(["25"], "1")), true), Page([THIRD], Some(Cursor(["15"], "3")), true),
                   Page([SECOND], Some(Cursor(["35"], "2")), true), Page([FOURTH], None, false)]

  lemma FourAfter(c: Cursor, key: string, k: nat)
    requires c.keys == [key] && ((key == "15" && k == 1) || (key == "25" && k == 2) || (key == "35" && k == 3))
    ensures PageOf(BY_A, Some(c), FOUR) ==
            Page([FOUR[k]], if k < 3 then Some(CursorAt(BY_A.paths, FOUR[k])) else None, k < 3)
  {
    FourPast(c, key);
    FourRanked(Some(c), k);
    FourPage(Some(c), k);
  }

  lemma FourPages()
    ensures PageOf(BY_A, None, FOUR) == ASTRAY[0] && PageOf(BY_A, ASTRAY[0].next, FOUR) == ASTRAY[1]
    ensures PageOf(BY_A, ASTRAY[1].next, FOUR) == ASTRAY[2] && PageOf(BY_A, ASTRAY[2].next, FOUR) == ASTRAY[3]
  {
    FourCursors();
    FourRanked(None, 0);
    FourPage(None, 0);
    FourAfter(Cursor(["25"], "1"), "25", 2);
    FourAfter(Cursor(["15"], "3"), "15", 1);
    FourAfter(Cursor(["35"], "2"), "35", 3);
  }

  lemma FourIsScanned()
    ensures IsScan(BY_A, Copies(FOUR, 4), ASTRAY)
  {
    FourPages();
    var pages, tables := ASTRAY, Copies(FOUR, 4);
    forall i | 0 <= i < 3
      ensures pages[i].hasMore && pages[i + 1] == PageOf(BY_A, pages[i].next, tables[i + 1])
    {
      assert i == 0 || i == 1 || i == 2;
    }
  }

  lemma FourRows()
    ensures Rows(ASTRAY, 0) == [FIRST, THIRD, SECOND, FOURTH] && !RepeatsAnId(Rows(ASTRAY, 0))
  {
    assert Rows(ASTRAY, 4) == [];
    assert Rows(ASTRAY, 3) == [FOURTH];
    assert Rows(ASTRAY, 2) == [SECOND, FOURTH];
    assert Rows(ASTRAY, 1) == [THIRD, SECOND, FOURTH];
  }

  lemma FourGoesBack()
    ensures GoesBack(BY_A, ASTRAY, 1)
  {
    FourInOrder();
    NotBothWays(BY_A, FOUR[1], FOUR[2]);
    assert SECOND in ASTRAY[2].rows && LastRow(ASTRAY[1]) == THIRD;
  }

  /** A cursor jumps ahead over a row and the next one falls back to it: out of order, and yet every row comes once. */
  lemma BackWithoutRepeat()
    ensures IsScan(BY_A, Copies(FOUR, 4), ASTRAY) && Rows(ASTRAY, 0) == [FIRST, THIRD, SECOND, FOURTH]
    ensures GoesBack(BY_A, ASTRAY, 1) && !RepeatsAnId(Rows(ASTRAY, 0))
  {
    FourIsScanned();
    FourRows();
    FourGoesBack();
  }
}

/**
What keyset pagination does with documents that lack a sort field (core/db/query.go).

A missing field is NULL in the table, which ORDER BY puts last (first when descending); in a cursor it is the empty
string.  Where the fields that are there read the same to the database and to Go, that is all that can go wrong.
*/
module MissingKeys {
  import opened Common
  import opened Ordering
  import opened Predicates
  import opened Paging
  import opened Scans
  import opened QuietScans

  // ----- columns -----

  /** The columns as a cursor writes them. */
  function Filled(xs: Cols): (r: Cols)
    ensures |r| == |xs| && forall i :: 0 <= i < |xs| ==> r[i] == if xs[i].Some? then xs[i] else Some("")
  {
    seq(|xs|, i requires 0 <= i < |xs| => if xs[i].Some? then xs[i] else Some(""))
  }

  /**
  What makes the cursor written for ys select columns that do not come after ys: ascending order, a missing column k
  in ys, agreement before it, and columns from k on that are beyond the empty string put there.
  */
  predicate Regresses(xs: Cols, ys: Cols, descending: bool)
    requires |xs| == |ys|
  {
    var k := FirstMissing(ys);
    !descending && k < |ys| && xs[..k] == ys[..k] && EvalBeyond(xs[k..], Filled(ys)[k..], false) == True
  }

  lemma FilledTail(ys: Cols)
    requires ys != []
    ensures Filled(ys)[1..] == Filled(ys[1..])
  {
  }

  /** The cursor written for ys selects xs, which do not come after ys. */
  predicate Returns(xs: Cols, ys: Cols, descending: bool)
    requires |xs| == |ys|
  {
    EvalBeyond(xs, Filled(ys), descending) == True && !DirLess(descending, ys, xs)
  }

  lemma SameHeads(xs: Cols, ys: Cols, descending: bool)
    requires |xs| == |ys| > 0 && xs[0] == ys[0] && xs[0].Some?
    ensures EvalBeyond(xs, Filled(ys), descending) == EvalBeyond(xs[1..], Filled(ys[1..]), descending)
    ensures DirLess(descending, ys, xs) <==> DirLess(descending, ys[1..], xs[1..])
  {
    FilledTail(ys);
    assert xs == [xs[0]] + xs[1..] && ys == [xs[0]] + ys[1..];
    ConsLess(descending, xs[0], ys[1..], xs[1..]);
  }

  lemma RegressesCons(xs: Cols, ys: Cols, descending: bool)
    requires |xs| == |ys| > 0 && xs[0] == ys[0] && xs[0].Some?
    ensures Regresses(xs, ys, descending) <==> Regresses(xs[1..], ys[1..], descending)
  {
    var k := FirstMissing(ys);
    FilledTail(ys);
    TakeCons(xs, k);
    TakeCons(ys, k);
    TakeCons(Filled(ys), k);
    assert xs[..k] == ys[..k] <==> xs[1..][..k - 1] == ys[1..][..k - 1] by {
      assert xs[..k] == ys[..k] ==> xs[..k][1..] == ys[..k][1..];
    }
  }

  lemma MissingHead(xs: Cols, ys: Cols, descending: bool)
    requires |xs| == |ys| > 0 && ys[0].None?
    ensures Returns(xs, ys, descending) <==> Regresses(xs, ys, descending)
  {
    assert xs[..0] == ys[..0] && xs[0..] == xs && Filled(ys)[0..] == Filled(ys);
    if xs[0].Some? {
      HeadLess(descending, ys, xs);
    }
  }

  lemma DifferentHeads(xs: Cols, ys: Cols, descending: bool)
    requires |xs| == |ys| > 0 && ys[0].Some? && xs[0] != ys[0]
    ensures !Returns(xs, ys, descending) && !Regresses(xs, ys, descending)
  {
    var k := FirstMissing(ys);
    assert xs[..k][0] == xs[0] && ys[..k][0] == ys[0];
    HeadLess(descending, ys, xs);
  }

  /** A cursor selects what does not come after its own row exactly then. */
  lemma {:induction false} GoesBackExactly(xs: Cols, ys: Cols, descending: bool)
    requires |xs| == |ys|
    ensures Returns(xs, ys, descending) <==> Regresses(xs, ys, descending)
  {
    if ys != [] {
      if ys[0].None? {
        MissingHead(xs, ys, descending);
      } else if xs[0] == ys[0] {
        GoesBackExactly(xs[1..], ys[1..], descending);
        SameHeads(xs, ys, descending);
        RegressesCons(xs, ys, descending);
      } else {
        DifferentHeads(xs, ys, descending);
      }
    }
  }

  /** In ascending order, what a cursor skips agrees with its row on every column before its own first missing one. */
  lemma {:induction false} SkippedTies(xs: Cols, ys: Cols)
    requires |xs| == |ys| && DirLess(false, ys, xs) && EvalBeyond(xs, Filled(ys), false) != True
    ensures xs[..FirstMissing(xs)] == ys[..FirstMissing(xs)]
  {
    var k := FirstMissing(xs);
    if xs[0].Some? {
      if xs[0] == ys[0] {
        SameHeads(xs, ys, false);
        SkippedTies(xs[1..], ys[1..]);
        TakeCons(xs, k);
        TakeCons(ys, k);
      } else {
        HeadLess(false, ys, xs);
      }
    }
  }

  // ----- rows -----

  /** A document whose sort fields, where present, read the same on both sides. */
  ghost predicate Alike(p: Plan, r: Row) {
    forall i :: 0 <= i < |p.paths| ==>
      SqlText(r.doc, p.paths[i]).Some? ==> SqlText(r.doc, p.paths[i]) == Some(LookupPath(r.doc, p.paths[i]))
  }

  ghost predicate Presentable(p: Plan, table: Table) {
    Identified(table) && forall r :: r in table ==> Alike(p, r)
  }

  lemma CursorIsFilled(p: Plan, r: Row)
    requires Alike(p, r)
    ensures CursorOf(p, r) == Filled(Columns(p.paths, r))
  {
    var a, b := CursorOf(p, r), Filled(Columns(p.paths, r));
    forall i | 0 <= i < |p.paths|
      ensures a[i] == b[i]
    {
      assert Columns(p.paths, r)[i] == SqlText(r.doc, p.paths[i]);
    }
  }

  /** What a page that ends on row l leads back to. */
  lemma RevisitsWhenMissing(p: Plan, l: Row, r: Row)
    requires Alike(p, l)
    ensures Revisits(p, l, r) <==> Regresses(Columns(p.paths, r), Columns(p.paths, l), p.descending)
  {
    RevisitsExactly(p, l, r);
    CursorIsFilled(p, l);
    GoesBackExactly(Columns(p.paths, r), Columns(p.paths, l), p.descending);
  }

  ghost predicate TableRegresses(p: Plan, table: Table, last: Row)
    requires ValidPlan(p)
  {
    exists x :: x in table && AllHold(p.preds, x.doc) && Regresses(Columns(p.paths, x), Columns(p.paths, last), p.descending)
  }

  /**
  Exactly when a page goes back: in ascending order, after a page that ends on a row with a missing sort field, if the
  table then holds a matching row that agrees with it before that field and is beyond the empty string from it on.
  */
  lemma GoesBackWhenMissing(p: Plan, tables: seq<Table>, pages: seq<Page>, i: nat)
    requires ValidPlan(p) && IsScan(p, tables, pages) && AllIdentified(tables) && i + 1 < |pages|
    requires forall r :: r in tables[i] ==> Alike(p, r)
    ensures Ends(pages, i)
    ensures GoesBack(p, pages, i) <==> TableRegresses(p, tables[i + 1], LastRow(pages[i]))
  {
    GoesBackIff(p, tables, pages, i);
    ScanIsScanned(p, tables, pages);
    EndOf(p, tables, pages, i);
    RegressesTogether(p, tables[i + 1], LastRow(pages[i]));
  }

  lemma RegressesTogether(p: Plan, table: Table, last: Row)
    requires ValidPlan(p) && Alike(p, last)
    ensures TableGoesBack(p, table, last) <==> TableRegresses(p, table, last)
  {
    if x :| x in table && AllHold(p.preds, x.doc) && Revisits(p, last, x) {
      RevisitsWhenMissing(p, last, x);
    }
    if x :| x in table && AllHold(p.preds, x.doc) && Regresses(Columns(p.paths, x), Columns(p.paths, last), p.descending) {
      RevisitsWhenMissing(p, last, x);
    }
  }

  /** Descending scans, and pages that end on a row with all its sort fields, never lead back where fields read alike. */
  lemma CompleteEndsLeadOn(p: Plan, table: Table, last: Row)
    requires ValidPlan(p) && Alike(p, last) && (p.descending || AllPresent(Columns(p.paths, last)))
    ensures !TableGoesBack(p, table, last)
  {
    RegressesTogether(p, table, last);
  }

  // ----- repeated ids -----

  lemma AlikeDoesNotJump(p: Plan, e: Row, f: Row)
    requires Alike(p, e) && !p.descending
    ensures !JumpsOver(p, e, f)
  {
    CursorIsFilled(p, e);
    if Before(p, e, f) && !Past(p, CursorAt(p.paths, e), f) {
      SkippedTies(Columns(p.paths, f), Columns(p.paths, e));
    }
  }

  lemma DescendingNeverGoesBack(p: Plan, table: Table, tables: seq<Table>, pages: seq<Page>)
    requires ValidPlan(p) && IsScan(p, tables, pages) && Presentable(p, table) && Quiet(table, tables) && p.descending
    ensures NeverGoesBack(p, pages)
  {
    QuietKeys(p, table, tables);
    forall i: nat | i + 1 < |pages|
      ensures !GoesBack(p, pages, i)
    {
      GoesBackWhenMissing(p, tables, pages, i);
    }
  }

  /** So on a table that does not change an id comes twice exactly when a page goes back. */
  lemma RepeatsWhenMissing(p: Plan, table: Table, tables: seq<Table>, pages: seq<Page>)
    requires ValidPlan(p) && IsScan(p, tables, pages) && Presentable(p, table) && Quiet(table, tables)
    ensures RepeatsAnId(Rows(pages, 0)) <==> !NeverGoesBack(p, pages)
  {
    QuietKeys(p, table, tables);
    if p.descending {
      DescendingNeverGoesBack(p, table, tables, pages);
      RepeatsOnlyIfGoesBack(p, tables, pages);
    } else {
      forall e, f | e in table && f in table && AllHold(p.preds, e.doc) && AllHold(p.preds, f.doc)
        ensures !JumpsOver(p, e, f)
      {
        AlikeDoesNotJump(p, e, f);
      }
      RepeatsIffGoesBack(p, table, tables, pages);
    }
  }

  // ----- it always ends -----

  /** The columns of row i that come before column c. */
  function Front(p: Plan, rows: seq<Row>, i: nat, c: nat): (xs: Cols)
    requires i < |rows| && c <= |p.paths| + 1
    ensures |xs| == c
  {
    Columns(p.paths, rows[i])[..c]
  }

  ghost predicate HasFront(p: Plan, rows: seq<Row>, i: nat, c: nat) {
    i < |rows| && c <= FirstMissing(Columns(p.paths, rows[i]))
  }

  lemma {:induction false} LessThanPrefix(descending: bool, xs: Cols, ys: Cols, c: nat)
    requires |xs| == |ys| && c <= |xs| && DirLeq(descending, xs, ys)
    ensures DirLeq(descending, xs[..c], ys[..c])
  {
    if c > 0 {
      TakeCons(xs, c);
      TakeCons(ys, c);
      if xs[0] == ys[0] {
        LessThanPrefix(descending, xs[1..], ys[1..], c - 1);
      }
      assert xs[..c][1..] == xs[1..][..c - 1] && ys[..c][1..] == ys[1..][..c - 1];
    }
  }

  /** One link of a chain: on columns both rows have, the next row is not before, and after if it has no more of them. */
  lemma LinkGoesUp(p: Plan, rows: seq<Row>, i: nat, c: nat)
    requires Linked(p, rows, i) && Alike(p, rows[i]) && HasFront(p, rows, i, c) && HasFront(p, rows, i + 1, c)
    ensures DirLeq(p.descending, Front(p, rows, i, c), Front(p, rows, i + 1, c))
    ensures c == FirstMissing(Columns(p.paths, rows[i + 1])) ==>
              DirLess(p.descending, Front(p, rows, i, c), Front(p, rows, i + 1, c))
  {
    var l, r := rows[i], rows[i + 1];
    var k := FirstMissing(Columns(p.paths, r));
    var cursor, cols := CursorOf(p, l), Columns(p.paths, r);
    PastExactly(p, l, r);
    CursorIsFilled(p, l);
    LessThanPrefix(p.descending, cursor[..k], cols[..k], c);
    assert cursor[..k][..c] == cursor[..c] && cols[..k][..c] == cols[..c];
    assert cursor[..c] == Front(p, rows, i, c);
  }

  /** The fronts of all the rows. */
  function Fronts(p: Plan, rows: seq<Row>, c: nat): (fs: seq<Cols>)
    requires c <= |p.paths| + 1
    ensures |fs| == |rows| && forall i :: 0 <= i < |rows| ==> fs[i] == Front(p, rows, i, c)
  {
    seq(|rows|, i requires 0 <= i < |rows| => Front(p, rows, i, c))
  }

  predicate RisesAt(descending: bool, fs: seq<Cols>, k: nat) {
    k + 1 < |fs| && |fs[k]| == |fs[k + 1]| && DirLeq(descending, fs[k], fs[k + 1])
  }

  lemma {:induction false} RisesThrough(descending: bool, fs: seq<Cols>, i: nat, j: nat)
    requires i <= j < |fs| && forall k: nat :: i <= k < j ==> RisesAt(descending, fs, k)
    ensures |fs[i]| == |fs[j]| && DirLeq(descending, fs[i], fs[j])
  {
    if i == j {
      ColsTotal(fs[i], fs[i]);
    } else {
      assert RisesAt(descending, fs, j - 1);
      RisesThrough(descending, fs, i, j - 1);
      DirTransitive(descending, fs[i], fs[j - 1], fs[j]);
    }
  }

  lemma ChainRises(p: Plan, table: Table, rows: seq<Row>, c: nat, k: nat)
    requires Presentable(p, table) && Chained(p, table, rows) && k + 1 < |rows|
    requires HasFront(p, rows, k, c) && HasFront(p, rows, k + 1, c)
    ensures c <= |p.paths| + 1 && RisesAt(p.descending, Fronts(p, rows, c), k)
  {
    assert Linked(p, rows, k);
    LinkGoesUp(p, rows, k, c);
  }

  /** Of the rows after i up to j, one that has the fewest columns. */
  lemma {:induction false} FewestColumns(p: Plan, rows: seq<Row>, i: nat, j: nat) returns (m: nat)
    requires i < j < |rows|
    ensures i < m <= j
    ensures forall k: nat :: i < k <= j ==> HasFront(p, rows, k, FirstMissing(Columns(p.paths, rows[m])))
  {
    m := j;
    if i + 1 < j {
      var n := FewestColumns(p, rows, i, j - 1);
      if FirstMissing(Columns(p.paths, rows[n])) <= FirstMissing(Columns(p.paths, rows[j])) {
        m := n;
      }
      forall k: nat | i < k <= j
        ensures HasFront(p, rows, k, FirstMissing(Columns(p.paths, rows[m])))
      {
        assert k < j ==> HasFront(p, rows, k, FirstMissing(Columns(p.paths, rows[n])));
      }
    }
  }

  lemma NoWayBack(descending: bool, fs: seq<Cols>, i: nat, m: nat, j: nat)
    requires i < m <= j < |fs| && forall k: nat :: i <= k < j ==> RisesAt(descending, fs, k)
    requires |fs[m - 1]| == |fs[m]| && DirLess(descending, fs[m - 1], fs[m])
    ensures fs[i] != fs[j]
  {
    RisesThrough(descending, fs, i, m - 1);
    RisesThrough(descending, fs, m, j);
    DirTransitive(descending, fs[i], fs[m - 1], fs[m]);
    DirTransitive(descending, fs[i], fs[m], fs[j]);
  }

  /** A chain never comes back to where it was: the row with the fewest columns would have to come after itself. */
  lemma ChainsDoNotComeBack(p: Plan, table: Table, rows: seq<Row>, i: nat, j: nat)
    requires Presentable(p, table) && Chained(p, table, rows) && i < j < |rows|
    ensures rows[i] != rows[j]
  {
    if rows[i] == rows[j] {
      var m := FewestColumns(p, rows, i, j);
      var c := FirstMissing(Columns(p.paths, rows[m]));
      assert HasFront(p, rows, j, c);
      forall k: nat | i <= k <= j
        ensures HasFront(p, rows, k, c)
      {
        assert k > i ==> HasFront(p, rows, k, c);
      }
      var fs := Fronts(p, rows, c);
      forall k: nat | i <= k < j
        ensures RisesAt(p.descending, fs, k)
      {
        ChainRises(p, table, rows, c, k);
      }
      assert Linked(p, rows, m - 1);
      LinkGoesUp(p, rows, m - 1, c);
      NoWayBack(p.descending, fs, i, m, j);
    }
  }

  /** A scan of an unchanged table ends whatever fields are missing, after at most one page more than there are rows. */
  lemma QuietScanEnds(p: Plan, table: Table) returns (pages: seq<Page>)
    requires ValidPlan(p) && Presentable(p, table)
    ensures IsScan(p, Copies(table, |pages|), pages) && |pages| <= |table| + 1
  {
    if i: nat, j: nat :| SameCursor(Reader(p, table), i, j) {
      var rows := CursorTwiceChainsBack(p, table, i, j);
      ChainsDoNotComeBack(p, table, rows, i, j);
    }
    QuietScanEndsIff(p, table);
    var n: nat :| n <= |table| && EndsAt(Reader(p, table), n);
    FollowingIsScanning(p, table, n);
    pages := Followed(Reader(p, table), n);
  }

  // ----- two scans -----

  const KEYED := Row("1", Object(map["a" := Scalar("x", "x")], "", ""))
  const UNKEYED := Row("2", Object(map[], "", ""))
  const UNKEYED_TOO := Row("3", Object(map[], "", ""))

  function ByA(limit: nat): Plan {
    Plan([], [["a"]], false, limit)
  }

  lemma ExampleColumns()
    ensures Columns([["a"]], KEYED) == [Some("x"), Some("1")]
    ensures Columns([["a"]], UNKEYED) == [None, Some("2")]
    ensures Columns([["a"]], UNKEYED_TOO) == [None, Some("3")]
    ensures CursorAt([["a"]], KEYED) == Cursor(["x"], "1") && CursorCols(Cursor(["x"], "1")) == [Some("x"), Some("1")]
    ensures CursorAt([["a"]], UNKEYED) == Cursor([""], "2") && CursorCols(Cursor([""], "2")) == [Some(""), Some("2")]
  {
    assert Resolve(KEYED.doc, ["a"]) == Scalar("x", "x");
    assert Resolve(UNKEYED.doc, ["a"]) == Null && Resolve(UNKEYED_TOO.doc, ["a"]) == Null;
    assert SortKeysOf(KEYED.doc, [["a"]]) == ["x"] && SortKeysOf(UNKEYED.doc, [["a"]]) == [""];
  }

  lemma ExamplePicked(limit: nat)
    requires limit >= 1
    ensures Picked(ByA(limit), None, [KEYED, UNKEYED]) == [KEYED, UNKEYED]
    ensures Picked(ByA(limit), None, [KEYED, UNKEYED, UNKEYED_TOO]) == [KEYED, UNKEYED, UNKEYED_TOO]
  {
    var two, three := [KEYED, UNKEYED], [KEYED, UNKEYED, UNKEYED_TOO];
    var p := ByA(limit);
    assert [KEYED][..0] == [] && two[..1] == [KEYED] && three[..2] == two;
    assert Picked(p, None, [KEYED]) == [KEYED];
    assert Picked(p, None, two) == two;
  }

  lemma ExampleOrder(limit: nat)
    requires limit >= 1
    ensures Ranked(ByA(limit), None, [KEYED, UNKEYED]) == [KEYED, UNKEYED]
    ensures Ranked(ByA(limit), None, [KEYED, UNKEYED, UNKEYED_TOO]) == [KEYED, UNKEYED, UNKEYED_TOO]
  {
    ExamplePicked(limit);
    ExampleSorted(limit);
  }

  lemma ExampleSorted(limit: nat)
    ensures var leq := RowOrder(ByA(limit).paths, false);
            && StableSort(leq, [KEYED, UNKEYED]) == [KEYED, UNKEYED]
            && StableSort(leq, [KEYED, UNKEYED, UNKEYED_TOO]) == [KEYED, UNKEYED, UNKEYED_TOO]
  {
    ExampleColumns();
    var two, three := [KEYED, UNKEYED], [KEYED, UNKEYED, UNKEYED_TOO];
    var p := ByA(limit);
    var leq := RowOrder(p.paths, false);
    assert leq(KEYED, UNKEYED);
    assert StrLeq("2", "3");
    assert Columns(p.paths, UNKEYED)[1..] == [Some("2")] && Columns(p.paths, UNKEYED_TOO)[1..] == [Some("3")];
    assert ColsLeq([Some("2")], [Some("3")]);
    assert leq(UNKEYED, UNKEYED_TOO);
    assert two[1..] == [UNKEYED] && [UNKEYED][1..] == [] && three[1..] == [UNKEYED, UNKEYED_TOO];
    assert [UNKEYED, UNKEYED_TOO][1..] == [UNKEYED_TOO] && [UNKEYED_TOO][1..] == [];
    assert StableSort(leq, [UNKEYED]) == [UNKEYED];
    assert StableSort(leq, two) == two;
    assert StableSort(leq, [UNKEYED_TOO]) == [UNKEYED_TOO];
    assert StableSort(leq, [UNKEYED, UNKEYED_TOO]) == [UNKEYED, UNKEYED_TOO];
  }

  lemma SortSingle<T>(leq: (T, T) -> bool, x: T)
    ensures StableSort(leq, [x]) == [x]
  {
    assert [x][1..] == [];
  }

  /** After row 1 nothing is selected: row 1 is not beyond itself, and the others have no key. */
  lemma AfterKeyed()
    ensures PageOf(ByA(1), Some(Cursor(["x"], "1")), [KEYED, UNKEYED]) == Page([], None, false)
  {
    var table, p, c := [KEYED, UNKEYED], ByA(1), Cursor(["x"], "1");
    ExampleColumns();
    assert [KEYED][..0] == [] && table[..1] == [KEYED];
    assert EvalBeyond([Some("1")], [Some("1")], false) == False;
    assert !Past(p, c, KEYED) && !Past(p, c, UNKEYED);
    assert Picked(p, Some(c), [KEYED]) == [];
    assert Picked(p, Some(c), table) == [];
  }

  /** After row 2, whose missing key is written as the empty string, row 1 is selected again. */
  lemma AfterUnkeyed()
    ensures PageOf(ByA(2), Some(Cursor([""], "2")), [KEYED, UNKEYED, UNKEYED_TOO]) == Page([KEYED], None, false)
  {
    var table, p, c := [KEYED, UNKEYED, UNKEYED_TOO], ByA(2), Cursor([""], "2");
    ExampleColumns();
    assert table[..2] == [KEYED, UNKEYED] && [KEYED, UNKEYED][..1] == [KEYED] && [KEYED][..0] == [];
    assert StrLess("", "x");
    assert Past(p, c, KEYED) && !Past(p, c, UNKEYED) && !Past(p, c, UNKEYED_TOO);
    assert Picked(p, Some(c), [KEYED]) == [KEYED];
    assert Picked(p, Some(c), [KEYED, UNKEYED]) == [KEYED];
    assert Picked(p, Some(c), table) == [KEYED];
    SortSingle(RowOrder(p.paths, p.descending), KEYED);
  }

  lemma FirstKeyed()
    ensures PageOf(ByA(1), None, [KEYED, UNKEYED]) == Page([KEYED], Some(Cursor(["x"], "1")), true)
  {
    ExampleOrder(1);
    ExampleColumns();
    assert [KEYED, UNKEYED][..1] == [KEYED];
  }

  lemma FirstTwo()
    ensures PageOf(ByA(2), None, [KEYED, UNKEYED, UNKEYED_TOO]) == Page([KEYED, UNKEYED], Some(Cursor([""], "2")), true)
  {
    ExampleOrder(2);
    ExampleColumns();
    assert [KEYED, UNKEYED, UNKEYED_TOO][..2] == [KEYED, UNKEYED];
  }

  lemma TwoPageRows(a: Page, b: Page)
    ensures Rows([a, b], 0) == a.rows + b.rows
  {
    assert Rows([a, b], 2) == [];
    assert Rows([a, b], 1) == b.rows + [];
  }

  /** Two rows, the second without the sort field, read one at a time: the second is never seen. */
  lemma NullRowIsLost()
    ensures var table := [KEYED, UNKEYED];
            var pages := [Page([KEYED], Some(Cursor(["x"], "1")), true), Page([], None, false)];
            && IsScan(ByA(1), [table, table], pages) && Wanted(ByA(1), None, UNKEYED)
            && Rows(pages, 0) == [KEYED]
  {
    FirstKeyed();
    AfterKeyed();
    TwoPageRows(Page([KEYED], Some(Cursor(["x"], "1")), true), Page([], None, false));
  }

  /** Three rows, two of them without the sort field, read two at a time: the first comes twice and the third never. */
  lemma NullKeyRepeats()
    ensures var table := [KEYED, UNKEYED, UNKEYED_TOO];
            var pages := [Page([KEYED, UNKEYED], Some(Cursor([""], "2")), true), Page([KEYED], None, false)];
            && IsScan(ByA(2), [table, table], pages)
            && Rows(pages, 0) == [KEYED, UNKEYED, KEYED]
  {
    FirstTwo();
    AfterUnkeyed();
    TwoPageRows(Page([KEYED, UNKEYED], Some(Cursor([""], "2")), true), Page([KEYED], None, false));
  }
}

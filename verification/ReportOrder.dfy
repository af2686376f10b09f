/** The order of rendered rows, told by their cells: `UpdateTable` and `Render` of pkg/reporter/forrmatted.go. */
module ReportOrder {
  import opened Optional
  import opened SortKeys
  import opened Reporter

  /** The columns asked for, all of them from the left when none are. */
  function Asked(orderBy: seq<nat>, width: nat): seq<nat> {
    if orderBy == [] then seq(width, i requires 0 <= i < width => i) else orderBy
  }

  /** The rows agree in the columns `cols[i..j]`, those that do not exist left out. */
  predicate Agree(a: Row, b: Row, cols: seq<nat>, i: nat, j: nat, width: nat)
    requires j <= |cols| && width <= |a| && width <= |b|
  {
    forall p | i <= p < j && cols[p] < width :: a[cols[p]] == b[cols[p]]
  }

  /** In the first column of `cols[i..]` where the rows differ, `a` has the lesser cell. */
  predicate CellsLe(a: Row, b: Row, cols: seq<nat>, i: nat, width: nat)
    requires width <= |a| && width <= |b|
  {
    forall p | i <= p < |cols| && cols[p] < width && Agree(a, b, cols, i, p, width) :: Le(a[cols[p]], b[cols[p]])
  }

  // ----- from tuples to cells -----

  lemma {:induction false} ExistingAll(n: nat, orderBy: seq<nat>, i: nat)
    requires i <= |orderBy| && forall p | 0 <= p < |orderBy| :: orderBy[p] < n
    ensures Existing(n, orderBy, i) == orderBy[i..]
    decreases |orderBy| - i
  {
    if i < |orderBy| {
      ExistingAll(n, orderBy, i + 1);
      assert orderBy[i..] == [orderBy[i]] + orderBy[i + 1..];
    }
  }

  lemma OrderIsAsked(n: nat, orderBy: seq<nat>)
    ensures OrderColumns(n, orderBy) == Existing(n, Asked(orderBy, n), 0)
  {
    var all := Asked([], n);
    ExistingAll(n, all, 0);
    assert all[0..] == all;
  }

  lemma {:induction false} TupleShift(row: Row, x: seq<nat>, cols: seq<nat>, i: nat)
    ensures TupleOf(row, x + cols, |x| + i) == TupleOf(row, cols, i)
    decreases |cols| - i
  {
    if i < |cols| {
      TupleShift(row, x, cols, i + 1);
    }
  }

  /** The cells of the existing columns from `cols[i]` on. */
  function CellsOf(row: Row, width: nat, cols: seq<nat>, i: nat): seq<string> {
    TupleOf(row, Existing(width, cols, i), 0)
  }

  lemma CellsStep(row: Row, width: nat, cols: seq<nat>, i: nat)
    requires i < |cols| && width <= |row|
    ensures CellsOf(row, width, cols, i)
            == (if cols[i] < width then [row[cols[i]]] else []) + CellsOf(row, width, cols, i + 1)
  {
    var rest := Existing(width, cols, i + 1);
    if cols[i] < width {
      assert Existing(width, cols, i) == [cols[i]] + rest;
      TupleShift(row, [cols[i]], rest, 0);
      assert TupleOf(row, [cols[i]] + rest, 0) == [row[cols[i]]] + TupleOf(row, [cols[i]] + rest, 1);
    } else {
      assert [] + rest == rest;
    }
  }

  lemma AgreeStep(a: Row, b: Row, cols: seq<nat>, i: nat, j: nat, width: nat)
    requires i < j <= |cols| && width <= |a| && width <= |b|
    ensures Agree(a, b, cols, i, j, width) <==>
              (cols[i] < width ==> a[cols[i]] == b[cols[i]]) && Agree(a, b, cols, i + 1, j, width)
  {
  }

  lemma CellsLeStep(a: Row, b: Row, cols: seq<nat>, i: nat, width: nat)
    requires i < |cols| && width <= |a| && width <= |b|
    ensures CellsLe(a, b, cols, i, width) <==>
              if cols[i] < width && a[cols[i]] != b[cols[i]] then Le(a[cols[i]], b[cols[i]])
              else CellsLe(a, b, cols, i + 1, width)
  {
    hide Le, Agree;
    assert Agree(a, b, cols, i, i, width) by { AgreeNothing(a, b, cols, i, width); }
    forall p | i < p <= |cols|
      ensures Agree(a, b, cols, i, p, width) <==>
                (cols[i] < width ==> a[cols[i]] == b[cols[i]]) && Agree(a, b, cols, i + 1, p, width)
    {
      AgreeStep(a, b, cols, i, p, width);
    }
    if cols[i] < width {
      Reflexive(a[cols[i]]);
    }
  }

  lemma AgreeNothing(a: Row, b: Row, cols: seq<nat>, i: nat, width: nat)
    requires i <= |cols| && width <= |a| && width <= |b|
    ensures Agree(a, b, cols, i, i, width)
  {
  }

  lemma {:induction false} TupleLeIff(a: Row, b: Row, cols: seq<nat>, i: nat, width: nat)
    requires i <= |cols| && width <= |a| && width <= |b|
    ensures TupleLe(CellsOf(a, width, cols, i), CellsOf(b, width, cols, i)) <==> CellsLe(a, b, cols, i, width)
    ensures CellsOf(a, width, cols, i) == CellsOf(b, width, cols, i) <==> Agree(a, b, cols, i, |cols|, width)
    decreases |cols| - i
  {
    if i < |cols| {
      hide Le, CellsOf, CellsLe, Agree;
      TupleLeIff(a, b, cols, i + 1, width);
      CellsStep(a, width, cols, i);
      CellsStep(b, width, cols, i);
      AgreeStep(a, b, cols, i, |cols|, width);
      CellsLeStep(a, b, cols, i, width);
      TupleCons(a, b, cols, i, width);
    } else {
      assert Existing(width, cols, i) == [];
    }
  }

  lemma TupleCons(a: Row, b: Row, cols: seq<nat>, i: nat, width: nat)
    requires i < |cols| && width <= |a| && width <= |b|
    ensures cols[i] < width ==>
              var x, y := a[cols[i]], b[cols[i]];
              var s, t := CellsOf(a, width, cols, i + 1), CellsOf(b, width, cols, i + 1);
              && (TupleLe([x] + s, [y] + t) <==> if x == y then TupleLe(s, t) else Le(x, y))
              && ([x] + s == [y] + t <==> x == y && s == t)
    ensures forall s: seq<string> {:trigger [] + s} :: [] + s == s
  {
    hide Le, CellsOf;
    if cols[i] < width {
      var x, y := a[cols[i]], b[cols[i]];
      var s, t := CellsOf(a, width, cols, i + 1), CellsOf(b, width, cols, i + 1);
      assert ([x] + s)[1..] == s && ([y] + t)[1..] == t;
      assert ([x] + s)[0] == x && ([y] + t)[0] == y;
    }
  }

  // ----- what a report holds -----

  /** All updates of a report have as many columns, their rows reach over them, and the cells to order by hold no
      NUL. */
  predicate Regular(c: Config, us: seq<Update>, width: nat) {
    forall u | u in us :: |u.columns| == width && forall row | row in u.data :: Readable(row, Asked(c.orderBy, width), width)
  }

  predicate Readable(row: Row, cols: seq<nat>, width: nat) {
    |row| >= width && forall p | 0 <= p < |cols| && cols[p] < width :: NUL !in row[cols[p]]
  }

  lemma {:induction false} CellsReadable(row: Row, width: nat, cols: seq<nat>, i: nat)
    requires i <= |cols| && Readable(row, cols, width)
    ensures NulFree(CellsOf(row, width, cols, i))
    decreases |cols| - i
  {
    if i < |cols| {
      hide CellsOf;
      CellsReadable(row, width, cols, i + 1);
      CellsStep(row, width, cols, i);
    }
  }

  predicate Good(it: Item, cols: seq<nat>, width: nat) {
    Readable(it.row, cols, width) && it.tuple == CellsOf(it.row, width, cols, 0)
  }

  predicate AllGood(items: seq<Item>, cols: seq<nat>, width: nat) {
    forall i | 0 <= i < |items| :: Good(items[i], cols, width)
  }

  lemma GoodItems(c: Config, u: Update, width: nat)
    requires |u.columns| == width && forall row | row in u.data :: Readable(row, Asked(c.orderBy, width), width)
    ensures AllGood(Items(c, u), Asked(c.orderBy, width), width)
  {
    hide Readable;
    OrderIsAsked(width, c.orderBy);
    forall i | 0 <= i < |u.data| ensures Good(Items(c, u)[i], Asked(c.orderBy, width), width) {
      assert u.data[i] in u.data;
    }
  }

  lemma {:induction false} GoodKept(c: Config, us: seq<Update>, width: nat, n: nat)
    requires n <= |us| && Regular(c, us, width)
    ensures AllGood(Kept(c, us, n), Asked(c.orderBy, width), width)
    ensures n > 0 ==> |Columns(us, n)| == width
    ensures width > 0 ==> Kept(c, us, n) == Supplied(c, us, n)
  {
    if n > 0 {
      hide Good, Readable, Items, Asked;
      GoodKept(c, us, width, n - 1);
      assert us[n - 1] in us;
      GoodItems(c, us[n - 1], width);
    }
  }

  // ----- cut rows -----

  function Cut(rows: seq<Row>, width: nat): (cut: seq<Row>)
    requires forall i | 0 <= i < |rows| :: |rows[i]| >= width
  {
    seq(|rows|, i requires 0 <= i < |rows| => rows[i][..width])
  }

  lemma CutSame(a: Row, b: Row, cols: seq<nat>, width: nat)
    requires width <= |a| && width <= |b|
    ensures CellsLe(a[..width], b[..width], cols, 0, width) <==> CellsLe(a, b, cols, 0, width)
    ensures Agree(a[..width], b[..width], cols, 0, |cols|, width) <==> Agree(a, b, cols, 0, |cols|, width)
  {
    hide Le;
    forall p | 0 <= p <= |cols| ensures Agree(a[..width], b[..width], cols, 0, p, width) <==> Agree(a, b, cols, 0, p, width) {
      AgreeCut(a, b, cols, p, width);
    }
  }

  lemma AgreeCut(a: Row, b: Row, cols: seq<nat>, p: nat, width: nat)
    requires width <= |a| && width <= |b| && p <= |cols|
    ensures Agree(a[..width], b[..width], cols, 0, p, width) <==> Agree(a, b, cols, 0, p, width)
  {
  }

  predicate Alike(a: Row, x: Row, cols: seq<nat>, width: nat) {
    |a| >= width && |x| >= width && Agree(a, x, cols, 0, |cols|, width)
  }

  /** The rows that have the same cells to order by as `x`, in order. */
  function Like(rows: seq<Row>, x: Row, cols: seq<nat>, width: nat, n: nat): seq<Row>
    requires n <= |rows|
  {
    if n == 0 then []
    else Like(rows, x, cols, width, n - 1) + if Alike(rows[n - 1], x, cols, width) then [rows[n - 1]] else []
  }

  lemma AlikeKey(it: Item, x: Row, cols: seq<nat>, width: nat)
    requires Good(it, cols, width) && Readable(x, cols, width)
    ensures Alike(it.row[..width], x, cols, width) <==> KeyOf(it) == Encode(CellsOf(x, width, cols, 0))
  {
    hide Encode, CellsOf, Agree, Readable;
    assert |it.row| >= width && |x| >= width by { Reaches(it.row, cols, width); Reaches(x, cols, width); }
    CellsReadable(it.row, width, cols, 0);
    CellsReadable(x, width, cols, 0);
    EncodeInjective(it.tuple, CellsOf(x, width, cols, 0));
    TupleLeIff(it.row, x, cols, 0, width);
    CutSame(it.row, x, cols, width);
    assert Agree(it.row[..width], x, cols, 0, |cols|, width) <==> Agree(it.row[..width], x[..width], cols, 0, |cols|, width)
    by {
      HalfCut(it.row[..width], x, cols, width);
    }
  }

  lemma Reaches(row: Row, cols: seq<nat>, width: nat)
    requires Readable(row, cols, width)
    ensures |row| >= width
  {
  }

  lemma HalfCut(a: Row, x: Row, cols: seq<nat>, width: nat)
    requires width <= |a| && width <= |x|
    ensures Agree(a, x, cols, 0, |cols|, width) <==> Agree(a, x[..width], cols, 0, |cols|, width)
  {
  }

  lemma Fitting(items: seq<Item>, cols: seq<nat>, width: nat)
    requires AllGood(items, cols, width)
    ensures forall i | 0 <= i < |items| :: |items[i].row| >= width
    ensures RowsOf(items) == seq(|items|, i requires 0 <= i < |items| => items[i].row)
  {
    hide CellsOf;
  }

  function CutItems(items: seq<Item>, width: nat): seq<Row> {
    Project(RowsOf(items), width)
  }

  lemma {:induction false} LikeIsAt(items: seq<Item>, x: Row, cols: seq<nat>, width: nat, n: nat)
    requires n <= |items| && AllGood(items, cols, width) && Readable(x, cols, width)
    ensures Like(CutItems(items, width), x, cols, width, n)
            == CutItems(ItemsAt(items, Encode(CellsOf(x, width, cols, 0)), n), width)
  {
    hide KeyOf, Good, Readable, CellsOf, Encode, Alike;
    if n > 0 {
      var k := Encode(CellsOf(x, width, cols, 0));
      var it := items[n - 1];
      assert Good(it, cols, width);
      LikeIsAt(items, x, cols, width, n - 1);
      AlikeKey(it, x, cols, width);
      assert |it.row| >= width by { GoodReaches(it, cols, width); }
      assert CutItems(items, width)[n - 1] == it.row[..width];
      OneMore(ItemsAt(items, k, n - 1), it, width);
    }
  }

  lemma GoodReaches(it: Item, cols: seq<nat>, width: nat)
    requires Good(it, cols, width)
    ensures |it.row| >= width
  {
  }

  lemma OneMore(items: seq<Item>, it: Item, width: nat)
    requires |it.row| >= width
    ensures CutItems(items + [it], width) == CutItems(items, width) + [it.row[..width]]
    ensures CutItems(items + [], width) == CutItems(items, width) + []
  {
    assert items + [] == items;
  }

  // ----- results -----

  /** A report has just been prepared. */
  predicate Fresh(s: State) {
    !s.panicked && s.columns == [] && s.table == map[] && s.written == []
  }

  /** The state once some updates have been made and rendered. */
  ghost function After(c: Config, s: State, us: seq<Update>): State {
    Do(c, Updates(c, s, us, |us|), Render)
  }

  lemma GoodSorted(items: seq<Item>, cols: seq<nat>, width: nat)
    requires AllGood(items, cols, width)
    ensures AllGood(SortedItems(items), cols, width)
  {
    hide SortedItems, Good;
    var out := SortedItems(items);
    SortedSame(items);
    forall i | 0 <= i < |out| ensures Good(out[i], cols, width) {
      assert out[i] in multiset(out);
      assert out[i] in items;
    }
  }

  /** What is rendered are the kept items in their order, cut. */
  lemma Written(c: Config, s: State, us: seq<Update>, width: nat)
    requires Fresh(s) && Regular(c, us, width)
    ensures var t := After(c, s, us);
            && !t.panicked && t.written == CutItems(SortedItems(Kept(c, us, |us|)), width)
            && t.emitted == s.emitted + (if t.written == [] && !c.zip then [] else [Emission(s.title, t.written)])
  {
    hide Asked, Readable, SortedItems, CellsOf, Kept, Updates, Do;
    var r := Report(s.title, us);
    UpdatesState(c, s, us, |us|);
    GoodKept(c, us, width, |us|);
    var kept := Kept(c, us, |us|);
    if us == [] {
      assert kept == [] by { NothingKept(c); }
      SortedNothing();
    } else {
      forall it | it in kept ensures |it.row| >= width {
        Fitting(kept, Asked(c.orderBy, width), width);
      }
    }
    assert Fits(c, r) by {
      if us == [] {
        assert kept == [];
      }
    }
    RenderReport(c, Updates(c, s, us, |us|), r);
  }

  lemma NothingKept(c: Config)
    ensures Kept(c, [], 0) == []
  {
  }

  lemma SortedNothing()
    ensures SortedItems([]) == []
  {
    SortedSame([]);
    assert |multiset(SortedItems([]))| == |SortedItems([])|;
  }

  /** The rendered rows come in the order of the columns that were asked for, all columns from the left when none were:
      of two rows the earlier one has the lesser cell in the first of these columns in which they differ. */
  lemma RowsInOrder(c: Config, s: State, us: seq<Update>, width: nat, i: nat, j: nat)
    requires Fresh(s) && Regular(c, us, width) && i < j < |After(c, s, us).written|
    ensures var rows, cols := After(c, s, us).written, Asked(c.orderBy, width);
            |rows[i]| == |rows[j]| == width && CellsLe(rows[i], rows[j], cols, 0, width)
  {
    hide Asked, Readable, SortedItems, CellsOf, Kept, Updates, Do, CellsLe, TupleLe, Agree, Encode, At;
    Written(c, s, us, width);
    GoodKept(c, us, width, |us|);
    var cols, kept := Asked(c.orderBy, width), Kept(c, us, |us|);
    var out := SortedItems(kept);
    GoodSorted(kept, cols, width);
    forall it | it in kept ensures NulFree(it.tuple) {
      var m :| 0 <= m < |kept| && kept[m] == it;
      assert Good(it, cols, width);
      CellsReadable(it.row, width, cols, 0);
    }
    RenderedOrder(kept);
    assert Good(out[i], cols, width) && Good(out[j], cols, width);
    Reaches(out[i].row, cols, width);
    Reaches(out[j].row, cols, width);
    TupleLeIff(out[i].row, out[j].row, cols, 0, width);
    CutSame(out[i].row, out[j].row, cols, width);
  }

  /** Rows that agree in all of these columns come in the order in which they were supplied, and when the report has
      columns all supplied rows come, each as often as it was supplied, cut to the columns. */
  lemma TiesInOrder(c: Config, s: State, us: seq<Update>, width: nat, x: Row)
    requires Fresh(s) && Regular(c, us, width) && width > 0
    requires Readable(x, Asked(c.orderBy, width), width)
    ensures forall i | 0 <= i < |DataOf(us, |us|)| :: |DataOf(us, |us|)[i]| >= width
    ensures var rows, cols, data := After(c, s, us).written, Asked(c.orderBy, width), Cut(DataOf(us, |us|), width);
            && Like(rows, x, cols, width, |rows|) == Like(data, x, cols, width, |data|)
            && multiset(rows) == multiset(data)
  {
    hide Asked, Readable, SortedItems, CellsOf, Kept, Updates, Do, Like, Encode, ItemsAt, Supplied, DataOf;
    Written(c, s, us, width);
    GoodKept(c, us, width, |us|);
    var cols, kept := Asked(c.orderBy, width), Kept(c, us, |us|);
    GoodSorted(kept, cols, width);
    SuppliedData(c, us, |us|);
    Fitting(kept, cols, width);
    assert CutItems(kept, width) == Cut(DataOf(us, |us|), width);
    var out, k := SortedItems(kept), Encode(CellsOf(x, width, cols, 0));
    LikeIsAt(out, x, cols, width, |out|);
    LikeIsAt(kept, x, cols, width, |kept|);
    SortedStable(kept, k);
    SortedSame(kept);
    SameRows(out, kept);
    ProjectSame(RowsOf(out), RowsOf(kept), width);
  }

  // ----- which reports are rendered -----

  lemma KeptHas(items: seq<Item>, it: Item)
    requires it in items
    ensures KeyOf(it) in Grouped(items) && it.row in Grouped(items)[KeyOf(it)]
  {
    hide KeyOf, AddAll, ItemsAt;
    var k := KeyOf(it);
    GroupedAt(items, k);
    AtKey(items, k);
    assert multiset(At(items, k))[it] == multiset(items)[it] > 0;
    assert it in multiset(At(items, k));
    var i :| 0 <= i < |At(items, k)| && At(items, k)[i] == it;
    assert RowsOf(At(items, k))[i] == it.row;
  }

  /** The program stops in `Render` exactly when a row that was kept is shorter than the columns. */
  lemma StopsIff(c: Config, s: State, us: seq<Update>)
    requires Fresh(s)
    ensures After(c, s, us).panicked <==> exists it | it in Kept(c, us, |us|) :: |it.row| < |Columns(us, |us|)|
  {
    hide Kept, Columns, Updates, Sorted, Flatten, Grouped, KeyOf;
    UpdatesState(c, s, us, |us|);
    var kept, width := Kept(c, us, |us|), |Columns(us, |us|)|;
    if it :| it in kept && |it.row| < width {
      KeptHas(kept, it);
      var k := KeyOf(it);
      assert !WideAt(Grouped(kept), k, width) by {
        var i :| 0 <= i < |Grouped(kept)[k]| && Grouped(kept)[k][i] == it.row;
        assert Got(Grouped(kept), k)[i] == it.row;
      }
    } else {
      GroupedWide(kept, width);
    }
  }

  /** The columns of a report are the first that are not empty. */
  lemma {:induction false} ColumnsAre(us: seq<Update>, n: nat)
    requires n <= |us|
    ensures Columns(us, n) == [] ==> forall i | 0 <= i < n :: us[i].columns == []
    ensures Columns(us, n) != [] ==>
              exists i | 0 <= i < n :: us[i].columns == Columns(us, n) && forall j | 0 <= j < i :: us[j].columns == []
  {
    if n > 0 {
      ColumnsAre(us, n - 1);
    }
  }

  predicate Rising(ns: seq<nat>) {
    forall a, b | 0 <= a < b < |ns| :: ns[a] < ns[b]
  }

  /** The emissions are those of the reports `ns`, in order; these are the ones among the first `n` that have rows, in a
      zip file all of them. */
  ghost predicate OfReports(c: Config, rs: seq<Report>, n: nat, es: seq<Emission>, ns: seq<nat>)
    requires n <= |rs|
  {
    && Rising(ns) && |ns| == |es|
    && (forall a | 0 <= a < |ns| :: ns[a] < n && es[a] == Emission(rs[ns[a]].title, RowsFor(c, rs[ns[a]])))
    && (forall i: nat | i < n :: i in ns <==> c.zip || RowsFor(c, rs[i]) != [])
  }

  lemma OneReport(c: Config, rs: seq<Report>, n: nat, es: seq<Emission>, ns: seq<nat>)
    requires n < |rs| && OfReports(c, rs, n, es, ns)
    ensures var e := Emission(rs[n].title, RowsFor(c, rs[n]));
            if c.zip || RowsFor(c, rs[n]) != [] then OfReports(c, rs, n + 1, es + [e], ns + [n])
            else OfReports(c, rs, n + 1, es, ns)
  {
    hide RowsFor;
    assert n !in ns;
    assert (ns + [n])[|ns|] == n;
  }

  /** Of a run of reports those with rows are emitted, in a zip file all of them, each once and in order, under their
      titles. */
  lemma {:induction false} EmissionsAre(c: Config, rs: seq<Report>, n: nat) returns (ns: seq<nat>)
    requires n <= |rs|
    ensures OfReports(c, rs, n, Emissions(c, rs, n), ns)
  {
    hide RowsFor, OfReports;
    if n == 0 {
      ns := [];
      assert OfReports(c, rs, 0, [], []) by { NoReport(c, rs); }
    } else {
      var before := EmissionsAre(c, rs, n - 1);
      OneReport(c, rs, n - 1, Emissions(c, rs, n - 1), before);
      ns := if c.zip || RowsFor(c, rs[n - 1]) != [] then before + [n - 1] else before;
      assert Emissions(c, rs, n - 1) + [] == Emissions(c, rs, n - 1);
    }
  }

  lemma NoReport(c: Config, rs: seq<Report>)
    ensures OfReports(c, rs, 0, [], [])
  {
  }
}

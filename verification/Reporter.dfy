/** Collecting and rendering report rows: `Prepare`, `UpdateTable` and the rows of `Render` in
    pkg/reporter/forrmatted.go. */
module Reporter {
  import opened SortKeys
  import opened Optional

  type Row = seq<string>

  /** A row with the cells of its ordering columns. */
  datatype Item = Item(tuple: seq<string>, row: Row)

  function KeyOf(it: Item): string {
    Encode(it.tuple)
  }

  // ----- ordering columns -----

  /** The columns to order by: those asked for that exist, or all. */
  function OrderColumns(n: nat, orderBy: seq<nat>): seq<nat> {
    if |orderBy| == 0 then seq(n, i requires 0 <= i < n => i) else Existing(n, orderBy, 0)
  }

  function Existing(n: nat, orderBy: seq<nat>, i: nat): seq<nat>
    decreases |orderBy| - i
  {
    if i >= |orderBy| then [] else (if orderBy[i] < n then [orderBy[i]] else []) + Existing(n, orderBy, i + 1)
  }

  function TupleOf(row: Row, cols: seq<nat>, i: nat): seq<string>
    decreases |cols| - i
  {
    if i >= |cols| then [] else (if cols[i] < |row| then [row[cols[i]]] else []) + TupleOf(row, cols, i + 1)
  }

  function ItemsOf(n: nat, orderBy: seq<nat>, data: seq<Row>): seq<Item> {
    seq(|data|, i requires 0 <= i < |data| => Item(TupleOf(data[i], OrderColumns(n, orderBy), 0), data[i]))
  }

  // ----- rows under their keys -----

  /** The items with a given key, in order. */
  function ItemsAt(items: seq<Item>, k: string, n: nat): seq<Item>
    requires n <= |items|
  {
    if n == 0 then []
    else ItemsAt(items, k, n - 1) + if KeyOf(items[n - 1]) == k then [items[n - 1]] else []
  }

  function At(items: seq<Item>, k: string): seq<Item> {
    ItemsAt(items, k, |items|)
  }

  function RowsOf(items: seq<Item>): seq<Row> {
    seq(|items|, i requires 0 <= i < |items| => items[i].row)
  }

  function Keys(items: seq<Item>): set<string> {
    set it | it in items :: KeyOf(it)
  }

  type Table = map<string, seq<Row>>

  function Add(m: Table, k: string, row: Row): Table {
    m[k := (if k in m then m[k] else []) + [row]]
  }

  function AddAll(m: Table, items: seq<Item>, n: nat): Table
    requires n <= |items|
  {
    if n == 0 then m else Add(AddAll(m, items, n - 1), KeyOf(items[n - 1]), items[n - 1].row)
  }

  function Grouped(items: seq<Item>): Table {
    AddAll(map[], items, |items|)
  }

  function Got(m: Table, k: string): seq<Row> {
    if k in m then m[k] else []
  }

  predicate HasKey(items: seq<Item>, n: nat, k: string)
    requires n <= |items|
  {
    exists i | 0 <= i < n :: KeyOf(items[i]) == k
  }

  lemma HasKeyStep(items: seq<Item>, n: nat, k: string)
    requires 0 < n <= |items|
    ensures HasKey(items, n, k) <==> HasKey(items, n - 1, k) || KeyOf(items[n - 1]) == k
  {
  }

  lemma {:induction false} AddAllAt(items: seq<Item>, n: nat, k: string)
    requires n <= |items|
    ensures var m := AddAll(map[], items, n);
            (k in m <==> HasKey(items, n, k)) && Got(m, k) == RowsOf(ItemsAt(items, k, n))
  {
    hide KeyOf, HasKey, RowsOf;
    if n > 0 {
      AddAllAt(items, n - 1, k);
      HasKeyStep(items, n, k);
      RowsOfAppend(ItemsAt(items, k, n - 1), items[n - 1]);
    } else {
      NothingYet(items, k);
    }
  }

  lemma NothingYet(items: seq<Item>, k: string)
    ensures !HasKey(items, 0, k) && RowsOf([]) == []
  {
  }

  lemma RowsOfAppend(a: seq<Item>, it: Item)
    ensures RowsOf(a + []) == RowsOf(a) && RowsOf(a + [it]) == RowsOf(a) + [it.row]
  {
    assert a + [] == a;
  }

  /** Under every key lie exactly the rows with that key, in the order in which they came. */
  lemma GroupedAt(items: seq<Item>, k: string)
    ensures k in Grouped(items) <==> k in Keys(items)
    ensures k in Grouped(items) ==> Grouped(items)[k] == RowsOf(At(items, k))
  {
    hide KeyOf;
    AddAllAt(items, |items|, k);
    if k in Keys(items) {
      var it :| it in items && KeyOf(it) == k;
      var i :| 0 <= i < |items| && items[i] == it;
    }
  }

  lemma {:induction false} AddAllConcat(a: seq<Item>, b: seq<Item>, n: nat)
    requires n <= |b|
    ensures AddAll(map[], a + b, |a| + n) == AddAll(Grouped(a), b, n)
  {
    if n > 0 {
      AddAllConcat(a, b, n - 1);
    } else {
      AddAllPrefix(a, b, |a|);
    }
  }

  lemma {:induction false} AddAllPrefix(a: seq<Item>, b: seq<Item>, n: nat)
    requires n <= |a|
    ensures AddAll(map[], a + b, n) == AddAll(map[], a, n)
  {
    if n > 0 {
      AddAllPrefix(a, b, n - 1);
    }
  }

  // ----- the rendered order -----

  ghost function InOrder(items: seq<Item>, keys: seq<string>, n: nat): seq<Item>
    requires n <= |keys|
  {
    if n == 0 then [] else InOrder(items, keys, n - 1) + At(items, keys[n - 1])
  }

  /** The items, key after key in byte order. */
  ghost function SortedItems(items: seq<Item>): seq<Item> {
    InOrder(items, Sorted(Keys(items)), |Sorted(Keys(items))|)
  }

  lemma {:induction false} ItemsAtKey(items: seq<Item>, k: string, n: nat)
    requires n <= |items|
    ensures forall it | it in ItemsAt(items, k, n) :: KeyOf(it) == k
    ensures forall it | KeyOf(it) == k :: multiset(ItemsAt(items, k, n))[it] == multiset(items[..n])[it]
  {
    if n > 0 {
      hide Encode;
      ItemsAtKey(items, k, n - 1);
      assert items[..n] == items[..n - 1] + [items[n - 1]];
    }
  }

  lemma AtKey(items: seq<Item>, k: string)
    ensures forall it | it in At(items, k) :: KeyOf(it) == k
    ensures forall it | KeyOf(it) == k :: multiset(At(items, k))[it] == multiset(items)[it]
  {
    ItemsAtKey(items, k, |items|);
    assert items[..|items|] == items;
  }

  predicate Different(keys: seq<string>) {
    forall i, j | 0 <= i < j < |keys| :: keys[i] != keys[j]
  }

  /** An item whose key is among the first n comes as often as before, any other not at all. */
  lemma {:induction false} InOrderCounts(items: seq<Item>, keys: seq<string>, n: nat, it: Item)
    requires n <= |keys| && Different(keys)
    ensures multiset(InOrder(items, keys, n))[it] == if KeyOf(it) in keys[..n] then multiset(items)[it] else 0
  {
    hide KeyOf, At;
    if n > 0 {
      InOrderCounts(items, keys, n - 1, it);
      AtKey(items, keys[n - 1]);
      assert keys[..n] == keys[..n - 1] + [keys[n - 1]];
      assert keys[n - 1] !in keys[..n - 1];
      if KeyOf(it) != keys[n - 1] {
        assert it !in At(items, keys[n - 1]);
      }
    }
  }

  lemma SortedDifferent(keys: set<string>)
    ensures Different(Sorted(keys))
  {
    forall i, j | 0 <= i < j < |Sorted(keys)| ensures Sorted(keys)[i] != Sorted(keys)[j] {
      SortedOrder(keys, i, j);
    }
  }

  /** Rendering loses and repeats nothing. */
  lemma SortedSame(items: seq<Item>)
    ensures multiset(SortedItems(items)) == multiset(items)
  {
    hide KeyOf, Sorted;
    var keys := Sorted(Keys(items));
    SortedDifferent(Keys(items));
    forall it: Item ensures multiset(SortedItems(items))[it] == multiset(items)[it] {
      InOrderCounts(items, keys, |keys|, it);
      assert keys[..|keys|] == keys;
      SortedKeys(Keys(items), KeyOf(it));
      if it in multiset(items) {
        assert it in items && KeyOf(it) in Keys(items);
      }
    }
  }

  predicate KeysAscend(items: seq<Item>) {
    forall i, j | 0 <= i < j < |items| :: Le(KeyOf(items[i]), KeyOf(items[j]))
  }

  lemma {:induction false} InOrderAscends(items: seq<Item>, all: set<string>, n: nat)
    requires n <= |Sorted(all)|
    ensures KeysAscend(InOrder(items, Sorted(all), n))
    ensures forall it | it in InOrder(items, Sorted(all), n) :: exists m | 0 <= m < n :: KeyOf(it) == Sorted(all)[m]
  {
    hide KeyOf, At, Le, Sorted;
    if n > 0 {
      var keys := Sorted(all);
      var a, b := InOrder(items, keys, n - 1), At(items, keys[n - 1]);
      InOrderAscends(items, all, n - 1);
      AtKey(items, keys[n - 1]);
      Reflexive(keys[n - 1]);
      forall i, j | 0 <= i < j < |a + b| ensures Le(KeyOf((a + b)[i]), KeyOf((a + b)[j])) {
        if i < |a| <= j {
          var m :| 0 <= m < n - 1 && KeyOf(a[i]) == keys[m];
          SortedOrder(all, m, n - 1);
          assert b[j - |a|] in b;
        } else if |a| <= i {
          assert b[i - |a|] in b && b[j - |a|] in b;
        }
      }
    }
  }

  lemma {:induction false} ItemsAtConcat(a: seq<Item>, b: seq<Item>, k: string, n: nat)
    requires n <= |b|
    ensures ItemsAt(a + b, k, |a| + n) == At(a, k) + ItemsAt(b, k, n)
  {
    hide KeyOf;
    if n > 0 {
      ItemsAtConcat(a, b, k, n - 1);
    } else {
      ItemsAtPrefix(a, b, k, |a|);
    }
  }

  lemma {:induction false} ItemsAtPrefix(a: seq<Item>, b: seq<Item>, k: string, n: nat)
    requires n <= |a|
    ensures ItemsAt(a + b, k, n) == ItemsAt(a, k, n)
  {
    hide KeyOf;
    if n > 0 {
      ItemsAtPrefix(a, b, k, n - 1);
    }
  }

  /** Of items with one key all or none have a given key. */
  lemma {:induction false} AtOfOneKey(items: seq<Item>, k: string, k': string, n: nat)
    requires n <= |items| && forall it | it in items :: KeyOf(it) == k'
    ensures ItemsAt(items, k, n) == if k == k' then items[..n] else []
  {
    hide KeyOf;
    if n > 0 {
      AtOfOneKey(items, k, k', n - 1);
      assert items[n - 1] in items && items[..n] == items[..n - 1] + [items[n - 1]];
    }
  }

  lemma AtConcat(a: seq<Item>, b: seq<Item>, k: string)
    ensures At(a + b, k) == At(a, k) + At(b, k)
  {
    ItemsAtConcat(a, b, k, |b|);
  }

  lemma AtTwice(items: seq<Item>, k: string, k': string)
    ensures At(At(items, k'), k) == if k == k' then At(items, k) else []
  {
    var b := At(items, k');
    AtKey(items, k');
    AtOfOneKey(b, k, k', |b|);
    assert b[..|b|] == b;
  }

  lemma LastKey(keys: seq<string>, n: nat, k: string)
    requires 0 < n <= |keys| && Different(keys)
    ensures k in keys[..n] <==> k in keys[..n - 1] || k == keys[n - 1]
    ensures keys[n - 1] !in keys[..n - 1]
  {
    assert keys[..n] == keys[..n - 1] + [keys[n - 1]];
  }

  lemma StableStep(items: seq<Item>, a: seq<Item>, k': string, k: string, there: bool)
    requires At(a, k) == (if there then At(items, k) else []) && !(there && k == k')
    ensures At(a + At(items, k'), k) == if there || k == k' then At(items, k) else []
  {
    hide At;
    AtConcat(a, At(items, k'), k);
    AtTwice(items, k, k');
    AppendNothing(At(items, k));
    AppendNothing([]);
  }

  lemma {:induction false} InOrderStable(items: seq<Item>, keys: seq<string>, n: nat, k: string)
    requires n <= |keys| && Different(keys)
    ensures At(InOrder(items, keys, n), k) == if k in keys[..n] then At(items, k) else []
  {
    if n > 0 {
      hide At, Different;
      InOrderStable(items, keys, n - 1, k);
      LastKey(keys, n, k);
      StableStep(items, InOrder(items, keys, n - 1), keys[n - 1], k, k in keys[..n - 1]);
    }
  }

  lemma AppendNothing(a: seq<Item>)
    ensures a + [] == a && [] + a == a
  {
  }

  lemma {:induction false} NoneAt(items: seq<Item>, k: string, n: nat)
    requires n <= |items| && forall i | 0 <= i < |items| :: KeyOf(items[i]) != k
    ensures ItemsAt(items, k, n) == []
  {
    if n > 0 {
      NoneAt(items, k, n - 1);
    }
  }

  /** Rows with one key are rendered in the order in which they came. */
  lemma SortedStable(items: seq<Item>, k: string)
    ensures At(SortedItems(items), k) == At(items, k)
  {
    hide KeyOf, Sorted;
    var keys := Sorted(Keys(items));
    SortedDifferent(Keys(items));
    InOrderStable(items, keys, |keys|, k);
    assert keys[..|keys|] == keys;
    SortedKeys(Keys(items), k);
    if k !in Keys(items) {
      forall i | 0 <= i < |items| ensures KeyOf(items[i]) != k {
        assert items[i] in items;
      }
      NoneAt(items, k, |items|);
    }
  }

  /** The rendered rows are the collected ones, in lexicographic order of their ordering columns, rows
      with equal ordering columns in the order in which they came. */
  lemma RenderedOrder(items: seq<Item>)
    requires forall it | it in items :: NulFree(it.tuple)
    ensures var out := SortedItems(items);
            && multiset(out) == multiset(items)
            && (forall i, j | 0 <= i < j < |out| :: TupleLe(out[i].tuple, out[j].tuple))
            && (forall t | NulFree(t) :: At(out, Encode(t)) == At(items, Encode(t)))
  {
    hide At, Sorted, TupleLe, Encode, Le;
    var out := SortedItems(items);
    SortedSame(items);
    forall it | it in out ensures it in items {
      assert it in multiset(out);
    }
    InOrderAscends(items, Keys(items), |Sorted(Keys(items))|);
    forall i, j | 0 <= i < j < |out| ensures TupleLe(out[i].tuple, out[j].tuple) {
      assert Le(KeyOf(out[i]), KeyOf(out[j]));
      assert out[i] in out && out[j] in out;
      EncodeOrder(out[i].tuple, out[j].tuple);
    }
    forall t | NulFree(t) ensures At(out, Encode(t)) == At(items, Encode(t)) {
      SortedStable(items, Encode(t));
    }
  }

  // ----- the reporter, call by call -----

  /** The columns to order by, and the output: csv files keep the writer's rows, zip files take empty tables. */
  datatype Config = Config(orderBy: seq<nat>, csv: bool, zip: bool)

  datatype Emission = Emission(title: string, rows: seq<Row>)

  /** `written` are the rows in the table writer, `emitted` the tables rendered so far. */
  datatype State = State(title: string, columns: seq<string>, table: Table, written: seq<Row>,
                         emitted: seq<Emission>, panicked: bool)

  datatype Update = Update(columns: seq<string>, data: seq<Row>)

  datatype Call = Prepare(title: string) | UpdateTable(update: Update) | Render

  function Flatten(keys: seq<string>, m: Table, n: nat): seq<Row>
    requires n <= |keys|
  {
    if n == 0 then [] else Flatten(keys, m, n - 1) + Got(m, keys[n - 1])
  }

  /** The cells that are rendered; a row that is too short stops the program. */
  function Project(rows: seq<Row>, width: nat): seq<Row> {
    seq(|rows|, i requires 0 <= i < |rows| => if |rows[i]| < width then rows[i] else rows[i][..width])
  }

  predicate WideAt(m: Table, k: string, width: nat) {
    forall i | 0 <= i < |Got(m, k)| :: |Got(m, k)[i]| >= width
  }

  predicate Wide(m: Table, width: nat) {
    forall k | k in m :: WideAt(m, k, width)
  }

  function EmitOf(c: Config, title: string, rows: seq<Row>): seq<Emission> {
    if rows != [] || c.zip then [Emission(title, rows)] else []
  }

  ghost function Rendered(c: Config, s: State): State {
    if !Wide(s.table, |s.columns|) then s.(panicked := true)
    else
      var keys := Sorted(s.table.Keys);
      var rows := (if c.csv && !c.zip then s.written else []) + Project(Flatten(keys, s.table, |keys|), |s.columns|);
      s.(written := rows, emitted := s.emitted + EmitOf(c, s.title, rows))
  }

  function Updated(c: Config, s: State, u: Update): State {
    var columns := if s.columns == [] then u.columns else s.columns;
    var m := if s.columns == [] then map[] else s.table;
    var items := ItemsOf(|u.columns|, c.orderBy, u.data);
    s.(columns := columns, table := AddAll(m, items, |items|))
  }

  ghost function Do(c: Config, s: State, call: Call): State {
    if s.panicked then s
    else match call
      case Prepare(title) =>
        var r := Rendered(c, s);
        if r.panicked then r else r.(title := title, columns := [], table := map[], written := [])
      case UpdateTable(u) => Updated(c, s, u)
      case Render => Rendered(c, s)
  }

  // ----- the code -----

  class FormattedReporter {
    const config: Config
    var title: string
    var columns: seq<string>
    var table: Table
    var written: seq<Row>
    var emitted: seq<Emission>
    var panicked: bool

    constructor (config: Config)
      ensures this.config == config && Now() == State("", [], map[], [], [], false)
    {
      this.config := config;
      title, columns, table, written, emitted, panicked := "", [], map[], [], [], false;
    }

    ghost function Now(): State
      reads this
    {
      State(title, columns, table, written, emitted, panicked)
    }

    method UpdateTable(u: Update)
      requires !panicked
      modifies this`columns, this`table
      ensures Now() == Do(config, old(Now()), Call.UpdateTable(u))
    {
      hide AddAll, Add, TupleOf, Encode;
      if columns == [] {
        columns := u.columns;
        table := map[];
      }
      var cols := OrderColumns(|u.columns|, config.orderBy);
      ghost var m, items := table, ItemsOf(|u.columns|, config.orderBy, u.data);
      AddNothing(m, items);
      for i := 0 to |u.data|
        invariant table == AddAll(m, items, i)
        invariant columns == if old(columns) == [] then u.columns else old(columns)
      {
        var order := SortKey(u.data[i], cols);
        AddNext(m, items, i);
        table := Add(table, order, u.data[i]);
      }
    }

    /** Nothing is rendered when a row is too short: the program stops. */
    method Render()
      requires !panicked
      modifies this`written, this`emitted, this`panicked
      ensures Now() == Do(config, old(Now()), Call.Render)
    {
      hide Wide, Sorted, Flatten, Project, Got;
      var rows := if config.csv && !config.zip then written else [];
      ghost var before := rows;
      var keys := Sort(table.Keys);
      FlattenNothing(keys, table, |columns|);
      for i := 0 to |keys|
        invariant rows == before + Project(Flatten(keys, table, i), |columns|)
        invariant !panicked && written == old(written) && emitted == old(emitted)
        invariant forall k | k in keys[..i] :: WideAt(table, k, |columns|)
      {
        assert keys[..i + 1] == keys[..i] + [keys[i]];
        var more := AppendRows(Got(table, keys[i]));
        if !more.Some? {
          SortedKeys(table.Keys, keys[i]);
          NotWide(table, keys[i], |columns|);
          panicked := true;
          return;
        }
        FlattenNext(keys, table, i, |columns|);
        rows := rows + more.value;
      }
      AllWide(table, keys, |columns|);
      written := rows;
      emitted := emitted + EmitOf(config, title, rows);
    }

    method AppendRows(group: seq<Row>) returns (r: Option<seq<Row>>)
      ensures r == if forall j | 0 <= j < |group| :: |group[j]| >= |columns| then Some(Project(group, |columns|)) else None
    {
      var rows := [];
      for j := 0 to |group|
        invariant |rows| == j
        invariant forall i | 0 <= i < j :: |group[i]| >= |columns| && rows[i] == group[i][..|columns|]
      {
        if |group[j]| < |columns| {
          return None;
        }
        rows := rows + [group[j][..|columns|]];
      }
      assert rows == Project(group, |columns|);
      r := Some(rows);
    }

    method Prepare(report: string)
      requires !panicked
      modifies this`title, this`columns, this`table, this`written, this`emitted, this`panicked
      ensures Now() == Do(config, old(Now()), Call.Prepare(report))
    {
      Render();
      if panicked {
        return;
      }
      title, columns, table, written := report, [], map[], [];
    }
  }

  /** The key is the encoded tuple: the code appends a cell and a NUL for each ordering column the row has. */
  method SortKey(row: Row, cols: seq<nat>) returns (order: string)
    ensures order == Encode(TupleOf(row, cols, 0))
  {
    assert Encode([]) == "";
    hide Encode;
    order := "";
    for i := 0 to |cols|
      invariant order + Encode(TupleOf(row, cols, i)) == Encode(TupleOf(row, cols, 0))
    {
      var c := cols[i];
      if c < |row| {
        EncodeCons(order, row[c], TupleOf(row, cols, i + 1));
        order := order + row[c] + [NUL];
      } else {
        assert [] + TupleOf(row, cols, i + 1) == TupleOf(row, cols, i + 1);
      }
    }
  }

  lemma EncodeCons(order: string, cell: string, tuple: seq<string>)
    ensures order + Encode([cell] + tuple) == order + cell + [NUL] + Encode(tuple)
  {
    assert ([cell] + tuple)[1..] == tuple;
  }

  lemma AddNothing(m: Table, items: seq<Item>)
    ensures AddAll(m, items, 0) == m
  {
  }

  lemma AddNext(m: Table, items: seq<Item>, i: nat)
    requires i < |items|
    ensures AddAll(m, items, i + 1) == Add(AddAll(m, items, i), KeyOf(items[i]), items[i].row)
  {
  }

  lemma FlattenNothing(keys: seq<string>, m: Table, width: nat)
    ensures Project(Flatten(keys, m, 0), width) == []
  {
  }

  lemma FlattenNext(keys: seq<string>, m: Table, i: nat, width: nat)
    requires i < |keys|
    ensures Project(Flatten(keys, m, i + 1), width) == Project(Flatten(keys, m, i), width) + Project(Got(m, keys[i]), width)
  {
  }

  lemma NotWide(m: Table, k: string, width: nat)
    requires k in m && !WideAt(m, k, width)
    ensures !Wide(m, width)
  {
  }

  lemma AllWide(m: Table, keys: seq<string>, width: nat)
    requires keys == Sorted(m.Keys) && forall k | k in keys :: WideAt(m, k, width)
    ensures Wide(m, width)
  {
    forall k | k in m ensures WideAt(m, k, width) {
      SortedKeys(m.Keys, k);
    }
  }

  // ----- whole runs -----

  datatype Report = Report(title: string, updates: seq<Update>)

  ghost function Updates(c: Config, s: State, us: seq<Update>, n: nat): State
    requires n <= |us|
  {
    if n == 0 then s else Do(c, Updates(c, s, us, n - 1), UpdateTable(us[n - 1]))
  }

  /** Report after report: prepared, then all its updates. */
  ghost function RunAll(c: Config, s: State, rs: seq<Report>, n: nat): State
    requires n <= |rs|
  {
    if n == 0 then s
    else Updates(c, Do(c, RunAll(c, s, rs, n - 1), Prepare(rs[n - 1].title)), rs[n - 1].updates, |rs[n - 1].updates|)
  }

  /** The first columns that are not empty. */
  function Columns(us: seq<Update>, n: nat): seq<string>
    requires n <= |us|
  {
    if n == 0 then [] else if Columns(us, n - 1) == [] then us[n - 1].columns else Columns(us, n - 1)
  }

  function Items(c: Config, u: Update): seq<Item> {
    ItemsOf(|u.columns|, c.orderBy, u.data)
  }

  /** All items supplied, and those that are kept: an update that finds no columns starts afresh. */
  function Supplied(c: Config, us: seq<Update>, n: nat): seq<Item>
    requires n <= |us|
  {
    if n == 0 then [] else Supplied(c, us, n - 1) + Items(c, us[n - 1])
  }

  function Kept(c: Config, us: seq<Update>, n: nat): seq<Item>
    requires n <= |us|
  {
    if n == 0 then []
    else (if Columns(us, n - 1) == [] then [] else Kept(c, us, n - 1)) + Items(c, us[n - 1])
  }

  predicate NothingBefore(c: Config, us: seq<Update>, n: nat)
    requires n <= |us|
  {
    forall i | 0 <= i < n && Columns(us, i) == [] :: Supplied(c, us, i) == []
  }

  /** Every supplied row is kept exactly when no update that finds no columns comes after a row. */
  lemma {:induction false} KeptIff(c: Config, us: seq<Update>, n: nat)
    requires n <= |us|
    ensures |Kept(c, us, n)| <= |Supplied(c, us, n)|
    ensures |Kept(c, us, n)| == |Supplied(c, us, n)| ==> Kept(c, us, n) == Supplied(c, us, n)
    ensures Kept(c, us, n) == Supplied(c, us, n) <==> NothingBefore(c, us, n)
  {
    hide ItemsOf;
    if n > 0 {
      KeptIff(c, us, n - 1);
      var k, s, more := Kept(c, us, n - 1), Supplied(c, us, n - 1), Items(c, us[n - 1]);
      if Columns(us, n - 1) == [] {
        assert Kept(c, us, n) == more by { assert [] + more == more; }
        assert Kept(c, us, n) == Supplied(c, us, n) ==> |s| == 0;
        assert s == [] ==> s + more == more;
        KeptEmpty(c, us, n - 1);
      } else {
        assert k + more == s + more ==> k == s by { SameTail(k, s, more); }
      }
    }
  }

  lemma SameTail(a: seq<Item>, b: seq<Item>, t: seq<Item>)
    ensures a + t == b + t ==> a == b
  {
    if a + t == b + t {
      assert |a| == |b|;
      assert a == (a + t)[..|a|] && b == (b + t)[..|b|];
    }
  }

  lemma {:induction false} KeptEmpty(c: Config, us: seq<Update>, n: nat)
    requires n <= |us|
    ensures Supplied(c, us, n) == [] ==> forall i | 0 <= i < n :: Supplied(c, us, i) == []
  {
    hide ItemsOf;
    if n > 0 {
      KeptEmpty(c, us, n - 1);
      assert |Supplied(c, us, n)| == |Supplied(c, us, n - 1)| + |Items(c, us[n - 1])|;
    }
  }

  /** The table after some updates of a report. */
  lemma {:induction false} UpdatesState(c: Config, s: State, us: seq<Update>, n: nat)
    requires n <= |us| && !s.panicked && s.columns == [] && s.table == map[]
    ensures Updates(c, s, us, n) == s.(columns := Columns(us, n), table := Grouped(Kept(c, us, n)))
  {
    hide ItemsOf, AddAll;
    if n > 0 {
      UpdatesState(c, s, us, n - 1);
      var items := Items(c, us[n - 1]);
      if Columns(us, n - 1) == [] {
        assert Kept(c, us, n) == items by { assert [] + items == items; }
      } else {
        AddAllConcat(Kept(c, us, n - 1), items, |items|);
      }
    } else {
      AddNothing(map[], []);
    }
  }

  // ----- what is rendered -----

  ghost function RowsFor(c: Config, r: Report): seq<Row> {
    Project(RowsOf(SortedItems(Kept(c, r.updates, |r.updates|))), |Columns(r.updates, |r.updates|)|)
  }

  predicate Fits(c: Config, r: Report) {
    forall it | it in Kept(c, r.updates, |r.updates|) :: |it.row| >= |Columns(r.updates, |r.updates|)|
  }

  lemma {:induction false} FlattenGrouped(items: seq<Item>, keys: seq<string>, n: nat)
    requires n <= |keys|
    ensures Flatten(keys, Grouped(items), n) == RowsOf(InOrder(items, keys, n))
  {
    hide Grouped, At, RowsOf;
    if n > 0 {
      FlattenGrouped(items, keys, n - 1);
      GotAt(items, keys[n - 1]);
      RowsOfConcat(InOrder(items, keys, n - 1), At(items, keys[n - 1]));
    } else {
      assert RowsOf([]) == [] by { NothingYet([], ""); }
    }
  }

  lemma GotAt(items: seq<Item>, k: string)
    ensures Got(Grouped(items), k) == RowsOf(At(items, k))
  {
    hide ItemsAt, AddAll;
    AddAllAt(items, |items|, k);
  }

  lemma RowsOfConcat(a: seq<Item>, b: seq<Item>)
    ensures RowsOf(a + b) == RowsOf(a) + RowsOf(b)
  {
  }

  lemma GroupedKeys(items: seq<Item>)
    ensures Grouped(items).Keys == Keys(items)
  {
    hide Grouped, Keys;
    forall k ensures k in Grouped(items).Keys <==> k in Keys(items) {
      GroupedAt(items, k);
    }
  }

  lemma {:induction false} ItemsAtIn(items: seq<Item>, k: string, n: nat)
    requires n <= |items|
    ensures forall it | it in ItemsAt(items, k, n) :: it in items
  {
    if n > 0 {
      ItemsAtIn(items, k, n - 1);
    }
  }

  lemma GroupedWide(items: seq<Item>, width: nat)
    requires forall it | it in items :: |it.row| >= width
    ensures Wide(Grouped(items), width)
  {
    hide Grouped, Keys, ItemsAt;
    var m := Grouped(items);
    forall k, i | k in m && 0 <= i < |m[k]| ensures |m[k][i]| >= width {
      GroupedAt(items, k);
      ItemsAtIn(items, k, |items|);
      assert At(items, k)[i] in At(items, k);
    }
  }

  /** Rendering what a report has collected. */
  lemma RenderReport(c: Config, s: State, r: Report)
    requires !s.panicked && s.written == [] && Fits(c, r)
    requires s.columns == Columns(r.updates, |r.updates|) && s.table == Grouped(Kept(c, r.updates, |r.updates|))
    ensures var t := Do(c, s, Render);
            !t.panicked && t.written == RowsFor(c, r) && t.emitted == s.emitted + EmitOf(c, s.title, RowsFor(c, r))
  {
    hide Sorted, Grouped, Keys, Kept, Columns, Wide, Project, Flatten, InOrder;
    var items := Kept(c, r.updates, |r.updates|);
    GroupedWide(items, |s.columns|);
    GroupedKeys(items);
    FlattenGrouped(items, Sorted(Keys(items)), |Sorted(Keys(items))|);
    var rows := RowsFor(c, r);
    assert [] + rows == rows;
  }

  ghost function Emissions(c: Config, rs: seq<Report>, n: nat): seq<Emission>
    requires n <= |rs|
  {
    if n == 0 then [] else Emissions(c, rs, n - 1) + EmitOf(c, rs[n - 1].title, RowsFor(c, rs[n - 1]))
  }

  const FRESH := State("", [], map[], [], [], false)

  lemma PrepareFlushes(c: Config, s: State, title: string)
    requires !Do(c, s, Render).panicked
    ensures Do(c, s, Prepare(title)) == Do(c, s, Render).(title := title, columns := [], table := map[], written := [])
  {
    hide Rendered;
  }

  /** One more report. */
  lemma ReportEmits(c: Config, s: State, r: Report)
    requires !Do(c, s, Render).panicked && Fits(c, r)
    ensures var q := Updates(c, Do(c, s, Prepare(r.title)), r.updates, |r.updates|);
            var t := Do(c, q, Render);
            !t.panicked && t.emitted == Do(c, s, Render).emitted + EmitOf(c, r.title, RowsFor(c, r))
  {
    hide Fits, RowsFor, EmitOf, Do, Updates, Columns, Kept, Grouped;
    PrepareFlushes(c, s, r.title);
    UpdatesState(c, Do(c, s, Prepare(r.title)), r.updates, |r.updates|);
    RenderReport(c, Updates(c, Do(c, s, Prepare(r.title)), r.updates, |r.updates|), r);
  }

  /** After some reports and a last `Render`. */
  lemma {:induction false} RunEmits(c: Config, rs: seq<Report>, n: nat)
    requires n <= |rs| && forall r | r in rs :: Fits(c, r)
    ensures var t := Do(c, RunAll(c, FRESH, rs, n), Render);
            !t.panicked && t.emitted == EmitOf(c, "", []) + Emissions(c, rs, n)
  {
    hide Fits, RowsFor, EmitOf, Do, Updates;
    if n == 0 {
      FreshRender(c);
      assert EmitOf(c, "", []) + [] == EmitOf(c, "", []);
    } else {
      RunEmits(c, rs, n - 1);
      ReportEmits(c, RunAll(c, FRESH, rs, n - 1), rs[n - 1]);
      Grouping(EmitOf(c, "", []), Emissions(c, rs, n - 1), EmitOf(c, rs[n - 1].title, RowsFor(c, rs[n - 1])));
    }
  }

  lemma Grouping(a: seq<Emission>, b: seq<Emission>, d: seq<Emission>)
    ensures a + b + d == a + (b + d)
  {
  }

  lemma FreshRender(c: Config)
    ensures Do(c, FRESH, Render).emitted == EmitOf(c, "", []) && !Do(c, FRESH, Render).panicked
  {
    assert Sorted(FRESH.table.Keys) == [];
    assert Flatten([], FRESH.table, 0) == [];
  }

  // ----- conservation -----

  function DataOf(us: seq<Update>, n: nat): seq<Row>
    requires n <= |us|
  {
    if n == 0 then [] else DataOf(us, n - 1) + us[n - 1].data
  }

  lemma {:induction false} SuppliedData(c: Config, us: seq<Update>, n: nat)
    requires n <= |us|
    ensures RowsOf(Supplied(c, us, n)) == DataOf(us, n) && |Supplied(c, us, n)| == |DataOf(us, n)|
  {
    if n > 0 {
      SuppliedData(c, us, n - 1);
      RowsOfConcat(Supplied(c, us, n - 1), Items(c, us[n - 1]));
      assert RowsOf(Items(c, us[n - 1])) == us[n - 1].data;
    }
  }

  lemma TakeOut(b: seq<Item>, j: nat) returns (rest: seq<Item>)
    requires j < |b|
    ensures multiset(b) == multiset(rest) + multiset{b[j]}
    ensures multiset(RowsOf(b)) == multiset(RowsOf(rest)) + multiset{b[j].row}
  {
    var x, y := b[..j], b[j + 1..];
    rest := x + y;
    assert b == x + [b[j]] + y;
    assert RowsOf(b) == RowsOf(x) + [b[j].row] + RowsOf(y);
    assert RowsOf(rest) == RowsOf(x) + RowsOf(y);
  }

  lemma {:induction false} SameRows(a: seq<Item>, b: seq<Item>)
    requires multiset(a) == multiset(b)
    ensures multiset(RowsOf(a)) == multiset(RowsOf(b))
    decreases |a|
  {
    hide RowsOf;
    if |a| == 0 {
      assert |multiset(b)| == 0;
      assert a == b;
    } else {
      var a' := TakeOut(a, 0);
      assert a[0] in multiset(b);
      var j :| 0 <= j < |b| && b[j] == a[0];
      var b' := TakeOut(b, j);
      assert multiset(a') == multiset(a) - multiset{a[0]} == multiset(b) - multiset{a[0]} == multiset(b');
      assert |a'| == |multiset(a')| < |multiset(a)| == |a|;
      SameRows(a', b');
    }
  }

  lemma ProjectConcat(a: seq<Row>, b: seq<Row>, width: nat)
    ensures Project(a + b, width) == Project(a, width) + Project(b, width)
  {
  }

  lemma ProjectOut(b: seq<Row>, j: nat, width: nat) returns (rest: seq<Row>)
    requires j < |b|
    ensures multiset(b) == multiset(rest) + multiset{b[j]}
    ensures multiset(Project(b, width)) == multiset(Project(rest, width)) + multiset(Project([b[j]], width))
  {
    hide Project;
    var x, y := b[..j], b[j + 1..];
    rest := x + y;
    assert b == x + [b[j]] + y;
    ProjectConcat(x + [b[j]], y, width);
    ProjectConcat(x, [b[j]], width);
    ProjectConcat(x, y, width);
  }

  /** The same rows, cut to the same width, are the same rows. */
  lemma {:induction false} ProjectSame(a: seq<Row>, b: seq<Row>, width: nat)
    requires multiset(a) == multiset(b)
    ensures multiset(Project(a, width)) == multiset(Project(b, width))
    decreases |a|
  {
    hide Project;
    if |a| == 0 {
      assert |multiset(b)| == 0;
      assert a == b;
    } else {
      var a' := ProjectOut(a, 0, width);
      assert a[0] in multiset(b);
      var j :| 0 <= j < |b| && b[j] == a[0];
      var b' := ProjectOut(b, j, width);
      assert multiset(a') == multiset(a) - multiset{a[0]} == multiset(b) - multiset{a[0]} == multiset(b');
      assert |a'| == |multiset(a')| < |multiset(a)| == |a|;
      ProjectSame(a', b', width);
    }
  }

  /** No update that finds no columns comes after a row. */
  predicate ColumnsFirst(us: seq<Update>) {
    forall i | 0 <= i < |us| && Columns(us, i) == [] :: DataOf(us, i) == []
  }

  /** The supplied rows, cut to the columns of the report. */
  function Wanted(r: Report): seq<Row> {
    Project(DataOf(r.updates, |r.updates|), |Columns(r.updates, |r.updates|)|)
  }

  lemma RowsForKept(c: Config, r: Report)
    ensures var us := r.updates;
            multiset(RowsFor(c, r)) == multiset(Project(RowsOf(Kept(c, us, |us|)), |Columns(us, |us|)|))
  {
    hide SortedItems, Columns, Kept, Project, RowsOf;
    var kept, width := Kept(c, r.updates, |r.updates|), |Columns(r.updates, |r.updates|)|;
    SortedSame(kept);
    SameRows(SortedItems(kept), kept);
    ProjectSame(RowsOf(SortedItems(kept)), RowsOf(kept), width);
  }

  lemma SameSize(a: seq<Row>, b: seq<Row>)
    requires multiset(a) == multiset(b)
    ensures |a| == |b|
  {
    assert |multiset(a)| == |a| && |multiset(b)| == |b|;
  }

  /** What is rendered of a report is no more than was supplied, and the same exactly when its columns are given
      before, or with, its first rows. */
  lemma RowsConservedIff(c: Config, r: Report)
    ensures multiset(RowsFor(c, r)) == multiset(Wanted(r)) <==> ColumnsFirst(r.updates)
    ensures |RowsFor(c, r)| <= |Wanted(r)|
    ensures |RowsFor(c, r)| == |Wanted(r)| <==> ColumnsFirst(r.updates)
  {
    hide *;
    var us, n := r.updates, |r.updates|;
    var width := |Columns(us, n)|;
    KeptIff(c, us, n);
    SuppliedData(c, us, n);
    RowsForKept(c, r);
    ColumnsFirstIff(c, us);
    Sizes(Kept(c, us, n), DataOf(us, n), width);
    WantedIs(r);
    SameSize(RowsFor(c, r), Project(RowsOf(Kept(c, us, n)), width));
    if multiset(RowsFor(c, r)) == multiset(Wanted(r)) {
      SameSize(RowsFor(c, r), Wanted(r));
    }
  }

  lemma WantedIs(r: Report)
    ensures Wanted(r) == Project(DataOf(r.updates, |r.updates|), |Columns(r.updates, |r.updates|)|)
  {
  }

  lemma Sizes(items: seq<Item>, rows: seq<Row>, width: nat)
    ensures |Project(RowsOf(items), width)| == |items| && |Project(rows, width)| == |rows|
  {
  }

  lemma ColumnsFirstIff(c: Config, us: seq<Update>)
    ensures ColumnsFirst(us) <==> NothingBefore(c, us, |us|)
  {
    hide Columns, ItemsOf;
    forall i | 0 <= i < |us| ensures |Supplied(c, us, i)| == |DataOf(us, i)| {
      SuppliedData(c, us, i);
    }
    if ColumnsFirst(us) {
      forall i | 0 <= i < |us| && Columns(us, i) == [] ensures Supplied(c, us, i) == [] {
        assert DataOf(us, i) == [];
      }
    }
    if NothingBefore(c, us, |us|) {
      forall i | 0 <= i < |us| && Columns(us, i) == [] ensures DataOf(us, i) == [] {
        assert Supplied(c, us, i) == [];
      }
    }
  }

  // ----- a whole run -----

  function AllRows(es: seq<Emission>): seq<Row> {
    if es == [] then [] else AllRows(es[..|es| - 1]) + es[|es| - 1].rows
  }

  lemma AllRowsAppend(es: seq<Emission>, e: Emission)
    ensures AllRows(es + [e]) == AllRows(es) + e.rows
  {
    assert (es + [e])[..|es|] == es;
  }

  lemma {:induction false} AllRowsConcat(a: seq<Emission>, b: seq<Emission>)
    ensures AllRows(a + b) == AllRows(a) + AllRows(b)
  {
    if b == [] {
      assert a + b == a && AllRows(a) + [] == AllRows(a);
    } else {
      hide AllRows;
      var init, e := b[..|b| - 1], b[|b| - 1];
      assert a + b == a + init + [e] && b == init + [e];
      AllRowsConcat(a, init);
      AllRowsAppend(a + init, e);
      AllRowsAppend(init, e);
      assert AllRows(a) + AllRows(init) + e.rows == AllRows(a) + (AllRows(init) + e.rows);
    }
  }

  lemma AllRowsOne(c: Config, title: string, rows: seq<Row>)
    ensures AllRows(EmitOf(c, title, rows)) == rows
  {
  }

  function AllWanted(rs: seq<Report>, n: nat): seq<Row>
    requires n <= |rs|
  {
    if n == 0 then [] else AllWanted(rs, n - 1) + Wanted(rs[n - 1])
  }

  lemma {:induction false} EmissionsRows(c: Config, rs: seq<Report>, n: nat)
    requires n <= |rs|
    ensures var all := AllRows(Emissions(c, rs, n));
            && |all| <= |AllWanted(rs, n)|
            && (|all| == |AllWanted(rs, n)| <==> forall i | 0 <= i < n :: ColumnsFirst(rs[i].updates))
            && (multiset(all) == multiset(AllWanted(rs, n)) <==> forall i | 0 <= i < n :: ColumnsFirst(rs[i].updates))
  {
    hide ColumnsFirst, RowsFor, Wanted, EmitOf, AllRows;
    if n == 0 {
      assert AllRows([]) == [] by { NoRows(); }
    } else {
      var r := rs[n - 1];
      EmissionsRows(c, rs, n - 1);
      RowsConservedIff(c, r);
      AllRowsConcat(Emissions(c, rs, n - 1), EmitOf(c, r.title, RowsFor(c, r)));
      AllRowsOne(c, r.title, RowsFor(c, r));
      if multiset(AllRows(Emissions(c, rs, n))) == multiset(AllWanted(rs, n)) {
        SameSize(AllRows(Emissions(c, rs, n)), AllWanted(rs, n));
      }
    }
  }

  lemma NoRows()
    ensures AllRows([]) == []
  {
  }

  /** A run of reports with a last `Render`: over all that is emitted, every supplied row is there exactly once,
      precisely when every report gives its columns before, or with, its first rows. */
  lemma RunConservesIff(c: Config, rs: seq<Report>)
    requires forall r | r in rs :: Fits(c, r)
    ensures var t := Do(c, RunAll(c, FRESH, rs, |rs|), Render);
            && !t.panicked
            && (multiset(AllRows(t.emitted)) == multiset(AllWanted(rs, |rs|)) <==> forall r | r in rs :: ColumnsFirst(r.updates))
  {
    hide Fits, Do, RunAll, EmitOf, Emissions, AllRows, ColumnsFirst, AllWanted;
    RunEmits(c, rs, |rs|);
    EmissionsRows(c, rs, |rs|);
    AllRowsConcat(EmitOf(c, "", []), Emissions(c, rs, |rs|));
    AllRowsOne(c, "", []);
    assert [] + AllRows(Emissions(c, rs, |rs|)) == AllRows(Emissions(c, rs, |rs|));
  }

  /** `Render` leaves the rows in place: rendered before the next `Prepare`, a report is rendered twice; in a csv file
      the second time with its rows doubled, since the table writer keeps those of the first. */
  lemma RenderedTwice(c: Config, s: State, title: string)
    requires !s.panicked && Wide(s.table, |s.columns|)
    ensures var keys := Sorted(s.table.Keys);
            var rows := Project(Flatten(keys, s.table, |keys|), |s.columns|);
            var once := if c.csv && !c.zip then s.written + rows else rows;
            var twice := if c.csv && !c.zip then once + rows else rows;
            && Do(c, s, Render).emitted == s.emitted + EmitOf(c, s.title, once)
            && Do(c, Do(c, s, Render), Prepare(title)).emitted == s.emitted + EmitOf(c, s.title, once) + EmitOf(c, s.title, twice)
  {
    hide Sorted, Flatten, Project;
    var keys := Sorted(s.table.Keys);
    var rows := Project(Flatten(keys, s.table, |keys|), |s.columns|);
    assert [] + rows == rows;
  }
}

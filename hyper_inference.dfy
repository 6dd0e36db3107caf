/** Relationship inference from the raw extract (infer_relationships_from_hyper.py).

    The extract is one wide frame whose column names encode `table.column`.
    The script splits it into tables, profiles every column, nominates
    primary-key candidates and scans every cross-table (column, key) pair for
    a foreign key whose coverage is strictly above 0.95. Each phase is a
    method with the loops of the script, proved against a specification
    function; the properties the script promises are lemmas about those
    functions. */
module HyperInference {
  import opened Wrappers
  import opened Strings
  import opened Seqs

  /** A cell as read from the extract; `None` is a null (NaN) cell. */
  type Value = string
  type Cell = Option<Value>

  /** One column of the wide frame, with the dtype pandas gave it. */
  datatype RawColumn = RawColumn(name: string, dtype: string, cells: seq<Cell>)

  /** The wide frame: every column has `rowCount` cells and names are distinct
      (pandas renames repeated headers when it reads the file). */
  datatype Frame = Frame(rowCount: nat, columns: seq<RawColumn>)

  predicate WellFormed(df: Frame) {
    && (forall k :: 0 <= k < |df.columns| ==> |df.columns[k].cells| == df.rowCount)
    && (forall j, k :: 0 <= j < k < |df.columns| ==> df.columns[j].name != df.columns[k].name)
  }

  /** A column of one table after the split. */
  datatype Column = Column(name: string, dtype: string, cells: seq<Cell>)

  datatype ColumnStats = ColumnStats(
    name: string, rowCount: nat, distinctCount: nat, nullCount: nat, dtype: string)

  /** An accepted (column, key) pair; the coverage is `inter / denom`. */
  datatype ForeignKey = ForeignKey(
    fromTable: string, fromColumn: string, toTable: string, toColumn: string,
    inter: nat, denom: nat)

  /** The relationship record; `confidence` is in thousandths and
      `coverage` is the exact ratio kept as evidence. */
  datatype Relationship = Relationship(
    fromTable: string, fromColumn: string, toTable: string, toColumn: string,
    cardinality: string, crossFilterDirection: string, confidence: nat,
    coverage: (nat, nat), pkVerified: bool)

  // ---------------------------------------------------------------------
  // Splitting the frame by table

  /** `col.split('.', 1)` when the name holds a dot: the table part is the
      text before the first dot, the column part may itself hold dots. */
  function SplitColumnName(name: string): (r: Option<(string, string)>)
    ensures r.None? <==> '.' !in name
    ensures r.Some? ==> name == r.value.0 + "." + r.value.1 && '.' !in r.value.0
  {
    var i := IndexOf(name, '.');
    if i == |name| then None
    else
      assert name == name[..i] + "." + name[i + 1..];
      Some((name[..i], name[i + 1..]))
  }

  /** Splitting is the inverse of joining a dot-free table name to a column name. */
  lemma SplitJoined(table: string, column: string)
    requires '.' !in table
    ensures SplitColumnName(table + "." + column) == Some((table, column))
  {
    var name := table + "." + column;
    var i := IndexOf(name, '.');
    assert name[|table|] == '.';
    assert i == |table|;
    assert name[..i] == table && name[i + 1..] == column;
  }

  /** The columns `col` contributes to `table`: one, or none. */
  function PieceOf(col: RawColumn, table: string): seq<Column> {
    match SplitColumnName(col.name)
    case None => []
    case Some(tc) => if tc.0 == table then [Column(tc.1, col.dtype, col.cells)] else []
  }

  /** The columns of `table`, in frame order. */
  function ColumnsOf(cols: seq<RawColumn>, table: string): seq<Column> {
    FlatMap(cols, c => PieceOf(c, table))
  }

  lemma ColumnsOfSnoc(cols: seq<RawColumn>, col: RawColumn, table: string)
    ensures ColumnsOf(cols + [col], table) == ColumnsOf(cols, table) + PieceOf(col, table)
  {
    FlatMapSnoc(cols, col, c => PieceOf(c, table));
  }

  /** Table names in order of first appearance (the defaultdict's key order). */
  function TableNames(cols: seq<RawColumn>): seq<string> {
    if cols == [] then []
    else
      var prev := TableNames(cols[..|cols| - 1]);
      match SplitColumnName(cols[|cols| - 1].name)
      case None => prev
      case Some(tc) => if tc.0 in prev then prev else prev + [tc.0]
  }

  /** One more frame column: its table is listed if new, and its piece is
      appended to that table's columns. */
  lemma SplitStep(cols: seq<RawColumn>, col: RawColumn)
    ensures var split := SplitColumnName(col.name);
      TableNames(cols + [col]) ==
        if split.Some? && split.value.0 !in TableNames(cols) then TableNames(cols) + [split.value.0] else TableNames(cols)
    ensures forall t :: ColumnsOf(cols + [col], t) == ColumnsOf(cols, t) + PieceOf(col, t)
    ensures forall t :: (SplitColumnName(col.name).None? || SplitColumnName(col.name).value.0 != t) ==> PieceOf(col, t) == []
    ensures var split := SplitColumnName(col.name);
      split.Some? ==> PieceOf(col, split.value.0) == [Column(split.value.1, col.dtype, col.cells)]
  {
    var next := cols + [col];
    assert next[..|next| - 1] == cols && next[|next| - 1] == col;
    forall t ensures ColumnsOf(next, t) == ColumnsOf(cols, t) + PieceOf(col, t) {
      ColumnsOfSnoc(cols, col, t);
    }
  }

  /** What `order` and `tables` hold once the columns `cols` are split. */
  ghost predicate SplitSoFar(cols: seq<RawColumn>, order: seq<string>, tables: map<string, seq<Column>>) {
    && order == TableNames(cols)
    && (forall t :: t in tables <==> t in order)
    && (forall t :: t in tables ==> tables[t] == ColumnsOf(cols, t))
    && (forall t :: t !in tables ==> ColumnsOf(cols, t) == [])
  }

  /** Splitting one more column keeps `SplitSoFar`. */
  lemma SplitSoFarStep(cols: seq<RawColumn>, col: RawColumn, order: seq<string>, tables: map<string, seq<Column>>,
                       order': seq<string>, tables': map<string, seq<Column>>)
    requires SplitSoFar(cols, order, tables)
    requires SplitColumnName(col.name).None? ==> order' == order && tables' == tables
    requires var split := SplitColumnName(col.name);
      split.Some? ==>
        && order' == (if split.value.0 in tables then order else order + [split.value.0])
        && tables' == tables[split.value.0 := (if split.value.0 in tables then tables[split.value.0] else []) + [Column(split.value.1, col.dtype, col.cells)]]
    ensures SplitSoFar(cols + [col], order', tables')
  {
    SplitStep(cols, col);
  }

  /** Lines 14-20: splits the extract's `table.column` headers (split at the first dot; a header without one is skipped) into one column list per table, in first-seen order. */
  method SplitTables(df: Frame) returns (order: seq<string>, tables: map<string, seq<Column>>)
    ensures order == TableNames(df.columns)
    ensures forall t :: t in tables <==> t in order
    ensures forall t :: t in tables ==> tables[t] == ColumnsOf(df.columns, t)
  {
    order, tables := [], map[];
    for i := 0 to |df.columns|
      invariant SplitSoFar(df.columns[..i], order, tables)
    {
      var col := df.columns[i];
      assert df.columns[..i + 1] == df.columns[..i] + [col];
      ghost var order0, tables0 := order, tables;
      var split := SplitColumnName(col.name);
      if split.Some? {
        var table, column := split.value.0, split.value.1;
        var prefix := if table in tables then tables[table] else [];
        if table !in tables {
          order := order + [table];
        }
        tables := tables[table := prefix + [Column(column, col.dtype, col.cells)]];
      }
      SplitSoFarStep(df.columns[..i], col, order0, tables0, order, tables);
    }
    assert df.columns[..|df.columns|] == df.columns;
  }

  /** A column of a table comes from exactly the frame columns named
      `table.column`; names without a dot contribute nothing. */
  lemma ColumnsOfMember(cols: seq<RawColumn>, table: string, c: Column)
    ensures c in ColumnsOf(cols, table) <==>
      exists k :: 0 <= k < |cols| && cols[k] == RawColumn(table + "." + c.name, c.dtype, c.cells) && '.' !in table
  {
    FlatMapMember(cols, col => PieceOf(col, table), c);
    if c in ColumnsOf(cols, table) {
      var k :| 0 <= k < |cols| && c in PieceOf(cols[k], table);
      PieceOfMember(cols[k], table, c);
    }
    if exists k :: 0 <= k < |cols| && cols[k] == RawColumn(table + "." + c.name, c.dtype, c.cells) && '.' !in table {
      var k :| 0 <= k < |cols| && cols[k] == RawColumn(table + "." + c.name, c.dtype, c.cells) && '.' !in table;
      PieceOfMember(cols[k], table, c);
    }
  }

  /** One frame column gives `c` to `table` exactly when it is named `table.c`. */
  lemma PieceOfMember(col: RawColumn, table: string, c: Column)
    ensures c in PieceOf(col, table) <==> col == RawColumn(table + "." + c.name, c.dtype, c.cells) && '.' !in table
  {
    if col == RawColumn(table + "." + c.name, c.dtype, c.cells) && '.' !in table {
      SplitJoined(table, c.name);
    }
  }

  /** `col` is a column of `table` once the frame is split. */
  predicate InTable(col: RawColumn, table: string) {
    var split := SplitColumnName(col.name);
    split.Some? && split.value.0 == table
  }

  /** Exactly the names that some dotted column carries are listed. */
  lemma TableNamesMember(cols: seq<RawColumn>, table: string)
    ensures table in TableNames(cols) <==> exists k :: 0 <= k < |cols| && InTable(cols[k], table)
  {
    if table in TableNames(cols) {
      TableNamesSound(cols, table);
    } else {
      TableNamesComplete(cols, table);
    }
  }

  /** A listed name is carried by some column. */
  lemma {:induction false} TableNamesSound(cols: seq<RawColumn>, table: string)
    requires table in TableNames(cols)
    ensures exists k :: 0 <= k < |cols| && InTable(cols[k], table)
  {
    var init := cols[..|cols| - 1];
    var last := cols[|cols| - 1];
    TableNamesStep(init, last, table);
    assert cols == init + [last];
    if table in TableNames(init) {
      TableNamesSound(init, table);
      var k :| 0 <= k < |init| && InTable(init[k], table);
      assert cols[k] == init[k];
    } else {
      assert InTable(cols[|cols| - 1], table);
    }
  }

  /** A name no column carries is not listed. */
  lemma {:induction false} TableNamesComplete(cols: seq<RawColumn>, table: string)
    requires table !in TableNames(cols)
    ensures forall k :: 0 <= k < |cols| ==> !InTable(cols[k], table)
  {
    if cols != [] {
      var init := cols[..|cols| - 1];
      var last := cols[|cols| - 1];
      TableNamesStep(init, last, table);
      assert cols == init + [last];
      TableNamesComplete(init, table);
      forall k | 0 <= k < |cols| ensures !InTable(cols[k], table) {
        if k < |init| {
          assert cols[k] == init[k];
        }
      }
    }
  }

  /** One more column lists its table, if it has one. */
  lemma TableNamesStep(init: seq<RawColumn>, last: RawColumn, table: string)
    ensures table in TableNames(init + [last]) <==> table in TableNames(init) || InTable(last, table)
  {
    var cols := init + [last];
    assert cols[..|cols| - 1] == init && cols[|cols| - 1] == last;
  }

  /** Every table name is listed once. */
  lemma {:induction false} TableNamesDistinct(cols: seq<RawColumn>)
    ensures NoDuplicates(TableNames(cols))
  {
    if cols != [] {
      var init := cols[..|cols| - 1];
      TableNamesDistinct(init);
      var prev := TableNames(init);
      var split := SplitColumnName(cols[|cols| - 1].name);
      if split.Some? && split.value.0 !in prev {
        var next := prev + [split.value.0];
        assert forall i :: 0 <= i < |prev| ==> next[i] == prev[i];
      }
    }
  }

  // ---------------------------------------------------------------------
  // Column profiling

  /** The distinct non-null values of a column (`nunique(dropna=True)` counts them). */
  function Values(cells: seq<Cell>): set<Value> {
    if cells == [] then {}
    else
      var last := cells[|cells| - 1];
      Values(cells[..|cells| - 1]) + (if last.Some? then {last.value} else {})
  }

  /** `isna().sum()` */
  function NullCount(cells: seq<Cell>): nat {
    if cells == [] then 0
    else NullCount(cells[..|cells| - 1]) + (if cells[|cells| - 1].None? then 1 else 0)
  }

  /** No two non-null cells hold the same value. */
  predicate NoRepeatedValue(cells: seq<Cell>) {
    forall i, j :: 0 <= i < j < |cells| && cells[i].Some? ==> cells[i] != cells[j]
  }

  lemma {:induction false} ValuesMember(cells: seq<Cell>, v: Value)
    ensures v in Values(cells) <==> exists i :: 0 <= i < |cells| && cells[i] == Some(v)
  {
    if cells != [] {
      var init := cells[..|cells| - 1];
      ValuesMember(init, v);
      if v in Values(init) {
        var i :| 0 <= i < |init| && init[i] == Some(v);
        assert cells[i] == init[i];
      }
      if exists i :: 0 <= i < |cells| && cells[i] == Some(v) {
        var i :| 0 <= i < |cells| && cells[i] == Some(v);
        if i < |init| {
          assert init[i] == cells[i];
        }
      }
    }
  }

  /** Distinct non-null values plus nulls never exceed the rows, and they
      reach it exactly when no non-null value repeats. */
  lemma {:induction false} ProfileCounts(cells: seq<Cell>)
    ensures |Values(cells)| + NullCount(cells) <= |cells|
    ensures |Values(cells)| + NullCount(cells) == |cells| <==> NoRepeatedValue(cells)
  {
    if cells != [] {
      var init := cells[..|cells| - 1];
      var last := cells[|cells| - 1];
      ProfileCounts(init);
      assert forall i :: 0 <= i < |init| ==> cells[i] == init[i];
      match last {
        case None =>
          assert NoRepeatedValue(cells) <==> NoRepeatedValue(init);
        case Some(v) =>
          ValuesMember(init, v);
          if v in Values(init) {
            var i :| 0 <= i < |init| && init[i] == Some(v);
            assert cells[i] == cells[|cells| - 1];
            assert !NoRepeatedValue(cells);
          } else {
            assert Values(cells) == Values(init) + {v};
            assert NoRepeatedValue(cells) <==> NoRepeatedValue(init);
          }
      }
    }
  }

  /** Lines 31-36: the profile of one column of a table with `rowCount` rows. */
  function Profile(rowCount: nat, col: Column): (s: ColumnStats)
    requires |col.cells| == rowCount
    ensures s.name == col.name && s.dtype == col.dtype && s.rowCount == rowCount
    ensures s.distinctCount + s.nullCount <= s.rowCount
  {
    ProfileCounts(col.cells);
    ColumnStats(col.name, rowCount, |Values(col.cells)|, NullCount(col.cells), col.dtype)
  }

  /** Lines 29-36: the profiles of one table's columns, in column order. */
  method ProfileTable(rowCount: nat, cols: seq<Column>) returns (stats: seq<ColumnStats>)
    requires forall k :: 0 <= k < |cols| ==> |cols[k].cells| == rowCount
    ensures |stats| == |cols|
    ensures forall k :: 0 <= k < |cols| ==> stats[k] == Profile(rowCount, cols[k])
  {
    stats := [];
    for i := 0 to |cols|
      invariant |stats| == i
      invariant forall k :: 0 <= k < i ==> stats[k] == Profile(rowCount, cols[k])
    {
      stats := stats + [Profile(rowCount, cols[i])];
    }
  }

  predicate RowsAgree(rowCount: nat, tables: map<string, seq<Column>>) {
    forall t, k :: t in tables && 0 <= k < |tables[t]| ==> |tables[t][k].cells| == rowCount
  }

  /** Lines 25-36: every column of every table is profiled; each table has
      the row count of the whole frame (`len(tdf)`), since every table is
      built from the frame's own columns. */
  method ProfileTables(rowCount: nat, order: seq<string>, tables: map<string, seq<Column>>)
    returns (stats: map<string, seq<ColumnStats>>)
    requires forall t :: t in tables <==> t in order
    requires RowsAgree(rowCount, tables)
    ensures stats.Keys == tables.Keys
    ensures forall t :: t in stats ==> |stats[t]| == |tables[t]|
    ensures forall t, k :: t in stats && 0 <= k < |stats[t]| ==> stats[t][k] == Profile(rowCount, tables[t][k])
  {
    stats := map[];
    for i := 0 to |order|
      invariant stats.Keys == set t | t in order[..i]
      invariant forall t :: t in stats ==> |stats[t]| == |tables[t]|
      invariant forall t, k :: t in stats && 0 <= k < |stats[t]| ==> stats[t][k] == Profile(rowCount, tables[t][k])
    {
      var table := order[i];
      var s := ProfileTable(rowCount, tables[table]);
      stats := stats[table := s];
      assert order[..i + 1] == order[..i] + [table];
    }
    assert order[..|order|] == order;
  }

  // ---------------------------------------------------------------------
  // Primary-key candidates

  predicate IsKeyCandidate(s: ColumnStats) {
    s.distinctCount == s.rowCount && s.nullCount == 0
  }

  /** A column is a key candidate exactly when it has no null and no repeated value. */
  lemma KeyCandidateMeansUnique(rowCount: nat, col: Column)
    requires |col.cells| == rowCount
    ensures IsKeyCandidate(Profile(rowCount, col)) <==>
      (forall i :: 0 <= i < |col.cells| ==> col.cells[i].Some?) && NoRepeatedValue(col.cells)
  {
    ProfileCounts(col.cells);
    NullCountZero(col.cells);
  }

  lemma {:induction false} NullCountZero(cells: seq<Cell>)
    ensures NullCount(cells) == 0 <==> forall i :: 0 <= i < |cells| ==> cells[i].Some?
  {
    if cells != [] {
      var init := cells[..|cells| - 1];
      NullCountZero(init);
      assert forall i :: 0 <= i < |init| ==> cells[i] == init[i];
    }
  }

  /** The names of all key candidates of a table, in column order. */
  function KeyNames(stats: seq<ColumnStats>): seq<string> {
    FlatMap(stats, s => if IsKeyCandidate(s) then [s.name] else [])
  }

  /** Every qualifying column is kept, and only those. */
  lemma KeyNamesMember(stats: seq<ColumnStats>, name: string)
    ensures name in KeyNames(stats) <==>
      exists k :: 0 <= k < |stats| && stats[k].name == name && IsKeyCandidate(stats[k])
  {
    FlatMapMember(stats, s => if IsKeyCandidate(s) then [s.name] else [], name);
  }

  /** Lines 39-47: `primary_keys` is a defaultdict(list), so a table gets an
      entry only when one of its columns qualifies. */
  method PrimaryKeys(order: seq<string>, stats: map<string, seq<ColumnStats>>)
    returns (pks: map<string, seq<string>>)
    requires forall t :: t in stats <==> t in order
    requires NoDuplicates(order)
    ensures forall t :: t in pks <==> t in stats && KeyNames(stats[t]) != []
    ensures forall t :: t in pks ==> pks[t] == KeyNames(stats[t])
  {
    pks := map[];
    for i := 0 to |order|
      invariant forall t :: t in pks <==> t in order[..i] && KeyNames(stats[t]) != []
      invariant forall t :: t in pks ==> pks[t] == KeyNames(stats[t])
    {
      var table := order[i];
      var cols := stats[table];
      assert table !in order[..i];
      for j := 0 to |cols|
        invariant forall t :: t != table ==> (t in pks <==> t in order[..i] && KeyNames(stats[t]) != [])
        invariant forall t :: t in pks && t != table ==> pks[t] == KeyNames(stats[t])
        invariant table in pks <==> KeyNames(cols[..j]) != []
        invariant table in pks ==> pks[table] == KeyNames(cols[..j])
      {
        assert cols[..j + 1] == cols[..j] + [cols[j]];
        FlatMapSnoc(cols[..j], cols[j], s => if IsKeyCandidate(s) then [s.name] else []);
        if IsKeyCandidate(cols[j]) {
          var keys := if table in pks then pks[table] else [];
          pks := pks[table := keys + [cols[j].name]];
        }
      }
      assert cols[..|cols|] == cols;
      assert order[..i + 1] == order[..i] + [table];
    }
    assert order[..|order|] == order;
  }

  // ---------------------------------------------------------------------
  // Foreign-key scan

  /** The profiled extract the scan reads: the split tables, their profiles
      and their key candidates, keyed by table name, with the table order. */
  datatype Profiled = Profiled(
    order: seq<string>,
    tables: map<string, seq<Column>>,
    stats: map<string, seq<ColumnStats>>,
    pks: map<string, seq<string>>)

  function StatsNamed(stats: seq<ColumnStats>, name: string): (r: Option<ColumnStats>)
    ensures r.Some? ==> r.value in stats && r.value.name == name
  {
    if stats == [] then None
    else if stats[0].name == name then Some(stats[0])
    else StatsNamed(stats[1..], name)
  }

  function ColumnNamed(cols: seq<Column>, name: string): (r: Option<Column>)
    ensures r.Some? ==> r.value in cols && r.value.name == name
  {
    if cols == [] then None
    else if cols[0].name == name then Some(cols[0])
    else ColumnNamed(cols[1..], name)
  }

  /** Line 65: |distinct non-null fk values ∩ distinct pk values| over
      max(|distinct non-null fk values|, 1), as (numerator, denominator).
      `unique()` on the key side may include a null, but the fk side has
      none, so the intersection is that of the non-null values. */
  function Coverage(fkCells: seq<Cell>, pkCells: seq<Cell>): (c: (nat, nat))
    ensures 1 <= c.1 && c.0 <= c.1
    ensures c.1 == if Values(fkCells) == {} then 1 else |Values(fkCells)|
    ensures Values(fkCells) == {} ==> c.0 == 0
  {
    var fk := Values(fkCells);
    SubsetCard(fk * Values(pkCells), fk);
    (|fk * Values(pkCells)|, if |fk| > 1 then |fk| else 1)
  }

  lemma SubsetCard<T>(a: set<T>, b: set<T>)
    requires a <= b
    ensures |a| <= |b|
  {
    assert b == a + (b - a);
  }

  /** Line 67: `coverage > 0.95`, exactly: 20 * inter > 19 * denom. */
  predicate Accepts(c: (nat, nat)) {
    20 * c.0 > 19 * c.1
  }

  /** Lines 59-74 for one pair: the key column's dtype must match; the pair
      is kept iff its coverage is accepted. Names always resolve (they come
      from the same tables); an unresolved name yields nothing. */
  function PairResult(p: Profiled, fact: string, fk: ColumnStats, dim: string, pkName: string): seq<ForeignKey> {
    if fact !in p.tables || dim !in p.tables || dim !in p.stats then []
    else
      match (StatsNamed(p.stats[dim], pkName), ColumnNamed(p.tables[fact], fk.name), ColumnNamed(p.tables[dim], pkName))
      case (Some(pk), Some(fc), Some(pc)) =>
        if fk.dtype != pk.dtype then []
        else
          var cov := Coverage(fc.cells, pc.cells);
          if Accepts(cov) then [ForeignKey(fact, fk.name, dim, pkName, cov.0, cov.1)] else []
      case _ => []
  }

  function DimKeys(p: Profiled, dim: string): seq<string> {
    if dim in p.pks then p.pks[dim] else []
  }

  function FactColumns(p: Profiled, fact: string): seq<ColumnStats> {
    if fact in p.stats then p.stats[fact] else []
  }

  /** Line 58: every key of `dim` against one fk column. */
  function ScanKeys(p: Profiled, fact: string, fk: ColumnStats, dim: string, keys: seq<string>): seq<ForeignKey> {
    FlatMap(keys, pk => PairResult(p, fact, fk, dim, pk))
  }

  /** Line 57: every column of `fact` against the keys of `dim`. */
  function ScanColumns(p: Profiled, fact: string, fks: seq<ColumnStats>, dim: string): seq<ForeignKey> {
    FlatMap(fks, fk => ScanKeys(p, fact, fk, dim, DimKeys(p, dim)))
  }

  /** Lines 53-55: every other table that has keys. `primary_keys` holds the
      tables with a key in table order, so walking the whole order and
      reading an absent entry as no keys visits the same pairs. */
  function ScanDims(p: Profiled, fact: string, dims: seq<string>): seq<ForeignKey> {
    FlatMap(dims, dim => if dim == fact then [] else ScanColumns(p, fact, FactColumns(p, fact), dim))
  }

  /** Lines 50-74: the whole scan, in the script's order. */
  function Scan(p: Profiled): seq<ForeignKey> {
    FlatMap(p.order, fact => ScanDims(p, fact, p.order))
  }

  /** Line 58 as a loop. */
  method MatchKeys(p: Profiled, fact: string, fk: ColumnStats, dim: string, keys: seq<string>)
    returns (found: seq<ForeignKey>)
    ensures found == ScanKeys(p, fact, fk, dim, keys)
  {
    found := [];
    for i := 0 to |keys|
      invariant found == ScanKeys(p, fact, fk, dim, keys[..i])
    {
      FlatMapSnoc(keys[..i], keys[i], pk => PairResult(p, fact, fk, dim, pk));
      assert keys[..i + 1] == keys[..i] + [keys[i]];
      found := found + PairResult(p, fact, fk, dim, keys[i]);
    }
    assert keys[..|keys|] == keys;
  }

  /** Line 57 as a loop. */
  method MatchColumns(p: Profiled, fact: string, fks: seq<ColumnStats>, dim: string)
    returns (found: seq<ForeignKey>)
    ensures found == ScanColumns(p, fact, fks, dim)
  {
    found := [];
    for i := 0 to |fks|
      invariant found == ScanColumns(p, fact, fks[..i], dim)
    {
      FlatMapSnoc(fks[..i], fks[i], fk => ScanKeys(p, fact, fk, dim, DimKeys(p, dim)));
      assert fks[..i + 1] == fks[..i] + [fks[i]];
      var more := MatchKeys(p, fact, fks[i], dim, DimKeys(p, dim));
      found := found + more;
    }
    assert fks[..|fks|] == fks;
  }

  /** Lines 53-55 as a loop. */
  method MatchDims(p: Profiled, fact: string) returns (found: seq<ForeignKey>)
    ensures found == ScanDims(p, fact, p.order)
  {
    found := [];
    for i := 0 to |p.order|
      invariant found == ScanDims(p, fact, p.order[..i])
    {
      var dim := p.order[i];
      FlatMapSnoc(p.order[..i], dim, d => if d == fact then [] else ScanColumns(p, fact, FactColumns(p, fact), d));
      assert p.order[..i + 1] == p.order[..i] + [dim];
      if dim != fact {
        var more := MatchColumns(p, fact, FactColumns(p, fact), dim);
        found := found + more;
      }
    }
    assert p.order[..|p.order|] == p.order;
  }

  /** Lines 50-74: the `foreign_keys` list. */
  method ForeignKeys(p: Profiled) returns (fks: seq<ForeignKey>)
    ensures fks == Scan(p)
  {
    fks := [];
    for i := 0 to |p.order|
      invariant fks == FlatMap(p.order[..i], fact => ScanDims(p, fact, p.order))
    {
      var fact := p.order[i];
      FlatMapSnoc(p.order[..i], fact, f => ScanDims(p, f, p.order));
      assert p.order[..i + 1] == p.order[..i] + [fact];
      var more := MatchDims(p, fact);
      fks := fks + more;
    }
    assert p.order[..|p.order|] == p.order;
  }

  /** What one accepted pair is: two different tables of the order, a key
      column of the target, equal dtypes, and exact coverage above 0.95. */
  ghost predicate Accepted(p: Profiled, fk: ForeignKey) {
    && fk.fromTable in p.order && fk.toTable in p.order
    && fk.fromTable != fk.toTable
    && fk.fromTable in p.tables && fk.toTable in p.tables && fk.toTable in p.stats
    && fk.toColumn in DimKeys(p, fk.toTable)
    && (exists s :: s in FactColumns(p, fk.fromTable) && s.name == fk.fromColumn && CoveredBy(p, fk, s))
  }

  /** The fact column `s` of `fk` and its target key column both have cells,
      the key's profile has the dtype of `s`, and the coverage of the target's
      values by those of `s` is accepted and is the one `fk` records. */
  predicate CoveredBy(p: Profiled, fk: ForeignKey, s: ColumnStats) {
    && fk.fromTable in p.tables && fk.toTable in p.tables && fk.toTable in p.stats
    && match (StatsNamed(p.stats[fk.toTable], fk.toColumn), ColumnNamed(p.tables[fk.fromTable], s.name),
              ColumnNamed(p.tables[fk.toTable], fk.toColumn))
       case (Some(pk), Some(fc), Some(pc)) =>
         && s.dtype == pk.dtype
         && Accepts(Coverage(fc.cells, pc.cells))
         && (fk.inter, fk.denom) == Coverage(fc.cells, pc.cells)
       case _ => false
  }

  /** One pair yields exactly `fk` iff `fk` names that pair and is covered. */
  lemma PairResultCovered(p: Profiled, s: ColumnStats, fk: ForeignKey)
    requires s.name == fk.fromColumn
    ensures PairResult(p, fk.fromTable, s, fk.toTable, fk.toColumn) == [fk] <==> CoveredBy(p, fk, s)
  {
  }

  lemma ScanKeysMember(p: Profiled, fact: string, fk: ColumnStats, dim: string, keys: seq<string>, x: ForeignKey)
    ensures x in ScanKeys(p, fact, fk, dim, keys) <==>
      exists k :: 0 <= k < |keys| && x in PairResult(p, fact, fk, dim, keys[k])
  {
    FlatMapMember(keys, pk => PairResult(p, fact, fk, dim, pk), x);
  }

  lemma ScanColumnsMember(p: Profiled, fact: string, fks: seq<ColumnStats>, dim: string, x: ForeignKey)
    ensures x in ScanColumns(p, fact, fks, dim) <==>
      exists k :: 0 <= k < |fks| && x in ScanKeys(p, fact, fks[k], dim, DimKeys(p, dim))
  {
    FlatMapMember(fks, fk => ScanKeys(p, fact, fk, dim, DimKeys(p, dim)), x);
  }

  lemma ScanDimsMember(p: Profiled, fact: string, dims: seq<string>, x: ForeignKey)
    ensures x in ScanDims(p, fact, dims) <==>
      exists k :: 0 <= k < |dims| && dims[k] != fact && x in ScanColumns(p, fact, FactColumns(p, fact), dims[k])
  {
    FlatMapMember(dims, dim => if dim == fact then [] else ScanColumns(p, fact, FactColumns(p, fact), dim), x);
  }

  lemma ScanMember(p: Profiled, x: ForeignKey)
    ensures x in Scan(p) <==> exists k :: 0 <= k < |p.order| && x in ScanDims(p, p.order[k], p.order)
  {
    FlatMapMember(p.order, fact => ScanDims(p, fact, p.order), x);
  }

  lemma PairResultShape(p: Profiled, fact: string, s: ColumnStats, dim: string, pk: string, x: ForeignKey)
    requires x in PairResult(p, fact, s, dim, pk)
    ensures PairResult(p, fact, s, dim, pk) == [x]
    ensures x.fromTable == fact && x.fromColumn == s.name && x.toTable == dim && x.toColumn == pk
    ensures fact in p.tables && dim in p.tables && dim in p.stats
  {
  }

  /** Every output of the scan is an accepted pair. */
  lemma ScanSound(p: Profiled, fk: ForeignKey)
    requires fk in Scan(p)
    ensures Accepted(p, fk)
  {
    ScanMember(p, fk);
    var i :| 0 <= i < |p.order| && fk in ScanDims(p, p.order[i], p.order);
    var fact := p.order[i];
    ScanDimsMember(p, fact, p.order, fk);
    var j :| 0 <= j < |p.order| && p.order[j] != fact && fk in ScanColumns(p, fact, FactColumns(p, fact), p.order[j]);
    var dim := p.order[j];
    ScanColumnsMember(p, fact, FactColumns(p, fact), dim, fk);
    var k :| 0 <= k < |FactColumns(p, fact)| && fk in ScanKeys(p, fact, FactColumns(p, fact)[k], dim, DimKeys(p, dim));
    var s := FactColumns(p, fact)[k];
    ScanKeysMember(p, fact, s, dim, DimKeys(p, dim), fk);
    var m :| 0 <= m < |DimKeys(p, dim)| && fk in PairResult(p, fact, s, dim, DimKeys(p, dim)[m]);
    PairResultShape(p, fact, s, dim, DimKeys(p, dim)[m], fk);
    PairResultCovered(p, s, fk);
    assert s in FactColumns(p, fact);
  }

  /** Every accepted pair is output. */
  lemma ScanComplete(p: Profiled, fk: ForeignKey)
    requires Accepted(p, fk)
    ensures fk in Scan(p)
  {
    var s :| s in FactColumns(p, fk.fromTable) && s.name == fk.fromColumn && CoveredBy(p, fk, s);
    PairResultCovered(p, s, fk);
    ScanCompleteFrom(p, fk, s);
  }

  /** A pair that yields `fk` from a fact column of a table of the order,
      against a key of another table of the order, is output. */
  lemma ScanCompleteFrom(p: Profiled, fk: ForeignKey, s: ColumnStats)
    requires fk.fromTable in p.order && fk.toTable in p.order && fk.fromTable != fk.toTable
    requires fk.toColumn in DimKeys(p, fk.toTable) && s in FactColumns(p, fk.fromTable)
    requires PairResult(p, fk.fromTable, s, fk.toTable, fk.toColumn) == [fk]
    ensures fk in Scan(p)
  {
    var fact, dim := fk.fromTable, fk.toTable;
    var keys := DimKeys(p, dim);
    var m :| 0 <= m < |keys| && keys[m] == fk.toColumn;
    ScanKeysMember(p, fact, s, dim, keys, fk);
    var k :| 0 <= k < |FactColumns(p, fact)| && FactColumns(p, fact)[k] == s;
    ScanColumnsMember(p, fact, FactColumns(p, fact), dim, fk);
    var j :| 0 <= j < |p.order| && p.order[j] == dim;
    ScanDimsMember(p, fact, p.order, fk);
    var i :| 0 <= i < |p.order| && p.order[i] == fact;
    ScanMember(p, fk);
  }

  /** The scan outputs exactly the accepted pairs. */
  lemma ScanExact(p: Profiled, fk: ForeignKey)
    ensures fk in Scan(p) <==> Accepted(p, fk)
  {
    if fk in Scan(p) {
      ScanSound(p, fk);
    }
    if Accepted(p, fk) {
      ScanComplete(p, fk);
    }
  }

  /** The facts an accepted pair carries: no self-relationship, equal
      dtypes, a key-candidate target, and coverage in (0.95, 1]. */
  lemma AcceptedFacts(p: Profiled, fk: ForeignKey)
    requires fk in Scan(p)
    ensures fk.fromTable != fk.toTable
    ensures fk.toColumn in DimKeys(p, fk.toTable)
    ensures 20 * fk.inter > 19 * fk.denom && fk.inter <= fk.denom
    ensures fk.toTable in p.stats
    ensures exists s, pk ::
      (s in FactColumns(p, fk.fromTable) && s.name == fk.fromColumn
       && StatsNamed(p.stats[fk.toTable], fk.toColumn) == Some(pk) && s.dtype == pk.dtype)
  {
    ScanExact(p, fk);
    var s :| s in FactColumns(p, fk.fromTable) && s.name == fk.fromColumn && CoveredBy(p, fk, s);
    PairResultCovered(p, s, fk);
    var pk := StatsNamed(p.stats[fk.toTable], fk.toColumn).value;
    assert s.dtype == pk.dtype;
  }

  /** A fact column with no non-null value has coverage 0 and is never accepted. */
  lemma AllNullNeverAccepted(fkCells: seq<Cell>, pkCells: seq<Cell>)
    requires forall i :: 0 <= i < |fkCells| ==> fkCells[i].None?
    ensures Coverage(fkCells, pkCells) == (0, 1)
    ensures !Accepts(Coverage(fkCells, pkCells))
  {
    if Values(fkCells) != {} {
      var v :| v in Values(fkCells);
      ValuesMember(fkCells, v);
    }
  }

  // ---------------------------------------------------------------------
  // Relationship records

  /** `round(coverage, 3)` in thousandths, to the nearest (halves upward). */
  function Thousandths(inter: nat, denom: nat): (r: nat)
    requires 1 <= denom
    ensures 2 * (r * denom) <= 2000 * inter + denom
    ensures 2000 * inter + denom < 2 * (r * denom) + 2 * denom
  {
    (2000 * inter + denom) / (2 * denom)
  }

  /** Lines 80-92 for one foreign key. */
  function ToRelationship(fk: ForeignKey): Relationship
    requires 1 <= fk.denom
  {
    Relationship(fk.fromTable, fk.fromColumn, fk.toTable, fk.toColumn,
                 "ManyToOne", "Single", Thousandths(fk.inter, fk.denom),
                 (fk.inter, fk.denom), true)
  }

  lemma MulLess(a: int, b: int, c: int)
    requires c > 0 && a * c < b * c
    ensures a < b
  {
  }

  /** An accepted coverage gives a confidence between 0.950 and 1.000. */
  lemma ConfidenceRange(inter: nat, denom: nat)
    requires 1 <= denom && inter <= denom && 20 * inter > 19 * denom
    ensures 950 <= Thousandths(inter, denom) <= 1000
  {
    var r := Thousandths(inter, denom);
    assert 2 * (r * denom) <= 2000 * inter + denom <= 2001 * denom;
    MulLess(r, 1001, denom);
    assert 1900 * denom < 2000 * inter;
    assert 1899 * denom < 2 * (r * denom);
    MulLess(949, r, denom);
  }

  /** Lines 77-92: one relationship per foreign key, in order. */
  method Relationships(fks: seq<ForeignKey>) returns (rels: seq<Relationship>)
    requires forall k :: 0 <= k < |fks| ==> 1 <= fks[k].denom
    ensures |rels| == |fks|
    ensures forall k :: 0 <= k < |fks| ==> rels[k] == ToRelationship(fks[k])
  {
    rels := [];
    for i := 0 to |fks|
      invariant |rels| == i
      invariant forall k :: 0 <= k < i ==> rels[k] == ToRelationship(fks[k])
    {
      rels := rels + [ToRelationship(fks[i])];
    }
  }

  /** What every relationship of the script carries: the fixed cardinality,
      filter direction and verification flag, two different tables, a
      confidence between 0.950 and 1.000 within half a thousandth of the
      exact coverage, and a target column that is a key candidate. */
  lemma RelationshipFacts(p: Profiled, fk: ForeignKey)
    requires fk in Scan(p)
    requires forall t :: t in p.pks ==> t in p.stats && p.pks[t] == KeyNames(p.stats[t])
    ensures 1 <= fk.denom
    ensures var r := ToRelationship(fk);
      && r.cardinality == "ManyToOne" && r.crossFilterDirection == "Single" && r.pkVerified
      && r.fromTable != r.toTable
      && 950 <= r.confidence <= 1000
      && 2 * (r.confidence * fk.denom) <= 2000 * fk.inter + fk.denom < 2 * (r.confidence * fk.denom) + 2 * fk.denom
      && r.toTable in p.stats
      && exists k :: 0 <= k < |p.stats[r.toTable]| && p.stats[r.toTable][k].name == r.toColumn && IsKeyCandidate(p.stats[r.toTable][k])
  {
    AcceptedFacts(p, fk);
    ConfidenceRange(fk.inter, fk.denom);
    KeyNamesMember(p.stats[fk.toTable], fk.toColumn);
  }

  // ---------------------------------------------------------------------
  // The whole script

  /** Every column of a split table has the frame's row count. */
  lemma SplitRows(df: Frame)
    requires WellFormed(df)
    ensures forall t, k :: 0 <= k < |ColumnsOf(df.columns, t)| ==> |ColumnsOf(df.columns, t)[k].cells| == df.rowCount
  {
    forall t, k | 0 <= k < |ColumnsOf(df.columns, t)| ensures |ColumnsOf(df.columns, t)[k].cells| == df.rowCount {
      ColumnsOfMember(df.columns, t, ColumnsOf(df.columns, t)[k]);
    }
  }

  function ProfileAll(rowCount: nat, cols: seq<Column>): (stats: seq<ColumnStats>)
    requires forall k :: 0 <= k < |cols| ==> |cols[k].cells| == rowCount
    ensures |stats| == |cols|
  {
    seq(|cols|, k requires 0 <= k < |cols| => Profile(rowCount, cols[k]))
  }

  /** The profiled extract the script builds from a frame. */
  ghost function Analyse(df: Frame): Profiled
    requires WellFormed(df)
  {
    SplitRows(df);
    var order := TableNames(df.columns);
    var tables := map t | t in order :: ColumnsOf(df.columns, t);
    var stats := map t | t in order :: ProfileAll(df.rowCount, tables[t]);
    var pks := map t | t in order && t in stats && KeyNames(stats[t]) != [] :: KeyNames(stats[t]);
    Profiled(order, tables, stats, pks)
  }

  /** The phases of the script build exactly `Analyse(df)`. */
  lemma AnalyseMatches(df: Frame, order: seq<string>, tables: map<string, seq<Column>>,
                       stats: map<string, seq<ColumnStats>>, pks: map<string, seq<string>>)
    requires WellFormed(df)
    requires order == TableNames(df.columns)
    requires forall t :: t in tables <==> t in order
    requires forall t :: t in tables ==> tables[t] == ColumnsOf(df.columns, t)
    requires stats.Keys == tables.Keys
    requires forall t :: t in stats ==> |stats[t]| == |tables[t]|
    requires forall t, k :: t in stats && 0 <= k < |stats[t]| ==> |tables[t][k].cells| == df.rowCount && stats[t][k] == Profile(df.rowCount, tables[t][k])
    requires forall t :: t in pks <==> t in stats && KeyNames(stats[t]) != []
    requires forall t :: t in pks ==> pks[t] == KeyNames(stats[t])
    ensures Profiled(order, tables, stats, pks) == Analyse(df)
  {
    var a := Analyse(df);
    TablesMatch(df, tables, a);
    StatsMatch(df, tables, stats, a);
    PksMatch(stats, pks, a);
  }

  lemma TablesMatch(df: Frame, tables: map<string, seq<Column>>, a: Profiled)
    requires WellFormed(df) && a == Analyse(df)
    requires forall t :: t in tables <==> t in TableNames(df.columns)
    requires forall t :: t in tables ==> tables[t] == ColumnsOf(df.columns, t)
    ensures tables == a.tables
  {
    assert tables.Keys == a.tables.Keys;
  }

  lemma StatsMatch(df: Frame, tables: map<string, seq<Column>>, stats: map<string, seq<ColumnStats>>, a: Profiled)
    requires WellFormed(df) && a == Analyse(df) && tables == a.tables
    requires stats.Keys == tables.Keys
    requires forall t :: t in stats ==> |stats[t]| == |tables[t]|
    requires forall t, k :: t in stats && 0 <= k < |stats[t]| ==> |tables[t][k].cells| == df.rowCount && stats[t][k] == Profile(df.rowCount, tables[t][k])
    ensures stats == a.stats
  {
    forall t | t in stats ensures stats[t] == a.stats[t] {
      var all := ProfileAll(df.rowCount, tables[t]);
      forall k | 0 <= k < |all| ensures all[k] == stats[t][k] {
      }
    }
  }

  lemma PksMatch(stats: map<string, seq<ColumnStats>>, pks: map<string, seq<string>>, a: Profiled)
    requires stats == a.stats
    requires a.pks == map t | t in a.order && t in a.stats && KeyNames(a.stats[t]) != [] :: KeyNames(a.stats[t])
    requires forall t :: t in a.stats <==> t in a.order
    requires forall t :: t in pks <==> t in stats && KeyNames(stats[t]) != []
    requires forall t :: t in pks ==> pks[t] == KeyNames(stats[t])
    ensures pks == a.pks
  {
  }

  /** Lines 14-92: split, profile, nominate keys, scan and build the records. */
  method InferRelationships(df: Frame) returns (rels: seq<Relationship>)
    requires WellFormed(df)
    ensures |rels| == |Scan(Analyse(df))|
    ensures forall k :: 0 <= k < |rels| ==>
      var fk := Scan(Analyse(df))[k];
      && 20 * fk.inter > 19 * fk.denom && fk.inter <= fk.denom
      && rels[k] == ToRelationship(fk)
  {
    var order: seq<string>, tables: map<string, seq<Column>> := SplitTables(df);
    SplitRows(df);
    var stats := ProfileTables(df.rowCount, order, tables);
    TableNamesDistinct(df.columns);
    var pks := PrimaryKeys(order, stats);
    var p := Profiled(order, tables, stats, pks);
    AnalyseMatches(df, order, tables, stats, pks);
    var fks := ForeignKeys(p);
    forall k | 0 <= k < |fks| ensures 20 * fks[k].inter > 19 * fks[k].denom && 1 <= fks[k].denom && fks[k].inter <= fks[k].denom {
      AcceptedFacts(p, fks[k]);
    }
    rels := Relationships(fks);
  }
}

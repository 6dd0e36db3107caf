/** The Power BI Tabular Object Model export (export_powerbi_tom.py).

    A type lookup is built from the extract's schema; one TOM table per
    semantic-model table is created with typed columns and no measures;
    each measure is appended to the table its ownership map names, or
    recorded as an unplaced-measure annotation; relationships are copied
    with their keys renamed; a migration note closes the annotations. The
    tables are objects: measures are appended to them through a name ->
    table map that aliases the model's own list. */
module TomExport {
  import opened Wrappers
  import opened Strings
  import opened Seqs

  // ---------------------------------------------------------------------
  // Type mapping and the type lookup (lines 20-33)

  /** Lines 24-32: the first test that holds on the lowercased type name. */
  function TypeFor(raw: string): (t: string)
    ensures t in {"int64", "double", "dateTime", "string"}
  {
    var r := Lower(raw);
    if Contains(r, "int") then "int64"
    else if Contains(r, "double") || Contains(r, "float") || Contains(r, "numeric") then "double"
    else if Contains(r, "date") || Contains(r, "time") then "dateTime"
    else "string"
  }

  /** The precedence of the tests: an `int` anywhere wins, so a type whose
      name merely contains those letters is an integer too. */
  lemma TypePrecedence(raw: string)
    ensures TypeFor(raw) == "int64" <==> Contains(Lower(raw), "int")
    ensures TypeFor(raw) == "double" <==>
      !Contains(Lower(raw), "int") && (Contains(Lower(raw), "double") || Contains(Lower(raw), "float") || Contains(Lower(raw), "numeric"))
    ensures TypeFor(raw) == "dateTime" <==>
      && !Contains(Lower(raw), "int")
      && !(Contains(Lower(raw), "double") || Contains(Lower(raw), "float") || Contains(Lower(raw), "numeric"))
      && (Contains(Lower(raw), "date") || Contains(Lower(raw), "time"))
  {
  }

  /** The type depends on the lowercased name only. */
  lemma TypeIgnoresCase(a: string, b: string)
    requires Lower(a) == Lower(b)
    ensures TypeFor(a) == TypeFor(b)
  {
  }

  /** One column of the extract's schema. */
  datatype SchemaColumn = SchemaColumn(columnName: string, dataType: string)

  /** One table of the extract's schema. */
  datatype SchemaTable = SchemaTable(table: string, columns: seq<SchemaColumn>)

  type ColumnKey = (string, string)

  /** The lookup after the columns `cols` of table `t`, starting from `m`. */
  function AddColumnTypes(m: map<ColumnKey, string>, t: string, cols: seq<SchemaColumn>): (r: map<ColumnKey, string>)
    ensures r.Keys == m.Keys + set c | c in cols :: (t, c.columnName)
  {
    if cols == [] then m
    else
      var last := cols[|cols| - 1];
      AddColumnTypes(m, t, cols[..|cols| - 1])[(t, last.columnName) := TypeFor(last.dataType)]
  }

  /** The lookup after the tables `schema`; later entries overwrite
      earlier ones. */
  function TypeLookup(schema: seq<SchemaTable>): map<ColumnKey, string> {
    if schema == [] then map[]
    else
      var last := schema[|schema| - 1];
      AddColumnTypes(TypeLookup(schema[..|schema| - 1]), last.table, last.columns)
  }

  /** Lines 20-33: the (table, column) to TOM type lookup, built column by column. */
  method BuildTypeLookup(schema: seq<SchemaTable>) returns (lookup: map<ColumnKey, string>)
    ensures lookup == TypeLookup(schema)
  {
    lookup := map[];
    for i := 0 to |schema|
      invariant lookup == TypeLookup(schema[..i])
    {
      var table := schema[i];
      ghost var before := lookup;
      for j := 0 to |table.columns|
        invariant lookup == AddColumnTypes(before, table.table, table.columns[..j])
      {
        var col := table.columns[j];
        assert table.columns[..j + 1][..j] == table.columns[..j];
        lookup := lookup[(table.table, col.columnName) := TypeFor(col.dataType)];
      }
      assert table.columns[..|table.columns|] == table.columns;
      assert schema[..i + 1][..i] == schema[..i];
    }
    assert schema[..|schema|] == schema;
  }

  /** Column `j` of table `i` of the schema has the key `k`. */
  predicate KeyAt(schema: seq<SchemaTable>, i: int, j: int, k: ColumnKey) {
    0 <= i < |schema| && 0 <= j < |schema[i].columns| && k == (schema[i].table, schema[i].columns[j].columnName)
  }

  /** Column `j` of table `i` is the last column of the schema, in loop
      order, with the key `k`: the one whose type the lookup keeps. */
  ghost predicate LastWithKey(schema: seq<SchemaTable>, i: int, j: int, k: ColumnKey) {
    && KeyAt(schema, i, j, k)
    && forall i', j' :: KeyAt(schema, i', j', k) ==> i' < i || (i' == i && j' <= j)
  }

  /** The lookup has an entry for exactly the (table, column) pairs of the
      schema, every entry is one of the four TOM types, and it is the type
      of the last schema column with that key. */
  lemma {:induction false} TypeLookupFacts(schema: seq<SchemaTable>)
    ensures forall k :: k in TypeLookup(schema) <==> exists i, c :: 0 <= i < |schema| && c in schema[i].columns && k == (schema[i].table, c.columnName)
    ensures forall k :: k in TypeLookup(schema) ==> TypeLookup(schema)[k] in {"int64", "double", "dateTime", "string"}
    ensures forall k :: k in TypeLookup(schema) ==>
      exists i, j :: LastWithKey(schema, i, j, k) && TypeLookup(schema)[k] == TypeFor(schema[i].columns[j].dataType)
  {
    forall k | k in TypeLookup(schema)
      ensures exists i, j :: LastWithKey(schema, i, j, k) && TypeLookup(schema)[k] == TypeFor(schema[i].columns[j].dataType)
    {
      TypeLookupValue(schema, k);
    }
    if schema != [] {
      var init := schema[..|schema| - 1];
      TypeLookupFacts(init);
      forall k ensures k in TypeLookup(schema) <==> exists i, c :: 0 <= i < |schema| && c in schema[i].columns && k == (schema[i].table, c.columnName) {
        if exists i, c :: 0 <= i < |schema| && c in schema[i].columns && k == (schema[i].table, c.columnName) {
          var i, c :| 0 <= i < |schema| && c in schema[i].columns && k == (schema[i].table, c.columnName);
          if i < |init| {
            assert init[i] == schema[i];
          }
        }
        if k in TypeLookup(init) {
          var i, c :| 0 <= i < |init| && c in init[i].columns && k == (init[i].table, c.columnName);
          assert schema[i] == init[i];
        }
      }
      AddTypesRange(TypeLookup(init), schema[|schema| - 1].table, schema[|schema| - 1].columns);
    }
  }

  /** An entry of the lookup comes from the last schema column with its key. */
  lemma {:induction false} TypeLookupValue(schema: seq<SchemaTable>, k: ColumnKey)
    requires k in TypeLookup(schema)
    ensures exists i, j :: LastWithKey(schema, i, j, k) && TypeLookup(schema)[k] == TypeFor(schema[i].columns[j].dataType)
  {
    var n := |schema| - 1;
    var init := schema[..n];
    var last := schema[n];
    AddTypesValue(TypeLookup(init), last.table, last.columns, k);
    assert TypeLookup(schema)[k] == AddColumnTypes(TypeLookup(init), last.table, last.columns)[k];
    if j :| LastInTable(last.table, last.columns, j, k) && TypeLookup(schema)[k] == TypeFor(last.columns[j].dataType) {
      LastOfSchema(schema, j, k);
    } else {
      TypeLookupValue(init, k);
      var i, j :| LastWithKey(init, i, j, k) && TypeLookup(init)[k] == TypeFor(init[i].columns[j].dataType);
      EarlierOfSchema(schema, i, j, k);
    }
  }

  /** The last column of the last table with key `k` is the last of the schema. */
  lemma LastOfSchema(schema: seq<SchemaTable>, j: int, k: ColumnKey)
    requires schema != [] && LastInTable(schema[|schema| - 1].table, schema[|schema| - 1].columns, j, k)
    ensures LastWithKey(schema, |schema| - 1, j, k)
  {
  }

  /** The last column with key `k` before a table without it stays the last. */
  lemma EarlierOfSchema(schema: seq<SchemaTable>, i: int, j: int, k: ColumnKey)
    requires schema != [] && LastWithKey(schema[..|schema| - 1], i, j, k)
    requires NotInTable(schema[|schema| - 1].table, schema[|schema| - 1].columns, k)
    ensures LastWithKey(schema, i, j, k)
  {
    var n := |schema| - 1;
    forall i', j' | KeyAt(schema, i', j', k) ensures i' < i || (i' == i && j' <= j) {
      if i' < n {
        assert KeyAt(schema[..n], i', j', k);
      }
    }
  }

  /** Column `j` is the last of `cols` with the key `k` in table `t`. */
  predicate LastInTable(t: string, cols: seq<SchemaColumn>, j: int, k: ColumnKey) {
    && 0 <= j < |cols| && k == (t, cols[j].columnName)
    && forall j' :: j < j' < |cols| ==> k != (t, cols[j'].columnName)
  }

  /** No column of `cols` has the key `k` in table `t`. */
  predicate NotInTable(t: string, cols: seq<SchemaColumn>, k: ColumnKey) {
    forall j :: 0 <= j < |cols| ==> k != (t, cols[j].columnName)
  }

  /** A column after the last with key `k` that has another key leaves it the last. */
  lemma LastInTableExtends(t: string, cols: seq<SchemaColumn>, j: int, k: ColumnKey)
    requires cols != [] && LastInTable(t, cols[..|cols| - 1], j, k)
    requires k != (t, cols[|cols| - 1].columnName)
    ensures LastInTable(t, cols, j, k)
  {
    var init := cols[..|cols| - 1];
    forall j' | j < j' < |cols| ensures k != (t, cols[j'].columnName) {
      if j' < |init| {
        assert init[j'] == cols[j'];
      }
    }
  }

  /** The entry for `k` after the columns `cols`: from the last of them with
      the key `k`, or, when none has it, the entry it had before. */
  ghost predicate TypedFrom(m: map<ColumnKey, string>, t: string, cols: seq<SchemaColumn>, k: ColumnKey, v: string) {
    || (exists j :: LastInTable(t, cols, j, k) && v == TypeFor(cols[j].dataType))
    || (k in m && NotInTable(t, cols, k) && v == m[k])
  }

  /** An entry after one table's columns comes from the last of them with
      its key, or, when none has it, is the entry it had before. */
  lemma {:induction false} AddTypesValue(m: map<ColumnKey, string>, t: string, cols: seq<SchemaColumn>, k: ColumnKey)
    requires k in AddColumnTypes(m, t, cols)
    ensures TypedFrom(m, t, cols, k, AddColumnTypes(m, t, cols)[k])
  {
    if cols == [] {
      assert NotInTable(t, cols, k);
    } else {
      var n := |cols| - 1;
      if k == (t, cols[n].columnName) {
        assert LastInTable(t, cols, n, k);
      } else {
        AddTypesValue(m, t, cols[..n], k);
        TypedFromExtends(m, t, cols, k, AddColumnTypes(m, t, cols[..n])[k]);
      }
    }
  }

  /** A column with another key leaves the origin of the entry for `k` as it was. */
  lemma TypedFromExtends(m: map<ColumnKey, string>, t: string, cols: seq<SchemaColumn>, k: ColumnKey, v: string)
    requires cols != [] && k != (t, cols[|cols| - 1].columnName)
    requires TypedFrom(m, t, cols[..|cols| - 1], k, v)
    ensures TypedFrom(m, t, cols, k, v)
  {
    var init := cols[..|cols| - 1];
    if j :| LastInTable(t, init, j, k) && v == TypeFor(init[j].dataType) {
      assert init[j] == cols[j];
      LastInTableExtends(t, cols, j, k);
    } else {
      forall j | 0 <= j < |cols| ensures k != (t, cols[j].columnName) {
        if j < |init| {
          assert init[j] == cols[j];
        }
      }
    }
  }

  lemma {:induction false} AddTypesRange(m: map<ColumnKey, string>, t: string, cols: seq<SchemaColumn>)
    requires forall k :: k in m ==> m[k] in {"int64", "double", "dateTime", "string"}
    ensures forall k :: k in AddColumnTypes(m, t, cols) ==> AddColumnTypes(m, t, cols)[k] in {"int64", "double", "dateTime", "string"}
  {
    if cols != [] {
      AddTypesRange(m, t, cols[..|cols| - 1]);
    }
  }

  // ---------------------------------------------------------------------
  // The TOM objects

  datatype TomColumn = TomColumn(name: string, dataType: string, sourceColumn: string)
  datatype TomMeasure = TomMeasure(name: string, expression: string, formatString: string)
  datatype TomRelationship = TomRelationship(
    fromTable: string, fromColumn: string, toTable: string, toColumn: string,
    cardinality: string, crossFilteringBehavior: string)
  datatype Annotation = Annotation(name: string, value: string)

  /** One table of the model: its name and columns are fixed when it is
      created; measures are appended to it afterwards. */
  class TomTable {
    const name: string
    const columns: seq<TomColumn>
    var measures: seq<TomMeasure>

    constructor (name: string, columns: seq<TomColumn>)
      ensures this.name == name && this.columns == columns && measures == []
    {
      this.name := name;
      this.columns := columns;
      measures := [];
    }

    /** Lines 88-92: appends one measure to this table. */
    method AddMeasure(m: TomMeasure)
      modifies this
      ensures measures == old(measures) + [m]
    {
      measures := measures + [m];
    }
  }

  /** The names of `tables`, in order. */
  function NamesOf(tables: seq<TomTable>): (names: seq<string>)
    ensures |names| == |tables|
    ensures forall k :: 0 <= k < |tables| ==> names[k] == tables[k].name
  {
    seq(|tables|, k requires 0 <= k < |tables| => tables[k].name)
  }

  /** Lines 67-70: each table under its name. */
  function TableMap(tables: seq<TomTable>): (m: map<string, TomTable>)
    requires NoDuplicates(NamesOf(tables))
    ensures forall n :: n in m <==> n in NamesOf(tables)
    ensures forall k :: 0 <= k < |tables| ==> tables[k].name in m && m[tables[k].name] == tables[k]
  {
    var m := map k | 0 <= k < |tables| :: tables[k].name := tables[k];
    assert forall k :: 0 <= k < |tables| ==> m[tables[k].name] == tables[k] by {
      forall k | 0 <= k < |tables| ensures m[tables[k].name] == tables[k] {
        var j :| 0 <= j < |tables| && tables[j].name == tables[k].name && m[tables[k].name] == tables[j];
        assert NamesOf(tables)[j] == NamesOf(tables)[k];
      }
    }
    m
  }

  // ---------------------------------------------------------------------
  // Table and column construction (lines 47-61)

  /** One table of the semantic model: its name and its column names. */
  datatype SemanticTable = SemanticTable(name: string, columns: seq<string>)

  /** Lines 54-59: every column typed from the lookup, `string` when it has
      no entry, and sourced from the column of the same name. */
  function ColumnsFor(t: SemanticTable, lookup: map<ColumnKey, string>): (cs: seq<TomColumn>)
    ensures |cs| == |t.columns|
    ensures forall k :: 0 <= k < |cs| ==>
      && cs[k].name == t.columns[k] && cs[k].sourceColumn == t.columns[k]
      && cs[k].dataType == (if (t.name, t.columns[k]) in lookup then lookup[(t.name, t.columns[k])] else "string")
  {
    seq(|t.columns|, k requires 0 <= k < |t.columns| =>
      var c := t.columns[k];
      TomColumn(c, if (t.name, c) in lookup then lookup[(t.name, c)] else "string", c))
  }

  /** Lines 54-59, the loop that builds one table's columns. */
  method BuildColumns(t: SemanticTable, lookup: map<ColumnKey, string>) returns (cs: seq<TomColumn>)
    ensures cs == ColumnsFor(t, lookup)
  {
    cs := [];
    for k := 0 to |t.columns|
      invariant cs == ColumnsFor(t, lookup)[..k]
    {
      var c := t.columns[k];
      var dataType := if (t.name, c) in lookup then lookup[(t.name, c)] else "string";
      cs := cs + [TomColumn(c, dataType, c)];
    }
  }

  // ---------------------------------------------------------------------
  // Measure placement (lines 67-92)

  /** One measure of the semantic model: its name and DAX expression. */
  datatype Measure = Measure(name: string, expression: string)

  /** `measure_table_map.get(name)` when it is a non-empty table name. */
  function Target(owners: map<string, Option<string>>, name: string): (t: Option<string>)
    ensures t.Some? <==> name in owners && owners[name].Some? && owners[name].value != ""
    ensures t.Some? ==> t.value == owners[name].value
  {
    if name in owners && owners[name].Some? && owners[name].value != "" then owners[name] else None
  }

  /** Line 79: the measure goes to a table iff its target is non-empty and
      names an exported table. */
  predicate Placeable(owners: map<string, Option<string>>, names: seq<string>, m: Measure) {
    Target(owners, m.name).Some? && Target(owners, m.name).value in names
  }

  function ToTom(m: Measure): TomMeasure {
    TomMeasure(m.name, m.expression, "General")
  }

  /** What a measure adds to the table named `t`. */
  function PlacedFor(owners: map<string, Option<string>>, names: seq<string>, m: Measure, t: string): seq<TomMeasure> {
    if Placeable(owners, names, m) && Target(owners, m.name).value == t then [ToTom(m)] else []
  }

  /** The measures placed on the table named `t`, in order. */
  function PlacedOn(ms: seq<Measure>, owners: map<string, Option<string>>, names: seq<string>, t: string): seq<TomMeasure> {
    if ms == [] then []
    else
      var m := ms[|ms| - 1];
      PlacedOn(ms[..|ms| - 1], owners, names, t)
        + PlacedFor(owners, names, m, t)
  }

  /** Lines 80-83: the annotation for a measure that no table of the model owns. */
  function UnplacedNote(name: string): Annotation {
    Annotation("UnplacedMeasure::" + name, "No reliable table context")
  }

  /** The annotation a measure adds: none when it is placed. */
  function NoteFor(owners: map<string, Option<string>>, names: seq<string>, m: Measure): seq<Annotation> {
    if Placeable(owners, names, m) then [] else [UnplacedNote(m.name)]
  }

  /** The unplaced-measure annotations, in order. */
  function Unplaced(ms: seq<Measure>, owners: map<string, Option<string>>, names: seq<string>): seq<Annotation> {
    if ms == [] then []
    else
      var m := ms[|ms| - 1];
      Unplaced(ms[..|ms| - 1], owners, names)
        + NoteFor(owners, names, m)
  }

  const MigrationNote := Annotation("MigrationNote", "Generated via semantic-preserving Tableau \U{2192} Power BI pipeline")

  // ---------------------------------------------------------------------
  // Relationships (lines 97-105)

  /** One relationship of the semantic model. */
  datatype SemanticRelationship = SemanticRelationship(
    fromTable: string, fromColumn: string, toTable: string, toColumn: string,
    cardinality: string, crossFilterDirection: string)

  function CopyRelationship(r: SemanticRelationship): TomRelationship {
    TomRelationship(r.fromTable, r.fromColumn, r.toTable, r.toColumn, r.cardinality, r.crossFilterDirection)
  }

  /** The model under construction. */
  class TomModel {
    const name: string
    const compatibilityLevel: int
    var tables: seq<TomTable>
    var relationships: seq<TomRelationship>
    var annotations: seq<Annotation>

    /** Lines 36-44: an empty model with the fixed name and compatibility level. */
    constructor ()
      ensures name == "Tableau_Migrated_Model" && compatibilityLevel == 1567
      ensures tables == [] && relationships == [] && annotations == []
    {
      name := "Tableau_Migrated_Model";
      compatibilityLevel := 1567;
      tables := [];
      relationships := [];
      annotations := [];
    }

    /** Table names are distinct, and so (the name being fixed) are the
        table objects. */
    predicate Valid()
      reads this
    {
      NoDuplicates(NamesOf(tables))
    }

    /** Lines 47-61: one fresh table per semantic-model table, in order,
        with its typed columns and no measures. The semantic model's
        tables are a dictionary, so their names are distinct. */
    method AddTables(semantic: seq<SemanticTable>, lookup: map<ColumnKey, string>)
      requires tables == []
      requires NoDuplicates(seq(|semantic|, k requires 0 <= k < |semantic| => semantic[k].name))
      modifies this
      ensures Valid()
      ensures |tables| == |semantic|
      ensures forall k :: 0 <= k < |tables| ==>
        && fresh(tables[k]) && tables[k].name == semantic[k].name
        && tables[k].columns == ColumnsFor(semantic[k], lookup) && tables[k].measures == []
      ensures relationships == old(relationships) && annotations == old(annotations)
    {
      for i := 0 to |semantic|
        invariant |tables| == i && relationships == old(relationships) && annotations == old(annotations)
        invariant forall k :: 0 <= k < i ==>
          && fresh(tables[k]) && tables[k].name == semantic[k].name
          && tables[k].columns == ColumnsFor(semantic[k], lookup) && tables[k].measures == []
      {
        var cs := BuildColumns(semantic[i], lookup);
        var t := new TomTable(semantic[i].name, cs);
        tables := tables + [t];
      }
      assert NamesOf(tables) == seq(|semantic|, k requires 0 <= k < |semantic| => semantic[k].name);
    }

    /** Lines 67-92: every placeable measure is appended to the table its
        target names, reached through a name -> table map that aliases the
        model's tables; every other measure adds one annotation. */
    method PlaceMeasures(ms: seq<Measure>, owners: map<string, Option<string>>)
      requires Valid()
      modifies this, tables
      ensures tables == old(tables) && relationships == old(relationships)
      ensures annotations == old(annotations) + Unplaced(ms, owners, NamesOf(tables))
      ensures forall k :: 0 <= k < |tables| ==>
        tables[k].measures == old(tables[k].measures) + PlacedOn(ms, owners, NamesOf(tables), tables[k].name)
    {
      var names := NamesOf(tables);
      var tableMap := TableMap(tables);
      var ts := tables;
      ghost var base := seq(|ts|, k requires 0 <= k < |ts| reads ts => ts[k].measures);
      var notes := PlaceAll(ms, owners, names, tableMap, base);
      annotations := annotations + notes;
    }

    /** The loop of lines 75-92, in terms of `base`, the tables' measures
        before it. */
    method PlaceAll(ms: seq<Measure>, owners: map<string, Option<string>>, names: seq<string>,
                    tableMap: map<string, TomTable>, ghost base: seq<seq<TomMeasure>>)
      returns (notes: seq<Annotation>)
      requires Valid() && names == NamesOf(tables) && |base| == |tables|
      requires forall n :: n in tableMap <==> n in names
      requires forall k :: 0 <= k < |tables| ==> tableMap[tables[k].name] == tables[k]
      requires forall k :: 0 <= k < |tables| ==> tables[k].measures == base[k]
      modifies tables
      ensures notes == Unplaced(ms, owners, names)
      ensures forall k :: 0 <= k < |tables| ==> tables[k].measures == base[k] + PlacedOn(ms, owners, names, names[k])
    {
      notes := [];
      forall k | 0 <= k < |tables| ensures tables[k].measures == base[k] + PlacedOn(ms[..0], owners, names, names[k]) {
        assert base[k] + [] == base[k];
      }
      for i := 0 to |ms|
        invariant notes == Unplaced(ms[..i], owners, names)
        invariant forall k :: 0 <= k < |tables| ==> tables[k].measures == base[k] + PlacedOn(ms[..i], owners, names, names[k])
      {
        var note := PlaceNext(ms, i, owners, names, tableMap, base);
        notes := notes + note;
      }
      assert ms[..|ms|] == ms;
    }

    /** The step of the loop of lines 75-92 for the measure `ms[i]`, in
        terms of `base`, the tables' measures before `ms[0]`. */
    method PlaceNext(ms: seq<Measure>, i: nat, owners: map<string, Option<string>>, names: seq<string>,
                     tableMap: map<string, TomTable>, ghost base: seq<seq<TomMeasure>>)
      returns (note: seq<Annotation>)
      requires Valid() && names == NamesOf(tables) && i < |ms| && |base| == |tables|
      requires forall n :: n in tableMap <==> n in names
      requires forall k :: 0 <= k < |tables| ==> tableMap[tables[k].name] == tables[k]
      requires forall k :: 0 <= k < |tables| ==> tables[k].measures == base[k] + PlacedOn(ms[..i], owners, names, names[k])
      modifies tables
      ensures Unplaced(ms[..i + 1], owners, names) == Unplaced(ms[..i], owners, names) + note
      ensures forall k :: 0 <= k < |tables| ==> tables[k].measures == base[k] + PlacedOn(ms[..i + 1], owners, names, names[k])
    {
      note := PlaceOne(ms[i], owners, names, tableMap);
      UnplacedSnoc(ms, i, owners, names);
      forall k | 0 <= k < |tables|
        ensures tables[k].measures == base[k] + PlacedOn(ms[..i + 1], owners, names, names[k])
      {
        PlacedOnSnoc(ms, i, owners, names, names[k]);
      }
    }

    /** Lines 77-92 for one measure: the measure is appended to the table
        its target names, or the annotation that records it as unplaced is
        returned. */
    method PlaceOne(m: Measure, owners: map<string, Option<string>>, names: seq<string>, tableMap: map<string, TomTable>)
      returns (note: seq<Annotation>)
      requires Valid() && names == NamesOf(tables)
      requires forall n :: n in tableMap <==> n in names
      requires forall k :: 0 <= k < |tables| ==> tableMap[tables[k].name] == tables[k]
      modifies tables
      ensures note == NoteFor(owners, names, m)
      ensures forall k :: 0 <= k < |tables| ==>
        tables[k].measures == old(tables[k].measures) + PlacedFor(owners, names, m, tables[k].name)
    {
      var target := Target(owners, m.name);
      if target.None? || target.value !in tableMap {
        note := [UnplacedNote(m.name)];
      } else {
        var t := tableMap[target.value];
        var k0 :| 0 <= k0 < |tables| && names[k0] == target.value;
        assert tables[k0] == t;
        t.AddMeasure(ToTom(m));
        forall k | 0 <= k < |tables| && k != k0 ensures tables[k].name != target.value {
          assert names[k] != names[k0];
        }
        note := [];
      }
    }

    /** Lines 97-105: one TOM relationship per semantic relationship, in
        order, keys renamed. */
    method AddRelationships(rels: seq<SemanticRelationship>)
      modifies this
      ensures tables == old(tables) && annotations == old(annotations)
      ensures |relationships| == |old(relationships)| + |rels|
      ensures relationships[..|old(relationships)|] == old(relationships)
      ensures forall k :: 0 <= k < |rels| ==> relationships[|old(relationships)| + k] == CopyRelationship(rels[k])
    {
      for i := 0 to |rels|
        invariant tables == old(tables) && annotations == old(annotations)
        invariant |relationships| == |old(relationships)| + i
        invariant relationships[..|old(relationships)|] == old(relationships)
        invariant forall k :: 0 <= k < i ==> relationships[|old(relationships)| + k] == CopyRelationship(rels[k])
      {
        relationships := relationships + [CopyRelationship(rels[i])];
      }
    }

    /** Lines 110-113: appends the migration note to the annotations. */
    method AddMigrationNote()
      modifies this
      ensures tables == old(tables) && relationships == old(relationships)
      ensures annotations == old(annotations) + [MigrationNote]
    {
      annotations := annotations + [MigrationNote];
    }
  }

  // ---------------------------------------------------------------------
  // Properties of placement

  /** Where a measure goes: it lands on the table its target names, or it
      is annotated as unplaced, never both. */
  lemma {:induction false} PlacementMember(ms: seq<Measure>, owners: map<string, Option<string>>, names: seq<string>, t: string, m: TomMeasure)
    ensures m in PlacedOn(ms, owners, names, t) <==>
      exists k :: 0 <= k < |ms| && Placeable(owners, names, ms[k]) && Target(owners, ms[k].name).value == t && m == ToTom(ms[k])
  {
    if ms != [] {
      var init := ms[..|ms| - 1];
      PlacementMember(init, owners, names, t, m);
      if exists k :: 0 <= k < |init| && Placeable(owners, names, init[k]) && Target(owners, init[k].name).value == t && m == ToTom(init[k]) {
        var k :| 0 <= k < |init| && Placeable(owners, names, init[k]) && Target(owners, init[k].name).value == t && m == ToTom(init[k]);
        assert ms[k] == init[k];
      }
      if exists k :: 0 <= k < |ms| && Placeable(owners, names, ms[k]) && Target(owners, ms[k].name).value == t && m == ToTom(ms[k]) {
        var k :| 0 <= k < |ms| && Placeable(owners, names, ms[k]) && Target(owners, ms[k].name).value == t && m == ToTom(ms[k]);
        if k < |init| {
          assert init[k] == ms[k];
        }
      }
    }
  }

  /** One more measure extends the placement on `t` by that measure alone,
      when it goes there. */
  lemma PlacedOnSnoc(ms: seq<Measure>, i: nat, owners: map<string, Option<string>>, names: seq<string>, t: string)
    requires i < |ms|
    ensures PlacedOn(ms[..i + 1], owners, names, t) == PlacedOn(ms[..i], owners, names, t)
      + PlacedFor(owners, names, ms[i], t)
  {
    assert ms[..i + 1][..i] == ms[..i];
  }

  lemma UnplacedSnoc(ms: seq<Measure>, i: nat, owners: map<string, Option<string>>, names: seq<string>)
    requires i < |ms|
    ensures Unplaced(ms[..i + 1], owners, names) == Unplaced(ms[..i], owners, names)
      + NoteFor(owners, names, ms[i])
  {
    assert ms[..i + 1][..i] == ms[..i];
  }

  /** Every placed measure has the format string `General`. */
  lemma PlacedAreGeneral(ms: seq<Measure>, owners: map<string, Option<string>>, names: seq<string>, t: string)
    ensures forall m :: m in PlacedOn(ms, owners, names, t) ==> m.formatString == "General"
  {
    forall m | m in PlacedOn(ms, owners, names, t) ensures m.formatString == "General" {
      PlacementMember(ms, owners, names, t, m);
    }
  }

  /** The number of measures placed on the tables named `names[..n]`. */
  function PlacedCount(ms: seq<Measure>, owners: map<string, Option<string>>, names: seq<string>, n: nat): nat
    requires n <= |names|
  {
    if n == 0 then 0 else PlacedCount(ms, owners, names, n - 1) + |PlacedOn(ms, owners, names, names[n - 1])|
  }

  /** How many times `x` occurs in `names[..n]`. */
  function Occurrences(names: seq<string>, x: string, n: nat): nat
    requires n <= |names|
  {
    if n == 0 then 0 else Occurrences(names, x, n - 1) + (if names[n - 1] == x then 1 else 0)
  }

  lemma {:induction false} OccursOnce(names: seq<string>, x: string, n: nat)
    requires n <= |names| && NoDuplicates(names)
    ensures Occurrences(names, x, n) == (if x in names[..n] then 1 else 0)
  {
    if n > 0 {
      OccursOnce(names, x, n - 1);
      assert names[..n] == names[..n - 1] + [names[n - 1]];
      if names[n - 1] == x {
        assert x !in names[..n - 1];
      }
    }
  }

  /** Adding one measure to the placement adds it to exactly as many
      tables as its target occurs among the names. */
  lemma {:induction false} PlacedCountSnoc(ms: seq<Measure>, owners: map<string, Option<string>>, names: seq<string>, m: Measure, n: nat)
    requires n <= |names|
    ensures PlacedCount(ms + [m], owners, names, n) ==
      PlacedCount(ms, owners, names, n) + (if Placeable(owners, names, m) then Occurrences(names, Target(owners, m.name).value, n) else 0)
  {
    assert (ms + [m])[..|ms|] == ms;
    if n > 0 {
      PlacedCountSnoc(ms, owners, names, m, n - 1);
    }
  }

  /** Every measure is accounted for exactly once: the measures placed on
      all the tables together with the unplaced annotations number the
      measures. */
  lemma {:induction false} PlacementCounts(ms: seq<Measure>, owners: map<string, Option<string>>, names: seq<string>)
    requires NoDuplicates(names)
    ensures PlacedCount(ms, owners, names, |names|) + |Unplaced(ms, owners, names)| == |ms|
  {
    if ms != [] {
      var init := ms[..|ms| - 1];
      var m := ms[|ms| - 1];
      PlacementCounts(init, owners, names);
      assert ms == init + [m];
      PlacedCountSnoc(init, owners, names, m, |names|);
      if Placeable(owners, names, m) {
        OccursOnce(names, Target(owners, m.name).value, |names|);
        assert names[..|names|] == names;
        assert Occurrences(names, Target(owners, m.name).value, |names|) == 1;
      }
      assert |Unplaced(ms, owners, names)| == |Unplaced(init, owners, names)| + (if Placeable(owners, names, m) then 0 else 1);
    } else {
      NothingPlaced(owners, names, |names|);
    }
  }

  /** With no measures, no table receives any. */
  lemma {:induction false} NothingPlaced(owners: map<string, Option<string>>, names: seq<string>, n: nat)
    requires n <= |names|
    ensures PlacedCount([], owners, names, n) == 0
  {
    if n > 0 {
      NothingPlaced(owners, names, n - 1);
    }
  }

  // ---------------------------------------------------------------------
  // The whole export

  /** Lines 20-113 without the file I/O. */
  method ExportTom(schema: seq<SchemaTable>, semantic: seq<SemanticTable>, ms: seq<Measure>,
                   owners: map<string, Option<string>>, rels: seq<SemanticRelationship>)
    returns (model: TomModel)
    requires NoDuplicates(seq(|semantic|, k requires 0 <= k < |semantic| => semantic[k].name))
    ensures model.name == "Tableau_Migrated_Model" && model.compatibilityLevel == 1567
    ensures model.Valid() && |model.tables| == |semantic|
    ensures forall k :: 0 <= k < |semantic| ==>
      && model.tables[k].name == semantic[k].name
      && model.tables[k].columns == ColumnsFor(semantic[k], TypeLookup(schema))
      && model.tables[k].measures == PlacedOn(ms, owners, NamesOf(model.tables), semantic[k].name)
    ensures model.annotations == Unplaced(ms, owners, NamesOf(model.tables)) + [MigrationNote]
    ensures |model.relationships| == |rels|
    ensures forall k :: 0 <= k < |rels| ==> model.relationships[k] == CopyRelationship(rels[k])
  {
    var lookup := BuildTypeLookup(schema);
    model := new TomModel();
    model.AddTables(semantic, lookup);
    model.PlaceMeasures(ms, owners);
    model.AddRelationships(rels);
    model.AddMigrationNote();
  }
}

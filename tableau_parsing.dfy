/** The two pieces of logic in the workbook parser (parsing_tableau.py):
    the split of each datasource's columns into plain fields and
    calculations, and the case-insensitive matching of the workbook's
    logical fields to the extract's physical columns, without repeats.
    The XML and the Hyper catalogue are given as records. */
module TableauParsing {
  import opened Wrappers
  import opened Strings

  // ---------------------------------------------------------------------
  // Fields and calculations of a datasource (lines 62-91)

  /** A `<calculation>` child of a column; `formula` is `None` when the
      attribute is absent. */
  datatype CalculationElement = CalculationElement(formula: Option<string>)

  /** A `<column>` element: its attributes and its calculation child. */
  datatype ColumnElement = ColumnElement(
    name: Option<string>, role: Option<string>, dataType: Option<string>,
    calculation: Option<CalculationElement>)

  /** A `<datasource>` element and every column under it. */
  datatype DatasourceElement = DatasourceElement(name: Option<string>, columns: seq<ColumnElement>)

  datatype Field = Field(fieldName: Option<string>, role: Option<string>, dataType: Option<string>)
  datatype Calculation = Calculation(fieldName: Option<string>, formula: string)
  datatype DatasourceDetail = DatasourceDetail(datasourceName: string, fields: seq<Field>, calculations: seq<Calculation>)

  const UnnamedDatasource := "Unnamed Datasource"

  function FieldOf(c: ColumnElement): Field {
    Field(c.name, c.role, c.dataType)
  }

  function CalculationOf(c: ColumnElement): Calculation
    requires c.calculation.Some?
  {
    Calculation(c.name, c.calculation.value.formula.GetOr(""))
  }

  /** The `fields` list after the columns `cols`. */
  function FieldsOf(cols: seq<ColumnElement>): seq<Field> {
    if cols == [] then []
    else
      var c := cols[|cols| - 1];
      FieldsOf(cols[..|cols| - 1]) + (if c.calculation.None? then [FieldOf(c)] else [])
  }

  /** The `calculations` list after the columns `cols`. */
  function CalculationsOf(cols: seq<ColumnElement>): seq<Calculation> {
    if cols == [] then []
    else
      var c := cols[|cols| - 1];
      CalculationsOf(cols[..|cols| - 1]) + (if c.calculation.Some? then [CalculationOf(c)] else [])
  }

  function DetailOf(ds: DatasourceElement): DatasourceDetail {
    DatasourceDetail(ds.name.GetOr(UnnamedDatasource), FieldsOf(ds.columns), CalculationsOf(ds.columns))
  }

  /** Lines 62-91: one detail record per datasource, in order. */
  method ParseDatasources(dss: seq<DatasourceElement>) returns (details: seq<DatasourceDetail>)
    ensures |details| == |dss|
    ensures forall k :: 0 <= k < |dss| ==> details[k] == DetailOf(dss[k])
  {
    details := [];
    for i := 0 to |dss|
      invariant |details| == i
      invariant forall k :: 0 <= k < i ==> details[k] == DetailOf(dss[k])
    {
      var ds := dss[i];
      var name := ds.name.GetOr(UnnamedDatasource);
      var fields := [];
      var calculations := [];
      for j := 0 to |ds.columns|
        invariant fields == FieldsOf(ds.columns[..j])
        invariant calculations == CalculationsOf(ds.columns[..j])
      {
        var col := ds.columns[j];
        assert ds.columns[..j + 1][..j] == ds.columns[..j];
        match col.calculation {
          case Some(element) =>
            calculations := calculations + [Calculation(col.name, element.formula.GetOr(""))];
          case None =>
            fields := fields + [Field(col.name, col.role, col.dataType)];
        }
      }
      assert ds.columns[..|ds.columns|] == ds.columns;
      details := details + [DatasourceDetail(name, fields, calculations)];
    }
  }

  /** Every column lands in exactly one of the two lists: a column with a
      calculation child among the calculations, any other among the
      fields, so together they number the columns. */
  lemma {:induction false} PartitionOfColumns(cols: seq<ColumnElement>)
    ensures |FieldsOf(cols)| + |CalculationsOf(cols)| == |cols|
    ensures forall f :: f in FieldsOf(cols) <==> exists c :: c in cols && c.calculation.None? && f == FieldOf(c)
    ensures forall x :: x in CalculationsOf(cols) <==> exists c :: c in cols && c.calculation.Some? && x == CalculationOf(c)
  {
    if cols != [] {
      var init := cols[..|cols| - 1];
      var last := cols[|cols| - 1];
      PartitionOfColumns(init);
      assert cols == init + [last];
      forall f ensures f in FieldsOf(cols) <==> exists c :: c in cols && c.calculation.None? && f == FieldOf(c) {
        if exists c :: c in cols && c.calculation.None? && f == FieldOf(c) {
          var c :| c in cols && c.calculation.None? && f == FieldOf(c);
          if c != last {
            assert c in init;
          }
        }
      }
      forall x ensures x in CalculationsOf(cols) <==> exists c :: c in cols && c.calculation.Some? && x == CalculationOf(c) {
        if exists c :: c in cols && c.calculation.Some? && x == CalculationOf(c) {
          var c :| c in cols && c.calculation.Some? && x == CalculationOf(c);
          if c != last {
            assert c in init;
          }
        }
      }
    }
  }

  /** A datasource without a name attribute is reported under a fixed
      name, and a calculation without a formula attribute has the empty
      formula. */
  lemma Defaults(ds: DatasourceElement)
    ensures ds.name.None? ==> DetailOf(ds).datasourceName == "Unnamed Datasource"
    ensures forall c :: c in ds.columns && c.calculation.Some? && c.calculation.value.formula.None? ==>
      Calculation(c.name, "") in DetailOf(ds).calculations
  {
    PartitionOfColumns(ds.columns);
  }

  // ---------------------------------------------------------------------
  // Logical to physical field mapping (lines 244-267)

  /** One column of a table of the extract. */
  datatype HyperColumn = HyperColumn(columnName: string, dataType: string)

  /** One table of the extract's catalogue. */
  datatype HyperTable = HyperTable(schema: string, table: string, columns: seq<HyperColumn>)

  datatype Mapping = Mapping(logicalField: string, physicalColumn: string, table: string, schema: string)

  /** Line 258: what makes two mappings the same. */
  function KeyOf(m: Mapping): (string, string, string) {
    (m.logicalField, m.physicalColumn, m.table)
  }

  function KeysOf(ms: seq<Mapping>): set<(string, string, string)> {
    set m | m in ms :: KeyOf(m)
  }

  /** Line 257: a non-empty physical column that equals the logical field
      ignoring case. */
  predicate Matches(lf: string, pc: string) {
    pc != "" && Lower(lf) == Lower(pc)
  }

  /** Line 251: fields with no name or the empty name are skipped. */
  predicate Named(f: Field) {
    f.fieldName.Some? && f.fieldName.value != ""
  }

  /** The matches of `lf` among the columns `cols` of table `t`. */
  function ColumnMatches(lf: string, t: HyperTable, cols: seq<HyperColumn>): seq<Mapping> {
    if cols == [] then []
    else
      var pc := cols[|cols| - 1].columnName;
      ColumnMatches(lf, t, cols[..|cols| - 1])
        + (if Matches(lf, pc) then [Mapping(lf, pc, t.table, t.schema)] else [])
  }

  /** The matches of `lf` in the tables `ts`, table by table. */
  function TableMatches(lf: string, ts: seq<HyperTable>): seq<Mapping> {
    if ts == [] then []
    else
      var t := ts[|ts| - 1];
      TableMatches(lf, ts[..|ts| - 1]) + ColumnMatches(lf, t, t.columns)
  }

  /** The matches of the fields `fs`, field by field. */
  function FieldMatches(fs: seq<Field>, schema: seq<HyperTable>): seq<Mapping> {
    if fs == [] then []
    else
      var f := fs[|fs| - 1];
      FieldMatches(fs[..|fs| - 1], schema) + (if Named(f) then TableMatches(f.fieldName.value, schema) else [])
  }

  /** Every match, repeats included, in the order of the four nested
      loops: datasource, field, table, column. */
  function Candidates(details: seq<DatasourceDetail>, schema: seq<HyperTable>): seq<Mapping> {
    if details == [] then []
    else
      Candidates(details[..|details| - 1], schema) + FieldMatches(details[|details| - 1].fields, schema)
  }

  /** Lines 259-266 for one match: kept unless its key was seen. */
  function Insert(acc: seq<Mapping>, m: Mapping): seq<Mapping> {
    if KeyOf(m) in KeysOf(acc) then acc else acc + [m]
  }

  /** The mappings after the matches `ms`, starting from `acc`. */
  function AddAll(acc: seq<Mapping>, ms: seq<Mapping>): seq<Mapping> {
    if ms == [] then acc else Insert(AddAll(acc, ms[..|ms| - 1]), ms[|ms| - 1])
  }

  /** What `map_logical_to_physical` returns. */
  function LogicalToPhysical(details: seq<DatasourceDetail>, schema: seq<HyperTable>): seq<Mapping> {
    AddAll([], Candidates(details, schema))
  }

  lemma KeysOfSnoc(acc: seq<Mapping>, m: Mapping)
    ensures KeysOf(acc + [m]) == KeysOf(acc) + {KeyOf(m)}
  {
    assert forall x :: x in acc + [m] <==> x in acc || x == m;
  }

  /** Feeding the matches in two parts is feeding them at once. */
  lemma {:induction false} AddAllConcat(acc: seq<Mapping>, xs: seq<Mapping>, ys: seq<Mapping>)
    ensures AddAll(acc, xs + ys) == AddAll(AddAll(acc, xs), ys)
    decreases |ys|
  {
    if ys == [] {
      assert xs + ys == xs;
    } else {
      var init := ys[..|ys| - 1];
      AddAllConcat(acc, xs, init);
      assert (xs + ys)[..|xs + ys| - 1] == xs + init;
    }
  }

  lemma AddAllSnoc(acc: seq<Mapping>, xs: seq<Mapping>, m: Mapping)
    ensures AddAll(acc, xs + [m]) == Insert(AddAll(acc, xs), m)
  {
    assert (xs + [m])[..|xs|] == xs;
  }

  /** Lines 244-267: pairs each named logical field with every physical column whose name matches it ignoring case, once per (field, column, table). */
  method MapLogicalToPhysical(details: seq<DatasourceDetail>, schema: seq<HyperTable>) returns (mappings: seq<Mapping>)
    ensures mappings == LogicalToPhysical(details, schema)
  {
    var seen: set<(string, string, string)> := {};
    mappings := [];
    for i := 0 to |details|
      invariant mappings == AddAll([], Candidates(details[..i], schema))
      invariant seen == KeysOf(mappings)
    {
      var ds := details[i];
      ghost var m0 := mappings;
      for j := 0 to |ds.fields|
        invariant mappings == AddAll(m0, FieldMatches(ds.fields[..j], schema))
        invariant seen == KeysOf(mappings)
      {
        var field := ds.fields[j];
        ghost var m1 := mappings;
        assert ds.fields[..j + 1][..j] == ds.fields[..j];
        if field.fieldName.Some? && field.fieldName.value != "" {
          var lf := field.fieldName.value;
          for k := 0 to |schema|
            invariant mappings == AddAll(m1, TableMatches(lf, schema[..k]))
            invariant seen == KeysOf(mappings)
          {
            var table := schema[k];
            ghost var m2 := mappings;
            for c := 0 to |table.columns|
              invariant mappings == AddAll(m2, ColumnMatches(lf, table, table.columns[..c]))
              invariant seen == KeysOf(mappings)
            {
              var pc := table.columns[c].columnName;
              ghost var pre := mappings;
              ColumnStep(lf, table, c);
              if pc != "" && Lower(lf) == Lower(pc) {
                var key := (lf, pc, table.table);
                if key !in seen {
                  seen := seen + {key};
                  mappings := mappings + [Mapping(lf, pc, table.table, table.schema)];
                  KeysOfSnoc(pre, Mapping(lf, pc, table.table, table.schema));
                }
                AddAllSnoc(m2, ColumnMatches(lf, table, table.columns[..c]), Mapping(lf, pc, table.table, table.schema));
              } else {
                assert ColumnMatches(lf, table, table.columns[..c + 1]) == ColumnMatches(lf, table, table.columns[..c]);
              }
            }
            assert table.columns[..|table.columns|] == table.columns;
            assert schema[..k + 1][..k] == schema[..k];
            AddAllConcat(m1, TableMatches(lf, schema[..k]), ColumnMatches(lf, table, table.columns));
          }
          assert schema[..|schema|] == schema;
          AddAllConcat(m0, FieldMatches(ds.fields[..j], schema), TableMatches(lf, schema));
        } else {
          assert FieldMatches(ds.fields[..j + 1], schema) == FieldMatches(ds.fields[..j], schema);
        }
      }
      assert ds.fields[..|ds.fields|] == ds.fields;
      assert details[..i + 1][..i] == details[..i];
      AddAllConcat([], Candidates(details[..i], schema), FieldMatches(ds.fields, schema));
    }
    assert details[..|details|] == details;
  }

  /** The column matches of `cols[..c + 1]` extend those of `cols[..c]` by
      the match of `cols[c]`, if any. */
  lemma ColumnStep(lf: string, t: HyperTable, c: nat)
    requires c < |t.columns|
    ensures ColumnMatches(lf, t, t.columns[..c + 1]) == ColumnMatches(lf, t, t.columns[..c])
      + (if Matches(lf, t.columns[c].columnName) then [Mapping(lf, t.columns[c].columnName, t.table, t.schema)] else [])
  {
    assert t.columns[..c + 1][..c] == t.columns[..c];
  }

  // ---------------------------------------------------------------------
  // Properties of the mapping

  /** `m` matches `lf` with a column of table `t`. */
  ghost predicate InTable(lf: string, t: HyperTable, m: Mapping) {
    exists c :: c in t.columns && Matches(lf, c.columnName) && m == Mapping(lf, c.columnName, t.table, t.schema)
  }

  /** `m` matches `lf` with a column of some table of `schema`. */
  ghost predicate InSchema(lf: string, schema: seq<HyperTable>, m: Mapping) {
    exists t :: t in schema && InTable(lf, t, m)
  }

  /** `m` matches a named field among `fs`. */
  ghost predicate InFields(fs: seq<Field>, schema: seq<HyperTable>, m: Mapping) {
    exists f :: f in fs && Named(f) && InSchema(f.fieldName.value, schema, m)
  }

  /** `m` is a match the loops visit: a named field of some datasource, a
      column of some table, equal ignoring case, and the table and schema
      of that table. */
  ghost predicate IsCandidate(details: seq<DatasourceDetail>, schema: seq<HyperTable>, m: Mapping) {
    exists d :: d in details && InFields(d.fields, schema, m)
  }

  lemma {:induction false} ColumnMatchesMember(lf: string, t: HyperTable, cols: seq<HyperColumn>, m: Mapping)
    ensures m in ColumnMatches(lf, t, cols) <==>
      exists c :: c in cols && Matches(lf, c.columnName) && m == Mapping(lf, c.columnName, t.table, t.schema)
  {
    if cols != [] {
      var init := cols[..|cols| - 1];
      ColumnMatchesMember(lf, t, init, m);
      assert cols == init + [cols[|cols| - 1]];
      if exists c :: c in cols && Matches(lf, c.columnName) && m == Mapping(lf, c.columnName, t.table, t.schema) {
        var c :| c in cols && Matches(lf, c.columnName) && m == Mapping(lf, c.columnName, t.table, t.schema);
        if c != cols[|cols| - 1] {
          assert c in init;
        }
      }
    }
  }

  lemma {:induction false} TableMatchesMember(lf: string, ts: seq<HyperTable>, m: Mapping)
    ensures m in TableMatches(lf, ts) <==> InSchema(lf, ts, m)
  {
    if ts != [] {
      var init := ts[..|ts| - 1];
      var last := ts[|ts| - 1];
      TableMatchesMember(lf, init, m);
      ColumnMatchesMember(lf, last, last.columns, m);
      assert ts == init + [last];
      if InSchema(lf, ts, m) {
        var t :| t in ts && InTable(lf, t, m);
        if t != last {
          assert t in init;
        }
      }
      if InSchema(lf, init, m) {
        var t :| t in init && InTable(lf, t, m);
        assert t in ts;
      }
      if InTable(lf, last, m) {
        assert last in ts;
      }
    }
  }

  lemma {:induction false} FieldMatchesMember(fs: seq<Field>, schema: seq<HyperTable>, m: Mapping)
    ensures m in FieldMatches(fs, schema) <==> InFields(fs, schema, m)
  {
    if fs != [] {
      var init := fs[..|fs| - 1];
      var last := fs[|fs| - 1];
      FieldMatchesMember(init, schema, m);
      if Named(last) {
        TableMatchesMember(last.fieldName.value, schema, m);
      }
      assert fs == init + [last];
      if InFields(fs, schema, m) {
        var f :| f in fs && Named(f) && InSchema(f.fieldName.value, schema, m);
        if f != last {
          assert f in init;
        }
      }
    }
  }

  /** The matches are exactly the candidates. */
  lemma {:induction false} CandidatesMember(details: seq<DatasourceDetail>, schema: seq<HyperTable>, m: Mapping)
    ensures m in Candidates(details, schema) <==> IsCandidate(details, schema, m)
  {
    if details != [] {
      var init := details[..|details| - 1];
      var last := details[|details| - 1];
      CandidatesMember(init, schema, m);
      FieldMatchesMember(last.fields, schema, m);
      assert details == init + [last];
      if IsCandidate(details, schema, m) {
        var d :| d in details && InFields(d.fields, schema, m);
        if d != last {
          assert d in init;
        }
      }
    }
  }

  predicate DistinctKeys(ms: seq<Mapping>) {
    forall i, j :: 0 <= i < j < |ms| ==> KeyOf(ms[i]) != KeyOf(ms[j])
  }

  /** Adding matches keeps the keys distinct, keeps only matches it was
      given, and loses no key. */
  lemma {:induction false} AddAllFacts(acc: seq<Mapping>, ms: seq<Mapping>)
    requires DistinctKeys(acc)
    ensures DistinctKeys(AddAll(acc, ms))
    ensures forall m :: m in AddAll(acc, ms) ==> m in acc || m in ms
    ensures KeysOf(AddAll(acc, ms)) == KeysOf(acc) + KeysOf(ms)
  {
    if ms != [] {
      var init := ms[..|ms| - 1];
      var m := ms[|ms| - 1];
      var before := AddAll(acc, init);
      AddAllFacts(acc, init);
      assert ms == init + [m];
      KeysOfSnoc(init, m);
      if KeyOf(m) !in KeysOf(before) {
        KeysOfSnoc(before, m);
        forall i, j | 0 <= i < j < |before| + 1 ensures KeyOf((before + [m])[i]) != KeyOf((before + [m])[j]) {
          if j == |before| {
            assert before[i] in before;
          }
        }
      }
    }
  }

  /** Lines 245-267: no two mappings share a (field, column, table) key;
      every mapping pairs a named field with a column of some table that
      equals it ignoring case, under that table's name and schema; and
      every such pair is represented. */
  lemma MappingFacts(details: seq<DatasourceDetail>, schema: seq<HyperTable>)
    ensures DistinctKeys(LogicalToPhysical(details, schema))
    ensures forall m :: m in LogicalToPhysical(details, schema) ==> IsCandidate(details, schema, m)
    ensures forall m :: IsCandidate(details, schema, m) ==> KeyOf(m) in KeysOf(LogicalToPhysical(details, schema))
  {
    var cs := Candidates(details, schema);
    AddAllFacts([], cs);
    forall m | m in LogicalToPhysical(details, schema) ensures IsCandidate(details, schema, m) {
      CandidatesMember(details, schema, m);
    }
    forall m | IsCandidate(details, schema, m) ensures KeyOf(m) in KeysOf(LogicalToPhysical(details, schema)) {
      CandidatesMember(details, schema, m);
      assert KeyOf(m) in KeysOf(cs);
    }
  }

  /** A mapping relates a field and a column that differ at most in the
      case of their letters, neither of them empty. */
  lemma MappingsMatchIgnoringCase(details: seq<DatasourceDetail>, schema: seq<HyperTable>, m: Mapping)
    requires m in LogicalToPhysical(details, schema)
    ensures m.logicalField != "" && m.physicalColumn != ""
    ensures Lower(m.logicalField) == Lower(m.physicalColumn)
    ensures exists t, c :: t in schema && c in t.columns && c.columnName == m.physicalColumn && t.table == m.table && t.schema == m.schema
  {
    MappingFacts(details, schema);
    var d :| d in details && InFields(d.fields, schema, m);
    var f :| f in d.fields && Named(f) && InSchema(f.fieldName.value, schema, m);
    var t :| t in schema && InTable(f.fieldName.value, t, m);
  }
}

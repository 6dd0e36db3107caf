/** Field-to-table resolution, AST enrichment, DAX generation and measure
    ownership (resolve_table_context.py).

    The script normalises the logical field names of the logical/physical
    mapping, builds a field -> table lookup that prefers a fact table when a
    field is ambiguous, attaches a table to every field reference of each
    measure's expression tree, renders each tree as a DAX string (or one of
    two sentinel strings) and records which table owns each measure. */
module TableContext {
  import opened Wrappers
  import opened Strings

  /** One record of logical_physical_mapping.json. */
  datatype Mapping = Mapping(logicalField: Option<string>, physicalColumn: string, table: string, schema: string)

  /** A normalised field name; `None` for a missing or empty name, which the
      lookup keeps as a key of its own. */
  type Key = Option<string>

  /** One side of a binary node: its field, aggregation and resolved table. */
  datatype Operand = Operand(field: string, agg: string, table: Option<string>)

  /** A measure's expression tree, by its `node` tag. `Other` is any other
      tag, or none. */
  datatype Node =
    | Binary(op: string, left: Operand, right: Operand)
    | Single(field: string, agg: string, table: Option<string>)
    | Raw(formula: string, tableContext: Option<map<string, string>>)
    | Other(kind: Option<string>)

  // ---------------------------------------------------------------------
  // Normalisation (lines 23-26)

  /** `s.strip().strip("[]")` */
  function Trim(s: string): (r: string)
    ensures |r| <= |s|
    ensures r != [] ==> !IsBracket(r[0]) && !IsBracket(r[|r| - 1])
  {
    Strip(Strip(s, IsSpace), IsBracket)
  }

  /** Lowercasing neither creates nor removes a bracket. */
  lemma LowerKeepsBrackets(s: string)
    ensures forall i :: 0 <= i < |s| ==> (IsBracket(Lower(s)[i]) <==> IsBracket(s[i]))
  {
  }

  /** `field.strip().strip("[]").lower()`, or `None` for a falsy field: every
      surrounding space and every surrounding bracket goes, then the rest is
      lowercased. */
  function NormalizeFieldName(field: Option<string>): (r: Key)
    ensures r.None? <==> field.None? || field.value == ""
    ensures r.Some? ==> IsLowered(r.value) && |r.value| <= |field.value|
    ensures r.Some? && r.value != "" ==> !IsBracket(r.value[0]) && !IsBracket(r.value[|r.value| - 1])
  {
    if field.None? || field.value == "" then None
    else
      LoweredTrim(field.value);
      Some(Lower(Trim(field.value)))
  }

  /** The trimmed, lowercased text is lowercased, no longer than the input,
      and has no bracket at either end. */
  lemma LoweredTrim(s: string)
    ensures IsLowered(Lower(Trim(s))) && |Lower(Trim(s))| <= |s|
    ensures var l := Lower(Trim(s)); l != "" ==> !IsBracket(l[0]) && !IsBracket(l[|l| - 1])
  {
    var t := Trim(s);
    var l := Lower(t);
    LowerIsLowered(t);
    assert |l| == |t|;
    if l != "" {
      LowerKeepsBrackets(t);
      assert !IsBracket(t[0]) && !IsBracket(t[|t| - 1]);
    }
  }

  /** `"[ a ]"` loses its brackets but keeps the spaces they enclosed. */
  lemma TrimBracketed()
    ensures Trim("[ a ]") == " a "
  {
    var s := "[ a ]";
    StripLeftAt(s, IsSpace, 0);
    StripRightAt(s, IsSpace, 5);
    assert s[0..][..5] == s;
    StripLeftAt(s, IsBracket, 1);
    var t := s[1..];
    assert t == " a ]";
    StripRightAt(t, IsBracket, 3);
    assert t[..3] == " a ";
  }

  /** `" a "` loses its spaces. */
  lemma TrimSpaced()
    ensures Trim(" a ") == "a"
  {
    var s := " a ";
    StripLeftAt(s, IsSpace, 1);
    var t := s[1..];
    assert t == "a ";
    StripRightAt(t, IsSpace, 1);
    var u := t[..1];
    assert u == "a";
    StripLeftAt(u, IsBracket, 0);
    StripRightAt(u, IsBracket, 1);
    assert u[0..][..1] == u;
  }

  /** Spaces enclosed by the brackets survive normalisation. */
  lemma NormalizeBracketed()
    ensures NormalizeFieldName(Some("[ a ]")) == Some(" a ")
  {
    TrimBracketed();
    NormalizeIsLoweredTrim("[ a ]");
    LoweredSpaced();
  }

  /** A non-empty name normalises to its trimmed, lowercased text. */
  lemma NormalizeIsLoweredTrim(x: string)
    requires x != ""
    ensures NormalizeFieldName(Some(x)) == Some(Lower(Trim(x)))
  {
  }

  /** `" a "` has no upper-case letter. */
  lemma LoweredSpaced()
    ensures Lower(" a ") == " a "
  {
    var t := " a ";
    assert IsLowered(t) by {
      assert t[0] == ' ' && t[1] == 'a' && t[2] == ' ';
    }
    LowerOfLoweredIsIdentity(t);
  }

  /** Surrounding spaces do not. */
  lemma NormalizeSpaced()
    ensures NormalizeFieldName(Some(" a ")) == Some("a")
  {
    TrimSpaced();
    NormalizeIsLoweredTrim(" a ");
    LoweredA();
  }

  /** `"a"` has no upper-case letter. */
  lemma LoweredA()
    ensures Lower("a") == "a"
  {
    var t := "a";
    assert IsLowered(t) by {
      assert t[0] == 'a';
    }
    LowerOfLoweredIsIdentity(t);
  }

  /** Normalising twice is not normalising once: the brackets go after the
      spaces, so spaces inside brackets survive the first pass only. */
  lemma NormalizeNotIdempotent()
    ensures NormalizeFieldName(NormalizeFieldName(Some("[ a ]"))) != NormalizeFieldName(Some("[ a ]"))
  {
    NormalizeBracketed();
    NormalizeSpaced();
  }

  // ---------------------------------------------------------------------
  // The field -> table lookup (lines 32-49)

  /** The normalised names of all mapping records. */
  function Fields(ms: seq<Mapping>): set<Key> {
    set m | m in ms :: NormalizeFieldName(m.logicalField)
  }

  /** The tables a normalised name maps to. */
  function Candidates(ms: seq<Mapping>, f: Key): set<string> {
    set m | m in ms && NormalizeFieldName(m.logicalField) == f :: m.table
  }

  /** `semantic_model["tables"].get(t, {}).get("type") == "fact"`; `types`
      holds the `type` of each table that has one. */
  predicate IsFact(types: map<string, string>, t: string) {
    t in types && types[t] == "fact"
  }

  /** One more record adds its name to the names, and its table to the
      candidates of that name only. */
  lemma GroupingSnoc(ms: seq<Mapping>, m: Mapping)
    ensures Fields(ms + [m]) == Fields(ms) + {NormalizeFieldName(m.logicalField)}
    ensures Candidates(ms + [m], NormalizeFieldName(m.logicalField)) == Candidates(ms, NormalizeFieldName(m.logicalField)) + {m.table}
    ensures forall g :: g != NormalizeFieldName(m.logicalField) ==> Candidates(ms + [m], g) == Candidates(ms, g)
  {
  }

  /** A name that no record has has no candidates. */
  lemma NoFieldNoCandidates(ms: seq<Mapping>, f: Key)
    requires f !in Fields(ms)
    ensures Candidates(ms, f) == {}
  {
  }

  /** Lines 32-34: group the tables of each normalised name. */
  method GroupCandidates(ms: seq<Mapping>) returns (groups: map<Key, set<string>>)
    ensures groups.Keys == Fields(ms)
    ensures forall f :: f in groups ==> groups[f] == Candidates(ms, f)
  {
    groups := map[];
    for i := 0 to |ms|
      invariant groups.Keys == Fields(ms[..i])
      invariant forall f :: f in groups ==> groups[f] == Candidates(ms[..i], f)
    {
      var m := ms[i];
      var f := NormalizeFieldName(m.logicalField);
      assert ms[..i + 1] == ms[..i] + [m];
      GroupingSnoc(ms[..i], m);
      if f !in groups {
        NoFieldNoCandidates(ms[..i], f);
      }
      var tables := if f in groups then groups[f] else {};
      groups := groups[f := tables + {m.table}];
    }
    assert ms[..|ms|] == ms;
  }

  /** A name that some record has has a candidate table. */
  lemma FieldHasCandidates(ms: seq<Mapping>, f: Key)
    requires f in Fields(ms)
    ensures Candidates(ms, f) != {}
  {
    var m :| m in ms && NormalizeFieldName(m.logicalField) == f;
    assert m.table in Candidates(ms, f);
  }

  /** What the lookup promises: its keys are exactly the normalised names,
      each maps to one of its candidate tables, and to a fact table whenever
      one of its candidates is a fact table. */
  ghost predicate Resolves(ms: seq<Mapping>, types: map<string, string>, lookup: map<Key, string>) {
    && lookup.Keys == Fields(ms)
    && (forall f :: f in lookup ==> lookup[f] in Candidates(ms, f))
    && (forall f :: f in lookup && (exists t :: t in Candidates(ms, f) && IsFact(types, t)) ==> IsFact(types, lookup[f]))
  }

  /** Lines 41-49: the one table of an unambiguous field; otherwise a fact
      table when there is one, any table when there is none. */
  method Choose(tables: set<string>, types: map<string, string>) returns (chosen: string)
    requires tables != {}
    ensures chosen in tables
    ensures (exists t :: t in tables && IsFact(types, t)) ==> IsFact(types, chosen)
  {
    var facts := set t | t in tables && IsFact(types, t);
    if |tables| == 1 {
      chosen :| chosen in tables;
      assert |tables - {chosen}| == 0;
      assert tables == {chosen};
    } else if facts != {} {
      chosen :| chosen in facts;
    } else {
      chosen :| chosen in tables;
    }
  }

  /** Lines 32-49. The script takes the first element of a set (or of the
      list built from it), whose order Python leaves open: here any element
      may be taken. */
  method BuildLookup(ms: seq<Mapping>, types: map<string, string>) returns (lookup: map<Key, string>)
    ensures Resolves(ms, types, lookup)
  {
    var groups := GroupCandidates(ms);
    lookup := map[];
    var remaining := groups.Keys;
    while remaining != {}
      invariant remaining <= groups.Keys
      invariant lookup.Keys == groups.Keys - remaining
      invariant forall f :: f in lookup ==> lookup[f] in groups[f]
      invariant forall f :: f in lookup && (exists t :: t in groups[f] && IsFact(types, t)) ==> IsFact(types, lookup[f])
      decreases remaining
    {
      var f :| f in remaining;
      var tables := groups[f];
      FieldHasCandidates(ms, f);
      var chosen := Choose(tables, types);
      lookup := lookup[f := chosen];
      remaining := remaining - {f};
    }
  }

  /** A field with a single candidate table resolves to it. */
  lemma SingleCandidate(ms: seq<Mapping>, types: map<string, string>, lookup: map<Key, string>, f: Key, t: string)
    requires Resolves(ms, types, lookup)
    requires Candidates(ms, f) == {t}
    ensures f in lookup && lookup[f] == t
  {
    var m :| m in ms && NormalizeFieldName(m.logicalField) == f && m.table == t;
    assert f in Fields(ms);
  }

  /** `field_to_table.get(key)` */
  function Get(lookup: map<Key, string>, key: Key): (r: Option<string>)
    ensures r.Some? <==> key in lookup
    ensures r.Some? ==> r.value == lookup[key]
  {
    if key in lookup then Some(lookup[key]) else None
  }

  /** The table a field reference resolves to. */
  function Resolve(lookup: map<Key, string>, field: string): Option<string> {
    Get(lookup, NormalizeFieldName(Some(field)))
  }

  // ---------------------------------------------------------------------
  // Enrichment (lines 57-81)

  /** The non-null keys of the lookup. */
  function NamedKeys(lookup: map<Key, string>): set<string> {
    set k | k in lookup && k.Some? :: k.value
  }

  /** Line 76-80: the lookup restricted to the names found as substrings of
      the lowercased formula. */
  function RawContext(lookup: map<Key, string>, formula: string): (ctx: map<string, string>)
    ensures forall f :: f in ctx <==> Some(f) in lookup && Contains(Lower(formula), f)
    ensures forall f :: f in ctx ==> ctx[f] == lookup[Some(f)]
  {
    map f | f in NamedKeys(lookup) && Contains(Lower(formula), f) :: lookup[Some(f)]
  }

  /** The tag and the source text of a node: what enrichment never touches. */
  predicate SameText(a: Node, b: Node) {
    match (a, b)
    case (Binary(op, l, r), Binary(op', l', r')) => op == op' && l.field == l'.field && l.agg == l'.agg && r.field == r'.field && r.agg == r'.agg
    case (Single(f, g, _), Single(f', g', _)) => f == f' && g == g'
    case (Raw(x, _), Raw(x', _)) => x == x'
    case (Other(k), Other(k')) => k == k'
    case _ => false
  }

  /** Lines 57-81. A raw node's names are tested with `field in formula`;
      a `None` key makes that test raise a TypeError, which aborts the script. */
  function Enrich(ast: Node, lookup: map<Key, string>): (r: Result<Node, string>)
    ensures r.Failure? <==> ast.Raw? && None in lookup
    ensures r.Success? ==> SameText(ast, r.value)
    ensures r.Success? && ast.Binary? ==>
      r.value.left.table == Resolve(lookup, ast.left.field) && r.value.right.table == Resolve(lookup, ast.right.field)
    ensures r.Success? && ast.Single? ==> r.value.table == Resolve(lookup, ast.field)
    ensures r.Success? && ast.Raw? ==> r.value.tableContext == Some(RawContext(lookup, ast.formula))
    ensures r.Success? && ast.Other? ==> r.value == ast
  {
    match ast
    case Binary(op, l, r) =>
      Success(Binary(op, l.(table := Resolve(lookup, l.field)), r.(table := Resolve(lookup, r.field))))
    case Single(f, agg, _) =>
      Success(Single(f, agg, Resolve(lookup, f)))
    case Raw(formula, _) =>
      if None in lookup then Failure("TypeError: 'in <string>' requires string as left operand, not NoneType")
      else Success(Raw(formula, Some(RawContext(lookup, formula))))
    case Other(_) =>
      Success(ast)
  }

  /** Lines 83-84: every measure's tree is enriched in turn; the first
      failure aborts the run. */
  method EnrichMeasures(measures: map<string, Node>, lookup: map<Key, string>)
    returns (r: Result<map<string, Node>, string>)
    ensures r.Failure? <==> None in lookup && exists n :: n in measures && measures[n].Raw?
    ensures r.Success? ==> r.value.Keys == measures.Keys
    ensures r.Success? ==> forall n :: n in measures ==> Enrich(measures[n], lookup) == Success(r.value[n])
  {
    var enriched := map[];
    var remaining := measures.Keys;
    while remaining != {}
      invariant remaining <= measures.Keys
      invariant enriched.Keys == measures.Keys - remaining
      invariant forall n :: n in enriched ==> Enrich(measures[n], lookup) == Success(enriched[n])
      decreases remaining
    {
      var n :| n in remaining;
      var e := Enrich(measures[n], lookup);
      if e.Failure? {
        return Failure(e.error);
      }
      enriched := enriched[n := e.value];
      remaining := remaining - {n};
    }
    return Success(enriched);
  }

  // ---------------------------------------------------------------------
  // DAX generation (lines 91-114)

  const ContextMissing := "-- TABLE CONTEXT MISSING"
  const Unsupported := "-- UNSUPPORTED TABLEAU LOGIC"

  /** Python truthiness of an optional table name: present and non-empty. */
  predicate Truthy(t: Option<string>) {
    t.Some? && t.value != ""
  }

  /** `{agg}({table}[{field}])` */
  function Reference(agg: string, table: string, field: string): (r: string)
    ensures |r| >= 2 && r[|r| - 2..] == "])"
  {
    agg + "(" + table + "[" + field + "])"
  }

  /** Lines 91-109. Only a reference whose table is present and non-empty is
      rendered; the field is written as it appears in the tree, not normalised. */
  function AstToDax(ast: Node): (r: string)
    ensures r == Unsupported <==> ast.Raw? || ast.Other?
    ensures r == ContextMissing <==>
      || (ast.Binary? && !(Truthy(ast.left.table) && Truthy(ast.right.table)))
      || (ast.Single? && !Truthy(ast.table))
    ensures r != ContextMissing && r != Unsupported ==> |r| >= 2 && r[|r| - 2..] == "])"
  {
    match ast
    case Binary(op, l, r) =>
      if !Truthy(l.table) || !Truthy(r.table) then ContextMissing
      else
        var right := Reference(r.agg, r.table.value, r.field);
        var s := Reference(l.agg, l.table.value, l.field) + " " + op + " " + right;
        assert s[|s| - 2..] == right[|right| - 2..];
        s
    case Single(f, agg, t) =>
      if !Truthy(t) then ContextMissing else Reference(agg, t.value, f)
    case _ => Unsupported
  }

  /** A single node with a table renders as `SUM(Orders[Sales])`; without
      one, as the missing-context sentinel. */
  lemma SingleExamples()
    ensures AstToDax(Single("Sales", "SUM", Some("Orders"))) == "SUM(Orders[Sales])"
    ensures AstToDax(Single("Sales", "SUM", None)) == ContextMissing
    ensures AstToDax(Single("Sales", "SUM", Some(""))) == ContextMissing
  {
    assert Reference("SUM", "Orders", "Sales") == "SUM(Orders[Sales])";
  }

  /** Lines 111-114: one DAX string per measure. */
  function DaxMeasures(measures: map<string, Node>): map<string, string> {
    map n | n in measures :: AstToDax(measures[n])
  }

  // ---------------------------------------------------------------------
  // Measure ownership (lines 119-131)

  /** Lines 119-131: a single node is owned by its table, a binary node by its
      left operand's table only; other nodes get no entry at all. */
  method MeasureTableMap(measures: map<string, Node>) returns (owners: map<string, Option<string>>)
    ensures owners.Keys == set n | n in measures && (measures[n].Single? || measures[n].Binary?)
    ensures forall n :: n in owners && measures[n].Single? ==> owners[n] == measures[n].table
    ensures forall n :: n in owners && measures[n].Binary? ==> owners[n] == measures[n].left.table
  {
    owners := map[];
    var remaining := measures.Keys;
    while remaining != {}
      invariant remaining <= measures.Keys
      invariant owners.Keys == set n | n in measures - remaining && (measures[n].Single? || measures[n].Binary?)
      invariant forall n :: n in owners && measures[n].Single? ==> owners[n] == measures[n].table
      invariant forall n :: n in owners && measures[n].Binary? ==> owners[n] == measures[n].left.table
      decreases remaining
    {
      var n :| n in remaining;
      var ast := measures[n];
      if ast.Single? {
        owners := owners[n := ast.table];
      } else if ast.Binary? {
        owners := owners[n := ast.left.table];
      }
      remaining := remaining - {n};
    }
  }

  /** Ownership and generation agree one way only: a measure whose DAX was
      generated has an owner with a table; a raw or other measure has
      neither; and a binary measure whose right side is unresolved still has
      its left side's table as owner. */
  lemma OwnershipAgainstDax(measures: map<string, Node>, owners: map<string, Option<string>>, n: string)
    requires n in measures
    requires owners.Keys == set m | m in measures && (measures[m].Single? || measures[m].Binary?)
    requires forall m :: m in owners && measures[m].Single? ==> owners[m] == measures[m].table
    requires forall m :: m in owners && measures[m].Binary? ==> owners[m] == measures[m].left.table
    ensures DaxMeasures(measures)[n] == Unsupported <==> n !in owners
    ensures DaxMeasures(measures)[n] != ContextMissing && n in owners ==> Truthy(owners[n])
  {
  }

  /** The asymmetry of binary ownership: owned by the left table although
      no DAX could be generated. */
  lemma LeftOwnsBinary()
    ensures var ast := Binary("+", Operand("Sales", "SUM", Some("Orders")), Operand("Cost", "SUM", None));
      AstToDax(ast) == ContextMissing && ast.left.table == Some("Orders")
  {
  }

  // ---------------------------------------------------------------------
  // The whole script

  /** The enriched semantic model's new parts. */
  datatype Resolved = Resolved(
    measures: map<string, Node>, daxMeasures: map<string, string>, measureTableMap: map<string, Option<string>>)

  /** Some mapping record has a missing or empty logical field. */
  predicate HasUnnamed(ms: seq<Mapping>) {
    exists m :: m in ms && (m.logicalField.None? || m.logicalField.value == "")
  }

  /** Lines 32-131 without the file I/O: the run fails exactly when an
      unnamed field meets a raw measure; otherwise every measure is enriched
      against a lookup that resolves the mapping, rendered from its enriched
      tree, and owned as `MeasureTableMap` says. */
  method ResolveTableContext(ms: seq<Mapping>, types: map<string, string>, measures: map<string, Node>)
    returns (r: Result<Resolved, string>)
    ensures r.Failure? <==> HasUnnamed(ms) && exists n :: n in measures && measures[n].Raw?
    ensures r.Success? ==> r.value.measures.Keys == measures.Keys && r.value.daxMeasures.Keys == measures.Keys
    ensures r.Success? ==> exists lookup :: Resolves(ms, types, lookup) &&
                             forall n :: n in measures ==> Enrich(measures[n], lookup) == Success(r.value.measures[n])
    ensures r.Success? ==> forall n :: n in measures ==> r.value.daxMeasures[n] == AstToDax(r.value.measures[n])
    ensures r.Success? ==> r.value.measureTableMap.Keys == set n | n in measures && (measures[n].Single? || measures[n].Binary?)
    ensures r.Success? ==> forall n :: n in r.value.measureTableMap && r.value.measures[n].Single? ==>
                             r.value.measureTableMap[n] == r.value.measures[n].table
    ensures r.Success? ==> forall n :: n in r.value.measureTableMap && r.value.measures[n].Binary? ==>
                             r.value.measureTableMap[n] == r.value.measures[n].left.table
  {
    var lookup := BuildLookup(ms, types);
    assert None in lookup <==> HasUnnamed(ms) by {
      if HasUnnamed(ms) {
        var m :| m in ms && (m.logicalField.None? || m.logicalField.value == "");
        assert NormalizeFieldName(m.logicalField) in Fields(ms);
      }
    }
    var enriched := EnrichMeasures(measures, lookup);
    if enriched.Failure? {
      return Failure(enriched.error);
    }
    var dax := DaxMeasures(enriched.value);
    var owners := MeasureTableMap(enriched.value);
    assert forall n :: n in measures ==> (enriched.value[n].Single? <==> measures[n].Single?) && (enriched.value[n].Binary? <==> measures[n].Binary?) by {
      forall n | n in measures ensures SameText(measures[n], enriched.value[n]) {
        assert Enrich(measures[n], lookup) == Success(enriched.value[n]);
      }
    }
    return Success(Resolved(enriched.value, dax, owners));
  }
}

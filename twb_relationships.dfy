/** Relationships read from the workbook (extract_relationships_from_twb.py).

    Physical joins are recognised by a `[T].[C] = [T].[C]` clause;
    logical relationships give one entry per column pair, or one raw entry
    when they have none; when the workbook has any logical relationship,
    its physical joins are not reported. The XML elements are given as
    records. */
module TwbRelationships {
  import opened Wrappers
  import opened Strings

  // ---------------------------------------------------------------------
  // The join pattern `\[([^\]]+)\]\.\[([^\]]+)\]\s*=\s*\[([^\]]+)\]\.\[([^\]]+)\]`
  // (lines 47-49)

  /** `\[([^\]]+)\]` at `i`: the bracketed text and the index after the
      closing bracket. The text runs to the first `]`, so the pattern
      leaves no choice of where a group ends. */
  function BracketedAt(s: string, i: nat): (r: Option<(string, nat)>)
    requires i <= |s|
    ensures r.Some? ==> i + 2 + |r.value.0| == r.value.1 <= |s|
    ensures r.Some? ==> r.value.0 != [] && ']' !in r.value.0
  {
    if i < |s| && s[i] == '[' then
      var e := IndexFrom(s, i + 1, ']');
      if i + 1 < e < |s| then
        var x := s[i + 1..e];
        assert forall j :: 0 <= j < |x| ==> x[j] == s[i + 1 + j];
        Some((x, e + 1))
      else None
    else None
  }

  /** `\[([^\]]+)\]\.\[([^\]]+)\]` at `i`: table, column and the index
      after. */
  function QualifiedAt(s: string, i: nat): (r: Option<(string, string, nat)>)
    requires i <= |s|
    ensures r.Some? ==> i < r.value.2 <= |s|
    ensures r.Some? ==> r.value.0 != [] && ']' !in r.value.0 && r.value.1 != [] && ']' !in r.value.1
  {
    var table := BracketedAt(s, i);
    if table.None? then None
    else
      var p := table.value.1;
      if p < |s| && s[p] == '.' then
        var column := BracketedAt(s, p + 1);
        if column.None? then None else Some((table.value.0, column.value.0, column.value.1))
      else None
  }

  /** The four groups of a match, in order. */
  datatype JoinKeys = JoinKeys(leftTable: string, leftColumn: string, rightTable: string, rightColumn: string)

  /** A group the pattern can capture: non-empty, without `]`. */
  predicate Capturable(x: string) {
    x != [] && ']' !in x
  }

  predicate CapturableKeys(k: JoinKeys) {
    Capturable(k.leftTable) && Capturable(k.leftColumn) && Capturable(k.rightTable) && Capturable(k.rightColumn)
  }

  /** `\s*=\s*` at `p`: the index after it. */
  function AfterEquals(s: string, p: nat): (r: Option<nat>)
    requires p <= |s|
    ensures r.Some? ==> p < r.value <= |s|
  {
    var e := SkipSpaces(s, p);
    if e < |s| && s[e] == '=' then Some(SkipSpaces(s, e + 1)) else None
  }

  /** The whole pattern at `i`. */
  function JoinAt(s: string, i: nat): (r: Option<JoinKeys>)
    requires i <= |s|
    ensures r.Some? ==> CapturableKeys(r.value)
  {
    var left := QualifiedAt(s, i);
    if left.None? then None
    else
      var f := AfterEquals(s, left.value.2);
      if f.None? then None
      else
        var right := QualifiedAt(s, f.value);
        if right.None? then None
        else Some(JoinKeys(left.value.0, left.value.1, right.value.0, right.value.1))
  }

  /** Line 62, `join_pattern.search(expr)` from index `i`: the match at the
      first index where the pattern matches. */
  function Search(s: string, i: nat): Option<JoinKeys>
    requires i <= |s|
    decreases |s| - i
  {
    if JoinAt(s, i).Some? then JoinAt(s, i)
    else if i == |s| then None
    else Search(s, i + 1)
  }

  /** A search that finds a match returns the match at some index, and
      the pattern matches at no earlier index. */
  lemma {:induction false} SearchFindsFirst(s: string, i: nat)
    requires i <= |s| && Search(s, i).Some?
    ensures exists j :: i <= j <= |s| && Search(s, i) == JoinAt(s, j) && forall l :: i <= l < j ==> JoinAt(s, l).None?
    decreases |s| - i
  {
    var here := JoinAt(s, i);
    if here.None? {
      var next := Search(s, i + 1);
      assert Search(s, i) == next;
      SearchFindsFirst(s, i + 1);
      var j :| i + 1 <= j <= |s| && next == JoinAt(s, j) && forall l :: i + 1 <= l < j ==> JoinAt(s, l).None?;
      forall l | i <= l < j ensures JoinAt(s, l).None? {
        if l == i {
          assert JoinAt(s, l) == here;
        }
      }
    }
  }

  /** A search that finds nothing means the pattern matches nowhere. */
  lemma SearchMissesNone(s: string, i: nat)
    requires i <= |s| && Search(s, i).None?
    ensures forall j :: i <= j <= |s| ==> JoinAt(s, j).None?
  {
    forall j | i <= j <= |s| ensures JoinAt(s, j).None? {
      SearchMissesAt(s, i, j);
    }
  }

  /** A search from `i` that finds nothing passes over index `j`. */
  lemma {:induction false} SearchMissesAt(s: string, i: nat, j: nat)
    requires i <= j <= |s| && Search(s, i).None?
    ensures JoinAt(s, j).None?
    decreases j - i
  {
    var here := JoinAt(s, i);
    if i < j {
      var next := Search(s, i + 1);
      assert Search(s, i) == next;
      SearchMissesAt(s, i + 1, j);
    }
  }

  /** The search returns the match at the leftmost index where the pattern
      matches, and nothing exactly when it matches nowhere. */
  lemma SearchIsLeftmost(s: string)
    ensures Search(s, 0).Some? <==> exists j :: 0 <= j <= |s| && JoinAt(s, j).Some?
    ensures Search(s, 0).Some? ==>
      exists j :: 0 <= j <= |s| && Search(s, 0) == JoinAt(s, j) && forall l :: 0 <= l < j ==> JoinAt(s, l).None?
  {
    if Search(s, 0).Some? {
      SearchFindsFirst(s, 0);
    } else {
      SearchMissesNone(s, 0);
    }
  }

  /** `[a].[b]` */
  function Qualified(a: string, b: string): string {
    "[" + a + "].[" + b + "]"
  }

  /** `[a].[b]` is written at `i` of `s`. */
  predicate QualifiedLaidOut(s: string, i: nat, a: string, b: string) {
    && i + |a| + |b| + 5 <= |s|
    && s[i] == '[' && s[i + 1..i + 1 + |a|] == a && s[i + 1 + |a|] == ']' && s[i + 2 + |a|] == '.'
    && s[i + 3 + |a|] == '[' && s[i + 4 + |a|..i + 4 + |a| + |b|] == b && s[i + 4 + |a| + |b|] == ']'
  }

  /** Where the brackets, the dot and the two names sit in `[a].[b]`. */
  lemma QualifiedShape(a: string, b: string)
    ensures |Qualified(a, b)| == |a| + |b| + 5
    ensures QualifiedLaidOut(Qualified(a, b), 0, a, b)
  {
    var q := Qualified(a, b);
    assert q == "[" + a + "]" + "." + "[" + b + "]";
    assert q[1..1 + |a|] == a;
    assert q[4 + |a|..4 + |a| + |b|] == b;
  }

  /** A layout survives text appended after it. */
  lemma LaidOutExtended(x: string, y: string, i: nat, a: string, b: string)
    requires QualifiedLaidOut(x, i, a, b)
    ensures QualifiedLaidOut(x + y, i, a, b)
  {
    var s := x + y;
    assert s[i + 1..i + 1 + |a|] == x[i + 1..i + 1 + |a|];
    assert s[i + 4 + |a|..i + 4 + |a| + |b|] == x[i + 4 + |a|..i + 4 + |a| + |b|];
  }

  /** A layout moves with text prepended before it. */
  lemma LaidOutShifted(x: string, y: string, i: nat, a: string, b: string)
    requires QualifiedLaidOut(y, i, a, b)
    ensures QualifiedLaidOut(x + y, |x| + i, a, b)
  {
    var s := x + y;
    var j := |x| + i;
    assert s[j + 1..j + 1 + |a|] == y[i + 1..i + 1 + |a|];
    assert s[j + 4 + |a|..j + 4 + |a| + |b|] == y[i + 4 + |a|..i + 4 + |a| + |b|];
  }

  /** `[x]` written at `i` is read back as `x`. */
  lemma BracketedReads(s: string, i: nat, x: string)
    requires Capturable(x) && i + |x| + 2 <= |s|
    requires s[i] == '[' && s[i + 1..i + 1 + |x|] == x && s[i + 1 + |x|] == ']'
    ensures BracketedAt(s, i) == Some((x, i + 2 + |x|))
  {
    forall l | i + 1 <= l < i + 1 + |x| ensures s[l] != ']' {
      assert s[l] == x[l - (i + 1)];
    }
  }

  /** `[a].[b]` written at `i` is read back as `a` and `b`. */
  lemma QualifiedReads(s: string, i: nat, a: string, b: string)
    requires Capturable(a) && Capturable(b) && QualifiedLaidOut(s, i, a, b)
    ensures QualifiedAt(s, i) == Some((a, b, i + |a| + |b| + 5))
  {
    BracketedReads(s, i, a);
    BracketedReads(s, i + 3 + |a|, b);
  }

  /** The pattern at `i` from its parts: `[a].[b]`, `\s*=\s*`, `[c].[d]`. */
  lemma JoinReads(s: string, i: nat, a: string, b: string, c: string, d: string, p: nat, f: nat, r: nat)
    requires i <= |s| && QualifiedAt(s, i) == Some((a, b, p))
    requires AfterEquals(s, p) == Some(f) && QualifiedAt(s, f) == Some((c, d, r))
    ensures JoinAt(s, i) == Some(JoinKeys(a, b, c, d))
  {
  }

  /** `" = "` followed by `[` at `p` is the pattern's `\s*=\s*`. */
  lemma SeparatorReads(s: string, p: nat)
    requires p + 3 < |s| && s[p] == ' ' && s[p + 1] == '=' && s[p + 2] == ' ' && s[p + 3] == '['
    ensures AfterEquals(s, p) == Some(p + 3)
  {
    assert SkipSpaces(s, p + 3) == p + 3;
    assert SkipSpaces(s, p) == p + 1;
  }

  /** The clause a join between two columns reads `[T].[C] = [T].[C]`. */
  function Render(k: JoinKeys): string {
    Qualified(k.leftTable, k.leftColumn) + " = " + Qualified(k.rightTable, k.rightColumn)
  }

  /** The left operand of a written clause sits at its start. */
  lemma RenderLeft(k: JoinKeys, rest: string)
    ensures QualifiedLaidOut(Render(k) + rest, 0, k.leftTable, k.leftColumn)
  {
    var left := Qualified(k.leftTable, k.leftColumn);
    var right := Qualified(k.rightTable, k.rightColumn);
    QualifiedShape(k.leftTable, k.leftColumn);
    LaidOutExtended(left, " = " + right + rest, 0, k.leftTable, k.leftColumn);
    assert Render(k) + rest == left + (" = " + right + rest);
  }

  /** The right operand of a written clause sits after `" = "`. */
  lemma RenderRight(k: JoinKeys, rest: string)
    ensures QualifiedLaidOut(Render(k) + rest, |k.leftTable| + |k.leftColumn| + 8, k.rightTable, k.rightColumn)
  {
    var left := Qualified(k.leftTable, k.leftColumn);
    var right := Qualified(k.rightTable, k.rightColumn);
    QualifiedShape(k.leftTable, k.leftColumn);
    QualifiedShape(k.rightTable, k.rightColumn);
    LaidOutExtended(right, rest, 0, k.rightTable, k.rightColumn);
    LaidOutShifted(left + " = ", right + rest, 0, k.rightTable, k.rightColumn);
    assert Render(k) + rest == (left + " = ") + (right + rest);
  }

  /** The separator of a written clause. */
  lemma RenderSeparator(k: JoinKeys, rest: string)
    ensures var p := |k.leftTable| + |k.leftColumn| + 5;
      var s := Render(k) + rest;
      && p + 3 < |s| && s[p] == ' ' && s[p + 1] == '=' && s[p + 2] == ' '
  {
    var left := Qualified(k.leftTable, k.leftColumn);
    var right := Qualified(k.rightTable, k.rightColumn);
    QualifiedShape(k.leftTable, k.leftColumn);
    QualifiedShape(k.rightTable, k.rightColumn);
    var s := Render(k) + rest;
    var tail := " = " + (right + rest);
    assert s == left + tail;
    var p := |left|;
    assert s[p] == tail[0] && s[p + 1] == tail[1] && s[p + 2] == tail[2];
  }

  /** `[a].[b] = [c].[d]` written at `i` matches there. */
  lemma LaidOutJoinReads(s: string, i: nat, k: JoinKeys)
    requires CapturableKeys(k)
    requires var p := i + |k.leftTable| + |k.leftColumn| + 5;
      && QualifiedLaidOut(s, i, k.leftTable, k.leftColumn)
      && p + 3 < |s| && s[p] == ' ' && s[p + 1] == '=' && s[p + 2] == ' '
      && QualifiedLaidOut(s, p + 3, k.rightTable, k.rightColumn)
    ensures JoinAt(s, i) == Some(k)
  {
    var p := i + |k.leftTable| + |k.leftColumn| + 5;
    QualifiedReads(s, i, k.leftTable, k.leftColumn);
    ClauseReads(s, i, k, p);
  }

  /** Two qualified columns around `" = "`, the first at `i`, match
      there. */
  lemma ClauseReads(s: string, i: nat, k: JoinKeys, p: nat)
    requires Capturable(k.rightTable) && Capturable(k.rightColumn)
    requires i <= |s| && QualifiedAt(s, i) == Some((k.leftTable, k.leftColumn, p))
    requires p + 3 < |s| && s[p] == ' ' && s[p + 1] == '=' && s[p + 2] == ' '
    requires QualifiedLaidOut(s, p + 3, k.rightTable, k.rightColumn)
    ensures JoinAt(s, i) == Some(k)
  {
    RightOperandReads(s, p, k.rightTable, k.rightColumn);
    JoinReads(s, i, k.leftTable, k.leftColumn, k.rightTable, k.rightColumn, p, p + 3, p + 3 + |k.rightTable| + |k.rightColumn| + 5);
  }

  /** `" = [c].[d]"` at `p`: the separator and the right operand. */
  lemma RightOperandReads(s: string, p: nat, c: string, d: string)
    requires Capturable(c) && Capturable(d)
    requires p + 3 < |s| && s[p] == ' ' && s[p + 1] == '=' && s[p + 2] == ' '
    requires QualifiedLaidOut(s, p + 3, c, d)
    ensures AfterEquals(s, p) == Some(p + 3)
    ensures QualifiedAt(s, p + 3) == Some((c, d, p + 3 + |c| + |d| + 5))
  {
    SeparatorReads(s, p);
    QualifiedReads(s, p + 3, c, d);
  }

  /** The pattern reads a written clause back, whatever follows it: the
      groups come out as left table, left column, right table, right
      column, and a search finds it at the start. */
  lemma ParseRender(k: JoinKeys, rest: string)
    requires CapturableKeys(k)
    ensures JoinAt(Render(k) + rest, 0) == Some(k)
    ensures Search(Render(k) + rest, 0) == Some(k)
  {
    RenderLeft(k, rest);
    RenderSeparator(k, rest);
    RenderRight(k, rest);
    LaidOutJoinReads(Render(k) + rest, 0, k);
  }

  // ---------------------------------------------------------------------
  // Physical joins (lines 44-78)

  /** The `<clause>` child of a join relation. */
  datatype Clause = Clause(expression: Option<string>)

  /** A `<relation type='join'>` element: its `join` attribute and its
      clause child. */
  datatype JoinRelation = JoinRelation(join: Option<string>, clause: Option<Clause>)

  /** One physical join as written to the output file. */
  datatype Join = Join(fromTable: string, fromColumn: string, toTable: string, toColumn: string,
                       joinType: string, expression: string)

  /** The note and confidence every raw logical entry carries. */
  const RawNote := "Tableau logical relationship \U{2013} join keys resolved at query time"
  const RawConfidence := "engine-resolved"

  /** One relationship as written to the output file; the constructor is its
      `mode` (`physical_join`, `logical_relationship`,
      `logical_relationship_raw`). */
  datatype Entry =
    | PhysicalJoin(join: Join)
    | LogicalRelationship(fromTable: Option<string>, fromColumn: Option<string>,
                          toTable: Option<string>, toColumn: Option<string>, rawAttributes: map<string, string>)
    | LogicalRaw(rawAttributes: map<string, string>, note: string, confidence: string)

  /** The expression of a relation's clause, when it has a non-empty one. */
  function ClauseText(rel: JoinRelation): Option<string> {
    if rel.clause.Some? && rel.clause.value.expression.Some? && rel.clause.value.expression.value != "" then
      rel.clause.value.expression
    else None
  }

  /** Lines 52-76 for one relation. */
  function JoinOf(rel: JoinRelation): (r: Option<Join>)
    ensures r.Some? <==> ClauseText(rel).Some? && Search(ClauseText(rel).value, 0).Some?
    ensures r.Some? ==>
      var k := Search(ClauseText(rel).value, 0).value;
      && r.value.fromTable == k.leftTable && r.value.fromColumn == k.leftColumn
      && r.value.toTable == k.rightTable && r.value.toColumn == k.rightColumn
      && r.value.joinType == (if rel.join.Some? then rel.join.value else "inner")
      && r.value.expression == ClauseText(rel).value
  {
    if rel.clause.None? then None
    else
      var expr := rel.clause.value.expression;
      if expr.None? || expr.value == "" then None
      else
        match Search(expr.value, 0)
        case None => None
        case Some(k) =>
          Some(Join(k.leftTable, k.leftColumn, k.rightTable, k.rightColumn, rel.join.GetOr("inner"), expr.value))
  }

  /** The joins after the relations `rels`. */
  function PhysicalJoins(rels: seq<JoinRelation>): seq<Entry> {
    if rels == [] then []
    else
      var j := JoinOf(rels[|rels| - 1]);
      PhysicalJoins(rels[..|rels| - 1]) + (if j.Some? then [PhysicalJoin(j.value)] else [])
  }

  /** Lines 44-78: one physical join per relation whose clause and two column keys resolve, in order. */
  method ExtractPhysicalJoins(rels: seq<JoinRelation>) returns (joins: seq<Entry>)
    ensures joins == PhysicalJoins(rels)
  {
    joins := [];
    for i := 0 to |rels|
      invariant joins == PhysicalJoins(rels[..i])
    {
      var rel := rels[i];
      assert rels[..i + 1][..i] == rels[..i];
      var joinType := rel.join.GetOr("inner");
      if rel.clause.None? {
        continue;
      }
      var expr := rel.clause.value.expression;
      if expr.None? || expr.value == "" {
        continue;
      }
      var found := Search(expr.value, 0);
      if found.None? {
        continue;
      }
      var k := found.value;
      joins := joins + [PhysicalJoin(Join(k.leftTable, k.leftColumn, k.rightTable, k.rightColumn, joinType, expr.value))];
    }
    assert rels[..|rels|] == rels;
  }

  /** A relation yields at most one join, and the joins are exactly the
      relations' matches: a relation without a clause, with an empty
      expression or with no match yields none. */
  lemma {:induction false} PhysicalJoinsFacts(rels: seq<JoinRelation>)
    ensures |PhysicalJoins(rels)| <= |rels|
    ensures forall e :: e in PhysicalJoins(rels) <==> e.PhysicalJoin? && exists r :: r in rels && JoinOf(r) == Some(e.join)
  {
    if rels != [] {
      var init := rels[..|rels| - 1];
      var last := rels[|rels| - 1];
      PhysicalJoinsFacts(init);
      assert rels == init + [last];
      forall e ensures e in PhysicalJoins(rels) <==> e.PhysicalJoin? && exists r :: r in rels && JoinOf(r) == Some(e.join) {
        if e.PhysicalJoin? && exists r :: r in rels && JoinOf(r) == Some(e.join) {
          var r :| r in rels && JoinOf(r) == Some(e.join);
          if r != last {
            assert r in init;
          }
        }
      }
    }
  }

  // ---------------------------------------------------------------------
  // Logical relationships (lines 81-108)

  /** A `<column>` child of a logical relationship. */
  datatype ColumnPair = ColumnPair(from: Option<string>, to: Option<string>)

  /** A `<relationship>` element: its attributes and its column children. */
  datatype LogicalElement = LogicalElement(attributes: map<string, string>, columns: seq<ColumnPair>)

  /** `rel.attrib.get(key)` */
  function Attribute(attributes: map<string, string>, key: string): Option<string> {
    if key in attributes then Some(attributes[key]) else None
  }

  /** Lines 85-106 for one relationship. */
  function EntriesOf(rel: LogicalElement): (es: seq<Entry>)
    ensures |es| == (if rel.columns == [] then 1 else |rel.columns|)
    ensures rel.columns == [] ==> es == [LogicalRaw(rel.attributes, RawNote, RawConfidence)]
    ensures forall k :: 0 <= k < |rel.columns| ==>
      es[k] == LogicalRelationship(Attribute(rel.attributes, "from-table"), rel.columns[k].from,
                                   Attribute(rel.attributes, "to-table"), rel.columns[k].to, rel.attributes)
  {
    if rel.columns == [] then [LogicalRaw(rel.attributes, RawNote, RawConfidence)]
    else
      var fromTable := Attribute(rel.attributes, "from-table");
      var toTable := Attribute(rel.attributes, "to-table");
      seq(|rel.columns|, k requires 0 <= k < |rel.columns| =>
        LogicalRelationship(fromTable, rel.columns[k].from, toTable, rel.columns[k].to, rel.attributes))
  }

  /** The entries after the relationships `rels`. */
  function LogicalEntries(rels: seq<LogicalElement>): seq<Entry> {
    if rels == [] then [] else LogicalEntries(rels[..|rels| - 1]) + EntriesOf(rels[|rels| - 1])
  }

  /** Lines 81-108: the entries of every logical relationship, in order. */
  method ExtractLogicalRelationships(rels: seq<LogicalElement>) returns (relationships: seq<Entry>)
    ensures relationships == LogicalEntries(rels)
  {
    relationships := [];
    for i := 0 to |rels|
      invariant relationships == LogicalEntries(rels[..i])
    {
      var rel := rels[i];
      assert rels[..i + 1][..i] == rels[..i];
      var fromTable := Attribute(rel.attributes, "from-table");
      var toTable := Attribute(rel.attributes, "to-table");
      ghost var before := relationships;
      for j := 0 to |rel.columns|
        invariant relationships == before + EntriesOf(rel)[..j]
      {
        var col := rel.columns[j];
        relationships := relationships + [LogicalRelationship(fromTable, col.from, toTable, col.to, rel.attributes)];
        assert EntriesOf(rel)[..j + 1] == EntriesOf(rel)[..j] + [EntriesOf(rel)[j]];
      }
      if rel.columns == [] {
        relationships := relationships + [LogicalRaw(rel.attributes, RawNote, RawConfidence)];
      } else {
        assert EntriesOf(rel)[..|rel.columns|] == EntriesOf(rel);
      }
    }
    assert rels[..|rels|] == rels;
  }

  /** The number of entries `rels` yield: one per column pair, one for a
      relationship without any. */
  function EntryCount(rels: seq<LogicalElement>): nat {
    if rels == [] then 0
    else
      var rel := rels[|rels| - 1];
      EntryCount(rels[..|rels| - 1]) + (if rel.columns == [] then 1 else |rel.columns|)
  }

  /** Every relationship contributes, so there are at least as many entries
      as relationships; no entry is a physical join. */
  lemma {:induction false} LogicalEntriesFacts(rels: seq<LogicalElement>)
    ensures |LogicalEntries(rels)| == EntryCount(rels) >= |rels|
    ensures forall e :: e in LogicalEntries(rels) ==> !e.PhysicalJoin?
  {
    if rels != [] {
      LogicalEntriesFacts(rels[..|rels| - 1]);
    }
  }

  // ---------------------------------------------------------------------
  // The choice of source (lines 114-125)

  /** Lines 114-125: logical relationships when the workbook has any,
      otherwise its physical joins, otherwise nothing. */
  method ExtractRelationships(logical: seq<LogicalElement>, joins: seq<JoinRelation>) returns (relationships: seq<Entry>)
    ensures logical != [] ==> relationships == LogicalEntries(logical)
    ensures logical == [] ==> relationships == PhysicalJoins(joins)
  {
    relationships := [];
    if logical != [] {
      relationships := ExtractLogicalRelationships(logical);
    } else if joins != [] {
      relationships := ExtractPhysicalJoins(joins);
    }
  }

  /** What `ExtractRelationships` returns. */
  function Relationships(logical: seq<LogicalElement>, joins: seq<JoinRelation>): seq<Entry> {
    if logical != [] then LogicalEntries(logical) else PhysicalJoins(joins)
  }

  /** Logical relationships take precedence: with any, no physical join is
      reported and at least one entry per relationship is; without any,
      every entry is a physical join of some relation. */
  lemma LogicalFirst(logical: seq<LogicalElement>, joins: seq<JoinRelation>)
    ensures logical != [] ==>
      |Relationships(logical, joins)| >= |logical| && forall e :: e in Relationships(logical, joins) ==> !e.PhysicalJoin?
    ensures logical == [] ==>
      forall e :: e in Relationships(logical, joins) ==> e.PhysicalJoin? && exists r :: r in joins && JoinOf(r) == Some(e.join)
  {
    LogicalEntriesFacts(logical);
    PhysicalJoinsFacts(joins);
  }
}

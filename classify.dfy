/** Keyword classification of calculation formulas
    (classify_tableau_calculations.py).

    Each formula is lowercased and tested, in a fixed order, for
    level-of-detail keywords, table-calculation functions, parameters and a
    whole-word aggregation; the first test that holds decides the class.
    Every calculation of every datasource yields one record. */
module Classify {
  import opened Wrappers
  import opened Strings
  import opened Seqs

  datatype Category = LodExpression | TableCalculation | ParameterDriven | SimpleAggregation | Unknown
  {
    /** The label written to the classification file. */
    function Label(): string {
      match this
      case LodExpression => "lod_expression"
      case TableCalculation => "table_calculation"
      case ParameterDriven => "parameter_driven"
      case SimpleAggregation => "simple_aggregation"
      case Unknown => "unknown"
    }

    /** The note that always accompanies the class. */
    function Note(): string {
      match this
      case LodExpression => "requires semantic rewrite"
      case TableCalculation => "not directly supported in DAX"
      case ParameterDriven => "requires model redesign"
      case SimpleAggregation => "directly convertible"
      case Unknown => "manual review required"
    }
  }

  /** Distinct classes have distinct labels, so a label names its class. */
  lemma LabelsDistinct(a: Category, b: Category)
    ensures a.Label() == b.Label() <==> a == b
  {
  }

  // ---------------------------------------------------------------------
  // The aggregation test: `\b(sum|avg|min|max|count)\b`

  const Aggregates: seq<string> := ["sum", "avg", "min", "max", "count"]

  /** `\b` just before position `i` of a word that starts with a letter. */
  predicate BoundaryBefore(f: string, i: nat)
    requires i <= |f|
  {
    i == 0 || !IsWordChar(f[i - 1])
  }

  /** `\b` just after a word that ends with a letter at `j - 1`. */
  predicate BoundaryAfter(f: string, j: nat)
    requires j <= |f|
  {
    j == |f| || !IsWordChar(f[j])
  }

  /** `w` occurs at `i` as a whole word. */
  predicate WordAt(f: string, i: nat, w: string) {
    && i + |w| <= |f|
    && f[i..i + |w|] == w
    && BoundaryBefore(f, i)
    && BoundaryAfter(f, i + |w|)
  }

  /** What the regular expression searches for: one of the aggregation
      names as a whole word somewhere in `f`. */
  ghost predicate HasAggregateWord(f: string) {
    exists i: nat, w :: w in Aggregates && WordAt(f, i, w)
  }

  predicate AggregateAt(f: string, i: nat) {
    WordAt(f, i, "sum") || WordAt(f, i, "avg") || WordAt(f, i, "min") || WordAt(f, i, "max") || WordAt(f, i, "count")
  }

  /** The search itself, position by position from `i`. */
  predicate AggregateFrom(f: string, i: nat)
    decreases |f| - i
  {
    i <= |f| && (AggregateAt(f, i) || AggregateFrom(f, i + 1))
  }

  /** The search from `i` finds a whole aggregation word exactly when one
      starts at `i` or later. */
  lemma {:induction false} AggregateFromExact(f: string, i: nat)
    requires i <= |f|
    ensures AggregateFrom(f, i) <==> exists j: nat, w :: i <= j && w in Aggregates && WordAt(f, j, w)
    decreases |f| - i
  {
    if AggregateAt(f, i) {
      var w :| w in Aggregates && WordAt(f, i, w);
    }
    if exists j: nat, w :: i <= j && w in Aggregates && WordAt(f, j, w) {
      var j: nat, w :| i <= j && w in Aggregates && WordAt(f, j, w);
      if j == i {
        assert AggregateAt(f, i);
      } else {
        AggregateFromExact(f, i + 1);
      }
    }
    if i < |f| {
      AggregateFromExact(f, i + 1);
    }
  }

  /** The search over the whole formula is the regular expression's. */
  lemma SearchIsWholeWord(f: string)
    ensures AggregateFrom(f, 0) <==> HasAggregateWord(f)
  {
    AggregateFromExact(f, 0);
  }

  /** `countd` is not the word `count`: a word character follows it. */
  lemma CountdIsNotCount(f: string, i: nat)
    requires i + 6 <= |f| && f[i..i + 6] == "countd"
    ensures !WordAt(f, i, "count")
  {
    assert f[i + 5] == f[i..i + 6][5];
  }

  // ---------------------------------------------------------------------
  // classify_formula (lines 16-31)

  predicate MentionsAny(f: string, words: seq<string>) {
    exists k :: 0 <= k < |words| && Contains(f, words[k])
  }

  const LodWords: seq<string> := ["fixed", "include", "exclude"]
  const TableCalcWords: seq<string> := ["lookup", "window_"]

  /** Lines 16-31: the first test that holds, in a fixed order, on the
      lowercased formula. */
  function ClassifyFormula(formula: string): (c: Category)
  {
    var f := Lower(formula);
    if Contains(f, "fixed") || Contains(f, "include") || Contains(f, "exclude") then LodExpression
    else if Contains(f, "lookup") || Contains(f, "window_") then TableCalculation
    else if Contains(f, "parameter") then ParameterDriven
    else if AggregateFrom(f, 0) then SimpleAggregation
    else Unknown
  }

  /** The precedence of the tests, each class in terms of the regular
      expression's own meaning: a later class needs every earlier test to
      fail. */
  lemma ClassifyPrecedence(formula: string)
    ensures var f := Lower(formula);
      && (ClassifyFormula(formula) == LodExpression <==> MentionsAny(f, LodWords))
      && (ClassifyFormula(formula) == TableCalculation <==> !MentionsAny(f, LodWords) && MentionsAny(f, TableCalcWords))
      && (ClassifyFormula(formula) == ParameterDriven <==>
           !MentionsAny(f, LodWords) && !MentionsAny(f, TableCalcWords) && Contains(f, "parameter"))
      && (ClassifyFormula(formula) == SimpleAggregation <==>
           !MentionsAny(f, LodWords) && !MentionsAny(f, TableCalcWords) && !Contains(f, "parameter") && HasAggregateWord(f))
  {
    var f := Lower(formula);
    SearchIsWholeWord(f);
    assert MentionsAny(f, LodWords) <==> Contains(f, "fixed") || Contains(f, "include") || Contains(f, "exclude") by {
      if Contains(f, "fixed") { assert Contains(f, LodWords[0]); }
      if Contains(f, "include") { assert Contains(f, LodWords[1]); }
      if Contains(f, "exclude") { assert Contains(f, LodWords[2]); }
    }
    assert MentionsAny(f, TableCalcWords) <==> Contains(f, "lookup") || Contains(f, "window_") by {
      if Contains(f, "lookup") { assert Contains(f, TableCalcWords[0]); }
      if Contains(f, "window_") { assert Contains(f, TableCalcWords[1]); }
    }
  }

  /** The class depends only on the lowercased text. */
  lemma ClassifyIgnoresCase(a: string, b: string)
    requires Lower(a) == Lower(b)
    ensures ClassifyFormula(a) == ClassifyFormula(b)
  {
  }

  /** Classifying the lowercased formula changes nothing. */
  lemma ClassifyLowered(formula: string)
    ensures ClassifyFormula(Lower(formula)) == ClassifyFormula(formula)
  {
    LowerIsLowered(formula);
  }

  /** The empty formula (a calculation without one) is `unknown`. */
  lemma EmptyIsUnknown()
    ensures ClassifyFormula("") == Unknown
  {
    assert !AggregateFrom("", 1);
  }

  // ---------------------------------------------------------------------
  // The per-calculation loop (lines 33-43)

  /** One calculation of a datasource; `formula` is `None` when the key is
      absent. */
  datatype Calculation = Calculation(fieldName: Option<string>, formula: Option<string>)

  /** One datasource's calculations (`[]` when the key is absent). */
  datatype Datasource = Datasource(calculations: seq<Calculation>)

  /** One record of the classification file. */
  datatype Record = Record(calculationName: Option<string>, formula: string, classification: string, note: string)

  function RecordOf(item: Calculation): Record {
    var formula := item.formula.GetOr("");
    var c := ClassifyFormula(formula);
    Record(item.fieldName, formula, c.Label(), c.Note())
  }

  function RecordsOf(ds: Datasource): (rs: seq<Record>)
    ensures |rs| == |ds.calculations|
    ensures forall i :: 0 <= i < |rs| ==> rs[i] == RecordOf(ds.calculations[i])
  {
    seq(|ds.calculations|, i requires 0 <= i < |ds.calculations| => RecordOf(ds.calculations[i]))
  }

  /** All records, datasource by datasource, calculation by calculation. */
  function Classified(dss: seq<Datasource>): seq<Record> {
    FlatMap(dss, RecordsOf)
  }

  /** Lines 33-43: classifies every calculation of every datasource, in order. */
  method ClassifyAll(dss: seq<Datasource>) returns (classified: seq<Record>)
    ensures classified == Classified(dss)
  {
    classified := [];
    for i := 0 to |dss|
      invariant classified == Classified(dss[..i])
    {
      var ds := dss[i];
      ghost var before := classified;
      for j := 0 to |ds.calculations|
        invariant classified == before + RecordsOf(ds)[..j]
      {
        var item := ds.calculations[j];
        var formula := item.formula.GetOr("");
        var c := ClassifyFormula(formula);
        classified := classified + [Record(item.fieldName, formula, c.Label(), c.Note())];
        assert RecordsOf(ds)[..j + 1] == RecordsOf(ds)[..j] + [RecordOf(item)];
      }
      assert RecordsOf(ds)[..|ds.calculations|] == RecordsOf(ds);
      FlatMapSnoc(dss[..i], ds, RecordsOf);
      assert dss[..i + 1] == dss[..i] + [ds];
    }
    assert dss[..|dss|] == dss;
  }

  /** The number of calculations over all datasources. */
  function CalculationCount(dss: seq<Datasource>): nat {
    if dss == [] then 0 else CalculationCount(dss[..|dss| - 1]) + |dss[|dss| - 1].calculations|
  }

  /** One record per calculation, and every record's label and note agree:
      the note is the one its class always carries. */
  lemma {:induction false} ClassifiedFacts(dss: seq<Datasource>)
    ensures |Classified(dss)| == CalculationCount(dss)
    ensures forall r :: r in Classified(dss) ==>
      exists c: Category :: r.classification == c.Label() && r.note == c.Note() && c == ClassifyFormula(r.formula)
  {
    if dss != [] {
      ClassifiedFacts(dss[..|dss| - 1]);
    }
    forall r | r in Classified(dss)
      ensures exists c: Category :: r.classification == c.Label() && r.note == c.Note() && c == ClassifyFormula(r.formula)
    {
      FlatMapMember(dss, RecordsOf, r);
      var k :| 0 <= k < |dss| && r in RecordsOf(dss[k]);
      var i :| 0 <= i < |dss[k].calculations| && r == RecordOf(dss[k].calculations[i]);
      var c := ClassifyFormula(r.formula);
      assert r.classification == c.Label() && r.note == c.Note();
    }
  }
}

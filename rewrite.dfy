/** Text rewriting of simple aggregations into DAX
    (rewrite_convertible_calculations.py).

    Three case-insensitive keyword substitutions (`SUM`, `AVG`, `COUNTD`,
    each at a word boundary and followed by optional whitespace and `(`),
    then two literal replacements; calculations classified as simple
    aggregations are rewritten, all others are listed as skipped. */
module Rewrite {
  import opened Wrappers
  import opened Strings
  import opened Classify

  // ---------------------------------------------------------------------
  // One keyword substitution: `re.sub(r"\bKW\s*\(", repl, s, flags=re.IGNORECASE)`

  /** The pattern matches at `i`: a word boundary, the keyword in any case
      (`kw` is given in lower case and starts and ends with a letter), any
      whitespace, then `(`. */
  predicate MatchAt(s: string, i: nat, kw: string) {
    && i + |kw| <= |s|
    && (i == 0 || !IsWordChar(s[i - 1]))
    && Lower(s[i..i + |kw|]) == kw
    && SkipSpaces(s, i + |kw|) < |s|
    && s[SkipSpaces(s, i + |kw|)] == '('
  }

  /** Where a match at `i` ends: just after its `(`. */
  function MatchEnd(s: string, i: nat, kw: string): (e: nat)
    requires MatchAt(s, i, kw)
    ensures i < e <= |s|
  {
    SkipSpaces(s, i + |kw|) + 1
  }

  /** The substitution applied to `s[i..]`, scanning left to right and
      resuming after each match; the boundary test always looks at the
      original text. */
  function Substitute(s: string, i: nat, kw: string, repl: string): string
    requires i <= |s|
    decreases |s| - i
  {
    if i == |s| then []
    else if MatchAt(s, i, kw) then repl + Substitute(s, MatchEnd(s, i, kw), kw, repl)
    else [s[i]] + Substitute(s, i + 1, kw, repl)
  }

  /** Text before the first match comes through unchanged. */
  lemma {:induction false} SubstituteKeepsUnmatched(s: string, i: nat, j: nat, kw: string, repl: string)
    requires i <= j <= |s|
    requires forall k :: i <= k < j ==> !MatchAt(s, k, kw)
    ensures Substitute(s, i, kw, repl) == s[i..j] + Substitute(s, j, kw, repl)
    decreases j - i
  {
    if i < j {
      var next, rest := Substitute(s, i + 1, kw, repl), Substitute(s, j, kw, repl);
      assert !MatchAt(s, i, kw);
      assert Substitute(s, i, kw, repl) == [s[i]] + next;
      SubstituteKeepsUnmatched(s, i + 1, j, kw, repl);
      assert next == s[i + 1..j] + rest;
      assert [s[i]] + (s[i + 1..j] + rest) == s[i..j] + rest;
    }
  }

  /** Without any match the text is unchanged. */
  lemma NoMatchNoChange(s: string, kw: string, repl: string)
    requires forall k :: 0 <= k < |s| ==> !MatchAt(s, k, kw)
    ensures Substitute(s, 0, kw, repl) == s
  {
    SubstituteKeepsUnmatched(s, 0, |s|, kw, repl);
    assert s[0..|s|] == s;
  }

  /** A match is replaced as a whole, and the scan goes on after it. */
  lemma SubstituteMatch(s: string, i: nat, kw: string, repl: string)
    requires i <= |s| && MatchAt(s, i, kw)
    ensures Substitute(s, i, kw, repl) == repl + Substitute(s, MatchEnd(s, i, kw), kw, repl)
  {
  }

  /** A keyword glued to a preceding word character (`XAVG(`) is no match. */
  lemma NoMatchInsideWord(s: string, i: nat, kw: string)
    requires 0 < i <= |s| && IsWordChar(s[i - 1])
    ensures !MatchAt(s, i, kw)
  {
  }

  /** Case, and whitespace before the parenthesis, do not matter: `Avg  (`
      matches like `avg(`. */
  lemma MatchIgnoresCase(s: string, i: nat, kw: string)
    requires i + |kw| < |s| && (i == 0 || !IsWordChar(s[i - 1]))
    requires Lower(s[i..i + |kw|]) == kw && s[i + |kw|] == ' ' && i + |kw| + 1 < |s| && s[i + |kw| + 1] == '('
    ensures MatchAt(s, i, kw) && MatchEnd(s, i, kw) == i + |kw| + 2
  {
    assert SkipSpaces(s, i + |kw| + 1) == i + |kw| + 1;
  }

  // ---------------------------------------------------------------------
  // rewrite_to_dax (lines 14-27)

  /** Lines 14-27: the three keyword substitutions, then the two literal
      replacements, in the source's order. */
  function RewriteToDax(formula: string): string {
    var afterSum := Substitute(formula, 0, "sum", "SUM(");
    var afterAvg := Substitute(afterSum, 0, "avg", "AVERAGE(");
    var afterCountd := Substitute(afterAvg, 0, "countd", "DISTINCTCOUNT(");
    var afterYear := ReplaceAll(afterCountd, "YEAR(", "YEAR(");
    ReplaceAll(afterYear, "DATEDIFF('day'", "DATEDIFF(")
  }

  /** The `YEAR(` step changes nothing: the rewrite is the three keyword
      substitutions followed by the `DATEDIFF('day'` replacement alone. */
  lemma YearStepIsIdentity(formula: string)
    ensures RewriteToDax(formula) ==
      ReplaceAll(Substitute(Substitute(Substitute(formula, 0, "sum", "SUM("), 0, "avg", "AVERAGE("), 0, "countd", "DISTINCTCOUNT("),
                 "DATEDIFF('day'", "DATEDIFF(")
  {
    var afterCountd := Substitute(Substitute(Substitute(formula, 0, "sum", "SUM("), 0, "avg", "AVERAGE("), 0, "countd", "DISTINCTCOUNT(");
    ReplaceByItself(afterCountd, "YEAR(");
  }

  /** A formula without any of the patterns comes back unchanged. */
  lemma PlainFormulaUnchanged(formula: string)
    requires forall k :: 0 <= k < |formula| ==> !MatchAt(formula, k, "sum") && !MatchAt(formula, k, "avg") && !MatchAt(formula, k, "countd")
    requires !Contains(formula, "DATEDIFF('day'")
    ensures RewriteToDax(formula) == formula
  {
    NoMatchNoChange(formula, "sum", "SUM(");
    NoMatchNoChange(formula, "avg", "AVERAGE(");
    NoMatchNoChange(formula, "countd", "DISTINCTCOUNT(");
    ReplaceByItself(formula, "YEAR(");
    ReplaceAbsent(formula, "DATEDIFF('day'", "DATEDIFF(");
  }

  // ---------------------------------------------------------------------
  // The converted / skipped partition (lines 29-40)

  datatype Skipped = Skipped(calculationName: Option<string>, reason: string)

  predicate IsConvertible(r: Record) {
    r.classification == "simple_aggregation"
  }

  /** The `converted` dictionary after the records `rs`: later records of
      the same name overwrite earlier ones. */
  function Converted(rs: seq<Record>): map<Option<string>, string> {
    if rs == [] then map[]
    else
      var r := rs[|rs| - 1];
      var before := Converted(rs[..|rs| - 1]);
      if IsConvertible(r) then before[r.calculationName := RewriteToDax(r.formula)] else before
  }

  /** The `skipped` list after the records `rs`. */
  function SkippedOf(rs: seq<Record>): seq<Skipped> {
    if rs == [] then []
    else
      var r := rs[|rs| - 1];
      var before := SkippedOf(rs[..|rs| - 1]);
      if IsConvertible(r) then before else before + [Skipped(r.calculationName, r.note)]
  }

  /** Lines 29-40: collects the rewritten formulas of the convertible records by name and lists the others as skipped. */
  method Partition(rs: seq<Record>) returns (converted: map<Option<string>, string>, skipped: seq<Skipped>)
    ensures converted == Converted(rs) && skipped == SkippedOf(rs)
  {
    converted := map[];
    skipped := [];
    for i := 0 to |rs|
      invariant converted == Converted(rs[..i]) && skipped == SkippedOf(rs[..i])
    {
      var r := rs[i];
      assert rs[..i + 1][..i] == rs[..i];
      if r.classification == "simple_aggregation" {
        converted := converted[r.calculationName := RewriteToDax(r.formula)];
      } else {
        skipped := skipped + [Skipped(r.calculationName, r.note)];
      }
    }
    assert rs[..|rs|] == rs;
  }

  /** The number of convertible records. */
  function ConvertibleCount(rs: seq<Record>): nat {
    if rs == [] then 0 else ConvertibleCount(rs[..|rs| - 1]) + (if IsConvertible(rs[|rs| - 1]) then 1 else 0)
  }

  /** Every record is either converted or skipped exactly once: the skipped
      entries and the convertible records together number the records, the
      converted names are exactly the convertible records' names, and the
      dictionary has at most one entry per convertible record. */
  lemma {:induction false} PartitionCounts(rs: seq<Record>)
    ensures |SkippedOf(rs)| + ConvertibleCount(rs) == |rs|
    ensures Converted(rs).Keys == set r | r in rs && IsConvertible(r) :: r.calculationName
    ensures |Converted(rs)| <= ConvertibleCount(rs)
  {
    if rs != [] {
      var init := rs[..|rs| - 1];
      PartitionCounts(init);
      assert rs == init + [rs[|rs| - 1]];
    }
  }

  /** A skipped entry carries the note of a record that was not
      convertible. */
  lemma {:induction false} SkippedSources(rs: seq<Record>)
    ensures forall s :: s in SkippedOf(rs) ==> exists r :: r in rs && !IsConvertible(r) && s == Skipped(r.calculationName, r.note)
  {
    if rs != [] {
      var init := rs[..|rs| - 1];
      SkippedSources(init);
      forall s | s in SkippedOf(rs)
        ensures exists r :: r in rs && !IsConvertible(r) && s == Skipped(r.calculationName, r.note)
      {
        if s in SkippedOf(init) {
          var r :| r in init && !IsConvertible(r) && s == Skipped(r.calculationName, r.note);
          assert r in rs;
        } else {
          assert rs[|rs| - 1] in rs;
        }
      }
    }
  }

  /** `rs[i]` is the last convertible record named `n`. */
  predicate LastConvertible(rs: seq<Record>, i: int, n: Option<string>) {
    && 0 <= i < |rs| && IsConvertible(rs[i]) && rs[i].calculationName == n
    && forall j :: i < j < |rs| && IsConvertible(rs[j]) ==> rs[j].calculationName != n
  }

  /** A record that is not a convertible record named `n` leaves the last
      convertible record of that name where it was. */
  lemma LastConvertibleExtends(rs: seq<Record>, i: int, n: Option<string>)
    requires rs != [] && LastConvertible(rs[..|rs| - 1], i, n)
    requires !(IsConvertible(rs[|rs| - 1]) && rs[|rs| - 1].calculationName == n)
    ensures LastConvertible(rs, i, n)
  {
    var init := rs[..|rs| - 1];
    forall j | i < j < |rs| && IsConvertible(rs[j]) ensures rs[j].calculationName != n {
      if j < |init| {
        assert rs[j] == init[j];
      }
    }
  }

  /** A converted formula is the rewrite of the last convertible record of
      that name. */
  lemma {:induction false} ConvertedSources(rs: seq<Record>)
    ensures forall n :: n in Converted(rs) ==>
      exists i :: LastConvertible(rs, i, n) && Converted(rs)[n] == RewriteToDax(rs[i].formula)
  {
    if rs != [] {
      var init := rs[..|rs| - 1];
      var last := rs[|rs| - 1];
      ConvertedSources(init);
      forall n | n in Converted(rs)
        ensures exists i :: LastConvertible(rs, i, n) && Converted(rs)[n] == RewriteToDax(rs[i].formula)
      {
        if IsConvertible(last) && last.calculationName == n {
          assert LastConvertible(rs, |rs| - 1, n);
        } else {
          assert n in Converted(init);
          var i :| LastConvertible(init, i, n) && Converted(init)[n] == RewriteToDax(init[i].formula);
          LastConvertibleExtends(rs, i, n);
        }
      }
    }
  }
}

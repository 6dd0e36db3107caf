# A verified model of the Tableau → Power BI migration core

The migration pipeline reads a Tableau workbook and its data extract, then
builds a Power BI semantic model from them. This project models the
in-memory logic of seven of the pipeline's scripts, without their file, XML
or extract I/O:

- **Relationship inference from the raw extract** (`HyperInference`,
  `hyper_inference.dfy`). The script does the following:
  - splits the wide frame into tables by the `table.column` naming rule;
  - profiles every column: its row count, distinct non-null count, null
    count and dtype;
  - nominates as primary-key candidates the columns with no null and no
    repeated value;
  - scans every cross-table (column, key) pair with equal dtypes for a
    coverage strictly above 0.95;
  - emits one `ManyToOne` relationship per accepted pair.
- **Table context for measures** (`TableContext`, `table_context.dfy`). The
  script does the following:
  - normalises field names;
  - builds the field → table lookup, preferring a fact table when a field
    is ambiguous;
  - enriches each measure's expression tree (binary, single or raw) with
    tables;
  - renders the tree as DAX, or as one of two sentinel strings;
  - derives which table owns each measure.
- **Calculation classification** (`Classify`, `classify.dfy`). It applies
  ordered keyword tests to the lowercased formula, then writes one record
  per calculation.
- **Rewriting simple aggregations into DAX** (`Rewrite`, `rewrite.dfy`). It
  makes three case-insensitive keyword substitutions and two literal
  replacements, and splits the calculations into converted and skipped.
- **The Tabular Object Model export** (`TomExport`, `tom_export.dfy`). It
  does the following:
  - builds the type lookup;
  - constructs the tables and their columns;
  - places each measure on the table it belongs to, or records an
    "unplaced" annotation;
  - copies the relationships;
  - appends the closing migration note.
- **The workbook parser's two pieces of logic** (`TableauParsing`,
  `tableau_parsing.dfy`):
  - splits datasource columns into fields and calculations;
  - maps logical fields to physical columns case-insensitively, without
    duplicates.
- **Relationships from the workbook XML** (`TwbRelationships`,
  `twb_relationships.dfy`):
  - parses `[T].[C] = [T].[C]` join clauses;
  - extracts the logical relationships;
  - prefers logical relationships over physical joins.

Shared pieces:
- `Wrappers` holds `Option` and `Result`.
- `Strings` holds the parts of Python's `str` the scripts use: `lower`,
  `strip`, substring `in` and `replace`.
- `Seqs` holds `FlatMap` and `NoDuplicates`.

Each module follows the form of its script:
- Where the script loops and appends, the model is a `method` with a loop.
  Each such method is proved equal to a specification function built from
  the back of its input, so that a loop invariant reads
  `acc == Spec(xs[..i])`.
- Where the script is a pure chain of tests, the model is a `function`.
- The TOM model's tables are updated in place and are aliased by the table
  map, so they are `class` objects.
- The promised properties are lemmas about the specification functions.

In these places the model follows the code rather than the scripts' apparent intent:
- **`None` key in the lookup.** The lookup keeps a `None` key for a mapping
  record with a missing or empty logical field. A raw node then makes the
  script raise a `TypeError` (`None in str`). This is modelled as a
  `Failure`; see `TableContext.Enrich` and
  `TableContext.ResolveTableContext`.
- **Bracket stripping.** `strip("[]")` removes every leading and trailing
  bracket, not just one pair.
- **Ambiguous fields.** The choice between candidate tables follows Python
  set order, so only membership and the fact-table preference are promised.
- **Relationship strings.** The cardinality string is `ManyToOne` and the
  cross-filter direction is `Single`.
- **Row counts.** Every split table's row count is the row count of the
  whole frame. Each table is built from columns of that one frame.

## Model

| member | source | states |
|---|---|---|
| HyperInference.SplitColumnName | infer_relationships_from_hyper.py:17-19 | A name with no `.` is ignored; otherwise the table part has no dot and table + "." + column gives back the name, so the split is at the first dot and the column part may hold dots |
| HyperInference.SplitJoined | infer_relationships_from_hyper.py:19 | Splitting `table.column` with a dot-free table gives back exactly that table and column (a round trip) |
| HyperInference.SplitTables | infer_relationships_from_hyper.py:14-20 | The tables are the dotted columns' table parts, in order of first appearance; each table holds, in frame order, exactly the columns whose name carries that table part |
| HyperInference.ColumnsOfMember | infer_relationships_from_hyper.py:16-20 | A column belongs to a table exactly when some frame column named `table.column` carries its name, cells and dtype |
| HyperInference.TableNamesMember | infer_relationships_from_hyper.py:16-20 | A table is listed exactly when some dotted frame column carries its name |
| HyperInference.TableNamesDistinct | infer_relationships_from_hyper.py:14-20 | No table is listed twice, as the keys of a dictionary are distinct |
| HyperInference.ValuesMember | infer_relationships_from_hyper.py:33 | The distinct non-null values are exactly the values of the non-null cells |
| HyperInference.ProfileCounts | infer_relationships_from_hyper.py:33-34 | Distinct non-null values plus nulls never exceed the rows, and they equal the rows exactly when no non-null value repeats |
| HyperInference.Profile | infer_relationships_from_hyper.py:31-36 | A profile records the column's name, dtype and its table's row count, and its distinct and null counts together are at most that row count |
| HyperInference.ProfileTable | infer_relationships_from_hyper.py:29-36 | Every column of a table is profiled with the table's row count, in column order |
| HyperInference.ProfileTables | infer_relationships_from_hyper.py:25-36 | Every table gets profiles, and only the tables do; each table gets one profile per column |
| HyperInference.KeyCandidateMeansUnique | infer_relationships_from_hyper.py:43-46 | A column is a key candidate exactly when no cell is null and no value repeats |
| HyperInference.NullCountZero | infer_relationships_from_hyper.py:34 | The null count is zero exactly when every cell holds a value |
| HyperInference.KeyNamesMember | infer_relationships_from_hyper.py:41-47 | Every qualifying column of a table is kept as a key candidate, not just the first, and only those columns |
| HyperInference.PrimaryKeys | infer_relationships_from_hyper.py:39-47 | A table has a key list exactly when it has a candidate, and the list is all its candidates in column order |
| HyperInference.Coverage | infer_relationships_from_hyper.py:62-65 | The denominator is the number of distinct non-null foreign-key values, or 1 when there are none; the numerator never exceeds the denominator, so the coverage lies in [0, 1] |
| HyperInference.AllNullNeverAccepted | infer_relationships_from_hyper.py:62-67 | An all-null foreign-key column has coverage 0 and is never accepted |
| HyperInference.MatchKeys | infer_relationships_from_hyper.py:58-74 | The loop over one table's keys yields the pair results of the scan specification, in key order |
| HyperInference.MatchColumns | infer_relationships_from_hyper.py:57-74 | The loop over a fact table's columns yields the scan specification's pairs, in column order |
| HyperInference.MatchDims | infer_relationships_from_hyper.py:53-74 | The loop over the tables with keys skips the fact table itself and yields the scan specification's pairs |
| HyperInference.ForeignKeys | infer_relationships_from_hyper.py:50-74 | The four nested loops yield exactly the scan specification, in scan order |
| HyperInference.PairResultShape | infer_relationships_from_hyper.py:59-74 | One (column, key) pair yields at most one foreign key, which names that fact column and that key |
| HyperInference.ScanSound | infer_relationships_from_hyper.py:52-74 | Every foreign key found is an accepted pair: two different tables, a key of the target, equal dtypes and a coverage strictly above 0.95 |
| HyperInference.ScanComplete | infer_relationships_from_hyper.py:52-74 | Every accepted pair is found |
| HyperInference.ScanExact | infer_relationships_from_hyper.py:52-74 | The scan finds exactly the accepted pairs |
| HyperInference.AcceptedFacts | infer_relationships_from_hyper.py:54-67 | A found pair never relates a table to itself; its dtypes are equal, its target column is a key, and `20 * inter > 19 * denom` (a coverage of exactly 0.95 is rejected) |
| HyperInference.Thousandths | infer_relationships_from_hyper.py:87 | Rounding to three places gives the nearest thousandth of the coverage, with halves rounded up |
| HyperInference.ConfidenceRange | infer_relationships_from_hyper.py:67-87 | An accepted coverage rounds to a confidence between 0.950 and 1.000 |
| HyperInference.Relationships | infer_relationships_from_hyper.py:77-92 | One relationship record per foreign key, in order |
| HyperInference.RelationshipFacts | infer_relationships_from_hyper.py:79-92 | Every relationship is `ManyToOne`, `Single` and `pk_verified`; its two tables differ; its confidence lies within half a thousandth of the coverage and between 0.950 and 1.000; its target column is a key candidate of its target table |
| HyperInference.SplitRows | infer_relationships_from_hyper.py:20-27 | Every column of every split table has the frame's row count |
| HyperInference.AnalyseMatches | infer_relationships_from_hyper.py:14-47 | The split, profiling and key phases together build exactly the profiled extract that the scan specification reads |
| HyperInference.InferRelationships | infer_relationships_from_hyper.py:14-92 | The script yields one relationship per accepted pair of the profiled frame, in scan order, each with a coverage strictly above 0.95 |
| TableContext.Trim | resolve_table_context.py:26 | After `strip().strip("[]")`, the text neither starts nor ends with a bracket |
| TableContext.NormalizeFieldName | resolve_table_context.py:23-26 | `None` exactly for a missing or empty name; otherwise a lowercased name, no longer than the input, that neither starts nor ends with a bracket |
| TableContext.NormalizeIsLoweredTrim | resolve_table_context.py:24-26 | A non-empty name normalises to its trimmed text, lowercased |
| TableContext.TrimBracketed | resolve_table_context.py:26 | `[ a ]` loses its brackets but keeps the spaces inside them |
| TableContext.TrimSpaced | resolve_table_context.py:26 | Surrounding spaces are stripped |
| TableContext.NormalizeBracketed | resolve_table_context.py:23-26 | `[ a ]` normalises to ` a `, keeping the spaces inside the brackets |
| TableContext.NormalizeSpaced | resolve_table_context.py:23-26 | ` a ` normalises to `a` |
| TableContext.NormalizeNotIdempotent | resolve_table_context.py:23-26 | Normalising twice differs from normalising once |
| TableContext.GroupCandidates | resolve_table_context.py:32-36 | The groups' keys are exactly the normalised names of the mapping records (`None` included), and each group holds exactly the tables of that name's records |
| TableContext.Choose | resolve_table_context.py:41-49 | The chosen table is one of the candidates, and it is a fact table whenever some candidate is |
| TableContext.BuildLookup | resolve_table_context.py:32-49 | The lookup's keys are exactly the normalised names, and each name maps to one of its candidate tables, a fact table when one exists |
| TableContext.SingleCandidate | resolve_table_context.py:41-42 | A name with a single candidate table resolves to that table |
| TableContext.RawContext | resolve_table_context.py:75-79 | A raw node's context is the lookup restricted to the names found as substrings of the lowercased formula |
| TableContext.Enrich | resolve_table_context.py:57-81 | Each binary operand and each single node gets the lookup's table for its normalised field (possibly none), a raw node gets its context, any other node is unchanged, and no node's text changes; a raw node fails exactly when the lookup has a `None` key |
| TableContext.EnrichMeasures | resolve_table_context.py:83-84 | Enrichment fails exactly when the lookup has a `None` key and some measure is raw; otherwise every measure is enriched and no measure is added or lost |
| TableContext.AstToDax | resolve_table_context.py:91-109 | Raw and other nodes render as the unsupported sentinel; a binary or single node whose table (on either side) is missing or empty renders as the missing-context sentinel; every other result ends with a column reference `])` |
| TableContext.SingleExamples | resolve_table_context.py:104-107 | A single node renders as `SUM(Orders[Sales])`, and as the missing-context sentinel when its table is missing or empty |
| TableContext.MeasureTableMap | resolve_table_context.py:119-131 | Exactly the single and binary measures are owned: a single node by its table, a binary node by its left operand's table |
| TableContext.OwnershipAgainstDax | resolve_table_context.py:111-131 | A measure renders as unsupported exactly when it has no owner, and a measure that renders as DAX has an owner with a non-empty table |
| TableContext.LeftOwnsBinary | resolve_table_context.py:94-129 | A binary measure whose right operand has no table is owned by its left table, although it renders as the missing-context sentinel |
| TableContext.ResolveTableContext | resolve_table_context.py:32-131 | The run fails exactly when an unnamed mapping field meets a raw measure; otherwise every measure is enriched against a lookup that resolves the mapping, `dax_measures` holds one rendering per measure, and the owners are exactly the single and binary measures, each owned by its (left) operand's table |
| Classify.LabelsDistinct | classify_tableau_calculations.py:20-31 | Distinct classes have distinct labels, so a label determines its class |
| Classify.AggregateFromExact | classify_tableau_calculations.py:28 | The scan from a position finds an aggregation word exactly when one starts there or later as a whole word |
| Classify.SearchIsWholeWord | classify_tableau_calculations.py:28 | The aggregation test holds exactly when `sum`, `avg`, `min`, `max` or `count` occurs as a whole word |
| Classify.CountdIsNotCount | classify_tableau_calculations.py:28 | `countd` does not contain the whole word `count` |
| Classify.ClassifyPrecedence | classify_tableau_calculations.py:16-31 | Each class in both directions: LOD words first, then table-calculation words, then `parameter`, then a whole aggregation word, each later class requiring every earlier test to fail |
| Classify.ClassifyIgnoresCase | classify_tableau_calculations.py:17 | Formulas that agree once lowercased get the same class |
| Classify.ClassifyLowered | classify_tableau_calculations.py:17 | Classifying the lowercased formula gives the same class |
| Classify.EmptyIsUnknown | classify_tableau_calculations.py:31-35 | The empty formula, which a missing one becomes, is `unknown` |
| Classify.RecordsOf | classify_tableau_calculations.py:34-43 | One record per calculation of a datasource, in order |
| Classify.ClassifyAll | classify_tableau_calculations.py:33-43 | The records are those of every datasource's calculations, in datasource-then-calculation order |
| Classify.ClassifiedFacts | classify_tableau_calculations.py:16-43 | There is one record per calculation, and every record's label and note are those of its formula's class |
| Rewrite.SubstituteKeepsUnmatched | rewrite_convertible_calculations.py:19-21 | Text before the first match comes through unchanged |
| Rewrite.NoMatchNoChange | rewrite_convertible_calculations.py:19-21 | A text in which the pattern matches nowhere is unchanged |
| Rewrite.SubstituteMatch | rewrite_convertible_calculations.py:19-21 | A match is replaced as a whole, and the scan resumes after its `(` |
| Rewrite.NoMatchInsideWord | rewrite_convertible_calculations.py:19-21 | A keyword glued to a preceding word character, as in `XAVG(`, is not matched |
| Rewrite.MatchIgnoresCase | rewrite_convertible_calculations.py:19-21 | A keyword in any case, with whitespace before its `(`, matches and the match ends after the `(` |
| Rewrite.YearStepIsIdentity | rewrite_convertible_calculations.py:24 | The `YEAR(` replacement changes nothing |
| Rewrite.PlainFormulaUnchanged | rewrite_convertible_calculations.py:14-27 | A formula with no keyword match and no `DATEDIFF('day'` comes back unchanged |
| Rewrite.Partition | rewrite_convertible_calculations.py:29-40 | The loop builds the converted dictionary and the skipped list of the specification |
| Rewrite.PartitionCounts | rewrite_convertible_calculations.py:34-40 | Skipped entries plus convertible records number the records; the converted names are exactly the convertible records' names; there are at most as many as there are convertible records |
| Rewrite.SkippedSources | rewrite_convertible_calculations.py:36-40 | Every skipped entry carries the name and note of a record that was not convertible |
| Rewrite.ConvertedSources | rewrite_convertible_calculations.py:34-35 | Every converted formula is the rewrite of the last convertible record of that name |
| TomExport.TypeFor | export_powerbi_tom.py:24-32 | The type is one of `int64`, `double`, `dateTime` and `string` |
| TomExport.TypePrecedence | export_powerbi_tom.py:24-32 | Each type in both directions: `int` first, then `double`/`float`/`numeric`, then `date`/`time`, otherwise `string`, each later type requiring every earlier test to fail |
| TomExport.TypeIgnoresCase | export_powerbi_tom.py:24 | Type names that agree once lowercased map to the same type |
| TomExport.AddColumnTypes | export_powerbi_tom.py:23-33 | One table's columns add exactly their (table, column) keys |
| TomExport.AddTypesValue | export_powerbi_tom.py:23-33 | An entry after one table's columns is the type of the last of them with its key, or the entry it had before when none has it |
| TomExport.TypeLookupValue | export_powerbi_tom.py:20-33 | Every entry of the lookup is the type of the last schema column with its key |
| TomExport.BuildTypeLookup | export_powerbi_tom.py:20-33 | The loop builds the type lookup of the specification |
| TomExport.TypeLookupFacts | export_powerbi_tom.py:20-33 | The lookup has an entry for exactly the (table, column) pairs of the schema; every entry is one of the four types, and is the type mapped from the `data_type` of the last schema column with that key |
| TomExport.TomTable.AddMeasure | export_powerbi_tom.py:88-92 | The measure is appended to the table's measures |
| TomExport.TableMap | export_powerbi_tom.py:67-70 | The map's keys are exactly the table names, and each maps to the table of that name |
| TomExport.ColumnsFor | export_powerbi_tom.py:54-59 | One column per semantic column, in order; its source column is its name; its type comes from the lookup, or is `string` when the lookup lacks it |
| TomExport.BuildColumns | export_powerbi_tom.py:54-59 | The loop builds the columns of the specification |
| TomExport.Target | export_powerbi_tom.py:77-79 | A measure has a target exactly when the ownership map gives it a non-empty table name |
| TomExport.TomModel.constructor | export_powerbi_tom.py:36-44 | The model starts named `Tableau_Migrated_Model`, at compatibility level 1567, with no tables, relationships or annotations |
| TomExport.TomModel.AddTables | export_powerbi_tom.py:47-61 | One fresh table per semantic table, in order, with its columns and no measures; the names are distinct |
| TomExport.TomModel.PlaceMeasures | export_powerbi_tom.py:67-92 | Each table gains exactly the measures placed on it, in order; the annotations gain exactly the unplaced-measure notes, in order; nothing else changes |
| TomExport.TomModel.PlaceAll | export_powerbi_tom.py:75-92 | The loop over the measures places and annotates as the specification says |
| TomExport.TomModel.PlaceOne | export_powerbi_tom.py:77-92 | One measure is appended to the table its target names when that table exists, and otherwise yields one `UnplacedMeasure::<name>` note |
| TomExport.TomModel.AddRelationships | export_powerbi_tom.py:97-105 | Relationships are copied one to one and in order, after those already present |
| TomExport.TomModel.AddMigrationNote | export_powerbi_tom.py:110-113 | The migration note becomes the last annotation |
| TomExport.PlacementMember | export_powerbi_tom.py:77-92 | A measure lands on a table exactly when its target is non-empty and names that exported table |
| TomExport.PlacedAreGeneral | export_powerbi_tom.py:91 | Every placed measure has the format string `General` |
| TomExport.OccursOnce | export_powerbi_tom.py:67-70 | With distinct table names, a name occurs at most once among the tables |
| TomExport.PlacementCounts | export_powerbi_tom.py:75-92 | Measures placed over all tables plus unplaced notes equal the number of measures |
| TomExport.NothingPlaced | export_powerbi_tom.py:75-92 | With no measures, no table receives any |
| TomExport.ExportTom | export_powerbi_tom.py:20-113 | The model is `Tableau_Migrated_Model` at compatibility level 1567; the tables are the semantic tables with their columns and placed measures; the annotations are the unplaced notes followed by the migration note; the relationships are the copies, in order |
| TableauParsing.ParseDatasources | parsing_tableau.py:62-91 | One detail record per datasource, in order, with its fields and calculations |
| TableauParsing.PartitionOfColumns | parsing_tableau.py:68-85 | Every column goes to the calculations exactly when it has a calculation child, otherwise to the fields; fields plus calculations equal the columns |
| TableauParsing.Defaults | parsing_tableau.py:63-75 | A datasource without a name is `Unnamed Datasource`, and a calculation without a formula has the empty formula |
| TableauParsing.AddAllConcat | parsing_tableau.py:248-266 | Feeding the matches in two parts is the same as feeding them at once |
| TableauParsing.MapLogicalToPhysical | parsing_tableau.py:244-267 | The four nested loops with the `seen` set build the mappings of the specification |
| TableauParsing.ColumnMatchesMember | parsing_tableau.py:255-257 | A match for one table is a non-empty column equal to the field ignoring case, carrying that table and its schema |
| TableauParsing.CandidatesMember | parsing_tableau.py:248-257 | The candidate matches are exactly the named fields of some datasource paired with a column of some table that equals them ignoring case |
| TableauParsing.AddAllFacts | parsing_tableau.py:258-266 | Adding matches keeps the keys distinct, keeps only matches it was given, and covers the key of every match |
| TableauParsing.MappingFacts | parsing_tableau.py:245-267 | No two mappings share a (field, column, table) key; every mapping is a candidate; every candidate's key is present |
| TableauParsing.MappingsMatchIgnoringCase | parsing_tableau.py:251-265 | A mapping's field and column are non-empty and equal ignoring case, and its table and schema are those of a table holding that column |
| TwbRelationships.BracketedAt | extract_relationships_from_twb.py:48 | A bracketed group is non-empty and free of `]`, and the match ends just after its closing bracket |
| TwbRelationships.JoinAt | extract_relationships_from_twb.py:47-49 | All four captured groups are non-empty and free of `]` |
| TwbRelationships.SearchFindsFirst | extract_relationships_from_twb.py:62 | A successful search returns the match at some position before which the pattern matches nowhere |
| TwbRelationships.SearchMissesNone | extract_relationships_from_twb.py:62 | A failed search means the pattern matches at no position |
| TwbRelationships.SearchIsLeftmost | extract_relationships_from_twb.py:62 | The search succeeds exactly when the pattern matches somewhere, and then returns the leftmost match |
| TwbRelationships.QualifiedReads | extract_relationships_from_twb.py:48 | `[a].[b]` written in a text is read back as `a` and `b` |
| TwbRelationships.JoinReads | extract_relationships_from_twb.py:48 | Two qualified columns around `\s*=\s*` match as the four groups, in order |
| TwbRelationships.ParseRender | extract_relationships_from_twb.py:47-66 | Writing a join clause `[T].[C] = [T].[C]` and searching it, whatever text follows, gives back the same four names (a round trip) |
| TwbRelationships.JoinOf | extract_relationships_from_twb.py:52-76 | A relation yields a join exactly when it has a non-empty clause expression in which the pattern matches; the groups become from/to table and column in order, the join type defaults to `inner` and the expression is kept |
| TwbRelationships.ExtractPhysicalJoins | extract_relationships_from_twb.py:44-78 | The loop builds the joins of the specification |
| TwbRelationships.PhysicalJoinsFacts | extract_relationships_from_twb.py:51-76 | There are at most as many joins as relations, and the joins are exactly those some relation yields |
| TwbRelationships.EntriesOf | extract_relationships_from_twb.py:85-106 | A relationship yields one entry per column child, carrying its from/to pair and the relationship's tables, or exactly one raw entry, with the fixed note and `engine-resolved` confidence, when it has none |
| TwbRelationships.ExtractLogicalRelationships | extract_relationships_from_twb.py:81-108 | The loop builds the entries of the specification |
| TwbRelationships.LogicalEntriesFacts | extract_relationships_from_twb.py:84-106 | The entries number one per column pair plus one per relationship without columns, at least one per relationship, and none is a physical join |
| TwbRelationships.ExtractRelationships | extract_relationships_from_twb.py:114-125 | Logical relationships when the workbook has any, otherwise the physical joins |
| TwbRelationships.LogicalFirst | extract_relationships_from_twb.py:116-125 | With any logical relationship, no physical join appears in the output |

## Left out

- File, zip, extract and XML I/O, `print` and `json.dump` are not modelled.
  - The workbook and extract come in as records and sequences.
  - Locating the workbook file is out of scope.
  - The XML `findall` queries become the lists of elements they would
    return.
  - Whether the workbook has logical relationships is modelled as the list
    of logical elements being non-empty.
- pandas is not modelled.
  - A column is a sequence of optional values, with `None` standing for
    NaN.
  - A dtype is an opaque string.
  - `nunique(dropna=True)`, `isna().sum()` and `unique()` become set and
    count functions.
  - Values are compared by equality. pandas' own notion of equal floats is
    not modelled.
- HyperInference.Coverage: the floating-point division is not modelled. The
  coverage is the exact pair (intersection, denominator), and `coverage >
  0.95` is `20 * inter > 19 * denom`. The double rounding near the
  threshold is left out.
- HyperInference.Thousandths: `round(coverage, 3)` is the exact nearest
  thousandth, with halves rounded up. Python rounds the binary double,
  which can land on the other side of a half.
- HyperInference.ToRelationship: the `fk_coverage` evidence float is
  carried as the rational pair, not as a decimal.
- TableContext.Choose: the script picks by Python's set iteration order.
  Only membership among the candidates and the fact-table preference are
  stated.
- TableContext.Enrich: the script mutates the expression dictionaries in
  place. The model rebuilds the nodes as values. This is observable only
  through aliasing, which the script does not use.
- TableContext.Enrich: the expression tree is a datatype with four kinds of
  node. Every key a node's kind reads is assumed present, and its `field`,
  `op` and `agg` are strings; only `table` may be absent. The model
  therefore does not capture a node without `field`: the `KeyError` that
  `ast['field']` raises in the DAX rendering, the text `T[None]` of a JSON
  `null` field, or the lookup of a `None` field during enrichment.
- TableContext.Enrich: the semantic model's types come in as a map from
  table to type. A table without a type entry is not a fact table.
- Strings.Lower, Strings.IsWordChar: case folding and `\w` cover ASCII
  only. Python's full Unicode case mapping and word characters are left
  out. Whitespace follows `str.isspace`.
- Classify, Rewrite: only the specific regular expressions are modelled,
  not a general regular-expression engine.
- Rewrite: the `re.IGNORECASE` comparison of the keyword uses the same
  ASCII lowercasing.
- TomExport.ExportTom: the semantic model must have distinct table names.
  This is always true of the dictionary the script iterates.
- `build_canonical_powerbi_model.py`, `finalize_powerbi_semantic_model.py`
  and `export_tabular_editor_model.py` are not part of this model. They
  only copy JSON fields between containers around file reads and writes.
- `parsing_tableau.py` outside lines 62-91 and 244-267 is not part of this
  model. That includes the extraction, the worksheet and dashboard
  listing, and the extract export.

# Data-quality ETL pipeline, modelled in Dafny

This project models the validate-then-transform pipeline of `src/etl_pipeline.py`,
a small batch ETL job. The job loads a CSV of conference speakers into an in-memory
DuckDB table. It then checks the table with three gates: required columns present,
no NULLs in them, and `is_botafoguense` equal to 0 or 1. Only a table that passes
is rewritten: rows are sorted by `name`, `id` is renumbered with `ROW_NUMBER()`,
and one `last_update_date` is stamped on every row before export.

The SQL is modelled over an abstract in-memory table:

- `sql.dfy` (module `Sql`) holds the engine fragment the queries rely on. Cell values
  are NULL, integers or text. WHERE clauses use three-valued logic (TRUE / FALSE /
  UNKNOWN). `Le` is the ascending ORDER BY order: integers, then text by code point,
  then NULL last. A table is a column set plus a sequence of rows. In the engine every
  row carries every column; the model does not require this, and `Cell` reads a column
  a row does not carry as NULL.
- `sorting.dfy` (module `Sorting`) covers ordering by a key: what sorted means, an
  insertion sort, and the fact that sorted permutations are equal when keys are distinct.
- `validation.dfy` (module `Validation`) holds `validate_data`. Each gate is the SQL
  predicate it evaluates, counted the way `COUNT(*) ... WHERE` counts. Each verdict of
  `Validate` is proved to hold exactly under its own directly stated condition: a missing
  column, a required NULL (`HasNull`), a non-0/1 integer flag, or a text flag. The
  verdict is `Valid`, and `ValidateData` returns true, exactly when the table conforms
  (`Conforms`).
- `transform.dfy` (module `Transform`) holds the `output_data` query. It has three parts:
  - the deterministic transform the rest of the model uses (`TransformRows`);
  - the set of outputs the query admits for any tie order the engine may pick
    (`AdmittedAsWritten`);
  - the theorems relating the two.
- `pipeline.dfy` (module `Pipeline`) holds `process_file`: load, validate, then transform
  and export only on success.
- `scenarios.dfy` (module `Scenarios`) holds concrete runs: two speakers sorted by name, a
  flag of 2, and a missing `country` column.

Nothing is executed. Loading, the clock and the export are parameters, not operations.

Two features of the code shape the model:

- `ROW_NUMBER() OVER (ORDER BY name)` numbers the rows, and a separate outer
  `ORDER BY name` lists them. SQL fixes no order among equal names in either sort,
  and it does not require the two sorts to agree. The model therefore states what the
  query guarantees for every tie order (`Transform.AsWrittenGuarantees`). Its own
  `TransformRows` picks one fixed tie order for both sorts, and
  `Transform.TransformRowsAdmitted` proves that this output is one the query admits.
- `is_botafoguense NOT IN (0, 1)` is UNKNOWN for a NULL flag, so that query alone
  does not count such a row. The table is still rejected, only because the null gate
  runs first (`Validation.NullFlagCaughtOnlyByNullGate`).

## Model

| member | source | states |
|---|---|---|
| Sql.Or3 | src/etl_pipeline.py:21-24 | SQL OR is TRUE exactly when a side is TRUE, FALSE exactly when both sides are FALSE, and UNKNOWN otherwise |
| Sql.IsNull3 | src/etl_pipeline.py:21-24 | `IS NULL` is never UNKNOWN, and is TRUE exactly for a NULL value |
| Sql.Not3 | src/etl_pipeline.py:35 | SQL NOT keeps UNKNOWN and swaps TRUE and FALSE |
| Sql.EqInt3 | src/etl_pipeline.py:35 | comparing a value with an integer literal is UNKNOWN for NULL, TRUE only for that integer, and a conversion error for text |
| Sql.LeTotal | src/etl_pipeline.py:66 | any two `name` values are ordered one way or the other by ORDER BY |
| Sql.LeAntisymmetric | src/etl_pipeline.py:66 | two values that each sort no later than the other are equal, so ORDER BY ties are exactly equal names |
| Sql.LeTransitive | src/etl_pipeline.py:66 | the ORDER BY order is transitive |
| Sorting.InsertionSort | src/etl_pipeline.py:72 | the result is ascending by the key and is a permutation of the input |
| Sorting.SortedPermutationUnique | src/etl_pipeline.py:66 | two sorted permutations of each other are equal when no two elements share a key |
| Sorting.PermutationKeepsDistinctKeys | src/etl_pipeline.py:66 | reordering rows cannot make two names equal |
| Sorting.MapPreservesPermutation | src/etl_pipeline.py:67-69 | projecting columns out of two permutations of each other gives permutations of each other |
| Validation.NullPredicate | src/etl_pipeline.py:21-24 | the null-check condition never errors and is TRUE exactly when some required column of the row is NULL |
| Validation.FlagPredicate | src/etl_pipeline.py:35 | `NOT IN (0, 1)` errors exactly on a text flag, is UNKNOWN exactly on a NULL flag, and is TRUE exactly on an integer flag other than 0 and 1 |
| Validation.CountWhere | src/etl_pipeline.py:18-25 | the count succeeds exactly when the condition evaluates without error on every row; it is positive exactly when some row makes the condition TRUE; it never exceeds the row count |
| Validation.Validate | src/etl_pipeline.py:5-45 | schema failure exactly when a required column is missing; null failure exactly when the columns are present and some row has a required NULL; flag failure exactly when there are no NULLs, every flag is an integer and some flag is not 0 or 1; engine failure exactly when there are no NULLs and some flag is text; valid exactly when the table conforms |
| Validation.ValidateData | src/etl_pipeline.py:5-45 | `validate_data` returns true exactly when the table has the required columns and every row is complete with a 0/1 flag |
| Validation.NullFlagCaughtOnlyByNullGate | src/etl_pipeline.py:18-40 | on a table whose only defect is NULL flags, the domain query counts zero rows, and the validator still rejects the table at the null gate |
| Transform.TransformRows | src/etl_pipeline.py:63-73 | the output has one row per input row, ids 1..N in row order, rows ascending by name, carried-over (name, country, flag) triples that are a permutation of the input's, and the given timestamp on every row |
| Transform.TransformRowsAdmitted | src/etl_pipeline.py:63-73 | the model's transform is an output the query admits, both as written and with the outer ORDER BY on id |
| Transform.AsWrittenGuarantees | src/etl_pipeline.py:63-73 | for every tie order the engine may pick, the output keeps the row count and the timestamp, is ascending by name, carries a permutation of the input triples, and uses each id 1..N exactly once |
| Transform.DistinctNamesListInNumberedOrder | src/etl_pipeline.py:66-72 | when no two rows share a name, the outer ORDER BY name lists the rows exactly in the order ROW_NUMBER() numbered them |
| Transform.DistinctNamesGiveDenseIds | src/etl_pipeline.py:66-72 | when no two rows share a name, every output the query admits has ids 1..N in row order, ascending by name, and meets the full transform promise |
| Transform.DistinctNamesDetermineOutput | src/etl_pipeline.py:66-72 | when no two rows share a name, any two outputs the query admits are equal, so the only one is the model's |
| Transform.TiedNamesScrambleIds | src/etl_pipeline.py:66-72 | a valid table with two rows named "Ana" admits an output that lists id 2 before id 1 |
| Transform.OrderedByIdGuarantees | src/etl_pipeline.py:63-73 | with the outer ORDER BY on id, every admitted output has ids 1..N in row order and meets the full transform promise |
| Pipeline.RunFile | src/etl_pipeline.py:47-87 | a load error ends in a load failure; a non-conforming table is rejected with the validator's verdict and is never transformed; the run ends in an export failure exactly when the table conforms but export fails, and exports exactly when the load succeeds, the table conforms and export succeeds; what is exported is an output the query as written admits and meets the transform promise |
| Pipeline.ProcessFile | src/etl_pipeline.py:47-87 | `process_file` returns true exactly when loading succeeds, the table passes validation and export succeeds |
| Scenarios.CarlosAndAna | src/etl_pipeline.py:63-80 | speakers Carlos (id 1) and Ana (id 2) are exported as Ana with id 1 then Carlos with id 2, both with the same timestamp |
| Scenarios.FlagTwoRejected | src/etl_pipeline.py:32-40 | a row with flag 2 fails the domain gate, and the file is rejected with nothing exported |
| Scenarios.MissingCountryRejected | src/etl_pipeline.py:11-15 | a table without a `country` column fails the schema gate |

## Left out

- The DuckDB connection lifecycle (src/etl_pipeline.py:49-52, 85-87) is not modelled. Closing the connection is resource handling with no effect on the result.
- `read_csv_auto` parsing and type inference (src/etl_pipeline.py:54-57) are not modelled. The loaded table, or a load error, is a parameter of `RunFile`. Type inference is per column; the model types each cell on its own. A text flag is modelled as a conversion error. DuckDB would cast text that spells an integer, but inference only yields a text column when some value does not spell one, so the query errors either way.
- Validation: engine errors other than that conversion error (for example a failing `information_schema` query or running out of memory) are not modelled. Any of them would also end in `false`.
- The `information_schema` query (src/etl_pipeline.py:9-10) is not modelled as a query. The model reads the column set directly.
- `datetime.now().strftime(...)` (src/etl_pipeline.py:70) is not modelled. The timestamp is an opaque string parameter, and its format is not checked.
- Creating `output_data` and `COPY ... TO` (src/etl_pipeline.py:63-77) can fail. The model folds both failures into the boolean `exportSucceeds`. CSV serialisation and any partial output file are not modelled.
- The printed diagnostics (src/etl_pipeline.py:14, 28, 39, 44, 60, 79, 83) are represented by the `Verdict` and `Outcome` constructors, not as text.
- The `__main__` driver (src/etl_pipeline.py:89-110) is not modelled: directory creation, the static file list and the per-file messages.
- Collation: `name` is ordered by code point. Mixed integer and text values, which a single typed column never holds, are given an arbitrary fixed order.
- Pipeline.RunFile: among rows with equal names, the order of the exported rows and their ids is the model's fixed choice (that of `InsertionSort`). The query as written fixes no such order, so `RunFile` also proves the exported rows are an output the query admits.
- Flag values of type DOUBLE or BOOLEAN are not modelled. `read_csv_auto` can infer such a column (values like `1.0` or `true`), and the query compares them with 0 and 1 numerically (src/etl_pipeline.py:35). `Value` has only NULL, integer and text.
- The model has no mutable state, so "validation does not modify the table" holds by construction rather than being stated as a contract.

## Findings

| source | as written | input that shows it | evidently intended | confidence | as-written member | corrected member |
|---|---|---|---|---|---|---|
| src/etl_pipeline.py:66-72 | ids come from `ROW_NUMBER() OVER (ORDER BY name)`, and the rows are listed by a separate `ORDER BY name`; the two sorts need not break ties the same way | two valid rows both named "Ana" | output ids are 1..N in the order the rows are written | low: not executed, and it depends on the engine's tie order | Transform.TiedNamesScrambleIds | Transform.OrderedByIdGuarantees |

The corrected behaviour lists rows in the order they were numbered, as an outer `ORDER BY id` would. `Transform.TransformRows`, which `Pipeline.RunFile` uses, is an output of both the query as written and the corrected query (`Transform.TransformRowsAdmitted`). It is one of the outputs the code may produce, and the only one when no two rows share a name (`Transform.DistinctNamesDetermineOutput`).

# UPDATE image capture and undo-log preparation

A Dafny model of Seata's `UpdateExecutor`, the AT-mode executor for UPDATE statements. It
captures the rows an UPDATE touches before and after the statement runs, so that a
compensating undo record can be written. Three steps are modelled:

- `beforeImage` splits the recognizer's table-name text into a union (FROM) table and item
  tables. For each item table it builds a locking `SELECT … FOR UPDATE` and stores the
  resulting rows in an insertion-ordered before map.
- `afterImage` builds, for each item table, a non-locking `SELECT` keyed by the before
  image's primary keys. It stores the rows in the after map. When the executor has no before
  image of its own for a table, it uses the one the caller passes in.
- `prepareUndoLog` walks the before map in insertion order and checks each table's before
  and after row counts. It forwards each (before, after) pair to the base preparer and stops
  at the first mismatch.

Module layout:

| file | module | contents |
|---|---|---|
| options.dfy | `Options` | `Option`, `Result` |
| text.dfy | `Text` | `Character.isWhitespace`, `isBlank`, prefix/suffix, joining |
| joiner.dfy | `Joiners` | `java.util.StringJoiner` |
| seqs.dfy | `Seqs` | distinctness, subsequences, filtering (`List.removeAll`) |
| linked_map.dfy | `LinkedMaps` | `LinkedHashMap<String, V>` as keys in insertion order plus a map |
| records.dfy | `Records` | `TableMeta`, `TableRecords`, the recognizer's facts, the collaborators |
| select_sql.dfy | `SelectSql` | the image queries as a `Select` value and its rendering |
| update_sql.dfy | `UpdateSql` | table splitting, column filtering, column policy, query assembly |
| image_loops.dfy | `ImageLoops` | the two per-item-table loops, generic in the image type |
| update_executor.dfy | `UpdateExecutor` | the executor state and `beforeImage`, `afterImage`, `prepareUndoLog` |
| update_executor_props.dfy | `UpdateExecutorProps` | properties of the steps taken together |
| scenario.dfy | `AccountsScenario` | a worked single-table statement |

Modelling choices:

- **Table names.** The recognizer carries the table-name text and, separately, the
  entries `split` gives for it. Java's `split` drops trailing empty strings, so a name
  made only of separators gives no entries. Line 85 then reads `tableItems[0]` out of
  bounds; the model raises `NoTableItems` there. Line 156 does the same in `afterImage`.
- **Collaborators.** Every collaborator whose body is not part of this model is a
  function-valued field of `Collaborators`. These are:
  - `getTableMeta`, `containsPK`, `getColumnNamesInSQL`, `getEscapePkNameList`;
  - `ColumnUtils.addEscape`, `buildWhereConditionByPKs`;
  - the two query runs.
- **Conditions.** `buildWhereCondition`, `buildOrderCondition` and `buildLimitCondition`
  (lines 101-103) are functions from the parameter list to their text and the list as
  they leave it. Each may append to the list. The list they leave is the one the query
  is run with, and the one the next item table's round starts from.
- **`ONLY_CARE_UPDATE_COLUMNS`.** It is a boolean field, not read from configuration.
- **Exceptions.** A `NullPointerException` or out-of-bounds error the Java would throw
  becomes an error value. The image step's executor is kept as it stands at that point.
- **SQL text.** Each image query is described twice:
  - as a structured `Select`, whose contract states the query's shape;
  - as the `StringBuilder`/`StringJoiner` steps of the Java (`BuildBeforeImageSql`,
    `BuildAfterImageSql`), proved to produce exactly the rendering of that `Select`.

Behaviour of the code that the model keeps:

- **Returned image of a join UPDATE.** `beforeImage` returns `beforeImagesMap.get(unionTable)`
  (line 91), and `afterImage` returns `afterImagesMap.get(unionTable)` (line 171). In a
  join UPDATE the union table is entry 0 of the split, the FROM text, and the loops start
  at entry 1 (lines 84 and 155). So both return `null` for a join whose FROM text is not
  an item table (`UpdateExecutorProps.JoinBeforeImageIsNull`).
- **Missing before image.** When neither the map (line 159) nor the caller supplies a before
  image, line 193 calls `pkRows()` on `null`. The model raises `NullBeforeImage(table)`
  and keeps the after images put for the earlier tables (line 166).
- **Missing after image.** Line 183 calls `getRows()` on the `null` that
  `afterImagesMap.get` returns for a table with no after image. The model raises
  `NullAfterImage(table)`.
- **Condition parameters.** `paramAppenderList` is created once, at line 75, and is never
  cleared between item tables. The `i`-th item table (counting from 0) therefore builds
  its conditions from the list as `i` earlier rounds of the builders left it, and its
  query is run with the list after round `i + 1` (`UpdateExecutorProps.BeforeImageValues`).

## Model

| member | source | states |
|---|---|---|
| UpdateSql.SplitTables | rm-datasource/src/main/java/io/seata/rm/datasource/exec/UpdateExecutor.java:81-85 | no tables exactly when the split gives no entries; the union table is entry 0; a single entry is both union and only item table; otherwise the item tables are entries 1.. in order |
| UpdateSql.GetItemUpdateColumns | rm-datasource/src/main/java/io/seata/rm/datasource/exec/UpdateExecutor.java:136-144 | the loop returns exactly the filtered list: a column is in the result iff it is an updated column declared by the item table |
| UpdateSql.ItemUpdateColumnsOrder | rm-datasource/src/main/java/io/seata/rm/datasource/exec/UpdateExecutor.java:136-144 | the item update columns are an order-preserving subsequence of the SET columns; each kept column occurs as often as in the SET list; distinct SET columns give distinct item update columns |
| UpdateSql.SelectColumnsAllDeclared | rm-datasource/src/main/java/io/seata/rm/datasource/exec/UpdateExecutor.java:128-132 | with the only-care switch off, the select list is every declared column escaped, one for one, in declaration order |
| UpdateSql.SelectColumnsOnlyCare | rm-datasource/src/main/java/io/seata/rm/datasource/exec/UpdateExecutor.java:115-121 | with the switch on, the key-column text is first when the key is not among the updated columns, and the updated columns follow contiguously in statement order |
| UpdateSql.EscapedOnUpdateColumns | rm-datasource/src/main/java/io/seata/rm/datasource/exec/UpdateExecutor.java:123-127 | after `removeAll`, the escaped on-update columns are exactly the escaped on-update columns that are not updated |
| UpdateSql.SelectColumnsOnUpdateTail | rm-datasource/src/main/java/io/seata/rm/datasource/exec/UpdateExecutor.java:122-127 | everything after the updated columns is an escaped on-update column that is not updated, and every such column appears there |
| UpdateSql.AddSelectColumns | rm-datasource/src/main/java/io/seata/rm/datasource/exec/UpdateExecutor.java:115-132 | the joiner's adds, branch by branch, add exactly the select list, in order |
| UpdateSql.BuildBeforeImageSql | rm-datasource/src/main/java/io/seata/rm/datasource/exec/UpdateExecutor.java:94-134 | the WHERE, ORDER BY and LIMIT builders run in that order, each on the list the previous one left, and the list they leave is returned; the text is `SELECT <columns> FROM <union table>`, then a WHERE, ORDER BY or LIMIT clause exactly when that condition is non-blank, carrying its text, and it ends with ` FOR UPDATE` |
| UpdateSql.BuildAfterImageSql | rm-datasource/src/main/java/io/seata/rm/datasource/exec/UpdateExecutor.java:190-219 | the text is the after query: the same select list and FROM text as the before query, no ORDER BY, LIMIT or lock, and it ends with ` WHERE ` and the key condition sized by the before image's row count |
| SelectSql.RenderShape | rm-datasource/src/main/java/io/seata/rm/datasource/exec/UpdateExecutor.java:99-113 | every rendered query starts with its head; a locking one ends with ` FOR UPDATE`; an unlocked one with only a WHERE ends with that clause |
| Joiners.AddAllToString | rm-datasource/src/main/java/io/seata/rm/datasource/exec/UpdateExecutor.java:114-133 | a joiner given the elements one by one prints prefix, elements joined by the delimiter, suffix, also when nothing was added |
| LinkedMaps.LinkedMap.Put | rm-datasource/src/main/java/io/seata/rm/datasource/exec/UpdateExecutor.java:89 | `put` stores the value under the key and leaves every other key's value; an existing key keeps its place; a new key goes to the end of the insertion order |
| ImageLoops.CaptureBefore | rm-datasource/src/main/java/io/seata/rm/datasource/exec/UpdateExecutor.java:86-90 | the before loop keeps the map well-formed: every key listed once, and only keys listed |
| ImageLoops.CaptureBeforeEntries | rm-datasource/src/main/java/io/seata/rm/datasource/exec/UpdateExecutor.java:86-90 | the before loop gives every item table an entry and leaves every other table's entry as it was |
| ImageLoops.CaptureBeforePrefix | rm-datasource/src/main/java/io/seata/rm/datasource/exec/UpdateExecutor.java:86-90 | the before loop keeps the existing keys in place at the front of the insertion order |
| ImageLoops.CaptureBeforeOrder | rm-datasource/src/main/java/io/seata/rm/datasource/exec/UpdateExecutor.java:86-90 | for distinct item tables not yet in the map, the loop appends exactly them, left to right |
| ImageLoops.CaptureBeforeValues | rm-datasource/src/main/java/io/seata/rm/datasource/exec/UpdateExecutor.java:75-90 | for distinct item tables, the `i`-th table's entry is its image computed from the parameter list as `i` earlier rounds left it |
| ImageLoops.FirstMissing | rm-datasource/src/main/java/io/seata/rm/datasource/exec/UpdateExecutor.java:157-160 | the after loop's stop index: every table before it has a stored or supplied before image, and the table at it has neither |
| ImageLoops.FirstMissingAll | rm-datasource/src/main/java/io/seata/rm/datasource/exec/UpdateExecutor.java:157-160 | the after loop gets through all tables iff every table has a stored or supplied before image |
| ImageLoops.CaptureAfter | rm-datasource/src/main/java/io/seata/rm/datasource/exec/UpdateExecutor.java:157-170 | the after loop keeps the after map well-formed, also when it stops early |
| ImageLoops.CaptureAfterOutcome | rm-datasource/src/main/java/io/seata/rm/datasource/exec/UpdateExecutor.java:157-160 | the after loop stops early iff some item table has neither a stored nor a supplied before image, and then names the first such table |
| ImageLoops.CaptureAfterEntries | rm-datasource/src/main/java/io/seata/rm/datasource/exec/UpdateExecutor.java:157-166 | the after loop gives an entry to every table before the one it stops at and leaves every other entry alone |
| ImageLoops.CaptureAfterPrefix | rm-datasource/src/main/java/io/seata/rm/datasource/exec/UpdateExecutor.java:157-166 | the after loop, finished or stopped, keeps the existing keys in place at the front of the insertion order |
| ImageLoops.CaptureAfterOrder | rm-datasource/src/main/java/io/seata/rm/datasource/exec/UpdateExecutor.java:157-166 | for distinct item tables not yet in the map, the after loop appends exactly the tables before its stop, left to right |
| ImageLoops.CaptureAfterValueAt | rm-datasource/src/main/java/io/seata/rm/datasource/exec/UpdateExecutor.java:157-166 | for distinct item tables, the `i`-th table, if before the stop, has the key query's rows keyed by its stored before image, or else the supplied one |
| ImageLoops.CaptureAfterValues | rm-datasource/src/main/java/io/seata/rm/datasource/exec/UpdateExecutor.java:157-166 | the same for every table before the stop |
| UpdateExecutor.NewExecutor | rm-datasource/src/main/java/io/seata/rm/datasource/exec/UpdateExecutor.java:58-59 | a new executor has two valid, empty image maps |
| UpdateExecutor.BeforeImage | rm-datasource/src/main/java/io/seata/rm/datasource/exec/UpdateExecutor.java:74-92 | an empty name changes nothing and returns `null`; a name that splits into no entries raises the out-of-bounds error of line 85; otherwise every item table gets a before entry, others keep theirs, the after map is untouched, and the result is the entry of the union table |
| UpdateExecutor.CaptureAfterImages | rm-datasource/src/main/java/io/seata/rm/datasource/exec/UpdateExecutor.java:155-171 | the after step succeeds iff every item table has a stored or supplied before image; the tables before the first one without get after entries, which stay in the map when the step fails; every other entry is kept; on success the result is the union table's entry; on failure the error names that first table |
| UpdateExecutor.AfterImage | rm-datasource/src/main/java/io/seata/rm/datasource/exec/UpdateExecutor.java:148-172 | an empty name changes nothing and returns `null`; a name that splits into no entries raises the out-of-bounds error of line 156; otherwise it is the loop over the item tables, and the before map is never changed |
| UpdateExecutor.PrepareFrom | rm-datasource/src/main/java/io/seata/rm/datasource/exec/UpdateExecutor.java:179-187 | the loop forwards the pairs of a consistent prefix in order and stops at the first table lacking an after image or differing in row count, with the matching error |
| UpdateExecutor.PrepareUndoLog | rm-datasource/src/main/java/io/seata/rm/datasource/exec/UpdateExecutor.java:175-188 | no error iff every before-map table has an after image with as many rows; then one pair per table in insertion order; otherwise the first offending table and its error |
| UpdateExecutorProps.BeforeImageOrder | rm-datasource/src/main/java/io/seata/rm/datasource/exec/UpdateExecutor.java:86-90 | the before map's existing order is kept, and distinct new item tables are appended left to right |
| UpdateExecutorProps.BeforeImageValues | rm-datasource/src/main/java/io/seata/rm/datasource/exec/UpdateExecutor.java:75-90 | for distinct item tables, the `i`-th table's before image is built from the condition texts of round `i + 1`, computed on the list `i` earlier rounds left, and is read with the list that round leaves |
| UpdateExecutorProps.SingleTableBeforeImage | rm-datasource/src/main/java/io/seata/rm/datasource/exec/UpdateExecutor.java:84-91 | a single-table UPDATE returns that table's before image, built from one round of the condition builders on an empty list |
| UpdateExecutorProps.JoinBeforeImageIsNull | rm-datasource/src/main/java/io/seata/rm/datasource/exec/UpdateExecutor.java:85-91 | a join UPDATE whose FROM text is not an item table returns `null` although every item table was captured |
| UpdateExecutorProps.AfterImageOrder | rm-datasource/src/main/java/io/seata/rm/datasource/exec/UpdateExecutor.java:157-166 | the after step keeps the after map's order and appends distinct new item tables left to right, up to the first one without a before image |
| UpdateExecutorProps.AfterImageValues | rm-datasource/src/main/java/io/seata/rm/datasource/exec/UpdateExecutor.java:157-166 | for distinct item tables, each table before the stop has the key query keyed by the executor's own before image, or else the supplied one |
| UpdateExecutorProps.EmptyTableNameNoUndo | rm-datasource/src/main/java/io/seata/rm/datasource/exec/UpdateExecutor.java:77-80 | with an empty table name both steps return `null` and change nothing, and preparing forwards nothing and raises nothing |
| UpdateExecutorProps.FreshBeforeImage | rm-datasource/src/main/java/io/seata/rm/datasource/exec/UpdateExecutor.java:74-92 | on a new executor the before step lists the distinct item tables in order, each with its before image, and leaves the after map empty |
| UpdateExecutorProps.AfterImageOnCaptured | rm-datasource/src/main/java/io/seata/rm/datasource/exec/UpdateExecutor.java:148-172 | when every item table has a stored before image, the after step succeeds whatever the caller supplies, lists the tables in order and keys each query by the stored image |
| UpdateExecutorProps.CaptureBothImages | rm-datasource/src/main/java/io/seata/rm/datasource/exec/UpdateExecutor.java:74-172 | on a new executor both steps succeed; both maps list the item tables in order; each after image is keyed by that table's own before image |
| UpdateExecutorProps.PrepareUndoLogPairs | rm-datasource/src/main/java/io/seata/rm/datasource/exec/UpdateExecutor.java:179-187 | for maps holding known pairs in known order: success iff all row counts agree, then exactly those pairs in order, otherwise the size-mismatch exception |
| UpdateExecutorProps.PrepareCaptured | rm-datasource/src/main/java/io/seata/rm/datasource/exec/UpdateExecutor.java:175-188 | `prepareUndoLog` on a before map listing known pairs in order forwards exactly those pairs or raises the size-mismatch exception |
| UpdateExecutorProps.PrepareAfterCapture | rm-datasource/src/main/java/io/seata/rm/datasource/exec/UpdateExecutor.java:74-188 | after both steps, preparing succeeds iff each key query returns as many rows as its before image, forwarding one pair per item table in order; otherwise it raises the size-mismatch exception |
| UpdateExecutorProps.PrepareSucceedsWhenKeysKept | rm-datasource/src/main/java/io/seata/rm/datasource/exec/UpdateExecutor.java:183-186 | if key queries preserve the row count, the whole statement prepares without error, one pair per item table |
| AccountsScenario.AccountsColumns | rm-datasource/src/main/java/io/seata/rm/datasource/exec/UpdateExecutor.java:128-132 | with the switch off, `accounts` is read as `SELECT id, name, balance FROM accounts` |
| AccountsScenario.AccountsRound | rm-datasource/src/main/java/io/seata/rm/datasource/exec/UpdateExecutor.java:101-103 | in the example one round of the builders gives the condition `id = 1`, blank ORDER BY and LIMIT, and adds no parameters |
| AccountsScenario.AccountsBeforeQuery | rm-datasource/src/main/java/io/seata/rm/datasource/exec/UpdateExecutor.java:94-134 | the example's before query is `SELECT id, name, balance FROM accounts WHERE id = 1 FOR UPDATE` |
| AccountsScenario.AccountsAfterQuery | rm-datasource/src/main/java/io/seata/rm/datasource/exec/UpdateExecutor.java:190-219 | the example's after query is `SELECT id, name, balance FROM accounts WHERE id = ?` |

## Left out

- JDBC execution is left out: `prepareStatement`, `executeQuery`, `ResultSet`,
  `SqlGenerateUtils.setParamForPk`, `TableRecords.buildRecords`, `buildTableRecords` and
  `IOUtil.close`. The two query runs are uninterpreted functions from SQL text and
  parameters (or key rows) to rows.
- `SQLException`s from the driver are left out; the model has no failing query.
- Configuration loading of `ONLY_CARE_UPDATE_COLUMNS` (lines 53-56) is left out. The switch
  is a field of `Collaborators`.
- The bodies of the collaborators are left out:
  - `getTableMeta`, `containsPK`, `getColumnNamesInSQL`, `getEscapePkNameList`, `ColumnUtils.addEscape`;
  - `buildWhereCondition`, `buildOrderCondition`, `buildLimitCondition`, `buildWhereConditionByPKs`;
  - `super.prepareUndoLog`.
  The executor's use of them is modelled, but what they compute is not.
- `String.split` and the value of `MULTI_TABLE_NAME_SEPERATOR` are left out. The model
  starts from the split entries, which may be empty (see "Table names" above).
- The null-map guard of `prepareUndoLog` (line 176) is left out. Both maps are created with
  the executor (lines 58-59), so it cannot fire.
- `null` rows and `null` column names are left out. Images and names are always present.
- `TableRecords.pkRows()` is left out. The after query is keyed by the before image's rows
  and the primary-key names, which is what the key-query function receives.
- `OracleOperateRecognizerHolder` is left out. It is a factory over parser classes that are
  not part of this model.
- Strings are sequences of characters, not UTF-16 code units. `Character.isWhitespace` is
  modelled on those characters.
- UpdateSql.BuildAfterImageSql: the after query is shown to have no lock clause as a
  query, and its text to end with the key condition. That the text contains no
  ` FOR UPDATE` anywhere is not stated, because column names and conditions are arbitrary
  text.

/** The data the update executor works on: table metadata, captured row images, the facts
    its SQL recognizer extracted, and the collaborators whose bodies lie outside this model. */
module Records {

  /** One row of a captured image: column name to value, values kept as text. */
  datatype Row = Row(fields: map<string, string>)

  /** `TableRecords`: the rows captured from one table. */
  datatype TableRecords = TableRecords(tableName: string, rows: seq<Row>)

  /** `TableMeta` as far as the executor reads it: the declared columns in declaration
      order, the primary-key column names, and the columns the database refreshes by itself
      on every row change ("ON UPDATE" columns), in declaration order. */
  datatype TableMeta = TableMeta(
    tableName: string,
    allColumns: seq<string>,
    primaryKeys: seq<string>,
    onUpdateColumns: seq<string>)

  /** One (before, after) pair handed to the base class's undo-log preparer. */
  datatype ImagePair = ImagePair(before: TableRecords, after: TableRecords)

  /** What `SQLUpdateRecognizer` tells the executor about one UPDATE statement:
      `tableName` is its table-name text, and `tableItems` that text split on the
      multi-table separator. Java's `split` drops trailing empty strings, so a name made of
      separators alone splits into no entries at all. */
  datatype UpdateRecognizer = UpdateRecognizer(
    tableName: string,
    tableItems: seq<string>,
    updateColumns: seq<string>,
    tableAlias: string -> string)

  /** What a condition builder returns: the condition's text, and the parameter list as the
      builder leaves it after adding the values the text's placeholders take. */
  datatype Built = Built(text: string, params: seq<seq<string>>)

  /** The executor's environment. `onlyCareUpdateColumns` is the configuration switch;
      every other field stands for a collaborator whose body is not part of this model:
      `getTableMeta`, `containsPK`, `getColumnNamesInSQL`, `getEscapePkNameList`,
      `ColumnUtils.addEscape`, `SqlGenerateUtils.buildWhereConditionByPKs`, the base
      executor's `buildWhereCondition`, `buildOrderCondition` and `buildLimitCondition` for
      this statement (each given the parameter list so far), and the two query runs (the
      before-image query with the parameter list, the after-image query with the before
      image's primary-key values). */
  datatype Collaborators = Collaborators(
    onlyCareUpdateColumns: bool,
    tableMeta: string -> TableMeta,
    containsPK: (string, seq<string>) -> bool,
    columnNamesInSql: (string, seq<string>) -> string,
    escapePkNames: TableMeta -> seq<string>,
    addEscape: string -> string,
    whereByPks: (seq<string>, nat) -> string,
    buildWhereCondition: seq<seq<string>> -> Built,
    buildOrderCondition: seq<seq<string>> -> Built,
    buildLimitCondition: seq<seq<string>> -> Built,
    queryRows: (string, seq<seq<string>>) -> seq<Row>,
    queryByPks: (string, seq<Row>, seq<string>) -> seq<Row>)

}

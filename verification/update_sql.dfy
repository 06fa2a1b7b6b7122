/** The SQL side of `UpdateExecutor`: how the statement's table name is split, which
    columns the image queries select, and the text of the before- and after-image queries. */
module UpdateSql {

  import opened Options
  import opened Text
  import opened Seqs
  import opened Joiners
  import opened Records
  import opened SelectSql

  // ---------------------------------------------------------------------------
  // Tables of the statement
  // ---------------------------------------------------------------------------

  /** The FROM text of the statement and the tables whose rows it changes. */
  datatype Tables = Tables(unionTable: string, itemTables: seq<string>)

  /** A single entry is both the FROM table and the only item table; otherwise entry 0 is
      the join's FROM text and the remaining entries are the item tables. An empty table
      name yields nothing. */
  function SplitTables(tableItems: seq<string>): (r: Option<Tables>)
    ensures r.None? <==> |tableItems| == 0
    ensures r.Some? ==> r.value.unionTable == tableItems[0] && |r.value.itemTables| >= 1
    ensures |tableItems| == 1 ==> r.value.itemTables == [r.value.unionTable]
    ensures |tableItems| > 1 ==> r.value.itemTables == tableItems[1..]
  {
    if |tableItems| == 0 then None
    else
      var itemTableIndex := if |tableItems| == 1 then 0 else 1;
      Some(Tables(tableItems[0], tableItems[itemTableIndex..]))
  }

  // ---------------------------------------------------------------------------
  // Column selection
  // ---------------------------------------------------------------------------

  function DeclaredIn(columns: seq<string>): string -> bool {
    c => c in columns
  }

  /** The updated columns that are declared columns of the item table, in the order the
      statement assigns them, repeats included. */
  function ItemUpdateColumns(itemAllColumns: seq<string>, updateColumns: seq<string>): (r: seq<string>)
    ensures forall c :: c in r <==> c in updateColumns && c in itemAllColumns
  {
    Filter(DeclaredIn(itemAllColumns), updateColumns)
  }

  /** The item update columns are an order-preserving subsequence of the updated columns
      that keeps each declared column as often as it is assigned and drops the rest; so
      distinct assignments give distinct item update columns. */
  lemma ItemUpdateColumnsOrder(itemAllColumns: seq<string>, updateColumns: seq<string>)
    ensures IsSubsequence(ItemUpdateColumns(itemAllColumns, updateColumns), updateColumns)
    ensures forall c :: multiset(ItemUpdateColumns(itemAllColumns, updateColumns))[c] ==
                          if c in itemAllColumns then multiset(updateColumns)[c] else 0
    ensures NoDuplicates(updateColumns) ==> NoDuplicates(ItemUpdateColumns(itemAllColumns, updateColumns))
  {
    FilterIsSubsequence(DeclaredIn(itemAllColumns), updateColumns);
    FilterCountsAll(DeclaredIn(itemAllColumns), updateColumns);
    if NoDuplicates(updateColumns) {
      FilterNoDuplicates(DeclaredIn(itemAllColumns), updateColumns);
    }
  }

  /** The loop of `getItemUpdateColumns`. */
  method GetItemUpdateColumns(itemAllColumns: seq<string>, updateColumns: seq<string>) returns (r: seq<string>)
    ensures r == ItemUpdateColumns(itemAllColumns, updateColumns)
    ensures forall c :: c in r <==> c in updateColumns && c in itemAllColumns
  {
    r := [];
    for i := 0 to |updateColumns|
      invariant r == Filter(DeclaredIn(itemAllColumns), updateColumns[..i])
    {
      var updateColumn := updateColumns[i];
      assert updateColumns[..i + 1] == updateColumns[..i] + [updateColumn];
      FilterSnoc(DeclaredIn(itemAllColumns), updateColumns[..i], updateColumn);
      if updateColumn in itemAllColumns {
        r := r + [updateColumn];
      }
    }
    assert updateColumns[..|updateColumns|] == updateColumns;
  }

  function EscapeAll(env: Collaborators, columns: seq<string>): seq<string> {
    seq(|columns|, i requires 0 <= i < |columns| => env.addEscape(columns[i]))
  }

  /** The primary-key column list as `getColumnNamesInSQL` writes it for the item table's
      alias: one entry of the select list, however many key columns there are. */
  function PkColumnsText(env: Collaborators, recognizer: UpdateRecognizer, itemTable: string): string {
    var meta := env.tableMeta(itemTable);
    env.columnNamesInSql(recognizer.tableAlias(itemTable), env.escapePkNames(meta))
  }

  /** The updated columns of the item table, as both image queries select them. */
  function UpdatedColumns(env: Collaborators, recognizer: UpdateRecognizer, itemTable: string): seq<string> {
    ItemUpdateColumns(env.tableMeta(itemTable).allColumns, recognizer.updateColumns)
  }

  /** Whether the key columns must be selected in front of the updated columns. */
  predicate NeedsPkColumns(env: Collaborators, recognizer: UpdateRecognizer, itemTable: string) {
    !env.containsPK(itemTable, UpdatedColumns(env, recognizer, itemTable))
  }

  /** The select list of both image queries: with the only-care switch on, the key
      columns unless already updated, the updated columns, and the escaped on-update columns
      not updated; with it off, every declared column escaped. */
  function SelectColumns(env: Collaborators, recognizer: UpdateRecognizer, itemTable: string): seq<string> {
    var meta := env.tableMeta(itemTable);
    if env.onlyCareUpdateColumns then
      var updated := UpdatedColumns(env, recognizer, itemTable);
      var pk := if NeedsPkColumns(env, recognizer, itemTable) then [PkColumnsText(env, recognizer, itemTable)] else [];
      pk + updated + EscapeAll(env, RemoveAll(meta.onUpdateColumns, updated))
    else
      EscapeAll(env, meta.allColumns)
  }

  /** With the only-care switch off the select list is every declared column, escaped,
      in declaration order. */
  lemma SelectColumnsAllDeclared(env: Collaborators, recognizer: UpdateRecognizer, itemTable: string)
    requires !env.onlyCareUpdateColumns
    ensures |SelectColumns(env, recognizer, itemTable)| == |env.tableMeta(itemTable).allColumns|
    ensures forall i :: 0 <= i < |env.tableMeta(itemTable).allColumns| ==>
              SelectColumns(env, recognizer, itemTable)[i] == env.addEscape(env.tableMeta(itemTable).allColumns[i])
  {
  }

  /** `x` is the escaped name of an on-update column that is not updated. */
  predicate EscapedNotUpdated(env: Collaborators, onUpdateColumns: seq<string>, updated: seq<string>, x: string) {
    exists o :: o in onUpdateColumns && o !in updated && x == env.addEscape(o)
  }

  /** The escaped on-update columns that survive `removeAll`: each one comes from an
      on-update column that is not updated, and each such column is there. */
  lemma EscapedOnUpdateColumns(env: Collaborators, onUpdateColumns: seq<string>, updated: seq<string>)
    ensures forall x :: x in EscapeAll(env, RemoveAll(onUpdateColumns, updated)) ==>
              EscapedNotUpdated(env, onUpdateColumns, updated, x)
    ensures forall o :: o in onUpdateColumns && o !in updated ==>
              env.addEscape(o) in EscapeAll(env, RemoveAll(onUpdateColumns, updated))
  {
    var kept := RemoveAll(onUpdateColumns, updated);
    var auto := EscapeAll(env, kept);
    forall x | x in auto
      ensures EscapedNotUpdated(env, onUpdateColumns, updated, x)
    {
      var i :| 0 <= i < |auto| && auto[i] == x;
      assert kept[i] in kept;
    }
    forall o | o in onUpdateColumns && o !in updated
      ensures env.addEscape(o) in auto
    {
      var i :| 0 <= i < |kept| && kept[i] == o;
      assert auto[i] == env.addEscape(o);
    }
  }

  /** Where the updated columns end in the only-care select list. */
  function UpdatedEnd(env: Collaborators, recognizer: UpdateRecognizer, itemTable: string): nat {
    (if NeedsPkColumns(env, recognizer, itemTable) then 1 else 0) + |UpdatedColumns(env, recognizer, itemTable)|
  }

  /** With the only-care switch on: the key-column text comes first exactly when the key
      is not among the updated columns, and the updated columns follow in statement order. */
  lemma SelectColumnsOnlyCare(env: Collaborators, recognizer: UpdateRecognizer, itemTable: string)
    requires env.onlyCareUpdateColumns
    ensures NeedsPkColumns(env, recognizer, itemTable) ==>
              && |SelectColumns(env, recognizer, itemTable)| > 0
              && SelectColumns(env, recognizer, itemTable)[0] == PkColumnsText(env, recognizer, itemTable)
    ensures var k := if NeedsPkColumns(env, recognizer, itemTable) then 1 else 0;
            var updated := UpdatedColumns(env, recognizer, itemTable);
            && k + |updated| <= |SelectColumns(env, recognizer, itemTable)|
            && SelectColumns(env, recognizer, itemTable)[k..k + |updated|] == updated
  {
    var meta := env.tableMeta(itemTable);
    var updated := UpdatedColumns(env, recognizer, itemTable);
    var pk := if NeedsPkColumns(env, recognizer, itemTable) then [PkColumnsText(env, recognizer, itemTable)] else [];
    var auto := EscapeAll(env, RemoveAll(meta.onUpdateColumns, updated));
    var cols := pk + updated + auto;
    assert cols == SelectColumns(env, recognizer, itemTable);
    assert cols[|pk|..|pk| + |updated|] == updated;
  }

  /** With the only-care switch on, what follows the updated columns are escaped on-update
      columns that are not updated — so none repeats an updated column — and every such
      column is there. */
  lemma SelectColumnsOnUpdateTail(env: Collaborators, recognizer: UpdateRecognizer, itemTable: string)
    requires env.onlyCareUpdateColumns
    ensures UpdatedEnd(env, recognizer, itemTable) <= |SelectColumns(env, recognizer, itemTable)|
    ensures forall x :: x in SelectColumns(env, recognizer, itemTable)[UpdatedEnd(env, recognizer, itemTable)..] ==>
              EscapedNotUpdated(env, env.tableMeta(itemTable).onUpdateColumns, UpdatedColumns(env, recognizer, itemTable), x)
    ensures forall o :: o in env.tableMeta(itemTable).onUpdateColumns && o !in UpdatedColumns(env, recognizer, itemTable) ==>
              env.addEscape(o) in SelectColumns(env, recognizer, itemTable)[UpdatedEnd(env, recognizer, itemTable)..]
  {
    var meta := env.tableMeta(itemTable);
    var updated := UpdatedColumns(env, recognizer, itemTable);
    var pk := if NeedsPkColumns(env, recognizer, itemTable) then [PkColumnsText(env, recognizer, itemTable)] else [];
    var auto := EscapeAll(env, RemoveAll(meta.onUpdateColumns, updated));
    var cols := pk + updated + auto;
    assert cols == SelectColumns(env, recognizer, itemTable);
    assert |pk| + |updated| == UpdatedEnd(env, recognizer, itemTable);
    assert cols[|pk| + |updated|..] == auto;
    EscapedOnUpdateColumns(env, meta.onUpdateColumns, updated);
  }

  // ---------------------------------------------------------------------------
  // Image queries
  // ---------------------------------------------------------------------------

  /** A condition fragment is used only when it is not blank. */
  function NonBlank(fragment: string): (r: Option<string>)
    ensures r.Some? <==> !IsBlank(fragment)
    ensures r.Some? ==> r.value == fragment
  {
    if IsBlank(fragment) then None else Some(fragment)
  }

  /** The texts of the statement's WHERE, ORDER BY and LIMIT conditions. */
  datatype Conditions = Conditions(where: string, orderBy: string, limit: string)

  /** One round of the three condition builders, as `buildBeforeImageSQL` runs them: WHERE,
      then ORDER BY, then LIMIT, each given the parameter list the previous one left. */
  datatype Round = Round(conditions: Conditions, params: seq<seq<string>>)

  function ConditionRound(env: Collaborators, params: seq<seq<string>>): (r: Round)
    ensures r.conditions.where == env.buildWhereCondition(params).text
    ensures r.params == env.buildLimitCondition(env.buildOrderCondition(env.buildWhereCondition(params).params).params).params
  {
    var where := env.buildWhereCondition(params);
    var orderBy := env.buildOrderCondition(where.params);
    var limit := env.buildLimitCondition(orderBy.params);
    Round(Conditions(where.text, orderBy.text, limit.text), limit.params)
  }

  /** The before-image query under the given condition texts: read from the FROM text,
      with the rows locked. */
  function BeforeImageQuery(env: Collaborators, recognizer: UpdateRecognizer, unionTable: string, itemTable: string,
                            conditions: Conditions): (q: Select)
    ensures q.forUpdate
    ensures q.from == unionTable
    ensures q.columns == SelectColumns(env, recognizer, itemTable)
    ensures q.where.Some? <==> !IsBlank(conditions.where)
    ensures q.orderBy.Some? <==> !IsBlank(conditions.orderBy)
    ensures q.limit.Some? <==> !IsBlank(conditions.limit)
    ensures q.where.Some? ==> q.where.value == conditions.where
    ensures q.orderBy.Some? ==> q.orderBy.value == conditions.orderBy
    ensures q.limit.Some? ==> q.limit.value == conditions.limit
  {
    Select(
      SelectColumns(env, recognizer, itemTable),
      unionTable,
      NonBlank(conditions.where),
      NonBlank(conditions.orderBy),
      NonBlank(conditions.limit),
      true)
  }

  /** The primary-key condition of the after-image query, one key tuple per before row. */
  function PkCondition(env: Collaborators, itemTable: string, before: TableRecords): string {
    env.whereByPks(env.tableMeta(itemTable).primaryKeys, |before.rows|)
  }

  /** The after-image query: the same select list read from the same FROM text, keyed by
      the before image's primary keys, without ordering, limit or lock. */
  function AfterImageQuery(env: Collaborators, recognizer: UpdateRecognizer, unionTable: string, itemTable: string, before: TableRecords): (q: Select)
    ensures !q.forUpdate
    ensures q.from == unionTable
    ensures q.columns == SelectColumns(env, recognizer, itemTable)
    ensures q.where == Some(PkCondition(env, itemTable, before))
    ensures q.orderBy.None? && q.limit.None?
  {
    Select(SelectColumns(env, recognizer, itemTable), unionTable, Some(PkCondition(env, itemTable, before)), None, None, false)
  }

  /** Adds `columns` to `joiner` one at a time, left to right. */
  method AddColumns(joiner: StringJoiner, columns: seq<string>) returns (j: StringJoiner)
    ensures j == AddAll(joiner, columns)
  {
    j := joiner;
    for i := 0 to |columns|
      invariant j == AddAll(joiner, columns[..i])
    {
      assert columns[..i + 1] == columns[..i] + [columns[i]];
      AddAllSnoc(joiner, columns[..i], columns[i]);
      j := j.Add(columns[i]);
    }
    assert columns[..|columns|] == columns;
  }

  /** Adds the select list to `joiner`, as both SQL builders do. */
  method AddSelectColumns(env: Collaborators, recognizer: UpdateRecognizer, itemTable: string, joiner: StringJoiner)
    returns (j: StringJoiner)
    ensures j == AddAll(joiner, SelectColumns(env, recognizer, itemTable))
  {
    var meta := env.tableMeta(itemTable);
    if env.onlyCareUpdateColumns {
      var itemTableUpdateColumns := GetItemUpdateColumns(meta.allColumns, recognizer.updateColumns);
      var pk: seq<string> := [];
      if !env.containsPK(itemTable, itemTableUpdateColumns) {
        pk := [PkColumnsText(env, recognizer, itemTable)];
      }
      j := AddColumns(joiner, pk);
      j := AddColumns(j, itemTableUpdateColumns);
      var onUpdateColumns := RemoveAll(meta.onUpdateColumns, itemTableUpdateColumns);
      var escaped := EscapeAll(env, onUpdateColumns);
      j := AddColumns(j, escaped);
      AddAllAppend(joiner, pk, itemTableUpdateColumns);
      AddAllAppend(joiner, pk + itemTableUpdateColumns, escaped);
    } else {
      j := AddColumns(joiner, EscapeAll(env, meta.allColumns));
    }
  }

  /** `buildBeforeImageSQL`: the three builders run on the parameter list in turn, the
      suffix is assembled piece by piece, and the select list is joined in front of it.
      `paramsOut` is the parameter list as the builders leave it. */
  method BuildBeforeImageSql(env: Collaborators, recognizer: UpdateRecognizer, unionTable: string, itemTable: string,
                             params: seq<seq<string>>)
    returns (sql: string, paramsOut: seq<seq<string>>)
    ensures sql == Render(BeforeImageQuery(env, recognizer, unionTable, itemTable, ConditionRound(env, params).conditions))
    ensures paramsOut == ConditionRound(env, params).params
    ensures StartsWith(sql, Head(SelectColumns(env, recognizer, itemTable), unionTable))
    ensures EndsWith(sql, ForUpdate)
  {
    var suffix := " FROM " + unionTable;
    var whereCondition := env.buildWhereCondition(params);
    var orderByCondition := env.buildOrderCondition(whereCondition.params);
    var limitCondition := env.buildLimitCondition(orderByCondition.params);
    paramsOut := limitCondition.params;
    var q := BeforeImageQuery(env, recognizer, unionTable, itemTable, ConditionRound(env, params).conditions);
    if !IsBlank(whereCondition.text) {
      suffix := suffix + WhereKeyword + whereCondition.text;
    }
    assert suffix == " FROM " + unionTable + Clause(WhereKeyword, q.where);
    if !IsBlank(orderByCondition.text) {
      suffix := suffix + " " + orderByCondition.text;
    }
    assert suffix == " FROM " + unionTable + Clause(WhereKeyword, q.where) + Clause(" ", q.orderBy);
    if !IsBlank(limitCondition.text) {
      suffix := suffix + " " + limitCondition.text;
    }
    assert suffix == " FROM " + unionTable + Clause(WhereKeyword, q.where) + Clause(" ", q.orderBy) + Clause(" ", q.limit);
    suffix := suffix + ForUpdate;
    var joiner := NewJoiner(", ", "SELECT ", suffix);
    joiner := AddSelectColumns(env, recognizer, itemTable, joiner);
    sql := joiner.ToString();
    AddAllToString(", ", "SELECT ", suffix, q.columns);
    RenderSplit(q, suffix);
    RenderShape(q);
  }

  /** `buildAfterImageSQL`: the suffix reads the FROM text under the primary-key condition. */
  method BuildAfterImageSql(env: Collaborators, recognizer: UpdateRecognizer, unionTable: string, itemTable: string, before: TableRecords)
    returns (sql: string)
    ensures sql == Render(AfterImageQuery(env, recognizer, unionTable, itemTable, before))
    ensures StartsWith(sql, Head(SelectColumns(env, recognizer, itemTable), unionTable))
    ensures EndsWith(sql, WhereKeyword + PkCondition(env, itemTable, before))
  {
    var whereSql := env.whereByPks(env.tableMeta(itemTable).primaryKeys, |before.rows|);
    var suffix := " FROM " + unionTable + WhereKeyword + whereSql;
    var joiner := NewJoiner(", ", "SELECT ", suffix);
    joiner := AddSelectColumns(env, recognizer, itemTable, joiner);
    sql := joiner.ToString();
    var q := AfterImageQuery(env, recognizer, unionTable, itemTable, before);
    AddAllToString(", ", "SELECT ", suffix, q.columns);
    assert suffix == " FROM " + q.from + Clause(WhereKeyword, q.where) + Clause(" ", q.orderBy)
                     + Clause(" ", q.limit) + (if q.forUpdate then ForUpdate else "");
    RenderSplit(q, suffix);
    RenderShape(q);
  }

}

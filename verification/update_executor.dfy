/** `UpdateExecutor`'s image handling: the before and after images of an UPDATE statement,
    possibly a multi-table (join) UPDATE, kept per table in insertion order, and the check
    that pairs them up for the undo log. */
module UpdateExecutor {

  import opened Options
  import opened Seqs
  import opened LinkedMaps
  import opened Records
  import opened SelectSql
  import opened UpdateSql
  import opened ImageLoops

  /** The executor's two image maps, keyed by item table name. */
  datatype Executor = Executor(beforeImages: LinkedMap<TableRecords>, afterImages: LinkedMap<TableRecords>) {
    predicate Valid() {
      beforeImages.Valid() && afterImages.Valid()
    }
  }

  /** A freshly constructed executor: both maps empty. */
  function NewExecutor(): (e: Executor)
    ensures e.Valid()
    ensures e.beforeImages.keys == [] && e.afterImages.keys == []
  {
    Executor(Empty(), Empty())
  }

  /** The exceptions the image steps and the undo-log preparation can end in. */
  datatype ExecutorError =
    | NoTableItems(tableName: string)  // the name splits into no entries: `tableItems[0]` is out of bounds
    | NullBeforeImage(table: string)   // no before image to key the after-image query by
    | NullAfterImage(table: string)    // a before image with no after image to compare
    | ShouldNeverHappen(message: string)

  const SizeMismatchMessage :=
    "Before image size is not equaled to after image size, probably because you updated the primary keys."

  /** What an image step leaves: the executor as it stands afterwards, even when the step
      ends in an exception, and the image returned (`None` for `null`) or the exception. */
  datatype Outcome = Outcome(executor: Executor, result: Result<Option<TableRecords>, ExecutorError>)

  /** The statement has a non-empty table name that splits into at least one entry. */
  predicate HasTables(recognizer: UpdateRecognizer) {
    |recognizer.tableName| > 0 && |recognizer.tableItems| > 0
  }

  // ---------------------------------------------------------------------------
  // Before image
  // ---------------------------------------------------------------------------

  /** What one round of `buildBeforeImageSQL` leaves in the parameter list. */
  function BeforeStep(env: Collaborators): seq<seq<string>> -> seq<seq<string>> {
    params => ConditionRound(env, params).params
  }

  /** The before image of one item table, given the parameter list as the loop finds it:
      the condition builders run on that list, and the locking query built from their
      texts reads the rows with the list they leave. */
  function BeforeRecord(env: Collaborators, recognizer: UpdateRecognizer, unionTable: string, itemTable: string,
                        params: seq<seq<string>>): TableRecords
  {
    var round := ConditionRound(env, params);
    var sql := Render(BeforeImageQuery(env, recognizer, unionTable, itemTable, round.conditions));
    TableRecords(env.tableMeta(itemTable).tableName, env.queryRows(sql, round.params))
  }

  /** The before image of each item table, as a function of the table and the parameter
      list as the loop finds it. */
  function BeforeRecords(env: Collaborators, recognizer: UpdateRecognizer, unionTable: string)
    : (string, seq<seq<string>>) -> TableRecords
  {
    (itemTable, params) => BeforeRecord(env, recognizer, unionTable, itemTable, params)
  }

  /** `beforeImage`: nothing happens for an empty table name; a name that splits into no
      entries fails on `tableItems[0]`; otherwise every item table's before image is put
      into the executor's before map, starting from an empty parameter list, and the image
      returned is the one stored under the FROM text. */
  function BeforeImage(env: Collaborators, recognizer: UpdateRecognizer, exec: Executor): (r: Outcome)
    requires exec.Valid()
    ensures r.executor.Valid()
    ensures r.executor.afterImages == exec.afterImages
    ensures |recognizer.tableName| == 0 ==> r == Outcome(exec, Success(None))
    ensures |recognizer.tableName| > 0 && |recognizer.tableItems| == 0 ==>
              r == Outcome(exec, Failure(NoTableItems(recognizer.tableName)))
    ensures HasTables(recognizer) ==>
              var tables := SplitTables(recognizer.tableItems).value;
              && r.result.Success?
              && (forall t :: t in tables.itemTables ==> r.executor.beforeImages.Get(t).Some?)
              && (forall t :: t !in tables.itemTables ==> r.executor.beforeImages.Get(t) == exec.beforeImages.Get(t))
              && r.result.value == r.executor.beforeImages.Get(tables.unionTable)
  {
    if |recognizer.tableName| == 0 then Outcome(exec, Success(None))
    else
      match SplitTables(recognizer.tableItems)
      case None => Outcome(exec, Failure(NoTableItems(recognizer.tableName)))
      case Some(tables) =>
        var record := BeforeRecords(env, recognizer, tables.unionTable);
        CaptureBeforeEntries(tables.itemTables, [], BeforeStep(env), record, exec.beforeImages);
        var images := CaptureBefore(tables.itemTables, [], BeforeStep(env), record, exec.beforeImages);
        Outcome(exec.(beforeImages := images), Success(images.Get(tables.unionTable)))
  }

  // ---------------------------------------------------------------------------
  // After image
  // ---------------------------------------------------------------------------

  /** The after image of one item table: the rows the primary-key query returns for the
      before image's key values. */
  function AfterRecord(env: Collaborators, recognizer: UpdateRecognizer, unionTable: string, itemTable: string,
                       before: TableRecords): TableRecords
  {
    var meta := env.tableMeta(itemTable);
    var sql := Render(AfterImageQuery(env, recognizer, unionTable, itemTable, before));
    TableRecords(meta.tableName, env.queryByPks(sql, before.rows, meta.primaryKeys))
  }

  /** The after image of each item table, as a function of the table and the before
      image its query is keyed by. */
  function AfterRecords(env: Collaborators, recognizer: UpdateRecognizer, unionTable: string)
    : (string, TableRecords) -> TableRecords
  {
    (itemTable, before) => AfterRecord(env, recognizer, unionTable, itemTable, before)
  }

  /** The loop of `afterImage` over the item tables of `tables`: each table's after image is
      put into the executor's after map, keyed by the executor's own before image of that
      table or else by `supplied`. The first table with neither ends the step with a
      `NullPointerException`, the after images put before it staying in the map. */
  function CaptureAfterImages(env: Collaborators, recognizer: UpdateRecognizer, exec: Executor,
                              supplied: Option<TableRecords>, tables: Tables): (r: Outcome)
    requires exec.Valid()
    ensures r.executor.Valid()
    ensures r.executor.beforeImages == exec.beforeImages
    ensures var k := FirstMissing(tables.itemTables, exec.beforeImages, supplied);
            var done := tables.itemTables[..k];
            && (r.result.Success? <==> forall t :: t in tables.itemTables ==> BeforeImageFor(exec.beforeImages, t, supplied).Some?)
            && (forall t :: t in done ==> r.executor.afterImages.Get(t).Some?)
            && (forall t :: t !in done ==> r.executor.afterImages.Get(t) == exec.afterImages.Get(t))
            && (r.result.Success? ==> done == tables.itemTables && r.result.value == r.executor.afterImages.Get(tables.unionTable))
            && (r.result.Failure? ==>
                  && k < |tables.itemTables|
                  && BeforeImageFor(exec.beforeImages, tables.itemTables[k], supplied).None?
                  && r.result.error == NullBeforeImage(tables.itemTables[k]))
  {
    var stored := exec.beforeImages;
    var record := AfterRecords(env, recognizer, tables.unionTable);
    CaptureAfterOutcome(tables.itemTables, stored, supplied, record, exec.afterImages);
    CaptureAfterEntries(tables.itemTables, stored, supplied, record, exec.afterImages);
    FirstMissingAll(tables.itemTables, stored, supplied);
    var loop := CaptureAfter(tables.itemTables, stored, supplied, record, exec.afterImages);
    var executor := exec.(afterImages := loop.images);
    match loop.missing
    case Some(table) => Outcome(executor, Failure(NullBeforeImage(table)))
    case None => Outcome(executor, Success(loop.images.Get(tables.unionTable)))
  }

  /** `afterImage`: nothing happens for an empty table name; a name that splits into no
      entries fails on `tableItems[0]`; otherwise the loop above runs over the item
      tables. */
  function AfterImage(env: Collaborators, recognizer: UpdateRecognizer, exec: Executor, supplied: Option<TableRecords>)
    : (r: Outcome)
    requires exec.Valid()
    ensures r.executor.Valid()
    ensures r.executor.beforeImages == exec.beforeImages
    ensures |recognizer.tableName| == 0 ==> r == Outcome(exec, Success(None))
    ensures |recognizer.tableName| > 0 && |recognizer.tableItems| == 0 ==>
              r == Outcome(exec, Failure(NoTableItems(recognizer.tableName)))
    ensures HasTables(recognizer) ==>
              r == CaptureAfterImages(env, recognizer, exec, supplied, SplitTables(recognizer.tableItems).value)
  {
    if |recognizer.tableName| == 0 then Outcome(exec, Success(None))
    else
      match SplitTables(recognizer.tableItems)
      case None => Outcome(exec, Failure(NoTableItems(recognizer.tableName)))
      case Some(tables) => CaptureAfterImages(env, recognizer, exec, supplied, tables)
  }

  // ---------------------------------------------------------------------------
  // Undo log
  // ---------------------------------------------------------------------------

  /** Table `t` has a before image and an after image with as many rows. */
  predicate Consistent(exec: Executor, t: string) {
    && t in exec.beforeImages.entries
    && t in exec.afterImages.entries
    && |exec.beforeImages.entries[t].rows| == |exec.afterImages.entries[t].rows|
  }

  function PairOf(exec: Executor, t: string): ImagePair
    requires t in exec.beforeImages.entries && t in exec.afterImages.entries
  {
    ImagePair(exec.beforeImages.entries[t], exec.afterImages.entries[t])
  }

  /** What `prepareUndoLog` does: the pairs it forwarded to the base preparer, in order,
      and the exception that stopped it, if any. */
  datatype UndoPreparation = UndoPreparation(forwarded: seq<ImagePair>, error: Option<ExecutorError>)

  /** The loop of `prepareUndoLog` over the remaining before-map tables `rest`. */
  function PrepareFrom(exec: Executor, rest: seq<string>): (r: UndoPreparation)
    requires forall t :: t in rest ==> t in exec.beforeImages.entries
    ensures r.error.None? <==> forall t :: t in rest ==> Consistent(exec, t)
    ensures |r.forwarded| <= |rest|
    ensures forall i :: 0 <= i < |r.forwarded| ==>
              Consistent(exec, rest[i]) && r.forwarded[i] == PairOf(exec, rest[i])
    ensures r.error.None? ==> |r.forwarded| == |rest|
    ensures r.error.Some? ==>
              var t := rest[|r.forwarded|];
              && |r.forwarded| < |rest|
              && !Consistent(exec, t)
              && r.error.value == if t in exec.afterImages.entries then ShouldNeverHappen(SizeMismatchMessage)
                                  else NullAfterImage(t)
    decreases |rest|
  {
    if |rest| == 0 then UndoPreparation([], None)
    else
      var tableName := rest[0];
      assert tableName in rest;
      var tableBeforeImage := exec.beforeImages.entries[tableName];
      if tableName !in exec.afterImages.entries then UndoPreparation([], Some(NullAfterImage(tableName)))
      else
        var tableAfterImage := exec.afterImages.entries[tableName];
        if |tableBeforeImage.rows| != |tableAfterImage.rows| then
          UndoPreparation([], Some(ShouldNeverHappen(SizeMismatchMessage)))
        else
          var tail := PrepareFrom(exec, rest[1..]);
          assert forall t :: t in rest <==> t == tableName || t in rest[1..];
          UndoPreparation([ImagePair(tableBeforeImage, tableAfterImage)] + tail.forwarded, tail.error)
  }

  /** `prepareUndoLog`: walks the before map in insertion order, stops at the first table
      whose after image is missing or has a different number of rows, and otherwise
      forwards every (before, after) pair. */
  function PrepareUndoLog(exec: Executor): (r: UndoPreparation)
    requires exec.Valid()
    ensures r.error.None? <==> forall t :: t in exec.beforeImages.keys ==> Consistent(exec, t)
    ensures r.error.None? ==>
              && |r.forwarded| == |exec.beforeImages.keys|
              && forall i :: 0 <= i < |r.forwarded| ==> r.forwarded[i] == PairOf(exec, exec.beforeImages.keys[i])
    ensures r.error.Some? ==>
              && |r.forwarded| < |exec.beforeImages.keys|
              && (forall i :: 0 <= i < |r.forwarded| ==> Consistent(exec, exec.beforeImages.keys[i]))
              && !Consistent(exec, exec.beforeImages.keys[|r.forwarded|])
              && r.error.value == var t := exec.beforeImages.keys[|r.forwarded|];
                                  if t in exec.afterImages.entries then ShouldNeverHappen(SizeMismatchMessage)
                                  else NullAfterImage(t)
  {
    PrepareFrom(exec, exec.beforeImages.keys)
  }

}

/** What the executor's image steps and undo-log preparation promise when taken together:
    the order and content of the image maps, the image each step returns, and the outcome
    of preparing the undo log after both images were captured. */
module UpdateExecutorProps {

  import opened Options
  import opened Seqs
  import opened LinkedMaps
  import opened Records
  import opened UpdateSql
  import opened ImageLoops
  import opened UpdateExecutor

  /** The item tables of a statement with a non-empty table name. */
  function ItemTables(recognizer: UpdateRecognizer): seq<string>
    requires |recognizer.tableItems| > 0
  {
    SplitTables(recognizer.tableItems).value.itemTables
  }

  function UnionTable(recognizer: UpdateRecognizer): string
    requires |recognizer.tableItems| > 0
  {
    SplitTables(recognizer.tableItems).value.unionTable
  }

  /** The before images `beforeImage` captures for the item tables, in order: the `i`-th
      table's query is built from the parameter list as `i` earlier rounds of the condition
      builders left it, since the list is never cleared between item tables. */
  function ItemBefores(env: Collaborators, recognizer: UpdateRecognizer): (r: seq<TableRecords>)
    requires |recognizer.tableItems| > 0
    ensures |r| == |ItemTables(recognizer)|
    ensures forall i :: 0 <= i < |r| ==>
              r[i] == BeforeRecord(env, recognizer, UnionTable(recognizer), ItemTables(recognizer)[i],
                                   Iterate(BeforeStep(env), [], i))
  {
    var items := ItemTables(recognizer);
    seq(|items|, i requires 0 <= i < |items| =>
      BeforeRecord(env, recognizer, UnionTable(recognizer), items[i], Iterate(BeforeStep(env), [], i)))
  }

  /** The after images `afterImage` captures for the item tables, in order, when each is
      keyed by that table's before image above. */
  function ItemAfters(env: Collaborators, recognizer: UpdateRecognizer): (r: seq<TableRecords>)
    requires |recognizer.tableItems| > 0
    ensures |r| == |ItemTables(recognizer)|
    ensures forall i :: 0 <= i < |r| ==>
              r[i] == AfterRecord(env, recognizer, UnionTable(recognizer), ItemTables(recognizer)[i],
                                  ItemBefores(env, recognizer)[i])
  {
    var items := ItemTables(recognizer);
    var befores := ItemBefores(env, recognizer);
    seq(|items|, i requires 0 <= i < |items| =>
      AfterRecord(env, recognizer, UnionTable(recognizer), items[i], befores[i]))
  }

  // ---------------------------------------------------------------------------
  // Before image
  // ---------------------------------------------------------------------------

  /** `beforeImage` keeps the tables already in the before map at the front, and for
      distinct item tables not yet in it appends exactly those tables, left to right. */
  lemma BeforeImageOrder(env: Collaborators, recognizer: UpdateRecognizer, exec: Executor)
    requires exec.Valid()
    ensures var keys := BeforeImage(env, recognizer, exec).executor.beforeImages.keys;
            |exec.beforeImages.keys| <= |keys| && keys[..|exec.beforeImages.keys|] == exec.beforeImages.keys
    ensures HasTables(recognizer) && NoDuplicates(ItemTables(recognizer))
            && (forall t :: t in ItemTables(recognizer) ==> t !in exec.beforeImages.keys) ==>
              BeforeImage(env, recognizer, exec).executor.beforeImages.keys == exec.beforeImages.keys + ItemTables(recognizer)
  {
    if HasTables(recognizer) {
      var tables := SplitTables(recognizer.tableItems).value;
      var record := BeforeRecords(env, recognizer, tables.unionTable);
      assert BeforeImage(env, recognizer, exec).executor.beforeImages
          == CaptureBefore(tables.itemTables, [], BeforeStep(env), record, exec.beforeImages);
      CaptureBeforePrefix(tables.itemTables, [], BeforeStep(env), record, exec.beforeImages);
      if NoDuplicates(tables.itemTables) && (forall t :: t in tables.itemTables ==> t !in exec.beforeImages.keys) {
        CaptureBeforeOrder(tables.itemTables, [], BeforeStep(env), record, exec.beforeImages);
      }
    }
  }

  /** For distinct item tables, `beforeImage` stores under the `i`-th one the rows its
      locking query returns, the query built by the condition builders' `i + 1`-th round. */
  lemma BeforeImageValues(env: Collaborators, recognizer: UpdateRecognizer, exec: Executor)
    requires exec.Valid()
    requires HasTables(recognizer)
    requires NoDuplicates(ItemTables(recognizer))
    ensures forall i :: 0 <= i < |ItemTables(recognizer)| ==>
              BeforeImage(env, recognizer, exec).executor.beforeImages.Get(ItemTables(recognizer)[i])
                == Some(ItemBefores(env, recognizer)[i])
  {
    var tables := SplitTables(recognizer.tableItems).value;
    var record := BeforeRecords(env, recognizer, tables.unionTable);
    var images := CaptureBefore(tables.itemTables, [], BeforeStep(env), record, exec.beforeImages);
    assert BeforeImage(env, recognizer, exec).executor.beforeImages == images;
    CaptureBeforeValues(tables.itemTables, [], BeforeStep(env), record, exec.beforeImages);
    forall i | 0 <= i < |tables.itemTables|
      ensures images.Get(tables.itemTables[i]) == Some(ItemBefores(env, recognizer)[i])
    {
      var p := Iterate(BeforeStep(env), [], i);
      assert record(tables.itemTables[i], p) == BeforeRecord(env, recognizer, tables.unionTable, tables.itemTables[i], p);
    }
  }

  /** A single-table UPDATE: `beforeImage` returns that table's rows, read by the query the
      condition builders' first round builds from an empty parameter list. */
  lemma SingleTableBeforeImage(env: Collaborators, recognizer: UpdateRecognizer, exec: Executor)
    requires exec.Valid()
    requires |recognizer.tableName| > 0 && |recognizer.tableItems| == 1
    ensures var t := recognizer.tableItems[0];
            BeforeImage(env, recognizer, exec).result == Success(Some(BeforeRecord(env, recognizer, t, t, [])))
  {
    assert ItemTables(recognizer) == [recognizer.tableItems[0]];
    BeforeImageValues(env, recognizer, exec);
  }

  /** A join UPDATE: `beforeImage` returns the map's entry for the FROM text, which is not
      an item table, so on an executor that has no such entry it returns `null`, although
      every item table's image was captured. */
  lemma JoinBeforeImageIsNull(env: Collaborators, recognizer: UpdateRecognizer, exec: Executor)
    requires exec.Valid()
    requires |recognizer.tableName| > 0 && |recognizer.tableItems| > 1
    requires recognizer.tableItems[0] !in recognizer.tableItems[1..]
    requires exec.beforeImages.Get(recognizer.tableItems[0]).None?
    ensures BeforeImage(env, recognizer, exec).result == Success(None)
    ensures forall t :: t in recognizer.tableItems[1..] ==>
              BeforeImage(env, recognizer, exec).executor.beforeImages.Get(t).Some?
  {
  }

  // ---------------------------------------------------------------------------
  // After image
  // ---------------------------------------------------------------------------

  /** `afterImage` keeps the tables already in the after map at the front, and for distinct
      item tables not yet in it appends, left to right, the tables before the first one
      that has no before image — all of them when it succeeds. */
  lemma AfterImageOrder(env: Collaborators, recognizer: UpdateRecognizer, exec: Executor, supplied: Option<TableRecords>)
    requires exec.Valid()
    ensures var keys := AfterImage(env, recognizer, exec, supplied).executor.afterImages.keys;
            |exec.afterImages.keys| <= |keys| && keys[..|exec.afterImages.keys|] == exec.afterImages.keys
    ensures HasTables(recognizer) && NoDuplicates(ItemTables(recognizer))
            && (forall t :: t in ItemTables(recognizer) ==> t !in exec.afterImages.keys) ==>
              AfterImage(env, recognizer, exec, supplied).executor.afterImages.keys
                == exec.afterImages.keys + ItemTables(recognizer)[..FirstMissing(ItemTables(recognizer), exec.beforeImages, supplied)]
  {
    if HasTables(recognizer) {
      var tables := SplitTables(recognizer.tableItems).value;
      var record := AfterRecords(env, recognizer, tables.unionTable);
      var loop := CaptureAfter(tables.itemTables, exec.beforeImages, supplied, record, exec.afterImages);
      assert AfterImage(env, recognizer, exec, supplied).executor.afterImages == loop.images;
      CaptureAfterPrefix(tables.itemTables, exec.beforeImages, supplied, record, exec.afterImages);
      if NoDuplicates(tables.itemTables) && (forall t :: t in tables.itemTables ==> t !in exec.afterImages.keys) {
        CaptureAfterOrder(tables.itemTables, exec.beforeImages, supplied, record, exec.afterImages);
      }
    }
  }

  /** For distinct item tables, `afterImage` stores under each table before the first one
      that has no before image the rows its primary-key query returns, keyed by the
      executor's own before image of that table or, failing that, by the supplied one. */
  lemma AfterImageValues(env: Collaborators, recognizer: UpdateRecognizer, exec: Executor, supplied: Option<TableRecords>)
    requires exec.Valid()
    requires HasTables(recognizer)
    requires NoDuplicates(ItemTables(recognizer))
    ensures forall i :: 0 <= i < FirstMissing(ItemTables(recognizer), exec.beforeImages, supplied) ==>
              var t := ItemTables(recognizer)[i];
              && BeforeImageFor(exec.beforeImages, t, supplied).Some?
              && AfterImage(env, recognizer, exec, supplied).executor.afterImages.Get(t)
                   == Some(AfterRecord(env, recognizer, UnionTable(recognizer), t,
                                       BeforeImageFor(exec.beforeImages, t, supplied).value))
  {
    var tables := SplitTables(recognizer.tableItems).value;
    var record := AfterRecords(env, recognizer, tables.unionTable);
    var loop := CaptureAfter(tables.itemTables, exec.beforeImages, supplied, record, exec.afterImages);
    assert AfterImage(env, recognizer, exec, supplied).executor.afterImages == loop.images;
    CaptureAfterValues(tables.itemTables, exec.beforeImages, supplied, record, exec.afterImages);
  }

  // ---------------------------------------------------------------------------
  // The whole statement
  // ---------------------------------------------------------------------------

  /** The outcome of both image steps on a fresh executor, the after step being given
      `supplied` as the caller's before image. */
  function BothImages(env: Collaborators, recognizer: UpdateRecognizer, supplied: Option<TableRecords>): Outcome {
    var before := BeforeImage(env, recognizer, NewExecutor());
    AfterImage(env, recognizer, before.executor, supplied)
  }

  /** Preparing the undo log after both image steps on a fresh executor. */
  function StatementUndo(env: Collaborators, recognizer: UpdateRecognizer, supplied: Option<TableRecords>): UndoPreparation {
    PrepareUndoLog(BothImages(env, recognizer, supplied).executor)
  }

  /** A statement with an empty table name captures nothing, and preparing its undo log
      forwards no pair and raises nothing. */
  lemma EmptyTableNameNoUndo(env: Collaborators, recognizer: UpdateRecognizer, supplied: Option<TableRecords>)
    requires |recognizer.tableName| == 0
    ensures BeforeImage(env, recognizer, NewExecutor()).result == Success(None)
    ensures BothImages(env, recognizer, supplied) == Outcome(NewExecutor(), Success(None))
    ensures StatementUndo(env, recognizer, supplied) == UndoPreparation([], None)
  {
    var r := PrepareUndoLog(NewExecutor());
    assert |r.forwarded| <= 0;
  }

  /** On a fresh executor with distinct item tables, `beforeImage` leaves a before map that
      lists the item tables in order with their before images, and an empty after map. */
  lemma FreshBeforeImage(env: Collaborators, recognizer: UpdateRecognizer)
    requires HasTables(recognizer)
    requires NoDuplicates(ItemTables(recognizer))
    ensures var exec := BeforeImage(env, recognizer, NewExecutor()).executor;
            && exec.Valid()
            && exec.beforeImages.keys == ItemTables(recognizer)
            && exec.afterImages.keys == []
            && forall i :: 0 <= i < |ItemTables(recognizer)| ==>
                 exec.beforeImages.Get(ItemTables(recognizer)[i]) == Some(ItemBefores(env, recognizer)[i])
  {
    BeforeImageOrder(env, recognizer, NewExecutor());
    BeforeImageValues(env, recognizer, NewExecutor());
  }

  /** On an executor with an empty after map and a before image for each of the distinct
      item tables, `afterImage` succeeds whatever the caller supplies, and its after map
      lists the item tables in order, each with the primary-key query keyed by the
      executor's own before image of that table. */
  lemma AfterImageOnCaptured(env: Collaborators, recognizer: UpdateRecognizer, exec: Executor, supplied: Option<TableRecords>)
    requires exec.Valid()
    requires HasTables(recognizer)
    requires NoDuplicates(ItemTables(recognizer))
    requires exec.afterImages.keys == []
    requires forall i :: 0 <= i < |ItemTables(recognizer)| ==> exec.beforeImages.Get(ItemTables(recognizer)[i]).Some?
    ensures var r := AfterImage(env, recognizer, exec, supplied);
            && r.result.Success?
            && r.executor.afterImages.keys == ItemTables(recognizer)
            && forall i :: 0 <= i < |ItemTables(recognizer)| ==>
                 var t := ItemTables(recognizer)[i];
                 r.executor.afterImages.Get(t)
                   == Some(AfterRecord(env, recognizer, UnionTable(recognizer), t, exec.beforeImages.Get(t).value))
  {
    var items := ItemTables(recognizer);
    var r := AfterImage(env, recognizer, exec, supplied);
    FirstMissingNone(items, exec.beforeImages, supplied);
    assert r.result.Success? by {
      FirstMissingAll(items, exec.beforeImages, supplied);
    }
    assert r.executor.afterImages.keys == items by {
      AfterImageOrder(env, recognizer, exec, supplied);
    }
    forall i | 0 <= i < |items|
      ensures r.executor.afterImages.Get(items[i])
                == Some(AfterRecord(env, recognizer, UnionTable(recognizer), items[i], exec.beforeImages.Get(items[i]).value))
    {
      AfterImageValues(env, recognizer, exec, supplied);
    }
  }

  /** On a fresh executor with distinct item tables, both image steps succeed whatever the
      caller supplies: the before map and the after map list the item tables in order, and
      each table's after image is the primary-key query keyed by its own before image. */
  lemma CaptureBothImages(env: Collaborators, recognizer: UpdateRecognizer, supplied: Option<TableRecords>)
    requires HasTables(recognizer)
    requires NoDuplicates(ItemTables(recognizer))
    ensures BothImages(env, recognizer, supplied).result.Success?
    ensures var exec := BothImages(env, recognizer, supplied).executor;
            && exec.Valid()
            && exec.beforeImages.keys == ItemTables(recognizer)
            && exec.afterImages.keys == ItemTables(recognizer)
            && forall i :: 0 <= i < |ItemTables(recognizer)| ==>
                 var t := ItemTables(recognizer)[i];
                 && exec.beforeImages.Get(t) == Some(ItemBefores(env, recognizer)[i])
                 && exec.afterImages.Get(t) == Some(ItemAfters(env, recognizer)[i])
  {
    var before := BeforeImage(env, recognizer, NewExecutor()).executor;
    FreshBeforeImage(env, recognizer);
    AfterImageOnCaptured(env, recognizer, before, supplied);
  }

  /** `p` is what preparing the undo log over the pairs (`befores[i]`, `afters[i]`) comes to:
      it succeeds exactly when every pair has as many after rows as before rows, then
      forwarding the pairs in order, and otherwise raises the size-mismatch exception. */
  predicate ForwardsPairs(p: UndoPreparation, befores: seq<TableRecords>, afters: seq<TableRecords>) {
    && |befores| == |afters|
    && (p.error.None? <==> forall i :: 0 <= i < |afters| ==> |afters[i].rows| == |befores[i].rows|)
    && (p.error.None? ==>
          && |p.forwarded| == |afters|
          && forall i :: 0 <= i < |p.forwarded| ==> p.forwarded[i] == ImagePair(befores[i], afters[i]))
    && (p.error.Some? ==> p.error == Some(ShouldNeverHappen(SizeMismatchMessage)))
  }

  /** The loop of `prepareUndoLog` over `tables`, with `befores[i]` and `afters[i]` stored
      under `tables[i]`, forwards exactly those pairs or stops at a size mismatch. */
  lemma PrepareUndoLogPairs(exec: Executor, tables: seq<string>, befores: seq<TableRecords>, afters: seq<TableRecords>)
    requires |befores| == |tables| && |afters| == |tables|
    requires forall i :: 0 <= i < |tables| ==>
               exec.beforeImages.Get(tables[i]) == Some(befores[i]) && exec.afterImages.Get(tables[i]) == Some(afters[i])
    ensures forall t :: t in tables ==> t in exec.beforeImages.entries
    ensures ForwardsPairs(PrepareFrom(exec, tables), befores, afters)
  {
    forall i | 0 <= i < |tables|
      ensures tables[i] in exec.beforeImages.entries && tables[i] in exec.afterImages.entries
      ensures Consistent(exec, tables[i]) <==> |afters[i].rows| == |befores[i].rows|
      ensures PairOf(exec, tables[i]) == ImagePair(befores[i], afters[i])
    {
      assert exec.beforeImages.Get(tables[i]).Some? && exec.afterImages.Get(tables[i]).Some?;
    }
    var p := PrepareFrom(exec, tables);
    assert (forall t :: t in tables ==> Consistent(exec, t))
       <==> (forall i :: 0 <= i < |tables| ==> Consistent(exec, tables[i]));
    if p.error.Some? {
      assert tables[|p.forwarded|] in exec.afterImages.entries;
    }
  }

  /** `prepareUndoLog` on an executor whose before map lists `tables` in order, with
      `befores[i]` and `afters[i]` stored under `tables[i]`. */
  lemma PrepareCaptured(exec: Executor, tables: seq<string>, befores: seq<TableRecords>, afters: seq<TableRecords>)
    requires exec.Valid()
    requires exec.beforeImages.keys == tables
    requires |befores| == |tables| && |afters| == |tables|
    requires forall i :: 0 <= i < |tables| ==>
               exec.beforeImages.Get(tables[i]) == Some(befores[i]) && exec.afterImages.Get(tables[i]) == Some(afters[i])
    ensures ForwardsPairs(PrepareUndoLog(exec), befores, afters)
  {
    PrepareUndoLogPairs(exec, tables, befores, afters);
  }

  /** After both image steps on a fresh executor with distinct item tables, preparing the
      undo log succeeds exactly when every item table's primary-key query returns as many
      rows as its before image holds; it then forwards one (before, after) pair per item
      table in order, and otherwise raises the size-mismatch exception. */
  lemma PrepareAfterCapture(env: Collaborators, recognizer: UpdateRecognizer, supplied: Option<TableRecords>)
    requires HasTables(recognizer)
    requires NoDuplicates(ItemTables(recognizer))
    ensures BothImages(env, recognizer, supplied).result.Success?
    ensures ForwardsPairs(StatementUndo(env, recognizer, supplied), ItemBefores(env, recognizer), ItemAfters(env, recognizer))
  {
    var exec := BothImages(env, recognizer, supplied).executor;
    CaptureBothImages(env, recognizer, supplied);
    PrepareCaptured(exec, ItemTables(recognizer), ItemBefores(env, recognizer), ItemAfters(env, recognizer));
  }

  /** If every primary-key query returns as many rows as it was given key values, the whole
      statement's undo log is prepared without error from one pair per item table. */
  lemma PrepareSucceedsWhenKeysKept(env: Collaborators, recognizer: UpdateRecognizer, supplied: Option<TableRecords>)
    requires HasTables(recognizer)
    requires NoDuplicates(ItemTables(recognizer))
    requires forall sql, rows, pks :: |env.queryByPks(sql, rows, pks)| == |rows|
    ensures BothImages(env, recognizer, supplied).result.Success?
    ensures var p := StatementUndo(env, recognizer, supplied);
            p.error.None? && |p.forwarded| == |ItemTables(recognizer)|
  {
    var befores := ItemBefores(env, recognizer);
    var afters := ItemAfters(env, recognizer);
    PrepareAfterCapture(env, recognizer, supplied);
    forall i | 0 <= i < |afters|
      ensures |afters[i].rows| == |befores[i].rows|
    {
      assert afters[i] == AfterRecord(env, recognizer, UnionTable(recognizer), ItemTables(recognizer)[i], befores[i]);
    }
  }

}

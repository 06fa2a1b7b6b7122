/** A worked single-table statement, `UPDATE accounts SET balance = 100 WHERE id = 1` on
    `accounts(id, name, balance)` keyed by `id`, with the only-care switch off and a dialect
    that needs no escaping. */
module AccountsScenario {

  import opened Options
  import opened Text
  import opened Records
  import opened SelectSql
  import opened UpdateSql

  const Accounts := TableMeta("accounts", ["id", "name", "balance"], ["id"], [])

  /** The collaborators of the example; the statement's WHERE is `id = 1` and takes no
      parameters, it has no ORDER BY or LIMIT, and the key condition is `id = ?` whatever
      the number of before rows. */
  const Env := Collaborators(
    false,
    t => Accounts,
    (t, columns) => "id" in columns,
    (alias, columns) => Join(", ", columns),
    (meta: TableMeta) => meta.primaryKeys,
    c => c,
    (keys, rows) => "id = ?",
    params => Built("id = 1", params),
    params => Built("", params),
    params => Built("", params),
    (sql, params) => [],
    (sql, rows, keys) => rows)

  const Statement := UpdateRecognizer("accounts", ["accounts"], ["balance"], t => t)

  /** The column list of `accounts`, joined the way the select list is. */
  lemma AccountsJoin()
    ensures Join(", ", ["id", "name", "balance"]) == "id, name, balance"
  {
    var columns: seq<string> := ["id", "name", "balance"];
    var two: seq<string> := ["id", "name"];
    assert columns[..2] == two && two[..1] == ["id"];
    assert Join(", ", two) == "id" + ", " + "name";
  }

  /** Both image queries select every declared column of `accounts`, in declaration order. */
  lemma AccountsColumns()
    ensures SelectColumns(Env, Statement, "accounts") == ["id", "name", "balance"]
    ensures Head(SelectColumns(Env, Statement, "accounts"), "accounts") == "SELECT id, name, balance FROM accounts"
  {
    var columns := SelectColumns(Env, Statement, "accounts");
    SelectColumnsAllDeclared(Env, Statement, "accounts");
    assert Accounts.allColumns == ["id", "name", "balance"];
    assert |columns| == 3 && columns[0] == "id" && columns[1] == "name" && columns[2] == "balance";
    assert columns == ["id", "name", "balance"];
    AccountsHeadText();
  }

  /** One round of the example's condition builders on an empty parameter list. */
  lemma AccountsRound()
    ensures ConditionRound(Env, []) == Round(Conditions("id = 1", "", ""), [])
  {
  }

  /** The head of both image queries of the example. */
  lemma AccountsHeadText()
    ensures Head(["id", "name", "balance"], "accounts") == "SELECT id, name, balance FROM accounts"
  {
    AccountsJoin();
  }

  lemma LockedTextPieces()
    ensures "SELECT id, name, balance FROM accounts" + " WHERE id = 1" + "" + "" + " FOR UPDATE"
            == "SELECT id, name, balance FROM accounts WHERE id = 1 FOR UPDATE"
  {
  }

  /** The text of the locking query for `id = 1` over the three columns. */
  lemma AccountsLockedText()
    ensures Render(Select(["id", "name", "balance"], "accounts", Some("id = 1"), None, None, true))
              == "SELECT id, name, balance FROM accounts WHERE id = 1 FOR UPDATE"
  {
    var q := Select(["id", "name", "balance"], "accounts", Some("id = 1"), None, None, true);
    AccountsHeadText();
    assert Clause(WhereKeyword, q.where) == " WHERE id = 1";
    assert Render(q) == "SELECT id, name, balance FROM accounts" + " WHERE id = 1" + "" + "" + " FOR UPDATE";
    LockedTextPieces();
  }

  /** The before-image query keeps the statement's WHERE and locks the rows; the builders
      add no parameters. */
  lemma AccountsBeforeQuery()
    ensures ConditionRound(Env, []).params == []
    ensures Render(BeforeImageQuery(Env, Statement, "accounts", "accounts", ConditionRound(Env, []).conditions))
              == "SELECT id, name, balance FROM accounts WHERE id = 1 FOR UPDATE"
  {
    AccountsRound();
    AccountsColumns();
    assert !IsBlank("id = 1") by {
      assert "id = 1"[0] == 'i' && !IsWhitespace('i');
    }
    assert IsBlank("");
    var q := BeforeImageQuery(Env, Statement, "accounts", "accounts", Conditions("id = 1", "", ""));
    assert q == Select(["id", "name", "balance"], "accounts", Some("id = 1"), None, None, true);
    AccountsLockedText();
  }

  /** The after-image query reads the same columns keyed by `id`, without a lock. */
  lemma AccountsAfterQuery(before: TableRecords)
    ensures Render(AfterImageQuery(Env, Statement, "accounts", "accounts", before))
              == "SELECT id, name, balance FROM accounts WHERE id = ?"
  {
    AccountsColumns();
    var q := AfterImageQuery(Env, Statement, "accounts", "accounts", before);
    assert q.where == Some("id = ?");
    assert Render(q) == "SELECT id, name, balance FROM accounts" + " WHERE " + "id = ?" + "" + "" + "";
  }

}

/** The SELECT statements the image builders generate, as structure and as text. */
module SelectSql {

  import opened Options
  import opened Text

  /** `WHERE` as the executor's base class spells it, with a space on each side. */
  const WhereKeyword := " WHERE "

  const ForUpdate := " FOR UPDATE"

  datatype Select = Select(
    columns: seq<string>,
    from: string,
    where: Option<string>,
    orderBy: Option<string>,
    limit: Option<string>,
    forUpdate: bool)

  /** `SELECT <columns> FROM <table>`: the part every image query begins with. */
  function Head(columns: seq<string>, from: string): string {
    "SELECT " + Join(", ", columns) + " FROM " + from
  }

  function Clause(before: string, fragment: Option<string>): string {
    match fragment
    case None => ""
    case Some(f) => before + f
  }

  /** The statement's text: head, then WHERE, ORDER BY and LIMIT where present, then the
      row lock where asked for. */
  function Render(q: Select): string {
    Head(q.columns, q.from)
    + Clause(WhereKeyword, q.where) + Clause(" ", q.orderBy) + Clause(" ", q.limit)
    + (if q.forUpdate then ForUpdate else "")
  }

  /** A statement is `SELECT `, the joined columns, and what follows the columns. */
  lemma RenderSplit(q: Select, suffix: string)
    requires suffix == " FROM " + q.from + Clause(WhereKeyword, q.where) + Clause(" ", q.orderBy)
                       + Clause(" ", q.limit) + (if q.forUpdate then ForUpdate else "")
    ensures Render(q) == "SELECT " + Join(", ", q.columns) + suffix
  {
    var start := "SELECT " + Join(", ", q.columns);
    var from := " FROM " + q.from;
    var where := from + Clause(WhereKeyword, q.where);
    var orderBy := where + Clause(" ", q.orderBy);
    var limit := orderBy + Clause(" ", q.limit);
    var lock := if q.forUpdate then ForUpdate else "";
    Associative(start, " FROM ", q.from);
    Associative(start, from, Clause(WhereKeyword, q.where));
    Associative(start, where, Clause(" ", q.orderBy));
    Associative(start, orderBy, Clause(" ", q.limit));
    Associative(start, limit, lock);
  }

  lemma Associative(a: string, b: string, c: string)
    ensures (a + b) + c == a + (b + c)
  {
  }

  /** Every rendered statement starts with its head; a locking one ends with the lock,
      and an unlocked one with only a WHERE clause ends with that clause. */
  lemma RenderShape(q: Select)
    ensures StartsWith(Render(q), "SELECT ")
    ensures StartsWith(Render(q), Head(q.columns, q.from))
    ensures q.forUpdate ==> EndsWith(Render(q), ForUpdate)
    ensures (!q.forUpdate && q.orderBy.None? && q.limit.None? && q.where.Some?) ==>
              EndsWith(Render(q), WhereKeyword + q.where.value)
  {
    var head := Head(q.columns, q.from);
    var body := head + Clause(WhereKeyword, q.where) + Clause(" ", q.orderBy) + Clause(" ", q.limit);
    var sql := Render(q);
    assert sql == body + (if q.forUpdate then ForUpdate else "");
    assert sql[..|head|] == head;
    assert head[..7] == "SELECT ";
    assert sql[..7] == head[..7];
    if q.forUpdate {
      EndsWithConcat(body, ForUpdate);
    } else if q.orderBy.None? && q.limit.None? && q.where.Some? {
      assert sql == head + (WhereKeyword + q.where.value);
      EndsWithConcat(head, WhereKeyword + q.where.value);
    }
  }

}

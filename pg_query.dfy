/**
 * The `query` function of server/config/database.js: one interface over
 * MySQL and PostgreSQL. On PostgreSQL the MySQL-style statement is
 * rewritten before it is sent: every `?` becomes `$1`, `$2`, ... from left
 * to right, and an INSERT without a RETURNING clause has `RETURNING id`
 * appended. The returned id is copied to `insertId` on the driver's result,
 * which is the second element of the pair `query` resolves to; the callers
 * in gameModel.js read `insertId` from the first element, which on
 * PostgreSQL is the array of rows. The drivers and the connection pools are
 * left out; the model computes what is sent and what each caller reads.
 */
module PgQuery {
  import opened Wrappers
  import opened Text

  /**
   * The placeholder rewrite where the next placeholder gets number `k`:
   * each `?` becomes `$` and at least one digit.
   */
  function Rewrite(s: string, k: nat): (r: string)
    ensures |r| >= |s| + CountChar('?', s)
    decreases |s|
  {
    if s == [] then []
    else if s[0] == '?' then "$" + NatToString(k) + Rewrite(s[1..], k + 1)
    else [s[0]] + Rewrite(s[1..], k)
  }

  /** `sql.replace(/\?/g, () => `$${index++}`)`, with `index` starting at 1. */
  method RewritePlaceholders(sql: string) returns (pgSql: string)
    ensures pgSql == Rewrite(sql, 1)
  {
    var index: nat := 1;
    var i := 0;
    pgSql := [];
    while i < |sql|
      invariant 0 <= i <= |sql|
      invariant pgSql + Rewrite(sql[i..], index) == Rewrite(sql, 1)
    {
      assert sql[i..][1..] == sql[i + 1..];
      var piece := if sql[i] == '?' then "$" + NatToString(index) else [sql[i]];
      assert Rewrite(sql[i..], index) == piece + Rewrite(sql[i + 1..], if sql[i] == '?' then index + 1 else index);
      assert pgSql + Rewrite(sql[i..], index) == (pgSql + piece) + Rewrite(sql[i + 1..], if sql[i] == '?' then index + 1 else index);
      pgSql := pgSql + piece;
      if sql[i] == '?' {
        index := index + 1;
      }
      i := i + 1;
    }
    assert sql[i..] == [];
  }

  /** No `?` survives the rewrite, including any inside string literals. */
  lemma {:induction false} RewriteLeavesNoMark(s: string, k: nat)
    ensures '?' !in Rewrite(s, k)
    decreases |s|
  {
    if s != [] {
      RewriteLeavesNoMark(s[1..], if s[0] == '?' then k + 1 else k);
      if s[0] == '?' {
        var d := NatToString(k);
        assert forall i :: 0 <= i < |d| ==> IsDigit(d[i]);
      }
    }
  }

  /** A statement without placeholders is sent unchanged. */
  lemma {:induction false} RewriteWithoutMarks(s: string, k: nat)
    requires '?' !in s
    ensures Rewrite(s, k) == s
    decreases |s|
  {
    if s != [] {
      assert s[0] in s;
      assert forall c :: c in s[1..] ==> c in s;
      RewriteWithoutMarks(s[1..], k);
    }
  }

  /** Numbering runs left to right: the placeholders of `b` continue after those of `a`. */
  lemma {:induction false} RewriteAppend(a: string, b: string, k: nat)
    ensures Rewrite(a + b, k) == Rewrite(a, k) + Rewrite(b, k + CountChar('?', a))
    decreases |a|
  {
    if a == [] {
      assert a + b == b;
    } else {
      assert (a + b)[1..] == a[1..] + b;
      RewriteAppend(a[1..], b, if a[0] == '?' then k + 1 else k);
    }
  }

  /** `/^\s*INSERT\s+INTO/i`. */
  predicate IsInsert(s: string) {
    var t := TrimStart(s);
    |t| > 6 && LowerStr(t[..6]) == "insert" && IsJsSpace(t[6]) && StartsWith(LowerStr(TrimStart(t[6..])), "into")
  }

  /** `/RETURNING/i`. */
  predicate HasReturning(s: string) {
    Contains(LowerStr(s), "returning")
  }

  /** Trim, drop one trailing `;`, and append `RETURNING id` with no separating space. */
  function AppendReturning(s: string): (r: string)
    ensures |r| >= 12 && r[|r| - 12..] == "RETURNING id"
  {
    var t := Trim(s);
    (if t != [] && t[|t| - 1] == ';' then t[..|t| - 1] else t) + "RETURNING id"
  }

  /** The statement sent to PostgreSQL: no `?` is left, and every INSERT has a RETURNING clause. */
  function PgStatement(sql: string): (r: string)
    ensures '?' !in r
    ensures IsInsert(Rewrite(sql, 1)) ==> HasReturning(r)
  {
    var s := Rewrite(sql, 1);
    RewriteLeavesNoMark(sql, 1);
    if IsInsert(s) && !HasReturning(s) then
      AppendReturningChars(s);
      AppendedHasReturning(s);
      AppendReturning(s)
    else s
  }

  /** Statements other than RETURNING-less INSERTs only have their placeholders rewritten. */
  lemma PgStatementOtherwise(sql: string)
    requires !IsInsert(Rewrite(sql, 1)) || HasReturning(Rewrite(sql, 1))
    ensures PgStatement(sql) == Rewrite(sql, 1)
  {
  }

  /** A string ending in `RETURNING id` has a RETURNING clause, in any case. */
  lemma AppendedHasReturning(s: string)
    ensures HasReturning(AppendReturning(s))
  {
    EndsWithReturning(AppendReturning(s));
  }

  lemma EndsWithReturning(r: string)
    requires |r| >= 12 && r[|r| - 12..] == "RETURNING id"
    ensures HasReturning(r)
  {
    var n := |r| - 12;
    var lower := LowerStr(r);
    assert lower[n..n + 9] == "returning" by {
      forall j | 0 <= j < 9 ensures lower[n + j] == "returning"[j] {
        assert r[n + j] == "RETURNING id"[j];
      }
    }
    ContainsAt(lower, "returning", n);
  }

  /** The appended statement keeps only characters of its input and of `RETURNING id`. */
  lemma AppendReturningChars(s: string)
    requires '?' !in s
    ensures '?' !in AppendReturning(s)
  {
    var t := Trim(s);
    TrimKeepsAbsent('?', s);
    var body := if t != [] && t[|t| - 1] == ';' then t[..|t| - 1] else t;
    assert '?' !in body by {
      if t != [] && t[|t| - 1] == ';' {
        SliceKeepsAbsent('?', t, 0, |t| - 1);
      }
    }
    assert AppendReturning(s) == body + "RETURNING id";
    assert '?' !in "RETURNING id";
  }

  /** Rewriting a statement that was already rewritten changes nothing. */
  lemma {:induction false} PgStatementIdempotent(sql: string)
    ensures PgStatement(PgStatement(sql)) == PgStatement(sql)
  {
    var s := Rewrite(sql, 1);
    RewriteLeavesNoMark(sql, 1);
    var p := PgStatement(sql);
    if IsInsert(s) && !HasReturning(s) {
      AppendReturningChars(s);
      AppendedHasReturning(s);
      RewriteWithoutMarks(p, 1);
    } else {
      RewriteWithoutMarks(s, 1);
    }
  }

  /** The rewrite of the PostgreSQL branch, step by step as `query` does it. */
  method PrepareStatement(sql: string) returns (pgSql: string)
    ensures pgSql == PgStatement(sql)
  {
    pgSql := RewritePlaceholders(sql);
    if IsInsert(pgSql) && !HasReturning(pgSql) {
      pgSql := AppendReturning(pgSql);
    }
  }

  /**
   * MySQL's insertId, emulated: the first returned row's id when the
   * command was an INSERT, some row came back and the id is truthy (0
   * standing for a missing id).
   */
  function InsertId(command: string, ids: seq<int>): (r: Option<int>)
    ensures r.Some? <==> command == "INSERT" && |ids| > 0 && ids[0] != 0
    ensures r.Some? ==> r.value == ids[0] && r.value != 0
  {
    if command == "INSERT" && |ids| > 0 && ids[0] != 0 then Some(ids[0]) else None
  }

  datatype DbType = MySql | PostgreSql

  /** What `query` hands to the driver: MySQL gets the statement and the parameters untouched. */
  function Sent<P>(db: DbType, sql: string, params: seq<P>): (r: (string, seq<P>))
    ensures r.1 == params
    ensures db == MySql ==> r.0 == sql
    ensures db == PostgreSql ==> r.0 == PgStatement(sql)
  {
    match db
    case MySql => (sql, params)
    case PostgreSql => (PgStatement(sql), params)
  }

  /**
   * One element of the pair `query` resolves to: a result header with its
   * `insertId` (None when the property is undefined), the array of returned
   * rows (an array has no `insertId`), or undefined.
   */
  datatype Element = Header(insertId: Option<int>) | RowList(ids: seq<int>) | Undefined

  /**
   * The pair `query` resolves to after a write. MySQL's `execute` gives the
   * result header, whose insertId is the AUTO_INCREMENT value `autoId`, and
   * no field list. PostgreSQL gives `[result.rows, result]`, the result
   * carrying the emulated insertId.
   */
  function WriteReply(db: DbType, command: string, autoId: int, ids: seq<int>): (r: (Element, Element))
    ensures r.1.Undefined? <==> db == MySql
    ensures r.0.Header? <==> db == MySql
  {
    match db
    case MySql => (Header(Some(autoId)), Undefined)
    case PostgreSql => (RowList(ids), Header(InsertId(command, ids)))
  }

  /** `const [result] = await query(...)`, then `result.insertId`, as the callers in gameModel.js read it. */
  function FirstInsertId(r: (Element, Element)): (id: Option<int>)
    ensures id.Some? ==> r.0.Header?
  {
    if r.0.Header? then r.0.insertId else None
  }

  /**
   * `const [, result] = await query(...)`, then `result.insertId`, as
   * createPokemon in pokemonModel.js reads it: a property of undefined
   * throws.
   */
  function SecondInsertId(r: (Element, Element)): (id: Result<Option<int>, string>)
    ensures id.Err? <==> r.1.Undefined?
  {
    match r.1
    case Header(i) => Ok(i)
    case RowList(_) => Ok(None)
    case Undefined => Err("Cannot read properties of undefined (reading 'insertId')")
  }

  /** gameModel.js gets the new id on MySQL and undefined on PostgreSQL, whatever the rows returned. */
  lemma GameModelInsertId(command: string, autoId: int, ids: seq<int>)
    ensures FirstInsertId(WriteReply(MySql, command, autoId, ids)) == Some(autoId)
    ensures FirstInsertId(WriteReply(PostgreSql, command, autoId, ids)) == None
  {
  }

  /** pokemonModel.js throws on MySQL and gets the emulated insertId on PostgreSQL. */
  lemma PokemonModelInsertId(command: string, autoId: int, ids: seq<int>)
    ensures SecondInsertId(WriteReply(MySql, command, autoId, ids)).Err?
    ensures SecondInsertId(WriteReply(PostgreSql, command, autoId, ids)) == Ok(InsertId(command, ids))
  {
  }

  /** Two placeholders, numbered from 1. */
  lemma RewriteExample()
    ensures Rewrite("?, ?", 1) == "$1, $2"
  {
    assert NatToString(1) == "1" && NatToString(2) == "2";
    assert Rewrite("?", 2) == "$2";
    assert Rewrite(" ?", 2) == " $2";
    assert Rewrite(", ?", 2) == ", $2";
  }
}

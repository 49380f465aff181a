/** The result normaliser: `pgQuery` (server/config/database.js:78-96), the query
    of a Postgres session (127-139) and SQLite's `runQuery` (259-275). Each turns
    the native driver result into the mysql2 shape: the rows for a SELECT, an
    `{insertId, affectedRows}` summary for anything else. The drivers themselves
    are parameters. */
module Executor {
  import opened Common
  import opened Text
  import opened Positional
  import opened Dialect

  /** A result row: column name to value. */
  type Row = map<string, Value>

  /** What every backend's `query` resolves to (the first element of mysql2's pair). */
  datatype Shaped = Rows(rows: seq<Row>) | Summary(insertId: Value, affectedRows: int)

  /** What the `pg` driver resolves to. */
  datatype PgResult = PgResult(rows: seq<Row>, rowCount: nat)

  /** What better-sqlite3's `run` returns. */
  datatype RunInfo = RunInfo(lastInsertRowid: int, changes: nat)

  /** The statement, without leading whitespace and upper-cased, starts with `word`. */
  predicate Begins(sql: string, word: string) {
    StartsWith(Upper(TrimStart(sql)), word)
  }

  predicate IsSelect(sql: string) {
    Begins(sql, "SELECT")
  }

  /** An INSERT that does not mention RETURNING anywhere. */
  predicate NeedsReturning(sql: string) {
    Begins(sql, "INSERT") && !Contains(Upper(TrimStart(sql)), "RETURNING")
  }

  /** The text `pgQuery` sends: ` RETURNING id` appended to a bare INSERT. */
  function PgFinal(sql: string): string {
    if NeedsReturning(sql) then TrimEnd(sql) + " RETURNING id" else sql
  }

  /** `result.rows?.[0]?.id ?? null`. */
  function InsertIdOf(rows: seq<Row>): Value {
    if |rows| > 0 && "id" in rows[0] then rows[0]["id"] else Null
  }

  /** The rows for a SELECT; otherwise the first returned `id` (or null) and the row count. */
  function PgShape(select: bool, res: PgResult): (r: Shaped)
    ensures r.Rows? <==> select
    ensures r.Rows? ==> r.rows == res.rows
    ensures r.Summary? ==> r.affectedRows == res.rowCount
    ensures r.Summary? && r.insertId != Null ==> |res.rows| > 0 && "id" in res.rows[0] && r.insertId == res.rows[0]["id"]
    ensures r.Summary? && |res.rows| > 0 && "id" in res.rows[0] ==> r.insertId == res.rows[0]["id"]
    ensures r.Summary? && (|res.rows| == 0 || "id" !in res.rows[0]) ==> r.insertId == Null
  {
    if select then Rows(res.rows) else Summary(InsertIdOf(res.rows), res.rowCount)
  }

  /** `pgQuery(sql, params)` over the pool's `query`. */
  function PgQuery(sql: string, params: seq<Value>, pool: Statement -> Result<PgResult>): (r: Result<Shaped>)
    ensures r.Ok? ==> (r.value.Rows? <==> IsSelect(sql))
    ensures r.Err? <==> pool(ToPositional(PgFinal(sql), params)).Err?
  {
    match pool(ToPositional(PgFinal(sql), params))
    case Err(m) => Err(m)
    case Ok(res) => Ok(PgShape(IsSelect(sql), res))
  }

  /** `db.query` on Postgres: the statement is translated first. */
  function PgDbQuery(sql: string, params: seq<Value>, pool: Statement -> Result<PgResult>): (r: Result<Shaped>)
    ensures r.Ok? ==> (r.value.Rows? <==> IsSelect(ToPostgres(sql)))
    ensures r.Err? <==> pool(ToPositional(PgFinal(ToPostgres(sql)), params)).Err?
  {
    PgQuery(ToPostgres(sql), params, pool)
  }

  /** The text a Postgres session sends: the translation, with ` RETURNING id`
      when the ORIGINAL statement is a bare INSERT. */
  function PgSessionText(sql: string): string {
    var t := ToPostgres(sql);
    if NeedsReturning(sql) then TrimEnd(t) + " RETURNING id" else t
  }

  /** `query` of a Postgres session over its client; classified on the original text. */
  function PgSessionQuery(sql: string, params: seq<Value>, client: Statement -> Result<PgResult>): (r: Result<Shaped>)
    ensures r.Ok? ==> (r.value.Rows? <==> IsSelect(sql))
  {
    match client(ToPositional(PgSessionText(sql), params))
    case Err(m) => Err(m)
    case Ok(res) => Ok(PgShape(IsSelect(sql), res))
  }

  /** What `runQuery` returns for the translated text `converted`, with better-sqlite3's
      `all` and `run` as parameters. */
  function SqliteShape(converted: string, params: seq<Value>,
                       all: (string, seq<Value>) -> Result<seq<Row>>,
                       run: (string, seq<Value>) -> Result<RunInfo>): (r: Result<Shaped>)
    ensures r.Ok? ==> (r.value.Rows? <==> IsSelect(converted))
    ensures r.Ok? && r.value.Rows? ==> all(converted, params).Ok? && r.value.rows == all(converted, params).value
    ensures r.Err? <==> if IsSelect(converted) then all(converted, params).Err? else run(converted, params).Err?
    ensures r.Ok? && !IsSelect(converted) ==>
              run(converted, params).Ok? &&
              r.value == Summary(Int(run(converted, params).value.lastInsertRowid), run(converted, params).value.changes)
  {
    if IsSelect(converted) then
      match all(converted, params)
      case Err(m) => Err(m)
      case Ok(rows) => Ok(Rows(rows))
    else
      match run(converted, params)
      case Err(m) => Err(m)
      case Ok(info) => Ok(Summary(Int(info.lastInsertRowid), info.changes))
  }

  /** `runQuery`: translate, then classify the translated text. */
  method RunQuery(sql: string, params: seq<Value>,
                  all: (string, seq<Value>) -> Result<seq<Row>>,
                  run: (string, seq<Value>) -> Result<RunInfo>) returns (r: Result<Shaped>)
    ensures r == SqliteShape(SqliteText(sql), params, all, run)
  {
    var converted := ToSQLite(sql);
    r := SqliteShape(converted, params, all, run);
  }

  // ---------------------------------------------------------------------------
  // Properties

  /** Where a statement that starts, after whitespace, with `n` non-space
      characters begins and ends once trimmed at both ends. */
  lemma {:induction false} TrimmedBounds(sql: string, n: nat)
    requires 0 < n <= |TrimStart(sql)|
    requires forall k :: 0 <= k < n ==> !IsSpace(TrimStart(sql)[k])
    ensures SkipSpace(sql, 0) + n <= |TrimEnd(sql)|
  {
    var a := SkipSpace(sql, 0);
    var e := |TrimEnd(sql)|;
    assert TrimStart(sql)[n - 1] == sql[a + n - 1];
  }

  /** Trimming the start of `t + w` keeps all of `w` when `t` is not blank. */
  lemma {:induction false} TrimStartAppend(t: string, w: string)
    requires SkipSpace(t, 0) < |t|
    ensures TrimStart(t + w) == TrimStart(t) + w
  {
    var a := SkipSpace(t, 0);
    var y := t + w;
    forall k | 0 <= k < a ensures IsSpace(y[k]) {
      assert y[k] == t[k];
    }
    assert y[a] == t[a];
    assert SkipSpace(y, 0) == a;
    assert y[a..] == t[a..] + w;
  }

  /** Trimming the end first does not move the start of a statement that is not blank. */
  lemma {:induction false} TrimEndKeepsStart(sql: string)
    requires SkipSpace(sql, 0) < |TrimEnd(sql)|
    ensures SkipSpace(TrimEnd(sql), 0) == SkipSpace(sql, 0)
  {
    var a := SkipSpace(sql, 0);
    var t := TrimEnd(sql);
    forall k | 0 <= k < a ensures IsSpace(t[k]) {
      assert t[k] == sql[k];
    }
    assert t[a] == sql[a];
  }

  /** The first six characters of a statement that begins with INSERT are not blank. */
  lemma {:induction false} InsertWord(sql: string)
    requires Begins(sql, "INSERT")
    ensures 6 <= |TrimStart(sql)| && forall k :: 0 <= k < 6 ==> !IsSpace(TrimStart(sql)[k])
  {
    var s0 := TrimStart(sql);
    forall k | 0 <= k < 6 ensures !IsSpace(s0[k]) {
      assert UpperChar(s0[k]) == Upper(s0)[k] == "INSERT"[k];
    }
  }

  /** The text `pgQuery` builds for a bare INSERT, trimmed and upper-cased, still
      starts with INSERT and has RETURNING at index `i`. */
  lemma {:induction false} AppendedText(sql: string) returns (i: nat)
    requires Begins(sql, "INSERT")
    ensures var u := Upper(TrimStart(TrimEnd(sql) + " RETURNING id"));
      StartsWith(u, "INSERT") && OccursAt(u, i, "RETURNING")
  {
    i := AppendedShape(sql);
    UpperParts(TrimStart(sql), TrimStart(TrimEnd(sql) + " RETURNING id"), i);
  }

  /** The trimmed text keeps the first six characters of the statement and ends
      with the appended clause, whose RETURNING starts at `i`. */
  lemma {:induction false} AppendedShape(sql: string) returns (i: nat)
    requires Begins(sql, "INSERT")
    ensures var z := TrimStart(TrimEnd(sql) + " RETURNING id");
      6 < i && i + 12 == |z| && z[..6] == TrimStart(sql)[..6] && z[i - 1..] == " RETURNING id"
  {
    var a := TrimmedAppend(sql);
    i := |TrimEnd(sql)| - a + 1;
    ClauseAfter(sql, TrimEnd(sql), a, TrimStart(TrimEnd(sql) + " RETURNING id"));
  }

  /** `z`, the statement's text from `a` to the end of its prefix `t` followed by
      the clause, shares its first six characters with `sql[a..]`. */
  lemma {:induction false} ClauseAfter(sql: string, t: string, a: nat, z: string)
    requires |t| <= |sql| && t == sql[..|t|] && a + 6 <= |t|
    requires z == t[a..] + " RETURNING id"
    ensures z[..6] == sql[a..][..6] && z[|t| - a..] == " RETURNING id"
  {
    forall k | 0 <= k < 6 ensures z[k] == sql[a..][k] {
      assert z[k] == t[a + k] == sql[a + k];
    }
  }

  /** Trimming the statement with the clause appended drops the same leading
      blanks, `a` of them, as trimming the statement alone. */
  lemma {:induction false} TrimmedAppend(sql: string) returns (a: nat)
    requires Begins(sql, "INSERT")
    ensures a == SkipSpace(sql, 0) && a + 6 <= |TrimEnd(sql)|
    ensures TrimStart(TrimEnd(sql) + " RETURNING id") == TrimEnd(sql)[a..] + " RETURNING id"
  {
    a := SkipSpace(sql, 0);
    InsertWord(sql);
    TrimmedBounds(sql, 6);
    TrimEndKeepsStart(sql);
    TrimStartAppend(TrimEnd(sql), " RETURNING id");
  }

  /** The upper-cased text agrees with `s0` on its first six characters and spells
      RETURNING at `i`. */
  lemma {:induction false} UpperParts(s0: string, z: string, i: nat)
    requires 6 <= |s0| && StartsWith(Upper(s0), "INSERT")
    requires 6 < i && i + 12 == |z| && z[..6] == s0[..6] && z[i - 1..] == " RETURNING id"
    ensures StartsWith(Upper(z), "INSERT") && OccursAt(Upper(z), i, "RETURNING")
  {
    var u := Upper(z);
    forall k | 0 <= k < 6 ensures u[k] == "INSERT"[k] {
      assert z[k] == s0[k];
      assert Upper(s0)[k] == UpperChar(s0[k]);
    }
    forall k | 0 <= k < 9 ensures u[i + k] == "RETURNING"[k] {
      assert z[i + k] == z[i - 1..][1 + k] == " RETURNING id"[1 + k];
    }
  }

  /** The statement `pgQuery` sends for a bare INSERT is still an INSERT, and it now
      mentions RETURNING, so appending is done at most once. */
  lemma {:induction false} ReturningOnce(sql: string)
    requires NeedsReturning(sql)
    ensures PgFinal(sql) == TrimEnd(sql) + " RETURNING id"
    ensures Begins(PgFinal(sql), "INSERT") && !NeedsReturning(PgFinal(sql))
  {
    var i := AppendedText(sql);
    var u := Upper(TrimStart(TrimEnd(sql) + " RETURNING id"));
    IndexOfSpec(u, "RETURNING", 0);
  }

  /** Appending ` RETURNING id` is idempotent. */
  lemma {:induction false} PgFinalIdempotent(sql: string)
    ensures PgFinal(PgFinal(sql)) == PgFinal(sql)
  {
    if NeedsReturning(sql) {
      ReturningOnce(sql);
    }
  }

  /** An upper-cased text that spells RETURNING somewhere mentions it. */
  lemma {:induction false} UpperMentions(w: string, i: nat)
    requires OccursAt(w, i, "RETURNING")
    ensures Contains(Upper(w), "RETURNING")
  {
    var u := Upper(w);
    forall k | 0 <= k < 9 ensures u[i + k] == "RETURNING"[k] {
      assert w[i + k] == w[i..i + 9][k];
    }
    assert OccursAt(u, i, "RETURNING");
    IndexOfSpec(u, "RETURNING", 0);
  }

  /** Whatever `t` is, even blank, the text with ` RETURNING id` appended to its
      trimmed end mentions RETURNING once its start is trimmed and it is upper-cased. */
  lemma {:induction false} AppendedMentionsReturning(t: string)
    ensures Contains(Upper(TrimStart(TrimEnd(t) + " RETURNING id")), "RETURNING")
  {
    var u := TrimEnd(t);
    var w := " RETURNING id";
    if SkipSpace(u, 0) < |u| {
      TrimStartAppend(u, w);
      ClauseMentioned(TrimStart(u), w);
    } else {
      BlankAppend(u, w);
      ClauseMentioned([], w);
      assert [] + w[1..] == w[1..];
    }
  }

  /** `v + " RETURNING id"`, or its tail past the blank, spells RETURNING. */
  lemma {:induction false} ClauseMentioned(v: string, w: string)
    requires w == " RETURNING id"
    ensures Contains(Upper(v + w), "RETURNING") && Contains(Upper(w[1..]), "RETURNING")
  {
    assert (v + w)[|v| + 1..|v| + 10] == w[1..10];
    UpperMentions(v + w, |v| + 1);
    assert w[1..][0..9] == w[1..10];
    UpperMentions(w[1..], 0);
  }

  /** Trimming the start of a blank text followed by `w` drops the blank and the
      first character of `w` when that one is a blank and the next is not. */
  lemma {:induction false} BlankAppend(u: string, w: string)
    requires SkipSpace(u, 0) == |u| && |w| >= 2 && IsSpace(w[0]) && !IsSpace(w[1])
    ensures TrimStart(u + w) == w[1..]
  {
    var z := u + w;
    forall k | 0 <= k < |u| + 1 ensures IsSpace(z[k]) {
      if k < |u| {
        assert z[k] == u[k];
      }
    }
    assert z[|u| + 1] == w[1];
    assert SkipSpace(z, 0) == |u| + 1;
    assert z[|u| + 1..] == w[1..];
  }

  /** A Postgres session appends ` RETURNING id` to the TRANSLATED text when the
      original statement is a bare INSERT, and the text it sends then mentions
      RETURNING, so no second clause could be appended. */
  lemma {:induction false} SessionReturningOnce(sql: string)
    requires NeedsReturning(sql)
    ensures PgSessionText(sql) == TrimEnd(ToPostgres(sql)) + " RETURNING id"
    ensures !NeedsReturning(PgSessionText(sql))
  {
    AppendedMentionsReturning(ToPostgres(sql));
  }

  /** Where translating does not change how the statement is classified, a session's
      `query` sends and returns exactly what `db.query` does. */
  lemma SessionAgreesWithDbQuery(sql: string, params: seq<Value>, client: Statement -> Result<PgResult>)
    requires NeedsReturning(ToPostgres(sql)) == NeedsReturning(sql)
    requires IsSelect(ToPostgres(sql)) == IsSelect(sql)
    ensures PgSessionText(sql) == PgFinal(ToPostgres(sql))
    ensures PgSessionQuery(sql, params, client) == PgDbQuery(sql, params, client)
  {
  }
}

/** The SQL dialect translators: `toPostgres` (server/config/database.js:99-119)
    and `toSQLite` (server/config/database.js:239-257), each a fixed chain of
    passes over the statement text. MySQL runs statements untranslated. */
module Dialect {
  import opened Common
  import opened Text
  import opened Regex
  import opened Scanner

  // ---------------------------------------------------------------------------
  // PostgreSQL

  const PgCurdate := Literal("CURDATE()", "CURRENT_DATE")
  const PgIntervalPre := "CURRENT_DATE - INTERVAL '"
  const PgIntervalPost := " days'"
  const PgDateSub := DateSub(["CURDATE()", "CURRENT_DATE"], PgIntervalPre, PgIntervalPost)
  const PgDate := FirstParen("DATE", true, "(", ")::date")
  const PgMonth := FirstParen("MONTH", true, "EXTRACT(MONTH FROM ", ")")
  const PgYear := FirstParen("YEAR", true, "EXTRACT(YEAR  FROM ", ")")
  const PgWeek := FirstParen("WEEK", true, "EXTRACT(WEEK  FROM ", ")")

  /** The first three passes of `toPostgres`: identifiers, `CURDATE()`, `NOW()`. */
  function PgDates(sql: string): string {
    Rewrite(NowWord, Rewrite(PgCurdate, Rewrite(Backticks, sql)))
  }

  /** `toPostgres`: the passes in the order the source applies them. */
  function ToPostgres(sql: string): string {
    var s := Rewrite(PgDate, Rewrite(PgDateSub, PgDates(sql)));
    Rewrite(InsertIgnore, Rewrite(PgWeek, Rewrite(PgYear, Rewrite(PgMonth, s))))
  }

  /** After the `CURDATE()` pass no `CURDATE()` is left, whatever its case: the
      replacement `CURRENT_DATE` cannot form one with the text around it, and the
      `NOW()` pass only changes letter case. */
  lemma {:induction false} PgDatesNoCurdate(sql: string)
    ensures Absent(PgDates(sql), 0, "CURDATE()")
  {
    var s1 := Rewrite(Backticks, sql);
    assert SeparatedCheck("CURDATE()", "CURRENT_DATE");
    SeparatedCheckSound("CURDATE()", "CURRENT_DATE");
    LiteralLeavesAbsent("CURDATE()", "CURRENT_DATE", "CURDATE()", s1, 0);
    CaseOnlyKeepsAbsent(NowWord, Rewrite(PgCurdate, s1), "CURDATE()");
  }

  /** Because `CURDATE()` is rewritten first, the `CURDATE()` alternative of the
      DATE_SUB pattern never matches: the pass behaves as if it only knew
      `CURRENT_DATE`. */
  lemma {:induction false} PgCurdateAlternativeDead(sql: string)
    ensures Rewrite(PgDateSub, PgDates(sql))
         == Rewrite(DateSub(["CURRENT_DATE"], PgIntervalPre, PgIntervalPost), PgDates(sql))
  {
    var s := PgDates(sql);
    PgDatesNoCurdate(sql);
    DateSubDropAnchor("CURDATE()", ["CURRENT_DATE"], PgIntervalPre, PgIntervalPost, s);
    assert ["CURDATE()"] + ["CURRENT_DATE"] == ["CURDATE()", "CURRENT_DATE"];
  }

  /** `DATE(x)` in PostgreSQL takes `x` only up to the first `)`: on
      `DATE(` + `x` where `x[q]` is the first `)`, the match is `x[..q]`, even when
      that leaves a parenthesis of `x` unclosed. */
  lemma {:induction false} PgDateFirstParen(x: string, q: nat)
    requires 0 < q < |x| && x[q] == ')'
    requires forall k :: 0 <= k < q ==> x[k] != ')'
    ensures MatchAt(PgDate, "DATE(" + x, 0) == Some(Match("(" + x[..q] + ")::date", q + 6))
  {
    var s := "DATE(" + x;
    assert MatchesCIAt(s, 0, "DATE");
    IndexOfSpec(s, ")", 5);
    assert OccursAt(s, q + 5, ")");
    forall k | 5 <= k < q + 5 ensures !OccursAt(s, k, ")") {
      assert s[k] == x[k - 5];
    }
    assert s[5..q + 5] == x[..q];
  }

  // ---------------------------------------------------------------------------
  // SQLite

  const SqliteCurdate := Literal("CURDATE()", "date('now')")
  const SqliteNow := Literal("NOW()", "datetime('now')")
  const SqliteIntervalPre := "date('now','-"
  const SqliteIntervalPost := " days')"
  const SqliteDateSubCurdate := DateSub(["CURDATE()"], SqliteIntervalPre, SqliteIntervalPost)
  const SqliteDateSubNow := DateSub(["date('now')"], SqliteIntervalPre, SqliteIntervalPost)
  const SqliteDate := FirstParen("DATE", false, "date(", ")")
  const MonthTemplate := "CAST(strftime('%m',$1) AS INTEGER)"
  const YearTemplate := "CAST(strftime('%Y',$1) AS INTEGER)"
  const WeekTemplate := "CAST(strftime('%W',$1) AS INTEGER)"

  /** The first two passes of `toSQLite`: `CURDATE()` and `NOW()`. */
  function SqliteDates(sql: string): string {
    Rewrite(SqliteNow, Rewrite(SqliteCurdate, sql))
  }

  /** The regex passes of `toSQLite`, up to and including `DATE(x)`. */
  function SqlitePasses(sql: string): string {
    Rewrite(SqliteDate, Rewrite(SqliteDateSubNow, Rewrite(SqliteDateSubCurdate, SqliteDates(sql))))
  }

  /** The three `replaceFn` passes of `toSQLite`. */
  function SqliteFields(s: string): string {
    ReplaceFnSpec(ReplaceFnSpec(ReplaceFnSpec(s, "MONTH", MonthTemplate), "YEAR", YearTemplate), "WEEK", WeekTemplate)
  }

  /** What `toSQLite` returns. */
  function SqliteText(sql: string): string {
    SqliteFields(SqlitePasses(sql))
  }

  /** `toSQLite`: the regex passes, then the scanner for `MONTH`, `YEAR`, `WEEK`. */
  method ToSQLite(sql: string) returns (r: string)
    ensures r == SqliteText(sql)
  {
    var s := SqlitePasses(sql);
    s := ReplaceFn(s, "MONTH", MonthTemplate);
    s := ReplaceFn(s, "YEAR", YearTemplate);
    r := ReplaceFn(s, "WEEK", WeekTemplate);
  }

  /** After the first two passes no `CURDATE()` is left in any letter case. */
  lemma {:induction false} SqliteDatesNoCurdate(sql: string)
    ensures Absent(SqliteDates(sql), 0, "CURDATE()")
  {
    assert SeparatedCheck("CURDATE()", "date('now')");
    SeparatedCheckSound("CURDATE()", "date('now')");
    LiteralLeavesAbsent("CURDATE()", "date('now')", "CURDATE()", sql, 0);
    var s1 := Rewrite(SqliteCurdate, sql);
    NowTextSeparated();
    LiteralLeavesAbsent("NOW()", "datetime('now')", "CURDATE()", s1, 0);
  }

  /** `datetime('now')` can neither contain `CURDATE()` nor complete one. */
  lemma NowTextSeparated()
    ensures Separated("CURDATE()", "datetime('now')")
  {
    assert TailsClash("datetime('now')", "CURDATE()", 10);
    assert TailsClash("datetime('now')", "CURDATE()", 5);
    assert TailsClash("datetime('now')", "CURDATE()", 0);
    assert SeparatedCheck("CURDATE()", "datetime('now')");
    SeparatedCheckSound("CURDATE()", "datetime('now')");
  }

  /** The `DATE_SUB(CURDATE(), ...)` pass never changes anything: by then every
      `CURDATE()` has become `date('now')`, and the following pass is the one that
      rewrites DATE_SUB. */
  lemma {:induction false} SqliteCurdateIntervalDead(sql: string)
    ensures Rewrite(SqliteDateSubCurdate, SqliteDates(sql)) == SqliteDates(sql)
  {
    SqliteDatesNoCurdate(sql);
    DateSubNoAnchor(["CURDATE()"], SqliteIntervalPre, SqliteIntervalPost, SqliteDates(sql));
  }

  /** The SQLite `DATE(x)` pass only changes letter case. */
  lemma {:induction false} SqliteDateCaseOnly(s: string)
    ensures Upper(Rewrite(SqliteDate, s)) == Upper(s)
  {
    RewriteCaseOnly(SqliteDate, s, 0);
    assert s[0..] == s;
  }

  /** Where every `DATE(` is already written `date(`, as in the `date('now', ...)`
      calls the earlier passes produce, the `DATE(x)` pass leaves the text as it is. */
  lemma {:induction false} SqliteDateIdentity(s: string)
    requires forall j :: 0 <= j && MatchesCIAt(s, j, "DATE(") ==> s[j..j + 4] == "date"
    ensures Rewrite(SqliteDate, s) == s
  {
    forall j | 0 <= j < |s|
      ensures FixedAt(SqliteDate, s, j)
    {
      LowerDateFixed(s, j);
    }
    RewriteFixed(SqliteDate, s, 0);
    assert s[0..] == s;
  }

  /** A `date(` match is replaced by itself. */
  lemma {:induction false} LowerDateFixed(s: string, j: nat)
    requires j < |s|
    requires MatchesCIAt(s, j, "DATE(") ==> s[j..j + 4] == "date"
    ensures FixedAt(SqliteDate, s, j)
  {
    if MatchAt(SqliteDate, s, j).Some? {
      var m := MatchAt(SqliteDate, s, j).value;
      IndexOfSpec(s, ")", j + 5);
      var c := IndexOf(s, ")", j + 5).value;
      assert m == Match("date(" + s[j + 5..c] + ")", c + 1);
      assert MatchesCIAt(s, j, "DATE(") by {
        forall k | 0 <= k < 5 ensures EqCI(s[j + k], "DATE("[k]) {
          if k < 4 {
            assert EqCI(s[j + k], "DATE"[k]);
          }
        }
      }
      assert s[j..c + 1] == s[j..j + 4] + [s[j + 4]] + s[j + 5..c] + [s[c]];
    }
  }

  /** The MONTH template puts an argument without `$` in verbatim. */
  lemma MonthTemplateOn(x: string)
    requires forall k :: 0 <= k < |x| ==> x[k] != '$'
    ensures Instantiate(MonthTemplate, x) == "CAST(strftime('%m'," + x + ") AS INTEGER)"
  {
    var pre := "CAST(strftime('%m',";
    assert MonthTemplate == pre + "$1" + ") AS INTEGER)";
    assert forall k :: 0 <= k < |pre| ==> pre[k] != '$';
    InstantiatePlain(pre, ") AS INTEGER)", x);
  }

  /** A call nested in `MONTH(...)`, such as the `date('now')` that the `CURDATE()`
      pass makes of `MONTH(CURDATE())`, is kept whole inside the SQLite expression. */
  lemma {:induction false} NestedMonth(s: string, f: string, x: string)
    requires s == "MONTH(" + f + "(" + x + "))"
    requires ParenFree(f) && ParenFree(x)
    requires forall k :: 0 <= k < |f| ==> f[k] != '$'
    requires forall k :: 0 <= k < |x| ==> x[k] != '$'
    ensures ReplaceFnSpec(s, "MONTH", MonthTemplate) == "CAST(strftime('%m'," + (f + "(" + x + ")") + ") AS INTEGER)"
  {
    var arg := f + "(" + x + ")";
    CallBalanced(f, x);
    assert s == "MONTH" + "(" + arg + ")";
    ReplaceFnWhole(s, "MONTH", MonthTemplate, arg);
    forall k | 0 <= k < |arg| ensures arg[k] != '$' {
      if k < |f| {
        assert arg[k] == f[k];
      } else if |f| < k <= |f| + |x| {
        assert arg[k] == x[k - |f| - 1];
      }
    }
    MonthTemplateOn(arg);
  }

  // ---------------------------------------------------------------------------

  /** The text a backend runs for statement `sql`. */
  method Translate(backend: Backend, sql: string) returns (r: string)
    ensures backend == Postgres ==> r == ToPostgres(sql)
    ensures backend == MySql ==> r == sql
    ensures backend == Sqlite ==> r == SqliteText(sql)
  {
    match backend
    case Postgres => r := ToPostgres(sql);
    case MySql => r := sql;
    case Sqlite => r := ToSQLite(sql);
  }
}

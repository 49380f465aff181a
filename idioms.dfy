/** What the two translators make of the MySQL date idioms the controllers use:
    `DATE_SUB(CURDATE(), INTERVAL n DAY)` and `MONTH(...)`, `YEAR(...)`,
    `WEEK(...)` (server/config/database.js:99-119 and 239-257), and what `toPostgres`
    makes of `DATE(x)`, backtick-quoted identifiers and `INSERT IGNORE INTO`. Each statement
    here is a whole pipeline run, put together pass by pass. */
module Idioms {
  import opened Common
  import opened Text
  import opened Regex
  import opened Scanner
  import opened Dialect

  /** A decimal day count as MySQL writes it: one digit or more. */
  predicate Digits(n: string) {
    |n| > 0 && forall k :: 0 <= k < |n| ==> IsDigit(n[k])
  }

  /** `DATE_SUB(anchor, INTERVAL n DAY)`, the date `n` days before `anchor`. */
  function DaysAgo(anchor: string, n: string): string {
    "DATE_SUB(" + anchor + ", INTERVAL " + n + " DAY)"
  }

  // ---------------------------------------------------------------------------
  // Where a pattern cannot match

  /** A fixed-text pattern fails where its `d`-th character is missing. */
  lemma LiteralMisses(pat: string, rep: string, s: string, j: nat, d: nat)
    requires j < |s| && d < |pat|
    requires j + |pat| <= |s| ==> !EqCI(s[j + d], pat[d])
    ensures MatchAt(Literal(pat, rep), s, j).None?
  {
  }

  /** `NAME(` fails where no `(` follows the name, or the name is not there. */
  lemma FirstParenMisses(name: string, boundary: bool, pre: string, post: string, s: string, j: nat)
    requires j < |s|
    requires j + |name| < |s| ==> s[j + |name|] != '(' || !MatchesCIAt(s, j, name)
    ensures MatchAt(FirstParen(name, boundary, pre, post), s, j).None?
  {
  }

  /** A text without `(` is left alone by every `NAME(...)` pass. */
  lemma {:induction false} FirstParenNone(name: string, boundary: bool, pre: string, post: string, s: string)
    requires forall k :: 0 <= k < |s| ==> s[k] != '('
    ensures Rewrite(FirstParen(name, boundary, pre, post), s) == s
  {
    forall j | 0 <= j < |s| ensures MatchAt(FirstParen(name, boundary, pre, post), s, j).None? {
      FirstParenMisses(name, boundary, pre, post, s, j);
    }
    RewriteNone(FirstParen(name, boundary, pre, post), s);
  }

  /** `INSERT IGNORE INTO` needs a blank right after an `INSERT`. */
  lemma {:induction false} InsertIgnoreNone(s: string)
    requires forall j :: 0 <= j && j + 6 < |s| && IsSpace(s[j + 6]) ==> !MatchesCIAt(s, j, "INSERT")
    ensures Rewrite(InsertIgnore, s) == s
  {
    forall j | 0 <= j < |s| ensures MatchAt(InsertIgnore, s, j).None? {
      if MatchesCIAt(s, j, "INSERT") {
        assert j + 6 < |s| ==> !IsSpace(s[j + 6]);
      }
    }
    RewriteNone(InsertIgnore, s);
  }

  /** A text without a backtick keeps its identifiers as they are. */
  lemma {:induction false} BackticksNone(s: string)
    requires forall k :: 0 <= k < |s| ==> s[k] != '`'
    ensures Rewrite(Backticks, s) == s
  {
    RewriteNone(Backticks, s);
  }

  // ---------------------------------------------------------------------------
  // The DATE_SUB idiom

  /** `SkipDigits` stops right after the digits `n` written at `i`. */
  lemma {:induction false} SkipDigitsOver(s: string, i: nat, n: string)
    requires Digits(n) && i + |n| < |s| && s[i..i + |n|] == n && !IsDigit(s[i + |n|])
    ensures SkipDigits(s, i) == i + |n|
  {
    var g := SkipDigits(s, i);
    forall k | i <= k < i + |n| ensures IsDigit(s[k]) {
      assert s[k] == n[k - i];
    }
    assert g <= i + |n|;
  }

  /** The part after the anchor, `, INTERVAL n DAY)`, closes the match at the
      end of the text and captures `n`. */
  lemma {:induction false} IntervalTail(s: string, c: nat, n: string, pre: string, post: string)
    requires Digits(n) && c <= |s| && s[c..] == ", INTERVAL " + n + " DAY)"
    ensures AfterAnchor(s, c, pre, post) == Some(Match(pre + n + post, |s|))
  {
    IntervalChars(s, c, n);
    IntervalSteps(s, c, n, pre, post);
  }

  /** The characters of `, INTERVAL n DAY)` that the pattern looks at. */
  lemma {:induction false} IntervalChars(s: string, c: nat, n: string)
    requires Digits(n) && c <= |s| && s[c..] == ", INTERVAL " + n + " DAY)"
    ensures var g := c + 11 + |n|;
      && |s| == g + 5 && s[c] == ',' && s[c + 1] == ' ' && s[c + 10] == ' '
      && MatchesCIAt(s, c + 2, "INTERVAL") && s[c + 11..g] == n
      && s[g] == ' ' && MatchesCIAt(s, g + 1, "DAY") && s[g + 4] == ')'
  {
    var t := ", INTERVAL " + n + " DAY)";
    var g := c + 11 + |n|;
    forall k | 0 <= k < 8 ensures s[c + 2 + k] == "INTERVAL"[k] {
      assert s[c + 2 + k] == t[2 + k];
    }
    forall k | 0 <= k < |n| ensures s[c + 11 + k] == n[k] {
      assert s[c + 11 + k] == t[11 + k];
    }
    assert s[g..] == t[11 + |n|..] == " DAY)";
    assert s[c..c + 11] == t[..11];
  }

  /** How the pattern walks over `, INTERVAL n DAY)` once its characters are known. */
  lemma {:induction false} IntervalSteps(s: string, c: nat, n: string, pre: string, post: string)
    requires Digits(n)
    requires var g := c + 11 + |n|;
      && |s| == g + 5 && s[c] == ',' && s[c + 1] == ' ' && s[c + 10] == ' '
      && MatchesCIAt(s, c + 2, "INTERVAL") && s[c + 11..g] == n
      && s[g] == ' ' && MatchesCIAt(s, g + 1, "DAY") && s[g + 4] == ')'
    ensures AfterAnchor(s, c, pre, post) == Some(Match(pre + n + post, |s|))
  {
    var g := c + 11 + |n|;
    IntervalScans(s, c, n);
    IntervalStartAt(s, c, c, c + 2);
    AfterIntervalAt(s, c + 10, pre, post, c + 11, g, g + 1, g + 4);
    AnchorThenInterval(s, c, c + 10, pre, post);
  }

  /** Where the scans of the pattern stop on `, INTERVAL n DAY)`. */
  lemma {:induction false} IntervalScans(s: string, c: nat, n: string)
    requires Digits(n)
    requires var g := c + 11 + |n|;
      && |s| == g + 5 && s[c] == ',' && s[c + 1] == ' ' && s[c + 10] == ' '
      && MatchesCIAt(s, c + 2, "INTERVAL") && s[c + 11..g] == n
      && s[g] == ' ' && MatchesCIAt(s, g + 1, "DAY") && s[g + 4] == ')'
    ensures var g := c + 11 + |n|;
      && SkipSpace(s, c) == c && SkipSpace(s, c + 1) == c + 2 && SkipSpace(s, c + 10) == c + 11
      && SkipDigits(s, c + 11) == g && SkipSpace(s, g) == g + 1 && SkipSpace(s, g + 4) == g + 4
  {
    var g := c + 11 + |n|;
    assert !IsSpace(s[c + 2]) && !IsSpace(s[c + 11]) && !IsSpace(s[g + 1]) by {
      assert EqCI(s[c + 2 + 0], "INTERVAL"[0]) && EqCI(s[g + 1 + 0], "DAY"[0]);
      assert s[c + 11] == s[c + 11..g][0] == n[0];
    }
    assert SkipSpace(s, c) == c;
    assert SkipSpace(s, c + 1) == c + 2;
    assert SkipSpace(s, c + 10) == c + 11;
    SkipDigitsOver(s, c + 11, n);
    assert SkipSpace(s, g) == g + 1;
    assert SkipSpace(s, g + 4) == g + 4;
  }

  /** Where `, INTERVAL` follows the anchor, `IntervalStart` finds its end. */
  lemma IntervalStartAt(s: string, c: nat, d: nat, e: nat)
    requires c <= |s| && SkipSpace(s, c) == d && d < |s| && s[d] == ','
    requires d + 1 <= |s| && SkipSpace(s, d + 1) == e && MatchesCIAt(s, e, "INTERVAL")
    ensures IntervalStart(s, c) == Some(e + 8)
  {
  }

  /** `AfterAnchor` hands over to `AfterInterval` where `IntervalStart` finds `, INTERVAL`. */
  lemma AnchorThenInterval(s: string, c: nat, x: nat, pre: string, post: string)
    requires c <= |s| && IntervalStart(s, c) == Some(x)
    ensures AfterAnchor(s, c, pre, post) == AfterInterval(s, x, pre, post)
  {
  }

  /** `AfterInterval` once the positions its scans stop at are known. */
  lemma AfterIntervalAt(s: string, c: nat, pre: string, post: string, f: nat, g: nat, h: nat, k: nat)
    requires c <= |s| && SkipSpace(s, c) == f && f != c
    requires SkipDigits(s, f) == g && g != f
    requires SkipSpace(s, g) == h && h != g && MatchesCIAt(s, h, "DAY")
    requires SkipSpace(s, h + 3) == k && k < |s| && s[k] == ')'
    ensures f <= g <= |s| && AfterInterval(s, c, pre, post) == Some(Match(pre + s[f..g] + post, k + 1))
  {
  }

  /** `NOW()` fails where its `d`-th character is missing. */
  lemma NowMisses(s: string, j: nat, d: nat)
    requires j < |s| && d < 5
    requires j + 5 <= |s| ==> !EqCI(s[j + d], "NOW()"[d])
    ensures MatchAt(NowWord, s, j).None?
  {
  }

  /** The anchors the passes leave in a DATE_SUB call hold no backtick. */
  lemma AnchorPlain(anchor: string)
    requires anchor == "CURDATE()" || anchor == "CURRENT_DATE" || anchor == "date('now')"
    ensures forall k :: 0 <= k < |anchor| ==> anchor[k] != '`'
  {
    if anchor == "CURDATE()" {
      assert forall k :: 0 <= k < |"CURDATE()"| ==> "CURDATE()"[k] != '`';
    } else if anchor == "CURRENT_DATE" {
      assert forall k :: 0 <= k < |"CURRENT_DATE"| ==> "CURRENT_DATE"[k] != '`';
    } else {
      assert forall k :: 0 <= k < |"date('now')"| ==> "date('now')"[k] != '`';
    }
  }

  /** The characters of `DATE_SUB(anchor, INTERVAL n DAY)` the passes look at. */
  lemma {:induction false} DaysAgoChars(anchor: string, n: string)
    requires forall k :: 0 <= k < |anchor| ==> anchor[k] != '`'
    requires Digits(n)
    ensures var s := DaysAgo(anchor, n);
      && (forall k :: 0 <= k < |s| ==> s[k] != '`')
      && (forall k :: 0 <= k < |s| && s[k] == '(' ==> k == 8 || (9 <= k < 9 + |anchor| && anchor[k - 9] == '('))
      && s[..9] == "DATE_SUB(" && s[9..9 + |anchor|] == anchor
      && s[9 + |anchor|..] == ", INTERVAL " + n + " DAY)"
  {
    var s := DaysAgo(anchor, n);
    var a := "DATE_SUB(";
    var t := ", INTERVAL " + n + " DAY)";
    assert s == a + anchor + t;
    forall k | 0 <= k < |t| ensures t[k] != '`' && t[k] != '(' {
      if 11 <= k < 11 + |n| {
        assert t[k] == n[k - 11];
      }
    }
    forall k | 0 <= k < |s|
      ensures s[k] != '`' && (s[k] == '(' ==> k == 8 || (9 <= k < 9 + |anchor| && anchor[k - 9] == '('))
    {
      if k < 9 {
        assert s[k] == a[k];
      } else if k < 9 + |anchor| {
        assert s[k] == anchor[k - 9];
      } else {
        assert s[k] == t[k - 9 - |anchor|];
      }
    }
    assert s[9 + |anchor|..] == t;
  }

  /** The first three passes of `toPostgres` turn either anchor into `CURRENT_DATE`. */
  lemma {:induction false} PgDaysAgoDates(anchor: string, n: string)
    requires anchor == "CURDATE()" || anchor == "CURRENT_DATE"
    requires Digits(n)
    ensures PgDates(DaysAgo(anchor, n)) == DaysAgo("CURRENT_DATE", n)
  {
    var s0 := DaysAgo(anchor, n);
    AnchorPlain(anchor);
    DaysAgoChars(anchor, n);
    BackticksNone(s0);
    PgCurdateOnDaysAgo(anchor, n);
    var s1 := DaysAgo("CURRENT_DATE", n);
    AnchorPlain("CURRENT_DATE");
    DaysAgoChars("CURRENT_DATE", n);
    forall j | 0 <= j < |s1| ensures MatchAt(NowWord, s1, j).None? {
      NowMisses(s1, j, if j == 5 then 0 else 3);
    }
    RewriteNone(NowWord, s1);
  }

  /** The `CURDATE()` pass of `toPostgres` on the DATE_SUB idiom. */
  lemma {:induction false} PgCurdateOnDaysAgo(anchor: string, n: string)
    requires anchor == "CURDATE()" || anchor == "CURRENT_DATE"
    requires Digits(n)
    ensures Rewrite(PgCurdate, DaysAgo(anchor, n)) == DaysAgo("CURRENT_DATE", n)
  {
    var s := DaysAgo(anchor, n);
    AnchorPlain(anchor);
    DaysAgoChars(anchor, n);
    if anchor == "CURDATE()" {
      CurdateReplaced("CURRENT_DATE", n);
    } else {
      forall j | 0 <= j < |s| ensures MatchAt(PgCurdate, s, j).None? {
        LiteralMisses("CURDATE()", "CURRENT_DATE", s, j, if j == 1 then 0 else if j == 9 then 3 else 7);
      }
      RewriteNone(PgCurdate, s);
    }
  }

  /** The DATE_SUB pass of `toPostgres` matches the whole idiom. */
  lemma {:induction false} PgDateSubOnDaysAgo(n: string)
    requires Digits(n)
    ensures Rewrite(PgDateSub, DaysAgo("CURRENT_DATE", n)) == PgIntervalPre + n + PgIntervalPost
  {
    var s := DaysAgo("CURRENT_DATE", n);
    AnchorPlain("CURRENT_DATE");
    DaysAgoChars("CURRENT_DATE", n);
    DaysAgoHead(s, "CURRENT_DATE");
    assert !MatchesCIAt(s, 9, "CURDATE()") by {
      assert s[9 + 3] == s[9..21][3] == 'R';
      assert !EqCI(s[9 + 3], "CURDATE()"[3]);
    }
    IntervalTail(s, 21, n, PgIntervalPre, PgIntervalPost);
    SecondAnchor(s, "CURDATE()", "CURRENT_DATE", PgIntervalPre, PgIntervalPost);
    DateSubWhole(s, ["CURDATE()", "CURRENT_DATE"], PgIntervalPre, PgIntervalPost, PgIntervalPre + n + PgIntervalPost);
  }

  /** The head `DATE_SUB(anchor` of the idiom. */
  lemma {:induction false} DaysAgoHead(s: string, anchor: string)
    requires 10 + |anchor| <= |s| && |anchor| > 0 && !IsSpace(anchor[0])
    requires s[..9] == "DATE_SUB(" && s[9..9 + |anchor|] == anchor
    ensures MatchesCIAt(s, 0, "DATE_SUB") && s[8] == '(' && !IsSpace(s[9]) && MatchesCIAt(s, 9, anchor)
  {
    assert s[9] == s[9..9 + |anchor|][0];
    forall k | 0 <= k < |anchor| ensures s[9 + k] == anchor[k] {
      assert s[9 + k] == s[9..9 + |anchor|][k];
    }
  }

  /** The alternation settles on the second anchor when only that one is there. */
  lemma SecondAnchor(s: string, a0: string, a1: string, pre: string, post: string)
    requires 9 + |a1| <= |s| && !MatchesCIAt(s, 9, a0) && MatchesCIAt(s, 9, a1)
    ensures DateSubTail(s, 9, [a0, a1], pre, post) == AfterAnchor(s, 9 + |a1|, pre, post)
  {
    assert [a0, a1][1..] == [a1];
    assert [a1][1..] == [];
  }

  /** A DATE_SUB match that starts at 0 and ends at the end replaces the text. */
  lemma {:induction false} DateSubWhole(s: string, anchors: seq<string>, pre: string, post: string, r: string)
    requires 9 < |s| && MatchesCIAt(s, 0, "DATE_SUB") && s[8] == '(' && !IsSpace(s[9])
    requires DateSubTail(s, 9, anchors, pre, post) == Some(Match(r, |s|))
    ensures Rewrite(DateSub(anchors, pre, post), s) == r
  {
    assert SkipSpace(s, 8) == 8 && SkipSpace(s, 9) == 9;
    RewriteOnce(DateSub(anchors, pre, post), s, 0, Match(r, |s|));
  }

  /** Nothing in `CURRENT_DATE - INTERVAL 'n days'` is touched by the last five
      passes of `toPostgres`. */
  lemma {:induction false} PgIntervalKept(n: string)
    requires Digits(n)
    ensures var o := PgIntervalPre + n + PgIntervalPost;
      Rewrite(InsertIgnore, Rewrite(PgWeek, Rewrite(PgYear, Rewrite(PgMonth, Rewrite(PgDate, o))))) == o
  {
    var o := PgIntervalPre + n + PgIntervalPost;
    forall k | 0 <= k < |o| ensures o[k] != '(' && (EqCI(o[k], 'S') ==> k == |o| - 2) {
      if k < |PgIntervalPre| {
        assert o[k] == PgIntervalPre[k];
      } else if k < |PgIntervalPre| + |n| {
        assert o[k] == n[k - |PgIntervalPre|];
      } else {
        assert o[k] == PgIntervalPost[k - |PgIntervalPre| - |n|];
      }
    }
    FirstParenNone("DATE", true, "(", ")::date", o);
    FirstParenNone("MONTH", true, "EXTRACT(MONTH FROM ", ")", o);
    FirstParenNone("YEAR", true, "EXTRACT(YEAR  FROM ", ")", o);
    FirstParenNone("WEEK", true, "EXTRACT(WEEK  FROM ", ")", o);
    forall j | 0 <= j < |o| ensures !MatchesCIAt(o, j, "INSERT") {
      assert j + 6 > |o| || !EqCI(o[j + 2], "INSERT"[2]);
    }
    InsertIgnoreNone(o);
  }

  /** `toPostgres` turns `DATE_SUB(CURDATE(), INTERVAL n DAY)`, and the same with
      `CURRENT_DATE`, into PostgreSQL's `CURRENT_DATE - INTERVAL 'n days'`. */
  lemma {:induction false} PgDaysAgo(anchor: string, n: string)
    requires anchor == "CURDATE()" || anchor == "CURRENT_DATE"
    requires Digits(n)
    ensures ToPostgres(DaysAgo(anchor, n)) == "CURRENT_DATE - INTERVAL '" + n + " days'"
  {
    PgDaysAgoDates(anchor, n);
    PgDateSubOnDaysAgo(n);
    PgIntervalKept(n);
  }

  /** The `CURDATE()` pass on the idiom with `CURDATE()` replaces that anchor only. */
  lemma {:induction false} CurdateReplaced(rep: string, n: string)
    requires Digits(n)
    ensures Rewrite(Literal("CURDATE()", rep), DaysAgo("CURDATE()", n)) == DaysAgo(rep, n)
  {
    var s := DaysAgo("CURDATE()", n);
    AnchorPlain("CURDATE()");
    DaysAgoChars("CURDATE()", n);
    forall j | 0 <= j < |s| && j != 9 ensures MatchAt(Literal("CURDATE()", rep), s, j).None? {
      LiteralMisses("CURDATE()", rep, s, j, if j == 1 then 0 else 7);
    }
    assert MatchAt(Literal("CURDATE()", rep), s, 9) == Some(Match(rep, 18));
    RewriteOnce(Literal("CURDATE()", rep), s, 9, Match(rep, 18));
    assert s[..9] + rep + s[18..] == DaysAgo(rep, n);
  }

  // ---------------------------------------------------------------------------
  // replaceFn

  /** Where `replaceFn` finds its needle, the text holds the name, ignoring case,
      followed by `(`. */
  lemma {:induction false} NeedleMeans(s: string, fnName: string, p: nat)
    ensures OccursAt(Upper(s), p, Needle(fnName)) ==> s[p + |fnName|] == '(' && MatchesCIAt(s, p, fnName)
  {
    if OccursAt(Upper(s), p, Needle(fnName)) {
      var u := Upper(s);
      forall k | 0 <= k <= |fnName| ensures u[p + k] == Needle(fnName)[k] {
        assert u[p + k] == u[p..p + |fnName| + 1][k];
      }
    }
  }

  /** No `FN(` for `replaceFn` where no `(` follows the name. */
  lemma {:induction false} NeedleAbsent(s: string, fnName: string)
    requires forall k :: 0 <= k && k + |fnName| < |s| && s[k + |fnName|] == '(' ==> !MatchesCIAt(s, k, fnName)
    ensures IndexOf(Upper(s), Needle(fnName), 0).None?
  {
    forall p: nat ensures !OccursAt(Upper(s), p, Needle(fnName)) {
      NeedleMeans(s, fnName, p);
    }
    IndexOfSpec(Upper(s), Needle(fnName), 0);
  }

  // ---------------------------------------------------------------------------
  // The DATE_SUB idiom in SQLite

  /** The first two passes of `toSQLite` turn the `CURDATE()` anchor into `date('now')`. */
  lemma {:induction false} SqliteDaysAgoDates(n: string)
    requires Digits(n)
    ensures SqliteDates(DaysAgo("CURDATE()", n)) == DaysAgo("date('now')", n)
  {
    CurdateReplaced("date('now')", n);
    var s := DaysAgo("date('now')", n);
    AnchorPlain("date('now')");
    DaysAgoChars("date('now')", n);
    assert s[5] == 'S' && s[10] == 'a' by {
      assert s[5] == s[..9][5];
      assert s[10] == s[9..20][1];
    }
    forall j | 0 <= j < |s| ensures MatchAt(SqliteNow, s, j).None? {
      LiteralMisses("NOW()", "datetime('now')", s, j, if j == 5 || j == 10 then 0 else 3);
    }
    RewriteNone(SqliteNow, s);
  }

  /** The alternation with a single anchor. */
  lemma OnlyAnchor(s: string, a0: string, pre: string, post: string)
    requires 9 + |a0| <= |s| && MatchesCIAt(s, 9, a0)
    ensures DateSubTail(s, 9, [a0], pre, post) == AfterAnchor(s, 9 + |a0|, pre, post)
  {
  }

  /** The `DATE_SUB(date('now'), ...)` pass of `toSQLite` matches the whole idiom. */
  lemma {:induction false} SqliteDateSubOnDaysAgo(n: string)
    requires Digits(n)
    ensures Rewrite(SqliteDateSubNow, DaysAgo("date('now')", n)) == SqliteIntervalPre + n + SqliteIntervalPost
  {
    var s := DaysAgo("date('now')", n);
    AnchorPlain("date('now')");
    DaysAgoChars("date('now')", n);
    DaysAgoHead(s, "date('now')");
    IntervalTail(s, 20, n, SqliteIntervalPre, SqliteIntervalPost);
    OnlyAnchor(s, "date('now')", SqliteIntervalPre, SqliteIntervalPost);
    DateSubWhole(s, ["date('now')"], SqliteIntervalPre, SqliteIntervalPost, SqliteIntervalPre + n + SqliteIntervalPost);
  }

  /** `date('now','-n days')` goes through the rest of `toSQLite` unchanged. */
  lemma {:induction false} SqliteIntervalKept(n: string)
    requires Digits(n)
    ensures var o := SqliteIntervalPre + n + SqliteIntervalPost;
      SqliteFields(Rewrite(SqliteDate, o)) == o
  {
    var o := SqliteIntervalPre + n + SqliteIntervalPost;
    IntervalShape(n);
    DateOnlyKept(o);
    FieldsKept(o);
  }

  /** `date('now','-n days')` opens its only parenthesis at index 4, after `date`. */
  lemma {:induction false} IntervalShape(n: string)
    requires Digits(n)
    ensures var o := SqliteIntervalPre + n + SqliteIntervalPost;
      && |o| > 4 && o[..4] == "date" && o[0] == 'd'
      && forall k :: 0 <= k < |o| && o[k] == '(' ==> k == 4
  {
    var o := SqliteIntervalPre + n + SqliteIntervalPost;
    forall k | 0 <= k < |o| ensures o[k] == '(' ==> k == 4 {
      if k < |SqliteIntervalPre| {
        assert o[k] == SqliteIntervalPre[k];
      } else if k < |SqliteIntervalPre| + |n| {
        assert o[k] == n[k - |SqliteIntervalPre|];
      } else {
        assert o[k] == SqliteIntervalPost[k - |SqliteIntervalPre| - |n|];
      }
    }
    assert o[..4] == "date";
  }

  /** The `DATE(x)` pass keeps a text whose only parenthesis is the one of a leading `date(`. */
  lemma {:induction false} DateOnlyKept(o: string)
    requires |o| > 4 && o[..4] == "date"
    requires forall k :: 0 <= k < |o| && o[k] == '(' ==> k == 4
    ensures Rewrite(SqliteDate, o) == o
  {
    forall j | 0 <= j && MatchesCIAt(o, j, "DATE(") ensures o[j..j + 4] == "date" {
      assert EqCI(o[j + 4], "DATE("[4]);
    }
    SqliteDateIdentity(o);
  }

  /** The field passes keep a text that starts with `d` and opens its only
      parenthesis at index 4: no `MONTH(`, `YEAR(` or `WEEK(` fits. */
  lemma {:induction false} FieldsKept(o: string)
    requires |o| > 0 && o[0] == 'd'
    requires forall k :: 0 <= k < |o| && o[k] == '(' ==> k == 4
    ensures SqliteFields(o) == o
  {
    assert !MatchesCIAt(o, 0, "YEAR") && !MatchesCIAt(o, 0, "WEEK") by {
      assert !EqCI(o[0 + 0], "YEAR"[0]) && !EqCI(o[0 + 0], "WEEK"[0]);
    }
    NeedleAbsent(o, "MONTH");
    ReplaceFnAbsent(o, "MONTH", MonthTemplate);
    NeedleAbsent(o, "YEAR");
    ReplaceFnAbsent(o, "YEAR", YearTemplate);
    NeedleAbsent(o, "WEEK");
    ReplaceFnAbsent(o, "WEEK", WeekTemplate);
  }

  /** `toSQLite` turns `DATE_SUB(CURDATE(), INTERVAL n DAY)` into SQLite's
      `date('now','-n days')`: the `CURDATE()` pass runs first, so it is the
      pattern written for `date('now')` that does the work. */
  lemma {:induction false} SqliteDaysAgo(n: string)
    requires Digits(n)
    ensures SqliteText(DaysAgo("CURDATE()", n)) == "date('now','-" + n + " days')"
  {
    SqliteDaysAgoDates(n);
    SqliteCurdateIntervalDead(DaysAgo("CURDATE()", n));
    SqliteDateSubOnDaysAgo(n);
    SqliteIntervalKept(n);
  }

  // ---------------------------------------------------------------------------
  // MONTH, YEAR, WEEK in PostgreSQL

  /** A column reference such as `s.created_at`: letters, digits, `_` and `.`. */
  predicate Column(x: string) {
    |x| > 0 && forall k :: 0 <= k < |x| ==> IsWord(x[k]) || x[k] == '.'
  }

  /** The call `name(x)`. */
  function Call(name: string, x: string): string {
    name + "(" + x + ")"
  }

  predicate DateField(name: string) {
    name == "MONTH" || name == "YEAR" || name == "WEEK"
  }

  /** The characters of `NAME(x)` the passes look at. */
  lemma {:induction false} CallChars(name: string, x: string)
    requires (DateField(name) || name == "DATE") && Column(x)
    ensures var s := Call(name, x);
      && (forall k :: 0 <= k < |s| ==> s[k] != '`' && !IsSpace(s[k]))
      && (forall k :: 0 <= k < |s| && s[k] == '(' ==> k == |name|)
      && (forall k :: 0 <= k < |s| && s[k] == ')' ==> k == |s| - 1)
      && s[..|name|] == name && s[|name| + 1..|s| - 1] == x
  {
    var s := Call(name, x);
    forall k | 0 <= k < |s|
      ensures s[k] != '`' && !IsSpace(s[k]) && (s[k] == '(' ==> k == |name|) && (s[k] == ')' ==> k == |s| - 1)
    {
      if k < |name| {
        assert s[k] == name[k];
      } else if |name| < k < |s| - 1 {
        assert s[k] == x[k - |name| - 1];
      }
    }
    assert s[..|name|] == name && s[|name| + 1..|s| - 1] == x;
  }

  /** `DATE_SUB` fails where no `(` follows it. */
  lemma DateSubMisses(anchors: seq<string>, pre: string, post: string, s: string, j: nat)
    requires j < |s| && forall k :: j + 8 <= k < |s| ==> s[k] != '('
    ensures MatchAt(DateSub(anchors, pre, post), s, j).None?
  {
  }

  /** The first four passes of `toPostgres` leave `NAME(x)` as it is, `DATE(x)` too. */
  lemma {:induction false} PgCallFront(name: string, x: string)
    requires (DateField(name) || name == "DATE") && Column(x)
    ensures var s := Call(name, x);
      && Rewrite(NowWord, s) == s && PgDates(s) == s && Rewrite(PgDateSub, s) == s
  {
    var s := Call(name, x);
    CallChars(name, x);
    BackticksNone(s);
    forall j | 0 <= j < |s| ensures MatchAt(PgCurdate, s, j).None? {
      LiteralMisses("CURDATE()", "CURRENT_DATE", s, j, 7);
    }
    RewriteNone(PgCurdate, s);
    assert s[0] == name[0] && s[1] == name[1] && s[2] == name[2] && s[3] == name[3];
    forall j | 0 <= j < |s| ensures MatchAt(NowWord, s, j).None? {
      NowMisses(s, j, if j + 3 == |name| then 1 else 3);
    }
    RewriteNone(NowWord, s);
    forall j | 0 <= j < |s| ensures MatchAt(PgDateSub, s, j).None? {
      DateSubMisses(["CURDATE()", "CURRENT_DATE"], PgIntervalPre, PgIntervalPost, s, j);
    }
    RewriteNone(PgDateSub, s);
  }

  /** The first five passes of `toPostgres` leave `NAME(x)` as it is. */
  lemma {:induction false} PgCallDates(name: string, x: string)
    requires DateField(name) && Column(x)
    ensures var s := Call(name, x);
      && Rewrite(NowWord, s) == s && PgDates(s) == s
      && Rewrite(PgDateSub, s) == s && Rewrite(PgDate, s) == s
  {
    var s := Call(name, x);
    PgCallFront(name, x);
    CallChars(name, x);
    assert s[0] == name[0];
    forall j | 0 <= j < |s| ensures MatchAt(PgDate, s, j).None? {
      assert j + 4 < |s| ==> s[j + 4] != '(' || !EqCI(s[j + 0], "DATE"[0]);
      FirstParenMisses("DATE", true, "(", ")::date", s, j);
    }
    RewriteNone(PgDate, s);
  }

  /** A `NAME(...)` pass on the call `NAME(x)` replaces the whole call. */
  lemma {:induction false} FirstParenWhole(name: string, boundary: bool, pre: string, post: string, x: string)
    requires |name| > 0 && Column(x)
    requires var s := Call(name, x);
      (forall k :: 0 <= k < |s| && s[k] == ')' ==> k == |s| - 1) && s[..|name|] == name && s[|name| + 1..|s| - 1] == x
    ensures Rewrite(FirstParen(name, boundary, pre, post), Call(name, x)) == pre + x + post
  {
    var s := Call(name, x);
    var c := IndexOf(s, ")", |name| + 1);
    IndexOfSpec(s, ")", |name| + 1);
    assert OccursAt(s, |s| - 1, ")");
    assert c.Some?;
    assert s[c.value] == s[c.value..c.value + 1][0] == ')';
    assert MatchesCIAt(s, 0, name) by {
      forall k | 0 <= k < |name| ensures s[k] == name[k] {
        assert s[k] == s[..|name|][k];
      }
    }
    assert MatchAt(FirstParen(name, boundary, pre, post), s, 0) == Some(Match(pre + x + post, |s|));
    RewriteOnce(FirstParen(name, boundary, pre, post), s, 0, Match(pre + x + post, |s|));
  }

  /** A pass for another field leaves the call `NAME(x)` as it is. */
  lemma {:induction false} OtherFieldKept(name: string, x: string, other: string, pre: string, post: string)
    requires DateField(name) && Column(x) && DateField(other) && other != name
    ensures var s := Call(name, x);
      Rewrite(FirstParen(other, true, pre, post), s) == s
  {
    var s := Call(name, x);
    CallChars(name, x);
    forall j | 0 <= j < |s| ensures MatchAt(FirstParen(other, true, pre, post), s, j).None? {
      assert j < |name| ==> s[j] == name[j];
      assert j + |other| < |s| ==> s[j + |other|] != '(' || !EqCI(s[j + 0], other[0]);
      FirstParenMisses(other, true, pre, post, s, j);
    }
    RewriteNone(FirstParen(other, true, pre, post), s);
  }

  /** What `toPostgres` writes for a field: `EXTRACT(NAME FROM `, the year and
      week spelled with two blanks as the source has them. */
  function ExtractPre(name: string): string {
    if name == "MONTH" then "EXTRACT(MONTH FROM "
    else if name == "YEAR" then "EXTRACT(YEAR  FROM "
    else "EXTRACT(WEEK  FROM "
  }

  /** The characters of `EXTRACT(NAME FROM x)` the later passes look at. */
  lemma {:induction false} ExtractChars(name: string, x: string)
    requires DateField(name) && Column(x)
    ensures var t := ExtractPre(name) + x + ")";
      && (forall k :: 0 <= k < |t| && t[k] == '(' ==> k == 7)
      && (forall k :: 0 <= k < |t| && IsSpace(t[k]) ==> k < 19)
      && (forall k :: 0 <= k < 13 ==> !EqCI(t[k], 'I'))
      && t[3] == 'R'
  {
    var pre := ExtractPre(name);
    var t := pre + x + ")";
    forall k | 0 <= k < |t| ensures (t[k] == '(' ==> k == 7) && (IsSpace(t[k]) ==> k < 19) && (k < 13 ==> !EqCI(t[k], 'I')) {
      if k < 19 {
        assert t[k] == pre[k];
      } else if k < 19 + |x| {
        assert t[k] == x[k - 19];
      }
    }
  }

  /** The YEAR and WEEK passes and `INSERT IGNORE INTO` leave `EXTRACT(NAME FROM x)` alone. */
  lemma {:induction false} ExtractKept(name: string, x: string, other: string, pre: string, post: string)
    requires DateField(name) && Column(x) && (other == "YEAR" || other == "WEEK")
    ensures var t := ExtractPre(name) + x + ")";
      Rewrite(FirstParen(other, true, pre, post), t) == t && Rewrite(InsertIgnore, t) == t
  {
    var t := ExtractPre(name) + x + ")";
    ExtractChars(name, x);
    forall j | 0 <= j < |t| ensures MatchAt(FirstParen(other, true, pre, post), t, j).None? {
      assert j + 4 < |t| ==> t[j + 4] != '(' || !EqCI(t[j + 0], other[0]);
      FirstParenMisses(other, true, pre, post, t, j);
    }
    RewriteNone(FirstParen(other, true, pre, post), t);
    forall j | 0 <= j && j + 6 < |t| && IsSpace(t[j + 6]) ensures !MatchesCIAt(t, j, "INSERT") {
      assert !EqCI(t[j + 0], "INSERT"[0]);
    }
    InsertIgnoreNone(t);
  }

  /** `toPostgres` turns `MONTH(x)`, `YEAR(x)` and `WEEK(x)` of a column into
      `EXTRACT(... FROM x)`. */
  lemma {:induction false} PgExtract(name: string, x: string)
    requires DateField(name) && Column(x)
    ensures ToPostgres(Call(name, x)) == ExtractPre(name) + x + ")"
  {
    var s := Call(name, x);
    PgCallDates(name, x);
    CallChars(name, x);
    ExtractKept(name, x, "WEEK", "EXTRACT(WEEK  FROM ", ")");
    if name == "MONTH" {
      FirstParenWhole(name, true, "EXTRACT(MONTH FROM ", ")", x);
      ExtractKept(name, x, "YEAR", "EXTRACT(YEAR  FROM ", ")");
    } else if name == "YEAR" {
      OtherFieldKept(name, x, "MONTH", "EXTRACT(MONTH FROM ", ")");
      FirstParenWhole(name, true, "EXTRACT(YEAR  FROM ", ")", x);
    } else {
      OtherFieldKept(name, x, "MONTH", "EXTRACT(MONTH FROM ", ")");
      OtherFieldKept(name, x, "YEAR", "EXTRACT(YEAR  FROM ", ")");
      FirstParenWhole(name, true, "EXTRACT(WEEK  FROM ", ")", x);
    }
  }

  /** `toPostgres` turns `MONTH(CURDATE())`, `YEAR(CURDATE())` and `WEEK(CURDATE())`
      into `EXTRACT(... FROM CURRENT_DATE)`. */
  lemma {:induction false} PgExtractToday(name: string)
    requires DateField(name)
    ensures ToPostgres(Call(name, "CURDATE()")) == ExtractPre(name) + "CURRENT_DATE" + ")"
  {
    PgTodaySame(name);
    CurrentDateColumn();
    PgExtract(name, "CURRENT_DATE");
  }

  /** `toPostgres` treats `NAME(CURDATE())` as it treats `NAME(CURRENT_DATE)`. */
  lemma {:induction false} PgTodaySame(name: string)
    requires DateField(name)
    ensures ToPostgres(Call(name, "CURDATE()")) == ToPostgres(Call(name, "CURRENT_DATE"))
  {
    PgTodayDates(name);
    SameDates(Call(name, "CURDATE()"), Call(name, "CURRENT_DATE"));
  }

  /** `CURRENT_DATE` reads, to the passes, like a column name. */
  lemma CurrentDateColumn()
    ensures Column("CURRENT_DATE")
  {
    var x := "CURRENT_DATE";
    forall k | 0 <= k < |x| ensures IsWord(x[k]) {
      assert x[k] == '_' || 'A' <= x[k] <= 'Z';
    }
  }

  /** `toPostgres` depends on the statement only through its first three passes. */
  lemma SameDates(a: string, b: string)
    requires PgDates(a) == PgDates(b)
    ensures ToPostgres(a) == ToPostgres(b)
  {
  }

  /** The first three passes of `toPostgres` on `NAME(CURDATE())`. */
  lemma {:induction false} PgTodayDates(name: string)
    requires DateField(name)
    ensures PgDates(Call(name, "CURDATE()")) == Call(name, "CURRENT_DATE")
    ensures PgDates(Call(name, "CURRENT_DATE")) == Call(name, "CURRENT_DATE")
  {
    var s := Call(name, "CURDATE()");
    forall k | 0 <= k < |s| ensures s[k] != '`' {
      if k < |name| {
        assert s[k] == name[k];
      }
    }
    BackticksNone(s);
    CurdateOnToday(name, "CURRENT_DATE");
    PgCallDates(name, "CURRENT_DATE");
  }

  /** The `CURDATE()` pass, of either translator, on `NAME(CURDATE())`. */
  lemma {:induction false} CurdateOnToday(name: string, rep: string)
    requires DateField(name)
    ensures Rewrite(Literal("CURDATE()", rep), Call(name, "CURDATE()")) == Call(name, rep)
  {
    var s := Call(name, "CURDATE()");
    var p := |name| + 1;
    forall k | 0 <= k < |s| ensures s[k] == '(' ==> k == |name| || k == |name| + 8 {
      if k < |name| {
        assert s[k] == name[k];
      }
    }
    forall j | 0 <= j < |s| && j != p ensures MatchAt(Literal("CURDATE()", rep), s, j).None? {
      LiteralMisses("CURDATE()", rep, s, j, 7);
    }
    assert s[p..p + 9] == "CURDATE()";
    assert MatchAt(Literal("CURDATE()", rep), s, p) == Some(Match(rep, p + 9));
    RewriteOnce(Literal("CURDATE()", rep), s, p, Match(rep, p + 9));
    assert s[..p] == name + "(" && s[p + 9..] == ")";
  }

  // ---------------------------------------------------------------------------
  // DATE(x), identifiers and INSERT IGNORE in PostgreSQL

  /** The `CURDATE()` and `NOW()` passes need a `(`, so a text without one keeps them out. */
  lemma {:induction false} PgPlainDates(t: string)
    requires forall k :: 0 <= k < |t| ==> t[k] != '('
    ensures Rewrite(NowWord, Rewrite(PgCurdate, t)) == t
  {
    forall j | 0 <= j < |t| ensures MatchAt(PgCurdate, t, j).None? {
      LiteralMisses("CURDATE()", "CURRENT_DATE", t, j, 7);
    }
    RewriteNone(PgCurdate, t);
    forall j | 0 <= j < |t| ensures MatchAt(NowWord, t, j).None? {
      NowMisses(t, j, 3);
    }
    RewriteNone(NowWord, t);
  }

  /** Every call-shaped pass of `toPostgres` leaves a text without `(` alone. */
  lemma {:induction false} PgPlainCalls(t: string)
    requires forall k :: 0 <= k < |t| ==> t[k] != '('
    ensures Rewrite(PgDate, Rewrite(PgDateSub, t)) == t
    ensures Rewrite(PgWeek, Rewrite(PgYear, Rewrite(PgMonth, t))) == t
  {
    forall j | 0 <= j < |t| ensures MatchAt(PgDateSub, t, j).None? {
      DateSubMisses(["CURDATE()", "CURRENT_DATE"], PgIntervalPre, PgIntervalPost, t, j);
    }
    RewriteNone(PgDateSub, t);
    FirstParenNone("DATE", true, "(", ")::date", t);
    FirstParenNone("MONTH", true, "EXTRACT(MONTH FROM ", ")", t);
    FirstParenNone("YEAR", true, "EXTRACT(YEAR  FROM ", ")", t);
    FirstParenNone("WEEK", true, "EXTRACT(WEEK  FROM ", ")", t);
  }

  /** The characters of `(x)::date` the later passes look at. */
  lemma {:induction false} CastDateChars(x: string)
    requires Column(x)
    ensures var t := "(" + x + ")::date";
      forall k :: 0 <= k < |t| ==> !IsSpace(t[k]) && (t[k] == '(' ==> k == 0)
  {
    var t := "(" + x + ")::date";
    forall k | 0 <= k < |t| ensures !IsSpace(t[k]) && (t[k] == '(' ==> k == 0) {
      if 0 < k <= |x| {
        assert t[k] == x[k - 1];
      } else if k > |x| {
        assert t[k] == ")::date"[k - |x| - 1];
      }
    }
  }

  /** The field passes and `INSERT IGNORE INTO` leave `(x)::date` alone. */
  lemma {:induction false} CastDateKept(x: string)
    requires Column(x)
    ensures var t := "(" + x + ")::date";
      Rewrite(InsertIgnore, Rewrite(PgWeek, Rewrite(PgYear, Rewrite(PgMonth, t)))) == t
  {
    var t := "(" + x + ")::date";
    CastDateChars(x);
    forall name | DateField(name) ensures Rewrite(FirstParen(name, true, ExtractPre(name), ")"), t) == t {
      forall j | 0 <= j < |t| ensures MatchAt(FirstParen(name, true, ExtractPre(name), ")"), t, j).None? {
        FirstParenMisses(name, true, ExtractPre(name), ")", t, j);
      }
      RewriteNone(FirstParen(name, true, ExtractPre(name), ")"), t);
    }
    assert ExtractPre("MONTH") == "EXTRACT(MONTH FROM " && ExtractPre("YEAR") == "EXTRACT(YEAR  FROM "
        && ExtractPre("WEEK") == "EXTRACT(WEEK  FROM ";
    InsertIgnoreNone(t);
  }

  /** `toPostgres` turns `DATE(x)` of a column into the cast `(x)::date`. */
  lemma {:induction false} PgDateCast(x: string)
    requires Column(x)
    ensures ToPostgres(Call("DATE", x)) == "(" + x + ")::date"
  {
    PgCallFront("DATE", x);
    CallChars("DATE", x);
    FirstParenWhole("DATE", true, "(", ")::date", x);
    CastDateKept(x);
  }

  /** The characters of a column quoted either way. */
  lemma {:induction false} QuotedChars(x: string, q: char)
    requires Column(x) && (q == '`' || q == '"')
    ensures var s := [q] + x + [q];
      && s[1..|s| - 1] == x
      && forall k :: 0 <= k < |s| ==> s[k] != '(' && !IsSpace(s[k]) && (s[k] == '`' ==> k == 0 || k == |s| - 1)
  {
    var s := [q] + x + [q];
    forall k | 0 <= k < |s| ensures s[k] != '(' && !IsSpace(s[k]) && (s[k] == '`' ==> k == 0 || k == |s| - 1) {
      if 0 < k < |s| - 1 {
        assert s[k] == x[k - 1];
      }
    }
  }

  /** The identifier pass turns a quoted column `` `x` `` into `"x"`. */
  lemma {:induction false} BackticksQuote(x: string)
    requires Column(x)
    ensures Rewrite(Backticks, "`" + x + "`") == "\"" + x + "\""
  {
    var s := "`" + x + "`";
    QuotedChars(x, '`');
    assert s == ['`'] + x + ['`'];
    IndexOfSpec(s, "`", 1);
    assert OccursAt(s, |s| - 1, "`");
    forall k | 1 <= k < |s| - 1 ensures !OccursAt(s, k, "`") {
      assert s[k..k + 1][0] == s[k];
    }
    var m := Match("\"" + x + "\"", |s|);
    assert MatchAt(Backticks, s, 0) == Some(m);
    RewriteOnce(Backticks, s, 0, m);
  }

  /** `toPostgres` turns a MySQL-quoted column `` `x` `` into the quoted identifier `"x"`. */
  lemma {:induction false} PgQuoted(x: string)
    requires Column(x)
    ensures ToPostgres("`" + x + "`") == "\"" + x + "\""
  {
    var t := "\"" + x + "\"";
    BackticksQuote(x);
    QuotedChars(x, '"');
    assert t == ['"'] + x + ['"'];
    PgPlainDates(t);
    PgPlainCalls(t);
    InsertIgnoreNone(t);
  }

  const InsertIgnoreInto := "INSERT IGNORE INTO "

  /** The characters of `INSERT IGNORE INTO x`. */
  lemma {:induction false} InsertIgnoreChars(x: string)
    requires Column(x)
    ensures var s := InsertIgnoreInto + x;
      && s[18..] == " " + x
      && forall k :: 0 <= k < |s| ==> s[k] != '(' && s[k] != '`' && (k > 18 ==> !IsSpace(s[k]))
  {
    var s := InsertIgnoreInto + x;
    forall k | 0 <= k < |s| ensures s[k] != '(' && s[k] != '`' && (k > 18 ==> !IsSpace(s[k])) {
      if k > 18 {
        assert s[k] == x[k - 19];
      }
    }
  }

  /** The `INSERT IGNORE INTO` pass matches the whole keyword run of `INSERT IGNORE INTO x`. */
  lemma {:induction false} InsertIgnoreMatch(x: string)
    requires Column(x)
    ensures MatchAt(InsertIgnore, InsertIgnoreInto + x, 0) == Some(Match("INSERT INTO", 18))
  {
    var s := InsertIgnoreInto + x;
    assert s[..19] == InsertIgnoreInto;
    assert MatchesCIAt(s, 0, "INSERT") && MatchesCIAt(s, 7, "IGNORE") && MatchesCIAt(s, 14, "INTO") by {
      assert forall k :: 0 <= k < 19 ==> s[k] == InsertIgnoreInto[k];
    }
    assert IsSpace(s[6]) && !IsSpace(s[7]) && IsSpace(s[13]) && !IsSpace(s[14]);
    assert SkipSpace(s, 7) == 7 && SkipSpace(s, 6) == 7;
    assert SkipSpace(s, 14) == 14 && SkipSpace(s, 13) == 14;
  }

  /** `toPostgres` turns `INSERT IGNORE INTO x` into `INSERT INTO x`. */
  lemma {:induction false} PgInsertIgnore(x: string)
    requires Column(x)
    ensures ToPostgres(InsertIgnoreInto + x) == "INSERT INTO " + x
  {
    var s := InsertIgnoreInto + x;
    InsertIgnoreChars(x);
    BackticksNone(s);
    PgPlainDates(s);
    PgPlainCalls(s);
    InsertIgnoreMatch(x);
    forall j | 18 <= j < |s| ensures MatchAt(InsertIgnore, s, j).None? {
      if j + 6 < |s| {
        assert !IsSpace(s[j + 6]);
      }
    }
    RewriteOnce(InsertIgnore, s, 0, Match("INSERT INTO", 18));
  }

  // ---------------------------------------------------------------------------
  // MONTH, YEAR, WEEK in SQLite

  /** What `toSQLite` writes before the argument of a field. */
  function CastPre(name: string): string {
    if name == "MONTH" then "CAST(strftime('%m',"
    else if name == "YEAR" then "CAST(strftime('%Y',"
    else "CAST(strftime('%W',"
  }

  /** The template `toSQLite` gives `replaceFn` for a field. */
  function FieldTemplate(name: string): string {
    if name == "MONTH" then MonthTemplate else if name == "YEAR" then YearTemplate else WeekTemplate
  }

  /** What `toSQLite` writes for a field of `a`. */
  function Cast(name: string, a: string): string {
    CastPre(name) + a + ") AS INTEGER)"
  }

  /** `replaceFn` finds no call of any field other than `name` in `t`. */
  predicate OnlyField(name: string, t: string) {
    && (name != "MONTH" ==> IndexOf(Upper(t), Needle("MONTH"), 0).None?)
    && (name != "YEAR" ==> IndexOf(Upper(t), Needle("YEAR"), 0).None?)
    && (name != "WEEK" ==> IndexOf(Upper(t), Needle("WEEK"), 0).None?)
  }

  /** A field template puts an argument without `$` in verbatim. */
  lemma {:induction false} FieldTemplateOn(name: string, a: string)
    requires DateField(name) && forall k :: 0 <= k < |a| ==> a[k] != '$'
    ensures Instantiate(FieldTemplate(name), a) == Cast(name, a)
  {
    var pre := CastPre(name);
    var post := ") AS INTEGER)";
    if name == "MONTH" {
      assert MonthTemplate == pre + "$1" + post;
    } else if name == "YEAR" {
      assert YearTemplate == pre + "$1" + post;
    } else {
      assert WeekTemplate == pre + "$1" + post;
    }
    assert forall k :: 0 <= k < |pre| ==> pre[k] != '$';
    InstantiatePlain(pre, post, a);
  }

  /** The `replaceFn` passes on a single call of a field, once no other field's
      needle is found before or after its own pass. */
  lemma {:induction false} SqliteFieldsOn(name: string, a: string)
    requires DateField(name) && Balanced(a) && forall k :: 0 <= k < |a| ==> a[k] != '$'
    requires OnlyField(name, Call(name, a)) && OnlyField(name, Cast(name, a))
    ensures SqliteFields(Call(name, a)) == Cast(name, a)
  {
    var s := Call(name, a);
    ReplaceFnWhole(s, name, FieldTemplate(name), a);
    FieldTemplateOn(name, a);
    if name == "MONTH" {
      ReplaceFnAbsent(Cast(name, a), "YEAR", YearTemplate);
      ReplaceFnAbsent(Cast(name, a), "WEEK", WeekTemplate);
    } else if name == "YEAR" {
      ReplaceFnAbsent(s, "MONTH", MonthTemplate);
      ReplaceFnAbsent(Cast(name, a), "WEEK", WeekTemplate);
    } else {
      ReplaceFnAbsent(s, "MONTH", MonthTemplate);
      ReplaceFnAbsent(s, "YEAR", YearTemplate);
    }
  }

  /** The characters of `CAST(strftime('%m',a) AS INTEGER)` the needles look at. */
  lemma {:induction false} CastChars(name: string, a: string)
    requires DateField(name)
    ensures var t := Cast(name, a);
      && (forall k :: 0 <= k < |t| && t[k] == '(' ==> k == 4 || k == 13 || (19 <= k < 19 + |a| && a[k - 19] == '('))
      && t[0] == 'C' && t[8] == 'f' && t[9] == 't' && t[18] == ',' && t[19..19 + |a|] == a
  {
    var pre := CastPre(name);
    var t := Cast(name, a);
    assert |pre| == 19;
    forall k | 0 <= k < |t| ensures t[k] == '(' ==> k == 4 || k == 13 || (19 <= k < 19 + |a| && a[k - 19] == '(') {
      if k < 19 {
        assert t[k] == pre[k];
      } else if k < 19 + |a| {
        assert t[k] == a[k - 19];
      }
    }
    assert t[19..19 + |a|] == a;
  }

  /** The fields other than `name` have no call in `NAME(x)` of a column, nor in
      what `toSQLite` makes of it. */
  lemma {:induction false} ColumnOnlyField(name: string, x: string)
    requires DateField(name) && Column(x)
    ensures OnlyField(name, Call(name, x)) && OnlyField(name, Cast(name, x))
  {
    var s := Call(name, x);
    var t := Cast(name, x);
    CallChars(name, x);
    CastChars(name, x);
    forall k | 19 <= k < 19 + |x| ensures t[k] != '(' {
      assert t[k] == t[19..19 + |x|][k - 19] == x[k - 19];
    }
    OtherNeedles(name, s, t);
  }

  /** `OnlyField` from where the `(` are, field by field. */
  lemma {:induction false} OtherNeedles(name: string, s: string, t: string)
    requires DateField(name)
    requires forall k :: 0 <= k < |s| && s[k] == '(' ==> k == |name|
    requires |name| < |s| && s[..|name|] == name
    requires forall k :: 0 <= k < |t| && t[k] == '(' ==> k == 4 || k == 13
    requires 19 < |t| && t[0] == 'C' && t[8] == 'f' && t[9] == 't'
    ensures OnlyField(name, s) && OnlyField(name, t)
  {
    forall other | DateField(other) && other != name
      ensures IndexOf(Upper(s), Needle(other), 0).None? && IndexOf(Upper(t), Needle(other), 0).None?
    {
      forall k | 0 <= k && k + |other| < |s| && s[k + |other|] == '(' ensures !MatchesCIAt(s, k, other) {
        assert s[k] == name[k];
        assert !EqCI(s[k + 0], other[0]);
      }
      NeedleAbsent(s, other);
      forall k | 0 <= k && k + |other| < |t| && t[k + |other|] == '(' ensures !MatchesCIAt(t, k, other) {
        assert !EqCI(t[k + 0], other[0]);
      }
      NeedleAbsent(t, other);
    }
  }

  /** `DATE_SUB` fails where the text does not spell it. */
  lemma DateSubAbsent(anchors: seq<string>, pre: string, post: string, s: string, j: nat)
    requires j < |s| && !MatchesCIAt(s, j, "DATE_SUB")
    ensures MatchAt(DateSub(anchors, pre, post), s, j).None?
  {
  }

  /** A column reference has no parenthesis, so it is balanced. */
  lemma {:induction false} ColumnBalanced(x: string)
    requires Column(x)
    ensures Balanced(x)
  {
    assert ParenFree(x);
    forall k | 0 <= k <= |x| ensures Depth(x[..k]) == 0 {
      ParenFreeDepth(x, k);
    }
    assert x[..|x|] == x;
  }

  /** The regex passes of `toSQLite` leave `NAME(x)` of a column as it is. */
  lemma {:induction false} SqliteColumnPasses(name: string, x: string)
    requires DateField(name) && Column(x)
    ensures SqlitePasses(Call(name, x)) == Call(name, x)
  {
    var s := Call(name, x);
    CallChars(name, x);
    forall j | 0 <= j < |s| ensures MatchAt(SqliteCurdate, s, j).None? {
      LiteralMisses("CURDATE()", "date('now')", s, j, 7);
    }
    RewriteNone(SqliteCurdate, s);
    assert s[0] == name[0] && s[1] == name[1] && s[2] == name[2] && s[3] == name[3];
    forall j | 0 <= j < |s| ensures MatchAt(SqliteNow, s, j).None? {
      LiteralMisses("NOW()", "datetime('now')", s, j, if j + 3 == |name| then 1 else 3);
    }
    RewriteNone(SqliteNow, s);
    forall j | 0 <= j < |s| ensures MatchAt(SqliteDateSubCurdate, s, j).None? && MatchAt(SqliteDateSubNow, s, j).None? {
      DateSubMisses(["CURDATE()"], SqliteIntervalPre, SqliteIntervalPost, s, j);
      DateSubMisses(["date('now')"], SqliteIntervalPre, SqliteIntervalPost, s, j);
    }
    RewriteNone(SqliteDateSubCurdate, s);
    RewriteNone(SqliteDateSubNow, s);
    forall j | 0 <= j < |s| ensures MatchAt(SqliteDate, s, j).None? {
      assert j + 4 < |s| ==> s[j + 4] != '(' || !EqCI(s[j + 0], "DATE"[0]);
      FirstParenMisses("DATE", false, "date(", ")", s, j);
    }
    RewriteNone(SqliteDate, s);
  }

  /** `toSQLite` turns `MONTH(x)`, `YEAR(x)` and `WEEK(x)` of a column into
      `CAST(strftime('%m',x) AS INTEGER)` with the field's format. */
  lemma {:induction false} SqliteField(name: string, x: string)
    requires DateField(name) && Column(x)
    ensures SqliteText(Call(name, x)) == Cast(name, x)
  {
    SqliteColumnPasses(name, x);
    ColumnBalanced(x);
    ColumnOnlyField(name, x);
    SqliteFieldsOn(name, x);
  }

  /** The characters of `NAME(date('now'))` the later passes look at. */
  lemma {:induction false} TodayChars(name: string)
    requires DateField(name)
    ensures var s := Call(name, "date('now')");
      && (forall k :: 0 <= k < |s| ==> s[k] != '_')
      && (forall k :: 0 <= k < |s| && s[k] == '(' ==> k == |name| || k == |name| + 5)
      && s[..|name|] == name && s[|name|] == '(' && s[|name| + 1..|name| + 5] == "date"
      && s[|name| + 2] == 'a' && s[|name| + 1] == 'd'
  {
    var s := Call(name, "date('now')");
    var a := "date('now')";
    forall k | 0 <= k < |s| ensures s[k] != '_' && (s[k] == '(' ==> k == |name| || k == |name| + 5) {
      if k < |name| {
        assert s[k] == name[k];
      } else if |name| < k < |name| + 12 {
        assert s[k] == a[k - |name| - 1];
      }
    }
    forall k | 0 <= k < 4 ensures s[|name| + 1 + k] == "date"[k] {
      assert s[|name| + 1 + k] == a[k];
    }
    assert s[..|name|] == name;
    assert s[|name| + 1..|name| + 5] == "date";
  }

  /** The regex passes of `toSQLite` make `NAME(CURDATE())` into `NAME(date('now'))`,
      which the `DATE(x)` pass then leaves alone. */
  lemma {:induction false} SqliteTodayPasses(name: string)
    requires DateField(name)
    ensures SqlitePasses(Call(name, "CURDATE()")) == Call(name, "date('now')")
  {
    CurdateOnToday(name, "date('now')");
    var s := Call(name, "date('now')");
    TodayNowNone(name);
    SqliteCurdateIntervalDead(Call(name, "CURDATE()"));
    TodayDateSubNone(name);
    TodayDateOnly(name);
    SqliteDateIdentity(s);
  }

  /** The `NOW()` pass leaves `NAME(date('now'))` alone. */
  lemma {:induction false} TodayNowNone(name: string)
    requires DateField(name)
    ensures Rewrite(SqliteNow, Call(name, "date('now')")) == Call(name, "date('now')")
  {
    var s := Call(name, "date('now')");
    TodayChars(name);
    assert s[0] == name[0] && s[1] == name[1] && s[2] == name[2] && s[3] == name[3];
    forall j | 0 <= j < |s| ensures MatchAt(SqliteNow, s, j).None? {
      LiteralMisses("NOW()", "datetime('now')", s, j, if j + 3 == |name| then 1 else if j == |name| + 2 then 0 else 3);
    }
    RewriteNone(SqliteNow, s);
  }

  /** The DATE_SUB pass anchored on `date('now')` finds no DATE_SUB in `NAME(date('now'))`. */
  lemma {:induction false} TodayDateSubNone(name: string)
    requires DateField(name)
    ensures Rewrite(SqliteDateSubNow, Call(name, "date('now')")) == Call(name, "date('now')")
  {
    var s := Call(name, "date('now')");
    TodayChars(name);
    forall j | 0 <= j < |s| ensures MatchAt(SqliteDateSubNow, s, j).None? {
      assert j + 8 <= |s| ==> !EqCI(s[j + 4], "DATE_SUB"[4]);
      DateSubAbsent(["date('now')"], SqliteIntervalPre, SqliteIntervalPost, s, j);
    }
    RewriteNone(SqliteDateSubNow, s);
  }

  /** The only `DATE(` in `NAME(date('now'))` is the one of `date('now')`. */
  lemma {:induction false} TodayDateOnly(name: string)
    requires DateField(name)
    ensures var s := Call(name, "date('now')");
      forall j :: 0 <= j && MatchesCIAt(s, j, "DATE(") ==> s[j..j + 4] == "date"
  {
    var s := Call(name, "date('now')");
    TodayChars(name);
    assert s[0] == name[0] && s[1] == name[1] && s[2] == name[2] && s[3] == name[3];
    forall j | 0 <= j && MatchesCIAt(s, j, "DATE(") ensures s[j..j + 4] == "date" {
      assert EqCI(s[j + 0], "DATE("[0]) && EqCI(s[j + 4], "DATE("[4]);
    }
  }

  /** `date('now')` is a balanced argument without `$`. */
  lemma TodayBalanced()
    ensures Balanced("date('now')") && forall k :: 0 <= k < |"date('now')"| ==> "date('now')"[k] != '$'
  {
    assert ParenFree("date") && ParenFree("'now'");
    CallBalanced("date", "'now'");
    assert "date" + "(" + "'now'" + ")" == "date('now')";
  }

  /** No other field's needle in `NAME(date('now'))` nor in its `CAST`. */
  lemma {:induction false} TodayOnlyField(name: string)
    requires DateField(name)
    ensures OnlyField(name, Call(name, "date('now')")) && OnlyField(name, Cast(name, "date('now')"))
  {
    TodayCallOnlyField(name);
    TodayCastOnlyField(name);
  }

  lemma {:induction false} TodayCallOnlyField(name: string)
    requires DateField(name)
    ensures OnlyField(name, Call(name, "date('now')"))
  {
    var s := Call(name, "date('now')");
    TodayChars(name);
    forall other | DateField(other) && other != name ensures IndexOf(Upper(s), Needle(other), 0).None? {
      forall k | 0 <= k && k + |other| < |s| && s[k + |other|] == '(' ensures !MatchesCIAt(s, k, other) {
        assert k < |name| ==> s[k] == name[k];
        assert k == |name| + 1 ==> s[k] == 'd';
        assert !EqCI(s[k + 0], other[0]);
      }
      NeedleAbsent(s, other);
    }
  }

  lemma {:induction false} TodayCastOnlyField(name: string)
    requires DateField(name)
    ensures OnlyField(name, Cast(name, "date('now')"))
  {
    var t := Cast(name, "date('now')");
    forall other | DateField(other) && other != name ensures IndexOf(Upper(t), Needle(other), 0).None? {
      TodayShape();
      CastNoCall(name, other, "date('now')");
      NeedleAbsent(t, other);
    }
  }

  /** No date field is called anywhere in `CAST(strftime('%m',a) AS INTEGER)` when `a`
      starts with `d` and opens its only parenthesis at index 4, as `date('now')` does. */
  lemma {:induction false} CastNoCall(name: string, other: string, a: string)
    requires DateField(name) && DateField(other)
    requires |a| > 0 && a[0] == 'd' && forall j :: 0 <= j < |a| && a[j] == '(' ==> j == 4
    ensures var t := Cast(name, a);
      forall k :: 0 <= k && k + |other| < |t| && t[k + |other|] == '(' ==> !MatchesCIAt(t, k, other)
  {
    var t := Cast(name, a);
    CastChars(name, a);
    assert t[19] == 'd' by {
      assert t[19] == t[19..19 + |a|][0];
    }
    forall k | 0 <= k && k + |other| < |t| && t[k + |other|] == '(' ensures !MatchesCIAt(t, k, other) {
      assert k + |other| == 4 || k + |other| == 13 || k + |other| == 23;
      assert t[k] == 'C' || t[k] == 'f' || t[k] == 't' || t[k] == ',' || t[k] == 'd';
      assert other[0] == 'M' || other[0] == 'Y' || other[0] == 'W';
      assert !EqCI(t[k + 0], other[0]);
    }
  }

  /** `date('now')` starts with `d` and opens its only parenthesis at index 4. */
  lemma TodayShape()
    ensures var a := "date('now')"; |a| > 0 && a[0] == 'd' && forall j :: 0 <= j < |a| && a[j] == '(' ==> j == 4
  {
  }

  /** `toSQLite` turns `MONTH(CURDATE())`, `YEAR(CURDATE())` and `WEEK(CURDATE())`
      into `CAST(strftime('%m',date('now')) AS INTEGER)` with the field's format:
      the `CURDATE()` pass runs first and `replaceFn` keeps the nested call whole. */
  lemma {:induction false} SqliteFieldToday(name: string)
    requires DateField(name)
    ensures SqliteText(Call(name, "CURDATE()")) == Cast(name, "date('now')")
  {
    SqliteTodayPasses(name);
    TodayBalanced();
    TodayOnlyField(name);
    SqliteFieldsOn(name, "date('now')");
  }
}

/** The global, case-insensitive regular-expression replacements that the two
    dialect translators chain (server/config/database.js:99-119 and 239-252).
    Each pattern is a `Rule`; `MatchAt` is the regex tried at one position and
    `RewriteFrom` is JavaScript's `replace(/.../g, ...)`: it tries every
    position left to right on the ORIGINAL string, splices the replacement in
    and resumes after the match. */
module Regex {
  import opened Common
  import opened Text

  datatype Rule =
    | /** /`([^`]+)`/g  ->  "$1" */
      Backticks
    | /** a fixed text under /gi, e.g. /CURDATE\(\)/gi */
      Literal(pat: string, rep: string)
    | /** /\bNOW\(\)\b/gi -> 'NOW()' */
      NowWord
    | /** /DATE_SUB\s*\(\s*(?:A1|A2..)\s*,\s*INTERVAL\s+(\d+)\s+DAY\s*\)/gi -> pre $1 post */
      DateSub(anchors: seq<string>, pre: string, post: string)
    | /** /(\b)?NAME\(([^)]+)\)/gi -> pre $1 post: the argument stops at the first `)` */
      FirstParen(name: string, boundary: bool, pre: string, post: string)
    | /** /INSERT\s+IGNORE\s+INTO/gi -> 'INSERT INTO' */
      InsertIgnore

  /** A match: what replaces it and the index just past it. */
  datatype Match = Match(replacement: string, end: nat)

  /** Some anchor of a DATE_SUB rule occurs, ignoring case, at `p`. */
  predicate AnchorAt(s: string, p: nat, anchors: seq<string>) {
    exists a :: a in anchors && MatchesCIAt(s, p, a)
  }

  /** The part after the anchor: \s*,\s*INTERVAL\s+(\d+)\s+DAY\s*\) */
  function AfterAnchor(s: string, c: nat, pre: string, post: string): (r: Option<Match>)
    requires c <= |s|
    ensures r.Some? ==> c < r.value.end <= |s|
  {
    match IntervalStart(s, c)
    case None => None
    case Some(x) => AfterInterval(s, x, pre, post)
  }

  /** The index just past \s*,\s*INTERVAL at `c`, if that is what follows. */
  function IntervalStart(s: string, c: nat): (r: Option<nat>)
    requires c <= |s|
    ensures r.Some? ==> c < r.value <= |s|
  {
    var d := SkipSpace(s, c);
    if !(d < |s| && s[d] == ',') then None
    else
      var e := SkipSpace(s, d + 1);
      if !MatchesCIAt(s, e, "INTERVAL") then None
      else Some(e + 8)
  }

  /** The part after `INTERVAL`: \s+(\d+)\s+DAY\s*\) */
  function AfterInterval(s: string, c: nat, pre: string, post: string): (r: Option<Match>)
    requires c <= |s|
    ensures r.Some? ==> c < r.value.end <= |s|
  {
    var f := SkipSpace(s, c);
    var g := SkipDigits(s, f);
    var h := SkipSpace(s, g);
    if f == c || g == f || h == g || !MatchesCIAt(s, h, "DAY") then None
    else
      var k := SkipSpace(s, h + 3);
      if k < |s| && s[k] == ')' then Some(Match(pre + s[f..g] + post, k + 1)) else None
  }

  /** The alternation over the anchors, tried in order as the regex engine does. */
  function DateSubTail(s: string, b: nat, anchors: seq<string>, pre: string, post: string): (r: Option<Match>)
    requires b <= |s|
    ensures r.Some? ==> b < r.value.end <= |s|
    ensures r.Some? ==> AnchorAt(s, b, anchors)
    decreases |anchors|
  {
    if anchors == [] then None
    else if MatchesCIAt(s, b, anchors[0]) && AfterAnchor(s, b + |anchors[0]|, pre, post).Some? then
      AfterAnchor(s, b + |anchors[0]|, pre, post)
    else
      var r := DateSubTail(s, b, anchors[1..], pre, post);
      assert r.Some? ==> AnchorAt(s, b, anchors) by {
        if r.Some? {
          var a :| a in anchors[1..] && MatchesCIAt(s, b, a);
          assert a in anchors;
        }
      }
      r
  }

  /** The regex of `rule` tried at index `i` of `s`. */
  function MatchAt(rule: Rule, s: string, i: nat): (r: Option<Match>)
    requires i < |s|
    ensures r.Some? ==> i < r.value.end <= |s|
    ensures r.Some? && rule.DateSub? ==>
              exists p :: i < p < r.value.end && AnchorAt(s, p, rule.anchors)
  {
    match rule
    case Backticks =>
      if s[i] != '`' then None
      else
        var j := IndexOf(s, "`", i + 1);
        if j.Some? && j.value > i + 1 then Some(Match("\"" + s[i + 1..j.value] + "\"", j.value + 1))
        else None
    case Literal(pat, rep) =>
      if |pat| > 0 && MatchesCIAt(s, i, pat) then Some(Match(rep, i + |pat|)) else None
    case NowWord =>
      if (i == 0 || !IsWord(s[i - 1])) && MatchesCIAt(s, i, "NOW()") && i + 5 < |s| && IsWord(s[i + 5])
      then Some(Match("NOW()", i + 5))
      else None
    case DateSub(anchors, pre, post) =>
      if !MatchesCIAt(s, i, "DATE_SUB") then None
      else
        var a := SkipSpace(s, i + 8);
        if a < |s| && s[a] == '(' then
          var b := SkipSpace(s, a + 1);
          var r := DateSubTail(s, b, anchors, pre, post);
          assert r.Some? ==> i < b < r.value.end && AnchorAt(s, b, anchors);
          r
        else None
    case FirstParen(name, boundary, pre, post) =>
      var open := i + |name|;
      if (boundary && i > 0 && IsWord(s[i - 1])) || !MatchesCIAt(s, i, name) || open >= |s| || s[open] != '(' then None
      else
        var c := IndexOf(s, ")", open + 1);
        if c.Some? && c.value > open + 1 then Some(Match(pre + s[open + 1..c.value] + post, c.value + 1))
        else None
    case InsertIgnore =>
      if !MatchesCIAt(s, i, "INSERT") then None
      else
        var a := SkipSpace(s, i + 6);
        if a == i + 6 || !MatchesCIAt(s, a, "IGNORE") then None
        else
          var b := SkipSpace(s, a + 6);
          if b == a + 6 || !MatchesCIAt(s, b, "INTO") then None
          else Some(Match("INSERT INTO", b + 4))
  }

  /** `s.slice(i).replace(regex, ...)` with the regex's global flag. */
  function RewriteFrom(rule: Rule, s: string, i: nat): string
    requires i <= |s|
    decreases |s| - i
  {
    if i == |s| then []
    else match MatchAt(rule, s, i)
      case Some(m) => m.replacement + RewriteFrom(rule, s, m.end)
      case None => [s[i]] + RewriteFrom(rule, s, i + 1)
  }

  function Rewrite(rule: Rule, s: string): string {
    RewriteFrom(rule, s, 0)
  }

  // ---------------------------------------------------------------------------
  // Generic facts about a rewrite pass

  /** Where the regex matches nowhere, the pass is the identity. */
  lemma {:induction false} RewriteNoMatch(rule: Rule, s: string, i: nat)
    requires i <= |s|
    requires forall j :: i <= j < |s| ==> MatchAt(rule, s, j).None?
    ensures RewriteFrom(rule, s, i) == s[i..]
    decreases |s| - i
  {
    if i < |s| {
      assert MatchAt(rule, s, i).None?;
      RewriteNoMatch(rule, s, i + 1);
      assert s[i..] == [s[i]] + s[i + 1..];
    }
  }

  /** The rules whose replacement differs from the matched text only in letter case. */
  predicate CaseOnly(rule: Rule) {
    rule == NowWord || rule == FirstParen("DATE", false, "date(", ")")
  }

  lemma UpperAppend(a: string, b: string)
    ensures Upper(a + b) == Upper(a) + Upper(b)
  {
  }

  lemma {:induction false} NowCaseOnly(s: string, i: nat)
    requires i < |s| && MatchAt(NowWord, s, i).Some?
    ensures Upper(MatchAt(NowWord, s, i).value.replacement) == Upper(s[i..MatchAt(NowWord, s, i).value.end])
  {
    var m := MatchAt(NowWord, s, i).value;
    var seg := s[i..m.end];
    assert MatchesCIAt(s, i, "NOW()");
    forall k | 0 <= k < 5 ensures Upper(m.replacement)[k] == Upper(seg)[k] {
      assert EqCI(s[i + k], "NOW()"[k]);
    }
  }

  lemma {:induction false} DateCaseOnly(s: string, i: nat)
    requires i < |s| && MatchAt(FirstParen("DATE", false, "date(", ")"), s, i).Some?
    ensures var m := MatchAt(FirstParen("DATE", false, "date(", ")"), s, i).value;
      Upper(m.replacement) == Upper(s[i..m.end])
  {
    var m := MatchAt(FirstParen("DATE", false, "date(", ")"), s, i).value;
    var seg := s[i..m.end];
    IndexOfSpec(s, ")", i + 5);
    assert MatchesCIAt(s, i, "DATE") && s[i + 4] == '(' && s[m.end - 1] == ')';
    forall k | 0 <= k < |seg| ensures Upper(m.replacement)[k] == Upper(seg)[k] {
      if k < 4 {
        assert EqCI(s[i + k], "DATE"[k]);
      }
    }
  }

  lemma {:induction false} MatchCaseOnly(rule: Rule, s: string, i: nat)
    requires CaseOnly(rule) && i < |s| && MatchAt(rule, s, i).Some?
    ensures Upper(MatchAt(rule, s, i).value.replacement) == Upper(s[i..MatchAt(rule, s, i).value.end])
  {
    if rule == NowWord {
      NowCaseOnly(s, i);
    } else {
      DateCaseOnly(s, i);
    }
  }

  /** A case-only rule changes no character other than by letter case. */
  lemma {:induction false} RewriteCaseOnly(rule: Rule, s: string, i: nat)
    requires CaseOnly(rule) && i <= |s|
    ensures Upper(RewriteFrom(rule, s, i)) == Upper(s[i..])
    decreases |s| - i
  {
    if i < |s| {
      var m := MatchAt(rule, s, i);
      var next := if m.Some? then m.value.end else i + 1;
      var piece := if m.Some? then m.value.replacement else [s[i]];
      RewriteCaseOnly(rule, s, next);
      if m.Some? {
        MatchCaseOnly(rule, s, i);
      }
      UpperSplice(piece, RewriteFrom(rule, s, next), s, i, next);
    }
  }

  lemma {:induction false} UpperSplice(x: string, y: string, s: string, i: nat, j: nat)
    requires i <= j <= |s| && Upper(x) == Upper(s[i..j]) && Upper(y) == Upper(s[j..])
    ensures Upper(x + y) == Upper(s[i..])
  {
    UpperAppend(x, y);
    assert s[i..] == s[i..j] + s[j..];
    UpperAppend(s[i..j], s[j..]);
  }

  // ---------------------------------------------------------------------------
  // What a fixed-text pass leaves behind

  /** Neither of `a`, `b` is a prefix of the other, ignoring case. */
  predicate Clash(a: string, b: string) {
    exists k :: 0 <= k < |a| && k < |b| && !EqCI(a[k], b[k])
  }

  /** The replacement `rep` can neither contain `pat` nor complete an occurrence
      of `pat` begun in the text before it. */
  predicate Separated(pat: string, rep: string) {
    && |pat| > 0
    && (forall j :: 0 <= j < |rep| ==> Clash(rep[j..], pat))
    && (forall k :: 1 <= k < |pat| ==> Clash(rep, pat[k..]))
  }

  /** No occurrence of `pat`, ignoring case, at or after `i`. */
  predicate Absent(s: string, i: nat, pat: string) {
    forall j :: i <= j <= |s| ==> !MatchesCIAt(s, j, pat)
  }

  lemma {:induction false} ClashPrefix(a: string, y: string, q: string)
    requires Clash(a, q)
    ensures !MatchesCIAt(a + y, 0, q)
  {
    var k :| 0 <= k < |a| && k < |q| && !EqCI(a[k], q[k]);
    assert (a + y)[0 + k] == a[k];
  }

  lemma {:induction false} MatchesCIStep(c: char, t: string, q: string)
    requires |q| > 0
    ensures MatchesCIAt([c] + t, 0, q) <==>
              EqCI(c, q[0]) && (|q| == 1 || MatchesCIAt(t, 0, q[1..]))
  {
    var x := [c] + t;
    if MatchesCIAt(x, 0, q) {
      assert x[0 + 0] == c;
      forall k | 0 <= k < |q| - 1 ensures EqCI(t[0 + k], q[1..][k]) {
        assert x[0 + (k + 1)] == t[k];
      }
    }
    if EqCI(c, q[0]) && (|q| == 1 || MatchesCIAt(t, 0, q[1..])) {
      forall k | 0 <= k < |q| ensures EqCI(x[0 + k], q[k]) {
        if k > 0 {
          assert x[k] == t[0 + (k - 1)];
          assert q[k] == q[1..][k - 1];
        }
      }
    }
  }

  lemma {:induction false} MatchesCIShift(x: string, i: nat, q: string)
    requires i <= |x|
    ensures MatchesCIAt(x[i..], 0, q) <==> MatchesCIAt(x, i, q)
  {
    if MatchesCIAt(x[i..], 0, q) {
      forall k | 0 <= k < |q| ensures EqCI(x[i + k], q[k]) {
        assert x[i..][0 + k] == x[i + k];
      }
    }
    if MatchesCIAt(x, i, q) {
      forall k | 0 <= k < |q| ensures EqCI(x[i..][0 + k], q[k]) {
        assert x[i..][0 + k] == x[i + k];
      }
    }
  }

  /** If the output of a fixed-text pass begins with a proper tail of `pat`, the
      input already did. */
  lemma {:induction false} TailSurvives(pat2: string, rep: string, pat: string, k: nat, s: string, i: nat)
    requires i <= |s| && 1 <= k < |pat|
    requires forall k' :: 1 <= k' < |pat| ==> Clash(rep, pat[k'..])
    requires MatchesCIAt(RewriteFrom(Literal(pat2, rep), s, i), 0, pat[k..])
    ensures MatchesCIAt(s, i, pat[k..])
    decreases |s| - i
  {
    var rule := Literal(pat2, rep);
    if i < |s| {
      var q := pat[k..];
      LiteralLeadsWith(pat2, rep, s, i, q);
      assert MatchAt(rule, s, i).None?;
      var rest := RewriteFrom(rule, s, i + 1);
      SkipHead(rule, s, i, q);
      if k + 1 < |pat| {
        assert q[1..] == pat[k + 1..];
        assert MatchesCIAt(rest, 0, pat[k + 1..]);
        TailSurvives(pat2, rep, pat, k + 1, s, i + 1);
        assert MatchesCIAt(s, i + 1, q[1..]);
      }
      ConsBack(s, i, q);
    }
  }

  /** Where a pass copies `s[i]`, an output starting with `q` means `s[i]` is `q`'s
      first character and the rest of the output starts with the rest of `q`. */
  lemma SkipHead(rule: Rule, s: string, i: nat, q: string)
    requires i < |s| && |q| > 0 && MatchAt(rule, s, i).None?
    requires MatchesCIAt(RewriteFrom(rule, s, i), 0, q)
    ensures EqCI(s[i], q[0]) && (|q| == 1 || MatchesCIAt(RewriteFrom(rule, s, i + 1), 0, q[1..]))
  {
    RewriteSkip(rule, s, i);
    MatchesCIStep(s[i], RewriteFrom(rule, s, i + 1), q);
  }

  /** Where a fixed-text pass matches, its output starts with the replacement. */
  lemma LiteralLeadsWith(pat2: string, rep: string, s: string, i: nat, q: string)
    requires i < |s|
    ensures MatchAt(Literal(pat2, rep), s, i).Some? && Clash(rep, q) ==>
              !MatchesCIAt(RewriteFrom(Literal(pat2, rep), s, i), 0, q)
  {
    var rule := Literal(pat2, rep);
    var m := MatchAt(rule, s, i);
    if m.Some? && Clash(rep, q) {
      ClashPrefix(rep, RewriteFrom(rule, s, m.value.end), q);
    }
  }

  lemma {:induction false} ConsBack(s: string, i: nat, q: string)
    requires i < |s| && |q| > 0 && EqCI(s[i], q[0])
    requires |q| == 1 || MatchesCIAt(s, i + 1, q[1..])
    ensures MatchesCIAt(s, i, q)
  {
    forall k | 0 < k < |q| ensures EqCI(s[i + k], q[k]) {
      assert q[k] == q[1..][k - 1];
    }
  }

  /** A text whose first `|a|` positions start no occurrence of `pat`, followed by
      a text without `pat`, has no occurrence of `pat`. */
  lemma {:induction false} AbsentPrepend(a: string, rest: string, pat: string)
    requires forall j :: 0 <= j < |a| ==> !MatchesCIAt(a + rest, j, pat)
    requires Absent(rest, 0, pat)
    ensures Absent(a + rest, 0, pat)
  {
    var out := a + rest;
    forall j | |a| <= j <= |out| ensures !MatchesCIAt(out, j, pat) {
      assert out[j..] == rest[j - |a|..];
      MatchesCIShift(out, j, pat);
      MatchesCIShift(rest, j - |a|, pat);
    }
  }

  lemma {:induction false} ClashAt(rep: string, rest: string, pat: string, j: nat)
    requires j < |rep| && Clash(rep[j..], pat)
    ensures !MatchesCIAt(rep + rest, j, pat)
  {
    var k :| 0 <= k < |rep[j..]| && k < |pat| && !EqCI(rep[j..][k], pat[k]);
    assert (rep + rest)[j + k] == rep[j..][k];
  }

  /** Where a fixed-text pass copies a character, no occurrence of `pat` starts
      there in its output. */
  lemma {:induction false} CopiedHead(pat2: string, rep: string, pat: string, s: string, i: nat)
    requires i < |s| && Separated(pat, rep) && MatchAt(Literal(pat2, rep), s, i).None?
    requires pat == pat2 || Absent(s, i, pat)
    ensures !MatchesCIAt([s[i]] + RewriteFrom(Literal(pat2, rep), s, i + 1), 0, pat)
  {
    var rest := RewriteFrom(Literal(pat2, rep), s, i + 1);
    if MatchesCIAt([s[i]] + rest, 0, pat) {
      MatchesCIStep(s[i], rest, pat);
      if |pat| > 1 {
        TailSurvives(pat2, rep, pat, 1, s, i + 1);
        MatchesCIShift(s, i + 1, pat[1..]);
      }
      assert s[i..] == [s[i]] + s[i + 1..];
      MatchesCIStep(s[i], s[i + 1..], pat);
      MatchesCIShift(s, i, pat);
      assert false;
    }
  }

  /** A fixed-text pass `pat2 -> rep` leaves no occurrence of `pat` when either
      it is the pass that removes `pat` or the input had none, provided `rep`
      and `pat` are separated. */
  lemma {:induction false} LiteralLeavesAbsent(pat2: string, rep: string, pat: string, s: string, i: nat)
    requires i <= |s| && Separated(pat, rep)
    requires pat == pat2 || Absent(s, i, pat)
    ensures Absent(RewriteFrom(Literal(pat2, rep), s, i), 0, pat)
    decreases |s| - i
  {
    var rule := Literal(pat2, rep);
    if i < |s| {
      match MatchAt(rule, s, i)
      case Some(m) =>
        var rest := RewriteFrom(rule, s, m.end);
        LiteralLeavesAbsent(pat2, rep, pat, s, m.end);
        forall j | 0 <= j < |rep| ensures !MatchesCIAt(rep + rest, j, pat) {
          ClashAt(rep, rest, pat, j);
        }
        AbsentPrepend(rep, rest, pat);
      case None =>
        var rest := RewriteFrom(rule, s, i + 1);
        LiteralLeavesAbsent(pat2, rep, pat, s, i + 1);
        CopiedHead(pat2, rep, pat, s, i);
        AbsentPrepend([s[i]], rest, pat);
    }
  }

  // ---------------------------------------------------------------------------
  // Passes that cannot change the text

  /** At `j` the regex of `rule` either fails or matches text equal to its replacement. */
  predicate FixedAt(rule: Rule, s: string, j: nat)
    requires j < |s|
  {
    MatchAt(rule, s, j).Some? ==> MatchAt(rule, s, j).value.replacement == s[j..MatchAt(rule, s, j).value.end]
  }

  /** One step of the global replacement: the piece at `i` and where it resumes. */
  lemma {:induction false} RewriteStep(rule: Rule, s: string, i: nat)
    requires i < |s|
    ensures var m := MatchAt(rule, s, i);
      RewriteFrom(rule, s, i)
      == if m.Some? then m.value.replacement + RewriteFrom(rule, s, m.value.end)
         else [s[i]] + RewriteFrom(rule, s, i + 1)
  {
  }

  lemma SliceSplit(s: string, i: nat, j: nat)
    requires i <= j <= |s|
    ensures s[i..] == s[i..j] + s[j..]
  {
  }

  /** A pass whose every match reproduces the matched text is the identity. */
  lemma {:induction false} RewriteFixed(rule: Rule, s: string, i: nat)
    requires i <= |s|
    requires forall j :: i <= j < |s| ==> FixedAt(rule, s, j)
    ensures RewriteFrom(rule, s, i) == s[i..]
    decreases |s| - i
  {
    if i < |s| {
      assert FixedAt(rule, s, i);
      RewriteStep(rule, s, i);
      var m := MatchAt(rule, s, i);
      var next := if m.Some? then m.value.end else i + 1;
      RewriteFixed(rule, s, next);
      SliceSplit(s, i, next);
      assert s[i..next] == if m.Some? then m.value.replacement else [s[i]];
    }
  }

  /** A pass with no match in `s[i..p]` copies that stretch as it is. */
  lemma {:induction false} RewriteCopy(rule: Rule, s: string, i: nat, p: nat)
    requires i <= p <= |s|
    requires forall j :: i <= j < p ==> MatchAt(rule, s, j).None?
    ensures RewriteFrom(rule, s, i) == s[i..p] + RewriteFrom(rule, s, p)
    decreases p - i
  {
    if i < p {
      RewriteSkip(rule, s, i);
      RewriteCopy(rule, s, i + 1, p);
      ConsSlice(s, i, p, RewriteFrom(rule, s, p));
    } else {
      ConsSlice(s, i, p, RewriteFrom(rule, s, p));
    }
  }

  /** Where nothing matches, a pass copies one character and moves on. */
  lemma RewriteSkip(rule: Rule, s: string, i: nat)
    requires i < |s| && MatchAt(rule, s, i).None?
    ensures RewriteFrom(rule, s, i) == [s[i]] + RewriteFrom(rule, s, i + 1)
  {
  }

  lemma ConsSlice(s: string, i: nat, p: nat, x: string)
    requires i <= p <= |s|
    ensures i < p ==> s[i..p] + x == [s[i]] + (s[i + 1..p] + x)
    ensures i == p ==> s[i..p] + x == x
  {
    if i < p {
      assert s[i..p] == [s[i]] + s[i + 1..p];
    }
  }

  /** A pass whose only match is `m`, at `p`, splices its replacement in. */
  lemma {:induction false} RewriteOnce(rule: Rule, s: string, p: nat, m: Match)
    requires p < |s| && MatchAt(rule, s, p) == Some(m)
    requires forall j :: 0 <= j < p ==> MatchAt(rule, s, j).None?
    requires forall j :: m.end <= j < |s| ==> MatchAt(rule, s, j).None?
    ensures Rewrite(rule, s) == s[..p] + m.replacement + s[m.end..]
  {
    RewriteCopy(rule, s, 0, p);
    RewriteStep(rule, s, p);
    RewriteNoMatch(rule, s, m.end);
    assert s[0..p] == s[..p];
  }

  /** A pass that matches nowhere leaves the text as it is. */
  lemma {:induction false} RewriteNone(rule: Rule, s: string)
    requires forall j :: 0 <= j < |s| ==> MatchAt(rule, s, j).None?
    ensures Rewrite(rule, s) == s
  {
    RewriteNoMatch(rule, s, 0);
    assert s[0..] == s;
  }

  /** Two rules that match alike on `s` rewrite it alike. */
  lemma {:induction false} RewriteSame(r1: Rule, r2: Rule, s: string, i: nat)
    requires i <= |s|
    requires forall j :: i <= j < |s| ==> MatchAt(r1, s, j) == MatchAt(r2, s, j)
    ensures RewriteFrom(r1, s, i) == RewriteFrom(r2, s, i)
    decreases |s| - i
  {
    if i < |s| {
      var m := MatchAt(r1, s, i);
      RewriteSame(r1, r2, s, if m.Some? then m.value.end else i + 1);
    }
  }

  /** A DATE_SUB pass none of whose anchors occurs is the identity. */
  lemma {:induction false} DateSubNoAnchor(anchors: seq<string>, pre: string, post: string, s: string)
    requires forall a :: a in anchors ==> Absent(s, 0, a)
    ensures Rewrite(DateSub(anchors, pre, post), s) == s
  {
    forall p: nat ensures !AnchorAt(s, p, anchors) {
      forall a | a in anchors ensures !MatchesCIAt(s, p, a) {
        assert Absent(s, 0, a);
      }
    }
    RewriteNoMatch(DateSub(anchors, pre, post), s, 0);
  }

  /** An alternative of a DATE_SUB pattern whose text does not occur can be dropped. */
  lemma {:induction false} DateSubDropAnchor(a0: string, rest: seq<string>, pre: string, post: string, s: string)
    requires Absent(s, 0, a0)
    ensures Rewrite(DateSub([a0] + rest, pre, post), s) == Rewrite(DateSub(rest, pre, post), s)
  {
    forall j | 0 <= j < |s|
      ensures MatchAt(DateSub([a0] + rest, pre, post), s, j) == MatchAt(DateSub(rest, pre, post), s, j)
    {
      if MatchesCIAt(s, j, "DATE_SUB") {
        var a := SkipSpace(s, j + 8);
        if a < |s| && s[a] == '(' {
          var b := SkipSpace(s, a + 1);
          assert !MatchesCIAt(s, b, a0);
          assert ([a0] + rest)[1..] == rest;
        }
      }
    }
    RewriteSame(DateSub([a0] + rest, pre, post), DateSub(rest, pre, post), s, 0);
  }

  /** Texts equal up to letter case contain the same case-insensitive occurrences. */
  lemma {:induction false} SameUpperMatches(x: string, y: string, j: nat, p: string)
    requires Upper(x) == Upper(y)
    ensures MatchesCIAt(x, j, p) <==> MatchesCIAt(y, j, p)
  {
    if j + |p| <= |x| {
      forall k | 0 <= k < |p| ensures EqCI(x[j + k], p[k]) <==> EqCI(y[j + k], p[k]) {
        assert Upper(x)[j + k] == Upper(y)[j + k];
      }
    }
  }

  /** A case-only pass keeps a text free of `p`. */
  lemma {:induction false} CaseOnlyKeepsAbsent(rule: Rule, s: string, p: string)
    requires CaseOnly(rule) && Absent(s, 0, p)
    ensures Absent(Rewrite(rule, s), 0, p)
  {
    var out := Rewrite(rule, s);
    RewriteCaseOnly(rule, s, 0);
    assert s[0..] == s;
    forall j | 0 <= j <= |out| ensures !MatchesCIAt(out, j, p) {
      SameUpperMatches(out, s, j, p);
    }
  }

  // ---------------------------------------------------------------------------
  // Deciding `Separated` on given texts

  /** `a[i..]` and `b[j..]` clash, decided character by character. */
  function ClashFrom(a: string, i: nat, b: string, j: nat): bool
    decreases |a| - i
  {
    if i >= |a| || j >= |b| then false
    else !EqCI(a[i], b[j]) || ClashFrom(a, i + 1, b, j + 1)
  }

  lemma {:induction false} ClashFromSound(a: string, i: nat, b: string, j: nat)
    requires i <= |a| && j <= |b| && ClashFrom(a, i, b, j)
    ensures Clash(a[i..], b[j..])
    decreases |a| - i
  {
    if EqCI(a[i], b[j]) {
      ClashFromSound(a, i + 1, b, j + 1);
      var k :| 0 <= k < |a[i + 1..]| && k < |b[j + 1..]| && !EqCI(a[i + 1..][k], b[j + 1..][k]);
      assert a[i..][k + 1] == a[i + 1..][k] && b[j..][k + 1] == b[j + 1..][k];
    } else {
      assert a[i..][0] == a[i] && b[j..][0] == b[j];
    }
  }

  /** Every tail of `rep` from index `j` on clashes with `pat`. */
  function TailsClash(rep: string, pat: string, j: nat): bool
    decreases |rep| - j
  {
    j >= |rep| || (ClashFrom(rep, j, pat, 0) && TailsClash(rep, pat, j + 1))
  }

  /** `rep` clashes with every tail of `pat` from index `k` on. */
  function ClashesTails(rep: string, pat: string, k: nat): bool
    decreases |pat| - k
  {
    k >= |pat| || (ClashFrom(rep, 0, pat, k) && ClashesTails(rep, pat, k + 1))
  }

  /** `Separated`, decided. */
  predicate SeparatedCheck(pat: string, rep: string) {
    |pat| > 0 && TailsClash(rep, pat, 0) && ClashesTails(rep, pat, 1)
  }

  lemma {:induction false} TailsClashSound(rep: string, pat: string, j: nat)
    requires TailsClash(rep, pat, j)
    ensures forall j' :: j <= j' < |rep| ==> Clash(rep[j'..], pat)
    decreases |rep| - j
  {
    if j < |rep| {
      TailsClashSound(rep, pat, j + 1);
      ClashFromSound(rep, j, pat, 0);
      assert pat[0..] == pat;
    }
  }

  lemma {:induction false} ClashesTailsSound(rep: string, pat: string, k: nat)
    requires ClashesTails(rep, pat, k)
    ensures forall k' :: k <= k' < |pat| ==> Clash(rep, pat[k'..])
    decreases |pat| - k
  {
    if k < |pat| {
      ClashesTailsSound(rep, pat, k + 1);
      ClashFromSound(rep, 0, pat, k);
      assert rep[0..] == rep;
    }
  }

  lemma {:induction false} SeparatedCheckSound(pat: string, rep: string)
    requires SeparatedCheck(pat, rep)
    ensures Separated(pat, rep)
  {
    TailsClashSound(rep, pat, 0);
    ClashesTailsSound(rep, pat, 1);
  }
}

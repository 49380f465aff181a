/** The parenthesis-depth scanner of the SQLite translator:
    `extractArg` and `replaceFn` (server/config/database.js:213-237). */
module Scanner {
  import opened Common
  import opened Text

  function Delta(c: char): int {
    if c == '(' then 1 else if c == ')' then -1 else 0
  }

  /** Nesting depth reached after reading `t`: opened minus closed parentheses. */
  function Depth(t: string): int {
    if t == [] then 0 else Depth(t[..|t| - 1]) + Delta(t[|t| - 1])
  }

  lemma {:induction false} DepthAppend(a: string, b: string)
    ensures Depth(a + b) == Depth(a) + Depth(b)
    decreases |b|
  {
    if b != [] {
      var b' := b[..|b| - 1];
      assert (a + b)[..|a + b| - 1] == a + b';
      DepthAppend(a, b');
    } else {
      assert a + b == a;
    }
  }

  lemma DepthStep(s: string, pos: nat, j: nat)
    requires pos <= j < |s|
    ensures Depth(s[pos..j + 1]) == Depth(s[pos..j]) + Delta(s[j])
  {
    assert s[pos..j + 1][..j - pos] == s[pos..j];
  }

  /** A balanced argument: its depth never drops below zero and ends at zero. */
  predicate Balanced(arg: string) {
    Depth(arg) == 0 && forall k :: 0 <= k <= |arg| ==> Depth(arg[..k]) >= 0
  }

  /** No parenthesis in `t`. */
  predicate ParenFree(t: string) {
    forall k :: 0 <= k < |t| ==> Delta(t[k]) == 0
  }

  lemma {:induction false} ParenFreeDepth(t: string, k: nat)
    requires ParenFree(t) && k <= |t|
    ensures Depth(t[..k]) == 0
  {
    if k > 0 {
      ParenFreeDepth(t, k - 1);
      assert t[..k][..k - 1] == t[..k - 1];
    }
  }

  /** A call `a(b)` with no parenthesis in `a` or `b` is balanced. */
  lemma {:induction false} CallBalanced(a: string, b: string)
    requires ParenFree(a) && ParenFree(b)
    ensures Balanced(a + "(" + b + ")")
  {
    var t := a + "(" + b + ")";
    ParenFreeDepth(a, |a|);
    ParenFreeDepth(b, |b|);
    assert a[..|a|] == a && b[..|b|] == b;
    DepthAppend(a, "(");
    DepthAppend(a + "(", b);
    DepthAppend(a + "(" + b, ")");
    forall k | 0 <= k <= |t| ensures Depth(t[..k]) >= 0 {
      if k <= |a| {
        assert t[..k] == a[..k];
        ParenFreeDepth(a, k);
      } else if k <= |a| + 1 + |b| {
        assert t[..k] == a + "(" + b[..k - |a| - 1];
        ParenFreeDepth(b, k - |a| - 1);
        DepthAppend(a + "(", b[..k - |a| - 1]);
      } else {
        assert t[..k] == t;
      }
    }
  }

  /** The scan of `extractArg` from index `i`, with `depth` counted so far:
      the index of the `)` that brings the depth back to zero, if any. */
  function CloseFrom(s: string, i: nat, depth: int): (r: Option<nat>)
    requires i <= |s|
    ensures r.Some? ==> i <= r.value < |s| && s[r.value] == ')'
    ensures r.Some? && r.value == i ==> depth == 1
    decreases |s| - i
  {
    if i == |s| then None
    else if s[i] == ')' && depth - 1 == 0 then Some(i)
    else CloseFrom(s, i + 1, depth + Delta(s[i]))
  }

  /** What `extractArg(s, pos)` returns. */
  function ArgAt(s: string, pos: nat): string {
    if pos >= |s| then []
    else match CloseFrom(s, pos, 0)
      case Some(c) => s[pos + 1..c]
      case None => s[pos + 1..]
  }

  /** `extractArg`: from the `(` at `pos`, the text up to the matching `)`, or the
      rest of the string when there is none. */
  method ExtractArg(sql: string, pos: nat) returns (arg: string)
    ensures arg == ArgAt(sql, pos)
  {
    var depth, i := 0, pos;
    while i < |sql|
      invariant pos <= i && (i <= |sql| || i == pos)
      invariant i == pos ==> depth == 0
      invariant i <= |sql| ==> CloseFrom(sql, pos, 0) == CloseFrom(sql, i, depth)
      decreases |sql| - i
    {
      if sql[i] == '(' {
        depth := depth + 1;
      } else if sql[i] == ')' {
        depth := depth - 1;
        if depth == 0 {
          return sql[pos + 1..i];
        }
      }
      i := i + 1;
    }
    arg := if pos + 1 <= |sql| then sql[pos + 1..] else [];
  }

  /** Where the scan from `i` stops: at the matching `)`, or at the end of `s`. */
  function Reach(s: string, i: nat, depth: int): nat
    requires i <= |s|
  {
    match CloseFrom(s, i, depth)
    case Some(c) => c
    case None => |s|
  }

  /** The matching `)` brings the depth counted from the opening `(` back to zero. */
  lemma {:induction false} CloseFromZero(s: string, pos: nat, i: nat, depth: int)
    requires pos < i <= |s| && depth == Depth(s[pos..i])
    ensures CloseFrom(s, i, depth).Some? ==> Depth(s[pos..CloseFrom(s, i, depth).value + 1]) == 0
    decreases |s| - i
  {
    if i < |s| {
      DepthStep(s, pos, i);
      if !(s[i] == ')' && depth - 1 == 0) {
        CloseFromZero(s, pos, i + 1, depth + Delta(s[i]));
      }
    }
  }

  /** Below the matching `)` the depth counted from the opening `(` stays at least one. */
  lemma {:induction false} CloseFromAbove(s: string, pos: nat, i: nat, depth: int)
    requires pos < i <= |s|
    requires depth == Depth(s[pos..i]) && forall j :: pos < j <= i ==> Depth(s[pos..j]) >= 1
    ensures forall j :: pos < j <= Reach(s, i, depth) ==> Depth(s[pos..j]) >= 1
    decreases |s| - i
  {
    if i < |s| && !(s[i] == ')' && depth - 1 == 0) {
      DepthStep(s, pos, i);
      CloseFromAbove(s, pos, i + 1, depth + Delta(s[i]));
      assert Reach(s, i, depth) == Reach(s, i + 1, depth + Delta(s[i]));
    }
  }

  /** The scan `extractArg` starts on a `(`, as seen from the character after it. */
  lemma OpenParen(s: string, pos: nat)
    requires pos < |s| && s[pos] == '('
    ensures Depth(s[pos..pos + 1]) == 1 && CloseFrom(s, pos, 0) == CloseFrom(s, pos + 1, 1)
    ensures ArgAt(s, pos) == s[pos + 1..Reach(s, pos + 1, 1)]
  {
    assert s[pos..pos + 1][..0] == [];
  }

  lemma DepthOpen(s: string, pos: nat, k: nat)
    requires pos < |s| && s[pos] == '(' && pos + 1 + k <= |s|
    ensures Depth(s[pos..pos + 1 + k]) == 1 + Depth(s[pos + 1..pos + 1 + k])
  {
    assert s[pos..pos + 1 + k] == s[pos..pos + 1] + s[pos + 1..pos + 1 + k];
    DepthAppend(s[pos..pos + 1], s[pos + 1..pos + 1 + k]);
    assert s[pos..pos + 1][..0] == [];
  }

  /** What `extractArg` promises when started on a `(`: the argument is the text
      right after it, its depth never goes negative, and either the next character
      is the `)` that balances it or the argument runs to the end of the string. */
  lemma {:induction false} ArgAtSpec(s: string, pos: nat)
    requires pos < |s| && s[pos] == '('
    ensures var arg := ArgAt(s, pos);
      && pos + 1 + |arg| <= |s| && arg == s[pos + 1..pos + 1 + |arg|]
      && (forall k :: 0 <= k <= |arg| ==> Depth(arg[..k]) >= 0)
      && ((pos + 1 + |arg| < |s| && s[pos + 1 + |arg|] == ')' && Depth(arg) == 0)
          || pos + 1 + |arg| == |s|)
  {
    OpenParen(s, pos);
    CloseFromZero(s, pos, pos + 1, 1);
    CloseFromAbove(s, pos, pos + 1, 1);
    var arg := ArgAt(s, pos);
    PrefixDepths(s, pos, Reach(s, pos + 1, 1), arg);
    if CloseFrom(s, pos, 0).Some? {
      var c := CloseFrom(s, pos, 0).value;
      DepthStep(s, pos, c);
      DepthOpen(s, pos, |arg|);
    }
  }

  /** Where the depth counted from a `(` stays at least one, the depth counted
      from the character after it stays at least zero. */
  lemma {:induction false} PrefixDepths(s: string, pos: nat, r: nat, arg: string)
    requires pos < r <= |s| && s[pos] == '(' && arg == s[pos + 1..r]
    requires forall j :: pos < j <= r ==> Depth(s[pos..j]) >= 1
    ensures forall k :: 0 <= k <= |arg| ==> Depth(arg[..k]) >= 0
  {
    forall k | 0 <= k <= |arg| ensures Depth(arg[..k]) >= 0 {
      assert arg[..k] == s[pos + 1..pos + 1 + k];
      DepthOpen(s, pos, k);
    }
  }

  /** A balanced argument followed by `)` is exactly what `extractArg` returns. */
  lemma {:induction false} ArgAtBalanced(s: string, pos: nat, arg: string)
    requires pos + 1 + |arg| < |s| && s[pos] == '(' && s[pos + 1..pos + 1 + |arg|] == arg
    requires s[pos + 1 + |arg|] == ')' && Balanced(arg)
    ensures ArgAt(s, pos) == arg
  {
    OpenParen(s, pos);
    CloseFromZero(s, pos, pos + 1, 1);
    CloseFromAbove(s, pos, pos + 1, 1);
    BalancedDepths(s, pos, arg);
  }

  /** The depths, counted from the `(`, along a balanced argument and its `)`. */
  lemma {:induction false} BalancedDepths(s: string, pos: nat, arg: string)
    requires pos + 1 + |arg| < |s| && s[pos] == '(' && s[pos + 1..pos + 1 + |arg|] == arg
    requires s[pos + 1 + |arg|] == ')' && Balanced(arg)
    ensures Depth(s[pos..pos + 1 + |arg| + 1]) == 0
    ensures forall j :: pos < j <= pos + 1 + |arg| ==> Depth(s[pos..j]) >= 1
  {
    var c := pos + 1 + |arg|;
    DepthOpen(s, pos, |arg|);
    DepthStep(s, pos, c);
    forall j | pos < j <= c ensures Depth(s[pos..j]) >= 1 {
      var k := j - pos - 1;
      assert arg[..k] == s[pos + 1..pos + 1 + k];
      DepthOpen(s, pos, k);
    }
  }

  // ---------------------------------------------------------------------------
  // Template instantiation: `template.replace('$1', arg)`

  /** The replacement string `repl` with its `$` patterns expanded, as JavaScript's
      string `replace` does for a match of the text `$1` between `before` and `after`. */
  function Expand(repl: string, before: string, after: string): string
    decreases |repl|
  {
    if repl == [] then []
    else if repl[0] == '$' && |repl| >= 2 && repl[1] in "$&`'" then
      (if repl[1] == '$' then "$" else if repl[1] == '&' then "$1" else if repl[1] == '`' then before else after)
      + Expand(repl[2..], before, after)
    else [repl[0]] + Expand(repl[1..], before, after)
  }

  /** `template.replace('$1', arg)`: the first `$1` of the template replaced. */
  function Instantiate(template: string, arg: string): string {
    match IndexOf(template, "$1", 0)
    case None => template
    case Some(p) => template[..p] + Expand(arg, template[..p], template[p + 2..]) + template[p + 2..]
  }

  /** An argument with no `$` is inserted verbatim. */
  lemma {:induction false} ExpandPlain(repl: string, before: string, after: string)
    requires forall k :: 0 <= k < |repl| ==> repl[k] != '$'
    ensures Expand(repl, before, after) == repl
    decreases |repl|
  {
    if repl != [] {
      ExpandPlain(repl[1..], before, after);
    }
  }

  /** In a template whose text before the first `$1` has no `$`, that `$1` is the
      one `replace` finds. */
  lemma {:induction false} FirstPlaceholder(pre: string, post: string)
    requires forall k :: 0 <= k < |pre| ==> pre[k] != '$'
    ensures IndexOf(pre + "$1" + post, "$1", 0) == Some(|pre|)
  {
    var t := pre + "$1" + post;
    assert OccursAt(t, |pre|, "$1");
    IndexOfSpec(t, "$1", 0);
    forall k | 0 <= k < |pre| ensures !OccursAt(t, k, "$1") {
      assert t[k..k + 2][0] == t[k] == pre[k];
    }
  }

  lemma {:induction false} InstantiatePlain(pre: string, post: string, arg: string)
    requires forall k :: 0 <= k < |pre| ==> pre[k] != '$'
    requires forall k :: 0 <= k < |arg| ==> arg[k] != '$'
    ensures Instantiate(pre + "$1" + post, arg) == pre + arg + post
  {
    var t := pre + "$1" + post;
    FirstPlaceholder(pre, post);
    assert t[..|pre|] == pre && t[|pre| + 2..] == post;
    ExpandPlain(arg, pre, post);
  }

  // ---------------------------------------------------------------------------
  // replaceFn

  /** The text `FN(` that `replaceFn` looks for in the upper-cased statement. */
  function Needle(fnName: string): string {
    Upper(fnName) + "("
  }

  /** The end of the text `replaceFn` consumes for the occurrence of `FN(` at
      `idx`: name, parenthesis, argument, parenthesis. */
  function NextIndex(s: string, fnName: string, idx: nat): (j: nat)
    ensures j > idx
  {
    idx + |fnName| + 1 + |ArgAt(s, idx + |fnName|)| + 1
  }

  /** The text `replaceFn` puts in place of the occurrence of `FN(` at `idx`: the
      template instantiated on the argument that `extractArg` finds after it. */
  function Replacement(s: string, fnName: string, template: string, idx: nat): string {
    Instantiate(template, ArgAt(s, idx + |fnName|))
  }

  /** `replaceFn` continued from index `i`; `upper` is the upper-cased statement
      in which the needle is searched. */
  function ReplaceFrom(s: string, upper: string, search: string, fnName: string, template: string, i: nat): string
    requires |upper| == |s|
    decreases |s| - i
  {
    if i >= |s| then []
    else
      var idx := IndexOf(upper, search, i);
      if idx.None? then s[i..]
      else
        s[i..idx.value] + Replacement(s, fnName, template, idx.value)
        + ReplaceFrom(s, upper, search, fnName, template, NextIndex(s, fnName, idx.value))
  }

  lemma ReplaceFromStep(s: string, upper: string, search: string, fnName: string, template: string, i: nat, idx: nat)
    requires |upper| == |s|
    requires i < |s| && IndexOf(upper, search, i) == Some(idx)
    ensures ReplaceFrom(s, upper, search, fnName, template, i)
      == s[i..idx] + Replacement(s, fnName, template, idx)
         + ReplaceFrom(s, upper, search, fnName, template, NextIndex(s, fnName, idx))
  {
  }

  lemma Regroup(a: string, b: string, c: string, d: string)
    ensures a + (b + c + d) == (a + b + c) + d
  {
  }

  /** One turn of the `replaceFn` loop keeps the text produced so far, followed by
      what the rest of the scan produces, equal to the whole result. */
  lemma {:induction false} ReplaceFromAdvance(sql: string, upper: string, search: string, fnName: string, template: string,
                           i: nat, idx: nat, result: string)
    requires |upper| == |sql| && i < |sql| && IndexOf(upper, search, i) == Some(idx)
    ensures result + ReplaceFrom(sql, upper, search, fnName, template, i)
         == (result + sql[i..idx] + Replacement(sql, fnName, template, idx))
            + ReplaceFrom(sql, upper, search, fnName, template, NextIndex(sql, fnName, idx))
  {
    ReplaceFromStep(sql, upper, search, fnName, template, i, idx);
    Regroup(result, sql[i..idx], Replacement(sql, fnName, template, idx),
            ReplaceFrom(sql, upper, search, fnName, template, NextIndex(sql, fnName, idx)));
  }

  /** With `arg` the argument `extractArg` returns for the occurrence at `idx`, the
      loop appends the template on `arg` and resumes right after `fnName + '(' + arg + ')'`. */
  lemma {:induction false} OccurrenceParts(sql: string, fnName: string, template: string, idx: nat, arg: string)
    requires arg == ArgAt(sql, idx + |fnName|)
    ensures Replacement(sql, fnName, template, idx) == Instantiate(template, arg)
    ensures NextIndex(sql, fnName, idx) == idx + |fnName + "(" + arg + ")"|
  {
  }

  /** What `replaceFn(s, fnName, template)` returns. */
  function ReplaceFnSpec(s: string, fnName: string, template: string): string {
    ReplaceFrom(s, Upper(s), Needle(fnName), fnName, template, 0)
  }

  /** The body of the `replaceFn` loop for the needle found at `idx`: the argument
      `extractArg` finds after the name, the template instantiated on it, and the
      index just past `fnName + '(' + arg + ')'`. */
  method ReplaceOccurrence(sql: string, fnName: string, template: string, idx: nat)
    returns (piece: string, next: nat)
    ensures piece == Replacement(sql, fnName, template, idx)
    ensures next == NextIndex(sql, fnName, idx)
  {
    var arg := ExtractArg(sql, idx + |fnName|);
    var fullMatch := fnName + "(" + arg + ")";
    piece := Instantiate(template, arg);
    next := idx + |fullMatch|;
  }

  /** `replaceFn`: every case-insensitive `FN(` with its balanced argument is
      replaced by the template; the text between occurrences is copied. */
  method ReplaceFn(sql: string, fnName: string, template: string) returns (result: string)
    ensures result == ReplaceFnSpec(sql, fnName, template)
  {
    var upper := Upper(sql);
    var search := Needle(fnName);
    result := [];
    var i := 0;
    while i < |sql|
      invariant result + ReplaceFrom(sql, upper, search, fnName, template, i) == ReplaceFnSpec(sql, fnName, template)
      decreases |sql| - i
    {
      var idx := IndexOf(upper, search, i);
      if idx.None? {
        ReplaceFromAbsent(sql, upper, search, fnName, template, i);
        result := result + sql[i..];
        return;
      }
      ReplaceFromAdvance(sql, upper, search, fnName, template, i, idx.value, result);
      var piece, next := ReplaceOccurrence(sql, fnName, template, idx.value);
      result := result + sql[i..idx.value] + piece;
      i := next;
    }
    ReplaceFromEnd(sql, upper, search, fnName, template, i);
    assert result + [] == result;
  }

  /** Past the end of the statement, the scan produces nothing. */
  lemma {:induction false} ReplaceFromEnd(s: string, upper: string, search: string, fnName: string, template: string, i: nat)
    requires |upper| == |s| && i >= |s|
    ensures ReplaceFrom(s, upper, search, fnName, template, i) == []
  {
  }

  /** Past the last `FN(`, the scan copies the rest of the statement. */
  lemma {:induction false} ReplaceFromAbsent(s: string, upper: string, search: string, fnName: string, template: string, i: nat)
    requires |upper| == |s| && i <= |s| && IndexOf(upper, search, i).None?
    ensures ReplaceFrom(s, upper, search, fnName, template, i) == s[i..]
  {
  }

  /** Where no `FN(` occurs, `replaceFn` returns its input. */
  lemma {:induction false} ReplaceFnAbsent(s: string, fnName: string, template: string)
    requires IndexOf(Upper(s), Needle(fnName), 0).None?
    ensures ReplaceFnSpec(s, fnName, template) == s
  {
    ReplaceFromAbsent(s, Upper(s), Needle(fnName), fnName, template, 0);
  }

  lemma {:induction false} NextIndexOf(s: string, fnName: string, p: nat, arg: string)
    requires arg == ArgAt(s, p + |fnName|)
    ensures NextIndex(s, fnName, p) == p + |fnName| + |arg| + 2
  {
  }

  lemma {:induction false} ReplacementOf(s: string, fnName: string, template: string, p: nat, arg: string)
    requires arg == ArgAt(s, p + |fnName|)
    ensures Replacement(s, fnName, template, p) == Instantiate(template, arg)
  {
  }

  /** The scan over a statement whose only needle is at `p`. */
  lemma {:induction false} ReplaceFromOne(s: string, upper: string, search: string, fnName: string, template: string, p: nat)
    requires |upper| == |s| && 0 < |s| && IndexOf(upper, search, 0) == Some(p)
    requires NextIndex(s, fnName, p) <= |s| && IndexOf(upper, search, NextIndex(s, fnName, p)).None?
    ensures ReplaceFrom(s, upper, search, fnName, template, 0)
            == s[..p] + Replacement(s, fnName, template, p) + s[NextIndex(s, fnName, p)..]
  {
    ReplaceFromAbsent(s, upper, search, fnName, template, NextIndex(s, fnName, p));
    ReplaceFromAdvance(s, upper, search, fnName, template, 0, p, []);
    assert [] + s[0..p] == s[..p];
  }

  /** A single `FN(` occurrence at `p`, whose argument `extractArg` finds closed by a
      `)`: `replaceFn` puts the template on that argument in its place and copies
      the text around it. With `ArgAtBalanced`, this holds for any balanced argument. */
  lemma {:induction false} ReplaceFnOne(s: string, fnName: string, template: string, p: nat, arg: string)
    requires arg == ArgAt(s, p + |fnName|) && p + |fnName| + |arg| + 2 <= |s|
    requires IndexOf(Upper(s), Needle(fnName), 0) == Some(p)
    requires IndexOf(Upper(s), Needle(fnName), p + |fnName| + |arg| + 2).None?
    ensures ReplaceFnSpec(s, fnName, template)
            == s[..p] + Instantiate(template, arg) + s[p + |fnName| + |arg| + 2..]
  {
    ReplaceFromOneAt(s, Upper(s), Needle(fnName), fnName, template, p, arg);
    ReplacementOf(s, fnName, template, p, arg);
  }

  /** `ReplaceFromOne` with the end of the occurrence given by its argument. */
  lemma {:induction false} ReplaceFromOneAt(s: string, upper: string, search: string, fnName: string, template: string, p: nat, arg: string)
    requires |upper| == |s| && arg == ArgAt(s, p + |fnName|) && p + |fnName| + |arg| + 2 <= |s|
    requires IndexOf(upper, search, 0) == Some(p)
    requires IndexOf(upper, search, p + |fnName| + |arg| + 2).None?
    ensures ReplaceFrom(s, upper, search, fnName, template, 0)
            == s[..p] + Replacement(s, fnName, template, p) + s[p + |fnName| + |arg| + 2..]
  {
    NextIndexOf(s, fnName, p, arg);
    ReplaceFromOne(s, upper, search, fnName, template, p);
  }

  /** A whole call `FN(x)` with a balanced argument becomes the template on `x`;
      calls nested inside `x` are copied as they are. */
  lemma {:induction false} ReplaceFnWhole(s: string, fnName: string, template: string, x: string)
    requires s == fnName + "(" + x + ")" && Balanced(x)
    ensures ReplaceFnSpec(s, fnName, template) == Instantiate(template, x)
  {
    CallShape(s, fnName, x);
    NeedleAtStart(s, fnName, x);
    ReplaceFnOne(s, fnName, template, 0, x);
    assert s[..0] == [] && s[|fnName| + |x| + 2..] == [];
  }

  /** In a whole call `FN(x)` with `x` balanced, `extractArg` finds `x`, and no
      needle starts past the call. */
  lemma {:induction false} CallShape(s: string, fnName: string, x: string)
    requires s == fnName + "(" + x + ")" && Balanced(x)
    ensures ArgAt(s, |fnName|) == x && |fnName| + |x| + 2 == |s|
    ensures IndexOf(Upper(s), Needle(fnName), |s|).None?
  {
    var n := |fnName|;
    assert s[n] == '(' && s[n + 1..n + 1 + |x|] == x && s[n + 1 + |x|] == ')';
    ArgAtBalanced(s, n, x);
  }

  /** A call starts with its own needle. */
  lemma {:induction false} NeedleAtStart(s: string, fnName: string, x: string)
    requires s == fnName + "(" + x + ")"
    ensures IndexOf(Upper(s), Needle(fnName), 0) == Some(0)
  {
    var n := |fnName|;
    var u := Upper(s);
    assert OccursAt(u, 0, Needle(fnName)) by {
      forall k | 0 <= k < n + 1 ensures u[k] == Needle(fnName)[k] {
        if k < n {
          assert s[k] == fnName[k];
        }
      }
    }
  }

}

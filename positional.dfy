/** `toPositional` (server/config/database.js:71-75): the Postgres driver wants
    `$1, $2, ...` where the application writes `?`. */
module Positional {
  import opened Common
  import opened Text

  /** The statement handed to the Postgres driver. */
  datatype Statement = Statement(text: string, values: seq<Value>)

  /** Replaces each `?` of `sql`, left to right, by `$next`, `$next+1`, ... */
  function Number(sql: string, next: nat): string
    decreases |sql|
  {
    if sql == [] then []
    else if sql[0] == '?' then "$" + Decimal(next) + Number(sql[1..], next + 1)
    else [sql[0]] + Number(sql[1..], next)
  }

  /** `toPositional(sql, params)`: the k-th `?` becomes `$k`, parameters pass unchanged. */
  function ToPositional(sql: string, params: seq<Value>): (r: Statement)
    ensures r.values == params
    ensures Count(r.text, '?') == 0
    ensures Count(r.text, '$') == Count(sql, '$') + Count(sql, '?')
  {
    NumberCounts(sql, 1);
    Statement(Number(sql, 1), params)
  }

  /** Reads the output of `Number(_, next)` back: `$next` becomes `?` and the
      expected index moves on; everything else is copied. */
  function Unnumber(text: string, next: nat): string
    decreases |text|
  {
    if text == [] then []
    else if text[0] == '$' && StartsWith(text[1..], Decimal(next)) then
      "?" + Unnumber(text[1 + |Decimal(next)|..], next + 1)
    else [text[0]] + Unnumber(text[1..], next)
  }

  lemma {:induction false} NumberCounts(sql: string, next: nat)
    ensures Count(Number(sql, next), '?') == 0
    ensures Count(Number(sql, next), '$') == Count(sql, '$') + Count(sql, '?')
  {
    if sql != [] {
      NumberCounts(sql[1..], if sql[0] == '?' then next + 1 else next);
      if sql[0] == '?' {
        var d := Decimal(next);
        CountNoChar(d, '?');
        CountNoChar(d, '$');
        CountAppend("$" + d, Number(sql[1..], next + 1), '?');
        CountAppend("$" + d, Number(sql[1..], next + 1), '$');
        CountAppend("$", d, '?');
        CountAppend("$", d, '$');
      } else {
        CountAppend([sql[0]], Number(sql[1..], next), '?');
        CountAppend([sql[0]], Number(sql[1..], next), '$');
      }
    }
  }

  /** No placeholder is dropped, duplicated or reordered, and no other character
      changes: when the statement has no `$` of its own, reading the markers back
      in order `$1, $2, ...` restores it exactly. */
  lemma {:induction false} NumberRoundTrip(sql: string, next: nat)
    requires forall k :: 0 <= k < |sql| ==> sql[k] != '$'
    ensures Unnumber(Number(sql, next), next) == sql
  {
    if sql != [] {
      if sql[0] == '?' {
        var d := Decimal(next);
        var rest := Number(sql[1..], next + 1);
        var t := "$" + d + rest;
        assert t[1..] == d + rest;
        assert StartsWith(t[1..], d);
        assert t[1 + |d|..] == rest;
        NumberRoundTrip(sql[1..], next + 1);
      } else {
        var t := [sql[0]] + Number(sql[1..], next);
        assert t[1..] == Number(sql[1..], next);
        NumberRoundTrip(sql[1..], next);
      }
    }
  }

  /** The driver text of `toPositional` decodes to the canonical text. */
  lemma PositionalRoundTrip(sql: string, params: seq<Value>)
    requires forall k :: 0 <= k < |sql| ==> sql[k] != '$'
    ensures Unnumber(ToPositional(sql, params).text, 1) == sql
  {
    NumberRoundTrip(sql, 1);
  }
}

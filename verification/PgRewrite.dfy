/**
 * Placeholder rewriting for Postgres: `?` becomes `$1`, `$2`, ... in order of appearance.
 * The canonical SQL is read by binding arguments to the `?`s in turn; the rewritten SQL by
 * replacing each `$` and the longest digit run after it with the argument so numbered.
 */
module PgRewrite {
  import opened Prelude
  import opened Decimal

  function Rewrite(sql: string, n: nat): string {
    if sql == "" then ""
    else if sql[0] == '?' then "$" + (Format(n) + Rewrite(sql[1..], n + 1))
    else [sql[0]] + Rewrite(sql[1..], n)
  }

  lemma Regroup(a: string, b: string, c: string, d: string)
    ensures a + (b + (c + d)) == a + b + c + d
  {
  }

  /** The answer binds to the same text as `sql`, for every argument list, exactly when `sql` is clean. */
  method PgRewriteSql(sql: string) returns (out: string)
    ensures out == Rewrite(sql, 1)
    ensures SameMeaning(sql, out) <==> Clean(sql)
  {
    out := "";
    var n := 1;
    for i := 0 to |sql|
      invariant n >= 1
      invariant out + Rewrite(sql[i..], n) == Rewrite(sql, 1)
    {
      var c := sql[i];
      assert sql[i..][1..] == sql[i + 1..];
      if c == '?' {
        Regroup(out, "$", Format(n), Rewrite(sql[i + 1..], n + 1));
        out := out + "$" + Format(n);
        n := n + 1;
      } else {
        Regroup(out, [c], "", Rewrite(sql[i + 1..], n));
        out := out + [c];
      }
    }
    RewritePreservesMeaningIffClean(sql);
  }

  function Placeholders(sql: string): nat {
    if sql == "" then 0 else (if sql[0] == '?' then 1 else 0) + Placeholders(sql[1..])
  }

  /** Reading of the canonical SQL; `k` arguments are already bound. */
  function BindPositional(sql: string, args: seq<string>, k: nat): string
    requires k + Placeholders(sql) <= |args|
  {
    if sql == "" then ""
    else if sql[0] == '?' then args[k] + BindPositional(sql[1..], args, k + 1)
    else [sql[0]] + BindPositional(sql[1..], args, k)
  }

  /** Length of the digit run `s` starts with. */
  function DigitRun(s: string): (r: nat)
    ensures r <= |s| && AllDigits(s[..r])
    ensures r < |s| ==> !IsDigit(s[r])
  {
    if s == "" || !IsDigit(s[0]) then 0
    else
      var r := 1 + DigitRun(s[1..]);
      assert forall i :: 1 <= i < r ==> s[i] == s[1..][i - 1];
      r
  }

  /** Reading of the rewritten SQL; `None` when a number names no argument. */
  function BindNumbered(sql: string, args: seq<string>): Option<string>
    decreases |sql|
  {
    if sql == "" then Some("")
    else
      var r := if sql[0] == '$' then DigitRun(sql[1..]) else 0;
      var rest := BindNumbered(sql[1..][r..], args);
      if r == 0 then
        if rest.None? then None else Some([sql[0]] + rest.value)
      else
        var num := Parse(sql[1..][..r]);
        if 1 <= num <= |args| && rest.Some? then Some(args[num - 1] + rest.value) else None
  }

  /** No `?` and no `$` stands directly before a digit. */
  predicate Clean(sql: string) {
    forall i :: 0 <= i < |sql| - 1 && (sql[i] == '?' || sql[i] == '$') ==> !IsDigit(sql[i + 1])
  }

  /** Every full argument list binds to the same text in both. */
  ghost predicate SameMeaning(sql: string, out: string) {
    forall args: seq<string> :: |args| == Placeholders(sql) ==>
      BindNumbered(out, args) == Some(BindPositional(sql, args, 0))
  }

  /** The rewrite keeps the meaning of `sql`. */
  ghost predicate PreservesMeaning(sql: string) { SameMeaning(sql, Rewrite(sql, 1)) }

  lemma {:induction false} DigitRunConcat(d: string, tail: string)
    requires AllDigits(d)
    ensures DigitRun(d + tail) == |d| + DigitRun(tail)
  {
    if d == "" {
      assert d + tail == tail;
    } else {
      assert (d + tail)[1..] == d[1..] + tail;
      DigitRunConcat(d[1..], tail);
    }
  }

  lemma RewriteHead(sql: string, n: nat)
    requires sql != ""
    ensures Rewrite(sql, n) != "" && (Rewrite(sql, n)[0] == if sql[0] == '?' then '$' else sql[0])
  {
  }

  /** A number followed by no digit is read back whole. */
  lemma BindOneNumber(d: string, out: string, args: seq<string>)
    requires d != "" && AllDigits(d) && 1 <= Parse(d) <= |args|
    requires out == "" || !IsDigit(out[0])
    ensures BindNumbered("$" + (d + out), args) ==
            match BindNumbered(out, args) { case None => None case Some(t) => Some(args[Parse(d) - 1] + t) }
  {
    var body := d + out;
    DigitRunConcat(d, out);
    assert ("$" + body)[1..] == body;
    assert body[..|d|] == d && body[|d|..] == out;
  }

  lemma BindOneChar(c: char, out: string, args: seq<string>)
    requires c != '$' || out == "" || !IsDigit(out[0])
    ensures BindNumbered([c] + out, args) ==
            match BindNumbered(out, args) { case None => None case Some(t) => Some([c] + t) }
  {
    var whole := [c] + out;
    assert whole[1..] == out && whole[1..][0..] == out;
  }

  lemma NoDigitNext(sql: string, n: nat)
    requires Clean(sql) && sql != "" && (sql[0] == '?' || sql[0] == '$')
    ensures var out := Rewrite(sql[1..], n); out == "" || !IsDigit(out[0])
  {
    if |sql| > 1 {
      assert !IsDigit(sql[0 + 1]);
      RewriteHead(sql[1..], n);
    }
  }

  lemma CleanMark(tail: string, args: seq<string>, k: nat)
    requires Clean("?" + tail) && k < |args|
    requires k + 1 + Placeholders(tail) <= |args|
    requires BindNumbered(Rewrite(tail, k + 2), args) == Some(BindPositional(tail, args, k + 1))
    ensures BindNumbered("$" + (Format(k + 1) + Rewrite(tail, k + 2)), args) ==
            Some(args[k] + BindPositional(tail, args, k + 1))
  {
    assert ("?" + tail)[1..] == tail;
    NoDigitNext("?" + tail, k + 2);
    ParseFormat(k + 1);
    BindOneNumber(Format(k + 1), Rewrite(tail, k + 2), args);
  }

  lemma CleanChar(sql: string, args: seq<string>, k: nat)
    requires Clean(sql) && sql != "" && sql[0] != '?' && k + Placeholders(sql[1..]) <= |args|
    requires BindNumbered(Rewrite(sql[1..], k + 1), args) == Some(BindPositional(sql[1..], args, k))
    ensures BindNumbered([sql[0]] + Rewrite(sql[1..], k + 1), args) ==
            Some([sql[0]] + BindPositional(sql[1..], args, k))
  {
    if sql[0] == '$' { NoDigitNext(sql, k + 1); }
    BindOneChar(sql[0], Rewrite(sql[1..], k + 1), args);
  }

  lemma {:induction false} CleanBinds(sql: string, args: seq<string>, k: nat)
    requires Clean(sql)
    requires k + Placeholders(sql) <= |args|
    ensures BindNumbered(Rewrite(sql, k + 1), args) == Some(BindPositional(sql, args, k))
  {
    if sql != "" {
      var tail := sql[1..];
      assert sql == [sql[0]] + tail;
      if sql[0] == '?' {
        CleanBinds(tail, args, k + 1);
        CleanMark(tail, args, k);
      } else {
        CleanBinds(tail, args, k);
        CleanChar(sql, args, k);
      }
    }
  }

  // The converse. With every argument empty, both readings drop the placeholders, and the
  // numbered one also drops the digits it takes for a number, so it comes out shorter.

  ghost predicate Blank(args: seq<string>) { forall i :: 0 <= i < |args| ==> args[i] == "" }

  lemma {:induction false} BlankPositional(sql: string, args: seq<string>, k: nat)
    requires Blank(args) && k + Placeholders(sql) <= |args|
    ensures |BindPositional(sql, args, k)| + Placeholders(sql) == |sql|
  {
    if sql != "" {
      BlankPositional(sql[1..], args, if sql[0] == '?' then k + 1 else k);
    }
  }

  /** Characters the numbered reading takes away: each `$` before digits, with those digits. */
  function Taken(sql: string): nat
    decreases |sql|
  {
    if sql == "" then 0
    else
      var r := if sql[0] == '$' then DigitRun(sql[1..]) else 0;
      (if r == 0 then 0 else 1 + r) + Taken(sql[1..][r..])
  }

  lemma {:induction false} BlankNumbered(sql: string, args: seq<string>)
    requires Blank(args)
    ensures var t := BindNumbered(sql, args);
            t.Some? ==> |t.value| + Taken(sql) == |sql|
    decreases |sql|
  {
    if sql != "" {
      var r := if sql[0] == '$' then DigitRun(sql[1..]) else 0;
      BlankNumbered(sql[1..][r..], args);
    }
  }

  /** Characters the rewrite puts in place of the `?`s when the first becomes `$n`. */
  function Marks(sql: string, n: nat): nat {
    if sql == "" then 0
    else if sql[0] == '?' then 1 + |Format(n)| + Marks(sql[1..], n + 1)
    else Marks(sql[1..], n)
  }

  lemma {:induction false} RewriteLength(sql: string, n: nat)
    ensures |Rewrite(sql, n)| + Placeholders(sql) == |sql| + Marks(sql, n)
  {
    if sql != "" {
      RewriteLength(sql[1..], if sql[0] == '?' then n + 1 else n);
    }
  }

  lemma {:induction false} DigitsCopied(sql: string, n: nat)
    ensures var r := DigitRun(sql);
            && DigitRun(Rewrite(sql, n)) == r
            && Rewrite(sql, n)[r..] == Rewrite(sql[r..], n)
            && Marks(sql, n) == Marks(sql[r..], n)
  {
    if sql != "" && IsDigit(sql[0]) {
      var out := Rewrite(sql, n);
      assert out[1..] == Rewrite(sql[1..], n);
      DigitsCopied(sql[1..], n);
      var r := DigitRun(sql[1..]);
      assert sql[1..][r..] == sql[1 + r..] && out[1..][r..] == out[1 + r..];
    } else {
      assert sql[0..] == sql;
      assert DigitRun(sql) == 0;
      if sql != "" {
        assert DigitRun(Rewrite(sql, n)) == 0;
      }
    }
  }

  lemma TakenChar(c: char, out: string)
    ensures Taken([c] + out) ==
            var r := if c == '$' then DigitRun(out) else 0;
            (if r == 0 then 0 else 1 + r) + Taken(out[r..])
  {
    assert ([c] + out)[1..] == out;
  }

  lemma TakenNumber(d: string, out: string)
    requires d != "" && AllDigits(d)
    ensures Taken("$" + (d + out)) == 1 + |d| + DigitRun(out) + Taken(out[DigitRun(out)..])
  {
    var body := d + out;
    DigitRunConcat(d, out);
    TakenChar('$', body);
    assert "$" + body == ['$'] + body;
    var r := DigitRun(out);
    assert body[|d| + r..] == out[r..];
  }

  lemma {:induction false} TakenAgainstMarks(sql: string, n: nat)
    ensures Taken(Rewrite(sql, n)) >= Marks(sql, n)
    ensures !Clean(sql) ==> Taken(Rewrite(sql, n)) > Marks(sql, n)
    decreases |sql|
  {
    if sql != "" {
      var tail := sql[1..];
      var m := if sql[0] == '?' then n + 1 else n;
      var marker := sql[0] == '?' || sql[0] == '$';
      var r := if marker then DigitRun(tail) else 0;
      var out := Rewrite(tail, m);
      if marker { DigitsCopied(tail, m); }
      if sql[0] == '?' {
        TakenNumber(Format(n), out);
      } else {
        TakenChar(sql[0], out);
      }
      assert tail[0..] == tail && out[0..] == out;
      TakenAgainstMarks(tail[r..], m);
      if r == 0 && Clean(tail) {
        assert forall i :: 1 <= i < |sql| ==> sql[i] == tail[i - 1];
        assert Clean(sql);
      }
    }
  }

  /** The rewrite keeps meaning exactly when no `?` or `$` stands directly before a digit. */
  lemma RewritePreservesMeaningIffClean(sql: string)
    ensures PreservesMeaning(sql) <==> Clean(sql)
  {
    if Clean(sql) {
      forall args: seq<string> | |args| == Placeholders(sql)
        ensures BindNumbered(Rewrite(sql, 1), args) == Some(BindPositional(sql, args, 0))
      {
        CleanBinds(sql, args, 0);
      }
    } else {
      var args := seq(Placeholders(sql), _ => "");
      BlankPositional(sql, args, 0);
      BlankNumbered(Rewrite(sql, 1), args);
      RewriteLength(sql, 1);
      TakenAgainstMarks(sql, 1);
      assert BindNumbered(Rewrite(sql, 1), args) != Some(BindPositional(sql, args, 0));
    }
  }

  /** Outside `Clean` the numbers run into the text: `?5` becomes `$15`. */
  lemma DigitAfterPlaceholder()
    ensures Rewrite("?5", 1) == "$15" && !PreservesMeaning("?5")
  {
    assert "?5"[1..] == "5";
    assert Rewrite("5", 2) == "5" + Rewrite("", 2);
    assert Format(1) == "1";
    assert "?5"[0] == '?' && IsDigit("?5"[1]);
    RewritePreservesMeaningIffClean("?5");
  }
}

/** The part of `String.format` the platform URLs use: the `%s` and `%d`
    conversions, consumed left to right from the argument list. */
module Formatting {
  import opened Results
  import opened Numbers

  /** A `%s` argument may be a null reference; a `%d` argument is an integer. */
  datatype FormatArg = StrArg(s: Option<string>) | IntArg(n: int)

  /** `String.valueOf` of a possibly-null string. */
  function ShowString(s: Option<string>): (r: string) {
    match s
    case Some(v) => v
    case None => "null"
  }

  /** What `%s` prints for any argument. */
  function ShowArg(a: FormatArg): (r: string) {
    match a
    case StrArg(s) => ShowString(s)
    case IntArg(n) => IntToString(n)
  }

  /** Puts `prefix` in front of a successful result; passes a failure on. */
  function Prepend(prefix: string, rest: Result<string>): (r: Result<string>) {
    match rest
    case Ok(v) => Ok(prefix + v)
    case Err(e) => Err(e)
  }

  /** The `%s`/`%d` subset of `String.format(template, args)`. Within that
      subset a missing argument or `%d` given a string fails; surplus
      arguments are ignored. Every other conversion (`%%`, `%n`, `%x`, flags,
      widths) is outside the subset and fails here, although Java accepts it. */
  function Format(template: string, args: seq<FormatArg>): (r: Result<string>)
    ensures r.Err? ==> r.error.BadFormat?
    decreases |template|
  {
    if |template| == 0 then
      Ok("")
    else if template[0] != '%' then
      Prepend([template[0]], Format(template[1..], args))
    else if |template| < 2 || |args| == 0 then
      Err(BadFormat(template))
    else if template[1] == 's' then
      Prepend(ShowArg(args[0]), Format(template[2..], args[1..]))
    else if template[1] == 'd' && args[0].IntArg? then
      Prepend(IntToString(args[0].n), Format(template[2..], args[1..]))
    else
      Err(BadFormat(template))
  }

  /** One literal character is copied and the rest of the template formatted. */
  lemma FormatLiteralStep(t: string, args: seq<FormatArg>)
    requires |t| > 0 && t[0] != '%'
    ensures Format(t, args) == Prepend([t[0]], Format(t[1..], args))
  {
  }

  /** Literal text before the first conversion is copied unchanged. */
  lemma {:induction false} FormatLiteralPrefix(lit: string, rest: string, args: seq<FormatArg>)
    requires '%' !in lit
    requires Format(rest, args).Ok?
    ensures Format(lit + rest, args) == Ok(lit + Format(rest, args).value)
    decreases |lit|
  {
    var v := Format(rest, args).value;
    if |lit| == 0 {
      assert lit + rest == rest;
      assert lit + v == v;
    } else {
      var t := lit + rest;
      var tail := lit[1..] + rest;
      assert lit[0] in lit;
      assert t[0] == lit[0] && t[1..] == tail;
      FormatLiteralPrefix(lit[1..], rest, args);
      FormatLiteralStep(t, args);
      assert [lit[0]] + (lit[1..] + v) == lit + v;
    }
  }

  /** A leading `%s` prints its argument and moves on to the next one. */
  lemma FormatStringFirst(rest: string, a: Option<string>, args: seq<FormatArg>)
    requires Format(rest, args).Ok?
    ensures Format("%s" + rest, [StrArg(a)] + args) == Ok(ShowString(a) + Format(rest, args).value)
  {
    var t := "%s" + rest;
    assert t[2..] == rest;
    assert ([StrArg(a)] + args)[1..] == args;
  }

  /** A leading `%d` prints its integer argument in decimal. */
  lemma FormatIntFirst(rest: string, n: int, args: seq<FormatArg>)
    requires Format(rest, args).Ok?
    ensures Format("%d" + rest, [IntArg(n)] + args) == Ok(IntToString(n) + Format(rest, args).value)
  {
    var t := "%d" + rest;
    assert t[2..] == rest;
    assert ([IntArg(n)] + args)[1..] == args;
  }

  /** The shape both Gitea URLs share: `%s<a>%s<b>%d<c>` with literal pieces
      `a`, `b`, `c` prints to the three arguments interleaved with them. */
  lemma FormatRepoTemplate(a: string, b: string, c: string, base: Option<string>, repo: string, n: int)
    requires '%' !in a && '%' !in b && '%' !in c
    ensures Format("%s" + (a + ("%s" + (b + ("%d" + c)))), [StrArg(base), StrArg(Some(repo)), IntArg(n)])
         == Ok(ShowString(base) + (a + (repo + (b + (IntToString(n) + c)))))
  {
    var t3 := "%d" + c;
    var t2 := b + t3;
    var t1 := "%s" + t2;
    var t0 := a + t1;
    var v3 := IntToString(n) + c;
    var v2 := b + v3;
    var v1 := repo + v2;
    var v0 := a + v1;
    var args2: seq<FormatArg> := [IntArg(n)];
    var args1 := [StrArg(Some(repo))] + args2;
    var noArgs: seq<FormatArg> := [];
    FormatLiteralPrefix(c, "", noArgs);
    assert c + "" == c;
    FormatIntFirst(c, n, noArgs);
    assert [IntArg(n)] + noArgs == args2;
    FormatLiteralPrefix(b, t3, args2);
    FormatStringFirst(t2, Some(repo), args2);
    FormatLiteralPrefix(a, t1, args1);
    FormatStringFirst(t0, base, args1);
    assert [StrArg(base)] + args1 == [StrArg(base), StrArg(Some(repo)), IntArg(n)];
  }
}

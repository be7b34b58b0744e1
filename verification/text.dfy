/** The java.lang.String operations the reviewer relies on: `trim`, `endsWith`,
    `repeat` and the single-character form of `split`. */
module Text {

  /** `String.trim` removes every leading and trailing char whose code is at most U+0020. */
  predicate IsBlank(c: char) {
    c <= ' '
  }

  predicate AllBlank(s: string) {
    forall k | 0 <= k < |s| :: IsBlank(s[k])
  }

  /** Neither end of `s` is a char that `trim` would remove. */
  predicate Trimmed(s: string) {
    |s| == 0 || (!IsBlank(s[0]) && !IsBlank(s[|s| - 1]))
  }

  /** How many leading chars `trim` cuts from `s`. */
  function LeadingBlanks(s: string): (n: nat)
    ensures n <= |s|
    ensures forall k | 0 <= k < n :: IsBlank(s[k])
    ensures n < |s| ==> !IsBlank(s[n])
  {
    if |s| == 0 || !IsBlank(s[0]) then 0
    else
      var n := LeadingBlanks(s[1..]);
      assert forall k | 1 <= k < n + 1 :: s[k] == s[1..][k - 1];
      n + 1
  }

  /** How many trailing chars `trim` cuts from `s`. */
  function TrailingBlanks(s: string): (n: nat)
    ensures n <= |s|
    ensures forall k | |s| - n <= k < |s| :: IsBlank(s[k])
    ensures n < |s| ==> !IsBlank(s[|s| - 1 - n])
  {
    if |s| == 0 || !IsBlank(s[|s| - 1]) then 0
    else
      var n := TrailingBlanks(s[..|s| - 1]);
      assert forall k | |s| - 1 - n <= k < |s| - 1 :: s[k] == s[..|s| - 1][k];
      n + 1
  }

  /** `String.trim`: the result is a slice of `s`, the cut margins are blank,
      and the result has no blank char at either end. */
  function Trim(s: string): (r: string)
    ensures Trimmed(r)
    ensures exists i | 0 <= i <= |s| - |r| :: r == s[i..i + |r|] && AllBlank(s[..i]) && AllBlank(s[i + |r|..])
  {
    var i := LeadingBlanks(s);
    if i == |s| then
      assert s[0..0] == "" && AllBlank(s[..0]) && s[0..] == s;
      ""
    else
      var j := |s| - TrailingBlanks(s);
      assert i < j;
      var r := s[i..j];
      assert r[0] == s[i] && r[|r| - 1] == s[j - 1];
      assert AllBlank(s[..i]) && AllBlank(s[j..]);
      r
  }

  /** A blank prefix followed by a non-blank char (or nothing) is exactly
      what `trim` cuts at the front. */
  lemma LeadingBlanksOf(p: string, rest: string)
    requires AllBlank(p)
    requires |rest| == 0 || !IsBlank(rest[0])
    ensures LeadingBlanks(p + rest) == |p|
  {
    var s := p + rest;
    assert forall k | 0 <= k < |p| :: s[k] == p[k];
    assert |rest| > 0 ==> s[|p|] == rest[0];
  }

  /** A blank suffix preceded by a non-blank char is exactly what `trim`
      cuts at the back. */
  lemma TrailingBlanksOf(rest: string, q: string)
    requires AllBlank(q)
    requires |rest| > 0 && !IsBlank(rest[|rest| - 1])
    ensures TrailingBlanks(rest + q) == |q|
  {
    var s := rest + q;
    assert forall k | |rest| <= k < |s| :: s[k] == q[k - |rest|];
    assert s[|rest| - 1] == rest[|rest| - 1];
  }

  /** A string of blanks trims to the empty string. */
  lemma TrimAllBlank(s: string)
    requires AllBlank(s)
    ensures Trim(s) == ""
  {
    assert s + "" == s;
    LeadingBlanksOf(s, "");
  }

  /** `trim` is determined by its contract: whatever blank margins surround a
      trimmed core, trimming recovers exactly that core. */
  lemma TrimRecoversCore(p: string, t: string, q: string)
    requires AllBlank(p) && AllBlank(q) && Trimmed(t)
    ensures Trim(p + t + q) == t
  {
    var s := p + t + q;
    if |t| == 0 {
      assert s == p + q;
      assert forall k | |p| <= k < |s| :: s[k] == q[k - |p|];
      TrimAllBlank(s);
    } else {
      assert s == p + (t + q);
      LeadingBlanksOf(p, t + q);
      assert s == (p + t) + q;
      TrailingBlanksOf(p + t, q);
      var j := |s| - TrailingBlanks(s);
      assert j == |p| + |t|;
      assert s[|p|..j] == t;
    }
  }

  /** A string with no blank char at either end is left as it is. */
  lemma TrimTrimmed(t: string)
    requires Trimmed(t)
    ensures Trim(t) == t
  {
    assert "" + t + "" == t;
    TrimRecoversCore("", t, "");
  }

  /** Trimming twice is trimming once. */
  lemma TrimIdempotent(s: string)
    ensures Trim(Trim(s)) == Trim(s)
  {
    TrimTrimmed(Trim(s));
  }

  /** `String.endsWith`. */
  predicate EndsWith(s: string, suffix: string) {
    |suffix| <= |s| && s[|s| - |suffix|..] == suffix
  }

  /** `endsWith` holds exactly when `s` is some string followed by `suffix`. */
  lemma EndsWithIffConcat(s: string, suffix: string)
    ensures EndsWith(s, suffix) <==> exists p: string :: s == p + suffix
  {
    if EndsWith(s, suffix) {
      var p := s[..|s| - |suffix|];
      assert s == p + suffix;
    }
    if exists p: string :: s == p + suffix {
      var p: string :| s == p + suffix;
      assert s[|s| - |suffix|..] == suffix;
    }
  }

  /** `String.valueOf(c).repeat(n)`. */
  function Repeat(c: char, n: nat): (r: string)
    ensures |r| == n
    ensures forall k | 0 <= k < n :: r[k] == c
  {
    if n == 0 then "" else [c] + Repeat(c, n - 1)
  }

  /** Splits `s` at every occurrence of `sep`, keeping every field (also empty ones). */
  function Fields(s: string, sep: char): (r: seq<string>)
    ensures |r| >= 1
    ensures forall k | 0 <= k < |r| :: sep !in r[k]
    ensures sep !in s ==> r == [s]
  {
    if |s| == 0 then
      [""]
    else
      var rest := Fields(s[1..], sep);
      if s[0] == sep then
        [""] + rest
      else
        assert sep !in s[1..] ==> rest == [s[1..]] && s == [s[0]] + s[1..];
        [[s[0]] + rest[0]] + rest[1..]
  }

  /** The fields joined back with the separator between them. */
  function Join(fields: seq<string>, sep: char): (r: string)
    requires |fields| >= 1
  {
    if |fields| == 1 then fields[0] else fields[0] + [sep] + Join(fields[1..], sep)
  }

  /** Joining the fields of `s` gives `s` back. */
  lemma {:induction false} JoinFields(s: string, sep: char)
    ensures Join(Fields(s, sep), sep) == s
    decreases |s|
  {
    if |s| > 0 {
      var rest := Fields(s[1..], sep);
      JoinFields(s[1..], sep);
      if s[0] == sep {
        assert Fields(s, sep)[1..] == rest;
        assert s == [sep] + s[1..];
      } else {
        var r := Fields(s, sep);
        if |rest| == 1 {
          assert s == [s[0]] + s[1..];
        } else {
          assert r[1..] == rest[1..];
          assert Join(rest, sep) == rest[0] + [sep] + Join(rest[1..], sep);
          assert s == [s[0]] + s[1..];
        }
      }
    }
  }

  /** A leading separator closes an empty first field. */
  lemma FieldsAtSeparator(s: string, sep: char)
    requires |s| > 0 && s[0] == sep
    ensures Fields(s, sep) == [""] + Fields(s[1..], sep)
  {
  }

  /** Any other leading character starts the first field. */
  lemma FieldsAtChar(s: string, sep: char)
    requires |s| > 0 && s[0] != sep
    ensures Fields(s, sep) == [[s[0]] + Fields(s[1..], sep)[0]] + Fields(s[1..], sep)[1..]
  {
  }

  /** Joining after an empty first field starts with the separator. */
  lemma JoinEmptyFirst(fields: seq<string>, sep: char)
    requires |fields| > 1 && fields[0] == ""
    ensures |Join(fields, sep)| > 0 && Join(fields, sep)[0] == sep
    ensures Join(fields, sep)[1..] == Join(fields[1..], sep)
  {
    var jt := Join(fields[1..], sep);
    assert Join(fields, sep) == [sep] + jt;
  }

  /** Joining after a non-empty first field starts with its first character,
      followed by the join with that character removed. */
  lemma JoinCharFirst(fields: seq<string>, sep: char)
    requires |fields| > 1 && |fields[0]| > 0
    ensures |Join(fields, sep)| > 0 && Join(fields, sep)[0] == fields[0][0]
    ensures Join(fields, sep)[1..] == Join([fields[0][1..]] + fields[1..], sep)
  {
    var f := fields[0];
    var shorter := [f[1..]] + fields[1..];
    var jt := Join(fields[1..], sep);
    assert shorter[1..] == fields[1..];
    assert Join(shorter, sep) == f[1..] + [sep] + jt;
    assert Join(fields, sep) == [f[0]] + (f[1..] + [sep] + jt);
  }

  /** A non-empty sequence is its head followed by its tail. */
  lemma HeadTail<T>(s: seq<T>)
    requires |s| > 0
    ensures s == [s[0]] + s[1..]
  {
  }

  /** Splitting a join of separator-free fields gives the fields back. */
  lemma {:induction false} FieldsJoin(fields: seq<string>, sep: char)
    requires |fields| >= 1
    requires forall k | 0 <= k < |fields| :: sep !in fields[k]
    ensures Fields(Join(fields, sep), sep) == fields
    decreases |fields|, |fields[0]|
  {
    if |fields| > 1 {
      var f := fields[0];
      var tail := fields[1..];
      var j := Join(fields, sep);
      assert forall k | 0 <= k < |tail| :: tail[k] == fields[k + 1];
      if |f| == 0 {
        FieldsJoin(tail, sep);
        JoinEmptyFirst(fields, sep);
        FieldsAtSeparator(j, sep);
        HeadTail(fields);
      } else {
        var shorter := [f[1..]] + tail;
        assert sep !in f[1..] by {
          assert forall x | x in f[1..] :: x in f;
        }
        assert forall k | 1 <= k < |shorter| :: shorter[k] == tail[k - 1];
        FieldsJoin(shorter, sep);
        JoinCharFirst(fields, sep);
        assert f[0] != sep by {
          assert f[0] in f;
        }
        FieldsAtChar(j, sep);
        HeadTail(f);
        HeadTail(fields);
      }
    }
  }

  /** Removes empty strings from the end of `fields`. */
  function DropTrailingEmpty(fields: seq<string>): (r: seq<string>)
    ensures |r| <= |fields| && r == fields[..|r|]
    ensures |r| == 0 || r[|r| - 1] != ""
    ensures forall k | |r| <= k < |fields| :: fields[k] == ""
  {
    if |fields| > 0 && fields[|fields| - 1] == "" then
      DropTrailingEmpty(fields[..|fields| - 1])
    else
      fields
  }

  /** `s.split(String.valueOf(sep))` for a separator that is not a regex
      metacharacter: with no separator in `s` the result is `[s]` (even for
      the empty string); otherwise every field, with trailing empty fields
      removed. */
  function JavaSplit(s: string, sep: char): (r: seq<string>)
    ensures forall k | 0 <= k < |r| :: sep !in r[k]
    ensures sep !in s ==> r == [s]
    ensures sep in s ==> |r| == 0 || r[|r| - 1] != ""
    ensures sep in s ==> |r| <= |Fields(s, sep)| && r == Fields(s, sep)[..|r|]
    ensures sep in s ==> forall k | |r| <= k < |Fields(s, sep)| :: Fields(s, sep)[k] == ""
  {
    if sep !in s then [s] else DropTrailingEmpty(Fields(s, sep))
  }

  /** Trailing separators only drop empty fields: `"a,".split(",")` is `["a"]`
      and `",".split(",")` is empty. */
  lemma JavaSplitTrailingExamples()
    ensures JavaSplit("a,", ',') == ["a"]
    ensures JavaSplit(",", ',') == []
  {
    FieldsAtSeparator(",", ',');
    assert ","[1..] == "";
    FieldsAtChar("a,", ',');
    assert "a,"[1..] == ",";
    assert "a,"[0] == 'a' && "a,"[1] == ',';
    var f := Fields("a,", ',');
    assert f == ["a", ""] by {
      assert Fields(",", ',') == ["", ""];
      assert ['a'] + "" == "a";
    }
    var r := DropTrailingEmpty(f);
    assert |r| == 1 by {
      assert |r| != 0 by { assert f[0] != ""; }
      assert |r| != 2;
    }
  }

  /** Splitting a join of separator-free fields whose last field is non-empty
      gives the fields back. */
  lemma JavaSplitJoin(fields: seq<string>, sep: char)
    requires |fields| >= 1
    requires forall k | 0 <= k < |fields| :: sep !in fields[k]
    requires fields[|fields| - 1] != ""
    ensures JavaSplit(Join(fields, sep), sep) == fields
  {
    FieldsJoin(fields, sep);
    if |fields| > 1 {
      assert Join(fields, sep)[|fields[0]|] == sep;
    }
  }
}

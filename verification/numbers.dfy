/** Java `int` values and their decimal text: `Integer.toString` (also what
    `%d` prints) and `Integer.parseInt`. */
module Numbers {
  import opened Results

  /** A Java `int`. */
  type Int32 = x: int | -0x8000_0000 <= x < 0x8000_0000

  /** Only ASCII digits are modelled. */
  predicate IsDigit(c: char) {
    '0' <= c <= '9'
  }

  predicate AllDigits(s: string) {
    forall k | 0 <= k < |s| :: IsDigit(s[k])
  }

  function DigitChar(d: nat): (c: char)
    requires d < 10
    ensures IsDigit(c)
  {
    ('0' as int + d) as char
  }

  function DigitValue(c: char): (d: nat)
    requires IsDigit(c)
    ensures d < 10 && DigitChar(d) == c
  {
    c as int - '0' as int
  }

  /** The decimal digits of `n`, without leading zeros. */
  function Digits(n: nat): (r: string)
    ensures |r| >= 1 && AllDigits(r)
    ensures |r| > 1 ==> r[0] != '0'
  {
    if n < 10 then [DigitChar(n)] else Digits(n / 10) + [DigitChar(n % 10)]
  }

  /** The number a string of decimal digits denotes. */
  function DecimalValue(s: string): (r: nat)
    requires AllDigits(s)
  {
    if |s| == 0 then 0 else DecimalValue(s[..|s| - 1]) * 10 + DigitValue(s[|s| - 1])
  }

  lemma {:induction false} DecimalValueOfDigits(n: nat)
    ensures DecimalValue(Digits(n)) == n
  {
    if n >= 10 {
      var r := Digits(n);
      assert r[..|r| - 1] == Digits(n / 10);
      DecimalValueOfDigits(n / 10);
    }
  }

  /** `Integer.toString(n)`, which is also what `String.format("%d", n)` prints. */
  function IntToString(n: int): (r: string) {
    if n < 0 then "-" + Digits(-n) else Digits(n)
  }

  /** `Integer.parseInt(s)`: an optional sign followed by at least one digit,
      denoting a value in the `int` range; anything else is a NumberFormatException. */
  function ParseInt(s: string): (r: Result<Int32>)
    ensures r.Err? ==> r.error == NumberFormat(s)
    ensures |s| == 0 ==> r.Err?
    ensures r.Ok? && r.value < 0 ==> s[0] == '-'
    ensures |s| > 0 && s[0] == '-' ==>
      && (r.Ok? <==> |s| > 1 && AllDigits(s[1..]) && DecimalValue(s[1..]) <= 0x8000_0000)
      && (r.Ok? ==> r.value == 0 - DecimalValue(s[1..]))
    ensures |s| > 0 && s[0] == '+' ==>
      && (r.Ok? <==> |s| > 1 && AllDigits(s[1..]) && DecimalValue(s[1..]) < 0x8000_0000)
      && (r.Ok? ==> r.value == DecimalValue(s[1..]))
    ensures |s| > 0 && s[0] != '-' && s[0] != '+' ==>
      && (r.Ok? <==> AllDigits(s) && DecimalValue(s) < 0x8000_0000)
      && (r.Ok? ==> r.value == DecimalValue(s))
  {
    if |s| == 0 then
      Err(NumberFormat(s))
    else
      var body := if s[0] == '-' || s[0] == '+' then s[1..] else s;
      if |body| == 0 || !AllDigits(body) then
        Err(NumberFormat(s))
      else
        var v: int := if s[0] == '-' then 0 - DecimalValue(body) as int else DecimalValue(body) as int;
        if -0x8000_0000 <= v < 0x8000_0000 then Ok(v) else Err(NumberFormat(s))
  }

  /** Appending a digit multiplies the value by ten and adds the digit. */
  lemma DecimalValueSnoc(s: string, c: char)
    requires AllDigits(s) && IsDigit(c)
    ensures AllDigits(s + [c]) && DecimalValue(s + [c]) == DecimalValue(s) * 10 + DigitValue(c)
  {
    assert (s + [c])[..|s + [c]| - 1] == s;
  }

  /** A plus sign and leading zeros are accepted; a stray character is not. */
  lemma ParseIntExamples()
    ensures ParseInt("+5") == Ok(5)
    ensures ParseInt("007") == Ok(7)
    ensures ParseInt("12a").Err? && ParseInt("-").Err? && ParseInt("+").Err?
  {
    assert !IsDigit("12a"[2]);
    assert "+5"[1..] == "5";
    var z := ['0'];
    DecimalValueSnoc(z, '0');
    DecimalValueSnoc(z + ['0'], '7');
    assert z + ['0'] + ['7'] == "007";
  }

  /** The value of "2147483648", one past the largest `int`, built digit by digit. */
  lemma DecimalValueIntLimit()
    ensures AllDigits("2147483648") && DecimalValue("2147483648") == 0x8000_0000
  {
    var p1 := ['2'];
    DecimalValueSnoc(p1, '1');
    var p2 := p1 + ['1'];
    DecimalValueSnoc(p2, '4');
    var p3 := p2 + ['4'];
    DecimalValueSnoc(p3, '7');
    var p4 := p3 + ['7'];
    DecimalValueSnoc(p4, '4');
    var p5 := p4 + ['4'];
    DecimalValueSnoc(p5, '8');
    var p6 := p5 + ['8'];
    DecimalValueSnoc(p6, '3');
    var p7 := p6 + ['3'];
    DecimalValueSnoc(p7, '6');
    var p8 := p7 + ['6'];
    DecimalValueSnoc(p8, '4');
    var p9 := p8 + ['4'];
    DecimalValueSnoc(p9, '8');
    assert p9 + ['8'] == "2147483648";
  }

  /** The range check is Java's: one past the largest `int` fails, while its
      negation is the least `int` and parses. */
  lemma ParseIntRangeEdges()
    ensures ParseInt("2147483648") == Err(NumberFormat("2147483648"))
    ensures ParseInt("+2147483648") == Err(NumberFormat("+2147483648"))
    ensures ParseInt("-2147483648") == Ok(-0x8000_0000)
  {
    DecimalValueIntLimit();
    assert "-2147483648"[1..] == "2147483648" && "+2147483648"[1..] == "2147483648";
  }

  /** A minus sign followed by the digits of a magnitude up to 2^31 parses
      to the negated magnitude. */
  lemma ParseIntNegative(m: nat)
    requires 0 < m <= 0x8000_0000
    ensures ParseInt("-" + Digits(m)) == Ok(0 - m)
  {
    var d := Digits(m);
    DecimalValueOfDigits(m);
    assert ("-" + d)[0] == '-' && ("-" + d)[1..] == d;
  }

  /** The digits of a number below 2^31 parse to that number. */
  lemma ParseIntNatural(m: nat)
    requires m < 0x8000_0000
    ensures ParseInt(Digits(m)) == Ok(m)
  {
    var d := Digits(m);
    DecimalValueOfDigits(m);
    assert IsDigit(d[0]);
  }

  /** Every `int` survives printing and parsing back. */
  lemma ParseIntToString(n: Int32)
    ensures ParseInt(IntToString(n)) == Ok(n)
  {
    if n < 0 {
      ParseIntNegative(-(n as int));
    } else {
      ParseIntNatural(n);
    }
  }
}

/**
 * Decimal integers as Go's strconv.Atoi reads them and as the %d verb of fmt writes them,
 * on a 64-bit platform (Go's int is 64 bits wide).
 */
module Strconv {
  import opened Wrappers

  const MinInt64: int := -0x8000_0000_0000_0000
  const MaxInt64: int := 0x7FFF_FFFF_FFFF_FFFF

  predicate InInt64(n: int) {
    MinInt64 <= n <= MaxInt64
  }

  predicate IsDigit(c: char) {
    '0' <= c <= '9'
  }

  predicate AllDigits(s: string) {
    forall i :: 0 <= i < |s| ==> IsDigit(s[i])
  }

  function DigitValue(c: char): nat
    requires IsDigit(c)
  {
    c as int - '0' as int
  }

  function DigitChar(d: nat): (c: char)
    requires d < 10
    ensures IsDigit(c) && DigitValue(c) == d
  {
    ('0' as int + d) as char
  }

  /** The value of a run of decimal digits, most significant digit first. */
  function DigitsValue(s: string): nat
    requires AllDigits(s)
  {
    if s == [] then 0 else 10 * DigitsValue(s[..|s| - 1]) + DigitValue(s[|s| - 1])
  }

  /** The shortest decimal spelling of n: no leading zero unless n is zero. */
  function Digits(n: nat): (s: string)
    ensures |s| > 0 && AllDigits(s)
    ensures s[0] == '0' <==> n == 0
  {
    if n < 10 then [DigitChar(n)] else Digits(n / 10) + [DigitChar(n % 10)]
  }

  /** fmt.Sprintf("%d", n). */
  function Itoa(n: int): (s: string)
    ensures |s| > 0
    ensures s[0] == '-' <==> n < 0
    ensures n >= 0 ==> AllDigits(s) && (s[0] == '0' ==> s == "0")
    ensures n < 0 ==> |s| > 1 && AllDigits(s[1..]) && s[1] != '0'
  {
    if n < 0 then "-" + Digits(-n) else Digits(n)
  }

  /**
   * strconv.Atoi: an optional '+' or '-', then one or more decimal digits and nothing else,
   * denoting a value that fits in 64 bits; None for both the syntax and the range error.
   */
  function Atoi(s: string): (r: Option<int>)
    ensures r.Some? ==> InInt64(r.value)
    ensures r.Some? ==> s != "" && (IsDigit(s[0]) || s[0] == '+' || s[0] == '-')
  {
    var signed := s != "" && (s[0] == '+' || s[0] == '-');
    var body := if signed then s[1..] else s;
    if body == "" || !AllDigits(body) then None
    else
      var n: int := DigitsValue(body);
      var v := if signed && s[0] == '-' then -n else n;
      if InInt64(v) then Some(v) else None
  }

  lemma {:induction false} DigitsValueOfDigits(n: nat)
    ensures DigitsValue(Digits(n)) == n
  {
    if n >= 10 {
      var s := Digits(n);
      assert s[..|s| - 1] == Digits(n / 10);
      DigitsValueOfDigits(n / 10);
    }
  }

  /** Formatting with %d and reading back with Atoi is the identity on 64-bit integers. */
  lemma AtoiItoa(n: int)
    requires InInt64(n)
    ensures Atoi(Itoa(n)) == Some(n)
  {
    if n < 0 {
      var s := Itoa(n);
      assert s[1..] == Digits(-n);
      DigitsValueOfDigits(-n);
    } else {
      DigitsValueOfDigits(n);
    }
  }

  /** Atoi accepts a leading '+' and leading zeros, but no blanks, and rejects a bare sign. */
  lemma AtoiExamples()
    ensures Atoi("8080") == Some(8080)
    ensures Atoi("+0443") == Some(443)
    ensures Atoi("-15") == Some(-15)
    ensures Atoi("") == None && Atoi("-") == None && Atoi(" 80") == None && Atoi("80s") == None
  {
    assert "8080"[..3] == "808" && "808"[..2] == "80" && "80"[..1] == "8" && "8"[..0] == "";
    assert "+0443"[1..] == "0443";
    assert "0443"[..3] == "044";
    assert "044"[..2] == "04";
    assert "04"[..1] == "0";
    assert "-15"[1..] == "15" && "15"[..1] == "1";
  }

  /**
   * Atoi on an optional sign followed by text d: a non-empty run of digits denotes its value,
   * negated after '-', and is accepted exactly when that value fits in 64 bits; anything else
   * after the sign is rejected.
   */
  lemma AtoiSigned(sign: string, d: string)
    requires sign == "" || sign == "+" || sign == "-"
    requires sign == "" ==> d == "" || !(d[0] == '+' || d[0] == '-')
    ensures d != "" && AllDigits(d) ==>
      var v := if sign == "-" then -(DigitsValue(d) as int) else DigitsValue(d);
      Atoi(sign + d) == if InInt64(v) then Some(v) else None
    ensures !(d != "" && AllDigits(d)) ==> Atoi(sign + d) == None
  {
    var s := sign + d;
    if sign != "" {
      assert s[0] == sign[0] && s[1..] == d;
      assert (s != "" && (s[0] == '+' || s[0] == '-')) && (s[0] == '-' <==> sign == "-");
    } else {
      assert s == d;
      assert !(s != "" && (s[0] == '+' || s[0] == '-'));
    }
  }

  /** Leading zeros do not change the value of a run of digits. */
  lemma {:induction false} LeadingZero(d: string)
    requires AllDigits(d)
    ensures AllDigits("0" + d) && DigitsValue("0" + d) == DigitsValue(d)
  {
    var z := "0" + d;
    assert AllDigits(z) by {
      assert forall i :: 0 < i < |z| ==> z[i] == d[i - 1];
    }
    if d != [] {
      assert z[..|z| - 1] == "0" + d[..|d| - 1];
      assert z[|z| - 1] == d[|d| - 1];
      LeadingZero(d[..|d| - 1]);
    }
  }
}

/** Base-10 text for integers: Go's `%d` / strconv.Itoa on the way out and
    strconv.ParseInt(s, 10, 64) on the way in, with the 64-bit range check
    the parser applies. */
module Decimal {
  import opened Wrappers

  const MinInt64: int := -0x8000_0000_0000_0000
  const MaxInt64: int := 0x7FFF_FFFF_FFFF_FFFF

  predicate IsDigit(c: char) {
    '0' <= c <= '9'
  }

  predicate AllDigits(s: string) {
    forall i :: 0 <= i < |s| ==> IsDigit(s[i])
  }

  function DigitChar(d: nat): (c: char)
    requires d < 10
    ensures IsDigit(c) && (c as int) - ('0' as int) == d
  {
    ('0' as int + d) as char
  }

  /** The numeric value of a run of decimal digits, most significant first. */
  function DigitsValue(s: string): nat
    requires AllDigits(s)
    decreases |s|
  {
    if |s| == 0 then 0
    else DigitsValue(s[..|s| - 1]) * 10 + ((s[|s| - 1] as int) - ('0' as int))
  }

  /** The shortest decimal rendering of a natural number. */
  function NatText(n: nat): (r: string)
    ensures |r| >= 1 && AllDigits(r)
    ensures |r| > 1 ==> r[0] != '0'
    decreases n
  {
    if n < 10 then [DigitChar(n)] else NatText(n / 10) + [DigitChar(n % 10)]
  }

  /** Go's `%d` for an integer. */
  function IntText(i: int): (r: string)
    ensures |r| >= 1
    ensures r[0] == '-' <==> i < 0
  {
    if i < 0 then "-" + NatText(-i) else NatText(i)
  }

  /** strconv.ParseInt(s, 10, 64): an optional sign, at least one digit and
      nothing else; values outside the signed 64-bit range are refused. */
  function ParseInt64(s: string): (r: Result<int>)
    ensures r.Ok? ==> MinInt64 <= r.value <= MaxInt64
    ensures r.Ok? ==> |s| >= 1
  {
    if |s| == 0 then Err("invalid syntax")
    else
      var body := if s[0] == '+' || s[0] == '-' then s[1..] else s;
      if |body| == 0 || !AllDigits(body) then Err("invalid syntax")
      else
        var mag: int := DigitsValue(body);
        var v := if s[0] == '-' then -mag else mag;
        if v < MinInt64 || v > MaxInt64 then Err("value out of range") else Ok(v)
  }

  lemma {:induction false} NatTextValue(n: nat)
    ensures DigitsValue(NatText(n)) == n
    decreases n
  {
    var r := NatText(n);
    if n >= 10 {
      NatTextValue(n / 10);
      assert r[..|r| - 1] == NatText(n / 10);
    }
  }

  /** Rendering an in-range integer and parsing it back gives the integer. */
  lemma ParseIntText(i: int)
    requires MinInt64 <= i <= MaxInt64
    ensures ParseInt64(IntText(i)) == Ok(i)
  {
    var t := IntText(i);
    if i < 0 {
      var digits := NatText(-i);
      NatTextValue(-i);
      assert t == "-" + digits && t[0] == '-';
      assert t[1..] == digits;
    } else {
      var digits := NatText(i);
      NatTextValue(i);
      assert t == digits && IsDigit(t[0]);
    }
  }

  /** Distinct numbers have distinct renderings. */
  lemma NatTextInjective(m: nat, n: nat)
    requires m != n
    ensures NatText(m) != NatText(n)
  {
    NatTextValue(m);
    NatTextValue(n);
  }
}

/** Decimal conversions between strings and Go's `int`, as `strconv.Atoi`
    and `strconv.Itoa` perform them on a 64-bit platform. */
module Numbers {
  import opened Wrappers

  /** Bounds of Go's `int` on a 64-bit platform. */
  const MinInt64: int := -0x8000_0000_0000_0000
  const MaxInt64: int := 0x7fff_ffff_ffff_ffff

  predicate InInt64(n: int) {
    MinInt64 <= n <= MaxInt64
  }

  predicate IsDigit(ch: char) {
    '0' <= ch <= '9'
  }

  predicate IsSign(ch: char) {
    ch == '+' || ch == '-'
  }

  predicate AllDigits(s: string) {
    forall i :: 0 <= i < |s| ==> IsDigit(s[i])
  }

  function DigitValue(ch: char): nat
    requires IsDigit(ch)
  {
    ch as int - '0' as int
  }

  function DigitChar(d: nat): (ch: char)
    requires d < 10
    ensures IsDigit(ch) && DigitValue(ch) == d
  {
    ('0' as int + d) as char
  }

  /** Value of a string of decimal digits, most significant first. */
  function DigitsValue(s: string): nat
    requires AllDigits(s)
    decreases |s|
  {
    if |s| == 0 then 0
    else DigitsValue(s[..|s| - 1]) * 10 + DigitValue(s[|s| - 1])
  }

  /** `strconv.Atoi`: an optional `+` or `-` followed by one or more decimal
      digits whose value fits the 64-bit `int`; anything else is an error,
      here `None`. Leading zeros are accepted. */
  function Atoi(s: string): (r: Option<int>)
    ensures r.Some? ==> InInt64(r.value)
    ensures r.Some? ==> |s| > 0 && forall i :: 0 <= i < |s| ==> IsDigit(s[i]) || (i == 0 && IsSign(s[i]))
    ensures |s| > 0 && AllDigits(s) && DigitsValue(s) <= MaxInt64 ==> r == Some(DigitsValue(s))
    ensures |s| > 0 && AllDigits(s) && DigitsValue(s) > MaxInt64 ==> r.None?
  {
    if |s| == 0 then None
    else
      var digits := if IsSign(s[0]) then s[1..] else s;
      if |digits| == 0 || !AllDigits(digits) then None
      else
        var v: int := if s[0] == '-' then -(DigitsValue(digits) as int) else DigitsValue(digits);
        if InInt64(v) then Some(v) else None
  }

  /** A `+` sign changes nothing. */
  lemma AtoiPlus(d: string)
    requires AllDigits(d)
    ensures Atoi("+" + d) == Atoi(d)
  {
    var s := "+" + d;
    assert s[0] == '+' && s[1..] == d;
  }

  /** A `-` sign negates the value, and the negative range reaches one
      further than the positive one. */
  lemma AtoiMinus(d: string)
    requires AllDigits(d)
    ensures Atoi("-" + d) == (if |d| > 0 && DigitsValue(d) <= -MinInt64 then Some(-(DigitsValue(d) as int)) else None)
  {
    var s := "-" + d;
    assert s[0] == '-' && s[1..] == d;
  }

  /** Canonical decimal digits of a natural number: no leading zero. */
  function NatToDigits(n: nat): (s: string)
    ensures |s| >= 1 && AllDigits(s)
    ensures DigitsValue(s) == n
    ensures s[0] == '0' ==> n == 0 && |s| == 1
    decreases n
  {
    if n < 10 then [DigitChar(n)]
    else
      var prefix := NatToDigits(n / 10);
      var s := prefix + [DigitChar(n % 10)];
      assert s[..|s| - 1] == prefix;
      s
  }

  /** `strconv.Itoa`: a `-` for negative values, then the canonical digits
      of the magnitude. */
  function Itoa(n: int): (s: string)
    ensures |s| >= 1
    ensures forall i :: 0 <= i < |s| ==> IsDigit(s[i]) || (i == 0 && s[i] == '-')
    ensures n >= 0 <==> AllDigits(s)
  {
    if n < 0 then
      var digits := NatToDigits(-n);
      var s := "-" + digits;
      assert s[1..] == digits;
      assert !IsDigit(s[0]);
      s
    else NatToDigits(n)
  }

  /** Reading back what `Itoa` wrote gives the number again, for every value
      of the 64-bit `int`. */
  lemma AtoiItoa(n: int)
    requires InInt64(n)
    ensures Atoi(Itoa(n)) == Some(n)
  {
    var s := Itoa(n);
    if n < 0 {
      assert s[1..] == NatToDigits(-n);
    }
  }

  /** Digits and a minus sign are none of the given separators. */
  lemma ItoaAvoids(n: int, c: char)
    requires !IsDigit(c) && c != '-'
    ensures c !in Itoa(n)
  {
  }
}

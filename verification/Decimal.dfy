/** Decimal text, as written by `big.Int.String` / `strconv.FormatInt` and read back by
    `big.Int.SetString(_, 10)` / `strconv.ParseInt(_, 10, 64)`. */
module Decimal {
  import opened Types

  predicate IsDigit(c: char) { '0' <= c <= '9' }

  function DigitValue(c: char): (d: nat)
    requires IsDigit(c)
    ensures d < 10
  {
    c as int - '0' as int
  }

  function DigitChar(d: nat): (c: char)
    requires d < 10
    ensures IsDigit(c) && DigitValue(c) == d
  {
    ('0' as int + d) as char
  }

  /** An unsigned run of digits; leading zeros are accepted, as the Go parsers do. */
  function ParseNat(s: string): Option<nat> {
    if s == [] || !IsDigit(s[|s| - 1]) then None
    else if |s| == 1 then Some(DigitValue(s[0]))
    else match ParseNat(s[..|s| - 1])
      case None => None
      case Some(v) => Some(10 * v + DigitValue(s[|s| - 1]))
  }

  function Signed(negative: bool, s: string): Option<int> {
    var magnitude: Option<int> := ParseNat(s);
    if magnitude.Some? && negative then Some(-magnitude.value) else magnitude
  }

  /** An optional sign followed by digits. */
  function Parse(s: string): Option<int> {
    if s != [] && s[0] == '-' then Signed(true, s[1..])
    else if s != [] && s[0] == '+' then Signed(false, s[1..])
    else Signed(false, s)
  }

  function Digits(n: nat): (s: string)
    ensures |s| >= 1 && IsDigit(s[0])
    ensures ParseNat(s) == Some(n)
  {
    if n < 10 then [DigitChar(n)]
    else
      var front := Digits(n / 10);
      var s := front + [DigitChar(n % 10)];
      assert s[..|s| - 1] == front;
      s
  }

  /** Writing a number and reading it back gives the number. */
  function Format(v: int): (s: string)
    ensures s != []
    ensures Parse(s) == Some(v)
    ensures v == 0 ==> s == "0"
  {
    if v < 0 then
      var s := "-" + Digits(-v);
      assert s[1..] == Digits(-v);
      s
    else Digits(v)
  }

  // ----- The text of a number is unique -----

  /** Digits without a leading zero. */
  predicate PlainDigits(s: string) {
    && s != [] && (forall i :: 0 <= i < |s| ==> IsDigit(s[i]))
    && (s[0] == '0' ==> |s| == 1)
  }

  /** As Go writes an integer: a minus sign if it is negative, then plain digits. */
  predicate PlainNumber(s: string) {
    if s != [] && s[0] == '-' then PlainDigits(s[1..]) && s[1] != '0' else PlainDigits(s)
  }

  lemma {:induction false} DigitsArePlain(n: nat)
    ensures PlainDigits(Digits(n)) && (Digits(n)[0] == '0' <==> n == 0)
  {
    if n >= 10 {
      DigitsArePlain(n / 10);
    }
  }

  lemma {:induction false} PlainIsPositive(s: string)
    requires PlainDigits(s) && s[0] != '0'
    ensures ParseNat(s).Some? && ParseNat(s).value > 0
  {
    if |s| > 1 {
      PlainIsPositive(s[..|s| - 1]);
    }
  }

  lemma {:induction false} PlainDigitsUnique(s: string, n: nat)
    requires PlainDigits(s) && ParseNat(s) == Some(n)
    ensures s == Digits(n)
  {
    if |s| > 1 {
      var front := s[..|s| - 1];
      PlainIsPositive(front);
      PlainDigitsUnique(front, n / 10);
      assert s == front + [DigitChar(n % 10)];
    }
  }

  /** `Format` writes the one plain text that reads back as the number. */
  lemma FormatExactly(s: string, v: int)
    ensures s == Format(v) <==> PlainNumber(s) && Parse(s) == Some(v)
  {
    DigitsArePlain(if v < 0 then -v else v);
    if PlainNumber(s) && Parse(s) == Some(v) {
      if s[0] == '-' {
        PlainIsPositive(s[1..]);
        PlainDigitsUnique(s[1..], -v);
      } else {
        PlainDigitsUnique(s, v);
      }
    }
    assert v < 0 ==> Format(v)[1..] == Digits(-v);
  }

  predicate Zeros(s: string) { forall i :: 0 <= i < |s| ==> s[i] == '0' }

  lemma {:induction false} ReadsZero(s: string)
    ensures ParseNat(s) == Some(0) <==> s != [] && Zeros(s)
  {
    if |s| > 1 {
      ReadsZero(s[..|s| - 1]);
    }
  }

  lemma ReadsOne(s: string)
    ensures ParseNat(s) == Some(1) <==> s != [] && s[|s| - 1] == '1' && Zeros(s[..|s| - 1])
  {
    if |s| > 1 {
      ReadsZero(s[..|s| - 1]);
    }
  }

  predicate IsInt64(v: int) { -0x8000_0000_0000_0000 <= v <= 0x7FFF_FFFF_FFFF_FFFF }

  /** `strconv.ParseInt(s, 10, 64)`: None stands for either of its errors. */
  function ParseInt64(s: string): Option<int> {
    match Parse(s)
    case None => None
    case Some(v) => if IsInt64(v) then Some(v) else None
  }
}

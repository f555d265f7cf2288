/** Decimal text: the digits `strconv.FormatInt` writes and the ones `strconv.ParseInt` reads. */
module Decimal {
  import opened Wrappers

  predicate IsDigit(c: char) {
    '0' <= c <= '9'
  }

  function DigitValue(c: char): (d: nat)
    requires IsDigit(c)
  {
    c as int - '0' as int
  }

  function Format(n: nat): (s: string)
    ensures s != [] && forall c :: c in s ==> IsDigit(c)
  {
    var last := [('0' as int + n % 10) as char];
    if n < 10 then last else Format(n / 10) + last
  }

  function ParseDigits(s: string): Option<nat> {
    if s == [] || !IsDigit(s[|s| - 1]) then None
    else if |s| == 1 then Some(DigitValue(s[0]))
    else
      match ParseDigits(s[..|s| - 1])
      case None => None
      case Some(n) => Some(10 * n + DigitValue(s[|s| - 1]))
  }

  const MAX_INT64 := 0x7fff_ffff_ffff_ffff

  /** An optional sign, digits, and the 64-bit range check. */
  function ParseInt64(s: string): Option<int> {
    var negative := s != [] && s[0] == '-';
    var digits := if s != [] && (s[0] == '-' || s[0] == '+') then s[1..] else s;
    match ParseDigits(digits)
    case None => None
    case Some(n) =>
      var value: int := if negative then 0 - n as int else n as int;
      if -MAX_INT64 - 1 <= value <= MAX_INT64 then Some(value) else None
  }

  lemma {:induction false} ParseDigitsOfFormat(n: nat)
    ensures ParseDigits(Format(n)) == Some(n)
  {
    if n >= 10 {
      var s := Format(n);
      assert s[..|s| - 1] == Format(n / 10);
      ParseDigitsOfFormat(n / 10);
    }
  }

  lemma SignedDigits(text: string, n: nat)
    requires text != "" && ParseDigits(text[1..]) == Some(n)
    ensures text[0] == '+' ==>
      ParseInt64(text) == if n <= 9_223_372_036_854_775_807 then Some(n as int) else None
    ensures text[0] == '-' ==> ParseInt64(text) == if n <= 9_223_372_036_854_775_808 then Some(0 - n) else None
  {
    hide ParseDigits;
  }

  lemma UnsignedDigits(text: string, n: nat)
    requires text != "" && text[0] != '-' && text[0] != '+' && ParseDigits(text) == Some(n)
    ensures ParseInt64(text) == if n <= 9_223_372_036_854_775_807 then Some(n as int) else None
  {
    hide ParseDigits;
  }

  /** A sign is read, and what does not fit 64 bits is refused. */
  lemma SignedDecimals(n: nat)
    ensures ParseInt64(Format(n)) == ParseInt64("+" + Format(n))
      == if n <= 9_223_372_036_854_775_807 then Some(n as int) else None
    ensures ParseInt64("-" + Format(n)) == if n <= 9_223_372_036_854_775_808 then Some(0 - n) else None
  {
    ParseDigitsOfFormat(n);
    assert Format(n)[0] in Format(n);
    hide ParseInt64, ParseDigits;
    UnsignedDigits(Format(n), n);
    assert ("+" + Format(n))[1..] == Format(n) == ("-" + Format(n))[1..];
    SignedDigits("+" + Format(n), n);
    SignedDigits("-" + Format(n), n);
  }

  lemma ParseInt64OfFormat(n: nat)
    requires n <= MAX_INT64
    ensures ParseInt64(Format(n)) == Some(n)
  {
    ParseDigitsOfFormat(n);
    assert Format(n)[0] in Format(n);
  }

  /** Only zero is written with a leading zero. */
  lemma {:induction false} FormatHasNoLeadingZero(n: nat)
    ensures Format(n)[0] == '0' <==> n == 0
  {
    if n >= 10 {
      FormatHasNoLeadingZero(n / 10);
    }
  }

  lemma {:induction false} FormatLength(n: nat)
    ensures n < 1000 ==> |Format(n)| <= 3
  {
    if 10 <= n < 1000 {
      assert Format(n / 10) ==
        if n < 100 then [('0' as int + n / 10 % 10) as char]
        else Format(n / 10 / 10) + [('0' as int + n / 10 % 10) as char];
    }
  }
}

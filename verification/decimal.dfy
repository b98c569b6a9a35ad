/**
 * Decimal text of integers, as produced by Python's `str()` and f-strings and
 * read back by Python's `int()`.
 */
module Decimal {
  import opened Results

  predicate IsDigit(c: char) {
    '0' <= c <= '9'
  }

  predicate AllDigits(s: string) {
    forall k :: 0 <= k < |s| ==> IsDigit(s[k])
  }

  function DigitValue(c: char): nat
    requires IsDigit(c)
  {
    c as int - '0' as int
  }

  function DigitChar(d: nat): (c: char)
    requires d < 10
    ensures IsDigit(c) && DigitValue(c) == d
  {
    ('0' as int + d) as char
  }

  /** `str(i)` for a non-negative integer: no sign, no leading zero. */
  function ShowNat(i: nat): (r: string)
    ensures 1 <= |r| && AllDigits(r)
    ensures r[0] == '0' ==> i == 0
    decreases i
  {
    if i < 10 then [DigitChar(i)] else ShowNat(i / 10) + [DigitChar(i % 10)]
  }

  /** `str(i)` for any integer: a minus sign in front of negative values. */
  function ShowInt(i: int): string {
    if i < 0 then "-" + ShowNat(-i) else ShowNat(i)
  }

  /** The value of a string of decimal digits, leading zeros allowed. */
  function DigitsValue(s: string): nat
    requires AllDigits(s)
  {
    if |s| == 0 then 0 else DigitsValue(s[..|s| - 1]) * 10 + DigitValue(s[|s| - 1])
  }

  /**
   * `int(s)` for a str: an optional sign followed by one or more decimal
   * digits; anything else is the ValueError case, here `None`.
   */
  function ParseInt(s: string): (r: Option<int>)
    ensures r.Some? <==>
              || (1 <= |s| && AllDigits(s))
              || (2 <= |s| && (s[0] == '+' || s[0] == '-') && AllDigits(s[1..]))
    ensures r.Some? && AllDigits(s) ==> r.value == DigitsValue(s)
    ensures r.Some? && s[0] == '+' ==> r.value == DigitsValue(s[1..])
    ensures r.Some? && s[0] == '-' ==> r.value == 0 - DigitsValue(s[1..])
  {
    if 1 <= |s| && (s[0] == '+' || s[0] == '-') then
      if 2 <= |s| && AllDigits(s[1..]) then
        var v: int := DigitsValue(s[1..]);
        Some(if s[0] == '-' then -v else v)
      else
        None
    else if 1 <= |s| && AllDigits(s) then
      Some(DigitsValue(s))
    else
      None
  }

  lemma {:induction false} ShowNatValue(i: nat)
    ensures DigitsValue(ShowNat(i)) == i
    decreases i
  {
    if i >= 10 {
      var s := ShowNat(i);
      assert s[..|s| - 1] == ShowNat(i / 10);
      ShowNatValue(i / 10);
    }
  }

  /** Reading back the text of a natural number yields that number. */
  lemma ParseShowNat(i: nat)
    ensures ParseInt(ShowNat(i)) == Some(i)
  {
    ShowNatValue(i);
  }

  /** Reading back the text of any integer yields that integer. */
  lemma ParseShowInt(i: int)
    ensures ParseInt(ShowInt(i)) == Some(i)
  {
    if i < 0 {
      var d := ShowNat(-i);
      var s := ShowInt(i);
      assert s == "-" + d;
      assert s[0] == '-' && 2 <= |s|;
      assert s[1..] == d;
      ShowNatValue(-i);
      assert DigitsValue(d) == -i;
    } else {
      ParseShowNat(i);
    }
  }

  /** Distinct numbers have distinct texts. */
  lemma ShowNatInjective(i: nat, j: nat)
    requires ShowNat(i) == ShowNat(j)
    ensures i == j
  {
    ParseShowNat(i);
    ParseShowNat(j);
  }
}

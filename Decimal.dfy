/** Decimal text of integers: what `'%d' % n` prints and what `int(text)`
    reads back. */
module Decimal {
  import opened Wrappers

  predicate IsDigit(c: char) {
    '0' <= c <= '9'
  }

  predicate AllDigits(s: string) {
    forall i :: 0 <= i < |s| ==> IsDigit(s[i])
  }

  /** A digit string as `%d` prints it: no superfluous leading zero. */
  predicate Canonical(s: string) {
    |s| >= 1 && AllDigits(s) && (s[0] == '0' ==> |s| == 1)
  }

  function DigitChar(d: nat): (c: char)
    requires d < 10
    ensures IsDigit(c) && (c == '0' <==> d == 0)
  {
    ('0' as int + d) as char
  }

  function DigitValue(c: char): (d: nat)
    requires IsDigit(c)
    ensures d < 10 && DigitChar(d) == c
  {
    c as int - '0' as int
  }

  function Pow10(k: nat): (r: nat)
    ensures r >= 1
  {
    if k == 0 then 1 else 10 * Pow10(k - 1)
  }

  /** `'%d' % n` for a non-negative `n`. */
  function NatToString(n: nat): (s: string)
    ensures Canonical(s)
    decreases n
  {
    if n < 10 then [DigitChar(n)]
    else NatToString(n / 10) + [DigitChar(n % 10)]
  }

  /** `'%d' % n`: a minus sign in front of the digits of a negative number. */
  function IntToString(n: int): (s: string)
    ensures |s| >= 1
    ensures n >= 0 ==> s == NatToString(n)
    ensures n < 0 ==> s == "-" + NatToString(-n)
  {
    if n < 0 then "-" + NatToString(-n) else NatToString(n)
  }

  /** The number a string of decimal digits denotes. */
  function DigitsValue(s: string): nat
    requires AllDigits(s)
    decreases |s|
  {
    if |s| == 0 then 0
    else DigitsValue(s[..|s| - 1]) * 10 + DigitValue(s[|s| - 1])
  }

  /** Reading back the digits `%d` prints gives the number printed. */
  lemma {:induction false} DigitsValueOfNatToString(n: nat)
    ensures DigitsValue(NatToString(n)) == n
    decreases n
  {
    if n >= 10 {
      var s := NatToString(n);
      assert s[..|s| - 1] == NatToString(n / 10);
      DigitsValueOfNatToString(n / 10);
    }
  }

  /** A number with `|s|` digits and no leading zero lies in
      [10^(|s|-1), 10^|s|). */
  lemma {:induction false} DigitsValueBounds(s: string)
    requires Canonical(s)
    ensures DigitsValue(s) < Pow10(|s|)
    ensures s[0] != '0' ==> DigitsValue(s) >= Pow10(|s| - 1)
    decreases |s|
  {
    if |s| > 1 {
      var init := s[..|s| - 1];
      assert init[0] == s[0];
      DigitsValueBounds(init);
    }
  }

  /** Printing the value of a canonical digit string gives that string back. */
  lemma {:induction false} NatToStringOfDigitsValue(s: string)
    requires Canonical(s)
    ensures NatToString(DigitsValue(s)) == s
    decreases |s|
  {
    var n := DigitsValue(s);
    if |s| == 1 {
      assert s[..0] == [];
    } else {
      var init := s[..|s| - 1];
      assert init[0] == s[0];
      DigitsValueBounds(init);
      assert n / 10 == DigitsValue(init);
      NatToStringOfDigitsValue(init);
      assert s == init + [s[|s| - 1]];
    }
  }

  /** `%d` of a number of at least 100 has at least three digits. */
  lemma {:induction false} NatToStringLength(n: nat)
    requires n >= 100
    ensures |NatToString(n)| >= 3
  {
    var m := n / 10;
    assert m >= 10;
    assert |NatToString(n)| == |NatToString(m)| + 1;
    assert |NatToString(m)| == |NatToString(m / 10)| + 1;
  }

  /** Python's `int(text)` on an optionally signed run of ASCII digits. */
  function ParseInt(text: string): (r: Result<int>)
    ensures r.Ok? <==> (|text| > 0 && AllDigits(text))
                        || (|text| > 1 && (text[0] == '-' || text[0] == '+') && AllDigits(text[1..]))
    ensures r.Ok? && text[0] == '-' ==> r.value == -(DigitsValue(text[1..]) as int)
    ensures r.Ok? && text[0] == '+' ==> r.value == DigitsValue(text[1..])
    ensures r.Ok? && text[0] != '-' && text[0] != '+' ==> r.value == DigitsValue(text)
  {
    if |text| > 1 && (text[0] == '-' || text[0] == '+') && AllDigits(text[1..]) then
      var magnitude: int := DigitsValue(text[1..]);
      Ok(if text[0] == '-' then -magnitude else magnitude)
    else if |text| > 0 && AllDigits(text) then
      Ok(DigitsValue(text))
    else
      Err("invalid literal for int() with base 10: '" + text + "'")
  }

  /** `int('%d' % n) == n`. */
  lemma {:induction false} ParseIntOfIntToString(n: int)
    ensures ParseInt(IntToString(n)) == Ok(n)
  {
    var s := IntToString(n);
    if n < 0 {
      var digits := NatToString(-n);
      assert s[0] == '-' && s[1..] == digits;
      assert AllDigits(s[1..]);
      DigitsValueOfNatToString(-n);
    } else {
      assert IsDigit(s[0]);
      DigitsValueOfNatToString(n);
    }
  }
}

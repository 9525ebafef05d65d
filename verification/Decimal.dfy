/** Decimal text of numbers, as `str(x)`, `'%d'` and `int(text)` produce and read it. */
module Decimal {
  predicate IsDigit(c: char) {
    '0' <= c <= '9'
  }

  predicate AllDigits(s: string) {
    forall i :: 0 <= i < |s| ==> IsDigit(s[i])
  }

  function DigitChar(d: nat): (c: char)
    requires d < 10
    ensures IsDigit(c) && DigitValue(c) == d
  {
    ('0' as int + d) as char
  }

  function DigitValue(c: char): (d: nat)
    requires IsDigit(c)
    ensures d < 10
  {
    c as int - '0' as int
  }

  /** The shortest decimal text of `n`. */
  function Print(n: nat): (s: string)
    ensures |s| > 0 && AllDigits(s)
  {
    if n < 10 then [DigitChar(n)] else Print(n / 10) + [DigitChar(n % 10)]
  }

  /** `'%d' % i`, with a sign for negative numbers. */
  function PrintInt(i: int): string {
    if i < 0 then "-" + Print(-i) else Print(i)
  }

  /** The number a string of digits denotes; leading zeros are allowed. */
  function Value(s: string): nat
    requires AllDigits(s)
  {
    if s == [] then 0 else 10 * Value(s[..|s| - 1]) + DigitValue(s[|s| - 1])
  }

  lemma {:induction false} ValueOfPrint(n: nat)
    ensures Value(Print(n)) == n
  {
    if n >= 10 {
      ValueOfPrint(n / 10);
      assert Print(n)[..|Print(n)| - 1] == Print(n / 10);
    } else {
      assert Print(n)[..0] == [];
    }
  }

  lemma DigitsInOrder(d: nat)
    requires d < 10
    ensures Value(["0123456789"[d]]) == d && Print(d) == ["0123456789"[d]]
  {
    var c := "0123456789"[d];
    assert c as int == '0' as int + d;
    assert [c][..0] == [];
  }

  lemma PrintInjective(m: nat, n: nat)
    ensures Print(m) == Print(n) <==> m == n
  {
    ValueOfPrint(m);
    ValueOfPrint(n);
  }

  lemma PrintIntInjective(i: int, j: int)
    ensures PrintInt(i) == PrintInt(j) <==> i == j
  {
    if i < 0 && j < 0 {
      assert PrintInt(i)[1..] == Print(-i) && PrintInt(j)[1..] == Print(-j);
      PrintInjective(-i, -j);
    } else if i >= 0 && j >= 0 {
      PrintInjective(i, j);
    } else {
      assert PrintInt(i)[0] != PrintInt(j)[0];
    }
  }

  /** The longest suffix of `s` made of digits. */
  function TrailingDigits(s: string): (t: string)
    ensures AllDigits(t)
  {
    if s == [] || !IsDigit(s[|s| - 1]) then []
    else TrailingDigits(s[..|s| - 1]) + [s[|s| - 1]]
  }

  lemma TrailingDigitsPush(s: string, c: char)
    requires IsDigit(c)
    ensures TrailingDigits(s + [c]) == TrailingDigits(s) + [c]
  {
    assert (s + [c])[..|s|] == s;
  }

  lemma {:induction false} TrailingDigitsAfter(prefix: string, digits: string)
    requires AllDigits(digits)
    requires prefix == [] || !IsDigit(prefix[|prefix| - 1])
    ensures TrailingDigits(prefix + digits) == digits
    decreases |digits|
  {
    if digits == [] {
      assert prefix + digits == prefix;
    } else {
      var init := digits[..|digits| - 1];
      TrailingDigitsAfter(prefix, init);
      TrailingDigitsPush(prefix + init, digits[|digits| - 1]);
      assert init + [digits[|digits| - 1]] == digits;
      assert (prefix + init) + [digits[|digits| - 1]] == prefix + digits;
    }
  }
}

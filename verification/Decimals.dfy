/** Decimal numbers as %d prints them and as they are read back. */
module Decimals {

  predicate IsDigit(c: char) {
    '0' <= c <= '9'
  }

  predicate AllDigits(s: string) {
    forall i | 0 <= i < |s| :: IsDigit(s[i])
  }

  function Digits(n: nat): string {
    if n < 10 then ["0123456789"[n]] else Digits(n / 10) + ["0123456789"[n % 10]]
  }

  function Render(i: int): string {
    if i < 0 then "-" + Digits(-i) else Digits(i)
  }

  function DigitValue(c: char): nat {
    if IsDigit(c) then c as int - '0' as int else 0
  }

  /** The number a string of digits stands for. */
  function Value(s: string): nat {
    if s == "" then 0 else 10 * Value(s[..|s| - 1]) + DigitValue(s[|s| - 1])
  }

  lemma {:induction false} ValueOfDigits(n: nat)
    ensures Digits(n) != "" && AllDigits(Digits(n)) && Value(Digits(n)) == n
  {
    if n >= 10 {
      ValueOfDigits(n / 10);
      var s := Digits(n);
      assert s[..|s| - 1] == Digits(n / 10);
    } else {
      assert Digits(n)[..0] == "";
    }
  }

  /** The length of the leading digits. */
  function DigitRun(s: string): (k: nat)
    ensures k <= |s|
  {
    if s != "" && IsDigit(s[0]) then DigitRun(s[1..]) + 1 else 0
  }

  lemma {:induction false} DigitRunStops(digits: string, rest: string)
    requires AllDigits(digits) && (rest == "" || !IsDigit(rest[0]))
    ensures DigitRun(digits + rest) == |digits|
  {
    if digits == "" {
      assert digits + rest == rest;
    } else {
      assert (digits + rest)[1..] == digits[1..] + rest;
      DigitRunStops(digits[1..], rest);
    }
  }

  lemma DigitsPrefixFree(a: nat, b: nat, ra: string, rb: string)
    requires Digits(a) + ra == Digits(b) + rb
    requires ra != "" && !IsDigit(ra[0]) && rb != "" && !IsDigit(rb[0])
    ensures a == b
  {
    ValueOfDigits(a);
    ValueOfDigits(b);
    DigitRunStops(Digits(a), ra);
    DigitRunStops(Digits(b), rb);
    var s := Digits(a) + ra;
    assert s[..|Digits(a)|] == Digits(a) && s[..|Digits(b)|] == Digits(b);
  }

  lemma RenderSign(a: int, ra: string)
    ensures |Render(a) + ra| > 0 && ((Render(a) + ra)[0] == '-' <==> a < 0)
    ensures a < 0 ==> (Render(a) + ra)[1..] == Digits(-a) + ra
  {
    if a < 0 {
      MinusFirst(Digits(-a), ra);
    } else {
      ValueOfDigits(a);
      DigitFirst(Digits(a), ra);
    }
  }

  lemma MinusFirst(digits: string, rest: string)
    ensures ("-" + digits + rest)[0] == '-' && ("-" + digits + rest)[1..] == digits + rest
  {
  }

  lemma DigitFirst(digits: string, rest: string)
    requires digits != "" && AllDigits(digits)
    ensures (digits + rest)[0] != '-'
  {
    assert (digits + rest)[0] == digits[0];
  }

  /** Two numbers found at one place, each closed by a non-digit, are the same. */
  lemma RenderPrefixFree(a: int, b: int, ra: string, rb: string)
    requires Render(a) + ra == Render(b) + rb
    requires ra != "" && !IsDigit(ra[0]) && rb != "" && !IsDigit(rb[0])
    ensures a == b
  {
    RenderSign(a, ra);
    RenderSign(b, rb);
    DigitsPrefixFree(if a < 0 then -a else a, if b < 0 then -b else b, ra, rb);
  }
}

/** Decimal numerals as the services print and read them. */
module Decimal {
  import opened Utf8

  predicate IsDigit(c: Scalar) {
    48 <= c < 58
  }

  predicate AllDigits(t: Text) {
    forall i :: 0 <= i < |t| ==> IsDigit(t[i])
  }

  /** Text of an ASCII or other string literal. */
  function Literal(s: string): (t: Text)
    ensures |t| == |s|
  {
    seq(|s|, i requires 0 <= i < |s| => s[i] as int)
  }

  /** `str(n)` for a natural number. */
  function Print(n: nat): (t: Text)
    ensures t != [] && AllDigits(t)
    ensures |t| > 1 ==> t[0] != 48
    ensures n > 0 ==> t[0] != 48
  {
    if n < 10 then [48 + n] else Print(n / 10) + [48 + n % 10]
  }

  /** `str(n)` for any integer. */
  function PrintInt(n: int): Text {
    if n < 0 then [45] + Print(-n) else Print(n)
  }

  /** `int(t)` of a string of digits, leading zeros included. */
  function Value(t: Text): nat
    requires AllDigits(t)
  {
    if t == [] then 0 else 10 * Value(t[..|t| - 1]) + (t[|t| - 1] - 48)
  }

  /** A numeral without superfluous leading zeros. */
  predicate Canonical(t: Text) {
    t != [] && AllDigits(t) && (|t| > 1 ==> t[0] != 48)
  }

  function PowerOfTen(k: nat): nat {
    if k == 0 then 1 else 10 * PowerOfTen(k - 1)
  }

  lemma {:induction false} ValuePrint(n: nat)
    ensures Value(Print(n)) == n
  {
    if n >= 10 {
      ValuePrint(n / 10);
      assert Print(n)[..|Print(n)| - 1] == Print(n / 10);
    }
  }

  lemma {:induction false} CanonicalPositive(t: Text)
    requires Canonical(t)
    ensures |t| > 1 ==> Value(t) >= 10
  {
    if |t| > 1 {
      var front := t[..|t| - 1];
      CanonicalPositive(front);
      assert |front| == 1 ==> front[..0] == [];
    }
  }

  /** Printing and reading are inverse on canonical numerals, so two canonical
      numerals are equal exactly when their values are. */
  lemma {:induction false} PrintValue(t: Text)
    requires Canonical(t)
    ensures Print(Value(t)) == t
  {
    CanonicalPositive(t);
    var front := t[..|t| - 1];
    if |t| == 1 {
      assert front == [];
    } else {
      PrintValue(front);
      assert t == front + [t[|t| - 1]];
    }
  }

  lemma {:induction false} DigitsNeeded(n: nat, k: nat)
    requires k > 0
    ensures |Print(n)| <= k <==> n < PowerOfTen(k)
  {
    if k == 1 {
      assert PowerOfTen(1) == 10 * PowerOfTen(0);
    } else if n < 10 {
      PowerPositive(k - 1);
    } else {
      DigitsNeeded(n / 10, k - 1);
    }
  }

  lemma {:induction false} PowerPositive(k: nat)
    ensures PowerOfTen(k) >= 1
  {
    if k > 0 { PowerPositive(k - 1); }
  }

  /** How many digits a text starts with. */
  function DigitsBefore(t: Text): (k: nat)
    ensures k <= |t| && AllDigits(t[..k])
    ensures k < |t| ==> !IsDigit(t[k])
  {
    if t == [] || !IsDigit(t[0]) then 0 else 1 + DigitsBefore(t[1..])
  }

  lemma {:induction false} DigitsBeforeRest(digits: Text, rest: Text)
    requires AllDigits(digits) && (rest == [] || !IsDigit(rest[0]))
    ensures DigitsBefore(digits + rest) == |digits|
  {
    var t := digits + rest;
    if digits == [] {
      assert t == rest;
    } else {
      assert t[0] == digits[0];
      assert t[1..] == digits[1..] + rest;
      DigitsBeforeRest(digits[1..], rest);
    }
  }
}

/** Decimal printing and parsing of signed integers, as the source's `to_string` and `parse` do it. */
module Decimal {
  import opened Common

  const MINUS: byte := 45
  const PLUS: byte := 43
  const ZERO: byte := 48

  predicate IsDigit(b: byte) {
    ZERO <= b <= ZERO + 9
  }

  function Digits(n: nat): Text {
    if n < 10 then [ZERO + n] else Digits(n / 10) + [ZERO + n % 10]
  }

  function Print(n: int): Text {
    if n < 0 then [MINUS] + Digits(-n) else Digits(n)
  }

  /** The value of a non-empty run of digits; anything else is an error. */
  function ParseDigits(s: Text): Option<nat> {
    if s == [] || !IsDigit(s[|s| - 1]) then
      None
    else if |s| == 1 then
      Some(s[0] - ZERO)
    else
      match ParseDigits(s[..|s| - 1])
      case None => None
      case Some(v) => Some(10 * v + s[|s| - 1] - ZERO)
  }

  /** An optional sign, then digits, then the range check of the integer type [lo, hi]. */
  function Parse(s: Text, lo: int, hi: int): (r: Option<int>)
    ensures r.Some? ==> lo <= r.value <= hi
  {
    var negative := |s| > 0 && s[0] == MINUS;
    var signed := negative || (|s| > 0 && s[0] == PLUS);
    match ParseDigits(if signed then s[1..] else s)
    case None => None
    case Some(v) =>
      var n := if negative then 0 - v as int else v as int;
      if lo <= n <= hi then Some(n) else None
  }

  /** `s.parse().unwrap_or(0)`. */
  function ParseOrZero(s: Text, lo: int, hi: int): int {
    match Parse(s, lo, hi)
    case None => 0
    case Some(n) => n
  }

  // ------------------------------------------------------------------ what is a number

  predicate AllDigits(s: Text) {
    s != [] && forall b <- s :: 48 <= b <= 57
  }

  function PowerOfTen(n: nat): nat {
    if n == 0 then 1 else 10 * PowerOfTen(n - 1)
  }

  /** Positional notation, the first digit the most significant. */
  function Positional(s: Text): int {
    if s == [] then 0 else (s[0] as int - 48) * PowerOfTen(|s| - 1) + Positional(s[1..])
  }

  lemma TenTimes(d: int, p: nat)
    ensures d * (10 * p) == 10 * (d * p)
  {
  }

  lemma {:induction false} PositionalLast(s: Text, b: byte)
    ensures Positional(s + [b]) == 10 * Positional(s) + b as int - 48
  {
    if s == [] {
      assert (s + [b])[1..] == [];
    } else {
      assert (s + [b])[1..] == s[1..] + [b];
      PositionalLast(s[1..], b);
      TenTimes(s[0] as int - 48, PowerOfTen(|s| - 1));
    }
  }

  lemma {:induction false} DigitsIff(s: Text)
    ensures ParseDigits(s).Some? <==> AllDigits(s)
    ensures ParseDigits(s).Some? ==> ParseDigits(s).value == Positional(s)
  {
    if s != [] {
      var n := |s| - 1;
      assert s == s[..n] + [s[n]];
      PositionalLast(s[..n], s[n]);
      DigitsIff(s[..n]);
      assert s[n] in s && forall b <- s :: b in s[..n] || b == s[n];
      assert forall b <- s[..n] :: b in s;
      if n == 0 { assert s[..n] == [] && Positional(s[..n]) == 0; }
    }
  }

  /** Exactly the texts that are accepted: digits, with one sign or none, of a value in the type's range. */
  lemma ParseIff(s: Text, n: int, lo: int, hi: int)
    ensures Parse(s, lo, hi) == Some(n)
       <==> lo <= n <= hi
            && ((AllDigits(s) && n == Positional(s))
                || (s != [] && s[0] == 43 && AllDigits(s[1..]) && n == Positional(s[1..]))
                || (s != [] && s[0] == 45 && AllDigits(s[1..]) && n == -Positional(s[1..])))
  {
    hide ParseDigits, Positional;
    DigitsIff(s);
    if s != [] {
      DigitsIff(s[1..]);
      assert s[0] in s;
    }
  }

  lemma {:induction false} DigitsParse(n: nat)
    ensures |Digits(n)| > 0 && IsDigit(Digits(n)[0])
    ensures forall b <- Digits(n) :: IsDigit(b)
    ensures Digits(n)[0] == ZERO <==> n == 0
    ensures n == 0 ==> Digits(n) == [ZERO]
    ensures ParseDigits(Digits(n)) == Some(n)
  {
    if n >= 10 {
      DigitsParse(n / 10);
      var s := Digits(n);
      assert s[..|s| - 1] == Digits(n / 10);
    }
  }

  /** Printing then parsing is the identity on every value of the target type, and an error on any other. */
  lemma ParsePrint(n: int, lo: int, hi: int)
    ensures Parse(Print(n), lo, hi) == if lo <= n <= hi then Some(n) else None
    ensures forall b <- Print(n) :: b == MINUS || IsDigit(b)
    // the shortest form: a sign for negatives only, and no leading zero
    ensures Print(n)[0] == 45 <==> n < 0
    ensures n > 0 ==> Print(n)[0] != 48
    ensures n < 0 ==> |Print(n)| > 1 && Print(n)[1] != 48
    ensures n == 0 ==> Print(n) == [48]
  {
    DigitsParse(if n < 0 then -n else n);
    if n < 0 {
      assert Print(n)[1..] == Digits(-n);
    }
  }
}

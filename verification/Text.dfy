/** Decimal printing, ASCII classes and line splitting, shared by the text-producing components. */
module Text {
  import opened FixedWidth

  const DIGITS: string := "0123456789"

  predicate IsDigit(c: char) { '0' <= c <= '9' }

  predicate IsLower(c: char) { 'a' <= c <= 'z' }

  predicate IsUpper(c: char) { 'A' <= c <= 'Z' }

  // std::isalnum, std::tolower and std::toupper in the "C" locale
  predicate IsAlnum(c: char) { IsDigit(c) || IsLower(c) || IsUpper(c) }

  function ToLower(c: char): char {
    if IsUpper(c) then (c as int + 32) as char else c
  }

  function ToUpper(c: char): char {
    if IsLower(c) then (c as int - 32) as char else c
  }

  function Upper(s: string): (u: string)
    ensures |u| == |s|
  {
    seq(|s|, i requires 0 <= i < |s| => ToUpper(s[i]))
  }

  /** Folding the case of an upper-case letter and back gives the letter, and the other way round. */
  lemma CasesPair(c: char)
    ensures 'A' <= c <= 'Z' ==> 'a' <= ToLower(c) <= 'z' && ToUpper(ToLower(c)) == c
    ensures 'a' <= c <= 'z' ==> 'A' <= ToUpper(c) <= 'Z' && ToLower(ToUpper(c)) == c
    ensures !('A' <= c <= 'Z') ==> ToLower(c) == c
    ensures !('a' <= c <= 'z') ==> ToUpper(c) == c
  {
  }

  ghost predicate Free(s: string, c: char) { forall i :: 0 <= i < |s| ==> s[i] != c }

  lemma Regroup<T>(a: seq<T>, b: seq<T>, c: seq<T>)
    ensures (a + b) + c == a + (b + c)
  {
  }

  /** Where a character first occurs from an offset on, or the length of the text. */
  function IndexOf(s: string, c: char, from: nat): (i: nat)
    requires from <= |s|
    ensures from <= i <= |s| && (i < |s| ==> s[i] == c) && forall j :: from <= j < i ==> s[j] != c
    decreases |s| - from
  {
    if from == |s| || s[from] == c then from else IndexOf(s, c, from + 1)
  }

  /* ---- std::to_string ---- */

  function DecimalNat(n: nat): (s: string)
    ensures |s| > 0 && forall i :: 0 <= i < |s| ==> IsDigit(s[i])
  {
    if n < 10 then [DIGITS[n]] else DecimalNat(n / 10) + [DIGITS[n % 10]]
  }

  function Decimal(n: int): string {
    if n < 0 then "-" + DecimalNat(-n) else DecimalNat(n)
  }

  function DigitsValue(s: string): int {
    if s == "" then 0 else 10 * DigitsValue(s[..|s| - 1]) + (s[|s| - 1] as int - '0' as int)
  }

  lemma {:induction false} DecimalNatValue(n: nat)
    ensures DigitsValue(DecimalNat(n)) == n
  {
    if n >= 10 {
      DecimalNatValue(n / 10);
      assert DecimalNat(n)[..|DecimalNat(n)| - 1] == DecimalNat(n / 10);
    } else {
      assert DecimalNat(n)[..0] == "";
    }
  }

  lemma DecimalInjective(m: int, n: int)
    ensures Decimal(m) == Decimal(n) ==> m == n
  {
    if Decimal(m) == Decimal(n) {
      DecimalNatValue(if m < 0 then -m else m);
      DecimalNatValue(if n < 0 then -n else n);
      assert m < 0 <==> Decimal(m)[0] == '-';
      assert n < 0 <==> Decimal(n)[0] == '-';
      if m < 0 {
        assert Decimal(m)[1..] == DecimalNat(-m) && Decimal(n)[1..] == DecimalNat(-n);
      }
    }
  }

  function Pow10(k: nat): nat { if k == 0 then 1 else 10 * Pow10(k - 1) }

  lemma {:induction false} DecimalNatLength(n: nat, k: nat)
    requires 1 <= k && n < Pow10(k)
    ensures |DecimalNat(n)| <= k
  {
    if n >= 10 {
      DecimalNatLength(n / 10, k - 1);
    }
  }

  lemma DecimalLength(n: int64)
    ensures 1 <= |Decimal(n)| <= 20
  {
    assert Pow10(5) == 100_000;
    assert Pow10(10) == 10_000_000_000;
    assert Pow10(15) == 1_000_000_000_000_000;
    assert Pow10(19) == 10_000_000_000_000_000_000;
    var magnitude: nat := if n < 0 then -(n as int) else n;
    DecimalNatLength(magnitude, 19);
  }
}

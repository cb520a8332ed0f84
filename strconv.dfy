/**
 * `strconv.Atoi` on a 64-bit platform: an optional `+` or `-`, then one or
 * more decimal digits and nothing else; a value outside the range of `int`
 * is an error. `Itoa` is its printing partner.
 */
module Strconv {
  import opened Wrappers

  const MinInt: int := -0x8000_0000_0000_0000
  const MaxInt: int := 0x7FFF_FFFF_FFFF_FFFF

  predicate IsDigit(c: char) {
    '0' <= c <= '9'
  }

  predicate AllDigits(s: string) {
    forall i :: 0 <= i < |s| ==> IsDigit(s[i])
  }

  /** The value of a digit string, most significant digit first. */
  function DigitsValue(s: string): nat
    requires AllDigits(s)
  {
    if s == [] then 0 else DigitsValue(s[..|s| - 1]) * 10 + (s[|s| - 1] as int - '0' as int)
  }

  predicate HasSign(s: string) {
    |s| > 0 && (s[0] == '+' || s[0] == '-')
  }

  /** The digits after an optional sign. */
  function Unsigned(s: string): string {
    if HasSign(s) then s[1..] else s
  }

  /** What the text denotes when it has decimal syntax, before the range check. */
  predicate IsDecimal(s: string) {
    |Unsigned(s)| > 0 && AllDigits(Unsigned(s))
  }

  function DecimalValue(s: string): int
    requires IsDecimal(s)
  {
    if HasSign(s) && s[0] == '-' then -(DigitsValue(Unsigned(s)) as int) else DigitsValue(Unsigned(s))
  }

  function Atoi(s: string): (r: Option<int>)
    ensures r.Some? <==> IsDecimal(s) && MinInt <= DecimalValue(s) <= MaxInt
    ensures r.Some? ==> r.value == DecimalValue(s)
    ensures s == "" ==> r == None
  {
    var digits := Unsigned(s);
    if digits == [] || !AllDigits(digits) then None
    else
      var v := if s[0] == '-' then -(DigitsValue(digits) as int) else DigitsValue(digits) as int;
      if MinInt <= v <= MaxInt then Some(v) else None
  }

  function NatDigits(n: nat): (s: string)
    ensures |s| > 0 && AllDigits(s)
  {
    if n < 10 then [('0' as int + n) as char]
    else NatDigits(n / 10) + [('0' as int + n % 10) as char]
  }

  /** `strconv.Itoa`: a minus sign for negative values, then the digits. */
  function Itoa(n: int): string {
    if n < 0 then "-" + NatDigits(-n) else NatDigits(n)
  }

  lemma {:induction false} NatDigitsValue(n: nat)
    ensures DigitsValue(NatDigits(n)) == n
  {
    if n >= 10 {
      NatDigitsValue(n / 10);
      var s := NatDigits(n);
      assert s[..|s| - 1] == NatDigits(n / 10);
    }
  }

  /** Parsing what `Itoa` prints gives back every value in range. */
  lemma AtoiItoa(n: int)
    requires MinInt <= n <= MaxInt
    ensures Atoi(Itoa(n)) == Some(n)
  {
    var s := Itoa(n);
    if n < 0 {
      NatDigitsValue(-n);
      assert Unsigned(s) == NatDigits(-n);
    } else {
      NatDigitsValue(n);
      assert !HasSign(s);
    }
  }

  /** A character that is neither a digit nor a leading sign makes the parse fail. */
  lemma AtoiRejectsStray(s: string, i: int)
    requires 0 <= i < |s| && !IsDigit(s[i])
    requires i > 0 || (s[i] != '+' && s[i] != '-')
    ensures Atoi(s) == None
  {
    if HasSign(s) {
      assert Unsigned(s)[i - 1] == s[i];
    } else {
      assert Unsigned(s)[i] == s[i];
    }
  }

  /** A sign with no digits after it, and the empty text, are no numbers. */
  lemma AtoiSignAlone()
    ensures Atoi("") == None && Atoi("+") == None && Atoi("-") == None
  {
    assert Unsigned("+") == [];
    assert Unsigned("-") == [];
  }

  /** One leading zero more does not change a digit string's value. */
  lemma {:induction false} LeadingZeroValue(d: string)
    requires AllDigits(d)
    ensures AllDigits("0" + d) && DigitsValue("0" + d) == DigitsValue(d)
  {
    if d != [] {
      LeadingZeroValue(d[..|d| - 1]);
      assert ("0" + d)[..|d|] == "0" + d[..|d| - 1];
    }
  }

  /**
   * Digits parse to their value when it fits, and a leading zero is
   * ignored.
   */
  lemma AtoiDigits(d: string)
    requires d != [] && AllDigits(d)
    ensures Atoi(d) == if DigitsValue(d) <= MaxInt then Some(DigitsValue(d) as int) else None
    ensures Atoi("0" + d) == Atoi(d)
  {
    assert !HasSign(d) && !HasSign("0" + d);
    LeadingZeroValue(d);
  }

  /**
   * A `+` changes nothing and a `-` negates, so the most negative value
   * parses although its positive counterpart does not.
   */
  lemma AtoiSigns(d: string)
    requires d != [] && AllDigits(d)
    ensures Atoi("+" + d) == Atoi(d)
    ensures Atoi("-" + d) == if DigitsValue(d) <= -MinInt then Some(-(DigitsValue(d) as int)) else None
  {
    assert Unsigned("+" + d) == d;
    assert Unsigned("-" + d) == d;
    assert !HasSign(d);
  }
}

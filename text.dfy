/** String helpers the filters rely on: ASCII case folding, substring search,
    and the decimal rendering and parsing of integers (Python's `str(int)`
    and the integer case of `pd.to_numeric`). */
module Text {

  // ---------------------------------------------------------------------
  // Case folding (ASCII only)

  function Lower(c: char): char {
    if 'A' <= c <= 'Z' then (c as int + 32) as char else c
  }

  function Upper(c: char): char {
    if 'a' <= c <= 'z' then (c as int - 32) as char else c
  }

  function LowerAll(s: string): string {
    seq(|s|, i requires 0 <= i < |s| => Lower(s[i]))
  }

  function UpperAll(s: string): string {
    seq(|s|, i requires 0 <= i < |s| => Upper(s[i]))
  }

  /** Folding an upper-cased string gives the fold of the original. */
  lemma LowerOfUpper(s: string)
    ensures LowerAll(UpperAll(s)) == LowerAll(s)
  {
  }

  // ---------------------------------------------------------------------
  // Substring search

  /** `p` occurs in `s` starting at offset `i`. */
  predicate FactorAt(p: string, s: string, i: int) {
    0 <= i <= |s| - |p| && s[i..i + |p|] == p
  }

  /** `p` occurs in `s` at some offset. */
  predicate IsFactor(p: string, s: string) {
    exists i | 0 <= i <= |s| - |p| :: FactorAt(p, s, i)
  }

  /** Literal, case-insensitive substring test: `needle` occurs in `hay`
      once both are folded to lower case. */
  predicate ContainsIgnoreCase(hay: string, needle: string) {
    IsFactor(LowerAll(needle), LowerAll(hay))
  }

  /** The empty needle occurs in every string. */
  lemma EmptyNeedleMatches(hay: string)
    ensures ContainsIgnoreCase(hay, "")
  {
    assert FactorAt(LowerAll(""), LowerAll(hay), 0);
  }

  /** A needle matches exactly when its upper-cased form does. */
  lemma ContainsCaseInsensitive(hay: string, needle: string)
    ensures ContainsIgnoreCase(hay, UpperAll(needle)) <==> ContainsIgnoreCase(hay, needle)
  {
    LowerOfUpper(needle);
  }

  // ---------------------------------------------------------------------
  // Decimal integers

  predicate IsDigit(c: char) {
    '0' <= c <= '9'
  }

  function DigitChar(d: nat): (c: char)
    requires d < 10
    ensures IsDigit(c)
  {
    ('0' as int + d) as char
  }

  function DigitValue(c: char): (d: nat)
    requires IsDigit(c)
    ensures d < 10
  {
    c as int - '0' as int
  }

  predicate AllDigits(s: string) {
    forall i :: 0 <= i < |s| ==> IsDigit(s[i])
  }

  /** The digits of `n`, most significant first, without leading zeros. */
  function Digits(n: nat): (s: string)
    ensures |s| > 0 && AllDigits(s)
    ensures |s| > 1 ==> s[0] != '0'
    decreases n
  {
    if n < 10 then [DigitChar(n)] else Digits(n / 10) + [DigitChar(n % 10)]
  }

  /** The value of a run of digits, read most significant first. */
  function DigitsValue(s: string): nat
    requires AllDigits(s)
  {
    if s == [] then 0 else DigitsValue(s[..|s| - 1]) * 10 + DigitValue(s[|s| - 1])
  }

  /** Python's `str(n)` for an integer: an optional minus sign, then digits. */
  function DecimalString(n: int): string {
    if n < 0 then "-" + Digits(-n) else Digits(n)
  }

  /** The integer a string denotes, if it is an optional sign followed by
      one or more ASCII digits; `None` for anything else (such as "N.V."). */
  function ParseInteger(s: string): (r: Option<int>)
    ensures r.Some? ==> |s| > 0
  {
    if |s| > 1 && (s[0] == '-' || s[0] == '+') && AllDigits(s[1..]) then
      var v: int := DigitsValue(s[1..]);
      Some(if s[0] == '-' then -v else v)
    else if |s| > 0 && AllDigits(s) then
      Some(DigitsValue(s))
    else
      None
  }

  datatype Option<T> = None | Some(value: T)

  lemma {:induction false} DigitsRoundTrip(n: nat)
    ensures DigitsValue(Digits(n)) == n
    decreases n
  {
    if n >= 10 {
      var s := Digits(n);
      assert s[..|s| - 1] == Digits(n / 10);
      DigitsRoundTrip(n / 10);
    }
  }

  /** Parsing the decimal rendering of an integer gives the integer back. */
  lemma ParseDecimalString(n: int)
    ensures ParseInteger(DecimalString(n)) == Some(n)
  {
    if n < 0 {
      var d := Digits(-n);
      var s := "-" + d;
      assert s[0] == '-' && s[1..] == d && |s| > 1;
      DigitsRoundTrip(-n);
      assert ParseInteger(s) == Some(0 - DigitsValue(d) as int);
    } else {
      var s := Digits(n);
      assert IsDigit(s[0]);
      DigitsRoundTrip(n);
      assert ParseInteger(s) == Some(DigitsValue(s));
    }
  }

  /** The non-vintage marker of the wine dataset is not a number. */
  lemma NonVintageIsNotANumber()
    ensures ParseInteger("N.V.") == None
  {
  }
}

/**
 * Base-10 formatting and parsing of 64-bit integers, as Go's
 * `strconv.FormatInt(n, 10)` and `strconv.ParseInt(s, 10, 64)` do them.
 * Used by the timestamp codec and by the expiry claims of tokens.
 */
module Strconv {
  import opened Outcomes

  const Int64Min: int := -0x8000_0000_0000_0000
  const Int64Max: int := 0x7fff_ffff_ffff_ffff

  predicate IsInt64(n: int) { Int64Min <= n <= Int64Max }

  type Int64 = n: int | IsInt64(n)

  predicate IsDigit(c: char) { '0' <= c <= '9' }

  predicate AllDigits(s: string) { forall i :: 0 <= i < |s| ==> IsDigit(s[i]) }

  function DigitChar(d: nat): (c: char)
    requires d < 10
    ensures IsDigit(c)
  {
    ('0' as int + d) as char
  }

  /** Value of a string of decimal digits, most significant digit first. */
  function DigitsValue(s: string): nat
    requires AllDigits(s)
  {
    if s == [] then 0
    else 10 * DigitsValue(s[..|s| - 1]) + (s[|s| - 1] as int - '0' as int)
  }

  /** Shortest decimal representation of a natural number. */
  function FormatNat(n: nat): (s: string)
    ensures 0 < |s| && AllDigits(s)
    ensures |s| > 1 ==> s[0] != '0'
  {
    if n < 10 then [DigitChar(n)] else FormatNat(n / 10) + [DigitChar(n % 10)]
  }

  /** `strconv.FormatInt(n, 10)`: a minus sign for negative numbers, then the digits. */
  function FormatInt(n: int): (s: string)
    ensures 0 < |s|
    ensures (s[0] == '-') <==> n < 0
    ensures n >= 0 ==> AllDigits(s)
  {
    if n < 0 then "-" + FormatNat(-n) else FormatNat(n)
  }

  /**
   * `strconv.ParseInt(s, 10, 64)`: an optional '+' or '-', then at least one
   * decimal digit and nothing else (base 10 admits no underscores), and the
   * value must fit in 64 bits; any other input is an error.
   */
  function ParseInt(s: string): (r: Option<int>)
    ensures r.Some? ==> IsInt64(r.value)
    ensures r.Some? ==> 0 < |s| && AllDigits(if s[0] == '+' || s[0] == '-' then s[1..] else s)
    ensures r.Some? && r.value < 0 ==> s[0] == '-'
  {
    if |s| == 0 then None
    else
      var signed := s[0] == '+' || s[0] == '-';
      var digits := if signed then s[1..] else s;
      if |digits| == 0 || !AllDigits(digits) then None
      else
        var v: int := DigitsValue(digits);
        var n: int := if s[0] == '-' then -v else v;
        if IsInt64(n) then Some(n) else None
  }

  lemma {:induction false} DigitsValueOfFormatNat(n: nat)
    ensures DigitsValue(FormatNat(n)) == n
  {
    if n >= 10 {
      var s := FormatNat(n);
      var p := FormatNat(n / 10);
      assert s[..|s| - 1] == p;
      DigitsValueOfFormatNat(n / 10);
    }
  }

  /** Parsing what FormatInt printed gives back the number. */
  lemma ParseFormatRoundTrip(n: int)
    requires IsInt64(n)
    ensures ParseInt(FormatInt(n)) == Some(n)
  {
    if n < 0 {
      assert FormatInt(n)[1..] == FormatNat(-n);
      DigitsValueOfFormatNat(-n);
    } else {
      DigitsValueOfFormatNat(n);
    }
  }
}

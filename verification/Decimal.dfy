/** Decimal printing and parsing of machine integers, as `to_string` and `str::parse` do it. */
module Decimal {
  import opened Wrappers

  const I64_MIN: int := -0x8000_0000_0000_0000
  const I64_MAX: int := 0x7fff_ffff_ffff_ffff
  const USIZE_LIMIT: int := 0x1_0000_0000_0000_0000

  function Digit(d: nat): char
    requires d < 10
  {
    "0123456789"[d]
  }

  function DigitValue(c: char): Option<nat> {
    if '0' <= c <= '9' then Some(c as int - '0' as int) else None
  }

  function PrintNat(n: nat): (s: string)
    ensures s != [] && '0' <= s[0] <= '9'
  {
    if n < 10 then [Digit(n)] else PrintNat(n / 10) + [Digit(n % 10)]
  }

  function PrintInt(n: int): string {
    if n < 0 then "-" + PrintNat(-n) else PrintNat(n)
  }

  /** The value of a non-empty string of digits. */
  function ParseDigits(s: string): Option<nat> {
    if s == [] then None
    else
      match DigitValue(s[|s| - 1])
      case None => None
      case Some(d) =>
        if |s| == 1 then Some(d)
        else
          match ParseDigits(s[..|s| - 1])
          case None => None
          case Some(high) => Some(10 * high + d)
  }

  /** `parse::<i64>()`: an optional sign, digits, and a range check. */
  function ParseI64(s: string): (n: Option<int>)
    ensures n.Some? ==> I64_MIN <= n.value <= I64_MAX
  {
    var negative := s != [] && s[0] == '-';
    var digits := if s != [] && (s[0] == '-' || s[0] == '+') then s[1..] else s;
    match ParseDigits(digits)
    case None => None
    case Some(magnitude) =>
      var n := (if negative then -1 else 1) * magnitude;
      if I64_MIN <= n <= I64_MAX then Some(n) else None
  }

  /** `parse::<usize>()` on a 64-bit target: no minus sign. */
  function ParseUsize(s: string): (n: Option<nat>)
    ensures n.Some? ==> n.value < USIZE_LIMIT
  {
    var digits := if s != [] && s[0] == '+' then s[1..] else s;
    match ParseDigits(digits)
    case None => None
    case Some(n) => if n < USIZE_LIMIT then Some(n) else None
  }

  lemma DigitRoundTrip(d: nat)
    requires d < 10
    ensures DigitValue(Digit(d)) == Some(d)
  {
  }

  lemma {:induction false} ParsePrintNat(n: nat)
    ensures ParseDigits(PrintNat(n)) == Some(n)
  {
    if n < 10 {
      DigitRoundTrip(n);
    } else {
      ParsePrintNat(n / 10);
      DigitRoundTrip(n % 10);
      assert PrintNat(n)[..|PrintNat(n)| - 1] == PrintNat(n / 10);
    }
  }

  /** Printing an id and parsing it again gives the id. */
  lemma {:induction false} ParsePrintI64(n: int)
    requires I64_MIN <= n <= I64_MAX
    ensures ParseI64(PrintInt(n)) == Some(n)
  {
    hide PrintNat, ParseDigits;
    if n < 0 {
      ParsePrintNat(-n);
      assert PrintInt(n)[1..] == PrintNat(-n);
    } else {
      ParsePrintNat(n);
    }
  }

  lemma ParsePrintUsize(n: nat)
    requires n < USIZE_LIMIT
    ensures ParseUsize(PrintNat(n)) == Some(n)
  {
    hide PrintNat, ParseDigits;
    ParsePrintNat(n);
  }

  predicate IsDigit(c: char) {
    '0' <= c <= '9'
  }

  /** A digit string is a number only if it is not empty and holds nothing but digits. */
  lemma {:induction false} OnlyDigitsParse(s: string)
    ensures ParseDigits(s).Some? <==> s != "" && forall c :: c in s ==> IsDigit(c)
  {
    if s != "" {
      var n := |s| - 1;
      assert s == s[..n] + [s[n]];
      assert DigitValue(s[n]).Some? <==> IsDigit(s[n]);
      OnlyDigitsParse(s[..n]);
      if n == 0 {
        assert s == [s[0]];
      }
    }
  }

  lemma {:induction false} LeadingZero(n: nat)
    ensures ParseDigits("0" + PrintNat(n)) == Some(n)
  {
    var s := "0" + PrintNat(n);
    if n < 10 {
      DigitRoundTrip(n);
      DigitRoundTrip(0);
      assert s[..1] == "0" && ParseDigits("0") == Some(0);
      assert s[1] == Digit(n);
    } else {
      LeadingZero(n / 10);
      DigitRoundTrip(n % 10);
      assert s[..|s| - 1] == "0" + PrintNat(n / 10);
    }
  }

  /** A string that begins with a digit is read as it is; one that begins with a sign, as what follows. */
  lemma SignedParse(s: string, n: nat)
    requires s != "" && IsDigit(s[0]) && ParseDigits(s) == Some(n)
    ensures ParseI64(s) == if n <= I64_MAX then Some(n) else None
    ensures ParseI64("+" + s) == ParseI64(s)
    ensures ParseI64("-" + s).Some? <==> n <= -I64_MIN
    ensures ParseI64("-" + s).Some? ==> ParseI64("-" + s).value + n == 0
    ensures ParseUsize(s) == ParseUsize("+" + s) == if n < USIZE_LIMIT then Some(n) else None
  {
    hide ParseDigits;
    assert ("+" + s)[1..] == s && ("-" + s)[1..] == s;
  }

  /** Signs, leading zeros and the range: how a number may be written. */
  lemma {:induction false} WaysToWrite(n: nat)
    ensures ParseI64(PrintNat(n)) == if n <= I64_MAX then Some(n) else None
    ensures ParseI64("+" + PrintNat(n)) == ParseI64("0" + PrintNat(n)) == ParseI64(PrintNat(n))
    ensures ParseI64("-" + PrintNat(n)).Some? <==> n <= -I64_MIN
    ensures ParseI64("-" + PrintNat(n)).Some? ==> ParseI64("-" + PrintNat(n)).value + n == 0
    ensures ParseUsize(PrintNat(n)) == if n < USIZE_LIMIT then Some(n) else None
    ensures ParseUsize("+" + PrintNat(n)) == ParseUsize("0" + PrintNat(n)) == ParseUsize(PrintNat(n))
  {
    ParsePrintNat(n);
    LeadingZero(n);
    hide PrintNat, ParseDigits, ParseI64, ParseUsize;
    SignedParse(PrintNat(n), n);
    SignedParse("0" + PrintNat(n), n);
  }

  /** What is not a number: nothing, a lone sign, or anything with a character behind its first that is no digit. */
  lemma {:induction false} NotANumber(s: string)
    requires s in {"", "+", "-"} || (s != "" && exists c :: c in s[1..] && !IsDigit(c))
    ensures ParseI64(s) == None && ParseUsize(s) == None
  {
    OnlyDigitsParse(s);
    if s != "" {
      OnlyDigitsParse(s[1..]);
      assert s == [s[0]] + s[1..];
      if s in {"+", "-"} {
        assert s[1..] == "" && s[0] in s;
      }
    }
    hide ParseDigits;
  }
}

/**
 * Decimal text of a Go `int`: `fmt.Sprint` one way, `strconv.Atoi` the other,
 * for a 64-bit `int`.
 */
module Decimal {
  import opened Base

  const MinInt64: int := -0x8000_0000_0000_0000
  const MaxInt64: int := 0x7fff_ffff_ffff_ffff
  const MaxUint64: int := 0xffff_ffff_ffff_ffff

  predicate IsInt64(n: int)
  {
    MinInt64 <= n <= MaxInt64
  }

  predicate IsDigit(c: char)
  {
    '0' <= c <= '9'
  }

  predicate AllDigits(s: string)
  {
    forall i | 0 <= i < |s| :: IsDigit(s[i])
  }

  function DigitChar(d: nat): char
    requires d < 10
  {
    "0123456789"[d]
  }

  /** Value of a run of decimal digits, most significant first. */
  function DigitsValue(s: string): nat
    requires AllDigits(s)
  {
    if |s| == 0 then 0
    else DigitsValue(s[..|s| - 1]) * 10 + (s[|s| - 1] as int - '0' as int)
  }

  /** Decimal digits of `n` with no leading zero. */
  function FormatNat(n: nat): (s: string)
    ensures |s| >= 1 && AllDigits(s)
  {
    if n < 10 then [DigitChar(n)] else FormatNat(n / 10) + [DigitChar(n % 10)]
  }

  /** `fmt.Sprint(n)` for an `int`: a leading '-' for negative values. */
  function FormatInt(n: int): (s: string)
    ensures |s| >= 1
  {
    if n < 0 then "-" + FormatNat(-n) else FormatNat(n)
  }

  /** `s` without the one leading '+' or '-' that `Atoi` accepts. */
  function Unsigned(s: string): (u: string)
    ensures |s| > 0 && (s[0] == '-' || s[0] == '+') ==> s == [s[0]] + u
    ensures |s| == 0 || (s[0] != '-' && s[0] != '+') ==> u == s
  {
    if |s| > 0 && (s[0] == '-' || s[0] == '+') then s[1..] else s
  }

  /** Length of the longest run of decimal digits that `s` starts with. */
  function LeadingDigits(s: string): (k: nat)
    ensures k <= |s| && AllDigits(s[..k])
    ensures k < |s| ==> !IsDigit(s[k])
  {
    if |s| == 0 || !IsDigit(s[0]) then 0
    else
      var k := LeadingDigits(s[1..]);
      assert s[..k + 1] == [s[0]] + s[1..][..k];
      k + 1
  }

  /**
   * `strconv.Atoi` on a 64-bit platform: an optional '+' or '-', then at
   * least one decimal digit (leading zeros allowed). The digits are read
   * left to right into an unsigned 64-bit value, so once they exceed
   * 2^64 - 1 the result is a range error even if a non-digit follows;
   * otherwise a non-digit is a syntax error, and a signed value outside
   * 64 bits is a range error.
   */
  function Atoi(s: string): (r: Result<int>)
    ensures r.Success? ==> IsInt64(r.value)
    ensures r.Failure? ==> r.error == ErrSyntax || r.error == ErrRange
  {
    if |s| == 0 then Failure(ErrSyntax)
    else
      var digits := Unsigned(s);
      var k := LeadingDigits(digits);
      if k == 0 then Failure(ErrSyntax)
      else if DigitsValue(digits[..k]) > MaxUint64 then Failure(ErrRange)
      else if k < |digits| then Failure(ErrSyntax)
      else
        var v: int := DigitsValue(digits[..k]);
        var n := if s[0] == '-' then -v else v;
        if IsInt64(n) then Success(n) else Failure(ErrRange)
  }

  /** A digit run is worth at least as much as any of its prefixes. */
  lemma {:induction false} DigitsValuePrefix(s: string, i: nat)
    requires AllDigits(s) && i <= |s|
    ensures DigitsValue(s[..i]) <= DigitsValue(s)
    decreases |s|
  {
    if i < |s| {
      var init := s[..|s| - 1];
      DigitsValuePrefix(init, i);
      assert init[..i] == s[..i];
    } else {
      assert s[..i] == s;
    }
  }

  /** Where a digit prefix is followed by a non-digit, the leading run is that prefix. */
  lemma LeadingDigitsAt(s: string, i: nat)
    requires i <= |s| && AllDigits(s[..i]) && (i < |s| ==> !IsDigit(s[i]))
    ensures LeadingDigits(s) == i
  {
    var k := LeadingDigits(s);
    forall j | 0 <= j < i ensures IsDigit(s[j]) {
      assert s[..i][j] == s[j];
    }
    forall j | 0 <= j < k ensures IsDigit(s[j]) {
      assert s[..k][j] == s[j];
    }
  }

  lemma {:induction false} DigitsValueFormatNat(n: nat)
    ensures DigitsValue(FormatNat(n)) == n
  {
    if n >= 10 {
      var s := FormatNat(n);
      DigitsValueFormatNat(n / 10);
      assert s[..|s| - 1] == FormatNat(n / 10);
    }
  }

  /** An unsigned run of digits within range parses to its value. */
  lemma AtoiDigits(d: string)
    requires |d| >= 1 && AllDigits(d) && DigitsValue(d) <= MaxInt64
    ensures Atoi(d) == Success(DigitsValue(d) as int)
  {
    assert IsDigit(d[0]) && Unsigned(d) == d;
    LeadingDigitsAt(d, |d|);
    assert d[..|d|] == d;
  }

  /** A '-' followed by a run of digits within range parses to the negated value. */
  lemma AtoiNegatedDigits(d: string)
    requires |d| >= 1 && AllDigits(d) && DigitsValue(d) <= -MinInt64
    ensures Atoi("-" + d) == Success(-(DigitsValue(d) as int))
  {
    var s := "-" + d;
    assert s[0] == '-' && Unsigned(s) == d;
    LeadingDigitsAt(d, |d|);
    assert d[..|d|] == d;
  }

  /** Parsing the text `fmt.Sprint` writes gives back every 64-bit `int`. */
  lemma AtoiFormatInt(n: int)
    requires IsInt64(n)
    ensures Atoi(FormatInt(n)) == Success(n)
  {
    if n < 0 {
      var d := FormatNat(-n);
      DigitsValueFormatNat(-n);
      AtoiNegatedDigits(d);
      assert FormatInt(n) == "-" + d;
    } else {
      var d := FormatNat(n);
      DigitsValueFormatNat(n);
      AtoiDigits(d);
      assert FormatInt(n) == d;
    }
  }

  /** Empty text, and a sign with nothing after it, are syntax errors. */
  lemma AtoiRejectsMissingDigits(s: string)
    requires |Unsigned(s)| == 0
    ensures Atoi(s) == Failure(ErrSyntax)
  {
  }

  /**
   * After the optional sign, a non-digit at position `i` is a syntax
   * error, provided the digits before it are worth at most 2^64 - 1.
   */
  lemma AtoiRejectsNonDigit(s: string, i: nat)
    requires i < |Unsigned(s)| && !IsDigit(Unsigned(s)[i])
    requires AllDigits(Unsigned(s)[..i]) && DigitsValue(Unsigned(s)[..i]) <= MaxUint64
    ensures Atoi(s) == Failure(ErrSyntax)
  {
    LeadingDigitsAt(Unsigned(s), i);
  }

  /**
   * Digits worth more than 2^64 - 1 are a range error, whatever follows
   * them: the digits are consumed before the rest of the text is looked at.
   */
  lemma AtoiRangeBeforeSyntax(s: string, i: nat)
    requires i <= |Unsigned(s)| && AllDigits(Unsigned(s)[..i]) && DigitsValue(Unsigned(s)[..i]) > MaxUint64
    ensures Atoi(s) == Failure(ErrRange)
  {
    var u := Unsigned(s);
    var k := LeadingDigits(u);
    forall j | 0 <= j < i ensures IsDigit(u[j]) {
      assert u[..i][j] == u[j];
    }
    assert k >= i;
    assert u[..k][..i] == u[..i];
    DigitsValuePrefix(u[..k], i);
  }

  /** Decimal text of a value beyond 64 bits is a range error, not a wrapped value. */
  lemma AtoiRejectsOutOfRange(n: nat)
    requires n > MaxInt64
    ensures Atoi(FormatNat(n)) == Failure(ErrRange)
  {
    var s := FormatNat(n);
    DigitsValueFormatNat(n);
    assert IsDigit(s[0]) && Unsigned(s) == s;
    LeadingDigitsAt(s, |s|);
    assert s[..|s|] == s;
  }

  /** Signs and leading zeros are accepted. */
  lemma AtoiExamples()
    ensures Atoi("42") == Success(42)
    ensures Atoi("+7") == Success(7)
    ensures Atoi("-007") == Success(-7)
  {
    assert "42"[..1] == "4";
    AtoiDigits("42");
    AtoiPlusSeven();
    AtoiMinusSeven();
  }

  lemma AtoiMinusSeven()
    ensures Atoi("-007") == Success(-7)
  {
    assert "007"[..2] == "00" && "00"[..1] == "0";
    AtoiNegatedDigits("007");
    assert "-007" == "-" + "007";
  }

  lemma AtoiPlusSeven()
    ensures Atoi("+7") == Success(7)
  {
    var s := "+7";
    assert s[0] == '+' && s[1..] == "7" && Unsigned(s) == "7";
    LeadingDigitsAt("7", 1);
    assert "7"[..1] == "7";
  }

  /** A bare sign and trailing letters, signed or not, are refused. */
  lemma AtoiSyntaxExamples()
    ensures Atoi("-") == Failure(ErrSyntax)
    ensures Atoi("12a") == Failure(ErrSyntax)
    ensures Atoi("-12a") == Failure(ErrSyntax)
  {
    AtoiRejectsMissingDigits("-");
    assert "12a"[..2] == "12" && "12"[..1] == "1";
    AtoiRejectsNonDigit("12a", 2);
    assert "-12a"[1..] == "12a";
    AtoiRejectsNonDigit("-12a", 2);
  }

  ghost function Pow10(k: nat): nat
  {
    if k == 0 then 1 else 10 * Pow10(k - 1)
  }

  lemma {:induction false} Pow10Add(a: nat, b: nat)
    ensures Pow10(a + b) == Pow10(a) * Pow10(b)
  {
    if a > 0 {
      Pow10Add(a - 1, b);
    }
  }

  /** `k` nines. */
  ghost function Nines(k: nat): (s: string)
    ensures |s| == k && AllDigits(s)
  {
    seq(k, i => '9')
  }

  lemma {:induction false} NinesValue(k: nat)
    ensures DigitsValue(Nines(k)) + 1 == Pow10(k)
  {
    if k > 0 {
      NinesValue(k - 1);
      assert Nines(k)[..k - 1] == Nines(k - 1);
    }
  }

  /** Twenty nines and a letter: the digits overflow 64 bits before the letter is reached. */
  lemma AtoiOverflowBeforeLetter()
    ensures Atoi(Nines(20) + "a") == Failure(ErrRange)
  {
    var s := Nines(20) + "a";
    assert s[0] == '9' && Unsigned(s) == s;
    assert s[..20] == Nines(20);
    NinesValue(20);
    Pow10Add(10, 10);
    Pow10Add(5, 5);
    assert Pow10(5) == 100000;
    AtoiRangeBeforeSyntax(s, 20);
  }
}

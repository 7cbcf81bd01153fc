/**
 * Go's `strconv.ParseInt(s, 10, 64)` and `strconv.FormatInt(n, 10)` (the
 * latter is also what `%d` prints). ParseInt returns a value together with an
 * error: on a syntax error the value is 0, on a range error it is the int64
 * bound of the literal's sign. The unsigned scan stops at the first character
 * that is not a digit or at the first digit that overflows 64 bits, whichever
 * comes first.
 */
module GoStrconv {
  import opened Wrappers
  import opened GoInt

  datatype NumError = ErrSyntax | ErrRange

  /** The `(int64, error)` pair ParseInt returns. */
  datatype ParsedInt = ParsedInt(value: Int64, err: Option<NumError>)

  datatype UintScan = Scanned(n: nat) | ScanSyntax | ScanRange

  predicate IsDigit(c: char)
  {
    '0' <= c <= '9'
  }

  function DigitValue(c: char): (d: nat)
    requires IsDigit(c)
    ensures d < 10
  {
    (c as int) - ('0' as int)
  }

  function DigitChar(d: nat): (c: char)
    requires d < 10
    ensures IsDigit(c) && DigitValue(c) == d
  {
    ('0' as int + d) as char
  }

  predicate AllDigits(s: string)
  {
    forall i :: 0 <= i < |s| ==> IsDigit(s[i])
  }

  function Pow10(k: nat): (p: nat)
    ensures p >= 1
  {
    if k == 0 then 1 else 10 * Pow10(k - 1)
  }

  /** The number a string of decimal digits denotes. */
  function DecimalValue(s: string): nat
    requires AllDigits(s)
  {
    if s == [] then 0 else DigitValue(s[0]) * Pow10(|s| - 1) + DecimalValue(s[1..])
  }

  /** ParseUint's base-10 loop: `acc` is the value of the digits read so far. */
  function ScanUint(s: string, acc: nat): UintScan
    decreases |s|
  {
    if s == [] then Scanned(acc)
    else if !IsDigit(s[0]) then ScanSyntax
    else
      var n := acc * 10 + DigitValue(s[0]);
      if n > MaxUint64 then ScanRange else ScanUint(s[1..], n)
  }

  /** `strconv.ParseUint(s, 10, 64)`, without its value on error. */
  function ParseUint64(s: string): UintScan
  {
    if s == [] then ScanSyntax else ScanUint(s, 0)
  }

  /** The digits of a literal after an optional leading sign. */
  function Unsigned(s: string): string
  {
    if s != [] && (s[0] == '+' || s[0] == '-') then s[1..] else s
  }

  predicate IsNegative(s: string)
  {
    s != [] && s[0] == '-'
  }

  /** `strconv.ParseInt(s, 10, 64)`. */
  function ParseInt64(s: string): ParsedInt
  {
    if s == [] then ParsedInt(0, Some(ErrSyntax))
    else
      var neg := IsNegative(s);
      match ParseUint64(Unsigned(s))
      case ScanSyntax => ParsedInt(0, Some(ErrSyntax))
      case ScanRange =>
        if neg then ParsedInt(MinInt64, Some(ErrRange)) else ParsedInt(MaxInt64, Some(ErrRange))
      case Scanned(n) =>
        if !neg && n > MaxInt64 then ParsedInt(MaxInt64, Some(ErrRange))
        else if neg && n > -MinInt64 then ParsedInt(MinInt64, Some(ErrRange))
        else ParsedInt(if neg then -(n as int) else n, None)
  }

  /** A base-10 int64 literal: an optional sign, at least one digit, nothing else, in range. */
  predicate IsInt64Literal(s: string)
  {
    var d := Unsigned(s);
    && d != []
    && AllDigits(d)
    && MinInt64 <= LiteralValue(s) <= MaxInt64
  }

  /** The signed value of a literal of digits. */
  function LiteralValue(s: string): int
    requires AllDigits(Unsigned(s))
  {
    if IsNegative(s) then -(DecimalValue(Unsigned(s)) as int) else DecimalValue(Unsigned(s))
  }

  /** `strconv.FormatInt(n, 10)` for non-negative `n`. */
  function FormatNat(n: nat): (s: string)
    ensures s != [] && AllDigits(s)
  {
    if n < 10 then [DigitChar(n)] else FormatNat(n / 10) + [DigitChar(n % 10)]
  }

  /** `strconv.FormatInt(n, 10)`, the text `%d` prints. */
  function FormatInt(n: int): (s: string)
  {
    if n < 0 then "-" + FormatNat(-n) else FormatNat(n)
  }

  /** Appending a digit to a number shifts what came before by one decimal place. */
  lemma ShiftDigit(hi: nat, d: nat, p: nat, lo: nat)
    ensures hi * (10 * p) + d * p + lo == (hi * 10 + d) * p + lo
    ensures (hi * p + d) * 10 + lo == hi * (10 * p) + d * 10 + lo
  {
  }

  /** Scanning digits accumulates `acc * 10^|s| + value`, or overflows exactly when that exceeds 64 bits. */
  lemma {:induction false} ScanDigits(s: string, acc: nat)
    requires AllDigits(s) && acc <= MaxUint64
    ensures var total := acc * Pow10(|s|) + DecimalValue(s);
      ScanUint(s, acc) == if total <= MaxUint64 then Scanned(total) else ScanRange
    decreases |s|
  {
    if s != [] {
      var d := DigitValue(s[0]);
      var n := acc * 10 + d;
      var k := |s| - 1;
      var p := Pow10(k);
      var rest := DecimalValue(s[1..]);
      assert Pow10(|s|) == 10 * p;
      assert DecimalValue(s) == d * p + rest;
      ShiftDigit(acc, d, p, rest);
      assert acc * Pow10(|s|) + DecimalValue(s) == n * p + rest;
      assert ScanUint(s, acc) == if n > MaxUint64 then ScanRange else ScanUint(s[1..], n);
      if n > MaxUint64 {
        AtLeastOnce(n, p);
      } else {
        ScanDigits(s[1..], n);
      }
    }
  }

  lemma AtLeastOnce(n: nat, p: nat)
    requires p >= 1
    ensures n * p >= n
  {
  }

  /** A scan that yields a value read only digits. */
  lemma {:induction false} ScannedAreDigits(s: string, acc: nat)
    requires ScanUint(s, acc).Scanned?
    ensures AllDigits(s)
    decreases |s|
  {
    if s != [] {
      ScannedAreDigits(s[1..], acc * 10 + DigitValue(s[0]));
    }
  }

  /** ParseInt succeeds exactly on int64 literals, and then returns their value. */
  lemma ParseInt64Succeeds(s: string)
    ensures ParseInt64(s).err.None? <==> IsInt64Literal(s)
    ensures IsInt64Literal(s) ==> ParseInt64(s).value == LiteralValue(s)
  {
    var d := Unsigned(s);
    if s != [] && d != [] {
      if ScanUint(d, 0).Scanned? {
        ScannedAreDigits(d, 0);
      }
      if AllDigits(d) {
        ScanDigits(d, 0);
      }
    }
  }

  /** Text that is not purely a signed number, such as a name starting with digits, is a syntax error. */
  lemma ParseInt64RejectsNonDigit(s: string, i: nat)
    requires i < |Unsigned(s)| && !IsDigit(Unsigned(s)[i])
    ensures ParseInt64(s).err.Some?
  {
    ParseInt64Succeeds(s);
  }

  /** A digit string too large for int64 is a range error carrying the bound of its sign. */
  lemma ParseInt64Overflow(s: string)
    requires Unsigned(s) != [] && AllDigits(Unsigned(s))
    requires LiteralValue(s) > MaxInt64 || LiteralValue(s) < MinInt64
    ensures ParseInt64(s) == ParsedInt(if IsNegative(s) then MinInt64 else MaxInt64, Some(ErrRange))
  {
    ScanDigits(Unsigned(s), 0);
  }

  /** Once the digits read overflow, the scan stops: whatever follows them is never looked at. */
  lemma {:induction false} ScanRangeIgnoresRest(d: string, rest: string, acc: nat)
    requires AllDigits(d) && ScanUint(d, acc) == ScanRange
    ensures ScanUint(d + rest, acc) == ScanRange
    decreases |d|
  {
    assert d != [];
    assert (d + rest)[0] == d[0] && (d + rest)[1..] == d[1..] + rest;
    var n := acc * 10 + DigitValue(d[0]);
    if n <= MaxUint64 {
      ScanRangeIgnoresRest(d[1..], rest, n);
    }
  }

  /**
   * The scan reports an overflow before it reaches a later non-digit: digits
   * beyond 64 bits followed by anything are a range error with the int64
   * bound of the sign, not a syntax error with 0.
   */
  lemma ParseInt64OverflowBeforeNonDigit(s: string, d: string, rest: string)
    requires Unsigned(s) == d + rest && AllDigits(d) && DecimalValue(d) > MaxUint64
    ensures ParseInt64(s) == ParsedInt(if IsNegative(s) then MinInt64 else MaxInt64, Some(ErrRange))
  {
    ScanDigits(d, 0);
    assert 0 * Pow10(|d|) + DecimalValue(d) == DecimalValue(d);
    ScanRangeIgnoresRest(d, rest, 0);
  }

  lemma {:induction false} DecimalValueSnoc(s: string, c: char)
    requires AllDigits(s) && IsDigit(c)
    ensures AllDigits(s + [c])
    ensures DecimalValue(s + [c]) == DecimalValue(s) * 10 + DigitValue(c)
    decreases |s|
  {
    var t := s + [c];
    if s != [] {
      assert t[1..] == s[1..] + [c];
      DecimalValueSnoc(s[1..], c);
      var k := |s| - 1;
      ShiftDigit(DigitValue(s[0]), DecimalValue(s[1..]), Pow10(k), 0);
    }
  }

  lemma {:induction false} FormatNatValue(n: nat)
    ensures DecimalValue(FormatNat(n)) == n
  {
    if n >= 10 {
      FormatNatValue(n / 10);
      DecimalValueSnoc(FormatNat(n / 10), DigitChar(n % 10));
    }
  }

  /** ParseInt reads back exactly what FormatInt prints. */
  lemma FormatParseRoundTrip(n: Int64)
    ensures ParseInt64(FormatInt(n)) == ParsedInt(n, None)
  {
    var s := FormatInt(n);
    if n < 0 {
      var m: nat := -(n as int);
      FormatNatValue(m);
      assert Unsigned(s) == FormatNat(m);
    } else {
      FormatNatValue(n);
      assert Unsigned(s) == FormatNat(n);
    }
    ParseInt64Succeeds(s);
  }

  /** Distinct counts print differently. */
  lemma FormatNatInjective(a: nat, b: nat)
    requires FormatNat(a) == FormatNat(b)
    ensures a == b
  {
    FormatNatValue(a);
    FormatNatValue(b);
  }
}

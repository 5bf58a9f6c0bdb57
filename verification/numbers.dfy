/** Decimal number parsing as the harness's command-line front ends perform
    it: `std::stoi` / `std::stol` (which throw on bad input) and `atoi`
    (which never fails), all built on the C `strtol` conversion in base 10;
    plus the decimal rendering that they invert. */
module Numbers {
  import opened Common

  /** Characters `isspace` accepts in the "C" locale. */
  predicate IsCSpace(c: char)
  {
    c == ' ' || c == '\t' || c == '\n' || c == '\r' || c == '\U{B}' || c == '\U{C}'
  }

  predicate IsDigit(c: char) { '0' <= c <= '9' }

  function DigitValue(c: char): nat
    requires IsDigit(c)
  {
    (c as int - '0' as int) as nat
  }

  function DigitChar(d: nat): (c: char)
    requires d < 10
    ensures IsDigit(c) && DigitValue(c) == d
  {
    ('0' as int + d) as char
  }

  function SkipCSpace(s: string): (r: string)
    ensures |r| <= |s| && r == s[|s| - |r|..]
    ensures |r| > 0 ==> !IsCSpace(r[0])
  {
    if |s| > 0 && IsCSpace(s[0]) then SkipCSpace(s[1..]) else s
  }

  /** Number of leading decimal digits. */
  function DigitCount(s: string): (n: nat)
    ensures n <= |s|
    ensures forall k :: 0 <= k < n ==> IsDigit(s[k])
    ensures n < |s| ==> !IsDigit(s[n])
  {
    if |s| == 0 || !IsDigit(s[0]) then 0 else 1 + DigitCount(s[1..])
  }

  predicate AllDigits(s: string)
  {
    forall k :: 0 <= k < |s| ==> IsDigit(s[k])
  }

  /** Value of a digit string, most significant digit first. */
  function DigitsValue(ds: string): nat
    requires AllDigits(ds)
  {
    if |ds| == 0 then 0
    else DigitsValue(ds[..|ds| - 1]) * 10 + DigitValue(ds[|ds| - 1])
  }

  /** The exact (unbounded) value `strtol(s, NULL, 10)` reads: optional
      leading white space, an optional sign, then the longest run of digits;
      `None` when no digit follows. */
  function ParseDecimal(s: string): Option<int>
  {
    var t := SkipCSpace(s);
    var neg := |t| > 0 && t[0] == '-';
    var u := if |t| > 0 && (t[0] == '-' || t[0] == '+') then t[1..] else t;
    match LeadingValue(u)
    case None => None
    case Some(v) => Some(if neg then -(v as int) else v as int)
  }

  /** Value of the longest run of leading digits, `None` when there is none. */
  function LeadingValue(u: string): Option<nat>
  {
    var n := DigitCount(u);
    if n == 0 then None else Some(DigitsValue(u[..n]))
  }

  datatype NumError = InvalidArgument | OutOfRange

  /** `std::stol`: throws `invalid_argument` when nothing is read and
      `out_of_range` when the value does not fit a `long`. */
  function Stol(s: string): (r: Result<int, NumError>)
    ensures r.Ok? ==> InLong(r.value) && ParseDecimal(s) == Some(r.value)
    ensures r == Err(InvalidArgument) <==> ParseDecimal(s).None?
  {
    match ParseDecimal(s)
    case None => Err(InvalidArgument)
    case Some(v) => if InLong(v) then Ok(v) else Err(OutOfRange)
  }

  /** `std::stoi`: `strtol` followed by a range check against `int`. */
  function Stoi(s: string): (r: Result<int, NumError>)
    ensures r.Ok? ==> InInt(r.value) && ParseDecimal(s) == Some(r.value)
    ensures r == Err(InvalidArgument) <==> ParseDecimal(s).None?
  {
    match ParseDecimal(s)
    case None => Err(InvalidArgument)
    case Some(v) => if InInt(v) then Ok(v) else Err(OutOfRange)
  }

  /** glibc `atoi`, i.e. `(int) strtol(s, NULL, 10)`: 0 when nothing is read,
      `strtol` saturates at the `long` limits and the cast keeps the low 32
      bits. */
  function Atoi(s: string): (r: int)
    ensures InInt(r)
    ensures ParseDecimal(s).None? ==> r == 0
    ensures ParseDecimal(s).Some? && InInt(ParseDecimal(s).value) ==> r == ParseDecimal(s).value
  {
    var v := match ParseDecimal(s) case None => 0 case Some(x) => x;
    var clamped := if v > LONG_MAX then LONG_MAX else if v < LONG_MIN then LONG_MIN else v;
    var low := clamped % 0x1_0000_0000;
    LowBits(clamped);
    if low > INT_MAX then low - 0x1_0000_0000 else low
  }

  /** The low 32 bits of an `int` value, read as unsigned, are the value
      itself or the value plus 2^32. */
  lemma LowBits(x: int)
    ensures InInt(x) ==> x % 0x1_0000_0000 == (if x >= 0 then x else x + 0x1_0000_0000)
  {
    if InInt(x) {
      ModOfSmall(x, 0x1_0000_0000);
    }
  }

  // ---------------------------------------------------------------------------
  // Decimal rendering, the inverse of the parsers above
  // ---------------------------------------------------------------------------

  function NatDigits(n: nat): (ds: string)
    ensures |ds| > 0 && AllDigits(ds)
  {
    if n < 10 then [DigitChar(n)] else NatDigits(n / 10) + [DigitChar(n % 10)]
  }

  /** Decimal text of an integer, with a leading '-' when negative. */
  function Decimal(v: int): string
  {
    if v < 0 then ['-'] + NatDigits(-v) else NatDigits(v)
  }

  lemma {:induction false} NatDigitsValue(n: nat)
    ensures DigitsValue(NatDigits(n)) == n
  {
    if n >= 10 {
      var ds := NatDigits(n);
      assert ds[..|ds| - 1] == NatDigits(n / 10);
      NatDigitsValue(n / 10);
    }
  }

  lemma DigitCountAll(ds: string)
    requires AllDigits(ds)
    ensures DigitCount(ds) == |ds|
  {
  }

  /** Every integer reads back from its decimal text. */
  lemma ParseDecimalRoundTrip(v: int)
    ensures ParseDecimal(Decimal(v)) == Some(v)
  {
    var m: nat := if v < 0 then -v else v;
    NatDigitsValue(m);
    if v < 0 {
      var ds := NatDigits(m);
      ConsParts('-', ds);
      WholeDigitRun(ds);
      MinusRead(['-'] + ds, m);
    } else {
      ParseUnsigned(NatDigits(m));
    }
  }

  /** A digit string reads as its value. */
  lemma {:induction false} ParseUnsigned(ds: string)
    requires |ds| > 0 && AllDigits(ds)
    ensures ParseDecimal(ds) == Some(DigitsValue(ds) as int)
  {
    assert IsDigit(ds[0]);
    NoLeadingSpace(ds);
    WholeDigitRun(ds);
  }

  /** A minus sign followed by a run of digits reads as the negated value. */
  lemma {:induction false} MinusRead(s: string, v: nat)
    requires |s| > 0 && s[0] == '-' && LeadingValue(s[1..]) == Some(v)
    ensures ParseDecimal(s) == Some(-(v as int))
  {
    NoLeadingSpace(s);
  }

  lemma {:induction false} WholeDigitRun(ds: string)
    requires |ds| > 0 && AllDigits(ds)
    ensures LeadingValue(ds) == Some(DigitsValue(ds))
  {
    DigitCountAll(ds);
    TakeAll(ds);
  }

  lemma NoLeadingSpace(s: string)
    requires |s| > 0 && !IsCSpace(s[0])
    ensures SkipCSpace(s) == s
  {
  }

  /** `std::stol` inverts decimal rendering on the whole `long` range. */
  lemma StolRoundTrip(v: int)
    requires InLong(v)
    ensures Stol(Decimal(v)) == Ok(v)
  {
    ParseDecimalRoundTrip(v);
  }

  /** `std::stoi` inverts decimal rendering on the whole `int` range and
      rejects every other integer. */
  lemma StoiRoundTrip(v: int)
    ensures InInt(v) ==> Stoi(Decimal(v)) == Ok(v)
    ensures !InInt(v) ==> Stoi(Decimal(v)) == Err(OutOfRange)
  {
    ParseDecimalRoundTrip(v);
  }

  /** `atoi` inverts decimal rendering on the `int` range. */
  lemma AtoiRoundTrip(v: int)
    requires InInt(v)
    ensures Atoi(Decimal(v)) == v
  {
    ParseDecimalRoundTrip(v);
  }
}

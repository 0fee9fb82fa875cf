/** The run-time display: a duration in milliseconds broken into hours,
    minutes, seconds and milliseconds by successive truncating division,
    then printed as `HH:MM:SS.mmm` with each field zero-padded (printf
    `%02lld:%02lld:%02lld.%03lld`) into a 32-byte buffer. */
module Duration {

  datatype Option<T> = None | Some(value: T)

  const MillisPerSecond: int := 1000
  const MillisPerMinute: int := 60000
  const MillisPerHour: int := 3600000

  /** The size of the output buffer, including the terminating NUL. */
  const BufferSize: int := 32

  /** Conversion to a coarser unit truncates towards zero. */
  function TruncDiv(a: int, b: int): (q: int)
    requires b > 0
    ensures a >= 0 ==> q >= 0 && 0 <= a - q * b < b
    ensures a <= 0 ==> q <= 0 && -b < a - q * b <= 0
  {
    if a >= 0 then a / b else -((-a) / b)
  }

  datatype Fields = Fields(hours: int, minutes: int, seconds: int, millis: int)

  /** Value of the fields, in milliseconds. */
  function Total(f: Fields): int {
    f.hours * MillisPerHour + f.minutes * MillisPerMinute + f.seconds * MillisPerSecond + f.millis
  }

  /** Fields in range for a non-negative duration. */
  predicate InRange(f: Fields) {
    f.hours >= 0 && 0 <= f.minutes < 60 && 0 <= f.seconds < 60 && 0 <= f.millis < 1000
  }

  /** The successive subtraction of whole hours, whole minutes and whole
      seconds. All fields carry the sign of the duration. */
  function Split(ms: int): (f: Fields)
    ensures Total(f) == ms
    ensures ms >= 0 ==> InRange(f)
    ensures ms <= 0 ==> f.hours <= 0 && -60 < f.minutes <= 0 && -60 < f.seconds <= 0 && -1000 < f.millis <= 0
  {
    var hrs := TruncDiv(ms, MillisPerHour);
    var rest1 := ms - hrs * MillisPerHour;
    var mins := TruncDiv(rest1, MillisPerMinute);
    var rest2 := rest1 - mins * MillisPerMinute;
    var secs := TruncDiv(rest2, MillisPerSecond);
    var rest3 := rest2 - secs * MillisPerSecond;
    Fields(hrs, mins, secs, rest3)
  }

  /** For a non-negative duration the fields are the only in-range ones
      that add up to it. */
  lemma SplitUnique(ms: int, f: Fields)
    requires InRange(f) && Total(f) == ms
    ensures Split(ms) == f
  {
    var g := Split(ms);
    var rf := f.minutes * MillisPerMinute + f.seconds * MillisPerSecond + f.millis;
    var rg := g.minutes * MillisPerMinute + g.seconds * MillisPerSecond + g.millis;
    assert 0 <= rf < MillisPerHour && 0 <= rg < MillisPerHour;
    assert f.hours == g.hours;
    var sf := f.seconds * MillisPerSecond + f.millis;
    var sg := g.seconds * MillisPerSecond + g.millis;
    assert 0 <= sf < MillisPerMinute && 0 <= sg < MillisPerMinute;
    assert f.minutes == g.minutes;
    assert f.seconds == g.seconds;
  }

  // ----- decimal digits ---------------------------------------------------

  predicate IsDigit(c: char) { '0' <= c <= '9' }

  predicate AllDigits(s: string) { forall i :: 0 <= i < |s| ==> IsDigit(s[i]) }

  function DigitChar(d: int): (c: char)
    requires 0 <= d < 10
    ensures IsDigit(c)
  {
    ('0' as int + d) as char
  }

  /** The decimal digits of `n`, without leading zeros. */
  function Decimal(n: nat): (s: string)
    ensures |s| >= 1 && AllDigits(s)
    decreases n
  {
    if n < 10 then [DigitChar(n)] else Decimal(n / 10) + [DigitChar(n % 10)]
  }

  /** The number a string of digits denotes (each character counts as its
      offset from '0', so the value is only meaningful on digits). */
  function DecimalValue(s: string): (v: int)
    ensures AllDigits(s) ==> v >= 0
  {
    if s == [] then 0 else DecimalValue(s[..|s| - 1]) * 10 + (s[|s| - 1] as int - '0' as int)
  }

  function Zeros(k: nat): (s: string)
    ensures |s| == k && AllDigits(s)
  {
    if k == 0 then [] else Zeros(k - 1) + ['0']
  }

  function Pow10(k: nat): nat {
    if k == 0 then 1 else 10 * Pow10(k - 1)
  }

  lemma {:induction false} DecimalValueOfDecimal(n: nat)
    ensures DecimalValue(Decimal(n)) == n
  {
    var s := Decimal(n);
    if n >= 10 {
      DecimalValueOfDecimal(n / 10);
      assert s[..|s| - 1] == Decimal(n / 10);
    }
  }

  lemma {:induction false} LeadingZerosValue(k: nat, s: string)
    requires AllDigits(s)
    ensures DecimalValue(Zeros(k) + s) == DecimalValue(s)
    decreases |s|, k
  {
    if s == [] {
      assert Zeros(k) + s == Zeros(k);
      if k > 0 {
        LeadingZerosValue(k - 1, s);
        assert Zeros(k - 1) + s == Zeros(k - 1);
        assert Zeros(k)[..k - 1] == Zeros(k - 1);
      }
    } else {
      var t := Zeros(k) + s;
      assert t[..|t| - 1] == Zeros(k) + s[..|s| - 1];
      LeadingZerosValue(k, s[..|s| - 1]);
    }
  }

  lemma {:induction false} DecimalLength(n: nat, k: nat)
    requires k >= 1 && n < Pow10(k)
    ensures |Decimal(n)| <= k
  {
    if n >= 10 {
      assert k >= 2;
      DecimalLength(n / 10, k - 1);
    }
  }

  // ----- printf zero padding ----------------------------------------------

  /** Digits of `n`, with zeros in front up to `width` characters. */
  function PadDecimal(n: nat, width: nat): (s: string)
    ensures AllDigits(s)
    ensures |s| == if |Decimal(n)| < width then width else |Decimal(n)|
  {
    var d := Decimal(n);
    if |d| < width then Zeros(width - |d|) + d else d
  }

  lemma PadDecimalValue(n: nat, width: nat)
    ensures DecimalValue(PadDecimal(n, width)) == n
  {
    var d := Decimal(n);
    DecimalValueOfDecimal(n);
    if |d| < width {
      LeadingZerosValue(width - |d|, d);
    }
  }

  function Max(a: int, b: int): int { if a < b then b else a }

  /** printf `%0<width>lld`: the decimal digits of the value, zero-padded to
      at least `width` characters; the field width counts the minus sign,
      and the zeros go between the sign and the digits. */
  function FormatField(n: int, width: nat): (s: string)
    requires width >= 1
    ensures n >= 0 ==> AllDigits(s) && DecimalValue(s) == n && |s| == Max(width, |Decimal(n)|)
    ensures n < 0 ==> |s| >= 2 && s[0] == '-' && AllDigits(s[1..]) && DecimalValue(s[1..]) == -n &&
                      |s| == Max(width, 1 + |Decimal(-n)|)
  {
    if n >= 0 then
      PadDecimalValue(n, width);
      PadDecimal(n, width)
    else
      PadDecimalValue(-n, width - 1);
      var t := PadDecimal(-n, width - 1);
      assert ("-" + t)[1..] == t;
      "-" + t
  }

  function FormatDuration(ms: int): string {
    var f := Split(ms);
    FormatField(f.hours, 2) + ":" + FormatField(f.minutes, 2) + ":" +
    FormatField(f.seconds, 2) + "." + FormatField(f.millis, 3)
  }

  /** One hour, two minutes, three seconds and four milliseconds. */
  lemma FormatExample()
    ensures FormatDuration(3_723_004) == "01:02:03.004"
  {
    assert Split(3_723_004) == Fields(1, 2, 3, 4);
  }

  /** A negative duration gives every non-zero field a minus sign, which
      takes one of the field's places. */
  lemma FormatNegativeExample()
    ensures FormatDuration(-61_001) == "00:-1:-1.-01"
  {
    assert Split(-61_001) == Fields(0, -1, -1, -1);
  }

  // ----- reading the text back --------------------------------------------

  /** The value of the four digit groups of the text: at least two hour
      digits, then exactly two, two and three digits, minutes and seconds
      below 60. */
  function ReadFields(h: string, m: string, sec: string, milli: string): (r: Option<int>)
    ensures r.Some? ==> r.value >= 0
  {
    if |h| >= 2 && |m| == 2 && |sec| == 2 && |milli| == 3 &&
       AllDigits(h) && AllDigits(m) && AllDigits(sec) && AllDigits(milli) &&
       DecimalValue(m) < 60 && DecimalValue(sec) < 60
    then Some(Total(Fields(DecimalValue(h), DecimalValue(m), DecimalValue(sec), DecimalValue(milli))))
    else None
  }

  /** Reads `H...H:MM:SS.mmm`, locating the separators from the right. */
  function ParseDuration(s: string): (r: Option<int>)
    ensures r.Some? ==> r.value >= 0
  {
    if |s| < 12 then None
    else
      var n := |s|;
      if s[n - 10] == ':' && s[n - 7] == ':' && s[n - 4] == '.'
      then ReadFields(s[..n - 10], s[n - 9..n - 7], s[n - 6..n - 4], s[n - 3..])
      else None
  }

  /** A field of a non-negative duration below 10^width prints as exactly
      `width` digits that read back as its value. */
  lemma FixedField(n: nat, width: nat)
    requires width >= 1 && n < Pow10(width)
    ensures |FormatField(n, width)| == width
    ensures AllDigits(FormatField(n, width))
    ensures DecimalValue(FormatField(n, width)) == n
  {
    DecimalLength(n, width);
  }

  /** Where the pieces of `a:b:c.d` sit, counted from the right. */
  lemma Layout(a: string, b: string, c: string, d: string)
    requires |b| == 2 && |c| == 2 && |d| == 3
    ensures var s := a + ":" + b + ":" + c + "." + d;
      var n := |s|;
      n == |a| + 10 && s[..n - 10] == a && s[n - 9..n - 7] == b &&
      s[n - 6..n - 4] == c && s[n - 3..] == d &&
      s[n - 10] == ':' && s[n - 7] == ':' && s[n - 4] == '.'
  {
    var t := ":" + b + ":" + c + "." + d;
    assert |t| == 10 && t[1..3] == b && t[4..6] == c && t[7..] == d;
    var s := a + t;
    assert s == a + ":" + b + ":" + c + "." + d;
    var n := |s|;
    assert s[..n - 10] == a && s[n - 10..] == t;
    assert s[n - 9..n - 7] == t[1..3];
    assert s[n - 6..n - 4] == t[4..6];
    assert s[n - 3..] == t[7..];
  }

  /** The parser splits `a:b:c.d` back into its four pieces, read from the
      right, whatever the length of the hour digits. */
  lemma ParseLayout(a: string, b: string, c: string, d: string)
    requires |a| >= 2 && |b| == 2 && |c| == 2 && |d| == 3
    ensures ParseDuration(a + ":" + b + ":" + c + "." + d) == ReadFields(a, b, c, d)
  {
    Layout(a, b, c, d);
  }

  /** The printed text of a non-negative duration reads back as that
      duration. */
  lemma FormatParseRoundTrip(ms: int)
    requires ms >= 0
    ensures ParseDuration(FormatDuration(ms)) == Some(ms)
  {
    var f := Split(ms);
    assert Pow10(2) == 100 && Pow10(3) == 1000;
    FixedField(f.minutes, 2);
    FixedField(f.seconds, 2);
    FixedField(f.millis, 3);
    var a := FormatField(f.hours, 2);
    assert |a| >= 2 && DecimalValue(a) == f.hours;
    ParseLayout(a, FormatField(f.minutes, 2), FormatField(f.seconds, 2), FormatField(f.millis, 3));
  }

  /** Different non-negative durations print differently. */
  lemma FormatInjective(ms1: int, ms2: int)
    requires ms1 >= 0 && ms2 >= 0
    ensures FormatDuration(ms1) == FormatDuration(ms2) ==> ms1 == ms2
  {
    FormatParseRoundTrip(ms1);
    FormatParseRoundTrip(ms2);
  }

  // ----- the 32-byte buffer -----------------------------------------------

  lemma {:induction false} FieldLength(n: int, width: nat, k: nat)
    requires width >= 1 && k >= 1 && -(Pow10(k) as int) < n < Pow10(k)
    ensures |FormatField(n, width)| <= 1 + (if width < k then k else width)
  {
    if n >= 0 {
      DecimalLength(n, k);
    } else {
      DecimalLength(-n, k);
    }
  }

  /** Every duration a signed 64-bit millisecond count can hold prints in
      at most 31 characters, so the text always fits the buffer with its
      terminating NUL and is never cut short. */
  lemma FormatFitsBuffer(ms: int)
    requires -0x8000_0000_0000_0000 <= ms < 0x8000_0000_0000_0000
    ensures |FormatDuration(ms)| < BufferSize
  {
    var f := Split(ms);
    assert Pow10(2) == 100 && Pow10(3) == 1000;
    assert Pow10(13) == 10_000_000_000_000 by {
      assert Pow10(4) == 10000;
      assert Pow10(8) == 100_000_000;
      assert Pow10(12) == 1_000_000_000_000;
    }
    var rest := f.minutes * MillisPerMinute + f.seconds * MillisPerSecond + f.millis;
    assert ms >= 0 ==> 0 <= rest;
    assert ms <= 0 ==> rest <= 0;
    assert -(Pow10(13) as int) < f.hours < Pow10(13);
    FieldLength(f.hours, 2, 13);
    FieldLength(f.minutes, 2, 2);
    FieldLength(f.seconds, 2, 2);
    FieldLength(f.millis, 3, 3);
  }
}

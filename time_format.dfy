/** The call-duration label: `formatTime` of the PhoneCall component, built from
    JavaScript's integer `toString()` and `padStart`, with a reader that inverts it. */
module TimeFormat {

  datatype Option<T> = None | Some(value: T)

  predicate IsDigit(c: char) { '0' <= c <= '9' }

  predicate AllDigits(s: string) { forall i :: 0 <= i < |s| ==> IsDigit(s[i]) }

  predicate AllZeros(s: string) { forall i :: 0 <= i < |s| ==> s[i] == '0' }

  function DigitValue(c: char): (d: nat)
    requires IsDigit(c)
    ensures d < 10
  {
    c as int - '0' as int
  }

  function DigitChar(d: nat): (c: char)
    requires d < 10
    ensures IsDigit(c) && DigitValue(c) == d
  {
    ('0' as int + d) as char
  }

  /** The value of a string of decimal digits, most significant first; leading
      zeros are allowed and the empty string reads as 0. */
  function ReadDecimal(s: string): nat
    requires AllDigits(s)
    decreases |s|
  {
    if s == [] then 0 else 10 * ReadDecimal(s[..|s| - 1]) + DigitValue(s[|s| - 1])
  }

  /** `n.toString()` for a non-negative integer `n`: its decimal digits, most
      significant first. */
  function Decimal(n: nat): (r: string)
    ensures 1 <= |r| && AllDigits(r)
    decreases n
  {
    if n < 10 then [DigitChar(n)] else Decimal(n / 10) + [DigitChar(n % 10)]
  }

  /** `toString()` is read back as the number, has no leading zero, takes one
      digit below 10 and at most two below 100. */
  lemma {:induction false} DecimalReadsBack(n: nat)
    ensures ReadDecimal(Decimal(n)) == n
    ensures n > 0 ==> Decimal(n)[0] != '0'
    ensures n < 10 ==> |Decimal(n)| == 1
    ensures n < 100 ==> |Decimal(n)| <= 2
    decreases n
  {
    if n >= 10 {
      var prefix := Decimal(n / 10);
      var r := Decimal(n);
      assert r == prefix + [DigitChar(n % 10)];
      assert r[..|r| - 1] == prefix;
      DecimalReadsBack(n / 10);
    }
  }

  /** `s.padStart(width, fill)` for a one-character `fill`: pads on the left up
      to `width` characters and never truncates a longer `s`. */
  function PadStart(s: string, width: nat, fill: char): (r: string)
    ensures |r| == if |s| < width then width else |s|
    ensures r[|r| - |s|..] == s
    ensures forall i :: 0 <= i < |r| - |s| ==> r[i] == fill
  {
    if |s| < width then seq(width - |s|, _ => fill) + s else s
  }

  /** `formatTime(s)`: whole minutes, padded to at least two digits, a colon,
      and the seconds within the minute, padded to two digits. */
  function FormatTime(s: nat): (r: string)
    ensures |r| >= 5 && r[|r| - 3] == ':'
  {
    DecimalReadsBack(s % 60);
    PadStart(Decimal(s / 60), 2, '0') + ":" + PadStart(Decimal(s % 60), 2, '0')
  }

  /** The text before the last three characters of a label. */
  function MinuteField(t: string): string
    requires |t| >= 3
  {
    t[..|t| - 3]
  }

  /** The last two characters of a label. */
  function SecondField(t: string): string
    requires |t| >= 2
  {
    t[|t| - 2..]
  }

  /** Reads an `M…M:SS` label back into a number of seconds: at least two
      minute digits, a colon three characters from the end, and two second
      digits worth less than 60. Anything else is not a time label. */
  function ParseTime(t: string): Option<nat>
  {
    if |t| >= 5 && t[|t| - 3] == ':' && AllDigits(MinuteField(t)) && AllDigits(SecondField(t))
       && ReadDecimal(SecondField(t)) < 60
    then Some(60 * ReadDecimal(MinuteField(t)) + ReadDecimal(SecondField(t)))
    else None
  }

  lemma {:induction false} AllZerosReadZero(z: string)
    requires AllZeros(z)
    ensures AllDigits(z) && ReadDecimal(z) == 0
    decreases |z|
  {
    if z != [] {
      AllZerosReadZero(z[..|z| - 1]);
    }
  }

  /** Left padding with zeros does not change the value read. */
  lemma {:induction false} LeadingZerosIgnored(z: string, s: string)
    requires AllZeros(z) && AllDigits(s)
    ensures AllDigits(z + s) && ReadDecimal(z + s) == ReadDecimal(s)
    decreases |s|
  {
    if s == [] {
      assert z + s == z;
      AllZerosReadZero(z);
    } else {
      var p := s[..|s| - 1];
      assert (z + s)[..|z + s| - 1] == z + p;
      LeadingZerosIgnored(z, p);
    }
  }

  /** Zero-padding a string of digits keeps it all digits and keeps its value. */
  lemma PadZerosKeepsValue(d: string)
    requires AllDigits(d)
    ensures AllDigits(PadStart(d, 2, '0')) && ReadDecimal(PadStart(d, 2, '0')) == ReadDecimal(d)
  {
    var p := PadStart(d, 2, '0');
    var z := p[..|p| - |d|];
    assert p == z + d;
    LeadingZerosIgnored(z, d);
  }

  /** Zero-padding a decimal string keeps it all digits and keeps its value,
      and a field longer than two characters has no leading zero. */
  lemma PadKeepsValue(n: nat)
    ensures var p := PadStart(Decimal(n), 2, '0');
      |p| >= 2 && (n < 100 ==> |p| == 2) && AllDigits(p) && ReadDecimal(p) == n
    ensures var p := PadStart(Decimal(n), 2, '0');
      |p| > 2 ==> p[0] != '0'
  {
    DecimalReadsBack(n);
    PadZerosKeepsValue(Decimal(n));
  }

  /** A label glued from two digit fields: the fields can be cut back out and
      read as they were. */
  lemma CutFields(m: string, sec: string, minutes: nat, seconds: nat)
    requires |m| >= 2 && AllDigits(m) && ReadDecimal(m) == minutes
    requires |sec| == 2 && AllDigits(sec) && ReadDecimal(sec) == seconds
    ensures var r := m + ":" + sec;
      |r| >= 5 && r[|r| - 3] == ':' && MinuteField(r) == m && SecondField(r) == sec
  {
  }

  /** The two fields of `formatTime(s)`: the text before the last three
      characters is at least two digits reading `floor(s/60)` (never
      truncated), with no leading zero once longer than two, a colon follows,
      then exactly two digits reading `s % 60`. Below 100 minutes the label
      has exactly five characters. */
  lemma FormatTimeFields(s: nat)
    ensures |FormatTime(s)| >= 5 && FormatTime(s)[|FormatTime(s)| - 3] == ':'
    ensures AllDigits(MinuteField(FormatTime(s))) && ReadDecimal(MinuteField(FormatTime(s))) == s / 60
    ensures |MinuteField(FormatTime(s))| > 2 ==> MinuteField(FormatTime(s))[0] != '0'
    ensures s < 6000 ==> |FormatTime(s)| == 5
    ensures |SecondField(FormatTime(s))| == 2
    ensures AllDigits(SecondField(FormatTime(s))) && ReadDecimal(SecondField(FormatTime(s))) == s % 60
  {
    var m := PadStart(Decimal(s / 60), 2, '0');
    var sec := PadStart(Decimal(s % 60), 2, '0');
    PadKeepsValue(s / 60);
    PadKeepsValue(s % 60);
    assert FormatTime(s) == m + ":" + sec;
    CutFields(m, sec, s / 60, s % 60);
  }

  /** A label whose two fields read `m` and `sec < 60` parses as `60 * m + sec`. */
  lemma ParseFields(t: string, m: nat, sec: nat)
    requires |t| >= 5 && t[|t| - 3] == ':'
    requires AllDigits(MinuteField(t)) && ReadDecimal(MinuteField(t)) == m
    requires AllDigits(SecondField(t)) && ReadDecimal(SecondField(t)) == sec && sec < 60
    ensures ParseTime(t) == Some(60 * m + sec)
  {
  }

  /** Round trip: reading the label back gives the number of seconds. */
  lemma FormatTimeRoundTrip(s: nat)
    ensures ParseTime(FormatTime(s)) == Some(s)
  {
    var m, sec := s / 60, s % 60;
    assert 60 * m + sec == s;
    FormatTimeFields(s);
    ParseFields(FormatTime(s), m, sec);
  }

  /** Distinct durations get distinct labels. */
  lemma FormatTimeInjective(a: nat, b: nat)
    ensures FormatTime(a) == FormatTime(b) ==> a == b
  {
    FormatTimeRoundTrip(a);
    FormatTimeRoundTrip(b);
  }

  /** An unfolding step for worked values: `FormatTime`'s own definition with
      the decimal strings of its two fields already computed. */
  lemma FormatTimeOf(s: nat, m: string, sec: string)
    requires Decimal(s / 60) == m && Decimal(s % 60) == sec
    ensures FormatTime(s) == PadStart(m, 2, '0') + ":" + PadStart(sec, 2, '0')
  {
  }

  /** Under ten seconds the label is `00:0` and the digit. */
  lemma FormatTimeUnderTen(s: nat)
    requires s < 10
    ensures FormatTime(s) == ['0', '0', ':', '0', DigitChar(s)]
  {
    FormatTimeOf(s, [DigitChar(0)], [DigitChar(s)]);
  }

  /** Worked values: no time, 65 seconds, the last second of the first hour,
      and one hundred minutes, whose minute field grows to three digits. */
  lemma FormatTimeZero()
    ensures FormatTime(0) == "00:00"
  {
    FormatTimeUnderTen(0);
  }

  lemma FormatTimeOneMinuteFive()
    ensures FormatTime(65) == "01:05"
  {
    FormatTimeOf(65, "1", "5");
  }

  lemma DecimalFiftyNine()
    ensures Decimal(59) == "59"
  {
  }

  lemma FormatTimeLastSecondOfHour()
    ensures FormatTime(3599) == "59:59"
  {
    DecimalFiftyNine();
    assert 3599 / 60 == 59 && 3599 % 60 == 59;
    FormatTimeOf(3599, "59", "59");
  }

  lemma DecimalHundred()
    ensures Decimal(100) == "100"
  {
  }

  lemma FormatTimeHundredMinutes()
    ensures FormatTime(6000) == "100:00"
  {
    DecimalHundred();
    FormatTimeOf(6000, "100", "0");
  }
}

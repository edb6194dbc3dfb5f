/** The reader and the writer of RFC 3339 times. A text's bytes
    are its characters here: every byte an accepted time holds is ASCII. */
module TimeText {
  import opened Wrappers
  import opened Calendar
  import opened Times
  import opened Decimals

  // ----- reading

  function ReadDate(s: string): Option<Date>
    requires |s| == 10
  {
    var y :- (if s[4] == '-' && s[7] == '-' then Number(s[..4]) else None);
    var m :- Number(s[5..7]);
    var d :- Number(s[8..]);
    Some(Date(y, m, d))
  }

  datatype Clock = Clock(hour: int, minute: int, second: int)

  function ReadClock(s: string): Option<Clock>
    requires |s| == 8
  {
    var h :- (if s[2] == ':' && s[5] == ':' then Number(s[..2]) else None);
    var m :- Number(s[3..5]);
    var sec :- Number(s[6..]);
    Some(Clock(h, m, sec))
  }

  predicate IsClock(c: Clock) {
    c.hour <= 23 && c.minute <= 59 && c.second <= 59
  }

  /** How many leading characters are digits. */
  function LeadingDigits(s: string): (n: nat)
    ensures n <= |s| && AllDigits(s[..n]) && (n < |s| ==> !IsDigit(s[n]))
  {
    if s == "" || !IsDigit(s[0]) then 0
    else
      var n := LeadingDigits(s[1..]);
      assert s[..1 + n] == [s[0]] + s[1..][..n];
      1 + n
  }

  /** The first `k` of nine digits of nanoseconds, with 0 past the last. */
  function Nanos(fraction: string, digits: nat, k: nat): (n: int)
    requires digits <= |fraction| && AllDigits(fraction[..digits])
    ensures 0 <= n
  {
    if k == 0 then 0
    else Nanos(fraction, digits, k - 1) * 10 + (if k - 1 < digits then DigitValue(fraction[..digits][k - 1]) else 0)
  }

  function ReadFraction(rest: string): (r: Option<(int, string)>)
    ensures r.Some? ==> 0 <= r.value.0
  {
    if rest == "" || rest[0] != '.' then Some((0, rest))
    else
      var fraction := rest[1..];
      var digits := LeadingDigits(fraction);
      if digits == 0 then None else Some((Nanos(fraction, digits, 9), fraction[digits..]))
  }

  function ReadOffset(zone: string): Option<int> {
    if |zone| == 6 && (zone[0] == '+' || zone[0] == '-') && zone[3] == ':' then
      var hours :- Number(zone[1..3]);
      var minutes :- Number(zone[4..]);
      if hours > 23 || minutes > 59 then None
      else
        var offset := hours * 3600 + minutes * 60;
        Some(if zone[0] == '-' then -offset else offset)
    else if zone == "Z" || zone == "z" then Some(0)
    else None
  }

  function SecondsOf(d: Date, c: Clock): int {
    DaysFromCivil(d) * DAY + c.hour * 3600 + c.minute * 60 + c.second
  }

  function Read(text: string): (t: Option<Time>)
  {
    if |text| < 19 || !(text[10] == 'T' || text[10] == 't') then None
    else
      var date :- ReadDate(text[..10]);
      var clock :- ReadClock(text[11..19]);
      var (nanos, zone) :- ReadFraction(text[19..]);
      var offset :- ReadOffset(zone);
      if IsDate(date) && IsClock(clock) then FromUnix(SecondsOf(date, clock) - offset, nanos) else None
  }

  // ----- writing

  /** A fraction of so many digits without its trailing zeros, and the digits
      left. */
  function Strip(fraction: int, width: nat): (r: (int, nat))
    requires 0 < fraction < Pow10(width)
    ensures 0 < r.0 < Pow10(r.1) && r.0 % 10 != 0 && 0 < r.1 <= width
    decreases width
  {
    if fraction % 10 != 0 then (fraction, width) else Strip(fraction / 10, width - 1)
  }

  function FractionText(nanos: int): string
    requires 0 <= nanos < Pow10(9)
  {
    if nanos == 0 then "" else
      var (fraction, width) := Strip(nanos, 9);
      "." + Digits(fraction, width)
  }

  function DateText(d: Date): (s: string)
    requires 0 <= d.year && 0 <= d.month && 0 <= d.day
    ensures |s| == 10
  {
    Digits(d.year, 4) + "-" + Digits(d.month, 2) + "-" + Digits(d.day, 2)
  }

  function ClockText(c: Clock): (s: string)
    requires 0 <= c.hour && 0 <= c.minute && 0 <= c.second
    ensures |s| == 8
  {
    Digits(c.hour, 2) + ":" + Digits(c.minute, 2) + ":" + Digits(c.second, 2)
  }

  function DateOf(t: Instant): Date {
    CivilFromDays(t.secs / DAY)
  }

  function ClockOf(t: Instant): Clock {
    var secs := t.secs % DAY;
    Clock(secs / 3600, secs / 60 % 60, secs % 60)
  }

  /** Date, time of day and fraction, in UTC and as short as they can be. */
  function Print(t: Time): string
  {
    PrintIsWritable(t);
    DateText(DateOf(t)) + "T" + ClockText(ClockOf(t)) + FractionText(t.nanos) + "Z"
  }

  /** The instants held are exactly those dated in years 0000 to 9999. */
  lemma YearsAreExact(secs: int)
    ensures MIN_SECS <= secs <= MAX_SECS <==> 0 <= CivilFromDays(secs / DAY).year <= 9999
  {
    hide DaysFromCivil, CivilFromDays;
    var d := CivilFromDays(secs / DAY);
    var first, last := Date(0, 1, 1), Date(9999, 12, 31);
    DaysRoundTrip(secs / DAY);
    EndsOfTime();
    if Earlier(d, first) {
      CountRises(d, first);
    } else if Earlier(first, d) {
      CountRises(first, d);
    }
    if Earlier(d, last) {
      CountRises(d, last);
    } else if Earlier(last, d) {
      CountRises(last, d);
    }
  }

  lemma EndsOfTime()
    ensures DaysFromCivil(Date(0, 1, 1)) * DAY == MIN_SECS
    ensures DaysFromCivil(Date(9999, 12, 31)) * DAY + DAY - 1 == MAX_SECS
  {
    FirstAndLastDay();
    hide DaysFromCivil;
  }

  lemma FirstAndLastDay()
    ensures DaysFromCivil(Date(0, 1, 1)) == -719_528 && DaysFromCivil(Date(9999, 12, 31)) == 2_932_896
  {
    assert (-1) / 400 == -1 && 399 / 4 == 99 && 399 / 100 == 3 && (153 * 10 + 2) / 5 == 306;
    assert 9999 / 400 == 24 && (153 * 9 + 2) / 5 == 275;
  }

  lemma PrintIsWritable(t: Time)
    ensures 0 <= DateOf(t).year <= 9999 && IsDate(DateOf(t))
    ensures 0 <= ClockOf(t).hour <= 23 && 0 <= ClockOf(t).minute <= 59 && 0 <= ClockOf(t).second <= 59
    ensures t.nanos < Pow10(9)
    ensures SecondsOf(DateOf(t), ClockOf(t)) == t.secs
  {
    hide DaysFromCivil, CivilFromDays, IsDate;
    YearsAreExact(t.secs);
    DaysRoundTrip(t.secs / DAY);
    assert Pow10(9) == 1_000_000_000 by {
      assert Pow10(3) == 1000 && Pow10(6) == 1000 * Pow10(3);
    }
  }

  /** `Display`, as it strips the zeros in a loop. */
  method Display(t: Time) returns (text: string)
    ensures text == Print(t)
  {
    hide DateText, ClockText, Digits, CivilFromDays;
    PrintIsWritable(t);
    var date := CivilFromDays(t.secs / DAY);
    var secs := t.secs % DAY;
    text := DateText(date) + "T" + ClockText(Clock(secs / 3600, secs / 60 % 60, secs % 60));
    if t.nanos != 0 {
      var fraction, width: nat := t.nanos, 9;
      while fraction % 10 == 0
        invariant 0 < fraction < Pow10(width)
        invariant Strip(fraction, width) == Strip(t.nanos, 9)
        decreases width
      {
        fraction := fraction / 10;
        width := width - 1;
      }
      text := text + ("." + Digits(fraction, width));
    }
    text := text + "Z";
  }
}

/** The reader and the writer of times undo each other: the reader takes
    exactly the texts of the RFC 3339 grammar, and a printed time is the one
    canonical text of its instant. */
module TimeLaws {
  import opened Wrappers
  import opened Calendar
  import opened Quotients
  import opened Times
  import opened Decimals
  import opened TimeText

  // ----- trailing zeros

  function Zeros(n: nat): (s: string)
    ensures |s| == n && AllDigits(s)
  {
    seq(n, _ => '0')
  }

  lemma StripStep(n: int, v: int, width: nat)
    requires 0 <= n < Pow10(width) && 0 <= v < 10 && 0 < n * 10 + v < Pow10(width + 1)
    ensures v != 0 ==> Strip(n * 10 + v, width + 1) == (n * 10 + v, width + 1)
    ensures v == 0 ==> Strip(n * 10 + v, width + 1) == Strip(n, width)
  {
    TensAndUnits(n, v, Pow10(width));
  }

  lemma ZeroIsNone(c: char)
    requires IsDigit(c)
    ensures DigitValue(c) == 0 <==> c == '0'
  {
  }

  /** Trailing zeros put a number up by a power of ten; stripping undoes it. */
  lemma {:induction false} StripUndoesZeros(f: string, k: nat)
    requires AllDigits(f) && f != "" && f[|f| - 1] != '0'
    ensures AllDigits(f + Zeros(k))
    ensures 0 < NumberOf(f + Zeros(k)) < Pow10(|f| + k)
    ensures Strip(NumberOf(f + Zeros(k)), |f| + k) == (NumberOf(f), |f|)
    decreases k
  {
    hide IsDigit, DigitValue, Strip, Pow10, NumberOf;
    if k == 0 {
      assert f + Zeros(0) == f;
      var init, last := f[..|f| - 1], f[|f| - 1];
      assert f == init + [last];
      ZeroIsNone(last);
      DigitsOfNumber(f);
      DigitsOfNumber(init);
      NumberOfPush(init, last);
      StripStep(NumberOf(init), DigitValue(last), |init|);
    } else {
      var shorter := f + Zeros(k - 1);
      StripUndoesZeros(f, k - 1);
      assert f + Zeros(k) == shorter + ['0'];
      ZeroIsNone('0');
      NumberOfPush(shorter, '0');
      DigitsOfNumber(shorter + ['0']);
      StripStep(NumberOf(shorter), 0, |shorter|);
    }
  }

  /** And stripped digits, with zeros put back, are the digits there were. */
  lemma {:induction false} ZerosUndoStrip(n: int, width: nat)
    requires 0 < n < Pow10(width)
    ensures
      var (fraction, left) := Strip(n, width);
      Digits(n, width) == Digits(fraction, left) + Zeros(width - left)
    decreases width
  {
    if n % 10 == 0 {
      ZerosUndoStrip(n / 10, width - 1);
      var (fraction, left) := Strip(n, width);
      assert Zeros(width - left) == Zeros(width - 1 - left) + ['0'];
    } else {
      assert Zeros(0) == "";
    }
  }

  // ----- the grammar

  /** `Z` or `z`, or an offset of hours and minutes. */
  datatype Zone = Utc(upper: bool) | Offset(east: bool, hours: int, minutes: int)

  /** What an RFC 3339 `date-time` says, field by field. */
  datatype Written = Written(date: Date, upperT: bool, clock: Clock, fraction: Option<string>, zone: Zone)

  predicate ZoneFits(z: Zone) {
    z.Offset? ==> 0 <= z.hours <= 23 && 0 <= z.minutes <= 59
  }

  predicate ClockFits(c: Clock) {
    0 <= c.hour <= 23 && 0 <= c.minute <= 59 && 0 <= c.second <= 59
  }

  predicate Fits(w: Written) {
    && IsDate(w.date) && 0 <= w.date.year <= 9999 && ClockFits(w.clock)
    && (w.fraction.Some? ==> w.fraction.value != "" && AllDigits(w.fraction.value))
    && ZoneFits(w.zone)
  }

  function DigitOf(n: int): char
    requires 0 <= n <= 9
  {
    ('0' as int + n) as char
  }

  function Two(n: int): string
    requires 0 <= n <= 99
  {
    [DigitOf(n / 10), DigitOf(n % 10)]
  }

  function Four(n: int): string
    requires 0 <= n <= 9999
  {
    Two(n / 100) + Two(n % 100)
  }

  /** The grammar's `full-date`: year, month, day. */
  function FullDate(d: Date): string
    requires IsDate(d) && 0 <= d.year <= 9999
  {
    Four(d.year) + "-" + Two(d.month) + "-" + Two(d.day)
  }

  /** The grammar's `partial-time`, but for its fraction: hour, minute, second. */
  function PartialTime(c: Clock): string
    requires ClockFits(c)
  {
    Two(c.hour) + ":" + Two(c.minute) + ":" + Two(c.second)
  }

  function ZoneText(z: Zone): string
    requires ZoneFits(z)
  {
    match z
    case Utc(upper) => if upper then "Z" else "z"
    case Offset(east, hours, minutes) => OffsetText(if east then '+' else '-', Two(hours), Two(minutes))
  }

  function OffsetText(sign: char, hours: string, minutes: string): string {
    [sign] + hours + ":" + minutes
  }

  function ZoneSeconds(z: Zone): int {
    match z
    case Utc(_) => 0
    case Offset(east, hours, minutes) => (if east then 1 else -1) * (hours * 3600 + minutes * 60)
  }

  function FractionPart(fraction: Option<string>): string {
    if fraction.None? then "" else "." + fraction.value
  }

  /** The fraction in nanoseconds: its first nine digits, with zeros put on. */
  function FractionNanos(fraction: Option<string>): int
    requires fraction.Some? ==> AllDigits(fraction.value)
  {
    if fraction.None? then 0 else NumberOf((fraction.value + Zeros(9))[..9])
  }

  function TextOf(w: Written): string
    requires Fits(w)
  {
    FullDate(w.date) + (if w.upperT then "T" else "t") + PartialTime(w.clock)
    + FractionPart(w.fraction) + ZoneText(w.zone)
  }

  // ----- reading what is written

  lemma SmallPowers()
    ensures Pow10(2) == 100 && Pow10(4) == 10_000
  {
    assert Pow10(4) == 10 * Pow10(3);
  }

  lemma DigitsAreTwo(n: int)
    requires 0 <= n <= 99
    ensures Digits(n, 2) == Two(n)
  {
    assert Digits(n / 10, 1) == Digits(n / 10 / 10, 0) + [DigitChar(n / 10 % 10)];
  }

  lemma DigitsInPairs(n: int, width: nat)
    requires 0 <= n
    ensures Digits(n, width + 2) == Digits(n / 100, width) + Digits(n % 100, 2)
  {
    hide DigitChar;
    Hundreds(n);
    var low := n % 100;
    assert Digits(n, width + 2) == Digits(n / 10, width + 1) + [DigitChar(n % 10)];
    assert Digits(n / 10, width + 1) == Digits(n / 100, width) + [DigitChar(n / 10 % 10)];
    assert Digits(low, 2) == Digits(low / 10, 1) + [DigitChar(low % 10)];
    assert Digits(low / 10, 1) == "" + [DigitChar(low / 10 % 10)];
  }

  lemma Hundreds(n: int)
    requires 0 <= n
    ensures n / 10 / 10 == n / 100 && n / 10 % 10 == n % 100 / 10 % 10 && n % 10 == n % 100 % 10
  {
  }

  lemma DigitsAreFour(n: int)
    requires 0 <= n <= 9999
    ensures Digits(n, 4) == Four(n)
  {
    hide Digits, Two;
    DigitsInPairs(n, 2);
    DigitsAreTwo(n / 100);
    DigitsAreTwo(n % 100);
  }

  lemma DateIsSpelled(d: Date)
    requires IsDate(d) && 0 <= d.year <= 9999
    ensures DateText(d) == FullDate(d)
  {
    hide Digits, Two, Four;
    DigitsAreFour(d.year);
    DigitsAreTwo(d.month);
    DigitsAreTwo(d.day);
  }

  lemma ClockIsSpelled(c: Clock)
    requires ClockFits(c)
    ensures ClockText(c) == PartialTime(c)
  {
    hide Digits, Two;
    DigitsAreTwo(c.hour);
    DigitsAreTwo(c.minute);
    DigitsAreTwo(c.second);
  }

  lemma DateReads(d: Date)
    requires IsDate(d) && 0 <= d.year <= 9999
    ensures ReadDate(DateText(d)) == Some(d)
  {
    hide Digits, Number;
    SmallPowers();
    DigitsRead(d.year, 4);
    DigitsRead(d.month, 2);
    DigitsRead(d.day, 2);
    var s := DateText(d);
    assert s[..4] == Digits(d.year, 4) && s[5..7] == Digits(d.month, 2) && s[8..] == Digits(d.day, 2);
  }

  lemma ClockReads(c: Clock)
    requires ClockFits(c)
    ensures ReadClock(ClockText(c)) == Some(c)
  {
    hide Digits, Number;
    SmallPowers();
    DigitsRead(c.hour, 2);
    DigitsRead(c.minute, 2);
    DigitsRead(c.second, 2);
    var s := ClockText(c);
    assert s[..2] == Digits(c.hour, 2) && s[3..5] == Digits(c.minute, 2) && s[6..] == Digits(c.second, 2);
  }

  lemma OffsetReads(sign: char, hours: string, minutes: string)
    requires (sign == '+' || sign == '-') && |hours| == 2 && |minutes| == 2
    requires Number(hours).Some? && Number(minutes).Some?
    requires Number(hours).value <= 23 && Number(minutes).value <= 59
    ensures
      var offset := Number(hours).value * 3600 + Number(minutes).value * 60;
      ReadOffset(OffsetText(sign, hours, minutes)) == Some(if sign == '-' then -offset else offset)
    ensures OffsetText(sign, hours, minutes) != "" && OffsetText(sign, hours, minutes)[0] == sign
  {
    hide Number;
    var s := OffsetText(sign, hours, minutes);
    assert s[1..3] == hours && s[4..] == minutes;
  }

  lemma ZoneReads(z: Zone)
    requires ZoneFits(z)
    ensures ReadOffset(ZoneText(z)) == Some(ZoneSeconds(z))
    ensures ZoneText(z) != "" && !IsDigit(ZoneText(z)[0]) && ZoneText(z)[0] != '.'
  {
    hide Digits, Number, ReadOffset, AllDigits, OffsetText;
    if z.Offset? {
      SmallPowers();
      DigitsAreTwo(z.hours);
      DigitsAreTwo(z.minutes);
      DigitsRead(z.hours, 2);
      DigitsRead(z.minutes, 2);
      OffsetReads(if z.east then '+' else '-', Digits(z.hours, 2), Digits(z.minutes, 2));
    } else {
      UtcReads();
    }
  }

  lemma UtcReads()
    ensures ReadOffset("Z") == ReadOffset("z") == Some(0)
  {
  }

  lemma {:induction false} LeadingDigitsOf(f: string, rest: string)
    requires AllDigits(f) && (rest != "" ==> !IsDigit(rest[0]))
    ensures LeadingDigits(f + rest) == |f|
    decreases |f|
  {
    if f == "" {
      assert f + rest == rest;
    } else {
      LeadingDigitsOf(f[1..], rest);
      assert (f + rest)[1..] == f[1..] + rest;
    }
  }

  lemma {:induction false} NanosAre(text: string, digits: nat, k: nat)
    requires digits <= |text| && AllDigits(text[..digits]) && k <= 9
    ensures Nanos(text, digits, k) == NumberOf((text[..digits] + Zeros(9))[..k])
    decreases k
  {
    if k == 0 {
    } else {
      NanosAre(text, digits, k - 1);
      var s := (text[..digits] + Zeros(9))[..k];
      assert s[..k - 1] == (text[..digits] + Zeros(9))[..k - 1];
    }
  }

  lemma FractionReads(fraction: Option<string>, rest: string)
    requires fraction.Some? ==> fraction.value != "" && AllDigits(fraction.value)
    requires rest != "" && !IsDigit(rest[0]) && rest[0] != '.'
    ensures ReadFraction(FractionPart(fraction) + rest) == Some((FractionNanos(fraction), rest))
  {
    if fraction.None? {
      assert "" + rest == rest;
    } else {
      var f := fraction.value;
      var text := FractionPart(fraction) + rest;
      assert text[1..] == f + rest;
      LeadingDigitsOf(f, rest);
      NanosAre(f + rest, |f|, 9);
      assert (f + rest)[..|f|] == f;
    }
  }

  /** A text of the grammar reads to the instant it says, when that instant is
      in range in UTC. */
  lemma WrittenReads(w: Written)
    requires Fits(w)
    ensures 0 <= FractionNanos(w.fraction) < 1_000_000_000
    ensures Read(TextOf(w)) ==
            FromUnix(SecondsOf(w.date, w.clock) - ZoneSeconds(w.zone), FractionNanos(w.fraction))
  {
    hide ReadDate, ReadClock, ReadFraction, ReadOffset, SecondsOf, DateText, ClockText, ZoneText, FractionPart,
         DaysInMonth, ZoneSeconds, FractionNanos, FromUnix, FullDate, PartialTime;
    DateIsSpelled(w.date);
    DateReads(w.date);
    ClockIsSpelled(w.clock);
    ClockReads(w.clock);
    ZoneReads(w.zone);
    FractionReads(w.fraction, ZoneText(w.zone));
    FractionInRange(w.fraction);
    var text := TextOf(w);
    assert text[..10] == DateText(w.date) && text[11..19] == ClockText(w.clock);
    assert text[19..] == FractionPart(w.fraction) + ZoneText(w.zone);
  }

  lemma FractionInRange(fraction: Option<string>)
    requires fraction.Some? ==> AllDigits(fraction.value)
    ensures 0 <= FractionNanos(fraction) < 1_000_000_000
  {
    if fraction.Some? {
      DigitsOfNumber((fraction.value + Zeros(9))[..9]);
      NinePowers();
    }
  }

  lemma NinePowers()
    ensures Pow10(9) == 1_000_000_000
  {
    assert Pow10(3) == 1000 && Pow10(6) == 1000 * Pow10(3);
  }

  // ----- and nothing else

  lemma DateIsText(s: string)
    requires |s| == 10 && ReadDate(s).Some?
    ensures
      var d := ReadDate(s).value;
      0 <= d.year <= 9999 && 0 <= d.month && 0 <= d.day && DateText(d) == s
  {
    SmallPowers();
    DigitsOfNumber(s[..4]);
    DigitsOfNumber(s[5..7]);
    DigitsOfNumber(s[8..]);
    assert s == s[..4] + "-" + s[5..7] + "-" + s[8..];
  }

  lemma ClockIsText(s: string)
    requires |s| == 8 && ReadClock(s).Some?
    ensures
      var c := ReadClock(s).value;
      0 <= c.hour && 0 <= c.minute && 0 <= c.second && ClockText(c) == s
  {
    DigitsOfNumber(s[..2]);
    DigitsOfNumber(s[3..5]);
    DigitsOfNumber(s[6..]);
    assert s == s[..2] + ":" + s[3..5] + ":" + s[6..];
  }

  lemma PairIsTwo(s: string)
    requires |s| == 2 && AllDigits(s)
    ensures 0 <= NumberOf(s) <= 99 && Two(NumberOf(s)) == s
  {
    hide NumberOf, Two, Digits, AllDigits;
    DigitsOfNumber(s);
    SmallPowers();
    DigitsAreTwo(NumberOf(s));
  }

  function ZoneIn(zone: string): Zone {
    if |zone| == 6 && AllDigits(zone[1..3]) && AllDigits(zone[4..]) then
      Offset(zone[0] == '+', NumberOf(zone[1..3]), NumberOf(zone[4..]))
    else Utc(zone == "Z")
  }

  lemma ZoneIsText(zone: string)
    requires ReadOffset(zone).Some?
    ensures ZoneFits(ZoneIn(zone)) && ZoneText(ZoneIn(zone)) == zone
    ensures ZoneSeconds(ZoneIn(zone)) == ReadOffset(zone).value
  {
    hide Two, NumberOf, AllDigits;
    if |zone| == 6 {
      PairIsTwo(zone[1..3]);
      PairIsTwo(zone[4..]);
      assert zone == [zone[0]] + zone[1..3] + ":" + zone[4..];
    }
  }

  function FractionIn(rest: string): Option<string> {
    if rest == "" || rest[0] != '.' then None else Some(rest[1..][..LeadingDigits(rest[1..])])
  }

  lemma FractionIsText(rest: string)
    requires ReadFraction(rest).Some?
    ensures
      var f := FractionIn(rest);
      && (f.Some? ==> f.value != "" && AllDigits(f.value))
      && rest == FractionPart(f) + ReadFraction(rest).value.1
      && FractionNanos(f) == ReadFraction(rest).value.0
  {
    if rest != "" && rest[0] == '.' {
      var text := rest[1..];
      var digits := LeadingDigits(text);
      hide LeadingDigits, Nanos, NumberOf;
      NanosAre(text, digits, 9);
      assert text == text[..digits] + text[digits..];
      assert rest == "." + text;
    }
  }

  /** The fields of a text that reads. */
  function WrittenIn(text: string): Written
    requires Read(text).Some?
  {
    Written(
      ReadDate(text[..10]).value, text[10] == 'T', ReadClock(text[11..19]).value,
      FractionIn(text[19..]), ZoneIn(ReadFraction(text[19..]).value.1))
  }

  /** Every text that reads is a text of the grammar, field for field. */
  lemma ReadIsWritten(text: string)
    requires Read(text).Some?
    ensures Fits(WrittenIn(text)) && TextOf(WrittenIn(text)) == text
  {
    hide ReadDate, ReadClock, ReadFraction, ReadOffset, SecondsOf, DateText, ClockText, ZoneText, FractionPart,
         IsDate, ZoneSeconds, FractionNanos, FromUnix, ZoneIn, FractionIn, FullDate, PartialTime;
    DateIsText(text[..10]);
    DateIsSpelled(ReadDate(text[..10]).value);
    ClockIsText(text[11..19]);
    ClockIsSpelled(ReadClock(text[11..19]).value);
    FractionIsText(text[19..]);
    ZoneIsText(ReadFraction(text[19..]).value.1);
    var w := WrittenIn(text);
    assert text == text[..10] + [text[10]] + text[11..19] + text[19..];
    assert [text[10]] == if w.upperT then "T" else "t";
  }

  /** A text reads exactly when it is one of the grammar whose instant is held
      in UTC, and then it reads to that instant. */
  lemma ReadsExactlyTheGrammar(text: string, t: Time)
    ensures Read(text) == Some(t) <==>
            exists w: Written ::
              && Fits(w) && TextOf(w) == text && 0 <= FractionNanos(w.fraction)
              && FromUnix(SecondsOf(w.date, w.clock) - ZoneSeconds(w.zone), FractionNanos(w.fraction)) == Some(t)
  {
    hide Read, TextOf, FromUnix, SecondsOf, ZoneSeconds, IsDate, FractionNanos;
    if Read(text) == Some(t) {
      ReadIsWritten(text);
      WrittenReads(WrittenIn(text));
    }
    forall w: Written | Fits(w) && TextOf(w) == text
      ensures 0 <= FractionNanos(w.fraction)
      ensures Read(text) == FromUnix(SecondsOf(w.date, w.clock) - ZoneSeconds(w.zone), FractionNanos(w.fraction))
    {
      WrittenReads(w);
    }
  }

  // ----- printing

  /** The fields a time is printed from. */
  function WrittenOf(t: Time): Written
  {
    PrintIsWritable(t);
    Written(
      DateOf(t), true, ClockOf(t),
      if t.nanos == 0 then None else var (fraction, width) := Strip(t.nanos, 9); Some(Digits(fraction, width)),
      Utc(true))
  }

  lemma PrintIsText(t: Time)
    ensures Fits(WrittenOf(t)) && Print(t) == TextOf(WrittenOf(t))
    ensures FractionNanos(WrittenOf(t).fraction) == t.nanos
  {
    hide DateOf, ClockOf, IsDate, DateText, ClockText, FullDate, PartialTime;
    PrintIsWritable(t);
    DateIsSpelled(DateOf(t));
    ClockIsSpelled(ClockOf(t));
    if t.nanos != 0 {
      var (fraction, width) := Strip(t.nanos, 9);
      ZerosUndoStrip(t.nanos, 9);
      NumberOfDigits(t.nanos, 9);
      assert (Digits(fraction, width) + Zeros(9))[..9] == Digits(fraction, width) + Zeros(9 - width);
    }
  }

  /** Printing then reading a time gives it back, for every instant held. */
  lemma PrintReads(t: Time)
    ensures Read(Print(t)) == Some(t)
  {
    hide Print, Read, TextOf, Fits, SecondsOf, FractionNanos;
    PrintIsText(t);
    PrintIsWritable(t);
    WrittenReads(WrittenOf(t));
  }

  /** Printing what any accepted text read to gives a text that reads to the
      same instant. */
  lemma ReadPrintReads(text: string)
    requires Read(text).Some?
    ensures Read(Print(Read(text).value)) == Read(text)
  {
    hide Read, Print;
    PrintReads(Read(text).value);
  }

  /** A text in UTC with an upper-case `T` and `Z`, and no more fractional
      digits than it needs: at most nine, the last of them not 0. */
  predicate Canonical(w: Written) {
    && w.upperT && w.zone == Utc(true)
    && (w.fraction.Some? && w.fraction.value != "" ==>
          |w.fraction.value| <= 9 && w.fraction.value[|w.fraction.value| - 1] != '0')
  }

  /** A printed time is canonical. */
  lemma PrintIsCanonical(t: Time)
    ensures Canonical(WrittenOf(t))
  {
    if t.nanos != 0 {
      var (fraction, width) := Strip(t.nanos, 9);
      LastDigit(fraction, width);
    }
  }

  lemma LastDigit(n: int, width: nat)
    requires 0 < n && n % 10 != 0 && width > 0
    ensures Digits(n, width)[width - 1] != '0'
  {
    assert DigitValue('0') == 0;
  }

  /** And it is the only canonical text of its instant: a canonical text that
      reads is what printing what it read gives. */
  lemma CanonicalIsPrinted(w: Written)
    requires Fits(w) && Canonical(w) && Read(TextOf(w)).Some?
    ensures Print(Read(TextOf(w)).value) == TextOf(w)
  {
    hide Print, Read, TextOf, SecondsOf, DateOf, ClockOf, Strip, FractionNanos, IsDate;
    WrittenReads(w);
    var t := Read(TextOf(w)).value;
    PrintIsText(t);
    SecondsGiveBack(w.date, w.clock, t.nanos);
    CanonicalFraction(w.fraction);
    assert WrittenOf(t) == w;
  }

  lemma SecondsGiveBack(d: Date, c: Clock, nanos: int)
    requires IsDate(d) && ClockFits(c)
    ensures
      var t := Instant(SecondsOf(d, c), nanos);
      DateOf(t) == d && ClockOf(t) == c
  {
    hide DaysFromCivil, CivilFromDays, IsDate;
    DateRoundTrip(d);
    var tod := c.hour * 3600 + c.minute * 60 + c.second;
    QuotientIs(SecondsOf(d, c), DAY, DaysFromCivil(d), tod);
    QuotientIs(tod, 60, c.hour * 60 + c.minute, c.second);
    QuotientIs(tod, 3600, c.hour, c.minute * 60 + c.second);
    QuotientIs(c.hour * 60 + c.minute, 60, c.hour, c.minute);
  }

  lemma CanonicalFraction(fraction: Option<string>)
    requires fraction.Some? ==>
               && AllDigits(fraction.value) && 0 < |fraction.value| <= 9
               && fraction.value[|fraction.value| - 1] != '0'
    ensures
      var n := FractionNanos(fraction);
      && (fraction.None? <==> n == 0) && 0 <= n < Pow10(9)
      && (n != 0 ==> Digits(Strip(n, 9).0, Strip(n, 9).1) == fraction.value)
  {
    if fraction.Some? {
      var f := fraction.value;
      StripUndoesZeros(f, 9 - |f|);
      DigitsOfNumber(f);
      assert (f + Zeros(9))[..9] == f + Zeros(9 - |f|);
    }
  }
}

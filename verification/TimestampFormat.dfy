/** When `formatJsonTimestamp` writes the instant it was given, and that it then writes it for good. */
module TimestampFormat {
  import opened Wrappers
  import opened Calendar
  import opened Timestamp

  lemma FourDigits(y: int)
    requires 1000 <= y <= 9999
    ensures Decimal(y) == [DigitChar(y / 1000), DigitChar(y / 100 % 10), DigitChar(y / 10 % 10), DigitChar(y % 10)]
  {
    var a, b, c := y / 10, y / 100, y / 1000;
    assert a / 10 == b && b / 10 == c;
    assert Decimal(c) == [DigitChar(c)];
    assert Decimal(b) == Decimal(c) + [DigitChar(b % 10)];
    assert Decimal(a) == Decimal(b) + [DigitChar(a % 10)];
    assert Decimal(y) == Decimal(a) + [DigitChar(y % 10)];
  }

  lemma {:induction false} DecimalShape(n: int)
    requires n >= 0
    ensures forall k :: 0 <= k < |Decimal(n)| ==> IsDigit(Decimal(n)[k])
    ensures |Decimal(n)| >= 1
    decreases n
  {
    if n >= 10 {
      DecimalShape(n / 10);
    }
  }

  lemma DecimalWidth(n: int)
    requires n >= 0
    ensures n < 1000 ==> |Decimal(n)| <= 3
    ensures n >= 10000 ==> |Decimal(n)| >= 5
  {
    if n < 1000 {
      if n >= 100 {
        assert n / 10 / 10 < 10;
        assert |Decimal(n / 10)| == |Decimal(n / 10 / 10)| + 1;
      }
    }
    if n >= 10000 {
      var a := n / 10;
      var b := a / 10;
      var c := b / 10;
      DecimalShape(c / 10);
      assert |Decimal(c)| == |Decimal(c / 10)| + 1;
      assert |Decimal(b)| == |Decimal(c)| + 1;
      assert |Decimal(a)| == |Decimal(b)| + 1;
    }
  }

  lemma {:induction false} RunIs(s: string, i: nat, n: nat)
    requires i + n <= |s| && forall k :: i <= k < i + n ==> IsDigit(s[k])
    requires i + n < |s| ==> !IsDigit(s[i + n])
    ensures DigitRun(s, i) == n
    decreases n
  {
    if n > 0 {
      RunIs(s, i + 1, n - 1);
    }
  }

  lemma PadMicros(micros: int)
    requires 0 <= micros < 1000000
    ensures Micros(Pad6(micros)) == micros
    ensures forall k :: 0 <= k < 6 ==> IsDigit(Pad6(micros)[k])
  {
    var f := Pad6(micros);
    assert f[0] == DigitChar(micros / 100000) && f[1] == DigitChar(micros / 10000 % 10)
        && f[2] == DigitChar(micros / 1000 % 10);
    assert f[3] == DigitChar(micros / 100 % 10) && f[4] == DigitChar(micros / 10 % 10)
        && f[5] == DigitChar(micros % 10);
    Digits6(micros);
  }

  lemma Digits6(n: int)
    requires 0 <= n < 1000000
    ensures 100000 * (n / 100000) + 10000 * (n / 10000 % 10) + 1000 * (n / 1000 % 10)
            + 100 * (n / 100 % 10) + 10 * (n / 10 % 10) + n % 10 == n
  {
    var a := n / 10;
    var b, c := a / 10, a / 10 / 10;
    var d, e := c / 10, c / 10 / 10;
    assert n / 100 == b && n / 1000 == c && n / 10000 == d && n / 100000 == e;
    assert n == 10 * a + n % 10 && a == 10 * b + a % 10 && b == 10 * c + b % 10 && c == 10 * d + c % 10
        && d == 10 * e + d % 10;
  }

  /** The stamp that a formatted text reads as. */
  function StampOf(p: Parts): Stamp
    requires InRange(p)
  {
    Stamp(p.y, p.mo, p.d, p.h, p.mi, p.s, if p.micros == 0 then "" else Pad6(p.micros), Zulu)
  }

  /** The first nineteen characters, and what follows them. */
  lemma HeadReads(p: Parts, tail: string)
    requires InRange(p) && 1000 <= p.y <= 9999
    ensures var s := Decimal(p.y) + AfterYear(p) + tail;
            |s| == 19 + |tail| && s[19..] == tail && HeadIs(s, p)
  {
    FourDigits(p.y);
    var four := [DigitChar(p.y / 1000), DigitChar(p.y / 100 % 10), DigitChar(p.y / 10 % 10), DigitChar(p.y % 10)];
    var after := AfterYear(p);
    var s := four + after + tail;
    YearDigits(p.y);
    hide Decimal;
    assert forall k :: 0 <= k < 4 ==> s[k] == four[k];
    assert forall k :: 0 <= k < 15 ==> s[4 + k] == after[k];
  }

  lemma YearDigits(y: int)
    requires 1000 <= y <= 9999
    ensures 100 * (10 * (y / 1000) + y / 100 % 10) + 10 * (y / 10 % 10) + y % 10 == y
  {
    var a := y / 10;
    var b := a / 10;
    assert y / 100 == b && y / 1000 == b / 10;
  }

  lemma TrimKeeps(s: string)
    requires s != "" && !IsSpace(s[0]) && !IsSpace(s[|s| - 1])
    ensures Trim(s) == s
  {
  }

  lemma TailOf(micros: int)
    requires 0 < micros < 1000000
    ensures var tail := Fraction(micros) + "Z";
            && |tail| == 8 && tail[0] == '.' && tail[7] == 'Z' && tail[1..7] == Pad6(micros)
            && forall k :: 1 <= k < 7 ==> IsDigit(tail[k])
  {
    PadMicros(micros);
    var f := Pad6(micros);
    var tail := "." + f + "Z";
    assert forall k :: 0 <= k < 6 ==> tail[1 + k] == f[k];
    assert tail[1..7] == f;
  }

  /** The fraction and the zone are read off the end. */
  lemma TailReads(s: string, micros: int)
    requires 0 <= micros < 1000000 && |s| >= 19 && s[19..] == Fraction(micros) + "Z"
    ensures micros == 0 ==> |s| == 20 && s[19] == 'Z' && s[19..] == "Z"
    ensures micros != 0 ==>
              && |s| == 27 && s[19] == '.' && DigitRun(s, 20) == 6
              && s[26] == 'Z' && s[26..] == "Z" && s[20..26] == Pad6(micros)
  {
    var tail := s[19..];
    if micros == 0 {
      assert tail == "Z" && s[19] == tail[0];
    } else {
      TailOf(micros);
      hide Pad6, Fraction;
      assert |s| == 27;
      forall k | 0 <= k < 8 ensures s[19 + k] == tail[k] {
      }
      forall k | 20 <= k < 26 ensures IsDigit(s[k]) {
        assert s[19 + (k - 19)] == tail[k - 19];
      }
      assert s[19 + 0] == tail[0] && s[19 + 7] == tail[7];
      RunIs(s, 20, 6);
      assert s[20..26] == tail[1..7];
      assert s[26..] == "Z";
    }
  }

  predicate HeadIs(s: string, p: Parts) {
    && |s| >= 19
    && DateHead(s) && s[10] == 'T' && Two(s, 11) && s[13] == ':' && Two(s, 14) && s[16] == ':' && Two(s, 17)
    && 100 * TwoAt(s, 0) + TwoAt(s, 2) == p.y && TwoAt(s, 5) == p.mo && TwoAt(s, 8) == p.d
    && TwoAt(s, 11) == p.h && TwoAt(s, 14) == p.mi && TwoAt(s, 17) == p.s
  }

  lemma MatchAssembles(s: string, p: Parts)
    requires InRange(p) && HeadIs(s, p) && s[19..] == Fraction(p.micros) + "Z"
    ensures Match(s) == Some(StampOf(p)) && s[|s| - 1] == 'Z'
  {
    TailReads(s, p.micros);
    hide Fraction, Pad6, DigitRun, DateHead, Two, TwoAt, InRange;
  }

  /** A year of four digits is read back, field by field. */
  lemma FormatMatches(p: Parts)
    requires InRange(p) && 1000 <= p.y <= 9999
    ensures Match(Format(p)) == Some(StampOf(p))
    ensures Micros(StampOf(p).frac) == p.micros
    ensures Trim(Format(p)) == Format(p)
  {
    var tail := Fraction(p.micros) + "Z";
    var s := Format(p);
    assert s == Decimal(p.y) + AfterYear(p) + tail;
    HeadReads(p, tail);
    PadMicros(p.micros);
    hide Decimal, AfterYear, Format, InRange, Fraction, Pad6, Micros, TwoAt, DateHead, Two, Match, Trim;
    MatchAssembles(s, p);
    NoSpaceAtEnds(s);
  }

  lemma NoSpaceAtEnds(s: string)
    requires DateHead(s) && s[|s| - 1] == 'Z'
    ensures Trim(s) == s
  {
    TrimKeeps(s);
  }

  /** Any other year is not: the text is no timestamp any more. */
  lemma WideYearsDoNotMatch(p: Parts)
    requires InRange(p) && !(1000 <= p.y <= 9999)
    ensures Match(Format(p)).None?
  {
    var s := Format(p);
    if p.y < 0 {
      assert s[0] == Decimal(p.y)[0] == '-';
    } else {
      DecimalShape(p.y);
      DecimalWidth(p.y);
      var n := |Decimal(p.y)|;
      if p.y < 1000 {
        assert s[n] == AfterYear(p)[0] == '-';
      } else {
        assert s[4] == Decimal(p.y)[4];
      }
    }
  }

  // ----- the instant

  /** The second a stamp names, its fields taken as they stand. */
  function SecondOf(st: Stamp): int {
    Seconds(MakeDay(st.y, st.mo - 1, st.d), st.h, st.mi - OffsetMin(st.zone), st.s)
  }

  /** The stamp with the year `Date.UTC` takes it for. */
  function AsRead(st: Stamp): Stamp {
    if 0 <= st.y <= 99 then st.(y := 1900 + st.y) else st
  }

  lemma EpochIsTheSecond(st: Stamp)
    ensures EpochMs(st) == MsOf(SecondOf(AsRead(st)), Micros(st.frac))
    ensures Instant(st) == SecondOf(st) * 1000000 + Micros(st.frac)
  {
    hide MakeDay, Micros;
  }

  lemma UtcYearOfSecond(st: Stamp)
    requires 0 <= Micros(st.frac) < 1000000
    ensures UtcYear(Instant(st)) == YearOf(DayOfSecond(SecondOf(st)))
  {
    EpochIsTheSecond(st);
    SameDay(SecondOf(st), Micros(st.frac));
  }

  lemma YearIsBefore(day: int, y: int)
    requires day < DayFromYear(y)
    ensures YearOf(day) < y
  {
    if y < YearOf(day) {
      YearsGrow(y, YearOf(day));
    }
  }

  lemma EarlyDay(y: int, month: int, d: int)
    requires 0 <= y <= 99 && -1 <= month <= 98 && 0 <= d <= 99
    ensures MakeDay(y, month, d) + 20 < DayFromYear(1000)
  {
    var ym := y + month / 12;
    YearsGrow(ym, 108);
    assert MonthStart(ym, month % 12) <= 335;
    assert DayFromYear(108) + 500 < DayFromYear(1000);
  }

  lemma YearIsFrom(day: int, y: int)
    requires DayFromYear(y) <= day
    ensures YearOf(day) >= y
  {
    if YearOf(day) + 1 < y {
      YearsGrow(YearOf(day) + 1, y);
    }
  }

  lemma ModernDay(y: int, month: int, d: int)
    requires 1900 <= y <= 1999 && -1 <= month <= 98 && 0 <= d <= 99
    ensures DayFromYear(1000) + 5 <= MakeDay(y, month, d)
    ensures MakeDay(y, month, d) + 20 < DayFromYear(10000)
  {
    hide DayFromYear, IsLeap;
    var ym := y + month / 12;
    YearsGrow(1000, ym);
    YearsGrow(ym, 2008);
    YearsGrow(2008, 2009);
    YearsGrow(2009, 10000);
    assert 0 <= MonthStart(ym, month % 12) <= 335;
  }

  lemma WithinDays(day: int, h: int, mi: int, s: int)
    requires 0 <= h <= 99 && -6039 <= mi <= 6138 && 0 <= s <= 99
    ensures day - 5 <= DayOfSecond(Seconds(day, h, mi, s)) < day + 20
  {
    assert (day - 5) * 86400 <= Seconds(day, h, mi, s) < (day + 20) * 86400;
  }

  /** A stamp of the first century names a moment long before the year 1000. */
  lemma FirstCenturyIsOld(st: Stamp)
    requires 0 <= st.y <= 99 && 0 <= st.mo <= 99 && 0 <= st.d <= 99 && 0 <= st.h <= 99 && 0 <= st.mi <= 99
        && 0 <= st.s <= 99
    requires -6039 <= OffsetMin(st.zone) <= 6039
    ensures YearOf(DayOfSecond(SecondOf(st))) < 1000
    ensures SecondOf(st) < SecondOf(AsRead(st))
  {
    hide MakeDay, DayFromYear, DayOfSecond, YearOf, OffsetMin;
    EarlyDay(st.y, st.mo - 1, st.d);
    WithinDays(MakeDay(st.y, st.mo - 1, st.d), st.h, st.mi - OffsetMin(st.zone), st.s);
    YearIsBefore(DayOfSecond(SecondOf(st)), 1000);
    MakeDayGrows(st.y, 1900 + st.y, st.mo - 1, st.d);
  }

  /** As the code reads it, it names one of about the twentieth century. */
  lemma FirstCenturyIsReadAsModern(st: Stamp)
    requires 0 <= st.y <= 99 && 0 <= st.mo <= 99 && 0 <= st.d <= 99 && 0 <= st.h <= 99 && 0 <= st.mi <= 99
        && 0 <= st.s <= 99
    requires -6039 <= OffsetMin(st.zone) <= 6039
    ensures 1000 <= YearOf(DayOfSecond(SecondOf(AsRead(st)))) <= 9999
  {
    hide MakeDay, DayFromYear, DayOfSecond, YearOf, OffsetMin;
    var day := MakeDay(1900 + st.y, st.mo - 1, st.d);
    ModernDay(1900 + st.y, st.mo - 1, st.d);
    WithinDays(day, st.h, st.mi - OffsetMin(st.zone), st.s);
    YearIsBefore(DayOfSecond(SecondOf(AsRead(st))), 10000);
    YearIsFrom(DayOfSecond(SecondOf(AsRead(st))), 1000);
  }

  lemma FormatIsOfEpoch(value: string, st: Stamp, dateParse: string -> Option<int>)
    requires Match(Trim(value)) == Some(st)
    ensures 0 <= Micros(st.frac) < 1000000
    ensures InRange(FromEpoch(EpochMs(st), Micros(st.frac)))
    ensures FormatJsonTimestamp(value, dateParse) == Some(Format(FromEpoch(EpochMs(st), Micros(st.frac))))
  {
    MatchedRanges(Trim(value));
    hide Match, Trim, Format, EpochMs, Micros, FromEpoch, OffsetMin;
  }

  /** What `formatJsonTimestamp` writes for a matched text. */
  lemma FormatOf(value: string, st: Stamp, dateParse: string -> Option<int>)
    requires Match(Trim(value)) == Some(st)
    ensures 0 <= Micros(st.frac) < 1000000
    ensures var p := FromEpoch(EpochMs(st), Micros(st.frac));
            && InRange(p)
            && FormatJsonTimestamp(value, dateParse) == Some(Format(p))
            && p.y == YearOf(DayOfSecond(SecondOf(AsRead(st)))) && p.micros == Micros(st.frac)
            && (1000 <= p.y <= 9999 ==>
                  Match(Format(p)) == Some(StampOf(p)) && SecondOf(StampOf(p)) == SecondOf(AsRead(st)))
            && (!(1000 <= p.y <= 9999) ==> Match(Format(p)).None?)
  {
    hide Match, Trim, Micros, Format, FormatJsonTimestamp, SecondOf, EpochMs, MsOf, DayOfSecond, FromEpoch, YearOf,
        InRange;
    FormatIsOfEpoch(value, st, dateParse);
    EpochIsTheSecond(st);
    var p := FromEpoch(EpochMs(st), Micros(st.frac));
    FieldsNameTheSecond(SecondOf(AsRead(st)), Micros(st.frac));
    if 1000 <= p.y <= 9999 {
      FormatMatches(p);
      SecondOfStamp(p);
    } else {
      WideYearsDoNotMatch(p);
    }
  }

  lemma SecondOfStamp(p: Parts)
    requires InRange(p)
    ensures SecondOf(StampOf(p)) == Seconds(MakeDay(p.y, p.mo - 1, p.d), p.h, p.mi, p.s)
  {
  }

  /**
   The text written is a timestamp of the same instant, to the microsecond,
   exactly when the instant's UTC year has four digits.
   */
  lemma FormatKeepsTheInstant(value: string, st: Stamp, dateParse: string -> Option<int>)
    requires Match(Trim(value)) == Some(st)
    ensures FormatJsonTimestamp(value, dateParse).Some?
    ensures var out := FormatJsonTimestamp(value, dateParse).value;
            Match(out).Some? && Instant(Match(out).value) == Instant(st) <==> 1000 <= UtcYear(Instant(st)) <= 9999
  {
    hide Match, Trim, Micros, Format, FormatJsonTimestamp, SecondOf, EpochMs, MsOf, DayOfSecond, FromEpoch, YearOf,
        InRange,
         Instant, UtcYear, OffsetMin, StampOf;
    MatchedRanges(Trim(value));
    FormatOf(value, st, dateParse);
    var p := FromEpoch(EpochMs(st), Micros(st.frac));
    UtcYearOfSecond(st);
    EpochIsTheSecond(st);
    if 0 <= st.y <= 99 {
      FirstCenturyIsOld(st);
    }
    if 1000 <= p.y <= 9999 {
      EpochIsTheSecond(StampOf(p));
      FormatMatches(p);
    }
  }

  /**
   What is written is a timestamp again exactly when the second it was read as
   has a UTC year of four digits, and then formatting it once more changes nothing.
   */
  lemma FormatIsIdempotent(value: string, st: Stamp, dateParse: string -> Option<int>)
    requires Match(Trim(value)) == Some(st)
    ensures FormatJsonTimestamp(value, dateParse).Some?
    ensures var out, year := FormatJsonTimestamp(value, dateParse).value, UtcYear(Instant(AsRead(st)));
            && (Match(out).Some? <==> 1000 <= year <= 9999)
            && (1000 <= year <= 9999 ==> FormatJsonTimestamp(out, dateParse) == Some(out))
  {
    hide Match, Trim, Micros, Format, FormatJsonTimestamp, SecondOf, EpochMs, MsOf, DayOfSecond, FromEpoch, YearOf,
        InRange, Instant, UtcYear, OffsetMin, StampOf;
    FormatOf(value, st, dateParse);
    UtcYearOfSecond(AsRead(st));
    var p := FromEpoch(EpochMs(st), Micros(st.frac));
    if 1000 <= p.y <= 9999 {
      FormatAgain(p, dateParse);
    }
  }

  lemma FormatAgain(p: Parts, dateParse: string -> Option<int>)
    requires InRange(p) && 1000 <= p.y <= 9999
    ensures FormatJsonTimestamp(Format(p), dateParse) == Some(Format(p))
  {
    FormatMatches(p);
    EpochIsTheSecond(StampOf(p));
    SecondOfStamp(p);
    SecondHasItsFields(p);
    hide Match, Micros, Format, SecondOf, EpochMs, MsOf, FromEpoch, MakeDay, Seconds;
    assert AsRead(StampOf(p)) == StampOf(p);
  }

  /** What is written for a timestamp of the first century is what would be written for the same one in the 1900s. */
  lemma FirstCenturyIsWritten(value: string, st: Stamp, dateParse: string -> Option<int>)
    requires Match(Trim(value)) == Some(st) && 0 <= st.y <= 99
    ensures FormatJsonTimestamp(value, dateParse).Some?
    ensures var out := FormatJsonTimestamp(value, dateParse).value;
            Match(out).Some? && Instant(Match(out).value) == Instant(AsRead(st))
  {
    hide *;
    MatchedRanges(Trim(value));
    FormatOf(value, st, dateParse);
    FirstCenturyIsReadAsModern(st);
    var p := FromEpoch(EpochMs(st), Micros(st.frac));
    SameFraction(st);
    EpochIsTheSecond(AsRead(st));
    EpochIsTheSecond(StampOf(p));
    FormatMatches(p);
  }

  lemma SameFraction(st: Stamp)
    ensures AsRead(st).frac == st.frac
  {
  }

  lemma ReadAs1900(st: Stamp)
    requires 0 <= st.y <= 99
    ensures AsRead(st) == st.(y := 1900 + st.y)
  {
  }

  /** The first century is read as the twentieth: year 50 comes out as 1950. */
  lemma FirstCenturyMoves(value: string, st: Stamp, dateParse: string -> Option<int>)
    requires Match(Trim(value)) == Some(st) && 0 <= st.y <= 99
    ensures FormatJsonTimestamp(value, dateParse).Some?
    ensures var out := FormatJsonTimestamp(value, dateParse).value;
            && Match(out).Some? && Instant(Match(out).value) == Instant(st.(y := 1900 + st.y))
            && Instant(Match(out).value) > Instant(st)
  {
    ReadAs1900(st);
    hide *;
    MatchedRanges(Trim(value));
    FirstCenturyIsWritten(value, st, dateParse);
    FirstCenturyIsOld(st);
    EpochIsTheSecond(st);
    EpochIsTheSecond(AsRead(st));
  }
}

/** `parseTimeField`: which texts of a request body are times, and what they are turned into. */
module TimeField {
  import opened Wrappers
  import opened Calendar
  import opened Timestamp
  import opened TimestampFormat

  /** The groups of the expression; absent hours, minutes and seconds are "00", an absent zone "Z". */
  datatype Field = Field(date: string, h: string, mi: string, s: string, frac: string, zone: string)

  /** (Z|[+-]\d{2}:?\d{2})? in either case */
  predicate ZoneText(z: string) {
    || z == "" || z == "Z" || z == "z"
    || (|z| == 5 && (z[0] == '+' || z[0] == '-') && Two(z, 1) && Two(z, 3))
    || (|z| == 6 && (z[0] == '+' || z[0] == '-') && Two(z, 1) && z[3] == ':' && Two(z, 4))
  }

  predicate HasTime(v: string) {
    |v| >= 16 && (v[10] == 'T' || v[10] == 't' || v[10] == ' ') && Two(v, 11) && v[13] == ':' && Two(v, 14)
  }

  predicate HasSeconds(v: string) {
    HasTime(v) && |v| >= 19 && v[16] == ':' && Two(v, 17)
  }

  /** How many digits the fraction has, 0 without one. */
  function FractionLength(v: string): nat {
    if HasSeconds(v) && |v| > 19 && v[19] == '.' && DigitRun(v, 20) <= 6 then DigitRun(v, 20) else 0
  }

  function ZoneStart(v: string): nat
    requires |v| >= 10
  {
    if FractionLength(v) > 0 then 20 + FractionLength(v)
    else if HasSeconds(v) then 19
    else if HasTime(v) then 16
    else 10
  }

  function MatchField(v: string): Option<Field> {
    if !DateHead(v) || !ZoneText(v[ZoneStart(v)..]) then None
    else
      var zone := v[ZoneStart(v)..];
      Some(Field(v[..10],
                 if HasTime(v) then v[11..13] else "00",
                 if HasTime(v) then v[14..16] else "00",
                 if HasSeconds(v) then v[17..19] else "00",
                 if FractionLength(v) > 0 then v[20..20 + FractionLength(v)] else "",
                 if zone == "" then "Z" else zone))
  }

  predicate Pair(t: string) {
    |t| == 2 && Two(t, 0)
  }

  predicate WellFormed(f: Field) {
    && |f.date| == 10 && DateHead(f.date)
    && Pair(f.h) && Pair(f.mi) && Pair(f.s)
    && |f.frac| <= 6 && (forall k :: 0 <= k < |f.frac| ==> IsDigit(f.frac[k]))
    && f.zone != "" && ZoneText(f.zone)
  }

  function Year(f: Field): int
    requires WellFormed(f)
  {
    100 * TwoAt(f.date, 0) + TwoAt(f.date, 2)
  }

  function Month(f: Field): int
    requires WellFormed(f)
  {
    TwoAt(f.date, 5)
  }

  function DayOfMonth(f: Field): int
    requires WellFormed(f)
  {
    TwoAt(f.date, 8)
  }

  predicate RollsBack(y: int, mo: int, d: int) {
    var day := Day(DateUtc(y, mo - 1, d, 0, 0, 0, 0));
    YearOf(day) == y && MonthOf(day) - 1 == mo - 1 && DateOf(day) == d
  }

  /** The check by roll-over: the date handed to `Date.UTC` must come back from it. */
  predicate Accepted(f: Field)
    requires WellFormed(f)
  {
    && RollsBack(Year(f), Month(f), DayOfMonth(f))
    && TwoAt(f.h, 0) < 24 && TwoAt(f.mi, 0) < 60 && TwoAt(f.s, 0) < 60
  }

  function UpperZone(zone: string): string {
    if zone == "z" then "Z" else zone
  }

  /** The text handed to `formatJsonTimestamp` */
  function Rebuilt(f: Field): string
    requires WellFormed(f)
  {
    f.date + ['T', f.h[0], f.h[1], ':', f.mi[0], f.mi[1], ':', f.s[0], f.s[1]]
    + (if f.frac == "" then "" else "." + f.frac) + UpperZone(f.zone)
  }

  lemma MatchedIsWellFormed(v: string)
    requires MatchField(v).Some?
    ensures WellFormed(MatchField(v).value)
  {
    var n := FractionLength(v);
    if n > 0 {
      var frac := v[20..20 + n];
      assert forall k :: 0 <= k < n ==> frac[k] == v[20 + k];
    }
  }

  /** None is the field error. */
  function ParseTimeField(v: string, dateParse: string -> Option<int>): Option<string> {
    match MatchField(v)
    case None => None
    case Some(f) =>
      MatchedIsWellFormed(v);
      if Accepted(f) then FormatJsonTimestamp(Rebuilt(f), dateParse) else None
  }

  // ----- the roll-over check

  /** It is the Gregorian calendar, from the year 100 on; earlier years are always refused. */
  lemma RollsBackIsTheCalendar(y: int, mo: int, d: int)
    requires 0 <= y && 0 <= mo && 0 <= d
    ensures RollsBack(y, mo, d) <==> y >= 100 && IsDate(y, mo, d)
  {
    var shifted := if y <= 99 then 1900 + y else y;
    var day := MakeDay(shifted, mo - 1, d);
    assert DateUtc(y, mo - 1, d, 0, 0, 0, 0) == day * DAY_MS;
    hide MakeDay, DateUtc, IsDate, MonthOf, DateOf, YearOf;
    DayOfMidnight(day);
    RollOverIsTheCalendar(y, mo, d);
    if y <= 99 {
      LateYear(shifted, mo - 1, d);
    }
  }

  lemma AcceptedIsTheCalendar(f: Field)
    requires WellFormed(f)
    ensures Accepted(f) <==>
              && Year(f) >= 100 && IsDate(Year(f), Month(f), DayOfMonth(f))
              && TwoAt(f.h, 0) < 24 && TwoAt(f.mi, 0) < 60 && TwoAt(f.s, 0) < 60
  {
    assert Year(f) >= 0 && Month(f) >= 0 && DayOfMonth(f) >= 0;
    hide RollsBack, IsDate;
    RollsBackIsTheCalendar(Year(f), Month(f), DayOfMonth(f));
  }

  lemma DayOfMidnight(day: int)
    ensures Day(day * DAY_MS) == day
  {
  }

  lemma LateYear(y: int, month: int, d: int)
    requires y >= 1900 && -1 <= month && 0 <= d
    ensures YearOf(MakeDay(y, month, d)) >= 1000
  {
    var ym := y + month / 12;
    YearsGrow(1001, ym);
    YearSteps(1001);
    YearSteps(1000);
    assert MonthStart(ym, month % 12) >= 0;
    var day := MakeDay(y, month, d);
    assert day >= DayFromYear(1001);
    if YearOf(day) < 1000 {
      YearsGrow(YearOf(day) + 1, 1001);
    }
  }

  // ----- the rebuilt text

  function StampOfField(f: Field): Stamp
    requires WellFormed(f)
  {
    Stamp(Year(f), Month(f), DayOfMonth(f), TwoAt(f.h, 0), TwoAt(f.mi, 0), TwoAt(f.s, 0), f.frac, ZoneOf(f.zone))
  }

  function ZoneOf(zone: string): Zone
    requires zone != "" && ZoneText(zone)
  {
    if zone == "Z" || zone == "z" then Zulu
    else if |zone| == 5 then Offset(zone[0] == '-', TwoAt(zone, 1), TwoAt(zone, 3))
    else Offset(zone[0] == '-', TwoAt(zone, 1), TwoAt(zone, 4))
  }

  lemma UpperZoneMatches(zone: string)
    requires zone != "" && ZoneText(zone)
    ensures MatchZone(UpperZone(zone)) == Some(ZoneOf(zone))
    ensures var z := UpperZone(zone); z != "" && !IsDigit(z[0]) && z[0] != '.' && !IsSpace(z[|z| - 1])
  {
  }

  lemma RebuiltHead(f: Field, tail: string)
    requires WellFormed(f)
    ensures var s := f.date + ['T', f.h[0], f.h[1], ':', f.mi[0], f.mi[1], ':', f.s[0], f.s[1]] + tail;
            && |s| == 19 + |tail| && s[19..] == tail
            && HeadIs(s, Parts(Year(f), Month(f), DayOfMonth(f), TwoAt(f.h, 0), TwoAt(f.mi, 0), TwoAt(f.s, 0), 0))
  {
    var clock := ['T', f.h[0], f.h[1], ':', f.mi[0], f.mi[1], ':', f.s[0], f.s[1]];
    var s := f.date + clock + tail;
    assert forall k :: 0 <= k < 10 ==> s[k] == f.date[k];
    assert forall k :: 0 <= k < 9 ==> s[10 + k] == clock[k];
  }

  lemma RebuiltTail(s: string, frac: string, zone: string)
    requires |s| >= 19 && s[19..] == (if frac == "" then "" else "." + frac) + zone
    requires forall k :: 0 <= k < |frac| ==> IsDigit(frac[k])
    requires zone != "" && !IsDigit(zone[0]) && zone[0] != '.'
    ensures |s| > 19 && s[|s| - 1] == zone[|zone| - 1]
    ensures frac == "" ==> s[19] != '.' && s[19..] == zone
    ensures frac != "" ==>
              && s[19] == '.' && DigitRun(s, 20) == |frac|
              && s[20..20 + |frac|] == frac && s[20 + |frac|..] == zone
  {
    var tail := s[19..];
    assert s[|s| - 1] == tail[|tail| - 1];
    if frac == "" {
      assert tail == zone && s[19] == tail[0];
    } else {
      assert tail == ['.'] + frac + zone;
      assert s[19] == tail[0] && forall k :: 0 <= k < |frac| ==> s[20 + k] == tail[1 + k] == frac[k];
      forall k | 20 <= k < 20 + |frac| ensures IsDigit(s[k]) {
        assert s[20 + (k - 20)] == frac[k - 20];
      }
      assert s[20 + |frac|] == tail[1 + |frac|] == zone[0];
      RunIs(s, 20, |frac|);
      assert s[20..20 + |frac|] == frac;
      assert s[20 + |frac|..] == zone;
    }
  }

  lemma MatchFromParts(s: string, f: Field)
    requires WellFormed(f)
    requires HeadIs(s, Parts(Year(f), Month(f), DayOfMonth(f), TwoAt(f.h, 0), TwoAt(f.mi, 0), TwoAt(f.s, 0), 0))
    requires s[19..] == (if f.frac == "" then "" else "." + f.frac) + UpperZone(f.zone)
    ensures Match(s) == Some(StampOfField(f)) && !IsSpace(s[|s| - 1])
  {
    UpperZoneMatches(f.zone);
    RebuiltTail(s, f.frac, UpperZone(f.zone));
    hide UpperZone, IsSpace, ZoneText, ZoneOf, DigitRun, TwoAt, Two, DateHead, MatchZone;
  }

  /** `parseUtc` takes the rebuilt text by its expression, never by `new Date`, and reads the same fields. */
  lemma RebuiltMatches(f: Field)
    requires WellFormed(f)
    ensures Trim(Rebuilt(f)) == Rebuilt(f) && Match(Rebuilt(f)) == Some(StampOfField(f))
  {
    var tail := (if f.frac == "" then "" else "." + f.frac) + UpperZone(f.zone);
    var s := Rebuilt(f);
    assert s == f.date + ['T', f.h[0], f.h[1], ':', f.mi[0], f.mi[1], ':', f.s[0], f.s[1]] + tail;
    hide Rebuilt, UpperZone, Trim, Match, DateHead, WellFormed;
    RebuiltHead(f, tail);
    MatchFromParts(s, f);
    StartsWithDigit(s);
    TrimKeeps(s);
  }

  lemma StartsWithDigit(s: string)
    requires DateHead(s)
    ensures s != "" && !IsSpace(s[0])
  {
  }

  /**
   A body text is taken exactly when it has the shape, its date is a day of
   the Gregorian calendar from the year 100 on and its clock a time of day; it
   is then written as a timestamp of the same instant exactly when that
   instant's UTC year has four digits.
   */
  lemma TimeFieldIsTheCalendar(v: string, dateParse: string -> Option<int>)
    ensures MatchField(v).None? ==> ParseTimeField(v, dateParse).None?
    ensures MatchField(v).Some? ==> WellFormed(MatchField(v).value)
    ensures MatchField(v).Some? ==>
              var f := MatchField(v).value;
              var st := StampOfField(f);
              && (ParseTimeField(v, dateParse).Some? <==>
                    Year(f) >= 100 && IsDate(st.y, st.mo, st.d) && st.h < 24 && st.mi < 60 && st.s < 60)
              && (ParseTimeField(v, dateParse).Some? ==>
                    var out := ParseTimeField(v, dateParse).value;
                    (Match(out).Some? && Instant(Match(out).value) == Instant(st))
                    <==> 1000 <= UtcYear(Instant(st)) <= 9999)
  {
    hide MatchField, WellFormed, Accepted, Match, Trim, Instant, UtcYear, FormatJsonTimestamp, Rebuilt, IsDate;
    if MatchField(v).Some? {
      MatchedIsWellFormed(v);
      var f := MatchField(v).value;
      AcceptedIsTheCalendar(f);
      RebuiltMatches(f);
      FormatKeepsTheInstant(Rebuilt(f), StampOfField(f), dateParse);
    }
  }
}

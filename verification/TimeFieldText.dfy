/** The texts a request body can give for a time, and what is made of them. */
module TimeFieldText {
  import opened Wrappers
  import opened Calendar
  import opened Timestamp
  import opened TimestampFormat
  import opened TimestampText
  import Sequences
  import TimeField

  datatype Clock =
    | Midnight
    | Minutes(sep: char, h: int, mi: int)
    | Seconds(sep: char, h: int, mi: int, s: int)
    | Fraction(sep: char, h: int, mi: int, s: int, frac: string)
  {
    predicate Valid() {
      && (!Midnight? ==> (sep == 'T' || sep == 't' || sep == ' ') && 0 <= h <= 99 && 0 <= mi <= 99)
      && (Seconds? || Fraction? ==> 0 <= s <= 99)
      && (Fraction? ==> 1 <= |frac| <= 6 && forall k :: 0 <= k < |frac| ==> '0' <= frac[k] <= '9')
    }

    function Text(): string
      requires Valid()
    {
      match this
      case Midnight => ""
      case Minutes(sep, h, mi) => [sep] + Pad2(h) + ":" + Pad2(mi)
      case Seconds(sep, h, mi, s) => [sep] + Pad2(h) + ":" + Pad2(mi) + ":" + Pad2(s)
      case Fraction(sep, h, mi, s, frac) => [sep] + Pad2(h) + ":" + Pad2(mi) + ":" + Pad2(s) + "." + frac
    }

    function Hour(): int {
      if Midnight? then 0 else h
    }

    function Minute(): int {
      if Midnight? then 0 else mi
    }

    function Second(): int {
      if Seconds? || Fraction? then s else 0
    }

    function Part(): string {
      if Fraction? then frac else ""
    }
  }

  /** A date, perhaps a clock, perhaps a zone, which may be written "z". */
  datatype FieldText = FieldText(y: int, mo: int, d: int, clock: Clock, zone: ZoneText, lower: bool)
  {
    predicate Valid() {
      && 0 <= y <= 9999 && 0 <= mo <= 99 && 0 <= d <= 99 && clock.Valid() && zone.Valid() && !zone.Hours?
      && (lower ==> zone.Zee?)
    }

    function Date(): (t: string)
      requires Valid()
      ensures |t| == 10
    {
      Pad4(y) + "-" + Pad2(mo) + "-" + Pad2(d)
    }

    function Zone(): string
      requires Valid()
    {
      if lower then "z" else zone.Text()
    }

    function Text(): string
      requires Valid()
    {
      Date() + (clock.Text() + Zone())
    }

    /** The timestamp it stands for: what is not written is zero, and the zone UTC. */
    function Stamp(): Written
      requires Valid()
    {
      Written(y, mo, d, 'T', clock.Hour(), clock.Minute(), clock.Second(), clock.Part(),
              if zone.NoZone? then Zee else zone)
    }
  }

  /** What the expression takes out of the text. */
  function Taken(f: FieldText): TimeField.Field
    requires f.Valid()
  {
    TimeField.Field(f.Date(), Pad2(f.clock.Hour()), Pad2(f.clock.Minute()), Pad2(f.clock.Second()), f.clock.Part(),
                    if f.Zone() == "" then "Z" else f.Zone())
  }

  lemma DateIsRead(f: FieldText, v: string)
    requires f.Valid() && |v| >= 10 && v[..10] == f.Date()
    ensures DateHead(v) && 100 * TwoAt(v, 0) + TwoAt(v, 2) == f.y && TwoAt(v, 5) == f.mo && TwoAt(v, 8) == f.d
  {
    var t := f.Date();
    assert forall k :: 0 <= k < 10 ==> v[k] == t[k];
    hide Pad2;
    TwoOfPad(v, 0, f.y / 100);
    TwoOfPad(v, 2, f.y % 100);
    TwoOfPad(v, 5, f.mo);
    TwoOfPad(v, 8, f.d);
  }

  lemma ZoneFits(f: FieldText)
    requires f.Valid()
    ensures TimeField.ZoneText(f.Zone())
    ensures f.Zone() != "" ==> var c := f.Zone()[0]; c == 'Z' || c == 'z' || c == '+' || c == '-'
  {
    var t := f.Zone();
    match f.zone {
      case Short(_, h, m) =>
        TwoOfPad(t, 1, h);
        TwoOfPad(t, 3, m);
      case Long(_, h, m) =>
        TwoOfPad(t, 1, h);
        TwoOfPad(t, 4, m);
      case _ =>
    }
  }

  /** The clock's characters stand from the tenth on, the zone's behind them. */
  predicate Holds(v: string, clock: Clock, zone: string)
    requires clock.Valid()
  {
    |v| == 10 + |clock.Text()| + |zone| && v[10..10 + |clock.Text()|] == clock.Text()
    && v[10 + |clock.Text()|..] == zone
  }

  lemma TextHolds(f: FieldText)
    requires f.Valid()
    ensures f.Text()[..10] == f.Date() && Holds(f.Text(), f.clock, f.Zone())
  {
  }

  predicate ZoneChar(zone: string) {
    zone != "" ==> zone[0] == 'Z' || zone[0] == 'z' || zone[0] == '+' || zone[0] == '-'
  }

  /** Where the characters of a clock stand. */
  lemma ClockChars(clock: Clock)
    requires clock.Valid() && !clock.Midnight?
    ensures var t := clock.Text();
            && |t| >= 6 && t[0] == clock.sep && t[3] == ':'
            && t[1] == Pad2(clock.h)[0] && t[2] == Pad2(clock.h)[1]
            && t[4] == Pad2(clock.mi)[0] && t[5] == Pad2(clock.mi)[1]
            && (clock.Minutes? ==> |t| == 6)
            && (!clock.Minutes? ==> |t| >= 9 && t[6] == ':' && t[7] == Pad2(clock.s)[0] && t[8] == Pad2(clock.s)[1])
            && (clock.Seconds? ==> |t| == 9)
            && (clock.Fraction? ==> |t| == 10 + |clock.frac| && t[9] == '.' && t[10..] == clock.frac)
  {
    hide Pad2;
  }

  lemma Same2(v: string, i: nat, t: string)
    requires i + 2 <= |v| && |t| == 2 && v[i] == t[0] && v[i + 1] == t[1]
    ensures v[i..i + 2] == t
  {
  }

  lemma ClockStarts(v: string, clock: Clock, zone: string)
    requires clock.Valid() && Holds(v, clock, zone) && ZoneChar(zone)
    ensures TimeField.HasTime(v) <==> !clock.Midnight?
    ensures TimeField.HasSeconds(v) <==> clock.Seconds? || clock.Fraction?
    ensures !clock.Midnight? ==> v[11..13] == Pad2(clock.h) && v[14..16] == Pad2(clock.mi)
    ensures clock.Seconds? || clock.Fraction? ==> v[17..19] == Pad2(clock.s)
  {
    var t := clock.Text();
    assert forall k :: 0 <= k < |t| ==> v[10 + k] == t[k];
    assert zone != "" ==> v[10 + |t|] == zone[0];
    if clock.Midnight? {
      assert t == "";
    } else {
      hide Pad2, Two, Clock.Text;
      ClockChars(clock);
      assert v[10] == t[0] && v[11] == t[1] && v[12] == t[2] && v[13] == t[3] && v[14] == t[4] && v[15] == t[5];
      TwoOfPad(v, 11, clock.h);
      TwoOfPad(v, 14, clock.mi);
      Same2(v, 11, Pad2(clock.h));
      Same2(v, 14, Pad2(clock.mi));
      if !clock.Minutes? {
        assert v[16] == t[6] && v[17] == t[7] && v[18] == t[8];
        TwoOfPad(v, 17, clock.s);
        Same2(v, 17, Pad2(clock.s));
      }
    }
  }

  lemma ClockEnds(v: string, clock: Clock, zone: string)
    requires clock.Valid() && Holds(v, clock, zone) && ZoneChar(zone)
    ensures TimeField.FractionLength(v) == |clock.Part()| && TimeField.ZoneStart(v) == 10 + |clock.Text()|
    ensures clock.Fraction? ==> v[20..20 + |clock.frac|] == clock.frac
  {
    hide TimeField.HasTime, TimeField.HasSeconds, Pad2, DigitRun, Clock.Text;
    ClockStarts(v, clock, zone);
    if clock.Midnight? {
      NothingAtMidnight(clock);
    } else {
      ClockChars(clock);
      var t := clock.Text();
      assert zone != "" ==> v[10 + |t|] == zone[0];
      if clock.Fraction? {
        FractionFollows(v, t, clock.frac);
        RunIs(v, 20, |clock.frac|);
      }
    }
  }

  lemma NothingAtMidnight(clock: Clock)
    requires clock.Midnight?
    ensures clock.Text() == ""
  {
  }

  lemma FractionFollows(v: string, t: string, frac: string)
    requires |t| == 10 + |frac| && t[9] == '.' && t[10..] == frac && |v| >= 10 + |t| && v[10..10 + |t|] == t
    requires forall k :: 0 <= k < |frac| ==> '0' <= frac[k] <= '9'
    ensures v[19] == '.' && v[20..20 + |frac|] == frac && forall k :: 20 <= k < 20 + |frac| ==> IsDigit(v[k])
  {
    assert v[10..10 + |t|][9] == v[19];
    forall k | 20 <= k < 20 + |frac| ensures v[k] == frac[k - 20] {
      assert v[10..10 + |t|][k - 10] == v[k];
      assert t[10..][k - 20] == t[k - 10];
    }
  }

  /** Every such text is taken, and each field is where it was written. */
  lemma FieldIsMatched(f: FieldText)
    requires f.Valid()
    ensures TimeField.MatchField(f.Text()) == Some(Taken(f))
  {
    hide Two, DateHead, DigitRun, Pad4, TimeField.ZoneText, TimeField.HasTime, TimeField.HasSeconds,
         TimeField.FractionLength, TimeField.ZoneStart;
    var v := f.Text();
    TextHolds(f);
    DateIsRead(f, v);
    ZoneFits(f);
    ClockStarts(v, f.clock, f.Zone());
    ClockEnds(v, f.clock, f.Zone());
    NoughtNought();
    hide Pad2, Clock.Text, FieldText.Date, FieldText.Zone;
  }

  lemma NoughtNought()
    ensures Pad2(0) == "00"
  {
  }

  lemma ClockWasWritten(v: string) returns (clock: Clock)
    requires |v| >= 10
    ensures clock.Valid() && 10 + |clock.Text()| == TimeField.ZoneStart(v) <= |v|
    ensures v[10..TimeField.ZoneStart(v)] == clock.Text()
  {
    if !TimeField.HasTime(v) {
      clock := Midnight;
    } else {
      PadOfTwo(v, 11);
      PadOfTwo(v, 14);
      var h, mi := TwoAt(v, 11), TwoAt(v, 14);
      hide Pad2, TwoAt, DigitRun;
      if !TimeField.HasSeconds(v) {
        clock := Minutes(v[10], h, mi);
        assert v[10..16] == [v[10]] + [v[11], v[12]] + ":" + [v[14], v[15]];
      } else {
        PadOfTwo(v, 17);
        var s, n := TwoAt(v, 17), TimeField.FractionLength(v);
        assert v[10..19] == [v[10]] + [v[11], v[12]] + ":" + [v[14], v[15]] + ":" + [v[17], v[18]];
        if n == 0 {
          clock := Seconds(v[10], h, mi, s);
        } else {
          var frac := v[20..20 + n];
          assert forall k :: 0 <= k < n ==> frac[k] == v[20 + k];
          clock := Fraction(v[10], h, mi, s, frac);
          assert v[10..20 + n] == v[10..19] + "." + frac;
        }
      }
    }
  }

  lemma ZoneWasGiven(t: string) returns (z: ZoneText, lower: bool)
    requires TimeField.ZoneText(t)
    ensures z.Valid() && !z.Hours? && (lower ==> z.Zee?) && t == if lower then "z" else z.Text()
  {
    lower := t == "z";
    if t == "" {
      z := NoZone;
    } else if t == "Z" || t == "z" {
      z := Zee;
    } else {
      PadOfTwo(t, 1);
      if |t| == 5 {
        PadOfTwo(t, 3);
        z := Short(t[0] == '-', TwoAt(t, 1), TwoAt(t, 3));
      } else {
        PadOfTwo(t, 4);
        z := Long(t[0] == '-', TwoAt(t, 1), TwoAt(t, 4));
      }
    }
  }

  lemma DateWasWritten(v: string, f: FieldText)
    requires f.Valid() && DateHead(v)
    requires f.y == 100 * TwoAt(v, 0) + TwoAt(v, 2) && f.mo == TwoAt(v, 5) && f.d == TwoAt(v, 8)
    ensures v[..10] == f.Date()
  {
    YearOfTwos(v);
    PadOfTwo(v, 5);
    PadOfTwo(v, 8);
    hide Pad2, Pad4, TwoAt;
    assert f.Date() == [v[0], v[1], v[2], v[3]] + "-" + [v[5], v[6]] + "-" + [v[8], v[9]];
  }

  lemma PutTogether(v: string, f: FieldText, end: nat)
    requires f.Valid() && 10 <= end <= |v|
    requires v[..10] == f.Date() && v[10..end] == f.clock.Text() && v[end..] == f.Zone()
    ensures f.Text() == v
  {
    hide FieldText.Date, Clock.Text, FieldText.Zone;
    assert v == v[..10] + (v[10..end] + v[end..]);
  }

  /** And nothing else is. */
  lemma MatchedFieldWasWritten(v: string) returns (f: FieldText)
    requires TimeField.MatchField(v).Some?
    ensures f.Valid() && f.Text() == v
  {
    hide TimeField.ZoneStart, Two, TwoAt, Pad2, Pad4, Clock.Text, ZoneText.Text, FieldText.Date, FieldText.Text,
         TimeField.ZoneText;
    var end := TimeField.ZoneStart(v);
    var clock := ClockWasWritten(v);
    var z, lower := ZoneWasGiven(v[end..]);
    YearOfTwos(v);
    PadOfTwo(v, 5);
    PadOfTwo(v, 8);
    f := FieldText(100 * TwoAt(v, 0) + TwoAt(v, 2), TwoAt(v, 5), TwoAt(v, 8), clock, z, lower);
    DateWasWritten(v, f);
    PutTogether(v, f, end);
  }

  // ----- what is made of it

  lemma PadReads(n: int)
    requires 0 <= n <= 99
    ensures TimeField.Pair(Pad2(n)) && TwoAt(Pad2(n), 0) == n
  {
    TwoOfPad(Pad2(n), 0, n);
  }

  lemma StampIsValid(f: FieldText)
    requires f.Valid()
    ensures f.Stamp().Valid()
  {
  }

  lemma TakenReads(f: FieldText)
    requires f.Valid() && TimeField.WellFormed(Taken(f))
    ensures var g := Taken(f);
            && TimeField.Year(g) == f.y && TimeField.Month(g) == f.mo && TimeField.DayOfMonth(g) == f.d
            && TwoAt(g.h, 0) == f.clock.Hour() && TwoAt(g.mi, 0) == f.clock.Minute()
            && TwoAt(g.s, 0) == f.clock.Second()
  {
    hide Pad2, Pad4, TwoAt, FieldText.Date, FieldText.Zone;
    assert f.Date()[..10] == f.Date();
    DateIsRead(f, f.Date());
    PadReads(f.clock.Hour());
    PadReads(f.clock.Minute());
    PadReads(f.clock.Second());
  }

  lemma ZoneIsUpper(f: FieldText)
    requires f.Valid()
    ensures TimeField.UpperZone(if f.Zone() == "" then "Z" else f.Zone()) == f.Stamp().zone.Text()
  {
    hide Pad2;
  }

  lemma HeadIsRebuilt(f: FieldText, h: string, mi: string, s: string)
    requires f.Valid() && f.Stamp().Valid()
    requires h == Pad2(f.clock.Hour()) && mi == Pad2(f.clock.Minute()) && s == Pad2(f.clock.Second())
    ensures f.Date() + ['T', h[0], h[1], ':', mi[0], mi[1], ':', s[0], s[1]] == f.Stamp().Head()
  {
    hide Pad2, Pad4;
    assert ['T', h[0], h[1], ':', mi[0], mi[1], ':', s[0], s[1]] == ['T'] + h + ":" + mi + ":" + s;
    var date := f.Date();
    hide FieldText.Date;
    assert date + (['T'] + h + ":" + mi + ":" + s) == date + ['T'] + h + ":" + mi + ":" + s;
  }

  lemma RebuiltText(f: FieldText, g: TimeField.Field)
    requires f.Valid() && f.Stamp().Valid() && TimeField.WellFormed(g) && g == Taken(f)
    ensures TimeField.Rebuilt(g) == f.Stamp().Text()
  {
    ZoneIsUpper(f);
    HeadIsRebuilt(f, g.h, g.mi, g.s);
    hide Pad2, Pad4, TimeField.UpperZone, TimeField.WellFormed, FieldText.Date, FieldText.Zone, Written.Head,
         ZoneText.Text;
    var head := f.Stamp().Head();
    var frac, zone := if g.frac == "" then "" else "." + g.frac, f.Stamp().zone.Text();
    assert TimeField.Rebuilt(g) == head + frac + zone;
    assert f.Stamp().Text() == head + (frac + zone);
    Sequences.Regroup(head, frac, zone);
  }

  /**
   A text is taken exactly when its date is real, of the year 100 or later, and
   its clock a time of day; what is written for it is a canonical timestamp of
   the moment it names exactly when that moment's UTC year has four digits.
   */
  lemma FieldNamesTheMoment(f: FieldText, dateParse: string -> Option<int>)
    requires f.Valid()
    ensures var r := TimeField.ParseTimeField(f.Text(), dateParse);
            && f.Stamp().Valid()
            && (r.Some? <==> f.y >= 100 && IsDate(f.y, f.mo, f.d)
                             && f.clock.Hour() < 24 && f.clock.Minute() < 60 && f.clock.Second() < 60)
            && (r.Some? ==>
                  ((exists v: Written :: Canonical(v) && r.value == v.Text() && Moment(v) == Moment(f.Stamp()))
                   <==> 1000 <= UtcYear(Moment(f.Stamp())) <= 9999))
  {
    hide TimeField.MatchField, TimeField.WellFormed, TimeField.Accepted, TimeField.Rebuilt, FormatJsonTimestamp, Moment,
         Canonical, Written.Valid, Written.Text, UtcYear, IsDate, Taken, FieldText.Valid, FieldText.Text;
    StampIsValid(f);
    FieldIsMatched(f);
    TimeField.MatchedIsWellFormed(f.Text());
    TakenReads(f);
    RebuiltText(f, Taken(f));
    TimeField.AcceptedIsTheCalendar(Taken(f));
    NoBlanks();
    FormatWritesTheMoment("", f.Stamp(), "", dateParse);
    assert "" + f.Stamp().Text() + "" == f.Stamp().Text();
  }

  lemma NoBlanks()
    ensures Blank("")
  {
  }
}

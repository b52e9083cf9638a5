/** Timestamps as they are written: every text the pattern takes, what it reads in it, and what is written for it. */
module TimestampText {
  import opened Arithmetic
  import opened Wrappers
  import opened Calendar
  import opened Timestamp
  import opened TimestampFormat

  /** Two decimal digits. */
  function Pad2(n: int): (t: string)
    requires 0 <= n <= 99
    ensures |t| == 2
  {
    [DigitChar(n / 10), DigitChar(n % 10)]
  }

  function Pad4(n: int): (t: string)
    requires 0 <= n <= 9999
    ensures |t| == 4
  {
    Pad2(n / 100) + Pad2(n % 100)
  }

  datatype ZoneText =
    | NoZone
    | Zee
    | Hours(negative: bool, h: int)
    | Short(negative: bool, h: int, m: int)
    | Long(negative: bool, h: int, m: int)
  {
    predicate Valid() {
      (Hours? || Short? || Long? ==> 0 <= h <= 99) && (Short? || Long? ==> 0 <= m <= 99)
    }

    function Text(): string
      requires Valid()
    {
      match this
      case NoZone => ""
      case Zee => "Z"
      case Hours(negative, h) => (if negative then "-" else "+") + Pad2(h)
      case Short(negative, h, m) => (if negative then "-" else "+") + Pad2(h) + Pad2(m)
      case Long(negative, h, m) => (if negative then "-" else "+") + Pad2(h) + ":" + Pad2(m)
    }

    /** The minutes it is ahead of UTC. */
    function Ahead(): int {
      match this
      case NoZone => 0
      case Zee => 0
      case Hours(negative, h) => if negative then -60 * h else 60 * h
      case Short(negative, h, m) => if negative then -60 * h - m else 60 * h + m
      case Long(negative, h, m) => if negative then -60 * h - m else 60 * h + m
    }
  }

  /** The fields of a written timestamp; no fraction is the empty text. */
  datatype Written = Written(y: int, mo: int, d: int, sep: char, h: int, mi: int, s: int, frac: string, zone: ZoneText)
  {
    predicate Valid() {
      && 0 <= y <= 9999 && 0 <= mo <= 99 && 0 <= d <= 99 && (sep == 'T' || sep == ' ')
      && 0 <= h <= 99 && 0 <= mi <= 99 && 0 <= s <= 99
      && (forall k :: 0 <= k < |frac| ==> '0' <= frac[k] <= '9')
      && zone.Valid()
    }

    function Head(): (t: string)
      requires Valid()
      ensures |t| == 19
    {
      Pad4(y) + "-" + Pad2(mo) + "-" + Pad2(d) + [sep] + Pad2(h) + ":" + Pad2(mi) + ":" + Pad2(s)
    }

    function Tail(): string
      requires Valid()
    {
      (if frac == "" then "" else "." + frac) + zone.Text()
    }

    function Text(): string
      requires Valid()
    {
      Head() + Tail()
    }
  }

  // ----- reading

  lemma TwoOfPad(s: string, i: nat, n: int)
    requires 0 <= n <= 99 && i + 2 <= |s| && s[i] == Pad2(n)[0] && s[i + 1] == Pad2(n)[1]
    ensures Two(s, i) && TwoAt(s, i) == n
  {
  }

  lemma PadOfTwo(s: string, i: nat)
    requires Two(s, i)
    ensures 0 <= TwoAt(s, i) <= 99 && Pad2(TwoAt(s, i)) == [s[i], s[i + 1]]
  {
    DigitBack(s[i]);
    DigitBack(s[i + 1]);
    var a, b := Digit(s[i]), Digit(s[i + 1]);
    assert (10 * a + b) / 10 == a && (10 * a + b) % 10 == b;
  }

  lemma DigitBack(c: char)
    requires IsDigit(c)
    ensures 0 <= Digit(c) <= 9 && DigitChar(Digit(c)) == c
  {
  }

  lemma ZoneIsRead(z: ZoneText)
    requires z.Valid()
    ensures var zone := MatchZone(z.Text());
            && zone.Some?
            && (z.NoZone? || z.Zee? ==> zone.value == Zulu)
            && (z.Hours? ==> zone.value == Offset(z.negative, z.h, 0))
            && (z.Short? || z.Long? ==> zone.value == Offset(z.negative, z.h, z.m))
  {
    var t := z.Text();
    match z {
      case Hours(_, h) => TwoOfPad(t, 1, h);
      case Short(_, h, m) =>
        TwoOfPad(t, 1, h);
        TwoOfPad(t, 3, m);
      case Long(_, h, m) =>
        TwoOfPad(t, 1, h);
        TwoOfPad(t, 4, m);
      case _ =>
    }
  }

  /** A zone text does not go on with digits or a point. */
  lemma ZoneStarts(z: ZoneText)
    requires z.Valid() && z.Text() != ""
    ensures !IsDigit(z.Text()[0]) && z.Text()[0] != '.'
  {
  }

  lemma HeadIsRead(w: Written, s: string)
    requires w.Valid() && |s| >= 19 && s[..19] == w.Head()
    ensures DateHead(s) && s[10] == w.sep && Two(s, 11) && s[13] == ':' && Two(s, 14) && s[16] == ':' && Two(s, 17)
    ensures 100 * TwoAt(s, 0) + TwoAt(s, 2) == w.y && TwoAt(s, 5) == w.mo && TwoAt(s, 8) == w.d
    ensures TwoAt(s, 11) == w.h && TwoAt(s, 14) == w.mi && TwoAt(s, 17) == w.s
  {
    var t := w.Head();
    assert forall k :: 0 <= k < 19 ==> s[k] == t[k];
    hide Pad2;
    TwoOfPad(s, 0, w.y / 100);
    TwoOfPad(s, 2, w.y % 100);
    TwoOfPad(s, 5, w.mo);
    TwoOfPad(s, 8, w.d);
    TwoOfPad(s, 11, w.h);
    TwoOfPad(s, 14, w.mi);
    TwoOfPad(s, 17, w.s);
  }

  function ZoneOf(z: ZoneText): Zone {
    match z
    case NoZone => Zulu
    case Zee => Zulu
    case Hours(negative, h) => Offset(negative, h, 0)
    case Short(negative, h, m) => Offset(negative, h, m)
    case Long(negative, h, m) => Offset(negative, h, m)
  }

  lemma Pieces(head: string, frac: string, zone: string, s: string)
    requires |head| == 19 && s == head + ("." + frac + zone)
    ensures |s| == 20 + |frac| + |zone| && s[19] == '.' && s[20..20 + |frac|] == frac && s[20 + |frac|..] == zone
    ensures forall k :: 20 <= k < 20 + |frac| ==> s[k] == frac[k - 20]
    ensures zone != "" ==> s[20 + |frac|] == zone[0]
  {
  }

  lemma TailIsRead(w: Written, s: string)
    requires w.Valid() && s == w.Head() + w.Tail()
    ensures w.frac == "" ==> (|s| > 19 ==> s[19] != '.') && s[19..] == w.zone.Text()
    ensures w.frac != "" ==>
              && |s| > 19 && s[19] == '.' && DigitRun(s, 20) == |w.frac|
              && s[20..20 + |w.frac|] == w.frac && s[20 + |w.frac|..] == w.zone.Text()
  {
    var zone := w.zone.Text();
    if zone != "" {
      ZoneStarts(w.zone);
    }
    hide DigitRun, Pad2, Pad4, Written.Head, ZoneText.Text;
    if w.frac == "" {
      assert w.Tail() == "" + zone == zone;
      assert s[19..] == zone;
    } else {
      Pieces(w.Head(), w.frac, zone, s);
      RunIs(s, 20, |w.frac|);
    }
  }

  lemma Assembled(s: string, st: Stamp, zone: string)
    requires |s| >= 19 && DateHead(s) && (s[10] == 'T' || s[10] == ' ')
    requires Two(s, 11) && s[13] == ':' && Two(s, 14) && s[16] == ':' && Two(s, 17)
    requires 100 * TwoAt(s, 0) + TwoAt(s, 2) == st.y && TwoAt(s, 5) == st.mo && TwoAt(s, 8) == st.d
    requires TwoAt(s, 11) == st.h && TwoAt(s, 14) == st.mi && TwoAt(s, 17) == st.s
    requires MatchZone(zone) == Some(st.zone)
    requires st.frac == "" ==> (|s| > 19 ==> s[19] != '.') && s[19..] == zone
    requires st.frac != "" ==>
               && |s| > 19 && s[19] == '.' && DigitRun(s, 20) == |st.frac|
               && s[20..20 + |st.frac|] == st.frac && s[20 + |st.frac|..] == zone
    ensures Match(s) == Some(st)
  {
    hide DigitRun, DateHead, Two, TwoAt, MatchZone;
  }

  /** Every written timestamp is read field by field. */
  lemma WrittenIsMatched(w: Written)
    requires w.Valid()
    ensures Match(w.Text()) == Some(Stamp(w.y, w.mo, w.d, w.h, w.mi, w.s, w.frac, ZoneOf(w.zone)))
  {
    hide DigitRun, DateHead, Two, TwoAt, MatchZone, Match, Pad2, Pad4, Written.Head, Written.Tail, ZoneText.Text;
    var s := w.Text();
    assert s[..19] == w.Head();
    HeadIsRead(w, s);
    TailIsRead(w, s);
    ZoneIsRead(w.zone);
    Assembled(s, Stamp(w.y, w.mo, w.d, w.h, w.mi, w.s, w.frac, ZoneOf(w.zone)), w.zone.Text());
  }

  /** A zone that is read was written as one of these. */
  lemma ZoneWasWritten(t: string) returns (z: ZoneText)
    requires MatchZone(t).Some?
    ensures z.Valid() && z.Text() == t
  {
    if t == "" {
      z := NoZone;
    } else if t == "Z" {
      z := Zee;
    } else {
      var negative := t[0] == '-';
      PadOfTwo(t, 1);
      if |t| == 3 {
        z := Hours(negative, TwoAt(t, 1));
      } else if |t| == 5 {
        PadOfTwo(t, 3);
        z := Short(negative, TwoAt(t, 1), TwoAt(t, 3));
      } else {
        PadOfTwo(t, 4);
        z := Long(negative, TwoAt(t, 1), TwoAt(t, 4));
      }
    }
  }

  lemma YearOfTwos(s: string)
    requires Two(s, 0) && Two(s, 2)
    ensures var y := 100 * TwoAt(s, 0) + TwoAt(s, 2); 0 <= y <= 9999 && Pad4(y) == [s[0], s[1], s[2], s[3]]
  {
    PadOfTwo(s, 0);
    PadOfTwo(s, 2);
    var a, b := TwoAt(s, 0), TwoAt(s, 2);
    assert (100 * a + b) / 100 == a && (100 * a + b) % 100 == b;
  }

  lemma HeadWasWritten(s: string, w: Written)
    requires w.Valid() && |s| >= 19 && DateHead(s) && Two(s, 11) && s[13] == ':' && Two(s, 14) && s[16] == ':'
        && Two(s, 17)
    requires w.y == 100 * TwoAt(s, 0) + TwoAt(s, 2) && w.mo == TwoAt(s, 5) && w.d == TwoAt(s, 8) && w.sep == s[10]
    requires w.h == TwoAt(s, 11) && w.mi == TwoAt(s, 14) && w.s == TwoAt(s, 17)
    ensures s[..19] == w.Head()
  {
    YearOfTwos(s);
    PadOfTwo(s, 5);
    PadOfTwo(s, 8);
    PadOfTwo(s, 11);
    PadOfTwo(s, 14);
    PadOfTwo(s, 17);
    hide Pad2, Pad4, TwoAt;
    assert w.Head() == [s[0], s[1], s[2], s[3]] + "-" + [s[5], s[6]] + "-" + [s[8], s[9]] + [s[10]]
                       + [s[11], s[12]] + ":" + [s[14], s[15]] + ":" + [s[17], s[18]];
  }

  lemma TailWasWritten(s: string, end: nat, frac: string, zone: string)
    requires 19 <= end <= |s| && zone == s[end..]
    requires frac == "" ==> end == 19
    requires frac != "" ==> end >= 20 && s[19] == '.' && frac == s[20..end]
    ensures s[19..] == (if frac == "" then "" else "." + frac) + zone
  {
    if frac == "" {
      assert "" + zone == zone;
    } else {
      assert s[19..] == [s[19]] + s[20..end] + s[end..];
    }
  }

  /** The pattern takes nothing else. */
  lemma MatchedWasWritten(s: string) returns (w: Written)
    requires Match(s).Some?
    ensures w.Valid() && w.Text() == s
  {
    MatchedRanges(s);
    hide DateHead, Two, TwoAt, MatchZone, DigitRun, Pad2, Pad4, Micros, OffsetMin;
    var st := Match(s).value;
    var dotted := |s| > 19 && s[19] == '.';
    var end := if dotted then 20 + DigitRun(s, 20) else 19;
    var z := ZoneWasWritten(s[end..]);
    w := Written(st.y, st.mo, st.d, s[10], st.h, st.mi, st.s, st.frac, z);
    assert forall k :: 0 <= k < |st.frac| ==> st.frac[k] == s[20 + k];
    HeadWasWritten(s, w);
    TailWasWritten(s, end, st.frac, z.Text());
    hide Written.Head, ZoneText.Text;
    assert s == s[..19] + s[19..];
  }

  // ----- the moment a text names

  /** The first n digits of a fraction as a number, zeros standing behind its end. */
  function FirstDigits(frac: string, n: nat): int {
    if n == 0 then 0
    else 10 * FirstDigits(frac, n - 1) + if n <= |frac| then frac[n - 1] as int - 48 else 0
  }

  /** Microseconds from 1970: the fields, less the minutes the zone is ahead. */
  function Moment(w: Written): int {
    (((MakeDay(w.y, w.mo - 1, w.d) * 24 + w.h) * 60 + w.mi - w.zone.Ahead()) * 60 + w.s) * 1000000
    + FirstDigits(w.frac, 6)
  }

  function Read(w: Written): Stamp {
    Stamp(w.y, w.mo, w.d, w.h, w.mi, w.s, w.frac, ZoneOf(w.zone))
  }

  lemma OneMoreDigit(frac: string, n: nat)
    ensures FirstDigits(frac, n + 1) == 10 * FirstDigits(frac, n) + FracDigit(frac, n)
  {
  }

  lemma MicrosAreDigits(frac: string)
    ensures Micros(frac) == FirstDigits(frac, 6)
  {
    assert FirstDigits(frac, 0) == 0;
    hide FirstDigits, FracDigit;
    OneMoreDigit(frac, 0);
    OneMoreDigit(frac, 1);
    OneMoreDigit(frac, 2);
    OneMoreDigit(frac, 3);
    OneMoreDigit(frac, 4);
    OneMoreDigit(frac, 5);
  }

  /** What a text reads as has the text's moment. */
  lemma InstantIsMoment(w: Written)
    ensures Instant(Read(w)) == Moment(w)
  {
    MicrosAreDigits(w.frac);
    hide MakeDay, Micros, FirstDigits;
  }

  // ----- writing

  lemma SixDigits(n: int)
    requires 0 <= n < 1000000
    ensures |Pad6(n)| == 6 && forall k :: 0 <= k < 6 ==> '0' <= Pad6(n)[k] <= '9'
  {
    PadMicros(n);
  }

  /** Fields with a year of four digits are written as a timestamp in UTC. */
  function InUtc(p: Parts): (w: Written)
    requires InRange(p) && 1000 <= p.y <= 9999
    ensures w.Valid()
  {
    SixDigits(p.micros);
    Written(p.y, p.mo, p.d, 'T', p.h, p.mi, p.s, if p.micros == 0 then "" else Pad6(p.micros), Zee)
  }

  lemma HalvesOfYear(y: int)
    requires 1000 <= y <= 9999
    ensures y / 100 / 10 == y / 1000 && y / 100 % 10 == y / 100 - 10 * (y / 1000)
    ensures y % 100 / 10 == y / 10 % 10 && y % 100 % 10 == y % 10
  {
    var a, b := y / 100, y % 100;
    var c, d := b / 10, b % 10;
    assert y == (10 * a + c) * 10 + d;
    DivMod(10 * a + c, 10, d);
    DivMod(a, 10, c);
    assert y == a / 10 * 1000 + (100 * (a % 10) + b);
    DivMod(a / 10, 1000, 100 * (a % 10) + b);
  }

  lemma YearPads(y: int)
    requires 1000 <= y <= 9999
    ensures Decimal(y) == Pad4(y)
  {
    hide Decimal;
    FourDigits(y);
    HalvesOfYear(y);
  }

  lemma FormatIsWritten(p: Parts)
    requires InRange(p) && 1000 <= p.y <= 9999
    ensures Format(p) == InUtc(p).Text()
  {
    YearPads(p.y);
    hide Decimal, Pad4, Pad6;
    var w := InUtc(p);
    assert AfterYear(p) ==
           "-" + Pad2(p.mo) + "-" + Pad2(p.d) + ['T'] + Pad2(p.h) + ":" + Pad2(p.mi) + ":" + Pad2(p.s);
    hide Pad2;
    assert w.Head() == Pad4(p.y) + AfterYear(p);
    assert w.Tail() == Fraction(p.micros) + "Z";
    assert Pad4(p.y) + AfterYear(p) + Fraction(p.micros) + "Z" == Pad4(p.y) + AfterYear(p) + (Fraction(p.micros) + "Z");
  }

  // ----- trimming

  predicate Blank(t: string) {
    forall k :: 0 <= k < |t| ==> IsSpace(t[k])
  }

  lemma {:induction false} TrimDropsBlanks(a: string, t: string, b: string)
    requires Blank(a) && Blank(b) && t != "" && !IsSpace(t[0]) && !IsSpace(t[|t| - 1])
    ensures Trim(a + t + b) == t
    decreases |a| + |b|
  {
    var s := a + t + b;
    if a != "" {
      assert s[0] == a[0] && s[1..] == a[1..] + t + b;
      TrimDropsBlanks(a[1..], t, b);
    } else if b != "" {
      assert s[0] == t[0] && s[|s| - 1] == b[|b| - 1] && s[..|s| - 1] == a + t + b[..|b| - 1];
      TrimDropsBlanks(a, t, b[..|b| - 1]);
    } else {
      assert s == t;
    }
  }

  lemma {:induction false} TrimOfBlanks(t: string)
    requires Blank(t)
    ensures Trim(t) == ""
    decreases |t|
  {
    if t != "" {
      TrimOfBlanks(t[1..]);
    }
  }

  /** Every text is one without blank ends between blanks, or blank. */
  lemma {:induction false} TrimmedFrom(s: string) returns (a: string, b: string)
    ensures Blank(a) && Blank(b) && s == a + Trim(s) + b
    ensures Trim(s) != "" ==> !IsSpace(Trim(s)[0]) && !IsSpace(Trim(s)[|Trim(s)| - 1])
    decreases |s|
  {
    if s != "" && IsSpace(s[0]) {
      a, b := TrimmedFrom(s[1..]);
      InFront(s, a, Trim(s[1..]), b);
      a := [s[0]] + a;
    } else if s != "" && IsSpace(s[|s| - 1]) {
      a, b := TrimmedFrom(s[..|s| - 1]);
      AtEnd(s, a, Trim(s[..|s| - 1]), b);
      b := b + [s[|s| - 1]];
    } else {
      a, b := "", "";
      assert s == "" + s + "";
    }
  }

  lemma InFront(s: string, a: string, t: string, b: string)
    requires s != "" && s[1..] == a + t + b
    ensures s == [s[0]] + a + t + b
  {
    assert s == [s[0]] + s[1..];
  }

  lemma AtEnd(s: string, a: string, t: string, b: string)
    requires s != "" && s[..|s| - 1] == a + t + b
    ensures s == a + t + (b + [s[|s| - 1]])
  {
    assert s == s[..|s| - 1] + [s[|s| - 1]];
  }

  lemma TrimIsEmptyIff(s: string)
    ensures Trim(s) == "" <==> Blank(s)
  {
    var a, b := TrimmedFrom(s);
    if Trim(s) == "" {
      assert s == a + b;
    }
    if Blank(s) {
      TrimOfBlanks(s);
    }
  }

  /** t stands in s between blanks. */
  ghost predicate Between(s: string, t: string) {
    t != "" && !IsSpace(t[0]) && !IsSpace(t[|t| - 1]) && exists a, b :: Blank(a) && Blank(b) && s == a + t + b
  }

  lemma TrimIsBetween(s: string, t: string)
    ensures Between(s, t) <==> t != "" && Trim(s) == t
  {
    if Between(s, t) {
      var a, b :| Blank(a) && Blank(b) && s == a + t + b;
      TrimDropsBlanks(a, t, b);
    }
    var a, b := TrimmedFrom(s);
  }

  lemma WrittenHasNoBlankEnds(w: Written)
    requires w.Valid()
    ensures w.Text() != "" && !IsSpace(w.Text()[0]) && !IsSpace(w.Text()[|w.Text()| - 1])
  {
    var t := w.Text();
    assert t[0] == w.Head()[0] == Pad4(w.y)[0];
    assert IsDigit(t[0]);
    var zone := w.zone.Text();
    if zone != "" {
      ZoneEnds(w.zone);
      assert t[|t| - 1] == zone[|zone| - 1];
    } else if w.frac != "" {
      assert t[|t| - 1] == w.frac[|w.frac| - 1];
    } else {
      assert t[|t| - 1] == w.Head()[18] == Pad2(w.s)[1];
    }
  }

  lemma ZoneEnds(z: ZoneText)
    requires z.Valid() && z.Text() != ""
    ensures var c := z.Text()[|z.Text()| - 1]; c == 'Z' || IsDigit(c)
  {
  }

  // ----- the whole of `formatJsonTimestamp`

  /** A written timestamp in UTC with a real date and a time of day, and all six digits of a fraction or none. */
  predicate Canonical(v: Written) {
    && v.Valid() && v.sep == 'T' && v.zone == Zee
    && IsDate(v.y, v.mo, v.d) && v.h < 24 && v.mi < 60 && v.s < 60
    && (v.frac == "" || (|v.frac| == 6 && v.frac != "000000"))
  }

  lemma InUtcIsCanonical(p: Parts)
    requires InRange(p) && 1000 <= p.y <= 9999
    ensures Canonical(InUtc(p)) && Read(InUtc(p)) == StampOf(p)
  {
    PadMicros(p.micros);
    assert Micros("000000") == 0;
  }

  /**
   Whatever blanks stand around a timestamp, the text written for it is a
   canonical timestamp of the same moment, exactly when the moment's UTC year
   has four digits.
   */
  lemma FormatWritesTheMoment(a: string, w: Written, b: string, dateParse: string -> Option<int>)
    requires w.Valid() && Blank(a) && Blank(b)
    ensures FormatJsonTimestamp(a + w.Text() + b, dateParse).Some?
    ensures var out := FormatJsonTimestamp(a + w.Text() + b, dateParse).value;
            (exists v: Written :: Canonical(v) && out == v.Text() && Moment(v) == Moment(w))
            <==> 1000 <= UtcYear(Moment(w)) <= 9999
  {
    var value := a + w.Text() + b;
    WrittenHasNoBlankEnds(w);
    TrimDropsBlanks(a, w.Text(), b);
    WrittenIsMatched(w);
    InstantIsMoment(w);
    FormatKeepsTheInstant(value, Read(w), dateParse);
    FormatOf(value, Read(w), dateParse);
    hide Match, Trim, FormatJsonTimestamp, Instant, UtcYear, Moment, Canonical, Written.Text, Format;
    var out := FormatJsonTimestamp(value, dateParse).value;
    forall v: Written | Canonical(v) && out == v.Text()
      ensures Match(out) == Some(Read(v)) && Instant(Read(v)) == Moment(v)
    {
      WrittenIsRead(v);
    }
    if 1000 <= UtcYear(Moment(w)) <= 9999 {
      var p := FromEpoch(EpochMs(Read(w)), Micros(Read(w).frac));
      assert out == Format(p);
      YearIsFour(value, w, p, out);
      FormatIsWritten(p);
      InUtcIsCanonical(p);
      assert out == InUtc(p).Text();
    }
  }

  lemma WrittenIsRead(v: Written)
    requires Canonical(v)
    ensures Match(v.Text()) == Some(Read(v)) && Instant(Read(v)) == Moment(v)
  {
    WrittenIsMatched(v);
    InstantIsMoment(v);
  }

  lemma YearIsFour(value: string, w: Written, p: Parts, out: string)
    requires InRange(p) && out == Format(p) && Match(out).Some?
    ensures 1000 <= p.y <= 9999
  {
    if !(1000 <= p.y <= 9999) {
      WideYearsDoNotMatch(p);
    }
  }

  lemma SomePads()
    ensures Pad4(2026) == "2026" && Pad2(3) == "03" && Pad2(1) == "01" && Pad2(12) == "12"
    ensures Pad2(0) == "00" && Pad2(9) == "09"
  {
    assert Pad2(20) == "20" && Pad2(26) == "26";
  }

  /**
   A text that the pattern does not take is written as a canonical timestamp of
   the millisecond that `new Date` finds in it, where that has a UTC year of
   four digits, and is refused where it finds none.
   */
  lemma OtherTextsAreDates(value: string, dateParse: string -> Option<int>)
    requires Match(Trim(value)).None?
    ensures FormatJsonTimestamp(value, dateParse).Some? <==> dateParse(Trim(value)).Some?
    ensures var ms := dateParse(Trim(value));
            ms.Some? && 1000 <= UtcYear(ms.value * 1000) <= 9999 ==>
              exists v: Written :: Canonical(v) && FormatJsonTimestamp(value, dateParse) == Some(v.Text())
                                   && Moment(v) == ms.value * 1000
  {
    var date := dateParse(Trim(value));
    hide Match, Trim, Canonical, Written.Text, Moment, UtcYear, FromEpoch, Format;
    if date.Some? && 1000 <= UtcYear(date.value * 1000) <= 9999 {
      var ms := date.value;
      var p := FromEpoch(ms, ms % 1000 * 1000);
      EpochIsWritten(ms, p);
      assert FormatJsonTimestamp(value, dateParse) == Some(Format(p));
    }
  }

  lemma SecondAndMicros(ms: int)
    ensures 0 <= ms % 1000 * 1000 < 1000000 && MsOf(ms / 1000, ms % 1000 * 1000) == ms
    ensures ms / 1000 * 1000000 + ms % 1000 * 1000 == ms * 1000
  {
  }

  lemma UtcYearOfMs(ms: int)
    ensures UtcYear(ms * 1000) == YearOf(DayOfSecond(ms / 1000))
  {
    SecondAndMicros(ms);
    SameDay(ms / 1000, ms % 1000 * 1000);
  }

  lemma InstantOfParts(p: Parts, x: int)
    requires InRange(p) && 1000 <= p.y <= 9999
    requires Seconds(MakeDay(p.y, p.mo - 1, p.d), p.h, p.mi, p.s) == x
    ensures Moment(InUtc(p)) == x * 1000000 + p.micros
  {
    hide *;
    InUtcIsCanonical(p);
    InstantIsMoment(InUtc(p));
    SecondOfStamp(p);
    EpochIsTheSecond(StampOf(p));
    FormatMatches(p);
  }

  lemma EpochIsWritten(ms: int, p: Parts)
    requires p == FromEpoch(ms, ms % 1000 * 1000) && 1000 <= UtcYear(ms * 1000) <= 9999
    ensures InRange(p) && 1000 <= p.y <= 9999 && Format(p) == InUtc(p).Text()
    ensures Canonical(InUtc(p)) && Moment(InUtc(p)) == ms * 1000
  {
    hide *;
    SecondAndMicros(ms);
    UtcYearOfMs(ms);
    FieldsNameTheSecond(ms / 1000, ms % 1000 * 1000);
    FormatIsWritten(p);
    InUtcIsCanonical(p);
    InstantOfParts(p, ms / 1000);
  }

  lemma TokyoTexts()
    ensures Written(2026, 3, 1, 'T', 12, 0, 0, "", Long(false, 9, 0)).Text() == "2026-03-01T12:00:00+09:00"
    ensures Written(2026, 3, 1, 'T', 3, 0, 0, "", Zee).Text() == "2026-03-01T03:00:00Z"
  {
    hide Pad2, Pad4;
    SomePads();
    var noon := Written(2026, 3, 1, 'T', 12, 0, 0, "", Long(false, 9, 0));
    var three := Written(2026, 3, 1, 'T', 3, 0, 0, "", Zee);
    assert noon.Tail() == "" + "+09:00" && three.Tail() == "" + "Z";
    assert noon.Head() == "2026-03-01T12:00:00" && three.Head() == "2026-03-01T03:00:00";
    hide Written.Head, Written.Tail;
  }

  /** Noon in Tokyo is three in the morning in UTC. */
  lemma NoonInTokyo(dateParse: string -> Option<int>)
    ensures FormatJsonTimestamp("2026-03-01T12:00:00+09:00", dateParse) == Some("2026-03-01T03:00:00Z")
  {
    hide Pad2, Pad4, MakeDay, FromEpoch, Format, Match, Trim, Written.Head, Written.Tail, Written.Text;
    var w, p := Written(2026, 3, 1, 'T', 12, 0, 0, "", Long(false, 9, 0)), Parts(2026, 3, 1, 3, 0, 0, 0);
    TokyoTexts();
    WrittenHasNoBlankEnds(w);
    TrimDropsBlanks("", w.Text(), "");
    assert "" + w.Text() + "" == w.Text();
    WrittenIsMatched(w);
    SecondHasItsFields(p);
    FormatIsWritten(p);
    assert Micros("") == 0;
    FormatIsOfEpoch(w.Text(), Read(w), dateParse);
  }
}

/** `parseUtc` and `formatJsonTimestamp`: any RFC 3339 timestamp as the same instant in UTC, to the microsecond. */
module Timestamp {
  import opened Arithmetic
  import opened Wrappers
  import opened Calendar

  predicate IsDigit(c: char) {
    '0' <= c <= '9'
  }

  function Digit(c: char): int {
    c as int - '0' as int
  }

  function DigitChar(n: int): (c: char)
    requires 0 <= n <= 9
    ensures IsDigit(c) && Digit(c) == n
  {
    '0' + n as char
  }

  /** Absent zones mean UTC. */
  datatype Zone = Zulu | Offset(negative: bool, hours: int, minutes: int)

  /** The groups of the regular expression. */
  datatype Stamp = Stamp(y: int, mo: int, d: int, h: int, mi: int, s: int, frac: string, zone: Zone)

  predicate Two(s: string, i: nat) {
    i + 2 <= |s| && IsDigit(s[i]) && IsDigit(s[i + 1])
  }

  function TwoAt(s: string, i: nat): int
    requires Two(s, i)
  {
    10 * Digit(s[i]) + Digit(s[i + 1])
  }

  function DigitRun(s: string, i: nat): (n: nat)
    requires i <= |s|
    ensures i + n <= |s| && forall k :: i <= k < i + n ==> IsDigit(s[k])
    decreases |s| - i
  {
    if i < |s| && IsDigit(s[i]) then 1 + DigitRun(s, i + 1) else 0
  }

  /** (Z|[+-]\d{2}(?::?\d{2})?)? */
  function MatchZone(t: string): Option<Zone> {
    if t == "" || t == "Z" then Some(Zulu)
    else if (t[0] != '+' && t[0] != '-') || !Two(t, 1) then None
    else if |t| == 3 then Some(Offset(t[0] == '-', TwoAt(t, 1), 0))
    else if |t| == 5 && Two(t, 3) then Some(Offset(t[0] == '-', TwoAt(t, 1), TwoAt(t, 3)))
    else if |t| == 6 && t[3] == ':' && Two(t, 4) then Some(Offset(t[0] == '-', TwoAt(t, 1), TwoAt(t, 4)))
    else None
  }

  predicate DateHead(s: string) {
    Two(s, 0) && Two(s, 2) && |s| >= 10 && s[4] == '-' && Two(s, 5) && s[7] == '-' && Two(s, 8)
  }

  /** The whole expression on a trimmed text. */
  function Match(s: string): Option<Stamp> {
    if !(DateHead(s) && |s| >= 19 && (s[10] == 'T' || s[10] == ' ')
         && Two(s, 11) && s[13] == ':' && Two(s, 14) && s[16] == ':' && Two(s, 17)) then None
    else
      var dotted := |s| > 19 && s[19] == '.';
      var run := if dotted then DigitRun(s, 20) else 0;
      var end := if dotted then 20 + run else 19;
      var zone := MatchZone(s[end..]);
      if zone.None? || (dotted && run == 0) then None
      else
        Some(Stamp(100 * TwoAt(s, 0) + TwoAt(s, 2), TwoAt(s, 5), TwoAt(s, 8), TwoAt(s, 11), TwoAt(s, 14), TwoAt(s, 17),
                   if dotted then s[20..end] else "", zone.value))
  }

  /** White space as `trim` knows it. */
  predicate IsSpace(c: char) {
    var n := c as int;
    9 <= n <= 13 || n == 32 || n == 160 || n == 0x1680 || 0x2000 <= n <= 0x200A
    || n == 0x2028 || n == 0x2029 || n == 0x202F || n == 0x205F || n == 0x3000 || n == 0xFEFF
  }

  function Trim(s: string): string {
    if s != "" && IsSpace(s[0]) then Trim(s[1..])
    else if s != "" && IsSpace(s[|s| - 1]) then Trim(s[..|s| - 1])
    else s
  }

  /** Digit k of the fraction, 0 past its end. */
  function FracDigit(frac: string, k: nat): int {
    if k < |frac| then Digit(frac[k]) else 0
  }

  /** `padEnd(6, "0").slice(0, 6)` as a number */
  function Micros(frac: string): int {
    100000 * FracDigit(frac, 0) + 10000 * FracDigit(frac, 1) + 1000 * FracDigit(frac, 2)
    + 100 * FracDigit(frac, 3) + 10 * FracDigit(frac, 4) + FracDigit(frac, 5)
  }

  function OffsetMin(zone: Zone): int {
    match zone
    case Zulu => 0
    case Offset(negative, hours, minutes) => if negative then -(hours * 60 + minutes) else hours * 60 + minutes
  }

  function EpochMs(st: Stamp): int {
    DateUtc(st.y, st.mo - 1, st.d, st.h, st.mi - OffsetMin(st.zone), st.s, Micros(st.frac) / 1000)
  }

  datatype Parts = Parts(y: int, mo: int, d: int, h: int, mi: int, s: int, micros: int)

  /** Fields as they are written: a real date, a time of day, microseconds. */
  predicate InRange(p: Parts) {
    && IsDate(p.y, p.mo, p.d)
    && 0 <= p.h < 24 && 0 <= p.mi < 60 && 0 <= p.s < 60 && 0 <= p.micros < 1000000
  }

  function FromEpoch(ms: int, micros: int): (p: Parts)
    ensures 0 <= micros < 1000000 ==> InRange(p)
  {
    var day, t := Day(ms), TimeWithinDay(ms);
    DayIsItsDate(day);
    Parts(YearOf(day), MonthOf(day), DateOf(day), t / 3600000, t / 60000 % 60, t / 1000 % 60, micros)
  }

  /** `parseUtc`; what `new Date` makes of other texts is a parameter. */
  function ParseUtc(value: string, dateParse: string -> Option<int>): (p: Option<Parts>)
    ensures p.Some? ==> InRange(p.value)
  {
    var s := Trim(value);
    match Match(s)
    case Some(st) => MatchedRanges(s); Some(FromEpoch(EpochMs(st), Micros(st.frac)))
    case None =>
      match dateParse(s)
      case Some(ms) => Some(FromEpoch(ms, ms % 1000 * 1000))
      case None => None
  }

  function Decimal(n: int): string
    decreases n < 0, if n < 0 then -n else n
  {
    if n < 0 then "-" + Decimal(-n)
    else if n < 10 then [DigitChar(n)]
    else Decimal(n / 10) + [DigitChar(n % 10)]
  }

  function Pad6(n: int): string
    requires 0 <= n < 1000000
  {
    [DigitChar(n / 100000), DigitChar(n / 10000 % 10), DigitChar(n / 1000 % 10),
     DigitChar(n / 100 % 10), DigitChar(n / 10 % 10), DigitChar(n % 10)]
  }

  /** `-MM-DDTHH:MM:SS`, each field on two digits */
  function AfterYear(p: Parts): string
    requires InRange(p)
  {
    ['-', DigitChar(p.mo / 10), DigitChar(p.mo % 10), '-', DigitChar(p.d / 10), DigitChar(p.d % 10),
     'T', DigitChar(p.h / 10), DigitChar(p.h % 10), ':', DigitChar(p.mi / 10), DigitChar(p.mi % 10),
     ':', DigitChar(p.s / 10), DigitChar(p.s % 10)]
  }

  /** Six digits when any microsecond is set. */
  function Fraction(micros: int): string
    requires 0 <= micros < 1000000
  {
    if micros == 0 then "" else "." + Pad6(micros)
  }

  function Format(p: Parts): string
    requires InRange(p)
  {
    Decimal(p.y) + AfterYear(p) + Fraction(p.micros) + "Z"
  }

  function FormatJsonTimestamp(value: string, dateParse: string -> Option<int>): Option<string> {
    match ParseUtc(value, dateParse)
    case Some(p) => Some(Format(p))
    case None => None
  }

  // ----- what a timestamp means

  /** Microseconds from 1970 to the moment a matched text names, its fields taken as they stand. */
  function Instant(st: Stamp): int {
    ((MakeDay(st.y, st.mo - 1,
        st.d) * 1440 + st.h * 60 + st.mi - OffsetMin(st.zone)) * 60 + st.s) * 1000000 + Micros(st.frac)
  }

  function UtcYear(instant: int): int {
    YearOf(instant / (DAY_MS * 1000))
  }

  lemma MatchedRanges(s: string)
    requires Match(s).Some?
    ensures var st := Match(s).value;
            && 0 <= st.y <= 9999 && 0 <= st.mo <= 99 && 0 <= st.d <= 99 && 0 <= st.h <= 99 && 0 <= st.mi <= 99
                && 0 <= st.s <= 99
            && 0 <= Micros(st.frac) < 1000000
            && -6039 <= OffsetMin(st.zone) <= 6039
  {
    var st := Match(s).value;
    forall k: nat ensures 0 <= FracDigit(st.frac, k) <= 9 {
    }
  }

  // ----- arithmetic of one instant

  /** The millisecond of an instant that is micros into second x. */
  function MsOf(x: int, micros: int): int {
    x * 1000 + micros / 1000
  }

  function DayOfSecond(x: int): int {
    x / 86400
  }

  function SecondOfDay(x: int): int {
    x % 86400
  }

  /** Seconds, milliseconds and microseconds fall on the same day. */
  lemma SameDay(x: int, micros: int)
    requires 0 <= micros < 1000000
    ensures Day(MsOf(x, micros)) == DayOfSecond(x) == (x * 1000000 + micros) / (DAY_MS * 1000)
    ensures 0 <= TimeWithinDay(MsOf(x, micros)) < DAY_MS
    ensures TimeWithinDay(MsOf(x, micros)) / 1000 == SecondOfDay(x)
  {
    var q, r := DayOfSecond(x), SecondOfDay(x);
    assert x == q * 86400 + r;
    assert MsOf(x, micros) == q * DAY_MS + (r * 1000 + micros / 1000);
    DivMod(q, DAY_MS, r * 1000 + micros / 1000);
    assert x * 1000000 + micros == q * (DAY_MS * 1000) + (r * 1000000 + micros);
    DivMod(q, DAY_MS * 1000, r * 1000000 + micros);
    assert (r * 1000 + micros / 1000) / 1000 == r;
  }

  lemma TimeOfDay(t: int)
    requires 0 <= t < DAY_MS
    ensures t / 3600000 * 3600 + t / 60000 % 60 * 60 + t / 1000 % 60 == t / 1000
    ensures 0 <= t / 3600000 < 24
  {
    var secs := t / 1000;
    assert t / 60000 == secs / 60;
    assert t / 3600000 == secs / 3600 == secs / 60 / 60;
  }

  /** The seconds a timestamp names, before its fraction. */
  function Seconds(day: int, h: int, mi: int, s: int): int {
    (day * 1440 + h * 60 + mi) * 60 + s
  }

  lemma SecondsJoin(x: int, h: int, mi: int, s: int)
    requires h * 3600 + mi * 60 + s == SecondOfDay(x)
    ensures Seconds(DayOfSecond(x), h, mi, s) == x
  {
  }

  /** The fields of an epoch time name the second it lies in. */
  lemma FieldsNameTheSecond(x: int, micros: int)
    requires 0 <= micros < 1000000
    ensures var p := FromEpoch(MsOf(x, micros), micros);
            && Seconds(MakeDay(p.y, p.mo - 1, p.d), p.h, p.mi, p.s) == x
            && p.y == YearOf(DayOfSecond(x)) && p.micros == micros
  {
    var ms := MsOf(x, micros);
    var p := FromEpoch(ms, micros);
    SameDay(x, micros);
    DayIsItsDate(DayOfSecond(x));
    TimeOfDay(TimeWithinDay(ms));
    hide MsOf, Day, TimeWithinDay, DayOfSecond, SecondOfDay, Seconds, MakeDay, YearOf, MonthOf, DateOf, IsDate, InRange;
    SecondsJoin(x, p.h, p.mi, p.s);
  }

  lemma SecondsSplit(day: int, h: int, mi: int, s: int)
    requires 0 <= h < 24 && 0 <= mi < 60 && 0 <= s < 60
    ensures DayOfSecond(Seconds(day, h, mi, s)) == day
    ensures SecondOfDay(Seconds(day, h, mi, s)) == h * 3600 + mi * 60 + s
  {
    DivMod(day, 86400, h * 3600 + mi * 60 + s);
  }

  /** And the fields of the second a real date and time name are that date and time. */
  lemma SecondHasItsFields(p: Parts)
    requires InRange(p)
    ensures var x := Seconds(MakeDay(p.y, p.mo - 1, p.d), p.h, p.mi, p.s);
            FromEpoch(MsOf(x, p.micros), p.micros) == p
  {
    var day := MakeDay(p.y, p.mo - 1, p.d);
    var x := Seconds(day, p.h, p.mi, p.s);
    DateIsItsDay(p.y, p.mo, p.d);
    SecondsSplit(day, p.h, p.mi, p.s);
    hide MsOf, Day, TimeWithinDay, DayOfSecond, SecondOfDay, Seconds, MakeDay, YearOf, MonthOf, DateOf, IsDate;
    SameDay(x, p.micros);
    ClockFields(p.h, p.mi, p.s, TimeWithinDay(MsOf(x, p.micros)));
  }

  lemma ClockFields(h: int, mi: int, s: int, t: int)
    requires 0 <= h < 24 && 0 <= mi < 60 && 0 <= s < 60 && t / 1000 == h * 3600 + mi * 60 + s
    ensures t / 3600000 == h && t / 60000 % 60 == mi && t / 1000 % 60 == s
  {
    var secs := t / 1000;
    assert secs / 60 == h * 60 + mi;
    assert t / 60000 == secs / 60;
    assert t / 3600000 == secs / 3600;
  }
}

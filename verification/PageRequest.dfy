/** What a list request asks for: `limit` and `cursor`, and the cursor a page answers with. */
module PageRequest {
  import opened Wrappers
  import Base64
  import Cursor
  import Splitting
  import Timestamp
  import TimestampFormat

  datatype Request = BadLimit | BadCursor | Page(limit: nat, cursor: Option<(string, string)>)

  /** `Number(raw)` of a run of digits */
  function NumberOf(s: string): nat
    requires forall i :: 0 <= i < |s| ==> Timestamp.IsDigit(s[i])
  {
    if s == "" then 0 else
      var c := s[|s| - 1];
      assert Timestamp.IsDigit(c);
      10 * NumberOf(s[..|s| - 1]) + Timestamp.Digit(c)
  }

  /** `/^[1-9]\d*$/` */
  predicate PositiveDigits(s: string) {
    s != "" && s[0] != '0' && forall i :: 0 <= i < |s| ==> Timestamp.IsDigit(s[i])
  }

  function Min(a: int, b: int): int {
    if a < b then a else b
  }

  /** `pageOf`; an absent parameter is the empty text. */
  function PageOf(limit: string, cursor: string, dateParse: Cursor.DateParse, parseUuid: string -> Option<string>)
        : Request {
    if limit != "" && !PositiveDigits(limit) then BadLimit else
      var n := if limit == "" then 50 else Min(NumberOf(limit), 100);
      if cursor == "" then Page(n, None) else
        match Cursor.Decode(cursor, dateParse)
        case None => BadCursor
        case Some(c) =>
          match parseUuid(c.id)
          case None => BadCursor
          case Some(id) => Page(n, Some((c.createdAt, id)))
  }

  lemma {:induction false} NumberIsPositive(s: string)
    requires PositiveDigits(s)
    ensures NumberOf(s) >= 1
  {
    if |s| > 1 {
      NumberIsPositive(s[..|s| - 1]);
    }
  }

  lemma {:induction false} DecimalIsRead(n: int)
    requires n >= 0
    ensures forall i :: 0 <= i < |Timestamp.Decimal(n)| ==> Timestamp.IsDigit(Timestamp.Decimal(n)[i])
    ensures NumberOf(Timestamp.Decimal(n)) == n && Timestamp.Decimal(n) != ""
    ensures n > 0 ==> Timestamp.Decimal(n)[0] != '0'
    decreases n
  {
    var t := Timestamp.Decimal(n);
    if n < 10 {
      assert t[..0] == "" && NumberOf("") == 0;
    } else {
      DecimalIsRead(n / 10);
      assert t[..|t| - 1] == Timestamp.Decimal(n / 10);
    }
  }

  lemma {:induction false} PositiveIsDecimal(s: string)
    requires PositiveDigits(s)
    ensures NumberOf(s) >= 1 && Timestamp.Decimal(NumberOf(s)) == s
    decreases |s|
  {
    var less, c := s[..|s| - 1], s[|s| - 1];
    assert s == less + [c];
    assert Timestamp.DigitChar(Timestamp.Digit(c)) == c;
    if |s| == 1 {
      assert less == "";
    } else {
      PositiveIsDecimal(less);
    }
  }

  /**
   The limit of a page: 50 if none is asked for, else the number that is asked
   for in decimal, at most 100; anything but a positive number is refused.
   */
  lemma LimitIsAsAsked(limit: string, cursor: string, dateParse: Cursor.DateParse,
                       parseUuid: string -> Option<string>)
    ensures var r := PageOf(limit, cursor, dateParse, parseUuid);
            && (r.BadLimit? <==> limit != "" && forall n :: n >= 1 ==> limit != Timestamp.Decimal(n))
            && (r.Page? && limit == "" ==> r.limit == 50)
            && forall n :: n >= 1 && r.Page? && limit == Timestamp.Decimal(n) ==>
                 r.limit == if n <= 100 then n else 100
  {
    hide Cursor.Decode;
    forall n | n >= 1 && limit == Timestamp.Decimal(n) ensures PositiveDigits(limit) && NumberOf(limit) == n {
      DecimalIsRead(n);
    }
    if PositiveDigits(limit) {
      PositiveIsDecimal(limit);
    }
  }

  /** A page holds between 1 and 100 rows, whatever was asked for. */
  lemma LimitIsBounded(limit: string, cursor: string, dateParse: Cursor.DateParse, parseUuid: string -> Option<string>)
    ensures var r := PageOf(limit, cursor, dateParse, parseUuid);
            r.Page? ==> 1 <= r.limit <= 100
  {
    hide Cursor.Decode;
    if limit != "" && PositiveDigits(limit) {
      NumberIsPositive(limit);
    }
  }

  /**
   The cursor written for a page's last row leads back to that row: to the same
   instant, to the microsecond, and the same id, for creation times whose UTC
   year has four digits.
   */
  lemma NextCursorLeadsBack(limit: string, createdAt: string, st: Timestamp.Stamp, id: string,
                            dateParse: Cursor.DateParse, parseUuid: string -> Option<string>)
    requires limit == "" || PositiveDigits(limit)
    requires Timestamp.Match(Timestamp.Trim(createdAt)) == Some(st)
    requires 1000 <= Timestamp.UtcYear(Timestamp.Instant(st)) <= 9999
    requires id != "" && Splitting.Without(id, '|') && parseUuid(id) == Some(id)
    requires Cursor.Encode(createdAt, id, None, dateParse).Some?
    ensures var next := Cursor.Encode(createdAt, id, None, dateParse).value;
            var r := PageOf(limit, next, dateParse, parseUuid);
            && r.Page? && r.cursor.Some? && r.cursor.value.1 == id
            && Timestamp.Match(r.cursor.value.0).Some?
            && Timestamp.Instant(Timestamp.Match(r.cursor.value.0).value) == Timestamp.Instant(st)
  {
    var next := Cursor.Encode(createdAt, id, None, dateParse).value;
    var ts := Timestamp.FormatJsonTimestamp(createdAt, dateParse).value;
    CursorIsRead(createdAt, st, id, dateParse);
    hide Cursor.Encode, Cursor.Decode, NumberOf, PositiveDigits, Timestamp.Match, Timestamp.Instant,
        Timestamp.FormatJsonTimestamp;
    TimestampFormat.FormatKeepsTheInstant(createdAt, st, dateParse);
  }

  lemma CursorIsRead(createdAt: string, st: Timestamp.Stamp, id: string, dateParse: Cursor.DateParse)
    requires Timestamp.Match(Timestamp.Trim(createdAt)) == Some(st)
    requires 1000 <= Timestamp.UtcYear(Timestamp.Instant(st)) <= 9999
    requires id != "" && Splitting.Without(id, '|')
    requires Cursor.Encode(createdAt, id, None, dateParse).Some?
    ensures Timestamp.FormatJsonTimestamp(createdAt, dateParse).Some?
    ensures var next := Cursor.Encode(createdAt, id, None, dateParse).value;
            next != "" &&
            Cursor.Decode(next, dateParse) ==
            Some(Cursor.Cursor(Timestamp.FormatJsonTimestamp(createdAt, dateParse).value, id, None))
  {
    hide Cursor.Decode, Cursor.Encode, Timestamp.Match, Timestamp.Instant, Timestamp.UtcYear,
        Timestamp.FormatJsonTimestamp;
    Cursor.CursorOfFourDigitYear(createdAt, st, id, None, dateParse);
    EmptyIsNoCursor(dateParse);
  }

  lemma EmptyIsNoCursor(dateParse: Cursor.DateParse)
    ensures Cursor.Decode("", dateParse).None?
  {
    assert Base64.UrlDecode("") == Some([]);
    assert Base64.Chars([]) == "";
    assert Splitting.Split("", '|') == [""];
  }
}

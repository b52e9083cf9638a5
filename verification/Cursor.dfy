/** Page cursors: `timestamp|id` or `timestamp|id|sort` in URL-safe base64, as core-api and the gateway read them. */
module Cursor {
  import opened Wrappers
  import opened Sequences
  import opened Base64
  import opened Splitting
  import Timestamp
  import TimestampFormat

  type DateParse = string -> Option<int>

  datatype Cursor = Cursor(createdAt: string, id: string, sort: Option<string>)

  function Raw(ts: string, id: string, sort: Option<string>): string {
    if sort.Some? && sort.value != "" then ts + "|" + id + "|" + sort.value else ts + "|" + id
  }

  /** None is a throw: no timestamp, or a character `btoa` refuses. */
  function Encode(createdAt: string, id: string, sort: Option<string>, dateParse: DateParse): Option<string> {
    match Timestamp.FormatJsonTimestamp(createdAt, dateParse)
    case None => None
    case Some(ts) =>
      var raw := Raw(ts, id, sort);
      if Binary(raw) then Some(UrlEncode(Bytes(raw))) else None
  }

  predicate IsSort(s: string) {
    s == "relevance" || s == "latest"
  }

  function ReadRaw(raw: string, dateParse: DateParse): Option<Cursor> {
    var parts := Split(raw, '|');
    if |parts| < 2 || |parts| > 3 || parts[0] == "" || parts[1] == "" then None
    else if |parts| == 3 && !IsSort(parts[2]) then None
    else if Timestamp.ParseUtc(parts[0], dateParse).None? then None
    else Some(Cursor(parts[0], parts[1], if |parts| == 3 then Some(parts[2]) else None))
  }

  /** `decodeCursor` of core-api */
  function Decode(s: string, dateParse: DateParse): Option<Cursor> {
    match UrlDecode(s)
    case None => None
    case Some(bs) => ReadRaw(Chars(bs), dateParse)
  }

  function ReadRawAtBar(raw: string, dateParse: DateParse): Option<(string, string)> {
    var i := First(raw, '|');
    if i == |raw| || i == 0 || raw[i + 1..] == "" then None
    else if Timestamp.ParseUtc(raw[..i], dateParse).None? then None
    else Some((raw[..i], raw[i + 1..]))
  }

  /** `decodeCursor` of the gateway */
  function GatewayDecode(s: string, dateParse: DateParse): Option<(string, string)> {
    match UrlDecode(s)
    case None => None
    case Some(bs) => ReadRawAtBar(Chars(bs), dateParse)
  }

  // ----- the round trip

  lemma {:induction false} DecimalIsPlain(n: int)
    ensures Timestamp.Decimal(n) != "" && Without(Timestamp.Decimal(n), '|') && Binary(Timestamp.Decimal(n))
    decreases n < 0, if n < 0 then -n else n
  {
    if n < 0 {
      DecimalIsPlain(-n);
    } else if n >= 10 {
      DecimalIsPlain(n / 10);
    }
  }

  /** A written timestamp holds no bar and only what `btoa` takes. */
  lemma FormatIsPlain(p: Timestamp.Parts)
    requires Timestamp.InRange(p)
    ensures var ts := Timestamp.Format(p); ts != "" && Without(ts, '|') && Binary(ts)
  {
    DecimalIsPlain(p.y);
    var head, rest := Timestamp.AfterYear(p), Timestamp.Fraction(p.micros);
    hide Timestamp.Decimal;
    assert Without(head, '|') && Binary(head);
    assert Without(rest, '|') && Binary(rest);
  }

  lemma TimestampIsPlain(createdAt: string, dateParse: DateParse)
    ensures var ts := Timestamp.FormatJsonTimestamp(createdAt, dateParse);
            ts.Some? ==> ts.value != "" && Without(ts.value, '|') && Binary(ts.value)
  {
    var p := Timestamp.ParseUtc(createdAt, dateParse);
    if p.Some? {
      FormatIsPlain(p.value);
    }
  }

  lemma UrlBytes(raw: string)
    requires Binary(raw)
    ensures UrlDecode(UrlEncode(Bytes(raw))).Some?
    ensures Chars(UrlDecode(UrlEncode(Bytes(raw))).value) == raw
  {
    UrlRoundTrip(Bytes(raw));
    hide UrlDecode, UrlEncode;
    assert Chars(Bytes(raw)) == raw;
  }

  predicate HasSort(sort: Option<string>) {
    sort.Some? && sort.value != ""
  }

  lemma RawSplits(ts: string, id: string, sort: Option<string>)
    requires Without(ts, '|')
    ensures Without(id, '|') ==>
              Split(Raw(ts, id, sort), '|') ==
              if HasSort(sort) then [ts] + ([id] + Split(sort.value, '|')) else [ts, id]
    ensures |Split(Raw(ts, id, sort), '|')| >= 2 && Split(Raw(ts, id, sort), '|')[0] == ts
  {
    hide Split, Without;
    if HasSort(sort) {
      var tail := id + "|" + sort.value;
      assert Raw(ts, id, sort) == ts + "|" + tail;
      SplitAt(ts, '|', tail);
      if Without(id, '|') {
        SplitAt(id, '|', sort.value);
      }
    } else {
      SplitAt(ts, '|', id);
      SplitOne(id, '|');
    }
  }

  lemma SortsHaveNoBar(s: string)
    ensures IsSort(s) ==> Without(s, '|')
  {
  }

  lemma ReadsBack(ts: string, id: string, sort: Option<string>, dateParse: DateParse)
    requires ts != "" && Without(ts, '|')
    ensures ReadRaw(Raw(ts, id, sort), dateParse) == Some(Cursor(ts, id, sort)) <==>
              && id != "" && Without(id, '|') && (sort.Some? ==> IsSort(sort.value))
              && Timestamp.ParseUtc(ts, dateParse).Some?
  {
    var raw := Raw(ts, id, sort);
    RawSplits(ts, id, sort);
    PartsAreWithout(raw, '|');
    if HasSort(sort) {
      SplitOne(sort.value, '|');
      SortsHaveNoBar(sort.value);
    }
    hide Timestamp.ParseUtc, Split, Raw, Without;
  }

  /**
   A cursor is base64url of `timestamp|id`, or of `timestamp|id|sort` for a sort
   that is not empty; it can be written exactly when the creation time can and
   no character is past the 255th.
   */
  lemma CursorIsWritten(createdAt: string, id: string, sort: Option<string>, dateParse: DateParse)
    ensures var ts := Timestamp.FormatJsonTimestamp(createdAt, dateParse);
            var more := if sort.None? || sort.value == "" then "" else "|" + sort.value;
            && (Encode(createdAt, id, sort, dateParse).Some? <==>
                  ts.Some? && forall c :: c in id + more ==> c as int <= 255)
            && (Encode(createdAt, id, sort, dateParse).Some? ==>
                  Binary(ts.value + "|" + id + more) &&
                  Encode(createdAt, id, sort, dateParse) == Some(UrlEncode(Bytes(ts.value + "|" + id + more))))
  {
    var ts := Timestamp.FormatJsonTimestamp(createdAt, dateParse);
    TimestampIsPlain(createdAt, dateParse);
    hide Timestamp.FormatJsonTimestamp, UrlEncode;
    if ts.Some? {
      var more := if sort.None? || sort.value == "" then "" else "|" + sort.value;
      assert ts.value + "|" + id + more == Raw(ts.value, id, sort) by {
        if more == "" {
          assert ts.value + "|" + id + more == ts.value + "|" + id;
        } else {
          Regroup(ts.value + "|" + id, "|", sort.value);
        }
      }
      hide Raw;
      Regroup(ts.value + "|", id, more);
      BinaryBehindBar(ts.value, id + more);
    }
  }

  lemma BinaryBehindBar(ts: string, tail: string)
    requires Binary(ts)
    ensures Binary(ts + "|" + tail) <==> forall c :: c in tail ==> c as int <= 255
  {
    var raw, n := ts + "|" + tail, |ts| + 1;
    assert forall i :: 0 <= i < |tail| ==> raw[n + i] == tail[i];
    if forall c :: c in tail ==> c as int <= 255 {
      forall i | 0 <= i < |raw| ensures raw[i] as int < 256 {
        if i >= n {
          assert raw[i] == tail[i - n] && tail[i - n] in tail;
        } else if i < |ts| {
          assert raw[i] == ts[i];
        }
      }
    }
  }

  /**
   What was encoded is decoded: the formatted timestamp, the id and the sort,
   exactly when the id is neither empty nor holds a bar, the sort is absent or
   one of the two, and the timestamp can be parsed again.
   */
  lemma CursorRoundTrip(createdAt: string, id: string, sort: Option<string>, dateParse: DateParse)
    ensures var ts := Timestamp.FormatJsonTimestamp(createdAt, dateParse);
            var cursor := Encode(createdAt, id, sort, dateParse);
            cursor.Some? ==>
              ts.Some? &&
              (Decode(cursor.value, dateParse) == Some(Cursor(ts.value, id, sort))
               <==> id != "" && '|' !in id && sort in {None, Some("relevance"), Some("latest")}
                    && Timestamp.ParseUtc(ts.value, dateParse).Some?)
  {
    if Encode(createdAt, id, sort, dateParse).Some? {
      var ts := Timestamp.FormatJsonTimestamp(createdAt, dateParse).value;
      var raw := Raw(ts, id, sort);
      TimestampIsPlain(createdAt, dateParse);
      hide Timestamp.FormatJsonTimestamp, Timestamp.ParseUtc, UrlEncode, UrlDecode, ReadRaw, Raw, Without;
      UrlBytes(raw);
      ReadsBack(ts, id, sort, dateParse);
    }
  }

  lemma FormattedParses(createdAt: string, st: Timestamp.Stamp, dateParse: DateParse)
    requires Timestamp.Match(Timestamp.Trim(createdAt)) == Some(st)
    requires 1000 <= Timestamp.UtcYear(Timestamp.Instant(TimestampFormat.AsRead(st))) <= 9999
    ensures Timestamp.FormatJsonTimestamp(createdAt, dateParse).Some?
    ensures Timestamp.ParseUtc(Timestamp.FormatJsonTimestamp(createdAt, dateParse).value, dateParse).Some?
  {
    TimestampFormat.FormatIsIdempotent(createdAt, st, dateParse);
    hide Timestamp.Match, Timestamp.ParseUtc;
  }

  /** For creation times whose UTC year has four digits that is: exactly when the id and the sort allow it. */
  lemma CursorOfFourDigitYear(createdAt: string, st: Timestamp.Stamp, id: string, sort: Option<string>,
                              dateParse: DateParse)
    requires Timestamp.Match(Timestamp.Trim(createdAt)) == Some(st)
    requires 1000 <= Timestamp.UtcYear(Timestamp.Instant(st)) <= 9999
    ensures var ts := Timestamp.FormatJsonTimestamp(createdAt, dateParse);
            var cursor := Encode(createdAt, id, sort, dateParse);
            && ts.Some?
            && (cursor.Some? ==>
                  (Decode(cursor.value, dateParse) == Some(Cursor(ts.value, id, sort))
                   <==> id != "" && '|' !in id && sort in {None, Some("relevance"), Some("latest")}))
  {
    TimestampFormat.FormatKeepsTheInstant(createdAt, st, dateParse);
    TimestampFormat.FormatIsIdempotent(createdAt, st, dateParse);
    hide TimestampFormat.AsRead, Timestamp.Match, Timestamp.Instant, Timestamp.UtcYear,
         Timestamp.FormatJsonTimestamp, Timestamp.ParseUtc, Encode, Decode, Without, IsSort;
    FormattedParses(createdAt, st, dateParse);
    CursorRoundTrip(createdAt, id, sort, dateParse);
  }

  /** Encoding what was decoded gives the same cursor again. */
  lemma ReencodesTheSame(createdAt: string, st: Timestamp.Stamp, id: string, sort: Option<string>, dateParse: DateParse)
    requires Timestamp.Match(Timestamp.Trim(createdAt)) == Some(st)
    requires 1000 <= Timestamp.UtcYear(Timestamp.Instant(TimestampFormat.AsRead(st))) <= 9999
    ensures Timestamp.FormatJsonTimestamp(createdAt, dateParse).Some?
    ensures var ts := Timestamp.FormatJsonTimestamp(createdAt, dateParse).value;
            Encode(ts, id, sort, dateParse) == Encode(createdAt, id, sort, dateParse)
  {
    TimestampFormat.FormatIsIdempotent(createdAt, st, dateParse);
  }

  lemma ReadersAgree(raw: string, dateParse: DateParse, createdAt: string, id: string)
    ensures ReadRaw(raw, dateParse) == Some(Cursor(createdAt, id, None))
            <==> ReadRawAtBar(raw, dateParse) == Some((createdAt, id)) && Without(id, '|')
  {
    var i := First(raw, '|');
    SplitAtFirst(raw, '|');
    hide Timestamp.ParseUtc, Split, First, Without;
    if i < |raw| {
      SplitOne(raw[i + 1..], '|');
    }
  }

  /**
   For every text: the gateway reads a cursor without a bar in its id exactly when core-api
   reads one without a sort.
   */
  lemma DecodersAgree(s: string, dateParse: DateParse, createdAt: string, id: string)
    ensures Decode(s, dateParse) == Some(Cursor(createdAt, id, None))
            <==> GatewayDecode(s, dateParse) == Some((createdAt, id)) && Without(id, '|')
  {
    hide UrlDecode, ReadRaw, ReadRawAtBar, Without;
    if UrlDecode(s).Some? {
      ReadersAgree(Chars(UrlDecode(s).value), dateParse, createdAt, id);
    }
  }

  /** A cursor with a sort is taken by the gateway too, with the sort left in the id. */
  lemma GatewayKeepsTheSort(s: string, dateParse: DateParse, c: Cursor)
    requires Decode(s, dateParse) == Some(c) && c.sort.Some?
    ensures GatewayDecode(s, dateParse) == Some((c.createdAt, c.id + "|" + c.sort.value))
  {
    hide Timestamp.ParseUtc, UrlDecode, Split, First, Without;
    var raw := Chars(UrlDecode(s).value);
    var i := First(raw, '|');
    SplitAtFirst(raw, '|');
    var rest := raw[i + 1..];
    SplitAtFirst(rest, '|');
    var j := First(rest, '|');
    Rejoined(rest, j);
    SplitOne(rest[j + 1..], '|');
  }
}

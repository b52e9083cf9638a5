/**
 The pending-signup token: claims in JSON and their HMAC, both in URL-safe base64, joined by a
 dot. The HMAC and the JSON codec are parameters.
 */
module PendingSignup {
  import opened Wrappers
  import opened Base64
  import opened Splitting
  import Timestamp
  import opened TimestampText

  const TTL_SEC := 900

  type Mac = (string, seq<byte>) -> seq<byte>

  datatype Claims = Claims(provider: string, subject: string, email: Option<string>, exp: int)

  /** A field of the parsed payload; anything but a text, a number or null is Other. */
  datatype Field = Absent | Null | Text(s: string) | Number(n: real) | Other

  datatype Fields = Fields(v: Field, provider: Field, subject: Field, email: Field, exp: Field)

  datatype Accepted = Accepted(provider: string, subject: string, email: Option<string>, exp: real)

  datatype Outcome = NotConfigured | Unauthenticated | Expired | Read(claims: Accepted)

  /** Both directions of JSON; parsing may fail. */
  datatype Codec = Codec(stringify: Claims -> seq<byte>, parse: seq<byte> -> Option<Fields>)

  function FieldsOf(c: Claims): Fields {
    var email := if c.email.Some? then Text(c.email.value) else Null;
    Fields(Number(1.0), Text(c.provider), Text(c.subject), email, Number(c.exp as real))
  }

  // ----- base64url, as this file spells it

  /** `replaceAll("=", "")` */
  function NoEquals(s: string): string {
    if s == "" then "" else (if s[0] == '=' then "" else [s[0]]) + NoEquals(s[1..])
  }

  lemma {:induction false} NoEqualsDropsFill(s: string, n: nat)
    requires Without(s, '=')
    ensures NoEquals(s + Repeat('=', n)) == s
    decreases |s|, n
  {
    var t := s + Repeat('=', n);
    if s != "" {
      assert Without(s[1..], '=') by {
        assert forall i :: 0 <= i < |s| - 1 ==> s[1..][i] == s[i + 1];
      }
      NoEqualsDropsFill(s[1..], n);
      assert t[0] == s[0] && t[1..] == s[1..] + Repeat('=', n);
    } else if n > 0 {
      NoEqualsDropsFill(s, n - 1);
      assert t[0] == '=' && t[1..] == s + Repeat('=', n - 1);
    }
  }

  /** Dropping every `=` is dropping the trailing ones: `btoa` writes none elsewhere. */
  lemma NoEqualsIsUnpadded(bs: seq<byte>)
    ensures NoEquals(Map(ToUrl, Btoa(bs))) == UrlEncode(bs)
  {
    BtoaIsLettersAndFill(bs);
    UrlEncodeIsLetters(bs);
    hide Letters, Btoa, UrlEncode, NoEquals;
    var s := Letters(bs);
    assert Map(ToUrl, s + Fill(|s|)) == Map(ToUrl, s) + Fill(|s|);
    NoEqualsDropsFill(Map(ToUrl, s), |Fill(|s|)|);
  }

  /** `b64url` */
  method ToB64Url(bytes: seq<byte>) returns (s: string)
    ensures s == UrlEncode(bytes)
  {
    var bin := "";
    for i := 0 to |bytes|
      invariant |bin| == i && forall k :: 0 <= k < i ==> bin[k] == bytes[k] as char
    {
      bin := bin + [bytes[i] as char];
    }
    assert Bytes(bin) == bytes;
    NoEqualsIsUnpadded(bytes);
    s := NoEquals(Map(ToUrl, Btoa(Bytes(bin))));
  }

  /** `/^[A-Za-z0-9+/]+={0,2}$/` */
  predicate Base64Shape(s: string) {
    exists n :: 0 <= n <= 2 && n < |s| && AllLetters(s[..|s| - n]) && s[|s| - n..] == Repeat('=', n)
  }

  function FromUrlText(value: string): Option<seq<byte>> {
    if Base64Shape(Refilled(value)) then Atob(Refilled(value)) else None
  }

  /** `fromB64url`, null where the text is not base64url */
  method FromB64Url(value: string) returns (bytes: array?<byte>)
    ensures bytes != null <==> FromUrlText(value).Some?
    ensures bytes != null ==> bytes[..] == FromUrlText(value).value
  {
    hide Atob, Base64Shape, Refilled;
    var raw := Refilled(value);
    if !Base64Shape(raw) {
      return null;
    }
    var decoded := Atob(raw);
    if decoded.None? {
      return null;
    }
    var bin := Chars(decoded.value);
    bytes := new byte[|bin|];
    for i := 0 to |bin|
      invariant forall k :: 0 <= k < i ==> bytes[k] == decoded.value[k]
    {
      bytes[i] := bin[i] as int;
    }
  }

  lemma UrlTextRoundTrip(bs: seq<byte>)
    requires bs != []
    ensures FromUrlText(UrlEncode(bs)) == Some(bs)
  {
    UrlRoundTrip(bs);
    RefillRestores(bs);
    BtoaIsLettersAndFill(bs);
    UrlAlphabet(bs);
    UrlEncodeIsLetters(bs);
    hide Letters, Btoa, UrlEncode, Refilled, Atob;
    var s := Letters(bs);
    var n := |Fill(|s|)|;
    var raw := s + Fill(|s|);
    assert raw[..|raw| - n] == s && raw[|raw| - n..] == Repeat('=', n);
  }

  // ----- comparing the MACs

  /** `x ^ y`, bit by bit */
  function Xor(x: nat, y: nat): nat {
    if x == 0 && y == 0 then 0 else (x % 2 + y % 2) % 2 + 2 * Xor(x / 2, y / 2)
  }

  /** `x | y`, bit by bit */
  function Or(x: nat, y: nat): nat {
    if x == 0 && y == 0 then 0 else (if x % 2 == 1 || y % 2 == 1 then 1 else 0) + 2 * Or(x / 2, y / 2)
  }

  lemma {:induction false} XorIsZero(x: nat, y: nat)
    ensures Xor(x, y) == 0 <==> x == y
  {
    if x != 0 || y != 0 {
      XorIsZero(x / 2, y / 2);
      assert x == x / 2 * 2 + x % 2 && y == y / 2 * 2 + y % 2;
    }
  }

  lemma {:induction false} OrIsZero(x: nat, y: nat)
    ensures Or(x, y) == 0 <==> x == 0 && y == 0
  {
    if x != 0 || y != 0 {
      OrIsZero(x / 2, y / 2);
      assert x == x / 2 * 2 + x % 2 && y == y / 2 * 2 + y % 2;
    }
  }

  /** `same`: every byte is looked at, and the answer is whether the arrays are equal. */
  method Same(a: array<byte>, b: array<byte>) returns (same: bool)
    ensures same <==> a[..] == b[..]
  {
    if a.Length != b.Length {
      return false;
    }
    hide Xor, Or;
    var diff: nat := 0;
    for i := 0 to a.Length
      invariant diff == 0 <==> forall k :: 0 <= k < i ==> a[k] == b[k]
    {
      XorIsZero(a[i], b[i]);
      OrIsZero(diff, Xor(a[i], b[i]));
      diff := Or(diff, Xor(a[i], b[i]));
    }
    same := diff == 0;
  }

  // ----- signing and reading

  /** `secretOf`, None for a secret that is missing or blank */
  function SecretOf(setting: Option<string>): Option<string> {
    if setting.None? || Timestamp.Trim(setting.value) == "" then None else Some(Timestamp.Trim(setting.value))
  }

  /**
   Signing and reading are not configured exactly where the setting is missing
   or blank; else the secret is what stands in it between the blanks.
   */
  lemma SecretIsTheSetting(setting: Option<string>, secret: string)
    ensures SecretOf(setting).None? <==> setting.None? || Blank(setting.value)
    ensures SecretOf(setting) == Some(secret) <==> setting.Some? && Between(setting.value, secret)
  {
    if setting.Some? {
      TrimIsEmptyIff(setting.value);
      TrimIsBetween(setting.value, secret);
    }
  }

  function ClaimsAt(provider: string, subject: string, email: Option<string>, nowMs: int): Claims {
    Claims(provider, subject, email, nowMs / 1000 + TTL_SEC)
  }

  function Token(secret: string, payload: seq<byte>, mac: Mac): string {
    UrlEncode(payload) + "." + UrlEncode(mac(secret, payload))
  }

  /** `signPendingSignup`; None without a secret. */
  function Sign(setting: Option<string>, provider: string, subject: string, email: Option<string>, nowMs: int,
                mac: Mac, codec: Codec): Option<string> {
    var payload := codec.stringify(ClaimsAt(provider, subject, email, nowMs));
    match SecretOf(setting)
    case None => None
    case Some(secret) => Some(Token(secret, payload, mac))
  }

  method SignPendingSignup(setting: Option<string>, provider: string, subject: string, email: Option<string>,
                           nowMs: int, mac: Mac, codec: Codec) returns (token: Option<string>)
    ensures token == Sign(setting, provider, subject, email, nowMs, mac, codec)
  {
    var payload := codec.stringify(ClaimsAt(provider, subject, email, nowMs));
    var secret := SecretOf(setting);
    if secret.None? {
      return None;
    }
    var head := ToB64Url(payload);
    var tail := ToB64Url(mac(secret.value, payload));
    return Some(head + "." + tail);
  }

  /** The checks on a payload whose MAC is right, in the order they are made. */
  function ReadFields(f: Fields, nowMs: int): Outcome {
    if f.v != Number(1.0) || !f.provider.Text? || f.provider.s == "" || f.provider.s == "phone" then Unauthenticated
    else if !f.subject.Text? || f.subject.s == "" || !f.exp.Number? then Unauthenticated
    else if f.email != Absent && f.email != Null && !f.email.Text? then Unauthenticated
    else if f.exp.n * 1000.0 <= nowMs as real then Expired
    else Read(Accepted(f.provider.s, f.subject.s, if f.email.Text? then Some(f.email.s) else None, f.exp.n))
  }

  function ReadPayload(payload: seq<byte>, nowMs: int, codec: Codec): Outcome {
    match codec.parse(payload)
    case None => Unauthenticated
    case Some(fields) => ReadFields(fields, nowMs)
  }

  /** The payload and the MAC a token carries. */
  function PartsOf(token: string): Option<(seq<byte>, seq<byte>)> {
    var parts := Split(token, '.');
    if |parts| != 2 || parts[0] == "" || parts[1] == "" then None else
      var payload, mac := FromUrlText(parts[0]), FromUrlText(parts[1]);
      if payload.None? || mac.None? then None else Some((payload.value, mac.value))
  }

  function ReadToken(setting: Option<string>, token: string, nowMs: int, mac: Mac, codec: Codec): Outcome {
    match SecretOf(setting)
    case None => NotConfigured
    case Some(secret) =>
      match PartsOf(token)
      case None => Unauthenticated
      case Some((payload, signature)) =>
        if signature != mac(secret, payload) then Unauthenticated else ReadPayload(payload, nowMs, codec)
  }

  /** `readPendingSignup` */
  method ReadPendingSignup(setting: Option<string>, token: string, nowMs: int, mac: Mac, codec: Codec)
        returns (r: Outcome)
    ensures r == ReadToken(setting, token, nowMs, mac, codec)
  {
    hide SecretOf, FromUrlText, Split, ReadPayload;
    var secret := SecretOf(setting);
    if secret.None? {
      return NotConfigured;
    }
    var parts := Split(token, '.');
    if |parts| != 2 || parts[0] == "" || parts[1] == "" {
      return Unauthenticated;
    }
    var payload := FromB64Url(parts[0]);
    var signature := FromB64Url(parts[1]);
    if payload == null || signature == null {
      return Unauthenticated;
    }
    var bytes := payload[..];
    var computed := mac(secret.value, bytes);
    var expected := new byte[|computed|](i requires 0 <= i < |computed| => computed[i]);
    assert expected[..] == computed;
    var same := Same(signature, expected);
    if !same {
      return Unauthenticated;
    }
    return ReadPayload(bytes, nowMs, codec);
  }

  // ----- what a token is worth

  /** The two base64url texts of a token, of which neither holds a dot. */
  lemma TokenSplits(secret: string, payload: seq<byte>, mac: Mac)
    ensures Split(Token(secret, payload, mac), '.') == [UrlEncode(payload), UrlEncode(mac(secret, payload))]
  {
    var signature := mac(secret, payload);
    var head, tail := UrlEncode(payload), UrlEncode(signature);
    UrlAlphabet(payload);
    UrlAlphabet(signature);
    hide UrlEncode, Split;
    assert Without(head, '.') && Without(tail, '.');
    SplitAt(head, '.', tail);
    SplitOne(tail, '.');
  }

  lemma PartsOfToken(secret: string, payload: seq<byte>, mac: Mac)
    requires payload != [] && mac(secret, payload) != []
    ensures PartsOf(Token(secret, payload, mac)) == Some((payload, mac(secret, payload)))
  {
    var signature := mac(secret, payload);
    hide UrlEncode, FromUrlText, Split, Token;
    UrlAlphabet(payload);
    UrlAlphabet(signature);
    UrlTextRoundTrip(payload);
    UrlTextRoundTrip(signature);
    TokenSplits(secret, payload, mac);
  }

  /** A token read with another secret, or the same one, is refused unless the MACs agree. */
  lemma OnlyTheSecretReads(setting: Option<string>, secret: string, payload: seq<byte>, nowMs: int, mac: Mac,
                           codec: Codec)
    requires payload != [] && mac(secret, payload) != [] && SecretOf(setting).Some?
    ensures ReadToken(setting, Token(secret, payload, mac), nowMs, mac, codec) ==
            if mac(SecretOf(setting).value, payload) == mac(secret, payload) then ReadPayload(payload, nowMs, codec)
            else Unauthenticated
  {
    PartsOfToken(secret, payload, mac);
    hide PartsOf, Token, SecretOf;
  }

  /**
   What reading a signed token gives, for every input and every time: an empty
   provider or subject, or the provider "phone", is signed but never read back;
   everything else is read back as signed before `exp` and has expired from then on.
   */
  lemma SignedTokensAreRead(setting: Option<string>, provider: string, subject: string, email: Option<string>,
                            signedMs: int, nowMs: int, mac: Mac, codec: Codec)
    requires SecretOf(setting).Some?
    requires var claims := ClaimsAt(provider, subject, email, signedMs);
             var payload := codec.stringify(claims);
             payload != [] && codec.parse(payload) == Some(FieldsOf(claims))
                 && mac(SecretOf(setting).value, payload) != []
    ensures var claims := ClaimsAt(provider, subject, email, signedMs);
            var token := Sign(setting, provider, subject, email, signedMs, mac, codec);
            token.Some? &&
            ReadToken(setting, token.value, nowMs, mac, codec) ==
            if provider == "" || provider == "phone" || subject == "" then Unauthenticated
            else if nowMs >= claims.exp * 1000 then Expired
            else Read(Accepted(provider, subject, email, claims.exp as real))
  {
    var claims := ClaimsAt(provider, subject, email, signedMs);
    var payload := codec.stringify(claims);
    OnlyTheSecretReads(setting, SecretOf(setting).value, payload, nowMs, mac, codec);
    hide ReadToken, SecretOf, Token;
    assert claims.exp as real * 1000.0 == (claims.exp * 1000) as real;
  }

  /** A token lives between 899001 and 900000 milliseconds. */
  lemma Lifetime(provider: string, subject: string, email: Option<string>, nowMs: int)
    ensures 899001 <= ClaimsAt(provider, subject, email, nowMs).exp * 1000 - nowMs <= 900000
  {
    assert nowMs == nowMs / 1000 * 1000 + nowMs % 1000;
  }

  /**
   Whatever is read was signed: the token carries the MAC of the payload the claims come
   from, and is not yet expired.
   */
  lemma ReadMeansSigned(setting: Option<string>, token: string, nowMs: int, mac: Mac, codec: Codec)
    requires ReadToken(setting, token, nowMs, mac, codec).Read?
    ensures SecretOf(setting).Some? && PartsOf(token).Some?
    ensures var (payload, signature) := PartsOf(token).value;
            var c := ReadToken(setting, token, nowMs, mac, codec).claims;
            && signature == mac(SecretOf(setting).value, payload)
            && codec.parse(payload).Some?
            && codec.parse(payload).value.(email := Absent) ==
               Fields(Number(1.0), Text(c.provider), Text(c.subject), Absent, Number(c.exp))
            && codec.parse(payload).value.email in
               (if c.email.Some? then {Text(c.email.value)} else {Absent, Null})
            && c.provider != "" && c.provider != "phone" && c.subject != ""
            && nowMs as real < c.exp * 1000.0
  {
    hide PartsOf, SecretOf;
  }
}

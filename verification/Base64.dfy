/** `btoa`, `atob` and the URL-safe form without padding (sections 4 and 5 of RFC 4648). */
module Base64 {
  import opened Arithmetic
  import opened Wrappers
  import opened Sequences

  type byte = x: int | 0 <= x < 256

  /** The characters `btoa` takes. */
  predicate Binary(s: string) {
    forall i :: 0 <= i < |s| ==> s[i] as int < 256
  }

  function Bytes(s: string): (bs: seq<byte>)
    requires Binary(s)
    ensures |bs| == |s| && forall i :: 0 <= i < |s| ==> bs[i] == s[i] as int
  {
    if s == "" then [] else assert Binary(s[1..]); [s[0] as int] + Bytes(s[1..])
  }

  function Chars(bs: seq<byte>): (s: string)
    ensures |s| == |bs| && forall i :: 0 <= i < |bs| ==> s[i] == bs[i] as char
  {
    if bs == [] then "" else [bs[0] as char] + Chars(bs[1..])
  }

  predicate InAlphabet(c: char) {
    'A' <= c <= 'Z' || 'a' <= c <= 'z' || '0' <= c <= '9' || c == '+' || c == '/'
  }

  function CharOf(v: int): (c: char)
    requires 0 <= v < 64
    ensures InAlphabet(c) && ValueOf(c) == v
  {
    if v < 26 then 'A' + v as char
    else if v < 52 then 'a' + (v - 26) as char
    else if v < 62 then '0' + (v - 52) as char
    else if v == 62 then '+' else '/'
  }

  function ValueOf(c: char): (v: int)
    requires InAlphabet(c)
    ensures 0 <= v < 64
  {
    if 'A' <= c <= 'Z' then (c - 'A') as int
    else if 'a' <= c <= 'z' then (c - 'a') as int + 26
    else if '0' <= c <= '9' then (c - '0') as int + 52
    else if c == '+' then 62 else 63
  }

  /** The letters of one, two or three bytes. */
  function One(a: byte): string {
    [CharOf(a / 4), CharOf(a % 4 * 16)]
  }

  function Two(a: byte, b: byte): string {
    [CharOf(a / 4), CharOf(a % 4 * 16 + b / 16), CharOf(b % 16 * 4)]
  }

  function Three(a: byte, b: byte, c: byte): string {
    [CharOf(a / 4), CharOf(a % 4 * 16 + b / 16), CharOf(b % 16 * 4 + c / 64), CharOf(c % 64)]
  }

  /** `btoa` on the bytes of a binary string. */
  function Btoa(bs: seq<byte>): string {
    if bs == [] then ""
    else if |bs| == 1 then One(bs[0]) + "=="
    else if |bs| == 2 then Two(bs[0], bs[1]) + "="
    else Three(bs[0], bs[1], bs[2]) + Btoa(bs[3..])
  }

  predicate IsSpace(c: char) {
    c == ' ' || c == '\t' || c == '\n' || c == '\r' || c == '\U{C}'
  }

  function NoSpace(s: string): string {
    if s == "" then "" else if IsSpace(s[0]) then NoSpace(s[1..]) else [s[0]] + NoSpace(s[1..])
  }

  /** At most two `=` go from the end of a text whose length is a multiple of four. */
  function NoPadding(s: string): string {
    if |s| % 4 != 0 || s == "" || s[|s| - 1] != '=' then s
    else if s[|s| - 2] != '=' then s[..|s| - 1]
    else s[..|s| - 2]
  }

  /** The groups of four, then two or three letters whose spare bits are dropped. */
  function Decoded(s: string): Option<seq<byte>> {
    if s == "" then Some([])
    else if |s| == 1 || !InAlphabet(s[0]) || !InAlphabet(s[1]) then None
    else
      var a, b := ValueOf(s[0]), ValueOf(s[1]);
      if |s| == 2 then Some([a * 4 + b / 16])
      else if !InAlphabet(s[2]) then None
      else
        var c := ValueOf(s[2]);
        if |s| == 3 then Some([a * 4 + b / 16, b % 16 * 16 + c / 4])
        else if !InAlphabet(s[3]) then None
        else
          var rest := Decoded(s[4..]);
          if rest.None? then None
          else Some([a * 4 + b / 16, b % 16 * 16 + c / 4, c % 4 * 64 + ValueOf(s[3])] + rest.value)
  }

  /** `atob` */
  function Atob(s: string): Option<seq<byte>> {
    Decoded(NoPadding(NoSpace(s)))
  }

  function ToUrl(c: char): char {
    if c == '+' then '-' else if c == '/' then '_' else c
  }

  function FromUrl(c: char): char {
    if c == '-' then '+' else if c == '_' then '/' else c
  }

  function Map(f: char -> char, s: string): (r: string)
    ensures |r| == |s| && forall i :: 0 <= i < |s| ==> r[i] == f(s[i])
  {
    if s == "" then "" else [f(s[0])] + Map(f, s[1..])
  }

  /** `replace(/=+$/, "")` */
  function Unpadded(s: string): string {
    if s != "" && s[|s| - 1] == '=' then Unpadded(s[..|s| - 1]) else s
  }

  function Repeat(c: char, n: nat): (r: string)
    ensures |r| == n && forall i :: 0 <= i < n ==> r[i] == c
  {
    if n == 0 then "" else [c] + Repeat(c, n - 1)
  }

  /** How a cursor or a token part is written. */
  function UrlEncode(bs: seq<byte>): string {
    Unpadded(Map(ToUrl, Btoa(bs)))
  }

  /** The text handed to `atob`: the two letters put back and the length filled up to a multiple of four. */
  function Refilled(s: string): string {
    Map(FromUrl, s) + Fill(|s|)
  }

  /** `"=".repeat((4 - (length % 4)) % 4)` */
  function Fill(length: nat): string {
    Repeat('=', (4 - length % 4) % 4)
  }

  function UrlDecode(s: string): Option<seq<byte>> {
    Atob(Refilled(s))
  }

  // ----- the letters without the padding

  function Letters(bs: seq<byte>): string {
    if bs == [] then ""
    else if |bs| == 1 then One(bs[0])
    else if |bs| == 2 then Two(bs[0], bs[1])
    else Three(bs[0], bs[1], bs[2]) + Letters(bs[3..])
  }

  predicate AllLetters(s: string) {
    forall i :: 0 <= i < |s| ==> InAlphabet(s[i])
  }

  lemma LettersAlphabet(a: byte, b: byte, c: byte)
    ensures AllLetters(One(a)) && AllLetters(Two(a, b)) && AllLetters(Three(a, b, c))
    ensures |One(a)| == 2 && |Two(a, b)| == 3 && |Three(a, b, c)| == 4
  {
  }

  lemma FillsOf()
    ensures Fill(0) == "" && Fill(2) == "==" && Fill(3) == "="
  {
  }

  /** `btoa` is the letters, filled up with `=` to a multiple of four. */
  lemma {:induction false} BtoaIsLettersAndFill(bs: seq<byte>)
    ensures var s := Letters(bs);
            AllLetters(s) && |s| % 4 != 1 && Btoa(bs) == s + Fill(|s|)
  {
    hide One, Two, Three, CharOf, InAlphabet, Repeat;
    FillsOf();
    if |bs| == 1 {
      LettersAlphabet(bs[0], 0, 0);
    } else if |bs| == 2 {
      LettersAlphabet(bs[0], bs[1], 0);
    } else if bs != [] {
      BtoaIsLettersAndFill(bs[3..]);
      LettersAlphabet(bs[0], bs[1], bs[2]);
      var head, s := Three(bs[0], bs[1], bs[2]), Letters(bs[3..]);
      assert Letters(bs) == head + s && |head + s| % 4 == |s| % 4;
      Regroup(head, s, Fill(|s|));
    }
  }

  lemma BitsOfOne(a: byte)
    ensures a / 4 * 4 + a % 4 * 16 / 16 == a
  {
  }

  lemma BitsOfTwo(a: byte, b: byte)
    ensures a / 4 * 4 + (a % 4 * 16 + b / 16) / 16 == a
    ensures (a % 4 * 16 + b / 16) % 16 * 16 + b % 16 * 4 / 4 == b
  {
    assert (a % 4 * 16 + b / 16) / 16 == a % 4;
    assert (a % 4 * 16 + b / 16) % 16 == b / 16;
  }

  lemma BitsOfThree(a: byte, b: byte, c: byte)
    ensures a / 4 * 4 + (a % 4 * 16 + b / 16) / 16 == a
    ensures (a % 4 * 16 + b / 16) % 16 * 16 + (b % 16 * 4 + c / 64) / 4 == b
    ensures (b % 16 * 4 + c / 64) % 4 * 64 + c % 64 == c
  {
    BitsOfTwo(a, b);
    assert (b % 16 * 4 + c / 64) / 4 == b % 16;
    assert (b % 16 * 4 + c / 64) % 4 == c / 64;
  }

  lemma OneDecodes(a: byte)
    ensures Decoded(One(a)) == Some([a])
  {
    BitsOfOne(a);
  }

  lemma TwoDecode(a: byte, b: byte)
    ensures Decoded(Two(a, b)) == Some([a, b])
  {
    BitsOfTwo(a, b);
  }

  lemma DecodedFour(w: char, x: char, y: char, z: char, s: string)
    requires InAlphabet(w) && InAlphabet(x) && InAlphabet(y) && InAlphabet(z) && Decoded(s).Some?
    ensures Decoded([w, x, y, z] + s) ==
            Some([ValueOf(w) * 4 + ValueOf(x) / 16, ValueOf(x) % 16 * 16 + ValueOf(y) / 4,
                ValueOf(y) % 4 * 64 + ValueOf(z)]
                 + Decoded(s).value)
  {
    hide InAlphabet, ValueOf;
    assert ([w, x, y, z] + s)[4..] == s;
  }

  lemma ThreeDecode(a: byte, b: byte, c: byte, s: string, rest: seq<byte>)
    requires Decoded(s) == Some(rest)
    ensures Decoded(Three(a, b, c) + s) == Some([a, b, c] + rest)
  {
    BitsOfThree(a, b, c);
    hide CharOf, ValueOf, InAlphabet, Decoded;
    var v0, v1, v2, v3 := a / 4, a % 4 * 16 + b / 16, b % 16 * 4 + c / 64, c % 64;
    DecodedFour(CharOf(v0), CharOf(v1), CharOf(v2), CharOf(v3), s);
  }

  lemma NothingDecodes()
    ensures Decoded("") == Some([])
  {
  }

  lemma {:induction false} LettersDecode(bs: seq<byte>)
    ensures Decoded(Letters(bs)) == Some(bs)
  {
    NothingDecodes();
    hide Decoded, One, Two, Three, InAlphabet, CharOf;
    if bs == [] {
    } else if |bs| == 1 {
      OneDecodes(bs[0]);
      assert bs == [bs[0]];
    } else if |bs| == 2 {
      TwoDecode(bs[0], bs[1]);
      assert bs == [bs[0], bs[1]];
    } else {
      LettersDecode(bs[3..]);
      ThreeDecode(bs[0], bs[1], bs[2], Letters(bs[3..]), bs[3..]);
      assert bs == [bs[0], bs[1], bs[2]] + bs[3..];
    }
  }

  lemma {:induction false} UnpaddedDropsFill(s: string, n: nat)
    requires s == "" || s[|s| - 1] != '='
    ensures Unpadded(s + Repeat('=', n)) == s
  {
    var t := s + Repeat('=', n);
    if n > 0 {
      assert t[..|t| - 1] == s + Repeat('=', n - 1) by {
        assert |t| - 1 == |s + Repeat('=', n - 1)|;
      }
      UnpaddedDropsFill(s, n - 1);
    } else {
      assert t == s;
    }
  }

  /** What is written is the letters, `-` and `_` for `+` and `/`. */
  lemma UrlEncodeIsLetters(bs: seq<byte>)
    ensures UrlEncode(bs) == Map(ToUrl, Letters(bs))
  {
    BtoaIsLettersAndFill(bs);
    hide Letters, Btoa, Unpadded;
    var s := Letters(bs);
    assert Map(ToUrl, s + Fill(|s|)) == Map(ToUrl, s) + Fill(|s|);
    UnpaddedDropsFill(Map(ToUrl, s), |Fill(|s|)|);
  }

  lemma {:induction false} NoSpaceKeeps(s: string)
    requires forall i :: 0 <= i < |s| ==> !IsSpace(s[i])
    ensures NoSpace(s) == s
  {
    if s != "" {
      NoSpaceKeeps(s[1..]);
    }
  }

  /** The padding taken off is put back exactly from the length, and the letters are those of `btoa`. */
  lemma RefillRestores(bs: seq<byte>)
    ensures Refilled(UrlEncode(bs)) == Btoa(bs)
  {
    UrlEncodeIsLetters(bs);
    BtoaIsLettersAndFill(bs);
    hide Letters, Btoa, UrlEncode, Fill;
    assert Map(FromUrl, Map(ToUrl, Letters(bs))) == Letters(bs);
  }

  lemma NoPaddingDropsFill(s: string)
    requires AllLetters(s) && |s| % 4 != 1
    ensures NoPadding(s + Fill(|s|)) == s
  {
    var t := s + Fill(|s|);
    assert |t| % 4 == 0;
    if |s| % 4 == 0 {
      assert t == s;
    } else if |s| % 4 == 3 {
      assert t[..|t| - 1] == s;
    } else {
      assert t[..|t| - 2] == s;
    }
  }

  /** Decoding gives back every byte. */
  lemma UrlRoundTrip(bs: seq<byte>)
    ensures UrlDecode(UrlEncode(bs)) == Some(bs)
  {
    RefillRestores(bs);
    BtoaIsLettersAndFill(bs);
    LettersDecode(bs);
    hide Letters, Btoa, UrlEncode, Decoded, Refilled;
    NoSpaceKeeps(Btoa(bs));
    NoPaddingDropsFill(Letters(bs));
  }

  /** Nothing but letters, digits, `-` and `_` is written, and nothing at all only for nothing. */
  lemma UrlAlphabet(bs: seq<byte>)
    ensures forall i :: 0 <= i < |UrlEncode(bs)| ==>
              var c := UrlEncode(bs)[i];
              'A' <= c <= 'Z' || 'a' <= c <= 'z' || '0' <= c <= '9' || c == '-' || c == '_'
    ensures UrlEncode(bs) == "" <==> bs == []
    ensures |UrlEncode(bs)| % 4 != 1
  {
    UrlEncodeIsLetters(bs);
    BtoaIsLettersAndFill(bs);
    hide UrlEncode, Btoa;
  }

  // ----- the encoding itself

  lemma DigitsOfThree(a: byte, b: byte, c: byte)
    ensures var n := 65536 * a + 256 * b + c;
            && n % 64 == c % 64 && n / 64 % 64 == b % 16 * 4 + c / 64
            && n / 4096 % 64 == a % 4 * 16 + b / 16 && n / 262144 == a / 4
  {
    var n := 65536 * a + 256 * b + c;
    var m := 1024 * a + 4 * b + c / 64;
    var k := 16 * a + b / 16;
    assert n == 64 * m + c % 64;
    DivMod(m, 64, c % 64);
    assert m == 64 * k + (b % 16 * 4 + c / 64);
    DivMod(k, 64, b % 16 * 4 + c / 64);
    assert k == 64 * (a / 4) + (a % 4 * 16 + b / 16);
    DivMod(a / 4, 64, a % 4 * 16 + b / 16);
    assert n / 4096 == n / 64 / 64 && n / 262144 == n / 64 / 64 / 64;
  }

  /** Three bytes are one number of 24 bits, and the letters are its four digits to base 64. */
  lemma ThreeBytesAreFourDigits(a: byte, b: byte, c: byte)
    ensures var n := 65536 * a + 256 * b + c;
            && 0 <= n / 262144 < 64
            && Three(a, b, c) ==
               [CharOf(n / 262144), CharOf(n / 4096 % 64), CharOf(n / 64 % 64), CharOf(n % 64)]
  {
    hide CharOf;
    DigitsOfThree(a, b, c);
  }

  /** One and two bytes are filled up with zero bits, and letters that stand for those alone are left out. */
  lemma FewerBytesAreFilled(a: byte, b: byte)
    ensures Two(a, b) == Three(a, b, 0)[..3] && One(a) == Three(a, 0, 0)[..2]
  {
    hide CharOf;
  }

  lemma SomeLetters()
    ensures CharOf(25) == 'Z' && CharOf(32) == 'g' && CharOf(38) == 'm' && CharOf(60) == '8' && CharOf(61) == '9'
    ensures CharOf(47) == 'v' && CharOf(24) == 'Y' && CharOf(5) == 'F' && CharOf(50) == 'y'
    ensures CharOf(62) == '+' && CharOf(63) == '/' && CharOf(60) == '8'
  {
  }

  lemma FourLetters()
    ensures Three(102, 111, 111) == "Zm9v" && Three(98, 97, 114) == "YmFy"
    ensures Two(102, 111) == "Zm8" && One(102) == "Zg"
  {
    SomeLetters();
    hide CharOf;
  }

  lemma FoobarIsWritten()
    ensures Btoa([102, 111, 111, 98, 97, 114]) == "Zm9vYmFy" && Btoa([102, 111, 111]) == "Zm9v"
    ensures Btoa([102]) == "Zg==" && Btoa([102, 111]) == "Zm8="
  {
    FourLetters();
    hide One, Two, Three;
    var foobar: seq<byte> := [102, 111, 111, 98, 97, 114];
    var foo, bar: seq<byte> := [102, 111, 111], [98, 97, 114];
    assert foobar[3..] == bar && foo[3..] == [] && bar[3..] == [];
    assert Btoa(bar) == "YmFy" + "";
  }

  lemma UrlLettersAreWritten()
    ensures UrlEncode([251, 255]) == "-_8"
  {
    SomeLetters();
    hide CharOf;
    assert Btoa([251, 255]) == "+/8=";
    assert Map(ToUrl, "+/8=") == "-_8=";
    assert Unpadded("-_8=") == "-_8";
  }

  /** The vectors of RFC 4648, section 10, and the two letters that base64url writes otherwise. */
  lemma Vectors()
    ensures Btoa([102]) == "Zg==" && Btoa([102, 111]) == "Zm8=" && Btoa([102, 111, 111]) == "Zm9v"
    ensures Btoa([102, 111, 111, 98, 97, 114]) == "Zm9vYmFy" && UrlEncode([251, 255]) == "-_8"
  {
    FoobarIsWritten();
    UrlLettersAreWritten();
    hide *;
  }
}

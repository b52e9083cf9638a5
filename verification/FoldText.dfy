/** `str.replace` and `str.join` as Python computes them, and when the replacement count matters. */
module FoldText {
  /** Python's `replace` of the empty text puts `put` before every character and at the end. */
  function Interleave(s: string, put: string, n: int): string {
    if n == 0 then s else if s == "" then put else put + [s[0]] + Interleave(s[1..], put, n - 1)
  }

  /** `s.replace(what, put, n)` for what != "", any negative n meaning all. */
  function ReplaceNext(s: string, what: string, put: string, n: int): string
    requires what != ""
  {
    if n == 0 || s == "" then s
    else if what <= s then put + ReplaceNext(s[|what|..], what, put, n - 1)
    else [s[0]] + ReplaceNext(s[1..], what, put, n)
  }

  function PyReplace(s: string, what: string, put: string, n: int): string {
    if what == "" then Interleave(s, put, n) else ReplaceNext(s, what, put, n)
  }

  function PyJoin(sep: string, parts: seq<string>): string {
    if parts == [] then "" else if |parts| == 1 then parts[0] else parts[0] + sep + PyJoin(sep, parts[1..])
  }

  /** what is written somewhere in s. */
  predicate Occurs(s: string, what: string) {
    what <= s || (s != "" && Occurs(s[1..], what))
  }

  // ----- when the count matters

  lemma {:induction false} NothingToReplace(s: string, what: string, put: string, n: int)
    requires what != "" && !Occurs(s, what)
    ensures ReplaceNext(s, what, put, n) == s
  {
    if s != "" {
      NothingToReplace(s[1..], what, put, n);
    }
  }

  lemma {:induction false} ReplacedByItself(s: string, what: string, n: int)
    requires what != ""
    ensures ReplaceNext(s, what, what, n) == s
    decreases |s|
  {
    if n != 0 && s != "" {
      if what <= s {
        ReplacedByItself(s[|what|..], what, n - 1);
        assert s == what + s[|what|..];
      } else {
        ReplacedByItself(s[1..], what, n);
      }
    }
  }

  lemma {:induction false} InterleavedNothing(s: string, n: int)
    ensures Interleave(s, "", n) == s
    decreases |s|
  {
    if n != 0 && s != "" {
      InterleavedNothing(s[1..], n - 1);
      assert "" + [s[0]] + s[1..] == s;
    }
  }

  lemma {:induction false} InterleavedIsLonger(s: string, put: string, n: int)
    requires put != "" && n < 0
    ensures |Interleave(s, put, n)| > |s|
    decreases |s|
  {
    if s != "" {
      InterleavedIsLonger(s[1..], put, n - 1);
    }
  }

  /** Replacing by a text of another length changes the length, in one direction throughout. */
  lemma {:induction false} ReplacedLength(s: string, what: string, put: string, n: int)
    requires what != "" && n < 0
    ensures |put| > |what| ==> |ReplaceNext(s, what, put, n)| >= |s| + if Occurs(s, what) then 1 else 0
    ensures |put| < |what| ==> |ReplaceNext(s, what, put, n)| <= |s| - if Occurs(s, what) then 1 else 0
    decreases |s|
  {
    if s != "" {
      if what <= s {
        ReplacedLength(s[|what|..], what, put, n - 1);
      } else {
        ReplacedLength(s[1..], what, put, n);
      }
    }
  }

  lemma {:induction false} ReplacedInPlace(s: string, what: string, put: string, n: int)
    requires what != "" && n < 0 && |put| == |what| && put != what && Occurs(s, what)
    ensures ReplaceNext(s, what, put, n) != s
    decreases |s|
  {
    var r := ReplaceNext(s, what, put, n);
    if what <= s {
      assert r[..|what|] == put;
      assert s[..|what|] == what;
    } else {
      ReplacedInPlace(s[1..], what, put, n);
      assert r[1..] == ReplaceNext(s[1..], what, put, n);
    }
  }

  /** Every count gives the same text exactly when there is nothing to replace, or it is replaced by itself. */
  lemma CountMattersIff(s: string, what: string, put: string)
    ensures (forall n: int :: PyReplace(s, what, put, n) == PyReplace(s, what, put, -1))
            <==> !Occurs(s, what) || what == put
  {
    if !Occurs(s, what) || what == put {
      forall n: int ensures PyReplace(s, what, put, n) == s {
        CountIsIdle(s, what, put, n);
      }
      CountIsIdle(s, what, put, -1);
    } else {
      AllIsNotNone(s, what, put);
      assert PyReplace(s, what, put, 0) != PyReplace(s, what, put, -1);
    }
  }

  lemma CountIsIdle(s: string, what: string, put: string, n: int)
    requires !Occurs(s, what) || what == put
    ensures PyReplace(s, what, put, n) == s
  {
    if what == "" {
      InterleavedNothing(s, n);
    } else if what == put {
      ReplacedByItself(s, what, n);
    } else {
      NothingToReplace(s, what, put, n);
    }
  }

  lemma AllIsNotNone(s: string, what: string, put: string)
    requires Occurs(s, what) && what != put
    ensures PyReplace(s, what, put, 0) == s && PyReplace(s, what, put, -1) != s
  {
    if what == "" {
      InterleavedIsLonger(s, put, -1);
    } else {
      ReplacedLength(s, what, put, -1);
      if |put| == |what| {
        ReplacedInPlace(s, what, put, -1);
      }
    }
  }
}

/** `str.replace` and `str.join` by what they do to a text, without the loops that do it. */
module FoldTextLaws {
  import opened FoldText
  import opened Sequences
  import opened Text

  /** `sep.join`: nothing, the one text, or two runs with the separator between them. */
  lemma {:induction false} JoinLaws(sep: string, a: seq<string>, b: seq<string>)
    ensures PyJoin(sep, []) == ""
    ensures |a| == 1 ==> PyJoin(sep, a) == a[0]
    ensures a != [] && b != [] ==> PyJoin(sep, a + b) == PyJoin(sep, a) + sep + PyJoin(sep, b)
    decreases |a|
  {
    if a != [] && b != [] {
      Uncons(a, b);
      if |a| == 1 {
        assert a[1..] + b == b;
      } else {
        JoinLaws(sep, a[1..], b);
        Regroup(a[0] + sep, PyJoin(sep, a[1..]), sep + PyJoin(sep, b));
        Regroup(PyJoin(sep, a[1..]), sep, PyJoin(sep, b));
        Regroup(a[0] + sep, PyJoin(sep, a[1..]), sep);
        Regroup(PyJoin(sep, a), sep, PyJoin(sep, b));
      }
    }
  }

  /** An occurrence of the rest is one of the text, one place further on. */
  lemma OneFurther(s: string, what: string, i: nat)
    requires s != ""
    ensures WrittenAt(s[1..], what, i) <==> WrittenAt(s, what, i + 1)
    ensures WrittenAt(s, what, 0) <==> what <= s
  {
    assert i + |what| <= |s| - 1 ==> s[1..][i..i + |what|] == s[i + 1..i + 1 + |what|];
    assert |what| <= |s| ==> s[0..|what|] == s[..|what|];
  }

  lemma OneStep(s: string, what: string, put: string, n: int)
    requires what != "" && n != 0 && s != ""
    ensures WrittenAt(s, what, 0) ==> PyReplace(s, what, put, n) == put + PyReplace(s[|what|..], what, put, n - 1)
    ensures !WrittenAt(s, what, 0) ==> PyReplace(s, what, put, n) == [s[0]] + PyReplace(s[1..], what, put, n)
  {
    OneFurther(s, what, 0);
  }

  lemma NoneEarlier(s: string, what: string, i: nat)
    requires i > 0 && s != "" && FirstAt(s, what, i)
    ensures FirstAt(s[1..], what, i - 1)
  {
    OneFurther(s, what, i - 1);
    forall j: nat | j < i - 1 ensures !WrittenAt(s[1..], what, j) {
      OneFurther(s, what, j);
    }
  }

  /** The first occurrence is replaced, and what comes after it as if it were a text of its own, once less. */
  lemma {:induction false} ReplacesTheFirst(s: string, what: string, put: string, n: int, i: nat)
    requires what != "" && n != 0 && FirstAt(s, what, i)
    ensures PyReplace(s, what, put, n) == s[..i] + put + PyReplace(s[i + |what|..], what, put, n - 1)
    decreases i
  {
    hide PyReplace;
    OneStep(s, what, put, n);
    if i == 0 {
      assert s[..0] + put == put;
    } else {
      NoneEarlier(s, what, i);
      ReplacesTheFirst(s[1..], what, put, n, i - 1);
      FromTheRest(s, i, |what|);
      InFront(s[0], s[1..][..i - 1], put, PyReplace(s[i + |what|..], what, put, n - 1));
    }
  }

  lemma FromTheRest(s: string, i: nat, n: nat)
    requires 0 < i && i + n <= |s|
    ensures [s[0]] + s[1..][..i - 1] == s[..i] && s[1..][i - 1 + n..] == s[i + n..]
  {
  }

  lemma InFront(c: char, x: string, y: string, z: string)
    ensures [c] + (x + y + z) == [c] + x + y + z
  {
    Regroup([c], x + y, z);
    Regroup([c], x, y);
  }

  /** `Occurs` is being written somewhere. */
  lemma {:induction false} OccursIsWritten(s: string, what: string)
    ensures Occurs(s, what) <==> Contains(s, what)
  {
    if s == "" {
      assert what == "" ==> WrittenAt(s, what, 0);
    } else {
      OccursIsWritten(s[1..], what);
      OneFurther(s, what, 0);
      if i: nat :| WrittenAt(s[1..], what, i) {
        OneFurther(s, what, i);
      }
      if i: nat :| WrittenAt(s, what, i) && i > 0 {
        OneFurther(s, what, i - 1);
      }
    }
  }

  /** Where nothing is found, or nothing is asked for, nothing changes. */
  lemma {:induction false} ReplacesNothing(s: string, what: string, put: string, n: int)
    requires what != "" && (n == 0 || !Contains(s, what))
    ensures PyReplace(s, what, put, n) == s
    decreases |s|
  {
    if n != 0 && s != "" {
      OneFurther(s, what, 0);
      forall j: nat ensures !WrittenAt(s[1..], what, j) {
        OneFurther(s, what, j);
      }
      ReplacesNothing(s[1..], what, put, n);
    }
  }

  /** `put` before every character */
  function BeforeEach(s: string, put: string): string {
    if s == "" then "" else BeforeEach(s[..|s| - 1], put) + put + [s[|s| - 1]]
  }

  lemma {:induction false} BeforeEachUncons(s: string, put: string)
    requires s != ""
    ensures BeforeEach(s, put) == put + [s[0]] + BeforeEach(s[1..], put)
    decreases |s|
  {
    if |s| == 1 {
      assert s[..0] == "" && s[1..] == "";
      assert "" + put + [s[0]] == put + [s[0]] + "";
    } else {
      var n := |s| - 1;
      BeforeEachUncons(s[..n], put);
      assert s[..n][1..] == s[1..][..n - 1];
      var first, middle, last := put + [s[0]], BeforeEach(s[1..][..n - 1], put), put + [s[n]];
      Regroup(first + middle, put, [s[n]]);
      Regroup(middle, put, [s[n]]);
      Regroup(first, middle, last);
    }
  }

  /** The empty text is found before every character, and once more at the end. */
  lemma {:induction false} EmptyIsEverywhere(s: string, put: string, n: int)
    ensures 0 <= n <= |s| ==> PyReplace(s, "", put, n) == BeforeEach(s[..n], put) + s[n..]
    ensures n < 0 || n > |s| ==> PyReplace(s, "", put, n) == BeforeEach(s, put) + put
    decreases |s|
  {
    if n == 0 {
      assert s[..0] == "" && s[0..] == s && "" + s == s;
    } else if s == "" {
      assert "" + put == put;
    } else {
      EmptyIsEverywhere(s[1..], put, n - 1);
      BeforeEachUncons(s, put);
      if 0 <= n <= |s| {
        BeforeEachUncons(s[..n], put);
        assert s[..n][1..] == s[1..][..n - 1] && s[1..][n - 1..] == s[n..];
        Regroup(put + [s[0]], BeforeEach(s[1..][..n - 1], put), s[n..]);
      } else {
        Regroup(put + [s[0]], BeforeEach(s[1..], put), put);
      }
    }
  }
}

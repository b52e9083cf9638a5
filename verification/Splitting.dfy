/** `s.split(sep)` on a one-character separator. */
module Splitting {
  predicate Without(s: string, sep: char) {
    forall i :: 0 <= i < |s| ==> s[i] != sep
  }

  function Split(s: string, sep: char): (parts: seq<string>)
    ensures |parts| >= 1
  {
    if s == "" then [""]
    else
      var rest := Split(s[1..], sep);
      if s[0] == sep then [""] + rest else [[s[0]] + rest[0]] + rest[1..]
  }

  lemma {:induction false} SplitOne(s: string, sep: char)
    ensures Without(s, sep) <==> |Split(s, sep)| == 1
    ensures Without(s, sep) ==> Split(s, sep) == [s]
  {
    if s != "" {
      SplitOne(s[1..], sep);
      if Without(s[1..], sep) && s[0] != sep {
        assert Without(s, sep) by {
          forall i | 0 <= i < |s| ensures s[i] != sep {
            if i > 0 {
              assert s[i] == s[1..][i - 1];
            }
          }
        }
        assert [s[0]] + s[1..] == s;
      } else if Without(s, sep) {
        assert s[0] != sep;
        forall i | 0 <= i < |s[1..]| ensures s[1..][i] != sep {
          assert s[1..][i] == s[i + 1];
        }
      }
    }
  }

  lemma {:induction false} SplitAt(a: string, sep: char, b: string)
    requires Without(a, sep)
    ensures Split(a + [sep] + b, sep) == [a] + Split(b, sep)
  {
    var s := a + [sep] + b;
    if a == "" {
      assert s[1..] == b;
    } else {
      assert Without(a[1..], sep) by {
        assert forall i :: 0 <= i < |a| - 1 ==> a[1..][i] == a[i + 1];
      }
      SplitAt(a[1..], sep, b);
      assert s[0] == a[0] && s[1..] == a[1..] + [sep] + b;
      assert [a[0]] + a[1..] == a;
    }
  }

  lemma {:induction false} PartsAreWithout(s: string, sep: char)
    ensures forall k :: 0 <= k < |Split(s, sep)| ==> Without(Split(s, sep)[k], sep)
  {
    if s != "" {
      PartsAreWithout(s[1..], sep);
    }
  }

  /** The first separator, |s| without one. */
  function First(s: string, sep: char): (i: nat)
    ensures i <= |s| && Without(s[..i], sep) && (i < |s| ==> s[i] == sep)
  {
    if s == "" || s[0] == sep then 0 else
      var i := First(s[1..], sep);
      assert s[..1 + i] == [s[0]] + s[1..][..i];
      1 + i
  }

  lemma Rejoined(s: string, i: nat)
    requires i < |s|
    ensures s == s[..i] + [s[i]] + s[i + 1..]
  {
  }

  /** A text is its part before the first separator, or that, a separator and the rest. */
  lemma SplitAtFirst(s: string, sep: char)
    ensures var i := First(s, sep);
            if i == |s| then Split(s, sep) == [s] else Split(s, sep) == [s[..i]] + Split(s[i + 1..], sep)
  {
    var i := First(s, sep);
    hide *;
    if i == |s| {
      assert s[..i] == s;
      SplitOne(s, sep);
    } else {
      Rejoined(s, i);
      SplitAt(s[..i], sep, s[i + 1..]);
    }
  }
}

/** Strings as JavaScript and Python search and replace them, code unit by code unit. */
module Text {
  /** x is written at position i of s. */
  predicate At(s: string, i: nat, x: string) {
    i + |x| <= |s| && forall k {:trigger x[k]} :: 0 <= k < |x| ==> s[i + k] == x[k]
  }

  lemma Slice(s: string, i: nat, x: string)
    requires At(s, i, x)
    ensures s[i..i + |x|] == x
    ensures i == 0 ==> s[..|x|] == x
    ensures i + |x| == |s| ==> s[i..] == x
  {
  }

  lemma AtSplit(s: string, i: nat, x: string, y: string)
    requires At(s, i, x + y)
    ensures At(s, i, x) && At(s, i + |x|, y)
  {
    forall k | 0 <= k < |x| ensures s[i + k] == x[k] {
      assert (x + y)[k] == x[k];
    }
    forall k | 0 <= k < |y| ensures s[i + |x| + k] == y[k] {
      assert (x + y)[|x| + k] == y[k];
    }
  }

  /** The first j >= i where x is written, |s| + 1 when there is none. */
  function IndexFrom(s: string, x: string, i: nat): (j: nat)
    requires i <= |s| + 1
    ensures i <= j <= |s| + 1
    ensures j <= |s| ==> At(s, j, x)
    ensures forall k :: i <= k < j ==> !At(s, k, x)
    decreases |s| + 1 - i
  {
    if i > |s| || At(s, i, x) then i else IndexFrom(s, x, i + 1)
  }

  function IndexOf(s: string, x: string): nat {
    IndexFrom(s, x, 0)
  }

  /** `s.includes(x)` */
  predicate Includes(s: string, x: string) {
    IndexOf(s, x) <= |s|
  }

  function ReplaceAt(s: string, i: nat, x: string, y: string): string
    requires At(s, i, x)
  {
    s[..i] + y + s[i + |x|..]
  }

  /** `s.replace(x, () => y)` */
  function ReplaceFirst(s: string, x: string, y: string): string {
    if Includes(s, x) then ReplaceAt(s, IndexOf(s, x), x, y) else s
  }

  /** x occurs in s at one place only, overlapping occurrences counted. */
  ghost predicate Once(s: string, x: string) {
    Includes(s, x) && forall i: nat :: At(s, i, x) ==> i == IndexOf(s, x)
  }

  /** Putting anything else in place of an occurrence changes the text. */
  lemma ReplacingChanges(s: string, i: nat, x: string, y: string)
    requires At(s, i, x) && ReplaceAt(s, i, x, y) == s
    ensures x == y
  {
    var t := ReplaceAt(s, i, x, y);
    assert |t| == |s| - |x| + |y|;
    assert t[i..i + |y|] == y;
    Slice(s, i, x);
  }

  lemma OccursMeansIncludes(s: string, i: nat, x: string)
    requires At(s, i, x)
    ensures Includes(s, x)
  {
    assert i < |s| + 1;
  }

  /** An occurrence in a part of a text is an occurrence in the text. */
  lemma AtInside(a: string, b: string, c: string, i: nat, x: string)
    requires At(b, i, x)
    ensures At(a + b + c, |a| + i, x)
  {
    forall k | 0 <= k < |x| ensures (a + b + c)[|a| + i + k] == x[k] {
      assert (a + b + c)[|a| + i + k] == b[i + k];
    }
  }

  // ----- the same, by slices

  predicate WrittenAt(s: string, x: string, i: nat) {
    i + |x| <= |s| && s[i..i + |x|] == x
  }

  ghost predicate Contains(s: string, x: string) {
    exists i: nat :: WrittenAt(s, x, i)
  }

  predicate FirstAt(s: string, x: string, i: nat) {
    WrittenAt(s, x, i) && forall j :: 0 <= j < i ==> !WrittenAt(s, x, j)
  }

  lemma AtIsWritten(s: string, i: nat, x: string)
    ensures At(s, i, x) <==> WrittenAt(s, x, i)
  {
    if WrittenAt(s, x, i) {
      forall k | 0 <= k < |x| ensures s[i + k] == x[k] {
        assert s[i..i + |x|][k] == x[k];
      }
    } else if At(s, i, x) {
      Slice(s, i, x);
    }
  }

  /** What `includes` and `replace` do to a text. */
  lemma FirstIsReplaced(s: string, x: string, y: string)
    ensures Includes(s, x) <==> Contains(s, x)
    ensures !Contains(s, x) ==> ReplaceFirst(s, x, y) == s
    ensures Includes(s, x) ==> FirstAt(s, x, IndexOf(s, x))
    ensures forall i: nat :: FirstAt(s, x, i) ==> ReplaceFirst(s, x, y) == s[..i] + y + s[i + |x|..]
  {
    forall i: nat ensures At(s, i, x) <==> WrittenAt(s, x, i) {
      AtIsWritten(s, i, x);
    }
    hide WrittenAt;
    if i: nat :| WrittenAt(s, x, i) {
      OccursMeansIncludes(s, i, x);
    }
    forall i: nat | FirstAt(s, x, i) ensures IndexOf(s, x) == i {
      OccursMeansIncludes(s, i, x);
    }
  }
}

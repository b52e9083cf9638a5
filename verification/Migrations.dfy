/**
 `run_migrations`: any number of runners over one database, each of which may die at any step.
 The advisory lock goes with the session that held it, and a transaction that was not committed
 leaves nothing.
 */
module Migrations {
  import opened Wrappers
  import opened Sequences

  /** Python's order on names. */
  predicate Less(a: string, b: string) {
    b != [] && (a == [] || a[0] < b[0] || (a[0] == b[0] && Less(a[1..], b[1..])))
  }

  /** What `sorted` makes of the distinct names in a directory. */
  predicate Sorted(files: seq<string>) {
    forall i, j :: 0 <= i < j < |files| ==> Less(files[i], files[j])
  }

  lemma {:induction false} LessIsStrict(a: string)
    ensures !Less(a, a)
  {
    if a != [] {
      LessIsStrict(a[1..]);
    }
  }

  lemma SortedIsDistinct(files: seq<string>)
    requires Sorted(files)
    ensures forall i, j :: 0 <= i < j < |files| ==> files[i] != files[j]
  {
    forall i, j | 0 <= i < j < |files| ensures files[i] != files[j] {
      LessIsStrict(files[i]);
    }
  }

  /** Up to k the names agree, and there a ends or has the smaller character. */
  predicate SmallerAt(a: string, b: string, k: nat) {
    k <= |a| && k < |b| && a[..k] == b[..k] && (k == |a| || a[k] < b[k])
  }

  lemma SmallerBehind(a: string, b: string, k: nat)
    requires a != "" && b != "" && a[0] == b[0]
    ensures SmallerAt(a, b, k + 1) <==> SmallerAt(a[1..], b[1..], k)
  {
    if k + 1 <= |a| && k + 1 <= |b| {
      assert a[..k + 1] == [a[0]] + a[1..][..k] && b[..k + 1] == [b[0]] + b[1..][..k];
    }
  }

  lemma SameHeads(a: string, b: string, k: nat)
    ensures SmallerAt(a, b, k) && k > 0 ==> a != "" && b != "" && a[0] == b[0]
  {
    if SmallerAt(a, b, k) && k > 0 {
      assert a[0] == a[..k][0] && b[0] == b[..k][0];
    }
  }

  /** The order is by the first character in which the names differ, a name standing before its continuations. */
  lemma {:induction false} LessIsLexicographic(a: string, b: string)
    ensures Less(a, b) <==> exists k: nat :: SmallerAt(a, b, k)
  {
    if a != "" && b != "" && a[0] == b[0] {
      LessIsLexicographic(a[1..], b[1..]);
      forall k: nat ensures SmallerAt(a, b, k + 1) <==> SmallerAt(a[1..], b[1..], k) {
        SmallerBehind(a, b, k);
      }
      forall k: nat | SmallerAt(a, b, k) ensures k > 0 && SmallerAt(a[1..], b[1..], k - 1) {
        SmallerBehind(a, b, k - 1);
      }
      if k: nat :| SmallerAt(a[1..], b[1..], k) {
        assert SmallerAt(a, b, k + 1);
      }
    } else {
      forall k: nat | SmallerAt(a, b, k) ensures k == 0 {
        SameHeads(a, b, k);
      }
      assert SmallerAt(a, b, 0) <==> Less(a, b);
    }
  }

  lemma {:induction false} LessIsTotal(a: string, b: string)
    ensures a == b || Less(a, b) || Less(b, a)
  {
    if a != "" && b != "" && a[0] == b[0] {
      LessIsTotal(a[1..], b[1..]);
      assert a == [a[0]] + a[1..] && b == [b[0]] + b[1..];
    }
  }

  lemma {:induction false} LessIsTransitive(a: string, b: string, c: string)
    requires Less(a, b) && Less(b, c)
    ensures Less(a, c)
  {
    if a != "" && a[0] == b[0] == c[0] {
      LessIsTransitive(a[1..], b[1..], c[1..]);
    }
  }

  lemma {:induction false} Least(names: set<string>) returns (first: string)
    requires names != {}
    ensures first in names && forall name :: name in names && name != first ==> Less(first, name)
    decreases |names|
  {
    first :| first in names;
    var others := names - {first};
    if others != {} {
      var other := Least(others);
      LessIsTotal(first, other);
      if Less(other, first) {
        first := other;
      } else {
        forall name | name in names && name != first ensures Less(first, name) {
          if name != other {
            LessIsTransitive(first, other, name);
          }
        }
      }
    }
  }

  /** Whatever names a directory has, there is a sorted list of them. */
  lemma {:induction false} EveryDirectoryIsSorted(names: set<string>) returns (files: seq<string>)
    ensures Sorted(files) && forall name :: name in files <==> name in names
    decreases |names|
  {
    if names == {} {
      files := [];
    } else {
      var first := Least(names);
      var rest := EveryDirectoryIsSorted(names - {first});
      files := [first] + rest;
      forall i, j | 0 <= i < j < |files| ensures Less(files[i], files[j]) {
        assert rest[j - 1] in rest;
      }
    }
  }

  datatype Pc =
    | Locking
    | Creating
    | Checking(file: nat)                             // about to look up files[file], or to leave the loop
    | Applying(file: nat, ran: bool, recorded: bool)  // inside the transaction of files[file]
    | Unlocking(ok: bool)
    | Returned(ok: bool)
    | Dead

  datatype Runner = Runner(files: seq<string>, pc: Pc)

  /** `names` is schema_migrations; `log` is who committed which script, in commit order. */
  datatype State = State(lock: Option<nat>, names: set<string>, log: seq<(nat, string)>, runners: seq<Runner>)

  datatype Event =
    | Lock(r: nat)
    | Create(r: nat)
    | Check(r: nat)
    | RunScript(r: nat, fails: bool)
    | Record(r: nat)
    | Commit(r: nat)
    | Unlock(r: nat)
    | Fail(r: nat)   // any other statement or read raises: the transaction is rolled back
    | Die(r: nat)

  predicate Enabled(s: State, e: Event) {
    e.r < |s.runners| &&
    var Runner(files, pc) := s.runners[e.r];
    match e
    case Lock(_) => pc.Locking? && s.lock.None?
    case Create(_) => pc.Creating?
    case Check(_) => pc.Checking?
    case RunScript(_, _) => pc.Applying? && !pc.ran
    case Record(_) => pc.Applying? && pc.ran && !pc.recorded && pc.file < |files|
    case Commit(_) => pc.Applying? && pc.recorded && pc.file < |files|
    case Unlock(_) => pc.Unlocking?
    case Fail(_) => pc.Creating? || pc.Checking? || pc.Applying?
    case Die(_) => !pc.Returned? && !pc.Dead?
  }

  function At(s: State, r: nat, pc: Pc): State
    requires r < |s.runners|
  {
    s.(runners := s.runners[r := s.runners[r].(pc := pc)])
  }

  /** `if applied: continue`, for the file at hand. */
  function AfterCheck(names: set<string>, files: seq<string>, i: nat): Pc {
    if i >= |files| then Unlocking(true)
    else if files[i] in names then Checking(i + 1)
    else Applying(i, false, false)
  }

  function Next(s: State, e: Event): State
    requires Enabled(s, e)
  {
    var pc := s.runners[e.r].pc;
    var files := s.runners[e.r].files;
    match e
    case Lock(r) => At(s, r, Creating).(lock := Some(r))
    case Create(r) => At(s, r, Checking(0))
    case Check(r) => At(s, r, AfterCheck(s.names, files, pc.file))
    case RunScript(r, fails) => At(s, r, if fails then Unlocking(false) else pc.(ran := true))
    case Record(r) => At(s, r, if files[pc.file] in s.names then Unlocking(false) else pc.(recorded := true))
    case Commit(r) =>
      At(s, r, Checking(pc.file + 1)).(names := s.names + {files[pc.file]}, log := s.log + [(r, files[pc.file])])
    case Unlock(r) => At(s, r, Returned(pc.ok)).(lock := None)
    case Fail(r) => At(s, r, Unlocking(false))
    case Die(r) => At(s, r, Dead).(lock := if s.lock == Some(r) then None else s.lock)
  }

  predicate Initial(s: State) {
    && s.lock.None? && s.names == {} && s.log == []
    && forall r :: 0 <= r < |s.runners| ==> s.runners[r].pc.Locking? && Sorted(s.runners[r].files)
  }

  predicate Runs(s: State, events: seq<Event>, t: State)
    decreases |events|
  {
    if events == [] then s == t
    else Enabled(s, events[0]) && Runs(Next(s, events[0]), events[1..], t)
  }

  predicate HoldsLock(pc: Pc) {
    pc.Creating? || pc.Checking? || pc.Applying? || pc.Unlocking?
  }

  /** A runner has all files before its place, and has applied nothing at or after it. */
  predicate InPlace(s: State, r: nat)
    requires r < |s.runners|
  {
    var Runner(files, pc) := s.runners[r];
    && Sorted(files)
    && (HoldsLock(pc) <==> s.lock == Some(r))
    && (pc.Locking? || pc.Creating? ==> forall k :: 0 <= k < |s.log| ==> s.log[k].0 != r)
    && (pc.Checking? || pc.Applying? ==>
          && pc.file <= |files|
          && (forall i :: 0 <= i < pc.file ==> files[i] in s.names)
          && (forall k :: 0 <= k < |s.log| && s.log[k].0 == r ==> s.log[k].1 in files[..pc.file]))
    && (pc.Applying? ==> pc.file < |files| && files[pc.file] !in s.names && (pc.recorded ==> pc.ran))
    && (pc == Unlocking(true) || pc == Returned(true) ==> forall i :: 0 <= i < |files| ==> files[i] in s.names)
  }

  /** The log and the table agree, nothing was applied twice, and each runner went up its list. */
  predicate Consistent(s: State) {
    && (forall k :: 0 <= k < |s.log| ==> s.log[k].1 in s.names)
    && (forall name :: name in s.names ==> exists k :: 0 <= k < |s.log| && s.log[k].1 == name)
    && (forall j, k :: 0 <= j < k < |s.log| ==> s.log[j].1 != s.log[k].1)
    && (forall j, k :: 0 <= j < k < |s.log| && s.log[j].0 == s.log[k].0 ==> Less(s.log[j].1, s.log[k].1))
    && (s.lock.Some? ==> s.lock.value < |s.runners|)
  }

  predicate Inv(s: State) {
    Consistent(s) && forall r :: 0 <= r < |s.runners| ==> InPlace(s, r)
  }

  /** What is committed was not there, and is past everything its runner applied. */
  lemma CommitIsNew(s: State, r: nat)
    requires Inv(s) && Enabled(s, Commit(r))
    ensures var name := s.runners[r].files[s.runners[r].pc.file];
            forall k :: 0 <= k < |s.log| ==> s.log[k].1 != name && (s.log[k].0 == r ==> Less(s.log[k].1, name))
  {
    assert InPlace(s, r);
  }

  lemma CommitIsConsistent(s: State, r: nat)
    requires Inv(s) && Enabled(s, Commit(r))
    ensures Consistent(Next(s, Commit(r)))
  {
    CommitIsNew(s, r);
    hide InPlace, Less, Sorted;
    var t := Next(s, Commit(r));
    var name := s.runners[r].files[s.runners[r].pc.file];
    forall n | n in t.names ensures exists k :: 0 <= k < |t.log| && t.log[k].1 == n {
      if n == name {
        assert t.log[|s.log|].1 == n;
      } else {
        var k :| 0 <= k < |s.log| && s.log[k].1 == n;
        assert t.log[k].1 == n;
      }
    }
  }

  lemma InPlaceStep(s: State, e: Event, q: nat)
    requires Inv(s) && Enabled(s, e) && q < |s.runners|
    ensures InPlace(Next(s, e), q)
  {
    hide Less, Sorted, Consistent;
    assert InPlace(s, q) && InPlace(s, e.r);
  }

  lemma InvStep(s: State, e: Event)
    requires Inv(s) && Enabled(s, e)
    ensures Inv(Next(s, e))
  {
    assert InPlace(s, e.r);
    if e.Commit? {
      CommitIsConsistent(s, e.r);
    } else {
      assert Next(s, e).log == s.log && Next(s, e).names == s.names;
    }
    forall q | 0 <= q < |s.runners| ensures InPlace(Next(s, e), q) {
      InPlaceStep(s, e, q);
    }
  }

  lemma {:induction false} InvRun(s: State, events: seq<Event>, t: State)
    requires Inv(s) && Runs(s, events, t)
    ensures Inv(t)
    ensures |t.runners| == |s.runners|
    decreases |events|
  {
    if events != [] {
      InvStep(s, events[0]);
      InvRun(Next(s, events[0]), events[1..], t);
    }
  }

  /**
   In every run, crashes included: the table holds exactly the committed
   scripts, none was applied twice, each runner applied its own in ascending
   name order, and a runner that returned normally left none of its files out.
   */
  lemma LogIsTheTable(s: State, events: seq<Event>, t: State)
    requires Initial(s) && Runs(s, events, t)
    ensures t.names == (set k | 0 <= k < |t.log| :: t.log[k].1)
    ensures forall j, k :: 0 <= j < k < |t.log| ==> t.log[j].1 != t.log[k].1
    ensures forall j, k :: 0 <= j < k < |t.log| && t.log[j].0 == t.log[k].0 ==> Less(t.log[j].1, t.log[k].1)
    ensures forall r :: 0 <= r < |t.runners| && t.runners[r].pc == Returned(true) ==>
              forall i :: 0 <= i < |t.runners[r].files| ==> t.runners[r].files[i] in t.names
  {
    InvRun(s, events, t);
    forall r | 0 <= r < |t.runners| && t.runners[r].pc == Returned(true)
      ensures forall i :: 0 <= i < |t.runners[r].files| ==> t.runners[r].files[i] in t.names
    {
      assert InPlace(t, r);
    }
  }

  /** Only the holder of the lock applies, it applies a script no one has, and no two runners hold it. */
  lemma OnlyTheHolderApplies(s: State, before: seq<Event>, m: State, e: Event)
    requires Initial(s) && Runs(s, before, m) && Enabled(m, e)
    ensures Next(m, e).log != m.log ==>
              m.lock == Some(e.r) && exists name :: name !in m.names && Next(m, e).log == m.log + [(e.r, name)]
    ensures forall q, r | 0 <= q < |m.runners| && 0 <= r < |m.runners| ::
              HoldsLock(m.runners[q].pc) && HoldsLock(m.runners[r].pc) ==> q == r
  {
    InvRun(s, before, m);
    assert InPlace(m, e.r);
    forall q, r | 0 <= q < |m.runners| && 0 <= r < |m.runners| && HoldsLock(m.runners[q].pc)
        && HoldsLock(m.runners[r].pc)
      ensures q == r
    {
      assert InPlace(m, q) && InPlace(m, r);
    }
  }

  /** The files that are not in the table, in their order. */
  function Missing(files: seq<string>, names: set<string>): seq<string> {
    if files == [] then [] else (if files[0] in names then [] else [files[0]]) + Missing(files[1..], names)
  }

  /** File k is the first one missing whose script raises, or k is their number if there is none. */
  predicate FirstRaising(files: seq<string>, names: set<string>, raises: set<string>, k: nat) {
    && k <= |files|
    && (forall j :: 0 <= j < k ==> files[j] in names || files[j] !in raises)
    && (k < |files| ==> files[k] !in names && files[k] in raises)
  }

  lemma {:induction false} MissingStays(files: seq<string>, names: set<string>, name: string)
    requires name !in files
    ensures Missing(files, names + {name}) == Missing(files, names)
  {
    if files != [] {
      MissingStays(files[1..], names, name);
    }
  }

  lemma {:induction false} MissingConcat(a: seq<string>, b: seq<string>, names: set<string>)
    ensures Missing(a + b, names) == Missing(a, names) + Missing(b, names)
  {
    if a == [] {
      assert a + b == b;
    } else {
      MissingConcat(a[1..], b, names);
      Uncons(a, b);
      var first := if a[0] in names then [] else [a[0]];
      Regroup(first, Missing(a[1..], names), Missing(b, names));
    }
  }

  lemma {:induction false} MissingElements(files: seq<string>, names: set<string>)
    ensures forall name :: name in Missing(files, names) <==> name in files && name !in names
  {
    if files != [] {
      MissingElements(files[1..], names);
      assert files == [files[0]] + files[1..];
    }
  }

  lemma OneRaisesFirst(files: seq<string>, names: set<string>, raises: set<string>, j: nat, k: nat)
    requires FirstRaising(files, names, raises, j) && FirstRaising(files, names, raises, k)
    ensures j == k
  {
  }

  function Elements(s: seq<string>): set<string> {
    set x | x in s
  }

  /** The database as one runner changes it while it holds the lock. */
  class Database {
    var locked: bool
    var names: set<string>
    var effects: seq<string>

    constructor ()
      ensures !locked && names == {} && effects == []
    {
      locked, names, effects := false, {}, [];
    }

    method RunMigrations(files: seq<string>, raises: set<string>) returns (ok: bool)
      requires !locked && Sorted(files)
      modifies this
      ensures !locked
      ensures ok <==> forall name :: name in files && name !in old(names) ==> name !in raises
      ensures ok <==> Elements(files) <= names
      ensures ok ==> effects == old(effects) + Missing(files, old(names))
      ensures forall k: nat :: FirstRaising(files, old(names), raises, k) ==>
                && effects == old(effects) + Missing(files[..k], old(names))
                && names == old(names) + Elements(Missing(files[..k], old(names)))
    {
      ghost var before := names;
      SortedIsDistinct(files);
      hide Missing, Sorted;
      locked, ok := true, true;
      var i := 0;
      NothingMissing(before);
      assert effects + [] == effects && files[..0] == [];
      while i < |files| && ok
        invariant 0 <= i <= |files| && locked
        invariant effects == old(effects) + Missing(files[..i], before)
        invariant names == before + Elements(Missing(files[..i], before))
        invariant forall j :: 0 <= j < i ==> files[j] in before || files[j] !in raises
        invariant !ok ==> i < |files| && files[i] !in before && files[i] in raises
        decreases |files| - i, ok
      {
        var name := files[i];
        OneMoreFile(files, before, i);
        if name !in names {
          if name in raises {
            ok := false;
          } else {
            Regroup(old(effects), Missing(files[..i], before), [name]);
            effects, names := effects + [name], names + {name};
          }
        } else {
          assert effects + [] == effects;
        }
        if ok {
          i := i + 1;
        }
      }
      AtTheEnd(files, before, raises, i);
      locked := false;
    }
  }

  lemma NothingMissing(names: set<string>)
    ensures Missing([], names) == []
  {
  }

  lemma OneMoreFile(files: seq<string>, names: set<string>, i: nat)
    requires i < |files| && forall j, k :: 0 <= j < k < |files| ==> files[j] != files[k]
    ensures files[i] in names + Elements(Missing(files[..i], names)) <==> files[i] in names
    ensures Missing(files[..i + 1], names) == Missing(files[..i], names) + if files[i] in names then [] else [files[i]]
  {
    MissingElements(files[..i], names);
    MissingConcat(files[..i], [files[i]], names);
    assert files[..i + 1] == files[..i] + [files[i]];
    assert [files[i]][1..] == [];
  }

  /** Where the loop ends, with what is applied by then. */
  lemma AtTheEnd(files: seq<string>, names: set<string>, raises: set<string>, i: nat)
    requires (forall j, k :: 0 <= j < k < |files| ==> files[j] != files[k]) && FirstRaising(files, names, raises, i)
    ensures forall k: nat :: FirstRaising(files, names, raises, k) ==> k == i
    ensures i == |files| <==> forall name :: name in files && name !in names ==> name !in raises
    ensures i == |files| <==> Elements(files) <= names + Elements(Missing(files[..i], names))
    ensures i == |files| ==> files[..i] == files
  {
    MissingElements(files[..i], names);
    if i < |files| {
      assert files[i] in files && files[i] !in files[..i];
      assert files[i] in Elements(files) && files[i] !in Elements(Missing(files[..i], names));
    } else {
      assert files[..i] == files;
    }
    forall k: nat | FirstRaising(files, names, raises, k) ensures k == i {
      OneRaisesFirst(files, names, raises, i, k);
    }
  }

  /** After a normal return a second run over the same files finds nothing to do. */
  lemma NothingLeft(files: seq<string>, names: set<string>)
    ensures Missing(files, names) == [] <==> Elements(files) <= names
  {
    MissingElements(files, names);
    if Missing(files, names) != [] {
      assert Missing(files, names)[0] in Missing(files, names);
    }
  }
}

/** A runner that nothing disturbs gets to the end, with exactly the missing scripts applied. */
module MigrationsAlone {
  import opened Wrappers
  import opened Migrations
  import opened Sequences

  /** The commits of these scripts by runner r. */
  function Commits(r: nat, names: seq<string>): (log: seq<(nat, string)>)
    ensures |log| == |names| && forall i :: 0 <= i < |names| ==> log[i] == (r, names[i])
  {
    seq(|names|, i requires 0 <= i < |names| => (r, names[i]))
  }

  /** Only r acts, no script raises, nothing else fails, and r does not die. */
  predicate Smooth(events: seq<Event>, r: nat) {
    forall i :: 0 <= i < |events| ==>
      events[i].r == r && !events[i].Fail? && !events[i].Die? && (events[i].RunScript? ==> !events[i].fails)
  }

  lemma OneFirst(s: State, e: Event, rest: seq<Event>, t: State, r: nat)
    requires Enabled(s, e) && Runs(Next(s, e), rest, t) && Smooth([e], r) && Smooth(rest, r)
    ensures Runs(s, [e] + rest, t) && Smooth([e] + rest, r)
  {
    assert ([e] + rest)[1..] == rest;
    forall i | 0 <= i < |rest| + 1
      ensures ([e] + rest)[i].r == r && !([e] + rest)[i].Fail? && !([e] + rest)[i].Die?
              && (([e] + rest)[i].RunScript? ==> !([e] + rest)[i].fails)
    {
      assert ([e] + rest)[i] == if i == 0 then [e][0] else rest[i - 1];
    }
  }

  /** The runner is through: its files from i on are applied, and only it has moved. */
  predicate Through(s: State, t: State, r: nat, i: nat)
    requires r < |s.runners| && i <= |s.runners[r].files|
  {
    var files := s.runners[r].files;
    var missing := Missing(files[i..], s.names);
    && t.lock.None? && t.runners == s.runners[r := Runner(files, Returned(true))]
    && t.names == s.names + Elements(missing) && t.log == s.log + Commits(r, missing)
  }

  lemma Leaves(s: State, r: nat) returns (events: seq<Event>, t: State)
    requires r < |s.runners| && s.runners[r].pc == Checking(|s.runners[r].files|)
    ensures Runs(s, events, t) && Smooth(events, r) && Through(s, t, r, |s.runners[r].files|)
  {
    var a := Next(s, Check(r));
    t := Next(a, Unlock(r));
    assert Runs(t, [], t);
    OneFirst(a, Unlock(r), [], t, r);
    OneFirst(s, Check(r), [Unlock(r)] + [], t, r);
    events := [Check(r)] + ([Unlock(r)] + []);
    assert s.runners[r].files[|s.runners[r].files|..] == [];
    assert s.log + [] == s.log;
  }

  /** One missing file: looked up, run, recorded and committed. */
  lemma Applies(s: State, r: nat, i: nat, rest: seq<Event>, t: State) returns (events: seq<Event>)
    requires r < |s.runners| && s.runners[r].pc == Checking(i) && i < |s.runners[r].files|
    requires s.runners[r].files[i] !in s.names && Smooth(rest, r)
    requires Runs(Committed(s, r, i), rest, t)
    ensures Runs(s, events, t) && Smooth(events, r)
  {
    var a := Next(s, Check(r));
    var b := Next(a, RunScript(r, false));
    var c := Next(b, Record(r));
    assert Next(c, Commit(r)) == Committed(s, r, i);
    hide Runs;
    OneFirst(c, Commit(r), rest, t, r);
    OneFirst(b, Record(r), [Commit(r)] + rest, t, r);
    OneFirst(a, RunScript(r, false), [Record(r)] + ([Commit(r)] + rest), t, r);
    OneFirst(s, Check(r), [RunScript(r, false)] + ([Record(r)] + ([Commit(r)] + rest)), t, r);
    events := [Check(r)] + ([RunScript(r, false)] + ([Record(r)] + ([Commit(r)] + rest)));
  }

  function Committed(s: State, r: nat, i: nat): State
    requires r < |s.runners| && i < |s.runners[r].files|
  {
    var Runner(files, _) := s.runners[r];
    State(s.lock, s.names + {files[i]}, s.log + [(r, files[i])], s.runners[r := Runner(files, Checking(i + 1))])
  }

  lemma SkipThrough(s: State, t: State, r: nat, i: nat)
    requires r < |s.runners| && i < |s.runners[r].files| && s.runners[r].files[i] in s.names
    requires Through(At(s, r, Checking(i + 1)), t, r, i + 1)
    ensures Through(s, t, r, i)
  {
    var files := s.runners[r].files;
    assert files[i..][1..] == files[i + 1..];
    assert [] + Missing(files[i + 1..], s.names) == Missing(files[i + 1..], s.names);
  }

  lemma CommitsCons(r: nat, name: string, later: seq<string>, log: seq<(nat, string)>)
    ensures log + [(r, name)] + Commits(r, later) == log + Commits(r, [name] + later)
    ensures Elements([name] + later) == {name} + Elements(later)
  {
    assert Commits(r, [name] + later) == [(r, name)] + Commits(r, later);
    Regroup(log, [(r, name)], Commits(r, later));
  }

  lemma CommitThrough(s: State, t: State, r: nat, i: nat)
    requires r < |s.runners| && i < |s.runners[r].files| && s.runners[r].files[i] !in s.names
    requires Sorted(s.runners[r].files) && Through(Committed(s, r, i), t, r, i + 1)
    ensures Through(s, t, r, i)
  {
    var files := s.runners[r].files;
    SortedIsDistinct(files);
    MissingStays(files[i + 1..], s.names, files[i]);
    assert files[i..][1..] == files[i + 1..];
    var later := Missing(files[i + 1..], s.names);
    assert Missing(files[i..], s.names) == [files[i]] + later;
    hide Missing, Sorted, Commits, Elements;
    CommitsCons(r, files[i], later, s.log);
  }

  lemma {:induction false} GoesOn(s: State, r: nat, i: nat) returns (events: seq<Event>, t: State)
    requires r < |s.runners| && i <= |s.runners[r].files| && s.runners[r].pc == Checking(i)
    requires Sorted(s.runners[r].files)
    ensures Runs(s, events, t) && Smooth(events, r) && Through(s, t, r, i)
    decreases |s.runners[r].files| - i
  {
    hide Through, Runs, Smooth, Sorted;
    var files := s.runners[r].files;
    if i == |files| {
      events, t := Leaves(s, r);
    } else if files[i] in s.names {
      var a := Next(s, Check(r));
      events, t := GoesOn(a, r, i + 1);
      OnlyCheck(r);
      OneFirst(s, Check(r), events, t, r);
      events := [Check(r)] + events;
      SkipThrough(s, t, r, i);
    } else {
      var more := Committed(s, r, i);
      events, t := GoesOn(more, r, i + 1);
      events := Applies(s, r, i, events, t);
      CommitThrough(s, t, r, i);
    }
  }

  lemma OnlyCheck(r: nat)
    ensures Smooth([Check(r)], r)
  {
  }

  /** While the lock is free a runner can go through: it returns normally, with what was missing applied. */
  lemma RunsThrough(s: State, r: nat) returns (events: seq<Event>, t: State)
    requires r < |s.runners| && s.lock.None? && s.runners[r].pc.Locking? && Sorted(s.runners[r].files)
    ensures Runs(s, events, t) && Smooth(events, r)
    ensures var missing := Missing(s.runners[r].files, s.names);
            && t.lock.None? && |t.runners| == |s.runners| && t.runners[r].pc == Returned(true)
            && t.names == s.names + Elements(missing) && t.log == s.log + Commits(r, missing)
  {
    var a := Next(s, Lock(r));
    var b := Next(a, Create(r));
    events, t := GoesOn(b, r, 0);
    OneFirst(a, Create(r), events, t, r);
    OneFirst(s, Lock(r), [Create(r)] + events, t, r);
    events := [Lock(r)] + ([Create(r)] + events);
    assert s.runners[r].files[0..] == s.runners[r].files;
  }
}

/** Keyset pages over (created_at, id), newest first, and a client's walk over them while the table changes. */
module Paging {
  import opened Wrappers

  // ----- one page

  datatype PageBody<T, C> = PageBody(items: seq<T>, nextCursor: Option<C>, hasMore: bool)

  /** One row more than the page holds was asked for; None is a cursor that could not be written. */
  function Cut<T, C>(items: seq<T>, limit: nat, cursorOf: T -> Option<C>): Option<PageBody<T, C>>
    requires limit >= 1
  {
    if |items| <= limit then Some(PageBody(items, None, false)) else
      match cursorOf(items[limit - 1])
      case None => None
      case Some(c) => Some(PageBody(items[..limit], Some(c), true))
  }

  /** `pageResult` */
  method PageResult<T, C>(items: seq<T>, limit: nat, cursorOf: T -> Option<C>) returns (page: Option<PageBody<T, C>>)
    requires limit >= 1
    ensures page == Cut(items, limit, cursorOf)
    ensures page.None? <==> |items| > limit && cursorOf(items[limit - 1]).None?
    ensures page.Some? ==>
              var PageBody(shown, next, more) := page.value;
              && shown <= items
              && |shown| == (if |items| > limit then limit else |items|)
              && (more <==> shown < items)
              && next == if more then cursorOf(shown[|shown| - 1]) else None
  {
    var hasMore := false;
    var nextCursor := None;
    var slice := items;
    if |items| > limit {
      slice := items[..limit];
      hasMore := true;
      var last := slice[|slice| - 1];
      nextCursor := cursorOf(last);
      if nextCursor.None? {
        return None;
      }
    }
    return Some(PageBody(slice, nextCursor, hasMore));
  }

  // ----- the table behind it

  /** A row's place: its creation time in microseconds and its id as a number. */
  datatype Key = Key(createdAt: int, id: nat)

  /** The row comparison `(created_at, id) < (…, …)` */
  predicate Older(a: Key, b: Key) {
    a.createdAt < b.createdAt || (a.createdAt == b.createdAt && a.id < b.id)
  }

  predicate Behind(k: Key, cursor: Option<Key>) {
    cursor.Some? ==> Older(k, cursor.value)
  }

  ghost function Rest(table: set<Key>, cursor: Option<Key>): set<Key> {
    set k | k in table && Behind(k, cursor)
  }

  lemma {:induction false} HasNewest(s: set<Key>)
    requires s != {}
    ensures exists k :: k in s && forall o :: o in s && o != k ==> Older(o, k)
    decreases |s|
  {
    var x :| x in s;
    if s == {x} {
      assert forall o :: o in s ==> o == x;
    } else {
      var t := s - {x};
      HasNewest(t);
      var y :| y in t && forall o :: o in t && o != y ==> Older(o, y);
      var k := if Older(x, y) then y else x;
      forall o | o in s && o != k ensures Older(o, k) {
        assert o == x || o in t;
      }
    }
  }

  ghost function Newest(s: set<Key>): (k: Key)
    requires s != {}
    ensures k in s && forall o :: o in s && o != k ==> Older(o, k)
  {
    HasNewest(s);
    var k :| k in s && forall o :: o in s && o != k ==> Older(o, k);
    k
  }

  predicate NewestFirst(rows: seq<Key>) {
    forall i, j :: 0 <= i < j < |rows| ==> Older(rows[j], rows[i])
  }

  /** The order is by falling creation time, and by falling id where that is the same. */
  lemma NewestFirstIs(rows: seq<Key>, k: Key, cursor: Option<Key>)
    ensures NewestFirst(rows) <==>
            && (forall i, j :: 0 <= i < j < |rows| ==> rows[i].createdAt >= rows[j].createdAt)
            && (forall i, j :: 0 <= i < j < |rows| && rows[i].createdAt == rows[j].createdAt ==>
                  rows[i].id > rows[j].id)
    ensures Behind(k, cursor) <==>
            (cursor.Some? && k.createdAt >= cursor.value.createdAt ==>
               k.createdAt == cursor.value.createdAt && k.id < cursor.value.id)
  {
    if NewestFirst(rows) {
      assert forall i, j :: 0 <= i < j < |rows| ==> Older(rows[j], rows[i]);
    }
  }

  /** `WHERE (created_at, id) < cursor ORDER BY created_at DESC, id DESC LIMIT n` */
  ghost function Select(table: set<Key>, cursor: Option<Key>, n: nat): (rows: seq<Key>)
    ensures |rows| <= n
    decreases n
  {
    var rest := Rest(table, cursor);
    if n == 0 || rest == {} then [] else
      var top := Newest(rest);
      [top] + Select(table, Some(top), n - 1)
  }

  /** The selection is newest first, from the rest, and leaves out only rows older than all of it. */
  lemma {:induction false} SelectTakesTheNewest(table: set<Key>, cursor: Option<Key>, n: nat)
    ensures var rows := Select(table, cursor, n);
            && NewestFirst(rows)
            && (forall i :: 0 <= i < |rows| ==> rows[i] in Rest(table, cursor))
            && (forall k :: k in Rest(table, cursor) && k !in rows ==>
                |rows| == n && forall i :: 0 <= i < n ==> Older(k, rows[i]))
    decreases n
  {
    var rows := Select(table, cursor, n);
    var rest := Rest(table, cursor);
    if n > 0 && rest != {} {
      var top := Newest(rest);
      SelectTakesTheNewest(table, Some(top), n - 1);
      var more := Select(table, Some(top), n - 1);
      assert rows == [top] + more;
      forall k | k in rest && k !in rows ensures |rows| == n && forall i :: 0 <= i < n ==> Older(k, rows[i]) {
        assert k != top by { assert rows[0] == top; }
        assert k in Rest(table, Some(top));
        assert k !in more by {
          assert forall i :: 0 <= i < |more| ==> rows[i + 1] == more[i];
        }
      }
    }
  }

  function Itself(k: Key): Option<Key> {
    Some(k)
  }

  /** `listPage`, on keys */
  ghost function PageAt(table: set<Key>, cursor: Option<Key>, limit: nat): PageBody<Key, Key>
    requires limit >= 1
  {
    Cut(Select(table, cursor, limit + 1), limit, Itself).value
  }

  /** A page with more behind it is full, ends with the row its cursor names, and has a row behind that. */
  lemma PageShape(table: set<Key>, cursor: Option<Key>, limit: nat)
    requires limit >= 1
    ensures var p, rows := PageAt(table, cursor, limit), Select(table, cursor, limit + 1);
            && (p.hasMore <==> |rows| == limit + 1)
            && p.items == (if p.hasMore then rows[..limit] else rows)
            && (p.hasMore ==> |p.items| == limit && p.nextCursor == Some(rows[limit - 1]))
            && (!p.hasMore ==> |p.items| <= limit && p.nextCursor == None)
  {
  }

  lemma PageTakesBetween(table: set<Key>, cursor: Option<Key>, limit: nat, k: Key)
    requires limit >= 1
    ensures var p := PageAt(table, cursor, limit);
            k in p.items <==> k in Rest(table, cursor) && !(p.hasMore && Behind(k, p.nextCursor))
  {
    var rows := Select(table, cursor, limit + 1);
    SelectTakesTheNewest(table, cursor, limit + 1);
    PageShape(table, cursor, limit);
    var p := PageAt(table, cursor, limit);
    hide Select, Rest, PageAt;
    if p.hasMore {
      assert forall i :: 0 <= i < limit ==> p.items[i] == rows[i];
      if k in p.items {
        var i :| 0 <= i < limit && p.items[i] == k;
        assert rows[i] == k;
      } else if k in rows {
        var i :| 0 <= i < |rows| && rows[i] == k;
        assert i == limit;
      }
    }
  }

  /** The rows between the two cursors are all on the page, newest first. */
  lemma PageCovers(table: set<Key>, cursor: Option<Key>, limit: nat)
    requires limit >= 1
    ensures var p := PageAt(table, cursor, limit);
            && (p.hasMore ==> |p.items| == limit && p.nextCursor == Some(p.items[limit - 1]))
            && (!p.hasMore ==> |p.items| <= limit && p.nextCursor == None)
            && NewestFirst(p.items)
            && (forall k :: k in p.items <==> k in Rest(table, cursor) && !(p.hasMore && Behind(k, p.nextCursor)))
            && (p.hasMore <==> exists k :: k in Rest(table, cursor) && k !in p.items)
  {
    var rows := Select(table, cursor, limit + 1);
    var p := PageAt(table, cursor, limit);
    SelectTakesTheNewest(table, cursor, limit + 1);
    PageShape(table, cursor, limit);
    forall k ensures k in p.items <==> k in Rest(table, cursor) && !(p.hasMore && Behind(k, p.nextCursor)) {
      PageTakesBetween(table, cursor, limit, k);
    }
    hide Select, Rest, PageAt;
    if p.hasMore {
      assert Behind(rows[limit], p.nextCursor);
      assert rows[limit] in Rest(table, cursor) && rows[limit] !in p.items;
    }
  }

  // ----- a walk

  /** The pages a client fetches by following `nextCursor`, `tables[i]` being the table at its fetch i. */
  ghost function Walk(tables: seq<set<Key>>, cursor: Option<Key>, limit: nat): seq<PageBody<Key, Key>>
    requires limit >= 1
  {
    if tables == [] then [] else
      var p := PageAt(tables[0], cursor, limit);
      if p.hasMore then [p] + Walk(tables[1..], p.nextCursor, limit) else [p]
  }

  ghost predicate Finished(tables: seq<set<Key>>, cursor: Option<Key>, limit: nat)
    requires limit >= 1
  {
    tables != [] &&
    var p := PageAt(tables[0], cursor, limit);
    p.hasMore ==> Finished(tables[1..], p.nextCursor, limit)
  }

  function Rows(pages: seq<PageBody<Key, Key>>): seq<Key> {
    if pages == [] then [] else pages[0].items + Rows(pages[1..])
  }

  lemma JoinNewestFirst(a: seq<Key>, b: seq<Key>)
    requires NewestFirst(a) && NewestFirst(b)
    requires a != [] && forall i :: 0 <= i < |b| ==> Older(b[i], a[|a| - 1])
    ensures NewestFirst(a + b)
  {
    var rows := a + b;
    forall i, j | 0 <= i < j < |rows| ensures Older(rows[j], rows[i]) {
      if i < |a| <= j {
        assert Older(b[j - |a|], a[|a| - 1]);
      }
    }
  }

  /** Whatever happens to the table between fetches, the rows come newest first, so none comes twice. */
  lemma {:induction false} WalkIsNewestFirst(tables: seq<set<Key>>, cursor: Option<Key>, limit: nat)
    requires limit >= 1
    ensures var rows := Rows(Walk(tables, cursor, limit));
            NewestFirst(rows) && forall i :: 0 <= i < |rows| ==> Behind(rows[i], cursor)
  {
    if tables != [] {
      var p := PageAt(tables[0], cursor, limit);
      PageCovers(tables[0], cursor, limit);
      forall i | 0 <= i < |p.items| ensures Behind(p.items[i], cursor) {
        assert p.items[i] in Rest(tables[0], cursor);
      }
      if p.hasMore {
        WalkIsNewestFirst(tables[1..], p.nextCursor, limit);
        var more := Walk(tables[1..], p.nextCursor, limit);
        assert ([p] + more)[1..] == more;
        JoinNewestFirst(p.items, Rows(more));
      } else {
        assert Rows([p]) == p.items + Rows([]);
      }
    }
  }

  /** The fetch that passes a row's place in the order. */
  ghost function FetchAt(tables: seq<set<Key>>, cursor: Option<Key>, limit: nat, k: Key): (i: nat)
    requires limit >= 1 && Finished(tables, cursor, limit)
    ensures i < |Walk(tables, cursor, limit)| <= |tables|
  {
    var p := PageAt(tables[0], cursor, limit);
    if p.hasMore && Behind(k, p.nextCursor) then 1 + FetchAt(tables[1..], p.nextCursor, limit, k) else
      assert |Walk(tables, cursor, limit)| <= |tables| by { WalkIsShort(tables, cursor, limit); }
      0
  }

  lemma {:induction false} WalkIsShort(tables: seq<set<Key>>, cursor: Option<Key>, limit: nat)
    requires limit >= 1
    ensures |Walk(tables, cursor, limit)| <= |tables|
  {
    if tables != [] {
      var p := PageAt(tables[0], cursor, limit);
      if p.hasMore {
        WalkIsShort(tables[1..], p.nextCursor, limit);
      }
    }
  }

  /** A finished walk returns a row exactly when it was in the table at the fetch that passed its place. */
  lemma {:induction false} WalkReturns(tables: seq<set<Key>>, cursor: Option<Key>, limit: nat, k: Key)
    requires limit >= 1 && Finished(tables, cursor, limit) && Behind(k, cursor)
    ensures k in Rows(Walk(tables, cursor, limit)) <==> k in tables[FetchAt(tables, cursor, limit, k)]
  {
    var p := PageAt(tables[0], cursor, limit);
    PageCovers(tables[0], cursor, limit);
    if p.hasMore {
      var more := Walk(tables[1..], p.nextCursor, limit);
      assert ([p] + more)[1..] == more;
      if Behind(k, p.nextCursor) {
        WalkReturns(tables[1..], p.nextCursor, limit, k);
      } else {
        WalkIsNewestFirst(tables[1..], p.nextCursor, limit);
      }
    } else {
      assert Rows([p]) == p.items + Rows([]);
    }
  }

  /** So a row that is there all along is never missed. */
  lemma StayingRowsAreReturned(tables: seq<set<Key>>, cursor: Option<Key>, limit: nat, k: Key)
    requires limit >= 1 && Finished(tables, cursor, limit) && Behind(k, cursor)
    requires forall i :: 0 <= i < |Walk(tables, cursor, limit)| ==> i < |tables| && k in tables[i]
    ensures k in Rows(Walk(tables, cursor, limit))
  {
    WalkReturns(tables, cursor, limit, k);
  }

  /** Every page of a finished walk but the last is full, and only the last says there is no more. */
  lemma {:induction false} AllButTheLastAreFull(tables: seq<set<Key>>, cursor: Option<Key>, limit: nat)
    requires limit >= 1 && Finished(tables, cursor, limit)
    ensures var pages := Walk(tables, cursor, limit);
            && |pages| >= 1
            && (forall i :: 0 <= i < |pages| ==> (pages[i].hasMore <==> i < |pages| - 1))
            && (forall i :: 0 <= i < |pages| - 1 ==> |pages[i].items| == limit)
            && limit * (|pages| - 1) <= |Rows(pages)| <= limit * |pages|
  {
    var p := PageAt(tables[0], cursor, limit);
    PageCovers(tables[0], cursor, limit);
    var pages := Walk(tables, cursor, limit);
    if p.hasMore {
      AllButTheLastAreFull(tables[1..], p.nextCursor, limit);
      var more := Walk(tables[1..], p.nextCursor, limit);
      assert pages == [p] + more && pages[1..] == more;
      Spread(limit, |more|);
    } else {
      assert pages == [p] && pages[1..] == [];
    }
  }

  lemma Spread(limit: nat, n: nat)
    ensures limit * (n + 1) == limit * n + limit
    ensures n >= 1 ==> limit * n == limit * (n - 1) + limit
  {
  }

  /** A table that stays the same is listed whole, as one unlimited query would list it. */
  lemma {:induction false} StillTable(table: set<Key>, tables: seq<set<Key>>, cursor: Option<Key>, limit: nat)
    requires limit >= 1 && Finished(tables, cursor, limit)
    requires forall i :: 0 <= i < |tables| ==> tables[i] == table
    ensures var rows := Rows(Walk(tables, cursor, limit));
            NewestFirst(rows) && forall k :: k in rows <==> k in Rest(table, cursor)
  {
    WalkIsNewestFirst(tables, cursor, limit);
    var rows := Rows(Walk(tables, cursor, limit));
    forall k ensures k in rows <==> k in Rest(table, cursor) {
      if Behind(k, cursor) {
        WalkReturns(tables, cursor, limit, k);
      }
    }
  }

  lemma PageShrinksTheRest(universe: set<Key>, table: set<Key>, cursor: Option<Key>, limit: nat)
    requires limit >= 1 && table <= universe
    ensures var p := PageAt(table, cursor, limit);
            p.hasMore ==> 0 < |Rest(universe, p.nextCursor)| <= |Rest(universe, cursor)| - limit
  {
    var p := PageAt(table, cursor, limit);
    PageCovers(table, cursor, limit);
    if p.hasMore {
      var rows := Select(table, cursor, limit + 1);
      SelectTakesTheNewest(table, cursor, limit + 1);
      assert rows[limit] in Rest(universe, p.nextCursor);
      ShrunkBy(rows, Rest(universe, cursor), Rest(universe, p.nextCursor), limit);
    }
  }

  lemma ShrunkBy(rows: seq<Key>, whole: set<Key>, rest: set<Key>, limit: nat)
    requires |rows| == limit + 1 && limit >= 1 && NewestFirst(rows)
    requires forall i :: 0 <= i < |rows| ==> rows[i] in whole
    requires forall k :: k in rest <==> k in whole && Older(k, rows[limit - 1])
    ensures |rest| + limit <= |whole|
  {
    DistinctRows(rows[..limit]);
    var taken := set k | k in rows[..limit];
    assert taken !! rest;
    assert taken + rest <= whole;
    Contained(taken + rest, whole);
  }

  lemma Contained(a: set<Key>, b: set<Key>)
    requires a <= b
    ensures |a| <= |b|
  {
    assert b == a + (b - a);
  }

  lemma {:induction false} DistinctRows(rows: seq<Key>)
    requires NewestFirst(rows)
    ensures |set k | k in rows| == |rows|
  {
    var s := set k | k in rows;
    if rows != [] {
      var t := rows[1..];
      DistinctRows(t);
      var u := set k | k in t;
      assert rows == [rows[0]] + t;
      assert s == {rows[0]} + u;
      assert rows[0] !in u;
    }
  }

  /** The walk ends: rows drawn from a finite stock cannot fill more pages than they are many. */
  lemma {:induction false} WalkEnds(universe: set<Key>, tables: seq<set<Key>>, cursor: Option<Key>, limit: nat)
    requires limit >= 1 && forall i :: 0 <= i < |tables| ==> tables[i] <= universe
    requires |Rest(universe, cursor)| <= limit * |tables| && tables != []
    ensures Finished(tables, cursor, limit)
  {
    var p := PageAt(tables[0], cursor, limit);
    if p.hasMore {
      PageShrinksTheRest(universe, tables[0], cursor, limit);
      Spread(limit, |tables| - 1);
      WalkEnds(universe, tables[1..], p.nextCursor, limit);
    }
  }
}

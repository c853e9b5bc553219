/** Lists read page by page, where each page starts strictly after the last row of the one before. */
module Keyset {
  import opened Optional
  import opened StringOrder

  /** What a row is listed by, and what a cursor names. */
  datatype Key = Key(time: int, id: string)

  predicate Older(a: Key, b: Key) {
    a.time < b.time || (a.time == b.time && Less(a.id, b.id))
  }

  lemma OlderTransitive(a: Key, b: Key, c: Key)
    requires Older(a, b) && Older(b, c)
    ensures Older(a, c)
  {
    if a.time == b.time == c.time { LessTransitive(a.id, b.id, c.id); }
  }

  lemma OlderIsTotal(a: Key, b: Key)
    ensures a == b || Older(a, b) || Older(b, a)
    ensures !(Older(a, b) && Older(b, a))
  {
    LessIsTotal(a.id, b.id);
  }

  /** Newest first, strictly: no row is there twice. */
  ghost predicate Descending(s: seq<Key>) {
    forall i, j | 0 <= i < j < |s| :: Older(s[j], s[i])
  }

  lemma OnceEach(s: seq<Key>)
    requires Descending(s)
    ensures forall i, j | 0 <= i < j < |s| :: s[i] != s[j]
  {
    forall i, j | 0 <= i < j < |s| ensures s[i] != s[j] { OlderIsTotal(s[i], s[j]); }
  }

  // ---- one query ----

  function Put(s: seq<Key>, k: Key): seq<Key> {
    if s == [] || Older(s[0], k) then [k] + s else [s[0]] + Put(s[1..], k)
  }

  /** ORDER BY time and id, both descending. */
  function Ordered(rows: seq<Key>): seq<Key> {
    if rows == [] then [] else Put(Ordered(rows[1..]), rows[0])
  }

  lemma {:induction false} PutKeeps(s: seq<Key>, k: Key)
    requires Descending(s) && k !in s
    ensures Descending(Put(s, k))
    ensures forall x :: x in Put(s, k) <==> x == k || x in s
    ensures |Put(s, k)| == |s| + 1
  {
    hide Older;
    if s == [] { return; }
    if Older(s[0], k) {
      forall j | 0 < j < |s| ensures Older(s[j], k) { OlderTransitive(s[j], s[0], k); }
    } else {
      forall j | 0 <= j < |s[1..]| ensures s[1..][j] in s { assert s[1..][j] == s[j + 1]; }
      PutKeeps(s[1..], k);
      OlderIsTotal(s[0], k);
      var r := Put(s[1..], k);
      forall j | 0 <= j < |r| ensures Older(r[j], s[0]) {
        assert r[j] in r;
        if r[j] != k { var i :| 0 <= i < |s[1..]| && s[1..][i] == r[j]; assert s[i + 1] == r[j]; }
      }
      assert s == [s[0]] + s[1..];
    }
  }

  ghost predicate Distinct(rows: seq<Key>) {
    forall i, j | 0 <= i < j < |rows| :: rows[i] != rows[j]
  }

  lemma {:induction false} OrderedIs(rows: seq<Key>)
    requires Distinct(rows)
    ensures Descending(Ordered(rows)) && |Ordered(rows)| == |rows|
    ensures forall k :: k in Ordered(rows) <==> k in rows
  {
    if rows != [] {
      OrderedIs(rows[1..]);
      forall j | 0 <= j < |rows[1..]| ensures rows[1..][j] != rows[0] { assert rows[1..][j] == rows[j + 1]; }
      PutKeeps(Ordered(rows[1..]), rows[0]);
    }
  }

  /** WHERE the row comes strictly after the cursor. */
  function After(rows: seq<Key>, cursor: Option<Key>): (r: seq<Key>)
    ensures |r| <= |rows|
    ensures forall k :: k in r <==> k in rows && (cursor.Some? ==> Older(k, cursor.value))
  {
    if rows == [] then []
    else
      var rest := After(rows[1..], cursor);
      if cursor.None? || Older(rows[0], cursor.value) then [rows[0]] + rest else rest
  }

  lemma {:induction false} AfterIsDescending(rows: seq<Key>, cursor: Option<Key>)
    requires Descending(rows)
    ensures Descending(After(rows, cursor))
    ensures cursor.None? ==> After(rows, cursor) == rows
  {
    hide Older;
    if rows != [] {
      AfterIsDescending(rows[1..], cursor);
      var rest := After(rows[1..], cursor);
      forall j | 0 <= j < |rest| ensures Older(rest[j], rows[0]) {
        assert rest[j] in rest;
        var i :| 0 <= i < |rows[1..]| && rows[1..][i] == rest[j];
        assert rows[i + 1] == rest[j];
      }
    }
  }

  function Take<T>(s: seq<T>, n: nat): seq<T> {
    if |s| <= n then s else s[..n]
  }

  datatype Page = Page(items: seq<Key>, next: Option<Key>)

  /** One row more than the page is asked for, to know whether another page follows. */
  function PageOf(rows: seq<Key>, cursor: Option<Key>, size: nat): Page
    requires size > 0
  {
    var found := Take(After(rows, cursor), size + 1);
    Page(Take(found, size), if |found| > size then Some(found[size - 1]) else None)
  }

  /** A page lists what follows the cursor up to the next cursor, and all of it when there is none. */
  lemma PageIs(rows: seq<Key>, cursor: Option<Key>, size: nat)
    requires Descending(rows) && size > 0
    ensures var p := PageOf(rows, cursor, size);
      && Descending(p.items)
      && (forall k <- p.items :: k in rows && (cursor.Some? ==> Older(k, cursor.value)))
      && (forall k <- rows | cursor.Some? ==> Older(k, cursor.value) ::
            k in p.items || (p.next.Some? && Older(k, p.next.value)))
      && (p.next.Some? ==> |p.items| == size && p.items[size - 1] == p.next.value)
  {
    hide Older;
    AfterIsDescending(rows, cursor);
    var all := After(rows, cursor);
    var p := PageOf(rows, cursor, size);
    assert p.items <= all;
    forall k <- rows | cursor.Some? ==> Older(k, cursor.value)
      ensures k in p.items || (p.next.Some? && Older(k, p.next.value))
    {
      var i :| 0 <= i < |all| && all[i] == k;
      if i < |p.items| { assert p.items[i] == k; }
    }
  }

  function IdsOf(ks: seq<Key>): (ids: seq<string>)
    ensures |ids| == |ks| && forall i | 0 <= i < |ks| :: ids[i] == ks[i].id
  {
    seq(|ks|, i requires 0 <= i < |ks| => ks[i].id)
  }

  ghost predicate Once(ids: seq<string>, id: string) {
    exists i | 0 <= i < |ids| :: ids[i] == id && forall j | 0 <= j < |ids| && j != i :: ids[j] != id
  }

  lemma {:induction false} SetOfSeq(s: seq<Key>)
    ensures |(set k <- s)| <= |s|
  {
    if s != [] {
      SetOfSeq(s[1..]);
      assert (set k <- s) == (set k <- s[1..]) + {s[0]};
    }
  }

  // ---- following the cursors ----

  ghost predicate Tables(tables: seq<seq<Key>>) {
    forall n | 0 <= n < |tables| :: Descending(tables[n])
  }

  /** Page after page, each from the table as it is by then. */
  function Walk(tables: seq<seq<Key>>, cursor: Option<Key>, size: nat): seq<Key>
    requires size > 0
  {
    if tables == [] then []
    else
      var p := PageOf(tables[0], cursor, size);
      p.items + if p.next.None? then [] else Walk(tables[1..], p.next, size)
  }

  /** The walk comes to a page with no next. */
  predicate Ends(tables: seq<seq<Key>>, cursor: Option<Key>, size: nat)
    requires size > 0
  {
    && tables != []
    && var p := PageOf(tables[0], cursor, size);
       p.next.None? || Ends(tables[1..], p.next, size)
  }

  lemma DescendingJoins(a: seq<Key>, b: seq<Key>)
    requires Descending(a) && Descending(b)
    requires forall x <- b :: a != [] && Older(x, a[|a| - 1])
    ensures Descending(a + b)
  {
    forall i, j | 0 <= i < |a| && 0 <= j < |b| ensures Older(b[j], a[i]) {
      assert b[j] in b;
      if i < |a| - 1 { OlderTransitive(b[j], a[|a| - 1], a[i]); }
    }
  }

  /** Whatever is added, removed or moved between pages, the walk lists rows strictly newest first,
      so none twice. */
  lemma {:induction false} WalkDescends(tables: seq<seq<Key>>, cursor: Option<Key>, size: nat)
    requires Tables(tables) && size > 0
    ensures Descending(Walk(tables, cursor, size))
    ensures cursor.Some? ==> forall k <- Walk(tables, cursor, size) :: Older(k, cursor.value)
  {
    hide PageOf;
    if tables != [] {
      PageIs(tables[0], cursor, size);
      var p := PageOf(tables[0], cursor, size);
      if p.next.Some? {
        WalkDescends(tables[1..], p.next, size);
        var rest := Walk(tables[1..], p.next, size);
        DescendingJoins(p.items, rest);
        forall k <- rest ensures cursor.Some? ==> Older(k, cursor.value) {
          assert p.next.value in p.items;
          if cursor.Some? { OlderTransitive(k, p.next.value, cursor.value); }
        }
      }
    }
  }

  ghost predicate InAll(tables: seq<seq<Key>>, k: Key) {
    forall n | 0 <= n < |tables| :: k in tables[n]
  }

  /** A row that keeps its key is listed. */
  lemma {:induction false} WalkLists(tables: seq<seq<Key>>, cursor: Option<Key>, size: nat, k: Key)
    requires Tables(tables) && size > 0 && Ends(tables, cursor, size)
    requires InAll(tables, k) && (cursor.Some? ==> Older(k, cursor.value))
    ensures k in Walk(tables, cursor, size)
  {
    PageIs(tables[0], cursor, size);
    var p := PageOf(tables[0], cursor, size);
    if k !in p.items { WalkLists(tables[1..], p.next, size, k); }
  }

  /** A row that is listed was in the table when its page was read. */
  lemma {:induction false} WalkHas(tables: seq<seq<Key>>, cursor: Option<Key>, size: nat, k: Key)
    requires Tables(tables) && size > 0 && k in Walk(tables, cursor, size)
    ensures exists n | 0 <= n < |tables| :: k in tables[n]
  {
    PageIs(tables[0], cursor, size);
    var p := PageOf(tables[0], cursor, size);
    if k !in p.items {
      WalkHas(tables[1..], p.next, size, k);
      var n :| 0 <= n < |tables[1..]| && k in tables[1..][n];
      assert k in tables[n + 1];
    } else {
      assert k in tables[0];
    }
  }

  /** The rows still to come. */
  ghost function Below(rows: set<Key>, cursor: Option<Key>): set<Key> {
    set k <- rows | cursor.Some? ==> Older(k, cursor.value)
  }

  /** Rows drawn from a finite set run out: the walk ends. */
  lemma {:induction false} WalkEnds(tables: seq<seq<Key>>, cursor: Option<Key>, size: nat, rows: set<Key>)
    requires Tables(tables) && size > 0 && |tables| > |Below(rows, cursor)|
    requires forall n, k | 0 <= n < |tables| && k in tables[n] :: k in rows
    ensures Ends(tables, cursor, size)
  {
    PageIs(tables[0], cursor, size);
    var p := PageOf(tables[0], cursor, size);
    if p.next.Some? {
      var k := p.next.value;
      assert k in p.items && k in tables[0];
      var below, less := Below(rows, cursor), Below(rows, p.next);
      OlderIsTotal(k, k);
      forall x <- less ensures x in below { if cursor.Some? { OlderTransitive(x, k, cursor.value); } }
      assert k in below && k !in less;
      SmallerSet(less, below, k);
      forall n, x | 0 <= n < |tables[1..]| && x in tables[1..][n] ensures x in rows { assert x in tables[n + 1]; }
      WalkEnds(tables[1..], p.next, size, rows);
    }
  }

  lemma SmallerSet(a: set<Key>, b: set<Key>, k: Key)
    requires a <= b && k in b && k !in a
    ensures |a| < |b|
  {
    assert a <= b - {k};
    Subset(a, b - {k});
  }

  lemma {:induction false} Subset(a: set<Key>, b: set<Key>)
    requires a <= b
    ensures |a| <= |b|
  {
    if a != {} {
      var x :| x in a;
      Subset(a - {x}, b - {x});
    }
  }

  /** In a descending list, what follows a row is what is older. */
  lemma TailIsOlder(all: seq<Key>, i: nat, x: Key)
    requires Descending(all) && i < |all|
    ensures x in all[i + 1..] <==> x in all && Older(x, all[i])
  {
    var tail := all[i + 1..];
    if x in tail {
      var j :| 0 <= j < |tail| && tail[j] == x;
      assert x == all[i + 1 + j];
    }
    if x in all && Older(x, all[i]) {
      var j :| 0 <= j < |all| && all[j] == x;
      OlderIsTotal(all[j], all[i]);
      assert j > i;
      assert x == tail[j - i - 1];
    }
  }

  lemma TailDescends(s: seq<Key>, n: nat)
    requires Descending(s) && n <= |s|
    ensures Descending(s[n..])
  {
  }

  /** What follows the last row of a page is what followed the cursor, without the page. */
  lemma AfterTail(rows: seq<Key>, cursor: Option<Key>, size: nat)
    requires Descending(rows) && 0 < size < |After(rows, cursor)|
    ensures After(rows, cursor)[size..] == After(rows, Some(After(rows, cursor)[size - 1]))
  {
    hide Older, Descending;
    AfterIsDescending(rows, cursor);
    var all := After(rows, cursor);
    var k := all[size - 1];
    AfterIsDescending(rows, Some(k));
    TailDescends(all, size);
    forall x ensures x in all[size..] <==> x in After(rows, Some(k)) { FollowsIff(rows, cursor, size - 1, x); }
    SameOrder(all[size..], After(rows, Some(k)));
  }

  /** A row follows the i-th row listed exactly when it is older. */
  lemma FollowsIff(rows: seq<Key>, cursor: Option<Key>, i: nat, x: Key)
    requires Descending(After(rows, cursor)) && i < |After(rows, cursor)|
    ensures var all := After(rows, cursor); x in all[i + 1..] <==> x in After(rows, Some(all[i]))
  {
    hide Older, Descending;
    var all := After(rows, cursor);
    TailIsOlder(all, i, x);
    assert all[i] in all;
    if cursor.Some? && Older(x, all[i]) { OlderTransitive(x, all[i], cursor.value); }
  }

  lemma PageSplits(rows: seq<Key>, cursor: Option<Key>, size: nat)
    requires Descending(rows) && size > 0
    ensures var p := PageOf(rows, cursor, size);
      After(rows, cursor) == p.items + if p.next.None? then [] else After(rows, p.next)
  {
    hide Older, After, Descending;
    var all := After(rows, cursor);
    if |all| > size { AfterTail(rows, cursor, size); }
  }

  /** A walk that lists one key only under this id lists the id once. */
  lemma KeyOnce(walk: seq<Key>, k: Key)
    requires Descending(walk) && k in walk && forall x <- walk :: x.id == k.id ==> x == k
    ensures Once(IdsOf(walk), k.id)
  {
    OnceEach(walk);
    var i :| 0 <= i < |walk| && walk[i] == k;
    assert IdsOf(walk)[i] == k.id;
    forall j | 0 <= j < |walk| && j != i ensures IdsOf(walk)[j] != k.id { assert walk[j] in walk; }
  }

  /** With no change between pages, the walk lists the whole table, in order. */
  lemma {:induction false} WalkIsAll(tables: seq<seq<Key>>, rows: seq<Key>, cursor: Option<Key>, size: nat)
    requires Descending(rows) && size > 0 && Ends(tables, cursor, size)
    requires forall n | 0 <= n < |tables| :: tables[n] == rows
    ensures Walk(tables, cursor, size) == After(rows, cursor)
  {
    hide PageOf, Older, Descending;
    assert tables[0] == rows;
    PageSplits(rows, cursor, size);
    var p := PageOf(rows, cursor, size);
    if p.next.Some? {
      WalkIsAll(tables[1..], rows, p.next, size);
    }
  }

  lemma SameEmpty(a: seq<Key>, b: seq<Key>)
    requires forall x :: x in a <==> x in b
    ensures a == [] <==> b == []
  {
    if b != [] { assert b[0] in b; }
    if a != [] { assert a[0] in a; }
  }

  /** There is one descending list of the same rows. */
  lemma {:induction false} SameOrder(a: seq<Key>, b: seq<Key>)
    requires Descending(a) && Descending(b) && forall x :: x in a <==> x in b
    ensures a == b
  {
    SameEmpty(a, b);
    if a != [] {
      assert a[0] in b;
      assert b[0] in a;
      var i :| 0 <= i < |b| && b[i] == a[0];
      var j :| 0 <= j < |a| && a[j] == b[0];
      OlderIsTotal(a[0], b[0]);
      forall x ensures x in a[1..] <==> x in b[1..] {
        OlderIsTotal(a[0], a[0]);
        if x in a[1..] { var n :| 0 <= n < |a[1..]| && a[1..][n] == x; assert x == a[n + 1]; assert x in b; }
        if x in b[1..] { var n :| 0 <= n < |b[1..]| && b[1..][n] == x; assert x == b[n + 1]; assert x in a; }
      }
      SameOrder(a[1..], b[1..]);
    }
  }
}

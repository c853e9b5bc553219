/** The comments of a post: pins first, then pages by number or by cursor, and a count. */
module Comments {
  import opened Optional
  import opened Keyset

  /** `shown` says that this viewer is shown the comment: by its audience, moderation and the hidden
      words of the author. */
  datatype Comment = Comment(id: string, parent: Option<string>, createdAt: int, pinnedAt: Option<int>, shown: bool)

  ghost predicate IdsDiffer(cs: seq<Comment>) {
    forall i, j | 0 <= i < j < |cs| :: cs[i].id != cs[j].id
  }

  function KeyOf(c: Comment): Key {
    Key(c.createdAt, c.id)
  }

  predicate Top(c: Comment) {
    c.shown && c.parent.None?
  }

  function Where(cs: seq<Comment>, keep: Comment -> bool): (r: seq<Comment>)
    ensures forall c :: c in r <==> c in cs && keep(c)
    ensures |r| <= |cs|
  {
    if cs == [] then []
    else
      assert cs == [cs[0]] + cs[1..];
      if keep(cs[0]) then [cs[0]] + Where(cs[1..], keep) else Where(cs[1..], keep)
  }

  lemma {:induction false} WhereDiffers(cs: seq<Comment>, keep: Comment -> bool)
    requires IdsDiffer(cs)
    ensures IdsDiffer(Where(cs, keep))
  {
    if cs != [] {
      WhereDiffers(cs[1..], keep);
      var rest := Where(cs[1..], keep);
      forall j | 0 <= j < |rest| ensures rest[j].id != cs[0].id {
        assert rest[j] in rest;
        var i :| 0 <= i < |cs[1..]| && cs[1..][i] == rest[j];
        assert rest[j] == cs[i + 1];
      }
    }
  }

  function KeysOf(cs: seq<Comment>): (ks: seq<Key>)
    ensures |ks| == |cs| && forall i | 0 <= i < |cs| :: ks[i] == KeyOf(cs[i])
  {
    seq(|cs|, i requires 0 <= i < |cs| => KeyOf(cs[i]))
  }

  /** The shown top-level comments that are not pinned, newest first. */
  function Base(cs: seq<Comment>): seq<Key> {
    Ordered(KeysOf(Where(cs, (c: Comment) => Top(c) && c.pinnedAt.None?)))
  }

  function PutPin(s: seq<Comment>, c: Comment): seq<Comment> {
    if s == [] || (c.pinnedAt.Some? && s[0].pinnedAt.Some? && c.pinnedAt.value < s[0].pinnedAt.value) then [c] + s
    else [s[0]] + PutPin(s[1..], c)
  }

  function ByPin(s: seq<Comment>): seq<Comment>
    decreases |s|
  {
    if s == [] then [] else PutPin(ByPin(s[..|s| - 1]), s[|s| - 1])
  }

  /** Every shown pin, the earliest pinned first. */
  function Pins(cs: seq<Comment>): seq<Comment> {
    ByPin(Where(cs, (c: Comment) => Top(c) && c.pinnedAt.Some?))
  }

  // ---- the count ----

  predicate Answers(c: Comment, ids: set<string>) {
    c.shown && c.parent.Some? && c.parent.value in ids
  }

  function RepliesTo(cs: seq<Comment>, ids: set<string>): nat {
    |Where(cs, (c: Comment) => Answers(c, ids))|
  }

  /** The shown comments, and the shown replies under them. */
  function Total(cs: seq<Comment>): nat {
    |Where(cs, (c: Comment) => Top(c) || (c.shown && c.parent.Some? &&
        exists p <- cs :: p.id == c.parent.value && Top(p)))|
  }

  /** What a page of comments shows: each with its replies. */
  function ListedUnder(cs: seq<Comment>, ids: seq<string>): nat {
    if ids == [] then 0 else RepliesTo(cs, {ids[0]}) + ListedUnder(cs, ids[1..])
  }

  lemma {:induction false} CountParts(cs: seq<Comment>, a: Comment -> bool, b: Comment -> bool, both: Comment -> bool)
    requires forall c <- cs :: both(c) <==> a(c) || b(c)
    requires forall c <- cs :: !(a(c) && b(c))
    ensures |Where(cs, both)| == |Where(cs, a)| + |Where(cs, b)|
  {
    if cs != [] {
      assert cs[0] in cs;
      CountParts(cs[1..], a, b, both);
    }
  }

  lemma {:induction false} RepliesUnder(cs: seq<Comment>, ids: seq<string>)
    requires forall i, j | 0 <= i < j < |ids| :: ids[i] != ids[j]
    ensures ListedUnder(cs, ids) == RepliesTo(cs, set id <- ids)
  {
    var all := set id <- ids;
    if ids == [] {
      CountNone(cs, (c: Comment) => Answers(c, all));
    } else {
      var rest := set id <- ids[1..];
      RepliesUnder(cs, ids[1..]);
      assert ids[0] !in rest;
      assert all == {ids[0]} + rest;
      CountParts(cs, (c: Comment) => Answers(c, {ids[0]}), (c: Comment) => Answers(c, rest),
                 (c: Comment) => Answers(c, all));
    }
  }

  lemma {:induction false} CountNone(cs: seq<Comment>, a: Comment -> bool)
    requires forall c <- cs :: !a(c)
    ensures |Where(cs, a)| == 0
  {
    if cs != [] {
      assert cs[0] in cs;
      CountNone(cs[1..], a);
    }
  }

  // ---- the list ----

  datatype Cursor = NoCursor | Malformed | At(key: Key)

  datatype Result = Result(listed: seq<string>, total: nat, next: Option<Key>)

  function CommentIds(cs: seq<Comment>): (ids: seq<string>)
    ensures |ids| == |cs| && forall i | 0 <= i < |cs| :: ids[i] == cs[i].id
  {
    seq(|cs|, i requires 0 <= i < |cs| => cs[i].id)
  }

  /** `closed`: comments are turned off and the viewer is not the author. */
  function FindByPost(cs: seq<Comment>, closed: bool, page: nat, limit: nat, cursor: Cursor): Result
    requires page > 0 && limit > 0
  {
    if closed then Result([], 0, None)
    else if cursor.NoCursor? then
      var skip := (page - 1) * limit;
      var rows := Take(if skip > |Base(cs)| then [] else Base(cs)[skip..], limit);
      Result((if page > 1 then [] else CommentIds(Pins(cs))) + IdsOf(rows), Total(cs),
             if |rows| == limit then Some(rows[limit - 1]) else None)
    else
      var p := PageOf(Base(cs), if cursor.At? then Some(cursor.key) else None, limit);
      Result(IdsOf(p.items), Total(cs), p.next)
  }

  function Bases(states: seq<seq<Comment>>): (t: seq<seq<Key>>)
    ensures |t| == |states|
  {
    seq(|states|, n requires 0 <= n < |states| => Base(states[n]))
  }

  /** The first page and then, cursor by cursor, the others, each from the comments as they are by then. */
  function ReadAll(states: seq<seq<Comment>>, limit: nat): seq<string>
    requires states != [] && limit > 0
  {
    var first := FindByPost(states[0], false, 1, limit, NoCursor);
    first.listed + if first.next.None? then [] else Follow(states[1..], first.next.value, limit)
  }

  function Follow(states: seq<seq<Comment>>, cursor: Key, limit: nat): seq<string>
    requires limit > 0
  {
    if states == [] then []
    else
      var p := FindByPost(states[0], false, 1, limit, At(cursor));
      p.listed + if p.next.None? then [] else Follow(states[1..], p.next.value, limit)
  }

  predicate ReadsToEnd(states: seq<seq<Comment>>, limit: nat)
    requires states != [] && limit > 0
  {
    var first := FindByPost(states[0], false, 1, limit, NoCursor);
    first.next.None? || Ends(Bases(states[1..]), first.next, limit)
  }

  lemma CursorPage(cs: seq<Comment>, cursor: Key, limit: nat)
    requires limit > 0
    ensures var p := PageOf(Base(cs), Some(cursor), limit);
      FindByPost(cs, false, 1, limit, At(cursor)) == Result(IdsOf(p.items), Total(cs), p.next)
  {
  }

  lemma FirstPage(cs: seq<Comment>, limit: nat)
    requires limit > 0
    ensures var rows := Take(Base(cs), limit);
      FindByPost(cs, false, 1, limit, NoCursor)
      == Result(CommentIds(Pins(cs)) + IdsOf(rows), Total(cs), if |rows| == limit then Some(rows[limit - 1]) else None)
  {
    hide Base, Total, Pins;
    assert Base(cs)[0..] == Base(cs);
  }

  lemma IdsJoin(a: seq<Key>, b: seq<Key>)
    ensures IdsOf(a + b) == IdsOf(a) + IdsOf(b)
  {
  }

  lemma {:induction false} FollowWalks(states: seq<seq<Comment>>, cursor: Key, limit: nat)
    requires limit > 0
    ensures Follow(states, cursor, limit) == IdsOf(Walk(Bases(states), Some(cursor), limit))
  {
    hide Base, PageOf, FindByPost, Total;
    if states != [] {
      var p := PageOf(Base(states[0]), Some(cursor), limit);
      CursorPage(states[0], cursor, limit);
      assert Bases(states)[1..] == Bases(states[1..]);
      assert Bases(states)[0] == Base(states[0]);
      if p.next.Some? {
        FollowWalks(states[1..], p.next.value, limit);
        IdsJoin(p.items, Walk(Bases(states[1..]), p.next, limit));
      }
    }
  }

  // ---- what is in the two lists ----

  lemma OneComment(cs: seq<Comment>, c: Comment, d: Comment)
    requires IdsDiffer(cs) && c in cs && d in cs && c.id == d.id
    ensures c == d
  {
    var i :| 0 <= i < |cs| && cs[i] == c;
    var j :| 0 <= j < |cs| && cs[j] == d;
  }

  /** Listed among the others: shown, of the post itself and not pinned. */
  predicate InBase(c: Comment) {
    Top(c) && c.pinnedAt.None?
  }

  lemma BaseIs(cs: seq<Comment>)
    requires IdsDiffer(cs)
    ensures Descending(Base(cs))
    ensures |Base(cs)| == |Where(cs, (c: Comment) => Top(c) && c.pinnedAt.None?)|
    ensures forall c <- cs :: InBase(c) ==> KeyOf(c) in Base(cs)
    ensures forall k <- Base(cs) :: exists c <- cs :: InBase(c) && KeyOf(c) == k
  {
    var rows := Where(cs, (c: Comment) => Top(c) && c.pinnedAt.None?);
    WhereDiffers(cs, (c: Comment) => Top(c) && c.pinnedAt.None?);
    var ks := KeysOf(rows);
    forall i, j | 0 <= i < j < |ks| ensures ks[i] != ks[j] { assert rows[i].id != rows[j].id; }
    OrderedIs(ks);
    forall c <- cs ensures InBase(c) ==> KeyOf(c) in Base(cs) {
      if InBase(c) {
        assert c in rows;
        var i :| 0 <= i < |rows| && rows[i] == c;
        assert ks[i] == KeyOf(c);
      }
    }
    forall k <- Base(cs) ensures exists c <- cs :: InBase(c) && KeyOf(c) == k {
      assert k in ks;
      var i :| 0 <= i < |ks| && ks[i] == k;
      assert rows[i] in rows;
    }
  }

  lemma BaseHas(cs: seq<Comment>, c: Comment) returns (i: nat)
    requires IdsDiffer(cs) && c in cs && InBase(c)
    ensures i < |Base(cs)| && Base(cs)[i] == KeyOf(c)
  {
    BaseIs(cs);
    i :| 0 <= i < |Base(cs)| && Base(cs)[i] == KeyOf(c);
  }

  lemma BaseFrom(cs: seq<Comment>, i: nat) returns (c: Comment)
    requires IdsDiffer(cs) && i < |Base(cs)|
    ensures c in cs && InBase(c) && KeyOf(c) == Base(cs)[i]
  {
    BaseIs(cs);
    assert Base(cs)[i] in Base(cs);
    c :| c in cs && InBase(c) && KeyOf(c) == Base(cs)[i];
  }

  lemma {:induction false} PutPinDiffers(s: seq<Comment>, c: Comment)
    requires IdsDiffer(s) && forall x <- s :: x.id != c.id
    ensures IdsDiffer(PutPin(s, c))
    ensures forall x :: x in PutPin(s, c) <==> x == c || x in s
    ensures |PutPin(s, c)| == |s| + 1
  {
    if s != [] {
      forall x <- s[1..] ensures x in s {}
      PutPinDiffers(s[1..], c);
      var r := PutPin(s[1..], c);
      assert s == [s[0]] + s[1..];
      forall j | 0 <= j < |r| ensures r[j].id != s[0].id {
        assert r[j] in r;
        if r[j] != c { var i :| 0 <= i < |s[1..]| && s[1..][i] == r[j]; assert s[i + 1] == r[j]; }
      }
    }
  }

  lemma {:induction false} ByPinDiffers(s: seq<Comment>)
    requires IdsDiffer(s)
    ensures IdsDiffer(ByPin(s)) && |ByPin(s)| == |s|
    ensures forall x :: x in ByPin(s) <==> x in s
    decreases |s|
  {
    hide PutPin;
    if s != [] {
      var n := |s| - 1;
      assert ByPin(s) == PutPin(ByPin(s[..n]), s[n]);
      hide ByPin;
      ByPinDiffers(s[..n]);
      forall x <- ByPin(s[..n]) ensures x.id != s[n].id {
        var i :| 0 <= i < n && s[..n][i] == x;
        assert s[i] == x;
      }
      PutPinDiffers(ByPin(s[..n]), s[n]);
      assert s == s[..n] + [s[n]];
    }
  }

  lemma PinsAre(cs: seq<Comment>)
    requires IdsDiffer(cs)
    ensures IdsDiffer(Pins(cs))
    ensures |Pins(cs)| == |Where(cs, (c: Comment) => Top(c) && c.pinnedAt.Some?)|
    ensures forall c :: c in Pins(cs) <==> c in cs && Top(c) && c.pinnedAt.Some?
  {
    WhereDiffers(cs, (c: Comment) => Top(c) && c.pinnedAt.Some?);
    ByPinDiffers(Where(cs, (c: Comment) => Top(c) && c.pinnedAt.Some?));
  }

  // ---- main results ----

  /** The keys listed after the pins. */
  function OthersRead(states: seq<seq<Comment>>, limit: nat): seq<Key>
    requires states != [] && limit > 0
  {
    var rows := Take(Base(states[0]), limit);
    rows + if |rows| < limit then [] else Walk(Bases(states[1..]), Some(rows[limit - 1]), limit)
  }

  lemma ReadAllIs(states: seq<seq<Comment>>, limit: nat)
    requires states != [] && limit > 0
    ensures ReadAll(states, limit) == CommentIds(Pins(states[0])) + IdsOf(OthersRead(states, limit))
  {
    hide Base, FindByPost, Total, Pins, Walk, Follow;
    var rows := Take(Base(states[0]), limit);
    FirstPage(states[0], limit);
    if |rows| == limit {
      FollowWalks(states[1..], rows[limit - 1], limit);
      IdsJoin(rows, Walk(Bases(states[1..]), Some(rows[limit - 1]), limit));
    } else {
      assert rows + [] == rows;
    }
  }

  ghost predicate StatesOk(states: seq<seq<Comment>>) {
    forall n | 0 <= n < |states| :: IdsDiffer(states[n])
  }

  lemma BasesAreTables(states: seq<seq<Comment>>)
    requires StatesOk(states)
    ensures Tables(Bases(states))
  {
    forall n | 0 <= n < |states| ensures Descending(Bases(states)[n]) { BaseIs(states[n]); }
  }

  /** After the pins, newest first and none twice. */
  lemma OthersDescend(states: seq<seq<Comment>>, limit: nat)
    requires states != [] && limit > 0 && StatesOk(states)
    ensures Descending(OthersRead(states, limit))
    ensures forall k <- OthersRead(states, limit) :: exists n | 0 <= n < |states| :: k in Base(states[n])
  {
    BaseIs(states[0]);
    BasesAreTables(states[1..]);
    var rows := Take(Base(states[0]), limit);
    if |rows| == limit {
      var tables := Bases(states[1..]);
      var cursor := Some(rows[limit - 1]);
      WalkDescends(tables, cursor, limit);
      DescendingJoins(rows, Walk(tables, cursor, limit));
      forall k <- Walk(tables, cursor, limit) ensures exists n | 0 <= n < |states| :: k in Base(states[n]) {
        WalkHas(tables, cursor, limit, k);
        var n :| 0 <= n < |tables| && k in tables[n];
        assert tables[n] == Base(states[n + 1]);
      }
    }
    forall k <- rows ensures k in Base(states[0]) {}
  }

  /** All the comments ever listed among the others are drawn from `rows`. */
  ghost predicate DrawnFrom(states: seq<seq<Comment>>, rows: set<Key>) {
    forall n, k | 0 <= n < |states| && k in Base(states[n]) :: k in rows
  }

  /** With comments drawn from a finite set, the reading ends. */
  lemma ReadingEnds(states: seq<seq<Comment>>, limit: nat, rows: set<Key>)
    requires limit > 0 && StatesOk(states) && DrawnFrom(states, rows) && |states| > |rows|
    ensures ReadsToEnd(states, limit)
  {
    hide Base, FindByPost, Ends, Older, IdsDiffer;
    FirstPage(states[0], limit);
    var first := Take(Base(states[0]), limit);
    if |first| == limit {
      var k := first[limit - 1];
      assert Base(states[0])[limit - 1] == k && k in Base(states[0]);
      BasesAreTables(states[1..]);
      OlderIsTotal(k, k);
      var below := Below(rows, Some(k));
      assert k in rows && k !in below;
      SmallerSet(below, rows, k);
      forall n, x | 0 <= n < |Bases(states[1..])| && x in Bases(states[1..])[n] ensures x in rows {
        assert x in Base(states[n + 1]);
      }
      WalkEnds(Bases(states[1..]), Some(k), limit, rows);
    }
  }

  /** A shown comment that stays as it is, pinned or not, is listed exactly once, whatever else is
      written, taken down, pinned or unpinned between the pages; and the reading ends. */
  lemma StayingCommentOnce(states: seq<seq<Comment>>, limit: nat, c: Comment, rows: set<Key>)
    requires limit > 0 && StatesOk(states) && DrawnFrom(states, rows) && |states| > |rows|
    requires Top(c) && forall n | 0 <= n < |states| :: c in states[n]
    ensures ReadsToEnd(states, limit) && Once(ReadAll(states, limit), c.id)
  {
    hide DrawnFrom, ReadsToEnd, ReadAll, StatesOk, Once, Top;
    ReadingEnds(states, limit, rows);
    StayingIsOnce(states, limit, c);
  }

  lemma StayingIsOnce(states: seq<seq<Comment>>, limit: nat, c: Comment)
    requires states != [] && limit > 0 && StatesOk(states) && ReadsToEnd(states, limit)
    requires Top(c) && forall n | 0 <= n < |states| :: c in states[n]
    ensures Once(ReadAll(states, limit), c.id)
  {
    ReadAllIs(states, limit);
    PinsAre(states[0]);
    var pins, others := Pins(states[0]), OthersRead(states, limit);
    OthersDescend(states, limit);
    forall k <- others ensures k.id == c.id ==> k == KeyOf(c) && InBase(c) {
      var n :| 0 <= n < |states| && k in Base(states[n]);
      BaseIs(states[n]);
      var d :| d in states[n] && InBase(d) && KeyOf(d) == k;
      if d.id == c.id { OneComment(states[n], c, d); }
    }
    forall p <- pins ensures p.id == c.id ==> p == c {
      if p.id == c.id { OneComment(states[0], c, p); }
    }
    if c.pinnedAt.Some? {
      OnceInPins(pins, others, c);
    } else {
      StaysInOthers(states, limit, c);
      OnceInOthers(pins, others, KeyOf(c));
    }
  }

  lemma OnceInPins(pins: seq<Comment>, others: seq<Key>, c: Comment)
    requires IdsDiffer(pins) && c in pins
    requires forall k <- others :: k.id != c.id
    ensures Once(CommentIds(pins) + IdsOf(others), c.id)
  {
    var ids := CommentIds(pins) + IdsOf(others);
    var i :| 0 <= i < |pins| && pins[i] == c;
    forall j | 0 <= j < |ids| && j != i ensures ids[j] != c.id {
      if j >= |pins| { assert others[j - |pins|] in others; }
    }
    assert ids[i] == c.id;
  }

  lemma OnceInOthers(pins: seq<Comment>, others: seq<Key>, k: Key)
    requires Descending(others) && k in others
    requires forall p <- pins :: p.id != k.id
    requires forall x <- others :: x.id == k.id ==> x == k
    ensures Once(CommentIds(pins) + IdsOf(others), k.id)
  {
    var ids := CommentIds(pins) + IdsOf(others);
    OnceEach(others);
    var n :| 0 <= n < |others| && others[n] == k;
    var i := |pins| + n;
    forall j | 0 <= j < |ids| && j != i ensures ids[j] != k.id {
      if j >= |pins| { assert others[j - |pins|] in others; }
      else { assert pins[j] in pins; }
    }
    assert ids[i] == k.id;
  }

  lemma StaysInOthers(states: seq<seq<Comment>>, limit: nat, c: Comment)
    requires states != [] && limit > 0 && StatesOk(states) && ReadsToEnd(states, limit)
    requires InBase(c) && forall n | 0 <= n < |states| :: c in states[n]
    ensures KeyOf(c) in OthersRead(states, limit)
  {
    hide Base, FindByPost, Walk, Ends, PageOf, Older, InBase, KeyOf, IdsDiffer, Descending;
    var k := KeyOf(c);
    assert c in states[0];
    var i := BaseHas(states[0], c);
    assert Descending(Base(states[0])) by { BaseIs(states[0]); }
    FirstPage(states[0], limit);
    var rows := Take(Base(states[0]), limit);
    if i < |rows| {
      assert rows[i] == k;
    } else {
      var tables := Bases(states[1..]);
      BasesAreTables(states[1..]);
      forall n | 0 <= n < |tables| ensures k in tables[n] {
        assert c in states[n + 1];
        var j := BaseHas(states[n + 1], c);
      }
      InOrder(Base(states[0]), limit - 1, i);
      WalkLists(tables, Some(rows[limit - 1]), limit, k);
    }
  }

  lemma InOrder(s: seq<Key>, i: nat, j: nat)
    requires Descending(s) && i < j < |s|
    ensures Older(s[j], s[i])
  {
  }

  /** With no change between the pages, every shown comment of the post itself is listed, and the total
      is the number of comments and replies that were listed. */
  lemma TotalIsListed(states: seq<seq<Comment>>, cs: seq<Comment>, limit: nat)
    requires limit > 0 && IdsDiffer(cs) && |states| > |cs|
    requires forall n | 0 <= n < |states| :: states[n] == cs
    ensures ReadsToEnd(states, limit)
    ensures var ids := ReadAll(states, limit);
      && (forall id :: id in ids <==> exists c <- cs :: Top(c) && c.id == id)
      && Total(cs) == |ids| + ListedUnder(cs, ids)
      && FindByPost(cs, false, 1, limit, NoCursor).total == Total(cs)
  {
    SameCommentsEnd(states, cs, limit);
    OthersAreBase(states, cs, limit);
    ReadAllIs(states, limit);
    assert states[0] == cs;
    ListedIs(cs);
    TotalIs(cs, CommentIds(Pins(cs)) + IdsOf(Base(cs)));
  }

  lemma SameCommentsEnd(states: seq<seq<Comment>>, cs: seq<Comment>, limit: nat)
    requires limit > 0 && IdsDiffer(cs) && |states| > |cs|
    requires forall n | 0 <= n < |states| :: states[n] == cs
    ensures ReadsToEnd(states, limit)
  {
    hide Base, ReadsToEnd, IdsDiffer, Where;
    var rows := set k <- Base(cs);
    SetOfSeq(Base(cs));
    BaseIs(cs);
    ReadingEnds(states, limit, rows);
  }

  lemma OthersAreBase(states: seq<seq<Comment>>, cs: seq<Comment>, limit: nat)
    requires states != [] && limit > 0 && IdsDiffer(cs) && ReadsToEnd(states, limit)
    requires forall n | 0 <= n < |states| :: states[n] == cs
    ensures OthersRead(states, limit) == Base(cs)
  {
    hide Base, FindByPost, Walk, Ends, PageOf, Older, After, InBase, IdsDiffer, Descending;
    assert states[0] == cs;
    BaseDescends(cs);
    var base := Base(cs);
    FirstPage(cs, limit);
    if |base| >= limit {
      var last := base[limit - 1];
      var tables := Bases(states[1..]);
      forall n | 0 <= n < |tables| ensures tables[n] == base {}
      WalkIsAll(tables, base, Some(last), limit);
      RestAfter(base, limit);
      assert base[..limit] + base[limit..] == base;
    }
  }

  lemma BaseDescends(cs: seq<Comment>)
    requires IdsDiffer(cs)
    ensures Descending(Base(cs))
  {
    BaseIs(cs);
  }

  lemma RestAfter(base: seq<Key>, limit: nat)
    requires Descending(base) && 0 < limit <= |base|
    ensures After(base, Some(base[limit - 1])) == base[limit..]
  {
    hide Older;
    var k := base[limit - 1];
    AfterIsDescending(base, Some(k));
    var tail, more := base[limit..], After(base, Some(k));
    forall x ensures x in tail <==> x in more { TailIsOlder(base, limit - 1, x); }
    TailDescends(base, limit);
    SameOrder(more, tail);
  }

  /** Pins and others together are the shown comments of the post itself, each once. */
  lemma ListedIs(cs: seq<Comment>)
    requires IdsDiffer(cs)
    ensures var ids := CommentIds(Pins(cs)) + IdsOf(Base(cs));
      && (forall id :: id in ids <==> exists c <- cs :: Top(c) && c.id == id)
      && (forall i, j | 0 <= i < j < |ids| :: ids[i] != ids[j])
      && |ids| == |Where(cs, Top)|
  {
    ListedCount(cs);
    hide Pins, Base, IdsDiffer, Where, Top;
    var ids := CommentIds(Pins(cs)) + IdsOf(Base(cs));
    forall id ensures id in ids <==> exists c <- cs :: Top(c) && c.id == id { ListedIff(cs, id); }
    forall i, j | 0 <= i < j < |ids| ensures ids[i] != ids[j] { ListedDiffer(cs, i, j); }
  }

  lemma ListedDiffer(cs: seq<Comment>, i: nat, j: nat)
    requires IdsDiffer(cs) && i < j < |CommentIds(Pins(cs)) + IdsOf(Base(cs))|
    ensures var ids := CommentIds(Pins(cs)) + IdsOf(Base(cs)); ids[i] != ids[j]
  {
    hide Pins, Base, IdsDiffer;
    var pins, base := Pins(cs), Base(cs);
    if i >= |pins| { BaseIdsDiffer(cs, i - |pins|, j - |pins|); }
    else if j >= |pins| { PinIsNotOther(cs, pins[i], base[j - |pins|]); }
    else { PinIdsDiffer(cs, i, j); }
  }

  lemma ListedCount(cs: seq<Comment>)
    requires IdsDiffer(cs)
    ensures |CommentIds(Pins(cs)) + IdsOf(Base(cs))| == |Where(cs, Top)|
  {
    PinsAre(cs);
    BaseIs(cs);
    CountParts(cs, (c: Comment) => Top(c) && c.pinnedAt.Some?, (c: Comment) => Top(c) && c.pinnedAt.None?, Top);
  }

  lemma PinIdsDiffer(cs: seq<Comment>, i: nat, j: nat)
    requires IdsDiffer(cs) && i < j < |Pins(cs)|
    ensures Pins(cs)[i].id != Pins(cs)[j].id
  {
    PinsAre(cs);
  }

  lemma ListedIff(cs: seq<Comment>, id: string)
    requires IdsDiffer(cs)
    ensures id in CommentIds(Pins(cs)) + IdsOf(Base(cs)) <==> exists c <- cs :: Top(c) && c.id == id
  {
    hide Pins, Base, IdsDiffer, KeyOf;
    var pins, base := Pins(cs), Base(cs);
    var ids := CommentIds(pins) + IdsOf(base);
    if id in ids {
      var i :| 0 <= i < |ids| && ids[i] == id;
      if i < |pins| { PinFrom(cs, i); } else { var c := BaseFrom(cs, i - |pins|); KeyHasId(c); }
    }
    if c :| c in cs && Top(c) && c.id == id {
      if c.pinnedAt.Some? {
        var i := PinHas(cs, c);
        assert ids[i] == id;
      } else {
        var i := BaseHas(cs, c);
        KeyHasId(c);
        assert ids[|pins| + i] == id;
      }
    }
  }

  lemma KeyHasId(c: Comment)
    ensures KeyOf(c).id == c.id
  {
  }

  lemma PinFrom(cs: seq<Comment>, i: nat)
    requires IdsDiffer(cs) && i < |Pins(cs)|
    ensures Pins(cs)[i] in cs && Top(Pins(cs)[i])
  {
    PinsAre(cs);
  }

  lemma PinHas(cs: seq<Comment>, c: Comment) returns (i: nat)
    requires IdsDiffer(cs) && c in cs && Top(c) && c.pinnedAt.Some?
    ensures i < |Pins(cs)| && Pins(cs)[i] == c
  {
    PinsAre(cs);
    i :| 0 <= i < |Pins(cs)| && Pins(cs)[i] == c;
  }

  lemma BaseIdsDiffer(cs: seq<Comment>, i: nat, j: nat)
    requires IdsDiffer(cs) && i < j < |Base(cs)|
    ensures Base(cs)[i].id != Base(cs)[j].id
  {
    BaseIs(cs);
    var base := Base(cs);
    OnceEach(base);
    assert base[i] in base && base[j] in base;
    var c :| c in cs && InBase(c) && KeyOf(c) == base[i];
    var d :| d in cs && InBase(d) && KeyOf(d) == base[j];
    if c.id == d.id { OneComment(cs, c, d); }
  }

  lemma PinIsNotOther(cs: seq<Comment>, p: Comment, k: Key)
    requires IdsDiffer(cs) && p in Pins(cs) && k in Base(cs)
    ensures p.id != k.id
  {
    PinsAre(cs);
    BaseIs(cs);
    var c :| c in cs && InBase(c) && KeyOf(c) == k;
    if c.id == p.id { OneComment(cs, c, p); }
  }

  lemma TotalIs(cs: seq<Comment>, ids: seq<string>)
    requires forall id :: id in ids <==> exists c <- cs :: Top(c) && c.id == id
    requires forall i, j | 0 <= i < j < |ids| :: ids[i] != ids[j]
    requires |ids| == |Where(cs, Top)|
    ensures Total(cs) == |ids| + ListedUnder(cs, ids)
  {
    RepliesUnder(cs, ids);
    var shown := set id <- ids;
    var both := (c: Comment) =>
      Top(c) || (c.shown && c.parent.Some? && exists p <- cs :: p.id == c.parent.value && Top(p));
    CountParts(cs, Top, (c: Comment) => Answers(c, shown), both);
  }

  // ---- pages by number ----

  function Numbered(cs: seq<Comment>, pages: nat, limit: nat): seq<string>
    requires limit > 0
  {
    if pages == 0 then [] else Numbered(cs, pages - 1, limit) + FindByPost(cs, false, pages, limit, NoCursor).listed
  }

  /** With no change between them, the first pages by number give the pins and then the newest of the
      others, none left out and none twice. */
  lemma {:induction false} NumberedPagesAreFirst(cs: seq<Comment>, pages: nat, limit: nat)
    requires limit > 0 && pages > 0
    ensures Numbered(cs, pages, limit) == CommentIds(Pins(cs)) + IdsOf(Take(Base(cs), pages * limit))
  {
    hide Base, Pins, Total, FindByPost, Take;
    if pages == 1 {
      FirstPage(cs, limit);
      assert Numbered(cs, 0, limit) == [];
    } else {
      NumberedPagesAreFirst(cs, pages - 1, limit);
      LaterPage(cs, pages, limit);
      var n := (pages - 1) * limit;
      assert pages * limit == n + limit;
      JoinPages(cs, Numbered(cs, pages - 1, limit), n, limit);
    }
  }

  lemma JoinPages(cs: seq<Comment>, before: seq<string>, n: nat, limit: nat)
    requires before == CommentIds(Pins(cs)) + IdsOf(Take(Base(cs), n))
    ensures before + IdsOf(Take(Skip(Base(cs), n), limit)) == CommentIds(Pins(cs)) + IdsOf(Take(Base(cs), n + limit))
  {
    hide Base, Pins, Take, Skip;
    TakeMore(Base(cs), n, limit);
    IdsJoin(Take(Base(cs), n), Take(Skip(Base(cs), n), limit));
  }

  function Skip(s: seq<Key>, n: nat): seq<Key> {
    if n > |s| then [] else s[n..]
  }

  lemma LaterPage(cs: seq<Comment>, page: nat, limit: nat)
    requires page > 1 && limit > 0
    ensures FindByPost(cs, false, page, limit, NoCursor).listed
      == IdsOf(Take(Skip(Base(cs), (page - 1) * limit), limit))
  {
    hide Base, Pins, Total;
  }

  lemma TakeMore(s: seq<Key>, n: nat, limit: nat)
    ensures Take(s, n) + Take(Skip(s, n), limit) == Take(s, n + limit)
  {
  }
}

/** The feed inbox of each profile: a sorted set of post ids that is cut to its newest entries. */
module FeedInbox {
  import opened StringOrder

  const INBOX_LIMIT: nat := 1000

  datatype Entry = Entry(score: int, id: string)

  // ---- the order of a sorted set: by score, then by member ----

  predicate Before(a: Entry, b: Entry) {
    a.score < b.score || (a.score == b.score && Less(a.id, b.id))
  }

  lemma BeforeTransitive(a: Entry, b: Entry, c: Entry)
    requires Before(a, b) && Before(b, c)
    ensures Before(a, c)
  {
    if a.score == b.score == c.score { LessTransitive(a.id, b.id, c.id); }
  }

  lemma BeforeIsTotal(a: Entry, b: Entry)
    ensures a == b || Before(a, b) || Before(b, a)
    ensures !(Before(a, b) && Before(b, a))
  {
    LessIsTotal(a.id, b.id);
  }

  ghost predicate Sorted(s: seq<Entry>) {
    forall i, j | 0 <= i < j < |s| :: Before(s[i], s[j])
  }

  ghost predicate OneEach(s: seq<Entry>) {
    forall i, j | 0 <= i < j < |s| :: s[i].id != s[j].id
  }

  /** The members in rising order, each once. */
  ghost predicate IsInbox(s: seq<Entry>) {
    Sorted(s) && OneEach(s)
  }

  // ---- the commands ----

  function Insert(s: seq<Entry>, e: Entry): (r: seq<Entry>)
    ensures |r| == |s| + 1
  {
    if s == [] || Before(e, s[0]) then [e] + s else [s[0]] + Insert(s[1..], e)
  }

  function Removed(s: seq<Entry>, ids: set<string>): (r: seq<Entry>)
    ensures |r| <= |s|
    ensures forall e <- r :: e in s && e.id !in ids
    ensures forall e <- s | e.id !in ids :: e in r
  {
    if s == [] then []
    else if s[0].id in ids then Removed(s[1..], ids)
    else [s[0]] + Removed(s[1..], ids)
  }

  /** ZADD: the member gets this score, whatever it had. */
  function Add(s: seq<Entry>, e: Entry): seq<Entry> {
    Insert(Removed(s, {e.id}), e)
  }

  /** ZREMRANGEBYRANK from the first to the one before the newest thousand. */
  function Trim(s: seq<Entry>): (r: seq<Entry>) {
    if |s| <= INBOX_LIMIT then s else s[|s| - INBOX_LIMIT..]
  }

  function Fan(s: seq<Entry>, e: Entry): seq<Entry> {
    Trim(Add(s, e))
  }

  lemma {:induction false} InsertHas(s: seq<Entry>, e: Entry)
    ensures forall x :: x in Insert(s, e) <==> x == e || x in s
  {
    if s != [] && !Before(e, s[0]) {
      InsertHas(s[1..], e);
      assert s == [s[0]] + s[1..];
    }
  }

  lemma {:induction false} InsertIsInbox(s: seq<Entry>, e: Entry)
    requires IsInbox(s) && forall x <- s :: x.id != e.id
    ensures IsInbox(Insert(s, e))
  {
    if s == [] { return; }
    if Before(e, s[0]) {
      forall j | 0 < j < |s| ensures Before(e, s[j]) { BeforeTransitive(e, s[0], s[j]); }
    } else {
      InsertIsInbox(s[1..], e);
      InsertHas(s[1..], e);
      BeforeIsTotal(e, s[0]);
      var r := Insert(s[1..], e);
      forall j | 0 <= j < |r| ensures Before(s[0], r[j]) && s[0].id != r[j].id {
        assert r[j] in r;
        if r[j] != e {
          var k :| 0 <= k < |s[1..]| && s[1..][k] == r[j];
          assert s[k + 1] == r[j];
        }
      }
    }
  }

  lemma {:induction false} RemovedJoins(p: seq<Entry>, q: seq<Entry>, ids: set<string>)
    ensures Removed(p + q, ids) == Removed(p, ids) + Removed(q, ids)
  {
    if p == [] { assert p + q == q; }
    else {
      assert (p + q)[1..] == p[1..] + q;
      RemovedJoins(p[1..], q, ids);
    }
  }

  lemma InRest(s: seq<Entry>, x: Entry) returns (k: nat)
    requires s != [] && x in s[1..]
    ensures 0 < k < |s| && s[k] == x
  {
    k :| 0 <= k < |s[1..]| && s[1..][k] == x;
    k := k + 1;
  }

  lemma RestIsInbox(s: seq<Entry>)
    requires s != [] && IsInbox(s)
    ensures IsInbox(s[1..])
  {
    hide Before;
  }

  lemma FirstIsBelow(s: seq<Entry>, x: Entry)
    requires IsInbox(s) && s != [] && x in s[1..]
    ensures Before(s[0], x) && s[0].id != x.id
  {
    hide Before;
    var k := InRest(s, x);
  }

  lemma {:induction false} RemovedIsInbox(s: seq<Entry>, ids: set<string>)
    requires IsInbox(s)
    ensures IsInbox(Removed(s, ids))
  {
    hide Before;
    if s != [] {
      RestIsInbox(s);
      RemovedIsInbox(s[1..], ids);
      var r := Removed(s[1..], ids);
      forall j | 0 <= j < |r| ensures Before(s[0], r[j]) && s[0].id != r[j].id {
        assert r[j] in r;
        FirstIsBelow(s, r[j]);
      }
    }
  }

  lemma AddIsInbox(s: seq<Entry>, e: Entry)
    requires IsInbox(s)
    ensures IsInbox(Add(s, e))
    ensures forall x :: x in Add(s, e) <==> x == e || (x in s && x.id != e.id)
  {
    RemovedIsInbox(s, {e.id});
    InsertIsInbox(Removed(s, {e.id}), e);
    InsertHas(Removed(s, {e.id}), e);
  }

  lemma TrimIsInbox(s: seq<Entry>)
    requires IsInbox(s)
    ensures IsInbox(Trim(s)) && |Trim(s)| <= INBOX_LIMIT
  {
  }

  // ---- trimming every time, or once ----

  lemma {:induction false} InsertAbove(p: seq<Entry>, q: seq<Entry>, e: Entry)
    requires forall x <- p :: !Before(e, x)
    ensures Insert(p + q, e) == p + Insert(q, e)
  {
    if p == [] { assert p + q == q; }
    else {
      assert p[0] in p && (p + q)[1..] == p[1..] + q;
      InsertAbove(p[1..], q, e);
    }
  }

  lemma {:induction false} InsertBelow(p: seq<Entry>, q: seq<Entry>, e: Entry, i: nat)
    requires i < |p| && Before(e, p[i])
    ensures Insert(p + q, e) == Insert(p, e) + q
  {
    if Before(e, p[0]) { assert [e] + (p + q) == [e] + p + q; }
    else {
      assert (p + q)[1..] == p[1..] + q;
      InsertBelow(p[1..], q, e, i - 1);
    }
  }

  /** No member is given a score below the one it has. */
  ghost predicate NotLower(s: seq<Entry>, e: Entry) {
    forall x <- s | x.id == e.id :: x.score <= e.score
  }

  lemma TrimSuffix(p: seq<Entry>, r: seq<Entry>)
    requires |r| >= INBOX_LIMIT
    ensures Trim(p + r) == Trim(r)
  {
  }

  /** Trimming before a push makes no difference to what is kept after it. */
  lemma TrimFirst(u: seq<Entry>, e: Entry)
    requires IsInbox(u) && NotLower(u, e)
    ensures Fan(Trim(u), e) == Fan(u, e)
  {
    hide IsInbox, Before;
    if |u| > INBOX_LIMIT {
      var n := |u| - INBOX_LIMIT;
      var p, t := u[..n], u[n..];
      assert u == p + t;
      RemovedJoins(p, t, {e.id});
      var p', t' := Removed(p, {e.id}), Removed(t, {e.id});
      if i :| 0 <= i < |p'| && Before(e, p'[i]) {
        InsertBelow(p', t', e, i);
        assert p'[i] in p;
        Stays(u, n, e, p'[i]);
        TrimSuffix(Insert(p', e), t);
        TrimSuffix([e], t);
      } else {
        forall x <- p' ensures !Before(e, x) {}
        InsertAbove(p', t', e);
        SuffixOneEach(u, n);
        RemovedCount(t, e.id);
        TrimSuffix(p', Insert(t', e));
      }
    }
  }

  lemma SuffixOneEach(u: seq<Entry>, n: nat)
    requires IsInbox(u) && n <= |u|
    ensures OneEach(u[n..])
  {
  }

  lemma {:induction false} RemovedNone(s: seq<Entry>, id: string)
    requires forall x <- s :: x.id != id
    ensures Removed(s, {id}) == s
  {
    hide Before;
    if s != [] {
      assert s[0] in s;
      RemovedNone(s[1..], id);
    }
  }

  lemma {:induction false} RemovedCount(s: seq<Entry>, id: string)
    requires OneEach(s)
    ensures |Removed(s, {id})| >= |s| - 1
  {
    hide Before;
    if s != [] {
      if s[0].id == id {
        forall x <- s[1..] ensures x.id != id { var k := InRest(s, x); }
        RemovedNone(s[1..], id);
      } else {
        RemovedCount(s[1..], id);
      }
    }
  }

  /** A push below something that is cut is cut too, and nothing else changes. */
  lemma Stays(u: seq<Entry>, n: nat, e: Entry, x: Entry)
    requires IsInbox(u) && NotLower(u, e) && n <= |u| && x in u[..n] && Before(e, x)
    ensures Removed(u[n..], {e.id}) == u[n..] && Insert(u[n..], e) == [e] + u[n..]
  {
    var t := u[n..];
    var k :| 0 <= k < n && u[k] == x;
    forall y <- t ensures y.id != e.id && Before(e, y) {
      var j :| 0 <= j < |t| && t[j] == y;
      assert y == u[n + j];
      assert Before(x, y);
      BeforeTransitive(e, x, y);
      if y.id == e.id { BeforeIsTotal(e, y); LessIsTotal(e.id, e.id); }
    }
    RemovedNone(t, e.id);
    if t != [] { assert t[0] in t; }
  }

  // ---- every push ever made ----

  /** Everything pushed, nothing cut. */
  function Pushed(h: seq<Entry>): seq<Entry>
    decreases |h|
  {
    if h == [] then [] else Add(Pushed(h[..|h| - 1]), h[|h| - 1])
  }

  /** The inbox as it is kept. */
  function Kept(h: seq<Entry>): seq<Entry>
    decreases |h|
  {
    if h == [] then [] else Fan(Kept(h[..|h| - 1]), h[|h| - 1])
  }

  ghost predicate ClockRuns(h: seq<Entry>) {
    forall i, j | 0 <= i < j < |h| :: h[i].score <= h[j].score
  }

  /** The k-th push is the last of its post. */
  ghost predicate IsLast(h: seq<Entry>, k: nat)
    requires k < |h|
  {
    forall j | k < j < |h| :: h[j].id != h[k].id
  }

  ghost predicate LastPush(h: seq<Entry>, e: Entry) {
    exists k: nat :: k < |h| && h[k] == e && IsLast(h, k)
  }

  /** Each post is in the full history once, at its last push. */
  lemma {:induction false} PushedHas(h: seq<Entry>)
    ensures IsInbox(Pushed(h))
    ensures forall e :: e in Pushed(h) <==> LastPush(h, e)
    decreases |h|
  {
    if h != [] {
      var g, x := h[..|h| - 1], h[|h| - 1];
      PushedHas(g);
      AddIsInbox(Pushed(g), x);
      forall e ensures e in Pushed(h) <==> LastPush(h, e) {
        LastAfter(h, e);
      }
    }
  }

  lemma LastAfter(h: seq<Entry>, e: Entry)
    requires h != []
    ensures var g, x := h[..|h| - 1], h[|h| - 1];
      LastPush(h, e) <==> e == x || (LastPush(g, e) && e.id != x.id)
  {
    var g, x := h[..|h| - 1], h[|h| - 1];
    if LastPush(h, e) {
      var k: nat :| k < |h| && h[k] == e && IsLast(h, k);
      if k < |g| {
        assert h[|h| - 1].id != h[k].id;
        assert g[k] == e && IsLast(g, k) by {
          forall j | k < j < |g| ensures g[j].id != g[k].id { assert h[j].id != h[k].id; }
        }
      }
    }
    if e == x { assert h[|h| - 1] == e && IsLast(h, |h| - 1); }
    if LastPush(g, e) && e.id != x.id {
      var k: nat :| k < |g| && g[k] == e && IsLast(g, k);
      assert h[k] == e;
      forall j | k < j < |h| ensures h[j].id != h[k].id { if j < |g| { assert g[j].id != g[k].id; } }
      assert IsLast(h, k);
    }
  }

  /** One post at a time, adding and trimming keeps exactly the newest of all posts ever pushed:
      what trimming the whole history once would leave. */
  lemma {:induction false} KeptIsNewest(h: seq<Entry>)
    requires ClockRuns(h)
    ensures Kept(h) == Trim(Pushed(h))
    decreases |h|
  {
    if h != [] {
      var g, x := h[..|h| - 1], h[|h| - 1];
      KeptIsNewest(g);
      PushedHas(g);
      forall y <- Pushed(g) ensures y.score <= x.score {
        var k: nat :| k < |g| && g[k] == y && IsLast(g, k);
        assert h[k] == y;
      }
      TrimFirst(Pushed(g), x);
    }
  }

  /** The same, said of one entry: it is kept exactly when it is the last push of its post and
      fewer than a thousand posts are newer. */
  lemma KeptIff(h: seq<Entry>, e: Entry)
    requires ClockRuns(h)
    ensures IsInbox(Kept(h)) && |Kept(h)| <= INBOX_LIMIT
    ensures e in Kept(h) <==> LastPush(h, e) && |Newer(h, e)| < INBOX_LIMIT
  {
    KeptIsNewest(h);
    PushedHas(h);
    var u := Pushed(h);
    TrimIsInbox(u);
    if LastPush(h, e) {
      var i :| 0 <= i < |u| && u[i] == e;
      NewerAre(h, i);
      hide IsInbox, Kept, Pushed, Newer, LastPush;
      InTrim(u, i);
    } else {
      assert forall x <- Trim(u) :: x in u;
    }
  }

  lemma InTrim(u: seq<Entry>, i: nat)
    requires i < |u| && IsInbox(u)
    ensures u[i] in Trim(u) <==> |u| - 1 - i < INBOX_LIMIT
  {
    var t := Trim(u);
    var n := |u| - |t|;
    if i >= n { assert t[i - n] == u[i]; }
    else { assert forall k | 0 <= k < |t| :: t[k] == u[k + n] && u[i].id != u[k + n].id; }
  }

  /** The last pushes that come after `e`. */
  ghost function Newer(h: seq<Entry>, e: Entry): set<Entry> {
    set k | 0 <= k < |h| && IsLast(h, k) && Before(e, h[k]) :: h[k]
  }

  lemma NewerAre(h: seq<Entry>, i: nat)
    requires i < |Pushed(h)| && IsInbox(Pushed(h)) && forall e :: e in Pushed(h) <==> LastPush(h, e)
    ensures |Newer(h, Pushed(h)[i])| == |Pushed(h)| - 1 - i
  {
    var u := Pushed(h);
    var above := u[i + 1..];
    var newer := Newer(h, u[i]);
    forall x ensures x in newer <==> x in above {
      if x in newer {
        var k :| 0 <= k < |h| && IsLast(h, k) && h[k] == x;
        assert LastPush(h, x);
        var j :| 0 <= j < |u| && u[j] == x;
        BeforeIsTotal(u[i], u[j]);
        assert j > i;
        assert above[j - i - 1] == x;
      }
      if x in above {
        var j :| 0 <= j < |above| && above[j] == x;
        assert u[i + 1 + j] == x;
        assert x in u;
        var k: nat :| k < |h| && h[k] == x && IsLast(h, k);
      }
    }
    assert newer == set x | x in above;
    Count(above);
  }

  lemma {:induction false} Count(s: seq<Entry>)
    requires OneEach(s)
    ensures |set x | x in s| == |s|
  {
    if s != [] {
      Count(s[1..]);
      assert (set x | x in s) == (set x | x in s[1..]) + {s[0]};
      forall k | 0 <= k < |s[1..]| ensures s[1..][k] != s[0] { assert s[1..][k] == s[k + 1]; }
    }
  }

  // ---- removals and rebuilds ----

  ghost function Ids(s: seq<Entry>): set<string> {
    set e <- s :: e.id
  }

  lemma {:induction false} SizeIsIds(s: seq<Entry>)
    requires OneEach(s)
    ensures |Ids(s)| == |s|
  {
    if s != [] {
      SizeIsIds(s[1..]);
      assert Ids(s) == Ids(s[1..]) + {s[0].id};
      forall x <- s[1..] ensures x.id != s[0].id {
        var k :| 0 <= k < |s[1..]| && s[1..][k] == x;
        assert s[k + 1] == x;
      }
    }
  }

  /** What a rebuild puts in: each recent post at the time it was made. */
  function Filled(s: seq<Entry>, posts: seq<Entry>): seq<Entry>
    decreases |posts|
  {
    if posts == [] then s else Add(Filled(s, posts[..|posts| - 1]), posts[|posts| - 1])
  }

  lemma {:induction false} FilledHas(s: seq<Entry>, posts: seq<Entry>)
    requires IsInbox(s) && OneEach(posts)
    ensures IsInbox(Filled(s, posts))
    ensures forall e :: e in Filled(s, posts) <==> e in posts || (e in s && e.id !in Ids(posts))
    decreases |posts|
  {
    if posts != [] {
      var g, x := posts[..|posts| - 1], posts[|posts| - 1];
      FilledHas(s, g);
      AddIsInbox(Filled(s, g), x);
      assert posts == g + [x];
      assert Ids(posts) == Ids(g) + {x.id};
    }
  }

  /** A command on one inbox. A rebuild is two of them, the purge and the filling, with the queries
      for the followed profiles and their posts between. */
  datatype Command = Push(e: Entry) | Prune(ids: set<string>) | Purge | Fill(posts: seq<Entry>)

  ghost predicate CommandOk(c: Command) {
    c.Fill? ==> |c.posts| <= INBOX_LIMIT && OneEach(c.posts)
  }

  function Done(s: seq<Entry>, c: Command): seq<Entry> {
    match c
    case Push(e) => Fan(s, e)
    case Prune(ids) => Removed(s, ids)
    case Purge => []
    case Fill(posts) => Filled(s, posts)
  }

  /** The inbox after the first `n` commands. */
  function At(commands: seq<Command>, n: nat): seq<Entry>
    requires n <= |commands|
  {
    if n == 0 then [] else Done(At(commands, n - 1), commands[n - 1])
  }

  lemma FilledIds(s: seq<Entry>, posts: seq<Entry>)
    requires IsInbox(s) && OneEach(posts)
    ensures Ids(Filled(s, posts)) == Ids(s) + Ids(posts)
  {
    FilledHas(s, posts);
    var f := Filled(s, posts);
    forall id ensures id in Ids(f) <==> id in Ids(s) + Ids(posts) {
      if id in Ids(posts) { var e :| e in posts && e.id == id; assert e in f; }
      else if id in Ids(s) { var e :| e in s && e.id == id; assert e in f; }
    }
  }

  /** Each post is there once: those that were there and are not recent, and the recent ones. */
  lemma FilledSize(s: seq<Entry>, posts: seq<Entry>)
    requires IsInbox(s) && OneEach(posts)
    ensures IsInbox(Filled(s, posts))
    ensures s == [] ==> |Filled(s, posts)| == |posts|
    ensures Ids(s) !! Ids(posts) ==> |Filled(s, posts)| == |s| + |posts|
  {
    hide Before, Filled;
    FilledHas(s, posts);
    FilledIds(s, posts);
    SizeIsIds(Filled(s, posts));
    SizeIsIds(s);
    SizeIsIds(posts);
    assert s == [] ==> Ids(s) == {};
  }

  lemma {:induction false} DoneIsInbox(s: seq<Entry>, c: Command)
    requires IsInbox(s) && CommandOk(c)
    ensures IsInbox(Done(s, c))
    ensures |s| <= INBOX_LIMIT && !c.Fill? ==> |Done(s, c)| <= INBOX_LIMIT
  {
    hide Before;
    match c
    case Push(e) => AddIsInbox(s, e); TrimIsInbox(Add(s, e));
    case Prune(ids) => RemovedIsInbox(s, ids);
    case Purge =>
    case Fill(posts) => FilledSize(s, posts);
  }

  ghost predicate WithinLimit(commands: seq<Command>, n: nat)
    requires n <= |commands|
  {
    forall k | 0 <= k <= n :: |At(commands, k)| <= INBOX_LIMIT
  }

  ghost predicate CommandsOk(commands: seq<Command>) {
    forall k | 0 <= k < |commands| :: CommandOk(commands[k])
  }

  lemma {:induction false} AtIsInbox(commands: seq<Command>, n: nat)
    requires n <= |commands| && CommandsOk(commands)
    ensures IsInbox(At(commands, n))
  {
    hide IsInbox, CommandOk, Done;
    if n > 0 {
      AtIsInbox(commands, n - 1);
      DoneIsInbox(At(commands, n - 1), commands[n - 1]);
    } else {
      EmptyIsInbox();
    }
  }

  lemma EmptyIsInbox()
    ensures IsInbox([])
  {
  }

  // ---- which fillings fit ----

  function Name(n: nat): (s: string)
    ensures |s| == n
  {
    seq(n, _ => 'p')
  }

  /** As many posts as a filling may have, with ids of at least that length. */
  function Recent(shortest: nat): (s: seq<Entry>)
    ensures |s| == INBOX_LIMIT && forall k | 0 <= k < INBOX_LIMIT :: |s[k].id| == shortest + k
    ensures OneEach(s) && forall e <- s :: |e.id| >= shortest
  {
    var s := seq(INBOX_LIMIT, k requires 0 <= k < INBOX_LIMIT => Entry(k, Name(shortest + k)));
    assert forall k | 0 <= k < INBOX_LIMIT :: s[k].id == Name(shortest + k);
    s
  }

  function Longest(s: seq<Entry>): (n: nat)
    ensures forall e <- s :: |e.id| < n
  {
    if s == [] then 0
    else
      var n := Longest(s[1..]);
      assert s == [s[0]] + s[1..];
      if |s[0].id| < n then n else |s[0].id| + 1
  }

  /** Posts none of which is in the inbox. */
  lemma NotInRecent(s: seq<Entry>)
    ensures Ids(s) !! Ids(Recent(Longest(s)))
  {
  }

  /** A filling fits, whatever the recent posts turn out to be, exactly when the inbox is empty. */
  lemma FitsIffEmpty(s: seq<Entry>)
    requires IsInbox(s)
    ensures (forall posts | CommandOk(Fill(posts)) :: |Done(s, Fill(posts))| <= INBOX_LIMIT) <==> s == []
  {
    hide Before, Filled, IsInbox, Recent, Longest;
    if s == [] {
      forall posts | CommandOk(Fill(posts)) ensures |Done(s, Fill(posts))| <= INBOX_LIMIT { FilledSize(s, posts); }
    } else {
      var posts := Recent(Longest(s));
      NotInRecent(s);
      FilledSize(s, posts);
      assert CommandOk(Fill(posts)) && |Done(s, Fill(posts))| > INBOX_LIMIT;
    }
  }

  /** The same commands, with other recent posts in the fillings. */
  ghost predicate SameShape(c: seq<Command>, d: seq<Command>) {
    |c| == |d| && forall k | 0 <= k < |c| :: c[k] == d[k] || (c[k].Fill? && d[k].Fill?)
  }

  /** The inbox stays within its limit at every moment, whatever the recent posts turn out to be. */
  ghost predicate WithinWhatever(c: seq<Command>) {
    forall d | SameShape(c, d) && CommandsOk(d) :: WithinLimit(d, |d|)
  }

  /** Every filling finds an empty inbox, whatever earlier fillings put in. */
  ghost predicate FillsEmpty(c: seq<Command>) {
    forall d, k | SameShape(c, d) && CommandsOk(d) && 0 <= k < |c| && c[k].Fill? :: At(d, k) == []
  }

  lemma {:induction false} SameStart(c: seq<Command>, d: seq<Command>, n: nat)
    requires n <= |c| && n <= |d| && forall k | 0 <= k < n :: c[k] == d[k]
    ensures At(c, n) == At(d, n)
  {
    hide Done;
    if n > 0 { SameStart(c, d, n - 1); }
  }

  lemma {:induction false} EmptyFillsFit(c: seq<Command>, n: nat)
    requires n <= |c| && CommandsOk(c) && forall k | 0 <= k < n && c[k].Fill? :: At(c, k) == []
    ensures WithinLimit(c, n)
  {
    hide Done, IsInbox, CommandsOk;
    if n > 0 {
      EmptyFillsFit(c, n - 1);
      NextFits(c, n);
      hide At;
    }
  }

  lemma NextFits(c: seq<Command>, n: nat)
    requires 0 < n <= |c| && CommandsOk(c) && |At(c, n - 1)| <= INBOX_LIMIT
    requires c[n - 1].Fill? ==> At(c, n - 1) == []
    ensures |At(c, n)| <= INBOX_LIMIT
  {
    hide Done, IsInbox, CommandOk;
    AtIsInbox(c, n - 1);
    DoneIsInbox(At(c, n - 1), c[n - 1]);
    if c[n - 1].Fill? { FillOfEmpty(c[n - 1].posts); }
  }

  lemma FillOfEmpty(posts: seq<Entry>)
    requires CommandOk(Fill(posts))
    ensures |Done([], Fill(posts))| <= INBOX_LIMIT
  {
    EmptyIsInbox();
    FilledSize([], posts);
  }

  /** A filling of an inbox that is not empty can go over: with other posts it would. */
  lemma FullFillGoesOver(c: seq<Command>, k: nat) returns (d: seq<Command>)
    requires CommandsOk(c) && k < |c| && c[k].Fill? && At(c, k) != []
    ensures SameShape(c, d) && CommandsOk(d) && !WithinLimit(d, |d|)
  {
    hide Done, IsInbox;
    AtIsInbox(c, k);
    FitsIffEmpty(At(c, k));
    var posts :| CommandOk(Fill(posts)) && |Done(At(c, k), Fill(posts))| > INBOX_LIMIT;
    d := c[k := Fill(posts)];
    SameStart(c, d, k);
    assert At(d, k + 1) == Done(At(d, k), d[k]);
  }

  /** In every run, with removals and rebuilds mixed in as they come, the inbox stays within its limit
      whatever the recent posts turn out to be - exactly when every filling finds it empty. */
  lemma WithinLimitIff(c: seq<Command>)
    ensures WithinWhatever(c) <==> FillsEmpty(c)
  {
    hide At, CommandOk;
    if FillsEmpty(c) {
      forall d | SameShape(c, d) && CommandsOk(d) ensures WithinLimit(d, |d|) { EmptyFillsFit(d, |d|); }
    }
    if WithinWhatever(c) {
      forall d, k | SameShape(c, d) && CommandsOk(d) && 0 <= k < |c| && c[k].Fill? ensures At(d, k) == [] {
        if At(d, k) != [] {
          var e := FullFillGoesOver(d, k);
          ShapesChain(c, d, e);
        }
      }
    }
  }

  lemma ShapesChain(c: seq<Command>, d: seq<Command>, e: seq<Command>)
    requires SameShape(c, d) && SameShape(d, e)
    ensures SameShape(c, e)
  {
  }

  /** Since the last purge, or the start, there were removals only. */
  predicate Quiet(c: seq<Command>, k: nat)
    requires k <= |c|
  {
    k == 0 || c[k - 1].Purge? || (c[k - 1].Prune? && Quiet(c, k - 1))
  }

  predicate FillsAlone(c: seq<Command>) {
    forall k | 0 <= k < |c| && c[k].Fill? :: Quiet(c, k)
  }

  lemma {:induction false} QuietIsEmpty(c: seq<Command>, d: seq<Command>, k: nat)
    requires SameShape(c, d) && k <= |c| && Quiet(c, k)
    ensures At(d, k) == []
  {
    if k > 0 && c[k - 1].Prune? { QuietIsEmpty(c, d, k - 1); }
  }

  /** So it does when nothing but removals comes between a rebuild's purge and its filling. */
  lemma AloneIsEnough(c: seq<Command>)
    requires FillsAlone(c)
    ensures FillsEmpty(c) && WithinWhatever(c)
  {
    hide At;
    forall d, k | SameShape(c, d) && CommandsOk(d) && 0 <= k < |c| && c[k].Fill? ensures At(d, k) == [] {
      QuietIsEmpty(c, d, k);
    }
    WithinLimitIff(c);
  }

  lemma PushLeavesSome(s: seq<Entry>, e: Entry)
    ensures Fan(s, e) != []
  {
  }

  /** Without removals it is exact: a push or another filling in between can take it over. */
  lemma AloneIff(c: seq<Command>)
    requires CommandsOk(c) && forall k | 0 <= k < |c| :: !c[k].Prune?
    ensures WithinWhatever(c) <==> FillsAlone(c)
  {
    hide Fan;
    WithinLimitIff(c);
    if FillsAlone(c) { AloneIsEnough(c); }
    if FillsEmpty(c) {
      forall k | 0 <= k < |c| && c[k].Fill? ensures Quiet(c, k) {
        if k > 0 { SomethingBefore(c, k); }
      }
    }
  }

  lemma SomethingBefore(c: seq<Command>, k: nat)
    requires CommandsOk(c) && FillsEmpty(c) && 0 < k < |c| && c[k].Fill?
    ensures !c[k - 1].Push? && !c[k - 1].Fill?
  {
    if c[k - 1].Push? || c[k - 1].Fill? { var d := Occupied(c, k); }
  }

  lemma Occupied(c: seq<Command>, k: nat) returns (d: seq<Command>)
    requires CommandsOk(c) && 0 < k < |c| && (c[k - 1].Push? || c[k - 1].Fill?)
    ensures SameShape(c, d) && CommandsOk(d) && At(d, k) != []
  {
    hide Fan, Filled, IsInbox;
    if c[k - 1].Push? {
      d := c;
      PushLeavesSome(At(c, k - 1), c[k - 1].e);
    } else {
      var e := Entry(0, Name(0));
      d := c[k - 1 := Fill([e])];
      AtIsInbox(d, k - 1);
      FilledHas(At(d, k - 1), [e]);
      assert e in [e] && At(d, k) == Filled(At(d, k - 1), [e]);
    }
  }

  /** A rebuild that nothing cuts in two: the inbox is exactly the recent posts. */
  lemma UncutRebuild(commands: seq<Command>, n: nat)
    requires n + 2 <= |commands| && CommandsOk(commands)
    requires commands[n].Purge? && commands[n + 1].Fill?
    ensures IsInbox(At(commands, n + 2)) && |At(commands, n + 2)| == |commands[n + 1].posts|
    ensures var posts := commands[n + 1].posts; forall e :: e in At(commands, n + 2) <==> e in posts
  {
    assert CommandOk(commands[n + 1]);
    var posts := commands[n + 1].posts;
    EmptyIsInbox();
    FilledHas([], posts);
    FilledSize([], posts);
    assert At(commands, n + 1) == [];
  }

  // ---- runs that go over ----

  /** One push between the purge and the filling. */
  lemma CutRebuildGoesOver(now: int)
    ensures var commands := [Purge, Push(Entry(now, Name(0))), Fill(Recent(1))];
      CommandsOk(commands) && |At(commands, 3)| == INBOX_LIMIT + 1
  {
    hide Recent, Filled;
    var e := Entry(now, Name(0));
    var commands := [Purge, Push(e), Fill(Recent(1))];
    assert At(commands, 1) == [];
    assert At(commands, 2) == Fan([], e) == [e];
    assert At(commands, 3) == Filled([e], Recent(1));
    OneIsInbox(e);
    FilledSize([e], Recent(1));
  }

  lemma OneIsInbox(e: Entry)
    ensures IsInbox([e])
  {
  }

  /** Two rebuilds at once, as two first pages of an empty inbox start them, that read other recent
      posts: no push is needed. */
  lemma OverlappingRebuildsGoOver()
    ensures var commands := [Purge, Purge, Fill(Recent(0)), Fill(Recent(1))];
      CommandsOk(commands) && |At(commands, 4)| > INBOX_LIMIT
  {
    hide Recent, Filled;
    var first, second := Recent(0), Recent(1);
    var commands := [Purge, Purge, Fill(first), Fill(second)];
    EmptyIsInbox();
    FilledSize([], first);
    FilledHas([], first);
    var s := Filled([], first);
    assert At(commands, 2) == [];
    assert At(commands, 3) == s;
    assert At(commands, 4) == Filled(s, second);
    FilledSize(s, second);
    FilledIds(s, second);
    SizeIsIds(Filled(s, second));
    SizeIsIds(second);
    var e := first[0];
    assert e in first && e in s && e.id in Ids(s) && e.id !in Ids(second);
    OneMore(Ids(second), Ids(s) + Ids(second), e.id);
  }

  lemma OneMore(a: set<string>, b: set<string>, id: string)
    requires a <= b && id in b && id !in a
    ensures |b| > |a|
  {
    assert b == a + (b - a) && |b - a| > 0 by { assert id in b - a; }
  }

  // ---- reading ----

  function Reverse(s: seq<Entry>): (r: seq<string>)
    ensures |r| == |s|
  {
    seq(|s|, k requires 0 <= k < |s| => s[|s| - 1 - k].id)
  }

  /** ZREVRANGE: ranks from the newest, with negative ranks counted from the oldest. */
  function ZRevRange(s: seq<Entry>, start: int, stop: int): seq<string> {
    var n := |s|;
    var from := if start >= 0 then start else if start + n < 0 then 0 else start + n;
    var to := if stop < 0 then stop + n else stop;
    if from > to || from >= n then [] else Reverse(s)[from..if to >= n then n else to + 1]
  }

  function Page(s: seq<Entry>, skip: nat, limit: nat): seq<string> {
    ZRevRange(s, skip, skip + limit - 1)
  }

  /** Pages one after another, until one starts past the end. */
  function PagesFrom(s: seq<Entry>, skip: nat, limit: nat): seq<string>
    requires limit > 0
    decreases |s| - skip
  {
    if skip >= |s| then [] else Page(s, skip, limit) + PagesFrom(s, skip + limit, limit)
  }

  /** They give the whole inbox once, newest first. */
  lemma {:induction false} PagesGiveAll(s: seq<Entry>, skip: nat, limit: nat)
    requires limit > 0
    ensures PagesFrom(s, skip, limit) == if skip >= |s| then [] else Reverse(s)[skip..]
    decreases |s| - skip
  {
    if skip < |s| { PagesGiveAll(s, skip + limit, limit); }
  }

  /** A page of nothing, asked for at the start, is the whole inbox: its end is rank minus one. */
  lemma EmptyPageIsAll(s: seq<Entry>, skip: nat)
    ensures Page(s, skip, 0) == if skip == 0 then Reverse(s) else []
  {
  }

  // ---- the service ----

  /** The pushes of one fan-out that reach a profile. */
  function Fanned(s: seq<Entry>, profile: string, followers: seq<string>, clock: seq<int>, post: string): seq<Entry>
    requires |clock| == |followers|
    decreases |followers|
  {
    if followers == [] then s
    else
      var n := |followers| - 1;
      var before := Fanned(s, profile, followers[..n], clock[..n], post);
      if followers[n] == profile then Fan(before, Entry(clock[n], post)) else before
  }

  lemma {:induction false} FannedNot(s: seq<Entry>, p: string, followers: seq<string>, clock: seq<int>, post: string)
    requires |clock| == |followers| && p !in followers
    ensures Fanned(s, p, followers, clock, post) == s
    decreases |followers|
  {
    if followers != [] {
      var n := |followers| - 1;
      FannedNot(s, p, followers[..n], clock[..n], post);
    }
  }

  /** A fan-out reaches each follower once and no one else. */
  lemma {:induction false} FannedOnce(s: seq<Entry>, i: nat, followers: seq<string>, clock: seq<int>, post: string)
    requires |clock| == |followers| && i < |followers|
    requires forall j | 0 <= j < |followers| && j != i :: followers[j] != followers[i]
    ensures Fanned(s, followers[i], followers, clock, post) == Fan(s, Entry(clock[i], post))
    decreases |followers|
  {
    var n := |followers| - 1;
    if i == n { FannedNot(s, followers[i], followers[..n], clock[..n], post); }
    else { FannedOnce(s, i, followers[..n], clock[..n], post); }
  }

  const CELEBRITY_THRESHOLD: nat := 5000

  datatype Strategy = Write | ReadHybrid

  class FeedInboxService {
    var inboxes: map<string, seq<Entry>>

    constructor ()
      ensures forall p :: InboxOf(p) == []
    {
      inboxes := map[];
    }

    function InboxOf(profile: string): seq<Entry>
      reads this
    {
      if profile in inboxes then inboxes[profile] else []
    }

    method FanoutToFollowers(followers: seq<string>, clock: seq<int>, post: string)
      requires |clock| == |followers|
      modifies this
      ensures forall p :: InboxOf(p) == Fanned(old(InboxOf(p)), p, followers, clock, post)
    {
      hide Fan;
      for k := 0 to |followers|
        invariant forall p :: InboxOf(p) == Fanned(old(InboxOf(p)), p, followers[..k], clock[..k], post)
      {
        var profile := followers[k];
        assert followers[..k + 1][..k] == followers[..k] && clock[..k + 1][..k] == clock[..k];
        var added := Add(InboxOf(profile), Entry(clock[k], post));
        TrimmedAdd(InboxOf(profile), Entry(clock[k], post));
        inboxes := inboxes[profile := Trim(added)];
      }
      assert followers[..|followers|] == followers && clock[..|clock|] == clock;
    }

    method FanoutHybrid(followers: seq<string>, clock: seq<int>, post: string) returns (strategy: Strategy, count: nat)
      requires |clock| == |followers|
      modifies this
      ensures |followers| >= CELEBRITY_THRESHOLD ==>
        strategy == ReadHybrid && count == 0 && forall p :: InboxOf(p) == old(InboxOf(p))
      ensures |followers| < CELEBRITY_THRESHOLD ==>
        && strategy == Write && count == |followers|
        && forall p :: InboxOf(p) == Fanned(old(InboxOf(p)), p, followers, clock, post)
    {
      if |followers| >= CELEBRITY_THRESHOLD {
        return ReadHybrid, 0;
      }
      FanoutToFollowers(followers, clock, post);
      return Write, |followers|;
    }

    method GetInbox(profile: string, skip: nat, limit: nat) returns (ids: seq<string>)
      ensures ids == Page(InboxOf(profile), skip, limit)
    {
      var end := skip + limit - 1;
      ids := ZRevRange(InboxOf(profile), skip, end);
    }

    method RemovePostsFromInbox(profile: string, ids: seq<string>)
      modifies this
      ensures InboxOf(profile) == Done(old(InboxOf(profile)), Prune(set id <- ids))
      ensures forall p | p != profile :: InboxOf(p) == old(InboxOf(p))
    {
      inboxes := inboxes[profile := Removed(InboxOf(profile), set id <- ids)];
    }

    method InvalidateUserFeedCache(profile: string)
      modifies this
      ensures InboxOf(profile) == Done(old(InboxOf(profile)), Purge)
      ensures forall p | p != profile :: InboxOf(p) == old(InboxOf(p))
    {
      inboxes := inboxes - {profile};
    }

    /** The second half of a rebuild. */
    method Repopulate(profile: string, posts: seq<Entry>) returns (count: nat)
      modifies this
      ensures InboxOf(profile) == Done(old(InboxOf(profile)), Fill(posts)) && count == |posts|
      ensures forall p | p != profile :: InboxOf(p) == old(InboxOf(p))
    {
      hide Add;
      for k := 0 to |posts|
        invariant InboxOf(profile) == Filled(old(InboxOf(profile)), posts[..k])
        invariant forall p | p != profile :: InboxOf(p) == old(InboxOf(p))
      {
        assert posts[..k + 1][..k] == posts[..k];
        inboxes := inboxes[profile := Add(InboxOf(profile), posts[k])];
      }
      assert posts[..|posts|] == posts;
      count := |posts|;
    }
  }

  lemma TrimmedAdd(s: seq<Entry>, e: Entry)
    ensures Trim(Add(s, e)) == Fan(s, e)
  {
  }
}

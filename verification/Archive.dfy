/** A person's archive of posts and frames. */
module Archive {
  import opened Optional
  import opened Keyset

  const ARCHIVE_PAGE_MAX: int := 60

  datatype Post = Post(
    id: string, profileId: string, frame: bool, archivedAt: Option<int>, deleted: bool, removed: bool)

  /** Ids are the table's primary key. */
  ghost predicate IdsDiffer(posts: seq<Post>) {
    forall i, j | 0 <= i < j < |posts| :: posts[i].id != posts[j].id
  }

  predicate Listed(p: Post, profileId: string, frame: bool) {
    p.profileId == profileId && p.frame == frame && p.archivedAt.Some? && !p.deleted && !p.removed
  }

  function Keys(posts: seq<Post>, profileId: string, frame: bool): (ks: seq<Key>)
    ensures forall k :: k in ks <==>
      exists p <- posts :: Listed(p, profileId, frame) && k == Key(p.archivedAt.value, p.id)
  {
    if posts == [] then []
    else
      var p, rest := posts[0], Keys(posts[1..], profileId, frame);
      assert posts == [p] + posts[1..];
      if Listed(p, profileId, frame) then [Key(p.archivedAt.value, p.id)] + rest else rest
  }

  lemma {:induction false} KeysDiffer(posts: seq<Post>, profileId: string, frame: bool)
    requires IdsDiffer(posts)
    ensures Distinct(Keys(posts, profileId, frame))
  {
    if posts != [] {
      KeysDiffer(posts[1..], profileId, frame);
      var rest := Keys(posts[1..], profileId, frame);
      forall j | 0 <= j < |rest| ensures rest[j].id != posts[0].id {
        assert rest[j] in rest;
        var p :| p in posts[1..] && rest[j].id == p.id;
        var i :| 0 <= i < |posts[1..]| && posts[1..][i] == p;
        assert p == posts[i + 1];
      }
    }
  }

  /** The archive as it is listed. */
  function Table(posts: seq<Post>, profileId: string, frame: bool): seq<Key> {
    Ordered(Keys(posts, profileId, frame))
  }

  lemma TableIs(posts: seq<Post>, profileId: string, frame: bool)
    requires IdsDiffer(posts)
    ensures Descending(Table(posts, profileId, frame))
    ensures forall p <- posts | Listed(p, profileId, frame) ::
      Key(p.archivedAt.value, p.id) in Table(posts, profileId, frame)
  {
    KeysDiffer(posts, profileId, frame);
    OrderedIs(Keys(posts, profileId, frame));
  }

  function WithArchived(posts: seq<Post>, id: string, at: Option<int>): (r: seq<Post>)
    ensures |r| == |posts|
    ensures forall i | 0 <= i < |posts| :: r[i] == if posts[i].id == id then posts[i].(archivedAt := at) else posts[i]
  {
    seq(|posts|, i requires 0 <= i < |posts| => if posts[i].id == id then posts[i].(archivedAt := at) else posts[i])
  }

  predicate Own(p: Post, profileId: string) {
    p.profileId == profileId && !p.deleted && !p.removed
  }

  function Find(posts: seq<Post>, id: string): (r: Option<Post>)
    ensures r.Some? ==> r.value in posts && r.value.id == id
    ensures r.None? ==> forall p <- posts :: p.id != id
  {
    if posts == [] then None
    else
      assert posts == [posts[0]] + posts[1..];
      if posts[0].id == id then Some(posts[0]) else Find(posts[1..], id)
  }

  class ArchiveService {
    var posts: seq<Post>

    constructor (rows: seq<Post>)
      ensures posts == rows
    {
      posts := rows;
    }

    /** No answer is "not found". */
    method Archive(profileId: string, id: string, now: int) returns (archivedAt: Option<int>)
      modifies this
      ensures archivedAt.Some? <==>
        exists p <- old(posts) :: p.id == id && Find(old(posts), id) == Some(p) && Own(p, profileId)
      ensures archivedAt.None? ==> posts == old(posts)
      ensures archivedAt.Some? ==>
        && (var was := Find(old(posts), id).value.archivedAt; archivedAt == if was.Some? then was else Some(now))
        && posts == if Find(old(posts), id).value.archivedAt.Some? then old(posts)
                    else WithArchived(old(posts), id, Some(now))
    {
      var held := Find(posts, id);
      if held.None? || !Own(held.value, profileId) {
        return None;
      }
      if held.value.archivedAt.Some? {
        return held.value.archivedAt;
      }
      posts := WithArchived(posts, id, Some(now));
      return Some(now);
    }

    method Unarchive(profileId: string, id: string) returns (found: bool)
      modifies this
      ensures found <==> exists p <- old(posts) :: p.id == id && Find(old(posts), id) == Some(p) && Own(p, profileId)
      ensures posts ==
        if found && Find(old(posts), id).value.archivedAt.Some? then WithArchived(old(posts), id, None) else old(posts)
    {
      var held := Find(posts, id);
      if held.None? || !Own(held.value, profileId) {
        return false;
      }
      if held.value.archivedAt.Some? {
        posts := WithArchived(posts, id, None);
      }
      return true;
    }

    method List(profileId: string, frame: bool, cursor: Option<Key>, limit: int) returns (page: Page)
      ensures page == PageOf(Table(posts, profileId, frame), cursor, PageSize(limit))
    {
      var size := PageSize(limit);
      var rows := Take(After(Table(posts, profileId, frame), cursor), size + 1);
      var shown := Take(rows, size);
      var items: seq<Key> := [];
      for i := 0 to |shown|
        invariant items == shown[..i]
      {
        items := items + [shown[i]];
      }
      page := Page(items, if |rows| > size then Some(shown[|shown| - 1]) else None);
    }
  }

  function PageSize(limit: int): nat {
    var atLeastOne := if limit < 1 then 1 else limit;
    if atLeastOne > ARCHIVE_PAGE_MAX then ARCHIVE_PAGE_MAX else atLeastOne
  }

  // ---- reading the archive while it changes ----

  function TablesOf(states: seq<seq<Post>>, profileId: string, frame: bool): (t: seq<seq<Key>>)
    ensures |t| == |states|
  {
    seq(|states|, n requires 0 <= n < |states| => Table(states[n], profileId, frame))
  }

  /** Archiving or showing one post moves no other in the list. */
  lemma OthersStay(posts: seq<Post>, id: string, at: Option<int>, profileId: string, frame: bool, k: Key)
    requires IdsDiffer(posts) && k.id != id
    ensures IdsDiffer(WithArchived(posts, id, at))
    ensures k in Table(posts, profileId, frame) <==> k in Table(WithArchived(posts, id, at), profileId, frame)
  {
    var after := WithArchived(posts, id, at);
    KeysDiffer(posts, profileId, frame);
    OrderedIs(Keys(posts, profileId, frame));
    KeysDiffer(after, profileId, frame);
    OrderedIs(Keys(after, profileId, frame));
    if k in Keys(posts, profileId, frame) {
      var p :| p in posts && Listed(p, profileId, frame) && k == Key(p.archivedAt.value, p.id);
      var i :| 0 <= i < |posts| && posts[i] == p;
      assert after[i] == p;
    }
    if k in Keys(after, profileId, frame) {
      var p :| p in after && Listed(p, profileId, frame) && k == Key(p.archivedAt.value, p.id);
      var i :| 0 <= i < |after| && after[i] == p;
      assert posts[i] == p;
    }
  }

  /** All the rows ever listed are drawn from `rows`. */
  ghost predicate DrawnFrom(tables: seq<seq<Key>>, rows: set<Key>) {
    forall n, k | 0 <= n < |tables| && k in tables[n] :: k in rows
  }

  lemma IdHasOneKey(posts: seq<Post>, profileId: string, frame: bool, p: Post, k: Key)
    requires IdsDiffer(posts) && p in posts && Listed(p, profileId, frame)
    requires k in Table(posts, profileId, frame) && k.id == p.id
    ensures k == Key(p.archivedAt.value, p.id)
  {
    KeysDiffer(posts, profileId, frame);
    OrderedIs(Keys(posts, profileId, frame));
    var q :| q in posts && Listed(q, profileId, frame) && k == Key(q.archivedAt.value, q.id);
    var i :| 0 <= i < |posts| && posts[i] == p;
    var j :| 0 <= j < |posts| && posts[j] == q;
  }

  /** Whatever is archived, shown again, deleted or removed between pages, following the cursors from the
      top comes to an end and lists a post that stays archived exactly once. */
  lemma StayingPostOnce(states: seq<seq<Post>>, profileId: string, frame: bool, limit: int, p: Post, rows: set<Key>)
    requires forall n | 0 <= n < |states| :: IdsDiffer(states[n]) && p in states[n]
    requires Listed(p, profileId, frame)
    requires DrawnFrom(TablesOf(states, profileId, frame), rows) && |states| > |rows|
    ensures Ends(TablesOf(states, profileId, frame), None, PageSize(limit))
    ensures var walk := Walk(TablesOf(states, profileId, frame), None, PageSize(limit));
      Descending(walk) && Key(p.archivedAt.value, p.id) in walk && Once(IdsOf(walk), p.id)
  {
    var tables := TablesOf(states, profileId, frame);
    var size, k := PageSize(limit), Key(p.archivedAt.value, p.id);
    hide Walk, Ends, Once, Table, Descending, IdsDiffer, Listed;
    forall n | 0 <= n < |tables| ensures Descending(tables[n]) && k in tables[n] {
      assert p in states[n];
      TableIs(states[n], profileId, frame);
    }
    Subset(Below(rows, None), rows);
    WalkEnds(tables, None, size, rows);
    WalkLists(tables, None, size, k);
    WalkDescends(tables, None, size);
    var walk := Walk(tables, None, size);
    forall x <- walk ensures x.id == k.id ==> x == k {
      WalkHas(tables, None, size, x);
      var n :| 0 <= n < |tables| && x in tables[n];
      if x.id == k.id { IdHasOneKey(states[n], profileId, frame, p, x); }
    }
    KeyOnce(walk, k);
  }
}

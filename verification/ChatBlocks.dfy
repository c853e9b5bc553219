/** Who is in a block with whom in a chat, and messages as each member sees them. */
module ChatBlocks {
  import opened Optional

  datatype Block = Block(blocker: string, blocked: string)

  // ---- the blocks of one viewer, and of a whole group ----

  /** Ids that are there and not empty. */
  function Present(profileIds: seq<Option<string>>): set<string> {
    set id <- profileIds | id.Some? && id.value != [] :: id.value
  }

  predicate InBlock(db: seq<Block>, a: string, b: string) {
    Block(a, b) in db || Block(b, a) in db
  }

  /** One viewer: of the others given, those in a block with them, either way. */
  function BlockedWithViewer(db: seq<Block>, viewer: Option<string>, profileIds: seq<Option<string>>): set<string> {
    if viewer.None? || viewer.value == [] then {}
    else set id <- Present(profileIds) | id != viewer.value && InBlock(db, viewer.value, id)
  }

  function Of(pairs: map<string, set<string>>, id: string): set<string> {
    if id in pairs then pairs[id] else {}
  }

  function Added(pairs: map<string, set<string>>, a: string, b: string): map<string, set<string>> {
    pairs[a := Of(pairs, a) + {b}]
  }

  /** The rows one query returns for a group. */
  function Among(db: seq<Block>, ids: set<string>): (r: seq<Block>)
    ensures forall b :: b in r <==> b in db && b.blocker in ids && b.blocked in ids
  {
    if db == [] then []
    else
      assert db == [db[0]] + db[1..];
      if db[0].blocker in ids && db[0].blocked in ids then [db[0]] + Among(db[1..], ids) else Among(db[1..], ids)
  }

  /** A map of the blocks in `rows`, as each side sees them. */
  ghost predicate MapsRows(pairs: map<string, set<string>>, rows: seq<Block>) {
    forall a, b :: b in Of(pairs, a) <==> InBlock(rows, a, b)
  }

  lemma AddBoth(pairs: map<string, set<string>>, rows: seq<Block>, row: Block)
    requires MapsRows(pairs, rows)
    ensures MapsRows(Added(Added(pairs, row.blocker, row.blocked), row.blocked, row.blocker), rows + [row])
  {
    var after := Added(Added(pairs, row.blocker, row.blocked), row.blocked, row.blocker);
    forall a, b ensures b in Of(after, a) <==> InBlock(rows + [row], a, b) {
      assert b in Of(pairs, a) <==> InBlock(rows, a, b);
    }
  }

  method BlocksAmong(db: seq<Block>, profileIds: seq<Option<string>>) returns (pairs: map<string, set<string>>)
    ensures var ids := Present(profileIds);
      if |ids| < 2 then pairs == map[] else MapsRows(pairs, Among(db, ids))
  {
    var ids := Present(profileIds);
    pairs := map[];
    if |ids| < 2 {
      return;
    }
    var blocks := Among(db, ids);
    for k := 0 to |blocks|
      invariant MapsRows(pairs, blocks[..k])
    {
      var b := blocks[k];
      AddBoth(pairs, blocks[..k], b);
      assert blocks[..k + 1] == blocks[..k] + [b];
      pairs := Added(pairs, b.blocker, b.blocked);
      pairs := Added(pairs, b.blocked, b.blocker);
    }
    assert blocks[..|blocks|] == blocks;
  }

  lemma TwoMembers(ids: set<string>, a: string, b: string)
    requires a in ids && b in ids && a != b
    ensures |ids| >= 2
  {
    assert {a, b} <= ids;
    assert ids == {a, b} + (ids - {a, b});
  }

  /** For every block relation and every list of ids, the map of the group is the same seen from both
      sides; and it gives each member what the query for them alone gives, exactly when the member is not
      in a block with themselves (or there is no one else). */
  lemma GroupIsEachViewer(db: seq<Block>, profileIds: seq<Option<string>>, pairs: map<string, set<string>>)
    requires var ids := Present(profileIds);
      if |ids| < 2 then pairs == map[] else MapsRows(pairs, Among(db, ids))
    ensures forall a, b :: b in Of(pairs, a) <==> a in Of(pairs, b)
    ensures forall v <- Present(profileIds) ::
      Of(pairs, v) == BlockedWithViewer(db, Some(v), profileIds)
      <==> (Block(v, v) !in db || |Present(profileIds)| < 2)
  {
    var ids := Present(profileIds);
    var rows := Among(db, ids);
    forall a, b ensures b in Of(pairs, a) <==> a in Of(pairs, b) {
      if |ids| >= 2 {
        assert b in Of(pairs, a) <==> InBlock(rows, a, b);
        assert a in Of(pairs, b) <==> InBlock(rows, b, a);
      }
    }
    forall v <- ids
      ensures Of(pairs, v) == BlockedWithViewer(db, Some(v), profileIds) <==> (Block(v, v) !in db || |ids| < 2)
    {
      var alone := BlockedWithViewer(db, Some(v), profileIds);
      if |ids| < 2 {
        forall b <- alone ensures false { TwoMembers(ids, v, b); }
        assert Of(pairs, v) == alone;
      } else {
        forall b ensures b in Of(pairs, v) <==> b in alone || (b == v && Block(v, v) in db) {
          assert b in Of(pairs, v) <==> InBlock(rows, v, b);
        }
        assert v in Of(pairs, v) <==> Block(v, v) in db;
        assert v !in alone;
      }
    }
  }

  // ---- masking ----

  datatype Field = Absent | Null | Text(text: string)

  datatype Person = Person(id: Option<string>, username: Field, avatar: Field, fullName: Field, unavailable: bool)

  function Nulled(f: Field): Field {
    if f.Absent? then Absent else Null
  }

  function UnavailableProfile(p: Person): Person {
    Person(p.id, Nulled(p.username), Nulled(p.avatar), Nulled(p.fullName), true)
  }

  function IdOnlyProfile(p: Person): Person {
    Person(p.id, Absent, Absent, Absent, false)
  }

  /** Nothing to recognise the person by. */
  predicate Hidden(p: Person) {
    !p.username.Text? && !p.avatar.Text? && !p.fullName.Text?
  }

  predicate IsViewer(owner: Option<string>, viewer: Option<string>) {
    owner.Some? && owner.value != [] && owner == viewer
  }

  /** `blocked` is none when the blocks could not be read. */
  function PersonFor(p: Person, owner: Option<string>, blocked: Option<set<string>>, viewer: Option<string>): Person {
    if IsViewer(owner, viewer) then p
    else if blocked.None? then IdOnlyProfile(p)
    else if owner.Some? && owner.value != [] && owner.value in blocked.value then UnavailableProfile(p)
    else p
  }

  /** A person in a message, with the id of whose profile it is, which may be missing. */
  datatype Owned = Owned(profileId: Option<string>, profile: Option<Person>)

  function OwnerOf(o: Owned): Option<string> {
    if o.profileId.Some? then o.profileId else if o.profile.Some? then o.profile.value.id else None
  }

  datatype Message = Message(
    senderId: Option<string>, sender: Option<Person>, replyTo: Option<Owned>,
    post: Option<Owned>, story: Option<Owned>, reactions: Option<seq<Owned>>)

  function MaskOwned(o: Owned, blocked: Option<set<string>>, viewer: Option<string>): Owned {
    if o.profile.None? then o
    else o.(profile := Some(PersonFor(o.profile.value, OwnerOf(o), blocked, viewer)))
  }

  function MaskSome(o: Option<Owned>, blocked: Option<set<string>>, viewer: Option<string>): Option<Owned> {
    if o.None? then None else Some(MaskOwned(o.value, blocked, viewer))
  }

  function MaskAll(os: seq<Owned>, blocked: Option<set<string>>, viewer: Option<string>): (r: seq<Owned>)
    ensures |r| == |os|
  {
    seq(|os|, i requires 0 <= i < |os| => MaskOwned(os[i], blocked, viewer))
  }

  /** A message as one member sees it. */
  function MaskMessage(m: Message, blocked: Option<set<string>>, viewer: Option<string>): Message {
    if blocked.Some? && blocked.value == {} then m
    else Message(
      m.senderId,
      if m.sender.None? then None else Some(PersonFor(m.sender.value, m.senderId, blocked, viewer)),
      MaskSome(m.replyTo, blocked, viewer),
      MaskSome(m.post, blocked, viewer),
      MaskSome(m.story, blocked, viewer),
      if m.reactions.None? then None else Some(MaskAll(m.reactions.value, blocked, viewer)))
  }

  /** A place in a message where a person is shown, and whose profile it is taken for. */
  datatype Shown = Shown(owner: Option<string>, person: Option<Person>)

  function Place(o: Owned): Shown {
    Shown(OwnerOf(o), o.profile)
  }

  function Places(os: seq<Owned>): (r: seq<Shown>)
    ensures |r| == |os|
  {
    seq(|os|, i requires 0 <= i < |os| => Place(os[i]))
  }

  function PlaceOf(o: Option<Owned>): seq<Shown> {
    if o.None? then [] else [Place(o.value)]
  }

  /** Everyone a message shows: the sender, the sender quoted, the authors shared, those who reacted. */
  function People(m: Message): seq<Shown> {
    [Shown(m.senderId, m.sender)] + PlaceOf(m.replyTo) + PlaceOf(m.post) + PlaceOf(m.story)
    + (if m.reactions.None? then [] else Places(m.reactions.value))
  }

  predicate IsBlocked(s: Shown, blocked: set<string>, viewer: Option<string>) {
    !IsViewer(s.owner, viewer) && s.owner.Some? && s.owner.value != [] && s.owner.value in blocked
  }

  function Masked(s: Shown, blocked: Option<set<string>>, viewer: Option<string>): Shown {
    if s.person.None? then s else Shown(s.owner, Some(PersonFor(s.person.value, s.owner, blocked, viewer)))
  }

  function AllMasked(s: seq<Shown>, blocked: Option<set<string>>, viewer: Option<string>): (r: seq<Shown>)
    ensures |r| == |s|
  {
    seq(|s|, i requires 0 <= i < |s| => Masked(s[i], blocked, viewer))
  }

  lemma AllMaskedJoins(a: seq<Shown>, b: seq<Shown>, blocked: Option<set<string>>, viewer: Option<string>)
    ensures AllMasked(a + b, blocked, viewer) == AllMasked(a, blocked, viewer) + AllMasked(b, blocked, viewer)
  {
  }

  lemma PlaceMasked(o: Owned, blocked: Option<set<string>>, viewer: Option<string>)
    ensures Place(MaskOwned(o, blocked, viewer)) == Masked(Place(o), blocked, viewer)
  {
  }

  lemma PlaceOfMasked(o: Option<Owned>, blocked: Option<set<string>>, viewer: Option<string>)
    ensures PlaceOf(MaskSome(o, blocked, viewer)) == AllMasked(PlaceOf(o), blocked, viewer)
  {
    if o.Some? { PlaceMasked(o.value, blocked, viewer); }
  }

  lemma PlacesMasked(os: seq<Owned>, blocked: Option<set<string>>, viewer: Option<string>)
    ensures Places(MaskAll(os, blocked, viewer)) == AllMasked(Places(os), blocked, viewer)
  {
    forall i | 0 <= i < |os| ensures Place(MaskOwned(os[i], blocked, viewer)) == Masked(Place(os[i]), blocked, viewer) {
      PlaceMasked(os[i], blocked, viewer);
    }
  }

  lemma MaskedPeople(m: Message, blocked: Option<set<string>>, viewer: Option<string>)
    requires blocked.Some? ==> blocked.value != {}
    ensures People(MaskMessage(m, blocked, viewer)) == AllMasked(People(m), blocked, viewer)
  {
    PlaceOfMasked(m.replyTo, blocked, viewer);
    PlaceOfMasked(m.post, blocked, viewer);
    PlaceOfMasked(m.story, blocked, viewer);
    var reactions := if m.reactions.None? then [] else m.reactions.value;
    PlacesMasked(reactions, blocked, viewer);
    var sender := [Shown(m.senderId, m.sender)];
    assert AllMasked(sender, blocked, viewer) == [Masked(sender[0], blocked, viewer)];
    hide PlaceOf, Places, MaskSome, MaskAll, PersonFor, AllMasked;
    var a, b, c := PlaceOf(m.replyTo), PlaceOf(m.post), PlaceOf(m.story);
    var d := if m.reactions.None? then [] else Places(m.reactions.value);
    EmptyMasked(blocked, viewer);
    AllMaskedJoins(sender, a, blocked, viewer);
    AllMaskedJoins(sender + a, b, blocked, viewer);
    AllMaskedJoins(sender + a + b, c, blocked, viewer);
    AllMaskedJoins(sender + a + b + c, d, blocked, viewer);
  }

  lemma EmptyMasked(blocked: Option<set<string>>, viewer: Option<string>)
    ensures AllMasked([], blocked, viewer) == []
  {
  }

  /** With the blocks known, a message hides the name, handle and picture of exactly the people in a
      block with the viewer, in each of its places, and changes no one else; everyone stays in place. */
  lemma MaskHidesTheBlocked(m: Message, blocked: set<string>, viewer: Option<string>)
    ensures var before, after := People(m), People(MaskMessage(m, Some(blocked), viewer));
      && |after| == |before|
      && forall i | 0 <= i < |before| ::
           && after[i].owner == before[i].owner
           && (if IsBlocked(before[i], blocked, viewer) && before[i].person.Some?
               then after[i].person.Some? && Hidden(after[i].person.value) && after[i].person.value.unavailable
               else after[i] == before[i])
  {
    hide People, MaskMessage;
    if blocked != {} { MaskedPeople(m, Some(blocked), viewer); }
    else { NoBlocksNoMask(m, viewer); }
  }

  lemma NoBlocksNoMask(m: Message, viewer: Option<string>)
    ensures MaskMessage(m, Some({}), viewer) == m
  {
  }

  /** With the blocks unknown, only the viewer is shown; of anyone else there is at most an id. */
  lemma UnknownBlocksHideAll(m: Message, viewer: Option<string>)
    ensures var before, after := People(m), People(MaskMessage(m, None, viewer));
      && |after| == |before|
      && forall i | 0 <= i < |before| && before[i].person.Some? ::
           && after[i].owner == before[i].owner && after[i].person.Some?
           && (if IsViewer(before[i].owner, viewer) then after[i] == before[i] else Hidden(after[i].person.value))
  {
    hide People, MaskMessage;
    MaskedPeople(m, None, viewer);
  }
}

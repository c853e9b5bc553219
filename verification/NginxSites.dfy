/** Releasing and answering over a whole site file. */
module NginxSites {
  import opened Optional
  import opened NginxScan
  import opened NginxNames
  import opened NginxFile
  import opened NginxEdit
  import opened NginxTools

  // ---- cutting, once more ----

  lemma FoundStep(text: string, i: nat, s: Scan)
    requires i < |text| && StartOk(text, i, s)
    ensures var t := FeedChar(text, i, s);
      t.found == s.found
      || (t == Scan(TOP, None, t.found) && |t.found| == |s.found| + 1 && s.found <= t.found
          && t.found[|s.found|].1 == i + 1)
  {
    hide HeadStart, StartOk, BlockOk, Entered;
    if s.start.Some? { Continues(text, i, s); }
  }

  lemma {:induction false} FoundAtTop(text: string, i: nat, k: nat)
    requires i <= |text| && k < |Feed(text, i).found|
    ensures var found := Feed(text, i).found;
      found[k].1 <= i && Feed(text, found[k].1) == Scan(TOP, None, found[..k + 1])
  {
    hide FeedChar, StartOk, RangesOk;
    if i > 0 {
      var s := Feed(text, i - 1);
      ScanIsOk(text, i - 1);
      FoundStep(text, i - 1, s);
      if k < |s.found| {
        FoundAtTop(text, i - 1, k);
        assert Feed(text, i).found[..k + 1] == s.found[..k + 1];
      } else {
        assert Feed(text, i).found[..k + 1] == Feed(text, i).found;
      }
    }
  }

  /** After its first block a text is read afresh. */
  lemma RestBlocks(text: string)
    requires Blocks(text) != []
    ensures var (start, end) := Blocks(text)[0];
      && start < end <= |text| && BlockOk(text[start..end]) && AtWord(text, start)
      && AtTop(text[..end], [(start, end)])
      && Blocks(text)[1..] == Shift(Blocks(text[end..]), end)
  {
    hide BlockOk, AtWord, HeadStart, FeedChar;
    BlocksAreBlocks(text);
    var (start, end) := Blocks(text)[0];
    FoundAtTop(text, |text|, 0);
    var p, s := text[..end], text[end..];
    assert text == p + s;
    FeedPrefix(p, s, end);
    assert Blocks(text)[..1] == [(start, end)];
    assert p[end - 1] == '}' by {
      BlockEndsWithBrace(text[start..end]);
    }
    Restart(p, s, [(start, end)], |s|);
  }

  /** No head of a server block inside a comment. */
  ghost predicate HeadsAreRead(f: File) {
    forall p <- f.parts :: Through(TOP, p.gap) == TOP
  }

  lemma {:induction false} CutIsOk(text: string)
    requires HeadsAreRead(Cut(text))
    ensures FileOk(Cut(text))
    decreases |text|
  {
    BlocksAreBlocks(text);
    if Blocks(text) != [] {
      var (start, end) := Blocks(text)[0];
      CutIsOk(text[end..]);
      RestBlocks(text);
      assert Cut(text).parts[0].gap == text[..start];
      GapIsOk(text);
    }
  }

  lemma GapIsOk(text: string)
    requires Blocks(text) != [] && Blocks(text)[0].0 <= |text|
    requires Through(TOP, text[..Blocks(text)[0].0]) == TOP
    ensures GapOk(text[..Blocks(text)[0].0])
  {
    hide BlockOk, HeadStart;
    RestBlocks(text);
    var (start, end) := Blocks(text)[0];
    var gap, p := text[..start], text[..end];
    FeedPlace(gap, start);
    assert gap[..start] == gap;
    assert p == gap + text[start..end];
    FeedPrefix(gap, text[start..end], start);
    ScanIsOk(gap, start);
    FeedGrows(p, start, end);
    NotOpen(gap);
    var found := Feed(gap, start).found;
    NoneBefore(found, start, end);
    assert start > 0 ==> gap[start - 1] == text[start - 1];
  }

  lemma NoneBefore(found: seq<(nat, nat)>, start: nat, end: nat)
    requires (found != [] ==> found[0] == (start, end)) && start < end
    requires forall k | 0 <= k < |found| :: found[k].1 <= start
    ensures found == []
  {
  }

  lemma {:induction false} FeedGrows(text: string, i: nat, j: nat)
    requires i <= j <= |text|
    ensures Feed(text, i).found <= Feed(text, j).found
  {
    if i < j { FeedGrows(text, i, j - 1); }
  }

  lemma NotOpen(text: string)
    requires Feed(text, |text|).place == TOP && ScanOk(text, |text|, Feed(text, |text|))
    ensures Feed(text, |text|).start == None
  {
    var s := Feed(text, |text|);
    if s.start.Some? {
      var q :| Entered(text, s.start.value, q, |text|, s.place);
      EnteredIsDeep(text, s.start.value, q, s.place);
    }
  }

  lemma EnteredIsDeep(text: string, a: nat, q: nat, place: Place)
    requires Entered(text, a, q, |text|, place)
    ensures place.depth >= 1
  {
    var body := text[q + 1..|text|];
    assert body[..|body|] == body;
  }

  // ---- releasing a file ----

  function Skip(s: string, drop: bool): string {
    if drop && s != [] && s[0] == '\n' then s[1..] else s
  }

  function ReleasedFile(f: File, a: string, carry: string, drop: bool): File
    decreases |f.parts|
  {
    if f.parts == [] then File([], carry + Skip(f.tail, drop))
    else
      var (p, rest) := (f.parts[0], f.(parts := f.parts[1..]));
      var gap := carry + Skip(p.gap, drop);
      match ReleasedBlock(p.block, a)
      case None => ReleasedFile(rest, a, gap, true)
      case Some(b) =>
        var r := ReleasedFile(rest, a, "", false);
        r.(parts := [Part(gap, b)] + r.parts)
  }

  function Release(text: string, a: string): string {
    FileText(ReleasedFile(Cut(text), a, "", false))
  }

  function AnsweredFile(f: File, n: string, a: string): (r: File)
    decreases |f.parts|
  {
    if f.parts == [] then f
    else
      var r := AnsweredFile(f.(parts := f.parts[1..]), n, a);
      r.(parts := [Part(f.parts[0].gap, AnsweredBlock(f.parts[0].block, n, a))] + r.parts)
  }

  function Answer(text: string, n: string, a: string): string {
    FileText(AnsweredFile(Cut(text), n, a))
  }

  /** The names of every server block. */
  function NameLists(f: File): seq<seq<string>>
    decreases |f.parts|
  {
    if f.parts == [] then [] else [Names(f.parts[0].block)] + NameLists(f.(parts := f.parts[1..]))
  }

  function Left(lists: seq<seq<string>>, a: string): seq<seq<string>> {
    if lists == [] then []
    else if a in lists[0] && forall w <- lists[0] :: w == a then Left(lists[1..], a)
    else [Drop(lists[0], a)] + Left(lists[1..], a)
  }

  /** The text of a file outside its directives. */
  function Outside(f: File): string
    decreases |f.parts|
  {
    if f.parts == [] then f.tail
    else f.parts[0].gap + Others(Chunks(f.parts[0].block, true)) + Outside(f.(parts := f.parts[1..]))
  }

  /** The same, without the blocks that go and the line break after each. */
  function OutsideLeft(f: File, a: string, drop: bool): string
    decreases |f.parts|
  {
    if f.parts == [] then Skip(f.tail, drop)
    else
      var goes := ReleasedBlock(f.parts[0].block, a).None?;
      Skip(f.parts[0].gap, drop)
      + (if goes then [] else Others(Chunks(f.parts[0].block, true)))
      + OutsideLeft(f.(parts := f.parts[1..]), a, goes)
  }

  lemma ReleasedDropNames(block: string, a: string)
    requires ReleasedBlock(block, a).None?
    ensures a in Names(block) && forall w <- Names(block) :: w == a
  {
  }

  lemma ReleasedKeepNames(block: string, a: string)
    requires ReleasedBlock(block, a).Some?
    ensures !(a in Names(block) && forall w <- Names(block) :: w == a)
  {
  }

  lemma EmptyGapIsOk()
    ensures GapOk("")
  {
  }

  lemma ReleasedEnd(f: File, a: string, carry: string, drop: bool)
    requires f.parts == []
    ensures ReleasedFile(f, a, carry, drop) == File([], carry + Skip(f.tail, drop))
  {
  }

  lemma ReleasedDrop(f: File, a: string, carry: string, drop: bool)
    requires f.parts != [] && ReleasedBlock(f.parts[0].block, a).None?
    ensures ReleasedFile(f, a, carry, drop)
      == ReleasedFile(f.(parts := f.parts[1..]), a, carry + Skip(f.parts[0].gap, drop), true)
  {
  }

  lemma ReleasedParts(f: File, a: string, carry: string, drop: bool)
    requires f.parts != [] && ReleasedBlock(f.parts[0].block, a).Some?
    ensures var r, rest := ReleasedFile(f, a, carry, drop), ReleasedFile(f.(parts := f.parts[1..]), a, "", false);
      && r.tail == rest.tail
      && r.parts == [Part(carry + Skip(f.parts[0].gap, drop), ReleasedBlock(f.parts[0].block, a).value)] + rest.parts
      && r.(parts := r.parts[1..]) == rest
  {
  }

  // ---- what releasing and answering do ----

  ghost predicate NamesNowhere(f: File, a: string) {
    forall l <- NameLists(f) :: a !in l
  }

  lemma {:induction false} NothingToRelease(f: File, a: string)
    requires NamesNowhere(f, a)
    ensures ReleasedFile(f, a, "", false) == f
    decreases |f.parts|
  {
    if f.parts != [] {
      var rest := f.(parts := f.parts[1..]);
      assert NameLists(f)[0] in NameLists(f);
      forall l <- NameLists(rest) ensures a !in l { assert l in NameLists(f); }
      NothingToRelease(rest, a);
      ReleasedParts(f, a, "", false);
      assert "" + f.parts[0].gap == f.parts[0].gap;
    }
  }

  /** A file that does not name the address is not touched, whatever is in it. */
  lemma UnnamedIsUntouched(text: string, a: string)
    requires NamesNowhere(Cut(text), a)
    ensures Release(text, a) == text
  {
    NothingToRelease(Cut(text), a);
    CutKeepsText(text);
  }

  lemma {:induction false} LeftNames(lists: seq<seq<string>>, a: string)
    ensures forall l <- Left(lists, a) :: a !in l
  {
    if lists != [] { LeftNames(lists[1..], a); }
  }

  lemma AnsweredParts(f: File, n: string, a: string)
    requires f.parts != []
    ensures var r, rest := AnsweredFile(f, n, a), AnsweredFile(f.(parts := f.parts[1..]), n, a);
      && r.tail == rest.tail
      && r.parts == [Part(f.parts[0].gap, AnsweredBlock(f.parts[0].block, n, a))] + rest.parts
      && r.(parts := r.parts[1..]) == rest
  {
  }

  lemma {:induction false} NothingToAnswer(f: File, n: string, a: string)
    requires forall l <- NameLists(f) :: n in l ==> a in l
    ensures AnsweredFile(f, n, a) == f
    decreases |f.parts|
  {
    if f.parts != [] {
      var rest := f.(parts := f.parts[1..]);
      assert NameLists(f)[0] in NameLists(f);
      forall l <- NameLists(rest) ensures n in l ==> a in l { assert l in NameLists(f); }
      NothingToAnswer(rest, n, a);
      AnsweredParts(f, n, a);
    }
  }

  // ---- the programs ----

  /** What is left to print after `t`'s first block. */
  lemma ReleaseStep(t: string, a: string, drop: bool)
    requires Blocks(t) != []
    ensures var (start, end) := Blocks(t)[0];
      && start < end <= |t|
      && Blocks(t)[1..] == Shift(Blocks(t[end..]), end)
      && Rest(t, a, drop) == Skip(t[..start], drop) +
        match ReleasedBlock(t[start..end], a)
        case None => Rest(t[end..], a, true)
        case Some(b) => b + Rest(t[end..], a, false)
  {
    hide Blocks, ReleasedBlock, Skip;
    RestBlocks(t);
    var (start, end) := Blocks(t)[0];
    var f := Cut(t);
    var rest := Cut(t[end..]);
    assert f.(parts := f.parts[1..]) == rest;
    assert "" + Skip(t[..start], drop) == Skip(t[..start], drop);
    if ReleasedBlock(t[start..end], a).None? {
      Carried(rest, a, Skip(t[..start], drop), true);
    } else {
      ReleasedParts(f, a, "", drop);
    }
  }

  function Rest(t: string, a: string, drop: bool): string {
    FileText(ReleasedFile(Cut(t), a, "", drop))
  }

  lemma {:induction false} Carried(f: File, a: string, carry: string, drop: bool)
    ensures FileText(ReleasedFile(f, a, carry, drop)) == carry + FileText(ReleasedFile(f, a, "", drop))
    decreases |f.parts|
  {
    hide Skip, ReleasedBlock, ReleasedFile;
    if f.parts == [] {
      ReleasedEnd(f, a, carry, drop);
      ReleasedEnd(f, a, "", drop);
      assert carry + ("" + Skip(f.tail, drop)) == carry + Skip(f.tail, drop);
    } else {
      var rest := f.(parts := f.parts[1..]);
      var gap := Skip(f.parts[0].gap, drop);
      if ReleasedBlock(f.parts[0].block, a).None? {
        ReleasedDrop(f, a, carry, drop);
        ReleasedDrop(f, a, "", drop);
        Carried(rest, a, carry + gap, true);
        Carried(rest, a, "" + gap, true);
      } else {
        ReleasedParts(f, a, carry, drop);
        ReleasedParts(f, a, "", drop);
      }
    }
  }
}

/** What the two programs print, read again by them: which blocks it has, what these answer, and when
    a second run changes nothing. */
module NginxAgain {
  import opened Optional
  import opened NginxScan
  import opened NginxNames
  import opened NginxFile
  import opened NginxEdit
  import opened NginxTools
  import opened NginxSites
  import opened NginxPieces

  // ---- gaps that may hold blocks of their own ----

  /** At the end of the gap the scanner is at top level, and a word may start. */
  ghost predicate GapReads(gap: string) {
    Through(TOP, gap) == TOP && AtWord(gap, |gap|)
  }

  ghost predicate PartsRead(f: File) {
    forall p <- f.parts :: GapReads(p.gap) && BlockOk(p.block)
  }

  ghost predicate GapsHoldNoBlock(f: File) {
    Blocks(f.tail) == [] && forall p <- f.parts :: Blocks(p.gap) == []
  }

  /** The file as it is read: the blocks its gaps hold, and its own. */
  function Flat(f: File): File
    decreases |f.parts|
  {
    if f.parts == [] then Cut(f.tail)
    else
      var g, rest := Cut(f.parts[0].gap), Flat(f.(parts := f.parts[1..]));
      File(g.parts + [Part(g.tail, f.parts[0].block)] + rest.parts, rest.tail)
  }

  lemma GapReadsIs(gap: string)
    ensures GapReads(gap) && Blocks(gap) == [] <==> GapOk(gap)
  {
    FeedPlace(gap, |gap|);
    assert gap[..|gap|] == gap;
    if Through(TOP, gap) == TOP {
      ScanIsOk(gap, |gap|);
      NotOpen(gap);
    }
  }

  lemma CutAfterBlock(p: Part, rest: string)
    requires GapOk(p.gap) && BlockOk(p.block)
    ensures var c := Cut(rest); Cut(p.gap + p.block + rest) == File([p] + c.parts, c.tail)
  {
    hide GapOk, BlockOk, Blocks, Shift;
    BlocksAfterBlock(p, rest);
    var text := p.gap + p.block + rest;
    var n := |p.gap + p.block|;
    assert text[..|p.gap|] == p.gap && text[|p.gap|..n] == p.block && text[n..] == rest;
  }

  /** After the first block of a gap, the gap reads on as before. */
  lemma GapReadsOn(gap: string)
    requires GapReads(gap) && Blocks(gap) != []
    ensures var end := Blocks(gap)[0].1; 0 < end <= |gap| && GapReads(gap[end..])
  {
    RestBlocks(gap);
    var end := Blocks(gap)[0].1;
    var p, s := gap[..end], gap[end..];
    FeedPlace(p, end);
    assert p[..end] == p && gap == p + s;
    ThroughJoins(TOP, p, s);
    assert s != [] ==> s[|s| - 1] == gap[|gap| - 1];
  }

  /** The first block of a gap is the first block of the text the gap starts. */
  lemma FirstInGap(gap: string, more: string)
    requires Blocks(gap) != []
    ensures var (start, end) := Blocks(gap)[0];
      && start < end <= |gap| && Blocks(gap + more) != [] && Blocks(gap + more)[0] == (start, end)
  {
    hide BlockOk;
    RestBlocks(gap);
    var (start, end) := Blocks(gap)[0];
    var p, s := gap[..end], gap[end..] + more;
    BlockEndsWithBrace(gap[start..end]);
    assert p[end - 1] == '}' == gap[start..end][end - start - 1];
    Restart(p, s, [(start, end)], |s|);
    assert gap + more == p + s;
    assert |p| + |s| == |gap + more|;
  }

  lemma {:induction false} CutGap(gap: string, block: string, rest: string)
    requires GapReads(gap) && BlockOk(block)
    ensures var g, c := Cut(gap), Cut(rest);
      Cut(gap + block + rest) == File(g.parts + [Part(g.tail, block)] + c.parts, c.tail)
    decreases |gap|
  {
    hide BlockOk, GapReads, GapOk, Blocks;
    var g, c := Cut(gap), Cut(rest);
    var text := gap + block + rest;
    if Blocks(gap) == [] {
      GapReadsIs(gap);
      CutAfterBlock(Part(gap, block), rest);
    } else {
      var (start, end) := Blocks(gap)[0];
      FirstInGap(gap, block + rest);
      GapReadsOn(gap);
      CutGap(gap[end..], block, rest);
      assert gap + (block + rest) == text;
      assert text[end..] == gap[end..] + block + rest;
      assert text[..start] == gap[..start] && text[start..end] == gap[start..end];
    }
  }

  lemma {:induction false} CutIsFlat(f: File)
    requires PartsRead(f)
    ensures Cut(FileText(f)) == Flat(f)
    decreases |f.parts|
  {
    hide GapReads, BlockOk, Cut;
    if f.parts != [] {
      var p, rest := f.parts[0], f.(parts := f.parts[1..]);
      assert p in f.parts;
      CutIsFlat(rest);
      CutGap(p.gap, p.block, FileText(rest));
    }
  }

  // ---- the names in it ----

  lemma {:induction false} ListsJoin(x: seq<Part>, y: seq<Part>, tail: string)
    ensures NameLists(File(x + y, tail)) == NameLists(File(x, tail)) + NameLists(File(y, tail))
    ensures |NameLists(File(x, tail))| == |x|
  {
    hide Names;
    if x == [] { assert x + y == y; }
    else {
      assert (x + y)[1..] == x[1..] + y;
      ListsJoin(x[1..], y, tail);
    }
  }

  lemma {:induction false} ListsOfParts(x: seq<Part>, tail: string, other: string)
    ensures NameLists(File(x, tail)) == NameLists(File(x, other))
  {
    hide Names;
    if x != [] { ListsOfParts(x[1..], tail, other); }
  }

  /** The blocks read are the file's own and those of its gaps. */
  lemma FlatLists(f: File)
    requires f.parts != []
    ensures var rest := f.(parts := f.parts[1..]);
      NameLists(Flat(f)) == NameLists(Cut(f.parts[0].gap)) + [Names(f.parts[0].block)] + NameLists(Flat(rest))
  {
    hide Names, Cut;
    var g, rest := Cut(f.parts[0].gap), Flat(f.(parts := f.parts[1..]));
    var own := [Part(g.tail, f.parts[0].block)];
    ListsJoin(g.parts + own, rest.parts, rest.tail);
    ListsJoin(g.parts, own, rest.tail);
    ListsOfParts(g.parts, g.tail, rest.tail);
    assert NameLists(File(own, rest.tail)) == [Names(f.parts[0].block)] + NameLists(File(own[1..], rest.tail));
    assert own[1..] == [];
  }

  ghost predicate GapsNameNowhere(f: File, a: string) {
    NamesNowhere(Cut(f.tail), a) && forall p <- f.parts :: NamesNowhere(Cut(p.gap), a)
  }

  lemma {:induction false} FlatNames(f: File, a: string)
    ensures NamesNowhere(Flat(f), a) <==> NamesNowhere(f, a) && GapsNameNowhere(f, a)
    decreases |f.parts|
  {
    hide Names, Cut, Flat, NameLists, NamesNowhere;
    if f.parts == [] {
      FlatOfTail(f, a);
    } else {
      var rest := f.(parts := f.parts[1..]);
      FlatNames(rest, a);
      FlatNamesOne(f, a);
      GapsOne(f, a);
    }
  }

  lemma FlatOfTail(f: File, a: string)
    requires f.parts == []
    ensures NamesNowhere(Flat(f), a) <==> NamesNowhere(Cut(f.tail), a)
    ensures NamesNowhere(f, a)
  {
  }

  lemma GapsOne(f: File, a: string)
    requires f.parts != []
    ensures GapsNameNowhere(f, a)
      <==> NamesNowhere(Cut(f.parts[0].gap), a) && GapsNameNowhere(f.(parts := f.parts[1..]), a)
  {
    hide NamesNowhere, Cut;
    assert f.parts == [f.parts[0]] + f.parts[1..];
  }

  lemma FlatNamesOne(f: File, a: string)
    requires f.parts != []
    ensures var rest := f.(parts := f.parts[1..]);
      NamesNowhere(Flat(f), a)
      <==> NamesNowhere(Cut(f.parts[0].gap), a) && a !in Names(f.parts[0].block) && NamesNowhere(Flat(rest), a)
    ensures NamesNowhere(f, a) <==> a !in Names(f.parts[0].block) && NamesNowhere(f.(parts := f.parts[1..]), a)
  {
    FlatLists(f);
    NamesInParts(f, a);
    hide Names, Cut, Flat, NameLists;
    var x, y := NameLists(Cut(f.parts[0].gap)), NameLists(Flat(f.(parts := f.parts[1..])));
    var own := [Names(f.parts[0].block)];
    assert own[0] in x + own + y;
    assert forall l <- x :: l in x + own + y;
    assert forall l <- y :: l in x + own + y;
  }

  /** As many blocks are read as the file has of its own exactly when the gaps hold none, and then the
      file is read as it is. */
  lemma {:induction false} FlatSize(f: File)
    ensures |Flat(f).parts| >= |f.parts|
    ensures |Flat(f).parts| == |f.parts| <==> GapsHoldNoBlock(f)
    ensures GapsHoldNoBlock(f) ==> Flat(f) == f
    decreases |f.parts|
  {
    hide Blocks;
    if f.parts == [] { NoPartsIff(f.tail); }
    else {
      var rest := f.(parts := f.parts[1..]);
      FlatSize(rest);
      NoPartsIff(f.parts[0].gap);
      assert f.parts == [f.parts[0]] + f.parts[1..];
    }
  }

  lemma NoPartsIff(s: string)
    ensures Cut(s).parts == [] <==> Blocks(s) == []
    ensures Blocks(s) == [] ==> Cut(s) == File([], s)
  {
  }

  // ---- a released file ----

  /** Each block that names `n` has its directives on lines of their own, with names only. */
  ghost predicate TidyBlocks(f: File, n: string) {
    forall p <- f.parts | n in Names(p.block) :: TidyBlock(p.block)
  }

  lemma NewlineStays()
    ensures Through(TOP, "\n") == TOP && AtTop("\n", [])
  {
    assert "\n"[..0] == "";
    assert Feed("\n", 0) == Scan(TOP, None, []);
    assert Feed("\n", 1) == Scan(TOP, None, []);
  }

  lemma GapsMerge(carry: string, gap: string, drop: bool)
    requires GapReads(carry) && GapReads(gap)
    ensures GapReads(carry + Skip(gap, drop))
  {
    hide IsDelimiter;
    var r := Skip(gap, drop);
    NewlineStays();
    if r != gap {
      assert gap == "\n" + r;
      ThroughJoins(TOP, "\n", r);
    }
    ThroughJoins(TOP, carry, r);
    assert carry + r == carry || (carry + r)[|carry + r| - 1] == gap[|gap| - 1];
  }

  ghost predicate ReleasedOk(f: File, r: File, a: string, carry: string, drop: bool) {
    && PartsRead(r) && NameLists(r) == Left(NameLists(f), a)
    && Outside(r) == carry + OutsideLeft(f, a, drop)
  }

  lemma {:induction false} ReleasedIsOk(f: File, a: string, carry: string, drop: bool)
    requires PartsRead(f) && TidyBlocks(f, a) && GapReads(carry)
    ensures ReleasedOk(f, ReleasedFile(f, a, carry, drop), a, carry, drop)
    decreases |f.parts|
  {
    hide Others, Chunks, GapReads, BlockOk, TidyBlock, Names, Drop, Skip, ReleasedFile, ReleasedBlock;
    if f.parts == [] {
      ReleasedEnd(f, a, carry, drop);
    } else {
      var p := f.parts[0];
      assert p in f.parts;
      var rest := f.(parts := f.parts[1..]);
      GapsMerge(carry, p.gap, drop);
      if ReleasedBlock(p.block, a).None? {
        ReleasedDrop(f, a, carry, drop);
        ReleasedIsOk(rest, a, carry + Skip(p.gap, drop), true);
        DropIsOk(f, ReleasedFile(f, a, carry, drop), a, carry, drop);
      } else {
        EmptyGapReads();
        ReleasedIsOk(rest, a, "", false);
        ReleasedParts(f, a, carry, drop);
        KeepIsOk(f, ReleasedFile(f, a, carry, drop), ReleasedFile(rest, a, "", false), a, carry, drop);
      }
    }
  }

  lemma EmptyGapReads()
    ensures GapReads("")
  {
  }

  lemma DropIsOk(f: File, r: File, a: string, carry: string, drop: bool)
    requires f.parts != [] && ReleasedBlock(f.parts[0].block, a).None?
    requires ReleasedOk(f.(parts := f.parts[1..]), r, a, carry + Skip(f.parts[0].gap, drop), true)
    ensures ReleasedOk(f, r, a, carry, drop)
  {
    hide PartsRead, Skip, Names, Drop, Others, Chunks;
    ReleasedDropNames(f.parts[0].block, a);
    hide ReleasedBlock;
  }

  lemma KeepIsOk(f: File, r: File, rest: File, a: string, carry: string, drop: bool)
    requires f.parts != [] && ReleasedBlock(f.parts[0].block, a).Some? && r.parts != []
    requires BlockOk(f.parts[0].block) && (a in Names(f.parts[0].block) ==> TidyBlock(f.parts[0].block))
    requires r.parts[0] == Part(carry + Skip(f.parts[0].gap, drop), ReleasedBlock(f.parts[0].block, a).value)
    requires r.(parts := r.parts[1..]) == rest && GapReads(r.parts[0].gap)
    requires ReleasedOk(f.(parts := f.parts[1..]), rest, a, "", false)
    ensures ReleasedOk(f, r, a, carry, drop)
  {
    hide GapReads, BlockOk, TidyBlock, Skip, Names, Drop, Others, Chunks;
    ReleasedKeepNames(f.parts[0].block, a);
    ReleasedBlockNames(f.parts[0].block, a);
    hide ReleasedBlock;
    assert forall p <- r.parts :: p == r.parts[0] || p in rest.parts;
    KeepOutside(f, r, rest, a, carry, drop);
    hide Outside, OutsideLeft;
  }

  lemma KeepOutside(f: File, r: File, rest: File, a: string, carry: string, drop: bool)
    requires f.parts != [] && ReleasedBlock(f.parts[0].block, a).Some? && r.parts != []
    requires r.parts[0].gap == carry + Skip(f.parts[0].gap, drop) && r.(parts := r.parts[1..]) == rest
    requires Others(Chunks(r.parts[0].block, true)) == Others(Chunks(f.parts[0].block, true))
    requires Outside(rest) == "" + OutsideLeft(f.(parts := f.parts[1..]), a, false)
    ensures Outside(r) == carry + OutsideLeft(f, a, drop)
  {
    hide Skip, Others, Chunks, ReleasedBlock;
  }

  function Released(text: string, a: string): File {
    ReleasedFile(Cut(text), a, "", false)
  }

  lemma PartsAreRead(f: File)
    requires FileOk(f)
    ensures PartsRead(f)
  {
    hide GapOk, GapReads, BlockOk;
    forall p <- f.parts ensures GapReads(p.gap) { GapReadsIs(p.gap); }
  }

  lemma ReleasedIsRead(text: string, a: string)
    requires HeadsAreRead(Cut(text)) && TidyBlocks(Cut(text), a)
    ensures Cut(Release(text, a)) == Flat(Released(text, a))
    ensures NameLists(Released(text, a)) == Left(NameLists(Cut(text)), a) && NamesNowhere(Released(text, a), a)
    ensures Outside(Released(text, a)) == OutsideLeft(Cut(text), a, false)
  {
    hide TidyBlocks, HeadsAreRead, PartsRead, Flat, FileOk;
    CutIsOk(text);
    PartsAreRead(Cut(text));
    EmptyGapReads();
    ReleasedIsOk(Cut(text), a, "", false);
    CutIsFlat(Released(text, a));
    LeftNames(NameLists(Cut(text)), a);
  }

  /** Read again, a released file has the blocks it should have - those that answered only the address
      are gone, the others answer what they answered, in order, without it - exactly when what is left
      between its blocks does not itself read as a block. */
  lemma ReleaseTakesTheAddress(text: string, a: string)
    requires HeadsAreRead(Cut(text)) && TidyBlocks(Cut(text), a)
    ensures NameLists(Cut(Release(text, a))) == Left(NameLists(Cut(text)), a) <==> GapsHoldNoBlock(Released(text, a))
    ensures GapsHoldNoBlock(Released(text, a)) ==>
      Outside(Cut(Release(text, a))) == OutsideLeft(Cut(text), a, false)
  {
    hide TidyBlocks, HeadsAreRead, GapsHoldNoBlock, Flat, Left, Release, Released;
    ReleasedIsRead(text, a);
    var r := Released(text, a);
    FlatSize(r);
    ListsJoin(r.parts, [], r.tail);
    ListsJoin(Flat(r).parts, [], Flat(r).tail);
  }

  /** Releasing again changes nothing exactly when nothing that is left between the blocks reads as a
      server block that names the address. */
  lemma ReleaseIsIdempotentIff(text: string, a: string)
    requires HeadsAreRead(Cut(text)) && TidyBlocks(Cut(text), a)
    ensures Release(Release(text, a), a) == Release(text, a) <==> GapsNameNowhere(Released(text, a), a)
  {
    hide TidyBlocks, HeadsAreRead, GapsNameNowhere, Flat, Left, Release, Released, Outside, OutsideLeft;
    ReleasedIsRead(text, a);
    FlatNames(Released(text, a), a);
    ChangesIffNamed(Release(text, a), a);
  }

  // ---- a brace with a word of its own never does ----

  ghost predicate BracesHaveWords(f: File) {
    NoBareBrace(f.tail) && forall p <- f.parts :: NoBareBrace(p.gap)
  }

  lemma SkipAlone(s: string, drop: bool)
    requires NoBareBrace(s)
    ensures var r := Skip(s, drop);
      NoBareBrace(r) && (AtTop(s, []) ==> AtTop(r, [])) && (Blocks(s) == [] ==> Blocks(r) == [])
  {
    hide HeadStart;
    var r := Skip(s, drop);
    if r != s {
      assert s == "\n" + r;
      forall i | 0 <= i < |r| && r[i] == '{' && Feed(r, i).place == TOP ensures !AllSpace(r[..i]) {
        FeedPlace(r, i);
        FeedPlace(s, i + 1);
        assert s[..i + 1] == "\n" + r[..i];
        ThroughJoins(TOP, "\n", r[..i]);
        NewlineStays();
        assert !AllSpace(s[..i + 1]);
      }
      NewlineStays();
      Restart("\n", r, [], |r|);
    }
  }

  lemma DelimitedJoins(p: string, s: string)
    requires AtWord(p, |p|) && NoBareBrace(s)
    ensures Joins(p, s)
  {
  }

  lemma GapJoins(carry: string, gap: string, drop: bool)
    requires GapOk(carry) && NoBareBrace(gap)
    ensures GapOk(gap) ==> GapOk(carry + Skip(gap, drop))
    ensures Blocks(gap) == [] ==> Blocks(carry + Skip(gap, drop)) == []
  {
    hide HeadStart, NoBareBrace, IsDelimiter;
    var r := Skip(gap, drop);
    SkipAlone(gap, drop);
    DelimitedJoins(carry, r);
    Restart(carry, r, [], |r|);
    assert carry + r == carry || (carry + r)[|carry + r| - 1] == gap[|gap| - 1];
  }

  lemma {:induction false} WordedGaps(f: File, a: string, carry: string, drop: bool)
    requires FileOk(f) && BracesHaveWords(f) && GapOk(carry)
    ensures GapsHoldNoBlock(ReleasedFile(f, a, carry, drop))
    decreases |f.parts|
  {
    hide GapOk, BlockOk, NoBareBrace, Blocks, Skip, ReleasedFile, ReleasedBlock;
    GapHoldsNone(carry);
    if f.parts == [] {
      ReleasedEnd(f, a, carry, drop);
      GapJoins(carry, f.tail, drop);
    } else {
      var p, rest := f.parts[0], f.(parts := f.parts[1..]);
      assert p in f.parts;
      GapJoins(carry, p.gap, drop);
      GapHoldsNone(carry + Skip(p.gap, drop));
      if ReleasedBlock(p.block, a).None? {
        ReleasedDrop(f, a, carry, drop);
        WordedGaps(rest, a, carry + Skip(p.gap, drop), true);
      } else {
        EmptyGapIsOk();
        WordedGaps(rest, a, "", false);
        ReleasedParts(f, a, carry, drop);
        var r := ReleasedFile(f, a, carry, drop);
        assert forall q <- r.parts :: q == r.parts[0] || q in r.parts[1..];
      }
    }
  }

  lemma GapHoldsNone(gap: string)
    requires GapOk(gap)
    ensures Blocks(gap) == []
  {
  }

  /** So where every brace at top level has a word of its own, releasing does what it should, once and
      for all. */
  lemma ReleaseIsIdempotent(text: string, a: string)
    requires HeadsAreRead(Cut(text)) && TidyBlocks(Cut(text), a) && BracesHaveWords(Cut(text))
    ensures GapsHoldNoBlock(Released(text, a)) && GapsNameNowhere(Released(text, a), a)
    ensures NameLists(Cut(Release(text, a))) == Left(NameLists(Cut(text)), a)
    ensures Release(Release(text, a), a) == Release(text, a)
  {
    CutIsOk(text);
    EmptyGapIsOk();
    WordedGaps(Cut(text), a, "", false);
    NoBlockNoName(Released(text, a), a);
    ReleaseTakesTheAddress(text, a);
    ReleaseIsIdempotentIff(text, a);
  }

  lemma NoBlockNoName(f: File, a: string)
    requires GapsHoldNoBlock(f)
    ensures GapsNameNowhere(f, a)
  {
    NoPartsIff(f.tail);
    forall p <- f.parts ensures NamesNowhere(Cut(p.gap), a) { NoPartsIff(p.gap); }
  }

  // ---- an answered file ----

  /** Each list that names `n` and not `a` gains `a`; the others stay. */
  ghost predicate Answered(xs: seq<seq<string>>, ys: seq<seq<string>>, n: string, a: string) {
    if xs == [] then ys == []
    else
      && ys != []
      && (if n in xs[0] && a !in xs[0] then Gains(xs[0], ys[0], a) else ys[0] == xs[0])
      && Answered(xs[1..], ys[1..], n, a)
  }

  ghost predicate AnsweredOk(f: File, r: File, n: string, a: string) {
    && FileOk(r) && HeadsAreRead(r) && Answered(NameLists(f), NameLists(r), n, a) && Outside(r) == Outside(f)
    && (NamesNowhere(f, a) ==> TidyBlocks(r, a))
  }

  lemma {:induction false} AnsweredIsOk(f: File, n: string, a: string)
    requires FileOk(f) && HeadsAreRead(f) && TidyBlocks(f, n) && IsAddress(a)
    ensures AnsweredOk(f, AnsweredFile(f, n, a), n, a)
    decreases |f.parts|
  {
    hide Others, Chunks, GapOk, BlockOk, TidyBlock, Names, AnsweredBlock, Blocks, Gains, IsAddress;
    if f.parts != [] {
      var p := f.parts[0];
      assert p in f.parts;
      var rest := f.(parts := f.parts[1..]);
      AnsweredIsOk(rest, n, a);
      AnsweredBlockNames(p.block, n, a);
      AnsweredParts(f, n, a);
      NamesInParts(f, a);
      hide NamesNowhere;
      var r := AnsweredFile(f, n, a);
      forall q <- r.parts ensures q == r.parts[0] || q in AnsweredFile(rest, n, a).parts {}
    }
  }

  lemma AnswerIsRead(text: string, n: string, a: string)
    requires HeadsAreRead(Cut(text)) && TidyBlocks(Cut(text), n) && IsAddress(a)
    ensures Cut(Answer(text, n, a)) == AnsweredFile(Cut(text), n, a)
    ensures AnsweredOk(Cut(text), Cut(Answer(text, n, a)), n, a)
  {
    hide AnsweredOk, HeadsAreRead, TidyBlocks, IsAddress;
    CutIsOk(text);
    AnsweredIsOk(Cut(text), n, a);
    AnsweredFileOk(Cut(text), AnsweredFile(Cut(text), n, a), n, a);
    CutsBack(AnsweredFile(Cut(text), n, a));
  }

  lemma AnsweredFileOk(f: File, r: File, n: string, a: string)
    requires AnsweredOk(f, r, n, a)
    ensures FileOk(r) && HeadsAreRead(r) && Answered(NameLists(f), NameLists(r), n, a) && Outside(r) == Outside(f)
    ensures NamesNowhere(f, a) ==> TidyBlocks(r, a)
  {
  }

  lemma {:induction false} AnsweredLists(xs: seq<seq<string>>, ys: seq<seq<string>>, n: string, a: string)
    requires Answered(xs, ys, n, a)
    ensures forall l <- ys :: n in l ==> a in l
    ensures (forall l <- xs :: a !in l) ==> Left(ys, a) == xs && forall l <- ys :: !(a in l && forall w <- l :: w == a)
  {
    if xs != [] {
      AnsweredLists(xs[1..], ys[1..], n, a);
      assert xs[0] in xs;
      if n in xs[0] && a !in xs[0] { GainsIsUndone(xs[0], ys[0], a); }
      assert ys == [ys[0]] + ys[1..] && xs == [xs[0]] + xs[1..];
      if forall l <- xs :: a !in l {
        forall l <- xs[1..] ensures a !in l { assert l in xs; }
      }
    }
  }

  /** Read again, an answered file has the same blocks, each naming the address if it names the anchor
      and otherwise as it was, and nothing outside the directives is changed; answering it again changes
      nothing. */
  lemma AnswerIsIdempotent(text: string, n: string, a: string)
    requires HeadsAreRead(Cut(text)) && TidyBlocks(Cut(text), n) && IsAddress(a)
    ensures Answered(NameLists(Cut(text)), NameLists(Cut(Answer(text, n, a))), n, a)
    ensures Outside(Cut(Answer(text, n, a))) == Outside(Cut(text))
    ensures Answer(Answer(text, n, a), n, a) == Answer(text, n, a)
  {
    hide AnsweredOk, HeadsAreRead, TidyBlocks, IsAddress;
    AnswerIsRead(text, n, a);
    var f := Cut(Answer(text, n, a));
    AnsweredFileOk(Cut(text), f, n, a);
    AnsweredLists(NameLists(Cut(text)), NameLists(f), n, a);
    NothingToAnswer(f, n, a);
    CutKeepsText(Answer(text, n, a));
  }

  lemma {:induction false} NoneDropped(f: File, a: string)
    requires FileOk(f) && forall l <- NameLists(f) :: !(a in l && forall w <- l :: w == a)
    ensures GapsHoldNoBlock(ReleasedFile(f, a, "", false))
    decreases |f.parts|
  {
    hide GapOk, BlockOk, Blocks, ReleasedFile, ReleasedBlock, Names;
    if f.parts == [] {
      ReleasedEnd(f, a, "", false);
      assert "" + f.tail == f.tail;
    } else {
      var p, rest := f.parts[0], f.(parts := f.parts[1..]);
      assert p in f.parts;
      assert NameLists(f) == [Names(p.block)] + NameLists(rest);
      assert NameLists(f)[0] in NameLists(f) && forall l <- NameLists(rest) :: l in NameLists(f);
      if ReleasedBlock(p.block, a).None? { ReleasedDropNames(p.block, a); }
      NoneDropped(rest, a);
      ReleasedParts(f, a, "", false);
      GapHoldsNone(p.gap);
      assert "" + Skip(p.gap, false) == p.gap;
      var r := ReleasedFile(f, a, "", false);
      assert forall q <- r.parts :: q == r.parts[0] || q in r.parts[1..];
    }
  }

  /** Releasing what was answered gives every block its own names back. */
  lemma ReleaseUndoesAnswer(text: string, n: string, a: string)
    requires HeadsAreRead(Cut(text)) && TidyBlocks(Cut(text), n) && IsAddress(a) && NamesNowhere(Cut(text), a)
    ensures NameLists(Cut(Release(Answer(text, n, a), a))) == NameLists(Cut(text))
  {
    hide AnsweredOk, HeadsAreRead, TidyBlocks, IsAddress, GapsHoldNoBlock;
    AnswerIsRead(text, n, a);
    var f := Cut(Answer(text, n, a));
    AnsweredFileOk(Cut(text), f, n, a);
    AnsweredLists(NameLists(Cut(text)), NameLists(f), n, a);
    NoneDropped(f, a);
    ReleaseTakesTheAddress(Answer(text, n, a), a);
  }
}

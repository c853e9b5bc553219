/** What the two programs do to the text itself, whatever is in it: every character that stays, every
    text that goes and every directive that changes, and that a change always shows. */
module NginxPieces {
  import opened Optional
  import opened NginxScan
  import opened NginxNames
  import opened NginxFile
  import opened NginxEdit
  import opened NginxTools
  import opened NginxSites

  datatype Piece = Stays(c: char) | Goes(text: string) | Changes(was: Found, now: Found)

  function Was(p: Piece): string {
    match p case Stays(c) => [c] case Goes(t) => t case Changes(was, _) => DirectiveText(was)
  }

  function Now(p: Piece): string {
    match p case Stays(c) => [c] case Goes(_) => [] case Changes(_, now) => DirectiveText(now)
  }

  function Before(ps: seq<Piece>): string {
    if ps == [] then [] else Was(ps[0]) + Before(ps[1..])
  }

  function After(ps: seq<Piece>): string {
    if ps == [] then [] else Now(ps[0]) + After(ps[1..])
  }

  function Staying(ps: seq<Piece>): string {
    if ps == [] then [] else (if ps[0].Stays? then [ps[0].c] else []) + Staying(ps[1..])
  }

  // ---- the pieces of a file ----

  function Same(cs: seq<Chunk>): seq<Piece> {
    if cs == [] then []
    else [match cs[0] case Other(c) => Stays(c) case Directive(d) => Changes(d, d)] + Same(cs[1..])
  }

  function WithoutPieces(cs: seq<Chunk>, a: string): seq<Piece> {
    if cs == [] then [] else [WithoutPiece(cs[0], a)] + WithoutPieces(cs[1..], a)
  }

  function WithoutPiece(c: Chunk, a: string): Piece {
    match c
    case Other(ch) => Stays(ch)
    case Directive(d) =>
      var kept := Drop(Split(d.args), a);
      if kept == [] then Goes(DirectiveText(d)) else Changes(d, Found(d.indent, " " + Join(kept)))
  }

  function PlusPieces(cs: seq<Chunk>, a: string): seq<Piece> {
    if cs == [] then []
    else
      match cs[0]
      case Other(c) => [Stays(c)] + PlusPieces(cs[1..], a)
      case Directive(d) => [Changes(d, Found(d.indent, RStrip(d.args) + " " + a))] + Same(cs[1..])
  }

  function GapPieces(s: string): seq<Piece> {
    if s == [] then [] else [Stays(s[0])] + GapPieces(s[1..])
  }

  /** A gap, after a block that goes or not. */
  function SkipPieces(s: string, drop: bool): seq<Piece> {
    if Skip(s, drop) != s then [Goes("\n")] + GapPieces(Skip(s, drop)) else GapPieces(s)
  }

  predicate Dropped(block: string, a: string) {
    a in Names(block) && forall w <- Names(block) :: w == a
  }

  function BlockPieces(block: string, a: string): seq<Piece> {
    var cs := Chunks(block, true);
    if a !in Names(block) then Same(cs) else if Dropped(block, a) then [Goes(block)] else WithoutPieces(cs, a)
  }

  function ReleasePieces(f: File, a: string, drop: bool): seq<Piece>
    decreases |f.parts|
  {
    if f.parts == [] then SkipPieces(f.tail, drop)
    else
      var p := f.parts[0];
      SkipPieces(p.gap, drop) + BlockPieces(p.block, a)
      + ReleasePieces(f.(parts := f.parts[1..]), a, Dropped(p.block, a))
  }

  function AnsweredPieces(block: string, n: string, a: string): seq<Piece> {
    var cs := Chunks(block, true);
    if n !in Names(block) || a in Names(block) then Same(cs) else PlusPieces(cs, a)
  }

  function AnswerPieces(f: File, n: string, a: string): seq<Piece>
    decreases |f.parts|
  {
    if f.parts == [] then GapPieces(f.tail)
    else
      var p := f.parts[0];
      GapPieces(p.gap) + AnsweredPieces(p.block, n, a) + AnswerPieces(f.(parts := f.parts[1..]), n, a)
  }

  // ---- they are the text before and the text after ----

  lemma {:induction false} BeforeJoins(ps: seq<Piece>, qs: seq<Piece>)
    ensures Before(ps + qs) == Before(ps) + Before(qs)
  {
    hide Was;
    if ps == [] { assert ps + qs == qs; }
    else {
      assert (ps + qs)[1..] == ps[1..] + qs && (ps + qs)[0] == ps[0];
      BeforeJoins(ps[1..], qs);
    }
  }

  lemma {:induction false} AfterJoins(ps: seq<Piece>, qs: seq<Piece>)
    ensures After(ps + qs) == After(ps) + After(qs)
  {
    hide Now;
    if ps == [] { assert ps + qs == qs; }
    else {
      assert (ps + qs)[1..] == ps[1..] + qs && (ps + qs)[0] == ps[0];
      AfterJoins(ps[1..], qs);
    }
  }

  lemma {:induction false} StayingJoins(ps: seq<Piece>, qs: seq<Piece>)
    ensures Staying(ps + qs) == Staying(ps) + Staying(qs)
  {
    if ps == [] { assert ps + qs == qs; }
    else {
      assert (ps + qs)[1..] == ps[1..] + qs && (ps + qs)[0] == ps[0];
      StayingJoins(ps[1..], qs);
    }
  }

  lemma Joined(ps: seq<Piece>, qs: seq<Piece>)
    ensures Before(ps + qs) == Before(ps) + Before(qs)
    ensures After(ps + qs) == After(ps) + After(qs)
    ensures Staying(ps + qs) == Staying(ps) + Staying(qs)
  {
    BeforeJoins(ps, qs);
    AfterJoins(ps, qs);
    StayingJoins(ps, qs);
  }

  lemma {:induction false} SameIs(cs: seq<Chunk>)
    ensures Before(Same(cs)) == After(Same(cs)) == Text(cs) && Staying(Same(cs)) == Others(cs)
  {
    if cs != [] { SameIs(cs[1..]); }
  }

  lemma {:induction false} WithoutIs(cs: seq<Chunk>, a: string)
    ensures Before(WithoutPieces(cs, a)) == Text(cs)
    ensures After(WithoutPieces(cs, a)) == Text(Without(cs, a))
    ensures Staying(WithoutPieces(cs, a)) == Others(cs)
  {
    hide Drop, Split, Join, DirectiveText;
    if cs != [] {
      WithoutIs(cs[1..], a);
      var rest, ds := Without(cs[1..], a), Without(cs, a);
      assert ds == rest || ds[1..] == rest;
    }
  }

  lemma {:induction false} PlusIs(cs: seq<Chunk>, a: string)
    ensures Before(PlusPieces(cs, a)) == Text(cs)
    ensures After(PlusPieces(cs, a)) == Text(Plus(cs, a))
    ensures Staying(PlusPieces(cs, a)) == Others(cs)
  {
    hide RStrip, DirectiveText;
    if cs != [] {
      PlusIs(cs[1..], a);
      SameIs(cs[1..]);
      assert Plus(cs, a)[1..] == if cs[0].Other? then Plus(cs[1..], a) else cs[1..];
    }
  }

  lemma {:induction false} GapIs(s: string)
    ensures Before(GapPieces(s)) == After(GapPieces(s)) == Staying(GapPieces(s)) == s
  {
    if s != [] { GapIs(s[1..]); }
  }

  lemma SkipIs(s: string, drop: bool)
    ensures var ps := SkipPieces(s, drop);
      Before(ps) == s && After(ps) == Skip(s, drop) && Staying(ps) == Skip(s, drop)
  {
    var r := Skip(s, drop);
    GapIs(s);
    GapIs(r);
    if r != s {
      assert SkipPieces(s, drop)[1..] == GapPieces(r);
      assert s == "\n" + r;
    }
  }

  lemma BlockIs(block: string, a: string)
    ensures var ps := BlockPieces(block, a);
      && Before(ps) == block
      && After(ps) == (if Dropped(block, a) then "" else ReleasedBlock(block, a).value)
      && Staying(ps) == (if Dropped(block, a) then "" else Others(Chunks(block, true)))
    ensures ReleasedBlock(block, a).None? <==> Dropped(block, a)
  {
    var cs := Chunks(block, true);
    ChunksText(block, true);
    SameIs(cs);
    WithoutIs(cs, a);
    if Dropped(block, a) { assert [Goes(block)][1..] == []; }
  }

  /** For every text: the pieces are its own characters in order, with them the released file is
      printed, and those that stay are the gaps and what is outside the directives, without the blocks
      that go and the one line break after each. */
  lemma ReleaseKeepsTheRest(text: string, a: string)
    ensures var ps := ReleasePieces(Cut(text), a, false);
      Before(ps) == text && After(ps) == Release(text, a) && Staying(ps) == OutsideLeft(Cut(text), a, false)
  {
    CutKeepsText(text);
    PiecesAreRelease(Cut(text), a, false);
  }

  lemma {:induction false} PiecesAreRelease(f: File, a: string, drop: bool)
    ensures var ps := ReleasePieces(f, a, drop);
      && Before(ps) == FileText(f)
      && After(ps) == FileText(ReleasedFile(f, a, "", drop))
      && Staying(ps) == OutsideLeft(f, a, drop)
    decreases |f.parts|
  {
    hide Skip, SkipPieces, BlockPieces, ReleasedBlock, ReleasedFile, Dropped, Others, Before, After, Staying;
    if f.parts == [] {
      SkipIs(f.tail, drop);
      ReleasedEnd(f, a, "", drop);
      assert "" + Skip(f.tail, drop) == Skip(f.tail, drop);
    } else {
      var p, rest := f.parts[0], f.(parts := f.parts[1..]);
      var goes := Dropped(p.block, a);
      PiecesAreRelease(rest, a, goes);
      SkipIs(p.gap, drop);
      BlockIs(p.block, a);
      Joined(SkipPieces(p.gap, drop), BlockPieces(p.block, a));
      Joined(SkipPieces(p.gap, drop) + BlockPieces(p.block, a), ReleasePieces(rest, a, goes));
      assert "" + Skip(p.gap, drop) == Skip(p.gap, drop);
      if goes {
        ReleasedDrop(f, a, "", drop);
        Carried(rest, a, Skip(p.gap, drop), true);
      } else {
        ReleasedParts(f, a, "", drop);
      }
    }
  }

  /** For every text, answering changes directives only: all else stays, and nothing goes. */
  lemma AnswerKeepsTheRest(text: string, n: string, a: string)
    ensures var ps := AnswerPieces(Cut(text), n, a);
      && Before(ps) == text && After(ps) == Answer(text, n, a)
      && Staying(ps) == Outside(Cut(text)) && forall p <- ps :: !p.Goes?
  {
    CutKeepsText(text);
    PiecesAreAnswer(Cut(text), n, a);
  }

  lemma {:induction false} PiecesAreAnswer(f: File, n: string, a: string)
    ensures var ps := AnswerPieces(f, n, a);
      && Before(ps) == FileText(f) && After(ps) == FileText(AnsweredFile(f, n, a))
      && Staying(ps) == Outside(f) && forall p <- ps :: !p.Goes?
    decreases |f.parts|
  {
    hide AnsweredPieces, AnsweredBlock, Others, Before, After, Staying;
    if f.parts == [] {
      GapIs(f.tail);
      NoneGoes(f.tail);
    } else {
      var p, rest := f.parts[0], f.(parts := f.parts[1..]);
      PiecesAreAnswer(rest, n, a);
      GapIs(p.gap);
      NoneGoes(p.gap);
      AnsweredIs(p.block, n, a);
      AnsweredParts(f, n, a);
      Joined(GapPieces(p.gap), AnsweredPieces(p.block, n, a));
      Joined(GapPieces(p.gap) + AnsweredPieces(p.block, n, a), AnswerPieces(rest, n, a));
    }
  }

  lemma {:induction false} NoneGoes(s: string)
    ensures forall p <- GapPieces(s) :: p.Stays?
  {
    if s != [] { NoneGoes(s[1..]); }
  }

  lemma {:induction false} NoneGoesSame(cs: seq<Chunk>)
    ensures forall p <- Same(cs) :: !p.Goes?
  {
    if cs != [] { NoneGoesSame(cs[1..]); }
  }

  lemma {:induction false} NoneGoesPlus(cs: seq<Chunk>, a: string)
    ensures forall p <- PlusPieces(cs, a) :: !p.Goes?
  {
    if cs != [] {
      NoneGoesPlus(cs[1..], a);
      NoneGoesSame(cs[1..]);
    }
  }

  lemma AnsweredIs(block: string, n: string, a: string)
    ensures var ps := AnsweredPieces(block, n, a);
      && Before(ps) == block && After(ps) == AnsweredBlock(block, n, a)
      && Staying(ps) == Others(Chunks(block, true)) && forall p <- ps :: !p.Goes?
  {
    var cs := Chunks(block, true);
    ChunksText(block, true);
    SameIs(cs);
    PlusIs(cs, a);
    NoneGoesSame(cs);
    NoneGoesPlus(cs, a);
  }

  // ---- a change shows ----

  /** A change of arguments grows by one character at most. */
  ghost predicate Short(ps: seq<Piece>) {
    forall p <- ps | p.Changes? :: |p.now.args| <= |p.was.args| + 1
  }

  ghost predicate InPlace(ps: seq<Piece>) {
    forall p <- ps | p.Changes? :: p.was.indent == p.now.indent && Findable(p.was) && Findable(p.now)
  }

  /** The keyword does not overlap itself by one. */
  lemma NoStutter(was: Found, now: Found, c: char)
    requires was.indent == now.indent
    ensures DirectiveText(now) != [c] + DirectiveText(was)
  {
    var n := |was.indent|;
    var t, u := DirectiveText(was), DirectiveText(now);
    assert t[n] == KEYWORD[0] && u[n + 1] == KEYWORD[1];
    assert ([c] + t)[n + 1] == t[n];
  }

  /** What is printed is never the text pushed on by something that went before: a push shrinks by one
      character at a time, and the last one would need a directive that overlaps itself. */
  lemma {:induction false} NeverPushed(ps: seq<Piece>, push: string)
    requires Short(ps) && InPlace(ps) && push != []
    ensures After(ps) != push + Before(ps)
    decreases |ps|
  {
    if ps == [] { return; }
    var p, rest := ps[0], ps[1..];
    assert p in ps && forall q <- rest :: q in ps;
    if After(ps) == push + Before(ps) {
      PushedOn(p, push, After(rest), Before(rest));
      match p
      case Stays(c) => NeverPushed(rest, push[1..] + [c]);
      case Goes(t) => NeverPushed(rest, push + t);
      case Changes(was, now) =>
        var k := |push| + |DirectiveText(was)| - |DirectiveText(now)|;
        if k > 0 { NeverPushed(rest, (push + DirectiveText(was))[|DirectiveText(now)|..]); }
        else {
          assert push == [push[0]];
          NoStutter(was, now, push[0]);
        }
    }
  }

  lemma PushedOn(p: Piece, push: string, after: string, before: string)
    requires push != []
    requires p.Changes? ==> |p.now.args| <= |p.was.args| + 1 && p.was.indent == p.now.indent
    requires match p
      case Stays(c) => [c] + after == push + ([c] + before)
      case Goes(t) => after == push + (t + before)
      case Changes(was, now) => DirectiveText(now) + after == push + (DirectiveText(was) + before)
    ensures match p
      case Stays(c) => after == push[1..] + [c] + before
      case Goes(t) => after == push + t + before
      case Changes(was, now) =>
        && |push| + |DirectiveText(was)| >= |DirectiveText(now)|
        && after == (push + DirectiveText(was))[|DirectiveText(now)|..] + before
        && (|push| + |DirectiveText(was)| == |DirectiveText(now)| ==>
              DirectiveText(now) == push + DirectiveText(was) && |push| == 1)
  {
    match p
    case Stays(c) =>
      assert ([c] + after)[1..] == after;
      assert (push + ([c] + before))[1..] == push[1..] + [c] + before;
    case Goes(_) =>
    case Changes(was, now) =>
      var u, t := DirectiveText(now), DirectiveText(was);
      assert |u| <= |t| + 1;
      assert (u + after)[|u|..] == after;
      assert push + (t + before) == push + t + before;
      assert (push + t + before)[|u|..] == (push + t)[|u|..] + before;
      if |push| + |t| == |u| { assert (u + after)[..|u|] == u && (push + t + before)[..|u|] == push + t; }
  }

  /** The arguments end at the first semicolon, so a changed directive shows. */
  lemma ArgumentsShow(was: Found, now: Found, before: string, after: string)
    requires was.indent == now.indent && ';' !in was.args && ';' !in now.args
    requires DirectiveText(now) + after == DirectiveText(was) + before
    ensures now == was && after == before
  {
    var head := was.indent + KEYWORD;
    assert DirectiveText(now) + after == head + (now.args + ";" + after);
    assert DirectiveText(was) + before == head + (was.args + ";" + before);
    var x, y := now.args + ";" + after, was.args + ";" + before;
    assert (head + x)[|head|..] == x && (head + y)[|head|..] == y;
    FirstSemicolon(now.args, after);
    FirstSemicolon(was.args, before);
    assert x[..|now.args|] == now.args && y[..|was.args|] == was.args;
    assert x[|now.args| + 1..] == after && y[|was.args| + 1..] == before;
  }

  lemma FirstSemicolon(args: string, rest: string)
    requires ';' !in args
    ensures ToSemicolon(args + ";" + rest) == Some(|args|)
  {
    var t := args + ";" + rest;
    assert t[..|args|] == args;
    SemicolonIs(t, |args|);
  }

  ghost predicate Unchanged(p: Piece) {
    match p
    case Stays(_) => true
    case Goes(t) => t == []
    case Changes(was, now) => was == now
  }

  /** If the text comes out as it was, nothing in it was changed. */
  lemma {:induction false} SameTextUnchanged(ps: seq<Piece>)
    requires InPlace(ps) && (Short(ps) || forall p <- ps :: !p.Goes?) && After(ps) == Before(ps)
    ensures forall p <- ps :: Unchanged(p)
    decreases |ps|
  {
    if ps == [] { return; }
    var p, rest := ps[0], ps[1..];
    assert p in ps && forall q <- rest :: q in ps;
    match p
    case Stays(c) =>
      assert ([c] + After(rest))[1..] == After(rest) && ([c] + Before(rest))[1..] == Before(rest);
      SameTextUnchanged(rest);
    case Goes(t) =>
      if t == [] {
        assert [] + Before(rest) == Before(rest) && [] + After(rest) == After(rest);
        SameTextUnchanged(rest);
      } else {
        NeverPushed(rest, t);
      }
    case Changes(was, now) =>
      ArgumentsShow(was, now, Before(rest), After(rest));
      SameTextUnchanged(rest);
  }

  // ---- releasing shows exactly when the address is named ----

  lemma {:induction false} JoinHasNoSemicolon(words: seq<string>)
    requires forall w <- words :: ';' !in w
    ensures ';' !in Join(words)
  {
    if |words| > 1 {
      assert words[0] in words;
      JoinHasNoSemicolon(words[1..]);
    } else if words != [] { assert words[0] in words; }
  }

  lemma {:induction false} DropIsShorter(words: seq<string>, a: string)
    ensures |Join(Drop(words, a))| <= |Join(words)|
  {
    if words != [] { DropIsShorter(words[1..], a); }
  }

  /** Words joined by single spaces are no longer than the text they were split from. */
  lemma {:induction false} SplitIsShorter(s: string)
    ensures |Join(Split(s))| <= |s|
    decreases |s|
  {
    if s != [] {
      if IsSpace(s[0]) { SplitIsShorter(s[1..]); }
      else {
        var n := WordLength(s);
        var rest := s[n..];
        assert Split(s) == [s[..n]] + Split(rest) && Split(s)[1..] == Split(rest);
        if rest != [] {
          assert Split(rest) == Split(rest[1..]);
          SplitIsShorter(rest[1..]);
        }
      }
    }
  }

  lemma WithoutPieceIsOk(d: Found, a: string)
    requires Findable(d)
    ensures Short([WithoutPiece(Directive(d), a)]) && InPlace([WithoutPiece(Directive(d), a)])
    ensures Unchanged(WithoutPiece(Directive(d), a)) ==> a !in Split(d.args)
  {
    var words := Split(d.args);
    var kept := Drop(words, a);
    SplitGivesWords(d.args);
    JoinHasNoSemicolon(kept);
    DropIsShorter(words, a);
    SplitIsShorter(d.args);
    SplitJoin(kept);
    hide Drop, Split, Join, IsSpace;
    assert DirectiveText(d) != [];
  }

  lemma {:induction false} WithoutIsOk(cs: seq<Chunk>, a: string)
    requires Directives(cs)
    ensures Short(WithoutPieces(cs, a)) && InPlace(WithoutPieces(cs, a))
    ensures (forall p <- WithoutPieces(cs, a) :: Unchanged(p)) ==> a !in NamesOf(cs)
  {
    hide WithoutPiece, Findable, Split, DirectiveText;
    if cs != [] {
      assert cs[0] in cs;
      WithoutIsOk(cs[1..], a);
      var ps, rest := WithoutPieces(cs, a), WithoutPieces(cs[1..], a);
      assert ps == [WithoutPiece(cs[0], a)] + rest;
      if cs[0].Directive? { WithoutPieceIsOk(cs[0].d, a); } else { OtherPiece(cs[0], a); }
      JoinOk([ps[0]], rest);
      assert ps[0] in ps && forall p <- rest :: p in ps;
    }
  }

  lemma OtherPiece(c: Chunk, a: string)
    requires c.Other?
    ensures WithoutPiece(c, a) == Stays(c.c) && Short([WithoutPiece(c, a)]) && InPlace([WithoutPiece(c, a)])
  {
  }

  lemma JoinOk(ps: seq<Piece>, qs: seq<Piece>)
    requires Short(ps) && Short(qs) && InPlace(ps) && InPlace(qs)
    ensures Short(ps + qs) && InPlace(ps + qs)
  {
    hide Findable;
  }

  lemma {:induction false} SameIsOk(cs: seq<Chunk>)
    requires Directives(cs)
    ensures Short(Same(cs)) && InPlace(Same(cs))
  {
    hide Findable;
    if cs != [] {
      assert cs[0] in cs;
      SameIsOk(cs[1..]);
    }
  }

  lemma GapIsOk(s: string, drop: bool)
    ensures Short(SkipPieces(s, drop)) && InPlace(SkipPieces(s, drop))
  {
    NoneGoes(s);
    NoneGoes(Skip(s, drop));
  }

  lemma BlockIsOk(block: string, a: string)
    ensures Short(BlockPieces(block, a)) && InPlace(BlockPieces(block, a))
    ensures (forall p <- BlockPieces(block, a) :: Unchanged(p)) ==> a !in Names(block)
  {
    var cs := Chunks(block, true);
    ChunksAreFindable(block, true);
    SameIsOk(cs);
    WithoutIsOk(cs, a);
    if Dropped(block, a) { assert BlockPieces(block, a)[0] in BlockPieces(block, a) && block != []; }
  }

  lemma {:induction false} ReleaseIsOk(f: File, a: string, drop: bool)
    ensures Short(ReleasePieces(f, a, drop)) && InPlace(ReleasePieces(f, a, drop))
    ensures (forall p <- ReleasePieces(f, a, drop) :: Unchanged(p)) ==> NamesNowhere(f, a)
    decreases |f.parts|
  {
    hide SkipPieces, BlockPieces, Dropped, Unchanged, Short, InPlace, Names;
    if f.parts == [] {
      GapIsOk(f.tail, drop);
    } else {
      var p, rest := f.parts[0], f.(parts := f.parts[1..]);
      var goes := Dropped(p.block, a);
      var x, y, z := SkipPieces(p.gap, drop), BlockPieces(p.block, a), ReleasePieces(rest, a, goes);
      GapIsOk(p.gap, drop);
      BlockIsOk(p.block, a);
      ReleaseIsOk(rest, a, goes);
      JoinOk(x, y);
      JoinOk(x + y, z);
      assert forall q <- y :: q in x + y + z;
      assert forall q <- z :: q in x + y + z;
      NamesInParts(f, a);
    }
  }

  lemma NamesInParts(f: File, a: string)
    requires f.parts != []
    ensures NamesNowhere(f, a) <==> a !in Names(f.parts[0].block) && NamesNowhere(f.(parts := f.parts[1..]), a)
  {
    hide Names;
    var first, rest := Names(f.parts[0].block), NameLists(f.(parts := f.parts[1..]));
    assert NameLists(f) == [first] + rest;
    assert first in NameLists(f) && forall l <- rest :: l in NameLists(f);
  }

  /** For every text: the text changes exactly when a server block names the address, which is how the
      program tells whether a file names it. */
  lemma ChangesIffNamed(text: string, a: string)
    ensures Release(text, a) != text <==> exists l <- NameLists(Cut(text)) :: a in l
  {
    if NamesNowhere(Cut(text), a) { UnnamedIsUntouched(text, a); }
    else {
      ReleaseKeepsTheRest(text, a);
      ReleaseIsOk(Cut(text), a, false);
      if Release(text, a) == text { SameTextUnchanged(ReleasePieces(Cut(text), a, false)); }
    }
  }

  // ---- answering shows exactly when it is missing ----

  lemma PlusPieceIsOk(d: Found, a: string)
    requires Findable(d) && IsName(a)
    ensures var now := Found(d.indent, RStrip(d.args) + " " + a); Findable(now) && now != d
  {
    var r := RStrip(d.args);
    SplitAppend(d.args, a);
    hide IsSpace, RStrip;
    var args := r + " " + a;
    assert r != [] ==> args[0] == d.args[0];
    assert ';' !in args;
  }

  lemma {:induction false} PlusIsOk(cs: seq<Chunk>, a: string)
    requires Directives(cs) && IsName(a)
    ensures InPlace(PlusPieces(cs, a))
    ensures (forall p <- PlusPieces(cs, a) :: Unchanged(p)) ==> NamesOf(cs) == []
  {
    hide Findable, RStrip;
    if cs != [] {
      assert cs[0] in cs;
      var ps := PlusPieces(cs, a);
      if cs[0].Other? {
        PlusIsOk(cs[1..], a);
        var rest := PlusPieces(cs[1..], a);
        assert ps == [Stays(cs[0].c)] + rest;
        assert forall p <- rest :: p in ps;
        assert NamesOf(cs) == NamesOf(cs[1..]);
      } else {
        PlusPieceIsOk(cs[0].d, a);
        SameIsOk(cs[1..]);
        assert ps[0] in ps;
      }
    }
  }

  lemma AnsweredIsOk(block: string, n: string, a: string)
    requires IsName(a)
    ensures InPlace(AnsweredPieces(block, n, a))
    ensures (forall p <- AnsweredPieces(block, n, a) :: Unchanged(p)) ==> n !in Names(block) || a in Names(block)
  {
    ChunksAreFindable(block, true);
    SameIsOk(Chunks(block, true));
    PlusIsOk(Chunks(block, true), a);
  }

  ghost predicate AnsweredEverywhere(f: File, n: string, a: string) {
    forall l <- NameLists(f) :: n in l ==> a in l
  }

  lemma {:induction false} AnswerIsOk(f: File, n: string, a: string)
    requires IsName(a)
    ensures InPlace(AnswerPieces(f, n, a))
    ensures (forall p <- AnswerPieces(f, n, a) :: Unchanged(p)) ==> AnsweredEverywhere(f, n, a)
    decreases |f.parts|
  {
    hide AnsweredPieces, Unchanged, Names, Findable, IsName;
    if f.parts == [] {
      NoneGoes(f.tail);
    } else {
      var p, rest := f.parts[0], f.(parts := f.parts[1..]);
      var x, y, z := GapPieces(p.gap), AnsweredPieces(p.block, n, a), AnswerPieces(rest, n, a);
      NoneGoes(p.gap);
      AnsweredIsOk(p.block, n, a);
      AnswerIsOk(rest, n, a);
      assert forall q <- y :: q in x + y + z;
      assert forall q <- z :: q in x + y + z;
      assert NameLists(f) == [Names(p.block)] + NameLists(rest);
    }
  }

  /** For every text: answering changes it exactly when a block that names the anchor lacks the address. */
  lemma AnswerChangesIff(text: string, n: string, a: string)
    requires IsName(a)
    ensures Answer(text, n, a) != text <==> exists l <- NameLists(Cut(text)) :: n in l && a !in l
  {
    if AnsweredEverywhere(Cut(text), n, a) {
      NothingToAnswer(Cut(text), n, a);
      CutKeepsText(text);
    } else {
      AnswerKeepsTheRest(text, n, a);
      AnswerIsOk(Cut(text), n, a);
      if Answer(text, n, a) == text { SameTextUnchanged(AnswerPieces(Cut(text), n, a)); }
    }
  }
}

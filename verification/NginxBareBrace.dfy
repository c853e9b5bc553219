/** Why a brace at top level must have its own word: a site file that releasing once does not settle. */
module NginxBareBrace {
  import opened Optional
  import opened NginxScan
  import opened NginxNames
  import opened NginxFile
  import opened NginxEdit
  import opened NginxTools
  import opened NginxSites

  function OnlyName(a: string): Found {
    Found("", " " + a)
  }

  /** A line that names `a`, and the closing brace. */
  function Body(a: string): string {
    "\n" + (DirectiveText(OnlyName(a)) + "}")
  }

  lemma {:induction false} NoNames(w: string, rest: string)
    requires '\n' !in w
    ensures NamesOf(Chunks(w + rest, false)) == NamesOf(Chunks(rest, false))
  {
    if w == [] { assert w + rest == rest; }
    else {
      NoNames(w[1..], rest);
      assert (w + rest)[1..] == w[1..] + rest;
      assert w[0] in w;
    }
  }

  lemma OnlyNameIsPlain(a: string)
    requires IsAddress(a)
    ensures Findable(OnlyName(a)) && Plain(OnlyName(a).args) && Split(OnlyName(a).args) == [a]
  {
    SplitJoin([a]);
    var args := OnlyName(a).args;
    assert ';' !in args;
    forall c <- args ensures !IsSpecial(c) { assert c == ' ' || c in a; }
  }

  lemma BodyNames(a: string)
    requires IsAddress(a)
    ensures NamesOf(Chunks(Body(a), false)) == [a]
  {
    var d := OnlyName(a);
    OnlyNameIsPlain(a);
    hide DirectiveAt, Split, IsAddress;
    var end := "}";
    var t := DirectiveText(d) + end;
    DirectiveReads(d, end);
    assert Body(a)[1..] == t && t[|DirectiveText(d)|..] == end;
    assert Chunks(end, false) == [Other('}')];
    assert Chunks(t, true) == [Directive(d)] + Chunks(end, false);
    assert NamesOf(Chunks(end, false)) == [];
    assert NamesOf(Chunks(t, true)) == [a];
    assert Chunks(Body(a), false) == [Other('\n')] + Chunks(t, true);
  }

  function Block(space: string, a: string): string {
    SERVER + (space + "{" + Body(a))
  }

  lemma BodyCloses(a: string)
    requires IsAddress(a)
    ensures Closes(OPENED, Body(a))
  {
    var d := OnlyName(a);
    OnlyNameIsPlain(a);
    DirectiveIsPlain(d);
    ClosesSkip(OPENED, DirectiveText(d), "}");
    assert Closes(OPENED, "}");
    assert Body(a)[1..] == DirectiveText(d) + "}";
  }

  lemma BlockIsOk(space: string, a: string)
    requires AllSpace(space) && IsAddress(a)
    ensures BlockOk(Block(space, a))
  {
    var rest := space + "{" + Body(a);
    BodyCloses(a);
    SpaceThenBodyIs(rest, |space|);
    assert rest[|space| + 1..] == Body(a);
    assert Block(space, a)[|SERVER|..] == rest;
    BlockIs(Block(space, a));
  }

  lemma BlockNames(space: string, a: string)
    requires AllSpace(space) && '\n' !in space && IsAddress(a)
    ensures Names(Block(space, a)) == [a]
  {
    hide IsSpace, IsAddress, Body, NamesOf;
    var rest := space + "{" + Body(a);
    var b := Block(space, a);
    assert SpaceThenBody(rest) by { BlockIsOk(space, a); BlockIs(b); assert b[|SERVER|..] == rest; }
    NoDirectiveInHead(rest);
    BodyNames(a);
    var head := SERVER[1..] + space + "{";
    assert b == [SERVER[0]] + (head + Body(a));
    assert b[1..] == head + Body(a);
    NoNames(head, Body(a));
    assert Chunks(b, true) == [Other(b[0])] + Chunks(b[1..], false);
    NamesOther(b[0], Chunks(b[1..], false));
  }

  lemma NamesOther(c: char, cs: seq<Chunk>)
    ensures NamesOf([Other(c)] + cs) == NamesOf(cs)
  {
  }

  lemma ServerGap()
    ensures GapOk("server ")
  {
    assert Feed("server ", 7) == Scan(TOP, None, []);
  }

  lemma {:induction false} NeverStarts(s: string, i: nat)
    requires 1 <= i <= |s| && s[0] == '{' && '{' !in s[1..]
    ensures Feed(s, i).start == None && Feed(s, i).found == []
  {
    if i > 1 {
      NeverStarts(s, i - 1);
      assert s[i - 1] == s[1..][i - 2];
    } else {
      assert s[..0] == "";
      assert HeadStart("") == None;
    }
  }

  /** A word left by itself takes the brace after the block that is gone, and goes next time. */
  lemma BareBraceUnsettles(a: string)
    requires IsAddress(a)
    ensures var text := "server " + Block("", a) + ("{" + Body(a));
      Release(text, a) == Block(" ", a) && Release(Release(text, a), a) == ""
  {
    hide Release, Block, Body;
    FirstTime(a);
    SecondTime(a);
  }

  lemma FirstTime(a: string)
    requires IsAddress(a)
    ensures Release("server " + Block("", a) + ("{" + Body(a)), a) == Block(" ", a)
  {
    hide Release, Body, Blocks, GapOk, IsAddress;
    BareTail(a);
    ServerGap();
    GoesWhole("server ", "", "{" + Body(a), a);
    assert Skip("{" + Body(a), true) == "{" + Body(a);
    assert "server " + ("{" + Body(a)) == Block(" ", a);
  }

  lemma SecondTime(a: string)
    requires IsAddress(a)
    ensures Release(Block(" ", a), a) == ""
  {
    hide Release, Block, GapOk, IsAddress;
    EmptyGapIsOk();
    GoesWhole("", " ", "", a);
    assert "" + Block(" ", a) + "" == Block(" ", a);
  }

  lemma BareTail(a: string)
    requires IsAddress(a)
    ensures Blocks("{" + Body(a)) == []
  {
    var tail := "{" + Body(a);
    OnlyNameIsPlain(a);
    DirectiveIsPlain(OnlyName(a));
    assert tail[1..] == Body(a) && '{' !in Body(a);
    NeverStarts(tail, |tail|);
  }

  lemma GoesWhole(gap: string, space: string, tail: string, a: string)
    requires GapOk(gap) && Blocks(tail) == [] && AllSpace(space) && '\n' !in space && IsAddress(a)
    ensures Release(gap + Block(space, a) + tail, a) == gap + Skip(tail, true)
  {
    hide Names, GapOk, BlockOk, Block, Blocks;
    var block := Block(space, a);
    BlockIsOk(space, a);
    BlockNames(space, a);
    var f := File([Part(gap, block)], tail);
    CutsBack(f);
    assert f.(parts := f.parts[1..]) == File([], tail);
    assert FileText(f) == gap + block + tail;
    assert ReleasedBlock(block, a).None?;
    var carry := "" + Skip(gap, false);
    assert carry == gap;
    assert ReleasedFile(File([], tail), a, gap, true) == File([], gap + Skip(tail, true));
    assert ReleasedFile(f, a, "", false) == ReleasedFile(File([], tail), a, carry, true);
  }
}

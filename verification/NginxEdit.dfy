/** Editing the directives of a block: what is read back, and what the scanner sees. */
module NginxEdit {
  import opened Optional
  import opened NginxScan
  import opened NginxNames
  import opened NginxFile

  predicate IsSpecial(c: char) {
    c == '#' || c == '"' || c == '\'' || c == '{' || c == '}' || c == '\\'
  }

  /** No comment, quote or brace. */
  ghost predicate Plain(args: string) {
    forall c <- args :: !IsSpecial(c)
  }

  ghost predicate PlainDirectives(cs: seq<Chunk>) {
    forall c <- cs | c.Directive? :: Plain(c.d.args)
  }

  predicate KeywordNext(t: string) {
    StartsWithKeyword(t[Blanks(t)..])
  }

  /** No directive is followed on its line by another. */
  ghost predicate OwnLines(cs: seq<Chunk>) {
    cs == [] || (OwnLines(cs[1..]) && (cs[0].Directive? ==> !KeywordNext(Text(cs[1..]))))
  }

  /** `ds` is `cs` with some directives taken out and others given new arguments. */
  ghost predicate Edits(cs: seq<Chunk>, ds: seq<Chunk>)
    decreases |cs|
  {
    if cs == [] then ds == []
    else Removes(cs, ds) || (ds != [] && KeepsChunk(cs[0], ds[0]) && Edits(cs[1..], ds[1..]))
  }

  ghost predicate Removes(cs: seq<Chunk>, ds: seq<Chunk>)
    requires cs != []
    decreases |cs|, 0
  {
    cs[0].Directive? && Plain(cs[0].d.args) && Edits(cs[1..], ds)
  }

  ghost predicate KeepsChunk(c: Chunk, d: Chunk) {
    match c
    case Other(_) => d == c
    case Directive(f) =>
      d.Directive? && d.d.indent == f.indent && Findable(d.d) && Plain(f.args) && Plain(d.d.args)
  }

  /** An edit leaves every other character. */
  lemma EditOther(t: string, ls: bool, ds: seq<Chunk>)
    requires t != [] && !(ls && DirectiveAt(t).Some?) && Edits(Chunks(t, ls), ds)
    ensures ds != [] && ds[0] == Other(t[0]) && ds == [Other(t[0])] + ds[1..]
    ensures Edits(Chunks(t[1..], t[0] == '\n'), ds[1..])
    ensures Text(ds) == [t[0]] + Text(ds[1..])
  {
    var cs := Chunks(t, ls);
    assert cs == [Other(t[0])] + Chunks(t[1..], t[0] == '\n');
    assert cs[0] == Other(t[0]) && cs[1..] == Chunks(t[1..], t[0] == '\n');
    assert !Removes(cs, ds);
  }

  // ---- the line after an edit ----

  /** Two texts with the same first line. */
  ghost predicate SameLine(t: string, u: string) {
    if t == [] then u == []
    else u != [] && t[0] == u[0] && (t[0] == '\n' || SameLine(t[1..], u[1..]))
  }

  lemma {:induction false} SameLineStarts(t: string, u: string, w: string)
    requires SameLine(t, u) && w <= t && '\n' !in w
    ensures w <= u && SameLine(t[|w|..], u[|w|..])
  {
    if w != [] {
      SameLineStarts(t[1..], u[1..], w[1..]);
      assert u[..|w|] == [u[0]] + u[1..][..|w| - 1];
    }
  }

  lemma {:induction false} SameLineBack(t: string, u: string)
    requires SameLine(t, u)
    ensures SameLine(u, t)
  {
    if t != [] && t[0] != '\n' { SameLineBack(t[1..], u[1..]); }
  }

  lemma {:induction false} BlanksAre(t: string, n: nat)
    requires n <= |t| && (forall i | 0 <= i < n :: IsBlank(t[i])) && (n < |t| ==> !IsBlank(t[n]))
    ensures Blanks(t) == n
  {
    if n > 0 { BlanksAre(t[1..], n - 1); }
  }

  lemma SameLineNext(t: string, u: string)
    requires SameLine(t, u) && StartsWithKeyword(t)
    ensures StartsWithKeyword(u)
  {
    assert '\n' !in KEYWORD;
    hide IsWord;
    SameLineStarts(t, u, KEYWORD);
    assert |t| > |KEYWORD| ==> t[|KEYWORD|] == t[|KEYWORD|..][0];
    assert |u| > |KEYWORD| ==> u[|KEYWORD|] == u[|KEYWORD|..][0];
  }

  lemma SameLineKeyword(t: string, u: string)
    requires SameLine(t, u) && KeywordNext(t)
    ensures KeywordNext(u)
  {
    var n := Blanks(t);
    var w := t[..n];
    SameLineStarts(t, u, w);
    SameLineNext(t[n..], u[n..]);
    KeywordFirst(u[n..]);
    hide StartsWithKeyword;
    assert forall i | 0 <= i < n :: u[i] == w[i];
    BlanksAre(u, n);
  }

  /** A text that starts with the word does not start with a blank. */
  lemma KeywordFirst(t: string)
    requires StartsWithKeyword(t)
    ensures t != [] && t[0] == KEYWORD[0] && !IsBlank(t[0])
  {
    assert t[0] == KEYWORD[0];
  }

  lemma {:induction false} EditKeepsLine(t: string, ds: seq<Chunk>)
    requires Edits(Chunks(t, false), ds)
    ensures SameLine(t, Text(ds))
  {
    if t != [] {
      EditOther(t, false, ds);
      if t[0] != '\n' { EditKeepsLine(t[1..], ds[1..]); }
    }
  }

  lemma KeywordAfterEdit(t: string, ds: seq<Chunk>)
    requires Edits(Chunks(t, false), ds)
    ensures KeywordNext(t) <==> KeywordNext(Text(ds))
  {
    EditKeepsLine(t, ds);
    SameLineBack(t, Text(ds));
    if KeywordNext(t) { SameLineKeyword(t, Text(ds)); }
    if KeywordNext(Text(ds)) { SameLineKeyword(Text(ds), t); }
  }

  // ---- an edited block is read as edited ----

  lemma {:induction false} SemicolonIs(t: string, n: nat)
    requires n < |t| && t[n] == ';' && ';' !in t[..n]
    ensures ToSemicolon(t) == Some(n)
  {
    if n > 0 {
      assert t[0] == t[..n][0];
      assert t[1..][..n - 1] == t[..n][1..];
      SemicolonIs(t[1..], n - 1);
    }
  }

  lemma DirectiveReads(d: Found, rest: string)
    requires Findable(d)
    ensures DirectiveAt(DirectiveText(d) + rest) == Some(d)
  {
    var t := DirectiveText(d) + rest;
    var n := |d.indent|;
    var after := d.args + ";" + rest;
    assert t == d.indent + (KEYWORD + after);
    WordIsFound(after);
    KeywordFirst(KEYWORD + after);
    forall i | 0 <= i < n ensures IsBlank(t[i]) { assert t[i] == d.indent[i]; }
    assert t[n..] == KEYWORD + after && t[..n] == d.indent;
    hide IsBlank, IsWord;
    BlanksAre(t, n);
    assert t[n + |KEYWORD|..] == after;
    assert after[..|d.args|] == d.args;
    SemicolonIs(after, |d.args|);
  }

  lemma WordIsFound(after: string)
    requires after != [] && !IsWord(after[0])
    ensures StartsWithKeyword(KEYWORD + after)
  {
    hide IsWord;
    var t := KEYWORD + after;
    assert t[..|KEYWORD|] == KEYWORD && t[|KEYWORD|] == after[0];
  }

  lemma {:induction false} NoSemicolon(t: string, ls: bool, ds: seq<Chunk>)
    requires ';' !in t && Edits(Chunks(t, ls), ds)
    ensures ds == Chunks(t, ls)
  {
    if t != [] {
      if DirectiveAt(t).Some? {
        var text := DirectiveText(DirectiveAt(t).value);
        assert text[|text| - 1] == t[|text| - 1];
      }
      EditOther(t, ls, ds);
      NoSemicolon(t[1..], t[0] == '\n', ds[1..]);
    }
  }

  lemma NoneNoSemicolon(t: string)
    requires DirectiveAt(t).None? && KeywordNext(t)
    ensures ';' !in t
  {
    var n := Blanks(t);
    assert t == t[..n] + KEYWORD + t[n + |KEYWORD|..];
  }

  /** What starts no directive still starts none after an edit further on. */
  lemma StillNone(t: string, ls: bool, ds: seq<Chunk>)
    requires t != [] && DirectiveAt(t).None? && Edits(Chunks(t, ls), ds)
    ensures DirectiveAt(Text(ds)).None?
  {
    EditOther(t, ls, ds);
    ChunksText(t, ls);
    if KeywordNext(t) {
      NoneNoSemicolon(t);
      NoSemicolon(t, ls, ds);
    } else {
      if t[0] != '\n' { EditKeepsLine(t[1..], ds[1..]); }
      assert SameLine(t, Text(ds));
      if KeywordNext(Text(ds)) {
        SameLineBack(t, Text(ds));
        SameLineKeyword(Text(ds), t);
      }
    }
  }

  lemma {:induction false} EditReadsBack(t: string, ls: bool, ds: seq<Chunk>)
    requires Edits(Chunks(t, ls), ds) && OwnLines(Chunks(t, ls))
    ensures Chunks(Text(ds), ls) == ds
    decreases |t|
  {
    hide DirectiveAt;
    if t == [] { return; }
    if ls && DirectiveAt(t).Some? {
      var d := DirectiveAt(t).value;
      var rest := t[|DirectiveText(d)|..];
      ChunksText(rest, false);
      if Removes(Chunks(t, ls), ds) {
        EditReadsBack(rest, false, ds);
        KeywordAfterEdit(rest, ds);
        NoKeywordNoDirective(Text(ds));
      } else {
        EditReadsBack(rest, false, ds[1..]);
        DirectiveReads(ds[0].d, Text(ds[1..]));
        assert Text(ds)[|DirectiveText(ds[0].d)|..] == Text(ds[1..]);
      }
    } else {
      EditOther(t, ls, ds);
      EditReadsBack(t[1..], t[0] == '\n', ds[1..]);
      if ls { StillNone(t, ls, ds); }
      assert Text(ds)[1..] == Text(ds[1..]);
    }
  }

  lemma NoKeywordNoDirective(t: string)
    requires !KeywordNext(t)
    ensures DirectiveAt(t).None?
  {
  }

  lemma {:induction false} EditKeepsOwnLines(t: string, ls: bool, ds: seq<Chunk>)
    requires Edits(Chunks(t, ls), ds) && OwnLines(Chunks(t, ls))
    ensures OwnLines(ds)
    decreases |t|
  {
    hide DirectiveAt;
    if t == [] { return; }
    if ls && DirectiveAt(t).Some? {
      var d := DirectiveAt(t).value;
      var rest := t[|DirectiveText(d)|..];
      ChunksText(rest, false);
      if Removes(Chunks(t, ls), ds) {
        EditKeepsOwnLines(rest, false, ds);
      } else {
        EditKeepsOwnLines(rest, false, ds[1..]);
        KeywordAfterEdit(rest, ds[1..]);
      }
    } else {
      EditOther(t, ls, ds);
      EditKeepsOwnLines(t[1..], t[0] == '\n', ds[1..]);
    }
  }

  // ---- what the scanner sees of an edit ----

  /** From inside a body, `s` closes it at its last character and not before. */
  predicate Closes(p: Place, s: string)
    decreases |s|
  {
    && s != [] && p.depth >= 1
    && if |s| == 1 then s[0] == '}' && Next(p, s[0]) == TOP else Closes(Next(p, s[0]), s[1..])
  }

  /** Space, then a body in braces. */
  predicate SpaceThenBody(s: string) {
    s != [] && if s[0] == '{' then Closes(OPENED, s[1..]) else IsSpace(s[0]) && SpaceThenBody(s[1..])
  }

  lemma ThroughFirst(p: Place, s: string, m: nat)
    requires 1 <= m <= |s|
    ensures Through(p, s[..m]) == Through(Next(p, s[0]), s[1..][..m - 1])
  {
    var c := s[..1];
    assert c[..0] == [] && Through(p, c) == Next(p, s[0]);
    assert s[..m] == c + s[1..][..m - 1];
    ThroughJoins(p, c, s[1..][..m - 1]);
  }

  lemma InsideFromNext(p: Place, s: string)
    requires s != []
    ensures InsideFrom(p, s) <==> p.depth >= 1 && InsideFrom(Next(p, s[0]), s[1..])
  {
    var next, rest := Next(p, s[0]), s[1..];
    assert s[..0] == [] && Through(p, []) == p;
    if InsideFrom(p, s) {
      forall m | 0 <= m <= |rest| ensures Through(next, rest[..m]).depth >= 1 {
        ThroughFirst(p, s, m + 1);
      }
    }
    if p.depth >= 1 && InsideFrom(next, rest) {
      forall m | 0 <= m <= |s| ensures Through(p, s[..m]).depth >= 1 {
        if m > 0 { ThroughFirst(p, s, m); }
      }
    }
  }

  lemma InsideOfNothing(p: Place)
    ensures InsideFrom(p, []) <==> p.depth >= 1
  {
    var s: string := [];
    assert s[..0] == s;
    if InsideFrom(p, s) { assert Through(p, s[..0]).depth >= 1; }
  }

  lemma {:induction false} ClosesIs(p: Place, s: string)
    ensures Closes(p, s) <==>
      s != [] && s[|s| - 1] == '}' && InsideFrom(p, s[..|s| - 1]) && Through(p, s) == TOP
    decreases |s|
  {
    hide InsideFrom;
    if s != [] {
      ThroughFirst(p, s, |s|);
      assert s[..|s|] == s && s[1..][..|s| - 1] == s[1..];
      if |s| == 1 {
        assert s[..0] == [];
        assert InsideFrom(p, []) <==> p.depth >= 1 by { InsideOfNothing(p); }
      } else {
        ClosesIs(Next(p, s[0]), s[1..]);
        InsideFromNext(p, s[..|s| - 1]);
        assert s[..|s| - 1][1..] == s[1..][..|s| - 2];
      }
    }
  }

  lemma {:induction false} SpaceThenBodyIs(s: string, q: nat)
    requires q < |s| && s[q] == '{' && forall i | 0 <= i < q :: IsSpace(s[i])
    ensures SpaceThenBody(s) <==> Closes(OPENED, s[q + 1..])
  {
    if q > 0 {
      SpaceThenBodyIs(s[1..], q - 1);
      assert s[1..][q..] == s[q + 1..];
    }
  }

  lemma {:induction false} BraceOf(s: string) returns (q: nat)
    requires SpaceThenBody(s)
    ensures q < |s| && s[q] == '{' && forall i | 0 <= i < q :: IsSpace(s[i])
  {
    if s[0] == '{' { q := 0; }
    else { q := BraceOf(s[1..]); q := q + 1; }
  }

  lemma BlockIs(block: string)
    ensures BlockOk(block) <==> SERVER <= block && SpaceThenBody(block[|SERVER|..])
  {
    if BlockOk(block) { BlockReads(block); }
    if SERVER <= block && SpaceThenBody(block[|SERVER|..]) {
      var k := BraceOf(block[|SERVER|..]);
      BlockHas(block, k);
    }
  }

  lemma BodyIs(body: string)
    ensures BodyOk(body) <==> Closes(OPENED, body)
  {
    ClosesIs(OPENED, body);
  }

  lemma BlockReads(block: string)
    requires BlockOk(block)
    ensures SERVER <= block && SpaceThenBody(block[|SERVER|..])
  {
    hide BodyOk;
    var q: nat :| BlockSplits(block, q);
    var s := block[|SERVER|..];
    BodyIs(block[q + 1..]);
    SpaceThenBodyIs(s, q - |SERVER|);
    assert s[q - |SERVER| + 1..] == block[q + 1..];
  }

  lemma BlockHas(block: string, k: nat)
    requires SERVER <= block && SpaceThenBody(block[|SERVER|..])
    requires var s := block[|SERVER|..]; k < |s| && s[k] == '{' && forall i | 0 <= i < k :: IsSpace(s[i])
    ensures BlockOk(block)
  {
    hide BodyOk;
    var s := block[|SERVER|..];
    var q := k + |SERVER|;
    SpaceThenBodyIs(s, k);
    assert s[k + 1..] == block[q + 1..];
    BodyIs(s[k + 1..]);
    forall i | |SERVER| <= i < q ensures IsSpace(block[i]) { assert block[i] == s[i - |SERVER|]; }
    assert BlockSplits(block, q);
  }

  predicate LineMode(p: Place) {
    p.mode.Normal? || (p.mode.Quote? && (p.mode.q == '"' || p.mode.q == '\''))
  }

  predicate Quotes(p: Place) {
    p.mode.Quote? || p.mode.Escape? ==> p.mode.q == '"' || p.mode.q == '\''
  }

  /** Text without comments, quotes and braces leaves the scanner where it is. */
  lemma {:induction false} ClosesSkip(p: Place, a: string, rest: string)
    requires Plain(a) && LineMode(p) && rest != [] && p.depth >= 1
    ensures Closes(p, a + rest) <==> Closes(p, rest)
  {
    if a == [] { assert a + rest == rest; }
    else {
      assert a[0] in a;
      ClosesSkip(p, a[1..], rest);
      assert (a + rest)[1..] == a[1..] + rest;
    }
  }

  lemma PlainJoins(a: string, b: string)
    requires Plain(a) && Plain(b)
    ensures Plain(a + b)
  {
    hide IsSpecial;
  }

  lemma KeywordIsPlain()
    ensures Plain(KEYWORD) && Plain(";")
  {
  }

  lemma DirectiveIsPlain(d: Found)
    requires Findable(d) && Plain(d.args)
    ensures Plain(DirectiveText(d))
  {
    assert Plain(d.indent);
    hide Plain;
    KeywordIsPlain();
    PlainJoins(d.indent, KEYWORD);
    PlainJoins(d.indent + KEYWORD, d.args);
    PlainJoins(d.indent + KEYWORD + d.args, ";");
  }

  lemma {:induction false} NotClosed(p: Place, a: string)
    requires Plain(a)
    ensures !Closes(p, a)
    decreases |a|
  {
    if a != [] {
      assert a[0] in a;
      NotClosed(Next(p, a[0]), a[1..]);
    }
  }

  lemma {:induction false} EditCloses(p: Place, t: string, ls: bool, ds: seq<Chunk>)
    requires Closes(p, t) && Edits(Chunks(t, ls), ds) && (ls ==> LineMode(p)) && Quotes(p)
    ensures Closes(p, Text(ds))
    decreases |t|
  {
    hide DirectiveAt;
    if ls && DirectiveAt(t).Some? {
      var d := DirectiveAt(t).value;
      var rest := t[|DirectiveText(d)|..];
      assert t == DirectiveText(d) + rest;
      DirectiveIsPlain(d);
      NotClosed(p, DirectiveText(d));
      assert rest == [] ==> t == DirectiveText(d);
      ClosesSkip(p, DirectiveText(d), rest);
      if Removes(Chunks(t, ls), ds) {
        EditCloses(p, rest, false, ds);
      } else {
        EditCloses(p, rest, false, ds[1..]);
        DirectiveIsPlain(ds[0].d);
        ClosesSkip(p, DirectiveText(ds[0].d), Text(ds[1..]));
      }
    } else {
      EditOther(t, ls, ds);
      if |t| == 1 {
        assert ds[1..] == [];
      } else {
        EditCloses(Next(p, t[0]), t[1..], t[0] == '\n', ds[1..]);
        assert Text(ds)[1..] == Text(ds[1..]);
      }
    }
  }

  lemma {:induction false} EditSpace(t: string, ls: bool, ds: seq<Chunk>)
    requires SpaceThenBody(t) && Edits(Chunks(t, ls), ds)
    ensures SpaceThenBody(Text(ds))
    decreases |t|
  {
    NoDirectiveInSpace(t);
    EditOther(t, ls, ds);
    assert Text(ds)[1..] == Text(ds[1..]);
    if t[0] == '{' {
      EditCloses(OPENED, t[1..], false, ds[1..]);
    } else {
      EditSpace(t[1..], t[0] == '\n', ds[1..]);
    }
  }

  lemma SpaceComesFirst(t: string)
    requires SpaceThenBody(t)
    ensures Blanks(t) < |t| && t[Blanks(t)] != KEYWORD[0]
  {
    var q := BraceOf(t);
    assert Blanks(t) <= q;
  }

  lemma NoDirectiveInSpace(t: string)
    requires SpaceThenBody(t)
    ensures DirectiveAt(t).None?
  {
    SpaceComesFirst(t);
    WordFirst(t[Blanks(t)..]);
  }

  lemma WordFirst(t: string)
    requires t != [] && t[0] != KEYWORD[0]
    ensures !StartsWithKeyword(t)
  {
  }

  /** The first word of a block is on a line of its own kind: no directive starts in it. */
  lemma {:induction false} EditWord(word: string, t: string, ls: bool, ds: seq<Chunk>)
    requires '\n' !in word && SpaceThenBody(t)
    requires word != [] && ls ==> DirectiveAt(word + t).None?
    requires Edits(Chunks(word + t, ls), ds)
    ensures word <= Text(ds) && SpaceThenBody(Text(ds)[|word|..])
    decreases |word|
  {
    hide DirectiveAt, SpaceThenBody;
    if word == [] {
      assert word + t == t;
      EditSpace(t, ls, ds);
      assert Text(ds)[0..] == Text(ds);
    } else {
      EditOther(word + t, ls, ds);
      assert (word + t)[1..] == word[1..] + t;
      assert word[0] in word;
      EditWord(word[1..], t, false, ds[1..]);
      assert Text(ds)[|word|..] == Text(ds[1..])[|word| - 1..];
    }
  }

  /** An edited block is a block. */
  lemma EditedBlock(block: string, ds: seq<Chunk>)
    requires BlockOk(block) && Edits(Chunks(block, true), ds)
    ensures BlockOk(Text(ds))
  {
    hide BlockOk, Edits;
    BlockIs(block);
    BlockIs(Text(ds));
    var t := block[|SERVER|..];
    assert block == SERVER + t;
    NoDirectiveInHead(t);
    EditWord(SERVER, t, true, ds);
  }

  lemma NoDirectiveInHead(t: string)
    requires SpaceThenBody(t)
    ensures DirectiveAt(SERVER + t).None?
  {
    var block := SERVER + t;
    assert !IsBlank(block[0]) && block[|SERVER|] == t[0] != KEYWORD[|SERVER|];
  }
}

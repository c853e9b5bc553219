/** Taking an address out of a site file, and adding one to it. */
module NginxTools {
  import opened Optional
  import opened NginxScan
  import opened NginxNames
  import opened NginxFile
  import opened NginxEdit

  // ---- one block ----

  function Drop(names: seq<string>, a: string): (kept: seq<string>)
    ensures forall w <- kept :: w in names && w != a
    ensures a !in names ==> kept == names
  {
    if names == [] then []
    else
      var kept := Drop(names[1..], a);
      if names[0] == a then kept else [names[0]] + kept
  }

  function Without(cs: seq<Chunk>, a: string): seq<Chunk> {
    if cs == [] then []
    else
      var rest := Without(cs[1..], a);
      if cs[0].Other? then [cs[0]] + rest
      else
        var kept := Drop(Split(cs[0].d.args), a);
        if kept == [] then rest else [Directive(Found(cs[0].d.indent, " " + Join(kept)))] + rest
  }

  /** The address added to the first directive. */
  function Plus(cs: seq<Chunk>, a: string): seq<Chunk> {
    if cs == [] then []
    else if cs[0].Other? then [cs[0]] + Plus(cs[1..], a)
    else [Directive(Found(cs[0].d.indent, RStrip(cs[0].d.args) + " " + a))] + cs[1..]
  }

  ghost predicate Directives(cs: seq<Chunk>) {
    forall c <- cs | c.Directive? :: Findable(c.d)
  }

  lemma {:induction false} ChunksAreFindable(t: string, ls: bool)
    ensures Directives(Chunks(t, ls))
    decreases |t|
  {
    if t == [] {}
    else if ls && DirectiveAt(t).Some? {
      ChunksAreFindable(t[|DirectiveText(DirectiveAt(t).value)|..], false);
    } else {
      ChunksAreFindable(t[1..], t[0] == '\n');
    }
  }

  ghost predicate Editable(cs: seq<Chunk>) {
    Directives(cs) && PlainDirectives(cs)
  }

  lemma {:induction false} DropAppends(xs: seq<string>, ys: seq<string>, a: string)
    ensures Drop(xs + ys, a) == Drop(xs, a) + Drop(ys, a)
  {
    if xs == [] { assert xs + ys == ys; }
    else {
      assert (xs + ys)[1..] == xs[1..] + ys;
      DropAppends(xs[1..], ys, a);
    }
  }

  lemma {:induction false} JoinIsPlain(words: seq<string>)
    requires forall w <- words :: Plain(w) && ';' !in w
    ensures Plain(Join(words)) && ';' !in Join(words)
  {
    if |words| > 1 {
      assert words[0] in words;
      JoinIsPlain(words[1..]);
    } else if words != [] { assert words[0] in words; }
  }

  lemma KeptIsFindable(d: Found, a: string)
    requires Findable(d) && Plain(d.args)
    ensures var kept := Drop(Split(d.args), a);
      Findable(Found(d.indent, " " + Join(kept))) && Plain(" " + Join(kept)) && Split(" " + Join(kept)) == kept
  {
    var kept := Drop(Split(d.args), a);
    SplitGivesWords(d.args);
    forall w <- kept ensures Plain(w) {}
    JoinIsPlain(kept);
    SplitJoin(kept);
  }

  lemma {:induction false} EditSame(cs: seq<Chunk>)
    requires Editable(cs)
    ensures Edits(cs, cs)
  {
    if cs != [] {
      assert cs[0] in cs;
      EditSame(cs[1..]);
    }
  }

  lemma WithoutDirective(cs: seq<Chunk>, a: string)
    requires cs != [] && cs[0].Directive? && Findable(cs[0].d) && Plain(cs[0].d.args)
    requires Edits(cs[1..], Without(cs[1..], a)) && NamesOf(Without(cs[1..], a)) == Drop(NamesOf(cs[1..]), a)
    ensures Edits(cs, Without(cs, a))
    ensures NamesOf(Without(cs, a)) == Drop(NamesOf(cs), a)
  {
    var d, rest := cs[0].d, Without(cs[1..], a);
    KeptIsFindable(d, a);
    DropAppends(Split(d.args), NamesOf(cs[1..]), a);
    hide Plain, Findable, Drop, Split, Join;
    var kept := Drop(Split(d.args), a);
    if kept == [] {
      assert Removes(cs, rest);
    } else {
      var c := Directive(Found(d.indent, " " + Join(kept)));
      assert ([c] + rest)[1..] == rest;
    }
  }

  lemma {:induction false} WithoutEdits(cs: seq<Chunk>, a: string)
    requires Editable(cs)
    ensures Edits(cs, Without(cs, a))
    ensures NamesOf(Without(cs, a)) == Drop(NamesOf(cs), a)
  {
    if cs != [] {
      assert cs[0] in cs;
      var rest := Without(cs[1..], a);
      WithoutEdits(cs[1..], a);
      if cs[0].Directive? {
        WithoutDirective(cs, a);
      } else {
        assert ([cs[0]] + rest)[1..] == rest;
        assert NamesOf(cs) == NamesOf(cs[1..]) && NamesOf([cs[0]] + rest) == NamesOf(rest);
      }
    }
  }

  predicate IsAddress(a: string) {
    IsName(a) && forall c <- a :: !IsSpecial(c)
  }

  lemma PlainParts(args: string, r: string, a: string)
    requires Plain(args) && r <= args && Plain(a)
    ensures Plain(r + " " + a)
  {
    forall c <- r + " " + a ensures !IsSpecial(c) {
      if c in r {} else if c in a {} else { assert c == ' '; }
    }
  }

  lemma PlusIsFindable(d: Found, a: string)
    requires Findable(d) && Plain(d.args) && IsAddress(a)
    ensures var args := RStrip(d.args) + " " + a;
      Findable(Found(d.indent, args)) && Plain(args) && Split(args) == Split(d.args) + [a]
  {
    var r := RStrip(d.args);
    SplitAppend(d.args, a);
    PlainParts(d.args, r, a);
    hide IsSpace, Plain, RStrip;
    assert r != [] ==> (r + " " + a)[0] == d.args[0];
    assert ';' !in a;
  }

  /** One list of names is another with `a` put in somewhere. */
  ghost predicate Gains(names: seq<string>, more: seq<string>, a: string) {
    exists k: nat :: k <= |names| && more == names[..k] + [a] + names[k..]
  }

  lemma {:induction false} PlusEdits(cs: seq<Chunk>, a: string)
    requires Editable(cs) && IsAddress(a) && NamesOf(cs) != []
    ensures Edits(cs, Plus(cs, a)) && Editable(Plus(cs, a))
    ensures Gains(NamesOf(cs), NamesOf(Plus(cs, a)), a)
  {
    assert cs[0] in cs;
    if cs[0].Other? {
      PlusEdits(cs[1..], a);
      var rest := Plus(cs[1..], a);
      assert ([cs[0]] + rest)[1..] == rest;
      assert NamesOf(cs) == NamesOf(cs[1..]);
      assert NamesOf([cs[0]] + rest) == NamesOf(rest);
    } else {
      var d := cs[0].d;
      PlusIsFindable(d, a);
      EditSame(cs[1..]);
      var c := Directive(Found(d.indent, RStrip(d.args) + " " + a));
      var ds := [c] + cs[1..];
      assert ds[1..] == cs[1..];
      var k := |Split(d.args)|;
      assert NamesOf(cs)[..k] == Split(d.args) && NamesOf(cs)[k..] == NamesOf(cs[1..]);
      assert NamesOf(ds) == NamesOf(cs)[..k] + [a] + NamesOf(cs)[k..];
    }
  }

  lemma {:induction false} DropInserted(names: seq<string>, k: nat, a: string)
    requires k <= |names| && a !in names
    ensures Drop(names[..k] + [a] + names[k..], a) == names
  {
    DropAppends(names[..k] + [a], names[k..], a);
    DropAppends(names[..k], [a], a);
    assert names == names[..k] + names[k..];
  }

  lemma GainsIsUndone(names: seq<string>, more: seq<string>, a: string)
    requires a !in names && Gains(names, more, a)
    ensures a in more && Drop(more, a) == names && forall w <- names :: w in more
  {
    var k: nat :| k <= |names| && more == names[..k] + [a] + names[k..];
    DropInserted(names, k, a);
    assert more[k] == a;
    forall w <- names ensures w in more {
      var j :| 0 <= j < |names| && names[j] == w;
      assert w == if j < k then more[j] else more[j + 1];
    }
  }

  /** The characters of a block outside its directives. */
  function Others(cs: seq<Chunk>): string {
    if cs == [] then [] else (if cs[0].Other? then [cs[0].c] else []) + Others(cs[1..])
  }

  lemma {:induction false} WithoutOthers(cs: seq<Chunk>, a: string)
    ensures Others(Without(cs, a)) == Others(cs)
  {
    hide Drop, Split, Join;
    if cs != [] {
      WithoutOthers(cs[1..], a);
      var rest, ds := Without(cs[1..], a), Without(cs, a);
      assert ds == rest || ds[1..] == rest;
    }
  }

  lemma {:induction false} PlusOthers(cs: seq<Chunk>, a: string)
    ensures Others(Plus(cs, a)) == Others(cs)
  {
    if cs != [] {
      PlusOthers(cs[1..], a);
      assert Plus(cs, a)[1..] == if cs[0].Other? then Plus(cs[1..], a) else cs[1..];
    }
  }

  ghost predicate TidyBlock(block: string) {
    OwnLines(Chunks(block, true)) && PlainDirectives(Chunks(block, true))
  }

  function ReleasedBlock(block: string, a: string): Option<string> {
    var names := Names(block);
    if a !in names then Some(block)
    else if forall w <- names :: w == a then None
    else Some(Text(Without(Chunks(block, true), a)))
  }

  function AnsweredBlock(block: string, n: string, a: string): string {
    if n !in Names(block) || a in Names(block) then block else Text(Plus(Chunks(block, true), a))
  }

  /** A block that answers other names too is still a block and answers exactly the others. */
  lemma ReleasedBlockNames(block: string, a: string)
    requires BlockOk(block) && ReleasedBlock(block, a).Some?
    requires a in Names(block) ==> TidyBlock(block)
    ensures var b := ReleasedBlock(block, a).value;
      BlockOk(b) && Names(b) == Drop(Names(block), a) && Others(Chunks(b, true)) == Others(Chunks(block, true))
  {
    hide BlockOk;
    var cs := Chunks(block, true);
    if a in Names(block) {
      ChunksAreFindable(block, true);
      WithoutEdits(cs, a);
      WithoutOthers(cs, a);
      EditReadsBack(block, true, Without(cs, a));
      EditedBlock(block, Without(cs, a));
    }
  }

  lemma AnsweredBlockNames(block: string, n: string, a: string)
    requires BlockOk(block) && IsAddress(a)
    requires n in Names(block) ==> TidyBlock(block)
    ensures var b := AnsweredBlock(block, n, a);
      && BlockOk(b) && (n in Names(block) ==> TidyBlock(b)) && Others(Chunks(b, true)) == Others(Chunks(block, true))
      && (if n in Names(block) && a !in Names(block) then Gains(Names(block), Names(b), a)
          else b == block)
  {
    hide BlockOk;
    var cs := Chunks(block, true);
    if n in Names(block) && a !in Names(block) {
      ChunksAreFindable(block, true);
      PlusEdits(cs, a);
      PlusOthers(cs, a);
      EditReadsBack(block, true, Plus(cs, a));
      EditKeepsOwnLines(block, true, Plus(cs, a));
      EditedBlock(block, Plus(cs, a));
    }
  }
}

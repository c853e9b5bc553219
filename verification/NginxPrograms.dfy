/** The two programs' loops over the blocks of a site file. */
module NginxPrograms {
  import opened Optional
  import opened NginxScan
  import opened NginxNames
  import opened NginxFile
  import opened NginxEdit
  import opened NginxTools
  import opened NginxSites

  /** What is left to print at `at` once everything before it is dealt with. */
  function Left(text: string, at: nat, a: string, drop: bool): string
    requires at <= |text|
  {
    Rest(text[at..], a, drop)
  }

  ghost predicate Ahead(text: string, at: nat, blocks: seq<(nat, nat)>)
    requires at <= |text|
  {
    blocks == Shift(Blocks(text[at..]), at)
  }

  lemma AllAhead(text: string)
    ensures Ahead(text, 0, Blocks(text)) && text[0..] == text
  {
    assert text[0..] == text;
    assert Shift(Blocks(text), 0) == Blocks(text);
  }

  /** The next block starts no earlier than here and ends further on. */
  lemma NextBlock(text: string, at: nat, blocks: seq<(nat, nat)>)
    requires at <= |text| && Ahead(text, at, blocks) && blocks != []
    ensures at <= blocks[0].0 < blocks[0].1 <= |text| && text[blocks[0].0] != '\n'
    ensures Blocks(text[at..]) != []
    ensures Blocks(text[at..])[0] == (blocks[0].0 - at, blocks[0].1 - at)
    ensures Ahead(text, blocks[0].1, blocks[1..])
  {
    hide Blocks;
    var t := text[at..];
    var (start, end) := Blocks(t)[0];
    assert |Blocks(t)| == |blocks|;
    RestBlocks(t);
    assert t[start] != '\n' by { BlockReads(t[start..end]); }
    assert t[end..] == text[at + end..];
    var more := Blocks(t[end..]);
    assert Blocks(t)[1..] == Shift(more, end);
    forall k | 0 <= k < |more| ensures blocks[1..][k] == Shift(more, at + end)[k] {
      assert Blocks(t)[1..][k] == (more[k].0 + end, more[k].1 + end);
      assert blocks[k + 1] == (Blocks(t)[k + 1].0 + at, Blocks(t)[k + 1].1 + at);
    }
    assert blocks[1..] == Shift(more, at + end);
  }

  lemma LeftStep(text: string, at: nat, blocks: seq<(nat, nat)>, a: string, drop: bool)
    requires at <= |text| && Ahead(text, at, blocks) && blocks != []
    ensures var (start, end) := blocks[0];
      && at <= start < end <= |text| && text[start] != '\n' && Ahead(text, end, blocks[1..])
      && Left(text, at, a, drop) == Skip(text[at..start], drop) +
        match ReleasedBlock(text[start..end], a)
        case None => Left(text, end, a, true)
        case Some(b) => b + Left(text, end, a, false)
  {
    hide Blocks, Ahead, ReleasedBlock, Skip;
    NextBlock(text, at, blocks);
    var (start, end) := blocks[0];
    var t := text[at..];
    ReleaseStep(t, a, drop);
    SlicesFrom(text, at, start, end);
  }

  lemma LeftEnd(text: string, at: nat, a: string, drop: bool)
    requires at <= |text| && Ahead(text, at, [])
    ensures Left(text, at, a, drop) == Skip(text[at..], drop)
    ensures drop ==> Skip(text[at..], drop) == text[AfterDrop(text, at)..]
  {
    assert |Blocks(text[at..])| == 0;
    assert "" + Skip(text[at..], drop) == Skip(text[at..], drop);
  }

  /** Where the text not yet printed starts after a block that goes. */
  function AfterDrop(text: string, end: nat): (last: nat)
    requires end <= |text|
    ensures last <= |text|
  {
    if end < |text| && text[end] == '\n' then end + 1 else end
  }

  /** Text before `at` that is not yet printed starts at `last`. */
  ghost predicate Holding(text: string, last: nat, at: nat, drop: bool)
    requires at <= |text|
  {
    if drop then last == AfterDrop(text, at) else last <= at
  }

  function Held(text: string, last: nat, at: nat, drop: bool): string
    requires at <= |text| && Holding(text, last, at, drop)
  {
    if drop then "" else text[last..at]
  }

  /** What is held back together with what comes next is one piece of the text. */
  lemma HeldBack(text: string, last: nat, at: nat, start: nat, drop: bool)
    requires at <= start < |text| && text[start] != '\n' && Holding(text, last, at, drop)
    ensures last <= start && Held(text, last, at, drop) + Skip(text[at..start], drop) == text[last..start]
  {
  }

  lemma HeldAtEnd(text: string, last: nat, at: nat, a: string, drop: bool)
    requires at <= |text| && Ahead(text, at, []) && Holding(text, last, at, drop)
    ensures last <= |text| && Held(text, last, at, drop) + Left(text, at, a, drop) == text[last..]
  {
    LeftEnd(text, at, a, drop);
  }

  /** One turn of the loop: the text before the block is printed or held back with it. */
  lemma Turn(text: string, last: nat, at: nat, blocks: seq<(nat, nat)>, a: string, drop: bool)
    requires at <= |text| && Holding(text, last, at, drop) && Ahead(text, at, blocks) && blocks != []
    ensures var (start, end) := blocks[0];
      && last <= start < end <= |text| && Ahead(text, end, blocks[1..])
      && Held(text, last, at, drop) + Left(text, at, a, drop) == (
        match ReleasedBlock(text[start..end], a)
        case None => text[last..start] + Left(text, end, a, true)
        case Some(b) => text[last..start] + b + Left(text, end, a, false))
      && (ReleasedBlock(text[start..end], a) == Some(text[start..end]) ==>
            Held(text, last, at, drop) + Left(text, at, a, drop) == text[last..end] + Left(text, end, a, false))
  {
    hide Ahead, Left, ReleasedBlock, Skip, AfterDrop;
    LeftStep(text, at, blocks, a, drop);
    var (start, end) := blocks[0];
    HeldBack(text, last, at, start, drop);
    assert text[last..end] == text[last..start] + text[start..end];
  }

  /** Between two turns: what is printed, what is held back and what is left make up the result. */
  ghost predicate Printing(text: string, a: string, out: string, last: nat, at: nat, drop: bool,
                           blocks: seq<(nat, nat)>) {
    && at <= |text| && Holding(text, last, at, drop) && Ahead(text, at, blocks)
    && Release(text, a) == out + (Held(text, last, at, drop) + Left(text, at, a, drop))
  }

  lemma KeepsBlock(text: string, a: string, out: string, last: nat, at: nat, drop: bool, blocks: seq<(nat, nat)>)
    requires Printing(text, a, out, last, at, drop, blocks) && blocks != []
    ensures var (start, end) := blocks[0];
      && last <= start < end <= |text|
      && (a !in Names(text[start..end]) ==> Printing(text, a, out, last, end, false, blocks[1..]))
  {
    hide Release, Left, Ahead, AfterDrop;
    Turn(text, last, at, blocks, a, drop);
  }

  lemma DropsBlock(text: string, a: string, out: string, last: nat, at: nat, drop: bool, blocks: seq<(nat, nat)>)
    requires Printing(text, a, out, last, at, drop, blocks) && blocks != []
    requires var (start, end) := blocks[0]; last <= start < end <= |text|
    requires var (start, end) := blocks[0]; ReleasedBlock(text[start..end], a) == None
    ensures var (start, end) := blocks[0];
      Printing(text, a, out + text[last..start], AfterDrop(text, end), end, true, blocks[1..])
  {
    hide Release, Left, Ahead, ReleasedBlock;
    Turn(text, last, at, blocks, a, drop);
  }

  lemma EditsBlock(text: string, a: string, out: string, last: nat, at: nat, drop: bool, blocks: seq<(nat, nat)>)
    requires Printing(text, a, out, last, at, drop, blocks) && blocks != []
    requires var (start, end) := blocks[0]; last <= start < end <= |text|
    requires var (start, end) := blocks[0]; ReleasedBlock(text[start..end], a).Some?
    ensures var (start, end) := blocks[0];
      Printing(text, a, out + text[last..start] + ReleasedBlock(text[start..end], a).value, end, end, false,
               blocks[1..])
  {
    hide Release, Left, Ahead, ReleasedBlock, AfterDrop;
    Turn(text, last, at, blocks, a, drop);
  }

  lemma Finished(text: string, a: string, out: string, last: nat, at: nat, drop: bool)
    requires Printing(text, a, out, last, at, drop, [])
    ensures last <= |text| && Release(text, a) == out + text[last..]
  {
    hide Release, Left, Ahead, AfterDrop;
    HeldAtEnd(text, last, at, a, drop);
  }

  lemma Started(text: string, a: string)
    ensures Printing(text, a, "", 0, 0, false, Blocks(text))
  {
    hide Release, Left, Ahead, AfterDrop, Blocks;
    AllAhead(text);
    LeftAtStart(text, a);
    assert Held(text, 0, 0, false) == "";
  }

  /** The release program. */
  method ReleaseText(text: string, a: string) returns (out: string)
    ensures out == Release(text, a)
  {
    hide Printing, Names, Without, Chunks, Text, Blocks, Release;
    var blocks := TopLevelBlocks(text);
    out := "";
    var last: nat := 0;
    ghost var at: nat, drop := 0, false;
    Started(text, a);
    for k := 0 to |blocks|
      invariant Printing(text, a, out, last, at, drop, blocks[k..])
    {
      var (start, end) := blocks[k];
      assert blocks[k..][1..] == blocks[k + 1..];
      KeepsBlock(text, a, out, last, at, drop, blocks[k..]);
      var block := text[start..end];
      if a !in Names(block) {
        at, drop := end, false;
        continue;
      }
      if forall name <- Names(block) :: name == a {
        DropsBlock(text, a, out, last, at, drop, blocks[k..]);
        out := out + text[last..start];
        last := if end < |text| && text[end] == '\n' then end + 1 else end;
        at, drop := end, true;
        continue;
      }
      EditsBlock(text, a, out, last, at, drop, blocks[k..]);
      out := out + text[last..start];
      out := out + Text(Without(Chunks(block, true), a));
      last := end;
      at, drop := end, false;
    }
    Finished(text, a, out, last, at, drop);
    out := out + text[last..];
  }

  lemma LeftAtStart(text: string, a: string)
    ensures Left(text, 0, a, false) == Release(text, a)
  {
    assert text[0..] == text;
  }

  // ---- answering ----

  function ToAnswer(text: string, at: nat, n: string, a: string): string
    requires at <= |text|
  {
    Answer(text[at..], n, a)
  }

  lemma AnswerTurn(text: string, last: nat, at: nat, blocks: seq<(nat, nat)>, n: string, a: string)
    requires last <= at <= |text| && Ahead(text, at, blocks) && blocks != []
    ensures var (start, end) := blocks[0];
      && last <= start < end <= |text| && Ahead(text, end, blocks[1..])
      && text[last..at] + ToAnswer(text, at, n, a)
         == text[last..start] + AnsweredBlock(text[start..end], n, a) + ToAnswer(text, end, n, a)
      && text[last..start] + text[start..end] == text[last..end]
  {
    hide Blocks, AnsweredBlock, Ahead, Answer, Cut;
    NextBlock(text, at, blocks);
    var (start, end) := blocks[0];
    SlicesFrom(text, at, start, end);
    AnswerStep(text[at..], n, a);
    SliceJoins(text, last, at, start);
    SliceJoins(text, last, start, end);
  }

  lemma SlicesFrom(text: string, at: nat, start: nat, end: nat)
    requires at <= start <= end <= |text|
    ensures var t := text[at..];
      t[..start - at] == text[at..start] && t[start - at..end - at] == text[start..end] && t[end - at..] == text[end..]
  {
  }

  lemma SliceJoins(text: string, i: nat, j: nat, k: nat)
    requires i <= j <= k <= |text|
    ensures text[i..j] + text[j..k] == text[i..k]
  {
  }

  lemma AnswerStep(t: string, n: string, a: string)
    requires Blocks(t) != []
    ensures var (start, end) := Blocks(t)[0];
      start < end <= |t| && Answer(t, n, a) == t[..start] + AnsweredBlock(t[start..end], n, a) + Answer(t[end..], n, a)
  {
    hide Blocks, AnsweredBlock;
    RestBlocks(t);
    var f := Cut(t);
    AnsweredParts(f, n, a);
    assert f.(parts := f.parts[1..]) == Cut(t[Blocks(t)[0].1..]);
  }

  lemma AnswerEnd(text: string, last: nat, at: nat, n: string, a: string)
    requires last <= at <= |text| && Ahead(text, at, [])
    ensures text[last..at] + ToAnswer(text, at, n, a) == text[last..]
  {
    assert |Blocks(text[at..])| == 0;
  }

  /** The answer program. */
  method AnswerText(text: string, n: string, a: string) returns (out: string)
    ensures out == Answer(text, n, a)
  {
    hide Answer, Names, Plus, Ahead, Chunks, Text;
    var blocks := TopLevelBlocks(text);
    out := "";
    var last: nat := 0;
    ghost var at: nat := 0;
    AllAhead(text);
    for k := 0 to |blocks|
      invariant last <= at <= |text| && Ahead(text, at, blocks[k..])
      invariant Answer(text, n, a) == out + (text[last..at] + ToAnswer(text, at, n, a))
    {
      var (start, end) := blocks[k];
      assert blocks[k..][1..] == blocks[k + 1..];
      AnswerTurn(text, last, at, blocks[k..], n, a);
      at := end;
      var block := text[start..end];
      if n !in Names(block) || a in Names(block) {
        continue;
      }
      out := out + text[last..start];
      out := out + Text(Plus(Chunks(block, true), a));
      last := end;
    }
    AnswerEnd(text, last, at, n, a);
    out := out + text[last..];
  }
}

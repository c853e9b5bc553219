/** A site file as gaps and server blocks, and when reading its text gives them back. */
module NginxFile {
  import opened Optional
  import opened NginxScan

  const TOP: Place := Place(Normal, 0)
  const OPENED: Place := Place(Normal, 1)

  /** Every prefix of what is read is inside the braces opened before. */
  ghost predicate InsideFrom(p: Place, s: string) {
    forall m | 0 <= m <= |s| :: Through(p, s[..m]).depth >= 1
  }

  /** What follows the opening brace: inside until its last character, which closes the block. */
  ghost predicate BodyOk(body: string) {
    && body != [] && body[|body| - 1] == '}'
    && InsideFrom(OPENED, body[..|body| - 1])
    && Through(OPENED, body) == TOP
  }

  ghost predicate BlockSplits(block: string, q: nat) {
    && |SERVER| <= q < |block|
    && block[..|SERVER|] == SERVER
    && (forall i | |SERVER| <= i < q :: IsSpace(block[i]))
    && block[q] == '{'
    && BodyOk(block[q + 1..])
  }

  /** `server`, space, and a body in braces. */
  ghost predicate BlockOk(block: string) {
    exists q: nat :: BlockSplits(block, q)
  }

  lemma {:induction false} ThroughJoins(p: Place, a: string, b: string)
    ensures Through(p, a + b) == Through(Through(p, a), b)
    decreases |b|
  {
    if b == [] { assert a + b == a; }
    else {
      assert (a + b)[..|a + b| - 1] == a + b[..|b| - 1];
      ThroughJoins(p, a, b[..|b| - 1]);
    }
  }

  // ---- every text ----

  lemma InsideGrows(s: string, c: char)
    requires InsideFrom(OPENED, s)
    ensures Through(OPENED, s + [c]) == Next(Through(OPENED, s), c)
    ensures Next(Through(OPENED, s), c).depth >= 1 ==> InsideFrom(OPENED, s + [c])
    ensures Next(Through(OPENED, s), c).depth < 1 ==> c == '}' && BodyOk(s + [c])
  {
    var t := s + [c];
    assert t[..|s|] == s;
    assert s[..|s|] == s;
    if Next(Through(OPENED, s), c).depth >= 1 {
      forall m | 0 <= m <= |t| ensures Through(OPENED, t[..m]).depth >= 1 {
        if m <= |s| { assert t[..m] == s[..m]; } else { assert t[..m] == t; }
      }
    }
  }

  /** A word may start at `a`. */
  predicate AtWord(text: string, a: nat)
    requires a <= |text|
  {
    a == 0 || IsDelimiter(text[a - 1])
  }

  /** A server block has been entered at `a` and its brace was at `q`. */
  ghost predicate Entered(text: string, a: nat, q: nat, i: nat, place: Place)
    requires i <= |text|
  {
    && a + |SERVER| <= q < i && AtWord(text, a)
    && text[a..a + |SERVER|] == SERVER
    && (forall j | a + |SERVER| <= j < q :: IsSpace(text[j]))
    && text[q] == '{'
    && place == Through(OPENED, text[q + 1..i])
    && InsideFrom(OPENED, text[q + 1..i])
  }

  ghost predicate RangesOk(text: string, found: seq<(nat, nat)>, i: nat)
    requires i <= |text|
  {
    && (forall k | 0 <= k < |found| ::
          && found[k].0 < found[k].1 <= i && AtWord(text, found[k].0)
          && BlockOk(text[found[k].0..found[k].1]))
    && (forall k, l | 0 <= k < l < |found| :: found[k].1 <= found[l].0)
  }

  ghost predicate StartOk(text: string, i: nat, s: Scan)
    requires i <= |text|
  {
    s.start.Some? ==>
      && (exists q :: Entered(text, s.start.value, q, i, s.place))
      && (forall k | 0 <= k < |s.found| :: s.found[k].1 <= s.start.value)
  }

  ghost predicate ScanOk(text: string, i: nat, s: Scan)
    requires i <= |text|
  {
    RangesOk(text, s.found, i) && StartOk(text, i, s)
  }

  lemma BlockEndsWithBrace(block: string)
    requires BlockOk(block)
    ensures block != [] && block[|block| - 1] == '}'
  {
    var q :| BlockSplits(block, q);
    assert block[q + 1..][|block[q + 1..]| - 1] == block[|block| - 1];
  }

  /** The word `server` before a brace starts after every block found so far: a block ends in a
      brace, and there is none in the word or in the space after it. */
  lemma HeadIsAfterBlocks(text: string, i: nat, found: seq<(nat, nat)>, a: nat)
    requires i < |text| && RangesOk(text, found, i) && HeadStart(text[..i]) == Some(a)
    ensures a + |SERVER| <= i && text[a..a + |SERVER|] == SERVER && AtWord(text, a)
    ensures forall j | a + |SERVER| <= j < i :: IsSpace(text[j])
    ensures forall k | 0 <= k < |found| :: found[k].1 <= a
  {
    HeadHasNoBrace(text, i, a);
    hide HeadStart, IsSpace, AtWord, BlockOk;
    forall k | 0 <= k < |found| ensures found[k].1 <= a {
      BlockEndsWithBrace(text[found[k].0..found[k].1]);
    }
  }

  lemma HeadHasNoBrace(text: string, i: nat, a: nat)
    requires i <= |text| && HeadStart(text[..i]) == Some(a)
    ensures a + |SERVER| <= i && text[a..a + |SERVER|] == SERVER && AtWord(text, a)
    ensures forall j | a + |SERVER| <= j < i :: IsSpace(text[j])
    ensures forall j | a <= j < i :: text[j] != '}'
  {
    var head := RStrip(text[..i]);
    assert head == text[..|head|] && head[|head| - |SERVER|..] == text[a..a + |SERVER|];
    forall j | a <= j < i ensures text[j] != '}' {
      if j < a + |SERVER| { assert text[j] == text[a..a + |SERVER|][j - a]; }
      else { assert text[j] == text[..i][j]; }
    }
  }

  lemma {:induction false} ScanIsOk(text: string, i: nat)
    requires i <= |text|
    ensures ScanOk(text, i, Feed(text, i))
  {
    hide ScanOk, FeedChar;
    if i == 0 {
      NothingIsOk(text);
    } else {
      ScanIsOk(text, i - 1);
      StepIsOk(text, i - 1, Feed(text, i - 1));
    }
  }

  lemma NothingIsOk(text: string)
    ensures ScanOk(text, 0, Scan(TOP, None, []))
  {
  }

  lemma StepIsOk(text: string, i: nat, s: Scan)
    requires i < |text| && ScanOk(text, i, s)
    ensures ScanOk(text, i + 1, FeedChar(text, i, s))
  {
    hide HeadStart, BlockOk, Entered;
    if s.start.Some? {
      Continues(text, i, s);
    } else if s.place == TOP && text[i] == '{' && HeadStart(text[..i]).Some? {
      var a := HeadStart(text[..i]).value;
      HeadIsAfterBlocks(text, i, s.found, a);
      Opens(text, a, i);
    }
  }

  lemma Opens(text: string, a: nat, i: nat)
    requires i < |text| && text[i] == '{' && a + |SERVER| <= i && text[a..a + |SERVER|] == SERVER && AtWord(text, a)
    requires forall j | a + |SERVER| <= j < i :: IsSpace(text[j])
    ensures Entered(text, a, i, i + 1, OPENED)
  {
    assert text[i + 1..i + 1] == [];
  }

  lemma Continues(text: string, i: nat, s: Scan)
    requires i < |text| && s.start.Some? && StartOk(text, i, s)
    ensures s.place.depth >= 1 && s.start.value < i && AtWord(text, s.start.value)
    ensures var place, next := Next(s.place, text[i]), i + 1;
      if place.depth >= 1 then exists q :: Entered(text, s.start.value, q, next, place)
      else place == TOP && text[i] == '}' && BlockOk(text[s.start.value..i + 1])
  {
    var a := s.start.value;
    var q :| Entered(text, a, q, i, s.place);
    var before := text[q + 1..i];
    assert before[..|before|] == before;
    assert text[q + 1..i + 1] == before + [text[i]];
    InsideGrows(before, text[i]);
    if Next(s.place, text[i]).depth >= 1 {
      assert Entered(text, a, q, i + 1, Next(s.place, text[i]));
    } else {
      ClosedBlockIsOk(text, a, q, i);
    }
  }

  lemma ClosedBlockIsOk(text: string, a: nat, q: nat, i: nat)
    requires a + |SERVER| <= q < i < |text| && text[a..a + |SERVER|] == SERVER && text[q] == '{'
    requires forall j | a + |SERVER| <= j < q :: IsSpace(text[j])
    requires BodyOk(text[q + 1..i + 1])
    ensures BlockOk(text[a..i + 1])
  {
    var block := text[a..i + 1];
    assert block[q + 1 - a..] == text[q + 1..i + 1];
    assert block[..|SERVER|] == text[a..a + |SERVER|];
    assert BlockSplits(block, q - a);
  }

  /** For every text, even an unbalanced one: the ranges lie inside it, follow each other without
      overlap, and each is the word `server`, alone or after a delimiter, space, and a body in braces
      that closes exactly at its end. */
  lemma BlocksAreBlocks(text: string)
    ensures RangesOk(text, Blocks(text), |text|)
  {
    ScanIsOk(text, |text|);
  }

  // ---- reading starts again after a block ----

  lemma {:induction false} FeedPrefix(p: string, s: string, i: nat)
    requires i <= |p|
    ensures Feed(p + s, i) == Feed(p, i)
  {
    if i > 0 {
      FeedPrefix(p, s, i - 1);
      assert (p + s)[..i - 1] == p[..i - 1];
    }
  }

  lemma {:induction false} FeedPlace(text: string, i: nat)
    requires i <= |text|
    ensures Feed(text, i).place == Through(TOP, text[..i])
  {
    if i > 0 {
      FeedPlace(text, i - 1);
      assert text[..i][..i - 1] == text[..i - 1];
    }
  }

  /** No top-level brace that only space comes before. */
  ghost predicate NoBareBrace(s: string) {
    forall i | 0 <= i < |s| && s[i] == '{' && Feed(s, i).place == TOP :: !AllSpace(s[..i])
  }

  /** What is read after `p` is read as if it stood alone. */
  ghost predicate Joins(p: string, s: string) {
    p == [] || p[|p| - 1] == '}' || (IsDelimiter(p[|p| - 1]) && NoBareBrace(s))
  }

  function ShiftStart(start: Option<nat>, n: nat): Option<nat> {
    match start case None => None case Some(a) => Some(a + n)
  }

  function Shift(ranges: seq<(nat, nat)>, n: nat): (r: seq<(nat, nat)>)
    ensures |r| == |ranges|
  {
    seq(|ranges|, k requires 0 <= k < |ranges| => (ranges[k].0 + n, ranges[k].1 + n))
  }

  lemma ServerHasNoDelimiter(t: string)
    requires EndsWithServer(t)
    ensures forall j | |t| - |SERVER| <= j < |t| :: !IsDelimiter(t[j])
  {
    forall j | |t| - |SERVER| <= j < |t| ensures !IsDelimiter(t[j]) {
      assert t[j] == t[|t| - |SERVER|..][j - (|t| - |SERVER|)];
    }
  }

  lemma StripAfter(p: string, h: string)
    requires RStrip(h) != [] || p == [] || !IsSpace(p[|p| - 1])
    ensures RStrip(p + h) == p + RStrip(h)
  {
    var r := RStrip(h);
    RStripIs(p + h, |p| + |r|);
    assert (p + h)[..|p| + |r|] == p + r;
  }

  lemma HeadAlone(p: string, h: string)
    requires p == [] || p[|p| - 1] == '}' || (IsDelimiter(p[|p| - 1]) && !AllSpace(h))
    ensures HeadStart(p + h) == ShiftStart(HeadStart(h), |p|)
  {
    var r := RStrip(h);
    StripAfter(p, h);
    hide RStrip, EndsWithServer;
    if p == [] {
      assert p + r == r;
    } else if r == [] {
      assert p + r == p;
      ServerIsNotEmpty(p);
    } else {
      EndsAlone(p, r);
    }
  }

  lemma ServerIsNotEmpty(p: string)
    requires p != [] && IsDelimiter(p[|p| - 1])
    ensures !EndsWithServer([]) && !EndsWithServer(p)
  {
    if EndsWithServer(p) { ServerHasNoDelimiter(p); }
  }

  lemma EndsAlone(p: string, r: string)
    requires p != [] && IsDelimiter(p[|p| - 1]) && r != []
    ensures EndsWithServer(p + r) <==> EndsWithServer(r)
  {
    var t := p + r;
    if |r| >= |SERVER| {
      assert t[|t| - |SERVER|..] == r[|r| - |SERVER|..];
    } else {
      assert t[|p| - 1] == p[|p| - 1];
      if EndsWithServer(t) { ServerHasNoDelimiter(t); }
    }
  }

  ghost predicate AtTop(p: string, found: seq<(nat, nat)>) {
    Feed(p, |p|) == Scan(TOP, None, found)
  }

  /** A scan of what comes after `n` characters in which `found` was found. */
  function Later(f: Scan, n: nat, found: seq<(nat, nat)>): Scan {
    Scan(f.place, ShiftStart(f.start, n), found + Shift(f.found, n))
  }

  lemma ReadsLater(text: string, s: string, i: nat, f: Scan, n: nat, found: seq<(nat, nat)>)
    requires i < |s| && n + i < |text| && text[n + i] == s[i]
    requires s[i] == '{' && f.place == TOP ==> HeadStart(text[..n + i]) == ShiftStart(HeadStart(s[..i]), n)
    ensures FeedChar(text, n + i, Later(f, n, found)) == Later(FeedChar(s, i, f), n, found)
  {
    hide HeadStart;
    var next := FeedChar(s, i, f);
    if f.place.mode == Normal && s[i] == '}' && f.place.depth == 1 && f.start.Some? {
      assert Shift(next.found, n) == Shift(f.found, n) + [(f.start.value + n, i + 1 + n)];
    }
  }

  lemma {:induction false} Restart(p: string, s: string, found: seq<(nat, nat)>, i: nat)
    requires AtTop(p, found) && Joins(p, s) && i <= |s|
    ensures Feed(p + s, |p| + i) == Later(Feed(s, i), |p|, found)
  {
    hide HeadStart, FeedChar, Joins, Later;
    if i == 0 {
      RestartsAt(p, s, found);
    } else {
      Restart(p, s, found, i - 1);
      if s[i - 1] == '{' && Feed(s, i - 1).place == TOP { HeadStays(p, s, i - 1); }
      ReadsLater(p + s, s, i - 1, Feed(s, i - 1), |p|, found);
    }
  }

  lemma RestartsAt(p: string, s: string, found: seq<(nat, nat)>)
    requires AtTop(p, found)
    ensures Feed(p + s, |p|) == Later(Feed(s, 0), |p|, found)
  {
    hide FeedChar;
    FeedPrefix(p, s, |p|);
    assert Shift([], |p|) == [];
  }

  lemma HeadStays(p: string, s: string, i: nat)
    requires Joins(p, s) && i < |s| && s[i] == '{' && Feed(s, i).place == TOP
    ensures HeadStart((p + s)[..|p| + i]) == ShiftStart(HeadStart(s[..i]), |p|)
  {
    hide HeadStart, FeedChar;
    HeadAlone(p, s[..i]);
    assert (p + s)[..|p| + i] == p + s[..i];
  }

  // ---- a file as gaps and blocks ----

  /** A gap and the server block after it. */
  datatype Part = Part(gap: string, block: string)

  datatype File = File(parts: seq<Part>, tail: string)

  function FileText(f: File): string
    decreases |f.parts|
  {
    if f.parts == [] then f.tail
    else f.parts[0].gap + f.parts[0].block + FileText(f.(parts := f.parts[1..]))
  }

  function Cut(text: string): File
    decreases |text|
  {
    BlocksAreBlocks(text);
    if Blocks(text) == [] then File([], text)
    else
      var (start, end) := Blocks(text)[0];
      var rest := Cut(text[end..]);
      rest.(parts := [Part(text[..start], text[start..end])] + rest.parts)
  }

  /** Nothing is lost by cutting. */
  lemma {:induction false} CutKeepsText(text: string)
    ensures FileText(Cut(text)) == text
    decreases |text|
  {
    BlocksAreBlocks(text);
    if Blocks(text) != [] {
      var (start, end) := Blocks(text)[0];
      CutKeepsText(text[end..]);
      var f := Cut(text);
      assert f.(parts := f.parts[1..]) == Cut(text[end..]);
      assert text == text[..start] + text[start..end] + text[end..];
    }
  }

  ghost predicate GapOk(gap: string) {
    AtTop(gap, []) && AtWord(gap, |gap|)
  }

  lemma {:induction false} NeutralChars(gap: string, block: string, q: nat, i: nat)
    requires GapOk(gap) && BlockSplits(block, q) && i <= q
    ensures Feed(gap + block, |gap| + i) == Scan(TOP, None, [])
  {
    if i == 0 { FeedPrefix(gap, block, |gap|); }
    else {
      NeutralChars(gap, block, q, i - 1);
      if i <= |SERVER| { assert block[i - 1] == block[..|SERVER|][i - 1]; }
    }
  }

  lemma HeadOfBlock(gap: string, block: string, q: nat)
    requires AtWord(gap, |gap|) && BlockSplits(block, q)
    ensures HeadStart((gap + block)[..|gap| + q]) == Some(|gap|)
  {
    hide IsSpace, BodyOk;
    var before := (gap + block)[..|gap| + q];
    forall i | |gap| + |SERVER| <= i < |before| ensures IsSpace(before[i]) {
      assert before[i] == block[i - |gap|];
    }
    assert before[..|gap| + |SERVER|] == gap + SERVER;
    NoSpaceInServer();
    assert before[|gap| + |SERVER| - 1] == SERVER[|SERVER| - 1];
    RStripIs(before, |gap| + |SERVER|);
    assert (gap + SERVER)[|gap|..] == SERVER;
  }

  lemma NoSpaceInServer()
    ensures !IsSpace(SERVER[|SERVER| - 1])
  {
  }

  lemma Opening(gap: string, block: string, q: nat)
    requires GapOk(gap) && BlockSplits(block, q)
    ensures Feed(gap + block, |gap| + q + 1) == Scan(OPENED, Some(|gap|), [])
  {
    NeutralChars(gap, block, q, q);
    HeadOfBlock(gap, block, q);
    hide HeadStart, BodyOk, IsSpace;
  }

  lemma {:induction false} InBody(gap: string, block: string, q: nat, m: nat)
    requires GapOk(gap) && BlockSplits(block, q) && m < |block| - q - 1
    ensures Feed(gap + block, |gap| + q + 1 + m) == Scan(Through(OPENED, block[q + 1..][..m]), Some(|gap|), [])
  {
    hide HeadStart, GapOk;
    var body := block[q + 1..];
    if m == 0 { Opening(gap, block, q); }
    else {
      InBody(gap, block, q, m - 1);
      assert (gap + block)[|gap| + q + m] == body[m - 1];
      assert body[..m][..m - 1] == body[..m - 1];
      assert body[..|body| - 1][..m] == body[..m];
      assert body[..|body| - 1][..m - 1] == body[..m - 1];
    }
  }

  /** A gap and a block are read as one block. */
  lemma OneBlock(gap: string, block: string)
    requires GapOk(gap) && BlockOk(block)
    ensures AtTop(gap + block, [(|gap|, |gap + block|)])
    ensures block != [] && block[|block| - 1] == '}'
  {
    hide HeadStart, GapOk;
    BlockEndsWithBrace(block);
    var q :| BlockSplits(block, q);
    var body := block[q + 1..];
    InBody(gap, block, q, |body| - 1);
    ClosingChar(body);
    hide BodyOk, Through;
    assert (gap + block)[|gap + block| - 1] == '}';
  }

  lemma ClosingChar(body: string)
    requires BodyOk(body)
    ensures var p := Through(OPENED, body[..|body| - 1]); p.depth >= 1 && Next(p, '}') == TOP
  {
    assert body[..|body| - 1][..|body| - 1] == body[..|body| - 1];
  }

  ghost predicate FileOk(f: File) {
    && (forall p <- f.parts :: GapOk(p.gap) && BlockOk(p.block))
    && Blocks(f.tail) == []
  }

  /** The blocks of a file that starts with a block. */
  lemma BlocksAfterBlock(p: Part, rest: string)
    requires GapOk(p.gap) && BlockOk(p.block)
    ensures var n := |p.gap + p.block|;
      Blocks(p.gap + p.block + rest) == [(|p.gap|, n)] + Shift(Blocks(rest), n)
  {
    hide GapOk, BlockOk;
    var first := p.gap + p.block;
    OneBlock(p.gap, p.block);
    assert first[|first| - 1] == '}';
    Restart(first, rest, [(|p.gap|, |first|)], |rest|);
  }

  /** A file made of such parts is cut into them. */
  lemma {:induction false} CutsBack(f: File)
    requires FileOk(f)
    ensures Cut(FileText(f)) == f
    decreases |f.parts|
  {
    hide GapOk, BlockOk, Blocks, Shift;
    if f.parts != [] {
      var rest := f.(parts := f.parts[1..]);
      CutsBack(rest);
      var p := f.parts[0];
      BlocksAfterBlock(p, FileText(rest));
      var text := p.gap + p.block + FileText(rest);
      var n := |p.gap + p.block|;
      assert text[..|p.gap|] == p.gap && text[|p.gap|..n] == p.block && text[n..] == FileText(rest);
    }
  }
}

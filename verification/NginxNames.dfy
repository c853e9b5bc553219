/** The `server_name` directives of a block, as the pattern that is searched for finds them. */
module NginxNames {
  import opened Optional
  import opened NginxScan

  const KEYWORD: string := "server_name"

  predicate IsBlank(c: char) {
    c == ' ' || c == '\t'
  }

  predicate IsWord(c: char) {
    'a' <= c <= 'z' || 'A' <= c <= 'Z' || '0' <= c <= '9' || c == '_'
  }

  function Blanks(t: string): (n: nat)
    ensures n <= |t| && (n < |t| ==> !IsBlank(t[n])) && forall i | 0 <= i < n :: IsBlank(t[i])
  {
    if t != [] && IsBlank(t[0]) then 1 + Blanks(t[1..]) else 0
  }

  /** The length of what comes before the first semicolon, if there is one. */
  function ToSemicolon(t: string): (n: Option<nat>)
    ensures n.Some? ==> n.value < |t| && t[n.value] == ';' && ';' !in t[..n.value]
    ensures n.None? ==> ';' !in t
  {
    if t == [] then None
    else if t[0] == ';' then Some(0)
    else
      var rest := ToSemicolon(t[1..]);
      if rest.None? then None
      else
        assert t[..rest.value + 1] == [t[0]] + t[1..][..rest.value];
        Some(rest.value + 1)
  }

  /** A directive that starts a line: its indent and what it names. */
  datatype Found = Found(indent: string, args: string)

  function DirectiveText(d: Found): string {
    d.indent + KEYWORD + d.args + ";"
  }

  /** What the pattern can find. */
  ghost predicate Findable(d: Found) {
    && (forall c <- d.indent :: IsBlank(c))
    && ';' !in d.args
    && (d.args != [] ==> !IsWord(d.args[0]))
  }

  /** The word starts the text, and ends there. */
  predicate StartsWithKeyword(t: string) {
    KEYWORD <= t && (|t| > |KEYWORD| ==> !IsWord(t[|KEYWORD|]))
  }

  function DirectiveAt(t: string): (d: Option<Found>)
    ensures d.Some? ==> DirectiveText(d.value) <= t && Findable(d.value)
  {
    var n := Blanks(t);
    if !StartsWithKeyword(t[n..]) then None
    else
      var after := t[n + |KEYWORD|..];
      match ToSemicolon(after)
      case None => None
      case Some(m) =>
        FoundInText(t, n, m);
        Some(Found(t[..n], after[..m]))
  }

  lemma FoundInText(t: string, n: nat, m: nat)
    requires n <= |t| && (forall i | 0 <= i < n :: IsBlank(t[i])) && StartsWithKeyword(t[n..])
    requires var after := t[n + |KEYWORD|..]; m < |after| && after[m] == ';' && ';' !in after[..m]
    ensures var d := Found(t[..n], t[n + |KEYWORD|..][..m]); DirectiveText(d) <= t && Findable(d)
  {
    hide IsBlank, IsWord;
    var after := t[n + |KEYWORD|..];
    assert t[n..][..|KEYWORD|] == KEYWORD;
    assert t == t[..n] + KEYWORD + after;
    assert after == after[..m] + ";" + after[m + 1..];
    assert t == DirectiveText(Found(t[..n], after[..m])) + after[m + 1..];
    assert m > 0 ==> after[..m][0] == t[n..][|KEYWORD|];
  }

  /** A text cut where the pattern matches: other characters one by one, and directives. */
  datatype Chunk = Other(c: char) | Directive(d: Found)

  function Chunks(t: string, lineStart: bool): seq<Chunk>
    decreases |t|
  {
    if t == [] then []
    else if lineStart && DirectiveAt(t).Some? then
      var d := DirectiveAt(t).value;
      [Directive(d)] + Chunks(t[|DirectiveText(d)|..], false)
    else [Other(t[0])] + Chunks(t[1..], t[0] == '\n')
  }

  function ChunkText(c: Chunk): string {
    match c
    case Other(ch) => [ch]
    case Directive(d) => DirectiveText(d)
  }

  function Text(chunks: seq<Chunk>): string {
    if chunks == [] then [] else ChunkText(chunks[0]) + Text(chunks[1..])
  }

  lemma {:induction false} ChunksText(t: string, lineStart: bool)
    ensures Text(Chunks(t, lineStart)) == t
    decreases |t|
  {
    if t != [] {
      if lineStart && DirectiveAt(t).Some? {
        var d := DirectiveAt(t).value;
        ChunksText(t[|DirectiveText(d)|..], false);
        assert t == DirectiveText(d) + t[|DirectiveText(d)|..];
      } else {
        ChunksText(t[1..], t[0] == '\n');
      }
    }
  }

  // ---- the names ----

  function WordLength(s: string): (n: nat)
    ensures n <= |s| && (n < |s| ==> IsSpace(s[n])) && forall i | 0 <= i < n :: !IsSpace(s[i])
  {
    if s != [] && !IsSpace(s[0]) then 1 + WordLength(s[1..]) else 0
  }

  /** The words of a text, as split() gives them. */
  function Split(s: string): seq<string>
    decreases |s|
  {
    if s == [] then []
    else if IsSpace(s[0]) then Split(s[1..])
    else [s[..WordLength(s)]] + Split(s[WordLength(s)..])
  }

  function NamesOf(chunks: seq<Chunk>): seq<string> {
    if chunks == [] then []
    else (if chunks[0].Directive? then Split(chunks[0].d.args) else []) + NamesOf(chunks[1..])
  }

  /** Every name a block answers. */
  function Names(block: string): seq<string> {
    NamesOf(Chunks(block, true))
  }

  predicate IsName(w: string) {
    w != [] && (forall c <- w :: !IsSpace(c)) && ';' !in w
  }

  function Join(words: seq<string>): string {
    if words == [] then [] else if |words| == 1 then words[0] else words[0] + " " + Join(words[1..])
  }

  lemma {:induction false} SplitGivesWords(s: string)
    requires ';' !in s
    ensures forall w <- Split(s) :: IsName(w)
    ensures forall w <- Split(s), c <- w :: c in s
    decreases |s|
  {
    if s != [] {
      if IsSpace(s[0]) { SplitGivesWords(s[1..]); }
      else { SplitGivesWords(s[WordLength(s)..]); }
    }
  }

  predicate NoSpace(w: string) {
    forall c <- w :: !IsSpace(c)
  }

  lemma {:induction false} WordLengthIs(t: string, n: nat)
    requires n <= |t| && NoSpace(t[..n]) && (n < |t| ==> IsSpace(t[n]))
    ensures WordLength(t) == n
  {
    if n > 0 {
      assert t[0] == t[..n][0];
      assert t[1..][..n - 1] == t[..n][1..];
      WordLengthIs(t[1..], n - 1);
    }
  }

  lemma SplitWord(w: string, rest: string)
    requires w != [] && NoSpace(w) && (rest == [] || IsSpace(rest[0]))
    ensures Split(w + rest) == [w] + Split(rest)
  {
    assert (w + rest)[..|w|] == w && (w + rest)[|w|..] == rest;
    WordLengthIs(w + rest, |w|);
    assert (w + rest)[0] == w[0];
  }

  /** Joined words split back. */
  lemma {:induction false} SplitJoin(words: seq<string>)
    requires forall w <- words :: IsName(w)
    ensures Split(Join(words)) == words && Split(" " + Join(words)) == words
  {
    if words != [] {
      var rest := if |words| == 1 then [] else " " + Join(words[1..]);
      SplitJoin(words[1..]);
      assert Join(words) == words[0] + rest;
      assert rest != [] ==> Split(rest) == words[1..];
      assert words[0] in words;
      SplitWord(words[0], rest);
    }
    assert (" " + Join(words))[1..] == Join(words);
  }

  /** A word added after trailing space is stripped comes last. */
  lemma {:induction false} SplitAppend(s: string, w: string)
    requires IsName(w)
    ensures Split(RStrip(s) + " " + w) == Split(s) + [w]
    decreases |s|
  {
    if s == [] {
      SplitJoin([w]);
      assert RStrip(s) + " " + w == " " + Join([w]);
    } else if IsSpace(s[0]) {
      SplitAppend(s[1..], w);
      SplitAfterSpace(s, w);
    } else {
      var n := WordLength(s);
      SplitAppend(s[n..], w);
      SplitAfterWord(s, w);
    }
  }

  lemma SplitAfterWord(s: string, w: string)
    requires s != [] && !IsSpace(s[0])
    ensures var n := WordLength(s);
      Split(RStrip(s) + " " + w) == [s[..n]] + Split(RStrip(s[n..]) + " " + w)
  {
    assert IsSpace(' ');
    hide IsSpace;
    var n := WordLength(s);
    RStripTail(s, n);
    RStripKeeps(s, n);
    var rest := RStrip(s[n..]) + " " + w;
    assert RStrip(s) + " " + w == s[..n] + rest;
    SplitWord(s[..n], rest);
  }

  lemma SplitAfterSpace(s: string, w: string)
    requires s != [] && IsSpace(s[0])
    ensures Split(RStrip(s) + " " + w) == Split(RStrip(s[1..]) + " " + w)
  {
    RStripTail(s, 1);
    var t := RStrip(s) + " " + w;
    if RStrip(s) != [] { assert t[0] == s[0] && t[1..] == RStrip(s[1..]) + " " + w; }
  }

  /** What is not space is not stripped. */
  lemma RStripKeeps(s: string, n: nat)
    requires 0 < n <= |s| && !IsSpace(s[n - 1])
    ensures |RStrip(s)| >= n && RStrip(s)[..n] == s[..n]
  {
  }

  /** Stripping the end of a text, seen from a point before what is stripped. */
  lemma RStripTail(s: string, n: nat)
    requires n <= |s|
    ensures RStrip(s[n..]) == if |RStrip(s)| >= n then RStrip(s)[n..] else []
  {
    var k := |RStrip(s)|;
    if k >= n { RStripIs(s[n..], k - n); } else { RStripIs(s[n..], 0); }
  }
}

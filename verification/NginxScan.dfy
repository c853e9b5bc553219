/** The hand-written reading of an nginx site file: where its top-level server blocks are. */
module NginxScan {
  import opened Optional

  /** What a Python string method or pattern takes for white space. */
  predicate IsSpace(c: char) {
    || '\t' <= c <= '\r' || '\U{1c}' <= c <= ' ' || c == '\U{85}' || c == '\U{a0}' || c == '\U{1680}'
    || '\U{2000}' <= c <= '\U{200a}' || c == '\U{2028}' || c == '\U{2029}' || c == '\U{202f}'
    || c == '\U{205f}' || c == '\U{3000}'
  }

  predicate AllSpace(s: string) {
    forall c <- s :: IsSpace(c)
  }

  const SERVER: string := "server"

  /** What may stand before the word `server`. */
  predicate IsDelimiter(c: char) {
    IsSpace(c) || c == ';' || c == '}'
  }

  function RStrip(s: string): (r: string)
    ensures r <= s && (r != [] ==> !IsSpace(r[|r| - 1])) && forall i | |r| <= i < |s| :: IsSpace(s[i])
    decreases |s|
  {
    if s != [] && IsSpace(s[|s| - 1]) then RStrip(s[..|s| - 1]) else s
  }

  /** There is one place to strip at. */
  lemma RStripIs(s: string, k: nat)
    requires k <= |s| && (forall i | k <= i < |s| :: IsSpace(s[i])) && (k > 0 ==> !IsSpace(s[k - 1]))
    ensures RStrip(s) == s[..k]
  {
    var r := RStrip(s);
    assert r == s[..|r|];
  }

  /** A head ends a server block's head: the word `server`, alone or after a delimiter. */
  predicate EndsWithServer(head: string) {
    && |head| >= |SERVER|
    && head[|head| - |SERVER|..] == SERVER
    && (|head| == |SERVER| || IsDelimiter(head[|head| - |SERVER| - 1]))
  }

  // ---- the scanner, character by character ----

  datatype Mode = Normal | Comment | Quote(q: char) | Escape(q: char)

  datatype Place = Place(mode: Mode, depth: int)

  function Next(p: Place, c: char): Place {
    match p.mode
    case Normal =>
      if c == '#' then p.(mode := Comment)
      else if c == '"' || c == '\'' then p.(mode := Quote(c))
      else if c == '{' then p.(depth := p.depth + 1)
      else if c == '}' then p.(depth := p.depth - 1)
      else p
    case Comment => if c == '\n' then p.(mode := Normal) else p
    case Quote(q) => if c == q then p.(mode := Normal) else if c == '\\' then p.(mode := Escape(q)) else p
    case Escape(q) => p.(mode := Quote(q))
  }

  function Through(p: Place, s: string): Place
    decreases |s|
  {
    if s == [] then p else Next(Through(p, s[..|s| - 1]), s[|s| - 1])
  }

  /** The whole state: the place, where an open server block starts, and the blocks found. */
  datatype Scan = Scan(place: Place, start: Option<nat>, found: seq<(nat, nat)>)

  function HeadStart(before: string): Option<nat> {
    var head := RStrip(before);
    if EndsWithServer(head) then Some(|head| - |SERVER|) else None
  }

  function Feed(text: string, i: nat): (s: Scan)
    requires i <= |text|
  {
    if i == 0 then Scan(Place(Normal, 0), None, [])
    else FeedChar(text, i - 1, Feed(text, i - 1))
  }

  function FeedChar(text: string, i: nat, s: Scan): Scan
    requires i < |text|
  {
    var place := Next(s.place, text[i]);
    if s.place.mode != Normal then s.(place := place)
    else if text[i] == '{' && s.place.depth == 0 && HeadStart(text[..i]).Some? then
      Scan(place, HeadStart(text[..i]), s.found)
    else if text[i] == '}' && place.depth == 0 && s.start.Some? then
      Scan(place, None, s.found + [(s.start.value, i + 1)])
    else s.(place := place)
  }

  /** The ranges of the top-level server blocks of a text. */
  function Blocks(text: string): seq<(nat, nat)> {
    Feed(text, |text|).found
  }

  /** The two inner loops of the scanner: to the end of a comment's line, and to the closing quote. */
  method SkipComment(text: string, from: nat) returns (i: nat)
    requires from < |text| && text[from] == '#' && Feed(text, from).place.mode == Normal
    ensures from < i <= |text| && (i < |text| ==> text[i] == '\n')
    ensures var s := Feed(text, from); Feed(text, i) == s.(place := s.place.(mode := Comment))
  {
    ghost var s := Feed(text, from);
    i := from;
    while i < |text| && text[i] != '\n'
      invariant from <= i <= |text|
      invariant Feed(text, i) == if i == from then s else s.(place := s.place.(mode := Comment))
    {
      i := i + 1;
    }
  }

  method SkipQuoted(text: string, from: nat, quote: char) returns (i: nat)
    requires from <= |text| && Feed(text, from).place.mode == Quote(quote)
    ensures from <= i
    ensures i < |text| ==> text[i] == quote && Feed(text, i) == Feed(text, from)
    ensures i >= |text| ==> Feed(text, |text|).found == Feed(text, from).found
  {
    i := from;
    while i < |text| && text[i] != quote
      invariant from <= i
      invariant i <= |text| ==> Feed(text, i) == Feed(text, from)
      invariant i > |text| ==> Feed(text, |text|).found == Feed(text, from).found
    {
      ghost var s := Feed(text, i);
      assert text[i] == '\\' ==> Feed(text, i + 1) == s.(place := s.place.(mode := Escape(quote)));
      i := i + if text[i] == '\\' then 2 else 1;
    }
  }

  /** The scanner as it is written. */
  method TopLevelBlocks(text: string) returns (blocks: seq<(nat, nat)>)
    ensures blocks == Blocks(text)
  {
    hide HeadStart;
    blocks := [];
    var depth, i, n := 0, 0, |text|;
    var start: Option<nat> := None;
    while i < n
      invariant i <= n ==>
        && Feed(text, i).place.depth == depth && Feed(text, i).start == start && Feed(text, i).found == blocks
        && (Feed(text, i).place.mode == Normal
            || (Feed(text, i).place.mode == Comment && (i < n ==> text[i] == '\n')))
      invariant i > n ==> Feed(text, n).found == blocks
      decreases n - i
    {
      var ch := text[i];
      if ch == '#' {
        i := SkipComment(text, i);
        continue;
      }
      if ch == '"' || ch == '\'' {
        i := SkipQuoted(text, i + 1, ch);
      } else if ch == '{' {
        if depth == 0 {
          var head := HeadStart(text[..i]);
          if head.Some? { start := head; }
        }
        depth := depth + 1;
      } else if ch == '}' {
        depth := depth - 1;
        if depth == 0 && start.Some? {
          blocks := blocks + [(start.value, i + 1)];
          start := None;
        }
      }
      i := i + 1;
    }
  }
}

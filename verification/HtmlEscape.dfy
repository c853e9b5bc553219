/** Escaping a value for the HTML of an e-mail. */
module HtmlEscape {

  /** A global replacement of one character. */
  function Replace(s: string, c: char, with: string): string {
    if s == [] then [] else (if s[0] == c then with else [s[0]]) + Replace(s[1..], c, with)
  }

  /** The five replacements, one after another. */
  function EscapeHtml(value: string): string {
    var angled := Replace(Replace(Replace(value, '&', "&amp;"), '<', "&lt;"), '>', "&gt;");
    Replace(Replace(angled, '"', "&quot;"), '\'', "&#39;")
  }

  function Entity(c: char): string {
    if c == '&' then "&amp;"
    else if c == '<' then "&lt;"
    else if c == '>' then "&gt;"
    else if c == '"' then "&quot;"
    else if c == '\'' then "&#39;"
    else [c]
  }

  /** Each character for itself. */
  function Substituted(value: string): string {
    if value == [] then [] else Entity(value[0]) + Substituted(value[1..])
  }

  lemma {:induction false} ReplaceJoins(a: string, b: string, c: char, with: string)
    ensures Replace(a + b, c, with) == Replace(a, c, with) + Replace(b, c, with)
  {
    if a == [] { assert a + b == b; }
    else {
      assert (a + b)[1..] == a[1..] + b;
      ReplaceJoins(a[1..], b, c, with);
    }
  }

  lemma {:induction false} ReplaceNone(s: string, c: char, with: string)
    requires c !in s
    ensures Replace(s, c, with) == s
  {
    if s != [] { ReplaceNone(s[1..], c, with); }
  }

  lemma EscapeJoins(a: string, b: string)
    ensures EscapeHtml(a + b) == EscapeHtml(a) + EscapeHtml(b)
  {
    hide Replace;
    var a1, b1 := Replace(a, '&', "&amp;"), Replace(b, '&', "&amp;");
    var a2, b2 := Replace(a1, '<', "&lt;"), Replace(b1, '<', "&lt;");
    var a3, b3 := Replace(a2, '>', "&gt;"), Replace(b2, '>', "&gt;");
    var a4, b4 := Replace(a3, '"', "&quot;"), Replace(b3, '"', "&quot;");
    ReplaceJoins(a, b, '&', "&amp;");
    ReplaceJoins(a1, b1, '<', "&lt;");
    ReplaceJoins(a2, b2, '>', "&gt;");
    ReplaceJoins(a3, b3, '"', "&quot;");
    ReplaceJoins(a4, b4, '\'', "&#39;");
  }

  lemma ReplaceOne(c: char, d: char, with: string)
    ensures Replace([c], d, with) == if c == d then with else [c]
  {
    assert Replace([c], d, with) == (if c == d then with else [c]) + Replace([], d, with);
  }

  lemma NotMet(e: string)
    ensures '<' !in e ==> Replace(e, '<', "&lt;") == e
    ensures '>' !in e ==> Replace(e, '>', "&gt;") == e
    ensures '"' !in e ==> Replace(e, '"', "&quot;") == e
    ensures '\'' !in e ==> Replace(e, '\'', "&#39;") == e
  {
    if '<' !in e { ReplaceNone(e, '<', "&lt;"); }
    if '>' !in e { ReplaceNone(e, '>', "&gt;"); }
    if '"' !in e { ReplaceNone(e, '"', "&quot;"); }
    if '\'' !in e { ReplaceNone(e, '\'', "&#39;"); }
  }

  /** No replacement meets what an earlier one wrote. */
  lemma EscapeOne(c: char)
    ensures EscapeHtml([c]) == Entity(c)
  {
    hide Replace;
    ReplaceOne(c, '&', "&amp;");
    ReplaceOne(c, '<', "&lt;");
    ReplaceOne(c, '>', "&gt;");
    ReplaceOne(c, '"', "&quot;");
    ReplaceOne(c, '\'', "&#39;");
    NotMet(Entity(c));
  }

  /** The five replacements are one substitution, character by character. */
  lemma {:induction false} EscapeIsSubstitution(value: string)
    ensures EscapeHtml(value) == Substituted(value)
  {
    if value != [] {
      assert value == [value[0]] + value[1..];
      EscapeJoins([value[0]], value[1..]);
      EscapeOne(value[0]);
      EscapeIsSubstitution(value[1..]);
    } else {
      assert EscapeHtml([]) == [];
    }
  }

  /** Reads the five entities back; any other text stands for itself. */
  function Decode(s: string): string
    decreases |s|
  {
    if s == [] then []
    else if "&amp;" <= s then "&" + Decode(s[5..])
    else if "&lt;" <= s then "<" + Decode(s[4..])
    else if "&gt;" <= s then ">" + Decode(s[4..])
    else if "&quot;" <= s then "\"" + Decode(s[6..])
    else if "&#39;" <= s then "'" + Decode(s[5..])
    else [s[0]] + Decode(s[1..])
  }

  /** What comes after an `&` in escaped text. */
  predicate StartsEntity(s: string) {
    "&amp;" <= s || "&lt;" <= s || "&gt;" <= s || "&quot;" <= s || "&#39;" <= s
  }

  ghost predicate Escaped(s: string) {
    && (forall c <- s :: c != '<' && c != '>' && c != '"' && c != '\'')
    && (forall i | 0 <= i < |s| && s[i] == '&' :: StartsEntity(s[i..]))
  }

  lemma EntityIsEscaped(c: char, rest: string)
    requires Escaped(rest)
    ensures Escaped(Entity(c) + rest)
    ensures Decode(Entity(c) + rest) == [c] + Decode(rest)
  {
    var e := Entity(c);
    var s := e + rest;
    assert s[|e|..] == rest;
    forall x <- s ensures x != '<' && x != '>' && x != '"' && x != '\'' {
      if x !in rest { assert x in e; }
    }
    forall i | 0 <= i < |s| && s[i] == '&' ensures StartsEntity(s[i..]) {
      if i >= |e| { assert s[i..] == rest[i - |e|..]; }
      else { assert i == 0 && e <= s[0..]; }
    }
    DecodeEntity(c, rest);
  }

  lemma DecodeEntity(c: char, rest: string)
    ensures Decode(Entity(c) + rest) == [c] + Decode(rest)
  {
    var e := Entity(c);
    var s := e + rest;
    assert e <= s && s[|e|..] == rest && s[0] == e[0];
    if |e| > 1 {
      assert s[1] == e[1];
      OnlyThatEntity(s, e);
    }
  }

  lemma OnlyThatEntity(s: string, e: string)
    requires |s| >= 2 && |e| >= 2 && s[1] == e[1]
    ensures e[1] != 'a' ==> !("&amp;" <= s)
    ensures e[1] != 'l' ==> !("&lt;" <= s)
    ensures e[1] != 'g' ==> !("&gt;" <= s)
    ensures e[1] != 'q' ==> !("&quot;" <= s)
    ensures e[1] != '#' ==> !("&#39;" <= s)
  {
  }

  /** On every string: the result holds none of the four characters that open or close markup, every
      `&` in it starts one of the five entities, and reading the entities back gives the value. */
  lemma {:induction false} EscapeIsSafe(value: string)
    ensures Escaped(EscapeHtml(value)) && Decode(EscapeHtml(value)) == value
  {
    EscapeIsSubstitution(value);
    hide EscapeHtml;
    if value != [] {
      EscapeIsSafe(value[1..]);
      EscapeIsSubstitution(value[1..]);
      EntityIsEscaped(value[0], Substituted(value[1..]));
    }
  }
}

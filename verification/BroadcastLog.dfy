/** The audit log entry of a broadcast, printed and read back. */
module BroadcastLog {
  import opened Optional

  datatype Locale = En | Es
  datatype Plan = Paying | Free

  datatype Audience = Audience(locale: Option<Locale>, plan: Option<Plan>)

  function Words(a: Audience): seq<string> {
    (match a.locale case None => [] case Some(En) => ["en"] case Some(Es) => ["es"])
    + (match a.plan case None => [] case Some(Paying) => ["paying"] case Some(Free) => ["free"])
  }

  function JoinedByComma(words: seq<string>): string {
    if words == [] then [] else if |words| == 1 then words[0] else words[0] + (", " + JoinedByComma(words[1..]))
  }

  // ---- numbers ----

  predicate IsDigit(c: char) {
    '0' <= c <= '9'
  }

  function Digits(n: nat): (s: string)
    ensures s != [] && forall c <- s :: IsDigit(c)
  {
    var last := [('0' as int + n % 10) as char];
    if n < 10 then last else Digits(n / 10) + last
  }

  function Value(s: string): nat
    requires forall c <- s :: IsDigit(c)
    decreases |s|
  {
    if s == [] then 0
    else
      assert IsDigit(s[|s| - 1]);
      10 * Value(s[..|s| - 1]) + (s[|s| - 1] as int - '0' as int)
  }

  lemma {:induction false} ValueOfDigits(n: nat)
    ensures Value(Digits(n)) == n
  {
    var s := Digits(n);
    if n >= 10 {
      ValueOfDigits(n / 10);
      assert s[..|s| - 1] == Digits(n / 10);
    } else {
      assert s[..|s| - 1] == [];
    }
  }

  // ---- printing ----

  const SUBJECT: string := "Subject: "
  const SUCCESS: string := " | Success: "
  const FAILED: string := " | Failed: "
  const AUDIENCE: string := " | Audience: "

  function AudienceText(a: Audience): string {
    var who := JoinedByComma(Words(a));
    if who == [] then [] else AUDIENCE + who
  }

  function Tail(sent: nat, failed: nat, a: Audience): string {
    SUCCESS + (Digits(sent) + (FAILED + (Digits(failed) + AudienceText(a))))
  }

  function Log(subject: string, sent: nat, failed: nat, a: Audience): string {
    SUBJECT + (subject + Tail(sent, failed, a))
  }

  // ---- reading ----

  function LeadingDigits(s: string): (n: nat)
    ensures n <= |s| && (forall c <- s[..n] :: IsDigit(c)) && (n < |s| ==> !IsDigit(s[n]))
  {
    if s != [] && IsDigit(s[0]) then
      var n := LeadingDigits(s[1..]);
      assert s[..n + 1] == [s[0]] + s[1..][..n];
      n + 1
    else 0
  }

  datatype Counts = Counts(sent: nat, failed: nat, audience: Option<string>)

  /** A number after a fixed text, and what follows it. */
  function NumberAfter(t: string, before: string): Option<(nat, string)> {
    if !(before <= t) then None
    else
      var u := t[|before|..];
      var n := LeadingDigits(u);
      if n == 0 then None else Some((Value(u[..n]), u[n..]))
  }

  /** What the pattern takes for the tail of an entry: to the end of the text. */
  function TailAt(t: string): Option<Counts> {
    match NumberAfter(t, SUCCESS)
    case None => None
    case Some((sent, u)) =>
      match NumberAfter(u, FAILED)
      case None => None
      case Some((failed, v)) =>
        if v == [] then Some(Counts(sent, failed, None))
        else if AUDIENCE <= v && |v| > |AUDIENCE| then Some(Counts(sent, failed, Some(v[|AUDIENCE|..])))
        else None
  }

  /** A greedy match takes the longest subject, so the last tail. */
  function LastTail(t: string, k: nat): Option<nat>
    requires k <= |t|
  {
    if TailAt(t[k..]).Some? then Some(k) else if k == 0 then None else LastTail(t, k - 1)
  }

  lemma {:induction false} LastTailMatches(t: string, k: nat)
    requires k <= |t|
    ensures var found := LastTail(t, k); found.Some? ==> found.value <= k && TailAt(t[found.value..]).Some?
  {
    hide TailAt;
    if TailAt(t[k..]).None? && k > 0 { LastTailMatches(t, k - 1); }
  }

  lemma {:induction false} LastTailIs(t: string, k: nat, i: nat)
    requires i <= k <= |t| && TailAt(t[i..]).Some? && forall j | i < j <= k :: TailAt(t[j..]).None?
    ensures LastTail(t, k) == Some(i)
  {
    hide TailAt;
    if i < k { LastTailIs(t, k - 1, i); }
  }

  function SplitByComma(s: string): (words: seq<string>)
    decreases |s|
  {
    if ", " <= s then [""] + SplitByComma(s[2..])
    else if s == [] then [""]
    else
      var words := SplitByComma(s[1..]);
      if words == [] then [s] else [[s[0]] + words[0]] + words[1..]
  }

  datatype Parsed = Parsed(subject: string, sent: Option<nat>, failed: Option<nat>, audience: seq<string>)

  function Parse(details: string): Parsed {
    var unread := Parsed(details, None, None, []);
    if !(SUBJECT <= details) then unread
    else
      var rest := details[|SUBJECT|..];
      match LastTail(rest, |rest|)
      case None => unread
      case Some(k) =>
        LastTailMatches(rest, |rest|);
        var c := TailAt(rest[k..]).value;
        Parsed(rest[..k], Some(c.sent), Some(c.failed), if c.audience.None? then [] else SplitByComma(c.audience.value))
  }

  // ---- the entry is read back ----

  lemma {:induction false} LeadingAre(a: string, b: string)
    requires (forall c <- a :: IsDigit(c)) && (b == [] || !IsDigit(b[0]))
    ensures LeadingDigits(a + b) == |a|
  {
    if a == [] { assert a + b == b; }
    else {
      assert a[0] in a && (a + b)[1..] == a[1..] + b;
      LeadingAre(a[1..], b);
    }
  }

  lemma NumberIsRead(before: string, n: nat, rest: string)
    requires rest == [] || !IsDigit(rest[0])
    ensures NumberAfter(before + (Digits(n) + rest), before) == Some((n, rest))
  {
    var t := before + (Digits(n) + rest);
    var u := t[|before|..];
    assert t[..|before|] == before;
    assert u == Digits(n) + rest;
    LeadingAre(Digits(n), rest);
    ValueOfDigits(n);
    assert u[..|Digits(n)|] == Digits(n) && u[|Digits(n)|..] == rest;
  }

  lemma TailIsRead(sent: nat, failed: nat, a: Audience)
    ensures TailAt(Tail(sent, failed, a)) ==
      Some(Counts(sent, failed, if Words(a) == [] then None else Some(JoinedByComma(Words(a)))))
  {
    var x := AudienceText(a);
    var rest := FAILED + (Digits(failed) + x);
    NumberIsRead(SUCCESS, sent, rest);
    NumberIsRead(FAILED, failed, x);
    if x != [] { assert x[|AUDIENCE|..] == JoinedByComma(Words(a)); }
  }

  predicate NoMark(s: string) {
    forall c <- s :: c != 'S'
  }

  lemma {:induction false} DigitsHaveNoMark(n: nat)
    ensures NoMark(Digits(n))
  {
    forall c <- Digits(n) ensures c != 'S' { assert IsDigit(c); }
  }

  lemma AudienceHasNoMark(a: Audience)
    ensures NoMark(AudienceText(a))
  {
    var words := Words(a);
    if |words| == 2 {
      assert words[1..] == [words[1]];
      assert JoinedByComma(words) == words[0] + (", " + words[1]);
    }
  }

  /** No tail starts further on: the only `S` of the tail is the one of its first word. */
  lemma NoLaterTail(sent: nat, failed: nat, a: Audience, i: nat)
    requires 0 < i <= |Tail(sent, failed, a)|
    ensures TailAt(Tail(sent, failed, a)[i..]).None?
  {
    var t := Tail(sent, failed, a);
    var u := t[i..];
    DigitsHaveNoMark(sent);
    DigitsHaveNoMark(failed);
    AudienceHasNoMark(a);
    var end := Digits(failed) + AudienceText(a);
    var x := Digits(sent) + (FAILED + end);
    JoinNoMark(Digits(failed), AudienceText(a));
    JoinNoMark(FAILED, end);
    JoinNoMark(Digits(sent), FAILED + end);
    if SUCCESS <= u { MarkedAt(u, x, i); }
  }

  lemma JoinNoMark(a: string, b: string)
    requires NoMark(a) && NoMark(b)
    ensures NoMark(a + b)
  {
  }

  lemma MarkedAt(u: string, x: string, i: nat)
    requires 0 < i <= |SUCCESS + x| && u == (SUCCESS + x)[i..] && NoMark(x)
    ensures !(SUCCESS <= u)
  {
    if |u| >= |SUCCESS| {
      assert u[3] == (SUCCESS + x)[i + 3];
      assert i + 3 < |SUCCESS| || (SUCCESS + x)[i + 3] in x;
      assert SUCCESS[3] == 'S';
    }
  }

  predicate NoComma(s: string) {
    ',' !in s
  }

  lemma CommaFirst(s: string)
    requires s != [] && s[0] != ','
    ensures !(", " <= s)
  {
    var c := ", "[0];
    assert c == ',';
  }

  lemma {:induction false} SplitWord(w: string)
    requires NoComma(w)
    ensures SplitByComma(w) == [w]
  {
    if w != [] {
      assert w[0] in w;
      CommaFirst(w);
      SplitWord(w[1..]);
      assert [w[0]] + w[1..] == w;
    }
  }

  lemma {:induction false} SplitTwo(w: string, x: string)
    requires NoComma(w) && NoComma(x)
    ensures SplitByComma(w + (", " + x)) == [w, x]
  {
    var s := w + (", " + x);
    if w == [] {
      SplitWord(x);
      assert s == ", " + x && s[2..] == x;
    } else {
      assert w[0] in w && s[0] == w[0] && s[1..] == w[1..] + (", " + x);
      CommaFirst(s);
      SplitTwo(w[1..], x);
      assert [w[0]] + w[1..] == w;
    }
  }

  lemma WordsAreSplit(a: Audience)
    requires Words(a) != []
    ensures SplitByComma(JoinedByComma(Words(a))) == Words(a)
  {
    var words := Words(a);
    assert forall w <- words :: NoComma(w);
    if |words| == 1 { SplitWord(words[0]); }
    else {
      assert words[1..] == [words[1]];
      SplitTwo(words[0], words[1]);
    }
  }

  /** For every subject, also one with line breaks or that looks like the tail of an entry, the list
      reads back the subject, both counts and the audience that the send wrote. */
  lemma LogIsReadBack(subject: string, sent: nat, failed: nat, a: Audience)
    ensures Parse(Log(subject, sent, failed, a)) == Parsed(subject, Some(sent), Some(failed), Words(a))
  {
    hide TailAt, Tail, LastTail, Words, JoinedByComma, SplitByComma;
    var tail := Tail(sent, failed, a);
    var rest := subject + tail;
    var details := SUBJECT + rest;
    assert details[..|SUBJECT|] == SUBJECT && details[|SUBJECT|..] == rest;
    assert rest[|subject|..] == tail && rest[..|subject|] == subject;
    TailIsRead(sent, failed, a);
    forall i | |subject| < i <= |rest| ensures TailAt(rest[i..]).None? {
      assert rest[i..] == tail[i - |subject|..];
      NoLaterTail(sent, failed, a, i - |subject|);
    }
    LastTailIs(rest, |rest|, |subject|);
    if Words(a) != [] { WordsAreSplit(a); }
  }
}

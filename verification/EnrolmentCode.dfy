/** The code an administrator reads out, and how it may be typed. */
module EnrolmentCode {
  import opened JsString
  import opened StaffModel

  const CODE_ALPHABET: string := "ABCDEFGHJKMNPQRSTUVWXYZ23456789"
  const CODE_LENGTH: nat := 12

  predicate OfAlphabet(code: string) {
    forall c <- code :: c in CODE_ALPHABET
  }

  /** The code in its full groups of four, joined by dashes. */
  function Grouped(code: string): string {
    if |code| < 4 then []
    else if |code| < 8 then code[..4]
    else code[..4] + "-" + Grouped(code[4..])
  }

  /** issueCode, the draws of the random generator given. */
  method IssueCode(draws: seq<nat>) returns (code: string, shown: string)
    requires |draws| == CODE_LENGTH && forall i | 0 <= i < |draws| :: draws[i] < |CODE_ALPHABET|
    ensures |code| == CODE_LENGTH && OfAlphabet(code)
    ensures forall i | 0 <= i < CODE_LENGTH :: code[i] == CODE_ALPHABET[draws[i]]
    ensures |shown| == 14 && NormaliseCode(shown) == code && Matches(Trim(shown), Sha256(code))
  {
    code := "";
    for i := 0 to CODE_LENGTH
      invariant |code| == i && OfAlphabet(code)
      invariant forall k | 0 <= k < i :: code[k] == CODE_ALPHABET[draws[k]]
    {
      code := code + [CODE_ALPHABET[draws[i]]];
    }
    shown := Grouped(code);
    GroupedNormalises(code);
    AcceptedAsTyped(shown, code);
    assert Grouped(code) == code[..4] + "-" + Grouped(code[4..]);
    assert Grouped(code[4..]) == code[4..][..4] + "-" + Grouped(code[4..][4..]);
  }

  lemma {:induction false} NormaliseOfAlphabet(code: string)
    requires OfAlphabet(code)
    ensures NormaliseCode(code) == code
  {
    if code != [] {
      LetterStays(code[0]);
      NormaliseOfAlphabet(code[1..]);
    }
  }

  lemma LetterStays(c: char)
    requires c in CODE_ALPHABET
    ensures !IsBlank(c) && c != '-' && Upper(c) == c
  {
  }

  lemma {:induction false} NormaliseJoins(a: string, b: string)
    ensures NormaliseCode(a + b) == NormaliseCode(a) + NormaliseCode(b)
  {
    if a == [] { assert a + b == b; }
    else {
      assert (a + b)[1..] == a[1..] + b;
      NormaliseJoins(a[1..], b);
    }
  }

  /** A code of whole groups reads back from the way it is shown. */
  lemma {:induction false} GroupedNormalises(code: string)
    requires OfAlphabet(code) && |code| % 4 == 0
    ensures NormaliseCode(Grouped(code)) == code
  {
    if |code| == 4 {
      assert code[..4] == code;
      NormaliseOfAlphabet(code);
    } else if |code| >= 8 {
      NormaliseJoins(code[..4] + "-", Grouped(code[4..]));
      NormaliseJoins(code[..4], "-");
      NormaliseOfAlphabet(code[..4]);
      GroupedNormalises(code[4..]);
      assert NormaliseCode("-") == "";
      assert code == code[..4] + code[4..];
    }
  }

  lemma {:induction false} NormaliseTrimStart(s: string)
    ensures NormaliseCode(TrimStart(s)) == NormaliseCode(s)
  {
    if s != [] && IsBlank(s[0]) { NormaliseTrimStart(s[1..]); }
  }

  lemma {:induction false} NormaliseTrimEnd(s: string)
    ensures NormaliseCode(TrimEnd(s)) == NormaliseCode(s)
  {
    if s != [] && IsBlank(s[|s| - 1]) {
      NormaliseTrimEnd(s[..|s| - 1]);
      NormaliseJoins(s[..|s| - 1], [s[|s| - 1]]);
      assert s == s[..|s| - 1] + [s[|s| - 1]];
    }
  }

  /** However it is typed - any case, spaces and dashes anywhere, blanks around it - a code that
      spells the kept one is accepted. */
  lemma AcceptedAsTyped(typed: string, code: string)
    requires NormaliseCode(typed) == code
    ensures Matches(Trim(typed), Sha256(code))
  {
    NormaliseTrimStart(typed);
    NormaliseTrimEnd(TrimStart(typed));
  }
}

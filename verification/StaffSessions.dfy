/** Reviewer sessions over all interleavings: how long they last, and that no token renews twice. */
module StaffSessions {
  import opened Optional
  import opened JsString
  import opened StaffModel

  // ---- what every run keeps ----

  /** A reviewer's token carries its sign-in floored to seconds, whatever number of renewals lies
      between: flooring moves the start back once and never again. */
  predicate TokenOk(s: State, t: RefreshToken) {
    && t in s.signed
    && t.jti < s.nextJti
    && t.origin <= s.clock
    && (t.claim.Reviewer? ==> t.claim.sst == Seconds(t.origin))
  }

  predicate ExpiryOk(t: RefreshToken, expiresAt: int) {
    t.claim.Reviewer? ==> expiresAt <= t.origin + REVIEWER_SESSION_MAX_MS
  }

  ghost predicate IssuedOk(s: State, e: Event)
    requires e.Issued?
  {
    && TokenOk(s, e.token)
    && ExpiryOk(e.token, e.expiresAt)
    && e.token.origin <= e.at <= s.clock
    && (e.token.claim.Reviewer? ==>
          && e.accessEnd.Some?
          && e.expiresAt <= e.accessEnd.value <= ReviewerAccessLatestEnd(e.at)
          && e.at < e.token.origin + REVIEWER_SESSION_MAX_MS)
    && (e.parent.None? ==> e.token.origin == e.at)
    && (e.parent.Some? ==>
          && TokenOk(s, e.parent.value)
          && e.parent.value.claim == e.token.claim
          && e.parent.value.origin == e.token.origin
          && e.parent.value.jti < e.token.jti
          && (e.token.claim.Reviewer? ==> e.at < e.accessEnd.value))
  }

  predicate OpTokenOk(s: State, op: Op) {
    match op
    case StoreSession(t, expiresAt) => TokenOk(s, t) && ExpiryOk(t, expiresAt)
    case LoadForRenewal(t) => TokenOk(s, t)
    case DropForRenewal(t) => TokenOk(s, t)
    case FindSession(t) => TokenOk(s, t)
    case ClearForReviewer(end) => end <= ReviewerAccessLatestEnd(s.clock)
    case _ => true
  }

  ghost predicate CapInv(s: State) {
    && (forall t <- s.signed :: TokenOk(s, t))
    && (forall r <- s.pending :: OpTokenOk(s, s.pending[r]))
    && (forall t <- s.sessions :: TokenOk(s, t) && ExpiryOk(t, s.sessions[t]))
    && (forall e <- s.log :: e.Issued? ==> IssuedOk(s, e))
  }

  /** What a step must do for the invariant to hold after it. */
  ghost predicate CapsKept(s: State, s': State, o: Outcome) {
    && (o.token.Some? ==> TokenOk(s', o.token.value))
    && (o.next.Some? ==> OpTokenOk(s', o.next.value))
    && (forall t <- o.sessions :: TokenOk(s', t) && ExpiryOk(t, o.sessions[t]))
    && (forall e <- o.events :: e.Issued? ==> IssuedOk(s', e))
  }

  lemma IssueKeepsCaps(s: State, r: nat, o: Outcome, reviewer: Option<ReviewerSession>, origin: int,
                       parent: Option<RefreshToken>)
    requires CapInv(s) && CapsKept(s, Commit(s, r, o), o) && o.token.None? && !(exists e <- o.events :: e.Issued?)
    requires origin <= s.clock && (parent.None? ==> origin == s.clock)
    requires reviewer.Some? ==>
      && Seconds(reviewer.value.startedAt) == Seconds(origin)
      && reviewer.value.startedAt <= origin
      && s.clock < origin + REVIEWER_SESSION_MAX_MS
      && reviewer.value.accessEnd <= ReviewerAccessLatestEnd(s.clock)
    requires parent.Some? ==>
      && TokenOk(s, parent.value) && parent.value.origin == origin
      && parent.value.claim == (if reviewer.Some? then Reviewer(Seconds(origin)) else Mfa)
      && (reviewer.Some? ==> s.clock < reviewer.value.accessEnd)
    ensures var issued := Issue(s, o, reviewer, origin, parent); CapsKept(s, Commit(s, r, issued), issued)
  {
  }

  predicate SignsIn(op: Op) {
    op.ClearForReviewer? || op.LoadForVerify? || op.EnableTotp? || op.LoadForRenewal?
  }

  /** What a step that signs nothing leaves in order. */
  ghost predicate QuietOk(s: State, o: Outcome) {
    && o.token.None?
    && (forall e <- o.events :: !e.Issued?)
    && (o.next.Some? ==> OpTokenOk(s, o.next.value))
    && (forall t <- o.sessions :: TokenOk(s, t) && ExpiryOk(t, o.sessions[t]))
  }

  lemma QuietEffect(s: State, op: Op, right: bool, text: string)
    requires CapInv(s) && OpTokenOk(s, op) && !SignsIn(op)
    ensures QuietOk(s, Effect(s, op, right, text))
  {
    hide Effect, QuietOk;
    if OfSignIn(op) { QuietSignIn(s, op, right, text); } else { QuietOther(s, op, right, text); }
  }

  lemma QuietSignIn(s: State, op: Op, right: bool, text: string)
    requires CapInv(s) && OpTokenOk(s, op) && !SignsIn(op) && OfSignIn(op)
    ensures QuietOk(s, Effect(s, op, right, text))
  {
    hide Trim, NormaliseCode;
  }

  lemma QuietOther(s: State, op: Op, right: bool, text: string)
    requires CapInv(s) && OpTokenOk(s, op) && !SignsIn(op) && !OfSignIn(op)
    ensures QuietOk(s, Effect(s, op, right, text))
  {
  }

  lemma SignInEffect(s: State, r: nat, right: bool, text: string)
    requires CapInv(s) && r in s.pending && SignsIn(s.pending[r])
    ensures var o := Effect(s, s.pending[r], right, text); CapsKept(s, Commit(s, r, o), o)
  {
    var op := s.pending[r];
    assert OpTokenOk(s, op);
    match op {
      case ClearForReviewer(end) =>
        IssueKeepsCaps(s, r, Over(s).(row := Unlocked(s.row)), Some(ReviewerSession(s.clock, end)), s.clock, None);
      case LoadForVerify(_) =>
        IssueKeepsCaps(s, r, Over(s), None, s.clock, None);
      case EnableTotp(secret, _) =>
        var o := Over(s).(row := s.row.(totpEnabled := true), events := [Enabled(secret)]);
        IssueKeepsCaps(s, r, o, None, s.clock, None);
      case LoadForRenewal(token) =>
        RenewalEffect(s, r, token);
    }
  }

  lemma RenewalEffect(s: State, r: nat, token: RefreshToken)
    requires CapInv(s) && TokenOk(s, token)
    ensures var o := OnLoadForRenewal(s, token); CapsKept(s, Commit(s, r, o), o)
  {
    if OnLoadForRenewal(s, token).token.Some? {
      var reviewer := if token.claim.Mfa? then None
                      else Some(ReviewerSession(token.claim.sst * 1000, s.row.accessEnd.value));
      IssueKeepsCaps(s, r, Over(s), reviewer, token.origin, Some(token));
    }
  }

  lemma StepKeepsCaps(s: State, r: nat, right: bool, text: string)
    requires CapInv(s) && r in s.pending
    ensures CapInv(Step(s, r, right, text))
  {
    var o := Effect(s, s.pending[r], right, text);
    assert OpTokenOk(s, s.pending[r]);
    if SignsIn(s.pending[r]) { SignInEffect(s, r, right, text); } else { QuietEffect(s, s.pending[r], right, text); }
    CommitKeepsCaps(s, r, o);
  }

  lemma CommitKeepsCaps(s: State, r: nat, o: Outcome)
    requires CapInv(s) && CapsKept(s, Commit(s, r, o), o)
    ensures CapInv(Commit(s, r, o))
  {
  }

  lemma ActionKeepsCaps(s: State, a: Action)
    requires CapInv(s) && CanHappen(s, a)
    ensures CapInv(Apply(s, a))
  {
    if a.Advance? { StepKeepsCaps(s, a.request, a.right, a.text); }
  }

  // ---- a token renews at most once ----

  /** The token a request holds between deleting its row and issuing, or between issuing and
      storing: it is then in no row. */
  function Held(op: Op): Option<RefreshToken> {
    match op
    case StoreSession(t, _) => Some(t)
    case LoadForRenewal(t) => Some(t)
    case _ => None
  }

  predicate Renewed(log: seq<Event>, t: RefreshToken) {
    exists e <- log :: e.Issued? && e.parent == Some(t)
  }

  ghost predicate RenewedOnce(log: seq<Event>) {
    forall i, j :: 0 <= i < j < |log| && log[i].Issued? && log[j].Issued? && log[i].parent.Some? ==>
      log[i].parent != log[j].parent
  }

  ghost predicate PlaceInv(s: State) {
    && CapInv(s)
    && RenewedOnce(s.log)
    && (forall t <- s.sessions :: !Renewed(s.log, t))
    && (forall r <- s.pending :: Held(s.pending[r]).Some? ==>
          var t := Held(s.pending[r]).value;
          t !in s.sessions && !Renewed(s.log, t))
    && (forall r <- s.pending, q <- s.pending :: r != q && Held(s.pending[r]).Some? ==>
          Held(s.pending[r]) != Held(s.pending[q]))
  }

  /** Where tokens move in a step: a fresh one to its request, a stored one to the request that
      deleted its row, a held one to its row. */
  ghost predicate HeldMoves(s: State, op: Op, o: Outcome) {
    o.next.Some? && Held(o.next.value).Some? ==>
      var t := Held(o.next.value).value;
      t !in o.sessions && (t !in s.signed || (op == DropForRenewal(t) && t in s.sessions))
  }

  ghost predicate RowsMove(s: State, op: Op, o: Outcome) {
    forall t <- o.sessions :: t in s.sessions || Held(op) == Some(t)
  }

  ghost predicate ParentsMove(s: State, op: Op, o: Outcome) {
    forall e <- o.events :: e.Issued? && e.parent.Some? ==>
      op == LoadForRenewal(e.parent.value) && o.events == [e] && o.sessions == s.sessions
  }

  ghost predicate MovesRight(s: State, op: Op, o: Outcome) {
    HeldMoves(s, op, o) && RowsMove(s, op, o) && ParentsMove(s, op, o)
  }

  lemma QuietTokenMoves(s: State, op: Op, right: bool, text: string)
    requires CapInv(s) && OpTokenOk(s, op) && !SignsIn(op)
    ensures MovesRight(s, op, Effect(s, op, right, text))
  {
    var o := Effect(s, op, right, text);
    QuietEffect(s, op, right, text);
    assert ParentsMove(s, op, o);
    assert RowsMove(s, op, o);
    QuietHeldMoves(s, op, right, text);
  }

  lemma QuietHeldMoves(s: State, op: Op, right: bool, text: string)
    requires CapInv(s) && !SignsIn(op)
    ensures HeldMoves(s, op, Effect(s, op, right, text))
  {
  }

  lemma SignedTokenMoves(s: State, op: Op, right: bool, text: string)
    requires CapInv(s) && OpTokenOk(s, op) && SignsIn(op)
    ensures MovesRight(s, op, Effect(s, op, right, text))
  {
    assert forall session, origin :: NewToken(s, session, origin).jti == s.nextJti;
  }

  lemma RenewalsAfter(s: State, op: Op, o: Outcome, t: RefreshToken)
    requires MovesRight(s, op, o)
    ensures Renewed(s.log + o.events, t)
      <==> Renewed(s.log, t) || (exists e <- o.events :: e.Issued? && e.parent == Some(t))
    ensures Renewed(s.log + o.events, t) && !Renewed(s.log, t) ==> op == LoadForRenewal(t) && o.sessions == s.sessions
  {
    var log := s.log + o.events;
    assert forall e :: e in log <==> e in s.log || e in o.events;
  }

  lemma CommitKeepsRenewedOnce(s: State, r: nat, o: Outcome)
    requires PlaceInv(s) && r in s.pending && MovesRight(s, s.pending[r], o)
    ensures RenewedOnce(s.log + o.events)
  {
    var log := s.log + o.events;
    forall i, j | 0 <= i < j < |log| && log[i].Issued? && log[j].Issued? && log[i].parent.Some?
      ensures log[i].parent != log[j].parent
    {
      if j >= |s.log| && log[j].parent.Some? {
        assert log[j] in o.events;
        assert !Renewed(s.log, log[j].parent.value);
        assert i < |s.log| ==> log[i] in s.log;
      }
    }
  }

  lemma CommitKeepsPlaces(s: State, r: nat, o: Outcome)
    requires PlaceInv(s) && r in s.pending && MovesRight(s, s.pending[r], o)
    requires CapInv(Commit(s, r, o))
    ensures PlaceInv(Commit(s, r, o))
  {
    var op := s.pending[r];
    var s' := Commit(s, r, o);
    CommitKeepsRenewedOnce(s, r, o);
    forall t | t in s'.sessions ensures !Renewed(s'.log, t) {
      RenewalsAfter(s, op, o, t);
    }
    forall q | q in s'.pending && Held(s'.pending[q]).Some?
      ensures var t := Held(s'.pending[q]).value; t !in s'.sessions && !Renewed(s'.log, t)
    {
      var t := Held(s'.pending[q]).value;
      RenewalsAfter(s, op, o, t);
      if t !in s.signed { NotYetRenewed(s, t); }
    }
  }

  /** A token that is not signed yet is nobody's parent. */
  lemma NotYetRenewed(s: State, t: RefreshToken)
    requires CapInv(s) && t !in s.signed
    ensures !Renewed(s.log, t)
  {
  }

  lemma ActionKeepsPlaces(s: State, a: Action)
    requires PlaceInv(s) && CanHappen(s, a)
    ensures PlaceInv(Apply(s, a))
  {
    ActionKeepsCaps(s, a);
    if a.Advance? {
      var op := s.pending[a.request];
      assert OpTokenOk(s, op);
      if SignsIn(op) { SignedTokenMoves(s, op, a.right, a.text); } else { QuietTokenMoves(s, op, a.right, a.text); }
      CommitKeepsPlaces(s, a.request, Effect(s, op, a.right, a.text));
    }
  }

  lemma {:induction false} RunKeepsPlaces(s: State, run: seq<Action>)
    requires PlaceInv(s) && ValidRun(s, run)
    ensures PlaceInv(Run(s, run))
    decreases |run|
  {
    if run != [] {
      ActionKeepsPlaces(s, run[0]);
      RunKeepsPlaces(Apply(s, run[0]), run[1..]);
    }
  }

  // ---- what this means for every run from a newly created identity ----

  lemma RunKeepsAll(s0: State, run: seq<Action>)
    requires Initial(s0) && ValidRun(s0, run)
    ensures PlaceInv(Run(s0, run))
  {
    RunKeepsPlaces(s0, run);
  }

  /** A session as the log tells it: a sign-in, then renewals, each of the token before. */
  ghost predicate SessionHistory(log: seq<Event>, h: seq<Event>) {
    && h != []
    && (forall e <- h :: e in log && e.Issued?)
    && h[0].parent.None?
    && (forall k | 0 < k < |h| :: h[k].parent == Some(h[k - 1].token))
  }

  /** However often it is renewed, a reviewer's session never has a token that is good past its
      working day, counted from the sign-in, nor past the end of access it was issued with, nor is
      it issued with an end further off than a reviewer may have; and its start is carried
      unchanged. */
  lemma {:induction false} ReviewerSessionIsCapped(s0: State, run: seq<Action>, h: seq<Event>, k: nat)
    requires Initial(s0) && ValidRun(s0, run)
    requires SessionHistory(Run(s0, run).log, h) && h[0].token.claim.Reviewer? && k < |h|
    ensures h[k].token.claim == h[0].token.claim
    ensures h[k].token.claim.sst * 1000 <= h[0].at < h[k].token.claim.sst * 1000 + 1000
    ensures h[k].at < h[0].at + REVIEWER_SESSION_MAX_MS
    ensures h[k].expiresAt <= h[0].at + REVIEWER_SESSION_MAX_MS
    ensures h[k].accessEnd.Some?
    ensures h[k].expiresAt <= h[k].accessEnd.value <= h[k].at + REVIEWER_ACCESS_MAX_DAYS * DAY_MS
  {
    RunKeepsAll(s0, run);
    SameSession(Run(s0, run), h, k);
    assert h[k] in Run(s0, run).log && h[0] in Run(s0, run).log;
  }

  lemma {:induction false} SameSession(s: State, h: seq<Event>, k: nat)
    requires CapInv(s) && SessionHistory(s.log, h) && k < |h|
    ensures h[k].token.claim == h[0].token.claim && h[k].token.origin == h[0].at
  {
    assert h[k] in s.log;
    if k > 0 { SameSession(s, h, k - 1); }
  }

  /** What is stored of a reviewer's session obeys the same bound at every moment. */
  lemma StoredReviewerSessionsEnd(s0: State, run: seq<Action>, t: RefreshToken)
    requires Initial(s0) && ValidRun(s0, run)
    requires t in Run(s0, run).sessions && t.claim.Reviewer?
    ensures Run(s0, run).sessions[t] <= t.claim.sst * 1000 + 999 + REVIEWER_SESSION_MAX_MS
    ensures Run(s0, run).sessions[t] <= t.origin + REVIEWER_SESSION_MAX_MS
  {
    RunKeepsAll(s0, run);
  }

  /** A renewal after the working day, or while the stored end is missing, past or beyond the
      maximum, issues nothing. */
  lemma LateRenewalIsRefused(s0: State, run: seq<Action>, r: nat, token: RefreshToken, right: bool, text: string)
    requires Initial(s0) && ValidRun(s0, run)
    requires var s := Run(s0, run); r in s.pending && s.pending[r] == LoadForRenewal(token) && token.claim.Reviewer?
    requires var s := Run(s0, run);
      s.clock >= token.origin + REVIEWER_SESSION_MAX_MS || !ReviewerAccessIsValid(s.row.accessEnd, s.clock)
    ensures var s := Run(s0, run); Step(s, r, right, text) == s.(pending := s.pending - {r})
  {
    RunKeepsAll(s0, run);
    var s := Run(s0, run);
    assert OpTokenOk(s, s.pending[r]);
  }

  /** Two renewals of one token never both succeed, however they interleave. */
  lemma TokenRenewsOnce(s0: State, run: seq<Action>, i: nat, j: nat)
    requires Initial(s0) && ValidRun(s0, run)
    requires var log := Run(s0, run).log;
      && i < |log| && j < |log| && log[i].Issued? && log[j].Issued?
      && log[i].parent.Some? && log[i].parent == log[j].parent
    ensures i == j
  {
    RunKeepsAll(s0, run);
  }

  // ---- an end beyond the maximum is reachable ----

  function LateEnd(now: int): int {
    now + 200 * DAY_MS
  }

  /** Setting the end of a member of staff and making them a reviewer, at once, can leave a
      reviewer whose end lies beyond the maximum; no sign-in or renewal honours it (see
      `ReviewerSessionIsCapped` and `LateRenewalIsRefused`). */
  lemma CrossedChangesLeaveLateEnd(s: State)
    requires !IsExternalReviewer(s.row.roles)
    ensures exists s' :: Reaches(s, s') && s'.clock == s.clock && IsExternalReviewer(s'.row.roles)
                         && s'.row.accessEnd == Some(LateEnd(s.clock))
                         && !ReviewerAccessIsValid(s'.row.accessEnd, s'.clock)
  {
    var r, s1 := EndChangeUnderWay(s, LateEnd(s.clock));
    var s2 := BecomesReviewer(s, s1, r);
    var s3 := Happens(s, s2, r, true, "");
    assert s3.row.accessEnd == Some(LateEnd(s.clock));
  }

  lemma EndChangeUnderWay(s: State, end: int) returns (r: nat, s': State)
    requires !IsExternalReviewer(s.row.roles) && s.clock < end
    ensures Reaches(s, s') && s'.row == s.row && s'.clock == s.clock
    ensures r < s'.nextRequest && r in s'.pending && s'.pending[r] == WriteEnd(Some(end))
  {
    ReachesSelf(s);
    var s1;
    r, s1 := Arrives(s, s, LoadForEnd(Some(end)));
    s' := Happens(s, s1, r, true, "");
  }

  /** An operator's change of roles, with nothing else happening meanwhile. */
  lemma BecomesReviewer(s: State, s1: State, other: nat) returns (s': State)
    requires Reaches(s, s1) && !IsExternalReviewer(s1.row.roles)
    requires other in s1.pending && other < s1.nextRequest
    ensures Reaches(s, s') && s'.row.roles == [REVIEWER_ROLE] && s'.clock == s1.clock
    ensures other in s'.pending && s'.pending[other] == s1.pending[other]
  {
    hide Effect, Reaches;
    var r, s2 := Arrives(s, s1, LoadForRoles([REVIEWER_ROLE]));
    OperatorEffect(s2, s2.pending[r], true, "");
    var s3 := Happens(s, s2, r, true, "");
    OperatorEffect(s3, s3.pending[r], true, "");
    s' := Happens(s, s3, r, true, "");
  }
}

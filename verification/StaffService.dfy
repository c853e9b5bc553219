/** The service as it is written: each request from its first line to its last, changing the stored
    row and the sessions as it goes. Each method is proved to do what the steps of its request do
    when no other request comes between them, so that the interleavings of `StaffModel` are
    interleavings of these methods. */
module StaffService {
  import opened Optional
  import opened JsString
  import opened StaffModel

  /** The state after a request that started with `op` has made some of its calls, with nothing
      else happening meanwhile. */
  ghost predicate Alone(s0: State, op: Op, right: bool, text: string, s: State) {
    exists run ::
      && ValidRun(s0, run) && Run(s0, run) == s
      && run != [] && run[0] == Begin(op)
      && forall k | 0 < k < |run| :: run[k] == Advance(s0.nextRequest, right, text)
  }

  /** Request `r` waiting for `op`, in a state that does not know the request. */
  function At(s: State, r: nat, op: Op): State {
    s.(pending := s.pending[r := op])
  }

  /** The state after the step of a request that was not known before. */
  function After(s: State, o: Outcome): State {
    s.(row := o.row,
       sessions := o.sessions,
       signed := if o.token.Some? then s.signed + {o.token.value} else s.signed,
       steps := if o.stepToken.Some? then s.steps + {o.stepToken.value} else s.steps,
       nextJti := if o.token.Some? then s.nextJti + 1 else s.nextJti,
       nextSecret := if o.drawsSecret then s.nextSecret + 1 else s.nextSecret,
       log := s.log + o.events)
  }

  lemma Starts(s0: State, op: Op, right: bool, text: string)
    requires MayBegin(s0, op)
    ensures Alone(s0, op, right, text, At(s0.(nextRequest := s0.nextRequest + 1), s0.nextRequest, op))
  {
    hide Effect, MayBegin;
    var run := [Begin(op)];
    var s1 := Apply(s0, Begin(op));
    assert ValidRun(s1, []) && Run(s1, []) == s1;
    assert run[1..] == [];
  }

  /** The next call of the request happens. */
  lemma Continue(s0: State, first: Op, s: State, op: Op, right: bool, text: string)
    requires Alone(s0, first, right, text, At(s, s0.nextRequest, op)) && s0.nextRequest !in s.pending
    requires op.KeepProof? ==> FreshProof(s, text)
    ensures var o := Effect(s, op, right, text); var s' := After(s, o);
      Alone(s0, first, right, text, if o.next.Some? then At(s', s0.nextRequest, o.next.value) else s')
  {
    hide Run, ValidRun, WholeRun, Effect;
    var r := s0.nextRequest;
    var run :| && ValidRun(s0, run) && Run(s0, run) == At(s, r, op)
               && run != [] && run[0] == Begin(first)
               && forall k | 0 < k < |run| :: run[k] == Advance(r, right, text);
    RunThen(s0, run, Advance(r, right, text));
    EffectIgnoresPending(s, At(s, r, op), op, right, text);
    var o := Effect(s, op, right, text);
    StepAt(s, r, op, o);
    var longer := run + [Advance(r, right, text)];
    assert longer[0] == Begin(first);
  }

  lemma StepAt(s: State, r: nat, op: Op, o: Outcome)
    requires r !in s.pending
    ensures Commit(At(s, r, op), r, o) == if o.next.Some? then At(After(s, o), r, o.next.value) else After(s, o)
  {
    if o.next.Some? { assert s.pending[r := op][r := o.next.value] == s.pending[r := o.next.value]; }
    else { assert s.pending[r := op] - {r} == s.pending; }
  }

  lemma EffectIgnoresPending(s: State, s': State, op: Op, right: bool, text: string)
    requires s' == s.(pending := s'.pending)
    ensures Effect(s, op, right, text) == Effect(s', op, right, text)
  {
    hide Effect;
    if OfSignIn(op) { SignInIgnoresPending(s, s', op, right, text); }
    else { OtherIgnoresPending(s, s', op, right, text); }
  }

  lemma SignInIgnoresPending(s: State, s': State, op: Op, right: bool, text: string)
    requires s' == s.(pending := s'.pending) && OfSignIn(op)
    ensures Effect(s, op, right, text) == Effect(s', op, right, text)
  {
    hide Trim, NormaliseCode, Matches, IsLocked, AccessHasExpired, IsExternalReviewer, ReviewerAccessIsValid;
  }

  lemma OtherIgnoresPending(s: State, s': State, op: Op, right: bool, text: string)
    requires s' == s.(pending := s'.pending) && !OfSignIn(op)
    ensures Effect(s, op, right, text) == Effect(s', op, right, text)
  {
  }

  lemma NothingLogged(s: State)
    ensures s.log + [] == s.log
  {
  }

  /** The count of a failed attempt, and the lock it may lead to. */
  function FailedOnce(row: Identity, now: int): Identity {
    var counted := row.(failed := row.failed + 1);
    if counted.failed >= LOCKOUT_THRESHOLD then counted.(lockedUntil := Some(now + LOCKOUT_MS)) else counted
  }

  lemma FailureCounted(s0: State, first: Op, s: State, right: bool, text: string)
    requires Alone(s0, first, right, text, At(s, s0.nextRequest, CountFailure)) && s0.nextRequest !in s.pending
    ensures Alone(s0, first, right, text, s.(row := FailedOnce(s.row, s.clock)))
  {
    hide Alone;
    NothingLogged(s);
    Continue(s0, first, s, CountFailure, right, text);
    var counted := s.(row := s.row.(failed := s.row.failed + 1));
    assert After(s, OnCountFailure(s)) == counted;
    if counted.row.failed >= LOCKOUT_THRESHOLD {
      Continue(s0, first, counted, SetLock(s.clock + LOCKOUT_MS), right, text);
    }
  }

  function EndOf(reviewer: Option<ReviewerSession>): Option<int> {
    if reviewer.Some? then Some(reviewer.value.accessEnd) else None
  }

  /** A session signed and stored. */
  function SessionIssued(s: State, reviewer: Option<ReviewerSession>, origin: int,
                         parent: Option<RefreshToken>): State {
    var token := NewToken(s, reviewer, origin);
    var expiresAt := s.clock + RefreshTtl(s.clock, reviewer);
    s.(signed := s.signed + {token},
       nextJti := s.nextJti + 1,
       sessions := s.sessions[token := expiresAt],
       log := s.log + [Issued(token, parent, s.clock, EndOf(reviewer), expiresAt)])
  }

  lemma SessionEffect(s: State, op: Op, right: bool, text: string)
    ensures op.StoreSession? ==> Effect(s, op, right, text) == OnStoreSession(s, op.token, op.expiresAt)
  {
  }

  lemma SessionStored(s0: State, first: Op, s: State, right: bool, text: string, op: Op, o: Outcome,
                      reviewer: Option<ReviewerSession>, origin: int, parent: Option<RefreshToken>)
    requires Alone(s0, first, right, text, At(s, s0.nextRequest, op)) && s0.nextRequest !in s.pending
    requires Effect(s, op, right, text) == Issue(s, o, reviewer, origin, parent) && !op.KeepProof?
    requires o == Over(s).(row := o.row, events := o.events)
    ensures Alone(s0, first, right, text,
                  SessionIssued(s.(row := o.row, log := s.log + o.events), reviewer, origin, parent))
  {
    hide Alone, Effect;
    var issued := Issue(s, o, reviewer, origin, parent);
    Continue(s0, first, s, op, right, text);
    var s1 := After(s, issued);
    var store := issued.next.value;
    SessionEffect(s1, store, right, text);
    Continue(s0, first, s1, store, right, text);
    NothingLogged(s1);
    assert s.log + issued.events == s.log + o.events + [issued.events[|o.events|]];
  }

  // ---- login, branch by branch ----

  lemma LoginLoaded(s0: State, s: State, right: bool)
    requires Alone(s0, LoadForLogin, right, "", At(s, s0.nextRequest, LoadForLogin)) && s0.nextRequest !in s.pending
    ensures Alone(s0, LoadForLogin, right, "",
      if s.row.status != ACTIVE || AccessHasExpired(s.row.accessEnd, s.clock) then s.(row := FailedOnce(s.row, s.clock))
      else if IsLocked(s.row, s.clock) then s
      else At(s, s0.nextRequest, CheckPassword(s.row)))
  {
    hide Alone;
    NothingLogged(s);
    Continue(s0, LoadForLogin, s, LoadForLogin, right, "");
    if s.row.status != ACTIVE || AccessHasExpired(s.row.accessEnd, s.clock) {
      FailureCounted(s0, LoadForLogin, s, right, "");
    }
  }

  lemma LoginRefused(s0: State, s: State, right: bool, seen: Identity)
    requires Alone(s0, LoadForLogin, right, "", At(s, s0.nextRequest, CheckPassword(seen)))
    requires s0.nextRequest !in s.pending
    requires !right || (IsExternalReviewer(seen.roles) && !ReviewerAccessIsValid(seen.accessEnd, s.clock))
    ensures Alone(s0, LoadForLogin, right, "", s.(row := FailedOnce(s.row, s.clock)))
  {
    hide Alone;
    NothingLogged(s);
    Continue(s0, LoadForLogin, s, CheckPassword(seen), right, "");
    FailureCounted(s0, LoadForLogin, s, right, "");
  }

  lemma LoginOfReviewer(s0: State, s: State, seen: Identity)
    requires Alone(s0, LoadForLogin, true, "", At(s, s0.nextRequest, CheckPassword(seen)))
    requires s0.nextRequest !in s.pending
    requires IsExternalReviewer(seen.roles) && ReviewerAccessIsValid(seen.accessEnd, s.clock)
    ensures Alone(s0, LoadForLogin, true, "",
      SessionIssued(s.(row := Unlocked(s.row)), Some(ReviewerSession(s.clock, seen.accessEnd.value)), s.clock, None))
  {
    hide Alone;
    var clear := ClearForReviewer(seen.accessEnd.value);
    NothingLogged(s);
    Continue(s0, LoadForLogin, s, CheckPassword(seen), true, "");
    SessionStored(s0, LoadForLogin, s, true, "", clear, Over(s).(row := Unlocked(s.row)),
                  Some(ReviewerSession(s.clock, seen.accessEnd.value)), s.clock, None);
  }

  lemma LoginOfStaff(s0: State, s: State, seen: Identity)
    requires Alone(s0, LoadForLogin, true, "", At(s, s0.nextRequest, CheckPassword(seen)))
    requires s0.nextRequest !in s.pending
    requires !IsExternalReviewer(seen.roles)
    ensures Alone(s0, LoadForLogin, true, "",
      if seen.totpEnabled then s.(row := Unlocked(s.row), steps := s.steps + {MfaLogin(StepExp(s))})
      else s.(steps := s.steps + {EnrolProof(StepExp(s))}))
  {
    hide Alone;
    NothingLogged(s);
    Continue(s0, LoadForLogin, s, CheckPassword(seen), true, "");
    if seen.totpEnabled { Continue(s0, LoadForLogin, s, ClearForMfa, true, ""); }
  }

  // ---- enrol ----

  lemma EnrolLoaded(s0: State, s: State, enrol: Op)
    requires enrol.LoadForEnrol? && s0.nextRequest !in s.pending
    requires Alone(s0, enrol, true, "", At(s, s0.nextRequest, enrol))
    ensures Alone(s0, enrol, true, "",
      if s.row.status != ACTIVE || s.row.totpEnabled || IsLocked(s.row, s.clock) then s
      else if Trim(enrol.proof) == [] || |Trim(enrol.proof)| > PROOF_MAX_LENGTH then
        s.(row := FailedOnce(s.row, s.clock))
      else At(s, s0.nextRequest, LoadProof(Trim(enrol.proof))))
  {
    hide Alone;
    NothingLogged(s);
    Continue(s0, enrol, s, enrol, true, "");
    if OnLoadForEnrol(s, enrol.proof).next == Some(CountFailure) { FailureCounted(s0, enrol, s, true, ""); }
  }

  /** Whether a proof as given passes everything consume asks of it. */
  predicate ProofHolds(s: State, given: string) {
    && s.row.proof.Some?
    && s.row.proof.value.expiresAt > s.clock
    && Matches(given, s.row.proof.value.hash)
    && (s.row.proof.value.mark.Some? ==> s.password.Some? && Argon2(s.password.value) == s.row.proof.value.mark.value)
  }

  lemma ProofChecked(s0: State, s: State, enrol: Op, given: string)
    requires s0.nextRequest !in s.pending
    requires Alone(s0, enrol, true, "", At(s, s0.nextRequest, LoadProof(given)))
    ensures Alone(s0, enrol, true, "",
      if ProofHolds(s, given) then At(s, s0.nextRequest, SpendProof(s.row.proof.value.hash, s.clock))
      else s.(row := FailedOnce(s.row, s.clock)))
  {
    hide Alone;
    NothingLogged(s);
    Continue(s0, enrol, s, LoadProof(given), true, "");
    var o := OnLoadProof(s, given);
    if o.next.value.CheckMark? { Continue(s0, enrol, s, o.next.value, true, ""); }
    if !ProofHolds(s, given) { FailureCounted(s0, enrol, s, true, ""); }
  }

  /** Whether a proof as typed passes: trimmed, not empty nor too long, and the one kept. */
  predicate ProofGood(s: State, proof: string) {
    var given := Trim(proof);
    given != [] && |given| <= PROOF_MAX_LENGTH && ProofHolds(s, given)
  }

  lemma ProofTried(s0: State, s: State, enrol: Op)
    requires enrol.LoadForEnrol? && s0.nextRequest !in s.pending
    requires s.row.status == ACTIVE && !s.row.totpEnabled && !IsLocked(s.row, s.clock)
    requires Alone(s0, enrol, true, "", At(s, s0.nextRequest, enrol))
    ensures Alone(s0, enrol, true, "",
      if ProofGood(s, enrol.proof) then At(s, s0.nextRequest, SpendProof(s.row.proof.value.hash, s.clock))
      else s.(row := FailedOnce(s.row, s.clock)))
  {
    hide Alone, ProofHolds, Trim;
    EnrolLoaded(s0, s, enrol);
    var given := Trim(enrol.proof);
    if given != [] && |given| <= PROOF_MAX_LENGTH { ProofChecked(s0, s, enrol, given); }
  }

  function ProofGone(s: State, hash: Digest): State {
    s.(row := s.row.(proof := None), log := s.log + [Spent(hash, s.clock)])
  }

  /** A new secret stored and shown, with the token that names it. */
  function SecretShown(s: State, hash: Digest): State {
    s.(row := Unlocked(s.row).(secret := Some(s.nextSecret)),
       nextSecret := s.nextSecret + 1,
       steps := s.steps + {MfaSetup(s.nextSecret, StepExp(s))},
       log := s.log + [SecretStored(s.nextSecret, hash)])
  }

  lemma ProofSpent(s0: State, s: State, enrol: Op)
    requires s0.nextRequest !in s.pending && s.row.proof.Some? && s.row.proof.value.expiresAt > s.clock
    requires Alone(s0, enrol, true, "", At(s, s0.nextRequest, SpendProof(s.row.proof.value.hash, s.clock)))
    ensures var hash := s.row.proof.value.hash;
      Alone(s0, enrol, true, "", SecretShown(ProofGone(s, hash), hash))
  {
    hide Alone;
    var hash := s.row.proof.value.hash;
    Continue(s0, enrol, s, SpendProof(hash, s.clock), true, "");
    var s1 := After(s, OnSpendProof(s, hash, s.clock));
    Continue(s0, enrol, s1, StoreSecret(s.nextSecret, hash), true, "");
  }

  // ---- verifyMfa ----

  lemma MfaChecked(s0: State, s: State, verify: Op, right: bool)
    requires verify.LoadForVerify? && s0.nextRequest !in s.pending
    requires Alone(s0, verify, right, "", At(s, s0.nextRequest, verify))
    ensures Alone(s0, verify, right, "",
      if MfaRefused(s, verify.stepToken, right) then s
      else if verify.stepToken.MfaSetup? && !s.row.totpEnabled then
        SessionIssued(s.(row := s.row.(totpEnabled := true), log := s.log + [Enabled(s.row.secret.value)]),
                      None, s.clock, None)
      else SessionIssued(s, None, s.clock, None))
  {
    hide Alone;
    NothingLogged(s);
    var token := verify.stepToken;
    if MfaRefused(s, token, right) { Continue(s0, verify, s, verify, right, ""); }
    else if token.MfaSetup? && !s.row.totpEnabled {
      Continue(s0, verify, s, verify, right, "");
      var secret := s.row.secret.value;
      SessionStored(s0, verify, s, right, "", EnableTotp(secret, |s.log|),
                    Over(s).(row := s.row.(totpEnabled := true), events := [Enabled(secret)]), None, s.clock, None);
    } else {
      SessionStored(s0, verify, s, right, "", verify, Over(s), None, s.clock, None);
    }
  }

  predicate MfaRefused(s: State, token: StepToken, right: bool) {
    || s.row.secret.None?
    || s.row.status != ACTIVE
    || AccessHasExpired(s.row.accessEnd, s.clock)
    || IsExternalReviewer(s.row.roles)
    || (token.MfaSetup? && token.mark != s.row.secret.value)
    || !right
  }

  // ---- refresh ----

  lemma SessionFound(s0: State, s: State, token: RefreshToken)
    requires s0.nextRequest !in s.pending
    requires Alone(s0, FindSession(token), true, "", At(s, s0.nextRequest, FindSession(token)))
    ensures Alone(s0, FindSession(token), true, "",
      if token !in s.sessions then s
      else if s.sessions[token] < s.clock then s.(sessions := s.sessions - {token})
      else At(s.(sessions := s.sessions - {token}), s0.nextRequest, LoadForRenewal(token)))
  {
    hide Alone;
    NothingLogged(s);
    var find := FindSession(token);
    Continue(s0, find, s, find, true, "");
    if token in s.sessions {
      var dropIt := if s.sessions[token] < s.clock then DropExpired(token) else DropForRenewal(token);
      Continue(s0, find, s, dropIt, true, "");
    }
  }

  predicate RenewalRefused(s: State, token: RefreshToken) {
    || s.row.status != ACTIVE
    || AccessHasExpired(s.row.accessEnd, s.clock)
    || match token.claim
       case Reviewer(sst) =>
         || !IsExternalReviewer(s.row.roles)
         || !ReviewerAccessIsValid(s.row.accessEnd, s.clock)
         || sst * 1000 + REVIEWER_SESSION_MAX_MS <= s.clock
       case Mfa => !s.row.totpEnabled || IsExternalReviewer(s.row.roles)
  }

  function RenewedAs(s: State, token: RefreshToken): Option<ReviewerSession>
    requires !RenewalRefused(s, token)
  {
    if token.claim.Mfa? then None else Some(ReviewerSession(token.claim.sst * 1000, s.row.accessEnd.value))
  }

  lemma SessionRenewed(s0: State, s: State, token: RefreshToken)
    requires s0.nextRequest !in s.pending
    requires Alone(s0, FindSession(token), true, "", At(s, s0.nextRequest, LoadForRenewal(token)))
    ensures Alone(s0, FindSession(token), true, "",
      if RenewalRefused(s, token) then s
      else SessionIssued(s, RenewedAs(s, token), token.origin, Some(token)))
  {
    hide Alone;
    NothingLogged(s);
    var find := FindSession(token);
    if RenewalRefused(s, token) { Continue(s0, find, s, LoadForRenewal(token), true, ""); }
    else {
      SessionStored(s0, find, s, true, "", LoadForRenewal(token), Over(s),
                    RenewedAs(s, token), token.origin, Some(token));
    }
  }

  // ---- operators ----

  /** What an operator's link leaves: the proof sent to the staff email, tied to the password. */
  function LinkKept(s: State, text: string): State {
    var mark := if s.password.Some? then Some(Argon2(s.password.value)) else None;
    var expiresAt := s.clock + ENROLMENT_PROOF_TTL_MS;
    s.(row := s.row.(proof := Some(Proof(Sha256(text), expiresAt, mark))),
       log := s.log + [Kept(Sha256(text), s.clock, expiresAt)])
  }

  lemma LinkSent(s0: State, first: Op, s: State, text: string)
    requires s0.nextRequest !in s.pending && FreshProof(s, text)
    requires Alone(s0, first, true, text, At(s, s0.nextRequest, ReadForLink))
    ensures Alone(s0, first, true, text, LinkKept(s, text))
  {
    hide Alone;
    NothingLogged(s);
    Continue(s0, first, s, ReadForLink, true, text);
    Continue(s0, first, s, OnReadForLink(s).next.value, true, text);
  }

  /** The row and the sessions after a change of roles; no reviewer is left without an end in order. */
  function RolesSet(s: State, roles: seq<string>): State {
    var changes := IsExternalReviewer(s.row.roles) != IsExternalReviewer(roles);
    var end := if IsExternalReviewer(roles) && !ReviewerAccessIsValid(s.row.accessEnd, s.clock)
               then Some(s.clock + REVIEWER_ACCESS_DEFAULT_DAYS * DAY_MS) else s.row.accessEnd;
    s.(row := s.row.(roles := roles, accessEnd := end), sessions := if changes then map[] else s.sessions)
  }

  predicate RolesSendLink(row: Identity, roles: seq<string>) {
    IsExternalReviewer(row.roles) && !IsExternalReviewer(roles) && !row.totpEnabled
  }

  lemma RolesMayBegin(s: State, roles: seq<string>)
    requires ValidRoleIds(roles)
    ensures MayBegin(s, LoadForRoles(roles))
  {
  }

  lemma RolesReplaced(s0: State, s: State, roles: seq<string>, text: string)
    requires s0.nextRequest !in s.pending && FreshProof(s, text)
    requires Alone(s0, LoadForRoles(roles), true, text, At(s, s0.nextRequest, LoadForRoles(roles)))
    ensures Alone(s0, LoadForRoles(roles), true, text,
      if RolesSendLink(s.row, roles) then LinkKept(RolesSet(s, roles), text) else RolesSet(s, roles))
  {
    hide Alone, Effect;
    NothingLogged(s);
    OperatorEffect(s, LoadForRoles(roles), true, text);
    Continue(s0, LoadForRoles(roles), s, LoadForRoles(roles), true, text);
    var write := OnLoadForRoles(s, roles).next.value;
    OperatorEffect(s, write, true, text);
    Continue(s0, LoadForRoles(roles), s, write, true, text);
    var o := OnWriteRoles(s, roles, write.newEnd, write.dropSessions);
    assert After(s, o) == RolesSet(s, roles);
    hide RolesSet;
    if o.next.Some? { LinkSent(s0, LoadForRoles(roles), After(s, o), text); }
  }

  lemma EndSet(s0: State, s: State, asked: Option<int>)
    requires s0.nextRequest !in s.pending
    requires Alone(s0, LoadForEnd(asked), true, "", At(s, s0.nextRequest, LoadForEnd(asked)))
    ensures Alone(s0, LoadForEnd(asked), true, "",
      if OnLoadForEnd(s, asked).next.Some? then s.(row := s.row.(accessEnd := asked)) else s)
  {
    hide Alone, Effect;
    NothingLogged(s);
    OperatorEffect(s, LoadForEnd(asked), true, "");
    OperatorEffect(s, WriteEnd(asked), true, "");
    Continue(s0, LoadForEnd(asked), s, LoadForEnd(asked), true, "");
    if OnLoadForEnd(s, asked).next.Some? { Continue(s0, LoadForEnd(asked), s, WriteEnd(asked), true, ""); }
  }

  lemma StatusSet(s0: State, s: State, status: Status)
    requires s0.nextRequest !in s.pending
    requires Alone(s0, WriteStatus(status), true, "", At(s, s0.nextRequest, WriteStatus(status)))
    ensures Alone(s0, WriteStatus(status), true, "",
      if status == DISABLED then s.(row := Unlocked(s.row).(status := status), sessions := map[])
      else s.(row := s.row.(status := status)))
  {
    hide Alone;
    NothingLogged(s);
    Continue(s0, WriteStatus(status), s, WriteStatus(status), true, "");
    if status == DISABLED {
      Continue(s0, WriteStatus(status), s.(row := Unlocked(s.row).(status := status)), DropAll(false), true, "");
    }
  }

  lemma AuthenticatorReset(s0: State, s: State, text: string)
    requires s0.nextRequest !in s.pending && FreshProof(s, text)
    requires Alone(s0, ResetAuthenticator, true, text, At(s, s0.nextRequest, ResetAuthenticator))
    ensures Alone(s0, ResetAuthenticator, true, text,
      LinkKept(s.(row := s.row.(secret := None, totpEnabled := false, proof := None),
                  sessions := map[], log := s.log + [Reset]), text))
  {
    hide Alone;
    Continue(s0, ResetAuthenticator, s, ResetAuthenticator, true, text);
    var s1 := After(s, OnResetAuthenticator(s));
    NothingLogged(s1);
    Continue(s0, ResetAuthenticator, s1, DropAll(true), true, text);
    LinkSent(s0, ResetAuthenticator, s1.(sessions := map[]), text);
  }

  datatype Answer =
    | Refused
    | Locked
    | MfaRequired(stepToken: StepToken)
    | EnrolmentProofRequired(stepToken: StepToken)
    | SetupRequired(secret: nat, stepToken: StepToken)
    | SignedIn(token: RefreshToken)

  /** The end of access asked for: none, a text that is no date, or a time. */
  datatype EndAsked = NoEnd | Unreadable | EndsAt(end: int)

  function EndOfAsked(asked: EndAsked): Option<int> {
    if asked.EndsAt? then Some(asked.end) else None
  }

  predicate EndMayBe(row: Identity, now: int, own: bool, asked: EndAsked) {
    && !own
    && match asked
       case NoEnd => !IsExternalReviewer(row.roles)
       case Unreadable => false
       case EndsAt(end) => end > now && (IsExternalReviewer(row.roles) ==> end <= ReviewerAccessLatestEnd(now))
  }

  class StaffPanel {
    var clock: int
    var row: Identity
    var password: Option<string>
    var sessions: map<RefreshToken, int>
    var signed: set<RefreshToken>
    var steps: set<StepToken>
    var nextJti: nat
    var nextSecret: nat
    ghost var pending: map<nat, Op>
    ghost var nextRequest: nat
    ghost var log: seq<Event>

    ghost predicate Valid()
      reads this
    {
      forall r <- pending :: r < nextRequest
    }

    ghost function Now(): State
      reads this
    {
      State(clock, row, password, sessions, signed, steps, pending, nextRequest, nextJti, nextSecret, log)
    }

    constructor (clock: int, roles: seq<string>, accessEnd: Option<int>, password: Option<string>)
      requires ValidRoleIds(roles) && (IsExternalReviewer(roles) ==> ReviewerAccessIsValid(accessEnd, clock))
      ensures Valid() && Initial(Now())
      ensures this.clock == clock && row.roles == roles && row.accessEnd == accessEnd && this.password == password
    {
      this.clock := clock;
      this.row := Identity(ACTIVE, roles, accessEnd, 0, None, None, false, None);
      this.password := password;
      this.sessions, this.signed, this.steps := map[], {}, {};
      this.nextJti, this.nextSecret := 0, 0;
      this.pending, this.nextRequest, this.log := map[], 0, [];
    }

    method CountFailed()
      modifies this`row
      ensures row == FailedOnce(old(row), clock)
    {
      row := row.(failed := row.failed + 1);
      if row.failed >= LOCKOUT_THRESHOLD {
        row := row.(lockedUntil := Some(clock + LOCKOUT_MS));
      }
    }

    /** issueSession: signs a token and stores its row. */
    method IssueSession(reviewer: Option<ReviewerSession>, origin: int, parent: Option<RefreshToken>)
      returns (token: RefreshToken)
      modifies this`signed, this`nextJti, this`sessions, this`log
      ensures Now() == SessionIssued(old(Now()), reviewer, origin, parent)
      ensures token == NewToken(old(Now()), reviewer, origin)
    {
      var ttl := RefreshTtl(clock, reviewer);
      var claim := if reviewer.Some? then Reviewer(Seconds(reviewer.value.startedAt)) else Mfa;
      token := RefreshToken(nextJti, claim, Seconds(clock) + CeilSeconds(ttl), origin);
      log := log + [Issued(token, parent, clock, EndOf(reviewer), clock + ttl)];
      signed, nextJti := signed + {token}, nextJti + 1;
      sessions := sessions[token := clock + ttl];
    }


    method Login(right: bool) returns (answer: Answer)
      requires Valid()
      modifies this
      ensures Valid() && pending == old(pending) && Alone(old(Now()), LoadForLogin, right, "", Now())
      ensures answer.SignedIn? ==> right && answer.token in sessions && answer.token.claim.Reviewer?
      ensures answer.MfaRequired? ==> right && row.totpEnabled && row.failed == 0
      ensures answer.EnrolmentProofRequired? ==> right && row == old(row) && !row.totpEnabled
      ensures answer.Locked? ==> row == old(row)
    {
      hide Alone;
      ghost var s0 := Now();
      nextRequest := nextRequest + 1;
      Starts(s0, LoadForLogin, right, "");
      LoginLoaded(s0, Now(), right);
      var admin := row;
      if admin.status != ACTIVE || AccessHasExpired(admin.accessEnd, clock) {
        CountFailed();
        return Refused;
      }
      if IsLocked(admin, clock) {
        return Locked;
      }
      if !right || (IsExternalReviewer(admin.roles) && !ReviewerAccessIsValid(admin.accessEnd, clock)) {
        LoginRefused(s0, Now(), right, admin);
        CountFailed();
        return Refused;
      }
      if IsExternalReviewer(admin.roles) {
        LoginOfReviewer(s0, Now(), admin);
        row := Unlocked(row);
        var token := IssueSession(Some(ReviewerSession(clock, admin.accessEnd.value)), clock, None);
        return SignedIn(token);
      }
      LoginOfStaff(s0, Now(), admin);
      if admin.totpEnabled {
        row := Unlocked(row);
        var mfa := MfaLogin(Seconds(clock) + STEP_TOKEN_TTL_SEC);
        steps := steps + {mfa};
        return MfaRequired(mfa);
      }
      var enrol := EnrolProof(Seconds(clock) + STEP_TOKEN_TTL_SEC);
      steps := steps + {enrol};
      return EnrolmentProofRequired(enrol);
    }

    /** Uses up the proof given, if it is good. */
    method Consume(proof: string) returns (ok: bool)
      modifies this`row, this`log
      ensures ok <==> ProofGood(old(Now()), proof)
      ensures ok ==> old(row).proof.Some? && old(row).proof.value.expiresAt > clock
      ensures ok ==> Now() == ProofGone(old(Now()), old(row).proof.value.hash)
      ensures !ok ==> Now() == old(Now())
    {
      hide Trim;
      var given := Trim(proof);
      if given == [] || |given| > PROOF_MAX_LENGTH { return false; }
      var kept := row.proof;
      if kept.None? || kept.value.expiresAt <= clock || !Matches(given, kept.value.hash) { return false; }
      if kept.value.mark.Some? {
        if password.None? || Argon2(password.value) != kept.value.mark.value { return false; }
      }
      log := log + [Spent(kept.value.hash, clock)];
      row := row.(proof := None);
      return true;
    }

    method Enrol(token: StepToken, proof: string) returns (answer: Answer)
      requires Valid()
      modifies this
      ensures Valid() && pending == old(pending)
      ensures MayBegin(old(Now()), LoadForEnrol(token, proof))
              ==> Alone(old(Now()), LoadForEnrol(token, proof), true, "", Now())
      ensures !MayBegin(old(Now()), LoadForEnrol(token, proof)) ==> answer == Refused && Now() == old(Now())
      ensures answer.SetupRequired? ==>
        && row.secret == Some(answer.secret) && answer.secret == old(nextSecret)
        && old(row).proof.Some? && row.proof.None? && row.failed == 0
    {
      hide Alone, ProofGood;
      if token !in steps || !token.EnrolProof? || Seconds(clock) >= token.exp { return Refused; }
      ghost var s0 := Now();
      nextRequest := nextRequest + 1;
      ghost var s := Now();
      ghost var enrol := LoadForEnrol(token, proof);
      Starts(s0, enrol, true, "");
      if row.status != ACTIVE || row.totpEnabled || IsLocked(row, clock) { EnrolLoaded(s0, s, enrol); }
      if row.status != ACTIVE || row.totpEnabled { return Refused; }
      if IsLocked(row, clock) { return Locked; }
      ProofTried(s0, s, enrol);
      var ok := Consume(proof);
      if !ok {
        CountFailed();
        return Refused;
      }
      ProofSpent(s0, s, enrol);
      answer := ShowSecret(s.row.proof.value.hash);
    }

    method ShowSecret(ghost hash: Digest) returns (answer: Answer)
      modifies this`row, this`nextSecret, this`steps, this`log
      ensures Now() == SecretShown(old(Now()), hash)
      ensures answer == SetupRequired(old(nextSecret), MfaSetup(old(nextSecret), StepExp(old(Now()))))
    {
      log := log + [SecretStored(nextSecret, hash)];
      var secret := nextSecret;
      nextSecret := nextSecret + 1;
      row := Unlocked(row).(secret := Some(secret));
      var setup := MfaSetup(secret, Seconds(clock) + STEP_TOKEN_TTL_SEC);
      steps := steps + {setup};
      return SetupRequired(secret, setup);
    }

    method VerifyMfa(token: StepToken, right: bool) returns (answer: Answer)
      requires Valid()
      modifies this
      ensures Valid() && pending == old(pending)
      ensures MayBegin(old(Now()), LoadForVerify(token)) ==> Alone(old(Now()), LoadForVerify(token), right, "", Now())
      ensures !MayBegin(old(Now()), LoadForVerify(token)) ==> answer == Refused && Now() == old(Now())
      ensures answer.SignedIn? ==> right && answer.token in sessions && answer.token.claim.Mfa?
      ensures row.totpEnabled && !old(row).totpEnabled ==> token.MfaSetup? && old(row).secret == Some(token.mark)
    {
      hide Alone;
      if token !in steps || token.EnrolProof? || Seconds(clock) >= token.exp { return Refused; }
      ghost var s0 := Now();
      nextRequest := nextRequest + 1;
      ghost var verify := LoadForVerify(token);
      Starts(s0, verify, right, "");
      MfaChecked(s0, Now(), verify, right);
      if row.secret.None? || row.status != ACTIVE || AccessHasExpired(row.accessEnd, clock)
         || IsExternalReviewer(row.roles)
      {
        return Refused;
      }
      if token.MfaSetup? && token.mark != row.secret.value { return Refused; }
      if !right { return Refused; }
      if token.MfaSetup? && !row.totpEnabled {
        log := log + [Enabled(row.secret.value)];
        row := row.(totpEnabled := true);
      }
      var issued := IssueSession(None, clock, None);
      return SignedIn(issued);
    }

    method Refresh(token: RefreshToken) returns (answer: Answer)
      requires Valid()
      modifies this
      ensures Valid() && pending == old(pending) && row == old(row)
      ensures MayBegin(old(Now()), FindSession(token)) ==> Alone(old(Now()), FindSession(token), true, "", Now())
      ensures !MayBegin(old(Now()), FindSession(token)) ==> answer == Refused && Now() == old(Now())
      ensures answer.SignedIn? ==> token in old(sessions) && answer.token.origin == token.origin
    {
      hide Alone;
      if token !in signed || Seconds(clock) >= token.exp { return Refused; }
      ghost var s0 := Now();
      nextRequest := nextRequest + 1;
      Starts(s0, FindSession(token), true, "");
      SessionFound(s0, Now(), token);
      if token !in sessions { return Refused; }
      var expired := sessions[token] < clock;
      sessions := sessions - {token};
      if expired { return Refused; }
      SessionRenewed(s0, Now(), token);
      if row.status != ACTIVE || AccessHasExpired(row.accessEnd, clock) { return Refused; }
      if token.claim.Reviewer? {
        var startedAt := token.claim.sst * 1000;
        if !IsExternalReviewer(row.roles) || !ReviewerAccessIsValid(row.accessEnd, clock)
           || startedAt + REVIEWER_SESSION_MAX_MS <= clock
        {
          return Refused;
        }
        var renewed := IssueSession(Some(ReviewerSession(startedAt, row.accessEnd.value)), token.origin, Some(token));
        return SignedIn(renewed);
      }
      if !row.totpEnabled || IsExternalReviewer(row.roles) { return Refused; }
      var renewed := IssueSession(None, token.origin, Some(token));
      return SignedIn(renewed);
    }

    /** The end of a reviewer is never missing nor beyond the maximum. */
    predicate ReviewerEndOk()
      reads this`row, this`clock
    {
      IsExternalReviewer(row.roles) ==>
        row.accessEnd.Some? && row.accessEnd.value <= ReviewerAccessLatestEnd(clock)
    }

    method SendLink(text: string)
      modifies this`row, this`log
      ensures Now() == LinkKept(old(Now()), text)
    {
      var mark := if password.Some? then Some(Argon2(password.value)) else None;
      log := log + [Kept(Sha256(text), clock, clock + ENROLMENT_PROOF_TTL_MS)];
      row := row.(proof := Some(Proof(Sha256(text), clock + ENROLMENT_PROOF_TTL_MS, mark)));
    }

    /** Run alone, a change of roles leaves a reviewer with an end in order, whatever it was. */
    method ReplaceRoles(roles: seq<string>, text: string) returns (done: bool)
      requires Valid() && FreshProof(Now(), text)
      modifies this
      ensures Valid() && pending == old(pending)
      ensures done <==> ValidRoleIds(roles)
      ensures !done ==> Now() == old(Now())
      ensures done ==> Alone(old(Now()), LoadForRoles(roles), true, text, Now())
      ensures done ==> row.roles == roles && ReviewerEndOk()
      ensures done && IsExternalReviewer(old(row).roles) != IsExternalReviewer(roles) ==> sessions == map[]
    {
      hide Alone, MayBegin;
      if !ValidRoleIds(roles) { return false; }
      done := true;
      ghost var s0 := Now();
      nextRequest := nextRequest + 1;
      RolesMayBegin(s0, roles);
      Starts(s0, LoadForRoles(roles), true, text);
      ghost var s1 := Now();
      RolesReplaced(s0, s1, roles, text);
      var wasReviewer, reviewer := IsExternalReviewer(row.roles), IsExternalReviewer(roles);
      var keepsEnd := row.accessEnd.Some? && row.accessEnd.value > clock
                      && row.accessEnd.value <= ReviewerAccessLatestEnd(clock);
      var end := if reviewer && !keepsEnd then Some(clock + REVIEWER_ACCESS_DEFAULT_DAYS * DAY_MS) else row.accessEnd;
      row := row.(roles := roles, accessEnd := end);
      if wasReviewer != reviewer { sessions := map[]; }
      assert Now() == RolesSet(s1, roles);
      if wasReviewer && !reviewer && !row.totpEnabled { SendLink(text); }
    }

    /** Run alone, a change of the end keeps a reviewer's end in order. `own`: an operator's own end. */
    method SetAccessExpiry(own: bool, asked: EndAsked) returns (done: bool)
      requires Valid()
      modifies this
      ensures Valid() && pending == old(pending)
      ensures own || asked.Unreadable? ==> !done && Now() == old(Now())
      ensures !own && !asked.Unreadable? ==> Alone(old(Now()), LoadForEnd(EndOfAsked(asked)), true, "", Now())
      ensures done <==> EndMayBe(old(row), old(clock), own, asked)
      ensures row == if done then old(row).(accessEnd := EndOfAsked(asked)) else old(row)
      ensures old(ReviewerEndOk()) ==> ReviewerEndOk()
    {
      hide Alone;
      if own || asked.Unreadable? { return false; }
      ghost var s0 := Now();
      nextRequest := nextRequest + 1;
      var end := EndOfAsked(asked);
      Starts(s0, LoadForEnd(end), true, "");
      EndSet(s0, Now(), end);
      var reviewer := IsExternalReviewer(row.roles);
      if reviewer && end.None? { return false; }
      if end.Some? && (end.value <= clock || (reviewer && end.value > ReviewerAccessLatestEnd(clock))) { return false; }
      row := row.(accessEnd := end);
      return true;
    }

    method UpdateStatus(own: bool, status: Status) returns (done: bool)
      requires Valid()
      modifies this
      ensures Valid() && pending == old(pending)
      ensures done <==> !(own && status == DISABLED)
      ensures !done ==> Now() == old(Now())
      ensures done ==> row.status == status && Alone(old(Now()), WriteStatus(status), true, "", Now())
      ensures done && status == DISABLED ==> sessions == map[]
    {
      hide Alone;
      if own && status == DISABLED { return false; }
      done := true;
      ghost var s0 := Now();
      nextRequest := nextRequest + 1;
      Starts(s0, WriteStatus(status), true, "");
      StatusSet(s0, Now(), status);
      row := row.(status := status);
      if status == DISABLED {
        row := Unlocked(row);
        sessions := map[];
      }
    }

    method ResetMfa(text: string)
      requires Valid() && FreshProof(Now(), text)
      modifies this
      ensures Valid() && pending == old(pending)
      ensures Alone(old(Now()), ResetAuthenticator, true, text, Now())
      ensures row.secret.None? && !row.totpEnabled && sessions == map[]
    {
      hide Alone;
      ghost var s0 := Now();
      nextRequest := nextRequest + 1;
      Starts(s0, ResetAuthenticator, true, text);
      AuthenticatorReset(s0, Now(), text);
      log := log + [Reset];
      row := row.(secret := None, totpEnabled := false, proof := None);
      sessions := map[];
      SendLink(text);
    }
  }
}

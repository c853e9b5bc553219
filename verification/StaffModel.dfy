/** One staff identity of the panel, everything stored about it, and the requests about it that
    are under way.

    A request of the service is a chain of awaited calls. What is kept of a request between two
    of them is the call it is waiting for (an `Op`). A step lets one waiting call happen, runs the
    code after it up to the next awaited call, and leaves the request waiting for that one. Steps
    of different requests may follow each other in any order, so a run of steps is an interleaving
    of the requests. The clock does not move inside a step.

    Every query of the modelled methods names one identity, so identities do not meet and one is
    enough. Random values (token ids, secrets, proofs) are fresh, digests are injective, and only
    tokens that were signed verify. Times are milliseconds; token expiries are whole seconds. */
module StaffModel {
  import opened Optional
  import opened JsString

  const LOCKOUT_THRESHOLD: nat := 5
  const LOCKOUT_MS: int := 15 * 60 * 1000
  const STEP_TOKEN_TTL_SEC: int := 5 * 60
  const REFRESH_TTL_MS: int := 8 * 60 * 60 * 1000
  const REVIEWER_SESSION_MAX_MS: int := 8 * 60 * 60 * 1000
  const DAY_MS: int := 24 * 60 * 60 * 1000
  const REVIEWER_ACCESS_DEFAULT_DAYS: int := 30
  const REVIEWER_ACCESS_MAX_DAYS: int := 90
  const ENROLMENT_PROOF_TTL_MS: int := 24 * 60 * 60 * 1000
  const PROOF_MAX_LENGTH: nat := 200

  const REVIEWER_ROLE: string := "arole_external_reviewer"
  const KNOWN_ROLE_IDS: set<string> :=
    {"arole_super", "arole_platform", "arole_moderation", "arole_support", "arole_finance",
     "arole_content", "arole_security", "arole_analytics", REVIEWER_ROLE}

  datatype Status = ACTIVE | DISABLED

  datatype Digest = Sha256(text: string)

  datatype PasswordMark = Argon2(stored: string)

  /** The stored proof to enrol: its digest, its end and, for a link, the mark of the password. */
  datatype Proof = Proof(hash: Digest, expiresAt: int, mark: Option<PasswordMark>)

  /** The stored row of the identity. A secret is known by a number, each drawn once. */
  datatype Identity = Identity(
    status: Status,
    roles: seq<string>,
    accessEnd: Option<int>,
    failed: nat,
    lockedUntil: Option<int>,
    secret: Option<nat>,
    totpEnabled: bool,
    proof: Option<Proof>)

  datatype Claim = Mfa | Reviewer(sst: int)

  /** A signed refresh token. `origin` is not in the token: it records, for the theorems only,
      the moment of the sign-in that opened the session. */
  datatype RefreshToken = RefreshToken(jti: nat, claim: Claim, exp: int, origin: int)

  /** The short tokens between the steps of a sign-in. A setup token names its secret. */
  datatype StepToken =
    | EnrolProof(exp: int)
    | MfaLogin(exp: int)
    | MfaSetup(mark: nat, exp: int)

  /** The awaited call a request is waiting for, with what the request already knows. */
  datatype Op =
    // login
    | LoadForLogin
    | CheckPassword(seen: Identity)
    | CountFailure
    | SetLock(until: int)
    | ClearForReviewer(end: int)
    | ClearForMfa
    // enrol
    | LoadForEnrol(enrolToken: StepToken, proof: string)
    | LoadProof(given: string)
    | CheckMark(hash: Digest, mark: PasswordMark)
    | SpendProof(hash: Digest, before: int)
    | StoreSecret(secret: nat, hash: Digest)
    // verifyMfa; `readAt` records how much had happened when the row was read
    | LoadForVerify(stepToken: StepToken)
    | EnableTotp(secret: nat, readAt: nat)
    // sessions
    | StoreSession(token: RefreshToken, expiresAt: int)
    | FindSession(token: RefreshToken)
    | DropExpired(token: RefreshToken)
    | DropForRenewal(token: RefreshToken)
    | LoadForRenewal(token: RefreshToken)
    | DropOne(token: RefreshToken)
    | DropAll(thenLink: bool)
    // operators
    | LoadForRoles(roles: seq<string>)
    | WriteRoles(roles: seq<string>, newEnd: Option<int>, dropSessions: bool)
    | LoadForEnd(asked: Option<int>)
    | WriteEnd(newEnd: Option<int>)
    | WriteStatus(status: Status)
    | ResetAuthenticator
    | Unlock
    | LoadForLink
    | LoadForCode
    | ReadForLink
    | KeepProof(expiresAt: int, keptMark: Option<PasswordMark>)

  /** What happened, in order; it exists for the theorems only. */
  datatype Event =
    | Kept(hash: Digest, at: int, until: int)
    | Spent(hash: Digest, before: int)
    | SecretStored(secret: nat, hash: Digest)
    | Reset
    | Enabled(secret: nat)
    | Issued(token: RefreshToken, parent: Option<RefreshToken>, at: int, accessEnd: Option<int>, expiresAt: int)

  datatype State = State(
    clock: int,
    row: Identity,
    password: Option<string>,
    sessions: map<RefreshToken, int>,
    signed: set<RefreshToken>,
    steps: set<StepToken>,
    pending: map<nat, Op>,
    nextRequest: nat,
    nextJti: nat,
    nextSecret: nat,
    log: seq<Event>)

  /** A step: time passes, the person changes their sign-in password, a request arrives, or a
      waiting call happens. `right` is the answer of what is not modelled (is the password right,
      is the one-time code right) and `text` the random text of a new proof. */
  datatype Action =
    | Tick(ms: nat)
    | ChangePassword(stored: Option<string>)
    | Begin(op: Op)
    | Advance(request: nat, right: bool, text: string)

  // ---- the rules of external-reviewer.ts and of the operators ----

  predicate IsExternalReviewer(roles: seq<string>) {
    |roles| == 1 && roles[0] == REVIEWER_ROLE
  }

  predicate AccessHasExpired(end: Option<int>, now: int) {
    end.Some? && end.value <= now
  }

  function ReviewerAccessLatestEnd(now: int): int {
    now + REVIEWER_ACCESS_MAX_DAYS * DAY_MS
  }

  predicate ReviewerAccessIsValid(end: Option<int>, now: int) {
    end.Some? && !AccessHasExpired(end, now) && end.value <= ReviewerAccessLatestEnd(now)
  }

  predicate ValidRoleIds(roles: seq<string>) {
    && roles != []
    && (forall role <- roles :: role in KNOWN_ROLE_IDS)
    && (REVIEWER_ROLE in roles ==> |roles| == 1)
  }

  predicate IsLocked(row: Identity, now: int) {
    row.lockedUntil.Some? && row.lockedUntil.value > now
  }

  // ---- proofs as they are typed ----

  /** Upper case, without spaces and dashes. */
  function NormaliseCode(s: string): string {
    if s == [] then []
    else if IsBlank(s[0]) || s[0] == '-' then NormaliseCode(s[1..])
    else [Upper(s[0])] + NormaliseCode(s[1..])
  }

  predicate Matches(given: string, kept: Digest) {
    kept == Sha256(given) || kept == Sha256(NormaliseCode(given))
  }

  // ---- steps ----

  function Seconds(ms: int): int {
    ms / 1000
  }

  function CeilSeconds(ms: int): int {
    -((-ms) / 1000)
  }

  function Min(a: int, b: int): int {
    if a < b then a else b
  }

  /** What one step does: the row and the sessions it leaves, the tokens it signs, the call the
      request waits for next (none when the request is over) and what is written in the log. */
  datatype Outcome = Outcome(
    row: Identity,
    sessions: map<RefreshToken, int>,
    token: Option<RefreshToken>,
    stepToken: Option<StepToken>,
    drawsSecret: bool,
    next: Option<Op>,
    events: seq<Event>)

  function Over(s: State): Outcome {
    Outcome(s.row, s.sessions, None, None, false, None, [])
  }

  function Then(s: State, op: Op): Outcome {
    Over(s).(next := Some(op))
  }

  function Unlocked(row: Identity): Identity {
    row.(failed := 0, lockedUntil := None)
  }

  function StepExp(s: State): int {
    Seconds(s.clock) + STEP_TOKEN_TTL_SEC
  }

  datatype ReviewerSession = ReviewerSession(startedAt: int, accessEnd: int)

  function RefreshTtl(now: int, reviewer: Option<ReviewerSession>): int {
    match reviewer
    case None => REFRESH_TTL_MS
    case Some(session) =>
      Min(REFRESH_TTL_MS,
          Min(session.startedAt + REVIEWER_SESSION_MAX_MS - now, session.accessEnd - now))
  }

  function NewToken(s: State, reviewer: Option<ReviewerSession>, origin: int): RefreshToken {
    RefreshToken(
      s.nextJti,
      if reviewer.Some? then Reviewer(Seconds(reviewer.value.startedAt)) else Mfa,
      Seconds(s.clock) + CeilSeconds(RefreshTtl(s.clock, reviewer)),
      origin)
  }

  /** issueSession up to the insert of the new row, after what `o` did. */
  function Issue(s: State, o: Outcome, reviewer: Option<ReviewerSession>, origin: int,
                 parent: Option<RefreshToken>): Outcome {
    var expiresAt := s.clock + RefreshTtl(s.clock, reviewer);
    var token := NewToken(s, reviewer, origin);
    var end := if reviewer.Some? then Some(reviewer.value.accessEnd) else None;
    o.(token := Some(token),
       next := Some(StoreSession(token, expiresAt)),
       events := o.events + [Issued(token, parent, s.clock, end, expiresAt)])
  }

  function OnLoadForLogin(s: State): Outcome {
    if s.row.status != ACTIVE || AccessHasExpired(s.row.accessEnd, s.clock) then Then(s, CountFailure)
    else if IsLocked(s.row, s.clock) then Over(s)
    else Then(s, CheckPassword(s.row))
  }

  function OnCheckPassword(s: State, seen: Identity, right: bool): Outcome {
    if !right then Then(s, CountFailure)
    else if IsExternalReviewer(seen.roles) then
      if ReviewerAccessIsValid(seen.accessEnd, s.clock) then Then(s, ClearForReviewer(seen.accessEnd.value))
      else Then(s, CountFailure)
    else if seen.totpEnabled then Then(s, ClearForMfa)
    else Over(s).(stepToken := Some(EnrolProof(StepExp(s))))
  }

  function OnCountFailure(s: State): Outcome {
    var row := s.row.(failed := s.row.failed + 1);
    Over(s).(row := row,
             next := if row.failed >= LOCKOUT_THRESHOLD then Some(SetLock(s.clock + LOCKOUT_MS)) else None)
  }

  function OnSetLock(s: State, until: int): Outcome {
    Over(s).(row := s.row.(lockedUntil := Some(until)))
  }

  function OnClearForReviewer(s: State, end: int): Outcome {
    Issue(s, Over(s).(row := Unlocked(s.row)), Some(ReviewerSession(s.clock, end)), s.clock, None)
  }

  function OnClearForMfa(s: State): Outcome {
    Over(s).(row := Unlocked(s.row), stepToken := Some(MfaLogin(StepExp(s))))
  }

  function OnLoadForEnrol(s: State, proof: string): Outcome {
    if s.row.status != ACTIVE || s.row.totpEnabled || IsLocked(s.row, s.clock) then Over(s)
    else
      var given := Trim(proof);
      if given == [] || |given| > PROOF_MAX_LENGTH then Then(s, CountFailure)
      else Then(s, LoadProof(given))
  }

  function OnLoadProof(s: State, given: string): Outcome {
    match s.row.proof
    case None => Then(s, CountFailure)
    case Some(kept) =>
      if kept.expiresAt <= s.clock || !Matches(given, kept.hash) then Then(s, CountFailure)
      else if kept.mark.Some? then Then(s, CheckMark(kept.hash, kept.mark.value))
      else Then(s, SpendProof(kept.hash, s.clock))
  }

  function OnCheckMark(s: State, hash: Digest, mark: PasswordMark): Outcome {
    if s.password.Some? && Argon2(s.password.value) == mark then Then(s, SpendProof(hash, s.clock))
    else Then(s, CountFailure)
  }

  predicate StillKept(row: Identity, hash: Digest, before: int) {
    row.proof.Some? && row.proof.value.hash == hash && row.proof.value.expiresAt > before
  }

  /** The conditional update: the proof is cleared only if it is still the one that matched. */
  function OnSpendProof(s: State, hash: Digest, before: int): Outcome {
    if StillKept(s.row, hash, before) then
      Over(s).(row := s.row.(proof := None),
               drawsSecret := true,
               next := Some(StoreSecret(s.nextSecret, hash)),
               events := [Spent(hash, before)])
    else Then(s, CountFailure)
  }

  function OnStoreSecret(s: State, secret: nat, hash: Digest): Outcome {
    Over(s).(row := Unlocked(s.row).(secret := Some(secret)),
             stepToken := Some(MfaSetup(secret, StepExp(s))),
             events := [SecretStored(secret, hash)])
  }

  function OnLoadForVerify(s: State, token: StepToken, right: bool): Outcome {
    if || s.row.secret.None?
       || s.row.status != ACTIVE
       || AccessHasExpired(s.row.accessEnd, s.clock)
       || IsExternalReviewer(s.row.roles)
       || (token.MfaSetup? && token.mark != s.row.secret.value)
       || !right
    then Over(s)
    else if token.MfaSetup? && !s.row.totpEnabled then Then(s, EnableTotp(s.row.secret.value, |s.log|))
    else Issue(s, Over(s), None, s.clock, None)
  }

  /** The update names the identity only: it sets the flag whatever the row holds by now. */
  function OnEnableTotp(s: State, secret: nat): Outcome {
    Issue(s, Over(s).(row := s.row.(totpEnabled := true), events := [Enabled(secret)]), None, s.clock, None)
  }

  function OnStoreSession(s: State, token: RefreshToken, expiresAt: int): Outcome {
    Over(s).(sessions := s.sessions[token := expiresAt])
  }

  function OnFindSession(s: State, token: RefreshToken): Outcome {
    if token !in s.sessions then Over(s)
    else if s.sessions[token] < s.clock then Then(s, DropExpired(token))
    else Then(s, DropForRenewal(token))
  }

  function OnDropOne(s: State, token: RefreshToken): Outcome {
    Over(s).(sessions := s.sessions - {token})
  }

  /** Deleting a row that is gone fails, and the request with it. */
  function OnDropForRenewal(s: State, token: RefreshToken): Outcome {
    if token !in s.sessions then Over(s)
    else OnDropOne(s, token).(next := Some(LoadForRenewal(token)))
  }

  function OnLoadForRenewal(s: State, token: RefreshToken): Outcome {
    if s.row.status != ACTIVE || AccessHasExpired(s.row.accessEnd, s.clock) then Over(s)
    else match token.claim
      case Reviewer(sst) =>
        var startedAt := sst * 1000;
        if || !IsExternalReviewer(s.row.roles)
           || !ReviewerAccessIsValid(s.row.accessEnd, s.clock)
           || startedAt + REVIEWER_SESSION_MAX_MS <= s.clock
        then Over(s)
        else Issue(s, Over(s), Some(ReviewerSession(startedAt, s.row.accessEnd.value)), token.origin, Some(token))
      case Mfa =>
        if !s.row.totpEnabled || IsExternalReviewer(s.row.roles) then Over(s)
        else Issue(s, Over(s), None, token.origin, Some(token))
  }

  function OnDropAll(s: State, thenLink: bool): Outcome {
    Over(s).(sessions := map[], next := if thenLink then Some(ReadForLink) else None)
  }

  function OnLoadForRoles(s: State, roles: seq<string>): Outcome {
    var reviewer := IsExternalReviewer(roles);
    var keepsEnd := ReviewerAccessIsValid(s.row.accessEnd, s.clock);
    var end := if reviewer && !keepsEnd then Some(s.clock + REVIEWER_ACCESS_DEFAULT_DAYS * DAY_MS)
               else s.row.accessEnd;
    Then(s, WriteRoles(roles, end, IsExternalReviewer(s.row.roles) != reviewer))
  }

  function OnWriteRoles(s: State, roles: seq<string>, end: Option<int>, dropSessions: bool): Outcome {
    var link := dropSessions && !IsExternalReviewer(roles) && !s.row.totpEnabled;
    Over(s).(row := s.row.(roles := roles, accessEnd := end),
             sessions := if dropSessions then map[] else s.sessions,
             next := if link then Some(ReadForLink) else None)
  }

  function OnLoadForEnd(s: State, asked: Option<int>): Outcome {
    var reviewer := IsExternalReviewer(s.row.roles);
    match asked
    case None => if reviewer then Over(s) else Then(s, WriteEnd(None))
    case Some(end) =>
      if end <= s.clock || (reviewer && end > ReviewerAccessLatestEnd(s.clock)) then Over(s)
      else Then(s, WriteEnd(asked))
  }

  function OnWriteEnd(s: State, end: Option<int>): Outcome {
    Over(s).(row := s.row.(accessEnd := end))
  }

  function OnWriteStatus(s: State, status: Status): Outcome {
    if status == DISABLED then Then(s, DropAll(false)).(row := Unlocked(s.row).(status := status))
    else Over(s).(row := s.row.(status := status))
  }

  function OnResetAuthenticator(s: State): Outcome {
    Then(s, DropAll(true)).(row := s.row.(secret := None, totpEnabled := false, proof := None),
                            events := [Reset])
  }

  function OnUnlock(s: State): Outcome {
    Over(s).(row := Unlocked(s.row))
  }

  predicate AwaitingEnrolment(row: Identity) {
    !IsExternalReviewer(row.roles) && !row.totpEnabled && row.status == ACTIVE
  }

  function OnLoadForLink(s: State): Outcome {
    if AwaitingEnrolment(s.row) then Then(s, ReadForLink) else Over(s)
  }

  function OnLoadForCode(s: State): Outcome {
    if AwaitingEnrolment(s.row) then Then(s, KeepProof(s.clock + ENROLMENT_PROOF_TTL_MS, None)) else Over(s)
  }

  function OnReadForLink(s: State): Outcome {
    var mark := if s.password.Some? then Some(Argon2(s.password.value)) else None;
    Then(s, KeepProof(s.clock + ENROLMENT_PROOF_TTL_MS, mark))
  }

  function OnKeepProof(s: State, expiresAt: int, mark: Option<PasswordMark>, text: string): Outcome {
    Over(s).(row := s.row.(proof := Some(Proof(Sha256(text), expiresAt, mark))),
             events := [Kept(Sha256(text), s.clock, expiresAt)])
  }

  /** What the waiting call `op` does when it happens. */
  function Effect(s: State, op: Op, right: bool, text: string): Outcome {
    match op
    case LoadForLogin => OnLoadForLogin(s)
    case CheckPassword(seen) => OnCheckPassword(s, seen, right)
    case CountFailure => OnCountFailure(s)
    case SetLock(until) => OnSetLock(s, until)
    case ClearForReviewer(end) => OnClearForReviewer(s, end)
    case ClearForMfa => OnClearForMfa(s)
    case LoadForEnrol(_, proof) => OnLoadForEnrol(s, proof)
    case LoadProof(given) => OnLoadProof(s, given)
    case CheckMark(hash, mark) => OnCheckMark(s, hash, mark)
    case SpendProof(hash, before) => OnSpendProof(s, hash, before)
    case StoreSecret(secret, hash) => OnStoreSecret(s, secret, hash)
    case LoadForVerify(token) => OnLoadForVerify(s, token, right)
    case EnableTotp(secret, _) => OnEnableTotp(s, secret)
    case StoreSession(token, expiresAt) => OnStoreSession(s, token, expiresAt)
    case FindSession(token) => OnFindSession(s, token)
    case DropExpired(token) => OnDropOne(s, token)
    case DropForRenewal(token) => OnDropForRenewal(s, token)
    case LoadForRenewal(token) => OnLoadForRenewal(s, token)
    case DropOne(token) => OnDropOne(s, token)
    case DropAll(thenLink) => OnDropAll(s, thenLink)
    case LoadForRoles(roles) => OnLoadForRoles(s, roles)
    case WriteRoles(roles, end, dropSessions) => OnWriteRoles(s, roles, end, dropSessions)
    case LoadForEnd(asked) => OnLoadForEnd(s, asked)
    case WriteEnd(end) => OnWriteEnd(s, end)
    case WriteStatus(status) => OnWriteStatus(s, status)
    case ResetAuthenticator => OnResetAuthenticator(s)
    case Unlock => OnUnlock(s)
    case LoadForLink => OnLoadForLink(s)
    case LoadForCode => OnLoadForCode(s)
    case ReadForLink => OnReadForLink(s)
    case KeepProof(expiresAt, mark) => OnKeepProof(s, expiresAt, mark, text)
  }

  /** The same, call by call, for the calls an operator's change of roles or of the end makes. */
  lemma OperatorEffect(s: State, op: Op, right: bool, text: string)
    ensures op.LoadForRoles? ==> Effect(s, op, right, text) == OnLoadForRoles(s, op.roles)
    ensures op.WriteRoles? ==> Effect(s, op, right, text) == OnWriteRoles(s, op.roles, op.newEnd, op.dropSessions)
    ensures op.LoadForEnd? ==> Effect(s, op, right, text) == OnLoadForEnd(s, op.asked)
    ensures op.WriteEnd? ==> Effect(s, op, right, text) == OnWriteEnd(s, op.newEnd)
  {
  }

  /** And for the calls of an enrolment up to its spent proof. */
  lemma EnrolEffect(s: State, op: Op, right: bool, text: string)
    ensures op.LoadForEnrol? ==> Effect(s, op, right, text) == OnLoadForEnrol(s, op.proof)
    ensures op.LoadProof? ==> Effect(s, op, right, text) == OnLoadProof(s, op.given)
    ensures op.SpendProof? ==> Effect(s, op, right, text) == OnSpendProof(s, op.hash, op.before)
  {
  }

  /** The calls of a sign-in or an enrolment, against those of a session or an operator. */
  predicate OfSignIn(op: Op) {
    || op.LoadForLogin? || op.CheckPassword? || op.CountFailure? || op.SetLock? || op.ClearForReviewer?
    || op.ClearForMfa? || op.LoadForEnrol? || op.LoadProof? || op.CheckMark? || op.SpendProof?
    || op.StoreSecret? || op.LoadForVerify? || op.EnableTotp?
  }

  /** The state after request `r` did `o`. */
  function Commit(s: State, r: nat, o: Outcome): State {
    s.(row := o.row,
       sessions := o.sessions,
       signed := if o.token.Some? then s.signed + {o.token.value} else s.signed,
       steps := if o.stepToken.Some? then s.steps + {o.stepToken.value} else s.steps,
       pending := if o.next.Some? then s.pending[r := o.next.value] else s.pending - {r},
       nextJti := if o.token.Some? then s.nextJti + 1 else s.nextJti,
       nextSecret := if o.drawsSecret then s.nextSecret + 1 else s.nextSecret,
       log := s.log + o.events)
  }

  /** The waiting call of request `r` happens. */
  function Step(s: State, r: nat, right: bool, text: string): State
    requires r in s.pending
  {
    Commit(s, r, Effect(s, s.pending[r], right, text))
  }

  /** The calls a request may start with, and what is asked of the token it presents. */
  predicate MayBegin(s: State, op: Op) {
    match op
    case LoadForLogin => true
    case LoadForEnrol(token, _) => token in s.steps && token.EnrolProof? && Seconds(s.clock) < token.exp
    case LoadForVerify(token) => token in s.steps && !token.EnrolProof? && Seconds(s.clock) < token.exp
    case FindSession(token) => token in s.signed && Seconds(s.clock) < token.exp
    case DropOne(_) => true
    case DropAll(thenLink) => !thenLink
    case LoadForRoles(roles) => ValidRoleIds(roles)
    case LoadForEnd(_) => true
    case WriteStatus(_) => true
    case ResetAuthenticator => true
    case Unlock => true
    case LoadForLink => true
    case LoadForCode => true
    case _ => false
  }

  /** A random text is not one that was kept before. */
  predicate FreshProof(s: State, text: string) {
    forall e <- s.log :: e.Kept? ==> e.hash != Sha256(text)
  }

  predicate CanHappen(s: State, a: Action) {
    match a
    case Tick(_) => true
    case ChangePassword(_) => true
    case Begin(op) => MayBegin(s, op)
    case Advance(r, _, text) => r in s.pending && (s.pending[r].KeepProof? ==> FreshProof(s, text))
  }

  function Apply(s: State, a: Action): State
    requires CanHappen(s, a)
  {
    match a
    case Tick(ms) => s.(clock := s.clock + ms)
    case ChangePassword(stored) => s.(password := stored)
    case Begin(op) => s.(pending := s.pending[s.nextRequest := op], nextRequest := s.nextRequest + 1)
    case Advance(r, right, text) => Step(s, r, right, text)
  }

  predicate ValidRun(s: State, run: seq<Action>)
    decreases |run|
  {
    run == [] || (CanHappen(s, run[0]) && ValidRun(Apply(s, run[0]), run[1..]))
  }

  function Run(s: State, run: seq<Action>): State
    requires ValidRun(s, run)
    decreases |run|
  {
    if run == [] then s else Run(Apply(s, run[0]), run[1..])
  }

  /** An enrolment between its spent proof and its stored secret, or between reading the secret
      to confirm and setting the flag: the two moments a reset can fall into. */
  predicate MidEnrolment(s: State) {
    exists r <- s.pending :: s.pending[r].StoreSecret? || s.pending[r].EnableTotp?
  }

  predicate SplitsEnrolment(s: State, a: Action) {
    a.Advance? && a.request in s.pending && s.pending[a.request].ResetAuthenticator? && MidEnrolment(s)
  }

  /** No reset of the run falls into an enrolment. */
  predicate WholeRun(s: State, run: seq<Action>)
    requires ValidRun(s, run)
    decreases |run|
  {
    run == [] || (!SplitsEnrolment(s, run[0]) && WholeRun(Apply(s, run[0]), run[1..]))
  }

  lemma {:induction false} RunThen(s: State, run: seq<Action>, a: Action)
    requires ValidRun(s, run) && CanHappen(Run(s, run), a)
    ensures ValidRun(s, run + [a])
    ensures Run(s, run + [a]) == Apply(Run(s, run), a)
    ensures WholeRun(s, run + [a]) <==> WholeRun(s, run) && !SplitsEnrolment(Run(s, run), a)
    decreases |run|
  {
    if run == [] {
      assert run + [a] == [a];
      assert [a][1..] == [];
    } else {
      RunThen(Apply(s, run[0]), run[1..], a);
      assert (run + [a])[1..] == run[1..] + [a];
    }
  }

  /** Some interleaving, in which no reset falls into an enrolment, leads from one state to the
      other. */
  ghost predicate Reaches(s: State, s': State) {
    exists run :: ValidRun(s, run) && WholeRun(s, run) && Run(s, run) == s'
  }

  lemma ReachesSelf(s: State)
    ensures Reaches(s, s)
  {
    assert ValidRun(s, []) && WholeRun(s, []) && Run(s, []) == s;
  }

  lemma ReachesNext(s: State, s': State, a: Action)
    requires Reaches(s, s') && CanHappen(s', a) && !SplitsEnrolment(s', a)
    ensures Reaches(s, Apply(s', a))
  {
    var run :| ValidRun(s, run) && WholeRun(s, run) && Run(s, run) == s';
    RunThen(s, run, a);
  }

  /** A request arrives in a reached state and then waits for its first call. */
  lemma Arrives(s: State, s': State, op: Op) returns (r: nat, s'': State)
    requires Reaches(s, s') && MayBegin(s', op)
    ensures Reaches(s, s'') && r == s'.nextRequest
    ensures s'' == s'.(pending := s'.pending[r := op], nextRequest := r + 1)
  {
    r, s'' := s'.nextRequest, Apply(s', Begin(op));
    ReachesNext(s, s', Begin(op));
  }

  /** The waiting call of a request happens in a reached state. */
  lemma Happens(s: State, s': State, r: nat, right: bool, text: string) returns (s'': State)
    requires Reaches(s, s') && r in s'.pending && !s'.pending[r].ResetAuthenticator?
    requires (s'.pending[r].KeepProof? ==> FreshProof(s', text))
    ensures Reaches(s, s'') && s'' == Commit(s', r, Effect(s', s'.pending[r], right, text))
  {
    s'' := Apply(s', Advance(r, right, text));
    ReachesNext(s, s', Advance(r, right, text));
  }

  /** The identity as an operator creates it: no authenticator, no proof, no session. */
  predicate Initial(s: State) {
    && s.row.status == ACTIVE
    && ValidRoleIds(s.row.roles)
    && (IsExternalReviewer(s.row.roles) ==> ReviewerAccessIsValid(s.row.accessEnd, s.clock))
    && s.row.failed == 0 && s.row.lockedUntil == None
    && s.row.secret == None && !s.row.totpEnabled && s.row.proof == None
    && s.sessions == map[] && s.signed == {} && s.steps == {}
    && s.pending == map[] && s.log == []
  }
}

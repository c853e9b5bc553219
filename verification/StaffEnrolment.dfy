/** Enrolling an authenticator, over all interleavings: a proof is spent once and only while it is
    the last one, and an authenticator is confirmed only with a secret some spent proof produced. */
module StaffEnrolment {
  import opened Optional
  import opened JsString
  import opened StaffModel

  // ---- the log, read back ----

  /** The proof in force after a log: the last one kept, unless spent or reset since. */
  function ProofAfter(log: seq<Event>): (kept: Option<Event>)
    ensures kept.Some? ==> kept.value.Kept?
  {
    if log == [] then None
    else match log[|log| - 1]
      case Kept(_, _, _) => Some(log[|log| - 1])
      case Spent(_, _) => None
      case Reset => None
      case _ => ProofAfter(log[..|log| - 1])
  }

  /** The secret stored after a log: the last one, unless reset since. */
  function SecretAfter(log: seq<Event>): Option<nat> {
    if log == [] then None
    else match log[|log| - 1]
      case SecretStored(secret, _) => Some(secret)
      case Reset => None
      case _ => SecretAfter(log[..|log| - 1])
  }

  predicate OfProof(e: Event) {
    e.Kept? || e.Spent? || e.Reset?
  }

  predicate OfSecret(e: Event) {
    e.SecretStored? || e.Reset?
  }

  /** Where the proof in force was kept. */
  lemma {:induction false} ProofAfterFrom(log: seq<Event>) returns (i: nat)
    requires ProofAfter(log).Some?
    ensures i < |log| && log[i].Kept? && ProofAfter(log) == Some(log[i])
    ensures forall k | i < k < |log| :: !OfProof(log[k])
  {
    if log[|log| - 1].Kept? { i := |log| - 1; }
    else { i := ProofAfterFrom(log[..|log| - 1]); }
  }

  lemma {:induction false} SecretAfterFrom(log: seq<Event>) returns (i: nat)
    requires SecretAfter(log).Some?
    ensures i < |log| && log[i].SecretStored? && log[i].secret == SecretAfter(log).value
    ensures forall k | i < k < |log| :: !OfSecret(log[k])
  {
    if log[|log| - 1].SecretStored? { i := |log| - 1; }
    else { i := SecretAfterFrom(log[..|log| - 1]); }
  }

  // ---- proofs ----

  /** The row holds exactly the proof the log leaves in force. */
  predicate ProofRowOk(s: State) {
    match ProofAfter(s.log)
    case None => s.row.proof.None?
    case Some(kept) =>
      s.row.proof.Some? && s.row.proof.value.hash == kept.hash && s.row.proof.value.expiresAt == kept.until
  }

  /** Each proof spent was the one in force, and had not expired when its spending was sent. */
  ghost predicate ProofLogOk(log: seq<Event>) {
    && (forall j | 0 <= j < |log| && log[j].Spent? ::
          && ProofAfter(log[..j]).Some?
          && ProofAfter(log[..j]).value.hash == log[j].hash
          && log[j].before < ProofAfter(log[..j]).value.until)
    && (forall i, j | 0 <= i < j < |log| && log[i].Kept? && log[j].Kept? :: log[i].hash != log[j].hash)
    && (forall i | 0 <= i < |log| && log[i].Kept? :: log[i].until <= log[i].at + ENROLMENT_PROOF_TTL_MS)
  }

  ghost predicate ProofInv(s: State) {
    && ProofRowOk(s)
    && ProofLogOk(s.log)
    && (forall r <- s.pending :: s.pending[r].KeepProof? ==> s.pending[r].expiresAt <= s.clock + ENROLMENT_PROOF_TTL_MS)
  }

  /** The four ways a step may treat the stored proof. */
  ghost predicate ProofMoves(s: State, op: Op, o: Outcome, text: string) {
    && (o.next.Some? && o.next.value.KeepProof? ==> o.next.value.expiresAt <= s.clock + ENROLMENT_PROOF_TTL_MS)
    && (|| (o.row.proof == s.row.proof && forall e <- o.events :: !OfProof(e))
        || (o.row.proof.None? && o.events == [Reset])
        || (&& |o.events| == 1 && o.events[0].Spent? && o.row.proof.None?
            && StillKept(s.row, o.events[0].hash, o.events[0].before))
        || (&& op.KeepProof? && o.events == [Kept(Sha256(text), s.clock, op.expiresAt)]
            && o.row.proof == Some(Proof(Sha256(text), op.expiresAt, op.keptMark))))
  }

  lemma EffectMovesProof(s: State, op: Op, right: bool, text: string)
    ensures ProofMoves(s, op, Effect(s, op, right, text), text)
  {
    hide Effect;
    if OfSignIn(op) { SignInMovesProof(s, op, right, text); } else { OtherMovesProof(s, op, right, text); }
  }

  lemma SignInMovesProof(s: State, op: Op, right: bool, text: string)
    requires OfSignIn(op)
    ensures ProofMoves(s, op, Effect(s, op, right, text), text)
  {
    hide Trim, NormaliseCode, Matches, IsLocked, AccessHasExpired, IsExternalReviewer, ReviewerAccessIsValid;
  }

  lemma OtherMovesProof(s: State, op: Op, right: bool, text: string)
    requires !OfSignIn(op)
    ensures ProofMoves(s, op, Effect(s, op, right, text), text)
  {
  }

  lemma {:induction false} ProofAfterQuiet(log: seq<Event>, events: seq<Event>)
    requires forall e <- events :: !OfProof(e)
    ensures ProofAfter(log + events) == ProofAfter(log)
    decreases |events|
  {
    if events == [] {
      assert log + events == log;
    } else {
      assert (log + events)[..|log + events| - 1] == log + events[..|events| - 1];
      assert (log + events)[|log + events| - 1] == events[|events| - 1] && events[|events| - 1] in events;
      ProofAfterQuiet(log, events[..|events| - 1]);
    }
  }

  lemma ProofLogGrows(log: seq<Event>, events: seq<Event>)
    requires ProofLogOk(log)
    requires (forall e <- events :: !OfProof(e)) || |events| == 1
    requires forall e <- events :: e.Spent? ==>
      && ProofAfter(log).Some? && ProofAfter(log).value.hash == e.hash && e.before < ProofAfter(log).value.until
    requires forall e <- events :: e.Kept? ==>
      && e.until <= e.at + ENROLMENT_PROOF_TTL_MS && (forall past <- log :: past.Kept? ==> past.hash != e.hash)
    ensures ProofLogOk(log + events)
  {
    var longer := log + events;
    forall j | 0 <= j < |longer| && longer[j].Spent?
      ensures ProofAfter(longer[..j]).Some? && ProofAfter(longer[..j]).value.hash == longer[j].hash
              && longer[j].before < ProofAfter(longer[..j]).value.until
    {
      if j < |log| { assert longer[..j] == log[..j]; } else { assert longer[j] in events; assert longer[..j] == log; }
    }
    forall i, j | 0 <= i < j < |longer| && longer[i].Kept? && longer[j].Kept? ensures longer[i].hash != longer[j].hash {
      if j >= |log| { assert longer[j] in events; assert longer[i] in log; }
    }
    forall i | 0 <= i < |longer| && longer[i].Kept? ensures longer[i].until <= longer[i].at + ENROLMENT_PROOF_TTL_MS {
      if i >= |log| { assert longer[i] in events; }
    }
  }

  lemma CommitKeepsProofLog(s: State, op: Op, o: Outcome, text: string)
    requires ProofInv(s) && ProofMoves(s, op, o, text)
    requires op.KeepProof? ==> op.expiresAt <= s.clock + ENROLMENT_PROOF_TTL_MS && FreshProof(s, text)
    ensures ProofLogOk(s.log + o.events)
  {
    ProofLogGrows(s.log, o.events);
  }

  lemma CommitKeepsProofRow(s: State, r: nat, op: Op, o: Outcome, text: string)
    requires ProofRowOk(s) && ProofMoves(s, op, o, text)
    ensures ProofRowOk(Commit(s, r, o))
  {
    if forall e <- o.events :: !OfProof(e) { ProofAfterQuiet(s.log, o.events); }
    else { assert (s.log + o.events)[..|s.log|] == s.log; }
  }

  lemma CommitKeepsProofs(s: State, r: nat, o: Outcome, text: string)
    requires ProofInv(s) && r in s.pending && ProofMoves(s, s.pending[r], o, text)
    requires s.pending[r].KeepProof? ==> FreshProof(s, text)
    ensures ProofInv(Commit(s, r, o))
  {
    CommitKeepsProofLog(s, s.pending[r], o, text);
    CommitKeepsProofRow(s, r, s.pending[r], o, text);
  }

  lemma ActionKeepsProofs(s: State, a: Action)
    requires ProofInv(s) && CanHappen(s, a)
    ensures ProofInv(Apply(s, a))
  {
    if a.Advance? {
      var op := s.pending[a.request];
      EffectMovesProof(s, op, a.right, a.text);
      CommitKeepsProofs(s, a.request, Effect(s, op, a.right, a.text), a.text);
    }
  }

  lemma {:induction false} RunKeepsProofs(s: State, run: seq<Action>)
    requires ProofInv(s) && ValidRun(s, run)
    ensures ProofInv(Run(s, run))
    decreases |run|
  {
    if run != [] {
      ActionKeepsProofs(s, run[0]);
      RunKeepsProofs(Apply(s, run[0]), run[1..]);
    }
  }

  /** Whatever the interleaving, a spent proof was kept before, within its 24 hours, and between
      keeping and spending it no proof was kept or spent and nothing was reset. */
  lemma SpentProofIsTheLastKept(s0: State, run: seq<Action>, j: nat) returns (i: nat)
    requires Initial(s0) && ValidRun(s0, run)
    requires var log := Run(s0, run).log; j < |log| && log[j].Spent?
    ensures var log := Run(s0, run).log;
      && i < j && log[i].Kept? && log[i].hash == log[j].hash
      && log[j].before < log[i].at + ENROLMENT_PROOF_TTL_MS
      && (forall k | i < k < j :: !OfProof(log[k]))
  {
    RunKeepsProofs(s0, run);
    var log := Run(s0, run).log;
    i := ProofAfterFrom(log[..j]);
  }

  /** No proof is spent twice. */
  lemma ProofIsSpentOnce(s0: State, run: seq<Action>, j: nat, k: nat)
    requires Initial(s0) && ValidRun(s0, run)
    requires var log := Run(s0, run).log;
      j < |log| && k < |log| && log[j].Spent? && log[k].Spent? && log[j].hash == log[k].hash
    ensures j == k
  {
    RunKeepsProofs(s0, run);
    var i := SpentProofIsTheLastKept(s0, run, j);
    var i' := SpentProofIsTheLastKept(s0, run, k);
  }

  /** A proof never works after a newer one was kept or the authenticator was reset. */
  lemma OlderProofNeverWorks(s0: State, run: seq<Action>, i: nat, k: nat, j: nat)
    requires Initial(s0) && ValidRun(s0, run)
    requires var log := Run(s0, run).log;
      i < k < j < |log| && log[i].Kept? && (log[k].Kept? || log[k].Reset?) && log[j].Spent?
    ensures var log := Run(s0, run).log; log[j].hash != log[i].hash
  {
    RunKeepsProofs(s0, run);
    var last := SpentProofIsTheLastKept(s0, run, j);
  }

  // ---- secrets ----

  predicate SpentIn(log: seq<Event>, hash: Digest) {
    exists e <- log :: e.Spent? && e.hash == hash
  }

  predicate StoredIn(log: seq<Event>, secret: nat) {
    exists e <- log :: e.SecretStored? && e.secret == secret
  }

  predicate StoredFor(log: seq<Event>, hash: Digest) {
    exists e <- log :: e.SecretStored? && e.hash == hash
  }

  /** Each stored secret comes from a proof spent before, one secret for each proof, and each
      authenticator confirmed is one whose secret was stored before. */
  ghost predicate SecretLogOk(log: seq<Event>) {
    && (forall k | 0 <= k < |log| && log[k].SecretStored? ::
          && SpentIn(log[..k], log[k].hash)
          && !StoredIn(log[..k], log[k].secret)
          && !StoredFor(log[..k], log[k].hash))
    && (forall k | 0 <= k < |log| && log[k].Enabled? :: StoredIn(log[..k], log[k].secret))
  }

  /** What a request between its spent proof and its stored secret, or between reading a secret
      and confirming it, may rely on. */
  ghost predicate SecretOpOk(s: State, op: Op) {
    match op
    case StoreSecret(secret, hash) =>
      secret < s.nextSecret && SpentIn(s.log, hash) && !StoredIn(s.log, secret) && !StoredFor(s.log, hash)
    case EnableTotp(secret, readAt) =>
      readAt <= |s.log| && SecretAfter(s.log[..readAt]) == Some(secret)
    case _ => true
  }

  /** The requests between a spent proof and its stored secret hold secrets and proofs of their own. */
  ghost predicate SecretOpsOk(s: State) {
    && (forall r <- s.pending :: SecretOpOk(s, s.pending[r]))
    && (forall r <- s.pending, q <- s.pending :: r != q && s.pending[r].StoreSecret? && s.pending[q].StoreSecret? ==>
          s.pending[r].secret != s.pending[q].secret && s.pending[r].hash != s.pending[q].hash)
  }

  ghost predicate StoredBelow(log: seq<Event>, next: nat) {
    forall e <- log :: e.SecretStored? ==> e.secret < next
  }

  ghost predicate SecretInv(s: State) {
    && ProofInv(s)
    && SecretAfter(s.log) == s.row.secret
    && SecretLogOk(s.log)
    && StoredBelow(s.log, s.nextSecret)
    && SecretOpsOk(s)
  }

  predicate Unrelated(e: Event) {
    !OfSecret(e) && !e.Spent? && !e.Enabled?
  }

  /** The five ways a step may treat the stored secret. */
  ghost predicate SecretMoves(s: State, op: Op, o: Outcome) {
    var starts := o.next.Some? && o.next.value.StoreSecret?;
    var confirms := o.next.Some? && o.next.value.EnableTotp?;
    || (&& o.row.secret == s.row.secret && (forall e <- o.events :: Unrelated(e)) && !starts
        && (confirms ==> s.row.secret.Some? && o.next.value == EnableTotp(s.row.secret.value, |s.log|)))
    || (&& o.row.secret == s.row.secret && |o.events| == 1 && o.events[0].Spent? && o.drawsSecret
        && StillKept(s.row, o.events[0].hash, o.events[0].before)
        && o.next == Some(StoreSecret(s.nextSecret, o.events[0].hash)))
    || (&& op.StoreSecret? && o.row.secret == Some(op.secret) && o.events == [SecretStored(op.secret, op.hash)]
        && !starts && !confirms)
    || (op.ResetAuthenticator? && o.row.secret.None? && o.events == [Reset] && !starts && !confirms)
    || (&& op.EnableTotp? && o.row.secret == s.row.secret && |o.events| == 2 && o.events[0] == Enabled(op.secret)
        && o.events[1].Issued? && !starts && !confirms)
  }

  lemma EffectMovesSecret(s: State, op: Op, right: bool, text: string)
    ensures SecretMoves(s, op, Effect(s, op, right, text))
  {
    hide Effect;
    if OfSignIn(op) { SignInMovesSecret(s, op, right, text); } else { OtherMovesSecret(s, op, right, text); }
  }

  lemma SignInMovesSecret(s: State, op: Op, right: bool, text: string)
    requires OfSignIn(op)
    ensures SecretMoves(s, op, Effect(s, op, right, text))
  {
    hide Trim, NormaliseCode, Matches, IsLocked, AccessHasExpired, IsExternalReviewer, ReviewerAccessIsValid;
  }

  lemma OtherMovesSecret(s: State, op: Op, right: bool, text: string)
    requires !OfSignIn(op)
    ensures SecretMoves(s, op, Effect(s, op, right, text))
  {
  }

  /** A proof in force was never spent. */
  lemma InForceIsUnspent(log: seq<Event>)
    requires ProofLogOk(log) && ProofAfter(log).Some?
    ensures !SpentIn(log, ProofAfter(log).value.hash)
  {
    var kept := ProofAfterFrom(log);
    if SpentIn(log, log[kept].hash) {
      var j :| 0 <= j < |log| && log[j].Spent? && log[j].hash == log[kept].hash;
      var i := ProofAfterFrom(log[..j]);
    }
  }

  lemma {:induction false} SecretAfterQuiet(log: seq<Event>, events: seq<Event>)
    requires forall e <- events :: !OfSecret(e)
    ensures SecretAfter(log + events) == SecretAfter(log)
    decreases |events|
  {
    if events == [] {
      assert log + events == log;
    } else {
      assert (log + events)[..|log + events| - 1] == log + events[..|events| - 1];
      assert (log + events)[|log + events| - 1] == events[|events| - 1] && events[|events| - 1] in events;
      SecretAfterQuiet(log, events[..|events| - 1]);
    }
  }

  lemma SecretAfterGrows(s: State, op: Op, o: Outcome)
    requires SecretAfter(s.log) == s.row.secret && SecretMoves(s, op, o)
    ensures SecretAfter(s.log + o.events) == o.row.secret
  {
    SecretEvents(s, op, o);
    hide SecretMoves;
    if forall e <- o.events :: !OfSecret(e) { SecretAfterQuiet(s.log, o.events); }
    else { assert (s.log + o.events)[..|s.log|] == s.log; }
  }

  /** A step leaves the secret and says nothing of it, or says the one thing it does. */
  lemma SecretEvents(s: State, op: Op, o: Outcome)
    requires SecretMoves(s, op, o)
    ensures || ((forall e <- o.events :: !OfSecret(e)) && o.row.secret == s.row.secret)
            || (exists secret: nat, hash :: o.events == [SecretStored(secret, hash)] && o.row.secret == Some(secret))
            || (o.events == [Reset] && o.row.secret.None?)
  {
  }

  lemma SecretLogExtends(log: seq<Event>, events: seq<Event>)
    requires SecretLogOk(log)
    requires forall n | 0 < n < |events| :: !events[n].SecretStored? && !events[n].Enabled?
    requires events != [] && events[0].SecretStored? ==>
      SpentIn(log, events[0].hash) && !StoredIn(log, events[0].secret) && !StoredFor(log, events[0].hash)
    requires events != [] && events[0].Enabled? ==> StoredIn(log, events[0].secret)
    ensures SecretLogOk(log + events)
  {
    var longer := log + events;
    assert forall k | 0 <= k <= |log| :: longer[..k] == log[..k];
    assert log[..|log|] == log;
    assert forall k | |log| <= k < |longer| :: longer[k] == events[k - |log|];
  }

  lemma ConfirmedIsStored(s: State, op: Op)
    requires SecretOpOk(s, op) && op.EnableTotp?
    ensures StoredIn(s.log, op.secret)
  {
    var k := SecretAfterFrom(s.log[..op.readAt]);
    assert s.log[k] in s.log;
  }

  lemma SecretLogGrows(s: State, op: Op, o: Outcome)
    requires SecretInv(s) && SecretOpOk(s, op) && SecretMoves(s, op, o)
    ensures SecretLogOk(s.log + o.events)
  {
    if op.EnableTotp? { ConfirmedIsStored(s, op); }
    FirstEvent(s, op, o);
    hide SecretInv, SecretMoves, SecretOpOk, SpentIn, StoredIn, StoredFor;
    SecretLogExtends(s.log, o.events);
  }

  /** Only the first event of a step stores or confirms, and only what the step may. */
  lemma FirstEvent(s: State, op: Op, o: Outcome)
    requires SecretInv(s) && SecretOpOk(s, op) && SecretMoves(s, op, o)
    ensures SecretLogOk(s.log)
    ensures forall n | 0 < n < |o.events| :: !o.events[n].SecretStored? && !o.events[n].Enabled?
    ensures o.events != [] && o.events[0].SecretStored? ==>
      && SpentIn(s.log, o.events[0].hash) && !StoredIn(s.log, o.events[0].secret)
      && !StoredFor(s.log, o.events[0].hash)
    ensures o.events != [] && o.events[0].Enabled? ==> op.EnableTotp? && o.events[0].secret == op.secret
  {
    hide ProofInv, SpentIn, StoredIn, StoredFor, SecretOpsOk;
    assert forall n | 0 <= n < |o.events| :: o.events[n] in o.events;
  }

  lemma SpentInGrows(log: seq<Event>, events: seq<Event>, hash: Digest)
    ensures SpentIn(log, hash) ==> SpentIn(log + events, hash)
  {
    assert forall e <- log :: e in log + events;
  }

  lemma OpStaysOk(s: State, r: nat, q: nat, o: Outcome)
    requires SecretInv(s) && r in s.pending && SecretMoves(s, s.pending[r], o)
    requires q in s.pending && q != r
    ensures SecretOpOk(Commit(s, r, o), s.pending[q])
  {
    var s', op := Commit(s, r, o), s.pending[q];
    assert SecretOpOk(s, op);
    match op {
      case StoreSecret(_, _) => StartedStaysOk(s, r, q, o);
      case EnableTotp(_, readAt) => assert s'.log[..readAt] == s.log[..readAt];
      case _ =>
    }
  }

  lemma StoredByOp(s: State, op: Op, o: Outcome)
    requires SecretMoves(s, op, o)
    ensures forall e <- o.events :: e.SecretStored? ==> op.StoreSecret? && e == SecretStored(op.secret, op.hash)
  {
  }

  lemma StartedStaysOk(s: State, r: nat, q: nat, o: Outcome)
    requires SecretInv(s) && r in s.pending && SecretMoves(s, s.pending[r], o)
    requires q in s.pending && q != r && s.pending[q].StoreSecret?
    ensures SecretOpOk(Commit(s, r, o), s.pending[q])
  {
    assert SecretOpOk(s, s.pending[q]);
    var op := s.pending[r];
    assert op.StoreSecret? ==> op.secret != s.pending[q].secret && op.hash != s.pending[q].hash;
    StoredByOp(s, op, o);
    hide SecretInv, SecretMoves;
    SpentInGrows(s.log, o.events, s.pending[q].hash);
    forall e | e in s.log + o.events && e.SecretStored?
      ensures e.secret != s.pending[q].secret && e.hash != s.pending[q].hash
    {
      assert e in s.log || e in o.events;
    }
  }

  lemma NextOpIsOk(s: State, r: nat, o: Outcome)
    requires SecretInv(s) && r in s.pending && SecretMoves(s, s.pending[r], o) && o.next.Some?
    ensures SecretOpOk(Commit(s, r, o), o.next.value)
  {
    var s' := Commit(s, r, o);
    match o.next.value {
      case StoreSecret(_, hash) =>
        InForceIsUnspent(s.log);
        assert o.events[0] in s'.log;
        forall e | e in s'.log && e.SecretStored? ensures e.hash != hash && e.secret < s.nextSecret {
          assert e in s.log;
          StoredWasSpent(s.log, e);
        }
      case EnableTotp(_, readAt) =>
        assert s'.log[..readAt] == s.log;
      case _ =>
    }
  }

  lemma StoredWasSpent(log: seq<Event>, e: Event)
    requires SecretLogOk(log) && e in log && e.SecretStored?
    ensures SpentIn(log, e.hash)
  {
    var k :| 0 <= k < |log| && log[k] == e;
    assert log == log[..k] + log[k..];
    SpentInGrows(log[..k], log[k..], e.hash);
  }

  lemma StartedOnce(s: State, r: nat, o: Outcome, q: nat)
    requires SecretInv(s) && r in s.pending && SecretMoves(s, s.pending[r], o)
    requires o.next.Some? && o.next.value.StoreSecret?
    requires q in s.pending && q != r && s.pending[q].StoreSecret?
    ensures s.pending[q].secret != o.next.value.secret && s.pending[q].hash != o.next.value.hash
  {
    InForceIsUnspent(s.log);
    assert SecretOpOk(s, s.pending[q]);
  }

  lemma CommitKeepsSecretOps(s: State, r: nat, o: Outcome)
    requires SecretInv(s) && r in s.pending && SecretMoves(s, s.pending[r], o)
    ensures SecretOpsOk(Commit(s, r, o))
  {
    var s' := Commit(s, r, o);
    assert SecretOpsOk(s);
    hide SecretMoves, SecretInv, SecretOpOk;
    forall q | q in s'.pending ensures SecretOpOk(s', s'.pending[q]) {
      if q == r { NextOpIsOk(s, r, o); } else { OpStaysOk(s, r, q, o); }
    }
    forall p, q | p in s'.pending && q in s'.pending && p != q
                  && s'.pending[p].StoreSecret? && s'.pending[q].StoreSecret?
      ensures s'.pending[p].secret != s'.pending[q].secret && s'.pending[p].hash != s'.pending[q].hash
    {
      if p == r { StartedOnce(s, r, o, q); } else if q == r { StartedOnce(s, r, o, p); }
    }
  }

  lemma CommitKeepsSecrets(s: State, r: nat, o: Outcome)
    requires SecretInv(s) && r in s.pending && SecretMoves(s, s.pending[r], o)
    requires ProofInv(Commit(s, r, o))
    ensures SecretInv(Commit(s, r, o))
  {
    var op := s.pending[r];
    OpIsOk(s, r);
    SecretAfterGrows(s, op, o);
    SecretLogGrows(s, op, o);
    CommitKeepsSecretOps(s, r, o);
    StoredStayBelow(s, r, o);
    hide ProofInv, SecretMoves, SecretOpsOk, SecretLogOk, StoredBelow, SecretOpOk;
  }

  lemma OpIsOk(s: State, r: nat)
    requires SecretInv(s) && r in s.pending
    ensures SecretOpOk(s, s.pending[r])
  {
  }

  lemma StoredStayBelow(s: State, r: nat, o: Outcome)
    requires SecretInv(s) && r in s.pending && SecretMoves(s, s.pending[r], o)
    ensures var s' := Commit(s, r, o); StoredBelow(s'.log, s'.nextSecret)
  {
    OpIsOk(s, r);
    StoredByOp(s, s.pending[r], o);
    hide SecretMoves, ProofInv, SecretLogOk, SecretOpsOk;
    forall e | e in s.log + o.events && e.SecretStored? ensures e.secret < Commit(s, r, o).nextSecret {
      assert e in s.log || e in o.events;
    }
  }

  lemma ActionKeepsSecrets(s: State, a: Action)
    requires SecretInv(s) && CanHappen(s, a)
    ensures SecretInv(Apply(s, a))
  {
    ActionKeepsProofs(s, a);
    match a {
      case Advance(r, right, text) =>
        EffectMovesSecret(s, s.pending[r], right, text);
        CommitKeepsSecrets(s, r, Effect(s, s.pending[r], right, text));
      case Begin(op) =>
        var s' := Apply(s, a);
        forall q | q in s'.pending ensures SecretOpOk(s', s'.pending[q]) {
          if q != s.nextRequest { assert SecretOpOk(s, s.pending[q]); }
        }
      case _ =>
        forall q | q in s.pending ensures SecretOpOk(Apply(s, a), s.pending[q]) {
          assert SecretOpOk(s, s.pending[q]);
        }
    }
  }

  lemma {:induction false} RunKeepsSecrets(s: State, run: seq<Action>)
    requires SecretInv(s) && ValidRun(s, run)
    ensures SecretInv(Run(s, run))
    decreases |run|
  {
    if run != [] {
      ActionKeepsSecrets(s, run[0]);
      RunKeepsSecrets(Apply(s, run[0]), run[1..]);
    }
  }

  /** An authenticator is confirmed only with a secret that was stored for a proof spent before
      it; different secrets come from different proofs. */
  lemma ConfirmedSecretWasProved(s0: State, run: seq<Action>, j: nat) returns (i: nat, k: nat)
    requires Initial(s0) && ValidRun(s0, run)
    requires var log := Run(s0, run).log; j < |log| && log[j].Enabled?
    ensures var log := Run(s0, run).log;
      && i < k < j && log[i].Spent? && log[k] == SecretStored(log[j].secret, log[i].hash)
      && (forall k' | 0 <= k' < |log| && log[k'].SecretStored? :: log[k'].secret == log[k].secret <==> k' == k)
      && (forall k' | 0 <= k' < |log| && log[k'].SecretStored? :: log[k'].hash == log[k].hash <==> k' == k)
  {
    RunKeepsSecrets(s0, run);
    var log := Run(s0, run).log;
    assert StoredIn(log[..j], log[j].secret);
    k :| 0 <= k < j && log[k].SecretStored? && log[k].secret == log[j].secret;
    assert SpentIn(log[..k], log[k].hash);
    i :| 0 <= i < k && log[i].Spent? && log[i].hash == log[k].hash;
    forall k' | 0 <= k' < |log| && log[k'].SecretStored? && k' != k
      ensures log[k'].secret != log[k].secret && log[k'].hash != log[k].hash
    {
      if k' < k { StoredTwiceDiffers(log, k', k); } else { StoredTwiceDiffers(log, k, k'); }
    }
  }

  lemma StoredTwiceDiffers(log: seq<Event>, i: nat, j: nat)
    requires SecretLogOk(log) && i < j < |log| && log[i].SecretStored? && log[j].SecretStored?
    ensures log[i].secret != log[j].secret && log[i].hash != log[j].hash
  {
    assert log[i] in log[..j];
  }

  /** A secret is still the stored one exactly when nothing was stored or reset since. */
  lemma StillStoredIff(log: seq<Event>, readAt: nat, secret: nat)
    requires SecretLogOk(log) && readAt <= |log| && SecretAfter(log[..readAt]) == Some(secret)
    ensures SecretAfter(log) == Some(secret) <==> forall k | readAt <= k < |log| :: !OfSecret(log[k])
  {
    var early := SecretAfterFrom(log[..readAt]);
    assert log[early] == log[..readAt][early];
    if forall k | readAt <= k < |log| :: !OfSecret(log[k]) {
      SecretAfterQuiet(log[..readAt], log[readAt..]);
      assert log == log[..readAt] + log[readAt..];
    } else if SecretAfter(log).Some? {
      var late := SecretAfterFrom(log);
      StoredTwiceDiffers(log, early, late);
    }
  }

  /** The flag is set for the secret that was confirmed exactly when, since the row was read, no
      secret was stored and nothing was reset. Otherwise the flag lands on another secret, or on
      none. */
  lemma FlagLandsOnConfirmedSecret(s0: State, run: seq<Action>, r: nat)
    requires Initial(s0) && ValidRun(s0, run)
    requires var s := Run(s0, run); r in s.pending && s.pending[r].EnableTotp?
    ensures var s := Run(s0, run);
      s.pending[r].readAt <= |s.log| &&
      (s.row.secret == Some(s.pending[r].secret)
       <==> forall k | s.pending[r].readAt <= k < |s.log| :: !OfSecret(s.log[k]))
  {
    RunKeepsSecrets(s0, run);
    var s := Run(s0, run);
    assert SecretOpOk(s, s.pending[r]);
    StillStoredIff(s.log, s.pending[r].readAt, s.pending[r].secret);
  }
}

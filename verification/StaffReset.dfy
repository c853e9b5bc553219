/** When a reset of the authenticator really makes the identity prove itself again. */
module StaffReset {
  import opened Optional
  import opened JsString
  import opened StaffModel
  import opened StaffEnrolment

  ghost predicate NoResetFrom(log: seq<Event>, i: nat) {
    forall k | i <= k < |log| :: !log[k].Reset?
  }

  /** A proof was spent after the last reset. */
  ghost predicate SpentSinceReset(log: seq<Event>, hash: Digest) {
    exists i | 0 <= i < |log| :: log[i].Spent? && log[i].hash == hash && NoResetFrom(log, i)
  }

  /** The proof this secret was stored for was spent after the last reset. */
  ghost predicate Backed(log: seq<Event>, secret: nat) {
    exists e <- log :: e.SecretStored? && e.secret == secret && SpentSinceReset(log, e.hash)
  }

  ghost predicate EnablingsBacked(log: seq<Event>) {
    forall j | 0 <= j < |log| && log[j].Enabled? :: Backed(log[..j], log[j].secret)
  }

  ghost predicate OpBacked(log: seq<Event>, op: Op) {
    match op
    case StoreSecret(_, hash) => SpentSinceReset(log, hash)
    case EnableTotp(secret, _) => Backed(log, secret)
    case _ => true
  }

  ghost predicate BackInv(s: State) {
    && EnablingsBacked(s.log)
    && (s.row.secret.Some? ==> Backed(s.log, s.row.secret.value))
    && (forall r <- s.pending :: OpBacked(s.log, s.pending[r]))
  }

  lemma SpentStays(log: seq<Event>, events: seq<Event>, hash: Digest)
    requires SpentSinceReset(log, hash) && forall e <- events :: !e.Reset?
    ensures SpentSinceReset(log + events, hash)
  {
    var i :| 0 <= i < |log| && log[i].Spent? && log[i].hash == hash && NoResetFrom(log, i);
    var longer := log + events;
    forall k | i <= k < |longer| ensures !longer[k].Reset? {
      if k >= |log| { assert longer[k] in events; }
    }
    assert longer[i].Spent? && NoResetFrom(longer, i);
  }

  lemma BackedStays(log: seq<Event>, events: seq<Event>, secret: nat)
    requires Backed(log, secret) && forall e <- events :: !e.Reset?
    ensures Backed(log + events, secret)
  {
    var e :| e in log && e.SecretStored? && e.secret == secret && SpentSinceReset(log, e.hash);
    SpentStays(log, events, e.hash);
    assert e in log + events;
  }

  lemma OpStaysBacked(log: seq<Event>, events: seq<Event>, op: Op)
    requires OpBacked(log, op) && forall e <- events :: !e.Reset?
    ensures OpBacked(log + events, op)
  {
    match op {
      case StoreSecret(_, hash) => SpentStays(log, events, hash);
      case EnableTotp(secret, _) => BackedStays(log, events, secret);
      case _ =>
    }
  }

  lemma EnablingsStayBacked(log: seq<Event>, events: seq<Event>)
    requires EnablingsBacked(log)
    requires forall n | 0 < n < |events| :: !events[n].Enabled?
    requires events != [] && events[0].Enabled? ==> Backed(log, events[0].secret)
    ensures EnablingsBacked(log + events)
  {
    var longer := log + events;
    assert forall k | 0 <= k <= |log| :: longer[..k] == log[..k];
    assert log[..|log|] == log;
    assert forall k | |log| <= k < |longer| :: longer[k] == events[k - |log|];
  }

  /** Except for a reset, a step keeps everything backed. */
  lemma StepKeepsBacking(s: State, r: nat, o: Outcome)
    requires BackInv(s) && r in s.pending && SecretMoves(s, s.pending[r], o) && !s.pending[r].ResetAuthenticator?
    ensures BackInv(Commit(s, r, o))
  {
    var s', op := Commit(s, r, o), s.pending[r];
    assert OpBacked(s.log, op);
    assert forall n | 0 <= n < |o.events| :: o.events[n] in o.events;
    EnablingsStayBacked(s.log, o.events);
    if s'.row.secret.Some? { RowStaysBacked(s, op, o); }
    forall q | q in s'.pending ensures OpBacked(s'.log, s'.pending[q]) {
      if q == r { NextIsBacked(s, op, o); } else {
        assert OpBacked(s.log, s.pending[q]);
        OpStaysBacked(s.log, o.events, s.pending[q]);
      }
    }
  }

  lemma RowStaysBacked(s: State, op: Op, o: Outcome)
    requires BackInv(s) && OpBacked(s.log, op) && SecretMoves(s, op, o) && !op.ResetAuthenticator? && o.row.secret.Some?
    ensures Backed(s.log + o.events, o.row.secret.value)
  {
    if op.StoreSecret? && o.events == [SecretStored(op.secret, op.hash)] {
      SpentStays(s.log, o.events, op.hash);
      var e := SecretStored(op.secret, op.hash);
      assert e in s.log + o.events && SpentSinceReset(s.log + o.events, e.hash);
      assert Backed(s.log + o.events, op.secret);
    } else {
      BackedStays(s.log, o.events, s.row.secret.value);
    }
  }

  lemma NextIsBacked(s: State, op: Op, o: Outcome)
    requires BackInv(s) && SecretMoves(s, op, o) && !op.ResetAuthenticator? && o.next.Some?
    ensures OpBacked(s.log + o.events, o.next.value)
  {
    match o.next.value {
      case StoreSecret(_, hash) =>
        assert (s.log + o.events)[|s.log|] == o.events[0] && NoResetFrom(s.log + o.events, |s.log|);
      case EnableTotp(secret, _) => BackedStays(s.log, o.events, secret);
      case _ =>
    }
  }

  /** A reset that falls into no enrolment leaves nothing to back. */
  lemma WholeResetKeepsBacking(s: State, r: nat, right: bool, text: string)
    requires BackInv(s) && r in s.pending && s.pending[r].ResetAuthenticator? && !MidEnrolment(s)
    ensures BackInv(Step(s, r, right, text))
  {
    EnablingsStayBacked(s.log, [Reset]);
  }

  lemma ActionKeepsBacking(s: State, a: Action)
    requires BackInv(s) && CanHappen(s, a) && !SplitsEnrolment(s, a)
    ensures BackInv(Apply(s, a))
  {
    if a.Advance? {
      var op := s.pending[a.request];
      if op.ResetAuthenticator? { WholeResetKeepsBacking(s, a.request, a.right, a.text); }
      else {
        EffectMovesSecret(s, op, a.right, a.text);
        StepKeepsBacking(s, a.request, Effect(s, op, a.right, a.text));
      }
    }
  }

  lemma {:induction false} RunKeepsBacking(s: State, run: seq<Action>)
    requires BackInv(s) && ValidRun(s, run) && WholeRun(s, run)
    ensures BackInv(Run(s, run))
    decreases |run|
  {
    if run != [] {
      ActionKeepsBacking(s, run[0]);
      RunKeepsBacking(Apply(s, run[0]), run[1..]);
    }
  }

  // ---- a reset that falls into an enrolment ----

  /** Nothing was proved since the last reset. */
  ghost predicate Unproved(log: seq<Event>) {
    exists i | 0 <= i < |log| :: log[i].Reset? && forall k | i < k < |log| :: !log[k].Spent?
  }

  lemma UnprovedIsUnbacked(log: seq<Event>, secret: nat)
    requires Unproved(log)
    ensures !Backed(log, secret)
  {
  }

  lemma EnabledUnproved(log: seq<Event>, secret: nat, rest: seq<Event>)
    requires Unproved(log)
    ensures !EnablingsBacked(log + [Enabled(secret)] + rest)
  {
    var longer := log + [Enabled(secret)] + rest;
    UnprovedIsUnbacked(log, secret);
    assert longer[|log|] == Enabled(secret) && longer[..|log|] == log;
  }

  /** A step that only adds the secret of an older proof, or nothing, leaves it unproved. */
  lemma UnprovedStays(log: seq<Event>, events: seq<Event>)
    requires Unproved(log) && forall e <- events :: !e.Spent?
    ensures Unproved(log + events)
  {
    var i :| 0 <= i < |log| && log[i].Reset? && forall k | i < k < |log| :: !log[k].Spent?;
    var longer := log + events;
    forall k | i < k < |longer| ensures !longer[k].Spent? {
      if k >= |log| { assert longer[k] in events; }
    }
    assert longer[i].Reset?;
  }

  /** The next four lemmas are operator requests and sign-in steps made one after the other. */
  lemma MadeActive(s: State, s1: State) returns (s': State)
    requires Reaches(s, s1)
    ensures Reaches(s, s') && s'.row == s1.row.(status := ACTIVE)
    ensures s'.log == s1.log && s'.steps == s1.steps && s'.clock == s1.clock
  {
    var r, s2 := Arrives(s, s1, WriteStatus(ACTIVE));
    s' := Happens(s, s2, r, true, "");
  }

  lemma MadeStaff(s: State, s1: State) returns (s': State)
    requires Reaches(s, s1)
    ensures Reaches(s, s') && s'.row == s1.row.(roles := ["arole_super"], accessEnd := s'.row.accessEnd)
    ensures s'.log == s1.log && s'.steps == s1.steps && s'.clock == s1.clock
  {
    hide Effect, Reaches;
    var r, s2 := Arrives(s, s1, LoadForRoles(["arole_super"]));
    OperatorEffect(s2, s2.pending[r], true, "");
    var s3 := Happens(s, s2, r, true, "");
    OperatorEffect(s3, s3.pending[r], true, "");
    s' := Happens(s, s3, r, true, "");
  }

  lemma MadeEndless(s: State, s1: State) returns (s': State)
    requires Reaches(s, s1) && !IsExternalReviewer(s1.row.roles)
    ensures Reaches(s, s') && s'.row == s1.row.(accessEnd := None)
    ensures s'.log == s1.log && s'.steps == s1.steps && s'.clock == s1.clock
  {
    hide Effect, Reaches;
    var r, s2 := Arrives(s, s1, LoadForEnd(None));
    OperatorEffect(s2, s2.pending[r], true, "");
    var s3 := Happens(s, s2, r, true, "");
    OperatorEffect(s3, s3.pending[r], true, "");
    s' := Happens(s, s3, r, true, "");
  }

  lemma Confirmed(s: State, s1: State, secret: nat) returns (s': State)
    requires Reaches(s, s1) && MfaSetup(secret, StepExp(s1)) in s1.steps
    requires s1.row.secret == Some(secret) && !s1.row.totpEnabled && s1.row.status == ACTIVE
    requires s1.row.accessEnd.None? && !IsExternalReviewer(s1.row.roles)
    ensures Reaches(s, s') && |s'.log| == |s1.log| + 2 && s'.log[..|s1.log| + 1] == s1.log + [Enabled(secret)]
  {
    var r, s2 := Arrives(s, s1, LoadForVerify(MfaSetup(secret, StepExp(s1))));
    var s3 := Happens(s, s2, r, true, "");
    assert s3.pending[r] == EnableTotp(secret, |s1.log|);
    s' := Happens(s, s3, r, true, "");
  }

  /** If a reset falls between a spent proof and its stored secret, that secret is stored after
      the reset and can be confirmed with no new proof. */
  lemma StaleSecretIsConfirmed(s: State, q: nat) returns (s': State)
    requires q in s.pending && s.pending[q].StoreSecret? && !s.row.totpEnabled && Unproved(s.log)
    ensures Reaches(s, s') && !EnablingsBacked(s'.log)
  {
    var secret := s.pending[q].secret;
    ReachesSelf(s);
    var s1 := Happens(s, s, q, true, "");
    UnprovedStays(s.log, [SecretStored(secret, s.pending[q].hash)]);
    var s2 := MadeActive(s, s1);
    var s3 := MadeStaff(s, s2);
    var s4 := MadeEndless(s, s3);
    s' := Confirmed(s, s4, secret);
    EnabledUnproved(s4.log, secret, s'.log[|s4.log| + 1..]);
    assert s'.log == s4.log + [Enabled(secret)] + s'.log[|s4.log| + 1..];
  }

  /** If it falls between reading a secret and setting the flag, the flag is set with no new
      proof. */
  lemma StaleFlagIsSet(s: State, q: nat) returns (s': State)
    requires q in s.pending && s.pending[q].EnableTotp? && Unproved(s.log)
    ensures Reaches(s, s') && !EnablingsBacked(s'.log)
  {
    ReachesSelf(s);
    s' := Happens(s, s, q, true, "");
    EnabledUnproved(s.log, s.pending[q].secret, s'.log[|s.log| + 1..]);
    assert s'.log == s.log + [Enabled(s.pending[q].secret)] + s'.log[|s.log| + 1..];
  }

  lemma SplitResetIsUnsafe(s: State, r: nat, q: nat) returns (s': State)
    requires r in s.pending && s.pending[r].ResetAuthenticator?
    requires q in s.pending && (s.pending[q].StoreSecret? || s.pending[q].EnableTotp?)
    ensures Reaches(Step(s, r, true, ""), s') && !EnablingsBacked(s'.log)
  {
    var s1 := Step(s, r, true, "");
    assert s1.log[|s.log|] == Reset;
    assert s1.pending[q] == s.pending[q];
    if s.pending[q].StoreSecret? { s' := StaleSecretIsConfirmed(s1, q); }
    else { s' := StaleFlagIsSet(s1, q); }
  }

  lemma StartIsBacked(s0: State)
    requires Initial(s0)
    ensures BackInv(s0)
  {
  }

  /** A reset makes the identity prove itself again - from then on no authenticator is confirmed
      whose proof was spent before the last reset - exactly when, at the moment of the reset, no
      enrolment is between its spent proof and its stored secret, or between reading the secret to
      confirm and setting the flag. */
  lemma ResetIsSafeIff(s0: State, run: seq<Action>, r: nat)
    requires Initial(s0) && ValidRun(s0, run) && WholeRun(s0, run)
    requires var s := Run(s0, run); r in s.pending && s.pending[r].ResetAuthenticator?
    ensures var s := Run(s0, run);
      (forall s' :: Reaches(Step(s, r, true, ""), s') ==> EnablingsBacked(s'.log)) <==> !MidEnrolment(s)
  {
    var s := Run(s0, run);
    StartIsBacked(s0);
    RunKeepsBacking(s0, run);
    if MidEnrolment(s) {
      var q :| q in s.pending && (s.pending[q].StoreSecret? || s.pending[q].EnableTotp?);
      var s' := SplitResetIsUnsafe(s, r, q);
    } else {
      WholeResetKeepsBacking(s, r, true, "");
      forall s' | Reaches(Step(s, r, true, ""), s') ensures EnablingsBacked(s'.log) {
        var rest :| ValidRun(Step(s, r, true, ""), rest) && WholeRun(Step(s, r, true, ""), rest)
                    && Run(Step(s, r, true, ""), rest) == s';
        RunKeepsBacking(Step(s, r, true, ""), rest);
      }
    }
  }

  /** In particular: while no reset falls into an enrolment, every authenticator confirmed has a
      proof of its own, spent since the last reset. */
  lemma EveryEnablingIsBacked(s0: State, run: seq<Action>)
    requires Initial(s0) && ValidRun(s0, run) && WholeRun(s0, run)
    ensures EnablingsBacked(Run(s0, run).log)
  {
    StartIsBacked(s0);
    RunKeepsBacking(s0, run);
  }

  // ---- such a reset is reachable ----

  lemma CodeHandedOver(s0: State) returns (s: State)
    requires Initial(s0) && !IsExternalReviewer(s0.row.roles)
    ensures Reaches(s0, s) && s.clock == s0.clock && s.nextRequest > s0.nextRequest
    ensures s.row == s0.row.(proof := Some(Proof(Sha256("X"), s0.clock + ENROLMENT_PROOF_TTL_MS, None)))
  {
    ReachesSelf(s0);
    var r, s1 := Arrives(s0, s0, LoadForCode);
    var s2 := Happens(s0, s1, r, true, "");
    s := Happens(s0, s2, r, true, "X");
  }

  lemma PasswordTyped(s0: State, s1: State) returns (s: State)
    requires Reaches(s0, s1) && HasToEnrolNow(s1)
    ensures Reaches(s0, s) && s.clock == s1.clock && s.row == s1.row && EnrolProof(StepExp(s)) in s.steps
  {
    var r, s2 := Arrives(s0, s1, LoadForLogin);
    var s3 := Happens(s0, s2, r, true, "");
    s := Happens(s0, s3, r, true, "");
  }

  predicate HasToEnrolNow(s: State) {
    && s.row.status == ACTIVE && s.row.accessEnd.None? && s.row.lockedUntil.None?
    && !IsExternalReviewer(s.row.roles) && !s.row.totpEnabled
  }

  lemma ProofTyped(s0: State, s1: State) returns (r: nat, s: State)
    requires Reaches(s0, s1) && HasToEnrolNow(s1) && EnrolProof(StepExp(s1)) in s1.steps
    requires s1.row.proof == Some(Proof(Sha256("X"), s1.clock + ENROLMENT_PROOF_TTL_MS, None))
    ensures Reaches(s0, s) && r < s.nextRequest && r in s.pending && s.pending[r].StoreSecret?
    ensures s.row == s1.row.(proof := None) && s.clock == s1.clock
  {
    var s2;
    r, s2 := Arrives(s0, s1, LoadForEnrol(EnrolProof(StepExp(s1)), "X"));
    assert Trim("X") == "X";
    hide Effect, Reaches, Trim, NormaliseCode;
    EnrolEffect(s2, s2.pending[r], true, "");
    var s3 := Happens(s0, s2, r, true, "");
    assert s3.pending[r] == LoadProof("X");
    EnrolEffect(s3, s3.pending[r], true, "");
    var s4 := Happens(s0, s3, r, true, "");
    EnrolEffect(s4, s4.pending[r], true, "");
    s := Happens(s0, s4, r, true, "");
  }

  /** A reset does fall into an enrolment: a proof is spent, and the reset comes before its secret
      is stored. After it, by `ResetIsSafeIff`, an authenticator can be confirmed with no proof
      spent since. */
  lemma ResetCanSplitEnrolment(s0: State) returns (s: State, r: nat)
    requires Initial(s0) && !IsExternalReviewer(s0.row.roles) && s0.row.accessEnd.None?
    ensures Reaches(s0, s) && r in s.pending && s.pending[r].ResetAuthenticator? && MidEnrolment(s)
  {
    var s1 := CodeHandedOver(s0);
    var s2 := PasswordTyped(s0, s1);
    var q, s3 := ProofTyped(s0, s2);
    r, s := Arrives(s0, s3, ResetAuthenticator);
    assert s.pending[q].StoreSecret?;
  }
}

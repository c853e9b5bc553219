/** The exceptions of the staff results are met from a newly created identity. */
module StaffWitnesses {
  import opened Optional
  import opened JsString
  import opened StaffModel
  import opened StaffEnrolment
  import opened StaffLockout
  import opened StaffReset

  /** Some interleaving leads from one state to the other. */
  ghost predicate Reached(s0: State, s: State) {
    exists run :: ValidRun(s0, run) && Run(s0, run) == s
  }

  lemma FromReaches(s0: State, s: State)
    requires Reaches(s0, s)
    ensures Reached(s0, s)
  {
  }

  lemma ReachedNext(s0: State, s: State, a: Action)
    requires Reached(s0, s) && CanHappen(s, a)
    ensures Reached(s0, Apply(s, a))
  {
    var run :| ValidRun(s0, run) && Run(s0, run) == s;
    RunThen(s0, run, a);
  }

  /** A member of staff who has typed a code and seen the secret of a new authenticator, and now confirms
      it: the row is read and the flag not yet set. */
  lemma Confirming(s0: State) returns (s: State, r: nat)
    requires Initial(s0) && !IsExternalReviewer(s0.row.roles) && s0.row.accessEnd.None?
    ensures Reaches(s0, s) && r in s.pending && s.pending[r].EnableTotp? && r < s.nextRequest
    ensures s.row.secret == Some(s.pending[r].secret) && !s.row.totpEnabled && s.row.failed == 0
    ensures s.row.status == ACTIVE && s.row.roles == s0.row.roles && s.row.accessEnd.None? && s.row.lockedUntil.None?
  {
    var s1 := CodeHandedOver(s0);
    var s2 := PasswordTyped(s0, s1);
    var q, s3 := ProofTyped(s0, s2);
    var s4 := SecretShown(s0, s3, q);
    r, s := ConfirmationRead(s0, s4, s3.pending[q].secret);
  }

  lemma SecretShown(s0: State, s1: State, q: nat) returns (s: State)
    requires Reaches(s0, s1) && q in s1.pending && s1.pending[q].StoreSecret?
    ensures Reaches(s0, s) && s.row == Unlocked(s1.row).(secret := Some(s1.pending[q].secret)) && s.clock == s1.clock
    ensures MfaSetup(s1.pending[q].secret, StepExp(s)) in s.steps
  {
    hide Reaches;
    s := Happens(s0, s1, q, true, "");
  }

  lemma ConfirmationRead(s0: State, s1: State, secret: nat) returns (r: nat, s: State)
    requires Reaches(s0, s1) && MfaSetup(secret, StepExp(s1)) in s1.steps && s1.row.secret == Some(secret)
    requires !s1.row.totpEnabled && s1.row.status == ACTIVE && s1.row.accessEnd.None?
    requires !IsExternalReviewer(s1.row.roles)
    ensures Reaches(s0, s) && s.row == s1.row && r in s.pending && r < s.nextRequest
    ensures s.pending[r].EnableTotp? && s.pending[r].secret == secret
  {
    hide Reaches;
    var s2;
    r, s2 := Arrives(s0, s1, LoadForVerify(MfaSetup(secret, StepExp(s1))));
    s := Happens(s0, s2, r, true, "");
  }

  lemma ResetFalls(s0: State, s1: State) returns (s: State)
    requires Reached(s0, s1)
    ensures Reached(s0, s) && s.clock == s1.clock
    ensures s.row == s1.row.(secret := None, totpEnabled := false, proof := None)
    ensures forall r <- s1.pending | r < s1.nextRequest :: r in s.pending && s.pending[r] == s1.pending[r]
    ensures s.nextRequest > s1.nextRequest
  {
    hide Reached;
    var r := s1.nextRequest;
    ReachedNext(s0, s1, Begin(ResetAuthenticator));
    var s2 := Apply(s1, Begin(ResetAuthenticator));
    ReachedNext(s0, s2, Advance(r, true, ""));
    s := Apply(s2, Advance(r, true, ""));
  }

  /** A flag can be about to be set for a secret that is no longer stored. */
  lemma FlagCanMissItsSecret(s0: State) returns (s: State, r: nat)
    requires Initial(s0) && !IsExternalReviewer(s0.row.roles) && s0.row.accessEnd.None?
    ensures Reached(s0, s) && r in s.pending && s.pending[r].EnableTotp? && s.row.secret != Some(s.pending[r].secret)
    ensures Step(s, r, true, "").row.totpEnabled && Step(s, r, true, "").row.secret.None?
  {
    hide Reaches, Reached;
    var s1;
    s1, r := Confirming(s0);
    FromReaches(s0, s1);
    s := ResetFalls(s0, s1);
  }

  lemma FlagSet(s0: State, s1: State, r: nat) returns (s: State)
    requires Reaches(s0, s1) && r in s1.pending && s1.pending[r].EnableTotp?
    ensures Reaches(s0, s) && s.row == s1.row.(totpEnabled := true) && s.clock == s1.clock
  {
    hide Reaches;
    s := Happens(s0, s1, r, true, "");
  }

  /** A sign-in that read the row, its password not yet compared. */
  lemma PasswordWaits(s0: State, s1: State) returns (s: State, r: nat)
    requires Reached(s0, s1) && s1.row.status == ACTIVE && s1.row.accessEnd.None? && s1.row.lockedUntil.None?
    ensures Reached(s0, s) && s.row == s1.row && s.clock == s1.clock
    ensures r in s.pending && s.pending[r] == CheckPassword(s1.row) && r < s.nextRequest
    ensures forall q <- s1.pending | q < s1.nextRequest :: q in s.pending && s.pending[q] == s1.pending[q]
  {
    hide Reached;
    r := s1.nextRequest;
    ReachedNext(s0, s1, Begin(LoadForLogin));
    var s2 := Apply(s1, Begin(LoadForLogin));
    ReachedNext(s0, s2, Advance(r, true, ""));
    s := Apply(s2, Advance(r, true, ""));
  }

  lemma PasswordFails(s0: State, s1: State, r: nat) returns (s: State)
    requires Reached(s0, s1) && r in s1.pending && s1.pending[r] == CheckPassword(s1.row)
    ensures Reached(s0, s) && s.row == s1.row.(failed := s1.row.failed + 1) && s.clock == s1.clock
    ensures forall q <- s1.pending | q != r :: q in s.pending && s.pending[q] == s1.pending[q]
  {
    hide Reached;
    ReachedNext(s0, s1, Advance(r, false, ""));
    var s2 := Apply(s1, Advance(r, false, ""));
    ReachedNext(s0, s2, Advance(r, false, ""));
    s := Apply(s2, Advance(r, false, ""));
  }

  /** A sign-in that read the row while there was an authenticator can still be under way when the
      identity has to enrol again and has failed once. */
  lemma LeftoverCanWait(s0: State) returns (s: State)
    requires Initial(s0) && !IsExternalReviewer(s0.row.roles) && s0.row.accessEnd.None?
    ensures Reached(s0, s) && HasToEnrol(s.row) && s.row.failed > 0 && HasLeftover(s)
  {
    hide Reaches, Reached;
    var s1, r := Confirming(s0);
    var s2 := FlagSet(s0, s1, r);
    FromReaches(s0, s2);
    var s3, left := PasswordWaits(s0, s2);
    var s4 := ResetFalls(s0, s3);
    var s5, q := PasswordWaits(s0, s4);
    s := PasswordFails(s0, s5, q);
    assert Leftover(s.pending[left], s.clock);
  }
}

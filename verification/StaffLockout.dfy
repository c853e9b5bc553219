/** The failed attempts of an identity that still has to enrol: nothing but a right proof, an
    operator's unlock or a disabling takes them back, so passwords alone cannot avoid the lock. */
module StaffLockout {
  import opened Optional
  import opened StaffModel

  /** A member of staff with no authenticator. */
  predicate HasToEnrol(row: Identity) {
    !row.totpEnabled && !IsExternalReviewer(row.roles)
  }

  /** The calls after which the count starts again by design, or the identity no longer has to
      enrol. */
  predicate StartsOver(op: Op) {
    match op
    case StoreSecret(_, _) => true
    case Unlock => true
    case WriteStatus(status) => status == DISABLED
    case EnableTotp(_, _) => true
    case WriteRoles(roles, _, _) => IsExternalReviewer(roles)
    case _ => false
  }

  /** No call of the run starts the count again; anything else may happen, in any order. */
  predicate PlainRun(s: State, run: seq<Action>)
    requires ValidRun(s, run)
    decreases |run|
  {
    run == [] ||
    (&& (run[0].Advance? ==> !StartsOver(s.pending[run[0].request]))
     && PlainRun(Apply(s, run[0]), run[1..]))
  }

  /** The failures counted along a run. */
  function Failures(s: State, run: seq<Action>): nat
    requires ValidRun(s, run)
    decreases |run|
  {
    if run == [] then 0
    else (if run[0].Advance? && s.pending[run[0].request].CountFailure? then 1 else 0)
         + Failures(Apply(s, run[0]), run[1..])
  }

  /** A sign-in under way that read the row when the identity had an authenticator or was a
      reviewer, and can still clear the count. */
  predicate Leftover(op: Op, now: int) {
    match op
    case ClearForReviewer(_) => true
    case ClearForMfa => true
    case CheckPassword(seen) =>
      if IsExternalReviewer(seen.roles) then seen.accessEnd.Some? && seen.accessEnd.value > now
      else seen.totpEnabled
    case _ => false
  }

  predicate HasLeftover(s: State) {
    exists r <- s.pending :: Leftover(s.pending[r], s.clock)
  }

  /** What one step does to the count when there is no leftover. */
  lemma EffectOnCount(s: State, op: Op, right: bool, text: string)
    requires HasToEnrol(s.row) && !Leftover(op, s.clock) && !StartsOver(op)
    ensures var o := Effect(s, op, right, text);
      && HasToEnrol(o.row)
      && o.row.failed == s.row.failed + (if op.CountFailure? then 1 else 0)
      && (o.next.Some? ==> !Leftover(o.next.value, s.clock))
  {
  }

  lemma StepOnCount(s: State, a: Action)
    requires HasToEnrol(s.row) && !HasLeftover(s) && CanHappen(s, a)
    requires a.Advance? ==> !StartsOver(s.pending[a.request])
    ensures var s' := Apply(s, a);
      && HasToEnrol(s'.row) && !HasLeftover(s')
      && s'.row.failed == s.row.failed + (if a.Advance? && s.pending[a.request].CountFailure? then 1 else 0)
  {
    if a.Advance? {
      var op := s.pending[a.request];
      assert !Leftover(op, s.clock);
      EffectOnCount(s, op, a.right, a.text);
    }
  }

  /** Every failure counts and nothing else does: while the identity has to enrol, no sequence of
      passwords and wrong proofs, right or wrong, together or apart, takes back a single one. */
  lemma {:induction false} FailuresAddUp(s: State, run: seq<Action>)
    requires HasToEnrol(s.row) && !HasLeftover(s)
    requires ValidRun(s, run) && PlainRun(s, run)
    ensures var s' := Run(s, run);
      && s'.row.failed == s.row.failed + Failures(s, run)
      && HasToEnrol(s'.row) && !HasLeftover(s')
    decreases |run|
  {
    if run != [] {
      StepOnCount(s, run[0]);
      FailuresAddUp(Apply(s, run[0]), run[1..]);
    }
  }

  /** From the fifth failure on, each one leads to a lock of 15 minutes from that failure. */
  lemma FifthFailureLocks(s: State, run: seq<Action>, r: nat, right: bool, text: string)
    requires HasToEnrol(s.row) && !HasLeftover(s)
    requires ValidRun(s, run) && PlainRun(s, run)
    requires s.row.failed + Failures(s, run) >= LOCKOUT_THRESHOLD - 1
    requires r in Run(s, run).pending && Run(s, run).pending[r].CountFailure?
    ensures var failed := Step(Run(s, run), r, right, text);
      && r in failed.pending && failed.pending[r] == SetLock(failed.clock + LOCKOUT_MS)
      && Step(failed, r, right, text).row.lockedUntil == Some(failed.clock + LOCKOUT_MS)
  {
    FailuresAddUp(s, run);
  }

  /** When a leftover sign-in can clear the count. */
  function WaitForLeftover(op: Op, now: int): (ms: nat)
    requires Leftover(op, now)
    ensures op.CheckPassword? && IsExternalReviewer(op.seen.roles) ==>
      ReviewerAccessIsValid(op.seen.accessEnd, now + ms)
  {
    if op.CheckPassword? && IsExternalReviewer(op.seen.roles) && op.seen.accessEnd.value > ReviewerAccessLatestEnd(now)
    then op.seen.accessEnd.value - ReviewerAccessLatestEnd(now)
    else 0
  }

  lemma LeftoverClears(s: State, r: nat) returns (run: seq<Action>)
    requires r in s.pending && Leftover(s.pending[r], s.clock)
    ensures ValidRun(s, run) && PlainRun(s, run) && Run(s, run).row.failed == 0
  {
    var op, clear := s.pending[r], Advance(r, true, "");
    if op.CheckPassword? {
      var wait := Tick(WaitForLeftover(op, s.clock));
      var s1 := Apply(s, wait);
      var s2 := Apply(s1, clear);
      assert s2.pending[r].ClearForReviewer? || s2.pending[r].ClearForMfa?;
      assert Apply(s2, clear).row.failed == 0;
      OneStepRun(s2, clear);
      PlainRunThen(s1, clear, [clear]);
      PlainRunThen(s, wait, [clear] + [clear]);
      run := [wait] + ([clear] + [clear]);
    } else {
      OneStepRun(s, clear);
      run := [clear];
    }
  }

  lemma OneStepRun(s: State, a: Action)
    requires CanHappen(s, a) && (a.Advance? ==> !StartsOver(s.pending[a.request]))
    ensures ValidRun(s, [a]) && PlainRun(s, [a]) && Run(s, [a]) == Apply(s, a)
  {
    assert [a][1..] == [];
  }

  lemma PlainRunThen(s: State, a: Action, rest: seq<Action>)
    requires CanHappen(s, a) && (a.Advance? ==> !StartsOver(s.pending[a.request]))
    requires ValidRun(Apply(s, a), rest) && PlainRun(Apply(s, a), rest)
    ensures ValidRun(s, [a] + rest) && PlainRun(s, [a] + rest) && Run(s, [a] + rest) == Run(Apply(s, a), rest)
  {
    assert ([a] + rest)[1..] == rest;
  }

  /** The count cannot be taken back by passwords exactly when no sign-in is under way that read
      the row before the identity had to enrol. */
  lemma CountIsKeptIff(s: State)
    requires HasToEnrol(s.row) && s.row.failed > 0
    ensures (forall run :: ValidRun(s, run) && PlainRun(s, run) ==> Run(s, run).row.failed >= s.row.failed)
            <==> !HasLeftover(s)
  {
    if HasLeftover(s) {
      var r :| r in s.pending && Leftover(s.pending[r], s.clock);
      var run := LeftoverClears(s, r);
      assert ValidRun(s, run) && PlainRun(s, run);
    } else {
      forall run | ValidRun(s, run) && PlainRun(s, run) ensures Run(s, run).row.failed >= s.row.failed {
        FailuresAddUp(s, run);
      }
    }
  }
}

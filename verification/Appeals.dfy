/** One account's appeals about one item, in every interleaving with new decisions about the item. */
module Appeals {
  import opened Optional
  import AppealDeadline

  /** An appeal as stored: when it was made, and what its request had read and checked. */
  datatype Appeal = Appeal(createdAt: int, about: Option<int>, checkedAt: int)

  /** What a request read: the time written down for the latest decision, if one was, and the last
      change of the item, if there is one. */
  datatype Reading = Reading(recorded: Option<int>, latest: Option<int>, at: int) {
    function Decided(): Option<int> {
      if recorded.Some? then recorded else latest
    }
  }

  /** A request after each of its awaited calls. */
  datatype Request =
    | HasRead(reading: Reading)
    | InTime(reading: Reading, checkedAt: int)
    | HoldsLock(reading: Reading, checkedAt: int)
    | HasChecked(reading: Reading, checkedAt: int, free: bool)

  datatype State = State(
    clock: int,
    decisions: seq<int>,
    appeals: seq<Appeal>,
    requests: map<nat, Request>,
    holder: Option<nat>)

  datatype Step =
    | Wait(now: int)
    /** Staff decide about the item: the time is written down with the decision. */
    | Decide
    | Read(id: nat, latest: Option<int>)
    | CheckDeadline(id: nat)
    | Lock(id: nat)
    | LookForEarlier(id: nat)
    /** The time of the appeal is set somewhere between the reading and the write. */
    | Create(id: nat, createdAt: int)
    | Refuse(id: nat)

  function Latest(s: State): Option<int> {
    if s.decisions == [] then None else Some(s.decisions[|s.decisions| - 1])
  }

  predicate DeadlinePassed(decided: Option<int>, now: int) {
    decided.Some? && AppealDeadline.Deadline(decided.value) < now
  }

  /** An earlier appeal that counts: of the decision read, or any when none was written down. */
  predicate Counts(a: Appeal, recorded: Option<int>) {
    recorded.Some? ==> a.createdAt >= recorded.value
  }

  predicate Enabled(s: State, a: Step) {
    match a
    case Wait(now) => s.clock <= now
    case Decide => true
    case Read(id, _) => id !in s.requests
    case CheckDeadline(id) => id in s.requests && s.requests[id].HasRead?
    case Lock(id) => id in s.requests && s.requests[id].InTime? && s.holder == None
    case LookForEarlier(id) => id in s.requests && s.requests[id].HoldsLock?
    case Create(id, createdAt) =>
      && id in s.requests && s.requests[id].HasChecked? && s.requests[id].free
      && s.requests[id].reading.at <= createdAt <= s.clock
    case Refuse(id) => id in s.requests && s.requests[id].HasChecked? && !s.requests[id].free
  }

  function Apply(s: State, a: Step): State
    requires Enabled(s, a)
  {
    match a
    case Wait(now) => s.(clock := now)
    case Decide => s.(decisions := s.decisions + [s.clock])
    case Read(id, latest) =>
      s.(requests := s.requests[id := HasRead(Reading(Latest(s), latest, s.clock))])
    case CheckDeadline(id) =>
      var reading := s.requests[id].reading;
      if DeadlinePassed(reading.Decided(), s.clock) then s.(requests := s.requests - {id})
      else s.(requests := s.requests[id := InTime(reading, s.clock)])
    case Lock(id) =>
      var r := s.requests[id];
      s.(requests := s.requests[id := HoldsLock(r.reading, r.checkedAt)], holder := Some(id))
    case LookForEarlier(id) =>
      var r := s.requests[id];
      var free := forall a <- s.appeals :: !Counts(a, r.reading.recorded);
      s.(requests := s.requests[id := HasChecked(r.reading, r.checkedAt, free)])
    case Create(id, createdAt) =>
      var r := s.requests[id];
      s.(appeals := s.appeals + [Appeal(createdAt, r.reading.Decided(), r.checkedAt)],
         requests := s.requests - {id}, holder := None)
    case Refuse(id) => s.(requests := s.requests - {id}, holder := None)
  }

  predicate ValidRun(s: State, run: seq<Step>)
    decreases |run|, 0
  {
    run == [] || (ValidRun(s, run[..|run| - 1]) && Enabled(Run(s, run[..|run| - 1]), run[|run| - 1]))
  }

  function Run(s: State, run: seq<Step>): State
    requires ValidRun(s, run)
    decreases |run|, 1
  {
    if run == [] then s else Apply(Run(s, run[..|run| - 1]), run[|run| - 1])
  }

  function Start(now: int): State {
    State(now, [], [], map[], None)
  }

  // ---- what every step keeps ----

  /** Two times lie on different sides of a decision: one before it, one at it or after. */
  predicate Parted(decisions: seq<int>, x: int, y: int) {
    exists d <- decisions :: (d <= x) != (d <= y)
  }

  ghost predicate ReadingOk(s: State, r: Reading) {
    r.at <= s.clock && (r.recorded.Some? ==> r.recorded.value in s.decisions && r.recorded.value <= r.at)
  }

  ghost predicate RequestOk(s: State, id: nat)
    requires id in s.requests
  {
    var r := s.requests[id];
    && ReadingOk(s, r.reading)
    && (!r.HasRead? ==> !DeadlinePassed(r.reading.Decided(), r.checkedAt))
    && (r.HoldsLock? || r.HasChecked? ==> s.holder == Some(id))
    && (r.HasChecked? ==> (r.free <==> forall a <- s.appeals :: !Counts(a, r.reading.recorded)))
  }

  ghost predicate AllParted(s: State) {
    forall i, j | 0 <= i < j < |s.appeals| :: Parted(s.decisions, s.appeals[i].createdAt, s.appeals[j].createdAt)
  }

  ghost predicate Inv(s: State) {
    && (forall d <- s.decisions :: d <= s.clock)
    && (forall id <- s.requests :: RequestOk(s, id))
    && AllParted(s)
    && (forall a <- s.appeals :: !DeadlinePassed(a.about, a.checkedAt))
  }

  lemma CreateKeeps(s: State, id: nat, createdAt: int)
    requires Inv(s) && Enabled(s, Create(id, createdAt))
    ensures AllParted(Apply(s, Create(id, createdAt)))
  {
    assert RequestOk(s, id);
    var t := Apply(s, Create(id, createdAt));
    var n := |s.appeals|;
    var recorded := s.requests[id].reading.recorded;
    forall i, j | 0 <= i < j < |t.appeals|
      ensures Parted(t.decisions, t.appeals[i].createdAt, t.appeals[j].createdAt)
    {
      if j == n {
        assert s.appeals[i] in s.appeals;
        assert !Counts(s.appeals[i], recorded);
        assert (recorded.value <= t.appeals[i].createdAt) != (recorded.value <= createdAt);
      } else {
        assert Parted(s.decisions, s.appeals[i].createdAt, s.appeals[j].createdAt);
      }
    }
  }

  lemma DecideKeeps(s: State)
    requires AllParted(s)
    ensures AllParted(Apply(s, Decide))
  {
    var t := Apply(s, Decide);
    forall i, j | 0 <= i < j < |t.appeals|
      ensures Parted(t.decisions, t.appeals[i].createdAt, t.appeals[j].createdAt)
    {
      var x, y := s.appeals[i].createdAt, s.appeals[j].createdAt;
      assert Parted(s.decisions, x, y);
      var d :| d in s.decisions && (d <= x) != (d <= y);
      assert d in t.decisions;
    }
  }

  lemma StepKeeps(s: State, a: Step)
    requires Inv(s) && Enabled(s, a)
    ensures Inv(Apply(s, a))
  {
    hide AppealDeadline.Deadline, Parted;
    var t := Apply(s, a);
    match a
    case Create(id, createdAt) =>
      CreateKeeps(s, id, createdAt);
      assert RequestOk(s, id);
      forall k <- t.requests ensures RequestOk(t, k) { assert RequestOk(s, k); }
    case Decide =>
      DecideKeeps(s);
      forall k <- t.requests ensures RequestOk(t, k) { assert RequestOk(s, k); }
    case _ =>
      assert AllParted(t) by { assert t.appeals == s.appeals && t.decisions == s.decisions; }
      forall k <- t.requests ensures RequestOk(t, k) { if k in s.requests { assert RequestOk(s, k); } }
  }

  lemma {:induction false} RunKeeps(now: int, run: seq<Step>)
    requires ValidRun(Start(now), run)
    ensures Inv(Run(Start(now), run))
    decreases |run|
  {
    hide Inv, Apply, Enabled;
    if run == [] { StartIsOk(now); }
    else {
      RunKeeps(now, run[..|run| - 1]);
      StepKeeps(Run(Start(now), run[..|run| - 1]), run[|run| - 1]);
    }
  }

  lemma StartIsOk(now: int)
    ensures Inv(Start(now))
  {
  }

  // ---- main results ----

  /** In every interleaving, any two appeals have a decision between them: at most one was made from
      one decision up to the next. */
  lemma EachDecisionOnce(now: int, run: seq<Step>, i: nat, j: nat)
    requires ValidRun(Start(now), run)
    requires i < j < |Run(Start(now), run).appeals|
    ensures var s := Run(Start(now), run);
      Parted(s.decisions, s.appeals[i].createdAt, s.appeals[j].createdAt)
  {
    RunKeeps(now, run);
  }

  /** The deadline of the decision read had not passed when it was checked. */
  lemma AskedInTime(now: int, run: seq<Step>, a: Appeal)
    requires ValidRun(Start(now), run) && a in Run(Start(now), run).appeals && a.about.Some?
    ensures a.checkedAt <= AppealDeadline.Deadline(a.about.value)
  {
    RunKeeps(now, run);
  }

  /** A request that has the lock is refused exactly when the decision it read has been appealed. */
  lemma RefusedIff(now: int, run: seq<Step>, id: nat)
    requires ValidRun(Start(now), run)
    requires var s := Run(Start(now), run); id in s.requests && s.requests[id].HasChecked?
    ensures var s := Run(Start(now), run);
      Enabled(s, Refuse(id)) <==> exists a <- s.appeals :: Counts(a, s.requests[id].reading.recorded)
  {
    RunKeeps(now, run);
    assert RequestOk(Run(Start(now), run), id);
  }
}

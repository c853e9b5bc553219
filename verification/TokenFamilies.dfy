/** The refresh tokens of participants: rotation inside a family, detection of reuse, and every way
    a family is emptied, over all runs of requests. Each request is one step.

    Tokens, families and sign-ins are numbered in the order they are made, each number used once
    (random identifiers do not repeat, digests do not collide). The first sign-in of an account is
    the one with the lowest number. */
module TokenFamilies {
  import opened Optional

  const REFRESH_TTL_MS: int := 7 * 24 * 60 * 60 * 1000
  const ACCESS_TTL_SEC: int := 15 * 60

  datatype Row = Row(user: nat, signIn: nat, family: nat, revoked: bool, expiresAt: int)

  /** What a signed refresh token says. */
  datatype Claims = Claims(user: nat, signIn: nat, family: nat, exp: int)

  datatype Access = Access(user: nat, signIn: nat, family: nat, exp: int)

  datatype Owner = Owner(user: nat, signIn: nat)

  /** `owners` and `rotated` record the past for the theorems: who each family was opened for, and
      which tokens were exchanged for a new one. */
  datatype State = State(
    clock: int,
    signIns: map<nat, nat>,
    rows: map<nat, Row>,
    signed: map<nat, Claims>,
    access: set<Access>,
    nextToken: nat,
    nextFamily: nat,
    nextSignIn: nat,
    owners: map<nat, Owner>,
    rotated: set<nat>)

  /** A request, or time passing. `operational` is what the account checks answer. */
  datatype Action =
    | Tick(ms: nat)
    | AddSignIn(user: nat)
    | RemoveSignIn(signIn: nat)
    | Login(user: nat, named: Option<nat>)
    | Refresh(token: nat, operational: bool)
    | Switch(access: Access)
    | Logout(user: nat, token: nat)
    | RevokeSession(user: nat, token: nat)
    | RevokeOthers(user: nat, family: nat)
    | ResetPassword(signIn: nat)
    | CloseAll(user: nat)

  function Seconds(ms: int): int {
    ms / 1000
  }

  /** deleteMany: the rows that match are gone. */
  function Without(rows: map<nat, Row>, gone: Row -> bool): map<nat, Row> {
    map t | t in rows && !gone(rows[t]) :: rows[t]
  }

  function WithoutFamily(rows: map<nat, Row>, user: nat, family: nat): map<nat, Row> {
    Without(rows, (row: Row) => row.user == user && row.family == family)
  }

  /** The sign-in a session is opened with: the one named, or the first of the account. */
  predicate IsSessionSignIn(signIns: map<nat, nat>, user: nat, named: Option<nat>, found: nat) {
    && found in signIns && signIns[found] == user
    && match named
       case Some(id) => found == id
       case None => forall other <- signIns :: signIns[other] == user ==> found <= other
  }

  function FirstOf(signIns: map<nat, nat>, user: nat, from: nat, bound: nat): (found: Option<nat>)
    ensures found.Some? ==>
      found.value in signIns && signIns[found.value] == user && from <= found.value
    ensures forall id <- signIns :: signIns[id] == user && from <= id < bound ==> found.Some? && found.value <= id
    decreases bound - from
  {
    if from >= bound then None
    else if from in signIns && signIns[from] == user then Some(from)
    else FirstOf(signIns, user, from + 1, bound)
  }

  function SessionSignIn(s: State, user: nat, named: Option<nat>): (found: Option<nat>)
    ensures found.Some? && (forall id <- s.signIns :: id < s.nextSignIn) ==>
      IsSessionSignIn(s.signIns, user, named, found.value)
  {
    match named
    case Some(id) => if id in s.signIns && s.signIns[id] == user then Some(id) else None
    case None => FirstOf(s.signIns, user, 0, s.nextSignIn)
  }

  /** generateTokens: an access token, and a refresh token with its row. */
  function Generate(s: State, user: nat, family: Option<nat>, named: Option<nat>): State {
    match SessionSignIn(s, user, named)
    case None => s
    case Some(signIn) =>
      var f := if family.Some? then family.value else s.nextFamily;
      var sec := Seconds(s.clock);
      s.(rows := s.rows[s.nextToken := Row(user, signIn, f, false, s.clock + REFRESH_TTL_MS)],
         signed := s.signed[s.nextToken := Claims(user, signIn, f, sec + REFRESH_TTL_MS / 1000)],
         access := s.access + {Access(user, signIn, f, sec + ACCESS_TTL_SEC)},
         nextToken := s.nextToken + 1,
         nextFamily := if family.Some? then s.nextFamily else s.nextFamily + 1,
         owners := if family.Some? then s.owners else s.owners[s.nextFamily := Owner(user, signIn)])
  }

  predicate Presented(s: State, token: nat) {
    token in s.signed && Seconds(s.clock) < s.signed[token].exp
  }

  /** Whether a presented token is exchanged for a new one. */
  predicate Rotates(s: State, token: nat, operational: bool) {
    && Presented(s, token) && token in s.rows
    && !s.rows[token].revoked && s.rows[token].expiresAt >= s.clock && operational
    && s.rows[token].user == s.signed[token].user
    && s.rows[token].signIn == s.signed[token].signIn
  }

  function OnRefresh(s: State, token: nat, operational: bool): State {
    if !Presented(s, token) || token !in s.rows then s
    else
      var row, payload := s.rows[token], s.signed[token];
      if row.user != payload.user then s
      else if row.revoked then s.(rows := WithoutFamily(s.rows, row.user, row.family))
      else if row.expiresAt < s.clock || !operational || payload.signIn != row.signIn then s.(rows := s.rows - {token})
      else
        Generate(s.(rows := s.rows[token := row.(revoked := true)], rotated := s.rotated + {token}),
                 payload.user, Some(row.family), Some(row.signIn))
  }

  predicate AccessGood(s: State, a: Access) {
    && a in s.access
    && Seconds(s.clock) < a.exp
    && a.signIn in s.signIns && s.signIns[a.signIn] == a.user
  }

  predicate Open(s: State, user: nat, family: nat) {
    exists t <- s.rows :: s.rows[t].user == user && s.rows[t].family == family
                          && !s.rows[t].revoked && s.rows[t].expiresAt > s.clock
  }

  function Apply(s: State, a: Action): State {
    match a
    case Tick(ms) => s.(clock := s.clock + ms)
    case AddSignIn(user) => s.(signIns := s.signIns[s.nextSignIn := user], nextSignIn := s.nextSignIn + 1)
    case RemoveSignIn(signIn) =>
      s.(signIns := s.signIns - {signIn}, rows := Without(s.rows, (row: Row) => row.signIn == signIn))
    case Login(user, named) => Generate(s, user, None, named)
    case Refresh(token, operational) => OnRefresh(s, token, operational)
    case Switch(access) =>
      if AccessGood(s, access) then Generate(s, access.user, Some(access.family), Some(access.signIn)) else s
    case Logout(user, token) =>
      if token in s.rows && s.rows[token].user == user
      then s.(rows := WithoutFamily(s.rows, user, s.rows[token].family)) else s
    case RevokeSession(user, token) =>
      if token in s.rows && s.rows[token].user == user
      then s.(rows := WithoutFamily(s.rows, user, s.rows[token].family)) else s
    case RevokeOthers(user, family) =>
      if Open(s, user, family)
      then s.(rows := Without(s.rows, (row: Row) => row.user == user && row.family != family)) else s
    case ResetPassword(signIn) =>
      if signIn in s.signIns
      then var user := s.signIns[signIn];
           s.(rows := Without(s.rows, (row: Row) => row.user == user && row.signIn == signIn))
      else s
    case CloseAll(user) => s.(rows := Without(s.rows, (row: Row) => row.user == user))
  }

  function Run(s: State, run: seq<Action>): State
    decreases |run|
  {
    if run == [] then s else Run(Apply(s, run[0]), run[1..])
  }

  predicate Initial(s: State) {
    && s.rows == map[] && s.signed == map[] && s.access == {} && s.owners == map[] && s.rotated == {}
    && forall id <- s.signIns :: id < s.nextSignIn
  }

  // ---- what every run keeps ----

  predicate Owned(s: State, family: nat, user: nat, signIn: nat) {
    family in s.owners && s.owners[family] == Owner(user, signIn)
  }

  ghost predicate Inv(s: State) {
    && (forall id <- s.signIns :: id < s.nextSignIn)
    && (forall f <- s.owners ::
          && f < s.nextFamily && s.owners[f].signIn < s.nextSignIn
          && (s.owners[f].signIn in s.signIns ==> s.signIns[s.owners[f].signIn] == s.owners[f].user))
    && (forall t <- s.rows ::
          t in s.signed && Owned(s, s.rows[t].family, s.rows[t].user, s.rows[t].signIn)
          && s.signed[t].family == s.rows[t].family)
    && (forall t <- s.signed :: t < s.nextToken && Owned(s, s.signed[t].family, s.signed[t].user, s.signed[t].signIn))
    && (forall a <- s.access :: Owned(s, a.family, a.user, a.signIn) && a.exp <= Seconds(s.clock) + ACCESS_TTL_SEC)
    && (forall t <- s.rotated :: t in s.signed && (t in s.rows ==> s.rows[t].revoked))
  }

  lemma GenerateKeepsInv(s: State, user: nat, family: Option<nat>, named: Option<nat>)
    requires Inv(s)
    requires family.Some? ==> named.Some? && Owned(s, family.value, user, named.value)
    ensures Inv(Generate(s, user, family, named))
  {
  }

  lemma FewerRowsKeepInv(s: State, rows: map<nat, Row>)
    requires Inv(s) && forall t <- rows :: t in s.rows && rows[t] == s.rows[t]
    ensures Inv(s.(rows := rows))
  {
  }

  lemma RefreshKeepsInv(s: State, token: nat, operational: bool)
    requires Inv(s)
    ensures Inv(OnRefresh(s, token, operational))
  {
    if Rotates(s, token, operational) {
      var row := s.rows[token];
      GenerateKeepsInv(s.(rows := s.rows[token := row.(revoked := true)], rotated := s.rotated + {token}),
                       row.user, Some(row.family), Some(row.signIn));
    } else {
      FewerRowsKeepInv(s, OnRefresh(s, token, operational).rows);
    }
  }

  lemma TimeAndSignInsKeepInv(s: State, a: Action)
    requires Inv(s) && (a.Tick? || a.AddSignIn? || a.RemoveSignIn?)
    ensures Inv(Apply(s, a))
  {
    hide Generate, OnRefresh;
  }

  lemma ActionKeepsInv(s: State, a: Action)
    requires Inv(s)
    ensures Inv(Apply(s, a))
  {
    match a {
      case Login(user, named) => GenerateKeepsInv(s, user, None, named);
      case Refresh(token, operational) => RefreshKeepsInv(s, token, operational);
      case Switch(access) =>
        if AccessGood(s, access) { GenerateKeepsInv(s, access.user, Some(access.family), Some(access.signIn)); }
      case Tick(_) => TimeAndSignInsKeepInv(s, a);
      case AddSignIn(_) => TimeAndSignInsKeepInv(s, a);
      case RemoveSignIn(_) => TimeAndSignInsKeepInv(s, a);
      case _ => FewerRowsKeepInv(s, Apply(s, a).rows);
    }
    hide Inv, Generate, OnRefresh;
  }

  lemma {:induction false} RunKeepsInv(s: State, run: seq<Action>)
    requires Inv(s)
    ensures Inv(Run(s, run))
    decreases |run|
  {
    if run != [] {
      ActionKeepsInv(s, run[0]);
      RunKeepsInv(Apply(s, run[0]), run[1..]);
    }
  }

  lemma StartKeepsInv(s: State)
    requires Initial(s)
    ensures Inv(s)
  {
  }

  // ---- one owner ----

  lemma OwnersStay(s: State, a: Action, f: nat)
    requires Inv(s) && f in s.owners
    ensures f in Apply(s, a).owners && Apply(s, a).owners[f] == s.owners[f]
  {
  }

  lemma {:induction false} OwnersStayInRun(s: State, run: seq<Action>, f: nat)
    requires Inv(s) && f in s.owners
    ensures f in Run(s, run).owners && Run(s, run).owners[f] == s.owners[f]
    decreases |run|
  {
    if run != [] {
      OwnersStay(s, run[0], f);
      ActionKeepsInv(s, run[0]);
      OwnersStayInRun(Apply(s, run[0]), run[1..], f);
    }
  }

  /** Whatever happens between, two rows of one family - at one moment or at two - belong to one
      user and one sign-in. */
  lemma FamilyHasOneOwner(s0: State, run: seq<Action>, later: seq<Action>, t: nat, u: nat)
    requires Initial(s0)
    requires var s := Run(s0, run); var s' := Run(s, later);
      t in s.rows && u in s'.rows && s.rows[t].family == s'.rows[u].family
    ensures var s := Run(s0, run); var s' := Run(s, later);
      s.rows[t].user == s'.rows[u].user && s.rows[t].signIn == s'.rows[u].signIn
  {
    RunKeepsInv(s0, run);
    var s := Run(s0, run);
    RunKeepsInv(s, later);
    OwnersStayInRun(s, later, s.rows[t].family);
  }

  // ---- one live row ----

  predicate OneLive(s: State) {
    forall t <- s.rows, u <- s.rows ::
      !s.rows[t].revoked && !s.rows[u].revoked && s.rows[t].family == s.rows[u].family ==> t == u
  }

  predicate HasLive(s: State, family: nat) {
    exists t <- s.rows :: s.rows[t].family == family && !s.rows[t].revoked
  }

  /** A change of Profile in a session that still has its token. */
  predicate Doubles(s: State, a: Action) {
    a.Switch? && AccessGood(s, a.access) && HasLive(s, a.access.family)
  }

  lemma GenerateOneLive(s: State, user: nat, family: Option<nat>, named: Option<nat>)
    requires Inv(s) && OneLive(s) && SessionSignIn(s, user, named).Some?
    ensures OneLive(Generate(s, user, family, named)) <==> (family.Some? ==> !HasLive(s, family.value))
  {
    var s' := Generate(s, user, family, named);
    if family.Some? && HasLive(s, family.value) {
      var t :| t in s.rows && s.rows[t].family == family.value && !s.rows[t].revoked;
      assert t != s.nextToken && t in s'.rows && s.nextToken in s'.rows;
    }
  }

  lemma RefreshOneLive(s: State, token: nat, operational: bool)
    requires Inv(s) && OneLive(s)
    ensures OneLive(OnRefresh(s, token, operational))
  {
    if Rotates(s, token, operational) {
      var row := s.rows[token];
      var s1 := s.(rows := s.rows[token := row.(revoked := true)], rotated := s.rotated + {token});
      if SessionSignIn(s1, row.user, Some(row.signIn)).Some? {
        assert !HasLive(s1, row.family);
        assert Inv(s1);
        GenerateOneLive(s1, row.user, Some(row.family), Some(row.signIn));
      }
    }
  }

  /** A step gives some family a second live row exactly when it is such a change of Profile. */
  lemma OneLiveIff(s: State, a: Action)
    requires Inv(s) && OneLive(s)
    ensures OneLive(Apply(s, a)) <==> !Doubles(s, a)
  {
    match a {
      case Login(user, named) =>
        if SessionSignIn(s, user, named).Some? { GenerateOneLive(s, user, None, named); }
      case Refresh(token, operational) => RefreshOneLive(s, token, operational);
      case Switch(access) =>
        if AccessGood(s, access) { GenerateOneLive(s, access.user, Some(access.family), Some(access.signIn)); }
      case _ =>
    }
  }

  predicate AlwaysOneLive(s: State, run: seq<Action>)
    decreases |run|
  {
    OneLive(s) && (run == [] || AlwaysOneLive(Apply(s, run[0]), run[1..]))
  }

  predicate NeverDoubles(s: State, run: seq<Action>)
    decreases |run|
  {
    run == [] || (!Doubles(s, run[0]) && NeverDoubles(Apply(s, run[0]), run[1..]))
  }

  /** At every moment of a run each family has at most one live row, exactly when no session
      changes Profile while it still has its token. */
  lemma {:induction false} AlwaysOneLiveIff(s: State, run: seq<Action>)
    requires Inv(s) && OneLive(s)
    ensures AlwaysOneLive(s, run) <==> NeverDoubles(s, run)
    decreases |run|
  {
    if run != [] {
      OneLiveIff(s, run[0]);
      ActionKeepsInv(s, run[0]);
      if OneLive(Apply(s, run[0])) { AlwaysOneLiveIff(Apply(s, run[0]), run[1..]); }
    }
  }

  // ---- emptied families ----

  predicate Closed(s: State, family: nat) {
    forall t <- s.rows :: s.rows[t].family != family
  }

  /** Presenting a token that was exchanged before never yields another, and changes no other family.
      It leaves its own family empty exactly when its row is still there or the family is empty
      already. */
  lemma ReuseEmptiesFamilyIff(s0: State, run: seq<Action>, token: nat, operational: bool)
    requires Initial(s0)
    requires var s := Run(s0, run); token in s.rotated && Presented(s, token)
    ensures var s := Run(s0, run); var s' := Apply(s, Refresh(token, operational));
      var f := s.signed[token].family;
      && s' == s.(rows := s'.rows)
      && (Closed(s', f) <==> token in s.rows || Closed(s, f))
      && (forall t <- s.rows :: s.rows[t].family != f ==> t in s'.rows && s'.rows[t] == s.rows[t])
  {
    StartKeepsInv(s0);
    RunKeepsInv(s0, run);
  }

  /** Every exchanged token that may still be presented empties its family when it is. */
  predicate Detects(s: State) {
    forall t <- s.rotated :: Presented(s, t) ==> t in s.rows || Closed(s, s.signed[t].family)
  }

  /** A change of Profile in a session that was ended, one token of which was exchanged and may still be
      presented. */
  predicate Hides(s: State, a: Action) {
    && a.Switch? && AccessGood(s, a.access) && Closed(s, a.access.family)
    && exists t <- s.rotated :: Presented(s, t) && s.signed[t].family == a.access.family
  }

  /** A deletion by user, by sign-in or by family takes whole families. */
  ghost predicate ByFamily(s: State, rows: map<nat, Row>) {
    && (forall t <- rows :: t in s.rows && rows[t] == s.rows[t])
    && (forall t <- s.rows, u <- s.rows :: s.rows[t].family == s.rows[u].family && t in rows ==> u in rows)
  }

  lemma WholeFamiliesDetect(s: State, rows: map<nat, Row>)
    requires Inv(s) && Detects(s) && ByFamily(s, rows)
    ensures Detects(s.(rows := rows))
  {
  }

  lemma ClosedAfterGenerate(s: State, user: nat, family: Option<nat>, named: Option<nat>, g: nat)
    requires Inv(s) && SessionSignIn(s, user, named).Some?
    ensures Closed(Generate(s, user, family, named), g) <==>
      Closed(s, g) && g != if family.Some? then family.value else s.nextFamily
  {
    var s' := Generate(s, user, family, named);
    assert s.nextToken in s'.rows && s'.rows[s.nextToken].family == if family.Some? then family.value else s.nextFamily;
    if Closed(s', g) {
      forall t <- s.rows ensures s.rows[t].family != g { assert t in s'.rows && s'.rows[t] == s.rows[t]; }
    }
  }

  lemma GenerateDetects(s: State, user: nat, family: Option<nat>, named: Option<nat>)
    requires Inv(s) && Detects(s) && SessionSignIn(s, user, named).Some?
    ensures Detects(Generate(s, user, family, named)) <==>
      (forall t <- s.rotated :: Presented(s, t) && family == Some(s.signed[t].family) ==> t in s.rows)
  {
    var s' := Generate(s, user, family, named);
    forall t <- s.rotated
      ensures t in s'.signed && s'.signed[t] == s.signed[t] && (Presented(s', t) <==> Presented(s, t))
      ensures t in s'.rows <==> t in s.rows
      ensures Closed(s', s.signed[t].family) <==> Closed(s, s.signed[t].family) && family != Some(s.signed[t].family)
    {
      ClosedAfterGenerate(s, user, family, named, s.signed[t].family);
    }
  }

  lemma RefreshDetects(s: State, token: nat, operational: bool)
    requires Inv(s) && Detects(s)
    ensures Detects(OnRefresh(s, token, operational))
  {
    if Rotates(s, token, operational) {
      var row := s.rows[token];
      var s1 := s.(rows := s.rows[token := row.(revoked := true)], rotated := s.rotated + {token});
      assert Inv(s1);
      forall t <- s.rotated ensures Closed(s1, s.signed[t].family) <==> Closed(s, s.signed[t].family) {
        SameFamilies(s, s1, s.signed[t].family);
      }
      if SessionSignIn(s1, row.user, Some(row.signIn)).Some? {
        GenerateDetects(s1, row.user, Some(row.family), Some(row.signIn));
      }
    } else if token in s.rows && s.rows[token].revoked {
      WholeFamiliesDetect(s, OnRefresh(s, token, operational).rows);
    }
  }

  lemma SameFamilies(s: State, s': State, f: nat)
    requires s'.rows.Keys == s.rows.Keys && forall t <- s.rows :: s'.rows[t].family == s.rows[t].family
    ensures Closed(s', f) <==> Closed(s, f)
  {
  }

  /** A step makes some exchanged token pass unnoticed exactly when it is such a change of Profile. */
  lemma DetectsIff(s: State, a: Action)
    requires Inv(s) && Detects(s)
    ensures Detects(Apply(s, a)) <==> !Hides(s, a)
  {
    hide Generate, OnRefresh, SessionSignIn;
    match a {
      case Tick(_) =>
      case AddSignIn(_) =>
      case Login(user, named) =>
        if SessionSignIn(s, user, named).Some? { GenerateDetects(s, user, None, named); }
        else { NoSignIn(s, user, None, named); }
      case Refresh(token, operational) => RefreshDetects(s, token, operational);
      case Switch(access) =>
        if AccessGood(s, access) {
          NamedSignIn(s, access);
          GenerateDetects(s, access.user, Some(access.family), Some(access.signIn));
        }
      case _ => WholeFamiliesDetect(s, Apply(s, a).rows);
    }
  }

  lemma NoSignIn(s: State, user: nat, family: Option<nat>, named: Option<nat>)
    requires SessionSignIn(s, user, named).None?
    ensures Generate(s, user, family, named) == s
  {
  }

  lemma NamedSignIn(s: State, a: Access)
    requires AccessGood(s, a)
    ensures SessionSignIn(s, a.user, Some(a.signIn)).Some?
  {
  }

  predicate AlwaysDetects(s: State, run: seq<Action>)
    decreases |run|
  {
    Detects(s) && (run == [] || AlwaysDetects(Apply(s, run[0]), run[1..]))
  }

  predicate NeverHides(s: State, run: seq<Action>)
    decreases |run|
  {
    run == [] || (!Hides(s, run[0]) && NeverHides(Apply(s, run[0]), run[1..]))
  }

  lemma {:induction false} DetectsAlong(s: State, run: seq<Action>)
    requires Inv(s) && Detects(s)
    ensures AlwaysDetects(s, run) <==> NeverHides(s, run)
    ensures NeverHides(s, run) ==> Detects(Run(s, run))
    decreases |run|
  {
    hide Detects, Hides, Inv;
    if run != [] {
      DetectsIff(s, run[0]);
      ActionKeepsInv(s, run[0]);
      if Detects(Apply(s, run[0])) { DetectsAlong(Apply(s, run[0]), run[1..]); }
    }
  }

  /** At every moment of a run, whichever exchanged token is presented then, its whole family is empty
      afterwards - exactly when no ended session with such a token is opened again by a change of
      Profile. */
  lemma ReuseIsAlwaysDetectedIff(s0: State, run: seq<Action>)
    requires Initial(s0)
    ensures AlwaysDetects(s0, run) <==> NeverHides(s0, run)
  {
    StartKeepsInv(s0);
    DetectsAlong(s0, run);
  }

  lemma ReuseEmptiesFamily(s0: State, run: seq<Action>, token: nat, operational: bool)
    requires Initial(s0) && NeverHides(s0, run)
    requires var s := Run(s0, run); token in s.rotated && Presented(s, token)
    ensures var s := Run(s0, run);
      Closed(Apply(s, Refresh(token, operational)), s.signed[token].family)
  {
    StartKeepsInv(s0);
    DetectsAlong(s0, run);
    ReuseEmptiesFamilyIff(s0, run, token, operational);
  }

  /** Logging out, or revoking a listed session, empties exactly the family of the row named. */
  lemma LogoutEmptiesFamily(s0: State, run: seq<Action>, user: nat, token: nat, a: Action)
    requires Initial(s0) && (a == Logout(user, token) || a == RevokeSession(user, token))
    requires var s := Run(s0, run); token in s.rows && s.rows[token].user == user
    ensures var s := Run(s0, run); var s' := Apply(s, a);
      && Closed(s', s.rows[token].family)
      && (forall t <- s.rows :: s.rows[t].family != s.rows[token].family ==> t in s'.rows && s'.rows[t] == s.rows[t])
  {
    StartKeepsInv(s0);
    RunKeepsInv(s0, run);
  }

  /** Resetting the password of a sign-in empties every family it opened, and no other. */
  lemma ResetEmptiesItsFamilies(s0: State, run: seq<Action>, signIn: nat, f: nat)
    requires Initial(s0)
    requires var s := Run(s0, run); signIn in s.signIns && f in s.owners
    ensures var s := Run(s0, run); var s' := Apply(s, ResetPassword(signIn));
      if s.owners[f].signIn == signIn then Closed(s', f)
      else forall t <- s.rows :: s.rows[t].family == f ==> t in s'.rows && s'.rows[t] == s.rows[t]
  {
    StartKeepsInv(s0);
    RunKeepsInv(s0, run);
  }

  /** A family can get a row again: some access token of it is still good. */
  predicate Reopenable(s: State, family: nat) {
    exists a <- s.access :: a.family == family && AccessGood(s, a)
  }

  lemma AccessStaysBad(s: State, a: Action, x: Access)
    requires Inv(s) && x in s.access && !AccessGood(s, x)
    ensures !AccessGood(Apply(s, a), x)
  {
    assert s.owners[x.family] == Owner(x.user, x.signIn);
  }

  lemma StaysClosed(s: State, a: Action, f: nat)
    requires Inv(s) && f in s.owners && Closed(s, f) && !Reopenable(s, f)
    ensures Closed(Apply(s, a), f) && !Reopenable(Apply(s, a), f) && f in Apply(s, a).owners
  {
    OwnersStay(s, a, f);
    ClosedUnlessReopened(s, a, f);
    var s' := Apply(s, a);
    forall x | x in s'.access && x.family == f ensures !AccessGood(s', x) {
      assert x in s.access;
      AccessStaysBad(s, a, x);
    }
  }

  /** Only a change of Profile gives an emptied family a row, or signs anything for it. */
  lemma ClosedUnlessReopened(s: State, a: Action, f: nat)
    requires Inv(s) && f in s.owners && Closed(s, f)
    requires a.Switch? && AccessGood(s, a.access) ==> a.access.family != f
    ensures Closed(Apply(s, a), f)
    ensures forall x <- Apply(s, a).access :: x.family == f ==> x in s.access
  {
  }

  lemma {:induction false} StaysClosedInRun(s: State, run: seq<Action>, f: nat)
    requires Inv(s) && f in s.owners && Closed(s, f) && !Reopenable(s, f)
    ensures Closed(Run(s, run), f)
    decreases |run|
  {
    if run != [] {
      StaysClosed(s, run[0], f);
      ActionKeepsInv(s, run[0]);
      StaysClosedInRun(Apply(s, run[0]), run[1..], f);
    }
  }

  lemma SwitchReopens(s: State, a: Access)
    requires AccessGood(s, a)
    ensures !Closed(Run(s, [Switch(a)]), a.family)
  {
    var later, s' := [Switch(a)], Apply(s, Switch(a));
    assert later[1..] == [] && Run(s, later) == Run(s', []) == s';
    assert s.nextToken in s'.rows && s'.rows[s.nextToken].family == a.family;
  }

  /** An emptied family never has a row again exactly when none of its access tokens is still
      good: changing Profile asks for an access token, not for an open session. */
  lemma NeverReopensIff(s0: State, run: seq<Action>, f: nat)
    requires Initial(s0)
    requires var s := Run(s0, run); f in s.owners && Closed(s, f)
    ensures var s := Run(s0, run); (forall later :: Closed(Run(s, later), f)) <==> !Reopenable(s, f)
  {
    StartKeepsInv(s0);
    RunKeepsInv(s0, run);
    var s := Run(s0, run);
    if Reopenable(s, f) {
      var a :| a in s.access && a.family == f && AccessGood(s, a);
      SwitchReopens(s, a);
      assert !Closed(Run(s, [Switch(a)]), f);
    } else {
      forall later ensures Closed(Run(s, later), f) { StaysClosedInRun(s, later, f); }
    }
  }

  /** No change of Profile of this family succeeds along the run. */
  predicate NoSwitchOf(s: State, run: seq<Action>, f: nat)
    decreases |run|
  {
    run == [] ||
    (&& (run[0].Switch? && AccessGood(s, run[0].access) ==> run[0].access.family != f)
     && NoSwitchOf(Apply(s, run[0]), run[1..], f))
  }

  lemma {:induction false} AccessRunsOut(s: State, run: seq<Action>, f: nat, bound: int)
    requires Inv(s) && f in s.owners && Closed(s, f) && NoSwitchOf(s, run, f)
    requires forall x <- s.access :: x.family == f ==> x.exp <= bound
    ensures var s' := Run(s, run); Closed(s', f) && forall x <- s'.access :: x.family == f ==> x.exp <= bound
    decreases |run|
  {
    if run != [] {
      OwnersStay(s, run[0], f);
      ClosedUnlessReopened(s, run[0], f);
      ActionKeepsInv(s, run[0]);
      AccessRunsOut(Apply(s, run[0]), run[1..], f, bound);
    }
  }

  /** So a family left alone for fifteen minutes after it was emptied stays empty for ever. */
  lemma EmptyAfterFifteenMinutes(s0: State, run: seq<Action>, wait: seq<Action>, later: seq<Action>, f: nat)
    requires Initial(s0)
    requires var s := Run(s0, run); f in s.owners && Closed(s, f) && NoSwitchOf(s, wait, f)
    requires Run(Run(s0, run), wait).clock >= Run(s0, run).clock + ACCESS_TTL_SEC * 1000
    ensures Closed(Run(Run(Run(s0, run), wait), later), f)
  {
    StartKeepsInv(s0);
    RunKeepsInv(s0, run);
    var s := Run(s0, run);
    AccessRunsOut(s, wait, f, Seconds(s.clock) + ACCESS_TTL_SEC);
    RunKeepsInv(s, wait);
    OwnersStayInRun(s, wait, f);
    StaysClosedInRun(Run(s, wait), later, f);
  }

  // ---- the exceptions occur ----

  lemma RunOn(s0: State, run: seq<Action>, a: Action)
    ensures Run(s0, run + [a]) == Apply(Run(s0, run), a)
    decreases |run|
  {
    if run == [] {
      assert [a][1..] == [] && run + [a] == [a];
      assert Run(Apply(s0, a), []) == Apply(s0, a);
    } else {
      assert (run + [a])[1..] == run[1..] + [a];
      RunOn(Apply(s0, run[0]), run[1..], a);
    }
  }

  /** A sign-in and a session opened with it. */
  lemma SessionOpens(s0: State, user: nat) returns (run: seq<Action>, x: Access, token: nat)
    requires Initial(s0)
    ensures var s := Run(s0, run);
      && AccessGood(s, x) && x.family in s.owners && x.user == user
      && Rotates(s, token, true) && s.rows[token] == Row(user, x.signIn, x.family, false, s.rows[token].expiresAt)
      && s.signed[token].family == x.family && token < s.nextToken
  {
    var id := s0.nextSignIn;
    var add, login := AddSignIn(user), Login(user, Some(id));
    run := [] + [add] + [login];
    RunOn(s0, [], add);
    RunOn(s0, [] + [add], login);
    token := s0.nextToken;
    x := Access(user, id, s0.nextFamily, Seconds(s0.clock) + ACCESS_TTL_SEC);
    assert Run(s0, []) == s0;
  }

  /** A session that changes Profile while it has its token gets a second live one. */
  lemma SwitchCanDouble(s0: State, user: nat) returns (run: seq<Action>, a: Action)
    requires Initial(s0)
    ensures Doubles(Run(s0, run), a) && !OneLive(Apply(Run(s0, run), a))
  {
    var x, token;
    run, x, token := SessionOpens(s0, user);
    var s := Run(s0, run);
    a := Switch(x);
    assert HasLive(s, x.family);
    var s' := Apply(s, a);
    assert s.nextToken in s'.rows && token in s'.rows && token != s.nextToken;
  }

  /** A session that was ended can be opened again. */
  lemma EndedCanReopen(s0: State, user: nat) returns (run: seq<Action>, f: nat)
    requires Initial(s0)
    ensures var s := Run(s0, run); f in s.owners && Closed(s, f) && Reopenable(s, f)
  {
    var x, token;
    run, x, token := SessionOpens(s0, user);
    f := x.family;
    LogoutEmptiesFamily(s0, run, user, token, Logout(user, token));
    RunOn(s0, run, Logout(user, token));
    run := run + [Logout(user, token)];
    assert x in Run(s0, run).access && AccessGood(Run(s0, run), x);
  }

  /** A token exchanged in a session that was ended and opened again passes unnoticed: presenting it
      changes nothing, and the family keeps its rows. */
  lemma ReuseCanPassUnnoticed(s0: State, user: nat) returns (run: seq<Action>, token: nat)
    requires Initial(s0)
    ensures !NeverHides(s0, run)
    ensures var s := Run(s0, run);
      && token in s.rotated && Presented(s, token) && !Closed(s, s.signed[token].family)
      && Apply(s, Refresh(token, true)) == s
  {
    var x;
    run, x, token := SessionOpens(s0, user);
    var s1 := Run(s0, run);
    RunOn(s0, run, Refresh(token, true));
    run := run + [Refresh(token, true)];
    var s2 := Run(s0, run);
    var next := s1.nextToken;
    assert next in s2.rows && s2.rows[next].user == user && s2.rows[next].family == x.family;
    RunOn(s0, run, Logout(user, next));
    run := run + [Logout(user, next)];
    var s3 := Run(s0, run);
    assert AccessGood(s3, x) && token !in s3.rows;
    RunOn(s0, run, Switch(x));
    run := run + [Switch(x)];
    var s := Run(s0, run);
    assert s3.nextToken in s.rows && s.rows[s3.nextToken].family == x.family;
    StartKeepsInv(s0);
    RunKeepsInv(s0, run);
    assert !Detects(s);
    DetectsAlong(s0, run);
  }
}

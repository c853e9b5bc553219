/** The session methods of the participant service as they are written, on one store of rows; each
    does to the store what `TokenFamilies` says of its request. */
module FamilyService {
  import opened Optional
  import opened TokenFamilies

  class SessionStore {
    var clock: int
    var signIns: map<nat, nat>
    var rows: map<nat, Row>
    var signed: map<nat, Claims>
    var access: set<Access>
    var nextToken: nat
    var nextFamily: nat
    var nextSignIn: nat
    ghost var owners: map<nat, Owner>
    ghost var rotated: set<nat>

    ghost function Now(): State
      reads this
    {
      State(clock, signIns, rows, signed, access, nextToken, nextFamily, nextSignIn, owners, rotated)
    }

    constructor (clock: int)
      ensures Initial(Now()) && this.clock == clock
    {
      this.clock := clock;
      signIns, rows, signed, access := map[], map[], map[], {};
      nextToken, nextFamily, nextSignIn := 0, 0, 0;
      owners, rotated := map[], {};
    }

    method FindSignIn(user: nat, named: Option<nat>) returns (found: Option<nat>)
      ensures found == SessionSignIn(Now(), user, named)
    {
      if named.Some? {
        return if named.value in signIns && signIns[named.value] == user then named else None;
      }
      var id := 0;
      while id < nextSignIn
        invariant 0 <= id <= nextSignIn
        invariant FirstOf(signIns, user, 0, nextSignIn) == FirstOf(signIns, user, id, nextSignIn)
      {
        if id in signIns && signIns[id] == user { return Some(id); }
        id := id + 1;
      }
      return None;
    }

    method GenerateTokens(user: nat, family: Option<nat>, named: Option<nat>) returns (token: Option<nat>)
      modifies this
      ensures Now() == Generate(old(Now()), user, family, named)
      ensures token == if SessionSignIn(old(Now()), user, named).Some? then Some(old(nextToken)) else None
    {
      hide SessionSignIn, Seconds;
      var signIn := FindSignIn(user, named);
      if signIn.None? { return None; }
      var f := nextFamily;
      if family.Some? {
        f := family.value;
      } else {
        owners := owners[nextFamily := Owner(user, signIn.value)];
        nextFamily := nextFamily + 1;
      }
      access := access + {Access(user, signIn.value, f, Seconds(clock) + ACCESS_TTL_SEC)};
      signed := signed[nextToken := Claims(user, signIn.value, f, Seconds(clock) + REFRESH_TTL_MS / 1000)];
      rows := rows[nextToken := Row(user, signIn.value, f, false, clock + REFRESH_TTL_MS)];
      token := Some(nextToken);
      nextToken := nextToken + 1;
    }

    method RefreshToken(token: nat, operational: bool) returns (issued: Option<nat>)
      modifies this
      ensures Now() == Apply(old(Now()), Refresh(token, operational))
      ensures issued.Some? ==>
        && Rotates(old(Now()), token, operational) && issued.value == old(nextToken) && issued.value in rows
        && rows[issued.value].family == old(rows)[token].family && token in rotated
    {
      if token !in signed || Seconds(clock) >= signed[token].exp { return None; }
      var payload := signed[token];
      if token !in rows || rows[token].user != payload.user { return None; }
      var stored := rows[token];
      if stored.revoked {
        rows := map t | t in rows && !(rows[t].user == stored.user && rows[t].family == stored.family) :: rows[t];
        return None;
      }
      if stored.expiresAt < clock || !operational || payload.signIn != stored.signIn {
        rows := rows - {token};
        return None;
      }
      rows := rows[token := stored.(revoked := true)];
      rotated := rotated + {token};
      issued := GenerateTokens(payload.user, Some(stored.family), Some(stored.signIn));
    }

    method SwitchProfile(a: Access) returns (issued: Option<nat>)
      modifies this
      ensures Now() == Apply(old(Now()), Switch(a))
    {
      if a !in access || Seconds(clock) >= a.exp || a.signIn !in signIns || signIns[a.signIn] != a.user { return None; }
      issued := GenerateTokens(a.user, Some(a.family), Some(a.signIn));
    }

    method LogoutSession(user: nat, token: nat)
      modifies this`rows
      ensures Now() == Apply(old(Now()), Logout(user, token))
    {
      if token in rows && rows[token].user == user {
        var family := rows[token].family;
        rows := map t | t in rows && !(rows[t].user == user && rows[t].family == family) :: rows[t];
      }
    }

    method RevokeOtherSessions(user: nat, current: nat) returns (done: bool)
      modifies this`rows
      ensures Now() == Apply(old(Now()), RevokeOthers(user, current))
      ensures done <==> Open(old(Now()), user, current)
      ensures done ==> Open(Now(), user, current)
    {
      done := exists t <- rows :: rows[t].user == user && rows[t].family == current
                                  && !rows[t].revoked && rows[t].expiresAt > clock;
      if done {
        ghost var open :| open in rows && rows[open].user == user && rows[open].family == current
                          && !rows[open].revoked && rows[open].expiresAt > clock;
        rows := map t | t in rows && !(rows[t].user == user && rows[t].family != current) :: rows[t];
        assert open in Now().rows;
      }
    }

    method ResetSignInPassword(signIn: nat)
      modifies this`rows
      ensures Now() == Apply(old(Now()), ResetPassword(signIn))
    {
      if signIn in signIns {
        var user := signIns[signIn];
        rows := map t | t in rows && !(rows[t].user == user && rows[t].signIn == signIn) :: rows[t];
      }
    }
  }
}

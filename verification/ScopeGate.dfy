/** The per-token gate (require_scope in auth.py), end to end: from the scopes granted at mint,
    through the claim and any number of key rotations, to the gate's decision. */
module ScopeGate {
  import opened Common
  import opened SigningKeys
  import opened AccessTokens
  import opened ScopeClaims

  datatype GateRefusal = Unauthenticated(reason: Refusal) | MissingRequiredScopes(missing: set<string>)

  // The caller is resolved first; the token is then decoded again for its claim.
  function RequireScope(keys: Keys, blacklist: set<string>, users: map<UserId, bool>, token: Token,
                        issuer: string, required: set<string>, now: Time): Result<UserId, GateRefusal> {
    var caller := CurrentUser(keys, blacklist, users, token, issuer, now);
    if caller.Err? then Err(Unauthenticated(caller.error))
    else
      var payload := DecodeToken(keys, token, issuer, now);
      if payload.Err? then Err(Unauthenticated(payload.error))
      else
        var missing := MissingScopes(payload.value.scope, required);
        if missing != {} then Err(MissingRequiredScopes(missing)) else Ok(caller.value)
  }

  lemma NothingMissing(required: set<string>, held: set<string>)
    ensures required - held == {} <==> forall scope :: scope in required ==> scope in held
  {
    forall scope | scope in required && scope !in held
      ensures scope in required - held
    {
    }
  }

  /** A user logs in, is granted part of what it may hold, and shows the token later, after any
      run of rotations, mints and revocations. The gate lets it through, up to the last whole second
      of its lifetime, exactly when its key is unrevoked, its jti not blacklisted, the user still
      active, and every required scope was both allowed and, if the login named any, asked for. */
  lemma GrantedScopesOpenTheGate(
    s: State, steps: seq<Step>, kid: Kid, user: UserId, jti: string, iss: string,
    mintedAt: Time, lifetime: Time, allowed: seq<string>, requested: seq<string>, strict: bool,
    blacklist: set<string>, users: map<UserId, bool>, required: set<string>, now: Time)
    requires kid in ActiveKids(s.keys) && jti != "" && WithinGrace(s, kid, mintedAt, mintedAt + lifetime)
    requires Run(s, steps) && Clocked(mintedAt, steps)
    requires forall scope :: scope in allowed ==> ValidScopeEntry(scope)
    requires GrantScopes(allowed, requested, strict).Ok?
    ensures var granted := GrantScopes(allowed, requested, strict).value;
            var token := MintToken(kid, User(user), jti, Join(granted), iss, mintedAt, lifetime);
            var keys := After(s, steps).keys;
            RequireScope(keys, blacklist, users, token, iss, required, now) == Ok(user) <==>
            && now < WholeSecond(mintedAt + lifetime)
            && kid in keys && !keys[kid].status.Revoked?
            && jti !in blacklist
            && user in users && users[user]
            && forall scope :: scope in required ==> scope in allowed && (requested == [] || scope in requested)
  {
    var granted := GrantScopes(allowed, requested, strict).value;
    var claim := Join(granted);
    MintThenGate(allowed, requested, strict, required);
    GrantExactly(allowed, requested, strict);
    MintedUserTokenAdmits(s, steps, kid, user, jti, claim, iss, mintedAt, lifetime, blacklist, users, now);
    NothingMissing(required, Elements(granted));
  }
}

/** Access tokens (auth.py): minting, verification, and the caller they admit.

    RSA is idealised: a signature verifies exactly under the key that made it. `exp` is a
    JWT NumericDate, whole seconds, so the sub-second part of an expiry is cut off. */
module AccessTokens {
  import opened Common
  import opened SigningKeys

  type UserId = int

  datatype Subject = User(id: UserId) | Client(clientId: string)

  datatype TokenType = Access | Refresh

  datatype Claims = Claims(
    sub: Subject, tokenType: TokenType, jti: Option<string>, scope: string, iss: string, exp: int)

  // `kid` is the unverified header field; `signedBy` is the key whose private half really signed.
  datatype Token =
    | Unparsable
    | Jws(kid: Option<Kid>, signedBy: Kid, claims: Claims)

  datatype Refusal =
    | InvalidToken
    | MissingKid
    | UnknownOrRevokedKey
    | TokenExpired
    | RefreshTokenUsed
    | TokenRevoked
    | MalformedSubject
    | UserNotFoundOrInactive

  function NumericDate(t: Time): int {
    t / SECOND
  }

  function MintToken(kid: Kid, sub: Subject, jti: string, scope: string, iss: string,
                     signedAt: Time, lifetime: Time): (token: Token)
    ensures token.Jws? && signedAt + lifetime - SECOND < token.claims.exp * SECOND <= signedAt + lifetime
  {
    Jws(Some(kid), kid,
        Claims(sub, Access, Some(jti), scope, iss, NumericDate(signedAt + lifetime)))
  }

  function DecodeToken(keys: Keys, token: Token, issuer: string, now: Time): Result<Claims, Refusal> {
    if token.Unparsable? then Err(InvalidToken)
    else if token.kid.None? then Err(MissingKid)
    else
      var kid := token.kid.value;
      if kid !in keys || keys[kid].status.Revoked? then Err(UnknownOrRevokedKey)
      else if && keys[kid].status.RotatingOut?
              && (keys[kid].rotatedAt.None? || keys[kid].rotatedAt.value + ROTATING_OUT_GRACE <= now)
      then Err(InvalidToken)
      else if token.signedBy != kid then Err(InvalidToken)
      else if token.claims.exp * SECOND <= now then Err(TokenExpired)
      else if token.claims.iss != issuer then Err(InvalidToken)
      else Ok(token.claims)
  }

  // `users` maps an existing user to its is_active flag.
  function CurrentUser(keys: Keys, blacklist: set<string>, users: map<UserId, bool>,
                       token: Token, issuer: string, now: Time): Result<UserId, Refusal> {
    var decoded := DecodeToken(keys, token, issuer, now);
    if decoded.Err? then Err(decoded.error)
    else
      var claims := decoded.value;
      if claims.tokenType.Refresh? then Err(RefreshTokenUsed)
      else if claims.jti.Some? && claims.jti.value != "" && claims.jti.value in blacklist
      then Err(TokenRevoked)
      else if claims.sub.Client? then Err(MalformedSubject)
      else if claims.sub.id !in users || !users[claims.sub.id] then Err(UserNotFoundOrInactive)
      else Ok(claims.sub.id)
  }

  /** A token is honoured only if its own key signed it, that key passes the key test, and
      it is unexpired and issued here; nothing else is asked of it. */
  lemma DecodeAcceptsExactly(keys: Keys, token: Token, issuer: string, now: Time)
    ensures DecodeToken(keys, token, issuer, now).Ok? <==>
            && token.Jws? && token.kid == Some(token.signedBy)
            && KeyAccepted(keys, token.signedBy, now)
            && now < token.claims.exp * SECOND
            && token.claims.iss == issuer
    ensures DecodeToken(keys, token, issuer, now).Ok? ==>
              DecodeToken(keys, token, issuer, now).value == token.claims
  {
  }

  /** A token admits a user exactly when it decodes, is not a refresh token, was not blacklisted,
      and names a user who is there and active. A machine client's token admits no user. */
  lemma CurrentUserAdmitsExactly(keys: Keys, blacklist: set<string>, users: map<UserId, bool>,
                                 token: Token, issuer: string, now: Time, user: UserId)
    ensures CurrentUser(keys, blacklist, users, token, issuer, now) == Ok(user) <==>
            && token.Jws? && token.kid == Some(token.signedBy)
            && KeyAccepted(keys, token.signedBy, now)
            && now < token.claims.exp * SECOND && token.claims.iss == issuer
            && token.claims.tokenType.Access? && token.claims.sub == User(user)
            && (forall jti :: token.claims.jti == Some(jti) && jti != "" ==> jti !in blacklist)
            && user in users && users[user]
  {
    DecodeAcceptsExactly(keys, token, issuer, now);
  }

  // ---------------------------------------------------------------- survival across rotations

  // The last whole second that is not after t.
  function WholeSecond(t: Time): (w: Time)
    ensures w % SECOND == 0 && t - SECOND < w <= t
  {
    t - t % SECOND
  }

  lemma ExpiryIsTheWholeSecond(token: Token, end: Time)
    requires token.Jws? && end - SECOND < token.claims.exp * SECOND <= end
    ensures token.claims.exp * SECOND == WholeSecond(end)
  {
  }

  // Whatever runs after `since` and whenever the token is shown before `until`, it passes
  // unless its key has been revoked.
  ghost predicate SurvivesEveryRun(s: State, since: Time, token: Token, until: Time)
    requires token.Jws?
  {
    forall steps: seq<Step>, now: Time ::
      Run(s, steps) && Clocked(since, steps) && now < until
      && token.signedBy in After(s, steps).keys
      && !After(s, steps).keys[token.signedBy].status.Revoked?
      ==> DecodeToken(After(s, steps).keys, token, token.claims.iss, now).Ok?
  }

  /** By this instant the token's grace is certain to last: it is no later than one grace period
      after the pick, and after the read of every rotation that is about to demote the key. */
  ghost predicate WithinGrace(s: State, kid: Kid, pickedAt: Time, exp: Time) {
    && exp <= pickedAt + ROTATING_OUT_GRACE
    && forall q :: Holds(s, q, kid) ==> exp <= s.requests[q].readAt + ROTATING_OUT_GRACE
  }

  lemma WithinGraceSurvives(s: State, steps: seq<Step>, kid: Kid, pickedAt: Time, exp: Time, now: Time)
    requires kid in ActiveKids(s.keys) && WithinGrace(s, kid, pickedAt, exp)
    requires Run(s, steps) && Clocked(pickedAt, steps) && now < exp
    ensures kid in After(s, steps).keys
    ensures KeyAccepted(After(s, steps).keys, kid, now) <==> !After(s, steps).keys[kid].status.Revoked?
  {
    ActiveKeyOutlivesGrace(s, steps, kid, pickedAt, exp - ROTATING_OUT_GRACE, now);
  }

  // A rotation that reads at `at` and stamps at once: the grace ends for good one period later.
  lemma RotationNowIsARun(s: State, kid: Kid, at: Time)
    requires kid in ActiveKids(s.keys)
    ensures var steps := [Step(at, SelectActive), Step(at, CommitDemotion(s.next, at))];
            && Run(s, steps) && Clocked(at, steps) && kid in After(s, steps).keys
            && After(s, steps).keys[kid] == s.keys[kid].(status := RotatingOut, rotatedAt := Some(at))
  {
    var select, demote := Step(at, SelectActive), Step(at, CommitDemotion(s.next, at));
    var s1 := Apply(s, select);
    var s2 := Apply(s1, demote);
    var k := |s.requests| + |s1.requests| + |s2.requests|;
    Prepend(s1, demote, [], k);
    Prepend(s, select, [demote], k);
    assert [demote] + [] == [demote] && [select] + [demote] == [select, demote];
    assert [select, demote][1..] == [demote];
  }

  /** A token whose key was active when it was picked survives every run of rotations, mints
      and revocations of other keys, for its whole lifetime counted to the second, if and only if
      that lifetime ends within the grace period of the pick, and within that of the read of any
      rotation then in flight that had found the key active. Minting and signing need not be one
      step: `signedAt` may lie after `pickedAt`. */
  lemma SurvivalIsExactlyGrace(s: State, pickedAt: Time, kid: Kid, sub: Subject, jti: string,
                               scope: string, iss: string, signedAt: Time, lifetime: Time)
    requires kid in ActiveKids(s.keys)
    requires forall q :: Holds(s, q, kid) ==> s.requests[q].readAt <= pickedAt
    ensures var token := MintToken(kid, sub, jti, scope, iss, signedAt, lifetime);
            SurvivesEveryRun(s, pickedAt, token, WholeSecond(signedAt + lifetime)) <==>
            WithinGrace(s, kid, pickedAt, WholeSecond(signedAt + lifetime))
  {
    var token := MintToken(kid, sub, jti, scope, iss, signedAt, lifetime);
    var exp := token.claims.exp * SECOND;
    ExpiryIsTheWholeSecond(token, signedAt + lifetime);
    if WithinGrace(s, kid, pickedAt, exp) {
      forall steps: seq<Step>, now: Time |
        Run(s, steps) && Clocked(pickedAt, steps) && now < exp
        && kid in After(s, steps).keys && !After(s, steps).keys[kid].status.Revoked?
        ensures DecodeToken(After(s, steps).keys, token, iss, now).Ok?
      {
        WithinGraceSurvives(s, steps, kid, pickedAt, exp, now);
      }
    } else if exp > pickedAt + ROTATING_OUT_GRACE {
      // Rotate at once and show the token at the instant the grace ends.
      RotationNowIsARun(s, kid, pickedAt);
      var steps := [Step(pickedAt, SelectActive), Step(pickedAt, CommitDemotion(s.next, pickedAt))];
      hide Run, Apply, Enabled, After;
      assert !DecodeToken(After(s, steps).keys, token, iss, pickedAt + ROTATING_OUT_GRACE).Ok?;
    } else {
      // Let the rotation in flight commit.
      var q :| Holds(s, q, kid) && exp > s.requests[q].readAt + ROTATING_OUT_GRACE;
      var stamp := s.requests[q].readAt;
      DemotionIsARun(s, q, kid, stamp, pickedAt);
      var steps := [Step(pickedAt, CommitDemotion(q, stamp))];
      hide Run, Apply, Enabled, After;
      assert !DecodeToken(After(s, steps).keys, token, iss, stamp + ROTATING_OUT_GRACE).Ok?;
    }
  }

  /** Once its key is revoked, a token the key really signed is refused in every later state if
      and only if no rotation in flight had read the key as active. */
  lemma RevokedNeverPassesExactly(s: State, since: Time, token: Token)
    requires token.Jws? && token.kid == Some(token.signedBy)
    requires token.signedBy in s.keys && s.keys[token.signedBy].status.Revoked?
    requires forall q :: Holds(s, q, token.signedBy) ==> s.requests[q].readAt <= since
    requires since < token.claims.exp * SECOND
    ensures NeverPasses(s, since, token) <==> Unheld(s, token.signedBy)
  {
    var kid := token.signedBy;
    if Unheld(s, kid) {
      forall steps: seq<Step>, now: Time | Run(s, steps) && Clocked(since, steps)
        ensures DecodeToken(After(s, steps).keys, token, token.claims.iss, now).Err?
      {
        UnheldStaysRevoked(s, steps, kid);
      }
    } else {
      var q :| q in s.requests && Holds(s, q, kid);
      DemotionIsARun(s, q, kid, since, since);
      var steps := [Step(since, CommitDemotion(q, since))];
      hide Run, Apply, Enabled, After;
      assert DecodeToken(After(s, steps).keys, token, token.claims.iss, since).Ok?;
    }
  }

  ghost predicate NeverPasses(s: State, since: Time, token: Token)
    requires token.Jws?
  {
    forall steps: seq<Step>, now: Time :: Run(s, steps) && Clocked(since, steps) ==>
      DecodeToken(After(s, steps).keys, token, token.claims.iss, now).Err?
  }

  /** End to end: a user token minted under an active key, with a lifetime within the grace, admits
      its user after any run exactly while its key is unrevoked, its jti not blacklisted and the user
      still active, from the mint on up to the last whole second of its lifetime, hence certainly
      until a second before its end and never from its end on. */
  lemma MintedUserTokenAdmits(s: State, steps: seq<Step>, kid: Kid, user: UserId, jti: string,
                              scope: string, iss: string, mintedAt: Time, lifetime: Time,
                              blacklist: set<string>, users: map<UserId, bool>, now: Time)
    requires kid in ActiveKids(s.keys) && jti != ""
    requires WithinGrace(s, kid, mintedAt, mintedAt + lifetime)
    requires Run(s, steps) && Clocked(mintedAt, steps)
    ensures var token := MintToken(kid, User(user), jti, scope, iss, mintedAt, lifetime);
            var keys := After(s, steps).keys;
            CurrentUser(keys, blacklist, users, token, iss, now) == Ok(user) <==>
            && now < WholeSecond(mintedAt + lifetime)
            && kid in keys && !keys[kid].status.Revoked?
            && jti !in blacklist
            && user in users && users[user]
    ensures now <= mintedAt + lifetime - SECOND ==>
              (CurrentUser(After(s, steps).keys, blacklist, users,
                           MintToken(kid, User(user), jti, scope, iss, mintedAt, lifetime), iss, now).Ok? <==>
               && kid in After(s, steps).keys && !After(s, steps).keys[kid].status.Revoked?
               && jti !in blacklist && user in users && users[user])
  {
    var token := MintToken(kid, User(user), jti, scope, iss, mintedAt, lifetime);
    ExpiryIsTheWholeSecond(token, mintedAt + lifetime);
    if now < token.claims.exp * SECOND {
      WithinGraceSurvives(s, steps, kid, mintedAt, mintedAt + lifetime, now);
    }
  }
}

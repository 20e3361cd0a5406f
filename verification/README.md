# Verified model of the accelerator pack auth service

A Dafny model of the service's state machines over database rows and a clock, and of its scope
and encoding functions, with proofs of what they keep over every run. `dafny verify
dfyconfig.toml` checks all of it.

Each module follows one part of the service:

- **SigningKeys**, **AccessTokens**, **ScopeGate**: rotation and revocation of signing keys, tokens
  minted under them, and the per-scope gate that reads them.
- **RefreshSessions**, **SessionLimitMet**, **LoginLockout**: refresh tokens, the session limit and
  the blacklist, and runs that meet the bounds; the sliding window over failed logins.
- **SsoFlow**, **SsoHistories**, **Provisioning**, **ClaimMapping**, **SsoExchange**, **IdpCaches**: the
  state and nonce protocol, which account an external identity reaches, the roles its claims bring, one
  exchange followed through all of these to its end, and the in-process caches.
- **PackModels**, **ScopeClaims**, **Rbac**: pack contracts, scope lists and claims, seeding, role
  CRUD and the runtime permission gate.
- **ServiceAccounts**, **BasicAuth**, **Utf8**, **Base64**, **JwkIntegers**: machine clients, the
  token endpoint, and the encodings they and the JWKS rest on.
- **Common**: optional and failing results, instants, digests.

How it is modelled. A table is a map or a sequence in a class whose methods have the source's
branches and loops; each method is proved to compute a function of the old state. Runs are
sequences of steps over those functions. For signing keys, refresh tokens, the lockout, the
single-sign-on state and service accounts a request is cut wherever a later write rests on an
earlier read, and between its commits, and its steps interleave freely with everyone else's: a
commit then overwrites whatever happened since the read, as the ORM's does. The bounds depend on
how many requests stand between two steps; lemmas beside them show that uninterrupted steps
amount to the handler, and that every one of these bounds is met for every K. Roles, provisioning, claim mapping and what a
single-sign-on exchange does after its subject check are one step each (see Left out). Instants
are integers in microseconds and clocks never run backwards. When a query leaves the order of
equal rows open, its answer is a parameter constrained only by the ORDER BY. Regular-expression
search is an arbitrary function that may reject a pattern. A signature verifies under its own key
only, and hashes are injective. The database is one that enforces its constraints, foreign keys
and their cascades included: the default SQLite engine does not do that unless told to, and the
description of the provider delete endpoint (src/accelerator_pack_auth_service/main.py:1678-1690)
says that links survive the provider, which the schema's cascade contradicts.

Where the code differs from its documentation or from what one would expect, the model follows
the code and says so in a lemma:

- Several mappings for one claim key all apply, whatever their priority; docs/oidc-saml.md line
  157 says only the highest applies (`ClaimMapping.LowerPriorityStillApplies`).
- A user assigned the same role twice makes the permission gate raise instead of answering
  (`Rbac.AssigningTwiceRaises`, with `Rbac.ClaimMatchesGate` for exactly when), and cannot sign in
  through a mapping to that role (`SsoExchange.DuplicateRoleBlocksSignIn`). Two sign-ins at once are
  enough to double a role (`ClaimMapping.OverlappingRunsDuplicateExactly`).
- A rotation that read a key before its revocation turns it back to rotating_out
  (`SigningKeys.RevocationUndoneByRotation`), and two rotations that read one key stamp it twice
  (`SigningKeys.OverlappingRotationsStampTwice`); `SigningKeys.RevocationIsFinalExactly` and
  `SigningKeys.KeysOnlyAdvanceExactly` say exactly when neither happens.
- Single use of a state row holds only for exchanges that do not overlap
  (`SsoHistories.KOverlappingExchangesAllSucceed`, `SsoHistories.AtMostKExchangesPerAuthorize`).
- Identities that first signed in without an email claim share one account, that of the empty
  email (`Provisioning.SameAccountIffSameFirstEmail`).
- The session limit does not see single-sign-on tokens, second exchanges of one refresh token, and
  refreshes of a token already picked for revocation; the bound that does hold is met in each of
  these terms (`SessionLimitMet`). A limit below one is not kept either.
- A refresh validated before a logout can still leave a session after it
  (`SessionLimitMet.RefreshOutlivesLogout`), and a service account's token request that was judged
  before a revocation is still answered after it (`ServiceAccounts.InFlightTokenOutlivesRevocation`).
- Seeding never removes, so after a change of packs the gate still grants what an earlier pack gave,
  while the claim lists the active pack only (`Rbac.GateExceedsClaimExactly`).
- A service account stamped with `*` is given the literal `*`
  (`ServiceAccounts.StampedWildcardIsShippedLiterally`).
- A published rotating key is no longer accepted at the last microsecond of its publication
  (`SigningKeys.VerifierAgreesWithPublisher`).
- The client-credentials cache does not distinguish scopes: a token fetched with one scope is
  returned for another (`IdpCaches.SecondScopeGetsFirstToken`).
- Zero is rendered as empty text (`JwkIntegers.ZeroIsRenderedEmpty`); no RSA parameter is zero.

## Model

| member | source | states |
|---|---|---|
| SigningKeys.KeyTable.CreateSigningKey | src/accelerator_pack_auth_service/crypto.py:66-80 | adds one active key dated now under a new kid, or leaves the table alone and reports the unique-kid violation |
| SigningKeys.KeyTable.GetActiveSigningKey | src/accelerator_pack_auth_service/crypto.py:83-93 | returns an active key no older than any other and writes nothing; only when none is active does it create one |
| SigningKeys.KeyTable.RotateActiveKey | src/accelerator_pack_auth_service/crypto.py:133-143 | demotes every active key, stamps it, then adds one active key; if the kid collides the demotion stands |
| SigningKeys.KeyTable.RevokeKey | src/accelerator_pack_auth_service/crypto.py:146-155 | revokes that key alone, and reports whether it exists |
| SigningKeys.KeyTable.ListKeysForJwks | src/accelerator_pack_auth_service/crypto.py:102-130 | publishes, newest first and without repeats, exactly the unrevoked keys that are active or were rotated out no longer than the grace ago |
| SigningKeys.RotationIsItsSteps | src/accelerator_pack_auth_service/crypto.py:133-143 | a rotation that nothing interrupts is its read, its demotion and its creation |
| SigningKeys.VerifierAgreesWithPublisher | src/accelerator_pack_auth_service/auth.py:221-234 | a kid passes the verifier's key check if and only if it is published at that instant, except a rotating key at exactly rotated_at + grace |
| SigningKeys.GraceIsADay | src/accelerator_pack_auth_service/crypto.py:30 | a rotated key is accepted before 24 hours have passed and published until they have; an active key is both, a revoked one neither |
| SigningKeys.AtMostKActiveKeys | src/accelerator_pack_auth_service/crypto.py:83-143 | over every interleaving, reads and commits apart, with at most K requests between their read and their creation, at most K keys are active |
| SigningKeys.ActiveBoundIsMet | src/accelerator_pack_auth_service/crypto.py:83-93 | for every K some run within K ends with K active keys |
| SigningKeys.OverlappingRotationsLeaveTwoActiveKeys | src/accelerator_pack_auth_service/crypto.py:133-143 | a run with two overlapping rotations that meets the bound K = 2 |
| SigningKeys.KeysOnlyAdvanceExactly | src/accelerator_pack_auth_service/crypto.py:133-155 | a key no longer active only moves on (active, rotating_out, revoked), and likewise keeps its rotated_at, in every run if and only if no rotation in flight had read it as active |
| SigningKeys.OverlappingRotationsStampTwice | src/accelerator_pack_auth_service/crypto.py:133-143 | a run in which two rotations that read one key as active each write its rotated_at |
| SigningKeys.NeverActiveAgain | src/accelerator_pack_auth_service/crypto.py:133-155 | in every run whatever, no key disappears or becomes active again |
| SigningKeys.RevocationIsFinalExactly | src/accelerator_pack_auth_service/crypto.py:133-155 | a revoked key stays revoked in every run if and only if no rotation in flight had read it as active |
| SigningKeys.RevocationUndoneByRotation | src/accelerator_pack_auth_service/crypto.py:135-142 | a run with one rotation in flight whose commit undoes a revocation |
| SigningKeys.ActiveKeyOutlivesGrace | src/accelerator_pack_auth_service/auth.py:226-234 | an active key that no rotation in flight read before some instant passes the key check throughout the grace period after that instant, after any run, exactly as long as it is unrevoked |
| AccessTokens.DecodeAcceptsExactly | src/accelerator_pack_auth_service/auth.py:201-247 | a token decodes if and only if its own key signed it, that key passes the key check, and it is unexpired and from this issuer |
| AccessTokens.CurrentUserAdmitsExactly | src/accelerator_pack_auth_service/auth.py:261-285 | a token admits a user if and only if it decodes, is no refresh token, is not blacklisted and names an active user |
| AccessTokens.MintToken | src/accelerator_pack_auth_service/auth.py:69-116 | the token expires at the end of its lifetime or less than a second before it |
| AccessTokens.SurvivalIsExactlyGrace | src/accelerator_pack_auth_service/auth.py:69-116 | a minted token survives every run of rotations, mints and revocations of other keys, for its whole lifetime counted to the second, if and only if that lifetime ends within the grace of the pick of its key and of the read of every rotation then about to demote it |
| AccessTokens.RevokedNeverPassesExactly | src/accelerator_pack_auth_service/crypto.py:133-155 | once its key is revoked a genuine token is refused in every later state if and only if no rotation in flight had read the key as active |
| AccessTokens.MintedUserTokenAdmits | src/accelerator_pack_auth_service/auth.py:261-285 | after any run a user token with a lifetime within the grace admits its user, from the mint to the last whole second of that lifetime and no longer, exactly while its key is unrevoked, its jti not blacklisted and the user active |
| ScopeGate.GrantedScopesOpenTheGate | src/accelerator_pack_auth_service/auth.py:351-402 | mint, any run, then gate: up to the last whole second of the lifetime, the gate opens if and only if key, jti and user are still good and every required scope was allowed and, if a request named any, requested |
| RefreshSessions.SessionStore.StoreRefreshToken | src/accelerator_pack_auth_service/auth.py:170-177 | adds one unrevoked row under the value's digest, expiring one refresh lifetime later; a repeated digest is refused |
| RefreshSessions.StoredTokensLast | src/accelerator_pack_auth_service/auth.py:170-189 | a token stored by any step of a run is valid for exactly one refresh lifetime, unless revoked |
| RefreshSessions.SessionStore.ValidateRefreshToken | src/accelerator_pack_auth_service/auth.py:180-189 | finds the row exactly when it exists, is unrevoked and expires strictly later |
| RefreshSessions.SessionStore.RevokeUserTokens | src/accelerator_pack_auth_service/auth.py:192-198 | flags all of the user's live rows and no others |
| RefreshSessions.SessionStore.EnforceSessionLimit | src/accelerator_pack_auth_service/auth.py:433-443 | revokes the tail of the newest-first list from position max - 1 when there are at least max |
| RefreshSessions.SessionStore.BlacklistToken | src/accelerator_pack_auth_service/auth.py:255-258 | adds the jti, raising on a duplicate |
| RefreshSessions.SessionStore.OpenSession | src/accelerator_pack_auth_service/main.py:580-587 | end of register and login: enforce, then store |
| RefreshSessions.SessionStore.Refresh | src/accelerator_pack_auth_service/main.py:712-733 | refuses anything not valid; otherwise spends the presented token, also when the user is inactive, and on success stores exactly one replacement |
| RefreshSessions.SessionStore.Logout | src/accelerator_pack_auth_service/main.py:754-768 | blacklists the jti, if any, and revokes all of the user's live tokens |
| RefreshSessions.SessionStore.ScimDelete | src/accelerator_pack_auth_service/main.py:2435-2446 | deactivates the user and revokes all its live tokens, or changes nothing when unknown |
| RefreshSessions.EnforcementKeepsTheNewest | src/accelerator_pack_auth_service/auth.py:433-443 | leaves min(n, max - 1) sessions, revokes none newer than one it keeps, and touches no other user |
| RefreshSessions.SessionsBounded | src/accelerator_pack_auth_service/auth.py:433-443 | under every interleaving, reads and commits apart, with at most K requests between selecting (or rotating) and storing: at most max - 1 + K sessions plus the number, counted over the run, of single sign-ons, stale rotations and escapes since the selection of the latest enforcement flagged |
| RefreshSessions.StepsAmountToHandlers | src/accelerator_pack_auth_service/main.py:705-768 | the cut handlers, run without interruption, do exactly what the store's methods do |
| RefreshSessions.AtomicSessionsBounded | src/accelerator_pack_auth_service/main.py:639-644 | with atomic handlers a user never has more than max live sessions plus the single-sign-on tokens issued since its last login |
| SessionLimitMet.LimitBelowOneIsNotKept | src/accelerator_pack_auth_service/auth.py:440-442 | for every limit below one, one login already exceeds it |
| SessionLimitMet.SessionBoundIsMet | src/accelerator_pack_auth_service/main.py:712-733 | for every max, K, i and n some run within K has exactly max - 1 + K + i + n sessions, with i single-sign-on tokens and n stale rotations |
| SessionLimitMet.EscapesAreMet | src/accelerator_pack_auth_service/auth.py:433-443 | for every max and e some run within two requests has exactly max + 1 + e sessions, by e refreshes of tokens already picked for revocation |
| SessionLimitMet.AtomicBoundIsMet | src/accelerator_pack_auth_service/sso_service.py:742-756 | for every max and i some atomic calls, i of them single sign-ons, leave exactly max + i sessions |
| RefreshSessions.ValidationsPrecedeRotation | src/accelerator_pack_auth_service/auth.py:180-189 | under every interleaving all validations of a token precede its first rotation |
| RefreshSessions.RotationsExactly | src/accelerator_pack_auth_service/main.py:712-733 | a token is exchanged exactly as often as it was validated before being rotated, less the validations dropped or in flight |
| RefreshSessions.ExchangedTwiceExactly | src/accelerator_pack_auth_service/main.py:712-733 | it is exchanged twice if and only if two such validations that go on precede a rotation |
| RefreshSessions.RefreshTokensAreSingleUse | src/accelerator_pack_auth_service/main.py:705-735 | with atomic handlers no refresh token is exchanged twice |
| RefreshSessions.SpentForever | src/accelerator_pack_auth_service/auth.py:180-198 | a revoked refresh token stays revoked in every run |
| RefreshSessions.LogoutIsFinal | src/accelerator_pack_auth_service/main.py:754-768 | after a logout, in every later state, no earlier refresh token of the user is valid, the access token used is refused, and every later exchange of an earlier token is accounted for by a validation in flight at the logout |
| SessionLimitMet.RefreshOutlivesLogout | src/accelerator_pack_auth_service/main.py:712-733 | a refresh validated before the logout and rotated after it leaves a live session |
| LoginLockout.LoginGuard.RecordFailedLogin | src/accelerator_pack_auth_service/auth.py:405-408 | appends one failure |
| LoginLockout.LoginGuard.CheckAccountLockout | src/accelerator_pack_auth_service/auth.py:411-425 | locked exactly when at least threshold failures of that email are younger than the duration |
| LoginLockout.LoginGuard.ClearFailedAttempts | src/accelerator_pack_auth_service/auth.py:428-430 | forgets that email's failures and keeps everyone else's |
| LoginLockout.LoginGuard.Login | src/accelerator_pack_auth_service/main.py:614-638 | the result and the new log for each of the four outcomes, lock check first: a bad password adds one failure, a success forgets that email's, anything else changes nothing |
| LoginLockout.LockEndsWithThresholdthFailure | src/accelerator_pack_auth_service/auth.py:411-425 | in an ordered log, locked if and only if the threshold-th most recent failure is less than one duration old |
| LoginLockout.LockedAttemptsChangeNothing | src/accelerator_pack_auth_service/main.py:622-633 | no series of attempts made while locked changes that email's failures, so none prolongs the lock |
| LoginLockout.LogStaysOrdered | src/accelerator_pack_auth_service/auth.py:405-430 | every run keeps each email's failures in time order |
| LoginLockout.EveryWindowBounded | src/accelerator_pack_auth_service/auth.py:405-430 | with at most K logins between check and record, every window of the lockout duration holds at most threshold - 1 + K failures |
| LoginLockout.WindowBoundIsMet | src/accelerator_pack_auth_service/auth.py:405-430 | for every threshold and K some run within K has threshold - 1 + K failures in one window |
| LoginLockout.LoginIsItsSteps | src/accelerator_pack_auth_service/main.py:614-638 | a whole login is its check step and its record, leave or clear step |
| LoginLockout.AtomicWindowsBounded | src/accelerator_pack_auth_service/auth.py:405-430 | with logins one at a time, every window holds at most threshold failures |
| SsoFlow.SsoStates.StoreSsoState | src/accelerator_pack_auth_service/sso_service.py:579-601 | stores one row expiring ten minutes later; a repeated state is refused |
| SsoFlow.SsoStates.ConsumeSsoState | src/accelerator_pack_auth_service/sso_service.py:604-632 | returns the row only for its provider and strictly before expiry, and deletes it on every attempt through its own provider |
| SsoFlow.SsoStates.SsoAuthorize | src/accelerator_pack_auth_service/main.py:1895-1921 | stores a row with ten minutes to live exactly when the provider exists, the state is new and the callback is the configured one, if one is configured |
| SsoFlow.SsoStates.SsoTokenExchange | src/accelerator_pack_auth_service/main.py:2003-2039 | the outcomes up to the subject check, in the order the handler tests them, when each refusal is given, and what each leaves of the state row |
| SsoHistories.WrongProviderChangesNothing | src/accelerator_pack_auth_service/sso_service.py:611-617 | an exchange through another provider fails and leaves every row unchanged |
| SsoHistories.ExchangesMatchAuthorizesOneToOne | src/accelerator_pack_auth_service/sso_service.py:611-631 | in every history two exchanges use one authorize call only if the later read the row before the earlier deleted it, so exchanges that do not overlap map one to one |
| SsoHistories.SharedOriginExactly | src/accelerator_pack_auth_service/sso_service.py:611-631 | two exchanges use one authorize call if and only if they present one state and nobody stores it anew between their reads |
| SsoHistories.AtMostKExchangesPerAuthorize | src/accelerator_pack_auth_service/sso_service.py:604-632 | with at most K exchanges between read and deletion no authorize call serves more than K; one to one for K = 1 |
| SsoHistories.KOverlappingExchangesAllSucceed | src/accelerator_pack_auth_service/sso_service.py:604-632 | for every K some history within K has K exchanges of one authorize call, all issuing tokens |
| SsoHistories.ExchangeIsItsSteps | src/accelerator_pack_auth_service/main.py:2003-2053 | an exchange that nothing interrupts is its read and its finish |
| SsoHistories.IssuedTokensWereAuthorized | src/accelerator_pack_auth_service/main.py:2029-2046 | every token issue goes back to one authorize call of its provider, redirect_uri (the configured callback, if one is) and nonce, read less than ten minutes after it and with the provider not deleted in between |
| SsoHistories.HonestExchangeSucceedsExactly | src/accelerator_pack_auth_service/main.py:2003-2053 | unless its state is minted anew before it is read, an exchange issues tokens if and only if the row is left alone until read, it is timely, provider, redirect_uri, nonce and subject are right, and everything after the subject check goes through |
| SsoHistories.ReplayedStateIsRefused | src/accelerator_pack_auth_service/sso_service.py:604-632 | a deleted state is refused at every later read until minted again, even when the exchange that deleted it failed |
| SsoHistories.IdTokensAreNotReplayed | src/accelerator_pack_auth_service/sso_service.py:423-429 | with fresh nonces, one nonce is accepted twice exactly by exchanges of one authorize call, which then overlap |
| SsoExchange.SsoService.SsoTokenExchange | src/accelerator_pack_auth_service/main.py:2003-2053 | the whole handler over the state, account, role, key and session tables: outcome, user and every table afterwards |
| SsoExchange.SsoService.CompleteSignIn | src/accelerator_pack_auth_service/main.py:2041-2053 | what follows the subject check: succeeds exactly if no step raises, and leaves what was committed before one does |
| SsoExchange.ExchangeSucceedsExactly | src/accelerator_pack_auth_service/main.py:2003-2053 | an exchange issues tokens if and only if the protocol conditions hold, the provider still exists, the email and name claims allow an account, no mapping meets a malformed pattern or matches a role held twice, a key can sign and the refresh token is fresh, each judged on whatever the tables hold when its step comes |
| SsoExchange.DeletedProviderStopsExchange | src/accelerator_pack_auth_service/sso_service.py:501-513 | a provider deleted before the exchange finishes stops it, even after its state row was read |
| SsoExchange.ProviderDeletedMidway | src/accelerator_pack_auth_service/sso_service.py:483-513 | authorize, read, delete the provider, finish: the exchange raises and leaves only the account it had made |
| SsoExchange.SuccessLeaves | src/accelerator_pack_auth_service/main.py:2041-2053 | a success links the identity to the account its claims lead to, a new one having their name, the role "user" and no password; it grants exactly the roles of matched mappings and adds one session of the refresh lifetime |
| SsoExchange.DuplicateRoleBlocksSignIn | src/accelerator_pack_auth_service/sso_service.py:550-556 | while a user has a role twice, every exchange that matches a mapping to it raises and issues nothing |
| Provisioning.UserDirectory.JitProvisionUser | src/accelerator_pack_auth_service/sso_service.py:454-515 | resolves to the linked, else the same-email, else a new account with role "user" and no password; fails exactly when an unlinked identity brings a null email, a null name for a new account, or a provider that is gone, in which case a new account stays; rewrites no existing account |
| Provisioning.AccountsAreAsMade | src/accelerator_pack_auth_service/sso_service.py:483-502 | in every history an account has the password its making gave it and the name and role its making or its latest edit gave it, "user" and none if a sign-in made it |
| Provisioning.SignInsGiveNoPrivilege | src/accelerator_pack_auth_service/sso_service.py:489-497 | in every history a role other than "user" was given by a registration or an edit of that email, and a password by its registration |
| Provisioning.EverySignInHasAFirst | src/accelerator_pack_auth_service/sso_service.py:464-481 | every sign-in has a first sign-in of its identity behind it |
| Provisioning.SameAccountIffSameFirstEmail | src/accelerator_pack_auth_service/sso_service.py:464-515 | in every history two sign-ins reach the same account if and only if their identities' first sign-ins brought the same email |
| Provisioning.AccountsAreCreatedOnce | src/accelerator_pack_auth_service/sso_service.py:483-502 | a sign-in that creates an account reaches one no earlier sign-in reached |
| ClaimMapping.RoleAssignments.ApplyClaimMappings | src/accelerator_pack_auth_service/sso_service.py:518-576 | the nested loops raise exactly when some mapping meets a malformed pattern or matches a role held twice, adding nothing then, and otherwise add and name exactly the roles of matched mappings that the user lacked, in order |
| ClaimMapping.ScanFindsAMatch | src/accelerator_pack_auth_service/sso_service.py:541-547 | the scan for an exact mapping hits if and only if its pattern is among the values and never raises; for a regular expression the first value it does not simply fail on decides |
| ClaimMapping.HitsExactly | src/accelerator_pack_auth_service/sso_service.py:533-547 | an exact mapping matches a claim that is, or lists, its pattern and no other; a well-formed regular expression one with a text it is found in; a malformed one raises where it is tried first |
| ClaimMapping.RunGrantsExactlyTheMatched | src/accelerator_pack_auth_service/sso_service.py:541-576 | the row count of every (user, role) pair after a run: one for each role of a mapping the claims match that the user lacked, unchanged otherwise |
| ClaimMapping.PriorityIsIrrelevant | src/accelerator_pack_auth_service/sso_service.py:529-572 | the result, and whether the run raises, do not depend on the order of mappings |
| ClaimMapping.SecondRunGrantsNothing | src/accelerator_pack_auth_service/sso_service.py:550-576 | a second run grants nothing and raises if and only if the first did |
| ClaimMapping.NoDuplicatesAppear | src/accelerator_pack_auth_service/sso_service.py:550-560 | without duplicates before there are none after, and only a malformed pattern that is tried raises |
| ClaimMapping.OverlappingRunsDuplicateExactly | src/accelerator_pack_auth_service/sso_service.py:550-566 | of two runs that both look up before either commits, exactly the roles both match and the user lacked end up doubled |
| ClaimMapping.LowerPriorityStillApplies | src/accelerator_pack_auth_service/sso_service.py:541-572 | two mappings on one key both apply, contrary to docs/oidc-saml.md line 157 |
| IdpCaches.Caches.CachedToken | src/accelerator_pack_auth_service/sso_service.py:232-236 | a hit exactly for a stored entry of that key strictly before its end |
| IdpCaches.Caches.ClientCredentialsToken | src/accelerator_pack_auth_service/sso_service.py:218-296 | result and all three caches for hit, refusal, unusable answer and success |
| IdpCaches.Caches.FetchJwks | src/accelerator_pack_auth_service/sso_service.py:299-356 | result and both caches for hit, anonymous fetch and retry with a bearer token after 401 |
| IdpCaches.Caches.DiscoverMetadata | src/accelerator_pack_auth_service/sso_service.py:105-155 | result and new cache for hit, success and failure; failures are never cached |
| IdpCaches.HitsAreFresh | src/accelerator_pack_auth_service/sso_service.py:218-356 | a lookup hits if and only if that fetch's lifetime, counted from its start, is not over |
| IdpCaches.CachedTokensAreFresh | src/accelerator_pack_auth_service/sso_service.py:218-296 | in every history of lookups and answers a lookup returns a token if and only if it is the last kept for that token URL, client and secret, of a lifetime (300 seconds unless the answer gave one) over a minute, strictly before fetch start + expires_in - 60 |
| IdpCaches.CachesAreTheirFetches | src/accelerator_pack_auth_service/sso_service.py:105-356 | every reachable state of the three caches is what its kept fetches amount to |
| IdpCaches.ScopesAgreeExactly | src/accelerator_pack_auth_service/sso_service.py:228-233 | returned tokens were always asked for with the caller's scope, in every history, if and only if no token URL, client and secret are used with two scopes |
| IdpCaches.SecondScopeGetsFirstToken | src/accelerator_pack_auth_service/sso_service.py:228-233 | a history in which a token asked for with one scope is returned for another |
| IdpCaches.CachedJwksAreUnderAnHourOld | src/accelerator_pack_auth_service/sso_service.py:316-356 | in every history a lookup returns a JWKS document if and only if it is the last acceptable one fetched from its URL, less than an hour after that fetch began |
| IdpCaches.CachedMetadataIsUnderAnHourOld | src/accelerator_pack_auth_service/sso_service.py:117-155 | and likewise a discovery document |
| PackModels.PackModel.RolesStayWithinVocabulary | src/accelerator_pack_auth_service/pack_models/base.py:26-51 | a validated pack grants a role exactly the list its map has for it, its whole vocabulary for the wildcard, and nothing without an entry; never anything undeclared |
| ScopeClaims.SplitJoin | src/accelerator_pack_auth_service/scopes.py:68-79 | splitting the space-joined claim gives the granted list back, for all whitespace-free nonempty scopes |
| ScopeClaims.GrantKeepsOrder | src/accelerator_pack_auth_service/scopes.py:117-152 | granted scopes stand at strictly increasing positions of the allowed list |
| ScopeClaims.PositionsExactly | src/accelerator_pack_auth_service/scopes.py:117-152 | those positions are all and only the positions of requested scopes |
| ScopeClaims.GrantExactly | src/accelerator_pack_auth_service/scopes.py:117-152 | granting fails exactly on empty overlap or strict excess, and otherwise grants exactly what is both allowed and requested |
| ScopeClaims.GrantDependsOnTheSetOnly | src/accelerator_pack_auth_service/scopes.py:117-152 | order and repetition in the request are ignored, and strict success equals lenient success |
| ScopeClaims.MintThenGate | src/accelerator_pack_auth_service/auth.py:379-400 | for scopes the schema accepts, the gate reads back the granted list and misses exactly what was not granted |
| ScopeClaims.EffectiveScopesShape | src/accelerator_pack_auth_service/scopes.py:178-213 | base list as prefix, then a strictly ascending disjoint suffix; together the union; an override stops the union |
| ScopeClaims.WildcardLiftsTheOverride | src/accelerator_pack_auth_service/scopes.py:82-114 | an override with the wildcard gives a user exactly what the pack gives the role and a client the whole vocabulary; any other list stands as it is |
| ScopeClaims.RowOrderIsIrrelevant | src/accelerator_pack_auth_service/scopes.py:155-213 | the order in which rows come back does not show in the claim |
| ScopeClaims.NoWildcardInClaims | src/accelerator_pack_auth_service/scopes.py:82-114 | no "*" reaches a user's claim or a resolved client list when vocabulary and table hold none |
| ScopeClaims.AscendingIsUnique | src/accelerator_pack_auth_service/scopes.py:210-213 | a strictly ascending list is determined by its elements, so sorting is canonical |
| Rbac.RbacStore.SeedRolesAndPermissions | src/accelerator_pack_auth_service/permission_service.py:91-150 | the nested insert loops compute Seed whenever system role names are unique, and do not raise then; each system role of the pack ends up with what it had and what the pack's map lists for it |
| Rbac.RbacStore.CreateRole | src/accelerator_pack_auth_service/main.py:1125-1146 | adds a custom role unless the name and tenant are taken |
| Rbac.RbacStore.UpdateRole | src/accelerator_pack_auth_service/main.py:1195-1220 | edits a custom role; refuses system roles and colliding names |
| Rbac.RbacStore.DeleteRole | src/accelerator_pack_auth_service/main.py:1239-1254 | removes a custom role with its bindings and assignments; refuses system roles |
| Rbac.RbacStore.SetRolePermissions | src/accelerator_pack_auth_service/main.py:1275-1299 | replaces a custom role's bindings by the known codenames; a repeated one rolls everything back |
| Rbac.RbacStore.AssignUserRole | src/accelerator_pack_auth_service/main.py:1423-1452 | adds an assignment without looking for an equal one |
| Rbac.RbacStore.RemoveUserRole | src/accelerator_pack_auth_service/main.py:1482-1498 | removes the user's own assignment and nothing else |
| Rbac.GateIsAnyOfItsFourSources | src/accelerator_pack_auth_service/permission_service.py:153-235 | when no lookup finds two rows, the cascade allows if and only if one of admin, assigned role, system role, direct grant, ownership does |
| Rbac.GateRaisesExactly | src/accelerator_pack_auth_service/permission_service.py:153-235 | in every state the gate raises if and only if the first source that has a row for the user has two |
| Rbac.SeedingEffect | src/accelerator_pack_auth_service/permission_service.py:91-150 | exactly one system role per pack role, carrying what it had and what the pack's own map lists for it (everything for the wildcard, nothing without an entry); custom roles untouched |
| Rbac.SeedingIsIdempotent | src/accelerator_pack_auth_service/permission_service.py:91-150 | seeding the same pack twice equals seeding it once |
| Rbac.TwoPacksAddUp | src/accelerator_pack_auth_service/permission_service.py:91-150 | two packs in turn give each shared system role the union of both |
| Rbac.RequestsSpareSystemRoles | src/accelerator_pack_auth_service/main.py:1205-1208 | no role request changes a system role or its bindings |
| Rbac.SettingReplacesExactly | src/accelerator_pack_auth_service/main.py:1285-1299 | a custom role ends with exactly the requested codenames that exist, and no other role changes; a request for a system role, or listing an existing codename twice, changes nothing |
| Rbac.CreatingAddsExactly | src/accelerator_pack_auth_service/main.py:1125-1146 | one custom role that carries nothing and nobody has, unless name and tenant are taken |
| Rbac.UpdatingRewritesExactly | src/accelerator_pack_auth_service/main.py:1195-1220 | rewrites what is given of a custom role's name and default flag and nothing else; a colliding name or a system role changes nothing |
| Rbac.DeletingLeavesNothing | src/accelerator_pack_auth_service/main.py:1239-1254 | no binding and no assignment of the deleted role remains, and all others stand |
| Rbac.AssigningAddsExactly | src/accelerator_pack_auth_service/main.py:1423-1452 | the gate sees one more row for what the role carries, for that user alone |
| Rbac.RemovingTakesBackExactly | src/accelerator_pack_auth_service/main.py:1482-1498 | that row is gone and every other stands; where it was all that let its user through, the gate now denies |
| Rbac.RunFollowsPacks | src/accelerator_pack_auth_service/main.py:1248-1288 | every run of seedings of any packs and of requests keeps system roles exactly as the seeded packs together say |
| Rbac.ClaimMatchesGate | src/accelerator_pack_auth_service/scopes.py:155-213 | with one pack ever seeded, in every reachable state the gate allows exactly the codenames in the user's claim, except that it raises exactly where two or more assignments carry the codename |
| Rbac.GateExceedsClaimExactly | src/accelerator_pack_auth_service/permission_service.py:91-235 | with any packs seeded, what the gate allows beyond the claim is exactly what another seeded pack's map lists for the user's role and the active pack's does not |
| Rbac.AssigningTwiceRaises | src/accelerator_pack_auth_service/main.py:1440-1450 | assigning one role twice makes the gate raise for each of its permissions |
| Base64.RoundTrip | src/accelerator_pack_auth_service/main.py:2776 | decoding undoes padded encoding, in both alphabets, also with padding in excess of complete groups |
| Base64.BodyIsTheSameNumber | src/accelerator_pack_auth_service/crypto.py:60-63 | for every data, the symbols read in base 64 are the octets read in base 256, shifted by the unused bits |
| Base64.NumberDeterminesText | src/accelerator_pack_auth_service/crypto.py:60-63 | that number and the length determine the text |
| Base64.BodyLength | src/accelerator_pack_auth_service/crypto.py:60-63 | n octets take (4n + 2) / 3 symbols |
| Base64.SymbolsFollowTheTables | src/accelerator_pack_auth_service/crypto.py:60-63 | the symbols are those of tables 1 and 2 of RFC 4648 |
| JwkIntegers.Base64UrlRoundTrip | src/accelerator_pack_auth_service/crypto.py:60-63 | every positive integer survives encoding and decoding, in unpadded URL-safe text of the length its octets call for |
| JwkIntegers.MinimalOctets | src/accelerator_pack_auth_service/crypto.py:60-63 | no fewer octets represent the value |
| JwkIntegers.UsualExponent | src/accelerator_pack_auth_service/crypto.py:158-169 | the exponent 65537 is published as "AQAB" |
| JwkIntegers.ZeroIsRenderedEmpty | src/accelerator_pack_auth_service/crypto.py:60-63 | zero becomes the empty text, where RFC 7518 wants "AA" |
| Utf8.TextRoundTrip | src/accelerator_pack_auth_service/main.py:2776 | UTF-8 decoding undoes encoding for every text |
| Utf8.EncodingIsTheWellFormedOne | src/accelerator_pack_auth_service/main.py:2776 | the bytes of a character are the one well-formed, shortest sequence section 3 of RFC 3629 has for it |
| Utf8.DecodesExactlyEncodings | src/accelerator_pack_auth_service/main.py:2776 | decoding accepts exactly the encodings |
| BasicAuth.CredentialsRoundTrip | src/accelerator_pack_auth_service/main.py:2763-2782 | every id without a colon and every secret come back exactly, for any case of the scheme |
| BasicAuth.ParsedCredentialsWereSent | src/accelerator_pack_auth_service/main.py:2763-2782 | whatever parses is a "basic" header whose payload decodes to id, colon, secret |
| ServiceAccounts.ClientRegistry.CreateServiceAccount | src/accelerator_pack_auth_service/main.py:3014-3036 | counts, then creates: refused at the cap, one new active account otherwise |
| ServiceAccounts.ClientRegistry.RotateSecret | src/accelerator_pack_auth_service/clients.py:149-163 | replaces the secret hash and nothing else |
| ServiceAccounts.ClientRegistry.RevokeClient | src/accelerator_pack_auth_service/clients.py:166-175 | deactivates and stamps revoked_at |
| ServiceAccounts.ClientRegistry.UpdateClient | src/accelerator_pack_auth_service/clients.py:178-212 | applies the present fields; deactivation stamps revoked_at once; reactivation never clears it |
| ServiceAccounts.NothingInBetween | src/accelerator_pack_auth_service/clients.py:166-212 | an update or revocation that nothing interrupts is the same whether or not its read and its commit are told apart |
| ServiceAccounts.IssuedExactlyToLiveAccounts | src/accelerator_pack_auth_service/main.py:2843-2942 | a token is issued if and only if grant, single authentication method, current secret, live account and grantable scopes are all there; it carries exactly the scopes both stamped and asked for |
| ServiceAccounts.NewAccountsGetTheirScopes | src/accelerator_pack_auth_service/clients.py:103-134 | create, then ask: until its expiry and not from it on, a new account is granted exactly the scopes it was stamped with, or those of them asked for |
| ServiceAccounts.RefusalsReflectCredentialsFirst | src/accelerator_pack_auth_service/main.py:2843-2934 | when each refusal is given: malformed and unsupported requests first, then invalid_client exactly when the credentials are not those of a live account; scope refusals are seen only by genuine clients |
| ServiceAccounts.BasicAndFormAgree | src/accelerator_pack_auth_service/main.py:2884-2900 | header and form credentials give the same outcome in every state |
| ServiceAccounts.StampedWildcardIsShippedLiterally | src/accelerator_pack_auth_service/main.py:2924-2929 | an account stamped "*" gets the literal "*", which opens no gate, and cannot ask for a real scope |
| ServiceAccounts.AccountsPerOwnerBounded | src/accelerator_pack_auth_service/main.py:3022-3036 | with at most K creations between count and insert, an owner has at most max - 1 + K accounts |
| ServiceAccounts.AccountBoundIsMet | src/accelerator_pack_auth_service/main.py:3022-3036 | for every cap and K some run within K leaves max - 1 + K accounts |
| ServiceAccounts.RevocationIsPermanent | src/accelerator_pack_auth_service/clients.py:166-212 | in every reachable state inactive accounts have revoked_at, and no run clears it, however stale the rows its updates read |
| ServiceAccounts.DeactivatedNeverIssues | src/accelerator_pack_auth_service/main.py:2912-2922 | an account once inactive is granted no token in any later state, and every token it is still issued is accounted for by a request in flight that had read it before |
| ServiceAccounts.RotatedOutSecretNeverMints | src/accelerator_pack_auth_service/clients.py:149-163 | a rotated-out secret is granted no token for its account again, and every token still issued for it is accounted for by a request in flight at the rotation |
| ServiceAccounts.GrantsPass | src/accelerator_pack_auth_service/main.py:2902-2929 | every request that is issued a token has made the step that judges its account and secret |
| ServiceAccounts.InFlightTokenOutlivesRevocation | src/accelerator_pack_auth_service/main.py:2912-2942 | a token request that has read its account is answered also after a revocation |

## Left out

- Rbac.RbacStore.SetRolePermissions: role requests are one step each; two that overlap may leave the
  union of both lists.
- Provisioning.SameAccountIffSameFirstEmail: provisioning is one step. Of two sign-ins that overlap
  on one email or identity the later insertion breaks a unique constraint and raises. That request
  amounts to no sign-in, and to a Register of the account it may have committed before its link
  failed, which is left unlinked.
- SsoExchange.ExchangeSucceedsExactly: each step after the subject check (provisioning, mapping, key,
  token) is one step; column widths and non-string email or name values are not modelled.
- SigningKeys.KeyTable.CreateSigningKey: key generation and PEM encoding are not modelled; a key
  is its kid and status.
- Token claims other than sub, type, jti, scope, iss and exp, the iat and audience checks and the
  rest of PyJWT; RSA, bcrypt and SHA-256 are idealised.
- The user row as a whole: sessions know its active flag, provisioning its email, name, role and
  password kind. `allowed_scopes` enters as an absent, undecodable or decoded list.
- Rbac.RbacStore.AssignUserRole: tenant, scope and granted_by columns of an assignment are not
  modelled, and neither are collection permissions.
- Rbac.RunFollowsPacks: roles granted at single sign-on count as ordinary assignments; SSO adds no
  other kind of row to those tables.
- Provisioning.UserDirectory.JitProvisionUser: the stored raw claims are not modelled.
- select_external_id, the userinfo merge, endpoint resolution and the https checks: the identity
  provider's answer enters the flow as its nonce and external id, or as a rejection.
- ClaimMapping.RoleAssignments.ApplyClaimMappings: claim values enter as the text str() makes of them.
- IdpCaches.Caches.ClientCredentialsToken: an expires_in that is not an integer is not modelled,
  and an empty scope counts as none.
- ServiceAccounts.ClientRegistry.UpdateClient: name and description are not modelled; an account
  is named by client_id rather than by its integer id, and last-used bookkeeping is left out.
- BasicAuth.CredentialsRoundTrip: characters beyond ASCII in the scheme are taken not to lower to
  a letter of "basic".
- Group and SCIM CRUD, audit, rate limiting, admin configuration and HTTP plumbing: they would
  only add easy members. There is no SAML exchange in the source.

/** Service accounts (clients.py) and the client-credentials token endpoint (oauth_token in
    main.py). An account is named by its client_id; the integer id the admin API uses is a
    second unique and equally immutable name for it. */
module ServiceAccounts {
  import opened Common
  import opened PackModels
  import opened ScopeClaims
  import opened BasicAuth

  type OwnerId = int

  datatype Account = Account(
    owner: OwnerId, secretHash: Digest, scopes: seq<string>,
    isActive: bool, expiresAt: Option<Time>, revokedAt: Option<Time>)

  type Accounts = map<string, Account>

  // Fields absent from a patch are left alone; expiresAt can also be cleared explicitly.
  datatype Patch = Patch(scopes: Option<seq<string>>, expiresAt: Option<Option<Time>>, isActive: Option<bool>)

  function Owned(accounts: Accounts, owner: OwnerId): set<string> {
    set c | c in accounts && accounts[c].owner == owner
  }

  predicate Usable(a: Account, now: Time) {
    a.isActive && a.revokedAt.None? && (a.expiresAt.Some? ==> now < a.expiresAt.value)
  }

  function Opened(owner: OwnerId, secret: string, scopes: seq<string>, expiresAt: Option<Time>): Account {
    Account(owner, Digest(secret), scopes, true, expiresAt, None)
  }

  function Patched(a: Account, patch: Patch, now: Time): Account {
    var isActive := patch.isActive.GetOr(a.isActive);
    a.(scopes := patch.scopes.GetOr(a.scopes), expiresAt := patch.expiresAt.GetOr(a.expiresAt),
       isActive := isActive,
       revokedAt := if patch.isActive == Some(false) && a.revokedAt.None? then Some(now) else a.revokedAt)
  }

  function Revoked(a: Account, now: Time): Account {
    a.(isActive := false, revokedAt := Some(now))
  }

  // The same updates, committed by a session that read the row as `seen`: it decides by that, and
  // writes only the columns whose value changed.
  function PatchedSince(seen: Account, a: Account, patch: Patch, now: Time): Account {
    a.(scopes := if patch.scopes.GetOr(seen.scopes) != seen.scopes then patch.scopes.value else a.scopes,
       expiresAt := if patch.expiresAt.GetOr(seen.expiresAt) != seen.expiresAt then patch.expiresAt.value else a.expiresAt,
       isActive := if patch.isActive.GetOr(seen.isActive) != seen.isActive then patch.isActive.value else a.isActive,
       revokedAt := if patch.isActive == Some(false) && seen.revokedAt.None? then Some(now) else a.revokedAt)
  }

  function RevokedSince(seen: Account, a: Account, now: Time): Account {
    a.(isActive := if seen.isActive then false else a.isActive, revokedAt := Some(now))
  }

  /** Uninterrupted, they are the updates above. */
  lemma NothingInBetween(a: Account, patch: Patch, now: Time)
    ensures PatchedSince(a, a, patch, now) == Patched(a, patch, now)
    ensures RevokedSince(a, a, now) == Revoked(a, now)
  {
  }

  // ---------------------------------------------------------------- the registry

  datatype CreateError = LimitReached | UniqueViolation

  class ClientRegistry {
    var accounts: Accounts
    const maxPerOwner: int

    constructor (max: int)
      ensures accounts == map[] && maxPerOwner == max
    {
      accounts, maxPerOwner := map[], max;
    }

    method CreateServiceAccount(owner: OwnerId, clientId: string, secret: string, scopes: seq<string>,
                                expiresAt: Option<Time>)
      returns (r: Result<string, CreateError>)
      modifies this
      ensures r == if |Owned(old(accounts), owner)| >= maxPerOwner then Err(LimitReached)
                   else if clientId in old(accounts) then Err(UniqueViolation)
                   else Ok(secret)
      ensures accounts == if r.Ok? then old(accounts)[clientId := Opened(owner, secret, scopes, expiresAt)]
                          else old(accounts)
    {
      var existing := |Owned(accounts, owner)|;
      if existing >= maxPerOwner {
        return Err(LimitReached);
      }
      if clientId in accounts {
        return Err(UniqueViolation);
      }
      accounts := accounts[clientId := Account(owner, Digest(secret), scopes, true, expiresAt, None)];
      return Ok(secret);
    }

    method RotateSecret(clientId: string, secret: string) returns (found: bool)
      modifies this
      ensures found == (clientId in old(accounts))
      ensures accounts == if found then old(accounts)[clientId := old(accounts)[clientId].(secretHash := Digest(secret))]
                          else old(accounts)
    {
      found := clientId in accounts;
      if found {
        accounts := accounts[clientId := accounts[clientId].(secretHash := Digest(secret))];
      }
    }

    method RevokeClient(clientId: string, now: Time) returns (found: bool)
      modifies this
      ensures found == (clientId in old(accounts))
      ensures accounts == if found then old(accounts)[clientId := Revoked(old(accounts)[clientId], now)]
                          else old(accounts)
      ensures found ==> accounts[clientId] == old(accounts)[clientId].(isActive := false, revokedAt := Some(now))
    {
      found := clientId in accounts;
      if found {
        accounts := accounts[clientId := accounts[clientId].(isActive := false, revokedAt := Some(now))];
      }
    }

    method UpdateClient(clientId: string, patch: Patch, now: Time) returns (found: bool)
      modifies this
      ensures found == (clientId in old(accounts))
      ensures accounts == if found then old(accounts)[clientId := Patched(old(accounts)[clientId], patch, now)]
                          else old(accounts)
      ensures found ==>
                var a, a' := old(accounts)[clientId], accounts[clientId];
                && a'.owner == a.owner && a'.secretHash == a.secretHash
                && (patch.scopes == Some(a'.scopes) || (patch.scopes.None? && a'.scopes == a.scopes))
                && (patch.expiresAt == Some(a'.expiresAt) || (patch.expiresAt.None? && a'.expiresAt == a.expiresAt))
                && (patch.isActive == Some(a'.isActive) || (patch.isActive.None? && a'.isActive == a.isActive))
                && (a.revokedAt.Some? || patch.isActive != Some(false) ==> a'.revokedAt == a.revokedAt)
                && (a.revokedAt.None? && patch.isActive == Some(false) ==> a'.revokedAt == Some(now))
    {
      found := clientId in accounts;
      if !found {
        return;
      }
      var a := accounts[clientId];
      if patch.scopes.Some? {
        a := a.(scopes := patch.scopes.value);
      }
      if patch.expiresAt.Some? {
        a := a.(expiresAt := patch.expiresAt.value);
      }
      if patch.isActive.Some? {
        a := a.(isActive := patch.isActive.value);
        if !patch.isActive.value && a.revokedAt.None? {
          a := a.(revokedAt := Some(now));
        }
      }
      accounts := accounts[clientId := a];
    }
  }

  // ---------------------------------------------------------------- the token endpoint

  datatype TokenRequest = TokenRequest(
    formEncoded: bool, grantType: Option<string>, clientId: Option<string>, clientSecret: Option<string>,
    scope: Option<string>, authorization: Option<string>)

  datatype Config = Config(clientCredentialsEnabled: bool, strictScopes: bool)

  datatype Outcome =
    | InvalidRequest
    | UnsupportedGrantType
    | InvalidClient
    | ScopeRefused
    | Issued(clientId: string, scopes: seq<string>)

  // The pair a request presents: from the header if it parses, else from the form.
  function Presented(r: TokenRequest): (string, string) {
    var basic := ParseBasicAuth(r.authorization);
    if basic.Some? then basic.value else (r.clientId.GetOr(""), r.clientSecret.GetOr(""))
  }

  function OauthToken(accounts: Accounts, r: TokenRequest, config: Config, now: Time): Outcome {
    if !r.formEncoded || r.grantType.GetOr("") == "" then InvalidRequest
    else if !config.clientCredentialsEnabled || r.grantType != Some("client_credentials") then UnsupportedGrantType
    else if ParseBasicAuth(r.authorization).Some? && (r.clientId.Some? || r.clientSecret.Some?) then InvalidRequest
    else
      var (clientId, secret) := Presented(r);
      if clientId == "" || secret == "" || clientId !in accounts then InvalidClient
      else if accounts[clientId].secretHash != Digest(secret) then InvalidClient
      else if !Usable(accounts[clientId], now) then InvalidClient
      else
        var granted := GrantScopes(accounts[clientId].scopes, ParseScopeString(r.scope), config.strictScopes);
        if granted.Err? then ScopeRefused else Issued(clientId, granted.value)
  }

  /** A token is issued if and only if the grant is enabled and asked for, one authentication
      method is used, it names an account that is active, never revoked and unexpired, with that
      account's current secret, and the scopes asked for can be granted. It carries exactly the
      scopes that are both stamped on the account and, if any were named, asked for. */
  lemma IssuedExactlyToLiveAccounts(accounts: Accounts, r: TokenRequest, config: Config, now: Time)
    ensures var (clientId, secret) := Presented(r);
            var asked := ParseScopeString(r.scope);
            OauthToken(accounts, r, config, now).Issued? <==>
            && config.clientCredentialsEnabled && r.formEncoded && r.grantType == Some("client_credentials")
            && (ParseBasicAuth(r.authorization).Some? ==> r.clientId.None? && r.clientSecret.None?)
            && clientId != "" && secret != ""
            && clientId in accounts && accounts[clientId].secretHash.preimage == secret
            && accounts[clientId].isActive && accounts[clientId].revokedAt.None?
            && (accounts[clientId].expiresAt.Some? ==> now < accounts[clientId].expiresAt.value)
            && (asked != [] ==> exists s :: s in asked && s in accounts[clientId].scopes)
            && (config.strictScopes ==> forall s :: s in asked ==> s in accounts[clientId].scopes)
    ensures var outcome := OauthToken(accounts, r, config, now);
            var asked := ParseScopeString(r.scope);
            outcome.Issued? ==>
              && outcome.clientId == Presented(r).0
              && forall s :: s in outcome.scopes <==>
                   s in accounts[outcome.clientId].scopes && (asked == [] || s in asked)
  {
    if Presented(r).0 in accounts {
      GrantExactly(accounts[Presented(r).0].scopes, ParseScopeString(r.scope), config.strictScopes);
    }
    hide ParseBasicAuth, ParseScopeString, GrantScopes;
  }

  /** Create, then ask for a token: until the instant the account was to expire, and not from it on, its
      owner's secret is granted exactly the scopes stamped at creation, or those of them asked for. */
  lemma NewAccountsGetTheirScopes(accounts: Accounts, owner: OwnerId, clientId: string, secret: string,
                                  scopes: seq<string>, expiresAt: Option<Time>, r: TokenRequest, config: Config, now: Time)
    requires config.clientCredentialsEnabled && r.formEncoded && r.grantType == Some("client_credentials")
    requires ParseBasicAuth(r.authorization).Some? ==> r.clientId.None? && r.clientSecret.None?
    requires Presented(r) == (clientId, secret) && clientId != "" && secret != ""
    ensures var after := accounts[clientId := Opened(owner, secret, scopes, expiresAt)];
            var asked := ParseScopeString(r.scope);
            var outcome := OauthToken(after, r, config, now);
            && (outcome.InvalidClient? <==> exists end :: expiresAt == Some(end) && end <= now)
            && (asked == [] && !outcome.InvalidClient? ==> outcome == Issued(clientId, scopes))
            && (outcome.Issued? ==>
                  outcome.clientId == clientId
                  && forall s :: s in outcome.scopes <==> s in scopes && (asked == [] || s in asked))
  {
    var after := accounts[clientId := Opened(owner, secret, scopes, expiresAt)];
    IssuedExactlyToLiveAccounts(after, r, config, now);
    RefusalsReflectCredentialsFirst(after, r, config, now);
    hide ParseBasicAuth, ParseScopeString, Presented;
  }

  /** Which refusal comes when. Unknown ids, wrong secrets and dead accounts are told apart by nothing: a
      well-formed request for the grant is answered InvalidClient exactly when it does not name a live
      account with its current secret, and whether its scopes could be granted shows only to those who do. */
  lemma RefusalsReflectCredentialsFirst(accounts: Accounts, r: TokenRequest, config: Config, now: Time)
    ensures var (clientId, secret) := Presented(r);
            var asked := ParseScopeString(r.scope);
            var outcome := OauthToken(accounts, r, config, now);
            var stated := r.formEncoded && r.grantType !in {None, Some("")};
            var forGrant := stated && config.clientCredentialsEnabled && r.grantType == Some("client_credentials");
            var oneWay := ParseBasicAuth(r.authorization).Some? ==> r.clientId.None? && r.clientSecret.None?;
            var genuine := && clientId != "" && secret != "" && clientId in accounts
                           && accounts[clientId].secretHash == Digest(secret) && Usable(accounts[clientId], now);
            && (outcome.InvalidRequest? <==> !stated || (forGrant && !oneWay))
            && (outcome.UnsupportedGrantType? <==> stated && !forGrant)
            && (outcome.InvalidClient? <==> forGrant && oneWay && !genuine)
            && (outcome.ScopeRefused? <==>
                  && forGrant && oneWay && genuine && asked != []
                  && ((forall s :: s in asked ==> s !in accounts[clientId].scopes)
                      || (config.strictScopes && exists s :: s in asked && s !in accounts[clientId].scopes)))
  {
    if Presented(r).0 in accounts {
      GrantExactly(accounts[Presented(r).0].scopes, ParseScopeString(r.scope), config.strictScopes);
    }
    hide ParseBasicAuth, ParseScopeString, GrantScopes;
  }

  /** The two ways of presenting credentials are interchangeable, in every state and with every
      outcome, for any client id without a colon. */
  lemma BasicAndFormAgree(accounts: Accounts, r: TokenRequest, scheme: string, config: Config, now: Time)
    requires r.clientId.Some? && r.clientSecret.Some? && r.authorization.None?
    requires ':' !in r.clientId.value && Lower(scheme) == "basic"
    ensures var viaHeader := r.(clientId := None, clientSecret := None,
                                authorization := Some(BasicHeader(scheme, r.clientId.value, r.clientSecret.value)));
            OauthToken(accounts, viaHeader, config, now) == OauthToken(accounts, r, config, now)
  {
    CredentialsRoundTrip(scheme, r.clientId.value, r.clientSecret.value);
    hide BasicHeader, ParseScopeString, GrantScopes, Lower;
  }

  // A claim of "*" satisfies no gate on another scope, and a request for one finds no match in it.
  lemma WildcardOpensNothing(wanted: string)
    requires ValidScopeEntry(wanted) && wanted != WILDCARD
    ensures MissingScopes(Join([WILDCARD]), {wanted}) == {wanted}
    ensures GrantScopes([WILDCARD], ParseScopeString(Some(wanted)), false).Err?
  {
    MintThenGate([WILDCARD], [], false, {wanted});
    assert forall i :: 0 <= i < |wanted| ==> ScopeChar(wanted[i]);
    SplitJoin([wanted]);
    assert ParseScopeString(Some(wanted)) == [wanted];
    GrantExactly([WILDCARD], [wanted], false);
  }

  /** An account stamped with the wildcard is not given the pack's vocabulary: its token carries
      the literal "*", which satisfies no gate on a real scope, and asking for one by name fails. */
  lemma StampedWildcardIsShippedLiterally(accounts: Accounts, r: TokenRequest, config: Config, now: Time,
                                          clientId: string, secret: string, wanted: string)
    requires clientId in accounts && accounts[clientId].scopes == [WILDCARD]
    requires accounts[clientId].secretHash == Digest(secret) && Usable(accounts[clientId], now)
    requires clientId != "" && secret != "" && ValidScopeEntry(wanted) && wanted != WILDCARD
    requires config.clientCredentialsEnabled && !config.strictScopes
    requires r == TokenRequest(true, Some("client_credentials"), Some(clientId), Some(secret), None, None)
    ensures OauthToken(accounts, r, config, now) == Issued(clientId, [WILDCARD])
    ensures MissingScopes(Join([WILDCARD]), {wanted}) == {wanted}
    ensures OauthToken(accounts, r.(scope := Some(wanted)), config, now) == ScopeRefused
  {
    WildcardOpensNothing(wanted);
    hide SplitFrom, Join, Filter, MissingScopes, ValidScopeEntry;
  }

  // ---------------------------------------------------------------- runs

  /** Creation is cut between the cap check and the insertion: `pending` counts, per owner, the
      requests past the check. Updates and revocations are cut between their read and their commit:
      `inFlight` holds what those in flight have read. A token request is cut after it has read, and
      judged, its account: `issuing` holds the client and secret of those that passed and have not
      answered (PassToken, then IssueToken; a refusal for scopes is a DropToken). `generated` remembers
      every secret ever generated; a new one is never among them. */
  datatype State = State(
    accounts: Accounts, pending: multiset<OwnerId>, inFlight: multiset<(string, Account)>,
    issuing: multiset<(string, string)>, generated: set<string>)

  const EMPTY := State(map[], multiset{}, multiset{}, multiset{}, {})

  datatype Event =
    | PassCap(owner: OwnerId)
    | Insert(owner: OwnerId, clientId: string, secret: string, scopes: seq<string>, expiresAt: Option<Time>)
    | GiveUp(owner: OwnerId)
    | Rotate(clientId: string, secret: string)
    | ReadAccount(clientId: string)
    | Revoke(clientId: string, seen: Account)
    | Update(clientId: string, seen: Account, patch: Patch)
    | Forget(clientId: string, seen: Account)
    | PassToken(clientId: string, secret: string)
    | IssueToken(clientId: string, secret: string)
    | DropToken(clientId: string, secret: string)

  datatype Step = Step(at: Time, event: Event)

  // The account's current secret, and an account that may use it.
  predicate IsGenuine(accounts: Accounts, clientId: string, secret: string, now: Time) {
    clientId in accounts && accounts[clientId].secretHash == Digest(secret) && Usable(accounts[clientId], now)
  }

  predicate Enabled(s: State, step: Step, max: int) {
    match step.event
    case PassCap(owner) => |Owned(s.accounts, owner)| < max
    case Insert(owner, clientId, secret, _, _) =>
      owner in s.pending && clientId !in s.accounts && secret !in s.generated
    case GiveUp(owner) => owner in s.pending
    case Rotate(clientId, secret) => clientId in s.accounts && secret !in s.generated
    case ReadAccount(clientId) => clientId in s.accounts
    case Revoke(clientId, seen) => (clientId, seen) in s.inFlight && clientId in s.accounts
    case Update(clientId, seen, _) => (clientId, seen) in s.inFlight && clientId in s.accounts
    case Forget(clientId, seen) => (clientId, seen) in s.inFlight
    case PassToken(clientId, secret) => IsGenuine(s.accounts, clientId, secret, step.at)
    case IssueToken(clientId, secret) => (clientId, secret) in s.issuing
    case DropToken(clientId, secret) => (clientId, secret) in s.issuing
  }

  function Apply(s: State, step: Step, max: int): State
    requires Enabled(s, step, max)
  {
    match step.event
    case PassCap(owner) => s.(pending := s.pending + multiset{owner})
    case Insert(owner, clientId, secret, scopes, expiresAt) =>
      s.(accounts := s.accounts[clientId := Opened(owner, secret, scopes, expiresAt)],
         pending := s.pending - multiset{owner}, generated := s.generated + {secret})
    case GiveUp(owner) => s.(pending := s.pending - multiset{owner})
    case Rotate(clientId, secret) =>
      s.(accounts := s.accounts[clientId := s.accounts[clientId].(secretHash := Digest(secret))],
         generated := s.generated + {secret})
    case ReadAccount(clientId) => s.(inFlight := s.inFlight + multiset{(clientId, s.accounts[clientId])})
    case Revoke(clientId, seen) =>
      s.(accounts := s.accounts[clientId := RevokedSince(seen, s.accounts[clientId], step.at)],
         inFlight := s.inFlight - multiset{(clientId, seen)})
    case Update(clientId, seen, patch) =>
      s.(accounts := s.accounts[clientId := PatchedSince(seen, s.accounts[clientId], patch, step.at)],
         inFlight := s.inFlight - multiset{(clientId, seen)})
    case Forget(clientId, seen) => s.(inFlight := s.inFlight - multiset{(clientId, seen)})
    case PassToken(clientId, secret) => s.(issuing := s.issuing + multiset{(clientId, secret)})
    case IssueToken(clientId, secret) => s.(issuing := s.issuing - multiset{(clientId, secret)})
    case DropToken(clientId, secret) => s.(issuing := s.issuing - multiset{(clientId, secret)})
  }

  predicate Run(s: State, steps: seq<Step>, max: int)
    decreases |steps|
  {
    steps == [] || (Enabled(s, steps[0], max) && Run(Apply(s, steps[0], max), steps[1..], max))
  }

  function After(s: State, steps: seq<Step>, max: int): State
    requires Run(s, steps, max)
    decreases |steps|
  {
    if steps == [] then s else After(Apply(s, steps[0], max), steps[1..], max)
  }

  predicate PendingAtMost(s: State, steps: seq<Step>, max: int, owner: OwnerId, k: nat)
    requires Run(s, steps, max)
    decreases |steps|
  {
    s.pending[owner] <= k
    && (steps == [] || PendingAtMost(Apply(s, steps[0], max), steps[1..], max, owner, k))
  }

  // ---------------------------------------------------------------- the cap

  lemma OwnedAfterInsert(accounts: Accounts, clientId: string, a: Account, owner: OwnerId)
    requires clientId !in accounts
    ensures Owned(accounts[clientId := a], owner)
            == if a.owner == owner then Owned(accounts, owner) + {clientId} else Owned(accounts, owner)
  {
  }

  lemma OwnedAfterUpdate(accounts: Accounts, clientId: string, a: Account, owner: OwnerId)
    requires clientId in accounts && a.owner == accounts[clientId].owner
    ensures Owned(accounts[clientId := a], owner) == Owned(accounts, owner)
  {
  }

  lemma StepKeepsCap(s: State, step: Step, max: int, owner: OwnerId, k: nat)
    requires Enabled(s, step, max)
    requires |Owned(s.accounts, owner)| + s.pending[owner] <= max - 1 + k
    requires Apply(s, step, max).pending[owner] <= k
    ensures |Owned(Apply(s, step, max).accounts, owner)| + Apply(s, step, max).pending[owner] <= max - 1 + k
  {
    hide PatchedSince, RevokedSince, Owned;
    var s' := Apply(s, step, max);
    if step.event.Insert? {
      var e := step.event;
      OwnedAfterInsert(s.accounts, e.clientId, Opened(e.owner, e.secret, e.scopes, e.expiresAt), owner);
    } else if step.event.Rotate? || step.event.Revoke? || step.event.Update? {
      OwnerStays(s, step, max);
      OwnedAfterUpdate(s.accounts, step.event.clientId, s'.accounts[step.event.clientId], owner);
    } else {
      NoAccountChanges(s, step, max, owner);
      assert step.event.PassCap? ==> |Owned(s.accounts, step.event.owner)| < max;
      hide Apply, Enabled;
    }
  }

  lemma NoAccountChanges(s: State, step: Step, max: int, owner: OwnerId)
    requires Enabled(s, step, max)
    requires !step.event.Insert? && !step.event.Rotate? && !step.event.Revoke? && !step.event.Update?
    ensures Apply(s, step, max).accounts == s.accounts
    ensures Apply(s, step, max).pending[owner]
            <= s.pending[owner] + (if step.event == PassCap(owner) then 1 else 0)
  {
    hide Owned;
  }

  lemma OwnerStays(s: State, step: Step, max: int)
    requires Enabled(s, step, max) && (step.event.Rotate? || step.event.Revoke? || step.event.Update?)
    ensures var s', c := Apply(s, step, max), step.event.clientId;
            && c in s.accounts && s'.accounts == s.accounts[c := s'.accounts[c]]
            && s'.accounts[c].owner == s.accounts[c].owner && s'.pending == s.pending
  {
    hide Owned;
  }

  lemma {:induction false} CapKept(s: State, steps: seq<Step>, max: int, owner: OwnerId, k: nat)
    requires Run(s, steps, max) && PendingAtMost(s, steps, max, owner, k)
    requires |Owned(s.accounts, owner)| + s.pending[owner] <= max - 1 + k
    ensures |Owned(After(s, steps, max).accounts, owner)| <= max - 1 + k
    decreases |steps|
  {
    if steps == [] {
    } else {
      assert PendingAtMost(Apply(s, steps[0], max), steps[1..], max, owner, k);
      StepKeepsCap(s, steps[0], max, owner, k);
      CapKept(Apply(s, steps[0], max), steps[1..], max, owner, k);
    }
  }

  /** With never more than k of an owner's creations between the cap check and the insertion,
      the owner never has more than max - 1 + k accounts: no more than max when creation is
      atomic (k = 1). */
  lemma AccountsPerOwnerBounded(steps: seq<Step>, max: nat, owner: OwnerId, k: nat)
    requires Run(EMPTY, steps, max) && PendingAtMost(EMPTY, steps, max, owner, k) && k >= 1
    ensures |Owned(After(EMPTY, steps, max).accounts, owner)| <= max - 1 + k
  {
    assert Owned(EMPTY.accounts, owner) == {};
    CapKept(EMPTY, steps, max, owner, k);
  }

  // ---------------------------------------------------------------- deactivation and rotation

  ghost predicate Sound(s: State) {
    && (forall c :: c in s.accounts && !s.accounts[c].isActive ==> s.accounts[c].revokedAt.Some?)
    && (forall c :: c in s.accounts ==> s.accounts[c].secretHash.preimage in s.generated)
    && (forall c, seen :: (c, seen) in s.inFlight ==>
          c in s.accounts && (!seen.isActive || seen.revokedAt.Some? ==> s.accounts[c].revokedAt.Some?)
          && (!seen.isActive ==> seen.revokedAt.Some?))
  }

  // One account changes, or appears, without losing its revocation.
  lemma ChangeStaysSound(s: State, s': State, c: string)
    requires Sound(s) && c in s'.accounts && s'.accounts == s.accounts[c := s'.accounts[c]]
    requires s'.inFlight <= s.inFlight && s.generated <= s'.generated
    requires s'.accounts[c].secretHash.preimage in s'.generated
    requires !s'.accounts[c].isActive ==> s'.accounts[c].revokedAt.Some?
    requires c in s.accounts && s.accounts[c].revokedAt.Some? ==> s'.accounts[c].revokedAt.Some?
    ensures Sound(s') && RevocationsKept(s.accounts, s'.accounts)
  {
  }

  ghost predicate RevocationsKept(before: Accounts, after: Accounts) {
    forall c :: c in before && before[c].revokedAt.Some? ==> c in after && after[c].revokedAt.Some?
  }

  lemma SoundAccount(s: State, c: string)
    requires Sound(s) && c in s.accounts
    ensures !s.accounts[c].isActive ==> s.accounts[c].revokedAt.Some?
    ensures s.accounts[c].secretHash.preimage in s.generated
    ensures forall seen :: (c, seen) in s.inFlight ==>
              && (!seen.isActive ==> seen.revokedAt.Some?)
              && (seen.revokedAt.Some? ==> s.accounts[c].revokedAt.Some?)
  {
  }

  lemma ReadStaysSound(s: State, c: string)
    requires Sound(s) && c in s.accounts
    ensures Sound(s.(inFlight := s.inFlight + multiset{(c, s.accounts[c])}))
  {
  }

  // What a stale read leads to never clears a revocation, nor deactivates without one.
  lemma StaleWritesKeepRevocation(seen: Account, a: Account, patch: Patch, now: Time)
    requires (!a.isActive ==> a.revokedAt.Some?) && (!seen.isActive ==> seen.revokedAt.Some?)
    requires seen.revokedAt.Some? ==> a.revokedAt.Some?
    ensures var b := PatchedSince(seen, a, patch, now);
            (!b.isActive || a.revokedAt.Some? ==> b.revokedAt.Some?) && b.secretHash == a.secretHash
    ensures RevokedSince(seen, a, now).revokedAt.Some? && RevokedSince(seen, a, now).secretHash == a.secretHash
  {
  }

  lemma KeptByNothing(accounts: Accounts)
    ensures RevocationsKept(accounts, accounts)
  {
  }

  lemma UpdateIsPermanent(s: State, step: Step, max: int)
    requires Sound(s) && Enabled(s, step, max) && (step.event.Update? || step.event.Revoke?)
    ensures Sound(Apply(s, step, max)) && RevocationsKept(s.accounts, Apply(s, step, max).accounts)
  {
    hide Sound, RevocationsKept, PatchedSince, RevokedSince, Owned;
    var s', c, seen := Apply(s, step, max), step.event.clientId, step.event.seen;
    SoundAccount(s, c);
    StaleWritesKeepRevocation(seen, s.accounts[c], if step.event.Update? then step.event.patch else Patch(None, None, None),
                              step.at);
    ChangeStaysSound(s, s', c);
  }

  predicate WritesNothing(e: Event) {
    e.PassCap? || e.GiveUp? || e.PassToken? || e.IssueToken? || e.DropToken?
  }

  lemma NothingWritten(s: State, step: Step, max: int)
    requires Enabled(s, step, max) && WritesNothing(step.event)
    ensures var s' := Apply(s, step, max);
            s'.accounts == s.accounts && s'.generated == s.generated && s'.inFlight == s.inFlight
  {
    hide Owned;
  }

  lemma ForgettingStaysSound(s: State, s': State)
    requires Sound(s) && s'.accounts == s.accounts && s'.generated == s.generated
    requires forall x :: x in s'.inFlight ==> x in s.inFlight
    ensures Sound(s')
  {
  }

  lemma CreationIsPermanent(s: State, step: Step, max: int)
    requires Sound(s) && Enabled(s, step, max) && (step.event.Insert? || step.event.Rotate?)
    ensures Sound(Apply(s, step, max)) && RevocationsKept(s.accounts, Apply(s, step, max).accounts)
  {
    var c := step.event.clientId;
    if step.event.Rotate? {
      SoundAccount(s, c);
    }
    hide Sound, RevocationsKept, Owned;
    ChangeStaysSound(s, Apply(s, step, max), c);
  }

  lemma StepIsPermanent(s: State, step: Step, max: int)
    requires Sound(s) && Enabled(s, step, max)
    ensures Sound(Apply(s, step, max)) && RevocationsKept(s.accounts, Apply(s, step, max).accounts)
  {
    hide Sound, RevocationsKept, PatchedSince, RevokedSince, Owned;
    if step.event.Insert? || step.event.Rotate? {
      CreationIsPermanent(s, step, max);
    } else if step.event.Revoke? || step.event.Update? {
      UpdateIsPermanent(s, step, max);
    } else if step.event.ReadAccount? {
      KeptByNothing(s.accounts);
      ReadStaysSound(s, step.event.clientId);
    } else if step.event.Forget? {
      KeptByNothing(s.accounts);
      ForgettingStaysSound(s, s.(inFlight := s.inFlight - multiset{(step.event.clientId, step.event.seen)}));
    } else {
      KeptByNothing(s.accounts);
      NothingWritten(s, step, max);
      hide Apply, Enabled;
      ForgettingStaysSound(s, Apply(s, step, max));
    }
  }

  /** In every reachable state an inactive account has its revocation instant set; no step ever
      clears one, setting is_active back to true included, however stale the row it read. */
  lemma {:induction false} RevocationIsPermanent(s: State, steps: seq<Step>, max: int)
    requires Sound(s) && Run(s, steps, max)
    ensures Sound(After(s, steps, max)) && RevocationsKept(s.accounts, After(s, steps, max).accounts)
    decreases |steps|
  {
    if steps != [] {
      StepIsPermanent(s, steps[0], max);
      hide Apply, Enabled, Sound;
      RevocationIsPermanent(Apply(s, steps[0], max), steps[1..], max);
    }
  }

  // How often exactly this event occurs.
  function Count(steps: seq<Step>, event: Event): nat
    decreases |steps|
  {
    if steps == [] then 0 else (if steps[0].event == event then 1 else 0) + Count(steps[1..], event)
  }

  /** No token is granted for this client and secret any more: the account is revoked, or the secret was
      once generated and is not its current one. */
  predicate Blocked(s: State, clientId: string, secret: string) {
    && clientId in s.accounts
    && (s.accounts[clientId].revokedAt.Some?
        || (secret in s.generated && s.accounts[clientId].secretHash != Digest(secret)))
  }

  /** A request that is issued a token has made its PassToken step. */
  lemma GrantsPass(s: State, r: TokenRequest, config: Config, at: Time, max: int)
    requires OauthToken(s.accounts, r, config, at).Issued?
    ensures Enabled(s, Step(at, PassToken(OauthToken(s.accounts, r, config, at).clientId, Presented(r).1)), max)
  {
    IssuedExactlyToLiveAccounts(s.accounts, r, config, at);
    hide OauthToken;
  }

  lemma HashesChangeByRotation(s: State, step: Step, max: int, c: string)
    requires Enabled(s, step, max) && c in s.accounts
    ensures c in Apply(s, step, max).accounts && s.generated <= Apply(s, step, max).generated
    ensures Apply(s, step, max).accounts[c].secretHash
            == if step.event.Rotate? && step.event.clientId == c then Digest(step.event.secret) else s.accounts[c].secretHash
  {
    hide Owned;
    match step.event {
      case Rotate(_, _) =>
      case Revoke(_, _) =>
      case Update(_, _, _) =>
      case Insert(_, _, _, _, _) =>
      case _ =>
    }
  }

  lemma StepKeepsBlocked(s: State, step: Step, max: int, clientId: string, secret: string)
    requires Sound(s) && Enabled(s, step, max) && Blocked(s, clientId, secret)
    ensures Blocked(Apply(s, step, max), clientId, secret)
    ensures Apply(s, step, max).issuing[(clientId, secret)] == s.issuing[(clientId, secret)]
              - (if step.event == IssueToken(clientId, secret) || step.event == DropToken(clientId, secret) then 1 else 0)
  {
    HashesChangeByRotation(s, step, max, clientId);
    StepIsPermanent(s, step, max);
    hide Owned, Sound, PatchedSince, RevokedSince;
  }

  // Whatever is issued for a blocked client and secret had been granted before it was blocked.
  lemma {:induction false} BlockedTokensAccountedFor(s: State, steps: seq<Step>, max: int, clientId: string, secret: string)
    requires Sound(s) && Run(s, steps, max) && Blocked(s, clientId, secret)
    ensures Blocked(After(s, steps, max), clientId, secret)
    ensures s.issuing[(clientId, secret)]
            == Count(steps, IssueToken(clientId, secret)) + Count(steps, DropToken(clientId, secret))
               + After(s, steps, max).issuing[(clientId, secret)]
    decreases |steps|
  {
    if steps != [] {
      StepKeepsBlocked(s, steps[0], max, clientId, secret);
      StepIsPermanent(s, steps[0], max);
      hide Apply, Enabled, Sound, Blocked;
      BlockedTokensAccountedFor(Apply(s, steps[0], max), steps[1..], max, clientId, secret);
    }
  }

  /** An account that is inactive in some reachable state is granted no token afterwards, whatever is
      done to it; every token it is still issued is accounted for by a request that had read it
      before and was then in flight. */
  lemma DeactivatedNeverIssues(before: seq<Step>, after: seq<Step>, max: int, clientId: string, secret: string,
                               r: TokenRequest, config: Config, now: Time)
    requires Run(EMPTY, before, max) && Run(After(EMPTY, before, max), after, max)
    requires clientId in After(EMPTY, before, max).accounts
    requires !After(EMPTY, before, max).accounts[clientId].isActive
    ensures var s := After(EMPTY, before, max);
            var s' := After(s, after, max);
            var outcome := OauthToken(s'.accounts, r, config, now);
            && (outcome.Issued? ==> outcome.clientId != clientId)
            && s.issuing[(clientId, secret)]
               == Count(after, IssueToken(clientId, secret)) + Count(after, DropToken(clientId, secret))
                  + s'.issuing[(clientId, secret)]
  {
    var s := After(EMPTY, before, max);
    var s' := After(s, after, max);
    assert Sound(EMPTY);
    RevocationIsPermanent(EMPTY, before, max);
    RevocationIsPermanent(s, after, max);
    assert s.accounts[clientId].revokedAt.Some? && Blocked(s, clientId, secret);
    BlockedTokensAccountedFor(s, after, max, clientId, secret);
    hide OauthToken, Run, After, Sound, Apply;
    if OauthToken(s'.accounts, r, config, now).Issued? {
      GrantsPass(s', r, config, now, max);
    }
  }

  /** Once rotated out, a secret is granted no token for its account again; every token still issued for
      it is accounted for by a request in flight at the rotation. */
  lemma RotatedOutSecretNeverMints(before: seq<Step>, at: Time, clientId: string, secret: string, after: seq<Step>,
                                   max: int, r: TokenRequest, config: Config, now: Time)
    requires Run(EMPTY, before, max)
    requires var s := After(EMPTY, before, max);
             && Enabled(s, Step(at, Rotate(clientId, secret)), max)
             && Run(Apply(s, Step(at, Rotate(clientId, secret)), max), after, max)
    ensures var s := After(EMPTY, before, max);
            var s' := After(Apply(s, Step(at, Rotate(clientId, secret)), max), after, max);
            var outcome := OauthToken(s'.accounts, r, config, now);
            var retired := s.accounts[clientId].secretHash.preimage;
            && (outcome.Issued? && outcome.clientId == clientId ==> Presented(r).1 != retired)
            && s.issuing[(clientId, retired)]
               == Count(after, IssueToken(clientId, retired)) + Count(after, DropToken(clientId, retired))
                  + s'.issuing[(clientId, retired)]
  {
    var s := After(EMPTY, before, max);
    assert Sound(EMPTY);
    RevocationIsPermanent(EMPTY, before, max);
    var rotate := Step(at, Rotate(clientId, secret));
    var retired := s.accounts[clientId].secretHash.preimage;
    assert retired in s.generated by {
      SoundAccount(s, clientId);
    }
    var s1 := Apply(s, rotate, max);
    StepIsPermanent(s, rotate, max);
    assert Blocked(s1, clientId, retired);
    BlockedTokensAccountedFor(s1, after, max, clientId, retired);
    var s' := After(s1, after, max);
    hide OauthToken, Apply, Run, After, Sound;
    if OauthToken(s'.accounts, r, config, now).Issued? {
      GrantsPass(s', r, config, now, max);
    }
  }

  // ---------------------------------------------------------------- what does happen

  lemma {:induction false} Snoc(s: State, steps: seq<Step>, step: Step, max: int, owner: OwnerId, k: nat)
    requires Run(s, steps, max) && PendingAtMost(s, steps, max, owner, k)
    requires Enabled(After(s, steps, max), step, max)
    requires Apply(After(s, steps, max), step, max).pending[owner] <= k
    ensures Run(s, steps + [step], max) && PendingAtMost(s, steps + [step], max, owner, k)
    ensures After(s, steps + [step], max) == Apply(After(s, steps, max), step, max)
    decreases |steps|
  {
    hide Apply, Enabled;
    if steps == [] {
      assert [] + [step] == [step] && [step][1..] == [];
      assert Run(Apply(s, step, max), [], max) && PendingAtMost(Apply(s, step, max), [], max, owner, k);
    } else {
      assert (steps + [step])[0] == steps[0] && (steps + [step])[1..] == steps[1..] + [step];
      Snoc(Apply(s, steps[0], max), steps[1..], step, max, owner, k);
    }
  }

  // Some run from the empty registry, with no more than k creations of this owner pending, ends here.
  ghost predicate Reached(s: State, max: int, owner: OwnerId, k: nat) {
    exists steps :: Run(EMPTY, steps, max) && PendingAtMost(EMPTY, steps, max, owner, k) && After(EMPTY, steps, max) == s
  }

  lemma StepReaches(s: State, step: Step, max: int, owner: OwnerId, k: nat)
    requires Reached(s, max, owner, k) && Enabled(s, step, max) && Apply(s, step, max).pending[owner] <= k
    ensures Reached(Apply(s, step, max), max, owner, k)
  {
    hide Apply, Enabled;
    var steps :| Run(EMPTY, steps, max) && PendingAtMost(EMPTY, steps, max, owner, k) && After(EMPTY, steps, max) == s;
    Snoc(EMPTY, steps, step, max, owner, k);
  }

  // The n-th name and secret, told apart by their length.
  function Name(n: nat): string {
    seq(n, _ => 'x')
  }

  // n accounts of this owner, and p creations pending.
  ghost predicate Holding(s: State, owner: OwnerId, n: nat, p: nat) {
    && (forall c :: c in s.accounts ==> |c| < n) && (forall c :: c in s.generated ==> |c| < n)
    && |Owned(s.accounts, owner)| == n && s.pending[owner] == p
  }

  lemma OnePasses(s: State, max: int, owner: OwnerId, k: nat, n: nat, p: nat) returns (s': State)
    requires Reached(s, max, owner, k) && Holding(s, owner, n, p) && n < max && p < k
    ensures Reached(s', max, owner, k) && Holding(s', owner, n, p + 1)
  {
    var step := Step(0, PassCap(owner));
    s' := Apply(s, step, max);
    hide Owned;
    StepReaches(s, step, max, owner, k);
  }

  lemma OneInserts(s: State, max: int, owner: OwnerId, k: nat, n: nat, p: nat) returns (s': State)
    requires Reached(s, max, owner, k) && Holding(s, owner, n, p) && 0 < p <= k
    ensures Reached(s', max, owner, k) && Holding(s', owner, n + 1, p - 1)
  {
    var step := Step(0, Insert(owner, Name(n), Name(n), [], None));
    assert |Name(n)| == n;
    s' := Apply(s, step, max);
    OwnedAfterInsert(s.accounts, Name(n), Opened(owner, Name(n), [], None), owner);
    assert Name(n) !in Owned(s.accounts, owner);
    hide Owned, Name;
    StepReaches(s, step, max, owner, k);
  }

  lemma {:induction false} ManyCreate(max: int, owner: OwnerId, k: nat, n: nat, p: nat) returns (s: State)
    requires k >= 1 && p <= k && n <= max - 1
    ensures Reached(s, max, owner, k) && Holding(s, owner, n, p)
    decreases n, p
  {
    if p > 0 {
      s := ManyCreate(max, owner, k, n, p - 1);
      s := OnePasses(s, max, owner, k, n, p - 1);
    } else if n > 0 {
      s := ManyCreate(max, owner, k, n - 1, 1);
      s := OneInserts(s, max, owner, k, n - 1, 1);
    } else {
      s := EMPTY;
      assert Owned(EMPTY.accounts, owner) == {};
      assert Run(EMPTY, [], max) && PendingAtMost(EMPTY, [], max, owner, k) && After(EMPTY, [], max) == EMPTY;
    }
  }

  lemma {:induction false} AllInsert(s: State, max: int, owner: OwnerId, k: nat, n: nat, p: nat) returns (s': State)
    requires Reached(s, max, owner, k) && Holding(s, owner, n, p) && p <= k
    ensures Reached(s', max, owner, k) && Holding(s', owner, n + p, 0)
    decreases p
  {
    s' := s;
    if p > 0 {
      s' := OneInserts(s, max, owner, k, n, p);
      s' := AllInsert(s', max, owner, k, n + 1, p - 1);
    }
  }

  /** The bound on accounts is met for every cap and every k: k creations that all count the owner's
      accounts before any inserts leave max - 1 + k of them. */
  lemma AccountBoundIsMet(max: nat, owner: OwnerId, k: nat)
    requires max >= 1 && k >= 1
    ensures exists steps :: && Run(EMPTY, steps, max) && PendingAtMost(EMPTY, steps, max, owner, k)
                            && |Owned(After(EMPTY, steps, max).accounts, owner)| == max - 1 + k
  {
    var s := ManyCreate(max, owner, k, max - 1, k);
    s := AllInsert(s, max, owner, k, max - 1, k);
    var steps :| Run(EMPTY, steps, max) && PendingAtMost(EMPTY, steps, max, owner, k) && After(EMPTY, steps, max) == s;
  }

  /** A token request that has read its account before a deactivation is answered after it: whatever
      state such a request is in flight in, revoking the account does not stop it. */
  lemma InFlightTokenOutlivesRevocation(s: State, at: Time, clientId: string, secret: string, max: int)
    requires clientId in s.accounts && (clientId, secret) in s.issuing
    ensures var seen := s.accounts[clientId];
            var steps := [Step(at, ReadAccount(clientId)), Step(at, Revoke(clientId, seen)),
                          Step(at, IssueToken(clientId, secret))];
            && Run(s, steps, max) && clientId in After(s, steps, max).accounts
            && After(s, steps, max).accounts[clientId] == Revoked(seen, at)
            && Count(steps, IssueToken(clientId, secret)) == 1
  {
    var seen := s.accounts[clientId];
    var read, revoke, issue := Step(at, ReadAccount(clientId)), Step(at, Revoke(clientId, seen)), Step(at, IssueToken(clientId, secret));
    var s1 := Apply(s, read, max);
    var s2 := Apply(s1, revoke, max);
    NothingInBetween(seen, Patch(None, None, None), at);
    var s3 := Apply(s2, issue, max);
    assert s3.accounts[clientId] == Revoked(seen, at);
    var steps := [read, revoke, issue];
    hide Apply, RevokedSince;
    assert steps[1..] == [revoke, issue] && steps[1..][1..] == [issue] && [issue][1..] == [];
    assert Run(s3, [], max) && After(s3, [], max) == s3;
    assert Run(s2, [issue], max) && After(s2, [issue], max) == s3;
    assert Run(s1, [revoke, issue], max) && After(s1, [revoke, issue], max) == s3;
    assert Count([issue], issue.event) == 1 && Count([revoke, issue], issue.event) == 1;
  }
}

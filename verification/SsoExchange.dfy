/** One single-sign-on exchange followed to its end (sso_token_exchange in main.py): from the state
    row through the account, its roles and the signing key to the stored refresh token. */
module SsoExchange {
  import opened Common
  import Flow = SsoFlow
  import Histories = SsoHistories
  import Prov = Provisioning
  import Maps = ClaimMapping
  import Sessions = RefreshSessions
  import Signing = SigningKeys

  type UserId = int
  type ProviderId = int

  // A claim as a text column takes it: its default when absent, None when null or not one value.
  function TextClaim(claims: Maps.Claims, key: string, default: string): Option<string> {
    if key !in claims then Some(default)
    else match claims[key]
         case Scalar(text) => Some(text)
         case _ => None
  }

  /** What the verified claims and the clock bring to an exchange. The kid and the refresh token are
      the ones it would generate. */
  datatype Login = Login(provider: ProviderId, externalId: string, claims: Maps.Claims, search: Maps.Search,
                         newKid: Signing.Kid, refresh: string, now: Time)
  {
    function Identity(): Prov.Identity {
      Prov.Identity(provider, externalId)
    }

    function Email(): Option<string> {
      TextClaim(claims, "email", "")
    }

    function Name(): Option<string> {
      TextClaim(claims, "name", "SSO User")
    }
  }

  /** The tables an exchange reads and writes once its state row is gone. */
  datatype World = World(
    directory: Prov.Directory, userRoles: Maps.UserRoles, mappings: map<ProviderId, seq<Maps.Mapping>>,
    keys: Signing.Keys, sessions: Sessions.Table)
  {
    function MappingsOf(provider: ProviderId): seq<Maps.Mapping> {
      if provider in mappings then mappings[provider] else []
    }
  }

  // Each step after the subject check, on the tables as it finds them.
  predicate Provisions(d: Prov.Directory, l: Login) {
    !Prov.Refused(d, l.Identity(), l.Email(), l.Name())
  }

  function UserOf(d: Prov.Directory, l: Login): UserId {
    Prov.Resolved(d, l.Identity(), l.Email())
  }

  predicate MapsRoles(rules: seq<Maps.Mapping>, rows: Maps.UserRoles, user: UserId, l: Login) {
    forall m :: m in rules ==> !Maps.Raises(m, l.claims, l.search, rows, user)
  }

  predicate CanSign(keys: Signing.Keys, l: Login) {
    Signing.ActiveKids(keys) != {} || l.newKid !in keys
  }

  /** All of them go through, with anything happening in between: the directory is the one that
      provisioning finds, rules and rows those that mapping finds, and so on. */
  predicate GoesThrough(d: Prov.Directory, rules: seq<Maps.Mapping>, rows: Maps.UserRoles, keys: Signing.Keys,
                        sessions: Sessions.Table, l: Login) {
    Provisions(d, l) && MapsRoles(rules, rows, UserOf(d, l), l) && CanSign(keys, l) && Digest(l.refresh) !in sessions
  }

  // All of them go through, with nothing in between.
  predicate Completes(w: World, l: Login) {
    GoesThrough(w.directory, w.MappingsOf(l.provider), w.userRoles, w.keys, w.sessions, l)
  }

  // The tables afterwards, with nothing in between: whatever was committed before a step raised stays.
  function Through(w: World, l: Login, lifetime: Time): World {
    var user := UserOf(w.directory, l);
    var rules := w.MappingsOf(l.provider);
    var w1 := w.(directory := Prov.Provisioned(w.directory, l.Identity(), l.Email(), l.Name(), l.now));
    if !Provisions(w.directory, l) || !MapsRoles(rules, w.userRoles, user, l) then w1
    else
      var w2 := w1.(userRoles := Maps.RowsAfter(rules, l.claims, l.search, w.userRoles, user));
      if !CanSign(w.keys, l) then w2
      else
        var w3 := w2.(keys := if Signing.ActiveKids(w.keys) != {} then w.keys
                              else Signing.Created(w.keys, l.newKid, l.now));
        if Digest(l.refresh) in w.sessions then w3
        else w3.(sessions := w.sessions[Digest(l.refresh) := Sessions.Row(user, l.now, l.now + lifetime, false)])
  }

  // ---------------------------------------------------------------- the service

  class SsoService {
    const states: Flow.SsoStates
    const directory: Prov.UserDirectory
    const roles: Maps.RoleAssignments
    const keyTable: Signing.KeyTable
    const sessions: Sessions.SessionStore

    constructor (s: Flow.SsoStates, d: Prov.UserDirectory, r: Maps.RoleAssignments, k: Signing.KeyTable,
                 t: Sessions.SessionStore)
      ensures states == s && directory == d && roles == r && keyTable == k && sessions == t
    {
      states, directory, roles, keyTable, sessions := s, d, r, k, t;
    }

    ghost function Snapshot(mappings: map<ProviderId, seq<Maps.Mapping>>): World
      reads directory, roles, keyTable, sessions
    {
      World(directory.Snapshot(), roles.userRoles, mappings, keyTable.keys, sessions.tokens)
    }

    method IssueTokens(user: UserId, l: Login, selected: seq<Signing.Kid>) returns (ok: bool)
      requires Lists(selected, Signing.ActiveKids(keyTable.keys)) && Signing.NewestFirst(selected, keyTable.keys)
      modifies keyTable, sessions`tokens
      ensures var signed := Signing.ActiveKids(old(keyTable.keys)) != {} || l.newKid !in old(keyTable.keys);
              && (ok <==> signed && Digest(l.refresh) !in old(sessions.tokens))
              && keyTable.keys == (if Signing.ActiveKids(old(keyTable.keys)) != {} || !signed then old(keyTable.keys)
                                   else Signing.Created(old(keyTable.keys), l.newKid, l.now))
              && sessions.tokens == if !ok then old(sessions.tokens)
                                    else old(sessions.tokens)[Digest(l.refresh) :=
                                           Sessions.Row(user, l.now, l.now + sessions.refreshLifetime, false)]
    {
      var key := keyTable.GetActiveSigningKey(selected, l.newKid, l.now);
      if key.Err? {
        return false;
      }
      var stored := sessions.StoreRefreshToken(user, l.refresh, l.now);
      return stored.Ok?;
    }

    method ProvisionAccount(l: Login) returns (user: Option<UserId>)
      modifies directory
      ensures user == if Provisions(old(directory.Snapshot()), l) then Some(UserOf(old(directory.Snapshot()), l)) else None
      ensures directory.Snapshot() == Prov.Provisioned(old(directory.Snapshot()), l.Identity(), l.Email(), l.Name(), l.now)
    {
      var created_;
      user, created_ := directory.JitProvisionUser(l.Identity(), l.Email(), l.Name(), l.now);
    }

    // What follows the subject check; `selected` is the answer of the query for active keys.
    method CompleteSignIn(l: Login, mappings: map<ProviderId, seq<Maps.Mapping>>, selected: seq<Signing.Kid>)
      returns (user: Option<UserId>)
      requires Lists(selected, Signing.ActiveKids(keyTable.keys)) && Signing.NewestFirst(selected, keyTable.keys)
      modifies directory, roles, keyTable, sessions
      ensures user == if Completes(old(Snapshot(mappings)), l) then Some(UserOf(old(directory.Snapshot()), l)) else None
      ensures Snapshot(mappings) == Through(old(Snapshot(mappings)), l, sessions.refreshLifetime)
    {
      hide Maps.NewRoles, Maps.Pairs, Maps.Raises, Maps.NamesOf, Maps.AsTheClaimsSay, Prov.Resolved, Prov.Refused, Prov.WithUser,
        Signing.NewestFirst, Signing.ActiveKids, Signing.Created;
      user := ProvisionAccount(l);
      if user.None? {
        return None;
      }
      var rules := if l.provider in mappings then mappings[l.provider] else [];
      var assigned_ := roles.ApplyClaimMappings(rules, user.value, l.claims, l.search);
      if assigned_.Err? {
        return None;
      }
      var ok := IssueTokens(user.value, l, selected);
      return if ok then user else None;
    }

    // `f` carries the rest of the request and the identity provider's verdict on the ID token.
    method SsoTokenExchange(provider: Option<ProviderId>, state: string, f: Flow.Request, l: Login,
                            mappings: map<ProviderId, seq<Maps.Mapping>>, selected: seq<Signing.Kid>)
      returns (outcome: Flow.Outcome, user: Option<UserId>)
      requires f.Finish? && (provider.Some? ==> l.provider == provider.value)
      requires f.idp.Verified? ==> l.externalId == f.idp.externalId
      requires Lists(selected, Signing.ActiveKids(keyTable.keys)) && Signing.NewestFirst(selected, keyTable.keys)
      modifies states, directory, roles, keyTable, sessions
      ensures var refusal := Flow.ReadRefusal(old(states.rows), provider, state);
              && states.rows == (if refusal.Some? then old(states.rows) else old(states.rows) - {state})
              && outcome == if refusal.Some? then refusal.value
                            else Flow.FinishOutcome(old(states.rows)[state], l.now,
                                                    f.(completes := Completes(old(Snapshot(mappings)), l)))
      ensures var before := old(Snapshot(mappings));
              var reached := outcome.TokensIssued? || outcome.ProvisioningRaised?;
              Snapshot(mappings) == if reached then Through(before, l, sessions.refreshLifetime) else before
      ensures user == if outcome.TokensIssued? then Some(UserOf(old(directory.Snapshot()), l)) else None
    {
      hide Completes, Through, UserOf;
      var refused := states.SsoTokenExchange(provider, state, f, l.now);
      if refused.Some? {
        return refused.value, None;
      }
      user := CompleteSignIn(l, mappings, selected);
      outcome := if user.Some? then Flow.TokensIssued else Flow.ProvisioningRaised;
    }
  }

  // ---------------------------------------------------------------- what an exchange needs and leaves

  // Providers deleted by the j-th event are gone from the directory; their ids are never used again.
  ghost predicate DeletionsShow(history: seq<Flow.Event>, j: int, d: Prov.Directory) {
    forall m :: 0 <= m < j <= |history| && history[m].request.DeleteProvider? ==> history[m].request.id !in d.providers
  }

  // The j-th event finishes an exchange for this login that read the i-th event's state, not minted anew
  // in between.
  ghost predicate Finishes(history: seq<Flow.Event>, i: int, j: int, l: Login) {
    && Flow.MintedAt(history, i) && Flow.FirstFinish(history, j)
    && (history[j].request.idp.Verified? ==> l.externalId == history[j].request.idp.externalId)
    && var r := history[j].request.read;
       && i < r < j && history[r].request.Read?
       && history[r].request.state == history[i].request.state
       && !Histories.MintedBetween(history, history[i].request.state, i + 1, r)
       && history[r].request.provider == Some(l.provider)
  }

  /** The whole exchange, exactly. Whatever the other tables hold when each step reaches them, the
      exchange issues tokens if and only if: the minted row is left alone until it is read, within
      ten minutes and through the same provider; redirect_uri, nonce and subject are right; the
      provider still exists when its identity is linked; the identity is linked, or its email claim
      is neither null nor a list (an absent one counts as empty) and is known or comes with a name
      that is neither; no mapping of the provider meets a malformed pattern, or matches a role of
      which the user already has two rows; there is an active signing key, or one can be created;
      and the refresh token is fresh. */
  lemma ExchangeSucceedsExactly(history: seq<Flow.Event>, i: int, j: int, d: Prov.Directory, rules: seq<Maps.Mapping>,
                                rows: Maps.UserRoles, keys: Signing.Keys, sessions: Sessions.Table, l: Login)
    requires Finishes(history, i, j, l)
    requires Prov.Sound(d) && DeletionsShow(history, j, d)
    requires history[j].request.completes == GoesThrough(d, rules, rows, keys, sessions, l)
    ensures var minted, read, x := history[i].request, history[history[j].request.read], history[j].request;
            var user := UserOf(d, l);
            Flow.IssuedAt(history, j) <==>
            && Histories.LeftAlone(history, i, x.read) && minted.state != "" && minted.nonce != ""
            && minted.provider == Some(l.provider) && read.at < history[i].at + 10 * 60 * SECOND
            && x.redirectUri == minted.redirectUri
            && x.idp.Verified? && x.idp.nonce == Some(minted.nonce) && x.idp.externalId != ""
            && l.provider in d.providers
            && (Prov.Identity(l.provider, l.externalId) in d.links
                || (&& ("email" in l.claims ==> l.claims["email"].Scalar?)
                    && ((if "email" in l.claims then l.claims["email"].text else "") in d.users
                        || ("name" in l.claims ==> l.claims["name"].Scalar?))))
            && (forall m :: m in rules ==>
                  && !Maps.Malformed(m, l.claims, l.search)
                  && (Maps.Matches(m, l.claims, l.search) ==> rows[(user, m.role)] <= 1))
            && (l.newKid in keys ==> exists k :: k in keys && keys[k].status.Active?)
            && Digest(l.refresh) !in sessions
  {
    Histories.HonestExchangeSucceedsExactly(history, i, j);
    Maps.RaisesExactly(l.claims, l.search, rows, UserOf(d, l));
    assert CanSign(keys, l) <==> (l.newKid in keys ==> exists k :: k in keys && keys[k].status.Active?) by {
      assert forall k :: k in Signing.ActiveKids(keys) <==> k in keys && keys[k].status.Active?;
    }
    hide Flow.IssuedAt, Flow.MintedAt, Flow.FirstFinish, Histories.LeftAlone, Histories.MintedBetween, Maps.Raises,
      Maps.Matches, Maps.Malformed;
  }

  /** A provider deleted before the exchange finishes stops it, even if the row had been read by then. */
  lemma DeletedProviderStopsExchange(history: seq<Flow.Event>, i: int, j: int, m: int, d: Prov.Directory,
                                     rules: seq<Maps.Mapping>, rows: Maps.UserRoles, keys: Signing.Keys,
                                     sessions: Sessions.Table, l: Login)
    requires Finishes(history, i, j, l) && Prov.Sound(d) && DeletionsShow(history, j, d)
    requires history[j].request.completes == GoesThrough(d, rules, rows, keys, sessions, l)
    requires 0 <= m < j && history[m].request == Flow.DeleteProvider(l.provider)
    ensures !Flow.IssuedAt(history, j)
  {
    ExchangeSucceedsExactly(history, i, j, d, rules, rows, keys, sessions, l);
    hide Flow.IssuedAt, Finishes, GoesThrough;
  }

  // One authorize call, the read of its row, and the finish, its provider deleted in between.
  function DeletedMidway(provider: ProviderId, uri: string, state: string, nonce: string, subject: string,
                         completes: bool): seq<Flow.Event> {
    [Flow.Event(0, Flow.Authorize(Some(provider), uri, None, state, nonce)),
     Flow.Event(0, Flow.Read(Some(provider), state)),
     Flow.Event(0, Flow.DeleteProvider(provider)),
     Flow.Event(0, Flow.Finish(1, uri, Flow.Verified(Some(nonce), subject), completes))]
  }

  /** For instance: the exchange finishes its protocol part but raises. What it leaves is the account it
      has made on the way, unlinked, and nothing else. */
  lemma ProviderDeletedMidway(w: World, l: Login, uri: string, state: string, nonce: string, lifetime: Time)
    requires state != "" && nonce != "" && l.externalId != ""
    requires Prov.Sound(w.directory) && l.provider !in w.directory.providers
    requires l.Email().Some? && l.Name().Some?
    ensures var history := DeletedMidway(l.provider, uri, state, nonce, l.externalId, Completes(w, l));
            Finishes(history, 0, 3, l) && Flow.OutcomeAt(history, 3) == Flow.ProvisioningRaised
    ensures var after := Through(w, l, lifetime);
            && after == w.(directory := after.directory)
            && l.Email().value in after.directory.users && after.directory.links == w.directory.links
            && (forall e :: e in after.directory.users ==>
                  e == l.Email().value || (e in w.directory.users && after.directory.users[e] == w.directory.users[e]))
  {
    var history := DeletedMidway(l.provider, uri, state, nonce, l.externalId, Completes(w, l));
    assert history[..0] == [] && history[..1] == [history[0]] && history[..1][..0] == [];
    Flow.LastEvent(history[..1]);
    assert Flow.MintedAt(history, 0) && Flow.MintedAt(history[..1], 0);
    assert Flow.RowsAfter(history[..1]) == map[state := Flow.MintedRow(history[0])];
    hide Flow.RowsAfter;
    assert Flow.FoundAt(history, 1);
    assert Flow.FirstFinish(history, 3) && Flow.FinishedAt(history, 3);
    assert !Completes(w, l);
  }

  // The account a sign-in ends up in, by the claims it brought: the linked one, else the one filed under its
  // email, made with its name, the default role and no password where there was none.
  ghost predicate SignedInto(before: Prov.Directory, l: Login, user: UserId, after: Prov.Directory) {
    var identity := Prov.Identity(l.provider, l.externalId);
    if identity in before.links then user == before.links[identity].user && after.users == before.users
    else
      && ("email" in l.claims ==> l.claims["email"].Scalar?)
      && var email := if "email" in l.claims then l.claims["email"].text else "";
         if email in before.users then user == before.users[email].id && after.users == before.users
         else && ("name" in l.claims ==> l.claims["name"].Scalar?)
              && var name := if "name" in l.claims then l.claims["name"].text else "SSO User";
                 after.users == before.users[email := Prov.User(user, name, "user", Prov.SsoOnly)]
  }

  lemma ProvisioningSignsInto(d: Prov.Directory, l: Login)
    requires Provisions(d, l)
    ensures var after := Prov.Provisioned(d, l.Identity(), l.Email(), l.Name(), l.now);
            && SignedInto(d, l, UserOf(d, l), after)
            && l.Identity() in after.links && after.links[l.Identity()].user == UserOf(d, l)
  {
  }

  /** What a successful exchange leaves: the identity is linked to the user, whose account is the one its
      claims lead to and no other account has changed; the user holds every role
      of a matched mapping and nobody gains or loses any other row, and one new session, good for
      the refresh lifetime, stands beside the old ones. */
  lemma SuccessLeaves(w: World, l: Login, lifetime: Time, p: (UserId, Maps.RoleId), later: Time)
    requires Completes(w, l)
    ensures var after, user := Through(w, l, lifetime), UserOf(w.directory, l);
            && SignedInto(w.directory, l, user, after.directory)
            && Prov.Identity(l.provider, l.externalId) in after.directory.links
            && after.directory.links[Prov.Identity(l.provider, l.externalId)].user == user
            && (after.userRoles[p] ==
                  if p.0 == user && w.userRoles[p] == 0
                     && exists m :: m in w.MappingsOf(l.provider) && m.role == p.1 && Maps.Matches(m, l.claims, l.search)
                  then 1 else w.userRoles[p])
            && (Sessions.Valid(after.sessions, Digest(l.refresh), later) <==> later < l.now + lifetime)
            && Sessions.Live(after.sessions, user) == Sessions.Live(w.sessions, user) + {Digest(l.refresh)}
            && (forall other :: other != user ==> Sessions.Live(after.sessions, other) == Sessions.Live(w.sessions, other))
  {
    Maps.RunGrantsExactlyTheMatched(w.MappingsOf(l.provider), l.claims, l.search, w.userRoles, UserOf(w.directory, l), p);
    ProvisioningSignsInto(w.directory, l);
    hide Maps.RowsAfter, Maps.Matches, Maps.Raises, Prov.Provisioned, Prov.Resolved, SignedInto;
  }

  /** One role held twice locks its user out of single sign-on: as long as the duplicate stands, every
      exchange whose claims match a mapping to that role raises, and issues nothing. */
  lemma DuplicateRoleBlocksSignIn(w: World, l: Login, lifetime: Time, m: Maps.Mapping)
    requires Provisions(w.directory, l) && m in w.MappingsOf(l.provider) && Maps.Matches(m, l.claims, l.search)
    requires w.userRoles[(UserOf(w.directory, l), m.role)] >= 2
    ensures !Completes(w, l)
    ensures var after := Through(w, l, lifetime);
            && after.userRoles == w.userRoles && after.sessions == w.sessions
            && l.Identity() in after.directory.links && UserOf(after.directory, l) == UserOf(w.directory, l)
            && !Completes(after, l)
  {
    Maps.RaisesExactly(l.claims, l.search, w.userRoles, UserOf(w.directory, l));
    hide Maps.Raises, Maps.Matches, Maps.Malformed;
  }
}

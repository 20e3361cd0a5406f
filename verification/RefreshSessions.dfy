/** Refresh tokens (auth.py and the register, login, refresh, logout and SCIM handlers of
    main.py): single use, session limit, logout.

    The refresh_tokens table is keyed by the digest of the token value. */
module RefreshSessions {
  import opened Common
  import opened AccessTokens
  import SigningKeys

  datatype Row = Row(user: UserId, createdAt: Time, expiresAt: Time, revoked: bool)

  type Table = map<Digest, Row>

  function Live(t: Table, user: UserId): set<Digest> {
    set h | h in t && t[h].user == user && !t[h].revoked
  }

  ghost predicate NewestFirstSessions(order: seq<Digest>, t: Table, user: UserId) {
    && Lists(order, Live(t, user))
    && (forall i :: 0 <= i < |order| ==> order[i] in t)
    && forall i, j :: 0 <= i < j < |order| ==> t[order[j]].createdAt <= t[order[i]].createdAt
  }

  predicate Valid(t: Table, h: Digest, now: Time) {
    h in t && !t[h].revoked && now < t[h].expiresAt
  }

  function Revoke(t: Table, hs: set<Digest>): Table {
    map h | h in t :: if h in hs then t[h].(revoked := true) else t[h]
  }

  // A slice xs[i:], whose negative start counts from the end.
  function SliceFrom<T>(xs: seq<T>, i: int): seq<T> {
    if i >= 0 then (if i <= |xs| then xs[i..] else [])
    else if |xs| + i >= 0 then xs[|xs| + i..] else xs
  }

  // The sessions enforcement revokes, given all of a user's sessions newest first.
  function Excess(order: seq<Digest>, max: int): seq<Digest> {
    if |order| >= max then SliceFrom(order, max - 1) else []
  }

  function Enforced(t: Table, order: seq<Digest>, max: int): Table {
    Revoke(t, set h | h in Excess(order, max))
  }

  // Of n sessions listed newest first, revoking order[n..] keeps exactly order[..n].
  lemma KeptPrefix(t: Table, user: UserId, order: seq<Digest>, n: nat)
    requires NewestFirstSessions(order, t, user) && n <= |order|
    ensures var t' := Revoke(t, set h | h in order[n..]);
            && Lists(order[..n], Live(t', user))
            && (forall other :: other != user ==> Live(t', other) == Live(t, other))
  {
    var t' := Revoke(t, set h | h in order[n..]);
    assert order == order[..n] + order[n..];
    forall h
      ensures h in order[..n] <==> h in Live(t', user)
    {
      assert h in order <==> h in Live(t, user);
      assert h in order <==> h in order[..n] || h in order[n..];
      assert h in order[..n] ==> h !in order[n..];
    }
    forall other | other != user
      ensures Live(t', other) == Live(t, other)
    {
      assert forall h :: h in order[n..] ==> h in order;
    }
  }

  /** Enforcement leaves fewer than max sessions, touches only this user's, and whatever it
      revokes is no newer than anything it keeps. */
  lemma EnforcementKeepsTheNewest(t: Table, user: UserId, order: seq<Digest>, max: int)
    requires NewestFirstSessions(order, t, user) && max >= 1
    ensures var t' := Enforced(t, order, max);
            && |Live(t', user)| == (if |order| < max then |order| else max - 1)
            && Live(t', user) <= Live(t, user)
            && (forall kept, gone :: kept in Live(t', user) && gone in Live(t, user) - Live(t', user) ==>
                  t[gone].createdAt <= t[kept].createdAt)
            && (forall other :: other != user ==> Live(t', other) == Live(t, other))
  {
    var t' := Enforced(t, order, max);
    var n := if |order| < max then |order| else max - 1;
    assert Excess(order, max) == order[n..];
    KeptPrefix(t, user, order, n);
    ListedCardinality(order[..n], Live(t', user));
    forall kept, gone | kept in Live(t', user) && gone in Live(t, user) - Live(t', user)
      ensures t[gone].createdAt <= t[kept].createdAt
    {
      assert kept in order[..n];
      var i :| 0 <= i < n && order[i] == kept;
      assert gone in order && gone !in order[..n];
      var j :| 0 <= j < |order| && order[j] == gone;
      assert forall m :: 0 <= m < n ==> order[m] in order[..n];
    }
  }

  // ---------------------------------------------------------------- the store

  datatype SessionError = InvalidRefreshToken | UserInactive | UniqueViolation

  /** The rows the session handlers share: users' active flags, refresh tokens, blacklist. */
  class SessionStore {
    var users: map<UserId, bool>
    var tokens: Table
    var blacklist: set<string>
    const maxConcurrentSessions: int
    const refreshLifetime: Time

    constructor (max: int, lifetime: Time)
      ensures users == map[] && tokens == map[] && blacklist == {}
      ensures maxConcurrentSessions == max && refreshLifetime == lifetime
    {
      users, tokens, blacklist := map[], map[], {};
      maxConcurrentSessions, refreshLifetime := max, lifetime;
    }

    method StoreRefreshToken(user: UserId, value: string, now: Time) returns (r: Result<(), SessionError>)
      modifies this`tokens
      ensures r == if Digest(value) in old(tokens) then Err(SessionError.UniqueViolation) else Ok(())
      ensures tokens == if r.Err? then old(tokens)
                        else old(tokens)[Digest(value) := Row(user, now, now + refreshLifetime, false)]
    {
      if Digest(value) in tokens {
        return Err(SessionError.UniqueViolation);
      }
      tokens := tokens[Digest(value) := Row(user, now, now + refreshLifetime, false)];
      return Ok(());
    }

    method ValidateRefreshToken(value: string, now: Time) returns (r: Option<Digest>)
      ensures r == if Valid(tokens, Digest(value), now) then Some(Digest(value)) else None
    {
      var h := Digest(value);
      return if h in tokens && !tokens[h].revoked && tokens[h].expiresAt > now then Some(h) else None;
    }

    // The loop both revocations share: flag each selected row.
    method FlagRevoked(selected: seq<Digest>)
      requires forall h :: h in selected ==> h in tokens
      modifies this`tokens
      ensures tokens == Revoke(old(tokens), set h | h in selected)
    {
      for i := 0 to |selected|
        invariant tokens == Revoke(old(tokens), set h | h in selected[..i])
      {
        assert selected[i] in tokens;
        tokens := tokens[selected[i] := tokens[selected[i]].(revoked := true)];
      }
      assert selected[..|selected|] == selected;
    }

    method RevokeUserTokens(user: UserId, selected: seq<Digest>)
      requires Lists(selected, Live(tokens, user))
      modifies this`tokens
      ensures tokens == Revoke(old(tokens), Live(old(tokens), user))
    {
      assert forall h :: h in selected ==> h in Live(tokens, user);
      FlagRevoked(selected);
      assert (set h | h in selected) == Live(old(tokens), user);
    }

    method EnforceSessionLimit(user: UserId, selected: seq<Digest>)
      requires NewestFirstSessions(selected, tokens, user)
      modifies this`tokens
      ensures tokens == Enforced(old(tokens), selected, maxConcurrentSessions)
    {
      if |selected| >= maxConcurrentSessions {
        var excess := SliceFrom(selected, maxConcurrentSessions - 1);
        assert forall h :: h in excess ==> h in selected && h in Live(tokens, user);
        FlagRevoked(excess);
      } else {
        assert Enforced(tokens, selected, maxConcurrentSessions) == tokens;
      }
    }

    method BlacklistToken(jti: string) returns (r: Result<(), SessionError>)
      modifies this`blacklist
      ensures r.Err? <==> jti in old(blacklist)
      ensures blacklist == old(blacklist) + {jti}
    {
      if jti in blacklist {
        assert blacklist == blacklist + {jti};
        return Err(SessionError.UniqueViolation);
      }
      blacklist := blacklist + {jti};
      return Ok(());
    }

    // The tail of register and login: enforce, then store.
    method OpenSession(user: UserId, selected: seq<Digest>, value: string, now: Time)
      returns (r: Result<(), SessionError>)
      requires NewestFirstSessions(selected, tokens, user)
      modifies this`tokens
      ensures r.Err? <==> Digest(value) in old(tokens)
      ensures r.Ok? ==> tokens == Enforced(old(tokens), selected, maxConcurrentSessions)
                                  [Digest(value) := Row(user, now, now + refreshLifetime, false)]
      ensures r.Err? ==> tokens == Enforced(old(tokens), selected, maxConcurrentSessions)
    {
      EnforceSessionLimit(user, selected);
      r := StoreRefreshToken(user, value, now);
    }

    // The presented token is spent even when its user turns out to be inactive.
    method Refresh(value: string, replacement: string, now: Time) returns (r: Result<UserId, SessionError>)
      modifies this`tokens
      ensures !Valid(old(tokens), Digest(value), now) ==>
                r == Err(InvalidRefreshToken) && tokens == old(tokens)
      ensures Valid(old(tokens), Digest(value), now) ==>
                var user := old(tokens)[Digest(value)].user;
                var spent := Revoke(old(tokens), {Digest(value)});
                && (r == Err(UserInactive) <==> user !in users || !users[user])
                && (r.Ok? ==> r.value == user)
                && var row := Row(user, now, now + refreshLifetime, false);
                   tokens == if r.Ok? then spent[Digest(replacement) := row] else spent
    {
      var stored := ValidateRefreshToken(value, now);
      if stored.None? {
        return Err(InvalidRefreshToken);
      }
      var user := tokens[stored.value].user;
      tokens := tokens[stored.value := tokens[stored.value].(revoked := true)];
      assert tokens == Revoke(old(tokens), {Digest(value)});
      if user !in users || !users[user] {
        return Err(UserInactive);
      }
      var saved := StoreRefreshToken(user, replacement, now);
      if saved.Err? {
        return Err(saved.error);
      }
      return Ok(user);
    }

    // get_current_user has already admitted the caller, so its jti is not blacklisted yet.
    method Logout(user: UserId, jti: string, selected: seq<Digest>)
      requires Lists(selected, Live(tokens, user)) && jti !in blacklist
      modifies this`tokens, this`blacklist
      ensures tokens == Revoke(old(tokens), Live(old(tokens), user))
      ensures blacklist == old(blacklist) + (if jti == "" then {} else {jti})
    {
      if jti != "" {
        var _ := BlacklistToken(jti);
      }
      RevokeUserTokens(user, selected);
    }

    method ScimDelete(user: UserId, selected: seq<Digest>) returns (found: bool)
      requires Lists(selected, Live(tokens, user))
      modifies this`users, this`tokens
      ensures found == (user in old(users))
      ensures found ==> users == old(users)[user := false]
                        && tokens == Revoke(old(tokens), Live(old(tokens), user))
      ensures !found ==> users == old(users) && tokens == old(tokens)
    {
      found := user in users;
      if found {
        users := users[user := false];
        RevokeUserTokens(user, selected);
      }
    }
  }

  // ---------------------------------------------------------------- interleaved requests

  /** A register or login in flight: `picked` are the sessions it has selected for revocation, until
      it has flagged them. `surplus` is explained at State. */
  datatype Request = Request(user: UserId, picked: Option<set<Digest>>, surplus: nat)

  // The latest-selecting enforcement of a user that has been flagged, and the surplus since.
  datatype Enforcement = Enforcement(id: int, surplus: nat)

  /** Requests cut at every read a later write rests on, and at every commit. A register or login
      selects the user's sessions, flags the excess, and stores; a refresh validates, then rotates,
      then stores; a logout or SCIM deletion selects first and flags what it selected later
      (RevokeSelected); a single-sign-on exchange stores without ever enforcing. A request may also
      end at any point. */
  datatype Event =
    | Select(user: UserId, order: seq<Digest>)
    | Flag(id: nat)
    | StoreLogin(id: nat, h: Digest)
    | DropLogin(id: nat)
    | Validate(h: Digest)
    | DropValidated(h: Digest)
    | Rotate(h: Digest)
    | StoreRefresh(user: UserId, h: Digest)
    | DropRefresh(user: UserId)
    | RevokeSelected(hs: set<Digest>)
    | Blacklist(jti: string)
    | SsoStore(user: UserId, h: Digest)

  datatype Step = Step(at: Time, event: Event)

  /** Logins are numbered in the order of their selections. `validated` holds the refreshes between
      their validation and their revocation, `rotated` those that have revoked and not yet stored.
      Surplus counts, from a selection on, what enforcement does not see: single-sign-on tokens;
      stale rotations, of a token some other request had already revoked; and escapes, rotations
      of a token that enforcement has picked and not yet flagged. */
  datatype State = State(
    tokens: Table, blacklist: set<string>, logins: map<nat, Request>, next: nat,
    validated: multiset<Digest>, rotated: multiset<UserId>, last: map<UserId, Enforcement>)

  const EMPTY := State(map[], {}, map[], 0, multiset{}, multiset{}, map[])

  datatype Settings = Settings(max: int, refreshLifetime: Time)

  function LastOf(last: map<UserId, Enforcement>, user: UserId): Enforcement {
    if user in last then last[user] else Enforcement(-1, 0)
  }

  ghost predicate Enabled(s: State, step: Step) {
    match step.event
    case Select(user, order) => NewestFirstSessions(order, s.tokens, user)
    case Flag(id) => id in s.logins && s.logins[id].picked.Some?
    case StoreLogin(id, h) => id in s.logins && s.logins[id].picked.None? && h !in s.tokens
    case DropLogin(id) => id in s.logins
    case Validate(h) => Valid(s.tokens, h, step.at)
    case DropValidated(h) => h in s.validated
    case Rotate(h) => h in s.validated && h in s.tokens
    case StoreRefresh(user, h) => user in s.rotated && h !in s.tokens
    case DropRefresh(user) => user in s.rotated
    case SsoStore(_, h) => h !in s.tokens
    case _ => true
  }

  function Issued(user: UserId, at: Time, g: Settings): Row {
    Row(user, at, at + g.refreshLifetime, false)
  }

  function Counted(r: Request): Request {
    r.(surplus := r.surplus + 1)
  }

  // One more token that no enforcement of this user under way, or flagged, has seen.
  function CountForAll(s: State, user: UserId): State {
    s.(logins := map id | id in s.logins ::
                   if s.logins[id].user == user then Counted(s.logins[id]) else s.logins[id],
       last := s.last[user := LastOf(s.last, user).(surplus := LastOf(s.last, user).surplus + 1)])
  }

  predicate Picks(r: Request, h: Digest) {
    r.picked.Some? && h in r.picked.value
  }

  function CountForPickers(s: State, h: Digest): State {
    s.(logins := map id | id in s.logins ::
                   if Picks(s.logins[id], h) then Counted(s.logins[id]) else s.logins[id])
  }

  function Flagged(s: State, id: nat): State
    requires id in s.logins && s.logins[id].picked.Some?
  {
    var r := s.logins[id];
    s.(tokens := Revoke(s.tokens, r.picked.value), logins := s.logins[id := r.(picked := None)],
       last := if LastOf(s.last, r.user).id < id then s.last[r.user := Enforcement(id, r.surplus)] else s.last)
  }

  function RotatedAway(s: State, h: Digest): State
    requires h in s.tokens
  {
    var counted := if s.tokens[h].revoked then CountForAll(s, s.tokens[h].user) else CountForPickers(s, h);
    counted.(tokens := Revoke(s.tokens, {h}), validated := s.validated - multiset{h},
             rotated := s.rotated + multiset{s.tokens[h].user})
  }

  ghost function Apply(s: State, step: Step, g: Settings): State
    requires Enabled(s, step)
  {
    match step.event
    case Select(user, order) =>
      s.(logins := s.logins[s.next := Request(user, Some(set h | h in Excess(order, g.max)), 0)], next := s.next + 1)
    case Flag(id) => Flagged(s, id)
    case StoreLogin(id, h) =>
      s.(tokens := s.tokens[h := Issued(s.logins[id].user, step.at, g)], logins := s.logins - {id})
    case DropLogin(id) => s.(logins := s.logins - {id})
    case Validate(h) => s.(validated := s.validated + multiset{h})
    case DropValidated(h) => s.(validated := s.validated - multiset{h})
    case Rotate(h) => RotatedAway(s, h)
    case StoreRefresh(user, h) =>
      s.(tokens := s.tokens[h := Issued(user, step.at, g)], rotated := s.rotated - multiset{user})
    case DropRefresh(user) => s.(rotated := s.rotated - multiset{user})
    case RevokeSelected(hs) => s.(tokens := Revoke(s.tokens, hs))
    case Blacklist(jti) => s.(blacklist := s.blacklist + (if jti == "" then {} else {jti}))
    case SsoStore(user, h) => CountForAll(s, user).(tokens := s.tokens[h := Issued(user, step.at, g)])
  }

  ghost predicate Run(s: State, steps: seq<Step>, g: Settings)
    decreases |steps|
  {
    steps == [] || (Enabled(s, steps[0]) && Run(Apply(s, steps[0], g), steps[1..], g))
  }

  ghost function After(s: State, steps: seq<Step>, g: Settings): State
    requires Run(s, steps, g)
    decreases |steps|
  {
    if steps == [] then s else After(Apply(s, steps[0], g), steps[1..], g)
  }

  // The step stores a new token of this user under this digest.
  predicate Stores(s: State, step: Step, user: UserId, h: Digest) {
    match step.event
    case Select(_, _) => false
    case Flag(_) => false
    case StoreLogin(id, stored) => stored == h && id in s.logins && s.logins[id].user == user
    case DropLogin(_) => false
    case Validate(_) => false
    case DropValidated(_) => false
    case Rotate(_) => false
    case StoreRefresh(owner, stored) => stored == h && owner == user
    case DropRefresh(_) => false
    case RevokeSelected(_) => false
    case Blacklist(_) => false
    case SsoStore(owner, stored) => stored == h && owner == user
  }

  /** A token stored by any step stands beside all the others, is its user's, and is valid, unless revoked
      later, for exactly one refresh lifetime. */
  lemma StoredTokensLast(s: State, step: Step, g: Settings, user: UserId, h: Digest, later: Time)
    requires Enabled(s, step) && Stores(s, step, user, h)
    ensures var tokens := Apply(s, step, g).tokens;
            && h !in s.tokens && tokens == s.tokens[h := Row(user, step.at, step.at + g.refreshLifetime, false)]
            && h in Live(tokens, user)
            && (Valid(tokens, h, later) <==> later < step.at + g.refreshLifetime)
  {
    hide Revoke, Flagged, RotatedAway;
  }

  function LoginsOf(logins: map<nat, Request>, user: UserId): set<nat> {
    set id | id in logins && logins[id].user == user
  }

  // The user's requests that have selected, or rotated a token, and not yet stored.
  function Owed(s: State, user: UserId): nat {
    |LoginsOf(s.logins, user)| + s.rotated[user]
  }

  ghost predicate OwedAtMost(s: State, steps: seq<Step>, g: Settings, user: UserId, k: nat)
    requires Run(s, steps, g)
    decreases |steps|
  {
    Owed(s, user) <= k && (steps == [] || OwedAtMost(Apply(s, steps[0], g), steps[1..], g, user, k))
  }

  // ---------------------------------------------------------------- the session limit

  /** What the limit has to do with: one user's live sessions, logins in flight, refreshes that owe a
      token, and last enforcement. */
  datatype View = View(live: set<Digest>, ids: set<nat>, logins: map<nat, Request>, owing: nat, last: Enforcement, next: nat)

  function ViewOf(s: State, user: UserId): View {
    View(Live(s.tokens, user), LoginsOf(s.logins, user), s.logins, s.rotated[user], LastOf(s.last, user), s.next)
  }

  // A login's own promise: once it has flagged what it picked, the limit holds, given its elders.
  predicate Promised(v: View, id: nat, bound: int) {
    && id in v.logins && v.logins[id].picked.Some?
    && |v.live - v.logins[id].picked.value| + |Upto(v.ids, id)| + v.owing <= bound + v.logins[id].surplus
  }

  ghost predicate Bounded(v: View, bound: int) {
    && v.last.id < v.next
    && |v.live| + |Upto(v.ids, v.last.id)| + v.owing <= bound + v.last.surplus
    && forall id :: id in v.ids ==> id < v.next && (v.last.id < id ==> Promised(v, id, bound))
  }

  // Nothing new is owed or live; surplus may have grown.
  lemma LessStaysBounded(v: View, v': View, bound: int)
    requires Bounded(v, bound)
    requires v'.live <= v.live && v'.ids <= v.ids && v'.owing <= v.owing && v'.next == v.next && v'.last == v.last
    requires forall id :: id in v'.ids && v.last.id < id ==> id in v.logins && id in v'.logins && v'.logins[id] == v.logins[id]
    ensures Bounded(v', bound)
  {
    SubsetCardinality(v'.live, v.live);
    UptoShrinks(v.ids, v'.ids, v.last.id);
    hide Upto;
    forall id | id in v'.ids && v.last.id < id
      ensures Promised(v', id, bound)
    {
      assert Promised(v, id, bound);
      var picked := v.logins[id].picked.value;
      SubsetCardinality(v'.live - picked, v.live - picked);
      UptoShrinks(v.ids, v'.ids, id);
    }
  }

  lemma SelectStaysBounded(v: View, v': View, r: Request, bound: int, k: nat)
    requires Bounded(v, bound) && r.picked.Some? && r.surplus == 0
    requires v' == v.(ids := v.ids + {v.next}, logins := v.logins[v.next := r], next := v.next + 1)
    requires |v'.ids| + v'.owing <= k && |v.live - r.picked.value| <= bound - k
    ensures Bounded(v', bound)
  {
    assert Upto(v'.ids, v.next) == v'.ids;
    assert forall n :: n < v.next ==> Upto(v'.ids, n) == Upto(v.ids, n);
    hide Upto;
    forall id | id in v'.ids && v.last.id < id
      ensures Promised(v', id, bound)
    {
      assert id != v.next ==> Promised(v, id, bound);
    }
  }

  lemma FlagStaysBounded(v: View, v': View, id: nat, bound: int)
    requires Bounded(v, bound) && id in v.ids && id in v.logins && v.logins[id].picked.Some? && v.last.id < id
    requires v'.live == v.live - v.logins[id].picked.value && v'.ids == v.ids && v'.owing == v.owing
    requires v'.logins == v.logins[id := v.logins[id].(picked := None)]
    requires v'.last == Enforcement(id, v.logins[id].surplus) && v'.next == v.next
    ensures Bounded(v', bound)
  {
    hide Upto;
    assert Promised(v, id, bound);
    forall other | other in v'.ids && id < other
      ensures Promised(v', other, bound)
    {
      assert Promised(v, other, bound);
      SubsetCardinality(v'.live - v.logins[other].picked.value, v.live - v.logins[other].picked.value);
    }
  }

  lemma StoreStaysBounded(v: View, v': View, id: nat, h: Digest, bound: int)
    requires Bounded(v, bound) && id in v.ids && id <= v.last.id
    requires v'.live <= v.live + {h} && v'.ids == v.ids - {id} && v'.owing == v.owing
    requires v'.logins == v.logins - {id} && v'.last == v.last && v'.next == v.next
    ensures Bounded(v', bound)
  {
    forall n | v.last.id <= n
      ensures |Upto(v'.ids, n)| == |Upto(v.ids, n)| - 1
    {
      assert Upto(v'.ids, n) == Upto(v.ids, n) - {id};
    }
    hide Upto;
    SubsetCardinality(v'.live, v.live + {h});
    forall other | other in v'.ids && v.last.id < other
      ensures Promised(v', other, bound)
    {
      assert Promised(v, other, bound);
      SubsetCardinality(v'.live - v.logins[other].picked.value, (v.live - v.logins[other].picked.value) + {h});
    }
  }

  lemma RefreshStoreStaysBounded(v: View, v': View, h: Digest, bound: int)
    requires Bounded(v, bound) && v.owing > 0
    requires v'.live <= v.live + {h} && v' == v.(live := v'.live, owing := v.owing - 1)
    ensures Bounded(v', bound)
  {
    hide Upto;
    SubsetCardinality(v'.live, v.live + {h});
    forall id | id in v'.ids && v.last.id < id
      ensures Promised(v', id, bound)
    {
      assert Promised(v, id, bound);
      SubsetCardinality(v'.live - v.logins[id].picked.value, (v.live - v.logins[id].picked.value) + {h});
    }
  }

  // A rotation of a live token: it trades a session for a debt, except to those who had picked it.
  lemma RotationStaysBounded(v: View, v': View, h: Digest, bound: int)
    requires Bounded(v, bound) && h in v.live
    requires v'.live == v.live - {h} && v'.ids == v.ids && v'.owing == v.owing + 1
    requires v'.last == v.last && v'.next == v.next
    requires forall id :: id in v.ids && v.last.id < id ==>
               && id in v.logins && id in v'.logins
               && v'.logins[id] == if Picks(v.logins[id], h) then Counted(v.logins[id]) else v.logins[id]
    ensures Bounded(v', bound)
  {
    hide Upto;
    forall id | id in v'.ids && v.last.id < id
      ensures Promised(v', id, bound)
    {
      assert Promised(v, id, bound);
      var picked := v.logins[id].picked.value;
      if Picks(v.logins[id], h) {
        assert v'.live - picked == v.live - picked;
      } else {
        assert v'.live - picked == (v.live - picked) - {h};
      }
    }
  }

  // One token or debt more, counted as surplus by everyone.
  lemma SurplusStaysBounded(v: View, v': View, h: Digest, bound: int)
    requires Bounded(v, bound)
    requires (v'.live == v.live && v'.owing == v.owing + 1) || (v'.live <= v.live + {h} && v'.owing == v.owing)
    requires v'.ids == v.ids && v'.next == v.next && v'.last == v.last.(surplus := v.last.surplus + 1)
    requires forall id :: id in v.ids && v.last.id < id ==>
               id in v.logins && id in v'.logins && v'.logins[id] == Counted(v.logins[id])
    ensures Bounded(v', bound)
  {
    hide Upto;
    SubsetCardinality(v'.live, v.live + {h});
    forall id | id in v'.ids && v.last.id < id
      ensures Promised(v', id, bound)
    {
      assert Promised(v, id, bound);
      SubsetCardinality(v'.live - v.logins[id].picked.value, (v.live - v.logins[id].picked.value) + {h});
    }
  }

  lemma LiveAfterRevoke(t: Table, hs: set<Digest>, user: UserId)
    ensures Live(Revoke(t, hs), user) == Live(t, user) - hs
  {
  }

  lemma LiveAfterStore(t: Table, h: Digest, row: Row, user: UserId)
    requires h !in t && !row.revoked
    ensures Live(t[h := row], user) == Live(t, user) + (if row.user == user then {h} else {})
  {
  }

  // What a selection leaves out of its pick is below the limit.
  lemma UnpickedAreFew(t: Table, user: UserId, order: seq<Digest>, max: int)
    requires NewestFirstSessions(order, t, user) && max >= 1
    ensures |Live(t, user) - (set h | h in Excess(order, max))| <= max - 1
  {
    EnforcementKeepsTheNewest(t, user, order, max);
    LiveAfterRevoke(t, (set h | h in Excess(order, max)), user);
  }

  ghost predicate WithinLimit(s: State, g: Settings, user: UserId, k: nat) {
    Bounded(ViewOf(s, user), g.max - 1 + k)
  }

  lemma LoginsAfterAdd(logins: map<nat, Request>, id: nat, r: Request, user: UserId)
    requires id !in LoginsOf(logins, user)
    ensures LoginsOf(logins[id := r], user) == LoginsOf(logins, user) + (if r.user == user then {id} else {})
  {
  }

  lemma LoginsAfterRemove(logins: map<nat, Request>, id: nat, user: UserId)
    ensures LoginsOf(logins - {id}, user) == LoginsOf(logins, user) - {id}
  {
  }

  lemma NextIsNew(v: View, bound: int)
    requires Bounded(v, bound)
    ensures v.next !in v.ids
  {
  }

  lemma SelectKeepsLimit(s: State, s': State, r: Request, g: Settings, user: UserId, k: nat)
    requires WithinLimit(s, g, user, k) && r.picked.Some? && r.surplus == 0
    requires s' == s.(logins := s.logins[s.next := r], next := s.next + 1)
    requires r.user == user ==> Owed(s', user) <= k && |Live(s.tokens, user) - r.picked.value| <= g.max - 1
    ensures WithinLimit(s', g, user, k)
  {
    hide Bounded, Live, LoginsOf, LastOf;
    var v, v' := ViewOf(s, user), ViewOf(s', user);
    NextIsNew(v, g.max - 1 + k);
    LoginsAfterAdd(s.logins, s.next, r, user);
    if r.user == user {
      SelectStaysBounded(v, v', r, g.max - 1 + k, k);
    } else {
      OtherSelectStaysBounded(v, v', r, g.max - 1 + k);
    }
  }

  lemma OtherSelectStaysBounded(v: View, v': View, r: Request, bound: int)
    requires Bounded(v, bound) && v' == v.(logins := v.logins[v.next := r], next := v.next + 1)
    ensures Bounded(v', bound)
  {
    hide Upto;
    forall id | id in v'.ids && v.last.id < id
      ensures Promised(v', id, bound)
    {
      assert Promised(v, id, bound);
    }
  }

  lemma FlagKeepsLimit(s: State, step: Step, g: Settings, user: UserId, k: nat)
    requires step.event.Flag? && Enabled(s, step) && WithinLimit(s, g, user, k)
    ensures WithinLimit(Apply(s, step, g), g, user, k)
  {
    var s' := Apply(s, step, g);
    var v, v', id := ViewOf(s, user), ViewOf(s', user), step.event.id;
    LiveAfterRevoke(s.tokens, s.logins[id].picked.value, user);
    assert v'.ids == v.ids;
    hide Bounded, Live, LoginsOf;
    if s.logins[id].user == user && v.last.id < id {
      assert id in v.ids by { assert id in LoginsOf(s.logins, user); }
      FlagStaysBounded(v, v', id, g.max - 1 + k);
    } else {
      assert id in v.ids ==> id <= v.last.id by { assert id in LoginsOf(s.logins, user) ==> s.logins[id].user == user; }
      FlaggedElsewhere(v, v', id, g.max - 1 + k);
    }
  }

  lemma FlaggedElsewhere(v: View, v': View, id: nat, bound: int)
    requires Bounded(v, bound) && (id in v.ids ==> id <= v.last.id) && id in v.logins
    requires v'.live <= v.live && v' == v.(live := v'.live, logins := v.logins[id := v.logins[id].(picked := None)])
    ensures Bounded(v', bound)
  {
    forall other | other in v'.ids && v.last.id < other
      ensures other in v.logins && other in v'.logins && v'.logins[other] == v.logins[other]
    {
      assert Promised(v, other, bound);
    }
    LessStaysBounded(v, v', bound);
  }

  lemma StoreKeepsLimit(s: State, step: Step, g: Settings, user: UserId, k: nat)
    requires step.event.StoreLogin? && Enabled(s, step) && WithinLimit(s, g, user, k)
    ensures WithinLimit(Apply(s, step, g), g, user, k)
  {
    var s' := Apply(s, step, g);
    var v, v', id, h := ViewOf(s, user), ViewOf(s', user), step.event.id, step.event.h;
    LiveAfterStore(s.tokens, h, Issued(s.logins[id].user, step.at, g), user);
    LoginsAfterRemove(s.logins, id, user);
    assert id in v.ids <==> s.logins[id].user == user;
    hide Live, LoginsOf, Upto;
    if s.logins[id].user == user {
      assert v.last.id < id ==> Promised(v, id, g.max - 1 + k);
      hide Bounded;
      StoreStaysBounded(v, v', id, h, g.max - 1 + k);
    } else {
      hide Bounded;
      ForgetElsewhere(v, v', id, g.max - 1 + k);
    }
  }

  // Someone else's login ends.
  lemma ForgetElsewhere(v: View, v': View, id: nat, bound: int)
    requires Bounded(v, bound) && id !in v.ids
    requires v'.live == v.live && v'.ids == v.ids && v'.owing == v.owing && v'.last == v.last && v'.next == v.next
    requires v'.logins == v.logins - {id}
    ensures Bounded(v', bound)
  {
    forall other | other in v'.ids && v.last.id < other
      ensures other in v.logins && other in v'.logins && v'.logins[other] == v.logins[other]
    {
      assert Promised(v, other, bound);
    }
    LessStaysBounded(v, v', bound);
  }

  lemma DropKeepsLimit(s: State, step: Step, g: Settings, user: UserId, k: nat)
    requires step.event.DropLogin? || step.event.DropRefresh? || step.event.DropValidated? || step.event.Validate?
             || step.event.RevokeSelected? || step.event.Blacklist?
    requires Enabled(s, step) && WithinLimit(s, g, user, k)
    ensures WithinLimit(Apply(s, step, g), g, user, k)
  {
    var s' := Apply(s, step, g);
    var v, v' := ViewOf(s, user), ViewOf(s', user);
    if step.event.RevokeSelected? {
      LiveAfterRevoke(s.tokens, step.event.hs, user);
    }
    forall id | id in v'.ids && v.last.id < id
      ensures id in v.logins && id in v'.logins && v'.logins[id] == v.logins[id]
    {
    }
    hide Live, Bounded;
    assert v'.ids <= v.ids;
    LessStaysBounded(v, v', g.max - 1 + k);
  }

  lemma RefreshStoreKeepsLimit(s: State, owner: UserId, h: Digest, row: Row, g: Settings, user: UserId, k: nat)
    requires owner in s.rotated && h !in s.tokens && !row.revoked && row.user == owner && WithinLimit(s, g, user, k)
    ensures WithinLimit(s.(tokens := s.tokens[h := row], rotated := s.rotated - multiset{owner}), g, user, k)
  {
    hide Live, Bounded, LoginsOf;
    var v := ViewOf(s, user);
    LiveAfterStore(s.tokens, h, row, user);
    if owner == user {
      RefreshStoreStaysBounded(v, v.(live := v.live + {h}, owing := v.owing - 1), h, g.max - 1 + k);
    } else {
      assert ViewOf(s.(tokens := s.tokens[h := row], rotated := s.rotated - multiset{owner}), user) == v;
    }
  }

  lemma SsoKeepsLimit(s: State, owner: UserId, h: Digest, row: Row, g: Settings, user: UserId, k: nat)
    requires h !in s.tokens && !row.revoked && row.user == owner && WithinLimit(s, g, user, k)
    ensures WithinLimit(CountForAll(s, owner).(tokens := s.tokens[h := row]), g, user, k)
  {
    var s' := CountForAll(s, owner).(tokens := s.tokens[h := row]);
    var v, v' := ViewOf(s, user), ViewOf(s', user);
    LiveAfterStore(s.tokens, h, row, user);
    assert v'.ids == v.ids;
    assert forall id :: id in v.ids ==> id in v.logins && v.logins[id].user == user;
    hide Live, Bounded, LoginsOf;
    if owner == user {
      SurplusStaysBounded(v, v', h, g.max - 1 + k);
    } else {
      LessStaysBounded(v, v', g.max - 1 + k);
    }
  }

  lemma RotateKeepsLimit(s: State, h: Digest, g: Settings, user: UserId, k: nat)
    requires h in s.tokens && WithinLimit(s, g, user, k)
    requires s.tokens[h].user == user
    ensures WithinLimit(RotatedAway(s, h), g, user, k)
  {
    var s' := RotatedAway(s, h);
    var v, v' := ViewOf(s, user), ViewOf(s', user);
    LiveAfterRevoke(s.tokens, {h}, user);
    assert v'.ids == v.ids;
    assert forall id :: id in v.ids ==> id in v.logins && v.logins[id].user == user;
    assert h in v.live <==> !s.tokens[h].revoked;
    hide Live, Bounded, LoginsOf, Revoke;
    if s.tokens[h].revoked {
      assert v'.live == v.live;
      SurplusStaysBounded(v, v', h, g.max - 1 + k);
    } else {
      RotationStaysBounded(v, v', h, g.max - 1 + k);
    }
  }

  lemma RotateElsewhereKeepsLimit(s: State, h: Digest, g: Settings, user: UserId, k: nat)
    requires h in s.tokens && WithinLimit(s, g, user, k) && OwnPicks(s.logins, s.tokens)
    requires s.tokens[h].user != user
    ensures WithinLimit(RotatedAway(s, h), g, user, k)
  {
    var s' := RotatedAway(s, h);
    var v, v' := ViewOf(s, user), ViewOf(s', user);
    LiveAfterRevoke(s.tokens, {h}, user);
    assert v'.ids == v.ids && v'.live == v.live;
    assert forall id :: id in v.ids ==> id in v.logins && v.logins[id].user == user && !Picks(v.logins[id], h);
    hide Live, Bounded, LoginsOf, Revoke;
    LessStaysBounded(v, v', g.max - 1 + k);
  }

  // A login picks only tokens of its own user.
  ghost predicate OwnPicks(logins: map<nat, Request>, t: Table) {
    forall id, h :: id in logins && Picks(logins[id], h) ==> h in t && t[h].user == logins[id].user
  }

  lemma ExcessIsOwn(t: Table, user: UserId, order: seq<Digest>, max: int)
    requires NewestFirstSessions(order, t, user)
    ensures forall h :: h in Excess(order, max) ==> h in t && t[h].user == user
  {
    assert forall h :: h in Excess(order, max) ==> h in order;
    assert forall h :: h in order ==> h in Live(t, user);
  }

  lemma RevokeKeepsRows(t: Table, hs: set<Digest>)
    ensures forall h :: h in t ==>
              h in Revoke(t, hs) && Revoke(t, hs)[h].user == t[h].user && (t[h].revoked ==> Revoke(t, hs)[h].revoked)
  {
  }

  // A row is never removed, does not change hands, and once revoked stays so.
  lemma RowsPersist(s: State, step: Step, g: Settings)
    requires Enabled(s, step)
    ensures var after := Apply(s, step, g).tokens;
            forall h :: h in s.tokens ==>
              h in after && after[h].user == s.tokens[h].user && (s.tokens[h].revoked ==> after[h].revoked)
  {
    hide NewestFirstSessions, Excess, Revoke, LastOf, CountForAll, CountForPickers;
    match step.event {
      case Flag(id) => RevokeKeepsRows(s.tokens, s.logins[id].picked.value);
      case Rotate(h) => RevokeKeepsRows(s.tokens, {h});
      case RevokeSelected(hs) => RevokeKeepsRows(s.tokens, hs);
      case StoreLogin(_, _) =>
      case StoreRefresh(_, _) =>
      case SsoStore(_, _) =>
      case _ =>
    }
  }

  ghost predicate PicksShrink(before: map<nat, Request>, after: map<nat, Request>) {
    forall id :: id in after ==>
      && id in before && after[id].user == before[id].user
      && forall h :: Picks(after[id], h) ==> Picks(before[id], h)
  }

  lemma CountingAddsNoPicks(s: State, user: UserId, h: Digest)
    ensures PicksShrink(s.logins, CountForAll(s, user).logins) && PicksShrink(s.logins, CountForPickers(s, h).logins)
  {
  }

  lemma SettlingAddsNoPicks(logins: map<nat, Request>, id: nat)
    requires id in logins
    ensures PicksShrink(logins, logins - {id}) && PicksShrink(logins, logins[id := logins[id].(picked := None)])
    ensures PicksShrink(logins, logins)
  {
  }

  lemma OnlySelectPicks(s: State, step: Step, g: Settings)
    requires Enabled(s, step) && !step.event.Select?
    ensures PicksShrink(s.logins, Apply(s, step, g).logins)
  {
    assert PicksShrink(s.logins, s.logins);
    hide NewestFirstSessions, Excess, Revoke, LastOf, CountForAll, CountForPickers, PicksShrink;
    match step.event {
      case Rotate(h) => CountingAddsNoPicks(s, s.tokens[h].user, h);
      case SsoStore(user, h) => CountingAddsNoPicks(s, user, h);
      case Flag(id) => SettlingAddsNoPicks(s.logins, id);
      case StoreLogin(id, _) => SettlingAddsNoPicks(s.logins, id);
      case DropLogin(id) => SettlingAddsNoPicks(s.logins, id);
      case _ =>
    }
  }

  lemma FewerPicksStayOwn(logins: map<nat, Request>, t: Table, logins': map<nat, Request>, t': Table)
    requires OwnPicks(logins, t) && forall h :: h in t ==> h in t' && t'[h].user == t[h].user
    requires PicksShrink(logins, logins')
    ensures OwnPicks(logins', t')
  {
  }

  lemma NewPicksAreOwn(logins: map<nat, Request>, t: Table, id: nat, r: Request)
    requires OwnPicks(logins, t) && forall h :: Picks(r, h) ==> h in t && t[h].user == r.user
    ensures OwnPicks(logins[id := r], t)
  {
  }

  lemma PicksStayOwn(s: State, step: Step, g: Settings)
    requires Enabled(s, step) && OwnPicks(s.logins, s.tokens)
    ensures OwnPicks(Apply(s, step, g).logins, Apply(s, step, g).tokens)
  {
    hide OwnPicks, NewestFirstSessions, Excess;
    var s' := Apply(s, step, g);
    if step.event.Select? {
      ExcessIsOwn(s.tokens, step.event.user, step.event.order, g.max);
      NewPicksAreOwn(s.logins, s.tokens, s.next, s'.logins[s.next]);
    } else {
      RowsPersist(s, step, g);
      OnlySelectPicks(s, step, g);
      hide Apply, Picks, PicksShrink;
      FewerPicksStayOwn(s.logins, s.tokens, s'.logins, s'.tokens);
    }
  }

  lemma StepKeepsLimit(s: State, step: Step, g: Settings, user: UserId, k: nat)
    requires g.max >= 1 && Enabled(s, step) && WithinLimit(s, g, user, k) && OwnPicks(s.logins, s.tokens)
    requires Owed(Apply(s, step, g), user) <= k
    ensures WithinLimit(Apply(s, step, g), g, user, k)
  {
    hide WithinLimit, OwnPicks, Owed;
    match step.event {
      case Select(u, order) =>
        UnpickedAreFew(s.tokens, u, order, g.max);
        SelectKeepsLimit(s, Apply(s, step, g), Request(u, Some(set h | h in Excess(order, g.max)), 0), g, user, k);
      case Flag(_) => FlagKeepsLimit(s, step, g, user, k);
      case StoreLogin(_, _) => StoreKeepsLimit(s, step, g, user, k);
      case StoreRefresh(u, h) => RefreshStoreKeepsLimit(s, u, h, Issued(u, step.at, g), g, user, k);
      case SsoStore(u, h) => SsoKeepsLimit(s, u, h, Issued(u, step.at, g), g, user, k);
      case Rotate(h) =>
        if s.tokens[h].user == user {
          RotateKeepsLimit(s, h, g, user, k);
        } else {
          RotateElsewhereKeepsLimit(s, h, g, user, k);
        }
      case _ => DropKeepsLimit(s, step, g, user, k);
    }
  }

  lemma {:induction false} LimitKept(s: State, steps: seq<Step>, g: Settings, user: UserId, k: nat)
    requires g.max >= 1 && Run(s, steps, g) && OwedAtMost(s, steps, g, user, k)
    requires WithinLimit(s, g, user, k) && OwnPicks(s.logins, s.tokens)
    ensures WithinLimit(After(s, steps, g), g, user, k) && OwnPicks(After(s, steps, g).logins, After(s, steps, g).tokens)
    decreases |steps|
  {
    hide WithinLimit, OwnPicks, Enabled, Apply, Owed;
    if steps != [] {
      var s' := Apply(s, steps[0], g);
      assert OwedAtMost(s', steps[1..], g, user, k);
      assert Owed(s', user) <= k;
      StepKeepsLimit(s, steps[0], g, user, k);
      PicksStayOwn(s, steps[0], g);
      LimitKept(s', steps[1..], g, user, k);
    }
  }

  lemma EmptyIsWithinLimit(g: Settings, user: UserId, k: nat)
    requires g.max >= 1
    ensures WithinLimit(EMPTY, g, user, k) && OwnPicks(EMPTY.logins, EMPTY.tokens)
  {
    assert Live(EMPTY.tokens, user) == {} && LoginsOf(EMPTY.logins, user) == {} && Upto({}, -1) == {};
  }

  // ---------------------------------------------------------------- the surplus, counted

  // This step adds a token that the user's selection number id has not seen, or rotates one it has
  // picked but not yet flagged.
  predicate Unseen(s: State, step: Step, user: UserId, id: int) {
    match step.event
    case SsoStore(u, _) => u == user
    case Rotate(h) =>
      && h in s.tokens && s.tokens[h].user == user
      && (s.tokens[h].revoked || (id in s.logins && Picks(s.logins[id], h)))
    case _ => false
  }

  // How many steps of the run, once selection number id has been made, are of that kind: single
  // sign-ons, stale rotations and escapes. Number -1 is made before the run.
  ghost function UnseenBy(s: State, steps: seq<Step>, g: Settings, user: UserId, id: int): nat
    requires Run(s, steps, g)
    decreases |steps|
  {
    if steps == [] then 0
    else (if id < s.next && Unseen(s, steps[0], user, id) then 1 else 0)
         + UnseenBy(Apply(s, steps[0], g), steps[1..], g, user, id)
  }

  // The highest-numbered selection of the user that gets flagged in the run, or `sofar`.
  ghost function LatestFlagged(s: State, steps: seq<Step>, g: Settings, user: UserId, sofar: int): int
    requires Run(s, steps, g)
    decreases |steps|
  {
    if steps == [] then sofar
    else
      var step := steps[0];
      var here := if step.event.Flag? && s.logins[step.event.id].user == user && sofar < step.event.id
                  then step.event.id else sofar;
      LatestFlagged(Apply(s, step, g), steps[1..], g, user, here)
  }

  lemma LastAfterCounting(s: State, user: UserId, u: UserId)
    ensures LastOf(CountForAll(s, user).last, u)
            == if u == user then LastOf(s.last, u).(surplus := LastOf(s.last, u).surplus + 1) else LastOf(s.last, u)
    ensures forall h :: CountForPickers(s, h).last == s.last
  {
  }

  lemma LatestAfterFlag(s: State, id: nat, user: UserId)
    requires id in s.logins && s.logins[id].picked.Some?
    ensures LastOf(Flagged(s, id).last, user).id
            == if s.logins[id].user == user && LastOf(s.last, user).id < id then id else LastOf(s.last, user).id
  {
    hide Revoke;
  }

  lemma LatestAfterStep(s: State, step: Step, g: Settings, user: UserId)
    requires Enabled(s, step)
    ensures LastOf(Apply(s, step, g).last, user).id
            == if step.event.Flag? && s.logins[step.event.id].user == user && LastOf(s.last, user).id < step.event.id
               then step.event.id else LastOf(s.last, user).id
  {
    hide NewestFirstSessions, Excess, Revoke, LastOf, CountForAll, CountForPickers, Flagged;
    match step.event {
      case Select(_, _) =>
      case Flag(id) => LatestAfterFlag(s, id, user);
      case StoreLogin(_, _) =>
      case DropLogin(_) =>
      case Validate(_) =>
      case DropValidated(_) =>
      case Rotate(h) => LastAfterCounting(s, s.tokens[h].user, user);
      case StoreRefresh(_, _) =>
      case DropRefresh(_) =>
      case RevokeSelected(_) =>
      case Blacklist(_) =>
      case SsoStore(u, _) => LastAfterCounting(s, u, user);
    }
  }

  lemma {:induction false} LatestIsLast(s: State, steps: seq<Step>, g: Settings, user: UserId)
    requires Run(s, steps, g)
    ensures LatestFlagged(s, steps, g, user, LastOf(s.last, user).id) == LastOf(After(s, steps, g).last, user).id
    decreases |steps|
  {
    if steps != [] {
      LatestAfterStep(s, steps[0], g, user);
      hide Apply, LastOf;
      LatestIsLast(Apply(s, steps[0], g), steps[1..], g, user);
    }
  }

  // Numbers are handed out in order, and a user's latest enforcement is flagged.
  ghost predicate Numbered(s: State) {
    && (forall id :: id in s.logins ==> id < s.next)
    && (forall u :: LastOf(s.last, u).id < s.next)
    && (forall id, u :: id in s.logins && LastOf(s.last, u).id == id ==> s.logins[id].picked.None?)
  }

  // Selection number id is the user's latest enforcement, or may yet become it.
  predicate Tracked(s: State, user: UserId, id: int) {
    || LastOf(s.last, user).id == id
    || (id in s.logins && s.logins[id].user == user && s.logins[id].picked.Some? && LastOf(s.last, user).id < id)
  }

  function SurplusOf(s: State, user: UserId, id: int): nat {
    if LastOf(s.last, user).id == id then LastOf(s.last, user).surplus
    else if id in s.logins then s.logins[id].surplus else 0
  }

  lemma CountingStaysNumbered(s: State, user: UserId, h: Digest)
    requires Numbered(s)
    ensures Numbered(CountForAll(s, user)) && Numbered(CountForPickers(s, h))
  {
    forall u
      ensures LastOf(CountForAll(s, user).last, u).id == LastOf(s.last, u).id
    {
      LastAfterCounting(s, user, u);
    }
    hide LastOf;
  }

  lemma FlagStaysNumbered(s: State, id: nat)
    requires Numbered(s) && id in s.logins && s.logins[id].picked.Some?
    ensures Numbered(Flagged(s, id))
  {
    var s' := Flagged(s, id);
    forall u
      ensures LastOf(s'.last, u).id == LastOf(s.last, u).id || (LastOf(s'.last, u).id == id && id < s.next)
    {
    }
    hide LastOf, Revoke;
  }

  lemma SelectStaysNumbered(s: State, r: Request)
    requires Numbered(s)
    ensures Numbered(s.(logins := s.logins[s.next := r], next := s.next + 1))
  {
    assert forall u :: LastOf(s.last, u).id < s.next;
    hide LastOf;
  }

  lemma FewerStayNumbered(s: State, s': State)
    requires Numbered(s) && s'.last == s.last && s'.next == s.next
    requires forall id :: id in s'.logins ==> id in s.logins && s'.logins[id] == s.logins[id]
    ensures Numbered(s')
  {
    hide LastOf;
  }

  // What remains of a step when enforcements and surplus are left out.
  lemma OnlyLoginsGo(s: State, step: Step, g: Settings)
    requires Enabled(s, step)
    requires !step.event.Flag? && !step.event.Rotate? && !step.event.SsoStore? && !step.event.Select?
    ensures Apply(s, step, g).last == s.last && Apply(s, step, g).next == s.next
    ensures var after := Apply(s, step, g).logins;
            forall id :: id in after ==> id in s.logins && after[id] == s.logins[id]
  {
    hide NewestFirstSessions, Excess, Revoke, CountForAll, CountForPickers, Flagged, RotatedAway;
    match step.event {
      case StoreLogin(id, _) => assert Apply(s, step, g).logins == s.logins - {id};
      case DropLogin(id) => assert Apply(s, step, g).logins == s.logins - {id};
      case Validate(_) =>
      case DropValidated(_) =>
      case StoreRefresh(_, _) =>
      case DropRefresh(_) =>
      case RevokeSelected(_) =>
      case Blacklist(_) =>
    }
  }

  lemma StepStaysNumbered(s: State, step: Step, g: Settings)
    requires Numbered(s) && Enabled(s, step)
    ensures Numbered(Apply(s, step, g))
  {
    hide Numbered, LastOf, Revoke, NewestFirstSessions, Excess, Flagged;
    var s' := Apply(s, step, g);
    if step.event.Select? {
      SelectStaysNumbered(s, s'.logins[s.next]);
    } else if step.event.Flag? {
      FlagStaysNumbered(s, step.event.id);
    } else if step.event.Rotate? || step.event.SsoStore? {
      CountedStaysNumbered(s, step, g);
    } else {
      OnlyLoginsGo(s, step, g);
      hide Apply, Enabled;
      FewerStayNumbered(s, s');
    }
  }

  lemma CountedStaysNumbered(s: State, step: Step, g: Settings)
    requires Numbered(s) && Enabled(s, step) && (step.event.Rotate? || step.event.SsoStore?)
    ensures Numbered(Apply(s, step, g))
  {
    hide Numbered, LastOf, Revoke, CountForAll, CountForPickers;
    var h := step.event.h;
    var user := if step.event.Rotate? then s.tokens[h].user else step.event.user;
    CountingStaysNumbered(s, user, h);
    FewerStayNumbered(if step.event.Rotate? && !s.tokens[h].revoked then CountForPickers(s, h) else CountForAll(s, user),
                      Apply(s, step, g));
  }

  // Once selection number id can no longer become the latest enforcement, it never does.
  lemma UntrackedStays(s: State, step: Step, g: Settings, user: UserId, id: int)
    requires Numbered(s) && Enabled(s, step) && id < s.next && !Tracked(s, user, id)
    ensures id < Apply(s, step, g).next && !Tracked(Apply(s, step, g), user, id)
  {
    LatestAfterStep(s, step, g, user);
    PickedStaysPicked(s, step, g, id);
    hide Apply, LastOf, Numbered;
  }

  // Logins may go, and be flagged, but none picks anew.
  ghost predicate Settle(before: map<nat, Request>, after: map<nat, Request>) {
    forall id :: id in after ==>
      && id in before && after[id].user == before[id].user
      && (after[id].picked.Some? ==> after[id].picked == before[id].picked)
  }

  lemma LoginsSettle(s: State, user: UserId, h: Digest, id: nat)
    ensures Settle(s.logins, s.logins) && Settle(s.logins, s.logins - {id})
    ensures Settle(s.logins, CountForAll(s, user).logins) && Settle(s.logins, CountForPickers(s, h).logins)
    ensures id in s.logins ==> Settle(s.logins, s.logins[id := s.logins[id].(picked := None)])
  {
  }

  lemma StepSettles(s: State, step: Step, g: Settings)
    requires Enabled(s, step) && !step.event.Select?
    ensures Settle(s.logins, Apply(s, step, g).logins) && Apply(s, step, g).next == s.next
  {
    LoginsSettle(s, 0, Digest(""), 0);
    if step.event.Rotate? || step.event.SsoStore? {
      var user := if step.event.Rotate? then s.tokens[step.event.h].user else step.event.user;
      LoginsSettle(s, user, step.event.h, 0);
      CountingKeepsNext(s, user, step.event.h);
      hide Revoke, LastOf, CountForAll, CountForPickers, Settle;
    } else if step.event.Flag? {
      LoginsSettle(s, 0, Digest(""), step.event.id);
      hide Revoke, LastOf, Settle;
    } else {
      OnlyLoginsGo(s, step, g);
      hide Apply, Enabled;
    }
  }

  lemma CountingKeepsNext(s: State, user: UserId, h: Digest)
    ensures CountForAll(s, user).next == s.next && CountForPickers(s, h).next == s.next
  {
  }

  // Whoever has yet to flag after a step had yet to flag before it, unless it has just selected.
  lemma PickedStaysPicked(s: State, step: Step, g: Settings, id: int)
    requires Enabled(s, step) && id < s.next
    ensures s.next <= Apply(s, step, g).next
    ensures var after := Apply(s, step, g).logins;
            id in after ==> id in s.logins && after[id].user == s.logins[id].user
                            && (after[id].picked.Some? ==> after[id].picked == s.logins[id].picked)
    ensures step.event.Flag? && step.event.id == id ==> s.logins[id].picked.Some?
  {
    if !step.event.Select? {
      StepSettles(s, step, g);
      hide Apply;
    } else {
      hide NewestFirstSessions, Excess;
    }
  }

  lemma {:induction false} UntrackedForever(s: State, steps: seq<Step>, g: Settings, user: UserId, id: int)
    requires Numbered(s) && Run(s, steps, g) && id < s.next && !Tracked(s, user, id)
    ensures LastOf(After(s, steps, g).last, user).id != id
    decreases |steps|
  {
    if steps != [] {
      UntrackedStays(s, steps[0], g, user, id);
      StepStaysNumbered(s, steps[0], g);
      hide Apply, Enabled, Numbered, Tracked, LastOf;
      UntrackedForever(Apply(s, steps[0], g), steps[1..], g, user, id);
    }
  }

  lemma SurplusAfterCounting(s: State, u: UserId, h: Digest, user: UserId, id: int)
    requires Numbered(s) && Tracked(s, user, id)
    ensures SurplusOf(CountForAll(s, u), user, id) == SurplusOf(s, user, id) + (if u == user then 1 else 0)
    ensures SurplusOf(CountForPickers(s, h), user, id)
            == SurplusOf(s, user, id) + (if id in s.logins && Picks(s.logins[id], h) then 1 else 0)
  {
    LastAfterCounting(s, u, user);
    assert id in s.logins && LastOf(s.last, user).id == id ==> s.logins[id].picked.None?;
    hide LastOf, Numbered;
  }

  lemma SurplusAfterFlag(s: State, flagged: nat, user: UserId, id: int)
    requires Numbered(s) && flagged in s.logins && s.logins[flagged].picked.Some?
    requires Tracked(s, user, id) && Tracked(Flagged(s, flagged), user, id)
    ensures SurplusOf(Flagged(s, flagged), user, id) == SurplusOf(s, user, id)
  {
    hide Revoke;
    assert LastOf(s.last, user).id != flagged;
  }

  // A login of the user that is still there has its surplus; a latest enforcement has its own.
  lemma SurplusUnchanged(s: State, s': State, user: UserId, id: int)
    requires s'.last == s.last && Tracked(s, user, id) && Tracked(s', user, id)
    requires id in s'.logins ==> id in s.logins && s'.logins[id] == s.logins[id]
    ensures SurplusOf(s', user, id) == SurplusOf(s, user, id)
  {
    hide LastOf;
  }

  // The surplus of a selection that stays in play grows by the steps it does not see.
  lemma SurplusAfterStep(s: State, step: Step, g: Settings, user: UserId, id: int)
    requires Numbered(s) && OwnPicks(s.logins, s.tokens) && Enabled(s, step) && id < s.next
    requires Tracked(s, user, id) && Tracked(Apply(s, step, g), user, id)
    ensures SurplusOf(Apply(s, step, g), user, id)
            == SurplusOf(s, user, id) + (if Unseen(s, step, user, id) then 1 else 0)
  {
    hide NewestFirstSessions, Excess, Revoke, LastOf, Numbered, CountForAll, CountForPickers, Flagged, Tracked, OwnPicks;
    var s' := Apply(s, step, g);
    if step.event.Rotate? {
      RotationSurplus(s, step.event.h, user, id);
    } else if step.event.SsoStore? {
      SurplusAfterCounting(s, step.event.user, step.event.h, user, id);
      var counted := CountForAll(s, step.event.user);
      assert s'.last == counted.last && s'.logins == counted.logins;
    } else if step.event.Flag? {
      SurplusAfterFlag(s, step.event.id, user, id);
    } else if step.event.Select? {
      assert s'.last == s.last && s'.logins == s.logins[s.next := s'.logins[s.next]];
      SurplusUnchanged(s, s', user, id);
    } else {
      OnlyLoginsGo(s, step, g);
      SurplusUnchanged(s, s', user, id);
    }
  }

  lemma RotationSurplus(s: State, h: Digest, user: UserId, id: int)
    requires Numbered(s) && OwnPicks(s.logins, s.tokens) && h in s.tokens && Tracked(s, user, id)
    ensures SurplusOf(RotatedAway(s, h), user, id)
            == SurplusOf(s, user, id)
               + (if s.tokens[h].user == user && (s.tokens[h].revoked || (id in s.logins && Picks(s.logins[id], h))) then 1 else 0)
  {
    SurplusAfterCounting(s, s.tokens[h].user, h, user, id);
    assert id in s.logins && Picks(s.logins[id], h) ==> s.tokens[h].user == user;
    var counted := if s.tokens[h].revoked then CountForAll(s, s.tokens[h].user) else CountForPickers(s, h);
    hide CountForAll, CountForPickers, LastOf, Revoke;
    assert RotatedAway(s, h).last == counted.last && RotatedAway(s, h).logins == counted.logins;
  }

  lemma {:induction false} SurplusIsCounted(s: State, steps: seq<Step>, g: Settings, user: UserId, id: int)
    requires Numbered(s) && OwnPicks(s.logins, s.tokens)
    requires Run(s, steps, g) && LastOf(After(s, steps, g).last, user).id == id
    ensures LastOf(After(s, steps, g).last, user).surplus
            == (if id < s.next then SurplusOf(s, user, id) else 0) + UnseenBy(s, steps, g, user, id)
    decreases |steps|
  {
    if steps == [] {
      assert LastOf(s.last, user).id < s.next;
    } else {
      var s', rest := Apply(s, steps[0], g), steps[1..];
      StepStaysNumbered(s, steps[0], g);
      PicksStayOwn(s, steps[0], g);
      assert id < s.next ==> Tracked(s, user, id) by {
        if id < s.next && !Tracked(s, user, id) {
          UntrackedForever(s, steps, g, user, id);
        }
      }
      assert id < s'.next ==> Tracked(s', user, id) by {
        if id < s'.next && !Tracked(s', user, id) {
          UntrackedForever(s', rest, g, user, id);
        }
      }
      if id < s.next {
        SurplusAfterStep(s, steps[0], g, user, id);
        PickedStaysPicked(s, steps[0], g, id);
      } else if id < s'.next {
        FreshSurplus(s, steps[0], g, user, id);
      }
      hide Apply, Enabled, LastOf, Tracked, SurplusOf, Unseen, Numbered, OwnPicks;
      SurplusIsCounted(s', rest, g, user, id);
    }
  }

  // A selection just made has no surplus.
  lemma FreshSurplus(s: State, step: Step, g: Settings, user: UserId, id: int)
    requires Numbered(s) && Enabled(s, step) && s.next <= id < Apply(s, step, g).next
    ensures SurplusOf(Apply(s, step, g), user, id) == 0
  {
    LatestAfterStep(s, step, g, user);
    hide NewestFirstSessions, Excess, Revoke, LastOf;
    assert step.event.Select?;
  }

  /** The session limit under any interleaving: with never more than k of the user's requests
      between selecting (or rotating) and storing, the live sessions exceed max - 1 + k by at most
      the number of single sign-ons, stale rotations and escapes in the run since the selection of
      the latest enforcement that took effect. */
  lemma SessionsBounded(steps: seq<Step>, g: Settings, user: UserId, k: nat)
    requires g.max >= 1 && Run(EMPTY, steps, g) && OwedAtMost(EMPTY, steps, g, user, k)
    ensures var s' := After(EMPTY, steps, g);
            && |Live(s'.tokens, user)| <= g.max - 1 + k + LastOf(s'.last, user).surplus
            && LastOf(s'.last, user).surplus
               == UnseenBy(EMPTY, steps, g, user, LatestFlagged(EMPTY, steps, g, user, -1))
  {
    EmptyIsWithinLimit(g, user, k);
    LimitKept(EMPTY, steps, g, user, k);
    LatestIsLast(EMPTY, steps, g, user);
    assert Numbered(EMPTY);
    SurplusIsCounted(EMPTY, steps, g, user, LastOf(After(EMPTY, steps, g).last, user).id);
  }

  // ---------------------------------------------------------------- single use

  predicate Spent(t: Table, h: Digest) {
    h in t && t[h].revoked
  }

  lemma {:induction false} SpentForever(s: State, steps: seq<Step>, g: Settings, h: Digest)
    requires Run(s, steps, g) && Spent(s.tokens, h)
    ensures Spent(After(s, steps, g).tokens, h)
    decreases |steps|
  {
    hide Apply, Enabled;
    if steps != [] {
      RowsPersist(s, steps[0], g);
      SpentForever(Apply(s, steps[0], g), steps[1..], g, h);
    }
  }

  // How often exactly this event occurs.
  function Count(steps: seq<Step>, event: Event): nat
    decreases |steps|
  {
    if steps == [] then 0 else (if steps[0].event == event then 1 else 0) + Count(steps[1..], event)
  }

  lemma ValidatedAfterStep(s: State, step: Step, g: Settings, h: Digest)
    requires Enabled(s, step)
    ensures Apply(s, step, g).validated[h] == s.validated[h]
              + (if step.event == Validate(h) then 1 else 0)
              - (if step.event == Rotate(h) || step.event == DropValidated(h) then 1 else 0)
    ensures step.event == Rotate(h) ==> Spent(Apply(s, step, g).tokens, h)
  {
    hide NewestFirstSessions, Excess, LastOf;
  }

  // Every validation ends in a rotation, is dropped, or is still in flight.
  lemma {:induction false} ValidationsAccountedFor(s: State, steps: seq<Step>, g: Settings, h: Digest)
    requires Run(s, steps, g)
    ensures s.validated[h] + Count(steps, Validate(h))
            == Count(steps, Rotate(h)) + Count(steps, DropValidated(h)) + After(s, steps, g).validated[h]
    decreases |steps|
  {
    hide Apply, Enabled;
    if steps != [] {
      ValidatedAfterStep(s, steps[0], g, h);
      ValidationsAccountedFor(Apply(s, steps[0], g), steps[1..], g, h);
    }
  }

  // A spent token is never validated again.
  lemma {:induction false} SpentIsNotValidated(s: State, steps: seq<Step>, g: Settings, h: Digest)
    requires Run(s, steps, g) && Spent(s.tokens, h)
    ensures Count(steps, Validate(h)) == 0
    decreases |steps|
  {
    if steps != [] {
      assert steps[0].event != Validate(h);
      RowsPersist(s, steps[0], g);
      hide Apply, Enabled;
      SpentIsNotValidated(Apply(s, steps[0], g), steps[1..], g, h);
    }
  }

  // Where a token is first rotated, all its validations lie behind.
  lemma {:induction false} ValidationsPrecedeRotation(s: State, steps: seq<Step>, g: Settings, h: Digest, i: nat)
    requires Run(s, steps, g) && i < |steps| && steps[i].event == Rotate(h)
    ensures Count(steps, Validate(h)) == Count(steps[..i], Validate(h))
    decreases |steps|
  {
    hide Apply, Enabled;
    var s' := Apply(s, steps[0], g);
    if i == 0 {
      ValidatedAfterStep(s, steps[0], g, h);
      SpentIsNotValidated(s', steps[1..], g, h);
    } else {
      assert steps[..i][1..] == steps[1..][..i - 1];
      ValidationsPrecedeRotation(s', steps[1..], g, h, i - 1);
    }
  }

  /** How often a token is exchanged, exactly: as often as it was validated before its first rotation,
      less the validations that came to nothing or are still in flight. So it is exchanged twice
      exactly if two validations that go on both precede the first rotation. */
  lemma RotationsExactly(s: State, steps: seq<Step>, g: Settings, h: Digest, i: nat)
    requires Run(s, steps, g) && s.validated[h] == 0
    requires i < |steps| && steps[i].event == Rotate(h)
    ensures Count(steps, Rotate(h))
            == Count(steps[..i], Validate(h)) - Count(steps, DropValidated(h)) - After(s, steps, g).validated[h]
  {
    ValidationsPrecedeRotation(s, steps, g, h, i);
    ValidationsAccountedFor(s, steps, g, h);
  }

  lemma {:induction false} CountedSomewhere(steps: seq<Step>, event: Event)
    requires Count(steps, event) > 0
    ensures exists i :: 0 <= i < |steps| && steps[i].event == event
    decreases |steps|
  {
    if steps[0].event != event {
      CountedSomewhere(steps[1..], event);
      var i :| 0 <= i < |steps[1..]| && steps[1..][i].event == event;
      assert steps[i + 1].event == event;
    }
  }

  /** A token is exchanged twice if and only if, when it is rotated, two validations that neither come
      to nothing nor stay in flight lie behind. */
  lemma ExchangedTwiceExactly(s: State, steps: seq<Step>, g: Settings, h: Digest)
    requires Run(s, steps, g) && s.validated[h] == 0
    ensures Count(steps, Rotate(h)) >= 2 <==>
            exists i :: && 0 <= i < |steps| && steps[i].event == Rotate(h)
                        && Count(steps[..i], Validate(h))
                           >= 2 + Count(steps, DropValidated(h)) + After(s, steps, g).validated[h]
  {
    hide Run, After;
    forall i | 0 <= i < |steps| && steps[i].event == Rotate(h)
      ensures Count(steps, Rotate(h))
              == Count(steps[..i], Validate(h)) - Count(steps, DropValidated(h)) - After(s, steps, g).validated[h]
    {
      RotationsExactly(s, steps, g, h, i);
    }
    if Count(steps, Rotate(h)) >= 2 {
      CountedSomewhere(steps, Rotate(h));
    }
  }

  // ---------------------------------------------------------------- logout

  lemma {:induction false} BlacklistOnlyGrows(s: State, steps: seq<Step>, g: Settings)
    requires Run(s, steps, g)
    ensures s.blacklist <= After(s, steps, g).blacklist
    decreases |steps|
  {
    if steps != [] {
      BlacklistGrowsByStep(s, steps[0], g);
      hide Apply, Enabled;
      BlacklistOnlyGrows(Apply(s, steps[0], g), steps[1..], g);
    }
  }

  lemma BlacklistGrowsByStep(s: State, step: Step, g: Settings)
    requires Enabled(s, step)
    ensures s.blacklist <= Apply(s, step, g).blacklist
  {
    hide NewestFirstSessions, Excess, LastOf, Revoke;
  }

  /** A logout blacklists its jti, selects the user's live tokens at s, and flags them after whatever
      happens in between. From then on no token the user had at s is ever valid again, the access
      token used never admits anyone, and a token the user had at s is exchanged only by
      refreshes that had validated it before the flags were set: every such exchange is accounted
      for by a validation then in flight. */
  lemma LogoutIsFinal(s: State, between: seq<Step>, at: Time, after: seq<Step>, g: Settings, user: UserId, jti: string,
                      h: Digest, keys: SigningKeys.Keys, users: map<UserId, bool>, token: Token, iss: string, now: Time)
    requires jti in s.blacklist && jti != "" && token.Jws? && token.claims.jti == Some(jti)
    requires h in s.tokens && s.tokens[h].user == user
    requires Run(s, between, g)
    requires var flag := Step(at, RevokeSelected(Live(s.tokens, user)));
             Run(Apply(After(s, between, g), flag, g), after, g)
    ensures var flag := Step(at, RevokeSelected(Live(s.tokens, user)));
            var s1 := After(s, between, g);
            var s2 := After(Apply(s1, flag, g), after, g);
            && !Valid(s2.tokens, h, now)
            && CurrentUser(keys, s2.blacklist, users, token, iss, now).Err?
            && s1.validated[h] == Count(after, Rotate(h)) + Count(after, DropValidated(h)) + s2.validated[h]
  {
    var flag := Step(at, RevokeSelected(Live(s.tokens, user)));
    var s1 := After(s, between, g);
    var flagged := Apply(s1, flag, g);
    RowsPersistThrough(s, between, g, h);
    assert Spent(flagged.tokens, h) by {
      if Spent(s.tokens, h) {
        SpentForever(s, between, g, h);
      }
    }
    SpentForever(flagged, after, g, h);
    SpentIsNotValidated(flagged, after, g, h);
    ValidationsAccountedFor(flagged, after, g, h);
    BlacklistOnlyGrows(s, between, g);
    BlacklistOnlyGrows(flagged, after, g);
  }

  lemma {:induction false} RowsPersistThrough(s: State, steps: seq<Step>, g: Settings, h: Digest)
    requires Run(s, steps, g) && h in s.tokens
    ensures h in After(s, steps, g).tokens
    decreases |steps|
  {
    hide Apply, Enabled;
    if steps != [] {
      RowsPersist(s, steps[0], g);
      RowsPersistThrough(Apply(s, steps[0], g), steps[1..], g, h);
    }
  }

  // ---------------------------------------------------------------- whole handlers, one at a time

  datatype Handler =
    | Login(user: UserId, order: seq<Digest>, h: Digest)
    | LoginRefused(user: UserId, order: seq<Digest>)
    | Refreshed(user: UserId, spent: Digest, h: Digest)
    | RefreshRefused(user: UserId, spent: Digest)
    | LoggedOut(user: UserId, jti: string)
    | Deprovisioned(user: UserId)
    | SsoLogin(user: UserId, h: Digest)

  datatype Call = Call(at: Time, handler: Handler)

  ghost function Steps(s: State, call: Call): seq<Step> {
    var at := call.at;
    match call.handler
    case Login(u, order, h) => [Step(at, Select(u, order)), Step(at, Flag(s.next)), Step(at, StoreLogin(s.next, h))]
    case LoginRefused(u, order) => [Step(at, Select(u, order)), Step(at, Flag(s.next)), Step(at, DropLogin(s.next))]
    case Refreshed(u, spent, h) => [Step(at, Validate(spent)), Step(at, Rotate(spent)), Step(at, StoreRefresh(u, h))]
    case RefreshRefused(u, spent) => [Step(at, Validate(spent)), Step(at, Rotate(spent)), Step(at, DropRefresh(u))]
    case LoggedOut(u, jti) => [Step(at, Blacklist(jti)), Step(at, RevokeSelected(Live(s.tokens, u)))]
    case Deprovisioned(u) => [Step(at, RevokeSelected(Live(s.tokens, u)))]
    case SsoLogin(u, h) => [Step(at, SsoStore(u, h))]
  }

  // Each call runs to completion before the next begins.
  ghost predicate AtomicRun(s: State, calls: seq<Call>, g: Settings)
    decreases |calls|
  {
    calls == [] || (Run(s, Steps(s, calls[0]), g)
                    && AtomicRun(After(s, Steps(s, calls[0]), g), calls[1..], g))
  }

  ghost function AfterCalls(s: State, calls: seq<Call>, g: Settings): State
    requires AtomicRun(s, calls, g)
    decreases |calls|
  {
    if calls == [] then s else AfterCalls(After(s, Steps(s, calls[0]), g), calls[1..], g)
  }

  // What a call makes of the number of single-sign-on tokens issued to the user since its last
  // register or login attempt that reached enforcement.
  function SsoCount(sofar: nat, call: Call, user: UserId): nat {
    match call.handler
    case Login(u, _, _) => if u == user then 0 else sofar
    case LoginRefused(u, _) => if u == user then 0 else sofar
    case SsoLogin(u, _) => if u == user then sofar + 1 else sofar
    case _ => sofar
  }

  function SsoSinceLogin(sofar: nat, calls: seq<Call>, user: UserId): nat
    decreases |calls|
  {
    if calls == [] then sofar else SsoSinceLogin(SsoCount(sofar, calls[0], user), calls[1..], user)
  }

  // Nothing is in flight, and selections are numbered above all enforcements.
  ghost predicate Quiet(s: State) {
    s.logins == map[] && s.validated == multiset{} && s.rotated == multiset{}
    && NumberedBelow(s.last, s.next)
  }

  ghost predicate NumberedBelow(last: map<UserId, Enforcement>, next: nat) {
    forall user :: LastOf(last, user).id < next
  }

  lemma NumberingGoesOn(last: map<UserId, Enforcement>, next: nat, u: UserId)
    requires NumberedBelow(last, next)
    ensures LastOf(last, u).id < next && NumberedBelow(last[u := Enforcement(next, 0)], next + 1)
    ensures NumberedBelow(last[u := LastOf(last, u).(surplus := LastOf(last, u).surplus + 1)], next)
  {
    var counted := last[u := LastOf(last, u).(surplus := LastOf(last, u).surplus + 1)];
    var enforced := last[u := Enforcement(next, 0)];
    forall user
      ensures LastOf(enforced, user).id < next + 1 && LastOf(counted, user).id < next
    {
      assert LastOf(last, user).id < next;
    }
  }

  lemma AfterOne(s: State, a: Step, g: Settings)
    requires Run(s, [a], g)
    ensures Enabled(s, a) && After(s, [a], g) == Apply(s, a, g)
  {
    assert [a][1..] == [];
  }

  lemma AfterTwo(s: State, a: Step, b: Step, g: Settings)
    requires Run(s, [a, b], g)
    ensures Enabled(s, a) && Enabled(Apply(s, a, g), b)
    ensures After(s, [a, b], g) == Apply(Apply(s, a, g), b, g)
  {
    assert [a, b][1..] == [b];
    AfterOne(Apply(s, a, g), b, g);
  }

  lemma AfterThree(s: State, a: Step, b: Step, c: Step, g: Settings)
    requires Run(s, [a, b, c], g)
    ensures Enabled(s, a) && Enabled(Apply(s, a, g), b) && Enabled(Apply(Apply(s, a, g), b, g), c)
    ensures After(s, [a, b, c], g) == Apply(Apply(Apply(s, a, g), b, g), c, g)
  {
    assert [a, b, c][1..] == [b, c];
    AfterTwo(Apply(s, a, g), b, c, g);
  }

  // What each handler, as a whole, does: to the tables, and to the surplus.
  ghost predicate Effect(s: State, call: Call, g: Settings, s': State) {
    match call.handler
    case Login(u, order, h) =>
      && NewestFirstSessions(order, s.tokens, u)
      && h !in s.tokens && s'.tokens == Enforced(s.tokens, order, g.max)[h := Issued(u, call.at, g)]
      && s'.blacklist == s.blacklist && s'.last == s.last[u := Enforcement(s.next, 0)]
    case LoginRefused(u, order) =>
      && NewestFirstSessions(order, s.tokens, u)
      && s'.tokens == Enforced(s.tokens, order, g.max)
      && s'.blacklist == s.blacklist && s'.last == s.last[u := Enforcement(s.next, 0)]
    case Refreshed(u, spent, h) =>
      && Valid(s.tokens, spent, call.at) && u == s.tokens[spent].user && h !in s.tokens
      && s'.tokens == Revoke(s.tokens, {spent})[h := Issued(u, call.at, g)]
      && s'.blacklist == s.blacklist && s'.last == s.last
    case RefreshRefused(u, spent) =>
      && Valid(s.tokens, spent, call.at) && u == s.tokens[spent].user
      && s'.tokens == Revoke(s.tokens, {spent})
      && s'.blacklist == s.blacklist && s'.last == s.last
    case LoggedOut(u, jti) =>
      && s'.tokens == Revoke(s.tokens, Live(s.tokens, u))
      && s'.blacklist == s.blacklist + (if jti == "" then {} else {jti}) && s'.last == s.last
    case Deprovisioned(u) =>
      s'.tokens == Revoke(s.tokens, Live(s.tokens, u)) && s'.blacklist == s.blacklist && s'.last == s.last
    case SsoLogin(u, h) =>
      && h !in s.tokens && s'.tokens == s.tokens[h := Issued(u, call.at, g)] && s'.blacklist == s.blacklist
      && s'.last == s.last[u := LastOf(s.last, u).(surplus := LastOf(s.last, u).surplus + 1)]
  }

  lemma LoginEffect(s: State, call: Call, g: Settings)
    requires Quiet(s) && Run(s, Steps(s, call), g) && (call.handler.Login? || call.handler.LoginRefused?)
    ensures Effect(s, call, g, After(s, Steps(s, call), g)) && Quiet(After(s, Steps(s, call), g))
  {
    var steps := Steps(s, call);
    AfterThree(s, steps[0], steps[1], steps[2], g);
    hide Run, After;
    NumberingGoesOn(s.last, s.next, call.handler.user);
    hide NumberedBelow, Revoke, Live, NewestFirstSessions, Excess;
    var s1 := Apply(s, steps[0], g);
    var s2 := Apply(s1, steps[1], g);
    assert s2.last == s.last[call.handler.user := Enforcement(s.next, 0)];
  }

  // A token is validated and rotated with nothing else in flight.
  lemma RotationAlone(s: State, h: Digest, at: Time, g: Settings)
    requires s.logins == map[] && s.validated == multiset{} && s.rotated == multiset{} && Valid(s.tokens, h, at)
    ensures var validated := Apply(s, Step(at, Validate(h)), g);
            && Enabled(validated, Step(at, Rotate(h)))
            && Apply(validated, Step(at, Rotate(h)), g)
               == s.(tokens := Revoke(s.tokens, {h}), rotated := multiset{s.tokens[h].user})
  {
    hide Revoke;
    var s1 := s.(validated := multiset{h});
    assert Apply(s, Step(at, Validate(h)), g) == s1;
    assert CountForPickers(s1, h) == s1;
    assert s1.validated - multiset{h} == multiset{};
  }

  lemma RefreshEffect(s: State, call: Call, g: Settings)
    requires Quiet(s) && Run(s, Steps(s, call), g) && (call.handler.Refreshed? || call.handler.RefreshRefused?)
    ensures Effect(s, call, g, After(s, Steps(s, call), g)) && Quiet(After(s, Steps(s, call), g))
  {
    var steps := Steps(s, call);
    AfterThree(s, steps[0], steps[1], steps[2], g);
    RotationAlone(s, call.handler.spent, call.at, g);
    hide Run, After, Revoke, NumberedBelow, RotatedAway, Flagged;
  }

  lemma OtherEffect(s: State, call: Call, g: Settings)
    requires Quiet(s) && Run(s, Steps(s, call), g)
    requires call.handler.LoggedOut? || call.handler.Deprovisioned? || call.handler.SsoLogin?
    ensures Effect(s, call, g, After(s, Steps(s, call), g)) && Quiet(After(s, Steps(s, call), g))
  {
    var steps := Steps(s, call);
    if call.handler.LoggedOut? {
      AfterTwo(s, steps[0], steps[1], g);
    } else {
      AfterOne(s, steps[0], g);
    }
    if call.handler.SsoLogin? {
      NumberingGoesOn(s.last, s.next, call.handler.user);
    }
    hide Run, After, Revoke, Live, NumberedBelow;
    assert CountForAll(s, call.handler.user).logins == map[];
  }

  /** Cutting handlers into steps loses nothing: run alone, the steps of a handler do to the
      tables exactly what the store's method for it does, and leave nothing in flight. */
  lemma StepsAmountToHandlers(s: State, call: Call, g: Settings)
    requires Quiet(s) && Run(s, Steps(s, call), g)
    ensures Effect(s, call, g, After(s, Steps(s, call), g)) && Quiet(After(s, Steps(s, call), g))
  {
    hide Run, Effect, Quiet;
    match call.handler {
      case Login(_, _, _) => LoginEffect(s, call, g);
      case LoginRefused(_, _) => LoginEffect(s, call, g);
      case Refreshed(_, _, _) => RefreshEffect(s, call, g);
      case RefreshRefused(_, _) => RefreshEffect(s, call, g);
      case _ => OtherEffect(s, call, g);
    }
  }

  // Below the limit, plus the surplus, between handlers.
  ghost predicate AtomicallyBounded(s: State, g: Settings, user: UserId) {
    |Live(s.tokens, user)| <= g.max + LastOf(s.last, user).surplus
  }

  lemma LoginKeepsBound(s: State, s': State, call: Call, g: Settings, user: UserId)
    requires g.max >= 1 && AtomicallyBounded(s, g, user) && Effect(s, call, g, s')
    requires call.handler.Login? || call.handler.LoginRefused?
    ensures AtomicallyBounded(s', g, user)
  {
    var u, order := call.handler.user, call.handler.order;
    EnforcementKeepsTheNewest(s.tokens, u, order, g.max);
    if call.handler.Login? {
      LiveAfterStore(Enforced(s.tokens, order, g.max), call.handler.h, Issued(u, call.at, g), user);
    }
    hide Enforced, Live, NewestFirstSessions;
  }

  lemma RefreshKeepsBound(s: State, s': State, call: Call, g: Settings, user: UserId)
    requires AtomicallyBounded(s, g, user) && Effect(s, call, g, s')
    requires call.handler.Refreshed? || call.handler.RefreshRefused?
    ensures AtomicallyBounded(s', g, user)
  {
    var spent := call.handler.spent;
    LiveAfterRevoke(s.tokens, {spent}, user);
    SubsetCardinality(Live(s.tokens, user) - {spent}, Live(s.tokens, user));
    if call.handler.Refreshed? {
      assert s.tokens[spent].user == user ==> spent in Live(s.tokens, user);
      LiveAfterStore(Revoke(s.tokens, {spent}), call.handler.h, Issued(call.handler.user, call.at, g), user);
    }
    hide Revoke, Live;
  }

  lemma CallKeepsBound(s: State, s': State, call: Call, g: Settings, user: UserId)
    requires g.max >= 1 && AtomicallyBounded(s, g, user) && Effect(s, call, g, s')
    ensures AtomicallyBounded(s', g, user)
    ensures LastOf(s'.last, user).surplus == SsoCount(LastOf(s.last, user).surplus, call, user)
  {
    hide NewestFirstSessions, Revoke, Live, Enforced;
    match call.handler {
      case Login(_, _, _) => LoginKeepsBound(s, s', call, g, user);
      case LoginRefused(_, _) => LoginKeepsBound(s, s', call, g, user);
      case Refreshed(_, _, _) => RefreshKeepsBound(s, s', call, g, user);
      case RefreshRefused(_, _) => RefreshKeepsBound(s, s', call, g, user);
      case LoggedOut(u, _) => RevocationKeepsBound(s, s', u, g, user);
      case Deprovisioned(u) => RevocationKeepsBound(s, s', u, g, user);
      case SsoLogin(u, h) => LiveAfterStore(s.tokens, h, Issued(u, call.at, g), user);
    }
  }

  lemma RevocationKeepsBound(s: State, s': State, u: UserId, g: Settings, user: UserId)
    requires AtomicallyBounded(s, g, user) && s'.last == s.last && s'.tokens == Revoke(s.tokens, Live(s.tokens, u))
    ensures AtomicallyBounded(s', g, user)
  {
    LiveAfterRevoke(s.tokens, Live(s.tokens, u), user);
    SubsetCardinality(Live(s.tokens, user) - Live(s.tokens, u), Live(s.tokens, user));
  }

  lemma {:induction false} CallsKeepBound(s: State, calls: seq<Call>, g: Settings, user: UserId)
    requires g.max >= 1 && Quiet(s) && AtomicRun(s, calls, g) && AtomicallyBounded(s, g, user)
    ensures var s' := AfterCalls(s, calls, g);
            && AtomicallyBounded(s', g, user)
            && LastOf(s'.last, user).surplus == SsoSinceLogin(LastOf(s.last, user).surplus, calls, user)
    decreases |calls|
  {
    hide AtomicallyBounded, Quiet, Effect, NewestFirstSessions, Run, Steps, After, LastOf;
    if calls != [] {
      var s' := After(s, Steps(s, calls[0]), g);
      StepsAmountToHandlers(s, calls[0], g);
      CallKeepsBound(s, s', calls[0], g, user);
      CallsKeepBound(s', calls[1..], g, user);
    }
  }

  /** With handlers run one at a time, a user never holds more than max live sessions plus the
      single-sign-on tokens issued since its last login. */
  lemma AtomicSessionsBounded(calls: seq<Call>, g: Settings, user: UserId)
    requires g.max >= 1 && AtomicRun(EMPTY, calls, g)
    ensures |Live(AfterCalls(EMPTY, calls, g).tokens, user)| <= g.max + SsoSinceLogin(0, calls, user)
  {
    assert Live(EMPTY.tokens, user) == {};
    CallsKeepBound(EMPTY, calls, g, user);
  }

  lemma {:induction false} SpentThroughCalls(s: State, calls: seq<Call>, g: Settings, h: Digest)
    requires Quiet(s) && AtomicRun(s, calls, g) && Spent(s.tokens, h)
    ensures Spent(AfterCalls(s, calls, g).tokens, h)
    ensures forall i :: 0 <= i < |calls| && calls[i].handler.Refreshed? ==> calls[i].handler.spent != h
    decreases |calls|
  {
    hide Run, Steps, After, Quiet;
    if calls != [] {
      var s' := After(s, Steps(s, calls[0]), g);
      StepsAmountToHandlers(s, calls[0], g);
      SpentForever(s, Steps(s, calls[0]), g, h);
      SpentThroughCalls(s', calls[1..], g, h);
      forall i | 0 <= i < |calls| && calls[i].handler.Refreshed?
        ensures calls[i].handler.spent != h
      {
        if i > 0 {
          assert calls[i] == calls[1..][i - 1];
        }
      }
    }
  }

  /** Single use: with atomic handlers no refresh token is ever exchanged twice. */
  lemma {:induction false} RefreshTokensAreSingleUse(s: State, calls: seq<Call>, g: Settings, i: nat, j: nat)
    requires Quiet(s) && AtomicRun(s, calls, g) && i < j < |calls|
    requires calls[i].handler.Refreshed? && calls[j].handler.Refreshed?
    ensures calls[i].handler.spent != calls[j].handler.spent
    decreases |calls|
  {
    hide Run, Steps, After, Quiet;
    var s' := After(s, Steps(s, calls[0]), g);
    StepsAmountToHandlers(s, calls[0], g);
    if i > 0 {
      RefreshTokensAreSingleUse(s', calls[1..], g, i - 1, j - 1);
    } else {
      assert Spent(s'.tokens, calls[0].handler.spent);
      SpentThroughCalls(s', calls[1..], g, calls[0].handler.spent);
      assert calls[j] == calls[1..][j - 1];
    }
  }
}

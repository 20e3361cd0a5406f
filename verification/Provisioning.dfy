/** Just-in-time provisioning (jit_provision_user in sso_service.py): which local account an
    external identity signs in to, if any.

    The email column is unique, never rewritten, and users are never deleted, so the users
    table is keyed by email; external identities are keyed by their unique (provider, id). */
module Provisioning {
  import opened Common

  type UserId = int
  type ProviderId = int

  datatype Password = Hash(digest: Digest) | SsoOnly | ScimProvisioned

  datatype User = User(id: UserId, name: string, role: string, password: Password)

  datatype Identity = Identity(provider: ProviderId, externalId: string)

  datatype Link = Link(user: UserId, email: string, lastLoginAt: Time)

  datatype Directory = Directory(
    users: map<string, User>, links: map<Identity, Link>, providers: set<ProviderId>, nextUser: UserId)

  const EMPTY := Directory(map[], map[], {}, 0)

  // ---------------------------------------------------------------- the operations as functions

  // The email and name claims: None stands for a null one, which the columns refuse. Absent claims
  // have been replaced by their defaults.
  predicate LacksAccount(d: Directory, email: Option<string>, name: Option<string>) {
    email.None? || (email.value !in d.users && name.None?)
  }

  // An unlinked identity is refused for want of an account, or because its provider is gone by the
  // time the link is inserted.
  predicate Refused(d: Directory, identity: Identity, email: Option<string>, name: Option<string>) {
    identity !in d.links && (LacksAccount(d, email, name) || identity.provider !in d.providers)
  }

  // The account a sign-in ends up in.
  function Resolved(d: Directory, identity: Identity, email: Option<string>): UserId {
    if identity in d.links then d.links[identity].user
    else if email.Some? && email.value in d.users then d.users[email.value].id
    else d.nextUser
  }

  function WithUser(d: Directory, email: string, name: string, role: string, password: Password): Directory {
    if email in d.users then d
    else d.(users := d.users[email := User(d.nextUser, name, role, password)], nextUser := d.nextUser + 1)
  }

  // A new account is committed before the link is tried, and stays if that fails.
  function Provisioned(d: Directory, identity: Identity, email: Option<string>, name: Option<string>, now: Time): Directory {
    if identity in d.links then
      d.(links := d.links[identity := d.links[identity].(lastLoginAt := now)])
    else if LacksAccount(d, email, name) then d
    else
      var d' := WithUser(d, email.value, name.GetOr(""), "user", SsoOnly);
      if identity.provider !in d.providers then d'
      else d'.(links := d.links[identity := Link(Resolved(d, identity, email), email.value, now)])
  }

  function LinksWithout(d: Directory, provider: ProviderId): map<Identity, Link> {
    map k | k in d.links && k.provider != provider :: d.links[k]
  }

  /** SignIn is an external login; Register stands for local registration and SCIM creation, which
      refuse a known email; Edit for the admin and SCIM updates of a user's name and role. */
  datatype Request =
    | SignIn(identity: Identity, email: Option<string>, name: Option<string>)
    | Register(address: string, newName: string, role: string, password: Password)
    | Edit(address: string, newName: string, role: string)
    | AddProvider(provider: ProviderId)
    | DeleteProvider(provider: ProviderId)

  datatype Event = Event(at: Time, request: Request)

  function Apply(d: Directory, e: Event): Directory {
    match e.request
    case SignIn(identity, email, name) => Provisioned(d, identity, email, name, e.at)
    case Register(email, name, role, password) => WithUser(d, email, name, role, password)
    case Edit(email, name, role) =>
      if email in d.users then d.(users := d.users[email := d.users[email].(name := name, role := role)]) else d
    case AddProvider(provider) => d.(providers := d.providers + {provider})
    case DeleteProvider(provider) => d.(links := LinksWithout(d, provider), providers := d.providers - {provider})
  }

  // ---------------------------------------------------------------- the tables

  // Ids are unique, and a link carries the email under which its user is filed; its provider exists.
  ghost predicate Sound(d: Directory) {
    && (forall e :: e in d.users ==> d.users[e].id < d.nextUser)
    && (forall a, b :: a in d.users && b in d.users && d.users[a].id == d.users[b].id ==> a == b)
    && (forall k :: k in d.links ==>
          && k.provider in d.providers
          && d.links[k].email in d.users && d.users[d.links[k].email].id == d.links[k].user)
  }

  class UserDirectory {
    var users: map<string, User>
    var links: map<Identity, Link>
    var providers: set<ProviderId>
    var nextUser: UserId

    function Snapshot(): Directory
      reads this
    {
      Directory(users, links, providers, nextUser)
    }

    constructor ()
      ensures Snapshot() == EMPTY
    {
      users, links, providers, nextUser := map[], map[], {}, 0;
    }

    method JitProvisionUser(identity: Identity, email: Option<string>, name: Option<string>, now: Time)
      returns (user: Option<UserId>, created: bool)
      modifies this
      ensures Snapshot() == Provisioned(old(Snapshot()), identity, email, name, now)
      ensures user == if Refused(old(Snapshot()), identity, email, name) then None
                      else Some(Resolved(old(Snapshot()), identity, email))
      ensures created <==> identity !in old(links) && !LacksAccount(old(Snapshot()), email, name) && email.value !in old(users)
      ensures created ==> name.Some? && users == old(users)[email.value := User(old(nextUser), name.value, "user", SsoOnly)]
      ensures !created ==> users == old(users)
      ensures user.Some? && identity in old(links) ==>
                user.value == old(links)[identity].user
                && links == old(links)[identity := old(links)[identity].(lastLoginAt := now)]
      ensures user.Some? && identity !in old(links) ==>
                email.Some? && email.value in users && user.value == users[email.value].id
                && links == old(links)[identity := Link(user.value, email.value, now)]
    {
      if identity in links {
        links := links[identity := links[identity].(lastLoginAt := now)];
        return Some(links[identity].user), false;
      }
      if email.None? {
        return None, false;
      }
      created := email.value !in users;
      if created {
        if name.None? {
          return None, false;
        }
        users := users[email.value := User(nextUser, name.value, "user", SsoOnly)];
        nextUser := nextUser + 1;
      }
      if identity.provider !in providers {
        return None, created;
      }
      user := Some(users[email.value].id);
      links := links[identity := Link(user.value, email.value, now)];
    }
  }

  // ---------------------------------------------------------------- histories

  function DirectoryAfter(history: seq<Event>): Directory {
    if history == [] then EMPTY
    else Apply(DirectoryAfter(history[..|history| - 1]), history[|history| - 1])
  }

  // The i-th event was a sign-in that went through.
  predicate SignInAt(history: seq<Event>, i: int) {
    && 0 <= i < |history| && history[i].request.SignIn?
    && var r := history[i].request;
       !Refused(DirectoryAfter(history[..i]), r.identity, r.email, r.name)
  }

  predicate SignsIn(history: seq<Event>, i: int, identity: Identity) {
    SignInAt(history, i) && history[i].request.identity == identity
  }

  function UserAt(history: seq<Event>, i: int): UserId
    requires SignInAt(history, i)
  {
    Resolved(DirectoryAfter(history[..i]), history[i].request.identity, history[i].request.email)
  }

  predicate CreatedAt(history: seq<Event>, i: int) {
    && SignInAt(history, i)
    && history[i].request.identity !in DirectoryAfter(history[..i]).links
    && history[i].request.email.value !in DirectoryAfter(history[..i]).users
  }

  // The provider is deleted strictly between the two events.
  ghost predicate DeletedBetween(history: seq<Event>, i: int, j: int, provider: ProviderId) {
    exists m :: i < m < j && 0 <= m < |history| && history[m].request == DeleteProvider(provider)
  }

  /** Event f is the identity's first sign-in, as seen from just before event n: its provider has
      not been deleted since, and was deleted after every earlier sign-in of that identity. */
  ghost predicate FirstSignIn(history: seq<Event>, identity: Identity, f: int, n: int) {
    && SignsIn(history, f, identity) && f < n
    && !DeletedBetween(history, f, n, identity.provider)
    && forall m :: m < f && SignsIn(history, m, identity) ==> DeletedBetween(history, m, f, identity.provider)
  }

  // The first sign-in behind the i-th event, itself a sign-in.
  ghost predicate FirstBehind(history: seq<Event>, f: int, i: int) {
    SignInAt(history, i) && FirstSignIn(history, history[i].request.identity, f, i + 1)
  }

  // Accounts of `early` are still there in `late`, under the same email and id.
  ghost predicate Keeps(early: Directory, late: Directory) {
    forall e :: e in early.users ==> e in late.users && late.users[e].id == early.users[e].id
  }

  lemma WithUserKeepsSound(d: Directory, email: string, name: string, role: string, password: Password)
    requires Sound(d)
    ensures Sound(WithUser(d, email, name, role, password)) && Keeps(d, WithUser(d, email, name, role, password))
    ensures email in WithUser(d, email, name, role, password).users
  {
  }

  lemma LinkKeepsSound(d: Directory, identity: Identity, link: Link)
    requires Sound(d) && identity.provider in d.providers
    requires link.email in d.users && d.users[link.email].id == link.user
    ensures Sound(d.(links := d.links[identity := link]))
  {
  }

  lemma EditKeepsSound(d: Directory, email: string, user: User)
    requires Sound(d) && email in d.users && user.id == d.users[email].id
    ensures Sound(d.(users := d.users[email := user]))
  {
  }

  lemma UnlinkKeepsSound(d: Directory, provider: ProviderId)
    requires Sound(d)
    ensures Sound(d.(links := LinksWithout(d, provider), providers := d.providers - {provider}))
    ensures Sound(d.(providers := d.providers + {provider}))
  {
  }

  lemma RevisitKeepsSound(d: Directory, identity: Identity, now: Time)
    requires Sound(d) && identity in d.links
    ensures Sound(d.(links := d.links[identity := d.links[identity].(lastLoginAt := now)]))
  {
  }

  lemma ApplyKeepsSound(d: Directory, e: Event)
    requires Sound(d)
    ensures Sound(Apply(d, e)) && Keeps(d, Apply(d, e))
  {
    hide Sound, LinksWithout;
    match e.request {
      case SignIn(identity, email, name) =>
        if identity in d.links {
          RevisitKeepsSound(d, identity, e.at);
        } else if !LacksAccount(d, email, name) {
          WithUserKeepsSound(d, email.value, name.GetOr(""), "user", SsoOnly);
          if identity.provider in d.providers {
            LinkKeepsSound(WithUser(d, email.value, name.GetOr(""), "user", SsoOnly), identity,
                           Link(Resolved(d, identity, email), email.value, e.at));
          }
        }
      case Register(email, name, role, password) => WithUserKeepsSound(d, email, name, role, password);
      case Edit(email, name, role) =>
        if email in d.users {
          EditKeepsSound(d, email, d.users[email].(name := name, role := role));
        }
      case AddProvider(provider) => UnlinkKeepsSound(d, provider);
      case DeleteProvider(provider) => UnlinkKeepsSound(d, provider);
    }
  }

  lemma {:induction false} AlwaysSound(history: seq<Event>)
    ensures Sound(DirectoryAfter(history))
  {
    if history != [] {
      AlwaysSound(history[..|history| - 1]);
      ApplyKeepsSound(DirectoryAfter(history[..|history| - 1]), history[|history| - 1]);
    }
  }

  // An account, once made, keeps its email and id for good.
  lemma {:induction false} UsersStay(history: seq<Event>, n: nat)
    requires n <= |history|
    ensures Keeps(DirectoryAfter(history[..n]), DirectoryAfter(history))
  {
    if n == |history| {
      assert history[..n] == history;
    } else {
      var before := history[..|history| - 1];
      assert before[..n] == history[..n];
      UsersStay(before, n);
      AlwaysSound(before);
      ApplyKeepsSound(DirectoryAfter(before), history[|history| - 1]);
    }
  }

  // ---------------------------------------------------------------- where an account's contents come from

  // The event that makes an account decides its password: single sign-on gives none.
  predicate GivesPassword(r: Request, email: string, password: Password) {
    match r
    case SignIn(_, address, _) => address == Some(email) && password == SsoOnly
    case Register(address, _, _, given) => address == email && password == given
    case Edit(_, _, _) => false
    case AddProvider(_) => false
    case DeleteProvider(_) => false
  }

  predicate GivesProfile(r: Request, email: string, name: string, role: string) {
    match r
    case SignIn(_, address, newName) => address == Some(email) && newName == Some(name) && role == "user"
    case Register(address, newName, newRole, _) => address == email && newName == name && newRole == role
    case Edit(address, newName, newRole) => address == email && newName == name && newRole == role
    case AddProvider(_) => false
    case DeleteProvider(_) => false
  }

  predicate Edits(r: Request, email: string) {
    r.Edit? && r.address == email
  }

  // The c-th event made this account, and the e-th, the same or the last edit since, gave it its name and role.
  ghost predicate MadeBy(history: seq<Event>, email: string, u: User, c: int, e: int) {
    && 0 <= c <= e < |history|
    && email !in DirectoryAfter(history[..c]).users
    && GivesPassword(history[c].request, email, u.password)
    && GivesProfile(history[e].request, email, u.name, u.role)
    && (c < e ==> Edits(history[e].request, email))
    && forall i :: e < i < |history| ==> !Edits(history[i].request, email)
  }

  // What one event does to one account.
  lemma EventOnAccount(d: Directory, e: Event, email: string)
    requires email in Apply(d, e).users
    ensures var u := Apply(d, e).users[email];
            if email !in d.users
            then GivesPassword(e.request, email, u.password) && GivesProfile(e.request, email, u.name, u.role)
            else if Edits(e.request, email)
            then u.password == d.users[email].password && GivesProfile(e.request, email, u.name, u.role)
            else u == d.users[email]
  {
    hide LinksWithout, Resolved;
    match e.request {
      case SignIn(_, _, _) =>
      case Register(_, _, _, _) =>
      case Edit(_, _, _) =>
      case AddProvider(_) =>
      case DeleteProvider(_) =>
    }
  }

  /** In every history an account has the password its making gave it, and the name and role its making
      or its latest edit gave it. A sign-in that makes an account gives it the role "user" and no
      password. */
  lemma {:induction false} AccountsAreAsMade(history: seq<Event>, email: string)
    requires email in DirectoryAfter(history).users
    ensures exists c, e :: MadeBy(history, email, DirectoryAfter(history).users[email], c, e)
  {
    var n := |history| - 1;
    var before := history[..n];
    var u := DirectoryAfter(history).users[email];
    EventOnAccount(DirectoryAfter(before), history[n], email);
    if email !in DirectoryAfter(before).users {
      hide Apply, GivesProfile, GivesPassword;
      assert MadeBy(history, email, u, n, n);
    } else {
      AccountsAreAsMade(before, email);
      var c, e :| MadeBy(before, email, DirectoryAfter(before).users[email], c, e);
      assert before[..c] == history[..c];
      hide DirectoryAfter, Apply, GivesProfile, GivesPassword;
      assert MadeBy(history, email, u, c, if Edits(history[n].request, email) then n else e);
    }
  }

  /** So nobody gets a role other than "user", or a password, by signing in from outside: a registration
      or an edit gave the role, a registration the password. */
  lemma {:induction false} SignInsGiveNoPrivilege(history: seq<Event>, email: string)
    requires email in DirectoryAfter(history).users
    ensures var u := DirectoryAfter(history).users[email];
            && (u.role != "user" ==>
                  exists i :: && 0 <= i < |history| && (history[i].request.Register? || history[i].request.Edit?)
                              && history[i].request.address == email && history[i].request.role == u.role)
            && (u.password != SsoOnly ==>
                  exists i :: && 0 <= i < |history| && history[i].request.Register?
                              && history[i].request.address == email && history[i].request.password == u.password)
  {
    AccountsAreAsMade(history, email);
    var c, e :| MadeBy(history, email, DirectoryAfter(history).users[email], c, e);
    hide DirectoryAfter;
  }

  // ---------------------------------------------------------------- which account a sign-in reaches

  lemma ShorterHistory(history: seq<Event>, identity: Identity, i: int, n: int)
    requires 0 <= n <= |history|
    ensures SignsIn(history[..n], i, identity) <==> i < n && SignsIn(history, i, identity)
    ensures forall j, p :: j <= n ==> (DeletedBetween(history[..n], i, j, p) <==> DeletedBetween(history, i, j, p))
  {
    assert 0 <= i < n ==> history[..n][..i] == history[..i];
    forall j, p | j <= n
      ensures DeletedBetween(history[..n], i, j, p) <==> DeletedBetween(history, i, j, p)
    {
      if DeletedBetween(history, i, j, p) {
        var m :| i < m < j && 0 <= m < |history| && history[m].request == DeleteProvider(p);
        assert history[..n][m].request == DeleteProvider(p);
      }
      if DeletedBetween(history[..n], i, j, p) {
        var m :| i < m < j && 0 <= m < n && history[..n][m].request == DeleteProvider(p);
        assert history[m].request == DeleteProvider(p);
      }
    }
  }

  // A deletion after every sign-in of an identity leaves it unlinked.
  lemma {:induction false} UnlinkedByDeletion(history: seq<Event>, identity: Identity)
    requires forall m :: SignsIn(history, m, identity) ==> DeletedBetween(history, m, |history|, identity.provider)
    ensures identity !in DirectoryAfter(history).links
  {
    if history == [] {
      return;
    }
    var n := |history| - 1;
    var before := history[..n];
    if history[n].request != DeleteProvider(identity.provider) {
      assert !DeletedBetween(history, n, |history|, identity.provider);
      assert !SignsIn(history, n, identity);
      forall m | SignsIn(before, m, identity)
        ensures DeletedBetween(before, m, n, identity.provider)
      {
        ShorterHistory(history, identity, m, n);
        assert DeletedBetween(history, m, |history|, identity.provider);
        assert DeletedBetween(history, m, n, identity.provider);
      }
      UnlinkedByDeletion(before, identity);
    }
  }

  // The link an identity's first sign-in makes stays, with that sign-in's email.
  lemma {:induction false} FirstSignInLinks(history: seq<Event>, identity: Identity, f: int)
    requires FirstSignIn(history, identity, f, |history|)
    ensures identity in DirectoryAfter(history).links
    ensures Some(DirectoryAfter(history).links[identity].email) == history[f].request.email
  {
    var n := |history| - 1;
    var before := history[..n];
    forall m
      ensures SignsIn(before, m, identity) <==> m < n && SignsIn(history, m, identity)
      ensures forall j :: j <= n ==>
                (DeletedBetween(before, m, j, identity.provider) <==> DeletedBetween(history, m, j, identity.provider))
    {
      ShorterHistory(history, identity, m, n);
    }
    if f == n {
      UnlinkedByDeletion(before, identity);
    } else {
      assert !DeletedBetween(history, f, n, identity.provider);
      assert history[n].request != DeleteProvider(identity.provider);
      FirstSignInLinks(before, identity, f);
    }
  }

  /** Every sign-in goes back to a first one, possibly itself. */
  lemma {:induction false} EverySignInHasAFirst(history: seq<Event>, i: int)
    requires SignInAt(history, i)
    ensures exists f :: f <= i && FirstBehind(history, f, i)
    decreases i
  {
    var identity := history[i].request.identity;
    if m :| m < i && SignsIn(history, m, identity) && !DeletedBetween(history, m, i, identity.provider) {
      EverySignInHasAFirst(history, m);
      var f :| f <= m && FirstBehind(history, f, m);
      assert !DeletedBetween(history, f, m + 1, identity.provider);
      assert history[m].request.SignIn? && history[i].request.SignIn?;
      assert !DeletedBetween(history, f, i + 1, identity.provider);
      assert FirstBehind(history, f, i);
    } else {
      assert !DeletedBetween(history, i, i + 1, identity.provider);
      assert FirstBehind(history, i, i);
    }
  }

  lemma FirstInPrefix(history: seq<Event>, f: int, i: int)
    requires FirstBehind(history, f, i)
    ensures FirstSignIn(history[..i + 1], history[i].request.identity, f, i + 1)
  {
    var identity, upto := history[i].request.identity, history[..i + 1];
    forall m
      ensures SignsIn(upto, m, identity) <==> m < i + 1 && SignsIn(history, m, identity)
      ensures forall j :: j <= i + 1 ==>
                (DeletedBetween(upto, m, j, identity.provider) <==> DeletedBetween(history, m, j, identity.provider))
    {
      ShorterHistory(history, identity, m, i + 1);
    }
    hide SignsIn, DeletedBetween;
  }

  // A sign-in leaves its identity linked to the user it resolved to.
  lemma SignInLinks(history: seq<Event>, i: int)
    requires SignInAt(history, i)
    ensures var links := DirectoryAfter(history[..i + 1]).links;
            history[i].request.identity in links && links[history[i].request.identity].user == UserAt(history, i)
  {
    assert history[..i + 1][..i] == history[..i];
    assert DirectoryAfter(history[..i + 1]) == Apply(DirectoryAfter(history[..i]), history[i]);
  }

  // A sign-in resolves to the account filed under its identity's first email, for good.
  lemma ResolvesToFirstEmail(history: seq<Event>, f: int, i: int)
    requires FirstBehind(history, f, i)
    ensures var users := DirectoryAfter(history).users;
            var email := history[f].request.email;
            email.Some? && email.value in users && users[email.value].id == UserAt(history, i)
  {
    FirstInPrefix(history, f, i);
    SignInLinks(history, i);
    hide DirectoryAfter, Resolved, Refused, LinksWithout, DeletedBetween;
    FirstSignInLinks(history[..i + 1], history[i].request.identity, f);
    AlwaysSound(history[..i + 1]);
    UsersStay(history, i + 1);
    assert history[..i + 1][f] == history[f];
  }

  /** Two sign-ins, however far apart and whatever happens between them, land in the same
      account if and only if their identities' first sign-ins brought the same email. Whatever
      email a later sign-in brings is ignored; identities that first came without an email, which
      counts as the empty one, all share one account. */
  lemma SameAccountIffSameFirstEmail(history: seq<Event>, i: int, j: int, f: int, g: int)
    requires FirstBehind(history, f, i)
    requires FirstBehind(history, g, j)
    ensures UserAt(history, i) == UserAt(history, j) <==> history[f].request.email == history[g].request.email
  {
    ResolvesToFirstEmail(history, f, i);
    ResolvesToFirstEmail(history, g, j);
    AlwaysSound(history);
  }

  /** Each account is created by at most one sign-in, and none signed in to it before. */
  lemma AccountsAreCreatedOnce(history: seq<Event>, i: int, j: int)
    requires SignInAt(history, i) && CreatedAt(history, j) && i < j
    ensures UserAt(history, i) != UserAt(history, j)
  {
    var before := history[..j];
    SignInLinks(history, i);
    assert before[..i + 1] == history[..i + 1];
    AlwaysSound(history[..i + 1]);
    UsersStay(before, i + 1);
    AlwaysSound(before);
  }
}

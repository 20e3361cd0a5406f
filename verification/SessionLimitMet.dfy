/** The bounds of RefreshSessions are met: for every limit, and every number of requests in flight,
    single-sign-on tokens, stale rotations and escapes, some run has exactly that many sessions. */
module SessionLimitMet {
  import opened Common
  import opened AccessTokens
  import opened RefreshSessions

  // ---------------------------------------------------------------- the limit is met

  lemma {:induction false} Snoc(s: State, steps: seq<Step>, step: Step, g: Settings, user: UserId, k: nat)
    requires Run(s, steps, g) && OwedAtMost(s, steps, g, user, k)
    requires Enabled(After(s, steps, g), step) && Owed(Apply(After(s, steps, g), step, g), user) <= k
    ensures Run(s, steps + [step], g) && OwedAtMost(s, steps + [step], g, user, k)
    ensures After(s, steps + [step], g) == Apply(After(s, steps, g), step, g)
    decreases |steps|
  {
    hide Apply, Enabled, Owed;
    if steps == [] {
      assert [] + [step] == [step] && [step][1..] == [];
      assert Run(Apply(s, step, g), [], g) && OwedAtMost(Apply(s, step, g), [], g, user, k);
    } else {
      assert (steps + [step])[0] == steps[0] && (steps + [step])[1..] == steps[1..] + [step];
      Snoc(Apply(s, steps[0], g), steps[1..], step, g, user, k);
    }
  }

  // How many single-sign-on tokens a run stores.
  function SsoStores(steps: seq<Step>): nat {
    if steps == [] then 0
    else SsoStores(steps[..|steps| - 1]) + (if steps[|steps| - 1].event.SsoStore? then 1 else 0)
  }

  // Some run from the empty tables, within k owed tokens and with this many single sign-ons, ends here.
  ghost predicate Reached(s: State, g: Settings, user: UserId, k: nat, sso: nat) {
    exists steps :: && Run(EMPTY, steps, g) && OwedAtMost(EMPTY, steps, g, user, k)
                    && After(EMPTY, steps, g) == s && SsoStores(steps) == sso
  }

  lemma StepReaches(s: State, step: Step, g: Settings, user: UserId, k: nat, sso: nat)
    requires Reached(s, g, user, k, sso) && Enabled(s, step) && Owed(Apply(s, step, g), user) <= k
    ensures Reached(Apply(s, step, g), g, user, k, sso + (if step.event.SsoStore? then 1 else 0))
  {
    hide Apply, Enabled, Owed;
    var steps :| && Run(EMPTY, steps, g) && OwedAtMost(EMPTY, steps, g, user, k)
                 && After(EMPTY, steps, g) == s && SsoStores(steps) == sso;
    Snoc(EMPTY, steps, step, g, user, k);
    assert (steps + [step])[..|steps + [step]| - 1] == steps;
    assert SsoStores(steps + [step]) == sso + (if step.event.SsoStore? then 1 else 0);
  }

  lemma EmptyIsReached(g: Settings, user: UserId, k: nat)
    ensures Reached(EMPTY, g, user, k, 0)
  {
    assert LoginsOf(EMPTY.logins, user) == {};
    assert Run(EMPTY, [], g) && OwedAtMost(EMPTY, [], g, user, k) && After(EMPTY, [], g) == EMPTY && SsoStores([]) == 0;
  }

  // The c-th token, named by its length.
  function Token_(c: nat): Digest {
    Digest(seq(c, _ => 'x'))
  }

  // Only this user's tokens, all stored at instant 0, and none numbered c or higher.
  ghost predicate Plain(s: State, user: UserId, g: Settings, c: nat) {
    && (forall h :: h in s.tokens ==>
          |h.preimage| < c && s.tokens[h].user == user && s.tokens[h].createdAt == 0
          && s.tokens[h].expiresAt == g.refreshLifetime)
    && (forall id :: id in s.logins ==> id < s.next && s.logins[id].user == user)
    && LastOf(s.last, user).id < s.next
  }

  lemma {:induction false} SomeOrder(live: set<Digest>) returns (order: seq<Digest>)
    ensures Lists(order, live)
    decreases |live|
  {
    if live == {} {
      order := [];
    } else {
      var h :| h in live;
      var rest := SomeOrder(live - {h});
      order := rest + [h];
      assert forall x :: x in order <==> x in rest || x == h;
    }
  }

  lemma PlainOrder(s: State, user: UserId, g: Settings, c: nat) returns (order: seq<Digest>)
    requires Plain(s, user, g, c)
    ensures NewestFirstSessions(order, s.tokens, user) && |order| == |Live(s.tokens, user)|
  {
    order := SomeOrder(Live(s.tokens, user));
    ListedCardinality(order, Live(s.tokens, user));
    assert forall i :: 0 <= i < |order| ==> order[i] in Live(s.tokens, user);
  }

  // A login selects what order lists, and picks its tail.
  lemma Selects(s: State, user: UserId, g: Settings, c: nat, k: nat, sso: nat, order: seq<Digest>, picked: set<Digest>)
    requires Plain(s, user, g, c) && Reached(s, g, user, k, sso) && Owed(s, user) < k
    requires NewestFirstSessions(order, s.tokens, user) && picked == set h | h in Excess(order, g.max)
    ensures var s' := s.(logins := s.logins[s.next := Request(user, Some(picked), 0)], next := s.next + 1);
            && Plain(s', user, g, c) && Reached(s', g, user, k, sso) && Owed(s', user) == Owed(s, user) + 1
  {
    var select := Step(0, Select(user, order));
    var s' := s.(logins := s.logins[s.next := Request(user, Some(picked), 0)], next := s.next + 1);
    LoginsAfterAdd(s.logins, s.next, Request(user, Some(picked), 0), user);
    assert Apply(s, select, g) == s';
    StepReaches(s, select, g, user, k, sso);
  }

  // A login that picked nothing more than is revoked already flags it.
  lemma Flags(s: State, user: UserId, g: Settings, c: nat, k: nat, sso: nat, id: nat)
    requires Plain(s, user, g, c) && Reached(s, g, user, k, sso) && Owed(s, user) <= k
    requires id in s.logins && s.logins[id].picked.Some? && LastOf(s.last, user).id < id
    requires forall h :: h in s.logins[id].picked.value ==> Spent(s.tokens, h)
    ensures var r := s.logins[id];
            var s' := s.(logins := s.logins[id := r.(picked := None)], last := s.last[user := Enforcement(id, r.surplus)]);
            Plain(s', user, g, c) && Reached(s', g, user, k, sso) && Owed(s', user) == Owed(s, user)
  {
    var flag := Step(0, Flag(id));
    assert Revoke(s.tokens, s.logins[id].picked.value) == s.tokens;
    assert LoginsOf(Flagged(s, id).logins, user) == LoginsOf(s.logins, user);
    hide Revoke, Live;
    StepReaches(s, flag, g, user, k, sso);
  }

  // A login selects below the limit and flags nothing; it now owes a token.
  lemma LoginOwes(s: State, user: UserId, g: Settings, c: nat, k: nat, sso: nat) returns (s': State)
    requires Plain(s, user, g, c) && Reached(s, g, user, k, sso)
    requires |Live(s.tokens, user)| < g.max && Owed(s, user) < k
    ensures Plain(s', user, g, c) && Reached(s', g, user, k, sso) && Owed(s', user) == Owed(s, user) + 1
    ensures s' == s.(logins := s.logins[s.next := Request(user, None, 0)], next := s.next + 1,
                     last := s.last[user := Enforcement(s.next, 0)])
  {
    var order := PlainOrder(s, user, g, c);
    assert (set h | h in Excess(order, g.max)) == {};
    Selects(s, user, g, c, k, sso, order, {});
    var s1 := s.(logins := s.logins[s.next := Request(user, Some({}), 0)], next := s.next + 1);
    Flags(s1, user, g, c, k, sso, s.next);
    s' := s.(logins := s.logins[s.next := Request(user, None, 0)], next := s.next + 1,
             last := s.last[user := Enforcement(s.next, 0)]);
    assert s1.logins[s.next := Request(user, None, 0)] == s'.logins;
  }

  lemma PlainAfterStore(s: State, s': State, user: UserId, g: Settings, c: nat)
    requires Plain(s, user, g, c) && s'.tokens == s.tokens[Token_(c) := Issued(user, 0, g)]
    requires s'.next == s.next && LastOf(s'.last, user).id == LastOf(s.last, user).id
    requires forall id :: id in s'.logins ==> id in s.logins && s'.logins[id].user == s.logins[id].user
    ensures Plain(s', user, g, c + 1)
    ensures Token_(c) !in s.tokens && Live(s'.tokens, user) == Live(s.tokens, user) + {Token_(c)}
    ensures |Live(s'.tokens, user)| == |Live(s.tokens, user)| + 1
  {
    assert |Token_(c).preimage| == c;
    LiveAfterStore(s.tokens, Token_(c), Issued(user, 0, g), user);
  }

  // The login numbered last stores its token.
  lemma LoginPays(s: State, user: UserId, g: Settings, c: nat, k: nat, sso: nat, id: nat) returns (s': State)
    requires Plain(s, user, g, c) && Reached(s, g, user, k, sso) && Owed(s, user) <= k
    requires id in s.logins && s.logins[id].picked.None?
    ensures Plain(s', user, g, c + 1) && Reached(s', g, user, k, sso)
    ensures s' == s.(tokens := s.tokens[Token_(c) := Issued(user, 0, g)], logins := s.logins - {id})
    ensures |Live(s'.tokens, user)| == |Live(s.tokens, user)| + 1 && Owed(s', user) == Owed(s, user) - 1
  {
    s' := s.(tokens := s.tokens[Token_(c) := Issued(user, 0, g)], logins := s.logins - {id});
    PlainAfterStore(s, s', user, g, c);
    LoginsAfterRemove(s.logins, id, user);
    assert id in LoginsOf(s.logins, user);
    var step := Step(0, StoreLogin(id, Token_(c)));
    assert Enabled(s, step) && Apply(s, step, g) == s';
    hide Apply, Enabled;
    StepReaches(s, step, g, user, k, sso);
  }

  // ---------------------------------------------------------------- phases

  ghost predicate Resting(s: State) {
    s.validated == multiset{} && s.rotated == multiset{}
  }

  // m more logins owe a token each.
  lemma {:induction false} LoginsOwe(s: State, user: UserId, g: Settings, c: nat, k: nat, m: nat) returns (s': State)
    requires Plain(s, user, g, c) && Reached(s, g, user, k, 0) && Resting(s)
    requires |Live(s.tokens, user)| < g.max && Owed(s, user) + m <= k
    requires forall id :: id in s.logins ==> s.logins[id].picked.None?
    ensures Plain(s', user, g, c) && Reached(s', g, user, k, 0) && Resting(s')
    ensures s'.tokens == s.tokens && Owed(s', user) == Owed(s, user) + m
    ensures forall id :: id in s'.logins ==> s'.logins[id].picked.None?
    ensures LastOf(s'.last, user).surplus == if m == 0 then LastOf(s.last, user).surplus else 0
    decreases m
  {
    s' := s;
    if m > 0 {
      var s1 := LoginOwes(s, user, g, c, k, 0);
      s' := LoginsOwe(s1, user, g, c, k, m - 1);
    }
  }

  // All logins store.
  lemma {:induction false} LoginsPay(s: State, user: UserId, g: Settings, c: nat, k: nat) returns (s': State, c': nat)
    requires Plain(s, user, g, c) && Reached(s, g, user, k, 0) && Resting(s) && Owed(s, user) <= k
    requires forall id :: id in s.logins ==> s.logins[id].picked.None?
    ensures Plain(s', user, g, c') && Reached(s', g, user, k, 0) && Resting(s')
    ensures s'.logins == map[] && s'.last == s.last
    ensures |Live(s'.tokens, user)| == |Live(s.tokens, user)| + Owed(s, user)
    decreases |s.logins|
  {
    if s.logins == map[] {
      assert LoginsOf(s.logins, user) == {};
      s', c' := s, c;
    } else {
      var id :| id in s.logins;
      var s1 := LoginPays(s, user, g, c, k, 0, id);
      assert |s1.logins| < |s.logins| by {
        assert s1.logins.Keys == s.logins.Keys - {id};
        assert |s1.logins.Keys| == |s1.logins| && |s.logins.Keys| == |s.logins|;
      }
      s', c' := LoginsPay(s1, user, g, c + 1, k);
    }
  }

  // Logins in flight, but for their surplus.
  ghost predicate SameLogins(s: State, s': State) {
    && s'.next == s.next && s'.logins.Keys == s.logins.Keys
    && forall id :: id in s.logins ==> s'.logins[id].user == s.logins[id].user && s'.logins[id].picked == s.logins[id].picked
  }

  // m single sign-ons.
  lemma {:induction false} SsosStore(s: State, user: UserId, g: Settings, c: nat, k: nat, sso: nat, m: nat)
    returns (s': State, c': nat)
    requires Plain(s, user, g, c) && Reached(s, g, user, k, sso) && Resting(s) && Owed(s, user) <= k
    ensures Plain(s', user, g, c') && Reached(s', g, user, k, sso + m) && Resting(s') && SameLogins(s, s')
    ensures Owed(s', user) == Owed(s, user)
    ensures |Live(s'.tokens, user)| == |Live(s.tokens, user)| + m
    ensures LastOf(s'.last, user) == LastOf(s.last, user).(surplus := LastOf(s.last, user).surplus + m)
    decreases m
  {
    s', c' := s, c;
    if m > 0 {
      var s1 := SsoStoresOne(s, user, g, c, k, sso);
      s', c' := SsosStore(s1, user, g, c + 1, k, sso + 1, m - 1);
    }
  }

  lemma SsoStoresOne(s: State, user: UserId, g: Settings, c: nat, k: nat, sso: nat) returns (s': State)
    requires Plain(s, user, g, c) && Reached(s, g, user, k, sso) && Resting(s) && Owed(s, user) <= k
    ensures Plain(s', user, g, c + 1) && Reached(s', g, user, k, sso + 1) && Resting(s') && SameLogins(s, s')
    ensures Owed(s', user) == Owed(s, user)
    ensures |Live(s'.tokens, user)| == |Live(s.tokens, user)| + 1
    ensures LastOf(s'.last, user) == LastOf(s.last, user).(surplus := LastOf(s.last, user).surplus + 1)
  {
    var step := Step(0, SsoStore(user, Token_(c)));
    s' := CountForAll(s, user).(tokens := s.tokens[Token_(c) := Issued(user, 0, g)]);
    PlainAfterStore(s, s', user, g, c);
    assert LoginsOf(s'.logins, user) == LoginsOf(s.logins, user);
    hide Plain, Live, LoginsOf, CountForAll;
    assert Enabled(s, step) && Apply(s, step, g) == s';
    hide Apply, Enabled;
    StepReaches(s, step, g, user, k, sso);
  }

  // A token is validated m more times.
  lemma {:induction false} Validates(s: State, user: UserId, g: Settings, c: nat, k: nat, sso: nat, h: Digest, m: nat)
    requires Plain(s, user, g, c) && Reached(s, g, user, k, sso) && Owed(s, user) <= k && Valid(s.tokens, h, 0)
    ensures var s' := s.(validated := s.validated[h := s.validated[h] + m]);
            Plain(s', user, g, c) && Reached(s', g, user, k, sso) && Owed(s', user) == Owed(s, user)
    decreases m
  {
    var s' := s.(validated := s.validated[h := s.validated[h] + m]);
    if m == 0 {
      assert s' == s;
    } else {
      var before := s.(validated := s.validated[h := s.validated[h] + (m - 1)]);
      Validates(s, user, g, c, k, sso, h, m - 1);
      assert Apply(before, Step(0, Validate(h)), g) == s';
      StepReaches(before, Step(0, Validate(h)), g, user, k, sso);
    }
  }

  lemma RotationStaysPlain(s: State, user: UserId, g: Settings, c: nat, h: Digest)
    requires Plain(s, user, g, c) && h in s.tokens
    ensures Plain(RotatedAway(s, h), user, g, c) && s.tokens[h].user == user
    ensures LoginsOf(RotatedAway(s, h).logins, user) == LoginsOf(s.logins, user)
  {
  }

  lemma Rotates(s: State, user: UserId, g: Settings, c: nat, k: nat, sso: nat, h: Digest)
    requires Plain(s, user, g, c) && Reached(s, g, user, k, sso) && Owed(s, user) < k
    requires h in s.validated && h in s.tokens
    ensures Plain(RotatedAway(s, h), user, g, c) && Reached(RotatedAway(s, h), g, user, k, sso)
    ensures Owed(RotatedAway(s, h), user) == Owed(s, user) + 1
  {
    RotationStaysPlain(s, user, g, c, h);
    hide Revoke, CountForAll, CountForPickers, Plain, Live, LoginsOf;
    StepReaches(s, Step(0, Rotate(h)), g, user, k, sso);
  }

  lemma StoresRefresh(s: State, user: UserId, g: Settings, c: nat, k: nat, sso: nat)
    requires Plain(s, user, g, c) && Reached(s, g, user, k, sso) && Owed(s, user) <= k && user in s.rotated
    ensures var s' := s.(tokens := s.tokens[Token_(c) := Issued(user, 0, g)], rotated := s.rotated - multiset{user});
            && Plain(s', user, g, c + 1) && Reached(s', g, user, k, sso) && Owed(s', user) == Owed(s, user) - 1
            && Token_(c) !in s.tokens && Live(s'.tokens, user) == Live(s.tokens, user) + {Token_(c)}
  {
    var s' := s.(tokens := s.tokens[Token_(c) := Issued(user, 0, g)], rotated := s.rotated - multiset{user});
    PlainAfterStore(s, s', user, g, c);
    var store := Step(0, StoreRefresh(user, Token_(c)));
    hide Plain, Live, LoginsOf;
    assert Enabled(s, store) && Apply(s, store, g) == s';
    StepReaches(s, store, g, user, k, sso);
  }

  // A validated token is rotated, and the refresh stores its successor.
  lemma RotatesAndStores(s: State, user: UserId, g: Settings, c: nat, k: nat, sso: nat, h: Digest) returns (s': State)
    requires Plain(s, user, g, c) && Reached(s, g, user, k, sso) && Owed(s, user) < k
    requires h in s.validated && h in s.tokens
    ensures Plain(s', user, g, c + 1) && Reached(s', g, user, k, sso) && Owed(s', user) == Owed(s, user)
    ensures var counted := if s.tokens[h].revoked then CountForAll(s, user) else CountForPickers(s, h);
            s' == counted.(tokens := Revoke(s.tokens, {h})[Token_(c) := Issued(user, 0, g)],
                           validated := s.validated - multiset{h})
    ensures Live(s'.tokens, user) == (Live(s.tokens, user) - {h}) + {Token_(c)} && Token_(c) !in s.tokens
  {
    var s1 := RotatedAway(s, h);
    Rotates(s, user, g, c, k, sso, h);
    assert s.tokens[h].user == user;
    assert s1.rotated - multiset{user} == s.rotated;
    StoresRefresh(s1, user, g, c, k, sso);
    s' := s1.(tokens := s1.tokens[Token_(c) := Issued(user, 0, g)], rotated := s.rotated);
    LiveAfterRevoke(s.tokens, {h}, user);
    hide Plain, Live, LoginsOf, CountForAll, CountForPickers;
  }

  // m rotations of a token that is revoked already, each storing another one.
  lemma {:induction false} StaleRotations(s: State, user: UserId, g: Settings, c: nat, k: nat, sso: nat, h: Digest, m: nat)
    returns (s': State, c': nat)
    requires Plain(s, user, g, c) && Reached(s, g, user, k, sso) && Owed(s, user) < k && s.logins == map[]
    requires Spent(s.tokens, h) && s.validated == multiset{}[h := m]
    ensures Plain(s', user, g, c') && Reached(s', g, user, k, sso)
    ensures |Live(s'.tokens, user)| == |Live(s.tokens, user)| + m
    ensures LastOf(s'.last, user).surplus == LastOf(s.last, user).surplus + m
    decreases m
  {
    s', c' := s, c;
    if m > 0 {
      var s1 := RotatesAndStores(s, user, g, c, k, sso, h);
      assert h !in Live(s.tokens, user);
      assert s1.validated == multiset{}[h := m - 1] && s1.logins == map[];
      assert Spent(s1.tokens, h) by { assert h != Token_(c); }
      s', c' := StaleRotations(s1, user, g, c + 1, k, sso, h, m - 1);
    }
  }

  lemma PlainIsUnexpired(s: State, user: UserId, g: Settings, c: nat)
    requires Plain(s, user, g, c) && g.refreshLifetime > 0
    ensures forall h :: h in Live(s.tokens, user) ==> Valid(s.tokens, h, 0)
  {
  }

  // A live token is validated m + 1 times and rotated once.
  lemma LiveTokenRotated(s: State, user: UserId, g: Settings, c: nat, k: nat, sso: nat, h: Digest, m: nat)
    returns (s': State)
    requires Plain(s, user, g, c) && Reached(s, g, user, k, sso) && Resting(s) && Owed(s, user) < k
    requires h in Live(s.tokens, user) && g.refreshLifetime > 0
    ensures Plain(s', user, g, c + 1) && Reached(s', g, user, k, sso) && Owed(s', user) == Owed(s, user)
    ensures s'.validated == multiset{}[h := m] && s'.rotated == multiset{}
    ensures s'.logins == CountForPickers(s, h).logins && s'.last == s.last && s'.next == s.next
    ensures s'.tokens == Revoke(s.tokens, {h})[Token_(c) := Issued(user, 0, g)] && Spent(s'.tokens, h)
    ensures |Live(s'.tokens, user)| == |Live(s.tokens, user)|
  {
    hide Plain, Reached, Owed;
    assert Valid(s.tokens, h, 0) by { PlainIsUnexpired(s, user, g, c); }
    Validates(s, user, g, c, k, sso, h, m + 1);
    var s1 := s.(validated := s.validated[h := m + 1]);
    s' := RotatesAndStores(s1, user, g, c, k, sso, h);
    assert h != Token_(c) && Token_(c) !in Live(s.tokens, user) - {h};
    assert CountForPickers(s1, h).logins == CountForPickers(s, h).logins;
    hide CountForPickers, CountForAll;
    assert s1.validated - multiset{h} == multiset{}[h := m];
  }

  // One token validated m + 1 times is rotated as often, m times after it was revoked.
  lemma OneTokenRotatedAgainAndAgain(s: State, user: UserId, g: Settings, c: nat, k: nat, sso: nat, m: nat)
    returns (s': State, c': nat)
    requires Plain(s, user, g, c) && Reached(s, g, user, k, sso) && Resting(s) && s.logins == map[]
    requires Live(s.tokens, user) != {} && g.refreshLifetime > 0 && k >= 1
    ensures Plain(s', user, g, c') && Reached(s', g, user, k, sso)
    ensures |Live(s'.tokens, user)| == |Live(s.tokens, user)| + m
    ensures LastOf(s'.last, user).surplus == LastOf(s.last, user).surplus + m
  {
    var h :| h in Live(s.tokens, user);
    assert LoginsOf(s.logins, user) == {};
    var s1 := LiveTokenRotated(s, user, g, c, k, sso, h, m);
    s', c' := StaleRotations(s1, user, g, c + 1, k, sso, h, m);
  }

  // max - 1 logins, one after the other.
  lemma {:induction false} FilledUp(user: UserId, g: Settings, k: nat, m: nat) returns (s: State, c: nat)
    requires k >= 1 && m < g.max
    ensures Plain(s, user, g, c) && Reached(s, g, user, k, 0) && Resting(s) && s.logins == map[]
    ensures |Live(s.tokens, user)| == m && LastOf(s.last, user).surplus == 0
    decreases m
  {
    if m == 0 {
      s, c := EMPTY, 0;
      EmptyIsReached(g, user, k);
      assert Live(EMPTY.tokens, user) == {};
    } else {
      var s0, c0 := FilledUp(user, g, k, m - 1);
      assert LoginsOf(s0.logins, user) == {};
      var s1 := LoginsOwe(s0, user, g, c0, k, 1);
      s, c := LoginsPay(s1, user, g, c0, k);
    }
  }

  /** The session bound is met exactly: for every limit max >= 1, every k >= 1, every i and every n,
      some run with no more than k owed tokens, i single sign-ons and a surplus of i + n, hence n
      stale rotations, ends with max - 1 + k + i + n live sessions. */
  lemma SessionBoundIsMet(g: Settings, user: UserId, k: nat, i: nat, n: nat)
    requires g.max >= 1 && k >= 1 && g.refreshLifetime > 0
    ensures exists steps ::
              && Run(EMPTY, steps, g) && OwedAtMost(EMPTY, steps, g, user, k) && SsoStores(steps) == i
              && LastOf(After(EMPTY, steps, g).last, user).surplus == i + n
              && |Live(After(EMPTY, steps, g).tokens, user)| == g.max - 1 + k + i + n
  {
    var s0, c0 := FilledUp(user, g, k, g.max - 1);
    assert LoginsOf(s0.logins, user) == {};
    var s1 := LoginsOwe(s0, user, g, c0, k, k);
    var s2, c2 := LoginsPay(s1, user, g, c0, k);
    assert LoginsOf(s2.logins, user) == {};
    var s3, c3 := SsosStore(s2, user, g, c2, k, 0, i);
    var s4, c4 := OneTokenRotatedAgainAndAgain(s3, user, g, c3, k, i, n);
    var steps :| && Run(EMPTY, steps, g) && OwedAtMost(EMPTY, steps, g, user, k)
                 && After(EMPTY, steps, g) == s4 && SsoStores(steps) == i;
  }

  // ---------------------------------------------------------------- escapes

  // A token that a login has picked and not yet flagged is refreshed.
  lemma TokenEscapes(s: State, user: UserId, g: Settings, c: nat, k: nat, sso: nat, id: nat, h: Digest)
    returns (s': State)
    requires Plain(s, user, g, c) && Reached(s, g, user, k, sso) && Resting(s) && Owed(s, user) < k && g.refreshLifetime > 0
    requires id in s.logins && Picks(s.logins[id], h) && h in Live(s.tokens, user)
    ensures Plain(s', user, g, c + 1) && Reached(s', g, user, k, sso) && Resting(s') && SameLogins(s, s')
    ensures Owed(s', user) == Owed(s, user) && s'.last == s.last && s'.logins[id] == Counted(s.logins[id])
    ensures |Live(s'.tokens, user)| == |Live(s.tokens, user)| && Live(s.tokens, user) - {h} <= Live(s'.tokens, user)
    ensures Spent(s'.tokens, h) && forall x :: Spent(s.tokens, x) ==> Spent(s'.tokens, x)
  {
    s' := LiveTokenRotated(s, user, g, c, k, sso, h, 0);
    assert s'.validated == multiset{};
    TokenIsNew(s, user, g, c);
    hide Plain;
    LiveAfterRevoke(s.tokens, {h}, user);
    LiveAfterStore(Revoke(s.tokens, {h}), Token_(c), Issued(user, 0, g), user);
    forall x | Spent(s.tokens, x)
      ensures Spent(s'.tokens, x)
    {
      assert x != Token_(c);
    }
  }

  // All it has picked are refreshed, one by one.
  lemma {:induction false} TokensEscape(s: State, user: UserId, g: Settings, c: nat, k: nat, sso: nat, id: nat, left: set<Digest>)
    returns (s': State, c': nat)
    requires Plain(s, user, g, c) && Reached(s, g, user, k, sso) && Resting(s) && Owed(s, user) < k && g.refreshLifetime > 0
    requires id in s.logins && s.logins[id].picked.Some? && left <= s.logins[id].picked.value
    requires left <= Live(s.tokens, user)
    ensures Plain(s', user, g, c') && Reached(s', g, user, k, sso) && Resting(s') && SameLogins(s, s')
    ensures Owed(s', user) == Owed(s, user) && s'.last == s.last && s'.logins[id].surplus == s.logins[id].surplus + |left|
    ensures |Live(s'.tokens, user)| == |Live(s.tokens, user)|
    ensures forall h :: h in left || Spent(s.tokens, h) ==> Spent(s'.tokens, h)
    decreases |left|
  {
    hide Plain, Live, Spent, Owed;
    s', c' := s, c;
    if left != {} {
      var h :| h in left;
      var s1 := TokenEscapes(s, user, g, c, k, sso, id, h);
      assert left - {h} <= Live(s1.tokens, user);
      s', c' := TokensEscape(s1, user, g, c + 1, k, sso, id, left - {h});
    }
  }

  lemma TailPicked(order: seq<Digest>, live: set<Digest>, max: int, e: nat) returns (picked: set<Digest>)
    requires Lists(order, live) && max >= 1 && |order| == max - 1 + e
    ensures picked == (set h | h in Excess(order, max)) && |picked| == e && picked <= live
  {
    var rest := order[max - 1..];
    picked := set h | h in Excess(order, max);
    assert Excess(order, max) == rest;
    ListedCardinality(rest, picked);
    assert forall h :: h in rest ==> h in order;
  }

  // A login selects max - 1 + e sessions, and picks e of them.
  lemma PicksTheRest(s: State, user: UserId, g: Settings, c: nat, k: nat, sso: nat, e: nat)
    returns (s': State, picked: set<Digest>)
    requires Plain(s, user, g, c) && Reached(s, g, user, k, sso) && Owed(s, user) < k
    requires g.max >= 1 && |Live(s.tokens, user)| == g.max - 1 + e
    ensures s' == s.(logins := s.logins[s.next := Request(user, Some(picked), 0)], next := s.next + 1)
    ensures Plain(s', user, g, c) && Reached(s', g, user, k, sso) && Owed(s', user) == Owed(s, user) + 1
    ensures |picked| == e && picked <= Live(s.tokens, user)
  {
    var order := PlainOrder(s, user, g, c);
    picked := TailPicked(order, Live(s.tokens, user), g.max, e);
    hide Plain, Owed, Live, Excess;
    Selects(s, user, g, c, k, sso, order, picked);
    s' := s.(logins := s.logins[s.next := Request(user, Some(picked), 0)], next := s.next + 1);
  }

  // One login owes a token, and e single sign-ons follow.
  lemma OneOwesAndManySignIn(g: Settings, user: UserId, e: nat) returns (s: State, c: nat, id: nat)
    requires g.max >= 1
    ensures Plain(s, user, g, c) && Reached(s, g, user, 2, e) && Resting(s) && Owed(s, user) == 1
    ensures s.logins.Keys == {id} && s.logins[id].picked.None? && id < s.next
    ensures |Live(s.tokens, user)| == g.max - 1 + e
  {
    var s0, c0 := FilledUp(user, g, 2, g.max - 1);
    assert LoginsOf(s0.logins, user) == {};
    var s1 := LoginOwes(s0, user, g, c0, 2, 0);
    id := s0.next;
    hide Plain, Live, Reached, Owed;
    s, c := SsosStore(s1, user, g, c0, 2, 0, e);
  }

  // Another login picks e tokens; then the first stores.
  lemma EscapeIsSetUp(g: Settings, user: UserId, e: nat) returns (s: State, c: nat, id: nat, picked: set<Digest>)
    requires g.max >= 1
    ensures Plain(s, user, g, c) && Reached(s, g, user, 2, e) && Resting(s) && Owed(s, user) == 1
    ensures s.logins == map[id := Request(user, Some(picked), 0)] && LastOf(s.last, user).id < id
    ensures |picked| == e && picked <= Live(s.tokens, user) && |Live(s.tokens, user)| == g.max + e
  {
    var s1, c1, elder := OneOwesAndManySignIn(g, user, e);
    assert LastOf(s1.last, user).id < s1.next;
    hide Plain, Live, Reached, Owed;
    var s2;
    s2, picked := PicksTheRest(s1, user, g, c1, 2, e, e);
    id, c := s1.next, c1 + 1;
    s := LoginPays(s2, user, g, c1, 2, e, elder);
    TokenIsNew(s2, user, g, c1);
    LiveAfterStore(s2.tokens, Token_(c1), Issued(user, 0, g), user);
  }

  /** The escape term is met too: for every limit and every e, some run with no more than two owed
      tokens and a surplus of e, all of it refreshes that rotate a token the last login has picked
      and not yet flagged, ends with max - 1 + 2 + e live sessions. */
  lemma EscapesAreMet(g: Settings, user: UserId, e: nat)
    requires g.max >= 1 && g.refreshLifetime > 0
    ensures exists steps ::
              && Run(EMPTY, steps, g) && OwedAtMost(EMPTY, steps, g, user, 2)
              && LastOf(After(EMPTY, steps, g).last, user).surplus == e
              && |Live(After(EMPTY, steps, g).tokens, user)| == g.max - 1 + 2 + e
  {
    var s1, c1, id, picked := EscapeIsSetUp(g, user, e);
    hide Plain, Live;
    var s2, c2 := TokensEscape(s1, user, g, c1, 2, e, id, picked);
    Flags(s2, user, g, c2, 2, e, id);
    var r := s2.logins[id];
    var s3 := s2.(logins := s2.logins[id := r.(picked := None)], last := s2.last[user := Enforcement(id, r.surplus)]);
    var s4 := LoginPays(s3, user, g, c2, 2, e, id);
    var steps :| && Run(EMPTY, steps, g) && OwedAtMost(EMPTY, steps, g, user, 2)
                 && After(EMPTY, steps, g) == s4 && SsoStores(steps) == e;
  }

  lemma TokenIsNew(s: State, user: UserId, g: Settings, c: nat)
    requires Plain(s, user, g, c)
    ensures Token_(c) !in s.tokens
  {
    assert |Token_(c).preimage| == c;
  }

  // ---------------------------------------------------------------- logout and single handlers

  function LogoutMidRefresh(user: UserId, a: Digest, b: Digest, jti: string): seq<Step> {
    [Step(0, SsoStore(user, a)), Step(0, Validate(a)), Step(0, Blacklist(jti)), Step(0, RevokeSelected({a})),
     Step(0, Rotate(a)), Step(0, StoreRefresh(user, b))]
  }

  lemma UpToLogout(g: Settings, user: UserId, a: Digest, b: Digest, jti: string) returns (s: State)
    requires g.refreshLifetime > 0
    ensures var steps := LogoutMidRefresh(user, a, b, jti)[..4];
            && Run(EMPTY, steps, g) && After(EMPTY, steps, g) == s
            && s.tokens == map[a := Issued(user, 0, g).(revoked := true)]
            && s.validated == multiset{a} && s.logins == map[] && s.rotated == multiset{}
  {
    var steps := LogoutMidRefresh(user, a, b, jti);
    var s1 := Apply(EMPTY, steps[0], g);
    assert s1.tokens == map[a := Issued(user, 0, g)] && s1.logins == map[];
    var s2 := Apply(s1, steps[1], g);
    var s3 := Apply(s2, steps[2], g);
    s := Apply(s3, steps[3], g);
    assert s.tokens == map[a := Issued(user, 0, g).(revoked := true)];
    hide Apply, Enabled;
    Runs(s3, steps[3], [], g);
    Runs(s2, steps[2], [steps[3]], g);
    Runs(s1, steps[1], [steps[2], steps[3]], g);
    Runs(EMPTY, steps[0], [steps[1], steps[2], steps[3]], g);
    assert [steps[3]] + [] == [steps[3]] && [steps[2]] + [steps[3]] == [steps[2], steps[3]];
    assert [steps[1]] + [steps[2], steps[3]] == [steps[1], steps[2], steps[3]];
    assert steps[..4] == [steps[0]] + [steps[1], steps[2], steps[3]];
  }

  lemma PastLogout(s: State, g: Settings, user: UserId, a: Digest, b: Digest)
    requires s.tokens == map[a := Issued(user, 0, g).(revoked := true)] && a != b
    requires s.validated == multiset{a} && s.logins == map[] && s.rotated == multiset{}
    ensures var steps := [Step(0, Rotate(a)), Step(0, StoreRefresh(user, b))];
            Run(s, steps, g) && Live(After(s, steps, g).tokens, user) == {b}
  {
    var rotate, store := Step(0, Rotate(a)), Step(0, StoreRefresh(user, b));
    var s1 := Apply(s, rotate, g);
    assert s1.tokens == s.tokens && s1.rotated == multiset{user};
    var s2 := Apply(s1, store, g);
    assert Live(s2.tokens, user) == {b};
    hide Apply, Live;
    Runs(s1, store, [], g);
    Runs(s, rotate, [store], g);
    assert [store] + [] == [store] && [rotate] + [store] == [rotate, store];
  }

  lemma {:induction false} RunsJoin(s: State, first: seq<Step>, rest: seq<Step>, g: Settings)
    requires Run(s, first, g) && Run(After(s, first, g), rest, g)
    ensures Run(s, first + rest, g) && After(s, first + rest, g) == After(After(s, first, g), rest, g)
    decreases |first|
  {
    hide Apply, Enabled;
    if first == [] {
      assert first + rest == rest;
    } else {
      assert (first + rest)[0] == first[0] && (first + rest)[1..] == first[1..] + rest;
      RunsJoin(Apply(s, first[0], g), first[1..], rest, g);
    }
  }

  /** A refresh that validated its token before a logout and rotates it afterwards outlives the
      logout: the user is left with a live session. */
  lemma RefreshOutlivesLogout(g: Settings, user: UserId, a: Digest, b: Digest, jti: string)
    requires g.refreshLifetime > 0 && a != b
    ensures var steps := LogoutMidRefresh(user, a, b, jti);
            Run(EMPTY, steps, g) && Live(After(EMPTY, steps, g).tokens, user) == {b}
  {
    hide Apply, Enabled, Run, After, Live;
    var steps := LogoutMidRefresh(user, a, b, jti);
    var s := UpToLogout(g, user, a, b, jti);
    PastLogout(s, g, user, a, b);
    RunsJoin(EMPTY, steps[..4], steps[4..], g);
    assert steps[4..] == [Step(0, Rotate(a)), Step(0, StoreRefresh(user, b))];
    assert steps[..4] + steps[4..] == steps;
  }

  lemma Runs(s: State, step: Step, rest: seq<Step>, g: Settings)
    requires Enabled(s, step) && Run(Apply(s, step, g), rest, g)
    ensures Run(s, [step] + rest, g) && After(s, [step] + rest, g) == After(Apply(s, step, g), rest, g)
  {
    assert ([step] + rest)[1..] == rest;
  }

  lemma {:induction false} CallsSnoc(s: State, calls: seq<Call>, call: Call, g: Settings)
    requires AtomicRun(s, calls, g) && Run(AfterCalls(s, calls, g), Steps(AfterCalls(s, calls, g), call), g)
    ensures AtomicRun(s, calls + [call], g)
    ensures AfterCalls(s, calls + [call], g)
            == After(AfterCalls(s, calls, g), Steps(AfterCalls(s, calls, g), call), g)
    decreases |calls|
  {
    hide Run, Steps, After;
    if calls == [] {
      assert [] + [call] == [call] && [call][1..] == [];
    } else {
      assert (calls + [call])[0] == calls[0] && (calls + [call])[1..] == calls[1..] + [call];
      CallsSnoc(After(s, Steps(s, calls[0]), g), calls[1..], call, g);
    }
  }

  lemma {:induction false} SsoSnoc(sofar: nat, calls: seq<Call>, call: Call, user: UserId)
    ensures SsoSinceLogin(sofar, calls + [call], user) == SsoCount(SsoSinceLogin(sofar, calls, user), call, user)
    decreases |calls|
  {
    hide SsoCount;
    if calls == [] {
      assert [] + [call] == [call] && [call][1..] == [];
      assert SsoSinceLogin(SsoCount(sofar, call, user), [], user) == SsoCount(sofar, call, user);
    } else {
      assert (calls + [call])[0] == calls[0] && (calls + [call])[1..] == calls[1..] + [call];
      SsoSnoc(SsoCount(sofar, calls[0], user), calls[1..], call, user);
    }
  }

  // Some atomic run ends here, with this many single sign-ons since the last login.
  ghost predicate Called(s: State, g: Settings, user: UserId, sso: nat) {
    exists calls :: AtomicRun(EMPTY, calls, g) && AfterCalls(EMPTY, calls, g) == s && SsoSinceLogin(0, calls, user) == sso
  }

  lemma CallReaches(s: State, call: Call, g: Settings, user: UserId, sso: nat)
    requires Called(s, g, user, sso) && Run(s, Steps(s, call), g)
    ensures Called(After(s, Steps(s, call), g), g, user, SsoCount(sso, call, user))
  {
    hide Run, Steps, After;
    var calls :| AtomicRun(EMPTY, calls, g) && AfterCalls(EMPTY, calls, g) == s && SsoSinceLogin(0, calls, user) == sso;
    CallsSnoc(EMPTY, calls, call, g);
    SsoSnoc(0, calls, call, user);
  }

  lemma StoredWhileQuiet(s: State, s': State, user: UserId, g: Settings, c: nat)
    requires Plain(s, user, g, c) && Quiet(s') && s'.tokens == s.tokens[Token_(c) := Issued(user, 0, g)]
    ensures Plain(s', user, g, c + 1) && |Live(s'.tokens, user)| == |Live(s.tokens, user)| + 1
  {
    PlainAfterStore(s, s.(tokens := s'.tokens, logins := map[]), user, g, c);
    assert NumberedBelow(s'.last, s'.next);
    assert LastOf(s'.last, user).id < s'.next;
  }

  lemma LoginCalled(s: State, g: Settings, user: UserId, c: nat) returns (s': State)
    requires Called(s, g, user, 0) && Quiet(s) && Plain(s, user, g, c) && |Live(s.tokens, user)| < g.max
    ensures Called(s', g, user, 0) && Quiet(s') && Plain(s', user, g, c + 1)
    ensures |Live(s'.tokens, user)| == |Live(s.tokens, user)| + 1
  {
    var order := PlainOrder(s, user, g, c);
    var call := Call(0, Login(user, order, Token_(c)));
    LoginRuns(s, g, user, c, order);
    s' := After(s, Steps(s, call), g);
    StepsAmountToHandlers(s, call, g);
    CallReaches(s, call, g, user, 0);
    assert Enforced(s.tokens, order, g.max) == s.tokens by { assert Excess(order, g.max) == []; }
    hide Run, After, Enforced, Live, NewestFirstSessions, Called;
    StoredWhileQuiet(s, s', user, g, c);
  }

  lemma LoginRuns(s: State, g: Settings, user: UserId, c: nat, order: seq<Digest>)
    requires Quiet(s) && Plain(s, user, g, c) && |Live(s.tokens, user)| < g.max
    requires NewestFirstSessions(order, s.tokens, user) && |order| == |Live(s.tokens, user)|
    ensures Run(s, Steps(s, Call(0, Login(user, order, Token_(c)))), g)
  {
    var steps := Steps(s, Call(0, Login(user, order, Token_(c))));
    TokenIsNew(s, user, g, c);
    assert (set h | h in Excess(order, g.max)) == {};
    var s1 := Apply(s, steps[0], g);
    assert Revoke(s.tokens, {}) == s.tokens;
    var s2 := Apply(s1, steps[1], g);
    assert Enabled(s2, steps[2]);
    Runs(s2, steps[2], [], g);
    Runs(s1, steps[1], [steps[2]], g);
    Runs(s, steps[0], [steps[1], steps[2]], g);
    assert steps == [steps[0]] + ([steps[1]] + ([steps[2]] + []));
    assert [steps[1]] + ([steps[2]] + []) == [steps[1], steps[2]] && [steps[2]] + [] == [steps[2]];
  }

  lemma SsoCalled(s: State, g: Settings, user: UserId, c: nat, sso: nat) returns (s': State)
    requires Called(s, g, user, sso) && Quiet(s) && Plain(s, user, g, c)
    ensures Called(s', g, user, sso + 1) && Quiet(s') && Plain(s', user, g, c + 1)
    ensures |Live(s'.tokens, user)| == |Live(s.tokens, user)| + 1
  {
    var call := Call(0, SsoLogin(user, Token_(c)));
    var steps := Steps(s, call);
    TokenIsNew(s, user, g, c);
    Runs(s, steps[0], [], g);
    assert steps == [steps[0]] + [];
    s' := After(s, steps, g);
    StepsAmountToHandlers(s, call, g);
    CallReaches(s, call, g, user, sso);
    hide Run, After, Live, Called;
    StoredWhileQuiet(s, s', user, g, c);
  }

  lemma {:induction false} ManyCalled(g: Settings, user: UserId, m: nat, i: nat) returns (s: State, c: nat)
    requires m <= g.max && (i > 0 ==> m == g.max)
    ensures Called(s, g, user, i) && Quiet(s) && Plain(s, user, g, c) && |Live(s.tokens, user)| == m + i
    decreases i, m
  {
    if i > 0 {
      s, c := ManyCalled(g, user, m, i - 1);
      s := SsoCalled(s, g, user, c, i - 1);
      c := c + 1;
    } else if m > 0 {
      s, c := ManyCalled(g, user, m - 1, 0);
      s := LoginCalled(s, g, user, c);
      c := c + 1;
    } else {
      s, c := EMPTY, 0;
      assert AtomicRun(EMPTY, [], g) && AfterCalls(EMPTY, [], g) == EMPTY && SsoSinceLogin(0, [], user) == 0;
      assert Live(EMPTY.tokens, user) == {};
    }
  }

  /** The bound for handlers run one at a time is met as well: for every limit and every i there are
      calls, i of them single sign-ons since the last login, that leave max + i live sessions. */
  lemma AtomicBoundIsMet(g: Settings, user: UserId, i: nat)
    requires g.max >= 1
    ensures exists calls :: && AtomicRun(EMPTY, calls, g) && SsoSinceLogin(0, calls, user) == i
                            && |Live(AfterCalls(EMPTY, calls, g).tokens, user)| == g.max + i
  {
    var s, _ := ManyCalled(g, user, g.max, i);
    var calls :| AtomicRun(EMPTY, calls, g) && AfterCalls(EMPTY, calls, g) == s && SsoSinceLogin(0, calls, user) == i;
  }

  /** A limit below one is never met: after its first login the user holds one session. */
  lemma LimitBelowOneIsNotKept(g: Settings, user: UserId, h: Digest)
    requires g.max < 1
    ensures var calls := [Call(0, Login(user, [], h))];
            AtomicRun(EMPTY, calls, g) && |Live(AfterCalls(EMPTY, calls, g).tokens, user)| > g.max
  {
    var call := Call(0, Login(user, [], h));
    var steps := Steps(EMPTY, call);
    assert Live(EMPTY.tokens, user) == {};
    assert (set x | x in Excess([], g.max)) == {};
    var s1 := Apply(EMPTY, steps[0], g);
    var s2 := Apply(s1, steps[1], g);
    assert s2.tokens == map[];
    var s3 := Apply(s2, steps[2], g);
    assert Live(s3.tokens, user) == {h};
    hide Apply, Enabled, Live;
    Runs(s2, steps[2], [], g);
    Runs(s1, steps[1], [steps[2]], g);
    Runs(EMPTY, steps[0], [steps[1], steps[2]], g);
    assert [steps[2]] + [] == [steps[2]] && [steps[1]] + [steps[2]] == [steps[1], steps[2]];
    assert steps == [steps[0]] + [steps[1], steps[2]];
    assert [call][1..] == [] && AfterCalls(s3, [], g) == s3;
  }
}

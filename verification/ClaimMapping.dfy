/** Claim-to-role mapping at single sign-on (apply_claim_mappings in sso_service.py). */
module ClaimMapping {
  import opened Common

  type UserId = int
  type RoleId = int

  datatype Mapping = Mapping(
    claimKey: string, pattern: string, role: RoleId, priority: int, isRegex: bool)

  // A claim's value, already rendered by str(): absent or null, a scalar, or a list.
  datatype ClaimValue = Null | Scalar(text: string) | Texts(texts: seq<string>)

  type Claims = map<string, ClaimValue>

  // Regular-expression search of a pattern in a text; None when the pattern is malformed.
  type Search = (string, string) -> Option<bool>

  // user_roles has no uniqueness constraint, so a pair may occur several times.
  type UserRoles = multiset<(UserId, RoleId)>

  datatype MappingError = MalformedPattern | MultipleRows

  function Values(claims: Claims, key: string): seq<string> {
    if key !in claims then []
    else match claims[key]
         case Null => []
         case Scalar(text) => [text]
         case Texts(texts) => texts
  }

  function TestValue(m: Mapping, text: string, search: Search): Option<bool> {
    if m.isRegex then search(m.pattern, text) else Some(text == m.pattern)
  }

  // Values are tried in order up to the first match; a malformed pattern raises when tried.
  function Scan(m: Mapping, values: seq<string>, search: Search): Option<bool> {
    if values == [] then Some(false)
    else
      var before := Scan(m, values[..|values| - 1], search);
      if before == Some(false) then TestValue(m, values[|values| - 1], search) else before
  }

  predicate Hit(m: Mapping, claims: Claims, search: Search) {
    Scan(m, Values(claims, m.claimKey), search) == Some(true)
  }

  predicate Raises(m: Mapping, claims: Claims, search: Search, rows: UserRoles, user: UserId) {
    || Scan(m, Values(claims, m.claimKey), search).None?
    || (Hit(m, claims, search) && rows[(user, m.role)] >= 2)
  }

  // The roles a user gains, in the order the mappings grant them.
  function NewRoles(ms: seq<Mapping>, claims: Claims, search: Search, rows: UserRoles, user: UserId): seq<RoleId> {
    if ms == [] then []
    else
      var before := NewRoles(ms[..|ms| - 1], claims, search, rows, user);
      var last := ms[|ms| - 1];
      if Hit(last, claims, search) && rows[(user, last.role)] == 0 && last.role !in before
      then before + [last.role] else before
  }

  function Pairs(user: UserId, roles: seq<RoleId>): seq<(UserId, RoleId)> {
    if roles == [] then [] else Pairs(user, roles[..|roles| - 1]) + [(user, roles[|roles| - 1])]
  }

  // Names of those of the roles that have a row of their own.
  function NamesOf(roles: seq<RoleId>, names: map<RoleId, string>): seq<string> {
    if roles == [] then []
    else
      var last := roles[|roles| - 1];
      NamesOf(roles[..|roles| - 1], names) + (if last in names then [names[last]] else [])
  }

  // ---------------------------------------------------------------- what a match is

  // The claim's texts, in order: one if it is a scalar.
  ghost predicate TextAt(c: ClaimValue, k: int, text: string) {
    (c == Scalar(text) && k == 0) || (c.Texts? && 0 <= k < |c.texts| && c.texts[k] == text)
  }

  // The first of the claim's texts whose search says anything but no says this.
  ghost predicate Answers(m: Mapping, claims: Claims, search: Search, answer: Option<bool>) {
    && m.claimKey in claims
    && exists k, text :: && TextAt(claims[m.claimKey], k, text) && search(m.pattern, text) == answer
                         && forall j, other :: j < k && TextAt(claims[m.claimKey], j, other) ==>
                              search(m.pattern, other) == Some(false)
  }

  ghost predicate Matches(m: Mapping, claims: Claims, search: Search) {
    if m.isRegex then Answers(m, claims, search, Some(true))
    else m.claimKey in claims
         && (claims[m.claimKey] == Scalar(m.pattern)
             || (claims[m.claimKey].Texts? && m.pattern in claims[m.claimKey].texts))
  }

  ghost predicate Malformed(m: Mapping, claims: Claims, search: Search) {
    m.isRegex && Answers(m, claims, search, None)
  }

  /** A run by the claims it was given. It raises if some mapping meets a malformed pattern, or is
      matched and has two rows already. Otherwise it adds one row for every role of a matched mapping
      that the user had none of, and no other, and names those roles. */
  ghost predicate AsTheClaimsSay(mappings: seq<Mapping>, claims: Claims, search: Search, user: UserId,
                                 names: map<RoleId, string>, before: UserRoles, after: UserRoles,
                                 r: Result<seq<string>, MappingError>) {
    && (r.Err? <==> exists m :: && m in mappings
                                && (|| Malformed(m, claims, search)
                                    || (Matches(m, claims, search) && before[(user, m.role)] >= 2)))
    && (r.Ok? ==>
          forall p :: after[p] == if p.0 == user && before[p] == 0
                                     && exists m :: m in mappings && m.role == p.1 && Matches(m, claims, search)
                                  then 1 else before[p])
    && (r.Ok? ==>
          forall n :: n in r.value <==>
            exists role :: role in names && names[role] == n && after[(user, role)] > before[(user, role)])
  }

  // ---------------------------------------------------------------- the tables

  /** The user_roles and roles tables as apply_claim_mappings sees them in its session. */
  class RoleAssignments {
    var userRoles: UserRoles
    var roleNames: map<RoleId, string>

    constructor (names: map<RoleId, string>)
      ensures userRoles == multiset{} && roleNames == names
    {
      userRoles, roleNames := multiset{}, names;
    }

    // `mappings`: the provider's rows, in whatever order the database returned them. An
    // exception abandons the session, and with it the rows added so far.
    method ApplyClaimMappings(mappings: seq<Mapping>, user: UserId, claims: Claims, search: Search)
      returns (r: Result<seq<string>, MappingError>)
      modifies this`userRoles
      ensures r.Err? <==> exists m :: m in mappings && Raises(m, claims, search, old(userRoles), user)
      ensures r.Err? ==> userRoles == old(userRoles)
      ensures var gained := NewRoles(mappings, claims, search, old(userRoles), user);
              r.Ok? ==> userRoles == old(userRoles) + multiset(Pairs(user, gained))
                        && r.value == NamesOf(gained, roleNames)
      ensures AsTheClaimsSay(mappings, claims, search, user, roleNames, old(userRoles), userRoles, r)
    {
      hide NewRoles, Scan, Pairs, NamesOf, AsTheClaimsSay;
      var before := userRoles;
      var granted := [];
      ghost var gained: seq<RoleId> := [];
      NothingYet(claims, search, before, user, roleNames);
      for i := 0 to |mappings|
        invariant gained == NewRoles(mappings[..i], claims, search, before, user)
        invariant userRoles == before + multiset(Pairs(user, gained))
        invariant granted == NamesOf(gained, roleNames)
        invariant forall m :: m in mappings[..i] ==> !Raises(m, claims, search, before, user)
      {
        var m := mappings[i];
        assert mappings[..i + 1] == mappings[..i] + [m];
        var values := Values(claims, m.claimKey);
        var hit := false;
        ScanStep(m, [], search);
        for j := 0 to |values|
          invariant !hit && Scan(m, values[..j], search) == Some(false)
          invariant userRoles == before + multiset(Pairs(user, gained))
        {
          ScanStep(m, values[..j + 1], search);
          assert values[..j + 1][..j] == values[..j];
          var matched := TestValue(m, values[j], search);
          if matched.None? {
            ScanSettles(m, values, j + 1, search);
            RaisingIsAsTheClaimsSay(mappings, m, claims, search, user, roleNames, before, MalformedPattern);
            userRoles := before;
            return Err(MalformedPattern);
          }
          if matched.value {
            ScanSettles(m, values, j + 1, search);
            hit := true;
            break;
          }
        }
        assert values[..|values|] == values;
        assert hit == Hit(m, claims, search);
        if hit {
          GainedCounts(mappings[..i], claims, search, before, user, m.role);
          var existing := userRoles[(user, m.role)];
          if existing >= 2 {
            RaisingIsAsTheClaimsSay(mappings, m, claims, search, user, roleNames, before, MultipleRows);
            userRoles := before;
            return Err(MultipleRows);
          }
          if existing == 0 {
            userRoles := userRoles + multiset{(user, m.role)};
            if m.role in roleNames {
              granted := granted + [roleNames[m.role]];
            }
          }
        }
        GainStep(mappings[..i], m, claims, search, before, user, roleNames);
        ghost var wider := NewRoles(mappings[..i + 1], claims, search, before, user);
        assert wider != gained ==> multiset(Pairs(user, wider)) == multiset(Pairs(user, gained)) + multiset{(user, m.role)};
        gained := wider;
      }
      assert mappings[..|mappings|] == mappings;
      FinishingIsAsTheClaimsSay(mappings, claims, search, user, roleNames, before);
      return Ok(granted);
    }
  }

  lemma NothingYet(claims: Claims, search: Search, rows: UserRoles, user: UserId, names: map<RoleId, string>)
    ensures NewRoles([], claims, search, rows, user) == [] && Pairs(user, []) == [] && NamesOf([], names) == []
  {
  }

  lemma ScanStep(m: Mapping, values: seq<string>, search: Search)
    ensures values == [] ==> Scan(m, values, search) == Some(false)
    ensures values != [] && Scan(m, values[..|values| - 1], search) == Some(false) ==>
              Scan(m, values, search) == TestValue(m, values[|values| - 1], search)
  {
  }

  lemma GainStep(ms: seq<Mapping>, m: Mapping, claims: Claims, search: Search, rows: UserRoles,
                 user: UserId, names: map<RoleId, string>)
    ensures var gained := NewRoles(ms, claims, search, rows, user);
            var wider := NewRoles(ms + [m], claims, search, rows, user);
            if Hit(m, claims, search) && rows[(user, m.role)] == 0 && m.role !in gained
            then && wider == gained + [m.role]
                 && Pairs(user, wider) == Pairs(user, gained) + [(user, m.role)]
                 && NamesOf(wider, names) == NamesOf(gained, names) + (if m.role in names then [names[m.role]] else [])
            else wider == gained
  {
    var gained := NewRoles(ms, claims, search, rows, user);
    assert (ms + [m])[..|ms + [m]| - 1] == ms;
    assert (gained + [m.role])[..|gained + [m.role]| - 1] == gained;
  }

  // Once the scan has an answer other than "no match yet", later values cannot change it.
  lemma {:induction false} ScanSettles(m: Mapping, values: seq<string>, n: nat, search: Search)
    requires n <= |values| && Scan(m, values[..n], search) != Some(false)
    ensures Scan(m, values, search) == Scan(m, values[..n], search)
  {
    if n == |values| {
      assert values[..n] == values;
    } else {
      assert values[..|values| - 1][..n] == values[..n];
      ScanSettles(m, values[..|values| - 1], n, search);
    }
  }

  // The k-th text is the first whose search says anything but no, and it says this.
  ghost predicate Decides(pattern: string, texts: seq<string>, search: Search, k: int, answer: Option<bool>) {
    && 0 <= k < |texts| && search(pattern, texts[k]) == answer != Some(false)
    && forall j :: 0 <= j < k ==> search(pattern, texts[j]) == Some(false)
  }

  /** An exact mapping hits when its pattern is one of the values, and never raises; a regular
      expression is decided by the first value it does not simply fail to match. */
  lemma {:induction false} ScanFindsAMatch(m: Mapping, values: seq<string>, search: Search)
    ensures !m.isRegex ==> Scan(m, values, search) == Some(m.pattern in values)
    ensures m.isRegex ==>
              (Scan(m, values, search) == Some(false) <==>
               forall v :: v in values ==> search(m.pattern, v) == Some(false))
    ensures m.isRegex && Scan(m, values, search) != Some(false) ==>
              exists k :: Decides(m.pattern, values, search, k, Scan(m, values, search))
  {
    if values != [] {
      var n := |values| - 1;
      var before := values[..n];
      ScanFindsAMatch(m, before, search);
      assert values == before + [values[n]];
      if m.isRegex && Scan(m, before, search) != Some(false) {
        var k :| Decides(m.pattern, before, search, k, Scan(m, before, search));
        assert Decides(m.pattern, values, search, k, Scan(m, values, search));
      } else if m.isRegex && Scan(m, values, search) != Some(false) {
        assert forall j :: 0 <= j < n ==> values[j] in before;
        assert Decides(m.pattern, values, search, n, Scan(m, values, search));
      }
    }
  }

  lemma ValuesAreTheTexts(claims: Claims, key: string)
    ensures var values := Values(claims, key);
            if key !in claims then values == []
            else forall k, text :: TextAt(claims[key], k, text) <==> 0 <= k < |values| && values[k] == text
  {
  }

  lemma {:induction false} AnswersDecide(m: Mapping, claims: Claims, search: Search, answer: Option<bool>)
    requires answer != Some(false)
    ensures Answers(m, claims, search, answer) <==>
            exists k :: Decides(m.pattern, Values(claims, m.claimKey), search, k, answer)
  {
    ValuesAreTheTexts(claims, m.claimKey);
    var values := Values(claims, m.claimKey);
    hide Values;
    if m.claimKey in claims {
      var c := claims[m.claimKey];
      if k :| Decides(m.pattern, values, search, k, answer) {
        assert TextAt(c, k, values[k]);
      }
      if Answers(m, claims, search, answer) {
        var k, text :| && TextAt(c, k, text) && search(m.pattern, text) == answer
                       && forall j, other :: j < k && TextAt(c, j, other) ==> search(m.pattern, other) == Some(false);
        assert forall j :: 0 <= j < k ==> TextAt(c, j, values[j]);
        assert Decides(m.pattern, values, search, k, answer);
      }
    }
  }

  // The pattern is searched for in each of the claim's texts without complaint.
  ghost predicate WellFormed(m: Mapping, claims: Claims, search: Search) {
    m.claimKey in claims ==>
      forall k, text :: TextAt(claims[m.claimKey], k, text) ==> search(m.pattern, text).Some?
  }

  lemma {:induction false} PatternHits(m: Mapping, claims: Claims, search: Search)
    requires m.isRegex && WellFormed(m, claims, search)
    ensures Hit(m, claims, search) <==>
            && m.claimKey in claims
            && exists k, text :: TextAt(claims[m.claimKey], k, text) && search(m.pattern, text) == Some(true)
  {
    ValuesAreTheTexts(claims, m.claimKey);
    var values := Values(claims, m.claimKey);
    ScanFindsAMatch(m, values, search);
    hide Scan, Values, TextAt;
    if m.claimKey in claims && Scan(m, values, search) != Some(false) {
      var k :| Decides(m.pattern, values, search, k, Scan(m, values, search));
      assert TextAt(claims[m.claimKey], k, values[k]);
      assert search(m.pattern, values[k]).Some? && search(m.pattern, values[k]).value;
    } else if m.claimKey in claims {
      forall k, text | TextAt(claims[m.claimKey], k, text)
        ensures search(m.pattern, text) == Some(false)
      {
        assert values[k] in values;
      }
    }
  }

  /** Which claims a mapping matches: an exact one those that are, or list, its pattern and no others; a
      regular expression those with a text it is found in, as long as it is not malformed there. It
      raises when the first text it does not simply fail on finds it malformed. */
  lemma HitsExactly(m: Mapping, claims: Claims, search: Search)
    ensures !m.isRegex ==>
              (Hit(m, claims, search) <==>
               && m.claimKey in claims
               && (claims[m.claimKey] == Scalar(m.pattern)
                   || (claims[m.claimKey].Texts? && m.pattern in claims[m.claimKey].texts)))
    ensures m.isRegex && WellFormed(m, claims, search) ==>
              (Hit(m, claims, search) <==>
               && m.claimKey in claims
               && exists k, text :: TextAt(claims[m.claimKey], k, text) && search(m.pattern, text) == Some(true))
    ensures Hit(m, claims, search) <==> Matches(m, claims, search)
    ensures Scan(m, Values(claims, m.claimKey), search).None? <==> Malformed(m, claims, search)
  {
    ValuesAreTheTexts(claims, m.claimKey);
    var values := Values(claims, m.claimKey);
    ScanFindsAMatch(m, values, search);
    AnswersDecide(m, claims, search, Some(true));
    AnswersDecide(m, claims, search, None);
    if m.isRegex && WellFormed(m, claims, search) {
      PatternHits(m, claims, search);
    }
    hide Scan, Values, Answers, TextAt;
  }

  // ---------------------------------------------------------------- what a run leaves behind

  predicate Distinct(roles: seq<RoleId>) {
    forall i, j :: 0 <= i < j < |roles| ==> roles[i] != roles[j]
  }

  lemma {:induction false} NewRolesExactly(ms: seq<Mapping>, claims: Claims, search: Search,
                                           rows: UserRoles, user: UserId)
    ensures var gained := NewRoles(ms, claims, search, rows, user);
            && (forall r :: r in gained <==>
                  rows[(user, r)] == 0 && exists m :: m in ms && m.role == r && Hit(m, claims, search))
            && Distinct(gained)
  {
    if ms == [] {
    } else {
      var before := ms[..|ms| - 1];
      NewRolesExactly(before, claims, search, rows, user);
      assert ms == before + [ms[|ms| - 1]];
    }
  }

  lemma {:induction false} PairsCount(user: UserId, roles: seq<RoleId>, p: (UserId, RoleId))
    requires Distinct(roles)
    ensures multiset(Pairs(user, roles))[p] == if p.0 == user && p.1 in roles then 1 else 0
  {
    if roles == [] {
    } else {
      var rest := roles[..|roles| - 1];
      PairsCount(user, rest, p);
      assert roles == rest + [roles[|roles| - 1]];
    }
  }

  lemma GainedCounts(ms: seq<Mapping>, claims: Claims, search: Search, rows: UserRoles, user: UserId, role: RoleId)
    ensures var gained := NewRoles(ms, claims, search, rows, user);
            (rows + multiset(Pairs(user, gained)))[(user, role)]
            == if role in gained then 1 else rows[(user, role)]
  {
    NewRolesExactly(ms, claims, search, rows, user);
    PairsCount(user, NewRoles(ms, claims, search, rows, user), (user, role));
  }

  // The user_roles table after a run that did not raise.
  function RowsAfter(ms: seq<Mapping>, claims: Claims, search: Search, rows: UserRoles, user: UserId): UserRoles {
    rows + multiset(Pairs(user, NewRoles(ms, claims, search, rows, user)))
  }

  lemma HitsAreMatches(claims: Claims, search: Search)
    ensures forall m: Mapping :: Hit(m, claims, search) <==> Matches(m, claims, search)
    ensures forall m: Mapping :: Scan(m, Values(claims, m.claimKey), search).None? <==> Malformed(m, claims, search)
  {
    forall m: Mapping
      ensures Hit(m, claims, search) <==> Matches(m, claims, search)
      ensures Scan(m, Values(claims, m.claimKey), search).None? <==> Malformed(m, claims, search)
    {
      HitsExactly(m, claims, search);
    }
  }

  /** The run adds exactly one row for every role of a mapping the claims match that the user did not
      have, and changes the count of no other pair. */
  lemma RunGrantsExactlyTheMatched(ms: seq<Mapping>, claims: Claims, search: Search,
                                   rows: UserRoles, user: UserId, p: (UserId, RoleId))
    ensures RowsAfter(ms, claims, search, rows, user)[p]
            == if p.0 == user && rows[p] == 0
                  && exists m :: m in ms && m.role == p.1 && Matches(m, claims, search)
               then 1 else rows[p]
  {
    HitsAreMatches(claims, search);
    NewRolesExactly(ms, claims, search, rows, user);
    PairsCount(user, NewRoles(ms, claims, search, rows, user), p);
    hide Hit, Matches, Scan;
  }

  lemma {:induction false} NamesOfExactly(roles: seq<RoleId>, names: map<RoleId, string>)
    ensures forall n :: n in NamesOf(roles, names) <==> exists r :: r in roles && r in names && names[r] == n
  {
    if roles != [] {
      var before := roles[..|roles| - 1];
      NamesOfExactly(before, names);
      assert roles == before + [roles[|roles| - 1]];
    }
  }

  // The run names the roles that have gained a row, and no others.
  lemma NamesAreOfTheGained(ms: seq<Mapping>, claims: Claims, search: Search, rows: UserRoles, user: UserId,
                            names: map<RoleId, string>)
    ensures var gained := NewRoles(ms, claims, search, rows, user);
            var after := rows + multiset(Pairs(user, gained));
            forall n :: n in NamesOf(gained, names) <==>
              exists r :: r in names && names[r] == n && after[(user, r)] > rows[(user, r)]
  {
    var gained := NewRoles(ms, claims, search, rows, user);
    NewRolesExactly(ms, claims, search, rows, user);
    NamesOfExactly(gained, names);
    forall r: RoleId
      ensures r in gained <==> (rows + multiset(Pairs(user, gained)))[(user, r)] > rows[(user, r)]
    {
      PairsCount(user, gained, (user, r));
    }
    hide NamesOf, NewRoles, Pairs;
  }

  lemma RaisesExactly(claims: Claims, search: Search, rows: UserRoles, user: UserId)
    ensures forall m :: Raises(m, claims, search, rows, user) <==>
                        Malformed(m, claims, search) || (Matches(m, claims, search) && rows[(user, m.role)] >= 2)
  {
    HitsAreMatches(claims, search);
    hide Hit, Matches, Malformed, Scan;
  }

  // The same for every pair at once.
  lemma EffectOfRun(ms: seq<Mapping>, claims: Claims, search: Search, rows: UserRoles, user: UserId)
    ensures var after := rows + multiset(Pairs(user, NewRoles(ms, claims, search, rows, user)));
            forall p: (UserId, RoleId) :: after[p] == if p.0 == user && rows[p] == 0
                               && exists m :: m in ms && m.role == p.1 && Matches(m, claims, search)
                            then 1 else rows[p]
  {
    forall p: (UserId, RoleId)
      ensures RowsAfter(ms, claims, search, rows, user)[p]
              == if p.0 == user && rows[p] == 0
                    && exists m :: m in ms && m.role == p.1 && Matches(m, claims, search)
                 then 1 else rows[p]
    {
      RunGrantsExactlyTheMatched(ms, claims, search, rows, user, p);
    }
    hide NewRoles, Pairs, Matches;
  }

  lemma RaisingIsAsTheClaimsSay(ms: seq<Mapping>, m: Mapping, claims: Claims, search: Search, user: UserId,
                                names: map<RoleId, string>, rows: UserRoles, e: MappingError)
    requires m in ms && Raises(m, claims, search, rows, user)
    ensures AsTheClaimsSay(ms, claims, search, user, names, rows, rows, Err(e))
  {
    RaisesExactly(claims, search, rows, user);
    hide Raises, Matches, Malformed;
  }

  lemma FinishingIsAsTheClaimsSay(ms: seq<Mapping>, claims: Claims, search: Search, user: UserId,
                                  names: map<RoleId, string>, rows: UserRoles)
    requires forall m :: m in ms ==> !Raises(m, claims, search, rows, user)
    ensures var gained := NewRoles(ms, claims, search, rows, user);
            AsTheClaimsSay(ms, claims, search, user, names, rows, rows + multiset(Pairs(user, gained)),
                           Ok(NamesOf(gained, names)))
  {
    RaisesExactly(claims, search, rows, user);
    NamesAreOfTheGained(ms, claims, search, rows, user, names);
    EffectOfRun(ms, claims, search, rows, user);
    hide NewRoles, Pairs, NamesOf, Raises, Matches, Malformed;
  }

  /** Whether the run raises, and what it leaves, depend on which mappings there are and not on
      their order, hence not on their priorities. */
  lemma PriorityIsIrrelevant(ms: seq<Mapping>, ms': seq<Mapping>, claims: Claims, search: Search,
                             rows: UserRoles, user: UserId)
    requires forall m :: m in ms <==> m in ms'
    ensures (exists m :: m in ms && Raises(m, claims, search, rows, user)) <==>
            (exists m :: m in ms' && Raises(m, claims, search, rows, user))
    ensures RowsAfter(ms, claims, search, rows, user) == RowsAfter(ms', claims, search, rows, user)
  {
    forall p: (UserId, RoleId)
      ensures RowsAfter(ms, claims, search, rows, user)[p] == RowsAfter(ms', claims, search, rows, user)[p]
    {
      RunGrantsExactlyTheMatched(ms, claims, search, rows, user, p);
      RunGrantsExactlyTheMatched(ms', claims, search, rows, user, p);
    }
  }

  /** A second run raises if and only if the first did; otherwise it grants nothing. */
  lemma SecondRunGrantsNothing(ms: seq<Mapping>, claims: Claims, search: Search, rows: UserRoles, user: UserId)
    ensures var rows' := RowsAfter(ms, claims, search, rows, user);
            && NewRoles(ms, claims, search, rows', user) == []
            && forall m :: Raises(m, claims, search, rows', user) <==> Raises(m, claims, search, rows, user)
  {
    var rows' := RowsAfter(ms, claims, search, rows, user);
    HitsAreMatches(claims, search);
    NewRolesExactly(ms, claims, search, rows', user);
    forall r: RoleId
      ensures r !in NewRoles(ms, claims, search, rows', user)
      ensures rows'[(user, r)] >= 2 <==> rows[(user, r)] >= 2
    {
      RunGrantsExactlyTheMatched(ms, claims, search, rows, user, (user, r));
    }
    var again := NewRoles(ms, claims, search, rows', user);
    NonemptyHasMember(again);
  }

  /** A user without duplicate rows gets none, and such a user's run raises only on a malformed
      pattern that is actually tried. */
  lemma NoDuplicatesAppear(ms: seq<Mapping>, claims: Claims, search: Search, rows: UserRoles, user: UserId)
    requires forall r: RoleId :: rows[(user, r)] <= 1
    ensures forall r: RoleId :: RowsAfter(ms, claims, search, rows, user)[(user, r)] <= 1
    ensures forall m :: Raises(m, claims, search, rows, user) <==> Malformed(m, claims, search)
  {
    HitsAreMatches(claims, search);
    hide Hit, Matches, Malformed;
    forall r: RoleId
      ensures RowsAfter(ms, claims, search, rows, user)[(user, r)] <= 1
    {
      RunGrantsExactlyTheMatched(ms, claims, search, rows, user, (user, r));
    }
  }

  // The table after two sign-ins of one user that both looked their roles up before either committed.
  function RowsAfterBoth(ms: seq<Mapping>, claims: Claims, ms': seq<Mapping>, claims': Claims, search: Search,
                         rows: UserRoles, user: UserId): UserRoles {
    rows + multiset(Pairs(user, NewRoles(ms, claims, search, rows, user)))
    + multiset(Pairs(user, NewRoles(ms', claims', search, rows, user)))
  }

  /** Runs that overlap do duplicate: from rows without duplicates, a role ends up doubled exactly if
      both runs matched it and the user did not have it. */
  lemma OverlappingRunsDuplicateExactly(ms: seq<Mapping>, claims: Claims, ms': seq<Mapping>, claims': Claims,
                                        search: Search, rows: UserRoles, user: UserId, role: RoleId)
    requires rows[(user, role)] <= 1
    ensures RowsAfterBoth(ms, claims, ms', claims', search, rows, user)[(user, role)] >= 2 <==>
            && rows[(user, role)] == 0
            && (exists m :: m in ms && m.role == role && Matches(m, claims, search))
            && (exists m :: m in ms' && m.role == role && Matches(m, claims', search))
  {
    HitsAreMatches(claims, search);
    HitsAreMatches(claims', search);
    NewRolesExactly(ms, claims, search, rows, user);
    NewRolesExactly(ms', claims', search, rows, user);
    PairsCount(user, NewRoles(ms, claims, search, rows, user), (user, role));
    PairsCount(user, NewRoles(ms', claims', search, rows, user), (user, role));
    hide NewRoles, Pairs, Hit, Matches, Scan;
  }

  /** Mappings on one claim key apply independently, whatever their priorities: the rule in
      docs/oidc-saml.md, that only the highest-priority match per key applies, does not hold. */
  lemma LowerPriorityStillApplies(key: string, text: string, high: RoleId, low: RoleId, search: Search,
                                  rows: UserRoles, user: UserId)
    ensures var ms := [Mapping(key, text, high, 10, false), Mapping(key, text, low, 5, false)];
            var after := RowsAfter(ms, map[key := Scalar(text)], search, rows, user);
            after[(user, high)] >= 1 && after[(user, low)] >= 1
  {
    var first, second := Mapping(key, text, high, 10, false), Mapping(key, text, low, 5, false);
    var ms, claims := [first, second], map[key := Scalar(text)];
    assert Matches(first, claims, search) && Matches(second, claims, search);
    hide Matches, RowsAfter;
    assert first in ms && second in ms;
    RunGrantsExactlyTheMatched(ms, claims, search, rows, user, (user, high));
    RunGrantsExactlyTheMatched(ms, claims, search, rows, user, (user, low));
  }
}

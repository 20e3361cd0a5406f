/** Scopes: which ones a principal may hold, which ones a token is granted, how the claim
    carries them, and what a gate reads back (scopes.py, schemas.py, require_scope in auth.py). */
module ScopeClaims {
  import opened Common
  import opened PackModels

  // ---------------------------------------------------------------- splitting and joining

  // What str.split() without arguments treats as whitespace.
  predicate IsSpace(c: char) {
    || '\t' <= c <= '\r' || '\U{1C}' <= c <= ' ' || c == '\U{85}' || c == '\U{A0}' || c == '\U{1680}'
    || '\U{2000}' <= c <= '\U{200A}' || c == '\U{2028}' || c == '\U{2029}' || c == '\U{202F}'
    || c == '\U{205F}' || c == '\U{3000}'
  }

  function Word(w: string): seq<string> {
    if w == "" then [] else [w]
  }

  // The words of s, the first of which continues `current`.
  function SplitFrom(s: string, current: string): seq<string> {
    if s == "" then Word(current)
    else if IsSpace(s[0]) then Word(current) + SplitFrom(s[1..], "")
    else SplitFrom(s[1..], current + [s[0]])
  }

  function ParseScopeString(raw: Option<string>): seq<string> {
    if raw.None? then [] else SplitFrom(raw.value, "")
  }

  function Join(scopes: seq<string>): string {
    if scopes == [] then ""
    else if |scopes| == 1 then scopes[0]
    else scopes[0] + " " + Join(scopes[1..])
  }

  predicate ScopeChar(c: char) {
    c == '\U{21}' || '\U{23}' <= c <= '\U{5B}' || '\U{5D}' <= c <= '\U{7E}'
  }

  const SCOPE_NAME_MAX_LENGTH := 256

  predicate ValidScopeEntry(entry: string) {
    0 < |entry| <= SCOPE_NAME_MAX_LENGTH && forall i :: 0 <= i < |entry| ==> ScopeChar(entry[i])
  }

  lemma {:induction false} SplitThroughWord(w: string, rest: string, current: string)
    requires forall i :: 0 <= i < |w| ==> !IsSpace(w[i])
    ensures SplitFrom(w + rest, current) == SplitFrom(rest, current + w)
    decreases |w|
  {
    if w == "" {
      assert w + rest == rest && current + w == current;
    } else {
      assert (w + rest)[1..] == w[1..] + rest;
      SplitThroughWord(w[1..], rest, current + [w[0]]);
      assert current + [w[0]] + w[1..] == current + w;
    }
  }

  /** The claim is lossless: joining scopes none of which is empty or holds whitespace, and
      splitting the result, gives back the same list. */
  lemma {:induction false} SplitJoin(scopes: seq<string>)
    requires forall s :: s in scopes ==> s != "" && forall i :: 0 <= i < |s| ==> !IsSpace(s[i])
    ensures SplitFrom(Join(scopes), "") == scopes
    decreases |scopes|
  {
    if scopes == [] {
    } else {
      var w := scopes[0];
      assert w in scopes;
      if |scopes| == 1 {
        assert w + "" == w;
        SplitThroughWord(w, "", "");
        assert "" + w == w;
      } else {
        var rest := " " + Join(scopes[1..]);
        assert Join(scopes) == w + rest;
        SplitThroughWord(w, rest, "");
        assert rest[1..] == Join(scopes[1..]) && "" + w == w;
        SplitJoin(scopes[1..]);
      }
    }
  }

  // ---------------------------------------------------------------- granting

  datatype ScopeError = InvalidScope

  function Filter(scopes: seq<string>, wanted: set<string>): seq<string> {
    if scopes == [] then []
    else
      var last := scopes[|scopes| - 1];
      Filter(scopes[..|scopes| - 1], wanted) + (if last in wanted then [last] else [])
  }

  function Elements(xs: seq<string>): set<string> {
    set x | x in xs
  }

  function GrantScopes(allowed: seq<string>, requested: seq<string>, strict: bool): Result<seq<string>, ScopeError> {
    if requested == [] then Ok(allowed)
    else
      var granted := Filter(allowed, Elements(requested));
      if strict && Elements(requested) - Elements(allowed) != {} then Err(InvalidScope)
      else if granted == [] then Err(InvalidScope)
      else Ok(granted)
  }

  lemma {:induction false} FilterMembers(scopes: seq<string>, wanted: set<string>)
    ensures forall s :: s in Filter(scopes, wanted) <==> s in scopes && s in wanted
  {
    if scopes == [] {
    } else {
      var last := scopes[|scopes| - 1];
      FilterMembers(scopes[..|scopes| - 1], wanted);
      assert scopes == scopes[..|scopes| - 1] + [last];
    }
  }

  // Where in the list the wanted scopes stand.
  function Positions(scopes: seq<string>, wanted: set<string>): (at: seq<nat>)
    ensures forall k :: 0 <= k < |at| ==> at[k] < |scopes|
  {
    if scopes == [] then []
    else
      var n := |scopes| - 1;
      Positions(scopes[..n], wanted) + (if scopes[n] in wanted then [n] else [])
  }

  lemma {:induction false} PositionsExactly(scopes: seq<string>, wanted: set<string>, p: nat)
    ensures p in Positions(scopes, wanted) <==> p < |scopes| && scopes[p] in wanted
  {
    if scopes != [] {
      PositionsExactly(scopes[..|scopes| - 1], wanted, p);
    }
  }

  lemma {:induction false} FilterKeepsOrder(scopes: seq<string>, wanted: set<string>)
    ensures var granted, at := Filter(scopes, wanted), Positions(scopes, wanted);
            && |granted| == |at|
            && (forall k :: 0 <= k < |at| ==> granted[k] == scopes[at[k]])
            && (forall k, l :: 0 <= k < l < |at| ==> at[k] < at[l])
  {
    if scopes != [] {
      var n := |scopes| - 1;
      var granted, at := Filter(scopes[..n], wanted), Positions(scopes[..n], wanted);
      FilterKeepsOrder(scopes[..n], wanted);
      if scopes[n] in wanted {
        assert Filter(scopes, wanted) == granted + [scopes[n]] && Positions(scopes, wanted) == at + [n];
      } else {
        assert Filter(scopes, wanted) == granted && Positions(scopes, wanted) == at;
      }
      hide Filter, Positions;
      assert forall k :: 0 <= k < |at| ==> at[k] < n && granted[k] == scopes[..n][at[k]] == scopes[at[k]];
    }
  }

  lemma {:induction false} FilterKeepsAll(scopes: seq<string>, wanted: set<string>)
    requires forall s :: s in scopes ==> s in wanted
    ensures Filter(scopes, wanted) == scopes
  {
    if scopes != [] {
      FilterKeepsAll(scopes[..|scopes| - 1], wanted);
    }
  }

  /** Granting keeps the allowed list's order: the granted scopes stand at strictly increasing
      positions of it, which by PositionsExactly are all the positions of requested scopes. */
  lemma GrantKeepsOrder(allowed: seq<string>, requested: seq<string>, strict: bool)
    requires GrantScopes(allowed, requested, strict).Ok?
    ensures var granted := GrantScopes(allowed, requested, strict).value;
            var at := Positions(allowed, Elements(if requested == [] then allowed else requested));
            && |granted| == |at|
            && (forall k :: 0 <= k < |at| ==> granted[k] == allowed[at[k]])
            && (forall k, l :: 0 <= k < l < |at| ==> at[k] < at[l])
  {
    var wanted := Elements(if requested == [] then allowed else requested);
    FilterKeepsOrder(allowed, wanted);
    if requested == [] {
      FilterKeepsAll(allowed, wanted);
    }
  }

  /** A request fails exactly when it names something and either none of it is allowed or, in
      strict mode, some of it is not; a success holds exactly what was both asked and allowed. */
  lemma GrantExactly(allowed: seq<string>, requested: seq<string>, strict: bool)
    ensures var r := GrantScopes(allowed, requested, strict);
            && (r.Err? <==> && requested != []
                            && ((forall s :: s in requested ==> s !in allowed)
                                || (strict && exists s :: s in requested && s !in allowed)))
            && (r.Ok? ==> forall s :: s in r.value <==> s in allowed && (requested == [] || s in requested))
  {
    FilterMembers(allowed, Elements(requested));
    NonemptyHasMember(Filter(allowed, Elements(requested)));
    if strict && Elements(requested) - Elements(allowed) != {} {
      var s :| s in Elements(requested) - Elements(allowed);
    } else if strict {
      forall s | s in requested
        ensures s in allowed
      {
        assert s !in Elements(requested) - Elements(allowed);
      }
    }
  }

  /** Neither the order nor the repetitions of a request matter, and strict mode only ever
      refuses what lenient mode grants; it never grants anything else. */
  lemma GrantDependsOnTheSetOnly(allowed: seq<string>, requested: seq<string>, requested': seq<string>, strict: bool)
    requires forall s :: s in requested <==> s in requested'
    ensures GrantScopes(allowed, requested, strict) == GrantScopes(allowed, requested', strict)
    ensures GrantScopes(allowed, requested, true).Ok? ==>
              GrantScopes(allowed, requested, true) == GrantScopes(allowed, requested, false)
  {
    assert Elements(requested) == Elements(requested');
    NonemptyHasMember(requested);
    NonemptyHasMember(requested');
  }

  // ---------------------------------------------------------------- the gate

  // The scopes a gate finds missing from a token's claim.
  function MissingScopes(claim: string, required: set<string>): set<string> {
    required - Elements(SplitFrom(claim, ""))
  }

  /** Mint, then gate: if the allowed scopes are well formed, a gate on a freshly granted token
      misses exactly the required scopes the grant left out. */
  lemma MintThenGate(allowed: seq<string>, requested: seq<string>, strict: bool, required: set<string>)
    requires forall s :: s in allowed ==> ValidScopeEntry(s)
    requires GrantScopes(allowed, requested, strict).Ok?
    ensures var granted := GrantScopes(allowed, requested, strict).value;
            && ParseScopeString(Some(Join(granted))) == granted
            && MissingScopes(Join(granted), required) == required - Elements(granted)
  {
    var granted := GrantScopes(allowed, requested, strict).value;
    GrantExactly(allowed, requested, strict);
    forall s | s in granted
      ensures s != "" && forall i :: 0 <= i < |s| ==> !IsSpace(s[i])
    {
      assert ValidScopeEntry(s);
      assert forall i :: 0 <= i < |s| ==> ScopeChar(s[i]);
    }
    SplitJoin(granted);
  }

  // ---------------------------------------------------------------- sorting

  predicate Less(a: string, b: string) {
    b != "" && (a == "" || a[0] < b[0] || (a[0] == b[0] && Less(a[1..], b[1..])))
  }

  lemma {:induction false} LessIsTotal(a: string, b: string)
    ensures a == b || Less(a, b) || Less(b, a)
    ensures !(Less(a, b) && Less(b, a)) && !Less(a, a)
    decreases |a|
  {
    if a != "" && b != "" {
      LessIsTotal(a[1..], b[1..]);
      LessIsTotal(a[1..], a[1..]);
      assert a == [a[0]] + a[1..] && b == [b[0]] + b[1..];
    } else if a != "" {
      LessIsTotal(a[1..], a[1..]);
    }
  }

  lemma {:induction false} LessIsTransitive(a: string, b: string, c: string)
    requires Less(a, b) && Less(b, c)
    ensures Less(a, c)
    decreases |a|
  {
    if a != "" && a[0] == b[0] == c[0] {
      LessIsTransitive(a[1..], b[1..], c[1..]);
    }
  }

  predicate StrictlyAscending(xs: seq<string>) {
    forall i, j :: 0 <= i < j < |xs| ==> Less(xs[i], xs[j])
  }

  function Insert(x: string, xs: seq<string>): seq<string> {
    if xs == [] then [x]
    else if x == xs[0] then xs
    else if Less(x, xs[0]) then [x] + xs
    else [xs[0]] + Insert(x, xs[1..])
  }

  // sorted() of the set of these strings.
  function SortedSet(xs: seq<string>): seq<string> {
    if xs == [] then [] else Insert(xs[0], SortedSet(xs[1..]))
  }

  lemma {:induction false} InsertSorts(x: string, xs: seq<string>)
    requires StrictlyAscending(xs)
    ensures StrictlyAscending(Insert(x, xs))
    ensures forall y :: y in Insert(x, xs) <==> y == x || y in xs
    decreases |xs|
  {
    if xs != [] {
      LessIsTotal(x, xs[0]);
      assert xs == [xs[0]] + xs[1..];
      if Less(x, xs[0]) {
        forall j | 0 <= j < |xs|
          ensures Less(x, xs[j])
        {
          if j > 0 {
            LessIsTransitive(x, xs[0], xs[j]);
          }
        }
      } else if x != xs[0] {
        InsertSorts(x, xs[1..]);
        assert forall y :: y in xs[1..] ==> Less(xs[0], y);
        assert forall y :: y in Insert(x, xs[1..]) ==> Less(xs[0], y);
      }
    }
  }

  lemma {:induction false} SortedSetSorts(xs: seq<string>)
    ensures StrictlyAscending(SortedSet(xs))
    ensures forall y :: y in SortedSet(xs) <==> y in xs
  {
    if xs != [] {
      SortedSetSorts(xs[1..]);
      InsertSorts(xs[0], SortedSet(xs[1..]));
      assert xs == [xs[0]] + xs[1..];
    }
  }

  lemma TailElements(xs: seq<string>)
    requires StrictlyAscending(xs) && xs != []
    ensures forall s :: s in xs[1..] <==> s in xs && s != xs[0]
  {
    LessIsTotal(xs[0], xs[0]);
    assert xs == [xs[0]] + xs[1..];
    forall s | s in xs[1..]
      ensures s != xs[0]
    {
      var i :| 0 <= i < |xs[1..]| && xs[1..][i] == s;
      assert Less(xs[0], xs[i + 1]);
    }
  }

  // A strictly ascending list is determined by its elements.
  lemma {:induction false} AscendingIsUnique(xs: seq<string>, ys: seq<string>)
    requires StrictlyAscending(xs) && StrictlyAscending(ys)
    requires forall s :: s in xs <==> s in ys
    ensures xs == ys
    decreases |xs|
  {
    NonemptyHasMember(xs);
    NonemptyHasMember(ys);
    if xs != [] {
      assert xs[0] in ys && ys[0] in xs;
      assert xs[0] == ys[0] by {
        LessIsTotal(xs[0], ys[0]);
      }
      TailElements(xs);
      TailElements(ys);
      AscendingIsUnique(xs[1..], ys[1..]);
    }
  }

  // ---------------------------------------------------------------- what a principal may hold

  /** The allowed_scopes column: null or empty, text that is not a JSON list, or a list. */
  datatype Override = Absent | Undecodable | Listed(scopes: seq<string>)

  function Decoded(o: Override): seq<string> {
    if o.Listed? then o.scopes else []
  }

  function ResolveUserScopes(pack: PackModel, role: string, o: Override): seq<string> {
    if o.Absent? then pack.PermissionsForRole(role)
    else if WILDCARD in Decoded(o) then pack.PermissionsForRole(role)
    else Decoded(o)
  }

  function ResolveClientScopes(pack: PackModel, stamped: Override): seq<string> {
    if WILDCARD in Decoded(stamped) then pack.permissions else Decoded(stamped)
  }

  // `rows`: the codenames the role-assignment query returned, in any order.
  function EffectiveScopes(pack: PackModel, role: string, o: Override, rows: seq<string>): seq<string> {
    var base := ResolveUserScopes(pack, role, o);
    if !o.Absent? then base
    else base + SortedSet(Filter(rows, Elements(rows) - Elements(base)))
  }

  /** Without an override the scopes are the role's own list, followed by what assignments add:
      strictly ascending and disjoint from it. Together they are exactly the union. An override
      stops the union: a list without a wildcard is all there is, and a value that is no list is
      nothing. */
  lemma EffectiveScopesShape(pack: PackModel, role: string, o: Override, rows: seq<string>)
    ensures var base := ResolveUserScopes(pack, role, o);
            var all := EffectiveScopes(pack, role, o, rows);
            && |base| <= |all| && all[..|base|] == base
            && StrictlyAscending(all[|base|..])
            && (forall s :: s in all[|base|..] ==> s !in base)
            && (forall s :: s in all <==> s in base || (o.Absent? && s in rows))
            && (!o.Absent? ==> all == base)
            && (o.Undecodable? ==> all == []) && (o.Listed? && WILDCARD !in o.scopes ==> all == o.scopes)
  {
    var base := ResolveUserScopes(pack, role, o);
    var fresh_ := Filter(rows, Elements(rows) - Elements(base));
    var all := EffectiveScopes(pack, role, o, rows);
    FilterMembers(rows, Elements(rows) - Elements(base));
    SortedSetSorts(fresh_);
    if o.Absent? {
      assert all[|base|..] == SortedSet(fresh_);
      forall s
        ensures s in all <==> s in base || s in rows
      {
        assert s in all <==> s in base || s in SortedSet(fresh_);
      }
    }
  }

  /** An override that lists the wildcard gives a user exactly what the pack gives the role, and a client
      all of the pack's vocabulary; any other override gives what it lists. */
  lemma WildcardLiftsTheOverride(pack: PackModel, role: string, scopes: seq<string>, rows: seq<string>)
    requires pack.Valid()
    ensures var all := EffectiveScopes(pack, role, Listed(scopes), rows);
            && all == (if WILDCARD in scopes then EffectiveScopes(pack, role, Absent, []) else scopes)
            && (WILDCARD in scopes ==> forall p :: p in all <==> pack.Gives(role, p))
    ensures ResolveClientScopes(pack, Listed(scopes)) == if WILDCARD in scopes then pack.permissions else scopes
  {
    pack.RolesStayWithinVocabulary(role);
    EffectiveScopesShape(pack, role, Absent, []);
  }

  /** The order in which the database returns the rows does not show in the claim. */
  lemma RowOrderIsIrrelevant(pack: PackModel, role: string, o: Override, rows: seq<string>, rows': seq<string>)
    requires forall s :: s in rows <==> s in rows'
    ensures EffectiveScopes(pack, role, o, rows) == EffectiveScopes(pack, role, o, rows')
  {
    var base := ResolveUserScopes(pack, role, o);
    assert Elements(rows) == Elements(rows');
    var wanted := Elements(rows) - Elements(base);
    FilterMembers(rows, wanted);
    FilterMembers(rows', wanted);
    SortedSetSorts(Filter(rows, wanted));
    SortedSetSorts(Filter(rows', wanted));
    AscendingIsUnique(SortedSet(Filter(rows, wanted)), SortedSet(Filter(rows', wanted)));
  }

  /** No wildcard is ever shipped to a user, and none is resolved for a client, when the pack
      vocabulary and the permission table hold none. */
  lemma NoWildcardInClaims(pack: PackModel, role: string, o: Override, rows: seq<string>)
    requires WILDCARD !in pack.permissions && WILDCARD !in rows
    ensures WILDCARD !in EffectiveScopes(pack, role, o, rows)
    ensures WILDCARD !in ResolveClientScopes(pack, o)
  {
    EffectiveScopesShape(pack, role, o, rows);
  }
}

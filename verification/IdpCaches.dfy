/** The in-process caches of sso_service.py: discovery documents, JWKS documents, and
    client-credentials bearer tokens. Instants come from the monotonic clock. */
module IdpCaches {
  import opened Common

  const DISCOVERY_CACHE_TTL: Time := 1 * HOUR
  const CC_TOKEN_REFRESH_MARGIN := 60
  const DEFAULT_EXPIRES_IN := 300

  datatype Entry<+V> = Entry(until: Time, value: V)

  type Cache<!K, +V> = map<K, Entry<V>>

  function Lookup<K, V>(cache: Cache<K, V>, key: K, now: Time): Option<V> {
    if key in cache && cache[key].until > now then Some(cache[key].value) else None
  }

  // ---------------------------------------------------------------- any interleaving of fetches

  /** A fetch that missed the cache at `start` and came back with `value`, to be kept for `ttl`;
      a ttl that is not positive is not kept at all. */
  datatype Fetch<K, V> = Fetch(key: K, start: Time, ttl: Time, value: V)

  // The cache once these fetches have completed, in this order. Requests overlap freely: a
  // fetch may have started long before, or after, others that completed ahead of it.
  function CacheAfter<K, V>(completed: seq<Fetch<K, V>>): Cache<K, V> {
    if completed == [] then map[]
    else
      var before := CacheAfter(completed[..|completed| - 1]);
      var f := completed[|completed| - 1];
      if f.ttl > 0 then before[f.key := Entry(f.start + f.ttl, f.value)] else before
  }

  // The i-th fetch is the last one kept for its key.
  ghost predicate LastKept<K, V>(completed: seq<Fetch<K, V>>, i: int) {
    && 0 <= i < |completed| && completed[i].ttl > 0
    && forall j :: i < j < |completed| && completed[j].ttl > 0 ==> completed[j].key != completed[i].key
  }

  lemma {:induction false} EntriesComeFromLastKept<K, V>(completed: seq<Fetch<K, V>>, key: K)
    ensures key in CacheAfter(completed) <==> exists i :: LastKept(completed, i) && completed[i].key == key
    ensures forall i :: LastKept(completed, i) && completed[i].key == key ==>
              key in CacheAfter(completed)
              && CacheAfter(completed)[key] == Entry(completed[i].start + completed[i].ttl, completed[i].value)
  {
    if completed == [] {
    } else {
      var n := |completed| - 1;
      var before := completed[..n];
      EntriesComeFromLastKept(before, key);
      if completed[n].ttl > 0 && completed[n].key == key {
        assert LastKept(completed, n);
      } else {
        forall i
          ensures LastKept(before, i) && before[i].key == key <==> LastKept(completed, i) && completed[i].key == key
        {
          if LastKept(completed, i) && completed[i].key == key {
            assert i < n;
          }
        }
      }
    }
  }

  /** A lookup hits exactly when the last fetch kept for that very key is still within its
      lifetime, counted from the moment that fetch started, and returns what it fetched. */
  lemma {:induction false} HitsAreFresh<K, V>(completed: seq<Fetch<K, V>>, key: K, now: Time, value: V)
    ensures Lookup(CacheAfter(completed), key, now) == Some(value) <==>
            exists i :: && LastKept(completed, i) && completed[i].key == key && completed[i].value == value
                        && now < completed[i].start + completed[i].ttl
  {
    EntriesComeFromLastKept(completed, key);
  }

  // ---------------------------------------------------------------- the three caches

  datatype CcKey = CcKey(tokenUrl: string, clientId: string, secretHash: Digest)

  datatype CcAnswer =
    | HttpError(status: int)
    | NotJson
    | Payload(accessToken: string, expiresIn: Option<int>)

  // `document`: what a 200 response parsed to, if it was acceptable.
  datatype DocAnswer = DocAnswer(status: int, document: Option<string>)

  // Credentials for a JWKS endpoint that refuses anonymous requests.
  datatype Fallback = Fallback(tokenUrl: string, clientId: string, clientSecret: string, scope: Option<string>) {
    function Key(): CcKey {
      CcKey(tokenUrl, clientId, Digest(clientSecret))
    }
  }

  datatype FetchError = FetchFailed | Unusable

  // The lifetime for which a bearer token is kept; nothing at or below the margin is kept.
  function TokenTtl(expiresIn: int): Time {
    (expiresIn - CC_TOKEN_REFRESH_MARGIN) * SECOND
  }

  function ReportedLifetime(a: CcAnswer): int
    requires a.Payload?
  {
    if a.expiresIn.Some? then a.expiresIn.value else DEFAULT_EXPIRES_IN
  }

  predicate Bearer(a: CcAnswer) {
    a.Payload? && a.accessToken != ""
  }

  predicate Acceptable(a: DocAnswer) {
    a.status == 200 && a.document.Some?
  }

  datatype Contents = Contents(
    discovery: Cache<string, string>, jwks: Cache<string, string>, ccTokens: Cache<CcKey, string>)

  /** Every fetch is cut where it awaits the network: the lookup, which may hit, happens at one instant;
      the answer, good or bad, arrives when others may have come and gone. An answer's `start` is
      the instant its lookup missed. */
  datatype Event =
    | TokenLookup(key: CcKey, scope: Option<string>, at: Time)
    | TokenAnswer(key: CcKey, scope: Option<string>, start: Time, reply: CcAnswer)
    | JwksLookup(url: string, at: Time)
    | JwksAnswer(url: string, start: Time, answer: DocAnswer)
    | DiscoveryLookup(issuer: string, at: Time)
    | DiscoveryAnswer(issuer: string, start: Time, answer: DocAnswer)

  function Apply(c: Contents, e: Event): Contents {
    match e
    case TokenAnswer(key, _, start, reply) =>
      if Bearer(reply) && ReportedLifetime(reply) > CC_TOKEN_REFRESH_MARGIN
      then c.(ccTokens := c.ccTokens[key := Entry(start + TokenTtl(ReportedLifetime(reply)), reply.accessToken)])
      else c
    case JwksAnswer(url, start, answer) =>
      if Acceptable(answer) then c.(jwks := c.jwks[url := Entry(start + DISCOVERY_CACHE_TTL, answer.document.value)])
      else c
    case DiscoveryAnswer(issuer, start, answer) =>
      if Acceptable(answer)
      then c.(discovery := c.discovery[issuer := Entry(start + DISCOVERY_CACHE_TTL, answer.document.value)])
      else c
    case _ => c
  }

  /** The module-level dictionaries, and the two halves of each fetch. */
  class Caches {
    var discovery: Cache<string, string>
    var jwks: Cache<string, string>
    var ccTokens: Cache<CcKey, string>

    function Snapshot(): Contents
      reads this
    {
      Contents(discovery, jwks, ccTokens)
    }

    constructor ()
      ensures Snapshot() == Contents(map[], map[], map[])
    {
      discovery, jwks, ccTokens := map[], map[], map[];
    }

    method CachedToken(key: CcKey, now: Time) returns (hit: Option<string>)
      ensures hit == Lookup(ccTokens, key, now)
    {
      hit := if key in ccTokens && ccTokens[key].until > now then Some(ccTokens[key].value) else None;
    }

    // The half after the await; `start` is when the lookup missed.
    method FinishTokenFetch(key: CcKey, scope: Option<string>, start: Time, answer: CcAnswer)
      returns (r: Result<string, FetchError>)
      modifies this`ccTokens
      ensures r.Ok? <==> Bearer(answer)
      ensures r.Ok? ==> r.value == answer.accessToken
      ensures Snapshot() == Apply(old(Snapshot()), TokenAnswer(key, scope, start, answer))
    {
      match answer {
        case HttpError(_) => return Err(FetchFailed);
        case NotJson => return Err(Unusable);
        case Payload(token, expiresIn) =>
          if token == "" {
            return Err(Unusable);
          }
          var lifetime := if expiresIn.Some? then expiresIn.value else DEFAULT_EXPIRES_IN;
          if lifetime > CC_TOKEN_REFRESH_MARGIN {
            var ttl := (lifetime - CC_TOKEN_REFRESH_MARGIN) * SECOND;
            ccTokens := ccTokens[key := Entry(start + ttl, token)];
          }
          return Ok(token);
      }
    }

    method ClientCredentialsToken(tokenUrl: string, clientId: string, clientSecret: string,
                                  scope: Option<string>, now: Time, answer: CcAnswer)
      returns (r: Result<string, FetchError>)
      modifies this`ccTokens
      ensures var key := CcKey(tokenUrl, clientId, Digest(clientSecret));
              var hit := Lookup(old(ccTokens), key, now);
              && (r.Ok? <==> hit.Some? || Bearer(answer))
              && (r.Ok? ==> r.value == if hit.Some? then hit.value else answer.accessToken)
              && Snapshot() == if hit.Some? then old(Snapshot())
                               else Apply(old(Snapshot()), TokenAnswer(key, scope, now, answer))
    {
      var key := CcKey(tokenUrl, clientId, Digest(clientSecret));
      var hit := CachedToken(key, now);
      if hit.Some? {
        return Ok(hit.value);
      }
      r := FinishTokenFetch(key, scope, now, answer);
    }

    method CachedJwks(url: string, now: Time) returns (hit: Option<string>)
      ensures hit == Lookup(jwks, url, now)
    {
      hit := if url in jwks && jwks[url].until > now then Some(jwks[url].value) else None;
    }

    method FinishJwks(url: string, start: Time, answer: DocAnswer) returns (r: Result<string, FetchError>)
      modifies this`jwks
      ensures r.Ok? <==> Acceptable(answer)
      ensures r.Ok? ==> r.value == answer.document.value
      ensures Snapshot() == Apply(old(Snapshot()), JwksAnswer(url, start, answer))
    {
      if answer.status != 200 {
        return Err(FetchFailed);
      }
      if answer.document.None? {
        return Err(Unusable);
      }
      jwks := jwks[url := Entry(start + DISCOVERY_CACHE_TTL, answer.document.value)];
      return Ok(answer.document.value);
    }

    // `first` answers the anonymous request; `second` the one retried with a bearer token.
    method FetchJwks(url: string, now: Time, first: DocAnswer, fallback: Option<Fallback>,
                     tokenAskedAt: Time, tokenAnswer: CcAnswer, second: DocAnswer)
      returns (r: Result<string, FetchError>)
      modifies this`jwks, this`ccTokens
      ensures var hit := Lookup(old(jwks), url, now);
              var retried := hit.None? && first.status == 401 && fallback.Some?;
              var token := if retried then Lookup(old(ccTokens), fallback.value.Key(), tokenAskedAt) else None;
              var bearer := retried ==> token.Some? || Bearer(tokenAnswer);
              var last := if retried then second else first;
              var asked := if retried && token.None?
                           then Apply(old(Snapshot()), TokenAnswer(fallback.value.Key(), fallback.value.scope,
                                                                   tokenAskedAt, tokenAnswer))
                           else old(Snapshot());
              && (r.Ok? <==> hit.Some? || (bearer && Acceptable(last)))
              && (r.Ok? ==> r.value == if hit.Some? then hit.value else last.document.value)
              && Snapshot() == if hit.Some? || !bearer then asked else Apply(asked, JwksAnswer(url, now, last))
    {
      var hit := CachedJwks(url, now);
      if hit.Some? {
        return Ok(hit.value);
      }
      var resp := first;
      if first.status == 401 && fallback.Some? {
        var f := fallback.value;
        var bearer := ClientCredentialsToken(f.tokenUrl, f.clientId, f.clientSecret, f.scope, tokenAskedAt, tokenAnswer);
        if bearer.Err? {
          return Err(bearer.error);
        }
        resp := second;
      }
      r := FinishJwks(url, now, resp);
    }

    method CachedMetadata(issuer: string, now: Time) returns (hit: Option<string>)
      ensures hit == Lookup(discovery, issuer, now)
    {
      hit := if issuer in discovery && discovery[issuer].until > now then Some(discovery[issuer].value) else None;
    }

    method DiscoverMetadata(issuer: string, now: Time, answer: DocAnswer)
      returns (r: Result<string, FetchError>)
      modifies this`discovery
      ensures var hit := Lookup(old(discovery), issuer, now);
              && (r.Ok? <==> hit.Some? || Acceptable(answer))
              && (r.Ok? ==> r.value == if hit.Some? then hit.value else answer.document.value)
              && Snapshot() == if hit.Some? then old(Snapshot())
                               else Apply(old(Snapshot()), DiscoveryAnswer(issuer, now, answer))
    {
      var hit := CachedMetadata(issuer, now);
      if hit.Some? {
        return Ok(hit.value);
      }
      if answer.status != 200 {
        return Err(FetchFailed);
      }
      if answer.document.None? {
        return Err(Unusable);
      }
      discovery := discovery[issuer := Entry(now + DISCOVERY_CACHE_TTL, answer.document.value)];
      return Ok(answer.document.value);
    }
  }

  // ---------------------------------------------------------------- whole histories

  function After(history: seq<Event>): Contents {
    if history == [] then Contents(map[], map[], map[])
    else Apply(After(history[..|history| - 1]), history[|history| - 1])
  }

  // What an event does to one of the caches, as a completed fetch; most are not kept.
  function TokenFetch(e: Event): Fetch<CcKey, string> {
    if e.TokenAnswer? && Bearer(e.reply)
    then Fetch(e.key, e.start, TokenTtl(ReportedLifetime(e.reply)), e.reply.accessToken)
    else Fetch(CcKey("", "", Digest("")), 0, 0, "")
  }

  function JwksFetch(e: Event): Fetch<string, string> {
    if e.JwksAnswer? && Acceptable(e.answer) then Fetch(e.url, e.start, DISCOVERY_CACHE_TTL, e.answer.document.value)
    else Fetch("", 0, 0, "")
  }

  function DiscoveryFetch(e: Event): Fetch<string, string> {
    if e.DiscoveryAnswer? && Acceptable(e.answer)
    then Fetch(e.issuer, e.start, DISCOVERY_CACHE_TTL, e.answer.document.value)
    else Fetch("", 0, 0, "")
  }

  function Fetches<K, V>(history: seq<Event>, fetch: Event -> Fetch<K, V>): seq<Fetch<K, V>> {
    seq(|history|, i requires 0 <= i < |history| => fetch(history[i]))
  }

  lemma LastFetch<K, V>(history: seq<Event>, fetch: Event -> Fetch<K, V>)
    requires history != []
    ensures var n := |history| - 1;
            var before, f := CacheAfter(Fetches(history[..n], fetch)), fetch(history[n]);
            CacheAfter(Fetches(history, fetch))
            == if f.ttl > 0 then before[f.key := Entry(f.start + f.ttl, f.value)] else before
  {
    var n := |history| - 1;
    assert Fetches(history, fetch)[..n] == Fetches(history[..n], fetch);
  }

  /** Every cache, after any history of lookups and answers, is what its kept fetches amount to. */
  lemma {:induction false} CachesAreTheirFetches(history: seq<Event>)
    ensures After(history).ccTokens == CacheAfter(Fetches(history, TokenFetch))
    ensures After(history).jwks == CacheAfter(Fetches(history, JwksFetch))
    ensures After(history).discovery == CacheAfter(Fetches(history, DiscoveryFetch))
  {
    if history != [] {
      var n := |history| - 1;
      CachesAreTheirFetches(history[..n]);
      LastFetch(history, TokenFetch);
      LastFetch(history, JwksFetch);
      LastFetch(history, DiscoveryFetch);
      hide CacheAfter, Fetches;
    }
  }

  // The j-th event kept a token for this key, and nothing before the i-th replaced it.
  ghost predicate TokenSource(history: seq<Event>, j: int, i: int, key: CcKey) {
    && 0 <= j < i <= |history| && history[j].TokenAnswer? && history[j].key == key
    && history[j].reply.Payload? && history[j].reply.accessToken != "" && history[j].reply.expiresIn.GetOr(300) > 60
    && forall m :: && j < m < i && history[m].TokenAnswer? && history[m].key == key
                   && history[m].reply.Payload? && history[m].reply.accessToken != "" ==>
                     history[m].reply.expiresIn.GetOr(300) <= 60
  }

  // What the lookup at the i-th event returns.
  function TokenReturned(history: seq<Event>, i: int): Option<string>
    requires 0 <= i < |history| && history[i].TokenLookup?
  {
    Lookup(After(history[..i]).ccTokens, history[i].key, history[i].at)
  }

  lemma SourceIsLastKept(history: seq<Event>, i: int, key: CcKey)
    requires 0 <= i <= |history|
    ensures var fetches := Fetches(history[..i], TokenFetch);
            forall j :: TokenSource(history, j, i, key) <==> LastKept(fetches, j) && fetches[j].key == key
  {
    var fetches := Fetches(history[..i], TokenFetch);
    assert |fetches| == i && forall m :: 0 <= m < i ==> fetches[m] == TokenFetch(history[m]);
  }

  /** In every history, whatever the order in which answers arrive, a lookup returns a token if and
      only if that token is the last one kept for the same token URL, client and secret, its
      advertised lifetime (five minutes where none was) exceeded a minute, and it is still earlier
      than a minute before that lifetime, counted from the start of its fetch, runs out. */
  lemma CachedTokensAreFresh(history: seq<Event>, i: int, token: string)
    requires 0 <= i < |history| && history[i].TokenLookup?
    ensures TokenReturned(history, i) == Some(token) <==>
            exists j :: && TokenSource(history, j, i, history[i].key) && history[j].reply.accessToken == token
                        && history[i].at < history[j].start + (history[j].reply.expiresIn.GetOr(300) - 60) * SECOND
  {
    var key := history[i].key;
    var fetches := Fetches(history[..i], TokenFetch);
    CachesAreTheirFetches(history[..i]);
    HitsAreFresh(fetches, key, history[i].at, token);
    SourceIsLastKept(history, i, key);
    assert forall j :: TokenSource(history, j, i, key) ==>
             history[..i][j] == history[j] && fetches[j] == TokenFetch(history[j]) && history[j].TokenAnswer? && Bearer(history[j].reply);
    hide After, CacheAfter, LastKept, TokenSource;
  }

  // The j-th event brought an acceptable JWKS document from this url, and none has come before the i-th since.
  ghost predicate JwksSource(history: seq<Event>, j: int, i: int, url: string, document: string) {
    && 0 <= j < i <= |history| && history[j].JwksAnswer? && history[j].url == url
    && history[j].answer == DocAnswer(200, Some(document))
    && forall m :: j < m < i && history[m].JwksAnswer? && history[m].url == url ==>
                     history[m].answer.status != 200 || history[m].answer.document.None?
  }

  ghost predicate DiscoverySource(history: seq<Event>, j: int, i: int, issuer: string, document: string) {
    && 0 <= j < i <= |history| && history[j].DiscoveryAnswer? && history[j].issuer == issuer
    && history[j].answer == DocAnswer(200, Some(document))
    && forall m :: j < m < i && history[m].DiscoveryAnswer? && history[m].issuer == issuer ==>
                     history[m].answer.status != 200 || history[m].answer.document.None?
  }

  /** A JWKS document is returned if and only if it is the last acceptable one fetched from its url and
      its fetch started less than an hour ago. */
  lemma {:induction false} CachedJwksAreUnderAnHourOld(history: seq<Event>, i: int, document: string)
    requires 0 <= i < |history| && history[i].JwksLookup?
    ensures Lookup(After(history[..i]).jwks, history[i].url, history[i].at) == Some(document) <==>
            exists j :: && JwksSource(history, j, i, history[i].url, document)
                        && history[i].at < history[j].start + 3600 * SECOND
  {
    var url := history[i].url;
    var fetches := Fetches(history[..i], JwksFetch);
    CachesAreTheirFetches(history[..i]);
    HitsAreFresh(fetches, url, history[i].at, document);
    assert |fetches| == i && forall m :: 0 <= m < i ==> fetches[m] == JwksFetch(history[m]);
    hide After, CacheAfter, Fetches;
    forall j
      ensures JwksSource(history, j, i, url, document) <==>
              LastKept(fetches, j) && fetches[j].key == url && fetches[j].value == document
      ensures JwksSource(history, j, i, url, document) ==>
                fetches[j].start == history[j].start && fetches[j].ttl == 3600 * SECOND
    {
    }
  }

  /** So is a discovery document. */
  lemma {:induction false} CachedMetadataIsUnderAnHourOld(history: seq<Event>, i: int, document: string)
    requires 0 <= i < |history| && history[i].DiscoveryLookup?
    ensures Lookup(After(history[..i]).discovery, history[i].issuer, history[i].at) == Some(document) <==>
            exists j :: && DiscoverySource(history, j, i, history[i].issuer, document)
                        && history[i].at < history[j].start + 3600 * SECOND
  {
    var issuer := history[i].issuer;
    var fetches := Fetches(history[..i], DiscoveryFetch);
    CachesAreTheirFetches(history[..i]);
    HitsAreFresh(fetches, issuer, history[i].at, document);
    assert |fetches| == i && forall m :: 0 <= m < i ==> fetches[m] == DiscoveryFetch(history[m]);
    hide After, CacheAfter, Fetches;
    forall j
      ensures DiscoverySource(history, j, i, issuer, document) <==>
              LastKept(fetches, j) && fetches[j].key == issuer && fetches[j].value == document
      ensures DiscoverySource(history, j, i, issuer, document) ==>
                fetches[j].start == history[j].start && fetches[j].ttl == 3600 * SECOND
    {
    }
  }

  // ---------------------------------------------------------------- scopes

  // Every event on the token cache uses a key with a scope from this set.
  ghost predicate Uses(history: seq<Event>, pairs: set<(CcKey, Option<string>)>) {
    forall e :: e in history ==>
      && (e.TokenLookup? ==> (e.key, e.scope) in pairs)
      && (e.TokenAnswer? ==> (e.key, e.scope) in pairs)
  }

  // Whatever a lookup returns had been asked for with the lookup's own scope.
  ghost predicate ScopesAgree(history: seq<Event>) {
    forall i, j :: && 0 <= i < |history| && history[i].TokenLookup? && TokenReturned(history, i).Some?
                   && TokenSource(history, j, i, history[i].key)
                   ==> history[j].scope == history[i].scope
  }

  /** The token cache's key leaves the scope out. Callers can count on getting tokens that were asked
      for with their own scope, in every history, if and only if no token URL, client and secret are
      ever used with two scopes. */
  lemma ScopesAgreeExactly(pairs: set<(CcKey, Option<string>)>)
    ensures (forall history :: Uses(history, pairs) ==> ScopesAgree(history)) <==>
            (forall p, q :: p in pairs && q in pairs && p.0 == q.0 ==> p == q)
  {
    if forall p, q :: p in pairs && q in pairs && p.0 == q.0 ==> p == q {
      forall history: seq<Event> | Uses(history, pairs)
        ensures ScopesAgree(history)
      {
        forall i, j | && 0 <= i < |history| && history[i].TokenLookup? && TokenReturned(history, i).Some?
                      && TokenSource(history, j, i, history[i].key)
          ensures history[j].scope == history[i].scope
        {
          assert history[i] in history && history[j] in history;
          assert (history[i].key, history[i].scope) in pairs && (history[j].key, history[j].scope) in pairs;
        }
      }
    } else {
      var p, q :| p in pairs && q in pairs && p.0 == q.0 && p != q;
      var history := TwoScopes(p.0, p.1, q.1);
      SecondScopeGetsFirstToken(p.0, p.1, q.1);
      assert Uses(history, pairs);
      assert !ScopesAgree(history) by {
        assert TokenSource(history, 0, 1, p.0);
      }
    }
  }

  // A token is fetched for one scope and looked up for another.
  function TwoScopes(key: CcKey, asked: Option<string>, wanted: Option<string>): seq<Event> {
    [TokenAnswer(key, asked, 0, Payload("token", Some(300))), TokenLookup(key, wanted, 1)]
  }

  /** For instance: a token asked for with one scope is returned to a caller that wants another. */
  lemma SecondScopeGetsFirstToken(key: CcKey, asked: Option<string>, wanted: Option<string>)
    ensures var history := TwoScopes(key, asked, wanted);
            TokenReturned(history, 1) == Some("token") && TokenSource(history, 0, 1, key)
  {
    var history := TwoScopes(key, asked, wanted);
    assert TokenSource(history, 0, 1, key);
    CachedTokensAreFresh(history, 1, "token");
  }
}

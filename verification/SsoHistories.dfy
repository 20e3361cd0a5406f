/** What every history of authorize calls and exchanges keeps: the correspondence between the two, how
    many exchanges one authorize call can serve when they overlap, and what one exchange needs. */
module SsoHistories {
  import opened Common
  import opened SsoFlow

  // ---------------------------------------------------------------- the correspondence

  /** Every token issue goes back to an earlier authorize call for the same provider: the row that
      call stored was read less than ten minutes after it, and the exchange presented its
      redirect_uri, which is the configured callback where one is configured, and an ID token with a
      subject, carrying its nonce. State and nonce are never empty, and that provider has not been
      deleted before the read. Secrets need not be fresh for this. */
  lemma IssuedTokensWereAuthorized(history: seq<Event>, j: int)
    requires IssuedAt(history, j)
    ensures var i, r := OriginAt(history, j), history[j].request.read;
            && 0 <= i < r < j && MintedAt(history, i)
            && history[i].request.state == history[r].request.state
            && history[i].request.provider == history[r].request.provider
            && history[i].request.redirectUri == history[j].request.redirectUri
            && history[j].request.idp == Verified(Some(history[i].request.nonce), history[j].request.idp.externalId)
            && history[i].request.requiredRedirect in {None, Some(history[j].request.redirectUri)}
            && history[j].request.idp.externalId != ""
            && history[i].request.state != "" && history[i].request.nonce != ""
            && (forall m :: i < m < r ==> history[m].request != DeleteProvider(history[i].request.provider.value))
            && history[r].at < history[i].at + 10 * 60 * SECOND
  {
    ExchangeHasOrigin(history, j);
  }

  /** The correspondence. Two exchanges go back to the same authorize call only if they overlap: the
      later to finish read the row before the earlier deleted it. So exchanges that do not
      overlap map to authorize calls one to one. */
  lemma ExchangesMatchAuthorizesOneToOne(history: seq<Event>, j: int, j': int)
    requires FinishedAt(history, j) && FinishedAt(history, j') && j < j'
    ensures OriginAt(history, j) == OriginAt(history, j') ==> history[j'].request.read < j
  {
    ExchangeHasOrigin(history, j);
    ExchangeHasOrigin(history, j');
  }

  ghost predicate MintedBetween(history: seq<Event>, state: string, a: int, b: int) {
    exists i :: a <= i < b && MintedAt(history, i) && history[i].request.state == state
  }

  lemma {:induction false} OriginStays(history: seq<Event>, state: string, a: int, b: int)
    requires 0 <= a <= b <= |history|
    ensures Origin(history[..a], state) == Origin(history[..b], state) <==> !MintedBetween(history, state, a, b)
    ensures Origin(history[..b], state) < b
    decreases b
  {
    if b > 0 {
      PrefixAgrees(history, b);
      assert history[..b][..b - 1] == history[..b - 1];
      hide RowsAfter, MintedAt;
      if a < b {
        OriginStays(history, state, a, b - 1);
        OriginBound(history[..a], state);
      } else {
        OriginBound(history[..b], state);
      }
    }
  }

  lemma {:induction false} OriginBound(history: seq<Event>, state: string)
    ensures Origin(history, state) < |history|
  {
    if history != [] {
      OriginBound(history[..|history| - 1], state);
    }
  }

  /** Exactly: two exchanges share their authorize call if and only if they present the same state and
      no authorize call stores it anew between their reads. */
  lemma SharedOriginExactly(history: seq<Event>, j: int, j': int)
    requires FinishedAt(history, j) && FinishedAt(history, j')
    requires history[j].request.read <= history[j'].request.read
    ensures OriginAt(history, j) == OriginAt(history, j') <==>
            && StateAt(history, j) == StateAt(history, j')
            && !MintedBetween(history, StateAt(history, j), history[j].request.read, history[j'].request.read)
  {
    ExchangeHasOrigin(history, j);
    ExchangeHasOrigin(history, j');
    if StateAt(history, j) == StateAt(history, j') {
      OriginStays(history, StateAt(history, j), history[j].request.read, history[j'].request.read);
    }
  }

  // ---------------------------------------------------------------- exchanges in flight

  // The j-th event finishes the read r of a row that goes back to the i-th event.
  predicate FinishesFor(history: seq<Event>, j: int, r: int, i: int) {
    FinishedAt(history, j) && history[j].request.read == r && OriginAt(history, j) == i
  }

  ghost predicate UsedFor(history: seq<Event>, r: int, i: int) {
    exists j :: FinishesFor(history, j, r, i)
  }

  // Read by the t-th event, and finishing at it or later.
  ghost predicate Pending(history: seq<Event>, r: int, t: int) {
    r < t && exists j :: t <= j && FinishedAt(history, j) && history[j].request.read == r
  }

  // The exchanges that use the row of the i-th event, each named by its read.
  ghost function ExchangesFor(history: seq<Event>, i: int): set<int> {
    set r | 0 <= r < |history| && UsedFor(history, r, i)
  }

  ghost function InFlight(history: seq<Event>, t: int): set<int> {
    set r | 0 <= r < |history| && Pending(history, r, t)
  }

  lemma {:induction false} FirstExchangeFor(history: seq<Event>, i: int, j: int, r: int) returns (first: int, its: int)
    requires FinishesFor(history, j, r, i)
    ensures FinishesFor(history, first, its, i)
    ensures forall m, q :: FinishesFor(history, m, q, i) ==> first <= m
    decreases j
  {
    if m, q :| m < j && FinishesFor(history, m, q, i) {
      first, its := FirstExchangeFor(history, i, m, q);
    } else {
      first, its := j, r;
    }
  }

  /** With never more than k exchanges between their read and their deletion, no authorize call
      serves more than k exchanges. With one at a time (k = 1), the correspondence is one to one. */
  lemma AtMostKExchangesPerAuthorize(history: seq<Event>, i: int, k: nat)
    requires forall t :: 0 <= t < |history| ==> |InFlight(history, t)| <= k
    ensures |ExchangesFor(history, i)| <= k
  {
    var exchanges := ExchangesFor(history, i);
    if exchanges != {} {
      var r :| r in exchanges;
      var j :| FinishesFor(history, j, r, i);
      var first, _ := FirstExchangeFor(history, i, j, r);
      forall q | q in exchanges
        ensures q in InFlight(history, first)
      {
        var m :| FinishesFor(history, m, q, i);
        if first < m {
          ExchangesMatchAuthorizesOneToOne(history, first, m);
        }
      }
      SubsetCardinality(exchanges, InFlight(history, first));
    }
  }

  // One authorize call, then k reads of its row, then k finishes.
  function Overlap(k: nat, state: string, nonce: string, uri: string, subject: string): seq<Event> {
    [Event(0, Authorize(Some(0), uri, None, state, nonce))]
    + seq(k, i => Event(0, Read(Some(0), state)))
    + seq(k, i requires 0 <= i < k => Event(0, Finish(1 + i, uri, Verified(Some(nonce), subject), true)))
  }

  lemma {:induction false} OverlapRows(k: nat, state: string, nonce: string, uri: string, subject: string, n: nat)
    requires 1 <= n <= k + 1 && state != ""
    ensures RowsAfter(Overlap(k, state, nonce, uri, subject)[..n]) == map[state := Row(nonce, 0, uri, STATE_TTL)]
  {
    var prefix := Overlap(k, state, nonce, uri, subject)[..n];
    if n == 1 {
      assert prefix[..0] == [];
      LastEvent(prefix);
    } else {
      assert prefix[..n - 1] == Overlap(k, state, nonce, uri, subject)[..n - 1];
      OverlapRows(k, state, nonce, uri, subject, n - 1);
      LastEvent(prefix);
    }
  }

  lemma OverlapIssues(k: nat, state: string, nonce: string, uri: string, subject: string, i: nat)
    requires i < k && state != "" && nonce != "" && subject != ""
    ensures var history := Overlap(k, state, nonce, uri, subject);
            IssuedAt(history, 1 + k + i) && history[1 + k + i].request.read == 1 + i && OriginAt(history, 1 + k + i) == 0
  {
    var history := Overlap(k, state, nonce, uri, subject);
    OverlapRows(k, state, nonce, uri, subject, 1 + i);
    assert FoundAt(history, 1 + i);
    assert FirstFinish(history, 1 + k + i);
    hide RowsAfter;
    ExchangeHasOrigin(history, 1 + k + i);
    assert forall m :: 0 < m < 1 + i ==> history[m].request.Read?;
  }

  // The places of the k reads.
  function ReadIds(k: nat): set<int> {
    if k == 0 then {} else ReadIds(k - 1) + {k}
  }

  lemma {:induction false} ReadIdsAre(k: nat)
    ensures |ReadIds(k)| == k && forall r :: r in ReadIds(k) <==> 1 <= r <= k
  {
    if k > 0 {
      ReadIdsAre(k - 1);
    }
  }

  /** The bound is met: for every k, k exchanges of one authorize call that all read its row before
      any of them deletes it all issue tokens, with no more than k in flight. */
  lemma KOverlappingExchangesAllSucceed(k: nat, state: string, nonce: string, uri: string, subject: string)
    requires state != "" && nonce != "" && subject != ""
    ensures var history := Overlap(k, state, nonce, uri, subject);
            && (forall t :: 0 <= t < |history| ==> |InFlight(history, t)| <= k)
            && (forall j :: k < j <= 2 * k ==> IssuedAt(history, j))
            && |ExchangesFor(history, 0)| == k
  {
    hide RowsAfter;
    var history := Overlap(k, state, nonce, uri, subject);
    ReadIdsAre(k);
    forall j | k < j <= 2 * k
      ensures IssuedAt(history, j)
    {
      OverlapIssues(k, state, nonce, uri, subject, j - k - 1);
    }
    assert forall r, t :: Pending(history, r, t) ==> r in ReadIds(k);
    forall t | 0 <= t < |history|
      ensures |InFlight(history, t)| <= k
    {
      SubsetCardinality(InFlight(history, t), ReadIds(k));
    }
    forall r
      ensures UsedFor(history, r, 0) <==> r in ReadIds(k)
    {
      if r in ReadIds(k) {
        OverlapIssues(k, state, nonce, uri, subject, r - 1);
        assert FinishesFor(history, k + r, r, 0);
      }
    }
    assert ExchangesFor(history, 0) == ReadIds(k);
  }

  // ---------------------------------------------------------------- one exchange

  /** An exchange that nothing interrupts is its two steps: what it does to the rows, and how it
      ends, is what the handler does. */
  lemma ExchangeIsItsSteps(history: seq<Event>, provider: Option<ProviderId>, state: string, f: Request, now: Time)
    requires f.Finish? && f.read == |history|
    requires forall m :: 0 <= m < |history| && history[m].request.Finish? ==> history[m].request.read < |history|
    ensures var rows := RowsAfter(history);
            var both := history + [Event(now, Read(provider, state)), Event(now, f)];
            var refusal := ReadRefusal(rows, provider, state);
            && (FinishedAt(both, |history| + 1) <==> refusal.None?)
            && RowsAfter(both) == (if refusal.Some? then rows else rows - {state})
            && (refusal.None? ==> OutcomeAt(both, |history| + 1) == FinishOutcome(rows[state], now, f))
  {
    var n := |history|;
    var read, finish := Event(now, Read(provider, state)), Event(now, f);
    var both := history + [read, finish];
    assert both[..n] == history && both[..n + 1] == history + [read] && (history + [read])[..n] == history;
    LastEvent(history + [read]);
    LastEvent(both);
    assert FirstFinish(both, n + 1);
    hide RowsAfter;
  }

  /** An exchange through another provider than the row's is refused, and nothing it does
      afterwards counts: the row stays. */
  lemma WrongProviderChangesNothing(history: seq<Event>, j: int, r: int)
    requires 0 <= r < j == |history| - 1 && history[r].request.Read? && history[j].request.Finish?
    requires history[j].request.read == r
    requires var rows := RowsAfter(history[..r]);
             && history[r].request.state in rows && history[r].request.state != ""
             && history[r].request.provider.Some?
             && history[r].request.provider.value != rows[history[r].request.state].provider
    ensures ReadRefusal(RowsAfter(history[..r]), history[r].request.provider, history[r].request.state)
            == Some(BadState(UnknownState))
    ensures !FinishedAt(history, j) && RowsAfter(history) == RowsAfter(history[..j])
  {
    LastEvent(history);
  }

  // No event strictly between i and j deletes the row the i-th event minted, expired or not.
  ghost predicate LeftAlone(history: seq<Event>, i: int, j: int)
    requires 0 <= i < j <= |history| && history[i].request.Authorize?
  {
    forall m :: i < m < j ==>
      && !(FinishedAt(history, m) && StateAt(history, m) == history[i].request.state)
      && history[m].request != DeleteProvider(history[i].request.provider.GetOr(0))
  }

  lemma {:induction false} MintedRowStays(history: seq<Event>, i: int)
    requires MintedAt(history, i) && LeftAlone(history, i, |history|)
    ensures history[i].request.state in RowsAfter(history)
    ensures RowsAfter(history)[history[i].request.state] == MintedRow(history[i])
    decreases |history|
  {
    var n := |history| - 1;
    LastEvent(history);
    if i < n {
      PrefixAgrees(history, n);
      hide RowsAfter;
      forall m | i < m < n && FinishedAt(history[..n], m)
        ensures StateAt(history[..n], m) == StateAt(history, m)
      {
      }
      MintedRowStays(history[..n], i);
    }
  }

  // A read that finds a state not minted anew since finds the row of that minting.
  lemma FinishedRowWasLeftAlone(history: seq<Event>, i: int, j: int)
    requires MintedAt(history, i) && FinishedAt(history, j)
    requires var r := history[j].request.read;
             && i < r && StateAt(history, j) == history[i].request.state
             && !MintedBetween(history, history[i].request.state, i + 1, r)
    ensures OriginAt(history, j) == i && LeftAlone(history, i, history[j].request.read)
  {
    ExchangeHasOrigin(history, j);
    OriginStays(history, history[i].request.state, i + 1, history[j].request.read);
    PrefixAgrees(history, i + 1);
    hide RowsAfter;
    assert Origin(history[..i + 1], history[i].request.state) == i;
  }

  /** What an exchange needs, exactly: unless the state is minted anew before it is read, the
      exchange issues tokens if and only if the minted row is left alone until it is read, its read
      comes within ten minutes, through the same provider, and it then presents the same
      redirect_uri and an ID token that carries the minted nonce and a stable subject, and
      provisioning, mapping and issue go through. */
  lemma HonestExchangeSucceedsExactly(history: seq<Event>, i: int, j: int)
    requires MintedAt(history, i) && FirstFinish(history, j)
    requires var r := history[j].request.read;
             && i < r < j && history[r].request.Read?
             && history[r].request.state == history[i].request.state
             && !MintedBetween(history, history[i].request.state, i + 1, r)
    ensures var minted, read, x := history[i].request, history[history[j].request.read], history[j].request;
            IssuedAt(history, j) <==>
            && LeftAlone(history, i, x.read)
            && minted.state != "" && minted.nonce != ""
            && read.request.provider == minted.provider
            && read.at < history[i].at + 10 * 60 * SECOND
            && x.redirectUri == minted.redirectUri
            && x.idp.Verified? && x.idp.nonce == Some(minted.nonce) && x.idp.externalId != ""
            && x.completes
  {
    var r := history[j].request.read;
    if FinishedAt(history, j) {
      FinishedRowWasLeftAlone(history, i, j);
    }
    PrefixAgrees(history, r);
    if LeftAlone(history, i, r) {
      forall m | i < m < r && FinishedAt(history[..r], m)
        ensures StateAt(history[..r], m) == StateAt(history, m)
      {
      }
      MintedRowStays(history[..r], i);
    }
  }

  /** A state once deleted is refused at every later read until some authorize call mints it again,
      even if the exchange that deleted it failed. */
  lemma ReplayedStateIsRefused(history: seq<Event>, j: int, r: int)
    requires FinishedAt(history, j) && j < r < |history|
    requires history[r].request.Read? && history[r].request.state == StateAt(history, j)
    requires !MintedBetween(history, StateAt(history, j), history[j].request.read, r)
    ensures !FoundAt(history, r)
    ensures ReadRefusal(RowsAfter(history[..r]), history[r].request.provider, history[r].request.state)
            in {Some(ProviderNotFound), Some(BadState(UnknownState))}
  {
    var state := StateAt(history, j);
    ExchangeHasOrigin(history, j);
    OriginStays(history, state, history[j].request.read, r);
    PrefixAgrees(history, r);
    assert FinishedAt(history[..r], j) && StateAt(history[..r], j) == state;
    if state in RowsAfter(history[..r]) {
      RowsHaveOrigins(history[..r], state);
    }
  }

  /** With fresh nonces, an ID token is accepted twice only by exchanges of one authorize call that
      overlap. */
  lemma IdTokensAreNotReplayed(history: seq<Event>, j: int, j': int)
    requires IssuedAt(history, j) && IssuedAt(history, j') && j < j'
    requires forall a, b :: 0 <= a < b < |history| && MintedAt(history, a) && MintedAt(history, b) ==>
               history[a].request.nonce != history[b].request.nonce
    ensures history[j].request.idp.nonce == history[j'].request.idp.nonce <==>
            OriginAt(history, j) == OriginAt(history, j')
    ensures history[j].request.idp.nonce == history[j'].request.idp.nonce ==> history[j'].request.read < j
  {
    ExchangesMatchAuthorizesOneToOne(history, j, j');
    IssuedTokensWereAuthorized(history, j);
    IssuedTokensWereAuthorized(history, j');
    assert OriginAt(history, j) < OriginAt(history, j') || OriginAt(history, j') < OriginAt(history, j)
           || OriginAt(history, j) == OriginAt(history, j');
  }
}

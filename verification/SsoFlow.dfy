/** The single-sign-on protocol (sso_service.py and the two SSO handlers of main.py): every
    token exchange is tied to one earlier authorize call through a single-use state row.

    Looking a provider up by slug is the database's business: each request carries the id of
    the active provider its slug named, if there was one. */
module SsoFlow {
  import opened Common

  const STATE_TTL: Time := 10 * MINUTE

  type ProviderId = int

  datatype Row = Row(nonce: string, provider: ProviderId, redirectUri: string, expiresAt: Time)

  type Rows = map<string, Row>

  datatype StateError = UnknownState | StateExpired

  // What the identity provider's ID token amounted to once its signature had been checked.
  datatype IdpAnswer = Rejected | Verified(nonce: Option<string>, externalId: string)

  /** `requiredRedirect` is the only callback accepted when a redirect base is configured.

      An exchange is cut where it awaits the database: Read selects the state row and judges it,
      Finish, which names its Read, deletes the row and does the rest. `completes` tells whether
      provisioning, claim mapping and token issue, which come last, all go through; SsoExchange
      says when they do. Elsewhere is any step of another handler. */
  datatype Request =
    | Authorize(provider: Option<ProviderId>, redirectUri: string, requiredRedirect: Option<string>,
                state: string, nonce: string)
    | Read(provider: Option<ProviderId>, state: string)
    | Finish(read: int, redirectUri: string, idp: IdpAnswer, completes: bool)
    | DeleteProvider(id: ProviderId)
    | Elsewhere

  datatype Event = Event(at: Time, request: Request)

  datatype Outcome =
    | MissingState
    | ProviderNotFound
    | BadState(error: StateError)
    | RedirectMismatch
    | IdpRefused
    | NonceMismatch
    | NoStableSubject
    | ProvisioningRaised
    | TokensIssued

  // ---------------------------------------------------------------- the handlers as functions

  predicate Mints(rows: Rows, e: Event) {
    && e.request.Authorize? && e.request.provider.Some?
    && (e.request.requiredRedirect.Some? ==> e.request.redirectUri == e.request.requiredRedirect.value)
    && e.request.state !in rows
  }

  function MintedRow(e: Event): Row
    requires e.request.Authorize? && e.request.provider.Some?
  {
    Row(e.request.nonce, e.request.provider.value, e.request.redirectUri, e.at + STATE_TTL)
  }

  // Why an exchange ends at its read, if it does.
  function ReadRefusal(rows: Rows, provider: Option<ProviderId>, state: string): Option<Outcome> {
    if state == "" then Some(MissingState)
    else if provider.None? then Some(ProviderNotFound)
    else if state !in rows || rows[state].provider != provider.value then Some(BadState(UnknownState))
    else None
  }

  function Consume(rows: Rows, state: string, provider: ProviderId, now: Time): Result<Row, StateError> {
    if state !in rows || rows[state].provider != provider then Err(UnknownState)
    else if rows[state].expiresAt <= now then Err(StateExpired)
    else Ok(rows[state])
  }

  function RowsAfterConsume(rows: Rows, state: string, provider: ProviderId): Rows {
    if state !in rows || rows[state].provider != provider then rows else rows - {state}
  }

  // How an exchange that read this row at `readAt` ends.
  function FinishOutcome(row: Row, readAt: Time, f: Request): Outcome
    requires f.Finish?
  {
    if row.expiresAt <= readAt then BadState(StateExpired)
    else if f.redirectUri != row.redirectUri then RedirectMismatch
    else if f.idp.Rejected? then IdpRefused
    else if f.idp.nonce.None? || f.idp.nonce.value == "" || f.idp.nonce.value != row.nonce then NonceMismatch
    else if f.idp.externalId == "" then NoStableSubject
    else if !f.completes then ProvisioningRaised
    else TokensIssued
  }

  // ---------------------------------------------------------------- the table

  class SsoStates {
    var rows: Rows

    constructor ()
      ensures rows == map[]
    {
      rows := map[];
    }

    method StoreSsoState(state: string, nonce: string, provider: ProviderId, redirectUri: string, now: Time)
      returns (stored: bool)
      modifies this
      ensures stored <==> state !in old(rows)
      ensures rows == if stored then old(rows)[state := Row(nonce, provider, redirectUri, now + 10 * 60 * SECOND)]
                      else old(rows)
    {
      stored := state !in rows;
      if stored {
        rows := rows[state := Row(nonce, provider, redirectUri, now + STATE_TTL)];
      }
    }

    method ConsumeSsoState(state: string, provider: ProviderId, now: Time)
      returns (r: Result<Row, StateError>)
      modifies this
      ensures r == Consume(old(rows), state, provider, now)
      ensures rows == RowsAfterConsume(old(rows), state, provider)
    {
      if state !in rows || rows[state].provider != provider {
        return Err(UnknownState);
      }
      var row := rows[state];
      if row.expiresAt <= now {
        rows := rows - {state};
        return Err(StateExpired);
      }
      rows := rows - {state};
      return Ok(row);
    }

    method SsoAuthorize(e: Event) returns (stored: bool)
      requires e.request.Authorize?
      modifies this
      ensures stored <==> Mints(old(rows), e)
      ensures stored <==>
                && e.request.provider.Some? && e.request.state !in old(rows)
                && e.request.requiredRedirect in {None, Some(e.request.redirectUri)}
      ensures rows == if stored then old(rows)[e.request.state := MintedRow(e)] else old(rows)
      ensures stored ==> rows[e.request.state] == Row(e.request.nonce, e.request.provider.value, e.request.redirectUri,
                                                      e.at + 10 * 60 * SECOND)
    {
      var a := e.request;
      if a.provider.None? || (a.requiredRedirect.Some? && a.redirectUri != a.requiredRedirect.value) {
        return false;
      }
      stored := StoreSsoState(a.state, a.nonce, a.provider.value, a.redirectUri, e.at);
    }

    // Everything the handler does before it touches a user: the remaining outcomes are then
    // ProvisioningRaised and TokensIssued.
    method SsoTokenExchange(provider: Option<ProviderId>, state: string, f: Request, now: Time)
      returns (refused: Option<Outcome>)
      requires f.Finish?
      modifies this
      ensures var refusal := ReadRefusal(old(rows), provider, state);
              && rows == (if refusal.Some? then old(rows) else old(rows) - {state})
              && refused == if refusal.Some? then refusal
                            else
                              var outcome := FinishOutcome(old(rows)[state], now, f);
                              if outcome.TokensIssued? || outcome.ProvisioningRaised? then None else Some(outcome)
      ensures state != "" && provider.Some? && state in old(rows) && old(rows)[state].provider == provider.value ==>
                var row := old(rows)[state];
                && (refused == Some(BadState(StateExpired)) <==> row.expiresAt <= now)
                && (refused == Some(RedirectMismatch) <==> now < row.expiresAt && f.redirectUri != row.redirectUri)
                && (refused == Some(IdpRefused) <==>
                      now < row.expiresAt && f.redirectUri == row.redirectUri && f.idp.Rejected?)
                && (refused == Some(NonceMismatch) <==>
                      && now < row.expiresAt && f.redirectUri == row.redirectUri && f.idp.Verified?
                      && (f.idp.nonce != Some(row.nonce) || row.nonce == ""))
      ensures refused in {Some(MissingState), Some(ProviderNotFound), Some(BadState(UnknownState))} <==>
              state == "" || provider.None? || state !in old(rows) || old(rows)[state].provider != provider.value
    {
      if state == "" {
        return Some(MissingState);
      }
      if provider.None? {
        return Some(ProviderNotFound);
      }
      var consumed := ConsumeSsoState(state, provider.value, now);
      if consumed.Err? {
        return Some(BadState(consumed.error));
      }
      if f.redirectUri != consumed.value.redirectUri {
        return Some(RedirectMismatch);
      }
      match f.idp {
        case Rejected => return Some(IdpRefused);
        case Verified(nonce, externalId) =>
          if nonce.None? || nonce.value == "" || nonce.value != consumed.value.nonce {
            return Some(NonceMismatch);
          }
          return if externalId == "" then Some(NoStableSubject) else None;
      }
    }
  }

  // ---------------------------------------------------------------- whole histories

  // No earlier event finished the same read.
  predicate FirstFinish(history: seq<Event>, j: int) {
    && 0 <= j < |history| && history[j].request.Finish?
    && forall m :: 0 <= m < j ==> history[m].request.Finish? ==> history[m].request.read != history[j].request.read
  }

  function RowsAfter(history: seq<Event>): Rows
    decreases |history|
  {
    if history == [] then map[]
    else
      var n := |history| - 1;
      var rows := RowsAfter(history[..n]);
      match history[n].request
      case Authorize(_, _, _, state, _) => if Mints(rows, history[n]) then rows[state := MintedRow(history[n])] else rows
      case Read(_, _) => rows
      case Finish(r, _, _, _) =>
        if 0 <= r < n && FirstFinish(history, n) && Found(RowsAfter(history[..r]), history[r])
        then rows - {history[r].request.state} else rows
      case DeleteProvider(id) => map s | s in rows && rows[s].provider != id :: rows[s]
      case Elsewhere => rows
  }

  // This read finds a row of its own provider, expired or not.
  predicate Found(rows: Rows, e: Event) {
    e.request.Read? && ReadRefusal(rows, e.request.provider, e.request.state).None?
  }

  // The i-th event was an authorize call that stored its row.
  predicate MintedAt(history: seq<Event>, i: int) {
    0 <= i < |history| && Mints(RowsAfter(history[..i]), history[i])
  }

  predicate FoundAt(history: seq<Event>, r: int) {
    0 <= r < |history| && Found(RowsAfter(history[..r]), history[r])
  }

  function RowRead(history: seq<Event>, r: int): Row
    requires FoundAt(history, r)
  {
    RowsAfter(history[..r])[history[r].request.state]
  }

  // The j-th event finished an exchange, deleting the row its read had found.
  predicate FinishedAt(history: seq<Event>, j: int) {
    && FirstFinish(history, j)
    && 0 <= history[j].request.read < j && FoundAt(history, history[j].request.read)
  }

  function StateAt(history: seq<Event>, j: int): string
    requires FinishedAt(history, j)
  {
    history[history[j].request.read].request.state
  }

  function OutcomeAt(history: seq<Event>, j: int): Outcome
    requires FinishedAt(history, j)
  {
    var r := history[j].request.read;
    FinishOutcome(RowRead(history, r), history[r].at, history[j].request)
  }

  predicate IssuedAt(history: seq<Event>, j: int) {
    FinishedAt(history, j) && OutcomeAt(history, j).TokensIssued?
  }

  // The latest authorize call that stored this state, or -1.
  function Origin(history: seq<Event>, state: string): int {
    if history == [] then -1
    else if MintedAt(history, |history| - 1) && history[|history| - 1].request.state == state
    then |history| - 1
    else Origin(history[..|history| - 1], state)
  }

  // The authorize call whose row the j-th event's exchange read.
  function OriginAt(history: seq<Event>, j: int): int
    requires FinishedAt(history, j)
  {
    Origin(history[..history[j].request.read], StateAt(history, j))
  }

  lemma PrefixAgrees(history: seq<Event>, n: int)
    requires 0 <= n <= |history|
    ensures forall i :: 0 <= i < n ==> history[..n][..i] == history[..i]
    ensures forall i :: 0 <= i < n ==> MintedAt(history[..n], i) == MintedAt(history, i)
    ensures forall i :: 0 <= i < n ==> FoundAt(history[..n], i) == FoundAt(history, i)
    ensures forall i :: 0 <= i < n ==> FinishedAt(history[..n], i) == FinishedAt(history, i)
  {
    forall i | 0 <= i < n
      ensures history[..n][..i] == history[..i]
    {
    }
    hide RowsAfter;
  }

  // What the last event does to the table.
  lemma LastEvent(history: seq<Event>)
    requires history != []
    ensures var n := |history| - 1;
            var before, after := RowsAfter(history[..n]), RowsAfter(history);
            && (MintedAt(history, n) ==> after == before[history[n].request.state := MintedRow(history[n])])
            && (FinishedAt(history, n) ==> after == before - {StateAt(history, n)})
            && (history[n].request.DeleteProvider? ==>
                  after == map s | s in before && before[s].provider != history[n].request.id :: before[s])
            && (!MintedAt(history, n) && !FinishedAt(history, n) && !history[n].request.DeleteProvider? ==> after == before)
  {
  }

  // A row in the table is the one its origin stored, and nothing has deleted it since.
  lemma {:induction false} RowsHaveOrigins(history: seq<Event>, state: string)
    requires state in RowsAfter(history)
    ensures var i := Origin(history, state);
            && MintedAt(history, i) && history[i].request.state == state
            && RowsAfter(history)[state] == MintedRow(history[i])
            && (forall j :: i < j && FinishedAt(history, j) ==> StateAt(history, j) != state)
            && (forall j :: i < j <= |history| - 1 ==> history[j].request != DeleteProvider(history[i].request.provider.value))
    decreases |history|
  {
    var n := |history| - 1;
    if history == [] {
    } else if MintedAt(history, n) && history[n].request.state == state {
      LastEvent(history);
    } else {
      var before := history[..n];
      PrefixAgrees(history, n);
      LastEvent(history);
      hide RowsAfter;
      RowsHaveOrigins(before, state);
      var i := Origin(before, state);
      forall j | i < j && FinishedAt(history, j)
        ensures StateAt(history, j) != state
      {
        if j < n {
          assert FinishedAt(before, j) && StateAt(before, j) == StateAt(history, j);
        }
      }
    }
  }

  lemma ExchangeHasOrigin(history: seq<Event>, j: int)
    requires FinishedAt(history, j)
    ensures var i, r := OriginAt(history, j), history[j].request.read;
            && 0 <= i < r < j && MintedAt(history, i)
            && history[i].request.state == StateAt(history, j)
            && history[i].request.provider == history[r].request.provider
            && RowRead(history, r) == MintedRow(history[i])
            && (forall m :: i < m < r && FinishedAt(history, m) ==> StateAt(history, m) != StateAt(history, j))
            && (forall m :: i < m < r ==> history[m].request != DeleteProvider(history[i].request.provider.value))
  {
    var r := history[j].request.read;
    RowsHaveOrigins(history[..r], StateAt(history, j));
    PrefixAgrees(history, r);
    forall m | 0 <= m < r && FinishedAt(history, m)
      ensures FinishedAt(history[..r], m) && StateAt(history[..r], m) == StateAt(history, m)
    {
    }
  }
}

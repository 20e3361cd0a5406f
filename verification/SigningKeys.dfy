/** The life of a signing key (crypto.py): creation, rotation, revocation, publication.

    Rows are keyed by kid. A kid renders the microsecond at which it was generated, so it
    is modelled as that instant; two keys generated in the same microsecond collide on the
    unique constraint, which is an error the caller sees. */
module SigningKeys {
  import opened Common

  datatype Kid = Kid(generatedAt: Time)

  datatype Status = Active | RotatingOut | Revoked

  datatype Key = Key(status: Status, createdAt: Time, rotatedAt: Option<Time>, revokedAt: Option<Time>)

  type Keys = map<Kid, Key>

  const ROTATING_OUT_GRACE: Time := 24 * HOUR

  datatype DatabaseError = UniqueViolation

  // ---------------------------------------------------------------- queries

  function ActiveKids(keys: Keys): set<Kid> {
    set k | k in keys && keys[k].status.Active?
  }

  function ServableKids(keys: Keys): set<Kid> {
    set k | k in keys && !keys[k].status.Revoked?
  }

  ghost predicate NewestFirst(kids: seq<Kid>, keys: Keys)
    requires forall k :: k in kids ==> k in keys
  {
    forall i, j :: 0 <= i < j < |kids| ==> keys[kids[j]].createdAt <= keys[kids[i]].createdAt
  }

  // The verifier's test on a kid: decode_token, before the signature is looked at.
  predicate KeyAccepted(keys: Keys, kid: Kid, now: Time) {
    && kid in keys
    && !keys[kid].status.Revoked?
    && (keys[kid].status.RotatingOut? ==>
          keys[kid].rotatedAt.Some? && now < keys[kid].rotatedAt.value + ROTATING_OUT_GRACE)
  }

  // The publisher's test on a kid: list_keys_for_jwks.
  predicate KeyPublished(keys: Keys, kid: Kid, now: Time) {
    && kid in keys
    && !keys[kid].status.Revoked?
    && (keys[kid].status.RotatingOut? ==>
          keys[kid].rotatedAt.Some? && now - ROTATING_OUT_GRACE <= keys[kid].rotatedAt.value)
  }

  // ---------------------------------------------------------------- what each update does

  function Created(keys: Keys, kid: Kid, now: Time): Keys {
    keys[kid := Key(Active, now, None, None)]
  }

  function Demote(key: Key, now: Time): Key {
    if key.status.Active? then key.(status := RotatingOut, rotatedAt := Some(now)) else key
  }

  function Demoted(keys: Keys, now: Time): Keys {
    map k | k in keys :: Demote(keys[k], now)
  }

  function WithRevoked(keys: Keys, kid: Kid, now: Time): Keys {
    if kid in keys then keys[kid := keys[kid].(status := Revoked, revokedAt := Some(now))] else keys
  }

  // ---------------------------------------------------------------- the table

  /** The signing_keys table. A SELECT's answer is a parameter, so that every order the
      database may choose among equal timestamps is covered. */
  class KeyTable {
    var keys: Keys

    constructor ()
      ensures keys == map[]
    {
      keys := map[];
    }

    method CreateSigningKey(kid: Kid, now: Time) returns (r: Result<Kid, DatabaseError>)
      modifies this
      ensures kid in old(keys) ==> r.Err? && keys == old(keys)
      ensures kid !in old(keys) ==> r == Ok(kid) && keys == Created(old(keys), kid, now)
    {
      if kid in keys {
        return Err(UniqueViolation);
      }
      keys := keys[kid := Key(Active, now, None, None)];
      return Ok(kid);
    }

    method GetActiveSigningKey(selected: seq<Kid>, kid: Kid, now: Time)
      returns (r: Result<Kid, DatabaseError>)
      requires Lists(selected, ActiveKids(keys)) && NewestFirst(selected, keys)
      modifies this
      ensures ActiveKids(old(keys)) != {} ==>
                keys == old(keys) && r.Ok? && r.value in ActiveKids(keys)
                && forall k :: k in ActiveKids(keys) ==> keys[k].createdAt <= keys[r.value].createdAt
      ensures ActiveKids(old(keys)) == {} && kid !in old(keys) ==>
                r == Ok(kid) && keys == Created(old(keys), kid, now)
      ensures ActiveKids(old(keys)) == {} && kid in old(keys) ==> r.Err? && keys == old(keys)
    {
      if |selected| > 0 {
        assert selected[0] in ActiveKids(keys);
        return Ok(selected[0]);
      }
      r := CreateSigningKey(kid, now);
    }

    // The demotion is committed before the new key is created: if creation fails, it stands.
    method RotateActiveKey(selected: seq<Kid>, now: Time, kid: Kid, createdAt: Time)
      returns (r: Result<Kid, DatabaseError>)
      requires Lists(selected, ActiveKids(keys))
      modifies this
      ensures kid !in old(keys) ==>
                r == Ok(kid) && keys == Created(Demoted(old(keys), now), kid, createdAt)
      ensures kid in old(keys) ==> r.Err? && keys == Demoted(old(keys), now)
    {
      var i := 0;
      while i < |selected|
        invariant 0 <= i <= |selected|
        invariant keys == map k | k in old(keys) ::
                            if k in selected[..i] then Demote(old(keys)[k], now) else old(keys)[k]
      {
        var old_ := selected[i];
        assert old_ in ActiveKids(old(keys));
        keys := keys[old_ := keys[old_].(status := RotatingOut, rotatedAt := Some(now))];
        i := i + 1;
      }
      assert selected[..i] == selected;
      assert forall k :: k in old(keys) && k !in selected ==> k !in ActiveKids(old(keys));
      assert keys == Demoted(old(keys), now);
      r := CreateSigningKey(kid, createdAt);
    }

    method RevokeKey(kid: Kid, now: Time) returns (found: bool)
      modifies this
      ensures found == (kid in old(keys))
      ensures keys == WithRevoked(old(keys), kid, now)
    {
      found := kid in keys;
      if found {
        keys := keys[kid := keys[kid].(status := Revoked, revokedAt := Some(now))];
      }
    }

    method ListKeysForJwks(selected: seq<Kid>, now: Time) returns (published: seq<Kid>)
      requires Lists(selected, ServableKids(keys)) && NewestFirst(selected, keys)
      ensures Lists(published, set k | k in keys && KeyPublished(keys, k, now))
      ensures NewestFirst(published, keys)
    {
      var cutoff := now - ROTATING_OUT_GRACE;
      published := [];
      for i := 0 to |selected|
        invariant forall k :: k in published <==> k in selected[..i] && KeyPublished(keys, k, now)
        invariant forall a, b :: 0 <= a < b < |published| ==> published[a] != published[b]
        invariant NewestFirst(published, keys)
      {
        var k := selected[i];
        assert k in ServableKids(keys);
        assert k !in selected[..i];
        assert forall x :: x in published ==> keys[k].createdAt <= keys[x].createdAt by {
          forall x | x in published ensures keys[k].createdAt <= keys[x].createdAt {
            var j :| 0 <= j < i && selected[j] == x;
          }
        }
        if keys[k].status.RotatingOut? {
          if keys[k].rotatedAt.None? {
            continue;
          }
          if keys[k].rotatedAt.value < cutoff {
            continue;
          }
        }
        published := published + [k];
      }
      assert selected[..|selected|] == selected;
    }
  }

  /** Verifier and publisher agree at one instant, except that a rotating key is still
      published at the very microsecond its grace ends, when it is no longer accepted. */
  lemma VerifierAgreesWithPublisher(keys: Keys, kid: Kid, now: Time)
    ensures KeyAccepted(keys, kid, now) <==>
            KeyPublished(keys, kid, now)
            && !(keys[kid].status.RotatingOut? && now == keys[kid].rotatedAt.value + ROTATING_OUT_GRACE)
  {
  }

  /** The grace is a day: a key rotated out at t is accepted before t + 24 hours, and published up to and
      including that instant; an active key is both at all times, a revoked one neither. */
  lemma GraceIsADay(keys: Keys, kid: Kid, now: Time)
    requires kid in keys
    ensures keys[kid].status.Active? ==> KeyAccepted(keys, kid, now) && KeyPublished(keys, kid, now)
    ensures keys[kid].status.Revoked? ==> !KeyAccepted(keys, kid, now) && !KeyPublished(keys, kid, now)
    ensures keys[kid].status.RotatingOut? ==>
              && (KeyAccepted(keys, kid, now) <==>
                    exists t :: keys[kid].rotatedAt == Some(t) && now < t + 24 * 3600 * SECOND)
              && (KeyPublished(keys, kid, now) <==>
                    exists t :: keys[kid].rotatedAt == Some(t) && now <= t + 24 * 3600 * SECOND)
  {
  }

  // ---------------------------------------------------------------- interleaved requests

  /** A request in flight: a rotation that has read the active keys and not yet committed their
      demotion, or one past that point, or past finding no active key, that is about to create. */
  datatype Request =
    | Selected(kids: set<Kid>, readAt: Time)
    | Cleared

  /** Requests are cut at every read a later write rests on, and at every commit. A demotion
      overwrites whatever became of the selected keys meanwhile; its stamp was taken somewhere
      between the read and the commit. A revocation writes without regard to what it read, except
      that one which found the key revoked already (Restamp) rewrites revoked_at alone. */
  datatype Event =
    | FindNoActive
    | SelectActive
    | CommitDemotion(request: nat, stamp: Time)
    | Create(request: nat, kid: Kid)
    | Drop(request: nat)
    | Revoke(kid: Kid)
    | Restamp(kid: Kid)

  datatype Step = Step(at: Time, event: Event)

  // Requests are numbered in the order of their reads; `cleared` is the highest number that has
  // got past its demotion, or -1.
  datatype State = State(keys: Keys, requests: map<nat, Request>, next: nat, cleared: int)

  const EMPTY := State(map[], map[], 0, -1)

  predicate Enabled(s: State, step: Step) {
    match step.event
    case FindNoActive => ActiveKids(s.keys) == {}
    case SelectActive => true
    case CommitDemotion(q, stamp) =>
      q in s.requests && s.requests[q].Selected? && s.requests[q].readAt <= stamp <= step.at
    case Create(q, _) => q in s.requests && s.requests[q].Cleared?
    case Drop(q) => q in s.requests
    case Revoke(_) => true
    case Restamp(kid) => kid in s.keys && s.keys[kid].revokedAt.Some?
  }

  function Stamped(keys: Keys, kids: set<Kid>, stamp: Time): Keys {
    map k | k in keys ::
      if k in kids then keys[k].(status := RotatingOut, rotatedAt := Some(stamp)) else keys[k]
  }

  function Apply(s: State, step: Step): State
    requires Enabled(s, step)
  {
    match step.event
    case FindNoActive => s.(requests := s.requests[s.next := Cleared], next := s.next + 1, cleared := s.next)
    case SelectActive =>
      s.(requests := s.requests[s.next := Selected(ActiveKids(s.keys), step.at)], next := s.next + 1)
    case CommitDemotion(q, stamp) =>
      s.(keys := Stamped(s.keys, s.requests[q].kids, stamp), requests := s.requests[q := Cleared],
         cleared := if s.cleared < q then q else s.cleared)
    case Create(q, kid) =>
      s.(keys := if kid in s.keys then s.keys else Created(s.keys, kid, step.at), requests := s.requests - {q})
    case Drop(q) => s.(requests := s.requests - {q})
    case Revoke(kid) => s.(keys := WithRevoked(s.keys, kid, step.at))
    case Restamp(kid) => s.(keys := s.keys[kid := s.keys[kid].(revokedAt := Some(step.at))])
  }

  predicate Run(s: State, steps: seq<Step>)
    decreases |steps|
  {
    steps == [] || (Enabled(s, steps[0]) && Run(Apply(s, steps[0]), steps[1..]))
  }

  function After(s: State, steps: seq<Step>): State
    requires Run(s, steps)
    decreases |steps|
  {
    if steps == [] then s else After(Apply(s, steps[0]), steps[1..])
  }

  predicate InFlightAtMost(s: State, steps: seq<Step>, k: nat)
    requires Run(s, steps)
    decreases |steps|
  {
    |s.requests| <= k && (steps == [] || InFlightAtMost(Apply(s, steps[0]), steps[1..], k))
  }

  // A clock that never runs backwards: each step happens at or after `since` and its predecessor.
  predicate Clocked(since: Time, steps: seq<Step>)
    decreases |steps|
  {
    steps == [] || (since <= steps[0].at && Clocked(steps[0].at, steps[1..]))
  }

  lemma Prepend(s: State, step: Step, rest: seq<Step>, k: nat)
    requires Enabled(s, step) && Run(Apply(s, step), rest)
    requires |s.requests| <= k && InFlightAtMost(Apply(s, step), rest, k)
    ensures Run(s, [step] + rest) && InFlightAtMost(s, [step] + rest, k)
    ensures After(s, [step] + rest) == After(Apply(s, step), rest)
  {
    assert ([step] + rest)[1..] == rest;
  }

  // A run given by all the states it passes through.
  predicate Passes(states: seq<State>, steps: seq<Step>) {
    && |states| == |steps| + 1
    && forall i :: 0 <= i < |steps| ==> Enabled(states[i], steps[i]) && Apply(states[i], steps[i]) == states[i + 1]
  }

  lemma {:induction false} PassingIsARun(states: seq<State>, steps: seq<Step>, k: nat)
    requires Passes(states, steps) && forall i :: 0 <= i < |states| ==> |states[i].requests| <= k
    ensures Run(states[0], steps) && InFlightAtMost(states[0], steps, k)
    ensures After(states[0], steps) == states[|steps|]
    decreases |steps|
  {
    if steps != [] {
      assert states[1..][0] == states[1];
      PassingIsARun(states[1..], steps[1..], k);
    }
  }

  lemma RotationPasses(s: State, kid: Kid, now: Time, createdAt: Time)
    requires kid !in s.keys
    ensures var s1 := Apply(s, Step(now, SelectActive));
            && Enabled(s1, Step(now, CommitDemotion(s.next, now)))
            && var s2 := Apply(s1, Step(now, CommitDemotion(s.next, now)));
               && s2.keys == Demoted(s.keys, now) && Enabled(s2, Step(createdAt, Create(s.next, kid)))
               && Apply(s2, Step(createdAt, Create(s.next, kid))).keys == Created(Demoted(s.keys, now), kid, createdAt)
  {
    assert Stamped(s.keys, ActiveKids(s.keys), now) == Demoted(s.keys, now);
    hide ActiveKids, Stamped, Created;
  }

  /** A rotation that nothing interrupts is its three steps. */
  lemma RotationIsItsSteps(s: State, kid: Kid, now: Time, createdAt: Time)
    requires kid !in s.keys
    ensures var steps := [Step(now, SelectActive), Step(now, CommitDemotion(s.next, now)), Step(createdAt, Create(s.next, kid))];
            Run(s, steps) && After(s, steps).keys == Created(Demoted(s.keys, now), kid, createdAt)
  {
    RotationPasses(s, kid, now, createdAt);
    assert Enabled(s, Step(now, SelectActive));
    hide Apply, Enabled, Demoted, Created;
    var select, demote, create := Step(now, SelectActive), Step(now, CommitDemotion(s.next, now)), Step(createdAt, Create(s.next, kid));
    var s1 := Apply(s, select);
    var s2 := Apply(s1, demote);
    var s3 := Apply(s2, create);
    var k := |s.requests| + |s1.requests| + |s2.requests| + |s3.requests|;
    Prepend(s2, create, [], k);
    Prepend(s1, demote, [create], k);
    Prepend(s, select, [demote, create], k);
    assert [create] + [] == [create] && [demote] + [create] == [demote, create];
    assert [select] + [demote, create] == [select, demote, create];
  }

  // ---------------------------------------------------------------- at most K active keys

  // A rotation's own promise: once it has demoted what it selected, the bound holds, given its elders.
  predicate Promised(active: set<Kid>, requests: map<nat, Request>, q: nat, k: nat) {
    && q in requests && requests[q].Selected?
    && |active - requests[q].kids| + |Upto(requests.Keys, q)| <= k
  }

  /** Active keys were all created after the read of the latest cleared request, by requests that
      read no later than it; and likewise for a younger rotation once it demotes what it selected. */
  ghost predicate Bounded(active: set<Kid>, requests: map<nat, Request>, cleared: int, next: nat, k: nat) {
    && cleared < next
    && |active| + |Upto(requests.Keys, cleared)| <= k
    && forall q :: q in requests ==> q < next && (cleared < q ==> Promised(active, requests, q, k))
  }

  ghost predicate ActiveBounded(s: State, k: nat) {
    Bounded(ActiveKids(s.keys), s.requests, s.cleared, s.next, k)
  }

  // Fewer active keys and fewer requests, as long as the same ones are cleared.
  lemma FewerStayBounded(active: set<Kid>, active': set<Kid>, requests: map<nat, Request>, requests': map<nat, Request>,
                         cleared: int, next: nat, k: nat)
    requires Bounded(active, requests, cleared, next, k)
    requires active' <= active && requests'.Keys <= requests.Keys
    requires forall q :: q in requests' && cleared < q ==> requests'[q] == requests[q]
    ensures Bounded(active', requests', cleared, next, k)
  {
    SubsetCardinality(active', active);
    UptoShrinks(requests.Keys, requests'.Keys, cleared);
    hide Upto;
    forall q | q in requests' && cleared < q
      ensures Promised(active', requests', q, k)
    {
      assert Promised(active, requests, q, k);
      SubsetCardinality(active' - requests'[q].kids, active - requests[q].kids);
      UptoShrinks(requests.Keys, requests'.Keys, q);
    }
  }

  lemma UptoAdd(requests: map<nat, Request>, next: nat, r: Request)
    requires forall q :: q in requests ==> q < next
    ensures |Upto(requests[next := r].Keys, next)| == |requests[next := r]|
    ensures forall n :: n < next ==> Upto(requests[next := r].Keys, n) == Upto(requests.Keys, n)
  {
    assert Upto(requests[next := r].Keys, next) == requests[next := r].Keys;
  }

  // A request that has just read: either it is to demote whatever is active, or nothing is.
  lemma ReadStaysBounded(active: set<Kid>, requests: map<nat, Request>, cleared: int, next: nat, r: Request, k: nat)
    requires Bounded(active, requests, cleared, next, k) && |requests[next := r]| <= k
    requires if r.Selected? then r.kids == active else active == {}
    ensures Bounded(active, requests[next := r], if r.Selected? then cleared else next, next + 1, k)
  {
    UptoAdd(requests, next, r);
    hide Upto;
    var requests' := requests[next := r];
    forall q | q in requests' && (if r.Selected? then cleared else next) < q
      ensures Promised(active, requests', q, k)
    {
      if q != next {
        assert Promised(active, requests, q, k);
      } else {
        assert active - active == {};
      }
    }
  }

  lemma DemotionStaysBounded(active: set<Kid>, requests: map<nat, Request>, cleared: int, next: nat, q: nat, k: nat)
    requires Bounded(active, requests, cleared, next, k) && q in requests && requests[q].Selected?
    ensures Bounded(active - requests[q].kids, requests[q := Cleared], if cleared < q then q else cleared, next, k)
  {
    var active', requests' := active - requests[q].kids, requests[q := Cleared];
    assert requests'.Keys == requests.Keys;
    hide Upto;
    if q <= cleared {
      FewerStayBounded(active, active', requests, requests', cleared, next, k);
    } else {
      assert Promised(active, requests, q, k);
      forall p | p in requests' && q < p
        ensures Promised(active', requests', p, k)
      {
        assert Promised(active, requests, p, k);
        SubsetCardinality(active' - requests[p].kids, active - requests[p].kids);
      }
    }
  }

  lemma CreationStaysBounded(active: set<Kid>, requests: map<nat, Request>, cleared: int, next: nat, q: nat, kid: Kid, k: nat)
    requires Bounded(active, requests, cleared, next, k) && q in requests && requests[q].Cleared?
    ensures Bounded(active + {kid}, requests - {q}, cleared, next, k)
  {
    var active', requests' := active + {kid}, requests - {q};
    assert q <= cleared by {
      assert cleared < q ==> Promised(active, requests, q, k);
    }
    forall n | cleared <= n
      ensures |Upto(requests'.Keys, n)| == |Upto(requests.Keys, n)| - 1
    {
      assert Upto(requests'.Keys, n) == Upto(requests.Keys, n) - {q};
    }
    hide Upto;
    forall p | p in requests' && cleared < p
      ensures Promised(active', requests', p, k)
    {
      assert Promised(active, requests, p, k);
      SubsetCardinality(active' - requests[p].kids, (active - requests[p].kids) + {kid});
    }
  }

  lemma ActiveAfter(keys: Keys, kids: set<Kid>, kid: Kid, at: Time)
    ensures ActiveKids(Stamped(keys, kids, at)) == ActiveKids(keys) - kids
    ensures ActiveKids(Created(keys, kid, at)) == ActiveKids(keys) + {kid}
    ensures ActiveKids(WithRevoked(keys, kid, at)) <= ActiveKids(keys)
    ensures kid in keys ==> ActiveKids(keys[kid := keys[kid].(revokedAt := Some(at))]) == ActiveKids(keys)
  {
  }

  lemma ReadStepStaysBounded(s: State, step: Step, k: nat)
    requires step.event.FindNoActive? || step.event.SelectActive?
    requires Enabled(s, step) && ActiveBounded(s, k) && |Apply(s, step).requests| <= k
    ensures ActiveBounded(Apply(s, step), k)
  {
    hide Bounded;
    var r := if step.event.FindNoActive? then Cleared else Selected(ActiveKids(s.keys), step.at);
    ReadStaysBounded(ActiveKids(s.keys), s.requests, s.cleared, s.next, r, k);
  }

  lemma RotationStepStaysBounded(s: State, step: Step, k: nat)
    requires step.event.CommitDemotion? || step.event.Create?
    requires Enabled(s, step) && ActiveBounded(s, k)
    ensures ActiveBounded(Apply(s, step), k)
  {
    hide Bounded, ActiveKids, Stamped, Created;
    var active, active' := ActiveKids(s.keys), ActiveKids(Apply(s, step).keys);
    if step.event.CommitDemotion? {
      var q := step.event.request;
      ActiveAfter(s.keys, s.requests[q].kids, Kid(0), step.event.stamp);
      DemotionStaysBounded(active, s.requests, s.cleared, s.next, q, k);
    } else {
      var q, kid := step.event.request, step.event.kid;
      ActiveAfter(s.keys, {}, kid, step.at);
      CreationStaysBounded(active, s.requests, s.cleared, s.next, q, kid, k);
      FewerStayBounded(active + {kid}, active', s.requests - {q}, s.requests - {q}, s.cleared, s.next, k);
    }
  }

  lemma StepStaysBounded(s: State, step: Step, k: nat)
    requires Enabled(s, step) && ActiveBounded(s, k) && |Apply(s, step).requests| <= k
    ensures ActiveBounded(Apply(s, step), k)
  {
    hide Bounded, ActiveKids, WithRevoked;
    var s' := Apply(s, step);
    var active, active' := ActiveKids(s.keys), ActiveKids(s'.keys);
    if step.event.FindNoActive? || step.event.SelectActive? {
      ReadStepStaysBounded(s, step, k);
    } else if step.event.CommitDemotion? || step.event.Create? {
      RotationStepStaysBounded(s, step, k);
    } else {
      if !step.event.Drop? {
        ActiveAfter(s.keys, {}, step.event.kid, step.at);
      }
      FewerStayBounded(active, active', s.requests, s'.requests, s.cleared, s.next, k);
    }
  }

  lemma {:induction false} ActiveBoundKept(s: State, steps: seq<Step>, k: nat)
    requires Run(s, steps) && InFlightAtMost(s, steps, k) && ActiveBounded(s, k)
    ensures ActiveBounded(After(s, steps), k)
    decreases |steps|
  {
    hide ActiveBounded;
    if steps != [] {
      assert InFlightAtMost(Apply(s, steps[0]), steps[1..], k);
      StepStaysBounded(s, steps[0], k);
      ActiveBoundKept(Apply(s, steps[0]), steps[1..], k);
    }
  }

  /** From an empty table, with never more than k requests between their read and their creation,
      never more than k keys are active. */
  lemma AtMostKActiveKeys(steps: seq<Step>, k: nat)
    requires Run(EMPTY, steps) && InFlightAtMost(EMPTY, steps, k)
    ensures |ActiveKids(After(EMPTY, steps).keys)| <= k
  {
    assert Upto(EMPTY.requests.Keys, -1) == {} && ActiveKids(EMPTY.keys) == {};
    ActiveBoundKept(EMPTY, steps, k);
  }

  function OverlappingRotations(t: Time): seq<Step> {
    [Step(t, SelectActive), Step(t, SelectActive), Step(t, CommitDemotion(0, t)), Step(t, CommitDemotion(1, t)),
     Step(t, Create(0, Kid(t))), Step(t + 1, Create(1, Kid(t + 1)))]
  }

  function OverlappingStates(t: Time): seq<State> {
    var none, key, key' := Selected({}, t), Key(Active, t, None, None), Key(Active, t + 1, None, None);
    [EMPTY,
     State(map[], map[0 := none], 1, -1),
     State(map[], map[0 := none, 1 := none], 2, -1),
     State(map[], map[0 := Cleared, 1 := none], 2, 0),
     State(map[], map[0 := Cleared, 1 := Cleared], 2, 1),
     State(map[Kid(t) := key], map[1 := Cleared], 2, 1),
     State(map[Kid(t) := key, Kid(t + 1) := key'], map[], 2, 1)]
  }

  lemma OverlapReads(t: Time)
    ensures var states, steps := OverlappingStates(t), OverlappingRotations(t);
            Apply(states[0], steps[0]) == states[1] && Apply(states[1], steps[1]) == states[2]
  {
    assert ActiveKids(map[]) == {};
  }

  lemma OverlapPasses(t: Time)
    ensures Passes(OverlappingStates(t), OverlappingRotations(t))
  {
    var states, steps := OverlappingStates(t), OverlappingRotations(t);
    OverlapReads(t);
    hide ActiveKids;
    assert Enabled(states[2], steps[2]) && Apply(states[2], steps[2]) == states[3];
    assert Enabled(states[3], steps[3]) && Apply(states[3], steps[3]) == states[4];
    assert Enabled(states[4], steps[4]) && Apply(states[4], steps[4]) == states[5];
    assert Enabled(states[5], steps[5]) && Apply(states[5], steps[5]) == states[6];
    hide Apply, Enabled;
  }

  /** The bound is met: two rotations that overlap leave two active keys. */
  lemma OverlappingRotationsLeaveTwoActiveKeys(t: Time)
    ensures var steps := OverlappingRotations(t);
            Run(EMPTY, steps) && InFlightAtMost(EMPTY, steps, 2)
            && ActiveKids(After(EMPTY, steps).keys) == {Kid(t), Kid(t + 1)}
  {
    hide Run, InFlightAtMost, After, Apply, Enabled, Passes;
    OverlapPasses(t);
    PassingIsARun(OverlappingStates(t), OverlappingRotations(t), 2);
  }

  // k requests that all find no active key, and then all create one.
  function ManyBootstraps(k: nat): seq<Step> {
    seq(k, _ => Step(0, FindNoActive)) + seq(k, i requires 0 <= i < k => Step(0, Create(i, Kid(i))))
  }

  // Requests a to b - 1, about to create.
  function ClearedFrom(a: nat, b: nat): map<nat, Request>
    decreases b
  {
    if b <= a then map[] else ClearedFrom(a, b - 1)[b - 1 := Cleared]
  }

  function KeysBelow(m: nat): Keys {
    if m == 0 then map[] else KeysBelow(m - 1)[Kid(m - 1) := Key(Active, 0, None, None)]
  }

  // After n of its steps.
  function BootstrapState(k: nat, n: nat): State
    requires n <= 2 * k
  {
    if n <= k then State(map[], ClearedFrom(0, n), n, n - 1)
    else State(KeysBelow(n - k), ClearedFrom(n - k, k), k, k - 1)
  }

  lemma {:induction false} ClearedFromAre(a: nat, b: nat)
    requires a <= b
    ensures |ClearedFrom(a, b)| == b - a
    ensures forall q :: q in ClearedFrom(a, b) <==> a <= q < b
    ensures forall q :: q in ClearedFrom(a, b) ==> ClearedFrom(a, b)[q].Cleared?
    decreases b
  {
    if a < b {
      ClearedFromAre(a, b - 1);
    }
  }

  lemma {:induction false} KeysBelowAre(m: nat)
    ensures |ActiveKids(KeysBelow(m))| == m
    ensures forall kid :: kid in KeysBelow(m) <==> 0 <= kid.generatedAt < m
  {
    if m > 0 {
      KeysBelowAre(m - 1);
      assert ActiveKids(KeysBelow(m)) == ActiveKids(KeysBelow(m - 1)) + {Kid(m - 1)};
    } else {
      assert ActiveKids(map[]) == {};
    }
  }

  lemma CreationPasses(k: nat, n: nat)
    requires k <= n < 2 * k
    ensures var s, step := BootstrapState(k, n), Step(0, Create(n - k, Kid(n - k)));
            Enabled(s, step) && Apply(s, step) == BootstrapState(k, n + 1)
  {
    ClearedFromAre(n - k, k);
    ClearedFromAre(n - k + 1, k);
    KeysBelowAre(n - k);
    assert ClearedFrom(n - k, k) - {n - k} == ClearedFrom(n - k + 1, k);
    hide ActiveKids, ClearedFrom;
  }

  lemma BootstrapPasses(k: nat, n: nat)
    requires n < 2 * k
    ensures var s, step := BootstrapState(k, n), ManyBootstraps(k)[n];
            Enabled(s, step) && Apply(s, step) == BootstrapState(k, n + 1)
  {
    if n < k {
      assert ActiveKids(map[]) == {};
    } else {
      CreationPasses(k, n);
      hide Apply, Enabled, BootstrapState;
    }
  }

  lemma BootstrapsAreFew(k: nat, n: nat)
    requires n <= 2 * k
    ensures |BootstrapState(k, n).requests| <= k
  {
    ClearedFromAre(if n <= k then 0 else n - k, if n <= k then n else k);
  }

  /** It is met for every k: k requests that all find no active key each create one. */
  lemma ActiveBoundIsMet(k: nat)
    ensures var steps := ManyBootstraps(k);
            Run(EMPTY, steps) && InFlightAtMost(EMPTY, steps, k) && |ActiveKids(After(EMPTY, steps).keys)| == k
  {
    var steps := ManyBootstraps(k);
    assert |steps| == 2 * k;
    var states := seq(2 * k + 1, n requires 0 <= n < 2 * k + 1 => BootstrapState(k, n));
    assert states[0] == EMPTY && states[2 * k].keys == KeysBelow(k);
    KeysBelowAre(k);
    hide Run, InFlightAtMost, After, Apply, Enabled, BootstrapState, ManyBootstraps, ActiveKids;
    forall n | 0 <= n < |steps|
      ensures Enabled(states[n], steps[n]) && Apply(states[n], steps[n]) == states[n + 1]
    {
      BootstrapPasses(k, n);
    }
    forall n | 0 <= n < |states|
      ensures |states[n].requests| <= k
    {
      BootstrapsAreFew(k, n);
    }
    PassingIsARun(states, steps, k);
  }

  // ---------------------------------------------------------------- when revocation is final

  // The q-th request is a rotation about to demote this key.
  predicate Holds(s: State, q: nat, kid: Kid) {
    q in s.requests && s.requests[q].Selected? && kid in s.requests[q].kids
  }

  ghost predicate Unheld(s: State, kid: Kid) {
    forall q :: q in s.requests ==> !Holds(s, q, kid)
  }

  lemma {:induction false} UnheldStaysRevoked(s: State, steps: seq<Step>, kid: Kid)
    requires Run(s, steps) && kid in s.keys && s.keys[kid].status.Revoked? && Unheld(s, kid)
    ensures var s' := After(s, steps);
            kid in s'.keys && s'.keys[kid].status.Revoked? && Unheld(s', kid)
    decreases |steps|
  {
    if steps != [] {
      var s' := Apply(s, steps[0]);
      assert Unheld(s', kid) by {
        forall q | q in s'.requests
          ensures !Holds(s', q, kid)
        {
          assert q in s.requests ==> !Holds(s, q, kid);
        }
      }
      assert kid in s'.keys && s'.keys[kid].status.Revoked? by {
        if steps[0].event.CommitDemotion? {
          assert !Holds(s, steps[0].event.request, kid);
        }
      }
      UnheldStaysRevoked(s', steps[1..], kid);
    }
  }

  ghost predicate StaysRevoked(s: State, since: Time, kid: Kid) {
    forall steps: seq<Step> :: Run(s, steps) && Clocked(since, steps) ==>
      kid in After(s, steps).keys && After(s, steps).keys[kid].status.Revoked?
  }

  lemma DemotionIsARun(s: State, q: nat, kid: Kid, stamp: Time, at: Time)
    requires Holds(s, q, kid) && kid in s.keys && s.requests[q].readAt <= stamp <= at
    ensures var steps := [Step(at, CommitDemotion(q, stamp))];
            && Run(s, steps) && (forall since :: since <= at ==> Clocked(since, steps)) && kid in After(s, steps).keys
            && After(s, steps).keys[kid] == s.keys[kid].(status := RotatingOut, rotatedAt := Some(stamp))
  {
    var steps := [Step(at, CommitDemotion(q, stamp))];
    assert steps[1..] == [] && Run(Apply(s, steps[0]), steps[1..]);
    assert After(s, steps) == Apply(s, steps[0]);
  }

  function Later(a: Time, b: Time): Time {
    if a < b then b else a
  }

  /** A revoked key stays revoked through every run if and only if no rotation in flight had read
      it as active: such a rotation's commit turns it back to rotating_out. */
  lemma RevocationIsFinalExactly(s: State, since: Time, kid: Kid)
    requires kid in s.keys && s.keys[kid].status.Revoked?
    ensures StaysRevoked(s, since, kid) <==> Unheld(s, kid)
  {
    if Unheld(s, kid) {
      forall steps: seq<Step> | Run(s, steps) && Clocked(since, steps)
        ensures kid in After(s, steps).keys && After(s, steps).keys[kid].status.Revoked?
      {
        UnheldStaysRevoked(s, steps, kid);
      }
    } else {
      var q :| q in s.requests && Holds(s, q, kid);
      var at := Later(since, s.requests[q].readAt);
      DemotionIsARun(s, q, kid, at, at);
      var steps := [Step(at, CommitDemotion(q, at))];
      assert Run(s, steps) && Clocked(since, steps) && !After(s, steps).keys[kid].status.Revoked?;
    }
  }

  function RevocationMidRotation(t: Time): seq<Step> {
    [Step(t, FindNoActive), Step(t, Create(0, Kid(t))), Step(t, SelectActive), Step(t, Revoke(Kid(t))),
     Step(t, CommitDemotion(1, t))]
  }

  function MidRotationStates(t: Time): seq<State> {
    var rotation := map[1 := Selected({Kid(t)}, t)];
    [EMPTY,
     State(map[], map[0 := Cleared], 1, 0),
     State(map[Kid(t) := Key(Active, t, None, None)], map[], 1, 0),
     State(map[Kid(t) := Key(Active, t, None, None)], rotation, 2, 0),
     State(map[Kid(t) := Key(Revoked, t, None, Some(t))], rotation, 2, 0),
     State(map[Kid(t) := Key(RotatingOut, t, Some(t), Some(t))], map[1 := Cleared], 2, 1)]
  }

  lemma MidRotationPasses(t: Time)
    ensures Passes(MidRotationStates(t), RevocationMidRotation(t))
  {
    var states, steps := MidRotationStates(t), RevocationMidRotation(t);
    assert ActiveKids(states[2].keys) == {Kid(t)};
    assert Enabled(states[0], steps[0]) && Apply(states[0], steps[0]) == states[1];
    assert Enabled(states[1], steps[1]) && Apply(states[1], steps[1]) == states[2];
    assert Apply(states[2], steps[2]) == states[3];
    assert Enabled(states[3], steps[3]) && Apply(states[3], steps[3]) == states[4];
    assert Enabled(states[4], steps[4]) && Apply(states[4], steps[4]) == states[5];
    hide Apply, Enabled;
  }

  /** It does happen: a revocation that falls between a rotation's read and its commit is undone,
      and the key passes the verifier's test again, with one request in flight. */
  lemma RevocationUndoneByRotation(t: Time)
    ensures var steps := RevocationMidRotation(t);
            && Run(EMPTY, steps) && InFlightAtMost(EMPTY, steps, 1) && steps[3].event == Revoke(Kid(t))
            && KeyAccepted(After(EMPTY, steps).keys, Kid(t), t)
  {
    hide Run, InFlightAtMost, After, Apply, Enabled, Passes;
    MidRotationPasses(t);
    PassingIsARun(MidRotationStates(t), RevocationMidRotation(t), 1);
  }

  // ---------------------------------------------------------------- statuses only advance

  predicate WellFormed(keys: Keys) {
    forall k :: k in keys ==>
      && (keys[k].status.Active? ==> keys[k].rotatedAt.None?)
      && (keys[k].status.RotatingOut? ==> keys[k].rotatedAt.Some?)
  }

  function Rank(status: Status): nat {
    match status
    case Active => 0
    case RotatingOut => 1
    case Revoked => 2
  }

  predicate Advances(before: Key, after: Key) {
    && after.createdAt == before.createdAt
    && Rank(before.status) <= Rank(after.status)
    && (before.rotatedAt.Some? ==> after.rotatedAt == before.rotatedAt)
    && (before.status.Revoked? ==> after.rotatedAt == before.rotatedAt)
  }

  // A rotation demotes a key that is no longer active: someone else demoted or revoked it first.
  predicate StaleDemotion(s: State, step: Step, kid: Kid) {
    step.event.CommitDemotion? && Holds(s, step.event.request, kid) && kid in s.keys && !s.keys[kid].status.Active?
  }

  predicate Undisturbed(s: State, steps: seq<Step>, kid: Kid)
    requires Run(s, steps)
    decreases |steps|
  {
    steps == [] || (!StaleDemotion(s, steps[0], kid) && Undisturbed(Apply(s, steps[0]), steps[1..], kid))
  }

  /** Over any run without a stale demotion of the key, it does not disappear, its status only
      moves forward (active, rotating out, revoked), and its rotation instant, once written, is
      never rewritten. */
  lemma {:induction false} KeysOnlyAdvance(s: State, steps: seq<Step>, kid: Kid)
    requires WellFormed(s.keys) && Run(s, steps) && kid in s.keys && Undisturbed(s, steps, kid)
    ensures kid in After(s, steps).keys && Advances(s.keys[kid], After(s, steps).keys[kid])
    decreases |steps|
  {
    if steps != [] {
      var s' := Apply(s, steps[0]);
      assert WellFormed(s'.keys) && kid in s'.keys && Advances(s.keys[kid], s'.keys[kid]);
      KeysOnlyAdvance(Apply(s, steps[0]), steps[1..], kid);
    }
  }

  lemma {:induction false} UnheldIsUndisturbed(s: State, steps: seq<Step>, kid: Kid)
    requires Run(s, steps) && kid in s.keys && !s.keys[kid].status.Active? && Unheld(s, kid)
    ensures Undisturbed(s, steps, kid)
    decreases |steps|
  {
    if steps != [] {
      var s' := Apply(s, steps[0]);
      assert !StaleDemotion(s, steps[0], kid);
      assert kid in s'.keys && !s'.keys[kid].status.Active?;
      assert Unheld(s', kid) by {
        forall q | q in s'.requests
          ensures !Holds(s', q, kid)
        {
          assert q in s.requests ==> !Holds(s, q, kid);
        }
      }
      hide Apply, Enabled, Unheld, Holds;
      UnheldIsUndisturbed(s', steps[1..], kid);
    }
  }

  ghost predicate AdvancesForever(s: State, since: Time, kid: Kid)
    requires kid in s.keys
  {
    forall steps: seq<Step> :: Run(s, steps) && Clocked(since, steps) ==>
      kid in After(s, steps).keys && Advances(s.keys[kid], After(s, steps).keys[kid])
  }

  ghost predicate KeepsRotationInstant(s: State, since: Time, kid: Kid)
    requires kid in s.keys
  {
    forall steps: seq<Step> :: Run(s, steps) && Clocked(since, steps) ==>
      kid in After(s, steps).keys && After(s, steps).keys[kid].rotatedAt == s.keys[kid].rotatedAt
  }

  /** A key that is no longer active only ever advances, and its rotation instant is never written
      again, in every run if and only if no rotation in flight had read it as active. */
  lemma KeysOnlyAdvanceExactly(s: State, since: Time, kid: Kid)
    requires WellFormed(s.keys) && kid in s.keys && !s.keys[kid].status.Active?
    ensures AdvancesForever(s, since, kid) <==> Unheld(s, kid)
    ensures KeepsRotationInstant(s, since, kid) <==> Unheld(s, kid)
  {
    if Unheld(s, kid) {
      forall steps: seq<Step> | Run(s, steps) && Clocked(since, steps)
        ensures kid in After(s, steps).keys && Advances(s.keys[kid], After(s, steps).keys[kid])
      {
        UnheldIsUndisturbed(s, steps, kid);
        KeysOnlyAdvance(s, steps, kid);
      }
    } else {
      // Let the rotation in flight commit at an instant other than the one recorded.
      var q :| q in s.requests && Holds(s, q, kid);
      var recorded := s.keys[kid].rotatedAt.GetOr(since);
      var at := Later(Later(since, recorded + 1), s.requests[q].readAt);
      DemotionIsARun(s, q, kid, at, at);
      var steps := [Step(at, CommitDemotion(q, at))];
      assert Run(s, steps) && Clocked(since, steps);
      assert After(s, steps).keys[kid].rotatedAt == Some(at) != s.keys[kid].rotatedAt;
      hide Run, After, Apply, Enabled;
      assert !Advances(s.keys[kid], After(s, steps).keys[kid]);
    }
  }

  function TwoStamps(t: Time): seq<Step> {
    [Step(t, FindNoActive), Step(t, Create(0, Kid(t))), Step(t, SelectActive), Step(t, SelectActive),
     Step(t, CommitDemotion(1, t)), Step(t + 1, CommitDemotion(2, t + 1))]
  }

  function TwoStampsStates(t: Time): seq<State> {
    var active, selected := map[Kid(t) := Key(Active, t, None, None)], Selected({Kid(t)}, t);
    [EMPTY,
     State(map[], map[0 := Cleared], 1, 0),
     State(active, map[], 1, 0),
     State(active, map[1 := selected], 2, 0),
     State(active, map[1 := selected, 2 := selected], 3, 0),
     State(map[Kid(t) := Key(RotatingOut, t, Some(t), None)], map[1 := Cleared, 2 := selected], 3, 1),
     State(map[Kid(t) := Key(RotatingOut, t, Some(t + 1), None)], map[1 := Cleared, 2 := Cleared], 3, 2)]
  }

  lemma TwoStampsPasses(t: Time)
    ensures Passes(TwoStampsStates(t), TwoStamps(t))
  {
    var states, steps := TwoStampsStates(t), TwoStamps(t);
    TwoStampsReads(t);
    hide ActiveKids;
    assert Enabled(states[4], steps[4]) && Apply(states[4], steps[4]) == states[5];
    assert Enabled(states[5], steps[5]) && Apply(states[5], steps[5]) == states[6];
    hide Apply, Enabled;
  }

  lemma TwoStampsReads(t: Time)
    ensures var states, steps := TwoStampsStates(t), TwoStamps(t);
            forall i :: 0 <= i < 4 ==> Enabled(states[i], steps[i]) && Apply(states[i], steps[i]) == states[i + 1]
  {
    var states, steps := TwoStampsStates(t), TwoStamps(t);
    assert ActiveKids(states[2].keys) == {Kid(t)} && ActiveKids(states[3].keys) == {Kid(t)};
    assert Enabled(states[0], steps[0]) && Apply(states[0], steps[0]) == states[1];
    assert Enabled(states[1], steps[1]) && Apply(states[1], steps[1]) == states[2];
    assert Apply(states[2], steps[2]) == states[3];
    assert Apply(states[3], steps[3]) == states[4];
    hide Apply;
  }

  /** It does happen: two rotations that both read a key as active each stamp it, so its rotation
      instant is written twice and the grace begins anew. */
  lemma OverlappingRotationsStampTwice(t: Time)
    ensures var steps := TwoStamps(t);
            && Run(EMPTY, steps) && InFlightAtMost(EMPTY, steps, 2) && Run(EMPTY, steps[..5])
            && Kid(t) in After(EMPTY, steps[..5]).keys && Kid(t) in After(EMPTY, steps).keys
            && After(EMPTY, steps[..5]).keys[Kid(t)].rotatedAt == Some(t)
            && After(EMPTY, steps).keys[Kid(t)].rotatedAt == Some(t + 1)
  {
    var states, steps := TwoStampsStates(t), TwoStamps(t);
    TwoStampsPasses(t);
    assert Passes(states[..6], steps[..5]) by {
      hide Apply, Enabled;
    }
    hide Run, InFlightAtMost, After, Apply, Enabled, Passes;
    PassingIsARun(states, steps, 2);
    PassingIsARun(states[..6], steps[..5], 2);
  }

  /** Whatever happens, no key ever disappears or becomes active again. */
  lemma {:induction false} NeverActiveAgain(s: State, steps: seq<Step>, kid: Kid)
    requires Run(s, steps) && kid in s.keys && !s.keys[kid].status.Active?
    ensures kid in After(s, steps).keys && !After(s, steps).keys[kid].status.Active?
    decreases |steps|
  {
    if steps != [] {
      NeverActiveAgain(Apply(s, steps[0]), steps[1..], kid);
    }
  }

  // ---------------------------------------------------------------- grace outlives the token

  // Neither a past demotion of the key nor one in flight was stamped, or can be, before `since`.
  ghost predicate HeldSince(s: State, kid: Kid, since: Time) {
    && kid in s.keys
    && (s.keys[kid].status.RotatingOut? ==>
          s.keys[kid].rotatedAt.Some? && since <= s.keys[kid].rotatedAt.value)
    && (forall q :: Holds(s, q, kid) ==> since <= s.requests[q].readAt)
  }

  lemma HeldThroughStep(s: State, step: Step, kid: Kid, since: Time)
    requires Enabled(s, step) && since <= step.at && HeldSince(s, kid, since)
    ensures HeldSince(Apply(s, step), kid, since)
  {
    var s' := Apply(s, step);
    forall q | Holds(s', q, kid)
      ensures since <= s'.requests[q].readAt
    {
      assert q in s.requests && s'.requests[q] == s.requests[q] ==> Holds(s, q, kid);
    }
    if step.event.CommitDemotion? && kid in s.requests[step.event.request].kids {
      assert Holds(s, step.event.request, kid);
    }
  }

  lemma {:induction false} HeldThroughRun(s: State, steps: seq<Step>, kid: Kid, since: Time, now: Time)
    requires Run(s, steps) && Clocked(now, steps) && since <= now
    requires HeldSince(s, kid, since)
    ensures HeldSince(After(s, steps), kid, since)
    decreases |steps|
  {
    if steps != [] {
      HeldThroughStep(s, steps[0], kid, since);
      HeldThroughRun(Apply(s, steps[0]), steps[1..], kid, since, steps[0].at);
    }
  }

  /** A key that is active at `now0`, and that no rotation in flight read before `since`, is accepted
      at every instant of the grace period following `since`, whatever happens in between,
      exactly as long as it is not revoked. */
  lemma ActiveKeyOutlivesGrace(s: State, steps: seq<Step>, kid: Kid, now0: Time, since: Time, now: Time)
    requires Run(s, steps) && Clocked(now0, steps) && since <= now0
    requires kid in ActiveKids(s.keys) && forall q :: Holds(s, q, kid) ==> since <= s.requests[q].readAt
    requires now < since + ROTATING_OUT_GRACE
    ensures kid in After(s, steps).keys
    ensures KeyAccepted(After(s, steps).keys, kid, now) <==> !After(s, steps).keys[kid].status.Revoked?
  {
    HeldThroughRun(s, steps, kid, since, now0);
  }
}

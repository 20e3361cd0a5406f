/** Failed-login lockout (auth.py, and the head of login in main.py): a sliding window over
    recorded failures. */
module LoginLockout {
  import opened Common

  datatype Attempt = Attempt(email: string, at: Time)

  datatype Policy = Policy(threshold: int, duration: Time)

  // Failures recorded for one email, oldest first.
  function Times(rows: seq<Attempt>, email: string): seq<Time> {
    if rows == [] then []
    else
      var last := rows[|rows| - 1];
      Times(rows[..|rows| - 1], email) + (if last.email == email then [last.at] else [])
  }

  // How many of them lie in the window (start, start + length].
  function CountIn(ts: seq<Time>, start: Time, length: Time): nat {
    if ts == [] then 0
    else CountIn(ts[..|ts| - 1], start, length) + (if start < ts[|ts| - 1] <= start + length then 1 else 0)
  }

  function CountAfter(ts: seq<Time>, lo: Time): nat {
    if ts == [] then 0
    else CountAfter(ts[..|ts| - 1], lo) + (if lo < ts[|ts| - 1] then 1 else 0)
  }

  predicate Locked(rows: seq<Attempt>, email: string, p: Policy, now: Time) {
    CountAfter(Times(rows, email), now - p.duration) >= p.threshold
  }

  function Cleared(rows: seq<Attempt>, email: string): seq<Attempt> {
    if rows == [] then []
    else
      var last := rows[|rows| - 1];
      Cleared(rows[..|rows| - 1], email) + (if last.email == email then [] else [last])
  }

  lemma {:induction false} ClearedTimes(rows: seq<Attempt>, email: string, other: string)
    ensures Times(Cleared(rows, email), other) == if other == email then [] else Times(rows, other)
  {
    if rows == [] {
    } else {
      var last := rows[|rows| - 1];
      ClearedTimes(rows[..|rows| - 1], email, other);
      if last.email == email {
        assert Cleared(rows, email) == Cleared(rows[..|rows| - 1], email);
      }
      if last.email != email {
        RecordedTimes(Cleared(rows[..|rows| - 1], email), last, other);
      }
    }
  }

  lemma RecordedTimes(rows: seq<Attempt>, row: Attempt, email: string)
    ensures Times(rows + [row], email)
            == if row.email == email then Times(rows, email) + [row.at] else Times(rows, email)
  {
    assert Times(rows, email) + [] == Times(rows, email);
    assert (rows + [row])[..|rows + [row]| - 1] == rows;
  }

  // ---------------------------------------------------------------- the table

  datatype LoginResult = LockedOut | BadCredentials | Deactivated | Authenticated

  class LoginGuard {
    var attempts: seq<Attempt>
    const policy: Policy

    constructor (p: Policy)
      ensures attempts == [] && policy == p
    {
      attempts, policy := [], p;
    }

    method RecordFailedLogin(email: string, now: Time)
      modifies this
      ensures attempts == old(attempts) + [Attempt(email, now)]
    {
      attempts := attempts + [Attempt(email, now)];
    }

    method CheckAccountLockout(email: string, now: Time) returns (locked: bool)
      ensures locked == Locked(attempts, email, policy, now)
    {
      locked := CountAfter(Times(attempts, email), now - policy.duration) >= policy.threshold;
    }

    method ClearFailedAttempts(email: string)
      modifies this
      ensures attempts == Cleared(old(attempts), email)
      ensures forall other :: Times(attempts, other) ==
                if other == email then [] else Times(old(attempts), other)
    {
      attempts := Cleared(attempts, email);
      forall other
        ensures Times(attempts, other) == if other == email then [] else Times(old(attempts), other)
      {
        ClearedTimes(old(attempts), email, other);
      }
    }

    // `credentialsMatch`: the email is known and the password verifies.
    method Login(email: string, credentialsMatch: bool, isActive: bool, now: Time) returns (r: LoginResult)
      modifies this
      ensures attempts == Attempted(old(attempts), email, credentialsMatch, isActive, policy, now)
      ensures r.LockedOut? <==> Locked(old(attempts), email, policy, now)
      ensures r.Authenticated? <==> !Locked(old(attempts), email, policy, now) && credentialsMatch && isActive
      ensures r.BadCredentials? <==> !Locked(old(attempts), email, policy, now) && !credentialsMatch
      ensures r.LockedOut? || r.Deactivated? ==> attempts == old(attempts)
      ensures r.BadCredentials? ==> attempts == old(attempts) + [Attempt(email, now)]
      ensures r.Authenticated? ==>
                forall other :: Times(attempts, other) == if other == email then [] else Times(old(attempts), other)
    {
      var locked := CheckAccountLockout(email, now);
      if locked {
        return LockedOut;
      }
      if !credentialsMatch {
        RecordFailedLogin(email, now);
        return BadCredentials;
      }
      if !isActive {
        return Deactivated;
      }
      ClearFailedAttempts(email);
      return Authenticated;
    }
  }

  function Attempted(rows: seq<Attempt>, email: string, credentialsMatch: bool, isActive: bool,
                     p: Policy, now: Time): seq<Attempt> {
    if Locked(rows, email, p, now) then rows
    else if !credentialsMatch then rows + [Attempt(email, now)]
    else if !isActive then rows
    else Cleared(rows, email)
  }

  // ---------------------------------------------------------------- counting facts

  lemma {:induction false} CountInWithinCountAfter(ts: seq<Time>, start: Time, length: Time, since: Time)
    requires since <= start
    ensures CountIn(ts, start, length) <= CountAfter(ts, since)
  {
    if ts == [] {
    } else {
      CountInWithinCountAfter(ts[..|ts| - 1], start, length, since);
    }
  }

  lemma {:induction false} CountAfterShrinks(ts: seq<Time>, lo: Time, later: Time)
    requires lo <= later
    ensures CountAfter(ts, later) <= CountAfter(ts, lo)
  {
    if ts == [] {
    } else {
      CountAfterShrinks(ts[..|ts| - 1], lo, later);
    }
  }

  lemma CountAppend(ts: seq<Time>, t: Time, start: Time, length: Time)
    ensures CountIn(ts + [t], start, length)
            == CountIn(ts, start, length) + (if start < t <= start + length then 1 else 0)
    ensures CountAfter(ts + [t], start) == CountAfter(ts, start) + (if start < t then 1 else 0)
  {
    assert (ts + [t])[..|ts + [t]| - 1] == ts;
  }

  predicate Ascending(ts: seq<Time>) {
    forall i, j :: 0 <= i < j < |ts| ==> ts[i] <= ts[j]
  }

  // In a time-ordered log, n failures are recent exactly when the n-th latest is.
  lemma {:induction false} CountByRank(ts: seq<Time>, lo: Time, n: nat)
    requires Ascending(ts) && n >= 1
    ensures CountAfter(ts, lo) >= n <==> |ts| >= n && lo < ts[|ts| - n]
  {
    if ts == [] {
    } else if ts[|ts| - 1] <= lo {
      assert forall i :: 0 <= i < |ts| ==> ts[i] <= lo;
      NothingRecent(ts, lo);
    } else if n > 1 {
      CountByRank(ts[..|ts| - 1], lo, n - 1);
    }
  }

  lemma {:induction false} NothingRecent(ts: seq<Time>, lo: Time)
    requires forall i :: 0 <= i < |ts| ==> ts[i] <= lo
    ensures CountAfter(ts, lo) == 0
  {
    if ts == [] {
    } else {
      NothingRecent(ts[..|ts| - 1], lo);
    }
  }

  // ---------------------------------------------------------------- when a lock ends

  /** The account is locked exactly until the threshold-th most recent failure is one lockout
      duration old. */
  lemma LockEndsWithThresholdthFailure(rows: seq<Attempt>, email: string, p: Policy, now: Time)
    requires p.threshold >= 1 && Ascending(Times(rows, email))
    ensures var ts := Times(rows, email);
            Locked(rows, email, p, now) <==>
            |ts| >= p.threshold && now < ts[|ts| - p.threshold] + p.duration
  {
    CountByRank(Times(rows, email), now - p.duration, p.threshold);
  }

  datatype Try = Try(at: Time, email: string, credentialsMatch: bool, isActive: bool)

  function AfterTries(rows: seq<Attempt>, tries: seq<Try>, p: Policy): seq<Attempt>
    decreases |tries|
  {
    if tries == [] then rows
    else
      var t := tries[0];
      AfterTries(Attempted(rows, t.email, t.credentialsMatch, t.isActive, p, t.at), tries[1..], p)
  }

  /** Attempts made while locked, right password or wrong, record nothing and clear nothing, so
      they cannot prolong or shorten the lock; others' attempts do not touch it either. */
  lemma {:induction false} LockedAttemptsChangeNothing(rows: seq<Attempt>, tries: seq<Try>, email: string, p: Policy)
    requires p.threshold >= 1 && Ascending(Times(rows, email))
    requires |Times(rows, email)| >= p.threshold
    requires var ts := Times(rows, email);
             forall i :: 0 <= i < |tries| && tries[i].email == email ==>
               tries[i].at < ts[|ts| - p.threshold] + p.duration
    ensures Times(AfterTries(rows, tries, p), email) == Times(rows, email)
    decreases |tries|
  {
    if tries == [] {
    } else {
      var t := tries[0];
      var rows' := Attempted(rows, t.email, t.credentialsMatch, t.isActive, p, t.at);
      LockEndsWithThresholdthFailure(rows, email, p, t.at);
      RecordedTimes(rows, Attempt(t.email, t.at), email);
      ClearedTimes(rows, t.email, email);
      LockedAttemptsChangeNothing(rows', tries[1..], email, p);
    }
  }

  // ---------------------------------------------------------------- interleaved requests

  // A login checks the lock in one step and records its failure in a later one.
  datatype Event =
    | PassCheck(email: string)
    | Record(email: string)
    | Leave(email: string)
    | Clear(email: string)

  datatype Step = Step(at: Time, event: Event)

  // `pending` counts, per email, the requests past the check that have not recorded or left.
  datatype State = State(now: Time, rows: seq<Attempt>, pending: multiset<string>)

  predicate Enabled(s: State, step: Step, p: Policy) {
    && s.now <= step.at
    && match step.event
       case PassCheck(email) => !Locked(s.rows, email, p, step.at)
       case Record(email) => email in s.pending
       case Leave(email) => email in s.pending
       case Clear(email) => email in s.pending
  }

  function Apply(s: State, step: Step): State {
    match step.event
    case PassCheck(email) => State(step.at, s.rows, s.pending + multiset{email})
    case Record(email) =>
      State(step.at, s.rows + [Attempt(email, step.at)], s.pending - multiset{email})
    case Leave(email) => State(step.at, s.rows, s.pending - multiset{email})
    case Clear(email) => State(step.at, Cleared(s.rows, email), s.pending - multiset{email})
  }

  predicate Run(s: State, steps: seq<Step>, p: Policy)
    decreases |steps|
  {
    steps == [] || (Enabled(s, steps[0], p) && Run(Apply(s, steps[0]), steps[1..], p))
  }

  function After(s: State, steps: seq<Step>): State
    decreases |steps|
  {
    if steps == [] then s else After(Apply(s, steps[0]), steps[1..])
  }

  predicate PendingAtMost(s: State, steps: seq<Step>, email: string, k: nat)
    decreases |steps|
  {
    s.pending[email] <= k && (steps == [] || PendingAtMost(Apply(s, steps[0]), steps[1..], email, k))
  }

  // Every failure of this email was recorded in time order, and by now.
  ghost predicate Ordered(s: State, email: string) {
    Ascending(Times(s.rows, email)) && forall t :: t in Times(s.rows, email) ==> t <= s.now
  }

  lemma AppendOrdered(ts: seq<Time>, now: Time, t: Time)
    requires Ascending(ts) && now <= t && forall x :: x in ts ==> x <= now
    ensures Ascending(ts + [t]) && forall x :: x in ts + [t] ==> x <= t
  {
    assert forall i :: 0 <= i < |ts| ==> ts[i] in ts;
  }

  lemma StepStaysOrdered(s: State, step: Step, email: string, p: Policy)
    requires Enabled(s, step, p) && Ordered(s, email)
    ensures Ordered(Apply(s, step), email)
  {
    var e, ts := step.event.email, Times(s.rows, email);
    RecordedTimes(s.rows, Attempt(e, step.at), email);
    ClearedTimes(s.rows, e, email);
    AppendOrdered(ts, s.now, step.at);
    hide Times, Cleared, Ascending, Locked;
  }

  /** The log of any run is in time order, so the two lemmas about when a lock ends apply. */
  lemma {:induction false} LogStaysOrdered(s: State, steps: seq<Step>, email: string, p: Policy)
    requires Run(s, steps, p) && Ordered(s, email)
    ensures Ordered(After(s, steps), email)
    decreases |steps|
  {
    if steps != [] {
      StepStaysOrdered(s, steps[0], email, p);
      hide Ordered, Apply, Enabled;
      LogStaysOrdered(Apply(s, steps[0]), steps[1..], email, p);
    }
  }

  // No window of the lockout duration holds more than the bound, and the window ending now
  // leaves room for everything still pending.
  ghost predicate WindowsBounded(s: State, email: string, p: Policy, k: nat) {
    var ts := Times(s.rows, email);
    && CountAfter(ts, s.now - p.duration) + s.pending[email] <= p.threshold - 1 + k
    && forall w: Time :: CountIn(ts, w, p.duration) <= p.threshold - 1 + k
  }

  // A failure recorded now, within the bound on recent failures, keeps every window within it.
  lemma RecordKeepsWindows(ts: seq<Time>, t: Time, duration: Time, bound: int)
    requires CountAfter(ts, t - duration) + 1 <= bound
    requires forall w: Time :: CountIn(ts, w, duration) <= bound
    ensures forall w: Time :: CountIn(ts + [t], w, duration) <= bound
  {
    forall w: Time
      ensures CountIn(ts + [t], w, duration) <= bound
    {
      CountAppend(ts, t, w, duration);
      assert CountIn(ts, w, duration) <= bound;
      if w < t <= w + duration {
        CountInWithinCountAfter(ts, w, duration, t - duration);
      }
    }
  }

  lemma StepKeepsWindows(s: State, step: Step, email: string, p: Policy, k: nat)
    requires p.threshold >= 1 && Enabled(s, step, p)
    requires WindowsBounded(s, email, p, k) && Apply(s, step).pending[email] <= k
    ensures WindowsBounded(Apply(s, step), email, p, k)
  {
    assert CountAfter([], step.at - p.duration) == 0 && forall w: Time :: CountIn([], w, p.duration) == 0;
    hide Times, CountAfter, CountIn, Cleared;
    var ts := Times(s.rows, email);
    CountAfterShrinks(ts, s.now - p.duration, step.at - p.duration);
    match step.event {
      case Record(e) =>
        RecordedTimes(s.rows, Attempt(e, step.at), email);
        if e == email {
          CountAppend(ts, step.at, step.at - p.duration, p.duration);
          RecordKeepsWindows(ts, step.at, p.duration, p.threshold - 1 + k);
        }
      case Clear(e) =>
        ClearedTimes(s.rows, e, email);
      case _ =>
    }
  }

  lemma {:induction false} WindowsKept(s: State, steps: seq<Step>, email: string, p: Policy, k: nat)
    requires p.threshold >= 1 && Run(s, steps, p) && PendingAtMost(s, steps, email, k)
    requires WindowsBounded(s, email, p, k)
    ensures WindowsBounded(After(s, steps), email, p, k)
    decreases |steps|
  {
    if steps == [] {
    } else {
      assert PendingAtMost(Apply(s, steps[0]), steps[1..], email, k);
      StepKeepsWindows(s, steps[0], email, p, k);
      WindowsKept(Apply(s, steps[0]), steps[1..], email, p, k);
    }
  }

  /** With at most k logins for an email between check and record, every window of the lockout
      duration holds at most threshold - 1 + k of its recorded failures: at most the threshold
      when logins are atomic (k = 1). */
  lemma EveryWindowBounded(t0: Time, steps: seq<Step>, email: string, p: Policy, k: nat, w: Time)
    requires p.threshold >= 1
    requires Run(State(t0, [], multiset{}), steps, p)
    requires PendingAtMost(State(t0, [], multiset{}), steps, email, k)
    ensures CountIn(Times(After(State(t0, [], multiset{}), steps).rows, email), w, p.duration)
            <= p.threshold - 1 + k
  {
    WindowsKept(State(t0, [], multiset{}), steps, email, p, k);
  }

  // ---------------------------------------------------------------- whole logins, one at a time

  // The steps of one login against the current log.
  function StepsOf(rows: seq<Attempt>, t: Try, p: Policy): seq<Step> {
    if Locked(rows, t.email, p, t.at) then []
    else
      [Step(t.at, PassCheck(t.email)),
       Step(t.at, if !t.credentialsMatch then Record(t.email) else if !t.isActive then Leave(t.email) else Clear(t.email))]
  }

  /** A login run alone is its two steps: what login does to the log is what they do. */
  lemma LoginIsItsSteps(now: Time, rows: seq<Attempt>, t: Try, email: string, p: Policy)
    requires now <= t.at
    ensures var s, steps := State(now, rows, multiset{}), StepsOf(rows, t, p);
            && Run(s, steps, p) && PendingAtMost(s, steps, email, 1)
            && After(s, steps).rows == Attempted(rows, t.email, t.credentialsMatch, t.isActive, p, t.at)
            && After(s, steps).pending == multiset{} && After(s, steps).now <= t.at
  {
    hide Locked, Cleared;
    var s, steps := State(now, rows, multiset{}), StepsOf(rows, t, p);
    if steps != [] {
      var s1 := Apply(s, steps[0]);
      var s2 := Apply(s1, steps[1]);
      assert steps[1..] == [steps[1]] && steps[1..][1..] == [];
      assert s1.pending == multiset{t.email} && s2.pending == multiset{};
      assert Run(s2, [], p) && PendingAtMost(s2, [], email, 1) && After(s2, []) == s2;
      assert Run(s1, steps[1..], p) && PendingAtMost(s1, steps[1..], email, 1);
    }
  }

  predicate Clocked(since: Time, tries: seq<Try>)
    decreases |tries|
  {
    tries == [] || (since <= tries[0].at && Clocked(tries[0].at, tries[1..]))
  }

  lemma {:induction false} TriesKeepWindows(now: Time, rows: seq<Attempt>, tries: seq<Try>, email: string,
                                            p: Policy, w: Time)
    requires p.threshold >= 1 && Clocked(now, tries)
    requires WindowsBounded(State(now, rows, multiset{}), email, p, 1)
    ensures CountIn(Times(AfterTries(rows, tries, p), email), w, p.duration) <= p.threshold
    decreases |tries|
  {
    if tries != [] {
      var t := tries[0];
      var s, steps := State(now, rows, multiset{}), StepsOf(rows, t, p);
      LoginIsItsSteps(now, rows, t, email, p);
      WindowsKept(s, steps, email, p, 1);
      TriesKeepWindows(After(s, steps).now, After(s, steps).rows, tries[1..], email, p, w);
    }
  }

  /** With logins run one at a time, no window of the lockout duration ever holds more than the
      threshold of recorded failures for one email. */
  lemma AtomicWindowsBounded(t0: Time, tries: seq<Try>, email: string, p: Policy, w: Time)
    requires p.threshold >= 1 && Clocked(t0, tries)
    ensures CountIn(Times(AfterTries([], tries, p), email), w, p.duration) <= p.threshold
  {
    TriesKeepWindows(t0, [], tries, email, p, w);
  }

  // ---------------------------------------------------------------- the bound is met

  lemma {:induction false} Snoc(s: State, steps: seq<Step>, step: Step, email: string, p: Policy, k: nat)
    requires Run(s, steps, p) && PendingAtMost(s, steps, email, k)
    requires Enabled(After(s, steps), step, p) && Apply(After(s, steps), step).pending[email] <= k
    ensures Run(s, steps + [step], p) && PendingAtMost(s, steps + [step], email, k)
    ensures After(s, steps + [step]) == Apply(After(s, steps), step)
    decreases |steps|
  {
    hide Apply, Enabled;
    if steps == [] {
      assert [] + [step] == [step] && [step][1..] == [];
      assert Run(Apply(s, step), [], p) && PendingAtMost(Apply(s, step), [], email, k);
    } else {
      assert (steps + [step])[0] == steps[0] && (steps + [step])[1..] == steps[1..] + [step];
      Snoc(Apply(s, steps[0]), steps[1..], step, email, p, k);
    }
  }

  // Some run from the empty log, with no more than k logins of this email pending, ends here.
  ghost predicate Reached(s: State, t0: Time, email: string, p: Policy, k: nat) {
    exists steps :: && Run(State(t0, [], multiset{}), steps, p) && PendingAtMost(State(t0, [], multiset{}), steps, email, k)
                    && After(State(t0, [], multiset{}), steps) == s
  }

  lemma StepReaches(s: State, step: Step, t0: Time, email: string, p: Policy, k: nat)
    requires Reached(s, t0, email, p, k) && Enabled(s, step, p) && Apply(s, step).pending[email] <= k
    ensures Reached(Apply(s, step), t0, email, p, k)
  {
    hide Apply, Enabled;
    var start := State(t0, [], multiset{});
    var steps :| Run(start, steps, p) && PendingAtMost(start, steps, email, k) && After(start, steps) == s;
    Snoc(start, steps, step, email, p, k);
  }

  // n failures of this email recorded, all at t0, and m logins pending.
  ghost predicate Holding(s: State, t0: Time, email: string, length: Time, n: nat, m: nat) {
    && s.now == t0 && s.pending[email] == m
    && CountAfter(Times(s.rows, email), t0 - length) == n && CountIn(Times(s.rows, email), t0 - 1, length) == n
  }

  lemma OnePasses(s: State, t0: Time, email: string, p: Policy, k: nat, n: nat, m: nat) returns (s': State)
    requires Reached(s, t0, email, p, k) && Holding(s, t0, email, p.duration, n, m) && n < p.threshold && m < k
    ensures Reached(s', t0, email, p, k) && Holding(s', t0, email, p.duration, n, m + 1)
  {
    s' := Apply(s, Step(t0, PassCheck(email)));
    hide Times, CountIn, CountAfter;
    StepReaches(s, Step(t0, PassCheck(email)), t0, email, p, k);
  }

  lemma OneRecords(s: State, t0: Time, email: string, p: Policy, k: nat, n: nat, m: nat) returns (s': State)
    requires Reached(s, t0, email, p, k) && Holding(s, t0, email, p.duration, n, m) && 0 < m <= k && p.duration > 0
    ensures Reached(s', t0, email, p, k) && Holding(s', t0, email, p.duration, n + 1, m - 1)
  {
    s' := Apply(s, Step(t0, Record(email)));
    RecordedTimes(s.rows, Attempt(email, t0), email);
    CountAppend(Times(s.rows, email), t0, t0 - 1, p.duration);
    CountAppend(Times(s.rows, email), t0, t0 - p.duration, p.duration);
    hide Times, CountIn, CountAfter;
    StepReaches(s, Step(t0, Record(email)), t0, email, p, k);
  }

  lemma {:induction false} ManyFail(t0: Time, email: string, p: Policy, k: nat, n: nat, m: nat) returns (s: State)
    requires k >= 1 && m <= k && n <= p.threshold - 1 && p.duration > 0
    ensures Reached(s, t0, email, p, k) && Holding(s, t0, email, p.duration, n, m)
    decreases n, m
  {
    if m > 0 {
      s := ManyFail(t0, email, p, k, n, m - 1);
      s := OnePasses(s, t0, email, p, k, n, m - 1);
    } else if n > 0 {
      s := ManyFail(t0, email, p, k, n - 1, 1);
      s := OneRecords(s, t0, email, p, k, n - 1, 1);
    } else {
      s := State(t0, [], multiset{});
      assert Run(s, [], p) && PendingAtMost(s, [], email, k) && After(s, []) == s;
    }
  }

  lemma {:induction false} AllRecord(s: State, t0: Time, email: string, p: Policy, k: nat, n: nat, m: nat)
    returns (s': State)
    requires Reached(s, t0, email, p, k) && Holding(s, t0, email, p.duration, n, m) && m <= k && p.duration > 0
    ensures Reached(s', t0, email, p, k) && Holding(s', t0, email, p.duration, n + m, 0)
    decreases m
  {
    s' := s;
    if m > 0 {
      s' := OneRecords(s, t0, email, p, k, n, m);
      s' := AllRecord(s', t0, email, p, k, n + 1, m - 1);
    }
  }

  /** The bound on windows is met for every threshold and every k: k logins that all pass the check one
      failure short of the lock leave threshold - 1 + k failures in one window. */
  lemma WindowBoundIsMet(t0: Time, email: string, p: Policy, k: nat)
    requires p.threshold >= 1 && p.duration > 0 && k >= 1
    ensures exists steps, w :: && Run(State(t0, [], multiset{}), steps, p)
                               && PendingAtMost(State(t0, [], multiset{}), steps, email, k)
                               && CountIn(Times(After(State(t0, [], multiset{}), steps).rows, email), w, p.duration)
                                  == p.threshold - 1 + k
  {
    var s := ManyFail(t0, email, p, k, p.threshold - 1, k);
    s := AllRecord(s, t0, email, p, k, p.threshold - 1, k);
    var start := State(t0, [], multiset{});
    var steps :| Run(start, steps, p) && PendingAtMost(start, steps, email, k) && After(start, steps) == s;
    assert CountIn(Times(After(start, steps).rows, email), t0 - 1, p.duration) == p.threshold - 1 + k;
  }
}

/**
 * The two models of a registration agree: an attempt during which nothing is added to the catalog, taken step by step,
 * ends as the one call of `RegisterMetadata` does that sees the same clock and the same replies of the store.
 */
module RegistrationAgreement {
  import opened Prelude
  import opened Registration
  import opened RegistrationSteps

  predicate PriorCurrent(s: State, a: Attempt) {
    s.initialized && a.lockedAt < s.validUntil
  }

  /** What the first `n` claims were reported to have created. */
  ghost function Reported(before: Claims, work: seq<Key>, a: Attempt, n: nat, ttl: real): seq<Key>
    requires n <= |work| && a.Effective(n)
  {
    if n == 0 then []
    else
      var created := Reported(before, work, a, n - 1, ttl);
      if MetDead(before, work, a, n - 1, ttl) then created + [work[n - 1]] else created
  }

  /** The attempt after its first `n` claims. */
  ghost function Under(env: Env, s: State, a: Attempt, fingerprints: seq<Key>, scopes: seq<Key>, n: nat, phase: Phase): State
    requires n <= |fingerprints + scopes| && a.Effective(n)
  {
    var work := fingerprints + scopes;
    s.(clock := a.Reading(n), claims := Claimed(s.claims, work, a, n, env.ttl),
       attempt := Some(Running(a.started, PriorCurrent(s, a), |s.catalog|, fingerprints, scopes,
                               Reported(s.claims, work, a, n, env.ttl), phase)))
  }

  /** A run that adds nothing to the catalog. */
  ghost predicate QuietRun(env: Env, s: State, steps: seq<Step>, s': State) {
    Reaches(env, s, steps, s') && forall i :: 0 <= i < |steps| ==> !steps[i].Extend?
  }

  lemma QuietNext(env: Env, s: State, steps: seq<Step>, mid: State, step: Step, s': State)
    requires QuietRun(env, s, steps, mid) && Goes(env, mid, step, s') && !step.Extend?
    ensures QuietRun(env, s, steps + [step], s')
  {
    ReachNext(env, s, steps, mid, step, s');
  }

  lemma AllKnown(credentials: map<string, string>)
    ensures Restricted(credentials, credentials.Keys) == credentials
  {
  }

  lemma PlanFollows(env: Env, s: State, a: Attempt, fingerprints: seq<Key>) returns (steps: seq<Step>)
    requires s.attempt.None? && s.catalog != [] && a.Ordered() && s.clock <= a.lockedAt
    requires PlannedFingerprints(s.catalog, env.credentials) == Ok(fingerprints)
    ensures QuietRun(env, s, steps, Under(env, s, a, fingerprints, ScopesOf(s.catalog), 0, Fingerprints(0)))
  {
    var begin, plan := Begin(a.lockedAt, a.started), Plan(env.credentials.Keys);
    var s1 := s.(clock := a.started, attempt := Some(Running(a.started, PriorCurrent(s, a), 0, [], [], [], Resolving)));
    AllKnown(env.credentials);
    assert Apply(env, s, begin) == s1;
    assert Apply(env, s1, plan) == Under(env, s, a, fingerprints, ScopesOf(s.catalog), 0, Fingerprints(0));
    ReachNone(env, s);
    QuietNext(env, s, [], s, begin, s1);
    QuietNext(env, s, [] + [begin], s1, plan, Apply(env, s1, plan));
    steps := [] + [begin] + [plan];
  }

  lemma FingerprintFollows(env: Env, s: State, a: Attempt, fingerprints: seq<Key>, scopes: seq<Key>, n: nat)
    requires n < |fingerprints| && a.AllAccepted(n) && a.Call(n).Accepted? && a.Ordered()
    ensures var at, s0 := a.Call(n).at, Under(env, s, a, fingerprints, scopes, n, Fingerprints(n));
      && Enabled(s0, Claim(at, false))
      && Apply(env, s0, Claim(at, false)) == Under(env, s, a, fingerprints, scopes, n + 1, Fingerprints(n + 1))
  {
    CallsInOrder(a, n);
    assert (fingerprints + scopes)[n] == fingerprints[n];
  }

  lemma ScopeFollows(env: Env, s: State, a: Attempt, fingerprints: seq<Key>, scopes: seq<Key>, n: nat, m: nat)
    requires n == |fingerprints| + m && m < |scopes| && a.Ordered() && scopes == ScopesOf(s.catalog)
    requires a.AllAccepted(n) && a.Call(n).Accepted?
    ensures var at, s0 := a.Call(n).at, Under(env, s, a, fingerprints, scopes, n, Scopes(scopes, m));
      && Enabled(s0, ClaimScope(at, false))
      && Apply(env, s0, ClaimScope(at, false)) == Under(env, s, a, fingerprints, scopes, n + 1, Scopes(scopes, m + 1))
  {
    CallsInOrder(a, n);
    assert (fingerprints + scopes)[n] == scopes[m];
  }

  lemma OpenFollows(env: Env, s: State, a: Attempt, fingerprints: seq<Key>, scopes: seq<Key>)
    requires scopes == ScopesOf(s.catalog) && a.AllAccepted(|fingerprints|)
    ensures var s0 := Under(env, s, a, fingerprints, scopes, |fingerprints|, Fingerprints(|fingerprints|));
      && Enabled(s0, OpenScopes)
      && Apply(env, s0, OpenScopes) == Under(env, s, a, fingerprints, scopes, |fingerprints|, Scopes(scopes, 0))
  {
  }

  /** What an attempt needs to come to its first claim. */
  ghost predicate Comes(env: Env, s: State, a: Attempt, fingerprints: seq<Key>, scopes: seq<Key>) {
    && s.attempt.None? && s.catalog != [] && a.Ordered() && s.clock <= a.lockedAt
    && PlannedFingerprints(s.catalog, env.credentials) == Ok(fingerprints) && scopes == ScopesOf(s.catalog)
  }

  lemma FingerprintNext(env: Env, s: State, a: Attempt, fingerprints: seq<Key>, scopes: seq<Key>, n: nat,
                        before: seq<Step>, mid: State) returns (steps: seq<Step>, s': State)
    requires n < |fingerprints| && a.Ordered() && a.AllAccepted(n + 1)
    requires QuietRun(env, s, before, mid) && mid == Under(env, s, a, fingerprints, scopes, n, Fingerprints(n))
    ensures QuietRun(env, s, steps, s')
    ensures s' == Under(env, s, a, fingerprints, scopes, n + 1, Fingerprints(n + 1))
  {
    var claim := Claim(a.Call(n).at, false);
    FingerprintFollows(env, s, a, fingerprints, scopes, n);
    steps, s' := before + [claim], Apply(env, mid, claim);
    QuietNext(env, s, before, mid, claim, s');
  }

  /** The claims on fingerprints, one after the other. */
  lemma {:induction false} FingerprintsFollow(env: Env, s: State, a: Attempt, fingerprints: seq<Key>, scopes: seq<Key>, n: nat)
    returns (steps: seq<Step>, s': State)
    requires Comes(env, s, a, fingerprints, scopes) && n <= |fingerprints| && a.AllAccepted(n)
    ensures QuietRun(env, s, steps, s')
    ensures s' == Under(env, s, a, fingerprints, scopes, n, Fingerprints(n))
  {
    if n == 0 {
      steps := PlanFollows(env, s, a, fingerprints);
      s' := Under(env, s, a, fingerprints, scopes, 0, Fingerprints(0));
    } else {
      var before, mid := FingerprintsFollow(env, s, a, fingerprints, scopes, n - 1);
      steps, s' := FingerprintNext(env, s, a, fingerprints, scopes, n - 1, before, mid);
    }
  }

  lemma ScopesOpened(env: Env, s: State, a: Attempt, fingerprints: seq<Key>, scopes: seq<Key>, n: nat)
    returns (steps: seq<Step>, s': State)
    requires Comes(env, s, a, fingerprints, scopes) && n == |fingerprints| && a.AllAccepted(n)
    ensures QuietRun(env, s, steps, s')
    ensures s' == Under(env, s, a, fingerprints, scopes, n, Scopes(scopes, 0))
  {
    var before, mid := FingerprintsFollow(env, s, a, fingerprints, scopes, n);
    OpenFollows(env, s, a, fingerprints, scopes);
    steps, s' := before + [OpenScopes], Apply(env, mid, OpenScopes);
    QuietNext(env, s, before, mid, OpenScopes, s');
  }

  lemma ScopeNext(env: Env, s: State, a: Attempt, fingerprints: seq<Key>, scopes: seq<Key>, n: nat, m: nat,
                  before: seq<Step>, mid: State) returns (steps: seq<Step>, s': State)
    requires n == |fingerprints| + m && m < |scopes| && a.Ordered() && scopes == ScopesOf(s.catalog) && a.AllAccepted(n + 1)
    requires QuietRun(env, s, before, mid) && mid == Under(env, s, a, fingerprints, scopes, n, Scopes(scopes, m))
    ensures QuietRun(env, s, steps, s')
    ensures s' == Under(env, s, a, fingerprints, scopes, n + 1, Scopes(scopes, m + 1))
  {
    var claim := ClaimScope(a.Call(n).at, false);
    ScopeFollows(env, s, a, fingerprints, scopes, n, m);
    steps, s' := before + [claim], Apply(env, mid, claim);
    QuietNext(env, s, before, mid, claim, s');
  }

  /** And then those on scopes. */
  lemma {:induction false} ScopesFollow(env: Env, s: State, a: Attempt, fingerprints: seq<Key>, scopes: seq<Key>, n: nat, m: nat,
                                        total: nat, before: seq<Step>, mid: State)
    returns (steps: seq<Step>, s': State)
    requires n == |fingerprints| + m && m <= total <= |scopes| && a.Ordered() && scopes == ScopesOf(s.catalog)
    requires a.AllAccepted(|fingerprints| + total)
    requires QuietRun(env, s, before, mid) && mid == Under(env, s, a, fingerprints, scopes, n, Scopes(scopes, m))
    ensures QuietRun(env, s, steps, s')
    ensures s' == Under(env, s, a, fingerprints, scopes, |fingerprints| + total, Scopes(scopes, total))
    decreases total - m
  {
    if m == total {
      steps, s' := before, mid;
    } else {
      var next, s1 := ScopeNext(env, s, a, fingerprints, scopes, n, m, before, mid);
      steps, s' := ScopesFollow(env, s, a, fingerprints, scopes, n + 1, m + 1, total, next, s1);
    }
  }

  /** Where an attempt stands before its `n`th claim. */
  function PhaseAt(fingerprints: seq<Key>, scopes: seq<Key>, n: nat): Phase {
    if n < |fingerprints| then Fingerprints(n) else Scopes(scopes, n - |fingerprints|)
  }

  lemma Arrives(env: Env, s: State, a: Attempt, fingerprints: seq<Key>, scopes: seq<Key>, n: nat)
    returns (steps: seq<Step>, s': State)
    requires Comes(env, s, a, fingerprints, scopes) && n <= |fingerprints + scopes| && a.AllAccepted(n)
    ensures QuietRun(env, s, steps, s')
    ensures s' == Under(env, s, a, fingerprints, scopes, n, PhaseAt(fingerprints, scopes, n))
  {
    if n < |fingerprints| {
      steps, s' := FingerprintsFollow(env, s, a, fingerprints, scopes, n);
    } else {
      var before, mid := ScopesOpened(env, s, a, fingerprints, scopes, |fingerprints|);
      steps, s' := ScopesFollow(env, s, a, fingerprints, scopes, |fingerprints|, 0, n - |fingerprints|, before, mid);
    }
  }

  lemma InterruptedClaim(env: Env, s: State, at: real)
    requires Enabled(s, Claim(at, false))
    ensures Enabled(s, Claim(at, true)) && Apply(env, s, Claim(at, true)) == Compensated(Apply(env, s, Claim(at, false)))
  {
  }

  lemma InterruptedClaimScope(env: Env, s: State, at: real)
    requires Enabled(s, ClaimScope(at, false))
    ensures Enabled(s, ClaimScope(at, true)) && Apply(env, s, ClaimScope(at, true)) == Compensated(Apply(env, s, ClaimScope(at, false)))
  {
  }

  lemma InterruptedFingerprint(env: Env, s: State, a: Attempt, fingerprints: seq<Key>, scopes: seq<Key>, n: nat, mid: State)
    requires n < |fingerprints| && a.AllAccepted(n) && a.Call(n).Accepted? && a.Ordered()
    requires mid == Under(env, s, a, fingerprints, scopes, n, Fingerprints(n))
    ensures Enabled(mid, Claim(a.Call(n).at, true))
    ensures Apply(env, mid, Claim(a.Call(n).at, true)) == Compensated(Under(env, s, a, fingerprints, scopes, n + 1, Fingerprints(n + 1)))
  {
    FingerprintFollows(env, s, a, fingerprints, scopes, n);
    InterruptedClaim(env, mid, a.Call(n).at);
  }

  lemma InterruptedScope(env: Env, s: State, a: Attempt, fingerprints: seq<Key>, scopes: seq<Key>, n: nat, m: nat, mid: State)
    requires n == |fingerprints| + m && m < |scopes| && a.AllAccepted(n) && a.Call(n).Accepted? && a.Ordered()
    requires scopes == ScopesOf(s.catalog) && mid == Under(env, s, a, fingerprints, scopes, n, Scopes(scopes, m))
    ensures Enabled(mid, ClaimScope(a.Call(n).at, true))
    ensures Apply(env, mid, ClaimScope(a.Call(n).at, true)) == Compensated(Under(env, s, a, fingerprints, scopes, n + 1, Scopes(scopes, m + 1)))
  {
    ScopeFollows(env, s, a, fingerprints, scopes, n, m);
    InterruptedClaimScope(env, mid, a.Call(n).at);
  }

  /** A claim that is interrupted takes effect and is then taken back with the rest. */
  lemma InterruptedCompensates(env: Env, s: State, a: Attempt, fingerprints: seq<Key>, scopes: seq<Key>, n: nat, mid: State)
    returns (claim: Step, phase: Phase)
    requires n < |fingerprints + scopes| && a.AllAccepted(n) && a.Call(n).Accepted? && a.Ordered() && scopes == ScopesOf(s.catalog)
    requires mid == Under(env, s, a, fingerprints, scopes, n, PhaseAt(fingerprints, scopes, n))
    ensures !claim.Extend? && Enabled(mid, claim)
    ensures Apply(env, mid, claim) == Compensated(Under(env, s, a, fingerprints, scopes, n + 1, phase))
  {
    if n < |fingerprints| {
      claim, phase := Claim(a.Call(n).at, true), Fingerprints(n + 1);
      InterruptedFingerprint(env, s, a, fingerprints, scopes, n, mid);
    } else {
      var m := n - |fingerprints|;
      claim, phase := ClaimScope(a.Call(n).at, true), Scopes(scopes, m + 1);
      InterruptedScope(env, s, a, fingerprints, scopes, n, m, mid);
    }
  }

  lemma ReportedNext(before: Claims, claims: Claims, work: seq<Key>, a: Attempt, n: nat, created: seq<Key>, ttl: real)
    requires n < |work| && a.Effective(n + 1) && a.Ordered() && ttl > 0.0
    requires claims == Claimed(before, work, a, n, ttl) && Progress(before, claims, work, a, n, created, ttl)
    ensures Progress(before, Claimed(before, work, a, n + 1, ttl), work, a, n + 1,
                     if MetDead(before, work, a, n, ttl) then created + [work[n]] else created, ttl)
  {
    ProgressNext(before, claims, work, a, n, created, ttl, Claimed(before, work, a, n + 1, ttl),
                 if MetDead(before, work, a, n, ttl) then created + [work[n]] else created);
  }

  /** What was reported as created is exactly what was created. */
  lemma {:induction false} ReportedProgress(before: Claims, work: seq<Key>, a: Attempt, n: nat, ttl: real)
    requires n <= |work| && a.Effective(n) && a.Ordered() && ttl > 0.0
    requires forall k :: k in before ==> before[k] <= a.started + ttl
    ensures Progress(before, Claimed(before, work, a, n, ttl), work, a, n, Reported(before, work, a, n, ttl), ttl)
  {
    if n > 0 {
      ReportedProgress(before, work, a, n - 1, ttl);
      ReportedNext(before, Claimed(before, work, a, n - 1, ttl), work, a, n - 1, Reported(before, work, a, n - 1, ttl), ttl);
    }
  }

  /** What `RegisterMetadata` and `EnsureRegistration` promise of an attempt over a catalog that stays as it is. */
  ghost predicate EndsAsPromised(env: Env, s: State, s': State, a: Attempt, work: seq<Key>, done: nat)
    requires a.StopsAfter(done, |work|)
  {
    && s'.attempt.None? && s'.catalog == s.catalog
    && Ends(s.claims, s'.claims, PriorCurrent(s, a), work, a, done, env.ttl)
    && if a.AllAccepted(|work|)
       then s'.initialized && s'.frozen && s'.validUntil == RegistrationDeadline(a.started, env.ttl)
       else !s'.initialized && s'.frozen == s.frozen && s'.validUntil == if PriorCurrent(s, a) then s.validUntil else 0.0
  }

  lemma CompensatedAsPromised(env: Env, s: State, a: Attempt, fingerprints: seq<Key>, scopes: seq<Key>, done: nat, phase: Phase)
    requires Inv(env, s) && s.clock <= a.started && a.Ordered()
    requires a.StopsAfter(done, |fingerprints + scopes|) && !a.AllAccepted(|fingerprints + scopes|)
    ensures EndsAsPromised(env, s, Compensated(Under(env, s, a, fingerprints, scopes, done, phase)), a, fingerprints + scopes, done)
  {
    var work := fingerprints + scopes;
    var claims, created := Claimed(s.claims, work, a, done, env.ttl), Reported(s.claims, work, a, done, env.ttl);
    ReportedProgress(s.claims, work, a, done, env.ttl);
    TakenBackIsRefreshed(s.claims, claims, work, a, done, created, env.ttl);
    TakenBackIsUntouched(s.claims, claims, work, a, done, created, env.ttl);
  }

  lemma Finishes(env: Env, s: State, a: Attempt, fingerprints: seq<Key>, scopes: seq<Key>, done: nat)
    returns (steps: seq<Step>, s': State)
    requires Comes(env, s, a, fingerprints, scopes) && a.StopsAfter(done, |fingerprints + scopes|)
    requires a.AllAccepted(|fingerprints + scopes|)
    ensures QuietRun(env, s, steps, s')
    ensures EndsAsPromised(env, s, s', a, fingerprints + scopes, done)
  {
    var before, mid := Arrives(env, s, a, fingerprints, scopes, done);
    steps, s' := before + [Finish], Apply(env, mid, Finish);
    QuietNext(env, s, before, mid, Finish, s');
  }

  lemma FailsAfter(env: Env, s: State, a: Attempt, fingerprints: seq<Key>, scopes: seq<Key>, done: nat)
    returns (steps: seq<Step>, s': State)
    requires Inv(env, s) && Comes(env, s, a, fingerprints, scopes) && a.StopsAfter(done, |fingerprints + scopes|)
    requires a.AllAccepted(done) && !a.AllAccepted(|fingerprints + scopes|)
    ensures QuietRun(env, s, steps, s')
    ensures EndsAsPromised(env, s, s', a, fingerprints + scopes, done)
  {
    var before, mid := Arrives(env, s, a, fingerprints, scopes, done);
    steps, s' := before + [CallFails], Compensated(mid);
    QuietNext(env, s, before, mid, CallFails, s');
    CompensatedAsPromised(env, s, a, fingerprints, scopes, done, PhaseAt(fingerprints, scopes, done));
  }

  lemma InterruptedAfter(env: Env, s: State, a: Attempt, fingerprints: seq<Key>, scopes: seq<Key>, n: nat)
    returns (steps: seq<Step>, s': State)
    requires Inv(env, s) && Comes(env, s, a, fingerprints, scopes) && a.StopsAfter(n + 1, |fingerprints + scopes|)
    requires a.AllAccepted(n) && !a.AllAccepted(n + 1)
    ensures QuietRun(env, s, steps, s')
    ensures EndsAsPromised(env, s, s', a, fingerprints + scopes, n + 1)
  {
    var before, mid := Arrives(env, s, a, fingerprints, scopes, n);
    var claim, phase := InterruptedCompensates(env, s, a, fingerprints, scopes, n, mid);
    steps, s' := before + [claim], Apply(env, mid, claim);
    QuietNext(env, s, before, mid, claim, s');
    CompensatedAsPromised(env, s, a, fingerprints, scopes, n + 1, phase);
  }

  /** Without additions to the catalog the steps of an attempt do together what one call of `RegisterMetadata` does. */
  lemma AttemptFollows(env: Env, s: State, a: Attempt, fingerprints: seq<Key>, scopes: seq<Key>, done: nat)
    returns (steps: seq<Step>, s': State)
    requires Inv(env, s) && Comes(env, s, a, fingerprints, scopes) && a.StopsAfter(done, |fingerprints + scopes|)
    ensures QuietRun(env, s, steps, s') && IsRun(env, s, steps, s')
    ensures EndsAsPromised(env, s, s', a, fingerprints + scopes, done)
  {
    if a.AllAccepted(|fingerprints + scopes|) {
      steps, s' := Finishes(env, s, a, fingerprints, scopes, done);
    } else if a.AllAccepted(done) {
      steps, s' := FailsAfter(env, s, a, fingerprints, scopes, done);
    } else {
      steps, s' := InterruptedAfter(env, s, a, fingerprints, scopes, done - 1);
    }
    ReachedIsRun(env, s, steps, s');
  }
}

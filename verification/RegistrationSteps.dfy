/**
 * Registration step by step. The registration lock keeps attempts apart, but every store call is awaited, and
 * meanwhile `validate_configuration`, which takes no lock, may add to the catalog until it is frozen. Planning
 * takes the catalog as it is then; the loop over scopes runs over the live policies and breaks if they grow.
 */
module RegistrationSteps {
  import opened Prelude
  import opened Ordering
  import opened Registration

  /** What every step sees: which fingerprint a credential has, and how long a claim lives. */
  datatype Env = Env(credentials: map<string, string>, ttl: real)

  datatype Phase = Resolving | Fingerprints(done: nat) | Scopes(list: seq<Key>, done: nat)

  /** An attempt; the first `planned` entries of the catalog were there when it planned. */
  datatype Running = Running(
    started: real, priorCurrent: bool,
    planned: nat, fingerprints: seq<Key>, scopes: seq<Key>, created: seq<Key>, phase: Phase)

  /** `covered` remembers whether the last successful attempt had planned for every entry of the catalog. */
  datatype State = State(
    catalog: seq<Entry>, frozen: bool, claims: Claims, initialized: bool, validUntil: real,
    attempt: Option<Running>, covered: bool, clock: real)

  const INITIAL := State([], false, map[], false, 0.0, None, false, 0.0)

  /** `known` are the credentials whose metadata the attempt has; an interrupted call has taken effect. */
  datatype Step =
    | Extend(entry: Entry)
    | Begin(lockedAt: real, started: real)
    | ResolveFails
    | Plan(known: set<string>)
    | Claim(at: real, interrupted: bool)
    | OpenScopes
    | ClaimScope(at: real, interrupted: bool)
    | CallFails
    | ScopesChanged
    | Finish
    | Check(now: real)

  predicate Enabled(s: State, step: Step) {
    match step
    case Extend(_) => true
    case Begin(lockedAt, started) => s.attempt.None? && s.catalog != [] && s.clock <= lockedAt <= started
    case ResolveFails => s.attempt.Some? && s.attempt.value.phase.Resolving?
    case Plan(_) => s.attempt.Some? && s.attempt.value.phase.Resolving?
    case Claim(at, _) => InFingerprints(s) && s.attempt.value.phase.done < |s.attempt.value.fingerprints| && s.clock <= at
    case OpenScopes => InFingerprints(s) && s.attempt.value.phase.done >= |s.attempt.value.fingerprints|
    case ClaimScope(at, _) => InScopes(s) && !Grown(s) && s.attempt.value.phase.done < |s.attempt.value.phase.list| && s.clock <= at
    case CallFails =>
      || (InFingerprints(s) && s.attempt.value.phase.done < |s.attempt.value.fingerprints|)
      || (InScopes(s) && !Grown(s) && s.attempt.value.phase.done < |s.attempt.value.phase.list|)
    case ScopesChanged => InScopes(s) && Grown(s)
    case Finish => InScopes(s) && !Grown(s) && s.attempt.value.phase.done >= |s.attempt.value.phase.list|
    case Check(now) => s.clock <= now
  }

  predicate InFingerprints(s: State) {
    s.attempt.Some? && s.attempt.value.phase.Fingerprints?
  }

  predicate InScopes(s: State) {
    s.attempt.Some? && s.attempt.value.phase.Scopes?
  }

  /** Scopes were added since the loop over them began. */
  predicate Grown(s: State)
    requires InScopes(s)
  {
    ScopesOf(s.catalog) != s.attempt.value.phase.list
  }

  function Restricted(credentials: map<string, string>, known: set<string>): map<string, string> {
    map ref | ref in credentials && ref in known :: credentials[ref]
  }

  /** The attempt gives up; without a current registration everything planned goes, otherwise what it created. */
  function Compensated(s: State): State
    requires s.attempt.Some?
  {
    var r := s.attempt.value;
    var gone := if r.priorCurrent then r.created else r.fingerprints + r.scopes;
    Aborted(s.(claims := s.claims - SetOf(gone)))
  }

  function Aborted(s: State): State
    requires s.attempt.Some?
  {
    s.(initialized := false, validUntil := if s.attempt.value.priorCurrent then s.validUntil else 0.0, attempt := None)
  }

  /** One claim takes effect. */
  function Taken(env: Env, s: State, k: Key, at: real, phase: Phase): State
    requires s.attempt.Some?
  {
    var r := s.attempt.value;
    s.(claims := s.claims[k := at + env.ttl], clock := at,
       attempt := Some(r.(created := if LiveAt(s.claims, k, at) then r.created else r.created + [k], phase := phase)))
  }

  predicate Planned(env: Env, fingerprints: seq<Key>, e: Entry) {
    e.secretRef in env.credentials && Fingerprint(env.credentials[e.secretRef]) in fingerprints
  }

  /** No entry that came after planning needs a fingerprint that was not planned. */
  ghost predicate LateEntriesPlanned(env: Env, s: State)
    requires s.attempt.Some?
  {
    forall e :: e in s.catalog[Min(s.attempt.value.planned, |s.catalog|)..] ==> Planned(env, s.attempt.value.fingerprints, e)
  }

  ghost function Apply(env: Env, s: State, step: Step): State
    requires Enabled(s, step)
  {
    match step
    case Extend(e) => if s.frozen || e in s.catalog then s else s.(catalog := s.catalog + [e])
    case Begin(lockedAt, started) =>
      s.(clock := started,
         attempt := Some(Running(started, s.initialized && lockedAt < s.validUntil, 0, [], [], [], Resolving)))
    case ResolveFails => Aborted(s)
    case Plan(known) =>
      (match PlannedFingerprints(s.catalog, Restricted(env.credentials, known))
       case Err(_) => Aborted(s)
       case Ok(fingerprints) =>
         s.(attempt := Some(s.attempt.value.(planned := |s.catalog|, fingerprints := fingerprints,
                                             scopes := ScopesOf(s.catalog), phase := Fingerprints(0)))))
    case Claim(at, interrupted) =>
      var r := s.attempt.value;
      var s' := Taken(env, s, r.fingerprints[r.phase.done], at, Fingerprints(r.phase.done + 1));
      if interrupted then Compensated(s') else s'
    case OpenScopes => s.(attempt := Some(s.attempt.value.(phase := Scopes(ScopesOf(s.catalog), 0))))
    case ClaimScope(at, interrupted) =>
      var r := s.attempt.value;
      var s' := Taken(env, s, r.phase.list[r.phase.done], at, Scopes(r.phase.list, r.phase.done + 1));
      if interrupted then Compensated(s') else s'
    case CallFails => Compensated(s)
    case ScopesChanged => Compensated(s)
    case Finish =>
      s.(initialized := true, frozen := true, validUntil := RegistrationDeadline(s.attempt.value.started, env.ttl),
         covered := LateEntriesPlanned(env, s), attempt := None)
    case Check(now) => s.(clock := now, initialized := Passes(s, now))
  }

  /** The gate in front of serving requests. */
  predicate Passes(s: State, now: real) {
    s.initialized && s.attempt.None? && now < s.validUntil
  }

  ghost predicate IsRun(env: Env, s: State, steps: seq<Step>, s': State)
    decreases |steps|
  {
    if steps == [] then s' == s
    else
      var n := |steps| - 1;
      exists mid :: IsRun(env, s, steps[..n], mid) && Enabled(mid, steps[n]) && s' == Apply(env, mid, steps[n])
  }

  /** An unexpired claim on every entry's fingerprint and scope. */
  ghost predicate HoldsAll(env: Env, s: State, t: real) {
    forall e :: e in s.catalog ==>
      && LiveAt(s.claims, Scope(e.quotaScopeId), t)
      && e.secretRef in env.credentials && LiveAt(s.claims, Fingerprint(env.credentials[e.secretRef]), t)
  }

  // ---------------------------------------------------------------- the invariant

  /** The keys have been claimed since the attempt started. */
  ghost predicate Renewed(env: Env, claims: Claims, keys: seq<Key>, since: real) {
    forall k :: k in keys ==> k in claims && claims[k] >= since + env.ttl
  }

  /** The attempt's plan is for a first part of the catalog, all of it once the catalog is frozen. */
  ghost predicate PlanOk(env: Env, s: State, r: Running) {
    && r.planned <= |s.catalog| && (s.frozen ==> r.planned == |s.catalog|)
    && (forall e :: e in s.catalog[..r.planned] ==> Planned(env, r.fingerprints, e))
    && (forall k :: k in r.fingerprints ==> k.Fingerprint?)
    && r.scopes == ScopesOf(s.catalog[..r.planned])
  }

  ghost predicate PhaseOk(env: Env, s: State, r: Running) {
    match r.phase
    case Resolving => r.fingerprints == [] && r.scopes == []
    case Fingerprints(done) => PlanOk(env, s, r) && done <= |r.fingerprints| && Renewed(env, s.claims, r.fingerprints[..done], r.started)
    case Scopes(list, done) =>
      && PlanOk(env, s, r) && done <= |list|
      && Renewed(env, s.claims, r.fingerprints, r.started) && Renewed(env, s.claims, list[..done], r.started)
      && r.scopes <= list && list <= ScopesOf(s.catalog)
  }

  /** Before the catalog is frozen the owner holds no fingerprint but those of the attempt under way. */
  ghost predicate FirstAttemptOk(s: State) {
    !s.frozen ==>
      && !s.initialized
      && (s.attempt.Some? ==> !s.attempt.value.priorCurrent)
      && (forall k :: k in s.claims && k.Fingerprint? ==> s.attempt.Some? && k in s.attempt.value.fingerprints)
  }

  /** While the pool counts as initialised it holds every scope, and every fingerprint if the catalog was covered. */
  ghost predicate InitializedOk(env: Env, s: State) {
    s.initialized ==>
      && (forall e :: e in s.catalog ==> LiveAt(s.claims, Scope(e.quotaScopeId), s.validUntil))
      && (s.covered ==> HoldsAll(env, s, s.validUntil))
      && (!s.covered && s.attempt.None? ==> Missing(env, s))
  }

  /** Some entry's fingerprint is not held at all. */
  ghost predicate Missing(env: Env, s: State) {
    exists e :: e in s.catalog && !(e.secretRef in env.credentials && Fingerprint(env.credentials[e.secretRef]) in s.claims)
  }

  ghost predicate Inv(env: Env, s: State) {
    && env.ttl > 0.0
    && (forall k :: k in s.claims ==> s.claims[k] <= s.clock + env.ttl)
    && (s.attempt.Some? ==> s.attempt.value.started <= s.clock && PhaseOk(env, s, s.attempt.value))
    && FirstAttemptOk(s) && InitializedOk(env, s)
  }

  lemma ScopesOfGrows(catalog: seq<Entry>, e: Entry)
    ensures ScopesOf(catalog) <= ScopesOf(catalog + [e])
  {
    assert (catalog + [e])[..|catalog|] == catalog;
  }

  lemma ExtendKeepsInv(env: Env, s: State, e: Entry)
    requires Inv(env, s)
    ensures Inv(env, Apply(env, s, Extend(e)))
  {
    if !s.frozen && e !in s.catalog {
      ScopesOfGrows(s.catalog, e);
      if s.attempt.Some? && !s.attempt.value.phase.Resolving? {
        assert (s.catalog + [e])[..s.attempt.value.planned] == s.catalog[..s.attempt.value.planned];
      }
    }
  }

  lemma BeginKeepsInv(env: Env, s: State, lockedAt: real, started: real)
    requires Inv(env, s) && Enabled(s, Begin(lockedAt, started))
    ensures Inv(env, Apply(env, s, Begin(lockedAt, started)))
  {
  }

  lemma AbortKeepsInv(env: Env, s: State)
    requires Inv(env, s) && s.attempt.Some? && s.attempt.value.phase.Resolving?
    ensures Inv(env, Aborted(s))
  {
  }

  lemma PlanKeepsInv(env: Env, s: State, known: set<string>)
    requires Inv(env, s) && Enabled(s, Plan(known))
    ensures Inv(env, Apply(env, s, Plan(known)))
  {
    var credentials := Restricted(env.credentials, known);
    var planned := PlannedFingerprints(s.catalog, credentials);
    if planned.Ok? {
      assert s.catalog[..|s.catalog|] == s.catalog;
      forall e | e in s.catalog ensures Planned(env, planned.value, e) {
        var i :| 0 <= i < |s.catalog| && s.catalog[i] == e;
        assert planned.value[i] in planned.value;
      }
    }
  }

  /** A claim renews one key and changes no other. */
  lemma TakenKeeps(env: Env, s: State, k: Key, at: real, phase: Phase)
    requires Inv(env, s) && s.attempt.Some? && s.clock <= at
    requires k.Fingerprint? ==> k in s.attempt.value.fingerprints
    requires PhaseOk(env, Taken(env, s, k, at, phase), Taken(env, s, k, at, phase).attempt.value)
    ensures Inv(env, Taken(env, s, k, at, phase))
  {
  }

  lemma RenewedNext(env: Env, claims: Claims, keys: seq<Key>, n: nat, since: real, at: real)
    requires n < |keys| && Renewed(env, claims, keys[..n], since) && since <= at
    ensures Renewed(env, claims[keys[n] := at + env.ttl], keys[..n + 1], since)
  {
    assert keys[..n + 1] == keys[..n] + [keys[n]];
  }

  lemma RenewedStays(env: Env, claims: Claims, keys: seq<Key>, since: real, k: Key, at: real)
    requires Renewed(env, claims, keys, since) && since <= at
    ensures Renewed(env, claims[k := at + env.ttl], keys, since)
  {
  }

  lemma ClaimTaken(env: Env, s: State, at: real)
    requires Inv(env, s) && Enabled(s, Claim(at, false))
    ensures Inv(env, Apply(env, s, Claim(at, false)))
  {
    var r := s.attempt.value;
    RenewedNext(env, s.claims, r.fingerprints, r.phase.done, r.started, at);
    TakenKeeps(env, s, r.fingerprints[r.phase.done], at, Fingerprints(r.phase.done + 1));
  }

  lemma ScopeIsScope(s: State)
    requires InScopes(s) && s.attempt.value.phase.list <= ScopesOf(s.catalog)
    ensures forall k :: k in s.attempt.value.phase.list ==> k.Scope?
  {
    ScopesAreScopes(s.catalog);
    var list := s.attempt.value.phase.list;
    forall k | k in list ensures k.Scope? {
      var i :| 0 <= i < |list| && list[i] == k;
      assert ScopesOf(s.catalog)[i] == k;
    }
  }

  lemma ScopeRenewed(env: Env, s: State, at: real)
    requires Inv(env, s) && Enabled(s, ClaimScope(at, false))
    ensures var r := s.attempt.value;
      var claims := s.claims[r.phase.list[r.phase.done] := at + env.ttl];
      Renewed(env, claims, r.fingerprints, r.started) && Renewed(env, claims, r.phase.list[..r.phase.done + 1], r.started)
  {
    var r := s.attempt.value;
    RenewedNext(env, s.claims, r.phase.list, r.phase.done, r.started, at);
    RenewedStays(env, s.claims, r.fingerprints, r.started, r.phase.list[r.phase.done], at);
  }

  lemma ScopePhase(env: Env, s: State, at: real, phase: Phase)
    requires Inv(env, s) && Enabled(s, ClaimScope(at, false))
    requires phase == Scopes(s.attempt.value.phase.list, s.attempt.value.phase.done + 1)
    ensures var s' := Taken(env, s, s.attempt.value.phase.list[s.attempt.value.phase.done], at, phase);
      PhaseOk(env, s', s'.attempt.value)
  {
    ScopeRenewed(env, s, at);
  }

  lemma ScopeTaken(env: Env, s: State, at: real)
    requires Inv(env, s) && Enabled(s, ClaimScope(at, false))
    ensures Inv(env, Apply(env, s, ClaimScope(at, false)))
  {
    var r := s.attempt.value;
    var k, phase := r.phase.list[r.phase.done], Scopes(r.phase.list, r.phase.done + 1);
    ScopeIsScope(s);
    ScopePhase(env, s, at, phase);
    assert k in r.phase.list;
    TakenKeeps(env, s, k, at, phase);
  }

  lemma CompensateKeepsInv(env: Env, s: State)
    requires Inv(env, s) && s.attempt.Some?
    ensures Inv(env, Compensated(s))
  {
  }

  lemma OpenKeepsInv(env: Env, s: State)
    requires Inv(env, s) && Enabled(s, OpenScopes)
    ensures Inv(env, Apply(env, s, OpenScopes))
  {
    var r := s.attempt.value;
    assert r.fingerprints[..r.phase.done] == r.fingerprints;
    ScopesOfPrefix(s.catalog, r.planned);
  }

  lemma {:induction false} ScopesOfPrefix(catalog: seq<Entry>, n: nat)
    requires n <= |catalog|
    ensures ScopesOf(catalog[..n]) <= ScopesOf(catalog)
    decreases |catalog|
  {
    if n < |catalog| {
      var front := catalog[..|catalog| - 1];
      ScopesOfPrefix(front, n);
      assert front[..n] == catalog[..n];
      ScopesOfGrows(front, catalog[|catalog| - 1]);
      assert catalog == front + [catalog[|catalog| - 1]];
    } else {
      assert catalog[..n] == catalog;
    }
  }

  /** At the end every scope of the catalog has been claimed. */
  lemma FinishHoldsScopes(env: Env, s: State)
    requires Inv(env, s) && Enabled(s, Finish)
    ensures forall e :: e in s.catalog ==> LiveAt(s.claims, Scope(e.quotaScopeId), Apply(env, s, Finish).validUntil)
  {
    var r := s.attempt.value;
    assert r.phase.list[..r.phase.done] == r.phase.list;
    forall e | e in s.catalog ensures LiveAt(s.claims, Scope(e.quotaScopeId), Apply(env, s, Finish).validUntil) {
      ScopesCover(s.catalog, e);
    }
  }

  /** Entries are of the planned part of the catalog or came late. */
  lemma EntriesPlannedIff(env: Env, s: State)
    requires s.attempt.Some? && PlanOk(env, s, s.attempt.value)
    ensures LateEntriesPlanned(env, s) <==> forall e :: e in s.catalog ==> Planned(env, s.attempt.value.fingerprints, e)
  {
    var n := s.attempt.value.planned;
    assert s.catalog == s.catalog[..n] + s.catalog[n..];
  }

  /** What a successful attempt holds: every scope, and the fingerprints it planned. */
  lemma FinishHolds(env: Env, s: State)
    requires Inv(env, s) && Enabled(s, Finish)
    ensures var s' := Apply(env, s, Finish);
      && (forall e :: e in s.catalog ==> LiveAt(s.claims, Scope(e.quotaScopeId), s'.validUntil))
      && (LateEntriesPlanned(env, s) ==> HoldsAll(env, s', s'.validUntil))
      && (!LateEntriesPlanned(env, s) ==> Missing(env, s'))
  {
    FinishHoldsScopes(env, s);
    EntriesPlannedIff(env, s);
    if !LateEntriesPlanned(env, s) {
      NotHeld(env, s);
    }
  }

  lemma FrozenIsPlanned(env: Env, s: State)
    requires s.attempt.Some? && PlanOk(env, s, s.attempt.value) && s.frozen
    ensures LateEntriesPlanned(env, s)
  {
    assert s.catalog[s.attempt.value.planned..] == [];
  }

  /** Before the catalog is frozen an unplanned fingerprint is not held; afterwards everything is planned. */
  lemma NotHeld(env: Env, s: State)
    requires Inv(env, s) && Enabled(s, Finish) && !LateEntriesPlanned(env, s)
    ensures !s.frozen && Missing(env, Apply(env, s, Finish))
  {
    EntriesPlannedIff(env, s);
    var r := s.attempt.value;
    if s.frozen {
      FrozenIsPlanned(env, s);
    }
    var e :| e in s.catalog && !Planned(env, r.fingerprints, e);
  }

  lemma FinishKeepsInv(env: Env, s: State)
    requires Inv(env, s) && Enabled(s, Finish)
    ensures Inv(env, Apply(env, s, Finish))
  {
    FinishHolds(env, s);
  }

  lemma StepKeepsInv(env: Env, s: State, step: Step)
    requires Inv(env, s) && Enabled(s, step)
    ensures Inv(env, Apply(env, s, step))
  {
    match step {
      case Extend(e) => ExtendKeepsInv(env, s, e);
      case Begin(lockedAt, started) => BeginKeepsInv(env, s, lockedAt, started);
      case ResolveFails => AbortKeepsInv(env, s);
      case Plan(known) => PlanKeepsInv(env, s, known);
      case Claim(at, interrupted) =>
        ClaimTaken(env, s, at);
        if interrupted {
          CompensateKeepsInv(env, Apply(env, s, Claim(at, false)));
        }
      case OpenScopes => OpenKeepsInv(env, s);
      case ClaimScope(at, interrupted) =>
        ScopeTaken(env, s, at);
        if interrupted {
          CompensateKeepsInv(env, Apply(env, s, ClaimScope(at, false)));
        }
      case CallFails => CompensateKeepsInv(env, s);
      case ScopesChanged => CompensateKeepsInv(env, s);
      case Finish => FinishKeepsInv(env, s);
      case Check(_) =>
    }
  }

  lemma {:induction false} RunKeepsInv(env: Env, s: State, steps: seq<Step>, s': State)
    requires Inv(env, s) && IsRun(env, s, steps, s')
    ensures Inv(env, s')
    decreases |steps|
  {
    if steps != [] {
      var n := |steps| - 1;
      var mid :| IsRun(env, s, steps[..n], mid) && Enabled(mid, steps[n]) && s' == Apply(env, mid, steps[n]);
      RunKeepsInv(env, s, steps[..n], mid);
      StepKeepsInv(env, mid, steps[n]);
    }
  }

  // ---------------------------------------------------------------- main results

  /** A registration holds all it needs exactly if no entry accepted since planning needs an unplanned fingerprint. */
  lemma RegistrationHoldsIff(env: Env, steps: seq<Step>, s: State)
    requires env.ttl > 0.0 && IsRun(env, INITIAL, steps, s) && Enabled(s, Finish)
    ensures HoldsAll(env, Apply(env, s, Finish), Apply(env, s, Finish).validUntil) <==> LateEntriesPlanned(env, s)
  {
    RunKeepsInv(env, INITIAL, steps, s);
    FinishHolds(env, s);
  }

  /** Passing the gate means holding everything exactly if that was so for the last successful registration. */
  lemma PassingMeansHoldingIff(env: Env, steps: seq<Step>, s: State, now: real)
    requires env.ttl > 0.0 && IsRun(env, INITIAL, steps, s) && Passes(s, now)
    ensures HoldsAll(env, s, now) <==> s.covered
  {
    RunKeepsInv(env, INITIAL, steps, s);
  }

  /** Once the catalog is frozen, every later success has planned for all of it. */
  lemma RefreshCovers(env: Env, steps: seq<Step>, s: State)
    requires env.ttl > 0.0 && IsRun(env, INITIAL, steps, s) && Enabled(s, Finish) && s.frozen
    ensures Apply(env, s, Finish).covered
  {
    RunKeepsInv(env, INITIAL, steps, s);
    FrozenIsPlanned(env, s);
  }

  // ---------------------------------------------------------------- runs in which growth does no harm

  /** Nothing is added while an attempt is past planning, unless its fingerprint is planned already. */
  ghost predicate Harmless(env: Env, s: State, step: Step) {
    step.Extend? && s.attempt.Some? && !s.attempt.value.phase.Resolving? && !s.frozen && step.entry !in s.catalog ==>
      Planned(env, s.attempt.value.fingerprints, step.entry)
  }

  ghost predicate IsHarmlessRun(env: Env, s: State, steps: seq<Step>, s': State)
    decreases |steps|
  {
    if steps == [] then s' == s
    else
      var n := |steps| - 1;
      exists mid ::
        IsHarmlessRun(env, s, steps[..n], mid) && Enabled(mid, steps[n]) && Harmless(env, mid, steps[n]) && s' == Apply(env, mid, steps[n])
  }

  ghost predicate AllPlanned(env: Env, s: State) {
    && (s.attempt.Some? && !s.attempt.value.phase.Resolving? ==> LateEntriesPlanned(env, s))
    && (s.initialized ==> s.covered)
  }

  lemma ExtendKeepsPlanned(env: Env, s: State, e: Entry)
    requires Inv(env, s) && AllPlanned(env, s) && Harmless(env, s, Extend(e))
    ensures AllPlanned(env, Apply(env, s, Extend(e)))
  {
    if s.attempt.Some? && !s.attempt.value.phase.Resolving? && !s.frozen && e !in s.catalog {
      var n := s.attempt.value.planned;
      assert (s.catalog + [e])[n..] == s.catalog[n..] + [e];
    }
  }

  lemma PlanKeepsPlanned(env: Env, s: State, known: set<string>)
    requires Inv(env, s) && AllPlanned(env, s) && Enabled(s, Plan(known))
    ensures AllPlanned(env, Apply(env, s, Plan(known)))
  {
    assert s.catalog[|s.catalog|..] == [];
  }

  lemma StepKeepsAllPlanned(env: Env, s: State, step: Step)
    requires Inv(env, s) && AllPlanned(env, s) && Enabled(s, step) && Harmless(env, s, step)
    ensures AllPlanned(env, Apply(env, s, step))
  {
    match step {
      case Extend(e) => ExtendKeepsPlanned(env, s, e);
      case Plan(known) => PlanKeepsPlanned(env, s, known);
      case _ => assert Apply(env, s, step).catalog == s.catalog;
    }
  }

  /** If nothing unplanned is added between planning and freezing, passing the gate always means holding everything. */
  lemma {:induction false} HarmlessRunsHold(env: Env, steps: seq<Step>, s: State)
    requires env.ttl > 0.0 && IsHarmlessRun(env, INITIAL, steps, s)
    ensures IsRun(env, INITIAL, steps, s) && AllPlanned(env, s)
    ensures forall now :: Passes(s, now) ==> HoldsAll(env, s, now)
    decreases |steps|
  {
    if steps != [] {
      var n := |steps| - 1;
      var mid :| IsHarmlessRun(env, INITIAL, steps[..n], mid) && Enabled(mid, steps[n]) && Harmless(env, mid, steps[n])
                 && s == Apply(env, mid, steps[n]);
      HarmlessRunsHold(env, steps[..n], mid);
      RunKeepsInv(env, INITIAL, steps[..n], mid);
      StepKeepsAllPlanned(env, mid, steps[n]);
    }
    RunKeepsInv(env, INITIAL, steps, s);
  }

  // ---------------------------------------------------------------- when planning gives up

  /** Planning fails exactly if metadata of some entry is missing, or two entries share a credential across scopes. */
  lemma PlanGivesUpIff(env: Env, s: State, known: set<string>)
    requires Enabled(s, Plan(known))
    ensures Apply(env, s, Plan(known)).attempt.None? <==>
      || (exists e :: e in s.catalog && (e.secretRef !in env.credentials || e.secretRef !in known))
      || (exists e, f :: e in s.catalog && f in s.catalog && e.secretRef in env.credentials && f.secretRef in env.credentials
            && e.secretRef in known && f.secretRef in known
            && env.credentials[e.secretRef] == env.credentials[f.secretRef] && e.quotaScopeId != f.quotaScopeId)
  {
    var credentials := Restricted(env.credentials, known);
    var planned := PlannedFingerprints(s.catalog, credentials);
    if planned.Ok? {
      forall e | e in s.catalog ensures e.secretRef in env.credentials && e.secretRef in known {
        var i :| 0 <= i < |s.catalog| && s.catalog[i] == e;
      }
      forall e, f | e in s.catalog && f in s.catalog && env.credentials[e.secretRef] == env.credentials[f.secretRef]
        ensures e.quotaScopeId == f.quotaScopeId
      {
        SameCredentialSameScope(s.catalog, credentials, e, f);
      }
    }
  }

  lemma SameCredentialSameScope(catalog: seq<Entry>, credentials: map<string, string>, e: Entry, f: Entry)
    requires PlannedFingerprints(catalog, credentials).Ok? && e in catalog && f in catalog
    requires e.secretRef in credentials && f.secretRef in credentials && credentials[e.secretRef] == credentials[f.secretRef]
    ensures e.quotaScopeId == f.quotaScopeId
  {
    var planned := PlannedFingerprints(catalog, credentials).value;
    var i, j :| 0 <= i < |catalog| && 0 <= j < |catalog| && catalog[i] == e && catalog[j] == f;
    assert planned[i] == planned[j];
  }

  // ---------------------------------------------------------------- growth that does harm

  ghost predicate Goes(env: Env, s: State, step: Step, s': State) {
    Enabled(s, step) && s' == Apply(env, s, step)
  }

  /** The run goes through these states. */
  ghost predicate Through(env: Env, s: State, steps: seq<Step>, s': State, states: seq<State>) {
    && |states| == |steps| + 1 && states[0] == s && states[|steps|] == s'
    && forall i {:trigger steps[i]} :: 0 <= i < |steps| ==> Goes(env, states[i], steps[i], states[i + 1])
  }

  ghost predicate Reaches(env: Env, s: State, steps: seq<Step>, s': State) {
    exists states :: Through(env, s, steps, s', states)
  }

  lemma ReachNone(env: Env, s: State)
    ensures Reaches(env, s, [], s)
  {
    assert Through(env, s, [], s, [s]);
  }

  lemma ReachNext(env: Env, s: State, steps: seq<Step>, mid: State, step: Step, s': State)
    requires Reaches(env, s, steps, mid) && Goes(env, mid, step, s')
    ensures Reaches(env, s, steps + [step], s')
  {
    var states :| Through(env, s, steps, mid, states);
    var all := steps + [step];
    assert all[|steps|] == step && forall i :: 0 <= i < |steps| ==> all[i] == steps[i];
    assert Through(env, s, all, s', states + [s']);
  }

  lemma ReachedIsRun(env: Env, s: State, steps: seq<Step>, s': State)
    requires Reaches(env, s, steps, s')
    ensures IsRun(env, s, steps, s')
  {
    var states :| Through(env, s, steps, s', states);
    ThroughIsRun(env, s, steps, s', states);
  }

  lemma {:induction false} ThroughIsRun(env: Env, s: State, steps: seq<Step>, s': State, states: seq<State>)
    requires Through(env, s, steps, s', states)
    ensures IsRun(env, s, steps, s')
    decreases |steps|
  {
    if steps != [] {
      var n := |steps| - 1;
      assert forall i :: 0 <= i < n ==> steps[..n][i] == steps[i];
      assert Through(env, s, steps[..n], states[n], states[..n + 1]);
      ThroughIsRun(env, s, steps[..n], states[n], states[..n + 1]);
      assert Goes(env, states[n], steps[n], states[n + 1]);
    }
  }

  lemma PlanOfOne(credentials: map<string, string>, e: Entry)
    requires e.secretRef in credentials
    ensures PlannedFingerprints([e], credentials) == Ok([Fingerprint(credentials[e.secretRef])])
    ensures ScopesOf([e]) == [Scope(e.quotaScopeId)]
  {
    var catalog, key := [e], Fingerprint(credentials[e.secretRef]);
    assert catalog[..0] == [] && catalog[0] == e;
    assert PlannedFingerprints(catalog[..0], credentials) == Ok([]);
    assert ScopesOf(catalog[..0]) == [];
    var none: seq<Key> := [];
    assert none + [key] == [key];
  }

  /** A first attempt for `e` in a catalog that has since gained `f`. */
  function Midway(env: Env, e: Entry, f: Entry, claims: Claims, created: seq<Key>, phase: Phase): State
    requires e.secretRef in env.credentials
  {
    var r := Running(0.0, false, 1, [Fingerprint(env.credentials[e.secretRef])], [Scope(e.quotaScopeId)], created, phase);
    State([e, f], false, claims, false, 0.0, Some(r), false, 0.0)
  }

  lemma PlannedThenGrown(env: Env, e: Entry, f: Entry) returns (steps: seq<Step>)
    requires e.secretRef in env.credentials && e != f
    ensures Reaches(env, INITIAL, steps, Midway(env, e, f, map[], [], Fingerprints(0)))
  {
    var known := {e.secretRef};
    PlanOfOne(Restricted(env.credentials, known), e);
    var s1 := INITIAL.(catalog := [e]);
    var s2 := s1.(attempt := Some(Running(0.0, false, 0, [], [], [], Resolving)));
    var r := Running(0.0, false, 1, [Fingerprint(env.credentials[e.secretRef])], [Scope(e.quotaScopeId)], [], Fingerprints(0));
    var s3 := s1.(attempt := Some(r));
    assert Apply(env, INITIAL, Extend(e)) == s1 && Apply(env, s1, Begin(0.0, 0.0)) == s2 && Apply(env, s2, Plan(known)) == s3;
    assert Apply(env, s3, Extend(f)) == Midway(env, e, f, map[], [], Fingerprints(0));
    ReachNone(env, INITIAL);
    ReachNext(env, INITIAL, [], INITIAL, Extend(e), s1);
    ReachNext(env, INITIAL, [] + [Extend(e)], s1, Begin(0.0, 0.0), s2);
    ReachNext(env, INITIAL, [] + [Extend(e)] + [Begin(0.0, 0.0)], s2, Plan(known), s3);
    ReachNext(env, INITIAL, [] + [Extend(e)] + [Begin(0.0, 0.0)] + [Plan(known)], s3, Extend(f), Midway(env, e, f, map[], [], Fingerprints(0)));
    steps := [] + [Extend(e)] + [Begin(0.0, 0.0)] + [Plan(known)] + [Extend(f)];
  }

  lemma ScopesOfBoth(e: Entry, f: Entry)
    requires e.quotaScopeId == f.quotaScopeId
    ensures ScopesOf([e, f]) == [Scope(e.quotaScopeId)]
  {
    assert [e, f][..1] == [e] && [e][..0] == [];
    assert ScopesOf([e][..0]) == [];
    assert ScopesOf([e]) == [Scope(e.quotaScopeId)];
  }

  lemma MidwayClaims(env: Env, e: Entry, f: Entry)
    requires e.secretRef in env.credentials && e.quotaScopeId == f.quotaScopeId
    ensures var key, scope := Fingerprint(env.credentials[e.secretRef]), Scope(e.quotaScopeId);
      var s0 := Midway(env, e, f, map[], [], Fingerprints(0));
      var s1 := Midway(env, e, f, map[][key := 0.0 + env.ttl], [] + [key], Fingerprints(1));
      Enabled(s0, Claim(0.0, false)) && Apply(env, s0, Claim(0.0, false)) == s1
      && Enabled(s1, OpenScopes) && Apply(env, s1, OpenScopes) == Midway(env, e, f, map[][key := 0.0 + env.ttl], [] + [key], Scopes([scope], 0))
  {
    ScopesOfBoth(e, f);
  }

  lemma MidwayScopes(env: Env, e: Entry, f: Entry)
    requires e.secretRef in env.credentials && e.quotaScopeId == f.quotaScopeId
    ensures var key, scope := Fingerprint(env.credentials[e.secretRef]), Scope(e.quotaScopeId);
      var s2 := Midway(env, e, f, map[][key := 0.0 + env.ttl], [] + [key], Scopes([scope], 0));
      var s3 := Midway(env, e, f, map[][key := 0.0 + env.ttl][scope := 0.0 + env.ttl], [] + [key] + [scope], Scopes([scope], 1));
      Enabled(s2, ClaimScope(0.0, false)) && Apply(env, s2, ClaimScope(0.0, false)) == s3 && Enabled(s3, Finish)
  {
    ScopesOfBoth(e, f);
    var key, scope := Fingerprint(env.credentials[e.secretRef]), Scope(e.quotaScopeId);
    var claims: Claims := map[][key := 0.0 + env.ttl];
    var s2 := Midway(env, e, f, claims, [] + [key], Scopes([scope], 0));
    assert scope !in claims;
    assert Taken(env, s2, scope, 0.0, Scopes([scope], 1))
        == Midway(env, e, f, claims[scope := 0.0 + env.ttl], [] + [key] + [scope], Scopes([scope], 1));
  }

  /** The first registration up to its last step. */
  lemma GrownRun(env: Env, e: Entry, f: Entry, claims: Claims, scope: Key, s: State) returns (steps: seq<Step>)
    requires e.secretRef in env.credentials && e.quotaScopeId == f.quotaScopeId
    requires e != f
    requires scope == Scope(e.quotaScopeId) && claims == map[][Fingerprint(env.credentials[e.secretRef]) := 0.0 + env.ttl]
    requires s == Midway(env, e, f, claims[scope := 0.0 + env.ttl], [] + [Fingerprint(env.credentials[e.secretRef])] + [scope],
                         Scopes([scope], 1))
    ensures Reaches(env, INITIAL, steps, s)
  {
    var key := Fingerprint(env.credentials[e.secretRef]);
    var s1, s2 := Midway(env, e, f, claims, [] + [key], Fingerprints(1)), Midway(env, e, f, claims, [] + [key], Scopes([scope], 0));
    MidwayClaims(env, e, f);
    MidwayScopes(env, e, f);
    steps := PlannedThenGrown(env, e, f);
    ReachNext(env, INITIAL, steps, Midway(env, e, f, map[], [], Fingerprints(0)), Claim(0.0, false), s1);
    steps := steps + [Claim(0.0, false)];
    ReachNext(env, INITIAL, steps, s1, OpenScopes, s2);
    steps := steps + [OpenScopes];
    ReachNext(env, INITIAL, steps, s2, ClaimScope(0.0, false), s);
    steps := steps + [ClaimScope(0.0, false)];
  }

  lemma MidwayEnds(env: Env, e: Entry, f: Entry, s: State)
    requires env.ttl >= 1.0 && e.secretRef in env.credentials && f.secretRef in env.credentials
    requires env.credentials[e.secretRef] != env.credentials[f.secretRef]
    requires Enabled(s, Finish) && s.catalog == [e, f] && s.attempt.value.started == 0.0
    requires s.claims.Keys == {Fingerprint(env.credentials[e.secretRef]), Scope(e.quotaScopeId)}
    ensures Passes(Apply(env, s, Finish), 0.0) && !HoldsAll(env, Apply(env, s, Finish), 0.0)
  {
    assert f in s.catalog && Fingerprint(env.credentials[f.secretRef]) !in s.claims;
  }

  /** An entry added while the first one's claim is awaited: the gate opens without its fingerprint being held. */
  lemma GrowthGoesUnnoticed(env: Env, e: Entry, f: Entry) returns (steps: seq<Step>, s: State)
    requires env.ttl >= 1.0 && e.secretRef in env.credentials && f.secretRef in env.credentials
    requires e.quotaScopeId == f.quotaScopeId && env.credentials[e.secretRef] != env.credentials[f.secretRef]
    ensures IsRun(env, INITIAL, steps, s) && Passes(s, 0.0) && !HoldsAll(env, s, 0.0)
  {
    var key, scope := Fingerprint(env.credentials[e.secretRef]), Scope(e.quotaScopeId);
    var claims: Claims := map[][key := 0.0 + env.ttl];
    var last := Midway(env, e, f, claims[scope := 0.0 + env.ttl], [] + [key] + [scope], Scopes([scope], 1));
    var before := GrownRun(env, e, f, claims, scope, last);
    MidwayScopes(env, e, f);
    MidwayEnds(env, e, f, last);
    steps, s := before + [Finish], Apply(env, last, Finish);
    ReachNext(env, INITIAL, before, last, Finish, s);
    ReachedIsRun(env, INITIAL, steps, s);
  }

  // ---------------------------------------------------------------- what a failed first registration leaves

  /** Before the catalog is frozen the owner holds scopes of the catalog, and what the attempt under way has claimed. */
  ghost predicate Accounted(s: State) {
    !s.frozen ==> forall k :: k in s.claims ==> if PastPlanning(s) then k in Touched(s.attempt.value) else k in ScopesOf(s.catalog)
  }

  predicate PastPlanning(s: State) {
    s.attempt.Some? && !s.attempt.value.phase.Resolving?
  }

  /** What an attempt has planned, and the scopes it has claimed. */
  function Touched(r: Running): seq<Key> {
    r.fingerprints + r.scopes + ClaimedScopes(r)
  }

  function ClaimedScopes(r: Running): seq<Key> {
    match r.phase
    case Scopes(list, done) => list[..Min(done, |list|)]
    case _ => []
  }

  lemma ScopeInCatalog(env: Env, s: State, k: Key)
    requires Inv(env, s) && InScopes(s) && k in ClaimedScopes(s.attempt.value)
    ensures k in ScopesOf(s.catalog) && k.Scope? && k in s.claims
  {
    ScopeIsScope(s);
    var r := s.attempt.value;
    var i :| 0 <= i < r.phase.done && r.phase.list[i] == k;
    assert ScopesOf(s.catalog)[i] == k && r.phase.list[i] in r.phase.list;
  }

  lemma CompensateKeepsAccounted(env: Env, s: State)
    requires Inv(env, s) && Accounted(s) && PastPlanning(s)
    ensures Accounted(Compensated(s))
  {
    if !s.frozen {
      forall k | k in Compensated(s).claims ensures k in ScopesOf(s.catalog) {
        assert k in ClaimedScopes(s.attempt.value);
        ScopeInCatalog(env, s, k);
      }
    }
  }

  lemma ExtendKeepsAccounted(env: Env, s: State, e: Entry)
    requires Inv(env, s) && Accounted(s)
    ensures Accounted(Apply(env, s, Extend(e)))
  {
    ScopesOfGrows(s.catalog, e);
    forall k | k in ScopesOf(s.catalog) ensures k in ScopesOf(s.catalog + [e]) {
      var i :| 0 <= i < |ScopesOf(s.catalog)| && ScopesOf(s.catalog)[i] == k;
      assert ScopesOf(s.catalog + [e])[i] == k;
    }
  }

  lemma PlanKeepsAccounted(env: Env, s: State, known: set<string>)
    requires Inv(env, s) && Accounted(s) && Enabled(s, Plan(known))
    ensures Accounted(Apply(env, s, Plan(known)))
  {
  }

  lemma ClaimKeepsAccounted(env: Env, s: State, at: real)
    requires Inv(env, s) && Accounted(s) && Enabled(s, Claim(at, false))
    ensures Accounted(Apply(env, s, Claim(at, false)))
  {
  }

  lemma ClaimScopeKeepsAccounted(env: Env, s: State, at: real)
    requires Inv(env, s) && Accounted(s) && Enabled(s, ClaimScope(at, false))
    ensures Accounted(Apply(env, s, ClaimScope(at, false)))
  {
    var r := s.attempt.value;
    TakeNext(r.phase.list, r.phase.done);
  }

  lemma StepKeepsAccounted(env: Env, s: State, step: Step)
    requires Inv(env, s) && Accounted(s) && Enabled(s, step)
    ensures Accounted(Apply(env, s, step))
  {
    match step {
      case Extend(e) => ExtendKeepsAccounted(env, s, e);
      case Plan(known) => PlanKeepsAccounted(env, s, known);
      case Claim(at, interrupted) =>
        ClaimTaken(env, s, at);
        ClaimKeepsAccounted(env, s, at);
        if interrupted {
          CompensateKeepsAccounted(env, Apply(env, s, Claim(at, false)));
        }
      case ClaimScope(at, interrupted) =>
        ScopeTaken(env, s, at);
        ClaimScopeKeepsAccounted(env, s, at);
        if interrupted {
          CompensateKeepsAccounted(env, Apply(env, s, ClaimScope(at, false)));
        }
      case CallFails => CompensateKeepsAccounted(env, s);
      case ScopesChanged => CompensateKeepsAccounted(env, s);
      case _ =>
    }
  }

  lemma {:induction false} RunKeepsAccounted(env: Env, steps: seq<Step>, s: State)
    requires env.ttl > 0.0 && IsRun(env, INITIAL, steps, s)
    ensures Inv(env, s) && Accounted(s)
    decreases |steps|
  {
    if steps != [] {
      var n := |steps| - 1;
      var mid :| IsRun(env, INITIAL, steps[..n], mid) && Enabled(mid, steps[n]) && s == Apply(env, mid, steps[n]);
      RunKeepsAccounted(env, steps[..n], mid);
      StepKeepsInv(env, mid, steps[n]);
      StepKeepsAccounted(env, mid, steps[n]);
    }
  }

  /** The claimed scopes that came after planning. */
  function LateScopes(r: Running): set<Key> {
    SetOf(ClaimedScopes(r)) - SetOf(r.scopes)
  }

  /** The step ends a first registration without success. */
  ghost predicate FailsFirst(env: Env, s: State, step: Step) {
    Enabled(s, step) && !s.frozen && s.attempt.Some? && Apply(env, s, step).attempt.None? && !step.Finish?
  }

  /** The attempt with the effect of its last call, if that was interrupted. */
  function Reached(s: State, step: Step): Running
    requires s.attempt.Some?
  {
    var r := s.attempt.value;
    if step.ClaimScope? && r.phase.Scopes? then r.(phase := Scopes(r.phase.list, r.phase.done + 1)) else r
  }

  lemma CompensatedLeaves(env: Env, s: State)
    requires Inv(env, s) && Accounted(s) && !s.frozen && PastPlanning(s)
    ensures Compensated(s).claims.Keys == LateScopes(s.attempt.value)
  {
    var r, left := s.attempt.value, Compensated(s).claims;
    forall k | k in LateScopes(r) ensures k in left {
      ScopeInCatalog(env, s, k);
      assert k !in r.fingerprints;
    }
  }

  lemma InterruptedClaimLeaves(env: Env, s: State, at: real)
    requires Inv(env, s) && Accounted(s) && !s.frozen && Enabled(s, Claim(at, true))
    ensures Apply(env, s, Claim(at, true)).claims.Keys == LateScopes(s.attempt.value)
  {
    ClaimTaken(env, s, at);
    ClaimKeepsAccounted(env, s, at);
    CompensatedLeaves(env, Apply(env, s, Claim(at, false)));
  }

  lemma InterruptedScopeLeaves(env: Env, s: State, at: real)
    requires Inv(env, s) && Accounted(s) && !s.frozen && Enabled(s, ClaimScope(at, true))
    ensures Apply(env, s, ClaimScope(at, true)).claims.Keys == LateScopes(Reached(s, ClaimScope(at, true)))
  {
    ScopeTaken(env, s, at);
    ClaimScopeKeepsAccounted(env, s, at);
    CompensatedLeaves(env, Apply(env, s, ClaimScope(at, false)));
  }

  /**
   * However a registration fails before the catalog is frozen: if it had planned, the scopes it claimed that were
   * added after planning stay claimed and nothing else does; if it had not, what was held before stays.
   */
  lemma FailedFirstLeavesNothingIff(env: Env, steps: seq<Step>, s: State, step: Step)
    requires env.ttl > 0.0 && IsRun(env, INITIAL, steps, s) && FailsFirst(env, s, step)
    ensures PastPlanning(s) ==> Apply(env, s, step).claims.Keys == LateScopes(Reached(s, step))
    ensures !PastPlanning(s) ==> Apply(env, s, step).claims == s.claims
    ensures Apply(env, s, step).claims == map[] <==> if PastPlanning(s) then LateScopes(Reached(s, step)) == {} else s.claims == map[]
  {
    RunKeepsAccounted(env, steps, s);
    if PastPlanning(s) {
      match step {
        case Claim(at, _) => InterruptedClaimLeaves(env, s, at);
        case ClaimScope(at, _) => InterruptedScopeLeaves(env, s, at);
        case _ => CompensatedLeaves(env, s);
      }
    }
  }

  lemma ScopesOfTwo(e: Entry, f: Entry)
    requires e.quotaScopeId != f.quotaScopeId
    ensures ScopesOf([e, f]) == [Scope(e.quotaScopeId), Scope(f.quotaScopeId)]
  {
    assert [e, f][..1] == [e] && [e][..0] == [];
    assert ScopesOf([e][..0]) == [];
    assert ScopesOf([e]) == [Scope(e.quotaScopeId)];
  }

  lemma LateEntryClaims(env: Env, e: Entry, f: Entry, claims: Claims, list: seq<Key>)
    requires e.secretRef in env.credentials && e.quotaScopeId != f.quotaScopeId
    requires claims == map[][Fingerprint(env.credentials[e.secretRef]) := 0.0 + env.ttl]
    requires list == [Scope(e.quotaScopeId), Scope(f.quotaScopeId)]
    ensures var key := Fingerprint(env.credentials[e.secretRef]);
      var s0, s1 := Midway(env, e, f, map[], [], Fingerprints(0)), Midway(env, e, f, claims, [] + [key], Fingerprints(1));
      Enabled(s0, Claim(0.0, false)) && Apply(env, s0, Claim(0.0, false)) == s1
      && Enabled(s1, OpenScopes) && Apply(env, s1, OpenScopes) == Midway(env, e, f, claims, [] + [key], Scopes(list, 0))
  {
    ScopesOfTwo(e, f);
  }

  /** No attempt is under way, and the scope of the late entry is still claimed. */
  function LeftBehind(env: Env, e: Entry, f: Entry): State {
    State([e, f], false, map[Scope(f.quotaScopeId) := 0.0 + env.ttl], false, 0.0, None, false, 0.0)
  }

  lemma LateScopesClaimed(env: Env, e: Entry, f: Entry, claims: Claims, list: seq<Key>)
    requires e.secretRef in env.credentials && e.quotaScopeId != f.quotaScopeId
    requires claims == map[][Fingerprint(env.credentials[e.secretRef]) := 0.0 + env.ttl]
    requires list == [Scope(e.quotaScopeId), Scope(f.quotaScopeId)]
    ensures var key := Fingerprint(env.credentials[e.secretRef]);
      var s2 := Midway(env, e, f, claims, [] + [key], Scopes(list, 0));
      var s3 := Midway(env, e, f, claims[list[0] := 0.0 + env.ttl], [] + [key] + [list[0]], Scopes(list, 1));
      Enabled(s2, ClaimScope(0.0, false)) && Apply(env, s2, ClaimScope(0.0, false)) == s3
      && Enabled(s3, ClaimScope(0.0, true)) && FailsFirst(env, s3, ClaimScope(0.0, true))
      && Apply(env, s3, ClaimScope(0.0, true)) == LeftBehind(env, e, f)
  {
    ScopesOfTwo(e, f);
    var left := Apply(env, Midway(env, e, f, claims[list[0] := 0.0 + env.ttl], [] + [Fingerprint(env.credentials[e.secretRef])] + [list[0]],
                                  Scopes(list, 1)), ClaimScope(0.0, true));
    assert left.claims == map[list[1] := 0.0 + env.ttl];
  }

  /** The first registration up to its last claim. */
  lemma LateRun(env: Env, e: Entry, f: Entry, claims: Claims, list: seq<Key>, s: State) returns (steps: seq<Step>)
    requires e.secretRef in env.credentials && e.quotaScopeId != f.quotaScopeId
    requires claims == map[][Fingerprint(env.credentials[e.secretRef]) := 0.0 + env.ttl]
    requires list == [Scope(e.quotaScopeId), Scope(f.quotaScopeId)]
    requires s == Midway(env, e, f, claims[list[0] := 0.0 + env.ttl], [] + [Fingerprint(env.credentials[e.secretRef])] + [list[0]], Scopes(list, 1))
    ensures Reaches(env, INITIAL, steps, s)
  {
    var key := Fingerprint(env.credentials[e.secretRef]);
    var s1, s2 := Midway(env, e, f, claims, [] + [key], Fingerprints(1)), Midway(env, e, f, claims, [] + [key], Scopes(list, 0));
    LateEntryClaims(env, e, f, claims, list);
    LateScopesClaimed(env, e, f, claims, list);
    steps := PlannedThenGrown(env, e, f);
    ReachNext(env, INITIAL, steps, Midway(env, e, f, map[], [], Fingerprints(0)), Claim(0.0, false), s1);
    steps := steps + [Claim(0.0, false)];
    ReachNext(env, INITIAL, steps, s1, OpenScopes, s2);
    steps := steps + [OpenScopes];
    ReachNext(env, INITIAL, steps, s2, ClaimScope(0.0, false), s);
    steps := steps + [ClaimScope(0.0, false)];
  }

  lemma RetryLeavesIt(env: Env, e: Entry, f: Entry)
    ensures var retry := Apply(env, LeftBehind(env, e, f), Begin(0.0, 0.0));
      FailsFirst(env, retry, ResolveFails) && Apply(env, retry, ResolveFails) == LeftBehind(env, e, f)
  {
  }

  /**
   * An entry of another scope is added while the first one's claim is awaited, and the last claim is cut short: the
   * failed first registration leaves that scope claimed, and so does a second one that fails while resolving.
   */
  lemma FailedFirstLeavesAScope(env: Env, e: Entry, f: Entry) returns (steps: seq<Step>, s: State)
    requires e.secretRef in env.credentials && e.quotaScopeId != f.quotaScopeId
    ensures IsRun(env, INITIAL, steps, s) && FailsFirst(env, s, ClaimScope(0.0, true))
    ensures Apply(env, s, ClaimScope(0.0, true)) == LeftBehind(env, e, f)
    ensures var retry := Apply(env, LeftBehind(env, e, f), Begin(0.0, 0.0));
      FailsFirst(env, retry, ResolveFails) && Apply(env, retry, ResolveFails) == LeftBehind(env, e, f)
  {
    var key := Fingerprint(env.credentials[e.secretRef]);
    var claims: Claims := map[][key := 0.0 + env.ttl];
    var list := [Scope(e.quotaScopeId), Scope(f.quotaScopeId)];
    LateScopesClaimed(env, e, f, claims, list);
    RetryLeavesIt(env, e, f);
    s := Midway(env, e, f, claims[list[0] := 0.0 + env.ttl], [] + [key] + [list[0]], Scopes(list, 1));
    steps := LateRun(env, e, f, claims, list, s);
    ReachedIsRun(env, INITIAL, steps, s);
  }
}

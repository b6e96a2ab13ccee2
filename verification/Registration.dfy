/**
 * Registration of one capacity catalog in the shared store: claims on credential fingerprints and
 * quota scopes, taken one by one, with compensation when an attempt fails or is cancelled half-way.
 * The store is seen through this owner's entries only; times are on the pool's clock. The catalog stays as it is
 * during an attempt; RegistrationSteps has attempts during which it grows.
 */
module Registration {
  import opened Prelude
  import opened Ordering

  datatype Key = Fingerprint(value: string) | Scope(id: string)

  /** Expiry of each entry this owner has in the store. */
  type Claims = map<Key, real>

  predicate LiveAt(claims: Claims, k: Key, t: real) {
    k in claims && claims[k] > t
  }

  /** What one store call of an attempt did; a call that raises had no effect. */
  datatype StoreCall =
    | Accepted(at: real, cancelled: bool)
    | Rejected
    | CallRaised

  datatype Entry = Entry(secretRef: string, quotaScopeId: string)

  datatype RegistrationError =
    | EmptyCatalog
    | ResolutionFailed
    | IncompleteMetadata
    | ScopeConflict
    | ClaimFailed

  /** One attempt as the outside world shapes it: clock readings, whether credentials resolve, the store's replies. */
  datatype Attempt = Attempt(lockedAt: real, started: real, resolved: bool, calls: seq<StoreCall>, finished: real) {
    function Call(i: nat): StoreCall {
      if i < |calls| then calls[i] else CallRaised
    }

    /** The first `n` calls were all accepted and none of them interrupted. */
    ghost predicate AllAccepted(n: nat) {
      forall i :: 0 <= i < n ==> Call(i).Accepted? && !Call(i).cancelled
    }

    /** The first `n` calls took effect; the last of them may have been interrupted while it did. */
    ghost predicate Effective(n: nat) {
      && (forall i :: 0 <= i < n ==> Call(i).Accepted?)
      && (forall i :: 0 <= i < n - 1 ==> !Call(i).cancelled)
    }

    /** The clock after the first `n` calls. */
    ghost function Reading(n: nat): real {
      if n > 0 && Call(n - 1).Accepted? then Call(n - 1).at else started
    }

    /** Of `total` calls exactly the first `n` took effect before the attempt went on or gave up. */
    ghost predicate StopsAfter(n: nat, total: nat) {
      && n <= total && Effective(n)
      && (AllAccepted(n) && n < total ==> !Call(n).Accepted?)
    }

    ghost predicate Ordered() {
      && lockedAt <= started <= finished
      && (forall i :: 0 <= i < |calls| && calls[i].Accepted? ==> started <= calls[i].at <= finished)
      && (forall i, j :: 0 <= i < j < |calls| && calls[i].Accepted? && calls[j].Accepted? ==> calls[i].at <= calls[j].at)
    }
  }

  /** Kept a tenth of the lifetime short of the earliest possible expiry. */
  function RegistrationDeadline(started: real, ttl: real): (deadline: real)
    ensures ttl > 0.0 ==> deadline < started + ttl
    ensures deadline >= started
    ensures ttl >= 0.01 ==> deadline == started + 0.9 * ttl
    ensures 0.001 <= ttl <= 0.01 ==> deadline == started + ttl - 0.001
    ensures ttl <= 0.001 ==> deadline == started
  {
    var margin := if ttl * 0.1 > 0.001 then ttl * 0.1 else 0.001;
    started + (if ttl - margin > 0.0 then ttl - margin else 0.0)
  }

  /** Fingerprints of the catalog's credentials, in order; each belongs to one scope only. */
  function PlannedFingerprints(catalog: seq<Entry>, credentials: map<string, string>): (r: Result<seq<Key>, RegistrationError>)
    ensures r.Ok? ==>
      && |r.value| == |catalog|
      && forall i :: 0 <= i < |catalog| ==>
           catalog[i].secretRef in credentials && r.value[i] == Fingerprint(credentials[catalog[i].secretRef])
    ensures r.Ok? ==>
      forall i, j :: 0 <= i < j < |catalog| && r.value[i] == r.value[j] ==> catalog[i].quotaScopeId == catalog[j].quotaScopeId
    ensures r.Err? ==> r.error in {IncompleteMetadata, ScopeConflict}
    ensures r == Err(IncompleteMetadata) ==> exists e :: e in catalog && e.secretRef !in credentials
    ensures r == Err(ScopeConflict) ==>
      (exists i, j :: 0 <= i < j < |catalog| && catalog[i].secretRef in credentials && catalog[j].secretRef in credentials
            && credentials[catalog[i].secretRef] == credentials[catalog[j].secretRef]
            && catalog[i].quotaScopeId != catalog[j].quotaScopeId)
  {
    if catalog == [] then Ok([])
    else
      var n := |catalog| - 1;
      var front := PlannedFingerprints(catalog[..n], credentials);
      if front.Err? then front
      else if catalog[n].secretRef !in credentials then Err(IncompleteMetadata)
      else
        var claim := Fingerprint(credentials[catalog[n].secretRef]);
        if exists i :: 0 <= i < n && front.value[i] == claim && catalog[i].quotaScopeId != catalog[n].quotaScopeId
        then Err(ScopeConflict)
        else Ok(front.value + [claim])
  }

  function ScopesOf(catalog: seq<Entry>): seq<Key> {
    if catalog == [] then []
    else
      var front := ScopesOf(catalog[..|catalog| - 1]);
      var scope := Scope(catalog[|catalog| - 1].quotaScopeId);
      if scope in front then front else front + [scope]
  }

  lemma {:induction false} ScopesAreScopes(catalog: seq<Entry>)
    ensures forall k :: k in ScopesOf(catalog) ==> k.Scope?
  {
    if catalog != [] {
      ScopesAreScopes(catalog[..|catalog| - 1]);
    }
  }

  /** Everything the owner has to hold while it serves `catalog`. */
  ghost predicate Required(catalog: seq<Entry>, credentials: map<string, string>, k: Key) {
    exists e :: e in catalog && (k == Scope(e.quotaScopeId) || (e.secretRef in credentials && k == Fingerprint(credentials[e.secretRef])))
  }

  lemma {:induction false} ScopesCover(catalog: seq<Entry>, e: Entry)
    requires e in catalog
    ensures Scope(e.quotaScopeId) in ScopesOf(catalog)
  {
    if e != catalog[|catalog| - 1] {
      assert e in catalog[..|catalog| - 1];
      ScopesCover(catalog[..|catalog| - 1], e);
    }
  }

  /** The planned work is enough: holding it is holding everything required. */
  lemma PlanCovers(catalog: seq<Entry>, credentials: map<string, string>, k: Key)
    requires Required(catalog, credentials, k) && PlannedFingerprints(catalog, credentials).Ok?
    ensures k in PlannedFingerprints(catalog, credentials).value + ScopesOf(catalog)
  {
    var e :| e in catalog && (k == Scope(e.quotaScopeId) || (e.secretRef in credentials && k == Fingerprint(credentials[e.secretRef])));
    ScopesCover(catalog, e);
    var i :| 0 <= i < |catalog| && catalog[i] == e;
    assert PlannedFingerprints(catalog, credentials).value[i] in PlannedFingerprints(catalog, credentials).value;
  }

  // ---------------------------------------------------------------- what a series of claims has done

  /** The store after the first `n` claims of `work`. */
  ghost function Claimed(before: Claims, work: seq<Key>, a: Attempt, n: nat, ttl: real): Claims
    requires n <= |work| && a.Effective(n)
  {
    if n == 0 then before else Claimed(before, work, a, n - 1, ttl)[work[n - 1] := a.Call(n - 1).at + ttl]
  }

  /** The `i`th claim met no live entry, so the store reports it as created. */
  ghost predicate MetDead(before: Claims, work: seq<Key>, a: Attempt, i: nat, ttl: real)
    requires i < |work| && a.Effective(i + 1)
  {
    !LiveAt(Claimed(before, work, a, i, ttl), work[i], a.Call(i).at)
  }

  /** One of the first `n` claims created the entry of `k`. */
  ghost predicate CreatedBy(before: Claims, work: seq<Key>, a: Attempt, n: nat, ttl: real, k: Key)
    requires n <= |work| && a.Effective(n)
  {
    exists i :: 0 <= i < n && work[i] == k && MetDead(before, work, a, i, ttl)
  }

  /** After claiming `done` between `started` and `now`: everything claimed is renewed and nothing else moved. */
  ghost predicate ClaimedSoFar(before: Claims, claims: Claims, done: seq<Key>, started: real, now: real, ttl: real) {
    && (forall k :: k in done ==> k in claims && claims[k] >= started + ttl)
    && (forall k :: k in claims ==> claims[k] <= now + ttl)
    && (forall k :: k !in done ==> (k in claims <==> k in before) && (k in before ==> claims[k] == before[k]))
    && (forall k :: k in before ==> k in claims && claims[k] >= before[k])
  }

  lemma ClaimNext(before: Claims, claims: Claims, done: seq<Key>, started: real, now: real, ttl: real, k: Key, at: real)
    requires ClaimedSoFar(before, claims, done, started, now, ttl)
    requires ttl > 0.0 && started <= at && now <= at
    ensures ClaimedSoFar(before, claims[k := at + ttl], done + [k], started, at, ttl)
  {
    forall x ensures x in done + [k] <==> x in done || x == k {}
  }

  lemma ClaimedLater(before: Claims, claims: Claims, done: seq<Key>, started: real, now: real, later: real, ttl: real)
    requires ClaimedSoFar(before, claims, done, started, now, ttl) && now <= later
    ensures ClaimedSoFar(before, claims, done, started, later, ttl)
  {
  }

  /** `created` lists exactly the keys whose entry one of the first `n` claims created. */
  ghost predicate CreatedExactly(before: Claims, work: seq<Key>, a: Attempt, n: nat, ttl: real, created: seq<Key>)
    requires n <= |work| && a.Effective(n)
  {
    forall k :: k in created <==> CreatedBy(before, work, a, n, ttl, k)
  }

  /** A failed refresh: of the entries held before exactly those it created itself are gone, and there is no other entry. */
  ghost predicate Refreshed(before: Claims, after: Claims, work: seq<Key>, a: Attempt, n: nat, ttl: real)
    requires n <= |work| && a.Effective(n)
  {
    && (forall k :: k in before ==> (k !in after <==> CreatedBy(before, work, a, n, ttl, k)))
    && (forall k :: k in after ==> k in before && after[k] >= before[k])
  }

  /** The store after an attempt: everything claimed, or undone as far as what was registered before allows. */
  ghost predicate Ends(before: Claims, after: Claims, priorCurrent: bool, work: seq<Key>, a: Attempt, done: nat, ttl: real)
    requires a.StopsAfter(done, |work|)
  {
    if a.AllAccepted(|work|) then after == Claimed(before, work, a, done, ttl)
    else if priorCurrent then Refreshed(before, after, work, a, done, ttl)
    else after == before - SetOf(work)
  }

  lemma CreatedNext(before: Claims, work: seq<Key>, a: Attempt, n: nat, ttl: real, created: seq<Key>)
    requires n < |work| && a.Effective(n + 1) && CreatedExactly(before, work, a, n, ttl, created)
    ensures CreatedExactly(before, work, a, n + 1, ttl,
                           if MetDead(before, work, a, n, ttl) then created + [work[n]] else created)
  {
    var created' := if MetDead(before, work, a, n, ttl) then created + [work[n]] else created;
    forall k ensures k in created' <==> CreatedBy(before, work, a, n + 1, ttl, k) {
      if CreatedBy(before, work, a, n, ttl, k) {
        var i :| 0 <= i < n && work[i] == k && MetDead(before, work, a, i, ttl);
        assert CreatedBy(before, work, a, n + 1, ttl, k);
      }
    }
  }

  /** Until its first claim a key is as it was; afterwards it lives at least a lifetime from the attempt's start. */
  lemma {:induction false} ClaimedSince(before: Claims, work: seq<Key>, a: Attempt, n: nat, ttl: real, k: Key)
    requires n <= |work| && a.Effective(n) && a.Ordered()
    ensures k !in work[..n] ==>
      (k in Claimed(before, work, a, n, ttl) <==> k in before)
      && (k in before ==> Claimed(before, work, a, n, ttl)[k] == before[k])
    ensures k in work[..n] ==> k in Claimed(before, work, a, n, ttl) && Claimed(before, work, a, n, ttl)[k] >= a.started + ttl
  {
    if n > 0 {
      ClaimedSince(before, work, a, n - 1, ttl, k);
      assert work[..n] == work[..n - 1] + [work[n - 1]];
    }
  }

  /** What an attempt shorter than a lifetime creates are exactly the entries not alive when it first came to them. */
  lemma CreatedIffDeadWhenClaimed(before: Claims, work: seq<Key>, a: Attempt, n: nat, ttl: real, k: Key)
    requires n <= |work| && a.Effective(n) && a.Ordered() && a.finished < a.started + ttl
    ensures CreatedBy(before, work, a, n, ttl, k) <==>
      exists i :: 0 <= i < n && work[i] == k && k !in work[..i] && !LiveAt(before, k, a.Call(i).at)
  {
    forall i | 0 <= i < n && work[i] == k
      ensures MetDead(before, work, a, i, ttl) <==> k !in work[..i] && !LiveAt(before, k, a.Call(i).at)
    {
      ClaimedSince(before, work, a, i, ttl, k);
    }
  }

  /** However long the attempt, an entry that outlives it is none that it created. */
  lemma {:induction false} OutlivingIsNotCreated(before: Claims, work: seq<Key>, a: Attempt, n: nat, ttl: real, k: Key)
    requires n <= |work| && a.Effective(n) && a.Ordered()
    requires LiveAt(before, k, a.finished) && before[k] <= a.started + ttl
    ensures LiveAt(Claimed(before, work, a, n, ttl), k, a.finished)
    ensures !CreatedBy(before, work, a, n, ttl, k)
  {
    if n > 0 {
      OutlivingIsNotCreated(before, work, a, n - 1, ttl, k);
    }
  }

  /** Where an attempt stands after its first `n` claims. */
  ghost predicate Progress(before: Claims, claims: Claims, work: seq<Key>, a: Attempt, n: nat, created: seq<Key>, ttl: real)
    requires n <= |work|
  {
    && a.Effective(n)
    && claims == Claimed(before, work, a, n, ttl)
    && CreatedExactly(before, work, a, n, ttl, created)
    && ClaimedSoFar(before, claims, work[..n], a.started, a.Reading(n), ttl)
  }

  lemma SoFarNext(before: Claims, claims: Claims, work: seq<Key>, a: Attempt, n: nat, ttl: real, claims': Claims)
    requires n < |work| && ClaimedSoFar(before, claims, work[..n], a.started, a.Reading(n), ttl)
    requires a.Effective(n + 1) && a.Ordered() && ttl > 0.0 && claims' == claims[work[n] := a.Call(n).at + ttl]
    ensures ClaimedSoFar(before, claims', work[..n + 1], a.started, a.Reading(n + 1), ttl)
  {
    CallsInOrder(a, n);
    ClaimNext(before, claims, work[..n], a.started, a.Reading(n), ttl, work[n], a.Call(n).at);
    TakeNext(work, n);
  }

  lemma ProgressNext(before: Claims, claims: Claims, work: seq<Key>, a: Attempt, n: nat, created: seq<Key>, ttl: real,
                     claims': Claims, created': seq<Key>)
    requires n < |work| && Progress(before, claims, work, a, n, created, ttl)
    requires a.AllAccepted(n) && a.Call(n).Accepted? && a.Ordered() && ttl > 0.0
    requires claims' == claims[work[n] := a.Call(n).at + ttl]
    requires created' == if LiveAt(claims, work[n], a.Call(n).at) then created else created + [work[n]]
    ensures Progress(before, claims', work, a, n + 1, created', ttl)
  {
    SoFarNext(before, claims, work, a, n, ttl, claims');
    CreatedNext(before, work, a, n, ttl, created);
  }

  lemma ProgressDone(before: Claims, claims: Claims, work: seq<Key>, a: Attempt, n: nat, created: seq<Key>, ttl: real)
    requires n <= |work| && Progress(before, claims, work, a, n, created, ttl) && a.Ordered()
    ensures ClaimedSoFar(before, claims, work[..n], a.started, a.finished, ttl)
  {
    ClaimedLater(before, claims, work[..n], a.started, a.Reading(n), a.finished, ttl);
  }

  class CapacityRegistration {
    const ttl: real
    const refreshInterval: real
    const credentials: map<string, string>
    var catalog: seq<Entry>
    var frozen: bool
    var claims: Claims
    var initialized: bool
    var validUntil: real
    var refreshInProgress: bool
    var nextRefresh: real
    ghost var clock: real

    /** While the pool counts as initialised, every required claim outlives `validUntil`. */
    ghost predicate Valid()
      reads this
    {
      && ttl > 0.0
      && (forall k :: k in claims ==> claims[k] <= clock + ttl)
      && (initialized ==> frozen && forall k :: Required(catalog, credentials, k) ==> LiveAt(claims, k, validUntil))
    }

    constructor (ttl: real, refreshInterval: real, credentials: map<string, string>, catalog: seq<Entry>)
      requires ttl > 0.0
      ensures Valid() && claims == map[] && !initialized && !frozen && !refreshInProgress
      ensures this.catalog == catalog && this.credentials == credentials && this.ttl == ttl
    {
      this.ttl, this.refreshInterval, this.credentials, this.catalog := ttl, refreshInterval, credentials, catalog;
      frozen, claims, initialized, validUntil := false, map[], false, 0.0;
      refreshInProgress, nextRefresh, clock := false, 0.0, 0.0;
    }

    /** The gate in front of serving requests: passing it means holding every required claim, unexpired. */
    method RequireInitialized(now: real) returns (passes: bool)
      requires Valid()
      modifies this`initialized
      ensures Valid()
      ensures passes <==> old(initialized) && !refreshInProgress && now < validUntil
      ensures initialized == (old(initialized) && passes)
      ensures passes ==> forall k :: Required(catalog, credentials, k) ==> LiveAt(claims, k, now)
    {
      passes := initialized && !refreshInProgress && now < validUntil;
      if !passes {
        initialized := false;
      }
    }

    /** Removes this owner's entries for `keys`. */
    method RollbackRegistration(keys: seq<Key>)
      modifies this`claims
      ensures claims == old(claims) - (set k | k in keys)
    {
      var i := |keys|;
      while i > 0
        invariant 0 <= i <= |keys|
        invariant claims == old(claims) - (set k | k in keys[i..])
      {
        i := i - 1;
        assert keys[i..] == [keys[i]] + keys[i + 1..];
        claims := claims - {keys[i]};
      }
    }

    /** Claims `work` in order until a call fails or is cancelled. */
    method ClaimAll(work: seq<Key>, a: Attempt) returns (complete: bool, created: seq<Key>, done: nat)
      requires ttl > 0.0 && a.Ordered() && clock <= a.started
      requires forall k :: k in claims ==> claims[k] <= clock + ttl
      modifies this`claims
      ensures a.StopsAfter(done, |work|) && (complete ==> done == |work|)
      ensures complete <==> a.AllAccepted(|work|)
      ensures claims == Claimed(old(claims), work, a, done, ttl)
      ensures CreatedExactly(old(claims), work, a, done, ttl, created)
      ensures ClaimedSoFar(old(claims), claims, work[..done], a.started, a.finished, ttl)
    {
      created, done, complete := [], 0, true;
      while done < |work| && complete
        invariant done <= |work| && Progress(old(claims), claims, work, a, done, created, ttl)
        invariant complete ==> a.AllAccepted(done)
        invariant !complete ==> !a.AllAccepted(|work|) && a.StopsAfter(done, |work|)
        decreases |work| - done, complete
      {
        if !a.Call(done).Accepted? {
          complete := false;
        } else {
          var key, at := work[done], a.Call(done).at;
          var reported := if LiveAt(claims, key, at) then created else created + [key];
          var renewed := claims[key := at + ttl];
          ProgressNext(old(claims), claims, work, a, done, created, ttl, renewed, reported);
          created, claims := reported, renewed;
          complete := !a.Call(done).cancelled;
          done := done + 1;
        }
      }
      ProgressDone(old(claims), claims, work, a, done, created, ttl);
    }

    /** Fingerprints first, then scopes: what a registration of this catalog claims. */
    function Work(): (work: seq<Key>)
      reads this`catalog
      requires PlannedFingerprints(catalog, credentials).Ok?
      ensures |catalog| <= |work| && forall i :: 0 <= i < |work| ==> (work[i].Fingerprint? <==> i < |catalog|)
    {
      ScopesAreScopes(catalog);
      assert forall j :: 0 <= j < |ScopesOf(catalog)| ==> ScopesOf(catalog)[j] in ScopesOf(catalog);
      PlannedFingerprints(catalog, credentials).value + ScopesOf(catalog)
    }

    /** The attempt gets as far as claiming: credentials resolve and do not contradict each other. */
    ghost predicate ReachesStore(a: Attempt)
      reads this`catalog
    {
      a.resolved && PlannedFingerprints(catalog, credentials).Ok?
    }

    /** Claims all the work, or undoes: all of it when nothing valid was registered before, otherwise what was created. */
    method ClaimOrUndo(priorCurrent: bool, work: seq<Key>, a: Attempt) returns (complete: bool, ghost done: nat)
      requires ttl > 0.0 && a.Ordered() && clock <= a.started
      requires forall k :: k in claims ==> claims[k] <= clock + ttl
      modifies this`claims
      ensures forall k :: k in claims ==> claims[k] <= a.finished + ttl
      ensures complete <==> a.AllAccepted(|work|)
      ensures complete ==> forall k :: k in work ==> k in claims && claims[k] >= a.started + ttl
      ensures a.StopsAfter(done, |work|) && Ends(old(claims), claims, priorCurrent, work, a, done, ttl)
    {
      var created, n;
      complete, created, n := ClaimAll(work, a);
      done := n;
      if complete {
        assert work[..n] == work;
      } else {
        FirstClaimOfAbsent(old(claims), work, a, n, ttl);
        RollbackRegistration(if priorCurrent then created else work);
      }
    }

    /** Resolves credentials, plans, claims and returns the deadline; a failure undoes what was claimed. */
    method RegisterMetadata(priorCurrent: bool, a: Attempt) returns (r: Result<real, RegistrationError>, ghost done: nat)
      requires ttl > 0.0 && a.Ordered() && clock <= a.started
      requires forall k :: k in claims ==> claims[k] <= clock + ttl
      modifies this`claims, this`clock
      ensures clock <= a.finished && forall k :: k in claims ==> claims[k] <= clock + ttl
      ensures r.Ok? <==> ReachesStore(a) && a.AllAccepted(|Work()|)
      ensures r.Ok? ==>
        && r.value == RegistrationDeadline(a.started, ttl)
        && forall k :: Required(catalog, credentials, k) ==> LiveAt(claims, k, r.value)
      ensures r.Err? && !a.resolved ==> r.error == ResolutionFailed
      ensures r.Err? && a.resolved && !ReachesStore(a) ==> r.error in {IncompleteMetadata, ScopeConflict}
      ensures r.Err? && ReachesStore(a) ==> r.error == ClaimFailed
      ensures r.Err? && !ReachesStore(a) ==> claims == old(claims)
      ensures r.Err? && ReachesStore(a) && !priorCurrent ==> claims == old(claims) - (set k | k in Work())
      ensures ReachesStore(a) ==> a.StopsAfter(done, |Work()|) && Ends(old(claims), claims, priorCurrent, Work(), a, done, ttl)
      ensures r.Err? && ReachesStore(a) && priorCurrent ==> Refreshed(old(claims), claims, Work(), a, done, ttl)
    {
      done := 0;
      clock := a.started;
      if !a.resolved {
        return Err(ResolutionFailed), done;
      }
      var fingerprints := PlannedFingerprints(catalog, credentials);
      if fingerprints.Err? {
        return Err(fingerprints.error), done;
      }
      var work := fingerprints.value + ScopesOf(catalog);
      var complete;
      complete, done := ClaimOrUndo(priorCurrent, work, a);
      clock := a.finished;
      if complete {
        forall k | Required(catalog, credentials, k) {
          PlanCovers(catalog, credentials, k);
        }
        r := Ok(RegistrationDeadline(a.started, ttl));
      } else {
        r := Err(ClaimFailed);
      }
    }

    /** An attempt under the lock, with a registration that is current by then or not. */
    method RegisterUnderLock(priorCurrent: bool, a: Attempt) returns (r: Result<(), RegistrationError>, ghost done: nat)
      requires Valid() && a.Ordered() && clock <= a.lockedAt && catalog != []
      requires priorCurrent == (initialized && a.lockedAt < validUntil)
      modifies this
      ensures Valid() && !refreshInProgress && catalog == old(catalog)
      ensures r.Ok? <==> ReachesStore(a) && a.AllAccepted(|Work()|)
      ensures r.Ok? ==>
        && initialized && frozen
        && validUntil == RegistrationDeadline(a.started, ttl) && nextRefresh == a.finished + refreshInterval
      ensures r.Err? ==> !initialized && frozen == old(frozen) && validUntil == if priorCurrent then old(validUntil) else 0.0
      ensures ReachesStore(a) ==> a.StopsAfter(done, |Work()|) && Ends(old(claims), claims, priorCurrent, Work(), a, done, ttl)
      ensures !ReachesStore(a) ==> claims == old(claims)
      ensures r.Err? ==> (r.error == ResolutionFailed <==> !a.resolved) && (r.error == ClaimFailed <==> ReachesStore(a)) && r.error != EmptyCatalog
    {
      refreshInProgress := true;
      var registered;
      registered, done := RegisterMetadata(priorCurrent, a);
      if registered.Err? {
        initialized := false;
        if !priorCurrent {
          validUntil := 0.0;
        }
        r := Err(registered.error);
      } else {
        initialized, frozen := true, true;
        validUntil := registered.value;
        nextRefresh := a.finished + refreshInterval;
        r := Ok(());
      }
      refreshInProgress := false;
    }

    /**
     * Registers unless a registration is current and no refresh is due. Success means holding every required claim,
     * and that a call which was forced, or found nothing current or a refresh due, has made it anew.
     */
    method EnsureRegistration(force: bool, now: real, a: Attempt) returns (r: Result<(), RegistrationError>, ghost done: nat)
      requires Valid() && a.Ordered() && clock <= now <= a.lockedAt
      requires !refreshInProgress
      modifies this
      ensures Valid() && !refreshInProgress && catalog == old(catalog)
      ensures r.Ok? <==>
        && catalog != []
        && ((!force && old(initialized) && now < old(nextRefresh) && now < old(validUntil))
            || (ReachesStore(a) && a.AllAccepted(|Work()|)))
      ensures r.Err? ==> (r.error == EmptyCatalog <==> catalog == [])
      ensures r.Err? && catalog != [] ==> (r.error == ResolutionFailed <==> !a.resolved) && (r.error == ClaimFailed <==> ReachesStore(a))
      ensures r.Ok? ==> initialized && forall k :: Required(catalog, credentials, k) ==> LiveAt(claims, k, now)
      ensures r.Ok? && ttl > 0.001 ==> now < validUntil
      ensures r.Ok? && (force || !old(initialized) || old(nextRefresh) <= now || old(validUntil) <= now) ==>
        && validUntil == RegistrationDeadline(a.started, ttl) && nextRefresh == a.finished + refreshInterval && frozen
        && ReachesStore(a) && claims == Claimed(old(claims), Work(), a, |Work()|, ttl)
      ensures r.Ok? && !force && old(initialized) && now < old(nextRefresh) && now < old(validUntil) ==>
        claims == old(claims) && validUntil == old(validUntil) && nextRefresh == old(nextRefresh) && frozen == old(frozen)
      ensures r.Err? && catalog != [] ==>
        && !initialized && frozen == old(frozen)
        && validUntil == if old(initialized) && a.lockedAt < old(validUntil) then old(validUntil) else 0.0
      ensures r.Err? && old(claims) == map[] ==> claims == map[]
      ensures r.Err? && !(old(initialized) && a.lockedAt < old(validUntil)) ==>
        claims == old(claims) - (if catalog != [] && ReachesStore(a) then set k | k in Work() else {})
      ensures r.Err? && catalog != [] && ReachesStore(a) && old(initialized) && a.lockedAt < old(validUntil) ==>
        a.StopsAfter(done, |Work()|) && Refreshed(old(claims), claims, Work(), a, done, ttl)
      ensures r.Err? && (catalog == [] || !ReachesStore(a)) ==> claims == old(claims)
    {
      done := 0;
      if catalog == [] {
        return Err(EmptyCatalog), done;
      }
      if !force && initialized && now < nextRefresh && now < validUntil {
        return Ok(()), done;
      }
      if !force && initialized && a.lockedAt < nextRefresh && a.lockedAt < validUntil {
        return Ok(()), done;
      }
      r, done := RegisterUnderLock(initialized && a.lockedAt < validUntil, a);
    }

    /** The catalog may grow until its first registration succeeds. */
    method Extend(e: Entry) returns (accepted: bool)
      requires Valid()
      modifies this`catalog
      ensures Valid()
      ensures accepted <==> !frozen || e in old(catalog)
      ensures catalog == if accepted && e !in old(catalog) then old(catalog) + [e] else old(catalog)
    {
      accepted := !frozen || e in catalog;
      if accepted && e !in catalog {
        catalog := catalog + [e];
      }
    }
  }

  /** A key the owner did not hold was created by the first claim that reached it. */
  lemma {:induction false} FirstClaimOfAbsent(before: Claims, work: seq<Key>, a: Attempt, n: nat, ttl: real)
    requires n <= |work| && a.Effective(n)
    ensures forall k :: k in Claimed(before, work, a, n, ttl) && k !in before ==> CreatedBy(before, work, a, n, ttl, k)
  {
    if n > 0 {
      FirstClaimOfAbsent(before, work, a, n - 1, ttl);
      forall k | k in Claimed(before, work, a, n, ttl) && k !in before ensures CreatedBy(before, work, a, n, ttl, k) {
        if k in Claimed(before, work, a, n - 1, ttl) {
          var i :| 0 <= i < n - 1 && work[i] == k && MetDead(before, work, a, i, ttl);
        } else {
          assert MetDead(before, work, a, n - 1, ttl);
        }
      }
    }
  }

  /** Taking back what an attempt created leaves of the entries held before those that it did not create. */
  lemma TakenBackIsRefreshed(before: Claims, claims: Claims, work: seq<Key>, a: Attempt, n: nat, created: seq<Key>, ttl: real)
    requires n <= |work| && Progress(before, claims, work, a, n, created, ttl)
    ensures Refreshed(before, claims - SetOf(created), work, a, n, ttl)
  {
    FirstClaimOfAbsent(before, work, a, n, ttl);
  }

  /** Taking back all the work leaves what was held before of everything else. */
  lemma TakenBackIsUntouched(before: Claims, claims: Claims, work: seq<Key>, a: Attempt, n: nat, created: seq<Key>, ttl: real)
    requires n <= |work| && Progress(before, claims, work, a, n, created, ttl)
    ensures claims - SetOf(work) == before - SetOf(work)
  {
  }

  lemma CallsInOrder(a: Attempt, n: nat)
    requires a.Ordered() && a.Effective(n) && a.Call(n).Accepted?
    ensures a.Reading(n) <= a.Call(n).at <= a.finished && a.started <= a.Call(n).at
  {
  }
}

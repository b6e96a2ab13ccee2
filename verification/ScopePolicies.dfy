/** Deployments and the per-scope limits that the capacity pool folds out of its catalog. */
module ScopePolicies {
  import opened Prelude

  // ---------------------------------------------------------------- deployments

  datatype DeploymentFields = Deployment(
    id: string,
    quotaScopeId: string,
    maxConcurrency: int,
    targetUtilization: real,
    reservedSlots: int,
    rpm: Option<int>,
    tpm: Option<int>,
    weight: int)

  predicate WellFormed(d: DeploymentFields) {
    && 1 <= d.maxConcurrency <= 1000
    && 0.5 <= d.targetUtilization <= 0.9
    && 0 <= d.reservedSlots < d.maxConcurrency
    && (d.rpm.Some? ==> d.rpm.value > 0)
    && (d.tpm.Some? ==> d.tpm.value > 0)
    && d.weight > 0
  }

  /** A deployment that passed the checks of its own constructor. */
  type Deployment = d: DeploymentFields | WellFormed(d)
    witness Deployment("a", "default-account", 1, 0.8, 0, None, None, 100)

  // ---------------------------------------------------------------- scope policies

  datatype LimitError = BadMaxConcurrency | BadUtilization | BadReservedSlots

  function SafeOperationalLimit(maxConcurrency: int, utilization: real, reserved: int): (r: Result<int, LimitError>)
    ensures r.Ok? <==> maxConcurrency > 0 && 0.0 < utilization <= 1.0 && 0 <= reserved < maxConcurrency
    ensures r == Err(BadMaxConcurrency) <==> maxConcurrency <= 0
    ensures r == Err(BadReservedSlots) <==> maxConcurrency > 0 && 0.0 < utilization <= 1.0 && !(0 <= reserved < maxConcurrency)
    ensures r.Ok? ==>
      var usable := (maxConcurrency as real * utilization).Floor;
      && 1 <= r.value <= maxConcurrency - reserved
      && (r.value <= usable || usable == 0)
      && (r.value == maxConcurrency - reserved || r.value >= usable)
  {
    if maxConcurrency <= 0 then Err(BadMaxConcurrency)
    else if !(0.0 < utilization <= 1.0) then Err(BadUtilization)
    else if reserved < 0 || reserved >= maxConcurrency then Err(BadReservedSlots)
    else
      assert maxConcurrency as real * utilization >= 0.0;
      Ok(Max(1, Min((maxConcurrency as real * utilization).Floor, maxConcurrency - reserved)))
  }

  datatype ScopePolicy = ScopePolicy(baseLimit: int, rpm: Option<int>, tpm: Option<int>)

  function MostRestrictiveOptional(first: Option<int>, second: Option<int>): Option<int> {
    match (first, second)
    case (None, _) => second
    case (_, None) => first
    case (Some(a), Some(b)) => Some(Min(a, b))
  }

  function BaseLimit(d: Deployment): (limit: int)
    ensures 1 <= limit
  {
    SafeOperationalLimit(d.maxConcurrency, d.targetUtilization, d.reservedSlots).value
  }

  /** The three things a scope policy limits. */
  datatype Limit = Base | Rpm | Tpm

  function LimitOf(d: Deployment, limit: Limit): Option<int> {
    match limit
    case Base => Some(BaseLimit(d))
    case Rpm => d.rpm
    case Tpm => d.tpm
  }

  function PolicyLimit(p: ScopePolicy, limit: Limit): Option<int> {
    match limit
    case Base => Some(p.baseLimit)
    case Rpm => p.rpm
    case Tpm => p.tpm
  }

  type Catalog = map<string, Deployment>

  ghost predicate InScope(catalog: Catalog, id: string, scope: string) {
    id in catalog && catalog[id].quotaScopeId == scope
  }

  /** The least limit among the scope's deployments that state one; none if none does. */
  ghost predicate IsLeast(catalog: Catalog, scope: string, limit: Limit, least: Option<int>) {
    match least
    case None => forall id :: InScope(catalog, id, scope) ==> LimitOf(catalog[id], limit) == None
    case Some(v) =>
      && (forall id :: InScope(catalog, id, scope) && LimitOf(catalog[id], limit).Some? ==>
            v <= LimitOf(catalog[id], limit).value)
      && (exists id :: InScope(catalog, id, scope) && LimitOf(catalog[id], limit) == Some(v))
  }

  /** `policy` is the most restrictive combination of everything catalogued in `scope`. */
  ghost predicate IsMeet(catalog: Catalog, scope: string, policy: ScopePolicy) {
    forall limit :: IsLeast(catalog, scope, limit, PolicyLimit(policy, limit))
  }

  ghost predicate Coherent(catalog: Catalog, policies: map<string, ScopePolicy>) {
    && (forall id :: id in catalog ==> catalog[id].id == id && catalog[id].quotaScopeId in policies)
    && (forall scope :: scope in policies ==> IsMeet(catalog, scope, policies[scope]))
  }

  datatype CatalogError = Conflict | Frozen

  /** What validating `ds` in order leaves in the catalog, and the first error met. */
  function Validated(catalog: Catalog, frozen: bool, ds: seq<Deployment>): (Catalog, Option<CatalogError>)
    decreases |ds|
  {
    if ds == [] then (catalog, None)
    else if ds[0].id in catalog && catalog[ds[0].id] != ds[0] then (catalog, Some(Conflict))
    else if frozen && ds[0].id !in catalog then (catalog, Some(Frozen))
    else Validated(catalog[ds[0].id := ds[0]], frozen, ds[1..])
  }

  /** The batch agrees with the catalog and with itself and, once the catalog is frozen, brings nothing new. */
  ghost predicate Agrees(catalog: Catalog, frozen: bool, ds: seq<Deployment>) {
    && (forall d :: d in ds && d.id in catalog ==> catalog[d.id] == d)
    && (forall d, e :: d in ds && e in ds && d.id == e.id ==> d == e)
    && (frozen ==> forall d :: d in ds ==> d.id in catalog)
  }

  lemma AgreesNext(catalog: Catalog, frozen: bool, ds: seq<Deployment>)
    requires ds != []
    ensures Agrees(catalog, frozen, ds) <==>
      && (ds[0].id in catalog ==> catalog[ds[0].id] == ds[0]) && (frozen ==> ds[0].id in catalog)
      && Agrees(catalog[ds[0].id := ds[0]], frozen, ds[1..])
  {
    assert forall e :: e in ds <==> e == ds[0] || e in ds[1..];
  }

  /** `after` is the catalog with the batch added and nothing else. */
  ghost predicate Adds(catalog: Catalog, ds: seq<Deployment>, after: Catalog) {
    && (forall id :: id in after <==> id in catalog || exists d :: d in ds && d.id == id)
    && (forall id :: id in catalog ==> id in after && after[id] == catalog[id])
    && (forall d :: d in ds ==> d.id in after && after[d.id] == d)
  }

  lemma AddsNext(catalog: Catalog, ds: seq<Deployment>, after: Catalog)
    requires ds != [] && (ds[0].id in catalog ==> catalog[ds[0].id] == ds[0])
    requires Adds(catalog[ds[0].id := ds[0]], ds[1..], after)
    ensures Adds(catalog, ds, after)
  {
    assert forall e :: e in ds <==> e == ds[0] || e in ds[1..];
  }

  /** A validation succeeds exactly when the batch agrees; it then adds the batch and nothing else. */
  lemma {:induction false} ValidationSucceeds(catalog: Catalog, frozen: bool, ds: seq<Deployment>)
    ensures Validated(catalog, frozen, ds).1 == None <==> Agrees(catalog, frozen, ds)
    ensures Validated(catalog, frozen, ds).1 == None ==> Adds(catalog, ds, Validated(catalog, frozen, ds).0)
    decreases |ds|
  {
    if ds != [] {
      var d := ds[0];
      AgreesNext(catalog, frozen, ds);
      if (d.id in catalog ==> catalog[d.id] == d) && (frozen ==> d.id in catalog) {
        ValidationSucceeds(catalog[d.id := d], frozen, ds[1..]);
        if Validated(catalog, frozen, ds).1 == None {
          AddsNext(catalog, ds, Validated(catalog, frozen, ds).0);
        }
      }
    }
  }

  /** The batch up to `i` is accepted and the next deployment is not. */
  ghost predicate StopsAt(catalog: Catalog, frozen: bool, ds: seq<Deployment>, i: nat, after: Catalog)
    requires i < |ds|
  {
    && Agrees(catalog, frozen, ds[..i]) && Adds(catalog, ds[..i], after)
    && (ds[i].id in after ==> after[ds[i].id] != ds[i]) && (ds[i].id !in after ==> frozen)
  }

  /** A validation that fails has taken in everything before the first offender: one known otherwise, or one new when frozen. */
  lemma {:induction false} ValidationStopsAt(catalog: Catalog, frozen: bool, ds: seq<Deployment>) returns (i: nat)
    requires Validated(catalog, frozen, ds).1.Some?
    ensures i < |ds| && StopsAt(catalog, frozen, ds, i, Validated(catalog, frozen, ds).0)
    ensures Validated(catalog, frozen, ds).1 == Some(Conflict) <==> ds[i].id in Validated(catalog, frozen, ds).0
    decreases |ds|
  {
    var d := ds[0];
    if (d.id in catalog && catalog[d.id] != d) || (frozen && d.id !in catalog) {
      i := 0;
      assert ds[..0] == [];
    } else {
      var j := ValidationStopsAt(catalog[d.id := d], frozen, ds[1..]);
      i := j + 1;
      var before := ds[..i];
      assert before[1..] == ds[1..][..j];
      AgreesNext(catalog, frozen, before);
      AddsNext(catalog, before, Validated(catalog, frozen, ds).0);
    }
  }

  lemma LeastUnique(catalog: Catalog, scope: string, limit: Limit, a: Option<int>, b: Option<int>)
    requires IsLeast(catalog, scope, limit, a) && IsLeast(catalog, scope, limit, b)
    ensures a == b
  {
  }

  lemma MeetUnique(catalog: Catalog, scope: string, p: ScopePolicy, q: ScopePolicy)
    requires IsMeet(catalog, scope, p) && IsMeet(catalog, scope, q)
    ensures p == q
  {
    LeastUnique(catalog, scope, Base, PolicyLimit(p, Base), PolicyLimit(q, Base));
    LeastUnique(catalog, scope, Rpm, PolicyLimit(p, Rpm), PolicyLimit(q, Rpm));
    LeastUnique(catalog, scope, Tpm, PolicyLimit(p, Tpm), PolicyLimit(q, Tpm));
  }

  lemma PolicyHasMember(catalog: Catalog, scope: string, p: ScopePolicy) returns (id: string)
    requires IsMeet(catalog, scope, p)
    ensures InScope(catalog, id, scope)
  {
    assert IsLeast(catalog, scope, Base, PolicyLimit(p, Base));
    id :| InScope(catalog, id, scope) && LimitOf(catalog[id], Base) == Some(p.baseLimit);
  }

  /** Coherent policies are a function of the catalog alone. */
  lemma PoliciesUnique(catalog: Catalog, p: map<string, ScopePolicy>, q: map<string, ScopePolicy>)
    requires Coherent(catalog, p) && Coherent(catalog, q)
    ensures p == q
  {
    forall scope
      ensures scope in p <==> scope in q
      ensures scope in p && scope in q ==> p[scope] == q[scope]
    {
      if scope in p {
        var id := PolicyHasMember(catalog, scope, p[scope]);
      }
      if scope in q {
        var id := PolicyHasMember(catalog, scope, q[scope]);
      }
      if scope in p && scope in q {
        MeetUnique(catalog, scope, p[scope], q[scope]);
      }
    }
  }

  /**
   * Order and repetition do not matter: two batches naming the same deployments, one accepted
   * by an empty pool, are both accepted and leave the same catalog, hence the same policies.
   */
  lemma PoliciesIgnoreOrder(first: seq<Deployment>, second: seq<Deployment>,
                            p: map<string, ScopePolicy>, q: map<string, ScopePolicy>)
    requires forall d :: d in first <==> d in second
    requires Validated(map[], false, first).1 == None
    requires Coherent(Validated(map[], false, first).0, p)
    requires Coherent(Validated(map[], false, second).0, q)
    ensures Validated(map[], false, second).1 == None
    ensures p == q
  {
    SameCatalog(first, second);
    PoliciesUnique(Validated(map[], false, first).0, p, q);
  }

  lemma SameCatalog(first: seq<Deployment>, second: seq<Deployment>)
    requires forall d :: d in first <==> d in second
    requires Validated(map[], false, first).1 == None
    ensures Validated(map[], false, second) == Validated(map[], false, first)
  {
    ValidationSucceeds(map[], false, first);
    ValidationSucceeds(map[], false, second);
    var a, b := Validated(map[], false, first).0, Validated(map[], false, second).0;
    CarriesOver(first, second);
    CarriesOver(second, first);
    SameMap(a, b);
  }

  lemma SameMap(a: Catalog, b: Catalog)
    requires forall id :: id in a ==> id in b && b[id] == a[id]
    requires forall id :: id in b ==> id in a
    ensures a == b
  {
  }

  /** What one accepted batch catalogues, any accepted batch that names as much catalogues too. */
  lemma CarriesOver(ds: seq<Deployment>, others: seq<Deployment>)
    requires Validated(map[], false, ds).1 == None && Validated(map[], false, others).1 == None
    requires forall d :: d in ds ==> d in others
    ensures var a, b := Validated(map[], false, ds).0, Validated(map[], false, others).0;
      forall id :: id in a ==> id in b && b[id] == a[id]
  {
    ValidationSucceeds(map[], false, ds);
    ValidationSucceeds(map[], false, others);
    var a, b := Validated(map[], false, ds).0, Validated(map[], false, others).0;
    forall id | id in a ensures id in b && b[id] == a[id] {
      var d :| d in ds && d.id == id;
      assert d in others;
    }
  }

  /** A scope's policy after one more deployment of that scope. */
  function Tightened(policies: map<string, ScopePolicy>, d: Deployment): ScopePolicy {
    if d.quotaScopeId in policies then
      var known := policies[d.quotaScopeId];
      ScopePolicy(Min(known.baseLimit, BaseLimit(d)),
                  MostRestrictiveOptional(known.rpm, d.rpm),
                  MostRestrictiveOptional(known.tpm, d.tpm))
    else ScopePolicy(BaseLimit(d), d.rpm, d.tpm)
  }

  lemma AdmitLimit(catalog: Catalog, d: Deployment, limit: Limit, least: Option<int>)
    requires IsLeast(catalog, d.quotaScopeId, limit, least)
    requires d.id in catalog ==> catalog[d.id] == d
    ensures IsLeast(catalog[d.id := d], d.quotaScopeId, limit, MostRestrictiveOptional(least, LimitOf(d, limit)))
  {
    var after := catalog[d.id := d];
    assert InScope(after, d.id, d.quotaScopeId);
    forall id
      ensures InScope(after, id, d.quotaScopeId) <==> InScope(catalog, id, d.quotaScopeId) || id == d.id
      ensures InScope(catalog, id, d.quotaScopeId) ==> after[id] == catalog[id] {}
  }

  lemma AdmitToScope(catalog: Catalog, policies: map<string, ScopePolicy>, d: Deployment)
    requires Coherent(catalog, policies)
    requires d.id in catalog ==> catalog[d.id] == d
    ensures IsMeet(catalog[d.id := d], d.quotaScopeId, Tightened(policies, d))
  {
    forall limit
      ensures IsLeast(catalog[d.id := d], d.quotaScopeId, limit, PolicyLimit(Tightened(policies, d), limit))
    {
      if d.quotaScopeId in policies {
        AdmitLimit(catalog, d, limit, PolicyLimit(policies[d.quotaScopeId], limit));
      } else {
        assert IsLeast(catalog, d.quotaScopeId, limit, None);
        AdmitLimit(catalog, d, limit, None);
      }
    }
  }

  lemma AdmitElsewhere(catalog: Catalog, d: Deployment, scope: string, policy: ScopePolicy)
    requires IsMeet(catalog, scope, policy) && scope != d.quotaScopeId
    requires d.id in catalog ==> catalog[d.id] == d
    ensures IsMeet(catalog[d.id := d], scope, policy)
  {
    var after := catalog[d.id := d];
    forall limit
      ensures IsLeast(after, scope, limit, PolicyLimit(policy, limit))
    {
      assert IsLeast(catalog, scope, limit, PolicyLimit(policy, limit));
      forall id
        ensures InScope(after, id, scope) <==> InScope(catalog, id, scope)
        ensures InScope(catalog, id, scope) ==> after[id] == catalog[id] {}
    }
  }

  /** Adding one admissible deployment and tightening its scope keeps the policies exact. */
  lemma AdmitKeepsCoherent(catalog: Catalog, policies: map<string, ScopePolicy>, d: Deployment)
    requires Coherent(catalog, policies)
    requires d.id in catalog ==> catalog[d.id] == d
    ensures Coherent(catalog[d.id := d], policies[d.quotaScopeId := Tightened(policies, d)])
  {
    AdmitToScope(catalog, policies, d);
    forall scope | scope in policies && scope != d.quotaScopeId
      ensures IsMeet(catalog[d.id := d], scope, policies[scope])
    {
      AdmitElsewhere(catalog, d, scope, policies[scope]);
    }
  }
}

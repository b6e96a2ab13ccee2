/** The in-process half of the model capacity pool. */
module ModelCapacity {
  import opened Prelude
  import opened Ordering
  import opened Grouping
  import opened ScopePolicies
  import opened WeightedRoundRobin

  predicate CreditOrder(a: (int, string), b: (int, string)) {
    a.0 < b.0 || (a.0 == b.0 && StrLeq(a.1, b.1))
  }

  lemma CreditOrderTransitive(a: (int, string), b: (int, string), c: (int, string))
    requires CreditOrder(a, b) && CreditOrder(b, c)
    ensures CreditOrder(a, c)
  {
    if StrLess(a.1, b.1) && StrLess(b.1, c.1) {
      StrTransitive(a.1, b.1, c.1);
    }
  }

  predicate IdOrder(a: Deployment, b: Deployment) {
    StrLeq(a.id, b.id)
  }

  class CapacityPool {
    var catalogById: Catalog
    var catalogFrozen: bool
    var scopePolicies: map<string, ScopePolicy>
    var weights: Credits
    var observedLoads: map<string, int>

    ghost predicate Valid()
      reads this
    {
      Coherent(catalogById, scopePolicies)
    }

    constructor ()
      ensures Valid() && catalogById == map[] && weights == map[] && !catalogFrozen
    {
      catalogById, catalogFrozen, scopePolicies := map[], false, map[];
      weights, observedLoads := map[], map[];
    }

    /** Folds deployments into the catalog and the scope policies; stops at the first conflict. */
    method ValidateConfiguration(deployments: seq<Deployment>) returns (error: Option<CatalogError>)
      requires Valid()
      modifies this`catalogById, this`scopePolicies
      ensures Valid()
      ensures (catalogById, error) == Validated(old(catalogById), catalogFrozen, deployments)
    {
      error := None;
      var i := 0;
      while i < |deployments|
        invariant 0 <= i <= |deployments|
        invariant Valid()
        invariant Validated(old(catalogById), catalogFrozen, deployments)
               == Validated(catalogById, catalogFrozen, deployments[i..])
      {
        var d := deployments[i];
        assert deployments[i..][0] == d && deployments[i..][1..] == deployments[i + 1..];
        if d.id in catalogById && catalogById[d.id] != d {
          error := Some(Conflict);
          return;
        }
        if catalogFrozen && d.id !in catalogById {
          error := Some(Frozen);
          return;
        }
        var policy := Tightened(scopePolicies, d);
        AdmitKeepsCoherent(catalogById, scopePolicies, d);
        catalogById := catalogById[d.id := d];
        scopePolicies := scopePolicies[d.quotaScopeId := policy];
        i := i + 1;
      }
      assert deployments[i..] == [];
    }

    /** Adds every deployment's weight to its credit and returns the weights' total. */
    method AddWeights(ordered: seq<Deployment>) returns (total: int)
      modifies this`weights
      ensures total == Total(ordered)
      ensures forall id :: Credit(weights, id) == Bumped(old(weights), ordered, id)
      ensures forall d :: d in ordered ==> d.id in weights
      ensures SumCredits(weights) == SumCredits(old(weights)) + total
    {
      total := 0;
      for i := 0 to |ordered|
        invariant total == Total(ordered[..i])
        invariant forall id :: Credit(weights, id) == Bumped(old(weights), ordered[..i], id)
        invariant forall d :: d in ordered[..i] ==> d.id in weights
        invariant SumCredits(weights) == SumCredits(old(weights)) + total
      {
        var d := ordered[i];
        assert ordered[..i + 1][..i] == ordered[..i];
        forall id ensures Share(ordered[..i + 1], Some(id)) == Share(ordered[..i], Some(id)) + (if id == d.id then d.weight else 0) {}
        total := total + d.weight;
        ghost var before := weights;
        SumUpdate(weights, d.id, Credit(weights, d.id) + d.weight);
        weights := weights[d.id := Credit(weights, d.id) + d.weight];
        forall id ensures Credit(weights, id) == Bumped(old(weights), ordered[..i + 1], id) {
          assert Credit(before, id) == Bumped(old(weights), ordered[..i], id);
        }
      }
      assert ordered[..|ordered|] == ordered;
    }

    /** First deployment of the list with the least (negated credit, id). */
    method MostCredited(ordered: seq<Deployment>) returns (selected: Deployment)
      requires |ordered| > 0
      ensures selected in ordered
      ensures forall d :: d in ordered ==>
        CreditOrder((-Credit(weights, selected.id), selected.id), (-Credit(weights, d.id), d.id))
    {
      selected := ordered[0];
      for i := 1 to |ordered|
        invariant selected in ordered
        invariant forall j :: 0 <= j < i ==>
          CreditOrder((-Credit(weights, selected.id), selected.id), (-Credit(weights, ordered[j].id), ordered[j].id))
      {
        var d := ordered[i];
        StrTrichotomy(selected.id, d.id);
        if CreditOrder((-Credit(weights, d.id), d.id), (-Credit(weights, selected.id), selected.id)) && d.id != selected.id {
          forall j | 0 <= j < i {
            CreditOrderTransitive((-Credit(weights, d.id), d.id), (-Credit(weights, selected.id), selected.id),
                                  (-Credit(weights, ordered[j].id), ordered[j].id));
          }
          selected := d;
        }
      }
    }

    /** Smooth weighted round-robin among one scope's deployments. */
    method WeightedChoice(deployments: seq<Deployment>) returns (selected: Deployment)
      requires |deployments| > 0
      modifies this`weights
      ensures Wins(old(weights), deployments, selected)
      ensures forall d :: d in deployments && d.id != selected.id ==>
        || Bumped(old(weights), deployments, d.id) < Bumped(old(weights), deployments, selected.id)
        || (Bumped(old(weights), deployments, d.id) == Bumped(old(weights), deployments, selected.id) && StrLess(selected.id, d.id))
      ensures forall id ::
        Credit(weights, id) == Bumped(old(weights), deployments, id) - (if id == selected.id then Total(deployments) else 0)
      ensures SumCredits(weights) == SumCredits(old(weights))
    {
      var ordered := Sort(deployments, IdOrder);
      SameMembers(deployments, ordered);
      forall id { SharePermutes(deployments, ordered, id); }
      var total := AddWeights(ordered);
      selected := MostCredited(ordered);
      ghost var bumped := weights;
      SumUpdate(weights, selected.id, Credit(weights, selected.id) - total);
      weights := weights[selected.id := weights[selected.id] - total];
      forall id
        ensures Credit(weights, id) == Bumped(old(weights), deployments, id) - (if id == selected.id then Total(deployments) else 0)
      {
        assert Credit(bumped, id) == Bumped(old(weights), ordered, id);
      }
    }

    /** One round-robin pick in every scope. */
    method ChooseRepresentatives(ghost candidates: seq<Deployment>, scopes: seq<string>, byScope: map<string, seq<Deployment>>)
      returns (representatives: seq<Deployment>)
      requires ConsistentIds(candidates) && Distinct(scopes)
      requires forall s :: s in scopes ==> s in byScope && byScope[s] == ScopeMembers(candidates, s) && byScope[s] != []
      modifies this`weights
      ensures |representatives| == |scopes|
      ensures Settling(candidates, scopes, |scopes|, old(weights), weights, representatives)
      ensures SumCredits(weights) == SumCredits(old(weights))
    {
      representatives := [];
      for i := 0 to |scopes|
        invariant |representatives| == i
        invariant Settling(candidates, scopes, i, old(weights), weights, representatives)
        invariant SumCredits(weights) == SumCredits(old(weights))
      {
        ghost var before := weights;
        assert scopes[i] in scopes;
        var selected := WeightedChoice(byScope[scopes[i]]);
        SettleNext(candidates, scopes, i, old(weights), before, weights, representatives, selected);
        representatives := representatives + [selected];
      }
    }

    /** One representative per quota scope, least loaded scope first. */
    method OrderedCandidates(candidates: seq<Deployment>) returns (chosen: seq<Deployment>)
      requires Valid()
      requires forall d :: d in candidates ==> d.id in catalogById && catalogById[d.id] == d
      modifies this`weights
      ensures IsOrdering(old(weights), candidates, weights, chosen)
      ensures forall i, j :: 0 <= i < j < |chosen| ==> LoadOrder(observedLoads, scopePolicies, chosen[i], chosen[j])
    {
      var scopes, byScope := GroupBy(candidates, ScopeKey);
      var representatives := ChooseRepresentatives(candidates, scopes, byScope);
      var loads, policies := observedLoads, scopePolicies;
      var leq := (a: Deployment, b: Deployment) => LoadOrder(loads, policies, a, b);
      LoadOrderTotal(loads, policies, leq);
      chosen := Sort(representatives, leq);
      SortSorted(representatives, leq);
      RepresentativesOrdered(old(weights), candidates, weights, scopes, representatives, chosen);
    }
  }
}

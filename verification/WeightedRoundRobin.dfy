/** Smooth weighted round-robin over stored credits: what one pick is, and what runs of picks add up to. */
module WeightedRoundRobin {
  import opened Prelude
  import opened Ordering
  import opened Grouping
  import opened ScopePolicies

  // ---------------------------------------------------------------- credits

  type Credits = map<string, int>

  function Credit(weights: Credits, id: string): int {
    if id in weights then weights[id] else 0
  }

  /** Weight carried by the entries of `ds` named `id`, or by all of them. */
  function Share(ds: seq<Deployment>, id: Option<string>): int {
    if ds == [] then 0
    else Share(ds[..|ds| - 1], id) + (if id == None || id == Some(ds[|ds| - 1].id) then ds[|ds| - 1].weight else 0)
  }

  function Total(ds: seq<Deployment>): int {
    Share(ds, None)
  }

  lemma {:induction false} ShareAt(ds: seq<Deployment>, k: nat, id: Option<string>)
    requires k < |ds|
    ensures Share(ds, id) == Share(ds[..k] + ds[k + 1..], id)
                             + (if id == None || id == Some(ds[k].id) then ds[k].weight else 0)
  {
    var n := |ds| - 1;
    if k == n {
      assert ds[..k] + ds[k + 1..] == ds[..n];
    } else {
      ShareAt(ds[..n], k, id);
      var rest := ds[..k] + ds[k + 1..];
      assert rest[..|rest| - 1] == ds[..n][..k] + ds[..n][k + 1..];
      assert rest[|rest| - 1] == ds[n];
    }
  }

  lemma ShareHead(ds: seq<Deployment>, id: Option<string>)
    requires ds != []
    ensures Share(ds, id) == Share(ds[1..], id) + (if id == None || id == Some(ds[0].id) then ds[0].weight else 0)
  {
    ShareAt(ds, 0, id);
    assert ds[..0] + ds[1..] == ds[1..];
  }

  lemma {:induction false} SharePermutes(a: seq<Deployment>, b: seq<Deployment>, id: Option<string>)
    requires multiset(a) == multiset(b)
    ensures Share(a, id) == Share(b, id)
    decreases |a|
  {
    SameMembers(a, b);
    if a != [] {
      assert a[0] in b;
      var k :| 0 <= k < |b| && b[k] == a[0];
      WithoutOne(a, b, k);
      SharePermutes(a[1..], b[..k] + b[k + 1..], id);
      ShareHead(a, id);
      ShareAt(b, k, id);
    }
  }

  ghost predicate DistinctIds(ds: seq<Deployment>) {
    forall i, j :: 0 <= i < j < |ds| ==> ds[i].id != ds[j].id
  }

  lemma {:induction false} ShareOfDistinct(ds: seq<Deployment>, k: nat)
    requires DistinctIds(ds) && k < |ds|
    ensures Share(ds, Some(ds[k].id)) == ds[k].weight
  {
    ShareAt(ds, k, Some(ds[k].id));
    ShareAbsent(ds[..k] + ds[k + 1..], ds[k].id);
  }

  lemma {:induction false} ShareAbsent(ds: seq<Deployment>, id: string)
    requires forall d :: d in ds ==> d.id != id
    ensures Share(ds, Some(id)) == 0
  {
    if ds != [] {
      ShareAbsent(ds[..|ds| - 1], id);
    }
  }

  /** The credit a pick compares: what is stored plus the weight of this round. */
  function Bumped(before: Credits, ds: seq<Deployment>, id: string): int {
    Credit(before, id) + Share(ds, Some(id))
  }

  /** Largest bumped credit wins; equal credits go to the smaller id. */
  ghost predicate Wins(before: Credits, ds: seq<Deployment>, selected: Deployment) {
    && selected in ds
    && forall d :: d in ds ==>
         || Bumped(before, ds, d.id) < Bumped(before, ds, selected.id)
         || (Bumped(before, ds, d.id) == Bumped(before, ds, selected.id) && StrLeq(selected.id, d.id))
  }

  /** One round over `ds`: everybody earns its weight, the winner pays for all of it. */
  ghost predicate IsPick(before: Credits, ds: seq<Deployment>, after: Credits, selected: Deployment) {
    && Wins(before, ds, selected)
    && forall d :: d in ds ==>
         Credit(after, d.id) == Bumped(before, ds, d.id) - (if d.id == selected.id then Total(ds) else 0)
  }

  // ---------------------------------------------------------------- exactness of a round-robin run

  /** `picks` were made one after another among the same deployments, `states` being the credits between them. */
  ghost predicate IsRun(ds: seq<Deployment>, states: seq<Credits>, picks: seq<Deployment>) {
    && |states| == |picks| + 1
    && forall i :: 0 <= i < |picks| ==> IsPick(states[i], ds, states[i + 1], picks[i])
  }

  function Count(picks: seq<Deployment>, id: string): nat {
    if picks == [] then 0
    else Count(picks[..|picks| - 1], id) + (if picks[|picks| - 1].id == id then 1 else 0)
  }

  function SumOver(ds: seq<Deployment>, weights: Credits): int {
    if ds == [] then 0 else SumOver(ds[..|ds| - 1], weights) + Credit(weights, ds[|ds| - 1].id)
  }

  function CountOver(ds: seq<Deployment>, picks: seq<Deployment>): int {
    if ds == [] then 0 else CountOver(ds[..|ds| - 1], picks) + Count(picks, ds[|ds| - 1].id)
  }

  /** A round moves credit around inside the group and creates none. */
  lemma {:induction false} PickKeepsSum(ds: seq<Deployment>, k: nat, before: Credits, after: Credits, selected: Deployment)
    requires DistinctIds(ds) && k <= |ds| && IsPick(before, ds, after, selected)
    ensures SumOver(ds[..k], after)
         == SumOver(ds[..k], before) + Total(ds[..k]) - (if selected in ds[..k] then Total(ds) else 0)
  {
    if k > 0 {
      PickKeepsSum(ds, k - 1, before, after, selected);
      ShareOfDistinct(ds, k - 1);
      assert ds[..k][..k - 1] == ds[..k - 1];
      assert selected in ds[..k] <==> selected in ds[..k - 1] || selected == ds[k - 1];
      var p :| 0 <= p < |ds| && ds[p] == selected;
      if p < k - 1 {
        assert ds[..k - 1][p] == selected;
      }
    }
  }

  /** If a group's credits sum to zero, somebody's bumped credit is positive. */
  lemma {:induction false} SomebodyAhead(ds: seq<Deployment>, k: nat, before: Credits, bound: int)
    requires DistinctIds(ds) && k <= |ds|
    requires forall d :: d in ds ==> Bumped(before, ds, d.id) <= bound
    requires bound <= 0
    ensures SumOver(ds[..k], before) + Total(ds[..k]) <= 0
  {
    if k > 0 {
      SomebodyAhead(ds, k - 1, before, bound);
      ShareOfDistinct(ds, k - 1);
      assert ds[..k][..k - 1] == ds[..k - 1];
      assert ds[k - 1] in ds;
    }
  }

  lemma {:induction false} TotalPositive(ds: seq<Deployment>)
    ensures Total(ds) >= |ds|
  {
    if ds != [] {
      TotalPositive(ds[..|ds| - 1]);
    }
  }

  lemma {:induction false} ZeroSum(ds: seq<Deployment>, weights: Credits)
    requires forall d :: d in ds ==> Credit(weights, d.id) == 0
    ensures SumOver(ds, weights) == 0
  {
    if ds != [] {
      ZeroSum(ds[..|ds| - 1], weights);
    }
  }

  /** After n picks from zero: credit is n*weight - count*total, and never as low as -total. */
  ghost predicate LedgerOf(ds: seq<Deployment>, credits: Credits, picks: seq<Deployment>, d: Deployment) {
    && Credit(credits, d.id) == |picks| * d.weight - Count(picks, d.id) * Total(ds)
    && Credit(credits, d.id) > -Total(ds)
  }

  ghost predicate Ledger(ds: seq<Deployment>, credits: Credits, picks: seq<Deployment>) {
    forall d :: d in ds ==> LedgerOf(ds, credits, picks, d)
  }

  /** The winner's bumped credit is positive, so paying the total leaves it above -total. */
  lemma WinnerAhead(ds: seq<Deployment>, before: Credits, selected: Deployment)
    requires DistinctIds(ds) && Wins(before, ds, selected) && SumOver(ds, before) == 0
    ensures Bumped(before, ds, selected.id) > 0
  {
    if Bumped(before, ds, selected.id) <= 0 {
      SomebodyAhead(ds, |ds|, before, Bumped(before, ds, selected.id));
      assert ds[..|ds|] == ds;
      TotalPositive(ds);
    }
  }

  lemma LedgerStep(ds: seq<Deployment>, before: Credits, after: Credits, picks: seq<Deployment>, selected: Deployment)
    requires DistinctIds(ds) && IsPick(before, ds, after, selected)
    requires SumOver(ds, before) == 0 && Ledger(ds, before, picks)
    ensures SumOver(ds, after) == 0 && Ledger(ds, after, picks + [selected])
  {
    PickKeepsSum(ds, |ds|, before, after, selected);
    assert ds[..|ds|] == ds;
    WinnerAhead(ds, before, selected);
    forall d | d in ds
      ensures LedgerOf(ds, after, picks + [selected], d)
    {
      assert LedgerOf(ds, before, picks, d);
      LedgerEntry(ds, before, after, picks, selected, d);
    }
  }

  lemma LedgerEntry(ds: seq<Deployment>, before: Credits, after: Credits, picks: seq<Deployment>, selected: Deployment, d: Deployment)
    requires DistinctIds(ds) && IsPick(before, ds, after, selected) && d in ds
    requires Bumped(before, ds, selected.id) > 0 && LedgerOf(ds, before, picks, d)
    ensures LedgerOf(ds, after, picks + [selected], d)
  {
    var k :| 0 <= k < |ds| && ds[k] == d;
    ShareOfDistinct(ds, k);
    assert (picks + [selected])[..|picks|] == picks;
    Distribute(|picks|, 1, d.weight);
    Distribute(Count(picks, d.id), 1, Total(ds));
  }

  lemma Distribute(a: int, b: int, c: int)
    ensures (a + b) * c == a * c + b * c
  {
  }

  lemma {:induction false} RunLedger(ds: seq<Deployment>, states: seq<Credits>, picks: seq<Deployment>)
    requires DistinctIds(ds) && IsRun(ds, states, picks)
    requires forall d :: d in ds ==> Credit(states[0], d.id) == 0
    ensures SumOver(ds, states[|picks|]) == 0
    ensures Ledger(ds, states[|picks|], picks)
    decreases |picks|
  {
    var n := |picks|;
    if n == 0 {
      ZeroSum(ds, states[0]);
      forall d | d in ds ensures Total(ds) > 0 { TotalPositive(ds); }
    } else {
      RunLedger(ds, states[..n], picks[..n - 1]);
      assert IsPick(states[n - 1], ds, states[n - 1 + 1], picks[n - 1]);
      LedgerStep(ds, states[n - 1], states[n], picks[..n - 1], picks[n - 1]);
      assert picks[..n - 1] + [picks[n - 1]] == picks;
    }
  }

  lemma RoundsNext(rounds: int, total: int, weight: int)
    ensures rounds * (total + weight) == rounds * total + rounds * weight
  {
  }

  ghost predicate Covered(ds: seq<Deployment>, picks: seq<Deployment>, rounds: int) {
    forall i :: 0 <= i < |ds| ==> Count(picks, ds[i].id) <= rounds * ds[i].weight
  }

  lemma {:induction false} CountsCover(ds: seq<Deployment>, picks: seq<Deployment>, rounds: int)
    requires Covered(ds, picks, rounds)
    ensures CountOver(ds, picks) <= rounds * Total(ds)
    ensures CountOver(ds, picks) == rounds * Total(ds) ==>
      forall i :: 0 <= i < |ds| ==> Count(picks, ds[i].id) == rounds * ds[i].weight
  {
    if ds != [] {
      var front, last := ds[..|ds| - 1], ds[|ds| - 1];
      CountsCover(front, picks, rounds);
      RoundsNext(rounds, Total(front), last.weight);
    }
  }

  lemma {:induction false} CountOverStep(ds: seq<Deployment>, k: nat, picks: seq<Deployment>, extra: Deployment)
    requires DistinctIds(ds) && k <= |ds|
    ensures CountOver(ds[..k], picks + [extra])
         == CountOver(ds[..k], picks) + (if exists i :: 0 <= i < k && ds[i].id == extra.id then 1 else 0)
  {
    assert (picks + [extra])[..|picks|] == picks;
    if k > 0 {
      CountOverStep(ds, k - 1, picks, extra);
      assert ds[..k][..k - 1] == ds[..k - 1];
    }
  }

  /** Every pick is of somebody in the group, so the counts add up to the number of picks. */
  lemma {:induction false} CountsAddUp(ds: seq<Deployment>, picks: seq<Deployment>)
    requires DistinctIds(ds) && forall p :: p in picks ==> p in ds
    ensures CountOver(ds, picks) == |picks|
    decreases |picks|
  {
    if picks == [] {
      NoCounts(ds);
    } else {
      var n := |picks| - 1;
      CountsAddUp(ds, picks[..n]);
      assert picks == picks[..n] + [picks[n]];
      CountOverStep(ds, |ds|, picks[..n], picks[n]);
      assert ds[..|ds|] == ds;
      assert picks[n] in ds;
    }
  }

  lemma {:induction false} NoCounts(ds: seq<Deployment>)
    ensures CountOver(ds, []) == 0
  {
    if ds != [] {
      NoCounts(ds[..|ds| - 1]);
    }
  }

  /**
   * Smooth weighted round-robin is exact: after any whole number of rounds of `Total(ds)` picks
   * every deployment was chosen in exact proportion to its weight and all credits are zero again.
   */
  lemma WholeRoundsAreExact(ds: seq<Deployment>, states: seq<Credits>, picks: seq<Deployment>, rounds: nat)
    requires DistinctIds(ds) && IsRun(ds, states, picks)
    requires forall d :: d in ds ==> Credit(states[0], d.id) == 0
    requires |picks| == rounds * Total(ds)
    ensures forall d :: d in ds ==>
      Count(picks, d.id) == rounds * d.weight && Credit(states[|picks|], d.id) == 0
  {
    RunLedger(ds, states, picks);
    forall d | d in ds
      ensures Count(picks, d.id) <= rounds * d.weight
    {
      assert LedgerOf(ds, states[|picks|], picks, d);
      TotalPositive(ds);
      NotOverpaid(rounds, Total(ds), d.weight, Count(picks, d.id));
    }
    RunPicksMembers(ds, states, picks);
    CountsAddUp(ds, picks);
    assert Covered(ds, picks, rounds) by {
      forall i | 0 <= i < |ds| ensures Count(picks, ds[i].id) <= rounds * ds[i].weight {
        assert ds[i] in ds;
      }
    }
    CountsCover(ds, picks, rounds);
    forall d | d in ds
      ensures Count(picks, d.id) == rounds * d.weight && Credit(states[|picks|], d.id) == 0
    {
      var i :| 0 <= i < |ds| && ds[i] == d;
      assert LedgerOf(ds, states[|picks|], picks, d);
      Settled(rounds, Total(ds), d.weight);
    }
  }

  lemma RunPicksMembers(ds: seq<Deployment>, states: seq<Credits>, picks: seq<Deployment>)
    requires IsRun(ds, states, picks)
    ensures forall p :: p in picks ==> p in ds
  {
    forall i | 0 <= i < |picks| ensures picks[i] in ds {
      assert IsPick(states[i], ds, states[i + 1], picks[i]);
    }
  }

  lemma NotOverpaid(rounds: int, total: int, weight: int, count: int)
    requires rounds * total * weight - count * total > -total && total > 0
    ensures count <= rounds * weight
  {
    var surplus := rounds * weight - count;
    Settled(rounds, total, weight);
    assert surplus * total == rounds * weight * total - count * total;
    NegativeProduct(surplus, total);
  }

  lemma NegativeProduct(a: int, b: int)
    requires b > 0
    ensures a <= -1 ==> a * b <= -b
  {
  }

  lemma Settled(rounds: int, total: int, weight: int)
    ensures rounds * total * weight == rounds * weight * total
  {
  }

  /** At every moment, not only at round ends, nobody is a whole pick ahead of its share. */
  lemma NeverAheadOfShare(ds: seq<Deployment>, states: seq<Credits>, picks: seq<Deployment>, d: Deployment)
    requires DistinctIds(ds) && IsRun(ds, states, picks) && d in ds
    requires forall e :: e in ds ==> Credit(states[0], e.id) == 0
    ensures (Count(picks, d.id) - 1) * Total(ds) < |picks| * d.weight
  {
    RunLedger(ds, states, picks);
    assert LedgerOf(ds, states[|picks|], picks, d);
    Distribute(Count(picks, d.id), -1, Total(ds));
  }

  // ---------------------------------------------------------------- conservation over every sequence of calls

  /** Sum of everything stored. */
  ghost function SumCredits(weights: Credits): int {
    if weights == map[] then 0
    else
      var id :| id in weights;
      weights[id] + SumCredits(weights - {id})
  }

  lemma {:induction false} SumWithout(weights: Credits, id: string)
    requires id in weights
    ensures SumCredits(weights) == weights[id] + SumCredits(weights - {id})
    decreases |weights|
  {
    var pick :| pick in weights && SumCredits(weights) == weights[pick] + SumCredits(weights - {pick});
    if pick != id {
      assert |weights - {pick}| < |weights| by { assert (weights - {pick}).Keys == weights.Keys - {pick}; }
      assert |weights - {id}| < |weights| by { assert (weights - {id}).Keys == weights.Keys - {id}; }
      SumWithout(weights - {pick}, id);
      SumWithout(weights - {id}, pick);
      assert weights - {pick} - {id} == weights - {id} - {pick};
    }
  }

  lemma SumUpdate(weights: Credits, id: string, value: int)
    ensures SumCredits(weights[id := value]) == SumCredits(weights) - Credit(weights, id) + value
  {
    var after := weights[id := value];
    SumWithout(after, id);
    assert after - {id} == weights - {id};
    if id in weights {
      SumWithout(weights, id);
    } else {
      assert weights - {id} == weights;
    }
  }

  // ---------------------------------------------------------------- candidate groups

  function ScopeKey(d: Deployment): string {
    d.quotaScopeId
  }

  /** The candidates of one quota scope, in the order given. */
  function ScopeMembers(ds: seq<Deployment>, scope: string): (r: seq<Deployment>)
    ensures forall d :: d in r <==> d in ds && d.quotaScopeId == scope
  {
    Members(ds, ScopeKey, scope)
  }

  /** What one call of `_ordered_candidates` does to all credits and which deployments it returns. */
  ghost predicate IsOrdering(before: Credits, candidates: seq<Deployment>, after: Credits, chosen: seq<Deployment>) {
    && (forall d :: d in candidates ==> exists r :: r in chosen && r.quotaScopeId == d.quotaScopeId)
    && (forall i, j :: 0 <= i < j < |chosen| ==> chosen[i].quotaScopeId != chosen[j].quotaScopeId)
    && (forall r :: r in chosen ==> IsPick(before, ScopeMembers(candidates, r.quotaScopeId), after, r))
    && OthersUntouched(candidates, before, after)
    && SumCredits(after) == SumCredits(before)
  }

  /** Nobody but the candidates gains or loses credit. */
  ghost predicate OthersUntouched(candidates: seq<Deployment>, before: Credits, after: Credits) {
    forall id :: Absent(candidates, id) ==> Credit(after, id) == Credit(before, id)
  }

  ghost predicate Absent(candidates: seq<Deployment>, id: string) {
    forall d :: d in candidates ==> d.id != id
  }

  lemma RoundLeavesOthers(candidates: seq<Deployment>, scope: string, now: Credits, after: Credits, selected: Deployment)
    requires selected in ScopeMembers(candidates, scope)
    requires forall id ::
      Credit(after, id) == Bumped(now, ScopeMembers(candidates, scope), id)
                           - (if id == selected.id then Total(ScopeMembers(candidates, scope)) else 0)
    ensures OthersUntouched(candidates, now, after)
  {
    forall id | Absent(candidates, id) ensures Credit(after, id) == Credit(now, id) {
      ShareAbsent(ScopeMembers(candidates, scope), id);
    }
  }

  /** Deployments with one id are one deployment, as a catalog guarantees. */
  ghost predicate ConsistentIds(ds: seq<Deployment>) {
    forall d, e :: d in ds && e in ds && d.id == e.id ==> d == e
  }

  /** A round in another scope does not touch this scope's credits. */
  lemma OtherScopeUntouched(ds: seq<Deployment>, mine: string, other: string, before: Credits, after: Credits, selected: Deployment)
    requires ConsistentIds(ds) && mine != other
    requires selected in ScopeMembers(ds, other)
    requires forall id ::
      Credit(after, id) == Bumped(before, ScopeMembers(ds, other), id)
                           - (if id == selected.id then Total(ScopeMembers(ds, other)) else 0)
    ensures forall d :: d in ScopeMembers(ds, mine) ==> Credit(after, d.id) == Credit(before, d.id)
  {
    forall d | d in ScopeMembers(ds, mine)
      ensures Credit(after, d.id) == Credit(before, d.id)
    {
      ShareAbsent(ScopeMembers(ds, other), d.id);
    }
  }

  /** A pick depends on the stored credits of its own group only. */
  lemma PickIsLocal(ds: seq<Deployment>, before: Credits, before': Credits, after: Credits, after': Credits, selected: Deployment)
    requires IsPick(before, ds, after, selected)
    requires forall d :: d in ds ==> Credit(before, d.id) == Credit(before', d.id)
    requires forall d :: d in ds ==> Credit(after, d.id) == Credit(after', d.id)
    ensures IsPick(before', ds, after', selected)
  {
    forall d | d in ds ensures Bumped(before, ds, d.id) == Bumped(before', ds, d.id) {}
  }

  /** The first `i` scopes have had their round since `before`, the others are as they were. */
  ghost predicate Settling(candidates: seq<Deployment>, scopes: seq<string>, i: nat, before: Credits, now: Credits, reps: seq<Deployment>)
    requires i <= |scopes| && |reps| == i
  {
    && (forall j :: 0 <= j < i ==> IsPick(before, ScopeMembers(candidates, scopes[j]), now, reps[j]))
    && (forall j, d :: i <= j < |scopes| && d in ScopeMembers(candidates, scopes[j]) ==> Credit(now, d.id) == Credit(before, d.id))
    && OthersUntouched(candidates, before, now)
  }

  lemma SettleNext(candidates: seq<Deployment>, scopes: seq<string>, i: nat, before: Credits, now: Credits, after: Credits,
                   reps: seq<Deployment>, selected: Deployment)
    requires ConsistentIds(candidates) && Distinct(scopes) && i < |scopes| && |reps| == i
    requires Settling(candidates, scopes, i, before, now, reps)
    requires Wins(now, ScopeMembers(candidates, scopes[i]), selected)
    requires forall id ::
      Credit(after, id) == Bumped(now, ScopeMembers(candidates, scopes[i]), id)
                           - (if id == selected.id then Total(ScopeMembers(candidates, scopes[i])) else 0)
    ensures Settling(candidates, scopes, i + 1, before, after, reps + [selected])
  {
    var members := ScopeMembers(candidates, scopes[i]);
    assert IsPick(now, members, after, selected);
    RoundLeavesOthers(candidates, scopes[i], now, after, selected);
    PickIsLocal(members, now, before, after, after, selected);
    forall j | 0 <= j < |scopes| && j != i
      ensures forall d :: d in ScopeMembers(candidates, scopes[j]) ==> Credit(after, d.id) == Credit(now, d.id)
    {
      OtherScopeUntouched(candidates, scopes[j], scopes[i], now, after, selected);
    }
    forall j | 0 <= j < i
      ensures IsPick(before, ScopeMembers(candidates, scopes[j]), after, (reps + [selected])[j])
    {
      PickIsLocal(ScopeMembers(candidates, scopes[j]), before, before, now, after, reps[j]);
    }
  }

  /** Rearranging the representatives keeps one per scope. */
  lemma RepresentativesOrdered(before: Credits, candidates: seq<Deployment>, after: Credits,
                               scopes: seq<string>, reps: seq<Deployment>, chosen: seq<Deployment>)
    requires Distinct(scopes) && |reps| == |scopes|
    requires forall d :: d in candidates ==> d.quotaScopeId in scopes
    requires Settling(candidates, scopes, |scopes|, before, after, reps)
    requires SumCredits(after) == SumCredits(before)
    requires multiset(chosen) == multiset(reps)
    ensures IsOrdering(before, candidates, after, chosen)
  {
    SameMembers(chosen, reps);
    forall r | r in chosen
      ensures IsPick(before, ScopeMembers(candidates, r.quotaScopeId), after, r)
    {
      var j :| 0 <= j < |reps| && reps[j] == r;
      RepScope(before, candidates, after, scopes, reps, j);
    }
    forall d | d in candidates
      ensures exists r :: r in chosen && r.quotaScopeId == d.quotaScopeId
    {
      var j :| 0 <= j < |scopes| && scopes[j] == d.quotaScopeId;
      RepScope(before, candidates, after, scopes, reps, j);
      assert reps[j] in chosen;
    }
    OnePerScope(before, candidates, after, scopes, reps, chosen);
  }

  lemma RepScope(before: Credits, candidates: seq<Deployment>, after: Credits, scopes: seq<string>, reps: seq<Deployment>, j: nat)
    requires j < |reps| == |scopes| && Settling(candidates, scopes, |scopes|, before, after, reps)
    ensures reps[j].quotaScopeId == scopes[j]
    ensures IsPick(before, ScopeMembers(candidates, reps[j].quotaScopeId), after, reps[j])
  {
    assert reps[j] in ScopeMembers(candidates, scopes[j]);
  }

  lemma OnePerScope(before: Credits, candidates: seq<Deployment>, after: Credits,
                    scopes: seq<string>, reps: seq<Deployment>, chosen: seq<Deployment>)
    requires Distinct(scopes) && |reps| == |scopes|
    requires Settling(candidates, scopes, |scopes|, before, after, reps)
    requires multiset(chosen) == multiset(reps)
    ensures forall i, j :: 0 <= i < j < |chosen| ==> chosen[i].quotaScopeId != chosen[j].quotaScopeId
  {
    forall j | 0 <= j < |reps| ensures reps[j].quotaScopeId == scopes[j] {
      RepScope(before, candidates, after, scopes, reps, j);
    }
    assert Distinct(reps);
    DistinctPermutes(reps, chosen);
    SameMembers(reps, chosen);
    forall i, j | 0 <= i < j < |chosen|
      ensures chosen[i].quotaScopeId != chosen[j].quotaScopeId
    {
      assert chosen[i] in reps && chosen[j] in reps;
    }
  }

  /** Observed load of a scope relative to its base limit. */
  function LoadRatio(loads: map<string, int>, policies: map<string, ScopePolicy>, scope: string): real {
    if scope in policies && policies[scope].baseLimit > 0 then
      (if scope in loads then loads[scope] else 0) as real / policies[scope].baseLimit as real
    else 0.0
  }

  predicate LoadOrder(loads: map<string, int>, policies: map<string, ScopePolicy>, a: Deployment, b: Deployment) {
    var ra, rb := LoadRatio(loads, policies, a.quotaScopeId), LoadRatio(loads, policies, b.quotaScopeId);
    || ra < rb
    || (ra == rb && StrLess(a.quotaScopeId, b.quotaScopeId))
    || (ra == rb && a.quotaScopeId == b.quotaScopeId && StrLeq(a.id, b.id))
  }

  /** Load per base limit is compared exactly: crosswise, with ties broken by scope id and then deployment id. */
  lemma LoadOrderCrosswise(loads: map<string, int>, policies: map<string, ScopePolicy>, a: Deployment, b: Deployment)
    requires a.quotaScopeId in policies && policies[a.quotaScopeId].baseLimit > 0
    requires b.quotaScopeId in policies && policies[b.quotaScopeId].baseLimit > 0
    ensures var la, lb := if a.quotaScopeId in loads then loads[a.quotaScopeId] else 0, if b.quotaScopeId in loads then loads[b.quotaScopeId] else 0;
      var left, right := la * policies[b.quotaScopeId].baseLimit, lb * policies[a.quotaScopeId].baseLimit;
      LoadOrder(loads, policies, a, b) <==>
        || left < right
        || (left == right && StrLess(a.quotaScopeId, b.quotaScopeId))
        || (left == right && a.quotaScopeId == b.quotaScopeId && StrLeq(a.id, b.id))
  {
    var la, lb := if a.quotaScopeId in loads then loads[a.quotaScopeId] else 0, if b.quotaScopeId in loads then loads[b.quotaScopeId] else 0;
    RatioCrosswise(la, policies[a.quotaScopeId].baseLimit, lb, policies[b.quotaScopeId].baseLimit);
  }

  lemma RatioCrosswise(a: int, m: int, b: int, n: int)
    requires m > 0 && n > 0
    ensures a as real / m as real < b as real / n as real <==> a * n < b * m
    ensures a as real / m as real == b as real / n as real <==> a * n == b * m
  {
    var x, y := a as real / m as real, b as real / n as real;
    assert x * m as real == a as real && y * n as real == b as real;
    assert (a * n) as real == x * (m as real * n as real);
    assert (b * m) as real == y * (m as real * n as real);
  }

  lemma LoadOrderTotal(loads: map<string, int>, policies: map<string, ScopePolicy>, leq: (Deployment, Deployment) -> bool)
    requires forall a, b :: leq(a, b) == LoadOrder(loads, policies, a, b)
    ensures TotalPreorder(leq)
  {
    forall a: Deployment, b: Deployment ensures leq(a, b) || leq(b, a) {
      StrTrichotomy(a.quotaScopeId, b.quotaScopeId);
      StrTrichotomy(a.id, b.id);
    }
    forall a: Deployment, b: Deployment, c: Deployment | leq(a, b) && leq(b, c) ensures leq(a, c) {
      LoadOrderTransitive(loads, policies, a, b, c);
    }
  }

  lemma LoadOrderTransitive(loads: map<string, int>, policies: map<string, ScopePolicy>, a: Deployment, b: Deployment, c: Deployment)
    requires LoadOrder(loads, policies, a, b) && LoadOrder(loads, policies, b, c)
    ensures LoadOrder(loads, policies, a, c)
  {
    if StrLess(a.quotaScopeId, b.quotaScopeId) && StrLess(b.quotaScopeId, c.quotaScopeId) {
      StrTransitive(a.quotaScopeId, b.quotaScopeId, c.quotaScopeId);
    }
    if StrLess(a.id, b.id) && StrLess(b.id, c.id) {
      StrTransitive(a.id, b.id, c.id);
    }
  }

  // ---------------------------------------------------------------- repeated calls

  /** `results[i]` is what the i-th call on the same candidates returned. */
  ghost predicate RepeatedCalls(candidates: seq<Deployment>, states: seq<Credits>, results: seq<seq<Deployment>>) {
    && |states| == |results| + 1
    && forall i :: 0 <= i < |results| ==> IsOrdering(states[i], candidates, states[i + 1], results[i])
  }

  /** How many of the calls offered deployment `id`. */
  ghost function Offered(results: seq<seq<Deployment>>, id: string): nat {
    if results == [] then 0
    else Offered(results[..|results| - 1], id)
         + (if exists r :: r in results[|results| - 1] && r.id == id then 1 else 0)
  }

  /** One call picks exactly one deployment in each scope that has candidates. */
  lemma CallPick(candidates: seq<Deployment>, before: Credits, after: Credits, chosen: seq<Deployment>, scope: string)
    returns (selected: Deployment)
    requires ConsistentIds(candidates) && IsOrdering(before, candidates, after, chosen)
    requires ScopeMembers(candidates, scope) != []
    ensures IsPick(before, ScopeMembers(candidates, scope), after, selected)
    ensures forall d :: d in ScopeMembers(candidates, scope) ==>
      ((exists r :: r in chosen && r.id == d.id) <==> selected.id == d.id)
  {
    var member := ScopeMembers(candidates, scope)[0];
    assert member in ScopeMembers(candidates, scope);
    selected :| selected in chosen && selected.quotaScopeId == scope;
    forall d, r | d in ScopeMembers(candidates, scope) && r in chosen && r.id == d.id
      ensures r == selected
    {
      assert IsPick(before, ScopeMembers(candidates, r.quotaScopeId), after, r);
      assert r in ScopeMembers(candidates, r.quotaScopeId);
      SameScopeSameEntry(chosen, r, selected);
    }
  }

  /** The picks that the calls made in one scope form a round-robin run of that scope. */
  lemma {:induction false} CallsRunScope(candidates: seq<Deployment>, states: seq<Credits>, results: seq<seq<Deployment>>,
                                         scope: string) returns (picks: seq<Deployment>)
    requires ConsistentIds(candidates) && RepeatedCalls(candidates, states, results)
    requires ScopeMembers(candidates, scope) != []
    ensures IsRun(ScopeMembers(candidates, scope), states, picks)
    ensures forall d :: d in ScopeMembers(candidates, scope) ==> Offered(results, d.id) == Count(picks, d.id)
    decreases |results|
  {
    picks := [];
    var n := |results| - 1;
    if n >= 0 {
      RepeatedPrefix(candidates, states, results);
      var front := CallsRunScope(candidates, states[..n + 1], results[..n], scope);
      var selected := CallPick(candidates, states[n], states[n + 1], results[n], scope);
      picks := front + [selected];
      RunExtends(ScopeMembers(candidates, scope), states, front, selected);
      forall d | d in ScopeMembers(candidates, scope) ensures Offered(results, d.id) == Count(picks, d.id) {
        OfferedNext(results, front, selected, d.id);
      }
    }
  }

  lemma OfferedNext(results: seq<seq<Deployment>>, front: seq<Deployment>, selected: Deployment, id: string)
    requires results != [] && Offered(results[..|results| - 1], id) == Count(front, id)
    requires (exists r :: r in results[|results| - 1] && r.id == id) <==> selected.id == id
    ensures Offered(results, id) == Count(front + [selected], id)
  {
    assert (front + [selected])[..|front|] == front;
  }

  lemma RepeatedPrefix(candidates: seq<Deployment>, states: seq<Credits>, results: seq<seq<Deployment>>)
    requires RepeatedCalls(candidates, states, results) && results != []
    ensures RepeatedCalls(candidates, states[..|results|], results[..|results| - 1])
    ensures IsOrdering(states[|results| - 1], candidates, states[|results|], results[|results| - 1])
  {
    var n := |results| - 1;
    assert states[|results|] == states[n + 1];
    RepeatedAt(candidates, states, results, n);
    forall i | 0 <= i < n ensures IsOrdering(states[..n + 1][i], candidates, states[..n + 1][i + 1], results[..n][i]) {
      RepeatedAt(candidates, states, results, i);
    }
  }

  lemma RepeatedAt(candidates: seq<Deployment>, states: seq<Credits>, results: seq<seq<Deployment>>, i: nat)
    requires RepeatedCalls(candidates, states, results) && i < |results|
    ensures IsOrdering(states[i], candidates, states[i + 1], results[i])
  {
  }

  lemma RunExtends(ds: seq<Deployment>, states: seq<Credits>, picks: seq<Deployment>, selected: Deployment)
    requires |states| == |picks| + 2 && IsRun(ds, states[..|picks| + 1], picks)
    requires IsPick(states[|picks|], ds, states[|picks| + 1], selected)
    ensures IsRun(ds, states, picks + [selected])
  {
    forall i | 0 <= i < |picks| ensures IsPick(states[i], ds, states[i + 1], picks[i]) {
      assert IsPick(states[..|picks| + 1][i], ds, states[..|picks| + 1][i + 1], picks[i]);
    }
  }

  lemma SameScopeSameEntry(chosen: seq<Deployment>, a: Deployment, b: Deployment)
    requires a in chosen && b in chosen && a.quotaScopeId == b.quotaScopeId
    requires forall i, j :: 0 <= i < j < |chosen| ==> chosen[i].quotaScopeId != chosen[j].quotaScopeId
    ensures a == b
  {
    var i, j :| 0 <= i < |chosen| && chosen[i] == a && 0 <= j < |chosen| && chosen[j] == b;
    assert i == j;
  }

  lemma {:induction false} ScopeMembersDistinct(ds: seq<Deployment>, scope: string)
    requires DistinctIds(ds)
    ensures DistinctIds(ScopeMembers(ds, scope))
  {
    if ds != [] {
      var front := ds[..|ds| - 1];
      ScopeMembersDistinct(front, scope);
      forall d | d in ScopeMembers(front, scope) ensures d.id != ds[|ds| - 1].id {
        assert d in front;
      }
    }
  }

  /**
   * Starting from zero credits and calling with the same candidates, every scope offers each of
   * its deployments exactly `rounds * weight` times in `rounds * total weight` calls.
   */
  lemma CallsShareExactly(candidates: seq<Deployment>, states: seq<Credits>, results: seq<seq<Deployment>>,
                          d: Deployment, rounds: nat)
    requires DistinctIds(candidates) && RepeatedCalls(candidates, states, results) && d in candidates
    requires forall e :: e in candidates ==> Credit(states[0], e.id) == 0
    requires |results| == rounds * Total(ScopeMembers(candidates, d.quotaScopeId))
    ensures Offered(results, d.id) == rounds * d.weight
    ensures Credit(states[|results|], d.id) == 0
  {
    var members := ScopeMembers(candidates, d.quotaScopeId);
    assert d in members;
    DistinctAreConsistent(candidates);
    ScopeMembersDistinct(candidates, d.quotaScopeId);
    var picks := CallsRunScope(candidates, states, results, d.quotaScopeId);
    WholeRoundsAreExact(members, states, picks, rounds);
  }

  lemma DistinctAreConsistent(ds: seq<Deployment>)
    requires DistinctIds(ds)
    ensures ConsistentIds(ds)
  {
  }

  /** Whatever subsets of candidates successive calls see, the stored credits keep summing to zero. */
  lemma {:induction false} CreditsConserved(states: seq<Credits>, calls: seq<seq<Deployment>>, results: seq<seq<Deployment>>)
    requires |states| == |calls| + 1 == |results| + 1 && states[0] == map[]
    requires forall i :: 0 <= i < |calls| ==> IsOrdering(states[i], calls[i], states[i + 1], results[i])
    ensures SumCredits(states[|calls|]) == 0
    decreases |calls|
  {
    if calls != [] {
      var n := |calls| - 1;
      CreditsConserved(states[..n + 1], calls[..n], results[..n]);
      assert IsOrdering(states[n], calls[n], states[n + 1], results[n]);
    }
  }
}

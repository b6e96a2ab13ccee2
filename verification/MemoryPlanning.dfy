/** What makes a maintenance plan right: its groups, the working-set limit, and one decision a record. */
module MemoryPlanning {
  import opened Prelude
  import opened Ordering
  import opened Grouping
  import opened MemoryRetention

  // ---------------------------------------------------------------- planning

  /** One decision for every id of `ids` and no other. */
  ghost predicate Covers(ids: set<Id>, ds: seq<RetentionDecision>) {
    && (forall i :: 0 <= i < |ds| ==> ds[i].memoryId in ids)
    && (forall i, j :: 0 <= i < j < |ds| ==> ds[i].memoryId != ds[j].memoryId)
    && (forall id :: id in ids ==> exists i :: 0 <= i < |ds| && ds[i].memoryId == id)
  }

  lemma CoversNext(ids: set<Id>, ds: seq<RetentionDecision>, d: RetentionDecision)
    requires Covers(ids, ds) && d.memoryId !in ids
    ensures Covers(ids + {d.memoryId}, ds + [d])
  {
    var ds' := ds + [d];
    assert ds'[|ds|] == d;
    forall id | id in ids ensures exists i :: 0 <= i < |ds'| && ds'[i].memoryId == id {
      var i :| 0 <= i < |ds| && ds[i].memoryId == id;
      assert ds'[i].memoryId == id;
    }
  }

  /** Each decision is the right one for its record. */
  ghost predicate Right(m: Store, p: Policy, now: Time, groups: seq<seq<Record>>, displaced: set<Id>, ds: seq<RetentionDecision>) {
    forall i :: 0 <= i < |ds| ==> ds[i].memoryId in m && ds[i] == DecisionFor(p, now, groups, displaced, m[ds[i].memoryId])
  }

  /** Every record has exactly one decision, and it is the right one. */
  ghost predicate Decided(m: Store, p: Policy, now: Time, groups: seq<seq<Record>>, displaced: set<Id>, ds: seq<RetentionDecision>) {
    Covers(m.Keys, ds) && Right(m, p, now, groups, displaced, ds)
  }

  lemma DistinctRecordsDistinctIds(records: seq<Record>, m: Store)
    requires StoreOk(m) && Distinct(records) && forall r :: r in records ==> r.id in m && m[r.id] == r
    ensures forall i, j :: 0 <= i < j < |records| ==> records[i].id != records[j].id
  {
    forall i, j | 0 <= i < j < |records| ensures records[i].id != records[j].id {
      assert records[i] in records && records[j] in records;
    }
  }

  function IdsOf(records: seq<Record>): (ids: set<Id>)
    ensures forall id :: id in ids <==> exists r :: r in records && r.id == id
  {
    set r | r in records :: r.id
  }

  lemma IdsOfNext(records: seq<Record>, j: nat)
    requires j < |records|
    ensures IdsOf(records[..j + 1]) == IdsOf(records[..j]) + {records[j].id}
  {
    assert records[..j + 1] == records[..j] + [records[j]];
  }

  lemma {:induction false} IdsCount(records: seq<Record>)
    requires forall i, j :: 0 <= i < j < |records| ==> records[i].id != records[j].id
    ensures |IdsOf(records)| == |records|
  {
    if records != [] {
      var n := |records| - 1;
      IdsCount(records[..n]);
      assert records == records[..n] + [records[n]];
      assert IdsOf(records) == IdsOf(records[..n]) + {records[n].id};
      assert records[n].id !in IdsOf(records[..n]);
    }
  }

  lemma InGroupMembers(groups: seq<seq<Record>>)
    ensures forall g, r :: g in groups && r in g ==> InGroup(groups, r.id)
    ensures forall id :: InGroup(groups, id) ==> exists g, r :: g in groups && r in g && r.id == id
  {
    forall g, r | g in groups && r in g ensures InGroup(groups, r.id) {
      var i, j :| 0 <= i < |groups| && groups[i] == g && 0 <= j < |g| && g[j] == r;
      assert groups[i][j].id == r.id;
    }
    forall id | InGroup(groups, id) ensures exists g, r :: g in groups && r in g && r.id == id {
      var i, j :| 0 <= i < |groups| && 0 <= j < |groups[i]| && groups[i][j].id == id;
      assert groups[i] in groups && groups[i][j] in groups[i];
    }
  }

  function GroupIds(groups: seq<seq<Record>>): (ids: set<Id>)
    ensures forall id :: id in ids <==> InGroup(groups, id)
  {
    InGroupMembers(groups);
    set g, r | g in groups && r in g :: r.id
  }

  lemma GroupsAreDisjoint(m: Store, p: Policy, now: Time, groups: seq<seq<Record>>, k: nat, i: nat)
    requires AreGroups(m, p, now, groups) && k < i < |groups|
    ensures forall r :: r in groups[k] ==> r.id !in IdsOf(groups[i])
  {
    assert IsGroup(m, p, now, groups[k]) && IsGroup(m, p, now, groups[i]);
  }

  /** A group's member is in none of the groups before its own, nor earlier in its own. */
  lemma NotYetGrouped(m: Store, p: Policy, now: Time, groups: seq<seq<Record>>, i: nat, j: nat)
    requires StoreOk(m) && AreGroups(m, p, now, groups) && i < |groups| && j < |groups[i]|
    ensures groups[i][j].id in m && m[groups[i][j].id] == groups[i][j]
    ensures groups[i][j].id !in GroupIds(groups[..i]) + IdsOf(groups[i][..j])
  {
    assert IsGroup(m, p, now, groups[i]) && groups[i][j] in groups[i];
    forall g, r | g in groups[..i] && r in g ensures r.id != groups[i][j].id {
      var k :| 0 <= k < i && groups[k] == g;
      GroupsAreDisjoint(m, p, now, groups, k, i);
    }
  }

  lemma GroupIdsNext(groups: seq<seq<Record>>, i: nat)
    requires i < |groups|
    ensures GroupIds(groups[..i + 1]) == GroupIds(groups[..i]) + IdsOf(groups[i])
  {
    assert groups[..i + 1] == groups[..i] + [groups[i]];
  }

  lemma MemberInGroup(groups: seq<seq<Record>>, k: nat, r: Record)
    requires k < |groups| && r in groups[k]
    ensures InGroup(groups, r.id)
  {
    var j :| 0 <= j < |groups[k]| && groups[k][j] == r;
  }

  lemma CompressIsRight(m: Store, p: Policy, now: Time, groups: seq<seq<Record>>, ds: seq<RetentionDecision>, d: RetentionDecision)
    requires Right(m, p, now, groups, {}, ds) && d.memoryId in m && m[d.memoryId].id == d.memoryId && InGroup(groups, d.memoryId)
    requires d == Decide(d.memoryId, Compress, RetentionScore(m[d.memoryId]), CompressionCandidate, false)
    ensures Right(m, p, now, groups, {}, ds + [d])
  {
  }

  /** One more member of a group is to be compressed. */
  lemma CompressNext(m: Store, p: Policy, now: Time, groups: seq<seq<Record>>, i: nat, j: nat,
                     ids: set<Id>, ds: seq<RetentionDecision>, d: RetentionDecision)
    requires StoreOk(m) && AreGroups(m, p, now, groups) && i < |groups| && j < |groups[i]|
    requires ids == GroupIds(groups[..i]) + IdsOf(groups[i][..j]) && Covers(ids, ds) && Right(m, p, now, groups, {}, ds)
    requires d == Decide(groups[i][j].id, Compress, RetentionScore(groups[i][j]), CompressionCandidate, false)
    ensures ids + {d.memoryId} == GroupIds(groups[..i]) + IdsOf(groups[i][..j + 1])
    ensures Covers(ids + {d.memoryId}, ds + [d]) && Right(m, p, now, groups, {}, ds + [d])
  {
    NotYetGrouped(m, p, now, groups, i, j);
    MemberInGroup(groups, i, groups[i][j]);
    IdsOfNext(groups[i], j);
    CoversNext(ids, ds, d);
    CompressIsRight(m, p, now, groups, ds, d);
  }

  /** The selected records of one key are the compressible ones of that key. */
  lemma MembersCompressible(m: Store, now: Time, selected: seq<Record>, key: GroupKey)
    requires StoreOk(m) && Distinct(selected)
    requires forall r :: r in selected <==> r.id in m && m[r.id] == r && Compressible(now, r)
    ensures Distinct(Members(selected, KeyOf, key))
    ensures IdsOf(Members(selected, KeyOf, key)) == CompressibleWith(m, now, key)
    ensures |Members(selected, KeyOf, key)| == |CompressibleWith(m, now, key)|
  {
    var members := Members(selected, KeyOf, key);
    MembersDistinct(selected, KeyOf, key);
    DistinctRecordsDistinctIds(members, m);
    IdsCount(members);
    forall id | id in CompressibleWith(m, now, key) ensures id in IdsOf(members) {
      assert m[id] in members;
    }
    assert IdsOf(members) == CompressibleWith(m, now, key);
  }

  /** The compressible records of one key, sorted, form a group if they are enough. */
  lemma SortedMembersAreGroup(m: Store, p: Policy, now: Time, selected: seq<Record>, key: GroupKey)
    requires StoreOk(m) && Distinct(selected)
    requires forall r :: r in selected <==> r.id in m && m[r.id] == r && Compressible(now, r)
    ensures |Members(selected, KeyOf, key)| == |CompressibleWith(m, now, key)|
    ensures Members(selected, KeyOf, key) != [] && |Members(selected, KeyOf, key)| >= p.compressAfter ==>
      IsGroup(m, p, now, Sort(Members(selected, KeyOf, key), CreatedLeq)) && KeyOf(Sort(Members(selected, KeyOf, key), CreatedLeq)[0]) == key
  {
    var members := Members(selected, KeyOf, key);
    var g := Sort(members, CreatedLeq);
    MembersCompressible(m, now, selected, key);
    SortSorted(members, CreatedLeq);
    SameMembers(members, g);
    DistinctPermutes(members, g);
    DistinctRecordsDistinctIds(g, m);
    if members != [] {
      assert g[0] in g;
      forall id | id in CompressibleWith(m, now, key) ensures m[id] in g {
        assert m[id] in members;
      }
    }
  }

  /** `groups` are the large enough groups among the first `i` keys. */
  ghost predicate Collected(m: Store, p: Policy, now: Time, selected: seq<Record>, keys: seq<GroupKey>, i: nat, groups: seq<seq<Record>>)
    requires i <= |keys|
  {
    && (forall k :: 0 <= k < |groups| ==> IsGroup(m, p, now, groups[k]) && KeyOf(groups[k][0]) in keys[..i])
    && (forall k, l :: 0 <= k < l < |groups| ==> KeyOf(groups[k][0]) != KeyOf(groups[l][0]))
    && (forall j :: 0 <= j < i && |Members(selected, KeyOf, keys[j])| >= p.compressAfter ==>
          exists k :: 0 <= k < |groups| && KeyOf(groups[k][0]) == keys[j])
  }

  lemma CollectGroup(m: Store, p: Policy, now: Time, selected: seq<Record>, keys: seq<GroupKey>, i: nat,
                     groups: seq<seq<Record>>, g: seq<Record>)
    requires i < |keys| && Distinct(keys) && Collected(m, p, now, selected, keys, i, groups)
    requires IsGroup(m, p, now, g) && KeyOf(g[0]) == keys[i]
    ensures Collected(m, p, now, selected, keys, i + 1, groups + [g])
  {
    var groups' := groups + [g];
    assert keys[..i + 1] == keys[..i] + [keys[i]];
    assert keys[i] !in keys[..i];
    assert groups'[|groups|] == g;
    forall j | 0 <= j < i + 1 && |Members(selected, KeyOf, keys[j])| >= p.compressAfter
      ensures exists k :: 0 <= k < |groups'| && KeyOf(groups'[k][0]) == keys[j]
    {
      if j < i {
        var k :| 0 <= k < |groups| && KeyOf(groups[k][0]) == keys[j];
        assert groups'[k] == groups[k];
      } else {
        assert KeyOf(groups'[|groups|][0]) == keys[j];
      }
    }
  }

  lemma SkipGroup(m: Store, p: Policy, now: Time, selected: seq<Record>, keys: seq<GroupKey>, i: nat, groups: seq<seq<Record>>)
    requires i < |keys| && Collected(m, p, now, selected, keys, i, groups)
    requires |Members(selected, KeyOf, keys[i])| < p.compressAfter
    ensures Collected(m, p, now, selected, keys, i + 1, groups)
  {
    assert keys[..i + 1] == keys[..i] + [keys[i]];
  }

  lemma CollectedAll(m: Store, p: Policy, now: Time, selected: seq<Record>, keys: seq<GroupKey>, groups: seq<seq<Record>>)
    requires StoreOk(m) && Distinct(selected)
    requires forall r :: r in selected <==> r.id in m && m[r.id] == r && Compressible(now, r)
    requires forall r :: r in selected ==> KeyOf(r) in keys
    requires Collected(m, p, now, selected, keys, |keys|, groups)
    ensures AreGroups(m, p, now, groups)
  {
    forall key | |CompressibleWith(m, now, key)| >= p.compressAfter && CompressibleWith(m, now, key) != {}
      ensures exists i :: 0 <= i < |groups| && KeyOf(groups[i][0]) == key
    {
      SortedMembersAreGroup(m, p, now, selected, key);
      var id :| id in CompressibleWith(m, now, key);
      assert m[id] in selected;
      var j :| 0 <= j < |keys| && keys[j] == key;
    }
  }

  // ---------------------------------------------------------------- the working-set limit

  /** The decision that overrides a displaced record's own. */
  function CapDecision(p: Policy, r: Record): RetentionDecision {
    var score := RetentionScore(r);
    Decide(r.id, if score < p.minScore then Tombstone else ArchiveIt, score, WorkingSetLimit, false)
  }

  /** The records that count against some owner's limit, each once. */
  ghost predicate AreEligible(m: Store, groups: seq<seq<Record>>, eligible: seq<Record>) {
    && Distinct(eligible)
    && forall r :: r in eligible <==> r.id in m && m[r.id] == r && Active(r) && !Protected(r) && !InGroup(groups, r.id)
  }

  function Overflow(p: Policy, n: nat): nat {
    Max(0, n - p.maxActive)
  }

  /** The first `i` owners' surplus has been displaced and nobody else's. */
  ghost predicate Displacing(m: Store, p: Policy, groups: seq<seq<Record>>, owners: seq<(nat, nat)>, i: nat, displaced: set<Id>)
    requires i <= |owners|
  {
    && (forall id :: id in displaced ==> id in m && id in Counted(m, groups, OwnerOf(m[id])) && OwnerOf(m[id]) in owners[..i])
    && (forall j :: 0 <= j < i ==> |displaced * Counted(m, groups, owners[j])| == Overflow(p, |Counted(m, groups, owners[j])|))
    && (forall a, b :: a in displaced && b in Counted(m, groups, OwnerOf(m[a])) && b !in displaced ==> RankLeq(m[a], m[b]))
  }

  lemma RankIsTotal()
    ensures TotalPreorder(RankLeq)
  {
  }

  /** An owner's ranking lists exactly the records that count against its limit, each once. */
  lemma RankingIsCounted(m: Store, groups: seq<seq<Record>>, eligible: seq<Record>, owner: (nat, nat), ranked: seq<Record>)
    requires StoreOk(m) && AreEligible(m, groups, eligible)
    requires ranked == Sort(Members(eligible, OwnerOf, owner), RankLeq)
    ensures IdsOf(ranked) == Counted(m, groups, owner)
    ensures forall i, j :: 0 <= i < j < |ranked| ==> ranked[i].id != ranked[j].id
    ensures forall r :: r in ranked ==> r.id in m && m[r.id] == r
    ensures SortedBy(ranked, RankLeq)
  {
    var members := Members(eligible, OwnerOf, owner);
    MembersDistinct(eligible, OwnerOf, owner);
    SameMembers(members, ranked);
    DistinctPermutes(members, ranked);
    DistinctRecordsDistinctIds(ranked, m);
    forall id | id in Counted(m, groups, owner) ensures id in IdsOf(ranked) {
      assert m[id] in members;
    }
    RankIsTotal();
    SortSorted(members, RankLeq);
  }

  /** The least-ranked `lowest` of one owner's records are its surplus. */
  ghost predicate IsSurplus(m: Store, p: Policy, groups: seq<seq<Record>>, owner: (nat, nat), lowest: set<Id>) {
    && lowest <= Counted(m, groups, owner)
    && |lowest| == Overflow(p, |Counted(m, groups, owner)|)
    && (forall a, b :: a in lowest && b in Counted(m, groups, owner) && b !in lowest ==> RankLeq(m[a], m[b]))
  }

  /** The least-ranked surplus of one owner. */
  lemma LowestOfOwner(m: Store, p: Policy, groups: seq<seq<Record>>, owner: (nat, nat), ranked: seq<Record>, lowest: set<Id>)
    requires IdsOf(ranked) == Counted(m, groups, owner)
    requires forall i, j :: 0 <= i < j < |ranked| ==> ranked[i].id != ranked[j].id
    requires forall r :: r in ranked ==> r.id in m && m[r.id] == r
    requires SortedBy(ranked, RankLeq)
    requires lowest == IdsOf(ranked[..Overflow(p, |ranked|)])
    ensures IsSurplus(m, p, groups, owner, lowest)
  {
    IdsCount(ranked);
    IdsCount(ranked[..Overflow(p, |ranked|)]);
    forall a, b | a in lowest && b in Counted(m, groups, owner) && b !in lowest ensures RankLeq(m[a], m[b]) {
      RankedBefore(m, ranked, Overflow(p, |ranked|), a, b);
    }
  }

  lemma IndexOfId(records: seq<Record>, id: Id) returns (i: nat)
    requires id in IdsOf(records)
    ensures i < |records| && records[i].id == id
  {
    var r :| r in records && r.id == id;
    i :| 0 <= i < |records| && records[i] == r;
  }

  lemma NotInPrefix(records: seq<Record>, cut: nat, j: nat)
    requires cut <= |records| && j < |records|
    ensures j < cut ==> records[j].id in IdsOf(records[..cut])
  {
    if j < cut {
      assert records[..cut][j] in records[..cut];
    }
  }

  lemma RankedBefore(m: Store, ranked: seq<Record>, cut: nat, a: Id, b: Id)
    requires cut <= |ranked| && SortedBy(ranked, RankLeq)
    requires forall r :: r in ranked ==> r.id in m && m[r.id] == r
    requires a in IdsOf(ranked[..cut]) && b in IdsOf(ranked) && b !in IdsOf(ranked[..cut])
    ensures RankLeq(m[a], m[b])
  {
    var i := IndexOfId(ranked[..cut], a);
    var j := IndexOfId(ranked, b);
    NotInPrefix(ranked, cut, j);
    assert ranked[i] in ranked && ranked[j] in ranked;
  }

  /** Another owner's surplus leaves what is displaced of an owner as it was. */
  lemma OtherOwner(m: Store, groups: seq<seq<Record>>, owner: (nat, nat), other: (nat, nat), displaced: set<Id>, lowest: set<Id>)
    requires owner != other && lowest <= Counted(m, groups, other)
    ensures (displaced + lowest) * Counted(m, groups, owner) == displaced * Counted(m, groups, owner)
  {
  }

  lemma DisplaceNext(m: Store, p: Policy, groups: seq<seq<Record>>, owners: seq<(nat, nat)>, i: nat, displaced: set<Id>, lowest: set<Id>)
    requires i < |owners| && Distinct(owners) && Displacing(m, p, groups, owners, i, displaced)
    requires IsSurplus(m, p, groups, owners[i], lowest)
    ensures Displacing(m, p, groups, owners, i + 1, displaced + lowest)
  {
    assert owners[..i + 1] == owners[..i] + [owners[i]];
    assert owners[i] !in owners[..i];
    forall j | 0 <= j < i
      ensures (displaced + lowest) * Counted(m, groups, owners[j]) == displaced * Counted(m, groups, owners[j])
    {
      OtherOwner(m, groups, owners[j], owners[i], displaced, lowest);
    }
    assert (displaced + lowest) * Counted(m, groups, owners[i]) == lowest;
  }

  lemma DisplaceOwner(m: Store, p: Policy, groups: seq<seq<Record>>, eligible: seq<Record>, owners: seq<(nat, nat)>, i: nat,
                      displaced: set<Id>, ranked: seq<Record>, surplus: seq<Record>)
    requires StoreOk(m) && AreEligible(m, groups, eligible)
    requires i < |owners| && Distinct(owners) && Displacing(m, p, groups, owners, i, displaced)
    requires ranked == Sort(Members(eligible, OwnerOf, owners[i]), RankLeq)
    requires surplus == ranked[..Overflow(p, |ranked|)]
    ensures Displacing(m, p, groups, owners, i + 1, displaced + IdsOf(surplus))
    ensures forall r :: r in surplus ==> r.id in m && m[r.id] == r
  {
    RankingIsCounted(m, groups, eligible, owners[i], ranked);
    LowestOfOwner(m, p, groups, owners[i], ranked, IdsOf(surplus));
    DisplaceNext(m, p, groups, owners, i, displaced, IdsOf(surplus));
    forall r | r in surplus ensures r in ranked {}
  }

  lemma DisplacedAll(m: Store, p: Policy, groups: seq<seq<Record>>, eligible: seq<Record>, owners: seq<(nat, nat)>, displaced: set<Id>)
    requires Displacing(m, p, groups, owners, |owners|, displaced)
    requires StoreOk(m) && AreEligible(m, groups, eligible)
    requires forall r :: r in eligible ==> OwnerOf(r) in owners
    ensures IsDisplacement(m, p, groups, displaced)
  {
    forall id | id in m && Active(m[id]) && !Protected(m[id]) && !InGroup(groups, id) ensures OwnerOf(m[id]) in owners {
      assert m[id] in eligible;
    }
    forall owner
      ensures |displaced * Counted(m, groups, owner)| == Overflow(p, |Counted(m, groups, owner)|)
    {
      if owner in owners {
        var j :| 0 <= j < |owners| && owners[j] == owner;
      } else {
        assert displaced * Counted(m, groups, owner) == {};
      }
    }
  }

  /** Overriding the displaced records' own decisions gives every record its right one. */
  lemma Overridden(m: Store, p: Policy, now: Time, groups: seq<seq<Record>>, replacements: map<Id, RetentionDecision>,
                   own: seq<RetentionDecision>, ds: seq<RetentionDecision>)
    requires StoreOk(m) && Decided(m, p, now, groups, {}, own) && IsDisplacement(m, p, groups, replacements.Keys)
    requires forall id :: id in replacements ==> id in m && replacements[id] == CapDecision(p, m[id])
    requires |ds| == |own|
    requires forall k :: 0 <= k < |own| ==>
      ds[k] == if own[k].memoryId in replacements then replacements[own[k].memoryId] else own[k]
    ensures Decided(m, p, now, groups, replacements.Keys, ds)
  {
    forall k | 0 <= k < |ds| ensures ds[k].memoryId == own[k].memoryId {}
    forall k | 0 <= k < |ds|
      ensures ds[k].memoryId in m && ds[k] == DecisionFor(p, now, groups, replacements.Keys, m[ds[k].memoryId])
    {
      var id := own[k].memoryId;
      if id in replacements {
        assert id in Counted(m, groups, OwnerOf(m[id]));
      }
    }
    forall id | id in m ensures exists i :: 0 <= i < |ds| && ds[i].memoryId == id {
      var i :| 0 <= i < |own| && own[i].memoryId == id;
      assert ds[i].memoryId == id;
    }
  }

  lemma NotYetListed(records: seq<Record>, i: nat)
    requires i < |records| && forall k, l :: 0 <= k < l < |records| ==> records[k].id != records[l].id
    ensures records[i].id !in IdsOf(records[..i])
  {
    forall q | q in records[..i] ensures q.id != records[i].id {
      var k :| 0 <= k < i && records[k] == q;
    }
  }

  lemma RightNext(m: Store, p: Policy, now: Time, groups: seq<seq<Record>>, ds: seq<RetentionDecision>, r: Record)
    requires r.id in m && m[r.id] == r && !InGroup(groups, r.id)
    requires Right(m, p, now, groups, {}, ds)
    ensures Right(m, p, now, groups, {}, ds + [Evaluate(p, now, r)])
  {
    var d := Evaluate(p, now, r);
    assert d == DecisionFor(p, now, groups, {}, r);
    forall i | 0 <= i < |ds + [d]|
      ensures (ds + [d])[i].memoryId in m && (ds + [d])[i] == DecisionFor(p, now, groups, {}, m[(ds + [d])[i].memoryId])
    {
      if i < |ds| {
        assert (ds + [d])[i] == ds[i];
      }
    }
  }

  /** One more record judged on its own, unless it is grouped. */
  lemma CoversRecord(ids: set<Id>, records: seq<Record>, i: nat, ds: seq<RetentionDecision>, d: RetentionDecision)
    requires i < |records| && forall k, l :: 0 <= k < l < |records| ==> records[k].id != records[l].id
    requires Covers(ids + IdsOf(records[..i]), ds) && d.memoryId == records[i].id
    ensures records[i].id in ids ==> Covers(ids + IdsOf(records[..i + 1]), ds)
    ensures records[i].id !in ids ==> Covers(ids + IdsOf(records[..i + 1]), ds + [d])
  {
    var listed := ids + IdsOf(records[..i]);
    IdsOfNext(records, i);
    NotYetListed(records, i);
    if records[i].id in ids {
      assert ids + IdsOf(records[..i + 1]) == listed;
    } else {
      CoversNext(listed, ds, d);
      assert ids + IdsOf(records[..i + 1]) == listed + {d.memoryId};
    }
  }

  lemma CompressIffGrouped(m: Store, p: Policy, now: Time, groups: seq<seq<Record>>, ds: seq<RetentionDecision>, i: nat)
    requires StoreOk(m) && Right(m, p, now, groups, {}, ds) && i < |ds|
    ensures ds[i].action.Compress? <==> InGroup(groups, ds[i].memoryId)
  {
  }

  lemma GroupedAreStored(m: Store, p: Policy, now: Time, groups: seq<seq<Record>>)
    requires AreGroups(m, p, now, groups)
    ensures GroupIds(groups) <= m.Keys
  {
    forall id | id in GroupIds(groups) ensures id in m {
      var i := GroupedRecord(m, p, now, groups, id);
    }
  }
}

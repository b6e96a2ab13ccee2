/** The maintenance pass over the in-memory repository: plan, consolidate groups, apply every other decision. */
module MemoryMaintenance {
  import opened Prelude
  import opened Ordering
  import opened Grouping
  import opened MemoryRetention
  import opened MemoryRepository
  import opened MemoryPlanning
  import opened MemoryExecution

  datatype MemoryMaintenanceResult = MemoryMaintenanceResult(
    decisions: seq<RetentionDecision>,
    compressed: nat, archived: nat, tombstoned: nat, purged: nat, cooledDown: nat)

  /** The counters say how often each kind of event was appended. */
  ghost predicate Counts(r: MemoryMaintenanceResult, events: seq<AuditEvent>) {
    && r.compressed == CountKind(events, Compressed) && r.archived == CountKind(events, ArchivedEvent)
    && r.tombstoned == CountKind(events, TombstonedEvent) && r.purged == CountKind(events, PurgedEvent)
    && r.cooledDown == CountKind(events, CooledDown)
  }

  lemma TallyCounts(r: MemoryMaintenanceResult, events: seq<AuditEvent>)
    requires GroupTally(events, r.compressed, r.archived) && r.tombstoned == r.purged == r.cooledDown == 0
    ensures Counts(r, events)
  {
  }

  /** Bumps the counter of an applied decision's effect. */
  method Count(r: MemoryMaintenanceResult, effect: Option<EventKind>, ghost p: Policy, ghost now: Time,
               ghost record: Record, ghost d: RetentionDecision, ghost events: seq<AuditEvent>)
    returns (r': MemoryMaintenanceResult)
    requires effect == Effect(p, now, record, d) && Counts(r, events)
    ensures Counts(r', events + EffectEvents(p, now, record, d))
    ensures r'.decisions == r.decisions && r'.compressed == r.compressed
    ensures r'.purged == r.purged + if effect == Some(PurgedEvent) then 1 else 0
  {
    r' := r;
    forall kind
      ensures CountKind(events + EffectEvents(p, now, record, d), kind) == CountKind(events, kind) + if effect == Some(kind) then 1 else 0
    {
      EffectCount(p, now, record, d, events, kind);
    }
    match effect {
      case Some(ArchivedEvent) => r' := r.(archived := r.archived + 1);
      case Some(TombstonedEvent) => r' := r.(tombstoned := r.tombstoned + 1);
      case Some(PurgedEvent) => r' := r.(purged := r.purged + 1);
      case Some(CooledDown) => r' := r.(cooledDown := r.cooledDown + 1);
      case _ =>
    }
  }

  class MemoryMaintenanceService {
    const repository: InMemoryMemoryRepository
    const policy: Policy
    const now: Time

    constructor (repository: InMemoryMemoryRepository, policy: Policy, now: Time)
      requires repository.Valid() && policy.compressAfter >= 2
      ensures Valid() && this.repository == repository && this.policy == policy && this.now == now
    {
      this.repository, this.policy, this.now := repository, policy, now;
    }

    ghost predicate Valid()
      reads repository
    {
      repository.Valid() && policy.compressAfter >= 2
    }

    method SelectCompressible(records: seq<Record>) returns (selected: seq<Record>)
      requires Distinct(records)
      ensures Distinct(selected) && forall r :: r in selected <==> r in records && Compressible(now, r)
    {
      selected := [];
      for i := 0 to |records|
        invariant Distinct(selected)
        invariant forall r :: r in selected <==> r in records[..i] && Compressible(now, r)
      {
        assert records[i] !in records[..i];
        if Compressible(now, records[i]) {
          DistinctAppend(selected, records[i]);
          selected := selected + [records[i]];
        }
      }
      assert records[..|records|] == records;
    }

    /** Groups of the store's compressible records that are large enough to consolidate. */
    method CompressionGroups(records: seq<Record>, ghost m: Store) returns (groups: seq<seq<Record>>)
      requires Listing(records, m)
      ensures AreGroups(m, policy, now, groups)
    {
      var selected := SelectCompressible(records);
      var keys, byKey := GroupBy(selected, KeyOf);
      groups := [];
      for i := 0 to |keys|
        invariant Collected(m, policy, now, selected, keys, i, groups)
      {
        assert keys[i] in keys;
        SortedMembersAreGroup(m, policy, now, selected, keys[i]);
        if |byKey[keys[i]]| >= policy.compressAfter {
          var g := Sort(byKey[keys[i]], CreatedLeq);
          CollectGroup(m, policy, now, selected, keys, i, groups, g);
          groups := groups + [g];
        } else {
          SkipGroup(m, policy, now, selected, keys, i, groups);
        }
      }
      CollectedAll(m, policy, now, selected, keys, groups);
    }

    /** Records that count against their owner's limit, given every record's own decision. */
    method SelectEligible(records: seq<Record>, own: map<Id, RetentionDecision>, ghost m: Store, ghost groups: seq<seq<Record>>)
      returns (eligible: seq<Record>)
      requires Listing(records, m)
      requires forall id :: id in m ==> id in own && (own[id].action.Compress? <==> InGroup(groups, id))
      ensures AreEligible(m, groups, eligible)
    {
      eligible := [];
      for i := 0 to |records|
        invariant Distinct(eligible)
        invariant forall r :: r in eligible <==>
          r in records[..i] && Active(r) && !Protected(r) && !(r.id in own && own[r.id].action.Compress?)
      {
        var r := records[i];
        assert r !in records[..i];
        if Active(r) && !Protected(r) && !(r.id in own && own[r.id].action.Compress?) {
          DistinctAppend(eligible, r);
          eligible := eligible + [r];
        }
      }
      assert records[..|records|] == records;
    }

    /** Overrides for one owner's surplus. */
    method Override(replacements: map<Id, RetentionDecision>, surplus: seq<Record>, ghost m: Store)
      returns (extended: map<Id, RetentionDecision>)
      requires forall r :: r in surplus ==> r.id in m && m[r.id] == r
      requires forall id :: id in replacements ==> id in m && replacements[id] == CapDecision(policy, m[id])
      ensures extended.Keys == replacements.Keys + IdsOf(surplus)
      ensures forall id :: id in extended ==> id in m && extended[id] == CapDecision(policy, m[id])
    {
      extended := replacements;
      for j := 0 to |surplus|
        invariant extended.Keys == replacements.Keys + IdsOf(surplus[..j])
        invariant forall id :: id in extended ==> id in m && extended[id] == CapDecision(policy, m[id])
      {
        IdsOfNext(surplus, j);
        assert surplus[j] in surplus;
        extended := extended[surplus[j].id := CapDecision(policy, surplus[j])];
      }
      assert surplus[..|surplus|] == surplus;
    }

    /** Overrides for every owner's surplus, lowest ranked first. */
    method Replacements(records: seq<Record>, own: map<Id, RetentionDecision>, ghost m: Store, ghost groups: seq<seq<Record>>)
      returns (replacements: map<Id, RetentionDecision>)
      requires Listing(records, m)
      requires forall id :: id in m ==> id in own && (own[id].action.Compress? <==> InGroup(groups, id))
      ensures IsDisplacement(m, policy, groups, replacements.Keys)
      ensures forall id :: id in replacements ==> id in m && replacements[id] == CapDecision(policy, m[id])
    {
      var eligible := SelectEligible(records, own, m, groups);
      var owners, byOwner := GroupBy(eligible, OwnerOf);
      replacements := map[];
      for i := 0 to |owners|
        invariant Displacing(m, policy, groups, owners, i, replacements.Keys)
        invariant forall id :: id in replacements ==> id in m && replacements[id] == CapDecision(policy, m[id])
      {
        assert owners[i] in owners;
        var ranked := Sort(byOwner[owners[i]], RankLeq);
        var surplus := ranked[..Overflow(policy, |ranked|)];
        DisplaceOwner(m, policy, groups, eligible, owners, i, replacements.Keys, ranked, surplus);
        replacements := Override(replacements, surplus, m);
      }
      DisplacedAll(m, policy, groups, eligible, owners, replacements.Keys);
    }

    /** One Compress decision for every grouped record. */
    method CompressionDecisions(groups: seq<seq<Record>>, ghost m: Store) returns (ds: seq<RetentionDecision>, ids: set<Id>)
      requires StoreOk(m) && AreGroups(m, policy, now, groups)
      ensures ids == GroupIds(groups) && Covers(ids, ds) && Right(m, policy, now, groups, {}, ds)
    {
      ds, ids := [], {};
      for i := 0 to |groups|
        invariant ids == GroupIds(groups[..i]) && Covers(ids, ds) && Right(m, policy, now, groups, {}, ds)
      {
        for j := 0 to |groups[i]|
          invariant ids == GroupIds(groups[..i]) + IdsOf(groups[i][..j])
          invariant Covers(ids, ds) && Right(m, policy, now, groups, {}, ds)
        {
          var r := groups[i][j];
          var d := Decide(r.id, Compress, RetentionScore(r), CompressionCandidate, false);
          CompressNext(m, policy, now, groups, i, j, ids, ds, d);
          ds, ids := ds + [d], ids + {r.id};
        }
        assert groups[i][..|groups[i]|] == groups[i];
        GroupIdsNext(groups, i);
      }
      assert groups[..|groups|] == groups;
    }

    /** Every ungrouped record judged on its own, after the compression decisions. */
    method LifecycleDecisions(records: seq<Record>, compressing: seq<RetentionDecision>, ids: set<Id>,
                              ghost m: Store, ghost groups: seq<seq<Record>>)
      returns (ds: seq<RetentionDecision>)
      requires Listing(records, m) && ids == GroupIds(groups) && ids <= m.Keys
      requires Covers(ids, compressing) && Right(m, policy, now, groups, {}, compressing)
      ensures Decided(m, policy, now, groups, {}, ds)
    {
      ds := compressing;
      DistinctRecordsDistinctIds(records, m);
      for i := 0 to |records|
        invariant Covers(ids + IdsOf(records[..i]), ds) && Right(m, policy, now, groups, {}, ds)
      {
        assert records[i] in records;
        CoversRecord(ids, records, i, ds, Evaluate(policy, now, records[i]));
        if records[i].id !in ids {
          RightNext(m, policy, now, groups, ds, records[i]);
          ds := ds + [Evaluate(policy, now, records[i])];
        }
      }
      assert records[..|records|] == records;
      assert ids + IdsOf(records) == m.Keys by {
        forall id | id in m ensures id in IdsOf(records) {
          assert m[id] in records;
        }
      }
    }

    method DecisionById(ds: seq<RetentionDecision>, ghost m: Store, ghost groups: seq<seq<Record>>)
      returns (own: map<Id, RetentionDecision>)
      requires Decided(m, policy, now, groups, {}, ds)
      ensures forall id :: id in m ==> id in own && (own[id].action.Compress? <==> InGroup(groups, id))
    {
      own := map[];
      for i := 0 to |ds|
        invariant forall k :: 0 <= k < i ==> ds[k].memoryId in own
        invariant forall id :: id in own ==> (own[id].action.Compress? <==> InGroup(groups, id))
      {
        CompressIffGrouped(m, policy, now, groups, ds, i);
        own := own[ds[i].memoryId := ds[i]];
      }
      forall id | id in m ensures id in own {
        var i :| 0 <= i < |ds| && ds[i].memoryId == id;
      }
    }

    method Overriding(own: seq<RetentionDecision>, replacements: map<Id, RetentionDecision>) returns (ds: seq<RetentionDecision>)
      ensures |ds| == |own|
      ensures forall k :: 0 <= k < |own| ==>
        ds[k] == if own[k].memoryId in replacements then replacements[own[k].memoryId] else own[k]
    {
      ds := [];
      for i := 0 to |own|
        invariant |ds| == i
        invariant forall k :: 0 <= k < i ==>
          ds[k] == if own[k].memoryId in replacements then replacements[own[k].memoryId] else own[k]
      {
        ds := ds + [if own[i].memoryId in replacements then replacements[own[i].memoryId] else own[i]];
      }
    }

    /** Groups and one decision a record, the working-set limit included. */
    method Plan(records: seq<Record>, ghost m: Store)
      returns (groups: seq<seq<Record>>, decisions: seq<RetentionDecision>, ghost displaced: set<Id>)
      requires Listing(records, m)
      ensures AreGroups(m, policy, now, groups) && IsDisplacement(m, policy, groups, displaced)
      ensures Decided(m, policy, now, groups, displaced, decisions)
    {
      groups := CompressionGroups(records, m);
      var compressing, ids := CompressionDecisions(groups, m);
      GroupedAreStored(m, policy, now, groups);
      var ds := LifecycleDecisions(records, compressing, ids, m, groups);
      var own := DecisionById(ds, m, groups);
      var replacements := Replacements(records, own, m, groups);
      displaced := replacements.Keys;
      decisions := Overriding(ds, replacements);
      Overridden(m, policy, now, groups, replacements, ds, decisions);
    }

    /** The group's records as they now are, if still there and compressible. */
    method Reread(g: seq<Record>) returns (current: seq<Record>)
      ensures current == Current(repository.records, now, g)
    {
      current := [];
      for i := 0 to |g|
        invariant current == Current(repository.records, now, g[..i])
      {
        assert g[..i + 1][..i] == g[..i];
        if g[i].id in repository.records && Compressible(now, repository.records[g[i].id]) {
          current := current + [repository.records[g[i].id]];
        }
      }
      assert g[..|g|] == g;
    }

    /** Stores and audits the summary of `g`. */
    method StoreSummary(g: seq<Record>) returns (id: Id)
      requires Valid() && g != []
      modifies repository
      ensures Valid() && id !in old(repository.records)
      ensures repository.records == old(repository.records)[id := SummaryOf(g, id, now)]
      ensures repository.audit == old(repository.audit) + [Event(Compressed, SummaryOf(g, id, now), SourceCount(|g|), now)]
    {
      id := repository.NewId();
      var summary := SummaryOf(g, id, now);
      repository.Upsert(summary);
      repository.AppendAudit(Compressed, summary, SourceCount(|g|), now);
    }

    method ArchiveRecord(r: Record, reason: Reason)
      requires Valid() && r.id < repository.nextId
      modifies repository`records, repository`order, repository`audit
      ensures Valid() && repository.records == old(repository.records)[r.id := Archived(r, now, reason)]
      ensures repository.audit == old(repository.audit) + [Event(ArchivedEvent, r, reason, now)]
    {
      var archived := Archived(r, now, reason);
      repository.Upsert(archived);
      repository.AppendAudit(ArchivedEvent, archived, reason, now);
    }

    method TombstoneRecord(r: Record, reason: Reason)
      requires Valid() && r.id < repository.nextId
      modifies repository`records, repository`order, repository`audit
      ensures Valid() && repository.records == old(repository.records)[r.id := Tombstoned(r, now, reason)]
      ensures repository.audit == old(repository.audit) + [Event(TombstonedEvent, r, reason, now)]
    {
      var tombstoned := Tombstoned(r, now, reason);
      repository.Upsert(tombstoned);
      repository.AppendAudit(TombstonedEvent, tombstoned, reason, now);
    }

    /** Archives and audits every record of `g` on account of its summary. */
    method ArchiveSources(g: seq<Record>, id: Id, ghost before: Store) returns (archived: nat)
      requires Valid() && g != [] && id !in before && repository.records == before[id := SummaryOf(g, id, now)]
      requires forall r :: r in g ==> r.id in before
      requires forall i, j :: 0 <= i < j < |g| ==> g[i].id != g[j].id
      modifies repository
      ensures Valid() && archived == |g| && Consolidation(before, repository.records, now, g, id)
      ensures repository.audit == old(repository.audit) + ArchiveEvents(g, id, now)
    {
      ArchivedAllConsolidates(before, repository.records, now, g, id);
      archived := ArchiveEach(g, id);
    }

    method ArchiveEach(g: seq<Record>, id: Id) returns (archived: nat)
      requires Valid() && forall r :: r in g ==> r.id in repository.records
      modifies repository
      ensures Valid() && archived == |g|
      ensures repository.records == ArchivedAll(old(repository.records), now, g, |g|, id)
      ensures repository.audit == old(repository.audit) + ArchiveEvents(g, id, now)
    {
      archived := 0;
      ghost var events := ArchiveEvents(g, id, now);
      for i := 0 to |g|
        invariant archived == i && Valid()
        invariant repository.records == ArchivedAll(old(repository.records), now, g, i, id)
        invariant forall r :: r in g ==> r.id < repository.nextId
        invariant repository.audit == old(repository.audit) + events[..i]
      {
        assert g[i] in g;
        ArchiveRecord(g[i], ConsolidatedInto(id));
        Associate(old(repository.audit), events[..i], [events[i]]);
        TakeNext(events, i);
        archived := archived + 1;
      }
      assert events[..|g|] == events;
    }

    /** Replaces what is still compressible of a group by one summary; 0 if too little is left of it. */
    method CompressGroup(g: seq<Record>) returns (archived: nat, ghost summary: Id)
      requires Valid() && forall i, j :: 0 <= i < j < |g| ==> g[i].id != g[j].id
      modifies repository
      ensures Valid()
      ensures |Current(old(repository.records), now, g)| < policy.compressAfter ==>
        archived == 0 && repository.records == old(repository.records) && repository.audit == old(repository.audit)
      ensures |Current(old(repository.records), now, g)| >= policy.compressAfter ==>
        var current := Current(old(repository.records), now, g);
        && archived == |current|
        && Consolidation(old(repository.records), repository.records, now, current, summary)
        && repository.audit == old(repository.audit) + ConsolidationEvents(current, summary, now)
    {
      ghost var before := repository.records;
      archived, summary := 0, 0;
      var current := Reread(g);
      CurrentStored(before, now, g);
      CurrentDistinct(before, now, g);
      if |current| >= policy.compressAfter {
        var id := StoreSummary(current);
        archived := ArchiveSources(current, id, before);
        Associate(old(repository.audit), [Event(Compressed, SummaryOf(current, id, now), SourceCount(|current|), now)],
                  ArchiveEvents(current, id, now));
        summary := id;
      }
    }

    /** Carries out one decision on the record as it is now. */
    method Apply(d: RetentionDecision) returns (effect: Option<EventKind>)
      requires Valid()
      modifies repository
      ensures Valid() && SameExcept(old(repository.records), repository.records, d.memoryId)
      ensures d.memoryId !in old(repository.records) ==>
        effect == None && d.memoryId !in repository.records && repository.audit == old(repository.audit)
      ensures d.memoryId in old(repository.records) ==>
        var r := old(repository.records)[d.memoryId];
        && effect == Effect(policy, now, r, d)
        && Becomes(repository.records, d.memoryId, Outcome(policy, now, r, d))
        && repository.audit == old(repository.audit) + EffectEvents(policy, now, r, d)
    {
      effect := None;
      if !d.action.Compress? && d.memoryId in repository.records {
        var r := repository.records[d.memoryId];
        if !(d.protected || Protected(r))
           && !(d.action in {ArchiveIt, Tombstone, Purge} && !StillValid(policy, now, r, d)) {
          match d.action {
            case ArchiveIt =>
              ArchiveRecord(r, d.reason);
              effect := Some(ArchivedEvent);
            case Tombstone =>
              TombstoneRecord(r, d.reason);
              effect := Some(TombstonedEvent);
            case Purge =>
              var found := repository.Delete(r.id);
              if found {
                repository.AppendAudit(PurgedEvent, r, d.reason, now);
                effect := Some(PurgedEvent);
              }
            case CoolDown =>
              repository.Upsert(Cooled(r, now));
              repository.AppendAudit(CooledDown, Cooled(r, now), d.reason, now);
              effect := Some(CooledDown);
            case _ =>
          }
        }
      }
    }

    /** Nothing of a planned group has changed by the time its turn comes, so all of it is consolidated. */
    method ConsolidateOne(groups: seq<seq<Record>>, i: nat, ghost summaries: seq<Id>, ghost before: Store)
      returns (archived: nat, ghost summary: Id)
      requires Valid() && StoreOk(before) && AreGroups(before, policy, now, groups) && NoneEmpty(groups)
      requires i == |summaries| < |groups| && Halfway(before, repository.records, now, groups, summaries)
      modifies repository
      ensures Valid() && archived == |groups[i]| > 0
      ensures Halfway(before, repository.records, now, groups, summaries + [summary])
      ensures repository.audit == old(repository.audit) + ConsolidationEvents(groups[i], summary, now)
    {
      ghost var mid := repository.records;
      StillToConsolidate(policy, now, before, mid, groups, summaries);
      assert IsGroup(before, policy, now, groups[i]);
      archived, summary := CompressGroup(groups[i]);
      ConsolidateNext(policy, now, before, mid, repository.records, groups, summaries, summary);
    }

    method ConsolidateGroups(groups: seq<seq<Record>>) returns (compressed: nat, archived: nat, ghost summaries: seq<Id>)
      requires Valid() && AreGroups(repository.records, policy, now, groups) && NoneEmpty(groups)
      modifies repository
      ensures Valid() && |summaries| == |groups| && compressed == |groups|
      ensures Halfway(old(repository.records), repository.records, now, groups, summaries)
      ensures repository.audit == old(repository.audit) + GroupEvents(groups, summaries, now)
      ensures GroupTally(GroupEvents(groups, summaries, now), compressed, archived)
    {
      ghost var before, start := repository.records, repository.audit;
      compressed, archived, summaries := 0, 0, [];
      for i := 0 to |groups|
        invariant Valid() && |summaries| == i
        invariant Consolidating(before, repository.records, start, repository.audit, now, groups, summaries, compressed, archived)
      {
        ghost var mid, audit := repository.records, repository.audit;
        var n, summary := ConsolidateOne(groups, i, summaries, before);
        ConsolidatingNext(before, mid, repository.records, start, audit, repository.audit, now, groups, summaries, summary,
                          compressed, archived);
        summaries := summaries + [summary];
        if n > 0 {
          archived := archived + n;
          compressed := compressed + 1;
        }
      }
    }

    /** Applies every decision in turn, counting on from `start`. */
    method ApplyAll(decisions: seq<RetentionDecision>, start: MemoryMaintenanceResult, ghost consolidated: seq<AuditEvent>)
      returns (result: MemoryMaintenanceResult)
      requires Valid() && DistinctTargets(decisions) && Counts(start, consolidated)
      requires forall d :: d in decisions ==> d.memoryId in repository.records
      modifies repository
      ensures Valid() && Applied(policy, now, old(repository.records), repository.records, decisions, |decisions|)
      ensures repository.audit == old(repository.audit) + DecisionEvents(policy, now, old(repository.records), decisions)
      ensures Counts(result, consolidated + DecisionEvents(policy, now, old(repository.records), decisions))
      ensures result.decisions == start.decisions && result.compressed == start.compressed
      ensures |repository.records| - start.purged == |old(repository.records)| - result.purged
    {
      ghost var mid := repository.records;
      result := start;
      ghost var events: seq<AuditEvent> := [];
      assert decisions[..0] == [] && consolidated + [] == consolidated;
      for i := 0 to |decisions|
        invariant Valid() && result.decisions == start.decisions && result.compressed == start.compressed
        invariant Applied(policy, now, mid, repository.records, decisions, i)
        invariant |repository.records| - start.purged == |mid| - result.purged
        invariant forall k :: 0 <= k < i ==> decisions[k].memoryId in mid
        invariant events == DecisionEvents(policy, now, mid, decisions[..i])
        invariant repository.audit == old(repository.audit) + events && Counts(result, consolidated + events)
      {
        assert decisions[i] in decisions;
        ghost var r, current := mid[decisions[i].memoryId], repository.records;
        NotYetApplied(policy, now, mid, current, decisions, i);
        var effect := Apply(decisions[i]);
        ApplyNext(policy, now, mid, current, repository.records, decisions, i);
        SizeAfter(policy, now, current, repository.records, decisions[i]);
        DecisionEventsNext(policy, now, mid, decisions, i);
        result := Count(result, effect, policy, now, r, decisions[i], consolidated + events);
        Associate(consolidated, events, EffectEvents(policy, now, r, decisions[i]));
        Associate(old(repository.audit), events, EffectEvents(policy, now, r, decisions[i]));
        events := events + EffectEvents(policy, now, r, decisions[i]);
      }
      assert decisions[..|decisions|] == decisions;
    }

    /** Consolidates the groups, then applies the decisions to the store this leaves, `mid`. */
    method Steps(groups: seq<seq<Record>>, decisions: seq<RetentionDecision>)
      returns (result: MemoryMaintenanceResult, ghost summaries: seq<Id>, ghost mid: Store)
      requires Valid() && AreGroups(repository.records, policy, now, groups) && NoneEmpty(groups)
      requires DistinctTargets(decisions) && forall d :: d in decisions ==> d.memoryId in repository.records
      modifies repository
      ensures Valid() && result.decisions == decisions
      ensures |summaries| == |groups| && Halfway(old(repository.records), mid, now, groups, summaries)
      ensures forall d :: d in decisions ==> d.memoryId in old(repository.records) && d.memoryId in mid
      ensures Applied(policy, now, mid, repository.records, decisions, |decisions|)
      ensures repository.audit
              == old(repository.audit) + (GroupEvents(groups, summaries, now) + DecisionEvents(policy, now, mid, decisions))
      ensures Counts(result, GroupEvents(groups, summaries, now) + DecisionEvents(policy, now, mid, decisions))
      ensures |repository.records| == |old(repository.records)| + result.compressed - result.purged
    {
      ghost var before := repository.records;
      var compressed, archived;
      compressed, archived, summaries := ConsolidateGroups(groups);
      mid := repository.records;
      MidSize(before, mid, now, groups, summaries);
      var start := MemoryMaintenanceResult(decisions, compressed, archived, 0, 0, 0);
      TallyCounts(start, GroupEvents(groups, summaries, now));
      result := ApplyAll(decisions, start, GroupEvents(groups, summaries, now));
      Associate(old(repository.audit), GroupEvents(groups, summaries, now), DecisionEvents(policy, now, mid, decisions));
    }

    /** Carries out a plan made for the store as it is. */
    method Execute(groups: seq<seq<Record>>, decisions: seq<RetentionDecision>, ghost displaced: set<Id>)
      returns (result: MemoryMaintenanceResult, ghost summaries: seq<Id>)
      requires Valid() && AreGroups(repository.records, policy, now, groups) && NoneEmpty(groups)
      requires IsDisplacement(repository.records, policy, groups, displaced)
      requires Decided(repository.records, policy, now, groups, displaced, decisions)
      modifies repository
      ensures Valid() && result.decisions == decisions
      ensures IsPass(policy, now, old(repository.records), repository.records, groups, summaries, displaced)
      ensures repository.audit == old(repository.audit) + PassEvents(policy, now, old(repository.records), groups, summaries, decisions)
      ensures Counts(result, PassEvents(policy, now, old(repository.records), groups, summaries, decisions))
      ensures |repository.records| == |old(repository.records)| + result.compressed - result.purged
    {
      ghost var before := repository.records;
      ghost var mid;
      TargetsStored(before, policy, now, groups, displaced, decisions);
      result, summaries, mid := Steps(groups, decisions);
      CarriedOut(policy, now, before, mid, repository.records, groups, summaries, displaced, decisions);
    }

    /** One maintenance pass. */
    method Maintain(apply: bool)
      returns (result: MemoryMaintenanceResult, ghost groups: seq<seq<Record>>, ghost summaries: seq<Id>, ghost displaced: set<Id>)
      requires Valid()
      modifies repository
      ensures Valid()
      ensures AreGroups(old(repository.records), policy, now, groups) && NoneEmpty(groups)
      ensures IsDisplacement(old(repository.records), policy, groups, displaced)
      ensures Decided(old(repository.records), policy, now, groups, displaced, result.decisions)
      ensures !apply ==>
        && repository.records == old(repository.records) && repository.audit == old(repository.audit)
        && Counts(result, [])
      ensures apply ==>
        && IsPass(policy, now, old(repository.records), repository.records, groups, summaries, displaced)
        && repository.audit == old(repository.audit) + PassEvents(policy, now, old(repository.records), groups, summaries, result.decisions)
        && Counts(result, PassEvents(policy, now, old(repository.records), groups, summaries, result.decisions))
        && |repository.records| == |old(repository.records)| + result.compressed - result.purged
        && |repository.audit| == |old(repository.audit)| + result.compressed + result.archived + result.tombstoned
                                 + result.purged + result.cooledDown
    {
      ghost var before := repository.records;
      var records := repository.ListAll();
      var plan, decisions;
      plan, decisions, displaced := Plan(records, repository.records);
      groups, summaries := plan, [];
      GroupsNotEmpty(before, policy, now, groups);
      result := MemoryMaintenanceResult(decisions, 0, 0, 0, 0, 0);
      if apply {
        result, summaries := Execute(plan, decisions, displaced);
        KindsPartition(PassEvents(policy, now, before, groups, summaries, decisions));
      }
    }
  }
}

/** What carrying out a maintenance plan does to the store and to the audit list. */
module MemoryExecution {
  import opened Prelude
  import opened Ordering
  import opened MemoryRetention
  import opened MemoryRepository
  import opened MemoryPlanning

  // ---------------------------------------------------------------- consolidating one group

  /** The records of `g` as they now are, without those that are gone or no longer compressible. */
  function Current(m: Store, now: Time, g: seq<Record>): seq<Record> {
    if g == [] then []
    else
      var n := |g| - 1;
      Current(m, now, g[..n])
      + (if g[n].id in m && Compressible(now, m[g[n].id]) then [m[g[n].id]] else [])
  }

  lemma {:induction false} CurrentAll(m: Store, now: Time, g: seq<Record>)
    requires forall r :: r in g ==> r.id in m && m[r.id] == r && Compressible(now, r)
    ensures Current(m, now, g) == g
  {
    if g != [] {
      var n := |g| - 1;
      assert g == g[..n] + [g[n]];
      assert g[n] in g;
      CurrentAll(m, now, g[..n]);
    }
  }

  lemma {:induction false} CurrentStored(m: Store, now: Time, g: seq<Record>)
    requires StoreOk(m)
    ensures forall r :: r in Current(m, now, g) ==> r.id in m && m[r.id] == r
  {
    if g != [] {
      CurrentStored(m, now, g[..|g| - 1]);
    }
  }

  /** `after` is `before` with a summary of `g` added and the records of `g` archived on its account. */
  ghost predicate Consolidation(before: Store, after: Store, now: Time, g: seq<Record>, summary: Id)
    requires g != []
  {
    && summary !in before && after.Keys == before.Keys + {summary}
    && after[summary] == SummaryOf(g, summary, now)
    && (forall r :: r in g ==> r.id in before && after[r.id] == Archived(r, now, ConsolidatedInto(summary)))
    && (forall id :: id in before && id !in IdsOf(g) ==> after[id] == before[id])
  }

  lemma {:induction false} CurrentDistinct(m: Store, now: Time, g: seq<Record>)
    requires StoreOk(m) && forall i, j :: 0 <= i < j < |g| ==> g[i].id != g[j].id
    ensures forall i, j :: 0 <= i < j < |Current(m, now, g)| ==> Current(m, now, g)[i].id != Current(m, now, g)[j].id
    ensures forall r :: r in Current(m, now, g) ==> r.id in IdsOf(g)
  {
    if g != [] {
      var n := |g| - 1;
      assert g == g[..n] + [g[n]];
      CurrentDistinct(m, now, g[..n]);
      assert g[n].id !in IdsOf(g[..n]);
    }
  }

  /** The store after archiving the first `n` records of `g`. */
  function ArchivedAll(m: Store, now: Time, g: seq<Record>, n: nat, summary: Id): Store
    requires n <= |g|
  {
    if n == 0 then m
    else ArchivedAll(m, now, g, n - 1, summary)[g[n - 1].id := Archived(g[n - 1], now, ConsolidatedInto(summary))]
  }

  lemma {:induction false} ArchivedAt(m: Store, now: Time, g: seq<Record>, n: nat, summary: Id, id: Id)
    requires n <= |g| && forall k, l :: 0 <= k < l < |g| ==> g[k].id != g[l].id
    ensures var m' := ArchivedAll(m, now, g, n, summary);
      && ((forall k :: 0 <= k < n ==> g[k].id != id) ==> (id in m' <==> id in m) && (id in m ==> m'[id] == m[id]))
      && (forall k :: 0 <= k < n && g[k].id == id ==> id in m' && m'[id] == Archived(g[k], now, ConsolidatedInto(summary)))
  {
    if n > 0 {
      ArchivedAt(m, now, g, n - 1, summary, id);
    }
  }

  /** Storing the summary and then archiving every record is the consolidation of the group. */
  lemma ArchivedAllConsolidates(before: Store, m: Store, now: Time, g: seq<Record>, summary: Id)
    requires g != [] && summary !in before && m == before[summary := SummaryOf(g, summary, now)]
    requires (forall r :: r in g ==> r.id in before) && forall k, l :: 0 <= k < l < |g| ==> g[k].id != g[l].id
    ensures Consolidation(before, ArchivedAll(m, now, g, |g|, summary), now, g, summary)
  {
    var m' := ArchivedAll(m, now, g, |g|, summary);
    forall r | r in g ensures r.id in m' && m'[r.id] == Archived(r, now, ConsolidatedInto(summary)) {
      var k :| 0 <= k < |g| && g[k] == r;
      ArchivedAt(m, now, g, |g|, summary, r.id);
    }
    forall id | id !in IdsOf(g) ensures (id in m' <==> id in m) && (id in m ==> m'[id] == m[id]) {
      ArchivedElsewhere(m, now, g, summary, id);
    }
    assert m'.Keys == before.Keys + {summary};
  }

  lemma ArchivedElsewhere(m: Store, now: Time, g: seq<Record>, summary: Id, id: Id)
    requires id !in IdsOf(g) && forall k, l :: 0 <= k < l < |g| ==> g[k].id != g[l].id
    ensures var m' := ArchivedAll(m, now, g, |g|, summary);
      (id in m' <==> id in m) && (id in m ==> m'[id] == m[id])
  {
    ArchivedAt(m, now, g, |g|, summary, id);
    forall k | 0 <= k < |g| ensures g[k].id != id {
      assert g[k] in g;
    }
  }

  function Event(kind: EventKind, r: Record, reason: Reason, now: Time): AuditEvent {
    AuditEvent(kind, r.tenant, r.user, r.id, reason, now)
  }

  function ArchiveEvents(g: seq<Record>, summary: Id, now: Time): (events: seq<AuditEvent>)
    ensures |events| == |g|
    ensures forall i :: 0 <= i < |g| ==> events[i] == Event(ArchivedEvent, g[i], ConsolidatedInto(summary), now)
  {
    seq(|g|, i requires 0 <= i < |g| => Event(ArchivedEvent, g[i], ConsolidatedInto(summary), now))
  }

  /** The audit of one consolidation: the summary, then every source. */
  function ConsolidationEvents(g: seq<Record>, summary: Id, now: Time): seq<AuditEvent>
    requires g != []
  {
    [Event(Compressed, SummaryOf(g, summary, now), SourceCount(|g|), now)] + ArchiveEvents(g, summary, now)
  }

  lemma {:induction false} CountSame(events: seq<AuditEvent>, common: EventKind, kind: EventKind)
    requires forall e :: e in events ==> e.kind == common
    ensures CountKind(events, kind) == if kind == common then |events| else 0
  {
    if events != [] {
      CountSame(events[..|events| - 1], common, kind);
    }
  }

  lemma CountConsolidation(g: seq<Record>, summary: Id, now: Time, kind: EventKind)
    requires g != []
    ensures CountKind(ConsolidationEvents(g, summary, now), kind) ==
      if kind == Compressed then 1 else if kind == ArchivedEvent then |g| else 0
  {
    var archived := ArchiveEvents(g, summary, now);
    var first := [Event(Compressed, SummaryOf(g, summary, now), SourceCount(|g|), now)];
    CountSame(archived, ArchivedEvent, kind);
    CountSame(first, Compressed, kind);
    CountKindAdds(first, archived, kind);
  }

  // ---------------------------------------------------------------- consolidating every group

  predicate NoneEmpty(groups: seq<seq<Record>>) {
    forall k :: 0 <= k < |groups| ==> groups[k] != []
  }

  lemma GroupsNotEmpty(m: Store, p: Policy, now: Time, groups: seq<seq<Record>>)
    requires AreGroups(m, p, now, groups)
    ensures NoneEmpty(groups)
  {
    forall k | 0 <= k < |groups| ensures groups[k] != [] {
      assert IsGroup(m, p, now, groups[k]);
    }
  }

  /** The first groups are consolidated, each into its own new summary, and nothing else has changed. */
  ghost predicate Halfway(before: Store, mid: Store, now: Time, groups: seq<seq<Record>>, summaries: seq<Id>)
    requires |summaries| <= |groups| && NoneEmpty(groups)
  {
    && OnlySummariesNew(before, mid, summaries)
    && SummariesStored(mid, now, groups, summaries)
    && SourcesArchived(before, mid, now, groups, summaries)
    && SameUngrouped(before, mid, groups, |summaries|)
  }

  /** The store has gained the summaries, under ids of their own, and lost nothing. */
  ghost predicate OnlySummariesNew(before: Store, mid: Store, summaries: seq<Id>) {
    && Distinct(summaries) && (forall id :: id in summaries ==> id !in before)
    && mid.Keys == before.Keys + SetOf(summaries)
  }

  ghost predicate SameUngrouped(before: Store, m: Store, groups: seq<seq<Record>>, i: nat)
    requires i <= |groups|
  {
    forall id :: id in before && !InGroup(groups[..i], id) ==> id in m && m[id] == before[id]
  }

  ghost predicate SummariesStored(m: Store, now: Time, groups: seq<seq<Record>>, summaries: seq<Id>)
    requires |summaries| <= |groups| && NoneEmpty(groups)
  {
    forall k :: 0 <= k < |summaries| ==> summaries[k] in m && m[summaries[k]] == SummaryOf(groups[k], summaries[k], now)
  }

  ghost predicate SourcesArchived(before: Store, m: Store, now: Time, groups: seq<seq<Record>>, summaries: seq<Id>)
    requires |summaries| <= |groups|
  {
    forall k :: 0 <= k < |summaries| ==> GroupArchived(before, m, now, groups[k], summaries[k])
  }

  ghost predicate GroupArchived(before: Store, m: Store, now: Time, g: seq<Record>, summary: Id) {
    forall r :: r in g ==> r.id in before && r.id in m && m[r.id] == Archived(r, now, ConsolidatedInto(summary))
  }

  lemma ArchivedKept(before: Store, mid: Store, mid': Store, now: Time, g: seq<Record>, summary: Id, h: seq<Record>, next: Id)
    requires GroupArchived(before, mid, now, g, summary)
    requires h != [] && Consolidation(mid, mid', now, h, next)
    requires forall r :: r in g ==> r.id !in IdsOf(h)
    ensures GroupArchived(before, mid', now, g, summary)
  {
  }

  /** A later group's records are still as they were planned. */
  lemma StillToConsolidate(p: Policy, now: Time, before: Store, mid: Store, groups: seq<seq<Record>>, summaries: seq<Id>)
    requires StoreOk(before) && AreGroups(before, p, now, groups) && |summaries| < |groups|
    requires NoneEmpty(groups)
    requires Halfway(before, mid, now, groups, summaries)
    ensures Current(mid, now, groups[|summaries|]) == groups[|summaries|]
  {
    var i := |summaries|;
    assert IsGroup(before, p, now, groups[i]);
    forall r | r in groups[i] ensures r.id in mid && mid[r.id] == r && Compressible(now, r) {
      var j :| 0 <= j < |groups[i]| && groups[i][j] == r;
      NotYetGrouped(before, p, now, groups, i, j);
      assert r.id !in GroupIds(groups[..i]);
    }
    CurrentAll(mid, now, groups[i]);
  }

  lemma GroupStored(m: Store, p: Policy, now: Time, groups: seq<seq<Record>>, i: nat)
    requires AreGroups(m, p, now, groups) && i < |groups|
    ensures forall r :: r in groups[i] ==> r.id in m
  {
    assert IsGroup(m, p, now, groups[i]);
  }

  lemma SummariesNext(before: Store, mid: Store, mid': Store, now: Time,
                      groups: seq<seq<Record>>, summaries: seq<Id>, summary: Id)
    requires NoneEmpty(groups) && |summaries| < |groups|
    requires SummariesStored(mid, now, groups, summaries) && (forall id :: id in summaries ==> id !in before)
    requires forall r :: r in groups[|summaries|] ==> r.id in before
    requires Consolidation(mid, mid', now, groups[|summaries|], summary)
    ensures SummariesStored(mid', now, groups, summaries + [summary])
  {
    var summaries' := summaries + [summary];
    forall k | 0 <= k < |summaries'|
      ensures summaries'[k] in mid' && mid'[summaries'[k]] == SummaryOf(groups[k], summaries'[k], now)
    {
      if k < |summaries| {
        assert summaries[k] in summaries;
      }
    }
  }

  lemma SourcesNext(p: Policy, now: Time, before: Store, mid: Store, mid': Store,
                    groups: seq<seq<Record>>, summaries: seq<Id>, summary: Id)
    requires StoreOk(before) && AreGroups(before, p, now, groups) && NoneEmpty(groups) && |summaries| < |groups|
    requires SourcesArchived(before, mid, now, groups, summaries)
    requires Consolidation(mid, mid', now, groups[|summaries|], summary)
    ensures SourcesArchived(before, mid', now, groups, summaries + [summary])
  {
    var i := |summaries|;
    var summaries' := summaries + [summary];
    assert IsGroup(before, p, now, groups[i]);
    forall k | 0 <= k < |summaries'| ensures GroupArchived(before, mid', now, groups[k], summaries'[k]) {
      if k < i {
        GroupsAreDisjoint(before, p, now, groups, k, i);
        ArchivedKept(before, mid, mid', now, groups[k], summaries[k], groups[i], summary);
      }
    }
  }

  lemma OnlySummariesNext(before: Store, mid: Store, mid': Store, summaries: seq<Id>, summary: Id)
    requires OnlySummariesNew(before, mid, summaries)
    requires summary !in mid && mid'.Keys == mid.Keys + {summary}
    ensures OnlySummariesNew(before, mid', summaries + [summary])
  {
    DistinctAppend(summaries, summary);
    assert SetOf(summaries + [summary]) == SetOf(summaries) + {summary};
  }

  lemma UngroupedNext(before: Store, mid: Store, mid': Store, now: Time, groups: seq<seq<Record>>, i: nat, summary: Id, next: nat)
    requires i < |groups| && groups[i] != [] && Consolidation(mid, mid', now, groups[i], summary)
    requires SameUngrouped(before, mid, groups, i) && next == i + 1
    ensures SameUngrouped(before, mid', groups, next)
  {
    GroupIdsNext(groups, i);
    forall id | id in before && !InGroup(groups[..next], id) ensures id in mid' && mid'[id] == before[id] {
      assert id !in GroupIds(groups[..i + 1]);
    }
  }

  /** The part of the step that needs nothing but the summaries' ids and the records outside the groups. */
  lemma OutsideNext(before: Store, mid: Store, mid': Store, now: Time, groups: seq<seq<Record>>, summaries: seq<Id>, summary: Id)
    requires |summaries| < |groups| && groups[|summaries|] != []
    requires Consolidation(mid, mid', now, groups[|summaries|], summary)
    requires OnlySummariesNew(before, mid, summaries) && SameUngrouped(before, mid, groups, |summaries|)
    ensures OnlySummariesNew(before, mid', summaries + [summary])
    ensures SameUngrouped(before, mid', groups, |summaries + [summary]|)
  {
    OnlySummariesNext(before, mid, mid', summaries, summary);
    UngroupedNext(before, mid, mid', now, groups, |summaries|, summary, |summaries + [summary]|);
  }

  /** The part that needs the groups to be disjoint and stored. */
  lemma InsideNext(p: Policy, now: Time, before: Store, mid: Store, mid': Store,
                   groups: seq<seq<Record>>, summaries: seq<Id>, summary: Id)
    requires StoreOk(before) && AreGroups(before, p, now, groups) && NoneEmpty(groups) && |summaries| < |groups|
    requires forall id :: id in summaries ==> id !in before
    requires SummariesStored(mid, now, groups, summaries) && SourcesArchived(before, mid, now, groups, summaries)
    requires Consolidation(mid, mid', now, groups[|summaries|], summary)
    ensures SummariesStored(mid', now, groups, summaries + [summary])
    ensures SourcesArchived(before, mid', now, groups, summaries + [summary])
  {
    GroupStored(before, p, now, groups, |summaries|);
    SourcesNext(p, now, before, mid, mid', groups, summaries, summary);
    SummariesNext(before, mid, mid', now, groups, summaries, summary);
  }

  lemma ConsolidateNext(p: Policy, now: Time, before: Store, mid: Store, mid': Store,
                        groups: seq<seq<Record>>, summaries: seq<Id>, summary: Id)
    requires StoreOk(before) && AreGroups(before, p, now, groups) && NoneEmpty(groups) && |summaries| < |groups|
    requires Halfway(before, mid, now, groups, summaries)
    requires Consolidation(mid, mid', now, groups[|summaries|], summary)
    ensures Halfway(before, mid', now, groups, summaries + [summary])
  {
    InsideNext(p, now, before, mid, mid', groups, summaries, summary);
    OutsideNext(before, mid, mid', now, groups, summaries, summary);
  }

  ghost function GroupEvents(groups: seq<seq<Record>>, summaries: seq<Id>, now: Time): seq<AuditEvent>
    requires |summaries| <= |groups| && NoneEmpty(groups)
  {
    if summaries == [] then []
    else
      var n := |summaries| - 1;
      GroupEvents(groups, summaries[..n], now) + ConsolidationEvents(groups[n], summaries[n], now)
  }

  lemma GroupEventsNext(groups: seq<seq<Record>>, summaries: seq<Id>, summary: Id, now: Time)
    requires |summaries| < |groups| && NoneEmpty(groups)
    ensures GroupEvents(groups, summaries + [summary], now)
            == GroupEvents(groups, summaries, now) + ConsolidationEvents(groups[|summaries|], summary, now)
  {
    assert (summaries + [summary])[..|summaries|] == summaries;
  }

  /** One compression event a group, and archive events otherwise. */
  ghost predicate GroupTally(events: seq<AuditEvent>, compressed: nat, archived: nat) {
    forall kind :: CountKind(events, kind) == if kind == Compressed then compressed else if kind == ArchivedEvent then archived else 0
  }

  lemma GroupTallyNext(events: seq<AuditEvent>, compressed: nat, archived: nat, g: seq<Record>, summary: Id, now: Time)
    requires GroupTally(events, compressed, archived) && g != []
    ensures GroupTally(events + ConsolidationEvents(g, summary, now), compressed + 1, archived + |g|)
  {
    forall kind
      ensures CountKind(events + ConsolidationEvents(g, summary, now), kind)
              == if kind == Compressed then compressed + 1 else if kind == ArchivedEvent then archived + |g| else 0
    {
      CountKindAdds(events, ConsolidationEvents(g, summary, now), kind);
      CountConsolidation(g, summary, now, kind);
    }
  }

  /** The audit so far and the tally of it, after one more group. */
  lemma GroupAudited(start: seq<AuditEvent>, audit: seq<AuditEvent>, audit': seq<AuditEvent>, groups: seq<seq<Record>>,
                     summaries: seq<Id>, summary: Id, now: Time, compressed: nat, archived: nat)
    requires |summaries| < |groups| && NoneEmpty(groups)
    requires audit == start + GroupEvents(groups, summaries, now)
    requires audit' == audit + ConsolidationEvents(groups[|summaries|], summary, now)
    requires GroupTally(GroupEvents(groups, summaries, now), compressed, archived)
    ensures audit' == start + GroupEvents(groups, summaries + [summary], now)
    ensures GroupTally(GroupEvents(groups, summaries + [summary], now), compressed + 1, archived + |groups[|summaries|]|)
  {
    GroupEventsNext(groups, summaries, summary, now);
    GroupTallyNext(GroupEvents(groups, summaries, now), compressed, archived, groups[|summaries|], summary, now);
    Associate(start, GroupEvents(groups, summaries, now), ConsolidationEvents(groups[|summaries|], summary, now));
  }

  /** The first groups are consolidated, audited and counted. */
  ghost predicate Consolidating(before: Store, mid: Store, start: seq<AuditEvent>, audit: seq<AuditEvent>, now: Time,
                                groups: seq<seq<Record>>, summaries: seq<Id>, compressed: nat, archived: nat)
    requires |summaries| <= |groups| && NoneEmpty(groups)
  {
    && Halfway(before, mid, now, groups, summaries) && compressed == |summaries|
    && audit == start + GroupEvents(groups, summaries, now)
    && GroupTally(GroupEvents(groups, summaries, now), compressed, archived)
  }

  lemma ConsolidatingNext(before: Store, mid: Store, mid': Store, start: seq<AuditEvent>, audit: seq<AuditEvent>, audit': seq<AuditEvent>,
                          now: Time, groups: seq<seq<Record>>, summaries: seq<Id>, summary: Id, compressed: nat, archived: nat)
    requires |summaries| < |groups| && NoneEmpty(groups)
    requires Consolidating(before, mid, start, audit, now, groups, summaries, compressed, archived)
    requires Halfway(before, mid', now, groups, summaries + [summary])
    requires audit' == audit + ConsolidationEvents(groups[|summaries|], summary, now)
    ensures Consolidating(before, mid', start, audit', now, groups, summaries + [summary], compressed + 1, archived + |groups[|summaries|]|)
  {
    GroupAudited(start, audit, audit', groups, summaries, summary, now, compressed, archived);
  }

  // ---------------------------------------------------------------- applying the other decisions

  /** What applying a decision to a record is recorded as, if it does anything. */
  function Effect(p: Policy, now: Time, r: Record, d: RetentionDecision): Option<EventKind> {
    if d.protected || Protected(r) then None
    else if d.action in {ArchiveIt, Tombstone, Purge} && !StillValid(p, now, r, d) then None
    else
      match d.action
      case ArchiveIt => Some(ArchivedEvent)
      case Tombstone => Some(TombstonedEvent)
      case Purge => Some(PurgedEvent)
      case CoolDown => Some(CooledDown)
      case _ => None
  }

  function EffectEvents(p: Policy, now: Time, r: Record, d: RetentionDecision): seq<AuditEvent> {
    match Effect(p, now, r, d)
    case Some(kind) => [Event(kind, r, d.reason, now)]
    case None => []
  }

  ghost function DecisionEvents(p: Policy, now: Time, m: Store, ds: seq<RetentionDecision>): seq<AuditEvent>
    requires forall d :: d in ds ==> d.memoryId in m
  {
    if ds == [] then []
    else
      var n := |ds| - 1;
      assert ds[n] in ds;
      DecisionEvents(p, now, m, ds[..n]) + EffectEvents(p, now, m[ds[n].memoryId], ds[n])
  }

  ghost predicate DistinctTargets(ds: seq<RetentionDecision>) {
    forall i, j :: 0 <= i < j < |ds| ==> ds[i].memoryId != ds[j].memoryId
  }

  /** The first `j` decisions are applied and no other record of `mid` has changed. */
  ghost predicate Applied(p: Policy, now: Time, mid: Store, current: Store, ds: seq<RetentionDecision>, j: nat)
    requires j <= |ds|
  {
    && (forall i :: 0 <= i < j ==>
          ds[i].memoryId in mid && Becomes(current, ds[i].memoryId, Outcome(p, now, mid[ds[i].memoryId], ds[i])))
    && (forall id :: id in current ==> id in mid)
    && (forall id :: id in mid && (forall i :: 0 <= i < j ==> ds[i].memoryId != id) ==> id in current && current[id] == mid[id])
  }

  ghost predicate SameExcept(before: Store, after: Store, id: Id) {
    && (forall k :: k != id ==> (k in before <==> k in after))
    && (forall k :: k != id && k in before ==> after[k] == before[k])
  }

  lemma ApplyNext(p: Policy, now: Time, mid: Store, current: Store, current': Store, ds: seq<RetentionDecision>, j: nat)
    requires j < |ds| && DistinctTargets(ds) && ds[j].memoryId in mid
    requires Applied(p, now, mid, current, ds, j)
    requires SameExcept(current, current', ds[j].memoryId)
    requires Becomes(current', ds[j].memoryId, Outcome(p, now, mid[ds[j].memoryId], ds[j]))
    ensures Applied(p, now, mid, current', ds, j + 1)
  {
    forall i | 0 <= i < j + 1
      ensures ds[i].memoryId in mid && Becomes(current', ds[i].memoryId, Outcome(p, now, mid[ds[i].memoryId], ds[i]))
    {
      if i < j {
        assert ds[i].memoryId != ds[j].memoryId;
      }
    }
    forall id | id in mid && (forall i :: 0 <= i < j + 1 ==> ds[i].memoryId != id)
      ensures id in current' && current'[id] == mid[id]
    {
      assert ds[j].memoryId != id;
      assert forall i :: 0 <= i < j ==> ds[i].memoryId != id;
    }
  }

  lemma NotYetApplied(p: Policy, now: Time, mid: Store, current: Store, ds: seq<RetentionDecision>, j: nat)
    requires j < |ds| && DistinctTargets(ds) && ds[j].memoryId in mid && Applied(p, now, mid, current, ds, j)
    ensures ds[j].memoryId in current && current[ds[j].memoryId] == mid[ds[j].memoryId]
  {
    assert forall i :: 0 <= i < j ==> ds[i].memoryId != ds[j].memoryId;
  }

  /** A decision shrinks the store exactly if its effect is a purge. */
  lemma SizeAfter(p: Policy, now: Time, before: Store, after: Store, d: RetentionDecision)
    requires d.memoryId in before && SameExcept(before, after, d.memoryId)
    requires Becomes(after, d.memoryId, Outcome(p, now, before[d.memoryId], d))
    ensures |after| == |before| - if Effect(p, now, before[d.memoryId], d) == Some(PurgedEvent) then 1 else 0
  {
    if d.memoryId in after {
      assert after.Keys == before.Keys;
    } else {
      assert after.Keys == before.Keys - {d.memoryId};
    }
    assert |after| == |after.Keys| && |before| == |before.Keys|;
  }

  lemma DecisionEventsNext(p: Policy, now: Time, m: Store, ds: seq<RetentionDecision>, i: nat)
    requires i < |ds| && forall k :: 0 <= k < |ds| ==> ds[k].memoryId in m
    ensures DecisionEvents(p, now, m, ds[..i + 1]) == DecisionEvents(p, now, m, ds[..i]) + EffectEvents(p, now, m[ds[i].memoryId], ds[i])
  {
    assert ds[..i + 1][..i] == ds[..i];
  }

  lemma EffectCount(p: Policy, now: Time, r: Record, d: RetentionDecision, events: seq<AuditEvent>, kind: EventKind)
    ensures CountKind(events + EffectEvents(p, now, r, d), kind)
            == CountKind(events, kind) + if Effect(p, now, r, d) == Some(kind) then 1 else 0
  {
    CountKindAdds(events, EffectEvents(p, now, r, d), kind);
  }

  // ---------------------------------------------------------------- the whole pass

  lemma MidSize(before: Store, mid: Store, now: Time, groups: seq<seq<Record>>, summaries: seq<Id>)
    requires NoneEmpty(groups) && |summaries| == |groups| && Halfway(before, mid, now, groups, summaries)
    ensures |mid| == |before| + |groups|
  {
    DistinctSize(summaries);
    assert before.Keys !! SetOf(summaries);
    assert |mid| == |mid.Keys| && |before| == |before.Keys|;
  }

  lemma TargetsStored(m: Store, p: Policy, now: Time, groups: seq<seq<Record>>, displaced: set<Id>, ds: seq<RetentionDecision>)
    requires Decided(m, p, now, groups, displaced, ds)
    ensures DistinctTargets(ds) && forall d :: d in ds ==> d.memoryId in m
  {
    forall d | d in ds ensures d.memoryId in m {
      var i :| 0 <= i < |ds| && ds[i] == d;
    }
  }

  lemma CompressKeeps(p: Policy, now: Time, r: Record, d: RetentionDecision)
    requires d.action.Compress?
    ensures Outcome(p, now, r, d) == Some(r)
  {
  }

  lemma UngroupedSame(before: Store, mid: Store, now: Time, groups: seq<seq<Record>>, summaries: seq<Id>)
    requires NoneEmpty(groups) && |summaries| == |groups| && Halfway(before, mid, now, groups, summaries)
    ensures forall id :: id in before && !InGroup(groups, id) ==> id in mid && mid[id] == before[id]
  {
    assert groups[..|summaries|] == groups;
  }

  lemma EventsOfOne(p: Policy, now: Time, before: Store, mid: Store, groups: seq<seq<Record>>, displaced: set<Id>, d: RetentionDecision)
    requires d.memoryId in before && d.memoryId in mid
    requires StoreOk(before) && d == DecisionFor(p, now, groups, displaced, before[d.memoryId])
    requires !InGroup(groups, d.memoryId) ==> mid[d.memoryId] == before[d.memoryId]
    ensures EffectEvents(p, now, mid[d.memoryId], d) == EffectEvents(p, now, before[d.memoryId], d)
  {
  }

  /** Decisions for consolidated records leave no event, so events follow from the store as it was planned. */
  lemma {:induction false} EventsFromPlan(p: Policy, now: Time, before: Store, mid: Store, groups: seq<seq<Record>>,
                                          displaced: set<Id>, ds: seq<RetentionDecision>)
    requires StoreOk(before) && Right(before, p, now, groups, displaced, ds)
    requires forall d :: d in ds ==> d.memoryId in before && d.memoryId in mid
    requires forall id :: id in before && id in mid && !InGroup(groups, id) ==> mid[id] == before[id]
    ensures DecisionEvents(p, now, mid, ds) == DecisionEvents(p, now, before, ds)
  {
    if ds != [] {
      var n := |ds| - 1;
      assert ds[n] in ds;
      EventsFromPlan(p, now, before, mid, groups, displaced, ds[..n]);
      EventsOfOne(p, now, before, mid, groups, displaced, ds[n]);
    }
  }

  lemma EveryRecordAsDecided(p: Policy, now: Time, before: Store, mid: Store, after: Store, groups: seq<seq<Record>>,
                   summaries: seq<Id>, displaced: set<Id>, ds: seq<RetentionDecision>)
    requires StoreOk(before) && AreGroups(before, p, now, groups) && IsDisplacement(before, p, groups, displaced)
    requires Decided(before, p, now, groups, displaced, ds)
    requires NoneEmpty(groups)
    requires |summaries| == |groups| && Halfway(before, mid, now, groups, summaries)
    requires Applied(p, now, mid, after, ds, |ds|)
    ensures IsPass(p, now, before, after, groups, summaries, displaced)
  {
    assert groups[..|summaries|] == groups;
    forall k | 0 <= k < |groups|
      ensures summaries[k] in after && after[summaries[k]] == SummaryOf(groups[k], summaries[k], now)
    {
      assert summaries[k] in summaries;
    }
    forall id | id in before
      ensures Becomes(after, id, Outcome(p, now, mid[id], DecisionFor(p, now, groups, displaced, before[id])))
    {
      var i :| 0 <= i < |ds| && ds[i].memoryId == id;
    }
    forall k, r | 0 <= k < |groups| && r in groups[k]
      ensures r.id in after && after[r.id] == Archived(r, now, ConsolidatedInto(summaries[k]))
    {
      MemberInGroup(groups, k, r);
      assert IsGroup(before, p, now, groups[k]);
      CompressKeeps(p, now, mid[r.id], DecisionFor(p, now, groups, displaced, before[r.id]));
    }
  }

  /** Consolidation and then every decision carried out make a maintained store, audited as planned. */
  lemma CarriedOut(p: Policy, now: Time, before: Store, mid: Store, after: Store, groups: seq<seq<Record>>,
                   summaries: seq<Id>, displaced: set<Id>, ds: seq<RetentionDecision>)
    requires StoreOk(before) && AreGroups(before, p, now, groups) && IsDisplacement(before, p, groups, displaced)
    requires Decided(before, p, now, groups, displaced, ds)
    requires forall d :: d in ds ==> d.memoryId in before && d.memoryId in mid
    requires NoneEmpty(groups)
    requires |summaries| == |groups| && Halfway(before, mid, now, groups, summaries)
    requires Applied(p, now, mid, after, ds, |ds|)
    ensures IsPass(p, now, before, after, groups, summaries, displaced)
    ensures DecisionEvents(p, now, mid, ds) == DecisionEvents(p, now, before, ds)
  {
    UngroupedSame(before, mid, now, groups, summaries);
    EventsFromPlan(p, now, before, mid, groups, displaced, ds);
    EveryRecordAsDecided(p, now, before, mid, after, groups, summaries, displaced, ds);
  }

  /** The audit of a whole pass, from the store as it was planned. */
  ghost function PassEvents(p: Policy, now: Time, before: Store, groups: seq<seq<Record>>, summaries: seq<Id>,
                            ds: seq<RetentionDecision>): seq<AuditEvent>
    requires |summaries| <= |groups| && NoneEmpty(groups) && forall d :: d in ds ==> d.memoryId in before
  {
    GroupEvents(groups, summaries, now) + DecisionEvents(p, now, before, ds)
  }

  ghost predicate Mentions(events: seq<AuditEvent>, id: Id) {
    exists e :: e in events && e.memoryId == id
  }

  lemma MentionedInEither(a: seq<AuditEvent>, b: seq<AuditEvent>, id: Id)
    requires Mentions(a, id) || Mentions(b, id)
    ensures Mentions(a + b, id)
  {
    var e :| (e in a || e in b) && e.memoryId == id;
    assert e in a + b;
  }

  lemma SourceMentioned(g: seq<Record>, summary: Id, now: Time, r: Record)
    requires g != [] && r in g
    ensures Mentions(ConsolidationEvents(g, summary, now), r.id)
  {
    var j :| 0 <= j < |g| && g[j] == r;
    var archived := ArchiveEvents(g, summary, now);
    assert archived[j] in archived;
    MentionedInEither([Event(Compressed, SummaryOf(g, summary, now), SourceCount(|g|), now)], archived, r.id);
  }

  lemma LastGroupMentioned(groups: seq<seq<Record>>, summaries: seq<Id>, now: Time, r: Record)
    requires 0 < |summaries| <= |groups| && NoneEmpty(groups) && r in groups[|summaries| - 1]
    ensures Mentions(GroupEvents(groups, summaries, now), r.id)
  {
    var n := |summaries| - 1;
    SourceMentioned(groups[n], summaries[n], now, r);
    MentionedInEither(GroupEvents(groups, summaries[..n], now), ConsolidationEvents(groups[n], summaries[n], now), r.id);
  }

  lemma EarlierMentioned(groups: seq<seq<Record>>, summaries: seq<Id>, now: Time, id: Id)
    requires 0 < |summaries| <= |groups| && NoneEmpty(groups)
    requires Mentions(GroupEvents(groups, summaries[..|summaries| - 1], now), id)
    ensures Mentions(GroupEvents(groups, summaries, now), id)
  {
    var n := |summaries| - 1;
    MentionedInEither(GroupEvents(groups, summaries[..n], now), ConsolidationEvents(groups[n], summaries[n], now), id);
  }

  lemma {:induction false} GroupMembersMentioned(groups: seq<seq<Record>>, summaries: seq<Id>, now: Time, k: nat, r: Record)
    requires k < |summaries| <= |groups| && NoneEmpty(groups) && r in groups[k]
    ensures Mentions(GroupEvents(groups, summaries, now), r.id)
  {
    if k < |summaries| - 1 {
      GroupMembersMentioned(groups, summaries[..|summaries| - 1], now, k, r);
      EarlierMentioned(groups, summaries, now, r.id);
    } else {
      LastGroupMentioned(groups, summaries, now, r);
    }
  }

  lemma {:induction false} TargetMentioned(p: Policy, now: Time, m: Store, ds: seq<RetentionDecision>, i: nat)
    requires (forall d :: d in ds ==> d.memoryId in m) && StoreOk(m) && i < |ds|
    requires Effect(p, now, m[ds[i].memoryId], ds[i]).Some?
    ensures Mentions(DecisionEvents(p, now, m, ds), ds[i].memoryId)
  {
    var n := |ds| - 1;
    if i < n {
      TargetMentioned(p, now, m, ds[..n], i);
      var e :| e in DecisionEvents(p, now, m, ds[..n]) && e.memoryId == ds[i].memoryId;
      assert e in DecisionEvents(p, now, m, ds);
    } else {
      var events := EffectEvents(p, now, m[ds[n].memoryId], ds[n]);
      assert events[0] in DecisionEvents(p, now, m, ds);
    }
  }

  /** A decision that changes its record has an effect. */
  lemma ChangeMentioned(p: Policy, now: Time, before: Store, after: Store, groups: seq<seq<Record>>, displaced: set<Id>,
                        ds: seq<RetentionDecision>, id: Id)
    requires StoreOk(before) && Decided(before, p, now, groups, displaced, ds) && forall d :: d in ds ==> d.memoryId in before
    requires id in before && (id in after ==> after[id] != before[id])
    requires Becomes(after, id, Outcome(p, now, before[id], DecisionFor(p, now, groups, displaced, before[id])))
    ensures Mentions(DecisionEvents(p, now, before, ds), id)
  {
    var i :| 0 <= i < |ds| && ds[i].memoryId == id;
    TargetMentioned(p, now, before, ds, i);
  }

  /** No record of the store changes or disappears without an event that names it. */
  lemma ChangesAreAudited(p: Policy, now: Time, before: Store, after: Store, groups: seq<seq<Record>>, summaries: seq<Id>,
                          displaced: set<Id>, ds: seq<RetentionDecision>, id: Id)
    requires IsPass(p, now, before, after, groups, summaries, displaced) && Decided(before, p, now, groups, displaced, ds)
    requires NoneEmpty(groups) && forall d :: d in ds ==> d.memoryId in before
    requires id in before && (id in after ==> after[id] != before[id])
    ensures Mentions(PassEvents(p, now, before, groups, summaries, ds), id)
  {
    if InGroup(groups, id) {
      var k := GroupedRecord(before, p, now, groups, id);
      GroupMembersMentioned(groups, summaries, now, k, before[id]);
    } else {
      ChangeMentioned(p, now, before, after, groups, displaced, ds, id);
    }
    MentionedInEither(GroupEvents(groups, summaries, now), DecisionEvents(p, now, before, ds), id);
  }

  /** Every event is of exactly one kind. */
  lemma {:induction false} KindsPartition(events: seq<AuditEvent>)
    ensures |events| == CountKind(events, Compressed) + CountKind(events, ArchivedEvent)
                        + CountKind(events, TombstonedEvent) + CountKind(events, PurgedEvent) + CountKind(events, CooledDown)
  {
    if events != [] {
      KindsPartition(events[..|events| - 1]);
    }
  }
}

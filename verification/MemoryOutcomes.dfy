/** What a carried-out maintenance pass means record by record and event by event, in the records' own terms. */
module MemoryOutcomes {
  import opened Prelude
  import opened Ordering
  import opened MemoryRetention
  import opened MemoryRepository
  import opened MemoryPlanning
  import opened MemoryExecution

  // ---------------------------------------------------------------- whose memory a summary is

  /** A summary belongs where its sources came from, cannot be lost to a later pass, and claims no more than they did. */
  lemma SummaryBelongs(p: Policy, now: Time, before: Store, after: Store, groups: seq<seq<Record>>, summaries: seq<Id>,
                       displaced: set<Id>, i: nat, r: Record)
    requires IsPass(p, now, before, after, groups, summaries, displaced) && i < |groups| && r in groups[i]
    ensures summaries[i] in after
    ensures var s := after[summaries[i]];
      && s.id == summaries[i] && s.tenant == r.tenant && s.user == r.user
      && s.project == r.project && s.conversation == r.conversation
      && s.locked && s.category.Summary? && s.period.Day? && s.layer.Episodic? && Active(s) && s.expiresAt.None?
      && !s.candidate && !s.disputed && s.heat == 0.8 && s.recallCount == 0
      && s.createdAt == now && s.updatedAt == now && s.lastRecalledAt.None?
      && !Compressible(now, s)
      && s.confidence <= 0.95 && (r.confidence <= s.confidence || s.confidence == 0.95)
      && (s.confidence == 0.95 || exists best :: best in groups[i] && best.confidence == s.confidence)
  {
    var g := groups[i];
    assert IsGroup(before, p, now, g) && after[summaries[i]] == SummaryOf(g, summaries[i], now);
    SameKey(before, p, now, g, r);
  }

  lemma SameKey(m: Store, p: Policy, now: Time, g: seq<Record>, r: Record)
    requires IsGroup(m, p, now, g) && r in g
    ensures r.tenant == g[0].tenant && r.user == g[0].user && r.project == g[0].project && r.conversation == g[0].conversation
  {
    assert KeyOf(r) == KeyOf(g[0]);
  }

  // ---------------------------------------------------------------- which records are consolidated

  /** Plain active memories: of no summary, not protected, not expired. */
  predicate Plain(now: Time, r: Record) {
    && !r.locked && !r.layer.Core? && !r.category.Summary? && r.period.NoPeriod?
    && r.deletedAt.None? && r.archivedAt.None? && (r.expiresAt.Some? ==> now < r.expiresAt.value)
  }

  /** Plain memories of one user, project, conversation and category. */
  ghost function Peers(m: Store, now: Time, r: Record): set<Id> {
    set id | id in m && Plain(now, m[id]) && m[id].tenant == r.tenant && m[id].user == r.user
             && m[id].project == r.project && m[id].conversation == r.conversation && m[id].category == r.category
  }

  lemma PeersAreCompressible(m: Store, now: Time, r: Record)
    ensures Peers(m, now, r) == CompressibleWith(m, now, KeyOf(r))
  {
  }

  /** A record is consolidated exactly if it is a plain memory with enough of its like. */
  lemma GroupedIff(m: Store, p: Policy, now: Time, groups: seq<seq<Record>>, id: Id)
    requires StoreOk(m) && AreGroups(m, p, now, groups) && id in m
    ensures InGroup(groups, id) <==> Plain(now, m[id]) && |Peers(m, now, m[id])| >= p.compressAfter
  {
    PeersAreCompressible(m, now, m[id]);
    if InGroup(groups, id) {
      var i := GroupedRecord(m, p, now, groups, id);
      assert IsGroup(m, p, now, groups[i]) && KeyOf(m[id]) == KeyOf(groups[i][0]);
      GroupIdsAreCompressible(m, p, now, groups[i]);
    } else if Plain(now, m[id]) && |Peers(m, now, m[id])| >= p.compressAfter {
      EnoughMeansGrouped(m, p, now, groups, id);
    }
  }

  // ---------------------------------------------------------------- which records are displaced

  /** Of an owner's counted records exactly as many stay as fit the limit. */
  lemma AsManyStayAsFit(m: Store, p: Policy, groups: seq<seq<Record>>, displaced: set<Id>, owner: (nat, nat))
    requires IsDisplacement(m, p, groups, displaced)
    ensures |Counted(m, groups, owner) - displaced| == Min(|Counted(m, groups, owner)|, p.maxActive)
  {
    SurplusOf(m, p, groups, displaced, owner);
    SplitSize(Counted(m, groups, owner), displaced);
  }

  /** Whoever stays is worth at least as much as whoever goes: by score, then heat, then the last update. */
  lemma KeptOutranksDisplaced(m: Store, p: Policy, groups: seq<seq<Record>>, displaced: set<Id>, gone: Id, kept: Id)
    requires IsDisplacement(m, p, groups, displaced) && gone in displaced && kept in m && kept !in displaced
    requires !InGroup(groups, kept) && Active(m[kept]) && !Protected(m[kept])
    ensures gone in m
    ensures m[gone].tenant == m[kept].tenant && m[gone].user == m[kept].user ==>
      || RetentionScore(m[gone]) < RetentionScore(m[kept])
      || (RetentionScore(m[gone]) == RetentionScore(m[kept]) && m[gone].heat < m[kept].heat)
      || (RetentionScore(m[gone]) == RetentionScore(m[kept]) && m[gone].heat == m[kept].heat
          && m[gone].updatedAt <= m[kept].updatedAt)
  {
    if OwnerOf(m[gone]) == OwnerOf(m[kept]) {
      assert kept in Counted(m, groups, OwnerOf(m[gone]));
    }
  }

  // ---------------------------------------------------------------- what scores and ages are

  /** Recalls count up to twenty. */
  function Recalls(r: Record): nat {
    if r.recallCount < 20 then r.recallCount else 20
  }

  function Mark(b: bool): real {
    if b then 1.0 else 0.0
  }

  /** What each component adds, between the bounds. */
  lemma ScoreParts(a: Record, b: Record)
    requires 0.0 < RetentionScore(a) < 1.0 && 0.0 < RetentionScore(b) < 1.0
    ensures RetentionScore(b) - RetentionScore(a) ==
      0.45 * (b.confidence - a.confidence) + 0.30 * (b.heat - a.heat)
      + 0.0075 * (Recalls(b) as real - Recalls(a) as real)
      + 0.05 * (Mark(b.sources != []) - Mark(a.sources != [])) + 0.20 * (Mark(Protected(b)) - Mark(Protected(a)))
      - 0.20 * (Mark(b.candidate) - Mark(a.candidate)) - 0.25 * (Mark(b.disputed) - Mark(a.disputed))
  {
  }

  /** Nothing for it and nothing against it is worth nothing. */
  lemma NothingScoresZero(r: Record)
    requires r.confidence == 0.0 && r.heat == 0.0 && r.recallCount == 0 && r.sources == [] && !Protected(r)
    ensures RetentionScore(r) == 0.0
  {
  }

  /** A day is twenty-four hours, and a day begun is not a day. */
  lemma WholeDays(from: Time, to: Time, n: int)
    ensures Days(from, to) >= n <==> to - from >= n * 24 * 60 * 60 * 1_000_000
  {
  }

  // ---------------------------------------------------------------- how a decision explains itself

  /** A decision names its record, its score and its one reason; protection lifts the score to what is kept. */
  lemma DecisionExplains(p: Policy, now: Time, r: Record)
    ensures var d, score := Evaluate(p, now, r), RetentionScore(r);
      var protected := r.locked || r.layer.Core?;
      && d.memoryId == r.id && d.protected == protected
      && d.score == (if protected && score < p.minScore then p.minScore else score)
      && (d.reason == ProtectedMemory <==> protected)
      && (d.reason == TombstoneWindowElapsed <==> !protected && r.deletedAt.Some? && Days(r.deletedAt.value, now) >= p.tombstonePurgeDays)
      && (d.reason == RecentTombstone <==> !protected && r.deletedAt.Some? && Days(r.deletedAt.value, now) < p.tombstonePurgeDays)
      && (d.reason == ArchiveWindowElapsed <==>
            !protected && r.deletedAt.None? && r.archivedAt.Some? && Days(r.archivedAt.value, now) >= p.archivePurgeDays)
      && (d.reason == ArchivedRetained <==>
            !protected && r.deletedAt.None? && r.archivedAt.Some? && Days(r.archivedAt.value, now) < p.archivePurgeDays)
      && (d.reason == ColdWindowElapsed <==> Open(r) && Idle(p, now, r))
      && (d.reason == LowScore <==> Open(r) && !Idle(p, now, r) && score < p.minScore)
      && (d.reason == ColdKept <==> Open(r) && !Idle(p, now, r) && score >= p.minScore && r.heat < 0.3)
      && (d.reason == ScoreSufficient <==> Open(r) && score >= p.minScore && r.heat >= 0.3)
  {
  }

  // ---------------------------------------------------------------- what becomes of a record

  /** Unprotected, neither tombstoned nor archived. */
  predicate Open(r: Record) {
    !r.locked && !r.layer.Core? && r.deletedAt.None? && r.archivedAt.None?
  }

  /** Cold for at least the window, counted from the last recall or, failing that, the last update. */
  predicate Idle(p: Policy, now: Time, r: Record) {
    r.heat < 0.3 && Days(if r.lastRecalledAt.Some? then r.lastRecalledAt.value else r.updatedAt, now) >= p.coldArchiveDays
  }

  ghost predicate IsArchived(p: Policy, now: Time, groups: seq<seq<Record>>, displaced: set<Id>, r: Record) {
    Open(r) && if InGroup(groups, r.id) then true
               else if r.id in displaced then RetentionScore(r) >= p.minScore
               else Idle(p, now, r)
  }

  ghost predicate IsTombstoned(p: Policy, now: Time, groups: seq<seq<Record>>, displaced: set<Id>, r: Record) {
    Open(r) && !InGroup(groups, r.id) && RetentionScore(r) < p.minScore && (r.id in displaced || !Idle(p, now, r))
  }

  ghost predicate IsCooled(p: Policy, now: Time, groups: seq<seq<Record>>, displaced: set<Id>, r: Record) {
    && Open(r) && !InGroup(groups, r.id) && r.id !in displaced
    && r.heat < 0.3 && !Idle(p, now, r) && RetentionScore(r) >= p.minScore
  }

  /** The record with the marks it gets and everything else as it was. */
  ghost predicate ChangedAsDue(p: Policy, now: Time, groups: seq<seq<Record>>, displaced: set<Id>, r: Record, r': Record) {
    var archived, tombstoned, cooled :=
      IsArchived(p, now, groups, displaced, r), IsTombstoned(p, now, groups, displaced, r), IsCooled(p, now, groups, displaced, r);
    && r' == r.(heat := r'.heat, updatedAt := r'.updatedAt, archivedAt := r'.archivedAt, archiveReason := r'.archiveReason,
                deletedAt := r'.deletedAt, tombstoneReason := r'.tombstoneReason)
    && r'.updatedAt == (if archived || tombstoned || cooled then now else r.updatedAt)
    && r'.archivedAt == (if archived then Some(now) else r.archivedAt)
    && r'.deletedAt == (if tombstoned then Some(now) else r.deletedAt)
    && r'.heat == (if !cooled then r.heat else if r.heat < 0.05 then 0.0 else r.heat - 0.05)
    && (!archived ==> r'.archiveReason == r.archiveReason)
    && (archived && !InGroup(groups, r.id) ==>
          r'.archiveReason == Some(if r.id in displaced then WorkingSetLimit else ColdWindowElapsed))
    && r'.tombstoneReason == (if !tombstoned then r.tombstoneReason
                              else Some(if r.id in displaced then WorkingSetLimit else LowScore))
  }

  lemma GroupedChange(p: Policy, now: Time, groups: seq<seq<Record>>, displaced: set<Id>, r: Record, summary: Id)
    requires InGroup(groups, r.id) && Compressible(now, r)
    ensures ChangedAsDue(p, now, groups, displaced, r, Archived(r, now, ConsolidatedInto(summary)))
  {
  }

  lemma DisplacedChange(p: Policy, now: Time, groups: seq<seq<Record>>, displaced: set<Id>, r: Record)
    requires !InGroup(groups, r.id) && r.id in displaced && Active(r) && !Protected(r)
    ensures var r' := Outcome(p, now, r, DecisionFor(p, now, groups, displaced, r));
      r'.Some? && ChangedAsDue(p, now, groups, displaced, r, r'.value)
  {
  }

  lemma OwnChange(p: Policy, now: Time, groups: seq<seq<Record>>, displaced: set<Id>, r: Record)
    requires !InGroup(groups, r.id) && r.id !in displaced
    ensures var r' := Outcome(p, now, r, Evaluate(p, now, r));
      r'.Some? ==> ChangedAsDue(p, now, groups, displaced, r, r'.value)
  {
  }

  /** Exactly how every record that is still there has changed. */
  lemma EveryChange(p: Policy, now: Time, before: Store, after: Store, groups: seq<seq<Record>>, summaries: seq<Id>,
                    displaced: set<Id>, id: Id)
    requires IsPass(p, now, before, after, groups, summaries, displaced) && id in before && id in after
    ensures ChangedAsDue(p, now, groups, displaced, before[id], after[id])
  {
    var r := before[id];
    if InGroup(groups, id) {
      var i := GroupedRecord(before, p, now, groups, id);
      assert after[id] == Archived(r, now, ConsolidatedInto(summaries[i]));
      GroupedChange(p, now, groups, displaced, r, summaries[i]);
    } else {
      assert Becomes(after, id, Outcome(p, now, r, DecisionFor(p, now, groups, displaced, r)));
      if id in displaced {
        assert id in Counted(before, groups, OwnerOf(r));
        DisplacedChange(p, now, groups, displaced, r);
      } else {
        OwnChange(p, now, groups, displaced, r);
      }
    }
  }

  // ---------------------------------------------------------------- what is looked at again before a step

  /** What a group is consolidated from are its records as they are now, as far as they are still plain memories. */
  lemma {:induction false} RereadIs(m: Store, now: Time, g: seq<Record>, r: Record)
    ensures r in Current(m, now, g) <==> exists was :: was in g && was.id in m && m[was.id] == r && Plain(now, r)
  {
    if g != [] {
      var n := |g| - 1;
      RereadIs(m, now, g[..n], r);
      assert g == g[..n] + [g[n]];
    }
  }

  /** A destructive step is skipped exactly if its record is protected or is by now to be dealt with otherwise. */
  lemma OutdatedIsSkipped(p: Policy, now: Time, r: Record, d: RetentionDecision)
    requires d.action in {ArchiveIt, Tombstone, Purge} && !d.protected
    requires d.action.ArchiveIt? ==> r.archivedAt != Some(now)
    requires d.action.Tombstone? ==> r.deletedAt != Some(now)
    ensures Outcome(p, now, r, d) == Some(r) <==>
      || r.locked || r.layer.Core?
      || if d.reason.WorkingSetLimit? then r.deletedAt.Some? || r.archivedAt.Some? else Evaluate(p, now, r).action != d.action
  {
  }

  // ---------------------------------------------------------------- what the audit says

  lemma {:induction false} FromSomeGroup(groups: seq<seq<Record>>, summaries: seq<Id>, now: Time, e: AuditEvent) returns (k: nat)
    requires |summaries| <= |groups| && NoneEmpty(groups) && e in GroupEvents(groups, summaries, now)
    ensures k < |summaries| && e in ConsolidationEvents(groups[k], summaries[k], now)
  {
    var n := |summaries| - 1;
    if e in ConsolidationEvents(groups[n], summaries[n], now) {
      k := n;
    } else {
      k := FromSomeGroup(groups, summaries[..n], now, e);
    }
  }

  lemma {:induction false} FromSomeDecision(p: Policy, now: Time, m: Store, ds: seq<RetentionDecision>, e: AuditEvent) returns (i: nat)
    requires (forall d :: d in ds ==> d.memoryId in m) && e in DecisionEvents(p, now, m, ds)
    ensures i < |ds| && ds[i].memoryId in m && e in EffectEvents(p, now, m[ds[i].memoryId], ds[i])
  {
    var n := |ds| - 1;
    assert ds[n] in ds;
    if e in EffectEvents(p, now, m[ds[n].memoryId], ds[n]) {
      i := n;
    } else {
      i := FromSomeDecision(p, now, m, ds[..n], e);
    }
  }

  /** The event names one of the summaries, its owner and the number of its sources. */
  ghost predicate NamesSummary(groups: seq<seq<Record>>, summaries: seq<Id>, e: AuditEvent)
    requires |summaries| == |groups|
  {
    exists i :: 0 <= i < |groups| && e.memoryId == summaries[i] && e.reason == SourceCount(|groups[i]|)
                && forall r :: r in groups[i] ==> e.tenant == r.tenant && e.user == r.user
  }

  /** The kind and the reason of an event say what became of the record, if anything is left of it. */
  ghost predicate Says(p: Policy, now: Time, groups: seq<seq<Record>>, displaced: set<Id>, r: Record,
                       kind: EventKind, reason: Reason, outcome: Option<Record>) {
    && (kind.ArchivedEvent? <==> IsArchived(p, now, groups, displaced, r))
    && (kind.TombstonedEvent? <==> IsTombstoned(p, now, groups, displaced, r))
    && (kind.CooledDown? <==> IsCooled(p, now, groups, displaced, r))
    && (kind.PurgedEvent? <==> outcome.None?) && !kind.Compressed?
    && (kind.ArchivedEvent? ==> outcome.Some? && outcome.value.archiveReason == Some(reason))
    && (kind.TombstonedEvent? ==> outcome.Some? && outcome.value.tombstoneReason == Some(reason))
  }

  function Left(after: Store, id: Id): Option<Record> {
    if id in after then Some(after[id]) else None
  }

  /** The event names a record and its owner, and says of it what became of it. */
  ghost predicate NamesChange(p: Policy, now: Time, before: Store, after: Store, groups: seq<seq<Record>>, displaced: set<Id>, e: AuditEvent) {
    && e.memoryId in before && e.tenant == before[e.memoryId].tenant && e.user == before[e.memoryId].user
    && Says(p, now, groups, displaced, before[e.memoryId], e.kind, e.reason, Left(after, e.memoryId))
  }

  lemma DisplacedSays(p: Policy, now: Time, groups: seq<seq<Record>>, displaced: set<Id>, r: Record, d: RetentionDecision)
    requires !InGroup(groups, r.id) && r.id in displaced && Active(r) && !Protected(r)
    requires d == DecisionFor(p, now, groups, displaced, r) && Effect(p, now, r, d).Some?
    ensures Says(p, now, groups, displaced, r, Effect(p, now, r, d).value, d.reason, Outcome(p, now, r, d))
  {
  }

  lemma OwnSays(p: Policy, now: Time, groups: seq<seq<Record>>, displaced: set<Id>, r: Record, d: RetentionDecision)
    requires !InGroup(groups, r.id) && r.id !in displaced
    requires d == Evaluate(p, now, r) && Effect(p, now, r, d).Some?
    ensures Says(p, now, groups, displaced, r, Effect(p, now, r, d).value, d.reason, Outcome(p, now, r, d))
  {
  }

  lemma GroupEventTrue(p: Policy, now: Time, before: Store, after: Store, groups: seq<seq<Record>>, summaries: seq<Id>,
                       displaced: set<Id>, k: nat, e: AuditEvent)
    requires IsPass(p, now, before, after, groups, summaries, displaced) && k < |groups|
    requires groups[k] != [] && e in ConsolidationEvents(groups[k], summaries[k], now)
    ensures e.createdAt == now
    ensures if e.kind.Compressed? then NamesSummary(groups, summaries, e) else NamesChange(p, now, before, after, groups, displaced, e)
  {
    var g := groups[k];
    assert IsGroup(before, p, now, g);
    if e == Event(Compressed, SummaryOf(g, summaries[k], now), SourceCount(|g|), now) {
      forall r | r in g ensures e.tenant == r.tenant && e.user == r.user {
        SameKey(before, p, now, g, r);
      }
    } else {
      var j :| 0 <= j < |g| && e == Event(ArchivedEvent, g[j], ConsolidatedInto(summaries[k]), now);
      assert g[j] in g;
      MemberInGroup(groups, k, g[j]);
      assert after[g[j].id] == Archived(g[j], now, ConsolidatedInto(summaries[k]));
    }
  }

  lemma DecisionEventTrue(p: Policy, now: Time, before: Store, after: Store, groups: seq<seq<Record>>, summaries: seq<Id>,
                          displaced: set<Id>, d: RetentionDecision, e: AuditEvent)
    requires IsPass(p, now, before, after, groups, summaries, displaced)
    requires d.memoryId in before && d == DecisionFor(p, now, groups, displaced, before[d.memoryId])
    requires e in EffectEvents(p, now, before[d.memoryId], d)
    ensures e.createdAt == now && !e.kind.Compressed? && NamesChange(p, now, before, after, groups, displaced, e)
  {
    var r := before[d.memoryId];
    var kind := Effect(p, now, r, d).value;
    assert !InGroup(groups, r.id);
    assert Becomes(after, r.id, Outcome(p, now, r, d));
    assert Left(after, r.id) == Outcome(p, now, r, d);
    if r.id in displaced {
      assert r.id in Counted(before, groups, OwnerOf(r));
      DisplacedSays(p, now, groups, displaced, r, d);
    } else {
      OwnSays(p, now, groups, displaced, r, d);
    }
    assert e == Event(kind, r, d.reason, now);
  }

  /** Every audit event of a pass is dated, names its memory and the owner of it, and says what became of it. */
  lemma EventsTellTheTruth(p: Policy, now: Time, before: Store, after: Store, groups: seq<seq<Record>>, summaries: seq<Id>,
                           displaced: set<Id>, ds: seq<RetentionDecision>, e: AuditEvent)
    requires IsPass(p, now, before, after, groups, summaries, displaced) && Decided(before, p, now, groups, displaced, ds)
    requires NoneEmpty(groups) && (forall d :: d in ds ==> d.memoryId in before)
    requires e in PassEvents(p, now, before, groups, summaries, ds)
    ensures e.createdAt == now
    ensures if e.kind.Compressed? then NamesSummary(groups, summaries, e) else NamesChange(p, now, before, after, groups, displaced, e)
  {
    if e in GroupEvents(groups, summaries, now) {
      var k := FromSomeGroup(groups, summaries, now, e);
      GroupEventTrue(p, now, before, after, groups, summaries, displaced, k, e);
    } else {
      var i := FromSomeDecision(p, now, before, ds, e);
      DecisionEventTrue(p, now, before, after, groups, summaries, displaced, ds[i], e);
    }
  }
}

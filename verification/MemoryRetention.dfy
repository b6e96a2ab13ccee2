/**
 * Memory retention: how one record is judged, what a maintenance pass plans for a whole store, and
 * what a plan carried out at the same clock means for every record.
 */
module MemoryRetention {
  import opened Prelude
  import opened Ordering

  type Id = nat
  /** Microseconds. */
  type Time = int

  const MICROSECONDS_PER_DAY := 86_400_000_000

  datatype Layer = Working | Episodic | Core
  datatype Category = Preference | Fact | Task | Summary | Decision | Lesson | Other
  datatype Period = NoPeriod | Day | Week | Month
  datatype Tier = Hot | Warm | Cold | Archive

  datatype Reason =
    | ProtectedMemory | TombstoneWindowElapsed | RecentTombstone | ArchiveWindowElapsed | ArchivedRetained
    | ColdWindowElapsed | LowScore | ColdKept | ScoreSufficient | CompressionCandidate | WorkingSetLimit
    | ConsolidatedInto(summary: Id) | SourceCount(n: nat)
    | External(text: string)

  datatype Record = Record(
    id: Id, tenant: nat, user: nat,
    layer: Layer, category: Category,
    confidence: real, heat: real, recallCount: nat,
    createdAt: Time, updatedAt: Time, lastRecalledAt: Option<Time>,
    sources: seq<Id>, locked: bool,
    project: Option<string>, conversation: Option<string>, period: Period,
    candidate: bool, disputed: bool,
    expiresAt: Option<Time>,
    deletedAt: Option<Time>, tombstoneReason: Option<Reason>,
    archivedAt: Option<Time>, archiveReason: Option<Reason>)

  datatype Policy = Policy(
    coldArchiveDays: nat, tombstonePurgeDays: nat, archivePurgeDays: nat,
    minScore: real, compressAfter: nat, maxActive: nat)

  datatype Verb = Keep | Compress | CoolDown | ArchiveIt | Tombstone | Purge

  datatype RetentionDecision = Decide(memoryId: Id, action: Verb, score: real, reason: Reason, protected: bool)

  // ---------------------------------------------------------------- judging one record

  predicate Protected(r: Record) {
    r.locked || r.layer.Core?
  }

  function RetentionScore(r: Record): (score: real)
    ensures 0.0 <= score <= 1.0
  {
    var recalls := if r.recallCount < 20 then r.recallCount else 20;
    var score := r.confidence * 0.45 + r.heat * 0.30 + recalls as real / 20.0 * 0.15
                 + (if r.sources != [] then 0.05 else 0.0)
                 + (if Protected(r) then 0.20 else 0.0)
                 - (if r.candidate then 0.20 else 0.0)
                 - (if r.disputed then 0.25 else 0.0);
    if score < 0.0 then 0.0 else if score > 1.0 then 1.0 else score
  }

  /** Whole days between two instants, rounded down. */
  function Days(from: Time, to: Time): int {
    (to - from) / MICROSECONDS_PER_DAY
  }

  function ClassifyTier(r: Record): Tier {
    if r.deletedAt.Some? || r.archivedAt.Some? then Archive
    else if Protected(r) || r.heat >= 0.75 then Hot
    else if r.heat >= 0.3 then Warm
    else Cold
  }

  function LastActivity(r: Record): Time {
    if r.lastRecalledAt.Some? then r.lastRecalledAt.value else r.updatedAt
  }

  function Evaluate(p: Policy, now: Time, r: Record): RetentionDecision {
    var score := RetentionScore(r);
    if Protected(r) then
      Decide(r.id, Keep, if score < p.minScore then p.minScore else score, ProtectedMemory, true)
    else if r.deletedAt.Some? then
      if Days(r.deletedAt.value, now) >= p.tombstonePurgeDays
      then Decide(r.id, Purge, score, TombstoneWindowElapsed, false)
      else Decide(r.id, Keep, score, RecentTombstone, false)
    else if r.archivedAt.Some? then
      if Days(r.archivedAt.value, now) >= p.archivePurgeDays
      then Decide(r.id, Purge, score, ArchiveWindowElapsed, false)
      else Decide(r.id, Keep, score, ArchivedRetained, false)
    else if ClassifyTier(r).Cold? && Days(LastActivity(r), now) >= p.coldArchiveDays then
      Decide(r.id, ArchiveIt, score, ColdWindowElapsed, false)
    else if score < p.minScore then Decide(r.id, Tombstone, score, LowScore, false)
    else if ClassifyTier(r).Cold? then Decide(r.id, CoolDown, score, ColdKept, false)
    else Decide(r.id, Keep, score, ScoreSufficient, false)
  }

  /** Tombstoned or archived for at least the window its policy sets. */
  predicate WindowElapsed(p: Policy, now: Time, r: Record) {
    if r.deletedAt.Some? then Days(r.deletedAt.value, now) >= p.tombstonePurgeDays
    else r.archivedAt.Some? && Days(r.archivedAt.value, now) >= p.archivePurgeDays
  }

  predicate Compressible(now: Time, r: Record) {
    && !Protected(r) && !r.category.Summary? && r.period.NoPeriod?
    && r.deletedAt.None? && r.archivedAt.None?
    && (r.expiresAt.None? || r.expiresAt.value > now)
  }

  datatype GroupKey = GroupKey(tenant: nat, user: nat, project: Option<string>, conversation: Option<string>, category: Category)

  function KeyOf(r: Record): GroupKey {
    GroupKey(r.tenant, r.user, r.project, r.conversation, r.category)
  }

  function OwnerOf(r: Record): (nat, nat) {
    (r.tenant, r.user)
  }

  predicate Active(r: Record) {
    r.deletedAt.None? && r.archivedAt.None?
  }

  /** Score, then heat, then age of the last update, least worth keeping first. */
  predicate RankLeq(a: Record, b: Record) {
    var sa, sb := RetentionScore(a), RetentionScore(b);
    sa < sb || (sa == sb && (a.heat < b.heat || (a.heat == b.heat && a.updatedAt <= b.updatedAt)))
  }

  predicate CreatedLeq(a: Record, b: Record) {
    a.createdAt <= b.createdAt
  }

  // ---------------------------------------------------------------- what a record becomes

  function Archived(r: Record, now: Time, reason: Reason): Record {
    r.(archivedAt := Some(now), archiveReason := Some(reason), updatedAt := now)
  }

  function Tombstoned(r: Record, now: Time, reason: Reason): Record {
    r.(deletedAt := Some(now), tombstoneReason := Some(reason), updatedAt := now)
  }

  function Cooled(r: Record, now: Time): Record {
    r.(heat := if r.heat - 0.05 < 0.0 then 0.0 else r.heat - 0.05, updatedAt := now)
  }

  predicate StillValid(p: Policy, now: Time, r: Record, d: RetentionDecision) {
    if d.reason.WorkingSetLimit? then Active(r)
    else Evaluate(p, now, r).action == d.action && !Evaluate(p, now, r).protected
  }

  /** The record after its decision was applied to it; None when it is deleted. */
  function Outcome(p: Policy, now: Time, r: Record, d: RetentionDecision): Option<Record> {
    if d.protected || Protected(r) then Some(r)
    else if d.action in {ArchiveIt, Tombstone, Purge} && !StillValid(p, now, r, d) then Some(r)
    else
      match d.action
      case ArchiveIt => Some(Archived(r, now, d.reason))
      case Tombstone => Some(Tombstoned(r, now, d.reason))
      case Purge => None
      case CoolDown => Some(Cooled(r, now))
      case _ => Some(r)
  }

  // ---------------------------------------------------------------- plans

  type Store = map<Id, Record>

  ghost predicate StoreOk(m: Store) {
    forall id :: id in m ==> m[id].id == id
  }

  ghost function CompressibleWith(m: Store, now: Time, key: GroupKey): set<Id> {
    set id | id in m && Compressible(now, m[id]) && KeyOf(m[id]) == key
  }

  ghost predicate InGroup(groups: seq<seq<Record>>, id: Id) {
    exists i, j :: 0 <= i < |groups| && 0 <= j < |groups[i]| && groups[i][j].id == id
  }

  /** A group is all of the store's compressible records of one key, oldest first, and enough of them. */
  ghost predicate IsGroup(m: Store, p: Policy, now: Time, g: seq<Record>) {
    && g != [] && |g| >= p.compressAfter
    && (forall r :: r in g ==> r.id in m && m[r.id] == r && Compressible(now, r) && KeyOf(r) == KeyOf(g[0]))
    && (forall id :: id in CompressibleWith(m, now, KeyOf(g[0])) ==> m[id] in g)
    && (forall i, j :: 0 <= i < j < |g| ==> g[i].id != g[j].id)
    && SortedBy(g, CreatedLeq)
  }

  /** The groups are of distinct keys and leave no key with enough compressible records out. */
  ghost predicate AreGroups(m: Store, p: Policy, now: Time, groups: seq<seq<Record>>) {
    && (forall i :: 0 <= i < |groups| ==> IsGroup(m, p, now, groups[i]))
    && (forall i, j :: 0 <= i < j < |groups| ==> KeyOf(groups[i][0]) != KeyOf(groups[j][0]))
    && (forall key :: |CompressibleWith(m, now, key)| >= p.compressAfter && CompressibleWith(m, now, key) != {} ==>
          exists i :: 0 <= i < |groups| && KeyOf(groups[i][0]) == key)
  }

  /** Records that count against their owner's limit: active, unprotected, not about to be consolidated. */
  ghost function Counted(m: Store, groups: seq<seq<Record>>, owner: (nat, nat)): set<Id> {
    set id | id in m && Active(m[id]) && !Protected(m[id]) && !InGroup(groups, id) && OwnerOf(m[id]) == owner
  }

  /** Every owner's surplus, and its lowest-ranked records at that. */
  ghost predicate IsDisplacement(m: Store, p: Policy, groups: seq<seq<Record>>, displaced: set<Id>) {
    && (forall id :: id in displaced ==> id in m && id in Counted(m, groups, OwnerOf(m[id])))
    && (forall owner :: |displaced * Counted(m, groups, owner)| == Max(0, |Counted(m, groups, owner)| - p.maxActive))
    && (forall a, b :: a in displaced && b in Counted(m, groups, OwnerOf(m[a])) && b !in displaced ==> RankLeq(m[a], m[b]))
  }

  /** What the pass decides about a record. */
  ghost function DecisionFor(p: Policy, now: Time, groups: seq<seq<Record>>, displaced: set<Id>, r: Record): RetentionDecision {
    var score := RetentionScore(r);
    if InGroup(groups, r.id) then Decide(r.id, Compress, score, CompressionCandidate, false)
    else if r.id in displaced then
      Decide(r.id, if score < p.minScore then Tombstone else ArchiveIt, score, WorkingSetLimit, false)
    else Evaluate(p, now, r)
  }

  function SummaryOf(g: seq<Record>, id: Id, now: Time): Record
    requires g != []
  {
    Record(id, g[0].tenant, g[0].user, Episodic, Summary,
           Confidence(g), 0.8, 0, now, now, None,
           seq(|g|, i requires 0 <= i < |g| => g[i].id), true,
           g[0].project, g[0].conversation, Day, false, false,
           None, None, None, None, None)
  }

  /** The most confident source, but never above 0.95. */
  function Confidence(g: seq<Record>): (c: real)
    ensures forall r :: r in g ==> r.confidence <= c || c == 0.95
    ensures c <= 0.95
    ensures g != [] && c < 0.95 ==> exists r :: r in g && r.confidence == c
  {
    if g == [] then 0.95
    else if |g| == 1 then if g[0].confidence < 0.95 then g[0].confidence else 0.95
    else
      var rest := Confidence(g[1..]);
      if g[0].confidence > rest then if g[0].confidence < 0.95 then g[0].confidence else 0.95 else rest
  }

  // ---------------------------------------------------------------- a carried-out plan

  /** `after` is `before` with every group consolidated into its summary and every other record as decided. */
  ghost predicate IsMaintained(p: Policy, now: Time, before: Store, after: Store,
                               groups: seq<seq<Record>>, summaries: seq<Id>, displaced: set<Id>)
    requires |summaries| == |groups| && forall i :: 0 <= i < |groups| ==> groups[i] != []
  {
    && (forall i :: 0 <= i < |groups| ==> summaries[i] in after && after[summaries[i]] == SummaryOf(groups[i], summaries[i], now))
    && (forall i, r :: 0 <= i < |groups| && r in groups[i] ==>
          r.id in after && after[r.id] == Archived(r, now, ConsolidatedInto(summaries[i])))
    && (forall id :: id in before && !InGroup(groups, id) ==>
          Becomes(after, id, Outcome(p, now, before[id], DecisionFor(p, now, groups, displaced, before[id]))))
    && (forall id :: id in after ==> id in before || id in summaries)
  }

  ghost predicate Becomes(after: Store, id: Id, outcome: Option<Record>) {
    if outcome.Some? then id in after && after[id] == outcome.value else id !in after
  }

  /** Everything the main results assume: a sound store, its plan, fresh summary ids, and the plan carried out. */
  ghost predicate IsPass(p: Policy, now: Time, before: Store, after: Store,
                         groups: seq<seq<Record>>, summaries: seq<Id>, displaced: set<Id>)
  {
    && StoreOk(before) && AreGroups(before, p, now, groups) && IsDisplacement(before, p, groups, displaced)
    && |summaries| == |groups| && Distinct(summaries) && (forall id :: id in summaries ==> id !in before)
    && IsMaintained(p, now, before, after, groups, summaries, displaced)
  }

  // ---------------------------------------------------------------- what happens to one record

  /** A group member: archived on account of its summary. */
  ghost predicate Consolidated(now: Time, before: Record, after: Store, summary: Id) {
    before.id in after && after[before.id] == Archived(before, now, ConsolidatedInto(summary))
  }

  /** Anything else: what every decision leaves true of the record, if it leaves one. */
  ghost predicate Kept(now: Time, r: Record, r': Record) {
    && r'.id == r.id && OwnerOf(r') == OwnerOf(r) && KeyOf(r') == KeyOf(r) && Protected(r') == Protected(r)
    && (Protected(r) ==> r' == r)
    && (Active(r') ==> Active(r)) && (Compressible(now, r') ==> Compressible(now, r))
    && (r'.archiveReason == r.archiveReason || (r'.archiveReason.Some? && !r'.archiveReason.value.ConsolidatedInto?))
  }

  lemma EvaluatedOutcome(p: Policy, now: Time, r: Record)
    ensures Outcome(p, now, r, Evaluate(p, now, r)) == None <==> !Protected(r) && WindowElapsed(p, now, r)
    ensures Outcome(p, now, r, Evaluate(p, now, r)).Some? ==> Kept(now, r, Outcome(p, now, r, Evaluate(p, now, r)).value)
  {
  }

  lemma DisplacedOutcome(p: Policy, now: Time, r: Record, d: RetentionDecision)
    requires Active(r) && !Protected(r)
    requires d.reason.WorkingSetLimit? && !d.protected && (d.action.Tombstone? || d.action.ArchiveIt?)
    ensures Outcome(p, now, r, d).Some? && Kept(now, r, Outcome(p, now, r, d).value) && !Active(Outcome(p, now, r, d).value)
  {
  }

  /** The fate of every record under a carried-out plan. */
  lemma Fate(p: Policy, now: Time, before: Store, after: Store,
             groups: seq<seq<Record>>, summaries: seq<Id>, displaced: set<Id>, id: Id)
    requires IsPass(p, now, before, after, groups, summaries, displaced) && id in before
    ensures InGroup(groups, id) ==>
      !Protected(before[id]) && Active(before[id])
      && exists i :: 0 <= i < |groups| && before[id] in groups[i] && Consolidated(now, before[id], after, summaries[i])
    ensures !InGroup(groups, id) && id in displaced ==>
      Active(before[id]) && !Protected(before[id]) && id in after && Kept(now, before[id], after[id]) && !Active(after[id])
    ensures !InGroup(groups, id) && id !in displaced ==>
      && (id !in after <==> !Protected(before[id]) && WindowElapsed(p, now, before[id]))
      && (id in after ==> Kept(now, before[id], after[id]))
  {
    if InGroup(groups, id) {
      var i := GroupedRecord(before, p, now, groups, id);
      assert Consolidated(now, before[id], after, summaries[i]);
    } else {
      var d := DecisionFor(p, now, groups, displaced, before[id]);
      assert Becomes(after, id, Outcome(p, now, before[id], d));
      if id in displaced {
        assert id in Counted(before, groups, OwnerOf(before[id]));
        DisplacedOutcome(p, now, before[id], d);
      } else {
        EvaluatedOutcome(p, now, before[id]);
      }
    }
  }

  lemma SummaryFate(p: Policy, now: Time, before: Store, after: Store,
                    groups: seq<seq<Record>>, summaries: seq<Id>, displaced: set<Id>, id: Id)
    requires IsPass(p, now, before, after, groups, summaries, displaced) && id in summaries
    ensures id in after && Protected(after[id]) && after[id].archiveReason == None && id !in before
  {
    var i :| 0 <= i < |summaries| && summaries[i] == id;
    assert after[summaries[i]] == SummaryOf(groups[i], summaries[i], now);
  }

  lemma GroupedRecord(m: Store, p: Policy, now: Time, groups: seq<seq<Record>>, id: Id) returns (i: nat)
    requires AreGroups(m, p, now, groups) && InGroup(groups, id)
    ensures i < |groups| && id in m && m[id] in groups[i] && Compressible(now, m[id])
  {
    var i', j :| 0 <= i' < |groups| && 0 <= j < |groups[i']| && groups[i'][j].id == id;
    i := i';
    assert IsGroup(m, p, now, groups[i]) && groups[i][j] in groups[i];
  }

  // ---------------------------------------------------------------- main results

  /** Locked and core records are left exactly as they were. */
  lemma ProtectedUnchanged(p: Policy, now: Time, before: Store, after: Store,
                           groups: seq<seq<Record>>, summaries: seq<Id>, displaced: set<Id>, id: Id)
    requires IsPass(p, now, before, after, groups, summaries, displaced)
    requires id in before && Protected(before[id])
    ensures id in after && after[id] == before[id]
  {
    Fate(p, now, before, after, groups, summaries, displaced, id);
  }

  /** A record disappears exactly if it is unprotected and its tombstone or archive window has elapsed. */
  lemma PurgedIffWindowElapsed(p: Policy, now: Time, before: Store, after: Store,
                               groups: seq<seq<Record>>, summaries: seq<Id>, displaced: set<Id>, id: Id)
    requires IsPass(p, now, before, after, groups, summaries, displaced)
    requires id in before
    ensures id !in after <==> !Protected(before[id]) && WindowElapsed(p, now, before[id])
  {
    Fate(p, now, before, after, groups, summaries, displaced, id);
  }

  /** Which records are archived, tombstoned, cooled or deleted when judged on their own. */
  lemma WhatIsDecided(p: Policy, now: Time, r: Record)
    ensures var action := Evaluate(p, now, r).action;
      var idle := r.heat < 0.3 && Days(LastActivity(r), now) >= p.coldArchiveDays;
      && (action.Purge? <==> !Protected(r) && WindowElapsed(p, now, r))
      && (action.ArchiveIt? <==> !Protected(r) && Active(r) && idle)
      && (action.Tombstone? <==> !Protected(r) && Active(r) && !idle && RetentionScore(r) < p.minScore)
      && (action.CoolDown? <==> !Protected(r) && Active(r) && !idle && RetentionScore(r) >= p.minScore && r.heat < 0.3)
      && !action.Compress?
  {
  }

  /** Worth as much in every respect and marked no worse means scored no lower. */
  lemma ScoreIsMonotone(a: Record, b: Record)
    requires a.confidence <= b.confidence && a.heat <= b.heat && a.recallCount <= b.recallCount
    requires (a.sources != [] ==> b.sources != []) && (Protected(a) ==> Protected(b))
    requires (b.candidate ==> a.candidate) && (b.disputed ==> a.disputed)
    ensures RetentionScore(a) <= RetentionScore(b)
  {
    var ra := if a.recallCount < 20 then a.recallCount else 20;
    var rb := if b.recallCount < 20 then b.recallCount else 20;
    assert ra as real <= rb as real;
  }

  /** At one clock reading the check before a destructive step never turns down what was planned. */
  lemma PlannedIsStillValid(p: Policy, now: Time, m: Store, groups: seq<seq<Record>>, displaced: set<Id>, id: Id)
    requires StoreOk(m) && IsDisplacement(m, p, groups, displaced) && id in m && !Protected(m[id])
    requires DecisionFor(p, now, groups, displaced, m[id]).action in {ArchiveIt, Tombstone, Purge}
    ensures StillValid(p, now, m[id], DecisionFor(p, now, groups, displaced, m[id]))
  {
    if id in displaced {
      assert id in Counted(m, groups, OwnerOf(m[id]));
    }
  }

  lemma FreshlyKept(p: Policy, now: Time, r: Record, d: RetentionDecision)
    requires p.tombstonePurgeDays >= 1 && p.archivePurgeDays >= 1
    requires Outcome(p, now, r, d).Some? && !Protected(r)
    requires d.action.Purge? || d.action.Keep? ==> !WindowElapsed(p, now, r)
    requires !(d.action.Purge? || d.action.Keep?) ==> Active(r)
    ensures !WindowElapsed(p, now, Outcome(p, now, r, d).value)
  {
    assert Days(now, now) == 0;
  }

  /** Windows of at least a day, as policies have them, leave a second pass at the same clock nothing to delete. */
  lemma NothingLeftToPurge(p: Policy, now: Time, before: Store, after: Store,
                           groups: seq<seq<Record>>, summaries: seq<Id>, displaced: set<Id>, id: Id)
    requires IsPass(p, now, before, after, groups, summaries, displaced)
    requires p.tombstonePurgeDays >= 1 && p.archivePurgeDays >= 1 && id in after
    ensures Protected(after[id]) || !WindowElapsed(p, now, after[id])
  {
    if id in summaries {
      SummaryFate(p, now, before, after, groups, summaries, displaced, id);
    } else if InGroup(groups, id) {
      Fate(p, now, before, after, groups, summaries, displaced, id);
      assert Days(now, now) == 0;
    } else {
      UngroupedKept(p, now, before, after, groups, summaries, displaced, id);
    }
  }

  lemma UngroupedKept(p: Policy, now: Time, before: Store, after: Store,
                      groups: seq<seq<Record>>, summaries: seq<Id>, displaced: set<Id>, id: Id)
    requires IsPass(p, now, before, after, groups, summaries, displaced)
    requires p.tombstonePurgeDays >= 1 && p.archivePurgeDays >= 1
    requires id in after && id in before && !InGroup(groups, id)
    ensures Protected(after[id]) || !WindowElapsed(p, now, after[id])
  {
    var r := before[id];
    var d := DecisionFor(p, now, groups, displaced, r);
    assert Becomes(after, id, Outcome(p, now, r, d));
    if !Protected(r) {
      WhatIsDecided(p, now, r);
      if id in displaced {
        assert id in Counted(before, groups, OwnerOf(r));
      }
      FreshlyKept(p, now, r, d);
    }
  }

  ghost function ActiveUnprotected(m: Store, owner: (nat, nat)): set<Id> {
    set id | id in m && Active(m[id]) && !Protected(m[id]) && OwnerOf(m[id]) == owner
  }

  /** Whoever is active and unprotected after the pass counted before it and was not displaced. */
  lemma ActiveWasCounted(p: Policy, now: Time, before: Store, after: Store,
                         groups: seq<seq<Record>>, summaries: seq<Id>, displaced: set<Id>, owner: (nat, nat), id: Id)
    requires IsPass(p, now, before, after, groups, summaries, displaced)
    requires id in ActiveUnprotected(after, owner)
    ensures id in Counted(before, groups, owner) - displaced
  {
    if id in summaries {
      SummaryFate(p, now, before, after, groups, summaries, displaced, id);
    } else {
      Fate(p, now, before, after, groups, summaries, displaced, id);
    }
  }

  lemma SurplusOf(m: Store, p: Policy, groups: seq<seq<Record>>, displaced: set<Id>, owner: (nat, nat))
    requires forall o :: |displaced * Counted(m, groups, o)| == Max(0, |Counted(m, groups, o)| - p.maxActive)
    ensures |displaced * Counted(m, groups, owner)| == Max(0, |Counted(m, groups, owner)| - p.maxActive)
  {
  }

  /** What is left of an owner's counted records when its surplus is displaced fits the limit. */
  lemma RemainderFits(m: Store, p: Policy, groups: seq<seq<Record>>, displaced: set<Id>, owner: (nat, nat))
    requires IsDisplacement(m, p, groups, displaced)
    ensures |Counted(m, groups, owner) - displaced| <= p.maxActive
  {
    var counted := Counted(m, groups, owner);
    SurplusOf(m, p, groups, displaced, owner);
    SplitSize(counted, displaced);
  }

  lemma SplitSize(a: set<Id>, b: set<Id>)
    ensures |a - b| + |b * a| == |a|
  {
    assert a == (a - b) + (b * a);
  }

  /** After the pass no owner has more active unprotected records than the policy allows. */
  lemma WorkingSetsAreBounded(p: Policy, now: Time, before: Store, after: Store,
                              groups: seq<seq<Record>>, summaries: seq<Id>, displaced: set<Id>, owner: (nat, nat))
    requires IsPass(p, now, before, after, groups, summaries, displaced)
    ensures |ActiveUnprotected(after, owner)| <= p.maxActive
  {
    var counted := Counted(before, groups, owner);
    forall id | id in ActiveUnprotected(after, owner) ensures id in counted - displaced {
      ActiveWasCounted(p, now, before, after, groups, summaries, displaced, owner, id);
    }
    SubsetSize(ActiveUnprotected(after, owner), counted - displaced);
    RemainderFits(before, p, groups, displaced, owner);
  }

  /** The sources of a new summary are exactly the records archived on its account. */
  lemma SourcesAreTheConsolidated(p: Policy, now: Time, before: Store, after: Store,
                                  groups: seq<seq<Record>>, summaries: seq<Id>, displaced: set<Id>, i: nat, id: Id)
    requires IsPass(p, now, before, after, groups, summaries, displaced) && i < |groups|
    requires forall k :: k in before ==> before[k].archiveReason != Some(ConsolidatedInto(summaries[i]))
    ensures id in after[summaries[i]].sources <==> id in after && after[id].archiveReason == Some(ConsolidatedInto(summaries[i]))
  {
    assert after[summaries[i]] == SummaryOf(groups[i], summaries[i], now);
    SourcesOf(groups[i], summaries[i], now, id);
    if r :| r in groups[i] && r.id == id {
      assert after[r.id] == Archived(r, now, ConsolidatedInto(summaries[i]));
    }
    if id in after && after[id].archiveReason == Some(ConsolidatedInto(summaries[i])) {
      ArchivedOnAccount(p, now, before, after, groups, summaries, displaced, i, id);
    }
  }

  /** Only group members end up archived on account of a summary that they were not archived for before. */
  lemma OnAccountIsGrouped(p: Policy, now: Time, before: Store, after: Store,
                           groups: seq<seq<Record>>, summaries: seq<Id>, displaced: set<Id>, summary: Id, id: Id)
    requires IsPass(p, now, before, after, groups, summaries, displaced)
    requires id in before && before[id].archiveReason != Some(ConsolidatedInto(summary))
    requires id in after && after[id].archiveReason == Some(ConsolidatedInto(summary))
    ensures InGroup(groups, id)
  {
    if !InGroup(groups, id) {
      Fate(p, now, before, after, groups, summaries, displaced, id);
    }
  }

  lemma ArchivedOnAccount(p: Policy, now: Time, before: Store, after: Store,
                          groups: seq<seq<Record>>, summaries: seq<Id>, displaced: set<Id>, i: nat, id: Id)
    requires IsPass(p, now, before, after, groups, summaries, displaced) && i < |groups|
    requires id in before ==> before[id].archiveReason != Some(ConsolidatedInto(summaries[i]))
    requires id in after && after[id].archiveReason == Some(ConsolidatedInto(summaries[i]))
    ensures exists r :: r in groups[i] && r.id == id
  {
    if id in summaries {
      SummaryFate(p, now, before, after, groups, summaries, displaced, id);
    } else {
      OnAccountIsGrouped(p, now, before, after, groups, summaries, displaced, summaries[i], id);
      var k := GroupedRecord(before, p, now, groups, id);
      assert after[before[id].id] == Archived(before[id], now, ConsolidatedInto(summaries[k]));
      SameEntry(summaries, k, i);
    }
  }

  lemma SameEntry(summaries: seq<Id>, k: nat, i: nat)
    requires Distinct(summaries) && k < |summaries| && i < |summaries| && summaries[k] == summaries[i]
    ensures k == i
  {
  }

  lemma SourcesOf(g: seq<Record>, summary: Id, now: Time, id: Id)
    requires g != []
    ensures id in SummaryOf(g, summary, now).sources <==> exists r :: r in g && r.id == id
  {
    var sources := SummaryOf(g, summary, now).sources;
    if r :| r in g && r.id == id {
      var j :| 0 <= j < |g| && g[j] == r;
      assert sources[j] == id;
    }
  }

  /** Whatever is compressible afterwards was so before, with the same key, and in no group. */
  lemma CompressibleBefore(p: Policy, now: Time, before: Store, after: Store,
                           groups: seq<seq<Record>>, summaries: seq<Id>, displaced: set<Id>, id: Id)
    requires IsPass(p, now, before, after, groups, summaries, displaced)
    requires id in after && Compressible(now, after[id])
    ensures id in before && Compressible(now, before[id]) && KeyOf(before[id]) == KeyOf(after[id]) && !InGroup(groups, id)
  {
    if id in summaries {
      SummaryFate(p, now, before, after, groups, summaries, displaced, id);
    } else {
      Fate(p, now, before, after, groups, summaries, displaced, id);
    }
  }

  lemma EnoughMeansGrouped(m: Store, p: Policy, now: Time, groups: seq<seq<Record>>, id: Id)
    requires StoreOk(m) && AreGroups(m, p, now, groups) && id in m && Compressible(now, m[id])
    requires |CompressibleWith(m, now, KeyOf(m[id]))| >= p.compressAfter
    ensures InGroup(groups, id)
  {
    var key := KeyOf(m[id]);
    assert id in CompressibleWith(m, now, key);
    var i :| 0 <= i < |groups| && KeyOf(groups[i][0]) == key;
    assert IsGroup(m, p, now, groups[i]) && m[id] in groups[i];
    var j :| 0 <= j < |groups[i]| && groups[i][j] == m[id];
  }

  /** A second pass at the same clock finds nothing to consolidate. */
  lemma SecondPassFindsNoGroup(p: Policy, now: Time, before: Store, after: Store,
                               groups: seq<seq<Record>>, summaries: seq<Id>, displaced: set<Id>, again: seq<seq<Record>>)
    requires IsPass(p, now, before, after, groups, summaries, displaced)
    requires AreGroups(after, p, now, again)
    ensures again == []
  {
    if again != [] {
      var g := again[0];
      var key, id := KeyOf(g[0]), g[0].id;
      assert IsGroup(after, p, now, g) && g[0] in g;
      forall k | k in CompressibleWith(after, now, key) ensures k in CompressibleWith(before, now, key) {
        CompressibleBefore(p, now, before, after, groups, summaries, displaced, k);
      }
      GroupIdsAreCompressible(after, p, now, g);
      SubsetSize(CompressibleWith(after, now, key), CompressibleWith(before, now, key));
      CompressibleBefore(p, now, before, after, groups, summaries, displaced, id);
      EnoughMeansGrouped(before, p, now, groups, id);
    }
  }

  lemma GroupIdsAreCompressible(m: Store, p: Policy, now: Time, g: seq<Record>)
    requires IsGroup(m, p, now, g)
    ensures |CompressibleWith(m, now, KeyOf(g[0]))| >= |g|
  {
    var ids := seq(|g|, i requires 0 <= i < |g| => g[i].id);
    assert Distinct(ids);
    DistinctSize(ids);
    forall id | id in SetOf(ids) ensures id in CompressibleWith(m, now, KeyOf(g[0])) {
      var i :| 0 <= i < |ids| && ids[i] == id;
      assert g[i] in g;
    }
    SubsetSize(SetOf(ids), CompressibleWith(m, now, KeyOf(g[0])));
  }
}

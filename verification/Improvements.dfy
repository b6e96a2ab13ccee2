/**
 * Publishing reviewed improvement drafts. `publish` takes the service lock twice, with a call to an external
 * publisher in between; between the two critical sections any other task may run.
 */
module Improvements {
  import opened Prelude

  type TaskId = nat

  datatype Status = Draft | Publishing | Published

  datatype Key = Key(tenant: nat, id: nat)

  /** What a proposal's fingerprint is taken from; equal content means equal fingerprint and the other way round. */
  datatype Content = Content(sourceRun: nat, idempotencyKey: string, diffs: seq<string>, cases: seq<string>)

  datatype Proposal = Proposal(
    tenant: nat, id: nat, content: Content, createdBy: nat, rationale: string,
    status: Status, version: Option<nat>, approvedBy: Option<nat>)

  datatype PublishError = NotFound | NotPublishable | PublisherFailed

  datatype Fingerprint = Fingerprint(tenant: nat, content: Content)

  function FingerprintOf(p: Proposal): Fingerprint {
    Fingerprint(p.tenant, p.content)
  }

  function KeyOf(p: Proposal): Key {
    Key(p.tenant, p.id)
  }

  type Proposals = map<Key, Proposal>
  type Fingerprints = map<Fingerprint, nat>

  /** Proposals and fingerprints point at each other. */
  ghost predicate Indexed(proposals: Proposals, fingerprints: Fingerprints) {
    && (forall k :: k in proposals ==>
          KeyOf(proposals[k]) == k && FingerprintOf(proposals[k]) in fingerprints
          && fingerprints[FingerprintOf(proposals[k])] == k.id)
    && (forall f :: f in fingerprints ==>
          Key(f.tenant, fingerprints[f]) in proposals && FingerprintOf(proposals[Key(f.tenant, fingerprints[f])]) == f)
  }

  // ---------------------------------------------------------------- the critical sections

  class ImprovementService {
    var proposals: Proposals
    var fingerprints: Fingerprints
    var nextId: nat

    ghost predicate Valid()
      reads this
    {
      Indexed(proposals, fingerprints) && forall k :: k in proposals ==> k.id < nextId
    }

    constructor ()
      ensures Valid() && proposals == map[] && fingerprints == map[]
    {
      proposals, fingerprints, nextId := map[], map[], 0;
    }

    /** Returns the stored proposal of the same fingerprint if there is one. */
    method StoreDraft(tenant: nat, content: Content, createdBy: nat, rationale: string) returns (stored: Proposal)
      requires Valid()
      modifies this
      ensures Valid()
      ensures KeyOf(stored) in proposals && proposals[KeyOf(stored)] == stored
      ensures FingerprintOf(stored) == Fingerprint(tenant, content)
      ensures Fingerprint(tenant, content) in old(fingerprints) ==>
        proposals == old(proposals) && fingerprints == old(fingerprints)
      ensures Fingerprint(tenant, content) !in old(fingerprints) ==>
        && KeyOf(stored) !in old(proposals) && stored.status == Draft
        && stored.createdBy == createdBy && stored.rationale == rationale && stored.version.None? && stored.approvedBy.None?
        && proposals == old(proposals)[KeyOf(stored) := stored]
        && fingerprints == old(fingerprints)[Fingerprint(tenant, content) := stored.id]
    {
      var f := Fingerprint(tenant, content);
      if f in fingerprints {
        stored := proposals[Key(tenant, fingerprints[f])];
      } else {
        stored := Proposal(tenant, nextId, content, createdBy, rationale, Draft, None, None);
        nextId := nextId + 1;
        proposals := proposals[Key(tenant, stored.id) := stored];
        fingerprints := fingerprints[f := stored.id];
      }
    }

    /** First critical section of `publish`. */
    method BeginPublish(key: Key) returns (r: Result<Proposal, PublishError>)
      requires Valid()
      modifies this`proposals
      ensures Valid() && r == Begun(old(proposals), key)
      ensures r == Err(NotFound) <==> key !in old(proposals)
      ensures r.Ok? <==> key in old(proposals) && old(proposals)[key].status.Draft?
      ensures r.Ok? ==> r.value == old(proposals)[key].(status := Publishing)
      ensures r.Err? ==> r.error in {NotFound, NotPublishable}
      ensures proposals == if r.Ok? then old(proposals)[key := r.value] else old(proposals)
    {
      if key !in proposals {
        return Err(NotFound);
      }
      var proposal := proposals[key];
      if !proposal.status.Draft? {
        return Err(NotPublishable);
      }
      proposal := proposal.(status := Publishing);
      proposals := proposals[key := proposal];
      r := Ok(proposal);
    }

    /** Second critical section, after the publisher returned. */
    method FinishPublish(key: Key, proposal: Proposal, version: nat, admin: nat) returns (r: Result<Proposal, PublishError>)
      requires Valid() && KeyOf(proposal) == key && (key in proposals ==> FingerprintOf(proposals[key]) == FingerprintOf(proposal))
      modifies this`proposals
      ensures Valid() && r == Finished(old(proposals), key, proposal, version, admin)
      ensures r == Err(NotFound) <==> key !in old(proposals)
      ensures r.Ok? <==> key in old(proposals) && old(proposals)[key].status.Publishing?
      ensures r.Ok? ==> r.value == proposal.(status := Published, version := Some(version), approvedBy := Some(admin))
      ensures r.Err? ==> r.error in {NotFound, NotPublishable}
      ensures proposals == if r.Ok? then old(proposals)[key := r.value] else old(proposals)
    {
      var published := proposal.(status := Published, version := Some(version), approvedBy := Some(admin));
      if key !in proposals {
        return Err(NotFound);
      }
      if !proposals[key].status.Publishing? {
        return Err(NotPublishable);
      }
      proposals := proposals[key := published];
      r := Ok(published);
    }

    /** The critical section of the exception path: back to a draft, if still publishing. */
    method FailPublish(key: Key)
      requires Valid()
      modifies this`proposals
      ensures Valid() && proposals == Reverted(old(proposals), key)
      ensures proposals.Keys == old(proposals).Keys
      ensures forall k :: k in proposals ==>
        proposals[k] == if k == key && old(proposals)[k].status.Publishing? then old(proposals)[k].(status := Draft) else old(proposals)[k]
    {
      if key in proposals && proposals[key].status.Publishing? {
        proposals := proposals[key := proposals[key].(status := Draft)];
      }
    }
  }

  function Begun(proposals: Proposals, key: Key): Result<Proposal, PublishError> {
    if key !in proposals then Err(NotFound)
    else if !proposals[key].status.Draft? then Err(NotPublishable)
    else Ok(proposals[key].(status := Publishing))
  }

  function Finished(proposals: Proposals, key: Key, proposal: Proposal, version: nat, admin: nat): Result<Proposal, PublishError> {
    if key !in proposals then Err(NotFound)
    else if !proposals[key].status.Publishing? then Err(NotPublishable)
    else Ok(proposal.(status := Published, version := Some(version), approvedBy := Some(admin)))
  }

  function Reverted(proposals: Proposals, key: Key): Proposals {
    if key in proposals && proposals[key].status.Publishing?
    then proposals[key := proposals[key].(status := Draft)]
    else proposals
  }

  // ---------------------------------------------------------------- tasks between the critical sections

  /** A `publish` call that has passed its first critical section, and how far its publisher call has come. */
  datatype Task = Task(key: Key, snapshot: Proposal, admin: nat, call: Call)

  datatype Call = InFlight | Returned(version: nat) | Raised

  /** What became of a call after the external publisher had carried out its publication. */
  datatype Ending = Answered | ThenRaised | ThenCancelled

  datatype Effect = Effect(key: Key, ending: Ending)

  /** The service, its running `publish` calls, and every publication the external publisher has carried out. */
  datatype System = System(
    proposals: Proposals, fingerprints: Fingerprints, nextId: nat,
    tasks: map<TaskId, Task>, nextTask: TaskId, effects: seq<Effect>)

  const INITIAL := System(map[], map[], 0, map[], 0, [])

  /** `effective` says that the publisher had carried out the publication when its call raised or was cancelled. */
  datatype Step =
    | Store(tenant: nat, content: Content, createdBy: nat, rationale: string)
    | Begin(key: Key, admin: nat)
    | Return(task: TaskId, version: nat)
    | Raise(task: TaskId, effective: bool)
    | Finish(task: TaskId)
    | Fail(task: TaskId)
    | Cancel(task: TaskId, effective: bool)

  /** Returning and raising happen to a call in flight; the last section follows; cancellation may strike any time. */
  predicate Enabled(s: System, step: Step) {
    match step
    case Store(_, _, _, _) => true
    case Begin(_, _) => true
    case Return(t, _) => t in s.tasks && s.tasks[t].call.InFlight?
    case Raise(t, _) => t in s.tasks && s.tasks[t].call.InFlight?
    case Finish(t) => t in s.tasks && s.tasks[t].call.Returned?
    case Fail(t) => t in s.tasks && s.tasks[t].call.Raised?
    case Cancel(t, effective) => t in s.tasks && (effective ==> s.tasks[t].call.InFlight?)
  }

  function Apply(s: System, step: Step): System
    requires Enabled(s, step)
  {
    match step
    case Store(tenant, content, createdBy, rationale) =>
      if Fingerprint(tenant, content) in s.fingerprints then s
      else
        s.(proposals := s.proposals[Key(tenant, s.nextId) :=
                          Proposal(tenant, s.nextId, content, createdBy, rationale, Draft, None, None)],
           fingerprints := s.fingerprints[Fingerprint(tenant, content) := s.nextId],
           nextId := s.nextId + 1)
    case Begin(key, admin) =>
      (match Begun(s.proposals, key)
       case Err(_) => s
       case Ok(proposal) =>
         s.(proposals := s.proposals[key := proposal],
            tasks := s.tasks[s.nextTask := Task(key, proposal, admin, InFlight)], nextTask := s.nextTask + 1))
    case Return(t, version) =>
      s.(tasks := s.tasks[t := s.tasks[t].(call := Returned(version))], effects := s.effects + [Effect(s.tasks[t].key, Answered)])
    case Raise(t, effective) =>
      s.(tasks := s.tasks[t := s.tasks[t].(call := Raised)],
         effects := s.effects + if effective then [Effect(s.tasks[t].key, ThenRaised)] else [])
    case Finish(t) =>
      var task := s.tasks[t];
      (match Finished(s.proposals, task.key, task.snapshot, task.call.version, task.admin)
       case Err(_) => s.(tasks := s.tasks - {t})
       case Ok(published) => s.(proposals := s.proposals[task.key := published], tasks := s.tasks - {t}))
    case Fail(t) => s.(proposals := Reverted(s.proposals, s.tasks[t].key), tasks := s.tasks - {t})
    case Cancel(t, effective) =>
      s.(tasks := s.tasks - {t},
         effects := s.effects + if effective then [Effect(s.tasks[t].key, ThenCancelled)] else [])
  }

  ghost predicate IsRun(s: System, steps: seq<Step>, s': System)
    decreases |steps|
  {
    if steps == [] then s' == s
    else
      var n := |steps| - 1;
      exists mid :: IsRun(s, steps[..n], mid) && Enabled(mid, steps[n]) && s' == Apply(mid, steps[n])
  }

  // ---------------------------------------------------------------- the invariant

  /** A running call's proposal is publishing and still as the call found it, and no two calls share one. */
  ghost predicate TasksHold(proposals: Proposals, tasks: map<TaskId, Task>, nextTask: TaskId) {
    && (forall t :: t in tasks ==>
          && t < nextTask && tasks[t].key in proposals
          && proposals[tasks[t].key] == tasks[t].snapshot && tasks[t].snapshot.status.Publishing?)
    && (forall t, u :: t in tasks && u in tasks && t != u ==> tasks[t].key != tasks[u].key)
  }

  /** Past being published again: published, or publishing with no call that may still publish it or give it back. */
  ghost predicate Sealed(proposals: Proposals, tasks: map<TaskId, Task>, k: Key) {
    && k in proposals && !proposals[k].status.Draft?
    && forall t :: t in tasks && tasks[t].key == k ==> tasks[t].call.Returned?
  }

  ghost predicate OnlyRaisedRepeat(effects: seq<Effect>) {
    forall i, j :: 0 <= i < j < |effects| && effects[i].key == effects[j].key ==> effects[i].ending.ThenRaised?
  }

  /** A publication seals its proposal unless its call raised, and only one whose call raised is followed by another. */
  ghost predicate EffectsHold(proposals: Proposals, tasks: map<TaskId, Task>, effects: seq<Effect>) {
    && (forall i :: 0 <= i < |effects| && !effects[i].ending.ThenRaised? ==> Sealed(proposals, tasks, effects[i].key))
    && OnlyRaisedRepeat(effects)
    && (forall t :: t in tasks && tasks[t].call.Returned? ==> Effect(tasks[t].key, Answered) in effects)
    && (forall k :: k in proposals && proposals[k].status.Published? ==> Effect(k, Answered) in effects)
  }

  ghost predicate Inv(s: System) {
    && Indexed(s.proposals, s.fingerprints) && (forall k :: k in s.proposals ==> k.id < s.nextId)
    && TasksHold(s.proposals, s.tasks, s.nextTask)
    && EffectsHold(s.proposals, s.tasks, s.effects)
  }

  lemma SameContentIndexed(proposals: Proposals, fingerprints: Fingerprints, p: Proposal)
    requires Indexed(proposals, fingerprints) && KeyOf(p) in proposals
    requires FingerprintOf(p) == FingerprintOf(proposals[KeyOf(p)])
    ensures Indexed(proposals[KeyOf(p) := p], fingerprints)
  {
  }

  lemma NewContentIndexed(proposals: Proposals, fingerprints: Fingerprints, p: Proposal)
    requires Indexed(proposals, fingerprints) && KeyOf(p) !in proposals && FingerprintOf(p) !in fingerprints
    ensures Indexed(proposals[KeyOf(p) := p], fingerprints[FingerprintOf(p) := p.id])
  {
  }

  lemma NewDraftKeepsEffects(proposals: Proposals, tasks: map<TaskId, Task>, effects: seq<Effect>, p: Proposal)
    requires EffectsHold(proposals, tasks, effects) && KeyOf(p) !in proposals && p.status.Draft?
    ensures EffectsHold(proposals[KeyOf(p) := p], tasks, effects)
  {
  }

  lemma NewDraftKeepsTasks(proposals: Proposals, tasks: map<TaskId, Task>, nextTask: TaskId, p: Proposal)
    requires TasksHold(proposals, tasks, nextTask) && KeyOf(p) !in proposals
    ensures TasksHold(proposals[KeyOf(p) := p], tasks, nextTask)
  {
  }

  lemma StoreKeepsInv(s: System, step: Step)
    requires Inv(s) && step.Store?
    ensures Inv(Apply(s, step))
  {
    if Fingerprint(step.tenant, step.content) !in s.fingerprints {
      var p := Proposal(step.tenant, s.nextId, step.content, step.createdBy, step.rationale, Draft, None, None);
      assert KeyOf(p) !in s.proposals;
      NewContentIndexed(s.proposals, s.fingerprints, p);
      NewDraftKeepsTasks(s.proposals, s.tasks, s.nextTask, p);
      NewDraftKeepsEffects(s.proposals, s.tasks, s.effects, p);
      assert Apply(s, step).proposals == s.proposals[KeyOf(p) := p];
    }
  }

  /** A call that begins adds a task for a proposal that had none. */
  lemma TaskAdded(proposals: Proposals, tasks: map<TaskId, Task>, nextTask: TaskId, k: Key, p: Proposal, task: Task)
    requires TasksHold(proposals, tasks, nextTask) && k in proposals && !proposals[k].status.Publishing?
    requires task.key == k && task.snapshot == p && p.status.Publishing?
    ensures TasksHold(proposals[k := p], tasks[nextTask := task], nextTask + 1)
  {
  }

  lemma BeginKeepsInv(s: System, step: Step)
    requires Inv(s) && step.Begin?
    ensures Inv(Apply(s, step))
  {
    match Begun(s.proposals, step.key) {
      case Err(_) =>
      case Ok(p) =>
        SameContentIndexed(s.proposals, s.fingerprints, p);
        TaskAdded(s.proposals, s.tasks, s.nextTask, step.key, p, Task(step.key, p, step.admin, InFlight));
    }
  }

  /** While a call is in flight its proposal is not sealed, so nothing but a raised call has published it. */
  lemma EffectAdded(proposals: Proposals, tasks: map<TaskId, Task>, effects: seq<Effect>, k: Key, ending: Ending)
    requires EffectsHold(proposals, tasks, effects)
    requires exists t :: t in tasks && tasks[t].key == k && tasks[t].call.InFlight?
    ensures OnlyRaisedRepeat(effects + [Effect(k, ending)])
  {
  }

  lemma ReturnKeepsInv(s: System, step: Step)
    requires Inv(s) && step.Return? && Enabled(s, step)
    ensures Inv(Apply(s, step))
  {
    EffectAdded(s.proposals, s.tasks, s.effects, s.tasks[step.task].key, Answered);
  }

  lemma RaiseKeepsInv(s: System, step: Step)
    requires Inv(s) && step.Raise? && Enabled(s, step)
    ensures Inv(Apply(s, step))
  {
    if step.effective {
      EffectAdded(s.proposals, s.tasks, s.effects, s.tasks[step.task].key, ThenRaised);
    }
  }

  lemma CancelKeepsInv(s: System, step: Step)
    requires Inv(s) && step.Cancel? && Enabled(s, step)
    ensures Inv(Apply(s, step))
  {
    if step.effective {
      EffectAdded(s.proposals, s.tasks, s.effects, s.tasks[step.task].key, ThenCancelled);
    }
  }

  /** A call that ends takes its task away and leaves the others' proposals alone. */
  lemma TaskRemoved(proposals: Proposals, tasks: map<TaskId, Task>, nextTask: TaskId, t: TaskId, p: Proposal)
    requires TasksHold(proposals, tasks, nextTask) && t in tasks && KeyOf(p) == tasks[t].key
    ensures TasksHold(proposals[KeyOf(p) := p], tasks - {t}, nextTask)
  {
  }

  lemma FinishKeepsInv(s: System, t: TaskId)
    requires Inv(s) && Enabled(s, Finish(t))
    ensures Inv(Apply(s, Finish(t)))
  {
    var task := s.tasks[t];
    var p := task.snapshot.(status := Published, version := Some(task.call.version), approvedBy := Some(task.admin));
    SameContentIndexed(s.proposals, s.fingerprints, p);
    TaskRemoved(s.proposals, s.tasks, s.nextTask, t, p);
  }

  lemma FailKeepsInv(s: System, t: TaskId)
    requires Inv(s) && Enabled(s, Fail(t))
    ensures Inv(Apply(s, Fail(t)))
  {
    var p := s.tasks[t].snapshot.(status := Draft);
    SameContentIndexed(s.proposals, s.fingerprints, p);
    TaskRemoved(s.proposals, s.tasks, s.nextTask, t, p);
  }

  lemma StepKeepsInv(s: System, step: Step)
    requires Inv(s) && Enabled(s, step)
    ensures Inv(Apply(s, step))
  {
    match step {
      case Store(_, _, _, _) => StoreKeepsInv(s, step);
      case Begin(_, _) => BeginKeepsInv(s, step);
      case Return(_, _) => ReturnKeepsInv(s, step);
      case Raise(_, _) => RaiseKeepsInv(s, step);
      case Cancel(_, _) => CancelKeepsInv(s, step);
      case Finish(t) => FinishKeepsInv(s, t);
      case Fail(t) => FailKeepsInv(s, t);
    }
  }

  lemma {:induction false} RunKeepsInv(s: System, steps: seq<Step>, s': System)
    requires Inv(s) && IsRun(s, steps, s')
    ensures Inv(s')
    decreases |steps|
  {
    if steps != [] {
      var n := |steps| - 1;
      var mid :| IsRun(s, steps[..n], mid) && Enabled(mid, steps[n]) && s' == Apply(mid, steps[n]);
      RunKeepsInv(s, steps[..n], mid);
      StepKeepsInv(mid, steps[n]);
    }
  }

  // ---------------------------------------------------------------- main results

  /** In every interleaving a proposal has at most one `publish` call under way, and only while it is publishing. */
  lemma OneCallAtATime(steps: seq<Step>, s: System, t: TaskId, u: TaskId)
    requires IsRun(INITIAL, steps, s)
    requires t in s.tasks && u in s.tasks && s.tasks[t].key == s.tasks[u].key
    ensures t == u && s.tasks[t].key in s.proposals && s.proposals[s.tasks[t].key].status == Publishing
  {
    RunKeepsInv(INITIAL, steps, s);
  }

  /** A publication that is followed by another of the same proposal is one whose call then raised. */
  lemma RepeatedOnlyAfterRaising(steps: seq<Step>, s: System, i: nat, j: nat)
    requires IsRun(INITIAL, steps, s)
    requires i < j < |s.effects| && s.effects[i].key == s.effects[j].key
    ensures s.effects[i].ending == ThenRaised
  {
    RunKeepsInv(INITIAL, steps, s);
  }

  /** The step carries out a publication of the proposal. */
  predicate Publishes(s: System, step: Step, k: Key) {
    Enabled(s, step) && Apply(s, step).effects != s.effects && Apply(s, step).effects[|s.effects|].key == k
  }

  /** Nothing that may still happen publishes the proposal. */
  ghost predicate NeverAgain(s: System, k: Key) {
    forall steps, s' :: IsRun(s, steps, s') ==> NoneAfter(s'.effects, |s.effects|, k)
  }

  ghost predicate NoneAfter(effects: seq<Effect>, n: nat, k: Key) {
    n <= |effects| && forall i :: n <= i < |effects| ==> effects[i].key != k
  }

  lemma SealedStays(s: System, step: Step, k: Key)
    requires Inv(s) && Enabled(s, step) && Sealed(s.proposals, s.tasks, k)
    ensures Sealed(Apply(s, step).proposals, Apply(s, step).tasks, k)
  {
  }

  lemma SealedIsNotPublished(s: System, step: Step, k: Key)
    requires Enabled(s, step) && Sealed(s.proposals, s.tasks, k)
    ensures s.effects <= Apply(s, step).effects && NoneAfter(Apply(s, step).effects, |s.effects|, k)
  {
  }

  lemma {:induction false} SealedForEver(s: System, steps: seq<Step>, s': System, k: Key)
    requires Inv(s) && IsRun(s, steps, s') && Sealed(s.proposals, s.tasks, k)
    ensures Sealed(s'.proposals, s'.tasks, k)
    ensures s.effects <= s'.effects && NoneAfter(s'.effects, |s.effects|, k)
    decreases |steps|
  {
    if steps != [] {
      var n := |steps| - 1;
      var mid :| IsRun(s, steps[..n], mid) && Enabled(mid, steps[n]) && s' == Apply(mid, steps[n]);
      RunKeepsInv(s, steps[..n], mid);
      SealedForEver(s, steps[..n], mid, k);
      SealedStays(mid, steps[n], k);
      SealedIsNotPublished(mid, steps[n], k);
    }
  }

  lemma RunNext(s: System, steps: seq<Step>, mid: System, step: Step)
    requires IsRun(s, steps, mid) && Enabled(mid, step)
    ensures IsRun(s, steps + [step], Apply(mid, step))
  {
    assert (steps + [step])[..|steps|] == steps;
  }

  /** After a call that raised, the proposal can be published again. */
  lemma CanPublishAgain(s: System, t: TaskId) returns (steps: seq<Step>, s': System)
    requires Inv(s) && t in s.tasks && s.tasks[t].call.Raised?
    ensures IsRun(s, steps, s') && |s'.effects| == |s.effects| + 1 && s'.effects[|s.effects|].key == s.tasks[t].key
  {
    var k := s.tasks[t].key;
    var s1 := Apply(s, Fail(t));
    FailKeepsInv(s, t);
    assert s1.proposals[k].status.Draft? && s1.effects == s.effects;
    var s2 := Apply(s1, Begin(k, 0));
    assert s2.tasks[s1.nextTask].call.InFlight? && s2.tasks[s1.nextTask].key == k && s2.effects == s.effects;
    s' := Apply(s2, Return(s1.nextTask, 0));
    RunNext(s, [], s, Fail(t));
    RunNext(s, [] + [Fail(t)], s1, Begin(k, 0));
    RunNext(s, [] + [Fail(t)] + [Begin(k, 0)], s2, Return(s1.nextTask, 0));
    steps := [] + [Fail(t)] + [Begin(k, 0)] + [Return(s1.nextTask, 0)];
  }

  lemma PublishingSeals(s: System, step: Step, k: Key)
    requires Inv(s) && Publishes(s, step, k) && !step.Raise?
    ensures Sealed(Apply(s, step).proposals, Apply(s, step).tasks, k)
  {
    var t := step.task;
    assert s.tasks[t].key == k && s.tasks[t].call.InFlight?;
  }

  lemma SealedMeansNeverAgain(s: System, k: Key)
    requires Inv(s) && Sealed(s.proposals, s.tasks, k)
    ensures NeverAgain(s, k)
  {
    forall again, s' | IsRun(s, again, s') ensures NoneAfter(s'.effects, |s.effects|, k) {
      SealedForEver(s, again, s', k);
    }
  }

  lemma RaisedMeansAgain(s: System, t: TaskId)
    requires Inv(s) && t in s.tasks && s.tasks[t].call.Raised?
    ensures !NeverAgain(s, s.tasks[t].key)
  {
    var again, s' := CanPublishAgain(s, t);
    assert !NoneAfter(s'.effects, |s.effects|, s.tasks[t].key);
  }

  /** A publication is the last one of its proposal, whatever happens afterwards, exactly unless its call raised. */
  lemma LastUnlessRaised(steps: seq<Step>, s: System, step: Step, k: Key)
    requires IsRun(INITIAL, steps, s) && Publishes(s, step, k)
    ensures NeverAgain(Apply(s, step), k) <==> !step.Raise?
  {
    RunKeepsInv(INITIAL, steps, s);
    StepKeepsInv(s, step);
    if step.Raise? {
      RaisedMeansAgain(Apply(s, step), step.task);
    } else {
      PublishingSeals(s, step, k);
      SealedMeansNeverAgain(Apply(s, step), k);
    }
  }

  /** The last critical section never finds its proposal gone or in another state, and loses no change to it. */
  lemma RecheckNeverFails(steps: seq<Step>, s: System, t: TaskId)
    requires IsRun(INITIAL, steps, s) && Enabled(s, Finish(t))
    ensures var task := s.tasks[t];
      && Finished(s.proposals, task.key, task.snapshot, task.call.version, task.admin).Ok?
      && Apply(s, Finish(t)).proposals[task.key] ==
         s.proposals[task.key].(status := Published, version := Some(task.call.version), approvedBy := Some(task.admin))
  {
    RunKeepsInv(INITIAL, steps, s);
  }

  /** A published proposal never changes again. */
  lemma {:induction false} PublishedIsFinal(s: System, steps: seq<Step>, s': System, k: Key)
    requires Inv(s) && IsRun(s, steps, s')
    requires k in s.proposals && s.proposals[k].status.Published?
    ensures k in s'.proposals && s'.proposals[k] == s.proposals[k]
    decreases |steps|
  {
    if steps != [] {
      var n := |steps| - 1;
      var mid :| IsRun(s, steps[..n], mid) && Enabled(mid, steps[n]) && s' == Apply(mid, steps[n]);
      RunKeepsInv(s, steps[..n], mid);
      PublishedIsFinal(s, steps[..n], mid, k);
      FinalStep(mid, steps[n], k);
    }
  }

  lemma FinalStep(s: System, step: Step, k: Key)
    requires Inv(s) && Enabled(s, step) && k in s.proposals && s.proposals[k].status.Published?
    ensures k in Apply(s, step).proposals && Apply(s, step).proposals[k] == s.proposals[k]
  {
    if step.Store? {
      assert Key(step.tenant, s.nextId) != k;
    }
  }

  /** Every stored proposal is the only one of its tenant with its content. */
  lemma UniqueByFingerprint(steps: seq<Step>, s: System, k: Key, l: Key)
    requires IsRun(INITIAL, steps, s) && k in s.proposals && l in s.proposals
    requires FingerprintOf(s.proposals[k]) == FingerprintOf(s.proposals[l])
    ensures k == l
  {
    RunKeepsInv(INITIAL, steps, s);
  }

  /** No call is under way for a proposal that is publishing: its call was cancelled between the two sections. */
  predicate Stranded(s: System, k: Key) {
    k in s.proposals && s.proposals[k].status.Publishing? && forall t :: t in s.tasks ==> s.tasks[t].key != k
  }

  /** A stranded proposal stays so for ever: nothing publishes it and nothing makes it a draft again. */
  lemma {:induction false} StrandedForEver(s: System, steps: seq<Step>, s': System, k: Key)
    requires Inv(s) && IsRun(s, steps, s') && Stranded(s, k)
    ensures Stranded(s', k) && s'.proposals[k] == s.proposals[k]
    decreases |steps|
  {
    if steps != [] {
      var n := |steps| - 1;
      var mid :| IsRun(s, steps[..n], mid) && Enabled(mid, steps[n]) && s' == Apply(mid, steps[n]);
      RunKeepsInv(s, steps[..n], mid);
      StrandedForEver(s, steps[..n], mid, k);
      StrandedStep(mid, steps[n], k);
    }
  }

  lemma StrandedStep(s: System, step: Step, k: Key)
    requires Inv(s) && Enabled(s, step) && Stranded(s, k)
    ensures Stranded(Apply(s, step), k) && Apply(s, step).proposals[k] == s.proposals[k]
  {
    if step.Store? {
      assert Key(step.tenant, s.nextId) != k;
    }
  }

  /** A step strands a proposal exactly if it cancels its call. */
  lemma StrandedIffCancelled(s: System, step: Step, k: Key)
    requires Inv(s) && Enabled(s, step) && !Stranded(s, k)
    ensures Stranded(Apply(s, step), k) <==> step.Cancel? && s.tasks[step.task].key == k
  {
    var s' := Apply(s, step);
    if step.Begin? && Begun(s.proposals, step.key).Ok? {
      assert s'.tasks[s.nextTask].key == step.key;
    }
    if k in s.proposals && s.proposals[k].status.Publishing? {
      var t :| t in s.tasks && s.tasks[t].key == k;
      if t in s'.tasks {
        assert s'.tasks[t].key == k;
      }
    }
  }
}

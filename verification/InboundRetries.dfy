/**
 * What becomes of a reservation whose submission fails: given back, it frees its message for the next delivery; a
 * handler that dies or cannot give it back leaves it in the way for good.
 */
module InboundRetries {
  import opened Prelude
  import opened InboundDedup

  // ---------------------------------------------------------------- a failed submission can be retried

  /** The action is not one of this handler and does not complete this row. */
  predicate Elsewhere(a: Action, h: nat, id: RowId) {
    if a.Complete? then a.id != id else a.Cleanup? || a.h != h
  }

  /** The handler is giving its reservation back, which is as it left it. */
  ghost predicate GivingBack(s: State, h: nat, id: RowId) {
    && Sound(s) && h in s.handlers && s.handlers[h].place == Releasing(id)
    && Pending(s.rows, id) && s.rows[id].message == s.handlers[h].message
  }

  lemma OthersOwnOthers(s: State, h: nat, id: RowId)
    requires Sound(s) && h in s.handlers && Owns(s.handlers[h].place, id)
    ensures forall g :: g in s.handlers && g != h ==> !Owns(s.handlers[g].place, id)
  {
  }

  /** A pending row changes only by a step of a handler that owns it, or by its completion. */
  lemma RowIsLeft(s: State, a: Action, id: RowId)
    requires Sound(s) && Pending(s.rows, id)
    requires a.Complete? ==> a.id != id
    requires !a.Complete? && !a.Cleanup? && a.h in s.handlers ==> !Owns(s.handlers[a.h].place, id)
    ensures id in Apply(s, a).rows && Apply(s, a).rows[id] == s.rows[id]
  {
    if a.Insert? {
      InsertLeaves(s, a, id);
    } else if a.Mark? || a.Release? {
      OwnRowOnly(s, a, id);
    } else if a.Complete? || a.Cleanup? {
      TableStepLeaves(s, a, id);
    } else {
      TouchesNoRow(s, a);
    }
  }

  lemma TableStepLeaves(s: State, a: Action, id: RowId)
    requires Pending(s.rows, id) && (a.Cleanup? || (a.Complete? && a.id != id))
    ensures id in Apply(s, a).rows && Apply(s, a).rows[id] == s.rows[id]
  {
  }

  lemma TouchesNoRow(s: State, a: Action)
    requires !a.Insert? && !a.Mark? && !a.Release? && !a.Complete? && !a.Cleanup?
    ensures Apply(s, a).rows == s.rows
  {
  }

  lemma InsertLeaves(s: State, a: Action, id: RowId)
    requires TableOk(s) && id in s.rows && a.Insert?
    ensures id in Apply(s, a).rows && Apply(s, a).rows[id] == s.rows[id]
  {
    assert id < s.nextId;
  }

  lemma OwnRowOnly(s: State, a: Action, id: RowId)
    requires id in s.rows && (a.Mark? || a.Release?) && (a.h in s.handlers ==> !Owns(s.handlers[a.h].place, id))
    ensures id in Apply(s, a).rows && Apply(s, a).rows[id] == s.rows[id]
  {
  }

  lemma HandlerIsLeft(s: State, a: Action, h: nat)
    requires h in s.handlers && (!a.Complete? && !a.Cleanup? ==> a.h != h)
    ensures h in Apply(s, a).handlers && Apply(s, a).handlers[h] == s.handlers[h]
  {
  }

  /** What others do leaves the reservation there for its handler to release. */
  lemma OthersLeaveIt(s: State, a: Action, h: nat, id: RowId, s': State)
    requires GivingBack(s, h, id) && Elsewhere(a, h, id) && s' == Apply(s, a)
    ensures GivingBack(s', h, id)
  {
    OthersOwnOthers(s, h, id);
    StepKeepsSound(s, a);
    RowIsLeft(s, a, id);
    HandlerIsLeft(s, a, h);
  }

  lemma {:induction false} RunLeavesIt(s: State, actions: seq<Action>, h: nat, id: RowId)
    requires GivingBack(s, h, id) && forall a :: a in actions ==> Elsewhere(a, h, id)
    ensures GivingBack(Run(s, actions), h, id)
    decreases |actions|
  {
    if actions != [] {
      OthersLeaveIt(s, actions[0], h, id, Apply(s, actions[0]));
      RunLeavesIt(Apply(s, actions[0]), actions[1..], h, id);
    }
  }

  /** Giving a reservation back frees its event and message ids exactly if it is still pending then. */
  lemma ReleaseFreesIff(s: State, h: nat, id: RowId)
    requires Sound(s) && h in s.handlers && s.handlers[h].place == Releasing(id)
    requires id in s.rows && s.rows[id].message == s.handlers[h].message
    ensures NoneFound(Apply(s, Release(h)).rows, s.handlers[h].message) <==> Pending(s.rows, id)
  {
    var rows := Apply(s, Release(h)).rows;
    if Pending(s.rows, id) {
      forall j | j in rows ensures !Collides(rows[j].message, s.handlers[h].message) {
        assert j != id && !Collides(s.rows[j].message, s.rows[id].message);
      }
    } else {
      assert id in rows && Collides(rows[id].message, s.handlers[h].message);
    }
  }

  lemma RunAppend(s: State, actions: seq<Action>, more: seq<Action>)
    ensures Run(s, actions + more) == Run(Run(s, actions), more)
  {
    RunSplits(s, actions + more, |actions|);
    assert (actions + more)[..|actions|] == actions && (actions + more)[|actions|..] == more;
  }

  /** The step by which a submission fails, before or after the run was made. */
  predicate Fails(p: Place, h: nat, a: Action) {
    (p.Submitting? && a == SubmitFails(h)) || (p.Marking? && a == MarkFails(h))
  }

  lemma FailingGivesBack(s: State, h: nat, fails: Action)
    requires Inv(s) && h in s.handlers && Fails(s.handlers[h].place, h, fails)
    ensures GivingBack(Apply(s, fails), h, s.handlers[h].place.id)
    ensures Apply(s, fails).handlers[h].message == s.handlers[h].message
  {
    assert PlaceOk(s, s.handlers[h].message, s.handlers[h].place);
    InvIsSound(s);
    StepKeepsSound(s, fails);
  }

  /**
   * However a submission fails, and whatever everyone else does before its handler releases the reservation: unless
   * that very reservation is reported completed, its event and message ids are free again afterwards.
   */
  lemma FailedSubmissionFreesIds(s: State, h: nat, fails: Action, between: seq<Action>)
    requires Inv(s) && h in s.handlers && Fails(s.handlers[h].place, h, fails)
    requires forall a :: a in between ==> Elsewhere(a, h, s.handlers[h].place.id)
    ensures NoneFound(Run(s, [fails] + between + [Release(h)]).rows, s.handlers[h].message)
  {
    var id, s1 := s.handlers[h].place.id, Apply(s, fails);
    FailingGivesBack(s, h, fails);
    RunLeavesIt(s1, between, h, id);
    MessagesStay(s1, between, h);
    ReleaseFreesIff(Run(s1, between), h, id);
    RunAppend(s, [fails] + between, [Release(h)]);
    RunCons(s, fails, between);
    RunCons(Run(s1, between), Release(h), []);
    assert [Release(h)] + [] == [Release(h)];
  }

  lemma {:induction false} MessagesStay(s: State, actions: seq<Action>, h: nat)
    requires h in s.handlers
    ensures h in Run(s, actions).handlers && Run(s, actions).handlers[h].message == s.handlers[h].message
    decreases |actions|
  {
    if actions != [] {
      MessageStays(s, actions[0], h);
      MessagesStay(Apply(s, actions[0]), actions[1..], h);
    }
  }

  lemma MessageStays(s: State, a: Action, h: nat)
    requires h in s.handlers
    ensures h in Apply(s, a).handlers && Apply(s, a).handlers[h].message == s.handlers[h].message
  {
  }

  /** So a redelivery of the message is submitted. */
  lemma RetryIsSubmitted(s: State, h: nat, fails: Action, between: seq<Action>, g: nat, m: Message)
    requires Inv(s) && h in s.handlers && Fails(s.handlers[h].place, h, fails)
    requires forall a :: a in between ==> Elsewhere(a, h, s.handlers[h].place.id)
    requires m == s.handlers[h].message.(addressed := true) && g !in Run(s, [fails] + between + [Release(h)]).handlers
    ensures var s' := Run(s, [fails] + between + [Release(h)] + [Deliver(g, m), Begin(g), FindNothing(g), Insert(g, 0, true)]);
      g in s'.handlers && s'.handlers[g].message == m && s'.handlers[g].place.Submitting? && Pending(s'.rows, s'.handlers[g].place.id)
  {
    var freed := Run(s, [fails] + between + [Release(h)]);
    FailedSubmissionFreesIds(s, h, fails, between);
    assert NoneFound(freed.rows, m);
    RunAppend(s, [fails] + between + [Release(h)], [Deliver(g, m), Begin(g), FindNothing(g), Insert(g, 0, true)]);
    RedeliveryInserts(freed, g, m);
  }

  // ---------------------------------------------------------------- what becomes of a reservation nobody gives back

  /** The reservation is pending and no handler is left that could submit under it or give it back. */
  ghost predicate Orphaned(s: State, id: RowId) {
    Sound(s) && Pending(s.rows, id) && forall g :: g in s.handlers ==> !Owns(s.handlers[g].place, id)
  }

  /** A handler that owns a pending reservation leaves it orphaned exactly by dying or by failing to release it. */
  lemma OrphanedIff(s: State, h: nat, a: Action, id: RowId)
    requires Inv(s) && h in s.handlers && Owns(s.handlers[h].place, id) && Pending(s.rows, id)
    ensures Orphaned(Apply(s, a), id) <==> a == Die(h) || (a == ReleaseFails(h) && s.handlers[h].place.Releasing?)
  {
    InvIsSound(s);
    if a == Die(h) || (a == ReleaseFails(h) && s.handlers[h].place.Releasing?) {
      LeavingOrphans(s, h, a, id);
    } else if !a.Complete? && !a.Cleanup? && a.h == h {
      OwnStepKeepsOrEnds(s, h, a, id);
    } else {
      HandlerIsLeft(s, a, h);
    }
  }

  lemma LeavingOrphans(s: State, h: nat, a: Action, id: RowId)
    requires Sound(s) && h in s.handlers && Owns(s.handlers[h].place, id) && Pending(s.rows, id)
    requires a == Die(h) || (a == ReleaseFails(h) && s.handlers[h].place.Releasing?)
    ensures Orphaned(Apply(s, a), id)
  {
    StepKeepsSound(s, a);
    OthersOwnOthers(s, h, id);
  }

  lemma OwnStepKeepsOrEnds(s: State, h: nat, a: Action, id: RowId)
    requires Inv(s) && h in s.handlers && Owns(s.handlers[h].place, id) && Pending(s.rows, id)
    requires !a.Complete? && !a.Cleanup? && a.h == h && a != Die(h) && !(a == ReleaseFails(h) && s.handlers[h].place.Releasing?)
    ensures (h in Apply(s, a).handlers && Owns(Apply(s, a).handlers[h].place, id)) || !Pending(Apply(s, a).rows, id)
  {
  }

  lemma OrphanStays(s: State, a: Action, id: RowId)
    requires Orphaned(s, id) && (a.Complete? ==> a.id != id)
    ensures Orphaned(Apply(s, a), id) && Apply(s, a).rows[id] == s.rows[id]
  {
    StepKeepsSound(s, a);
    RowIsLeft(s, a, id);
    FreshUnowned(s);
    forall g | g in Apply(s, a).handlers ensures !Owns(Apply(s, a).handlers[g].place, id) {
      OwnersStay(s, a, g, id);
    }
  }

  /** Only inserting a new row makes a handler an owner. */
  lemma OwnersStay(s: State, a: Action, g: nat, id: RowId)
    requires id != s.nextId && (g in s.handlers ==> !Owns(s.handlers[g].place, id)) && g in Apply(s, a).handlers
    ensures !Owns(Apply(s, a).handlers[g].place, id)
  {
  }

  lemma {:induction false} OrphanStaysOver(s: State, actions: seq<Action>, id: RowId)
    requires Orphaned(s, id) && forall a :: a in actions && a.Complete? ==> a.id != id
    ensures Orphaned(Run(s, actions), id) && Run(s, actions).rows[id] == s.rows[id]
    decreases |actions|
  {
    if actions != [] {
      OrphanStays(s, actions[0], id);
      OrphanStaysOver(Apply(s, actions[0]), actions[1..], id);
    }
  }

  /** Until an orphaned reservation is reported completed, no run is attached to it and no redelivery is submitted. */
  lemma OrphanBlocks(s: State, actions: seq<Action>, id: RowId, a: Action, g: nat)
    requires Orphaned(s, id) && forall b :: b in actions && b.Complete? ==> b.id != id
    ensures Pending(Run(s, actions).rows, id)
    ensures var t := Run(s, actions);
      g in Apply(t, a).handlers && Live(Apply(t, a).handlers[g].place) && Collides(s.rows[id].message, Apply(t, a).handlers[g].message) ==>
        g in t.handlers && Live(t.handlers[g].place)
  {
    var t := Run(s, actions);
    OrphanStaysOver(s, actions, id);
    if g in Apply(t, a).handlers && Live(Apply(t, a).handlers[g].place) && !(g in t.handlers && Live(t.handlers[g].place)) {
      NewSubmissionNeedsFreeIds(t, a, g);
    }
  }

  // ---------------------------------------------------------------- what a delivery comes to

  lemma RunTwo(s: State, a: Action, b: Action)
    ensures Run(s, [a, b]) == Apply(Apply(s, a), b)
  {
    RunCons(Apply(s, a), b, []);
    RunCons(s, a, [b]);
    assert [b] + [] == [b] && [a] + [b] == [a, b];
  }

  lemma SubmitsAndMarks(s: State, g: nat, id: RowId, run: RunId, s': State)
    requires g in s.handlers && s.handlers[g].place == Submitting(id) && id in s.rows
    requires s' == Run(s, [SubmitSucceeds(g, run), Mark(g, true)])
    ensures g in s'.handlers && s'.handlers[g].place == Finished(AcceptedRun(run))
    ensures id in s'.rows && s'.rows[id] == s.rows[id].(runId := Some(run), status := Submitted)
  {
    RunTwo(s, SubmitSucceeds(g, run), Mark(g, true));
    var s1 := Apply(s, SubmitSucceeds(g, run));
    assert s1.handlers[g].place == Marking(id, run) && s1.rows == s.rows;
  }

  /** A delivery whose ids are free and that nothing disturbs is accepted with the run made for it, which its row then has. */
  lemma DeliveryIsAccepted(s: State, g: nat, m: Message, run: RunId)
    requires TableOk(s) && g !in s.handlers && m.addressed && NoneFound(s.rows, m)
    ensures var s' := Run(s, [Deliver(g, m), Begin(g), FindNothing(g), Insert(g, 0, true)] + [SubmitSucceeds(g, run), Mark(g, true)]);
      && g in s'.handlers && s'.handlers[g].place == Finished(AcceptedRun(run))
      && s.nextId in s'.rows && s'.rows[s.nextId] == Row(m, Some(run), Submitted, 0, None)
  {
    var first := [Deliver(g, m), Begin(g), FindNothing(g), Insert(g, 0, true)];
    RedeliveryInserts(s, g, m);
    var s1 := Run(s, first);
    RunAppend(s, first, [SubmitSucceeds(g, run), Mark(g, true)]);
    assert s1.handlers[g].place == Submitting(s.nextId) && s1.rows[s.nextId] == NewRow(m, 0);
    SubmitsAndMarks(s1, g, s.nextId, run, Run(s1, [SubmitSucceeds(g, run), Mark(g, true)]));
  }

  /** A duplicate is answered with the run of the oldest row that shares an id with it, at once if it is there already. */
  lemma DuplicateGetsRun(s: State, g: nat, id: RowId)
    requires g in s.handlers && s.handlers[g].place.Finding? && IsOldest(s.rows, s.handlers[g].message, id)
    ensures var place := Apply(s, FindRow(g, id)).handlers[g].place;
      place == match s.rows[id].runId case Some(run) => Finished(DuplicateRun(run)) case None => Waiting(id)
  {
  }

  /** One that waits is answered as soon as it looks after the run was attached. */
  lemma WaitingGetsRun(s: State, g: nat, id: RowId)
    requires g in s.handlers && s.handlers[g].place == Waiting(id) && id in s.rows
    ensures Apply(s, Poll(g)).handlers[g].place ==
      match s.rows[id].runId case Some(run) => Finished(DuplicateRun(run)) case None => Waiting(id)
    ensures Apply(s, GiveUpWaiting(g)).handlers[g].place == Finished(DuplicatePending)
  {
  }

  /** Losing the race for an insertion makes a delivery a duplicate of the oldest row in its way, in either attempt. */
  lemma LostInsertionIsDuplicate(s: State, g: nat, at: Time, reported: bool, id: RowId)
    requires g in s.handlers && s.handlers[g].place.Inserting? && IsOldest(s.rows, s.handlers[g].message, id)
    ensures var s' := Run(s, [Insert(g, at, reported), FindRow(g, id)]);
      && g in s'.handlers && s'.rows == s.rows
      && s'.handlers[g].place == match s.rows[id].runId case Some(run) => Finished(DuplicateRun(run)) case None => Waiting(id)
  {
    RunTwo(s, Insert(g, at, reported), FindRow(g, id));
    assert !NoneFound(s.rows, s.handlers[g].message);
    var s1 := Apply(s, Insert(g, at, reported));
    assert s1 == Moved(s, g, if s.handlers[g].place.attempt == 0 then Finding(1) else Loading);
  }

  /** If what was in the way is gone again by then, the first loss is followed by another attempt and the second by none. */
  lemma TwoAttempts(s: State, g: nat, at: Time, reported: bool, rows: Rows)
    requires g in s.handlers && s.handlers[g].place.Inserting? && !NoneFound(s.rows, s.handlers[g].message)
    requires NoneFound(rows, s.handlers[g].message)
    ensures Apply(Apply(s, Insert(g, at, reported)).(rows := rows), FindNothing(g)).handlers[g].place
         == if s.handlers[g].place.attempt == 0 then Inserting(1) else Finished(Refused)
  {
    var s1 := Apply(s, Insert(g, at, reported));
    assert s1 == Moved(s, g, if s.handlers[g].place.attempt == 0 then Finding(1) else Loading);
  }

  /** Even where completions are reported too early: a run is reported only for a row that then has it. */
  lemma AcceptedHasRow(s: State, a: Action, g: nat, run: RunId)
    requires g in Apply(s, a).handlers && Apply(s, a).handlers[g].place == Finished(AcceptedRun(run))
    requires g in s.handlers ==> s.handlers[g].place != Finished(AcceptedRun(run))
    ensures a.Mark? && g in s.handlers && s.handlers[g].place.Marking?
    ensures var id := s.handlers[g].place.id;
      id in Apply(s, a).rows && Apply(s, a).rows[id].runId == Some(run) && id in Apply(s, a).attached && Apply(s, a).attached[id] == run
  {
  }

  /** A handler that has got beyond its first check is of a message meant for the agent. */
  ghost predicate OnlyAddressed(s: State) {
    forall h :: h in s.handlers && !s.handlers[h].place.Start? && !s.handlers[h].place.Finished? ==> s.handlers[h].message.addressed
  }

  lemma StepKeepsAddressed(s: State, a: Action)
    requires OnlyAddressed(s)
    ensures OnlyAddressed(Apply(s, a))
  {
    forall h | h in Apply(s, a).handlers && !Apply(s, a).handlers[h].place.Start? && !Apply(s, a).handlers[h].place.Finished?
      ensures Apply(s, a).handlers[h].message.addressed
    {
      HandlerStepsOn(s, a, h);
    }
  }

  lemma HandlerStepsOn(s: State, a: Action, h: nat)
    requires OnlyAddressed(s) && h in Apply(s, a).handlers
    requires !Apply(s, a).handlers[h].place.Start? && !Apply(s, a).handlers[h].place.Finished?
    ensures Apply(s, a).handlers[h].message.addressed
  {
  }

  lemma {:induction false} RunKeepsAddressed(s: State, actions: seq<Action>)
    requires OnlyAddressed(s)
    ensures OnlyAddressed(Run(s, actions))
    decreases |actions|
  {
    if actions != [] {
      StepKeepsAddressed(s, actions[0]);
      RunKeepsAddressed(Apply(s, actions[0]), actions[1..]);
    }
  }

  /** No run, however it goes, submits or even reserves a message that is not meant for the agent. */
  lemma UnaddressedIsIgnored(actions: seq<Action>, h: nat)
    requires h in Run(INITIAL, actions).handlers && !Run(INITIAL, actions).handlers[h].message.addressed
    ensures Run(INITIAL, actions).handlers[h].place.Start? || Run(INITIAL, actions).handlers[h].place.Finished?
  {
    RunKeepsAddressed(INITIAL, actions);
  }
}

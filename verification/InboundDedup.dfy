/**
 * Deduplication of inbound channel deliveries: the reservation table with its two unique
 * constraints, and any number of concurrent handlers that find, insert, submit, mark and release,
 * each step of which may fail or be the handler's last.
 */
module InboundDedup {
  import opened Prelude

  type RowId = nat
  type RunId = nat
  type Time = nat

  datatype Message = Message(channel: string, tenant: string, eventId: string, messageId: string, addressed: bool)

  datatype Status = Reserved | Submitted | Completed

  datatype Row = Row(message: Message, runId: Option<RunId>, status: Status, createdAt: Time, completedAt: Option<Time>)

  type Rows = map<RowId, Row>

  /** The two messages cannot both have a row: one of the unique constraints forbids it. */
  predicate Collides(a: Message, b: Message) {
    a.channel == b.channel && a.tenant == b.tenant && (a.eventId == b.eventId || a.messageId == b.messageId)
  }

  predicate Earlier(rows: Rows, a: RowId, b: RowId)
    requires a in rows && b in rows
  {
    rows[a].createdAt < rows[b].createdAt || (rows[a].createdAt == rows[b].createdAt && a <= b)
  }

  /** The row a lookup for `m` returns: the oldest that shares its event or message id. */
  ghost predicate IsOldest(rows: Rows, m: Message, id: RowId) {
    && id in rows && Collides(rows[id].message, m)
    && forall other :: other in rows && Collides(rows[other].message, m) ==> Earlier(rows, id, other)
  }

  ghost predicate NoneFound(rows: Rows, m: Message) {
    forall id :: id in rows ==> !Collides(rows[id].message, m)
  }

  // ---------------------------------------------------------------- what the transactions do to the table

  function Marked(rows: Rows, id: RowId, run: RunId): Rows {
    if id in rows then rows[id := rows[id].(runId := Some(run), status := Submitted)] else rows
  }

  function MarkedCompleted(rows: Rows, id: RowId, at: Time): Rows {
    if id in rows then rows[id := rows[id].(status := Completed, completedAt := Some(at))] else rows
  }

  /** Only a reservation that nothing was attached to is removed. */
  function ReleasedRows(rows: Rows, id: RowId): Rows {
    if id in rows && rows[id].status.Reserved? && rows[id].runId.None? then rows - {id} else rows
  }

  predicate Expired(row: Row, cutoff: Time) {
    row.status.Completed? && row.completedAt.Some? && row.completedAt.value < cutoff
  }

  function CleanedUp(rows: Rows, cutoff: Time): Rows {
    map id | id in rows && !Expired(rows[id], cutoff) :: rows[id]
  }

  function NewRow(m: Message, createdAt: Time): Row {
    Row(m, None, Reserved, createdAt, None)
  }

  lemma CleanupParts(rows: Rows, ids: set<RowId>, cutoff: Time)
    requires ids == set id | id in rows && Expired(rows[id], cutoff)
    ensures rows - ids == CleanedUp(rows, cutoff)
    ensures |rows - ids| + |ids| == |rows|
  {
    assert (rows - ids).Keys + ids == rows.Keys;
  }

  /** A reservation that no run is attached to and that was not completed. */
  predicate Pending(rows: Rows, id: RowId) {
    id in rows && rows[id].status.Reserved? && rows[id].runId.None?
  }

  /** One channel and tenant, and one event or one message. */
  predicate SameDelivery(a: Message, b: Message) {
    (a.channel, a.tenant, a.eventId) == (b.channel, b.tenant, b.eventId)
    || (a.channel, a.tenant, a.messageId) == (b.channel, b.tenant, b.messageId)
  }

  class InboundDedupRepository {
    var rows: Rows
    var nextId: RowId

    constructor ()
      ensures rows == map[] && nextId == 0
    {
      rows, nextId := map[], 0;
    }

    /** Oldest row sharing the message's event id or message id. */
    method FindExisting(m: Message) returns (found: Option<RowId>)
      ensures found.None? ==> NoneFound(rows, m)
      ensures found.Some? ==> IsOldest(rows, m, found.value)
      ensures found.Some? ==> forall id :: id in rows && SameDelivery(rows[id].message, m) ==>
        rows[found.value].createdAt < rows[id].createdAt || (rows[found.value].createdAt == rows[id].createdAt && found.value <= id)
    {
      found := None;
      var left := rows.Keys;
      while left != {}
        invariant left <= rows.Keys
        invariant found.None? ==> forall id :: id in rows && id !in left ==> !Collides(rows[id].message, m)
        invariant found.Some? ==>
          && found.value in rows && Collides(rows[found.value].message, m)
          && forall id :: id in rows && id !in left && Collides(rows[id].message, m) ==> Earlier(rows, found.value, id)
        decreases left
      {
        var id :| id in left;
        left := left - {id};
        if Collides(rows[id].message, m) && (found.None? || Earlier(rows, id, found.value)) {
          found := Some(id);
        }
      }
    }

    /** Inserts a reservation unless a unique constraint forbids it. */
    method InsertReservation(m: Message, createdAt: Time) returns (id: Result<RowId, ()>)
      modifies this
      ensures id.Ok? <==> NoneFound(old(rows), m)
      ensures id.Err? <==> exists other :: other in old(rows) && SameDelivery(old(rows)[other].message, m)
      ensures id.Ok? ==> id.value == old(nextId) && rows == old(rows)[id.value := NewRow(m, createdAt)] && nextId == id.value + 1
      ensures id.Ok? ==> Pending(rows, id.value) && rows[id.value].message == m && rows[id.value].completedAt.None?
      ensures id.Err? ==> rows == old(rows) && nextId == old(nextId)
    {
      var clash := FindExisting(m);
      if clash.Some? {
        return Err(());
      }
      rows := rows[nextId := NewRow(m, createdAt)];
      nextId := nextId + 1;
      id := Ok(nextId - 1);
    }

    method MarkSubmitted(id: RowId, run: RunId) returns (found: bool)
      modifies this`rows
      ensures found <==> id in old(rows)
      ensures rows == Marked(old(rows), id, run)
      ensures rows.Keys == old(rows).Keys && forall other :: other in rows && other != id ==> rows[other] == old(rows)[other]
      ensures found ==>
        && rows[id].runId == Some(run) && rows[id].status.Submitted? && rows[id].message == old(rows)[id].message
        && rows[id].createdAt == old(rows)[id].createdAt && rows[id].completedAt == old(rows)[id].completedAt
    {
      found := id in rows;
      if found {
        rows := rows[id := rows[id].(runId := Some(run))];
        rows := rows[id := rows[id].(status := Submitted)];
      }
    }

    method MarkCompleted(id: RowId, at: Time) returns (found: bool)
      modifies this`rows
      ensures found <==> id in old(rows)
      ensures rows == MarkedCompleted(old(rows), id, at)
      ensures rows.Keys == old(rows).Keys && forall other :: other in rows && other != id ==> rows[other] == old(rows)[other]
      ensures found ==>
        && rows[id].status.Completed? && rows[id].completedAt == Some(at) && rows[id].message == old(rows)[id].message
        && rows[id].createdAt == old(rows)[id].createdAt && rows[id].runId == old(rows)[id].runId
    {
      found := id in rows;
      if found {
        rows := rows[id := rows[id].(status := Completed)];
        rows := rows[id := rows[id].(completedAt := Some(at))];
      }
    }

    /** A reservation that was not submitted is gone, and nothing else changes. */
    method ReleaseReservation(id: RowId)
      modifies this`rows
      ensures rows == ReleasedRows(old(rows), id)
      ensures rows == if Pending(old(rows), id) then old(rows) - {id} else old(rows)
    {
      rows := map r | r in rows && !(r == id && rows[r].status.Reserved? && rows[r].runId.None?) :: rows[r];
    }

    method CleanupCompletedOlderThan(cutoff: Time) returns (removed: nat)
      modifies this`rows
      ensures rows == CleanedUp(old(rows), cutoff)
      ensures forall id :: id in old(rows) ==>
        (id !in rows <==> old(rows)[id].status.Completed? && old(rows)[id].completedAt.Some? && old(rows)[id].completedAt.value < cutoff)
      ensures forall id :: id in rows ==> id in old(rows) && rows[id] == old(rows)[id]
      ensures removed == |old(rows)| - |rows|
    {
      var ids := set id | id in rows && Expired(rows[id], cutoff);
      CleanupParts(rows, ids, cutoff);
      rows := rows - ids;
      removed := |ids|;
    }
  }

  // ---------------------------------------------------------------- handlers

  datatype Outcome =
    | Ignored
    | AcceptedRun(run: RunId)
    | DuplicateRun(run: RunId)
    | DuplicatePending
    | Refused

  /** Where a handler is; the two lookups of `reserve` are attempts 0 and 1. */
  datatype Place =
    | Start
    | Finding(attempt: nat)
    | Inserting(attempt: nat)
    | Loading
    | Waiting(id: RowId)
    | Submitting(id: RowId)
    | Marking(id: RowId, run: RunId)
    | Releasing(id: RowId)
    | Finished(outcome: Outcome)

  datatype Handler = Handler(message: Message, place: Place)

  /** `issued` and `attached` remember every reservation ever made and every run ever attached to one. */
  datatype State = State(
    rows: Rows,
    nextId: RowId,
    handlers: map<nat, Handler>,
    issued: map<RowId, Message>,
    attached: map<RowId, RunId>)

  const INITIAL := State(map[], 0, map[], map[], map[])

  datatype Action =
    | Deliver(h: nat, message: Message)
    | Begin(h: nat)
    | FindRow(h: nat, id: RowId)
    | FindNothing(h: nat)
    | Insert(h: nat, createdAt: Time, reported: bool)
    | Poll(h: nat)
    | GiveUpWaiting(h: nat)
    | SubmitSucceeds(h: nat, run: RunId)
    | SubmitFails(h: nat)
    | Mark(h: nat, reported: bool)
    | MarkFails(h: nat)
    | Release(h: nat)
    | ReleaseFails(h: nat)
    | Die(h: nat)
    | Complete(id: RowId, at: Time)
    | Cleanup(cutoff: Time)

  function Moved(s: State, h: nat, place: Place): State
    requires h in s.handlers
  {
    s.(handlers := s.handlers[h := s.handlers[h].(place := place)])
  }

  function Inserted(s: State, m: Message, at: Time): State {
    s.(rows := s.rows[s.nextId := NewRow(m, at)], issued := s.issued[s.nextId := m], nextId := s.nextId + 1)
  }

  function Attached(s: State, id: RowId, run: RunId): State {
    s.(rows := Marked(s.rows, id, run), attached := s.attached[id := run])
  }

  /** What a handler does with an existing row. */
  function AsDuplicate(rows: Rows, id: RowId): Place
    requires id in rows
  {
    if rows[id].runId.Some? then Finished(DuplicateRun(rows[id].runId.value)) else Waiting(id)
  }

  /**
   * One atomic step; an action that does not apply changes nothing. `reported == false` on an
   * insert or a mark means that it took effect but the handler saw an error.
   */
  ghost function Apply(s: State, a: Action): State {
    match a
    case Deliver(h, m) => if h in s.handlers then s else s.(handlers := s.handlers[h := Handler(m, Start)])
    case Complete(id, at) => s.(rows := MarkedCompleted(s.rows, id, at))
    case Cleanup(cutoff) => s.(rows := CleanedUp(s.rows, cutoff))
    case _ =>
      if a.h !in s.handlers then s else HandlerStep(s, a, s.handlers[a.h].message, s.handlers[a.h].place)
  }

  ghost function HandlerStep(s: State, a: Action, m: Message, place: Place): State
    requires !a.Deliver? && !a.Complete? && !a.Cleanup? && a.h in s.handlers
  {
    match a
    case Begin(h) =>
      if place.Start? then Moved(s, h, if m.addressed then Finding(0) else Finished(Ignored)) else s
    case FindRow(h, id) =>
      if (place.Finding? || place.Loading?) && IsOldest(s.rows, m, id) then Moved(s, h, AsDuplicate(s.rows, id)) else s
    case FindNothing(h) =>
      if !NoneFound(s.rows, m) then s
      else if place.Finding? then Moved(s, h, Inserting(place.attempt))
      else if place.Loading? then Moved(s, h, Finished(Refused))
      else s
    case Insert(h, at, reported) =>
      if !place.Inserting? then s
      else if !NoneFound(s.rows, m) then Moved(s, h, if place.attempt == 0 then Finding(1) else Loading)
      else Moved(Inserted(s, m, at), h, if reported then Submitting(s.nextId) else Finished(Refused))
    case Poll(h) =>
      if place.Waiting? && place.id in s.rows && s.rows[place.id].runId.Some?
      then Moved(s, h, Finished(DuplicateRun(s.rows[place.id].runId.value))) else s
    case GiveUpWaiting(h) =>
      if place.Waiting? then Moved(s, h, Finished(DuplicatePending)) else s
    case SubmitSucceeds(h, run) =>
      if place.Submitting? then Moved(s, h, Marking(place.id, run)) else s
    case SubmitFails(h) =>
      if place.Submitting? then Moved(s, h, Releasing(place.id)) else s
    case Mark(h, reported) =>
      if !place.Marking? then s
      else if place.id !in s.rows then Moved(s, h, Releasing(place.id))
      else Moved(Attached(s, place.id, place.run), h, if reported then Finished(AcceptedRun(place.run)) else Releasing(place.id))
    case MarkFails(h) =>
      if place.Marking? then Moved(s, h, Releasing(place.id)) else s
    case Release(h) =>
      if place.Releasing? then Moved(s.(rows := ReleasedRows(s.rows, place.id)), h, Finished(Refused)) else s
    case ReleaseFails(h) =>
      if place.Releasing? then Moved(s, h, Finished(Refused)) else s
    case Die(h) =>
      if place.Finished? then s else Moved(s, h, Finished(Refused))
  }

  ghost function Run(s: State, actions: seq<Action>): State
    decreases |actions|
  {
    if actions == [] then s else Run(Apply(s, actions[0]), actions[1..])
  }

  // ---------------------------------------------------------------- the invariant

  /** The handler is between its own reservation and the attachment of a run to it. */
  predicate Live(p: Place) {
    p.Submitting? || p.Marking?
  }

  predicate Owns(p: Place, id: RowId) {
    (p.Submitting? || p.Marking? || p.Releasing?) && p.id == id
  }

  ghost predicate TableOk(s: State) {
    && (forall i, j :: i in s.rows && j in s.rows && i != j ==> !Collides(s.rows[i].message, s.rows[j].message))
    && (forall id :: id in s.rows ==> id in s.issued && s.rows[id].message == s.issued[id])
    && (forall id :: id in s.rows ==> (s.rows[id].runId.Some? <==> id in s.attached))
    && (forall id :: id in s.rows && id in s.attached ==> s.rows[id].runId == Some(s.attached[id]))
    && (forall id :: id in s.attached ==> id in s.issued)
    && (forall id :: id in s.issued ==> id < s.nextId)
  }

  ghost predicate PlaceOk(s: State, m: Message, p: Place) {
    match p
    case Submitting(id) => OwnRow(s, m, id)
    case Marking(id, _) => OwnRow(s, m, id)
    case Releasing(id) => id in s.issued && s.issued[id] == m
    case Waiting(id) => id in s.issued && Collides(s.issued[id], m)
    case Finished(AcceptedRun(run)) => exists id :: id in s.attached && id in s.issued && s.attached[id] == run && s.issued[id] == m
    case Finished(DuplicateRun(run)) => exists id :: id in s.attached && id in s.issued && s.attached[id] == run && Collides(s.issued[id], m)
    case _ => true
  }

  /** A live handler's reservation is still there, untouched. */
  ghost predicate OwnRow(s: State, m: Message, id: RowId) {
    id in s.rows && s.rows[id].message == m && s.rows[id].runId.None? && s.rows[id].status.Reserved?
  }

  ghost predicate Inv(s: State) {
    && TableOk(s)
    && (forall h :: h in s.handlers ==> PlaceOk(s, s.handlers[h].message, s.handlers[h].place))
    && (forall h, g, id :: h in s.handlers && g in s.handlers && h != g && Owns(s.handlers[h].place, id)
          ==> !Owns(s.handlers[g].place, id))
  }

  /** What holds of a handler even where completion is reported too early: no run is attached to its reservation yet. */
  ghost predicate Held(s: State, p: Place) {
    match p
    case Submitting(id) => id in s.issued && id !in s.attached
    case Marking(id, _) => id in s.issued && id !in s.attached
    case Releasing(id) => id in s.issued
    case _ => true
  }

  /** The part of the invariant that needs no guard: every reservation has at most one handler of its own. */
  ghost predicate Sound(s: State) {
    && TableOk(s)
    && (forall h :: h in s.handlers ==> Held(s, s.handlers[h].place))
    && (forall h, g, id :: h in s.handlers && g in s.handlers && h != g && Owns(s.handlers[h].place, id)
          ==> !Owns(s.handlers[g].place, id))
  }

  lemma InvIsSound(s: State)
    requires Inv(s)
    ensures Sound(s)
  {
    forall h | h in s.handlers ensures Held(s, s.handlers[h].place) {
      assert PlaceOk(s, s.handlers[h].message, s.handlers[h].place);
    }
  }

  /** Nobody is submitting under this reservation. */
  ghost predicate Unowned(s: State, id: RowId) {
    forall h :: h in s.handlers && Live(s.handlers[h].place) ==> s.handlers[h].place.id != id
  }

  /** Completion is only reported for reservations that nobody is still submitting under. */
  ghost predicate Guarded(s: State, a: Action) {
    a.Complete? ==> Unowned(s, a.id)
  }

  ghost predicate GuardedRun(s: State, actions: seq<Action>)
    decreases |actions|
  {
    actions != [] ==> Guarded(s, actions[0]) && GuardedRun(Apply(s, actions[0]), actions[1..])
  }

  /** No two handlers are submitting for one event or one message. */
  ghost predicate Exclusive(s: State) {
    forall h, g :: h in s.handlers && g in s.handlers && h != g
      && Live(s.handlers[h].place) && Live(s.handlers[g].place)
      ==> !Collides(s.handlers[h].message, s.handlers[g].message)
  }

  lemma InvIsExclusive(s: State)
    requires Inv(s)
    ensures Exclusive(s)
  {
    forall h, g | h in s.handlers && g in s.handlers && h != g && Live(s.handlers[h].place) && Live(s.handlers[g].place)
      ensures !Collides(s.handlers[h].message, s.handlers[g].message)
    {
      assert Owns(s.handlers[h].place, s.handlers[h].place.id);
      assert PlaceOk(s, s.handlers[h].message, s.handlers[h].place);
      assert PlaceOk(s, s.handlers[g].message, s.handlers[g].place);
    }
  }

  // ---------------------------------------------------------------- every step keeps it

  /** Moving one handler to a justified place. */
  lemma MoveKeepsInv(s: State, h: nat, p: Place)
    requires Inv(s) && h in s.handlers && PlaceOk(s, s.handlers[h].message, p)
    requires forall id :: Owns(p, id) ==>
      Owns(s.handlers[h].place, id) || forall g :: g in s.handlers ==> !Owns(s.handlers[g].place, id)
    ensures Inv(Moved(s, h, p))
  {
    var s' := Moved(s, h, p);
    forall g | g in s'.handlers ensures PlaceOk(s', s'.handlers[g].message, s'.handlers[g].place) {
      assert PlaceOk(s, s'.handlers[g].message, s'.handlers[g].place);
    }
  }

  /** Changing the table under handlers none of whose live reservations is touched. */
  lemma TableChangeKeepsInv(s: State, s': State)
    requires Inv(s) && TableOk(s') && s'.handlers == s.handlers
    requires forall id :: id in s.issued ==> id in s'.issued && s'.issued[id] == s.issued[id]
    requires forall id :: id in s.attached ==> id in s'.attached && s'.attached[id] == s.attached[id]
    requires forall id :: id in s.rows && !Unowned(s, id) ==> id in s'.rows && s'.rows[id] == s.rows[id]
    ensures Inv(s')
  {
    forall g | g in s'.handlers ensures PlaceOk(s', s'.handlers[g].message, s'.handlers[g].place) {
      assert PlaceOk(s, s.handlers[g].message, s.handlers[g].place);
      var p := s.handlers[g].place;
      if Live(p) {
        assert !Unowned(s, p.id);
      }
    }
  }

  lemma InsertTableOk(s: State, m: Message, at: Time)
    requires TableOk(s) && NoneFound(s.rows, m)
    ensures TableOk(Inserted(s, m, at))
  {
  }

  lemma InsertKeepsInv(s: State, h: nat, at: Time, reported: bool)
    requires Inv(s) && h in s.handlers && s.handlers[h].place.Inserting? && NoneFound(s.rows, s.handlers[h].message)
    ensures Inv(Moved(Inserted(s, s.handlers[h].message, at), h, if reported then Submitting(s.nextId) else Finished(Refused)))
  {
    var m := s.handlers[h].message;
    InsertTableOk(s, m, at);
    InvIsSound(s);
    FreshUnowned(s);
    TableChangeKeepsInv(s, Inserted(s, m, at));
    MoveKeepsInv(Inserted(s, m, at), h, if reported then Submitting(s.nextId) else Finished(Refused));
  }

  lemma FreshUnowned(s: State)
    requires Sound(s)
    ensures s.nextId !in s.rows && s.nextId !in s.issued && s.nextId !in s.attached
    ensures forall g :: g in s.handlers ==> !Owns(s.handlers[g].place, s.nextId)
  {
    forall g | g in s.handlers ensures !Owns(s.handlers[g].place, s.nextId) {
      assert Held(s, s.handlers[g].place);
    }
  }

  lemma AttachTableOk(s: State, id: RowId, run: RunId)
    requires TableOk(s) && id in s.rows && s.rows[id].runId.None?
    ensures TableOk(Attached(s, id, run))
    ensures id !in s.attached
  {
  }

  lemma AttachKeepsInv(s: State, id: RowId, run: RunId)
    requires Inv(s) && id in s.rows && s.rows[id].runId.None? && Unowned(s, id)
    ensures Inv(Attached(s, id, run))
  {
    AttachTableOk(s, id, run);
    TableChangeKeepsInv(s, Attached(s, id, run));
  }

  /** Attaching the run and leaving: first the handler lets go of its row, then the row changes. */
  lemma MarkKeepsInv(s: State, h: nat, id: RowId, run: RunId, place: Place)
    requires Inv(s) && h in s.handlers && s.handlers[h].place == Marking(id, run)
    requires place == Finished(AcceptedRun(run)) || place == Releasing(id)
    ensures Inv(Moved(Attached(s, id, run), h, place))
  {
    assert PlaceOk(s, s.handlers[h].message, s.handlers[h].place) && Owns(s.handlers[h].place, id);
    LetGo(s, h, id);
    var s1 := Moved(s, h, Releasing(id));
    AttachKeepsInv(s1, id, run);
    var s2 := Attached(s1, id, run);
    assert s2.handlers[h].message == s.handlers[h].message && s2.handlers[h].place == Releasing(id);
    assert PlaceOk(s2, s2.handlers[h].message, place);
    MoveKeepsInv(s2, h, place);
    MoveTwice(s, h, id, run, place);
  }

  lemma LetGo(s: State, h: nat, id: RowId)
    requires Inv(s) && h in s.handlers && Live(s.handlers[h].place) && s.handlers[h].place.id == id
    ensures Inv(Moved(s, h, Releasing(id))) && Unowned(Moved(s, h, Releasing(id)), id)
  {
    assert PlaceOk(s, s.handlers[h].message, s.handlers[h].place) && Owns(s.handlers[h].place, id);
    MoveKeepsInv(s, h, Releasing(id));
    InvIsSound(s);
    OthersDoNotOwn(s, h, id);
  }

  lemma OthersDoNotOwn(s: State, h: nat, id: RowId)
    requires Sound(s) && h in s.handlers && Owns(s.handlers[h].place, id)
    ensures forall g :: g in s.handlers && g != h && Live(s.handlers[g].place) ==> s.handlers[g].place.id != id
  {
    forall g | g in s.handlers && g != h && Live(s.handlers[g].place) ensures s.handlers[g].place.id != id {
      assert Owns(s.handlers[g].place, s.handlers[g].place.id);
    }
  }

  lemma MoveTwice(s: State, h: nat, id: RowId, run: RunId, place: Place)
    requires h in s.handlers
    ensures Moved(Attached(Moved(s, h, Releasing(id)), id, run), h, place) == Moved(Attached(s, id, run), h, place)
  {
    assert s.handlers[h := s.handlers[h].(place := Releasing(id))][h := s.handlers[h].(place := place)]
        == s.handlers[h := s.handlers[h].(place := place)];
  }

  /** Losing rows or completing them keeps the table consistent. */
  lemma ShrinkTableOk(s: State, rows: Rows)
    requires TableOk(s)
    requires forall id :: id in rows ==>
      id in s.rows && rows[id].message == s.rows[id].message && rows[id].runId == s.rows[id].runId
    ensures TableOk(s.(rows := rows))
  {
  }

  lemma ReleaseKeepsInv(s: State, h: nat, id: RowId)
    requires Inv(s) && h in s.handlers && s.handlers[h].place == Releasing(id)
    ensures Inv(Moved(s.(rows := ReleasedRows(s.rows, id)), h, Finished(Refused)))
  {
    var s1 := s.(rows := ReleasedRows(s.rows, id));
    InvIsSound(s);
    OthersDoNotOwn(s, h, id);
    ShrinkTableOk(s, s1.rows);
    assert Unowned(s, id);
    TableChangeKeepsInv(s, s1);
    MoveKeepsInv(s1, h, Finished(Refused));
  }

  /** Cleanup removes completed rows only, and a live reservation is not completed. */
  lemma CleanupKeepsInv(s: State, cutoff: Time)
    requires Inv(s)
    ensures Inv(s.(rows := CleanedUp(s.rows, cutoff)))
  {
    forall id | id in s.rows && !Unowned(s, id)
      ensures id in CleanedUp(s.rows, cutoff) && CleanedUp(s.rows, cutoff)[id] == s.rows[id]
    {
      var h :| h in s.handlers && Live(s.handlers[h].place) && s.handlers[h].place.id == id;
      assert PlaceOk(s, s.handlers[h].message, s.handlers[h].place);
    }
    ShrinkTableOk(s, CleanedUp(s.rows, cutoff));
    TableChangeKeepsInv(s, s.(rows := CleanedUp(s.rows, cutoff)));
  }

  lemma DuplicateOk(s: State, m: Message, id: RowId)
    requires Inv(s) && id in s.rows && Collides(s.rows[id].message, m)
    ensures PlaceOk(s, m, AsDuplicate(s.rows, id))
  {
  }

  /** Looking up and waiting: the handler owns nothing before or after. */
  lemma LookupKeepsInv(s: State, a: Action)
    requires Inv(s) && (a.Begin? || a.FindRow? || a.FindNothing? || a.Poll? || a.GiveUpWaiting?) && a.h in s.handlers
    ensures Inv(Apply(s, a))
  {
    var m, place := s.handlers[a.h].message, s.handlers[a.h].place;
    assert PlaceOk(s, m, place);
    if Apply(s, a) != s {
      if a.FindRow? {
        DuplicateOk(s, m, a.id);
      }
      MoveKeepsInv(s, a.h, Apply(s, a).handlers[a.h].place);
    }
  }

  lemma InsertStepKeepsInv(s: State, a: Action)
    requires Inv(s) && a.Insert? && a.h in s.handlers
    ensures Inv(Apply(s, a))
  {
    var place := s.handlers[a.h].place;
    if place.Inserting? {
      if NoneFound(s.rows, s.handlers[a.h].message) {
        InsertKeepsInv(s, a.h, a.createdAt, a.reported);
      } else {
        MoveKeepsInv(s, a.h, if place.attempt == 0 then Finding(1) else Loading);
      }
    }
  }

  /** Submitting, failing and dying: the handler keeps its own row or lets go of it. */
  lemma SubmitKeepsInv(s: State, a: Action)
    requires Inv(s) && (a.SubmitSucceeds? || a.SubmitFails? || a.MarkFails? || a.ReleaseFails? || a.Die?) && a.h in s.handlers
    ensures Inv(Apply(s, a))
  {
    var m, place := s.handlers[a.h].message, s.handlers[a.h].place;
    assert PlaceOk(s, m, place);
    if Apply(s, a) != s {
      MoveKeepsInv(s, a.h, Apply(s, a).handlers[a.h].place);
    }
  }

  lemma MarkStepKeepsInv(s: State, a: Action)
    requires Inv(s) && a.Mark? && a.h in s.handlers
    ensures Inv(Apply(s, a))
  {
    var m, place := s.handlers[a.h].message, s.handlers[a.h].place;
    assert PlaceOk(s, m, place);
    if place.Marking? {
      MarkKeepsInv(s, a.h, place.id, place.run, if a.reported then Finished(AcceptedRun(place.run)) else Releasing(place.id));
    }
  }

  lemma ReleaseStepKeepsInv(s: State, a: Action)
    requires Inv(s) && a.Release? && a.h in s.handlers
    ensures Inv(Apply(s, a))
  {
    if s.handlers[a.h].place.Releasing? {
      ReleaseKeepsInv(s, a.h, s.handlers[a.h].place.id);
    }
  }

  lemma HandlerStepKeepsInv(s: State, a: Action)
    requires Inv(s) && !a.Deliver? && !a.Complete? && !a.Cleanup? && a.h in s.handlers
    ensures Inv(Apply(s, a))
  {
    if a.Insert? {
      InsertStepKeepsInv(s, a);
    } else if a.Mark? {
      MarkStepKeepsInv(s, a);
    } else if a.Release? {
      ReleaseStepKeepsInv(s, a);
    } else if a.SubmitSucceeds? || a.SubmitFails? || a.MarkFails? || a.ReleaseFails? || a.Die? {
      SubmitKeepsInv(s, a);
    } else {
      LookupKeepsInv(s, a);
    }
  }

  lemma DeliverKeepsInv(s: State, h: nat, m: Message)
    requires Inv(s) && h !in s.handlers
    ensures Inv(s.(handlers := s.handlers[h := Handler(m, Start)]))
  {
    var s' := s.(handlers := s.handlers[h := Handler(m, Start)]);
    forall g | g in s'.handlers ensures PlaceOk(s', s'.handlers[g].message, s'.handlers[g].place) {
      if g in s.handlers {
        assert PlaceOk(s, s.handlers[g].message, s.handlers[g].place);
      }
    }
  }

  lemma CompleteKeepsInv(s: State, id: RowId, at: Time)
    requires Inv(s) && Unowned(s, id)
    ensures Inv(s.(rows := MarkedCompleted(s.rows, id, at)))
  {
    ShrinkTableOk(s, MarkedCompleted(s.rows, id, at));
    TableChangeKeepsInv(s, s.(rows := MarkedCompleted(s.rows, id, at)));
  }

  lemma StepKeepsInv(s: State, a: Action)
    requires Inv(s) && Guarded(s, a)
    ensures Inv(Apply(s, a))
  {
    match a
    case Deliver(h, m) =>
      if h !in s.handlers {
        DeliverKeepsInv(s, h, m);
      }
    case Complete(id, at) => CompleteKeepsInv(s, id, at);
    case Cleanup(cutoff) => CleanupKeepsInv(s, cutoff);
    case _ =>
      if a.h in s.handlers {
        HandlerStepKeepsInv(s, a);
      }
  }

  // ---------------------------------------------------------------- what every step keeps without the guard

  lemma MoveKeepsSound(s: State, h: nat, p: Place)
    requires Sound(s) && h in s.handlers && Held(s, p)
    requires forall id :: Owns(p, id) ==>
      Owns(s.handlers[h].place, id) || forall g :: g in s.handlers ==> !Owns(s.handlers[g].place, id)
    ensures Sound(Moved(s, h, p))
  {
    var s' := Moved(s, h, p);
    forall g | g in s'.handlers ensures Held(s', s'.handlers[g].place) {
      assert Held(s, s'.handlers[g].place);
    }
  }

  lemma TableChangeKeepsSound(s: State, s': State)
    requires Sound(s) && TableOk(s') && s'.handlers == s.handlers
    requires forall id :: id in s.issued ==> id in s'.issued
    requires forall id :: id in s'.attached && id !in s.attached ==> Unowned(s, id)
    ensures Sound(s')
  {
    forall g | g in s'.handlers ensures Held(s', s'.handlers[g].place) {
      assert Held(s, s.handlers[g].place);
    }
  }

  lemma InsertKeepsSound(s: State, a: Action)
    requires Sound(s) && a.Insert? && a.h in s.handlers
    requires s.handlers[a.h].place.Inserting? && NoneFound(s.rows, s.handlers[a.h].message)
    ensures Sound(Apply(s, a))
  {
    var s1 := Inserted(s, s.handlers[a.h].message, a.createdAt);
    InsertTableOk(s, s.handlers[a.h].message, a.createdAt);
    FreshUnowned(s);
    TableChangeKeepsSound(s, s1);
    MoveKeepsSound(s1, a.h, if a.reported then Submitting(s.nextId) else Finished(Refused));
  }

  /** The handler that marks lets go of its reservation, and nobody else has it. */
  lemma LetGoSound(s: State, h: nat, id: RowId)
    requires Sound(s) && h in s.handlers && Live(s.handlers[h].place) && s.handlers[h].place.id == id
    ensures Sound(Moved(s, h, Releasing(id))) && Unowned(Moved(s, h, Releasing(id)), id)
  {
    assert Owns(s.handlers[h].place, id) && Held(s, s.handlers[h].place);
    MoveKeepsSound(s, h, Releasing(id));
    OthersDoNotOwn(s, h, id);
  }

  lemma MarkKeepsSound(s: State, h: nat, id: RowId, run: RunId, place: Place)
    requires Sound(s) && h in s.handlers && s.handlers[h].place == Marking(id, run) && id in s.rows
    requires place == Finished(AcceptedRun(run)) || place == Releasing(id)
    ensures Sound(Moved(Attached(s, id, run), h, place))
  {
    assert Held(s, s.handlers[h].place);
    LetGoSound(s, h, id);
    var s1 := Moved(s, h, Releasing(id));
    AttachTableOk(s1, id, run);
    TableChangeKeepsSound(s1, Attached(s1, id, run));
    MoveKeepsSound(Attached(s1, id, run), h, place);
    MoveTwice(s, h, id, run, place);
  }

  lemma ShrinkKeepsSound(s: State, rows: Rows)
    requires Sound(s)
    requires forall id :: id in rows ==>
      id in s.rows && rows[id].message == s.rows[id].message && rows[id].runId == s.rows[id].runId
    ensures Sound(s.(rows := rows))
  {
    ShrinkTableOk(s, rows);
    TableChangeKeepsSound(s, s.(rows := rows));
  }

  lemma ReleaseKeepsSound(s: State, h: nat, id: RowId)
    requires Sound(s) && h in s.handlers
    ensures Sound(Moved(s.(rows := ReleasedRows(s.rows, id)), h, Finished(Refused)))
  {
    ShrinkKeepsSound(s, ReleasedRows(s.rows, id));
    MoveKeepsSound(s.(rows := ReleasedRows(s.rows, id)), h, Finished(Refused));
  }

  /** Every other step moves its handler at most, to a place where it owns no more than before. */
  lemma MoveStepKeepsSound(s: State, a: Action)
    requires Sound(s) && !a.Deliver? && !a.Complete? && !a.Cleanup? && !a.Release? && !a.Mark? && a.h in s.handlers
    requires a.Insert? ==> !s.handlers[a.h].place.Inserting? || !NoneFound(s.rows, s.handlers[a.h].message)
    ensures Sound(Apply(s, a))
  {
    assert Held(s, s.handlers[a.h].place);
    if Apply(s, a) != s {
      var p := Apply(s, a).handlers[a.h].place;
      assert Apply(s, a) == Moved(s, a.h, p);
      MoveKeepsSound(s, a.h, p);
    }
  }

  lemma HandlerStepKeepsSound(s: State, a: Action)
    requires Sound(s) && !a.Deliver? && !a.Complete? && !a.Cleanup? && a.h in s.handlers
    ensures Sound(Apply(s, a))
  {
    var place := s.handlers[a.h].place;
    if a.Release? {
      if place.Releasing? {
        ReleaseKeepsSound(s, a.h, place.id);
      }
    } else if a.Insert? && place.Inserting? && NoneFound(s.rows, s.handlers[a.h].message) {
      InsertKeepsSound(s, a);
    } else if !a.Mark? {
      MoveStepKeepsSound(s, a);
    } else if place.Marking? {
      assert Held(s, place);
      if place.id in s.rows {
        MarkKeepsSound(s, a.h, place.id, place.run, if a.reported then Finished(AcceptedRun(place.run)) else Releasing(place.id));
      } else {
        MoveKeepsSound(s, a.h, Releasing(place.id));
      }
    }
  }

  lemma DeliverKeepsSound(s: State, h: nat, m: Message)
    requires Sound(s)
    ensures Sound(Apply(s, Deliver(h, m)))
  {
    if h !in s.handlers {
      var s' := s.(handlers := s.handlers[h := Handler(m, Start)]);
      forall g | g in s'.handlers ensures Held(s', s'.handlers[g].place) {
        assert g in s.handlers ==> Held(s, s.handlers[g].place);
      }
    }
  }

  /** Every step of every handler, and every completion however early, keeps reservations and their handlers apart. */
  lemma StepKeepsSound(s: State, a: Action)
    requires Sound(s)
    ensures Sound(Apply(s, a))
  {
    match a
    case Deliver(h, m) => DeliverKeepsSound(s, h, m);
    case Complete(id, at) => ShrinkKeepsSound(s, MarkedCompleted(s.rows, id, at));
    case Cleanup(cutoff) => ShrinkKeepsSound(s, CleanedUp(s.rows, cutoff));
    case _ =>
      if a.h in s.handlers {
        HandlerStepKeepsSound(s, a);
      }
  }

  lemma {:induction false} RunKeepsSound(s: State, actions: seq<Action>)
    requires Sound(s)
    ensures Sound(Run(s, actions))
    decreases |actions|
  {
    if actions != [] {
      StepKeepsSound(s, actions[0]);
      RunKeepsSound(Apply(s, actions[0]), actions[1..]);
    }
  }

  // ---------------------------------------------------------------- what becomes of a run id

  /** Runs are attached as before, and rows that stay keep theirs. */
  ghost predicate SameRuns(s: State, s': State) {
    s'.attached == s.attached && forall id :: id in s.rows && id in s'.rows ==> s'.rows[id].runId == s.rows[id].runId
  }

  lemma TableActionsAttachNothing(s: State, a: Action)
    requires a.Complete? || a.Cleanup? || a.Deliver? || (a.Release? && a.h in s.handlers)
    ensures SameRuns(s, Apply(s, a))
  {
  }

  lemma InsertAttachesNothing(s: State, a: Action)
    requires Sound(s) && a.Insert? && a.h in s.handlers
    ensures SameRuns(s, Apply(s, a))
  {
    FreshUnowned(s);
  }

  /** No other action attaches a run or changes an attached one. */
  lemma OthersAttachNothing(s: State, a: Action)
    requires Sound(s) && !(a.Mark? && a.h in s.handlers && s.handlers[a.h].place.Marking?)
    ensures SameRuns(s, Apply(s, a))
  {
    if a.Complete? || a.Cleanup? || a.Deliver? || (a.Release? && a.h in s.handlers) {
      TableActionsAttachNothing(s, a);
    } else if a.Insert? && a.h in s.handlers {
      InsertAttachesNothing(s, a);
    } else {
      assert Apply(s, a).rows == s.rows;
    }
  }

  /** Only the mark of a live reservation attaches a run, to a row that has none. */
  lemma AttachesOnce(s: State, a: Action)
    requires Sound(s)
    ensures var s' := Apply(s, a);
      || (s'.attached == s.attached && forall id :: id in s.rows && id in s'.rows ==> s'.rows[id].runId == s.rows[id].runId)
      || (exists id, run :: id in s.rows && id !in s.attached && s'.rows == Marked(s.rows, id, run) && s'.attached == s.attached[id := run])
  {
    if a.Mark? && a.h in s.handlers && s.handlers[a.h].place.Marking? {
      assert Held(s, s.handlers[a.h].place);
    } else {
      OthersAttachNothing(s, a);
    }
  }

  /** Rows with a run go only when a cleanup finds them completed long enough ago. */
  lemma OnlyCleanupRemoves(s: State, a: Action, id: RowId)
    requires id in s.rows && s.rows[id].runId.Some?
    ensures id !in Apply(s, a).rows ==> a.Cleanup? && Expired(s.rows[id], a.cutoff)
  {
  }

  /** A run id once attached stays until its completed row is cleaned up, and is never attached anew. */
  lemma RunIdsArePermanent(s: State, a: Action, id: RowId)
    requires Sound(s) && id in s.attached
    ensures id in Apply(s, a).attached && Apply(s, a).attached[id] == s.attached[id]
    ensures id in s.rows ==>
      if id in Apply(s, a).rows then Apply(s, a).rows[id].runId == Some(s.attached[id])
      else a.Cleanup? && Expired(s.rows[id], a.cutoff)
  {
    AttachesOnce(s, a);
    if id in s.rows {
      OnlyCleanupRemoves(s, a, id);
    }
  }

  /** Submitting starts only when no row at all, with or without a run, shares the event or message id. */
  lemma NewSubmissionNeedsFreeIds(s: State, a: Action, h: nat)
    requires h in Apply(s, a).handlers && Live(Apply(s, a).handlers[h].place)
    requires !(h in s.handlers && Live(s.handlers[h].place))
    ensures NoneFound(s.rows, Apply(s, a).handlers[h].message)
  {
    StartsByInserting(s, a, h);
  }

  lemma StartsByInserting(s: State, a: Action, h: nat)
    requires h in Apply(s, a).handlers && Live(Apply(s, a).handlers[h].place)
    requires !(h in s.handlers && Live(s.handlers[h].place))
    ensures a.Insert? && a.h == h && h in s.handlers && s.handlers[h].place.Inserting? && NoneFound(s.rows, s.handlers[h].message)
  {
  }

  /**
   * In every interleaving of every number of handlers, with failures anywhere: at most one live
   * submission per event and per message, and every run reported for a delivery was attached to a
   * reservation of that very message (accepted) or of one sharing an id with it (duplicate).
   */
  lemma {:induction false} EveryRunIsExclusive(s: State, actions: seq<Action>)
    requires Inv(s) && GuardedRun(s, actions)
    ensures Inv(Run(s, actions)) && Exclusive(Run(s, actions))
    decreases |actions|
  {
    if actions == [] {
      InvIsExclusive(s);
    } else {
      StepKeepsInv(s, actions[0]);
      EveryRunIsExclusive(Apply(s, actions[0]), actions[1..]);
    }
  }

  // ---------------------------------------------------------------- runs from the start

  lemma InitialInv()
    ensures Inv(INITIAL)
  {
  }

  /** From an empty table, in every interleaving, no two handlers ever submit for one event or one message. */
  lemma AlwaysExclusive(actions: seq<Action>)
    requires GuardedRun(INITIAL, actions)
    ensures Inv(Run(INITIAL, actions)) && Exclusive(Run(INITIAL, actions))
  {
    InitialInv();
    EveryRunIsExclusive(INITIAL, actions);
  }

  lemma {:induction false} RunSplits(s: State, actions: seq<Action>, k: nat)
    requires k <= |actions|
    ensures Run(s, actions) == Run(Run(s, actions[..k]), actions[k..])
    decreases k
  {
    if k == 0 {
      assert actions[..0] == [] && actions[0..] == actions;
    } else {
      RunSplits(Apply(s, actions[0]), actions[1..], k - 1);
      assert actions[..k][1..] == actions[1..][..k - 1] && actions[1..][k - 1..] == actions[k..];
    }
  }

  /** At action `j` a cleanup removes the row, which still has this run and was completed before the cutoff. */
  ghost predicate CleanedAt(s: State, actions: seq<Action>, j: nat, id: RowId, run: RunId)
    requires j < |actions|
  {
    var t := Run(s, actions[..j]);
    actions[j].Cleanup? && id in t.rows && t.rows[id].runId == Some(run) && Expired(t.rows[id], actions[j].cutoff)
  }

  lemma {:induction false} KeptOrCleaned(s: State, actions: seq<Action>, id: RowId, run: RunId)
    requires Sound(s) && id in s.attached && s.attached[id] == run
    ensures var s' := Run(s, actions);
      && id in s'.attached && s'.attached[id] == run
      && (id in s'.rows ==> s'.rows[id].runId == Some(run))
      && (id in s.rows && id !in s'.rows ==> exists j :: 0 <= j < |actions| && CleanedAt(s, actions, j, id, run))
    decreases |actions|
  {
    if actions != [] {
      var s1 := Apply(s, actions[0]);
      StepKeepsSound(s, actions[0]);
      RunIdsArePermanent(s, actions[0], id);
      KeptOrCleaned(s1, actions[1..], id, run);
      if id in s.rows && id !in Run(s, actions).rows {
        if id in s1.rows {
          var j :| 0 <= j < |actions| - 1 && CleanedAt(s1, actions[1..], j, id, run);
          CleanedLater(s, actions, j, id, run);
        } else {
          assert actions[..0] == [] && CleanedAt(s, actions, 0, id, run);
        }
      }
    }
  }

  lemma CleanedLater(s: State, actions: seq<Action>, j: nat, id: RowId, run: RunId)
    requires j + 1 < |actions| && CleanedAt(Apply(s, actions[0]), actions[1..], j, id, run)
    ensures CleanedAt(s, actions, j + 1, id, run)
  {
    assert actions[..j + 1][1..] == actions[1..][..j];
  }

  /**
   * A run id seen in the table at any moment of any run, however early completions are reported, is there at every
   * later moment too, unchanged, until a cleanup finds its row completed long enough ago.
   */
  lemma RunIdIsSetOnce(actions: seq<Action>, k: nat, id: RowId)
    requires k <= |actions|
    requires id in Run(INITIAL, actions[..k]).rows && Run(INITIAL, actions[..k]).rows[id].runId.Some?
    ensures var s, s' := Run(INITIAL, actions[..k]), Run(INITIAL, actions);
      if id in s'.rows then s'.rows[id].runId == s.rows[id].runId
      else exists j :: 0 <= j < |actions| - k && CleanedAt(s, actions[k..], j, id, s.rows[id].runId.value)
  {
    RunSplits(INITIAL, actions, k);
    RunKeepsSound(INITIAL, actions[..k]);
    var s := Run(INITIAL, actions[..k]);
    KeptOrCleaned(s, actions[k..], id, s.rows[id].runId.value);
  }

  /** In every run, while a row with a run id remains, nobody is submitting for its event or its message. */
  lemma NoSubmissionBesideARun(actions: seq<Action>, id: RowId, h: nat)
    requires GuardedRun(INITIAL, actions)
    requires var s := Run(INITIAL, actions);
      && id in s.rows && s.rows[id].runId.Some? && h in s.handlers && Live(s.handlers[h].place)
    ensures !Collides(Run(INITIAL, actions).rows[id].message, Run(INITIAL, actions).handlers[h].message)
  {
    AlwaysExclusive(actions);
    var s := Run(INITIAL, actions);
    assert PlaceOk(s, s.handlers[h].message, s.handlers[h].place);
  }

  // ---------------------------------------------------------------- the guard is needed

  /** A second delivery gets through once the first one's row is gone. */
  lemma RedeliveryInserts(s: State, g: nat, m: Message)
    requires g !in s.handlers && m.addressed && NoneFound(s.rows, m)
    ensures Run(s, [Deliver(g, m), Begin(g), FindNothing(g), Insert(g, 0, true)])
         == Moved(Inserted(s.(handlers := s.handlers[g := Handler(m, Start)]), m, 0), g, Submitting(s.nextId))
  {
    var s1 := Apply(s, Deliver(g, m));
    var s2 := Apply(s1, Begin(g));
    assert s2 == Moved(s1, g, Finding(0));
    var s3 := Apply(s2, FindNothing(g));
    assert s3 == Moved(s2, g, Inserting(0));
    var s4 := Apply(s3, Insert(g, 0, true));
    assert s4 == Moved(Inserted(s3, m, 0), g, Submitting(s.nextId));
    assert s1.handlers[g := Handler(m, Finding(0))][g := Handler(m, Inserting(0))][g := Handler(m, Submitting(s.nextId))]
        == s1.handlers[g := Handler(m, Submitting(s.nextId))];
    RunFour(s, Deliver(g, m), Begin(g), FindNothing(g), Insert(g, 0, true));
  }

  lemma RunCons(s: State, a: Action, rest: seq<Action>)
    ensures Run(s, [a] + rest) == Run(Apply(s, a), rest)
    ensures !a.Complete? && GuardedRun(Apply(s, a), rest) ==> GuardedRun(s, [a] + rest)
  {
    assert ([a] + rest)[1..] == rest;
  }

  lemma RunFour(s: State, a: Action, b: Action, c: Action, d: Action)
    requires !a.Complete? && !b.Complete? && !c.Complete? && !d.Complete?
    ensures Run(s, [a, b, c, d]) == Apply(Apply(Apply(Apply(s, a), b), c), d)
    ensures GuardedRun(s, [a, b, c, d])
  {
    var s1 := Apply(s, a);
    var s2 := Apply(s1, b);
    var s3 := Apply(s2, c);
    RunCons(s3, d, []);
    RunCons(s2, c, [d]);
    RunCons(s1, b, [c, d]);
    RunCons(s, a, [b, c, d]);
    assert [d] + [] == [d] && [c] + [d] == [c, d] && [b] + [c, d] == [b, c, d] && [a] + [b, c, d] == [a, b, c, d];
  }

  /** Completing a reservation and cleaning up frees its event and message ids. */
  lemma IdsAreFreed(s: State, id: RowId, at: Time, m: Message)
    requires TableOk(s) && id in s.rows && m == s.rows[id].message.(addressed := true)
    ensures NoneFound(CleanedUp(MarkedCompleted(s.rows, id, at), at + 1), m)
  {
    var rows := CleanedUp(MarkedCompleted(s.rows, id, at), at + 1);
    forall j | j in rows ensures !Collides(rows[j].message, m) {
      assert j != id && !Collides(s.rows[j].message, s.rows[id].message);
    }
  }

  lemma TwoLiveCollide(s: State, h: nat, g: nat)
    requires h in s.handlers && g in s.handlers && h != g && Live(s.handlers[h].place) && Live(s.handlers[g].place)
    requires s.handlers[g].message == s.handlers[h].message.(addressed := true)
    ensures !Exclusive(s)
  {
    assert Collides(s.handlers[h].message, s.handlers[g].message);
  }

  lemma FreedUnderSubmission(s: State, h: nat, at: Time, s1: State)
    requires Inv(s) && h in s.handlers && Live(s.handlers[h].place) && s1 == Apply(s, Complete(s.handlers[h].place.id, at))
    ensures s1.handlers == s.handlers
    ensures NoneFound(Apply(s1, Cleanup(at + 1)).rows, s.handlers[h].message.(addressed := true))
  {
    assert PlaceOk(s, s.handlers[h].message, s.handlers[h].place);
    IdsAreFreed(s, s.handlers[h].place.id, at, s.handlers[h].message.(addressed := true));
  }

  /** Reporting completion under a live submission, then cleaning up, lets a second submission start beside it. */
  lemma EarlyCompletionBreaks(s: State, h: nat, at: Time, g: nat) returns (actions: seq<Action>)
    requires Inv(s) && h in s.handlers && Live(s.handlers[h].place) && g !in s.handlers
    ensures GuardedRun(Apply(s, Complete(s.handlers[h].place.id, at)), actions)
    ensures !Exclusive(Run(Apply(s, Complete(s.handlers[h].place.id, at)), actions))
  {
    var s1 := Apply(s, Complete(s.handlers[h].place.id, at));
    FreedUnderSubmission(s, h, at, s1);
    actions := BreakFrom(s1, Apply(s1, Cleanup(at + 1)), at, h, g, s.handlers[h].message.(addressed := true));
  }

  lemma BreakFrom(s1: State, s2: State, at: Time, h: nat, g: nat, m: Message) returns (actions: seq<Action>)
    requires s2 == Apply(s1, Cleanup(at + 1)) && g !in s2.handlers && NoneFound(s2.rows, m)
    requires h in s2.handlers && Live(s2.handlers[h].place) && m == s2.handlers[h].message.(addressed := true)
    ensures GuardedRun(s1, actions) && !Exclusive(Run(s1, actions))
  {
    var again := [Deliver(g, m), Begin(g), FindNothing(g), Insert(g, 0, true)];
    RedeliveryInserts(s2, g, m);
    RunFour(s2, Deliver(g, m), Begin(g), FindNothing(g), Insert(g, 0, true));
    actions := [Cleanup(at + 1)] + again;
    RunCons(s1, Cleanup(at + 1), again);
    TwoLiveCollide(Run(s1, actions), h, g);
  }

  ghost predicate AlwaysExclusiveFrom(s: State) {
    forall actions :: GuardedRun(s, actions) ==> Exclusive(Run(s, actions))
  }

  /** Reporting completion of a reservation is harmless exactly when no handler is submitting under it. */
  lemma CompletionIsSafeIffUnowned(s: State, id: RowId, at: Time, g: nat)
    requires Inv(s) && g !in s.handlers
    ensures AlwaysExclusiveFrom(Apply(s, Complete(id, at))) <==> Unowned(s, id)
  {
    if Unowned(s, id) {
      CompleteKeepsInv(s, id, at);
      forall actions | GuardedRun(Apply(s, Complete(id, at)), actions)
        ensures Exclusive(Run(Apply(s, Complete(id, at)), actions))
      {
        EveryRunIsExclusive(Apply(s, Complete(id, at)), actions);
      }
    } else {
      var h :| h in s.handlers && Live(s.handlers[h].place) && s.handlers[h].place.id == id;
      var actions := EarlyCompletionBreaks(s, h, at, g);
    }
  }

  /** A caller can tell from the row: with a run id attached nobody is submitting under it any more. */
  lemma AttachedIsUnowned(s: State, id: RowId)
    requires Inv(s) && id in s.rows && s.rows[id].runId.Some?
    ensures Unowned(s, id)
  {
    forall h | h in s.handlers && Live(s.handlers[h].place) ensures s.handlers[h].place.id != id {
      assert PlaceOk(s, s.handlers[h].message, s.handlers[h].place);
    }
  }
}

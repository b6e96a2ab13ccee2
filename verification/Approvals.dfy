/**
 * Approvals of capability requests and the runs that wait for them. Every operation holds the service lock from
 * start to end, so operations happen one after the other; the run repository may refuse any resolution.
 */
module Approvals {
  import opened Prelude
  import opened ResourcePolicy

  type Time = int

  datatype Status = Pending | Approved | Rejected | Expired

  /** Equal fingerprints mean equal requests, up to the spelling of the resource. */
  datatype Fingerprint = Fingerprint(
    tenant: nat, user: nat, run: nat, agent: string, capability: string, operation: string,
    resource: Option<string>, arguments: string, idempotencyKey: string)

  function FingerprintOf(r: CapabilityRequest): Fingerprint {
    Fingerprint(r.tenant, r.user, r.run, r.agent, r.capability, r.operation,
                Normalized(r.resource), r.arguments, r.idempotencyKey)
  }

  datatype ApprovalRecord = ApprovalRecord(
    id: nat, fingerprint: Fingerprint, tenant: nat, user: nat, run: nat, expiresAt: Time, status: Status)

  datatype RunStatus = Running | Cancelled

  /** A resolution that the run repository has accepted. */
  datatype Resolution = Resolution(tenant: nat, run: nat, outcome: RunStatus, approvalId: nat, fingerprint: Fingerprint)

  /** Records by id in order of creation, resolutions in order of acceptance, and whether a repository is bound. */
  datatype State = State(records: seq<ApprovalRecord>, resolutions: seq<Resolution>, bound: bool)

  datatype ApprovalError = ApprovalMismatch | ApprovalExpired | ApprovalRejected | RunRefused | WaitFailed

  // ---------------------------------------------------------------- the specification

  predicate IsPending(r: ApprovalRecord, f: Fingerprint) {
    r.status.Pending? && r.fingerprint == f
  }

  /** The first pending record of a fingerprint. */
  function FindPending(records: seq<ApprovalRecord>, f: Fingerprint): (at: Option<nat>)
    ensures at.Some? ==> at.value < |records| && IsPending(records[at.value], f)
    ensures at.None? ==> forall i :: 0 <= i < |records| ==> !IsPending(records[i], f)
  {
    if records == [] then None
    else
      var front := FindPending(records[..|records| - 1], f);
      if front.Some? then front
      else if IsPending(records[|records| - 1], f) then Some(|records| - 1)
      else None
  }

  function Outcome(status: Status): RunStatus {
    if status.Approved? then Running else Cancelled
  }

  function ResolutionOf(r: ApprovalRecord, status: Status): Resolution {
    Resolution(r.tenant, r.run, Outcome(status), r.id, r.fingerprint)
  }

  /** Resolves the run, if a repository is bound, and then settles the record; nothing if the repository refuses. */
  function Settled(s: State, id: nat, status: Status, accepts: bool): Option<State>
    requires id < |s.records|
  {
    if s.bound && !accepts then None
    else
      Some(s.(records := s.records[id := s.records[id].(status := status)],
              resolutions := s.resolutions + if s.bound then [ResolutionOf(s.records[id], status)] else []))
  }

  function NewRecord(s: State, request: CapabilityRequest, now: Time, lifetime: Time): ApprovalRecord {
    ApprovalRecord(|s.records|, FingerprintOf(request), request.tenant, request.user, request.run, now + lifetime, Pending)
  }

  function Created(s: State, request: CapabilityRequest, now: Time, lifetime: Time): (ApprovalRecord, State) {
    match FindPending(s.records, FingerprintOf(request))
    case Some(i) => (s.records[i], s)
    case None =>
      var r := NewRecord(s, request, now, lifetime);
      (r, s.(records := s.records + [r]))
  }

  type Reply = Result<ApprovalRecord, ApprovalError>

  function Decided(s: State, id: nat, status: Status, accepts: bool): (Reply, State)
    requires id < |s.records|
  {
    match Settled(s, id, status, accepts)
    case None => (Err(RunRefused), s)
    case Some(s') =>
      (match status
       case Approved => Ok(s'.records[id])
       case Rejected => Err(ApprovalRejected)
       case _ => Err(ApprovalExpired), s')
  }

  function Approving(s: State, id: nat, request: CapabilityRequest, actor: nat, now: Time, accepts: bool): (Reply, State) {
    if id >= |s.records| || !s.records[id].status.Pending? then (Err(ApprovalMismatch), s)
    else if actor != s.records[id].user || FingerprintOf(request) != s.records[id].fingerprint then (Err(ApprovalMismatch), s)
    else Decided(s, id, if now >= s.records[id].expiresAt then Expired else Approved, accepts)
  }

  function Rejecting(s: State, id: nat, actor: nat, now: Time, accepts: bool): (Reply, State) {
    if id >= |s.records| || !s.records[id].status.Pending? || actor != s.records[id].user then (Err(ApprovalMismatch), s)
    else Decided(s, id, if now >= s.records[id].expiresAt then Expired else Rejected, accepts)
  }

  predicate Due(r: ApprovalRecord, clock: nat -> Time) {
    r.status.Pending? && clock(r.id) >= r.expiresAt
  }

  /** Expires every due record from the `i`th on, until the repository refuses one. */
  function Expiring(s: State, i: nat, clock: nat -> Time, accepts: nat -> bool): (r: (Result<nat, ApprovalError>, State))
    requires i <= |s.records|
    decreases |s.records| - i
  {
    if i == |s.records| then (Ok(0), s)
    else if !Due(s.records[i], clock) then Expiring(s, i + 1, clock, accepts)
    else
      match Settled(s, i, Expired, accepts(i))
      case None => (Err(RunRefused), s)
      case Some(s') =>
        var rest := Expiring(s', i + 1, clock, accepts);
        (match rest.0 case Ok(n) => Ok(n + 1) case Err(e) => Err(e), rest.1)
  }

  // ---------------------------------------------------------------- what a caller is told

  /** The record waits, for its own user, for exactly this request. */
  predicate Awaits(s: State, id: nat, request: CapabilityRequest, actor: nat) {
    id < |s.records| && s.records[id].status.Pending? && actor == s.records[id].user && FingerprintOf(request) == s.records[id].fingerprint
  }

  /** The answer to an approval: the approved record exactly if this call approved it, and otherwise why it did not. */
  ghost predicate AnswersApproval(s: State, s': State, r: Reply, id: nat, request: CapabilityRequest, actor: nat, now: Time, accepts: bool) {
    && (r.Ok? <==> Awaits(s, id, request, actor) && now < s.records[id].expiresAt && (s.bound ==> accepts))
    && (r.Ok? ==> r.value == s.records[id].(status := Approved) && s'.records == s.records[id := r.value])
    && (r == Err(ApprovalExpired) <==> id < |s.records| && s.records[id].status.Pending? && id < |s'.records| && s'.records[id].status.Expired?)
    && (r == Err(ApprovalMismatch) <==> !Awaits(s, id, request, actor))
    && (r == Err(RunRefused) <==> Awaits(s, id, request, actor) && s.bound && !accepts)
    && (r == Err(ApprovalMismatch) || r == Err(RunRefused) ==> s' == s)
  }

  /** The answer to a rejection is never a record: the record was rejected, or had expired, or nothing was done. */
  ghost predicate AnswersRejection(s: State, s': State, r: Reply, id: nat, actor: nat, now: Time, accepts: bool) {
    var own := id < |s.records| && s.records[id].status.Pending? && actor == s.records[id].user;
    && !r.Ok?
    && (r == Err(ApprovalRejected) <==> own && now < s.records[id].expiresAt && (s.bound ==> accepts))
    && (r == Err(ApprovalRejected) ==> s'.records == s.records[id := s.records[id].(status := Rejected)])
    && (r == Err(ApprovalExpired) <==> own && id < |s'.records| && s'.records[id].status.Expired?)
    && (r == Err(ApprovalMismatch) <==> !own)
    && (r == Err(RunRefused) <==> own && s.bound && !accepts)
    && (r == Err(ApprovalMismatch) || r == Err(RunRefused) ==> s' == s)
  }

  lemma ApprovalIsAnswered(s: State, id: nat, request: CapabilityRequest, actor: nat, now: Time, accepts: bool)
    ensures var (r, s') := Approving(s, id, request, actor, now, accepts);
      AnswersApproval(s, s', r, id, request, actor, now, accepts)
  {
  }

  lemma RejectionIsAnswered(s: State, id: nat, actor: nat, now: Time, accepts: bool)
    ensures var (r, s') := Rejecting(s, id, actor, now, accepts);
      AnswersRejection(s, s', r, id, actor, now, accepts)
  {
  }

  /** Requests have one fingerprint exactly if they are equal, up to resources with one normal form or none. */
  lemma SameFingerprintIff(a: CapabilityRequest, b: CapabilityRequest)
    ensures FingerprintOf(a) == FingerprintOf(b) <==>
      a.(resource := b.resource) == b && Normalized(a.resource) == Normalized(b.resource)
  {
  }

  // ---------------------------------------------------------------- the service

  class ApprovalService {
    const lifetime: Time
    var records: seq<ApprovalRecord>
    var resolutions: seq<Resolution>
    var bound: bool

    ghost predicate Valid()
      reads this
    {
      Inv(Contents())
    }

    constructor (lifetime: Time)
      ensures Valid() && this.lifetime == lifetime && Contents() == State([], [], false)
    {
      this.lifetime, records, resolutions, bound := lifetime, [], [], false;
    }

    function Contents(): State
      reads this
    {
      State(records, resolutions, bound)
    }

    method BindRunRepository()
      requires Valid()
      modifies this`bound
      ensures Valid() && Contents() == old(Contents()).(bound := true)
    {
      bound := true;
    }

    method Create(request: CapabilityRequest, now: Time) returns (r: ApprovalRecord)
      requires Valid()
      modifies this`records
      ensures Valid()
      ensures (r, Contents()) == Created(old(Contents()), request, now, lifetime)
      ensures r.status.Pending? && r.fingerprint == FingerprintOf(request) && r in records
      ensures r in old(records) ==> records == old(records)
      ensures r !in old(records) ==>
        && records == old(records) + [r] && r.expiresAt == now + lifetime
        && forall other :: other in old(records) && other.status.Pending? ==> other.fingerprint != r.fingerprint
    {
      CreatedKeepsInv(Contents(), request, now, lifetime);
      var existing := FindPending(records, FingerprintOf(request));
      if existing.Some? {
        return records[existing.value];
      }
      r := NewRecord(Contents(), request, now, lifetime);
      records := records + [r];
    }

    /** The record stays even if the run does not begin to wait for it. */
    method StartWaiting(request: CapabilityRequest, now: Time, begins: bool) returns (r: Reply)
      requires Valid()
      modifies this`records
      ensures Valid()
      ensures Contents() == Created(old(Contents()), request, now, lifetime).1
      ensures r == if begins then Ok(Created(old(Contents()), request, now, lifetime).0) else Err(WaitFailed)
    {
      var record := Create(request, now);
      r := if begins then Ok(record) else Err(WaitFailed);
    }

    method Settle(id: nat, status: Status, accepts: bool) returns (done: bool)
      requires id < |records|
      modifies this`records, this`resolutions
      ensures done == Settled(old(Contents()), id, status, accepts).Some?
      ensures Contents() == if done then Settled(old(Contents()), id, status, accepts).value else old(Contents())
    {
      var settled := records[id].(status := status);
      done := true;
      if bound {
        if !accepts {
          return false;
        }
        resolutions := resolutions + [ResolutionOf(records[id], status)];
      }
      records := records[id := settled];
    }

    method Approve(id: nat, request: CapabilityRequest, actor: nat, now: Time, accepts: bool) returns (r: Reply)
      requires Valid()
      modifies this`records, this`resolutions
      ensures Valid()
      ensures (r, Contents()) == Approving(old(Contents()), id, request, actor, now, accepts)
      ensures AnswersApproval(old(Contents()), Contents(), r, id, request, actor, now, accepts)
    {
      ApprovingKeepsInv(Contents(), id, request, actor, now, accepts);
      if id >= |records| || !records[id].status.Pending? {
        r := Err(ApprovalMismatch);
      } else if actor != records[id].user || FingerprintOf(request) != records[id].fingerprint {
        r := Err(ApprovalMismatch);
      } else if now >= records[id].expiresAt {
        var expired := Settle(id, Expired, accepts);
        r := if expired then Err(ApprovalExpired) else Err(RunRefused);
      } else {
        var approved := Settle(id, Approved, accepts);
        r := if approved then Ok(records[id]) else Err(RunRefused);
      }
    }

    method Reject(id: nat, actor: nat, now: Time, accepts: bool) returns (r: Reply)
      requires Valid()
      modifies this`records, this`resolutions
      ensures Valid()
      ensures (r, Contents()) == Rejecting(old(Contents()), id, actor, now, accepts)
      ensures AnswersRejection(old(Contents()), Contents(), r, id, actor, now, accepts)
    {
      RejectingKeepsInv(Contents(), id, actor, now, accepts);
      if id >= |records| || !records[id].status.Pending? || actor != records[id].user {
        r := Err(ApprovalMismatch);
      } else if now >= records[id].expiresAt {
        var expired := Settle(id, Expired, accepts);
        r := if expired then Err(ApprovalExpired) else Err(RunRefused);
      } else {
        var rejected := Settle(id, Rejected, accepts);
        r := if rejected then Err(ApprovalRejected) else Err(RunRefused);
      }
    }

    method ExpireDue(clock: nat -> Time, accepts: nat -> bool) returns (r: Result<nat, ApprovalError>)
      requires Valid()
      modifies this`records, this`resolutions
      ensures Valid()
      ensures (r, Contents()) == Expiring(old(Contents()), 0, clock, accepts)
      ensures r.Ok? ==> r.value == |set i | 0 <= i < |old(records)| && Due(old(records)[i], clock)|
    {
      SweepCounts(Contents(), 0, clock, accepts);
      ExpiringKeepsInv(Contents(), 0, clock, accepts);
      var expired, i, refused := 0, 0, false;
      while i < |records| && !refused
        invariant i <= |records| && forall k :: 0 <= k < |records| ==> records[k].id == k
        invariant !refused ==>
          var rest := Expiring(Contents(), i, clock, accepts);
          Expiring(old(Contents()), 0, clock, accepts) == (match rest.0 case Ok(n) => Ok(expired + n) case Err(e) => Err(e), rest.1)
        invariant refused ==> Expiring(old(Contents()), 0, clock, accepts) == (Err(RunRefused), Contents())
        decreases |records| - i, !refused
      {
        if Due(records[i], clock) {
          var done := Settle(i, Expired, accepts(i));
          if done {
            expired := expired + 1;
            i := i + 1;
          } else {
            refused := true;
          }
        } else {
          i := i + 1;
        }
      }
      r := if refused then Err(RunRefused) else Ok(expired);
    }
  }

  // ---------------------------------------------------------------- runs

  datatype Command =
    | Bind
    | Create(request: CapabilityRequest, now: Time)
    | Approve(id: nat, request: CapabilityRequest, actor: nat, now: Time, accepts: bool)
    | Reject(id: nat, actor: nat, now: Time, accepts: bool)
    | ExpireDue(clock: nat -> Time, acceptsEach: nat -> bool)

  function Apply(s: State, c: Command, lifetime: Time): State {
    match c
    case Bind => s.(bound := true)
    case Create(request, now) => Created(s, request, now, lifetime).1
    case Approve(id, request, actor, now, accepts) => Approving(s, id, request, actor, now, accepts).1
    case Reject(id, actor, now, accepts) => Rejecting(s, id, actor, now, accepts).1
    case ExpireDue(clock, acceptsEach) => Expiring(s, 0, clock, acceptsEach).1
  }

  function Run(s: State, commands: seq<Command>, lifetime: Time): State
    decreases |commands|
  {
    if commands == [] then s
    else
      var n := |commands| - 1;
      Apply(Run(s, commands[..n], lifetime), commands[n], lifetime)
  }

  // ---------------------------------------------------------------- the invariant

  ghost predicate RecordsOk(records: seq<ApprovalRecord>) {
    forall i :: 0 <= i < |records| ==>
      && records[i].id == i && records[i].tenant == records[i].fingerprint.tenant
      && records[i].user == records[i].fingerprint.user && records[i].run == records[i].fingerprint.run
  }

  ghost predicate OnePending(records: seq<ApprovalRecord>) {
    forall i, j :: 0 <= i < j < |records| && records[i].status.Pending? && records[j].status.Pending? ==>
      records[i].fingerprint != records[j].fingerprint
  }

  /** Resolutions are of settled records, as they were settled, and no two are of the same one. */
  ghost predicate ResolutionsOk(records: seq<ApprovalRecord>, resolutions: seq<Resolution>) {
    && (forall k :: 0 <= k < |resolutions| ==>
          var id := resolutions[k].approvalId;
          id < |records| && !records[id].status.Pending? && resolutions[k] == ResolutionOf(records[id], records[id].status))
    && (forall k, l :: 0 <= k < l < |resolutions| ==> resolutions[k].approvalId != resolutions[l].approvalId)
  }

  ghost predicate Resolves(resolutions: seq<Resolution>, id: nat) {
    exists k :: 0 <= k < |resolutions| && resolutions[k].approvalId == id
  }

  ghost predicate Inv(s: State) {
    RecordsOk(s.records) && OnePending(s.records) && ResolutionsOk(s.records, s.resolutions)
  }

  /** With a repository bound, every settled record's run has been resolved. */
  ghost predicate AllResolved(s: State) {
    s.bound && forall i :: 0 <= i < |s.records| && !s.records[i].status.Pending? ==> Resolves(s.resolutions, i)
  }

  lemma SettledKeepsInv(s: State, id: nat, status: Status, accepts: bool)
    requires Inv(s) && id < |s.records| && s.records[id].status.Pending? && !status.Pending?
    requires Settled(s, id, status, accepts).Some?
    ensures Inv(Settled(s, id, status, accepts).value)
    ensures AllResolved(s) ==> AllResolved(Settled(s, id, status, accepts).value)
  {
    var s' := Settled(s, id, status, accepts).value;
    if s.bound {
      var last := |s.resolutions|;
      assert s'.resolutions[last] == ResolutionOf(s'.records[id], status);
      assert s'.resolutions[last].approvalId == id;
      if AllResolved(s) {
        forall i | 0 <= i < |s'.records| && !s'.records[i].status.Pending? ensures Resolves(s'.resolutions, i) {
          if i != id {
            var k :| 0 <= k < |s.resolutions| && s.resolutions[k].approvalId == i;
            assert s'.resolutions[k].approvalId == i;
          }
        }
      }
    }
  }

  lemma CreatedKeepsInv(s: State, request: CapabilityRequest, now: Time, lifetime: Time)
    requires Inv(s)
    ensures Inv(Created(s, request, now, lifetime).1)
    ensures AllResolved(s) ==> AllResolved(Created(s, request, now, lifetime).1)
  {
    if FindPending(s.records, FingerprintOf(request)).None? {
      assert forall i :: 0 <= i < |s.records| ==> !IsPending(s.records[i], FingerprintOf(request));
    }
  }

  lemma {:induction false} ExpiringKeepsInv(s: State, i: nat, clock: nat -> Time, accepts: nat -> bool)
    requires Inv(s) && i <= |s.records|
    ensures Inv(Expiring(s, i, clock, accepts).1)
    ensures AllResolved(s) ==> AllResolved(Expiring(s, i, clock, accepts).1)
    decreases |s.records| - i
  {
    if i < |s.records| {
      if !Due(s.records[i], clock) {
        ExpiringKeepsInv(s, i + 1, clock, accepts);
      } else if Settled(s, i, Expired, accepts(i)).Some? {
        SettledKeepsInv(s, i, Expired, accepts(i));
        ExpiringKeepsInv(Settled(s, i, Expired, accepts(i)).value, i + 1, clock, accepts);
      }
    }
  }

  lemma ApprovingKeepsInv(s: State, id: nat, request: CapabilityRequest, actor: nat, now: Time, accepts: bool)
    requires Inv(s)
    ensures Inv(Approving(s, id, request, actor, now, accepts).1)
    ensures AllResolved(s) ==> AllResolved(Approving(s, id, request, actor, now, accepts).1)
  {
    if Approving(s, id, request, actor, now, accepts).1 != s {
      SettledKeepsInv(s, id, if now >= s.records[id].expiresAt then Expired else Approved, accepts);
    }
  }

  lemma RejectingKeepsInv(s: State, id: nat, actor: nat, now: Time, accepts: bool)
    requires Inv(s)
    ensures Inv(Rejecting(s, id, actor, now, accepts).1)
    ensures AllResolved(s) ==> AllResolved(Rejecting(s, id, actor, now, accepts).1)
  {
    if Rejecting(s, id, actor, now, accepts).1 != s {
      SettledKeepsInv(s, id, if now >= s.records[id].expiresAt then Expired else Rejected, accepts);
    }
  }

  lemma ApplyKeepsInv(s: State, c: Command, lifetime: Time)
    requires Inv(s)
    ensures Inv(Apply(s, c, lifetime))
    ensures AllResolved(s) ==> AllResolved(Apply(s, c, lifetime))
  {
    match c {
      case Bind =>
      case Create(request, now) => CreatedKeepsInv(s, request, now, lifetime);
      case Approve(id, request, actor, now, accepts) =>
        ApprovingKeepsInv(s, id, request, actor, now, accepts);
      case Reject(id, actor, now, accepts) =>
        RejectingKeepsInv(s, id, actor, now, accepts);
      case ExpireDue(clock, acceptsEach) => ExpiringKeepsInv(s, 0, clock, acceptsEach);
    }
  }

  lemma {:induction false} RunKeepsInv(s: State, commands: seq<Command>, lifetime: Time)
    requires Inv(s)
    ensures Inv(Run(s, commands, lifetime))
    ensures AllResolved(s) ==> AllResolved(Run(s, commands, lifetime))
    decreases |commands|
  {
    if commands != [] {
      var n := |commands| - 1;
      RunKeepsInv(s, commands[..n], lifetime);
      ApplyKeepsInv(Run(s, commands[..n], lifetime), commands[n], lifetime);
    }
  }

  // ---------------------------------------------------------------- main results

  function Fresh(bound: bool): State {
    State([], [], bound)
  }

  /** At any time at most one record per fingerprint is pending. */
  lemma OnePendingPerFingerprint(bound: bool, commands: seq<Command>, lifetime: Time, i: nat, j: nat)
    requires var s := Run(Fresh(bound), commands, lifetime);
      && i < |s.records| && j < |s.records| && s.records[i].fingerprint == s.records[j].fingerprint
      && s.records[i].status.Pending? && s.records[j].status.Pending?
    ensures i == j
  {
    RunKeepsInv(Fresh(bound), commands, lifetime);
  }

  /** With a repository bound, a run is resolved exactly once its record is settled, and exactly once: running if approved. */
  lemma ResolvedExactlyOnce(commands: seq<Command>, lifetime: Time, id: nat)
    requires id < |Run(Fresh(true), commands, lifetime).records|
    ensures var s := Run(Fresh(true), commands, lifetime);
      && (Resolves(s.resolutions, id) <==> !s.records[id].status.Pending?)
      && (forall k, l :: 0 <= k < l < |s.resolutions| ==> s.resolutions[k].approvalId != id || s.resolutions[l].approvalId != id)
      && (forall k :: 0 <= k < |s.resolutions| && s.resolutions[k].approvalId == id ==>
            && (s.resolutions[k].outcome.Running? <==> s.records[id].status.Approved?)
            && s.resolutions[k].tenant == s.records[id].tenant && s.resolutions[k].run == s.records[id].run && s.resolutions[k].fingerprint == s.records[id].fingerprint)
  {
    RunKeepsInv(Fresh(true), commands, lifetime);
  }

  // ---------------------------------------------------------------- why a record is settled

  /** The command, in this state, is one that settles the record in this way. */
  ghost predicate Cause(s: State, c: Command, id: nat, status: Status)
    requires id < |s.records|
  {
    var r := s.records[id];
    r.status.Pending? &&
    match c
    case Approve(target, request, actor, now, accepts) =>
      && target == id && actor == r.user && FingerprintOf(request) == r.fingerprint && (s.bound ==> accepts)
      && status == (if now < r.expiresAt then Approved else Expired)
    case Reject(target, actor, now, accepts) =>
      && target == id && actor == r.user && (s.bound ==> accepts)
      && status == (if now < r.expiresAt then Rejected else Expired)
    case ExpireDue(clock, acceptsEach) =>
      && status == Expired && clock(id) >= r.expiresAt
      && (s.bound ==> forall i :: 0 <= i <= id && Due(s.records[i], clock) ==> acceptsEach(i))
    case _ => false
  }

  /** A settled record is never touched again; a pending one is touched only to be settled. */
  ghost predicate Progress(before: seq<ApprovalRecord>, after: seq<ApprovalRecord>) {
    && |before| <= |after|
    && (forall i :: 0 <= i < |before| ==>
          after[i] == before[i].(status := after[i].status) && (before[i].status.Pending? || after[i] == before[i]))
  }

  lemma ProgressTransitive(a: seq<ApprovalRecord>, b: seq<ApprovalRecord>, c: seq<ApprovalRecord>)
    requires Progress(a, b) && Progress(b, c)
    ensures Progress(a, c)
  {
    forall i | 0 <= i < |a| ensures c[i] == a[i].(status := c[i].status) && (a[i].status.Pending? || c[i] == a[i]) {
      assert b[i] == a[i].(status := b[i].status);
    }
  }

  /** What a sweep from the `i`th record on does to a record. */
  lemma {:induction false} Swept(s: State, i: nat, clock: nat -> Time, accepts: nat -> bool, id: nat)
    requires RecordsOk(s.records) && i <= |s.records| && id < |s.records|
    ensures var after := Expiring(s, i, clock, accepts).1;
      && |after.records| == |s.records|
      && (after.records[id] == if id >= i && Due(s.records[id], clock)
                                  && (s.bound ==> forall j :: i <= j <= id && Due(s.records[j], clock) ==> accepts(j))
                               then s.records[id].(status := Expired) else s.records[id])
    decreases |s.records| - i
  {
    if i < |s.records| {
      if !Due(s.records[i], clock) {
        Swept(s, i + 1, clock, accepts, id);
      } else if Settled(s, i, Expired, accepts(i)).Some? {
        var s' := Settled(s, i, Expired, accepts(i)).value;
        Swept(s', i + 1, clock, accepts, id);
        assert forall j :: i < j < |s.records| ==> s'.records[j] == s.records[j];
      } else {
        assert Due(s.records[i], clock) && !accepts(i);
      }
    }
  }

  lemma SweepProgresses(s: State, clock: nat -> Time, accepts: nat -> bool)
    requires RecordsOk(s.records)
    ensures Progress(s.records, Expiring(s, 0, clock, accepts).1.records)
  {
    if s.records != [] {
      forall id | 0 <= id < |s.records|
        ensures |Expiring(s, 0, clock, accepts).1.records| == |s.records|
        ensures var r := Expiring(s, 0, clock, accepts).1.records[id];
          r == s.records[id].(status := r.status) && (s.records[id].status.Pending? || r == s.records[id])
      {
        Swept(s, 0, clock, accepts, id);
      }
      Swept(s, 0, clock, accepts, 0);
    }
  }

  /** A sweep that is not cut short leaves nothing due. */
  lemma SweepLeavesNothingDue(s: State, clock: nat -> Time, accepts: nat -> bool, id: nat)
    requires RecordsOk(s.records) && id < |s.records| && Expiring(s, 0, clock, accepts).0.Ok?
    ensures id < |Expiring(s, 0, clock, accepts).1.records| && !Due(Expiring(s, 0, clock, accepts).1.records[id], clock)
  {
    Swept(s, 0, clock, accepts, id);
    Accepted(s, 0, clock, accepts);
  }

  lemma {:induction false} Accepted(s: State, i: nat, clock: nat -> Time, accepts: nat -> bool)
    requires i <= |s.records| && Expiring(s, i, clock, accepts).0.Ok?
    ensures s.bound ==> forall j :: i <= j < |s.records| && Due(s.records[j], clock) ==> accepts(j)
    decreases |s.records| - i
  {
    if i < |s.records| {
      if !Due(s.records[i], clock) {
        Accepted(s, i + 1, clock, accepts);
      } else {
        var s' := Settled(s, i, Expired, accepts(i)).value;
        Accepted(s', i + 1, clock, accepts);
        assert forall j :: i < j < |s.records| ==> s'.records[j] == s.records[j];
      }
    }
  }

  ghost function DueFrom(s: State, i: nat, clock: nat -> Time): set<nat> {
    set j | i <= j < |s.records| && Due(s.records[j], clock)
  }

  lemma DueNext(s: State, i: nat, clock: nat -> Time)
    requires i < |s.records|
    ensures |DueFrom(s, i, clock)| == |DueFrom(s, i + 1, clock)| + if Due(s.records[i], clock) then 1 else 0
  {
    assert DueFrom(s, i, clock) == DueFrom(s, i + 1, clock) + if Due(s.records[i], clock) then {i} else {};
  }

  lemma DueAfterSettling(s: State, i: nat, clock: nat -> Time, accepts: bool)
    requires i < |s.records| && Settled(s, i, Expired, accepts).Some?
    ensures DueFrom(Settled(s, i, Expired, accepts).value, i + 1, clock) == DueFrom(s, i + 1, clock)
  {
    var records := Settled(s, i, Expired, accepts).value.records;
    assert forall j :: i < j < |s.records| ==> records[j] == s.records[j];
  }

  /** A sweep that is not cut short counts the records that were due. */
  lemma {:induction false} SweepCounts(s: State, i: nat, clock: nat -> Time, accepts: nat -> bool)
    requires i <= |s.records|
    ensures Expiring(s, i, clock, accepts).0.Ok? ==> Expiring(s, i, clock, accepts).0.value == |DueFrom(s, i, clock)|
    decreases |s.records| - i
  {
    if i < |s.records| {
      DueNext(s, i, clock);
      if !Due(s.records[i], clock) {
        SweepCounts(s, i + 1, clock, accepts);
      } else if Settled(s, i, Expired, accepts(i)).Some? {
        var s' := Settled(s, i, Expired, accepts(i)).value;
        SweepCounts(s', i + 1, clock, accepts);
        DueAfterSettling(s, i, clock, accepts(i));
      }
    }
  }

  lemma ApplyProgresses(s: State, c: Command, lifetime: Time)
    requires Inv(s)
    ensures Progress(s.records, Apply(s, c, lifetime).records)
  {
    if c.ExpireDue? {
      SweepProgresses(s, c.clock, c.acceptsEach);
    }
  }

  lemma {:induction false} RunProgresses(s: State, commands: seq<Command>, k: nat, lifetime: Time)
    requires Inv(s) && k <= |commands|
    ensures Progress(Run(s, commands[..k], lifetime).records, Run(s, commands, lifetime).records)
    decreases |commands|
  {
    if k == |commands| {
      assert commands[..k] == commands;
    } else {
      var n := |commands| - 1;
      RunProgresses(s, commands[..n], k, lifetime);
      assert commands[..n][..k] == commands[..k];
      RunKeepsInv(s, commands[..n], lifetime);
      ApplyProgresses(Run(s, commands[..n], lifetime), commands[n], lifetime);
      ProgressTransitive(Run(s, commands[..k], lifetime).records, Run(s, commands[..n], lifetime).records,
                         Run(s, commands, lifetime).records);
    }
  }

  /** One command settles a pending record in a certain way exactly if it is a cause of that. */
  lemma SettledIffCause(s: State, c: Command, lifetime: Time, id: nat, status: Status)
    requires Inv(s) && id < |s.records| && s.records[id].status.Pending? && !status.Pending?
    ensures id < |Apply(s, c, lifetime).records|
    ensures Apply(s, c, lifetime).records[id].status == status <==> Cause(s, c, id, status)
  {
    if c.ExpireDue? {
      Swept(s, 0, c.clock, c.acceptsEach, id);
      assert s.records[id].id == id;
    }
  }

  ghost predicate CausedAt(bound: bool, commands: seq<Command>, lifetime: Time, k: nat, id: nat, status: Status)
    requires k < |commands|
  {
    var s := Run(Fresh(bound), commands[..k], lifetime);
    id < |s.records| && Cause(s, commands[k], id, status)
  }

  /**
   * In every run a record is approved exactly if its own user approved the same request before it expired, rejected
   * exactly if that user rejected it in time, and expired exactly if it was found past its expiry; the run
   * repository having agreed where one is bound.
   */
  lemma {:induction false} SettledExactlyIfCaused(bound: bool, commands: seq<Command>, lifetime: Time, id: nat, status: Status)
    requires id < |Run(Fresh(bound), commands, lifetime).records| && !status.Pending?
    ensures Run(Fresh(bound), commands, lifetime).records[id].status == status <==>
      exists k :: 0 <= k < |commands| && CausedAt(bound, commands, lifetime, k, id, status)
    decreases |commands|
  {
    if commands != [] {
      var n := |commands| - 1;
      var before := Run(Fresh(bound), commands[..n], lifetime);
      RunKeepsInv(Fresh(bound), commands[..n], lifetime);
      if id < |before.records| {
        SettledExactlyIfCaused(bound, commands[..n], lifetime, id, status);
        if before.records[id].status.Pending? {
          SettledIffCause(before, commands[n], lifetime, id, status);
        } else {
          ApplyProgresses(before, commands[n], lifetime);
        }
        CausesSplit(bound, commands, commands[..n], n, lifetime, id, status);
      } else {
        NewRecordsArePending(before, commands[n], lifetime, id);
        forall k | 0 <= k < |commands| ensures !CausedAt(bound, commands, lifetime, k, id, status) {
          if k < n {
            RunProgresses(Fresh(bound), commands[..n], k, lifetime);
            assert commands[..n][..k] == commands[..k];
          }
        }
      }
    }
  }

  /** The `k`th command is an approval of the record that is answered with it. */
  ghost predicate ToldApproved(bound: bool, commands: seq<Command>, lifetime: Time, k: nat, id: nat)
    requires k < |commands|
  {
    var s := Run(Fresh(bound), commands[..k], lifetime);
    match commands[k]
    case Approve(target, request, actor, now, accepts) => target == id && Approving(s, id, request, actor, now, accepts).0.Ok?
    case _ => false
  }

  /** In every run a record is approved exactly if a caller was told so, and no two callers are. */
  lemma ApprovedIffTold(bound: bool, commands: seq<Command>, lifetime: Time, id: nat)
    requires id < |Run(Fresh(bound), commands, lifetime).records|
    ensures Run(Fresh(bound), commands, lifetime).records[id].status.Approved? <==>
      exists k :: 0 <= k < |commands| && ToldApproved(bound, commands, lifetime, k, id)
    ensures forall k, l :: 0 <= k < l < |commands| && ToldApproved(bound, commands, lifetime, k, id) ==>
      !ToldApproved(bound, commands, lifetime, l, id)
  {
    SettledExactlyIfCaused(bound, commands, lifetime, id, Approved);
    forall k | 0 <= k < |commands|
      ensures ToldApproved(bound, commands, lifetime, k, id) <==> CausedAt(bound, commands, lifetime, k, id, Approved)
    {
    }
    forall k, l | 0 <= k < l < |commands| && ToldApproved(bound, commands, lifetime, k, id)
      ensures !ToldApproved(bound, commands, lifetime, l, id)
    {
      ToldOnce(bound, commands, lifetime, k, l, id);
    }
  }

  lemma ToldOnce(bound: bool, commands: seq<Command>, lifetime: Time, k: nat, l: nat, id: nat)
    requires k < l < |commands| && ToldApproved(bound, commands, lifetime, k, id)
    ensures !ToldApproved(bound, commands, lifetime, l, id)
  {
    var upTo, next := commands[..l], commands[..k + 1];
    assert upTo[..k + 1] == next && next[..k] == commands[..k];
    RunKeepsInv(Fresh(bound), next, lifetime);
    RunProgresses(Fresh(bound), upTo, k + 1, lifetime);
  }

  /** The last command is a cause or an earlier one is. */
  lemma CausesSplit(bound: bool, commands: seq<Command>, earlier: seq<Command>, n: nat, lifetime: Time, id: nat, status: Status)
    requires |commands| == n + 1 && earlier == commands[..n]
    ensures (exists k :: 0 <= k < |commands| && CausedAt(bound, commands, lifetime, k, id, status)) <==>
      || CausedAt(bound, commands, lifetime, n, id, status)
      || exists k :: 0 <= k < n && CausedAt(bound, earlier, lifetime, k, id, status)
  {
    forall k | 0 <= k < n
      ensures CausedAt(bound, commands, lifetime, k, id, status) <==> CausedAt(bound, earlier, lifetime, k, id, status)
    {
      assert earlier[..k] == commands[..k];
    }
  }

  lemma NewRecordsArePending(s: State, c: Command, lifetime: Time, id: nat)
    requires Inv(s) && |s.records| <= id < |Apply(s, c, lifetime).records|
    ensures Apply(s, c, lifetime).records[id].status.Pending?
  {
    if c.ExpireDue? && s.records != [] {
      Swept(s, 0, c.clock, c.acceptsEach, 0);
    }
  }

  // ---------------------------------------------------------------- what a request is handed

  /** A pending record of the fingerprint has passed its expiry. */
  ghost predicate HasStale(s: State, f: Fingerprint, now: Time) {
    exists i :: 0 <= i < |s.records| && IsPending(s.records[i], f) && s.records[i].expiresAt <= now
  }

  ghost predicate HasPending(s: State, f: Fingerprint) {
    exists i :: 0 <= i < |s.records| && IsPending(s.records[i], f)
  }

  /**
   * A request is handed an approval that has not expired exactly if no pending record of its fingerprint is past
   * its expiry and, where there is none at all, records live for some time.
   */
  lemma HandedLiveIff(s: State, request: CapabilityRequest, now: Time, lifetime: Time)
    requires Inv(s)
    ensures now < Created(s, request, now, lifetime).0.expiresAt <==>
      !HasStale(s, FingerprintOf(request), now) && (HasPending(s, FingerprintOf(request)) || lifetime > 0)
  {
    var f := FingerprintOf(request);
    var at := FindPending(s.records, f);
    if at.Some? {
      forall i | 0 <= i < |s.records| && IsPending(s.records[i], f) ensures i == at.value {
        OnlyPending(s.records, i, at.value);
      }
      assert HasPending(s, f);
    }
  }

  lemma OnlyPending(records: seq<ApprovalRecord>, i: nat, j: nat)
    requires OnePending(records) && i < |records| && j < |records| && records[i].fingerprint == records[j].fingerprint
    requires records[i].status.Pending? && records[j].status.Pending?
    ensures i == j
  {
  }

  /** A sweep with these clock readings finds the record pending and not yet past its expiry. */
  ghost predicate Survives(s: State, i: nat, f: Fingerprint, clock: nat -> Time)
    requires i < |s.records|
  {
    IsPending(s.records[i], f) && clock(i) < s.records[i].expiresAt
  }

  /** A record that survives the sweep has expired by `now`. */
  ghost predicate LapsesBy(s: State, f: Fingerprint, clock: nat -> Time, now: Time) {
    exists i :: 0 <= i < |s.records| && Survives(s, i, f, clock) && s.records[i].expiresAt <= now
  }

  ghost predicate AnySurvives(s: State, f: Fingerprint, clock: nat -> Time) {
    exists i :: 0 <= i < |s.records| && Survives(s, i, f, clock)
  }

  /** A sweep that is not cut short leaves a record pending exactly if it survives. */
  lemma PendingIffSurvives(s: State, clock: nat -> Time, accepts: nat -> bool, f: Fingerprint, i: nat)
    requires RecordsOk(s.records) && i < |s.records| && Expiring(s, 0, clock, accepts).0.Ok?
    ensures var after := Expiring(s, 0, clock, accepts).1;
      && |after.records| == |s.records| && after.records[i].expiresAt == s.records[i].expiresAt
      && (IsPending(after.records[i], f) <==> Survives(s, i, f, clock))
  {
    Swept(s, 0, clock, accepts, i);
    Accepted(s, 0, clock, accepts);
  }

  lemma SameNumber(s: State, clock: nat -> Time, accepts: nat -> bool)
    requires RecordsOk(s.records)
    ensures |Expiring(s, 0, clock, accepts).1.records| == |s.records|
  {
    if s.records != [] {
      Swept(s, 0, clock, accepts, 0);
    }
  }

  lemma SweptHas(s: State, clock: nat -> Time, accepts: nat -> bool, f: Fingerprint, now: Time)
    requires RecordsOk(s.records) && Expiring(s, 0, clock, accepts).0.Ok?
    ensures HasStale(Expiring(s, 0, clock, accepts).1, f, now) <==> LapsesBy(s, f, clock, now)
    ensures HasPending(Expiring(s, 0, clock, accepts).1, f) <==> AnySurvives(s, f, clock)
  {
    SameNumber(s, clock, accepts);
    forall i | 0 <= i < |s.records|
      ensures var r := Expiring(s, 0, clock, accepts).1.records[i];
        r.expiresAt == s.records[i].expiresAt && (IsPending(r, f) <==> Survives(s, i, f, clock))
    {
      PendingIffSurvives(s, clock, accepts, f, i);
    }
  }

  /**
   * After a sweep that was not cut short, a request at any time is handed an approval that has not expired exactly
   * if no record of its fingerprint that survived the sweep has expired since and, where none did, records live for
   * some time.
   */
  lemma SweptIsHandedLiveIff(s: State, clock: nat -> Time, accepts: nat -> bool, request: CapabilityRequest, now: Time, lifetime: Time)
    requires Inv(s) && Expiring(s, 0, clock, accepts).0.Ok?
    ensures var f := FingerprintOf(request);
      now < Created(Expiring(s, 0, clock, accepts).1, request, now, lifetime).0.expiresAt <==>
        !LapsesBy(s, f, clock, now) && (AnySurvives(s, f, clock) || lifetime > 0)
  {
    ExpiringKeepsInv(s, 0, clock, accepts);
    SweptHas(s, clock, accepts, FingerprintOf(request), now);
    HandedLiveIff(Expiring(s, 0, clock, accepts).1, request, now, lifetime);
  }

  /** In every run, whoever asks after such a sweep is handed a pending approval, and that is when it is still live. */
  lemma RequestAfterSweep(bound: bool, commands: seq<Command>, clock: nat -> Time, accepts: nat -> bool,
                          request: CapabilityRequest, now: Time, lifetime: Time)
    requires Expiring(Run(Fresh(bound), commands, lifetime), 0, clock, accepts).0.Ok?
    ensures var s := Run(Fresh(bound), commands, lifetime);
      var r := Created(Run(Fresh(bound), commands + [ExpireDue(clock, accepts)], lifetime), request, now, lifetime).0;
      && r.status.Pending? && r.fingerprint == FingerprintOf(request)
      && (now < r.expiresAt <==>
            !LapsesBy(s, FingerprintOf(request), clock, now) && (AnySurvives(s, FingerprintOf(request), clock) || lifetime > 0))
      && (lifetime > 0 && (forall id: nat :: now <= clock(id)) ==> now < r.expiresAt)
  {
    assert (commands + [ExpireDue(clock, accepts)])[..|commands|] == commands;
    RunKeepsInv(Fresh(bound), commands, lifetime);
    SweptIsHandedLiveIff(Run(Fresh(bound), commands, lifetime), clock, accepts, request, now, lifetime);
  }

  /** Until a sweep or a decision comes to it, a record past its expiry is still handed out as pending. */
  lemma StaleRecordIsReturned(s: State, request: CapabilityRequest, now: Time, later: Time, lifetime: Time)
    requires FindPending(s.records, FingerprintOf(request)).None? && later >= now + lifetime
    ensures var (first, s') := Created(s, request, now, lifetime);
      var (again, s'') := Created(s', request, later, lifetime);
      again == first && s'' == s' && again.status.Pending? && again.expiresAt <= later
  {
    var (first, s') := Created(s, request, now, lifetime);
    assert s'.records[..|s'.records| - 1] == s.records;
  }
}

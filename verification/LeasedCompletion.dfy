/**
 * One model completion of the gateway: walk the candidate groups, lease capacity, resolve the
 * credential, race the transport against the heartbeat, record the outcome, release the lease.
 * Everything the outside world decides is an `Attempt`; what the gateway does to the outside
 * world is its `log`.
 */
module LeasedCompletion {
  import opened Prelude

  // ---------------------------------------------------------------- the outside world

  datatype Candidate = Candidate(id: string, quotaScopeId: string)

  datatype Lease = Lease(id: nat, deploymentId: string, quotaScopeId: string)

  datatype ModelResponse = ModelResponse(text: Option<string>, toolCalls: seq<string>)

  /** How `initialize` followed by `acquire` ended. */
  datatype Acquisition =
    | Granted(lease: Lease)
    | WaitTimeout
    | QueueFull
    | AcquireRaised(error: Error)

  datatype Resolution = Key | ResolveCancelled | ResolveFailed

  datatype TransportEnd =
    | Answered(response: ModelResponse)
    | TransportRaised(status: Option<int>)
    | TransportFailedUnexpectedly
    | TransportCancelled

  datatype HeartbeatEnd = RenewalRaised(error: Error) | HeartbeatFailedUnexpectedly

  /** Who finished first; when both did, the transport's result is taken. */
  datatype Race =
    | TransportFirst(transport: TransportEnd)
    | HeartbeatFirst(heartbeat: HeartbeatEnd)
    | CallerCancelled

  datatype Recording = Recorded | RecordCancelled | RecordFailed

  /** How the shielded wait for a release goes, and then the plain wait that a cancellation turns it into. */
  datatype ReleaseWait = Undisturbed | CancelledOnce | CancelledTwice

  /** How the release itself ends; a second cancellation may be passed on to it, and so may a shutdown's first. */
  datatype ReleaseEnd = Completes | Fails | EndsCancelled

  datatype Releasing = Releasing(wait: ReleaseWait, end: ReleaseEnd) {
    /** A cancellation comes out of the cleanup as an exception instead of a returned error. */
    predicate Raises() {
      wait.CancelledTwice? || end.EndsCancelled?
    }

    predicate Succeeds() {
      wait.Undisturbed? && end.Completes?
    }
  }

  datatype Attempt = Attempt(
    acquisition: Acquisition,
    resolution: Resolution,
    race: Race,
    recording: Recording,
    releasing: Releasing)

  // ---------------------------------------------------------------- errors

  datatype GatewayMessage =
    | CredentialResolutionFailed
    | ModelTransportFailed
    | ResponseTextEmpty
    | ResponseEmpty
    | OutcomeRecordingFailed
    | CapacityReleaseFailed

  datatype Error =
    | TransportError(status: Option<int>)
    | GatewayError(message: GatewayMessage)
    | CapacityBackendError
    | CapacityConfigurationError
    | CapacityUnavailable
    | Cancelled
    | OtherError

  predicate RetryableStatus(status: int) {
    status in {408, 409, 425, 429, 500, 502, 503, 504}
  }

  predicate Retryable(e: Error) {
    match e
    case TransportError(status) => status.None? || RetryableStatus(status.value)
    case GatewayError(message) => message in {ModelTransportFailed, ResponseTextEmpty, ResponseEmpty}
    case _ => false
  }

  /** Characters that `str.strip` removes. */
  predicate IsSpace(c: char) {
    var u := c as int;
    || 0x09 <= u <= 0x0D || 0x1C <= u <= 0x20 || u in {0x85, 0xA0, 0x1680}
    || 0x2000 <= u <= 0x200A || u in {0x2028, 0x2029, 0x202F, 0x205F, 0x3000}
  }

  predicate IsBlank(s: string) {
    forall i :: 0 <= i < |s| ==> IsSpace(s[i])
  }

  /** Text is blank exactly if nothing but white space and control separators is in it; any printable ASCII character fills it. */
  lemma AsciiBlankIff(s: string)
    requires forall i :: 0 <= i < |s| ==> s[i] < '\U{80}'
    ensures IsBlank(s) <==> forall i :: 0 <= i < |s| ==> s[i] in {' ', '\t', '\n', '\r', '\U{0B}', '\U{0C}', '\U{1C}', '\U{1D}', '\U{1E}', '\U{1F}'}
  {
  }

  // ---------------------------------------------------------------- what the log may look like

  datatype Event =
    | LeaseAcquired(lease: Lease)
    | TransportInvoked(lease: Lease)
    | OutcomeRecorded(lease: Lease, succeeded: bool, status: Option<int>)
    | LeaseReleased(lease: Lease)

  datatype Phase = NoLease | Leased(lease: Lease) | Invoked(lease: Lease) | Reported(lease: Lease)

  /** One event of a gateway that holds at most one lease; None if the event is out of order. */
  function Advance(phase: Phase, e: Event): Option<Phase> {
    match e
    case LeaseAcquired(l) => if phase == NoLease then Some(Leased(l)) else None
    case TransportInvoked(l) => if phase == Leased(l) then Some(Invoked(l)) else None
    case OutcomeRecorded(l, _, _) => if phase == Invoked(l) then Some(Reported(l)) else None
    case LeaseReleased(l) => if phase != NoLease && phase.lease == l then Some(NoLease) else None
  }

  function Walk(phase: Phase, log: seq<Event>): Option<Phase>
    decreases |log|
  {
    if log == [] then Some(phase)
    else
      var next := Advance(phase, log[0]);
      if next == None then None else Walk(next.value, log[1..])
  }

  /** Leases are taken one at a time and each is released exactly once before the next or the end. */
  ghost predicate Disciplined(log: seq<Event>) {
    Walk(NoLease, log) == Some(NoLease)
  }

  lemma {:induction false} WalkAppends(phase: Phase, a: seq<Event>, b: seq<Event>)
    requires Walk(phase, a).Some?
    ensures Walk(phase, a + b) == Walk(Walk(phase, a).value, b)
    decreases |a|
  {
    if a == [] {
      assert a + b == b;
    } else {
      assert (a + b)[0] == a[0] && (a + b)[1..] == a[1..] + b;
      WalkAppends(Advance(phase, a[0]).value, a[1..], b);
    }
  }

  lemma WalkOneMore(phase: Phase, log: seq<Event>, e: Event)
    requires Walk(phase, log).Some?
    ensures Walk(phase, log + [e]) == Advance(Walk(phase, log).value, e)
  {
    WalkAppends(phase, log, [e]);
    assert [e][1..] == [];
  }

  /** A held lease is released later in a disciplined log, with no other lease taken or released before that. */
  lemma {:induction false} HeldIsReleased(phase: Phase, log: seq<Event>) returns (j: nat)
    requires phase != NoLease && Walk(phase, log) == Some(NoLease)
    ensures j < |log| && log[j] == LeaseReleased(phase.lease)
    ensures forall k :: 0 <= k < j ==> !log[k].LeaseReleased? && !log[k].LeaseAcquired?
    decreases |log|
  {
    if log[0].LeaseReleased? {
      j := 0;
    } else {
      var j' := HeldIsReleased(Advance(phase, log[0]).value, log[1..]);
      j := j' + 1;
    }
  }

  lemma {:induction false} WalkSplits(phase: Phase, a: seq<Event>, b: seq<Event>)
    requires Walk(phase, a + b).Some?
    ensures Walk(phase, a).Some?
    ensures Walk(phase, a + b) == Walk(Walk(phase, a).value, b)
    decreases |a|
  {
    if a == [] {
      assert a + b == b;
    } else {
      assert (a + b)[0] == a[0] && (a + b)[1..] == a[1..] + b;
      WalkSplits(Advance(phase, a[0]).value, a[1..], b);
    }
  }

  /** In a disciplined log every acquisition is followed by its own release before anything else is acquired or released. */
  lemma EveryLeaseIsReleased(log: seq<Event>, i: nat) returns (j: nat)
    requires Disciplined(log) && i < |log| && log[i].LeaseAcquired?
    ensures i < j < |log| && log[j] == LeaseReleased(log[i].lease)
    ensures forall k :: i < k < j ==> !log[k].LeaseReleased? && !log[k].LeaseAcquired?
  {
    assert log == log[..i] + log[i..];
    WalkSplits(NoLease, log[..i], log[i..]);
    var phase := Walk(NoLease, log[..i]).value;
    var j' := HeldIsReleased(Advance(phase, log[i..][0]).value, log[i..][1..]);
    j := i + 1 + j';
  }

  // ---------------------------------------------------------------- one leased attempt

  /** What resolving and calling the model gave, before recording and release. */
  function ModelResult(a: Attempt): Result<ModelResponse, Error> {
    match a.resolution
    case ResolveCancelled => Err(Cancelled)
    case ResolveFailed => Err(GatewayError(CredentialResolutionFailed))
    case Key =>
      match a.race
      case CallerCancelled => Err(Cancelled)
      case HeartbeatFirst(RenewalRaised(e)) =>
        if e in {CapacityBackendError, CapacityConfigurationError, Cancelled} then Err(e) else Err(GatewayError(ModelTransportFailed))
      case HeartbeatFirst(HeartbeatFailedUnexpectedly) => Err(GatewayError(ModelTransportFailed))
      case TransportFirst(TransportCancelled) => Err(Cancelled)
      case TransportFirst(TransportRaised(status)) => Err(TransportError(status))
      case TransportFirst(TransportFailedUnexpectedly) => Err(GatewayError(ModelTransportFailed))
      case TransportFirst(Answered(r)) =>
        if r.toolCalls == [] && r.text.None? then Err(GatewayError(ResponseEmpty))
        else if r.toolCalls == [] && IsBlank(r.text.value) then Err(GatewayError(ResponseTextEmpty))
        else Ok(r)
  }

  /** The health of the scope hears about every call that reached the transport and was not cut short. */
  predicate Reports(a: Attempt) {
    a.resolution.Key? && ModelResult(a) !in {Err(Cancelled), Err(CapacityBackendError), Err(CapacityConfigurationError)}
  }

  /** The HTTP status that the scope hears of, if the provider gave one. */
  function StatusOf(a: Attempt): Option<int> {
    match a.race
    case TransportFirst(Answered(_)) => Some(200)
    case TransportFirst(TransportRaised(status)) => status
    case _ => None
  }

  /** What a leased attempt does after its acquisition: the scope hears exactly of the calls that `Reports`. */
  function LeasedEvents(lease: Lease, a: Attempt): seq<Event> {
    (if a.resolution.Key? then [TransportInvoked(lease)] else [])
    + (if Reports(a) then [OutcomeRecorded(lease, ModelResult(a).Ok?, StatusOf(a))] else [])
    + [LeaseReleased(lease)]
  }

  /** From the acquisition on, a leased attempt is a disciplined stretch of the log. */
  lemma LeasedEventsDisciplined(lease: Lease, a: Attempt)
    ensures Disciplined([LeaseAcquired(lease)] + LeasedEvents(lease, a))
  {
    var log := [LeaseAcquired(lease)];
    WalkOneMore(NoLease, [], LeaseAcquired(lease));
    if a.resolution.Key? {
      WalkOneMore(NoLease, log, TransportInvoked(lease));
      log := log + [TransportInvoked(lease)];
    }
    if Reports(a) {
      WalkOneMore(NoLease, log, OutcomeRecorded(lease, ModelResult(a).Ok?, StatusOf(a)));
      log := log + [OutcomeRecorded(lease, ModelResult(a).Ok?, StatusOf(a))];
    }
    WalkOneMore(NoLease, log, LeaseReleased(lease));
    assert log + [LeaseReleased(lease)] == [LeaseAcquired(lease)] + LeasedEvents(lease, a);
  }

  /** The first failure wins, except that a cancellation that comes out of the release beats everything. */
  function LeasedResult(a: Attempt): Result<ModelResponse, Error> {
    if a.releasing.Raises() then Err(Cancelled)
    else
      match ModelResult(a)
      case Err(e) => Err(e)
      case Ok(r) =>
        if a.recording.RecordCancelled? then Err(Cancelled)
        else if a.recording.RecordFailed? then Err(GatewayError(OutcomeRecordingFailed))
        else if a.releasing.wait.CancelledOnce? then Err(Cancelled)
        else if a.releasing.end.Fails? then Err(GatewayError(CapacityReleaseFailed))
        else Ok(r)
  }

  /**
   * A model failure is what the caller sees whatever recording and release do, exactly unless the wait for the
   * release is cancelled twice or the release itself ends cancelled (or the failure is itself the cancellation).
   */
  lemma ModelErrorSurvives(a: Attempt)
    requires ModelResult(a).Err?
    ensures LeasedResult(a) == ModelResult(a) <==>
      !(a.releasing.wait.CancelledTwice? || a.releasing.end.EndsCancelled?) || ModelResult(a) == Err(Cancelled)
  {
  }

  /** A cancellation reaches the attempt after its lease was granted. */
  predicate CancellationDelivered(a: Attempt) {
    || a.resolution.ResolveCancelled?
    || (a.resolution.Key? && a.race.CallerCancelled?)
    || (Reports(a) && a.recording.RecordCancelled?)
    || !a.releasing.wait.Undisturbed?
  }

  // ---------------------------------------------------------------- a whole completion

  function Find(candidates: seq<Candidate>, id: string): (r: Option<Candidate>)
    ensures r.Some? ==> r.value in candidates && r.value.id == id
    ensures r.None? ==> forall c :: c in candidates ==> c.id != id
  {
    if candidates == [] then None
    else if candidates[0].id == id then Some(candidates[0])
    else Find(candidates[1..], id)
  }

  /** The lease is for one of the candidates and charges that candidate's scope. */
  predicate Matches(candidates: seq<Candidate>, lease: Lease) {
    var c := Find(candidates, lease.deploymentId);
    c.Some? && c.value.quotaScopeId == lease.quotaScopeId
  }

  datatype Verdict =
    | NextGroup
    | RetryNext(error: Error)
    | Raise(error: Error)
    | Return(response: ModelResponse, deploymentId: string)

  function VerdictOf(candidates: seq<Candidate>, a: Attempt): Verdict {
    match a.acquisition
    case WaitTimeout => NextGroup
    case QueueFull => NextGroup
    case AcquireRaised(e) => Raise(e)
    case Granted(lease) =>
      if !Matches(candidates, lease) then
        Raise(if a.releasing.Raises() || a.releasing.wait.CancelledOnce? then Cancelled else CapacityBackendError)
      else
        match LeasedResult(a)
        case Ok(r) => Return(r, lease.deploymentId)
        case Err(e) => if Retryable(e) then RetryNext(e) else Raise(e)
  }

  datatype Completion = Completed(response: ModelResponse, deploymentId: string) | Failed(error: Error)

  /**
   * `c` is reached after trying `n` groups: the first one that neither lacks capacity nor fails
   * retryably decides; if there is none, all were tried and the last retryable failure is raised.
   */
  ghost predicate Decides(groups: seq<seq<Candidate>>, attempts: seq<Attempt>, n: nat, c: Completion)
    requires |attempts| == |groups| && n <= |groups|
  {
    || (n > 0 && PassedBy(groups, attempts, n - 1) &&
          match VerdictOf(groups[n - 1], attempts[n - 1])
          case Return(r, d) => c == Completed(r, d)
          case Raise(e) => c == Failed(e)
          case _ => false)
    || (n == |groups| && PassedBy(groups, attempts, n) && c == Failed(LastRetryable(groups, attempts, n)))
  }

  /** What trying one group does to the outside world. */
  function EventsOf(candidates: seq<Candidate>, a: Attempt): seq<Event> {
    if !a.acquisition.Granted? then []
    else
      var lease := a.acquisition.lease;
      [LeaseAcquired(lease)] + (if Matches(candidates, lease) then LeasedEvents(lease, a) else [LeaseReleased(lease)])
  }

  function Trace(groups: seq<seq<Candidate>>, attempts: seq<Attempt>, n: nat): seq<Event>
    requires |attempts| == |groups| && n <= |groups|
  {
    if n == 0 then [] else Trace(groups, attempts, n - 1) + EventsOf(groups[n - 1], attempts[n - 1])
  }

  lemma TraceNext(start: seq<Event>, log: seq<Event>, groups: seq<seq<Candidate>>, attempts: seq<Attempt>, i: nat)
    requires |attempts| == |groups| && i < |groups|
    requires log == start + Trace(groups, attempts, i) + EventsOf(groups[i], attempts[i])
    ensures log == start + Trace(groups, attempts, i + 1)
  {
  }

  lemma EventsDisciplined(candidates: seq<Candidate>, a: Attempt)
    ensures Disciplined(EventsOf(candidates, a))
  {
    if a.acquisition.Granted? {
      var lease := a.acquisition.lease;
      LeasedEventsDisciplined(lease, a);
      WalkOneMore(NoLease, [], LeaseAcquired(lease));
      WalkOneMore(NoLease, [LeaseAcquired(lease)], LeaseReleased(lease));
    }
  }

  /** Over any number of groups the gateway holds at most one lease and has released every one of them. */
  lemma {:induction false} TraceDisciplined(groups: seq<seq<Candidate>>, attempts: seq<Attempt>, n: nat)
    requires |attempts| == |groups| && n <= |groups|
    ensures Disciplined(Trace(groups, attempts, n))
  {
    if n > 0 {
      TraceDisciplined(groups, attempts, n - 1);
      EventsDisciplined(groups[n - 1], attempts[n - 1]);
      WalkAppends(NoLease, Trace(groups, attempts, n - 1), EventsOf(groups[n - 1], attempts[n - 1]));
    }
  }

  ghost predicate PassedBy(groups: seq<seq<Candidate>>, attempts: seq<Attempt>, n: nat)
    requires |attempts| == |groups| && n <= |groups|
  {
    forall i :: 0 <= i < n ==> VerdictOf(groups[i], attempts[i]).NextGroup? || VerdictOf(groups[i], attempts[i]).RetryNext?
  }

  function LastRetryable(groups: seq<seq<Candidate>>, attempts: seq<Attempt>, n: nat): Error
    requires |attempts| == |groups| && n <= |groups|
  {
    if n == 0 then CapacityUnavailable
    else
      var v := VerdictOf(groups[n - 1], attempts[n - 1]);
      if v.RetryNext? then v.error else LastRetryable(groups, attempts, n - 1)
  }

  /** Everything went right: matching lease, credential, non-empty answer, recorded and released. */
  ghost predicate Succeeds(candidates: seq<Candidate>, a: Attempt) {
    && a.acquisition.Granted? && Matches(candidates, a.acquisition.lease)
    && a.resolution.Key?
    && a.race.TransportFirst? && a.race.transport.Answered?
    && (a.race.transport.response.toolCalls != [] ||
        (a.race.transport.response.text.Some? && !IsBlank(a.race.transport.response.text.value)))
    && a.recording.Recorded? && a.releasing.Succeeds()
  }

  /** No lease for want of capacity, or a leased call whose model failure may be tried elsewhere. */
  ghost predicate MayMoveOn(candidates: seq<Candidate>, a: Attempt) {
    || a.acquisition.WaitTimeout? || a.acquisition.QueueFull?
    || (&& a.acquisition.Granted? && Matches(candidates, a.acquisition.lease)
        && ModelResult(a).Err? && Retryable(ModelResult(a).error)
        && !a.releasing.Raises())
  }

  /** The first attempt that succeeds entirely, every earlier one having moved on. */
  ghost predicate FirstSuccess(groups: seq<seq<Candidate>>, attempts: seq<Attempt>, i: nat)
    requires |attempts| == |groups|
  {
    i < |groups| && Succeeds(groups[i], attempts[i]) && forall j :: 0 <= j < i ==> MayMoveOn(groups[j], attempts[j])
  }

  /** The completion is this attempt's: its response, from one of its group's candidates and charged to that one's scope. */
  ghost predicate CompletedBy(candidates: seq<Candidate>, a: Attempt, c: Completion) {
    && a.acquisition.Granted? && a.race.TransportFirst? && a.race.transport.Answered?
    && c == Completed(a.race.transport.response, a.acquisition.lease.deploymentId)
    && exists chosen :: chosen in candidates && chosen.id == a.acquisition.lease.deploymentId
                     && chosen.quotaScopeId == a.acquisition.lease.quotaScopeId
  }

  lemma FirstSuccessDecides(groups: seq<seq<Candidate>>, attempts: seq<Attempt>, n: nat, c: Completion, i: nat)
    requires |attempts| == |groups| && n <= |groups| && Decides(groups, attempts, n, c)
    requires FirstSuccess(groups, attempts, i)
    ensures i == n - 1 && CompletedBy(groups[i], attempts[i], c)
  {
    forall j | 0 <= j <= i {
      VerdictMeaning(groups[j], attempts[j]);
    }
  }

  lemma CompletedHasFirstSuccess(groups: seq<seq<Candidate>>, attempts: seq<Attempt>, n: nat, c: Completion)
    requires |attempts| == |groups| && n <= |groups| && Decides(groups, attempts, n, c) && c.Completed?
    ensures n > 0 && FirstSuccess(groups, attempts, n - 1)
  {
    forall j | 0 <= j < n {
      VerdictMeaning(groups[j], attempts[j]);
    }
  }

  /** A response is returned exactly if there is a first attempt that succeeds entirely, and it is that attempt's. */
  lemma ReturnsIffSucceeds(groups: seq<seq<Candidate>>, attempts: seq<Attempt>, n: nat, c: Completion)
    requires |attempts| == |groups| && n <= |groups| && Decides(groups, attempts, n, c)
    ensures c.Completed? <==> exists i: nat :: FirstSuccess(groups, attempts, i)
    ensures forall i: nat :: FirstSuccess(groups, attempts, i) ==> CompletedBy(groups[i], attempts[i], c)
  {
    if c.Completed? {
      CompletedHasFirstSuccess(groups, attempts, n, c);
    }
    forall i: nat | FirstSuccess(groups, attempts, i) ensures CompletedBy(groups[i], attempts[i], c) {
      FirstSuccessDecides(groups, attempts, n, c, i);
    }
  }

  lemma VerdictMeaning(candidates: seq<Candidate>, a: Attempt)
    ensures VerdictOf(candidates, a).Return? <==> Succeeds(candidates, a)
    ensures VerdictOf(candidates, a).NextGroup? || VerdictOf(candidates, a).RetryNext? <==> MayMoveOn(candidates, a)
  {
  }

  /** The candidate that a lease is for. */
  function Leaseholder(lease: Lease): Candidate {
    Candidate(lease.deploymentId, lease.quotaScopeId)
  }

  /** An upstream 400 hidden by a repeated cancellation, and by a release that ends cancelled without any. */
  lemma ModelErrorCanBeHidden(lease: Lease) returns (twice: Attempt, never: Attempt)
    ensures twice.acquisition == never.acquisition == Granted(lease) && Matches([Leaseholder(lease)], lease)
    ensures twice.releasing == Releasing(CancelledTwice, Completes) && never.releasing == Releasing(Undisturbed, EndsCancelled)
    ensures ModelResult(twice) == ModelResult(never) == Err(TransportError(Some(400)))
    ensures VerdictOf([Leaseholder(lease)], twice) == VerdictOf([Leaseholder(lease)], never) == Raise(Cancelled)
  {
    twice := Attempt(Granted(lease), Key, TransportFirst(TransportRaised(Some(400))), Recorded, Releasing(CancelledTwice, Completes));
    never := twice.(releasing := Releasing(Undisturbed, EndsCancelled));
  }

  /**
   * A cancellation that reaches a leased attempt is not always what the caller sees. It is exactly if it cut short
   * the call to the model, came out of the release, or met a good answer that no failed recording had spoilt. If the
   * model had failed retryably, a cancellation while recording, or a single one while releasing, is forgotten and
   * the gateway goes on to the next group.
   */
  lemma CancellationIsSeenIff(candidates: seq<Candidate>, a: Attempt)
    requires a.acquisition.Granted? && Matches(candidates, a.acquisition.lease) && CancellationDelivered(a)
    ensures VerdictOf(candidates, a) == Raise(Cancelled) <==>
      || ModelResult(a) == Err(Cancelled) || a.releasing.Raises()
      || (ModelResult(a).Ok? && !a.recording.RecordFailed?)
    ensures VerdictOf(candidates, a).RetryNext? <==>
      ModelResult(a).Err? && Retryable(ModelResult(a).error) && !a.releasing.Raises()
  {
  }

  /**
   * Three forgotten cancellations: one while an upstream 503 is recorded and one while the lease is released after it,
   * both followed by the next group; and one while the lease is released after a good answer that was not recorded.
   */
  lemma CancellationCanBeForgotten(lease: Lease) returns (recording: Attempt, releasing: Attempt, answered: Attempt)
    ensures recording.acquisition == releasing.acquisition == answered.acquisition == Granted(lease)
    ensures CancellationDelivered(recording) && recording.releasing.Succeeds()
    ensures CancellationDelivered(releasing) && releasing.recording.Recorded? && releasing.releasing.end.Completes?
    ensures CancellationDelivered(answered) && ModelResult(answered).Ok? && answered.releasing.end.Completes?
    ensures VerdictOf([Leaseholder(lease)], recording) == VerdictOf([Leaseholder(lease)], releasing)
         == RetryNext(TransportError(Some(503)))
    ensures VerdictOf([Leaseholder(lease)], answered) == Raise(GatewayError(OutcomeRecordingFailed))
  {
    var unavailable := TransportFirst(TransportRaised(Some(503)));
    recording := Attempt(Granted(lease), Key, unavailable, RecordCancelled, Releasing(Undisturbed, Completes));
    releasing := Attempt(Granted(lease), Key, unavailable, Recorded, Releasing(CancelledOnce, Completes));
    var answer := TransportFirst(Answered(ModelResponse(None, ["call"])));
    answered := Attempt(Granted(lease), Key, answer, RecordFailed, Releasing(CancelledOnce, Completes));
  }

  // ---------------------------------------------------------------- what an attempt comes to

  /** The model was called and gave an answer with something in it. */
  predicate GoodAnswer(a: Attempt) {
    && a.resolution.Key? && a.race.TransportFirst? && a.race.transport.Answered?
    && var r := a.race.transport.response; r.toolCalls != [] || (r.text.Some? && !IsBlank(r.text.value))
  }

  /** The model was called and failed in a way that another model may not: an unusable answer included. */
  predicate WorthRetrying(a: Attempt) {
    && a.resolution.Key?
    && match a.race
       case CallerCancelled => false
       case HeartbeatFirst(RenewalRaised(e)) => !e.CapacityBackendError? && !e.CapacityConfigurationError? && !e.Cancelled?
       case HeartbeatFirst(HeartbeatFailedUnexpectedly) => true
       case TransportFirst(TransportCancelled) => false
       case TransportFirst(TransportFailedUnexpectedly) => true
       case TransportFirst(TransportRaised(status)) => status.Some? ==> status.value in {408, 409, 425, 429, 500, 502, 503, 504}
       case TransportFirst(Answered(_)) => !GoodAnswer(a)
  }

  predicate RefusedOutright(a: Attempt) {
    && a.resolution.Key? && a.race.TransportFirst? && a.race.transport.TransportRaised?
    && a.race.transport.status.Some? && a.race.transport.status.value !in {408, 409, 425, 429, 500, 502, 503, 504}
  }

  /** What a matching lease comes to, cause by cause; a cancellation that comes out of the release beats all of it. */
  lemma VerdictByCause(candidates: seq<Candidate>, a: Attempt)
    requires a.acquisition.Granted? && Matches(candidates, a.acquisition.lease)
    ensures var v := VerdictOf(candidates, a);
      if a.releasing.Raises() then v == Raise(Cancelled)
      else
        && (v.Return? <==> GoodAnswer(a) && a.recording.Recorded? && a.releasing.Succeeds())
        && (v.Return? ==> v.response == a.race.transport.response && v.deploymentId == a.acquisition.lease.deploymentId)
        && (v.RetryNext? <==> WorthRetrying(a))
        && (v == Raise(GatewayError(CredentialResolutionFailed)) <==> a.resolution.ResolveFailed?)
        && (RefusedOutright(a) ==> v == Raise(TransportError(a.race.transport.status)))
        && (v == Raise(GatewayError(OutcomeRecordingFailed)) <==> GoodAnswer(a) && a.recording.RecordFailed?)
        && (v == Raise(GatewayError(CapacityReleaseFailed)) <==>
              GoodAnswer(a) && a.recording.Recorded? && a.releasing.wait.Undisturbed? && a.releasing.end.Fails?)
  {
  }

  /** Without a matching lease: only a lack of capacity moves on; what was leased wrongly is released and refused. */
  lemma OtherVerdicts(candidates: seq<Candidate>, a: Attempt)
    requires a.acquisition.Granted? ==> !Matches(candidates, a.acquisition.lease)
    ensures match a.acquisition
            case WaitTimeout => VerdictOf(candidates, a) == NextGroup && EventsOf(candidates, a) == []
            case QueueFull => VerdictOf(candidates, a) == NextGroup && EventsOf(candidates, a) == []
            case AcquireRaised(e) => VerdictOf(candidates, a) == Raise(e) && EventsOf(candidates, a) == []
            case Granted(lease) =>
              && VerdictOf(candidates, a) == Raise(if a.releasing.wait.Undisturbed? && !a.releasing.end.EndsCancelled?
                                                   then CapacityBackendError else Cancelled)
              && EventsOf(candidates, a) == [LeaseAcquired(lease), LeaseReleased(lease)]
  {
  }

  /** The retryable failure that a caller sees if nothing else is left, cause by cause. */
  lemma RetryableByCause(candidates: seq<Candidate>, a: Attempt)
    requires a.acquisition.Granted? && Matches(candidates, a.acquisition.lease) && VerdictOf(candidates, a).RetryNext?
    ensures VerdictOf(candidates, a).error ==
      match a.race
      case TransportFirst(TransportRaised(status)) => TransportError(status)
      case TransportFirst(Answered(r)) => GatewayError(if r.text.None? then ResponseEmpty else ResponseTextEmpty)
      case _ => GatewayError(ModelTransportFailed)
  {
  }

  /** The scope's health hears of a success exactly for a good answer, and of a failure exactly for one worth retrying or refused outright. */
  lemma OutcomeRecordedIff(candidates: seq<Candidate>, a: Attempt, succeeded: bool, status: Option<int>)
    requires a.acquisition.Granted? && Matches(candidates, a.acquisition.lease)
    ensures OutcomeRecorded(a.acquisition.lease, succeeded, status) in EventsOf(candidates, a) <==>
      && (if succeeded then GoodAnswer(a) else WorthRetrying(a) || RefusedOutright(a))
      && status == (match a.race
                    case TransportFirst(Answered(_)) => Some(200)
                    case TransportFirst(TransportRaised(code)) => code
                    case _ => None)
  {
    var lease, e := a.acquisition.lease, OutcomeRecorded(a.acquisition.lease, succeeded, status);
    var reported := if Reports(a) then [OutcomeRecorded(lease, ModelResult(a).Ok?, StatusOf(a))] else [];
    assert e in EventsOf(candidates, a) <==> e in reported;
  }

  ghost predicate NoneRetryable(groups: seq<seq<Candidate>>, attempts: seq<Attempt>, start: nat, n: nat)
    requires |attempts| == |groups| && n <= |groups|
  {
    forall j :: start <= j < n ==> !VerdictOf(groups[j], attempts[j]).RetryNext?
  }

  lemma {:induction false} NoLaterFailure(groups: seq<seq<Candidate>>, attempts: seq<Attempt>, start: nat, n: nat)
    requires |attempts| == |groups| && start <= n <= |groups| && NoneRetryable(groups, attempts, start, n)
    ensures LastRetryable(groups, attempts, n) == LastRetryable(groups, attempts, start)
    decreases n
  {
    if start < n {
      NoLaterFailure(groups, attempts, start, n - 1);
    }
  }

  /**
   * If no attempt decides, the caller sees the failure of the last one that failed retryably, whatever earlier ones
   * failed with, or that capacity is lacking if there is none.
   */
  lemma LastFailureIsRaised(groups: seq<seq<Candidate>>, attempts: seq<Attempt>, n: nat, c: Completion, i: nat)
    requires |attempts| == |groups| && n <= |groups| && Decides(groups, attempts, n, c) && PassedBy(groups, attempts, n)
    ensures n == |groups|
    ensures i < n && VerdictOf(groups[i], attempts[i]).RetryNext? && NoneRetryable(groups, attempts, i + 1, n) ==>
              c == Failed(VerdictOf(groups[i], attempts[i]).error)
    ensures NoneRetryable(groups, attempts, 0, n) ==> c == Failed(CapacityUnavailable)
  {
    if NoneRetryable(groups, attempts, 0, n) {
      NoLaterFailure(groups, attempts, 0, n);
    } else if i < n && NoneRetryable(groups, attempts, i + 1, n) {
      NoLaterFailure(groups, attempts, i + 1, n);
    }
  }

  // ---------------------------------------------------------------- the gateway

  class ModelGateway {
    var log: seq<Event>

    constructor ()
      ensures log == []
    {
      log := [];
    }

    /** The error to report, or a cancellation raised instead. */
    method ReleaseCleanup(lease: Lease, outcome: Releasing) returns (error: Option<Error>, raised: bool)
      modifies this
      ensures log == old(log) + [LeaseReleased(lease)]
      ensures raised <==> outcome.wait.CancelledTwice? || outcome.end.EndsCancelled?
      ensures !raised ==> (error == None <==> outcome.Succeeds())
      ensures !raised ==> (error == Some(Cancelled) <==> outcome.wait.CancelledOnce?)
    {
      log := log + [LeaseReleased(lease)];
      error, raised := None, false;
      if outcome.wait.Undisturbed? && !outcome.end.EndsCancelled? {
        if outcome.end.Fails? {
          error := Some(OtherError);
        }
      } else if outcome.wait.CancelledTwice? || outcome.end.EndsCancelled? {
        raised := true;
      } else {
        error := Some(Cancelled);
      }
    }

    /** Resolves the credential and races the transport against the heartbeat. */
    method CallModel(lease: Lease, a: Attempt)
      returns (primaryError: Option<Error>, response: Option<ModelResponse>, shouldRecord: bool, status: Option<int>)
      modifies this
      ensures log == old(log) + (if a.resolution.Key? then [TransportInvoked(lease)] else [])
      ensures shouldRecord == Reports(a) && (shouldRecord ==> status == StatusOf(a))
      ensures match ModelResult(a)
              case Ok(r) => primaryError == None && response == Some(r)
              case Err(e) => primaryError == Some(e) && response == None
    {
      primaryError, response, shouldRecord, status := None, None, false, None;
      match a.resolution {
        case ResolveCancelled => primaryError := Some(Cancelled);
        case ResolveFailed => primaryError := Some(GatewayError(CredentialResolutionFailed));
        case Key =>
          log := log + [TransportInvoked(lease)];
          match a.race {
            case CallerCancelled => primaryError := Some(Cancelled);
            case HeartbeatFirst(RenewalRaised(e)) =>
              if e in {CapacityBackendError, CapacityConfigurationError, Cancelled} {
                primaryError := Some(e);
              } else {
                shouldRecord := true;
                primaryError := Some(GatewayError(ModelTransportFailed));
              }
            case HeartbeatFirst(HeartbeatFailedUnexpectedly) =>
              shouldRecord := true;
              primaryError := Some(GatewayError(ModelTransportFailed));
            case TransportFirst(TransportCancelled) => primaryError := Some(Cancelled);
            case TransportFirst(TransportRaised(code)) =>
              primaryError := Some(TransportError(code));
              status := code;
              shouldRecord := true;
            case TransportFirst(TransportFailedUnexpectedly) =>
              primaryError := Some(GatewayError(ModelTransportFailed));
              shouldRecord := true;
            case TransportFirst(Answered(r)) =>
              if r.text.Some? && IsBlank(r.text.value) && r.toolCalls == [] {
                primaryError := Some(GatewayError(ResponseTextEmpty));
              } else if r.text.None? && r.toolCalls == [] {
                primaryError := Some(GatewayError(ResponseEmpty));
              } else {
                response := Some(r);
              }
              status := Some(200);
              shouldRecord := true;
          }
      }
    }

    method CompleteLeased(lease: Lease, a: Attempt) returns (result: Result<ModelResponse, Error>)
      modifies this
      ensures result == LeasedResult(a)
      ensures ModelResult(a).Err? && ModelResult(a) != Err(Cancelled) ==>
        (result == ModelResult(a) <==> !(a.releasing.wait.CancelledTwice? || a.releasing.end.EndsCancelled?))
      ensures log == old(log) + LeasedEvents(lease, a)
    {
      var primaryError, response, shouldRecord, status := CallModel(lease, a);
      if shouldRecord {
        log := log + [OutcomeRecorded(lease, response.Some?, status)];
        if primaryError == None {
          match a.recording {
            case Recorded =>
            case RecordCancelled => primaryError := Some(Cancelled);
            case RecordFailed => primaryError := Some(GatewayError(OutcomeRecordingFailed));
          }
        }
      }
      var releaseError, raised := ReleaseCleanup(lease, a.releasing);
      if raised {
        return Err(Cancelled);
      }
      if releaseError.Some? && primaryError == None {
        primaryError := if releaseError == Some(Cancelled) then releaseError else Some(GatewayError(CapacityReleaseFailed));
      }
      result := if primaryError.Some? then Err(primaryError.value) else Ok(response.value);
    }

    /** One turn of the loop over candidate groups. */
    method TryGroup(candidates: seq<Candidate>, a: Attempt) returns (verdict: Verdict)
      modifies this
      ensures verdict == VerdictOf(candidates, a)
      ensures log == old(log) + EventsOf(candidates, a)
    {
      match a.acquisition {
        case WaitTimeout => verdict := NextGroup;
        case QueueFull => verdict := NextGroup;
        case AcquireRaised(e) => verdict := Raise(e);
        case Granted(lease) =>
          log := log + [LeaseAcquired(lease)];
          if !Matches(candidates, lease) {
            var cleanup, raised := ReleaseCleanup(lease, a.releasing);
            return Raise(if raised || cleanup == Some(Cancelled) then Cancelled else CapacityBackendError);
          }
          var result := CompleteLeased(lease, a);
          match result {
            case Ok(r) => verdict := Return(r, lease.deploymentId);
            case Err(e) => verdict := if Retryable(e) then RetryNext(e) else Raise(e);
          }
      }
    }

    method CompleteWithContext(groups: seq<seq<Candidate>>, attempts: seq<Attempt>)
      returns (completion: Completion, ghost tried: nat)
      requires |attempts| == |groups|
      modifies this
      ensures tried <= |groups| && Decides(groups, attempts, tried, completion)
      ensures log == old(log) + Trace(groups, attempts, tried)
    {
      var i, verdict, lastFailure := 0, NextGroup, CapacityUnavailable;
      while i < |groups| && (verdict.NextGroup? || verdict.RetryNext?)
        invariant i <= |groups|
        invariant log == old(log) + Trace(groups, attempts, i)
        invariant if verdict.NextGroup? || verdict.RetryNext?
                  then PassedBy(groups, attempts, i) && lastFailure == LastRetryable(groups, attempts, i)
                  else i > 0 && PassedBy(groups, attempts, i - 1) && verdict == VerdictOf(groups[i - 1], attempts[i - 1])
      {
        verdict := TryGroup(groups[i], attempts[i]);
        assert log == old(log) + Trace(groups, attempts, i) + EventsOf(groups[i], attempts[i]);
        TraceNext(old(log), log, groups, attempts, i);
        if verdict.RetryNext? {
          lastFailure := verdict.error;
        }
        i := i + 1;
      }
      tried := i;
      match verdict {
        case Raise(e) => completion := Failed(e);
        case Return(r, deploymentId) => completion := Completed(r, deploymentId);
        case _ => completion := Failed(lastFailure);
      }
    }
  }
}

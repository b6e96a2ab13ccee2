/**
 * Lease renewal: the delay that the pool advertises with every lease, and the gateway's heartbeat
 * loop against a store that renews a lease only while it has not expired. Times are seconds on one
 * clock; the store sets a lease's expiry to the instant of the grant plus the lease length.
 */
module Heartbeat {
  import opened Prelude

  /** A lease granted or renewed: clock before the store call, instant of the store's effect, clock after the call. */
  datatype Grant = Grant(started: real, effect: real, returned: real) {
    predicate Ordered() {
      started <= effect <= returned
    }

    function Expiry(leaseSeconds: real): real {
      effect + leaseSeconds
    }
  }

  /** Half of what is certainly left of the lease; an error when the clock went backwards. */
  function SafeRenewalDelay(leaseSeconds: real, g: Grant): (r: Result<real, ()>)
    ensures r.Err? <==> g.returned < g.started
    ensures r.Ok? && g.Ordered() && g.returned < g.Expiry(leaseSeconds) ==> g.returned + 2.0 * r.value <= g.Expiry(leaseSeconds)
    ensures r.Ok? ==> (r.value == 0.0 <==> g.returned - g.started >= leaseSeconds)
    ensures r.Ok? && g.returned - g.started < leaseSeconds ==> g.returned + 2.0 * r.value == g.started + leaseSeconds
  {
    var elapsed := g.returned - g.started;
    if elapsed < 0.0 then Err(())
    else Ok((if leaseSeconds - elapsed > 0.0 then leaseSeconds - elapsed else 0.0) / 2.0)
  }

  /** One call of `renew`: it reaches the store at `grant.effect`, or raises. */
  datatype Renewal = Reaches(grant: Grant) | Raises

  datatype End = TimingUnavailable | LeaseExpired | RenewalRaised | StillBeating

  function GrantAt(first: Grant, turns: seq<Renewal>, i: nat): Grant
    requires i <= |turns| && forall k :: 0 <= k < i ==> turns[k].Reaches?
  {
    if i == 0 then first else turns[i - 1].grant
  }

  /** What the loop sleeps after a grant. */
  function Delay(interval: real, leaseSeconds: real, g: Grant): (d: real)
    requires g.Ordered()
    ensures interval > 0.0 ==> (d == 0.0 <==> g.returned - g.started >= leaseSeconds)
    ensures d <= interval && (d < interval && g.returned - g.started < leaseSeconds ==> g.returned + 2.0 * d == g.started + leaseSeconds)
    ensures interval > 0.0 && g.returned < g.Expiry(leaseSeconds) ==> g.returned + 2.0 * d <= g.Expiry(leaseSeconds)
  {
    var advertised := SafeRenewalDelay(leaseSeconds, g).value;
    if interval < advertised then interval else advertised
  }

  /** Clocks do not run backwards within a call. */
  ghost predicate OrderedCalls(first: Grant, turns: seq<Renewal>) {
    first.Ordered() && forall k :: 0 <= k < |turns| && turns[k].Reaches? ==> turns[k].grant.Ordered()
  }

  /** The k-th renewal reaches a lease that has not expired. */
  ghost predicate Alive(leaseSeconds: real, first: Grant, turns: seq<Renewal>, k: nat)
    requires k < |turns| && forall i :: 0 <= i <= k ==> turns[i].Reaches?
  {
    turns[k].grant.effect < GrantAt(first, turns, k).Expiry(leaseSeconds)
  }

  /** The loop does not pause after the k-th grant. */
  ghost predicate NoPause(interval: real, leaseSeconds: real, first: Grant, turns: seq<Renewal>, k: nat)
    requires OrderedCalls(first, turns) && k <= |turns| && forall i :: 0 <= i < k ==> turns[i].Reaches?
  {
    Delay(interval, leaseSeconds, GrantAt(first, turns, k)) == 0.0
  }

  /** The k-th grant and the three before it are all without a pause. */
  ghost predicate FourWithoutPause(interval: real, leaseSeconds: real, first: Grant, turns: seq<Renewal>, k: nat)
    requires OrderedCalls(first, turns) && k <= |turns| && forall i :: 0 <= i < k ==> turns[i].Reaches?
  {
    k >= 3 && forall i :: k - 3 <= i <= k ==> NoPause(interval, leaseSeconds, first, turns, i)
  }

  /** Exactly the last `immediate` of the first `n` grants were without a pause. */
  ghost predicate Streak(interval: real, leaseSeconds: real, first: Grant, turns: seq<Renewal>, n: nat, immediate: nat)
    requires OrderedCalls(first, turns) && n <= |turns| + 1 && forall i :: 0 <= i < n - 1 ==> turns[i].Reaches?
  {
    && immediate <= n
    && (forall k :: n - immediate <= k < n ==> NoPause(interval, leaseSeconds, first, turns, k))
    && (immediate < n ==> !NoPause(interval, leaseSeconds, first, turns, n - immediate - 1))
  }

  lemma StreakDecides(interval: real, leaseSeconds: real, first: Grant, turns: seq<Renewal>, n: nat, immediate: nat)
    requires OrderedCalls(first, turns) && n <= |turns| && forall i :: 0 <= i < n ==> turns[i].Reaches?
    requires immediate <= 3 && Streak(interval, leaseSeconds, first, turns, n, immediate)
    ensures FourWithoutPause(interval, leaseSeconds, first, turns, n) <==>
      immediate == 3 && NoPause(interval, leaseSeconds, first, turns, n)
    ensures Streak(interval, leaseSeconds, first, turns, n + 1,
                   if NoPause(interval, leaseSeconds, first, turns, n) then immediate + 1 else 0)
  {
    if immediate < 3 && immediate < n {
      assert !NoPause(interval, leaseSeconds, first, turns, n - immediate - 1);
    }
  }

  /** The n-th renewal reaches the store in time: its sleep overrun and transit take less than half the lifetime left. */
  ghost predicate Prompt(interval: real, leaseSeconds: real, before: Grant, next: Grant)
    requires before.Ordered()
  {
    next.effect - (before.returned + Delay(interval, leaseSeconds, before)) < (before.Expiry(leaseSeconds) - before.returned) / 2.0
    && before.returned + Delay(interval, leaseSeconds, before) <= next.effect
  }

  /** A prompt renewal never arrives after expiry. */
  lemma PromptArrivesInTime(interval: real, leaseSeconds: real, before: Grant, next: Grant)
    requires interval > 0.0 && before.Ordered() && Prompt(interval, leaseSeconds, before, next)
    ensures next.effect < before.Expiry(leaseSeconds)
  {
  }

  /** The bound cannot be relaxed: a renewal that takes exactly half of the lifetime left can meet an expired lease. */
  lemma HalfIsTooMuch(interval: real, leaseSeconds: real) returns (before: Grant, next: Grant)
    requires interval >= leaseSeconds / 2.0 && leaseSeconds > 0.0
    ensures before.Ordered() && next.Ordered()
    ensures next.effect - (before.returned + Delay(interval, leaseSeconds, before)) == (before.Expiry(leaseSeconds) - before.returned) / 2.0
    ensures next.effect >= before.Expiry(leaseSeconds)
  {
    before := Grant(0.0, 0.0, 0.0);
    next := Grant(leaseSeconds / 2.0, leaseSeconds, leaseSeconds);
  }

  /**
   * Beats until a renewal fails or the turns are used up; `n` renewals succeeded. Each of them
   * reached a live lease; the loop gives up for want of timing exactly when it would renew a fourth
   * time running without a pause, and otherwise reports an expired lease exactly when a renewal met one.
   */
  method Beat(interval: real, leaseSeconds: real, first: Grant, turns: seq<Renewal>) returns (end: End, n: nat)
    requires interval > 0.0 && OrderedCalls(first, turns)
    ensures n <= |turns| && forall k :: 0 <= k < n ==> turns[k].Reaches?
    ensures forall k :: 0 <= k < n ==> Alive(leaseSeconds, first, turns, k)
    ensures forall k :: 0 <= k < n ==> !FourWithoutPause(interval, leaseSeconds, first, turns, k)
    ensures end == TimingUnavailable <==> FourWithoutPause(interval, leaseSeconds, first, turns, n)
    ensures end == LeaseExpired <==>
      && !FourWithoutPause(interval, leaseSeconds, first, turns, n)
      && n < |turns| && turns[n].Reaches? && !Alive(leaseSeconds, first, turns, n)
    ensures end == RenewalRaised <==>
      !FourWithoutPause(interval, leaseSeconds, first, turns, n) && n < |turns| && turns[n].Raises?
    ensures end == StillBeating <==> !FourWithoutPause(interval, leaseSeconds, first, turns, n) && n == |turns|
  {
    var current := first;
    var immediate := 0;
    n := 0;
    while true
      invariant n <= |turns| && forall k :: 0 <= k < n ==> turns[k].Reaches?
      invariant current == GrantAt(first, turns, n)
      invariant forall k :: 0 <= k < n ==> Alive(leaseSeconds, first, turns, k)
      invariant 0 <= immediate <= 3 && Streak(interval, leaseSeconds, first, turns, n, immediate)
      invariant forall k :: 0 <= k < n ==> !FourWithoutPause(interval, leaseSeconds, first, turns, k)
      decreases |turns| - n
    {
      var delay := Delay(interval, leaseSeconds, current);
      StreakDecides(interval, leaseSeconds, first, turns, n, immediate);
      if delay == 0.0 {
        immediate := immediate + 1;
        if immediate > 3 {
          return TimingUnavailable, n;
        }
      } else {
        immediate := 0;
      }
      if n == |turns| {
        return StillBeating, n;
      }
      if turns[n].Raises? {
        return RenewalRaised, n;
      }
      assert Alive(leaseSeconds, first, turns, n) <==> turns[n].grant.effect < current.Expiry(leaseSeconds);
      if turns[n].grant.effect >= current.Expiry(leaseSeconds) {
        return LeaseExpired, n;
      }
      current := turns[n].grant;
      n := n + 1;
    }
  }

  /** If every renewal is prompt, none meets an expired lease, however many there are. */
  lemma PromptKeepsLease(interval: real, leaseSeconds: real, first: Grant, turns: seq<Renewal>)
    requires interval > 0.0 && OrderedCalls(first, turns)
    requires forall k :: 0 <= k < |turns| ==> turns[k].Reaches?
    requires forall k :: 0 <= k < |turns| ==> Prompt(interval, leaseSeconds, GrantAt(first, turns, k), turns[k].grant)
    ensures forall k :: 0 <= k < |turns| ==> Alive(leaseSeconds, first, turns, k)
  {
    forall k | 0 <= k < |turns| ensures Alive(leaseSeconds, first, turns, k) {
      PromptArrivesInTime(interval, leaseSeconds, GrantAt(first, turns, k), turns[k].grant);
    }
  }

  /**
   * The half-lifetime promise, end to end: when every renewal is prompt, the heartbeat never
   * reports an expired lease.
   */
  method BeatPromptly(interval: real, leaseSeconds: real, first: Grant, turns: seq<Renewal>) returns (end: End, n: nat)
    requires interval > 0.0 && OrderedCalls(first, turns)
    requires forall k :: 0 <= k < |turns| ==> turns[k].Reaches?
    requires forall k :: 0 <= k < |turns| ==> Prompt(interval, leaseSeconds, GrantAt(first, turns, k), turns[k].grant)
    ensures end == TimingUnavailable || (end == StillBeating && n == |turns|)
    ensures end == TimingUnavailable ==> 3 <= n <= |turns| && forall k :: n - 3 <= k <= n ==>
      GrantAt(first, turns, k).returned - GrantAt(first, turns, k).started >= leaseSeconds
  {
    PromptKeepsLease(interval, leaseSeconds, first, turns);
    end, n := Beat(interval, leaseSeconds, first, turns);
    if end == TimingUnavailable {
      forall k | n - 3 <= k <= n
        ensures GrantAt(first, turns, k).returned - GrantAt(first, turns, k).started >= leaseSeconds
      {
        assert NoPause(interval, leaseSeconds, first, turns, k);
      }
    }
  }
}

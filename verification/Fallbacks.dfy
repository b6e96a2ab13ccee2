/** Fallback configuration of the model gateway: validation, the chain it yields, and the candidate groups. */
module Fallbacks {
  import opened Prelude
  import opened Ordering
  import LeasedCompletion

  type Edges = map<string, string>

  datatype FallbackError = UnsafeIdentifier | UnknownSource | UnknownTarget | SelfReference | Cycle

  predicate LowerAlphanumeric(c: char) {
    'a' <= c <= 'z' || '0' <= c <= '9'
  }

  predicate SafeIdentifier(s: string) {
    && 0 < |s| <= 128 && LowerAlphanumeric(s[0])
    && forall i :: 0 <= i < |s| ==> LowerAlphanumeric(s[i]) || s[i] in {'_', '-'}
  }

  /** A name has at most 128 characters, and "_" and "-" may stand anywhere but first. */
  lemma SafeNames(s: string, c: char)
    requires forall i :: 0 <= i < |s| ==> 'a' <= s[i] <= 'z' || '0' <= s[i] <= '9'
    ensures SafeIdentifier(s) <==> 1 <= |s| <= 128
    ensures c in {'_', '-'} ==> !SafeIdentifier([c] + s) && (SafeIdentifier(s + [c]) <==> 1 <= |s| <= 127)
    ensures !('a' <= c <= 'z' || '0' <= c <= '9' || c in {'_', '-'}) ==> !SafeIdentifier(s + [c])
  {
    assert (s + [c])[|s|] == c && forall i :: 0 <= i < |s| ==> (s + [c])[i] == s[i];
  }

  /** First complaint about one configured fallback. */
  function EdgeError(models: set<string>, source: string, target: string): Option<FallbackError> {
    if !SafeIdentifier(source) || !SafeIdentifier(target) then Some(UnsafeIdentifier)
    else if source !in models then Some(UnknownSource)
    else if target !in models then Some(UnknownTarget)
    else if source == target then Some(SelfReference)
    else None
  }

  /** Where `k` fallbacks lead from `model`, if that many are configured. */
  ghost function Follow(f: Edges, model: string, k: nat): Option<string> {
    if k == 0 then Some(model)
    else
      var previous := Follow(f, model, k - 1);
      if previous.Some? && previous.value in f then Some(f[previous.value]) else None
  }

  /** No model leads back to itself. */
  ghost predicate Acyclic(f: Edges) {
    forall model, k: nat :: k > 0 ==> Follow(f, model, k) != Some(model)
  }

  lemma {:induction false} FollowAdds(f: Edges, model: string, i: nat, k: nat)
    requires Follow(f, model, i).Some?
    ensures Follow(f, model, i + k) == Follow(f, Follow(f, model, i).value, k)
  {
    if k > 0 {
      FollowAdds(f, model, i, k - 1);
    }
  }

  lemma {:induction false} FollowPrefix(f: Edges, model: string, i: nat, k: nat)
    requires i <= k && Follow(f, model, k).Some?
    ensures Follow(f, model, i).Some? && (i < k ==> Follow(f, model, i).value in f)
  {
    if i < k {
      FollowPrefix(f, model, i, k - 1);
    }
  }

  /** Meeting a model twice on one walk is a cycle through it. */
  lemma RepeatIsCycle(f: Edges, model: string, i: nat, k: nat)
    requires i < k && Follow(f, model, k).Some? && Follow(f, model, i) == Follow(f, model, k)
    ensures !Acyclic(f)
  {
    FollowAdds(f, model, i, k - i);
    var again := Follow(f, model, i).value;
    assert Follow(f, again, k - i) == Some(again);
  }

  /** From a model on a cycle one can follow fallbacks for ever. */
  lemma {:induction false} CycleNeverEnds(f: Edges, model: string, period: nat, k: nat)
    requires period > 0 && Follow(f, model, period) == Some(model)
    ensures Follow(f, model, k).Some?
    decreases k
  {
    if k <= period {
      FollowPrefix(f, model, k, period);
    } else {
      CycleNeverEnds(f, model, period, k - period);
      FollowAdds(f, model, period, k - period);
    }
  }

  /** A walk of distinct models all of which have a fallback is no longer than the configuration. */
  lemma WalkFits(f: Edges, models: seq<string>)
    requires Distinct(models) && forall m :: m in models ==> m in f
    ensures |models| <= |f|
  {
    DistinctSize(models);
    SubsetSize(SetOf(models), f.Keys);
  }

  /** The first `n + 1` models of a walk that goes on at least that far. */
  ghost function Walk(f: Edges, model: string, n: nat): (r: seq<string>)
    requires Follow(f, model, n).Some?
    ensures |r| == n + 1 && forall i :: 0 <= i <= n ==> Follow(f, model, i) == Some(r[i])
  {
    if n == 0 then [model]
    else
      FollowPrefix(f, model, n - 1, n);
      Walk(f, model, n - 1) + [Follow(f, model, n).value]
  }

  /** On an acyclic configuration a walk never repeats a model, so it has at most |f| + 1 models. */
  lemma WalkIsShort(f: Edges, model: string, n: nat)
    requires Acyclic(f) && Follow(f, model, n).Some?
    ensures Distinct(Walk(f, model, n)) && n <= |f|
  {
    var walk := Walk(f, model, n);
    forall i, j | 0 <= i < j < |walk| ensures walk[i] != walk[j] {
      if walk[i] == walk[j] {
        RepeatIsCycle(f, model, i, j);
      }
    }
    forall m | m in walk[..n] ensures m in f {
      var i :| 0 <= i < n && walk[i] == m;
      FollowPrefix(f, model, i, n);
    }
    WalkFits(f, walk[..n]);
  }

  ghost predicate EndsAfter(f: Edges, model: string, k: nat) {
    Follow(f, model, k).Some? && Follow(f, model, k).value !in f
  }

  ghost predicate ChainEnds(f: Edges, model: string) {
    exists k: nat :: EndsAfter(f, model, k)
  }

  /** The configuration is acyclic exactly when every model's chain ends, and then within |f| fallbacks. */
  lemma AcyclicIffChainsEnd(f: Edges)
    ensures Acyclic(f) <==> forall model :: ChainEnds(f, model)
    ensures Acyclic(f) ==> forall model, k: nat :: EndsAfter(f, model, k) ==> k <= |f|
  {
    if Acyclic(f) {
      forall model ensures ChainEnds(f, model) {
        var k := ChainEnd(f, model);
      }
      forall model, k: nat | EndsAfter(f, model, k) ensures k <= |f| {
        WalkIsShort(f, model, k);
      }
    } else {
      var model, period: nat :| period > 0 && Follow(f, model, period) == Some(model);
      forall k: nat ensures !EndsAfter(f, model, k) {
        CycleNeverEnds(f, model, period, k + 1);
      }
      assert !ChainEnds(f, model);
    }
  }

  lemma ChainEnd(f: Edges, model: string) returns (k: nat)
    requires Acyclic(f)
    ensures EndsAfter(f, model, k)
  {
    k := 0;
    while Follow(f, model, k).value in f
      invariant Follow(f, model, k).Some?
      decreases |f| - k
    {
      WalkIsShort(f, model, k + 1);
      k := k + 1;
    }
  }

  /** A fallback between two different known models with safe names. */
  ghost predicate SoundEdge(models: set<string>, source: string, target: string) {
    && SafeIdentifier(source) && SafeIdentifier(target)
    && source in models && target in models && source != target
  }

  /** The fault that is reported for an edge: what comes before it in the order of the checks is in order. */
  ghost predicate HasFault(models: set<string>, source: string, target: string, error: FallbackError) {
    var safe := SafeIdentifier(source) && SafeIdentifier(target);
    match error
    case UnsafeIdentifier => !safe
    case UnknownSource => safe && source !in models
    case UnknownTarget => safe && source in models && target !in models
    case SelfReference => safe && source in models && source == target
    case Cycle => false
  }

  /** The `i`th source's edge has the fault, and every earlier one is sound. */
  ghost predicate FirstFault(models: set<string>, sources: seq<string>, f: Edges, i: nat, error: FallbackError)
    requires i < |sources| && forall s :: s in sources ==> s in f
  {
    && HasFault(models, sources[i], f[sources[i]], error)
    && forall j :: 0 <= j < i ==> SoundEdge(models, sources[j], f[sources[j]])
  }

  ghost predicate IsFirstFault(models: set<string>, sources: seq<string>, f: Edges, error: FallbackError)
    requires forall s :: s in sources ==> s in f
  {
    exists i :: 0 <= i < |sources| && FirstFault(models, sources, f, i, error)
  }

  /** The first complaint in configuration order. */
  function FirstEdgeError(models: set<string>, sources: seq<string>, f: Edges): Option<FallbackError>
    requires forall s :: s in sources ==> s in f
  {
    if sources == [] then None
    else
      var e := EdgeError(models, sources[0], f[sources[0]]);
      if e != None then e else FirstEdgeError(models, sources[1..], f)
  }

  lemma {:induction false} FirstEdgeErrorMeaning(models: set<string>, sources: seq<string>, f: Edges)
    requires forall s :: s in sources ==> s in f
    ensures FirstEdgeError(models, sources, f) == None <==> forall s :: s in sources ==> SoundEdge(models, s, f[s])
    ensures forall e :: FirstEdgeError(models, sources, f) == Some(e) <==> IsFirstFault(models, sources, f, e)
  {
    if sources != [] {
      var rest := sources[1..];
      FirstEdgeErrorMeaning(models, rest, f);
      if SoundEdge(models, sources[0], f[sources[0]]) {
        forall e ensures IsFirstFault(models, sources, f, e) <==> IsFirstFault(models, rest, f, e) {
          FaultInRest(models, sources, f, e);
        }
      } else {
        var e := EdgeError(models, sources[0], f[sources[0]]).value;
        assert FirstFault(models, sources, f, 0, e) && IsFirstFault(models, sources, f, e);
      }
    }
  }

  lemma FaultInRest(models: set<string>, sources: seq<string>, f: Edges, e: FallbackError)
    requires sources != [] && (forall s :: s in sources ==> s in f) && SoundEdge(models, sources[0], f[sources[0]])
    ensures IsFirstFault(models, sources, f, e) <==> IsFirstFault(models, sources[1..], f, e)
  {
    var rest := sources[1..];
    if i :| 0 <= i < |sources| && FirstFault(models, sources, f, i, e) {
      assert FirstFault(models, rest, f, i - 1, e);
    }
    if i :| 0 <= i < |rest| && FirstFault(models, rest, f, i, e) {
      assert FirstFault(models, sources, f, i + 1, e);
    }
  }

  /**
   * Accepts exactly the acyclic configurations of fallbacks between different known models with safe names. Cycles are
   * looked for once every edge is sound; otherwise the first unsound edge is reported with its fault.
   */
  method ValidateFallbacks(models: set<string>, sources: seq<string>, fallbacks: Edges) returns (error: Option<FallbackError>)
    requires forall s :: s in sources <==> s in fallbacks
    ensures error == None <==>
      && Acyclic(fallbacks)
      && forall s :: s in fallbacks ==>
           && SafeIdentifier(s) && SafeIdentifier(fallbacks[s])
           && s in models && fallbacks[s] in models && s != fallbacks[s]
    ensures error == Some(Cycle) <==> !Acyclic(fallbacks) && forall s :: s in fallbacks ==> SoundEdge(models, s, fallbacks[s])
    ensures forall e :: e != Cycle ==>
      (error == Some(e) <==> exists i :: 0 <= i < |sources| && FirstFault(models, sources, fallbacks, i, e))
  {
    FirstEdgeErrorMeaning(models, sources, fallbacks);
    error := CheckEdges(models, sources, fallbacks);
    if error == None {
      var acyclic := CheckAcyclic(sources, fallbacks);
      error := if acyclic then None else Some(Cycle);
    }
  }

  method CheckEdges(models: set<string>, sources: seq<string>, fallbacks: Edges) returns (error: Option<FallbackError>)
    requires forall s :: s in sources ==> s in fallbacks
    ensures error == FirstEdgeError(models, sources, fallbacks)
  {
    for i := 0 to |sources|
      invariant FirstEdgeError(models, sources, fallbacks) == FirstEdgeError(models, sources[i..], fallbacks)
    {
      var source := sources[i];
      assert sources[i..][1..] == sources[i + 1..];
      error := EdgeError(models, source, fallbacks[source]);
      if error != None {
        return;
      }
    }
    error := None;
  }

  method CheckAcyclic(sources: seq<string>, fallbacks: Edges) returns (acyclic: bool)
    requires forall s :: s in sources <==> s in fallbacks
    ensures acyclic <==> Acyclic(fallbacks)
  {
    for i := 0 to |sources|
      invariant forall j :: 0 <= j < i ==> ChainEnds(fallbacks, sources[j])
    {
      var ends := WalkEnds(fallbacks, sources[i]);
      if !ends {
        return false;
      }
    }
    forall model ensures ChainEnds(fallbacks, model) {
      if model !in fallbacks {
        assert EndsAfter(fallbacks, model, 0);
      }
    }
    AcyclicIffChainsEnd(fallbacks);
    acyclic := true;
  }

  lemma Shrinks<T>(all: set<T>, seen: set<T>, x: T)
    requires x in all && x !in seen
    ensures |all - (seen + {x})| < |all - seen|
  {
    assert all - (seen + {x}) == all - seen - {x};
  }

  /** Follows one origin until it leaves the configuration or meets a model again. */
  method WalkEnds(fallbacks: Edges, origin: string) returns (ends: bool)
    ensures ends ==> ChainEnds(fallbacks, origin)
    ensures !ends ==> !Acyclic(fallbacks)
  {
    var seen: set<string> := {};
    var current := origin;
    ghost var k: nat := 0;
    while current in fallbacks
      invariant Follow(fallbacks, origin, k) == Some(current)
      invariant seen <= fallbacks.Keys
      invariant forall m :: m in seen ==> exists i :: 0 <= i < k && Follow(fallbacks, origin, i) == Some(m)
      decreases |fallbacks.Keys - seen|
    {
      if current in seen {
        ghost var i :| 0 <= i < k && Follow(fallbacks, origin, i) == Some(current);
        RepeatIsCycle(fallbacks, origin, i, k);
        return false;
      }
      Shrinks(fallbacks.Keys, seen, current);
      seen := seen + {current};
      current := fallbacks[current];
      k := k + 1;
    }
    assert EndsAfter(fallbacks, origin, k);
    ends := true;
  }

  /**
   * The models a request may use, in order: for an accepted configuration the chain ends, never
   * repeats a model, and stops at the first model without a fallback.
   */
  method FallbackChain(fallbacks: Edges, primary: string, allowFallback: bool) returns (chain: seq<string>)
    requires Acyclic(fallbacks)
    ensures 0 < |chain| <= |fallbacks| + 1 && chain[0] == primary
    ensures Distinct(chain)
    ensures forall i :: 0 <= i < |chain| - 1 ==> chain[i] in fallbacks && chain[i + 1] == fallbacks[chain[i]]
    ensures if allowFallback then chain[|chain| - 1] !in fallbacks else chain == [primary]
  {
    chain := [primary];
    if allowFallback {
      ghost var end := ChainEnd(fallbacks, primary);
      var current := primary;
      while current in fallbacks
        invariant |chain| <= end + 1 && Follow(fallbacks, primary, |chain| - 1) == Some(current)
        invariant 0 < |chain| && chain == Walk(fallbacks, primary, |chain| - 1)
        invariant forall i :: 0 <= i < |chain| - 1 ==> chain[i] in fallbacks && chain[i + 1] == fallbacks[chain[i]]
        decreases end + 1 - |chain|
      {
        current := fallbacks[current];
        chain := chain + [current];
        assert Follow(fallbacks, primary, |chain| - 1) == Some(current);
        assert |chain| - 1 != end + 1;
      }
      WalkIsShort(fallbacks, primary, |chain| - 1);
    }
  }

  /** A logical model together with the deployments able to serve the request. */
  datatype Group = Group(model: string, candidates: seq<LeasedCompletion.Candidate>)

  /** Models of the chain up to the first without a capable deployment; the requested model must have one. */
  method CandidateGroups(capable: map<string, seq<LeasedCompletion.Candidate>>, chain: seq<string>)
    returns (groups: Result<seq<Group>, ()>)
    requires chain != [] && Distinct(chain)
    ensures groups.Err? <==> chain[0] !in capable
    ensures groups.Ok? ==>
      && 0 < |groups.value| <= |chain|
      && (forall i :: 0 <= i < |groups.value| ==> chain[i] in capable && groups.value[i] == Group(chain[i], capable[chain[i]]))
      && (|groups.value| < |chain| ==> chain[|groups.value|] !in capable)
  {
    var built: seq<Group> := [];
    for i := 0 to |chain|
      invariant |built| == i
      invariant forall j :: 0 <= j < i ==> chain[j] in capable && built[j] == Group(chain[j], capable[chain[j]])
    {
      if chain[i] !in capable {
        if chain[i] == chain[0] {
          return Err(());
        }
        break;
      }
      built := built + [Group(chain[i], capable[chain[i]])];
    }
    groups := Ok(built);
  }
}

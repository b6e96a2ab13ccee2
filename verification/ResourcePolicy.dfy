/** Resource paths brought to one form, and the capability rules that match them by prefix. */
module ResourcePolicy {
  import opened Prelude
  import opened Segments

  // ---------------------------------------------------------------- path segments

  predicate Skipped(part: string) {
    part == "" || part == "."
  }

  predicate Named(part: string) {
    !Skipped(part) && part != ".."
  }

  /** What is left of a path below `stack`; None if it climbs out of its root. */
  function Resolve(stack: seq<string>, parts: seq<string>): Option<seq<string>>
    decreases |parts|
  {
    if parts == [] then Some(stack)
    else if Skipped(parts[0]) then Resolve(stack, parts[1..])
    else if parts[0] == ".." then
      if stack == [] then None else Resolve(stack[..|stack| - 1], parts[1..])
    else Resolve(stack + [parts[0]], parts[1..])
  }

  /** Segments are processed one after the other: the second half continues from what the first half left. */
  lemma {:induction false} ResolveConcat(stack: seq<string>, a: seq<string>, b: seq<string>)
    ensures Resolve(stack, a + b) ==
      match Resolve(stack, a) { case None => None case Some(below) => Resolve(below, b) }
    decreases |a|
  {
    if a == [] {
      assert a + b == b;
    } else {
      assert (a + b)[1..] == a[1..] + b;
      if Skipped(a[0]) {
        ResolveConcat(stack, a[1..], b);
      } else if a[0] != ".." {
        ResolveConcat(stack + [a[0]], a[1..], b);
      } else if stack != [] {
        ResolveConcat(stack[..|stack| - 1], a[1..], b);
      }
    }
  }

  /** Names alone are all kept. */
  lemma {:induction false} ResolveNames(stack: seq<string>, parts: seq<string>)
    requires forall p :: p in parts ==> Named(p)
    ensures Resolve(stack, parts) == Some(stack + parts)
    decreases |parts|
  {
    if parts == [] {
      assert stack + parts == stack;
    } else {
      assert parts[0] in parts;
      ResolveNames(stack + [parts[0]], parts[1..]);
      assert stack + [parts[0]] + parts[1..] == stack + parts;
    }
  }

  /** A skipped segment changes nothing, wherever it stands. */
  lemma SkippedVanishes(stack: seq<string>, a: seq<string>, skip: string, b: seq<string>)
    requires Skipped(skip)
    ensures Resolve(stack, a + [skip] + b) == Resolve(stack, a + b)
  {
    ResolveConcat(stack, a, b);
    ResolveConcat(stack, a, [skip] + b);
    assert a + [skip] + b == a + ([skip] + b);
    assert ([skip] + b)[1..] == b;
  }

  /** A name and the ".." that follows it cancel, wherever they stand. */
  lemma NameThenUpCancels(stack: seq<string>, a: seq<string>, name: string, b: seq<string>)
    requires Named(name)
    ensures Resolve(stack, a + [name, ".."] + b) == Resolve(stack, a + b)
  {
    var pair := [name, ".."];
    ResolveConcat(stack, a, b);
    ResolveConcat(stack, a, pair + b);
    assert a + pair + b == a + (pair + b);
    assert (pair + b)[1..] == [".."] + b && ([".."] + b)[1..] == b;
    if below :| Resolve(stack, a) == Some(below) {
      assert (below + [name])[..|below|] == below;
    }
  }

  /** How far below its start a path ends. */
  function Depth(parts: seq<string>): int {
    if parts == [] then 0
    else (if Skipped(parts[0]) then 0 else if parts[0] == ".." then -1 else 1) + Depth(parts[1..])
  }

  /** A path is refused exactly if on its way it climbs above its root; otherwise it ends as deep as its steps say. */
  lemma {:induction false} RefusedIffClimbsOut(stack: seq<string>, parts: seq<string>)
    ensures Resolve(stack, parts).None? <==> exists k :: 0 <= k <= |parts| && |stack| + Depth(parts[..k]) < 0
    ensures Resolve(stack, parts).Some? ==> |Resolve(stack, parts).value| == |stack| + Depth(parts)
    decreases |parts|
  {
    if parts != [] {
      var rest := parts[1..];
      if Skipped(parts[0]) {
        RefusedIffClimbsOut(stack, rest);
      } else if parts[0] != ".." {
        RefusedIffClimbsOut(stack + [parts[0]], rest);
      } else if stack != [] {
        RefusedIffClimbsOut(stack[..|stack| - 1], rest);
      }
      forall k | 0 <= k <= |rest| ensures Depth(parts[..k + 1]) == Depth(parts[..1]) + Depth(rest[..k]) {
        assert parts[..k + 1][1..] == rest[..k] && parts[..1][1..] == [];
      }
      if stack == [] && parts[0] == ".." {
        assert |stack| + Depth(parts[..1]) < 0;
      } else {
        if k :| 0 <= k <= |rest| && |stack| + Depth(parts[..1]) + Depth(rest[..k]) < 0 {
          assert |stack| + Depth(parts[..k + 1]) < 0;
        }
        if k :| 0 <= k <= |parts| && |stack| + Depth(parts[..k]) < 0 {
          assert k >= 1 && |stack| + Depth(parts[..1]) + Depth(rest[..k - 1]) < 0;
        }
      }
    }
  }

  /** Whatever is left consists of names that were in the path or below it. */
  lemma {:induction false} ResolvedAreNames(stack: seq<string>, parts: seq<string>, p: string)
    requires Resolve(stack, parts).Some? && p in Resolve(stack, parts).value
    ensures p in stack || (Named(p) && p in parts)
    decreases |parts|
  {
    if parts != [] {
      if Skipped(parts[0]) {
        ResolvedAreNames(stack, parts[1..], p);
      } else if parts[0] == ".." {
        ResolvedAreNames(stack[..|stack| - 1], parts[1..], p);
      } else {
        ResolvedAreNames(stack + [parts[0]], parts[1..], p);
      }
    }
  }

  // ---------------------------------------------------------------- normalisation

  /** "://" stands at `i`. */
  predicate SchemeAt(s: string, i: int) {
    0 <= i <= |s| - 3 && s[i] == ':' && s[i + 1] == '/' && s[i + 2] == '/'
  }

  predicate HasScheme(s: string) {
    exists i :: 0 <= i < |s| && SchemeAt(s, i)
  }

  function Slashes(s: string): (r: string)
    ensures |r| == |s| && forall i :: 0 <= i < |s| ==> r[i] == if s[i] == '\\' then '/' else s[i]
  {
    seq(|s|, i requires 0 <= i < |s| => if s[i] == '\\' then '/' else s[i])
  }

  predicate Absolute(s: string) {
    s != "" && (s[0] == '/' || s[0] == '\\')
  }

  predicate DriveLike(s: string) {
    |s| >= 2 && s[1] == ':'
  }

  function Normalized(resource: string): Option<string> {
    if Absolute(resource) || HasScheme(resource) || DriveLike(Slashes(resource)) then None
    else
      match Resolve([], Split(Slashes(resource), '/'))
      case None => None
      case Some(parts) =>
        if parts == [] then None
        else
          var normalized := Join(parts, '/');
          if (normalized != "" && normalized[0] == '/') || '\0' in normalized then None else Some(normalized)
  }

  method NormalizeResource(resource: string) returns (r: Option<string>)
    ensures r == Normalized(resource)
  {
    r := None;
    if !Absolute(resource) && !HasScheme(resource) {
      var candidate := Slashes(resource);
      if !DriveLike(candidate) {
        var raw := Split(candidate, '/');
        var parts: seq<string> := [];
        var climbs := false;
        var i := 0;
        while i < |raw| && !climbs
          invariant i <= |raw|
          invariant climbs ==> Resolve([], raw) == None
          invariant !climbs ==> Resolve([], raw) == Resolve(parts, raw[i..])
        {
          assert raw[i..][1..] == raw[i + 1..];
          if Skipped(raw[i]) {
          } else if raw[i] == ".." {
            if parts == [] {
              climbs := true;
            } else {
              parts := parts[..|parts| - 1];
            }
          } else {
            parts := parts + [raw[i]];
          }
          i := i + 1;
        }
        if !climbs && parts != [] {
          var normalized := Join(parts, '/');
          if !(normalized != "" && normalized[0] == '/') && '\0' !in normalized {
            r := Some(normalized);
          }
        }
      }
    }
  }

  /** A path in normal form: names only, none with a separator or a NUL in it. */
  ghost predicate Canonical(parts: seq<string>) {
    parts != [] && forall p :: p in parts ==> Named(p) && '/' !in p && '\\' !in p && '\0' !in p
  }

  lemma SegmentsOfSlashes(resource: string, p: string)
    requires p in Split(Slashes(resource), '/')
    ensures '\\' !in p
  {
    if '\\' in p {
      SplitChars(Slashes(resource), '/', p, '\\');
    }
  }

  lemma {:induction false} SplitChars(s: string, sep: char, p: string, c: char)
    requires p in Split(s, sep) && c in p
    ensures c in s
  {
    if s != "" {
      var rest := Split(s[1..], sep);
      if s[0] == sep {
        assert p in rest;
        SplitChars(s[1..], sep, p, c);
      } else if p in rest {
        SplitChars(s[1..], sep, p, c);
      } else {
        assert p == [s[0]] + rest[0];
        if c != s[0] {
          assert c in rest[0] && rest[0] in rest;
          SplitChars(s[1..], sep, rest[0], c);
        }
      }
    }
  }

  lemma {:induction false} JoinHolds(parts: seq<string>, sep: char, p: string, c: char)
    requires p in parts && c in p
    ensures c in Join(parts, sep)
  {
    if |parts| > 1 && p != parts[0] {
      assert p in parts[1..];
      JoinHolds(parts[1..], sep, p, c);
    }
  }

  predicate ClimbsOut(parts: seq<string>) {
    exists k :: 0 <= k <= |parts| && Depth(parts[..k]) < 0
  }

  /** The segments a path keeps, if it has a place to keep them in. */
  function Kept(parts: seq<string>): seq<string> {
    match Resolve([], parts)
    case Some(kept) => kept
    case None => []
  }

  lemma SchemeIff(s: string)
    ensures HasScheme(s) <==> exists i :: 0 <= i <= |s| - 3 && s[i..][..3] == "://"
  {
    forall i | 0 <= i <= |s| - 3 ensures SchemeAt(s, i) <==> s[i..][..3] == "://" {
      assert s[i..][..3] == [s[i], s[i + 1], s[i + 2]];
    }
  }

  /** Exactly what is refused; in particular the last check for a leading slash never refuses anything. */
  lemma RefusedExactlyIf(resource: string)
    ensures var parts := Split(Slashes(resource), '/');
      Normalized(resource).None? <==>
        || (resource != "" && resource[0] in {'/', '\\'}) || (|resource| >= 2 && resource[1] == ':')
        || (exists i :: 0 <= i <= |resource| - 3 && resource[i..][..3] == "://")
        || ClimbsOut(parts) || Depth(parts) == 0
        || exists p :: p in Kept(parts) && '\0' in p
  {
    var parts := Split(Slashes(resource), '/');
    RefusedIffClimbsOut([], parts);
    SchemeIff(resource);
    var kept := Kept(parts);
    if '\0' in Join(kept, '/') {
      JoinChars(kept, '/', '\0');
    }
    if p :| p in kept && '\0' in p {
      JoinHolds(kept, '/', p, '\0');
    }
    if kept != [] {
      KeptAreNames(resource);
      LeadingSlash(kept);
    }
  }

  lemma KeptAreNames(resource: string)
    ensures forall p :: p in Kept(Split(Slashes(resource), '/')) ==> Named(p) && '/' !in p && '\\' !in p
  {
    var raw := Split(Slashes(resource), '/');
    forall p | p in Kept(raw) ensures Named(p) && '/' !in p && '\\' !in p {
      ResolvedAreNames([], raw, p);
      SegmentsOfSlashes(resource, p);
    }
  }

  lemma LeadingSlash(parts: seq<string>)
    requires parts != [] && forall p :: p in parts ==> Named(p) && '/' !in p
    ensures Split(Join(parts, '/'), '/') == parts
    ensures Join(parts, '/') != "" && Join(parts, '/')[0] != '/'
  {
    SplitJoin(parts, '/');
    assert parts[0] in parts;
  }

  /** Every normal form is canonical: no empty, "." or ".." segment, and splitting gives its segments. */
  lemma NormalFormIsCanonical(resource: string)
    requires Normalized(resource).Some?
    ensures Canonical(Split(Normalized(resource).value, '/'))
    ensures Resolve([], Split(Slashes(resource), '/')) == Some(Split(Normalized(resource).value, '/'))
  {
    var parts := Kept(Split(Slashes(resource), '/'));
    KeptAreNames(resource);
    SplitJoin(parts, '/');
    forall p | p in parts ensures '\0' !in p {
      if '\0' in p {
        JoinHolds(parts, '/', p, '\0');
      }
    }
  }

  // ---------------------------------------------------------------- normalising again

  lemma CanonicalText(parts: seq<string>)
    requires Canonical(parts)
    ensures !Absolute(Join(parts, '/')) && Slashes(Join(parts, '/')) == Join(parts, '/') && '\0' !in Join(parts, '/')
    ensures Split(Join(parts, '/'), '/') == parts
  {
    var r := Join(parts, '/');
    LeadingSlash(parts);
    if '\\' in r {
      JoinChars(parts, '/', '\\');
    }
    if '\0' in r {
      JoinChars(parts, '/', '\0');
    }
  }

  lemma CanonicalHasNoScheme(r: string)
    requires Canonical(Split(r, '/'))
    ensures !HasScheme(r)
  {
    if i :| 0 <= i < |r| && SchemeAt(r, i) {
      AdjacentSeparators(r, i + 1, '/');
    }
  }

  /** Normalising a normal form gives it back, unless its second character is a colon; then it is refused. */
  lemma IdempotentIff(resource: string)
    requires Normalized(resource).Some?
    ensures var r := Normalized(resource).value;
      Normalized(r) == if DriveLike(r) then None else Some(r)
  {
    NormalFormIsCanonical(resource);
    var r := Normalized(resource).value;
    var parts := Split(r, '/');
    JoinSplit(r, '/');
    CanonicalText(parts);
    CanonicalHasNoScheme(r);
    ResolveNames([], parts);
    assert [] + parts == parts;
  }

  /** A path whose normal form is refused when normalised again. */
  lemma NotIdempotent()
    ensures Normalized("./c:") == Some("c:") && Normalized("c:") == None
  {
    assert Slashes("./c:") == "./c:" && Slashes("c:") == "c:";
    assert Join(["c:"], '/') == "c:" && Join([".", "c:"], '/') == "./c:";
    SplitJoin([".", "c:"], '/');
    SkippedVanishes([], [], ".", ["c:"]);
    ResolveNames([], ["c:"]);
    assert [] + ["."] + ["c:"] == [".", "c:"] && [] + ["c:"] == ["c:"];
  }

  // ---------------------------------------------------------------- rules

  datatype Effect = Allow | RequireApproval | Deny

  datatype CapabilityRule = CapabilityRule(
    tenant: nat, role: Option<nat>, agent: Option<string>,
    capability: string, operation: string, resourcePrefix: string, effect: Effect)

  datatype CapabilityRequest = CapabilityRequest(
    tenant: nat, user: nat, run: nat, agent: string,
    capability: string, operation: string, resource: string, arguments: string, idempotencyKey: string)

  datatype PolicyDecision = PolicyDecision(effect: Effect, normalizedResource: string)

  /** A rule is stored with its prefix in normal form, or not at all. */
  function MakeRule(tenant: nat, role: Option<nat>, agent: Option<string>, capability: string, operation: string,
                    resourcePrefix: string, effect: Effect): Option<CapabilityRule> {
    match Normalized(resourcePrefix)
    case None => None
    case Some(prefix) => Some(CapabilityRule(tenant, role, agent, capability, operation, prefix, effect))
  }

  predicate AppliesTo(rule: CapabilityRule, request: CapabilityRequest, role: nat) {
    && rule.tenant == request.tenant
    && (rule.role.None? || rule.role.value == role)
    && (rule.agent.None? || rule.agent.value == request.agent)
    && rule.capability == request.capability
    && rule.operation == request.operation
  }

  predicate Matches(rule: CapabilityRule, request: CapabilityRequest, role: nat, resource: string) {
    AppliesTo(rule, request, role) && (resource == rule.resourcePrefix || rule.resourcePrefix + "/" <= resource)
  }

  function MatchingEffects(rules: seq<CapabilityRule>, request: CapabilityRequest, role: nat, resource: string): seq<Effect> {
    if rules == [] then []
    else (if Matches(rules[0], request, role, resource) then [rules[0].effect] else [])
         + MatchingEffects(rules[1..], request, role, resource)
  }

  function Evaluate(rules: seq<CapabilityRule>, request: CapabilityRequest, role: nat): PolicyDecision {
    match Normalized(request.resource)
    case None => PolicyDecision(Deny, "")
    case Some(resource) =>
      var effects := MatchingEffects(rules, request, role, resource);
      var effect :=
        if Deny in effects then Deny
        else if RequireApproval in effects then RequireApproval
        else if Allow in effects then Allow
        else Deny;
      PolicyDecision(effect, resource)
  }

  lemma {:induction false} MatchingEffectsAre(rules: seq<CapabilityRule>, request: CapabilityRequest, role: nat, resource: string, e: Effect)
    ensures e in MatchingEffects(rules, request, role, resource) <==>
      exists rule :: rule in rules && rule.effect == e && Matches(rule, request, role, resource)
  {
    if rules != [] {
      MatchingEffectsAre(rules[1..], request, role, resource, e);
      if rule :| rule in rules && rule.effect == e && Matches(rule, request, role, resource) {
        if rule != rules[0] {
          assert rule in rules[1..];
        }
      }
      if Matches(rules[0], request, role, resource) && rules[0].effect == e {
        assert rules[0] in rules;
      }
    }
  }

  /** A rule bears on a request if it applies to it and its path's segments are the first of the resource's. */
  ghost predicate Bears(rule: CapabilityRule, e: Effect, request: CapabilityRequest, role: nat, segments: seq<string>) {
    && rule.effect == e && AppliesTo(rule, request, role)
    && Split(rule.resourcePrefix, '/') <= segments
  }

  /** Some rule with this effect bears on the request. */
  ghost predicate Someone(rules: seq<CapabilityRule>, e: Effect, request: CapabilityRequest, role: nat, segments: seq<string>) {
    exists rule :: rule in rules && Bears(rule, e, request, role, segments)
  }

  lemma EffectsBySegments(rules: seq<CapabilityRule>, request: CapabilityRequest, role: nat, resource: string, e: Effect)
    ensures e in MatchingEffects(rules, request, role, resource) <==> Someone(rules, e, request, role, Split(resource, '/'))
  {
    MatchingEffectsAre(rules, request, role, resource, e);
    forall rule | rule in rules && rule.effect == e
      ensures Matches(rule, request, role, resource) <==> Bears(rule, e, request, role, Split(resource, '/'))
    {
      PrefixIsPartPrefix(rule.resourcePrefix, resource, '/');
      assert rule.resourcePrefix + "/" == rule.resourcePrefix + ['/'];
    }
  }

  /** However its prefix and the resource are spelled, a stored rule matches what it is for by the segments that they come down to. */
  lemma MadeRuleMatches(tenant: nat, role: Option<nat>, agent: Option<string>, capability: string, operation: string,
                        resourcePrefix: string, effect: Effect, request: CapabilityRequest, actor: nat)
    requires Normalized(request.resource).Some?
    ensures var rule := MakeRule(tenant, role, agent, capability, operation, resourcePrefix, effect);
      && (rule.Some? <==> Normalized(resourcePrefix).Some?)
      && (rule.Some? ==>
            && rule.value.effect == effect && Normalized(resourcePrefix) == Some(rule.value.resourcePrefix)
            && (Matches(rule.value, request, actor, Normalized(request.resource).value) <==>
                  && tenant == request.tenant && (role.Some? ==> role.value == actor) && (agent.Some? ==> agent.value == request.agent)
                  && capability == request.capability && operation == request.operation
                  && Kept(Split(Slashes(resourcePrefix), '/')) <= Kept(Split(Slashes(request.resource), '/'))))
  {
    var made := MakeRule(tenant, role, agent, capability, operation, resourcePrefix, effect);
    if made.Some? {
      NormalFormIsCanonical(resourcePrefix);
      NormalFormIsCanonical(request.resource);
      PrefixIsPartPrefix(made.value.resourcePrefix, Normalized(request.resource).value, '/');
      assert made.value.resourcePrefix + "/" == made.value.resourcePrefix + ['/'];
    }
  }

  /**
   * The decision, in terms of the segments a path comes down to: denial first, then approval, then permission. It
   * carries the resource in normal form, spelled with those segments.
   */
  lemma DecisionBySegments(rules: seq<CapabilityRule>, request: CapabilityRequest, role: nat)
    ensures Normalized(request.resource).Some? ==>
      Split(Evaluate(rules, request, role).normalizedResource, '/') == Kept(Split(Slashes(request.resource), '/'))
    ensures Normalized(request.resource).None? ==> Evaluate(rules, request, role).normalizedResource == ""
    ensures var d := Evaluate(rules, request, role).effect;
      var segments := Kept(Split(Slashes(request.resource), '/'));
      && (d == Allow <==> Normalized(request.resource).Some? && Someone(rules, Allow, request, role, segments)
                          && !Someone(rules, RequireApproval, request, role, segments)
                          && !Someone(rules, Deny, request, role, segments))
      && (d == RequireApproval <==> Normalized(request.resource).Some? && Someone(rules, RequireApproval, request, role, segments)
                                    && !Someone(rules, Deny, request, role, segments))
  {
    if Normalized(request.resource).Some? {
      var resource := Normalized(request.resource).value;
      NormalFormIsCanonical(request.resource);
      EffectsBySegments(rules, request, role, resource, Allow);
      EffectsBySegments(rules, request, role, resource, RequireApproval);
      EffectsBySegments(rules, request, role, resource, Deny);
    }
  }

  /** Order and repetition of the rules do not matter. */
  lemma OrderDoesNotMatter(rules: seq<CapabilityRule>, others: seq<CapabilityRule>, request: CapabilityRequest, role: nat)
    requires forall rule :: rule in rules <==> rule in others
    ensures Evaluate(rules, request, role) == Evaluate(others, request, role)
  {
    if Normalized(request.resource).Some? {
      var resource := Normalized(request.resource).value;
      forall e ensures e in MatchingEffects(rules, request, role, resource) <==> e in MatchingEffects(others, request, role, resource) {
        MatchingEffectsAre(rules, request, role, resource, e);
        MatchingEffectsAre(others, request, role, resource, e);
      }
    }
  }
}

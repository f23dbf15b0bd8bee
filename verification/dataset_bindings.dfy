/** Binding dataset versions to execution nodes, and what an accepted acknowledgement proves about them. */
module DatasetBindings {
  import opened Sequences
  import opened Strings
  import opened Datasets
  import Actions

  const MAX_TARGETS := 256
  const MAX_STATUSES := 512
  const MAX_REVISION: nat := 0xFFFF_FFFF_FFFF_FFFF

  datatype Spec = Spec(version: string, classifications: seq<Classification>)

  ghost predicate ValidSpec(s: Spec) {
    && ValidDigest(s.version) && 1 <= |s.classifications| <= MAX_CLASSIFICATIONS
    && (forall i :: 0 <= i < |s.classifications| ==> ValidClassification(s.classifications[i]))
    && DistinctKeys(s.classifications)
  }

  ghost predicate DistinctKeys(cs: seq<Classification>) {
    forall i, j :: 0 <= i < j < |cs| ==> Key(cs[i]) != Key(cs[j])
  }

  function Keys(cs: seq<Classification>): set<Classification> {
    set c | c in cs :: Key(c)
  }

  // ---------- when two specifications are the same ----------

  /** The comparison as it is made: same version, same length, and every selector of `b` among those of `a`. */
  predicate EqualSpecs(a: Spec, b: Spec) {
    && a.version == b.version && |a.classifications| == |b.classifications|
    && forall i :: 0 <= i < |b.classifications| ==> Key(b.classifications[i]) in Keys(a.classifications)
  }

  method EqualDatasetBindingSpecs(a: Spec, b: Spec) returns (equal: bool)
    ensures equal == EqualSpecs(a, b)
  {
    hide Key;
    if a.version != b.version || |a.classifications| != |b.classifications| {
      return false;
    }
    var keys: set<Classification> := {};
    for i := 0 to |a.classifications|
      invariant keys == Keys(a.classifications[..i])
    {
      assert a.classifications[..i + 1] == a.classifications[..i] + [a.classifications[i]];
      keys := keys + {Key(a.classifications[i])};
    }
    assert a.classifications[..|a.classifications|] == a.classifications;
    for i := 0 to |b.classifications|
      invariant forall j :: 0 <= j < i ==> Key(b.classifications[j]) in keys
    {
      if Key(b.classifications[i]) !in keys {
        return false;
      }
    }
    equal := true;
  }

  lemma {:induction false} DistinctKeysCount(cs: seq<Classification>)
    requires DistinctKeys(cs)
    ensures |Keys(cs)| == |cs|
    decreases |cs|
  {
    hide Key;
    if cs == [] {
      assert Keys(cs) == {};
    } else {
      var n := |cs| - 1;
      DistinctKeysCount(cs[..n]);
      assert cs == cs[..n] + [cs[n]];
      assert Keys(cs) == Keys(cs[..n]) + {Key(cs[n])};
    }
  }

  /** On specifications without repeated selectors, checking one direction is enough: they compare equal
      exactly when they select the same version and the same set of classifications. */
  lemma EqualSpecsIff(a: Spec, b: Spec)
    requires DistinctKeys(a.classifications) && DistinctKeys(b.classifications)
    ensures EqualSpecs(a, b) <==> a.version == b.version && Keys(a.classifications) == Keys(b.classifications)
  {
    hide Key;
    var ka, kb := Keys(a.classifications), Keys(b.classifications);
    DistinctKeysCount(a.classifications);
    DistinctKeysCount(b.classifications);
    if EqualSpecs(a, b) {
      forall k | k in kb ensures k in ka {
        var c :| c in b.classifications && Key(c) == k;
        var i :| 0 <= i < |b.classifications| && b.classifications[i] == c;
      }
      SubsetOfSameSize(kb, ka);
    }
  }

  lemma SubsetOfSameSize<T>(a: set<T>, b: set<T>)
    requires a <= b && |a| == |b|
    ensures a == b
  {
    assert |b - a| == |b| - |a|;
  }

  /** With a repeated selector the comparison would depend on which side it is made from. */
  lemma RepetitionBreaksSymmetry(v: string, x: Classification, y: Classification)
    requires Key(x) != Key(y)
    ensures EqualSpecs(Spec(v, [x, y]), Spec(v, [x, x])) && !EqualSpecs(Spec(v, [x, x]), Spec(v, [x, y]))
  {
    hide Key;
    assert x in [x, y] && x in [x, x];
    assert [x, y][1] == y;
  }

  // ---------- requests and acknowledgements ----------

  datatype Action = Bind | Replace | Unbind | Inspect

  datatype Selection = Effective | Subset(ids: seq<string>)

  predicate ValidSelection(s: Selection) {
    s.Subset? ==>
      && 1 <= |s.ids| <= MAX_TARGETS
      && (forall i :: 0 <= i < |s.ids| ==> PolicyIdentity(s.ids[i]) && s.ids[i] != "*")
      && (forall i, j :: 0 <= i < j < |s.ids| ==> Before(s.ids[i], s.ids[j]))
  }

  datatype InstanceUpdate = InstanceUpdate(expected: nat, config: bool, policyExpected: Option<nat>)

  datatype Request = Request(
    action: Action, operation: string, instance: string, source: string, targets: Selection,
    spec: Option<Spec>, expected: nat, update: Option<InstanceUpdate>)

  ghost predicate ValidRequest(r: Request) {
    && r.expected < MAX_REVISION && PolicyIdentity(r.instance) && PolicyIdentity(r.source) && ValidSelection(r.targets)
    && if r.action.Inspect? then r.operation == "" && r.expected == 0 && r.spec.None? && r.update.None?
       else
         && PolicyIdentity(r.operation) && (r.action.Bind? <==> r.expected == 0)
         && (r.action.Unbind? <==> r.spec.None?) && (r.spec.Some? ==> ValidSpec(r.spec.value))
         && (r.update.Some? ==>
              && 0 < r.update.value.expected < MAX_REVISION
              && (r.update.value.config || r.update.value.policyExpected.Some?))
  }

  datatype Record = Record(instance: string, source: string, revision: nat, targets: Selection, spec: Spec)

  ghost predicate ValidRecord(r: Record) {
    PolicyIdentity(r.instance) && PolicyIdentity(r.source) && r.revision > 0 && ValidSelection(r.targets) && ValidSpec(r.spec)
  }

  datatype State = Applied | Unbound | Pending | Failed | Offline

  datatype Status = Status(
    agent: string, state: State, desired: Option<Spec>, applied: Option<Spec>, lastGood: Option<Spec>,
    generation: string, revision: nat, error: Option<Actions.RuntimeError>)

  ghost predicate ValidOptional(s: Option<Spec>) {
    s.Some? ==> ValidSpec(s.value)
  }

  ghost predicate ValidStatus(s: Status) {
    && PolicyIdentity(s.agent)
    && ValidOptional(s.desired) && ValidOptional(s.applied) && ValidOptional(s.lastGood)
    && (s.generation != "" ==> PolicyIdentity(s.generation))
    && (s.applied.Some? ==> s.generation != "" && s.revision != 0)
    && (s.error.Some? ==> Actions.ValidError(s.error.value))
    && match s.state
       case Applied => s.desired.Some? && s.applied.Some? && EqualSpecs(s.desired.value, s.applied.value) && s.error.None?
       case Unbound => s.desired.None? && s.applied.None? && s.error.None?
       case Pending => s.error.None?
       case Failed => s.error.Some?
       case Offline => true
  }

  datatype Response = Response(
    instanceRevision: nat, policyRevision: nat, operation: string, instance: string, source: string,
    revision: nat, desired: Option<Record>, targets: Option<seq<Status>>)

  /** The mutation versions an acknowledgement must show for the instance update it carries. */
  predicate UpdateAcknowledged(r: Response, q: Request) {
    match q.update
    case None => r.instanceRevision == 0 && r.policyRevision == 0
    case Some(u) =>
      r.instanceRevision > u.expected
      && match u.policyExpected
         case None => r.policyRevision == 0
         case Some(expected) => r.policyRevision > expected
  }

  ghost predicate DesiredAcknowledged(r: Response, q: Request) {
    && (r.desired.Some? ==>
         && ValidRecord(r.desired.value)
         && r.desired.value.instance == q.instance && r.desired.value.source == q.source
         && r.desired.value.revision == r.revision)
    && match q.action
       case Bind => DesiredKept(r, q)
       case Replace => DesiredKept(r, q)
       case Unbind => r.desired.None?
       case Inspect => true
  }

  predicate DesiredKept(r: Response, q: Request) {
    && r.desired.Some? && q.spec.Some?
    && EqualSpecs(r.desired.value.spec, q.spec.value) && r.desired.value.targets == q.targets
  }

  /** One node's status is valid, and what it is meant to run is what is persisted. */
  ghost predicate StatusAccepted(s: Status, r: Response) {
    && ValidStatus(s)
    && (s.desired.Some? ==> r.desired.Some? && EqualSpecs(s.desired.value, r.desired.value.spec))
  }

  ghost predicate ValidFor(r: Response, q: Request) {
    && ValidRequest(q) && UpdateAcknowledged(r, q)
    && r.operation == q.operation && r.instance == q.instance && r.source == q.source
    && r.targets.Some? && |r.targets.value| <= MAX_STATUSES
    && (!q.action.Inspect? ==> r.revision > 0 && r.revision > q.expected)
    && DesiredAcknowledged(r, q)
    && (forall i :: 0 <= i < |r.targets.value| ==> StatusAccepted(r.targets.value[i], r))
    && (forall i, j :: 0 <= i < j < |r.targets.value| ==> r.targets.value[i].agent != r.targets.value[j].agent)
  }

  /** In an accepted bind or replace, a node reported applied runs exactly what was requested: the version,
      and the same set of classifications, whatever route the comparison took. */
  lemma AppliedIsAsRequested(r: Response, q: Request, i: nat)
    requires ValidFor(r, q) && (q.action.Bind? || q.action.Replace?)
    requires i < |r.targets.value| && r.targets.value[i].state.Applied?
    ensures
      var applied := r.targets.value[i].applied;
      && applied.Some? && applied.value.version == q.spec.value.version
      && Keys(applied.value.classifications) == Keys(q.spec.value.classifications)
  {
    hide Key, Keys, EqualSpecs, PolicyIdentity, ValidSelection, UpdateAcknowledged;
    var s := r.targets.value[i];
    assert StatusAccepted(s, r);
    EqualSpecsIff(s.desired.value, s.applied.value);
    EqualSpecsIff(s.desired.value, r.desired.value.spec);
    EqualSpecsIff(r.desired.value.spec, q.spec.value);
  }

  /** Put differently: a classification is requested exactly when the node applies one with the same name,
      kind and attributes, in whatever order. */
  lemma AppliedSelectsTheSame(r: Response, q: Request, i: nat, c: Classification)
    requires ValidFor(r, q) && (q.action.Bind? || q.action.Replace?)
    requires i < |r.targets.value| && r.targets.value[i].state.Applied?
    requires ValidClassification(c)
    ensures r.targets.value[i].applied.Some?
    ensures Selects(q.spec.value, c) <==> Selects(r.targets.value[i].applied.value, c)
  {
    hide PolicyIdentity, ValidSelection, UpdateAcknowledged;
    AppliedIsAsRequested(r, q, i);
    assert StatusAccepted(r.targets.value[i], r);
    SelectsByKey(q.spec.value, c);
    SelectsByKey(r.targets.value[i].applied.value, c);
  }

  ghost predicate Selects(s: Spec, c: Classification) {
    exists d :: d in s.classifications && d.name == c.name && d.kind == c.kind && multiset(d.attributes) == multiset(c.attributes)
  }

  lemma SelectsByKey(s: Spec, c: Classification)
    requires ValidSpec(s) && ValidClassification(c)
    ensures Selects(s, c) <==> Key(c) in Keys(s.classifications)
  {
    hide Key, ValidClassification;
    forall d | d in s.classifications
      ensures Key(d) == Key(c) <==> d.name == c.name && d.kind == c.kind && multiset(d.attributes) == multiset(c.attributes)
    {
      var i :| 0 <= i < |s.classifications| && s.classifications[i] == d;
      KeyIsCanonical(d, c);
    }
  }

  // ---------- truthful hosts are accepted ----------

  lemma SelfEqual(s: Spec)
    ensures EqualSpecs(s, s)
  {
    hide Key;
  }

  /** What a node can truthfully say of a specification that is meant for it. */
  ghost predicate Truthful(s: Status, spec: Spec) {
    && PolicyIdentity(s.agent) && s.desired == Some(spec) && s.lastGood.None?
    && match s.state
       case Applied => s.applied == Some(spec) && PolicyIdentity(s.generation) && s.revision > 0 && s.error.None?
       case Pending => s.applied.None? && s.generation == "" && s.error.None?
       case Failed => s.applied.None? && s.generation == "" && s.error.Some? && Actions.ValidError(s.error.value)
       case Offline => s.applied.None? && s.generation == "" && s.error.None?
       case Unbound => false
  }

  lemma TruthfulIsValid(s: Status, spec: Spec)
    requires ValidSpec(spec) && Truthful(s, spec)
    ensures ValidStatus(s)
  {
    hide PolicyIdentity, ValidSpec, EqualSpecs, Actions.ValidError;
    SelfEqual(spec);
    EmptyIsNoIdentity();
  }

  /** A bind or replace is acknowledged by persisting just what was asked, at a higher revision, and by up to 512 nodes
      that each say truthfully whether they run it. */
  lemma TruthfulIsAccepted(q: Request, instanceRevision: nat, policyRevision: nat, revision: nat, statuses: seq<Status>)
    requires ValidRequest(q) && (q.action.Bind? || q.action.Replace?) && revision > q.expected
    requires |statuses| <= MAX_STATUSES
    requires forall i :: 0 <= i < |statuses| ==> Truthful(statuses[i], q.spec.value)
    requires forall i, j :: 0 <= i < j < |statuses| ==> statuses[i].agent != statuses[j].agent
    requires match q.update
             case None => instanceRevision == 0 && policyRevision == 0
             case Some(u) =>
               instanceRevision > u.expected
               && if u.policyExpected.Some? then policyRevision > u.policyExpected.value else policyRevision == 0
    ensures
      var record := Record(q.instance, q.source, revision, q.targets, q.spec.value);
      ValidFor(Response(instanceRevision, policyRevision, q.operation, q.instance, q.source, revision, Some(record),
                        Some(statuses)), q)
  {
    hide PolicyIdentity, ValidSpec, EqualSpecs, ValidSelection, ValidStatus, Truthful;
    SelfEqual(q.spec.value);
    forall i | 0 <= i < |statuses| ensures ValidStatus(statuses[i]) && statuses[i].desired == Some(q.spec.value) {
      TruthfulIsValid(statuses[i], q.spec.value);
      TruthfulMeans(statuses[i], q.spec.value);
    }
  }

  lemma TruthfulMeans(s: Status, spec: Spec)
    requires Truthful(s, spec)
    ensures s.desired == Some(spec)
  {
  }

  /** An unbind is acknowledged by persisting nothing, at a higher revision, and by nodes that have nothing left. */
  lemma TruthfulUnbindIsAccepted(q: Request, revision: nat, agents: seq<string>)
    requires ValidRequest(q) && q.action.Unbind? && q.update.None? && revision > q.expected
    requires |agents| <= MAX_STATUSES && forall i :: 0 <= i < |agents| ==> PolicyIdentity(agents[i])
    requires forall i, j :: 0 <= i < j < |agents| ==> agents[i] != agents[j]
    ensures
      var statuses := seq(|agents|, i requires 0 <= i < |agents| => Status(agents[i], Unbound, None, None, None, "", 0, None));
      ValidFor(Response(0, 0, q.operation, q.instance, q.source, revision, None, Some(statuses)), q)
  {
    hide PolicyIdentity, ValidSelection;
  }

  /** What each action needs, and nothing else may be in it: a bind starts from revision 0, and a replace and an unbind from
      a later one. */
  lemma PlainRequestsAre(operation: string, instance: string, source: string, targets: Selection, spec: Spec, expected: nat)
    requires PolicyIdentity(operation) && PolicyIdentity(instance) && PolicyIdentity(source)
    requires ValidSelection(targets) && ValidSpec(spec)
    ensures ValidRequest(Request(Bind, operation, instance, source, targets, Some(spec), expected, None)) <==> expected == 0
    ensures ValidRequest(Request(Replace, operation, instance, source, targets, Some(spec), expected, None))
            <==> 0 < expected < MAX_REVISION
    ensures ValidRequest(Request(Unbind, operation, instance, source, targets, None, expected, None))
            <==> 0 < expected < MAX_REVISION
    ensures ValidRequest(Request(Inspect, "", instance, source, targets, None, expected, None)) <==> expected == 0
    ensures !ValidRequest(Request(Bind, operation, instance, source, targets, None, expected, None))
    ensures !ValidRequest(Request(Replace, operation, instance, source, targets, None, expected, None))
    ensures !ValidRequest(Request(Unbind, operation, instance, source, targets, Some(spec), expected, None))
    ensures !ValidRequest(Request(Inspect, operation, instance, source, targets, None, expected, None))
  {
    hide ValidSpec, ValidSelection;
    assert operation != "" by { EmptyIsNoIdentity(); }
  }

  lemma EmptyIsNoIdentity()
    ensures !PolicyIdentity("")
  {
  }

  // ---------- the loops ----------

  method ValidateStatuses(r: Response) returns (ok: bool)
    requires r.targets.Some?
    ensures ok <==>
              && (forall i :: 0 <= i < |r.targets.value| ==> StatusAccepted(r.targets.value[i], r))
              && (forall i, j :: 0 <= i < j < |r.targets.value| ==> r.targets.value[i].agent != r.targets.value[j].agent)
  {
    hide ValidStatus, EqualSpecs;
    var ts := r.targets.value;
    var seen: set<string> := {};
    for k := 0 to |ts|
      invariant forall x :: x in seen <==> exists i :: 0 <= i < k && ts[i].agent == x
      invariant forall i :: 0 <= i < k ==> StatusAccepted(ts[i], r)
      invariant forall i, j :: 0 <= i < j < k ==> ts[i].agent != ts[j].agent
    {
      if ts[k].agent in seen {
        return false;
      }
      seen := seen + {ts[k].agent};
      var valid := ValidateStatus(ts[k]);
      if !valid {
        return false;
      }
      if ts[k].desired.Some? {
        if r.desired.None? {
          return false;
        }
        var equal := EqualDatasetBindingSpecs(ts[k].desired.value, r.desired.value.spec);
        if !equal {
          return false;
        }
      }
    }
    ok := true;
  }

  method ValidateSpec(s: Spec) returns (ok: bool)
    ensures ok <==> ValidSpec(s)
  {
    hide Key, ValidClassification, ValidDigest;
    var cs := s.classifications;
    if !ValidDigest(s.version) || |cs| == 0 || |cs| > MAX_CLASSIFICATIONS {
      return false;
    }
    var seen: set<Classification> := {};
    for k := 0 to |cs|
      invariant forall x :: x in seen <==> exists i :: 0 <= i < k && Key(cs[i]) == x
      invariant forall i :: 0 <= i < k ==> ValidClassification(cs[i])
      invariant forall i, j :: 0 <= i < j < k ==> Key(cs[i]) != Key(cs[j])
    {
      if !ValidClassification(cs[k]) || Key(cs[k]) in seen {
        return false;
      }
      seen := seen + {Key(cs[k])};
    }
    ok := true;
  }

  method ValidateOptional(s: Option<Spec>) returns (ok: bool)
    ensures ok <==> ValidOptional(s)
  {
    if s.None? {
      return true;
    }
    ok := ValidateSpec(s.value);
  }

  method ValidateStatus(s: Status) returns (ok: bool)
    ensures ok <==> ValidStatus(s)
  {
    hide ValidSpec, EqualSpecs, PolicyIdentity, ValidOptional, Actions.ValidError;
    if !PolicyIdentity(s.agent) {
      return false;
    }
    var desired := ValidateOptional(s.desired);
    var applied := ValidateOptional(s.applied);
    var lastGood := ValidateOptional(s.lastGood);
    if !desired || !applied || !lastGood {
      return false;
    }
    if s.generation != "" && !PolicyIdentity(s.generation) {
      return false;
    }
    if s.applied.Some? && (s.generation == "" || s.revision == 0) {
      return false;
    }
    if s.error.Some? && !Actions.ValidError(s.error.value) {
      return false;
    }
    match s.state {
      case Applied =>
        if s.desired.None? || s.applied.None? || s.error.Some? {
          return false;
        }
        ok := EqualDatasetBindingSpecs(s.desired.value, s.applied.value);
      case Unbound => ok := s.desired.None? && s.applied.None? && s.error.None?;
      case Pending => ok := s.error.None?;
      case Failed => ok := s.error.Some?;
      case Offline => ok := true;
    }
  }

  method ValidateRequest(q: Request) returns (ok: bool)
    ensures ok <==> ValidRequest(q)
  {
    hide ValidSpec, PolicyIdentity, ValidSelection;
    if q.expected >= MAX_REVISION || !PolicyIdentity(q.instance) || !PolicyIdentity(q.source) || !ValidSelection(q.targets) {
      return false;
    }
    if q.action.Inspect? {
      return q.operation == "" && q.expected == 0 && q.spec.None? && q.update.None?;
    }
    if q.update.Some? {
      var u := q.update.value;
      if u.expected == 0 || u.expected >= MAX_REVISION || !(u.config || u.policyExpected.Some?) {
        return false;
      }
    }
    if !PolicyIdentity(q.operation) || (q.action.Bind? && q.expected != 0) || (!q.action.Bind? && q.expected == 0) {
      return false;
    }
    if q.action.Unbind? {
      return q.spec.None?;
    }
    if q.spec.None? {
      return false;
    }
    ok := ValidateSpec(q.spec.value);
  }

  method ValidateRecord(r: Record) returns (ok: bool)
    ensures ok <==> ValidRecord(r)
  {
    hide ValidSpec, PolicyIdentity, ValidSelection;
    if !PolicyIdentity(r.instance) || !PolicyIdentity(r.source) || r.revision == 0 || !ValidSelection(r.targets) {
      return false;
    }
    ok := ValidateSpec(r.spec);
  }

  /** The persisted record shows what the action asked for. */
  method ValidateDesired(r: Response, q: Request) returns (ok: bool)
    requires ValidRequest(q)
    ensures ok <==> DesiredAcknowledged(r, q)
  {
    hide ValidRecord, ValidSpec, EqualSpecs;
    if r.desired.Some? {
      var d := r.desired.value;
      ok := ValidateRecord(d);
      if !ok || d.instance != q.instance || d.source != q.source || d.revision != r.revision {
        return false;
      }
    }
    match q.action {
      case Inspect => return true;
      case Unbind => return r.desired.None?;
      case _ =>
    }
    if r.desired.None? {
      return false;
    }
    ok := EqualDatasetBindingSpecs(r.desired.value.spec, q.spec.value);
    ok := ok && r.desired.value.targets == q.targets;
  }

  /** The whole check on an acknowledgement. */
  method ValidateResponse(r: Response, q: Request) returns (ok: bool)
    ensures ok <==> ValidFor(r, q)
  {
    hide ValidRequest, DesiredAcknowledged, StatusAccepted;
    ok := ValidateRequest(q);
    if !ok || !UpdateAcknowledged(r, q) {
      return false;
    }
    if r.operation != q.operation || r.instance != q.instance || r.source != q.source
       || r.targets.None? || |r.targets.value| > MAX_STATUSES {
      return false;
    }
    if !q.action.Inspect? && (r.revision == 0 || r.revision <= q.expected) {
      return false;
    }
    ok := ValidateDesired(r, q);
    if !ok {
      return;
    }
    ok := ValidateStatuses(r);
  }

  predicate Permitted(agent: string, expected: set<string>, granted: set<string>, replay: bool) {
    agent in granted && (replay || agent in expected)
  }

  predicate Answered(statuses: seq<Status>, agent: string) {
    exists i :: 0 <= i < |statuses| && statuses[i].agent == agent
  }

  /** The host's answer names only nodes the caller may touch, and each selected node. */
  method CheckTargets(statuses: seq<Status>, selected: seq<string>, expected: set<string>, granted: set<string>, replay: bool)
    returns (ok: bool)
    ensures ok <==>
              && (forall i :: 0 <= i < |statuses| ==> Permitted(statuses[i].agent, expected, granted, replay))
              && (forall k :: 0 <= k < |selected| ==> Answered(statuses, selected[k]))
  {
    hide Permitted, Answered;
    for i := 0 to |statuses|
      invariant forall j :: 0 <= j < i ==> Permitted(statuses[j].agent, expected, granted, replay)
    {
      if !Permitted(statuses[i].agent, expected, granted, replay) {
        return false;
      }
    }
    for k := 0 to |selected|
      invariant forall j :: 0 <= j < k ==> Answered(statuses, selected[j])
    {
      var found := FindStatus(statuses, selected[k]);
      if !found {
        return false;
      }
    }
    ok := true;
  }

  method FindStatus(statuses: seq<Status>, agent: string) returns (found: bool)
    ensures found <==> Answered(statuses, agent)
  {
    for i := 0 to |statuses|
      invariant forall j :: 0 <= j < i ==> statuses[j].agent != agent
    {
      if statuses[i].agent == agent {
        return true;
      }
    }
    found := false;
  }
}

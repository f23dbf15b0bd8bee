/** Certificates of the relay listeners projected onto this agent. */
module PkiListeners {
  import opened Sequences
  import opened Strings
  import opened PkiTimes
  import opened PkiStore
  import PkiAgent
  import LogReports

  datatype Endpoints = Endpoints(dns: seq<string>, ips: seq<string>)

  /** A projected listener; `endpoints` are its canonical certificate names, if it has any that are valid. */
  datatype Listener = Listener(
    id: int, agent: string, identity: string, state: string, endpoints: Option<Endpoints>)

  datatype Target = Target(listener: Listener, spec: Spec)

  /** Owned by this agent, identified, and not revoked. */
  predicate Eligible(l: Listener, agent: string) {
    && (Trim(l.agent) == "" || Trim(l.agent) == agent)
    && l.id > 0 && Trim(l.identity) != "" && !EqualFold(Trim(l.state), "revoked")
  }

  function SpecOf(l: Listener, domain: string, agent: string): Spec
    requires l.endpoints.Some?
  {
    Spec(ListenerStorage(l.id), Trim(domain), Trim(agent), ListenerKind, l.id, "server",
         l.endpoints.value.dns, l.endpoints.value.ips)
  }

  /** What should exist: the last eligible listener of each id, or nothing if one of them has no name. */
  function TargetsOf(ls: seq<Listener>, domain: string, agent: string): (r: Option<map<StorageId, Target>>)
    ensures r.Some? ==> forall id :: id in r.value ==>
              id.ListenerStorage? && r.value[id].spec.storage == id && r.value[id].spec.kind.ListenerKind?
              && r.value[id].listener in ls && Eligible(r.value[id].listener, agent)
  {
    if ls == [] then Some(map[])
    else
      var l := ls[|ls| - 1];
      match TargetsOf(ls[..|ls| - 1], domain, agent)
      case None => None
      case Some(targets) =>
        if !Eligible(l, agent) then Some(targets)
        else if l.endpoints.None? then None
        else Some(targets[ListenerStorage(l.id) := Target(l, SpecOf(l, domain, agent))])
  }

  /** Exactly the listeners of this agent that are identified and not revoked are targets; there are none at all exactly
      when one of those has no name a certificate could be for. */
  lemma {:induction false} TargetsAre(ls: seq<Listener>, domain: string, agent: string)
    ensures TargetsOf(ls, domain, agent).None? <==> exists l :: l in ls && Eligible(l, agent) && l.endpoints.None?
    ensures TargetsOf(ls, domain, agent).Some? ==>
              forall id :: id in TargetsOf(ls, domain, agent).value <==> Projects(ls, agent, id)
  {
    hide Eligible, SpecOf, Projects;
    if ls != [] {
      var front, l := ls[..|ls| - 1], ls[|ls| - 1];
      assert ls == front + [l];
      TargetsAre(front, domain, agent);
      forall id { OneMoreProjects(front, l, agent, id); }
    } else {
      forall id ensures !Projects([], agent, id) { NoneProjects(agent, id); }
    }
  }

  /** A listener of this agent has this storage identity. */
  ghost predicate Projects(ls: seq<Listener>, agent: string, id: StorageId) {
    exists l :: l in ls && Eligible(l, agent) && ListenerStorage(l.id) == id
  }

  lemma NoneProjects(agent: string, id: StorageId)
    ensures !Projects([], agent, id)
  {
  }

  lemma OneMoreProjects(front: seq<Listener>, l: Listener, agent: string, id: StorageId)
    ensures Projects(front + [l], agent, id) <==> Projects(front, agent, id) || (Eligible(l, agent) && ListenerStorage(l.id) == id)
  {
    hide Eligible;
    assert (front + [l])[|front|] == l;
    if Projects(front, agent, id) {
      var other :| other in front && Eligible(other, agent) && ListenerStorage(other.id) == id;
      assert other in front + [l];
    }
  }

  /** Each is projected as its last listener says. */
  lemma {:induction false} TargetIsTheLast(ls: seq<Listener>, k: nat, domain: string, agent: string)
    requires TargetsOf(ls, domain, agent).Some? && k < |ls| && Eligible(ls[k], agent) && LastOfItsId(ls, k, agent)
    ensures ListenerStorage(ls[k].id) in TargetsOf(ls, domain, agent).value && ls[k].endpoints.Some?
    ensures TargetsOf(ls, domain, agent).value[ListenerStorage(ls[k].id)] == Target(ls[k], SpecOf(ls[k], domain, agent))
  {
    hide Eligible, SpecOf;
    var front := ls[..|ls| - 1];
    if k < |front| {
      assert front[k] == ls[k] && LastOfItsId(front, k, agent);
      TargetIsTheLast(front, k, domain, agent);
      assert !(Eligible(ls[|ls| - 1], agent) && ls[|ls| - 1].id == ls[k].id);
    }
  }

  ghost predicate LastOfItsId(ls: seq<Listener>, k: nat, agent: string)
    requires k < |ls|
  {
    forall j :: k < j < |ls| && Eligible(ls[j], agent) ==> ls[j].id != ls[k].id
  }

  predicate Matches(e: Enrollment, s: Spec) {
    && e.spec.storage == s.storage && Trim(e.spec.domain) == Trim(s.domain) && Trim(e.spec.agent) == Trim(s.agent)
    && e.spec.kind == s.kind && e.spec.listener == s.listener && e.spec.purpose == s.purpose
    && e.spec.dns == s.dns && e.spec.ips == s.ips
  }

  predicate OwnsCredential(c: Credential, s: Security, spec: Spec, identity: string) {
    && Trim(c.manifestDomain) == Trim(s.domain) && c.expected.domain == spec.domain && c.expected.agent == spec.agent
    && c.expected.kind == spec.kind && c.expected.listener == spec.listener && c.expected.purpose == spec.purpose
    && c.expected.dns == spec.dns && c.expected.ips == spec.ips
    && Trim(c.identity) == Trim(identity)
  }

  function Projected(identity: string, schedule: string, domain: string, now: int): Renewal {
    Fallback(schedule, domain, now).(identity := Trim(identity), fingerprint := OfProjection(Trim(identity), Trim(domain)))
  }

  /** A listener enrollment that no longer asks for what its target needs. */
  predicate Stale(e: Enrollment, targets: map<StorageId, Target>) {
    e.spec.kind.ListenerKind? && e.spec.storage in targets && !Matches(e, targets[e.spec.storage].spec)
  }

  /** One of these is stale and has the storage identity and the request id of `e`. */
  ghost predicate StaleIn(list: seq<Enrollment>, targets: map<StorageId, Target>, e: Enrollment) {
    exists x :: x in list && Stale(x, targets) && x.spec.storage == e.spec.storage && x.request == e.request
  }

  /** What is left of a list once the stale ones are dropped. */
  ghost predicate Retired(kept: seq<Enrollment>, list: seq<Enrollment>, targets: map<StorageId, Target>) {
    forall e :: e in kept <==> e in list && !StaleIn(list, targets, e)
  }

  lemma RetiredIs(kept: seq<Enrollment>, list: seq<Enrollment>, targets: map<StorageId, Target>)
    requires Retired(kept, list, targets)
    ensures forall e :: e in kept ==> e in list
    ensures forall e: Enrollment :: e.spec.storage !in targets ==> (e in list <==> e in kept)
    ensures forall id :: Listed(kept, id) <==> exists e :: e in list && e.spec.storage == id && !StaleIn(list, targets, e)
  {
    forall id | Listed(kept, id)
      ensures exists e :: e in list && e.spec.storage == id && !StaleIn(list, targets, e)
    {
      var e :| e in kept && e.spec.storage == id;
      assert !StaleIn(list, targets, e);
    }
  }

  lemma RetiredStep(kept: seq<Enrollment>, list: seq<Enrollment>, targets: map<StorageId, Target>, i: nat)
    requires i < |list| && forall e :: e in kept <==> e in list && !StaleIn(list[..i], targets, e)
    ensures
      var after := if Stale(list[i], targets) then PkiAgent.WithoutRequest(kept, list[i].spec.storage, list[i].request) else kept;
      forall e :: e in after <==> e in list && !StaleIn(list[..i + 1], targets, e)
  {
    hide Stale;
    assert list[..i + 1] == list[..i] + [list[i]];
    forall e ensures StaleIn(list[..i + 1], targets, e) <==>
      || StaleIn(list[..i], targets, e)
      || (Stale(list[i], targets) && list[i].spec.storage == e.spec.storage && list[i].request == e.request)
    {
      if StaleIn(list[..i], targets, e) {
        var x :| x in list[..i] && Stale(x, targets) && x.spec.storage == e.spec.storage && x.request == e.request;
        assert x in list[..i + 1];
      }
      assert list[..i + 1][i] == list[i];
    }
  }

  lemma NothingStale(list: seq<Enrollment>, targets: map<StorageId, Target>, pending: map<StorageId, Enrollment>)
    ensures forall e :: !StaleIn(list[..0], targets, e)
    ensures ElsewhereSame(pending, pending, targets)
  {
  }

  lemma StaleIsTarget(e: Enrollment, targets: map<StorageId, Target>)
    requires Stale(e, targets)
    ensures e.spec.storage in targets
  {
  }

  /** What is pending for anything that is not a target. */
  ghost predicate ElsewhereSame(a: map<StorageId, Enrollment>, b: map<StorageId, Enrollment>, targets: map<StorageId, Target>) {
    forall id :: id !in targets ==> (id in a <==> id in b) && (id in a ==> a[id] == b[id])
  }

  lemma ElsewhereStays(a: map<StorageId, Enrollment>, b: map<StorageId, Enrollment>, c: map<StorageId, Enrollment>,
                       targets: map<StorageId, Target>, id: StorageId)
    requires SameExcept(a, b, id) && id in targets && ElsewhereSame(b, c, targets)
    ensures ElsewhereSame(a, c, targets)
  {
    forall k | k !in targets ensures (k in a <==> k in c) && (k in a ==> a[k] == c[k]) {
      SameElsewhere(a, b, id, k);
    }
  }

  lemma NoneIsStale(kept: seq<Enrollment>, list: seq<Enrollment>, targets: map<StorageId, Target>)
    requires forall e :: e in kept <==> e in list && !StaleIn(list, targets, e)
    ensures NoneStale(kept, targets) && Retired(kept, list, targets)
  {
    hide Matches;
    forall e | e in kept && e.spec.kind.ListenerKind? && e.spec.storage in targets
      ensures Matches(e, targets[e.spec.storage].spec)
    {
      assert Stale(e, targets) ==> StaleIn(list, targets, e);
    }
  }

  function ActiveIn(actives: map<StorageId, ActiveRead>, id: StorageId): ActiveRead {
    if id in actives then actives[id] else NoActive
  }

  function ScheduleIn(renewals: map<StorageId, Renewal>, id: StorageId): Option<Renewal> {
    if id in renewals then Some(renewals[id]) else None
  }

  predicate Listed(list: seq<Enrollment>, id: StorageId) {
    exists e :: e in list && e.spec.storage == id
  }

  /** What a pass needs of the store: credentials that can be read, and identities and schedules fit to be written. */
  ghost predicate Workable(targets: map<StorageId, Target>, renewals: map<StorageId, Renewal>, actives: map<StorageId, ActiveRead>) {
    forall id :: id in targets ==> Writable(ActiveIn(actives, id), ScheduleIn(renewals, id), targets[id])
  }

  predicate Writable(active: ActiveRead, kept: Option<Renewal>, target: Target) {
    !active.ActiveUnreadable? && Trim(target.listener.identity) != "" && (kept.Some? ==> CanSave(kept.value))
  }

  /** What a target asks for is not stale, and a credential issued for it, under its identity, is its own. */
  lemma AskedForIsOwn(id: StorageId, targets: map<StorageId, Target>, request: string, c: Credential, s: Security)
    requires id in targets && targets[id].spec.storage == id
    ensures !Stale(Enrollment(request, targets[id].spec), targets)
    ensures c.expected == targets[id].spec && Trim(c.manifestDomain) == Trim(s.domain)
            && Trim(c.identity) == Trim(targets[id].listener.identity) ==>
              OwnsCredential(c, s, targets[id].spec, targets[id].listener.identity)
  {
  }

  lemma {:induction false} NulIsNotBlank(s: string)
    requires '\0' in s
    ensures Trim(s) != ""
  {
    NulStaysLeft(s);
    NulStaysRight(TrimLeft(s));
  }

  lemma {:induction false} NulStaysLeft(s: string)
    requires '\0' in s
    ensures '\0' in TrimLeft(s)
  {
    if Space(s[0]) {
      assert s == [s[0]] + s[1..];
      NulStaysLeft(s[1..]);
    }
  }

  lemma {:induction false} NulStaysRight(s: string)
    requires '\0' in s
    ensures TrimRight(s) != ""
  {
    if Space(s[|s| - 1]) {
      assert s == s[..|s| - 1] + [s[|s| - 1]];
      NulStaysRight(s[..|s| - 1]);
    }
  }

  lemma RetiredLists(list: seq<Enrollment>, pending: map<StorageId, Enrollment>, e: Enrollment)
    requires ListsBut(list, pending, AgentStorage) && e in list && forall k :: k in pending ==> pending[k].spec.storage == k
    ensures ListsBut(PkiAgent.WithoutRequest(list, e.spec.storage, e.request), pending - {e.spec.storage}, AgentStorage)
  {
    var id := e.spec.storage;
    PkiAgent.WithoutKeepsDistinct(list, id, e.request);
    var r, after := PkiAgent.WithoutRequest(list, id, e.request), pending - {id};
    assert pending[id] == e;
    forall i | 0 <= i < |r| ensures r[i].spec.storage in after && after[r[i].spec.storage] == r[i] {
      assert r[i] in list;
    }
    forall k | k in after && k != AgentStorage ensures after[k] in r {
      assert pending[k] in list && pending[k].spec.storage == k;
    }
  }

  lemma PreparedLists(list: seq<Enrollment>, pending: map<StorageId, Enrollment>, e: Enrollment)
    requires ListsBut(list, pending, AgentStorage) && !Listed(list, e.spec.storage)
    ensures ListsBut(list + [e], pending[e.spec.storage := e], AgentStorage)
  {
    var more, after := list + [e], pending[e.spec.storage := e];
    forall i | 0 <= i < |list| ensures list[i].spec.storage != e.spec.storage {
      assert list[i] in list;
    }
    forall k | k in after && k != AgentStorage ensures after[k] in more {
      assert more[|list|] == e;
      assert k != e.spec.storage ==> pending[k] in list;
    }
  }

  lemma UnlistedIsNotPending(list: seq<Enrollment>, pending: map<StorageId, Enrollment>, id: StorageId)
    requires ListsBut(list, pending, AgentStorage) && (forall k :: k in pending ==> pending[k].spec.storage == k)
    requires id != AgentStorage && !Listed(list, id)
    ensures id !in pending
  {
  }

  lemma ListedOnce(list: seq<Enrollment>, pending: map<StorageId, Enrollment>, id: StorageId)
    requires ListsBut(list, pending, AgentStorage)
    ensures AtMostOne(list, id)
  {
  }

  ghost predicate AtMostOne(list: seq<Enrollment>, id: StorageId) {
    forall i, j :: 0 <= i < j < |list| ==> !(list[i].spec.storage == id && list[j].spec.storage == id)
  }

  /** No listener enrollment for a target asks for anything but what the target needs. */
  ghost predicate NoneStale(list: seq<Enrollment>, targets: map<StorageId, Target>) {
    forall e :: e in list && e.spec.kind.ListenerKind? && e.spec.storage in targets ==>
      Matches(e, targets[e.spec.storage].spec)
  }

  /** What the pass guarantees of one target. */
  ghost predicate Settled(list: seq<Enrollment>, id: StorageId, t: Target) {
    && AtMostOne(list, id)
    && forall e :: e in list && e.spec.kind.ListenerKind? && e.spec.storage == id ==> Matches(e, t.spec)
  }

  lemma AppendOwn(list: seq<Enrollment>, e: Enrollment, targets: map<StorageId, Target>, id: StorageId)
    requires NoneStale(list, targets) && id in targets && e.spec == targets[id].spec && e.spec.storage == id
    requires forall x :: x in list ==> x.spec.storage != id
    ensures Settled(list + [e], id, targets[id]) && NoneStale(list + [e], targets)
  {
  }

  /** Everything added is for a storage identity in `done` that is not backing off. */
  ghost predicate AddedReady(list: seq<Enrollment>, base: seq<Enrollment>, renewals: map<StorageId, Renewal>,
                             done: set<StorageId>, now: int) {
    forall e :: e in list && e !in base ==>
      e.spec.storage in done && (e.spec.storage in renewals ==> !BackingOff(renewals[e.spec.storage], now))
  }

  lemma StaysReady(list: seq<Enrollment>, base: seq<Enrollment>, a: map<StorageId, Renewal>, b: map<StorageId, Renewal>,
                   id: StorageId, done: set<StorageId>, now: int)
    requires AddedReady(list, base, a, done, now) && SameExcept(b, a, id) && id !in done
    ensures AddedReady(list, base, b, done, now)
  {
    forall e | e in list && e !in base
      ensures e.spec.storage in b ==> !BackingOff(b[e.spec.storage], now)
    {
      SameElsewhere(b, a, id, e.spec.storage);
    }
  }

  lemma AppendSettled(list: seq<Enrollment>, e: Enrollment, id: StorageId, t: Target)
    requires Settled(list, id, t) && e.spec.storage != id
    ensures Settled(list + [e], id, t)
  {
  }

  /** Two maps that agree at these keys. */
  ghost predicate SameAt<V>(a: map<StorageId, V>, b: map<StorageId, V>, ids: set<StorageId>) {
    forall k :: k in ids ==> (k in a <==> k in b) && (k in a ==> a[k] == b[k])
  }

  lemma StaysSameAt<V>(a: map<StorageId, V>, b: map<StorageId, V>, c: map<StorageId, V>, ids: set<StorageId>, id: StorageId)
    requires SameAt(b, a, ids) && SameExcept(c, b, id)
    ensures SameAt(c, a, ids - {id})
  {
    forall k | k in ids - {id} ensures (k in c <==> k in a) && (k in c ==> c[k] == a[k]) {
      SameElsewhere(c, b, id, k);
    }
  }

  lemma AllTheSame<V>(a: map<StorageId, V>, ids: set<StorageId>)
    ensures SameAt(a, a, ids)
  {
  }

  lemma FewerTheSame<V>(a: map<StorageId, V>, b: map<StorageId, V>, ids: set<StorageId>, fewer: set<StorageId>)
    requires SameAt(a, b, ids) && fewer <= ids
    ensures SameAt(a, b, fewer)
  {
  }

  lemma SameThere<V>(a: map<StorageId, V>, b: map<StorageId, V>, ids: set<StorageId>, id: StorageId)
    requires SameAt(a, b, ids) && id in ids
    ensures (id in a <==> id in b) && (id in a ==> a[id] == b[id])
  {
  }

  lemma MoreReady(list: seq<Enrollment>, base: seq<Enrollment>, renewals: map<StorageId, Renewal>, done: set<StorageId>,
                  more: set<StorageId>, now: int)
    requires AddedReady(list, base, renewals, done, now) && done <= more
    ensures AddedReady(list, base, renewals, more, now)
  {
  }

  lemma AddedAreReady(list: seq<Enrollment>, base: seq<Enrollment>, before: seq<Enrollment>, renewals: map<StorageId, Renewal>,
                      done: set<StorageId>, now: int)
    requires AddedReady(list, base, renewals, done, now) && forall e :: e in base ==> e in before
    ensures forall e :: e in list && e !in before ==>
              e.spec.storage in renewals ==> !BackingOff(renewals[e.spec.storage], now)
  {
  }

  lemma ListedAfter(list: seq<Enrollment>, e: Enrollment)
    ensures forall id :: Listed(list + [e], id) <==> Listed(list, id) || id == e.spec.storage
  {
    assert (list + [e])[|list|] == e;
  }

  lemma AppendReady(list: seq<Enrollment>, base: seq<Enrollment>, e: Enrollment, renewals: map<StorageId, Renewal>,
                    done: set<StorageId>, now: int)
    requires AddedReady(list, base, renewals, done, now) && e.spec.storage in done
    requires e.spec.storage in renewals ==> !BackingOff(renewals[e.spec.storage], now)
    ensures AddedReady(list + [e], base, renewals, done, now)
  {
  }

  /** How far a pass has got: the identities in `done` are dealt with, those in `filled` by a new enrollment. */
  ghost predicate Filling(result: seq<Enrollment>, list: seq<Enrollment>, targets: map<StorageId, Target>,
                          done: set<StorageId>, filled: set<StorageId>) {
    && NoneStale(result, targets) && filled <= done
    && (forall id :: id in done && id in targets ==> Settled(result, id, targets[id]))
    && (forall id :: Listed(result, id) <==> Listed(list, id) || id in filled)
    && (forall e: Enrollment :: e.spec.storage !in targets ==> (e in list <==> e in result))
  }

  lemma NoneFilled(list: seq<Enrollment>, targets: map<StorageId, Target>, renewals: map<StorageId, Renewal>, now: int)
    requires NoneStale(list, targets)
    ensures Filling(list, list, targets, {}, {}) && AddedReady(list, list, renewals, {}, now)
  {
  }

  lemma LeftAsIs(result: seq<Enrollment>, list: seq<Enrollment>, targets: map<StorageId, Target>, done: set<StorageId>,
                 filled: set<StorageId>, id: StorageId)
    requires Filling(result, list, targets, done, filled) && AtMostOne(result, id)
    ensures Filling(result, list, targets, done + {id}, filled)
  {
  }

  lemma OneFilled(result: seq<Enrollment>, list: seq<Enrollment>, targets: map<StorageId, Target>, done: set<StorageId>,
                  filled: set<StorageId>, id: StorageId, e: Enrollment)
    requires Filling(result, list, targets, done, filled) && id !in done && !Listed(result, id)
    requires id in targets && e.spec == targets[id].spec && e.spec.storage == id
    ensures Filling(result + [e], list, targets, done + {id}, filled + {id})
  {
    hide Settled, NoneStale, Listed;
    assert forall x :: x in result ==> x.spec.storage != id by { NotThere(result, id); }
    AppendOwn(result, e, targets, id);
    ListedAfter(result, e);
    forall other | other in done && other in targets ensures Settled(result + [e], other, targets[other]) {
      AppendSettled(result, e, other, targets[other]);
    }
  }

  lemma NotThere(list: seq<Enrollment>, id: StorageId)
    requires !Listed(list, id)
    ensures forall x :: x in list ==> x.spec.storage != id
  {
  }

  lemma FilledInFull(result: seq<Enrollment>, list: seq<Enrollment>, targets: map<StorageId, Target>, done: set<StorageId>,
                     filled: set<StorageId>)
    requires Filling(result, list, targets, done, filled) && done == targets.Keys
    ensures forall id :: id in targets ==> Settled(result, id, targets[id])
    ensures forall id :: Listed(result, id) <==> Listed(list, id) || id in filled
    ensures forall e: Enrollment :: e.spec.storage !in targets ==> (e in list <==> e in result)
  {
  }

  lemma OffersWhatListed(result: seq<Enrollment>, list: seq<Enrollment>, targets: map<StorageId, Target>, done: set<StorageId>,
                         filled: set<StorageId>, id: StorageId)
    requires Filling(result, list, targets, done, filled)
    ensures Listed(result, id) <==> Listed(list, id) || id in filled
  {
  }

  lemma WorkableThere(targets: map<StorageId, Target>, renewals: map<StorageId, Renewal>, actives: map<StorageId, ActiveRead>,
                      id: StorageId)
    requires id in targets
    ensures Workable(targets, renewals, actives) ==> Writable(ActiveIn(actives, id), ScheduleIn(renewals, id), targets[id])
  {
  }

  method BuildTargets(ls: seq<Listener>, domain: string, agent: string) returns (r: Option<map<StorageId, Target>>)
    ensures r == TargetsOf(ls, domain, agent)
  {
    var targets: map<StorageId, Target> := map[];
    for i := 0 to |ls|
      invariant TargetsOf(ls[..i], domain, agent) == Some(targets)
    {
      assert ls[..i + 1][..i] == ls[..i];
      if Eligible(ls[i], agent) {
        if ls[i].endpoints.None? {
          TargetsStayNone(ls, i + 1, domain, agent);
          return None;
        }
        targets := targets[ListenerStorage(ls[i].id) := Target(ls[i], SpecOf(ls[i], domain, agent))];
      }
    }
    assert ls[..|ls|] == ls;
    r := Some(targets);
  }

  lemma {:induction false} TargetsStayNone(ls: seq<Listener>, n: nat, domain: string, agent: string)
    requires n <= |ls| && TargetsOf(ls[..n], domain, agent).None?
    ensures TargetsOf(ls, domain, agent).None?
    decreases |ls|
  {
    if n == |ls| {
      assert ls[..n] == ls;
    } else {
      assert ls[..|ls| - 1][..n] == ls[..n];
      TargetsStayNone(ls[..|ls| - 1], n, domain, agent);
    }
  }

  /** The one enrollment of a storage identity; two are an error. */
  method FindEnrollment(list: seq<Enrollment>, id: StorageId) returns (r: Result<bool>)
    ensures r.Ok? ==> AtMostOne(list, id) && (r.value <==> Listed(list, id))
    ensures r.Err? ==> !AtMostOne(list, id)
  {
    var found: Option<nat> := None;
    for i := 0 to |list|
      invariant found.None? ==> forall j :: 0 <= j < i ==> list[j].spec.storage != id
      invariant found.Some? ==>
                  found.value < i && list[found.value].spec.storage == id
                  && forall j :: 0 <= j < i && list[j].spec.storage == id ==> j == found.value
    {
      if list[i].spec.storage == id {
        if found.Some? {
          return Err;
        }
        found := Some(i);
      }
    }
    if found.Some? {
      assert list[found.value] in list;
    }
    r := Ok(found.Some?);
  }

  class Listeners {
    const store: Store
    const agent: string
    const jitter: (string, Fingerprint) -> nat
    const lifecycleJitter: (string, Fingerprint, Security) -> nat
    var projected: seq<Listener>

    constructor (store: Store, agent: string, jitter: (string, Fingerprint) -> nat,
                 lifecycleJitter: (string, Fingerprint, Security) -> nat)
      ensures this.store == store && this.agent == agent && projected == []
    {
      this.store, this.agent, this.jitter, this.lifecycleJitter := store, agent, jitter, lifecycleJitter;
      projected := [];
    }

    twostate predicate OnlySchedule(id: StorageId)
      reads store
    {
      && SameExcept(store.renewals, old(store.renewals), id)
      && store.pending == old(store.pending)
      && store.quarantined == old(store.quarantined) && store.requests == old(store.requests)
      && store.security == old(store.security) && store.actives == old(store.actives)
      && (old(store.Bounded()) ==> store.Bounded()) && (Savable(old(store.renewals)) ==> Savable(store.renewals))
    }

    function ScheduleName(spec: Spec): string {
      agent + "\0" + (if spec.listener > 0 then LogReports.Decimal(spec.listener) else "")
    }

    /** Renewal is called for: there is no usable credential, or it is not this listener's, or it is past its due time or
        outside its validity. */
    predicate CalledFor(active: ActiveRead, kept: Option<Renewal>, target: Target, s: Security, now: int) {
      match active
      case Active(c) =>
        var name := ScheduleName(target.spec);
        || !OwnsCredential(c, s, target.spec, target.listener.identity)
        || DueTime(InForce(kept, c, name, jitter), c, s, now, lifecycleJitter(name, FingerprintOf(c), s)) <= now
        || c.notAfter <= now || now < c.notBefore
      case NoActive => true
      case Invalid(_) => true
      case ActiveUnreadable => false
    }

    /** The schedule a pass goes by: for the listener's own credential the one in force, at its due time; a new one
        if the identity was replaced; and else whatever was kept. */
    function Scheduled(active: ActiveRead, kept: Option<Renewal>, target: Target, s: Security, now: int): Option<Renewal> {
      var name := ScheduleName(target.spec);
      if !active.Active? then kept
      else if OwnsCredential(active.value, s, target.spec, target.listener.identity) then
        var c := active.value;
        var force := InForce(kept, c, name, jitter);
        Some(force.(due := DueTime(force, c, s, now, lifecycleJitter(name, FingerprintOf(c), s))))
      else
        var identity := Trim(target.listener.identity);
        if Trim(active.value.identity) == identity || (kept.Some? && Trim(kept.value.identity) == identity) then kept
        else Some(Projected(identity, name, s.domain, now))
    }

    /** An enrollment is made: renewal is called for and no retry is being waited for. */
    predicate Fills(active: ActiveRead, kept: Option<Renewal>, target: Target, s: Security, now: int) {
      && CalledFor(active, kept, target, s, now)
      && var after := Scheduled(active, kept, target, s, now);
      (after.Some? && after.value.nextAttempt.Some? ==> after.value.nextAttempt.value <= now)
    }

    /** A listener's own credential, signed by a trusted root, is renewed from its jittered due time on, or from the time
        kept for it if that is not being retried; one that is somebody else's, and one that is missing, is replaced at
        once. */
    lemma FillsOnTime(active: ActiveRead, kept: Option<Renewal>, target: Target, s: Security, now: int)
      ensures
        active.Active? && OwnsCredential(active.value, s, target.spec, target.listener.identity)
        && !SignerRetired(active.value, s.roots) ==>
          var c := active.value;
          var name := ScheduleName(target.spec);
          if ScheduleFor(kept, c, name) then
            Fills(active, kept, target, s, now) <==>
              (kept.value.nextAttempt.Some? ==> kept.value.nextAttempt.value <= now)
              && (now >= kept.value.due || now >= c.notAfter || now < c.notBefore)
          else
            Fills(active, kept, target, s, now) <==>
              || now >= CredentialDue(c.notBefore, c.notAfter, jitter(Trim(name), FingerprintOf(c)))
              || now >= c.notAfter || now < c.notBefore
      ensures active.Active? && !OwnsCredential(active.value, s, target.spec, target.listener.identity)
              && Trim(active.value.identity) != Trim(target.listener.identity)
              && (kept.None? || Trim(kept.value.identity) != Trim(target.listener.identity)) ==>
                Fills(active, kept, target, s, now)
      ensures active.NoActive? || active.Invalid? ==>
                (Fills(active, kept, target, s, now) <==>
                  (kept.Some? && kept.value.nextAttempt.Some? ==> kept.value.nextAttempt.value <= now))
    {
      hide CredentialDue, LifecycleDue, FingerprintOf, IdentityOf, SignerRetired, Trim, OwnsCredential, ScheduleName;
      if active.Active? {
        var name := ScheduleName(target.spec);
        DueTimeIs(kept, active.value, s, name, jitter, now, lifecycleJitter(name, FingerprintOf(active.value), s));
      }
    }

    lemma NameIsNotBlank(spec: Spec)
      ensures Trim(ScheduleName(spec)) != ""
    {
      var name := ScheduleName(spec);
      assert name[|agent|] == '\0';
      NulIsNotBlank(name);
    }

    function KeptFor(id: StorageId): Option<Renewal>
      reads store
    {
      ScheduleIn(store.renewals, id)
    }

    /** Brings one target's schedule up to date; reports whether renewal is called for. */
    method Schedule(id: StorageId, target: Target, s: Security, now: int) returns (r: Result<bool>)
      requires store.Bounded()
      modifies store
      ensures OnlySchedule(id) && (old(store.struck) ==> store.struck)
      ensures r.Ok? ==> (r.value <==> CalledFor(store.ActiveOf(id), old(KeptFor(id)), target, s, now))
      ensures r.Ok? ==> KeptFor(id) == Scheduled(store.ActiveOf(id), old(KeptFor(id)), target, s, now)
      ensures r.Err? ==>
                || store.struck || store.ActiveOf(id).ActiveUnreadable? || Trim(target.listener.identity) == ""
                || (id in old(store.renewals) && !CanSave(old(store.renewals)[id]))
    {
      hide RenewalFor, Trim, OwnRequests, Others, Savable, InForce, DueTime, OwnsCredential, ScheduleName;
      var active := store.ActiveOf(id);
      var read := store.LoadRenewal(id);
      if read.Err? || active.ActiveUnreadable? {
        return Err;
      }
      if !active.Active? {
        return Ok(true);
      }
      var c := active.value;
      var name := ScheduleName(target.spec);
      if !OwnsCredential(c, s, target.spec, target.listener.identity) {
        var identity := Trim(target.listener.identity);
        if Trim(c.identity) != identity && (read.value.None? || Trim(read.value.value.identity) != identity) {
          TrimTwice(target.listener.identity);
          var ok := store.SaveRenewal(id, Projected(identity, name, s.domain, now));
          if !ok {
            return Err;
          }
        }
        return Ok(true);
      }
      NameIsNotBlank(target.spec);
      r := ScheduleOwned(id, c, name, read.value, s, now);
    }

    /** The schedule of a credential that is the listener's own. */
    method ScheduleOwned(id: StorageId, c: Credential, name: string, before: Option<Renewal>, s: Security, now: int)
      returns (r: Result<bool>)
      requires store.Bounded() && before == KeptFor(id)
      modifies store
      ensures OnlySchedule(id) && (old(store.struck) ==> store.struck)
      ensures r.Ok? ==>
                var force := InForce(before, c, name, jitter);
                var due := DueTime(force, c, s, now, lifecycleJitter(name, FingerprintOf(c), s));
                && KeptFor(id) == Some(force.(due := due))
                && (r.value <==> due <= now || c.notAfter <= now || now < c.notBefore)
      ensures r.Err? ==> store.struck || Trim(name) == "" || (before.Some? && !CanSave(before.value))
    {
      hide FingerprintOf, RenewalFor, InForce, CredentialDue, LifecycleDue, OwnRequests, Others, Savable, Trim;
      InForceIs(before, c, name, jitter);
      CanSaveInForce(before, c, name);
      var state := RenewalFor(c, name, jitter);
      if before.Some? && SameCredential(before.value, state) {
        state := before.value;
      } else {
        var ok := store.SaveRenewal(id, state);
        if !ok {
          return Err;
        }
      }
      if SignerRetired(c, s.roots) {
        var due := LifecycleDue(s.issued, s.dated, now, lifecycleJitter(name, FingerprintOf(c), s));
        if state.due > due {
          state := state.(due := due);
          var ok := store.SaveRenewal(id, state);
          if !ok {
            return Err;
          }
        }
      }
      r := Ok(PkiAgent.Due(c, state.due, now));
    }

    lemma CanSaveInForce(kept: Option<Renewal>, c: Credential, name: string)
      ensures Trim(name) != "" ==> CanSave(RenewalFor(c, name, jitter))
      ensures InForce(kept, c, name, jitter).failures
              <= if kept.Some? && kept.value.failures > FAILURE_LIMIT then kept.value.failures else FAILURE_LIMIT
    {
      hide CredentialDue, FingerprintOf, Trim;
    }

    /** Drops exactly the listener enrollments that no longer ask for what their listener needs. */
    method RetireStale(list: seq<Enrollment>, targets: map<StorageId, Target>) returns (r: Result<seq<Enrollment>>)
      requires store.Filed() && AgentStorage !in targets
      modifies store`calls, store`struck, store`pending, store`quarantined
      ensures store.Filed() && (old(store.struck) ==> store.struck)
      ensures r.Ok? ==> NoneStale(r.value, targets) && Retired(r.value, list, targets)
      ensures r.Ok? && ListsBut(list, old(store.pending), AgentStorage) ==> ListsBut(r.value, store.pending, AgentStorage)
      ensures r.Err? ==> store.struck || !ListsBut(list, old(store.pending), AgentStorage)
      ensures OnlyAdds(store.quarantined, old(store.quarantined))
      ensures ElsewhereSame(store.pending, old(store.pending), targets)
    {
      hide OwnRequests, Others, Savable, ListsBut, ElsewhereSame, Stale, StaleIn, NoneStale, Retired;
      var kept := list;
      ghost var sound := ListsBut(list, store.pending, AgentStorage);
      NothingStale(list, targets, store.pending);
      for i := 0 to |list|
        invariant store.Filed() && (old(store.struck) ==> store.struck)
        invariant forall e :: e in kept <==> e in list && !StaleIn(list[..i], targets, e)
        invariant sound ==> ListsBut(kept, store.pending, AgentStorage) && forall j :: i <= j < |list| ==> list[j] in kept
        invariant OnlyAdds(store.quarantined, old(store.quarantined))
        invariant ElsewhereSame(store.pending, old(store.pending), targets)
      {
        var e := list[i];
        RetiredStep(kept, list, targets, i);
        if Stale(e, targets) {
          assert e.spec.storage in targets by { StaleIsTarget(e, targets); }
          ghost var before := store.pending;
          if sound {
            StaleIsRejectable(kept, e);
            OthersHaveOtherStorage(list, old(store.pending), i);
            RetiredLists(kept, store.pending, e);
          }
          var ok, missing := store.Reject(e.spec.storage, e.request, "listener_projection_changed");
          ElsewhereStays(store.pending, before, old(store.pending), targets, e.spec.storage);
          if !ok && !missing {
            return Err;
          }
          kept := PkiAgent.WithoutRequest(kept, e.spec.storage, e.request);
        }
      }
      assert list[..|list|] == list;
      NoneIsStale(kept, list, targets);
      r := Ok(kept);
    }

    lemma StaleIsRejectable(list: seq<Enrollment>, e: Enrollment)
      requires store.Filed() && ListsBut(list, store.pending, AgentStorage) && e in list
      ensures e.spec.storage in store.pending && store.pending[e.spec.storage] == e
      ensures (e.spec.storage, e.request) !in store.quarantined
      ensures store.CanReject(e.spec.storage, e.request, "listener_projection_changed")
    {
    }

    lemma OthersHaveOtherStorage(list: seq<Enrollment>, pending: map<StorageId, Enrollment>, i: nat)
      requires ListsBut(list, pending, AgentStorage) && i < |list|
      ensures forall j :: i < j < |list| ==> list[j].spec.storage != list[i].spec.storage
    {
    }

    /** Prepares one target's enrollment, or counts the failure and backs off. */
    method PrepareOne(id: StorageId, target: Target, s: Security, now: int) returns (r: Result<Enrollment>)
      requires store.Filed() && store.Bounded() && target.spec.storage == id
      modifies store
      ensures store.Filed() && store.Bounded() && (old(store.struck) ==> store.struck)
      ensures SameExcept(store.pending, old(store.pending), id) && SameExcept(store.renewals, old(store.renewals), id)
      ensures store.security == old(store.security) && store.actives == old(store.actives)
      ensures store.quarantined == old(store.quarantined)
      ensures r.Ok? ==> r.value.spec == target.spec && store.renewals == old(store.renewals)
      ensures r.Ok? && id !in old(store.pending) ==> store.pending == old(store.pending)[id := r.value]
      ensures r.Err? ==> store.struck || id in old(store.pending)
      ensures r.Err? ==>
                var before := if id in old(store.renewals) then old(store.renewals)[id]
                              else Fallback(ScheduleName(target.spec), s.domain, now);
                store.renewals == old(store.renewals) || store.renewals == old(store.renewals)[id := BackedOff(before, now)]
    {
      hide OwnRequests, Others, Savable, Backoff;
      var prepared := store.Prepare(target.spec);
      if prepared.Err? {
        var state := if id in store.renewals then store.renewals[id]
                     else Fallback(ScheduleName(target.spec), s.domain, now);
        var _ := store.SaveRenewal(id, BackedOff(state, now));
        return Err;
      }
      r := prepared;
    }

    /** One target without an enrollment gets one exactly when it is called for and no retry is being waited for. */
    method FillOne(id: StorageId, target: Target, s: Security, now: int) returns (r: Result<Option<Enrollment>>)
      requires store.Filed() && store.Bounded() && target.spec.storage == id
      modifies store
      ensures store.Filed() && store.Bounded() && (old(store.struck) ==> store.struck)
      ensures SameExcept(store.pending, old(store.pending), id) && SameExcept(store.renewals, old(store.renewals), id)
      ensures store.security == old(store.security) && store.actives == old(store.actives)
      ensures store.quarantined == old(store.quarantined)
      ensures r.Ok? ==> (r.value.Some? <==> Fills(store.ActiveOf(id), old(KeptFor(id)), target, s, now))
      ensures r.Ok? ==> KeptFor(id) == Scheduled(store.ActiveOf(id), old(KeptFor(id)), target, s, now)
      ensures r.Ok? && r.value.Some? ==> r.value.value.spec == target.spec
      ensures r.Ok? && r.value.Some? && id in store.renewals ==> !BackingOff(store.renewals[id], now)
      ensures r.Ok? && r.value.Some? && id !in old(store.pending) ==> store.pending == old(store.pending)[id := r.value.value]
      ensures r.Ok? && r.value.None? ==> store.pending == old(store.pending)
      ensures r.Err? ==>
                || store.struck || id in old(store.pending)
                || store.ActiveOf(id).ActiveUnreadable? || Trim(target.listener.identity) == ""
                || (id in old(store.renewals) && !CanSave(old(store.renewals)[id]))
    {
      hide OwnRequests, Others, Savable, CalledFor, Scheduled, CanSave, Trim, Backoff;
      var needed := Schedule(id, target, s, now);
      if needed.Err? {
        return Err;
      }
      if !needed.value || (id in store.renewals && BackingOff(store.renewals[id], now)) {
        return Ok(None);
      }
      var prepared := PrepareOne(id, target, s, now);
      r := if prepared.Ok? then Ok(Some(prepared.value)) else Err;
    }

    /** The store is in a state the pass can work on. */
    ghost predicate Sound(list: seq<Enrollment>)
      reads this, store
    {
      && !store.security.SecurityUnreadable? && ListsBut(list, store.pending, AgentStorage)
      && (store.security.Known? ==>
           var targets := TargetsOf(projected, store.security.value.domain, agent);
           targets.Some? && Workable(targets.value, store.renewals, store.actives))
    }

    /** What a pass makes of a list. Each target has at most one enrollment, and its listener enrollment asks for exactly
        what the target needs. A target whose own were all stale or missing has one exactly when its renewal is called for
        and no retry is being waited for. Enrollments of other storage are as they were. */
    ghost predicate Ensured(result: seq<Enrollment>, list: seq<Enrollment>, targets: map<StorageId, Target>,
                            base: map<StorageId, Renewal>, renewals: map<StorageId, Renewal>,
                            actives: map<StorageId, ActiveRead>, s: Security, now: int) {
      && (forall id :: id in targets ==> Settled(result, id, targets[id]))
      && (forall id :: id in targets ==>
           (Listed(result, id) <==>
            || (exists e :: e in list && e.spec.storage == id && !StaleIn(list, targets, e))
            || Fills(ActiveIn(actives, id), ScheduleIn(base, id), targets[id], s, now)))
      && (forall e: Enrollment :: e.spec.storage !in targets ==> (e in list <==> e in result))
      && (forall e :: e in result && e !in list ==>
           e.spec.storage in renewals ==> !BackingOff(renewals[e.spec.storage], now))
    }

    lemma EnsuredAt(result: seq<Enrollment>, list: seq<Enrollment>, targets: map<StorageId, Target>,
                    base: map<StorageId, Renewal>, renewals: map<StorageId, Renewal>, actives: map<StorageId, ActiveRead>,
                    s: Security, now: int, id: StorageId)
      requires Ensured(result, list, targets, base, renewals, actives, s, now)
      ensures id in targets && !Listed(list, id) ==>
                (Listed(result, id) <==> Fills(ActiveIn(actives, id), ScheduleIn(base, id), targets[id], s, now))
      ensures forall e: Enrollment :: e.spec.storage !in targets ==> (e in list <==> e in result)
    {
      hide Fills, Settled, StaleIn;
    }

    lemma EnsuredFrom(result: seq<Enrollment>, kept: seq<Enrollment>, list: seq<Enrollment>, targets: map<StorageId, Target>,
                      filled: set<StorageId>, base: map<StorageId, Renewal>, renewals: map<StorageId, Renewal>,
                      actives: map<StorageId, ActiveRead>, s: Security, now: int)
      requires Progress(result, kept, targets, targets.Keys, filled, renewals, base, actives, s, now)
      requires Retired(kept, list, targets)
      ensures Ensured(result, list, targets, base, renewals, actives, s, now)
      ensures ScheduleIn(renewals, AgentStorage) == ScheduleIn(base, AgentStorage)
    {
      hide Fills, Filling, AddedReady, Listed, BackingOff, Settled, StaleIn, Progress, Retired;
      RetiredIs(kept, list, targets);
      Finished(result, kept, list, targets, filled, renewals, base, actives, s, now);
    }

    /** After the pass each target has at most one enrollment on the list, and its listener enrollment asks
        for exactly what the target needs; enrollments of other storage are as they were; a target whose own were all
        stale or missing gets one exactly when its renewal is called for and no retry is being waited for. Only a
        fault makes a pass over a sound store fail. */
    method EnsureRenewalsPending(list: seq<Enrollment>, now: int) returns (r: Result<seq<Enrollment>>)
      requires store.Filed() && store.Bounded()
      modifies store
      ensures store.Filed() && store.Bounded() && store.security == old(store.security) && store.actives == old(store.actives)
      ensures OnlyAdds(store.quarantined, old(store.quarantined))
      ensures old(store.struck) ==> store.struck
      ensures ScheduleIn(store.renewals, AgentStorage) == ScheduleIn(old(store.renewals), AgentStorage)
      ensures r.Ok? && old(store.security).SecurityInvalid? ==> r.value == list
      ensures old(store.security).SecurityUnreadable? ==> r.Err?
      ensures r.Ok? && old(store.security).Known? ==>
                var targets := TargetsOf(projected, old(store.security).value.domain, agent);
                targets.Some? && Ensured(r.value, list, targets.value, old(store.renewals), store.renewals, store.actives,
                                         old(store.security).value, now)
      ensures r.Ok? && ListsBut(list, old(store.pending), AgentStorage) ==> ListsBut(r.value, store.pending, AgentStorage)
      ensures r.Err? ==> store.struck || !old(Sound(list))
    {
      hide OwnRequests, Others, Savable, ListsBut, Workable, Ensured, NoneStale, Retired, ElsewhereSame, TargetsOf, ScheduleIn;
      match store.security {
        case SecurityInvalid => return Ok(list);
        case SecurityUnreadable => return Err;
        case Known(_) =>
      }
      var s := store.security.value;
      var built := BuildTargets(projected, s.domain, agent);
      if built.None? {
        return Err;
      }
      var retired := RetireStale(list, built.value);
      if retired.Err? {
        return Err;
      }
      r := FillIn(retired.value, list, built.value, s, now);
    }

    method FillIn(kept: seq<Enrollment>, ghost list: seq<Enrollment>, targets: map<StorageId, Target>, s: Security, now: int)
      returns (r: Result<seq<Enrollment>>)
      requires store.Filed() && store.Bounded() && NoneStale(kept, targets) && Retired(kept, list, targets)
      requires forall id :: id in targets ==>
                 id.ListenerStorage? && targets[id].spec.storage == id && targets[id].spec.kind.ListenerKind?
      modifies store
      ensures store.Filed() && store.Bounded() && store.security == old(store.security) && store.actives == old(store.actives)
      ensures store.quarantined == old(store.quarantined)
      ensures old(store.struck) ==> store.struck
      ensures ScheduleIn(store.renewals, AgentStorage) == ScheduleIn(old(store.renewals), AgentStorage)
      ensures r.Ok? ==>
                Ensured(r.value, list, targets, old(store.renewals), store.renewals, store.actives, s, now)
      ensures r.Ok? && ListsBut(kept, old(store.pending), AgentStorage) ==> ListsBut(r.value, store.pending, AgentStorage)
      ensures r.Err? ==> store.struck || !ListsBut(kept, old(store.pending), AgentStorage)
                         || !Workable(targets, old(store.renewals), old(store.actives))
    {
      hide OwnRequests, Others, Savable, SameExcept, ListsBut, Workable, Fills, Scheduled, Listed, Progress, ActiveIn, ScheduleIn,
        BackingOff, Writable, AtMostOne, NoneStale, Ensured, Retired, Store.Filed, Store.Bounded, Plus;
      var result := kept;
      var left := targets.Keys;
      ghost var done: set<StorageId>, filled: set<StorageId> := {}, {};
      NoProgress(kept, targets, store.renewals, store.actives, s, now);
      while left != {}
        invariant done !! left && done + left == targets.Keys
        invariant store.Filed() && store.Bounded()
        invariant store.security == old(store.security) && store.actives == old(store.actives)
        invariant store.quarantined == old(store.quarantined)
        invariant old(store.struck) ==> store.struck
        invariant Progress(result, kept, targets, done, filled, store.renewals, old(store.renewals), store.actives, s, now)
        invariant ListsBut(kept, old(store.pending), AgentStorage) ==> ListsBut(result, store.pending, AgentStorage)
        decreases |left|
      {
        var id :| id in left;
        assert id in targets;
        ghost var schedules := store.renewals;
        UntilNow(result, kept, targets, done, filled, schedules, old(store.renewals), store.actives, s, now, id);
        WorkableThere(targets, old(store.renewals), store.actives, id);
        var turn := FillTurn(id, targets[id], result, s, now);
        StillTheAgents(result, kept, targets, done, filled, schedules, old(store.renewals), store.actives, s, now, id,
                       store.renewals);
        if turn.Err? {
          return Err;
        }
        Turned(result, kept, targets, done, filled, schedules, old(store.renewals), store.actives, s, now, id, turn.value,
               store.renewals);
        result := Plus(result, turn.value);
        filled := if turn.value.Some? then filled + {id} else filled;
        left, done := left - {id}, done + {id};
      }
      EnsuredFrom(result, kept, list, targets, filled, old(store.renewals), store.renewals, store.actives, s, now);
      r := Ok(result);
    }

    /** How far a pass has got, for the list, for the schedules, and for what was to be filled. */
    ghost predicate Progress(result: seq<Enrollment>, list: seq<Enrollment>, targets: map<StorageId, Target>,
                             done: set<StorageId>, filled: set<StorageId>, renewals: map<StorageId, Renewal>,
                             base: map<StorageId, Renewal>, actives: map<StorageId, ActiveRead>, s: Security, now: int) {
      && Filling(result, list, targets, done, filled)
      && SameAt(renewals, base, targets.Keys - done + {AgentStorage})
      && AddedReady(result, list, renewals, done, now)
      && forall id :: id in done && id in targets && !Listed(list, id) ==>
           (id in filled <==> Fills(ActiveIn(actives, id), ScheduleIn(base, id), targets[id], s, now))
    }

    lemma NoProgress(list: seq<Enrollment>, targets: map<StorageId, Target>, renewals: map<StorageId, Renewal>,
                     actives: map<StorageId, ActiveRead>, s: Security, now: int)
      requires NoneStale(list, targets)
      ensures Progress(list, list, targets, {}, {}, renewals, renewals, actives, s, now)
    {
      hide Fills, Filling, AddedReady;
      NoneFilled(list, targets, renewals, now);
    }

    lemma UntilNow(result: seq<Enrollment>, list: seq<Enrollment>, targets: map<StorageId, Target>, done: set<StorageId>,
                   filled: set<StorageId>, renewals: map<StorageId, Renewal>, base: map<StorageId, Renewal>,
                   actives: map<StorageId, ActiveRead>, s: Security, now: int, id: StorageId)
      requires Progress(result, list, targets, done, filled, renewals, base, actives, s, now) && id in targets && id !in done
      ensures ScheduleIn(renewals, id) == ScheduleIn(base, id) && (Listed(result, id) <==> Listed(list, id))
    {
      hide Fills, AddedReady, Listed, Settled, NoneStale;
      OffersWhatListed(result, list, targets, done, filled, id);
    }

    lemma StillTheAgents(result: seq<Enrollment>, list: seq<Enrollment>, targets: map<StorageId, Target>,
                         done: set<StorageId>, filled: set<StorageId>, renewals: map<StorageId, Renewal>,
                         base: map<StorageId, Renewal>, actives: map<StorageId, ActiveRead>, s: Security, now: int,
                         id: StorageId, after: map<StorageId, Renewal>)
      requires Progress(result, list, targets, done, filled, renewals, base, actives, s, now)
      requires id != AgentStorage && SameExcept(after, renewals, id)
      ensures ScheduleIn(after, AgentStorage) == ScheduleIn(base, AgentStorage)
    {
      hide Fills, Filling, AddedReady, Listed;
      SameElsewhere(after, renewals, id, AgentStorage);
    }

    lemma Turned(result: seq<Enrollment>, list: seq<Enrollment>, targets: map<StorageId, Target>, done: set<StorageId>,
                 filled: set<StorageId>, renewals: map<StorageId, Renewal>, base: map<StorageId, Renewal>,
                 actives: map<StorageId, ActiveRead>, s: Security, now: int, id: StorageId, made: Option<Enrollment>,
                 after: map<StorageId, Renewal>)
      requires Progress(result, list, targets, done, filled, renewals, base, actives, s, now)
      requires id in targets && id !in done && id != AgentStorage && AtMostOne(result, id) && SameExcept(after, renewals, id)
      requires made.Some? <==> !Listed(result, id) && Fills(ActiveIn(actives, id), ScheduleIn(renewals, id), targets[id], s, now)
      requires made.Some? ==> made.value.spec == targets[id].spec && made.value.spec.storage == id
      requires made.Some? && id in after ==> !BackingOff(after[id], now)
      ensures Progress(Plus(result, made), list, targets, done + {id}, if made.Some? then filled + {id} else filled,
                       after, base, actives, s, now)
    {
      hide Fills, Filling, AddedReady, Listed, SameExcept, BackingOff, SameAt, AtMostOne;
      UntilNow(result, list, targets, done, filled, renewals, base, actives, s, now, id);
      StaysSameAt(base, renewals, after, targets.Keys - done + {AgentStorage}, id);
      assert targets.Keys - (done + {id}) + {AgentStorage} == targets.Keys - done + {AgentStorage} - {id};
      StaysReady(result, list, renewals, after, id, done, now);
      MoreReady(result, list, after, done, done + {id}, now);
      OnlyDoneFilled(result, list, targets, done, filled);
      if made.Some? {
        AppendReady(result, list, made.value, after, done + {id}, now);
        OneFilled(result, list, targets, done, filled, id, made.value);
      } else {
        LeftAsIs(result, list, targets, done, filled, id);
      }
    }

    lemma OnlyDoneFilled(result: seq<Enrollment>, list: seq<Enrollment>, targets: map<StorageId, Target>, done: set<StorageId>,
                         filled: set<StorageId>)
      requires Filling(result, list, targets, done, filled)
      ensures filled <= done
    {
    }

    lemma Finished(result: seq<Enrollment>, list: seq<Enrollment>, before: seq<Enrollment>, targets: map<StorageId, Target>,
                   filled: set<StorageId>, renewals: map<StorageId, Renewal>, base: map<StorageId, Renewal>,
                   actives: map<StorageId, ActiveRead>, s: Security, now: int)
      requires Progress(result, list, targets, targets.Keys, filled, renewals, base, actives, s, now)
      requires forall e :: e in list ==> e in before
      ensures forall id :: id in targets ==> Settled(result, id, targets[id])
      ensures forall id :: id in targets ==>
                (Listed(result, id) <==>
                 Listed(list, id) || Fills(ActiveIn(actives, id), ScheduleIn(base, id), targets[id], s, now))
      ensures forall e: Enrollment :: e.spec.storage !in targets ==> (e in list <==> e in result)
      ensures ScheduleIn(renewals, AgentStorage) == ScheduleIn(base, AgentStorage)
      ensures forall e :: e in result && e !in before ==>
                e.spec.storage in renewals ==> !BackingOff(renewals[e.spec.storage], now)
    {
      hide Fills, Filling, AddedReady, Listed, BackingOff, Settled;
      FilledInFull(result, list, targets, targets.Keys, filled);
      AddedAreReady(result, list, before, renewals, targets.Keys, now);
    }

    /** One turn of the pass: an enrollment is made if none is listed and one is called for. */
    method FillTurn(id: StorageId, target: Target, list: seq<Enrollment>, s: Security, now: int)
      returns (r: Result<Option<Enrollment>>)
      requires store.Filed() && store.Bounded() && target.spec.storage == id && id != AgentStorage
      modifies store
      ensures store.Filed() && store.Bounded() && (old(store.struck) ==> store.struck)
      ensures store.security == old(store.security) && store.actives == old(store.actives)
      ensures store.quarantined == old(store.quarantined)
      ensures SameExcept(store.renewals, old(store.renewals), id)
      ensures r.Ok? ==> AtMostOne(list, id)
      ensures r.Ok? ==>
                (r.value.Some? <==>
                 !Listed(list, id) && Fills(ActiveIn(store.actives, id), ScheduleIn(old(store.renewals), id), target, s, now))
      ensures r.Ok? && r.value.Some? ==> r.value.value.spec == target.spec
      ensures r.Ok? && r.value.Some? && id in store.renewals ==> !BackingOff(store.renewals[id], now)
      ensures r.Ok? && ListsBut(list, old(store.pending), AgentStorage) ==>
                ListsBut(Plus(list, r.value), store.pending, AgentStorage)
      ensures r.Err? ==>
                || store.struck || !ListsBut(list, old(store.pending), AgentStorage)
                || !Writable(ActiveIn(store.actives, id), ScheduleIn(old(store.renewals), id), target)
    {
      hide OwnRequests, Others, Savable, ListsBut, Fills, Scheduled, Listed, AtMostOne, Trim, CanSave, BackingOff;
      if ListsBut(list, store.pending, AgentStorage) {
        ListedOnce(list, store.pending, id);
      }
      var found := FindEnrollment(list, id);
      if found.Err? {
        return Err;
      }
      if found.value {
        return Ok(None);
      }
      if ListsBut(list, store.pending, AgentStorage) {
        UnlistedIsNotPending(list, store.pending, id);
      }
      ghost var offered := store.pending;
      r := FillOne(id, target, s, now);
      if r.Ok? && r.value.Some? && ListsBut(list, offered, AgentStorage) {
        PreparedLists(list, offered, r.value.value);
      }
    }
  }

  function Plus(list: seq<Enrollment>, made: Option<Enrollment>): seq<Enrollment> {
    if made.Some? then list + [made.value] else list
  }
}

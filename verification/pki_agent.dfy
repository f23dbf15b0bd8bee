/** The agent's own certificate: when an enrollment for it may be offered, and when a new one is due. */
module PkiAgent {
  import opened Sequences
  import opened Strings
  import opened PkiTimes
  import opened PkiStore
  import PkiRejection
  import PkiRejectionThreads

  predicate OfAgent(e: Enrollment) {
    e.spec.storage.AgentStorage? && e.spec.kind.AgentKind?
  }

  predicate AgentListed(list: seq<Enrollment>) {
    exists e :: e in list && OfAgent(e)
  }

  function WithoutAgent(list: seq<Enrollment>): (r: seq<Enrollment>)
    ensures !AgentListed(r)
    ensures forall e :: e in r <==> e in list && !OfAgent(e)
  {
    if list == [] then []
    else (if OfAgent(list[0]) then [] else [list[0]]) + WithoutAgent(list[1..])
  }

  function WithoutRequest(list: seq<Enrollment>, id: StorageId, request: string): (r: seq<Enrollment>)
    ensures forall e :: e in r <==> e in list && !(e.spec.storage == id && e.request == request)
  {
    if list == [] then []
    else
      (if list[0].spec.storage == id && list[0].request == request then [] else [list[0]])
      + WithoutRequest(list[1..], id, request)
  }

  /** The one enrollment in the agent's storage; anything else there, or two of them, is an error. */
  method FindAgentEnrollment(list: seq<Enrollment>) returns (r: Result<Option<Enrollment>>)
    ensures r.Ok? && r.value.None? ==> forall e :: e in list ==> !e.spec.storage.AgentStorage?
    ensures r.Ok? && r.value.Some? ==>
              r.value.value in list && OfAgent(r.value.value)
              && forall e :: e in list && e.spec.storage.AgentStorage? ==> e == r.value.value
    ensures r.Err? ==>
              || (exists e :: e in list && e.spec.storage.AgentStorage? && !OfAgent(e))
              || !OwnStorages(list)
  {
    var found: Option<Enrollment> := None;
    for i := 0 to |list|
      invariant found.None? ==> forall e :: e in list[..i] ==> !e.spec.storage.AgentStorage?
      invariant found.Some? ==>
                  found.value in list[..i] && OfAgent(found.value)
                  && forall e :: e in list[..i] && e.spec.storage.AgentStorage? ==> e == found.value
    {
      assert list[..i + 1] == list[..i] + [list[i]];
      if list[i].spec.storage.AgentStorage? {
        assert list[i] in list;
        if !list[i].spec.kind.AgentKind? || found.Some? {
          return Err;
        }
        found := Some(list[i]);
      }
    }
    assert list[..|list|] == list;
    r := Ok(found);
  }

  /** The credential is this agent's, in this domain. */
  predicate OwnsCredential(c: Credential, s: Security, agent: string) {
    && Trim(agent) != "" && Trim(s.domain) != ""
    && c.expected.kind.AgentKind? && c.expected.purpose == "client" && c.expected.listener == 0
    && Trim(c.expected.agent) == Trim(agent)
    && Trim(c.expected.domain) == Trim(s.domain) && Trim(c.manifestDomain) == Trim(s.domain)
  }

  /** The enrollment names another agent or another domain. */
  predicate EnrollmentMismatch(e: Enrollment, s: Security, agent: string) {
    || (Trim(e.spec.agent) != "" && Trim(e.spec.agent) != Trim(agent))
    || (Trim(e.spec.domain) != "" && Trim(e.spec.domain) != Trim(s.domain))
  }

  /** What an agent asks for. */
  function AgentSpec(s: Security, agent: string): Spec {
    Spec(AgentStorage, Trim(s.domain), agent, AgentKind, 0, "client", [], [])
  }

  /** A credential issued as the agent asked for it, in a domain with a name, is the agent's own. */
  lemma AskedForIsOwn(c: Credential, s: Security, agent: string)
    requires Trim(agent) != "" && Trim(s.domain) != ""
    requires c.expected == AgentSpec(s, agent) && Trim(c.manifestDomain) == Trim(s.domain)
    ensures OwnsCredential(c, s, agent)
  {
    TrimTwice(s.domain);
  }

  lemma AskedForMatches(s: Security, agent: string)
    ensures forall e: Enrollment :: e.spec == AgentSpec(s, agent) ==> !EnrollmentMismatch(e, s, agent)
  {
    TrimTwice(s.domain);
  }

  /** Outside its validity, or past the time its schedule sets. */
  predicate Due(c: Credential, due: int, now: int) {
    now >= due || now >= c.notAfter || now < c.notBefore
  }

  /** No rejection is half done. */
  predicate NoIntent(renewals: map<StorageId, Renewal>) {
    AgentStorage in renewals ==> renewals[AgentStorage].rejection.None?
  }

  type Inflight = map<string, Enrollment>

  // ---------- the agent's part of the store ----------

  /** What the rejection of the agent's enrollment is about. */
  function DiskOf(pending: map<StorageId, Enrollment>, quarantined: Quarantine, renewals: map<StorageId, Renewal>): PkiRejection.Disk {
    PkiRejection.Disk(
      if AgentStorage in pending then Some(pending[AgentStorage].request) else None,
      map k | k in quarantined && k.0 == AgentStorage :: k.1 := quarantined[k],
      if AgentStorage in renewals then renewals[AgentStorage].rejection else None)
  }

  lemma SavedDisk(pending: map<StorageId, Enrollment>, quarantined: Quarantine, renewals: map<StorageId, Renewal>, state: Renewal)
    ensures DiskOf(pending, quarantined, renewals[AgentStorage := state])
            == DiskOf(pending, quarantined, renewals).(intent := state.rejection)
  {
  }

  lemma LeftOnDisk(pending: map<StorageId, Enrollment>, quarantined: Quarantine, renewals: map<StorageId, Renewal>)
    ensures DiskOf(pending, quarantined, renewals).intent
            == if AgentStorage in renewals then renewals[AgentStorage].rejection else None
  {
  }

  lemma QuarantinedDisk(pending: map<StorageId, Enrollment>, quarantined: Quarantine, renewals: map<StorageId, Renewal>, i: Rejection)
    requires AgentStorage in pending && pending[AgentStorage].request == i.request && (AgentStorage, i.request) !in quarantined
    ensures PkiRejection.CanReject(DiskOf(pending, quarantined, renewals), i)
    ensures DiskOf(pending - {AgentStorage}, quarantined[(AgentStorage, i.request) := i.code], renewals)
            == PkiRejection.Reject(DiskOf(pending, quarantined, renewals), i)
  {
    var d := DiskOf(pending, quarantined, renewals);
    var after := quarantined[(AgentStorage, i.request) := i.code];
    assert DiskOf(pending - {AgentStorage}, after, renewals).rejected == d.rejected[i.request := i.code];
  }

  lemma RepeatedDisk(pending: map<StorageId, Enrollment>, quarantined: Quarantine, renewals: map<StorageId, Renewal>, i: Rejection)
    requires (AgentStorage, i.request) in quarantined && PkiRejection.CanReject(DiskOf(pending, quarantined, renewals), i)
    ensures PkiRejection.Reject(DiskOf(pending, quarantined, renewals), i) == DiskOf(pending, quarantined, renewals)
  {
    var k := (AgentStorage, i.request);
    assert k in quarantined && k.0 == AgentStorage && k.1 == i.request;
  }

  lemma CanRejectDisk(store: Store, i: Rejection)
    ensures store.CanReject(AgentStorage, i.request, i.code)
            <==> PkiRejection.CanReject(DiskOf(store.pending, store.quarantined, store.renewals), i)
  {
    var k := (AgentStorage, i.request);
    assert k in store.quarantined ==> k.0 == AgentStorage;
  }

  lemma {:induction false} TrimRightKeepsFirst(s: string)
    requires s != "" && !Space(s[0])
    ensures TrimRight(s) != ""
  {
    if Space(s[|s| - 1]) {
      TrimRightKeepsFirst(s[..|s| - 1]);
    }
  }

  /** A list once the rejection left over is settled. */
  function Remaining(list: seq<Enrollment>, left: Option<Rejection>): seq<Enrollment> {
    if left.Some? then WithoutRequest(list, AgentStorage, left.value.request) else list
  }

  /** The schedule once its rejection is settled. */
  function Settled(kept: Option<Renewal>): Option<Renewal> {
    match kept
    case None => None
    case Some(k) => Some(k.(rejection := None))
  }

  /** What is pending without that request of the agent. */
  function Dropped(pending: map<StorageId, Enrollment>, request: string): map<StorageId, Enrollment> {
    if AgentStorage in pending && pending[AgentStorage].request == request then pending - {AgentStorage} else pending
  }

  ghost predicate OwnStorages(list: seq<Enrollment>) {
    forall i, j :: 0 <= i < j < |list| ==> list[i].spec.storage != list[j].spec.storage
  }

  lemma OwnStorageFirst(e: Enrollment, rest: seq<Enrollment>)
    requires OwnStorages(rest) && forall x :: x in rest ==> x.spec.storage != e.spec.storage
    ensures OwnStorages([e] + rest)
  {
  }

  lemma OwnStorageTail(list: seq<Enrollment>)
    requires OwnStorages(list) && list != []
    ensures OwnStorages(list[1..]) && forall x :: x in list[1..] ==> x.spec.storage != list[0].spec.storage
  {
  }

  lemma {:induction false} WithoutKeepsDistinct(list: seq<Enrollment>, id: StorageId, request: string)
    requires OwnStorages(list)
    ensures OwnStorages(WithoutRequest(list, id, request))
  {
    hide OwnStorages;
    if list != [] {
      OwnStorageTail(list);
      WithoutKeepsDistinct(list[1..], id, request);
      var rest := WithoutRequest(list[1..], id, request);
      forall x | x in rest ensures x.spec.storage != list[0].spec.storage {
        assert x in list[1..];
      }
      OwnStorageFirst(list[0], rest);
      assert [] + rest == rest;
    } else {
      assert OwnStorages([]) by { NoStorages(); }
    }
  }

  lemma NoStorages()
    ensures OwnStorages([])
  {
  }

  lemma {:induction false} WithoutAgentKeepsDistinct(list: seq<Enrollment>)
    requires OwnStorages(list)
    ensures OwnStorages(WithoutAgent(list))
  {
    hide OwnStorages;
    if list != [] {
      OwnStorageTail(list);
      WithoutAgentKeepsDistinct(list[1..]);
      var rest := WithoutAgent(list[1..]);
      forall x | x in rest ensures x.spec.storage != list[0].spec.storage {
        assert x in list[1..];
      }
      OwnStorageFirst(list[0], rest);
      assert [] + rest == rest;
    } else {
      assert OwnStorages([]) by { NoStorages(); }
    }
  }

  /** With nothing of the agent's on the list, what happens to its own pending request does not matter. */
  lemma OthersListed(list: seq<Enrollment>, before: map<StorageId, Enrollment>, after: map<StorageId, Enrollment>)
    requires ListsPending(list, before) && SameExcept(after, before, AgentStorage)
    requires forall id :: id in before ==> before[id].spec.storage == id
    requires forall e :: e in list && e.spec.storage.AgentStorage? ==> OfAgent(e)
    ensures ListsBut(WithoutAgent(list), after, AgentStorage)
    ensures (forall e :: e in list ==> !e.spec.storage.AgentStorage?) ==> ListsBut(list, after, AgentStorage)
  {
    hide SameExcept;
    WithoutAgentKeepsDistinct(list);
    var r := WithoutAgent(list);
    forall k: StorageId | k != AgentStorage ensures (k in after <==> k in before) && (k in after ==> after[k] == before[k]) {
      SameElsewhere(after, before, AgentStorage, k);
    }
    forall i | 0 <= i < |r| ensures r[i].spec.storage in after && after[r[i].spec.storage] == r[i] {
      assert r[i] in list && !OfAgent(r[i]);
    }
    forall k | k in after && k != AgentStorage ensures after[k] in r && after[k] in list {
      assert k in before.Keys && before[k] in list;
    }
  }

  /** Taking a request off both the list and the store leaves a full listing. */
  lemma DroppedLists(list: seq<Enrollment>, pending: map<StorageId, Enrollment>, request: string)
    requires ListsPending(list, pending) && forall id :: id in pending ==> pending[id].spec.storage == id
    ensures ListsPending(WithoutRequest(list, AgentStorage, request), Dropped(pending, request))
  {
    WithoutKeepsDistinct(list, AgentStorage, request);
    var r, after := WithoutRequest(list, AgentStorage, request), Dropped(pending, request);
    forall i | 0 <= i < |r| ensures r[i].spec.storage in after && after[r[i].spec.storage] == r[i] {
      assert r[i] in list;
    }
    forall id | id in after.Keys ensures after[id] in r {
      assert pending[id] in list;
      var k :| 0 <= k < |list| && list[k] == pending[id];
      assert list[k].spec.storage in pending;
    }
  }

  class Agent {
    const store: Store
    const id: string
    const jitter: (string, Fingerprint) -> nat
    const lifecycleJitter: (string, Fingerprint, Security) -> nat
    /** The requests of the last heartbeat that have not been dealt with. */
    var inflight: Inflight

    constructor (store: Store, id: string, jitter: (string, Fingerprint) -> nat,
                 lifecycleJitter: (string, Fingerprint, Security) -> nat)
      ensures this.store == store && this.id == id && this.jitter == jitter && this.lifecycleJitter == lifecycleJitter
      ensures inflight == map[]
    {
      this.store, this.id, this.jitter, this.lifecycleJitter := store, id, jitter, lifecycleJitter;
      inflight := map[];
    }

    /** Only the agent's own storage changes. */
    twostate predicate OnlyAgent()
      reads store
    {
      && SameExcept(store.renewals, old(store.renewals), AgentStorage)
      && SameExcept(store.pending, old(store.pending), AgentStorage)
      && store.security == old(store.security) && store.actives == old(store.actives)
      && (old(store.Bounded()) ==> store.Bounded()) && (old(store.Filed()) ==> store.Filed())
      && (old(store.struck) ==> store.struck) && (Savable(old(store.renewals)) ==> Savable(store.renewals))
      && OnlyAdds(store.quarantined, old(store.quarantined))
    }

    /** The schedule kept for the agent. */
    function Kept(): Option<Renewal>
      reads store
    {
      if AgentStorage in store.renewals then Some(store.renewals[AgentStorage]) else None
    }

    /** A pending enrollment that the store would quarantine under a code it has not been quarantined under. */
    predicate Rejectable(e: Enrollment)
      reads store
    {
      && Trim(e.request) != "" && (AgentStorage, Trim(e.request)) !in store.quarantined
      && AgentStorage in store.pending && store.pending[AgentStorage].request == Trim(e.request)
    }

    /** The agent has a name, and what is kept for it can be written again. */
    predicate Ready()
      reads store
    {
      id != "" && Trim(id) == id && (AgentStorage in store.renewals ==> CanSave(store.renewals[AgentStorage]))
    }

    /** The store is in a state a pass can work on: readable, with nothing foreign in the agent's storage and no intent
        that cannot be completed. */
    predicate Sane()
      reads store
    {
      && Ready() && !store.security.SecurityUnreadable? && !store.ActiveOf(AgentStorage).ActiveUnreadable?
      && (AgentStorage in store.pending ==> store.pending[AgentStorage].spec.kind.AgentKind?)
      && (Left().Some? ==> store.CanReject(AgentStorage, Left().value.request, Left().value.code))
    }

    /** And all that is pending is listed. */
    ghost predicate Sound(list: seq<Enrollment>)
      reads store
    {
      Sane() && ListsPending(list, store.pending)
    }

    /** Requests only leave `inflight`. */
    twostate predicate OnlyForgets()
      reads this
    {
      forall k :: k in inflight ==> k in old(inflight) && inflight[k] == old(inflight)[k]
    }

    function Disk(): PkiRejection.Disk
      reads store
    {
      DiskOf(store.pending, store.quarantined, store.renewals)
    }

    /** Writes the agent's schedule, and its intent with it. */
    method SaveSchedule(state: Renewal) returns (ok: bool, ghost fault: Fault)
      requires state.failures <= FAILURE_LIMIT
      modifies store`calls, store`struck, store`renewals
      ensures OnlyAgent() && (ok <==> fault.NoFault?)
      ensures Disk() == PkiRejection.Written(old(Disk()), state.rejection, fault)
      ensures ok ==> store.renewals == old(store.renewals)[AgentStorage := state]
      ensures !ok ==> store.struck || !CanSave(state)
    {
      hide OwnRequests, Others, Savable, CanSave, DiskOf;
      SavedDisk(store.pending, store.quarantined, store.renewals, state);
      ghost var before := store.renewals;
      ok := store.SaveRenewal(AgentStorage, state);
      fault := if ok then NoFault else if store.renewals == before then NotApplied else ReportLost;
    }

    /** Quarantines a request of the agent. */
    method Quarantine(i: Rejection) returns (ok: bool, ghost fault: Fault)
      modifies store`calls, store`struck, store`pending, store`quarantined
      ensures OnlyAgent() && (ok <==> fault.NoFault? && PkiRejection.CanReject(old(Disk()), i))
      ensures Disk() == PkiRejection.Quarantined(old(Disk()), i, fault)
      ensures ok ==> (AgentStorage, i.request) in store.quarantined && store.quarantined[(AgentStorage, i.request)] == i.code
      ensures ok && old(store.Filed()) ==> AgentStorage in store.pending ==> store.pending[AgentStorage].request != i.request
      ensures !ok ==> store.struck || !old(store.CanReject(AgentStorage, i.request, i.code))
      ensures store.pending == old(store.pending) || (old(AgentStorage in store.pending && store.pending[AgentStorage].request == i.request)
                                                      && store.pending == old(store.pending) - {AgentStorage})
      ensures ok && (AgentStorage, i.request) !in old(store.quarantined) ==> store.pending == old(store.pending) - {AgentStorage}
    {
      hide OwnRequests, Others, Savable, DiskOf, PkiRejection.CanReject, PkiRejection.Reject;
      CanRejectDisk(store, i);
      if (AgentStorage, i.request) in store.quarantined && store.CanReject(AgentStorage, i.request, i.code) {
        RepeatedDisk(store.pending, store.quarantined, store.renewals, i);
      }
      if (AgentStorage, i.request) !in store.quarantined && store.CanReject(AgentStorage, i.request, i.code) {
        QuarantinedDisk(store.pending, store.quarantined, store.renewals, i);
      }
      ghost var before := store.pending;
      var missing;
      ok, missing := store.Reject(AgentStorage, i.request, i.code);
      fault := if ok then NoFault else if store.pending == before then NotApplied else ReportLost;
    }

    /** The three writes of a rejection: together, for whatever faults they meet, a run of PkiRejection. */
    method CommitRejection(e: Enrollment, code: string, state: Renewal) returns (ok: bool)
      requires state.failures <= FAILURE_LIMIT
      modifies this`inflight, store
      ensures OnlyAgent() && OnlyForgets()
      ensures exists f1, f2, f3 ::
                (Disk(), ok) == PkiRejectionThreads.Committed(old(Disk()), Rejection(Trim(e.request), Trim(code)), f1, f2, f3)
      ensures ok ==> AgentStorage in store.renewals
                     && store.renewals[AgentStorage] == state.(rejection := None)
      ensures ok ==> (AgentStorage, Trim(e.request)) in store.quarantined
                     && store.quarantined[(AgentStorage, Trim(e.request))] == Trim(code)
      ensures ok && (AgentStorage, Trim(e.request)) !in old(store.quarantined) ==>
                store.pending == old(store.pending) - {AgentStorage}
      ensures inflight == old(inflight) || inflight == old(inflight) - {Trim(e.request)}
      ensures ok ==> Trim(e.request) !in inflight
      ensures !ok ==> store.struck || !CanSave(state.(rejection := Some(Rejection(Trim(e.request), Trim(code)))))
                      || !old(store.CanReject(AgentStorage, Trim(e.request), Trim(code)))
    {
      hide OwnRequests, Others, Savable, DiskOf, Trim, PkiRejection.CanReject, PkiRejection.Quarantined, PkiRejection.Written;
      var i := Rejection(Trim(e.request), Trim(code));
      ghost var f1, f2, f3 := NoFault, NoFault, NoFault;
      ghost var before := Disk();
      ok, f1 := SaveSchedule(state.(rejection := Some(i)));
      if !ok {
        assert (Disk(), ok) == PkiRejectionThreads.Committed(before, i, f1, f2, f3);
        return;
      }
      ok, f2 := Quarantine(i);
      if !ok {
        assert (Disk(), ok) == PkiRejectionThreads.Committed(before, i, f1, f2, f3);
        return;
      }
      inflight := inflight - {Trim(e.request)};
      ok, f3 := SaveSchedule(state.(rejection := None));
      assert (Disk(), ok) == PkiRejectionThreads.Committed(before, i, f1, f2, f3);
    }

    /** The intent left by a rejection that was cut short. */
    function Left(): Option<Rejection>
      reads store
    {
      if AgentStorage in store.renewals then store.renewals[AgentStorage].rejection else None
    }

    /** Completes a rejection that was cut short, before anything is offered. Unless the schedule cannot be
        read, this too is a run of PkiRejection. */
    method Reconcile(list: seq<Enrollment>) returns (r: Result<seq<Enrollment>>)
      requires store.Bounded()
      modifies this`inflight, store
      ensures OnlyAgent() && OnlyForgets()
      ensures (r.Err? && Disk() == old(Disk()))
              || exists f1, f2 :: (Disk(), r.Ok?) == PkiRejectionThreads.Completed(old(Disk()), f1, f2)
      ensures r.Ok? ==> NoIntent(store.renewals) && Kept() == Settled(old(Kept()))
      ensures r.Ok? && old(store.Filed()) && ListsPending(list, old(store.pending)) ==> ListsPending(r.value, store.pending)
      ensures r.Ok? && old(store.Filed()) && AgentStorage in store.pending ==>
                AgentStorage in old(store.pending) && store.pending[AgentStorage] == old(store.pending)[AgentStorage]
      ensures r.Err? ==>
                || store.struck
                || (old(Left()).Some? && !old(store.CanReject(AgentStorage, Left().value.request, Left().value.code)))
                || (old(Left()).Some? && !CanSave(old(store.renewals)[AgentStorage].(rejection := None)))
      ensures r.Ok? ==> r.value == Remaining(list, old(Left()))
      ensures r.Ok? ==> forall e :: e in r.value ==> e in list
      ensures r.Ok? ==> forall e :: e in list && !e.spec.storage.AgentStorage? ==> e in r.value
      ensures r.Ok? && old(Left()).Some? ==>
                var i := old(Left()).value;
                && (AgentStorage, i.request) in store.quarantined && store.quarantined[(AgentStorage, i.request)] == i.code
                && (old(store.Filed()) && AgentStorage in store.pending ==> store.pending[AgentStorage].request != i.request)
                && forall e :: e in r.value ==> !(e.spec.storage.AgentStorage? && e.request == i.request)
    {
      hide OwnRequests, Others, Savable, DiskOf, ListsFrom, PkiRejection.CanReject, PkiRejection.Quarantined, PkiRejection.Written;
      LeftOnDisk(store.pending, store.quarantined, store.renewals);
      ghost var before := Disk();
      var read := store.LoadRenewal(AgentStorage);
      if read.Err? {
        return Err;
      }
      if read.value.None? || read.value.value.rejection.None? {
        assert (Disk(), true) == PkiRejectionThreads.Completed(before, NoFault, NoFault);
        return Ok(list);
      }
      var ok := CompleteRejection(read.value.value);
      if !ok {
        return Err;
      }
      var request := read.value.value.rejection.value.request;
      inflight := inflight - {request};
      if old(store.Filed()) && ListsPending(list, old(store.pending)) {
        DroppedLists(list, old(store.pending), request);
      }
      r := Ok(WithoutRequest(list, AgentStorage, request));
    }

    /** The two writes that complete it. */
    method CompleteRejection(state: Renewal) returns (ok: bool)
      requires store.Bounded() && Kept() == Some(state) && state.rejection.Some?
      modifies store
      ensures OnlyAgent()
      ensures exists f1, f2 :: (Disk(), ok) == PkiRejectionThreads.Completed(old(Disk()), f1, f2)
      ensures ok ==> NoIntent(store.renewals) && Kept() == Some(state.(rejection := None))
      ensures !ok ==>
                || store.struck || !CanSave(state.(rejection := None))
                || !old(store.CanReject(AgentStorage, state.rejection.value.request, state.rejection.value.code))
      ensures ok ==>
                var i := state.rejection.value;
                && (AgentStorage, i.request) in store.quarantined && store.quarantined[(AgentStorage, i.request)] == i.code
                && (old(store.Filed()) ==> store.pending == Dropped(old(store.pending), i.request))
                && (old(store.Filed()) && AgentStorage in store.pending ==> store.pending[AgentStorage].request != i.request)
    {
      hide OwnRequests, Others, Savable, DiskOf, PkiRejection.CanReject, PkiRejection.Quarantined, PkiRejection.Written, CanSave;
      ghost var before := Disk();
      LeftOnDisk(store.pending, store.quarantined, store.renewals);
      ghost var f1, f2 := NoFault, NoFault;
      var i := state.rejection.value;
      if store.Filed() && (AgentStorage, i.request) in store.quarantined {
        QuarantinedIsNotPending(store.pending, store.quarantined, store.requests, store.draw, AgentStorage, i.request);
      }
      ok, f1 := Quarantine(i);
      if !ok {
        assert (Disk(), false) == PkiRejectionThreads.Completed(before, f1, f2);
        return;
      }
      ok, f2 := SaveSchedule(state.(rejection := None));
      assert (Disk(), ok) == PkiRejectionThreads.Completed(before, f1, f2);
    }

    /** Gives up on renewing: the schedule demands re-enrollment and any pending request is rejected. */
    method EnterReenrollment(list: seq<Enrollment>, pending: Option<Enrollment>, state: Renewal)
      returns (r: Result<seq<Enrollment>>)
      requires state.failures <= FAILURE_LIMIT && state.reenroll && state.rejection.None?
      modifies this`inflight, store
      ensures OnlyAgent() && OnlyForgets() && (r.Ok? ==> NoIntent(store.renewals))
      ensures r.Ok? ==> r.value == WithoutAgent(list)
      ensures r.Ok? ==> Kept() == Some(state)
      ensures r.Err? ==> store.struck || !CanSave(state) || (pending.Some? && !old(Rejectable(pending.value)))
    {
      hide OwnRequests, Others, Savable, DiskOf, PkiRejectionThreads.Committed, Trim;
      OwnCode("owner_mismatch");
      var ok;
      if pending.Some? {
        ok := CommitRejection(pending.value, "owner_mismatch", state);
      } else {
        ok := store.SaveRenewal(AgentStorage, state);
      }
      r := if ok then Ok(WithoutAgent(list)) else Err;
    }

    /** The schedule to demand re-enrollment with, keeping the failure history of the same credential. */
    method MismatchState(c: Credential) returns (r: Result<Renewal>)
      requires store.Bounded() && NoIntent(store.renewals)
      modifies store`calls, store`struck
      ensures (old(store.struck) ==> store.struck) && (r.Err? ==> store.struck)
      ensures r.Ok? ==> r.value.rejection.None?
      ensures r.Ok? ==> r.value == MustReenroll(InForce(Kept(), c, id, jitter), "owner_mismatch")
      ensures r.Ok? ==> r.value.reenroll && r.value.reason == "owner_mismatch" && r.value.nextAttempt.None?
                        && r.value.failures <= FAILURE_LIMIT
    {
      hide OwnRequests, Others, Savable;
      var read := store.LoadRenewal(AgentStorage);
      if read.Err? {
        return Err;
      }
      InForceIs(Kept(), c, id, jitter);
      var candidate := RenewalFor(c, id, jitter);
      var state := if read.value.Some? && SameCredential(read.value.value, candidate) then read.value.value else candidate;
      r := Ok(MustReenroll(state, "owner_mismatch"));
    }

    /** Brings the schedule of a healthy credential up to date. */
    method Schedule(c: Credential, state: Option<Renewal>) returns (r: Result<Renewal>)
      requires state.Some? ==> state.value.failures <= FAILURE_LIMIT
      requires state == if AgentStorage in store.renewals then Some(store.renewals[AgentStorage]) else None
      requires NoIntent(store.renewals)
      modifies store
      ensures OnlyAgent() && store.pending == old(store.pending) && store.quarantined == old(store.quarantined)
      ensures NoIntent(store.renewals)
      ensures r.Ok? ==> Kept() == Some(r.value) && r.value == InForce(state, c, id, jitter) && r.value.failures <= FAILURE_LIMIT
      ensures r.Err? ==> store.struck || !old(Ready())
      ensures old(Ready()) ==> Ready()
    {
      hide OwnRequests, Others, Savable, RenewalFor, InForce, Trim;
      InForceIs(state, c, id, jitter);
      InForceIs(None, c, id, jitter);
      var candidate := RenewalFor(c, id, jitter);
      if state.Some? && SameCredential(state.value, candidate) {
        return Ok(state.value);
      }
      var ok := store.SaveRenewal(AgentStorage, candidate);
      r := if ok then Ok(candidate) else Err;
    }

    /** A retired signer moves renewal forward, never back. */
    method ScheduleLifecycle(c: Credential, s: Security, state: Renewal, now: int) returns (r: Result<Renewal>)
      requires AgentStorage in store.renewals && store.renewals[AgentStorage] == state && state.failures <= FAILURE_LIMIT
      requires NoIntent(store.renewals)
      modifies store
      ensures OnlyAgent() && store.pending == old(store.pending) && NoIntent(store.renewals)
      ensures r.Ok? ==>
                && Kept() == Some(r.value)
                && r.value == state.(due := DueTime(state, c, s, now, lifecycleJitter(Trim(id), FingerprintOf(c), s)))
      ensures r.Ok? ==>
                && r.value.due <= state.due
                && (SignerRetired(c, s.roots) ==> r.value.due <= Max(now, s.issued) + LIFECYCLE_WINDOW)
      ensures r.Err? ==> store.struck || !old(Ready())
      ensures old(Ready()) ==> Ready()
    {
      hide OwnRequests, Others, Savable, Trim, FingerprintOf;
      if !SignerRetired(c, s.roots) {
        return Ok(state);
      }
      var due := LifecycleDue(s.issued, s.dated, now, lifecycleJitter(Trim(id), FingerprintOf(c), s));
      if state.due <= due {
        return Ok(state);
      }
      var moved := state.(due := due);
      var ok := store.SaveRenewal(AgentStorage, moved);
      r := if ok then Ok(moved) else Err;
    }

    /** Prepares an enrollment; a failure counts and backs off. */
    method PrepareRenewal(s: Security, state: Option<Renewal>, now: int) returns (r: Result<seq<Enrollment>>)
      requires state.Some? ==> state.value.failures <= FAILURE_LIMIT
      requires state == if AgentStorage in store.renewals then Some(store.renewals[AgentStorage]) else None
      requires store.Filed()
      modifies store
      ensures OnlyAgent() && store.Filed()
      ensures r.Ok? ==> store.renewals == old(store.renewals) && ListsPending(r.value, store.pending)
      ensures r.Ok? ==> AgentListed(r.value)
      ensures r.Ok? ==> forall e :: e in r.value && OfAgent(e) ==> e.spec == AgentSpec(s, id)
      ensures r.Err? ==> store.struck || AgentStorage in old(store.pending)
      ensures store.renewals == old(store.renewals)
              || store.renewals == old(store.renewals)[AgentStorage := BackedOff(if state.Some? then state.value else Fallback(id, s.domain, now), now)]
    {
      hide OwnRequests, Others, Savable, Backoff;
      TrimTwice(s.domain);
      var prepared := store.Prepare(AgentSpec(s, id));
      if prepared.Err? {
        var failed := BackedOff(if state.Some? then state.value else Fallback(id, s.domain, now), now);
        var _ := store.SaveRenewal(AgentStorage, failed);
        return Err;
      }
      r := store.ListPending();
    }

    /** An enrollment is called for and nothing kept forbids it. */
    predicate Renews(active: ActiveRead, security: SecurityRead, kept: Option<Renewal>, now: int) {
      && security.Known? && !Foreign(active, security)
      && MayTry(Refreshed(kept, active, security), now) && CallsForOne(active, security.value, kept, now)
    }

    /** That is: the agent's own credential is past the due time in force or outside its validity, or there is none, or one
        that has become invalid in a way that renewing repairs; and the domain is known. */
    lemma RenewsIff(active: ActiveRead, security: SecurityRead, kept: Option<Renewal>, now: int)
      ensures Renews(active, security, Settled(kept), now) <==>
                && security.Known?
                && match active
                   case Active(c) =>
                     var s := security.value;
                     var force := InForce(Settled(kept), c, id, jitter);
                     && OwnsCredential(c, s, id) && MayTry(Some(force), now)
                     && (|| now >= DueTime(force, c, s, now, lifecycleJitter(Trim(id), FingerprintOf(c), s))
                         || now >= c.notAfter || now < c.notBefore)
                   case NoActive => MayTry(kept, now)
                   case Invalid(why) => MayTry(kept, now) && (why.Expired? || why.NotYetValid? || why.SignerLifecycle?)
                   case ActiveUnreadable => false
    {
      hide InForce, DueTime, OwnsCredential, FingerprintOf, Trim;
    }

    /** With its signer trusted, the agent's own credential is renewed from the time kept for it on, or else from its
        jittered due time on. */
    lemma RenewsOnTime(c: Credential, s: Security, kept: Option<Renewal>, now: int)
      requires OwnsCredential(c, s, id) && !SignerRetired(c, s.roots)
      ensures
        if ScheduleFor(kept, c, id) then
          MayTry(kept, now) ==>
            (Renews(Active(c), Known(s), Settled(kept), now) <==> now >= kept.value.due || now >= c.notAfter || now < c.notBefore)
        else
          Renews(Active(c), Known(s), Settled(kept), now) <==>
            || now >= CredentialDue(c.notBefore, c.notAfter, jitter(Trim(id), FingerprintOf(c)))
            || now >= c.notAfter || now < c.notBefore
    {
      hide CredentialDue, LifecycleDue, FingerprintOf, IdentityOf, SignerRetired, Trim, OwnsCredential;
      DueTimeIs(Settled(kept), c, s, id, jitter, now, lifecycleJitter(Trim(id), FingerprintOf(c), s));
    }

    lemma SaneSettles()
      requires Sane()
      ensures Left().Some? ==>
                && store.CanReject(AgentStorage, Left().value.request, Left().value.code)
                && CanSave(store.renewals[AgentStorage].(rejection := None))
      ensures Kept().Some? ==> CanSave(Settled(Kept()).value)
    {
    }

    /** With the store listed in full, what is found is what is pending, and it can be rejected. */
    lemma FoundIsPending(list: seq<Enrollment>)
      requires ListsPending(list, store.pending) && store.Filed()
      requires AgentStorage in store.pending ==> store.pending[AgentStorage].spec.kind.AgentKind?
      ensures OwnStorages(list) && forall e :: e in list && e.spec.storage.AgentStorage? ==> OfAgent(e) && Rejectable(e)
      ensures (forall e :: e in list ==> !e.spec.storage.AgentStorage?) ==> AgentStorage !in store.pending
    {
      hide Trim;
      if AgentStorage in store.pending {
        assert AgentStorage in store.pending.Keys && store.pending[AgentStorage] in list;
      }
    }

    /** Decides whether an enrollment of the agent is offered with the next heartbeat, and prepares one when renewal is
        due. With none pending, one is listed exactly when the agent's own credential is past the due time in force, or
        outside its validity, or missing, or invalid in a way that renewing repairs, and nothing kept forbids a try. What
        is listed is never demanded back, never early, never another agent's. Only a fault makes a pass over a sound
        store fail. */
    method EnsureRenewalPending(list: seq<Enrollment>, now: int) returns (r: Result<seq<Enrollment>>)
      requires store.Bounded() && store.Filed()
      modifies this`inflight, store
      ensures OnlyAgent() && OnlyForgets() && store.Filed()
      ensures r.Ok? ==> NoIntent(store.renewals)
      ensures r.Ok? && AgentListed(r.value) ==> Offerable(store.renewals, AgentStorage, now)
      ensures r.Ok? && store.security.Known? ==>
                forall e :: e in r.value && OfAgent(e) ==>
                  !EnrollmentMismatch(e, store.security.value, id)
                  && (!AgentListed(Remaining(list, old(Left()))) ==> e.spec == AgentSpec(store.security.value, id))
      ensures r.Ok? && !AgentListed(Remaining(list, old(Left()))) ==>
                (AgentListed(r.value) <==> Renews(store.ActiveOf(AgentStorage), store.security, Settled(old(Kept())), now))
      ensures r.Ok? && !AgentListed(Remaining(list, old(Left()))) && store.security.Known? && store.ActiveOf(AgentStorage).Active?
              && OwnsCredential(store.ActiveOf(AgentStorage).value, store.security.value, id)
              && !SignerRetired(store.ActiveOf(AgentStorage).value, store.security.value.roots) ==>
                var c := store.ActiveOf(AgentStorage).value;
                var kept := old(Kept());
                if ScheduleFor(kept, c, id) then
                  MayTry(kept, now) ==>
                    (AgentListed(r.value) <==> now >= kept.value.due || now >= c.notAfter || now < c.notBefore)
                else
                  AgentListed(r.value) <==>
                    || now >= CredentialDue(c.notBefore, c.notAfter, jitter(Trim(id), FingerprintOf(c)))
                    || now >= c.notAfter || now < c.notBefore
      ensures r.Ok? ==> forall e :: e in Remaining(list, old(Left())) && OfAgent(e) ==>
                (AgentListed(r.value) <==>
                 Offers(e, store.ActiveOf(AgentStorage), store.security, Settled(old(Kept())), now))
      ensures r.Ok? ==> (forall e :: e in list && !e.spec.storage.AgentStorage? ==> e in r.value)
                        || ListsPending(r.value, store.pending)
      ensures r.Ok? && ListsPending(list, old(store.pending)) ==> ListsBut(r.value, store.pending, AgentStorage)
      ensures r.Err? ==> store.struck || !old(Sound(list))
    {
      hide OwnRequests, Others, OnlyAdds, Savable, DiskOf, PkiRejectionThreads.Completed, Trim, Offerable, Due, ListsBut, InForce, DueTime,
        OwnsCredential, OwnStorages, ListsFrom, CanSave, Rejectable, EnrollmentMismatch, AgentSpec, ScheduleFor, CredentialDue,
        Renews, Offers, Foreign, Refreshed, CallsForOne, MayTry;
      if store.security.Known? && store.ActiveOf(AgentStorage).Active?
         && OwnsCredential(store.ActiveOf(AgentStorage).value, store.security.value, id)
         && !SignerRetired(store.ActiveOf(AgentStorage).value, store.security.value.roots) {
        RenewsOnTime(store.ActiveOf(AgentStorage).value, store.security.value, Kept(), now);
      }
      var ok, settled, kept, found := Recall(list);
      if !ok {
        return Err;
      }
      ghost var quarantined := store.quarantined;
      r := Decide(settled, found, kept, now);
      AddsMore(store.quarantined, quarantined, old(store.quarantined));
    }

    /** The decision, with no intent left. */
    method Decide(list: seq<Enrollment>, found: Option<Enrollment>, kept: Option<Renewal>, now: int)
      returns (r: Result<seq<Enrollment>>)
      requires store.Bounded() && store.Filed() && NoIntent(store.renewals) && kept == Kept()
      requires !store.security.SecurityUnreadable? && !store.ActiveOf(AgentStorage).ActiveUnreadable?
      requires found.None? ==> forall e :: e in list ==> !e.spec.storage.AgentStorage?
      requires found.Some? ==>
                 found.value in list && OfAgent(found.value)
                 && forall e :: e in list && e.spec.storage.AgentStorage? ==> e == found.value
      modifies this`inflight, store
      ensures OnlyAgent() && OnlyForgets() && store.Filed()
      ensures r.Ok? ==> NoIntent(store.renewals)
      ensures r.Ok? && AgentListed(r.value) ==> Offerable(store.renewals, AgentStorage, now)
      ensures r.Ok? && store.security.Known? ==>
                forall e :: e in r.value && OfAgent(e) ==>
                  !EnrollmentMismatch(e, store.security.value, id)
                  && (found.None? ==> e.spec == AgentSpec(store.security.value, id))
      ensures r.Ok? && found.None? ==>
                (AgentListed(r.value) <==> Renews(store.ActiveOf(AgentStorage), store.security, kept, now))
      ensures r.Ok? && found.Some? ==>
                (AgentListed(r.value) <==> Offers(found.value, store.ActiveOf(AgentStorage), store.security, kept, now))
      ensures r.Ok? ==> (forall e :: e in list && !e.spec.storage.AgentStorage? ==> e in r.value)
                        || ListsPending(r.value, store.pending)
      ensures r.Ok? && ListsPending(list, old(store.pending)) ==> ListsBut(r.value, store.pending, AgentStorage)
      ensures r.Err? ==> store.struck || !old(Ready())
                         || if found.Some? then !old(Rejectable(found.value)) else AgentStorage in old(store.pending)
    {
      hide OwnRequests, Others, Savable, OnlyAdds, DiskOf, Trim, Offerable, Due, ListsBut, OwnStorages, ListsFrom, CanSave,
        Rejectable, EnrollmentMismatch, AgentSpec, Renews, Offers;
      if found.None? {
        if store.security.Known? {
          AskedForMatches(store.security.value, id);
        }
        r := EnsureNew(list, kept, now);
      } else {
        if store.security.Known? && Offers(found.value, store.ActiveOf(AgentStorage), store.security, kept, now) {
          OffersNoMismatch(found.value, store.ActiveOf(AgentStorage), store.security, kept, now);
        }
        r := EnsureOffered(list, found.value, kept, now);
      }
      if r.Ok? && ListsPending(list, old(store.pending)) {
        StillListed(list, r.value, old(store.pending), store.pending);
      }
    }

    lemma OffersNoMismatch(e: Enrollment, active: ActiveRead, security: SecurityRead, kept: Option<Renewal>, now: int)
      requires security.Known? && Offers(e, active, security, kept, now)
      ensures !EnrollmentMismatch(e, security.value, id)
    {
    }

    /** A pending enrollment is offered: the credential in use and the enrollment itself are this agent's, in a domain it
        knows, and nothing kept forbids a try. */
    predicate Offers(e: Enrollment, active: ActiveRead, security: SecurityRead, kept: Option<Renewal>, now: int) {
      && !Foreign(active, security)
      && (Trim(e.spec.agent) == "" || Trim(e.spec.agent) == id)
      && (if security.Known? then !EnrollmentMismatch(e, security.value, id) else Trim(e.spec.domain) == "")
      && MayTry(Refreshed(kept, active, security), now)
    }

    lemma StillListed(settled: seq<Enrollment>, list: seq<Enrollment>, before: map<StorageId, Enrollment>,
                      after: map<StorageId, Enrollment>)
      requires ListsPending(settled, before) && SameExcept(after, before, AgentStorage)
      requires forall id :: id in before ==> before[id].spec.storage == id
      requires forall e :: e in settled && e.spec.storage.AgentStorage? ==> OfAgent(e)
      requires || list == WithoutAgent(settled) || ListsPending(list, after)
               || (list == settled && (after == before || forall e :: e in settled ==> !e.spec.storage.AgentStorage?))
      ensures ListsBut(list, after, AgentStorage)
    {
      hide SameExcept, ListsFrom, ListsBut, OfAgent;
      OthersListed(settled, before, after);
      if ListsPending(list, after) {
        ListedInFull(list, after, AgentStorage);
      }
    }

    /** What a pass starts from: no intent left, the schedule and the enrollment kept for the agent, and neither the
        security snapshot nor the credential in use unreadable. */
    method Recall(list: seq<Enrollment>)
      returns (ok: bool, settled: seq<Enrollment>, kept: Option<Renewal>, found: Option<Enrollment>)
      requires store.Bounded() && store.Filed()
      modifies this`inflight, store
      ensures OnlyAgent() && OnlyForgets() && store.Filed()
      ensures ok ==> NoIntent(store.renewals) && kept == Kept() == Settled(old(Kept()))
      ensures ok ==> settled == Remaining(list, old(Left()))
      ensures ok ==> forall e :: e in list && !e.spec.storage.AgentStorage? ==> e in settled
      ensures ok && ListsPending(list, old(store.pending)) ==> ListsPending(settled, store.pending)
      ensures ok && found.None? ==> forall e :: e in settled ==> !e.spec.storage.AgentStorage?
      ensures ok && found.Some? ==>
                found.value in settled && OfAgent(found.value)
                && forall e :: e in settled && e.spec.storage.AgentStorage? ==> e == found.value
      ensures ok ==> !store.security.SecurityUnreadable? && !store.ActiveOf(AgentStorage).ActiveUnreadable?
      ensures !ok ==> store.struck || !old(Sound(list))
      ensures ok && old(Sound(list)) ==>
                Ready() && if found.Some? then Rejectable(found.value) else AgentStorage !in store.pending
    {
      hide OwnRequests, Others, OnlyAdds, Savable, DiskOf, PkiRejectionThreads.Completed, Trim, OwnStorages, ListsFrom, CanSave, Rejectable;
      ok, settled, kept, found := false, [], None, None;
      ghost var sound := Sound(list);
      if sound {
        SaneSettles();
      }
      var reconciled := Reconcile(list);
      if reconciled.Err? {
        return;
      }
      settled := reconciled.value;
      var read := store.LoadRenewal(AgentStorage);
      if read.Err? {
        return;
      }
      if sound {
        FoundIsPending(settled);
      }
      var search := FindAgentEnrollment(settled);
      if search.Err? || store.security.SecurityUnreadable? || store.ActiveOf(AgentStorage).ActiveUnreadable? {
        return;
      }
      ok, kept, found := true, read.value, search.value;
    }

    /** Renews the schedule if there is a credential to go by. `None` means the credential is not ours. */
    method Refresh(state: Option<Renewal>) returns (r: Result<Option<Option<Renewal>>>)
      requires store.Bounded() && NoIntent(store.renewals)
      requires state == Kept()
      modifies store
      ensures OnlyAgent() && store.pending == old(store.pending) && store.quarantined == old(store.quarantined)
      ensures NoIntent(store.renewals)
      ensures r.Ok? && r.value.None? ==> store.renewals == old(store.renewals)
      ensures r.Ok? ==> (r.value.None? <==> Foreign(store.ActiveOf(AgentStorage), store.security))
      ensures r.Ok? && r.value.Some? ==>
                && r.value.value == Kept()
                && Kept() == Refreshed(state, store.ActiveOf(AgentStorage), store.security)
      ensures r.Err? ==> store.struck || !old(Ready())
      ensures old(Ready()) ==> Ready()
    {
      hide OwnRequests, Others, Savable, InForce, OwnsCredential;
      var active := store.ActiveOf(AgentStorage);
      if !active.Active? || !store.security.Known? {
        return Ok(Some(state));
      }
      if !OwnsCredential(active.value, store.security.value, id) {
        return Ok(None);
      }
      var scheduled := Schedule(active.value, state);
      r := if scheduled.Ok? then Ok(Some(Some(scheduled.value))) else Err;
    }

    /** The active credential is somebody else's. */
    predicate Foreign(active: ActiveRead, security: SecurityRead) {
      active.Active? && security.Known? && !OwnsCredential(active.value, security.value, id)
    }

    /** The schedule in force: for the agent's own credential if there is one, and else whatever was kept. */
    function Refreshed(kept: Option<Renewal>, active: ActiveRead, security: SecurityRead): Option<Renewal> {
      if active.Active? && security.Known? && OwnsCredential(active.value, security.value, id) then
        Some(InForce(kept, active.value, id, jitter))
      else kept
    }

    /** There is a pending enrollment: offer it, or reject it and offer none. It is offered exactly when the credential
        in use and the enrollment itself are this agent's, in a domain it knows, and nothing kept forbids a try. */
    method EnsureOffered(list: seq<Enrollment>, pending: Enrollment, before: Option<Renewal>, now: int)
      returns (r: Result<seq<Enrollment>>)
      requires store.Bounded() && store.Filed() && NoIntent(store.renewals)
      requires before == Kept()
      requires pending in list && OfAgent(pending) && forall e :: e in list && e.spec.storage.AgentStorage? ==> e == pending
      modifies this`inflight, store
      ensures OnlyAgent() && OnlyForgets() && (r.Ok? ==> NoIntent(store.renewals))
      ensures r.Ok? ==> r.value == WithoutAgent(list) || (r.value == list && store.pending == old(store.pending))
      ensures r.Ok? ==>
                (AgentListed(r.value) <==> Offers(pending, store.ActiveOf(AgentStorage), store.security, before, now))
      ensures r.Ok? && AgentListed(r.value) ==> Offerable(store.renewals, AgentStorage, now)
      ensures r.Err? ==> store.struck || !old(Ready()) || !old(Rejectable(pending))
    {
      hide OwnRequests, Others, Savable, InForce, Trim, EnrollmentMismatch, OwnsCredential, Foreign, Refreshed, CanSave;
      var active := store.ActiveOf(AgentStorage);
      RefreshedNamed(before, active, store.security);
      ForeignIsActive(active, store.security);
      var refreshed := Refresh(before);
      if refreshed.Err? {
        return Err;
      }
      if refreshed.value.None? {
        r := GiveUp(list, Some(pending), active, before, store.security.value.domain, now);
        return;
      }
      var state := refreshed.value.value;
      if Trim(pending.spec.agent) != "" && Trim(pending.spec.agent) != id {
        r := GiveUp(list, Some(pending), active, state, Trim(pending.spec.domain), now);
        return;
      }
      if store.security.Known? && EnrollmentMismatch(pending, store.security.value, id) {
        r := GiveUp(list, Some(pending), active, state, store.security.value.domain, now);
        return;
      }
      if state.Some? && state.value.reenroll {
        OwnCode("reenrollment_required");
        r := Withhold(list, pending, "reenrollment_required", state.value);
        return;
      }
      if state.Some? && BackingOff(state.value, now) {
        OwnCode("renewal_backoff");
        r := Withhold(list, pending, "renewal_backoff", state.value);
        return;
      }
      if !store.security.Known? && Trim(pending.spec.domain) != "" {
        return Ok(WithoutAgent(list));
      }
      r := Ok(list);
    }

    lemma RefreshedNamed(kept: Option<Renewal>, active: ActiveRead, security: SecurityRead)
      ensures kept.Some? && kept.value.rejection.None? && kept.value.failures <= FAILURE_LIMIT ==>
                var k := Refreshed(kept, active, security); k.Some? && k.value.rejection.None? && k.value.failures <= FAILURE_LIMIT
      ensures kept.None? && Refreshed(kept, active, security).Some? ==>
                var k := Refreshed(kept, active, security); k.value.rejection.None? && k.value.failures <= FAILURE_LIMIT
    {
    }

    /** An enrollment is called for, by what is in use: none at all, one that is past its due time or outside its
        validity, or one that has become invalid in a way that renewing repairs. */
    predicate CallsForOne(active: ActiveRead, s: Security, kept: Option<Renewal>, now: int) {
      match active
      case NoActive => true
      case Active(c) =>
        var r := InForce(kept, c, id, jitter);
        || DueTime(r, c, s, now, lifecycleJitter(Trim(id), FingerprintOf(c), s)) <= now
        || c.notAfter <= now || now < c.notBefore
      case Invalid(why) => why.Expired? || why.NotYetValid? || why.SignerLifecycle?
      case ActiveUnreadable => false
    }

    /** There is no pending enrollment: prepare one if the schedule allows and renewal is due. */
    method EnsureNew(list: seq<Enrollment>, before: Option<Renewal>, now: int) returns (r: Result<seq<Enrollment>>)
      requires store.Bounded() && store.Filed() && !store.ActiveOf(AgentStorage).ActiveUnreadable?
      requires NoIntent(store.renewals)
      requires before == Kept()
      requires forall e :: e in list ==> !e.spec.storage.AgentStorage?
      modifies this`inflight, store
      ensures OnlyAgent() && OnlyForgets() && store.Filed() && (r.Ok? ==> NoIntent(store.renewals))
      ensures r.Ok? ==> r.value == list || r.value == WithoutAgent(list) || ListsPending(r.value, store.pending)
      ensures r.Ok? && store.security.Known? ==>
                forall e :: e in r.value && OfAgent(e) ==> e.spec == AgentSpec(store.security.value, id)
      ensures r.Ok? ==>
                (AgentListed(r.value) <==> Renews(store.ActiveOf(AgentStorage), store.security, before, now))
      ensures r.Ok? && AgentListed(r.value) ==> Offerable(store.renewals, AgentStorage, now)
      ensures r.Err? ==> store.struck || !old(Ready()) || AgentStorage in old(store.pending)
    {
      hide OwnRequests, Others, Savable, InForce, Trim, OwnsCredential, Foreign, CallsForOne, CanSave, EnrollmentMismatch;
      var active := store.ActiveOf(AgentStorage);
      RefreshedNamed(before, active, store.security);
      ForeignIsActive(active, store.security);
      var refreshed := Refresh(before);
      if refreshed.Err? {
        return Err;
      }
      if refreshed.value.None? {
        r := GiveUp(list, None, active, before, store.security.value.domain, now);
        return;
      }
      var state := refreshed.value.value;
      if state.Some? && (state.value.reenroll || BackingOff(state.value, now)) {
        return Ok(WithoutAgent(list));
      }
      if !store.security.Known? {
        return Ok(list);
      }
      r := RenewIfDue(list, active, store.security.value, state, before, now);
    }

    lemma ForeignIsActive(active: ActiveRead, security: SecurityRead)
      ensures Foreign(active, security) ==> active.Active? && security.Known?
      ensures active.Active? && security.Known? && !Foreign(active, security) ==>
                OwnsCredential(active.value, security.value, id)
    {
    }

    lemma InForceNamed(kept: Option<Renewal>, c: Credential)
      ensures id != "" && Trim(id) == id && (kept.Some? ==> CanSave(kept.value)) ==>
                CanSave(InForce(kept, c, id, jitter))
      ensures kept.Some? ==> kept.value.rejection.None? && kept.value.failures <= FAILURE_LIMIT ==>
                InForce(kept, c, id, jitter).rejection.None? && InForce(kept, c, id, jitter).failures <= FAILURE_LIMIT
    {
    }

    lemma OwnCode(code: string)
      requires code != "" && !Space(code[0])
      ensures Trim(code) != ""
    {
      var left := TrimLeft(code);
      assert left == code;
      TrimRightKeepsFirst(code);
    }

    /** Gives up: the schedule demands re-enrollment for a mismatched owner. */
    method GiveUp(list: seq<Enrollment>, pending: Option<Enrollment>, active: ActiveRead, state: Option<Renewal>,
                  domain: string, now: int)
      returns (r: Result<seq<Enrollment>>)
      requires store.Bounded() && NoIntent(store.renewals)
      requires state.Some? ==> state.value.failures <= FAILURE_LIMIT && state.value.rejection.None?
      modifies this`inflight, store
      ensures OnlyAgent() && OnlyForgets() && (r.Ok? ==> NoIntent(store.renewals))
      ensures r.Ok? ==> r.value == WithoutAgent(list)
      ensures r.Ok? ==> Kept().Some? && Kept().value.reenroll && Kept().value.reason == "owner_mismatch"
      ensures r.Ok? ==>
                Kept().value == MustReenroll(if active.Active? then InForce(old(Kept()), active.value, id, jitter)
                                             else if state.Some? then state.value else Fallback(id, domain, now), "owner_mismatch")
      ensures r.Err? ==> store.struck || !old(Ready()) || (state.Some? && !CanSave(state.value))
                         || (pending.Some? && !old(Rejectable(pending.value)))
    {
      hide OwnRequests, Others, Savable, Trim, InForce;
      if active.Active? {
        InForceNamed(old(Kept()), active.value);
      }
      var demanded;
      if active.Active? {
        var s := MismatchState(active.value);
        if s.Err? {
          return Err;
        }
        demanded := s.value;
      } else {
        demanded := MustReenroll(if state.Some? then state.value else Fallback(id, domain, now), "owner_mismatch");
      }
      r := EnterReenrollment(list, pending, demanded);
    }

    /** Rejects the pending enrollment and offers none. */
    method Withhold(list: seq<Enrollment>, pending: Enrollment, code: string, state: Renewal)
      returns (r: Result<seq<Enrollment>>)
      requires state.failures <= FAILURE_LIMIT
      modifies this`inflight, store
      ensures OnlyAgent() && OnlyForgets()
      ensures r.Ok? ==> r.value == WithoutAgent(list)
      ensures r.Ok? ==> Kept() == Some(state.(rejection := None))
      ensures r.Err? ==> store.struck || Trim(code) == "" || !CanSave(state.(rejection := None)) || !old(Rejectable(pending))
    {
      hide OwnRequests, Others, Savable, DiskOf, PkiRejectionThreads.Committed, Trim;
      var ok := CommitRejection(pending, code, state);
      r := if ok then Ok(WithoutAgent(list)) else Err;
    }

    method RenewIfDue(list: seq<Enrollment>, active: ActiveRead, s: Security, state: Option<Renewal>, before: Option<Renewal>,
                      now: int)
      returns (r: Result<seq<Enrollment>>)
      requires store.Filed() && !AgentListed(list) && !active.ActiveUnreadable? && NoIntent(store.renewals)
      requires state.Some? ==> state.value.failures <= FAILURE_LIMIT && !state.value.reenroll && !BackingOff(state.value, now)
      requires state == Kept() && state == Refreshed(before, active, Known(s)) && !Foreign(active, Known(s))
      requires active == store.ActiveOf(AgentStorage)
      modifies store
      ensures OnlyAgent() && store.Filed() && (r.Ok? ==> NoIntent(store.renewals))
      ensures r.Ok? ==> r.value == list || ListsPending(r.value, store.pending)
      ensures r.Ok? ==> forall e :: e in r.value && OfAgent(e) ==> e.spec == AgentSpec(s, id)
      ensures r.Ok? ==> (AgentListed(r.value) <==> CallsForOne(active, s, before, now))
      ensures r.Ok? && AgentListed(r.value) ==> Offerable(store.renewals, AgentStorage, now)
      ensures r.Err? ==> store.struck || !old(Ready()) || AgentStorage in old(store.pending)
    {
      hide OwnRequests, Others, Savable, InForce, Trim, FingerprintOf, DueTime, EnrollmentMismatch;
      var current := state;
      if active.Active? {
        var moved := ScheduleLifecycle(active.value, s, state.value, now);
        if moved.Err? {
          return Err;
        }
        current := Some(moved.value);
        if !Due(active.value, moved.value.due, now) {
          return Ok(list);
        }
      } else if active.Invalid? && !(active.why.Expired? || active.why.NotYetValid? || active.why.SignerLifecycle?) {
        var reason := match active.why
          case OtherReason(text) => if text == "" then "invalid_credential" else text
          case _ => "invalid_credential";
        r := Demand(list, MustReenroll(if state.Some? then state.value else Fallback(id, s.domain, now), reason));
        return;
      }
      r := PrepareRenewal(s, current, now);
    }

    /** An invalid credential that renewing does not repair: re-enrollment is demanded. */
    method Demand(list: seq<Enrollment>, demanded: Renewal) returns (r: Result<seq<Enrollment>>)
      requires demanded.failures <= FAILURE_LIMIT && demanded.rejection.None? && NoIntent(store.renewals)
      modifies store
      ensures OnlyAgent() && NoIntent(store.renewals)
      ensures store.pending == old(store.pending)
      ensures r.Ok? ==> r.value == list && Kept() == Some(demanded)
      ensures r.Err? ==> store.struck || !CanSave(demanded)
    {
      hide OwnRequests, Others, Savable;
      var ok := store.SaveRenewal(AgentStorage, demanded);
      r := if ok then Ok(list) else Err;
    }
  }

  function Max(a: int, b: int): int {
    if a < b then b else a
  }
}

/** The certificate part of a heartbeat: what is offered, and what is done with the reply. */
module PkiHeartbeat {
  import opened Sequences
  import opened Strings
  import opened PkiTimes
  import opened PkiStore
  import opened PkiAgent
  import opened PkiListeners
  import PkiRejectionThreads

  datatype Status = NoStatus | ReadyStatus | DegradedStatus | UnknownStatus

  /** An answer to one request: an error code, or the certificate issued. */
  datatype Response = Response(request: string, error: string, certificate: string, issued: Credential)

  datatype Reply = Reply(status: Status, security: Option<Security>, credentials: seq<Response>)

  // ---------- well-formed replies ----------

  predicate Answers(r: Response, inflight: Inflight) {
    && Trim(r.request) != "" && Trim(r.request) in inflight
    && (Trim(r.error) != "" <==> Trim(r.certificate) == "")
  }

  /** Every answer is to a request of this heartbeat, each at most once, and each is one thing. */
  ghost predicate WellFormed(rs: seq<Response>, inflight: Inflight) {
    && (forall i :: 0 <= i < |rs| ==> Answers(rs[i], inflight))
    && (forall i, j :: 0 <= i < j < |rs| ==> Trim(rs[i].request) != Trim(rs[j].request))
  }

  function Rejected(rs: seq<Response>): seq<Response> {
    if rs == [] then []
    else Rejected(rs[..|rs| - 1]) + (if Trim(rs[|rs| - 1].error) != "" then [rs[|rs| - 1]] else [])
  }

  function Issued(rs: seq<Response>): seq<Response> {
    if rs == [] then []
    else Issued(rs[..|rs| - 1]) + (if Trim(rs[|rs| - 1].error) != "" then [] else [rs[|rs| - 1]])
  }

  lemma {:induction false} PartsAnswer(rs: seq<Response>, inflight: Inflight)
    requires WellFormed(rs, inflight)
    ensures forall r :: r in Rejected(rs) || r in Issued(rs) ==> r in rs && Answers(r, inflight)
  {
    if rs != [] {
      var front := rs[..|rs| - 1];
      assert WellFormed(front, inflight);
      PartsAnswer(front, inflight);
    }
  }

  function Requests(rs: seq<Response>): set<string> {
    set r | r in rs :: Trim(r.request)
  }

  lemma WellFormedStep(rs: seq<Response>, i: nat, inflight: Inflight)
    requires i < |rs|
    ensures Requests(rs[..i + 1]) == Requests(rs[..i]) + {Trim(rs[i].request)}
    ensures WellFormed(rs[..i + 1], inflight) <==>
              WellFormed(rs[..i], inflight) && Answers(rs[i], inflight) && Trim(rs[i].request) !in Requests(rs[..i])
  {
    hide Trim, Answers;
    var a, b := rs[..i], rs[..i + 1];
    assert b == a + [rs[i]];
    if WellFormed(b, inflight) {
      forall k | 0 <= k < i ensures Answers(a[k], inflight) && Trim(a[k].request) != Trim(rs[i].request) {
        assert a[k] == b[k] && b[i] == rs[i];
      }
      forall k, l | 0 <= k < l < i ensures Trim(a[k].request) != Trim(a[l].request) {
        assert a[k] == b[k] && a[l] == b[l];
      }
    }
    if WellFormed(a, inflight) && Answers(rs[i], inflight) && Trim(rs[i].request) !in Requests(a) {
      forall k | 0 <= k < i ensures Trim(a[k].request) != Trim(rs[i].request) {
        assert a[k] in a;
      }
    }
  }

  lemma WellFormedPrefix(rs: seq<Response>, i: nat, inflight: Inflight)
    requires i <= |rs| && WellFormed(rs, inflight)
    ensures WellFormed(rs[..i], inflight)
  {
    hide Trim, Answers;
  }

  /** Sorts the answers into certificates and rejections, or finds the reply malformed. */
  method Classify(rs: seq<Response>, inflight: Inflight)
    returns (ok: bool, issued: seq<Response>, rejected: seq<Response>)
    ensures ok <==> WellFormed(rs, inflight)
    ensures ok ==> issued == Issued(rs) && rejected == Rejected(rs)
  {
    hide Trim, WellFormed;
    issued, rejected, ok := [], [], true;
    var seen: set<string> := {};
    EmptyIsWellFormed(inflight);
    for i := 0 to |rs|
      invariant ok && WellFormed(rs[..i], inflight) && seen == Requests(rs[..i])
      invariant issued == Issued(rs[..i]) && rejected == Rejected(rs[..i])
    {
      var r := rs[i];
      assert rs[..i + 1][..i] == rs[..i];
      WellFormedStep(rs, i, inflight);
      ok := Classified(r, inflight) && Trim(r.request) !in seen;
      if !ok {
        if WellFormed(rs, inflight) {
          WellFormedPrefix(rs, i + 1, inflight);
          assert false;
        }
        return;
      }
      seen := seen + {Trim(r.request)};
      if Trim(r.error) != "" {
        rejected := rejected + [r];
      } else {
        issued := issued + [r];
      }
    }
    assert rs[..|rs|] == rs;
  }

  predicate Classified(r: Response, inflight: Inflight)
    ensures Classified(r, inflight) <==> Answers(r, inflight)
  {
    var request := Trim(r.request);
    if request == "" || request !in inflight then false
    else if Trim(r.error) != "" then Trim(r.certificate) == ""
    else Trim(r.certificate) != ""
  }

  lemma EmptyIsWellFormed(inflight: Inflight)
    ensures WellFormed([], inflight)
  {
  }

  // ---------- offers ----------

  /** Every offered request has an id of its own. */
  ghost predicate OwnIds(list: seq<Enrollment>) {
    && (forall i :: 0 <= i < |list| ==> Trim(list[i].request) != "")
    && (forall i, j :: 0 <= i < j < |list| ==> Trim(list[i].request) != Trim(list[j].request))
  }

  /** Each offered request under its own id, and nothing else. */
  ghost predicate Indexes(inflight: Inflight, list: seq<Enrollment>) {
    && (forall e :: e in list ==> Trim(e.request) in inflight && inflight[Trim(e.request)] == e)
    && (forall k :: k in inflight ==> inflight[k] in list && Trim(inflight[k].request) == k)
  }

  lemma IndexStep(inflight: Inflight, list: seq<Enrollment>, e: Enrollment)
    requires Indexes(inflight, list) && OwnIds(list) && Trim(e.request) != "" && Trim(e.request) !in inflight
    ensures Indexes(inflight[Trim(e.request) := e], list + [e]) && OwnIds(list + [e])
  {
    hide Trim;
    forall i | 0 <= i < |list| ensures Trim(list[i].request) != Trim(e.request) {
      assert list[i] in list;
    }
  }

  lemma TakenIdRepeats(inflight: Inflight, list: seq<Enrollment>, i: nat)
    requires i < |list| && Indexes(inflight, list[..i]) && (Trim(list[i].request) == "" || Trim(list[i].request) in inflight)
    ensures !OwnIds(list)
  {
    hide Trim;
    var request := Trim(list[i].request);
    if request in inflight {
      var j :| 0 <= j < i && list[..i][j] == inflight[request];
      assert Trim(list[j].request) == Trim(list[i].request);
    }
  }

  method Index(list: seq<Enrollment>) returns (r: Option<Inflight>)
    ensures r.Some? <==> OwnIds(list)
    ensures r.Some? ==> Indexes(r.value, list)
  {
    hide Trim, OwnIds, Indexes;
    var inflight: Inflight := map[];
    assert OwnIds([]) && Indexes(map[], []) by { EmptyIndex(); }
    for i := 0 to |list|
      invariant Indexes(inflight, list[..i]) && OwnIds(list[..i])
    {
      assert list[..i + 1] == list[..i] + [list[i]];
      var request := Trim(list[i].request);
      if request == "" || request in inflight {
        TakenIdRepeats(inflight, list, i);
        return None;
      }
      IndexStep(inflight, list[..i], list[i]);
      inflight := inflight[request := list[i]];
    }
    assert list[..|list|] == list;
    r := Some(inflight);
  }

  lemma EmptyIndex()
    ensures OwnIds([]) && Indexes(map[], [])
  {
  }

  /** Whatever is listed has a request id of its own. */
  lemma ListedHaveOwnIds(list: seq<Enrollment>, store: Store)
    requires store.Filed() && ListsBut(list, store.pending, AgentStorage)
    ensures OwnIds(list)
  {
    hide Trim;
    forall i | 0 <= i < |list| ensures Trim(list[i].request) == list[i].request && list[i].request != "" {
      assert store.pending[list[i].spec.storage] == list[i];
    }
    forall i, j | 0 <= i < j < |list| ensures list[i].request != list[j].request {
      var a, b := list[i].spec.storage, list[j].spec.storage;
      assert a in store.pending && b in store.pending && a != b;
    }
  }

  // ---------- answers to what is pending ----------

  /** The request answered is pending as it was offered. */
  predicate Pends(requested: Inflight, r: Response, pending: map<StorageId, Enrollment>) {
    var k := Trim(r.request);
    && k in requested && requested[k].request == k
    && requested[k].spec.storage in pending && pending[requested[k].spec.storage] == requested[k]
  }

  /** From the `i`-th on. */
  ghost predicate AllPending(rs: seq<Response>, requested: Inflight, i: nat, pending: map<StorageId, Enrollment>) {
    forall j :: i <= j < |rs| ==> Pends(requested, rs[j], pending)
  }

  /** Whatever is answered of the offers just made is pending as it was offered. */
  lemma OffersArePending(store: Store, list: seq<Enrollment>, inflight: Inflight, rs: seq<Response>)
    requires store.Filed() && ListsBut(list, store.pending, AgentStorage) && Indexes(inflight, list)
    requires WellFormed(rs, inflight)
    ensures AllPending(rs, inflight, 0, store.pending)
  {
    hide Trim;
    forall j | 0 <= j < |rs| ensures Pends(inflight, rs[j], store.pending) {
      assert Answers(rs[j], inflight);
      var e := inflight[Trim(rs[j].request)];
      var i :| 0 <= i < |list| && list[i] == e;
      assert e.spec.storage in store.pending && store.pending[e.spec.storage] == e;
    }
  }

  /** The request answered is quarantined under the code given. */
  predicate RefusedIn(quarantined: Quarantine, requested: Inflight, r: Response) {
    Trim(r.request) in requested &&
    var e := requested[Trim(r.request)];
    var k := if OfAgent(e) then (AgentStorage, Trim(e.request)) else (e.spec.storage, Trim(r.request));
    k in quarantined && quarantined[k] == Trim(r.error)
  }

  /** The certificate issued is in use where it was asked for. */
  predicate UsedIn(actives: map<StorageId, ActiveRead>, requested: Inflight, r: Response) {
    Trim(r.request) in requested &&
    var id := requested[Trim(r.request)].spec.storage;
    id in actives && actives[id] == Active(r.issued)
  }

  function Storages(rs: seq<Response>, requested: Inflight): set<StorageId> {
    set r | r in rs && Trim(r.request) in requested :: requested[Trim(r.request)].spec.storage
  }

  lemma NoneAnswered(requested: Inflight, pending: map<StorageId, Enrollment>)
    ensures Storages([], requested) == {} && pending - {} == pending
  {
  }

  lemma MoreStorages(rs: seq<Response>, i: nat, requested: Inflight, pending: map<StorageId, Enrollment>)
    requires i < |rs| && Trim(rs[i].request) in requested
    ensures
      var id := requested[Trim(rs[i].request)].spec.storage;
      && Storages(rs[..i + 1], requested) == Storages(rs[..i], requested) + {id}
      && pending - Storages(rs[..i], requested) - {id} == pending - Storages(rs[..i + 1], requested)
  {
    hide Trim;
    assert rs[..i + 1] == rs[..i] + [rs[i]];
  }

  lemma NextIsPending(rs: seq<Response>, requested: Inflight, i: nat, pending: map<StorageId, Enrollment>)
    requires AllPending(rs, requested, i, pending) && WellFormed(rs, requested) && i < |rs|
    ensures Pends(requested, rs[i], pending)
    ensures AllPending(rs, requested, i + 1, pending - {requested[Trim(rs[i].request)].spec.storage})
  {
    hide Trim;
    forall j | i + 1 <= j < |rs| ensures Pends(requested, rs[j], pending - {requested[Trim(rs[i].request)].spec.storage}) {
      assert Pends(requested, rs[i], pending) && Pends(requested, rs[j], pending);
      assert Trim(rs[i].request) != Trim(rs[j].request);
    }
  }

  lemma StaysRefused(before: Quarantine, after: Quarantine, requested: Inflight, r: Response)
    requires OnlyAdds(after, before) && RefusedIn(before, requested, r)
    ensures RefusedIn(after, requested, r)
  {
    hide Trim;
  }

  lemma RefusedNow(quarantined: Quarantine, requested: Inflight, r: Response)
    requires Trim(r.request) in requested
    requires
      var e := requested[Trim(r.request)];
      var k := if OfAgent(e) then (AgentStorage, Trim(e.request)) else (e.spec.storage, Trim(r.request));
      k in quarantined && quarantined[k] == Trim(r.error)
    ensures RefusedIn(quarantined, requested, r)
  {
  }

  lemma UsedNow(actives: map<StorageId, ActiveRead>, requested: Inflight, r: Response)
    requires Trim(r.request) in requested
    requires ActiveIn(actives, requested[Trim(r.request)].spec.storage) == Active(r.issued)
    ensures UsedIn(actives, requested, r)
  {
  }

  lemma StaysUsed(rs: seq<Response>, i: nat, j: nat, requested: Inflight, pending: map<StorageId, Enrollment>,
                  before: map<StorageId, ActiveRead>, after: map<StorageId, ActiveRead>)
    requires j < i < |rs| && Trim(rs[i].request) in requested && UsedIn(before, requested, rs[j])
    requires
      var id := requested[Trim(rs[i].request)].spec.storage;
      id in pending - Storages(rs[..i], requested) && SameExcept(after, before, id)
    ensures UsedIn(after, requested, rs[j])
  {
    hide Trim, SameExcept;
    assert rs[j] in rs[..i];
    SameElsewhere(after, before, requested[Trim(rs[i].request)].spec.storage, requested[Trim(rs[j].request)].spec.storage);
  }

  lemma FrontIsWellFormed(rs: seq<Response>, inflight: Inflight)
    requires WellFormed(rs, inflight) && rs != []
    ensures WellFormed(rs[..|rs| - 1], inflight) && Answers(rs[|rs| - 1], inflight)
    ensures forall r :: r in rs[..|rs| - 1] ==> Trim(r.request) != Trim(rs[|rs| - 1].request)
  {
    hide Trim, Answers;
  }

  lemma AppendWellFormed(rs: seq<Response>, last: Response, inflight: Inflight)
    requires WellFormed(rs, inflight) && Answers(last, inflight)
    requires forall r :: r in rs ==> Trim(r.request) != Trim(last.request)
    ensures WellFormed(rs + [last], inflight)
  {
    hide Trim, Answers;
    forall i | 0 <= i < |rs| ensures Trim(rs[i].request) != Trim(last.request) {
      assert rs[i] in rs;
    }
  }

  /** The rejections and the certificates of a well-formed reply are about different requests. */
  lemma {:induction false} PartsAreWellFormed(rs: seq<Response>, inflight: Inflight)
    requires WellFormed(rs, inflight)
    ensures WellFormed(Rejected(rs), inflight) && WellFormed(Issued(rs), inflight)
    ensures forall r :: r in Rejected(rs) ==> r in rs && Trim(r.error) != ""
    ensures forall r :: r in Issued(rs) ==> r in rs && Trim(r.error) == ""
  {
    hide Trim, Answers, WellFormed;
    if rs == [] {
      EmptyIsWellFormed(inflight);
    } else {
      var front, last := rs[..|rs| - 1], rs[|rs| - 1];
      FrontIsWellFormed(rs, inflight);
      PartsAreWellFormed(front, inflight);
      if Trim(last.error) != "" {
        AppendWellFormed(Rejected(front), last, inflight);
        assert Issued(rs) == Issued(front);
      } else {
        AppendWellFormed(Issued(front), last, inflight);
        assert Rejected(rs) == Rejected(front);
      }
    }
  }

  lemma PartsArePending(rs: seq<Response>, requested: Inflight, pending: map<StorageId, Enrollment>)
    requires WellFormed(rs, requested) && AllPending(rs, requested, 0, pending)
    ensures AllPending(Issued(rs), requested, 0, pending) && AllPending(Rejected(rs), requested, 0, pending)
    ensures AllPending(Rejected(rs), requested, 0, pending - Storages(Issued(rs), requested))
  {
    hide Trim, Rejected, Issued;
    PartsAreWellFormed(rs, requested);
    var bad, good := Rejected(rs), Issued(rs);
    forall r | r in rs ensures Pends(requested, r, pending) {
      var i :| 0 <= i < |rs| && rs[i] == r;
    }
    forall i | 0 <= i < |bad| ensures Pends(requested, bad[i], pending - Storages(good, requested)) {
      assert bad[i] in bad && Pends(requested, bad[i], pending);
      forall g | g in good ensures requested[Trim(g.request)].spec.storage != requested[Trim(bad[i].request)].spec.storage {
        assert Pends(requested, g, pending);
        var a :| 0 <= a < |rs| && rs[a] == g;
        var b :| 0 <= b < |rs| && rs[b] == bad[i];
        assert a != b && Trim(rs[a].request) != Trim(rs[b].request);
      }
    }
  }

  lemma OnlyPendingIsListed(list: seq<Enrollment>, pending: map<StorageId, Enrollment>, id: StorageId)
    requires ListsBut(list, pending, AgentStorage) && id !in pending
    ensures !Listed(list, id)
  {
  }

  /** Every credential in use can be read, and every schedule kept can be written again. */
  ghost predicate Kept(actives: map<StorageId, ActiveRead>, renewals: map<StorageId, Renewal>) {
    (forall id :: id in actives ==> !actives[id].ActiveUnreadable?) && Savable(renewals)
  }

  lemma KeptWith(actives: map<StorageId, ActiveRead>, before: map<StorageId, Renewal>, after: map<StorageId, Renewal>,
                 id: StorageId, c: Credential, used: map<StorageId, ActiveRead>)
    requires Kept(actives, before) && (Savable(before) ==> Savable(after))
    requires used == actives || used == actives[id := Active(c)]
    ensures Kept(used, after)
  {
  }

  lemma KeptCanBeSaved(actives: map<StorageId, ActiveRead>, renewals: map<StorageId, Renewal>, id: StorageId)
    requires Kept(actives, renewals) && id in renewals
    ensures CanSave(renewals[id])
  {
  }

  lemma KeptStays(actives: map<StorageId, ActiveRead>, before: map<StorageId, Renewal>, after: map<StorageId, Renewal>)
    requires Kept(actives, before) && (Savable(before) ==> Savable(after))
    ensures Kept(actives, after)
  {
  }

  /** Every listener to be projected has a name that a certificate can be for. */
  ghost predicate Named(ls: seq<Listener>, agent: string) {
    forall l :: l in ls && Eligible(l, agent) ==> l.endpoints.Some?
  }

  lemma NamedHaveTargets(ls: seq<Listener>, domain: string, agent: string, renewals: map<StorageId, Renewal>,
                         actives: map<StorageId, ActiveRead>)
    requires Kept(actives, renewals) && Named(ls, agent)
    ensures TargetsOf(ls, domain, agent).Some? && Workable(TargetsOf(ls, domain, agent).value, renewals, actives)
  {
    hide CanSave, Trim, Eligible, Projects;
    TargetsAre(ls, domain, agent);
    var targets := TargetsOf(ls, domain, agent).value;
    forall id | id in targets
      ensures Writable(ActiveIn(actives, id), ScheduleIn(renewals, id), targets[id])
    {
      EligibleIsNamed(targets[id].listener, agent);
    }
  }

  lemma EligibleIsNamed(l: Listener, agent: string)
    requires Eligible(l, agent)
    ensures Trim(l.identity) != ""
  {
  }

  lemma NothingToList(list: seq<Enrollment>, pending: map<StorageId, Enrollment>)
    requires ListsPending(list, pending) && AgentStorage !in pending
    ensures !AgentListed(list)
  {
  }

  class Handler {
    const store: Store
    const agent: Agent
    const listeners: Listeners

    constructor (store: Store, agent: Agent, listeners: Listeners)
      requires agent.store == store && listeners.store == store && agent.id == listeners.agent
      ensures this.store == store && this.agent == agent && this.listeners == listeners
      ensures Wired()
    {
      this.store, this.agent, this.listeners := store, agent, listeners;
    }

    predicate Wired() {
      agent.store == store && listeners.store == store && agent.id == listeners.agent
    }

    ghost predicate Valid()
      reads store
    {
      Wired() && store.Bounded() && store.Filed()
    }

    /** Nothing but a fault can stop a heartbeat: the agent and its listeners have names, everything kept can be read and
        written again, nothing foreign is in the agent's storage, and a rejection cut short can be completed. */
    ghost predicate Sane()
      reads store, listeners
    {
      Wired() && agent.Sane() && Kept(store.actives, store.renewals) && Named(listeners.projected, listeners.agent)
    }

    lemma ListenersSound(list: seq<Enrollment>)
      requires Wired() && !store.security.SecurityUnreadable?
      requires Kept(store.actives, store.renewals) && Named(listeners.projected, listeners.agent)
      requires ListsBut(list, store.pending, AgentStorage)
      ensures listeners.Sound(list)
    {
      hide ListsBut, CanSave, Trim, Eligible, Workable, Kept, Named, TargetsOf, Projects;
      if store.security.Known? {
        NamedHaveTargets(listeners.projected, store.security.value.domain, listeners.agent, store.renewals, store.actives);
      }
    }

    /** What is pending, with no rejection half done. */
    method Collect() returns (r: Result<seq<Enrollment>>)
      requires Valid()
      modifies agent`inflight, store
      ensures Valid() && agent.OnlyAgent() && agent.OnlyForgets()
      ensures r.Ok? ==> NoIntent(store.renewals) && ListsPending(r.value, store.pending)
      ensures r.Ok? ==> agent.Kept() == PkiAgent.Settled(old(agent.Kept()))
      ensures r.Ok? && AgentStorage !in old(store.pending) ==> !AgentListed(r.value)
      ensures if r.Ok? then old(agent.Sane()) ==> agent.Sane() else store.struck || !old(agent.Sane())
    {
      hide OwnRequests, Others, OnlyAdds, Savable, ListsFrom, DiskOf, PkiRejectionThreads.Completed, CanSave, Trim;
      AddsNothing(store.quarantined);
      if agent.Sane() {
        agent.SaneSettles();
      }
      var pending := store.ListPending();
      if pending.Err? {
        return Err;
      }
      if AgentStorage !in store.pending {
        NothingToList(pending.value, store.pending);
      }
      r := agent.Reconcile(pending.value);
    }

    /** And with the agent's own enrollment decided on. */
    method Gather(now: int) returns (r: Result<seq<Enrollment>>)
      requires Valid()
      modifies agent`inflight, store
      ensures Valid() && agent.OnlyAgent() && agent.OnlyForgets()
      ensures r.Ok? ==> NoIntent(store.renewals) && ListsBut(r.value, store.pending, AgentStorage)
      ensures r.Ok? && AgentListed(r.value) ==> Offerable(store.renewals, AgentStorage, now)
      ensures r.Ok? && AgentStorage !in old(store.pending) ==>
                (AgentListed(r.value) <==>
                 agent.Renews(store.ActiveOf(AgentStorage), store.security, PkiAgent.Settled(old(agent.Kept())), now))
      ensures r.Err? ==> store.struck || !old(agent.Sane())
    {
      hide OwnRequests, Others, OnlyAdds, Savable, ListsBut, ListsFrom, CanSave, Trim, Offerable, EnrollmentMismatch,
        Agent.Renews, Agent.Offers, CredentialDue, SignerRetired, PkiAgent.OwnsCredential;
      var list := Collect();
      if list.Err? {
        return Err;
      }
      ghost var quarantined := store.quarantined;
      r := agent.EnsureRenewalPending(list.value, now);
      AddsMore(store.quarantined, quarantined, old(store.quarantined));
    }

    /** Builds the offers of the next heartbeat. No offer has a rejection half done, none of the agent's is
        demanded back or early, and the requests now in flight are exactly the ones offered: all that is pending, but
        perhaps for the agent's own. With none pending, the agent's and each listener's is offered exactly when it is to be
        renewed. Only a fault makes it fail on a sane store. */
    method PrepareHeartbeat(now: int) returns (r: Result<seq<Enrollment>>)
      requires Valid()
      modifies agent`inflight, store
      ensures Valid()
      ensures r.Ok? ==> Indexes(agent.inflight, r.value) && NoIntent(store.renewals)
      ensures r.Ok? ==> ListsBut(r.value, store.pending, AgentStorage)
      ensures r.Ok? && AgentListed(r.value) ==> Offerable(store.renewals, AgentStorage, now)
      ensures r.Ok? && AgentStorage !in old(store.pending) ==>
                (AgentListed(r.value) <==>
                 agent.Renews(store.ActiveOf(AgentStorage), store.security, PkiAgent.Settled(old(agent.Kept())), now))
      ensures r.Ok? && store.security.Known? ==>
                && var s := store.security.value;
                && var targets := TargetsOf(listeners.projected, s.domain, agent.id);
                && targets.Some?
                && forall id :: id in targets.value && id !in old(store.pending) ==>
                     (Listed(r.value, id) <==>
                      listeners.Fills(ActiveIn(store.actives, id), ScheduleIn(old(store.renewals), id), targets.value[id], s, now))
      ensures r.Err? ==> agent.OnlyForgets() && (store.struck || !old(Sane()))
    {
      hide OwnRequests, Others, SameExcept, OnlyAdds, Savable, Kept, Named, ListsBut, CanSave, Trim, Listeners.Ensured, TargetsOf,
        Listeners.Fills, Agent.Renews, OwnIds, Indexes;
      if agent.id == "" {
        return Err;
      }
      ghost var renewals, pending := store.renewals, store.pending;
      var list := Gather(now);
      if list.Err? {
        return Err;
      }
      ghost var kept, listed := store.renewals, store.pending;
      if old(Sane()) {
        KeptStays(store.actives, renewals, store.renewals);
        ListenersSound(list.value);
      }
      var offered := listeners.EnsureRenewalsPending(list.value, now);
      if offered.Err? {
        return Err;
      }
      if store.security.Known? {
        OfferedOnTime(offered.value, list.value, renewals, kept, pending, listed, store.security.value, store.renewals, now);
      }
      ListedHaveOwnIds(offered.value, store);
      var index := Index(offered.value);
      if index.None? {
        return Err;
      }
      agent.inflight := index.value;
      r := offered;
    }

    /** The listener part, seen from before the agent's. */
    lemma OfferedOnTime(result: seq<Enrollment>, list: seq<Enrollment>, renewals: map<StorageId, Renewal>,
                        kept: map<StorageId, Renewal>, pending: map<StorageId, Enrollment>,
                        listed: map<StorageId, Enrollment>, s: Security, after: map<StorageId, Renewal>, now: int)
      requires Wired() && TargetsOf(listeners.projected, s.domain, agent.id).Some?
      requires listeners.Ensured(result, list, TargetsOf(listeners.projected, s.domain, agent.id).value, kept, after,
                                 store.actives, s, now)
      requires SameExcept(kept, renewals, AgentStorage) && SameExcept(listed, pending, AgentStorage)
      requires ListsBut(list, listed, AgentStorage)
      ensures
        var targets := TargetsOf(listeners.projected, s.domain, agent.id).value;
        && (forall id :: id in targets && id !in pending ==>
             (Listed(result, id) <==>
              listeners.Fills(ActiveIn(store.actives, id), ScheduleIn(renewals, id), targets[id], s, now)))
        && (AgentListed(result) <==> AgentListed(list))
    {
      hide SameExcept, ListsBut, Listeners.Ensured, Listeners.Fills, TargetsOf;
      var targets := TargetsOf(listeners.projected, s.domain, agent.id).value;
      forall id | id in targets && id !in pending
        ensures Listed(result, id) <==>
                  listeners.Fills(ActiveIn(store.actives, id), ScheduleIn(renewals, id), targets[id], s, now)
      {
        SameElsewhere(kept, renewals, AgentStorage, id);
        SameElsewhere(listed, pending, AgentStorage, id);
        OnlyPendingIsListed(list, listed, id);
        listeners.EnsuredAt(result, list, targets, kept, after, store.actives, s, now, id);
      }
      listeners.EnsuredAt(result, list, targets, kept, after, store.actives, s, now, AgentStorage);
    }

    /** After a reply the same pass runs once more, without offering anything. */
    method EnsureRenewalsAfterReply(now: int) returns (ok: bool)
      requires Valid()
      modifies agent`inflight, store
      ensures Valid() && agent.OnlyForgets()
      ensures store.actives == old(store.actives) && OnlyAdds(store.quarantined, old(store.quarantined))
      ensures old(store.struck) ==> store.struck
      ensures old(Sane()) ==> store.struck || ok
      ensures ok ==> NoIntent(store.renewals)
    {
      hide OwnRequests, Others, OnlyAdds, Savable, Kept, Named, ListsBut, ListsFrom, CanSave, Trim, Offerable, EnrollmentMismatch,
        Listeners.Ensured, TargetsOf, Agent.Renews, Agent.Offers;
      AddsNothing(store.quarantined);
      ghost var sane, renewals := Sane(), store.renewals;
      var pending := store.ListPending();
      if pending.Err? {
        return false;
      }
      var list := agent.EnsureRenewalPending(pending.value, now);
      if list.Err? {
        return false;
      }
      ghost var quarantined := store.quarantined;
      if sane {
        KeptStays(store.actives, renewals, store.renewals);
        ListenersSound(list.value);
      }
      var offered := listeners.EnsureRenewalsPending(list.value, now);
      AddsMore(store.quarantined, quarantined, old(store.quarantined));
      ok := offered.Ok?;
    }

    /** What a rejection of the agent's enrollment makes of its schedule. */
    function AfterRejection(state: Renewal, code: string, now: int): Renewal {
      var counted := CountFailure(state);
      if code == "owner_mismatch" then MustReenroll(counted, code)
      else if counted.reenroll then counted
      else counted.(reason := "", nextAttempt := Some(now + Backoff(counted.failures)))
    }

    lemma AfterRejectionIsBounded(state: Renewal, code: string, now: int)
      requires state.failures <= FAILURE_LIMIT
      ensures AfterRejection(state, code, now).failures <= FAILURE_LIMIT
    {
    }

    lemma AfterRejectionCanBeSaved(state: Renewal, code: string, now: int, i: Rejection)
      requires CanSave(state) && i.request != "" && i.code != ""
      ensures CanSave(AfterRejection(state, code, now).(rejection := Some(i)))
      ensures CanSave(AfterRejection(state, code, now).(rejection := None))
    {
      hide Backoff;
    }

    /** Sane, and with no rejection half done. */
    ghost predicate Fit()
      reads store, listeners
    {
      Sane() && NoIntent(store.renewals)
    }

    /** The enrollment is pending as it was offered. */
    predicate Pending(e: Enrollment)
      reads store
    {
      e.spec.storage in store.pending && store.pending[e.spec.storage] == e
    }

    /** What settling one request leaves: everything else that was pending, and a store no less fit. */
    twostate predicate SettledOne(e: Enrollment)
      reads store, listeners
    {
      store.pending == old(store.pending) - {e.spec.storage} && Fit()
    }

    /** The schedule in force, or one to start from. */
    method CurrentState(now: int) returns (r: Result<Renewal>)
      requires Valid()
      modifies store`calls, store`struck
      ensures old(store.struck) ==> store.struck
      ensures r.Ok? ==> r.value.failures <= FAILURE_LIMIT
      ensures r.Ok? ==>
                r.value ==
                  if AgentStorage in store.renewals then store.renewals[AgentStorage]
                  else if store.ActiveOf(AgentStorage).Active? then
                    InForce(None, store.ActiveOf(AgentStorage).value, agent.id, agent.jitter)
                  else Fallback(agent.id, if store.security.Known? then store.security.value.domain else "", now)
      ensures r.Err? ==> store.struck || !old(Sane())
      ensures r.Ok? && old(Sane()) ==> CanSave(r.value)
    {
      hide OwnRequests, Others, Named, Trim, FingerprintOf, CredentialDue;
      var read := store.LoadRenewal(AgentStorage);
      if read.Err? {
        return Err;
      }
      if read.value.Some? {
        return Ok(read.value.value);
      }
      var active := store.ActiveOf(AgentStorage);
      if store.security.SecurityUnreadable? || active.ActiveUnreadable? {
        return Err;
      }
      if active.Active? {
        return Ok(RenewalFor(active.value, agent.id, agent.jitter));
      }
      r := Ok(Fallback(agent.id, if store.security.Known? then store.security.value.domain else "", now));
    }

    /** The agent's own enrollment is rejected in three writes; its schedule backs off, or, when the owner does
        not match, demands re-enrollment. */
    method RejectAgent(e: Enrollment, code: string, now: int) returns (ok: bool)
      requires Valid()
      modifies agent`inflight, store
      ensures Valid() && agent.OnlyAgent() && agent.OnlyForgets()
      ensures ok ==> (AgentStorage, Trim(e.request)) in store.quarantined
                     && store.quarantined[(AgentStorage, Trim(e.request))] == Trim(code)
      ensures ok && old(AgentStorage in store.renewals) ==>
                && AgentStorage in store.renewals
                && store.renewals[AgentStorage] == AfterRejection(old(store.renewals)[AgentStorage], code, now).(rejection := None)
      ensures old(Fit()) && OfAgent(e) && old(Pending(e)) && Trim(code) != "" ==> store.struck || (ok && SettledOne(e))
    {
      hide OwnRequests, Others, Savable, Named, Trim, PkiRejectionThreads.Committed, DiskOf, Backoff, AfterRejection, CanSave;
      AddsNothing(store.quarantined);
      var state := CurrentState(now);
      if state.Err? {
        return false;
      }
      if Fit() && OfAgent(e) && Pending(e) && Trim(code) != "" {
        PendingIsRejectable(e);
        AfterRejectionCanBeSaved(state.value, code, now, Rejection(Trim(e.request), Trim(code)));
      }
      AfterRejectionIsBounded(state.value, code, now);
      ok := agent.CommitRejection(e, code, AfterRejection(state.value, code, now));
    }

    /** What is pending can be rejected, under any code. */
    lemma PendingIsRejectable(e: Enrollment)
      requires store.Filed() && Pending(e)
      ensures e.request != "" && Trim(e.request) == e.request && (e.spec.storage, e.request) !in store.quarantined
    {
      hide Trim;
    }

    /** Any other enrollment is quarantined; a listener's schedule backs off. */
    method RejectOther(e: Enrollment, request: string, code: string, now: int) returns (ok: bool)
      requires Valid()
      modifies store
      ensures Valid() && OnlyAdds(store.quarantined, old(store.quarantined))
      ensures store.actives == old(store.actives) && store.security == old(store.security)
      ensures old(store.struck) ==> store.struck
      ensures ok ==> (e.spec.storage, request) in store.quarantined && store.quarantined[(e.spec.storage, request)] == code
      ensures ok && e.spec.kind.ListenerKind? && old(e.spec.storage in store.renewals) ==>
                && e.spec.storage in store.renewals
                && store.renewals[e.spec.storage] == BackedOff(old(store.renewals)[e.spec.storage], now)
      ensures old(Fit()) && e.request == request && old(Pending(e)) ==> store.struck || (ok && SettledOne(e))
    {
      hide OwnRequests, Others, OnlyAdds, Savable, Kept, Named, Trim, BackedOff, CanSave;
      if Pending(e) {
        PendingIsRejectable(e);
      }
      var missing;
      ok, missing := store.Reject(e.spec.storage, request, code);
      if !ok || !e.spec.kind.ListenerKind? {
        return;
      }
      ok := BackOff(e, now);
    }

    /** A listener's schedule, or one to start from, counts a failure and backs off. */
    method BackOff(e: Enrollment, now: int) returns (ok: bool)
      requires Valid()
      modifies store`calls, store`struck, store`renewals
      ensures Valid() && (old(store.struck) ==> store.struck)
      ensures ok ==>
                store.renewals == old(store.renewals)[e.spec.storage :=
                  BackedOff(if old(e.spec.storage in store.renewals) then old(store.renewals)[e.spec.storage]
                            else Fallback(listeners.ScheduleName(e.spec), e.spec.domain, now), now)]
      ensures old(Fit()) ==> store.struck || (ok && Fit())
    {
      hide OwnRequests, Savable, Kept, Named, Trim, BackedOff, Fallback, CanSave;
      ghost var fit, renewals := Fit(), store.renewals;
      var read := store.LoadRenewal(e.spec.storage);
      if read.Err? {
        return false;
      }
      var state := if read.value.Some? then read.value.value
                   else Fallback(listeners.ScheduleName(e.spec), e.spec.domain, now);
      FallbackIsFresh(listeners.ScheduleName(e.spec), e.spec.domain, now);
      if fit {
        listeners.NameIsNotBlank(e.spec);
        if read.value.Some? {
          KeptCanBeSaved(store.actives, store.renewals, e.spec.storage);
        }
        BackedOffCanBeSaved(state, now);
      }
      BackedOffIsBounded(state, now);
      ok := store.SaveRenewal(e.spec.storage, BackedOff(state, now));
      if fit {
        KeptStays(store.actives, renewals, store.renewals);
      }
    }

    /** Records one rejection: the enrollment is quarantined under the code given and its schedule follows. Only a fault
        stops the rejection of what is pending. */
    method RejectOne(e: Enrollment, response: Response, now: int) returns (ok: bool)
      requires Valid()
      modifies agent`inflight, store
      ensures Valid() && OnlyAdds(store.quarantined, old(store.quarantined))
      ensures store.actives == old(store.actives) && (old(store.struck) ==> store.struck)
      ensures agent.OnlyForgets() && (ok ==> Trim(response.request) !in agent.inflight)
      ensures ok ==>
                var k := if OfAgent(e) then (AgentStorage, Trim(e.request)) else (e.spec.storage, Trim(response.request));
                k in store.quarantined && store.quarantined[k] == Trim(response.error)
      ensures ok && OfAgent(e) && old(AgentStorage in store.renewals) ==>
                && AgentStorage in store.renewals
                && store.renewals[AgentStorage] ==
                     AfterRejection(old(store.renewals)[AgentStorage], Trim(response.error), now).(rejection := None)
      ensures ok && !OfAgent(e) && e.spec.kind.ListenerKind? && old(e.spec.storage in store.renewals) ==>
                && e.spec.storage in store.renewals
                && store.renewals[e.spec.storage] == BackedOff(old(store.renewals)[e.spec.storage], now)
      ensures old(Fit()) && e.request == Trim(response.request) && old(Pending(e)) && Trim(response.error) != "" ==>
                store.struck || (ok && SettledOne(e))
    {
      hide OwnRequests, Others, OnlyAdds, Savable, Kept, Named, Trim, BackedOff, AfterRejection;
      TrimTwice(response.error);
      if OfAgent(e) {
        ok := RejectAgent(e, Trim(response.error), now);
      } else {
        ok := RejectOther(e, Trim(response.request), Trim(response.error), now);
      }
      if !ok {
        return;
      }
      agent.inflight := agent.inflight - {Trim(response.request)};
    }

    method RecordRejections(rs: seq<Response>, requested: Inflight, now: int) returns (ok: bool)
      requires Valid() && WellFormed(rs, requested) && forall r :: r in rs ==> Trim(r.error) != ""
      modifies agent`inflight, store
      ensures Valid() && OnlyAdds(store.quarantined, old(store.quarantined)) && store.actives == old(store.actives)
      ensures agent.OnlyForgets() && (old(store.struck) ==> store.struck)
      ensures ok ==> forall r :: r in rs ==> Trim(r.request) !in agent.inflight
      ensures ok ==> forall r :: r in rs ==> RefusedIn(store.quarantined, requested, r)
      ensures old(Fit() && AllPending(rs, requested, 0, store.pending)) ==> store.struck || (ok && Fit())
    {
      hide OwnRequests, Others, OnlyAdds, AllPending, RefusedIn, Savable, Kept, Named, AfterRejection, BackedOff, Trim;
      ok := true;
      ghost var fit := Fit() && AllPending(rs, requested, 0, store.pending);
      AddsNothing(store.quarantined);
      for i := 0 to |rs|
        invariant Valid() && OnlyAdds(store.quarantined, old(store.quarantined)) && store.actives == old(store.actives)
        invariant agent.OnlyForgets() && (old(store.struck) ==> store.struck)
        invariant ok ==> forall j :: 0 <= j < i ==> Trim(rs[j].request) !in agent.inflight
        invariant ok ==> forall j :: 0 <= j < i ==> RefusedIn(store.quarantined, requested, rs[j])
        invariant fit ==> store.struck || (ok && Fit() && AllPending(rs, requested, i, store.pending))
      {
        assert rs[i] in rs;
        var e := requested[Trim(rs[i].request)];
        ghost var pending, quarantined := store.pending, store.quarantined;
        if AllPending(rs, requested, i, pending) {
          NextIsPending(rs, requested, i, pending);
        }
        var done := RejectOne(e, rs[i], now);
        AddsMore(store.quarantined, quarantined, old(store.quarantined));
        forall j | 0 <= j < i && RefusedIn(quarantined, requested, rs[j])
          ensures RefusedIn(store.quarantined, requested, rs[j])
        {
          StaysRefused(quarantined, store.quarantined, requested, rs[j]);
        }
        if done {
          RefusedNow(store.quarantined, requested, rs[i]);
        }
        ok := ok && done;
      }
    }

    /** The schedule name of an enrollment. */
    function NameFor(e: Enrollment): string {
      if e.spec.kind.ListenerKind? then listeners.ScheduleName(e.spec) else agent.id
    }

    /** Puts one issued certificate into use and starts its schedule afresh, due at its jittered time. Only a fault stops
        the certificate of a pending request. */
    method ActivateOne(e: Enrollment, response: Response) returns (ok: bool)
      requires Valid()
      modifies agent`inflight, store
      ensures Valid() && agent.OnlyForgets() && store.quarantined == old(store.quarantined)
      ensures SameExcept(store.actives, old(store.actives), e.spec.storage) && (old(store.struck) ==> store.struck)
      ensures ok ==> && store.ActiveOf(e.spec.storage) == Active(response.issued)
                     && e.spec.storage in store.renewals
                     && store.renewals[e.spec.storage] == InForce(None, response.issued, NameFor(e), agent.jitter)
                     && e.request !in agent.inflight
      ensures old(Fit()) && old(Pending(e)) ==> store.struck || (ok && SettledOne(e))
    {
      hide OwnRequests, Others, SameExcept, Savable, Kept, Named, CredentialDue, FingerprintOf, Trim, RenewalFor, InForce, CanSave;
      ghost var fit, renewals, actives := Fit() && Pending(e), store.renewals, store.actives;
      listeners.NameIsNotBlank(e.spec);
      if fit {
        HealthyCanBeSaved(response.issued, NameFor(e), agent.jitter);
      }
      InForceIs(None, response.issued, NameFor(e), agent.jitter);
      ok := store.Activate(e.spec.storage, e.request, response.issued);
      if !ok {
        return;
      }
      ok := store.SaveRenewal(e.spec.storage, RenewalFor(response.issued, NameFor(e), agent.jitter));
      if !ok {
        return;
      }
      if fit {
        KeptWith(actives, renewals, store.renewals, e.spec.storage, response.issued, store.actives);
      }
      agent.inflight := agent.inflight - {e.request};
    }

    method ActivateAll(rs: seq<Response>, requested: Inflight) returns (ok: bool)
      requires Valid() && WellFormed(rs, requested)
      modifies agent`inflight, store
      ensures Valid() && agent.OnlyForgets() && store.quarantined == old(store.quarantined)
      ensures old(store.struck) ==> store.struck
      ensures old(Fit() && AllPending(rs, requested, 0, store.pending)) ==>
                store.struck
                || (ok && Fit() && store.pending == old(store.pending) - Storages(rs, requested)
                    && forall r :: r in rs ==> UsedIn(store.actives, requested, r))
    {
      hide OwnRequests, Others, AllPending, UsedIn, Storages, Savable, Kept, Named, InForce, Trim, Fit, SameExcept;
      ok := true;
      ghost var fit := Fit() && AllPending(rs, requested, 0, store.pending);
      NoneAnswered(requested, store.pending);
      for i := 0 to |rs|
        invariant Valid() && agent.OnlyForgets() && store.quarantined == old(store.quarantined)
        invariant old(store.struck) ==> store.struck
        invariant fit ==>
                    store.struck
                    || (ok && Fit() && AllPending(rs, requested, i, store.pending)
                        && store.pending == old(store.pending) - Storages(rs[..i], requested)
                        && forall j :: 0 <= j < i ==> UsedIn(store.actives, requested, rs[j]))
      {
        assert rs[i] in rs;
        var e := requested[Trim(rs[i].request)];
        ghost var pending, actives := store.pending, store.actives;
        MoreStorages(rs, i, requested, old(store.pending));
        if AllPending(rs, requested, i, pending) {
          NextIsPending(rs, requested, i, pending);
        }
        var done := ActivateOne(e, rs[i]);
        forall j | 0 <= j < i && pending == old(store.pending) - Storages(rs[..i], requested) && e.spec.storage in pending
                   && UsedIn(actives, requested, rs[j])
          ensures UsedIn(store.actives, requested, rs[j])
        {
          StaysUsed(rs, i, j, requested, old(store.pending), actives, store.actives);
        }
        if done {
          UsedNow(store.actives, requested, rs[i]);
        }
        ok := ok && done;
      }
      assert rs[..|rs|] == rs;
    }

    /** Nothing durable and nothing in flight is different. */
    twostate predicate Untouched()
      reads agent, store
    {
      && agent.inflight == old(agent.inflight) && store.pending == old(store.pending) && store.quarantined == old(store.quarantined)
      && store.renewals == old(store.renewals) && store.security == old(store.security)
      && store.actives == old(store.actives)
    }

    /** The reply can be acted on: its status is known, its answers are well formed, and certificates come with a security
        snapshot. */
    ghost predicate Acceptable(reply: Reply, requested: Inflight) {
      && !reply.status.UnknownStatus? && WellFormed(reply.credentials, requested)
      && (!reply.status.DegradedStatus? && Issued(reply.credentials) != [] ==> reply.security.Some?)
    }

    /** Acts on the reply to a heartbeat. A reply of unknown status, with a malformed or unrequested answer, or
        with certificates but no security snapshot changes nothing at all. Any other is acted on in full if what it answers
        is still pending and the store is fit, unless a fault strikes: what it rejects is quarantined under the codes given,
        and, if it is not degraded, the certificates it brings are in use. */
    method ApplyHeartbeat(reply: Reply, now: int) returns (ok: bool)
      requires Valid()
      modifies agent`inflight, store
      ensures Valid()
      ensures reply.status.UnknownStatus? || !WellFormed(reply.credentials, old(agent.inflight)) ==> !ok && Untouched()
      ensures !reply.status.DegradedStatus? && Issued(reply.credentials) != [] && reply.security.None? ==> !ok && Untouched()
      ensures ok ==> forall r :: r in Rejected(reply.credentials) ==> Trim(r.request) !in agent.inflight
      ensures ok ==> forall r :: r in Rejected(reply.credentials) ==> RefusedIn(store.quarantined, old(agent.inflight), r)
      ensures old(Fit() && Acceptable(reply, agent.inflight) && AllPending(reply.credentials, agent.inflight, 0, store.pending)) ==>
                store.struck
                || (ok && (!reply.status.DegradedStatus? ==>
                             forall r :: r in Issued(reply.credentials) ==> UsedIn(store.actives, old(agent.inflight), r)))
    {
      hide OwnRequests, Others, OnlyAdds, Savable, Kept, Named, AllPending, WellFormed, Rejected, Issued, RefusedIn, UsedIn,
        Storages, Trim, Fit;
      AddsNothing(store.quarantined);
      if reply.status.UnknownStatus? {
        return false;
      }
      var requested := agent.inflight;
      var wellFormed, issued, rejected := Classify(reply.credentials, requested);
      if !wellFormed {
        return false;
      }
      PartsAreWellFormed(reply.credentials, requested);
      ghost var fit := Fit() && AllPending(reply.credentials, requested, 0, store.pending);
      if fit {
        PartsArePending(reply.credentials, requested, store.pending);
      }
      if reply.security.Some? {
        var applied := ApplySecurity(reply.security.value);
        if !applied {
          return false;
        }
      }
      if reply.status.DegradedStatus? {
        ok := RejectAndRenew(rejected, requested, now);
        return;
      }
      if issued != [] && reply.security.None? {
        return false;
      }
      ok := ActivateAll(issued, requested);
      var done := RejectAndRenew(rejected, requested, now);
      ok := ok && done;
    }

    method ApplySecurity(s: Security) returns (ok: bool)
      requires Valid()
      modifies store
      ensures Valid() && (old(store.struck) ==> store.struck)
      ensures store.pending == old(store.pending) && store.quarantined == old(store.quarantined)
              && store.renewals == old(store.renewals) && store.actives == old(store.actives)
      ensures ok ==> store.security == Known(s)
      ensures if ok then old(Fit()) ==> Fit() else store.struck
    {
      hide OwnRequests, Kept, Named, Trim, CanSave;
      ok := store.ApplySecurity(s);
    }

    method RejectAndRenew(rs: seq<Response>, requested: Inflight, now: int) returns (ok: bool)
      requires Valid() && WellFormed(rs, requested) && forall r :: r in rs ==> Trim(r.error) != ""
      modifies agent`inflight, store
      ensures Valid() && agent.OnlyForgets() && store.actives == old(store.actives)
      ensures old(store.struck) ==> store.struck
      ensures ok ==> forall r :: r in rs ==> Trim(r.request) !in agent.inflight
      ensures ok ==> forall r :: r in rs ==> RefusedIn(store.quarantined, requested, r)
      ensures old(Fit() && AllPending(rs, requested, 0, store.pending)) ==> store.struck || ok
    {
      hide OwnRequests, Others, OnlyAdds, Savable, Kept, Named, AllPending, WellFormed, RefusedIn, Trim;
      ok := RecordRejections(rs, requested, now);
      if !ok {
        return;
      }
      ghost var quarantined := store.quarantined;
      ok := EnsureRenewalsAfterReply(now);
      forall r | r in rs ensures RefusedIn(store.quarantined, requested, r) {
        StaysRefused(quarantined, store.quarantined, requested, r);
      }
    }
  }
}

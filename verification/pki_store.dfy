/** The agent's durable PKI store as the heartbeat handler sees it: pending enrollments, quarantined ones,
    renewal schedules, active credentials and the trusted security snapshot. Any call may fail; a write
    that reports failure may have taken effect or not. */
module PkiStore {
  import opened Sequences
  import opened Strings
  import opened PkiTimes

  datatype StorageId = AgentStorage | ListenerStorage(listener: int) | OtherStorage(name: string)

  datatype Kind = AgentKind | ListenerKind | OtherKind(text: string)

  datatype Spec = Spec(
    storage: StorageId, domain: string, agent: string, kind: Kind, listener: int, purpose: string,
    dns: seq<string>, ips: seq<string>)

  /** A pending enrollment: what was asked for, under which request id. */
  datatype Enrollment = Enrollment(request: string, spec: Spec)

  datatype Fingerprint =
    | OfCredential(identity: string, certificate: string, publicKey: string, authority: string, generation: int)
    | OfUnavailable(identity: string, domain: string)
    | OfProjection(identity: string, domain: string)

  datatype Rejection = Rejection(request: string, code: string)

  datatype Renewal = Renewal(
    identity: string, fingerprint: Fingerprint, due: int, failures: nat, nextAttempt: Option<int>,
    reenroll: bool, reason: string, rejection: Option<Rejection>)

  datatype Credential = Credential(
    expected: Spec, manifestDomain: string, identity: string, certificate: string, publicKey: string,
    authority: string, generation: int, notBefore: int, notAfter: int)

  datatype Root = Root(authority: string, generation: int, status: string)

  datatype Security = Security(domain: string, issued: int, dated: bool, roots: seq<Root>)

  datatype SecurityRead = Known(value: Security) | SecurityInvalid | SecurityUnreadable

  datatype Invalidity = Expired | NotYetValid | SignerLifecycle | OtherReason(text: string) | NoReason

  datatype ActiveRead = Active(value: Credential) | NoActive | Invalid(why: Invalidity) | ActiveUnreadable

  datatype Fault = NoFault | NotApplied | ReportLost

  datatype Result<+T> = Ok(value: T) | Err

  const FAILURE_LIMIT := 32

  /** What the store insists on before it writes a schedule. */
  predicate CanSave(r: Renewal) {
    && r.identity != "" && (r.reenroll <==> r.reason != "")
    && (r.rejection.Some? ==> r.rejection.value.request != "" && r.rejection.value.code != "")
  }

  /** Every schedule kept was fit to be written. */
  ghost predicate Savable(renewals: map<StorageId, Renewal>) {
    forall id :: id in renewals ==> CanSave(renewals[id])
  }

  /** What a map says of the other keys. */
  function Others<V>(m: map<StorageId, V>, id: StorageId): map<StorageId, V> {
    m - {id}
  }

  /** Two maps that agree at every other key. */
  ghost predicate SameExcept<V>(a: map<StorageId, V>, b: map<StorageId, V>, id: StorageId) {
    Others(a, id) == Others(b, id)
  }

  lemma SameElsewhere<V>(a: map<StorageId, V>, b: map<StorageId, V>, id: StorageId, k: StorageId)
    requires SameExcept(a, b, id) && k != id
    ensures (k in a <==> k in b) && (k in a ==> a[k] == b[k])
  {
    assert (k in a <==> k in a - {id}) && (k in b <==> k in b - {id});
    assert k in a ==> (a - {id})[k] == (b - {id})[k];
  }

  type Quarantine = map<(StorageId, string), string>

  /** Whatever was quarantined still is, under the same code. */
  ghost predicate OnlyAdds(after: Quarantine, before: Quarantine) {
    forall k :: k in before ==> k in after && after[k] == before[k]
  }

  lemma AddsNothing(q: Quarantine)
    ensures OnlyAdds(q, q)
  {
  }

  lemma AddsMore(c: Quarantine, b: Quarantine, a: Quarantine)
    requires OnlyAdds(b, a) && OnlyAdds(c, b)
    ensures OnlyAdds(c, a)
  {
  }

  /** Of the ids ever to be drawn, all different and none blank, the first `requests` are in use; no two pending
      requests share one, and no request is both pending and quarantined. */
  ghost predicate OwnRequests(pending: map<StorageId, Enrollment>, quarantined: Quarantine, requests: nat, draw: nat -> string) {
    && (forall j, k :: j != k ==> draw(j) != draw(k))
    && (forall k :: draw(k) != "" && Trim(draw(k)) == draw(k))
    && (forall id :: id in pending ==> pending[id].request != "" && Trim(pending[id].request) == pending[id].request)
    && (forall a, b :: a in pending && b in pending && a != b ==> pending[a].request != pending[b].request)
    && (forall id :: id in pending ==> (id, pending[id].request) !in quarantined)
    && (forall id, k :: id in pending && k >= requests ==> pending[id].request != draw(k))
    && (forall id, r, k :: (id, r) in quarantined && k >= requests ==> r != draw(k))
  }

  lemma FewerAreOwn(pending: map<StorageId, Enrollment>, quarantined: Quarantine, requests: nat, draw: nat -> string,
                    id: StorageId)
    requires OwnRequests(pending, quarantined, requests, draw)
    ensures OwnRequests(pending - {id}, quarantined, requests, draw)
  {
  }

  lemma MovedAreOwn(pending: map<StorageId, Enrollment>, quarantined: Quarantine, requests: nat, draw: nat -> string,
                    id: StorageId, code: string)
    requires OwnRequests(pending, quarantined, requests, draw) && id in pending
    ensures OwnRequests(pending - {id}, quarantined[(id, pending[id].request) := code], requests, draw)
  {
  }

  lemma DrawnIsOwn(pending: map<StorageId, Enrollment>, quarantined: Quarantine, requests: nat, draw: nat -> string,
                   spec: Spec)
    requires OwnRequests(pending, quarantined, requests, draw)
    ensures OwnRequests(pending[spec.storage := Enrollment(draw(requests), spec)], quarantined, requests + 1, draw)
  {
  }

  lemma QuarantinedIsNotPending(pending: map<StorageId, Enrollment>, quarantined: Quarantine, requests: nat,
                                draw: nat -> string, id: StorageId, request: string)
    requires OwnRequests(pending, quarantined, requests, draw) && (id, request) in quarantined
    ensures id in pending ==> pending[id].request != request
  {
  }

  class Store {
    var pending: map<StorageId, Enrollment>
    var quarantined: Quarantine
    var renewals: map<StorageId, Renewal>
    var security: SecurityRead
    var actives: map<StorageId, ActiveRead>
    var calls: nat
    var requests: nat
    /** Whether any call so far met a fault. */
    ghost var struck: bool
    const faults: nat -> Fault
    /** Request ids are drawn at random. */
    const draw: nat -> string

    constructor (faults: nat -> Fault, draw: nat -> string)
      requires forall j, k :: j != k ==> draw(j) != draw(k)
      requires forall k :: draw(k) != "" && Trim(draw(k)) == draw(k)
      ensures pending == map[] && renewals == map[] && quarantined == map[]
      ensures Filed() && Bounded() && !struck
    {
      this.faults, this.draw := faults, draw;
      pending, quarantined, renewals, security, actives := map[], map[], map[], SecurityInvalid, map[];
      calls, requests, struck := 0, 0, false;
    }

    /** Failure counts never pass the limit the handler counts to. */
    predicate Bounded()
      reads this
    {
      forall id :: id in renewals ==> renewals[id].failures <= FAILURE_LIMIT
    }

    /** Each pending enrollment is filed under its own storage identity, and under an id of its own. */
    ghost predicate Filed()
      reads this
    {
      && (forall id :: id in pending ==> pending[id].spec.storage == id)
      && OwnRequests(pending, quarantined, requests, draw)
    }

    function ActiveOf(id: StorageId): ActiveRead
      reads this
    {
      if id in actives then actives[id] else NoActive
    }

    method NextFault() returns (f: Fault)
      modifies this`calls, this`struck
      ensures calls == old(calls) + 1 && f == faults(old(calls))
      ensures struck <==> old(struck) || !f.NoFault?
    {
      f := faults(calls);
      calls := calls + 1;
      struck := struck || !f.NoFault?;
    }

    method LoadRenewal(id: StorageId) returns (r: Result<Option<Renewal>>)
      modifies this`calls, this`struck
      ensures r.Ok? ==> r.value == if id in renewals then Some(renewals[id]) else None
      ensures (old(struck) ==> struck) && (r.Err? ==> struck)
    {
      var f := NextFault();
      if !f.NoFault? {
        return Err;
      }
      r := Ok(if id in renewals then Some(renewals[id]) else None);
    }

    method SaveRenewal(id: StorageId, state: Renewal) returns (ok: bool)
      modifies this`calls, this`struck, this`renewals
      ensures ok ==> renewals == old(renewals)[id := state]
      ensures renewals == old(renewals) || (CanSave(state) && renewals == old(renewals)[id := state])
      ensures SameExcept(renewals, old(renewals), id)
      ensures Savable(old(renewals)) ==> Savable(renewals)
      ensures (old(struck) ==> struck) && (!ok ==> struck || !CanSave(state))
    {
      var f := NextFault();
      if !CanSave(state) || f.NotApplied? {
        return false;
      }
      renewals := renewals[id := state];
      ok := f.NoFault?;
    }

    /** A request that is quarantined already, under this code; or one that is pending. */
    predicate CanReject(id: StorageId, request: string, code: string)
      reads this
    {
      if (id, request) in quarantined then quarantined[(id, request)] == code
      else id in pending && pending[id].request == request
    }

    /** Quarantines a pending request. Repeating the same rejection succeeds and does nothing; another code, or
        a request that is not pending, is refused. Success means the request is quarantined under the code
        and no longer pending. */
    method Reject(id: StorageId, request: string, code: string) returns (ok: bool, missing: bool)
      modifies this`calls, this`struck, this`pending, this`quarantined
      ensures ok ==> old(CanReject(id, request, code))
      ensures ok ==> (id, request) in quarantined && quarantined[(id, request)] == code
      ensures ok && old(Filed()) ==> id !in pending || pending[id].request != request
      ensures (id, request) in old(quarantined) || !old(CanReject(id, request, code)) ==>
                pending == old(pending) && quarantined == old(quarantined)
      ensures if ok && (id, request) !in old(quarantined) then pending == old(pending) - {id}
              else pending == old(pending) || pending == old(pending) - {id}
      ensures quarantined == if pending == old(pending) then old(quarantined) else old(quarantined)[(id, request) := code]
      ensures OnlyAdds(quarantined, old(quarantined))
      ensures missing ==> !ok && id !in pending && pending == old(pending)
      ensures (old(struck) ==> struck) && (!ok ==> struck || !old(CanReject(id, request, code)))
      ensures !struck ==> (missing <==> (id, request) !in old(quarantined) && id !in old(pending))
      ensures SameExcept(pending, old(pending), id)
      ensures old(Filed()) ==> Filed()
    {
      hide OwnRequests;
      if Filed() && (id, request) in quarantined {
        QuarantinedIsNotPending(pending, quarantined, requests, draw, id, request);
      }
      if Filed() && id in pending && pending[id].request == request {
        MovedAreOwn(pending, quarantined, requests, draw, id, code);
      }
      var f := NextFault();
      ok, missing := false, false;
      if f.NotApplied? {
        return;
      }
      if (id, request) in quarantined {
        return quarantined[(id, request)] == code && f.NoFault?, false;
      }
      if id !in pending {
        return false, true;
      }
      if pending[id].request != request {
        return;
      }
      pending := pending - {id};
      quarantined := quarantined[(id, request) := code];
      ok := f.NoFault?;
    }

    /** Installs a security snapshot, unless the store refuses it. */
    method ApplySecurity(s: Security) returns (ok: bool)
      modifies this`calls, this`struck, this`security
      ensures ok ==> security == Known(s)
      ensures security == old(security) || security == Known(s)
      ensures (old(struck) ==> struck) && (!ok ==> struck)
    {
      var f := NextFault();
      if f.NotApplied? {
        return false;
      }
      security := Known(s);
      ok := f.NoFault?;
    }

    /** Puts the certificate of a pending request into use; the request is then no longer pending. */
    method Activate(id: StorageId, request: string, c: Credential) returns (ok: bool)
      modifies this`calls, this`struck, this`pending, this`actives
      ensures ok ==> ActiveOf(id) == Active(c) && id !in pending
      ensures pending == old(pending) || pending == old(pending) - {id}
      ensures actives == old(actives) || actives == old(actives)[id := Active(c)]
      ensures SameExcept(actives, old(actives), id)
      ensures (old(struck) ==> struck)
              && (!ok ==> struck || id !in old(pending) || old(pending)[id].request != request)
      ensures SameExcept(pending, old(pending), id)
      ensures old(Filed()) ==> Filed()
    {
      hide OwnRequests;
      if Filed() {
        FewerAreOwn(pending, quarantined, requests, draw, id);
      }
      var f := NextFault();
      if f.NotApplied? || id !in pending || pending[id].request != request {
        return false;
      }
      pending := pending - {id};
      actives := actives[id := Active(c)];
      ok := f.NoFault?;
    }

    /** Every pending request, in whatever order. */
    method ListPending() returns (r: Result<seq<Enrollment>>)
      requires Filed()
      modifies this`calls, this`struck
      ensures r.Ok? ==> ListsPending(r.value, pending)
      ensures (old(struck) ==> struck) && (r.Err? ==> struck)
    {
      hide OwnRequests, ListsFrom;
      var f := NextFault();
      if !f.NoFault? {
        return Err;
      }
      var list := ListAll(pending);
      r := Ok(list);
    }

    /** Creates the pending request of a storage identity, or returns it if it is for the same thing. */
    method Prepare(spec: Spec) returns (r: Result<Enrollment>)
      modifies this`calls, this`struck, this`pending, this`requests
      ensures r.Ok? ==> r.value.spec == spec && spec.storage in pending && pending[spec.storage] == r.value
      ensures pending == old(pending)
              || (spec.storage !in old(pending) && spec.storage in pending && pending[spec.storage].spec == spec
                  && pending == old(pending)[spec.storage := pending[spec.storage]])
      ensures SameExcept(pending, old(pending), spec.storage)
      ensures (old(struck) ==> struck)
              && (r.Err? ==> struck || (spec.storage in old(pending) && old(pending)[spec.storage].spec != spec))
      ensures old(Filed()) ==> Filed()
    {
      hide OwnRequests;
      var f := NextFault();
      if f.NotApplied? {
        return Err;
      }
      if spec.storage in pending {
        if pending[spec.storage].spec != spec || !f.NoFault? {
          return Err;
        }
        return Ok(pending[spec.storage]);
      }
      if Filed() {
        DrawnIsOwn(pending, quarantined, requests, draw, spec);
      }
      pending := pending[spec.storage := Enrollment(draw(requests), spec)];
      requests := requests + 1;
      r := if f.NoFault? then Ok(pending[spec.storage]) else Err;
    }
  }

  /** `list` has every pending enrollment of these storage identities exactly once. */
  ghost predicate ListsFrom(list: seq<Enrollment>, pending: map<StorageId, Enrollment>, ids: set<StorageId>) {
    && (forall i :: 0 <= i < |list| ==>
         list[i].spec.storage in ids && list[i].spec.storage in pending && pending[list[i].spec.storage] == list[i])
    && (forall id :: id in ids ==> id in pending && pending[id] in list)
    && (forall i, j :: 0 <= i < j < |list| ==> list[i].spec.storage != list[j].spec.storage)
  }

  ghost predicate ListsPending(list: seq<Enrollment>, pending: map<StorageId, Enrollment>) {
    ListsFrom(list, pending, pending.Keys)
  }

  /** `list` has pending enrollments only, each storage identity once, and all of them but perhaps that of `id`. */
  ghost predicate ListsBut(list: seq<Enrollment>, pending: map<StorageId, Enrollment>, id: StorageId) {
    && (forall i :: 0 <= i < |list| ==>
         list[i].spec.storage in pending && pending[list[i].spec.storage] == list[i])
    && (forall k :: k in pending && k != id ==> pending[k] in list)
    && (forall i, j :: 0 <= i < j < |list| ==> list[i].spec.storage != list[j].spec.storage)
  }

  lemma ListedInFull(list: seq<Enrollment>, pending: map<StorageId, Enrollment>, id: StorageId)
    requires ListsPending(list, pending)
    ensures ListsBut(list, pending, id)
  {
    assert forall k :: k in pending ==> k in pending.Keys;
  }

  method ListAll(pending: map<StorageId, Enrollment>) returns (list: seq<Enrollment>)
    requires forall id :: id in pending ==> pending[id].spec.storage == id
    ensures ListsPending(list, pending)
  {
    hide ListsFrom;
    list := [];
    var left := pending.Keys;
    NoneListed(pending);
    ghost var listed: set<StorageId> := {};
    while left != {}
      invariant listed !! left && listed + left == pending.Keys && ListsFrom(list, pending, listed)
      decreases |left|
    {
      var id :| id in left;
      assert id in pending.Keys;
      OneMoreListed(list, pending, listed, id);
      list := list + [pending[id]];
      listed, left := listed + {id}, left - {id};
    }
    assert listed == pending.Keys;
  }

  lemma NoneListed(pending: map<StorageId, Enrollment>)
    ensures ListsFrom([], pending, {})
  {
  }

  lemma OneMoreListed(list: seq<Enrollment>, pending: map<StorageId, Enrollment>, ids: set<StorageId>, id: StorageId)
    requires ListsFrom(list, pending, ids) && id in pending && id !in ids && pending[id].spec.storage == id
    ensures ListsFrom(list + [pending[id]], pending, ids + {id})
  {
    var more := list + [pending[id]];
    forall other | other in ids + {id} ensures other in pending && pending[other] in more {
      assert other in ids ==> pending[other] in list;
      assert more[|list|] == pending[id];
    }
  }

  // ---------- schedules ----------

  function FingerprintOf(c: Credential): Fingerprint {
    OfCredential(Trim(c.identity), Trim(c.certificate), Trim(c.publicKey), Trim(c.authority), c.generation)
  }

  function IdentityOf(c: Credential, schedule: string): string {
    if Trim(c.identity) != "" then Trim(c.identity)
    else if Trim(c.expected.agent) != "" then Trim(c.expected.agent)
    else Trim(schedule)
  }

  function Healthy(identity: string, fingerprint: Fingerprint, due: int): Renewal {
    Renewal(identity, fingerprint, due, 0, None, false, "", None)
  }

  /** `jitter` draws the position in the renewal window. */
  function RenewalFor(c: Credential, schedule: string, jitter: (string, Fingerprint) -> nat): (r: Renewal)
    ensures r.failures == 0 && r.nextAttempt.None? && !r.reenroll && r.reason == "" && r.rejection.None?
  {
    var f := FingerprintOf(c);
    Healthy(IdentityOf(c, schedule), f, CredentialDue(c.notBefore, c.notAfter, jitter(Trim(schedule), f)))
  }

  function Fallback(schedule: string, domain: string, now: int): Renewal {
    Healthy(Trim(schedule), OfUnavailable(Trim(schedule), Trim(domain)), now)
  }

  predicate SameCredential(a: Renewal, b: Renewal) {
    a.identity == b.identity && a.fingerprint == b.fingerprint
  }

  /** The schedule in force for a credential: the one kept, if it is for this credential; otherwise a new one, without
      failures, due at the credential's jittered time. */
  function InForce(kept: Option<Renewal>, c: Credential, schedule: string, jitter: (string, Fingerprint) -> nat): Renewal {
    var identity, f := IdentityOf(c, schedule), FingerprintOf(c);
    if kept.Some? && kept.value.identity == identity && kept.value.fingerprint == f then kept.value
    else Renewal(identity, f, CredentialDue(c.notBefore, c.notAfter, jitter(Trim(schedule), f)), 0, None, false, "", None)
  }

  lemma InForceIs(kept: Option<Renewal>, c: Credential, schedule: string, jitter: (string, Fingerprint) -> nat)
    ensures InForce(kept, c, schedule, jitter) ==
              if kept.Some? && SameCredential(kept.value, RenewalFor(c, schedule, jitter)) then kept.value
              else RenewalFor(c, schedule, jitter)
    ensures Trim(schedule) != "" ==> InForce(None, c, schedule, jitter).identity != ""
  {
  }

  /** When it is due: by its own time, or, if the signer is retired, by the lifecycle time if that comes first. */
  function DueTime(r: Renewal, c: Credential, s: Security, now: int, digest: nat): int {
    var lifecycle := LifecycleDue(s.issued, s.dated, now, digest);
    if SignerRetired(c, s.roots) && lifecycle < r.due then lifecycle else r.due
  }

  /** The schedule is for this very credential. */
  predicate ScheduleFor(kept: Option<Renewal>, c: Credential, schedule: string) {
    kept.Some? && kept.value.identity == IdentityOf(c, schedule) && kept.value.fingerprint == FingerprintOf(c)
  }

  /** With its signer trusted, a credential is due when the schedule kept for it says, and without one at its jittered
      time; a retired signer can only bring that forward, to the lifecycle time. */
  lemma DueTimeIs(kept: Option<Renewal>, c: Credential, s: Security, schedule: string,
                  jitter: (string, Fingerprint) -> nat, now: int, digest: nat)
    ensures
      var due := DueTime(InForce(kept, c, schedule, jitter), c, s, now, digest);
      var own := if ScheduleFor(kept, c, schedule) then kept.value.due
                 else CredentialDue(c.notBefore, c.notAfter, jitter(Trim(schedule), FingerprintOf(c)));
      && (!SignerRetired(c, s.roots) ==> due == own)
      && (SignerRetired(c, s.roots) ==>
           && due <= own && due <= LifecycleDue(s.issued, s.dated, now, digest)
           && (due == own || due == LifecycleDue(s.issued, s.dated, now, digest)))
    ensures !ScheduleFor(kept, c, schedule) ==> MayTry(Some(InForce(kept, c, schedule, jitter)), now)
  {
    hide CredentialDue, LifecycleDue, FingerprintOf, IdentityOf, SignerRetired;
  }

  /** Nothing kept forbids a new enrollment: it is not demanded back, and no retry is being waited for. */
  predicate MayTry(kept: Option<Renewal>, now: int) {
    kept.Some? ==> !kept.value.reenroll && (kept.value.nextAttempt.Some? ==> kept.value.nextAttempt.value <= now)
  }

  function CountFailure(r: Renewal): Renewal {
    if r.failures < FAILURE_LIMIT then r.(failures := r.failures + 1) else r
  }

  function BackedOff(r: Renewal, now: int): Renewal {
    var counted := CountFailure(r);
    counted.(nextAttempt := Some(now + Backoff(counted.failures)))
  }

  lemma BackedOffCanBeSaved(r: Renewal, now: int)
    requires CanSave(r)
    ensures CanSave(BackedOff(r, now))
  {
  }

  lemma BackedOffIsBounded(r: Renewal, now: int)
    requires r.failures <= FAILURE_LIMIT
    ensures BackedOff(r, now).failures <= FAILURE_LIMIT && BackedOff(r, now).rejection == r.rejection
  {
  }

  lemma HealthyCanBeSaved(c: Credential, schedule: string, jitter: (string, Fingerprint) -> nat)
    requires Trim(schedule) != ""
    ensures CanSave(RenewalFor(c, schedule, jitter))
  {
    hide CredentialDue, FingerprintOf, Trim;
  }

  lemma FallbackIsFresh(schedule: string, domain: string, now: int)
    ensures Fallback(schedule, domain, now).failures == 0 && Fallback(schedule, domain, now).rejection.None?
    ensures Trim(schedule) != "" ==> CanSave(Fallback(schedule, domain, now))
  {
    hide Trim;
  }

  function MustReenroll(r: Renewal, reason: string): Renewal {
    r.(reenroll := true, reason := reason, nextAttempt := None)
  }

  predicate BackingOff(r: Renewal, now: int) {
    r.nextAttempt.Some? && now < r.nextAttempt.value
  }

  /** Nothing in the schedule speaks against offering an enrollment now. */
  predicate Offerable(renewals: map<StorageId, Renewal>, id: StorageId, now: int) {
    id in renewals ==> !renewals[id].reenroll && !BackingOff(renewals[id], now)
  }

  /** The signer is retired unless its root is still trusted as active or prepared. */
  predicate SignerRetired(c: Credential, roots: seq<Root>) {
    roots == [] ||
    if roots[0].authority == c.authority && roots[0].generation == c.generation then
      Trim(roots[0].status) != "active" && Trim(roots[0].status) != "prepared"
    else SignerRetired(c, roots[1..])
  }
}

/** One executor working through one invocation: the store object, the calls it makes, and the proof that
    an invocation left undisturbed is a run of the interleaved system. */
module ActionExecutor {
  import opened Sequences
  import opened Strings
  import opened Actions
  import opened ActionRuns
  import opened ActionGuarantees

  /** Everything that is not the executor's own doing. */
  datatype World = World(
    now: int, duration: int, claimFault: Fault, commitFault: Fault, reconciled: Reconciled, executed: Executed)

  class Store {
    var records: Table

    constructor ()
      ensures records == map[]
    {
      records := map[];
    }

    /** Creates the pending record, takes an expired matching one over, or returns what is there. */
    method ClaimOperation(operation: string, fingerprint: Fingerprint, token: nat, now: int, lease: int)
      returns (record: Record, granted: bool)
      modifies this
      ensures granted == Grants(old(records), operation, fingerprint, now)
      ensures record == Claim(old(records), operation, fingerprint, token, now, lease)
      ensures records == old(records)[operation := record]
    {
      granted := false;
      if operation in records {
        record := records[operation];
        if record.fingerprint == fingerprint && record.state.Pending? && Expired(record, now) {
          record := record.(token := Some(token), lease := Some(lease));
          granted := true;
        }
      } else {
        record := Record(operation, fingerprint, Pending, Some(token), Some(lease), None);
        granted := true;
      }
      records := records[operation := record];
    }

    /** Writes the terminal record if the claim is still the given one. */
    method CompleteOperation(record: Record, token: nat) returns (ok: bool)
      modifies this
      ensures ok == Completes(old(records), record.operation, token)
      ensures records == if ok then old(records)[record.operation := record] else old(records)
    {
      ok := false;
      if record.operation in records {
        var current := records[record.operation];
        if current.state.Pending? && current.token == Some(token) {
          records := records[record.operation := record];
          ok := true;
        }
      }
    }
  }

  // ---------- the specification of an invocation ----------

  function CommitOf(t: Table, record: Record, token: nat, fault: Fault): (Table, Result) {
    if fault.NotApplied? || !Completes(t, record.operation, token) then (t, Failure)
    else (t[record.operation := record], if fault.ReplyLost? then Failure else Answer(ResponseOf(record)))
  }

  function ClaimPhase(t: Table, request: Request, token: nat, w: World): (p: Phase)
    ensures p.Done? || p.Granted?
  {
    var op, fp := request.operation, FingerprintOf(request);
    var record := Claim(t, op, fp, token, w.now, w.now + Duration(w.duration));
    if w.claimFault.ReplyLost? then Done(Failure) else AfterClaim(fp, token, record, Grants(t, op, fp, w.now))
  }

  function ReconcilePhase(p: Phase, w: World): Phase {
    if p.Granted? then AfterReconcile(p.record, w.reconciled) else p
  }

  function ExecutePhase(p: Phase, w: World): Phase {
    if p.Cleared? then AfterExecute(p.record, w.executed) else p
  }

  function TableAfterClaim(t: Table, request: Request, token: nat, w: World): Table {
    t[request.operation := Claim(t, request.operation, FingerprintOf(request), token, w.now, w.now + Duration(w.duration))]
  }

  function FinalPhase(t: Table, request: Request, token: nat, w: World): (p: Phase)
    ensures p.Done? || p.Committing?
  {
    ExecutePhase(ReconcilePhase(ClaimPhase(t, request, token, w), w), w)
  }

  function Invoked(t: Table, request: Request, token: nat, w: World): (Table, Result) {
    if !ValidRequest(request) || w.claimFault.NotApplied? then (t, Failure)
    else
      var p := FinalPhase(t, request, token, w);
      var u := TableAfterClaim(t, request, token, w);
      match p
      case Done(result) => (u, result)
      case Committing(record) => CommitOf(u, record, token, w.commitFault)
      case _ => (u, Failure)
  }

  // ---------- the invocation ----------

  method CommitRecord(store: Store, record: Record, token: nat, fault: Fault) returns (result: Result)
    modifies store
    ensures (store.records, result) == CommitOf(old(store.records), record, token, fault)
  {
    if fault.NotApplied? {
      return Failure;
    }
    var ok := store.CompleteOperation(record, token);
    if !ok || fault.ReplyLost? {
      return Failure;
    }
    result := Answer(ResponseOf(record));
  }

  method Invoke(store: Store, request: Request, token: nat, w: World) returns (result: Result)
    modifies store
    ensures (store.records, result) == Invoked(old(store.records), request, token, w)
  {
    hide ValidRequest, ValidRecord, TerminalRecord, ResponseOf, Grants, Claim;
    if !ValidRequest(request) {
      return Failure;
    }
    var fingerprint := FingerprintOf(request);
    var duration := if w.duration <= 0 then DEFAULT_LEASE else w.duration;
    if w.claimFault.NotApplied? {
      return Failure;
    }
    var record, granted := store.ClaimOperation(request.operation, fingerprint, token, w.now, w.now + duration);
    if w.claimFault.ReplyLost? {
      return Failure;
    }
    if !ValidRecord(record) {
      return Failure;
    }
    if record.fingerprint != fingerprint {
      return Failure;
    }
    if !granted {
      return Answer(ResponseOf(record));
    }
    if record.token != Some(token) {
      return Failure;
    }
    match w.reconciled {
      case ReconcileError => return Failure;
      case Handled(response) =>
        var terminal := TerminalRecord(record, response);
        if terminal.None? {
          return Failure;
        }
        result := CommitRecord(store, terminal.value, token, w.commitFault);
        return;
      case NotHandled =>
    }
    if w.executed.CutShort? {
      return Interrupted(ResponseOf(record));
    }
    record := record.(state := Succeeded, token := None, lease := None, error := None);
    if w.executed.Fails? {
      record := record.(state := Failed);
      if w.executed.error.Some? && ValidError(w.executed.error.value) {
        record := record.(error := w.executed.error);
      } else {
        record := record.(error := Some(RuntimeError(ERROR_INTERNAL, "action failed", false)));
      }
    }
    result := CommitRecord(store, record, token, w.commitFault);
  }

  /** Reads the record of an operation: absent operations are missing, an invalid record is an error. */
  method QueryOperation(store: Store, generation: string, operation: string) returns (r: Option<Response>)
    ensures r.Some? <==> PolicyIdentity(generation) && PolicyIdentity(operation)
                         && (operation in store.records ==> ValidRecord(store.records[operation]))
    ensures r.Some? && operation in store.records ==> r.value == ResponseOf(store.records[operation])
    ensures r.Some? && operation !in store.records ==> r.value == MissingResponse(operation)
  {
    if !PolicyIdentity(generation) || !PolicyIdentity(operation) {
      return None;
    }
    if operation !in store.records {
      return Some(MissingResponse(operation));
    }
    if !ValidRecord(store.records[operation]) {
      return None;
    }
    r := Some(ResponseOf(store.records[operation]));
  }

  // ---------- an invocation is a run ----------

  /** `s` runs to a state where executor `i` is at phase `p` and the store holds `t`. */
  ghost predicate Reaches(s: System, i: nat, t: Table, p: Phase, u: System, events: seq<Event>) {
    RunOf(s, events) && After(s, events) == u && i in u.executors && u.table == t && u.executors[i].phase == p
  }

  lemma Extend(s: System, i: nat, u: System, events: seq<Event>, e: Event)
    requires RunOf(s, events) && After(s, events) == u && Enabled(u, e) && i in Step(u, e).executors
    ensures Reaches(s, i, Step(u, e).table, Step(u, e).executors[i].phase, Step(u, e), events + [e])
  {
    hide Step, Enabled;
    RunOne(u, e);
    RunConcat(s, events, [e]);
  }

  lemma BeginAndClaim(s: System, i: nat, r: Request, w: World) returns (u: System, events: seq<Event>)
    requires i !in s.executors && ValidRequest(r) && !w.claimFault.NotApplied?
    ensures Reaches(s, i, TableAfterClaim(s.table, r, s.nextToken, w), ClaimPhase(s.table, r, s.nextToken, w), u, events)
    ensures u.executors[i].request == r && u.executors[i].token == s.nextToken
  {
    hide Reaches, AfterClaim, ValidRequest;
    var begin := Begin(i, r);
    var call := Call(i, w.now, w.duration, w.claimFault);
    RunOne(s, begin);
    u := Step(Step(s, begin), call);
    events := [begin] + [call];
    Extend(s, i, Step(s, begin), [begin], call);
  }

  lemma ReconcileAndExecute(s: System, i: nat, t: Table, u: System, events: seq<Event>, w: World)
    returns (v: System, more: seq<Event>)
    requires i in u.executors && Reaches(s, i, t, u.executors[i].phase, u, events)
    requires u.executors[i].phase.Granted? || u.executors[i].phase.Done?
    ensures Reaches(s, i, t, ExecutePhase(ReconcilePhase(u.executors[i].phase, w), w), v, more)
    ensures v.executors[i].request == u.executors[i].request && v.executors[i].token == u.executors[i].token
  {
    hide AfterReconcile, AfterExecute;
    v, more := u, events;
    if u.executors[i].phase.Granted? {
      var e := Reconcile(i, w.reconciled);
      Extend(s, i, v, more, e);
      v, more := Step(v, e), more + [e];
    }
    if v.executors[i].phase.Cleared? {
      var start := StartHandler(i);
      Extend(s, i, v, more, start);
      v, more := Step(v, start), more + [start];
      var e := Execute(i, w.executed);
      Extend(s, i, v, more, e);
      v, more := Step(v, e), more + [e];
    }
  }

  lemma FinishInvocation(s: System, i: nat, r: Request, w: World) returns (u: System, events: seq<Event>)
    requires i !in s.executors && ValidRequest(r) && !w.claimFault.NotApplied?
    ensures Reaches(s, i, Invoked(s.table, r, s.nextToken, w).0, Done(Invoked(s.table, r, s.nextToken, w).1), u, events)
  {
    hide ValidRequest, AfterReconcile, AfterExecute, AfterClaim, Claim, Grants, ReconcilePhase, ExecutePhase, ClaimPhase;
    u, events := BeginAndClaim(s, i, r, w);
    u, events := ReconcileAndExecute(s, i, TableAfterClaim(s.table, r, s.nextToken, w), u, events, w);
    assert u.executors[i].phase == FinalPhase(s.table, r, s.nextToken, w);
    if u.executors[i].phase.Committing? {
      var e := Complete(i, w.commitFault);
      Extend(s, i, u, events, e);
      u, events := Step(u, e), events + [e];
    }
  }

  /** An invocation that nobody disturbs is a run of the interleaved system with the same store and the
      same result, so all that is proved of runs holds of it. */
  lemma InvocationIsARun(s: System, i: nat, r: Request, w: World)
    requires i !in s.executors
    ensures exists u, events ::
              Reaches(s, i, Invoked(s.table, r, s.nextToken, w).0, Done(Invoked(s.table, r, s.nextToken, w).1), u, events)
  {
    hide ValidRequest, FinalPhase, TableAfterClaim, CommitOf;
    var (t, result) := Invoked(s.table, r, s.nextToken, w);
    if !ValidRequest(r) {
      RunOne(s, Begin(i, r));
      assert Reaches(s, i, t, Done(result), Step(s, Begin(i, r)), [Begin(i, r)]);
    } else if w.claimFault.NotApplied? {
      RunOne(s, Begin(i, r));
      var call := Call(i, w.now, w.duration, w.claimFault);
      Extend(s, i, Step(s, Begin(i, r)), [Begin(i, r)], call);
      assert Reaches(s, i, t, Done(result), Step(Step(s, Begin(i, r)), call), [Begin(i, r)] + [call]);
    } else {
      var u, events := FinishInvocation(s, i, r, w);
    }
  }

  // ---------- what an invocation answers ----------

  /** The claim of an operation is granted: it is new, or its matching pending record has outlived its lease. */
  predicate Free(t: Table, request: Request, now: int) {
    var op := request.operation;
    op in t ==>
      && t[op].fingerprint == FingerprintOf(request) && t[op].state.Pending?
      && (t[op].lease.None? || t[op].lease.value <= now)
  }

  function LeaseOf(w: World): int {
    w.now + if w.duration > 0 then w.duration else 120
  }

  predicate Faultless(w: World) {
    w.claimFault.NoFault? && w.commitFault.NoFault?
  }

  /** The pending record a granted claim leaves. */
  predicate IsClaim(r: Record, request: Request, token: nat, w: World) {
    r == Record(request.operation, FingerprintOf(request), Pending, Some(token), Some(LeaseOf(w)), None)
  }

  lemma GrantedClaim(t: Table, request: Request, token: nat, w: World)
    requires TableOk(t) && ValidRequest(request) && Free(t, request, w.now) && w.claimFault.NoFault?
    ensures request.operation in TableAfterClaim(t, request, token, w)
    ensures IsClaim(TableAfterClaim(t, request, token, w)[request.operation], request, token, w)
    ensures ClaimPhase(t, request, token, w) == Granted(TableAfterClaim(t, request, token, w)[request.operation])
    ensures Claimed(request, token, TableAfterClaim(t, request, token, w)[request.operation])
  {
    hide PolicyIdentity;
  }

  /** Committing under the current claim stores the record and answers with it. */
  lemma CommitGoesThrough(t: Table, r: Record, token: nat, request: Request, w: World)
    requires request.operation in t && IsClaim(t[request.operation], request, token, w) && r.operation == request.operation
    ensures CommitOf(t, r, token, NoFault) == (t[request.operation := r], Answer(ResponseOf(r)))
  {
  }

  /** A new or abandoned operation with nothing to reconcile, no faults, and a handler that is not cut short: the caller
      is answered accepted exactly when the handler succeeded, is told the handler's own error when that is well formed
      and an internal one otherwise, and the stored record says the same from then on. */
  lemma ExecutedInvocationAnswers(t: Table, request: Request, token: nat, w: World)
    requires TableOk(t) && ValidRequest(request) && Free(t, request, w.now) && Faultless(w)
    requires w.reconciled.NotHandled? && !w.executed.CutShort?
    ensures
      var (u, result) := Invoked(t, request, token, w);
      var op := request.operation;
      && result.Answer? && op in u && ResponseOf(u[op]) == result.response && u == t[op := u[op]] && Terminal(u[op])
      && result.response ==
           Response(w.executed.Succeeds?, op,
                    if w.executed.Succeeds? then None
                    else if w.executed.error.Some? && 1 <= w.executed.error.value.code <= 7 then w.executed.error
                    else Some(RuntimeError(7, "action failed", false)),
                    false, false)
  {
    hide ValidRequest, TableAfterClaim, ClaimPhase, Claimed, IsClaim, CommitOf, TableOk, PhaseOk;
    GrantedClaim(t, request, token, w);
    var v := TableAfterClaim(t, request, token, w);
    var record := v[request.operation];
    ExecuteAnswers(request, token, record, w.executed);
    ExecuteKeepsOperation(request, token, record, w.executed);
    var r := AfterExecute(record, w.executed).record;
    assert FinalPhase(t, request, token, w) == Committing(r);
    CommitGoesThrough(v, r, token, request, w);
    ClaimTouchesOne(t, request, token, w, r);
  }

  lemma ExecuteKeepsOperation(request: Request, token: nat, r: Record, outcome: Executed)
    requires Claimed(request, token, r) && !outcome.CutShort?
    ensures AfterExecute(r, outcome).record.operation == request.operation && Terminal(AfterExecute(r, outcome).record)
  {
    hide PolicyIdentity;
  }

  lemma ClaimTouchesOne(t: Table, request: Request, token: nat, w: World, r: Record)
    ensures TableAfterClaim(t, request, token, w)[request.operation := r] == t[request.operation := r]
  {
  }

  /** If the handler is cut short the caller learns that the operation is pending, and so it is, under this claim. */
  lemma InterruptedInvocationIsPending(t: Table, request: Request, token: nat, w: World)
    requires TableOk(t) && ValidRequest(request) && Free(t, request, w.now) && w.claimFault.NoFault?
    requires w.reconciled.NotHandled? && w.executed.CutShort?
    ensures
      var (u, result) := Invoked(t, request, token, w);
      && result == Interrupted(Response(false, request.operation, None, true, false))
      && request.operation in u && IsClaim(u[request.operation], request, token, w)
      && u == t[request.operation := u[request.operation]]
  {
    hide ValidRequest, TableAfterClaim, ClaimPhase, Claimed, IsClaim, CommitOf, TableOk, PhaseOk;
    GrantedClaim(t, request, token, w);
    ExecuteAnswers(request, token, TableAfterClaim(t, request, token, w)[request.operation], w.executed);
    SameClaim(t, request, token, w);
  }

  lemma SameClaim(t: Table, request: Request, token: nat, w: World)
    ensures
      var u := TableAfterClaim(t, request, token, w);
      request.operation in u && u == t[request.operation := u[request.operation]]
  {
  }

  /** A reconciled outcome is the answer, and is stored, exactly when it is one valid, terminal outcome of this very
      operation; otherwise the caller gets an error and the claim stands. */
  lemma ReconciledInvocationAnswers(t: Table, request: Request, token: nat, w: World)
    requires TableOk(t) && ValidRequest(request) && Free(t, request, w.now) && Faultless(w) && w.reconciled.Handled?
    ensures
      var (u, result) := Invoked(t, request, token, w);
      var response := w.reconciled.response;
      var op := request.operation;
      && op in u && u == t[op := u[op]]
      && if ValidResponse(response) && response.operation == op && !response.pending && !response.missing then
           result == Answer(response) && ResponseOf(u[op]) == response && Terminal(u[op])
         else result == Failure && IsClaim(u[op], request, token, w)
  {
    hide ValidRequest, TableAfterClaim, ClaimPhase, Claimed, IsClaim, CommitOf, TableOk, ValidResponse, TerminalRecord;
    GrantedClaim(t, request, token, w);
    var v := TableAfterClaim(t, request, token, w);
    var record := v[request.operation];
    SameClaim(t, request, token, w);
    ReconcileKeepsPhaseOk(request, token, record, w.reconciled);
    OneTerminalOutcome(w.reconciled.response);
    var p := AfterReconcile(record, w.reconciled);
    ReconciledEnds(record, w.reconciled);
    if p.Committing? {
      CommitGoesThrough(v, p.record, token, request, w);
      ClaimTouchesOne(t, request, token, w, p.record);
    }
  }

  lemma OneTerminalOutcome(r: Response)
    ensures ValidResponse(r) ==> (TerminalResponse(r) <==> !r.pending && !r.missing)
  {
    hide PolicyIdentity;
  }

  lemma ReconciledEnds(record: Record, outcome: Reconciled)
    requires outcome.Handled?
    ensures AfterReconcile(record, outcome).Committing? || AfterReconcile(record, outcome) == Done(Failure)
  {
    hide TerminalRecord;
  }

  /** An operation that is not free is left as it is: the same request is told its state, another request is refused. */
  lemma TakenInvocationAnswers(t: Table, request: Request, token: nat, w: World)
    requires TableOk(t) && ValidRequest(request) && !Free(t, request, w.now) && w.claimFault.NoFault?
    ensures
      var stored := t[request.operation];
      Invoked(t, request, token, w) ==
        (t, if stored.fingerprint == FingerprintOf(request) then Answer(ResponseOf(stored)) else Failure)
  {
    hide PolicyIdentity;
    assert t[request.operation := t[request.operation]] == t;
  }

  /** A claim or a commit whose reply is lost has taken effect all the same; the caller gets an error. A commit that
      never reaches the store leaves the claim standing. */
  lemma LostReplies(t: Table, request: Request, token: nat, w: World)
    requires TableOk(t) && ValidRequest(request) && Free(t, request, w.now) && w.commitFault.NoFault?
    ensures Invoked(t, request, token, w.(claimFault := ReplyLost)) == (TableAfterClaim(t, request, token, w), Failure)
    ensures
      var sound, lost := w.(claimFault := NoFault), w.(claimFault := NoFault, commitFault := ReplyLost);
      var (u, result) := Invoked(t, request, token, sound);
      Invoked(t, request, token, lost) == (u, if result.Answer? then Failure else result)
    ensures
      var sound, dropped := w.(claimFault := NoFault), w.(claimFault := NoFault, commitFault := NotApplied);
      var result := Invoked(t, request, token, sound).1;
      Invoked(t, request, token, dropped) ==
        (TableAfterClaim(t, request, token, w), if result.Answer? then Failure else result)
  {
    hide ValidRequest, TableAfterClaim, ClaimPhase, Claimed, IsClaim, TableOk, TerminalRecord, PhaseOk;
    var sound := w.(claimFault := NoFault);
    LostClaim(t, request, token, w);
    GrantedClaim(t, request, token, sound);
    var v := TableAfterClaim(t, request, token, w);
    assert TableAfterClaim(t, request, token, sound) == v by { ClaimIgnoresFaults(t, request, token, w, sound); }
    var record := v[request.operation];
    GrantedNeverAnswers(record, w);
    FinalIgnoresCommit(t, request, token, sound, sound.(commitFault := ReplyLost));
    FinalIgnoresCommit(t, request, token, sound, sound.(commitFault := NotApplied));
    var p := FinalPhase(t, request, token, sound);
    if p.Committing? {
      GrantedCommitsOwn(request, token, record, sound);
      CommitsOwnClaim(v, request, token, sound, p.record);
    }
  }

  lemma LostClaim(t: Table, request: Request, token: nat, w: World)
    requires ValidRequest(request)
    ensures Invoked(t, request, token, w.(claimFault := ReplyLost)) == (TableAfterClaim(t, request, token, w), Failure)
  {
    hide ValidRequest, AfterClaim, Claim, Grants;
  }

  lemma ClaimIgnoresFaults(t: Table, request: Request, token: nat, a: World, b: World)
    requires a.now == b.now && a.duration == b.duration
    ensures TableAfterClaim(t, request, token, a) == TableAfterClaim(t, request, token, b)
  {
  }

  lemma FinalIgnoresCommit(t: Table, request: Request, token: nat, a: World, b: World)
    requires b == a.(commitFault := b.commitFault)
    ensures FinalPhase(t, request, token, a) == FinalPhase(t, request, token, b)
    ensures TableAfterClaim(t, request, token, a) == TableAfterClaim(t, request, token, b)
  {
    hide AfterClaim, AfterReconcile, AfterExecute, Claim, Grants;
  }

  lemma GrantedNeverAnswers(record: Record, w: World)
    ensures
      var p := ExecutePhase(ReconcilePhase(Granted(record), w), w);
      p.Done? ==> !p.result.Answer?
  {
    hide TerminalRecord;
  }

  lemma GrantedCommitsOwn(request: Request, token: nat, record: Record, w: World)
    requires Claimed(request, token, record)
    ensures
      var p := ExecutePhase(ReconcilePhase(Granted(record), w), w);
      p.Committing? ==> p.record.operation == request.operation
  {
    hide PolicyIdentity;
  }

  lemma CommitsOwnClaim(v: Table, request: Request, token: nat, w: World, r: Record)
    requires request.operation in v && IsClaim(v[request.operation], request, token, w) && r.operation == request.operation
    ensures Completes(v, r.operation, token)
  {
  }

  /** Nothing happens at all when the request is invalid or the claim never reaches the store. */
  lemma RefusedInvocation(t: Table, request: Request, token: nat, w: World)
    requires !ValidRequest(request) || w.claimFault.NotApplied?
    ensures Invoked(t, request, token, w) == (t, Failure)
  {
  }
}

/** Durable plugin actions: the operation records, the contract of the store that keeps them, and what
    an executor decides from each reply. Several executors may run against one store; their
    interleavings are the business of ActionRuns. */
module Actions {
  import opened Sequences
  import opened Strings

  const DEFAULT_LEASE := 120
  const ERROR_INTERNAL := 7

  datatype Request = Request(
    generation: string, action: string, targetKind: string, target: string, operation: string, handle: string)

  predicate ValidRequest(r: Request) {
    && PolicyIdentity(r.generation) && PolicyIdentity(r.action) && PolicyIdentity(r.operation)
    && if r.handle != "" then r.targetKind == "" && r.target == "" && PolicyIdentity(r.handle)
       else PolicyIdentity(r.targetKind) && PolicyIdentity(r.target)
  }

  /** A digest is a free constructor over what was digested; `Text` is any string that is not one. */
  datatype Fingerprint =
    | Digest(generation: string, action: string, targetKind: string, target: string, operation: string)
    | Text(text: string)

  /** The resource handle is deliberately not part of the fingerprint: it may rotate between attempts. */
  function FingerprintOf(r: Request): Fingerprint {
    Digest(r.generation, r.action, r.targetKind, r.target, r.operation)
  }

  datatype RuntimeError = RuntimeError(code: nat, message: string, retryable: bool)

  predicate ValidError(e: RuntimeError) {
    1 <= e.code <= ERROR_INTERNAL
  }

  datatype State = Pending | Succeeded | Failed | Unknown(text: string)

  /** Claim tokens are drawn at random; here they are numbered and never drawn twice. */
  datatype Record = Record(
    operation: string, fingerprint: Fingerprint, state: State,
    token: Option<nat>, lease: Option<int>, error: Option<RuntimeError>)

  predicate ValidRecord(r: Record) {
    && PolicyIdentity(r.operation) && r.fingerprint.Digest?
    && match r.state
       case Pending => r.token.Some? && r.lease.Some? && r.error.None?
       case Succeeded => r.token.None? && r.lease.None? && r.error.None?
       case Failed => r.token.None? && r.lease.None? && r.error.Some? && ValidError(r.error.value)
       case Unknown(_) => false
  }

  predicate Terminal(r: Record) {
    r.state.Succeeded? || r.state.Failed?
  }

  datatype Response = Response(
    accepted: bool, operation: string, error: Option<RuntimeError>, pending: bool, missing: bool)

  function Branches(r: Response): nat {
    (if r.accepted then 1 else 0) + (if r.error.Some? then 1 else 0)
    + (if r.pending then 1 else 0) + (if r.missing then 1 else 0)
  }

  predicate ValidResponse(r: Response) {
    && PolicyIdentity(r.operation) && Branches(r) == 1
    && (r.error.Some? ==> ValidError(r.error.value))
  }

  predicate TerminalResponse(r: Response) {
    r.accepted || r.error.Some?
  }

  function ResponseOf(r: Record): Response {
    match r.state
    case Pending => Response(false, r.operation, None, true, false)
    case Succeeded => Response(true, r.operation, None, false, false)
    case Failed => Response(false, r.operation, r.error, false, false)
    case Unknown(_) => Response(false, r.operation, None, false, false)
  }

  function MissingResponse(operation: string): Response {
    Response(false, operation, None, false, true)
  }

  // ---------- the store ----------

  type Table = map<string, Record>

  predicate Expired(r: Record, now: int) {
    r.lease.None? || r.lease.value <= now
  }

  /** Whether a claim is granted: there is no record yet, or a matching pending one whose lease is over. */
  predicate Grants(t: Table, operation: string, fingerprint: Fingerprint, now: int) {
    operation in t ==>
      t[operation].fingerprint == fingerprint && t[operation].state.Pending? && Expired(t[operation], now)
  }

  function Claim(t: Table, operation: string, fingerprint: Fingerprint, token: nat, now: int, lease: int): (r: Record)
  {
    if !Grants(t, operation, fingerprint, now) then t[operation]
    else if operation in t then t[operation].(token := Some(token), lease := Some(lease))
    else Record(operation, fingerprint, Pending, Some(token), Some(lease), None)
  }

  /** A commit compares the claim token of the pending record. */
  predicate Completes(t: Table, operation: string, token: nat) {
    operation in t && t[operation].state.Pending? && t[operation].token == Some(token)
  }

  // ---------- what an executor decides ----------

  datatype Result =
    | Answer(response: Response)
    | Failure                             // an error and no response
    | Interrupted(response: Response)     // an error beside the pending response

  datatype Phase =
    | Calling
    | Granted(record: Record)
    | Cleared(record: Record)             // nothing to reconcile, handler not started
    | Running(record: Record)
    | Committing(record: Record)
    | Done(result: Result)

  function AfterClaim(fingerprint: Fingerprint, token: nat, record: Record, granted: bool): Phase {
    if !ValidRecord(record) || record.fingerprint != fingerprint then Done(Failure)
    else if !granted then Done(Answer(ResponseOf(record)))
    else if record.token != Some(token) then Done(Failure)
    else Granted(record)
  }

  datatype Reconciled = ReconcileError | NotHandled | Handled(response: Response)

  /** The terminal record for a reconciled outcome, unless that outcome is not exactly one. */
  function TerminalRecord(record: Record, response: Response): Option<Record> {
    if !ValidResponse(response) || response.operation != record.operation || response.pending || response.missing then
      None
    else
      var terminal := record.(token := None, lease := None,
                              state := if response.accepted then Succeeded else Failed,
                              error := if response.accepted then None else response.error);
      if ValidRecord(terminal) then Some(terminal) else None
  }

  function AfterReconcile(record: Record, r: Reconciled): Phase {
    match r
    case ReconcileError => Done(Failure)
    case NotHandled => Cleared(record)
    case Handled(response) =>
      match TerminalRecord(record, response)
      case None => Done(Failure)
      case Some(terminal) => Committing(terminal)
  }

  /** How a handler ends. An error that is not a runtime error arrives as `Fails(None)`. */
  datatype Executed = CutShort | Succeeds | Fails(error: Option<RuntimeError>)

  function AfterExecute(record: Record, e: Executed): Phase {
    match e
    case CutShort => Done(Interrupted(ResponseOf(record)))
    case Succeeds => Committing(record.(state := Succeeded, token := None, lease := None, error := None))
    case Fails(error) =>
      var reported := if error.Some? && ValidError(error.value) then error.value
                      else RuntimeError(ERROR_INTERNAL, "action failed", false);
      Committing(record.(state := Failed, token := None, lease := None, error := Some(reported)))
  }

  // ---------- what every decision keeps ----------

  /** The claim an executor holds while it reconciles and executes. */
  predicate Claimed(request: Request, token: nat, r: Record) {
    && ValidRecord(r) && r.state.Pending? && r.token == Some(token)
    && r.operation == request.operation && r.fingerprint == FingerprintOf(request)
  }

  /** The record an executor is about to commit. */
  predicate Outcome(request: Request, r: Record) {
    && ValidRecord(r) && Terminal(r)
    && r.operation == request.operation && r.fingerprint == FingerprintOf(request)
  }

  predicate PhaseOk(request: Request, token: nat, p: Phase) {
    match p
    case Calling => true
    case Granted(r) => Claimed(request, token, r)
    case Cleared(r) => Claimed(request, token, r)
    case Running(r) => Claimed(request, token, r)
    case Committing(r) => Outcome(request, r)
    case Done(Answer(response)) => ValidResponse(response) && response.operation == request.operation
    case Done(Interrupted(response)) => ValidResponse(response) && response.pending
    case Done(Failure) => true
  }

  predicate TableOk(t: Table) {
    forall op :: op in t ==> ValidRecord(t[op]) && t[op].operation == op
  }

  lemma ClaimKeepsTableOk(t: Table, request: Request, token: nat, now: int, lease: int)
    requires TableOk(t) && ValidRequest(request)
    ensures TableOk(t[request.operation := Claim(t, request.operation, FingerprintOf(request), token, now, lease)])
    ensures PhaseOk(request, token,
                    AfterClaim(FingerprintOf(request), token,
                               Claim(t, request.operation, FingerprintOf(request), token, now, lease),
                               Grants(t, request.operation, FingerprintOf(request), now)))
  {
    hide PolicyIdentity;
  }

  /** Whatever reconciling returns, an executor either stops, goes on under its own claim, or holds a valid
      terminal record for its own request. */
  lemma ReconcileKeepsPhaseOk(request: Request, token: nat, r: Record, outcome: Reconciled)
    requires Claimed(request, token, r)
    ensures PhaseOk(request, token, AfterReconcile(r, outcome))
    ensures AfterReconcile(r, outcome).Committing? <==>
              outcome.Handled? && ValidResponse(outcome.response) && TerminalResponse(outcome.response)
              && outcome.response.operation == request.operation
    ensures AfterReconcile(r, outcome).Committing? ==>
              ResponseOf(AfterReconcile(r, outcome).record) == outcome.response
  {
    hide PolicyIdentity;
  }

  /** However the handler ends, the record to commit is valid: an ill-formed error never reaches the store. */
  lemma ExecuteKeepsPhaseOk(request: Request, token: nat, r: Record, outcome: Executed)
    requires Claimed(request, token, r)
    ensures PhaseOk(request, token, AfterExecute(r, outcome))
    ensures AfterExecute(r, outcome).Committing? <==> !outcome.CutShort?
  {
    hide PolicyIdentity;
  }

  /** What the caller is told is how the handler ended: accepted exactly when it succeeded; its own error when that is
      well formed; an internal, final error otherwise; and still pending when it was cut short. */
  lemma ExecuteAnswers(request: Request, token: nat, r: Record, outcome: Executed)
    requires Claimed(request, token, r)
    ensures
      var p := AfterExecute(r, outcome);
      match outcome
      case CutShort => p == Done(Interrupted(Response(false, request.operation, None, true, false)))
      case Succeeds => p.Committing? && ResponseOf(p.record) == Response(true, request.operation, None, false, false)
      case Fails(error) =>
        && p.Committing?
        && ResponseOf(p.record) ==
             Response(false, request.operation,
                      if error.Some? && 1 <= error.value.code <= 7 then error
                      else Some(RuntimeError(7, "action failed", false)), false, false)
  {
    hide PolicyIdentity;
  }
}

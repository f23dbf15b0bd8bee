/** Any number of executors against one store, one atomic step at a time. A step is a store call, a
    handler call or a crash; clocks are whatever each executor reads; any store call may fail before
    or after taking effect. */
module ActionRuns {
  import opened Sequences
  import opened Strings
  import opened Actions

  datatype Executor = Executor(request: Request, token: nat, phase: Phase)

  /** What the run has done so far, in order. */
  datatype Grant = Grant(operation: string, token: nat, now: int, lease: int)
  datatype Start = Start(operation: string, fingerprint: Fingerprint, token: nat)
  datatype Commit = Commit(operation: string, token: nat, record: Record)

  datatype System = System(
    table: Table, executors: map<nat, Executor>, nextToken: nat,
    grants: seq<Grant>, starts: seq<Start>, commits: seq<Commit>, answers: seq<Response>)

  datatype Fault = NoFault | NotApplied | ReplyLost

  datatype Event =
    | Begin(i: nat, request: Request)
    | Call(i: nat, now: int, duration: int, fault: Fault)
    | Reconcile(i: nat, reconciled: Reconciled)
    | StartHandler(i: nat)
    | Execute(i: nat, executed: Executed)
    | Complete(i: nat, fault: Fault)
    | Crash(i: nat)
    | Query(generation: string, operation: string)

  function Duration(configured: int): int {
    if configured <= 0 then DEFAULT_LEASE else configured
  }

  predicate Enabled(s: System, e: Event) {
    match e
    case Begin(i, _) => i !in s.executors
    case Call(i, _, _, _) => i in s.executors && s.executors[i].phase.Calling?
    case Reconcile(i, _) => i in s.executors && s.executors[i].phase.Granted?
    case StartHandler(i) => i in s.executors && s.executors[i].phase.Cleared?
    case Execute(i, _) => i in s.executors && s.executors[i].phase.Running?
    case Complete(i, _) => i in s.executors && s.executors[i].phase.Committing?
    case Crash(i) => i in s.executors
    case Query(_, _) => true
  }

  function Enter(s: System, i: nat, phase: Phase): System
    requires i in s.executors
  {
    s.(executors := s.executors[i := s.executors[i].(phase := phase)],
       answers := s.answers + (if phase.Done? && phase.result.Answer? then [phase.result.response] else []))
  }

  function AfterBegin(s: System, i: nat, request: Request): System {
    var phase := if ValidRequest(request) then Calling else Done(Failure);
    s.(executors := s.executors[i := Executor(request, s.nextToken, phase)], nextToken := s.nextToken + 1)
  }

  function AfterCall(s: System, i: nat, now: int, lease: int, fault: Fault): System
    requires i in s.executors
  {
    if fault.NotApplied? then Enter(s, i, Done(Failure))
    else
      var x := s.executors[i];
      var op, fp := x.request.operation, FingerprintOf(x.request);
      var granted := Grants(s.table, op, fp, now);
      var record := Claim(s.table, op, fp, x.token, now, lease);
      var t := s.(table := s.table[op := record],
                  grants := if granted then s.grants + [Grant(op, x.token, now, lease)] else s.grants);
      Enter(t, i, if fault.ReplyLost? then Done(Failure) else AfterClaim(fp, x.token, record, granted))
  }

  function AfterStarting(s: System, i: nat): System
    requires Enabled(s, StartHandler(i))
  {
    var x := s.executors[i];
    var start := Start(x.request.operation, FingerprintOf(x.request), x.token);
    Enter(s.(starts := s.starts + [start]), i, Running(x.phase.record))
  }

  function AfterComplete(s: System, i: nat, fault: Fault): System
    requires Enabled(s, Complete(i, fault))
  {
    var x := s.executors[i];
    var record := x.phase.record;
    if fault.NotApplied? || !Completes(s.table, record.operation, x.token) then Enter(s, i, Done(Failure))
    else
      var t := s.(table := s.table[record.operation := record],
                  commits := s.commits + [Commit(record.operation, x.token, record)]);
      Enter(t, i, if fault.ReplyLost? then Done(Failure) else Done(Answer(ResponseOf(record))))
  }

  function AfterQuery(s: System, generation: string, operation: string): System {
    if !PolicyIdentity(generation) || !PolicyIdentity(operation) then s
    else if operation !in s.table then s.(answers := s.answers + [MissingResponse(operation)])
    else if !ValidRecord(s.table[operation]) then s
    else s.(answers := s.answers + [ResponseOf(s.table[operation])])
  }

  function Step(s: System, e: Event): System
    requires Enabled(s, e)
  {
    match e
    case Begin(i, request) => AfterBegin(s, i, request)
    case Call(i, now, duration, fault) => AfterCall(s, i, now, now + Duration(duration), fault)
    case Reconcile(i, reconciled) => Enter(s, i, AfterReconcile(s.executors[i].phase.record, reconciled))
    case StartHandler(i) => AfterStarting(s, i)
    case Execute(i, executed) => Enter(s, i, AfterExecute(s.executors[i].phase.record, executed))
    case Complete(i, fault) => AfterComplete(s, i, fault)
    case Crash(i) => Enter(s, i, Done(Failure))
    case Query(generation, operation) => AfterQuery(s, generation, operation)
  }

  predicate RunOf(s: System, events: seq<Event>)
    decreases |events|
  {
    events == [] || (Enabled(s, events[0]) && RunOf(Step(s, events[0]), events[1..]))
  }

  function After(s: System, events: seq<Event>): System
    requires RunOf(s, events)
    decreases |events|
  {
    if events == [] then s else After(Step(s, events[0]), events[1..])
  }

  const INITIAL := System(map[], map[], 0, [], [], [], [])

  // ---------- the invariant ----------

  ghost predicate TokensOk(s: System) {
    && (forall op :: op in s.table && s.table[op].token.Some? ==> s.table[op].token.value < s.nextToken)
    && (forall i :: i in s.executors ==> s.executors[i].token < s.nextToken)
    && (forall i, j :: i in s.executors && j in s.executors && i != j ==> s.executors[i].token != s.executors[j].token)
  }

  /** An executor that has not called the store yet holds a token the store has never seen. */
  ghost predicate CallersOk(s: System) {
    forall i :: i in s.executors && s.executors[i].phase.Calling? ==>
      && ValidRequest(s.executors[i].request)
      && (forall op :: op in s.table ==> s.table[op].token != Some(s.executors[i].token))
      && (forall k :: 0 <= k < |s.starts| ==> s.starts[k].token != s.executors[i].token)
  }

  ghost predicate PhasesOk(s: System) {
    forall i :: i in s.executors ==> PhaseOk(s.executors[i].request, s.executors[i].token, s.executors[i].phase)
  }

  predicate Holding(p: Phase) {
    p.Granted? || p.Cleared? || p.Running? || p.Committing?
  }

  /** Granted, and the handler not yet started. */
  predicate BeforeStart(p: Phase) {
    p.Granted? || p.Cleared?
  }

  ghost predicate HoldersOk(s: System) {
    forall i :: i in s.executors && Holding(s.executors[i].phase) ==>
      && s.executors[i].request.operation in s.table
      && s.table[s.executors[i].request.operation].fingerprint == FingerprintOf(s.executors[i].request)
  }

  ghost predicate StartsOk(s: System) {
    && (forall k :: 0 <= k < |s.starts| ==>
         && s.starts[k].operation in s.table
         && s.starts[k].fingerprint == s.table[s.starts[k].operation].fingerprint
         && s.starts[k].token < s.nextToken)
    && (forall i, k :: i in s.executors && BeforeStart(s.executors[i].phase) && 0 <= k < |s.starts| ==>
         s.starts[k].token != s.executors[i].token)
    && (forall j, k :: 0 <= j < k < |s.starts| ==> s.starts[j].token != s.starts[k].token)
  }

  ghost predicate CommitsOk(s: System) {
    && (forall k :: 0 <= k < |s.commits| ==>
         && s.commits[k].operation in s.table
         && s.table[s.commits[k].operation] == s.commits[k].record
         && Terminal(s.commits[k].record))
    && (forall j, k :: 0 <= j < k < |s.commits| ==> s.commits[j].operation != s.commits[k].operation)
  }

  ghost predicate AnswerOk(t: Table, r: Response) {
    && ValidResponse(r)
    && (TerminalResponse(r) ==> r.operation in t && Terminal(t[r.operation]) && ResponseOf(t[r.operation]) == r)
  }

  ghost predicate AnswersOk(s: System) {
    forall k :: 0 <= k < |s.answers| ==> AnswerOk(s.table, s.answers[k])
  }

  ghost predicate GrantsOk(s: System) {
    && (forall k :: 0 <= k < |s.grants| ==>
         && s.grants[k].now < s.grants[k].lease
         && s.grants[k].operation in s.table
         && var r := s.table[s.grants[k].operation];
            r.state.Pending? ==> r.lease.Some? && s.grants[k].lease <= r.lease.value)
    && (forall j, k :: 0 <= j < k < |s.grants| && s.grants[j].operation == s.grants[k].operation ==>
         s.grants[j].lease <= s.grants[k].now)
  }

  ghost predicate Inv(s: System) {
    TableOk(s.table) && TokensOk(s) && CallersOk(s) && PhasesOk(s) && HoldersOk(s)
    && StartsOk(s) && CommitsOk(s) && AnswersOk(s) && GrantsOk(s)
  }

  // ---------- every step keeps it ----------

  /** Records are never deleted, never change fingerprint, and never change once terminal. */
  ghost predicate Evolves(t: Table, u: Table) {
    forall op :: op in t ==>
      && op in u && u[op].fingerprint == t[op].fingerprint
      && (Terminal(t[op]) ==> u[op] == t[op])
  }

  lemma StepEvolves(s: System, e: Event)
    requires TableOk(s.table) && PhasesOk(s) && HoldersOk(s) && Enabled(s, e)
    ensures Evolves(s.table, Step(s, e).table)
  {
    hide ValidRequest, PolicyIdentity, ResponseOf, TerminalRecord, ValidResponse, AfterClaim, AfterReconcile, AfterExecute;
    match e {
      case Complete(i, fault) =>
        assert PhaseOk(s.executors[i].request, s.executors[i].token, s.executors[i].phase);
      case _ =>
    }
  }

  lemma StepTable(s: System, e: Event)
    requires TableOk(s.table) && CallersOk(s) && PhasesOk(s) && Enabled(s, e)
    ensures TableOk(Step(s, e).table)
  {
    hide PolicyIdentity, ResponseOf, TerminalRecord, ValidResponse, AfterClaim, AfterReconcile, AfterExecute;
    match e {
      case Complete(i, _) =>
        assert PhaseOk(s.executors[i].request, s.executors[i].token, s.executors[i].phase);
      case _ =>
    }
  }

  lemma CommittingHasNoToken(s: System, i: nat)
    requires PhasesOk(s) && i in s.executors && s.executors[i].phase.Committing?
    ensures s.executors[i].phase.record.token.None?
  {
    assert PhaseOk(s.executors[i].request, s.executors[i].token, s.executors[i].phase);
  }

  lemma StepTokens(s: System, e: Event)
    requires TableOk(s.table) && TokensOk(s) && PhasesOk(s) && Enabled(s, e)
    ensures TokensOk(Step(s, e))
  {
    hide ValidRequest, PolicyIdentity, ValidRecord, AfterReconcile, AfterExecute, AfterClaim, TerminalRecord, ResponseOf;
    match e {
      case Complete(i, _) =>
        CommittingHasNoToken(s, i);
      case _ =>
    }
  }

  lemma StepCallers(s: System, e: Event)
    requires TableOk(s.table) && TokensOk(s) && CallersOk(s) && PhasesOk(s) && StartsOk(s) && Enabled(s, e)
    ensures CallersOk(Step(s, e))
  {
    hide PolicyIdentity, ValidRecord, ResponseOf, TerminalRecord;
    match e {
      case Complete(i, _) =>
        CommittingHasNoToken(s, i);
      case _ =>
    }
  }

  lemma StepPhases(s: System, e: Event)
    requires TableOk(s.table) && CallersOk(s) && PhasesOk(s) && Enabled(s, e)
    ensures PhasesOk(Step(s, e))
  {
    hide PolicyIdentity, TerminalRecord, AfterClaim, AfterReconcile, AfterExecute, Claim, Grants;
    match e {
      case Call(i, now, duration, _) =>
        var x := s.executors[i];
        ClaimKeepsTableOk(s.table, x.request, x.token, now, now + Duration(duration));
      case Reconcile(i, outcome) =>
        var x := s.executors[i];
        assert PhaseOk(x.request, x.token, x.phase);
        ReconcileKeepsPhaseOk(x.request, x.token, x.phase.record, outcome);
      case StartHandler(i) =>
        var x := s.executors[i];
        assert PhaseOk(x.request, x.token, x.phase);
      case Execute(i, outcome) =>
        var x := s.executors[i];
        assert PhaseOk(x.request, x.token, x.phase);
        ExecuteKeepsPhaseOk(x.request, x.token, x.phase.record, outcome);
      case Complete(i, _) =>
        assert PhaseOk(s.executors[i].request, s.executors[i].token, s.executors[i].phase);
      case _ =>
    }
  }

  lemma StepHolders(s: System, e: Event)
    requires TableOk(s.table) && PhasesOk(s) && HoldersOk(s) && Enabled(s, e)
    ensures HoldersOk(Step(s, e))
  {
    hide ValidRequest, PolicyIdentity, ValidRecord, ResponseOf, TerminalRecord;
    StepEvolves(s, e);
    var t := Step(s, e);
    forall i | i in t.executors && Holding(t.executors[i].phase)
      ensures t.executors[i].request.operation in t.table
      ensures t.table[t.executors[i].request.operation].fingerprint == FingerprintOf(t.executors[i].request)
    {
      if i in s.executors && Holding(s.executors[i].phase) {
        assert t.executors[i].request == s.executors[i].request;
      }
    }
  }

  lemma StartingKeepsStarts(s: System, i: nat)
    requires TokensOk(s) && PhasesOk(s) && HoldersOk(s) && StartsOk(s) && Enabled(s, StartHandler(i))
    ensures StartsOk(AfterStarting(s, i))
  {
    hide ValidRequest, PolicyIdentity, ValidRecord;
    assert PhaseOk(s.executors[i].request, s.executors[i].token, s.executors[i].phase);
  }

  lemma StepStarts(s: System, e: Event)
    requires TableOk(s.table) && TokensOk(s) && CallersOk(s) && PhasesOk(s) && HoldersOk(s) && StartsOk(s)
    requires Enabled(s, e)
    ensures StartsOk(Step(s, e))
  {
    hide ValidRequest, PolicyIdentity, ValidRecord, ResponseOf, TerminalRecord, Grants, ValidResponse, AfterStarting, PhasesOk;
    StepEvolves(s, e);
    if e.StartHandler? {
      StartingKeepsStarts(s, e.i);
    }
  }

  lemma StepCommits(s: System, e: Event)
    requires TableOk(s.table) && PhasesOk(s) && HoldersOk(s) && CommitsOk(s) && Enabled(s, e)
    ensures CommitsOk(Step(s, e))
  {
    hide ValidRequest, PolicyIdentity, ValidRecord, ResponseOf, TerminalRecord, ValidResponse, AfterClaim, AfterReconcile, AfterExecute;
    StepEvolves(s, e);
    match e {
      case Complete(i, fault) =>
        assert PhaseOk(s.executors[i].request, s.executors[i].token, s.executors[i].phase);
      case _ =>
    }
  }

  lemma StoredAnswerOk(t: Table, op: string)
    requires TableOk(t) && op in t
    ensures AnswerOk(t, ResponseOf(t[op]))
  {
    hide PolicyIdentity;
  }

  lemma MissingAnswerOk(t: Table, op: string)
    requires PolicyIdentity(op)
    ensures AnswerOk(t, MissingResponse(op))
  {
    hide PolicyIdentity;
  }

  lemma AnswersStayOk(answers: seq<Response>, t: Table, u: Table)
    requires forall k :: 0 <= k < |answers| ==> AnswerOk(t, answers[k])
    requires Evolves(t, u)
    ensures forall k :: 0 <= k < |answers| ==> AnswerOk(u, answers[k])
  {
    hide ValidResponse, ResponseOf, TerminalResponse;
  }

  /** A step gives at most one answer, and it is the stored record's own or that there is none. */
  lemma NewAnswer(s: System, e: Event)
    requires TableOk(s.table) && CallersOk(s) && PhasesOk(s) && Enabled(s, e)
    ensures
      var t := Step(s, e);
      || t.answers == s.answers
      || (exists op :: op in t.table && t.answers == s.answers + [ResponseOf(t.table[op])])
      || (exists op :: PolicyIdentity(op) && t.answers == s.answers + [MissingResponse(op)])
  {
    hide ValidRequest, PolicyIdentity, TerminalRecord, ResponseOf, MissingResponse, ValidRecord;
    match e {
      case Complete(i, fault) =>
        var op := s.executors[i].phase.record.operation;
        assert fault.NoFault? && Completes(s.table, op, s.executors[i].token) ==> op in Step(s, e).table;
      case Call(i, now, duration, fault) =>
        assert s.executors[i].request.operation in Step(s, e).table || fault.NotApplied?;
      case _ =>
    }
  }

  lemma StepAnswers(s: System, e: Event)
    requires TableOk(s.table) && CallersOk(s) && PhasesOk(s) && HoldersOk(s) && AnswersOk(s) && Enabled(s, e)
    ensures AnswersOk(Step(s, e))
  {
    hide AnswerOk, Evolves, ResponseOf, MissingResponse, PolicyIdentity, TableOk, CallersOk, PhasesOk, HoldersOk, Enabled, Step;
    var t := Step(s, e);
    StepEvolves(s, e);
    StepTable(s, e);
    AnswersStayOk(s.answers, s.table, t.table);
    NewAnswer(s, e);
    if op :| op in t.table && t.answers == s.answers + [ResponseOf(t.table[op])] {
      StoredAnswerOk(t.table, op);
    } else if op :| PolicyIdentity(op) && t.answers == s.answers + [MissingResponse(op)] {
      MissingAnswerOk(t.table, op);
    }
  }

  lemma CallKeepsGrants(s: System, i: nat, now: int, lease: int, fault: Fault)
    requires GrantsOk(s) && i in s.executors && now < lease
    ensures GrantsOk(AfterCall(s, i, now, lease, fault))
  {
    hide AfterClaim, FingerprintOf, ResponseOf;
    var t := AfterCall(s, i, now, lease, fault);
    forall j, k | 0 <= j < k < |t.grants| && t.grants[j].operation == t.grants[k].operation
      ensures t.grants[j].lease <= t.grants[k].now
    {
      assert s.grants[j].lease <= if k < |s.grants| then s.grants[k].now else now;
    }
  }

  lemma StepGrants(s: System, e: Event)
    requires PhasesOk(s) && GrantsOk(s) && Enabled(s, e)
    ensures GrantsOk(Step(s, e))
  {
    hide AfterCall, AfterClaim, AfterReconcile, AfterExecute, ResponseOf, MissingResponse, PolicyIdentity, ValidRequest;
    match e {
      case Call(i, now, duration, fault) => CallKeepsGrants(s, i, now, now + Duration(duration), fault);
      case Complete(i, fault) =>
        assert PhaseOk(s.executors[i].request, s.executors[i].token, s.executors[i].phase);
      case _ =>
    }
  }

  lemma StepKeepsInv(s: System, e: Event)
    requires Inv(s) && Enabled(s, e)
    ensures Inv(Step(s, e))
  {
    hide TableOk, TokensOk, CallersOk, PhasesOk, HoldersOk, StartsOk, CommitsOk, AnswersOk, GrantsOk, Step, Enabled;
    StepTable(s, e);
    StepTokens(s, e);
    StepCallers(s, e);
    StepPhases(s, e);
    StepHolders(s, e);
    StepStarts(s, e);
    StepCommits(s, e);
    StepAnswers(s, e);
    StepGrants(s, e);
  }
}

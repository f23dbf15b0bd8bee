/** What holds of every run of the durable action executors. */
module ActionGuarantees {
  import opened Sequences
  import opened Strings
  import opened Actions
  import opened ActionRuns

  lemma {:induction false} RunKeepsInv(s: System, events: seq<Event>)
    requires Inv(s) && RunOf(s, events)
    ensures Inv(After(s, events))
    ensures Evolves(s.table, After(s, events).table)
    decreases |events|
  {
    hide Inv, Step, Enabled;
    if events != [] {
      var t := Step(s, events[0]);
      StepKeepsInv(s, events[0]);
      RunKeepsInv(t, events[1..]);
      StepOfInvEvolves(s, events[0]);
    }
  }

  lemma StepOfInvEvolves(s: System, e: Event)
    requires Inv(s) && Enabled(s, e)
    ensures Evolves(s.table, Step(s, e).table)
  {
    hide Step, Enabled, TableOk, PhasesOk, HoldersOk, Evolves;
    StepEvolves(s, e);
  }

  // ---------- commits ----------

  /** Every terminal record got there by a commit. */
  ghost predicate AllCommitted(s: System) {
    forall op :: op in s.table && Terminal(s.table[op]) ==>
      exists k :: 0 <= k < |s.commits| && s.commits[k].operation == op
  }

  lemma StepKeepsAllCommitted(s: System, e: Event)
    requires AllCommitted(s) && PhasesOk(s) && Enabled(s, e)
    ensures AllCommitted(Step(s, e))
  {
    hide AfterClaim, AfterReconcile, AfterExecute, ResponseOf, MissingResponse, PolicyIdentity, ValidRequest, PhaseOk, FingerprintOf;
    var t := Step(s, e);
    forall op | op in t.table && Terminal(t.table[op])
      ensures exists k :: 0 <= k < |t.commits| && t.commits[k].operation == op
    {
      if op in s.table && Terminal(s.table[op]) {
        var k :| 0 <= k < |s.commits| && s.commits[k].operation == op;
        assert t.commits[k].operation == op;
      } else {
        assert e.Complete?;
        assert t.commits[|t.commits| - 1].operation == op;
      }
    }
  }

  lemma {:induction false} RunKeepsAllCommitted(s: System, events: seq<Event>)
    requires Inv(s) && AllCommitted(s) && RunOf(s, events)
    ensures AllCommitted(After(s, events))
    decreases |events|
  {
    hide Step, Enabled, AllCommitted, TableOk, TokensOk, CallersOk, PhasesOk, HoldersOk, StartsOk, CommitsOk, AnswersOk, GrantsOk;
    if events != [] {
      StepKeepsInv(s, events[0]);
      StepKeepsAllCommitted(s, events[0]);
      RunKeepsAllCommitted(Step(s, events[0]), events[1..]);
    }
  }

  /** In every run each operation is committed at most once, and it is terminal exactly when it was:
      the stored record is then the one that commit wrote. */
  lemma OneCommitPerOperation(events: seq<Event>)
    requires RunOf(INITIAL, events)
    ensures
      var t := After(INITIAL, events);
      && (forall j, k :: 0 <= j < k < |t.commits| ==> t.commits[j].operation != t.commits[k].operation)
      && (forall op :: op in t.table && Terminal(t.table[op]) <==>
           exists k :: 0 <= k < |t.commits| && t.commits[k].operation == op)
      && (forall k :: 0 <= k < |t.commits| && t.commits[k].operation in t.table ==>
           t.table[t.commits[k].operation] == t.commits[k].record)
  {
    hide Step, Enabled;
    RunKeepsInv(INITIAL, events);
    RunKeepsAllCommitted(INITIAL, events);
  }

  /** A terminal record never changes again, whatever happens next. */
  lemma TerminalNeverChanges(events: seq<Event>, more: seq<Event>, op: string)
    requires RunOf(INITIAL, events) && RunOf(After(INITIAL, events), more)
    requires op in After(INITIAL, events).table && Terminal(After(INITIAL, events).table[op])
    ensures op in After(After(INITIAL, events), more).table
    ensures After(After(INITIAL, events), more).table[op] == After(INITIAL, events).table[op]
  {
    hide Step, Enabled;
    RunKeepsInv(INITIAL, events);
    RunKeepsInv(After(INITIAL, events), more);
  }

  // ---------- superseded claims ----------

  /** `token` was drawn, is not about to be offered, and is not the operation's current claim. */
  ghost predicate Superseded(s: System, op: string, token: nat) {
    && token < s.nextToken
    && (forall i :: i in s.executors && s.executors[i].token == token ==> !s.executors[i].phase.Calling?)
    && !(op in s.table && s.table[op].token == Some(token))
  }

  ghost predicate NotCommittedSince(s: System, t: System, op: string, token: nat) {
    && s.commits <= t.commits
    && forall k :: |s.commits| <= k < |t.commits| ==> t.commits[k].operation != op || t.commits[k].token != token
  }

  lemma StepKeepsSuperseded(s: System, e: Event, op: string, token: nat)
    requires PhasesOk(s) && Superseded(s, op, token) && Enabled(s, e)
    ensures Superseded(Step(s, e), op, token)
    ensures NotCommittedSince(s, Step(s, e), op, token)
  {
    hide ResponseOf, MissingResponse, PolicyIdentity, ValidRequest, ValidRecord, TerminalRecord;
    match e {
      case Complete(i, fault) => CommittingHasNoToken(s, i);
      case _ =>
    }
  }

  /** A claim that was taken over, or has already committed, never commits again. */
  lemma {:induction false} SupersededNeverCommits(s: System, events: seq<Event>, op: string, token: nat)
    requires Inv(s) && Superseded(s, op, token) && RunOf(s, events)
    ensures NotCommittedSince(s, After(s, events), op, token)
    decreases |events|
  {
    hide Step, Enabled, Superseded, TableOk, TokensOk, CallersOk, PhasesOk, HoldersOk, StartsOk, CommitsOk, AnswersOk, GrantsOk;
    if events != [] {
      StepKeepsInv(s, events[0]);
      StepKeepsSuperseded(s, events[0], op, token);
      SupersededNeverCommits(Step(s, events[0]), events[1..], op, token);
    }
  }

  /** Losing the claim, in whatever way, is what supersedes a token. */
  lemma LosingTheClaimSupersedes(s: System, e: Event, op: string, token: nat)
    requires Inv(s) && Enabled(s, e)
    requires op in s.table && s.table[op].token == Some(token)
    requires op in Step(s, e).table && Step(s, e).table[op].token != Some(token)
    ensures Superseded(Step(s, e), op, token)
  {
    hide StartsOk, CommitsOk, AnswersOk, GrantsOk, HoldersOk, TableOk, PhasesOk, ResponseOf, MissingResponse, PolicyIdentity, ValidRecord, TerminalRecord;
  }

  // ---------- handlers ----------

  /** All handler starts of one operation are for the same request, and each claim starts it at most once. */
  lemma HandlersRunForOneRequest(events: seq<Event>, j: nat, k: nat)
    requires RunOf(INITIAL, events)
    requires j < k < |After(INITIAL, events).starts|
    ensures
      var t := After(INITIAL, events);
      && t.starts[j].token != t.starts[k].token
      && (t.starts[j].operation == t.starts[k].operation ==> t.starts[j].fingerprint == t.starts[k].fingerprint)
  {
    hide Step, Enabled;
    RunKeepsInv(INITIAL, events);
  }

  ghost predicate SomeoneCouldStart(s: System, op: string) {
    exists i :: i in s.executors && BeforeStart(s.executors[i].phase) && s.executors[i].request.operation == op
  }

  ghost predicate StartsAgain(s: System, events: seq<Event>, op: string) {
    && RunOf(s, events)
    && exists k :: |s.starts| <= k < |After(s, events).starts| && After(s, events).starts[k].operation == op
  }

  lemma StepWithoutStarter(s: System, e: Event, op: string)
    requires PhasesOk(s) && Enabled(s, e)
    requires op in s.table && Terminal(s.table[op]) && !SomeoneCouldStart(s, op)
    ensures !SomeoneCouldStart(Step(s, e), op)
    ensures s.starts <= Step(s, e).starts
    ensures forall k :: |s.starts| <= k < |Step(s, e).starts| ==> Step(s, e).starts[k].operation != op
  {
    hide ResponseOf, MissingResponse, PolicyIdentity, ValidRequest, ValidRecord, TerminalRecord;
    var t := Step(s, e);
    forall i | i in t.executors && BeforeStart(t.executors[i].phase)
      ensures t.executors[i].request.operation != op
    {
      if i in s.executors && BeforeStart(s.executors[i].phase) {
        assert s.executors[i].request.operation != op;
      }
    }
  }

  lemma {:induction false} NoStartWithoutStarter(s: System, events: seq<Event>, op: string)
    requires Inv(s) && RunOf(s, events)
    requires op in s.table && Terminal(s.table[op]) && !SomeoneCouldStart(s, op)
    ensures s.starts <= After(s, events).starts
    ensures forall k :: |s.starts| <= k < |After(s, events).starts| ==> After(s, events).starts[k].operation != op
    decreases |events|
  {
    hide Step, Enabled, SomeoneCouldStart, TableOk, TokensOk, CallersOk, PhasesOk, HoldersOk, StartsOk, CommitsOk, AnswersOk, GrantsOk;
    if events != [] {
      StepKeepsInv(s, events[0]);
      StepOfInvEvolves(s, events[0]);
      StepWithoutStarter(s, events[0], op);
      NoStartWithoutStarter(Step(s, events[0]), events[1..], op);
    }
  }

  /** After a terminal commit the handler can start again exactly when some claimant, superseded by now,
      was granted the operation and has not started it yet: it is about to reconcile, or has learned that
      there is nothing to reconcile. */
  lemma HandlerStartsAgainIff(s: System, op: string)
    requires Inv(s) && op in s.table && Terminal(s.table[op])
    ensures (exists events :: StartsAgain(s, events, op)) <==> SomeoneCouldStart(s, op)
  {
    hide Inv, Step, Enabled;
    if SomeoneCouldStart(s, op) {
      var i :| i in s.executors && BeforeStart(s.executors[i].phase) && s.executors[i].request.operation == op;
      if s.executors[i].phase.Cleared? {
        ClearedStarts(s, i, op);
      } else {
        GrantedStarts(s, i, op);
      }
    } else if events :| StartsAgain(s, events, op) {
      NoStartWithoutStarter(s, events, op);
      assert false;
    }
  }

  lemma ClearedStarts(s: System, i: nat, op: string)
    requires i in s.executors && s.executors[i].phase.Cleared? && s.executors[i].request.operation == op
    ensures StartsAgain(s, [StartHandler(i)], op)
  {
    RunOne(s, StartHandler(i));
    assert After(s, [StartHandler(i)]).starts[|s.starts|].operation == op;
  }

  lemma GrantedStarts(s: System, i: nat, op: string)
    requires i in s.executors && s.executors[i].phase.Granted? && s.executors[i].request.operation == op
    ensures StartsAgain(s, [Reconcile(i, NotHandled)] + [StartHandler(i)], op)
  {
    var e := Reconcile(i, NotHandled);
    var t := Step(s, e);
    RunOne(s, e);
    ClearedStarts(t, i, op);
    RunConcat(s, [e], [StartHandler(i)]);
  }

  lemma {:induction false} RunConcat(s: System, a: seq<Event>, b: seq<Event>)
    requires RunOf(s, a) && RunOf(After(s, a), b)
    ensures RunOf(s, a + b) && After(s, a + b) == After(After(s, a), b)
    decreases |a|
  {
    hide Step, Enabled;
    if a == [] {
      assert a + b == b;
    } else {
      assert (a + b)[1..] == a[1..] + b;
      RunConcat(Step(s, a[0]), a[1..], b);
    }
  }

  lemma RunOne(s: System, e: Event)
    requires Enabled(s, e)
    ensures RunOf(s, [e]) && After(s, [e]) == Step(s, e)
  {
    hide Step, Enabled;
    assert RunOf(Step(s, e), [e][1..]);
  }

  /** The operation's record is the claim of executor 1; executor 0 still believes in its own. */
  ghost predicate TakenOver(s: System, r: Request) {
    && 0 in s.executors && s.executors[0].phase.Granted? && s.executors[0].request == r
    && 1 in s.executors && s.executors[1].phase.Granted? && s.executors[1].request == r
    && r.operation in s.table && s.table[r.operation] == s.executors[1].phase.record
    && Claimed(r, s.executors[1].token, s.table[r.operation])
  }

  lemma ClaimTwice(r: Request) returns (events: seq<Event>)
    requires ValidRequest(r)
    ensures RunOf(INITIAL, events) && TakenOver(After(INITIAL, events), r)
  {
    hide PolicyIdentity;
    var s1 := Step(INITIAL, Begin(0, r));
    var s2 := Step(s1, Call(0, 0, 1, NoFault));
    var s3 := Step(s2, Begin(1, r));
    var s4 := Step(s3, Call(1, 1, 1, NoFault));
    RunOne(INITIAL, Begin(0, r));
    RunOne(s1, Call(0, 0, 1, NoFault));
    RunOne(s2, Begin(1, r));
    RunOne(s3, Call(1, 1, 1, NoFault));
    RunConcat(s2, [Begin(1, r)], [Call(1, 1, 1, NoFault)]);
    RunConcat(INITIAL, [Begin(0, r)], [Call(0, 0, 1, NoFault)]);
    events := [Begin(0, r)] + [Call(0, 0, 1, NoFault)];
    RunConcat(INITIAL, events, [Begin(1, r)] + [Call(1, 1, 1, NoFault)]);
    events := events + ([Begin(1, r)] + [Call(1, 1, 1, NoFault)]);
  }

  lemma FinishTakeover(s: System, r: Request) returns (events: seq<Event>)
    requires TakenOver(s, r)
    ensures RunOf(s, events) && SomeoneCouldStart(After(s, events), r.operation)
    ensures r.operation in After(s, events).table && Terminal(After(s, events).table[r.operation])
  {
    hide PolicyIdentity;
    var s1 := Step(s, Reconcile(1, NotHandled));
    var s2 := Step(s1, StartHandler(1));
    var s3 := Step(s2, Execute(1, Succeeds));
    var s4 := Step(s3, Complete(1, NoFault));
    RunOne(s, Reconcile(1, NotHandled));
    RunOne(s1, StartHandler(1));
    RunOne(s2, Execute(1, Succeeds));
    RunOne(s3, Complete(1, NoFault));
    RunConcat(s2, [Execute(1, Succeeds)], [Complete(1, NoFault)]);
    events := [Execute(1, Succeeds)] + [Complete(1, NoFault)];
    RunConcat(s1, [StartHandler(1)], events);
    events := [StartHandler(1)] + events;
    RunConcat(s, [Reconcile(1, NotHandled)], events);
    events := [Reconcile(1, NotHandled)] + events;
    assert s4.executors[0] == s.executors[0];
  }

  /** It does happen: whatever the request, a claimant delayed past its lease can start the handler after
      the claimant that took over has committed. */
  lemma HandlerCanStartAfterCommit(r: Request)
    requires ValidRequest(r)
    ensures exists events, more ::
              && RunOf(INITIAL, events)
              && r.operation in After(INITIAL, events).table && Terminal(After(INITIAL, events).table[r.operation])
              && StartsAgain(After(INITIAL, events), more, r.operation)
  {
    hide Step, Enabled, StartsAgain, TakenOver, SomeoneCouldStart, ValidRequest;
    var claims := ClaimTwice(r);
    var s := After(INITIAL, claims);
    var rest := FinishTakeover(s, r);
    RunConcat(INITIAL, claims, rest);
    RunKeepsInv(INITIAL, claims + rest);
    HandlerStartsAgainIff(After(INITIAL, claims + rest), r.operation);
  }

  // ---------- answers and leases ----------

  /** All terminal answers for one operation, from any call or query, are the same answer: the response
      of the one record committed for it. */
  lemma TerminalAnswersAgree(events: seq<Event>, j: nat, k: nat)
    requires RunOf(INITIAL, events)
    requires
      var t := After(INITIAL, events);
      && j < |t.answers| && k < |t.answers|
      && t.answers[j].operation == t.answers[k].operation
      && TerminalResponse(t.answers[j]) && TerminalResponse(t.answers[k])
    ensures
      var t := After(INITIAL, events);
      && t.answers[j] == t.answers[k]
      && exists c :: 0 <= c < |t.commits| && t.commits[c].operation == t.answers[j].operation
                     && ResponseOf(t.commits[c].record) == t.answers[j]
  {
    hide Step, Enabled, ResponseOf, ValidResponse;
    RunKeepsInv(INITIAL, events);
    RunKeepsAllCommitted(INITIAL, events);
    var t := After(INITIAL, events);
    assert AnswerOk(t.table, t.answers[j]) && AnswerOk(t.table, t.answers[k]);
    var c :| 0 <= c < |t.commits| && t.commits[c].operation == t.answers[j].operation;
    assert t.table[t.commits[c].operation] == t.commits[c].record;
  }

  /** A later claim of the same operation is granted only once the earlier lease is over, by the later
      claimant's clock. */
  lemma LeasesDoNotOverlap(events: seq<Event>, j: nat, k: nat)
    requires RunOf(INITIAL, events)
    requires j < k < |After(INITIAL, events).grants|
    requires After(INITIAL, events).grants[j].operation == After(INITIAL, events).grants[k].operation
    ensures
      var t := After(INITIAL, events);
      t.grants[j].now < t.grants[j].lease <= t.grants[k].now < t.grants[k].lease
  {
    hide Step, Enabled;
    RunKeepsInv(INITIAL, events);
  }

  /** Calling again once an operation is terminal replays its answer to the same request, refuses any
      other request, and leaves the store alone. */
  lemma CallAfterTerminal(s: System, i: nat, now: int, duration: int)
    requires Inv(s) && Enabled(s, Call(i, now, duration, NoFault))
    requires
      var op := s.executors[i].request.operation;
      op in s.table && Terminal(s.table[op])
    ensures
      var t := Step(s, Call(i, now, duration, NoFault));
      var stored := s.table[s.executors[i].request.operation];
      && t.table == s.table && t.grants == s.grants
      && t.executors[i].phase ==
           Done(if stored.fingerprint == FingerprintOf(s.executors[i].request) then Answer(ResponseOf(stored))
                else Failure)
  {
    hide StartsOk, CommitsOk, AnswersOk, GrantsOk, HoldersOk, PhasesOk, TokensOk, CallersOk, PolicyIdentity;
    var op := s.executors[i].request.operation;
    assert s.table[op := s.table[op]] == s.table;
  }
}

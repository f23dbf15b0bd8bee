/** What the plugin log outbox promises over whole runs of its operations. */
module LogOutboxRuns {
  import opened Sequences
  import opened LogReports
  import opened LogOutboxState
  import opened LogOutboxInvariant

  datatype Op =
    | Enqueue(batchId: string, drafts: seq<Report>)
    | Acknowledge(sent: seq<Report>)
    | Retire(fence: Fence)
    | Stage(id: string, revision: int, fences: seq<Fence>, sessionId: string)
    | Drain(id: string)
    | Complete(id: string)
    | Abort(id: string)
    | Authorize(applied: Applied)

  function Step(s: State, op: Op): State {
    match op
    case Enqueue(b, drafts) => AfterEnqueue(s, b, drafts)
    case Acknowledge(sent) => AfterAcknowledge(s, sent)
    case Retire(f) => AfterRetire(s, f)
    case Stage(id, revision, fences, session) => AfterStage(s, id, revision, fences, session)
    case Drain(id) => AfterDrain(s, id)
    case Complete(id) => AfterComplete(s, id)
    case Abort(id) => AfterAbort(s, id)
    case Authorize(a) => AfterAuthorize(s, a)
  }

  function Run(s: State, ops: seq<Op>): State
    decreases |ops|
  {
    if ops == [] then s else Run(Step(s, ops[0]), ops[1..])
  }

  lemma StepKeepsInv(s: State, op: Op)
    requires Inv(s)
    ensures Inv(Step(s, op))
  {
    match op
    case Enqueue(b, drafts) => EnqueueKeepsInv(s, b, drafts);
    case Acknowledge(sent) => AcknowledgeKeepsInv(s, sent);
    case Retire(f) => RetireKeepsInv(s, f);
    case Stage(id, revision, fences, session) => StageKeepsInv(s, id, revision, fences, session);
    case Drain(id) => DrainKeepsInv(s, id);
    case Complete(id) => CompleteKeepsInv(s, id);
    case Abort(id) => AbortKeepsInv(s, id);
    case Authorize(a) => AuthorizeKeepsInv(s, a);
  }

  /** The invariant holds after every run that starts where it holds; the empty outbox is such a start. */
  lemma {:induction false} RunKeepsInv(s: State, ops: seq<Op>)
    requires s == EMPTY || Inv(s)
    ensures Inv(Run(s, ops))
    decreases |ops|
  {
    if ops != [] {
      StepKeepsInv(s, ops[0]);
      RunKeepsInv(Step(s, ops[0]), ops[1..]);
    }
  }

  // ---------- nothing is lost ----------

  predicate Names(op: Op, id: ReportId) {
    op.Acknowledge? && id in Ids(op.sent)
  }

  lemma StepKeepsPending(s: State, op: Op, r: Report)
    requires r in s.pending && !Names(op, Id(r))
    ensures r in Step(s, op).pending
  {
  }

  /** A pending report stays pending through any run without an acknowledgement that names it. */
  lemma {:induction false} PendingUntilAcknowledged(s: State, ops: seq<Op>, r: Report)
    requires r in s.pending
    requires forall op :: op in ops ==> !Names(op, Id(r))
    ensures r in Run(s, ops).pending
    decreases |ops|
  {
    if ops != [] {
      StepKeepsPending(s, ops[0], r);
      PendingUntilAcknowledged(Step(s, ops[0]), ops[1..], r);
    }
  }

  // ---------- replaying a batch ----------

  /** Trimming never drops a batch that holds a pending report. */
  lemma ProtectedSurvives(s: State, b: string, r: Report)
    requires Lists(s.batchOrder, s.batches.Keys) && DistinctIds(s.batches) && |s.pending| <= MAX_PENDING_REPORTS
    requires b in s.batches && r in s.batches[b] && r in s.pending
    ensures b in Trimmed(s).batches && Trimmed(s).batches[b] == s.batches[b]
  {
    assert Id(r) in Ids(s.batches[b]) * Ids(s.pending);
    EvictionCount(s);
  }

  lemma EnqueueKeepsBatch(s: State, batchId: string, drafts: seq<Report>, b: string, r: Report)
    requires Lists(s.batchOrder, s.batches.Keys) && Lists(s.sequenceOrder, s.sequence.Keys)
    requires s.retired <= s.sequence.Keys && DistinctIds(s.batches) && BatchesCovered(s.batches, s.sequence)
    requires EnqueueOutcomeOf(s, batchId, drafts).Accepted?
    requires var t := Appended(s, batchId, drafts); b in t.batches && r in t.batches[b] && r in t.pending
    ensures b in AfterEnqueue(s, batchId, drafts).batches
    ensures AfterEnqueue(s, batchId, drafts).batches[b] == Appended(s, batchId, drafts).batches[b]
  {
    AppendedDistinct(s, batchId, drafts);
    AppendedOrders(s, batchId, drafts);
    ProtectedSurvives(Appended(s, batchId, drafts), b, r);
  }

  lemma EnqueueKeepsOldBatch(s: State, batchId: string, drafts: seq<Report>, b: string, r: Report)
    requires Lists(s.batchOrder, s.batches.Keys) && Lists(s.sequenceOrder, s.sequence.Keys)
    requires s.retired <= s.sequence.Keys && DistinctIds(s.batches) && BatchesCovered(s.batches, s.sequence)
    requires EnqueueOutcomeOf(s, batchId, drafts).Accepted?
    requires b in s.batches && r in s.batches[b] && r in s.pending
    ensures b in AfterEnqueue(s, batchId, drafts).batches && AfterEnqueue(s, batchId, drafts).batches[b] == s.batches[b]
  {
    hide BatchesCovered, DistinctIds, Lists, AfterEnqueue, Numbered;
    assert Appended(s, batchId, drafts).batches[b] == s.batches[b];
    EnqueueKeepsBatch(s, batchId, drafts, b, r);
  }

  lemma AcknowledgeKeepsBatch(s: State, sent: seq<Report>, b: string, r: Report)
    requires Lists(s.batchOrder, s.batches.Keys) && DistinctIds(s.batches) && |s.pending| <= MAX_PENDING_REPORTS
    requires b in s.batches && r in s.batches[b] && r in s.pending && Id(r) !in Ids(sent)
    ensures b in AfterAcknowledge(s, sent).batches && AfterAcknowledge(s, sent).batches[b] == s.batches[b]
  {
    ProtectedSurvives(Removed(s, sent), b, r);
  }

  /** A batch that holds a pending report survives every operation that does not acknowledge it. */
  lemma StepKeepsBatch(s: State, op: Op, b: string, r: Report)
    requires Inv(s) && b in s.batches && r in s.batches[b] && r in s.pending
    requires !Names(op, Id(r))
    ensures b in Step(s, op).batches && Step(s, op).batches[b] == s.batches[b]
    ensures r in Step(s, op).pending
  {
    hide BatchesCovered, DistinctIds, PendingRetained, PendingOrdered, ValidIntents, Lists;
    hide AfterEnqueue, AfterAcknowledge, EnqueueOutcomeOf, AckOutcomeOf;
    StepKeepsPending(s, op, r);
    if op.Enqueue? && EnqueueOutcomeOf(s, op.batchId, op.drafts).Accepted? {
      EnqueueKeepsOldBatch(s, op.batchId, op.drafts, b, r);
    } else if op.Acknowledge? && AckOutcomeOf(s, op.sent).Acknowledged? {
      AcknowledgeKeepsBatch(s, op.sent, b, r);
    } else {
      OtherStepsKeepBatches(s, op);
    }
  }

  lemma RetireKeepsBatches(s: State, f: Fence)
    requires Inv(s)
    ensures AfterRetire(s, f).batches == s.batches
  {
    hide BatchesCovered, DistinctIds, PendingRetained, PendingOrdered, ValidIntents, ValidFence, Forgotten, Trimmed;
    if ValidFence(f) {
      RetireIsRetireAll(s, f);
    }
  }

  /** Only an accepted batch or a recorded acknowledgement can touch the retained batches. */
  lemma OtherStepsKeepBatches(s: State, op: Op)
    requires Inv(s)
    requires !(op.Enqueue? && EnqueueOutcomeOf(s, op.batchId, op.drafts).Accepted?)
    requires !(op.Acknowledge? && AckOutcomeOf(s, op.sent).Acknowledged?)
    ensures Step(s, op).batches == s.batches
  {
    hide Inv, AfterRetire, Forgotten, EnqueueOutcomeOf, AckOutcomeOf;
    if op.Retire? {
      RetireKeepsBatches(s, op.fence);
    }
  }

  lemma {:induction false} RunKeepsBatch(s: State, ops: seq<Op>, b: string, r: Report)
    requires Inv(s) && b in s.batches && r in s.batches[b] && r in s.pending
    requires forall op :: op in ops ==> !Names(op, Id(r))
    ensures b in Run(s, ops).batches && Run(s, ops).batches[b] == s.batches[b]
    decreases |ops|
  {
    if ops != [] {
      StepKeepsBatch(s, ops[0], b, r);
      StepKeepsInv(s, ops[0]);
      RunKeepsBatch(Step(s, ops[0]), ops[1..], b, r);
    }
  }

  /** Capturing a batch again, any number of operations later, gives back the numbers it was first
      given and changes nothing, as long as one of its reports is still unacknowledged. */
  lemma ReplayReturnsTheOriginalNumbers(s: State, batchId: string, drafts: seq<Report>, ops: seq<Op>, r: Report)
    requires Inv(s) && EnqueueOutcomeOf(s, batchId, drafts).Accepted?
    requires r in Numbered(s.sequence, drafts)
    requires forall op :: op in ops ==> !Names(op, Id(r))
    ensures
      var later := Run(AfterEnqueue(s, batchId, drafts), ops);
      && EnqueueOutcomeOf(later, batchId, drafts) == Replayed(Numbered(s.sequence, drafts))
      && AfterEnqueue(later, batchId, drafts) == later
  {
    NumberingIsReversible(s, batchId, drafts);
    EnqueueKeepsBatch(s, batchId, drafts, batchId, r);
    EnqueueKeepsInv(s, batchId, drafts);
    RunKeepsBatch(AfterEnqueue(s, batchId, drafts), ops, batchId, r);
  }

  lemma NumberingIsReversible(s: State, batchId: string, drafts: seq<Report>)
    requires EnqueueOutcomeOf(s, batchId, drafts).Accepted?
    ensures Unnumbered(Numbered(s.sequence, drafts)) == drafts
  {
    forall i | 0 <= i < |drafts| ensures drafts[i].sequence == 0 {
      NoDraftError(s.sequence, drafts, |drafts|, i);
    }
  }

  // ---------- numbering ----------

  /** The numbers, in order, that the reports of one fence carry. */
  function NumbersOf(reports: seq<Report>, f: Fence): seq<nat> {
    if reports == [] then []
    else
      var last := reports[|reports| - 1];
      NumbersOf(reports[..|reports| - 1], f) + (if last.fence == f then [last.sequence] else [])
  }

  function Consecutive(after: nat, n: nat): (s: seq<nat>)
    ensures |s| == n && forall i :: 0 <= i < n ==> s[i] == after + 1 + i
  {
    seq(n, i requires 0 <= i < n => after + 1 + i)
  }

  lemma ConsecutiveNext(after: nat, n: nat)
    ensures Consecutive(after, n) + [after + n + 1] == Consecutive(after, n + 1)
  {
  }

  lemma JoinConsecutive(a: seq<nat>, b: seq<nat>, after: nat)
    requires a == Consecutive(after, |a|) && b == Consecutive(after + |a|, |b|)
    ensures a + b == Consecutive(after, |a + b|)
  {
  }

  /** What one operation hands out to one fence. */
  function HandsOut(s: State, op: Op, f: Fence): seq<nat> {
    if op.Enqueue? && EnqueueOutcomeOf(s, op.batchId, op.drafts).Accepted?
    then NumbersOf(Numbered(s.sequence, op.drafts), f)
    else []
  }

  /** What a run hands out to one fence. */
  function HandedOut(s: State, ops: seq<Op>, f: Fence): seq<nat>
    decreases |ops|
  {
    if ops == [] then [] else HandsOut(s, ops[0], f) + HandedOut(Step(s, ops[0]), ops[1..], f)
  }

  /** The run never forgets fence `f` once it tracks it. */
  predicate Remembers(s: State, ops: seq<Op>, f: Fence)
    decreases |ops|
  {
    ops == [] ||
    ((f in s.sequence ==> f in Step(s, ops[0]).sequence) && Remembers(Step(s, ops[0]), ops[1..], f))
  }

  lemma NoneConsecutive(after: nat)
    ensures Consecutive(after, 0) == []
  {
  }

  lemma {:induction false} NumbersOfPrefix(hw: map<Fence, nat>, drafts: seq<Report>, f: Fence, n: nat)
    requires n <= |drafts|
    ensures NumbersOf(Numbered(hw, drafts)[..n], f) == Consecutive(HighWater(hw, f), Count(drafts[..n], f))
  {
    hide Consecutive, HighWater;
    if n == 0 {
      NoneConsecutive(HighWater(hw, f));
    } else {
      NumbersOfPrefix(hw, drafts, f, n - 1);
      var reports := Numbered(hw, drafts)[..n];
      assert reports[..n - 1] == Numbered(hw, drafts)[..n - 1] && reports[n - 1] == Numbered(hw, drafts)[n - 1];
      assert drafts[..n][..n - 1] == drafts[..n - 1];
      ConsecutiveNext(HighWater(hw, f), Count(drafts[..n - 1], f));
    }
  }

  lemma NumbersOfBatch(hw: map<Fence, nat>, drafts: seq<Report>, f: Fence)
    ensures NumbersOf(Numbered(hw, drafts), f) == Consecutive(HighWater(hw, f), Count(drafts, f))
    ensures HighWater(Advanced(hw, drafts), f) == HighWater(hw, f) + Count(drafts, f)
  {
    NumbersOfPrefix(hw, drafts, f, |drafts|);
    assert Numbered(hw, drafts)[..|drafts|] == Numbered(hw, drafts);
    assert drafts[..|drafts|] == drafts;
    if f !in Fences(drafts) {
      CountAbsent(drafts, f);
    }
  }

  lemma {:induction false} CountAbsent(drafts: seq<Report>, f: Fence)
    requires f !in Fences(drafts)
    ensures Count(drafts, f) == 0
  {
    if drafts != [] {
      assert drafts[|drafts| - 1] in drafts;
      CountAbsent(drafts[..|drafts| - 1], f);
    }
  }

  /** Only an accepted batch moves a mark, and trimming either leaves a mark alone or forgets it. */
  lemma StepMark(s: State, op: Op, f: Fence)
    requires f in Step(s, op).sequence
    ensures
      op.Enqueue? && EnqueueOutcomeOf(s, op.batchId, op.drafts).Accepted? ==>
        HighWater(Step(s, op).sequence, f) == HighWater(s.sequence, f) + Count(op.drafts, f)
    ensures
      !(op.Enqueue? && EnqueueOutcomeOf(s, op.batchId, op.drafts).Accepted?) ==>
        f in s.sequence && Step(s, op).sequence[f] == s.sequence[f]
  {
  }

  /** An accepted batch leaves each of its fences tracked. */
  lemma AcceptedFenceTracked(s: State, batchId: string, drafts: seq<Report>, i: nat)
    requires Inv(s) && EnqueueOutcomeOf(s, batchId, drafts).Accepted? && i < |drafts|
    ensures drafts[i].fence in AfterEnqueue(s, batchId, drafts).sequence
  {
    var r := Numbered(s.sequence, drafts)[i];
    EnqueueKeepsBatch(s, batchId, drafts, batchId, r);
    EnqueueKeepsInv(s, batchId, drafts);
    assert Covered(AfterEnqueue(s, batchId, drafts).sequence, r);
  }

  lemma StepNumbers(s: State, op: Op, f: Fence)
    requires Inv(s) && (f in s.sequence ==> f in Step(s, op).sequence)
    ensures HandsOut(s, op, f) == Consecutive(HighWater(s.sequence, f), |HandsOut(s, op, f)|)
    ensures HighWater(Step(s, op).sequence, f) == HighWater(s.sequence, f) + |HandsOut(s, op, f)|
  {
    hide Inv;
    hide AfterEnqueue, AfterAcknowledge, AfterRetire, AfterComplete, AfterAuthorize, Numbered, EnqueueOutcomeOf;
    if f in Step(s, op).sequence {
      StepMark(s, op, f);
    }
    if op.Enqueue? && EnqueueOutcomeOf(s, op.batchId, op.drafts).Accepted? {
      NumbersOfBatch(s.sequence, op.drafts, f);
      if f in Fences(op.drafts) {
        var i :| 0 <= i < |op.drafts| && op.drafts[i].fence == f;
        AcceptedFenceTracked(s, op.batchId, op.drafts, i);
      } else {
        CountAbsent(op.drafts, f);
      }
    }
  }

  /** A fence that stays remembered is numbered without gaps or repeats over the whole run: the
      numbers handed out are the ones that follow its mark, in order. A fence that is not tracked
      starts at one. */
  lemma {:induction false} NumbersAreConsecutive(s: State, ops: seq<Op>, f: Fence)
    requires Inv(s) && Remembers(s, ops, f)
    ensures HandedOut(s, ops, f) == Consecutive(HighWater(s.sequence, f), |HandedOut(s, ops, f)|)
    ensures HighWater(Run(s, ops).sequence, f) == HighWater(s.sequence, f) + |HandedOut(s, ops, f)|
    decreases |ops|
  {
    hide Inv, Step, HandsOut, Consecutive, HighWater;
    if ops != [] {
      StepKeepsInv(s, ops[0]);
      StepNumbers(s, ops[0], f);
      NumbersAreConsecutive(Step(s, ops[0]), ops[1..], f);
      JoinConsecutive(HandsOut(s, ops[0], f), HandedOut(Step(s, ops[0]), ops[1..], f), HighWater(s.sequence, f));
    }
  }
}

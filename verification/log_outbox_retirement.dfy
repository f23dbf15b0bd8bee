/** When the plugin log outbox forgets: which fences lose their numbering, which batches leave the
    replay history, and why completing retirements against an applied snapshot is safe. */
module LogOutboxRetirement {
  import opened Sequences
  import opened LogReports
  import opened LogOutboxState
  import opened LogOutboxInvariant
  import opened LogOutboxRuns

  // ---------- forgetting a fence ----------

  /** The fences an operation asks to retire, if it is carried out. */
  function AsksToRetire(s: State, op: Op): set<Fence> {
    match op
    case Retire(f) => if ValidFence(f) then {f} else {}
    case Complete(id) => if CompleteOutcomeOf(s, id).IntentChanged? then FenceSet(s.intents[id]) else {}
    case Authorize(a) => IntentFences(s, Recoverable(s, a))
    case _ => {}
  }

  /** Among tracked fences, forgetting strikes exactly the retired ones no retained batch names. */
  lemma ForgottenExactly(s: State)
    requires PendingRetained(s.pending, s.batches) && s.retired <= s.sequence.Keys
    ensures Forgotten(s) == s.retired - BatchFences(s.batches)
  {
    forall f | f in Fences(s.pending) ensures f in BatchFences(s.batches) {
      var r :| r in s.pending && r.fence == f;
      var b :| b in s.batches && r in s.batches[b];
      assert f in Fences(s.batches[b]);
    }
  }

  lemma RetireNothing(s: State)
    requires Lists(s.sequenceOrder, s.sequence.Keys) && s.retired <= BatchFences(s.batches)
    ensures RetireAll(s, {}) == s
  {
    hide Forget;
    assert s.retired + {} * s.sequence.Keys == s.retired;
    ForgetNothing(s);
  }

  lemma InvRetireNothing(s: State)
    requires Inv(s)
    ensures RetireAll(s, {}) == s
  {
    RetireNothing(s);
  }

  lemma RetireOpIsRetireAll(s: State, f: Fence)
    requires Inv(s)
    ensures AfterRetire(s, f) == RetireAll(s, if ValidFence(f) then {f} else {})
  {
    if ValidFence(f) {
      RetireIsRetireAll(s, f);
    } else {
      RetireNothing(s);
    }
  }

  lemma CompleteIsRetireAll(s: State, id: string)
    requires Inv(s)
    ensures AfterComplete(s, id) ==
      RetireAll(s, AsksToRetire(s, Complete(id))).(intents := AfterComplete(s, id).intents)
  {
    hide Inv, RetireAll, CompleteOutcomeOf, FenceSet;
    InvRetireNothing(s);
  }

  lemma RetireStepIsRetireAll(s: State, op: Op)
    requires Inv(s) && (op.Retire? || op.Complete? || op.Authorize?)
    ensures Step(s, op) == RetireAll(s, AsksToRetire(s, op)).(intents := Step(s, op).intents)
  {
    hide Inv, RetireAll, AfterRetire, AfterComplete;
    if op.Retire? {
      RetireOpIsRetireAll(s, op.fence);
    } else if op.Complete? {
      CompleteIsRetireAll(s, op.id);
    }
  }

  lemma RetireStepForgets(s: State, op: Op, f: Fence)
    requires Inv(s) && f in s.sequence && (op.Retire? || op.Complete? || op.Authorize?)
    ensures f !in Step(s, op).sequence <==> f in s.retired + AsksToRetire(s, op) && f !in BatchFences(Step(s, op).batches)
  {
    hide BatchesCovered, DistinctIds, PendingOrdered, ValidIntents, Lists, ValidFence, Step, AsksToRetire;
    RetireStepIsRetireAll(s, op);
    var asked := AsksToRetire(s, op);
    assert Step(s, op).sequence == RetireAll(s, asked).sequence && Step(s, op).batches == s.batches;
    ForgottenExactly(s.(retired := s.retired + asked * s.sequence.Keys));
  }

  /** An accepted batch keeps each of its fences tracked and named. */
  lemma AcceptedFenceNamed(s: State, batchId: string, drafts: seq<Report>, f: Fence)
    requires Inv(s) && EnqueueOutcomeOf(s, batchId, drafts).Accepted? && f in Fences(drafts)
    ensures f in AfterEnqueue(s, batchId, drafts).sequence && f in BatchFences(AfterEnqueue(s, batchId, drafts).batches)
  {
    var i :| 0 <= i < |drafts| && drafts[i].fence == f;
    var r := Numbered(s.sequence, drafts)[i];
    AcceptedFenceTracked(s, batchId, drafts, i);
    EnqueueKeepsBatch(s, batchId, drafts, batchId, r);
    assert r in AfterEnqueue(s, batchId, drafts).batches[batchId];
    assert f in Fences(AfterEnqueue(s, batchId, drafts).batches[batchId]);
  }

  lemma EnqueueStepForgets(s: State, batchId: string, drafts: seq<Report>, f: Fence)
    requires Inv(s) && f in s.sequence && EnqueueOutcomeOf(s, batchId, drafts).Accepted?
    ensures
      var t := AfterEnqueue(s, batchId, drafts);
      f !in t.sequence <==> f in s.retired && f !in BatchFences(t.batches)
  {
    hide BatchesCovered, DistinctIds, PendingRetained, PendingOrdered, ValidIntents, Lists, BatchFences;
    if f in Fences(drafts) {
      AcceptedFenceNamed(s, batchId, drafts, f);
    } else {
      var t := Appended(s, batchId, drafts);
      AppendedConsistent(s, batchId, drafts);
      EvictionSound(t);
      ForgottenExactly(Evicted(t));
    }
  }

  lemma AcknowledgeStepForgets(s: State, sent: seq<Report>, f: Fence)
    requires Inv(s) && f in s.sequence && AckOutcomeOf(s, sent).Acknowledged?
    ensures
      var t := AfterAcknowledge(s, sent);
      f !in t.sequence <==> f in s.retired && f !in BatchFences(t.batches)
  {
    hide DistinctIds;
    var t := Removed(s, sent);
    WithoutOrdered(s.pending, Ids(sent));
    EvictionSound(t);
    ForgottenExactly(Evicted(t));
  }

  /** A fence's high-water mark disappears exactly when the fence is retired, or the operation
      retires it, and afterwards neither a pending report nor a retained batch names it. */
  lemma MarkDisappearsOnlyWhenSpent(s: State, op: Op, f: Fence)
    requires Inv(s) && f in s.sequence
    ensures f !in Step(s, op).sequence <==>
      (f in s.retired + AsksToRetire(s, op) &&
       f !in Fences(Step(s, op).pending) && f !in BatchFences(Step(s, op).batches))
  {
    StepKeepsInv(s, op);
    PendingFencesRetained(Step(s, op), f);
    hide BatchesCovered, DistinctIds, PendingRetained, PendingOrdered, ValidIntents, Lists;
    hide AfterEnqueue, AfterAcknowledge, AfterRetire, AfterComplete, AfterAuthorize;
    if op.Retire? || op.Complete? || op.Authorize? {
      RetireStepForgets(s, op, f);
    } else if op.Enqueue? && EnqueueOutcomeOf(s, op.batchId, op.drafts).Accepted? {
      EnqueueStepForgets(s, op.batchId, op.drafts, f);
    } else if op.Acknowledge? && AckOutcomeOf(s, op.sent).Acknowledged? {
      AcknowledgeStepForgets(s, op.sent, f);
    } else {
      IdleStepForgetsNothing(s, op);
    }
  }

  lemma PendingFencesRetained(s: State, f: Fence)
    requires PendingRetained(s.pending, s.batches)
    ensures f in Fences(s.pending) ==> f in BatchFences(s.batches)
  {
    if f in Fences(s.pending) {
      var r :| r in s.pending && r.fence == f;
      var b :| b in s.batches && r in s.batches[b];
      assert f in Fences(s.batches[b]);
    }
  }

  lemma IdleStepForgetsNothing(s: State, op: Op)
    requires op.Stage? || op.Drain? || op.Abort? ||
             (op.Enqueue? && !EnqueueOutcomeOf(s, op.batchId, op.drafts).Accepted?) ||
             (op.Acknowledge? && !AckOutcomeOf(s, op.sent).Acknowledged?)
    ensures Step(s, op).sequence == s.sequence && Step(s, op).batches == s.batches
    ensures Step(s, op).retired == s.retired && Step(s, op).pending == s.pending
  {
    hide EnqueueOutcomeOf, AckOutcomeOf, StageOutcomeOf;
  }

  // ---------- eviction ----------

  /** Eviction is oldest first: if one unprotected batch goes and another stays, the one that went
      was queued earlier. */
  lemma EvictionIsOldestFirst(s: State, i: nat, j: nat)
    requires NoDup(s.batchOrder) && i < |s.batchOrder| && j < |s.batchOrder|
    requires s.batchOrder[i] in s.batches && s.batchOrder[j] in s.batches
    requires s.batchOrder[j] !in ProtectedBatches(s)
    requires s.batchOrder[i] !in Evicted(s).batches && s.batchOrder[j] in Evicted(s).batches
    ensures i < j
  {
    var cut := Cut(s.batchOrder, ProtectedBatches(s), Excess(|s.batches|), 0);
    assert forall k :: 0 <= k < cut ==> s.batchOrder[k] in s.batchOrder[..cut];
    assert s.batchOrder[i] in s.batchOrder[..cut];
  }

  // ---------- completing intents against an applied snapshot ----------

  /** The fences that retiring a set strikes from the numbering. */
  function Struck(s: State, fences: set<Fence>): set<Fence> {
    s.retired + fences * s.sequence.Keys - BatchFences(s.batches)
  }

  lemma RetireAllForm(s: State, fences: set<Fence>)
    requires PendingRetained(s.pending, s.batches) && s.retired <= s.sequence.Keys
    ensures RetireAll(s, fences) == s.(
      sequence := s.sequence - Struck(s, fences),
      sequenceOrder := Keep(s.sequenceOrder, s.sequence.Keys - Struck(s, fences)),
      retired := s.retired + fences * s.sequence.Keys - Struck(s, fences))
  {
    var marked := s.(retired := s.retired + fences * s.sequence.Keys);
    ForgottenExactly(marked);
    assert s.sequence.Keys * ProtectedFences(marked) == s.sequence.Keys - Struck(s, fences);
  }

  lemma StruckTwice(retired: set<Fence>, keys: set<Fence>, first: set<Fence>, second: set<Fence>, named: set<Fence>)
    requires retired <= keys
    ensures
      var a := retired + first * keys - named;
      var b := (retired + first * keys - a) + second * (keys - a) - named;
      var c := retired + (first + second) * keys - named;
      && a + b == c && (keys - a) * (keys - a - b) == keys - c
      && (retired + first * keys - a) + second * (keys - a) - b == retired + (first + second) * keys - c
  {
  }

  /** Retiring two sets one after the other is retiring their union. */
  lemma RetireAllTwice(s: State, first: set<Fence>, second: set<Fence>)
    requires Inv(s)
    ensures RetireAll(RetireAll(s, first), second) == RetireAll(s, first + second)
  {
    var t := RetireAll(s, first);
    RetireAllForm(s, first);
    RetireAllForm(t, second);
    RetireAllForm(s, first + second);
    RetireAllTwiceFromForms(s, t, first, second);
  }

  lemma RetireAllTwiceFromForms(s: State, t: State, first: set<Fence>, second: set<Fence>)
    requires s.retired <= s.sequence.Keys
    requires t == s.(
      sequence := s.sequence - Struck(s, first),
      sequenceOrder := Keep(s.sequenceOrder, s.sequence.Keys - Struck(s, first)),
      retired := s.retired + first * s.sequence.Keys - Struck(s, first))
    ensures
      t.(sequence := t.sequence - Struck(t, second),
         sequenceOrder := Keep(t.sequenceOrder, t.sequence.Keys - Struck(t, second)),
         retired := t.retired + second * t.sequence.Keys - Struck(t, second)) ==
      s.(sequence := s.sequence - Struck(s, first + second),
         sequenceOrder := Keep(s.sequenceOrder, s.sequence.Keys - Struck(s, first + second)),
         retired := s.retired + (first + second) * s.sequence.Keys - Struck(s, first + second))
  {
    hide BatchFences, Keep;
    var a, b, c := Struck(s, first), Struck(t, second), Struck(s, first + second);
    StruckTwice(s.retired, s.sequence.Keys, first, second, BatchFences(s.batches));
    assert t.sequence.Keys == s.sequence.Keys - a;
    assert t.sequence - b == s.sequence - c;
    KeepTwice(s.sequenceOrder, s.sequence.Keys - a, t.sequence.Keys - b);
  }

  /** Completing the listed intents one after another, the way the store walks the sorted ids. */
  function CompleteInTurn(s: State, ids: seq<string>): State
    decreases |ids|
  {
    if ids == [] then s else CompleteInTurn(AfterComplete(s, ids[0]), ids[1..])
  }

  /** Each completion in turn succeeds. */
  predicate AllComplete(s: State, ids: seq<string>)
    decreases |ids|
  {
    ids == [] || (CompleteOutcomeOf(s, ids[0]).IntentChanged? && AllComplete(AfterComplete(s, ids[0]), ids[1..]))
  }

  predicate Completable(s: State, ids: set<string>) {
    forall id :: id in ids ==> id in s.intents && s.intents[id].drained
  }

  lemma {:induction false} EachCompletes(s: State, ids: seq<string>, all: set<string>)
    requires Inv(s) && Lists(ids, all) && Completable(s, all)
    ensures AllComplete(s, ids)
    decreases |ids|
  {
    hide Inv, CompleteOutcomeOf, RetireAll;
    if ids != [] {
      CompleteOne(s, ids[0]);
      CompleteKeepsInv(s, ids[0]);
      ListsTail(ids, all);
      EachCompletes(AfterComplete(s, ids[0]), ids[1..], all - {ids[0]});
    }
  }

  /** Whatever the order, completing drained intents in turn comes to retiring all their fences at
      once. */
  lemma {:induction false} CompletingInAnyOrder(s: State, ids: seq<string>, all: set<string>)
    requires Inv(s) && Lists(ids, all) && Completable(s, all)
    ensures CompleteInTurn(s, ids) == RetireAll(s, IntentFences(s, all)).(intents := s.intents - all)
    decreases |ids|
  {
    hide Inv, RetireAll, CompleteOutcomeOf, IntentFences;
    if ids == [] {
      InvRetireNothing(s);
      assert all == {};
      NoIntentFences(s);
      assert s.intents - {} == s.intents;
    } else {
      CompleteOne(s, ids[0]);
      CompleteKeepsInv(s, ids[0]);
      ListsTail(ids, all);
      var t, rest := AfterComplete(s, ids[0]), all - {ids[0]};
      CompletingInAnyOrder(t, ids[1..], rest);
      CompleteThenRest(s, ids[0], all);
    }
  }

  lemma CompleteThenRest(s: State, id: string, all: set<string>)
    requires Inv(s) && id in all && id in s.intents && CompleteOutcomeOf(s, id).IntentChanged?
    ensures
      var t := AfterComplete(s, id);
      RetireAll(t, IntentFences(t, all - {id})).(intents := t.intents - (all - {id})) ==
      RetireAll(s, IntentFences(s, all)).(intents := s.intents - all)
  {
    hide Inv, RetireAll, IntentFences, FenceSet, CompleteOutcomeOf;
    var t, rest := AfterComplete(s, id), all - {id};
    IntentFencesSplit(s, t, id, all);
    RetireAllTwice(s, FenceSet(s.intents[id]), IntentFences(t, rest));
    RetireAllIgnoresIntents(RetireAll(s, FenceSet(s.intents[id])), IntentFences(t, rest), t.intents);
    assert t.intents - rest == s.intents - all;
  }

  lemma NoIntentFences(s: State)
    ensures IntentFences(s, {}) == {}
  {
  }

  lemma IntentFencesSplit(s: State, t: State, id: string, all: set<string>)
    requires id in all && id in s.intents && t.intents == s.intents - {id}
    ensures FenceSet(s.intents[id]) + IntentFences(t, all - {id}) == IntentFences(s, all)
  {
    forall f | f in IntentFences(s, all) ensures f in FenceSet(s.intents[id]) + IntentFences(t, all - {id}) {
      var other :| other in all && other in s.intents && f in s.intents[other].fences;
      if other != id {
        assert other in t.intents && f in t.intents[other].fences;
      }
    }
    forall f | f in FenceSet(s.intents[id]) ensures f in IntentFences(s, all) {
      assert f in s.intents[id].fences;
    }
  }

  lemma ListsTail(ids: seq<string>, all: set<string>)
    requires Lists(ids, all) && ids != []
    ensures Lists(ids[1..], all - {ids[0]})
  {
    assert ids == [ids[0]] + ids[1..];
    NoDupConcat([ids[0]], ids[1..]);
  }

  lemma CompleteOne(s: State, id: string)
    requires Inv(s) && id in s.intents && s.intents[id].drained
    ensures CompleteOutcomeOf(s, id).IntentChanged?
  {
  }

  lemma RetireAllIgnoresIntents(s: State, fences: set<Fence>, intents: map<string, Intent>)
    ensures RetireAll(s.(intents := intents), fences) == RetireAll(s, fences).(intents := intents)
  {
    var a, b := s.(retired := s.retired + fences * s.sequence.Keys), s.(intents := intents, retired := s.retired + fences * s.sequence.Keys);
    assert ProtectedFences(a) == ProtectedFences(b);
  }

  /** Authorizing an applied snapshot never fails, in whatever order the recoverable intents are
      walked, and the order makes no difference. */
  lemma AuthorizeNeverFails(s: State, a: Applied, ids: seq<string>)
    requires Inv(s) && Lists(ids, Recoverable(s, a))
    ensures AllComplete(s, ids) && CompleteInTurn(s, ids) == AfterAuthorize(s, a)
  {
    EachCompletes(s, ids, Recoverable(s, a));
    CompletingInAnyOrder(s, ids, Recoverable(s, a));
  }

  /** Authorizing touches no fence the snapshot still runs, and completes only drained intents. */
  lemma AuthorizeSparesActiveFences(s: State, a: Applied, f: Fence)
    requires Inv(s) && f in ActiveFences(a)
    ensures f in AfterAuthorize(s, a).retired <==> f in s.retired
    ensures f in s.sequence ==> f in AfterAuthorize(s, a).sequence && AfterAuthorize(s, a).sequence[f] == s.sequence[f]
    ensures forall id :: id in s.intents && !s.intents[id].drained ==>
              id in AfterAuthorize(s, a).intents && AfterAuthorize(s, a).intents[id] == s.intents[id]
  {
    hide BatchesCovered, DistinctIds, PendingRetained, PendingOrdered, ValidIntents, Lists;
    var asked := IntentFences(s, Recoverable(s, a));
    assert f !in asked;
    ForgottenExactly(s.(retired := s.retired + asked * s.sequence.Keys));
  }

  // ---------- intents a restart left behind ----------

  /** What a restarted session may drain, it may also complete once it has drained it, against the same
      snapshot; and draining one intent takes no other off either list. */
  lemma OrphansCanBeCompleted(s: State, a: Applied, sessionId: string, id: string, other: string)
    requires Inv(s) && id in RestartDrainable(s, a, sessionId)
    ensures id in Recoverable(AfterDrain(s, id), a) && id !in RestartDrainable(AfterDrain(s, id), a, sessionId)
    ensures other in Recoverable(s, a) ==> other in Recoverable(AfterDrain(s, id), a)
    ensures other in RestartDrainable(s, a, sessionId) && other != id ==> other in RestartDrainable(AfterDrain(s, id), a, sessionId)
  {
    hide ValidFence, Consistent;
    assert ValidDigest(id) by { IntentIdsAreDigests(s, id); }
  }

  lemma IntentIdsAreDigests(s: State, id: string)
    requires Inv(s) && id in s.intents
    ensures ValidDigest(id)
  {
  }

  /** A session never takes an intent it staged itself for one a restart left behind. */
  lemma OwnIntentsAreNotOrphans(s: State, id: string, revision: int, fences: seq<Fence>, sessionId: string, a: Applied)
    requires StageOutcomeOf(s, id, revision, fences, sessionId).IntentChanged?
    ensures id !in RestartDrainable(AfterStage(s, id, revision, fences, sessionId), a, sessionId)
    ensures forall other :: other in RestartDrainable(AfterStage(s, id, revision, fences, sessionId), a, sessionId) ==>
              other in RestartDrainable(s, a, sessionId)
  {
    hide ValidFence, ValidDigest;
  }

  // ---------- what an acknowledgement removes ----------

  /** An acknowledgement of valid, distinct reports leaves none of them pending exactly when it has
      not been recorded before or none of them was pending to begin with. */
  lemma AcknowledgeRemovesIff(s: State, sent: seq<Report>)
    requires sent != [] && FirstSentDefect(sent, |sent|).None?
    ensures (forall r :: r in AfterAcknowledge(s, sent).pending ==> Id(r) !in Ids(sent)) <==>
            (Digest(sent) !in s.acks || forall r :: r in s.pending ==> Id(r) !in Ids(sent))
  {
  }

  /** What trimming leaves of a state within its bounds, with nothing to forget. */
  lemma TrimNothing(s: State)
    requires |s.batches| <= MAX_REPLAY_IDENTITIES && |s.ackOrder| <= MAX_REPLAY_IDENTITIES
    requires Lists(s.sequenceOrder, s.sequence.Keys) && s.retired <= BatchFences(s.batches)
    ensures Trimmed(s) == s
  {
    hide Evicted, DropAcks, Forget;
    TrimIsForget(s);
    ForgetNothing(s);
  }

  /** Fences with the same marks are given the same numbers; a forgotten fence has the mark of an unknown one. */
  lemma SameMarksSameNumbers(a: map<Fence, nat>, b: map<Fence, nat>, drafts: seq<Report>)
    requires forall f :: f in Fences(drafts) ==> HighWater(a, f) == HighWater(b, f)
    ensures Numbered(a, drafts) == Numbered(b, drafts)
  {
    forall i | 0 <= i < |drafts| ensures Number(a, drafts, i) == Number(b, drafts, i) {
      assert drafts[i].fence in Fences(drafts);
    }
  }

  lemma AcceptedIsPending(s: State, batchId: string, drafts: seq<Report>)
    requires Inv(s) && EnqueueOutcomeOf(s, batchId, drafts).Accepted?
    ensures forall r :: r in Numbered(s.sequence, drafts) ==> r in AfterEnqueue(s, batchId, drafts).pending
    ensures AfterEnqueue(s, batchId, drafts).acks == s.acks
  {
    hide Numbered, Advanced, NewFences, Evicted, Forget;
    var t := Appended(s, batchId, drafts);
    InvAckBound(s);
    assert DropAcks(Forget(Evicted(t))) == Forget(Evicted(t)) by {
      TrimKeepsAcks(t);
      DropNothing(Forget(Evicted(t)));
    }
    TrimKeepsAcks(t);
  }

  lemma InvAckBound(s: State)
    requires Inv(s)
    ensures |s.ackOrder| <= MAX_REPLAY_IDENTITIES
  {
    ListsCardinality(s.ackOrder, s.acks);
  }

  lemma TrimKeepsAcks(s: State)
    ensures Forget(Evicted(s)).acks == s.acks && Forget(Evicted(s)).ackOrder == s.ackOrder
    ensures Forget(Evicted(s)).pending == s.pending
  {
  }

  /** A fence that is retired, forgotten and named again starts at one, so a batch of the same content is given
      the numbers it had before. If the acknowledgement of those is still remembered, the new reports cannot
      be acknowledged together: the acknowledgement is taken for a replay, and all of them stay pending. */
  lemma RestartedReportsCannotBeAcknowledged(s: State, batchId: string, drafts: seq<Report>, ops: seq<Op>, again: string)
    requires Inv(s) && EnqueueOutcomeOf(s, batchId, drafts).Accepted?
    requires
      var later := Run(s, ops);
      && (forall f :: f in Fences(drafts) ==> f !in s.sequence && f !in later.sequence)
      && Digest(Numbered(s.sequence, drafts)) in later.acks
      && EnqueueOutcomeOf(later, again, drafts).Accepted?
    ensures
      var sent := Numbered(s.sequence, drafts);
      var t := AfterEnqueue(Run(s, ops), again, drafts);
      && (forall r :: r in sent ==> r in t.pending)
      && AckOutcomeOf(t, sent) == AlreadyAcknowledged(Digest(sent)) && AfterAcknowledge(t, sent) == t
  {
    hide Inv, Numbered, AfterEnqueue, EnqueueOutcomeOf;
    var later := Run(s, ops);
    RunKeepsInv(s, ops);
    SameMarksSameNumbers(s.sequence, later.sequence, drafts);
    AcceptedIsPending(later, again, drafts);
    AcceptedIsNotEmpty(s, batchId, drafts);
  }

  lemma AcceptedIsNotEmpty(s: State, batchId: string, drafts: seq<Report>)
    requires EnqueueOutcomeOf(s, batchId, drafts).Accepted?
    ensures |Numbered(s.sequence, drafts)| > 0
  {
  }

  // The same without any retirement: an acknowledgement that comes before the report it names.

  function Repeat(c: char, n: nat): (s: string)
    ensures |s| == n && forall i :: 0 <= i < n ==> s[i] == c
  {
    seq(n, _ => c)
  }

  const SAMPLE_FENCE := Fence(1, "g", "i", "p", "a", Repeat('a', 64), Repeat('b', 64))
  const SAMPLE_REPORT := Report(SAMPLE_FENCE, 1, [Entry("info", "m", false)])

  const SAMPLE_BATCH := Repeat('c', 64)

  const SAMPLE_DRAFT := SAMPLE_REPORT.(sequence := 0)

  /** The empty outbox acknowledges a report it does not hold, and then captures it. */
  const EARLY_RUN := [Acknowledge([SAMPLE_REPORT]), Enqueue(SAMPLE_BATCH, [SAMPLE_DRAFT])]

  const ACKNOWLEDGED := EMPTY.(acks := {Digest([SAMPLE_REPORT])}, ackOrder := [Digest([SAMPLE_REPORT])])

  const CAPTURED := ACKNOWLEDGED.(
    pending := [SAMPLE_REPORT], sequence := map[SAMPLE_FENCE := 1], sequenceOrder := [SAMPLE_FENCE],
    batches := map[SAMPLE_BATCH := [SAMPLE_REPORT]], batchOrder := [SAMPLE_BATCH])

  lemma SampleIsValid()
    ensures ValidReport(SAMPLE_REPORT) && ValidDigest(SAMPLE_BATCH)
  {
  }

  lemma AcknowledgedIsTrim()
    ensures Trimmed(ACKNOWLEDGED) == ACKNOWLEDGED
  {
    hide Trimmed;
    TrimNothing(ACKNOWLEDGED);
  }

  lemma CapturedIsTrim()
    ensures Trimmed(CAPTURED) == CAPTURED
  {
    hide Trimmed;
    TrimNothing(CAPTURED);
  }

  lemma NothingPendingRemoved()
    ensures Removed(EMPTY, [SAMPLE_REPORT]) == ACKNOWLEDGED
    ensures AckOutcomeOf(EMPTY, [SAMPLE_REPORT]).Acknowledged?
  {
    hide ValidReport;
    SampleIsValid();
    assert FirstSentDefect([SAMPLE_REPORT], 0).None?;
  }

  lemma EarlyAcknowledgement()
    ensures AfterAcknowledge(EMPTY, [SAMPLE_REPORT]) == ACKNOWLEDGED
  {
    hide Trimmed, Removed, AckOutcomeOf;
    NothingPendingRemoved();
    AcknowledgedIsTrim();
  }

  lemma SampleNumbers()
    ensures Numbered(map[], [SAMPLE_DRAFT]) == [SAMPLE_REPORT]
    ensures FirstDraftError(map[], [SAMPLE_DRAFT], 1).None?
    ensures Advanced(map[], [SAMPLE_DRAFT]) == map[SAMPLE_FENCE := 1]
    ensures NewFences({}, [SAMPLE_DRAFT]) == [SAMPLE_FENCE]
  {
    var d := [SAMPLE_DRAFT];
    assert d[..1] == d && d[..0] == [];
    assert Count(d, SAMPLE_FENCE) == 1 by {
      assert Count(d[..0], SAMPLE_FENCE) == 0;
    }
    assert Number(map[], d, 0) == 1;
    SampleIsValid();
    assert FirstDraftError(map[], d, 0).None?;
    assert NewFences({}, d[..0]) == [];
    assert Fences(d) == {SAMPLE_FENCE};
  }

  lemma SampleAppended()
    ensures EnqueueOutcomeOf(ACKNOWLEDGED, SAMPLE_BATCH, [SAMPLE_DRAFT]).Accepted?
    ensures Appended(ACKNOWLEDGED, SAMPLE_BATCH, [SAMPLE_DRAFT]) == CAPTURED
  {
    hide Numbered, FirstDraftError, Advanced, NewFences, ValidDigest, ValidReport;
    SampleIsValid();
    SampleNumbers();
    var t := Appended(ACKNOWLEDGED, SAMPLE_BATCH, [SAMPLE_DRAFT]);
    assert ACKNOWLEDGED.sequence.Keys == {};
    assert t.batches == CAPTURED.batches && t.batchOrder == CAPTURED.batchOrder;
    assert t.pending == CAPTURED.pending && t.retired == {};
    assert t.sequence == CAPTURED.sequence && t.sequenceOrder == CAPTURED.sequenceOrder;
  }

  lemma LateCapture()
    ensures AfterEnqueue(ACKNOWLEDGED, SAMPLE_BATCH, [SAMPLE_DRAFT]) == CAPTURED
  {
    hide Trimmed, Appended, EnqueueOutcomeOf;
    SampleAppended();
    CapturedIsTrim();
  }

  /** Acknowledging does not always remove what was sent: after this run the acknowledgement is taken for a
      replay and the report stays pending. */
  lemma ReplayedAcknowledgementKeepsTheReport()
    ensures Run(EMPTY, EARLY_RUN) == CAPTURED
    ensures AckOutcomeOf(CAPTURED, [SAMPLE_REPORT]) == AlreadyAcknowledged(Digest([SAMPLE_REPORT]))
    ensures SAMPLE_REPORT in AfterAcknowledge(CAPTURED, [SAMPLE_REPORT]).pending
  {
    hide AfterEnqueue;
    EarlyAcknowledgement();
    LateCapture();
    assert EARLY_RUN[1..] == [Enqueue(SAMPLE_BATCH, [SAMPLE_DRAFT])];
    assert EARLY_RUN[1..][1..] == [];
    assert Run(CAPTURED, []) == CAPTURED;
    assert Run(ACKNOWLEDGED, EARLY_RUN[1..]) == Run(CAPTURED, []);
  }
}

/** The plugin log outbox as it is written: one mutable object whose methods update maps, orders and
    the pending list in place. Every method is proved to do what its function in `LogOutboxState`
    says and to keep `Valid`. */
module LogOutbox {
  import opened Sequences
  import opened LogReports
  import opened LogOutboxState
  import opened LogOutboxInvariant
  import opened LogOutboxRuns
  import opened LogOutboxRetirement
  import opened LogOutboxLoops

  class Outbox {
    var pending: seq<Report>
    var sequence: map<Fence, nat>
    var sequenceOrder: seq<Fence>
    var batches: map<string, seq<Report>>
    var batchOrder: seq<string>
    var acks: set<Digest>
    var ackOrder: seq<Digest>
    var retired: set<Fence>
    var intents: map<string, Intent>

    function Value(): State
      reads this
    {
      State(pending, sequence, sequenceOrder, batches, batchOrder, acks, ackOrder, retired, intents)
    }

    ghost predicate Valid()
      reads this
    {
      Inv(Value())
    }

    constructor ()
      ensures Valid() && Value() == EMPTY
    {
      pending, sequence, sequenceOrder := [], map[], [];
      batches, batchOrder := map[], [];
      acks, ackOrder := {}, [];
      retired, intents := {}, map[];
    }

    method Enqueue(batchId: string, drafts: seq<Report>) returns (outcome: EnqueueOutcome)
      requires Valid()
      modifies this
      ensures outcome == EnqueueOutcomeOf(old(Value()), batchId, drafts)
      ensures Value() == AfterEnqueue(old(Value()), batchId, drafts)
      ensures !outcome.Accepted? ==> Value() == old(Value())
      ensures Valid()
    {
      hide Inv, Consistent, Trimmed, FirstDraftError, Numbered, Advanced, NewFences, Unnumbered, ValidDigest;
      EnqueueKeepsInv(Value(), batchId, drafts);
      if |drafts| == 0 {
        return Ignored;
      }
      if !ValidDigest(batchId) {
        return Rejected(InvalidBatchId);
      }
      if batchId in batches {
        if Digest(Unnumbered(batches[batchId])) != Digest(drafts) {
          return Rejected(BatchCollision);
        }
        return Replayed(batches[batchId]);
      }
      if |pending| + |drafts| > MAX_PENDING_REPORTS {
        return Rejected(OutboxFull);
      }
      var numbered, next, order, error := NumberDrafts(drafts);
      if error.Some? {
        return Rejected(error.value);
      }
      ghost var before := Value();
      retired := retired - Fences(drafts);
      sequence, sequenceOrder := next, order;
      pending := pending + numbered;
      batches := batches[batchId := numbered];
      batchOrder := batchOrder + [batchId];
      assert Value() == Appended(before, batchId, drafts);
      InvIsConsistent(before);
      AppendedConsistent(before, batchId, drafts);
      TrimReplayHistory();
      return Accepted(numbered);
    }

    /** The numbering loop: walks the drafts once, carrying the marks and their order forward, and
        stops at the first draft that cannot be accepted. Nothing of the outbox is changed. */
    method NumberDrafts(drafts: seq<Report>)
      returns (numbered: seq<Report>, next: map<Fence, nat>, order: seq<Fence>, error: Option<EnqueueError>)
      ensures error == FirstDraftError(sequence, drafts, |drafts|)
      ensures error.None? ==>
        numbered == Numbered(sequence, drafts) && next == Advanced(sequence, drafts) &&
        order == sequenceOrder + NewFences(sequence.Keys, drafts)
    {
      hide ValidReport, Number, Advanced, NewFences;
      NumberNone(sequence, drafts);
      numbered, next, order, error := [], sequence, sequenceOrder, None;
      var i := 0;
      while i < |drafts|
        invariant 0 <= i <= |drafts| && |numbered| == i
        invariant error.None? && FirstDraftError(sequence, drafts, i).None?
        invariant forall k :: 0 <= k < i ==> numbered[k] == drafts[k].(sequence := Number(sequence, drafts, k))
        invariant next == Advanced(sequence, drafts[..i])
        invariant order == sequenceOrder + NewFences(sequence.Keys, drafts[..i])
      {
        AdvanceOne(sequence, drafts, i);
        var f := drafts[i].fence;
        if drafts[i].sequence != 0 {
          error := Some(AlreadySequenced);
          ErrorStands(sequence, drafts, i, |drafts|);
          return;
        }
        if f !in next {
          order := order + [f];
        }
        var number := HighWater(next, f) + 1;
        if number > MAX_SEQUENCE {
          error := Some(SequenceExhausted);
          ErrorStands(sequence, drafts, i, |drafts|);
          return;
        }
        var report := drafts[i].(sequence := number);
        if !ValidReport(report) {
          error := Some(InvalidReport);
          ErrorStands(sequence, drafts, i, |drafts|);
          return;
        }
        numbered := numbered + [report];
        next := next[f := number];
        i := i + 1;
      }
      assert drafts[..|drafts|] == drafts;
    }

    method Acknowledge(sent: seq<Report>) returns (outcome: AckOutcome)
      requires Valid()
      modifies this
      ensures outcome == AckOutcomeOf(old(Value()), sent)
      ensures Value() == AfterAcknowledge(old(Value()), sent)
      ensures Valid()
    {
      hide Inv, Consistent, Trimmed, Without, IdsInOrder, FirstSentDefect;
      AcknowledgeKeepsInv(Value(), sent);
      if |sent| == 0 {
        return NothingSent;
      }
      var ackId := Digest(sent);
      if ackId in acks {
        return AlreadyAcknowledged(ackId);
      }
      var acked, identities, defect := CollectSent(sent);
      if defect.Some? {
        return defect.value;
      }
      ghost var before := Value();
      RemovedConsistent(before, sent);
      var changed := RemovePending(acked);
      acks := acks + {ackId};
      ackOrder := ackOrder + [ackId];
      TrimReplayHistory();
      return Acknowledged(ackId, identities, changed);
    }

    /** Validates what was sent and collects its identities, refusing a repeated one. */
    static method CollectSent(sent: seq<Report>)
      returns (acked: set<ReportId>, identities: seq<ReportId>, defect: Option<AckOutcome>)
      ensures defect == FirstSentDefect(sent, |sent|)
      ensures defect.None? ==> acked == Ids(sent) && identities == IdsInOrder(sent)
    {
      hide ValidReport, FirstSentDefect, Ids;
      NoSentDefect(sent);
      acked, identities, defect := {}, [], None;
      var i := 0;
      while i < |sent|
        invariant 0 <= i <= |sent| && |identities| == i
        invariant defect.None? && FirstSentDefect(sent, i).None?
        invariant acked == Ids(sent[..i])
        invariant forall k :: 0 <= k < i ==> identities[k] == Id(sent[k])
      {
        IdsGrow(sent, i);
        DefectStep(sent, i);
        var identity := Id(sent[i]);
        if !ValidReport(sent[i]) {
          defect := Some(InvalidSent);
          DefectStands(sent, i + 1, |sent|);
          return;
        }
        if identity in acked {
          defect := Some(DuplicateSent);
          DefectStands(sent, i + 1, |sent|);
          return;
        }
        acked, identities := acked + {identity}, identities + [identity];
        i := i + 1;
      }
      assert sent[..|sent|] == sent;
    }

    /** Filters the pending list in place and says whether anything went. */
    method RemovePending(acked: set<ReportId>) returns (changed: bool)
      modifies this`pending
      ensures pending == Without(old(pending), acked)
      ensures changed <==> exists r :: r in old(pending) && Id(r) in acked
    {
      hide Without;
      var kept: seq<Report> := [];
      changed := false;
      var i := 0;
      while i < |pending|
        invariant 0 <= i <= |pending| && pending == old(pending)
        invariant kept == Without(pending[..i], acked)
        invariant changed <==> kept != pending[..i]
      {
        WithoutOneMore(pending, acked, i);
        if Id(pending[i]) in acked {
          changed := true;
        } else {
          kept := kept + [pending[i]];
        }
        i := i + 1;
      }
      assert pending[..|pending|] == pending;
      WithoutChanges(pending, acked);
      pending := kept;
    }

    /** Bounds the replay history: evicts batches, forgets fences, drops acknowledgements. */
    method TrimReplayHistory()
      requires Consistent(Value())
      modifies this
      ensures Value() == Trimmed(old(Value()))
      ensures Valid()
    {
      hide Inv, Evicted, Forget, DropAcks, Lists, DistinctIds, BatchesCovered, PendingRetained, PendingOrdered, ValidIntents;
      TrimSound(Value());
      EvictionSound(Value());
      ForgetSound(Evicted(Value()));
      EvictBatches();
      ForgetFences();
      DropOldAcks();
    }

    /** The protected batches, found by walking every retained batch. */
    method FindProtected() returns (p: set<string>)
      ensures p == ProtectedBatches(Value())
    {
      var waiting := Ids(pending);
      var todo := batches.Keys;
      p := {};
      while todo != {}
        invariant todo <= batches.Keys
        invariant p == set b | b in batches && b !in todo && Ids(batches[b]) * Ids(pending) != {}
        decreases |todo|
      {
        var b :| b in todo;
        if exists r :: r in batches[b] && Id(r) in waiting {
          assert Ids(batches[b]) * Ids(pending) != {} by {
            var r :| r in batches[b] && Id(r) in waiting;
            assert Id(r) in Ids(batches[b]) * Ids(pending);
          }
          p := p + {b};
        }
        todo := todo - {b};
      }
    }

    /** The eviction loop. It takes the oldest entry each time round; a protected one is put back at
        the end, so the loop can turn without shrinking the history. It still ends: each turn moves
        one entry of the original order past the front, and the unprotected ones run out last. */
    method EvictBatches()
      requires Lists(batchOrder, batches.Keys) && DistinctIds(batches) && |pending| <= MAX_PENDING_REPORTS
      modifies this`batches, this`batchOrder
      ensures Value() == Evicted(old(Value()))
    {
      hide DistinctIds, Lists, Turned, ProtectedBatches;
      ghost var s := Value();
      var p := FindProtected();
      ProtectedBound(s);
      TurnedNone(s, p);
      ListsCardinality(batchOrder, batches.Keys);
      ghost var turned := 0;
      while |batches| > MAX_REPLAY_IDENTITIES && |batchOrder| > 0
        invariant 0 <= turned <= |s.batchOrder| && Value() == Turned(s, p, turned)
        invariant |batchOrder| == |batches|
        invariant Cut(s.batchOrder, p, Excess(|batches|), turned) == Cut(s.batchOrder, p, Excess(|s.batches|), 0)
        decreases |s.batchOrder| - turned
      {
        NotAllTurned(s, p, turned);
        TurnOnce(s, p, turned);
        var batchId := batchOrder[0];
        batchOrder := batchOrder[1..];
        if batchId in p {
          batchOrder := batchOrder + [batchId];
          if |p| == |batches| {
            break;
          }
        } else {
          batches := batches - {batchId};
        }
        turned := turned + 1;
      }
      EvictedIsTurned(s, turned);
    }

    /** Keeps the high-water marks that still matter and lets the others go. */
    method ForgetFences()
      requires Lists(sequenceOrder, sequence.Keys)
      modifies this`sequence, this`sequenceOrder, this`retired
      ensures Value() == Forget(old(Value()))
    {
      hide ProtectedFences, Passed, Forget, Lists;
      ghost var s := Value();
      var protected := ProtectedFences(Value());
      var order: seq<Fence> := [];
      PassNone(s, protected);
      var i := 0;
      while i < |sequenceOrder|
        invariant 0 <= i <= |sequenceOrder| && sequenceOrder == s.sequenceOrder
        invariant Value().(sequenceOrder := order) == Passed(s, protected, i)
      {
        PassOnce(s, protected, i);
        var f := sequenceOrder[i];
        if f in sequence {
          if f in protected {
            order := order + [f];
          } else {
            sequence := sequence - {f};
            retired := retired - {f};
          }
        }
        i := i + 1;
      }
      PassAll(s);
      sequenceOrder := order;
    }

    /** Drops the oldest acknowledgements beyond the bound. */
    method DropOldAcks()
      requires Lists(ackOrder, acks)
      modifies this`acks, this`ackOrder
      ensures Value() == DropAcks(old(Value()))
    {
      hide Lists, Dropped;
      ghost var s := Value();
      ghost var dropped := 0;
      DropNone(s);
      DroppedCount(s, 0);
      while |acks| > MAX_REPLAY_IDENTITIES && |ackOrder| > 0
        invariant 0 <= dropped <= Excess(|s.ackOrder|) && Value() == Dropped(s, dropped)
        invariant |acks| == |s.ackOrder| - dropped
        decreases |s.ackOrder| - dropped
      {
        DropOnce(s, dropped);
        DroppedOrder(s, dropped);
        DroppedCount(s, dropped + 1);
        var ackId := ackOrder[0];
        ackOrder := ackOrder[1..];
        acks := acks - {ackId};
        dropped := dropped + 1;
      }
      DroppedOrder(s, dropped);
    }

    method Retire(f: Fence) returns (outcome: RetireOutcome)
      requires Valid()
      modifies this
      ensures outcome == RetireOutcomeOf(old(Value()), f)
      ensures Value() == AfterRetire(old(Value()), f)
      ensures Valid()
    {
      hide Inv, ValidFence;
      RetireKeepsInv(Value(), f);
      if !ValidFence(f) {
        return InvalidFence;
      }
      if f !in sequence {
        return NotTracked;
      }
      if f in retired {
        return AlreadyRetired;
      }
      ghost var before := Value();
      retired := retired + {f};
      MarkedConsistent(before, f);
      TrimReplayHistory();
      return Retired;
    }

    method StageIntent(id: string, revision: int, fences: seq<Fence>, sessionId: string) returns (outcome: IntentOutcome)
      requires Valid()
      modifies this`intents
      ensures outcome == StageOutcomeOf(old(Value()), id, revision, fences, sessionId)
      ensures Value() == AfterStage(old(Value()), id, revision, fences, sessionId)
      ensures Valid()
    {
      hide Inv, ValidFence, ValidDigest;
      StageKeepsInv(Value(), id, revision, fences, sessionId);
      if !ValidDigest(id) || revision <= 0 || |fences| == 0 {
        return IntentRefused(InvalidIntent);
      }
      if sessionId != "" && !ValidDigest(sessionId) {
        return IntentRefused(InvalidSession);
      }
      var seen: set<Fence> := {};
      var i := 0;
      while i < |fences|
        invariant 0 <= i <= |fences|
        invariant FirstFenceDefect(fences, i).None?
        invariant seen == set f | f in fences[..i]
      {
        if !ValidFence(fences[i]) {
          FenceDefectStands(fences, i + 1, |fences|);
          return IntentRefused(InvalidIntentFence);
        }
        if fences[i] in seen {
          FenceDefectStands(fences, i + 1, |fences|);
          return IntentRefused(DuplicateFence);
        }
        assert fences[..i + 1] == fences[..i] + [fences[i]];
        seen := seen + {fences[i]};
        i := i + 1;
      }
      var intent := Intent(id, revision, sessionId, false, fences);
      if id in intents {
        if !SameIntent(intents[id], intent) {
          return IntentRefused(IntentCollision);
        }
        return IntentUnchanged;
      }
      if |intents| >= MAX_RETIREMENT_INTENTS {
        return IntentRefused(TooManyIntents);
      }
      intents := intents[id := intent];
      return IntentChanged;
    }

    method MarkIntentDrained(id: string) returns (outcome: IntentOutcome)
      requires Valid()
      modifies this`intents
      ensures outcome == DrainOutcomeOf(old(Value()), id)
      ensures Value() == AfterDrain(old(Value()), id)
      ensures Valid()
    {
      hide Inv, ValidDigest;
      DrainKeepsInv(Value(), id);
      if !ValidDigest(id) {
        return IntentRefused(InvalidIntent);
      }
      if id !in intents || intents[id].drained {
        return IntentUnchanged;
      }
      intents := intents[id := intents[id].(drained := true)];
      return IntentChanged;
    }

    /** Completes a drained intent: retires its fences one by one, trimming after each, then drops it. */
    method CompleteIntent(id: string) returns (outcome: IntentOutcome)
      requires Valid()
      modifies this
      ensures outcome == CompleteOutcomeOf(old(Value()), id)
      ensures Value() == AfterComplete(old(Value()), id)
      ensures Valid()
    {
      hide Inv, ValidDigest, ValidFence, RetireAll;
      ghost var s := Value();
      CompleteKeepsInv(s, id);
      if !ValidDigest(id) {
        return IntentRefused(InvalidIntent);
      }
      if id !in intents {
        return IntentUnchanged;
      }
      if !intents[id].drained {
        return IntentRefused(NotDrained);
      }
      var fences := intents[id].fences;
      IntentFencesValid(s, id);
      InvRetireNothing(s);
      assert SetOf(fences[..0]) == {};
      var i := 0;
      while i < |fences|
        invariant 0 <= i <= |fences|
        invariant Valid() && Value() == RetireAll(s, SetOf(fences[..i]))
      {
        RetireIsRetireAll(Value(), fences[i]);
        RetireAllTwice(s, SetOf(fences[..i]), {fences[i]});
        assert fences[..i + 1] == fences[..i] + [fences[i]];
        assert SetOf(fences[..i]) + {fences[i]} == SetOf(fences[..i + 1]);
        var r := Retire(fences[i]);
        if r.InvalidFence? {
          assert false;
        }
        i := i + 1;
      }
      assert fences[..|fences|] == fences;
      assert SetOf(fences) == FenceSet(s.intents[id]);
      RetireAllKeepsIntents(s, FenceSet(s.intents[id]));
      intents := intents - {id};
      return IntentChanged;
    }

    method AbortIntent(id: string) returns (outcome: IntentOutcome)
      requires Valid()
      modifies this`intents
      ensures outcome == AbortOutcomeOf(old(Value()), id)
      ensures Value() == AfterAbort(old(Value()), id)
      ensures Valid()
    {
      hide Inv, ValidDigest;
      AbortKeepsInv(Value(), id);
      if !ValidDigest(id) {
        return IntentRefused(InvalidIntent);
      }
      if id !in intents {
        return IntentUnchanged;
      }
      intents := intents - {id};
      return IntentChanged;
    }

    /** The intents an applied snapshot may complete, each listed once. */
    method RecoverableIntents(applied: Applied) returns (ids: seq<string>)
      ensures Lists(ids, Recoverable(Value(), applied))
    {
      hide ValidFence;
      ids := [];
      if applied.revision <= 0 {
        return;
      }
      var active := ActiveFences(applied);
      var todo := intents.Keys;
      while todo != {}
        invariant todo <= intents.Keys
        invariant Lists(ids, Recoverable(Value(), applied) - todo)
        decreases |todo|
      {
        var id :| id in todo;
        todo := todo - {id};
        if applied.revision >= intents[id].revision && intents[id].drained {
          var removed := FencesRemoved(intents[id].fences, applied);
          if removed {
            NoDupConcat(ids, [id]);
            ids := ids + [id];
          }
        }
      }
    }

    /** The intents that a restarted session may drain against an applied snapshot. */
    method RestartDrainableIntents(applied: Applied, sessionId: string) returns (ids: seq<string>)
      ensures Lists(ids, RestartDrainable(Value(), applied, sessionId))
    {
      hide ValidFence;
      ids := [];
      if applied.revision <= 0 || sessionId == "" {
        return;
      }
      var todo := intents.Keys;
      while todo != {}
        invariant todo <= intents.Keys
        invariant Lists(ids, RestartDrainable(Value(), applied, sessionId) - todo)
        decreases |todo|
      {
        var id :| id in todo;
        todo := todo - {id};
        var intent := intents[id];
        if !(intent.drained || intent.sessionId == "" || intent.sessionId == sessionId || applied.revision < intent.revision) {
          var removed := FencesRemoved(intent.fences, applied);
          if removed {
            NoDupConcat(ids, [id]);
            ids := ids + [id];
          }
        }
      }
    }

    static method FencesRemoved(fences: seq<Fence>, applied: Applied) returns (removed: bool)
      ensures removed <==> forall f :: f in fences ==> ValidFence(f) && f !in ActiveFences(applied)
    {
      hide ValidFence;
      var active := ActiveFences(applied);
      var i := 0;
      while i < |fences|
        invariant 0 <= i <= |fences|
        invariant forall k :: 0 <= k < i ==> ValidFence(fences[k]) && fences[k] !in active
      {
        if !ValidFence(fences[i]) || fences[i] in active {
          return false;
        }
        i := i + 1;
      }
      return true;
    }

    /** Completes every intent an applied snapshot allows. No completion fails on the way. */
    method Authorize(applied: Applied) returns (ok: bool)
      requires Valid()
      modifies this
      ensures ok
      ensures Value() == AfterAuthorize(old(Value()), applied)
      ensures Valid()
    {
      hide Inv, Recoverable, CompleteOutcomeOf, RetireAll;
      ghost var s := Value();
      var ids := RecoverableIntents(applied);
      AuthorizeNeverFails(s, applied, ids);
      var i := 0;
      while i < |ids|
        invariant 0 <= i <= |ids|
        invariant Valid()
        invariant AllComplete(Value(), ids[i..])
        invariant CompleteInTurn(Value(), ids[i..]) == CompleteInTurn(s, ids)
      {
        assert ids[i..][0] == ids[i] && ids[i..][1..] == ids[i + 1..];
        var outcome := CompleteIntent(ids[i]);
        if outcome.IntentRefused? {
          return false;
        }
        i := i + 1;
      }
      return true;
    }
  }
}

/** When each operation of the plugin log outbox is carried out, and with what answer; spelled out on the outbox and
    the arguments. */
module LogOutboxOutcomes {
  import opened Sequences
  import opened LogReports
  import opened LogOutboxState
  import opened LogOutboxInvariant
  import opened LogOutboxRetirement

  // ---------- enqueue ----------

  /** Which of the first `n` drafts belong to the fence. */
  function Among(drafts: seq<Report>, f: Fence, n: nat): set<nat>
    requires n <= |drafts|
  {
    set j: nat | j < n && drafts[j].fence == f
  }

  /** The mark of the draft's fence plus its rank among the drafts of that fence. */
  function MarkPlusRank(hw: map<Fence, nat>, drafts: seq<Report>, i: nat): nat
    requires i < |drafts|
  {
    (if drafts[i].fence in hw then hw[drafts[i].fence] else 0) + |Among(drafts, drafts[i].fence, i + 1)|
  }

  lemma {:induction false} CountIsRank(drafts: seq<Report>, f: Fence, n: nat)
    requires n <= |drafts|
    ensures Count(drafts[..n], f) == |Among(drafts, f, n)|
  {
    if n > 0 {
      CountIsRank(drafts, f, n - 1);
      assert drafts[..n][..n - 1] == drafts[..n - 1];
      var one := if drafts[n - 1].fence == f then {n - 1} else {};
      assert Among(drafts, f, n) == Among(drafts, f, n - 1) + one;
    } else {
      assert Among(drafts, f, n) == {};
    }
  }

  lemma NumberIs(hw: map<Fence, nat>, drafts: seq<Report>, i: nat)
    requires i < |drafts|
    ensures Number(hw, drafts, i) == MarkPlusRank(hw, drafts, i)
  {
    CountIsRank(drafts, drafts[i].fence, i + 1);
  }

  /** The draft is unnumbered, its number is representable, and with that number it is a valid report. */
  predicate Acceptable(hw: map<Fence, nat>, drafts: seq<Report>, i: nat)
    requires i < |drafts|
  {
    && drafts[i].sequence == 0 && MarkPlusRank(hw, drafts, i) <= MAX_SEQUENCE
    && ValidReport(drafts[i].(sequence := MarkPlusRank(hw, drafts, i)))
  }

  /** What is wrong with it otherwise, in the order it is looked at. */
  function Fault(hw: map<Fence, nat>, drafts: seq<Report>, i: nat): EnqueueError
    requires i < |drafts|
  {
    if drafts[i].sequence != 0 then AlreadySequenced
    else if MarkPlusRank(hw, drafts, i) > MAX_SEQUENCE then SequenceExhausted
    else InvalidReport
  }

  ghost predicate FirstBad(hw: map<Fence, nat>, drafts: seq<Report>, i: nat)
    requires i < |drafts|
  {
    !Acceptable(hw, drafts, i) && forall j :: 0 <= j < i ==> Acceptable(hw, drafts, j)
  }

  lemma DraftErrorIs(hw: map<Fence, nat>, drafts: seq<Report>, i: nat)
    requires i < |drafts|
    ensures DraftError(hw, drafts, i) == if Acceptable(hw, drafts, i) then None else Some(Fault(hw, drafts, i))
  {
    hide ValidReport;
    NumberIs(hw, drafts, i);
  }

  lemma {:induction false} FirstDraftErrorIs(hw: map<Fence, nat>, drafts: seq<Report>, n: nat)
    requires n <= |drafts|
    ensures FirstDraftError(hw, drafts, n).None? <==> forall i :: 0 <= i < n ==> Acceptable(hw, drafts, i)
    ensures forall e :: FirstDraftError(hw, drafts, n) == Some(e) <==>
              exists i :: 0 <= i < n && FirstBad(hw, drafts, i) && Fault(hw, drafts, i) == e
  {
    hide DraftError, Acceptable, Fault;
    if n > 0 {
      FirstDraftErrorIs(hw, drafts, n - 1);
      DraftErrorIs(hw, drafts, n - 1);
    }
  }

  /** A batch is accepted exactly when it is not empty, has a fresh and valid id, fits beside what is pending, and
      each of its drafts is acceptable. */
  lemma EnqueueAcceptsIff(s: State, batchId: string, drafts: seq<Report>)
    ensures EnqueueOutcomeOf(s, batchId, drafts).Accepted? <==>
              && drafts != [] && ValidDigest(batchId) && batchId !in s.batches
              && |s.pending| + |drafts| <= 256
              && forall i :: 0 <= i < |drafts| ==> Acceptable(s.sequence, drafts, i)
  {
    hide FirstDraftError, Acceptable, ValidDigest, Numbered;
    FirstDraftErrorIs(s.sequence, drafts, |drafts|);
  }

  /** The accepted reports are the drafts, in order, numbered by mark plus rank; they are appended to what is pending
      and kept under the batch's id. */
  lemma EnqueueAppends(s: State, batchId: string, drafts: seq<Report>)
    requires Inv(s) && EnqueueOutcomeOf(s, batchId, drafts).Accepted?
    ensures
      var reports := EnqueueOutcomeOf(s, batchId, drafts).reports;
      var t := AfterEnqueue(s, batchId, drafts);
      && |reports| == |drafts|
      && (forall i :: 0 <= i < |drafts| ==> reports[i] == drafts[i].(sequence := MarkPlusRank(s.sequence, drafts, i)))
      && t.pending == s.pending + reports && batchId in t.batches && t.batches[batchId] == reports
  {
    hide Advanced, NewFences, FirstDraftError, Evicted, Forget;
    forall i | 0 <= i < |drafts| ensures Number(s.sequence, drafts, i) == MarkPlusRank(s.sequence, drafts, i) {
      NumberIs(s.sequence, drafts, i);
    }
    TrimKeepsAcks(Appended(s, batchId, drafts));
    NewBatchStays(s, batchId, drafts);
  }

  /** A fence that is written to again is no longer retired; the others stay as they are, unless forgotten. */
  lemma EnqueueRevives(s: State, batchId: string, drafts: seq<Report>, f: Fence)
    requires Inv(s) && EnqueueOutcomeOf(s, batchId, drafts).Accepted?
    ensures
      var t := AfterEnqueue(s, batchId, drafts);
      f in t.retired <==> f in s.retired && f in t.sequence && forall i :: 0 <= i < |drafts| ==> drafts[i].fence != f
  {
    hide FirstDraftError, Numbered, Advanced, NewFences, ProtectedFences, Keep;
    RetiredHaveMarks(s);
    MarksStay(s.sequence, drafts, f);
    TrimmedRetired(Appended(s, batchId, drafts), f);
  }

  lemma RetiredHaveMarks(s: State)
    requires Inv(s)
    ensures s.retired <= s.sequence.Keys
  {
  }

  lemma MarksStay(hw: map<Fence, nat>, drafts: seq<Report>, f: Fence)
    ensures f in hw ==> f in Advanced(hw, drafts)
  {
  }

  lemma TrimmedRetired(s: State, f: Fence)
    requires f in s.retired ==> f in s.sequence
    ensures f in Trimmed(s).retired <==> f in s.retired && f in Trimmed(s).sequence
  {
  }

  /** A batch just accepted is pending as a whole, so trimming spares it. */
  lemma NewBatchStays(s: State, batchId: string, drafts: seq<Report>)
    requires Inv(s) && EnqueueOutcomeOf(s, batchId, drafts).Accepted?
    ensures batchId in AfterEnqueue(s, batchId, drafts).batches
    ensures AfterEnqueue(s, batchId, drafts).batches[batchId] == Numbered(s.sequence, drafts)
  {
    hide Advanced, NewFences, FirstDraftError, Evicted, Forget, Consistent;
    var t := Appended(s, batchId, drafts);
    InvIsConsistentHere(s);
    AppendedConsistent(s, batchId, drafts);
    ConsistentBatches(t);
    EvictionCount(t);
    var r := Numbered(s.sequence, drafts)[0];
    assert r in t.batches[batchId] && r in t.pending;
    assert Id(r) in Ids(t.batches[batchId]) * Ids(t.pending);
    assert batchId in ProtectedBatches(t);
    EvictedBatchesKeepTheirReports(t, batchId);
  }

  lemma EvictedBatchesKeepTheirReports(s: State, b: string)
    ensures b in Evicted(s).batches ==> b in s.batches && Evicted(s).batches[b] == s.batches[b]
    ensures Trimmed(s).batches == Evicted(s).batches
  {
  }

  lemma InvIsConsistentHere(s: State)
    requires Inv(s)
    ensures Consistent(s)
  {
  }

  lemma ConsistentBatches(s: State)
    requires Consistent(s)
    ensures Lists(s.batchOrder, s.batches.Keys) && DistinctIds(s.batches) && |s.pending| <= MAX_PENDING_REPORTS
  {
  }

  /** Each refusal has exactly one reason, and each reason its place: an empty batch is ignored, then the id is looked
      at, then whether the batch is known, then the room left, then the drafts one by one. */
  lemma EnqueueRefusals(s: State, batchId: string, drafts: seq<Report>)
    ensures
      var o := EnqueueOutcomeOf(s, batchId, drafts);
      && (o.Ignored? <==> drafts == [])
      && (o == Rejected(InvalidBatchId) <==> drafts != [] && !ValidDigest(batchId))
      && (o == Rejected(OutboxFull) <==>
           && drafts != [] && ValidDigest(batchId) && batchId !in s.batches && |s.pending| + |drafts| > 256)
  {
    hide FirstDraftError, ValidDigest, Numbered;
    DraftFaultsAreOthers(s, drafts);
  }

  lemma DraftFaultsAreOthers(s: State, drafts: seq<Report>)
    ensures
      var e := FirstDraftError(s.sequence, drafts, |drafts|);
      e.Some? ==> e.value in {AlreadySequenced, SequenceExhausted, InvalidReport}
  {
    hide FirstDraftError, Acceptable, FirstBad;
    FirstDraftErrorIs(s.sequence, drafts, |drafts|);
    var e := FirstDraftError(s.sequence, drafts, |drafts|);
    assert e.Some? ==> e == Some(e.value);
  }

  /** The first draft in error decides which error it is. */
  lemma EnqueueRefusesDraft(s: State, batchId: string, drafts: seq<Report>, e: EnqueueError)
    requires e in {AlreadySequenced, SequenceExhausted, InvalidReport}
    ensures EnqueueOutcomeOf(s, batchId, drafts) == Rejected(e) <==>
              && drafts != [] && ValidDigest(batchId) && batchId !in s.batches && |s.pending| + |drafts| <= 256
              && exists i :: 0 <= i < |drafts| && FirstBad(s.sequence, drafts, i) && Fault(s.sequence, drafts, i) == e
  {
    hide FirstDraftError, Acceptable, ValidDigest, Numbered, FirstBad, Fault;
    FirstDraftErrorIs(s.sequence, drafts, |drafts|);
    assert FirstDraftError(s.sequence, drafts, |drafts|) == Some(e) <==>
             exists i :: 0 <= i < |drafts| && FirstBad(s.sequence, drafts, i) && Fault(s.sequence, drafts, i) == e;
  }

  /** The drafts are what the batch was made from. */
  ghost predicate MadeFrom(reports: seq<Report>, drafts: seq<Report>) {
    |reports| == |drafts| && forall i :: 0 <= i < |drafts| ==> drafts[i] == reports[i].(sequence := 0)
  }

  /** A known batch is replayed exactly when it was made from these drafts, and is a collision otherwise. */
  lemma ReplayOrCollision(s: State, batchId: string, drafts: seq<Report>)
    ensures
      var o := EnqueueOutcomeOf(s, batchId, drafts);
      var known := drafts != [] && ValidDigest(batchId) && batchId in s.batches;
      && (o.Replayed? <==> known && MadeFrom(s.batches[batchId], drafts))
      && (o.Replayed? ==> o.reports == s.batches[batchId])
      && (o == Rejected(BatchCollision) <==> known && !MadeFrom(s.batches[batchId], drafts))
  {
    hide FirstDraftError, ValidDigest, Numbered;
    FirstDraftErrorIs(s.sequence, drafts, |drafts|);
    if batchId in s.batches && MadeFrom(s.batches[batchId], drafts) {
      assert Unnumbered(s.batches[batchId]) == drafts;
    }
  }

  // ---------- acknowledge ----------

  /** An acknowledgement is recorded exactly when something valid and without repetition was sent whose digest is new;
      it names the identities in order and says whether one of them was pending. */
  lemma AcknowledgeIff(s: State, sent: seq<Report>)
    ensures
      var o := AckOutcomeOf(s, sent);
      var sound := (forall i :: 0 <= i < |sent| ==> ValidReport(sent[i]))
                   && forall i, j :: 0 <= i < j < |sent| ==> Id(sent[i]) != Id(sent[j]);
      && (o.NothingSent? <==> sent == [])
      && (o.AlreadyAcknowledged? <==> sent != [] && Digest(sent) in s.acks)
      && (o.Acknowledged? <==> sent != [] && Digest(sent) !in s.acks && sound)
      && (o.Acknowledged? ==>
           && o.id == Digest(sent) && |o.identities| == |sent|
           && (forall i :: 0 <= i < |sent| ==> o.identities[i] == ReportId(sent[i].fence, sent[i].sequence))
           && (o.changed <==> exists r, q :: r in s.pending && q in sent && Id(r) == Id(q)))
  {
    hide ValidReport;
    if AckOutcomeOf(s, sent).Acknowledged? {
      if r :| r in s.pending && Id(r) in Ids(sent) {
        var q :| q in sent && Id(q) == Id(r);
      }
    }
  }

  lemma WithoutLast(reports: seq<Report>, last: Report, ids: set<ReportId>)
    ensures Without(reports + [last], ids) == Without(reports, ids) + if Id(last) in ids then [] else [last]
  {
    assert (reports + [last])[..|reports|] == reports;
  }

  /** What stays pending keeps its order: acknowledging works on each part of the list by itself. */
  lemma {:induction false} WithoutConcat(a: seq<Report>, b: seq<Report>, ids: set<ReportId>)
    ensures Without(a + b, ids) == Without(a, ids) + Without(b, ids)
    decreases |b|
  {
    hide Without;
    if b == [] {
      assert a + b == a && Without(b, ids) == [];
    } else {
      var front, last := b[..|b| - 1], b[|b| - 1];
      WithoutConcat(a, front, ids);
      WithoutLast(a + front, last, ids);
      WithoutLast(front, last, ids);
      assert a + b == a + front + [last] && b == front + [last];
    }
  }

  /** Exactly the pending reports that are named go, whatever else the history loses. */
  lemma AcknowledgeTakesExactlyTheNamed(s: State, sent: seq<Report>, r: Report)
    requires AckOutcomeOf(s, sent).Acknowledged?
    ensures r in AfterAcknowledge(s, sent).pending <==> r in s.pending && forall q :: q in sent ==> Id(q) != Id(r)
    ensures AfterAcknowledge(s, sent).pending == Without(s.pending, Ids(sent))
  {
    hide Evicted, Forget;
    TrimKeepsAcks(Removed(s, sent));
  }

  // ---------- retirement ----------

  lemma RetireIff(s: State, f: Fence)
    ensures
      var o := RetireOutcomeOf(s, f);
      && (o.InvalidFence? <==> !ValidFence(f))
      && (o.NotTracked? <==> ValidFence(f) && f !in s.sequence)
      && (o.AlreadyRetired? <==> ValidFence(f) && f in s.sequence && f in s.retired)
      && (o.Retired? <==> ValidFence(f) && f in s.sequence && f !in s.retired)
  {
    hide ValidFence;
  }

  /** A retired fence is either marked so or already forgotten, and no other fence changes. */
  lemma RetireMarks(s: State, f: Fence, other: Fence)
    requires Inv(s) && RetireOutcomeOf(s, f).Retired?
    ensures
      var t := AfterRetire(s, f);
      && (f in t.sequence <==> f in BatchFences(s.batches)) && (f in t.sequence ==> f in t.retired)
      && (other != f ==> (other in t.sequence <==> other in s.sequence) && (other in t.retired <==> other in s.retired))
  {
    hide Keep, ValidFence;
    RetireIsRetireAll(s, f);
    RetireAllForm(s, {f});
  }

  /** An intent is staged exactly when its id, revision, session and fences are valid, no fence repeats, the id is new
      and there is room. */
  lemma StageIff(s: State, id: string, revision: int, fences: seq<Fence>, sessionId: string)
    ensures
      var o := StageOutcomeOf(s, id, revision, fences, sessionId);
      var sound := ValidDigest(id) && revision > 0 && fences != [] && (sessionId == "" || ValidDigest(sessionId))
                   && (forall i :: 0 <= i < |fences| ==> ValidFence(fences[i])) && NoDup(fences);
      && (o.IntentChanged? <==> sound && id !in s.intents && |s.intents| < 512)
      && (o.IntentUnchanged? <==>
           && sound && id in s.intents
           && s.intents[id].id == id && s.intents[id].revision == revision && s.intents[id].fences == fences)
      && (o.IntentChanged? ==>
           AfterStage(s, id, revision, fences, sessionId).intents ==
             s.intents[id := Intent(id, revision, sessionId, false, fences)])
  {
    hide ValidFence, ValidDigest;
    assert fences[..|fences|] == fences;
  }

  lemma DrainIff(s: State, id: string)
    ensures DrainOutcomeOf(s, id).IntentChanged? <==> ValidDigest(id) && id in s.intents && !s.intents[id].drained
    ensures DrainOutcomeOf(s, id).IntentRefused? <==> !ValidDigest(id)
    ensures DrainOutcomeOf(s, id).IntentChanged? ==>
              AfterDrain(s, id).intents == s.intents[id := s.intents[id].(drained := true)]
  {
    hide ValidDigest;
  }

  /** Completing goes through for every drained intent and is refused for every other one that exists. */
  lemma CompleteIff(s: State, id: string)
    requires Inv(s)
    ensures CompleteOutcomeOf(s, id).IntentChanged? <==> id in s.intents && s.intents[id].drained
    ensures CompleteOutcomeOf(s, id) == IntentRefused(NotDrained) <==> id in s.intents && !s.intents[id].drained
    ensures CompleteOutcomeOf(s, id).IntentChanged? ==> AfterComplete(s, id).intents == s.intents - {id}
  {
    hide ValidFence, ValidDigest, Consistent;
    IntentsAreValid(s);
  }

  lemma IntentsAreValid(s: State)
    requires Inv(s)
    ensures forall id :: id in s.intents ==> ValidDigest(id) && forall f :: f in s.intents[id].fences ==> ValidFence(f)
  {
  }

  lemma AbortIff(s: State, id: string)
    ensures AbortOutcomeOf(s, id).IntentChanged? <==> ValidDigest(id) && id in s.intents
    ensures AfterAbort(s, id).intents == if ValidDigest(id) then s.intents - {id} else s.intents
  {
    hide ValidDigest;
  }

  /** An applied snapshot completes exactly the drained intents it has caught up with and none of whose fences it still
      runs. In particular it completes nothing staged for a later revision, and a snapshot without a revision
      completes nothing. */
  lemma AuthorizeCompletesIff(s: State, a: Applied, id: string)
    requires Inv(s) && id in s.intents
    ensures id !in AfterAuthorize(s, a).intents <==>
              && 0 < a.revision && s.intents[id].revision <= a.revision && s.intents[id].drained
              && forall f :: f in s.intents[id].fences ==> f !in a.generations
    ensures id in AfterAuthorize(s, a).intents ==> AfterAuthorize(s, a).intents[id] == s.intents[id]
  {
    hide ValidFence, Consistent, RetireAll;
    IntentsAreValid(s);
  }

  /** A restart may drain exactly the undrained intents of another session, under the same conditions. */
  lemma RestartDrainableIff(s: State, a: Applied, sessionId: string, id: string)
    requires Inv(s) && id in s.intents
    ensures id in RestartDrainable(s, a, sessionId) <==>
              && 0 < a.revision && sessionId != "" && s.intents[id].revision <= a.revision && !s.intents[id].drained
              && s.intents[id].sessionId != "" && s.intents[id].sessionId != sessionId
              && forall f :: f in s.intents[id].fences ==> f !in a.generations
  {
    hide ValidFence, Consistent;
    IntentsAreValid(s);
  }
}

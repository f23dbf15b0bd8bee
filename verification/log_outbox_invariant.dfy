/** Every operation of the plugin log outbox keeps the invariant, from the empty outbox on. */
module LogOutboxInvariant {
  import opened Sequences
  import opened LogReports
  import opened LogOutboxState

  // ---------- trimming ----------

  /** Protected batches are at most as many as the report identities that protect them:
      no identity lies in two batches. */
  lemma {:induction false} ProtectedFitsIn(batches: map<string, seq<Report>>, p: set<string>, ids: set<ReportId>)
    requires DistinctIds(batches) && p <= batches.Keys
    requires forall b :: b in p ==> Ids(batches[b]) * ids != {}
    ensures |p| <= |ids|
  {
    if p != {} {
      var b :| b in p;
      var id :| id in Ids(batches[b]) * ids;
      forall c | c in p - {b} ensures Ids(batches[c]) * (ids - {id}) != {} {
        var other :| other in Ids(batches[c]) * ids;
        var i :| 0 <= i < |batches[b]| && Id(batches[b][i]) == id;
        var j :| 0 <= j < |batches[c]| && Id(batches[c][j]) == other;
        assert other in Ids(batches[c]) * (ids - {id});
      }
      ProtectedFitsIn(batches, p - {b}, ids - {id});
    }
  }

  lemma {:induction false} IdsCardinality(reports: seq<Report>)
    ensures |Ids(reports)| <= |reports|
  {
    if reports != [] {
      var init, last := reports[..|reports| - 1], reports[|reports| - 1];
      IdsCardinality(init);
      assert Ids(reports) == Ids(init) + {Id(last)};
    }
  }

  lemma ProtectedBound(s: State)
    requires DistinctIds(s.batches) && |s.pending| <= MAX_PENDING_REPORTS
    ensures |ProtectedBatches(s)| <= |s.pending| <= MAX_PENDING_REPORTS
  {
    ProtectedFitsIn(s.batches, ProtectedBatches(s), Ids(s.pending));
    IdsCardinality(s.pending);
  }

  /** Reading on to the cut passes exactly `excess` unprotected entries, if there are that many. */
  lemma {:induction false} CutPasses(order: seq<string>, p: set<string>, excess: nat, i: nat)
    requires NoDup(order) && i <= |order|
    requires |Unprotected(order, p, |order|)| - |Unprotected(order, p, i)| >= excess
    ensures |Unprotected(order, p, Cut(order, p, excess, i))| == |Unprotected(order, p, i)| + excess
    decreases |order| - i
  {
    if excess != 0 && i != |order| {
      assert order[..i + 1] == order[..i] + [order[i]];
      if order[i] in p {
        assert Unprotected(order, p, i + 1) == Unprotected(order, p, i);
        CutPasses(order, p, excess, i + 1);
      } else {
        assert Unprotected(order, p, i + 1) == Unprotected(order, p, i) + {order[i]};
        CutPasses(order, p, excess - 1, i + 1);
      }
    }
  }

  /** Cutting leaves exactly `excess` fewer batches, and every protected one. */
  lemma CutCount(order: seq<string>, keys: set<string>, p: set<string>, excess: nat)
    requires Lists(order, keys) && p <= keys && excess <= |keys| - |p|
    ensures p <= keys - Unprotected(order, p, Cut(order, p, excess, 0))
    ensures |keys - Unprotected(order, p, Cut(order, p, excess, 0))| == |keys| - excess
  {
    var all := Unprotected(order, p, |order|);
    assert all == keys - p;
    assert keys == p + all;
    assert Unprotected(order, p, 0) == {};
    CutPasses(order, p, excess, 0);
    var gone := Unprotected(order, p, Cut(order, p, excess, 0));
    assert gone <= keys;
  }

  /** What is left of the order lists what is left of the batches, wherever the cut falls. */
  lemma CutLists(order: seq<string>, keys: set<string>, p: set<string>, cut: nat)
    requires Lists(order, keys) && p <= keys && cut <= |order|
    ensures Lists(order[cut..] + Keep(order[..cut], p), keys - Unprotected(order, p, cut))
  {
    var front, back := order[..cut], order[cut..];
    assert order == front + back;
    NoDupConcat(front, back);
    KeepNoDup(front, p);
    NoDupConcat(back, Keep(front, p));
    forall b ensures b in back + Keep(front, p) <==> b in keys - Unprotected(order, p, cut) {
      assert b in order <==> b in front || b in back;
    }
  }

  /** After eviction at most 512 batches remain, exactly as many as needed have gone, and no
      protected batch is among them. */
  lemma EvictionCount(s: State)
    requires Lists(s.batchOrder, s.batches.Keys) && DistinctIds(s.batches) && |s.pending| <= MAX_PENDING_REPORTS
    ensures |Evicted(s).batches| == |s.batches| - Excess(|s.batches|) <= MAX_REPLAY_IDENTITIES
    ensures ProtectedBatches(s) <= Evicted(s).batches.Keys <= s.batches.Keys
    ensures Lists(Evicted(s).batchOrder, Evicted(s).batches.Keys)
  {
    var p := ProtectedBatches(s);
    ProtectedBound(s);
    SubsetCardinality(p, s.batches.Keys);
    var cut := Cut(s.batchOrder, p, Excess(|s.batches|), 0);
    CutCount(s.batchOrder, s.batches.Keys, p, Excess(|s.batches|));
    CutLists(s.batchOrder, s.batches.Keys, p, cut);
    assert Evicted(s).batches.Keys == s.batches.Keys - Unprotected(s.batchOrder, p, cut);
  }

  lemma EvictionKeepsPending(s: State)
    requires PendingRetained(s.pending, s.batches) && ProtectedBatches(s) <= Evicted(s).batches.Keys
    ensures PendingRetained(Evicted(s).pending, Evicted(s).batches)
  {
    var e := Evicted(s);
    forall r | r in e.pending ensures Retained(e.batches, r) {
      var b :| b in s.batches && r in s.batches[b];
      assert Id(r) in Ids(s.batches[b]) * Ids(s.pending);
      assert b in e.batches && r in e.batches[b];
    }
  }

  lemma EvictionSound(s: State)
    requires Consistent(s)
    ensures Consistent(Evicted(s))
    ensures |Evicted(s).batches| <= MAX_REPLAY_IDENTITIES
  {
    EvictionCount(s);
    EvictionKeepsPending(s);
    assert DistinctIds(Evicted(s).batches);
  }

  /** What forgetting leaves retired is still named by a retained batch. */
  lemma ForgetRetired(s: State)
    requires PendingRetained(s.pending, s.batches) && s.retired <= s.sequence.Keys
    ensures Forget(s).retired <= BatchFences(s.batches)
    ensures Forget(s).retired <= Forget(s).sequence.Keys
  {
    forall f | f in Forget(s).retired ensures f in BatchFences(s.batches) {
      if f in Fences(s.pending) {
        var r :| r in s.pending && r.fence == f;
        var b :| b in s.batches && r in s.batches[b];
        assert f in Fences(s.batches[b]);
      }
    }
  }

  lemma ForgetCovered(s: State)
    requires BatchesCovered(s.batches, s.sequence)
    ensures BatchesCovered(Forget(s).batches, Forget(s).sequence)
  {
    forall b, r | b in s.batches && r in s.batches[b] ensures Covered(Forget(s).sequence, r) {
      assert Covered(s.sequence, r);
      assert r.fence in Fences(s.batches[b]);
      assert r.fence in ProtectedFences(s);
    }
  }

  lemma ForgetLists(s: State)
    requires Lists(s.sequenceOrder, s.sequence.Keys)
    ensures Lists(Forget(s).sequenceOrder, Forget(s).sequence.Keys)
  {
    var kept := s.sequence.Keys * ProtectedFences(s);
    KeepLists(s.sequenceOrder, s.sequence.Keys, kept);
    assert Forget(s).sequence.Keys == s.sequence.Keys * kept;
  }

  lemma ForgetSound(s: State)
    requires Consistent(s)
    ensures Consistent(Forget(s))
    ensures Forget(s).retired <= BatchFences(s.batches)
  {
    ForgetRetired(s);
    ForgetCovered(s);
    ForgetLists(s);
  }

  lemma DropAcksSound(s: State)
    requires Lists(s.ackOrder, s.acks)
    ensures Lists(DropAcks(s).ackOrder, DropAcks(s).acks)
    ensures |DropAcks(s).acks| <= MAX_REPLAY_IDENTITIES
  {
    var n := Excess(|s.ackOrder|);
    var front, back := s.ackOrder[..n], s.ackOrder[n..];
    assert s.ackOrder == front + back;
    NoDupConcat(front, back);
    ListsCardinality(back, DropAcks(s).acks);
  }

  /** Trimming turns a consistent state into one that meets the whole invariant. */
  lemma TrimSound(s: State)
    requires Consistent(s)
    ensures Inv(Trimmed(s))
  {
    EvictionSound(s);
    ForgetSound(Evicted(s));
    DropAcksSound(Forget(Evicted(s)));
  }

  // ---------- enqueue ----------

  lemma {:induction false} CountGrows(drafts: seq<Report>, i: nat, j: nat)
    requires i < j < |drafts| && drafts[i].fence == drafts[j].fence
    ensures Count(drafts[..i + 1], drafts[i].fence) < Count(drafts[..j + 1], drafts[j].fence)
  {
    var f := drafts[i].fence;
    assert drafts[..j + 1][..j] == drafts[..j];
    if i + 1 < j {
      CountMonotone(drafts, f, i + 1, j);
    }
  }

  lemma {:induction false} CountMonotone(drafts: seq<Report>, f: Fence, i: nat, j: nat)
    requires i <= j <= |drafts|
    ensures Count(drafts[..i], f) <= Count(drafts[..j], f)
    decreases j
  {
    if i < j {
      CountMonotone(drafts, f, i, j - 1);
      assert drafts[..j][..j - 1] == drafts[..j - 1];
    }
  }

  /** Within one batch: numbers rise per fence, above the old mark and up to the new one. */
  lemma NumbersRise(hw: map<Fence, nat>, drafts: seq<Report>, i: nat)
    requires i < |drafts|
    ensures drafts[i].fence in Advanced(hw, drafts)
    ensures HighWater(hw, drafts[i].fence) < Number(hw, drafts, i) <= Advanced(hw, drafts)[drafts[i].fence]
    ensures forall j :: i < j < |drafts| && drafts[j].fence == drafts[i].fence ==> Number(hw, drafts, i) < Number(hw, drafts, j)
  {
    var f := drafts[i].fence;
    assert f in Fences(drafts);
    assert drafts[..i + 1][..i] == drafts[..i];
    CountMonotone(drafts, f, i + 1, |drafts|);
    assert drafts[..|drafts|] == drafts;
    forall j | i < j < |drafts| && drafts[j].fence == f ensures Number(hw, drafts, i) < Number(hw, drafts, j) {
      CountGrows(drafts, i, j);
    }
  }

  lemma NumberedCovered(hw: map<Fence, nat>, drafts: seq<Report>, i: nat)
    requires i < |drafts| && FirstDraftError(hw, drafts, |drafts|).None?
    ensures Covered(Advanced(hw, drafts), Numbered(hw, drafts)[i])
  {
    hide Number, ValidReport;
    NumbersRise(hw, drafts, i);
    NoDraftError(hw, drafts, |drafts|, i);
  }

  lemma AdvancedGrows(hw: map<Fence, nat>, drafts: seq<Report>, r: Report)
    requires Covered(hw, r)
    ensures Covered(Advanced(hw, drafts), r)
  {
  }

  lemma {:induction false} NewFencesNoDup(known: set<Fence>, drafts: seq<Report>)
    ensures NoDup(NewFences(known, drafts))
  {
    if drafts != [] {
      NewFencesNoDup(known, drafts[..|drafts| - 1]);
    }
  }

  lemma OrderAfterAppend(s: State, drafts: seq<Report>)
    requires Lists(s.sequenceOrder, s.sequence.Keys)
    ensures Lists(s.sequenceOrder + NewFences(s.sequence.Keys, drafts), Advanced(s.sequence, drafts).Keys)
  {
    var added := NewFences(s.sequence.Keys, drafts);
    NewFencesNoDup(s.sequence.Keys, drafts);
    NoDupConcat(s.sequenceOrder, added);
  }

  /** A fresh batch, numbered above every retained report of its fences, collides with none. */
  lemma AppendedDistinct(s: State, batchId: string, drafts: seq<Report>)
    requires BatchesCovered(s.batches, s.sequence) && DistinctIds(s.batches) && batchId !in s.batches
    ensures DistinctIds(s.batches[batchId := Numbered(s.sequence, drafts)])
  {
    hide ValidReport, Number;
    var t := s.batches[batchId := Numbered(s.sequence, drafts)];
    forall b, i, c, j | b in t && c in t && 0 <= i < |t[b]| && 0 <= j < |t[c]| && Id(t[b][i]) == Id(t[c][j])
      ensures b == c && i == j
    {
      if b == batchId {
        NumbersRise(s.sequence, drafts, i);
      }
      if c == batchId {
        NumbersRise(s.sequence, drafts, j);
      }
      if b != batchId {
        assert Covered(s.sequence, t[b][i]);
      }
      if c != batchId {
        assert Covered(s.sequence, t[c][j]);
      }
    }
  }

  lemma PendingCovered(s: State)
    requires BatchesCovered(s.batches, s.sequence) && PendingRetained(s.pending, s.batches)
    ensures forall r :: r in s.pending ==> Covered(s.sequence, r)
  {
    forall r | r in s.pending ensures Covered(s.sequence, r) {
      var b :| b in s.batches && r in s.batches[b];
    }
  }

  lemma AppendedPendingOrdered(hw: map<Fence, nat>, pending: seq<Report>, drafts: seq<Report>)
    requires PendingOrdered(pending) && forall r :: r in pending ==> r.sequence <= HighWater(hw, r.fence)
    ensures PendingOrdered(pending + Numbered(hw, drafts))
  {
    var n := |pending|;
    var p := pending + Numbered(hw, drafts);
    forall i, j | 0 <= i < j < |p| && p[i].fence == p[j].fence ensures p[i].sequence < p[j].sequence {
      if n <= i {
        NumbersRise(hw, drafts, i - n);
      } else if n <= j {
        NumbersRise(hw, drafts, j - n);
        assert p[i] in pending;
      }
    }
  }

  lemma AppendedCovered(s: State, batchId: string, drafts: seq<Report>)
    requires BatchesCovered(s.batches, s.sequence) && EnqueueOutcomeOf(s, batchId, drafts).Accepted?
    ensures BatchesCovered(Appended(s, batchId, drafts).batches, Appended(s, batchId, drafts).sequence)
  {
    hide ValidReport, Number, NewFences;
    var t := Appended(s, batchId, drafts);
    var added := Numbered(s.sequence, drafts);
    forall b, r | b in t.batches && r in t.batches[b] ensures Covered(t.sequence, r) {
      if b == batchId {
        var i :| 0 <= i < |added| && added[i] == r;
        NumberedCovered(s.sequence, drafts, i);
      } else {
        AdvancedGrows(s.sequence, drafts, r);
      }
    }
  }

  lemma AppendedRetained(s: State, batchId: string, drafts: seq<Report>)
    requires PendingRetained(s.pending, s.batches) && batchId !in s.batches
    ensures PendingRetained(Appended(s, batchId, drafts).pending, Appended(s, batchId, drafts).batches)
  {
    var t := Appended(s, batchId, drafts);
    forall r | r in t.pending ensures Retained(t.batches, r) {
      if r in s.pending {
        var b :| b in s.batches && r in s.batches[b];
        assert b in t.batches && r in t.batches[b];
      } else {
        assert r in t.batches[batchId];
      }
    }
  }

  lemma AppendedOrders(s: State, batchId: string, drafts: seq<Report>)
    requires Lists(s.batchOrder, s.batches.Keys) && Lists(s.sequenceOrder, s.sequence.Keys)
    requires s.retired <= s.sequence.Keys && batchId !in s.batches
    ensures Lists(Appended(s, batchId, drafts).batchOrder, Appended(s, batchId, drafts).batches.Keys)
    ensures Lists(Appended(s, batchId, drafts).sequenceOrder, Appended(s, batchId, drafts).sequence.Keys)
    ensures Appended(s, batchId, drafts).retired <= Appended(s, batchId, drafts).sequence.Keys
  {
    OrderAfterAppend(s, drafts);
    assert Appended(s, batchId, drafts).batches.Keys == s.batches.Keys + {batchId};
  }

  lemma AppendedReports(s: State, batchId: string, drafts: seq<Report>)
    requires BatchesCovered(s.batches, s.sequence) && DistinctIds(s.batches) && PendingRetained(s.pending, s.batches) && PendingOrdered(s.pending)
    requires EnqueueOutcomeOf(s, batchId, drafts).Accepted?
    ensures BatchesCovered(Appended(s, batchId, drafts).batches, Appended(s, batchId, drafts).sequence) && DistinctIds(Appended(s, batchId, drafts).batches)
    ensures PendingRetained(Appended(s, batchId, drafts).pending, Appended(s, batchId, drafts).batches) && PendingOrdered(Appended(s, batchId, drafts).pending)
  {
    AppendedDistinct(s, batchId, drafts);
    PendingCovered(s);
    AppendedPendingOrdered(s.sequence, s.pending, drafts);
    AppendedCovered(s, batchId, drafts);
    AppendedRetained(s, batchId, drafts);
  }

  lemma AppendedConsistent(s: State, batchId: string, drafts: seq<Report>)
    requires Consistent(s) && EnqueueOutcomeOf(s, batchId, drafts).Accepted?
    ensures Consistent(Appended(s, batchId, drafts))
  {
    hide BatchesCovered, DistinctIds, PendingRetained, PendingOrdered, ValidIntents, Lists;
    AppendedReports(s, batchId, drafts);
    AppendedOrders(s, batchId, drafts);
  }

  lemma EnqueueKeepsInv(s: State, batchId: string, drafts: seq<Report>)
    requires Inv(s)
    ensures Inv(AfterEnqueue(s, batchId, drafts))
  {
    if EnqueueOutcomeOf(s, batchId, drafts).Accepted? {
      AppendedConsistent(s, batchId, drafts);
      TrimSound(Appended(s, batchId, drafts));
    }
  }

  // ---------- acknowledge, retire and intents ----------

  lemma {:induction false} WithoutOrdered(reports: seq<Report>, ids: set<ReportId>)
    requires PendingOrdered(reports)
    ensures PendingOrdered(Without(reports, ids))
  {
    if reports != [] {
      var init, last := reports[..|reports| - 1], reports[|reports| - 1];
      WithoutOrdered(init, ids);
      var kept := Without(init, ids);
      forall i | 0 <= i < |kept| && kept[i].fence == last.fence ensures kept[i].sequence < last.sequence {
        assert kept[i] in init;
      }
    }
  }

  lemma AcknowledgeKeepsInv(s: State, sent: seq<Report>)
    requires Inv(s)
    ensures Inv(AfterAcknowledge(s, sent))
  {
    if AckOutcomeOf(s, sent).Acknowledged? {
      WithoutOrdered(s.pending, Ids(sent));
      assert Consistent(Removed(s, sent));
      TrimSound(Removed(s, sent));
    }
  }

  lemma EvictNothing(s: State)
    requires |s.batches| <= MAX_REPLAY_IDENTITIES
    ensures Evicted(s) == s
  {
    hide ProtectedBatches;
    var p := ProtectedBatches(s);
    assert Cut(s.batchOrder, p, 0, 0) == 0;
    assert Unprotected(s.batchOrder, p, 0) == {};
    assert s.batches - {} == s.batches;
    assert s.batchOrder[0..] + Keep(s.batchOrder[..0], p) == s.batchOrder;
  }

  lemma DropNothing(s: State)
    requires |s.ackOrder| <= MAX_REPLAY_IDENTITIES
    ensures DropAcks(s) == s
  {
    assert s.acks - (set a | a in s.ackOrder[..0]) == s.acks;
    assert s.ackOrder[0..] == s.ackOrder;
  }

  /** On a state that meets the invariant, trimming only ever forgets fences. */
  lemma TrimIsForget(s: State)
    requires |s.batches| <= MAX_REPLAY_IDENTITIES && |s.ackOrder| <= MAX_REPLAY_IDENTITIES
    ensures Trimmed(s) == Forget(s)
  {
    EvictNothing(s);
    DropNothing(Forget(s));
  }

  lemma RetireAllKeepsInv(s: State, fences: set<Fence>)
    requires Inv(s)
    ensures Inv(RetireAll(s, fences))
  {
    ForgetSound(s.(retired := s.retired + fences * s.sequence.Keys));
  }

  /** Retiring one fence is retiring a set of one, whether or not anything changes. */
  lemma RetireIsRetireAll(s: State, f: Fence)
    requires Inv(s) && ValidFence(f)
    ensures AfterRetire(s, f) == RetireAll(s, {f})
  {
    var marked := s.(retired := s.retired + {f} * s.sequence.Keys);
    if RetireOutcomeOf(s, f).Retired? {
      assert {f} * s.sequence.Keys == {f};
      ListsCardinality(s.ackOrder, s.acks);
      TrimIsForget(marked);
    } else {
      assert marked.retired == s.retired;
      ForgetNothing(s);
    }
  }

  lemma ForgetNothing(s: State)
    requires Lists(s.sequenceOrder, s.sequence.Keys) && s.retired <= BatchFences(s.batches)
    ensures Forget(s) == s
  {
    assert Forgotten(s) == {};
    assert s.sequence - {} == s.sequence;
    KeepAll(s.sequenceOrder, s.sequence.Keys * ProtectedFences(s));
  }

  lemma RetireKeepsInv(s: State, f: Fence)
    requires Inv(s)
    ensures Inv(AfterRetire(s, f))
  {
    if ValidFence(f) {
      RetireIsRetireAll(s, f);
      RetireAllKeepsInv(s, {f});
    }
  }

  lemma StagedIntentsValid(intents: map<string, Intent>, i: Intent)
    requires ValidIntents(intents) && |intents| < MAX_RETIREMENT_INTENTS && i.id !in intents
    requires ValidDigest(i.id) && i.revision > 0 && i.fences != []
    requires FirstFenceDefect(i.fences, |i.fences|).None?
    ensures ValidIntents(intents[i.id := i])
  {
    hide ValidDigest, ValidFence;
    assert i.fences[..|i.fences|] == i.fences;
    assert intents[i.id := i].Keys == intents.Keys + {i.id};
  }

  lemma StageKeepsInv(s: State, id: string, revision: int, fences: seq<Fence>, sessionId: string)
    requires Inv(s)
    ensures Inv(AfterStage(s, id, revision, fences, sessionId))
  {
    hide BatchesCovered, DistinctIds, PendingRetained, PendingOrdered, Lists, ValidIntents, BatchFences, ValidDigest;
    if StageOutcomeOf(s, id, revision, fences, sessionId).IntentChanged? {
      StagedIntentsValid(s.intents, Intent(id, revision, sessionId, false, fences));
    }
  }

  lemma DrainKeepsInv(s: State, id: string)
    requires Inv(s)
    ensures Inv(AfterDrain(s, id))
  {
    hide BatchesCovered, DistinctIds, PendingRetained, PendingOrdered, Lists, ValidFence, ValidDigest, BatchFences;
    var t := AfterDrain(s, id);
    if DrainOutcomeOf(s, id).IntentChanged? {
      assert t.intents.Keys == s.intents.Keys;
    }
  }

  lemma DropIntentsKeepsInv(s: State, ids: set<string>)
    requires Inv(s)
    ensures Inv(s.(intents := s.intents - ids))
  {
    assert (s.intents - ids).Keys <= s.intents.Keys;
    SubsetCardinality((s.intents - ids).Keys, s.intents.Keys);
  }

  lemma CompleteKeepsInv(s: State, id: string)
    requires Inv(s)
    ensures Inv(AfterComplete(s, id))
  {
    if CompleteOutcomeOf(s, id).IntentChanged? {
      RetireAllKeepsInv(s, FenceSet(s.intents[id]));
      DropIntentsKeepsInv(RetireAll(s, FenceSet(s.intents[id])), {id});
    }
  }

  lemma AbortKeepsInv(s: State, id: string)
    requires Inv(s)
    ensures Inv(AfterAbort(s, id))
  {
    DropIntentsKeepsInv(s, {id});
  }

  lemma AuthorizeKeepsInv(s: State, a: Applied)
    requires Inv(s)
    ensures Inv(AfterAuthorize(s, a))
  {
    var ids := Recoverable(s, a);
    RetireAllKeepsInv(s, IntentFences(s, ids));
    DropIntentsKeepsInv(RetireAll(s, IntentFences(s, ids)), ids);
  }
}

/** The loops of the plugin log outbox, one turn at a time: what the state is after `i` turns, and how
    one more turn changes it. */
module LogOutboxLoops {
  import opened Sequences
  import opened LogReports
  import opened LogOutboxState
  import opened LogOutboxInvariant
  import opened LogOutboxRuns

  // ---------- the eviction loop ----------

  /** The outbox after the eviction loop has taken `i` entries of the original order from the front. */
  function Turned(s: State, p: set<string>, i: nat): State
    requires i <= |s.batchOrder|
  {
    s.(batches := s.batches - Unprotected(s.batchOrder, p, i),
       batchOrder := s.batchOrder[i..] + Keep(s.batchOrder[..i], p))
  }

  lemma TurnedNone(s: State, p: set<string>)
    ensures Turned(s, p, 0) == s
  {
    assert Unprotected(s.batchOrder, p, 0) == {};
    assert s.batches - {} == s.batches;
    assert s.batchOrder[0..] + Keep(s.batchOrder[..0], p) == s.batchOrder;
  }

  lemma TurnOrder(order: seq<string>, p: set<string>, i: nat)
    requires i < |order|
    ensures
      var now, next := order[i..] + Keep(order[..i], p), order[i + 1..] + Keep(order[..i + 1], p);
      now[0] == order[i] && next == now[1..] + (if order[i] in p then [order[i]] else [])
  {
    hide Keep;
    OneMore(order, p, i);
    assert order[i..] == [order[i]] + order[i + 1..];
  }

  lemma ListedOnce(order: seq<string>, keys: set<string>, i: nat)
    requires Lists(order, keys) && i < |order|
    ensures order[i] in keys && order[i] !in order[..i]
  {
  }

  lemma PassedWereListed(order: seq<string>, p: set<string>, i: nat)
    requires i <= |order|
    ensures forall b :: b in Unprotected(order, p, i) ==> b in order[..i]
  {
  }

  lemma TurnBatches(order: seq<string>, batches: map<string, seq<Report>>, p: set<string>, i: nat)
    requires Lists(order, batches.Keys) && i < |order|
    ensures
      var now, next, b := batches - Unprotected(order, p, i), batches - Unprotected(order, p, i + 1), order[i];
      && next == (if b in p then now else now - {b})
      && |next| == |now| - (if b in p then 0 else 1)
  {
    hide Lists, Keep, Outside;
    OneMore(order, p, i);
    ListedOnce(order, batches.Keys, i);
    PassedWereListed(order, p, i);
    if order[i] !in p {
      MinusOne(batches, Unprotected(order, p, i), order[i]);
    }
  }

  /** One turn: a protected entry goes to the back, an unprotected one is evicted. */
  lemma TurnOnce(s: State, p: set<string>, i: nat)
    requires Lists(s.batchOrder, s.batches.Keys) && i < |s.batchOrder|
    ensures
      var now, next, b := Turned(s, p, i), Turned(s, p, i + 1), s.batchOrder[i];
      && now.batchOrder != [] && now.batchOrder[0] == b
      && next == now.(batchOrder := next.batchOrder, batches := next.batches)
      && next.batchOrder == now.batchOrder[1..] + (if b in p then [b] else [])
      && next.batches == (if b in p then now.batches else now.batches - {b})
      && |next.batches| == |now.batches| - (if b in p then 0 else 1)
      && |next.batchOrder| == |now.batchOrder| - (if b in p then 0 else 1)
  {
    hide Keep, Unprotected, Lists;
    TurnOrder(s.batchOrder, p, i);
    TurnBatches(s.batchOrder, s.batches, p, i);
  }

  lemma AllPassed(order: seq<string>, keys: set<string>, p: set<string>)
    requires Lists(order, keys) && p <= keys
    ensures keys - Unprotected(order, p, |order|) == p
  {
    assert order[..|order|] == order;
  }

  /** While too many batches remain, the loop has not yet been through the whole order. */
  lemma NotAllTurned(s: State, p: set<string>, i: nat)
    requires Lists(s.batchOrder, s.batches.Keys) && p <= s.batches.Keys && |p| <= MAX_REPLAY_IDENTITIES
    requires i <= |s.batchOrder| && |Turned(s, p, i).batches| > MAX_REPLAY_IDENTITIES
    ensures i < |s.batchOrder|
  {
    hide Keep, Unprotected, Lists;
    MinusKeys(s.batches, Unprotected(s.batchOrder, p, i));
    AllPassed(s.batchOrder, s.batches.Keys, p);
  }

  /** When the loop stops, it has made exactly the cut. */
  lemma EvictedIsTurned(s: State, i: nat)
    requires i <= |s.batchOrder| && |Turned(s, ProtectedBatches(s), i).batches| <= MAX_REPLAY_IDENTITIES
    requires Cut(s.batchOrder, ProtectedBatches(s), 0, i) ==
             Cut(s.batchOrder, ProtectedBatches(s), Excess(|s.batches|), 0)
    ensures Turned(s, ProtectedBatches(s), i) == Evicted(s)
  {
    hide ProtectedBatches;
  }

  // ---------- the forgetting loop ----------

  function Passed(s: State, keep: set<Fence>, i: nat): State
    requires i <= |s.sequenceOrder|
  {
    s.(sequence := s.sequence - Outside(s.sequenceOrder[..i], keep),
       sequenceOrder := Keep(s.sequenceOrder[..i], s.sequence.Keys * keep),
       retired := s.retired - Outside(s.sequenceOrder[..i], keep))
  }

  lemma PassNone(s: State, keep: set<Fence>)
    ensures Passed(s, keep, 0) == s.(sequenceOrder := [])
  {
    assert Outside(s.sequenceOrder[..0], keep) == {};
    assert s.sequence - {} == s.sequence && s.retired - {} == s.retired;
  }

  lemma PassOnce(s: State, keep: set<Fence>, i: nat)
    requires Lists(s.sequenceOrder, s.sequence.Keys) && i < |s.sequenceOrder|
    ensures
      var now, next, f := Passed(s, keep, i), Passed(s, keep, i + 1), s.sequenceOrder[i];
      && f in now.sequence
      && next == if f in keep then now.(sequenceOrder := now.sequenceOrder + [f])
                 else now.(sequence := now.sequence - {f}, retired := now.retired - {f})
  {
    hide Keep;
    var f := s.sequenceOrder[i];
    var gone := Outside(s.sequenceOrder[..i], keep);
    OneMore(s.sequenceOrder, keep, i);
    OneMore(s.sequenceOrder, s.sequence.Keys * keep, i);
    assert f in s.sequence.Keys;
    if f !in keep {
      assert s.sequence - (gone + {f}) == s.sequence - gone - {f};
      assert s.retired - (gone + {f}) == s.retired - gone - {f};
    }
  }

  lemma PassAll(s: State)
    requires Lists(s.sequenceOrder, s.sequence.Keys)
    ensures Passed(s, ProtectedFences(s), |s.sequenceOrder|) == Forget(s)
  {
    hide ProtectedFences;
    assert s.sequenceOrder[..|s.sequenceOrder|] == s.sequenceOrder;
    assert Outside(s.sequenceOrder, ProtectedFences(s)) == Forgotten(s);
  }

  // ---------- the acknowledgement bound ----------

  function Dropped(s: State, n: nat): State
    requires n <= |s.ackOrder|
  {
    s.(acks := s.acks - (set a | a in s.ackOrder[..n]), ackOrder := s.ackOrder[n..])
  }

  lemma DropNone(s: State)
    ensures Dropped(s, 0) == s
  {
    assert s.acks - (set a | a in s.ackOrder[..0]) == s.acks;
  }

  lemma DroppedCount(s: State, n: nat)
    requires Lists(s.ackOrder, s.acks) && n <= |s.ackOrder|
    ensures |Dropped(s, n).acks| == |s.ackOrder| - n
  {
    var front, back := s.ackOrder[..n], s.ackOrder[n..];
    assert s.ackOrder == front + back;
    NoDupConcat(front, back);
    ListsCardinality(back, Dropped(s, n).acks);
  }

  lemma DroppedOrder(s: State, n: nat)
    requires n <= |s.ackOrder|
    ensures Dropped(s, n).ackOrder == s.ackOrder[n..]
    ensures n == Excess(|s.ackOrder|) ==> Dropped(s, n) == DropAcks(s)
  {
  }

  lemma DropOnce(s: State, n: nat)
    requires n < |s.ackOrder|
    ensures Dropped(s, n + 1) == Dropped(s, n).(ackOrder := Dropped(s, n).ackOrder[1..], acks := Dropped(s, n).acks - {s.ackOrder[n]})
  {
    var a := s.ackOrder[n];
    assert s.ackOrder[..n + 1] == s.ackOrder[..n] + [a];
  }

  // ---------- the numbering loop ----------

  lemma CountOneMore(drafts: seq<Report>, i: nat, f: Fence)
    requires i < |drafts|
    ensures Count(drafts[..i + 1], f) == Count(drafts[..i], f) + (if drafts[i].fence == f then 1 else 0)
    ensures f !in Fences(drafts[..i]) ==> Count(drafts[..i], f) == 0
    ensures Fences(drafts[..i + 1]) == Fences(drafts[..i]) + {drafts[i].fence}
  {
    assert drafts[..i + 1][..i] == drafts[..i];
    assert drafts[..i + 1] == drafts[..i] + [drafts[i]];
    if f !in Fences(drafts[..i]) {
      CountAbsent(drafts[..i], f);
    }
  }

  lemma AdvancedOneMore(hw: map<Fence, nat>, drafts: seq<Report>, i: nat)
    requires i < |drafts|
    ensures Advanced(hw, drafts[..i + 1]) == Advanced(hw, drafts[..i])[drafts[i].fence := Number(hw, drafts, i)]
  {
    hide Fences, Count;
    var now, next := Advanced(hw, drafts[..i]), Advanced(hw, drafts[..i + 1]);
    CountOneMore(drafts, i, drafts[i].fence);
    assert next.Keys == now.Keys + {drafts[i].fence};
    forall f | f in next.Keys && f != drafts[i].fence ensures next[f] == now[f] {
      CountOneMore(drafts, i, f);
    }
  }

  /** One turn of the numbering loop. */
  lemma AdvanceOne(hw: map<Fence, nat>, drafts: seq<Report>, i: nat)
    requires i < |drafts|
    ensures Number(hw, drafts, i) == HighWater(Advanced(hw, drafts[..i]), drafts[i].fence) + 1
    ensures Advanced(hw, drafts[..i + 1]) == Advanced(hw, drafts[..i])[drafts[i].fence := Number(hw, drafts, i)]
    ensures NewFences(hw.Keys, drafts[..i + 1]) ==
            NewFences(hw.Keys, drafts[..i]) + (if drafts[i].fence in Advanced(hw, drafts[..i]) then [] else [drafts[i].fence])
  {
    hide Count;
    CountOneMore(drafts, i, drafts[i].fence);
    AdvancedOneMore(hw, drafts, i);
    assert drafts[..i + 1][..i] == drafts[..i];
  }

  lemma {:induction false} ErrorStands(hw: map<Fence, nat>, drafts: seq<Report>, i: nat, n: nat)
    requires i < n <= |drafts| && FirstDraftError(hw, drafts, i).None? && DraftError(hw, drafts, i).Some?
    ensures FirstDraftError(hw, drafts, n) == DraftError(hw, drafts, i)
  {
    if i + 1 < n {
      ErrorStands(hw, drafts, i, n - 1);
    }
  }

  lemma NoSentDefect(sent: seq<Report>)
    ensures FirstSentDefect(sent, 0).None? && Ids(sent[..0]) == {}
  {
  }

  /** What one more sent report adds to the defects. */
  lemma DefectStep(sent: seq<Report>, i: nat)
    requires i < |sent| && FirstSentDefect(sent, i).None?
    ensures FirstSentDefect(sent, i + 1) ==
              if !ValidReport(sent[i]) then Some(InvalidSent)
              else if Id(sent[i]) in Ids(sent[..i]) then Some(DuplicateSent)
              else None
  {
    hide ValidReport;
    IdsGrow(sent, i);
  }

  lemma {:induction false} DefectStands(sent: seq<Report>, i: nat, n: nat)
    requires i <= n <= |sent| && FirstSentDefect(sent, i).Some?
    ensures FirstSentDefect(sent, n) == FirstSentDefect(sent, i)
  {
    if i < n {
      DefectStands(sent, i, n - 1);
    }
  }

  lemma {:induction false} FenceDefectStands(fences: seq<Fence>, i: nat, n: nat)
    requires i <= n <= |fences| && FirstFenceDefect(fences, i).Some?
    ensures FirstFenceDefect(fences, n) == FirstFenceDefect(fences, i)
  {
    if i < n {
      FenceDefectStands(fences, i, n - 1);
    }
  }

  lemma InvIsConsistent(s: State)
    requires Inv(s)
    ensures Consistent(s)
  {
  }

  lemma RemovedConsistent(s: State, sent: seq<Report>)
    requires Inv(s) && Digest(sent) !in s.acks
    ensures Consistent(Removed(s, sent))
  {
    WithoutOrdered(s.pending, Ids(sent));
  }

  lemma MarkedConsistent(s: State, f: Fence)
    requires Inv(s) && f in s.sequence
    ensures Consistent(s.(retired := s.retired + {f}))
  {
  }

  lemma IntentFencesValid(s: State, id: string)
    requires Inv(s) && id in s.intents
    ensures forall f :: f in s.intents[id].fences ==> ValidFence(f)
  {
  }

  lemma RetireAllKeepsIntents(s: State, fences: set<Fence>)
    ensures RetireAll(s, fences).intents == s.intents
  {
  }

  lemma NumberNone(hw: map<Fence, nat>, drafts: seq<Report>)
    ensures Advanced(hw, drafts[..0]) == hw && NewFences(hw.Keys, drafts[..0]) == []
  {
  }

  lemma IdsGrow(sent: seq<Report>, i: nat)
    requires i < |sent|
    ensures Ids(sent[..i + 1]) == Ids(sent[..i]) + {Id(sent[i])}
    ensures Id(sent[i]) in Ids(sent[..i]) <==> exists k :: 0 <= k < i && Id(sent[k]) == Id(sent[i])
  {
    assert sent[..i + 1] == sent[..i] + [sent[i]];
  }

  function SetOf(fences: seq<Fence>): set<Fence> {
    set f | f in fences
  }

  lemma WithoutOneMore(reports: seq<Report>, ids: set<ReportId>, i: nat)
    requires i < |reports|
    ensures Without(reports[..0], ids) == []
    ensures Without(reports[..i + 1], ids) == Without(reports[..i], ids) + (if Id(reports[i]) in ids then [] else [reports[i]])
    ensures Without(reports[..i + 1], ids) == reports[..i + 1] <==> Without(reports[..i], ids) == reports[..i] && Id(reports[i]) !in ids
  {
    assert reports[..i + 1][..i] == reports[..i];
    assert reports[..i + 1] == reports[..i] + [reports[i]];
  }

  lemma {:induction false} WithoutChanges(reports: seq<Report>, ids: set<ReportId>)
    ensures Without(reports, ids) != reports <==> exists r :: r in reports && Id(r) in ids
  {
    if forall r :: r in reports ==> Id(r) !in ids {
      WithoutNone(reports, ids);
    }
  }

  lemma {:induction false} WithoutNone(reports: seq<Report>, ids: set<ReportId>)
    requires forall r :: r in reports ==> Id(r) !in ids
    ensures Without(reports, ids) == reports
  {
    if reports != [] {
      var front, last := reports[..|reports| - 1], reports[|reports| - 1];
      forall r | r in front ensures Id(r) !in ids {
        assert r in reports;
      }
      WithoutNone(front, ids);
      assert last in reports;
      assert front + [last] == reports;
    }
  }
}

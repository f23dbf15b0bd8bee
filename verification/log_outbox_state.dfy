/** The plugin log outbox as a value: its state, what each operation makes of it, and the
    invariant. `LogOutbox` holds the operations as they are written, in place, and proves them
    equal to the functions here; `LogOutboxRuns` proves what the operations promise over runs. */
module LogOutboxState {
  import opened Sequences
  import opened LogReports

  const MAX_REPLAY_IDENTITIES := 512
  const MAX_RETIREMENT_INTENTS := 512

  /** A SHA-256 over the JSON of a list of reports, kept abstract and injective. */
  datatype Digest = Digest(content: seq<Report>)

  datatype Intent = Intent(id: string, revision: int, sessionId: string, drained: bool, fences: seq<Fence>)

  datatype State = State(
    pending: seq<Report>,
    sequence: map<Fence, nat>,
    sequenceOrder: seq<Fence>,
    batches: map<string, seq<Report>>,
    batchOrder: seq<string>,
    acks: set<Digest>,
    ackOrder: seq<Digest>,
    retired: set<Fence>,
    intents: map<string, Intent>)

  const EMPTY := State([], map[], [], map[], [], {}, [], {}, map[])

  // ---------- reports ----------

  function Ids(reports: seq<Report>): set<ReportId> {
    set r | r in reports :: Id(r)
  }

  function Fences(reports: seq<Report>): set<Fence> {
    set r | r in reports :: r.fence
  }

  function BatchFences(batches: map<string, seq<Report>>): set<Fence> {
    set b, f | b in batches && f in Fences(batches[b]) :: f
  }

  /** The reports whose identity is not in `ids`, in order. */
  function Without(reports: seq<Report>, ids: set<ReportId>): (kept: seq<Report>)
    ensures |kept| <= |reports|
    ensures forall r :: r in kept <==> r in reports && Id(r) !in ids
  {
    if reports == [] then []
    else
      var last := reports[|reports| - 1];
      Without(reports[..|reports| - 1], ids) + (if Id(last) in ids then [] else [last])
  }

  function Unnumbered(reports: seq<Report>): (drafts: seq<Report>)
    ensures |drafts| == |reports|
    ensures forall i :: 0 <= i < |reports| ==> drafts[i] == reports[i].(sequence := 0)
  {
    seq(|reports|, i requires 0 <= i < |reports| => reports[i].(sequence := 0))
  }

  // ---------- numbering a batch ----------

  datatype EnqueueError =
    InvalidBatchId | BatchCollision | OutboxFull | AlreadySequenced | SequenceExhausted | InvalidReport

  datatype EnqueueOutcome =
    | Ignored
    | Accepted(reports: seq<Report>)
    | Replayed(reports: seq<Report>)
    | Rejected(error: EnqueueError)

  function HighWater(hw: map<Fence, nat>, f: Fence): nat {
    if f in hw then hw[f] else 0
  }

  /** How many of the reports belong to fence `f`. */
  function Count(reports: seq<Report>, f: Fence): (n: nat)
    ensures n <= |reports|
  {
    if reports == [] then 0
    else Count(reports[..|reports| - 1], f) + (if reports[|reports| - 1].fence == f then 1 else 0)
  }

  /** The number of draft `i`: its fence's high-water mark plus its rank among that fence's drafts. */
  function Number(hw: map<Fence, nat>, drafts: seq<Report>, i: nat): nat
    requires i < |drafts|
  {
    HighWater(hw, drafts[i].fence) + Count(drafts[..i + 1], drafts[i].fence)
  }

  function Numbered(hw: map<Fence, nat>, drafts: seq<Report>): (reports: seq<Report>)
    ensures |reports| == |drafts|
    ensures forall i :: 0 <= i < |drafts| ==> reports[i] == drafts[i].(sequence := Number(hw, drafts, i))
  {
    seq(|drafts|, i requires 0 <= i < |drafts| => drafts[i].(sequence := Number(hw, drafts, i)))
  }

  function Advanced(hw: map<Fence, nat>, drafts: seq<Report>): map<Fence, nat> {
    map f | f in hw.Keys + Fences(drafts) :: HighWater(hw, f) + Count(drafts, f)
  }

  /** The fences of `drafts` not yet known, in order of first appearance. */
  function NewFences(known: set<Fence>, drafts: seq<Report>): (fences: seq<Fence>)
    ensures forall f :: f in fences <==> f in Fences(drafts) && f !in known
  {
    if drafts == [] then []
    else
      var earlier := NewFences(known, drafts[..|drafts| - 1]);
      var f := drafts[|drafts| - 1].fence;
      if f in known || f in earlier then earlier else earlier + [f]
  }

  function DraftError(hw: map<Fence, nat>, drafts: seq<Report>, i: nat): Option<EnqueueError>
    requires i < |drafts|
  {
    if drafts[i].sequence != 0 then Some(AlreadySequenced)
    else if Number(hw, drafts, i) > MAX_SEQUENCE then Some(SequenceExhausted)
    else if !ValidReport(drafts[i].(sequence := Number(hw, drafts, i))) then Some(InvalidReport)
    else None
  }

  /** The error of the first of the first `n` drafts that has one. */
  function FirstDraftError(hw: map<Fence, nat>, drafts: seq<Report>, n: nat): (e: Option<EnqueueError>)
    requires n <= |drafts|
  {
    if n == 0 then None
    else
      var e := FirstDraftError(hw, drafts, n - 1);
      if e.Some? then e else DraftError(hw, drafts, n - 1)
  }

  lemma {:induction false} NoDraftError(hw: map<Fence, nat>, drafts: seq<Report>, n: nat, i: nat)
    requires i < n <= |drafts| && FirstDraftError(hw, drafts, n).None?
    ensures DraftError(hw, drafts, i).None?
  {
    if i < n - 1 {
      NoDraftError(hw, drafts, n - 1, i);
    }
  }

  function EnqueueOutcomeOf(s: State, batchId: string, drafts: seq<Report>): EnqueueOutcome {
    if drafts == [] then Ignored
    else if !ValidDigest(batchId) then Rejected(InvalidBatchId)
    else if batchId in s.batches then
      if Digest(Unnumbered(s.batches[batchId])) == Digest(drafts) then Replayed(s.batches[batchId])
      else Rejected(BatchCollision)
    else if |s.pending| + |drafts| > MAX_PENDING_REPORTS then Rejected(OutboxFull)
    else
      match FirstDraftError(s.sequence, drafts, |drafts|)
      case Some(e) => Rejected(e)
      case None => Accepted(Numbered(s.sequence, drafts))
  }

  /** What the state becomes when a batch is accepted, before history is trimmed. */
  function Appended(s: State, batchId: string, drafts: seq<Report>): State {
    var numbered := Numbered(s.sequence, drafts);
    s.(pending := s.pending + numbered,
       sequence := Advanced(s.sequence, drafts),
       sequenceOrder := s.sequenceOrder + NewFences(s.sequence.Keys, drafts),
       batches := s.batches[batchId := numbered],
       batchOrder := s.batchOrder + [batchId],
       retired := s.retired - Fences(drafts))
  }

  function AfterEnqueue(s: State, batchId: string, drafts: seq<Report>): State {
    if EnqueueOutcomeOf(s, batchId, drafts).Accepted? then Trimmed(Appended(s, batchId, drafts)) else s
  }

  // ---------- acknowledgement ----------

  datatype AckOutcome =
    | NothingSent
    | AlreadyAcknowledged(id: Digest)
    | InvalidSent
    | DuplicateSent
    | Acknowledged(id: Digest, identities: seq<ReportId>, changed: bool)

  /** The first defect among the first `n` sent reports: invalid, or a repeat of an earlier one. */
  function FirstSentDefect(sent: seq<Report>, n: nat): (d: Option<AckOutcome>)
    requires n <= |sent|
    ensures d.Some? ==> d.value in {InvalidSent, DuplicateSent}
    ensures d.None? <==> (forall i :: 0 <= i < n ==> ValidReport(sent[i])) &&
                         (forall i, j :: 0 <= i < j < n ==> Id(sent[i]) != Id(sent[j]))
  {
    if n == 0 then None
    else
      var d := FirstSentDefect(sent, n - 1);
      if d.Some? then d
      else if !ValidReport(sent[n - 1]) then Some(InvalidSent)
      else if exists i :: 0 <= i < n - 1 && Id(sent[i]) == Id(sent[n - 1]) then Some(DuplicateSent)
      else None
  }

  function IdsInOrder(reports: seq<Report>): (ids: seq<ReportId>)
    ensures |ids| == |reports| && forall i :: 0 <= i < |ids| ==> ids[i] == Id(reports[i])
  {
    seq(|reports|, i requires 0 <= i < |reports| => Id(reports[i]))
  }

  function AckOutcomeOf(s: State, sent: seq<Report>): AckOutcome {
    if sent == [] then NothingSent
    else if Digest(sent) in s.acks then AlreadyAcknowledged(Digest(sent))
    else
      match FirstSentDefect(sent, |sent|)
      case Some(defect) => defect
      case None => Acknowledged(Digest(sent), IdsInOrder(sent), exists r :: r in s.pending && Id(r) in Ids(sent))
  }

  function Removed(s: State, sent: seq<Report>): State {
    s.(pending := Without(s.pending, Ids(sent)),
       acks := s.acks + {Digest(sent)},
       ackOrder := s.ackOrder + [Digest(sent)])
  }

  function AfterAcknowledge(s: State, sent: seq<Report>): State {
    if AckOutcomeOf(s, sent).Acknowledged? then Trimmed(Removed(s, sent)) else s
  }

  // ---------- trimming replay history ----------

  /** The batches that still hold a pending report; they may not be evicted. */
  function ProtectedBatches(s: State): (p: set<string>)
    ensures p <= s.batches.Keys
  {
    set b | b in s.batches && Ids(s.batches[b]) * Ids(s.pending) != {}
  }

  function Excess(n: nat): nat {
    if n > MAX_REPLAY_IDENTITIES then n - MAX_REPLAY_IDENTITIES else 0
  }

  /** How far into the batch order one must read to pass `excess` unprotected entries. */
  function Cut(order: seq<string>, p: set<string>, excess: nat, i: nat): (cut: nat)
    requires i <= |order|
    ensures i <= cut <= |order|
    decreases |order| - i
  {
    if excess == 0 || i == |order| then i
    else Cut(order, p, if order[i] in p then excess else excess - 1, i + 1)
  }

  /** The unprotected entries among the first `i`. */
  function Unprotected(order: seq<string>, p: set<string>, i: nat): set<string>
    requires i <= |order|
  {
    Outside(order[..i], p)
  }

  /** The eviction queue gives up its oldest unprotected batches until 512 remain; the protected
      ones it meets on the way go to the back, in order. */
  function Evicted(s: State): State {
    var p := ProtectedBatches(s);
    var cut := Cut(s.batchOrder, p, Excess(|s.batches|), 0);
    s.(batches := s.batches - Unprotected(s.batchOrder, p, cut),
       batchOrder := s.batchOrder[cut..] + Keep(s.batchOrder[..cut], p))
  }

  /** Fences whose high-water mark must survive: not retired, or still named by a report we hold. */
  function ProtectedFences(s: State): set<Fence> {
    (s.sequence.Keys - s.retired) + Fences(s.pending) + BatchFences(s.batches)
  }

  function Forgotten(s: State): set<Fence> {
    s.sequence.Keys - ProtectedFences(s)
  }

  function Forget(s: State): State {
    s.(sequence := s.sequence - Forgotten(s),
       sequenceOrder := Keep(s.sequenceOrder, s.sequence.Keys * ProtectedFences(s)),
       retired := s.retired - Forgotten(s))
  }

  function DropAcks(s: State): State {
    var n := Excess(|s.ackOrder|);
    s.(acks := s.acks - (set a | a in s.ackOrder[..n]), ackOrder := s.ackOrder[n..])
  }

  function Trimmed(s: State): State {
    DropAcks(Forget(Evicted(s)))
  }

  // ---------- retirement ----------

  datatype RetireOutcome = InvalidFence | NotTracked | AlreadyRetired | Retired

  function RetireOutcomeOf(s: State, f: Fence): RetireOutcome {
    if !ValidFence(f) then InvalidFence
    else if f !in s.sequence then NotTracked
    else if f in s.retired then AlreadyRetired
    else Retired
  }

  function AfterRetire(s: State, f: Fence): State {
    if RetireOutcomeOf(s, f).Retired? then Trimmed(s.(retired := s.retired + {f})) else s
  }

  datatype IntentOutcome = IntentChanged | IntentUnchanged | IntentRefused(reason: IntentError)
  datatype IntentError =
    InvalidIntent | InvalidSession | InvalidIntentFence | DuplicateFence | IntentCollision | TooManyIntents | NotDrained

  function FirstFenceDefect(fences: seq<Fence>, n: nat): (d: Option<IntentError>)
    requires n <= |fences|
    ensures d.Some? ==> d.value in {InvalidIntentFence, DuplicateFence}
    ensures d.None? <==> (forall i :: 0 <= i < n ==> ValidFence(fences[i])) && NoDup(fences[..n])
  {
    if n == 0 then None
    else
      var d := FirstFenceDefect(fences, n - 1);
      if d.Some? then (assert fences[..n][..n - 1] == fences[..n - 1]; d)
      else if !ValidFence(fences[n - 1]) then Some(InvalidIntentFence)
      else if fences[n - 1] in fences[..n - 1] then Some(DuplicateFence)
      else None
  }

  /** Two intents are the same intent when id, revision and fences agree; the session and the
      drained mark are not compared. */
  predicate SameIntent(a: Intent, b: Intent) {
    a.id == b.id && a.revision == b.revision && a.fences == b.fences
  }

  function StageOutcomeOf(s: State, id: string, revision: int, fences: seq<Fence>, sessionId: string): IntentOutcome {
    if !ValidDigest(id) || revision <= 0 || fences == [] then IntentRefused(InvalidIntent)
    else if sessionId != "" && !ValidDigest(sessionId) then IntentRefused(InvalidSession)
    else
      match FirstFenceDefect(fences, |fences|)
      case Some(e) => IntentRefused(e)
      case None =>
        if id in s.intents then
          if SameIntent(s.intents[id], Intent(id, revision, sessionId, false, fences)) then IntentUnchanged
          else IntentRefused(IntentCollision)
        else if |s.intents| >= MAX_RETIREMENT_INTENTS then IntentRefused(TooManyIntents)
        else IntentChanged
  }

  function AfterStage(s: State, id: string, revision: int, fences: seq<Fence>, sessionId: string): State {
    if StageOutcomeOf(s, id, revision, fences, sessionId).IntentChanged?
    then s.(intents := s.intents[id := Intent(id, revision, sessionId, false, fences)])
    else s
  }

  function DrainOutcomeOf(s: State, id: string): IntentOutcome {
    if !ValidDigest(id) then IntentRefused(InvalidIntent)
    else if id !in s.intents || s.intents[id].drained then IntentUnchanged
    else IntentChanged
  }

  function AfterDrain(s: State, id: string): State {
    if DrainOutcomeOf(s, id).IntentChanged?
    then s.(intents := s.intents[id := s.intents[id].(drained := true)])
    else s
  }

  /** Retiring several fences at once: mark those tracked, then forget what nothing names. */
  function RetireAll(s: State, fences: set<Fence>): State {
    Forget(s.(retired := s.retired + fences * s.sequence.Keys))
  }

  function CompleteOutcomeOf(s: State, id: string): IntentOutcome {
    if !ValidDigest(id) then IntentRefused(InvalidIntent)
    else if id !in s.intents then IntentUnchanged
    else if !s.intents[id].drained then IntentRefused(NotDrained)
    else if exists f :: f in s.intents[id].fences && !ValidFence(f) then IntentRefused(InvalidIntentFence)
    else IntentChanged
  }

  function FenceSet(i: Intent): set<Fence> {
    set f | f in i.fences
  }

  function AfterComplete(s: State, id: string): State {
    if CompleteOutcomeOf(s, id).IntentChanged?
    then RetireAll(s, FenceSet(s.intents[id])).(intents := s.intents - {id})
    else s
  }

  function AbortOutcomeOf(s: State, id: string): IntentOutcome {
    if !ValidDigest(id) then IntentRefused(InvalidIntent)
    else if id !in s.intents then IntentUnchanged
    else IntentChanged
  }

  function AfterAbort(s: State, id: string): State {
    if AbortOutcomeOf(s, id).IntentChanged? then s.(intents := s.intents - {id}) else s
  }

  /** What an applied snapshot says about retirement: its revision and the fences it runs. */
  datatype Applied = Applied(revision: int, generations: seq<Fence>)

  function ActiveFences(a: Applied): set<Fence> {
    set f | f in a.generations && ValidFence(f)
  }

  predicate Removable(i: Intent, a: Applied) {
    forall f :: f in i.fences ==> ValidFence(f) && f !in ActiveFences(a)
  }

  /** The intents an applied snapshot may complete. */
  function Recoverable(s: State, a: Applied): set<string> {
    if a.revision <= 0 then {}
    else set id | id in s.intents && a.revision >= s.intents[id].revision && s.intents[id].drained && Removable(s.intents[id], a)
  }

  /** The undrained intents left behind by an earlier session that an applied snapshot allows to drain. */
  function RestartDrainable(s: State, a: Applied, sessionId: string): set<string> {
    if a.revision <= 0 || sessionId == "" then {}
    else set id | id in s.intents && !s.intents[id].drained && s.intents[id].sessionId != "" &&
                  s.intents[id].sessionId != sessionId && a.revision >= s.intents[id].revision && Removable(s.intents[id], a)
  }

  function IntentFences(s: State, ids: set<string>): set<Fence> {
    set id, f | id in ids && id in s.intents && f in s.intents[id].fences :: f
  }

  /** All recoverable intents completed at once, in no particular order. */
  function AfterAuthorize(s: State, a: Applied): State {
    var ids := Recoverable(s, a);
    RetireAll(s, IntentFences(s, ids)).(intents := s.intents - ids)
  }

  // ---------- the invariant ----------

  ghost predicate Covered(hw: map<Fence, nat>, r: Report) {
    ValidReport(r) && r.fence in hw && r.sequence <= hw[r.fence]
  }

  ghost predicate BatchesCovered(batches: map<string, seq<Report>>, hw: map<Fence, nat>) {
    forall b :: b in batches ==>
      ValidDigest(b) && batches[b] != [] && forall r :: r in batches[b] ==> Covered(hw, r)
  }

  ghost predicate DistinctIds(batches: map<string, seq<Report>>) {
    forall b, i, c, j {:trigger batches[b][i], batches[c][j]} ::
      (b in batches && c in batches && 0 <= i < |batches[b]| && 0 <= j < |batches[c]| &&
       Id(batches[b][i]) == Id(batches[c][j])) ==> b == c && i == j
  }

  ghost predicate Retained(batches: map<string, seq<Report>>, r: Report) {
    exists b :: b in batches && r in batches[b]
  }

  ghost predicate PendingRetained(pending: seq<Report>, batches: map<string, seq<Report>>) {
    forall r :: r in pending ==> Retained(batches, r)
  }

  /** Pending reports of one fence wait in the order of their numbers. */
  ghost predicate PendingOrdered(pending: seq<Report>) {
    forall i, j :: 0 <= i < j < |pending| && pending[i].fence == pending[j].fence ==>
      pending[i].sequence < pending[j].sequence
  }

  ghost predicate ValidIntents(intents: map<string, Intent>) {
    && |intents| <= MAX_RETIREMENT_INTENTS
    && forall id :: id in intents ==>
         var i := intents[id];
         ValidDigest(id) && i.id == id && i.revision > 0 && i.fences != [] &&
         NoDup(i.fences) && forall f :: f in i.fences ==> ValidFence(f)
  }

  /** Everything the operations keep, apart from the history bounds that trimming restores. */
  ghost predicate Consistent(s: State) {
    && Lists(s.batchOrder, s.batches.Keys)
    && Lists(s.sequenceOrder, s.sequence.Keys)
    && Lists(s.ackOrder, s.acks)
    && BatchesCovered(s.batches, s.sequence)
    && DistinctIds(s.batches)
    && PendingRetained(s.pending, s.batches)
    && PendingOrdered(s.pending)
    && s.retired <= s.sequence.Keys
    && |s.pending| <= MAX_PENDING_REPORTS
    && ValidIntents(s.intents)
  }

  ghost predicate Inv(s: State) {
    && Consistent(s)
    && |s.batches| <= MAX_REPLAY_IDENTITIES
    && |s.acks| <= MAX_REPLAY_IDENTITIES
    // a retired fence is remembered only while a retained batch names it
    && s.retired <= BatchFences(s.batches)
  }
}

/** When the threads that reject enrollments stay out of each other's way, what happens when they do not, and
    the two operations of the agent as runs of the system. */
module PkiRejectionThreads {
  import opened Sequences
  import opened PkiStore
  import opened PkiRejection
  import opened PkiRejectionGuarantees

  // ---------- one operation at a time ----------

  /** The other threads are idle. */
  predicate OneAtATime(s: System, e: Event) {
    e.Act? ==> forall t :: t in s.threads && t != e.thread ==> s.threads[t].pc.Idle?
  }

  /** An answer is acted on only for the last offer, and only if nothing has begun to reject since. */
  predicate Orderly(s: System, e: Event) {
    e.Act? && (e.action.StartRejection? || e.action.StartActivation?) ==> s.awaiting
  }

  predicate InTurn(s: System, events: seq<Event>)
    requires RunOf(s, events)
    decreases |events|
  {
    events == [] || (OneAtATime(s, events[0]) && Orderly(s, events[0]) && InTurn(Step(s, events[0]), events[1..]))
  }

  /** What a thread knows while nobody disturbs it. */
  predicate PcOk(d: Disk, pc: Pc) {
    match pc
    case Idle => true
    case Loaded(list) => list == d.pending
    case ReQuarantining(list, i) => list == d.pending && d.intent == Some(i)
    case ReFinalizing(list, i) => d.intent == Some(i) && Done(d, i) && Without(list, i.request) == d.pending
    case Reconciled(list) => d.intent.None? && list == d.pending
    case Deciding(list, loaded) => d.intent.None? && loaded.None? && list == d.pending
    case Failing(loaded) => d.intent.None? && loaded.None?
    case Reloading => d.intent.None?
    case Closing(list) => d.intent.None? && (list.None? || list == d.pending)
    case SavingIntent(i) => d.intent.None? && d.pending == Some(i.request)
    case Quarantining(i) => d.intent == Some(i)
    case Finalizing(i) => d.intent == Some(i) && Done(d, i)
    case Activating(request) => d.intent.None? && d.pending == Some(request)
    case Resetting(_) => d.intent.None?
  }

  predicate Done(d: Disk, i: Rejection) {
    i.request in d.rejected && d.rejected[i.request] == i.code
  }

  predicate Ending(pc: Pc) {
    pc.SavingIntent? || pc.Activating? || pc.Resetting?
  }

  /** While an answer is awaited nothing is half done, and what was offered is still pending. */
  predicate AwaitingOk(s: System) {
    s.awaiting ==>
      && s.disk.intent.None? && (forall r :: r in s.inflight ==> s.disk.pending == Some(r))
      && forall t :: t in s.threads ==> !Ending(s.threads[t].pc)
  }

  predicate Settled(s: System) {
    Issued(s) && !Wedged(s.disk) && AwaitingOk(s) && forall t :: t in s.threads ==> PcOk(s.disk, s.threads[t].pc)
  }

  lemma ActionInTurn(d: Disk, pc: Pc, act: Action, issued: set<string>)
    requires Fits(pc, act) && DiskIssued(d, issued) && PcOk(d, pc) && !Wedged(d)
    requires act.StartRejection? ==> d.intent.None? && d.pending == Some(act.intent.request)
    requires act.StartActivation? ==> d.intent.None? && d.pending == Some(act.request)
    ensures PcOk(DiskAfter(d, pc, act), PcAfter(d, pc, act)) && !Contradicts(d, pc, act)
  {
  }

  lemma ActionKeepsAwaiting(s: System, t: nat, act: Action)
    requires Settled(s) && Enabled(s, Act(t, act)) && OneAtATime(s, Act(t, act)) && Orderly(s, Act(t, act))
    ensures AwaitingOk(Step(s, Act(t, act)))
  {
    hide Issued;
  }

  lemma StepInTurn(s: System, e: Event)
    requires Settled(s) && Enabled(s, e) && OneAtATime(s, e) && Orderly(s, e)
    ensures Settled(Step(s, e)) && !StepContradicts(s, e)
  {
    hide Issued, PcOk, DiskAfter, PcAfter, InflightAfter, AwaitingAfter, Fits, Contradicts, AwaitingOk, Wedged;
    StepKeepsIssued(s, e);
    match e {
      case Crash => CrashKeepsAwaiting(s);
      case Act(t, act) =>
        ActionKeepsAwaiting(s, t, act);
        PcOkIdle(DiskAfter(s.disk, PcOf(s, t), act));
        PcOkIdle(s.disk);
        IssuedDisk(s);
        StartsOnPending(s, t, act);
        ActionInTurn(s.disk, PcOf(s, t), act, s.issued);
        StepWedgesIff(s, e);
    }
  }

  lemma CrashKeepsAwaiting(s: System)
    ensures AwaitingOk(Step(s, Crash))
  {
  }

  lemma PcOkIdle(d: Disk)
    ensures PcOk(d, Idle)
  {
  }

  lemma IssuedDisk(s: System)
    requires Issued(s)
    ensures DiskIssued(s.disk, s.issued)
  {
  }

  lemma StartsOnPending(s: System, t: nat, act: Action)
    requires AwaitingOk(s) && Enabled(s, Act(t, act)) && Orderly(s, Act(t, act))
    ensures act.StartRejection? ==> s.disk.intent.None? && s.disk.pending == Some(act.intent.request)
    ensures act.StartActivation? ==> s.disk.intent.None? && s.disk.pending == Some(act.request)
  {
  }

  lemma {:induction false} RunInTurn(s: System, events: seq<Event>)
    requires Settled(s) && RunOf(s, events) && InTurn(s, events)
    ensures Settled(After(s, events)) && Agrees(s, events)
    decreases |events|
  {
    hide Settled, Step, Enabled, OneAtATime, Orderly, StepContradicts;
    if events != [] {
      StepInTurn(s, events[0]);
      RunInTurn(Step(s, events[0]), events[1..]);
    }
  }

  /** One operation at a time, with every answer awaited, is enough: whatever faults and crashes there are,
      no step contradicts the disk, and what is about to be offered is clean. */
  lemma TakingTurnsIsSafe(events: seq<Event>, t: nat, request: string)
    requires RunOf(INITIAL, events) && InTurn(INITIAL, events)
    ensures Agrees(INITIAL, events) && !Wedged(After(INITIAL, events).disk)
    ensures PcOf(After(INITIAL, events), t) == Closing(Some(request)) ==> Clean(After(INITIAL, events).disk, request)
  {
    RunInTurn(INITIAL, events);
  }

  /** And what was quarantined while taking turns is never offered again, whatever happens next. */
  lemma RejectedIsNeverOfferedAgain(events: seq<Event>, more: seq<Event>, request: string)
    requires RunOf(INITIAL, events) && InTurn(INITIAL, events) && RunOf(After(INITIAL, events), more)
    requires request in After(INITIAL, events).disk.rejected
    ensures !OffersAgain(After(INITIAL, events), more, request)
  {
    RunInTurn(INITIAL, events);
    var s := After(INITIAL, events);
    assert !SomeoneCouldOffer(s, request);
    NoOfferWithoutHolder(s, more, request);
  }

  // ---------- two threads that do not take turns ----------

  function FaultOf(act: Action): Fault {
    match act
    case QuarantineAgain(f) => f
    case FinalizeAgain(f) => f
    case ResetSchedule(f) => f
    case SaveSchedule(_, f) => f
    case Prepare(_, f) => f
    case SaveBackoff(f) => f
    case SaveIntent(f) => f
    case Quarantine(f) => f
    case Finalize(f) => f
    case Activate(f) => f
    case ResetAfter(f) => f
    case _ => NoFault
  }

  predicate FaultFree(events: seq<Event>) {
    forall e :: e in events ==> e.Act? && FaultOf(e.action).NoFault?
  }

  predicate IsAnswer(e: Event) {
    e.Act? && (e.action.StartRejection? || e.action.StartActivation?)
  }

  /** How many answers of the control plane the run acts on. */
  function Answers(events: seq<Event>): nat {
    if events == [] then 0 else (if IsAnswer(events[0]) then 1 else 0) + Answers(events[1..])
  }

  lemma {:induction false} AnswersConcat(a: seq<Event>, b: seq<Event>)
    ensures Answers(a + b) == Answers(a) + Answers(b)
    decreases |a|
  {
    if a == [] {
      assert a + b == b;
    } else {
      AnswersConcat(a[1..], b);
      assert (a + b)[1..] == a[1..] + b;
    }
  }

  /** The heartbeat, on thread 0, prepares a request and offers it. */
  function FirstOffer(request: string): seq<Event> {
    [Act(0, StartPass(true)), Act(0, LookAtIntent), Act(0, LoadSchedule), Act(0, Prepare(request, NoFault)),
     Act(0, Reload), Act(0, Offer)]
  }

  /** A task, on thread 1, reads the pending request and finds no intent. */
  const TASK_READS := [Act(1, StartPass(false)), Act(1, LookAtIntent)]

  /** The heartbeat acts on the answer to its offer and rejects the request, completely. */
  function HeartbeatRejects(request: string, code: string): seq<Event> {
    [Act(0, StartRejection(Rejection(request, code))), Act(0, SaveIntent(NoFault)), Act(0, Quarantine(NoFault)),
     Act(0, Finalize(NoFault))]
  }

  /** The task reads the schedule, which now backs off, and goes on to reject the request it still has on its
      list. */
  function TaskWithholds(code: string): seq<Event> {
    [Act(1, LoadSchedule), Act(1, Withhold(code)), Act(1, SaveIntent(NoFault))]
  }

  function Race(request: string, answered: string, withheld: string): seq<Event> {
    TASK_READS + (HeartbeatRejects(request, answered) + TaskWithholds(withheld))
  }

  const OFFERED_THREAD := Thread(Idle, true)

  function Offered(request: string): System {
    System(Disk(Some(request), map[], None), map[0 := OFFERED_THREAD], {request}, true, {request}, [request])
  }

  lemma FirstOfferRuns(request: string)
    ensures RunOf(INITIAL, FirstOffer(request)) && After(INITIAL, FirstOffer(request)) == Offered(request)
  {
    hide RunOf, After;
    var e := FirstOffer(request);
    var s1 := Step(INITIAL, e[0]);
    var s2 := Step(s1, e[1]);
    var s3 := Step(s2, e[2]);
    var s4 := Step(s3, e[3]);
    var s5 := Step(s4, e[4]);
    var s6 := Step(s5, e[5]);
    assert s6 == Offered(request);
    RunEnds(s6, e);
    RunsThrough(s5, e, 5, s6);
    RunsThrough(s4, e, 4, s5);
    RunsThrough(s3, e, 3, s4);
    RunsThrough(s2, e, 2, s3);
    RunsThrough(s1, e, 1, s2);
    RunsThrough(INITIAL, e, 0, s1);
    assert e[0..] == e;
  }

  /** One step of a given run, from its `k`-th event on. */
  lemma RunsThrough(s: System, events: seq<Event>, k: nat, u: System)
    requires k < |events| && Enabled(s, events[k]) && Step(s, events[k]) == u && RunOf(u, events[k + 1..])
    ensures RunOf(s, events[k..]) && After(s, events[k..]) == After(u, events[k + 1..])
  {
    hide Step, Enabled;
    assert events[k..][1..] == events[k + 1..];
  }

  lemma RunEnds(s: System, events: seq<Event>)
    ensures RunOf(s, events[|events|..]) && After(s, events[|events|..]) == s
  {
  }

  function TaskRead(request: string): System {
    Offered(request).(threads := map[0 := OFFERED_THREAD, 1 := Thread(Reconciled(Some(request)), false)])
  }

  function Answered(request: string, code: string): System {
    TaskRead(request).(disk := Disk(None, map[request := code], None), inflight := {}, awaiting := false,
                       threads := map[0 := Thread(Closing(None), true), 1 := Thread(Reconciled(Some(request)), false)])
  }

  lemma TaskReads(request: string)
    ensures RunOf(Offered(request), TASK_READS) && After(Offered(request), TASK_READS) == TaskRead(request)
  {
    hide RunOf, After;
    var e := TASK_READS;
    var s0 := Offered(request);
    var s1 := Step(s0, e[0]);
    var s2 := Step(s1, e[1]);
    assert s2 == TaskRead(request);
    RunEnds(s2, e);
    RunsThrough(s1, e, 1, s2);
    RunsThrough(s0, e, 0, s1);
    assert e[0..] == e;
  }

  lemma HeartbeatRejecting(request: string, code: string)
    ensures RunOf(TaskRead(request), HeartbeatRejects(request, code))
    ensures After(TaskRead(request), HeartbeatRejects(request, code)) == Answered(request, code)
  {
    hide RunOf, After;
    var e := HeartbeatRejects(request, code);
    var s0 := TaskRead(request);
    var s1 := Step(s0, e[0]);
    var s2 := Step(s1, e[1]);
    var s3 := Step(s2, e[2]);
    var s4 := Step(s3, e[3]);
    assert s4 == Answered(request, code);
    RunEnds(s4, e);
    RunsThrough(s3, e, 3, s4);
    RunsThrough(s2, e, 2, s3);
    RunsThrough(s1, e, 1, s2);
    RunsThrough(s0, e, 0, s1);
    assert e[0..] == e;
  }

  lemma TaskWithholding(request: string, answered: string, withheld: string)
    requires answered != withheld
    ensures RunOf(Answered(request, answered), TaskWithholds(withheld))
    ensures Wedged(After(Answered(request, answered), TaskWithholds(withheld)).disk)
  {
    hide RunOf, After;
    var e := TaskWithholds(withheld);
    var s0 := Answered(request, answered);
    var s1 := Step(s0, e[0]);
    var s2 := Step(s1, e[1]);
    var s3 := Step(s2, e[2]);
    assert Wedged(s3.disk);
    RunEnds(s3, e);
    RunsThrough(s2, e, 2, s3);
    RunsThrough(s1, e, 1, s2);
    RunsThrough(s0, e, 0, s1);
    assert e[0..] == e;
  }

  lemma RaceWedges(request: string, answered: string, withheld: string)
    requires answered != withheld
    ensures RunOf(Offered(request), Race(request, answered, withheld))
    ensures Wedged(After(Offered(request), Race(request, answered, withheld)).disk)
  {
    hide RunOf, After, Wedged, HeartbeatRejects, TaskWithholds, Offered, TaskRead, Answered;
    TaskReads(request);
    HeartbeatRejecting(request, answered);
    TaskWithholding(request, answered, withheld);
    RunConcat(TaskRead(request), HeartbeatRejects(request, answered), TaskWithholds(withheld));
    RunConcat(Offered(request), TASK_READS, HeartbeatRejects(request, answered) + TaskWithholds(withheld));
  }

  lemma {:induction false} RunConcat(s: System, a: seq<Event>, b: seq<Event>)
    requires RunOf(s, a) && RunOf(After(s, a), b)
    ensures RunOf(s, a + b) && After(s, a + b) == After(After(s, a), b)
    decreases |a|
  {
    hide Step, Enabled;
    if a == [] {
      assert a + b == b;
    } else {
      RunConcat(Step(s, a[0]), a[1..], b);
      assert (a + b)[1..] == a[1..] + b;
    }
  }

  lemma {:induction false} NoAnswers(events: seq<Event>)
    requires forall e :: e in events ==> !IsAnswer(e)
    ensures Answers(events) == 0
  {
    if events != [] {
      NoAnswers(events[1..]);
    }
  }

  lemma PartsAreFair(request: string, answered: string, withheld: string)
    ensures FaultFree(FirstOffer(request)) && FaultFree(TASK_READS)
    ensures FaultFree(HeartbeatRejects(request, answered)) && FaultFree(TaskWithholds(withheld))
  {
  }

  lemma PartsAnswer(request: string, answered: string, withheld: string)
    ensures Answers(FirstOffer(request)) == 0 && Answers(TASK_READS) == 0
    ensures Answers(HeartbeatRejects(request, answered)) == 1 && Answers(TaskWithholds(withheld)) == 0
  {
    NoAnswers(FirstOffer(request));
    NoAnswers(TASK_READS);
    NoAnswers(HeartbeatRejects(request, answered)[1..]);
    NoAnswers(TaskWithholds(withheld));
  }

  lemma RaceIsFair(request: string, answered: string, withheld: string)
    ensures FaultFree(FirstOffer(request) + Race(request, answered, withheld))
    ensures Answers(FirstOffer(request) + Race(request, answered, withheld)) == 1
  {
    hide Answers, FirstOffer, HeartbeatRejects, TaskWithholds, FaultOf;
    PartsAreFair(request, answered, withheld);
    PartsAnswer(request, answered, withheld);
    AnswersConcat(FirstOffer(request), Race(request, answered, withheld));
    AnswersConcat(TASK_READS, HeartbeatRejects(request, answered) + TaskWithholds(withheld));
    AnswersConcat(HeartbeatRejects(request, answered), TaskWithholds(withheld));
  }

  /** Awaiting answers is not enough: without any fault, with a single answer acted on once, two threads can
      leave an intent that no reconciliation ever completes. */
  lemma TwoThreadsCanWedge(request: string, answered: string, withheld: string)
    requires answered != withheld
    ensures
      var events := FirstOffer(request) + Race(request, answered, withheld);
      && FaultFree(events) && Answers(events) == 1
      && RunOf(INITIAL, events) && Wedged(After(INITIAL, events).disk)
  {
    hide RunOf, After, Wedged, FirstOffer, Race, Offered;
    RaceIsFair(request, answered, withheld);
    FirstOfferRuns(request);
    RaceWedges(request, answered, withheld);
    RunConcat(INITIAL, FirstOffer(request), Race(request, answered, withheld));
  }

  /** Two answers, the first left half done. */
  function TwoAnswers(request: string, a: string, b: string): seq<Event> {
    [Act(0, StartRejection(Rejection(request, a))), Act(0, SaveIntent(NoFault)), Act(0, Quarantine(ReportLost)),
     Act(0, StartRejection(Rejection(request, b))), Act(0, SaveIntent(ReportLost))]
  }

  /** Nor is taking turns, without awaiting: acting on a second answer after the first was left half done
      does the same on a single thread. */
  lemma UnawaitedAnswerWedges(request: string, a: string, b: string)
    requires a != b
    ensures RunOf(Offered(request), TwoAnswers(request, a, b))
    ensures Wedged(After(Offered(request), TwoAnswers(request, a, b)).disk)
  {
    hide RunOf, After;
    var e := TwoAnswers(request, a, b);
    var s0 := Offered(request);
    var s1 := Step(s0, e[0]);
    var s2 := Step(s1, e[1]);
    var s3 := Step(s2, e[2]);
    var s4 := Step(s3, e[3]);
    var s5 := Step(s4, e[4]);
    assert Wedged(s5.disk);
    RunEnds(s5, e);
    RunsThrough(s4, e, 4, s5);
    RunsThrough(s3, e, 3, s4);
    RunsThrough(s2, e, 2, s3);
    RunsThrough(s1, e, 1, s2);
    RunsThrough(s0, e, 0, s1);
    assert e[0..] == e;
  }

  // ---------- the agent's operations are runs ----------

  /** The three writes of a rejection, and whether all of them reported success. */
  function Committed(d: Disk, i: Rejection, f1: Fault, f2: Fault, f3: Fault): (Disk, bool) {
    var d1 := Written(d, Some(i), f1);
    if !f1.NoFault? then (d1, false) else Finished(d1, i, f2, f3)
  }

  /** Completing what an earlier rejection left. */
  function Completed(d: Disk, f1: Fault, f2: Fault): (Disk, bool) {
    if d.intent.None? then (d, true) else Finished(d, d.intent.value, f1, f2)
  }

  ghost predicate Reaches(s: System, t: nat, d: Disk, pc: Pc, events: seq<Event>) {
    && RunOf(s, events) && After(s, events).disk == d && PcOf(After(s, events), t) == pc
    && forall e :: e in events ==> e.Act? && e.thread == t
  }

  lemma ReachNext(s: System, t: nat, act: Action, rest: seq<Event>, d: Disk, pc: Pc)
    requires Enabled(s, Act(t, act)) && Reaches(Step(s, Act(t, act)), t, d, pc, rest)
    ensures Reaches(s, t, d, pc, [Act(t, act)] + rest)
  {
    hide Step, Enabled;
    RunCons(s, Act(t, act), rest);
  }

  lemma ReachHere(s: System, t: nat)
    ensures Reaches(s, t, s.disk, PcOf(s, t), [])
  {
  }

  /** The last two writes. */
  function Finished(d: Disk, i: Rejection, f1: Fault, f2: Fault): (Disk, bool) {
    var d1 := Quarantined(d, i, f1);
    if !f1.NoFault? || !CanReject(d, i) then (d1, false) else (Written(d1, None, f2), f2.NoFault?)
  }

  lemma FinishIsARun(s: System, t: nat, f1: Fault, f2: Fault)
    requires PcOf(s, t).Quarantining?
    ensures
      var (d, ok) := Finished(s.disk, PcOf(s, t).intent, f1, f2);
      var pc := if ok then Closing(None) else Idle;
      exists events :: Reaches(s, t, d, pc, events)
  {
    var i := PcOf(s, t).intent;
    var s1 := Step(s, Act(t, Quarantine(f1)));
    if !f1.NoFault? || !CanReject(s.disk, i) {
      ReachHere(s1, t);
      ReachNext(s, t, Quarantine(f1), [], s1.disk, Idle);
      assert Finished(s.disk, i, f1, f2) == (s1.disk, false);
    } else {
      var s2 := Step(s1, Act(t, Finalize(f2)));
      ReachHere(s2, t);
      ReachNext(s1, t, Finalize(f2), [], s2.disk, PcOf(s2, t));
      ReachNext(s, t, Quarantine(f1), [Act(t, Finalize(f2))] + [], s2.disk, PcOf(s2, t));
      assert Finished(s.disk, i, f1, f2) == (s2.disk, f2.NoFault?);
    }
  }

  /** Committing a rejection undisturbed, from the moment the intent is to be written, is a run. */
  lemma CommitIsARun(s: System, t: nat, f1: Fault, f2: Fault, f3: Fault)
    requires PcOf(s, t).SavingIntent?
    ensures
      var (d, ok) := Committed(s.disk, PcOf(s, t).intent, f1, f2, f3);
      var pc := if ok then Closing(None) else Idle;
      exists events :: Reaches(s, t, d, pc, events)
  {
    hide Finished;
    var i := PcOf(s, t).intent;
    var s1 := Step(s, Act(t, SaveIntent(f1)));
    if !f1.NoFault? {
      ReachHere(s1, t);
      ReachNext(s, t, SaveIntent(f1), [], s1.disk, Idle);
      assert Committed(s.disk, i, f1, f2, f3) == (s1.disk, false);
    } else {
      FinishIsARun(s1, t, f2, f3);
      var (d, ok) := Finished(s1.disk, i, f2, f3);
      var pc := if ok then Closing(None) else Idle;
      var rest :| Reaches(s1, t, d, pc, rest);
      ReachNext(s, t, SaveIntent(f1), rest, d, pc);
      assert Committed(s.disk, i, f1, f2, f3) == (d, ok);
    }
  }

  lemma FinishAgainIsARun(s: System, t: nat, f1: Fault, f2: Fault)
    requires PcOf(s, t).ReQuarantining?
    ensures
      var list := Without(PcOf(s, t).list, PcOf(s, t).intent.request);
      var (d, ok) := Finished(s.disk, PcOf(s, t).intent, f1, f2);
      var pc := if ok then Reconciled(list) else Idle;
      exists events :: Reaches(s, t, d, pc, events)
  {
    var i := PcOf(s, t).intent;
    var s1 := Step(s, Act(t, QuarantineAgain(f1)));
    if !f1.NoFault? || !CanReject(s.disk, i) {
      ReachHere(s1, t);
      ReachNext(s, t, QuarantineAgain(f1), [], s1.disk, Idle);
      assert Finished(s.disk, i, f1, f2) == (s1.disk, false);
    } else {
      var s2 := Step(s1, Act(t, FinalizeAgain(f2)));
      ReachHere(s2, t);
      ReachNext(s1, t, FinalizeAgain(f2), [], s2.disk, PcOf(s2, t));
      ReachNext(s, t, QuarantineAgain(f1), [Act(t, FinalizeAgain(f2))] + [], s2.disk, PcOf(s2, t));
      assert Finished(s.disk, i, f1, f2) == (s2.disk, f2.NoFault?);
    }
  }

  /** And so is reconciling. */
  lemma ReconcileIsARun(s: System, t: nat, f1: Fault, f2: Fault)
    requires PcOf(s, t).Loaded? || PcOf(s, t).Reconciled?
    ensures
      var list := if s.disk.intent.None? then PcOf(s, t).list else Without(PcOf(s, t).list, s.disk.intent.value.request);
      var (d, ok) := Completed(s.disk, f1, f2);
      var pc := if ok then Reconciled(list) else Idle;
      exists events :: Reaches(s, t, d, pc, events)
  {
    hide Finished;
    var s1 := Step(s, Act(t, LookAtIntent));
    if s.disk.intent.None? {
      ReachHere(s1, t);
      ReachNext(s, t, LookAtIntent, [], s1.disk, PcOf(s1, t));
      assert Completed(s.disk, f1, f2) == (s1.disk, true);
    } else {
      FinishAgainIsARun(s1, t, f1, f2);
      var (d, ok) := Finished(s1.disk, s.disk.intent.value, f1, f2);
      var pc := if ok then Reconciled(Without(PcOf(s, t).list, s.disk.intent.value.request)) else Idle;
      var rest :| Reaches(s1, t, d, pc, rest);
      ReachNext(s, t, LookAtIntent, rest, d, pc);
      assert Completed(s.disk, f1, f2) == (d, ok);
    }
  }
}

/** Rejecting the agent's own certificate enrollment, with a crash possible between any two durable writes
    and with several threads at work: the heartbeat and any number of control-plane tasks.

    A rejection is three writes: an intent beside the renewal schedule, the quarantine of the pending
    request, and the schedule again without the intent. It is started by an answer from the control plane
    or by the scheduler itself. Every pass of the scheduler first reconciles an intent it finds, with the
    same last two writes. No lock spans the writes of one thread. */
module PkiRejection {
  import opened Sequences
  import opened PkiStore

  /** What is on disk: the one pending request, the code each quarantined request was rejected with, and
      the intent, which is part of the schedule and is written with it. */
  datatype Disk = Disk(pending: Option<string>, rejected: map<string, string>, intent: Option<Rejection>)

  /** Quarantining is idempotent for the same code; another code, or a request that is not there, fails. */
  predicate CanReject(d: Disk, i: Rejection) {
    if i.request in d.rejected then d.rejected[i.request] == i.code else d.pending == Some(i.request)
  }

  function Reject(d: Disk, i: Rejection): Disk
    requires CanReject(d, i)
  {
    if i.request in d.rejected then d
    else d.(pending := None, rejected := d.rejected[i.request := i.code])
  }

  /** A write of the schedule, and with it of the intent. */
  function Written(d: Disk, intent: Option<Rejection>, fault: Fault): Disk {
    if fault.NotApplied? then d else d.(intent := intent)
  }

  function Quarantined(d: Disk, i: Rejection, fault: Fault): Disk {
    if fault.NotApplied? || !CanReject(d, i) then d else Reject(d, i)
  }

  // ---------- threads ----------

  /** `list` is the agent's request among those read, `loaded` the intent in the schedule read. */
  datatype Pc =
    | Idle
    | Loaded(list: Option<string>)                              // the pending requests are read
    | ReQuarantining(list: Option<string>, intent: Rejection)
    | ReFinalizing(list: Option<string>, intent: Rejection)
    | Reconciled(list: Option<string>)
    | Deciding(list: Option<string>, loaded: Option<Rejection>) // the schedule is read
    | Failing(loaded: Option<Rejection>)                        // preparing an enrollment failed
    | Reloading
    | Closing(list: Option<string>)
    | SavingIntent(intent: Rejection)
    | Quarantining(intent: Rejection)
    | Finalizing(intent: Rejection)
    | Activating(request: string)
    | Resetting(request: string)

  /** A pass is `offering` if it prepares a heartbeat; others follow a reply or serve a task. */
  datatype Thread = Thread(pc: Pc, offering: bool)

  datatype Action =
    | StartPass(offering: bool)
    | LookAtIntent
    | QuarantineAgain(fault: Fault)
    | FinalizeAgain(fault: Fault)
    | ResetSchedule(fault: Fault)                               // a forced rotation starts the schedule afresh
    | LoadSchedule
    | SaveSchedule(anew: bool, fault: Fault)
    | Withhold(code: string)
    | Prepare(request: string, fault: Fault)
    | SaveBackoff(fault: Fault)
    | Reload
    | Close(keep: bool)
    | Offer
    | StartRejection(intent: Rejection)
    | SaveIntent(fault: Fault)
    | Quarantine(fault: Fault)
    | Finalize(fault: Fault)
    | StartActivation(request: string)
    | Activate(fault: Fault)
    | ResetAfter(fault: Fault)
    | Stop                                                      // an error ends the operation

  datatype Event = Act(thread: nat, action: Action) | Crash

  /** `awaiting` holds from an offer until its answer is acted on or the scheduler starts a rejection. */
  datatype System = System(
    disk: Disk, threads: map<nat, Thread>, inflight: set<string>, awaiting: bool, issued: set<string>,
    offered: seq<string>)

  const INITIAL := System(Disk(None, map[], None), map[], {}, false, {}, [])

  function ThreadOf(s: System, t: nat): Thread {
    if t in s.threads then s.threads[t] else Thread(Idle, false)
  }

  function PcOf(s: System, t: nat): Pc {
    ThreadOf(s, t).pc
  }

  /** The phase an action belongs to. */
  predicate Fits(pc: Pc, act: Action) {
    match act
    case StartPass(_) => pc.Idle?
    case LookAtIntent => pc.Loaded? || pc.Reconciled?
    case QuarantineAgain(_) => pc.ReQuarantining?
    case FinalizeAgain(_) => pc.ReFinalizing?
    case ResetSchedule(_) => pc.Reconciled?
    case LoadSchedule => pc.Reconciled? || pc.Deciding?
    case SaveSchedule(_, _) => pc.Deciding?
    case Withhold(_) => pc.Deciding? && pc.list.Some?
    case Prepare(_, _) => pc.Deciding? && pc.list.None?
    case SaveBackoff(_) => pc.Failing?
    case Reload => pc.Reloading?
    case Close(_) => pc.Deciding?
    case Offer => pc.Closing?
    case StartRejection(_) => pc.Idle?
    case SaveIntent(_) => pc.SavingIntent?
    case Quarantine(_) => pc.Quarantining?
    case Finalize(_) => pc.Finalizing?
    case StartActivation(_) => pc.Idle?
    case Activate(_) => pc.Activating?
    case ResetAfter(_) => pc.Resetting?
    case Stop => true
  }

  predicate Enabled(s: System, e: Event) {
    e.Act? ==>
      && Fits(PcOf(s, e.thread), e.action)
      && (e.action.Offer? ==> ThreadOf(s, e.thread).offering)
      && (e.action.StartRejection? ==> e.action.intent.request in s.inflight)
      && (e.action.StartActivation? ==> e.action.request in s.inflight)
      && (e.action.Prepare? ==> e.action.request !in s.issued)
  }

  function DiskAfter(d: Disk, pc: Pc, act: Action): Disk
    requires Fits(pc, act)
  {
    match act
    case QuarantineAgain(fault) => Quarantined(d, pc.intent, fault)
    case Quarantine(fault) => Quarantined(d, pc.intent, fault)
    case FinalizeAgain(fault) => Written(d, None, fault)
    case Finalize(fault) => Written(d, None, fault)
    case ResetSchedule(fault) => Written(d, None, fault)
    case ResetAfter(fault) => Written(d, None, fault)
    case SaveSchedule(anew, fault) => Written(d, if anew then None else pc.loaded, fault)
    case SaveBackoff(fault) => Written(d, pc.loaded, fault)
    case SaveIntent(fault) => Written(d, Some(pc.intent), fault)
    case Prepare(request, fault) =>
      if fault.NotApplied? || d.pending.Some? then d else d.(pending := Some(request))
    case Activate(fault) =>
      if fault.NotApplied? || d.pending != Some(pc.request) then d else d.(pending := None)
    case _ => d
  }

  function Without(list: Option<string>, request: string): Option<string> {
    if list == Some(request) then None else list
  }

  /** Where a thread goes on: a call that reports failure ends the operation. */
  function Unless(fault: Fault, next: Pc): Pc {
    if fault.NoFault? then next else Idle
  }

  function PcAfter(d: Disk, pc: Pc, act: Action): Pc
    requires Fits(pc, act)
  {
    match act
    case StartPass(_) => Loaded(d.pending)
    case LookAtIntent => if d.intent.None? then Reconciled(pc.list) else ReQuarantining(pc.list, d.intent.value)
    case QuarantineAgain(fault) => if CanReject(d, pc.intent) then Unless(fault, ReFinalizing(pc.list, pc.intent)) else Idle
    case FinalizeAgain(fault) => Unless(fault, Reconciled(Without(pc.list, pc.intent.request)))
    case ResetSchedule(fault) => Unless(fault, pc)
    case LoadSchedule => Deciding(pc.list, d.intent)
    case SaveSchedule(anew, fault) => Unless(fault, Deciding(pc.list, if anew then None else pc.loaded))
    case Withhold(code) => SavingIntent(Rejection(pc.list.value, code))
    case Prepare(_, fault) => if fault.NoFault? then Reloading else Failing(pc.loaded)
    case SaveBackoff(_) => Idle
    case Reload => Closing(d.pending)
    case Close(keep) => Closing(if keep then pc.list else None)
    case Offer => Idle
    case StartRejection(intent) => SavingIntent(intent)
    case SaveIntent(fault) => Unless(fault, Quarantining(pc.intent))
    case Quarantine(fault) => if CanReject(d, pc.intent) then Unless(fault, Finalizing(pc.intent)) else Idle
    case Finalize(fault) => Unless(fault, Closing(None))
    case StartActivation(request) => Activating(request)
    case Activate(fault) => if d.pending == Some(pc.request) then Unless(fault, Resetting(pc.request)) else Idle
    case ResetAfter(_) => Idle
    case Stop => Idle
  }

  /** A request leaves `inflight` when it is quarantined, reconciled or its certificate is in use. */
  function InflightAfter(s: System, pc: Pc, act: Action): set<string>
    requires Fits(pc, act)
  {
    match act
    case Quarantine(fault) => if PcAfter(s.disk, pc, act).Finalizing? then s.inflight - {pc.intent.request} else s.inflight
    case FinalizeAgain(fault) => if fault.NoFault? then s.inflight - {pc.intent.request} else s.inflight
    case ResetAfter(fault) => if fault.NoFault? then s.inflight - {pc.request} else s.inflight
    case Offer => Listed(pc.list)
    case _ => s.inflight
  }

  function Listed(list: Option<string>): set<string> {
    match list
    case None => {}
    case Some(request) => {request}
  }

  function AwaitingAfter(s: System, act: Action): bool {
    act.Offer? || (s.awaiting && !act.StartRejection? && !act.StartActivation? && !act.Withhold?)
  }

  function Step(s: System, e: Event): System
    requires Enabled(s, e)
  {
    match e
    case Crash => s.(threads := map[], inflight := {}, awaiting := false)
    case Act(t, act) =>
      var pc := PcOf(s, t);
      var offering := if act.StartPass? then act.offering else ThreadOf(s, t).offering;
      System(DiskAfter(s.disk, pc, act),
             s.threads[t := Thread(PcAfter(s.disk, pc, act), offering)],
             InflightAfter(s, pc, act),
             AwaitingAfter(s, act),
             if act.Prepare? then s.issued + {act.request} else s.issued,
             if act.Offer? && pc.list.Some? then s.offered + [pc.list.value] else s.offered)
  }

  predicate RunOf(s: System, events: seq<Event>)
    decreases |events|
  {
    events == [] || (Enabled(s, events[0]) && RunOf(Step(s, events[0]), events[1..]))
  }

  function After(s: System, events: seq<Event>): System
    requires RunOf(s, events)
    decreases |events|
  {
    if events == [] then s else After(Step(s, events[0]), events[1..])
  }

  lemma RunConsIff(s: System, e: Event, rest: seq<Event>)
    ensures RunOf(s, [e] + rest) <==> Enabled(s, e) && RunOf(Step(s, e), rest)
  {
    hide Step, Enabled;
    assert ([e] + rest)[1..] == rest;
  }

  lemma RunCons(s: System, e: Event, rest: seq<Event>)
    requires Enabled(s, e) && RunOf(Step(s, e), rest)
    ensures RunOf(s, [e] + rest) && After(s, [e] + rest) == After(Step(s, e), rest)
  {
    hide Step, Enabled;
    assert ([e] + rest)[1..] == rest;
  }

  // ---------- what every step keeps ----------

  predicate IntentIssued(i: Option<Rejection>, issued: set<string>) {
    i.Some? ==> i.value.request in issued
  }

  predicate ListIssued(list: Option<string>, issued: set<string>) {
    list.Some? ==> list.value in issued
  }

  predicate PcIssued(pc: Pc, issued: set<string>) {
    match pc
    case Loaded(list) => ListIssued(list, issued)
    case ReQuarantining(list, i) => ListIssued(list, issued) && i.request in issued
    case ReFinalizing(list, i) => ListIssued(list, issued) && i.request in issued
    case Reconciled(list) => ListIssued(list, issued)
    case Deciding(list, loaded) => ListIssued(list, issued) && IntentIssued(loaded, issued)
    case Failing(loaded) => IntentIssued(loaded, issued)
    case Closing(list) => ListIssued(list, issued)
    case SavingIntent(i) => i.request in issued
    case Quarantining(i) => i.request in issued
    case Finalizing(i) => i.request in issued
    case _ => true
  }

  predicate DiskIssued(d: Disk, issued: set<string>) {
    && (d.pending.Some? ==> d.pending.value in issued && d.pending.value !in d.rejected)
    && (forall r :: r in d.rejected ==> r in issued)
    && IntentIssued(d.intent, issued)
  }

  /** Every request mentioned anywhere was once prepared, and none is pending and quarantined at once. */
  predicate Issued(s: System) {
    && DiskIssued(s.disk, s.issued) && s.inflight <= s.issued
    && forall t :: t in s.threads ==> PcIssued(s.threads[t].pc, s.issued)
  }

  lemma ActionKeepsDiskIssued(d: Disk, pc: Pc, act: Action, issued: set<string>)
    requires Fits(pc, act) && DiskIssued(d, issued) && PcIssued(pc, issued) && (act.Prepare? ==> act.request !in issued)
    ensures DiskIssued(DiskAfter(d, pc, act), if act.Prepare? then issued + {act.request} else issued)
  {
  }

  lemma ActionKeepsPcIssued(d: Disk, pc: Pc, act: Action, issued: set<string>)
    requires Fits(pc, act) && DiskIssued(d, issued) && PcIssued(pc, issued)
    requires act.StartRejection? ==> act.intent.request in issued
    ensures PcIssued(PcAfter(d, pc, act), issued)
  {
  }

  lemma PcStaysIssued(pc: Pc, a: set<string>, b: set<string>)
    requires PcIssued(pc, a) && a <= b
    ensures PcIssued(pc, b)
  {
  }

  lemma StepKeepsIssued(s: System, e: Event)
    requires Issued(s) && Enabled(s, e)
    ensures Issued(Step(s, e)) && s.issued <= Step(s, e).issued
  {
    hide DiskIssued, PcIssued, DiskAfter, PcAfter, Fits, InflightAfter, AwaitingAfter;
    if e.Act? {
      var pc := PcOf(s, e.thread);
      var issued := Step(s, e).issued;
      assert PcIssued(pc, s.issued) by { IdleIssued(s.issued); }
      ActionKeepsDiskIssued(s.disk, pc, e.action, s.issued);
      ActionKeepsPcIssued(s.disk, pc, e.action, s.issued);
      InflightStaysIssued(s, pc, e.action);
      forall t | t in Step(s, e).threads ensures PcIssued(Step(s, e).threads[t].pc, issued) {
        PcStaysIssued(Step(s, e).threads[t].pc, s.issued, issued);
      }
    }
  }

  lemma IdleIssued(issued: set<string>)
    ensures PcIssued(Idle, issued)
  {
  }

  lemma InflightStaysIssued(s: System, pc: Pc, act: Action)
    requires Fits(pc, act) && s.inflight <= s.issued && PcIssued(pc, s.issued)
    ensures InflightAfter(s, pc, act) <= s.issued
  {
  }

  lemma {:induction false} RunKeepsIssued(s: System, events: seq<Event>)
    requires Issued(s) && RunOf(s, events)
    ensures Issued(After(s, events)) && s.issued <= After(s, events).issued
    decreases |events|
  {
    hide Issued, Step, Enabled;
    if events != [] {
      StepKeepsIssued(s, events[0]);
      RunKeepsIssued(Step(s, events[0]), events[1..]);
    }
  }

  // ---------- when reconciliation is stuck ----------

  /** An intent on disk that reconciling can never complete. */
  predicate Wedged(d: Disk) {
    d.intent.Some? && !CanReject(d, d.intent.value)
  }

  predicate Names(i: Option<Rejection>, request: string) {
    i.Some? && i.value.request == request
  }

  /** Writes an intent the quarantine will refuse: its request is neither pending nor quarantined under that
      code. */
  predicate SavesHopeless(d: Disk, i: Option<Rejection>, fault: Fault) {
    !fault.NotApplied? && i.Some? && !CanReject(d, i.value)
  }

  /** Quarantines a pending request under one code while the intent on disk names it with another. */
  predicate Overtakes(d: Disk, i: Rejection, fault: Fault) {
    && !fault.NotApplied? && d.pending == Some(i.request) && i.request !in d.rejected
    && Names(d.intent, i.request) && d.intent.value.code != i.code
  }

  /** The action goes against what the disk says at that moment. */
  predicate Contradicts(d: Disk, pc: Pc, act: Action)
    requires Fits(pc, act)
  {
    match act
    case SaveIntent(fault) => SavesHopeless(d, Some(pc.intent), fault)
    case SaveSchedule(anew, fault) => !anew && SavesHopeless(d, pc.loaded, fault)
    case SaveBackoff(fault) => SavesHopeless(d, pc.loaded, fault)
    case Quarantine(fault) => Overtakes(d, pc.intent, fault)
    case QuarantineAgain(fault) => Overtakes(d, pc.intent, fault)
    case Activate(fault) => !fault.NotApplied? && d.pending == Some(pc.request) && Names(d.intent, pc.request)
    case _ => false
  }

  predicate StepContradicts(s: System, e: Event)
    requires Enabled(s, e)
  {
    e.Act? && Contradicts(s.disk, PcOf(s, e.thread), e.action)
  }

  /** No step of the run contradicts the disk. */
  predicate Agrees(s: System, events: seq<Event>)
    requires RunOf(s, events)
    decreases |events|
  {
    events == [] || (!StepContradicts(s, events[0]) && Agrees(Step(s, events[0]), events[1..]))
  }

  predicate NeverWedges(s: System, events: seq<Event>)
    requires RunOf(s, events)
    decreases |events|
  {
    !Wedged(s.disk) && (events == [] || NeverWedges(Step(s, events[0]), events[1..]))
  }

  /** A written intent wedges the disk exactly when its request is neither pending nor already quarantined
      under the same code. */
  lemma SavedIntentWedgesIff(s: System, t: nat, fault: Fault)
    requires PcOf(s, t).SavingIntent? && !fault.NotApplied?
    ensures
      var i := PcOf(s, t).intent;
      Wedged(Step(s, Act(t, SaveIntent(fault))).disk) <==>
        if i.request in s.disk.rejected then s.disk.rejected[i.request] != i.code else s.disk.pending != Some(i.request)
  {
  }

  /** A step wedges an unwedged disk exactly when it contradicts what the disk says. */
  lemma StepWedgesIff(s: System, e: Event)
    requires Issued(s) && Enabled(s, e) && !Wedged(s.disk)
    ensures Wedged(Step(s, e).disk) <==> StepContradicts(s, e)
  {
    hide InflightAfter, AwaitingAfter, PcAfter, PcIssued;
  }

  /** A run keeps reconciliation possible throughout exactly when none of its steps contradicts the disk. */
  lemma {:induction false} NeverWedgesIff(s: System, events: seq<Event>)
    requires Issued(s) && RunOf(s, events) && !Wedged(s.disk)
    ensures NeverWedges(s, events) <==> Agrees(s, events)
    decreases |events|
  {
    hide Issued, Step, Enabled, Wedged, StepContradicts;
    if events != [] {
      StepWedgesIff(s, events[0]);
      StepKeepsIssued(s, events[0]);
      if !StepContradicts(s, events[0]) {
        NeverWedgesIff(Step(s, events[0]), events[1..]);
      }
    }
  }

  lemma {:induction false} UnwedgedAtTheEnd(s: System, events: seq<Event>)
    requires RunOf(s, events) && NeverWedges(s, events)
    ensures !Wedged(After(s, events).disk)
    decreases |events|
  {
    hide Step, Enabled, Wedged;
    if events != [] {
      UnwedgedAtTheEnd(Step(s, events[0]), events[1..]);
    }
  }
}

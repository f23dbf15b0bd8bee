/** What the rejection of enrollments promises after a crash, what it promises while several threads are at
    work, and what it takes to break each promise. */
module PkiRejectionGuarantees {
  import opened Sequences
  import opened PkiStore
  import opened PkiRejection

  // ---------- crash safety ----------

  /** One pass's reconciliation on thread `t`, with no fault. */
  function Reconciling(t: nat, d: Disk): seq<Event> {
    [Act(t, StartPass(true))] + ([Act(t, LookAtIntent)] +
      (if d.intent.None? then [] else [Act(t, QuarantineAgain(NoFault))] + [Act(t, FinalizeAgain(NoFault))]))
  }

  function ReconciledDisk(d: Disk): Disk
    requires !Wedged(d)
  {
    if d.intent.None? then d else Reject(d, d.intent.value).(intent := None)
  }

  function ReconciledList(d: Disk): Option<string> {
    if d.intent.None? then d.pending else Without(d.pending, d.intent.value.request)
  }

  /** An idle thread's reconciliation goes through exactly when the disk is not wedged. */
  lemma ReconcilingRuns(s: System, t: nat)
    requires PcOf(s, t).Idle?
    ensures RunOf(s, Reconciling(t, s.disk)) <==> !Wedged(s.disk)
    ensures !Wedged(s.disk) ==>
              var u := After(s, Reconciling(t, s.disk));
              u.disk == ReconciledDisk(s.disk) && u.offered == s.offered && PcOf(u, t) == Reconciled(ReconciledList(s.disk))
  {
    var start, look := Act(t, StartPass(true)), Act(t, LookAtIntent);
    var s1 := Step(s, start);
    var s2 := Step(s1, look);
    if s.disk.intent.None? {
      RunCons(s1, look, []);
      RunCons(s, start, [look] + []);
    } else {
      var again, finish := Act(t, QuarantineAgain(NoFault)), Act(t, FinalizeAgain(NoFault));
      var rest := [again] + [finish];
      var s3 := Step(s2, again);
      if !Wedged(s.disk) {
        RunCons(s3, finish, []);
        assert [finish] + [] == [finish];
        RunCons(s2, again, [finish]);
        RunCons(s1, look, rest);
        RunCons(s, start, [look] + rest);
      } else {
        RunConsIff(s, start, [look] + rest);
        RunConsIff(s1, look, rest);
        RunConsIff(s2, again, [finish]);
        assert !Enabled(s3, finish);
      }
    }
  }

  /** Wherever a run is cut short, with whatever threads at work, the next pass can reconcile exactly when the
      disk is not wedged, and it never is if no step contradicted the disk. Reconciling clears the intent,
      leaves its request quarantined and not pending, and takes it off the list to be offered. */
  lemma ReconcileAfterAnyCrash(events: seq<Event>, t: nat)
    requires RunOf(INITIAL, events)
    ensures
      var s := Step(After(INITIAL, events), Crash);
      && (RunOf(s, Reconciling(t, s.disk)) <==> !Wedged(s.disk))
      && (Agrees(INITIAL, events) ==> !Wedged(s.disk))
      && (!Wedged(s.disk) ==>
           var u := After(s, Reconciling(t, s.disk));
           && u.disk.intent.None? && PcOf(u, t) == Reconciled(u.disk.pending)
           && (s.disk.intent.Some? ==>
                && u.disk.pending != Some(s.disk.intent.value.request)
                && s.disk.intent.value.request in u.disk.rejected
                && u.disk.rejected[s.disk.intent.value.request] == s.disk.intent.value.code))
  {
    hide Reconciling;
    RunKeepsIssued(INITIAL, events);
    NeverWedgesIff(INITIAL, events);
    if Agrees(INITIAL, events) {
      UnwedgedAtTheEnd(INITIAL, events);
    }
    ReconcilingRuns(Step(After(INITIAL, events), Crash), t);
  }

  /** Reconciling again, even after a second crash, finds nothing left to do. */
  lemma ReconcileTwice(s: System, t: nat)
    requires PcOf(s, t).Idle? && !Wedged(s.disk)
    ensures
      && RunOf(s, Reconciling(t, s.disk))
      && var once := Step(After(s, Reconciling(t, s.disk)), Crash);
         && RunOf(once, Reconciling(t, once.disk))
         && After(once, Reconciling(t, once.disk)).disk == once.disk
         && (Issued(s) ==> PcOf(After(once, Reconciling(t, once.disk)), t) == PcOf(After(s, Reconciling(t, s.disk)), t))
  {
    hide Reconciling;
    ReconcilingRuns(s, t);
    ReconcilingRuns(Step(After(s, Reconciling(t, s.disk)), Crash), t);
  }

  /** All that threads can be doing on a wedged disk after a crash. */
  ghost predicate Stuck(s: System) {
    && Wedged(s.disk) && s.inflight == {}
    && forall t :: t in s.threads ==>
         var pc := s.threads[t].pc;
         pc.Idle? || pc.Loaded? || (pc.ReQuarantining? && s.disk.intent == Some(pc.intent))
  }

  lemma StepStaysStuck(s: System, e: Event)
    requires Stuck(s) && Enabled(s, e)
    ensures Stuck(Step(s, e)) && Step(s, e).disk == s.disk && Step(s, e).offered == s.offered
  {
  }

  /** After a crash on a wedged disk nothing is ever written or offered again, whatever the threads do and
      whatever their writes report. */
  lemma {:induction false} WedgedForGood(s: System, events: seq<Event>)
    requires Stuck(s) && RunOf(s, events)
    ensures After(s, events).disk == s.disk && After(s, events).offered == s.offered
    decreases |events|
  {
    hide Stuck, Step, Enabled;
    if events != [] {
      StepStaysStuck(s, events[0]);
      WedgedForGood(Step(s, events[0]), events[1..]);
    }
  }

  lemma CrashOnWedgedIsStuck(s: System)
    requires Wedged(s.disk)
    ensures Stuck(Step(s, Crash))
  {
  }

  // ---------- clean offers ----------

  /** The request is pending, so not quarantined, and no intent names it. */
  predicate Clean(d: Disk, request: string) {
    d.pending == Some(request) && !Names(d.intent, request)
  }

  /** The action quarantines the pending request, puts its certificate in use, or writes an intent that
      names it. */
  predicate Touches(d: Disk, pc: Pc, act: Action, request: string)
    requires Fits(pc, act)
  {
    match act
    case SaveIntent(fault) => !fault.NotApplied? && pc.intent.request == request
    case SaveSchedule(anew, fault) => !anew && !fault.NotApplied? && Names(pc.loaded, request)
    case SaveBackoff(fault) => !fault.NotApplied? && Names(pc.loaded, request)
    case Quarantine(fault) => !fault.NotApplied? && pc.intent.request == request && CanReject(d, pc.intent)
    case QuarantineAgain(fault) => !fault.NotApplied? && pc.intent.request == request && CanReject(d, pc.intent)
    case Activate(fault) => !fault.NotApplied? && pc.request == request
    case _ => false
  }

  predicate StepTouches(s: System, e: Event, request: string)
    requires Enabled(s, e)
  {
    e.Act? && Touches(s.disk, PcOf(s, e.thread), e.action, request)
  }

  predicate Untouched(s: System, events: seq<Event>, request: string)
    requires RunOf(s, events)
    decreases |events|
  {
    events == [] || (!StepTouches(s, events[0], request) && Untouched(Step(s, events[0]), events[1..], request))
  }

  predicate StaysClean(s: System, events: seq<Event>, request: string)
    requires RunOf(s, events)
    decreases |events|
  {
    Clean(s.disk, request) && (events == [] || StaysClean(Step(s, events[0]), events[1..], request))
  }

  lemma StepStaysCleanIff(s: System, e: Event, request: string)
    requires Issued(s) && Enabled(s, e) && Clean(s.disk, request)
    ensures Clean(Step(s, e).disk, request) <==> !StepTouches(s, e, request)
  {
    hide PcAfter, InflightAfter, AwaitingAfter, PcIssued;
  }

  /** From the moment a thread reads a clean request to the moment it offers it, the request stays clean
      exactly when no thread touches it: so what is offered is pending, not quarantined and free of any
      rejection intent, unless somebody has meanwhile begun to reject it or put its certificate in use. */
  lemma {:induction false} OffersAreCleanIff(s: System, events: seq<Event>, request: string)
    requires Issued(s) && Clean(s.disk, request) && RunOf(s, events)
    ensures StaysClean(s, events, request) <==> Untouched(s, events, request)
    ensures Untouched(s, events, request) ==> Clean(After(s, events).disk, request)
    decreases |events|
  {
    hide Issued, Step, Enabled, Clean, StepTouches;
    if events != [] {
      StepStaysCleanIff(s, events[0], request);
      StepKeepsIssued(s, events[0]);
      if !StepTouches(s, events[0], request) {
        OffersAreCleanIff(Step(s, events[0]), events[1..], request);
      }
    }
  }

  // ---------- offering what was rejected ----------

  /** The thread is preparing a heartbeat and still has the request on its list. */
  predicate CouldOffer(s: System, t: nat, request: string) {
    && ThreadOf(s, t).offering
    && match PcOf(s, t)
       case Loaded(list) => list == Some(request)
       case ReQuarantining(list, i) => list == Some(request) && i.request != request && CanReject(s.disk, i)
       case ReFinalizing(list, i) => list == Some(request) && i.request != request
       case Reconciled(list) => list == Some(request)
       case Deciding(list, _) => list == Some(request)
       case Closing(list) => list == Some(request)
       case _ => false
  }

  ghost predicate SomeoneCouldOffer(s: System, request: string) {
    exists t :: CouldOffer(s, t, request)
  }

  ghost predicate OffersAgain(s: System, events: seq<Event>, request: string) {
    && RunOf(s, events)
    && exists k :: |s.offered| <= k < |After(s, events).offered| && After(s, events).offered[k] == request
  }

  /** What cannot be quarantined never can be again: a request once prepared is not prepared a second time. */
  lemma HopelessStaysHopeless(s: System, e: Event, i: Rejection)
    requires Issued(s) && Enabled(s, e) && i.request in s.issued && !CanReject(s.disk, i)
    ensures !CanReject(Step(s, e).disk, i)
  {
    hide PcAfter, InflightAfter, AwaitingAfter, PcIssued;
  }

  lemma StepWithoutHolder(s: System, e: Event, request: string)
    requires Issued(s) && Enabled(s, e) && request in s.disk.rejected && !SomeoneCouldOffer(s, request)
    ensures request in Step(s, e).disk.rejected && !SomeoneCouldOffer(Step(s, e), request)
    ensures s.offered <= Step(s, e).offered
    ensures forall k :: |s.offered| <= k < |Step(s, e).offered| ==> Step(s, e).offered[k] != request
  {
    var u := Step(s, e);
    forall t ensures !CouldOffer(u, t, request) {
      HolderWasHolder(s, e, t, request);
    }
    if e.Act? && e.action.Offer? {
      assert !CouldOffer(s, e.thread, request);
    }
  }

  lemma HolderWasHolder(s: System, e: Event, t: nat, request: string)
    requires Issued(s) && Enabled(s, e) && request in s.disk.rejected
    ensures CouldOffer(Step(s, e), t, request) ==> CouldOffer(s, t, request)
  {
    hide InflightAfter, AwaitingAfter;
    var pc := PcOf(s, t);
    if pc.ReQuarantining? && !CanReject(s.disk, pc.intent) {
      assert pc.intent.request in s.issued;
      HopelessStaysHopeless(s, e, pc.intent);
    }
  }

  lemma {:induction false} NoOfferWithoutHolder(s: System, events: seq<Event>, request: string)
    requires Issued(s) && RunOf(s, events) && request in s.disk.rejected && !SomeoneCouldOffer(s, request)
    ensures s.offered <= After(s, events).offered
    ensures forall k :: |s.offered| <= k < |After(s, events).offered| ==> After(s, events).offered[k] != request
    decreases |events|
  {
    hide Issued, Step, Enabled, CouldOffer, SomeoneCouldOffer;
    if events != [] {
      StepWithoutHolder(s, events[0], request);
      StepKeepsIssued(s, events[0]);
      NoOfferWithoutHolder(Step(s, events[0]), events[1..], request);
    }
  }

  /** The rest of the way to the offer, once the list is reconciled. */
  function Offering(t: nat, pc: Pc): seq<Event> {
    match pc
    case Reconciled(_) => [Act(t, LoadSchedule)] + ([Act(t, Close(true))] + [Act(t, Offer)])
    case Deciding(_, _) => [Act(t, Close(true))] + [Act(t, Offer)]
    case _ => [Act(t, Offer)]
  }

  lemma HolderOffers(s: System, t: nat, request: string)
    requires CouldOffer(s, t, request) && (PcOf(s, t).Reconciled? || PcOf(s, t).Deciding? || PcOf(s, t).Closing?)
    ensures OffersAgain(s, Offering(t, PcOf(s, t)), request)
    decreases if PcOf(s, t).Reconciled? then 2 else if PcOf(s, t).Deciding? then 1 else 0
  {
    var e := Offering(t, PcOf(s, t))[0];
    var u := Step(s, e);
    if PcOf(s, t).Closing? {
      RunCons(s, e, []);
      assert [e] + [] == [e];
      assert u.offered[|s.offered|] == request;
    } else {
      HolderOffers(u, t, request);
      RunCons(s, e, Offering(t, PcOf(u, t)));
      assert Offering(t, PcOf(s, t)) == [e] + Offering(t, PcOf(u, t));
    }
  }

  lemma OfferAfter(s: System, e: Event, rest: seq<Event>, request: string)
    requires Enabled(s, e) && Step(s, e).offered == s.offered && OffersAgain(Step(s, e), rest, request)
    ensures OffersAgain(s, [e] + rest, request)
  {
    hide Step, Enabled;
    RunCons(s, e, rest);
  }

  lemma FinalizerOffers(s: System, t: nat, request: string)
    requires CouldOffer(s, t, request) && PcOf(s, t).ReFinalizing?
    ensures exists events :: OffersAgain(s, events, request)
  {
    var e := Act(t, FinalizeAgain(NoFault));
    var u := Step(s, e);
    HolderOffers(u, t, request);
    OfferAfter(s, e, Offering(t, PcOf(u, t)), request);
  }

  lemma QuarantinerOffers(s: System, t: nat, request: string)
    requires CouldOffer(s, t, request) && PcOf(s, t).ReQuarantining?
    ensures exists events :: OffersAgain(s, events, request)
  {
    var e := Act(t, QuarantineAgain(NoFault));
    var u := Step(s, e);
    FinalizerOffers(u, t, request);
    var rest :| OffersAgain(u, rest, request);
    OfferAfter(s, e, rest, request);
  }

  /** A thread that finds no intent in its way goes on to offer. */
  lemma ReaderOffers(s: System, t: nat, request: string)
    requires CouldOffer(s, t, request) && PcOf(s, t).Loaded? && s.disk.intent.None?
    ensures exists events :: OffersAgain(s, events, request)
  {
    var e := Act(t, LookAtIntent);
    var u := Step(s, e);
    HolderOffers(u, t, request);
    OfferAfter(s, e, Offering(t, PcOf(u, t)), request);
  }

  /** If there is one, another thread can clear it first. */
  lemma ReaderOffersAfterAnother(s: System, t: nat, request: string)
    requires CouldOffer(s, t, request) && PcOf(s, t).Loaded? && s.disk.intent.Some? && !Wedged(s.disk)
    ensures exists events :: OffersAgain(s, events, request)
  {
    var other := t + 1;
    var stop, start, look := Act(other, Stop), Act(other, StartPass(false)), Act(other, LookAtIntent);
    var again, finish := Act(other, QuarantineAgain(NoFault)), Act(other, FinalizeAgain(NoFault));
    var s1 := Step(s, stop);
    var s2 := Step(s1, start);
    var s3 := Step(s2, look);
    var s4 := Step(s3, again);
    var s5 := Step(s4, finish);
    ReaderOffers(s5, t, request);
    var e5 :| OffersAgain(s5, e5, request);
    OfferAfter(s4, finish, e5, request);
    OfferAfter(s3, again, [finish] + e5, request);
    OfferAfter(s2, look, [again] + ([finish] + e5), request);
    OfferAfter(s1, start, [look] + ([again] + ([finish] + e5)), request);
    OfferAfter(s, stop, [start] + ([look] + ([again] + ([finish] + e5))), request);
  }

  /** A quarantined request can be offered again exactly when some thread preparing a heartbeat still has it
      on its list; if no thread has, no continuation of the run ever offers it. (On a wedged disk a list may
      also be stuck before it is offered.) */
  lemma RejectedIsOfferedAgainIff(s: System, request: string)
    requires Issued(s) && request in s.disk.rejected
    ensures (exists events :: OffersAgain(s, events, request)) ==> SomeoneCouldOffer(s, request)
    ensures !Wedged(s.disk) && SomeoneCouldOffer(s, request) ==> exists events :: OffersAgain(s, events, request)
  {
    hide Issued;
    if events :| OffersAgain(s, events, request) {
      if !SomeoneCouldOffer(s, request) {
        NoOfferWithoutHolder(s, events, request);
        assert false;
      }
    }
    if !Wedged(s.disk) && SomeoneCouldOffer(s, request) {
      var t :| CouldOffer(s, t, request);
      match PcOf(s, t) {
        case Loaded(_) =>
          if s.disk.intent.None? {
            ReaderOffers(s, t, request);
          } else {
            ReaderOffersAfterAnother(s, t, request);
          }
        case ReQuarantining(_, _) => QuarantinerOffers(s, t, request);
        case ReFinalizing(_, _) => FinalizerOffers(s, t, request);
        case _ => HolderOffers(s, t, request);
      }
    }
  }
}

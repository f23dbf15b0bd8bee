/** What holds of every run of the generation manager. */
module GenerationGuarantees {
  import opened Sequences
  import opened Generations
  import opened GenerationRuns

  // ---------- candidates ----------

  ghost predicate CarriedOnce(views: seq<View>, serial: nat) {
    exists i :: 0 <= i < |views| && views[i].serial == serial && Only(views, serial, i)
  }

  ghost predicate Only(views: seq<View>, serial: nat, i: nat) {
    forall j :: 0 <= j < |views| && views[j].serial == serial ==> j == i
  }

  lemma RisingCarriesOnce(views: seq<View>, serial: nat)
    requires Rising(views) && Carries(views, serial)
    ensures CarriedOnce(views, serial)
  {
    var i :| 0 <= i < |views| && views[i].serial == serial;
    assert Only(views, serial, i);
  }

  /** Between applies, every candidate ever prepared has been published exactly once or destroyed exactly
      once, and never both. */
  lemma EveryCandidateEndsOnce(managed: bool, events: seq<Event>, k: nat)
    requires RunOf(Initial(managed), events)
    requires After(Initial(managed), events).pc.Idle? && k < After(Initial(managed), events).serials
    ensures
      var t := After(Initial(managed), events);
      (CarriedOnce(t.published, k) && !Carries(t.discarded, k)) || (CarriedOnce(t.discarded, k) && !Carries(t.published, k))
  {
    hide SourceOk, DrainOk, ValidatedOk, RevisionsRise, WindowOk, SessionsOk, OwnersOk, OwnedOk, Enabled, Step;
    InitialInv(managed);
    RunKeepsInv(Initial(managed), events);
    var t := After(Initial(managed), events);
    if Carries(t.published, k) {
      RisingCarriesOnce(t.published, k);
    } else {
      RisingCarriesOnce(t.discarded, k);
    }
  }

  predicate BeforePublication(e: Event) {
    e.Start? || e.MakeReady? || e.Validate? || e.PreparePublication?
  }

  /** However many applies fail before publication, and wherever, the active generation, the retired ones
      and the drain are untouched. */
  lemma {:induction false} FailedAppliesChangeNothing(s: System, events: seq<Event>)
    requires RunOf(s, events) && forall i :: 0 <= i < |events| ==> BeforePublication(events[i])
    ensures
      var t := After(s, events);
      && t.source == s.source && t.retired == s.retired && t.drain == s.drain && t.published == s.published
      && t.owned == s.owned && t.unowned == s.unowned && t.sessions == s.sessions
    decreases |events|
  {
    hide Validates;
    if events != [] {
      assert BeforePublication(events[0]);
      FailedAppliesChangeNothing(Step(s, events[0]), events[1..]);
    }
  }

  // ---------- ownership ----------

  /** Once a candidate is published, taking ownership succeeds exactly when nobody retired its
      predecessor since it was validated and the drain is open. */
  lemma OwnershipTakenIff(s: System)
    requires Inv(s) && s.managed && s.pc.Swapped?
    ensures Owns(s.drain, s.pc.next.id, s.pc.previous) <==> s.drain.active == IdOf(s.pc.previous) && !s.drain.closed
  {
    hide LedgerOk, SessionsOk, OwnersOk, OwnedOk, RevisionsRise;
  }

  predicate Undisturbed(s: System) {
    && s.managed && !s.drain.closed
    && match s.pc
       case Checked(_) => s.drain.active == IdOf(s.source)
       case Open(_) => s.drain.active == IdOf(s.source)
       case Swapped(_, previous) => s.drain.active == IdOf(previous)
       case _ => false
  }

  /** Passing the validation is enough: unless the predecessor is retired in between, the drain takes
      ownership of what is published, whatever else happens meanwhile. */
  lemma {:induction false} ValidatedMeansOwned(s: System, events: seq<Event>)
    requires Inv(s) && Undisturbed(s) && RunOf(s, events)
    requires forall i :: 0 <= i < |events| ==> !events[i].Retire? && !events[i].TakeOwnership?
    requires After(s, events).pc.Swapped? && After(s, events).serials == s.serials
    ensures Owns(After(s, events).drain, After(s, events).pc.next.id, After(s, events).pc.previous)
    decreases |events|
  {
    hide LedgerOk, SourceOk, DrainOk, ValidatedOk, RevisionsRise, WindowOk, SessionsOk, OwnersOk, OwnedOk, Owns, Validates, Answer;
    if events == [] {
      OwnershipTakenIff(s);
    } else {
      var t := Step(s, events[0]);
      StepKeepsInv(s, events[0]);
      assert !events[0].Retire? && !events[0].TakeOwnership?;
      if t.pc.Idle? {
        IdleNeedsAStart(t, events[1..]);
        assert false;
      }
      ValidatedMeansOwned(t, events[1..]);
    }
  }

  /** From rest, nothing is published without preparing it first. */
  lemma {:induction false} IdleNeedsAStart(s: System, events: seq<Event>)
    requires RunOf(s, events) && !Undisturbed(s) && (s.pc.Idle? || s.pc.Settled?)
    requires forall i :: 0 <= i < |events| ==> !events[i].TakeOwnership?
    ensures After(s, events).serials > s.serials || After(s, events).pc.Idle? || After(s, events).pc.Settled?
    decreases |events|
  {
    hide Validates, Owns, Answer, CanRetire;
    if events != [] {
      var t := Step(s, events[0]);
      SerialsGrow(t, events[1..]);
      if t.pc.Idle? || t.pc.Settled? {
        IdleNeedsAStart(t, events[1..]);
      }
    }
  }

  lemma {:induction false} SerialsGrow(s: System, events: seq<Event>)
    requires RunOf(s, events)
    ensures After(s, events).serials >= s.serials
    decreases |events|
  {
    hide Validates, Owns, Answer, CanRetire;
    if events != [] {
      SerialsGrow(Step(s, events[0]), events[1..]);
    }
  }

  // ---------- revisions ----------

  /** Under a drain, revisions only ever go up, over any run. */
  lemma PublishedRevisionsRise(events: seq<Event>, i: nat, j: nat)
    requires RunOf(Initial(true), events) && i < j < |After(Initial(true), events).published|
    ensures After(Initial(true), events).published[i].id.revision < After(Initial(true), events).published[j].id.revision
  {
    hide LedgerOk, SourceOk, DrainOk, ValidatedOk, WindowOk, SessionsOk, OwnersOk, OwnedOk, Enabled, Step;
    InitialInv(true);
    RunKeepsInv(Initial(true), events);
  }

  // ---------- sessions ----------

  /** No session is registered for a generation under publication before the drain owns it. */
  lemma NoSessionBeforeOwnership(events: seq<Event>, n: nat)
    requires RunOf(Initial(true), events)
    requires After(Initial(true), events).pc.Open? || After(Initial(true), events).pc.Swapped?
    requires n in After(Initial(true), events).sessions
    ensures
      var t := After(Initial(true), events);
      t.sessions[n] != Session.Accepted(t.pc.next.id) && Answer(t, t.pc.next.id) == Waiting(t.pc.next.id, t.windows)
  {
    hide LedgerOk, Enabled, Step, OwnersOk;
    InitialInv(true);
    RunKeepsInv(Initial(true), events);
    var t := After(Initial(true), events);
    NotOwnedYet(t);
  }

  lemma NotOwnedYet(t: System)
    requires Inv(t) && t.managed && (t.pc.Open? || t.pc.Swapped?)
    ensures t.pc.next.id !in t.owned
  {
    hide LedgerOk, SessionsOk, OwnersOk, DrainOk;
    var n := |t.published| - (if t.pc.Swapped? then 1 else 0);
    if t.pc.Swapped? {
      forall i | 0 <= i < n ensures t.published[i].id != t.pc.next.id {
        assert t.published[i].id.revision < t.published[n].id.revision;
      }
    } else {
      forall i | 0 <= i < n ensures t.published[i].id != t.pc.next.id {
        assert i < n - 1 ==> t.published[i].id.revision < t.published[n - 1].id.revision;
      }
    }
  }

  /** A session that asks for the active generation is refused only if that generation was retired from
      outside, or never owned, or the drain is closed; otherwise it is accepted or waits out the window. */
  lemma ActiveIsNotRefused(s: System, n: nat)
    requires Inv(s) && Enabled(s, Try(n)) && s.source.Some? && s.sessions[n].id == s.source.value.id
    ensures
      var t := Step(s, Try(n));
      t.sessions[n].Refused? ==> s.drain.active != IdOf(Predecessor(s)) || s.drain.closed
    ensures
      var t := Step(s, Try(n));
      s.drain.active == IdOf(Predecessor(s)) && !s.drain.closed ==>
        t.sessions[n] == if s.pc.Swapped? then Waiting(s.source.value.id, s.windows) else Session.Accepted(s.source.value.id)
  {
    hide LedgerOk, SessionsOk, OwnersOk, OwnedOk, RevisionsRise;
  }

  /** A registration waits while its generation is being published and the drain does not own it yet; otherwise it is
      accepted exactly while the drain is open and the generation is running or draining. */
  lemma RegistrationIff(s: System, id: Id)
    ensures
      var waits := s.window == Some(id) && s.drain.active != Some(id);
      var a := Answer(s, id);
      && (a == Waiting(id, s.windows) <==> waits)
      && (a == Session.Accepted(id) <==>
           && !waits && !s.drain.closed && id in s.drain.entries
           && (s.drain.entries[id].state.Applied? || s.drain.entries[id].state.Draining?))
      && (a == Refused(id) <==> a != Waiting(id, s.windows) && a != Session.Accepted(id))
  {
  }

  /** Retiring is for the running, active generation of an open drain only; it then drains, still accepting sessions, and
      nothing is active. A generation is forgotten only once it has finished. */
  lemma RetirementIff(s: System, id: Id)
    requires s.managed
    ensures Enabled(s, Retire(id)) <==>
              && !s.drain.closed && s.drain.active == Some(id) && id in s.drain.entries && s.drain.entries[id].state.Applied?
    ensures Enabled(s, Retire(id)) ==>
              var d := Step(s, Retire(id)).drain;
              d.active.None? && d.entries == s.drain.entries[id := Entry(s.drain.entries[id].revision, Draining)]
              && Generations.Accepts(d, id)
    ensures Enabled(s, PruneOne(id)) <==>
              id in s.drain.entries && s.drain.entries[id].state.Finished? && s.drain.active != Some(id)
  {
  }

  function Finishing(pc: Pc): seq<Event> {
    match pc
    case Open(_) => [Swap, TakeOwnership, End]
    case Swapped(_, _) => [TakeOwnership, End]
    case Settled(_) => [End]
    case _ => []
  }

  lemma FinishingRuns(s: System)
    requires s.pc.Open? || s.pc.Swapped? || s.pc.Settled?
    ensures RunOf(s, Finishing(s.pc)) && After(s, Finishing(s.pc)).windows == s.windows + 1
    ensures After(s, Finishing(s.pc)).sessions == s.sessions
    ensures After(s, Finishing(s.pc)).pc.Idle?
    ensures After(s, Finishing(s.pc)).published == s.published + if s.pc.Open? then [s.pc.next] else []
    decreases if s.pc.Open? then 2 else if s.pc.Swapped? then 1 else 0
  {
    hide Owns;
    var p := Finishing(s.pc);
    var t := Step(s, p[0]);
    if s.pc.Settled? {
      assert p[1..] == [] && RunOf(t, []);
    } else {
      assert p[1..] == Finishing(t.pc);
      FinishingRuns(t);
    }
  }

  /** No waiting session is forgotten: its window is closed already, or the apply that opened it closes it
      by its own remaining steps, none of which can fail. */
  lemma WaitersAreWoken(managed: bool, events: seq<Event>, n: nat)
    requires RunOf(Initial(managed), events)
    requires n in After(Initial(managed), events).sessions && After(Initial(managed), events).sessions[n].Waiting?
    ensures
      var t := After(Initial(managed), events);
      Enabled(t, Wake(n)) || (RunOf(t, Finishing(t.pc)) && Enabled(After(t, Finishing(t.pc)), Wake(n)))
  {
    hide LedgerOk, SourceOk, DrainOk, ValidatedOk, RevisionsRise, OwnersOk, OwnedOk, Step;
    InitialInv(managed);
    RunKeepsInv(Initial(managed), events);
    var t := After(Initial(managed), events);
    if t.sessions[n].window == t.windows {
      FinishingRuns(t);
    }
  }

  // ---------- without a drain ----------

  lemma RunCons(s: System, e: Event, rest: seq<Event>)
    requires Enabled(s, e) && RunOf(Step(s, e), rest)
    ensures RunOf(s, [e] + rest) && After(s, [e] + rest) == After(Step(s, e), rest)
  {
    hide Step, Enabled;
    assert ([e] + rest)[1..] == rest;
  }

  /** Without a drain any generation replaces any other: an apply that meets no fault publishes it,
      whatever the two revisions are. */
  lemma UndrainedPublishesAnyRevision(s: System, next: Id)
    requires !s.managed && s.pc.Idle? && IdOf(s.source) != Some(next)
    ensures exists events ::
              && RunOf(s, events) && After(s, events).pc.Idle?
              && After(s, events).published == s.published + [View(s.serials, next)]
  {
    var s1 := Step(s, Start(next, true));
    var s2 := Step(s1, MakeReady(true));
    var s3 := Step(s2, Validate);
    var s4 := Step(s3, PreparePublication(true));
    FinishingRuns(s4);
    var e3 := Finishing(s4.pc);
    RunCons(s3, PreparePublication(true), e3);
    var e2 := [PreparePublication(true)] + e3;
    RunCons(s2, Validate, e2);
    var e1 := [Validate] + e2;
    RunCons(s1, MakeReady(true), e1);
    var e0 := [MakeReady(true)] + e1;
    RunCons(s, Start(next, true), e0);
  }

  ghost predicate Higher(views: seq<View>) {
    forall i, j :: 0 <= i < j < |views| ==> views[i].id.revision < views[j].id.revision
  }

  /** What is published goes above what is active. */
  predicate PublishesHigher(s: System, e: Event)
    requires Enabled(s, e)
  {
    e.Swap? && s.source.Some? ==> s.source.value.id.revision < s.pc.next.id.revision
  }

  predicate AlwaysHigher(s: System, events: seq<Event>)
    requires RunOf(s, events)
    decreases |events|
  {
    events == [] || (PublishesHigher(s, events[0]) && AlwaysHigher(Step(s, events[0]), events[1..]))
  }

  lemma HigherAppend(views: seq<View>, v: View)
    requires Higher(views)
    ensures Higher(views + [v]) <==> views == [] || views[|views| - 1].id.revision < v.id.revision
  {
    var more := views + [v];
    if views != [] && Higher(more) {
      assert more[|views| - 1] == views[|views| - 1] && more[|views|] == v;
    }
  }

  lemma StepHigherIff(s: System, e: Event)
    requires SourceOk(s) && Higher(s.published) && Enabled(s, e)
    ensures Higher(Step(s, e).published) <==> PublishesHigher(s, e)
  {
    hide Answer, Owns, Validates, CanRetire, CloseDrain, Higher;
    if e.Swap? {
      HigherAppend(s.published, s.pc.next);
    }
  }

  lemma {:induction false} PublishedGrows(s: System, events: seq<Event>)
    requires RunOf(s, events)
    ensures s.published <= After(s, events).published
    decreases |events|
  {
    hide Answer, Owns, Validates, CanRetire, CloseDrain;
    if events != [] {
      PublishedGrows(Step(s, events[0]), events[1..]);
    }
  }

  /** With or without a drain, the revisions published over a run rise exactly when each one goes above the one
      active at that moment. */
  lemma {:induction false} RevisionsRiseIff(s: System, events: seq<Event>)
    requires Inv(s) && Higher(s.published) && RunOf(s, events)
    ensures Higher(After(s, events).published) <==> AlwaysHigher(s, events)
    decreases |events|
  {
    hide Step, Enabled, LedgerOk, SourceOk, DrainOk, ValidatedOk, RevisionsRise, WindowOk, SessionsOk, OwnersOk, OwnedOk,
      PublishesHigher;
    if events != [] {
      var u := Step(s, events[0]);
      StepHigherIff(s, events[0]);
      StepKeepsInv(s, events[0]);
      if Higher(u.published) {
        RevisionsRiseIff(u, events[1..]);
      } else {
        PublishedGrows(u, events[1..]);
        NotHigherForGood(u.published, After(u, events[1..]).published);
      }
    }
  }

  lemma NotHigherForGood(a: seq<View>, b: seq<View>)
    requires a <= b && !Higher(a)
    ensures !Higher(b)
  {
  }

  // ---------- shutdown ----------

  /** Without a drain, the first shutdown destroys every view ever published, each exactly once. */
  lemma ShutdownDestroysEachOnce(events: seq<Event>)
    requires RunOf(Initial(false), events)
    requires After(Initial(false), events).pc.Idle? && After(Initial(false), events).shutdowns == 0
    ensures
      var t := After(Initial(false), events);
      var u := Step(t, Shutdown);
      multiset(u.destroyed) == multiset(t.published) && u.retired == []
  {
    hide LedgerOk, DrainOk, ValidatedOk, RevisionsRise, WindowOk, SessionsOk, OwnedOk;
    InitialInv(false);
    RunKeepsInv(Initial(false), events);
  }

  /** With a drain, shutdown finishes every generation it owns and accepts no session again. */
  lemma ShutdownFinishesAll(s: System, id: Id)
    requires s.managed && Enabled(s, Shutdown)
    ensures
      var d := Step(s, Shutdown).drain;
      d.entries.Keys == s.drain.entries.Keys && d.active.None? && !Generations.Accepts(d, id)
  {
  }
}

/** The generation manager as the object the agent calls. An apply that runs undisturbed is a run of
    GenerationRuns from rest to rest. */
module GenerationManager {
  import opened Sequences
  import opened Generations
  import opened GenerationRuns

  /** What the modules and the context answer during one apply. */
  datatype World = World(prepared: bool, ready: bool, publication: bool)

  datatype Outcome =
    | Failed
    | Unchanged(active: View)
    | Cutover(active: View, previous: Option<View>, owned: bool)

  function Next(pc: Pc, w: World): Event
    requires !pc.Idle?
  {
    match pc
    case Prepared(_) => MakeReady(w.ready)
    case Ready(_) => Validate
    case Checked(_) => PreparePublication(w.publication)
    case Open(_) => Swap
    case Swapped(_, _) => TakeOwnership
    case Settled(_) => End
  }

  function Rank(pc: Pc): nat {
    match pc
    case Idle => 0
    case Settled(_) => 1
    case Swapped(_, _) => 2
    case Open(_) => 3
    case Checked(_) => 4
    case Ready(_) => 5
    case Prepared(_) => 6
  }

  /** The rest of the apply in progress, undisturbed. */
  function Continue(s: System, w: World): System
    decreases Rank(s.pc)
  {
    if s.pc.Idle? then s else Continue(Step(s, Next(s.pc, w)), w)
  }

  function AfterApply(s: System, next: Id, w: World): System
    requires s.pc.Idle?
  {
    Continue(AfterStart(s, next, w.prepared), w)
  }

  function Steps(s: System, w: World): seq<Event>
    decreases Rank(s.pc)
  {
    if s.pc.Idle? then [] else [Next(s.pc, w)] + Steps(Step(s, Next(s.pc, w)), w)
  }

  lemma {:induction false} ContinueIsARun(s: System, w: World)
    ensures RunOf(s, Steps(s, w)) && After(s, Steps(s, w)) == Continue(s, w) && Continue(s, w).pc.Idle?
    decreases Rank(s.pc)
  {
    hide AfterSwap, AfterTakeOwnership, Validates, Discard;
    if !s.pc.Idle? {
      NextIsEnabled(s, w);
      var t := Step(s, Next(s.pc, w));
      ContinueIsARun(t, w);
      assert Steps(s, w)[1..] == Steps(t, w);
    }
  }

  // ---------- the apply in one piece ----------

  predicate Passes(s: System, next: Id, w: World) {
    w.ready && (s.managed ==> Validates(s.drain, next, s.source)) && w.publication
  }

  function Publish(s: System, v: View): System {
    var t := s.(source := Some(v), published := s.published + [v], windows := s.windows + 1,
                retired := if s.source.Some? && !s.managed then s.retired + [s.source.value] else s.retired);
    if !s.managed then t
    else if Owns(s.drain, v.id, s.source) then t.(drain := Activate(s.drain, v.id), owned := s.owned + {v.id})
    else t.(unowned := s.unowned + {v.id})
  }

  /** One apply from rest: nothing to do, a candidate discarded, or a candidate published. */
  function ApplySpec(s: System, next: Id, w: World): System {
    if IdOf(s.source) == Some(next) || !w.prepared then s
    else
      var v := View(s.serials, next);
      var t := s.(serials := s.serials + 1);
      if Passes(s, next, w) then Publish(t, v) else t.(discarded := s.discarded + [v])
  }

  lemma PublishIsContinue(s: System, v: View, w: World)
    requires s.pc.Idle? && s.window.None?
    ensures Continue(s.(pc := Open(v), window := if s.managed then Some(v.id) else None), w) == Publish(s, v)
  {
    hide Validates, Owns;
    var s4 := s.(pc := Open(v), window := if s.managed then Some(v.id) else None);
    var s5 := Step(s4, Swap);
    var s6 := Step(s5, TakeOwnership);
    assert Continue(s6, w) == Step(s6, End);
    assert Continue(s5, w) == Continue(s6, w);
  }

  lemma ApplySpecIsContinue(s: System, next: Id, w: World)
    requires s.pc.Idle? && s.window.None?
    ensures AfterApply(s, next, w) == ApplySpec(s, next, w)
  {
    hide Validates, Owns, Publish;
    var v := View(s.serials, next);
    var t := s.(serials := s.serials + 1);
    PublishIsContinue(t, v, w);
    var s1 := t.(pc := Prepared(v));
    var s2 := t.(pc := Ready(v));
    var s3 := t.(pc := Checked(v));
    assert Continue(s3, w) == if w.publication then Publish(t, v) else t.(discarded := s.discarded + [v]);
    assert Continue(s2, w) == if s.managed && !Validates(s.drain, next, s.source) then t.(discarded := s.discarded + [v])
                              else Continue(s3, w);
    assert Continue(s1, w) == if !w.ready then t.(discarded := s.discarded + [v]) else Continue(s2, w);
  }

  lemma NextIsEnabled(s: System, w: World)
    requires !s.pc.Idle?
    ensures Enabled(s, Next(s.pc, w)) && Rank(Step(s, Next(s.pc, w)).pc) < Rank(s.pc)
  {
  }

  /** An undisturbed apply is a run, so all that holds of runs holds of it. */
  lemma ApplyIsARun(s: System, next: Id, w: World)
    requires s.pc.Idle? && s.window.None?
    ensures
      var events := [Start(next, w.prepared)] + Steps(AfterStart(s, next, w.prepared), w);
      RunOf(s, events) && After(s, events) == ApplySpec(s, next, w)
  {
    hide AfterStart, Continue, Steps, ApplySpec;
    ApplySpecIsContinue(s, next, w);
    var t := AfterStart(s, next, w.prepared);
    var events := [Start(next, w.prepared)] + Steps(t, w);
    ContinueIsARun(t, w);
    assert events[1..] == Steps(t, w);
  }

  // ---------- when an apply publishes ----------

  /** The drain's generations let the next one follow: the drain owns what is active, or nothing if nothing is; it does
      not know the next one; and the next one is above the generation it owns. */
  predicate Follows(d: Drain, source: Option<View>, next: Id) {
    && (source.None? ==> d.active.None?)
    && (source.Some? ==> d.active == Some(source.value.id))
    && next !in d.entries
    && (source.Some? && source.value.id in d.entries ==> next.revision > d.entries[source.value.id].revision)
  }

  lemma ValidatesIff(d: Drain, source: Option<View>, next: Id)
    ensures Validates(d, next, source) <==> Follows(d, source, next)
    ensures Validates(d, next, source) ==> (Owns(d, next, source) <==> !d.closed)
  {
  }

  /** An apply publishes exactly when the wanted generation is not active already, the modules prepare it and make it
      ready, the context lets it go on, and, under a drain, it may follow. */
  lemma ApplyPublishesIff(s: System, next: Id, w: World)
    requires s.pc.Idle?
    ensures ApplySpec(s, next, w).published == s.published + [View(s.serials, next)] <==>
              && (s.source.Some? ==> s.source.value.id != next)
              && w.prepared && w.ready && w.publication
              && (s.managed ==> Follows(s.drain, s.source, next))
    ensures ApplySpec(s, next, w).published != s.published + [View(s.serials, next)] ==>
              && ApplySpec(s, next, w).source == s.source && ApplySpec(s, next, w).published == s.published
              && ApplySpec(s, next, w).drain == s.drain && ApplySpec(s, next, w).retired == s.retired
  {
    var v := View(s.serials, next);
    assert s.published + [v] != s.published by {
      assert |s.published + [v]| == |s.published| + 1;
    }
  }

  /** What is published is active. Without a drain its predecessor is kept for shutdown. Under a drain that is open the
      drain takes over: it runs the new generation, drains the predecessor and leaves every other one alone; a closed
      drain takes over nothing. */
  lemma PublishedIsActive(s: System, next: Id, w: World)
    requires s.pc.Idle? && ApplySpec(s, next, w).published == s.published + [View(s.serials, next)]
    ensures
      var t := ApplySpec(s, next, w);
      && t.source == Some(View(s.serials, next)) && t.window == s.window
      && (!s.managed ==> t.retired == s.retired + (if s.source.Some? then [s.source.value] else []) && t.drain == s.drain)
      && (s.managed ==> t.retired == s.retired)
      && (s.managed && s.drain.closed ==> t.drain == s.drain && next in t.unowned)
      && (s.managed && !s.drain.closed ==>
           && next in t.owned && t.drain.active == Some(next) && !t.drain.closed
           && t.drain.entries.Keys == s.drain.entries.Keys + {next}
           && t.drain.entries[next] == Entry(next.revision, Applied)
           && forall id :: id in s.drain.entries ==>
                t.drain.entries[id] ==
                  if s.source.Some? && id == s.source.value.id then Entry(s.drain.entries[id].revision, Draining)
                  else s.drain.entries[id])
  {
    ApplyPublishesIff(s, next, w);
  }

  class Manager {
    const managed: bool
    var source: Option<View>
    var retired: seq<View>
    var drain: Drain
    var window: Option<Id>
    var windows: nat
    var serials: nat
    ghost var shutdowns: nat
    ghost var published: seq<View>
    ghost var discarded: seq<View>
    ghost var destroyed: seq<View>
    ghost var owned: set<Id>
    ghost var unowned: set<Id>

    /** The state at rest; sessions belong to their callers. */
    ghost function Value(): System
      reads this
    {
      System(managed, source, retired, drain, Idle, window, windows, map[], shutdowns,
             serials, published, discarded, destroyed, owned, unowned)
    }

    constructor (managed: bool)
      ensures Value() == Initial(managed)
    {
      this.managed := managed;
      source, retired, drain, window, windows, serials := None, [], NEW_DRAIN, None, 0, 0;
      shutdowns, published, discarded, destroyed, owned, unowned := 0, [], [], [], {}, {};
    }

    /** Reads what the drain knows and refuses a candidate it could not take over. */
    method ValidateDrain(next: Id) returns (ok: bool)
      requires managed
      ensures ok == Validates(drain, next, source)
    {
      var current := drain.active;
      match source {
        case None =>
          if current.Some? {
            return false;
          }
        case Some(previous) =>
          if current != Some(previous.id) {
            return false;
          }
      }
      if next in drain.entries {
        return false;
      }
      ok := !(current.Some? && current.value in drain.entries && next.revision <= drain.entries[current.value].revision);
    }

    /** Opens the window, publishes, lets the drain take over, and closes the window. */
    method PublishCandidate(candidate: View) returns (outcome: Outcome)
      requires window.None?
      modifies this
      ensures Value() == Publish(old(Value()), candidate) && serials == old(serials) && window.None?
      ensures outcome == Cutover(candidate, old(source), managed && Owns(old(drain), candidate.id, old(source)))
      ensures source == Some(candidate)
    {
      hide Validates, Owns;
      if managed {
        window := Some(candidate.id);
      }
      var previous := source;
      source := Some(candidate);
      published := published + [candidate];
      if previous.Some? && !managed {
        retired := retired + [previous.value];
      }
      var takenOver := false;
      if managed {
        takenOver := TakeOwnership(candidate.id, previous);
      }
      window, windows := None, windows + 1;
      outcome := Cutover(candidate, previous, takenOver);
    }

    method DestroyCandidate(candidate: View)
      modifies this`discarded
      ensures discarded == old(discarded) + [candidate]
    {
      discarded := discarded + [candidate];
    }

    /** Prepares, checks, publishes and hands over one generation, or leaves everything as it was. */
    method Apply(next: Id, w: World) returns (outcome: Outcome)
      requires window.None?
      modifies this
      ensures Value() == ApplySpec(old(Value()), next, w)
      ensures outcome.Failed? ==> source == old(source)
      ensures outcome.Unchanged? <==> old(IdOf(source)) == Some(next)
      ensures outcome.Cutover? <==>
                && (old(source).Some? ==> old(source).value.id != next)
                && w.prepared && w.ready && w.publication
                && (managed ==> Follows(old(drain), old(source), next))
      ensures outcome.Cutover? ==> source == Some(outcome.active) && (outcome.owned <==> managed && !old(drain).closed)
      ensures outcome.Cutover? ==>
                && outcome.active == View(old(serials), next) && outcome.previous == old(source)
                && (outcome.owned <==> managed && Owns(old(drain), next, old(source)))
    {
      hide Validates, Owns, Publish, Follows;
      ValidatesIff(drain, source, next);
      if source.Some? && source.value.id == next {
        return Unchanged(source.value);
      }
      if !w.prepared {
        return Failed;
      }
      var candidate := View(serials, next);
      serials := serials + 1;
      if !w.ready {
        DestroyCandidate(candidate);
        return Failed;
      }
      if managed {
        var valid := ValidateDrain(next);
        if !valid {
          DestroyCandidate(candidate);
          return Failed;
        }
      }
      if !w.publication {
        DestroyCandidate(candidate);
        return Failed;
      }
      outcome := PublishCandidate(candidate);
    }

    /** The drain takes over the published generation and starts draining its predecessor. */
    method TakeOwnership(next: Id, previous: Option<View>) returns (ok: bool)
      modifies this`drain, this`owned, this`unowned
      ensures ok == Owns(old(drain), next, previous)
      ensures drain == if ok then Activate(old(drain), next) else old(drain)
      ensures owned == old(owned) + (if ok then {next} else {})
      ensures unowned == old(unowned) + (if ok then {} else {next})
    {
      var current := drain.active;
      ok := current == IdOf(previous);
      if ok {
        ok := !drain.closed && next !in drain.entries;
        if current.Some? && current.value in drain.entries && next.revision <= drain.entries[current.value].revision {
          ok := false;
        }
      }
      if ok {
        drain := Activate(drain, next);
        owned := owned + {next};
      } else {
        unowned := unowned + {next};
      }
    }

    /** One turn of a session's registration loop. */
    method TryRegister(id: Id) returns (session: Session)
      ensures session == Answer(Value(), id)
    {
      if window.Some? && window.value == id && drain.active != Some(id) {
        return Waiting(id, windows);
      }
      if !drain.closed && id in drain.entries && !drain.entries[id].state.Finished? {
        return Session.Accepted(id);
      }
      session := Refused(id);
    }

    method Close()
      modifies this
      ensures Value() == AfterShutdown(old(Value()))
    {
      shutdowns := shutdowns + 1;
      if managed {
        drain := CloseDrain(drain);
      } else {
        destroyed := destroyed + (if source.Some? then [source.value] else []) + retired;
      }
      retired := [];
    }
  }
}

/** Applies, sessions, retirement and shutdown, interleaved one atomic step at a time. Applies and shutdown
    are serialized by the manager's lock; everything else may happen between any two steps of an apply. */
module GenerationRuns {
  import opened Sequences
  import opened Generations

  /** Where the apply in progress stands. */
  datatype Pc =
    | Idle
    | Prepared(next: View)
    | Ready(next: View)
    | Checked(next: View)
    | Open(next: View)                                // publication window open, nothing published
    | Swapped(next: View, previous: Option<View>)     // published, not yet owned by the drain
    | Settled(next: View)                             // the drain has answered, window still open

  /** A session registers in a loop: it asks, and waits on the window's channel if it must. */
  datatype Session = Asking(id: Id) | Waiting(id: Id, window: nat) | Accepted(id: Id) | Refused(id: Id)

  /** `windows` counts the publication windows closed so far. The last six fields are the ledger of the
      run: serial numbers issued, and what became of the views that carry them. */
  datatype System = System(
    managed: bool, source: Option<View>, retired: seq<View>, drain: Drain, pc: Pc,
    window: Option<Id>, windows: nat, sessions: map<nat, Session>, shutdowns: nat,
    serials: nat, published: seq<View>, discarded: seq<View>, destroyed: seq<View>,
    owned: set<Id>, unowned: set<Id>)

  datatype Event =
    | Start(next: Id, ok: bool)
    | MakeReady(ok: bool)
    | Validate
    | PreparePublication(ok: bool)
    | Swap
    | TakeOwnership
    | End
    | Retire(id: Id)
    | FinishOne(id: Id)
    | PruneOne(id: Id)
    | Shutdown
    | Ask(session: nat, id: Id)
    | Try(session: nat)
    | Wake(session: nat)

  function Initial(managed: bool): System {
    System(managed, None, [], NEW_DRAIN, Idle, None, 0, map[], 0, 0, [], [], [], {}, {})
  }

  predicate Enabled(s: System, e: Event) {
    match e
    case Start(_, _) => s.pc.Idle?
    case MakeReady(_) => s.pc.Prepared?
    case Validate => s.pc.Ready?
    case PreparePublication(_) => s.pc.Checked?
    case Swap => s.pc.Open?
    case TakeOwnership => s.pc.Swapped?
    case End => s.pc.Settled?
    case Retire(id) => s.managed && CanRetire(s.drain, id)
    case FinishOne(id) => s.managed && id in s.drain.entries && s.drain.entries[id].state.Draining?
    case PruneOne(id) =>
      s.managed && id in s.drain.entries && s.drain.entries[id].state.Finished? && s.drain.active != Some(id)
    case Shutdown => s.pc.Idle?
    case Ask(n, _) => n !in s.sessions
    case Try(n) => s.managed && n in s.sessions && s.sessions[n].Asking?
    case Wake(n) => n in s.sessions && s.sessions[n].Waiting? && s.sessions[n].window < s.windows
  }

  /** The candidate is destroyed and the apply reports an error. */
  function Discard(s: System): System
    requires !s.pc.Idle?
  {
    s.(pc := Idle, discarded := s.discarded + [s.pc.next])
  }

  /** Nothing is prepared when the wanted generation is already active. */
  function AfterStart(s: System, next: Id, ok: bool): System {
    if IdOf(s.source) == Some(next) || !ok then s
    else s.(pc := Prepared(View(s.serials, next)), serials := s.serials + 1)
  }

  function AfterSwap(s: System): System
    requires s.pc.Open?
  {
    s.(source := Some(s.pc.next), published := s.published + [s.pc.next],
       retired := if s.source.Some? && !s.managed then s.retired + [s.source.value] else s.retired,
       pc := Swapped(s.pc.next, s.source))
  }

  function AfterTakeOwnership(s: System): System
    requires s.pc.Swapped?
  {
    var id := s.pc.next.id;
    if !s.managed then s.(pc := Settled(s.pc.next))
    else if Owns(s.drain, id, s.pc.previous) then
      s.(pc := Settled(s.pc.next), drain := Activate(s.drain, id), owned := s.owned + {id})
    else
      s.(pc := Settled(s.pc.next), unowned := s.unowned + {id})
  }

  function AfterShutdown(s: System): System {
    var t := s.(shutdowns := s.shutdowns + 1, retired := []);
    if s.managed then t.(drain := CloseDrain(s.drain))
    else t.(destroyed := s.destroyed + (if s.source.Some? then [s.source.value] else []) + s.retired)
  }

  /** A registration that must wait: its generation is being published and the drain does not own it. */
  predicate MustWait(s: System, id: Id) {
    s.window == Some(id) && s.drain.active != Some(id)
  }

  function Answer(s: System, id: Id): Session {
    if MustWait(s, id) then Waiting(id, s.windows)
    else if Generations.Accepts(s.drain, id) then Accepted(id)
    else Refused(id)
  }

  function Step(s: System, e: Event): System
    requires Enabled(s, e)
  {
    match e
    case Start(next, ok) => AfterStart(s, next, ok)
    case MakeReady(ok) => if ok then s.(pc := Ready(s.pc.next)) else Discard(s)
    case Validate =>
      if s.managed && !Validates(s.drain, s.pc.next.id, s.source) then Discard(s) else s.(pc := Checked(s.pc.next))
    case PreparePublication(ok) =>
      if !ok then Discard(s)
      else s.(pc := Open(s.pc.next), window := if s.managed then Some(s.pc.next.id) else None)
    case Swap => AfterSwap(s)
    case TakeOwnership => AfterTakeOwnership(s)
    case End => s.(pc := Idle, window := None, windows := s.windows + 1)
    case Retire(id) => s.(drain := RetireActive(s.drain, id))
    case FinishOne(id) => s.(drain := Finish(s.drain, id))
    case PruneOne(id) => s.(drain := Prune(s.drain, id))
    case Shutdown => AfterShutdown(s)
    case Ask(n, id) => s.(sessions := s.sessions[n := Asking(id)])
    case Try(n) => s.(sessions := s.sessions[n := Answer(s, s.sessions[n].id)])
    case Wake(n) => s.(sessions := s.sessions[n := Asking(s.sessions[n].id)])
  }

  predicate RunOf(s: System, events: seq<Event>)
    decreases |events|
  {
    events == [] || (Enabled(s, events[0]) && RunOf(Step(s, events[0]), events[1..]))
  }

  function After(s: System, events: seq<Event>): System
    requires RunOf(s, events)
    decreases |events|
  {
    if events == [] then s else After(Step(s, events[0]), events[1..])
  }

  // ---------- the invariant ----------

  predicate Unpublished(pc: Pc) {
    pc.Prepared? || pc.Ready? || pc.Checked? || pc.Open?
  }

  ghost predicate Rising(views: seq<View>) {
    forall i, j :: 0 <= i < j < |views| ==> views[i].serial < views[j].serial
  }

  ghost predicate Carries(views: seq<View>, serial: nat) {
    exists i :: 0 <= i < |views| && views[i].serial == serial
  }

  predicate InFlight(s: System, serial: nat) {
    Unpublished(s.pc) && s.pc.next.serial == serial
  }

  /** Each serial number issued is carried by exactly one view: in flight, published or discarded. */
  ghost predicate LedgerOk(s: System) {
    && Rising(s.published) && Rising(s.discarded)
    && (forall i :: 0 <= i < |s.published| ==> s.published[i].serial < s.serials)
    && (forall i :: 0 <= i < |s.discarded| ==> s.discarded[i].serial < s.serials)
    && (Unpublished(s.pc) ==> s.pc.next.serial + 1 == s.serials
                              && !Carries(s.published, s.pc.next.serial) && !Carries(s.discarded, s.pc.next.serial))
    && (forall k: nat :: k < s.serials ==> Carries(s.published, k) || Carries(s.discarded, k) || InFlight(s, k))
    && (forall k: nat :: !(Carries(s.published, k) && Carries(s.discarded, k)))
  }

  /** What is active is what was published last. */
  predicate SourceOk(s: System) {
    && s.source == (if s.published == [] then None else Some(s.published[|s.published| - 1]))
    && (s.pc.Swapped? || s.pc.Settled? ==> s.source == Some(s.pc.next))
  }

  function Predecessor(s: System): Option<View> {
    if s.pc.Swapped? then s.pc.previous else s.source
  }

  /** What the drain says about its generations is true of them, and it owns no other than the last
      published (or, until it is asked to take over, the one before). */
  ghost predicate DrainOk(s: System) {
    && (forall id :: id in s.drain.entries ==> s.drain.entries[id].revision == id.revision && id in s.owned)
    && (s.drain.active.Some? ==>
         && s.drain.active.value in s.drain.entries && s.drain.entries[s.drain.active.value].state.Applied?
         && s.drain.active == IdOf(Predecessor(s)))
    && (s.drain.closed || !s.managed ==> s.drain.active.None?)
  }

  /** Past validation the candidate is above its predecessor and unknown to the drain. */
  predicate ValidatedOk(s: System) {
    s.managed && (s.pc.Checked? || s.pc.Open? || s.pc.Swapped?) ==>
      && s.pc.next.id !in s.drain.entries
      && (Predecessor(s).Some? ==> Predecessor(s).value.id.revision < s.pc.next.id.revision)
  }

  ghost predicate RevisionsRise(s: System) {
    s.managed ==> forall i, j :: 0 <= i < j < |s.published| ==> s.published[i].id.revision < s.published[j].id.revision
  }

  predicate WindowOk(s: System) {
    s.window == if s.managed && (s.pc.Open? || s.pc.Swapped? || s.pc.Settled?) then Some(s.pc.next.id) else None
  }

  ghost predicate SessionsOk(s: System) {
    forall n :: n in s.sessions ==>
      && (s.sessions[n].Accepted? ==> s.sessions[n].id in s.owned)
      && (s.sessions[n].Waiting? ==> s.sessions[n].window <= s.windows
                                     && (s.sessions[n].window == s.windows ==> s.window == Some(s.sessions[n].id)))
  }

  ghost predicate OwnersOk(s: System) {
    && (s.managed ==>
         forall i :: 0 <= i < |s.published| && !(s.pc.Swapped? && i == |s.published| - 1) ==>
           s.published[i].id in s.owned || s.published[i].id in s.unowned)
    && (!s.managed && s.shutdowns == 0 ==>
         s.published == s.retired + if s.source.Some? then [s.source.value] else [])
    && (s.shutdowns == 0 ==> s.destroyed == [])
  }

  /** The drain only ever took over what was published before, or is published and settled. */
  ghost predicate OwnedOk(s: System) {
    && (s.pc.Swapped? ==> s.published != [])
    && forall id :: id in s.owned ==>
         exists i :: 0 <= i < |s.published| - (if s.pc.Swapped? then 1 else 0) && s.published[i].id == id
  }

  ghost predicate Inv(s: System) {
    && LedgerOk(s) && SourceOk(s) && DrainOk(s) && ValidatedOk(s) && RevisionsRise(s) && WindowOk(s)
    && SessionsOk(s) && OwnersOk(s) && OwnedOk(s)
  }

  // ---------- every step keeps it ----------

  lemma CarriesAppend(views: seq<View>, v: View, k: nat)
    ensures Carries(views + [v], k) <==> Carries(views, k) || v.serial == k
  {
    if Carries(views, k) {
      var i :| 0 <= i < |views| && views[i].serial == k;
      assert (views + [v])[i].serial == k;
    }
    if v.serial == k {
      assert (views + [v])[|views|].serial == k;
    }
  }

  lemma StepLedger(s: System, e: Event)
    requires LedgerOk(s) && Enabled(s, e)
    ensures LedgerOk(Step(s, e))
  {
    hide Validates, Owns, CanRetire, Answer, CloseDrain;
    match e {
      case Swap => SwapLedger(s);
      case MakeReady(_) => DiscardLedger(s);
      case Validate => DiscardLedger(s);
      case PreparePublication(_) => DiscardLedger(s);
      case _ =>
    }
  }

  lemma SwapLedger(s: System)
    requires LedgerOk(s) && s.pc.Open?
    ensures LedgerOk(AfterSwap(s))
  {
    forall k: nat ensures Carries(s.published + [s.pc.next], k) <==> Carries(s.published, k) || s.pc.next.serial == k {
      CarriesAppend(s.published, s.pc.next, k);
    }
    forall i | 0 <= i < |s.published| ensures s.published[i].serial < s.pc.next.serial {
      assert Carries(s.published, s.published[i].serial);
    }
  }

  lemma DiscardLedger(s: System)
    requires LedgerOk(s) && Unpublished(s.pc)
    ensures LedgerOk(Discard(s))
  {
    forall k: nat ensures Carries(s.discarded + [s.pc.next], k) <==> Carries(s.discarded, k) || s.pc.next.serial == k {
      CarriesAppend(s.discarded, s.pc.next, k);
    }
    forall i | 0 <= i < |s.discarded| ensures s.discarded[i].serial < s.pc.next.serial {
      assert Carries(s.discarded, s.discarded[i].serial);
    }
  }

  lemma StepSource(s: System, e: Event)
    requires SourceOk(s) && Enabled(s, e)
    ensures SourceOk(Step(s, e))
  {
    hide Validates, Owns, CanRetire, Answer, CloseDrain;
  }

  lemma OwnershipDrain(s: System)
    requires SourceOk(s) && DrainOk(s) && ValidatedOk(s) && s.pc.Swapped?
    ensures DrainOk(AfterTakeOwnership(s))
  {
  }

  lemma StepDrain(s: System, e: Event)
    requires SourceOk(s) && DrainOk(s) && ValidatedOk(s) && Enabled(s, e)
    ensures DrainOk(Step(s, e))
  {
    hide Validates, Owns, AfterTakeOwnership, Answer, Discard, AfterStart, ValidatedOk;
    if e.TakeOwnership? {
      OwnershipDrain(s);
    } else if e.Start? || e.MakeReady? || e.Validate? || e.PreparePublication? {
      PreparingKeepsDrain(s, e);
    }
  }

  lemma PreparingKeepsDrain(s: System, e: Event)
    requires Enabled(s, e) && (e.Start? || e.MakeReady? || e.Validate? || e.PreparePublication?)
    ensures Step(s, e).drain == s.drain && Step(s, e).owned == s.owned && Step(s, e).managed == s.managed
    ensures Predecessor(Step(s, e)) == Predecessor(s)
  {
    hide Validates;
  }

  lemma StepValidated(s: System, e: Event)
    requires SourceOk(s) && DrainOk(s) && ValidatedOk(s) && Enabled(s, e)
    ensures ValidatedOk(Step(s, e))
  {
    hide Answer, Owns;
  }

  lemma StepRevisions(s: System, e: Event)
    requires SourceOk(s) && ValidatedOk(s) && RevisionsRise(s) && Enabled(s, e)
    ensures RevisionsRise(Step(s, e))
  {
    hide Answer, Owns, Validates, CanRetire, CloseDrain;
  }

  lemma StepWindow(s: System, e: Event)
    requires WindowOk(s) && Enabled(s, e)
    ensures WindowOk(Step(s, e))
  {
    hide Answer, Owns, Validates, CanRetire, CloseDrain;
  }

  lemma StepSessions(s: System, e: Event)
    requires DrainOk(s) && WindowOk(s) && SessionsOk(s) && Enabled(s, e)
    ensures SessionsOk(Step(s, e))
  {
    hide Owns, Validates, CanRetire, CloseDrain;
  }

  lemma StepOwners(s: System, e: Event)
    requires SourceOk(s) && OwnersOk(s) && Enabled(s, e)
    ensures OwnersOk(Step(s, e))
  {
    hide Answer, Owns, Validates, CanRetire, CloseDrain;
  }

  lemma StepOwned(s: System, e: Event)
    requires SourceOk(s) && OwnedOk(s) && Enabled(s, e)
    ensures OwnedOk(Step(s, e))
  {
    hide Answer, Owns, Validates, CanRetire, CloseDrain;
    var t := Step(s, e);
    forall id | id in t.owned
      ensures exists i :: 0 <= i < |t.published| - (if t.pc.Swapped? then 1 else 0) && t.published[i].id == id
    {
      if id in s.owned {
        var i :| 0 <= i < |s.published| - (if s.pc.Swapped? then 1 else 0) && s.published[i].id == id;
        assert t.published[i].id == id;
      } else {
        assert t.published[|t.published| - 1].id == id;
      }
    }
  }

  lemma StepKeepsInv(s: System, e: Event)
    requires Inv(s) && Enabled(s, e)
    ensures Inv(Step(s, e))
  {
    hide LedgerOk, SourceOk, DrainOk, ValidatedOk, RevisionsRise, WindowOk, SessionsOk, OwnersOk, OwnedOk, Enabled, Step;
    StepLedger(s, e);
    StepSource(s, e);
    StepDrain(s, e);
    StepValidated(s, e);
    StepRevisions(s, e);
    StepWindow(s, e);
    StepSessions(s, e);
    StepOwners(s, e);
    StepOwned(s, e);
  }

  lemma {:induction false} RunKeepsInv(s: System, events: seq<Event>)
    requires Inv(s) && RunOf(s, events)
    ensures Inv(After(s, events)) && After(s, events).managed == s.managed
    decreases |events|
  {
    hide Inv;
    if events != [] {
      StepKeepsInv(s, events[0]);
      RunKeepsInv(Step(s, events[0]), events[1..]);
    }
  }

  lemma InitialInv(managed: bool)
    ensures Inv(Initial(managed))
  {
    assert LedgerOk(Initial(managed));
    hide LedgerOk;
  }
}

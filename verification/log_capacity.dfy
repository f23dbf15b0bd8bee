/** The backpressure signal of the plugin log outbox: a writer that finds the outbox full waits on a
    channel; an acknowledger that removed reports closes it. The signal itself is the mutable object
    below; the rest of the module runs any number of writers and acknowledgers against it, one atomic
    step at a time, and proves that no wakeup is lost. */
module LogCapacity {
  import opened LogReports

  // ---------- the signal ----------

  class Channel {
    var closed: bool
    constructor ()
      ensures !closed
    {
      closed := false;
    }
  }

  class CapacitySignal {
    var changed: Channel?
    /** Every channel handed out so far, oldest first; the last one is `changed`. */
    ghost var issued: seq<Channel>

    ghost predicate Valid()
      reads this, issued
    {
      && (changed == null <==> issued == [])
      && (issued != [] ==> changed == issued[|issued| - 1])
      && (forall i, j :: 0 <= i < j < |issued| ==> issued[i] != issued[j])
      && (forall i :: 0 <= i < |issued| ==> (issued[i].closed <==> IsClosed(|issued|, i)))
    }

    constructor ()
      ensures Valid() && issued == []
    {
      changed, issued := null, [];
    }

    /** Hands out the current channel, making the first one on demand. */
    method Snapshot() returns (c: Channel)
      requires Valid()
      modifies this
      ensures Valid() && |issued| == AfterSnapshot(|old(issued)|)
      ensures old(issued) <= issued && c == issued[|issued| - 1]
    {
      if changed == null {
        changed := new Channel();
        issued := issued + [changed];
      }
      c := changed;
    }

    /** Closes the current channel, if there is one, and starts a new one. */
    method Notify()
      requires Valid()
      modifies this, changed
      ensures Valid() && |issued| == AfterNotify(|old(issued)|)
      ensures old(issued) < issued
      ensures forall c :: c in old(issued) ==> c.closed
    {
      if changed != null {
        changed.closed := true;
      }
      changed := new Channel();
      issued := issued + [changed];
    }
  }

  /** Channels are numbered in the order they are handed out. All but the newest are closed. */
  predicate IsClosed(issued: nat, channel: nat) {
    channel + 1 < issued
  }

  function AfterSnapshot(issued: nat): nat {
    if issued == 0 then 1 else issued
  }

  function AfterNotify(issued: nat): nat {
    issued + 1
  }

  // ---------- writers and acknowledgers ----------

  /** Where a writer is in its wait loop: about to snapshot, about to read the pending count, or
      blocked in the select on the channel it holds. It gives up when its context is cancelled or the
      pending count cannot be read. */
  datatype Writer = AtTop | Holding(channel: nat) | Blocked(channel: nat) | Returned | GaveUp

  /** An acknowledger removes reports under the store's lock and notifies after releasing it. */
  datatype Acknowledger = Sending | Unnotified | Finished

  datatype System = System(issued: nat, pending: nat, writers: map<nat, Writer>, ackers: map<nat, Acknowledger>)

  datatype Event =
    | TakeSnapshot(w: nat)
    | ReadCount(w: nat)
    | ReadFails(w: nat)
    | Wake(w: nat)
    | Cancel(w: nat)
    | Remove(a: nat, n: nat)
    | Notify(a: nat)
    | Enqueue(n: nat)

  predicate Enabled(s: System, e: Event) {
    match e
    case TakeSnapshot(w) => w in s.writers && s.writers[w].AtTop?
    case ReadCount(w) => w in s.writers && s.writers[w].Holding?
    case ReadFails(w) => w in s.writers && s.writers[w].Holding?
    case Wake(w) => w in s.writers && s.writers[w].Blocked? && IsClosed(s.issued, s.writers[w].channel)
    case Cancel(w) => w in s.writers && s.writers[w].Blocked?
    case Remove(a, n) => a in s.ackers && s.ackers[a].Sending? && n <= s.pending
    case Notify(a) => a in s.ackers && s.ackers[a].Unnotified?
    case Enqueue(n) => s.pending + n <= MAX_PENDING_REPORTS
  }

  function Step(s: System, e: Event): System
    requires Enabled(s, e)
  {
    match e
    case TakeSnapshot(w) =>
      var issued := AfterSnapshot(s.issued);
      s.(issued := issued, writers := s.writers[w := Holding(issued - 1)])
    case ReadCount(w) =>
      s.(writers := s.writers[w := if s.pending < MAX_PENDING_REPORTS then Returned else Blocked(s.writers[w].channel)])
    case Wake(w) => s.(writers := s.writers[w := AtTop])
    case ReadFails(w) => s.(writers := s.writers[w := GaveUp])
    case Cancel(w) => s.(writers := s.writers[w := GaveUp])
    case Remove(a, n) =>
      // an acknowledgement that removes nothing does not notify
      s.(pending := s.pending - n, ackers := s.ackers[a := if n > 0 then Unnotified else Finished])
    case Notify(a) =>
      s.(issued := AfterNotify(s.issued), ackers := s.ackers[a := Finished])
    case Enqueue(n) => s.(pending := s.pending + n)
  }

  predicate Initial(s: System) {
    && s.issued == 0 && s.pending <= MAX_PENDING_REPORTS
    && (forall w :: w in s.writers ==> s.writers[w].AtTop?)
    && (forall a :: a in s.ackers ==> s.ackers[a].Sending?)
  }

  predicate RunOf(s: System, events: seq<Event>)
    decreases |events|
  {
    events == [] || (Enabled(s, events[0]) && RunOf(Step(s, events[0]), events[1..]))
  }

  function After(s: System, events: seq<Event>): System
    requires RunOf(s, events)
    decreases |events|
  {
    if events == [] then s else After(Step(s, events[0]), events[1..])
  }

  ghost predicate NotificationOwed(s: System) {
    exists a :: a in s.ackers && s.ackers[a].Unnotified?
  }

  /** A writer blocked on a channel nobody has closed is blocked for a reason: the outbox is full, or
      an acknowledger that made room has yet to notify. */
  ghost predicate NoLostWakeup(s: System) {
    forall w :: w in s.writers && s.writers[w].Blocked? && !IsClosed(s.issued, s.writers[w].channel) ==>
      s.pending >= MAX_PENDING_REPORTS || NotificationOwed(s)
  }

  ghost predicate Inv(s: System) {
    && s.pending <= MAX_PENDING_REPORTS
    && (forall w :: w in s.writers && (s.writers[w].Holding? || s.writers[w].Blocked?) ==> s.writers[w].channel < s.issued)
    && NoLostWakeup(s)
  }

  lemma StepKeepsInv(s: System, e: Event)
    requires Inv(s) && Enabled(s, e)
    ensures Inv(Step(s, e))
  {
    var t := Step(s, e);
    if NotificationOwed(s) && !e.Notify? {
      var a :| a in s.ackers && s.ackers[a].Unnotified?;
      assert t.ackers[a].Unnotified?;
    }
    if e.Remove? && e.n > 0 {
      assert t.ackers[e.a].Unnotified?;
    }
    forall w | w in t.writers && t.writers[w].Blocked? && !IsClosed(t.issued, t.writers[w].channel)
      ensures t.pending >= MAX_PENDING_REPORTS || NotificationOwed(t)
    {
      if !(e.ReadCount? && e.w == w) {
        assert s.writers[w] == t.writers[w];
      }
    }
  }

  /** In every reachable interleaving no wakeup is lost. */
  lemma {:induction false} NoWakeupIsEverLost(s: System, events: seq<Event>)
    requires (Initial(s) || Inv(s)) && RunOf(s, events)
    ensures NoLostWakeup(After(s, events)) && Inv(After(s, events))
    decreases |events|
  {
    if events != [] {
      StepKeepsInv(s, events[0]);
      NoWakeupIsEverLost(Step(s, events[0]), events[1..]);
    }
  }

  /** The steps a writer takes on its own to get out once there is room. */
  function WayOut(w: Writer, id: nat): seq<Event> {
    match w
    case AtTop => [TakeSnapshot(id), ReadCount(id)]
    case Holding(_) => [ReadCount(id)]
    case Blocked(_) => [Wake(id)] + [TakeSnapshot(id), ReadCount(id)]
    case _ => []
  }

  ghost predicate Leaves(s: System, w: nat) {
    && w in s.writers
    && RunOf(s, WayOut(s.writers[w], w))
    && w in After(s, WayOut(s.writers[w], w)).writers
    && After(s, WayOut(s.writers[w], w)).writers[w].Returned?
  }

  lemma HolderLeaves(s: System, w: nat)
    requires w in s.writers && s.writers[w].Holding? && s.pending < MAX_PENDING_REPORTS
    ensures RunOf(s, [ReadCount(w)]) && w in After(s, [ReadCount(w)]).writers
    ensures After(s, [ReadCount(w)]).writers[w].Returned?
    ensures Leaves(s, w)
  {
    var t := Step(s, ReadCount(w));
    assert [ReadCount(w)][1..] == [];
    assert RunOf(t, []) && After(t, []) == t;
  }

  lemma NewcomerLeaves(s: System, w: nat)
    requires w in s.writers && s.writers[w].AtTop? && s.pending < MAX_PENDING_REPORTS
    ensures Leaves(s, w)
  {
    var out := [TakeSnapshot(w), ReadCount(w)];
    assert out[1..] == [ReadCount(w)];
    HolderLeaves(Step(s, TakeSnapshot(w)), w);
  }

  /** Once there is room and every acknowledger has notified, each waiting writer can leave by its own
      steps alone, whatever channel it holds. */
  lemma WaitingWriterGetsOut(s: System, events: seq<Event>, w: nat)
    requires Initial(s) && RunOf(s, events)
    requires w in After(s, events).writers && !After(s, events).writers[w].GaveUp?
    requires After(s, events).pending < MAX_PENDING_REPORTS && !NotificationOwed(After(s, events))
    ensures Leaves(After(s, events), w)
  {
    NoWakeupIsEverLost(s, events);
    var t := After(s, events);
    match t.writers[w]
    case AtTop => NewcomerLeaves(t, w);
    case Holding(_) => HolderLeaves(t, w);
    case Blocked(_) =>
      var out := WayOut(t.writers[w], w);
      assert out[1..] == [TakeSnapshot(w), ReadCount(w)];
      NewcomerLeaves(Step(t, Wake(w)), w);
    case Returned =>
  }
}

/** Replacing the running generation: the drain controller that owns published generations, and the
    checks made before a candidate is published over its predecessor. */
module Generations {
  import opened Sequences

  /** A generation id spells out its revision and the start of its snapshot hash. */
  datatype Id = Id(revision: int, hash: string)

  /** A prepared candidate; once published, a view. Each one prepared has its own serial number. */
  datatype View = View(serial: nat, id: Id)

  datatype EntryState = Applied | Draining | Finished

  datatype Entry = Entry(revision: int, state: EntryState)

  datatype Drain = Drain(active: Option<Id>, entries: map<Id, Entry>, closed: bool)

  const NEW_DRAIN := Drain(None, map[], false)

  function IdOf(v: Option<View>): Option<Id> {
    match v
    case None => None
    case Some(view) => Some(view.id)
  }

  /** The check made before publication, on what the drain controller knows of its generations. */
  predicate Validates(d: Drain, next: Id, previous: Option<View>) {
    && d.active == IdOf(previous)
    && next !in d.entries
    && (d.active.Some? && d.active.value in d.entries ==> d.entries[d.active.value].revision < next.revision)
  }

  /** The check made after publication, when the drain controller takes ownership. */
  predicate Owns(d: Drain, next: Id, previous: Option<View>) {
    && d.active == IdOf(previous)
    && !d.closed
    && next !in d.entries
    && (d.active.Some? && d.active.value in d.entries ==> d.entries[d.active.value].revision < next.revision)
  }

  function Retired(entries: map<Id, Entry>, active: Option<Id>): map<Id, Entry> {
    if active.Some? && active.value in entries then
      entries[active.value := entries[active.value].(state := Draining)]
    else entries
  }

  function Activate(d: Drain, next: Id): Drain {
    d.(active := Some(next), entries := Retired(d.entries, d.active)[next := Entry(next.revision, Applied)])
  }

  predicate CanRetire(d: Drain, id: Id) {
    !d.closed && d.active == Some(id) && id in d.entries && d.entries[id].state.Applied?
  }

  /** Hands an externally replaced active generation to the drain. */
  function RetireActive(d: Drain, id: Id): Drain
    requires CanRetire(d, id)
  {
    d.(active := None, entries := d.entries[id := d.entries[id].(state := Draining)])
  }

  /** A draining generation runs out of sessions, or is forced. */
  function Finish(d: Drain, id: Id): Drain
    requires id in d.entries && d.entries[id].state.Draining?
  {
    d.(entries := d.entries[id := d.entries[id].(state := Finished)])
  }

  /** Forgets a finished generation; never the active one. */
  function Prune(d: Drain, id: Id): Drain
    requires id in d.entries && d.entries[id].state.Finished? && d.active != Some(id)
  {
    d.(entries := d.entries - {id})
  }

  function CloseEntries(entries: map<Id, Entry>): map<Id, Entry> {
    map id | id in entries :: entries[id].(state := Finished)
  }

  function CloseDrain(d: Drain): Drain {
    Drain(None, CloseEntries(d.entries), true)
  }

  predicate Accepts(d: Drain, id: Id) {
    !d.closed && id in d.entries && !d.entries[id].state.Finished?
  }
}

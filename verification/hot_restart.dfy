/** Handing the agent's sockets from a running parent to its replacement child.

    Every call that crosses to the stream registry, the packet registry or the child may fail, so the
    handoff is specified over a `World` that says, call by call, which succeed. The trace of calls made
    is what the guarantees talk about. */
module HotRestart {

  datatype Kind =
    | ExportStreams | ExportPackets | StartChild | CloseBundles
    | PauseStreams | ResumeStreams
    | BeginForwarding | PausePackets | FlushForwarding | ResumePackets | FinalizeForwarding
    | ActivateChild | TransferAuthority | AbortChild | WaitChild

  datatype Call = Call(kind: Kind, ok: bool)

  type Trace = seq<Call>

  /** `works(n)` says whether the n-th call of the run succeeds. */
  datatype World = World(streams: bool, packets: bool, works: nat -> bool)

  // ---------- who may be serving, after a trace ----------

  /** The parent accepts until a pause succeeds, and again from any resume. A pause that fails may have
      left listeners open. */
  predicate ParentAccepts(w: World, t: Trace) {
    w.streams && (t == [] || match t[|t| - 1].kind
                  case PauseStreams => !t[|t| - 1].ok
                  case ResumeStreams => true
                  case _ => ParentAccepts(w, t[..|t| - 1]))
  }

  predicate ParentReads(w: World, t: Trace) {
    w.packets && (t == [] || match t[|t| - 1].kind
                  case PausePackets => !t[|t| - 1].ok
                  case ResumePackets => true
                  case _ => ParentReads(w, t[..|t| - 1]))
  }

  /** A child told to activate may be accepting whether or not its acknowledgement arrived. */
  predicate ChildAccepts(t: Trace) {
    t != [] && match t[|t| - 1].kind
      case ActivateChild => true
      case AbortChild => false
      case _ => ChildAccepts(t[..|t| - 1])
  }

  predicate ChildReads(t: Trace) {
    t != [] && match t[|t| - 1].kind
      case TransferAuthority => true
      case AbortChild => false
      case _ => ChildReads(t[..|t| - 1])
  }

  predicate ChildAlive(t: Trace) {
    t != [] && match t[|t| - 1].kind
      case StartChild => t[|t| - 1].ok
      case AbortChild => false
      case _ => ChildAlive(t[..|t| - 1])
  }

  predicate Resumes(k: Kind) {
    k == ResumeStreams || k == ResumePackets
  }

  /** Some resume reported an error, so that what it resumed may not be serving. */
  predicate ResumeErred(t: Trace) {
    t != [] && ((Resumes(t[|t| - 1].kind) && !t[|t| - 1].ok) || ResumeErred(t[..|t| - 1]))
  }

  /** Nobody serves twice at any time, and the parent is only ever resumed over a dead child. */
  ghost predicate Exclusive(w: World, t: Trace) {
    forall n :: 0 <= n <= |t| ==> ExclusiveAt(w, t[..n])
  }

  predicate ExclusiveAt(w: World, t: Trace) {
    && !(ParentAccepts(w, t) && ChildAccepts(t))
    && !(ParentReads(w, t) && ChildReads(t))
    && (t != [] && Resumes(t[|t| - 1].kind) ==> !ChildAlive(t))
  }

  function Count(t: Trace, k: Kind): nat {
    if t == [] then 0 else Count(t[..|t| - 1], k) + (if t[|t| - 1].kind == k then 1 else 0)
  }

  // ---------- the handoff ----------

  datatype State = State(trace: Trace, committed: bool, resumed: bool, cleanupFailed: bool, resumeFailed: bool)

  const FRESH := State([], false, false, false, false)

  function Works(w: World, s: State): bool {
    w.works(|s.trace|)
  }

  function Do(w: World, s: State, k: Kind): State {
    s.(trace := s.trace + [Call(k, Works(w, s))])
  }

  function ResumeParent(w: World, s: State): State {
    if s.resumed then s
    else
      var s1 := if w.packets then
                  Do(w, s, ResumePackets).(resumeFailed := s.resumeFailed || !Works(w, s))
                else s;
      var s2 := if w.streams then
                  Do(w, s1, ResumeStreams).(resumeFailed := s1.resumeFailed || !Works(w, s1))
                else s1;
      s2.(resumed := true)
  }

  function AbortAndResume(w: World, s: State): State {
    ResumeParent(w, Do(w, s, AbortChild))
  }

  function Activate(w: World, s: State): (State, bool) {
    var s1 := if w.streams then Do(w, s, PauseStreams) else s;
    if w.streams && !Works(w, s) then (AbortAndResume(w, s1), false)
    else
      var s2 := if w.packets then Do(w, s1, BeginForwarding) else s1;
      if w.packets && !Works(w, s1) then (AbortAndResume(w, s2), false)
      else
        var s3 := Do(w, s2, ActivateChild);
        if !Works(w, s2) then (AbortAndResume(w, s3), false) else (s3, true)
  }

  function Transfer(w: World, s: State): (State, bool) {
    var s1 := if w.packets then Do(w, s, PausePackets) else s;
    if w.packets && !Works(w, s) then (AbortAndResume(w, s1), false)
    else
      var s2 := if w.packets then Do(w, s1, FlushForwarding) else s1;
      if w.packets && !Works(w, s1) then (AbortAndResume(w, s2), false)
      else
        var s3 := Do(w, s2, TransferAuthority);
        if !Works(w, s2) then (AbortAndResume(w, s3), false)
        else if w.packets then
          (Do(w, s3, FinalizeForwarding).(committed := true, cleanupFailed := s3.cleanupFailed || !Works(w, s3)), true)
        else
          (s3.(committed := true), true)
  }

  function Abort(w: World, s: State): State {
    var s1 := Do(w, s, AbortChild);
    if s1.committed then s1 else ResumeParent(w, s1)
  }

  /** Exporting the sockets and starting the child. A failure after the packet export undoes it. */
  function Launch(w: World, s: State): (State, bool) {
    var s1 := Do(w, s, ExportStreams);
    if !w.streams || !w.packets then (s, false)
    else if !Works(w, s) then (s1, false)
    else
      var s2 := Do(w, s1, ExportPackets);
      if !Works(w, s1) then (s2, false)
      else
        var s3 := Do(w, s2, StartChild);
        var s4 := Do(w, s3, CloseBundles);
        if !Works(w, s2) then (Do(w, s4, ResumePackets), false)
        else if !Works(w, s3) then (Do(w, Do(w, s4, AbortChild), ResumePackets), false)
        else (s4, true)
  }

  /** The replacement, from launch to the transfer of authority. */
  function Replace(w: World): (State, bool) {
    var (s1, launched) := Launch(w, FRESH);
    if !launched then (s1, false)
    else
      var (s2, activated) := Activate(w, s1);
      if !activated then (Abort(w, s2), false)
      else
        var (s3, transferred) := Transfer(w, s2);
        if !transferred then (Abort(w, s3), false) else (s3, true)
  }

  // ---------- one call ----------

  lemma OneCallFlags(w: World, s: State, k: Kind)
    ensures
      var t, u := s.trace, Do(w, s, k).trace;
      var ok := Works(w, s);
      && (ParentAccepts(w, u) <==>
           w.streams && if k == PauseStreams then !ok else k == ResumeStreams || ParentAccepts(w, t))
      && (ParentReads(w, u) <==>
           w.packets && if k == PausePackets then !ok else k == ResumePackets || ParentReads(w, t))
      && (ParentAccepts(w, t) ==> w.streams) && (ParentReads(w, t) ==> w.packets)
      && (ChildAccepts(u) <==> k == ActivateChild || (k != AbortChild && ChildAccepts(t)))
      && (ChildReads(u) <==> k == TransferAuthority || (k != AbortChild && ChildReads(t)))
      && (ChildAlive(u) <==> if k == StartChild then ok else k != AbortChild && ChildAlive(t))
      && (ResumeErred(u) <==> ResumeErred(t) || (Resumes(k) && !ok))
  {
    var t, u := s.trace, Do(w, s, k).trace;
    assert u[..|u| - 1] == t;
  }

  lemma OneCallExclusive(w: World, s: State, k: Kind)
    ensures Exclusive(w, Do(w, s, k).trace) <==> Exclusive(w, s.trace) && ExclusiveAt(w, Do(w, s, k).trace)
  {
    hide ExclusiveAt;
    var t, u := s.trace, Do(w, s, k).trace;
    assert u[..|u|] == u;
    if Exclusive(w, u) {
      forall n | 0 <= n <= |t| ensures ExclusiveAt(w, t[..n]) {
        assert u[..n] == t[..n];
      }
    }
    if Exclusive(w, t) && ExclusiveAt(w, u) {
      forall n | 0 <= n <= |u| ensures ExclusiveAt(w, u[..n]) {
        assert n <= |t| ==> u[..n] == t[..n];
      }
    }
  }

  lemma OneCall(w: World, s: State, k: Kind)
    ensures
      var t, u := s.trace, Do(w, s, k).trace;
      var ok := Works(w, s);
      && u[|u| - 1] == Call(k, ok)
      && (ParentAccepts(w, u) <==>
           w.streams && if k == PauseStreams then !ok else k == ResumeStreams || ParentAccepts(w, t))
      && (ParentReads(w, u) <==>
           w.packets && if k == PausePackets then !ok else k == ResumePackets || ParentReads(w, t))
      && (ParentAccepts(w, t) ==> w.streams) && (ParentReads(w, t) ==> w.packets)
      && (ChildAccepts(u) <==> k == ActivateChild || (k != AbortChild && ChildAccepts(t)))
      && (ChildReads(u) <==> k == TransferAuthority || (k != AbortChild && ChildReads(t)))
      && (ChildAlive(u) <==> if k == StartChild then ok else k != AbortChild && ChildAlive(t))
      && (ResumeErred(u) <==> ResumeErred(t) || (Resumes(k) && !ok))
      && (forall j :: Count(u, j) == Count(t, j) + if j == k then 1 else 0)
      && (Exclusive(w, u) <==> Exclusive(w, t) && ExclusiveAt(w, u))
  {
    hide ParentAccepts, ParentReads, ChildAccepts, ChildReads, ChildAlive, ResumeErred, Exclusive, ExclusiveAt;
    OneCallFlags(w, s, k);
    OneCallExclusive(w, s, k);
    assert Do(w, s, k).trace[..|s.trace|] == s.trace;
  }

  // ---------- the stages of the handoff ----------

  /** What counts towards the guarantees: resumes so far, and aborts. */
  predicate Counts(t: Trace, packets: nat, streams: nat, aborts: nat) {
    Count(t, ResumePackets) == packets && Count(t, ResumeStreams) == streams && Count(t, AbortChild) == aborts
  }

  predicate ChildIdle(t: Trace) {
    !ChildAccepts(t) && !ChildReads(t)
  }

  /** The process remembers a failed resume, and nothing else, as one. */
  ghost predicate Honest(s: State) {
    s.resumeFailed <==> ResumeErred(s.trace)
  }

  /** Before the handoff: nothing resumed, the child alive and silent, the parent serving. */
  ghost predicate Launched(w: World, s: State) {
    && Exclusive(w, s.trace) && !s.committed && !s.resumed && Counts(s.trace, 0, 0, 0) && Honest(s)
    && ChildIdle(s.trace) && ChildAlive(s.trace)
  }

  /** The parent no longer accepts streams; the child does. */
  ghost predicate Activated(w: World, s: State) {
    && Exclusive(w, s.trace) && !s.committed && !s.resumed && Counts(s.trace, 0, 0, 0) && Honest(s)
    && !ParentAccepts(w, s.trace) && !ChildReads(s.trace) && ChildAlive(s.trace) && ChildAccepts(s.trace)
  }

  /** Authority is the child's: it is alive and serves everything; the parent serves nothing and was never
      resumed. */
  ghost predicate HandedOver(w: World, s: State) {
    && Exclusive(w, s.trace) && s.committed && !s.resumed && Counts(s.trace, 0, 0, 0) && Honest(s)
    && !ParentAccepts(w, s.trace) && !ParentReads(w, s.trace)
    && ChildAlive(s.trace) && ChildAccepts(s.trace) && ChildReads(s.trace)
  }

  /** Authority stays with the parent: the child is dead, and each resource the parent has was resumed
      exactly once, successfully unless the process says otherwise. */
  ghost predicate TakenBack(w: World, s: State, aborts: nat) {
    && Exclusive(w, s.trace) && !s.committed && s.resumed && Honest(s)
    && Counts(s.trace, if w.packets then 1 else 0, if w.streams then 1 else 0, aborts)
    && ChildIdle(s.trace) && !ChildAlive(s.trace)
    && (w.streams ==> ParentAccepts(w, s.trace)) && (w.packets ==> ParentReads(w, s.trace))
  }

  lemma AbortAndResumeTakesBack(w: World, s: State)
    requires Exclusive(w, s.trace) && !s.committed && !s.resumed && Counts(s.trace, 0, 0, 0) && Honest(s)
    ensures TakenBack(w, AbortAndResume(w, s), 1)
  {
    hide Exclusive, ParentAccepts, ParentReads, ChildAccepts, ChildReads, ChildAlive, ResumeErred, Count;
    OneCall(w, s, AbortChild);
    var s1 := Do(w, s, AbortChild);
    OneCall(w, s1, ResumePackets);
    var s2 := if w.packets then Do(w, s1, ResumePackets).(resumeFailed := s1.resumeFailed || !Works(w, s1)) else s1;
    OneCall(w, s2, ResumeStreams);
  }

  lemma ActivateStage(w: World, s: State)
    requires Launched(w, s)
    ensures Activate(w, s).1 ==> Activated(w, Activate(w, s).0)
    ensures !Activate(w, s).1 ==> TakenBack(w, Activate(w, s).0, 1)
  {
    hide Exclusive, ParentAccepts, ParentReads, ChildAccepts, ChildReads, ChildAlive, ResumeErred, Count, AbortAndResume, TakenBack;
    OneCall(w, s, PauseStreams);
    var s1 := if w.streams then Do(w, s, PauseStreams) else s;
    if w.streams && !Works(w, s) {
      AbortAndResumeTakesBack(w, s1);
    } else {
      OneCall(w, s1, BeginForwarding);
      var s2 := if w.packets then Do(w, s1, BeginForwarding) else s1;
      if w.packets && !Works(w, s1) {
        AbortAndResumeTakesBack(w, s2);
      } else {
        OneCall(w, s2, ActivateChild);
        if !Works(w, s2) {
          AbortAndResumeTakesBack(w, Do(w, s2, ActivateChild));
        }
      }
    }
  }

  lemma TransferStage(w: World, s: State)
    requires Activated(w, s)
    ensures Transfer(w, s).1 ==> HandedOver(w, Transfer(w, s).0)
    ensures !Transfer(w, s).1 ==> TakenBack(w, Transfer(w, s).0, 1)
  {
    hide Exclusive, ParentAccepts, ParentReads, ChildAccepts, ChildReads, ChildAlive, ResumeErred, Count, AbortAndResume, TakenBack;
    OneCall(w, s, PausePackets);
    var s1 := if w.packets then Do(w, s, PausePackets) else s;
    if w.packets && !Works(w, s) {
      AbortAndResumeTakesBack(w, s1);
    } else {
      OneCall(w, s1, FlushForwarding);
      var s2 := if w.packets then Do(w, s1, FlushForwarding) else s1;
      if w.packets && !Works(w, s1) {
        AbortAndResumeTakesBack(w, s2);
      } else {
        OneCall(w, s2, TransferAuthority);
        var s3 := Do(w, s2, TransferAuthority);
        if !Works(w, s2) {
          AbortAndResumeTakesBack(w, s3);
        } else {
          OneCall(w, s3, FinalizeForwarding);
        }
      }
    }
  }

  lemma LaunchStage(w: World)
    ensures Launch(w, FRESH).1 ==> Launched(w, Launch(w, FRESH).0)
    ensures !Launch(w, FRESH).1 ==>
              var t := Launch(w, FRESH).0.trace;
              Exclusive(w, t) && ChildIdle(t) && !ChildAlive(t)
              && (w.streams ==> ParentAccepts(w, t)) && (w.packets ==> ParentReads(w, t))
  {
    LaunchSteps(w);
    hide Exclusive, ParentAccepts, ParentReads, ChildAccepts, ChildReads, ChildAlive, ResumeErred, Count;
    var s4 := Do(w, Do(w, Do(w, Do(w, FRESH, ExportStreams), ExportPackets), StartChild), CloseBundles);
    OneCall(w, s4, AbortChild);
    OneCall(w, s4, ResumePackets);
    OneCall(w, Do(w, s4, AbortChild), ResumePackets);
  }

  lemma LaunchSteps(w: World)
    ensures
      var s1 := Do(w, FRESH, ExportStreams);
      var s2 := Do(w, s1, ExportPackets);
      var s4 := Do(w, Do(w, s2, StartChild), CloseBundles);
      && Quiet(w, FRESH.trace) && !ChildAlive(FRESH.trace) && Quiet(w, s1.trace) && !ChildAlive(s1.trace)
      && Quiet(w, s2.trace) && !ChildAlive(s2.trace)
      && Quiet(w, s4.trace) && (ChildAlive(s4.trace) <==> Works(w, s2))
  {
    hide Quiet, Exclusive, ParentAccepts, ParentReads, ChildAccepts, ChildReads, ChildAlive, ResumeErred, Count;
    FreshIsQuiet(w);
    var s1 := Do(w, FRESH, ExportStreams);
    var s2 := Do(w, s1, ExportPackets);
    KeepsQuiet(w, FRESH, ExportStreams);
    KeepsQuiet(w, s1, ExportPackets);
    KeepsQuiet(w, s2, StartChild);
    KeepsQuiet(w, Do(w, s2, StartChild), CloseBundles);
  }

  lemma FreshIsQuiet(w: World)
    ensures Quiet(w, FRESH.trace) && !ChildAlive(FRESH.trace)
  {
    assert ExclusiveAt(w, []);
  }

  lemma KeepsQuiet(w: World, s: State, k: Kind)
    requires Quiet(w, s.trace) && k in {ExportStreams, ExportPackets, StartChild, CloseBundles}
    ensures Quiet(w, Do(w, s, k).trace)
    ensures ChildAlive(Do(w, s, k).trace) <==> if k == StartChild then Works(w, s) else ChildAlive(s.trace)
  {
    hide Exclusive, ParentAccepts, ParentReads, ChildAccepts, ChildReads, ChildAlive, ResumeErred, Count;
    OneCall(w, s, k);
  }

  ghost predicate Quiet(w: World, t: Trace) {
    && Exclusive(w, t) && Counts(t, 0, 0, 0) && ChildIdle(t) && !ResumeErred(t)
    && (w.streams <==> ParentAccepts(w, t)) && (w.packets <==> ParentReads(w, t))
  }

  // ---------- the guarantees ----------

  /** Aborting again kills the child again and changes nothing else. */
  lemma AbortAgain(w: World, s: State, aborts: nat)
    requires TakenBack(w, s, aborts)
    ensures TakenBack(w, Abort(w, s), aborts + 1)
  {
    hide Exclusive, ParentAccepts, ParentReads, ChildAccepts, ChildReads, ChildAlive, ResumeErred, Count;
    OneCall(w, s, AbortChild);
  }

  /** Whatever fails, the replacement ends in one of two ways. If it reports success, authority is
      committed to the child and the parent was never resumed. If it reports failure, the parent owns
      everything and the child is dead: either the launch failed before anything was paused, or the
      child was aborted twice and every paused resource resumed exactly once, without error unless the
      process reports one. At no time did both serve. */
  lemma ReplacementLeavesOneOwner(w: World)
    ensures
      var (s, ok) := Replace(w);
      && Exclusive(w, s.trace)
      && (ok <==> s.committed)
      && (ok ==> HandedOver(w, s))
      && (!ok ==> ChildIdle(s.trace) && !ChildAlive(s.trace)
                  && (w.streams ==> ParentAccepts(w, s.trace)) && (w.packets ==> ParentReads(w, s.trace)))
      && (!ok && Launch(w, FRESH).1 ==> TakenBack(w, s, 2))
      && (!ok && Launch(w, FRESH).1 && !s.resumeFailed ==> !ResumeErred(s.trace))
  {
    hide Exclusive, ParentAccepts, ParentReads, ChildAccepts, ChildReads, ChildAlive, ResumeErred, Count, Launch, Activate, Transfer, Abort;
    LaunchStage(w);
    LaunchCommitsNothing(w);
    var (s1, launched) := Launch(w, FRESH);
    if launched {
      ActivateStage(w, s1);
      var (s2, activated) := Activate(w, s1);
      if activated {
        TransferStage(w, s2);
        if !Transfer(w, s2).1 {
          AbortAgain(w, Transfer(w, s2).0, 1);
        }
      } else {
        AbortAgain(w, s2, 1);
      }
    }
  }

  lemma LaunchCommitsNothing(w: World)
    ensures !Launch(w, FRESH).0.committed
  {
  }

  datatype Late = AbortLate | WaitLate

  function Later(w: World, s: State, calls: seq<Late>): State
    decreases |calls|
  {
    if calls == [] then s
    else Later(w, if calls[0].AbortLate? then Abort(w, s) else Do(w, s, WaitChild), calls[1..])
  }

  /** Nothing the supervisor does afterwards resumes the parent: not after a handover, and not a second
      time after a failure. */
  lemma {:induction false} NothingResumesLater(w: World, s: State, calls: seq<Late>)
    requires s.committed || s.resumed
    ensures
      var t, u := s.trace, Later(w, s, calls).trace;
      && Count(u, ResumePackets) == Count(t, ResumePackets)
      && Count(u, ResumeStreams) == Count(t, ResumeStreams)
      && (ParentAccepts(w, u) <==> ParentAccepts(w, t)) && (ParentReads(w, u) <==> ParentReads(w, t))
    decreases |calls|
  {
    hide ParentAccepts, ParentReads, Count, Exclusive, ChildAccepts, ChildReads, ChildAlive;
    if calls != [] {
      OneCall(w, s, if calls[0].AbortLate? then AbortChild else WaitChild);
      NothingResumesLater(w, if calls[0].AbortLate? then Abort(w, s) else Do(w, s, WaitChild), calls[1..]);
    }
  }

  // ---------- when a replacement succeeds ----------

  /** From the `n`-th call on, these many calls succeed. */
  predicate AllWork(w: World, n: nat, count: nat) {
    forall k: nat :: n <= k < n + count ==> w.works(k)
  }

  /** The calls as they were made. */
  function Made(w: World, n: nat, kinds: seq<Kind>): (t: Trace)
    ensures |t| == |kinds| && forall k :: 0 <= k < |kinds| ==> t[k] == Call(kinds[k], w.works(n + k))
  {
    seq(|kinds|, k requires 0 <= k < |kinds| => Call(kinds[k], w.works(n + k)))
  }

  /** A launch goes through exactly when both registries are there and the exports, the start and the closing of the
      bundles all succeed; it made just these four calls then. */
  lemma LaunchSucceedsIff(w: World)
    ensures Launch(w, FRESH).1 <==> w.streams && w.packets && AllWork(w, 0, 4)
    ensures Launch(w, FRESH).1 ==>
              Launch(w, FRESH).0 == FRESH.(trace := Made(w, 0, [ExportStreams, ExportPackets, StartChild, CloseBundles]))
  {
    if w.streams && w.packets {
      assert AllWork(w, 0, 4) <==> w.works(0) && w.works(1) && w.works(2) && w.works(3);
    }
  }

  /** Activation goes through exactly when pausing the streams, forwarding and the child's activation succeed. */
  lemma ActivateSucceedsIff(w: World, s: State)
    requires w.streams && w.packets
    ensures Activate(w, s).1 <==> AllWork(w, |s.trace|, 3)
    ensures Activate(w, s).1 ==>
              Activate(w, s).0 == s.(trace := s.trace + Made(w, |s.trace|, [PauseStreams, BeginForwarding, ActivateChild]))
  {
    hide AbortAndResume;
    var n := |s.trace|;
    assert AllWork(w, n, 3) <==> w.works(n) && w.works(n + 1) && w.works(n + 2);
  }

  /** Transfer goes through exactly when pausing and flushing the packets and the child's acknowledgement succeed, in this
      order: the flush follows the pause and precedes the transfer, and what is buffered for forwarding is only
      dropped after it. A failed cleanup is remembered and changes nothing else. */
  lemma TransferSucceedsIff(w: World, s: State)
    requires w.streams && w.packets
    ensures Transfer(w, s).1 <==> AllWork(w, |s.trace|, 3)
    ensures Transfer(w, s).1 ==>
              Transfer(w, s).0 ==
                s.(trace := s.trace + Made(w, |s.trace|, [PausePackets, FlushForwarding, TransferAuthority, FinalizeForwarding]),
                   committed := true, cleanupFailed := s.cleanupFailed || !w.works(|s.trace| + 3))
  {
    hide AbortAndResume;
    var n := |s.trace|;
    assert AllWork(w, n, 3) <==> w.works(n) && w.works(n + 1) && w.works(n + 2);
  }

  const HANDOVER := [ExportStreams, ExportPackets, StartChild, CloseBundles, PauseStreams, BeginForwarding, ActivateChild,
                     PausePackets, FlushForwarding, TransferAuthority, FinalizeForwarding]

  /** A replacement succeeds exactly when both registries are there and each of the ten calls up to the transfer of
      authority succeeds. It then made those calls in this order and the cleanup after them, and nothing else; whether
      the cleanup failed is remembered. */
  lemma ReplacementSucceedsIff(w: World)
    ensures Replace(w).1 <==> w.streams && w.packets && AllWork(w, 0, 10)
    ensures Replace(w).1 ==>
              Replace(w).0 == FRESH.(trace := Made(w, 0, HANDOVER), committed := true, cleanupFailed := !w.works(10))
  {
    hide Launch, Activate, Transfer, Abort, Made;
    LaunchSucceedsIff(w);
    var (s1, launched) := Launch(w, FRESH);
    if launched {
      ActivateSucceedsIff(w, s1);
      var (s2, activated) := Activate(w, s1);
      if activated {
        TransferSucceedsIff(w, s2);
        TracesJoin(w);
      }
    }
  }

  lemma TracesJoin(w: World)
    ensures
      var a := Made(w, 0, [ExportStreams, ExportPackets, StartChild, CloseBundles]);
      var b := Made(w, 4, [PauseStreams, BeginForwarding, ActivateChild]);
      var c := Made(w, 7, [PausePackets, FlushForwarding, TransferAuthority, FinalizeForwarding]);
      a + b + c == Made(w, 0, HANDOVER)
  {
  }

  /** What a launch that fails has done: nothing without both registries; a failed export ends it at once; after the
      packet export the packets are resumed, and a child that was started is aborted first. */
  lemma FailedLaunchUndoes(w: World)
    ensures
      var t := Launch(w, FRESH).0.trace;
      && (!w.streams || !w.packets ==> t == [])
      && (w.streams && w.packets && !w.works(0) ==> t == Made(w, 0, [ExportStreams]))
      && (w.streams && w.packets && w.works(0) && !w.works(1) ==> t == Made(w, 0, [ExportStreams, ExportPackets]))
      && (w.streams && w.packets && w.works(0) && w.works(1) && !w.works(2) ==>
           t == Made(w, 0, [ExportStreams, ExportPackets, StartChild, CloseBundles, ResumePackets]))
      && (w.streams && w.packets && w.works(0) && w.works(1) && w.works(2) && !w.works(3) ==>
           t == Made(w, 0, [ExportStreams, ExportPackets, StartChild, CloseBundles, AbortChild, ResumePackets]))
  {
  }
}

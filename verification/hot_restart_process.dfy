/** The parent's handle on its replacement child, as the object the agent drives. Each method is the
    corresponding step of HotRestart on the object's abstract state. */
module HotRestartProcess {
  import opened HotRestart

  class ResourceProcess {
    const world: World
    var trace: Trace
    var authorityCommitted: bool
    var cleanupFailed: bool
    var resumeDone: bool
    var resumeFailed: bool

    function Value(): State
      reads this
    {
      State(trace, authorityCommitted, resumeDone, cleanupFailed, resumeFailed)
    }

    /** A process the launch has just returned. */
    constructor (world: World, launched: Trace)
      ensures this.world == world && Value() == FRESH.(trace := launched)
    {
      this.world := world;
      trace := launched;
      authorityCommitted, cleanupFailed, resumeDone, resumeFailed := false, false, false, false;
    }

    method Call(k: Kind) returns (ok: bool)
      modifies this`trace
      ensures ok == Works(world, old(Value())) && Value() == Do(world, old(Value()), k)
    {
      ok := world.works(|trace|);
      trace := trace + [HotRestart.Call(k, ok)];
    }

    method ResumeParent()
      modifies this`trace, this`resumeDone, this`resumeFailed
      ensures Value() == HotRestart.ResumeParent(world, old(Value()))
    {
      if resumeDone {
        return;
      }
      resumeDone := true;
      if world.packets {
        var ok := Call(ResumePackets);
        resumeFailed := resumeFailed || !ok;
      }
      if world.streams {
        var ok := Call(ResumeStreams);
        resumeFailed := resumeFailed || !ok;
      }
    }

    method AbortAndResume()
      modifies this
      ensures Value() == HotRestart.AbortAndResume(world, old(Value()))
    {
      var _ := Call(AbortChild);
      ResumeParent();
    }

    method Activate() returns (ok: bool)
      modifies this
      ensures (Value(), ok) == HotRestart.Activate(world, old(Value()))
    {
      hide HotRestart.ResumeParent;
      if world.streams {
        ok := Call(PauseStreams);
        if !ok {
          AbortAndResume();
          return;
        }
      }
      if world.packets {
        ok := Call(BeginForwarding);
        if !ok {
          AbortAndResume();
          return;
        }
      }
      ok := Call(ActivateChild);
      if !ok {
        AbortAndResume();
      }
    }

    method TransferAuthority() returns (ok: bool)
      modifies this
      ensures (Value(), ok) == Transfer(world, old(Value()))
    {
      hide HotRestart.ResumeParent;
      if world.packets {
        ok := Call(PausePackets);
        if !ok {
          AbortAndResume();
          return;
        }
        ok := Call(FlushForwarding);
        if !ok {
          AbortAndResume();
          return;
        }
      }
      ok := Call(Kind.TransferAuthority);
      if !ok {
        AbortAndResume();
        return;
      }
      authorityCommitted := true;
      if world.packets {
        var clean := Call(FinalizeForwarding);
        cleanupFailed := cleanupFailed || !clean;
      }
    }

    /** Kills the child; the error reports a failed kill, and a failed cleanup or resume beside it. */
    method Abort() returns (ok: bool)
      modifies this
      ensures Value() == HotRestart.Abort(world, old(Value()))
      ensures ok == (Works(world, old(Value())) && !if authorityCommitted then cleanupFailed else resumeFailed)
    {
      ok := Call(AbortChild);
      if authorityCommitted {
        return ok && !cleanupFailed;
      }
      ResumeParent();
      ok := ok && !resumeFailed;
    }

    method Wait() returns (ok: bool)
      modifies this`trace
      ensures Value() == Do(world, old(Value()), WaitChild)
      ensures ok == (Works(world, old(Value())) && !cleanupFailed)
    {
      ok := Call(WaitChild);
      ok := ok && !cleanupFailed;
    }
  }

  /** Exports the sockets and starts the child; a child that cannot be used is gone when this returns. */
  method StartWithResources(world: World) returns (process: ResourceProcess?, trace: Trace)
    ensures process != null ==> fresh(process)
    ensures (FRESH.(trace := trace), process != null) == Launch(world, FRESH)
    ensures process != null ==> process.world == world && process.Value() == Launch(world, FRESH).0
  {
    process, trace := null, [];
    if !world.streams || !world.packets {
      return;
    }
    trace := trace + [Call(ExportStreams, world.works(0))];
    if !world.works(0) {
      return;
    }
    trace := trace + [Call(ExportPackets, world.works(1))];
    if !world.works(1) {
      return;
    }
    var started, closed := world.works(2), world.works(3);
    trace := trace + [Call(StartChild, started)];
    trace := trace + [Call(CloseBundles, closed)];
    if !started {
      trace := trace + [Call(ResumePackets, world.works(4))];
      return;
    }
    if !closed {
      trace := trace + [Call(AbortChild, world.works(4))];
      trace := trace + [Call(ResumePackets, world.works(5))];
      return;
    }
    process := new ResourceProcess(world, trace);
  }

  /** Replaces the running agent, from launch to the transfer of authority. */
  method Replacement(world: World) returns (state: State, ok: bool)
    ensures (state, ok) == Replace(world)
  {
    hide HotRestart.Activate, HotRestart.Transfer, HotRestart.Abort, HotRestart.Launch;
    var process, trace := StartWithResources(world);
    if process == null {
      return FRESH.(trace := trace), false;
    }
    ok := process.Activate();
    if !ok {
      var _ := process.Abort();
      return process.Value(), false;
    }
    ok := process.TransferAuthority();
    if !ok {
      var _ := process.Abort();
      return process.Value(), false;
    }
    state := process.Value();
  }

  // ---------- the child ----------

  /** The child's own side of activation: either everything it imported is active, or an error is
      reported and the streams, if they had been activated, were paused again. */
  datatype ChildCall = ActivateStreams(ok: bool) | ActivatePackets(ok: bool) | PauseAgain(ok: bool)

  predicate ChildStreamsActive(t: seq<ChildCall>) {
    t != [] && match t[|t| - 1]
      case ActivateStreams(ok) => ok         // a failed activation rolls itself back
      case PauseAgain(ok) => !ok
      case ActivatePackets(_) => ChildStreamsActive(t[..|t| - 1])
  }

  method ActivateChildResources(streamsOk: bool, packetsOk: bool, pauseOk: bool)
    returns (t: seq<ChildCall>, ok: bool)
    ensures ok <==> ActivateStreams(true) in t && ActivatePackets(true) in t
    ensures ok ==> ChildStreamsActive(t)
    ensures !ok ==> (ChildStreamsActive(t) <==> PauseAgain(false) in t)
    ensures PauseAgain(pauseOk) in t <==> streamsOk && !packetsOk
  {
    t := [ActivateStreams(streamsOk)];
    if !streamsOk {
      return t, false;
    }
    t := t + [ActivatePackets(packetsOk)];
    assert t[..1] == [ActivateStreams(true)];
    if !packetsOk {
      t := t + [PauseAgain(pauseOk)];
      return t, false;
    }
    ok := true;
  }
}

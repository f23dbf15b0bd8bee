/** The stream adapter over managed network operations. Every operation may fail before it is dispatched, or
    after, when what the host did is unknown; a direction in that state is never used again. */
module ManagedStream {
  import opened Sequences
  import opened Binary
  import opened Strings
  import opened ManagedNetwork

  /** What one attempt meets: cancellation before anything was sent, a failure after, or a response. */
  datatype Reply = NotSent | Lost | Answered(response: Response)

  datatype Failure = NoError | EndOfFile | Closed | Uncertain | Broken

  /** One dispatched operation and how it ended. `ok` means a valid response came back. */
  datatype Call = Call(request: Request, ok: bool, response: Response)

  /** The host's side of the stream, and what it answers. Each direction keeps the bytes it has settled:
      those acknowledged as written, and those handed out in valid read responses. */
  class Host {
    const replies: nat -> Reply
    const ids: nat -> string
    var attempts: nat
    ghost var readLog: seq<Call>
    ghost var writeLog: seq<Call>
    ghost var accepted: Bytes
    ghost var delivered: Bytes

    constructor (replies: nat -> Reply, ids: nat -> string)
      ensures attempts == 0 && readLog == [] && writeLog == [] && accepted == [] && delivered == []
    {
      this.replies, this.ids := replies, ids;
      attempts, readLog, writeLog, accepted, delivered := 0, [], [], [], [];
    }

    /** Runs one operation. An invalid response is a failure after dispatch. */
    method Dispatch(q: Request) returns (ok: bool, dispatched: bool, response: Response)
      requires q.action.Read? || q.action.Write?
      modifies this
      ensures attempts == old(attempts) + 1
      ensures dispatched <==> !replies(old(attempts)).NotSent?
      ensures ok <==> replies(old(attempts)).Answered? && ValidFor(replies(old(attempts)).response, q)
      ensures ok ==> response == replies(old(attempts)).response
      ensures readLog == if q.action.Read? && dispatched then old(readLog) + [Call(q, ok, response)] else old(readLog)
      ensures writeLog == if q.action.Write? && dispatched then old(writeLog) + [Call(q, ok, response)] else old(writeLog)
      ensures delivered == old(delivered) + (if ok && q.action.Read? then response.data else [])
      ensures accepted == old(accepted) + (if ok && q.action.Write? then q.data[..response.written] else [])
    {
      hide Remaining, ValidRequest;
      var reply := replies(attempts);
      attempts := attempts + 1;
      ok, dispatched, response := false, !reply.NotSent?, Response(None, None, [], false, false, 0, false);
      if reply.Answered? {
        response := reply.response;
        ok := ValidFor(response, q);
      }
      if dispatched {
        if q.action.Read? {
          readLog := readLog + [Call(q, ok, response)];
          delivered := delivered + if ok then response.data else [];
        } else {
          if ok {
            WriteAnswers(response, q);
          }
          writeLog := writeLog + [Call(q, ok, response)];
          accepted := accepted + if ok then q.data[..response.written] else [];
        }
      }
    }
  }

  /** How many bytes one operation may carry. */
  function Chunk(size: nat): nat {
    if size < MAX_CHUNK then size else MAX_CHUNK
  }

  /** A reply that answers a read of this size. */
  predicate ReadReply(reply: Reply, size: nat) {
    reply.Answered? &&
    var r := reply.response;
    && |r.data| <= Chunk(size) && (r.idle <==> r.data == [] && !r.eof)
    && r == Response(None, None, r.data, r.eof, r.idle, 0, false)
  }

  /** A reply that answers a write of this size. */
  predicate WriteReply(reply: Reply, size: nat) {
    reply.Answered? &&
    var r := reply.response;
    1 <= r.written <= Chunk(size) && r == Response(None, None, [], false, false, r.written, false)
  }

  /** Everything but the last call succeeded: nothing was sent after a failure. */
  ghost predicate StopsAtFailure(calls: seq<Call>) {
    forall i :: 0 <= i < |calls| - 1 ==> calls[i].ok
  }

  ghost predicate EndsInFailure(calls: seq<Call>) {
    calls != [] && !calls[|calls| - 1].ok
  }

  lemma LogAppend(calls: seq<Call>, c: Call)
    requires StopsAtFailure(calls) && !EndsInFailure(calls)
    ensures StopsAtFailure(calls + [c]) && (EndsInFailure(calls + [c]) <==> !c.ok)
  {
  }

  /** The adapter's own reads and writes are well formed. */
  lemma StreamRequestsAreValid(h: Handle, id: string, size: nat, data: Bytes)
    requires StreamHandle(h) && PolicyIdentity(id)
    ensures size > 0 ==> ValidRequest(StreamRequest(h, Action.Read, id).(maxBytes := Chunk(size)))
    ensures 0 < |data| <= MAX_CHUNK ==> ValidRequest(StreamRequest(h, Action.Write, id).(data := data))
  {
    hide PolicyIdentity;
    StreamRequestsAre(StreamRequest(h, Action.Read, id).(maxBytes := Chunk(size)));
    StreamRequestsAre(StreamRequest(h, Action.Write, id).(data := data));
  }

  class TcpStream {
    const host: Host
    const handle: Handle
    var closed: bool
    var readClosed: bool
    var writeClosed: bool
    var readEOF: bool
    var readUncertain: bool
    var writeUncertain: bool

    /** Over every sequence of operations: a direction is uncertain exactly when its last dispatched operation
        failed, and none followed it. */
    ghost predicate Valid()
      reads this, host
    {
      && StreamHandle(handle) && (forall k :: PolicyIdentity(host.ids(k)))
      && StopsAtFailure(host.readLog) && (readUncertain <==> EndsInFailure(host.readLog))
      && StopsAtFailure(host.writeLog) && (writeUncertain <==> EndsInFailure(host.writeLog))
    }

    constructor (host: Host, handle: Handle)
      requires StreamHandle(handle) && host.readLog == [] && host.writeLog == []
      requires forall k :: PolicyIdentity(host.ids(k))
      ensures Valid() && this.host == host && this.handle == handle
      ensures !closed && !readClosed && !writeClosed && !readEOF
    {
      this.host, this.handle := host, handle;
      closed, readClosed, writeClosed, readEOF, readUncertain, writeUncertain := false, false, false, false, false, false;
    }

    function NewRequest(a: Action): Request
      reads host
    {
      StreamRequest(handle, a, host.ids(host.attempts))
    }

    /** One read operation. Afterwards the direction is uncertain exactly if the operation was dispatched
        and failed. */
    method ReadOnce(size: nat) returns (ok: bool, response: Response)
      requires Valid() && !readUncertain && size > 0
      modifies this`readUncertain, host
      ensures Valid() && (ok ==> !readUncertain)
      ensures host.attempts == old(host.attempts) + 1
      ensures ok <==> ReadReply(host.replies(old(host.attempts)), size)
      ensures ok ==> response == host.replies(old(host.attempts)).response
      ensures host.delivered == old(host.delivered) + (if ok then response.data else [])
      ensures host.accepted == old(host.accepted) && host.writeLog == old(host.writeLog)
      ensures old(host.readLog) <= host.readLog && (ok ==> |host.readLog| == |old(host.readLog)| + 1)
    {
      hide ValidFor, ValidRequest, StreamHandle, StopsAtFailure, EndsInFailure, PolicyIdentity;
      var request := NewRequest(Action.Read).(maxBytes := Chunk(size));
      StreamRequestsAreValid(handle, host.ids(host.attempts), size, []);
      ghost var reply := host.replies(host.attempts);
      if reply.Answered? {
        ReadAnswers(reply.response, request);
      }
      var dispatched;
      ghost var before := host.readLog;
      ok, dispatched, response := host.Dispatch(request);
      LogAppend(before, Call(request, ok, response));
      readUncertain := dispatched && !ok;
    }

    /** This reply says that there is nothing to read yet. */
    predicate IdleAt(k: nat, size: nat) {
      ReadReply(host.replies(k), size) && host.replies(k).response.idle
    }

    /** Reads some bytes: exactly those the host handed out for this call. `polls` is how many idle polls the
        caller's context allows before it cancels. The first reply that is not idle decides: its bytes are returned, with
        the end if it says so, and a reply that does not answer a read fails the call. */
    method Read(size: nat, polls: nat) returns (out: Bytes, err: Failure)
      requires Valid()
      modifies this`readEOF, this`readUncertain, host
      ensures Valid()
      ensures |out| <= size
      ensures host.delivered == old(host.delivered) + out && host.accepted == old(host.accepted)
      ensures host.writeLog == old(host.writeLog) && old(host.readLog) <= host.readLog
      ensures old(readUncertain) ==> readUncertain && host.readLog == old(host.readLog) && out == [] && err != NoError
      ensures err.NoError? && size > 0 ==> out != []
      ensures err.Closed? <==> closed || readClosed
      ensures err.Uncertain? <==> !(closed || readClosed) && old(readUncertain)
      ensures !(closed || readClosed || old(readUncertain)) && (size == 0 || old(readEOF)) ==>
                out == [] && host.attempts == old(host.attempts) && err == if size == 0 then NoError else EndOfFile
      ensures !(closed || readClosed || old(readUncertain || readEOF)) && size > 0 ==>
                && old(host.attempts) <= host.attempts <= old(host.attempts) + polls
                && (forall k :: old(host.attempts) <= k < host.attempts - 1 ==> IdleAt(k, size))
                && if polls == 0 then out == [] && err.Broken?
                   else
                     var last := host.attempts - 1;
                     && old(host.attempts) <= last
                     && if IdleAt(last, size) then last + 1 == old(host.attempts) + polls && out == [] && err.Broken?
                        else if !ReadReply(host.replies(last), size) then out == [] && err.Broken?
                        else
                          && out == host.replies(last).response.data
                          && err == if host.replies(last).response.eof then EndOfFile else NoError
      ensures readEOF <==> old(readEOF) || (err.EndOfFile? && host.readLog != old(host.readLog))
    {
      hide StreamHandle, StopsAtFailure, EndsInFailure, PolicyIdentity;
      out := [];
      if closed || readClosed {
        return [], Closed;
      }
      if readUncertain {
        return [], Uncertain;
      }
      if size == 0 {
        return [], NoError;
      }
      if readEOF {
        return [], EndOfFile;
      }
      var left := polls;
      while left > 0
        invariant Valid() && !readUncertain && readEOF == old(readEOF)
        invariant host.delivered == old(host.delivered) && host.accepted == old(host.accepted)
        invariant host.writeLog == old(host.writeLog) && old(host.readLog) <= host.readLog
        invariant host.attempts == old(host.attempts) + polls - left
        invariant forall k :: old(host.attempts) <= k < host.attempts ==> IdleAt(k, size)
        decreases left
      {
        left := left - 1;
        var ok, response := ReadOnce(size);
        if !ok {
          return [], Broken;
        }
        if response.idle {
          continue;
        }
        out := response.data;
        if response.eof {
          readEOF := true;
          return out, EndOfFile;
        }
        return out, NoError;
      }
      err := Broken;
    }

    /** One write operation of at most a chunk. */
    method WriteOnce(value: Bytes, total: nat) returns (ok: bool, written: nat)
      requires Valid() && !writeUncertain && total < |value|
      modifies this`writeUncertain, host
      ensures Valid() && (ok ==> !writeUncertain)
      ensures host.attempts == old(host.attempts) + 1
      ensures ok <==> WriteReply(host.replies(old(host.attempts)), |value| - total)
      ensures ok ==> written == host.replies(old(host.attempts)).response.written && 1 <= written <= |value| - total
      ensures host.accepted == old(host.accepted) + (if ok then value[total..total + written] else [])
      ensures host.delivered == old(host.delivered) && host.readLog == old(host.readLog)
      ensures old(host.writeLog) <= host.writeLog
      ensures Acknowledged(host.writeLog) == Acknowledged(old(host.writeLog)) + (if ok then written else 0)
    {
      hide ValidFor, ValidRequest, StreamHandle, StopsAtFailure, EndsInFailure, PolicyIdentity;
      var request := NewRequest(Action.Write).(data := value[total..total + Chunk(|value| - total)]);
      StreamRequestsAreValid(handle, host.ids(host.attempts), 0, request.data);
      ghost var reply := host.replies(host.attempts);
      if reply.Answered? {
        WriteAnswers(reply.response, request);
      }
      ghost var before := host.writeLog;
      var dispatched, response;
      ok, dispatched, response := host.Dispatch(request);
      LogAppend(before, Call(request, ok, response));
      AcknowledgedAppend(before, Call(request, ok, response));
      writeUncertain := dispatched && !ok;
      written := 0;
      if ok {
        written := response.written;
        assert request.data[..written] == value[total..total + written];
      }
    }

    /** Writes bytes until all are acknowledged or an operation fails. The count returned is exactly what the
        host acknowledged, a prefix of the input; and the loop ends, because every acknowledgement covers
        at least one byte. */
    method Write(value: Bytes) returns (total: nat, err: Failure)
      requires Valid()
      modifies this`writeUncertain, host
      ensures Valid()
      ensures total <= |value|
      ensures host.accepted == old(host.accepted) + value[..total] && host.delivered == old(host.delivered)
      ensures host.readLog == old(host.readLog) && old(host.writeLog) <= host.writeLog
      ensures old(writeUncertain) ==> writeUncertain && host.writeLog == old(host.writeLog) && total == 0 && err != NoError
      ensures err.NoError? <==> total == |value| && !old(closed || writeClosed || writeUncertain)
      ensures err.Closed? <==> closed || writeClosed
      ensures err.Uncertain? <==> !(closed || writeClosed) && old(writeUncertain)
      ensures err.NoError? || err.Closed? || err.Uncertain? || err.Broken?
      ensures err.Broken? ==>
                && host.attempts > old(host.attempts) && total < |value|
                && !WriteReply(host.replies(host.attempts - 1), |value| - total)
      ensures total == Acknowledged(host.writeLog) - Acknowledged(old(host.writeLog))
    {
      hide StreamHandle, StopsAtFailure, EndsInFailure, Acknowledged, PolicyIdentity;
      total := 0;
      if closed || writeClosed {
        return 0, Closed;
      }
      if writeUncertain {
        return 0, Uncertain;
      }
      while total < |value|
        invariant Valid() && !writeUncertain
        invariant total <= |value|
        invariant host.accepted == old(host.accepted) + value[..total] && host.delivered == old(host.delivered)
        invariant host.readLog == old(host.readLog) && old(host.writeLog) <= host.writeLog
        invariant host.attempts >= old(host.attempts)
        invariant total == Acknowledged(host.writeLog) - Acknowledged(old(host.writeLog))
        decreases |value| - total
      {
        var ok, written := WriteOnce(value, total);
        if !ok {
          return total, Broken;
        }
        assert value[..total + written] == value[..total] + value[total..total + written];
        total := total + written;
      }
      assert value[..total] == value;
      err := NoError;
    }

    /** Half-closing one direction leaves the other usable. */
    method HalfClose(read: bool, done: bool) returns (err: Failure)
      requires Valid()
      modifies this`readClosed, this`writeClosed
      ensures Valid()
      ensures err.NoError? <==> done && !closed
      ensures readClosed == (old(readClosed) || (err.NoError? && read))
      ensures writeClosed == (old(writeClosed) || (err.NoError? && !read))
    {
      if closed {
        return Closed;
      }
      if !done {
        return Broken;
      }
      if read {
        readClosed := true;
      } else {
        writeClosed := true;
      }
      err := NoError;
    }

    method Close()
      requires Valid()
      modifies this`closed
      ensures Valid() && closed
    {
      closed := true;
    }
  }

  /** The bytes acknowledged by the calls that succeeded. */
  function Acknowledged(calls: seq<Call>): int {
    if calls == [] then 0
    else Acknowledged(calls[..|calls| - 1])
         + (if calls[|calls| - 1].ok then calls[|calls| - 1].response.written else 0)
  }

  lemma AcknowledgedAppend(calls: seq<Call>, c: Call)
    ensures Acknowledged(calls + [c]) == Acknowledged(calls) + if c.ok then c.response.written else 0
  {
    assert (calls + [c])[..|calls|] == calls;
  }

  // ---------- any sequence of operations ----------

  datatype Operation =
    | ReadOp(size: nat, polls: nat) | WriteOp(value: Bytes) | HalfCloseOp(read: bool, done: bool) | CloseOp

  function Asked(op: Operation): Bytes {
    if op.WriteOp? then op.value else []
  }

  /** Each operation was told how many of its bytes were written, never more than it asked for. */
  predicate Counted(ops: seq<Operation>, totals: seq<nat>) {
    |totals| == |ops| && forall i :: 0 <= i < |ops| ==> totals[i] <= |Asked(ops[i])|
  }

  /** The bytes those counts stand for, in order. */
  function Sent(ops: seq<Operation>, totals: seq<nat>): Bytes
    requires Counted(ops, totals)
  {
    if ops == [] then []
    else
      var n := |ops| - 1;
      Sent(ops[..n], totals[..n]) + Asked(ops[n])[..totals[n]]
  }

  lemma SentMore(ops: seq<Operation>, totals: seq<nat>, op: Operation, total: nat)
    requires Counted(ops, totals) && total <= |Asked(op)|
    ensures Counted(ops + [op], totals + [total])
    ensures Sent(ops + [op], totals + [total]) == Sent(ops, totals) + Asked(op)[..total]
  {
    assert (ops + [op])[..|ops|] == ops && (totals + [total])[..|ops|] == totals;
  }

  /** Whatever the caller does in whatever order, every byte the host handed out reached the caller in order,
      every byte the host accepted was asked for and counted, and a direction that failed after dispatch
      sends nothing more. */
  method UseStream(stream: TcpStream, ops: seq<Operation>) returns (received: Bytes, totals: seq<nat>)
    requires stream.Valid()
    modifies stream, stream.host
    ensures stream.Valid()
    ensures stream.host.delivered == old(stream.host.delivered) + received
    ensures Counted(ops, totals) && stream.host.accepted == old(stream.host.accepted) + Sent(ops, totals)
    ensures old(stream.readUncertain) ==> stream.host.readLog == old(stream.host.readLog)
    ensures old(stream.writeUncertain) ==> stream.host.writeLog == old(stream.host.writeLog)
  {
    hide StreamHandle, StopsAtFailure, EndsInFailure, Acknowledged, Counted, Sent;
    received, totals := [], [];
    NothingSent();
    for i := 0 to |ops|
      invariant stream.Valid()
      invariant stream.host.delivered == old(stream.host.delivered) + received
      invariant Counted(ops[..i], totals) && stream.host.accepted == old(stream.host.accepted) + Sent(ops[..i], totals)
      invariant old(stream.readUncertain) ==> stream.readUncertain && stream.host.readLog == old(stream.host.readLog)
      invariant old(stream.writeUncertain) ==> stream.writeUncertain && stream.host.writeLog == old(stream.host.writeLog)
    {
      var total := 0;
      match ops[i] {
        case ReadOp(size, polls) =>
          var out, err := stream.Read(size, polls);
          received := received + out;
        case WriteOp(value) =>
          var err;
          total, err := stream.Write(value);
        case HalfCloseOp(read, done) =>
          var err := stream.HalfClose(read, done);
        case CloseOp =>
          stream.Close();
      }
      SentMore(ops[..i], totals, ops[i], total);
      assert ops[..i + 1] == ops[..i] + [ops[i]];
      totals := totals + [total];
    }
    assert ops[..|ops|] == ops;
  }

  lemma NothingSent()
    ensures Counted([], []) && Sent([], []) == []
  {
  }
}

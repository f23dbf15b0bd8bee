/** The contract of one managed network operation: which requests are well formed and which responses answer
    them. The stream adapter's loops rest on it. */
module ManagedNetwork {
  import opened Sequences
  import opened Binary
  import opened Strings

  const MAX_CHUNK := 0x1_0000
  const MAX_DATAGRAM := 65507
  const MAX_WAIT := 30000
  const MAX_FLOWS := 4096
  const MAX_IDLE := 300000

  datatype Binding = Binding(instance: string, generation: string, entry: string)

  datatype Kind = Listener | Stream | Datagram

  datatype Protocol = Tcp | Udp | NoProtocol | OtherProtocol(text: string)

  datatype Handle = Handle(binding: Binding, token: string, kind: Kind, protocol: Protocol)

  /** A host as it parses: an address with the properties that matter, or a name. */
  datatype Host = Address(zoned: bool, multicast: bool, unspecified: bool) | Name(text: string)

  datatype Endpoint = Endpoint(host: Host, port: int)

  datatype Action = Listen | Accept | Dial | Read | Write | HalfClose | Receive | Send | Cancel | Close | NoAction

  datatype Direction = NoDirection | ReadSide | WriteSide | OtherSide(text: string)

  datatype Request = Request(
    action: Action, binding: Binding, id: string, handle: Option<Handle>, endpoint: Option<Endpoint>,
    protocol: Protocol, maxBytes: int, data: Bytes, wait: int, maxFlows: int, idle: int,
    direction: Direction, target: string)

  predicate ValidBinding(b: Binding) {
    PolicyIdentity(b.instance) && PolicyIdentity(b.generation) && PolicyIdentity(b.entry)
  }

  predicate TokenChar(c: char) {
    'a' <= c <= 'z' || 'A' <= c <= 'Z' || '0' <= c <= '9' || c == '-' || c == '_'
  }

  predicate ValidHandle(h: Handle) {
    && ValidBinding(h.binding)
    && 22 <= |h.token| <= 128 && (forall i :: 0 <= i < |h.token| ==> TokenChar(h.token[i]))
    && (h.protocol.Tcp? || h.protocol.Udp?)
    && (h.kind.Stream? ==> h.protocol.Tcp?) && (h.kind.Datagram? ==> h.protocol.Udp?)
  }

  predicate LabelChar(c: char) {
    'a' <= c <= 'z' || 'A' <= c <= 'Z' || '0' <= c <= '9' || c == '-'
  }

  /** The labels of a host name, from position `from` of the current one. */
  predicate LabelsOk(s: string, at: nat, from: nat)
    requires from <= at <= |s|
    decreases |s| - at
  {
    if at == |s| || s[at] == '.' then
      && 0 < at - from <= 63 && s[from] != '-' && s[at - 1] != '-'
      && (at == |s| || LabelsOk(s, at + 1, at + 1))
    else LabelChar(s[at]) && LabelsOk(s, at + 1, from)
  }

  predicate ValidEndpoint(e: Endpoint, listen: bool) {
    && 1 <= e.port <= 65535
    && match e.host
       case Address(zoned, multicast, unspecified) => !zoned && !multicast && (listen || !unspecified)
       case Name(text) => !listen && 1 <= |text| <= 253 && LabelsOk(text, 0, 0)
  }

  // ---------- requests ----------

  /** The request without what identifies it. */
  function Options(r: Request): Request {
    r.(action := NoAction, binding := Binding("", "", ""), id := "")
  }

  predicate Bare(o: Request) {
    && o.handle.None? && o.endpoint.None? && o.protocol.NoProtocol? && o.maxBytes == 0 && o.data == [] && o.wait == 0
    && o.maxFlows == 0 && o.idle == 0 && o.direction.NoDirection? && o.target == ""
  }

  predicate OnHandle(a: Action) {
    a.Accept? || a.Read? || a.Write? || a.HalfClose? || a.Receive? || a.Send? || a.Close?
  }

  predicate Waits(a: Action) {
    !a.Close? && !a.Cancel? && !a.HalfClose? && !a.Listen?
  }

  /** Whether what the action needs is there, and the request with that taken away. */
  function Stripped(r: Request): Option<Request> {
    var o := Options(r);
    match r.action
    case Listen =>
      if r.handle.Some? || r.endpoint.None? || !(r.protocol.Tcp? || r.protocol.Udp?) || !ValidEndpoint(r.endpoint.value, true)
         || !(1 <= r.maxFlows <= MAX_FLOWS) || !(1 <= r.idle <= MAX_IDLE) then None
      else Some(o.(maxFlows := 0, idle := 0, endpoint := None, protocol := NoProtocol))
    case Dial =>
      if r.handle.Some? || r.endpoint.None? || !(r.protocol.Tcp? || r.protocol.Udp?) || !ValidEndpoint(r.endpoint.value, false)
         || (r.protocol.Udp? && !(1 <= r.idle <= MAX_IDLE)) then None
      else Some(o.(endpoint := None, protocol := NoProtocol, idle := if r.protocol.Udp? then 0 else o.idle))
    case Accept => if r.handle.None? || !r.handle.value.kind.Listener? then None else Some(o.(handle := None))
    case Read =>
      if r.handle.None? || !r.handle.value.kind.Stream? || !(1 <= r.maxBytes <= MAX_CHUNK) then None
      else Some(o.(handle := None, maxBytes := 0))
    case Write =>
      if r.handle.None? || !r.handle.value.kind.Stream? || !(1 <= |r.data| <= MAX_CHUNK) then None
      else Some(o.(handle := None, data := []))
    case HalfClose =>
      if r.handle.None? || !r.handle.value.kind.Stream? || !(r.direction.ReadSide? || r.direction.WriteSide?) then None
      else Some(o.(handle := None, direction := NoDirection))
    case Receive =>
      if r.handle.None? || !r.handle.value.kind.Datagram? || r.maxBytes != MAX_DATAGRAM then None
      else Some(o.(handle := None, maxBytes := 0))
    case Send =>
      if r.handle.None? || !r.handle.value.kind.Datagram? || |r.data| > MAX_DATAGRAM then None
      else Some(o.(handle := None, data := []))
    case Close => if r.handle.None? then None else Some(o.(handle := None))
    case Cancel => if !PolicyIdentity(r.target) || r.target == r.id then None else Some(o.(target := ""))
    case NoAction => None
  }

  predicate ValidRequest(r: Request) {
    && ValidBinding(r.binding) && PolicyIdentity(r.id)
    && (r.handle.Some? ==> ValidHandle(r.handle.value) && r.handle.value.binding == r.binding)
    && var stripped := Stripped(r);
       && stripped.Some?
       && (Waits(r.action) ==> 1 <= r.wait <= MAX_WAIT)
       && Bare(if Waits(r.action) then stripped.value.(wait := 0) else stripped.value)
  }

  /** A request as the adapter builds them. */
  function StreamRequest(h: Handle, a: Action, id: string): Request {
    Request(a, h.binding, id, Some(h), None, NoProtocol, 0, [], MAX_WAIT, 0, 0, NoDirection, "")
  }

  predicate StreamHandle(h: Handle) {
    ValidHandle(h) && h.kind.Stream?
  }

  /** A valid read or write says how much, for how long, of which stream, and nothing else. */
  lemma StreamRequestsAre(r: Request)
    requires r.action.Read? || r.action.Write?
    ensures ValidRequest(r) <==>
              && r.handle.Some? && StreamHandle(r.handle.value) && PolicyIdentity(r.id) && 1 <= r.wait <= MAX_WAIT
              && r == StreamRequest(r.handle.value, r.action, r.id).(wait := r.wait, maxBytes := r.maxBytes, data := r.data)
              && (r.action.Read? ==> 1 <= r.maxBytes <= MAX_CHUNK && r.data == [])
              && (r.action.Write? ==> 1 <= |r.data| <= MAX_CHUNK && r.maxBytes == 0)
  {
    hide PolicyIdentity, TokenChar;
  }

  // ---------- responses ----------

  datatype Source = Source(valid: bool)

  datatype Response = Response(
    handle: Option<Handle>, source: Option<Source>, data: Bytes, eof: bool, idle: bool, written: int, done: bool)

  predicate Empty(r: Response) {
    r.handle.None? && r.source.None? && r.data == [] && !r.eof && !r.idle && r.written == 0 && !r.done
  }

  function Opened(r: Request): (Kind, Protocol) {
    var protocol := if r.action.Accept? && r.handle.Some? then r.handle.value.protocol else r.protocol;
    (if r.action.Listen? then Listener else if protocol.Udp? then Datagram else Stream, protocol)
  }

  /** Whether the response does what the action asked, and what else it says. */
  function Remaining(r: Response, q: Request): Option<Response> {
    match q.action
    case Read =>
      if |r.data| > q.maxBytes || (r.data == [] && !r.eof && !r.idle) || (r.idle && (r.data != [] || r.eof)) then None
      else Some(r.(data := [], eof := false, idle := false))
    case Receive => if |r.data| > MAX_DATAGRAM then None else Some(r.(data := []))
    case Write => if r.written <= 0 || r.written > |q.data| then None else Some(r.(written := 0))
    case Send => if r.written != |q.data| then None else Some(r.(written := 0))
    case Close => if !r.done then None else Some(r.(done := false))
    case HalfClose => if !r.done then None else Some(r.(done := false))
    case Cancel => if !r.done then None else Some(r.(done := false))
    case NoAction => Some(r)
    case _ =>
      if r.handle.None? || !ValidHandle(r.handle.value) || r.handle.value.binding != q.binding
         || (r.handle.value.kind, r.handle.value.protocol) != Opened(q) then None
      else if !q.action.Accept? then Some(r.(handle := None))
      else if r.source.None? || !r.source.value.valid || (q.handle.Some? && r.handle.value.token == q.handle.value.token) then None
      else Some(r.(handle := None, source := None))
  }

  predicate ValidFor(r: Response, q: Request) {
    ValidRequest(q) && Remaining(r, q).Some? && Empty(Remaining(r, q).value)
  }

  /** What answers a read, and nothing else does: bytes within the bound, the end, both, or an explicit idle result,
      which has neither. */
  lemma ReadAnswers(r: Response, q: Request)
    requires q.action.Read?
    ensures ValidFor(r, q) <==>
              && ValidRequest(q) && |r.data| <= q.maxBytes && (r.idle <==> r.data == [] && !r.eof)
              && r == Response(None, None, r.data, r.eof, r.idle, 0, false)
  {
    hide ValidRequest;
  }

  /** What answers a write, and nothing else does: a count of at least one byte of what was sent, and at most all of it. */
  lemma WriteAnswers(r: Response, q: Request)
    requires q.action.Write?
    ensures ValidFor(r, q) <==>
              && ValidRequest(q) && 1 <= r.written <= |q.data|
              && r == Response(None, None, [], false, false, r.written, false)
  {
    hide ValidRequest;
  }

  /** What opens a flow: a handle of the instance that asked, of the kind and protocol it asked for; an accepted one comes
      with a valid source, and is not the listener it was accepted on. */
  lemma OpeningAnswers(r: Response, q: Request)
    requires q.action.Listen? || q.action.Dial? || q.action.Accept?
    ensures ValidFor(r, q) <==>
              && ValidRequest(q) && r.handle.Some? && ValidHandle(r.handle.value)
              && var h := r.handle.value;
              && h.binding == q.binding
              && h.kind == (if q.action.Listen? then Kind.Listener else if h.protocol.Udp? then Datagram else Stream)
              && h.protocol == (if q.action.Accept? then q.handle.value.protocol else q.protocol)
              && (if q.action.Accept? then r.source.Some? && r.source.value.valid && h.token != q.handle.value.token
                  else r.source.None?)
              && r == Response(r.handle, r.source, [], false, false, 0, false)
  {
    hide PolicyIdentity, TokenChar, ValidBinding, ValidHandle, ValidEndpoint, LabelsOk;
  }

  /** What answers a datagram: all of it was sent, or one of at most the largest size was received. */
  lemma DatagramAnswers(r: Response, q: Request)
    requires q.action.Send? || q.action.Receive?
    ensures ValidFor(r, q) <==>
              && ValidRequest(q)
              && if q.action.Send? then r == Response(None, None, [], false, false, |q.data|, false)
                 else |r.data| <= MAX_DATAGRAM && r == Response(None, None, r.data, false, false, 0, false)
  {
    hide ValidRequest;
  }

  /** What ends something says that it is done, and nothing else. */
  lemma ClosingAnswers(r: Response, q: Request)
    requires q.action.Close? || q.action.HalfClose? || q.action.Cancel?
    ensures ValidFor(r, q) <==> ValidRequest(q) && r == Response(None, None, [], false, false, 0, true)
  {
    hide ValidRequest;
  }
}

/** The frames of a policy's dataset queries: printing a request or a response, and reading one back. */
module DatasetCodec {
  import opened Sequences
  import opened Binary
  import opened ProtobufWire
  import opened WireResults
  import opened ExtensionWire
  import opened MessageCodec
  import opened Datasets
  import Utf8

  const MAX_INPUT_FRAME := 0x2_0000
  const MAX_OUTPUT_FRAME := 0x1000

  // ---------- enums ----------

  datatype Status = QueryOk | Unavailable | MissingClassification | BudgetExceeded | Unauthorized | StaleReference | InvalidData

  datatype Coverage = Covered | UnknownCoverage | UnsupportedFamily

  function KindOf(n: nat): Option<Datasets.Kind> {
    if n == 1 then Some(Country) else if n == 2 then Some(Region) else if n == 3 then Some(Cidr) else None
  }

  function StatusOf(n: nat): Option<Status> {
    if n == 1 then Some(QueryOk)
    else if n == 2 then Some(Unavailable)
    else if n == 3 then Some(MissingClassification)
    else if n == 4 then Some(BudgetExceeded)
    else if n == 5 then Some(Unauthorized)
    else if n == 6 then Some(StaleReference)
    else if n == 7 then Some(InvalidData)
    else None
  }

  function CoverageOf(n: nat): Option<Coverage> {
    if n == 1 then Some(Covered) else if n == 2 then Some(UnknownCoverage) else if n == 3 then Some(UnsupportedFamily) else None
  }

  /** The least number from `n` up to `last` that stands for `x`, or 0. */
  function NumberFor<T(==)>(of: nat -> Option<T>, x: T, n: nat, last: nat): nat
    decreases last + 1 - n
  {
    if n > last then 0 else if of(n) == Some(x) then n else NumberFor(of, x, n + 1, last)
  }

  function KindNumber(k: Datasets.Kind): nat {
    NumberFor(KindOf, k, 1, 3)
  }

  function StatusNumber(s: Status): nat {
    NumberFor(StatusOf, s, 1, 7)
  }

  function CoverageNumber(c: Coverage): nat {
    NumberFor(CoverageOf, c, 1, 3)
  }

  /** The search a number is found by. */
  method FindNumber<T(==)>(of: nat -> Option<T>, x: T, last: nat) returns (n: nat)
    ensures n == NumberFor(of, x, 1, last)
  {
    n := 1;
    while n <= last
      invariant 1 <= n <= last + 1
      invariant NumberFor(of, x, 1, last) == NumberFor(of, x, n, last)
    {
      if of(n) == Some(x) {
        return;
      }
      n := n + 1;
    }
    n := 0;
  }

  /** The search finds the first number that stands for `x`, if one does. */
  lemma {:induction false} NumberForFinds<T>(of: nat -> Option<T>, x: T, n: nat, last: nat)
    ensures
      var r := NumberFor(of, x, n, last);
      || (n <= r <= last && of(r) == Some(x) && forall i :: n <= i < r ==> of(i) != Some(x))
      || (r == 0 && forall i :: n <= i <= last ==> of(i) != Some(x))
    decreases last + 1 - n
  {
    if n <= last && of(n) != Some(x) {
      NumberForFinds(of, x, n + 1, last);
    }
  }

  lemma KindBijection(k: Datasets.Kind, n: nat)
    ensures KindOf(KindNumber(k)) == (if k.Domain? then None else Some(k)) && KindNumber(k) <= 3
    ensures KindOf(n).Some? ==> KindNumber(KindOf(n).value) == n
  {
    NumberForFinds(KindOf, k, 1, 3);
    assert k.Domain? || KindOf(1) == Some(k) || KindOf(2) == Some(k) || KindOf(3) == Some(k);
    if KindOf(n).Some? {
      NumberForFinds(KindOf, KindOf(n).value, 1, 3);
    }
  }

  lemma StatusBijection(s: Status, n: nat)
    ensures StatusOf(StatusNumber(s)) == Some(s) && 1 <= StatusNumber(s) <= 7
    ensures StatusOf(n).Some? ==> StatusNumber(StatusOf(n).value) == n
  {
    NumberForFinds(StatusOf, s, 1, 7);
    StatusHasNumber(s);
    if StatusOf(n).Some? {
      NumberForFinds(StatusOf, StatusOf(n).value, 1, 7);
    }
  }

  lemma CoverageBijection(c: Coverage, n: nat)
    ensures CoverageOf(CoverageNumber(c)) == Some(c) && 1 <= CoverageNumber(c) <= 3
    ensures CoverageOf(n).Some? ==> CoverageNumber(CoverageOf(n).value) == n
  {
    NumberForFinds(CoverageOf, c, 1, 3);
    assert CoverageOf(1) == Some(c) || CoverageOf(2) == Some(c) || CoverageOf(3) == Some(c);
    if CoverageOf(n).Some? {
      NumberForFinds(CoverageOf, CoverageOf(n).value, 1, 3);
    }
  }

  /** The enumerations are bijections between their members and their non-zero numbers; only the domain
      kind, which these queries do not carry, has none. */
  lemma EnumsAreBijections(k: Datasets.Kind, s: Status, c: Coverage, n: nat)
    ensures KindOf(KindNumber(k)) == (if k.Domain? then None else Some(k)) && KindNumber(k) <= 3
    ensures StatusOf(StatusNumber(s)) == Some(s) && 1 <= StatusNumber(s) <= 7
    ensures CoverageOf(CoverageNumber(c)) == Some(c) && 1 <= CoverageNumber(c) <= 3
    ensures KindOf(n).Some? ==> KindNumber(KindOf(n).value) == n
    ensures StatusOf(n).Some? ==> StatusNumber(StatusOf(n).value) == n
    ensures CoverageOf(n).Some? ==> CoverageNumber(CoverageOf(n).value) == n
  {
    hide KindOf, KindNumber, StatusOf, StatusNumber, CoverageOf, CoverageNumber;
    KindBijection(k, n);
    StatusBijection(s, n);
    CoverageBijection(c, n);
  }

  /** The numbers are those of the interface definition. */
  lemma EnumNumbers()
    ensures KindNumber(Country) == 1 && KindNumber(Region) == 2 && KindNumber(Cidr) == 3
    ensures StatusNumber(QueryOk) == 1 && StatusNumber(Unavailable) == 2 && StatusNumber(MissingClassification) == 3
            && StatusNumber(BudgetExceeded) == 4 && StatusNumber(Unauthorized) == 5 && StatusNumber(StaleReference) == 6
            && StatusNumber(InvalidData) == 7
    ensures CoverageNumber(Covered) == 1 && CoverageNumber(UnknownCoverage) == 2 && CoverageNumber(UnsupportedFamily) == 3
  {
    hide KindNumber, StatusNumber, CoverageNumber;
    forall k, n: nat | KindOf(n) == Some(k) ensures KindNumber(k) == n { KindBijection(k, n); }
    forall s, n: nat | StatusOf(n) == Some(s) ensures StatusNumber(s) == n { StatusBijection(s, n); }
    forall c, n: nat | CoverageOf(n) == Some(c) ensures CoverageNumber(c) == n { CoverageBijection(c, n); }
    assert KindOf(1) == Some(Country) && KindOf(2) == Some(Region) && KindOf(3) == Some(Cidr);
    assert StatusOf(1) == Some(QueryOk) && StatusOf(2) == Some(Unavailable) && StatusOf(3) == Some(MissingClassification);
    assert StatusOf(4) == Some(BudgetExceeded) && StatusOf(5) == Some(Unauthorized) && StatusOf(6) == Some(StaleReference);
    assert StatusOf(7) == Some(InvalidData);
    assert CoverageOf(1) == Some(Covered) && CoverageOf(2) == Some(UnknownCoverage) && CoverageOf(3) == Some(UnsupportedFamily);
  }

  lemma StatusHasNumber(s: Status)
    ensures exists i: nat :: 1 <= i <= 7 && StatusOf(i) == Some(s)
  {
    var i: nat := match s
      case QueryOk => 1
      case Unavailable => 2
      case MissingClassification => 3
      case BudgetExceeded => 4
      case Unauthorized => 5
      case StaleReference => 6
      case InvalidData => 7;
    assert StatusOf(i) == Some(s);
  }

  // ---------- schemas ----------

  function Plain(k: ExtensionWire.Kind): FieldType {
    FieldType(k, false, None)
  }

  function Listed(k: ExtensionWire.Kind): FieldType {
    FieldType(k, true, None)
  }

  const REFERENCE := Schema(map[1 := Plain(StringKind), 2 := Plain(StringKind), 3 := Plain(StringKind),
                                4 := Plain(StringKind), 5 := Plain(StringKind)])
  const CLASSIFICATION := Schema(map[1 := Plain(StringKind), 2 := Plain(EnumKind({0, 1, 2, 3}))])
  const REQUEST := Schema(map[1 := Plain(MessageKind(REFERENCE)), 2 := Listed(MessageKind(CLASSIFICATION)),
                              3 := Plain(Uint32Kind), 4 := Plain(Uint32Kind)])
  const MATCH := Schema(map[1 := Plain(Uint32Kind), 2 := Plain(BoolKind), 3 := Plain(EnumKind({0, 1, 2, 3}))])
  const RESPONSE := Schema(map[1 := Plain(MessageKind(REFERENCE)), 2 := Plain(EnumKind({0, 1, 2, 3, 4, 5, 6, 7})),
                               3 := Listed(MessageKind(MATCH))])

  // ---------- requests and responses ----------

  datatype Request = Request(reference: Reference, classifications: seq<Classification>, micros: nat, responseBytes: nat)

  predicate ValidRequest(r: Request) {
    && ValidReference(r.reference)
    && 1 <= r.micros <= MAX_MICROS && 1 <= r.responseBytes <= MAX_RESPONSE_BYTES && r.responseBytes <= MAX_OUTPUT_FRAME
    && 1 <= |r.classifications| <= MAX_CLASSIFICATIONS
    && (forall i :: 0 <= i < |r.classifications| ==>
         && ValidClassification(r.classifications[i])
         && !r.classifications[i].kind.Domain? && r.classifications[i].attributes == [])
    && (forall i, j :: 0 <= i < j < |r.classifications| ==> Key(r.classifications[i]) != Key(r.classifications[j]))
  }

  datatype Match = Match(index: nat, matched: bool, coverage: Coverage)

  datatype Response = Response(reference: Reference, status: Status, matches: seq<Match>)

  predicate ValidMatch(m: Match) {
    m.index < MAX_CLASSIFICATIONS && (m.matched ==> m.coverage.Covered?)
  }

  /** The response answers exactly what was asked, in order, or nothing at all. */
  predicate ValidResponse(r: Response, q: Request) {
    && ValidRequest(q) && ValidReference(r.reference) && r.reference == q.reference
    && (if r.status.QueryOk? then |r.matches| == |q.classifications| else r.matches == [])
    && forall i :: 0 <= i < |r.matches| ==> ValidMatch(r.matches[i]) && r.matches[i].index == i
  }

  /** A request asks for one to 64 named countries, regions or networks, each at most once, within its time and within the
      room for an answer. */
  lemma ValidRequestIff(r: Request)
    ensures ValidRequest(r) <==>
              && ValidReference(r.reference) && 1 <= r.micros <= 2000 && 1 <= r.responseBytes <= 4096
              && 1 <= |r.classifications| <= 64
              && (forall i :: 0 <= i < |r.classifications| ==> Plainly(r.classifications[i]))
              && forall i, j :: 0 <= i < j < |r.classifications| ==> Differ(r.classifications[i], r.classifications[j])
  {
    hide ValidReference, Key, ValidName;
    if forall i :: 0 <= i < |r.classifications| ==> Plainly(r.classifications[i]) {
      forall i, j | 0 <= i < j < |r.classifications|
        ensures Key(r.classifications[i]) != Key(r.classifications[j]) <==> Differ(r.classifications[i], r.classifications[j])
      {
        KeyIsCanonical(r.classifications[i], r.classifications[j]);
      }
    }
  }

  predicate Plainly(c: Classification) {
    ValidName(c.name) && c.kind in {Country, Region, Cidr} && c.attributes == []
  }

  predicate Differ(a: Classification, b: Classification) {
    a.name != b.name || a.kind != b.kind
  }

  // ---------- printing ----------

  function ReferenceRows(r: Reference): (rows: seq<Row>)
    ensures WritableRows(rows)
  {
    [Row(1, TextValues(r.handle)), Row(2, TextValues(r.instance)), Row(3, TextValues(r.generation)),
     Row(4, TextValues(r.source)), Row(5, TextValues(r.digest))]
  }

  function ClassificationRows(c: Classification): (rows: seq<Row>)
    ensures WritableRows(rows)
  {
    [Row(1, TextValues(c.name)), Row(2, ScalarValues(KindNumber(c.kind)))]
  }

  function MatchRows(m: Match): (rows: seq<Row>)
    ensures WritableRows(rows)
  {
    [Row(1, ScalarValues(m.index)), Row(2, ScalarValues(if m.matched then 1 else 0)),
     Row(3, ScalarValues(CoverageNumber(m.coverage)))]
  }

  function PrintReference(r: Reference): Bytes {
    PrintRows(ReferenceRows(r))
  }

  function PrintClassification(c: Classification): Bytes {
    PrintRows(ClassificationRows(c))
  }

  function PrintMatch(m: Match): Bytes {
    PrintRows(MatchRows(m))
  }

  /** Each item as a message of its own. */
  function ItemValues<T>(item: T -> Bytes, xs: seq<T>): (vs: seq<Value>)
    ensures |vs| == |xs| && forall i :: 0 <= i < |xs| ==> vs[i] == Length(item(xs[i]))
  {
    if xs == [] then [] else [Length(item(xs[0]))] + ItemValues(item, xs[1..])
  }

  function RequestRows(r: Request): (rows: seq<Row>)
    ensures WritableRows(rows)
  {
    [Row(1, [Length(PrintReference(r.reference))]), Row(2, ItemValues(PrintClassification, r.classifications)),
     Row(3, ScalarValues(r.micros)), Row(4, ScalarValues(r.responseBytes))]
  }

  function ResponseRows(r: Response): (rows: seq<Row>)
    ensures WritableRows(rows)
  {
    [Row(1, [Length(PrintReference(r.reference))]), Row(2, ScalarValues(StatusNumber(r.status))),
     Row(3, ItemValues(PrintMatch, r.matches))]
  }

  function Fit(frame: Bytes, budget: int, ceiling: int): Option<Bytes> {
    if budget < 1 || budget > ceiling || |frame| > budget then None else Some(frame)
  }

  function MarshalRequest(r: Request, budget: int): Option<Bytes> {
    if !ValidRequest(r) then None else Fit(PrintRows(RequestRows(r)), budget, MAX_INPUT_FRAME)
  }

  function MarshalResponse(r: Response, q: Request): Option<Bytes> {
    if !ValidResponse(r, q) then None else Fit(PrintRows(ResponseRows(r)), q.responseBytes, MAX_OUTPUT_FRAME)
  }

  // ---------- reading ----------

  function MessageAt(nodes: seq<Node>): Fields {
    if nodes != [] && nodes[0].Message? then nodes[0].fields else map[]
  }

  function ReadReference(m: Fields): Option<Reference> {
    var a, b, c := TextAt(FieldNodes(m, 1)), TextAt(FieldNodes(m, 2)), TextAt(FieldNodes(m, 3));
    var d, e := TextAt(FieldNodes(m, 4)), TextAt(FieldNodes(m, 5));
    if a.Some? && b.Some? && c.Some? && d.Some? && e.Some? then
      Some(Reference(a.value, b.value, c.value, d.value, e.value))
    else None
  }

  function ReadClassification(node: Node): Option<Classification> {
    var m := MessageAt([node]);
    var name, kind := TextAt(FieldNodes(m, 1)), KindOf(ScalarAt(FieldNodes(m, 2)));
    if name.Some? && kind.Some? then Some(Classification(name.value, kind.value, [])) else None
  }

  function ReadMatch(node: Node): Option<Match> {
    var m := MessageAt([node]);
    var coverage := CoverageOf(ScalarAt(FieldNodes(m, 3)));
    if coverage.Some? then
      Some(Match(ScalarAt(FieldNodes(m, 1)), ScalarAt(FieldNodes(m, 2)) != 0, coverage.value))
    else None
  }

  function ReadAll<T>(read: Node -> Option<T>, nodes: seq<Node>): Option<seq<T>> {
    if nodes == [] then Some([])
    else match read(nodes[0])
      case None => None
      case Some(x) =>
        match ReadAll(read, nodes[1..])
        case None => None
        case Some(xs) => Some([x] + xs)
  }

  function RequestFrom(m: Fields): Option<Request> {
    var reference := ReadReference(MessageAt(FieldNodes(m, 1)));
    var classifications := ReadAll(ReadClassification, FieldNodes(m, 2));
    if reference.Some? && classifications.Some? then
      Some(Request(reference.value, classifications.value, ScalarAt(FieldNodes(m, 3)), ScalarAt(FieldNodes(m, 4))))
    else None
  }

  function ResponseFrom(m: Fields): Option<Response> {
    var reference := ReadReference(MessageAt(FieldNodes(m, 1)));
    var status := StatusOf(ScalarAt(FieldNodes(m, 2)));
    var matches := ReadAll(ReadMatch, FieldNodes(m, 3));
    if reference.Some? && status.Some? && matches.Some? then
      Some(Response(reference.value, status.value, matches.value))
    else None
  }

  ghost function UnmarshalRequest(frame: Bytes, budget: int): Option<Request> {
    if Fit(frame, budget, MAX_INPUT_FRAME).None? || !FrameOk(REQUEST, frame, 0) then None
    else match RequestFrom(Decoded(REQUEST, frame, 0))
      case None => None
      case Some(r) => if ValidRequest(r) then Some(r) else None
  }

  ghost function UnmarshalResponse(frame: Bytes, q: Request): Option<Response> {
    if !ValidRequest(q) || Fit(frame, q.responseBytes, MAX_OUTPUT_FRAME).None? || !FrameOk(RESPONSE, frame, 0) then None
    else match ResponseFrom(Decoded(RESPONSE, frame, 0))
      case None => None
      case Some(r) => if ValidResponse(r, q) then Some(r) else None
  }

  // ---------- reading inverts printing ----------

  /** A printed reference passes the check and is read back. */
  lemma ReferenceInverts(r: Reference, depth: nat)
    requires depth <= MAX_DEPTH && |PrintReference(r)| < U64
    ensures FrameOk(REFERENCE, PrintReference(r), depth)
    ensures ReadReference(Decoded(REFERENCE, PrintReference(r), depth)) == Some(r)
  {
    hide PrintRows, FrameOk, Decoded, TextValues, TextAt, DecodeValues;
    var rows := ReferenceRows(r);
    assert RowsFit(REFERENCE, rows, depth);
    RowsFrameOk(REFERENCE, rows, depth);
    RowDecodes(REFERENCE, rows, 0, depth);
    RowDecodes(REFERENCE, rows, 1, depth);
    RowDecodes(REFERENCE, rows, 2, depth);
    RowDecodes(REFERENCE, rows, 3, depth);
    RowDecodes(REFERENCE, rows, 4, depth);
    TextDecodes(r.handle, depth);
    TextDecodes(r.instance, depth);
    TextDecodes(r.generation, depth);
    TextDecodes(r.source, depth);
    TextDecodes(r.digest, depth);
  }

  lemma ClassificationInverts(c: Classification, depth: nat)
    requires depth <= MAX_DEPTH && |PrintClassification(c)| < U64 && !c.kind.Domain? && c.attributes == []
    ensures FrameOk(CLASSIFICATION, PrintClassification(c), depth)
    ensures ReadClassification(Message(Decoded(CLASSIFICATION, PrintClassification(c), depth))) == Some(c)
  {
    hide PrintRows, FrameOk, Decoded, TextValues, TextAt, ScalarValues, ScalarAt, DecodeValues, KindNumber;
    var rows := ClassificationRows(c);
    EnumsAreBijections(c.kind, QueryOk, Covered, 0);
    assert RowsFit(CLASSIFICATION, rows, depth);
    RowsFrameOk(CLASSIFICATION, rows, depth);
    RowDecodes(CLASSIFICATION, rows, 0, depth);
    RowDecodes(CLASSIFICATION, rows, 1, depth);
    TextDecodes(c.name, depth);
    ScalarDecodes(EnumKind({0, 1, 2, 3}), KindNumber(c.kind), depth);
  }

  lemma MatchInverts(m: Match, depth: nat)
    requires depth <= MAX_DEPTH && |PrintMatch(m)| < U64 && m.index < MAX_CLASSIFICATIONS
    ensures FrameOk(MATCH, PrintMatch(m), depth)
    ensures ReadMatch(Message(Decoded(MATCH, PrintMatch(m), depth))) == Some(m)
  {
    hide PrintRows, FrameOk, Decoded, ScalarValues, ScalarAt, DecodeValues, CoverageNumber;
    var rows := MatchRows(m);
    EnumsAreBijections(Cidr, QueryOk, m.coverage, 0);
    assert RowsFit(MATCH, rows, depth);
    RowsFrameOk(MATCH, rows, depth);
    RowDecodes(MATCH, rows, 0, depth);
    RowDecodes(MATCH, rows, 1, depth);
    RowDecodes(MATCH, rows, 2, depth);
    ScalarDecodes(Uint32Kind, m.index, depth);
    ScalarDecodes(BoolKind, if m.matched then 1 else 0, depth);
    ScalarDecodes(EnumKind({0, 1, 2, 3}), CoverageNumber(m.coverage), depth);
  }

  /** A list of messages is read back if each of them is. */
  /** The first of several messages decodes by itself. */
  lemma FirstDecodes(s: Schema, vs: seq<Value>, payload: Bytes, depth: nat)
    requires depth < MAX_DEPTH && vs != [] && vs[0] == Length(payload)
    ensures DecodeValues(MessageKind(s), vs, Merge, depth) ==
              [Message(Decoded(s, payload, depth + 1))] + DecodeValues(MessageKind(s), vs[1..], Merge, depth)
  {
    hide Decode;
  }

  lemma {:induction false} ItemsDecode<T(!new)>(s: Schema, item: T -> Bytes, read: Node -> Option<T>, xs: seq<T>, vs: seq<Value>, depth: nat)
    requires depth < MAX_DEPTH && |vs| == |xs|
    requires forall i :: 0 <= i < |xs| ==> vs[i] == Length(item(xs[i]))
    requires forall i :: 0 <= i < |xs| ==> read(Message(Decoded(s, item(xs[i]), depth + 1))) == Some(xs[i])
    ensures ReadAll(read, DecodeValues(MessageKind(s), vs, Merge, depth)) == Some(xs)
    decreases |xs|
  {
    hide Decoded, Decode, DecodeValue;
    if xs != [] {
      FirstDecodes(s, vs, item(xs[0]), depth);
      assert vs[0] == Length(item(xs[0])) && read(Message(Decoded(s, item(xs[0]), depth + 1))) == Some(xs[0]);
      forall i | 0 <= i < |xs[1..]|
        ensures vs[1..][i] == Length(item(xs[1..][i]))
        ensures read(Message(Decoded(s, item(xs[1..][i]), depth + 1))) == Some(xs[1..][i])
      {
        assert vs[1..][i] == vs[i + 1] && xs[1..][i] == xs[i + 1];
      }
      ItemsDecode(s, item, read, xs[1..], vs[1..], depth);
      assert [xs[0]] + xs[1..] == xs;
    }
  }

  lemma OneMessageDecodes(s: Schema, p: Bytes, depth: nat)
    requires depth < MAX_DEPTH
    ensures MessageAt(DecodeValues(MessageKind(s), [Length(p)], Merge, depth)) == Decoded(s, p, depth + 1)
  {
  }

  lemma RequestItemsInvert(r: Request)
    requires ValidRequest(r) && |PrintRows(RequestRows(r))| < U64
    ensures |PrintReference(r.reference)| < U64
    ensures forall i :: 0 <= i < |r.classifications| ==>
              && FrameOk(CLASSIFICATION, PrintClassification(r.classifications[i]), 1)
              && ReadClassification(Message(Decoded(CLASSIFICATION, PrintClassification(r.classifications[i]), 1)))
                 == Some(r.classifications[i])
  {
    hide PrintRows, FrameOk, Decoded, ReadClassification, ClassificationRows, ReferenceRows, ValidReference, ValidClassification, Key;
    var rows := RequestRows(r);
    RowPayloadIsShorter(rows, 0, 0);
    forall i | 0 <= i < |r.classifications|
      ensures FrameOk(CLASSIFICATION, PrintClassification(r.classifications[i]), 1)
      ensures ReadClassification(Message(Decoded(CLASSIFICATION, PrintClassification(r.classifications[i]), 1)))
              == Some(r.classifications[i])
    {
      RowPayloadIsShorter(rows, 1, i);
      ClassificationInverts(r.classifications[i], 1);
    }
  }

  lemma RequestInverts(r: Request)
    requires ValidRequest(r) && |PrintRows(RequestRows(r))| < U64
    ensures FrameOk(REQUEST, PrintRows(RequestRows(r)), 0)
    ensures RequestFrom(Decoded(REQUEST, PrintRows(RequestRows(r)), 0)) == Some(r)
  {
    hide PrintRows, FrameOk, Decoded, ReadReference, ReadClassification, PrintReference, PrintClassification, ScalarAt,
         DecodeValues, ReadAll, MessageAt, ValidReference, ValidClassification, Key;
    var rows := RequestRows(r);
    RequestItemsInvert(r);
    ReferenceInverts(r.reference, 1);
    RequestRowsFit(r);
    RowsFrameOk(REQUEST, rows, 0);
    RowDecodes(REQUEST, rows, 0, 0);
    RowDecodes(REQUEST, rows, 1, 0);
    RowDecodes(REQUEST, rows, 2, 0);
    RowDecodes(REQUEST, rows, 3, 0);
    OneMessageDecodes(REFERENCE, PrintReference(r.reference), 0);
    ItemsDecode(CLASSIFICATION, PrintClassification, ReadClassification, r.classifications, rows[1].values, 0);
    ScalarDecodes(Uint32Kind, r.micros, 0);
    ScalarDecodes(Uint32Kind, r.responseBytes, 0);
  }

  lemma RequestRowsFit(r: Request)
    requires ValidRequest(r) && FrameOk(REFERENCE, PrintReference(r.reference), 1)
    requires forall i :: 0 <= i < |r.classifications| ==> FrameOk(CLASSIFICATION, PrintClassification(r.classifications[i]), 1)
    ensures RowsFit(REQUEST, RequestRows(r), 0)
  {
    hide FrameOk, PrintReference, PrintClassification, ValidReference, ValidClassification, Key;
  }

  /** Every valid request whose frame fits its budget passes the raw check as a frame, and is read back
      whole: reference, classifications in order, and both budgets. */
  lemma RequestRoundTrip(r: Request, budget: int)
    requires MarshalRequest(r, budget).Some?
    ensures FrameOk(REQUEST, MarshalRequest(r, budget).value, 0)
    ensures UnmarshalRequest(MarshalRequest(r, budget).value, budget) == Some(r)
  {
    hide ValidRequest, PrintRows, FrameOk, Decoded, RequestFrom, RequestRows;
    RequestInverts(r);
  }

  lemma ResponseItemsInvert(r: Response, q: Request)
    requires ValidResponse(r, q) && |PrintRows(ResponseRows(r))| < U64
    ensures |PrintReference(r.reference)| < U64
    ensures forall i :: 0 <= i < |r.matches| ==>
              && FrameOk(MATCH, PrintMatch(r.matches[i]), 1)
              && ReadMatch(Message(Decoded(MATCH, PrintMatch(r.matches[i]), 1))) == Some(r.matches[i])
  {
    hide PrintRows, FrameOk, Decoded, ReadMatch, MatchRows, ReferenceRows, ValidRequest, ValidReference;
    var rows := ResponseRows(r);
    RowPayloadIsShorter(rows, 0, 0);
    forall i | 0 <= i < |r.matches|
      ensures FrameOk(MATCH, PrintMatch(r.matches[i]), 1)
      ensures ReadMatch(Message(Decoded(MATCH, PrintMatch(r.matches[i]), 1))) == Some(r.matches[i])
    {
      RowPayloadIsShorter(rows, 2, i);
      MatchInverts(r.matches[i], 1);
    }
  }

  lemma ResponseRowsFit(r: Response)
    requires |r.matches| <= MAX_CLASSIFICATIONS && FrameOk(REFERENCE, PrintReference(r.reference), 1)
    requires forall i :: 0 <= i < |r.matches| ==> FrameOk(MATCH, PrintMatch(r.matches[i]), 1)
    ensures RowsFit(RESPONSE, ResponseRows(r), 0)
  {
    hide FrameOk, PrintReference, PrintMatch, StatusNumber;
    EnumsAreBijections(Cidr, r.status, Covered, 0);
  }

  lemma ResponseInverts(r: Response, q: Request)
    requires ValidResponse(r, q) && |PrintRows(ResponseRows(r))| < U64
    ensures FrameOk(RESPONSE, PrintRows(ResponseRows(r)), 0)
    ensures ResponseFrom(Decoded(RESPONSE, PrintRows(ResponseRows(r)), 0)) == Some(r)
  {
    hide PrintRows, FrameOk, Decoded, ReadReference, ReadMatch, PrintReference, PrintMatch, ScalarAt, StatusNumber,
         DecodeValues, ReadAll, MessageAt, ValidReference, ValidClassification, Key;
    var rows := ResponseRows(r);
    ResponseItemsInvert(r, q);
    ReferenceInverts(r.reference, 1);
    ResponseRowsFit(r);
    EnumsAreBijections(Cidr, r.status, Covered, 0);
    RowsFrameOk(RESPONSE, rows, 0);
    RowDecodes(RESPONSE, rows, 0, 0);
    RowDecodes(RESPONSE, rows, 1, 0);
    RowDecodes(RESPONSE, rows, 2, 0);
    OneMessageDecodes(REFERENCE, PrintReference(r.reference), 0);
    ItemsDecode(MATCH, PrintMatch, ReadMatch, r.matches, rows[2].values, 0);
    ScalarDecodes(EnumKind({0, 1, 2, 3, 4, 5, 6, 7}), StatusNumber(r.status), 0);
  }

  /** Every valid response to a request whose frame fits what the request allows passes the raw check and is
      read back whole. */
  lemma ResponseRoundTrip(r: Response, q: Request)
    requires MarshalResponse(r, q).Some?
    ensures FrameOk(RESPONSE, MarshalResponse(r, q).value, 0)
    ensures UnmarshalResponse(MarshalResponse(r, q).value, q) == Some(r)
  {
    hide ValidRequest, PrintRows, FrameOk, Decoded, ResponseFrom, ResponseRows;
    ResponseInverts(r, q);
  }

  // ---------- the marshaller and the unmarshaller ----------

  lemma ItemAppend<T>(item: T -> Bytes, xs: seq<T>, x: T)
    ensures ItemValues(item, xs + [x]) == ItemValues(item, xs) + [Length(item(x))]
    decreases |xs|
  {
    if xs != [] {
      assert (xs + [x])[1..] == xs[1..] + [x];
      ItemAppend(item, xs[1..], x);
    } else {
      assert xs + [x] == [x] && [x][1..] == xs;
    }
  }

  method MarshalDatasetQueryRequest(r: Request, budget: int) returns (frame: Option<Bytes>)
    ensures frame == MarshalRequest(r, budget)
  {
    hide PrintRows, ValidRequest, PrintClassification, PrintReference;
    if !ValidRequest(r) {
      return None;
    }
    var list: seq<Value> := [];
    for i := 0 to |r.classifications|
      invariant list == ItemValues(PrintClassification, r.classifications[..i])
    {
      assert r.classifications[..i + 1] == r.classifications[..i] + [r.classifications[i]];
      ItemAppend(PrintClassification, r.classifications[..i], r.classifications[i]);
      list := list + [Length(PrintClassification(r.classifications[i]))];
    }
    assert r.classifications[..|r.classifications|] == r.classifications;
    var rows := [Row(1, [Length(PrintReference(r.reference))]), Row(2, list),
                 Row(3, ScalarValues(r.micros)), Row(4, ScalarValues(r.responseBytes))];
    assert rows == RequestRows(r);
    frame := Fit(PrintRows(rows), budget, MAX_INPUT_FRAME);
  }

  function Found<T>(done: seq<T>, r: Option<seq<T>>): Option<seq<T>> {
    match r
    case None => None
    case Some(xs) => Some(done + xs)
  }

  /** Reads every node, or stops at the first that is no item. */
  method ReadList<T>(read: Node -> Option<T>, nodes: seq<Node>) returns (r: Option<seq<T>>)
    ensures r == ReadAll(read, nodes)
  {
    var list: seq<T> := [];
    assert nodes[0..] == nodes;
    assert ReadAll(read, nodes).Some? ==> list + ReadAll(read, nodes).value == ReadAll(read, nodes).value;
    for i := 0 to |nodes|
      invariant ReadAll(read, nodes) == Found(list, ReadAll(read, nodes[i..]))
    {
      var x := read(nodes[i]);
      assert nodes[i..][1..] == nodes[i + 1..];
      if x.None? {
        return None;
      }
      if ReadAll(read, nodes[i + 1..]).Some? {
        var rest := ReadAll(read, nodes[i + 1..]).value;
        assert list + ([x.value] + rest) == list + [x.value] + rest;
      }
      list := list + [x.value];
    }
    assert list + [] == list;
    r := Some(list);
  }

  method UnmarshalDatasetQueryRequest(frame: Bytes, budget: int) returns (r: Option<Request>)
    ensures r == UnmarshalRequest(frame, budget)
  {
    hide FrameOk, Decoded, ValidRequest;
    if Fit(frame, budget, MAX_INPUT_FRAME).None? {
      return None;
    }
    var valid := ValidateFrame(REQUEST, frame, 0);
    if !valid {
      return None;
    }
    var m := Decoded(REQUEST, frame, 0);
    var reference := ReadReference(MessageAt(FieldNodes(m, 1)));
    var list := ReadList(ReadClassification, FieldNodes(m, 2));
    if reference.None? || list.None? {
      return None;
    }
    var request := Request(reference.value, list.value, ScalarAt(FieldNodes(m, 3)), ScalarAt(FieldNodes(m, 4)));
    if !ValidRequest(request) {
      return None;
    }
    r := Some(request);
  }

  method MarshalDatasetQueryResponse(r: Response, q: Request) returns (frame: Option<Bytes>)
    ensures frame == MarshalResponse(r, q)
  {
    hide PrintRows, ValidResponse, PrintMatch, PrintReference;
    if !ValidResponse(r, q) {
      return None;
    }
    var list: seq<Value> := [];
    for i := 0 to |r.matches|
      invariant list == ItemValues(PrintMatch, r.matches[..i])
    {
      assert r.matches[..i + 1] == r.matches[..i] + [r.matches[i]];
      ItemAppend(PrintMatch, r.matches[..i], r.matches[i]);
      list := list + [Length(PrintMatch(r.matches[i]))];
    }
    assert r.matches[..|r.matches|] == r.matches;
    var rows := [Row(1, [Length(PrintReference(r.reference))]), Row(2, ScalarValues(StatusNumber(r.status))), Row(3, list)];
    assert rows == ResponseRows(r);
    frame := Fit(PrintRows(rows), q.responseBytes, MAX_OUTPUT_FRAME);
  }

  method UnmarshalDatasetQueryResponse(frame: Bytes, q: Request) returns (r: Option<Response>)
    ensures r == UnmarshalResponse(frame, q)
  {
    hide FrameOk, Decoded, ValidRequest, ValidResponse;
    if !ValidRequest(q) || Fit(frame, q.responseBytes, MAX_OUTPUT_FRAME).None? {
      return None;
    }
    var valid := ValidateFrame(RESPONSE, frame, 0);
    if !valid {
      return None;
    }
    var m := Decoded(RESPONSE, frame, 0);
    var reference := ReadReference(MessageAt(FieldNodes(m, 1)));
    var status := StatusOf(ScalarAt(FieldNodes(m, 2)));
    var list := ReadList(ReadMatch, FieldNodes(m, 3));
    if reference.None? || status.None? || list.None? {
      return None;
    }
    var response := Response(reference.value, status.value, list.value);
    if !ValidResponse(response, q) {
      return None;
    }
    r := Some(response);
  }
}

/** Policy overlays: an envelope of at most one stage per kind, in canonical order, each owned by one policy. */
module PolicyOverlay {
  import opened Sequences
  import opened Strings
  import opened JsonValues
  import JsonScan

  const SCHEMA := "nre.policy-overlay/v1"
  const MAX_STAGES := 3

  datatype Stage = Stage(kind: string, policy: string, payload: Json)

  datatype Envelope = Envelope(schema: string, stages: seq<Stage>)

  function Order(kind: string): nat {
    if kind == "ip" then 1 else if kind == "rate" then 2 else if kind == "waf" then 3 else 0
  }

  predicate ValidStage(s: Stage) {
    Order(s.kind) != 0 && PolicyIdentity(s.policy) && Fits(s.payload, 0) && s.payload.Object?
  }

  /** Each stage ranks above the one before it. */
  predicate InOrder(ss: seq<Stage>) {
    forall i, j :: 0 <= i < j < |ss| ==> Order(ss[i].kind) < Order(ss[j].kind)
  }

  /** The stage as a JSON object. */
  function StageJson(s: Stage): Json {
    Object([Member("kind", Text(s.kind)), Member("policy_id", Text(s.policy)), Member("payload", s.payload)])
  }

  function StagesJson(ss: seq<Stage>): (r: seq<Json>)
    ensures |r| == |ss| && forall i :: 0 <= i < |ss| ==> r[i] == StageJson(ss[i])
  {
    if ss == [] then [] else [StageJson(ss[0])] + StagesJson(ss[1..])
  }

  function EnvelopeJson(e: Envelope): Json {
    Object([Member("schema", Text(e.schema)), Member("stages", Array(StagesJson(e.stages)))])
  }

  /** Every stage is valid on its own, and the envelope as a whole is within the nesting bound. */
  predicate ValidEnvelope(e: Envelope) {
    && e.schema == SCHEMA && |e.stages| <= MAX_STAGES
    && (forall i :: 0 <= i < |e.stages| ==> ValidStage(e.stages[i]))
    && InOrder(e.stages)
    && Fits(EnvelopeJson(e), 0)
  }

  method ValidateEnvelope(e: Envelope) returns (ok: bool)
    ensures ok <==> ValidEnvelope(e)
  {
    hide Fits, PolicyIdentity, EnvelopeJson;
    if e.schema != SCHEMA || |e.stages| > MAX_STAGES {
      return false;
    }
    var previous := 0;
    for i := 0 to |e.stages|
      invariant forall j :: 0 <= j < i ==> ValidStage(e.stages[j]) && Order(e.stages[j].kind) <= previous
      invariant forall j, k :: 0 <= j < k < i ==> Order(e.stages[j].kind) < Order(e.stages[k].kind)
      invariant previous == if i == 0 then 0 else Order(e.stages[i - 1].kind)
    {
      if !ValidStage(e.stages[i]) {
        return false;
      }
      var order := Order(e.stages[i].kind);
      if order <= previous {
        assert i > 0;
        return false;
      }
      previous := order;
    }
    ok := Fits(EnvelopeJson(e), 0);
  }

  /** The order is: address rules, rate limits, then the firewall. */
  lemma InOrderIff(ss: seq<Stage>)
    requires forall i :: 0 <= i < |ss| ==> ss[i].kind in {"ip", "rate", "waf"}
    ensures InOrder(ss) <==>
              forall i, j :: 0 <= i < j < |ss| ==>
                (ss[i].kind, ss[j].kind) in {("ip", "rate"), ("ip", "waf"), ("rate", "waf")}
  {
  }

  /** And these are all the kinds there are. */
  lemma KindsAre(kind: string)
    ensures Order(kind) != 0 <==> kind in {"ip", "rate", "waf"}
  {
  }

  // ---------- decoding ----------

  /** A string member; a null leaves the field empty. */
  function TextOf(v: Json): Option<string> {
    match v
    case Text(t) => Some(t)
    case Scalar(t) => if t == "null" then Some("") else None
    case _ => None
  }

  /** The value of the last member of that name. */
  function MemberOf(ms: seq<Member>, name: string): Option<Json> {
    if ms == [] then None
    else if ms[|ms| - 1].name == name then Some(ms[|ms| - 1].value)
    else MemberOf(ms[..|ms| - 1], name)
  }

  /** An object with exactly these members, in whatever order. */
  predicate HasExactly(v: Json, names: set<string>) {
    v.Object? && NamesOf(v.members) == names
  }

  function DecodeStage(v: Json): Option<Stage> {
    if !HasExactly(v, {"kind", "policy_id", "payload"}) then None
    else
      var kind, policy, payload := MemberOf(v.members, "kind"), MemberOf(v.members, "policy_id"), MemberOf(v.members, "payload");
      if kind.None? || policy.None? || payload.None? || TextOf(kind.value).None? || TextOf(policy.value).None? then None
      else Some(Stage(TextOf(kind.value).value, TextOf(policy.value).value, payload.value))
  }

  function DecodeStages(vs: seq<Json>): Option<seq<Stage>> {
    if vs == [] then Some([])
    else match DecodeStage(vs[0])
      case None => None
      case Some(s) =>
        match DecodeStages(vs[1..])
        case None => None
        case Some(ss) => Some([s] + ss)
  }

  function DecodeEnvelope(v: Json): Option<Envelope> {
    if !HasExactly(v, {"schema", "stages"}) then None
    else
      var schema, stages := MemberOf(v.members, "schema"), MemberOf(v.members, "stages");
      if schema.None? || stages.None? || TextOf(schema.value).None? || !stages.value.Array?
         || |stages.value.items| > MAX_STAGES then None
      else match DecodeStages(stages.value.items)
        case None => None
        case Some(ss) =>
          var e := Envelope(TextOf(schema.value).value, ss);
          if ValidEnvelope(e) then Some(e) else None
  }

  /** From text: the raw check first, then the members. */
  function DecodeText(text: seq<Lexeme>): Option<Envelope> {
    if !Valid(text) then None else DecodeEnvelope(ReadValue(text, 0).value)
  }

  method DecodePolicyOverlayEnvelope(text: seq<Lexeme>) returns (r: Option<Envelope>)
    ensures r == DecodeText(text)
  {
    hide ReadValue, Fits, MemberOf, ValidEnvelope, DecodeStage, HasExactly;
    var ok := JsonScan.ValidateJson(text);
    if !ok {
      return None;
    }
    var v := ReadValue(text, 0).value;
    if !HasExactly(v, {"schema", "stages"}) {
      return None;
    }
    ExactlyIsObject(v, {"schema", "stages"});
    var schema, stages := MemberOf(v.members, "schema"), MemberOf(v.members, "stages");
    if schema.None? || stages.None? || TextOf(schema.value).None? {
      return None;
    }
    if !stages.value.Array? || |stages.value.items| > MAX_STAGES {
      return None;
    }
    var items := stages.value.items;
    var ss: seq<Stage> := [];
    assert items[0..] == items;
    FoundFirst(DecodeStages(items));
    for i := 0 to |items|
      invariant DecodeStages(items) == Found(ss, DecodeStages(items[i..]))
    {
      var s := DecodeStage(items[i]);
      assert items[i..][1..] == items[i + 1..];
      if s.None? {
        return None;
      }
      FoundMore(ss, s.value, DecodeStages(items[i + 1..]));
      ss := ss + [s.value];
    }
    assert ss + [] == ss;
    var e := Envelope(TextOf(schema.value).value, ss);
    ok := ValidateEnvelope(e);
    r := if ok then Some(e) else None;
  }

  lemma ExactlyIsObject(v: Json, names: set<string>)
    requires HasExactly(v, names)
    ensures v.Object?
  {
  }

  function Found(done: seq<Stage>, r: Option<seq<Stage>>): Option<seq<Stage>> {
    match r
    case None => None
    case Some(ss) => Some(done + ss)
  }

  lemma FoundFirst(r: Option<seq<Stage>>)
    ensures Found([], r) == r
  {
    if r.Some? {
      assert [] + r.value == r.value;
    }
  }

  lemma FoundMore(done: seq<Stage>, s: Stage, r: Option<seq<Stage>>)
    ensures Found(done, match r { case None => None case Some(ss) => Some([s] + ss) }) == Found(done + [s], r)
  {
    match r
    case None =>
    case Some(ss) => assert done + ([s] + ss) == done + [s] + ss;
  }

  // ---------- decoding inverts printing ----------

  lemma StageDecodes(s: Stage)
    ensures DecodeStage(StageJson(s)) == Some(s)
  {
    var a, b, c := Member("kind", Text(s.kind)), Member("policy_id", Text(s.policy)), Member("payload", s.payload);
    var ms := [a, b, c];
    assert ms[..2] == [a, b] && ms[..2][..1] == [a];
    assert MemberOf([a], "kind") == Some(a.value);
    assert MemberOf([a, b], "policy_id") == Some(b.value) && MemberOf([a, b], "kind") == MemberOf([a], "kind");
    assert NamesOf(ms) == {"kind", "policy_id", "payload"} by {
      assert a in ms && b in ms && c in ms;
    }
  }

  lemma StagesJsonIs(ss: seq<Stage>)
    ensures ss == [] ==> StagesJson(ss) == []
    ensures ss != [] ==> StagesJson(ss)[0] == StageJson(ss[0]) && StagesJson(ss)[1..] == StagesJson(ss[1..])
  {
    hide StageJson;
  }

  lemma {:induction false} StagesDecode(ss: seq<Stage>)
    ensures DecodeStages(StagesJson(ss)) == Some(ss)
    decreases |ss|
  {
    hide DecodeStage, StageJson, StagesJson;
    StagesJsonIs(ss);
    if ss != [] {
      StageDecodes(ss[0]);
      StagesDecode(ss[1..]);
      assert [ss[0]] + ss[1..] == ss;
    }
  }

  lemma EnvelopeDecodes(e: Envelope)
    requires ValidEnvelope(e)
    ensures DecodeEnvelope(EnvelopeJson(e)) == Some(e)
  {
    hide ValidEnvelope, DecodeStages;
    StagesDecode(e.stages);
    assert |StagesJson(e.stages)| <= MAX_STAGES by { StagesAreFew(e); }
    var a, b := Member("schema", Text(e.schema)), Member("stages", Array(StagesJson(e.stages)));
    var ms := [a, b];
    assert ms[..1] == [a] && MemberOf([a], "schema") == Some(a.value);
    assert NamesOf(ms) == {"schema", "stages"} by {
      assert a in ms && b in ms;
    }
  }

  lemma StagesAreFew(e: Envelope)
    requires ValidEnvelope(e)
    ensures |e.stages| <= MAX_STAGES
  {
  }

  /** Decoding the printed text of a valid envelope returns the envelope. */
  lemma EnvelopeRoundTrip(e: Envelope)
    requires ValidEnvelope(e)
    ensures DecodeText(Print(EnvelopeJson(e))) == Some(e)
  {
    hide Fits, Print, ReadValue, EnvelopeJson, DecodeEnvelope;
    EnvelopeDecodes(e);
    ValueReads(EnvelopeJson(e), 0, []);
    assert Print(EnvelopeJson(e)) + [] == Print(EnvelopeJson(e));
  }

  // ---------- what decodes ----------

  lemma {:induction false} MemberOfIff(ms: seq<Member>, name: string, v: Json)
    requires JsonValues.DistinctNames(ms)
    ensures MemberOf(ms, name) == Some(v) <==> Member(name, v) in ms
    decreases |ms|
  {
    if ms != [] {
      var front, last := ms[..|ms| - 1], ms[|ms| - 1];
      assert ms == front + [last];
      MemberOfIff(front, name, v);
    }
  }

  /** The JSON of a stage, with its three members in whatever order. */
  predicate WritesStage(v: Json, s: Stage) {
    && v.Object? && NamesOf(v.members) == {"kind", "policy_id", "payload"}
    && Member("kind", Text(s.kind)) in v.members && Member("policy_id", Text(s.policy)) in v.members
    && Member("payload", s.payload) in v.members
  }

  /** The JSON of an envelope, with its members and those of its stages in whatever order. */
  ghost predicate WritesEnvelope(v: Json, e: Envelope) {
    && v.Object? && NamesOf(v.members) == {"schema", "stages"} && Member("schema", Text(e.schema)) in v.members
    && exists items ::
         && Member("stages", Array(items)) in v.members && |items| == |e.stages|
         && forall i :: 0 <= i < |items| ==> WritesStage(items[i], e.stages[i])
  }

  /** No member name twice, at any level that matters here. */
  ghost predicate Unrepeated(v: Json) {
    v.Object? ==>
      && JsonValues.DistinctNames(v.members)
      && forall m :: m in v.members && m.value.Array? ==>
           forall i :: 0 <= i < |m.value.items| && m.value.items[i].Object? ==>
             JsonValues.DistinctNames(m.value.items[i].members)
  }

  lemma StageDecodesIff(v: Json, s: Stage)
    requires v.Object? ==> JsonValues.DistinctNames(v.members)
    requires s.kind != "" && s.policy != ""
    ensures DecodeStage(v) == Some(s) <==> WritesStage(v, s)
  {
    hide MemberOf, NamesOf, JsonValues.DistinctNames;
    if v.Object? {
      forall name, x ensures MemberOf(v.members, name) == Some(x) <==> Member(name, x) in v.members {
        MemberOfIff(v.members, name, x);
      }
    }
  }

  lemma {:induction false} StagesDecodeIff(vs: seq<Json>, ss: seq<Stage>)
    requires forall i :: 0 <= i < |vs| && vs[i].Object? ==> JsonValues.DistinctNames(vs[i].members)
    requires forall i :: 0 <= i < |ss| ==> ss[i].kind != "" && ss[i].policy != ""
    ensures DecodeStages(vs) == Some(ss) <==> |vs| == |ss| && forall i :: 0 <= i < |vs| ==> WritesStage(vs[i], ss[i])
    decreases |vs|
  {
    hide DecodeStage, WritesStage, JsonValues.DistinctNames;
    if vs != [] && ss != [] {
      StageDecodesIff(vs[0], ss[0]);
      StagesDecodeIff(vs[1..], ss[1..]);
      assert ss == [ss[0]] + ss[1..];
      assert forall i :: 0 < i < |vs| && i < |ss| ==> vs[i] == vs[1..][i - 1] && ss[i] == ss[1..][i - 1];
      if |vs| == |ss| && forall i :: 0 <= i < |vs| ==> WritesStage(vs[i], ss[i]) {
        forall i | 0 <= i < |vs[1..]| ensures WritesStage(vs[1..][i], ss[1..][i]) {
          assert WritesStage(vs[i + 1], ss[i + 1]);
        }
      }
      if DecodeStages(vs) == Some(ss) {
        forall i | 0 <= i < |vs| ensures WritesStage(vs[i], ss[i]) {
          assert i > 0 ==> WritesStage(vs[1..][i - 1], ss[1..][i - 1]);
        }
      }
    }
  }

  lemma ValidHasNames(e: Envelope)
    requires ValidEnvelope(e)
    ensures e.schema == SCHEMA && |e.stages| <= MAX_STAGES
    ensures forall i :: 0 <= i < |e.stages| ==> e.stages[i].kind != "" && e.stages[i].policy != ""
  {
    hide Fits;
    forall i | 0 <= i < |e.stages| ensures e.stages[i].kind != "" && e.stages[i].policy != "" {
      assert ValidStage(e.stages[i]);
    }
  }

  /** An envelope is decoded exactly from what writes it, if it is valid: these members and no others, whatever their
      order. */
  lemma DecodesIff(v: Json, e: Envelope)
    requires Unrepeated(v)
    ensures DecodeEnvelope(v) == Some(e) <==> ValidEnvelope(e) && WritesEnvelope(v, e)
  {
    hide MemberOf, NamesOf, JsonValues.DistinctNames, ValidEnvelope, DecodeStages, WritesStage;
    if v.Object? && ValidEnvelope(e) {
      ValidHasNames(e);
      forall name, x ensures MemberOf(v.members, name) == Some(x) <==> Member(name, x) in v.members {
        MemberOfIff(v.members, name, x);
      }
      forall items | Member("stages", Array(items)) in v.members
        ensures DecodeStages(items) == Some(e.stages) <==>
                  |items| == |e.stages| && forall i :: 0 <= i < |items| ==> WritesStage(items[i], e.stages[i])
      {
        assert Member("stages", Array(items)).value.Array?;
        StagesDecodeIff(items, e.stages);
      }
    }
  }

  // ---------- selecting ----------

  datatype Selection = BadSelector | Absent | OwnedByAnother | Payload(value: Json)

  function Select(e: Envelope, kind: string, policy: string): Selection {
    if Order(kind) == 0 || !PolicyIdentity(policy) || !ValidEnvelope(e) then BadSelector
    else SelectFrom(e.stages, kind, policy)
  }

  function SelectFrom(ss: seq<Stage>, kind: string, policy: string): Selection {
    if ss == [] then Absent
    else if ss[0].kind != kind then SelectFrom(ss[1..], kind, policy)
    else if ss[0].policy != policy then OwnedByAnother
    else Payload(ss[0].payload)
  }

  method SelectPolicyStageOverlay(e: Envelope, kind: string, policy: string) returns (r: Selection)
    ensures r == Select(e, kind, policy)
  {
    hide PolicyIdentity, ValidEnvelope;
    if Order(kind) == 0 || !PolicyIdentity(policy) {
      return BadSelector;
    }
    var valid := ValidateEnvelope(e);
    if !valid {
      return BadSelector;
    }
    assert e.stages[0..] == e.stages;
    for i := 0 to |e.stages|
      invariant SelectFrom(e.stages, kind, policy) == SelectFrom(e.stages[i..], kind, policy)
    {
      assert e.stages[i..][1..] == e.stages[i + 1..];
      if e.stages[i].kind != kind {
        continue;
      }
      if e.stages[i].policy != policy {
        return OwnedByAnother;
      }
      return Payload(e.stages[i].payload);
    }
    r := Absent;
  }

  lemma {:induction false} SelectFromIs(ss: seq<Stage>, kind: string, policy: string)
    requires forall i, j :: 0 <= i < j < |ss| ==> ss[i].kind != ss[j].kind
    ensures
      var r := SelectFrom(ss, kind, policy);
      && (r.Absent? <==> forall i :: 0 <= i < |ss| ==> ss[i].kind != kind)
      && (r.OwnedByAnother? <==> exists i :: 0 <= i < |ss| && ss[i].kind == kind && ss[i].policy != policy)
      && (forall p :: r == Payload(p) <==> Stage(kind, policy, p) in ss)
      && !r.BadSelector?
    decreases |ss|
  {
    if ss != [] {
      var tail := ss[1..];
      forall i, j | 0 <= i < j < |tail| ensures tail[i].kind != tail[j].kind {
        assert tail[i] == ss[i + 1] && tail[j] == ss[j + 1];
      }
      SelectFromIs(tail, kind, policy);
      forall i | 0 <= i < |ss| && ss[i].kind == kind ensures ss[0].kind == kind ==> i == 0 {
      }
      assert forall i :: 0 <= i < |tail| ==> tail[i] == ss[i + 1];
      forall p ensures Stage(kind, policy, p) in ss <==> ss[0] == Stage(kind, policy, p) || Stage(kind, policy, p) in tail {
        assert ss == [ss[0]] + tail;
      }
      if i :| 0 <= i < |tail| && tail[i].kind == kind && tail[i].policy != policy {
        assert ss[i + 1].kind == kind && ss[i + 1].policy != policy;
      }
    }
  }

  /** Selecting from a valid envelope returns the payload of the one stage of that kind and owner; it says
      absent exactly when no stage has the kind, and refuses exactly when another policy owns it. */
  lemma SelectFindsTheOwner(e: Envelope, kind: string, policy: string, p: Json)
    requires ValidEnvelope(e) && Order(kind) != 0 && PolicyIdentity(policy)
    ensures Select(e, kind, policy) == Payload(p) <==> Stage(kind, policy, p) in e.stages
    ensures Select(e, kind, policy).Absent? <==> forall i :: 0 <= i < |e.stages| ==> e.stages[i].kind != kind
    ensures Select(e, kind, policy).OwnedByAnother? <==>
              exists i :: 0 <= i < |e.stages| && e.stages[i].kind == kind && e.stages[i].policy != policy
  {
    hide PolicyIdentity, Fits, SelectFrom;
    KindsDiffer(e);
    SelectFromIs(e.stages, kind, policy);
  }

  /** And it is refused outright exactly for an unknown kind, a policy without a proper name, or an invalid envelope. */
  lemma SelectRefusesIff(e: Envelope, kind: string, policy: string)
    ensures Select(e, kind, policy).BadSelector? <==>
              kind !in {"ip", "rate", "waf"} || !PolicyIdentity(policy) || !ValidEnvelope(e)
  {
    hide PolicyIdentity, Fits, SelectFrom, ValidEnvelope;
    if ValidEnvelope(e) {
      KindsDiffer(e);
      SelectFromIs(e.stages, kind, policy);
    }
  }

  lemma KindsDiffer(e: Envelope)
    requires ValidEnvelope(e)
    ensures forall i, j :: 0 <= i < j < |e.stages| ==> e.stages[i].kind != e.stages[j].kind
  {
    hide Fits, PolicyIdentity, ValidStage, Order;
  }

  predicate OfKind(e: Envelope, s: Stage, kind: string) {
    s in e.stages && s.kind == kind
  }

  /** What is selected for one kind does not depend on the other stages. */
  lemma OtherStagesDoNotMatter(a: Envelope, b: Envelope, kind: string, policy: string)
    requires ValidEnvelope(a) && ValidEnvelope(b)
    requires forall s :: OfKind(a, s, kind) <==> OfKind(b, s, kind)
    ensures Select(a, kind, policy) == Select(b, kind, policy)
  {
    hide PolicyIdentity, Fits, SelectFrom, ValidEnvelope;
    KindsDiffer(a);
    KindsDiffer(b);
    SelectFromIs(a.stages, kind, policy);
    SelectFromIs(b.stages, kind, policy);
    var ra, rb := SelectFrom(a.stages, kind, policy), SelectFrom(b.stages, kind, policy);
    match ra {
      case Payload(p) => assert OfKind(a, Stage(kind, policy, p), kind);
      case Absent =>
        forall i | 0 <= i < |b.stages| ensures b.stages[i].kind != kind {
          assert b.stages[i].kind == kind ==> OfKind(b, b.stages[i], kind);
        }
      case OwnedByAnother =>
        var i :| 0 <= i < |a.stages| && a.stages[i].kind == kind && a.stages[i].policy != policy;
        assert OfKind(a, a.stages[i], kind);
        var j :| 0 <= j < |b.stages| && b.stages[j] == a.stages[i];
      case BadSelector =>
    }
  }

  // ---------- legacy overlays ----------

  datatype Format = EnvelopeV1 | LegacyWaf | LegacyIp | LegacyRate | OtherFormat(text: string)

  function LegacyKind(f: Format): string {
    match f
    case LegacyWaf => "waf"
    case LegacyIp => "ip"
    case LegacyRate => "rate"
    case _ => ""
  }

  /** A legacy WAF overlay says only whether to observe or to deny. */
  predicate LegacyWafMode(v: Json) {
    && HasExactly(v, {"mode"})
    && var mode := MemberOf(v.members, "mode");
       mode.Some? && TextOf(mode.value) in {Some("observe"), Some("deny")}
  }

  /** The overlay stored in some format: a new envelope, or a legacy payload wrapped for its one owner. An
      empty text or a null is no override. */
  function DecodeOverlay(text: seq<Lexeme>, f: Format, owner: string): Option<Envelope> {
    match f
    case EnvelopeV1 => if owner != "" then None else DecodeText(text)
    case OtherFormat(_) => None
    case _ =>
      if !PolicyIdentity(owner) then None
      else if text == [] || text == [Bare("null")] then Some(Envelope(SCHEMA, []))
      else if !Valid(text) then None
      else
        var v := ReadValue(text, 0).value;
        if f.LegacyWaf? && !LegacyWafMode(v) then None
        else
          var e := Envelope(SCHEMA, [Stage(LegacyKind(f), owner, v)]);
          if ValidEnvelope(e) then Some(e) else None
  }

  /** A legacy overlay that decodes gives its owner exactly what was stored, gives no other policy anything,
      and leaves the other kinds alone. */
  lemma LegacyBelongsToItsOwner(v: Json, f: Format, owner: string, kind: string, policy: string)
    requires f.LegacyWaf? || f.LegacyIp? || f.LegacyRate?
    requires Fits(v, 0) && v.Object? && DecodeOverlay(Print(v), f, owner).Some?
    requires Order(kind) != 0 && PolicyIdentity(policy)
    ensures Select(DecodeOverlay(Print(v), f, owner).value, kind, policy) ==
              if kind != LegacyKind(f) then Absent else if policy != owner then OwnedByAnother else Payload(v)
  {
    hide PolicyIdentity, Fits, ValidEnvelope, LegacyWafMode, SelectFrom, ReadValue;
    ValueReads(v, 0, []);
    assert Print(v) + [] == Print(v);
    assert Print(v)[0] == LBrace;
    var stage := Stage(LegacyKind(f), owner, v);
    assert DecodeOverlay(Print(v), f, owner) == Some(Envelope(SCHEMA, [stage]));
    OneStageSelects(stage, kind, policy);
  }

  lemma OneStageSelects(s: Stage, kind: string, policy: string)
    ensures SelectFrom([s], kind, policy) ==
              if kind != s.kind then Absent else if policy != s.policy then OwnedByAnother else Payload(s.payload)
  {
    assert [s][1..] == [];
  }

  /** A legacy overlay decodes exactly for a properly named owner and an object that an envelope can carry; a firewall's must
      say nothing but whether to observe or to deny. */
  lemma LegacyDecodesIff(v: Json, f: Format, owner: string)
    requires f.LegacyWaf? || f.LegacyIp? || f.LegacyRate?
    requires Fits(v, 0)
    ensures v != Scalar("null") ==>
              (DecodeOverlay(Print(v), f, owner).Some? <==>
                && PolicyIdentity(owner) && v.Object? && Fits(v, 3)
                && (f.LegacyWaf? ==> v == Object([Member("mode", Text("observe"))]) || v == Object([Member("mode", Text("deny"))])))
    ensures PolicyIdentity(owner) ==>
              DecodeOverlay([], f, owner) == Some(Envelope(SCHEMA, [])) == DecodeOverlay(Print(Scalar("null")), f, owner)
  {
    hide PolicyIdentity, Fits, ValidEnvelope, LegacyWafMode, ReadValue;
    ValueReads(v, 0, []);
    assert Print(v) + [] == Print(v);
    PrintedNull(v);
    ModeIff(v);
    var stage := Stage(LegacyKind(f), owner, v);
    ValidEnvelopeIff([stage]);
    assert [stage][0] == stage;
  }

  lemma PrintedNull(v: Json)
    ensures Print(v) != [] && (Print(v) == [Bare("null")] <==> v == Scalar("null"))
  {
  }

  lemma ModeIff(v: Json)
    requires Fits(v, 0)
    ensures LegacyWafMode(v) <==> v == Object([Member("mode", Text("observe"))]) || v == Object([Member("mode", Text("deny"))])
  {
    if v.Object? {
      var ms := v.members;
      var first, second := if |ms| >= 1 then ms[0].name else "", if |ms| >= 2 then ms[1].name else "";
      assert JsonValues.DistinctNames(ms) && (|ms| >= 2 ==> first != second);
      if NamesOf(ms) == {"mode"} {
        assert forall i :: 0 <= i < |ms| ==> ms[i].name in NamesOf(ms);
        assert |ms| <= 1;
        assert ms != [] by {
          assert NamesOf([]) == {};
        }
        assert ms == [Member("mode", ms[0].value)];
      }
      if |ms| == 1 && ms[0].name == "mode" {
        assert NamesOf(ms) == {"mode"};
        assert MemberOf(ms, "mode") == Some(ms[0].value);
      }
    }
  }

  // ---------- the nesting bound ----------

  lemma NamesApart(a: string, b: string, c: string, x: Json, y: Json, z: Json)
    requires a != b && a != c && b != c
    ensures JsonValues.DistinctNames([Member(a, x), Member(b, y)])
    ensures JsonValues.DistinctNames([Member(a, x), Member(b, y), Member(c, z)])
  {
  }

  /** A stage nests one level deeper than its payload. */
  lemma StageFitsIff(s: Stage, depth: nat)
    ensures Fits(StageJson(s), depth) <==> Fits(s.payload, depth + 1)
  {
    NamesApart("kind", "policy_id", "payload", Text(s.kind), Text(s.policy), s.payload);
    FitsWithinBound(s.payload, depth + 1);
    var ms := StageJson(s).members;
    assert ms[0].value == Text(s.kind) && ms[1].value == Text(s.policy) && ms[2].value == s.payload;
  }

  lemma FitsWithinBound(v: Json, depth: nat)
    ensures Fits(v, depth) ==> depth <= MAX_DEPTH
  {
  }

  /** An envelope nests three levels deeper than its payloads. */
  lemma EnvelopeFitsIff(e: Envelope)
    ensures Fits(EnvelopeJson(e), 0) <==> forall i :: 0 <= i < |e.stages| ==> Fits(e.stages[i].payload, 3)
  {
    hide StageJson;
    var items := StagesJson(e.stages);
    NamesApart("schema", "stages", "", Text(e.schema), Array(items), Text(""));
    var ms := EnvelopeJson(e).members;
    assert ms[0].value == Text(e.schema) && ms[1].value == Array(items);
    forall i | 0 <= i < |items| ensures Fits(items[i], 2) <==> Fits(e.stages[i].payload, 3) {
      StageFitsIff(e.stages[i], 2);
    }
  }

  /** The bound counts from the envelope, three levels above a payload: an envelope of stages that are valid
      by themselves and in order is valid exactly when each payload would still fit three levels down. */
  lemma ValidEnvelopeIff(ss: seq<Stage>)
    ensures ValidEnvelope(Envelope(SCHEMA, ss)) <==>
              && |ss| <= MAX_STAGES && (forall i :: 0 <= i < |ss| ==> ValidStage(ss[i])) && InOrder(ss)
              && forall i :: 0 <= i < |ss| ==> Fits(ss[i].payload, 3)
  {
    hide ValidStage, InOrder, Fits, EnvelopeJson;
    EnvelopeFitsIff(Envelope(SCHEMA, ss));
  }

  /** Arrays within arrays. */
  function Nest(n: nat): Json {
    if n == 0 then Scalar("null") else Array([Nest(n - 1)])
  }

  lemma {:induction false} NestFitsIff(n: nat, depth: nat)
    ensures Fits(Nest(n), depth) <==> depth + n <= MAX_DEPTH
    decreases n
  {
    if n > 0 {
      NestFitsIff(n - 1, depth + 1);
      assert Nest(n).items[0] == Nest(n - 1);
    }
  }

  const DEEP_PAYLOAD := Object([Member("rules", Nest(MAX_DEPTH - 1))])

  lemma DeepPayloadFits(depth: nat)
    ensures Fits(DEEP_PAYLOAD, depth) <==> depth == 0
  {
    NestFitsIff(MAX_DEPTH - 1, depth + 1);
    FitsWithinBound(DEEP_PAYLOAD, depth);
    assert DEEP_PAYLOAD.members[0].value == Nest(MAX_DEPTH - 1);
  }

  /** For every kind and owner there is a stage that is valid by itself and that no envelope can carry. */
  lemma DeepPayloadIsRefused(kind: string, policy: string)
    requires Order(kind) != 0 && PolicyIdentity(policy)
    ensures ValidStage(Stage(kind, policy, DEEP_PAYLOAD))
    ensures !ValidEnvelope(Envelope(SCHEMA, [Stage(kind, policy, DEEP_PAYLOAD)]))
  {
    hide Fits, PolicyIdentity, Order;
    var s := Stage(kind, policy, DEEP_PAYLOAD);
    DeepPayloadFits(0);
    DeepPayloadFits(3);
    ValidEnvelopeIff([s]);
    assert [s][0].payload == DEEP_PAYLOAD;
  }
}

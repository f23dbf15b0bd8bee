/** The raw check on policy extension frames, against a message schema. It runs before an ordinary decoder,
    which would silently resolve repeated fields and conflicting alternatives; what it accepts leaves a
    decoder nothing to resolve. */
module ExtensionWire {
  import opened Sequences
  import opened Binary
  import opened ProtobufWire
  import opened WireResults

  const MAX_DEPTH := 8
  const MAX_REPEATED := 64
  const MAX_UINT32: int := 0xFFFF_FFFF
  const MAX_INT32: int := 0x7FFF_FFFF

  datatype Kind = MessageKind(schema: Schema) | StringKind | BytesKind | Uint32Kind | EnumKind(values: set<nat>) | BoolKind

  datatype FieldType = FieldType(kind: Kind, list: bool, oneof: Option<string>)

  datatype Schema = Schema(fields: map<nat, FieldType>)

  /** How many more levels may be opened. */
  function Levels(depth: nat): nat {
    if depth > MAX_DEPTH then 0 else MAX_DEPTH + 1 - depth
  }

  // ---------- what is accepted ----------

  ghost predicate ValueOk(k: Kind, v: Value, depth: nat)
    decreases Levels(depth), 0
  {
    match k
    case MessageKind(schema) => v.Length? && depth <= MAX_DEPTH && FrameOk(schema, v.payload, depth + 1)
    case StringKind => v.Length?
    case BytesKind => v.Length?
    case Uint32Kind => v.Varint? && v.number <= MAX_UINT32
    case EnumKind(values) => v.Varint? && v.number <= MAX_INT32 && v.number in values
    case BoolKind => v.Varint? && v.number <= 1
  }

  function Limit(t: FieldType): nat {
    if t.list then MAX_REPEATED else 1
  }

  predicate Known(s: Schema, f: Field) {
    f.number in s.fields
  }

  function OneofOf(s: Schema, f: Field): Option<string> {
    if Known(s, f) then s.fields[f.number].oneof else None
  }

  ghost predicate CountsOk(s: Schema, fs: seq<Field>) {
    forall n :: n in s.fields ==> |Selected(fs, n)| <= Limit(s.fields[n])
  }

  ghost predicate OneofsOk(s: Schema, fs: seq<Field>) {
    forall i, j :: 0 <= i < j < |fs| && OneofOf(s, fs[i]).Some? ==> OneofOf(s, fs[i]) != OneofOf(s, fs[j])
  }

  ghost predicate FieldOk(s: Schema, f: Field, depth: nat)
    decreases Levels(depth), 1
  {
    Known(s, f) && ValueOk(s.fields[f.number].kind, f.value, depth)
  }

  ghost predicate FieldsOk(s: Schema, fs: seq<Field>, depth: nat)
    decreases Levels(depth), 2
  {
    forall i :: 0 <= i < |fs| ==> FieldOk(s, fs[i], depth)
  }

  /** Known fields of the right type, each singular field once, lists within their bound, at most one member
      of each oneof, and the same of every message inside, eight levels down at most. */
  ghost predicate FrameOk(s: Schema, frame: Bytes, depth: nat)
    decreases Levels(depth), 3
  {
    depth <= MAX_DEPTH
    && var fs := ReadFields(frame);
       fs.Some? && FieldsOk(s, fs.value, depth) && CountsOk(s, fs.value) && OneofsOk(s, fs.value)
  }

  // ---------- what is refused ----------

  /** A field the schema does not know, or of another type than it says, spoils a frame; so does a field beyond its limit,
      and a second member of a oneof; so does anything that is not a field; and there is no other reason but depth. */
  lemma RefusedIff(s: Schema, frame: Bytes, depth: nat)
    ensures !FrameOk(s, frame, depth) <==>
              || depth > MAX_DEPTH || ReadFields(frame).None?
              || var fs := ReadFields(frame).value;
                 || (exists i :: 0 <= i < |fs| && IllTyped(s, fs[i], depth))
                 || (exists n :: n in s.fields && |Selected(fs, n)| > (if s.fields[n].list then MAX_REPEATED else 1))
                 || exists i, j :: 0 <= i < j < |fs| && SameOneof(s, fs[i], fs[j])
  {
    hide ReadFields, Selected;
    if depth <= MAX_DEPTH && ReadFields(frame).Some? {
      var fs := ReadFields(frame).value;
      forall i | 0 <= i < |fs| ensures FieldOk(s, fs[i], depth) <==> !IllTyped(s, fs[i], depth) {
        IllTypedIff(s, fs[i], depth);
      }
      assert OneofsOk(s, fs) <==> forall i, j :: 0 <= i < j < |fs| ==> !SameOneof(s, fs[i], fs[j]);
    }
  }

  ghost predicate SameOneof(s: Schema, f: Field, g: Field) {
    && f.number in s.fields && g.number in s.fields
    && s.fields[f.number].oneof.Some? && s.fields[f.number].oneof == s.fields[g.number].oneof
  }

  /** Unknown, of the wrong wire type, out of range, or a message that is itself refused or too deep. */
  ghost predicate IllTyped(s: Schema, f: Field, depth: nat) {
    || f.number !in s.fields
    || match s.fields[f.number].kind
       case MessageKind(schema) => !f.value.Length? || depth + 1 > MAX_DEPTH || !FrameOk(schema, f.value.payload, depth + 1)
       case StringKind => !f.value.Length?
       case BytesKind => !f.value.Length?
       case Uint32Kind => !f.value.Varint? || f.value.number >= 0x1_0000_0000
       case EnumKind(values) => !f.value.Varint? || f.value.number >= 0x8000_0000 || f.value.number !in values
       case BoolKind => !f.value.Varint? || f.value.number >= 2
  }

  lemma IllTypedIff(s: Schema, f: Field, depth: nat)
    requires depth <= MAX_DEPTH
    ensures FieldOk(s, f, depth) <==> !IllTyped(s, f, depth)
  {
    hide ReadFields, FieldsOk, CountsOk, OneofsOk;
  }

  // ---------- the loop ----------

  ghost predicate Good(s: Schema, fs: seq<Field>, depth: nat) {
    FieldsOk(s, fs, depth) && CountsOk(s, fs) && OneofsOk(s, fs)
  }

  /** The oneofs some member of which has been seen. */
  function Used(s: Schema, fs: seq<Field>): set<string> {
    set i | 0 <= i < |fs| && OneofOf(s, fs[i]).Some? :: OneofOf(s, fs[i]).value
  }

  lemma CountsStep(s: Schema, fs: seq<Field>, f: Field)
    requires CountsOk(s, fs) && Known(s, f)
    ensures CountsOk(s, fs + [f]) <==> |Selected(fs, f.number)| < Limit(s.fields[f.number])
  {
    forall n ensures |Selected(fs + [f], n)| == |Selected(fs, n)| + if f.number == n then 1 else 0 {
      SelectedAppend(fs, f, n);
    }
  }

  lemma OneofsStep(s: Schema, fs: seq<Field>, f: Field)
    requires OneofsOk(s, fs)
    ensures OneofsOk(s, fs + [f]) <==> (OneofOf(s, f).Some? ==> OneofOf(s, f).value !in Used(s, fs))
    ensures Used(s, fs + [f]) == Used(s, fs) + if OneofOf(s, f).Some? then {OneofOf(s, f).value} else {}
  {
    hide OneofOf;
    var gs := fs + [f];
    if OneofsOk(s, gs) && OneofOf(s, f).Some? {
      forall i | 0 <= i < |fs| && OneofOf(s, fs[i]).Some? ensures OneofOf(s, fs[i]) != OneofOf(s, f) {
        assert gs[i] == fs[i] && gs[|fs|] == f;
      }
    }
    forall x | x in Used(s, fs) ensures x in Used(s, gs) {
      var i :| 0 <= i < |fs| && OneofOf(s, fs[i]).Some? && OneofOf(s, fs[i]).value == x;
      assert gs[i] == fs[i];
    }
    assert OneofOf(s, gs[|fs|]) == OneofOf(s, f);
  }

  lemma GoodStep(s: Schema, fs: seq<Field>, f: Field, depth: nat)
    requires Good(s, fs, depth)
    ensures Good(s, fs + [f], depth) <==>
              && FieldOk(s, f, depth) && |Selected(fs, f.number)| < Limit(s.fields[f.number])
              && (OneofOf(s, f).Some? ==> OneofOf(s, f).value !in Used(s, fs))
  {
    hide CountsOk, OneofsOk, Used, OneofOf, ValueOk, Selected;
    if FieldsOk(s, fs + [f], depth) {
      assert (fs + [f])[|fs|] == f;
    }
    if Known(s, f) {
      CountsStep(s, fs, f);
    }
    OneofsStep(s, fs, f);
  }

  lemma GoodPrefix(s: Schema, a: seq<Field>, b: seq<Field>, depth: nat)
    requires Good(s, a + b, depth)
    ensures Good(s, a, depth)
  {
    hide FieldOk, OneofOf, Selected;
    var c := a + b;
    assert forall i :: 0 <= i < |a| ==> c[i] == a[i];
    forall n | n in s.fields ensures |Selected(a, n)| <= Limit(s.fields[n]) {
      SelectedConcat(a, b, n);
    }
  }

  lemma BrokenFrame(s: Schema, frame: Bytes, done: seq<Field>, rest: Bytes, depth: nat)
    requires ReadFields(frame) == Prefixed(done, ReadFields(rest)) && !Good(s, done, depth)
    ensures !FrameOk(s, frame, depth)
  {
    hide ReadFields, FieldsOk, CountsOk, OneofsOk;
    if FrameOk(s, frame, depth) {
      GoodPrefix(s, done, ReadFields(rest).value, depth);
    }
  }

  /** One pass over the frame; a message field is checked one level down. */
  method ValidateFrame(s: Schema, frame: Bytes, depth: nat) returns (ok: bool)
    ensures ok <==> FrameOk(s, frame, depth)
    decreases Levels(depth), 2
  {
    hide ReadFields, ReadField, Good, FieldOk, Selected, Used, OneofOf;
    if depth > MAX_DEPTH {
      return false;
    }
    var left := frame;
    ghost var done: seq<Field> := [];
    var counts: map<nat, nat> := map[];
    var oneofs: set<string> := {};
    NothingDone(ReadFields(frame));
    NothingSeenYet(s, depth);
    while left != []
      invariant ReadFields(frame) == Prefixed(done, ReadFields(left))
      invariant Good(s, done, depth) && oneofs == Used(s, done)
      invariant forall n :: CountOf(counts, n) == |Selected(done, n)|
      decreases |left|
    {
      var taken, f, rest := TakeField(left);
      if !taken {
        FieldFails(left);
        return false;
      }
      NextField(left, done);
      GoodStep(s, done, f, depth);
      var counted := CountOf(counts, f.number) + 1;
      var valid := CheckField(s, f, counted, oneofs, depth);
      if !valid {
        BrokenFrame(s, frame, done + [f], rest, depth);
        return false;
      }
      OneofsOfGood(s, done, f, depth);
      forall n ensures |Selected(done + [f], n)| == |Selected(done, n)| + if f.number == n then 1 else 0 {
        SelectedAppend(done, f, n);
      }
      counts := counts[f.number := counted];
      oneofs := oneofs + AsSet(s.fields[f.number].oneof);
      done := done + [f];
      left := rest;
    }
    NoneLeft(done);
    ok := true;
    assert FrameOk(s, frame, depth) by {
      GoodFrame(s, frame, done, depth);
    }
  }

  function CountOf(counts: map<nat, nat>, n: nat): nat {
    if n in counts then counts[n] else 0
  }

  function AsSet(o: Option<string>): set<string> {
    match o
    case None => {}
    case Some(x) => {x}
  }

  lemma NothingSeenYet(s: Schema, depth: nat)
    ensures Good(s, [], depth) && Used(s, []) == {} && forall n :: Selected([], n) == []
  {
  }

  lemma OneofsOfGood(s: Schema, fs: seq<Field>, f: Field, depth: nat)
    requires Good(s, fs, depth) && FieldOk(s, f, depth)
    ensures Known(s, f) && Used(s, fs + [f]) == Used(s, fs) + AsSet(s.fields[f.number].oneof)
  {
    hide Used, ValueOk, Selected;
    OneofsStep(s, fs, f);
  }

  lemma GoodFrame(s: Schema, frame: Bytes, fs: seq<Field>, depth: nat)
    requires ReadFields(frame) == Some(fs) && Good(s, fs, depth) && depth <= MAX_DEPTH
    ensures FrameOk(s, frame, depth)
  {
  }

  /** The checks on one field: it is known, within its count, first of its oneof, and its value fits. */
  method CheckField(s: Schema, f: Field, counted: nat, oneofs: set<string>, depth: nat) returns (ok: bool)
    requires depth <= MAX_DEPTH
    ensures ok <==>
              && FieldOk(s, f, depth) && counted <= Limit(s.fields[f.number])
              && (OneofOf(s, f).Some? ==> OneofOf(s, f).value !in oneofs)
    decreases Levels(depth), 1
  {
    hide FrameOk, ValueOk;
    if f.number !in s.fields {
      return false;
    }
    var t := s.fields[f.number];
    if (!t.list && counted > 1) || counted > MAX_REPEATED {
      return false;
    }
    if t.oneof.Some? && t.oneof.value in oneofs {
      return false;
    }
    assert OneofOf(s, f).Some? ==> OneofOf(s, f).value !in oneofs;
    ok := CheckValue(t.kind, f.value, depth);
  }

  method CheckValue(k: Kind, v: Value, depth: nat) returns (ok: bool)
    requires depth <= MAX_DEPTH
    ensures ok <==> ValueOk(k, v, depth)
    decreases Levels(depth), 0
  {
    match k {
      case MessageKind(schema) =>
        if !v.Length? {
          return false;
        }
        ok := ValidateFrame(schema, v.payload, depth + 1);
      case StringKind => ok := v.Length?;
      case BytesKind => ok := v.Length?;
      case Uint32Kind => ok := v.Varint? && v.number <= MAX_UINT32;
      case EnumKind(values) =>
        ok := v.Varint? && v.number <= MAX_UINT32 && v.number <= MAX_INT32 && v.number in values;
      case BoolKind => ok := v.Varint? && v.number <= MAX_UINT32 && v.number <= 1;
    }
  }

  // ---------- decoding ----------

  /** How a decoder resolves what occurs more than once: the first, the last, or, as protocol buffers
      prescribe, the last but with messages merged by joining their bytes. */
  datatype Resolve = KeepFirst | KeepLast | Merge

  datatype Node = Number(number: nat) | Text(text: Bytes) | Message(fields: map<nat, seq<Node>>)

  /** The field number that wins a oneof: of its members, the first or the last to occur. */
  function Winner(s: Schema, fs: seq<Field>, oneof: string, r: Resolve): Option<nat> {
    if fs == [] then None
    else
      var before := Winner(s, fs[..|fs| - 1], oneof, r);
      var last := fs[|fs| - 1];
      if OneofOf(s, last) != Some(oneof) || (r.KeepFirst? && before.Some?) then before else Some(last.number)
  }

  function Joined(vs: seq<Value>): Bytes {
    if vs == [] then []
    else (if vs[0].Length? then vs[0].payload else []) + Joined(vs[1..])
  }

  function Resolved(t: FieldType, vs: seq<Value>, r: Resolve): seq<Value>
    requires vs != []
  {
    if t.list then vs
    else match r
      case KeepFirst => [vs[0]]
      case KeepLast => [vs[|vs| - 1]]
      case Merge => if t.kind.MessageKind? then [Length(Joined(vs))] else [vs[|vs| - 1]]
  }

  /** The values field `n` is left with. */
  function ValuesOf(s: Schema, fs: seq<Field>, n: nat, r: Resolve): seq<Value>
    requires n in s.fields
  {
    var t := s.fields[n];
    var vs := Selected(fs, n);
    if vs == [] || (t.oneof.Some? && Winner(s, fs, t.oneof.value, r) != Some(n)) then [] else Resolved(t, vs, r)
  }

  function Decode(s: Schema, frame: Bytes, r: Resolve, depth: nat): map<nat, seq<Node>>
    decreases Levels(depth), 3
  {
    match ReadFields(frame)
    case None => map[]
    case Some(fs) =>
      if depth > MAX_DEPTH then map[]
      else map n | n in s.fields :: DecodeValues(s.fields[n].kind, ValuesOf(s, fs, n, r), r, depth)
  }

  function DecodeValues(k: Kind, vs: seq<Value>, r: Resolve, depth: nat): seq<Node>
    requires depth <= MAX_DEPTH
    decreases Levels(depth), 2, |vs|
  {
    if vs == [] then [] else [DecodeValue(k, vs[0], r, depth)] + DecodeValues(k, vs[1..], r, depth)
  }

  function DecodeValue(k: Kind, v: Value, r: Resolve, depth: nat): Node
    requires depth <= MAX_DEPTH
    decreases Levels(depth), 1
  {
    match v
    case Length(payload) =>
      if k.MessageKind? then Message(Decode(k.schema, payload, r, depth + 1)) else Text(payload)
    case Varint(number) => Number(number)
    case _ => Text([])
  }

  /** In an accepted frame a oneof is won by its only member that occurs. */
  lemma {:induction false} OnlyMemberWins(s: Schema, fs: seq<Field>, k: nat, r: Resolve)
    requires OneofsOk(s, fs) && k < |fs| && OneofOf(s, fs[k]).Some?
    ensures Winner(s, fs, OneofOf(s, fs[k]).value, r) == Some(fs[k].number)
    decreases |fs|
  {
    var n := |fs| - 1;
    var front := fs[..n];
    var oneof := OneofOf(s, fs[k]).value;
    if k < n {
      assert OneofsOk(s, front) && front[k] == fs[k];
      OnlyMemberWins(s, front, k, r);
      assert OneofOf(s, fs[n]) != Some(oneof);
    } else {
      NoMemberNoWinner(s, front, oneof, r);
    }
  }

  lemma {:induction false} NoMemberNoWinner(s: Schema, fs: seq<Field>, oneof: string, r: Resolve)
    requires forall i :: 0 <= i < |fs| ==> OneofOf(s, fs[i]) != Some(oneof)
    ensures Winner(s, fs, oneof, r).None?
    decreases |fs|
  {
    if fs != [] {
      NoMemberNoWinner(s, fs[..|fs| - 1], oneof, r);
    }
  }

  lemma {:induction false} SelectedFrom(fs: seq<Field>, n: nat, i: nat) returns (k: nat)
    requires i < |Selected(fs, n)|
    ensures k < |fs| && fs[k] == Field(n, Selected(fs, n)[i])
    decreases |fs|
  {
    var last := |fs| - 1;
    if i < |Selected(fs[..last], n)| {
      k := SelectedFrom(fs[..last], n, i);
    } else {
      k := last;
    }
  }

  /** Whatever the decoder's habit, an accepted frame leaves each field with the values that occur. */
  lemma NothingToResolve(s: Schema, fs: seq<Field>, n: nat, r: Resolve)
    requires n in s.fields && CountsOk(s, fs) && OneofsOk(s, fs)
    requires forall i :: 0 <= i < |Selected(fs, n)| && s.fields[n].kind.MessageKind? ==> Selected(fs, n)[i].Length?
    ensures ValuesOf(s, fs, n, r) == Selected(fs, n)
  {
    var vs := Selected(fs, n);
    var t := s.fields[n];
    if vs != [] {
      if t.oneof.Some? {
        var k := SelectedFrom(fs, n, 0);
        OnlyMemberWins(s, fs, k, r);
      }
      if !t.list {
        assert vs == [vs[0]];
        assert t.kind.MessageKind? ==> Joined(vs) == vs[0].payload + Joined(vs[1..]) == vs[0].payload;
      }
    }
  }

  lemma {:induction false} ValuesDecodeAlike(k: Kind, vs: seq<Value>, a: Resolve, b: Resolve, depth: nat)
    requires depth <= MAX_DEPTH && forall i :: 0 <= i < |vs| ==> ValueOk(k, vs[i], depth)
    ensures DecodeValues(k, vs, a, depth) == DecodeValues(k, vs, b, depth)
    decreases Levels(depth), 0, |vs|
  {
    hide FrameOk, Decode;
    if vs != [] {
      if k.MessageKind? {
        AcceptedDecodesAlike(k.schema, vs[0].payload, a, b, depth + 1);
      }
      ValuesDecodeAlike(k, vs[1..], a, b, depth);
    }
  }

  /** An accepted frame decodes to the same message at every level, whichever way a decoder resolves
      repetition. */
  lemma {:induction false} AcceptedDecodesAlike(s: Schema, frame: Bytes, a: Resolve, b: Resolve, depth: nat)
    requires FrameOk(s, frame, depth)
    ensures Decode(s, frame, a, depth) == Decode(s, frame, b, depth)
    decreases Levels(depth), 1
  {
    hide ReadFields, Selected, ValueOk, ValuesOf, CountsOk, OneofsOk, DecodeValues;
    var fs := ReadFields(frame).value;
    forall n | n in s.fields
      ensures DecodeValues(s.fields[n].kind, ValuesOf(s, fs, n, a), a, depth)
              == DecodeValues(s.fields[n].kind, ValuesOf(s, fs, n, b), b, depth)
    {
      SelectedAreOk(s, fs, n, depth);
      NothingToResolve(s, fs, n, a);
      NothingToResolve(s, fs, n, b);
      ValuesDecodeAlike(s.fields[n].kind, Selected(fs, n), a, b, depth);
    }
  }

  lemma SelectedAreOk(s: Schema, fs: seq<Field>, n: nat, depth: nat)
    requires n in s.fields && FieldsOk(s, fs, depth)
    ensures forall i :: 0 <= i < |Selected(fs, n)| ==>
              ValueOk(s.fields[n].kind, Selected(fs, n)[i], depth)
              && (s.fields[n].kind.MessageKind? ==> Selected(fs, n)[i].Length?)
  {
    hide Selected, FrameOk;
    forall i | 0 <= i < |Selected(fs, n)|
      ensures ValueOk(s.fields[n].kind, Selected(fs, n)[i], depth)
      ensures s.fields[n].kind.MessageKind? ==> Selected(fs, n)[i].Length?
    {
      var k := SelectedFrom(fs, n, i);
      assert FieldOk(s, fs[k], depth);
    }
  }
}

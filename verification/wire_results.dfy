/** The raw checks on result frames. A result frame carries a success (field 1) or an error (field 2); an
    ordinary decoder keeps the last of several, so the frame is inspected before it is decoded. */
module WireResults {
  import opened Sequences
  import opened Binary
  import opened ProtobufWire

  // ---------- what is accepted ----------

  /** The values of field `n`, in order. */
  function Selected(fs: seq<Field>, n: nat): seq<Value> {
    if fs == [] then []
    else Selected(fs[..|fs| - 1], n) + (if fs[|fs| - 1].number == n then [fs[|fs| - 1].value] else [])
  }

  datatype Content = Range(low: nat, high: nat) | Payload

  /** A field that may occur once, with the content it must have. */
  datatype Rule = Rule(number: nat, required: bool, content: Content)

  predicate Fits(v: Value, c: Content) {
    match c
    case Range(low, high) => v.Varint? && low <= v.number <= high
    case Payload => v.Length?
  }

  /** The rule holds of the fields so far: at most one of its number, and that one fits. */
  predicate SoFar(fs: seq<Field>, r: Rule) {
    var vs := Selected(fs, r.number);
    vs == [] || (|vs| == 1 && Fits(vs[0], r.content))
  }

  predicate Obeys(fs: seq<Field>, r: Rule) {
    SoFar(fs, r) && (r.required ==> Selected(fs, r.number) != [])
  }

  const ACTION := Rule(1, true, Range(1, 3))
  const POLICY_PAYLOAD := Rule(2, false, Payload)
  const READY := Rule(1, true, Range(1, 1))
  const CODE := Rule(1, true, Range(1, 7))
  const MESSAGE := Rule(2, false, Payload)
  const RETRYABLE := Rule(3, false, Range(0, 1))

  predicate PolicySuccess(p: Bytes) {
    var fs := ReadFields(p);
    fs.Some? && Obeys(fs.value, ACTION) && Obeys(fs.value, POLICY_PAYLOAD)
  }

  predicate LifecycleSuccess(p: Bytes) {
    var fs := ReadFields(p);
    fs.Some? && Obeys(fs.value, READY)
  }

  predicate RuntimeErrorPayload(p: Bytes) {
    var fs := ReadFields(p);
    fs.Some? && Obeys(fs.value, CODE) && Obeys(fs.value, MESSAGE) && Obeys(fs.value, RETRYABLE)
  }

  datatype Outcome = Outcome(number: nat, payload: Bytes)

  /** The one result of a frame. */
  function ResultIn(fs: seq<Field>): Option<Outcome> {
    var s, e := Selected(fs, 1), Selected(fs, 2);
    if |s| == 1 && e == [] && s[0].Length? then Some(Outcome(1, s[0].payload))
    else if s == [] && |e| == 1 && e[0].Length? then Some(Outcome(2, e[0].payload))
    else None
  }

  function ResultOf(frame: Bytes): Option<Outcome> {
    match ReadFields(frame)
    case None => None
    case Some(fs) => ResultIn(fs)
  }

  predicate PolicyResponse(frame: Bytes) {
    var r := ResultOf(frame);
    r.Some? && if r.value.number == 1 then PolicySuccess(r.value.payload) else RuntimeErrorPayload(r.value.payload)
  }

  predicate LifecycleResponse(frame: Bytes) {
    var r := ResultOf(frame);
    r.Some? && if r.value.number == 1 then LifecycleSuccess(r.value.payload) else RuntimeErrorPayload(r.value.payload)
  }

  // ---------- accepted, spelled out ----------

  /** A rule that demands one field of a number is met by one number in range; one that allows a field is also met by
      none. */
  lemma ObeysIff(fs: seq<Field>, r: Rule)
    ensures r.content.Range? ==>
              (Obeys(fs, r) <==>
                || (!r.required && Selected(fs, r.number) == [])
                || exists v :: r.content.low <= v <= r.content.high && Selected(fs, r.number) == [Varint(v)])
    ensures r.content.Payload? ==>
              (Obeys(fs, r) <==>
                || (!r.required && Selected(fs, r.number) == [])
                || exists p :: Selected(fs, r.number) == [Length(p)])
  {
    var vs := Selected(fs, r.number);
    if |vs| == 1 && vs[0].Varint? {
      assert vs == [Varint(vs[0].number)];
    }
    if |vs| == 1 && vs[0].Length? {
      assert vs == [Length(vs[0].payload)];
    }
  }

  /** The fields of a frame that reads, and that has exactly this payload as its one result. */
  ghost predicate OnlyResult(frame: Bytes, number: nat, payload: Bytes) {
    && ReadFields(frame).Some? && Selected(ReadFields(frame).value, number) == [Length(payload)]
    && Selected(ReadFields(frame).value, if number == 1 then 2 else 1) == []
  }

  lemma ResultIff(frame: Bytes, number: nat, payload: Bytes)
    requires number == 1 || number == 2
    ensures ResultOf(frame) == Some(Outcome(number, payload)) <==> OnlyResult(frame, number, payload)
  {
    hide Selected, ReadFields;
    if ReadFields(frame).Some? {
      var s, e := Selected(ReadFields(frame).value, 1), Selected(ReadFields(frame).value, 2);
      if |s| == 1 && s[0].Length? {
        assert s == [Length(s[0].payload)];
      }
      if |e| == 1 && e[0].Length? {
        assert e == [Length(e[0].payload)];
      }
    }
  }

  /** The fields of a number, in a payload that reads. */
  function Given(p: Bytes, n: nat): seq<Value> {
    match ReadFields(p)
    case None => []
    case Some(fs) => Selected(fs, n)
  }

  /** A policy response is one success, with one action of the three and a payload or none, or one error, with one code of
      the seven, a message or none, and a flag or none. Other fields do not matter. */
  lemma PolicyResponseIff(frame: Bytes)
    ensures PolicyResponse(frame) <==>
              || (exists p :: OnlyResult(frame, 1, p) && ActionGiven(p))
              || (exists p :: OnlyResult(frame, 2, p) && ErrorGiven(p))
  {
    hide ReadFields, Selected, OnlyResult, ResultOf, PolicySuccess, RuntimeErrorPayload, ActionGiven, ErrorGiven;
    ResultIsOneOfTwo(frame);
    forall p ensures ResultOf(frame) == Some(Outcome(1, p)) <==> OnlyResult(frame, 1, p) { ResultIff(frame, 1, p); }
    forall p ensures ResultOf(frame) == Some(Outcome(2, p)) <==> OnlyResult(frame, 2, p) { ResultIff(frame, 2, p); }
    forall p ensures PolicySuccess(p) <==> ActionGiven(p) { ActionIff(p); }
    forall p ensures RuntimeErrorPayload(p) <==> ErrorGiven(p) { ErrorIff(p); }
  }

  lemma ResultIsOneOfTwo(frame: Bytes)
    ensures ResultOf(frame).Some? ==> ResultOf(frame).value.number == 1 || ResultOf(frame).value.number == 2
    ensures ResultOf(frame).Some? ==>
              ResultOf(frame) == Some(Outcome(ResultOf(frame).value.number, ResultOf(frame).value.payload))
  {
    hide ReadFields, Selected;
  }

  /** A lifecycle response is one success that says ready and nothing else of it, or one such error. */
  lemma LifecycleResponseIff(frame: Bytes)
    ensures LifecycleResponse(frame) <==>
              || (exists p :: OnlyResult(frame, 1, p) && ReadFields(p).Some? && Given(p, 1) == [Varint(1)])
              || (exists p :: OnlyResult(frame, 2, p) && ErrorGiven(p))
  {
    hide ReadFields, Selected, OnlyResult, ResultOf, LifecycleSuccess, RuntimeErrorPayload, Given, ErrorGiven;
    ResultIsOneOfTwo(frame);
    forall p ensures ResultOf(frame) == Some(Outcome(1, p)) <==> OnlyResult(frame, 1, p) { ResultIff(frame, 1, p); }
    forall p ensures ResultOf(frame) == Some(Outcome(2, p)) <==> OnlyResult(frame, 2, p) { ResultIff(frame, 2, p); }
    forall p ensures LifecycleSuccess(p) <==> ReadFields(p).Some? && Given(p, 1) == [Varint(1)] { ReadyIff(p); }
    forall p ensures RuntimeErrorPayload(p) <==> ErrorGiven(p) { ErrorIff(p); }
  }

  ghost predicate ActionGiven(p: Bytes) {
    && ReadFields(p).Some? && (exists a :: 1 <= a <= 3 && Given(p, 1) == [Varint(a)])
    && (Given(p, 2) == [] || exists d :: Given(p, 2) == [Length(d)])
  }

  ghost predicate ErrorGiven(p: Bytes) {
    && ReadFields(p).Some? && (exists c :: 1 <= c <= 7 && Given(p, 1) == [Varint(c)])
    && (Given(p, 2) == [] || exists m :: Given(p, 2) == [Length(m)])
    && (Given(p, 3) == [] || Given(p, 3) == [Varint(0)] || Given(p, 3) == [Varint(1)])
  }

  lemma ActionIff(p: Bytes)
    ensures PolicySuccess(p) <==> ActionGiven(p)
  {
    hide ReadFields, Selected, Obeys;
    if ReadFields(p).Some? {
      ObeysIff(ReadFields(p).value, ACTION);
      ObeysIff(ReadFields(p).value, POLICY_PAYLOAD);
    }
  }

  lemma ReadyIff(p: Bytes)
    ensures LifecycleSuccess(p) <==> ReadFields(p).Some? && Given(p, 1) == [Varint(1)]
  {
    hide ReadFields, Selected, Obeys;
    if ReadFields(p).Some? {
      ObeysIff(ReadFields(p).value, READY);
    }
  }

  lemma ErrorIff(p: Bytes)
    ensures RuntimeErrorPayload(p) <==> ErrorGiven(p)
  {
    hide ReadFields, Selected, Obeys;
    if ReadFields(p).Some? {
      var fs := ReadFields(p).value;
      ObeysIff(fs, CODE);
      ObeysIff(fs, MESSAGE);
      ObeysIff(fs, RETRYABLE);
      assert Selected(fs, 3) == [Varint(0)] ==> 0 <= 0 <= 1 && Selected(fs, 3) == [Varint(0)];
    }
  }

  // ---------- the loops ----------

  function Prefixed(done: seq<Field>, r: Option<seq<Field>>): Option<seq<Field>> {
    match r
    case None => None
    case Some(fs) => Some(done + fs)
  }

  lemma NextField(s: Bytes, done: seq<Field>)
    requires s != [] && ReadField(s).Got?
    ensures Prefixed(done, ReadFields(s)) == Prefixed(done + [ReadField(s).value], ReadFields(ReadField(s).rest))
  {
    hide ReadField;
    match ReadFields(ReadField(s).rest)
    case None =>
    case Some(fs) => assert done + ([ReadField(s).value] + fs) == done + [ReadField(s).value] + fs;
  }

  lemma NoneLeft(done: seq<Field>)
    ensures Prefixed(done, ReadFields([])) == Some(done)
  {
    assert done + [] == done;
  }

  lemma NothingDone(r: Option<seq<Field>>)
    ensures Prefixed([], r) == r
  {
    match r
    case None =>
    case Some(fs) => assert [] + fs == fs;
  }

  lemma SelectedAppend(fs: seq<Field>, f: Field, n: nat)
    ensures Selected(fs + [f], n) == Selected(fs, n) + (if f.number == n then [f.value] else [])
  {
    assert (fs + [f])[..|fs|] == fs;
  }

  lemma {:induction false} SelectedConcat(a: seq<Field>, b: seq<Field>, n: nat)
    ensures Selected(a + b, n) == Selected(a, n) + Selected(b, n)
    decreases |b|
  {
    if b == [] {
      assert a + b == a;
    } else {
      var front := b[..|b| - 1];
      SelectedConcat(a, front, n);
      assert a + b == (a + front) + [b[|b| - 1]];
      SelectedAppend(a + front, b[|b| - 1], n);
    }
  }

  /** Adding a field keeps a rule exactly when the field is another's, or fits and is the first. */
  lemma SoFarStep(fs: seq<Field>, f: Field, r: Rule)
    ensures SoFar(fs + [f], r) <==>
              SoFar(fs, r) && (f.number == r.number ==> Selected(fs, r.number) == [] && Fits(f.value, r.content))
  {
    SelectedAppend(fs, f, r.number);
  }

  /** A rule broken early stays broken, however the frame goes on. */
  lemma BrokenStaysBroken(start: Bytes, done: seq<Field>, rest: Bytes, r: Rule)
    requires ReadFields(start) == Prefixed(done, ReadFields(rest)) && !SoFar(done, r)
    ensures ReadFields(start).Some? ==> !Obeys(ReadFields(start).value, r)
  {
    if ReadFields(rest).Some? {
      SelectedConcat(done, ReadFields(rest).value, r.number);
    }
  }

  /** One field off the front, as the parser takes it: a tag, then the value it announces. */
  method TakeField(frame: Bytes) returns (ok: bool, f: Field, rest: Bytes)
    requires frame != []
    ensures ok <==> ReadField(frame).Got?
    ensures ok ==> Got(f, rest) == ReadField(frame)
  {
    hide ReadTag, SkipValue;
    f, rest := Field(0, Varint(0)), frame;
    var tag := ReadTag(frame);
    if tag.Fail? {
      return false, f, rest;
    }
    var value := SkipValue(tag.value, tag.rest, GROUP_DEPTH);
    if value.Fail? {
      return false, f, rest;
    }
    ok, f, rest := true, Field(tag.value.number, value.value), value.rest;
  }

  method ConsumeExclusiveResult(frame: Bytes) returns (r: Option<Outcome>)
    ensures r == ResultOf(frame)
  {
    hide ReadFields, ReadField;
    var left := frame;
    ghost var done: seq<Field> := [];
    r := None;
    NothingDone(ReadFields(frame));
    while left != []
      invariant ReadFields(frame) == Prefixed(done, ReadFields(left))
      invariant r == ResultIn(done)
      invariant r.None? ==> Selected(done, 1) == [] && Selected(done, 2) == []
      decreases |left|
    {
      var ok, f, rest := TakeField(left);
      if !ok {
        FieldFails(left);
        return None;
      }
      NextField(left, done);
      SelectedAppend(done, f, 1);
      SelectedAppend(done, f, 2);
      done := done + [f];
      left := rest;
      if f.number == 1 || f.number == 2 {
        if !f.value.Length? || r.Some? {
          ConflictStays(frame, done, left);
          return None;
        }
        r := Some(Outcome(f.number, f.value.payload));
      }
    }
    NoneLeft(done);
  }

  lemma FieldFails(s: Bytes)
    requires s != [] && ReadField(s).Fail?
    ensures ReadFields(s).None?
  {
  }

  lemma ConflictStays(start: Bytes, done: seq<Field>, rest: Bytes)
    requires ReadFields(start) == Prefixed(done, ReadFields(rest))
    requires ResultIn(done).None? && (Selected(done, 1) != [] || Selected(done, 2) != [])
    ensures ResultOf(start).None?
  {
    hide ReadFields;
    if ReadFields(rest).Some? {
      SelectedConcat(done, ReadFields(rest).value, 1);
      SelectedConcat(done, ReadFields(rest).value, 2);
    }
  }

  method ValidatePolicySuccess(payload: Bytes) returns (ok: bool)
    ensures ok == PolicySuccess(payload)
  {
    hide ReadFields, ReadField, SoFar, Selected;
    var left := payload;
    ghost var done: seq<Field> := [];
    var seenAction, seenPayload := false, false;
    NothingDone(ReadFields(payload));
    NothingSeen(ACTION);
    NothingSeen(POLICY_PAYLOAD);
    while left != []
      invariant ReadFields(payload) == Prefixed(done, ReadFields(left))
      invariant SoFar(done, ACTION) && SoFar(done, POLICY_PAYLOAD)
      invariant seenAction <==> Selected(done, 1) != []
      invariant seenPayload <==> Selected(done, 2) != []
      decreases |left|
    {
      var taken, f, rest := TakeField(left);
      if !taken {
        FieldFails(left);
        return false;
      }
      NextField(left, done);
      SelectedAppend(done, f, 1);
      SelectedAppend(done, f, 2);
      SoFarStep(done, f, ACTION);
      SoFarStep(done, f, POLICY_PAYLOAD);
      done := done + [f];
      left := rest;
      if f.number == 1 {
        if !f.value.Varint? || seenAction || f.value.number < 1 || f.value.number > 3 {
          BrokenStaysBroken(payload, done, left, ACTION);
          return false;
        }
        seenAction := true;
      } else if f.number == 2 {
        if !f.value.Length? || seenPayload {
          BrokenStaysBroken(payload, done, left, POLICY_PAYLOAD);
          return false;
        }
        seenPayload := true;
      }
    }
    NoneLeft(done);
    ok := seenAction;
  }

  lemma NothingSeen(r: Rule)
    ensures SoFar([], r) && Selected([], r.number) == []
  {
  }

  method ValidateLifecycleSuccess(payload: Bytes) returns (ok: bool)
    ensures ok == LifecycleSuccess(payload)
  {
    hide ReadFields, ReadField, SoFar, Selected;
    var left := payload;
    ghost var done: seq<Field> := [];
    var seenReady := false;
    NothingDone(ReadFields(payload));
    NothingSeen(READY);
    while left != []
      invariant ReadFields(payload) == Prefixed(done, ReadFields(left))
      invariant SoFar(done, READY) && (seenReady <==> Selected(done, 1) != [])
      decreases |left|
    {
      var taken, f, rest := TakeField(left);
      if !taken {
        FieldFails(left);
        return false;
      }
      NextField(left, done);
      SelectedAppend(done, f, 1);
      SoFarStep(done, f, READY);
      done := done + [f];
      left := rest;
      if f.number == 1 {
        if !f.value.Varint? || seenReady || f.value.number != 1 {
          BrokenStaysBroken(payload, done, left, READY);
          return false;
        }
        seenReady := true;
      }
    }
    NoneLeft(done);
    ok := seenReady;
  }

  method ValidateRuntimeError(payload: Bytes) returns (ok: bool)
    ensures ok == RuntimeErrorPayload(payload)
  {
    hide ReadFields, ReadField, SoFar, Selected;
    var left := payload;
    ghost var done: seq<Field> := [];
    var seenCode, seenMessage, seenRetryable := false, false, false;
    NothingDone(ReadFields(payload));
    NothingSeen(CODE);
    NothingSeen(MESSAGE);
    NothingSeen(RETRYABLE);
    while left != []
      invariant ReadFields(payload) == Prefixed(done, ReadFields(left))
      invariant SoFar(done, CODE) && SoFar(done, MESSAGE) && SoFar(done, RETRYABLE)
      invariant seenCode <==> Selected(done, 1) != []
      invariant seenMessage <==> Selected(done, 2) != []
      invariant seenRetryable <==> Selected(done, 3) != []
      decreases |left|
    {
      var taken, f, rest := TakeField(left);
      if !taken {
        FieldFails(left);
        return false;
      }
      NextField(left, done);
      SelectedAppend(done, f, 1);
      SelectedAppend(done, f, 2);
      SelectedAppend(done, f, 3);
      SoFarStep(done, f, CODE);
      SoFarStep(done, f, MESSAGE);
      SoFarStep(done, f, RETRYABLE);
      done := done + [f];
      left := rest;
      if f.number == 1 {
        if !f.value.Varint? || seenCode || f.value.number < 1 || f.value.number > 7 {
          BrokenStaysBroken(payload, done, left, CODE);
          return false;
        }
        seenCode := true;
      } else if f.number == 2 {
        if !f.value.Length? || seenMessage {
          BrokenStaysBroken(payload, done, left, MESSAGE);
          return false;
        }
        seenMessage := true;
      } else if f.number == 3 {
        if !f.value.Varint? || seenRetryable || f.value.number > 1 {
          BrokenStaysBroken(payload, done, left, RETRYABLE);
          return false;
        }
        seenRetryable := true;
      }
    }
    NoneLeft(done);
    ok := seenCode;
  }

  method ValidatePolicyEvaluateResponseFrame(frame: Bytes) returns (ok: bool)
    ensures ok == PolicyResponse(frame)
  {
    hide ResultOf, PolicySuccess, RuntimeErrorPayload;
    var r := ConsumeExclusiveResult(frame);
    if r.None? {
      return false;
    }
    if r.value.number == 1 {
      ok := ValidatePolicySuccess(r.value.payload);
    } else {
      ok := ValidateRuntimeError(r.value.payload);
    }
  }

  method ValidateRPCLifecycleResponseFrame(frame: Bytes) returns (ok: bool)
    ensures ok == LifecycleResponse(frame)
  {
    hide ResultOf, LifecycleSuccess, RuntimeErrorPayload;
    var r := ConsumeExclusiveResult(frame);
    if r.None? {
      return false;
    }
    if r.value.number == 1 {
      ok := ValidateLifecycleSuccess(r.value.payload);
    } else {
      ok := ValidateRuntimeError(r.value.payload);
    }
  }

  // ---------- order and unknown fields do not matter ----------

  lemma {:induction false} SelectedCounts(fs: seq<Field>, n: nat, v: Value)
    ensures multiset(Selected(fs, n))[v] == multiset(fs)[Field(n, v)]
    decreases |fs|
  {
    if fs != [] {
      var front := fs[..|fs| - 1];
      SelectedCounts(front, n, v);
      assert fs == front + [fs[|fs| - 1]];
    }
  }

  lemma SameMultiset<T>(a: seq<T>, b: seq<T>)
    requires multiset(a) == multiset(b)
    ensures |a| == |b| && (|a| == 1 ==> a == b)
  {
    assert |multiset(a)| == |a| && |multiset(b)| == |b|;
    if |a| == 1 {
      assert a[0] in multiset(b);
    }
  }

  /** One occurrence, however the fields are ordered, is the same occurrence. */
  lemma OneOccurrence(a: seq<Field>, b: seq<Field>, n: nat)
    requires multiset(a) == multiset(b)
    ensures |Selected(a, n)| == |Selected(b, n)|
    ensures |Selected(a, n)| == 1 ==> Selected(a, n) == Selected(b, n)
  {
    hide Selected;
    var va, vb := Selected(a, n), Selected(b, n);
    forall v ensures multiset(va)[v] == multiset(vb)[v] {
      SelectedCounts(a, n, v);
      SelectedCounts(b, n, v);
    }
    assert multiset(va) == multiset(vb);
    SameMultiset(va, vb);
  }

  ghost predicate AllChunks(cs: seq<Bytes>) {
    forall i :: 0 <= i < |cs| ==> Chunk(cs[i])
  }

  lemma {:induction false} FieldsOfConcat(a: seq<Bytes>, b: seq<Bytes>)
    ensures FieldsOf(a + b) == FieldsOf(a) + FieldsOf(b)
    decreases |a|
  {
    hide FieldIn;
    if a == [] {
      assert a + b == b;
    } else {
      assert (a + b)[1..] == a[1..] + b;
      FieldsOfConcat(a[1..], b);
    }
  }

  lemma OneField(c: Bytes)
    ensures FieldsOf([c]) == [FieldIn(c)]
  {
    hide FieldIn;
    assert |[c][1..]| == 0;
  }

  lemma FieldsAround(a: seq<Bytes>, c: Bytes, b: seq<Bytes>)
    ensures FieldsOf(a + ([c] + b)) == FieldsOf(a) + ([FieldIn(c)] + FieldsOf(b))
  {
    hide FieldIn;
    OneField(c);
    FieldsOfConcat([c], b);
    FieldsOfConcat(a, [c] + b);
  }

  lemma {:induction false} SameFields(a: seq<Bytes>, b: seq<Bytes>)
    requires multiset(a) == multiset(b)
    ensures multiset(FieldsOf(a)) == multiset(FieldsOf(b))
    decreases |a|
  {
    hide FieldIn;
    SameMultiset(a, b);
    if a != [] {
      assert a[0] in multiset(b);
      var i :| 0 <= i < |b| && b[i] == a[0];
      var x, y := b[..i], b[i + 1..];
      TakeOut(a, b, i);
      SameFields(a[1..], x + y);
      FieldsOfConcat(x, y);
      FieldsAround(x, b[i], y);
    }
  }

  lemma TakeOut<T>(a: seq<T>, b: seq<T>, i: nat)
    requires a != [] && i < |b| && b[i] == a[0] && multiset(a) == multiset(b)
    ensures b == b[..i] + ([b[i]] + b[i + 1..]) && multiset(a[1..]) == multiset(b[..i] + b[i + 1..])
  {
    var x, y := b[..i], b[i + 1..];
    assert a == [a[0]] + a[1..];
    assert b == x + ([b[i]] + y);
    assert multiset(a) == multiset([a[0]]) + multiset(a[1..]);
    assert multiset(b) == multiset(x) + (multiset([b[i]]) + multiset(y));
    assert multiset(x + y) == multiset(x) + multiset(y);
    assert multiset([a[0]]) == multiset([b[i]]);
    calc {
      multiset(a[1..]);
      multiset(a) - multiset([a[0]]);
      multiset(b) - multiset([b[i]]);
      multiset(x) + multiset(y);
      multiset(x + y);
    }
  }

  /** Reordering the fields of a result frame changes neither its result nor its acceptance. */
  lemma ReorderingKeepsTheResult(a: seq<Bytes>, b: seq<Bytes>)
    requires AllChunks(a) && AllChunks(b) && multiset(a) == multiset(b)
    ensures ResultOf(Join(a)) == ResultOf(Join(b))
    ensures PolicyResponse(Join(a)) == PolicyResponse(Join(b)) && LifecycleResponse(Join(a)) == LifecycleResponse(Join(b))
  {
    hide Chunk, ReadFields, FieldsOf, Join, Selected, PolicySuccess, LifecycleSuccess, RuntimeErrorPayload;
    JoinedReads(a);
    JoinedReads(b);
    SameFields(a, b);
    OneOccurrence(FieldsOf(a), FieldsOf(b), 1);
    OneOccurrence(FieldsOf(a), FieldsOf(b), 2);
  }

  /** Nor does a well-formed unknown field, wherever it is put. */
  lemma UnknownFieldsKeepTheResult(a: seq<Bytes>, unknown: Bytes, b: seq<Bytes>)
    requires AllChunks(a) && AllChunks(b) && Chunk(unknown) && FieldIn(unknown).number !in {1, 2}
    ensures ResultOf(Join(a + ([unknown] + b))) == ResultOf(Join(a + b))
    ensures PolicyResponse(Join(a + ([unknown] + b))) == PolicyResponse(Join(a + b))
    ensures LifecycleResponse(Join(a + ([unknown] + b))) == LifecycleResponse(Join(a + b))
  {
    hide Chunk, ReadFields, FieldIn, Join, FieldsOf, Selected, PolicySuccess, LifecycleSuccess, RuntimeErrorPayload;
    JoinedReads(a + ([unknown] + b));
    JoinedReads(a + b);
    FieldsAround(a, unknown, b);
    FieldsOfConcat(a, b);
    SkippedWhenUnknown(FieldsOf(a), FieldIn(unknown), FieldsOf(b), 1);
    SkippedWhenUnknown(FieldsOf(a), FieldIn(unknown), FieldsOf(b), 2);
  }

  lemma SkippedWhenUnknown(a: seq<Field>, u: Field, b: seq<Field>, n: nat)
    requires u.number != n
    ensures Selected(a + ([u] + b), n) == Selected(a + b, n)
  {
    SelectedAppend([], u, n);
    assert [] + [u] == [u];
    SelectedConcat([u], b, n);
    SelectedConcat(a, [u] + b, n);
    SelectedConcat(a, b, n);
  }

  // ---------- nothing is hidden from a decoder ----------

  datatype Keep = First | Last

  function Kept(vs: seq<Value>, keep: Keep): Option<Value> {
    if vs == [] then None else Some(if keep.First? then vs[0] else vs[|vs| - 1])
  }

  /** The member of the oneof that a decoder ends up with. */
  function KeptResult(fs: seq<Field>, keep: Keep): Option<Field> {
    if fs == [] then None
    else
      var last := fs[|fs| - 1];
      var before := KeptResult(fs[..|fs| - 1], keep);
      if last.number != 1 && last.number != 2 then before
      else if keep.First? && before.Some? then before
      else Some(last)
  }

  /** What is read out of an accepted payload: the kept value of each of the fields that have a meaning. */
  function KeptFields(p: Bytes, keep: Keep): (Option<Value>, Option<Value>, Option<Value>) {
    match ReadFields(p)
    case None => (None, None, None)
    case Some(fs) => (Kept(Selected(fs, 1), keep), Kept(Selected(fs, 2), keep), Kept(Selected(fs, 3), keep))
  }

  lemma {:induction false} KeptIsTheResult(fs: seq<Field>, keep: Keep)
    ensures Selected(fs, 1) == [] && Selected(fs, 2) == [] ==> KeptResult(fs, keep).None?
    ensures ResultIn(fs).Some? ==>
              KeptResult(fs, keep) == Some(Field(ResultIn(fs).value.number, Length(ResultIn(fs).value.payload)))
    decreases |fs|
  {
    if fs != [] {
      KeptIsTheResult(fs[..|fs| - 1], keep);
    }
  }

  lemma OnceKeeps(fs: seq<Field>, r: Rule)
    requires Obeys(fs, r)
    ensures Kept(Selected(fs, r.number), First) == Kept(Selected(fs, r.number), Last)
  {
  }

  /** An accepted policy response decodes the same whether a decoder keeps the first or the last of what
      it finds, for the result itself and for every field inside it (field 3 has no meaning in a success). */
  lemma AcceptedPolicyResponseIsUnambiguous(frame: Bytes)
    requires PolicyResponse(frame)
    ensures
      var fs := ReadFields(frame).value;
      var r := ResultOf(frame).value;
      && KeptResult(fs, First) == KeptResult(fs, Last) == Some(Field(r.number, Length(r.payload)))
      && KeptFields(r.payload, First).0 == KeptFields(r.payload, Last).0
      && KeptFields(r.payload, First).1 == KeptFields(r.payload, Last).1
      && (r.number == 2 ==> KeptFields(r.payload, First) == KeptFields(r.payload, Last))
  {
    hide ReadFields, Selected, Obeys;
    var fs := ReadFields(frame).value;
    KeptIsTheResult(fs, First);
    KeptIsTheResult(fs, Last);
    var r := ResultOf(frame).value;
    var inner := ReadFields(r.payload).value;
    if r.number == 1 {
      OnceKeeps(inner, ACTION);
      OnceKeeps(inner, POLICY_PAYLOAD);
    } else {
      OnceKeeps(inner, CODE);
      OnceKeeps(inner, MESSAGE);
      OnceKeeps(inner, RETRYABLE);
    }
  }

  /** And an accepted lifecycle response. */
  lemma AcceptedLifecycleResponseIsUnambiguous(frame: Bytes)
    requires LifecycleResponse(frame)
    ensures
      var fs := ReadFields(frame).value;
      var r := ResultOf(frame).value;
      && KeptResult(fs, First) == KeptResult(fs, Last) == Some(Field(r.number, Length(r.payload)))
      && KeptFields(r.payload, First).0 == KeptFields(r.payload, Last).0
      && (r.number == 2 ==> KeptFields(r.payload, First) == KeptFields(r.payload, Last))
  {
    hide ReadFields, Selected, Obeys;
    var fs := ReadFields(frame).value;
    KeptIsTheResult(fs, First);
    KeptIsTheResult(fs, Last);
    var r := ResultOf(frame).value;
    var inner := ReadFields(r.payload).value;
    if r.number == 1 {
      OnceKeeps(inner, READY);
    } else {
      OnceKeeps(inner, CODE);
      OnceKeeps(inner, MESSAGE);
      OnceKeeps(inner, RETRYABLE);
    }
  }
}

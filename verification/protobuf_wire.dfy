/** The wire format of protocol buffers: varints, tags and field values, as a parser consumes them from the
    front of a frame. */
module ProtobufWire {
  import opened Sequences
  import opened Binary

  const U64: int := 0x1_0000_0000_0000_0000
  const MAX_VARINT_BYTES := 10
  const MAX_FIELD_NUMBER := 0x7FFF_FFFF
  const GROUP_DEPTH := 10000

  /** A field's value by its wire type; a group is kept as the bytes it spans. */
  datatype Value = Varint(number: nat) | Fixed64(eight: Bytes) | Length(payload: Bytes) | Group(raw: Bytes) | Fixed32(four: Bytes)

  datatype Field = Field(number: nat, value: Value)

  datatype Tag = Tag(number: nat, wireType: nat)

  // ---------- reading ----------

  function ReadVarint(s: Bytes): (r: Read<nat>)
    ensures r.Got? ==> r.value < U64 && |r.rest| < |s|
  {
    match Leb(s, MAX_VARINT_BYTES)
    case Fail => Fail
    case Got(v, rest) => if v < U64 then Got(v, rest) else Fail
  }

  function ReadTag(s: Bytes): (r: Read<Tag>)
    ensures r.Got? ==> 1 <= r.value.number <= MAX_FIELD_NUMBER && r.value.wireType < 8 && |r.rest| < |s|
  {
    match ReadVarint(s)
    case Fail => Fail
    case Got(v, rest) =>
      if 1 <= v / 8 <= MAX_FIELD_NUMBER then Got(Tag(v / 8, v % 8), rest) else Fail
  }

  function ReadLength(s: Bytes): (r: Read<Bytes>)
    ensures r.Got? ==> |r.value| + |r.rest| < |s|
  {
    match ReadVarint(s)
    case Fail => Fail
    case Got(n, rest) => ReadSub(rest, n)
  }

  /** The bytes after the value of a field whose tag has been read. */
  function SkipValue(t: Tag, s: Bytes, depth: int): (r: Read<Value>)
    ensures r.Got? ==> |r.rest| <= |s|
    decreases |s|, 1
  {
    if t.wireType == 0 then
      match ReadVarint(s) case Fail => Fail case Got(v, rest) => Got(Varint(v), rest)
    else if t.wireType == 1 then
      match ReadSub(s, 8) case Fail => Fail case Got(v, rest) => Got(Fixed64(v), rest)
    else if t.wireType == 2 then
      match ReadLength(s) case Fail => Fail case Got(v, rest) => Got(Length(v), rest)
    else if t.wireType == 3 then
      if depth < 0 then Fail
      else match SkipGroup(t.number, s, depth)
        case Fail => Fail
        case Got(_, rest) => if |rest| <= |s| then Got(Group(s[..|s| - |rest|]), rest) else Fail
    else if t.wireType == 5 then
      match ReadSub(s, 4) case Fail => Fail case Got(v, rest) => Got(Fixed32(v), rest)
    else Fail
  }

  /** The bytes after the end tag of the group `number`. */
  function SkipGroup(number: nat, s: Bytes, depth: int): (r: Read<nat>)
    ensures r.Got? ==> |r.rest| < |s| && r.value == number
    decreases |s|, 0
  {
    match ReadTag(s)
    case Fail => Fail
    case Got(t, rest) =>
      if t.wireType == 4 then (if t.number == number then Got(number, rest) else Fail)
      else match SkipValue(t, rest, depth - 1)
        case Fail => Fail
        case Got(_, more) => SkipGroup(number, more, depth)
  }

  function ReadField(s: Bytes): (r: Read<Field>)
    ensures r.Got? ==> |r.rest| < |s|
  {
    match ReadTag(s)
    case Fail => Fail
    case Got(t, rest) =>
      match SkipValue(t, rest, GROUP_DEPTH)
      case Fail => Fail
      case Got(v, more) => Got(Field(t.number, v), more)
  }

  /** All fields of a frame in order, if the frame is nothing but fields. */
  function ReadFields(s: Bytes): Option<seq<Field>>
    decreases |s|
  {
    if s == [] then Some([])
    else match ReadField(s)
      case Fail => None
      case Got(f, rest) =>
        match ReadFields(rest)
        case None => None
        case Some(fs) => Some([f] + fs)
  }

  // ---------- frames are concatenations of fields ----------

  /** Reading looks no further than what it consumes. */
  ghost predicate Extends<T(!new)>(a: Read<T>, b: Read<T>, more: Bytes) {
    a.Got? ==> b == Got(a.value, a.rest + more)
  }

  lemma {:induction false} LebExtends(s: Bytes, n: nat, more: Bytes)
    ensures Extends(Leb(s, n), Leb(s + more, n), more)
    decreases n
  {
    if n > 0 && s != [] {
      assert (s + more)[1..] == s[1..] + more;
      if s[0] >= 128 {
        LebExtends(s[1..], n - 1, more);
      }
    }
  }

  lemma VarintExtends(s: Bytes, more: Bytes)
    ensures Extends(ReadVarint(s), ReadVarint(s + more), more)
  {
    LebExtends(s, MAX_VARINT_BYTES, more);
  }

  lemma TagExtends(s: Bytes, more: Bytes)
    ensures Extends(ReadTag(s), ReadTag(s + more), more)
  {
    hide ReadVarint;
    VarintExtends(s, more);
  }

  lemma SubExtends(s: Bytes, n: nat, more: Bytes)
    ensures Extends(ReadSub(s, n), ReadSub(s + more, n), more)
  {
    if n <= |s| {
      assert (s + more)[..n] == s[..n] && (s + more)[n..] == s[n..] + more;
    }
  }

  lemma LengthExtends(s: Bytes, more: Bytes)
    ensures Extends(ReadLength(s), ReadLength(s + more), more)
  {
    hide ReadVarint, ReadSub;
    VarintExtends(s, more);
    if ReadVarint(s).Got? {
      SubExtends(ReadVarint(s).rest, ReadVarint(s).value, more);
    }
  }

  lemma {:induction false} ValueExtends(t: Tag, s: Bytes, depth: int, more: Bytes)
    ensures Extends(SkipValue(t, s, depth), SkipValue(t, s + more, depth), more)
    decreases |s|, 1
  {
    hide ReadVarint, ReadSub, ReadLength, SkipGroup;
    VarintExtends(s, more);
    SubExtends(s, 8, more);
    SubExtends(s, 4, more);
    LengthExtends(s, more);
    if t.wireType == 3 && depth >= 0 {
      GroupExtends(t.number, s, depth, more);
      var r := SkipGroup(t.number, s, depth);
      if r.Got? {
        assert (s + more)[..|s + more| - |r.rest + more|] == s[..|s| - |r.rest|];
      }
    }
  }

  lemma {:induction false} GroupExtends(number: nat, s: Bytes, depth: int, more: Bytes)
    ensures Extends(SkipGroup(number, s, depth), SkipGroup(number, s + more, depth), more)
    decreases |s|, 0
  {
    hide ReadTag, SkipValue;
    TagExtends(s, more);
    var tag := ReadTag(s);
    if tag.Got? && tag.value.wireType != 4 {
      ValueExtends(tag.value, tag.rest, depth - 1, more);
      var value := SkipValue(tag.value, tag.rest, depth - 1);
      if value.Got? {
        GroupExtends(number, value.rest, depth, more);
      }
    }
  }

  lemma FieldExtends(s: Bytes, more: Bytes)
    ensures Extends(ReadField(s), ReadField(s + more), more)
  {
    hide ReadTag, SkipValue;
    TagExtends(s, more);
    if ReadTag(s).Got? {
      ValueExtends(ReadTag(s).value, ReadTag(s).rest, GROUP_DEPTH, more);
    }
  }

  /** The bytes of exactly one well-formed field. */
  predicate Chunk(c: Bytes) {
    ReadField(c).Got? && ReadField(c).rest == []
  }

  function Join(chunks: seq<Bytes>): Bytes {
    if chunks == [] then [] else chunks[0] + Join(chunks[1..])
  }

  /** The field a chunk holds. */
  function FieldIn(c: Bytes): Field {
    match ReadField(c)
    case Fail => Field(0, Varint(0))
    case Got(f, _) => f
  }

  function FieldsOf(chunks: seq<Bytes>): seq<Field> {
    if chunks == [] then [] else [FieldIn(chunks[0])] + FieldsOf(chunks[1..])
  }

  lemma ChunkReads(c: Bytes, more: Bytes)
    requires Chunk(c)
    ensures c + more != [] && ReadField(c + more) == Got(FieldIn(c), more)
  {
    hide SkipValue, ReadTag;
    ChunkIsNotEmpty(c);
    FieldExtends(c, more);
    assert [] + more == more;
  }

  /** A frame made of fields reads as those fields, however each is encoded. */
  lemma {:induction false} JoinedReads(chunks: seq<Bytes>)
    requires forall i :: 0 <= i < |chunks| ==> Chunk(chunks[i])
    ensures ReadFields(Join(chunks)) == Some(FieldsOf(chunks))
    decreases |chunks|
  {
    hide ReadField, FieldIn, Chunk;
    if chunks != [] {
      ChunkReads(chunks[0], Join(chunks[1..]));
      JoinedReads(chunks[1..]);
    }
  }

  lemma ChunkIsNotEmpty(c: Bytes)
    requires Chunk(c)
    ensures c != []
  {
  }

  /** And conversely every frame that reads is made of such chunks. */
  lemma {:induction false} ReadsAsChunks(s: Bytes) returns (chunks: seq<Bytes>)
    requires ReadFields(s).Some?
    ensures forall i :: 0 <= i < |chunks| ==> Chunk(chunks[i])
    ensures Join(chunks) == s
    decreases |s|
  {
    hide ReadField, Chunk;
    if s == [] {
      chunks := [];
    } else {
      var rest := ReadField(s).rest;
      var tail := ReadsAsChunks(rest);
      FieldIsPrefix(s);
      chunks := [s[..|s| - |rest|]] + tail;
      assert chunks[1..] == tail;
      assert s == s[..|s| - |rest|] + rest;
    }
  }

  /** The converse of extending: what follows the field can be cut off. */
  lemma FieldIsPrefix(s: Bytes)
    requires ReadField(s).Got?
    ensures Chunk(s[..|s| - |ReadField(s).rest|]) && ReadField(s).rest == s[|s| - |ReadField(s).rest|..]
  {
    hide ReadTag, SkipValue;
    var tag := ReadTag(s);
    TagCut(s);
    ValueCut(tag.value, tag.rest, GROUP_DEPTH);
    var n := |s| - |ReadField(s).rest|;
    var k := |s| - |tag.rest|;
    assert s[..n] == s[..k] + tag.rest[..n - k];
    TagExtends(s[..k], tag.rest[..n - k]);
    assert [] + tag.rest[..n - k] == tag.rest[..n - k];
  }

  /** `r` consumed a prefix, and reads the same from that prefix alone. */
  ghost predicate Cuts<T(!new)>(s: Bytes, r: Read<T>, alone: Read<T>)
    requires r.Got? && |r.rest| <= |s|
  {
    r.rest == s[|s| - |r.rest|..] && alone == Got(r.value, [])
  }

  lemma {:induction false} LebCut(s: Bytes, n: nat)
    requires Leb(s, n).Got?
    ensures Cuts(s, Leb(s, n), Leb(s[..|s| - |Leb(s, n).rest|], n))
    decreases n
  {
    var k := |s| - |Leb(s, n).rest|;
    assert s[..k][1..] == s[1..][..k - 1];
    if s[0] >= 128 {
      LebCut(s[1..], n - 1);
    }
  }

  lemma VarintCut(s: Bytes)
    requires ReadVarint(s).Got?
    ensures Cuts(s, ReadVarint(s), ReadVarint(s[..|s| - |ReadVarint(s).rest|]))
  {
    LebCut(s, MAX_VARINT_BYTES);
  }

  lemma TagCut(s: Bytes)
    requires ReadTag(s).Got?
    ensures Cuts(s, ReadTag(s), ReadTag(s[..|s| - |ReadTag(s).rest|]))
  {
    hide ReadVarint;
    VarintCut(s);
  }

  lemma LengthCut(s: Bytes)
    requires ReadLength(s).Got?
    ensures Cuts(s, ReadLength(s), ReadLength(s[..|s| - |ReadLength(s).rest|]))
  {
    hide ReadVarint;
    var v := ReadVarint(s);
    VarintCut(s);
    var k := |s| - |v.rest|;
    assert s[..k + v.value] == s[..k] + v.rest[..v.value];
    assert v.rest[v.value..] == s[k + v.value..];
    var payload := v.rest[..v.value];
    VarintExtends(s[..k], payload);
    assert [] + payload == payload && payload[..v.value] == payload;
  }

  lemma {:induction false} ValueCut(t: Tag, s: Bytes, depth: int)
    requires SkipValue(t, s, depth).Got?
    ensures Cuts(s, SkipValue(t, s, depth), SkipValue(t, s[..|s| - |SkipValue(t, s, depth).rest|], depth))
    decreases |s|, 1
  {
    hide ReadVarint, ReadLength, SkipGroup, ReadSub;
    if t.wireType == 0 {
      VarintCut(s);
    } else if t.wireType == 1 {
      SubCut(s, 8);
    } else if t.wireType == 2 {
      LengthCut(s);
    } else if t.wireType == 3 {
      GroupCut(t.number, s, depth);
      var m := |s| - |SkipGroup(t.number, s, depth).rest|;
      assert s[..m][..m] == s[..m];
    } else {
      SubCut(s, 4);
    }
  }

  lemma SubCut(s: Bytes, n: nat)
    requires ReadSub(s, n).Got?
    ensures Cuts(s, ReadSub(s, n), ReadSub(s[..|s| - |ReadSub(s, n).rest|], n))
  {
    assert s[..n][..n] == s[..n];
  }

  lemma {:induction false} GroupCut(number: nat, s: Bytes, depth: int)
    requires SkipGroup(number, s, depth).Got?
    ensures Cuts(s, SkipGroup(number, s, depth), SkipGroup(number, s[..|s| - |SkipGroup(number, s, depth).rest|], depth))
    decreases |s|, 0
  {
    hide ReadTag, SkipValue;
    var tag := ReadTag(s);
    TagCut(s);
    var a := |s| - |tag.rest|;
    if tag.value.wireType == 4 {
      assert SkipGroup(number, s[..a], depth) == Got(number, []);
    } else {
      var value := SkipValue(tag.value, tag.rest, depth - 1);
      ValueCut(tag.value, tag.rest, depth - 1);
      GroupCut(number, value.rest, depth);
      var end := SkipGroup(number, value.rest, depth);
      SkipsOn(number, s, tag.value, tag.rest, depth);
      Slices(s, tag.rest, value.rest, end.rest);
      PartsCut(number, s[..a], tag.rest[..|tag.rest| - |value.rest|], value.rest[..|value.rest| - |end.rest|], depth,
               tag.value, value.value, s[..|s| - |end.rest|]);
    }
  }

  /** A tag, its value, and the rest of a group, each complete in itself. */
  lemma PartsCut(number: nat, head: Bytes, mid: Bytes, last: Bytes, depth: int, t: Tag, v: Value, whole: Bytes)
    requires ReadTag(head) == Got(t, []) && t.wireType != 4 && SkipValue(t, mid, depth - 1) == Got(v, [])
    requires SkipGroup(number, last, depth) == Got(number, []) && whole == head + (mid + last)
    ensures SkipGroup(number, whole, depth) == Got(number, [])
  {
    hide ReadTag, SkipValue, SkipGroup;
    GroupJoins(number, head, mid, last, depth);
  }

  lemma SkipsOn(number: nat, s: Bytes, t: Tag, afterTag: Bytes, depth: int)
    requires ReadTag(s) == Got(t, afterTag) && t.wireType != 4 && SkipValue(t, afterTag, depth - 1).Got?
    ensures SkipGroup(number, s, depth) == SkipGroup(number, SkipValue(t, afterTag, depth - 1).rest, depth)
  {
    hide ReadTag, SkipValue;
  }

  /** Suffixes of suffixes. */
  lemma Slices(s: Bytes, x: Bytes, y: Bytes, z: Bytes)
    requires |z| <= |y| <= |x| <= |s|
    requires x == s[|s| - |x|..] && y == x[|x| - |y|..] && z == y[|y| - |z|..]
    ensures s[..|s| - |z|] == s[..|s| - |x|] + (x[..|x| - |y|] + y[..|y| - |z|])
    ensures z == s[|s| - |z|..]
  {
  }

  /** A tag, its value, and the rest of the group, put together. */
  lemma GroupJoins(number: nat, a: Bytes, b: Bytes, c: Bytes, depth: int)
    requires ReadTag(a).Got? && ReadTag(a).rest == [] && ReadTag(a).value.wireType != 4
    requires SkipValue(ReadTag(a).value, b, depth - 1).Got? && SkipValue(ReadTag(a).value, b, depth - 1).rest == []
    requires SkipGroup(number, c, depth) == Got(number, [])
    ensures SkipGroup(number, a + (b + c), depth) == Got(number, [])
  {
    hide ReadTag, SkipValue;
    TagExtends(a, b + c);
    assert [] + (b + c) == b + c;
    ValueExtends(ReadTag(a).value, b, depth - 1, c);
    assert [] + c == c;
  }
}

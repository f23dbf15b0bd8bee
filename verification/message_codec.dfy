/** Printing messages as a deterministic marshaller does, and reading the print back through the raw check
    and the decoder. */
module MessageCodec {
  import opened Sequences
  import opened Binary
  import opened ProtobufWire
  import opened WireResults
  import opened ExtensionWire
  import Utf8

  // ---------- printing ----------

  /** Messages use two wire types only: varints and length-delimited values. */
  predicate Writable(f: Field) {
    1 <= f.number <= MAX_FIELD_NUMBER && (f.value.Varint? || f.value.Length?)
  }

  predicate Printable(f: Field) {
    Writable(f) && (if f.value.Varint? then f.value.number < U64 else |f.value.payload| < U64)
  }

  function PrintField(f: Field): Bytes
    requires Writable(f)
  {
    match f.value
    case Varint(v) => PrintLeb(f.number * 8) + PrintLeb(v)
    case Length(p) => PrintLeb(f.number * 8 + 2) + (PrintLeb(|p|) + p)
  }

  predicate AllWritable(fs: seq<Field>) {
    forall i :: 0 <= i < |fs| ==> Writable(fs[i])
  }

  ghost predicate AllPrintable(fs: seq<Field>) {
    forall i :: 0 <= i < |fs| ==> Printable(fs[i])
  }

  function Print(fs: seq<Field>): Bytes
    requires AllWritable(fs)
  {
    if fs == [] then [] else PrintField(fs[0]) + Print(fs[1..])
  }

  lemma VarintInverts(n: nat, rest: Bytes)
    requires n < U64
    ensures ReadVarint(PrintLeb(n) + rest) == Got(n, rest)
  {
    hide Leb, PrintLeb;
    Pow128Ten();
    LebInverts(n, MAX_VARINT_BYTES, rest);
  }

  lemma Pow128Ten()
    ensures Pow128(10) > U64
  {
    Pow128Values();
    assert Pow128(6) == 128 * Pow128(5);
    assert Pow128(7) == 128 * Pow128(6);
    assert Pow128(8) == 128 * Pow128(7);
    assert Pow128(9) == 128 * Pow128(8);
  }

  lemma TagInverts(number: nat, wireType: nat, rest: Bytes)
    requires 1 <= number <= MAX_FIELD_NUMBER && wireType < 8
    ensures ReadTag(PrintLeb(number * 8 + wireType) + rest) == Got(Tag(number, wireType), rest)
  {
    hide ReadVarint, PrintLeb;
    TagParts(number, wireType);
    VarintInverts(number * 8 + wireType, rest);
  }

  lemma TagParts(number: nat, wireType: nat)
    requires number <= MAX_FIELD_NUMBER && wireType < 8
    ensures (number * 8 + wireType) / 8 == number && (number * 8 + wireType) % 8 == wireType
    ensures number * 8 + wireType < U64
  {
  }

  lemma FieldInverts(f: Field, rest: Bytes)
    requires Printable(f)
    ensures ReadField(PrintField(f) + rest) == Got(f, rest) && PrintField(f) != []
  {
    hide ReadTag, ReadVarint, PrintLeb;
    match f.value
    case Varint(v) =>
      TagInverts(f.number, 0, PrintLeb(v) + rest);
      assert PrintField(f) + rest == PrintLeb(f.number * 8 + 0) + (PrintLeb(v) + rest);
      VarintInverts(v, rest);
    case Length(p) =>
      TagInverts(f.number, 2, PrintLeb(|p|) + (p + rest));
      assert PrintField(f) + rest == PrintLeb(f.number * 8 + 2) + (PrintLeb(|p|) + (p + rest));
      VarintInverts(|p|, p + rest);
      assert (p + rest)[..|p|] == p && (p + rest)[|p|..] == rest;
  }

  /** A printed message reads back as its fields. */
  lemma {:induction false} PrintInverts(fs: seq<Field>)
    requires AllWritable(fs) && AllPrintable(fs)
    ensures ReadFields(Print(fs)) == Some(fs)
    decreases |fs|
  {
    hide ReadField, PrintField, Printable, Writable;
    if fs != [] {
      PrintInverts(fs[1..]);
      FieldInverts(fs[0], Print(fs[1..]));
      assert [fs[0]] + fs[1..] == fs;
    }
  }

  lemma PrintConcat(a: seq<Field>, b: seq<Field>)
    requires AllWritable(a) && AllWritable(b)
    ensures AllWritable(a + b) && Print(a + b) == Print(a) + Print(b)
    decreases |a|
  {
    hide PrintField, Writable;
    if a == [] {
      assert a + b == b;
    } else {
      assert (a + b)[1..] == a[1..] + b;
      PrintConcat(a[1..], b);
    }
  }

  /** In a message of tractable size, every payload is. */
  lemma SmallIsPrintable(fs: seq<Field>)
    requires AllWritable(fs) && |Print(fs)| < U64 && forall i :: 0 <= i < |fs| && fs[i].value.Varint? ==> fs[i].value.number < U64
    ensures AllPrintable(fs)
  {
    hide Print;
    forall i | 0 <= i < |fs| ensures Printable(fs[i]) {
      if fs[i].value.Length? {
        PayloadIsShorter(fs, i);
      }
    }
  }

  /** A field's payload is shorter than the message around it. */
  lemma {:induction false} PayloadIsShorter(fs: seq<Field>, k: nat)
    requires AllWritable(fs) && k < |fs| && fs[k].value.Length?
    ensures |fs[k].value.payload| < |Print(fs)|
    decreases k
  {
    hide PrintLeb;
    if k > 0 {
      assert AllWritable(fs[1..]) && fs[1..][k - 1] == fs[k];
      PayloadIsShorter(fs[1..], k - 1);
    }
  }

  // ---------- the fields of a message ----------

  /** The values of one field, in order; rows with no value are absent fields. */
  datatype Row = Row(number: nat, values: seq<Value>)

  function RowFields(n: nat, vs: seq<Value>): (fs: seq<Field>)
    ensures |fs| == |vs| && forall i :: 0 <= i < |vs| ==> fs[i] == Field(n, vs[i])
  {
    if vs == [] then [] else [Field(n, vs[0])] + RowFields(n, vs[1..])
  }

  function Flatten(rows: seq<Row>): seq<Field> {
    if rows == [] then [] else RowFields(rows[0].number, rows[0].values) + Flatten(rows[1..])
  }

  /** A scalar at its default is not written. */
  function ScalarValues(v: nat): (vs: seq<Value>)
    ensures |vs| <= 1 && forall i :: 0 <= i < |vs| ==> vs[i] == Varint(v)
  {
    if v == 0 then [] else [Varint(v)]
  }

  function TextValues(text: string): (vs: seq<Value>)
    ensures |vs| <= 1 && forall i :: 0 <= i < |vs| ==> vs[i] == Length(Utf8.Encode(text))
  {
    if text == "" then [] else [Length(Utf8.Encode(text))]
  }

  predicate WritableRow(r: Row) {
    1 <= r.number <= MAX_FIELD_NUMBER && forall i :: 0 <= i < |r.values| ==> r.values[i].Varint? || r.values[i].Length?
  }

  predicate WritableRows(rows: seq<Row>) {
    forall k :: 0 <= k < |rows| ==> WritableRow(rows[k])
  }

  lemma {:induction false} RowsAreWritable(rows: seq<Row>)
    requires WritableRows(rows)
    ensures AllWritable(Flatten(rows))
    decreases |rows|
  {
    if rows != [] {
      assert WritableRow(rows[0]);
      RowsAreWritable(rows[1..]);
    }
  }

  function PrintRows(rows: seq<Row>): Bytes
    requires WritableRows(rows)
  {
    RowsAreWritable(rows);
    Print(Flatten(rows))
  }

  ghost predicate DistinctRows(rows: seq<Row>) {
    forall j, k :: 0 <= j < k < |rows| ==> rows[j].number != rows[k].number
  }

  lemma {:induction false} SelectedRowFields(n: nat, vs: seq<Value>, m: nat)
    ensures Selected(RowFields(n, vs), m) == if m == n then vs else []
    decreases |vs|
  {
    if vs != [] {
      SelectedRowFields(n, vs[1..], m);
      SelectedAppend([], Field(n, vs[0]), m);
      assert [] + [Field(n, vs[0])] == [Field(n, vs[0])];
      SelectedConcat([Field(n, vs[0])], RowFields(n, vs[1..]), m);
    }
  }

  lemma {:induction false} SelectedAbsent(rows: seq<Row>, m: nat)
    requires forall k :: 0 <= k < |rows| ==> rows[k].number != m
    ensures Selected(Flatten(rows), m) == []
    decreases |rows|
  {
    if rows != [] {
      SelectedRowFields(rows[0].number, rows[0].values, m);
      SelectedAbsent(rows[1..], m);
      SelectedConcat(RowFields(rows[0].number, rows[0].values), Flatten(rows[1..]), m);
    }
  }

  /** Each field of a message has the values of its row. */
  lemma {:induction false} SelectedRow(rows: seq<Row>, k: nat)
    requires DistinctRows(rows) && k < |rows|
    ensures Selected(Flatten(rows), rows[k].number) == rows[k].values
    decreases |rows|
  {
    var m := rows[k].number;
    SelectedRowFields(rows[0].number, rows[0].values, m);
    if k > 0 {
      assert rows[1..][k - 1] == rows[k];
      SelectedRow(rows[1..], k - 1);
    } else {
      SelectedAbsent(rows[1..], m);
    }
    SelectedConcat(RowFields(rows[0].number, rows[0].values), Flatten(rows[1..]), m);
  }

  /** Every field comes from a row. */
  lemma {:induction false} RowOf(rows: seq<Row>, i: nat) returns (k: nat, j: nat)
    requires i < |Flatten(rows)|
    ensures k < |rows| && j < |rows[k].values| && Flatten(rows)[i] == Field(rows[k].number, rows[k].values[j])
    decreases |rows|
  {
    var n := |rows[0].values|;
    if i < n {
      k, j := 0, i;
    } else {
      k, j := RowOf(rows[1..], i - n);
      k := k + 1;
    }
  }

  lemma {:induction false} FieldOfRow(rows: seq<Row>, k: nat, j: nat) returns (i: nat)
    requires k < |rows| && j < |rows[k].values|
    ensures i < |Flatten(rows)| && Flatten(rows)[i] == Field(rows[k].number, rows[k].values[j])
    decreases |rows|
  {
    if k == 0 {
      i := j;
    } else {
      i := FieldOfRow(rows[1..], k - 1, j);
      i := i + |rows[0].values|;
    }
  }

  lemma RowPayloadIsShorter(rows: seq<Row>, k: nat, j: nat)
    requires WritableRows(rows) && k < |rows| && j < |rows[k].values| && rows[k].values[j].Length?
    ensures |rows[k].values[j].payload| < |PrintRows(rows)|
  {
    hide Print, Flatten;
    RowsAreWritable(rows);
    var i := FieldOfRow(rows, k, j);
    PayloadIsShorter(Flatten(rows), i);
  }

  // ---------- through the check and the decoder ----------

  type Fields = map<nat, seq<Node>>

  function FieldNodes(m: Fields, n: nat): seq<Node> {
    if n in m then m[n] else []
  }

  /** The message an ordinary decoder makes of a frame. */
  function Decoded(s: Schema, frame: Bytes, depth: nat): Fields {
    ExtensionWire.Decode(s, frame, Merge, depth)
  }

  /** A row the schema allows. */
  ghost predicate RowFits(s: Schema, r: Row, depth: nat) {
    && WritableRow(r) && r.number in s.fields && |r.values| <= Limit(s.fields[r.number])
    && forall i :: 0 <= i < |r.values| ==>
         ValueOk(s.fields[r.number].kind, r.values[i], depth) && (r.values[i].Varint? ==> r.values[i].number < U64)
  }

  ghost predicate RowsFit(s: Schema, rows: seq<Row>, depth: nat) {
    && depth <= MAX_DEPTH && DistinctRows(rows)
    && (forall k :: 0 <= k < |rows| ==> RowFits(s, rows[k], depth))
    && (forall n :: n in s.fields ==> s.fields[n].oneof.None?)
  }

  lemma FitsAreWritable(s: Schema, rows: seq<Row>, depth: nat)
    requires RowsFit(s, rows, depth)
    ensures WritableRows(rows)
  {
    hide ValueOk, WritableRow;
  }

  lemma RowsPrintable(s: Schema, rows: seq<Row>, depth: nat)
    requires RowsFit(s, rows, depth) && WritableRows(rows) && |PrintRows(rows)| < U64
    ensures AllWritable(Flatten(rows)) && AllPrintable(Flatten(rows))
  {
    hide ValueOk, Print, Flatten;
    var fs := Flatten(rows);
    RowsAreWritable(rows);
    forall i | 0 <= i < |fs| && fs[i].value.Varint? ensures fs[i].value.number < U64 {
      var k, j := RowOf(rows, i);
      assert RowFits(s, rows[k], depth);
    }
    SmallIsPrintable(fs);
  }

  /** What is printed by the schema passes the raw check. */
  lemma RowsFrameOk(s: Schema, rows: seq<Row>, depth: nat)
    requires RowsFit(s, rows, depth) && WritableRows(rows) && |PrintRows(rows)| < U64
    ensures FrameOk(s, PrintRows(rows), depth)
  {
    hide ValueOk, Print, Flatten, ReadFields, Selected;
    var fs := Flatten(rows);
    RowsPrintable(s, rows, depth);
    forall i | 0 <= i < |fs| ensures FieldOk(s, fs[i], depth) {
      var k, j := RowOf(rows, i);
      assert RowFits(s, rows[k], depth);
    }
    forall n | n in s.fields ensures |Selected(fs, n)| <= Limit(s.fields[n]) {
      if k :| 0 <= k < |rows| && rows[k].number == n {
        SelectedRow(rows, k);
        assert RowFits(s, rows[k], depth);
      } else {
        SelectedAbsent(rows, n);
      }
    }
    PrintInverts(fs);
  }

  /** And is decoded row by row. */
  lemma RowDecodes(s: Schema, rows: seq<Row>, k: nat, depth: nat)
    requires RowsFit(s, rows, depth) && WritableRows(rows) && |PrintRows(rows)| < U64 && k < |rows|
    ensures rows[k].number in s.fields
    ensures FieldNodes(Decoded(s, PrintRows(rows), depth), rows[k].number)
            == DecodeValues(s.fields[rows[k].number].kind, rows[k].values, Merge, depth)
  {
    hide ValueOk, Print, Flatten, ReadFields, Selected, ValuesOf, DecodeValues;
    var fs := Flatten(rows);
    assert RowFits(s, rows[k], depth);
    RowsPrintable(s, rows, depth);
    RowsFrameOk(s, rows, depth);
    PrintInverts(fs);
    SelectedAreOk(s, fs, rows[k].number, depth);
    NothingToResolve(s, fs, rows[k].number, Merge);
    SelectedRow(rows, k);
  }

  function ScalarAt(nodes: seq<Node>): nat {
    if nodes != [] && nodes[0].Number? then nodes[0].number else 0
  }

  /** The text of a string field; empty when absent, an error when it is not UTF-8. */
  function TextAt(nodes: seq<Node>): Option<string> {
    if nodes == [] then Some("")
    else if nodes[0].Text? then Utf8.Decode(nodes[0].text)
    else None
  }

  lemma ScalarDecodes(k: Kind, v: nat, depth: nat)
    requires depth <= MAX_DEPTH
    ensures ScalarAt(DecodeValues(k, ScalarValues(v), Merge, depth)) == v
  {
  }

  lemma TextDecodes(text: string, depth: nat)
    requires depth <= MAX_DEPTH
    ensures TextAt(DecodeValues(StringKind, TextValues(text), Merge, depth)) == Some(text)
  {
    Utf8.DecodeInverts(text);
  }
}

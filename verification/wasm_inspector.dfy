/** The inspection as the host runs it: one pass over the sections with a reader, filling the declaration
    as it goes. It computes exactly what WasmPolicy.Inspect specifies. */
module WasmInspector {
  import opened Sequences
  import opened Binary
  import opened WasmReader
  import opened WasmPolicy

  lemma NextItem<T>(item: Bytes -> Read<T>, n: nat, s: Bytes, done: seq<T>)
    requires n > 0 && item(s).Got?
    ensures Prepend(done, ReadMany(item, n, s)) == Prepend(done + [item(s).value], ReadMany(item, n - 1, item(s).rest))
  {
    match ReadMany(item, n - 1, item(s).rest)
    case Fail =>
    case Got(ys, _) => assert done + ([item(s).value] + ys) == done + [item(s).value] + ys;
  }

  lemma FirstItem<T>(r: Read<seq<T>>)
    ensures Prepend([], r) == r
  {
    match r
    case Fail =>
    case Got(ys, _) => assert [] + ys == ys;
  }

  lemma NamesAppend(ims: seq<Import>, i: Import)
    ensures Names(ims + [i]) == Names(ims) + [i.name]
  {
    assert (ims + [i])[..|ims|] == ims;
  }

  lemma NoVersionYet(before: nat)
    ensures VersionIndex(before, []) == before
  {
  }

  /** When no items are left, what was read is everything. */
  lemma NoItemsLeft<T>(item: Bytes -> Read<T>, s: Bytes, done: seq<T>)
    ensures Prepend(done, ReadMany(item, 0, s)) == Got(done, s)
  {
    assert done + [] == done;
  }

  lemma NextFails<T>(item: Bytes -> Read<T>, n: nat, s: Bytes, done: seq<T>)
    requires n > 0 && item(s).Fail?
    ensures Prepend(done, ReadMany(item, n, s)).Fail?
  {
  }

  lemma VersionAppend(before: nat, es: seq<Export>, e: Export)
    ensures VersionIndex(before, es + [e]) == if IsVersion(e) then e.index else VersionIndex(before, es)
  {
    assert (es + [e])[..|es|] == es;
  }

  /** A section's items, read one by one; `ok` as long as they are well formed. */
  method TakeImports(section: Reader, before: Declaration) returns (ok: bool, d: Declaration)
    requires section.Valid()
    modifies section
    ensures section.Valid()
    ensures
      var r := ReadVector(ReadImport, old(section.Ahead()));
      && (ok <==> r.Got?)
      && (ok ==> section.Ahead() == r.rest && d == Declare(before, Imports(r.value)))
  {
    hide ReadImport, ReadU32;
    d := before;
    var count;
    ok, count := section.TakeU32();
    if !ok {
      return;
    }
    ghost var start := section.Ahead();
    ghost var done: seq<Import> := [];
    FirstItem(ReadMany(ReadImport, count, start));
    assert before.importNames + [] == before.importNames;
    for index := 0 to count
      invariant section.Valid() && ok
      invariant ReadMany(ReadImport, count, start) == Prepend(done, ReadMany(ReadImport, count - index, section.Ahead()))
      invariant d == before.(importNames := before.importNames + Names(done),
                             importedFunctions := before.importedFunctions + |done|)
    {
      ghost var ahead := section.Ahead();
      var name;
      ok, name := TakeImport(section);
      if !ok {
        return;
      }
      NextItem(ReadImport, count - index, ahead, done);
      NamesAppend(done, ReadImport(ahead).value);
      done := done + [ReadImport(ahead).value];
      d := d.(importedFunctions := d.importedFunctions + 1, importNames := d.importNames + [name]);
      assert before.importNames + Names(done) == d.importNames;
    }
    assert done + [] == done;
  }

  method TakeImport(section: Reader) returns (ok: bool, name: Bytes)
    requires section.Valid()
    modifies section
    ensures section.Valid()
    ensures ok <==> ReadImport(old(section.Ahead())).Got?
    ensures ok ==> section.Ahead() == ReadImport(old(section.Ahead())).rest
                   && name == ReadImport(old(section.Ahead())).value.name
  {
    hide ReadU32, ReadName;
    var moduleName, kind, index;
    name := [];
    ok, moduleName := section.TakeName();
    if !ok {
      return;
    }
    ok, name := section.TakeName();
    if !ok {
      return;
    }
    ok, kind := section.TakeByte();
    if !ok {
      return;
    }
    if kind != FUNCTION_KIND {
      return false, name;
    }
    ok, index := section.TakeU32();
  }

  method TakeFunctions(section: Reader, before: Declaration) returns (ok: bool, d: Declaration)
    requires section.Valid()
    modifies section
    ensures section.Valid()
    ensures
      var r := ReadVector(ReadU32, old(section.Ahead()));
      && (ok <==> r.Got?)
      && (ok ==> section.Ahead() == r.rest && d == Declare(before, Functions(r.value)))
  {
    hide ReadU32;
    d := before;
    var count, skipped;
    ok, count := section.TakeU32();
    if !ok {
      return;
    }
    d := d.(functionCount := count);
    ghost var start := section.Ahead();
    ghost var done: seq<nat> := [];
    FirstItem(ReadMany(ReadU32, count, start));
    for index := 0 to count
      invariant section.Valid() && ok && |done| == index
      invariant ReadMany(ReadU32, count, start) == Prepend(done, ReadMany(ReadU32, count - index, section.Ahead()))
    {
      ghost var ahead := section.Ahead();
      ok, skipped := section.TakeU32();
      if !ok {
        return;
      }
      NextItem(ReadU32, count - index, ahead, done);
      done := done + [ReadU32(ahead).value];
    }
    assert done + [] == done;
  }

  method TakeExports(section: Reader, before: Declaration) returns (ok: bool, d: Declaration)
    requires section.Valid()
    modifies section
    ensures section.Valid()
    ensures
      var r := ReadVector(ReadExport, old(section.Ahead()));
      && (ok <==> r.Got?)
      && (ok ==> section.Ahead() == r.rest && d == Declare(before, Exports(r.value)))
  {
    hide ReadExport, ReadU32, VersionIndex, ReadMany;
    d := before;
    NoVersionYet(before.version);
    var count;
    ok, count := section.TakeU32();
    if !ok {
      return;
    }
    ghost var start := section.Ahead();
    ghost var done: seq<Export> := [];
    FirstItem(ReadMany(ReadExport, count, start));
    for index := 0 to count
      invariant section.Valid() && ok
      invariant ReadMany(ReadExport, count, start) == Prepend(done, ReadMany(ReadExport, count - index, section.Ahead()))
      invariant d == before.(version := VersionIndex(before.version, done))
    {
      ghost var ahead := section.Ahead();
      var e;
      ok, e := TakeExport(section);
      if !ok {
        NextFails(ReadExport, count - index, ahead, done);
        return;
      }
      NextItem(ReadExport, count - index, ahead, done);
      VersionAppend(before.version, done, e);
      done := done + [e];
      if e.name == VERSION_EXPORT && e.kind == FUNCTION_KIND {
        d := d.(version := e.index);
      }
    }
    NoItemsLeft(ReadExport, section.Ahead(), done);
  }

  method TakeExport(section: Reader) returns (ok: bool, e: Export)
    requires section.Valid()
    modifies section
    ensures section.Valid()
    ensures ok <==> ReadExport(old(section.Ahead())).Got?
    ensures ok ==> Got(e, section.Ahead()) == ReadExport(old(section.Ahead()))
  {
    hide ReadU32, ReadName;
    var name, kind, index;
    e := Export([], 0, 0);
    ok, name := section.TakeName();
    if !ok {
      return;
    }
    ok, kind := section.TakeByte();
    if !ok {
      return;
    }
    ok, index := section.TakeU32();
    e := Export(name, kind, index);
  }

  method TakeBodies(section: Reader, before: Declaration) returns (ok: bool, d: Declaration)
    requires section.Valid()
    modifies section
    ensures section.Valid()
    ensures
      var r := ReadVector(ReadName, old(section.Ahead()));
      && (ok <==> r.Got?)
      && (ok ==> section.Ahead() == r.rest && d == Declare(before, Code(r.value)))
  {
    hide ReadU32, ReadName;
    d := before.(codeBodies := []);
    var count, body;
    ok, count := section.TakeU32();
    if !ok {
      return;
    }
    ghost var start := section.Ahead();
    FirstItem(ReadMany(ReadName, count, start));
    for index := 0 to count
      invariant section.Valid() && ok && d == before.(codeBodies := d.codeBodies)
      invariant ReadMany(ReadName, count, start)
                == Prepend(d.codeBodies, ReadMany(ReadName, count - index, section.Ahead()))
    {
      ghost var ahead := section.Ahead();
      ok, body := section.TakeName();
      if !ok {
        return;
      }
      NextItem(ReadName, count - index, ahead, d.codeBodies);
      d := d.(codeBodies := d.codeBodies + [body]);
    }
    assert d.codeBodies + [] == d.codeBodies;
  }

  /** One section's payload: refused, or its effect on the declaration. */
  method TakePayload(id: Byte, section: Reader, before: Declaration) returns (ok: bool, d: Declaration)
    requires section.Valid()
    modifies section
    ensures ok <==> ReadPayload(id, old(section.Ahead())).Some?
    ensures ok ==> d == Declare(before, ReadPayload(id, old(section.Ahead())).value)
  {
    hide ReadVector, ReadU32, ReadName, ReadImport, ReadExport;
    ok, d := true, before;
    if id == 2 {
      ok, d := TakeImports(section, before);
    } else if id == 3 {
      ok, d := TakeFunctions(section, before);
    } else if id == 4 {
      var count;
      ok, count := section.TakeU32();
      ok := ok && count == 0;
    } else if id == 7 {
      ok, d := TakeExports(section, before);
    } else if id == 8 {
      return false, before;
    } else if id == 10 {
      ok, d := TakeBodies(section, before);
    } else {
      return;
    }
    if ok {
      var n := section.Remaining();
      ok := n == 0;
    }
  }

  method InspectDeclarations(m: Bytes) returns (r: Option<Declaration>)
    ensures r == Inspect(m)
  {
    hide ReadPayload, ReadU32, Declare;
    if |m| < |HEADER| || m[..|HEADER|] != HEADER {
      return None;
    }
    var d := NOTHING;
    var reader := new Reader(m[|HEADER|..]);
    ghost var start := reader.Ahead();
    var n := reader.Remaining();
    while n > 0
      invariant reader.Valid() && n == |reader.Ahead()|
      invariant InspectFrom(NOTHING, start) == InspectFrom(d, reader.Ahead())
      decreases n
    {
      ghost var ahead := reader.Ahead();
      var ok, id := reader.TakeByte();
      if !ok {
        return None;
      }
      var size;
      ok, size := reader.TakeU32();
      if !ok {
        return None;
      }
      var payload;
      ok, payload := reader.TakeSub(size);
      if !ok {
        return None;
      }
      var section := new Reader(payload);
      ok, d := TakePayload(id, section, d);
      if !ok {
        return None;
      }
      assert ReadSection(ahead).Got? && ReadSection(ahead).rest == reader.Ahead();
      n := reader.Remaining();
    }
    r := Some(d);
  }
}

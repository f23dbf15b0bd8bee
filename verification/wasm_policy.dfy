/** The static inspection of a policy module: its import names, its function count, the index exported as
    the version function, and its code bodies (sections 5.5.2, 5.5.5, 5.5.10 and 5.5.13 of the
    WebAssembly Core Specification 1.0). */
module WasmPolicy {
  import opened Sequences
  import opened Binary
  import opened WasmReader

  const HEADER: Bytes := [0x00, 0x61, 0x73, 0x6d, 0x01, 0x00, 0x00, 0x00]
  const MAX_U32 := 0xFFFF_FFFF
  const FUNCTION_KIND := 0

  /** "nre_policy_version", and the one major version this host runs. */
  const VERSION_EXPORT: Bytes := [0x6e, 0x72, 0x65, 0x5f, 0x70, 0x6f, 0x6c, 0x69, 0x63, 0x79, 0x5f, 0x76, 0x65, 0x72, 0x73, 0x69, 0x6f, 0x6e]
  const ABI_MAJOR := 1

  // ---------- modules ----------

  datatype Import = Import(moduleName: Bytes, name: Bytes, index: nat)

  datatype Export = Export(name: Bytes, kind: Byte, index: nat)

  datatype Section =
    | Imports(imports: seq<Import>)
    | Functions(types: seq<nat>)
    | NoTables
    | Exports(exports: seq<Export>)
    | Code(bodies: seq<Bytes>)
    | Other(id: Byte, payload: Bytes)

  predicate Inspected(id: Byte) {
    id == 2 || id == 3 || id == 4 || id == 7 || id == 8 || id == 10
  }

  // ---------- what a module declares ----------

  datatype Declaration = Declaration(
    importNames: seq<Bytes>, importedFunctions: nat, version: nat, functionCount: nat, codeBodies: seq<Bytes>)

  const NOTHING := Declaration([], 0, MAX_U32, 0, [])

  predicate IsVersion(e: Export) {
    e.name == VERSION_EXPORT && e.kind == FUNCTION_KIND
  }

  function Names(ims: seq<Import>): (r: seq<Bytes>)
    ensures |r| == |ims| && forall k :: 0 <= k < |ims| ==> r[k] == ims[k].name
  {
    if ims == [] then [] else Names(ims[..|ims| - 1]) + [ims[|ims| - 1].name]
  }

  function VersionIndex(before: nat, es: seq<Export>): nat {
    if es == [] then before
    else if IsVersion(es[|es| - 1]) then es[|es| - 1].index
    else VersionIndex(before, es[..|es| - 1])
  }

  /** Imports accumulate; the other sections replace what an earlier one of their kind declared. */
  function Declare(d: Declaration, s: Section): Declaration {
    match s
    case Imports(ims) =>
      d.(importNames := d.importNames + Names(ims), importedFunctions := d.importedFunctions + |ims|)
    case Functions(ts) => d.(functionCount := |ts|)
    case NoTables => d
    case Exports(es) => d.(version := VersionIndex(d.version, es))
    case Code(bs) => d.(codeBodies := bs)
    case Other(_, _) => d
  }

  function DeclareAll(d: Declaration, ss: seq<Section>): Declaration
    decreases |ss|
  {
    if ss == [] then d else DeclareAll(Declare(d, ss[0]), ss[1..])
  }

  // ---------- reading ----------

  function ReadImport(s: Bytes): Read<Import> {
    match ReadName(s)
    case Fail => Fail
    case Got(moduleName, s1) =>
      match ReadName(s1)
      case Fail => Fail
      case Got(name, s2) =>
        match ReadByte(s2)
        case Fail => Fail
        case Got(kind, s3) =>
          if kind != FUNCTION_KIND then Fail
          else match ReadU32(s3)
            case Fail => Fail
            case Got(index, s4) => Got(Import(moduleName, name, index), s4)
  }

  function ReadExport(s: Bytes): Read<Export> {
    match ReadName(s)
    case Fail => Fail
    case Got(name, s1) =>
      match ReadByte(s1)
      case Fail => Fail
      case Got(kind, s2) =>
        match ReadU32(s2)
        case Fail => Fail
        case Got(index, s3) => Got(Export(name, kind, index), s3)
  }

  /** All of the payload must be used. */
  function Whole<T>(r: Read<seq<T>>): Option<seq<T>> {
    if r.Got? && r.rest == [] then Some(r.value) else None
  }

  /** The section a payload stands for; `None` if it is malformed or not allowed in a policy. */
  function ReadPayload(id: Byte, p: Bytes): Option<Section> {
    if id == 2 then
      match Whole(ReadVector(ReadImport, p)) case None => None case Some(ims) => Some(Imports(ims))
    else if id == 3 then
      match Whole(ReadVector(ReadU32, p)) case None => None case Some(ts) => Some(Functions(ts))
    else if id == 4 then
      if ReadU32(p) == Got(0, []) then Some(NoTables) else None
    else if id == 7 then
      match Whole(ReadVector(ReadExport, p)) case None => None case Some(es) => Some(Exports(es))
    else if id == 8 then None
    else if id == 10 then
      match Whole(ReadVector(ReadName, p)) case None => None case Some(bs) => Some(Code(bs))
    else Some(Other(id, p))
  }

  function ReadSection(s: Bytes): (r: Read<Section>)
    ensures r.Got? ==> |r.rest| < |s|
  {
    match ReadByte(s)
    case Fail => Fail
    case Got(id, s1) =>
      match ReadU32(s1)
      case Fail => Fail
      case Got(size, s2) =>
        match ReadSub(s2, size)
        case Fail => Fail
        case Got(payload, s3) =>
          match ReadPayload(id, payload)
          case None => Fail
          case Some(section) => Got(section, s3)
  }

  function InspectFrom(d: Declaration, s: Bytes): Option<Declaration>
    decreases |s|
  {
    if s == [] then Some(d)
    else match ReadSection(s)
      case Fail => None
      case Got(section, rest) => InspectFrom(Declare(d, section), rest)
  }

  function Inspect(m: Bytes): Option<Declaration> {
    if HEADER <= m then InspectFrom(NOTHING, m[|HEADER|..]) else None
  }

  // ---------- printing ----------

  function ShowImport(i: Import): Bytes {
    PrintName(i.moduleName) + (PrintName(i.name) + ([FUNCTION_KIND] + PrintLeb(i.index)))
  }

  function ShowExport(e: Export): Bytes {
    PrintName(e.name) + ([e.kind] + PrintLeb(e.index))
  }

  function IdOf(s: Section): Byte {
    match s
    case Imports(_) => 2
    case Functions(_) => 3
    case NoTables => 4
    case Exports(_) => 7
    case Code(_) => 10
    case Other(id, _) => id
  }

  function Payload(s: Section): Bytes {
    match s
    case Imports(ims) => PrintVector(ShowImport, ims)
    case Functions(ts) => PrintVector(PrintLeb, ts)
    case NoTables => PrintLeb(0)
    case Exports(es) => PrintVector(ShowExport, es)
    case Code(bs) => PrintVector(PrintName, bs)
    case Other(_, p) => p
  }

  function ShowSection(s: Section): Bytes {
    [IdOf(s)] + (PrintLeb(|Payload(s)|) + Payload(s))
  }

  function Print(ss: seq<Section>): Bytes {
    HEADER + PrintAll(ShowSection, ss)
  }

  /** Everything that is a 32-bit number in the format is one. */
  ghost predicate Printable(s: Section) {
    && |Payload(s)| < U32
    && match s
       case Imports(ims) =>
         |ims| < U32 && forall k :: 0 <= k < |ims| ==> |ims[k].moduleName| < U32 && |ims[k].name| < U32 && ims[k].index < U32
       case Functions(ts) => |ts| < U32 && forall k :: 0 <= k < |ts| ==> ts[k] < U32
       case NoTables => true
       case Exports(es) => |es| < U32 && forall k :: 0 <= k < |es| ==> |es[k].name| < U32 && es[k].index < U32
       case Code(bs) => |bs| < U32 && forall k :: 0 <= k < |bs| ==> |bs[k]| < U32
       case Other(id, _) => !Inspected(id)
  }

  // ---------- reading inverts printing ----------

  lemma ImportInverts(i: Import, rest: Bytes)
    requires |i.moduleName| < U32 && |i.name| < U32 && i.index < U32
    ensures ReadImport(ShowImport(i) + rest) == Got(i, rest)
  {
    hide ReadName, PrintName, ReadU32, PrintLeb;
    var s3 := PrintLeb(i.index) + rest;
    var s2 := [FUNCTION_KIND] + s3;
    var s1 := PrintName(i.name) + s2;
    assert ShowImport(i) + rest == PrintName(i.moduleName) + s1;
    NameInverts(i.moduleName, s1);
    NameInverts(i.name, s2);
    assert s2[1..] == s3;
    U32Inverts(i.index, rest);
  }

  lemma ExportInverts(e: Export, rest: Bytes)
    requires |e.name| < U32 && e.index < U32
    ensures ReadExport(ShowExport(e) + rest) == Got(e, rest)
  {
    hide ReadName, PrintName, ReadU32, PrintLeb;
    var s2 := PrintLeb(e.index) + rest;
    var s1 := [e.kind] + s2;
    assert ShowExport(e) + rest == PrintName(e.name) + s1;
    NameInverts(e.name, s1);
    assert s1[1..] == s2;
    U32Inverts(e.index, rest);
  }

  lemma PayloadInverts(s: Section)
    requires Printable(s)
    ensures ReadPayload(IdOf(s), Payload(s)) == Some(s)
  {
    hide ReadName, PrintName, ReadU32, PrintLeb, ReadVector, PrintVector;
    assert Payload(s) + [] == Payload(s);
    match s {
      case Imports(ims) =>
        forall k | 0 <= k < |ims| ensures Inverts(ReadImport, ShowImport, ims[k]) {
          forall rest ensures ReadImport(ShowImport(ims[k]) + rest) == Got(ims[k], rest) {
            ImportInverts(ims[k], rest);
          }
        }
        VectorInverts(ReadImport, ShowImport, ims, []);
      case Functions(ts) =>
        forall k | 0 <= k < |ts| ensures Inverts(ReadU32, PrintLeb, ts[k]) {
          forall rest ensures ReadU32(PrintLeb(ts[k]) + rest) == Got(ts[k], rest) {
            U32Inverts(ts[k], rest);
          }
        }
        VectorInverts(ReadU32, PrintLeb, ts, []);
      case NoTables => U32Inverts(0, []);
      case Exports(es) =>
        forall k | 0 <= k < |es| ensures Inverts(ReadExport, ShowExport, es[k]) {
          forall rest ensures ReadExport(ShowExport(es[k]) + rest) == Got(es[k], rest) {
            ExportInverts(es[k], rest);
          }
        }
        VectorInverts(ReadExport, ShowExport, es, []);
      case Code(bs) =>
        forall k | 0 <= k < |bs| ensures Inverts(ReadName, PrintName, bs[k]) {
          forall rest ensures ReadName(PrintName(bs[k]) + rest) == Got(bs[k], rest) {
            NameInverts(bs[k], rest);
          }
        }
        VectorInverts(ReadName, PrintName, bs, []);
      case Other(_, _) =>
    }
  }

  lemma SectionInverts(s: Section, rest: Bytes)
    requires Printable(s)
    ensures ReadSection(ShowSection(s) + rest) == Got(s, rest)
  {
    hide ReadPayload, Payload, ReadU32, PrintLeb;
    var p := Payload(s);
    var s2 := p + rest;
    var s1 := PrintLeb(|p|) + s2;
    assert ShowSection(s) + rest == [IdOf(s)] + s1;
    assert ([IdOf(s)] + s1)[1..] == s1;
    U32Inverts(|p|, s2);
    assert s2[..|p|] == p && s2[|p|..] == rest;
    PayloadInverts(s);
  }

  lemma {:induction false} SectionsThen(d: Declaration, ss: seq<Section>, more: Bytes)
    requires forall k :: 0 <= k < |ss| ==> Printable(ss[k])
    ensures InspectFrom(d, PrintAll(ShowSection, ss) + more) == InspectFrom(DeclareAll(d, ss), more)
    decreases |ss|
  {
    hide ReadSection, ShowSection, Printable, Declare;
    if ss == [] {
      assert PrintAll(ShowSection, ss) + more == more;
    } else {
      var rest := PrintAll(ShowSection, ss[1..]) + more;
      assert PrintAll(ShowSection, ss) + more == ShowSection(ss[0]) + rest;
      SectionInverts(ss[0], rest);
      ShownIsNotEmpty(ss[0], rest);
      SectionsThen(Declare(d, ss[0]), ss[1..], more);
    }
  }

  lemma SectionsDeclare(d: Declaration, ss: seq<Section>)
    requires forall k :: 0 <= k < |ss| ==> Printable(ss[k])
    ensures InspectFrom(d, PrintAll(ShowSection, ss)) == Some(DeclareAll(d, ss))
  {
    SectionsThen(d, ss, []);
    assert PrintAll(ShowSection, ss) + [] == PrintAll(ShowSection, ss);
  }

  lemma ShownIsNotEmpty(s: Section, rest: Bytes)
    ensures ShowSection(s) + rest != []
  {
    assert (ShowSection(s) + rest)[0] == IdOf(s);
  }

  /** Inspecting a printed module recovers its declarations: import names in order, the function count, the
      version export and the code bodies. */
  lemma InspectInvertsPrint(ss: seq<Section>)
    requires forall k :: 0 <= k < |ss| ==> Printable(ss[k])
    ensures Inspect(Print(ss)) == Some(DeclareAll(NOTHING, ss))
  {
    assert Print(ss)[|HEADER|..] == PrintAll(ShowSection, ss);
    SectionsDeclare(NOTHING, ss);
  }

  // ---------- what is refused ----------

  /** A section as its bytes, whatever is in it. */
  function RawSection(id: Byte, payload: Bytes): Bytes {
    [id] + (PrintLeb(|payload|) + payload)
  }

  lemma BadSectionFails(id: Byte, payload: Bytes, more: Bytes)
    requires |payload| < U32 && ReadPayload(id, payload).None?
    ensures RawSection(id, payload) + more != [] && ReadSection(RawSection(id, payload) + more).Fail?
  {
    hide ReadPayload, ReadU32, PrintLeb;
    var bad := RawSection(id, payload) + more;
    var s2 := payload + more;
    var s1 := PrintLeb(|payload|) + s2;
    assert bad == [id] + s1;
    assert bad[1..] == s1;
    U32Inverts(|payload|, s2);
    assert s2[..|payload|] == payload;
  }

  /** After any sections, one that no policy may have spoils the module, whatever follows. */
  lemma BadSectionIsRefused(ss: seq<Section>, id: Byte, payload: Bytes, more: Bytes)
    requires forall k :: 0 <= k < |ss| ==> Printable(ss[k])
    requires |payload| < U32 && ReadPayload(id, payload).None?
    ensures Inspect(HEADER + (PrintAll(ShowSection, ss) + (RawSection(id, payload) + more))).None?
  {
    hide ReadPayload, ReadSection, RawSection, PrintAll, ShowSection, Printable, DeclareAll;
    var bad := RawSection(id, payload) + more;
    var sections := PrintAll(ShowSection, ss) + bad;
    assert (HEADER + sections)[|HEADER|..] == sections;
    SectionsThen(NOTHING, ss, bad);
    BadSectionFails(id, payload, more);
  }

  /** A start section is refused, whatever it says. */
  lemma StartIsRefused(payload: Bytes)
    ensures ReadPayload(8, payload).None?
  {
  }

  /** So is a table section that is anything but empty. */
  lemma TablesAreRefused(n: nat, rest: Bytes)
    requires n < U32
    ensures ReadPayload(4, PrintLeb(n) + rest).None? <==> n > 0 || rest != []
  {
    hide ReadU32, PrintLeb;
    U32Inverts(n, rest);
  }

  /** So is an import of anything but a function, wherever in the list it stands. */
  lemma OtherImportIsRefused(ims: seq<Import>, n: nat, moduleName: Bytes, name: Bytes, kind: Byte, rest: Bytes)
    requires |ims| < n < U32 && |moduleName| < U32 && |name| < U32 && kind != FUNCTION_KIND
    requires forall k :: 0 <= k < |ims| ==> |ims[k].moduleName| < U32 && |ims[k].name| < U32 && ims[k].index < U32
    ensures
      var entry := PrintName(moduleName) + (PrintName(name) + ([kind] + rest));
      ReadPayload(2, PrintLeb(n) + (PrintAll(ShowImport, ims) + entry)).None?
  {
    hide ReadU32, PrintLeb, ReadName, PrintName, ShowImport;
    var s2 := [kind] + rest;
    var s1 := PrintName(name) + s2;
    var entry := PrintName(moduleName) + s1;
    NameInverts(moduleName, s1);
    NameInverts(name, s2);
    assert ReadImport(entry).Fail?;
    forall k | 0 <= k < |ims| ensures Inverts(ReadImport, ShowImport, ims[k]) {
      forall more ensures ReadImport(ShowImport(ims[k]) + more) == Got(ims[k], more) {
        ImportInverts(ims[k], more);
      }
    }
    ManyFails(ReadImport, ShowImport, ims, n, entry);
    U32Inverts(n, PrintAll(ShowImport, ims) + entry);
  }

  /** So is a section of imports, functions, exports or code that goes on after its last item. */
  lemma TrailingBytesAreRefused(s: Section, more: Bytes)
    requires Printable(s) && !s.Other? && more != []
    ensures ReadPayload(IdOf(s), Payload(s) + more).None?
  {
    hide ReadName, PrintName, ReadU32, PrintLeb, ReadVector, PrintVector;
    match s {
      case Imports(ims) =>
        forall k | 0 <= k < |ims| ensures Inverts(ReadImport, ShowImport, ims[k]) {
          forall rest ensures ReadImport(ShowImport(ims[k]) + rest) == Got(ims[k], rest) {
            ImportInverts(ims[k], rest);
          }
        }
        VectorInverts(ReadImport, ShowImport, ims, more);
      case Functions(ts) =>
        forall k | 0 <= k < |ts| ensures Inverts(ReadU32, PrintLeb, ts[k]) {
          forall rest ensures ReadU32(PrintLeb(ts[k]) + rest) == Got(ts[k], rest) {
            U32Inverts(ts[k], rest);
          }
        }
        VectorInverts(ReadU32, PrintLeb, ts, more);
      case NoTables => U32Inverts(0, more);
      case Exports(es) =>
        forall k | 0 <= k < |es| ensures Inverts(ReadExport, ShowExport, es[k]) {
          forall rest ensures ReadExport(ShowExport(es[k]) + rest) == Got(es[k], rest) {
            ExportInverts(es[k], rest);
          }
        }
        VectorInverts(ReadExport, ShowExport, es, more);
      case Code(bs) =>
        forall k | 0 <= k < |bs| ensures Inverts(ReadName, PrintName, bs[k]) {
          forall rest ensures ReadName(PrintName(bs[k]) + rest) == Got(bs[k], rest) {
            NameInverts(bs[k], rest);
          }
        }
        VectorInverts(ReadName, PrintName, bs, more);
    }
  }

  // ---------- the version declaration ----------

  /** The check as the host makes it, on the bits of the body. */
  predicate ValidateStaticMajor(d: Declaration) {
    && d.version != MAX_U32 && d.version >= d.importedFunctions
    && var defined := d.version - d.importedFunctions;
       && defined < d.functionCount && defined < |d.codeBodies|
       && var body := d.codeBodies[defined];
          && |body| == 4 && body[0] == 0x00 && body[1] == 0x41 && body[2] < 0x80 && body[3] == 0x0b
          && SignedMajor(body[2]) % U32 == ABI_MAJOR
  }

  /** One signed LEB128 group: bit 6 is the sign. */
  function SignedMajor(b: Byte): int {
    if b % 0x80 >= 0x40 then b - 0x80 else b
  }

  /** The body `i32.const 1; end`, without locals. */
  predicate IsCanonical(body: Bytes) {
    body == [0x00, 0x41, 0x01, 0x0b]
  }

  /** Accepted is exactly the canonical body, of the function the version is exported from, defined in the
      module itself. */
  lemma StaticMajorIff(d: Declaration)
    ensures ValidateStaticMajor(d) <==>
              && d.version != MAX_U32 && d.importedFunctions <= d.version
              && d.version - d.importedFunctions < d.functionCount
              && d.version - d.importedFunctions < |d.codeBodies|
              && IsCanonical(d.codeBodies[d.version - d.importedFunctions])
  {
    if d.importedFunctions <= d.version && d.version - d.importedFunctions < |d.codeBodies| {
      var body := d.codeBodies[d.version - d.importedFunctions];
      if |body| == 4 {
        assert body == [body[0], body[1], body[2], body[3]];
      }
    }
  }

  // What a module as a whole declares: all its imports and exports, and the last function types and bodies.

  function ImportsOf(ss: seq<Section>): seq<Import> {
    if ss == [] then [] else (if ss[0].Imports? then ss[0].imports else []) + ImportsOf(ss[1..])
  }

  function ExportsOf(ss: seq<Section>): seq<Export> {
    if ss == [] then [] else (if ss[0].Exports? then ss[0].exports else []) + ExportsOf(ss[1..])
  }

  function TypesOf(before: seq<nat>, ss: seq<Section>): seq<nat>
    decreases |ss|
  {
    if ss == [] then before else TypesOf(if ss[0].Functions? then ss[0].types else before, ss[1..])
  }

  function BodiesOf(before: seq<Bytes>, ss: seq<Section>): seq<Bytes>
    decreases |ss|
  {
    if ss == [] then before else BodiesOf(if ss[0].Code? then ss[0].bodies else before, ss[1..])
  }

  /** The guest defines the function exported as export `k`, and defines it canonically. */
  predicate CanonicalVersion(ims: seq<Import>, ts: seq<nat>, es: seq<Export>, bs: seq<Bytes>, k: nat)
    requires k < |es|
  {
    && es[k].index != MAX_U32
    && |ims| <= es[k].index < |ims| + |ts| && es[k].index - |ims| < |bs|
    && IsCanonical(bs[es[k].index - |ims|])
  }

  lemma VersionPassesIff(ims: seq<Import>, ts: seq<nat>, es: seq<Export>, bs: seq<Bytes>)
    ensures ValidateStaticMajor(Declaration(Names(ims), |ims|, VersionIndex(MAX_U32, es), |ts|, bs)) <==>
              exists k :: 0 <= k < |es| && LastVersion(es, k) && CanonicalVersion(ims, ts, es, bs, k)
  {
    hide VersionIndex, ValidateStaticMajor, LastVersion, CanonicalVersion, Names;
    var d := Declaration(Names(ims), |ims|, VersionIndex(MAX_U32, es), |ts|, bs);
    if k :| 0 <= k < |es| && LastVersion(es, k) {
      OneLastVersion(MAX_U32, es, k);
      IndexPassesIff(ims, ts, es, bs, k);
      forall j | 0 <= j < |es| && LastVersion(es, j) ensures j == k {
        LastVersionIsUnique(es, j, k);
      }
    } else {
      VersionIsLast(MAX_U32, es);
      StaticMajorIff(d);
    }
  }

  lemma IndexPassesIff(ims: seq<Import>, ts: seq<nat>, es: seq<Export>, bs: seq<Bytes>, k: nat)
    requires k < |es|
    ensures ValidateStaticMajor(Declaration(Names(ims), |ims|, es[k].index, |ts|, bs)) <==>
              CanonicalVersion(ims, ts, es, bs, k)
  {
    hide Names, ValidateStaticMajor, IsCanonical;
    StaticMajorIff(Declaration(Names(ims), |ims|, es[k].index, |ts|, bs));
  }

  lemma LastVersionIsUnique(es: seq<Export>, j: nat, k: nat)
    requires j < |es| && k < |es| && LastVersion(es, j) && LastVersion(es, k)
    ensures j == k
  {
  }

  /** End to end, whatever sections surround them: a printed module passes exactly when the last function it
      exports under the version name is the guest's own and consists of the canonical version body. */
  lemma PrintedPolicyPassesIff(ss: seq<Section>)
    requires forall k :: 0 <= k < |ss| ==> Printable(ss[k])
    ensures
      var d := Inspect(Print(ss));
      var ims, ts, es, bs := ImportsOf(ss), TypesOf([], ss), ExportsOf(ss), BodiesOf([], ss);
      && d.Some? && d.value.importNames == Names(ims)
      && (ValidateStaticMajor(d.value) <==>
           exists k :: 0 <= k < |es| && LastVersion(es, k) && CanonicalVersion(ims, ts, es, bs, k))
  {
    hide Printable, Print, Inspect, ValidateStaticMajor, LastVersion, CanonicalVersion, VersionIndex, DeclareAll, Names,
      ImportsOf, TypesOf, ExportsOf, BodiesOf;
    InspectInvertsPrint(ss);
    NothingDeclared();
    AllDeclared([], [], [], [], ss);
    assert [] + ImportsOf(ss) == ImportsOf(ss) && [] + ExportsOf(ss) == ExportsOf(ss);
    VersionPassesIff(ImportsOf(ss), TypesOf([], ss), ExportsOf(ss), BodiesOf([], ss));
  }

  ghost predicate LastVersion(es: seq<Export>, k: nat)
    requires k < |es|
  {
    IsVersion(es[k]) && forall j :: k < j < |es| ==> !IsVersion(es[j])
  }

  /** The declaration these items amount to. */
  function DeclarationOf(ims: seq<Import>, ts: seq<nat>, es: seq<Export>, bs: seq<Bytes>): Declaration {
    Declaration(Names(ims), |ims|, VersionIndex(MAX_U32, es), |ts|, bs)
  }

  lemma NothingDeclared()
    ensures DeclarationOf([], [], [], []) == NOTHING
  {
  }

  lemma NamesConcat(a: seq<Import>, b: seq<Import>)
    ensures Names(a + b) == Names(a) + Names(b)
  {
  }

  lemma {:induction false} VersionConcat(before: nat, a: seq<Export>, b: seq<Export>)
    ensures VersionIndex(before, a + b) == VersionIndex(VersionIndex(before, a), b)
    decreases |b|
  {
    if b == [] {
      assert a + b == a;
    } else {
      VersionConcat(before, a, b[..|b| - 1]);
      assert (a + b)[..|a + b| - 1] == a + b[..|b| - 1];
    }
  }

  lemma OneDeclared(ims: seq<Import>, ts: seq<nat>, es: seq<Export>, bs: seq<Bytes>, s: Section)
    ensures Declare(DeclarationOf(ims, ts, es, bs), s) ==
              DeclarationOf(ims + (if s.Imports? then s.imports else []), if s.Functions? then s.types else ts,
                            es + (if s.Exports? then s.exports else []), if s.Code? then s.bodies else bs)
  {
    hide VersionIndex, Names;
    assert ims + [] == ims && es + [] == es;
    match s
    case Imports(more) => NamesConcat(ims, more);
    case Exports(more) => VersionConcat(MAX_U32, es, more);
    case _ =>
  }

  lemma {:induction false} AllDeclared(ims: seq<Import>, ts: seq<nat>, es: seq<Export>, bs: seq<Bytes>, ss: seq<Section>)
    ensures DeclareAll(DeclarationOf(ims, ts, es, bs), ss) ==
              DeclarationOf(ims + ImportsOf(ss), TypesOf(ts, ss), es + ExportsOf(ss), BodiesOf(bs, ss))
    decreases |ss|
  {
    hide Declare, DeclarationOf;
    if ss == [] {
      assert ims + [] == ims && es + [] == es;
    } else {
      var s := ss[0];
      var i, e := if s.Imports? then s.imports else [], if s.Exports? then s.exports else [];
      OneDeclared(ims, ts, es, bs, s);
      AllDeclared(ims + i, if s.Functions? then s.types else ts, es + e, if s.Code? then s.bodies else bs, ss[1..]);
      assert ims + i + ImportsOf(ss[1..]) == ims + (i + ImportsOf(ss[1..]));
      assert es + e + ExportsOf(ss[1..]) == es + (e + ExportsOf(ss[1..]));
    }
  }

  lemma {:induction false} OneLastVersion(before: nat, es: seq<Export>, k: nat)
    requires k < |es| && LastVersion(es, k)
    ensures VersionIndex(before, es) == es[k].index
    decreases |es|
  {
    if k < |es| - 1 {
      assert LastVersion(es[..|es| - 1], k);
      OneLastVersion(before, es[..|es| - 1], k);
    }
  }

  lemma {:induction false} VersionIsLast(before: nat, es: seq<Export>)
    ensures
      || (VersionIndex(before, es) == before && forall j :: 0 <= j < |es| ==> !IsVersion(es[j]))
      || exists k :: 0 <= k < |es| && LastVersion(es, k) && VersionIndex(before, es) == es[k].index
  {
    if es != [] {
      var n := |es| - 1;
      var front := es[..n];
      VersionIsLast(before, front);
      if IsVersion(es[n]) {
        assert LastVersion(es, n);
      } else if k :| 0 <= k < n && LastVersion(front, k) && VersionIndex(before, front) == front[k].index {
        assert LastVersion(es, k);
      }
    }
  }
}

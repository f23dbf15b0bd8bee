/** JSON as lexemes and as values: what a text stands for, and a reader that refuses repeated members and deep
    nesting. Names and strings are compared after unescaping, so a lexeme carries the text it means. */
module JsonValues {
  import opened Sequences

  const MAX_DEPTH := 32

  datatype Lexeme = LBrace | RBrace | LBracket | RBracket | Comma | Colon | Quoted(text: string) | Bare(text: string) | Malformed

  datatype Json = Scalar(text: string) | Text(text: string) | Array(items: seq<Json>) | Object(members: seq<Member>)

  datatype Member = Member(name: string, value: Json)

  // ---------- printing ----------

  function Print(v: Json): (s: seq<Lexeme>)
    ensures s != [] && s[0] != RBracket && s[0] != RBrace && s[0] != Comma && s[0] != Colon
    decreases v, 1
  {
    match v
    case Scalar(text) => [Bare(text)]
    case Text(text) => [Quoted(text)]
    case Array(items) => [LBracket] + PrintItems(items, true)
    case Object(members) => [LBrace] + PrintMembers(members, true)
  }

  /** The items from here on and the closing bracket; every item but the first after a comma. */
  function PrintItems(items: seq<Json>, first: bool): seq<Lexeme>
    decreases items, 0
  {
    if items == [] then [RBracket]
    else Separator(first) + (Print(items[0]) + PrintItems(items[1..], false))
  }

  function PrintMembers(members: seq<Member>, first: bool): seq<Lexeme>
    decreases members, 0
  {
    if members == [] then [RBrace]
    else
      Separator(first)
      + ([Quoted(members[0].name), Colon] + (Print(members[0].value) + PrintMembers(members[1..], false)))
  }

  function Separator(first: bool): seq<Lexeme> {
    if first then [] else [Comma]
  }

  // ---------- what is allowed ----------

  function NamesOf(members: seq<Member>): set<string> {
    set m | m in members :: m.name
  }

  predicate DistinctNames(members: seq<Member>) {
    forall i, j :: 0 <= i < j < |members| ==> members[i].name != members[j].name
  }

  /** At this depth the value nests within the bound, and no object in it repeats a member. */
  predicate Fits(v: Json, depth: nat)
    decreases v
  {
    && depth <= MAX_DEPTH
    && match v
       case Scalar(_) => true
       case Text(_) => true
       case Array(items) => forall i :: 0 <= i < |items| ==> Fits(items[i], depth + 1)
       case Object(members) =>
         DistinctNames(members) && forall i :: 0 <= i < |members| ==> Fits(members[i].value, depth + 1)
  }

  // ---------- reading ----------

  datatype Read<+T> = Fail | Got(value: T, rest: seq<Lexeme>)

  function ReadValue(s: seq<Lexeme>, depth: nat): (r: Read<Json>)
    ensures r.Got? ==> |r.rest| < |s|
    decreases |s|, 1
  {
    if depth > MAX_DEPTH || s == [] then Fail
    else match s[0]
      case Bare(text) => Got(Scalar(text), s[1..])
      case Quoted(text) => Got(Text(text), s[1..])
      case LBracket =>
        (match ReadItems(s[1..], true, depth) case Fail => Fail case Got(items, rest) => Got(Array(items), rest))
      case LBrace =>
        (match ReadMembers(s[1..], true, {}, depth) case Fail => Fail case Got(ms, rest) => Got(Object(ms), rest))
      case _ => Fail
  }

  /** Items up to the closing bracket. */
  function ReadItems(s: seq<Lexeme>, first: bool, depth: nat): (r: Read<seq<Json>>)
    ensures r.Got? ==> |r.rest| < |s|
    decreases |s|, 2
  {
    if s == [] then Fail
    else if s[0] == RBracket then Got([], s[1..])
    else if !first && s[0] != Comma then Fail
    else
      match ReadValue(if first then s else s[1..], depth + 1)
      case Fail => Fail
      case Got(v, more) =>
        match ReadItems(more, false, depth)
        case Fail => Fail
        case Got(vs, rest) => Got([v] + vs, rest)
  }

  /** Members up to the closing brace, none with a name already seen. */
  function ReadMembers(s: seq<Lexeme>, first: bool, seen: set<string>, depth: nat): (r: Read<seq<Member>>)
    ensures r.Got? ==> |r.rest| < |s|
    decreases |s|, 2
  {
    if s == [] then Fail
    else if s[0] == RBrace then Got([], s[1..])
    else if !first && s[0] != Comma then Fail
    else
      var t := if first then s else s[1..];
      if |t| < 2 || !t[0].Quoted? || t[0].text in seen || t[1] != Colon then Fail
      else match ReadValue(t[2..], depth + 1)
        case Fail => Fail
        case Got(v, more) =>
          match ReadMembers(more, false, seen + {t[0].text}, depth)
          case Fail => Fail
          case Got(ms, rest) => Got([Member(t[0].text, v)] + ms, rest)
  }

  // ---------- reading accepts exactly the printed values that fit ----------

  predicate Apart(members: seq<Member>, seen: set<string>) {
    DistinctNames(members) && forall i :: 0 <= i < |members| ==> members[i].name !in seen
  }

  lemma {:induction false} ValueReads(v: Json, depth: nat, rest: seq<Lexeme>)
    requires Fits(v, depth)
    ensures ReadValue(Print(v) + rest, depth) == Got(v, rest)
    decreases v, 1
  {
    var s := Print(v) + rest;
    match v
    case Scalar(_) => assert s[1..] == rest;
    case Text(_) => assert s[1..] == rest;
    case Array(items) =>
      assert s[1..] == PrintItems(items, true) + rest;
      ItemsRead(items, true, depth, rest);
    case Object(members) =>
      assert s[1..] == PrintMembers(members, true) + rest;
      MembersRead(members, true, {}, depth, rest);
  }

  lemma ItemStep(s: seq<Lexeme>, t: seq<Lexeme>, first: bool, depth: nat, v: Json, more: seq<Lexeme>, vs: seq<Json>, rest: seq<Lexeme>)
    requires s == Separator(first) + t && t != [] && t[0] != RBracket
    requires ReadValue(t, depth + 1) == Got(v, more) && ReadItems(more, false, depth) == Got(vs, rest)
    ensures ReadItems(s, first, depth) == Got([v] + vs, rest)
  {
    hide ReadValue;
    assert (if first then s else s[1..]) == t;
  }

  lemma {:induction false} ItemsRead(items: seq<Json>, first: bool, depth: nat, rest: seq<Lexeme>)
    requires forall i :: 0 <= i < |items| ==> Fits(items[i], depth + 1)
    ensures ReadItems(PrintItems(items, first) + rest, first, depth) == Got(items, rest)
    decreases items, 0
  {
    hide Fits, Print, ReadValue, ReadMembers;
    var s := PrintItems(items, first) + rest;
    if items == [] {
      assert s[1..] == rest;
    } else {
      var more := PrintItems(items[1..], false) + rest;
      ValueReads(items[0], depth + 1, more);
      ItemsRead(items[1..], false, depth, rest);
      assert s == Separator(first) + (Print(items[0]) + more);
      assert [items[0]] + items[1..] == items;
      ItemStep(s, Print(items[0]) + more, first, depth, items[0], more, items[1..], rest);
    }
  }

  lemma MemberStep(s: seq<Lexeme>, first: bool, seen: set<string>, depth: nat, name: string, t: seq<Lexeme>, v: Json,
                   more: seq<Lexeme>, ms: seq<Member>, rest: seq<Lexeme>)
    requires s == Separator(first) + ([Quoted(name), Colon] + t) && name !in seen
    requires ReadValue(t, depth + 1) == Got(v, more) && ReadMembers(more, false, seen + {name}, depth) == Got(ms, rest)
    ensures ReadMembers(s, first, seen, depth) == Got([Member(name, v)] + ms, rest)
  {
    hide ReadValue;
    var u := if first then s else s[1..];
    assert u == [Quoted(name), Colon] + t && u[2..] == t;
  }

  lemma ApartStep(members: seq<Member>, seen: set<string>)
    requires members != []
    ensures Apart(members, seen) <==> members[0].name !in seen && Apart(members[1..], seen + {members[0].name})
  {
    var tail := members[1..];
    if members[0].name !in seen && Apart(tail, seen + {members[0].name}) {
      forall i, j | 0 <= i < j < |members| ensures members[i].name != members[j].name {
        assert tail[j - 1].name !in seen + {members[0].name};
        assert i > 0 ==> tail[i - 1].name != tail[j - 1].name;
      }
      forall i | 0 <= i < |members| ensures members[i].name !in seen {
        assert i > 0 ==> members[i] == tail[i - 1];
      }
    }
  }

  lemma NoMembersRead(first: bool, seen: set<string>, depth: nat, rest: seq<Lexeme>)
    ensures ReadMembers([RBrace] + rest, first, seen, depth) == Got([], rest)
  {
    assert ([RBrace] + rest)[1..] == rest;
  }

  lemma {:induction false} MembersRead(members: seq<Member>, first: bool, seen: set<string>, depth: nat, rest: seq<Lexeme>)
    requires Apart(members, seen) && forall i :: 0 <= i < |members| ==> Fits(members[i].value, depth + 1)
    ensures ReadMembers(PrintMembers(members, first) + rest, first, seen, depth) == Got(members, rest)
    decreases members, 0
  {
    hide Fits, Print, ReadValue, ReadItems, ReadMembers, Apart;
    var s := PrintMembers(members, first) + rest;
    if members == [] {
      NoMembersRead(first, seen, depth, rest);
    } else {
      var m := members[0];
      var more := PrintMembers(members[1..], false) + rest;
      ValueReads(m.value, depth + 1, more);
      ApartStep(members, seen);
      MembersRead(members[1..], false, seen + {m.name}, depth, rest);
      assert s == Separator(first) + ([Quoted(m.name), Colon] + (Print(m.value) + more));
      assert [Member(m.name, m.value)] + members[1..] == members;
      MemberStep(s, first, seen, depth, m.name, Print(m.value) + more, m.value, more, members[1..], rest);
    }
  }

  lemma {:induction false} ReadPrints(s: seq<Lexeme>, depth: nat)
    requires ReadValue(s, depth).Got?
    ensures Fits(ReadValue(s, depth).value, depth) && s == Print(ReadValue(s, depth).value) + ReadValue(s, depth).rest
    decreases |s|, 1
  {
    assert s == [s[0]] + s[1..];
    match s[0]
    case LBracket => ReadItemsPrint(s[1..], true, depth);
    case LBrace => ReadMembersPrint(s[1..], true, {}, depth);
    case _ =>
  }

  lemma ItemsPrintStep(s: seq<Lexeme>, first: bool, v: Json, vs: seq<Json>, rest: seq<Lexeme>)
    requires s == Separator(first) + (Print(v) + (PrintItems(vs, false) + rest))
    ensures s == PrintItems([v] + vs, first) + rest
  {
    hide Print;
    assert ([v] + vs)[1..] == vs;
  }

  lemma {:induction false} ReadItemsPrint(s: seq<Lexeme>, first: bool, depth: nat)
    requires ReadItems(s, first, depth).Got?
    ensures
      var r := ReadItems(s, first, depth);
      s == PrintItems(r.value, first) + r.rest && forall i :: 0 <= i < |r.value| ==> Fits(r.value[i], depth + 1)
    decreases |s|, 2
  {
    hide Fits, Print, ReadValue, ReadMembers;
    assert s == [s[0]] + s[1..];
    if s[0] != RBracket {
      var t := if first then s else s[1..];
      ReadPrints(t, depth + 1);
      var v := ReadValue(t, depth + 1);
      ReadItemsPrint(v.rest, false, depth);
      var vs := ReadItems(v.rest, false, depth);
      var r := ReadItems(s, first, depth);
      assert r.value == [v.value] + vs.value;
      ItemsPrintStep(s, first, v.value, vs.value, vs.rest);
    }
  }

  lemma {:induction false} ReadMembersPrint(s: seq<Lexeme>, first: bool, seen: set<string>, depth: nat)
    requires ReadMembers(s, first, seen, depth).Got?
    ensures
      var r := ReadMembers(s, first, seen, depth);
      && s == PrintMembers(r.value, first) + r.rest && Apart(r.value, seen)
      && forall i :: 0 <= i < |r.value| ==> Fits(r.value[i].value, depth + 1)
    decreases |s|, 2
  {
    hide Fits, Print, ReadValue, ReadItems, Apart;
    assert s == [s[0]] + s[1..];
    if s[0] == RBrace {
      NoneApart(seen);
    } else {
      var t := if first then s else s[1..];
      assert t == [t[0], t[1]] + t[2..];
      ReadPrints(t[2..], depth + 1);
      var v := ReadValue(t[2..], depth + 1);
      ReadMembersPrint(v.rest, false, seen + {t[0].text}, depth);
      var ms := ReadMembers(v.rest, false, seen + {t[0].text}, depth);
      var r := ReadMembers(s, first, seen, depth);
      assert r.value == [Member(t[0].text, v.value)] + ms.value && r.value[1..] == ms.value;
      ApartStep(r.value, seen);
      MembersPrintStep(s, first, t[0].text, v.value, ms.value, ms.rest);
    }
  }

  lemma NoneApart(seen: set<string>)
    ensures Apart([], seen)
  {
  }

  lemma MembersPrintStep(s: seq<Lexeme>, first: bool, name: string, v: Json, ms: seq<Member>, rest: seq<Lexeme>)
    requires s == Separator(first) + ([Quoted(name), Colon] + (Print(v) + (PrintMembers(ms, false) + rest)))
    ensures s == PrintMembers([Member(name, v)] + ms, first) + rest
  {
    hide Print;
    assert ([Member(name, v)] + ms)[1..] == ms;
  }

  /** One value and nothing after it. */
  predicate Valid(s: seq<Lexeme>) {
    var r := ReadValue(s, 0);
    r.Got? && r.rest == []
  }

  /** What is accepted is exactly the text of one value, nested no deeper than the bound, with no object in it
      repeating a member. */
  lemma ValidIff(s: seq<Lexeme>)
    ensures Valid(s) <==> exists v :: Fits(v, 0) && s == Print(v)
  {
    hide Fits, Print, ReadValue;
    if Valid(s) {
      ReadPrints(s, 0);
      var v := ReadValue(s, 0).value;
      assert Print(v) + [] == Print(v);
    }
    if v :| Fits(v, 0) && s == Print(v) {
      ValueReads(v, 0, []);
      assert Print(v) + [] == s;
    }
  }
}

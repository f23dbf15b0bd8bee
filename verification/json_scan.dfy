/** The duplicate-rejecting scan, over a streaming token decoder. The decoder keeps a grammar state and a
    stack of enclosing ones and swallows commas and colons; the scan never sees them. */
module JsonScan {
  import opened Sequences
  import opened JsonValues

  datatype State =
    | TopValue | ArrayStart | ArrayValue | ArrayComma
    | ObjectStart | ObjectKey | ObjectColon | ObjectValue | ObjectComma

  datatype Position = Position(rest: seq<Lexeme>, state: State, stack: seq<State>)

  datatype Token = Delim(lexeme: Lexeme) | Name(text: string) | Value

  datatype Step = NoToken | Took(token: Token, next: Position)

  predicate ValueAllowed(s: State) {
    s.TopValue? || s.ArrayStart? || s.ArrayValue? || s.ObjectValue?
  }

  function ValueEnd(s: State): State {
    if s.ArrayStart? || s.ArrayValue? then ArrayComma else if s.ObjectValue? then ObjectComma else s
  }

  /** Enters a bracket. */
  function Open(p: Position, inner: State): Step
    requires p.rest != []
  {
    if !ValueAllowed(p.state) then NoToken
    else Took(Delim(p.rest[0]), Position(p.rest[1..], inner, p.stack + [p.state]))
  }

  /** Leaves a bracket. */
  function Leave(p: Position, empty: State, full: State): Step
    requires p.rest != []
  {
    if (p.state != empty && p.state != full) || p.stack == [] then NoToken
    else
      var n := |p.stack| - 1;
      Took(Delim(p.rest[0]), Position(p.rest[1..], ValueEnd(p.stack[n]), p.stack[..n]))
  }

  /** The next token. */
  function Next(p: Position): Step
    decreases |p.rest|
  {
    if p.rest == [] then NoToken
    else match p.rest[0]
      case LBracket => Open(p, ArrayStart)
      case RBracket => Leave(p, ArrayStart, ArrayComma)
      case LBrace => Open(p, ObjectStart)
      case RBrace => Leave(p, ObjectStart, ObjectComma)
      case Colon => if p.state.ObjectColon? then Next(p.(rest := p.rest[1..], state := ObjectValue)) else NoToken
      case Comma =>
        if p.state.ArrayComma? then Next(p.(rest := p.rest[1..], state := ArrayValue))
        else if p.state.ObjectComma? then Next(p.(rest := p.rest[1..], state := ObjectKey))
        else NoToken
      case Quoted(text) =>
        if p.state.ObjectStart? || p.state.ObjectKey? then
          Took(Name(text), p.(rest := p.rest[1..], state := ObjectColon))
        else if ValueAllowed(p.state) then Took(Value, p.(rest := p.rest[1..], state := ValueEnd(p.state)))
        else NoToken
      case Bare(_) =>
        if ValueAllowed(p.state) then Took(Value, p.(rest := p.rest[1..], state := ValueEnd(p.state))) else NoToken
      case Malformed => NoToken
  }

  class Decoder {
    var rest: seq<Lexeme>
    var state: State
    var stack: seq<State>

    function At(): Position
      reads this
    {
      Position(rest, state, stack)
    }

    constructor (text: seq<Lexeme>)
      ensures At() == Position(text, TopValue, [])
    {
      rest, state, stack := text, TopValue, [];
    }

    /** Takes one token. */
    method Token() returns (ok: bool, token: Token)
      modifies this
      ensures ok <==> Next(old(At())).Took?
      ensures ok ==> Took(token, At()) == Next(old(At()))
    {
      hide Open, Leave, ValueAllowed, ValueEnd;
      while rest != [] && (rest[0] == Comma || rest[0] == Colon)
        invariant Next(old(At())) == Next(At())
        decreases |rest|
      {
        if rest[0] == Colon && state.ObjectColon? {
          rest, state := rest[1..], ObjectValue;
        } else if rest[0] == Comma && state.ArrayComma? {
          rest, state := rest[1..], ArrayValue;
        } else if rest[0] == Comma && state.ObjectComma? {
          rest, state := rest[1..], ObjectKey;
        } else {
          return false, Value;
        }
      }
      var step := Next(At());
      match step {
        case NoToken => return false, Value;
        case Took(t, next) =>
          rest, state, stack := next.rest, next.state, next.stack;
          return true, t;
      }
    }

    /** Whether another element follows in the current bracket. */
    method More() returns (more: bool)
      ensures more <==> rest != [] && rest[0] != RBracket && rest[0] != RBrace
    {
      more := rest != [] && rest[0] != RBracket && rest[0] != RBrace;
    }
  }

  // ---------- where a value may start ----------

  /** The lexemes of the value to come, past the comma or colon that must precede it here. */
  function Led(p: Position): Option<seq<Lexeme>> {
    match p.state
    case TopValue => Some(p.rest)
    case ArrayStart => Some(p.rest)
    case ArrayComma => if p.rest != [] && p.rest[0] == Comma then Some(p.rest[1..]) else None
    case ObjectColon => if p.rest != [] && p.rest[0] == Colon then Some(p.rest[1..]) else None
    case _ => None
  }

  predicate Scannable(s: State) {
    s.TopValue? || s.ArrayStart? || s.ArrayComma? || s.ObjectColon?
  }

  /** The state a value starting here is read in, and the one it leaves. */
  function During(s: State): State {
    match s
    case ArrayComma => ArrayValue
    case ObjectColon => ObjectValue
    case _ => s
  }

  /** What a reading leaves, whatever it read. */
  function Left<T>(r: Read<T>): Option<seq<Lexeme>> {
    match r
    case Fail => None
    case Got(_, rest) => Some(rest)
  }

  /** The value read from `p`, as far as the scan cares. */
  function Scanned(p: Position, depth: nat): Option<seq<Lexeme>> {
    match Led(p)
    case None => None
    case Some(s) => Left(ReadValue(s, depth))
  }

  /** No token, or the end of the enclosing bracket. */
  predicate StartsNothing(step: Step) {
    step.NoToken? || step.token == Delim(RBracket) || step.token == Delim(RBrace)
  }

  /** The first token of a value: a scalar, or a bracket with a fresh state inside. */
  lemma FirstToken(p: Position)
    requires Scannable(p.state)
    ensures
      var s := Led(p);
      var inner := During(p.state);
      if s.None? || s.value == [] then StartsNothing(Next(p))
      else match s.value[0]
        case Bare(_) => Next(p) == Took(Value, Position(s.value[1..], ValueEnd(inner), p.stack))
        case Quoted(_) => Next(p) == Took(Value, Position(s.value[1..], ValueEnd(inner), p.stack))
        case LBracket => Next(p) == Took(Delim(LBracket), Position(s.value[1..], ArrayStart, p.stack + [inner]))
        case LBrace => Next(p) == Took(Delim(LBrace), Position(s.value[1..], ObjectStart, p.stack + [inner]))
        case _ => StartsNothing(Next(p))
  {
    if p.state.ArrayComma? && p.rest != [] && p.rest[0] == Comma {
      var q := p.(rest := p.rest[1..], state := ArrayValue);
      assert Next(p) == Next(q);
    }
    if p.state.ObjectColon? && p.rest != [] && p.rest[0] == Colon {
      var q := p.(rest := p.rest[1..], state := ObjectValue);
      assert Next(p) == Next(q);
    }
  }

  // ---------- the scan ----------

  /** Scans one value: it is well formed from here, within the depth bound, and repeats no member. */
  method Scan(d: Decoder, depth: nat) returns (ok: bool)
    requires Scannable(d.state)
    modifies d
    ensures ok <==> Scanned(old(d.At()), depth).Some?
    ensures ok ==> d.At() == Position(Scanned(old(d.At()), depth).value, ValueEnd(During(old(d.state))), old(d.stack))
    ensures ok ==> |d.rest| < |old(d.rest)|
    decreases |d.rest|, 1
  {
    hide Next, ReadItems, ReadMembers;
    if depth > MAX_DEPTH {
      return false;
    }
    ghost var start := d.At();
    FirstToken(start);
    var token;
    ok, token := d.Token();
    if !ok || token.Value? {
      return;
    }
    if token.Name? {
      return false;
    }
    if token.lexeme == LBrace {
      ok := ScanObject(d, depth);
    } else if token.lexeme == LBracket {
      ok := ScanArray(d, depth);
    } else {
      ok := false;
    }
  }

  method ScanObject(d: Decoder, depth: nat) returns (ok: bool)
    requires d.state == ObjectStart && d.stack != [] && depth <= MAX_DEPTH
    modifies d
    ensures ok <==> Left(ReadMembers(old(d.rest), true, {}, depth)).Some?
    ensures ok ==> d.At() == Position(Left(ReadMembers(old(d.rest), true, {}, depth)).value,
                                      ValueEnd(old(d.stack)[|old(d.stack)| - 1]), old(d.stack)[..|old(d.stack)| - 1])
    ensures ok ==> |d.rest| < |old(d.rest)|
    decreases |d.rest|, 0
  {
    hide ReadValue, ReadMembers;
    var seen: set<string> := {};
    ghost var first := true;
    var more := d.More();
    while more
      invariant d.state == if first then ObjectStart else ObjectComma
      invariant d.stack == old(d.stack) && |d.rest| <= |old(d.rest)|
      invariant more <==> d.rest != [] && d.rest[0] != RBracket && d.rest[0] != RBrace
      invariant Left(ReadMembers(old(d.rest), true, {}, depth)) == Left(ReadMembers(d.rest, first, seen, depth))
      decreases |d.rest|
    {
      ghost var p := d.At();
      MemberTurn(p, first, seen, depth);
      var token;
      ok, token := d.Token();
      if !ok {
        return;
      }
      if !token.Name? || token.text in seen {
        return false;
      }
      seen := seen + {token.text};
      ok := Scan(d, depth + 1);
      if !ok {
        return;
      }
      first := false;
      more := d.More();
    }
    MembersEnd(d.At(), first, seen, depth);
    var closing;
    ok, closing := d.Token();
    ok := ok && closing == Delim(RBrace);
  }

  /** One member: its name, unless it is repeated, and then a value one level down. */
  lemma MemberTurn(p: Position, first: bool, seen: set<string>, depth: nat)
    requires p.state == (if first then ObjectStart else ObjectComma)
    requires p.rest != [] && p.rest[0] != RBracket && p.rest[0] != RBrace
    ensures
      var name := Next(p);
      if name.Took? && name.token.Name? && name.token.text !in seen then
        && name.next.state == ObjectColon && name.next.stack == p.stack && |name.next.rest| < |p.rest|
        && Left(ReadMembers(p.rest, first, seen, depth)) ==
             match Scanned(name.next, depth + 1)
             case None => None
             case Some(rest) => Left(ReadMembers(rest, false, seen + {name.token.text}, depth))
      else Left(ReadMembers(p.rest, first, seen, depth)).None?
  {
    hide ReadValue;
    var t := if first then p.rest else p.rest[1..];
    if !first && p.rest[0] == Comma {
      assert Next(p) == Next(p.(rest := p.rest[1..], state := ObjectKey));
    }
    if |t| >= 2 && t[0].Quoted? {
      assert t[1..][1..] == t[2..];
    }
  }

  lemma MembersEnd(p: Position, first: bool, seen: set<string>, depth: nat)
    requires p.state == (if first then ObjectStart else ObjectComma) && p.stack != []
    requires p.rest == [] || p.rest[0] == RBracket || p.rest[0] == RBrace
    ensures
      var end := Next(p);
      var n := |p.stack| - 1;
      if end.Took? && end.token == Delim(RBrace) then
        && Left(ReadMembers(p.rest, first, seen, depth)) == Some(end.next.rest)
        && end.next == Position(p.rest[1..], ValueEnd(p.stack[n]), p.stack[..n])
      else Left(ReadMembers(p.rest, first, seen, depth)).None?
  {
  }

  method ScanArray(d: Decoder, depth: nat) returns (ok: bool)
    requires d.state == ArrayStart && d.stack != [] && depth <= MAX_DEPTH
    modifies d
    ensures ok <==> Left(ReadItems(old(d.rest), true, depth)).Some?
    ensures ok ==> d.At() == Position(Left(ReadItems(old(d.rest), true, depth)).value,
                                      ValueEnd(old(d.stack)[|old(d.stack)| - 1]), old(d.stack)[..|old(d.stack)| - 1])
    ensures ok ==> |d.rest| < |old(d.rest)|
    decreases |d.rest|, 2
  {
    hide ReadValue, ReadItems;
    ghost var first := true;
    var more := d.More();
    while more
      invariant d.state == if first then ArrayStart else ArrayComma
      invariant d.stack == old(d.stack) && |d.rest| <= |old(d.rest)|
      invariant more <==> d.rest != [] && d.rest[0] != RBracket && d.rest[0] != RBrace
      invariant Left(ReadItems(old(d.rest), true, depth)) == Left(ReadItems(d.rest, first, depth))
      decreases |d.rest|
    {
      ItemTurn(d.At(), first, depth);
      ok := Scan(d, depth + 1);
      if !ok {
        return;
      }
      first := false;
      more := d.More();
    }
    ItemsEnd(d.At(), first, depth);
    var closing;
    ok, closing := d.Token();
    ok := ok && closing == Delim(RBracket);
  }

  lemma ItemTurn(p: Position, first: bool, depth: nat)
    requires p.state == (if first then ArrayStart else ArrayComma)
    requires p.rest != [] && p.rest[0] != RBracket && p.rest[0] != RBrace
    ensures Left(ReadItems(p.rest, first, depth)) ==
              match Scanned(p, depth + 1)
              case None => None
              case Some(rest) => Left(ReadItems(rest, false, depth))
  {
    hide ReadValue;
  }

  lemma ItemsEnd(p: Position, first: bool, depth: nat)
    requires p.state == (if first then ArrayStart else ArrayComma) && p.stack != []
    requires p.rest == [] || p.rest[0] == RBracket || p.rest[0] == RBrace
    ensures
      var end := Next(p);
      var n := |p.stack| - 1;
      if end.Took? && end.token == Delim(RBracket) then
        && Left(ReadItems(p.rest, first, depth)) == Some(end.next.rest)
        && end.next == Position(p.rest[1..], ValueEnd(p.stack[n]), p.stack[..n])
      else Left(ReadItems(p.rest, first, depth)).None?
  {
  }

  /** The whole check: one value, and then the end of the input. */
  method ValidateJson(text: seq<Lexeme>) returns (ok: bool)
    ensures ok <==> Valid(text)
    ensures ok <==> exists v :: Fits(v, 0) && text == Print(v)
  {
    hide Next, ReadValue, Fits, Print;
    ValidIff(text);
    if text == [] {
      EmptyIsInvalid();
      return false;
    }
    var d := new Decoder(text);
    ok := Scan(d, 0);
    if !ok {
      return;
    }
    // only the end of the input yields neither a token nor an error of its own
    ok := d.rest == [];
  }

  lemma EmptyIsInvalid()
    ensures !Valid([])
  {
  }
}

/** Text as the bytes that carry it: UTF-8, as defined by RFC 3629. */
module Utf8 {
  import opened Sequences
  import opened Binary

  /** Digits in base 64: `n` above its last, and the last. */
  function Upper(n: nat): nat {
    n / 0x40
  }

  /** A continuation byte carries one digit. */
  function Tail(n: nat): Byte {
    0x80 + n % 0x40
  }

  function EncodeChar(c: char): (s: Bytes)
    ensures 1 <= |s| <= 4
  {
    var n := c as int;
    if n < 0x80 then [n]
    else if n < 0x800 then [0xC0 + Upper(n), Tail(n)]
    else if n < 0x1_0000 then [0xE0 + Upper(Upper(n)), Tail(Upper(n)), Tail(n)]
    else [0xF0 + Upper(Upper(Upper(n))), Tail(Upper(Upper(n))), Tail(Upper(n)), Tail(n)]
  }

  function Encode(text: string): (s: Bytes)
    ensures |text| <= |s|
  {
    if text == [] then [] else EncodeChar(text[0]) + Encode(text[1..])
  }

  predicate Scalar(n: int) {
    0 <= n < 0xD800 || 0xE000 <= n < 0x11_0000
  }

  predicate IsTail(b: Byte) {
    0x80 <= b < 0xC0
  }

  /** The code point a sequence stands for, if it is the shortest form of a scalar value. */
  function Point(n: int, least: int): Option<char> {
    if least <= n && Scalar(n) then Some(n as char) else None
  }

  /** One more digit below those in `high`. */
  function Below(high: int, tail: Byte): int {
    high * 0x40 + (tail as int - 0x80)
  }

  function Accept(c: Option<char>, rest: Bytes): Read<char> {
    match c
    case None => Fail
    case Some(x) => Got(x, rest)
  }

  function ReadChar(s: Bytes): Read<char> {
    if s == [] then Fail
    else if s[0] < 0x80 then Got(s[0] as char, s[1..])
    else if 0xC0 <= s[0] < 0xE0 && |s| >= 2 && IsTail(s[1]) then
      Accept(Point(Below(s[0] as int - 0xC0, s[1]), 0x80), s[2..])
    else if 0xE0 <= s[0] < 0xF0 && |s| >= 3 && IsTail(s[1]) && IsTail(s[2]) then
      Accept(Point(Below(Below(s[0] as int - 0xE0, s[1]), s[2]), 0x800), s[3..])
    else if 0xF0 <= s[0] < 0xF8 && |s| >= 4 && IsTail(s[1]) && IsTail(s[2]) && IsTail(s[3]) then
      Accept(Point(Below(Below(Below(s[0] as int - 0xF0, s[1]), s[2]), s[3]), 0x1_0000), s[4..])
    else Fail
  }

  function Decode(s: Bytes): Option<string>
    decreases |s|
  {
    if s == [] then Some([])
    else match ReadChar(s)
      case Fail => None
      case Got(c, rest) =>
        if |rest| >= |s| then None
        else match Decode(rest)
          case None => None
          case Some(text) => Some([c] + text)
  }

  lemma DigitBack(n: nat)
    ensures Below(Upper(n), Tail(n)) == n && IsTail(Tail(n))
  {
  }

  lemma UpperBounds(n: nat, m: nat)
    requires n < 0x40 * m
    ensures Upper(n) < m
  {
  }

  lemma CharInverts(c: char, rest: Bytes)
    ensures ReadChar(EncodeChar(c) + rest) == Got(c, rest)
  {
    var n := c as int;
    var s := EncodeChar(c) + rest;
    assert s[|EncodeChar(c)|..] == rest;
    DigitBack(n);
    DigitBack(Upper(n));
    DigitBack(Upper(Upper(n)));
    if 0x80 <= n < 0x800 {
      UpperBounds(n, 0x20);
    } else if n < 0x1_0000 {
      UpperBounds(n, 0x400);
      UpperBounds(Upper(n), 0x10);
    } else {
      UpperBounds(n, 0x4400);
      UpperBounds(Upper(n), 0x110);
      UpperBounds(Upper(Upper(n)), 5);
    }
  }

  /** Every text is read back from its bytes; so different texts have different bytes. */
  lemma {:induction false} DecodeInverts(text: string)
    ensures Decode(Encode(text)) == Some(text)
  {
    hide ReadChar, EncodeChar;
    if text != [] {
      var rest := Encode(text[1..]);
      CharInverts(text[0], rest);
      DecodeInverts(text[1..]);
      assert Encode(text) == EncodeChar(text[0]) + rest && |Encode(text)| > |rest|;
      assert [text[0]] + text[1..] == text;
    }
  }
}

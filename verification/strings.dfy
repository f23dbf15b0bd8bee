/** Text helpers shared by the validators: white-space trimming and the identity rule. */
module Strings {
  import Utf8

  const IDENTITY_MAX := 512

  predicate Space(c: char) {
    c in " \t\n\r" || c == '\U{000B}' || c == '\U{000C}' || c == '\U{0085}' || c == '\U{00A0}'
  }

  function TrimLeft(s: string): (t: string)
    ensures t == [] || !Space(t[0])
  {
    if s != [] && Space(s[0]) then TrimLeft(s[1..]) else s
  }

  function TrimRight(s: string): (t: string)
    ensures t == [] || !Space(t[|t| - 1])
    ensures t <= s
  {
    if s != [] && Space(s[|s| - 1]) then TrimRight(s[..|s| - 1]) else s
  }

  function Trim(s: string): string {
    TrimRight(TrimLeft(s))
  }

  /** Text is its own trimming exactly when it neither begins nor ends with white space. */
  lemma {:induction false} TrimmedIff(s: string)
    ensures Trim(s) == s <==> s == [] || (!Space(s[0]) && !Space(s[|s| - 1]))
  {
    TrimLeftShorter(s);
    if s != [] && !Space(s[0]) && Space(s[|s| - 1]) {
      assert |TrimRight(s)| <= |s| - 1;
    }
  }

  lemma {:induction false} TrimLeftShorter(s: string)
    ensures |TrimLeft(s)| <= |s|
    ensures s != [] && Space(s[0]) ==> |TrimLeft(s)| < |s|
  {
    if s != [] && Space(s[0]) {
      TrimLeftShorter(s[1..]);
    }
  }

  lemma TrimTwice(s: string)
    ensures Trim(Trim(s)) == Trim(s)
  {
    var t := TrimLeft(s);
    var u := TrimRight(t);
    if u != [] {
      assert u[0] == t[0];
    }
    TrimmedIff(u);
  }

  function Lower(c: char): char {
    if 'A' <= c <= 'Z' then c - 'A' + 'a' else c
  }

  function ToLower(s: string): (t: string)
    ensures |t| == |s| && forall i :: 0 <= i < |s| ==> t[i] == Lower(s[i])
  {
    if s == [] then [] else [Lower(s[0])] + ToLower(s[1..])
  }

  predicate EqualFold(a: string, b: string) {
    ToLower(a) == ToLower(b)
  }

  /** The rule every plugin-visible identity obeys. */
  predicate PolicyIdentity(s: string) {
    && Trim(s) != "" && Trim(s) == s
    && |Utf8.Encode(s)| <= IDENTITY_MAX
    && '\r' !in s && '\n' !in s && '\0' !in s
  }
}

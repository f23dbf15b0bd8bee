/** Dataset references and classifications, and the key under which two classifications are the same. */
module Datasets {
  import opened Sequences
  import opened Strings

  const MAX_CLASSIFICATIONS := 64
  const MAX_ATTRIBUTES := 32
  const MAX_MICROS := 2000
  const MAX_RESPONSE_BYTES := 0x8000

  datatype Reference = Reference(handle: string, instance: string, generation: string, source: string, digest: string)

  datatype Kind = Country | Region | Cidr | Domain

  /** A typed value; exactly one is what the format demands, which here holds by construction. */
  datatype AttributeValue = Boolean(b: bool) | Integer(i: int)

  datatype Attribute = Attribute(name: string, value: AttributeValue, negate: bool)

  datatype Classification = Classification(name: string, kind: Kind, attributes: seq<Attribute>)

  predicate Alphanumeric(c: char) {
    'a' <= c <= 'z' || 'A' <= c <= 'Z' || '0' <= c <= '9'
  }

  predicate NameChar(c: char) {
    Alphanumeric(c) || c in "_.!@+-"
  }

  predicate ValidName(s: string) {
    1 <= |s| <= 128 && Alphanumeric(s[0]) && forall i :: 0 <= i < |s| ==> NameChar(s[i])
  }

  predicate ValidAttributeName(s: string) {
    1 <= |s| <= 128 && (Alphanumeric(s[0]) || s[0] == '!') && forall i :: 0 <= i < |s| ==> NameChar(s[i])
  }

  predicate ValidHandle(s: string) {
    32 <= |s| <= 256 && forall i :: 0 <= i < |s| ==> Alphanumeric(s[i]) || s[i] in "_-"
  }

  predicate ValidDigest(s: string) {
    |s| == 71 && "sha256:" <= s && forall i :: 7 <= i < 71 ==> '0' <= s[i] <= '9' || 'a' <= s[i] <= 'f'
  }

  predicate ValidReference(r: Reference) {
    && ValidHandle(r.handle) && ValidDigest(r.digest)
    && PolicyIdentity(r.instance) && PolicyIdentity(r.generation) && PolicyIdentity(r.source)
  }

  predicate ValidClassification(c: Classification) {
    && ValidName(c.name)
    && |c.attributes| <= MAX_ATTRIBUTES && (!c.kind.Domain? ==> c.attributes == [])
    && (forall i :: 0 <= i < |c.attributes| ==> ValidAttributeName(c.attributes[i].name))
    && (forall i, j :: 0 <= i < j < |c.attributes| ==> c.attributes[i].name != c.attributes[j].name)
  }

  // ---------- the key ----------

  /** Byte order on text, which for UTF-8 is code point order. */
  predicate Before(a: string, b: string) {
    b != [] && (a == [] || a[0] < b[0] || (a[0] == b[0] && Before(a[1..], b[1..])))
  }

  lemma {:induction false} BeforeTotal(a: string, b: string)
    ensures Before(a, b) || a == b || Before(b, a)
  {
    if a != [] && b != [] && a[0] == b[0] {
      BeforeTotal(a[1..], b[1..]);
      if a[1..] == b[1..] {
        assert a == [a[0]] + a[1..] == [b[0]] + b[1..] == b;
      }
    }
  }

  lemma {:induction false} BeforeOrders(a: string, b: string, c: string)
    ensures !Before(a, a) && (Before(a, b) && Before(b, c) ==> Before(a, c))
  {
    if a != [] {
      BeforeOrders(a[1..], if b == [] then [] else b[1..], if c == [] then [] else c[1..]);
    }
  }

  function Insert(a: Attribute, s: seq<Attribute>): (r: seq<Attribute>)
    ensures multiset(r) == multiset(s) + multiset{a}
  {
    if s == [] then [a]
    else if Before(s[0].name, a.name) then
      assert s == [s[0]] + s[1..];
      [s[0]] + Insert(a, s[1..])
    else [a] + s
  }

  function SortByName(s: seq<Attribute>): (r: seq<Attribute>)
    ensures multiset(r) == multiset(s)
  {
    if s == [] then []
    else
      assert s == [s[0]] + s[1..];
      Insert(s[0], SortByName(s[1..]))
  }

  /** The key is an encoding of the classification with its attributes sorted. The encoding is injective, so
      the sorted value stands for it. */
  function Key(c: Classification): Classification {
    c.(attributes := SortByName(c.attributes))
  }

  /** Names rise strictly. */
  predicate Sorted(s: seq<Attribute>) {
    forall i, j :: 0 <= i < j < |s| ==> Before(s[i].name, s[j].name)
  }

  predicate DistinctNames(s: seq<Attribute>) {
    forall i, j :: 0 <= i < j < |s| ==> s[i].name != s[j].name
  }

  lemma {:induction false} InsertSorts(a: Attribute, s: seq<Attribute>)
    requires Sorted(s) && forall i :: 0 <= i < |s| ==> s[i].name != a.name
    ensures Sorted(Insert(a, s))
    decreases |s|
  {
    if s != [] {
      BeforeTotal(a.name, s[0].name);
      if Before(s[0].name, a.name) {
        InsertSorts(a, s[1..]);
        var r := Insert(a, s[1..]);
        forall j | 0 <= j < |r| ensures Before(s[0].name, r[j].name) {
          assert r[j] in multiset(s[1..]) + multiset{a};
          if r[j] != a {
            assert r[j] in s[1..];
          }
        }
      } else {
        forall j | 0 <= j < |s| ensures Before(a.name, s[j].name) {
          BeforeOrders(a.name, s[0].name, s[j].name);
        }
      }
    }
  }

  lemma {:induction false} SortSorts(s: seq<Attribute>)
    requires DistinctNames(s)
    ensures Sorted(SortByName(s))
    decreases |s|
  {
    if s != [] {
      SortSorts(s[1..]);
      var r := SortByName(s[1..]);
      forall i | 0 <= i < |r| ensures r[i].name != s[0].name {
        assert r[i] in multiset(s[1..]);
        var k :| 0 <= k < |s[1..]| && s[1..][k] == r[i];
        assert s[k + 1].name != s[0].name;
      }
      InsertSorts(s[0], r);
    }
  }

  /** A strictly sorted sequence is determined by its elements. */
  lemma {:induction false} SortedIsUnique(a: seq<Attribute>, b: seq<Attribute>)
    requires Sorted(a) && Sorted(b) && multiset(a) == multiset(b)
    ensures a == b
    decreases |a|
  {
    hide Before, Sorted;
    assert |multiset(a)| == |multiset(b)|;
    if a != [] {
      SameLeast(a, b);
      SortedTail(a);
      SortedTail(b);
      SortedIsUnique(a[1..], b[1..]);
    }
  }

  lemma SortedTail(s: seq<Attribute>)
    requires Sorted(s) && s != []
    ensures Sorted(s[1..]) && multiset(s[1..]) == multiset(s) - multiset{s[0]} && s == [s[0]] + s[1..]
  {
    assert s == [s[0]] + s[1..];
  }

  lemma SameLeast(a: seq<Attribute>, b: seq<Attribute>)
    requires Sorted(a) && Sorted(b) && multiset(a) == multiset(b) && a != [] && b != []
    ensures a[0] == b[0]
  {
    hide Before;
    if a[0] != b[0] {
      assert a[0] in multiset(b) && b[0] in multiset(a);
      var i :| 0 <= i < |b| && b[i] == a[0];
      var j :| 0 <= j < |a| && a[j] == b[0];
      BeforeOrders(a[0].name, b[0].name, a[0].name);
      assert false;
    }
  }

  /** Two valid classifications have the same key exactly when they agree up to the order of attributes. */
  lemma KeyIsCanonical(a: Classification, b: Classification)
    requires ValidClassification(a) && ValidClassification(b)
    ensures Key(a) == Key(b) <==>
              a.name == b.name && a.kind == b.kind && multiset(a.attributes) == multiset(b.attributes)
  {
    hide SortByName, ValidName, ValidAttributeName;
    SortSorts(a.attributes);
    SortSorts(b.attributes);
    if multiset(a.attributes) == multiset(b.attributes) {
      SortedIsUnique(SortByName(a.attributes), SortByName(b.attributes));
    }
  }
}

/** Shared vocabulary: optional values, duplicate-free listings and filters. */
module Sequences {
  datatype Option<+T> = None | Some(value: T)

  ghost predicate NoDup<T>(s: seq<T>) {
    forall i, j :: 0 <= i < j < |s| ==> s[i] != s[j]
  }

  /** `order` lists every key exactly once: the shape of every map-plus-order pair in the agent. */
  ghost predicate Lists<T(!new)>(order: seq<T>, keys: set<T>) {
    NoDup(order) && forall x :: x in order <==> x in keys
  }

  lemma NoDupConcat<T(!new)>(a: seq<T>, b: seq<T>)
    ensures NoDup(a + b) <==> NoDup(a) && NoDup(b) && forall x :: x in a ==> x !in b
  {
    var c := a + b;
    if NoDup(c) {
      forall i, j | 0 <= i < j < |a| ensures a[i] != a[j] {
        assert c[i] != c[j];
      }
      forall x | x in a ensures x !in b {
        var i :| 0 <= i < |a| && a[i] == x;
        forall j | 0 <= j < |b| ensures b[j] != x {
          assert c[i] != c[|a| + j];
        }
      }
      forall i, j | 0 <= i < j < |b| ensures b[i] != b[j] {
        assert c[|a| + i] != c[|a| + j];
      }
    } else {
      var i, j :| 0 <= i < j < |c| && c[i] == c[j];
      assert i < |a| ==> c[i] in a;
      assert j >= |a| ==> c[j] in b && c[j] == b[j - |a|];
    }
  }

  /** The elements of `s` that lie in `keep`, in their order in `s`. */
  function Keep<T(==,!new)>(s: seq<T>, keep: set<T>): (r: seq<T>)
    ensures |r| <= |s|
    ensures forall x :: x in r <==> x in s && x in keep
  {
    if s == [] then []
    else
      var last := s[|s| - 1];
      Keep(s[..|s| - 1], keep) + (if last in keep then [last] else [])
  }

  /** The elements of `s` that lie outside `keep`. */
  function Outside<T(==,!new)>(s: seq<T>, keep: set<T>): set<T> {
    set x | x in s && x !in keep
  }

  /** What one more element adds to what is kept and to what is not. */
  lemma OneMore<T(!new)>(s: seq<T>, keep: set<T>, i: nat)
    requires i < |s|
    ensures Keep(s[..i + 1], keep) == Keep(s[..i], keep) + (if s[i] in keep then [s[i]] else [])
    ensures Outside(s[..i + 1], keep) == Outside(s[..i], keep) + (if s[i] in keep then {} else {s[i]})
    ensures NoDup(s) ==> s[i] !in s[..i]
  {
    assert s[..i + 1] == s[..i] + [s[i]];
    assert s[..i + 1][..i] == s[..i];
  }

  lemma {:induction false} KeepNoDup<T(!new)>(s: seq<T>, keep: set<T>)
    requires NoDup(s)
    ensures NoDup(Keep(s, keep))
  {
    if s != [] {
      KeepNoDup(s[..|s| - 1], keep);
    }
  }

  lemma KeepLists<T(!new)>(order: seq<T>, keys: set<T>, keep: set<T>)
    requires Lists(order, keys)
    ensures Lists(Keep(order, keep), keys * keep)
  {
    KeepNoDup(order, keep);
  }

  lemma {:induction false} KeepAll<T(!new)>(s: seq<T>, keep: set<T>)
    requires forall x :: x in s ==> x in keep
    ensures Keep(s, keep) == s
  {
    if s != [] {
      KeepAll(s[..|s| - 1], keep);
      assert s == s[..|s| - 1] + [s[|s| - 1]];
    }
  }

  lemma {:induction false} KeepTwice<T(!new)>(s: seq<T>, first: set<T>, second: set<T>)
    ensures Keep(Keep(s, first), second) == Keep(s, first * second)
  {
    if s != [] {
      var init, last := s[..|s| - 1], s[|s| - 1];
      KeepTwice(init, first, second);
      if last in first {
        var k := Keep(init, first) + [last];
        assert k[..|k| - 1] == Keep(init, first);
      } else {
        assert Keep(s, first) == Keep(init, first);
      }
    }
  }

  lemma {:induction false} ListsCardinality<T(!new)>(order: seq<T>, keys: set<T>)
    requires Lists(order, keys)
    ensures |order| == |keys|
  {
    if order == [] {
      assert keys == {};
    } else {
      var init, last := order[..|order| - 1], order[|order| - 1];
      assert Lists(init, keys - {last}) by {
        forall x ensures x in init <==> x in keys - {last} {
          if x in keys - {last} {
            assert x in order;
          }
        }
      }
      ListsCardinality(init, keys - {last});
    }
  }

  lemma SubsetCardinality<T(!new)>(a: set<T>, b: set<T>)
    requires a <= b
    ensures |a| <= |b|
  {
    assert b == a + (b - a);
  }

  /** Taking one more key out of a map. */
  lemma MinusOne<K(!new), V(!new)>(m: map<K, V>, gone: set<K>, k: K)
    requires k in m && k !in gone
    ensures m - (gone + {k}) == m - gone - {k}
    ensures |m - (gone + {k})| == |m - gone| - 1
  {
    assert (m - (gone + {k})).Keys == (m - gone).Keys - {k};
  }

  lemma MinusKeys<K(!new), V(!new)>(m: map<K, V>, gone: set<K>)
    ensures (m - gone).Keys == m.Keys - gone
    ensures |m - gone| == |m.Keys - gone|
  {
    assert (m - gone).Keys == m.Keys - gone;
    assert |m - gone| == |(m - gone).Keys|;
  }
}

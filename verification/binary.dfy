/** Reading values off the front of a string of bytes: a reading function maps the bytes ahead to the value
    read and the bytes after it. */
module Binary {
  type Byte = x: int | 0 <= x < 256

  type Bytes = seq<Byte>

  datatype Read<+T> = Fail | Got(value: T, rest: Bytes)

  /** A number in little-endian groups of seven bits, at most `n` of them. */
  function Leb(s: Bytes, n: nat): (r: Read<nat>)
    ensures r.Got? ==> |r.rest| < |s| <= |r.rest| + n && r.rest == s[|s| - |r.rest|..]
  {
    if n == 0 || s == [] then Fail
    else if s[0] < 128 then Got(s[0], s[1..])
    else match Leb(s[1..], n - 1)
      case Fail => Fail
      case Got(v, rest) => Got(s[0] - 128 + 128 * v, rest)
  }

  function ReadByte(s: Bytes): Read<Byte> {
    if s == [] then Fail else Got(s[0], s[1..])
  }

  function ReadSub(s: Bytes, n: nat): Read<Bytes> {
    if n > |s| then Fail else Got(s[..n], s[n..])
  }

  function PrintLeb(n: nat): (s: Bytes)
    ensures s != []
  {
    if n < 128 then [n] else [n % 128 + 128] + PrintLeb(n / 128)
  }

  function Pow128(n: nat): nat {
    if n == 0 then 1 else 128 * Pow128(n - 1)
  }

  lemma LebOfMore(group: Byte, more: Bytes, n: nat)
    requires group >= 128 && n > 0
    ensures Leb([group] + more, n) ==
              match Leb(more, n - 1) { case Fail => Fail case Got(v, rest) => Got(group - 128 + 128 * v, rest) }
  {
    assert ([group] + more)[1..] == more;
  }

  lemma Quotient(n: nat, p: nat)
    requires n < 128 * p
    ensures n / 128 < p && n == n % 128 + 128 * (n / 128)
  {
  }

  lemma {:induction false} LebInverts(n: nat, groups: nat, rest: Bytes)
    requires 0 < groups && n < Pow128(groups)
    ensures Leb(PrintLeb(n) + rest, groups) == Got(n, rest) && |PrintLeb(n)| <= groups
    decreases groups
  {
    if n < 128 {
      assert ([n] + rest)[1..] == rest;
    } else {
      Quotient(n, Pow128(groups - 1));
      LebInverts(n / 128, groups - 1, rest);
      LebOfMore(n % 128 + 128, PrintLeb(n / 128) + rest, groups);
      assert PrintLeb(n) + rest == [n % 128 + 128] + (PrintLeb(n / 128) + rest);
    }
  }

  lemma Pow128Values()
    ensures Pow128(1) == 0x80 && Pow128(2) == 0x4000 && Pow128(3) == 0x20_0000
    ensures Pow128(4) == 0x1000_0000 && Pow128(5) == 0x8_0000_0000
  {
    assert Pow128(2) == 128 * Pow128(1);
    assert Pow128(3) == 128 * Pow128(2);
    assert Pow128(4) == 128 * Pow128(3);
  }

  lemma {:induction false} LebAcceptsIff(s: Bytes, n: nat)
    ensures Leb(s, n).Got? <==> exists k :: 0 <= k < n && k < |s| && s[k] < 128
    decreases n
  {
    if n > 0 && s != [] && s[0] >= 128 {
      LebAcceptsIff(s[1..], n - 1);
      if k :| 0 <= k < n && k < |s| && s[k] < 128 {
        assert s[1..][k - 1] == s[k];
      }
      if k :| 0 <= k < n - 1 && k < |s[1..]| && s[1..][k] < 128 {
        assert s[k + 1] == s[1..][k];
      }
    }
  }
}

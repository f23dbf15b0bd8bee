/** Reading the binary format of WebAssembly: unsigned LEB128 numbers (section 5.2.2 of the WebAssembly
    Core Specification 1.0), byte strings and vectors. The reader object advances an offset. */
module WasmReader {
  import opened Binary

  const U32: int := 0x1_0000_0000
  const MAX_LEB_BYTES := 5

  // ---------- specification ----------

  /** The reader keeps the low 32 bits, so the unused bits of a fifth group are dropped, not refused. */
  function ReadU32(s: Bytes): (r: Read<nat>)
    ensures r.Got? ==> r.value < U32 && |r.rest| < |s| <= |r.rest| + MAX_LEB_BYTES
  {
    match Leb(s, MAX_LEB_BYTES)
    case Fail => Fail
    case Got(v, rest) => Got(v % U32, rest)
  }

  function ReadName(s: Bytes): Read<Bytes> {
    match ReadU32(s)
    case Fail => Fail
    case Got(n, rest) => ReadSub(rest, n)
  }

  /** `n` items one after the other. */
  function ReadMany<T>(item: Bytes -> Read<T>, n: nat, s: Bytes): Read<seq<T>> {
    if n == 0 then Got([], s)
    else match item(s)
      case Fail => Fail
      case Got(x, rest) => Prepend([x], ReadMany(item, n - 1, rest))
  }

  function Prepend<T>(xs: seq<T>, r: Read<seq<T>>): Read<seq<T>> {
    match r
    case Fail => Fail
    case Got(ys, rest) => Got(xs + ys, rest)
  }

  /** A count and that many items. */
  function ReadVector<T>(item: Bytes -> Read<T>, s: Bytes): Read<seq<T>> {
    match ReadU32(s)
    case Fail => Fail
    case Got(n, rest) => ReadMany(item, n, rest)
  }

  // ---------- printing ----------

  function PrintName(name: Bytes): Bytes {
    PrintLeb(|name|) + name
  }

  function PrintAll<T>(show: T -> Bytes, xs: seq<T>): Bytes {
    if xs == [] then [] else show(xs[0]) + PrintAll(show, xs[1..])
  }

  function PrintVector<T>(show: T -> Bytes, xs: seq<T>): Bytes {
    PrintLeb(|xs|) + PrintAll(show, xs)
  }

  // ---------- reading inverts printing ----------

  /** Every 32-bit number is read back from its printed form, which takes at most five bytes. */
  lemma U32Inverts(n: nat, rest: Bytes)
    requires n < U32
    ensures ReadU32(PrintLeb(n) + rest) == Got(n, rest) && 1 <= |PrintLeb(n)| <= MAX_LEB_BYTES
  {
    hide Leb, PrintLeb, Pow128;
    Pow128Values();
    LebInverts(n, MAX_LEB_BYTES, rest);
  }

  /** Exactly the sequences that end a group within five bytes are numbers. */
  lemma U32AcceptsIff(s: Bytes)
    ensures ReadU32(s).Got? <==> exists k :: 0 <= k < MAX_LEB_BYTES && k < |s| && s[k] < 128
  {
    LebAcceptsIff(s, MAX_LEB_BYTES);
  }

  /** A number's last group stands above all the others. */
  lemma {:induction false} LastGroup(s: Bytes, n: nat) returns (low: nat)
    requires Leb(s, n).Got?
    ensures
      var k := |s| - |Leb(s, n).rest| - 1;
      0 <= k < |s| && low < Pow128(k) && Leb(s, n).value == low + Pow128(k) * s[k]
    decreases n
  {
    if s[0] < 128 {
      low := 0;
    } else {
      var below := LastGroup(s[1..], n - 1);
      low := s[0] - 128 + 128 * below;
      var k := |s| - |Leb(s, n).rest| - 1;
      assert s[1..][k - 1] == s[k];
      OneGroupUp(s[0] - 128, below, Pow128(k - 1), s[k]);
    }
  }

  lemma OneGroupUp(group: nat, below: nat, scale: nat, last: nat)
    requires group < 128 && below < scale
    ensures group + 128 * below < 128 * scale
    ensures group + 128 * (below + scale * last) == group + 128 * below + 128 * scale * last
  {
  }

  /** The number read is the one written, as section 5.2.2 has it, exactly when it takes fewer than five bytes
      or its fifth carries no bit beyond the 32nd; otherwise a smaller number is read. */
  lemma ExcessBitsAreDroppedIff(s: Bytes)
    requires Leb(s, MAX_LEB_BYTES).Got?
    ensures
      var taken := |s| - |Leb(s, MAX_LEB_BYTES).rest|;
      && (ReadU32(s) == Leb(s, MAX_LEB_BYTES) <==> taken < MAX_LEB_BYTES || s[4] < 0x10)
      && (!(taken < MAX_LEB_BYTES || s[4] < 0x10) ==> ReadU32(s).value < Leb(s, MAX_LEB_BYTES).value)
  {
    hide Leb, Pow128;
    var low := LastGroup(s, MAX_LEB_BYTES);
    Pow128Values();
    Pow128Zero();
  }

  lemma Pow128Zero()
    ensures Pow128(0) == 1
  {
  }

  /** Such numbers exist, and are accepted. */
  lemma ExcessBitsAreDropped(rest: Bytes)
    ensures ReadU32([0x80] + ([0x80] + ([0x80] + ([0x80] + ([0x10] + rest))))) == Got(0, rest)
  {
    var s1 := [0x10] + rest;
    assert s1[1..] == rest && Leb(s1, 1) == Got(0x10, rest);
    LebOfMore(0x80, s1, 2);
    LebOfMore(0x80, [0x80] + s1, 3);
    LebOfMore(0x80, [0x80] + ([0x80] + s1), 4);
    LebOfMore(0x80, [0x80] + ([0x80] + ([0x80] + s1)), 5);
  }

  lemma NameInverts(name: Bytes, rest: Bytes)
    requires |name| < U32
    ensures ReadName(PrintName(name) + rest) == Got(name, rest)
  {
    U32Inverts(|name|, name + rest);
    assert PrintName(name) + rest == PrintLeb(|name|) + (name + rest);
  }

  ghost predicate Inverts<T(!new)>(item: Bytes -> Read<T>, show: T -> Bytes, x: T) {
    forall rest :: item(show(x) + rest) == Got(x, rest)
  }

  lemma {:induction false} ManyInverts<T(!new)>(item: Bytes -> Read<T>, show: T -> Bytes, xs: seq<T>, rest: Bytes)
    requires forall i :: 0 <= i < |xs| ==> Inverts(item, show, xs[i])
    ensures ReadMany(item, |xs|, PrintAll(show, xs) + rest) == Got(xs, rest)
    decreases |xs|
  {
    if xs == [] {
      assert [] + rest == rest;
    } else {
      assert Inverts(item, show, xs[0]);
      forall i | 0 <= i < |xs[1..]| ensures Inverts(item, show, xs[1..][i]) {
        assert xs[1..][i] == xs[i + 1];
      }
      ManyInverts(item, show, xs[1..], rest);
      assert PrintAll(show, xs) + rest == show(xs[0]) + (PrintAll(show, xs[1..]) + rest);
      assert [xs[0]] + xs[1..] == xs;
      assert item(show(xs[0]) + (PrintAll(show, xs[1..]) + rest)) == Got(xs[0], PrintAll(show, xs[1..]) + rest);
    }
  }

  /** One item that cannot be read spoils the list. */
  lemma {:induction false} ManyFails<T(!new)>(item: Bytes -> Read<T>, show: T -> Bytes, xs: seq<T>, n: nat, bad: Bytes)
    requires |xs| < n && item(bad).Fail? && forall i :: 0 <= i < |xs| ==> Inverts(item, show, xs[i])
    ensures ReadMany(item, n, PrintAll(show, xs) + bad).Fail?
    decreases |xs|
  {
    if xs == [] {
      assert [] + bad == bad;
    } else {
      assert Inverts(item, show, xs[0]);
      forall i | 0 <= i < |xs[1..]| ensures Inverts(item, show, xs[1..][i]) {
        assert xs[1..][i] == xs[i + 1];
      }
      ManyFails(item, show, xs[1..], n - 1, bad);
      var rest := PrintAll(show, xs[1..]) + bad;
      assert PrintAll(show, xs) + bad == show(xs[0]) + rest;
      assert item(show(xs[0]) + rest) == Got(xs[0], rest);
    }
  }

  /** A vector is read back from its printed form if its items are. */
  lemma VectorInverts<T(!new)>(item: Bytes -> Read<T>, show: T -> Bytes, xs: seq<T>, rest: Bytes)
    requires |xs| < U32 && forall i :: 0 <= i < |xs| ==> Inverts(item, show, xs[i])
    ensures ReadVector(item, PrintVector(show, xs) + rest) == Got(xs, rest)
  {
    U32Inverts(|xs|, PrintAll(show, xs) + rest);
    assert PrintVector(show, xs) + rest == PrintLeb(|xs|) + (PrintAll(show, xs) + rest);
    ManyInverts(item, show, xs, rest);
  }

  // ---------- the reader ----------

  class Reader {
    const data: Bytes
    var offset: nat

    predicate Valid()
      reads this
    {
      offset <= |data|
    }

    function Ahead(): Bytes
      requires Valid()
      reads this
    {
      data[offset..]
    }

    constructor (data: Bytes)
      ensures Valid() && Ahead() == data
    {
      this.data, offset := data, 0;
    }

    method Remaining() returns (n: nat)
      requires Valid()
      ensures n == |Ahead()|
    {
      n := |data| - offset;
    }

    method TakeByte() returns (ok: bool, value: Byte)
      requires Valid()
      modifies this
      ensures Valid()
      ensures ok <==> ReadByte(old(Ahead())).Got?
      ensures if ok then Got(value, Ahead()) == ReadByte(old(Ahead())) else Ahead() == old(Ahead())
    {
      if |data| - offset < 1 {
        return false, 0;
      }
      ok, value := true, data[offset];
      offset := offset + 1;
    }

    /** At most five turns; the bits each turn adds lie above those of the turns before. */
    method TakeU32() returns (ok: bool, value: nat)
      requires Valid()
      modifies this
      ensures Valid() && |Ahead()| <= |old(Ahead())| <= |Ahead()| + MAX_LEB_BYTES
      ensures ok <==> ReadU32(old(Ahead())).Got?
      ensures ok ==> Got(value, Ahead()) == ReadU32(old(Ahead()))
    {
      hide Leb, Pow128, Shifted;
      ghost var start := Ahead();
      var turn, scale := 0, 1;
      NothingShifted(start);
      value := 0;
      while turn < MAX_LEB_BYTES
        invariant Valid() && 0 <= turn <= MAX_LEB_BYTES && |start| == |Ahead()| + turn
        invariant scale == Pow128(turn) && value < scale
        invariant turn < MAX_LEB_BYTES ==> value < U32
        invariant Leb(start, MAX_LEB_BYTES) == Shifted(Leb(Ahead(), MAX_LEB_BYTES - turn), value, scale)
      {
        ghost var ahead := Ahead();
        var current;
        ok, current := TakeByte();
        if !ok {
          NothingAhead(MAX_LEB_BYTES - turn, value, scale);
          return false, 0;
        }
        if current < 128 {
          ShiftedLast(ahead, MAX_LEB_BYTES - turn, value, scale);
          value := (value + scale * current) % U32;
          return true, value;
        }
        var group: nat := current - 128;
        ShiftedMore(ahead, MAX_LEB_BYTES - turn, value, scale);
        GroupFits(value, scale, group, turn);
        value := value + scale * group;
        scale := scale * 128;
        turn := turn + 1;
      }
      ShiftedOut(Ahead(), value, scale);
      ok := false;
    }

    method TakeSub(n: nat) returns (ok: bool, value: Bytes)
      requires Valid()
      modifies this
      ensures Valid()
      ensures ok <==> ReadSub(old(Ahead()), n).Got?
      ensures if ok then Got(value, Ahead()) == ReadSub(old(Ahead()), n) else Ahead() == old(Ahead())
    {
      if n > |data| - offset {
        return false, [];
      }
      var start := offset;
      offset := offset + n;
      ok, value := true, data[start..offset];
      assert data[start..][..n] == value && data[start..][n..] == data[offset..];
    }

    method TakeName() returns (ok: bool, value: Bytes)
      requires Valid()
      modifies this
      ensures Valid()
      ensures ok <==> ReadName(old(Ahead())).Got?
      ensures ok ==> Got(value, Ahead()) == ReadName(old(Ahead()))
    {
      var n;
      ok, n := TakeU32();
      if !ok {
        return false, [];
      }
      ok, value := TakeSub(n);
    }
  }

  /** What a number contributes when `low` has been read below it. */
  function Shifted(r: Read<nat>, low: nat, scale: nat): Read<nat> {
    match r
    case Fail => Fail
    case Got(v, rest) => Got(low + scale * v, rest)
  }

  lemma NothingShifted(s: Bytes)
    ensures Leb(s, MAX_LEB_BYTES) == Shifted(Leb(s, MAX_LEB_BYTES), 0, 1) && Pow128(0) == 1
  {
  }

  lemma NothingAhead(n: nat, low: nat, scale: nat)
    ensures Shifted(Leb([], n), low, scale).Fail?
  {
  }

  lemma ShiftedOut(s: Bytes, low: nat, scale: nat)
    ensures Shifted(Leb(s, 0), low, scale).Fail?
  {
  }

  lemma ShiftedLast(s: Bytes, n: nat, low: nat, scale: nat)
    requires n > 0 && s != [] && s[0] < 128
    ensures scale * s[0] >= 0 && Shifted(Leb(s, n), low, scale) == Got(low + scale * s[0], s[1..])
  {
  }

  lemma ShiftedMore(s: Bytes, n: nat, low: nat, scale: nat)
    requires n > 0 && s != [] && s[0] >= 128
    ensures Shifted(Leb(s, n), low, scale) == Shifted(Leb(s[1..], n - 1), low + scale * (s[0] - 128), scale * 128)
  {
    match Leb(s[1..], n - 1)
    case Fail =>
    case Got(v, rest) => Distribute(scale, s[0] - 128, v);
  }

  lemma Distribute(scale: nat, group: nat, v: nat)
    ensures scale * (group + 128 * v) == scale * group + scale * 128 * v
  {
  }

  lemma GroupFits(low: nat, scale: nat, group: nat, turn: nat)
    requires low < scale == Pow128(turn) && group < 128 && turn < MAX_LEB_BYTES
    ensures low + scale * group < scale * 128 == Pow128(turn + 1)
    ensures turn + 1 < MAX_LEB_BYTES ==> low + scale * group < U32
  {
    Scaled(scale, group);
    Pow128Values();
  }

  lemma Scaled(scale: nat, group: nat)
    requires group < 128
    ensures scale * group <= scale * 127
  {
  }
}

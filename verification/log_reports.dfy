/** Plugin runtime log reports and the strings that identify them.

    A report is fenced by the plugin generation that produced it. The outbox keys its maps by
    strings joined with NUL from the fence fields (and the sequence number). The rest of the
    model keys them by the structured values instead; the lemmas at the end of this module
    justify that: on valid reports the joined strings are equal exactly when the values are. */
module LogReports {
  const MAX_LOG_ENTRIES := 32
  const MAX_LOG_MESSAGE := 4096
  const MAX_PENDING_REPORTS := 256
  const MAX_SEQUENCE: nat := 0xFFFF_FFFF_FFFF_FFFF

  datatype Fence = Fence(
    revision: int, generationId: string, instanceId: string, pluginId: string,
    agentId: string, packageDigest: string, artifactDigest: string)

  datatype Entry = Entry(level: string, message: string, truncated: bool)

  datatype Report = Report(fence: Fence, sequence: nat, entries: seq<Entry>)

  /** What the outbox calls a report identity: the fence and the number within it. */
  datatype ReportId = ReportId(fence: Fence, sequence: nat)

  function Id(r: Report): ReportId {
    ReportId(r.fence, r.sequence)
  }

  predicate IdentityChar(c: char) {
    'a' <= c <= 'z' || 'A' <= c <= 'Z' || '0' <= c <= '9' || c in "._:@+-/"
  }

  predicate ValidIdentity(s: string) {
    0 < |s| <= 256 && forall i :: 0 <= i < |s| ==> IdentityChar(s[i])
  }

  predicate LowerHexChar(c: char) {
    '0' <= c <= '9' || 'a' <= c <= 'f'
  }

  /** A lower-case SHA-256 in hexadecimal; batch, acknowledgement and intent ids have this form too. */
  predicate ValidDigest(s: string) {
    |s| == 64 && forall i :: 0 <= i < |s| ==> LowerHexChar(s[i])
  }

  predicate ValidFence(f: Fence) {
    && f.revision > 0
    && ValidIdentity(f.generationId) && ValidIdentity(f.instanceId)
    && ValidIdentity(f.pluginId) && ValidIdentity(f.agentId)
    && ValidDigest(f.packageDigest) && ValidDigest(f.artifactDigest)
  }

  predicate ValidEntry(e: Entry) {
    e.level in {"debug", "info", "warn", "error"} && 0 < |e.message| <= MAX_LOG_MESSAGE
  }

  predicate ValidReport(r: Report) {
    && ValidFence(r.fence) && 0 < r.sequence <= MAX_SEQUENCE
    && 0 < |r.entries| <= MAX_LOG_ENTRIES
    && forall i :: 0 <= i < |r.entries| ==> ValidEntry(r.entries[i])
  }

  // ---------- the joined strings ----------

  function Decimal(n: nat): (s: string) {
    if n < 10 then ['0' + n as char] else Decimal(n / 10) + ['0' + (n % 10) as char]
  }

  function JoinNul(parts: seq<string>): string
    requires |parts| > 0
  {
    if |parts| == 1 then parts[0] else parts[0] + ['\0'] + JoinNul(parts[1..])
  }

  function FenceParts(f: Fence): (parts: seq<string>)
    requires f.revision > 0
  {
    [Decimal(f.revision), f.generationId, f.instanceId, f.pluginId, f.agentId, f.packageDigest, f.artifactDigest]
  }

  function FenceKey(f: Fence): string
    requires f.revision > 0
  {
    JoinNul(FenceParts(f))
  }

  function ReportKey(r: Report): string
    requires r.fence.revision > 0
  {
    FenceKey(r.fence) + ['\0'] + Decimal(r.sequence)
  }

  lemma {:induction false} DecimalHasNoNul(n: nat)
    ensures '\0' !in Decimal(n)
  {
    if n >= 10 {
      DecimalHasNoNul(n / 10);
    }
  }

  lemma {:induction false} DecimalInjective(m: nat, n: nat)
    requires Decimal(m) == Decimal(n)
    ensures m == n
    decreases m
  {
    var a, b := Decimal(m), Decimal(n);
    assert a[|a| - 1] == b[|b| - 1];
    if m >= 10 && n >= 10 {
      assert Decimal(m / 10) == a[..|a| - 1] == b[..|b| - 1] == Decimal(n / 10);
      DecimalInjective(m / 10, n / 10);
    } else if m >= 10 {
      DecimalNonEmpty(m / 10);
    } else if n >= 10 {
      DecimalNonEmpty(n / 10);
    }
  }

  lemma {:induction false} DecimalNonEmpty(n: nat)
    ensures |Decimal(n)| > 0
  {
  }

  lemma SplitAtFirstNul(a: string, x: string, b: string, y: string)
    requires '\0' !in a && '\0' !in b
    requires a + ['\0'] + x == b + ['\0'] + y
    ensures a == b && x == y
  {
    var s, t := a + ['\0'] + x, b + ['\0'] + y;
    var i := if |a| < |b| then |a| else |b|;
    assert s[i] == t[i];
    assert |a| == |b|;
    assert a == s[..|a|] && b == t[..|b|];
    assert x == s[|a| + 1..] && y == t[|b| + 1..];
  }

  lemma {:induction false} JoinNulInjective(p: seq<string>, q: seq<string>)
    requires |p| == |q| > 0
    requires forall i :: 0 <= i < |p| ==> '\0' !in p[i] && '\0' !in q[i]
    requires JoinNul(p) == JoinNul(q)
    ensures p == q
    decreases |p|
  {
    if |p| > 1 {
      SplitAtFirstNul(p[0], JoinNul(p[1..]), q[0], JoinNul(q[1..]));
      JoinNulInjective(p[1..], q[1..]);
      assert p == [p[0]] + p[1..] && q == [q[0]] + q[1..];
    }
  }

  lemma PartsHaveNoNul(f: Fence)
    requires ValidFence(f)
    ensures forall i :: 0 <= i < |FenceParts(f)| ==> '\0' !in FenceParts(f)[i]
  {
    DecimalHasNoNul(f.revision);
  }

  /** Two valid fences share a joined key only when they are the same fence. */
  lemma FenceKeyInjective(f: Fence, g: Fence)
    requires ValidFence(f) && ValidFence(g)
    ensures FenceKey(f) == FenceKey(g) <==> f == g
  {
    if FenceKey(f) == FenceKey(g) {
      PartsHaveNoNul(f);
      PartsHaveNoNul(g);
      var p, q := FenceParts(f), FenceParts(g);
      JoinNulInjective(p, q);
      assert p[0] == q[0] && p[1] == q[1] && p[2] == q[2] && p[3] == q[3] && p[4] == q[4] && p[5] == q[5] && p[6] == q[6];
      DecimalInjective(f.revision, g.revision);
    }
  }

  lemma {:induction false} JoinNulAppend(parts: seq<string>, last: string)
    requires |parts| > 0
    ensures JoinNul(parts + [last]) == JoinNul(parts) + ['\0'] + last
  {
    if |parts| > 1 {
      JoinNulAppend(parts[1..], last);
      assert (parts + [last])[1..] == parts[1..] + [last];
    }
  }

  /** Two valid reports share an identity string only when fence and sequence number agree. */
  lemma ReportKeyInjective(r: Report, s: Report)
    requires ValidReport(r) && ValidReport(s)
    ensures ReportKey(r) == ReportKey(s) <==> Id(r) == Id(s)
  {
    if ReportKey(r) == ReportKey(s) {
      var p, q := FenceParts(r.fence), FenceParts(s.fence);
      PartsHaveNoNul(r.fence);
      PartsHaveNoNul(s.fence);
      DecimalHasNoNul(r.sequence);
      DecimalHasNoNul(s.sequence);
      JoinNulAppend(p, Decimal(r.sequence));
      JoinNulAppend(q, Decimal(s.sequence));
      var pp, qq := p + [Decimal(r.sequence)], q + [Decimal(s.sequence)];
      JoinNulInjective(pp, qq);
      assert p == pp[..7] && q == qq[..7];
      assert pp[7] == qq[7];
      DecimalInjective(r.sequence, s.sequence);
      FenceKeyInjective(r.fence, s.fence);
    }
  }
}

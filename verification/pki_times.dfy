/** When PKI credentials are renewed and when failed renewals are retried. Durations are signed 64-bit
    counts of nanoseconds; instants are unbounded. */
module PkiTimes {
  const MAX_DURATION := 0x7FFF_FFFF_FFFF_FFFF
  const SECOND := 1_000_000_000
  const BACKOFF_BASE := 60 * SECOND
  const BACKOFF_MAXIMUM := 6 * 60 * 60 * SECOND
  const LIFECYCLE_WINDOW := 15 * 60 * SECOND

  // ---------- backoff ----------

  function Pow2(n: nat): nat {
    if n == 0 then 1 else 2 * Pow2(n - 1)
  }

  /** The documented schedule: one minute, doubled per further failure, six hours at most. */
  function Backoff(failures: int): int {
    var doubled := BACKOFF_BASE * Pow2(if failures <= 1 then 0 else failures - 1);
    if doubled < BACKOFF_MAXIMUM then doubled else BACKOFF_MAXIMUM
  }

  lemma {:induction false} Pow2Rises(m: nat, n: nat)
    requires m <= n
    ensures Pow2(m) <= Pow2(n)
    decreases n
  {
    if m < n {
      Pow2Rises(m, n - 1);
    }
  }

  /** The loop of the agent, in which no product ever leaves the range of a duration. */
  method RenewalBackoff(failures: int) returns (backoff: int)
    ensures backoff == Backoff(failures)
  {
    if failures <= 1 {
      return BACKOFF_BASE;
    }
    backoff := BACKOFF_BASE;
    var attempt := 1;
    while attempt < failures && backoff < BACKOFF_MAXIMUM
      invariant 1 <= attempt <= failures
      invariant backoff == BACKOFF_BASE * Pow2(attempt - 1)
    {
      if backoff > BACKOFF_MAXIMUM / 2 {
        Pow2Rises(attempt, failures - 1);
        return BACKOFF_MAXIMUM;
      }
      assert 0 <= backoff * 2 <= MAX_DURATION;
      backoff := backoff * 2;
      attempt := attempt + 1;
    }
    Pow2Rises(attempt - 1, failures - 1);
    if backoff > BACKOFF_MAXIMUM {
      return BACKOFF_MAXIMUM;
    }
  }

  /** More failures never mean a shorter wait, and every wait is a representable, positive duration. */
  lemma BackoffIsMonotone(m: int, n: int)
    requires m <= n
    ensures BACKOFF_BASE <= Backoff(m) <= Backoff(n) <= BACKOFF_MAXIMUM <= MAX_DURATION
  {
    Pow2Rises(0, if m <= 1 then 0 else m - 1);
    Pow2Rises(if m <= 1 then 0 else m - 1, if n <= 1 then 0 else n - 1);
  }

  /** The schedule reaches its ceiling at the tenth failure and stays there. */
  lemma BackoffSaturatesAtTen(n: int)
    ensures Backoff(n) == BACKOFF_MAXIMUM <==> n >= 10
  {
    assert Pow2(8) == 256 && Pow2(9) == 512;
    if n >= 10 {
      Pow2Rises(9, n - 1);
    } else if n > 1 {
      Pow2Rises(n - 1, 8);
    }
  }

  // ---------- jittered due times ----------

  /** Division that truncates towards zero. */
  function Quotient(a: int, b: int): int
    requires b > 0
  {
    if a >= 0 then a / b else -((-a) / b)
  }

  /** A difference of instants saturates at the largest duration. */
  function Lifetime(notBefore: int, notAfter: int): int {
    var d := notAfter - notBefore;
    if d > MAX_DURATION then MAX_DURATION else if d < -MAX_DURATION - 1 then -MAX_DURATION - 1 else d
  }

  function Window(lifetime: int): int {
    Quotient(lifetime, 12)
  }

  /** Renewal is due a third of the lifetime before the end, moved by a jitter drawn from `digest`. */
  function CredentialDue(notBefore: int, notAfter: int, digest: nat): int {
    var lifetime := Lifetime(notBefore, notAfter);
    if lifetime <= 0 then notAfter
    else
      var base := notAfter + Quotient(-lifetime, 3);
      var window := Window(lifetime);
      if window <= 0 then base
      else base + (digest % (window + 1) - Quotient(window, 2))
  }

  /** The jitter keeps the due time within half a window of a third before the end. */
  lemma CredentialDueIsNearTheThird(notBefore: int, notAfter: int, digest: nat)
    requires notBefore < notAfter
    ensures
      var lifetime := Lifetime(notBefore, notAfter);
      var window := Window(lifetime);
      var third := notAfter - lifetime / 3;
      third - window / 2 <= CredentialDue(notBefore, notAfter, digest) <= third + (window + 1) / 2
  {
  }

  /** Every instant in that range is the due time for some digest. */
  lemma EveryJitterIsPossible(notBefore: int, notAfter: int, due: int) returns (digest: nat)
    requires notBefore < notAfter && Window(Lifetime(notBefore, notAfter)) > 0
    requires
      var lifetime := Lifetime(notBefore, notAfter);
      notAfter - lifetime / 3 - Window(lifetime) / 2 <= due <= notAfter - lifetime / 3 + (Window(lifetime) + 1) / 2
    ensures digest <= Window(Lifetime(notBefore, notAfter)) && CredentialDue(notBefore, notAfter, digest) == due
  {
    hide Lifetime;
    var lifetime := Lifetime(notBefore, notAfter);
    var window := Window(lifetime);
    digest := due - (notAfter - lifetime / 3) + window / 2;
    OwnRemainder(digest, window + 1);
  }

  lemma OwnRemainder(x: nat, m: nat)
    requires x < m
    ensures x % m == x
  {
  }

  /** The due time lies strictly inside the lifetime exactly when that is three nanoseconds or more; in
      particular whenever there is a window to jitter in. */
  lemma DueInsideLifetimeIff(notBefore: int, notAfter: int, digest: nat)
    ensures notBefore < CredentialDue(notBefore, notAfter, digest) < notAfter <==> notAfter - notBefore >= 3
    ensures Window(Lifetime(notBefore, notAfter)) > 0 ==> notAfter - notBefore >= 3
  {
    if notBefore < notAfter {
      CredentialDueIsNearTheThird(notBefore, notAfter, digest);
    }
  }

  /** After a change of signers renewal is due within a quarter of an hour of the snapshot that announced
      it, or of now if that snapshot is undated or dated ahead. */
  function LifecycleDue(issued: int, dated: bool, now: int, digest: nat): int {
    (if !dated || issued > now then now else issued) + digest % (LIFECYCLE_WINDOW + 1)
  }

  /** Asked again later, the lifecycle time stays put once the snapshot's date has passed, and otherwise
      moves by no more than the clock did; it never precedes the snapshot's date. */
  lemma LifecycleDueIsStable(issued: int, dated: bool, now: int, later: int, digest: nat)
    requires now <= later
    ensures
      var a, b := LifecycleDue(issued, dated, now, digest), LifecycleDue(issued, dated, later, digest);
      && (dated && issued <= now ==> a == b && issued <= a <= issued + LIFECYCLE_WINDOW)
      && (!dated || issued > now ==> now <= a <= now + LIFECYCLE_WINDOW)
      && a <= b <= a + (later - now)
  {
  }
}

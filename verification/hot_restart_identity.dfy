/** The identity a parent launches its replacement with, and the checks the child makes against the same
    durable records. Digests are compared without regard to ASCII case. */
module HotRestartIdentity {
  import opened Sequences
  import opened Strings
  import LogReports

  const LEASE_PREFIX := "bootstrap-"
  const LEASE_DIGITS := 16

  datatype Lease = Lease(id: string, drainSeconds: int)

  datatype Record = Record(
    revision: int, snapshotDigest: string, runtimeHash: string, runtimeGeneration: string,
    phase: string, lease: Lease)

  datatype Journal = Journal(
    version: int, agent: string, active: Option<Record>, candidate: Option<Record>,
    lastKnownGood: Option<Record>, draining: seq<Record>)

  /** A generation as the runtime knows it. */
  datatype Generation = Generation(id: string, revision: int, snapshotHash: string)

  /** The durable desired snapshot, by its revision and the digest of its encoding. */
  datatype Desired = Desired(revision: int, digest: string)

  datatype Identity = Identity(revision: int, digest: string, generation: string, lease: string, epoch: string)

  datatype Launch =
    | Ready(identity: Identity)
    | LegacyJournal
    | NotReady
    | Incomplete
    | BootstrapMismatch

  predicate Blank(s: string) {
    Trim(s) == ""
  }

  predicate ValidIdentity(i: Identity) {
    i.revision >= 0 && !Blank(i.digest) && !Blank(i.generation) && !Blank(i.lease) && !Blank(i.epoch)
  }

  predicate Matches(r: Option<Record>, revision: int, phase: string) {
    r.Some? && r.value.revision == revision && !Blank(r.value.lease.id) && r.value.phase == phase
  }

  /** The journal record a restart at `revision` continues: a started candidate, or else the active one. */
  function MatchingRecord(j: Journal, revision: int): Option<Record> {
    if Matches(j.candidate, revision, "started") then j.candidate
    else if Matches(j.active, revision, "active") then j.active
    else None
  }

  predicate LegacyEmpty(j: Journal) {
    && j.version == 0 && Blank(j.agent) && j.active == None && j.candidate == None
    && j.lastKnownGood == None && j.draining == []
  }

  function BootstrapLease(digest: string): string {
    var d := ToLower(Trim(digest));
    LEASE_PREFIX + (if |d| > LEASE_DIGITS then d[..LEASE_DIGITS] else d)
  }

  // ---------- the parent ----------

  function BootstrapState(desired: Desired, active: Option<Generation>): Launch {
    if active.None? || active.value.id == "" || active.value.revision != 0
       || !EqualFold(Trim(active.value.snapshotHash), Trim(desired.digest)) then
      BootstrapMismatch
    else
      Ready(Identity(0, active.value.snapshotHash, active.value.id, BootstrapLease(active.value.snapshotHash), ""))
  }

  function LaunchState(desired: Desired, j: Journal, active: Option<Generation>): Launch {
    match MatchingRecord(j, desired.revision)
    case None =>
      if desired.revision == 0 then BootstrapState(desired, active)
      else if LegacyEmpty(j) then LegacyJournal
      else NotReady
    case Some(r) =>
      if Blank(r.snapshotDigest) || Blank(r.runtimeHash) || Blank(r.runtimeGeneration) then Incomplete
      else Ready(Identity(r.revision, r.snapshotDigest, Trim(r.runtimeGeneration), r.lease.id, ""))
  }

  // ---------- the child ----------

  predicate AcceptsBootstrap(i: Identity, desired: Desired, candidate: Option<Generation>) {
    && i.revision == 0
    && candidate.Some? && candidate.value.id != "" && candidate.value.revision == 0
    && candidate.value.id == i.generation
    && EqualFold(candidate.value.snapshotHash, i.digest)
    && EqualFold(desired.digest, i.digest)
    && i.lease == BootstrapLease(desired.digest)
  }

  predicate AcceptsRecord(i: Identity, desired: Desired, j: Journal) {
    var r := MatchingRecord(j, desired.revision);
    && r.Some? && desired.revision == i.revision && r.value.revision == i.revision
    && !Blank(r.value.runtimeHash)
    && EqualFold(Trim(r.value.snapshotDigest), Trim(i.digest))
    && r.value.lease.id == i.lease
    && r.value.runtimeGeneration != "" && r.value.runtimeGeneration == i.generation
  }

  predicate Accepts(i: Identity, desired: Desired, j: Journal, candidate: Option<Generation>) {
    && ValidIdentity(i)
    && if desired.revision == 0 then AcceptsBootstrap(i, desired, candidate) else AcceptsRecord(i, desired, j)
  }

  /** The hash the child prepares its generation under: none at revision 0, an error if the journal moved. */
  function RuntimeHash(i: Identity, j: Journal): Option<string> {
    if i.revision == 0 then Some("")
    else
      var r := MatchingRecord(j, i.revision);
      if r.None? || r.value.runtimeGeneration != i.generation || r.value.lease.id != i.lease
         || !EqualFold(r.value.snapshotDigest, i.digest) || Blank(r.value.runtimeHash) then None
      else Some(r.value.runtimeHash)
  }

  predicate ActiveMatches(i: Identity, j: Journal, active: Option<Generation>) {
    if i.revision == 0 then
      active.Some? && active.value.id == i.generation && active.value.revision == 0
      && EqualFold(active.value.snapshotHash, i.digest)
    else
      var r := MatchingRecord(j, i.revision);
      && r.Some? && active.Some? && active.value.id == i.generation && active.value.revision == i.revision
      && EqualFold(active.value.snapshotHash, r.value.runtimeHash)
  }

  /** The journal record of this revision: a candidate that has started, or, if there is no such candidate, the record in
      use. Either must name a lease. */
  ghost predicate Continues(j: Journal, revision: int, r: Record) {
    && r.revision == revision && !Blank(r.lease.id)
    && if r.phase == "started" then j.candidate == Some(r)
       else
         && j.active == Some(r) && r.phase == "active"
         && !(j.candidate.Some? && j.candidate.value.revision == revision && !Blank(j.candidate.value.lease.id)
              && j.candidate.value.phase == "started")
  }

  lemma MatchingIff(j: Journal, revision: int, r: Record)
    ensures MatchingRecord(j, revision) == Some(r) <==> Continues(j, revision, r)
  {
    hide Blank;
  }

  /** Exactly when a restart can be launched, and with what identity: that of the complete record the journal has of the
      desired revision; or, at revision 0 and without such a record, that of the generation that runs, if its hash is the
      desired digest. */
  lemma LaunchReadyIff(desired: Desired, j: Journal, active: Option<Generation>, i: Identity)
    ensures LaunchState(desired, j, active) == Ready(i) <==>
              || (exists r :: Continues(j, desired.revision, r)
                     && !Blank(r.snapshotDigest) && !Blank(r.runtimeHash) && !Blank(r.runtimeGeneration)
                     && i == Identity(r.revision, r.snapshotDigest, Trim(r.runtimeGeneration), r.lease.id, ""))
              || ((forall r :: !Continues(j, desired.revision, r)) && desired.revision == 0
                  && active.Some? && active.value.id != "" && active.value.revision == 0
                  && ToLower(Trim(active.value.snapshotHash)) == ToLower(Trim(desired.digest))
                  && i == Identity(0, active.value.snapshotHash, active.value.id, BootstrapLease(active.value.snapshotHash), ""))
  {
    hide Blank, Trim, ToLower, MatchingRecord, Continues, BootstrapLease;
    forall r ensures MatchingRecord(j, desired.revision) == Some(r) <==> Continues(j, desired.revision, r) {
      MatchingIff(j, desired.revision, r);
    }
    if MatchingRecord(j, desired.revision).Some? {
      var r := MatchingRecord(j, desired.revision).value;
      assert Continues(j, desired.revision, r);
    }
  }

  // ---------- agreement ----------

  lemma TrimOfBlank(s: string)
    ensures Blank(Trim(s)) <==> Blank(s)
  {
    TrimTwice(s);
  }

  /** The parent trims the runtime generation id and the child does not. So with nothing changed between
      them, and past revision 0, the child accepts what its parent launched it with exactly when the
      recorded id has no surrounding white space (and the revision is not negative). */
  lemma ChildAcceptsIff(desired: Desired, j: Journal, active: Option<Generation>, candidate: Option<Generation>, epoch: string)
    requires desired.revision != 0 && LaunchState(desired, j, active).Ready? && !Blank(epoch)
    ensures MatchingRecord(j, desired.revision).Some?
    ensures
      var i := LaunchState(desired, j, active).identity.(epoch := epoch);
      var r := MatchingRecord(j, desired.revision).value;
      Accepts(i, desired, j, candidate) <==>
        desired.revision > 0 && Trim(r.runtimeGeneration) == r.runtimeGeneration
  {
    var r := MatchingRecord(j, desired.revision).value;
    TrimOfBlank(r.runtimeGeneration);
  }

  function RecordedAs(generation: string): Journal {
    Journal(1, "a", Some(Record(1, "d", "h", generation, "active", Lease("l", 0))), None, None, [])
  }

  /** Every such id is a counterexample: the parent launches and its child refuses. */
  lemma UntrimmedGenerationIsRefused(generation: string, epoch: string)
    requires !Blank(generation) && Trim(generation) != generation && !Blank(epoch)
    ensures
      var launch := LaunchState(Desired(1, "d"), RecordedAs(generation), None);
      launch.Ready? && !Accepts(launch.identity.(epoch := epoch), Desired(1, "d"), RecordedAs(generation), None)
  {
    hide Trim, Accepts, EqualFold;
    NotBlank("d");
    NotBlank("h");
    NotBlank("l");
    ChildAcceptsIff(Desired(1, "d"), RecordedAs(generation), None, None, epoch);
  }

  /** Acceptance compares the snapshot digests trimmed, and the preparation untrimmed. So a child that
      accepted finds the hash to prepare under exactly when they agree as they stand; and a generation
      prepared under the recorded hash always passes the last check before the child reports ready. */
  lemma AcceptedChildCanActivateIff(i: Identity, desired: Desired, j: Journal, candidate: Option<Generation>, hash: string)
    requires desired.revision != 0 && Accepts(i, desired, j, candidate)
    ensures
      var r := MatchingRecord(j, desired.revision).value;
      && (RuntimeHash(i, j) == Some(r.runtimeHash) <==> EqualFold(r.snapshotDigest, i.digest))
      && (RuntimeHash(i, j).Some? <==> EqualFold(r.snapshotDigest, i.digest))
      && (ActiveMatches(i, j, Some(Generation(i.generation, i.revision, hash))) <==> EqualFold(hash, r.runtimeHash))
  {
  }

  lemma DigestIsTrimmed(s: string)
    requires LogReports.ValidDigest(s)
    ensures Trim(s) == s
  {
    TrimmedIff(s);
  }

  /** At revision 0 the two compare the runtime's own generation. With the same generation on both
      sides the child accepts exactly when its hash equals the digest without trimming and its id is
      not blank. */
  lemma BootstrapChildAcceptsIff(desired: Desired, j: Journal, active: Option<Generation>, epoch: string)
    requires desired.revision == 0 && LogReports.ValidDigest(desired.digest) && MatchingRecord(j, 0) == None && !Blank(epoch)
    requires LaunchState(desired, j, active).Ready?
    ensures
      var i := LaunchState(desired, j, active).identity.(epoch := epoch);
      Accepts(i, desired, j, active) <==>
        EqualFold(active.value.snapshotHash, desired.digest) && !Blank(active.value.id)
  {
    hide Trim, ToLower;
    var hash := active.value.snapshotHash;
    DigestIsTrimmed(desired.digest);
    SameFoldSameLease(hash, desired.digest);
    NotBlank(BootstrapLease(hash));
    FoldOfDigestNotBlank(hash, desired.digest);
  }

  lemma SameFoldSameLease(a: string, b: string)
    requires EqualFold(Trim(a), Trim(b))
    ensures BootstrapLease(a) == BootstrapLease(b)
  {
  }

  lemma FoldOfDigestNotBlank(hash: string, digest: string)
    requires LogReports.ValidDigest(digest) && EqualFold(Trim(hash), digest)
    ensures !Blank(hash)
  {
    hide Trim;
    assert |Trim(hash)| == |ToLower(Trim(hash))| == |ToLower(digest)| == 64;
  }

  lemma NotBlank(s: string)
    requires s != [] && !Space(s[0])
    ensures !Blank(s)
  {
    assert TrimLeft(s) == s;
    TrimRightKeeps(s);
  }

  lemma {:induction false} TrimRightKeeps(s: string)
    requires s != [] && !Space(s[0])
    ensures TrimRight(s) != []
  {
    if Space(s[|s| - 1]) {
      TrimRightKeeps(s[..|s| - 1]);
    }
  }
}

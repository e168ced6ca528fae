/** `collect_consistent` of `src/observation.rs`: two independent reads of the host, compared,
    merged and published, retried once when they disagree. */
module Consistency {
  import opened Orders
  import opened Observation
  import opened NativePass
  import opened PassComparison
  import opened UncertaintyMerge
  import opened Publication

  // ----- Publishing one attempt

  /** The completeness of the whole owner map: the merged passes' own, joined with every
      process read that could not be verified. */
  function UnverifiedCodes(processes: seq<(nat, ProcessRead)>): set<GapCode> {
    set e | e in processes && e.1.ReadUnverified? && e.1.reason != ReasonRaced :: UnverifiedCode(e.1.reason)
  }

  predicate AnyRacedRead(processes: seq<(nat, ProcessRead)>) {
    exists e | e in processes :: e.1.ReadUnverified? && e.1.reason == ReasonRaced
  }

  predicate AllVerified(processes: seq<(nat, ProcessRead)>) {
    forall e | e in processes :: e.1.ReadVerified?
  }

  function GlobalDoubts(completeness: OwnerCompleteness, processes: seq<(nat, ProcessRead)>): OwnerCompleteness {
    if AllVerified(processes) then completeness
    else Normal(completeness == Raced || AnyRacedRead(processes), Reasons(completeness) + UnverifiedCodes(processes))
  }

  lemma DoubtsGrow(processes: seq<(nat, ProcessRead)>, read: (nat, ProcessRead))
    requires read.1.ReadUnverified?
    ensures var next := processes + [read];
      && !AllVerified(next) && (AnyRacedRead(next) <==> AnyRacedRead(processes) || read.1.reason == ReasonRaced)
      && UnverifiedCodes(next) == UnverifiedCodes(processes)
           + (if read.1.reason == ReasonRaced then {} else {UnverifiedCode(read.1.reason)})
  {
    var next := processes + [read];
    assert read in next;
    assert AnyRacedRead(next) <==> AnyRacedRead(processes) || read.1.reason == ReasonRaced;
  }

  lemma NoDoubtsYet(processes: seq<(nat, ProcessRead)>)
    requires AllVerified(processes)
    ensures UnverifiedCodes(processes) == {} && !AnyRacedRead(processes)
  {
  }

  lemma GlobalDoubtsStep(completeness: OwnerCompleteness, processes: seq<(nat, ProcessRead)>, read: (nat, ProcessRead))
    requires read.1.ReadUnverified?
    requires MergeCompleteness(GlobalDoubts(completeness, processes), ReadCompleteness(read.1.reason)).Ok?
    ensures GlobalDoubts(completeness, processes + [read])
         == MergeCompleteness(GlobalDoubts(completeness, processes), ReadCompleteness(read.1.reason)).value
  {
    var before, extra := GlobalDoubts(completeness, processes), ReadCompleteness(read.1.reason);
    hide AnyRacedRead;
    hide UnverifiedCodes;
    hide MergeCompleteness;
    hide Normal;
    hide Reasons;
    MergeIsJoin(before, extra);
    DoubtsJoin(completeness, processes, read);
    NormalAlike(before == Raced || extra == Raced, Reasons(before) + Reasons(extra),
                completeness == Raced || AnyRacedRead(processes + [read]),
                Reasons(completeness) + UnverifiedCodes(processes + [read]));
    DoubtsGrow(processes, read);
    hide ReadCompleteness;
    hide AllVerified;
  }

  lemma NormalAlike(raced: bool, x: set<GapCode>, also: bool, y: set<GapCode>)
    requires raced == also && (!raced ==> x == y)
    ensures Normal(raced, x) == Normal(also, y)
  {
  }

  lemma DoubtsJoin(completeness: OwnerCompleteness, processes: seq<(nat, ProcessRead)>, read: (nat, ProcessRead))
    requires read.1.ReadUnverified?
    ensures var before, extra := GlobalDoubts(completeness, processes), ReadCompleteness(read.1.reason);
      && (before == Raced || extra == Raced <==> completeness == Raced || AnyRacedRead(processes + [read]))
      && (before != Raced && extra != Raced ==>
            Reasons(before) + Reasons(extra) == Reasons(completeness) + UnverifiedCodes(processes + [read]))
  {
    hide AnyRacedRead;
    hide UnverifiedCodes;
    hide Reasons;
    hide GlobalDoubts;
    ReadCompletenessMeaning(read.1.reason);
    GlobalMeaning(completeness, processes);
    DoubtsGrow(processes, read);
    hide ReadCompleteness;
  }

  /** The joined doubts, read back. */
  lemma GlobalMeaning(completeness: OwnerCompleteness, processes: seq<(nat, ProcessRead)>)
    ensures var doubts := GlobalDoubts(completeness, processes);
      && (doubts == Raced <==> completeness == Raced || AnyRacedRead(processes))
      && (doubts != Raced ==> Reasons(doubts) == Reasons(completeness) + UnverifiedCodes(processes))
  {
    hide SortedReasons;
    NormalMeaning(completeness == Raced || AnyRacedRead(processes), Reasons(completeness) + UnverifiedCodes(processes));
    if AllVerified(processes) {
      NoDoubtsYet(processes);
    }
  }

  lemma VerifiedAddsNothing(completeness: OwnerCompleteness, processes: seq<(nat, ProcessRead)>, read: (nat, ProcessRead))
    ensures read.1.ReadVerified? ==> GlobalDoubts(completeness, processes + [read]) == GlobalDoubts(completeness, processes)
  {
    hide Normal;
    if read.1.ReadVerified? {
      var next := processes + [read];
      assert forall e | e in processes :: e in next;
      assert AllVerified(next) == AllVerified(processes);
      assert AnyRacedRead(next) == AnyRacedRead(processes);
      assert UnverifiedCodes(next) == UnverifiedCodes(processes);
    }
  }

  lemma GlobalWithin(completeness: OwnerCompleteness, processes: seq<(nat, ProcessRead)>, reason: UnverifiedReason)
    ensures Reasons(GlobalDoubts(completeness, processes)) <= Reasons(completeness) + OwnerCodes()
    ensures Reasons(ReadCompleteness(reason)) <= OwnerCodes()
  {
    FewOwnerCodes([], reason);
    NormalReasons(completeness == Raced || AnyRacedRead(processes), Reasons(completeness) + UnverifiedCodes(processes));
    assert UnverifiedCodes(processes) <= OwnerCodes();
    hide Normal;
    hide Reasons;
  }

  lemma NothingRead(completeness: OwnerCompleteness)
    ensures GlobalDoubts(completeness, []) == completeness
  {
  }

  method JoinReads(completeness: OwnerCompleteness, processes: seq<(nat, ProcessRead)>)
    returns (r: Result<OwnerCompleteness, ObservationError>)
    ensures r.Ok? ==> r.value == GlobalDoubts(completeness, processes)
    ensures r.Err? ==> Failed(r.error, Reasons(completeness) + OwnerCodes())
  {
    hide MergeCompleteness;
    hide ReadCompleteness;
    NothingRead(completeness);
    hide GlobalDoubts;
    var joined := completeness;
    for i := 0 to |processes|
      invariant joined == GlobalDoubts(completeness, processes[..i])
    {
      assert processes[..i+1] == processes[..i] + [processes[i]];
      VerifiedAddsNothing(completeness, processes[..i], processes[i]);
      var read := processes[i].1;
      if read.ReadUnverified? {
        var merged := MergeCompleteness(joined, ReadCompleteness(read.reason));
        if merged.Err? {
          GlobalWithin(completeness, processes[..i], read.reason);
          MergeFailsWithin(joined, ReadCompleteness(read.reason), Reasons(completeness) + OwnerCodes());
          return merged;
        }
        GlobalDoubtsStep(completeness, processes[..i], processes[i]);
        joined := merged.value;
      }
    }
    assert processes[..|processes|] == processes;
    r := Ok(joined);
  }

  /** `derive_snapshot_completeness` */
  function DeriveCompleteness(raced: bool, owner: OwnerCompleteness, sockets: seq<Socket>,
                              gaps: seq<Gap>, omitted: nat): SnapshotCompleteness {
    if raced then SnapshotRaced
    else if gaps != [] || omitted > 0 || owner != Complete || exists s | s in sockets :: s.ownerCompleteness != Complete
    then SnapshotPartial
    else SnapshotComplete
  }

  /** Every gap an attempt raises, in the order it is pushed. */
  function AllGaps(pass: CollectedPass, instability: Option<Instability>, processGaps: seq<seq<Gap>>): seq<Gap> {
    pass.gaps + RacedGaps(instability) + SocketGaps(pass.processes, pass.rows) + Flatten(processGaps)
  }

  /** What a published snapshot says about the merged pass it came from. */
  ghost predicate Published(pass: CollectedPass, instability: Option<Instability>, limits: ObservationLimits,
                            s: Snapshot, entries: ProcessEntries, processGaps: seq<seq<Gap>>) {
    var all := AllGaps(pass, instability, processGaps);
    && EntriesOf(VerifiedReads(pass.processes), entries, processGaps, limits.optionalMetadataBytes)
    && EntryBytes(entries) <= limits.optionalMetadataBytes
    && s.processes.Keys == Identities(entries)
    && (forall identity | identity in s.processes :: (identity, s.processes[identity]) in entries)
    && StrictlySorted(CompareGap, s.gaps) && Elements(s.gaps) == Elements(Retained(all, limits.evidenceGaps))
    && |s.gaps| <= limits.evidenceGaps
    && s.omittedGaps == SaturatingAdd(pass.omittedGaps, Overflow(all, limits.evidenceGaps))
    && s.ownerCompleteness == (if instability.Some? && instability.value.ownership then Raced
                               else GlobalDoubts(pass.globalCompleteness, pass.processes))
    && |s.sockets| == |pass.rows|
    && (forall k | 0 <= k < |pass.rows| ::
          PublishedAs(pass.rows[k], pass.processes, IsAffected(instability, pass.rows[k]), s.sockets[k]))
    && s.completeness == DeriveCompleteness(instability.Some?, s.ownerCompleteness, s.sockets, s.gaps, s.omittedGaps)
  }

  method PushGaps(evidence: Evidence, gaps: seq<Gap>, limit: nat) returns (e: Evidence)
    ensures e == PushAll(evidence, gaps, limit)
  {
    e := evidence;
    for i := 0 to |gaps|
      invariant PushAll(e, gaps[i..], limit) == PushAll(evidence, gaps, limit)
    {
      e := PushGap(e, gaps[i], limit);
    }
  }

  /** The pushes of one attempt amount to pushing all its gaps in order. */
  lemma EvidencePushed(pass: CollectedPass, instability: Option<Instability>, processGaps: seq<seq<Gap>>, limit: nat)
    requires pass.omittedGaps <= U64_MAX
    ensures var all := AllGaps(pass, instability, processGaps);
      PushAll(PushAll(PushAll(PushAll(Evidence([], pass.omittedGaps), pass.gaps, limit), RacedGaps(instability), limit),
                      SocketGaps(pass.processes, pass.rows), limit),
              Flatten(processGaps), limit)
      == Evidence(Retained(all, limit), SaturatingAdd(pass.omittedGaps, Overflow(all, limit)))
  {
    hide PushAll;
    hide SocketGaps;
    hide Flatten;
    hide RacedGaps;
    var start := Evidence([], pass.omittedGaps);
    var raced, sockets := RacedGaps(instability), SocketGaps(pass.processes, pass.rows);
    PushAllAppend(start, pass.gaps, raced, limit);
    PushAllAppend(start, pass.gaps + raced, sockets, limit);
    PushAllAppend(start, pass.gaps + raced + sockets, Flatten(processGaps), limit);
    PushAllKeepsPrefix(pass.omittedGaps, AllGaps(pass, instability, processGaps), limit);
  }

  lemma RetainedFits(all: seq<Gap>, limit: nat)
    ensures |Retained(all, limit)| <= limit
  {
  }

  /** The retained gaps, ordered, each once. */
  method SortGaps(gaps: seq<Gap>) returns (r: seq<Gap>)
    ensures StrictlySorted(CompareGap, r) && Elements(r) == Elements(gaps) && |r| <= |gaps|
  {
    hide CompareGap;
    GapLawful();
    SortSorts(CompareGap, gaps);
    SortElements(CompareGap, gaps);
    var sorted := Sort(CompareGap, gaps);
    DedupStrict(CompareGap, sorted);
    DedupMembers(sorted);
    MultisetSize(sorted, gaps);
    r := Dedup(sorted);
  }

  method BuildSnapshot(startedAt: int, completedAt: int, pass: CollectedPass, instability: Option<Instability>,
                       limits: ObservationLimits)
    returns (r: Result<Snapshot, ObservationError>, ghost entries: ProcessEntries, ghost processGaps: seq<seq<Gap>>)
    requires WellFormed(pass) && pass.omittedGaps <= U64_MAX
    ensures r.Ok? ==> Published(pass, instability, limits, r.value, entries, processGaps)
    ensures r.Ok? ==> r.value.startedAt == startedAt && r.value.completedAt == completedAt
    ensures r.Err? ==> Failed(r.error, PassReasons(pass) + OwnerCodes())
  {
    hide PushAll;
    hide PublishedAs;
    hide GlobalDoubts;
    hide EntriesOf;
    hide SocketGaps;
    hide Flatten;
    hide CompareGap;
    entries, processGaps := [], [];
    var limit := limits.evidenceGaps;
    var evidence := PushGaps(Evidence([], pass.omittedGaps), pass.gaps, limit);
    evidence := PushGaps(evidence, RacedGaps(instability), limit);
    var globalCompleteness := JoinReads(pass.globalCompleteness, pass.processes);
    if globalCompleteness.Err? {
      FailedGrows(globalCompleteness.error, Reasons(pass.globalCompleteness) + OwnerCodes(), PassReasons(pass) + OwnerCodes());
      return Err(globalCompleteness.error), entries, processGaps;
    }
    var sockets: Result<seq<Socket>, ObservationError>;
    sockets, evidence := MaterializeSockets(pass, instability, evidence, limit);
    if sockets.Err? {
      FailedGrows(sockets.error, AllReasons(pass.rows) + OwnerCodes(), PassReasons(pass) + OwnerCodes());
      return Err(sockets.error), entries, processGaps;
    }
    var processes: map<ProcessIdentity, Process>;
    processes, evidence, entries, processGaps := MaterializeProcesses(pass.processes, evidence, limits);
    EvidencePushed(pass, instability, processGaps, limit);
    hide AllGaps;
    hide Retained;
    hide Overflow;
    hide RacedGaps;
    var owner := if instability.Some? && instability.value.ownership then Raced else globalCompleteness.value;
    RetainedFits(AllGaps(pass, instability, processGaps), limit);
    var gaps := SortGaps(evidence.gaps);
    var completeness := DeriveCompleteness(instability.Some?, owner, sockets.value, gaps, evidence.omitted);
    r := Ok(Snapshot(startedAt, completedAt, completeness, owner, gaps, evidence.omitted, sockets.value, processes));
  }
}

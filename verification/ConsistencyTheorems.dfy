/** What a published snapshot proves about the two raw passes behind it. */
module ConsistencyTheorems {
  import opened Orders
  import opened Observation
  import opened NativePass
  import opened PassComparison
  import opened UncertaintyMerge
  import opened Publication
  import opened Consistency

  /** Every `Partial` was built by `OwnerCompleteness::partial`, so it names a reason. */
  ghost predicate HonestPass(p: CollectedPass) {
    && Nonempty(p.globalCompleteness)
    && (forall r | r in p.rows :: Nonempty(r.completeness))
    && p.omittedGaps <= U64_MAX
  }

  /** A pass that raised no doubt at all. */
  ghost predicate Flawless(p: CollectedPass) {
    && p.globalCompleteness == Complete
    && (forall r | r in p.rows :: r.completeness == Complete)
    && AllVerified(p.processes)
    && p.gaps == [] && p.omittedGaps == 0
  }

  /** Metadata that is complete as read. */
  predicate ReadWhole(p: Process) {
    !p.budgetExceeded && p.metadata == MetadataComplete
  }

  /** Every verified process kept all the metadata the second pass read for it. */
  ghost predicate MetadataKept(verified: seq<(nat, ProcessRead)>, entries: ProcessEntries) {
    && |entries| == |verified|
    && forall i | 0 <= i < |entries| ::
         && verified[i].1.ReadVerified? && entries[i].1 == verified[i].1.observation
         && ReadWhole(entries[i].1)
  }

  /** Each field within its own length limit. */
  predicate FieldsFit(p: Process) {
    && Length(p.name) <= PROCESS_NAME_MAX_BYTES && Length(p.executablePath) <= EXECUTABLE_PATH_MAX_BYTES
    && Length(p.parentProcessName) <= PROCESS_NAME_MAX_BYTES && Length(p.commandLine) <= PROCESS_COMMAND_LINE_MAX_BYTES
  }

  function ReadBytes(verified: seq<(nat, ProcessRead)>): nat
    requires forall read | read in verified :: read.1.ReadVerified?
  {
    if verified == [] then 0
    else ReadBytes(verified[..|verified|-1]) + MetadataBytes(verified[|verified|-1].1.observation)
  }

  /** The verified reads of one pass carry complete metadata that needs no trimming. */
  ghost predicate MetadataFits(verified: seq<(nat, ProcessRead)>, budget: nat) {
    && (forall read | read in verified ::
          && read.1.ReadVerified? && FieldsFit(read.1.observation)
          && ReadWhole(read.1.observation))
    && ReadBytes(verified) <= budget
  }

  /** Everything `collect_consistent` establishes about its final attempt. */
  ghost predicate Attempt(a: CollectedPass, b: CollectedPass, m: CollectedPass, dropped: seq<Gap>,
                          instability: Option<Instability>, limits: ObservationLimits, s: Snapshot,
                          entries: ProcessEntries, processGaps: seq<seq<Gap>>) {
    && WellFormed(a) && WellFormed(b) && HonestPass(a) && HonestPass(b)
    && Merged(a, b, m, dropped)
    && (instability.None? <==> PassesAgree(a, b))
    && (instability.Some? ==>
          && (instability.value.ownership <==> PidsDiffer(a.rows, b.rows) != {} || !SameIdentities(a, b))
          && (instability.value.socketSet <==> CountDiffers(a.rows, b.rows) != {})
          && instability.value.affected
             == CountDiffers(a.rows, b.rows) + PidsDiffer(a.rows, b.rows) + MarkerMoved(a, b))
    && Published(m, instability, limits, s, entries, processGaps)
  }

  // ----- Doubts survive the merge

  lemma {:induction false} FlattenEmpty(gaps: seq<seq<Gap>>)
    ensures Flatten(gaps) == [] <==> forall i | 0 <= i < |gaps| :: gaps[i] == []
  {
    if gaps != [] {
      FlattenEmpty(gaps[..|gaps|-1]);
    }
  }

  lemma NoMetadataGaps(verified: seq<(nat, ProcessRead)>, entries: ProcessEntries, gaps: seq<seq<Gap>>, budget: nat)
    requires EntriesOf(verified, entries, gaps, budget)
    ensures Flatten(gaps) == [] <==> MetadataKept(verified, entries)
  {
    FlattenEmpty(gaps);
    forall i | 0 <= i < |gaps|
      ensures gaps[i] == [] <==> entries[i].1 == verified[i].1.observation && !entries[i].1.budgetExceeded
                                 && entries[i].1.metadata == MetadataComplete
    {
      NoProcessGaps(verified[i].0, verified[i].1.observation, entries[i].1);
    }
  }

  /** A process survives whole exactly when its fields fit and their total fits what is left. */
  lemma KeptWholeExactly(before: Process, retained: nat, budget: nat)
    requires retained <= budget
    ensures KeptProcess(before, retained, budget) == before
       <==> FieldsFit(before) && retained + MetadataBytes(before) <= budget
  {
  }

  lemma EntriesPrefix(verified: seq<(nat, ProcessRead)>, entries: ProcessEntries, gaps: seq<seq<Gap>>, budget: nat)
    requires EntriesOf(verified, entries, gaps, budget) && verified != []
    ensures var n := |verified| - 1;
      && |entries| == |gaps| == n + 1 && verified[n].1.ReadVerified?
      && EntriesOf(verified[..n], entries[..n], gaps[..n], budget)
      && entries[n].1 == KeptProcess(verified[n].1.observation, EntryBytes(entries[..n]), budget)
  {
    hide Trimmed;
    hide ProcessGaps;
    hide KeptProcess;
    hide EntryBytes;
  }

  lemma KeptPrefix(verified: seq<(nat, ProcessRead)>, entries: ProcessEntries)
    requires |verified| == |entries| > 0
    ensures var n := |verified| - 1;
      MetadataKept(verified, entries) <==>
        && MetadataKept(verified[..n], entries[..n]) && verified[n].1.ReadVerified?
        && entries[n].1 == verified[n].1.observation && ReadWhole(entries[n].1)
  {
    var n := |verified| - 1;
    if MetadataKept(verified[..n], entries[..n]) {
      assert forall i | 0 <= i < n :: verified[i] == verified[..n][i] && entries[i] == entries[..n][i];
    }
  }

  lemma FitsPrefix(verified: seq<(nat, ProcessRead)>, budget: nat)
    requires verified != []
    ensures var n := |verified| - 1;
      MetadataFits(verified, budget) <==>
        && MetadataFits(verified[..n], budget) && verified[n].1.ReadVerified?
        && FieldsFit(verified[n].1.observation) && ReadWhole(verified[n].1.observation)
        && ReadBytes(verified[..n]) + MetadataBytes(verified[n].1.observation) <= budget
  {
    hide FieldsFit;
    hide MetadataBytes;
    var n := |verified| - 1;
    assert verified == verified[..n] + [verified[n]];
  }

  /** Judging one process after another loses nothing exactly when everything fits at once. */
  lemma {:induction false} KeptExactly(verified: seq<(nat, ProcessRead)>, entries: ProcessEntries, gaps: seq<seq<Gap>>,
                                       budget: nat)
    requires EntriesOf(verified, entries, gaps, budget) && EntryBytes(entries) <= budget
    ensures MetadataKept(verified, entries) <==> MetadataFits(verified, budget)
    ensures MetadataKept(verified, entries) ==> EntryBytes(entries) == ReadBytes(verified)
    decreases |verified|
  {
    hide MetadataBytes;
    hide KeptProcess;
    hide FieldsFit;
    if verified != [] {
      var n := |verified| - 1;
      EntriesPrefix(verified, entries, gaps, budget);
      KeptPrefix(verified, entries);
      FitsPrefix(verified, budget);
      hide EntriesOf;
      KeptExactly(verified[..n], entries[..n], gaps[..n], budget);
      hide MetadataKept;
      hide MetadataFits;
      KeptWholeExactly(verified[n].1.observation, EntryBytes(entries[..n]), budget);
    }
  }

  lemma NoProcessGaps(pid: nat, before: Process, after: Process)
    requires Trimmed(before, after)
    ensures ProcessGaps(pid, before, after) == [] <==>
              after == before && !after.budgetExceeded && after.metadata == MetadataComplete
  {
    var lost := LostFields(before, after);
    assert |Repeat(BudgetGap(pid), lost)| == lost;
  }

  lemma {:induction false} SocketGapsEmpty(processes: seq<(nat, ProcessRead)>, rows: seq<NativeRow>)
    requires forall i, pid | 0 <= i < |rows| && pid in rows[i].ownerPids :: OwnerOf(processes, pid).Verified?
    ensures SocketGaps(processes, rows) == []
  {
    hide OwnerOf;
    if rows != [] {
      forall pid | pid in rows[0].ownerPids ensures OwnerOf(processes, pid).Verified? {}
      EdgeGapsEmpty(rows[0].socket.id.endpoint, processes, rows[0].ownerPids);
      assert forall i | 0 <= i < |rows| - 1 :: rows[1..][i] == rows[i+1];
      SocketGapsEmpty(processes, rows[1..]);
    }
  }

  lemma {:induction false} EdgeGapsEmpty(endpoint: Endpoint, processes: seq<(nat, ProcessRead)>, pids: seq<nat>)
    requires forall pid | pid in pids :: OwnerOf(processes, pid).Verified?
    ensures EdgeGaps(endpoint, processes, pids) == []
  {
    if pids != [] {
      assert pids[0] in pids;
      EdgeGapsEmpty(endpoint, processes, pids[1..]);
    }
  }

  lemma GlobalComplete(completeness: OwnerCompleteness, processes: seq<(nat, ProcessRead)>)
    ensures GlobalDoubts(completeness, processes) == Complete <==> completeness == Complete && AllVerified(processes)
  {
    hide SortedReasons;
    if !AllVerified(processes) {
      var e :| e in processes && e.1.ReadUnverified?;
      NormalMeaning(completeness == Raced || AnyRacedRead(processes), Reasons(completeness) + UnverifiedCodes(processes));
      if e.1.reason != ReasonRaced {
        assert UnverifiedCode(e.1.reason) in UnverifiedCodes(processes);
      }
    }
  }

  /** A merged row is complete only if its whole group in the first pass was. */
  lemma MergedComplete(a: seq<NativeRow>, row: NativeRow)
    requires Nonempty(row.completeness) && forall r | r in a :: Nonempty(r.completeness)
    ensures MergedRow(a, row).completeness == Complete <==>
              row.completeness == Complete && forall r | r in Group(a, row.socket.id) :: r.completeness == Complete
    ensures Nonempty(MergedRow(a, row).completeness)
  {
    hide SortedReasons;
    var g := Group(a, row.socket.id);
    if row.socket.id in RowIds(a) {
      NormalMeaning(AnyRaced(g) || row.completeness == Raced, AllReasons(g) + Reasons(row.completeness));
      forall r | r in g && r.completeness.Partial? ensures AllReasons(g) != {} {
        assert r.completeness.reasons[0] in Reasons(r.completeness);
        assert r.completeness.reasons[0] in AllReasons(g);
      }
      if row.completeness.Partial? {
        assert row.completeness.reasons[0] in Reasons(row.completeness);
      }
      if forall r | r in g :: r.completeness == Complete {
        assert AllReasons(g) == {};
      }
    } else {
      AbsentGroup(a, row.socket.id);
    }
  }

  lemma LocalComplete(owners: seq<Owner>)
    ensures LocalDoubts(owners) == Complete <==> forall o | o in owners :: o.Verified?
    ensures Nonempty(LocalDoubts(owners))
  {
    hide SortedReasons;
    NormalMeaning(RacedOwner(owners), OwnerReasons(owners));
    forall o | o in owners && o.UnverifiedPid? && o.reason != ReasonRaced ensures OwnerReasons(owners) != {} {
      assert UnverifiedCode(o.reason) in OwnerReasons(owners);
    }
    if forall o | o in owners :: o.Verified? {
      assert OwnerReasons(owners) == {};
    }
  }

  /** A published socket is complete exactly when its row was and every owner was verified. */
  lemma SocketComplete(row: NativeRow, processes: seq<(nat, ProcessRead)>, s: Socket)
    requires PublishedAs(row, processes, false, s) && Nonempty(row.completeness)
    ensures s.ownerCompleteness == Complete <==>
              row.completeness == Complete && forall pid | pid in row.ownerPids :: OwnerOf(processes, pid).Verified?
  {
    hide MergeCompleteness;
    hide LocalDoubts;
    hide Sorted;
    assert LocalDoubts(s.owners) == Normal(RacedOwner(s.owners), OwnerReasons(s.owners)) by { LocalIs(s.owners); }
    LocalComplete(s.owners);
    MergeIsJoin(row.completeness, LocalDoubts(s.owners));
    var mapped := Owners(processes, row.ownerPids);
    assert forall o :: o in s.owners <==> o in multiset(mapped);
    forall pid | pid in row.ownerPids ensures OwnerOf(processes, pid) in mapped {
      var i :| 0 <= i < |row.ownerPids| && row.ownerPids[i] == pid;
      assert mapped[i] == OwnerOf(processes, pid);
    }
  }

  lemma LocalIs(owners: seq<Owner>)
    ensures LocalDoubts(owners) == Normal(RacedOwner(owners), OwnerReasons(owners))
  {
  }

  lemma VerifiedOwner(processes: seq<(nat, ProcessRead)>, pid: nat)
    ensures OwnerOf(processes, pid).Verified? <==> Marker(processes, pid).Some?
    ensures Marker(processes, pid).Some? ==> OwnerOf(processes, pid).identity == ProcessIdentity(pid, Marker(processes, pid).value)
    ensures AllVerified(processes) && pid in EntryPids(processes) ==> Marker(processes, pid).Some?
  {
    if pid in EntryPids(processes) {
      var k :| 0 <= k < |EntryPids(processes)| && EntryPids(processes)[k] == pid;
      assert processes[k].0 == pid;
    }
  }

  lemma AllVerifiedByMarkers(p: CollectedPass)
    requires WellFormed(p)
    ensures AllVerified(p.processes) <==> forall pid | pid in EntryPids(p.processes) :: Marker(p.processes, pid).Some?
  {
    forall pid | pid in EntryPids(p.processes) ensures AllVerified(p.processes) ==> Marker(p.processes, pid).Some? {
      VerifiedOwner(p.processes, pid);
    }
    if forall pid | pid in EntryPids(p.processes) :: Marker(p.processes, pid).Some? {
      forall e | e in p.processes ensures e.1.ReadVerified? {
        var k :| 0 <= k < |p.processes| && p.processes[k] == e;
        assert EntryPids(p.processes)[k] == e.0;
        assert Marker(p.processes, e.0).Some?;
        var r := Lookup(p.processes, e.0);
        var j :| 0 <= j < |p.processes| && p.processes[j] == (e.0, r.value);
        assert EntryPids(p.processes)[j] == e.0;
      }
    }
  }

  // ----- The main results

  /** Gap and omission counts vanish together exactly when neither pass raised evidence
      and publication added none. */
  lemma NoGaps(a: CollectedPass, b: CollectedPass, m: CollectedPass, dropped: seq<Gap>,
               limits: ObservationLimits, s: Snapshot, entries: ProcessEntries, processGaps: seq<seq<Gap>>)
    requires HonestPass(a) && HonestPass(b) && Merged(a, b, m, dropped)
    requires Published(m, None, limits, s, entries, processGaps)
    ensures s.gaps == [] && s.omittedGaps == 0 <==>
              && a.gaps == [] && b.gaps == [] && a.omittedGaps == 0 && b.omittedGaps == 0
              && SocketGaps(m.processes, m.rows) == [] && Flatten(processGaps) == []
  {
    hide SocketGaps;
    hide Flatten;
    hide CompareGap;
    hide PublishedAs;
    hide EntriesOf;
    hide MergedRow;
    hide SameAggregate;
    var all := AllGaps(m, None, processGaps);
    var kept := Retained(all, limits.evidenceGaps);
    HeadIn(kept);
    HeadIn(s.gaps);
    HeadIn(m.gaps);
    HeadIn(dropped);
    HeadIn(a.gaps);
    HeadIn(b.gaps);
    if s.gaps == [] && s.omittedGaps == 0 {
      assert all == [] && m.gaps == [] && dropped == [];
      assert Elements(m.gaps) == {};
      assert forall g :: !Covered(g, Elements(m.gaps));
    }
  }

  lemma MergedGlobal(a: CollectedPass, b: CollectedPass, m: CollectedPass, dropped: seq<Gap>)
    requires HonestPass(a) && HonestPass(b) && Merged(a, b, m, dropped)
    ensures m.globalCompleteness == Complete <==> a.globalCompleteness == Complete && b.globalCompleteness == Complete
  {
    MergeIsJoin(a.globalCompleteness, b.globalCompleteness);
  }

  ghost predicate SocketClean(a: CollectedPass, b: CollectedPass, k: nat)
    requires k < |b.rows|
  {
    && b.rows[k].completeness == Complete
    && (forall r | r in Group(a.rows, b.rows[k].socket.id) :: r.completeness == Complete)
    && (forall pid | pid in b.rows[k].ownerPids :: OwnerOf(b.processes, pid).Verified?)
  }

  lemma OneSocketComplete(a: CollectedPass, b: CollectedPass, m: CollectedPass, dropped: seq<Gap>,
                          limits: ObservationLimits, s: Snapshot, entries: ProcessEntries, processGaps: seq<seq<Gap>>, k: nat)
    requires WellFormed(a) && WellFormed(b) && HonestPass(a) && HonestPass(b)
    requires Merged(a, b, m, dropped) && Published(m, None, limits, s, entries, processGaps) && k < |b.rows|
    ensures s.sockets[k].ownerCompleteness == Complete <==> SocketClean(a, b, k)
  {
    hide PublishedAs;
    hide EntriesOf;
    hide MergedRow;
    hide Group;
    hide OwnerOf;
    MergedComplete(a.rows, b.rows[k]);
    MergedRowsWellFormed(a.rows, b.rows, m.rows);
    SocketComplete(m.rows[k], m.processes, s.sockets[k]);
  }

  lemma SocketsClean(a: CollectedPass, b: CollectedPass, m: CollectedPass, dropped: seq<Gap>,
                     limits: ObservationLimits, s: Snapshot, entries: ProcessEntries, processGaps: seq<seq<Gap>>)
    requires WellFormed(a) && WellFormed(b) && HonestPass(a) && HonestPass(b)
    requires Merged(a, b, m, dropped) && Published(m, None, limits, s, entries, processGaps)
    ensures (forall x | x in s.sockets :: x.ownerCompleteness == Complete)
            <==> forall k | 0 <= k < |b.rows| :: SocketClean(a, b, k)
  {
    hide SocketClean;
    hide PublishedAs;
    hide EntriesOf;
    hide MergedRow;
    forall k | 0 <= k < |b.rows| ensures s.sockets[k].ownerCompleteness == Complete <==> SocketClean(a, b, k) {
      OneSocketComplete(a, b, m, dropped, limits, s, entries, processGaps, k);
    }
    assert forall k | 0 <= k < |b.rows| :: s.sockets[k] in s.sockets;
  }

  /** When both passes list the same sockets, their groups together hold every row. */
  lemma RowsClean(a: CollectedPass, b: CollectedPass)
    requires PassesAgree(a, b)
    ensures (forall k | 0 <= k < |b.rows| :: SocketClean(a, b, k)) <==>
              && (forall r | r in a.rows :: r.completeness == Complete)
              && (forall r | r in b.rows :: r.completeness == Complete)
              && (forall k, pid | 0 <= k < |b.rows| && pid in b.rows[k].ownerPids :: OwnerOf(b.processes, pid).Verified?)
  {
    hide Group;
    hide OwnerOf;
    GroupsCoverRows(a, b);
    forall k, r | 0 <= k < |b.rows| && r in Group(a.rows, b.rows[k].socket.id) ensures r in a.rows {
      GroupMember(a.rows, b.rows[k].socket.id, r);
    }
    if forall k | 0 <= k < |b.rows| :: SocketClean(a, b, k) {
      forall r | r in a.rows ensures r.completeness == Complete {
        var k :| 0 <= k < |b.rows| && r in Group(a.rows, b.rows[k].socket.id);
        assert SocketClean(a, b, k);
      }
      forall r | r in b.rows ensures r.completeness == Complete {
        var k :| 0 <= k < |b.rows| && b.rows[k] == r;
        assert SocketClean(a, b, k);
      }
      forall k, pid | 0 <= k < |b.rows| && pid in b.rows[k].ownerPids ensures OwnerOf(b.processes, pid).Verified? {
        assert SocketClean(a, b, k);
      }
    }
  }

  lemma GroupMember(rows: seq<NativeRow>, id: SocketId, r: NativeRow)
    ensures r in Group(rows, id) <==> r in rows && r.socket.id == id
  {
  }

  lemma GroupsCoverRows(a: CollectedPass, b: CollectedPass)
    requires PassesAgree(a, b)
    ensures forall r | r in a.rows :: exists k | 0 <= k < |b.rows| :: r in Group(a.rows, b.rows[k].socket.id)
  {
    forall r | r in a.rows ensures exists k | 0 <= k < |b.rows| :: r in Group(a.rows, b.rows[k].socket.id) {
      var id := r.socket.id;
      GroupMember(a.rows, id, r);
      assert |Group(b.rows, id)| > 0;
      var other := Group(b.rows, id)[0];
      GroupMember(b.rows, id, other);
      var k :| 0 <= k < |b.rows| && b.rows[k] == other;
    }
  }

  lemma AgreeingVerified(a: CollectedPass, b: CollectedPass)
    requires WellFormed(a) && WellFormed(b) && PassesAgree(a, b)
    ensures AllVerified(a.processes) <==> AllVerified(b.processes)
    ensures AllVerified(b.processes) <==>
              forall k, pid | 0 <= k < |b.rows| && pid in b.rows[k].ownerPids :: OwnerOf(b.processes, pid).Verified?
  {
    hide Marker;
    hide OwnerOf;
    SamePids(a.rows, b.rows);
    SamePids(b.rows, a.rows);
    AllVerifiedByMarkers(a);
    AllVerifiedByMarkers(b);
    forall pid | pid in RowPids(b.rows) ensures OwnerOf(b.processes, pid).Verified? <==> Marker(b.processes, pid).Some? {
      VerifiedOwner(b.processes, pid);
    }
    assert forall k, pid | 0 <= k < |b.rows| && pid in b.rows[k].ownerPids :: pid in RowPids(b.rows);
  }

  /** A snapshot is published Complete exactly when both raw passes agree on sockets, owners
      and start markers, neither raised any doubt, and the second pass's process metadata was
      complete and within every limit. */
  lemma CompleteExactly(a: CollectedPass, b: CollectedPass, m: CollectedPass, dropped: seq<Gap>,
                        instability: Option<Instability>, limits: ObservationLimits, s: Snapshot,
                        entries: ProcessEntries, processGaps: seq<seq<Gap>>)
    requires Attempt(a, b, m, dropped, instability, limits, s, entries, processGaps)
    ensures s.completeness == SnapshotComplete <==>
              PassesAgree(a, b) && Flawless(a) && Flawless(b)
              && MetadataFits(VerifiedReads(b.processes), limits.optionalMetadataBytes)
    ensures s.completeness == SnapshotComplete ==> MetadataKept(VerifiedReads(b.processes), entries)
  {
    hide AllVerified;
    hide Group;
    hide OwnerOf;
    hide Marker;
    hide PublishedAs;
    hide MergedRow;
    hide SocketGaps;
    hide Flatten;
    if instability.None? {
      NoGaps(a, b, m, dropped, limits, s, entries, processGaps);
      MergedGlobal(a, b, m, dropped);
      SocketsClean(a, b, m, dropped, limits, s, entries, processGaps);
      RowsClean(a, b);
      AgreeingVerified(a, b);
      GlobalComplete(m.globalCompleteness, m.processes);
      NoMetadataGaps(VerifiedReads(m.processes), entries, processGaps, limits.optionalMetadataBytes);
      KeptExactly(VerifiedReads(m.processes), entries, processGaps, limits.optionalMetadataBytes);
      hide MetadataKept;
      hide MetadataFits;
      if AllVerified(b.processes) {
        NoSocketGaps(a, b, m, dropped);
      }
    }
  }

  lemma NoSocketGaps(a: CollectedPass, b: CollectedPass, m: CollectedPass, dropped: seq<Gap>)
    requires WellFormed(b) && Merged(a, b, m, dropped) && AllVerified(b.processes)
    ensures SocketGaps(m.processes, m.rows) == []
  {
    hide MergedRow;
    hide OwnerOf;
    MergedRowsWellFormed(a.rows, b.rows, m.rows);
    forall i, pid | 0 <= i < |m.rows| && pid in m.rows[i].ownerPids ensures OwnerOf(m.processes, pid).Verified? {
      assert pid in RowPids(m.rows);
      VerifiedOwner(b.processes, pid);
    }
    SocketGapsEmpty(m.processes, m.rows);
  }

  /** Even in a raced attempt, a published socket not marked Raced was seen in both passes with
      the same count, the same owners, and the same generation of every owner. */
  lemma UnracedSocketAgrees(a: CollectedPass, b: CollectedPass, m: CollectedPass, dropped: seq<Gap>,
                            instability: Option<Instability>, limits: ObservationLimits, s: Snapshot,
                            entries: ProcessEntries, processGaps: seq<seq<Gap>>, k: nat)
    requires Attempt(a, b, m, dropped, instability, limits, s, entries, processGaps)
    requires k < |s.sockets| && s.sockets[k].ownerCompleteness != Raced
    ensures var id := SocketId(s.sockets[k].endpoint, s.sockets[k].state, s.sockets[k].token);
            && id == b.rows[k].socket.id
            && |Group(a.rows, id)| == |Group(b.rows, id)| > 0
            && PidBag(Group(a.rows, id)) == PidBag(Group(b.rows, id))
            && forall pid | pid in b.rows[k].ownerPids :: Marker(a.processes, pid) == Marker(b.processes, pid)
  {
    hide Marker;
    hide PidBag;
    MergedRowsWellFormed(a.rows, b.rows, m.rows);
    var row := b.rows[k];
    GroupMember(b.rows, row.socket.id, row);
    if instability.None? {
      forall pid | pid in row.ownerPids ensures pid in RowPids(b.rows) {}
    } else {
      UnaffectedAgrees(a, b, instability.value.affected, row);
    }
  }

  lemma {:induction false} UniqueRead(processes: seq<(nat, ProcessRead)>, e: (nat, ProcessRead))
    requires StrictlyAscending(EntryPids(processes)) && e in processes
    ensures Lookup(processes, e.0) == Some(e.1)
  {
    var k :| 0 <= k < |processes| && processes[k] == e;
    assert EntryPids(processes)[k] == e.0;
    var r := Lookup(processes, e.0);
    hide Lookup;
    var i :| 0 <= i < |processes| && processes[i] == (e.0, r.value);
    assert EntryPids(processes)[i] == EntryPids(processes)[k];
  }

  lemma {:induction false} EdgeGapHas(endpoint: Endpoint, processes: seq<(nat, ProcessRead)>, pids: seq<nat>, pid: nat)
    requires pid in pids && OwnerOf(processes, pid).UnverifiedPid?
    ensures EdgeGap(endpoint, OwnerOf(processes, pid)) in EdgeGaps(endpoint, processes, pids)
  {
    hide OwnerOf;
    if pids[0] != pid {
      EdgeGapHas(endpoint, processes, pids[1..], pid);
    }
  }

  lemma {:induction false} SocketGapHas(processes: seq<(nat, ProcessRead)>, rows: seq<NativeRow>, k: nat, g: Gap)
    requires k < |rows| && g in EdgeGaps(rows[k].socket.id.endpoint, processes, rows[k].ownerPids)
    ensures g in SocketGaps(processes, rows)
  {
    hide EdgeGaps;
    if k > 0 {
      SocketGapHas(processes, rows[1..], k - 1, g);
    }
  }

  /** The gap code each reason for an unverified owner is reported under. */
  ghost predicate ReportedAs(reason: UnverifiedReason, code: GapCode) {
    match reason
    case PermissionDenied => code == OwnerPermissionDenied
    case Disappeared => code == OwnerDisappeared
    case IdentityUnavailable => code == ProcessIdentityUnavailable
    case ReasonRaced => code == ObservationRaced
  }

  /** An owner the merged pass could not verify is never silent: its socket is raced, or partial
      for that very reason, and its own gap is in the snapshot or among the omitted ones. */
  lemma UnverifiedOwnerReported(pass: CollectedPass, instability: Option<Instability>, limits: ObservationLimits, s: Snapshot,
                                entries: ProcessEntries, processGaps: seq<seq<Gap>>, k: nat, pid: nat,
                                reason: UnverifiedReason, code: GapCode)
    requires Published(pass, instability, limits, s, entries, processGaps) && StrictlyAscending(EntryPids(pass.processes))
    requires k < |pass.rows| && pid in pass.rows[k].ownerPids && (pid, ReadUnverified(reason)) in pass.processes
    requires ReportedAs(reason, code)
    ensures UnverifiedPid(pid, reason) in s.sockets[k].owners
    ensures s.sockets[k].ownerCompleteness == Raced
            || (reason != ReasonRaced && s.sockets[k].ownerCompleteness.Partial? && code in s.sockets[k].ownerCompleteness.reasons)
    ensures (exists g | g in s.gaps :: g.impact == Ownership && g.code == code && g.pid == Some(pid)
                                       && g.endpoint == Some(s.sockets[k].endpoint))
            || s.omittedGaps > 0
  {
    hide PublishedAs;
    hide EntriesOf;
    hide StrictlySorted;
    hide GlobalDoubts;
    hide DeriveCompleteness;
    hide AllGaps;
    hide SocketGaps;
    hide EdgeGaps;
    hide OwnerOf;
    hide Lookup;
    hide EdgeGap;
    UniqueRead(pass.processes, (pid, ReadUnverified(reason)));
    var row := pass.rows[k];
    UnverifiedSocket(row, pass.processes, IsAffected(instability, row), s.sockets[k], pid, reason);
    UnverifiedEdge(row.socket.id.endpoint, pass.processes, pid, reason, code);
    EdgeGapHas(row.socket.id.endpoint, pass.processes, row.ownerPids, pid);
    var g := EdgeGap(row.socket.id.endpoint, OwnerOf(pass.processes, pid));
    SocketGapHas(pass.processes, pass.rows, k, g);
    SocketGapRecorded(pass, instability, limits, s, entries, processGaps, g);
  }

  lemma UnverifiedEdge(endpoint: Endpoint, processes: seq<(nat, ProcessRead)>, pid: nat, reason: UnverifiedReason, code: GapCode)
    requires Lookup(processes, pid) == Some(ReadUnverified(reason)) && ReportedAs(reason, code)
    ensures OwnerOf(processes, pid).UnverifiedPid? && code == UnverifiedCode(reason)
    ensures var g := EdgeGap(endpoint, OwnerOf(processes, pid));
      g.impact == Ownership && g.code == code && g.pid == Some(pid) && g.endpoint == Some(endpoint)
  {
    hide Lookup;
  }

  lemma SocketGapRecorded(pass: CollectedPass, instability: Option<Instability>, limits: ObservationLimits, s: Snapshot,
                          entries: ProcessEntries, processGaps: seq<seq<Gap>>, g: Gap)
    requires Published(pass, instability, limits, s, entries, processGaps) && g in SocketGaps(pass.processes, pass.rows)
    ensures g in s.gaps || s.omittedGaps > 0
  {
    hide PublishedAs;
    hide EntriesOf;
    hide StrictlySorted;
    hide SocketGaps;
    hide GlobalDoubts;
    hide DeriveCompleteness;
    var all := AllGaps(pass, instability, processGaps);
    assert g in all;
    if Overflow(all, limits.evidenceGaps) == 0 {
      assert g in Elements(Retained(all, limits.evidenceGaps));
      assert g in Elements(s.gaps);
    }
  }

  lemma UnverifiedSocket(row: NativeRow, processes: seq<(nat, ProcessRead)>, raced: bool, x: Socket, pid: nat,
                         reason: UnverifiedReason)
    requires PublishedAs(row, processes, raced, x) && pid in row.ownerPids && Lookup(processes, pid) == Some(ReadUnverified(reason))
    ensures x.endpoint == row.socket.id.endpoint && UnverifiedPid(pid, reason) in x.owners
    ensures x.ownerCompleteness == Raced
            || (reason != ReasonRaced && x.ownerCompleteness.Partial? && UnverifiedCode(reason) in x.ownerCompleteness.reasons)
  {
    hide Lookup;
    hide Sorted;
    var mapped := Owners(processes, row.ownerPids);
    var i :| 0 <= i < |row.ownerPids| && row.ownerPids[i] == pid;
    assert mapped[i] == UnverifiedPid(pid, reason) && mapped[i] in multiset(mapped);
    if !raced {
      MergeIsJoin(row.completeness, Normal(RacedOwner(x.owners), OwnerReasons(x.owners)));
      NormalMeaning(RacedOwner(x.owners), OwnerReasons(x.owners));
      NormalMeaning(row.completeness == Raced || RacedOwner(x.owners),
                    Reasons(row.completeness) + Reasons(Normal(RacedOwner(x.owners), OwnerReasons(x.owners))));
      hide MergeCompleteness;
      hide Normal;
      if reason != ReasonRaced {
        assert UnverifiedCode(reason) in OwnerReasons(x.owners);
      }
    }
  }

  /** A raced snapshot says what raced: the socket set, the ownership, or both, each by a gap of its
      own, in the snapshot or among the omitted ones. */
  lemma RaceReported(pass: CollectedPass, instability: Option<Instability>, limits: ObservationLimits, s: Snapshot,
                     entries: ProcessEntries, processGaps: seq<seq<Gap>>)
    requires Published(pass, instability, limits, s, entries, processGaps) && instability.Some?
    ensures s.completeness == SnapshotRaced
    ensures instability.value.socketSet && s.omittedGaps == 0 ==>
              exists g | g in s.gaps :: g.impact == SocketSet && g.code == ObservationRaced
    ensures instability.value.ownership && s.omittedGaps == 0 ==>
              exists g | g in s.gaps :: g.impact == Ownership && g.code == ObservationRaced
  {
    hide PublishedAs;
    hide EntriesOf;
    hide StrictlySorted;
    hide SocketGaps;
    hide Flatten;
    var all := AllGaps(pass, instability, processGaps);
    if Overflow(all, limits.evidenceGaps) == 0 {
      forall g | g in RacedGaps(instability) ensures g in s.gaps {
        assert g in all && g in Elements(Retained(all, limits.evidenceGaps)) && g in Elements(s.gaps);
      }
      var sockets, owners := Gap(SocketSet, ObservationRaced, None, None, None, SOCKET_RACE),
                             Gap(Ownership, ObservationRaced, None, None, None, OWNER_RACE);
      assert instability.value.socketSet ==> sockets in RacedGaps(instability);
      assert instability.value.ownership ==> owners in RacedGaps(instability);
    }
  }

  /** A published process with incomplete metadata has a metadata gap about it, in the snapshot or
      among the omitted ones; no such gap is about sockets or owners. */
  lemma PartialMetadataReported(pass: CollectedPass, instability: Option<Instability>, limits: ObservationLimits, s: Snapshot,
                                entries: ProcessEntries, processGaps: seq<seq<Gap>>, i: nat)
    requires Published(pass, instability, limits, s, entries, processGaps) && i < |entries|
    requires entries[i].1.metadata == MetadataPartial
    ensures s.omittedGaps > 0
            || exists g | g in s.gaps :: g.impact == Metadata && g.pid == Some(entries[i].0.pid)
                 && (g.code == NoncriticalEvidenceTruncated || g.code == ProcessMetadataUnavailable)
  {
    hide StrictlySorted;
    hide PublishedAs;
    var read := VerifiedReads(pass.processes)[i];
    var g := PartialGap(read.0, read.1.observation, entries[i].1);
    FlattenHas(processGaps, i, g);
    var all := AllGaps(pass, instability, processGaps);
    assert g in all;
    if Overflow(all, limits.evidenceGaps) == 0 {
      assert g in Elements(Retained(all, limits.evidenceGaps));
      assert g in Elements(s.gaps);
    }
  }

  lemma PartialGap(pid: nat, before: Process, after: Process) returns (g: Gap)
    requires Trimmed(before, after) && after.metadata == MetadataPartial
    ensures g in ProcessGaps(pid, before, after) && g.impact == Metadata && g.pid == Some(pid)
    ensures g.code == NoncriticalEvidenceTruncated || g.code == ProcessMetadataUnavailable
  {
    if before.budgetExceeded {
      g := NativeBudgetGap(pid);
    } else if LostFields(before, after) > 0 {
      g := BudgetGap(pid);
      assert Repeat(g, LostFields(before, after))[0] == g;
    } else {
      g := IncompleteGap(pid);
    }
  }

  lemma {:induction false} FlattenHas(gaps: seq<seq<Gap>>, i: nat, g: Gap)
    requires i < |gaps| && g in gaps[i]
    ensures g in Flatten(gaps)
  {
    if i < |gaps| - 1 {
      FlattenHas(gaps[..|gaps|-1], i, g);
    }
  }

  /** Metadata dropped for the retention budget is never silent: the process is marked, and its
      gap is in the snapshot or among the omitted ones. */
  lemma LostMetadataRecorded(pass: CollectedPass, instability: Option<Instability>, limits: ObservationLimits, s: Snapshot,
                             entries: ProcessEntries, processGaps: seq<seq<Gap>>, i: nat)
    requires Published(pass, instability, limits, s, entries, processGaps) && i < |entries|
    requires entries[i].1 != VerifiedReads(pass.processes)[i].1.observation
    ensures entries[i].1.metadata == MetadataPartial && entries[i].1.budgetExceeded
    ensures s.omittedGaps > 0
            || exists g | g in s.gaps :: g.impact == Metadata && g.code == NoncriticalEvidenceTruncated
                                         && g.pid == Some(entries[i].0.pid)
  {
    hide StrictlySorted;
    hide PublishedAs;
    var read := VerifiedReads(pass.processes)[i];
    var g := BudgetGap(read.0);
    var lost := LostFields(read.1.observation, entries[i].1);
    assert Repeat(g, lost)[0] == g;
    assert g in processGaps[i];
    FlattenHas(processGaps, i, g);
    var all := AllGaps(pass, instability, processGaps);
    assert g in all;
    if Overflow(all, limits.evidenceGaps) == 0 {
      assert g in Elements(Retained(all, limits.evidenceGaps));
      assert g in Elements(s.gaps);
    }
  }
}

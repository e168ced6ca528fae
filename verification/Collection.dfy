/** The collection protocol itself: bounded reads of an arbitrary native source, at most two
    attempts, one published snapshot. */
module Collection {
  import opened Orders
  import opened Observation
  import opened NativePass
  import opened PassComparison
  import opened UncertaintyMerge
  import opened Publication
  import opened Consistency
  import opened ConsistencyTheorems

  /** A table as an adapter builds it: partial completeness comes with reasons. */
  ghost predicate HonestNative(read: NativeRead) {
    && Nonempty(read.globalCompleteness)
    && (forall row | row in read.rows :: Nonempty(row.completeness))
    && read.omittedGaps <= U64_MAX
  }

  /** The host behind `ObservationSource`: every call may answer anything, and differently
      from every other call. */
  class ObservationSource {
    const clock: nat -> Result<int, ObservationError>
    const tables: (nat, Profile) -> Result<NativeRead, ObservationError>
    const readTable: (nat, seq<nat>, Profile, nat) -> Result<seq<(nat, ProcessRead)>, ObservationError>
    var calls: nat
    /** PIDs whose identity has been read so far. */
    ghost var identityReads: nat

    /** Adapters build partial completeness with `partial`, and count omissions in 64 bits. */
    ghost predicate Honest() {
      forall n, p :: tables(n, p).Ok? ==> HonestNative(tables(n, p).value)
    }

    /** No table puts a socket in a state its protocol does not have. */
    ghost predicate Adapted() {
      forall n, p :: tables(n, p).Ok? ==> BuiltStates(tables(n, p).value)
    }

    /** Some table, and then exactly the processes the pass lists, were the source's answers. */
    ghost predicate Read(call: nat, profile: Profile, budget: nat, p: CollectedPass) {
      exists read :: Gave(call, profile, budget, read, p)
    }

    /** The pass is what the source answered in two consecutive calls: a table, and then a read
        of exactly the processes the pass lists. */
    ghost predicate Gave(call: nat, profile: Profile, budget: nat, read: NativeRead, p: CollectedPass) {
      && tables(call, profile) == Ok(read)
      && readTable(call + 1, EntryPids(p.processes), profile, budget) == Ok(p.processes)
    }

    constructor (clock: nat -> Result<int, ObservationError>,
                 tables: (nat, Profile) -> Result<NativeRead, ObservationError>,
                 readTable: (nat, seq<nat>, Profile, nat) -> Result<seq<(nat, ProcessRead)>, ObservationError>)
      ensures this.clock == clock && this.tables == tables && this.readTable == readTable
      ensures calls == 0 && identityReads == 0
    {
      this.clock, this.tables, this.readTable := clock, tables, readTable;
      calls, identityReads := 0, 0;
    }

    method WallClock() returns (r: Result<int, ObservationError>)
      modifies this`calls
      ensures r == clock(old(calls)) && calls == old(calls) + 1
    {
      r := clock(calls);
      calls := calls + 1;
    }

    method CollectNativePass(profile: Profile) returns (r: Result<NativeRead, ObservationError>)
      modifies this`calls
      ensures r == tables(old(calls), profile) && calls == old(calls) + 1
    {
      r := tables(calls, profile);
      calls := calls + 1;
    }

    method ReadProcesses(pids: seq<nat>, profile: Profile, budget: nat)
      returns (r: Result<seq<(nat, ProcessRead)>, ObservationError>)
      modifies this
      ensures r == readTable(old(calls), pids, profile, budget) && calls == old(calls) + 1
      ensures identityReads == old(identityReads) + |pids|
    {
      r := readTable(calls, pids, profile, budget);
      calls := calls + 1;
      identityReads := identityReads + |pids|;
    }
  }

  /** Draining an ordered set of PIDs. */
  method AscendingPids(pids: set<nat>) returns (r: seq<nat>)
    ensures StrictlyAscending(r) && Elements(r) == pids
  {
    var s: seq<nat> := [];
    var rest := pids;
    while rest != {}
      invariant rest <= pids && multiset(s) == multiset(pids - rest)
      decreases rest
    {
      var p :| p in rest;
      s := s + [p];
      assert pids - (rest - {p}) == (pids - rest) + {p};
      rest := rest - {p};
    }
    assert pids - {} == pids;
    PidSeqsLawful();
    SortSorts(CompareNat, s);
    r := Sort(CompareNat, s);
    SortedSetAscends(r, pids);
  }

  /** Sorting the elements of a set leaves no two equal. */
  lemma SortedSetAscends(r: seq<nat>, pids: set<nat>)
    requires Sorted(CompareNat, r) && multiset(r) == multiset(pids)
    ensures StrictlyAscending(r) && Elements(r) == pids
  {
    assert forall p :: p in r <==> p in multiset(pids);
    forall i, j | 0 <= i < j < |r| ensures r[i] < r[j] {
      assert CompareNat(r[i], r[j]) != Greater;
      RepeatsCount(r, i, j);
      assert multiset(pids)[r[j]] == 1;
    }
  }

  lemma RepeatsCount(r: seq<nat>, i: nat, j: nat)
    requires i < j < |r|
    ensures r[i] == r[j] ==> multiset(r)[r[j]] >= 2
  {
    var front, back := r[..j], r[j..];
    assert r == front + back;
    assert r[i] in multiset(front) && r[j] in multiset(back);
  }

  lemma {:induction false} OwnerEdgesAppend(rows: seq<NativeRow>, row: NativeRow)
    ensures OwnerEdges(rows + [row]) == OwnerEdges(rows) + |row.ownerPids|
  {
    assert (rows + [row])[..|rows|] == rows;
  }

  method CountOwnerEdges(rows: seq<NativeRow>) returns (n: nat)
    ensures n == OwnerEdges(rows)
  {
    n := 0;
    for i := 0 to |rows|
      invariant n == OwnerEdges(rows[..i])
    {
      assert rows[..i+1] == rows[..i] + [rows[i]];
      OwnerEdgesAppend(rows[..i], rows[i]);
      n := n + |rows[i].ownerPids|;
    }
    assert rows[..|rows|] == rows;
  }

  predicate TooManyReasons(c: OwnerCompleteness) {
    c.Partial? && |c.reasons| > OWNER_COMPLETENESS_REASONS_MAX
  }

  /** `ProcessReadTable::from_expected` */
  predicate Expected(pids: seq<nat>, entries: seq<(nat, ProcessRead)>) {
    |entries| == |pids| && forall i | 0 <= i < |pids| :: entries[i].0 == pids[i]
  }

  lemma CanonicalRows(native: seq<NativeRow>)
    ensures var rows := Sort(CompareRow, Map(SortPids, native));
            && multiset(rows) == multiset(Map(SortPids, native)) && GroupedRows(rows) && |rows| == |native|
            && (forall r | r in rows :: exists n | n in native :: r.completeness == n.completeness)
  {
    hide CompareRow;
    RowLawful();
    SortSorts(CompareRow, Map(SortPids, native));
    var rows := Sort(CompareRow, Map(SortPids, native));
    assert GroupedRows(rows) by { SortedRowsGrouped(rows); }
    forall r | r in rows ensures exists n | n in native :: r.completeness == n.completeness {
      assert r in multiset(Map(SortPids, native));
      var i :| 0 <= i < |native| && Map(SortPids, native)[i] == r;
      assert native[i] in native;
    }
  }

  ghost predicate FewReasons(c: OwnerCompleteness) {
    c.Partial? ==> |c.reasons| <= 8
  }

  /** What one successful pass promises, beyond its canonical form. */
  ghost predicate WithinLimits(p: CollectedPass, limits: ObservationLimits) {
    && |p.rows| <= limits.sockets && OwnerEdges(p.rows) <= limits.ownerEdges
    && |p.processes| <= limits.candidatePids
    && (forall r | r in p.rows :: FewReasons(r.completeness)) && FewReasons(p.globalCompleteness)
  }

  /** The limits every native table must respect before it is used. */
  function NativeRefusal(read: NativeRead, limits: ObservationLimits): Option<ObservationError> {
    if |read.rows| > limits.sockets then Some(SocketObservationLimitExceeded)
    else if TooManyReasons(read.globalCompleteness) || exists row | row in read.rows :: TooManyReasons(row.completeness)
      then Some(OwnerReasonLimitExceeded)
    else if |read.gaps| > EVIDENCE_GAPS_MAX then Some(NativeDataMalformed)
    else None
  }

  /** A table is refused exactly for too many sockets, too many reasons, or too many gaps. */
  lemma RefusedExactly(read: NativeRead, limits: ObservationLimits)
    ensures NativeRefusal(read, limits).None? <==>
      && |read.rows| <= limits.sockets
      && FewReasons(read.globalCompleteness) && (forall row | row in read.rows :: FewReasons(row.completeness))
      && |read.gaps| <= 4_096
  {
  }

  /** A screened table, made canonical and joined with exactly its own processes, is a pass. */
  lemma PassCollected(native: NativeRead, rows: seq<NativeRow>, pids: seq<nat>, entries: seq<(nat, ProcessRead)>,
                      limits: ObservationLimits)
    requires HonestNative(native) && NativeRefusal(native, limits).None? && rows == Sort(CompareRow, Map(SortPids, native.rows))
    requires OwnerEdges(rows) <= limits.ownerEdges && |pids| <= limits.candidatePids
    requires Elements(pids) == RowPids(rows) && StrictlyAscending(pids) && Expected(pids, entries)
    ensures var p := CollectedPass(rows, native.globalCompleteness, native.gaps, entries, native.omittedGaps);
      Collected(native, p) && HonestPass(p) && WithinLimits(p, limits)
  {
    hide CompareRow;
    hide OwnerEdges;
    hide GroupedRows;
    CanonicalRows(native.rows);
    assert EntryPids(entries) == pids;
    assert forall pid :: pid in RowPids(rows) <==> pid in Elements(pids);
  }

  /** One pass as it must turn out: the source's own failures, each limit in its turn, and only
      then a pass. `pids` are the processes asked about. */
  ghost predicate PassOutcome(source: ObservationSource, call: nat, profile: Profile, limits: ObservationLimits,
                              attempt: nat, total: nat, pids: seq<nat>, r: Result<CollectedPass, ObservationError>) {
    var read := source.tables(call, profile);
    if read.Err? then r == Err(read.error)
    else if NativeRefusal(read.value, limits).Some? then r == Err(NativeRefusal(read.value, limits).value)
    else
      var rows := Sort(CompareRow, Map(SortPids, read.value.rows));
      if OwnerEdges(rows) > limits.ownerEdges then r == Err(OwnerAttributionLimitExceeded)
      else
        && StrictlyAscending(pids) && Elements(pids) == RowPids(rows)
        && if |pids| > limits.candidatePids || attempt + |pids| > limits.identityReadsPerAttempt
              || total + |pids| > limits.identityReadsTotal
           then r == Err(ProcessIdentityLimitExceeded)
           else
             match source.readTable(call + 1, pids, profile, limits.optionalMetadataBytes)
             case Err(e) => r == Err(e)
             case Ok(entries) =>
               r == if Expected(pids, entries)
                    then Ok(CollectedPass(rows, read.value.globalCompleteness, read.value.gaps, entries, read.value.omittedGaps))
                    else Err(NativeDataMalformed)
  }

  lemma ExpectedPids(pids: seq<nat>, entries: seq<(nat, ProcessRead)>)
    requires Expected(pids, entries)
    ensures EntryPids(entries) == pids
  {
  }

  method CollectPass(source: ObservationSource, profile: Profile, limits: ObservationLimits,
                     attemptBefore: nat, totalBefore: nat)
    returns (r: Result<CollectedPass, ObservationError>, attempt: nat, total: nat, ghost native: NativeRead,
             ghost pids: seq<nat>)
    requires source.Honest()
    requires attemptBefore <= limits.identityReadsPerAttempt && totalBefore <= limits.identityReadsTotal
    modifies source
    ensures attempt <= limits.identityReadsPerAttempt && total <= limits.identityReadsTotal
    ensures source.identityReads - old(source.identityReads) == total - totalBefore == attempt - attemptBefore
    ensures PassOutcome(source, old(source.calls), profile, limits, attemptBefore, totalBefore, pids, r)
    ensures r.Ok? ==>
              && source.Gave(old(source.calls), profile, limits.optionalMetadataBytes, native, r.value)
              && source.calls == old(source.calls) + 2
              && Collected(native, r.value) && HonestPass(r.value) && WithinLimits(r.value, limits)
  {
    hide CompareRow;
    hide OwnerEdges;
    hide NativeRefusal;
    hide Collected;
    hide WithinLimits;
    hide HonestNative;
    hide HonestPass;
    hide Expected;
    attempt, total := attemptBefore, totalBefore;
    native, pids := NativeRead([], Complete, [], 0), [];
    var read := source.CollectNativePass(profile);
    if read.Err? {
      return Err(read.error), attempt, total, native, pids;
    }
    native := read.value;
    var refusal := NativeRefusal(read.value, limits);
    if refusal.Some? {
      return Err(refusal.value), attempt, total, native, pids;
    }
    var rows := Sort(CompareRow, Map(SortPids, read.value.rows));
    var edges := CountOwnerEdges(rows);
    if edges > limits.ownerEdges {
      return Err(OwnerAttributionLimitExceeded), attempt, total, native, pids;
    }
    var candidates := AscendingPids(RowPids(rows));
    pids := candidates;
    if |candidates| > limits.candidatePids
       || attempt + |candidates| > limits.identityReadsPerAttempt
       || total + |candidates| > limits.identityReadsTotal {
      return Err(ProcessIdentityLimitExceeded), attempt, total, native, pids;
    }
    attempt, total := attempt + |candidates|, total + |candidates|;
    var entries := source.ReadProcesses(candidates, profile, limits.optionalMetadataBytes);
    if entries.Err? {
      return Err(entries.error), attempt, total, native, pids;
    }
    if !Expected(candidates, entries.value) {
      return Err(NativeDataMalformed), attempt, total, native, pids;
    }
    PassCollected(native, rows, candidates, entries.value, limits);
    ExpectedPids(candidates, entries.value);
    r := Ok(CollectedPass(rows, read.value.globalCompleteness, read.value.gaps, entries.value, read.value.omittedGaps));
  }

  /** Everything behind a published snapshot: the two native reads of its final attempt, the
      call that began them, and what became of them. */
  datatype Provenance = Provenance(call: nat, nativeA: NativeRead, nativeB: NativeRead, a: CollectedPass, b: CollectedPass,
                                   merged: CollectedPass, dropped: seq<Gap>, instability: Option<Instability>,
                                   entries: ProcessEntries, processGaps: seq<seq<Gap>>)

  ghost predicate Backs(p: Provenance, limits: ObservationLimits, s: Snapshot) {
    && Collected(p.nativeA, p.a) && Collected(p.nativeB, p.b)
    && WithinLimits(p.a, limits) && WithinLimits(p.b, limits)
    && Attempt(p.a, p.b, p.merged, p.dropped, p.instability, limits, s, p.entries, p.processGaps)
  }

  /** Both passes and both times are the source's own answers, from six consecutive calls: the
      first pass read identities only, the second the requested profile. */
  ghost predicate GivenBy(source: ObservationSource, profile: Profile, limits: ObservationLimits, p: Provenance, s: Snapshot) {
    && source.clock(p.call) == Ok(s.startedAt)
    && source.Gave(p.call + 1, IdentityOnly, limits.optionalMetadataBytes, p.nativeA, p.a)
    && source.Gave(p.call + 3, profile, limits.optionalMetadataBytes, p.nativeB, p.b)
    && source.clock(p.call + 5) == Ok(s.completedAt)
  }

  /** What two passes, their comparison and their merge establish before publication. */
  ghost predicate Compared(a: CollectedPass, b: CollectedPass, merged: CollectedPass, dropped: seq<Gap>, i: Instability) {
    && WellFormed(a) && WellFormed(b)
    && Merged(a, b, merged, dropped) && WellFormed(merged)
    && (i.ownership <==> PidsDiffer(a.rows, b.rows) != {} || !SameIdentities(a, b))
    && (i.socketSet <==> CountDiffers(a.rows, b.rows) != {})
    && i.affected == CountDiffers(a.rows, b.rows) + PidsDiffer(a.rows, b.rows) + MarkerMoved(a, b)
  }

  lemma ComparedAttempt(a: CollectedPass, b: CollectedPass, merged: CollectedPass, dropped: seq<Gap>, i: Instability)
    requires Compared(a, b, merged, dropped, i)
    ensures i.IsStable() <==> PassesAgree(a, b)
    ensures merged.omittedGaps <= U64_MAX && |merged.rows| == |b.rows| && WellFormed(merged)
  {
    hide WellFormed;
    hide MergedRow;
    hide Covered;
    hide PassesAgree;
    hide CountDiffers;
    hide PidsDiffer;
    hide SameIdentities;
    StableExactly(a, b);
  }

  /** Why a collection failed. */
  datatype Blame =
    | Nobody
    | ClockFailed(call: nat)
    | ClockWentBack(first: nat, second: nat)
    | PassRefused(call: nat, profile: Profile, attempt: nat, total: nat, pids: seq<nat>)
    | TooManyDoubts(a: CollectedPass, b: CollectedPass)

  /** A failure is always the source's own, a limit the evidence really exceeds, or a clock
      that ran backwards. */
  ghost predicate Blamed(source: ObservationSource, limits: ObservationLimits, blame: Blame, e: ObservationError) {
    match blame
    case Nobody => false
    case ClockFailed(n) => source.clock(n) == Err(e)
    case ClockWentBack(m, n) =>
      source.clock(m).Ok? && source.clock(n).Ok? && source.clock(n).value < source.clock(m).value && e == InvalidWallClockInterval
    case PassRefused(n, profile, attempt, total, pids) =>
      && attempt <= limits.identityReadsPerAttempt && total <= limits.identityReadsTotal
      && PassOutcome(source, n, profile, limits, attempt, total, pids, Err(e))
    case TooManyDoubts(a, b) => Failed(e, PassReasons(a) + PassReasons(b) + OwnerCodes())
  }

  /** The two reads of one attempt: identities only, then the requested profile. */
  method CollectPasses(source: ObservationSource, profile: Profile, limits: ObservationLimits, totalBefore: nat)
    returns (r: Result<(CollectedPass, CollectedPass), ObservationError>, total: nat,
             ghost nativeA: NativeRead, ghost nativeB: NativeRead, ghost blame: Blame)
    requires source.Honest() && totalBefore <= limits.identityReadsTotal
    modifies source
    ensures total <= limits.identityReadsTotal
    ensures source.identityReads - old(source.identityReads) == total - totalBefore <= limits.identityReadsPerAttempt
    ensures r.Ok? ==>
              && source.Gave(old(source.calls), IdentityOnly, limits.optionalMetadataBytes, nativeA, r.value.0)
              && source.Gave(old(source.calls) + 2, profile, limits.optionalMetadataBytes, nativeB, r.value.1)
              && source.calls == old(source.calls) + 4
    ensures r.Ok? ==>
              && Collected(nativeA, r.value.0) && HonestPass(r.value.0) && WithinLimits(r.value.0, limits)
              && Collected(nativeB, r.value.1) && HonestPass(r.value.1) && WithinLimits(r.value.1, limits)
    ensures r.Err? ==> Blamed(source, limits, blame, r.error)
  {
    hide Collected;
    hide HonestPass;
    hide WithinLimits;
    hide PassOutcome;
    hide Failed;
    ghost var pids: seq<nat>;
    nativeB, blame := NativeRead([], Complete, [], 0), Nobody;
    var attempt: nat := 0;
    var a: Result<CollectedPass, ObservationError>, b: Result<CollectedPass, ObservationError>;
    ghost var call := source.calls;
    a, attempt, total, nativeA, pids := CollectPass(source, IdentityOnly, limits, attempt, totalBefore);
    if a.Err? {
      r, blame := Err(a.error), PassRefused(call, IdentityOnly, 0, totalBefore, pids);
      return;
    }
    call := source.calls;
    ghost var attemptBefore, totalBetween := attempt, total;
    b, attempt, total, nativeB, pids := CollectPass(source, profile, limits, attempt, total);
    blame := if b.Err? then PassRefused(call, profile, attemptBefore, totalBetween, pids) else Nobody;
    r := if b.Err? then Err(b.error) else Ok((a.value, b.value));
  }

  /** Publishing a compared attempt, as stable or as raced. */
  method PublishAttempt(startedAt: int, completedAt: int, ghost a: CollectedPass, ghost b: CollectedPass,
                        merged: CollectedPass, ghost dropped: seq<Gap>, instability: Instability, limits: ObservationLimits)
    returns (r: Result<Snapshot, ObservationError>, ghost entries: ProcessEntries, ghost processGaps: seq<seq<Gap>>)
    requires Compared(a, b, merged, dropped, instability) && HonestPass(a) && HonestPass(b)
    ensures r.Ok? ==>
              && Attempt(a, b, merged, dropped, if instability.IsStable() then None else Some(instability), limits,
                         r.value, entries, processGaps)
              && r.value.startedAt == startedAt && r.value.completedAt == completedAt
              && (r.value.completeness == SnapshotRaced <==> !instability.IsStable())
    ensures r.Err? ==> Failed(r.error, PassReasons(a) + PassReasons(b) + OwnerCodes())
  {
    hide PassesAgree;
    hide Published;
    hide Merged;
    hide WellFormed;
    hide HonestPass;
    ComparedAttempt(a, b, merged, dropped, instability);
    var published := if instability.IsStable() then None else Some(instability);
    r, entries, processGaps := BuildSnapshot(startedAt, completedAt, merged, published, limits);
    if r.Ok? {
      PublishedShape(merged, published, limits, r.value, entries, processGaps);
    } else {
      MergedReasons(a, b, merged, dropped);
      FailedGrows(r.error, PassReasons(merged) + OwnerCodes(), PassReasons(a) + PassReasons(b) + OwnerCodes());
    }
  }

  /** One attempt's two passes, compared and merged. */
  datatype AttemptRead = AttemptRead(startedAt: int, completedAt: int, a: CollectedPass, b: CollectedPass,
                                     merged: CollectedPass, instability: Instability)

  ghost predicate GoodAttempt(t: AttemptRead, nativeA: NativeRead, nativeB: NativeRead, dropped: seq<Gap>,
                              limits: ObservationLimits) {
    && t.startedAt <= t.completedAt
    && Collected(nativeA, t.a) && Collected(nativeB, t.b) && WithinLimits(t.a, limits) && WithinLimits(t.b, limits)
    && HonestPass(t.a) && HonestPass(t.b)
    && Compared(t.a, t.b, t.merged, dropped, t.instability)
  }

  /** Both times and both passes of an attempt are the source's own answers, from six consecutive calls. */
  ghost predicate AttemptGiven(source: ObservationSource, call: nat, profile: Profile, limits: ObservationLimits,
                               t: AttemptRead, nativeA: NativeRead, nativeB: NativeRead) {
    && source.clock(call) == Ok(t.startedAt)
    && source.Gave(call + 1, IdentityOnly, limits.optionalMetadataBytes, nativeA, t.a)
    && source.Gave(call + 3, profile, limits.optionalMetadataBytes, nativeB, t.b)
    && source.clock(call + 5) == Ok(t.completedAt)
  }

  /** The body of the attempt loop up to the decision whether to publish. */
  method CollectAttempt(source: ObservationSource, profile: Profile, limits: ObservationLimits, totalBefore: nat)
    returns (r: Result<AttemptRead, ObservationError>, total: nat,
             ghost nativeA: NativeRead, ghost nativeB: NativeRead, ghost dropped: seq<Gap>, ghost blame: Blame)
    requires source.Honest() && totalBefore <= limits.identityReadsTotal
    modifies source
    ensures total <= limits.identityReadsTotal
    ensures source.identityReads - old(source.identityReads) == total - totalBefore <= limits.identityReadsPerAttempt
    ensures r.Ok? ==> AttemptGiven(source, old(source.calls), profile, limits, r.value, nativeA, nativeB)
    ensures r.Ok? ==> GoodAttempt(r.value, nativeA, nativeB, dropped, limits)
    ensures r.Err? ==> Blamed(source, limits, blame, r.error)
  {
    hide PassOutcome;
    hide Failed;
    hide Collected;
    hide Compared;
    hide HonestPass;
    hide WithinLimits;
    hide PassReasons;
    nativeA, nativeB, dropped, blame := NativeRead([], Complete, [], 0), NativeRead([], Complete, [], 0), [], Nobody;
    total := totalBefore;
    ghost var first := source.calls;
    var startedAt := source.WallClock();
    if startedAt.Err? {
      r, blame := Err(startedAt.error), ClockFailed(first);
      return;
    }
    var passes: Result<(CollectedPass, CollectedPass), ObservationError>;
    passes, total, nativeA, nativeB, blame := CollectPasses(source, profile, limits, total);
    if passes.Err? {
      r := Err(passes.error);
      return;
    }
    var (a, b) := passes.value;
    ghost var second := source.calls;
    var completedAt := source.WallClock();
    if completedAt.Err? {
      r, blame := Err(completedAt.error), ClockFailed(second);
      return;
    }
    if completedAt.value < startedAt.value {
      r, blame := Err(InvalidWallClockInterval), ClockWentBack(first, second);
      return;
    }
    WellFormedPass(nativeA, a);
    WellFormedPass(nativeB, b);
    var merged: Result<CollectedPass, ObservationError>, instability: Instability;
    merged, instability, dropped := CompareAndMerge(a, b);
    if merged.Err? {
      r, blame := Err(merged.error), TooManyDoubts(a, b);
      return;
    }
    r := Ok(AttemptRead(startedAt.value, completedAt.value, a, b, merged.value, instability));
  }

  lemma WellFormedPass(native: NativeRead, p: CollectedPass)
    requires Collected(native, p)
    ensures WellFormed(p)
  {
  }

  method CompareAndMerge(a: CollectedPass, b: CollectedPass)
    returns (r: Result<CollectedPass, ObservationError>, instability: Instability, ghost dropped: seq<Gap>)
    requires WellFormed(a) && WellFormed(b)
    ensures r.Ok? ==> Compared(a, b, r.value, dropped, instability)
    ensures r.Err? ==> Failed(r.error, PassReasons(a) + PassReasons(b) + OwnerCodes())
  {
    hide Merged;
    hide WellFormed;
    hide MarkerMoved;
    hide CountDiffers;
    hide PidsDiffer;
    hide SameIdentities;
    hide PassReasons;
    instability := ComparePasses(a, b);
    r, dropped := MergeAttemptUncertainty(a, b);
    if r.Err? {
      FailedGrows(r.error, PassReasons(a) + PassReasons(b), PassReasons(a) + PassReasons(b) + OwnerCodes());
    }
  }

  /** The attempt begun by this call read two passes that disagree. */
  ghost predicate Disagreed(source: ObservationSource, call: nat, profile: Profile, limits: ObservationLimits,
                            passes: Option<(CollectedPass, CollectedPass)>) {
    && passes.Some? && !PassesAgree(passes.value.0, passes.value.1)
    && source.Read(call + 1, IdentityOnly, limits.optionalMetadataBytes, passes.value.0)
    && source.Read(call + 3, profile, limits.optionalMetadataBytes, passes.value.1)
  }

  lemma Disagreeing(source: ObservationSource, call: nat, profile: Profile, limits: ObservationLimits, t: AttemptRead,
                    nativeA: NativeRead, nativeB: NativeRead, dropped: seq<Gap>)
    requires GoodAttempt(t, nativeA, nativeB, dropped, limits) && !t.instability.IsStable()
    requires AttemptGiven(source, call, profile, limits, t, nativeA, nativeB)
    ensures Disagreed(source, call, profile, limits, Some((t.a, t.b)))
  {
    hide PassesAgree;
    ComparedAttempt(t.a, t.b, t.merged, dropped, t.instability);
  }

  /** Publishing one attempt's reads, with what backs the snapshot or explains the failure. */
  method PublishRead(ghost source: ObservationSource, ghost call: nat, ghost profile: Profile, limits: ObservationLimits,
                     t: AttemptRead, ghost nativeA: NativeRead, ghost nativeB: NativeRead, ghost dropped: seq<Gap>)
    returns (r: Result<Snapshot, ObservationError>, ghost proof: Provenance, ghost blame: Blame)
    requires GoodAttempt(t, nativeA, nativeB, dropped, limits)
    requires AttemptGiven(source, call, profile, limits, t, nativeA, nativeB)
    ensures r.Ok? ==> Backs(proof, limits, r.value) && r.value.startedAt <= r.value.completedAt
    ensures r.Ok? ==> GivenBy(source, profile, limits, proof, r.value)
    ensures r.Ok? ==> (r.value.completeness == SnapshotRaced <==> !t.instability.IsStable())
    ensures r.Err? ==> Blamed(source, limits, blame, r.error)
  {
    hide Attempt;
    hide Compared;
    hide Collected;
    hide HonestPass;
    hide WithinLimits;
    hide Failed;
    hide PassOutcome;
    ghost var entries: ProcessEntries, processGaps: seq<seq<Gap>>;
    r, entries, processGaps := PublishAttempt(t.startedAt, t.completedAt, t.a, t.b, t.merged, dropped, t.instability, limits);
    proof := Provenance(call, nativeA, nativeB, t.a, t.b, t.merged, dropped,
                        if t.instability.IsStable() then None else Some(t.instability), entries, processGaps);
    blame := TooManyDoubts(t.a, t.b);
  }

  /** `collect_consistent_with_limits`: a stable attempt is published at once; only the last
      attempt may be published as raced. */
  method CollectConsistent(source: ObservationSource, profile: Profile, limits: ObservationLimits)
    returns (r: Result<Snapshot, ObservationError>, ghost proof: Option<Provenance>, ghost blame: Blame, ghost attempts: nat,
             ghost retried: Option<(CollectedPass, CollectedPass)>)
    requires source.Honest()
    modifies source
    ensures source.identityReads - old(source.identityReads) <= limits.identityReadsTotal
    ensures source.identityReads - old(source.identityReads) <= attempts * limits.identityReadsPerAttempt
    ensures 1 <= attempts <= 2
    ensures attempts == 2 ==> Disagreed(source, old(source.calls), profile, limits, retried)
    ensures r.Ok? ==> proof.Some? && Backs(proof.value, limits, r.value) && r.value.startedAt <= r.value.completedAt
    ensures r.Ok? ==> GivenBy(source, profile, limits, proof.value, r.value)
    ensures r.Ok? && r.value.completeness == SnapshotRaced ==> attempts == 2
    ensures r.Err? ==> Blamed(source, limits, blame, r.error)
  {
    hide Backs;
    hide GivenBy;
    hide Blamed;
    hide GoodAttempt;
    hide AttemptGiven;
    hide Disagreed;
    proof, blame, attempts, retried := None, Nobody, 0, None;
    var total: nat := 0;
    for attemptIndex := 0 to CONSISTENCY_ATTEMPTS_MAX
      invariant attempts == attemptIndex < CONSISTENCY_ATTEMPTS_MAX  // the last attempt always returns
      invariant total <= limits.identityReadsTotal
      invariant attempts == 0 ==> source.calls == old(source.calls)
      invariant attempts == 1 ==> Disagreed(source, old(source.calls), profile, limits, retried)
      invariant source.identityReads - old(source.identityReads) == total <= attempts * limits.identityReadsPerAttempt
    {
      attempts := attempts + 1;
      var tried: Result<AttemptRead, ObservationError>;
      ghost var nativeA: NativeRead, nativeB: NativeRead, dropped: seq<Gap>;
      ghost var call := source.calls;
      tried, total, nativeA, nativeB, dropped, blame := CollectAttempt(source, profile, limits, total);
      if tried.Err? {
        r := Err(tried.error);
        return;
      }
      var t := tried.value;
      if t.instability.IsStable() || attemptIndex + 1 == CONSISTENCY_ATTEMPTS_MAX {
        ghost var provenance: Provenance;
        r, provenance, blame := PublishRead(source, call, profile, limits, t, nativeA, nativeB, dropped);
        proof := Some(provenance);
        return;
      }
      Disagreeing(source, call, profile, limits, t, nativeA, nativeB, dropped);
      retried := Some((t.a, t.b));
    }
    assert false;
    r := Err(NativeDataMalformed);
  }

  /** What a caller may conclude from a collected snapshot alone. */
  lemma CollectedSnapshotMeaning(p: Provenance, limits: ObservationLimits, s: Snapshot)
    requires Backs(p, limits, s)
    ensures s.completeness == SnapshotComplete <==>
              && PassesAgree(p.a, p.b) && Flawless(p.a) && Flawless(p.b)
              && MetadataFits(VerifiedReads(p.b.processes), limits.optionalMetadataBytes)
    ensures s.completeness == SnapshotRaced <==> !PassesAgree(p.a, p.b)
    ensures |s.sockets| <= limits.sockets && |s.gaps| <= limits.evidenceGaps
    ensures EntryBytes(p.entries) <= limits.optionalMetadataBytes
  {
    CompleteExactly(p.a, p.b, p.merged, p.dropped, p.instability, limits, s, p.entries, p.processGaps);
    PublishedShape(p.merged, p.instability, limits, s, p.entries, p.processGaps);
    assert |p.merged.rows| == |p.b.rows|;
  }

  lemma PublishedShape(pass: CollectedPass, instability: Option<Instability>, limits: ObservationLimits, s: Snapshot,
                       entries: ProcessEntries, processGaps: seq<seq<Gap>>)
    requires Published(pass, instability, limits, s, entries, processGaps)
    ensures |s.sockets| == |pass.rows|
    ensures s.completeness == SnapshotRaced <==> instability.Some?
  {
  }
}

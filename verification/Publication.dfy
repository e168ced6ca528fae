/** `build_snapshot` of `src/observation.rs`: the merged second pass becomes a published
    snapshot, and every doubt leaves a gap or an omission count behind. */
module Publication {
  import opened Orders
  import opened Observation
  import opened NativePass
  import opened PassComparison
  import opened UncertaintyMerge

  // ----- The gap budget

  datatype Evidence = Evidence(gaps: seq<Gap>, omitted: nat)

  /** `push_gap` */
  function PushGap(e: Evidence, gap: Gap, limit: nat): Evidence {
    if |e.gaps| < limit then e.(gaps := e.gaps + [gap]) else e.(omitted := SaturatingAdd(e.omitted, 1))
  }

  function PushAll(e: Evidence, gaps: seq<Gap>, limit: nat): Evidence
    decreases |gaps|
  {
    if gaps == [] then e else PushAll(PushGap(e, gaps[0], limit), gaps[1..], limit)
  }

  lemma {:induction false} PushAllAppend(e: Evidence, x: seq<Gap>, y: seq<Gap>, limit: nat)
    ensures PushAll(e, x + y, limit) == PushAll(PushAll(e, x, limit), y, limit)
    decreases |x|
  {
    if x == [] {
      assert x + y == y;
    } else {
      assert (x + y)[0] == x[0] && (x + y)[1..] == x[1..] + y;
      PushAllAppend(PushGap(e, x[0], limit), x[1..], y, limit);
    }
  }

  function Retained(all: seq<Gap>, limit: nat): seq<Gap> {
    if |all| <= limit then all else all[..limit]
  }

  function Overflow(all: seq<Gap>, limit: nat): nat {
    if |all| <= limit then 0 else |all| - limit
  }

  /** However the pushes interleave, the first `limit` gaps are retained and the rest counted. */
  lemma {:induction false} PushAllKeepsPrefix(omitted: nat, all: seq<Gap>, limit: nat)
    requires omitted <= U64_MAX
    ensures PushAll(Evidence([], omitted), all, limit)
         == Evidence(Retained(all, limit), SaturatingAdd(omitted, Overflow(all, limit)))
  {
    if all != [] {
      var init := all[..|all|-1];
      assert all == init + [all[|all|-1]];
      PushAllAppend(Evidence([], omitted), init, [all[|all|-1]], limit);
      PushAllKeepsPrefix(omitted, init, limit);
      var e := Evidence(Retained(init, limit), SaturatingAdd(omitted, Overflow(init, limit)));
      assert PushAll(e, [all[|all|-1]], limit) == PushAll(PushGap(e, all[|all|-1], limit), [], limit);
    }
  }

  // ----- Gaps the publication adds

  const SOCKET_RACE := "native socket multiplicity changed between consistency passes"
  const OWNER_RACE := "owner edges or process identities changed between consistency passes"
  const OWNER_UNVERIFIED := "native owner PID could not be verified to a process start identity"
  const NATIVE_BUDGET := "optional process metadata exceeded its native allocation budget"
  const RETENTION_BUDGET := "optional process metadata exceeded its retention budget"
  const METADATA_INCOMPLETE := "optional process metadata was incomplete"

  function RacedGaps(i: Option<Instability>): seq<Gap> {
    if i.None? then []
    else
      (if i.value.socketSet then [Gap(SocketSet, ObservationRaced, None, None, None, SOCKET_RACE)] else [])
      + (if i.value.ownership then [Gap(Ownership, ObservationRaced, None, None, None, OWNER_RACE)] else [])
  }

  function UnverifiedCode(r: UnverifiedReason): GapCode {
    match r
    case PermissionDenied => OwnerPermissionDenied
    case Disappeared => OwnerDisappeared
    case IdentityUnavailable => ProcessIdentityUnavailable
    case ReasonRaced => ObservationRaced
  }

  function ReadCompleteness(reason: UnverifiedReason): OwnerCompleteness {
    if reason == ReasonRaced then Raced else Normal(false, {UnverifiedCode(reason)})
  }

  /** The owner observation a table entry turns a PID into. */
  function OwnerOf(processes: seq<(nat, ProcessRead)>, pid: nat): Owner {
    match Lookup(processes, pid)
    case Some(ReadVerified(m, _)) => Verified(ProcessIdentity(pid, m))
    case Some(ReadUnverified(r)) => UnverifiedPid(pid, r)
    case None => UnverifiedPid(pid, IdentityUnavailable)
  }

  function EdgeGap(endpoint: Endpoint, o: Owner): Gap
    requires o.UnverifiedPid?
  {
    Gap(Ownership, UnverifiedCode(o.reason), Some(endpoint), Some(o.pid), None, OWNER_UNVERIFIED)
  }

  /** One gap per owner edge that could not be tied to a process generation. */
  function EdgeGaps(endpoint: Endpoint, processes: seq<(nat, ProcessRead)>, pids: seq<nat>): seq<Gap> {
    if pids == [] then []
    else
      var o := OwnerOf(processes, pids[0]);
      (if o.UnverifiedPid? then [EdgeGap(endpoint, o)] else []) + EdgeGaps(endpoint, processes, pids[1..])
  }

  function SocketGaps(processes: seq<(nat, ProcessRead)>, rows: seq<NativeRow>): seq<Gap> {
    if rows == [] then []
    else EdgeGaps(rows[0].socket.id.endpoint, processes, rows[0].ownerPids) + SocketGaps(processes, rows[1..])
  }

  lemma {:induction false} EdgeGapsAppend(endpoint: Endpoint, processes: seq<(nat, ProcessRead)>, x: seq<nat>, y: seq<nat>)
    ensures EdgeGaps(endpoint, processes, x + y) == EdgeGaps(endpoint, processes, x) + EdgeGaps(endpoint, processes, y)
  {
    if x == [] {
      assert x + y == y;
    } else {
      assert (x + y)[0] == x[0] && (x + y)[1..] == x[1..] + y;
      EdgeGapsAppend(endpoint, processes, x[1..], y);
    }
  }

  lemma {:induction false} SocketGapsAppend(processes: seq<(nat, ProcessRead)>, x: seq<NativeRow>, y: seq<NativeRow>)
    ensures SocketGaps(processes, x + y) == SocketGaps(processes, x) + SocketGaps(processes, y)
  {
    if x == [] {
      assert x + y == y;
    } else {
      assert (x + y)[0] == x[0] && (x + y)[1..] == x[1..] + y;
      SocketGapsAppend(processes, x[1..], y);
    }
  }

  // ----- Sockets

  predicate RacedOwner(owners: seq<Owner>) {
    exists o | o in owners :: o.UnverifiedPid? && o.reason == ReasonRaced
  }

  function OwnerReasons(owners: seq<Owner>): set<GapCode> {
    set o | o in owners && o.UnverifiedPid? && o.reason != ReasonRaced :: UnverifiedCode(o.reason)
  }

  /** How a native row is published: its owners in order, and its doubts joined with theirs. */
  ghost predicate PublishedAs(row: NativeRow, processes: seq<(nat, ProcessRead)>, raced: bool, s: Socket) {
    && s.endpoint == row.socket.id.endpoint && s.state == row.socket.id.state && s.token == row.socket.id.token
    && s.timer == row.socket.timer && s.localUid == row.socket.localUid
    && Sorted(CompareOwner, s.owners)
    && multiset(s.owners) == multiset(Map(pid => OwnerOf(processes, pid), row.ownerPids))
    && (if raced then s.ownerCompleteness == Raced
        else MergeCompleteness(row.completeness, Normal(RacedOwner(s.owners), OwnerReasons(s.owners)))
             == Ok(s.ownerCompleteness))
  }

  lemma ReadCompletenessMeaning(reason: UnverifiedReason)
    ensures ReadCompleteness(reason) == Raced <==> reason == ReasonRaced
    ensures reason != ReasonRaced ==> Reasons(ReadCompleteness(reason)) == {UnverifiedCode(reason)}
  {
    NormalMeaning(false, {UnverifiedCode(reason)});
  }

  lemma OwnerDoubtsPermute(x: seq<Owner>, y: seq<Owner>)
    requires multiset(x) == multiset(y)
    ensures RacedOwner(x) == RacedOwner(y) && OwnerReasons(x) == OwnerReasons(y)
  {
    assert forall o :: o in x <==> o in multiset(y);
    assert forall o :: o in y <==> o in multiset(x);
  }

  function Owners(processes: seq<(nat, ProcessRead)>, pids: seq<nat>): seq<Owner> {
    Map(pid => OwnerOf(processes, pid), pids)
  }

  function LocalDoubts(owners: seq<Owner>): OwnerCompleteness {
    Normal(RacedOwner(owners), OwnerReasons(owners))
  }

  /** One more owner joins its doubts to those before it. */
  method JoinOwner(was: seq<Owner>, owner: Owner, local: OwnerCompleteness)
    returns (r: Result<OwnerCompleteness, ObservationError>)
    requires local == LocalDoubts(was)
    ensures r == Ok(LocalDoubts(was + [owner]))
  {
    if owner.Verified? {
      assert RacedOwner(was + [owner]) == RacedOwner(was);
      assert OwnerReasons(was + [owner]) == OwnerReasons(was);
      return Ok(local);
    }
    r := MergeCompleteness(local, ReadCompleteness(owner.reason));
    FewOwnerCodes(was, owner.reason);
    MergeIsJoin(local, ReadCompleteness(owner.reason));
    JoinedDoubts(was, owner, local, ReadCompleteness(owner.reason));
  }

  /** The reasons an unverified owner can give. */
  function OwnerCodes(): set<GapCode> {
    {OwnerPermissionDenied, OwnerDisappeared, ProcessIdentityUnavailable}
  }

  /** Three reasons always fit: joining owners never fails. */
  lemma FewOwnerCodes(was: seq<Owner>, reason: UnverifiedReason)
    ensures Reasons(LocalDoubts(was)) <= OwnerCodes() && Reasons(ReadCompleteness(reason)) <= OwnerCodes()
    ensures MergeCompleteness(LocalDoubts(was), ReadCompleteness(reason)).Ok?
  {
    NormalReasons(RacedOwner(was), OwnerReasons(was));
    ReadCompletenessMeaning(reason);
    hide Normal;
    hide ReadCompleteness;
    if MergeCompleteness(LocalDoubts(was), ReadCompleteness(reason)).Err? {
      MergeFailsWithin(LocalDoubts(was), ReadCompleteness(reason), OwnerCodes());
      assert false;
    }
  }

  method ReadOwners(endpoint: Endpoint, pids: seq<nat>, processes: seq<(nat, ProcessRead)>, evidence: Evidence, limit: nat)
    returns (r: Result<OwnerCompleteness, ObservationError>, owners: seq<Owner>, e: Evidence)
    ensures && owners == Owners(processes, pids) && r == Ok(LocalDoubts(owners))
            && e == PushAll(evidence, EdgeGaps(endpoint, processes, pids), limit)
  {
    hide LocalDoubts;
    hide OwnerOf;
    owners, e := [], evidence;
    var local: OwnerCompleteness := Complete;
    assert local == LocalDoubts([]) by { NoDoubts(); }
    for i := 0 to |pids|
      invariant owners == Owners(processes, pids[..i])
      invariant local == LocalDoubts(owners)
      invariant e == PushAll(evidence, EdgeGaps(endpoint, processes, pids[..i]), limit)
    {
      assert pids[..i+1] == pids[..i] + [pids[i]];
      MapAppend(pid => OwnerOf(processes, pid), pids[..i], [pids[i]]);
      EdgeGapsAppend(endpoint, processes, pids[..i], [pids[i]]);
      PushAllAppend(evidence, EdgeGaps(endpoint, processes, pids[..i]), EdgeGaps(endpoint, processes, [pids[i]]), limit);
      var owner := OwnerOf(processes, pids[i]);
      var joined := JoinOwner(owners, owner, local);
      owners, local := owners + [owner], joined.value;
      if owner.UnverifiedPid? {
        assert EdgeGaps(endpoint, processes, [pids[i]]) == [EdgeGap(endpoint, owner)];
        e := PushGap(e, EdgeGap(endpoint, owner), limit);
      }
    }
    assert pids[..|pids|] == pids;
    r := Ok(local);
  }

  lemma NoDoubts()
    ensures LocalDoubts([]) == Complete
  {
    assert OwnerReasons([]) == {};
  }

  lemma LocalWithin(owners: seq<Owner>)
    ensures Reasons(LocalDoubts(owners)) <= OwnerCodes()
  {
    FewOwnerCodes(owners, ReasonRaced);
  }

  method MaterializeSocket(row: NativeRow, processes: seq<(nat, ProcessRead)>, raced: bool,
                           evidence: Evidence, limit: nat)
    returns (r: Result<Socket, ObservationError>, e: Evidence)
    requires forall pid | pid in row.ownerPids :: Lookup(processes, pid).Some?
    ensures r.Ok? ==> PublishedAs(row, processes, raced, r.value)
    ensures r.Ok? ==> e == PushAll(evidence, EdgeGaps(row.socket.id.endpoint, processes, row.ownerPids), limit)
    ensures r.Err? ==> Failed(r.error, Reasons(row.completeness) + OwnerCodes())
  {
    hide Lookup;
    hide MergeCompleteness;
    hide Normal;
    var local: Result<OwnerCompleteness, ObservationError>;
    var owners: seq<Owner>;
    local, owners, e := ReadOwners(row.socket.id.endpoint, row.ownerPids, processes, evidence, limit);
    LocalWithin(owners);
    OwnerLawful();
    SortSorts(CompareOwner, owners);
    OwnerDoubtsPermute(owners, Sort(CompareOwner, owners));
    owners := Sort(CompareOwner, owners);
    var completeness := MergeCompleteness(row.completeness, local.value);
    if !raced && completeness.Err? {
      MergeFailsWithin(row.completeness, local.value, Reasons(row.completeness) + OwnerCodes());
      return Err(completeness.error), e;
    }
    r := Ok(Socket(row.socket.id.endpoint, row.socket.id.state, row.socket.timer, owners,
                   if raced then Raced else completeness.value, row.socket.id.token, row.socket.localUid));
  }

  lemma JoinedDoubts(was: seq<Owner>, owner: Owner, local: OwnerCompleteness, extra: OwnerCompleteness)
    requires owner.UnverifiedPid? && extra == ReadCompleteness(owner.reason)
    requires local == Normal(RacedOwner(was), OwnerReasons(was))
    ensures Normal(local == Raced || extra == Raced, Reasons(local) + Reasons(extra))
         == Normal(RacedOwner(was + [owner]), OwnerReasons(was + [owner]))
  {
    hide SortedReasons;
    NormalMeaning(RacedOwner(was), OwnerReasons(was));
    ReadCompletenessMeaning(owner.reason);
    assert RacedOwner(was + [owner]) <==> RacedOwner(was) || owner.reason == ReasonRaced;
    if !RacedOwner(was + [owner]) {
      assert OwnerReasons(was + [owner]) == OwnerReasons(was) + {UnverifiedCode(owner.reason)};
    }
  }

  lemma NoSocketGaps(processes: seq<(nat, ProcessRead)>, evidence: Evidence, limit: nat)
    ensures PushAll(evidence, SocketGaps(processes, []), limit) == evidence
  {
  }

  method MaterializeSockets(pass: CollectedPass, instability: Option<Instability>, evidence: Evidence, limit: nat)
    returns (r: Result<seq<Socket>, ObservationError>, e: Evidence)
    requires WellFormed(pass)
    ensures r.Ok? ==>
              && |r.value| == |pass.rows|
              && (forall k | 0 <= k < |pass.rows| ::
                    PublishedAs(pass.rows[k], pass.processes, IsAffected(instability, pass.rows[k]), r.value[k]))
              && e == PushAll(evidence, SocketGaps(pass.processes, pass.rows), limit)
    ensures r.Err? ==> Failed(r.error, AllReasons(pass.rows) + OwnerCodes())
  {
    hide PublishedAs;
    hide Lookup;
    hide PushAll;
    hide EdgeGaps;
    hide SocketGaps;
    NoSocketGaps(pass.processes, evidence, limit);
    e := evidence;
    var sockets := [];
    for i := 0 to |pass.rows|
      invariant |sockets| == i
      invariant forall k | 0 <= k < i ::
                  PublishedAs(pass.rows[k], pass.processes, IsAffected(instability, pass.rows[k]), sockets[k])
      invariant e == PushAll(evidence, SocketGaps(pass.processes, pass.rows[..i]), limit)
    {
      var row := pass.rows[i];
      NextSocketGaps(pass, i, evidence, limit);
      var s: Result<Socket, ObservationError>;
      s, e := MaterializeSocket(row, pass.processes, IsAffected(instability, row), e, limit);
      if s.Err? {
        RowReasonsWithin(pass.rows, row);
        FailedGrows(s.error, Reasons(row.completeness) + OwnerCodes(), AllReasons(pass.rows) + OwnerCodes());
        return Err(s.error), e;
      }
      sockets := sockets + [s.value];
    }
    assert pass.rows[..|pass.rows|] == pass.rows;
    r := Ok(sockets);
  }

  /** What publishing one more row adds to the evidence. */
  lemma NextSocketGaps(pass: CollectedPass, i: nat, evidence: Evidence, limit: nat)
    requires WellFormed(pass) && i < |pass.rows|
    ensures var row := pass.rows[i];
      && (forall pid | pid in row.ownerPids :: Lookup(pass.processes, pid).Some?)
      && PushAll(evidence, SocketGaps(pass.processes, pass.rows[..i+1]), limit)
         == PushAll(PushAll(evidence, SocketGaps(pass.processes, pass.rows[..i]), limit),
                    EdgeGaps(row.socket.id.endpoint, pass.processes, row.ownerPids), limit)
  {
    var row := pass.rows[i];
    forall pid | pid in row.ownerPids ensures Lookup(pass.processes, pid).Some? {
      KnownPid(pass, i, pid);
    }
    hide Lookup;
    hide WellFormed;
    hide EdgeGaps;
    assert pass.rows[..i+1] == pass.rows[..i] + [row];
    SocketGapsAppend(pass.processes, pass.rows[..i], [row]);
    assert SocketGaps(pass.processes, [row]) == EdgeGaps(row.socket.id.endpoint, pass.processes, row.ownerPids);
    PushAllAppend(evidence, SocketGaps(pass.processes, pass.rows[..i]), SocketGaps(pass.processes, [row]), limit);
  }

  predicate IsAffected(instability: Option<Instability>, row: NativeRow) {
    instability.Some? && row.socket.id in instability.value.affected
  }

  lemma KnownPid(pass: CollectedPass, i: nat, pid: nat)
    requires WellFormed(pass) && i < |pass.rows| && pid in pass.rows[i].ownerPids
    ensures Lookup(pass.processes, pid).Some?
  {
    assert pid in RowPids(pass.rows);
    var k :| 0 <= k < |EntryPids(pass.processes)| && EntryPids(pass.processes)[k] == pid;
    assert pass.processes[k].0 == pid;
  }

  // ----- Process metadata

  /** A field survives when it is short enough and still fits the aggregate budget. */
  predicate Fits(length: nat, fieldMax: nat, retained: nat, budget: nat) {
    length <= fieldMax && retained + length <= budget
  }

  function Length(field: Option<nat>): nat {
    if field.Some? then field.value else 0
  }

  function RetainField(field: Option<nat>, fieldMax: nat, retained: nat, budget: nat): Option<nat> {
    if field.Some? && Fits(field.value, fieldMax, retained, budget) then field else None
  }

  function MetadataBytes(p: Process): nat {
    Length(p.name) + Length(p.executablePath) + Length(p.parentProcessName) + Length(p.commandLine)
  }

  function LostFields(before: Process, after: Process): nat {
    (if before.name != after.name then 1 else 0)
    + (if before.executablePath != after.executablePath then 1 else 0)
    + (if before.parentProcessName != after.parentProcessName then 1 else 0)
    + (if before.commandLine != after.commandLine then 1 else 0)
  }

  function BudgetGap(pid: nat): Gap {
    Gap(Metadata, NoncriticalEvidenceTruncated, None, Some(pid), None, RETENTION_BUDGET)
  }

  function NativeBudgetGap(pid: nat): Gap {
    Gap(Metadata, NoncriticalEvidenceTruncated, None, Some(pid), None, NATIVE_BUDGET)
  }

  function IncompleteGap(pid: nat): Gap {
    Gap(Metadata, ProcessMetadataUnavailable, None, Some(pid), None, METADATA_INCOMPLETE)
  }

  function Repeat(g: Gap, n: nat): seq<Gap> {
    seq(n, _ => g)
  }

  /** Fields only ever disappear, and a process that lost one says so. */
  ghost predicate Trimmed(before: Process, after: Process) {
    && (after.name == before.name || after.name == None)
    && (after.executablePath == before.executablePath || after.executablePath == None)
    && (after.parentProcessName == before.parentProcessName || after.parentProcessName == None)
    && (after.commandLine == before.commandLine || after.commandLine == None)
    && after.parentPid == before.parentPid
    && (LostFields(before, after) == 0 ==> after == before)
    && (LostFields(before, after) > 0 ==> after.budgetExceeded && after.metadata == MetadataPartial)
  }

  /** The fields compete for the budget in a fixed order, each against what the earlier ones
      left; a process that loses one is marked. */
  function KeptProcess(before: Process, retained: nat, budget: nat): Process {
    var name := RetainField(before.name, PROCESS_NAME_MAX_BYTES, retained, budget);
    var afterName := retained + Length(name);
    var path := RetainField(before.executablePath, EXECUTABLE_PATH_MAX_BYTES, afterName, budget);
    var afterPath := afterName + Length(path);
    var parent := RetainField(before.parentProcessName, PROCESS_NAME_MAX_BYTES, afterPath, budget);
    var command := RetainField(before.commandLine, PROCESS_COMMAND_LINE_MAX_BYTES, afterPath + Length(parent), budget);
    var after := before.(name := name, executablePath := path, parentProcessName := parent, commandLine := command);
    if LostFields(before, after) == 0 then after else after.(budgetExceeded := true, metadata := MetadataPartial)
  }

  lemma KeptTrimmed(before: Process, retained: nat, budget: nat)
    ensures Trimmed(before, KeptProcess(before, retained, budget))
  {
    hide Fits;
  }

  /** One `retain_field!` expansion, on the field's current value. */
  method Retain(field: Option<nat>, fieldMax: nat, retained: nat, budget: nat, pid: nat, evidence: Evidence, limit: nat)
    returns (kept: Option<nat>, lost: bool, total: nat, e: Evidence)
    ensures kept == RetainField(field, fieldMax, retained, budget) && (lost <==> kept != field)
    ensures total == retained + Length(kept) && (retained <= budget ==> total <= budget)
    ensures e == PushAll(evidence, Once(BudgetGap(pid), lost), limit)
  {
    kept, lost, total, e := field, false, retained, evidence;
    if field.Some? {
      if Fits(field.value, fieldMax, retained, budget) {
        total := retained + field.value;
      } else {
        kept, lost := None, true;
        e := PushGap(evidence, BudgetGap(pid), limit);
        assert PushAll(e, [], limit) == e;
      }
    }
  }

  /** `apply_process_metadata_budget` */
  method ApplyProcessMetadataBudget(pid: nat, process: Process, retained: nat, budget: nat, evidence: Evidence, limit: nat)
    returns (p: Process, total: nat, e: Evidence)
    ensures Trimmed(process, p)
    ensures p == KeptProcess(process, retained, budget)
    ensures total == retained + MetadataBytes(p) && (retained <= budget ==> total <= budget)
    ensures e == PushAll(evidence, Repeat(BudgetGap(pid), LostFields(process, p)), limit)
  {
    var name, lostName, t1, e1 := Retain(process.name, PROCESS_NAME_MAX_BYTES, retained, budget, pid, evidence, limit);
    var path, lostPath, t2, e2 := Retain(process.executablePath, EXECUTABLE_PATH_MAX_BYTES, t1, budget, pid, e1, limit);
    var parent, lostParent, t3, e3 :=
      Retain(process.parentProcessName, PROCESS_NAME_MAX_BYTES, t2, budget, pid, e2, limit);
    var command, lostCommand, t4, e4 :=
      Retain(process.commandLine, PROCESS_COMMAND_LINE_MAX_BYTES, t3, budget, pid, e3, limit);
    p := process.(name := name, executablePath := path, parentProcessName := parent, commandLine := command);
    KeptTrimmed(process, retained, budget);
    hide RetainField;
    hide Trimmed;
    if lostName || lostPath || lostParent || lostCommand {
      p := p.(budgetExceeded := true, metadata := MetadataPartial);
    }
    total, e := t4, e4;
    RepeatAll(evidence, BudgetGap(pid), lostName, lostPath, lostParent, lostCommand, limit);
  }

  function Once(g: Gap, x: bool): seq<Gap> {
    Repeat(g, if x then 1 else 0)
  }

  lemma RepeatAll(e: Evidence, g: Gap, a: bool, b: bool, c: bool, d: bool, limit: nat)
    ensures PushAll(PushAll(PushAll(PushAll(e, Once(g, a), limit), Once(g, b), limit), Once(g, c), limit), Once(g, d), limit)
         == PushAll(e, Once(g, a) + Once(g, b) + Once(g, c) + Once(g, d), limit)
    ensures Once(g, a) + Once(g, b) + Once(g, c) + Once(g, d)
         == Repeat(g, (if a then 1 else 0) + (if b then 1 else 0) + (if c then 1 else 0) + (if d then 1 else 0))
  {
    hide PushAll;
    PushAllAppend(e, Once(g, a), Once(g, b), limit);
    PushAllAppend(e, Once(g, a) + Once(g, b), Once(g, c), limit);
    PushAllAppend(e, Once(g, a) + Once(g, b) + Once(g, c), Once(g, d), limit);
  }

  type ProcessEntries = seq<(ProcessIdentity, Process)>

  function EntryBytes(entries: ProcessEntries): nat {
    if entries == [] then 0 else EntryBytes(entries[..|entries|-1]) + MetadataBytes(entries[|entries|-1].1)
  }

  /** The gaps one verified process leaves, in the order they are pushed. */
  function ProcessGaps(pid: nat, before: Process, after: Process): seq<Gap> {
    (if before.budgetExceeded then [NativeBudgetGap(pid)] else [])
    + Repeat(BudgetGap(pid), LostFields(before, after))
    + (if after.metadata == MetadataPartial && !after.budgetExceeded then [IncompleteGap(pid)] else [])
  }

  function IsVerifiedRead(): ((nat, ProcessRead)) -> bool {
    (e: (nat, ProcessRead)) => e.1.ReadVerified?
  }

  function VerifiedReads(processes: seq<(nat, ProcessRead)>): seq<(nat, ProcessRead)> {
    Filter(IsVerifiedRead(), processes)
  }

  function Identities(entries: ProcessEntries): set<ProcessIdentity> {
    set e | e in entries :: e.0
  }

  /** Each verified read is judged against the budget the entries before it left. */
  ghost predicate KeptInOrder(verified: seq<(nat, ProcessRead)>, entries: ProcessEntries, budget: nat)
    requires |verified| == |entries|
  {
    verified == [] ||
    var n := |verified| - 1;
    && verified[n].1.ReadVerified?
    && entries[n].1 == KeptProcess(verified[n].1.observation, EntryBytes(entries[..n]), budget)
    && KeptInOrder(verified[..n], entries[..n], budget)
  }

  /** What the retained entries say about the verified reads they came from. */
  ghost predicate EntriesOf(verified: seq<(nat, ProcessRead)>, entries: ProcessEntries, gaps: seq<seq<Gap>>,
                            budget: nat) {
    && |entries| == |verified| == |gaps|
    && KeptInOrder(verified, entries, budget)
    && forall i | 0 <= i < |verified| ::
         && verified[i].1.ReadVerified?
         && entries[i].0 == ProcessIdentity(verified[i].0, verified[i].1.marker)
         && Trimmed(verified[i].1.observation, entries[i].1)
         && gaps[i] == ProcessGaps(verified[i].0, verified[i].1.observation, entries[i].1)
  }

  function Flatten(gaps: seq<seq<Gap>>): seq<Gap> {
    if gaps == [] then [] else Flatten(gaps[..|gaps|-1]) + gaps[|gaps|-1]
  }

  lemma NoEntries(budget: nat)
    ensures EntriesOf([], [], [], budget) && EntryBytes([]) == 0 && Flatten([]) == []
  {
  }

  lemma EntriesExtend(verified: seq<(nat, ProcessRead)>, entries: ProcessEntries, gaps: seq<seq<Gap>>,
                      read: (nat, ProcessRead), kept: Process, own: seq<Gap>, budget: nat)
    requires EntriesOf(verified, entries, gaps, budget) && read.1.ReadVerified?
    requires kept == KeptProcess(read.1.observation, EntryBytes(entries), budget)
    requires Trimmed(read.1.observation, kept) && own == ProcessGaps(read.0, read.1.observation, kept)
    ensures EntriesOf(verified + [read], entries + [(ProcessIdentity(read.0, read.1.marker), kept)], gaps + [own],
                      budget)
    ensures Flatten(gaps + [own]) == Flatten(gaps) + own
    ensures EntryBytes(entries + [(ProcessIdentity(read.0, read.1.marker), kept)]) == EntryBytes(entries) + MetadataBytes(kept)
  {
    hide Trimmed;
    hide ProcessGaps;
    hide MetadataBytes;
    hide KeptProcess;
    assert (gaps + [own])[..|gaps|] == gaps;
    var entry := (ProcessIdentity(read.0, read.1.marker), kept);
    assert (entries + [entry])[..|entries|] == entries;
    assert (verified + [read])[..|verified|] == verified;
  }

  /** `materialize_processes`: the aggregate budget holds over all processes together. */
  method MaterializeProcesses(processes: seq<(nat, ProcessRead)>, evidence: Evidence, limits: ObservationLimits)
    returns (table: map<ProcessIdentity, Process>, e: Evidence, ghost entries: ProcessEntries, ghost gaps: seq<seq<Gap>>)
    ensures EntriesOf(VerifiedReads(processes), entries, gaps, limits.optionalMetadataBytes)
    ensures EntryBytes(entries) <= limits.optionalMetadataBytes
    ensures e == PushAll(evidence, Flatten(gaps), limits.evidenceGaps)
    ensures table.Keys == Identities(entries)
    ensures forall identity | identity in table :: (identity, table[identity]) in entries
  {
    hide Trimmed;
    hide ProcessGaps;
    hide MetadataBytes;
    hide EntriesOf;
    hide EntryBytes;
    hide Flatten;
    hide KeptProcess;
    NoEntries(limits.optionalMetadataBytes);
    table, e, entries, gaps := map[], evidence, [], [];
    var limit := limits.evidenceGaps;
    var retained := 0;
    for i := 0 to |processes|
      invariant EntriesOf(VerifiedReads(processes[..i]), entries, gaps, limits.optionalMetadataBytes)
      invariant EntryBytes(entries) == retained <= limits.optionalMetadataBytes
      invariant e == PushAll(evidence, Flatten(gaps), limit)
      invariant table.Keys == Identities(entries)
      invariant forall identity | identity in table :: (identity, table[identity]) in entries
    {
      assert processes[..i+1] == processes[..i] + [processes[i]];
      FilterAppend(IsVerifiedRead(), processes[..i], [processes[i]]);
      assert VerifiedReads(processes[..i+1])
          == if processes[i].1.ReadVerified? then VerifiedReads(processes[..i]) + [processes[i]]
             else VerifiedReads(processes[..i]);
      var (pid, read) := processes[i];
      if read.ReadVerified? {
        var kept: Process;
        ghost var own: seq<Gap>;
        kept, retained, e, own := MaterializeProcess(pid, read.observation, retained, limits, e);
        var identity := ProcessIdentity(pid, read.marker);
        PushAllAppend(evidence, Flatten(gaps), own, limit);
        EntriesExtend(VerifiedReads(processes[..i]), entries, gaps, processes[i], kept, own,
                      limits.optionalMetadataBytes);
        gaps := gaps + [own];
        entries := entries + [(identity, kept)];
        table := table[identity := kept];
      }
    }
    assert processes[..|processes|] == processes;
  }

  method MaterializeProcess(pid: nat, observation: Process, retained: nat, limits: ObservationLimits, evidence: Evidence)
    returns (kept: Process, total: nat, e: Evidence, ghost own: seq<Gap>)
    ensures Trimmed(observation, kept) && own == ProcessGaps(pid, observation, kept)
    ensures kept == KeptProcess(observation, retained, limits.optionalMetadataBytes)
    ensures total == retained + MetadataBytes(kept)
    ensures retained <= limits.optionalMetadataBytes ==> total <= limits.optionalMetadataBytes
    ensures e == PushAll(evidence, own, limits.evidenceGaps)
  {
    hide KeptProcess;
    var limit := limits.evidenceGaps;
    e := evidence;
    ghost var first: seq<Gap> := [];
    if observation.budgetExceeded {
      e := PushGap(e, NativeBudgetGap(pid), limit);
      first := [NativeBudgetGap(pid)];
    }
    assert e == PushAll(evidence, first, limit);
    kept, total, e := ApplyProcessMetadataBudget(pid, observation, retained, limits.optionalMetadataBytes, e, limit);
    ghost var second := Repeat(BudgetGap(pid), LostFields(observation, kept));
    PushAllAppend(evidence, first, second, limit);
    ghost var third: seq<Gap> := [];
    if kept.metadata == MetadataPartial && !kept.budgetExceeded {
      e := PushGap(e, IncompleteGap(pid), limit);
      third := [IncompleteGap(pid)];
    }
    PushAllAppend(evidence, first + second, third, limit);
    own := first + second + third;
  }
}

/** One native read of the socket table (`collect_pass` of `src/observation.rs`): rows,
    process reads, and the canonical order both passes are compared in. */
module NativePass {
  import opened Orders
  import opened Observation

  datatype ObservationError =
    | NativeDataMalformed | SocketObservationLimitExceeded | ProcessIdentityLimitExceeded
    | OwnerAttributionLimitExceeded | OwnerReasonLimitExceeded | InvalidWallClockInterval
    | PartialSocketSet | ObservationRacedError | SourceError(code: nat)

  /** What makes two native sockets the same one; timer and UID do not. */
  datatype SocketId = SocketId(endpoint: Endpoint, state: SocketState, token: Option<Token>)

  datatype NativeSocket = NativeSocket(id: SocketId, timer: Option<Timer>, localUid: Option<nat>)

  datatype NativeRow = NativeRow(socket: NativeSocket, ownerPids: seq<nat>, completeness: OwnerCompleteness)

  datatype ProcessRead = ReadVerified(marker: StartMarker, observation: Process) | ReadUnverified(reason: UnverifiedReason)

  datatype NativeRead = NativeRead(rows: seq<NativeRow>, globalCompleteness: OwnerCompleteness,
                                   gaps: seq<Gap>, omittedGaps: nat)

  datatype CollectedPass = CollectedPass(rows: seq<NativeRow>, globalCompleteness: OwnerCompleteness,
                                         gaps: seq<Gap>, processes: seq<(nat, ProcessRead)>, omittedGaps: nat)

  datatype Profile = IdentityOnly | Display | LegacyList

  datatype ObservationLimits = ObservationLimits(sockets: nat, candidatePids: nat, ownerEdges: nat,
                                                 identityReadsPerAttempt: nat, identityReadsTotal: nat,
                                                 evidenceGaps: nat, optionalMetadataBytes: nat)

  /** The states the adapters give a socket: a TCP socket is never merely bound, and a UDP
      socket has no other state. */
  predicate BuiltState(id: SocketId) {
    if id.endpoint.protocol == Tcp then id.state != Bound else id.state == Bound
  }

  ghost predicate BuiltStates(read: NativeRead) {
    forall row | row in read.rows :: BuiltState(row.socket.id)
  }

  // ----- Row order

  /** The derived order of endpoints: protocol, address, port, scope. */
  function CompareEndpointOrd(l: Endpoint, r: Endpoint): Ordering {
    CompareProtocol(l.protocol, r.protocol)
    .Then(CompareAddress(l.address, r.address))
    .Then(CompareInt(l.port, r.port))
    .Then(CompareOption(CompareScope, l.scope, r.scope))
  }

  function CompareId(l: SocketId, r: SocketId): Ordering {
    CompareEndpointOrd(l.endpoint, r.endpoint)
    .Then(CompareState(l.state, r.state))
    .Then(CompareOption(CompareTokenValue, l.token, r.token))
  }

  function CompareRow(l: NativeRow, r: NativeRow): Ordering {
    CompareId(l.socket.id, r.socket.id)
    .Then(CompareSeq(CompareNat, l.ownerPids, r.ownerPids))
    .Then(CompareCompleteness(l.completeness, r.completeness))
    .Then(CompareOption(CompareTimer, l.socket.timer, r.socket.timer))
  }

  lemma EndpointOrdLawful(x: Endpoint, y: Endpoint, z: Endpoint)
    ensures LawfulAt(CompareEndpointOrd, x, y, z)
  {
    assert LawfulAt(OnOptions(CompareScope), x.scope, y.scope, z.scope) by { ScopeLawful(); }
    AddressLawful(x.address, y.address, z.address);
    hide CompareOption;
    hide CompareAddress;
    var protocol := Compared(CompareProtocol, x.protocol, y.protocol, z.protocol);
    var address := Compared(CompareAddress, x.address, y.address, z.address);
    var port := Compared<int>(CompareInt, x.port, y.port, z.port);
    var scope := Compared(OnOptions(CompareScope), x.scope, y.scope, z.scope);
    ThenLawful(protocol, address);
    ThenLawful(protocol.Then(address), port);
    ThenLawful(protocol.Then(address).Then(port), scope);
    assert Compared(CompareEndpointOrd, x, y, z) == protocol.Then(address).Then(port).Then(scope);
  }

  lemma EndpointOrdSeparates(x: Endpoint, y: Endpoint)
    ensures CompareEndpointOrd(x, y) == Equal <==> x == y
  {
    assert CompareOption(CompareScope, x.scope, y.scope) == Equal <==> x.scope == y.scope by { ScopeLawful(); }
    AddressLawful(x.address, y.address, y.address);
    hide CompareOption;
    hide CompareAddress;
  }

  lemma TokenLawful()
    ensures Lawful(OnOptions(CompareTokenValue))
  {
    forall x, y, z ensures LawfulAt(CompareTokenValue, x, y, z) {}
    OptionLawful(CompareTokenValue);
  }

  lemma IdLawfulAt(x: SocketId, y: SocketId, z: SocketId)
    ensures LawfulAt(CompareId, x, y, z)
  {
    EndpointOrdLawful(x.endpoint, y.endpoint, z.endpoint);
    assert LawfulAt(CompareState, x.state, y.state, z.state) by { StateLawful(); }
    assert LawfulAt(OnOptions(CompareTokenValue), x.token, y.token, z.token) by { TokenLawful(); }
    hide CompareEndpointOrd;
    hide CompareState;
    hide CompareOption;
  }

  /** Rows compare as the same socket exactly when their identities are equal. */
  lemma IdSeparates(x: SocketId, y: SocketId)
    ensures CompareId(x, y) == Equal <==> x == y
  {
    EndpointOrdSeparates(x.endpoint, y.endpoint);
    assert CompareState(x.state, y.state) == Equal <==> x.state == y.state by { StateLawful(); }
    hide CompareEndpointOrd;
    hide CompareState;
  }

  lemma PidSeqsLawful()
    ensures Lawful(OnSeqs(CompareNat)) && Lawful(CompareNat)
  {
    OptionNatLawful();
    SeqLawful(CompareNat);
  }

  lemma RowLawfulAt(x: NativeRow, y: NativeRow, z: NativeRow)
    ensures LawfulAt(CompareRow, x, y, z)
  {
    hide CompareId;
    hide CompareSeq;
    hide CompareCompleteness;
    hide CompareOption;
    IdLawfulAt(x.socket.id, y.socket.id, z.socket.id);
    assert LawfulAt(OnSeqs(CompareNat), x.ownerPids, y.ownerPids, z.ownerPids) by { PidSeqsLawful(); }
    assert LawfulAt(CompareCompleteness, x.completeness, y.completeness, z.completeness) by { CompletenessLawful(); }
    assert LawfulAt(OnOptions(CompareTimer), x.socket.timer, y.socket.timer, z.socket.timer) by { TimerLawful(); }
  }

  lemma RowLawful()
    ensures Lawful(CompareRow)
  {
    hide CompareRow;
    forall x, y, z ensures LawfulAt(CompareRow, x, y, z) { RowLawfulAt(x, y, z); }
  }

  /** Rows grouped by socket identity, in identity order. */
  ghost predicate GroupedRows(rows: seq<NativeRow>) {
    forall i, j | 0 <= i < j < |rows| :: CompareId(rows[i].socket.id, rows[j].socket.id) != Greater
  }

  lemma SortedRowsGrouped(rows: seq<NativeRow>)
    requires Sorted(CompareRow, rows)
    ensures GroupedRows(rows)
  {
  }

  // ----- Process reads

  ghost predicate StrictlyAscending(pids: seq<nat>) {
    forall i, j | 0 <= i < j < |pids| :: pids[i] < pids[j]
  }

  function EntryPids(entries: seq<(nat, ProcessRead)>): seq<nat> {
    Map((e: (nat, ProcessRead)) => e.0, entries)
  }

  /** `ProcessReadTable::get`; the table's PIDs are unique, so any search finds the same entry. */
  function Lookup(entries: seq<(nat, ProcessRead)>, pid: nat): (r: Option<ProcessRead>)
    ensures r.None? <==> forall i | 0 <= i < |entries| :: entries[i].0 != pid
    ensures r.Some? ==> exists i | 0 <= i < |entries| :: entries[i] == (pid, r.value)
  {
    if entries == [] then None
    else if entries[0].0 == pid then Some(entries[0].1)
    else
      var r := Lookup(entries[1..], pid);
      assert forall i | 0 <= i < |entries[1..]| :: entries[1..][i] == entries[i+1];
      r
  }

  function Marker(entries: seq<(nat, ProcessRead)>, pid: nat): Option<StartMarker> {
    match Lookup(entries, pid)
    case Some(ReadVerified(m, _)) => Some(m)
    case _ => None
  }

  function RowPids(rows: seq<NativeRow>): set<nat> {
    set i, pid | 0 <= i < |rows| && pid in rows[i].ownerPids :: pid
  }

  function OwnerEdges(rows: seq<NativeRow>): nat {
    if rows == [] then 0 else OwnerEdges(rows[..|rows|-1]) + |rows[|rows|-1].ownerPids|
  }

  function SortPids(row: NativeRow): NativeRow {
    row.(ownerPids := Sort(CompareNat, row.ownerPids))
  }

  /** `p` is what one native read and its process reads look like once canonicalized. */
  ghost predicate Collected(native: NativeRead, p: CollectedPass) {
    && multiset(p.rows) == multiset(Map(SortPids, native.rows))
    && p.globalCompleteness == native.globalCompleteness
    && p.gaps == native.gaps && p.omittedGaps == native.omittedGaps
    && WellFormed(p)
  }

  ghost predicate WellFormed(p: CollectedPass) {
    && GroupedRows(p.rows)
    && StrictlyAscending(EntryPids(p.processes))
    && (forall pid :: pid in RowPids(p.rows) <==> pid in EntryPids(p.processes))
    && |p.gaps| <= EVIDENCE_GAPS_MAX
  }
}

/** The public snapshot document of `src/public_output.rs`, up to the sequence of records it
    serializes: sorted, truncated and deduplicated so that equal content gives equal output. */
module PublicOutput {
  import opened Orders
  import opened Observation
  import SocketOrder
  import Display

  const EVIDENCE_MESSAGE_MAX_BYTES: nat := 512

  datatype OutputError = InvalidWallClockInterval | ClockUnavailable | CountOutOfRange | OwnerReasonLimitExceeded | Unencodable
                       | InvalidTimer

  // ----- Owner sets

  /** Position of the reason's serialized name in byte order; a verified owner has the empty name. */
  function ReasonNameRank(o: Owner): int {
    match o
    case Verified(_) => -1
    case UnverifiedPid(_, ReasonRaced) => 0
    case UnverifiedPid(_, Disappeared) => 1
    case UnverifiedPid(_, PermissionDenied) => 2
    case UnverifiedPid(_, IdentityUnavailable) => 3
  }

  /** `compare_owner_observation`: kind, pid, start marker, reason name. */
  function ComparePublicOwner(l: Owner, r: Owner): Ordering {
    CompareInt(if l.Verified? then 0 else 1, if r.Verified? then 0 else 1)
    .Then(CompareInt(OwnerPid(l), OwnerPid(r)))
    .Then(if l.Verified? && r.Verified? then CompareMarker(l.identity.startMarker, r.identity.startMarker) else Equal)
    .Then(CompareInt(ReasonNameRank(l), ReasonNameRank(r)))
  }

  datatype OwnerSetDto = OwnerSetDto(owners: seq<Owner>, omitted: nat, completeness: nat, reasons: seq<GapCode>)

  /** `owner_completeness_parts`: the reasons by name, sorted, each once. */
  function ReasonNames(c: OwnerCompleteness): seq<GapCode> {
    match c
    case Complete => []
    case Raced => [ObservationRaced]
    case Partial(reasons) => Dedup(Sort(CompareCodeName, reasons))
  }

  /** The first owners in order, and a count of the rest. */
  function OwnerSetOf(owners: seq<Owner>, completeness: OwnerCompleteness): OwnerSetDto {
    OwnerSetDto(SocketOrder.ShownOwners(Sort(ComparePublicOwner, owners)), SocketOrder.OmittedOwners(owners),
                CompletenessRank(completeness), ReasonNames(completeness))
  }

  // ----- Sockets

  datatype SocketDto = SocketDto(endpoint: Endpoint, state: SocketState, timer: Option<Timer>, owners: OwnerSetDto,
                                 token: Option<Token>, tag: Option<string>)

  type Labels = Endpoint -> Option<string>

  function SocketDtoOf(labels: Labels, s: Socket): SocketDto {
    SocketDto(s.endpoint, s.state, s.timer, OwnerSetOf(s.owners, s.ownerCompleteness), s.token, labels(s.endpoint))
  }

  function ToDto(labels: Labels): Socket -> SocketDto {
    (s: Socket) => SocketDtoOf(labels, s)
  }

  /** `compare_owner_indices` */
  function CompareOwnerDto(l: OwnerSetDto, r: OwnerSetDto): Ordering {
    CompareInt(l.completeness, r.completeness)
    .Then(CompareSeq(CompareCodeName, l.reasons, r.reasons))
    .Then(CompareInt(l.omitted, r.omitted))
    .Then(CompareSeq(ComparePublicOwner, l.owners, r.owners))
  }

  function CompareSocketIdentity(l: SocketDto, r: SocketDto): Ordering {
    CompareEndpoint(l.endpoint, r.endpoint)
    .Then(CompareState(l.state, r.state))
    .Then(SocketOrder.CompareToken(l.token, r.token))
  }

  /** `compare_socket_index` */
  function CompareDto(l: SocketDto, r: SocketDto): Ordering {
    CompareSocketIdentity(l, r)
    .Then(CompareOwnerDto(l.owners, r.owners))
    .Then(CompareOption(CompareTimer, l.timer, r.timer))
  }

  predicate TimerConsistent(t: Timer) {
    t.nativeCode == if t.kind.UnknownTimer? then Some(t.kind.code) else None
  }

  // ----- The comparators separate records

  lemma PublicOwnerLawfulAt(x: Owner, y: Owner, z: Owner)
    ensures LawfulAt(ComparePublicOwner, x, y, z)
    ensures ComparePublicOwner(x, y) == Equal <==> x == y
  {
    hide CompareMarker;
    if x.Verified? {
      var m := x.identity.startMarker;
      MarkerLawful(m, m, m);
      if y.Verified? {
        var n := y.identity.startMarker;
        MarkerLawful(m, n, n);
        MarkerSeparates(m, n);
        if z.Verified? {
          MarkerLawful(m, n, z.identity.startMarker);
        }
      }
    }
  }

  lemma PublicOwnerLawful()
    ensures Lawful(ComparePublicOwner) && Lawful(OnSeqs(ComparePublicOwner))
    ensures forall x, y :: ComparePublicOwner(x, y) == Equal <==> x == y
    ensures forall x, y :: CompareSeq(ComparePublicOwner, x, y) == Equal <==> x == y
  {
    hide ComparePublicOwner;
    hide CompareSeq;
    forall x, y, z ensures LawfulAt(ComparePublicOwner, x, y, z) { PublicOwnerLawfulAt(x, y, z); }
    forall x, y ensures ComparePublicOwner(x, y) == Equal <==> x == y { PublicOwnerLawfulAt(x, y, y); }
    SeqLawful(ComparePublicOwner);
    forall x, y ensures CompareSeq(ComparePublicOwner, x, y) == Equal <==> x == y { SeqSeparates(ComparePublicOwner, x, y); }
  }

  lemma CodeNameLawful()
    ensures Lawful(CompareCodeName) && Lawful(OnSeqs(CompareCodeName))
    ensures forall x, y :: CompareCodeName(x, y) == Equal <==> x == y
    ensures forall x, y :: CompareSeq(CompareCodeName, x, y) == Equal <==> x == y
  {
    forall x, y, z ensures LawfulAt(CompareCodeName, x, y, z) {}
    SeqLawful(CompareCodeName);
    forall x, y ensures CompareSeq(CompareCodeName, x, y) == Equal <==> x == y { SeqSeparates(CompareCodeName, x, y); }
  }

  lemma OwnerDtoLawful(x: OwnerSetDto, y: OwnerSetDto, z: OwnerSetDto)
    ensures LawfulAt(CompareOwnerDto, x, y, z)
    ensures CompareOwnerDto(x, y) == Equal <==> x == y
  {
    assert LawfulAt(OnSeqs(CompareCodeName), x.reasons, y.reasons, z.reasons)
      && (CompareSeq(CompareCodeName, x.reasons, y.reasons) == Equal <==> x.reasons == y.reasons) by { CodeNameLawful(); }
    assert LawfulAt(OnSeqs(ComparePublicOwner), x.owners, y.owners, z.owners)
      && (CompareSeq(ComparePublicOwner, x.owners, y.owners) == Equal <==> x.owners == y.owners) by { PublicOwnerLawful(); }
    hide CompareSeq;
    hide CompareCodeName;
    hide ComparePublicOwner;
  }

  lemma SocketIdentityLawful(x: SocketDto, y: SocketDto, z: SocketDto)
    ensures LawfulAt(CompareSocketIdentity, x, y, z)
    ensures CompareSocketIdentity(x, y) == Equal <==> x.endpoint == y.endpoint && x.state == y.state && x.token == y.token
  {
    assert LawfulAt(CompareEndpoint, x.endpoint, y.endpoint, z.endpoint)
      && (CompareEndpoint(x.endpoint, y.endpoint) == Equal <==> x.endpoint == y.endpoint) by { EndpointLawful(); }
    assert LawfulAt(CompareState, x.state, y.state, z.state)
      && (CompareState(x.state, y.state) == Equal <==> x.state == y.state) by { StateLawful(); }
    SocketOrder.TokenLawful(x.token, y.token, z.token);
    hide CompareEndpoint;
    hide CompareState;
    hide SocketOrder.CompareToken;
  }

  /** Records that compare equal serialize the same fields at every level. */
  lemma DtoLawfulAt(x: SocketDto, y: SocketDto, z: SocketDto)
    ensures LawfulAt(CompareDto, x, y, z)
    ensures CompareDto(x, y) == Equal <==> x == y.(tag := x.tag)
  {
    assert LawfulAt(OnOptions(CompareTimer), x.timer, y.timer, z.timer)
      && (CompareOption(CompareTimer, x.timer, y.timer) == Equal <==> x.timer == y.timer) by { TimerLawful(); }
    SocketIdentityLawful(x, y, z);
    OwnerDtoLawful(x.owners, y.owners, z.owners);
    hide CompareSocketIdentity;
    hide CompareOption;
    hide CompareOwnerDto;
  }

  lemma DtoLawful()
    ensures Lawful(CompareDto)
    ensures forall x, y :: CompareDto(x, y) == Equal <==> x == y.(tag := x.tag)
  {
    hide CompareDto;
    forall x, y, z ensures LawfulAt(CompareDto, x, y, z) { DtoLawfulAt(x, y, z); }
    forall x, y ensures CompareDto(x, y) == Equal <==> x == y.(tag := x.tag) { DtoLawfulAt(x, y, y); }
  }

  // ----- Processes

  function CompareIdentity(l: ProcessIdentity, r: ProcessIdentity): Ordering {
    CompareInt(l.pid, r.pid).Then(CompareMarker(l.startMarker, r.startMarker))
  }

  lemma IdentityLawful()
    ensures Lawful(CompareIdentity)
    ensures forall x, y :: CompareIdentity(x, y) == Equal <==> x == y
  {
    hide CompareIdentity;
    forall x, y, z ensures LawfulAt(CompareIdentity, x, y, z) { IdentityLawfulAt(x, y, z); }
    forall x, y ensures CompareIdentity(x, y) == Equal <==> x == y { IdentitySeparates(x, y); }
  }

  lemma IdentityLawfulAt(x: ProcessIdentity, y: ProcessIdentity, z: ProcessIdentity)
    ensures LawfulAt(CompareIdentity, x, y, z)
  {
    MarkerLawful(x.startMarker, y.startMarker, z.startMarker);
    hide CompareMarker;
  }

  lemma IdentitySeparates(x: ProcessIdentity, y: ProcessIdentity)
    ensures CompareIdentity(x, y) == Equal <==> x == y
  {
    MarkerSeparates(x.startMarker, y.startMarker);
    hide CompareMarker;
  }

  // ----- What a record shows

  ghost predicate EachOnceByName(codes: seq<GapCode>, reasons: set<GapCode>) {
    StrictlySorted(CompareCodeName, codes) && forall c :: c in codes <==> c in reasons
  }

  /** A record shows its socket's endpoint, state, timer and token, at most sixty-four owners and the
      number of the others, and every reason once, by name. */
  lemma RecordExactly(labels: Labels, s: Socket)
    ensures var d := SocketDtoOf(labels, s);
      && d.endpoint == s.endpoint && d.state == s.state && d.timer == s.timer && d.token == s.token
      && d.tag == labels(s.endpoint)
      && |d.owners.owners| == (if |s.owners| <= 64 then |s.owners| else 64)
      && |d.owners.owners| + d.owners.omitted == |s.owners|
      && EachOnceByName(d.owners.reasons,
                        match s.ownerCompleteness
                        case Complete => {}
                        case Raced => {ObservationRaced}
                        case Partial(reasons) => Elements(reasons))
  {
    PublicOwnerLawful();
    SortSorts(ComparePublicOwner, s.owners);
    MultisetSize(Sort(ComparePublicOwner, s.owners), s.owners);
    hide ComparePublicOwner;
    if s.ownerCompleteness.Partial? {
      var reasons := s.ownerCompleteness.reasons;
      CodeNameLawful();
      hide CompareCodeName;
      SortSorts(CompareCodeName, reasons);
      SortElements(CompareCodeName, reasons);
      DedupStrict(CompareCodeName, Sort(CompareCodeName, reasons));
      DedupMembers(Sort(CompareCodeName, reasons));
      assert forall c :: c in Dedup(Sort(CompareCodeName, reasons)) <==> c in Elements(Dedup(Sort(CompareCodeName, reasons)));
    }
  }

  /** The owners shown are the first of all owners in public order. */
  lemma ShownFirst(labels: Labels, s: Socket)
    ensures var shown := SocketDtoOf(labels, s).owners.owners;
      exists rest :: multiset(shown) + multiset(rest) == multiset(s.owners) && Sorted(ComparePublicOwner, shown + rest)
  {
    PublicOwnerLawful();
    SortSorts(ComparePublicOwner, s.owners);
    hide ComparePublicOwner;
    var all := Sort(ComparePublicOwner, s.owners);
    var shown := SocketDtoOf(labels, s).owners.owners;
    var rest := all[|shown|..];
    assert shown == all[..|shown|];
    assert all == shown + rest;
  }

  /** A timer can be written exactly when its native code belongs to its kind. */
  lemma TimerExactly(t: Timer)
    ensures TimerConsistent(t) <==>
      match t.kind
      case UnknownTimer(code) => t.nativeCode == Some(code)
      case _ => t.nativeCode == None
  {
  }

  /** A gap is shown as it is, but for a message that is harmless and bounded. */
  lemma GapShown(g: Gap)
    ensures var d := PublicGap(g);
      && d.impact == g.impact && d.code == g.code && d.endpoint == g.endpoint && d.pid == g.pid
      && d.affectedPidCount == g.affectedPidCount
      && Display.Harmless(d.message, false) && Display.ByteLength(d.message) <= 512
      && d.message <= Display.Sanitize(g.message)
  {
    Display.BoundedShown(g.message, EVIDENCE_MESSAGE_MAX_BYTES);
  }

  // ----- What was in scope

  datatype ScopeKind = CurrentNetworkNamespace | CurrentHostProcessVisibleSockets | CurrentHostNetworkStack

  datatype ScopeLimitation =
    | OtherNetworkNamespacesExcluded | ProcessFirstSocketVisibilityLimited | WslNetworkStackExcluded
    | ProcessMetadataPermissionLimited | Ipv6ScopeUnavailable | ScopedIpv6ExactMatchingUnavailable
    | NativeFieldUnavailable | PollingIntervalBlindSpot

  datatype ObservationScope = ObservationScope(kind: ScopeKind, identifier: Option<string>, limitations: seq<ScopeLimitation>)

  const SCOPE_LIMITATIONS_MAX: nat := 8
  const SCOPE_IDENTIFIER_MAX_BYTES: nat := 256

  function LimitationRank(l: ScopeLimitation): nat {
    match l
    case OtherNetworkNamespacesExcluded => 0
    case ProcessFirstSocketVisibilityLimited => 1
    case WslNetworkStackExcluded => 2
    case ProcessMetadataPermissionLimited => 3
    case Ipv6ScopeUnavailable => 4
    case ScopedIpv6ExactMatchingUnavailable => 5
    case NativeFieldUnavailable => 6
    case PollingIntervalBlindSpot => 7
  }

  function CompareLimitation(l: ScopeLimitation, r: ScopeLimitation): Ordering {
    CompareInt(LimitationRank(l), LimitationRank(r))
  }

  lemma LimitationLawful()
    ensures Lawful(CompareLimitation)
    ensures forall x, y :: CompareLimitation(x, y) == Equal ==> x == y
  {
    forall x, y, z ensures LawfulAt(CompareLimitation, x, y, z) {}
  }

  /** A scope as shown: a bounded identifier, and every limitation once, in a fixed order. */
  ghost predicate RendersScope(scope: ObservationScope, d: ObservationScope) {
    && d.kind == scope.kind
    && d.identifier == (if scope.identifier.None? then None
                        else Some(Display.Bounded(scope.identifier.value, SCOPE_IDENTIFIER_MAX_BYTES)))
    && StrictlySorted(CompareLimitation, d.limitations) && Elements(d.limitations) == Elements(scope.limitations)
  }

  /** There are no more limitations than the document admits. */
  lemma LimitationsFit(s: seq<ScopeLimitation>)
    requires StrictlySorted(CompareLimitation, s)
    ensures |s| <= SCOPE_LIMITATIONS_MAX
  {
    if s != [] {
      RankAtLeast(s, |s| - 1);
    }
  }

  lemma {:induction false} RankAtLeast(s: seq<ScopeLimitation>, i: nat)
    requires StrictlySorted(CompareLimitation, s) && i < |s|
    ensures LimitationRank(s[i]) >= i
  {
    if i > 0 {
      RankAtLeast(s, i - 1);
      assert CompareLimitation(s[i-1], s[i]) == Less;
    }
  }

  /** `ScopeDto::new`; its refusal of too many limitations can never happen. */
  method RenderScope(scope: ObservationScope) returns (r: Result<ObservationScope, OutputError>)
    ensures r.Ok? && RendersScope(scope, r.value)
  {
    hide CompareLimitation;
    LimitationLawful();
    SortSorts(CompareLimitation, scope.limitations);
    SortElements(CompareLimitation, scope.limitations);
    var sorted := Sort(CompareLimitation, scope.limitations);
    DedupStrict(CompareLimitation, sorted);
    DedupMembers(sorted);
    var limitations := Dedup(sorted);
    LimitationsFit(limitations);
    if |limitations| > SCOPE_LIMITATIONS_MAX {
      return Err(CountOutOfRange);
    }
    var identifier := None;
    if scope.identifier.Some? {
      var text := Display.SanitizeBounded(scope.identifier.value, SCOPE_IDENTIFIER_MAX_BYTES);
      identifier := Some(text);
    }
    r := Ok(ObservationScope(scope.kind, identifier, limitations));
  }

  /** Two scopes that say the same, in whatever order and however often. */
  ghost predicate SameScope(a: ObservationScope, b: ObservationScope) {
    a.kind == b.kind && a.identifier == b.identifier && Elements(a.limitations) == Elements(b.limitations)
  }

  lemma ScopeCanonical(a: ObservationScope, b: ObservationScope, x: ObservationScope, y: ObservationScope)
    requires SameScope(a, b) && RendersScope(a, x) && RendersScope(b, y)
    ensures x == y
  {
    hide CompareLimitation;
    LimitationLawful();
    StrictUnique(CompareLimitation, x.limitations, y.limitations);
  }

  // ----- The document

  datatype Document = Document(startedMs: nat, completedMs: nat, scope: ObservationScope, completeness: SnapshotCompleteness, ownerCompleteness: nat,
                               gaps: seq<Gap>, omittedGaps: nat, sockets: seq<SocketDto>, identities: seq<ProcessIdentity>,
                               processes: seq<Process>)

  /** A gap as shown: its message is sanitized and bounded. */
  function PublicGap(g: Gap): Gap {
    g.(message := Display.Bounded(g.message, EVIDENCE_MESSAGE_MAX_BYTES))
  }

  /** The document is the scope, and every gap, socket and process of the snapshot, each list in its order. */
  ghost predicate Renders(labels: Labels, scope: ObservationScope, s: Snapshot, d: Document) {
    && RendersScope(scope, d.scope)
    && d.startedMs == s.startedAt && d.completedMs == s.completedAt
    && d.completeness == s.completeness && d.ownerCompleteness == CompletenessRank(s.ownerCompleteness)
    && d.omittedGaps == s.omittedGaps
    && Sorted(CompareGap, d.gaps) && multiset(d.gaps) == multiset(Map(PublicGap, s.gaps))
    && Sorted(CompareDto, d.sockets) && multiset(d.sockets) == multiset(Map(ToDto(labels), s.sockets))
    && StrictlySorted(CompareIdentity, d.identities) && Elements(d.identities) == s.processes.Keys
    && |d.processes| == |d.identities|
    && forall i | 0 <= i < |d.identities| :: d.processes[i] == s.processes[d.identities[i]]
  }

  predicate TooManyReasons(sockets: seq<Socket>) {
    exists x | x in sockets :: |ReasonNames(x.ownerCompleteness)| > OWNER_COMPLETENESS_REASONS_MAX
  }

  ghost predicate SomeUnencodable(encodable: Process -> bool, table: map<ProcessIdentity, Process>) {
    exists i | i in table :: !encodable(table[i])
  }

  predicate SomeTimerInvalid(sockets: seq<Socket>) {
    exists x | x in sockets :: x.timer.Some? && !TimerConsistent(x.timer.value)
  }

  /** Why a snapshot cannot be written, in the order the constructor finds out. */
  ghost function OutputRefusal(encodable: Process -> bool, s: Snapshot): Option<OutputError> {
    if s.completedAt < s.startedAt then Some(InvalidWallClockInterval)
    else if s.startedAt < 0 || s.completedAt > U64_MAX then Some(ClockUnavailable)
    else if TooManyReasons(s.sockets) then Some(OwnerReasonLimitExceeded)
    else if SomeUnencodable(encodable, s.processes) then Some(Unencodable)
    else if SomeTimerInvalid(s.sockets) then Some(InvalidTimer)
    else None
  }

  method RenderGaps(gaps: seq<Gap>) returns (r: seq<Gap>)
    ensures Sorted(CompareGap, r) && multiset(r) == multiset(Map(PublicGap, gaps))
  {
    hide Display.Bounded;
    hide CompareGap;
    var shown := [];
    for i := 0 to |gaps|
      invariant shown == Map(PublicGap, gaps[..i])
    {
      var message := Display.SanitizeBounded(gaps[i].message, EVIDENCE_MESSAGE_MAX_BYTES);
      MapAppend(PublicGap, gaps[..i], [gaps[i]]);
      assert gaps[..i + 1] == gaps[..i] + [gaps[i]];
      shown := shown + [gaps[i].(message := message)];
    }
    assert gaps[..|gaps|] == gaps;
    GapLawful();
    SortSorts(CompareGap, shown);
    r := Sort(CompareGap, shown);
  }

  lemma DtosSort(dtos: seq<SocketDto>)
    ensures Sorted(CompareDto, Sort(CompareDto, dtos)) && multiset(Sort(CompareDto, dtos)) == multiset(dtos)
  {
    hide CompareDto;
    DtoLawful();
    SortSorts(CompareDto, dtos);
  }

  lemma DtosGrow(labels: Labels, sockets: seq<Socket>, i: nat)
    requires i < |sockets|
    ensures Map(ToDto(labels), sockets[..i + 1]) == Map(ToDto(labels), sockets[..i]) + [SocketDtoOf(labels, sockets[i])]
  {
    hide SocketDtoOf;
    MapAppend(ToDto(labels), sockets[..i], [sockets[i]]);
    assert sockets[..i + 1] == sockets[..i] + [sockets[i]];
  }

  /** `SocketIndex::new` for every socket, then the in-place sort. */
  method RenderSockets(labels: Labels, sockets: seq<Socket>) returns (r: Result<seq<SocketDto>, OutputError>)
    ensures r.Err? <==> TooManyReasons(sockets)
    ensures r.Err? ==> r.error == OwnerReasonLimitExceeded
    ensures r.Ok? ==> Sorted(CompareDto, r.value) && multiset(r.value) == multiset(Map(ToDto(labels), sockets))
  {
    hide CompareDto;
    hide SocketDtoOf;
    hide Sorted;
    hide Sort;
    hide ReasonNames;
    var dtos := [];
    for i := 0 to |sockets|
      invariant dtos == Map(ToDto(labels), sockets[..i])
      invariant forall j | 0 <= j < i :: |ReasonNames(sockets[j].ownerCompleteness)| <= OWNER_COMPLETENESS_REASONS_MAX
    {
      if |ReasonNames(sockets[i].ownerCompleteness)| > OWNER_COMPLETENESS_REASONS_MAX {
        return Err(OwnerReasonLimitExceeded);
      }
      DtosGrow(labels, sockets, i);
      dtos := dtos + [SocketDtoOf(labels, sockets[i])];
    }
    assert sockets[..|sockets|] == sockets;
    DtosSort(dtos);
    r := Ok(Sort(CompareDto, dtos));
  }

  /** The map's keys, in whatever order it yields them. */
  method KeysOf(keys: set<ProcessIdentity>) returns (r: seq<ProcessIdentity>)
    ensures Elements(r) == keys && multiset(r) == multiset(keys)
  {
    r := [];
    var left := keys;
    while left != {}
      invariant left <= keys && Elements(r) == keys - left && multiset(r) == multiset(keys - left)
      decreases |left|
    {
      var k :| k in left;
      assert keys - (left - {k}) == (keys - left) + {k};
      left := left - {k};
      r := r + [k];
    }
    assert keys - left == keys;
  }

  method RenderIdentities(keys: set<ProcessIdentity>) returns (r: seq<ProcessIdentity>)
    ensures StrictlySorted(CompareIdentity, r) && Elements(r) == keys
  {
    hide CompareIdentity;
    var order := KeysOf(keys);
    IdentityLawful();
    SortSorts(CompareIdentity, order);
    SortElements(CompareIdentity, order);
    r := Sort(CompareIdentity, order);
    forall i, j | 0 <= i < j < |r| ensures CompareIdentity(r[i], r[j]) == Less {
      if r[i] == r[j] {
        TwiceCounted(r, i, j);
      }
    }
  }

  /** `SnapshotDto::new` */
  method SnapshotDocument(labels: Labels, encodable: Process -> bool, scope: ObservationScope, s: Snapshot)
    returns (r: Result<Document, OutputError>)
    ensures r.Err? <==> OutputRefusal(encodable, s).Some?
    ensures r.Err? ==> r.error == OutputRefusal(encodable, s).value
    ensures r.Ok? ==> Renders(labels, scope, s, r.value)
  {
    hide CompareGap;
    hide CompareDto;
    hide CompareIdentity;
    hide SocketDtoOf;
    hide TooManyReasons;
    hide SomeUnencodable;
    hide SomeTimerInvalid;
    hide PublicGap;
    if s.completedAt < s.startedAt {
      return Err(InvalidWallClockInterval);
    }
    if s.startedAt < 0 || s.completedAt > U64_MAX {
      return Err(ClockUnavailable);
    }
    var shownScope := RenderScope(scope);  // never refused
    var gaps := RenderGaps(s.gaps);
    var sockets := RenderSockets(labels, s.sockets);
    if sockets.Err? {
      return Err(sockets.error);
    }
    var identities := RenderIdentities(s.processes.Keys);
    var processes := RenderProcesses(s.processes, identities);
    var text := AllEncodable(encodable, s.processes, identities, processes);
    if !text {
      return Err(Unencodable);
    }
    var timers := AllTimersConsistent(s.sockets);
    if !timers {
      return Err(InvalidTimer);
    }
    r := Ok(Document(s.startedAt, s.completedAt, shownScope.value, s.completeness,
                     CompletenessRank(s.ownerCompleteness), gaps, s.omittedGaps,
                     sockets.value, identities, processes));
  }

  method RenderProcesses(table: map<ProcessIdentity, Process>, identities: seq<ProcessIdentity>) returns (r: seq<Process>)
    requires Elements(identities) == table.Keys
    ensures |r| == |identities| && forall i | 0 <= i < |identities| :: identities[i] in table && r[i] == table[identities[i]]
    ensures forall k | k in table :: table[k] in r
  {
    r := [];
    for i := 0 to |identities|
      invariant |r| == i && forall j | 0 <= j < i :: identities[j] in table && r[j] == table[identities[j]]
    {
      assert identities[i] in Elements(identities);
      r := r + [table[identities[i]]];
    }
    forall k | k in table ensures table[k] in r {
      assert k in Elements(identities);
      var i :| 0 <= i < |identities| && identities[i] == k;
      assert r[i] == table[k];
    }
  }

  method AllEncodable(encodable: Process -> bool, ghost table: map<ProcessIdentity, Process>, identities: seq<ProcessIdentity>,
                      processes: seq<Process>)
    returns (ok: bool)
    requires |processes| == |identities|
    requires forall i | 0 <= i < |identities| :: identities[i] in table && processes[i] == table[identities[i]]
    requires forall k | k in table :: table[k] in processes
    ensures ok <==> !SomeUnencodable(encodable, table)
  {
    for i := 0 to |processes|
      invariant forall j | 0 <= j < i :: encodable(processes[j])
    {
      if !encodable(processes[i]) {
        assert identities[i] in table;
        return false;
      }
    }
    ok := true;
  }

  method AllTimersConsistent(sockets: seq<Socket>) returns (ok: bool)
    ensures ok <==> !SomeTimerInvalid(sockets)
  {
    for i := 0 to |sockets|
      invariant forall j | 0 <= j < i && sockets[j].timer.Some? :: TimerConsistent(sockets[j].timer.value)
    {
      if sockets[i].timer.Some? && !TimerConsistent(sockets[i].timer.value) {
        return false;
      }
    }
    ok := true;
  }

  // ----- The document is canonical

  /** A socket up to the order of its owners, the order and repetition of its reasons, and the
      creating UID, which is not public. */
  datatype SocketContent = SocketContent(endpoint: Endpoint, state: SocketState, timer: Option<Timer>, owners: multiset<Owner>,
                                         completeness: nat, reasons: set<GapCode>, token: Option<Token>)

  function Reasons(c: OwnerCompleteness): set<GapCode> {
    if c.Partial? then Elements(c.reasons) else {}
  }

  function ContentOf(s: Socket): SocketContent {
    SocketContent(s.endpoint, s.state, s.timer, multiset(s.owners), CompletenessRank(s.ownerCompleteness),
                  Reasons(s.ownerCompleteness), s.token)
  }

  /** Two snapshots say the same things, in whatever order. */
  ghost predicate SameContent(a: Snapshot, b: Snapshot) {
    && a.startedAt == b.startedAt && a.completedAt == b.completedAt && a.completeness == b.completeness
    && CompletenessRank(a.ownerCompleteness) == CompletenessRank(b.ownerCompleteness)
    && multiset(a.gaps) == multiset(b.gaps) && a.omittedGaps == b.omittedGaps
    && multiset(Map(ContentOf, a.sockets)) == multiset(Map(ContentOf, b.sockets))
    && a.processes == b.processes
  }

  lemma ContentDecidesNames(x: OwnerCompleteness, y: OwnerCompleteness)
    requires CompletenessRank(x) == CompletenessRank(y) && Reasons(x) == Reasons(y)
    ensures ReasonNames(x) == ReasonNames(y)
  {
    if x.Partial? {
      CodeNameLawful();
      SortDedupCanonical(CompareCodeName, x.reasons, y.reasons);
    }
  }

  /** A record depends on a socket only through its content: sorting and truncating the owners
      forgets their order. */
  lemma ContentDecidesDto(labels: Labels, x: Socket, y: Socket)
    requires ContentOf(x) == ContentOf(y)
    ensures SocketDtoOf(labels, x) == SocketDtoOf(labels, y)
  {
    ContentDecidesNames(x.ownerCompleteness, y.ownerCompleteness);
    PublicOwnerLawful();
    SortCanonical(ComparePublicOwner, x.owners, y.owners);
    MultisetSize(x.owners, y.owners);
    hide ComparePublicOwner;
    hide ReasonNames;
  }

  /** A function of a key sees a sequence only through the multiset of keys. */
  lemma {:induction false} MapFactors<A, K, B>(key: A -> K, f: A -> B, s: seq<A>, t: seq<A>)
    requires multiset(Map(key, s)) == multiset(Map(key, t))
    requires forall x, y | x in s && y in t && key(x) == key(y) :: f(x) == f(y)
    ensures multiset(Map(f, s)) == multiset(Map(f, t))
  {
    hide Map;
    if s == [] {
      MultisetSize(Map(key, s), Map(key, t));
    } else {
      var i := DropMatching(key, s, t);
      hide Map;
      MapFactors(key, f, s[1..], t[..i] + t[i + 1..]);
      FirstOut(f, s);
      SplitOut(f, t, i);
    }
  }

  lemma FirstOut<A, B>(f: A -> B, s: seq<A>)
    requires s != []
    ensures multiset(Map(f, s)) == multiset{f(s[0])} + multiset(Map(f, s[1..]))
  {
    assert s[..0] + s[0 + 1..] == s[1..];
    SplitOut(f, s, 0);
    hide Map;
  }

  /** Equal key multisets: the first element's key has a match, and dropping both keeps them equal. */
  lemma DropMatching<A, K>(key: A -> K, s: seq<A>, t: seq<A>) returns (i: nat)
    requires multiset(Map(key, s)) == multiset(Map(key, t)) && s != []
    ensures i < |t| && key(t[i]) == key(s[0]) && t[i] in t && s[0] in s
    ensures multiset(Map(key, s[1..])) == multiset(Map(key, t[..i] + t[i + 1..]))
    ensures forall y | y in t[..i] + t[i + 1..] :: y in t
    ensures forall x | x in s[1..] :: x in s
  {
    i := FindKey(key, s, t);
    hide Map;
    FirstOut(key, s);
    SplitOut(key, t, i);
    CancelOne(key(s[0]), multiset(Map(key, s[1..])), multiset(Map(key, t[..i] + t[i + 1..])));
  }

  lemma FindKey<A, K>(key: A -> K, s: seq<A>, t: seq<A>) returns (i: nat)
    requires multiset(Map(key, s)) == multiset(Map(key, t)) && s != []
    ensures i < |t| && key(t[i]) == key(s[0]) && t[i] in t && s[0] in s
  {
    assert Map(key, s)[0] == key(s[0]);
    assert key(s[0]) in multiset(Map(key, t));
    i :| 0 <= i < |t| && Map(key, t)[i] == key(s[0]);
  }

  lemma SplitOut<A, B>(f: A -> B, t: seq<A>, i: nat)
    requires i < |t|
    ensures multiset(Map(f, t)) == multiset{f(t[i])} + multiset(Map(f, t[..i] + t[i + 1..]))
  {
    var pre, post := t[..i], t[i + 1..];
    MapOne(f, t[i]);
    hide Map;
    CutOut(t, i);
    MapBag(f, pre, [t[i]] + post);
    MapBag(f, [t[i]], post);
    MapBag(f, pre, post);
  }

  lemma MapOne<A, B>(f: A -> B, x: A)
    ensures Map(f, [x]) == [f(x)]
  {
  }

  lemma MapBag<A, B>(f: A -> B, x: seq<A>, y: seq<A>)
    ensures multiset(Map(f, x + y)) == multiset(Map(f, x)) + multiset(Map(f, y))
  {
    MapAppend(f, x, y);
    hide Map;
  }

  lemma {:induction false} MapFrom<A, B>(f: A -> B, s: seq<A>, y: B)
    requires y in Map(f, s)
    ensures exists x | x in s :: f(x) == y
  {
    var i :| 0 <= i < |s| && Map(f, s)[i] == y;
    assert s[i] in s;
  }

  lemma SocketsCanonical(labels: Labels, a: seq<Socket>, b: seq<Socket>, x: seq<SocketDto>, y: seq<SocketDto>)
    requires multiset(Map(ContentOf, a)) == multiset(Map(ContentOf, b))
    requires Sorted(CompareDto, x) && multiset(x) == multiset(Map(ToDto(labels), a))
    requires Sorted(CompareDto, y) && multiset(y) == multiset(Map(ToDto(labels), b))
    ensures x == y
  {
    hide CompareDto;
    hide SocketDtoOf;
    hide ContentOf;
    forall s, t | s in a && t in b && ContentOf(s) == ContentOf(t) ensures ToDto(labels)(s) == ToDto(labels)(t) {
      ContentDecidesDto(labels, s, t);
    }
    MapFactors(ContentOf, ToDto(labels), a, b);
    DtoLawful();
    forall i, j | 0 <= i < |x| && 0 <= j < |y| && CompareDto(x[i], y[j]) == Equal ensures x[i] == y[j] {
      assert x[i] in multiset(x) && y[j] in multiset(y);
      TagsFollow(labels, a, x[i]);
      TagsFollow(labels, b, y[j]);
    }
    SortedUnique(CompareDto, x, y);
  }

  lemma TagsFollow(labels: Labels, sockets: seq<Socket>, d: SocketDto)
    requires d in Map(ToDto(labels), sockets)
    ensures d.tag == labels(d.endpoint)
  {
    MapFrom(ToDto(labels), sockets, d);
    hide OwnerSetOf;
  }

  /** Equal content gives the same document, record for record. */
  lemma DocumentCanonical(labels: Labels, from: ObservationScope, other: ObservationScope, a: Snapshot, b: Snapshot,
                          x: Document, y: Document)
    requires SameScope(from, other) && SameContent(a, b)
    requires Renders(labels, from, a, x) && Renders(labels, other, b, y)
    ensures x == y
  {
    hide CompareGap;
    hide CompareDto;
    hide CompareIdentity;
    hide ContentOf;
    hide PublicGap;
    hide RendersScope;
    ScopeCanonical(from, other, x.scope, y.scope);
    SocketsCanonical(labels, a.sockets, b.sockets, x.sockets, y.sockets);
    MapPermutes(PublicGap, a.gaps, b.gaps);
    GapLawful();
    SortedUnique(CompareGap, x.gaps, y.gaps);
    IdentityLawful();
    StrictUnique(CompareIdentity, x.identities, y.identities);
    assert x.processes == y.processes;
  }

  /** ... and the same refusal. */
  lemma RefusalCanonical(encodable: Process -> bool, a: Snapshot, b: Snapshot)
    requires SameContent(a, b)
    ensures OutputRefusal(encodable, a) == OutputRefusal(encodable, b)
  {
    hide TooManyReasons;
    hide SomeTimerInvalid;
    hide SomeUnencodable;
    hide ContentOf;
    hide Map;
    RefusalsCarry(a.sockets, b.sockets);
    RefusalsCarry(b.sockets, a.sockets);
  }

  lemma RefusalsCarry(a: seq<Socket>, b: seq<Socket>)
    requires multiset(Map(ContentOf, a)) == multiset(Map(ContentOf, b))
    ensures TooManyReasons(a) ==> TooManyReasons(b)
    ensures SomeTimerInvalid(a) ==> SomeTimerInvalid(b)
  {
    hide ReasonNames;
    hide TimerConsistent;
    if TooManyReasons(a) {
      var x :| x in a && |ReasonNames(x.ownerCompleteness)| > OWNER_COMPLETENESS_REASONS_MAX;
      var y := Counterpart(a, b, x);
      ContentDecidesNames(x.ownerCompleteness, y.ownerCompleteness);
    }
    if SomeTimerInvalid(a) {
      var x :| x in a && x.timer.Some? && !TimerConsistent(x.timer.value);
      var y := Counterpart(a, b, x);
    }
  }

  lemma Counterpart(a: seq<Socket>, b: seq<Socket>, s: Socket) returns (t: Socket)
    requires multiset(Map(ContentOf, a)) == multiset(Map(ContentOf, b)) && s in a
    ensures t in b && ContentOf(s) == ContentOf(t)
  {
    hide ContentOf;
    var i :| 0 <= i < |a| && a[i] == s;
    assert Map(ContentOf, a)[i] == ContentOf(s);
    assert ContentOf(s) in multiset(Map(ContentOf, b));
    MapFrom(ContentOf, b, ContentOf(s));
    t :| t in b && ContentOf(t) == ContentOf(s);
  }
}

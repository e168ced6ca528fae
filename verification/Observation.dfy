/** The network observation domain of `src/observation.rs`: endpoints, owners, sockets,
    evidence gaps and snapshots, with the orders the program sorts them by. */
module Observation {
  import opened Orders

  // ----- Limits (src/observation/limits.rs)

  const U64_MAX: nat := 0xFFFF_FFFF_FFFF_FFFF
  const SOCKET_OBSERVATIONS_MAX: nat := 262_144
  const SERIALIZED_OWNERS_MAX: nat := 64
  const OWNER_COMPLETENESS_REASONS_MAX: nat := 8
  const EVIDENCE_GAPS_MAX: nat := 4_096
  const CONSISTENCY_ATTEMPTS_MAX: nat := 2
  const PROCESS_NAME_MAX_BYTES: nat := 4 * 1024
  const EXECUTABLE_PATH_MAX_BYTES: nat := 128 * 1024
  const PROCESS_COMMAND_LINE_MAX_BYTES: nat := 1024 * 1024

  function SaturatingAdd(x: nat, y: nat): nat {
    if x + y > U64_MAX then U64_MAX else x + y
  }

  // ----- Endpoints

  datatype Protocol = Tcp | Udp

  /** Octets of one fixed-width family, read as a big-endian number. */
  datatype Address = V4(octets: nat) | V6(octets: nat)

  datatype Ipv6Scope = Unscoped | InterfaceIndex(index: nat) | ScopeUnavailable

  datatype Endpoint = Endpoint(protocol: Protocol, address: Address, port: nat, scope: Option<Ipv6Scope>)

  function CompareProtocol(l: Protocol, r: Protocol): Ordering {
    CompareInt(if l.Tcp? then 0 else 1, if r.Tcp? then 0 else 1)
  }

  function CompareAddress(l: Address, r: Address): Ordering {
    CompareInt(if l.V4? then 0 else 1, if r.V4? then 0 else 1).Then(CompareInt(l.octets, r.octets))
  }

  function ScopeKey(s: Ipv6Scope): (nat, nat) {
    match s
    case Unscoped => (0, 0)
    case InterfaceIndex(i) => (1, i)
    case ScopeUnavailable => (2, 0)
  }

  function CompareScope(l: Ipv6Scope, r: Ipv6Scope): Ordering {
    CompareInt(ScopeKey(l).0, ScopeKey(r).0).Then(CompareInt(ScopeKey(l).1, ScopeKey(r).1))
  }

  /** `compare_endpoint_identity`: protocol, address, scope, port. */
  function CompareEndpoint(l: Endpoint, r: Endpoint): Ordering {
    CompareProtocol(l.protocol, r.protocol)
    .Then(CompareAddress(l.address, r.address))
    .Then(CompareOption(CompareScope, l.scope, r.scope))
    .Then(CompareInt(l.port, r.port))
  }

  lemma ScopeLawful()
    ensures Lawful(CompareScope) && Lawful(OnOptions(CompareScope))
    ensures forall x, y :: CompareOption(CompareScope, x, y) == Equal <==> x == y
  {
    forall x, y, z ensures LawfulAt(CompareScope, x, y, z) {}
    OptionLawful(CompareScope);
  }

  lemma AddressLawful(x: Address, y: Address, z: Address)
    ensures LawfulAt(CompareAddress, x, y, z)
    ensures CompareAddress(x, y) == Equal <==> x == y
  {
  }

  lemma EndpointLawfulAt(x: Endpoint, y: Endpoint, z: Endpoint)
    ensures LawfulAt(CompareEndpoint, x, y, z)
  {
    assert LawfulAt(OnOptions(CompareScope), x.scope, y.scope, z.scope) by { ScopeLawful(); }
    AddressLawful(x.address, y.address, z.address);
    hide CompareOption;
    hide CompareAddress;
    var protocol := Compared(CompareProtocol, x.protocol, y.protocol, z.protocol);
    var address := Compared(CompareAddress, x.address, y.address, z.address);
    var scope := Compared(OnOptions(CompareScope), x.scope, y.scope, z.scope);
    var port := Compared<int>(CompareInt, x.port, y.port, z.port);
    ThenLawful(protocol, address);
    ThenLawful(protocol.Then(address), scope);
    ThenLawful(protocol.Then(address).Then(scope), port);
    assert Compared(CompareEndpoint, x, y, z) == protocol.Then(address).Then(scope).Then(port);
  }

  lemma EndpointSeparates(x: Endpoint, y: Endpoint)
    ensures CompareEndpoint(x, y) == Equal <==> x == y
  {
    assert CompareOption(CompareScope, x.scope, y.scope) == Equal <==> x.scope == y.scope by { ScopeLawful(); }
    AddressLawful(x.address, y.address, y.address);
    hide CompareOption;
    hide CompareAddress;
  }

  lemma EndpointLawful()
    ensures Lawful(CompareEndpoint)
    ensures forall x, y :: CompareEndpoint(x, y) == Equal <==> x == y
  {
    hide CompareEndpoint;
    forall x, y, z ensures LawfulAt(CompareEndpoint, x, y, z) { EndpointLawfulAt(x, y, z); }
    forall x, y ensures CompareEndpoint(x, y) == Equal <==> x == y { EndpointSeparates(x, y); }
  }

  // ----- Socket state, token and timer

  datatype SocketState =
    | Closed | Listen | SynSent | SynReceived | Established | FinWait1 | FinWait2 | CloseWait
    | Closing | LastAck | TimeWait | DeleteTcb | NewSynReceived | Bound | UnknownState(code: nat)

  function OrderKey(s: SocketState): (nat, nat) {
    match s
    case Closed => (0, 0)
    case Listen => (1, 0)
    case SynSent => (2, 0)
    case SynReceived => (3, 0)
    case Established => (4, 0)
    case FinWait1 => (5, 0)
    case FinWait2 => (6, 0)
    case CloseWait => (7, 0)
    case Closing => (8, 0)
    case LastAck => (9, 0)
    case TimeWait => (10, 0)
    case DeleteTcb => (11, 0)
    case NewSynReceived => (12, 0)
    case Bound => (13, 0)
    case UnknownState(code) => (14, code)
  }

  function CompareState(l: SocketState, r: SocketState): Ordering {
    CompareInt(OrderKey(l).0, OrderKey(r).0).Then(CompareInt(OrderKey(l).1, OrderKey(r).1))
  }

  lemma StateLawful()
    ensures Lawful(CompareState)
    ensures forall x, y :: CompareState(x, y) == Equal <==> x == y
  {
    forall x, y, z ensures LawfulAt(CompareState, x, y, z) {
      hide OrderKey;
    }
    forall x, y ensures CompareState(x, y) == Equal <==> x == y {
      OrderKeyInjective(x, y);
      hide OrderKey;
    }
  }

  lemma OrderKeyInjective(x: SocketState, y: SocketState)
    ensures OrderKey(x) == OrderKey(y) <==> x == y
  {
  }

  datatype Token = LinuxInode(id: nat) | MacOsSocketId(id: nat)

  function CompareTokenValue(l: Token, r: Token): Ordering {
    CompareInt(if l.LinuxInode? then 0 else 1, if r.LinuxInode? then 0 else 1).Then(CompareInt(l.id, r.id))
  }

  datatype TimerKind = NoTimer | Retransmit | OtherTimer | TimeWaitTimer | ZeroWindowProbe | UnknownTimer(code: nat)

  datatype Timer = Timer(kind: TimerKind, nativeCode: Option<nat>, rawTicks: nat, estimatedMs: Option<nat>)

  function TimerKindKey(k: TimerKind): (nat, nat) {
    match k
    case NoTimer => (0, 0)
    case Retransmit => (1, 0)
    case OtherTimer => (2, 0)
    case TimeWaitTimer => (3, 0)
    case ZeroWindowProbe => (4, 0)
    case UnknownTimer(code) => (5, code)
  }

  function CompareNat(l: nat, r: nat): Ordering {
    CompareInt(l, r)
  }

  function CompareTimer(l: Timer, r: Timer): Ordering {
    CompareInt(TimerKindKey(l.kind).0, TimerKindKey(r.kind).0)
    .Then(CompareInt(TimerKindKey(l.kind).1, TimerKindKey(r.kind).1))
    .Then(CompareOption(CompareNat, l.nativeCode, r.nativeCode))
    .Then(CompareInt(l.rawTicks, r.rawTicks))
    .Then(CompareOption(CompareNat, l.estimatedMs, r.estimatedMs))
  }

  lemma OptionNatLawful()
    ensures Lawful(CompareNat) && Lawful(OnOptions(CompareNat))
    ensures forall x, y :: CompareOption(CompareNat, x, y) == Equal <==> x == y
  {
    forall x, y, z ensures LawfulAt(CompareNat, x, y, z) {}
    OptionLawful(CompareNat);
  }

  lemma TimerLawfulAt(x: Timer, y: Timer, z: Timer)
    ensures LawfulAt(CompareTimer, x, y, z)
  {
    assert LawfulAt(OnOptions(CompareNat), x.nativeCode, y.nativeCode, z.nativeCode) by { OptionNatLawful(); }
    assert LawfulAt(OnOptions(CompareNat), x.estimatedMs, y.estimatedMs, z.estimatedMs) by { OptionNatLawful(); }
    hide CompareOption;
    hide TimerKindKey;
  }

  lemma TimerSeparates(x: Timer, y: Timer)
    ensures CompareTimer(x, y) == Equal <==> x == y
  {
    assert TimerKindKey(x.kind) == TimerKindKey(y.kind) <==> x.kind == y.kind;
    hide TimerKindKey;
  }

  lemma TimerLawful()
    ensures Lawful(CompareTimer) && Lawful(OnOptions(CompareTimer))
    ensures forall x, y :: CompareOption(CompareTimer, x, y) == Equal <==> x == y
  {
    hide CompareTimer;
    forall x, y, z ensures LawfulAt(CompareTimer, x, y, z) { TimerLawfulAt(x, y, z); }
    forall x, y ensures CompareTimer(x, y) == Equal <==> x == y { TimerSeparates(x, y); }
    OptionLawful(CompareTimer);
  }

  // ----- Process identity and owners

  datatype StartMarker =
    | LinuxStartTicks(ticks: nat)
    | MacOsStartTime(seconds: nat, microseconds: nat)
    | WindowsCreationTime(filetime: nat)

  datatype ProcessIdentity = ProcessIdentity(pid: nat, startMarker: StartMarker)

  datatype UnverifiedReason = PermissionDenied | Disappeared | IdentityUnavailable | ReasonRaced

  datatype Owner = Verified(identity: ProcessIdentity) | UnverifiedPid(pid: nat, reason: UnverifiedReason)

  function OwnerPid(o: Owner): nat {
    if o.Verified? then o.identity.pid else o.pid
  }

  function MarkerKey(m: StartMarker): (nat, nat, nat) {
    match m
    case LinuxStartTicks(t) => (0, t, 0)
    case MacOsStartTime(s, us) => (1, s, us)
    case WindowsCreationTime(f) => (2, f, 0)
  }

  function CompareMarker(l: StartMarker, r: StartMarker): Ordering {
    CompareInt(MarkerKey(l).0, MarkerKey(r).0)
    .Then(CompareInt(MarkerKey(l).1, MarkerKey(r).1))
    .Then(CompareInt(MarkerKey(l).2, MarkerKey(r).2))
  }

  function ReasonRank(r: UnverifiedReason): nat {
    match r
    case PermissionDenied => 0
    case Disappeared => 1
    case IdentityUnavailable => 2
    case ReasonRaced => 3
  }

  /** The derived order: verified owners first, then by identity or by pid and reason. */
  function CompareOwner(l: Owner, r: Owner): Ordering {
    match (l, r)
    case (Verified(a), Verified(b)) => CompareInt(a.pid, b.pid).Then(CompareMarker(a.startMarker, b.startMarker))
    case (Verified(_), UnverifiedPid(_, _)) => Less
    case (UnverifiedPid(_, _), Verified(_)) => Greater
    case (UnverifiedPid(p, a), UnverifiedPid(q, b)) => CompareInt(p, q).Then(CompareInt(ReasonRank(a), ReasonRank(b)))
  }

  lemma MarkerLawful(x: StartMarker, y: StartMarker, z: StartMarker)
    ensures LawfulAt(CompareMarker, x, y, z)
  {
    hide MarkerKey;
  }

  lemma MarkerSeparates(x: StartMarker, y: StartMarker)
    ensures CompareMarker(x, y) == Equal <==> x == y
  {
    assert MarkerKey(x) == MarkerKey(y) <==> x == y;
  }

  lemma OwnerLawfulAt(x: Owner, y: Owner, z: Owner)
    ensures LawfulAt(CompareOwner, x, y, z)
  {
    hide CompareMarker;
    hide ReasonRank;
    if x.Verified? {
      var m := x.identity.startMarker;
      MarkerLawful(m, m, m);
      if y.Verified? {
        var n := y.identity.startMarker;
        MarkerLawful(m, n, n);
        if z.Verified? {
          MarkerLawful(m, n, z.identity.startMarker);
        }
      }
    }
  }

  lemma OwnerSeparates(x: Owner, y: Owner)
    ensures CompareOwner(x, y) == Equal <==> x == y
  {
    if x.Verified? && y.Verified? {
      MarkerSeparates(x.identity.startMarker, y.identity.startMarker);
    }
    hide CompareMarker;
  }

  lemma OwnerLawful()
    ensures Lawful(CompareOwner) && Lawful(OnSeqs(CompareOwner))
    ensures forall x, y :: CompareOwner(x, y) == Equal <==> x == y
    ensures forall x, y :: CompareSeq(CompareOwner, x, y) == Equal <==> x == y
  {
    hide CompareOwner;
    hide CompareSeq;
    forall x, y, z ensures LawfulAt(CompareOwner, x, y, z) { OwnerLawfulAt(x, y, z); }
    forall x, y ensures CompareOwner(x, y) == Equal <==> x == y { OwnerSeparates(x, y); }
    SeqLawful(CompareOwner);
    forall x, y ensures CompareSeq(CompareOwner, x, y) == Equal <==> x == y { SeqSeparates(CompareOwner, x, y); }
  }

  // ----- Evidence gaps

  datatype GapCode =
    | OwnerPermissionDenied | OwnerAttributionIncomplete | OwnerDisappeared | ProcessIdentityUnavailable
    | ProcessMetadataUnavailable | NativeFieldUnavailable | ScopeExcluded | NoncriticalEvidenceTruncated
    | ObservationRaced

  datatype Impact = SocketSet | Ownership | Metadata | ScopeImpact

  datatype Gap = Gap(impact: Impact, code: GapCode, endpoint: Option<Endpoint>, pid: Option<nat>,
                     affectedPidCount: Option<nat>, message: string)

  /** Position of the code's serialized name in byte order; the program compares the names. */
  function NameRank(c: GapCode): nat {
    match c
    case NativeFieldUnavailable => 0
    case NoncriticalEvidenceTruncated => 1
    case ObservationRaced => 2
    case OwnerAttributionIncomplete => 3
    case OwnerDisappeared => 4
    case OwnerPermissionDenied => 5
    case ProcessIdentityUnavailable => 6
    case ProcessMetadataUnavailable => 7
    case ScopeExcluded => 8
  }

  function CompareCodeName(l: GapCode, r: GapCode): Ordering {
    CompareInt(NameRank(l), NameRank(r))
  }

  function ImpactRank(i: Impact): nat {
    match i
    case SocketSet => 0
    case Ownership => 1
    case Metadata => 2
    case ScopeImpact => 3
  }

  function CompareGapSubject(l: Gap, r: Gap): Ordering {
    CompareInt(ImpactRank(l.impact), ImpactRank(r.impact))
    .Then(CompareCodeName(l.code, r.code))
    .Then(CompareOption(CompareEndpoint, l.endpoint, r.endpoint))
  }

  function CompareGap(l: Gap, r: Gap): Ordering {
    CompareGapSubject(l, r)
    .Then(CompareOption(CompareNat, l.pid, r.pid))
    .Then(CompareOption(CompareNat, l.affectedPidCount, r.affectedPidCount))
    .Then(CompareString(l.message, r.message))
  }

  lemma GapSubjectLawful()
    ensures Lawful(CompareGapSubject)
    ensures forall x, y :: CompareGapSubject(x, y) == Equal <==>
                           x.impact == y.impact && x.code == y.code && x.endpoint == y.endpoint
  {
    EndpointLawful();
    OptionLawful(CompareEndpoint);
    forall x, y, z ensures LawfulAt(CompareGapSubject, x, y, z) {
      assert LawfulAt(OnOptions(CompareEndpoint), x.endpoint, y.endpoint, z.endpoint);
    }
    forall x, y ensures CompareOption(CompareEndpoint, x, y) == Equal <==> x == y {}
  }

  lemma GapLawfulAt(x: Gap, y: Gap, z: Gap)
    ensures LawfulAt(CompareGap, x, y, z)
  {
    assert LawfulAt(CompareGapSubject, x, y, z) by { GapSubjectLawful(); }
    assert LawfulAt(OnOptions(CompareNat), x.pid, y.pid, z.pid) by { OptionNatLawful(); }
    assert LawfulAt(OnOptions(CompareNat), x.affectedPidCount, y.affectedPidCount, z.affectedPidCount) by {
      OptionNatLawful();
    }
    assert LawfulAt(CompareString, x.message, y.message, z.message) by { StringLawful(); }
    hide CompareGapSubject;
    hide CompareOption;
    hide CompareString;
  }

  lemma GapSeparates(x: Gap, y: Gap)
    ensures CompareGap(x, y) == Equal <==> x == y
  {
    assert CompareGapSubject(x, y) == Equal <==> x.impact == y.impact && x.code == y.code && x.endpoint == y.endpoint by {
      GapSubjectLawful();
    }
    assert CompareString(x.message, y.message) == Equal <==> x.message == y.message by { StringLawful(); }
    hide CompareGapSubject;
    hide CompareString;
  }

  lemma GapLawful()
    ensures Lawful(CompareGap)
    ensures forall x, y :: CompareGap(x, y) == Equal <==> x == y
  {
    hide CompareGap;
    forall x, y, z ensures LawfulAt(CompareGap, x, y, z) { GapLawfulAt(x, y, z); }
    forall x, y ensures CompareGap(x, y) == Equal <==> x == y { GapSeparates(x, y); }
  }

  // ----- Owner completeness

  datatype OwnerCompleteness = Complete | Partial(reasons: seq<GapCode>) | Raced

  function CompletenessRank(c: OwnerCompleteness): nat {
    match c
    case Complete => 0
    case Partial(_) => 1
    case Raced => 2
  }

  function CompareCompleteness(l: OwnerCompleteness, r: OwnerCompleteness): Ordering {
    CompareInt(CompletenessRank(l), CompletenessRank(r))
    .Then(if l.Partial? && r.Partial? then CompareSeq(CompareCodeName, l.reasons, r.reasons) else Equal)
  }

  lemma ReasonsLawful()
    ensures Lawful(OnSeqs(CompareCodeName))
  {
    forall x, y, z ensures LawfulAt(CompareCodeName, x, y, z) {}
    SeqLawful(CompareCodeName);
  }

  lemma CompletenessLawfulAt(x: OwnerCompleteness, y: OwnerCompleteness, z: OwnerCompleteness)
    ensures LawfulAt(CompareCompleteness, x, y, z)
  {
    ReasonsLawful();
    hide CompareSeq;
    if x.Partial? {
      assert LawfulAt(OnSeqs(CompareCodeName), x.reasons, x.reasons, x.reasons);
      if y.Partial? {
        assert LawfulAt(OnSeqs(CompareCodeName), x.reasons, y.reasons, y.reasons);
        if z.Partial? {
          assert LawfulAt(OnSeqs(CompareCodeName), x.reasons, y.reasons, z.reasons);
        }
      }
    }
  }

  lemma CompletenessSeparates(x: OwnerCompleteness, y: OwnerCompleteness)
    ensures CompareCompleteness(x, y) == Equal <==> x == y
  {
    if x.Partial? && y.Partial? {
      SeqSeparates(CompareCodeName, x.reasons, y.reasons);
    }
  }

  lemma CompletenessLawful()
    ensures Lawful(CompareCompleteness)
    ensures forall x, y :: CompareCompleteness(x, y) == Equal <==> x == y
  {
    hide CompareCompleteness;
    forall x, y, z ensures LawfulAt(CompareCompleteness, x, y, z) { CompletenessLawfulAt(x, y, z); }
    forall x, y ensures CompareCompleteness(x, y) == Equal <==> x == y { CompletenessSeparates(x, y); }
  }

  // ----- Sockets and snapshots

  datatype Socket = Socket(endpoint: Endpoint, state: SocketState, timer: Option<Timer>, owners: seq<Owner>,
                           ownerCompleteness: OwnerCompleteness, token: Option<Token>, localUid: Option<nat>)

  datatype MetadataCompleteness = MetadataComplete | MetadataPartial

  /** Optional text fields carry only their byte length, which is all the budget reads. */
  datatype Process = Process(name: Option<nat>, executablePath: Option<nat>, commandLine: Option<nat>,
                             parentPid: Option<nat>, parentProcessName: Option<nat>,
                             budgetExceeded: bool, metadata: MetadataCompleteness)

  datatype SnapshotCompleteness = SnapshotComplete | SnapshotPartial | SnapshotRaced

  datatype Snapshot = Snapshot(startedAt: int, completedAt: int, completeness: SnapshotCompleteness,
                               ownerCompleteness: OwnerCompleteness, gaps: seq<Gap>, omittedGaps: nat,
                               sockets: seq<Socket>, processes: map<ProcessIdentity, Process>)
  {
    /** `socket_set_diff_safe` */
    predicate SocketSetDiffSafe() {
      && completeness != SnapshotRaced
      && omittedGaps == 0
      && forall g | g in gaps :: g.impact != SocketSet
    }
  }
}

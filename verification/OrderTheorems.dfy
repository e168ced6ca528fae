/** What each comparator of the program sorts by, spelled out: which value comes first, and which
    key decides when earlier ones agree. */
module OrderTheorems {
  import opened Orders
  import opened Observation
  import opened SocketOrder
  import opened DiffSpec
  import PublicOutput

  /** An earlier key decides; when it ties, the rest does. */
  ghost predicate Lex(before: bool, same: bool, rest: bool) {
    before || (same && rest)
  }

  // ----- Endpoints

  ghost predicate AddressBefore(x: Address, y: Address) {
    (x.V4? && y.V6?) || ((x.V4? <==> y.V4?) && x.octets < y.octets)
  }

  /** A missing scope, then an unscoped address, then interfaces by index, then an unavailable one. */
  ghost predicate ScopeBefore(x: Option<Ipv6Scope>, y: Option<Ipv6Scope>) {
    match (x, y)
    case (None, Some(_)) => true
    case (Some(Unscoped), Some(InterfaceIndex(_))) => true
    case (Some(Unscoped), Some(ScopeUnavailable)) => true
    case (Some(InterfaceIndex(_)), Some(ScopeUnavailable)) => true
    case (Some(InterfaceIndex(i)), Some(InterfaceIndex(j))) => i < j
    case _ => false
  }

  /** TCP before UDP, then by address, scope and port. */
  ghost predicate EndpointBefore(x: Endpoint, y: Endpoint) {
    Lex(x.protocol == Tcp && y.protocol == Udp, x.protocol == y.protocol,
        Lex(AddressBefore(x.address, y.address), x.address == y.address,
            Lex(ScopeBefore(x.scope, y.scope), x.scope == y.scope, x.port < y.port)))
  }

  lemma EndpointOrder(x: Endpoint, y: Endpoint)
    ensures CompareEndpoint(x, y) == Less <==> EndpointBefore(x, y)
  {
    ScopeLawful();
    AddressLawful(x.address, y.address, y.address);
  }

  // ----- States and tokens

  /** The states in their order; unknown ones follow, by native code. */
  ghost function KnownStates(): seq<SocketState> {
    [Closed, Listen, SynSent, SynReceived, Established, FinWait1, FinWait2, CloseWait, Closing, LastAck, TimeWait,
     DeleteTcb, NewSynReceived, Bound]
  }

  lemma StateOrder(i: nat, j: nat, m: nat, n: nat)
    requires i < j < |KnownStates()| && m < n
    ensures CompareState(KnownStates()[i], KnownStates()[j]) == Less
    ensures CompareState(KnownStates()[i], UnknownState(m)) == Less
    ensures CompareState(UnknownState(m), UnknownState(n)) == Less
  {
    StateAt(i);
    StateAt(j);
    hide OrderKey;
    hide KnownStates;
    assert OrderKey(UnknownState(m)) == (14, m) && OrderKey(UnknownState(n)) == (14, n) by { UnknownAt(m); UnknownAt(n); }
  }

  lemma StateAt(i: nat)
    requires i < |KnownStates()|
    ensures OrderKey(KnownStates()[i]) == (i, 0)
  {
  }

  lemma UnknownAt(n: nat)
    ensures OrderKey(UnknownState(n)) == (14, n)
  {
  }

  /** Inodes before macOS identifiers, each by number; a missing token comes last. */
  ghost predicate TokenBefore(x: Option<Token>, y: Option<Token>) {
    x.Some? && (y.None? || (x.value.LinuxInode? && y.value.MacOsSocketId?)
                || ((x.value.LinuxInode? <==> y.value.LinuxInode?) && x.value.id < y.value.id))
  }

  lemma TokenOrder(x: Option<Token>, y: Option<Token>)
    ensures CompareToken(x, y) == Less <==> TokenBefore(x, y)
    ensures CompareToken(x, y) == Equal <==> x == y
  {
  }

  // ----- Sockets and events

  /** What a snapshot's sockets are sorted by before they are compared: endpoint, state, token,
      owner evidence, owners, timer. */
  ghost predicate SocketBefore(x: Socket, y: Socket) {
    Lex(EndpointBefore(x.endpoint, y.endpoint), x.endpoint == y.endpoint,
        Lex(CompareState(x.state, y.state) == Less, x.state == y.state,
            Lex(TokenBefore(x.token, y.token), x.token == y.token,
                Lex(CompareOwnerSet(x, y) == Less, CompareOwnerSet(x, y) == Equal,
                    Lex(CompareSeq(CompareOwner, x.owners, y.owners) == Less, x.owners == y.owners,
                        CompareOption(CompareTimer, x.timer, y.timer) == Less)))))
  }

  lemma SocketsInOrder(x: Socket, y: Socket)
    ensures CompareSocket(x, y) == Less <==> SocketBefore(x, y)
  {
    EndpointOrder(x.endpoint, y.endpoint);
    assert CompareEndpoint(x.endpoint, y.endpoint) == Equal <==> x.endpoint == y.endpoint by { EndpointLawful(); }
    assert CompareState(x.state, y.state) == Equal <==> x.state == y.state by { StateLawful(); }
    TokenOrder(x.token, y.token);
    assert CompareSeq(CompareOwner, x.owners, y.owners) == Equal <==> x.owners == y.owners by { OwnerLawful(); }
    hide CompareEndpoint;
    hide EndpointBefore;
    hide CompareState;
    hide CompareToken;
    hide TokenBefore;
    hide CompareOwnerSet;
    hide CompareSeq;
    hide CompareOption;
  }

  /** Releases, replacements, binds, then baselines. */
  ghost predicate KindBefore(x: EventSides, y: EventSides) {
    || (x.ReleaseSide? && !y.ReleaseSide?)
    || (x.ReplacementSides? && (y.BindSide? || y.BaselineSide?))
    || (x.BindSide? && y.BaselineSide?)
  }

  ghost predicate SameKind(x: EventSides, y: EventSides) {
    (x.ReleaseSide? && y.ReleaseSide?) || (x.ReplacementSides? && y.ReplacementSides?) || (x.BindSide? && y.BindSide?)
    || (x.BaselineSide? && y.BaselineSide?)
  }

  /** The socket an event is about: the released one, otherwise the current one. */
  ghost function Subject(e: EventSides): Socket {
    match e
    case ReleaseSide(s) => s
    case BindSide(s) => s
    case BaselineSide(s) => s
    case ReplacementSides(_, c) => c
  }

  ghost predicate EvidenceBefore(x: EventSides, y: EventSides) {
    if x.ReplacementSides? && y.ReplacementSides? then
      Lex(TokenBefore(x.previous.token, y.previous.token), x.previous.token == y.previous.token,
          Lex(TokenBefore(x.current.token, y.current.token), x.current.token == y.current.token,
              Lex(CompareOwnerSet(x.previous, y.previous) == Less, CompareOwnerSet(x.previous, y.previous) == Equal,
                  CompareOwnerSet(x.current, y.current) == Less)))
    else
      Lex(TokenBefore(Subject(x).token, Subject(y).token), Subject(x).token == Subject(y).token,
          CompareOwnerSet(Subject(x), Subject(y)) == Less)
  }

  /** The order the stream promises: by endpoint, state, kind of event, then evidence. */
  ghost predicate EventBefore(x: EventSides, y: EventSides) {
    Lex(EndpointBefore(Subject(x).endpoint, Subject(y).endpoint), Subject(x).endpoint == Subject(y).endpoint,
        Lex(CompareState(Subject(x).state, Subject(y).state) == Less, Subject(x).state == Subject(y).state,
            Lex(KindBefore(x, y), SameKind(x, y), EvidenceBefore(x, y))))
  }

  lemma EventsInOrder(x: WatchEvent, y: WatchEvent)
    ensures CompareEventPrefix(x, y) == Less <==> EventBefore(x.sides, y.sides)
  {
    var s, t := x.EventSocket(), y.EventSocket();
    EndpointOrder(s.endpoint, t.endpoint);
    assert CompareEndpoint(s.endpoint, t.endpoint) == Equal <==> s.endpoint == t.endpoint by { EndpointLawful(); }
    assert CompareState(s.state, t.state) == Equal <==> s.state == t.state by { StateLawful(); }
    TokenOrder(s.token, t.token);
    if x.sides.ReplacementSides? && y.sides.ReplacementSides? {
      TokenOrder(x.sides.previous.token, y.sides.previous.token);
    }
    hide CompareEndpoint;
    hide EndpointBefore;
    hide CompareState;
    hide CompareToken;
    hide TokenBefore;
    hide CompareOwnerSet;
  }

  // ----- Owners and completeness

  ghost predicate CompletenessBefore(x: OwnerCompleteness, y: OwnerCompleteness) {
    || (x == Complete && y != Complete)
    || (x.Partial? && y == Raced)
    || (x.Partial? && y.Partial? && CompareSeq(CompareCodeName, x.reasons, y.reasons) == Less)
  }

  lemma CompletenessOrder(x: OwnerCompleteness, y: OwnerCompleteness)
    ensures CompareCompleteness(x, y) == Less <==> CompletenessBefore(x, y)
  {
    hide CompareSeq;
  }

  ghost predicate MarkerBefore(x: StartMarker, y: StartMarker) {
    match (x, y)
    case (LinuxStartTicks(a), LinuxStartTicks(b)) => a < b
    case (LinuxStartTicks(_), _) => true
    case (MacOsStartTime(a, i), MacOsStartTime(b, j)) => a < b || (a == b && i < j)
    case (MacOsStartTime(_, _), WindowsCreationTime(_)) => true
    case (WindowsCreationTime(a), WindowsCreationTime(b)) => a < b
    case _ => false
  }

  /** The name a reason is published under. */
  ghost function ReasonCode(r: UnverifiedReason): GapCode {
    match r
    case PermissionDenied => OwnerPermissionDenied
    case Disappeared => OwnerDisappeared
    case IdentityUnavailable => ProcessIdentityUnavailable
    case ReasonRaced => ObservationRaced
  }

  /** Public owners: verified ones first, then by PID, by start marker, and by the name of the reason. */
  ghost predicate PublicOwnerBefore(x: Owner, y: Owner) {
    match (x, y)
    case (Verified(_), UnverifiedPid(_, _)) => true
    case (UnverifiedPid(_, _), Verified(_)) => false
    case (Verified(i), Verified(j)) => Lex(i.pid < j.pid, i.pid == j.pid, MarkerBefore(i.startMarker, j.startMarker))
    case (UnverifiedPid(p, a), UnverifiedPid(q, b)) =>
      Lex(p < q, p == q, CompareCodeName(ReasonCode(a), ReasonCode(b)) == Less)
  }

  lemma PublicOwnerOrder(x: Owner, y: Owner)
    ensures PublicOutput.ComparePublicOwner(x, y) == Less <==> PublicOwnerBefore(x, y)
  {
  }

  // ----- Public names

  /** The name each code is published under. */
  ghost function CodeName(c: GapCode): string {
    match c
    case OwnerPermissionDenied => "owner_" + "permission_denied"
    case OwnerAttributionIncomplete => "owner_" + "attribution_incomplete"
    case OwnerDisappeared => "owner_" + "disappeared"
    case ProcessIdentityUnavailable => "process_" + "identity_unavailable"
    case ProcessMetadataUnavailable => "process_" + "metadata_unavailable"
    case NativeFieldUnavailable => "native_field_unavailable"
    case ScopeExcluded => "scope_excluded"
    case NoncriticalEvidenceTruncated => "noncritical_evidence_truncated"
    case ObservationRaced => "observation_raced"
  }

  ghost function CodesInOrder(): seq<GapCode> {
    [NativeFieldUnavailable, NoncriticalEvidenceTruncated, ObservationRaced, OwnerAttributionIncomplete, OwnerDisappeared,
     OwnerPermissionDenied, ProcessIdentityUnavailable, ProcessMetadataUnavailable, ScopeExcluded]
  }

  lemma {:induction false} CommonPrefix(prefix: string, x: string, y: string)
    ensures CompareString(prefix + x, prefix + y) == CompareString(x, y)
  {
    if prefix == [] {
      assert prefix + x == x && prefix + y == y;
    } else {
      assert (prefix + x)[1..] == prefix[1..] + x && (prefix + y)[1..] == prefix[1..] + y;
      CommonPrefix(prefix[1..], x, y);
    }
  }

  lemma FirstDiffers(x: string, y: string)
    requires x != "" && y != "" && x[0] < y[0]
    ensures CompareString(x, y) == Less
  {
  }

  lemma SecondDiffers(x: string, y: string)
    requires |x| > 1 && |y| > 1 && x[0] == y[0] && x[1] < y[1]
    ensures CompareString(x, y) == Less
  {
    FirstDiffers(x[1..], y[1..]);
  }

  /** Codes are compared by their published names: the ranks list the names in ascending order. */
  lemma NamesAscend(i: nat)
    requires i + 1 < |CodesInOrder()|
    ensures CompareString(CodeName(CodesInOrder()[i]), CodeName(CodesInOrder()[i + 1])) == Less
    ensures CompareCodeName(CodesInOrder()[i], CodesInOrder()[i + 1]) == Less
  {
    hide CompareString;
    if i == 0 { SecondDiffers("native_field_unavailable", "noncritical_evidence_truncated"); }
    if i == 1 { FirstDiffers("noncritical_evidence_truncated", "observation_raced"); }
    if i == 2 { SecondDiffers("observation_raced", "owner_" + "attribution_incomplete"); }
    if i == 3 { OwnerNames("attribution_incomplete", "disappeared"); }
    if i == 4 { OwnerNames("disappeared", "permission_denied"); }
    if i == 5 { FirstDiffers("owner_" + "permission_denied", "process_" + "identity_unavailable"); }
    if i == 6 {
      CommonPrefix("process_", "identity_unavailable", "metadata_unavailable");
      FirstDiffers("identity_unavailable", "metadata_unavailable");
    }
    if i == 7 { FirstDiffers("process_" + "metadata_unavailable", "scope_excluded"); }
  }

  lemma OwnerNames(x: string, y: string)
    requires x != "" && y != "" && x[0] < y[0]
    ensures CompareString("owner_" + x, "owner_" + y) == Less
  {
    CommonPrefix("owner_", x, y);
    FirstDiffers(x, y);
  }
}

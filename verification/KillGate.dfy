/** The destructive-authority gate of `src/collector.rs`: which snapshots a kill may act on. */
module KillGate {
  import opened Orders
  import opened Observation

  datatype TargetMode = ByPid(pid: nat) | ByPort(port: nat)

  /** How much the evidence allows; `Rank` orders the refusals by which one is reported. */
  datatype Authority = Granted | PartialEvidence | DeniedEvidence | RacedEvidence {
    function Rank(): nat {
      match this
      case Granted => 0
      case PartialEvidence => 1
      case DeniedEvidence => 2
      case RacedEvidence => 3
    }

    function Merge(other: Authority): Authority {
      if other.Rank() > Rank() then other else this
    }
  }

  datatype KillError = MalformedRequest | RacedRefusal | PermissionRefusal | PartialRefusal | ProjectionLimit

  const DERIVED_PORT_ENTRIES_MAX: nat := 262_144

  /** A projected row: one open socket and one of its owners, or none. */
  datatype Descriptor = Descriptor(socket: nat, owner: Option<nat>)

  // ----- Matching sockets

  /** The sockets whose evidence the gate judges at all. */
  predicate Killable(s: Socket) {
    || (s.endpoint.protocol == Tcp && s.state == Listen)
    || (s.endpoint.protocol == Udp && s.state == Bound)
  }

  function UnverifiedReasonFor(owners: seq<Owner>, pid: nat): Option<UnverifiedReason> {
    if owners == [] then None
    else if owners[0].UnverifiedPid? && owners[0].pid == pid then Some(owners[0].reason)
    else UnverifiedReasonFor(owners[1..], pid)
  }

  predicate HasVerified(owners: seq<Owner>, pid: nat) {
    exists o | o in owners :: o.Verified? && o.identity.pid == pid
  }

  /** `destructive_socket_match`: whether the socket belongs to the target, and the reason its
      own edge to the target PID is unverified, if it is. */
  function Match(s: Socket, mode: TargetMode): Option<Option<UnverifiedReason>> {
    if !Killable(s) then None
    else match mode
      case ByPort(port) => if s.endpoint.port == port then Some(None) else None
      case ByPid(pid) =>
        var reason := UnverifiedReasonFor(s.owners, pid);
        if HasVerified(s.owners, pid) || reason.Some? then Some(reason) else None
  }

  function When(condition: bool, a: Authority): Authority {
    if condition then a else Granted
  }

  /** `socket_authority` */
  function SocketAuthority(s: Socket, mode: TargetMode, reason: Option<UnverifiedReason>): Authority {
    var c := s.ownerCompleteness;
    Granted
    .Merge(When(reason.Some? || c != Complete, PartialEvidence))
    .Merge(When((c.Partial? && OwnerPermissionDenied in c.reasons) || reason == Some(PermissionDenied), DeniedEvidence))
    .Merge(When(c == Raced || reason == Some(ReasonRaced), RacedEvidence))
    .Merge(When(mode.ByPort? && (s.owners == [] || exists o | o in s.owners :: !o.Verified?), PartialEvidence))
    .Merge(When(mode.ByPort? && exists o | o in s.owners :: o.UnverifiedPid? && o.reason == PermissionDenied, DeniedEvidence))
  }

  // ----- Gaps

  /** `gap_applies_to_target` */
  predicate GapApplies(g: Gap, mode: TargetMode, matched: set<Endpoint>) {
    var named := g.endpoint.Some? && g.endpoint.value in matched;
    match mode
    case ByPid(pid) =>
      if g.impact == SocketSet then g.pid == Some(pid) || named || (g.endpoint.None? && g.pid.None?)
      else if g.impact == Ownership then named || (g.endpoint.None? && g.pid == Some(pid))
      else false
    case ByPort(port) =>
      (g.impact == SocketSet || g.impact == Ownership) && (g.endpoint.None? || g.endpoint.value.port == port)
  }

  /** What a gap must say for a port kill to ignore it: it lost neither sockets nor owners, or
      it names an endpoint on another port. */
  ghost predicate SparesPort(g: Gap, port: nat) {
    g.impact == SocketSet || g.impact == Ownership ==> g.endpoint.Some? && g.endpoint.value.port != port
  }

  /** What a gap must say for a process kill to ignore it, given the endpoints of the sockets
      that name the process. */
  ghost predicate SparesPid(g: Gap, pid: nat, named: set<Endpoint>) {
    && (g.impact == SocketSet || g.impact == Ownership ==> g.endpoint.Some? ==> g.endpoint.value !in named)
    && (g.impact == SocketSet ==> g.pid != Some(pid) && (g.endpoint.Some? || g.pid.Some?))
    && (g.impact == Ownership ==> g.endpoint.Some? || g.pid != Some(pid))
  }

  lemma GapMeaning(g: Gap, pid: nat, port: nat, matched: set<Endpoint>)
    ensures GapApplies(g, ByPort(port), matched) <==> !SparesPort(g, port)
    ensures GapApplies(g, ByPid(pid), matched) <==> !SparesPid(g, pid, matched)
  {
  }

  function GapAuthority(g: Gap, mode: TargetMode, matched: set<Endpoint>): Authority {
    When(g.code == ObservationRaced, RacedEvidence)
    .Merge(When(GapApplies(g, mode, matched), if g.code == OwnerPermissionDenied then DeniedEvidence else PartialEvidence))
  }

  // ----- What the gate decides, independently of the order it looks

  function MatchedEndpoints(sockets: seq<Socket>, mode: TargetMode): set<Endpoint> {
    set s | s in sockets && Match(s, mode).Some? :: s.endpoint
  }

  /** Some piece of evidence asks for at least this refusal. */
  predicate Demands(s: Snapshot, mode: TargetMode, level: Authority) {
    || (level.Rank() <= 1 && s.omittedGaps != 0)
    || s.completeness == SnapshotRaced
    || (exists x | x in s.sockets :: Match(x, mode).Some? && SocketAuthority(x, mode, Match(x, mode).value).Rank() >= level.Rank())
    || (exists g | g in s.gaps :: GapAuthority(g, mode, MatchedEndpoints(s.sockets, mode)).Rank() >= level.Rank())
  }

  /** The strongest refusal any evidence demands. */
  function Decision(s: Snapshot, mode: TargetMode): Authority {
    if Demands(s, mode, RacedEvidence) then RacedEvidence
    else if Demands(s, mode, DeniedEvidence) then DeniedEvidence
    else if Demands(s, mode, PartialEvidence) then PartialEvidence
    else Granted
  }

  // ----- The gate

  /** Every matching socket judged in turn, on top of `base`. */
  method JudgeSockets(sockets: seq<Socket>, mode: TargetMode, base: Authority)
    returns (authority: Authority, matched: set<Endpoint>)
    ensures matched == MatchedEndpoints(sockets, mode)
    ensures authority.Rank() >= base.Rank()
    ensures forall x | x in sockets && Match(x, mode).Some? ::
              SocketAuthority(x, mode, Match(x, mode).value).Rank() <= authority.Rank()
    ensures authority == base || exists x | x in sockets ::
              Match(x, mode).Some? && SocketAuthority(x, mode, Match(x, mode).value) == authority
  {
    hide Match;
    hide SocketAuthority;
    authority, matched := base, {};
    for i := 0 to |sockets|
      invariant matched == MatchedEndpoints(sockets[..i], mode)
      invariant authority.Rank() >= base.Rank()
      invariant forall x | x in sockets[..i] && Match(x, mode).Some? ::
                  SocketAuthority(x, mode, Match(x, mode).value).Rank() <= authority.Rank()
      invariant authority == base || exists x | x in sockets ::
                  Match(x, mode).Some? && SocketAuthority(x, mode, Match(x, mode).value) == authority
    {
      assert sockets[..i+1] == sockets[..i] + [sockets[i]];
      var m := Match(sockets[i], mode);
      if m.Some? {
        matched := matched + {sockets[i].endpoint};
        authority := authority.Merge(SocketAuthority(sockets[i], mode, m.value));
      }
    }
    assert sockets[..|sockets|] == sockets;
  }

  /** Every gap judged in turn, on top of `base`. */
  method JudgeGaps(gaps: seq<Gap>, mode: TargetMode, matched: set<Endpoint>, base: Authority) returns (authority: Authority)
    ensures authority.Rank() >= base.Rank()
    ensures forall g | g in gaps :: GapAuthority(g, mode, matched).Rank() <= authority.Rank()
    ensures authority == base || exists g | g in gaps :: GapAuthority(g, mode, matched) == authority
  {
    hide GapAuthority;
    hide GapApplies;
    authority := base;
    for i := 0 to |gaps|
      invariant authority.Rank() >= base.Rank()
      invariant forall g | g in gaps[..i] :: GapAuthority(g, mode, matched).Rank() <= authority.Rank()
      invariant authority == base || exists g | g in gaps :: GapAuthority(g, mode, matched) == authority
    {
      assert gaps[..i+1] == gaps[..i] + [gaps[i]];
      var gap := gaps[i];
      GapAuthoritySteps(gap, mode, matched, authority);
      if gap.code == ObservationRaced {
        authority := authority.Merge(RacedEvidence);
      }
      if GapApplies(gap, mode, matched) {
        authority := authority.Merge(if gap.code == OwnerPermissionDenied then DeniedEvidence else PartialEvidence);
      }
    }
    assert gaps[..|gaps|] == gaps;
  }

  method EvaluateAuthority(s: Snapshot, mode: TargetMode) returns (authority: Authority)
    ensures authority == Decision(s, mode)
  {
    hide Match;
    hide SocketAuthority;
    hide GapAuthority;
    hide MatchedEndpoints;
    authority := Granted;
    if s.omittedGaps != 0 {
      authority := authority.Merge(PartialEvidence);
    }
    if s.completeness == SnapshotRaced {
      authority := authority.Merge(RacedEvidence);
    }
    var matched: set<Endpoint>;
    authority, matched := JudgeSockets(s.sockets, mode, authority);
    authority := JudgeGaps(s.gaps, mode, matched, authority);
  }

  /** Merging a gap's two contributions one after the other is merging their maximum. */
  lemma GapAuthoritySteps(g: Gap, mode: TargetMode, matched: set<Endpoint>, a: Authority)
    ensures a.Merge(GapAuthority(g, mode, matched))
         == (var first := if g.code == ObservationRaced then a.Merge(RacedEvidence) else a;
             if GapApplies(g, mode, matched)
             then first.Merge(if g.code == OwnerPermissionDenied then DeniedEvidence else PartialEvidence) else first)
  {
  }

  /** The rows `project_legacy_target` emits for one socket. */
  function SocketRows(s: Socket, index: nat, pid: Option<nat>, port: Option<nat>): seq<Descriptor> {
    if port.Some? && s.endpoint.port != port.value then []
    else if s.state != Listen && s.state != Bound then []
    else if s.owners == [] then (if pid.Some? then [] else [Descriptor(index, None)])
    else OwnerRows(s.owners, index, pid, 0)
  }

  function OwnerRows(owners: seq<Owner>, index: nat, pid: Option<nat>, from: nat): seq<Descriptor>
    requires from <= |owners|
    decreases |owners| - from
  {
    if from == |owners| then []
    else (if pid.Some? && OwnerPid(owners[from]) != pid.value then [] else [Descriptor(index, Some(from))])
         + OwnerRows(owners, index, pid, from + 1)
  }

  function Rows(sockets: seq<Socket>, pid: Option<nat>, port: Option<nat>): seq<Descriptor> {
    if sockets == [] then []
    else Rows(sockets[..|sockets|-1], pid, port) + SocketRows(sockets[|sockets|-1], |sockets| - 1, pid, port)
  }

  method ProjectTarget(sockets: seq<Socket>, pid: Option<nat>, port: Option<nat>) returns (r: Result<seq<Descriptor>, KillError>)
    ensures r == if |Rows(sockets, pid, port)| <= DERIVED_PORT_ENTRIES_MAX then Ok(Rows(sockets, pid, port)) else Err(ProjectionLimit)
  {
    hide SocketRows;
    var rows: seq<Descriptor> := [];
    for i := 0 to |sockets|
      invariant rows == Rows(sockets[..i], pid, port) && |rows| <= DERIVED_PORT_ENTRIES_MAX
    {
      assert sockets[..i+1][..i] == sockets[..i];
      var emitted := SocketRows(sockets[i], i, pid, port);
      if |rows| + |emitted| > DERIVED_PORT_ENTRIES_MAX {
        RowsGrow(sockets, i + 1, pid, port);
        return Err(ProjectionLimit);
      }
      rows := rows + emitted;
    }
    assert sockets[..|sockets|] == sockets;
    r := Ok(rows);
  }

  lemma {:induction false} RowsGrow(sockets: seq<Socket>, n: nat, pid: Option<nat>, port: Option<nat>)
    requires n <= |sockets|
    ensures |Rows(sockets[..n], pid, port)| <= |Rows(sockets, pid, port)|
    decreases |sockets| - n
  {
    if n < |sockets| {
      assert sockets[..n+1][..n] == sockets[..n];
      RowsGrow(sockets, n + 1, pid, port);
    } else {
      assert sockets[..n] == sockets;
    }
  }

  function Refusal(a: Authority): KillError
    requires a != Granted
  {
    match a
    case RacedEvidence => RacedRefusal
    case DeniedEvidence => PermissionRefusal
    case PartialEvidence => PartialRefusal
  }

  function Target(pid: Option<nat>, port: Option<nat>): Option<TargetMode> {
    match (pid, port)
    case (Some(p), None) => Some(ByPid(p))
    case (None, Some(q)) => Some(ByPort(q))
    case _ => None
  }

  /** Each decision's answer, and the bound on what a grant hands over. */
  ghost predicate Answers(s: Snapshot, mode: TargetMode, rows: seq<Descriptor>, r: Result<seq<Descriptor>, KillError>) {
    match Decision(s, mode)
    case RacedEvidence => r == Err(RacedRefusal)
    case DeniedEvidence => r == Err(PermissionRefusal)
    case PartialEvidence => r == Err(PartialRefusal)
    case Granted => r == if |rows| <= 262_144 then Ok(rows) else Err(ProjectionLimit)
  }

  /** `kill_ports_from_snapshot` */
  method KillPortsFromSnapshot(s: Snapshot, pid: Option<nat>, port: Option<nat>) returns (r: Result<seq<Descriptor>, KillError>)
    ensures pid.Some? == port.Some? ==> r == Err(MalformedRequest)
    ensures pid.Some? && port.None? ==> Answers(s, ByPid(pid.value), Rows(s.sockets, pid, port), r)
    ensures pid.None? && port.Some? ==> Answers(s, ByPort(port.value), Rows(s.sockets, pid, port), r)
  {
    var mode := Target(pid, port);
    if mode.None? {
      return Err(MalformedRequest);
    }
    var authority := EvaluateAuthority(s, mode.value);
    if authority != Granted {
      return Err(Refusal(authority));
    }
    r := ProjectTarget(s.sockets, pid, port);
  }

  // ----- Properties of the decision

  /** Adding sockets or gaps never weakens the decision: a refusal never becomes a grant. */
  lemma DecisionMonotone(s: Snapshot, t: Snapshot, mode: TargetMode)
    requires s.completeness == t.completeness
    requires s.omittedGaps <= t.omittedGaps
    requires forall x | x in s.sockets :: x in t.sockets
    requires forall g | g in s.gaps :: g in t.gaps
    ensures Decision(s, mode).Rank() <= Decision(t, mode).Rank()
  {
    assert MatchedEndpoints(s.sockets, mode) <= MatchedEndpoints(t.sockets, mode);
    forall level | Demands(s, mode, level) ensures Demands(t, mode, level) {
      DemandsMonotone(s, t, mode, level);
    }
  }

  lemma DemandsMonotone(s: Snapshot, t: Snapshot, mode: TargetMode, level: Authority)
    requires s.completeness == t.completeness && s.omittedGaps <= t.omittedGaps
    requires forall x | x in s.sockets :: x in t.sockets
    requires forall g | g in s.gaps :: g in t.gaps
    requires Demands(s, mode, level)
    ensures Demands(t, mode, level)
  {
    hide Match;
    hide SocketAuthority;
    hide GapAuthority;
    var before, after := MatchedEndpoints(s.sockets, mode), MatchedEndpoints(t.sockets, mode);
    assert before <= after;
    if g :| g in s.gaps && GapAuthority(g, mode, before).Rank() >= level.Rank() {
      GapMonotone(g, mode, before, after);
      assert g in t.gaps;
    }
  }

  lemma GapMonotone(g: Gap, mode: TargetMode, before: set<Endpoint>, after: set<Endpoint>)
    requires before <= after
    ensures GapAuthority(g, mode, before).Rank() <= GapAuthority(g, mode, after).Rank()
  {
  }

  /** The decision, and so the refusal, is a function of the evidence as sets. */
  lemma DecisionIgnoresOrder(s: Snapshot, t: Snapshot, mode: TargetMode)
    requires s.completeness == t.completeness && s.omittedGaps == t.omittedGaps
    requires multiset(s.sockets) == multiset(t.sockets) && multiset(s.gaps) == multiset(t.gaps)
    ensures Decision(s, mode) == Decision(t, mode)
  {
    assert forall x :: x in s.sockets <==> x in multiset(t.sockets);
    assert forall g :: g in s.gaps <==> g in multiset(t.gaps);
    assert forall x :: x in t.sockets <==> x in multiset(s.sockets);
    assert forall g :: g in t.gaps <==> g in multiset(s.gaps);
    DecisionMonotone(s, t, mode);
    DecisionMonotone(t, s, mode);
  }

  /** A socket whose holders are all accounted for. */
  predicate FullyOwned(s: Socket) {
    s.owners != [] && (forall o | o in s.owners :: o.Verified?) && s.ownerCompleteness == Complete
  }

  /** The sockets a row can be projected from. */
  ghost predicate OpenSocket(s: Socket) {
    s.state == Listen || s.state == Bound
  }

  /** A socket that holds its port open: a TCP listener or a bound UDP socket. */
  ghost predicate Holds(x: Socket) {
    (x.endpoint.protocol == Tcp && x.state == Listen) || (x.endpoint.protocol == Udp && x.state == Bound)
  }

  ghost predicate HoldsPort(x: Socket, port: nat) {
    Holds(x) && x.endpoint.port == port
  }

  lemma PortMatch(x: Socket, port: nat)
    ensures Match(x, ByPort(port)) == if HoldsPort(x, port) then Some(None) else None
  {
  }

  /** A port kill is granted exactly when the read did not race, nothing was omitted, every
      socket holding the port is fully owned, and every gap provably spares the port. */
  lemma PortGrantExactly(s: Snapshot, port: nat)
    ensures Decision(s, ByPort(port)) == Granted <==>
              && s.completeness != SnapshotRaced && s.omittedGaps == 0
              && (forall x | x in s.sockets && HoldsPort(x, port) :: FullyOwned(x))
              && (forall g | g in s.gaps :: g.code != ObservationRaced && SparesPort(g, port))
  {
    var mode := ByPort(port);
    var matched := MatchedEndpoints(s.sockets, mode);
    forall x | x in s.sockets ensures Match(x, mode).Some? <==> HoldsPort(x, port) { PortMatch(x, port); }
    forall x | x in s.sockets && Match(x, mode).Some?
      ensures SocketAuthority(x, mode, Match(x, mode).value) == Granted <==> FullyOwned(x) {}
    forall g | g in s.gaps
      ensures GapAuthority(g, mode, matched) == Granted <==> g.code != ObservationRaced && SparesPort(g, port) {
      GapMeaning(g, 0, port, matched);
    }
    hide Match;
    hide SocketAuthority;
    hide GapAuthority;
    assert forall a: Authority :: a.Rank() >= 1 <==> a != Granted;
  }

  // ----- Which refusal

  /** The socket's own evidence raced, or was denied. */
  ghost predicate DeniedOwner(x: Socket) {
    || (x.ownerCompleteness.Partial? && OwnerPermissionDenied in x.ownerCompleteness.reasons)
    || exists o | o in x.owners :: o.UnverifiedPid? && o.reason == PermissionDenied
  }

  lemma PortSocketLevel(x: Socket, port: nat)
    requires HoldsPort(x, port)
    ensures Match(x, ByPort(port)) == Some(None)
    ensures SocketAuthority(x, ByPort(port), None).Rank() >= 3 <==> x.ownerCompleteness == Raced
    ensures SocketAuthority(x, ByPort(port), None).Rank() >= 2 <==> x.ownerCompleteness == Raced || DeniedOwner(x)
  {
  }

  lemma PortGapLevel(g: Gap, port: nat, matched: set<Endpoint>)
    ensures GapAuthority(g, ByPort(port), matched).Rank() >= 3 <==> g.code == ObservationRaced
    ensures GapAuthority(g, ByPort(port), matched).Rank() >= 2 <==>
      g.code == ObservationRaced || (g.code == OwnerPermissionDenied && !SparesPort(g, port))
  {
    GapMeaning(g, 0, port, matched);
  }

  ghost predicate PortRaced(s: Snapshot, port: nat) {
    || s.completeness == SnapshotRaced
    || (exists g | g in s.gaps :: g.code == ObservationRaced)
    || (exists x | x in s.sockets && HoldsPort(x, port) :: x.ownerCompleteness == Raced)
  }

  ghost predicate PortDenied(s: Snapshot, port: nat) {
    || (exists x | x in s.sockets && HoldsPort(x, port) :: DeniedOwner(x))
    || (exists g | g in s.gaps :: g.code == OwnerPermissionDenied && !SparesPort(g, port))
  }

  lemma PortSocketDemand(s: Snapshot, port: nat, level: Authority)
    requires level == RacedEvidence || level == DeniedEvidence
    ensures (exists x | x in s.sockets :: Match(x, ByPort(port)).Some?
                        && SocketAuthority(x, ByPort(port), Match(x, ByPort(port)).value).Rank() >= level.Rank()) <==>
            (exists x | x in s.sockets && HoldsPort(x, port) ::
               x.ownerCompleteness == Raced || (level == DeniedEvidence && DeniedOwner(x)))
  {
    forall x | x in s.sockets && HoldsPort(x, port) { PortSocketLevel(x, port); }
    forall x | x in s.sockets ensures Match(x, ByPort(port)) == if HoldsPort(x, port) then Some(None) else None {
      PortMatch(x, port);
    }
    hide Match;
    hide SocketAuthority;
    hide HoldsPort;
    hide DeniedOwner;
  }

  lemma PortGapDemand(s: Snapshot, port: nat, level: Authority)
    requires level == RacedEvidence || level == DeniedEvidence
    ensures var matched := MatchedEndpoints(s.sockets, ByPort(port));
      (exists g | g in s.gaps :: GapAuthority(g, ByPort(port), matched).Rank() >= level.Rank()) <==>
      (exists g | g in s.gaps :: g.code == ObservationRaced
                                 || (level == DeniedEvidence && g.code == OwnerPermissionDenied && !SparesPort(g, port)))
  {
    hide MatchedEndpoints;
    var matched := MatchedEndpoints(s.sockets, ByPort(port));
    forall g | g in s.gaps { PortGapLevel(g, port, matched); }
    hide GapAuthority;
    hide SparesPort;
  }

  lemma PortDemands(s: Snapshot, port: nat)
    ensures Demands(s, ByPort(port), RacedEvidence) <==> PortRaced(s, port)
    ensures Demands(s, ByPort(port), DeniedEvidence) <==> PortRaced(s, port) || PortDenied(s, port)
  {
    hide Match;
    hide SocketAuthority;
    hide GapAuthority;
    hide MatchedEndpoints;
    hide HoldsPort;
    hide DeniedOwner;
    hide SparesPort;
    PortSocketDemand(s, port, RacedEvidence);
    PortSocketDemand(s, port, DeniedEvidence);
    PortGapDemand(s, port, RacedEvidence);
    PortGapDemand(s, port, DeniedEvidence);
  }

  /** Of what refuses a port kill, a race is reported first, then a permission denial. */
  lemma PortRefusalExactly(s: Snapshot, port: nat)
    ensures Decision(s, ByPort(port)) == RacedEvidence <==> PortRaced(s, port)
    ensures Decision(s, ByPort(port)) == DeniedEvidence <==> !PortRaced(s, port) && PortDenied(s, port)
  {
    PortDemands(s, port);
    hide Demands;
    hide PortRaced;
    hide PortDenied;
  }

  /** An owner edge, verified or not, to the process. */
  ghost predicate EdgeTo(o: Owner, pid: nat) {
    (o.Verified? && o.identity.pid == pid) || (o.UnverifiedPid? && o.pid == pid)
  }

  ghost predicate HeldBy(x: Socket, pid: nat) {
    Holds(x) && exists o | o in x.owners :: EdgeTo(o, pid)
  }

  /** The endpoints of the sockets that name the process. */
  ghost function EndpointsOf(sockets: seq<Socket>, pid: nat): set<Endpoint> {
    set x | x in sockets && HeldBy(x, pid) :: x.endpoint
  }

  /** The first unverified edge to the process gives this reason. */
  ghost predicate EdgeReason(owners: seq<Owner>, pid: nat, reason: UnverifiedReason) {
    exists i | 0 <= i < |owners| ::
      && owners[i] == UnverifiedPid(pid, reason)
      && forall j | 0 <= j < i :: !(owners[j].UnverifiedPid? && owners[j].pid == pid)
  }

  lemma {:induction false} EdgeReasonFound(owners: seq<Owner>, pid: nat)
    ensures forall r :: UnverifiedReasonFor(owners, pid) == Some(r) <==> EdgeReason(owners, pid, r)
    ensures UnverifiedReasonFor(owners, pid).Some? <==> exists o | o in owners :: o.UnverifiedPid? && o.pid == pid
  {
    if owners != [] {
      EdgeReasonFound(owners[1..], pid);
      assert owners == [owners[0]] + owners[1..] && owners[0] in owners;
      forall r ensures UnverifiedReasonFor(owners, pid) == Some(r) <==> EdgeReason(owners, pid, r) {
        EdgeReasonShift(owners, pid, r);
      }
    }
  }

  lemma EdgeReasonShift(owners: seq<Owner>, pid: nat, reason: UnverifiedReason)
    requires owners != []
    ensures EdgeReason(owners, pid, reason) <==>
      if owners[0].UnverifiedPid? && owners[0].pid == pid then owners[0].reason == reason
      else EdgeReason(owners[1..], pid, reason)
  {
    var rest := owners[1..];
    if EdgeReason(owners, pid, reason) {
      var i :| 0 <= i < |owners| && owners[i] == UnverifiedPid(pid, reason)
               && forall j | 0 <= j < i :: !(owners[j].UnverifiedPid? && owners[j].pid == pid);
      if i > 0 {
        assert rest[i-1] == owners[i];
        assert forall j | 0 <= j < i - 1 :: rest[j] == owners[j+1];
      }
    }
    if !(owners[0].UnverifiedPid? && owners[0].pid == pid) {
      if i :| 0 <= i < |rest| && rest[i] == UnverifiedPid(pid, reason)
              && forall j | 0 <= j < i :: !(rest[j].UnverifiedPid? && rest[j].pid == pid) {
        assert owners[i+1] == rest[i];
        assert forall j | 0 < j < i + 1 :: owners[j] == rest[j-1];
      }
    }
  }

  lemma PidMatch(x: Socket, pid: nat)
    ensures Match(x, ByPid(pid)).Some? <==> HeldBy(x, pid)
    ensures Match(x, ByPid(pid)).Some? ==> Match(x, ByPid(pid)).value == UnverifiedReasonFor(x.owners, pid)
    ensures Match(x, ByPid(pid)).Some? ==>
      (SocketAuthority(x, ByPid(pid), Match(x, ByPid(pid)).value) == Granted <==>
         x.ownerCompleteness == Complete && forall o | o in x.owners && EdgeTo(o, pid) :: o.Verified?)
  {
    EdgeReasonFound(x.owners, pid);
    hide UnverifiedReasonFor;
    hide EdgeReason;
  }

  /** A process kill is granted exactly when the read did not race, nothing was omitted, every
      socket the process holds open has a complete owner set whose edges to it are all verified,
      and every gap provably spares the process and those sockets. */
  lemma PidGrantExactly(s: Snapshot, pid: nat)
    ensures Decision(s, ByPid(pid)) == Granted <==>
        && s.completeness != SnapshotRaced && s.omittedGaps == 0
        && (forall x | x in s.sockets && HeldBy(x, pid) ::
              x.ownerCompleteness == Complete && forall o | o in x.owners && EdgeTo(o, pid) :: o.Verified?)
        && (forall g | g in s.gaps :: g.code != ObservationRaced && SparesPid(g, pid, EndpointsOf(s.sockets, pid)))
  {
    var mode := ByPid(pid);
    var matched := MatchedEndpoints(s.sockets, mode);
    forall x ensures Match(x, mode).Some? <==> HeldBy(x, pid) { PidMatch(x, pid); }
    assert matched == EndpointsOf(s.sockets, pid);
    forall x | x in s.sockets && Match(x, mode).Some?
      ensures SocketAuthority(x, mode, Match(x, mode).value) == Granted <==>
        x.ownerCompleteness == Complete && forall o | o in x.owners && EdgeTo(o, pid) :: o.Verified?
    {
      PidMatch(x, pid);
    }
    hide Match;
    hide SocketAuthority;
    hide HeldBy;
    forall g | g in s.gaps
      ensures GapAuthority(g, mode, matched) == Granted <==> g.code != ObservationRaced && SparesPid(g, pid, matched) {
      GapMeaning(g, pid, 0, matched);
    }
    hide GapAuthority;
    hide SparesPid;
    assert forall a: Authority :: a.Rank() >= 1 <==> a != Granted;
  }

  /** The socket's owner set, or its first unverified edge to the process, raced. */
  ghost predicate RacedFor(x: Socket, pid: nat) {
    x.ownerCompleteness == Raced || EdgeReason(x.owners, pid, ReasonRaced)
  }

  ghost predicate DeniedFor(x: Socket, pid: nat) {
    || (x.ownerCompleteness.Partial? && OwnerPermissionDenied in x.ownerCompleteness.reasons)
    || EdgeReason(x.owners, pid, PermissionDenied)
  }

  lemma PidSocketLevel(x: Socket, pid: nat)
    requires HeldBy(x, pid)
    ensures Match(x, ByPid(pid)).Some?
    ensures SocketAuthority(x, ByPid(pid), Match(x, ByPid(pid)).value).Rank() >= 3 <==> RacedFor(x, pid)
    ensures SocketAuthority(x, ByPid(pid), Match(x, ByPid(pid)).value).Rank() >= 2 <==> RacedFor(x, pid) || DeniedFor(x, pid)
  {
    PidMatch(x, pid);
    EdgeReasonFound(x.owners, pid);
    hide UnverifiedReasonFor;
    hide EdgeReason;
    hide Match;
  }

  /** Of what refuses a process kill, a race is reported first, then a permission denial. */
  lemma PidRefusalExactly(s: Snapshot, pid: nat)
    ensures var raced := s.completeness == SnapshotRaced || (exists g | g in s.gaps :: g.code == ObservationRaced)
                         || (exists x | x in s.sockets && HeldBy(x, pid) :: RacedFor(x, pid));
      var denied := (exists x | x in s.sockets && HeldBy(x, pid) :: DeniedFor(x, pid))
        || (exists g | g in s.gaps :: g.code == OwnerPermissionDenied && !SparesPid(g, pid, EndpointsOf(s.sockets, pid)));
      && (Decision(s, ByPid(pid)) == RacedEvidence <==> raced)
      && (Decision(s, ByPid(pid)) == DeniedEvidence <==> !raced && denied)
  {
    var mode := ByPid(pid);
    var matched := MatchedEndpoints(s.sockets, mode);
    hide SocketAuthority;
    hide HeldBy;
    hide RacedFor;
    hide DeniedFor;
    forall x ensures Match(x, mode).Some? <==> HeldBy(x, pid) { PidMatch(x, pid); }
    hide Match;
    assert matched == EndpointsOf(s.sockets, pid);
    forall x | x in s.sockets && HeldBy(x, pid)
      ensures SocketAuthority(x, mode, Match(x, mode).value).Rank() >= 3 <==> RacedFor(x, pid)
      ensures SocketAuthority(x, mode, Match(x, mode).value).Rank() >= 2 <==> RacedFor(x, pid) || DeniedFor(x, pid)
    {
      PidSocketLevel(x, pid);
    }
    forall g | g in s.gaps
      ensures GapAuthority(g, mode, matched).Rank() >= 3 <==> g.code == ObservationRaced
      ensures GapAuthority(g, mode, matched).Rank() >= 2 <==>
                g.code == ObservationRaced || (g.code == OwnerPermissionDenied && !SparesPid(g, pid, matched))
    {
      GapMeaning(g, pid, 0, matched);
    }
    hide GapAuthority;
    hide SparesPid;
  }
}

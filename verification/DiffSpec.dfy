/** What one poll of the watcher reports: the eager, bucket by bucket comparison of two
    sorted socket sequences that the lazy iterator of `src/watch.rs` has to agree with. */
module DiffSpec {
  import opened Orders
  import opened Observation
  import opened SocketOrder
  import opened Pairing

  // ----- Events

  datatype Certainty = Proven | Estimated | Heuristic | UnknownCertainty

  datatype EventSides =
    | BaselineSide(socket: Socket)
    | BindSide(socket: Socket)
    | ReleaseSide(socket: Socket)
    | ReplacementSides(previous: Socket, current: Socket)

  datatype WatchEvent = WatchEvent(sides: EventSides, multiplicity: nat, certainty: Certainty) {
    function KindRank(): nat {
      match sides
      case ReleaseSide(_) => 0
      case ReplacementSides(_, _) => 1
      case BindSide(_) => 2
      case BaselineSide(_) => 3
    }

    function EventSocket(): Socket {
      if sides.ReplacementSides? then sides.current else sides.socket
    }
  }

  function Release(s: Socket): WatchEvent { WatchEvent(ReleaseSide(s), 1, Proven) }

  function Bind(s: Socket): WatchEvent { WatchEvent(BindSide(s), 1, Proven) }

  function Baseline(s: Socket): WatchEvent { WatchEvent(BaselineSide(s), 1, Proven) }

  function Replacement(p: Socket, c: Socket, certainty: Certainty): WatchEvent {
    WatchEvent(ReplacementSides(p, c), 1, certainty)
  }

  function CompareEventTokens(l: WatchEvent, r: WatchEvent): Ordering {
    if l.sides.ReplacementSides? && r.sides.ReplacementSides? then
      CompareToken(l.sides.previous.token, r.sides.previous.token)
      .Then(CompareToken(l.sides.current.token, r.sides.current.token))
    else
      CompareToken(l.EventSocket().token, r.EventSocket().token)
  }

  function CompareEventOwnerSets(l: WatchEvent, r: WatchEvent): Ordering {
    if l.sides.ReplacementSides? && r.sides.ReplacementSides? then
      CompareOwnerSet(l.sides.previous, r.sides.previous).Then(CompareOwnerSet(l.sides.current, r.sides.current))
    else
      CompareOwnerSet(l.EventSocket(), r.EventSocket())
  }

  function CompareEventPrefix(l: WatchEvent, r: WatchEvent): Ordering {
    CompareEndpoint(l.EventSocket().endpoint, r.EventSocket().endpoint)
    .Then(CompareState(l.EventSocket().state, r.EventSocket().state))
    .Then(CompareInt(l.KindRank(), r.KindRank()))
    .Then(CompareEventTokens(l, r))
    .Then(CompareEventOwnerSets(l, r))
  }

  // ----- Replacement evidence

  /** Endpoints whose ownership evidence is incomplete; the program keeps them as a sorted,
      deduplicated vector that it only ever searches for membership. */
  datatype Readiness = Readiness(globallySafe: bool, unsafeEndpoints: set<Endpoint>) {
    predicate Allows(e: Endpoint) {
      globallySafe && e !in unsafeEndpoints
    }
  }

  function GapEndpoints(gaps: seq<Gap>): set<Endpoint> {
    set g | g in gaps && g.impact == Ownership && g.endpoint.Some? :: g.endpoint.value
  }

  function IncompleteEndpoints(sockets: seq<Socket>): set<Endpoint> {
    set s | s in sockets && s.ownerCompleteness != Complete :: s.endpoint
  }

  predicate HasGlobalOwnershipGap(gaps: seq<Gap>) {
    exists g | g in gaps :: g.impact == Ownership && g.endpoint.None?
  }

  function ReadinessOf(s: Snapshot): Readiness {
    Readiness(s.ownerCompleteness == Complete && !HasGlobalOwnershipGap(s.gaps),
              GapEndpoints(s.gaps) + IncompleteEndpoints(s.sockets))
  }

  predicate SameMarkerKind(l: StartMarker, r: StartMarker) {
    || (l.LinuxStartTicks? && r.LinuxStartTicks?)
    || (l.MacOsStartTime? && r.MacOsStartTime?)
    || (l.WindowsCreationTime? && r.WindowsCreationTime?)
  }

  predicate SingleVerified(s: Socket) {
    |s.owners| == 1 && s.owners[0].Verified?
  }

  function ReplacementCertainty(pr: Readiness, p: Socket, cr: Readiness, c: Socket): Option<Certainty> {
    if !pr.Allows(p.endpoint) || !cr.Allows(c.endpoint)
       || p.ownerCompleteness != Complete || c.ownerCompleteness != Complete then None
    else if !SingleVerified(p) || !SingleVerified(c) then None
    else if p.owners[0].identity == c.owners[0].identity then None
    else if p.owners[0].identity.pid == c.owners[0].identity.pid
            && SameMarkerKind(p.owners[0].identity.startMarker, c.owners[0].identity.startMarker) then Some(Proven)
    else Some(Heuristic)
  }

  // ----- The eager comparison

  /** The longer leftover reports the elements its shorter counterpart cannot explain. */
  function SurplusEvents(gone: seq<Socket>, added: seq<Socket>): seq<WatchEvent> {
    if |gone| > |added| then Map(Release, gone[|added|..])
    else if |added| > |gone| then Map(Bind, added[|gone|..])
    else []
  }

  /** Events of one bucket: nothing, one replacement, or the surplus of the longer side. */
  function BucketEvents(pr: Readiness, cr: Readiness, p: seq<Socket>, c: seq<Socket>): seq<WatchEvent> {
    if |p| == 1 && |c| == 1 && CompareSocket(p[0], c[0]) == Equal then []
    else if |p| == 1 && |c| == 1 && ReplacementCertainty(pr, p[0], cr, c[0]).Some? then
      [Replacement(p[0], c[0], ReplacementCertainty(pr, p[0], cr, c[0]).value)]
    else SurplusEvents(OnlyFirst(CompareSocket, p, c), OnlyFirst(CompareSocket, c, p))
  }

  datatype Bucket = Bucket(endpoint: Endpoint, state: SocketState)

  function BucketOf(s: Socket): Bucket {
    Bucket(s.endpoint, s.state)
  }

  function Span(first: Socket, s: seq<Socket>): (n: nat)
    ensures n <= |s|
  {
    if s == [] || CompareBucket(first, s[0]) != Equal then 0 else 1 + Span(first, s[1..])
  }

  /** Length of the bucket a sorted sequence starts with. */
  function BucketLength(s: seq<Socket>): (n: nat)
    ensures n <= |s| && (s != [] ==> n > 0)
  {
    if s == [] then 0 else 1 + Span(s[0], s[1..])
  }

  function NextBucket(p: seq<Socket>, c: seq<Socket>): Ordering {
    if p == [] then Greater else if c == [] then Less else CompareBucket(p[0], c[0])
  }

  function Diff(pr: Readiness, cr: Readiness, p: seq<Socket>, c: seq<Socket>): seq<WatchEvent>
    decreases |p| + |c|
  {
    if p == [] && c == [] then []
    else
      var o := NextBucket(p, c);
      var pe, ce := if o == Greater then 0 else BucketLength(p), if o == Less then 0 else BucketLength(c);
      BucketEvents(pr, cr, p[..pe], c[..ce]) + Diff(pr, cr, p[pe..], c[ce..])
  }

  /** Any order the sort may leave a snapshot's sockets in. */
  ghost predicate SortedView(s: Snapshot, view: seq<Socket>) {
    Sorted(CompareSocket, view) && multiset(view) == multiset(s.sockets)
  }
}

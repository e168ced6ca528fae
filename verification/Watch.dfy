/** The lazy differ of `src/watch.rs`: an iterator that merges two sorted index vectors one
    bucket at a time and replays a bucket's surplus with a resumable cursor. */
module Watch {
  import opened Orders
  import opened Observation
  import opened SocketOrder
  import opened Pairing
  import opened DiffSpec
  import opened DiffTheorems

  const WATCH_EVENTS_PER_POLL_MAX: nat := 2 * SOCKET_OBSERVATIONS_MAX

  datatype DiffError = UnsafeSnapshot | EventLimitExceeded

  datatype RemainderSide = ReleaseRemainder | BindRemainder

  datatype RemainderCursor = RemainderCursor(side: RemainderSide,
                                             previousPosition: nat, previousEnd: nat,
                                             currentPosition: nat, currentEnd: nat,
                                             pairedToSkip: nat)

  ghost predicate InRange(indices: seq<nat>, n: nat) {
    forall i | 0 <= i < |indices| :: indices[i] < n
  }

  /** The sockets an index vector lists, in its order. */
  ghost function View(sockets: seq<Socket>, indices: seq<nat>): (v: seq<Socket>)
    requires InRange(indices, |sockets|)
    ensures |v| == |indices| && forall i | 0 <= i < |v| :: v[i] == sockets[indices[i]]
  {
    seq(|indices|, i requires 0 <= i < |indices| => sockets[indices[i]])
  }

  /** `sort_unstable_by(compare_socket)` on `0..len`: callers learn only that some sorted
      permutation came back. */
  method SortIndices(sockets: seq<Socket>) returns (indices: seq<nat>)
    ensures InRange(indices, |sockets|)
    ensures SortedSockets(View(sockets, indices)) && multiset(View(sockets, indices)) == multiset(sockets)
  {
    hide CompareSocket;
    indices := [];
    for n := 0 to |sockets|
      invariant InRange(indices, n)
      invariant SortedSockets(View(sockets, indices))
      invariant multiset(View(sockets, indices)) == multiset(sockets[..n])
    {
      var at := 0;
      while at < |indices| && CompareSocket(sockets[indices[at]], sockets[n]) != Greater
        invariant 0 <= at <= |indices|
        invariant forall i | 0 <= i < at :: CompareSocket(sockets[indices[i]], sockets[n]) != Greater
      {
        at := at + 1;
      }
      InsertedIndex(sockets, n, indices, at);
      indices := indices[..at] + [n] + indices[at..];
    }
    assert sockets[..|sockets|] == sockets;
  }

  lemma InsertedIndex(sockets: seq<Socket>, n: nat, indices: seq<nat>, at: nat)
    requires n < |sockets| && InRange(indices, n) && at <= |indices|
    requires SortedSockets(View(sockets, indices)) && multiset(View(sockets, indices)) == multiset(sockets[..n])
    requires forall i | 0 <= i < at :: CompareSocket(sockets[indices[i]], sockets[n]) != Greater
    requires at < |indices| ==> CompareSocket(sockets[indices[at]], sockets[n]) == Greater
    ensures var next := indices[..at] + [n] + indices[at..];
      && InRange(next, n + 1) && SortedSockets(View(sockets, next))
      && multiset(View(sockets, next)) == multiset(sockets[..n+1])
  {
    hide CompareSocket;
    var v := View(sockets, indices);
    InsertedView(v, at, sockets[n]);
    hide SortedSockets;
    assert View(sockets, indices[..at] + [n] + indices[at..]) == v[..at] + [sockets[n]] + v[at..];
    assert sockets[..n+1] == sockets[..n] + [sockets[n]];
  }

  lemma SplicedSorted<T>(c: Comparator<T>, v: seq<T>, at: nat, x: T)
    requires at <= |v| && Sorted(c, v)
    requires forall i | 0 <= i < at :: c(v[i], x) != Greater
    requires forall j | at <= j < |v| :: c(x, v[j]) != Greater
    ensures Sorted(c, v[..at] + [x] + v[at..])
  {
  }

  lemma InsertedView(v: seq<Socket>, at: nat, x: Socket)
    requires at <= |v| && SortedSockets(v)
    requires forall i | 0 <= i < at :: CompareSocket(v[i], x) != Greater
    requires at < |v| ==> CompareSocket(v[at], x) == Greater
    ensures SortedSockets(v[..at] + [x] + v[at..])
    ensures multiset(v[..at] + [x] + v[at..]) == multiset(v) + multiset{x}
  {
    hide CompareSocket;
    assert v == v[..at] + v[at..];
    forall j | at <= j < |v| ensures CompareSocket(x, v[j]) != Greater {
      SocketLawfulAt(v[at], x, x);
      SocketLawfulAt(x, v[at], v[j]);
    }
    SplicedSorted(CompareSocket, v, at, x);
  }

  /** `ReplacementReadiness::new` */
  method BuildReadiness(s: Snapshot) returns (r: Readiness)
    ensures r == ReadinessOf(s)
  {
    var globallySafe := s.ownerCompleteness == Complete;
    var unsafe: set<Endpoint> := {};
    for i := 0 to |s.gaps|
      invariant globallySafe == (s.ownerCompleteness == Complete && !HasGlobalOwnershipGap(s.gaps[..i]))
      invariant unsafe == GapEndpoints(s.gaps[..i])
    {
      assert s.gaps[..i+1] == s.gaps[..i] + [s.gaps[i]];
      var gap := s.gaps[i];
      if gap.impact == Ownership {
        if gap.endpoint.Some? {
          unsafe := unsafe + {gap.endpoint.value};
        } else {
          globallySafe := false;
          assert gap in s.gaps[..i+1];
        }
      }
    }
    assert s.gaps[..|s.gaps|] == s.gaps;
    for i := 0 to |s.sockets|
      invariant unsafe == GapEndpoints(s.gaps) + IncompleteEndpoints(s.sockets[..i])
    {
      assert s.sockets[..i+1] == s.sockets[..i] + [s.sockets[i]];
      if s.sockets[i].ownerCompleteness != Complete {
        unsafe := unsafe + {s.sockets[i].endpoint};
      }
    }
    assert s.sockets[..|s.sockets|] == s.sockets;
    r := Readiness(globallySafe, unsafe);
  }

  function Limited(e: WatchEvent, yielded: nat, limit: nat): Result<WatchEvent, DiffError> {
    if yielded < limit then Ok(e) else Err(EventLimitExceeded)
  }

  method BucketEnd(sockets: seq<Socket>, indices: seq<nat>, start: nat) returns (end: nat)
    requires InRange(indices, |sockets|) && start <= |indices|
    ensures end == start + BucketLength(View(sockets, indices)[start..])
    ensures start <= end <= |indices| && (start < |indices| ==> start < end)
  {
    hide CompareBucket;
    ghost var v := View(sockets, indices);
    if start >= |indices| {
      assert v[start..] == [];
      return start;
    }
    var first := indices[start];
    end := start + 1;
    while end < |indices| && CompareBucket(sockets[first], sockets[indices[end]]) == Equal
      invariant start < end <= |indices|
      invariant BucketLength(v[start..]) == end - start + Span(v[start], v[end..])
    {
      assert v[end..][1..] == v[end+1..];
      end := end + 1;
    }
  }

  class SnapshotDiff {
    const previous: Snapshot
    const current: Snapshot
    const previousIndices: seq<nat>
    const currentIndices: seq<nat>
    const previousReadiness: Readiness
    const currentReadiness: Readiness
    const eventLimit: nat
    var previousPosition: nat
    var currentPosition: nat
    var pendingReplacement: Option<(nat, nat, Certainty)>
    var pendingRemainder: Option<RemainderCursor>
    var yielded: nat

    ghost predicate Shape() {
      && InRange(previousIndices, |previous.sockets|)
      && InRange(currentIndices, |current.sockets|)
      && SortedView(previous, View(previous.sockets, previousIndices))
      && SortedView(current, View(current.sockets, currentIndices))
      && previousReadiness == ReadinessOf(previous)
      && currentReadiness == ReadinessOf(current)
      && eventLimit <= U64_MAX
    }

    ghost function Previous(): seq<Socket>
      requires Shape()
    {
      View(previous.sockets, previousIndices)
    }

    ghost function Current(): seq<Socket>
      requires Shape()
    {
      View(current.sockets, currentIndices)
    }

    ghost predicate CursorInBounds(c: RemainderCursor)
      requires Shape()
    {
      && c.previousPosition <= c.previousEnd <= |previousIndices|
      && c.currentPosition <= c.currentEnd <= |currentIndices|
    }

    /** Surplus elements the cursor's second walk still has in front of it, paired ones included. */
    ghost function Leftover(c: RemainderCursor): seq<Socket>
      requires Shape() && CursorInBounds(c)
    {
      var p := Previous()[c.previousPosition..c.previousEnd];
      var q := Current()[c.currentPosition..c.currentEnd];
      if c.side == ReleaseRemainder then OnlyFirst(CompareSocket, p, q) else OnlyFirst(CompareSocket, q, p)
    }

    ghost function Report(side: RemainderSide): Socket -> WatchEvent {
      if side == ReleaseRemainder then Release else Bind
    }

    /** Whether the cursor still has its paired elements in front of it. */
    ghost predicate CursorValid(c: RemainderCursor)
      requires Shape()
    {
      CursorInBounds(c) && c.pairedToSkip <= |Leftover(c)|
    }

    ghost function CursorEvents(c: RemainderCursor): seq<WatchEvent>
      requires Shape() && CursorValid(c)
    {
      Map(Report(c.side), Leftover(c)[c.pairedToSkip..])
    }

    ghost predicate ReplacementValid()
      reads this`pendingReplacement
    {
      pendingReplacement.Some? ==>
        && pendingReplacement.value.0 < |previous.sockets|
        && pendingReplacement.value.1 < |current.sockets|
    }

    ghost predicate RemainderValid()
      reads this`pendingRemainder
    {
      && Shape()
      && (pendingRemainder.Some? ==> CursorValid(pendingRemainder.value))
    }

    ghost predicate PositionValid()
      reads this`previousPosition, this`currentPosition
    {
      && Shape()
      && previousPosition <= |previousIndices|
      && currentPosition <= |currentIndices|
    }

    ghost predicate Valid()
      reads this
    {
      ReplacementValid() && RemainderValid() && PositionValid()
    }

    ghost function ReplacementEvents(): seq<WatchEvent>
      reads this`pendingReplacement
      requires ReplacementValid()
    {
      match pendingReplacement
      case None => []
      case Some((p, c, certainty)) => [Replacement(previous.sockets[p], current.sockets[c], certainty)]
    }

    ghost function RemainderEvents(): seq<WatchEvent>
      reads this`pendingRemainder
      requires RemainderValid()
    {
      if pendingRemainder.None? then [] else CursorEvents(pendingRemainder.value)
    }

    /** The eager comparison of everything from two positions on. */
    ghost function DiffFrom(i: nat, j: nat): seq<WatchEvent>
      requires Shape() && i <= |previousIndices| && j <= |currentIndices|
    {
      Diff(previousReadiness, currentReadiness, Previous()[i..], Current()[j..])
    }

    /** The eager comparison of the buckets not yet prepared. */
    ghost function Unprepared(): seq<WatchEvent>
      reads this`previousPosition, this`currentPosition
      requires PositionValid()
    {
      DiffFrom(previousPosition, currentPosition)
    }

    lemma BucketUnfold(i: nat, j: nat, pe: nat, ce: nat)
      requires Shape() && i <= |previousIndices| && j <= |currentIndices|
      requires i < |previousIndices| || j < |currentIndices|
      requires var o := NextBucket(Previous()[i..], Current()[j..]);
               && pe == i + (if o == Greater then 0 else BucketLength(Previous()[i..]))
               && ce == j + (if o == Less then 0 else BucketLength(Current()[j..]))
      ensures DiffFrom(i, j) == BucketEvents(previousReadiness, currentReadiness,
                                             Previous()[i..pe], Current()[j..ce]) + DiffFrom(pe, ce)
    {
      hide Diff;
      hide BucketEvents;
      hide CompareBucket;
      hide Shape;
      var p, c := Previous()[i..], Current()[j..];
      DiffUnfold(previousReadiness, currentReadiness, p, c, pe - i, ce - j);
      assert p[..pe - i] == Previous()[i..pe] && p[pe - i..] == Previous()[pe..];
      assert c[..ce - j] == Current()[j..ce] && c[ce - j..] == Current()[ce..];
    }

    lemma NothingLeft()
      requires Shape()
      ensures DiffFrom(|previousIndices|, |currentIndices|) == []
    {
      DiffOfNothing(previousReadiness, currentReadiness);
      assert Previous()[|previousIndices|..] == [] && Current()[|currentIndices|..] == [];
    }

    /** Everything the iterator will still report. */
    ghost function Remaining(): seq<WatchEvent>
      reads this
      requires Valid()
    {
      ReplacementEvents() + RemainderEvents() + Unprepared()
    }

    /** The part of `with_limit` after the safety check. */
    constructor (previous: Snapshot, current: Snapshot, previousIndices: seq<nat>, currentIndices: seq<nat>,
                 previousReadiness: Readiness, currentReadiness: Readiness, eventLimit: nat)
      requires InRange(previousIndices, |previous.sockets|) && InRange(currentIndices, |current.sockets|)
      requires SortedView(previous, View(previous.sockets, previousIndices))
      requires SortedView(current, View(current.sockets, currentIndices))
      requires previousReadiness == ReadinessOf(previous) && currentReadiness == ReadinessOf(current)
      requires eventLimit <= U64_MAX
      ensures Valid() && yielded == 0 && this.eventLimit == eventLimit
      ensures this.previous == previous && this.current == current
      ensures Remaining() == Stream(previous, current, Previous(), Current())
    {
      this.previous := previous;
      this.current := current;
      this.previousIndices := previousIndices;
      this.currentIndices := currentIndices;
      this.previousReadiness := previousReadiness;
      this.currentReadiness := currentReadiness;
      this.eventLimit := eventLimit;
      previousPosition, currentPosition := 0, 0;
      pendingReplacement := None;
      pendingRemainder := None;
      yielded := 0;
      new;
      assert Previous()[0..] == Previous() && Current()[0..] == Current();
    }

    method CountRemaining(previousEnd: nat, currentEnd: nat) returns (previousRemaining: nat, currentRemaining: nat)
      requires Valid() && previousPosition <= previousEnd <= |previousIndices|
      requires currentPosition <= currentEnd <= |currentIndices|
      ensures previousRemaining == |OnlyFirst(CompareSocket, Previous()[previousPosition..previousEnd],
                                              Current()[currentPosition..currentEnd])|
      ensures currentRemaining == |OnlyFirst(CompareSocket, Current()[currentPosition..currentEnd],
                                             Previous()[previousPosition..previousEnd])|
    {
      hide CompareSocket;
      hide OnlyFirst;
      previousRemaining, currentRemaining := 0, 0;
      var i, j := previousPosition, currentPosition;
      ghost var p, c := Previous(), Current();
      while i < previousEnd && j < currentEnd
        invariant previousPosition <= i <= previousEnd && currentPosition <= j <= currentEnd
        invariant previousRemaining + |OnlyFirst(CompareSocket, p[i..previousEnd], c[j..currentEnd])|
               == |OnlyFirst(CompareSocket, p[previousPosition..previousEnd], c[currentPosition..currentEnd])|
        invariant currentRemaining + |OnlyFirst(CompareSocket, c[j..currentEnd], p[i..previousEnd])|
               == |OnlyFirst(CompareSocket, c[currentPosition..currentEnd], p[previousPosition..previousEnd])|
        decreases previousEnd - i + currentEnd - j
      {
        WalkStep(p, c, i, previousEnd, j, currentEnd);
        match CompareSocket(previous.sockets[previousIndices[i]], current.sockets[currentIndices[j]])
        case Less =>
          previousRemaining := previousRemaining + 1;
          i := i + 1;
        case Greater =>
          currentRemaining := currentRemaining + 1;
          j := j + 1;
        case Equal =>
          i, j := i + 1, j + 1;
      }
      WalkEnd(p, c, i, previousEnd, j, currentEnd);
      previousRemaining := previousRemaining + (previousEnd - i);
      currentRemaining := currentRemaining + (currentEnd - j);
    }

    ghost predicate InSide(side: RemainderSide, index: nat) {
      index < if side == ReleaseRemainder then |previous.sockets| else |current.sockets|
    }

    /** The socket a remainder index names, on its own side. */
    ghost function RemainderSocket(side: RemainderSide, index: nat): Socket
      requires InSide(side, index)
    {
      if side == ReleaseRemainder then previous.sockets[index] else current.sockets[index]
    }

    /** One comparison of the cursor's walk: which side it consumed, and the index it exposed
        unless the two sides paired off. `None` when both sides are exhausted. */
    method AdvanceCursor(cursor: RemainderCursor)
      returns (moved: RemainderCursor, next: Option<(RemainderSide, Option<nat>)>)
      requires Valid() && CursorInBounds(cursor)
      ensures CursorInBounds(moved)
      ensures moved.side == cursor.side && moved.pairedToSkip == cursor.pairedToSkip
      ensures moved.previousEnd == cursor.previousEnd && moved.currentEnd == cursor.currentEnd
      ensures next.None? ==> Leftover(cursor) == []
      ensures next.Some? ==>
                moved.previousPosition + moved.currentPosition > cursor.previousPosition + cursor.currentPosition
      ensures next.Some? && (next.value.1.None? || next.value.0 != cursor.side) ==> Leftover(moved) == Leftover(cursor)
      ensures next.Some? && next.value.1.Some? && next.value.0 == cursor.side ==>
                && InSide(cursor.side, next.value.1.value)
                && Leftover(cursor) == [RemainderSocket(cursor.side, next.value.1.value)] + Leftover(moved)
    {
      hide CompareSocket;
      hide OnlyFirst;
      ghost var p, c := Previous(), Current();
      var i, j := cursor.previousPosition, cursor.currentPosition;
      moved := cursor;
      if i < cursor.previousEnd && j < cursor.currentEnd {
        WalkStep(p, c, i, cursor.previousEnd, j, cursor.currentEnd);
        match CompareSocket(previous.sockets[previousIndices[i]], current.sockets[currentIndices[j]])
        case Less =>
          moved := cursor.(previousPosition := i + 1);
          next := Some((ReleaseRemainder, Some(previousIndices[i])));
        case Greater =>
          moved := cursor.(currentPosition := j + 1);
          next := Some((BindRemainder, Some(currentIndices[j])));
        case Equal =>
          moved := cursor.(previousPosition := i + 1, currentPosition := j + 1);
          next := Some((cursor.side, None));
      } else if i < cursor.previousEnd {
        WalkTail(p, c, i, cursor.previousEnd, j, cursor.currentEnd);
        moved := cursor.(previousPosition := i + 1);
        next := Some((ReleaseRemainder, Some(previousIndices[i])));
      } else if j < cursor.currentEnd {
        WalkTail(p, c, i, cursor.previousEnd, j, cursor.currentEnd);
        moved := cursor.(currentPosition := j + 1);
        next := Some((BindRemainder, Some(currentIndices[j])));
      } else {
        WalkEnd(p, c, i, cursor.previousEnd, j, cursor.currentEnd);
        next := None;
      }
    }

    lemma NothingExposed(c: RemainderCursor)
      requires Shape() && CursorValid(c) && Leftover(c) == []
      ensures CursorEvents(c) == []
    {
    }

    lemma SameLeftover(c: RemainderCursor, moved: RemainderCursor)
      requires Shape() && CursorValid(c) && CursorInBounds(moved) && Leftover(moved) == Leftover(c)
      requires moved.side == c.side && moved.pairedToSkip == c.pairedToSkip
      ensures CursorValid(moved) && CursorEvents(moved) == CursorEvents(c)
    {
    }

    /** An exposed element is a paired one to skip, or the next event. */
    lemma ExposedSocket(c: RemainderCursor, moved: RemainderCursor, x: Socket)
      requires Shape() && CursorValid(c) && CursorInBounds(moved) && Leftover(c) == [x] + Leftover(moved)
      requires moved.side == c.side && moved.pairedToSkip == c.pairedToSkip
      ensures c.pairedToSkip != 0 ==>
                var skipped := moved.(pairedToSkip := c.pairedToSkip - 1);
                CursorValid(skipped) && CursorEvents(skipped) == CursorEvents(c)
      ensures c.pairedToSkip == 0 ==>
                CursorValid(moved) && CursorEvents(c) == [Report(c.side)(x)] + CursorEvents(moved)
    {
      hide CompareSocket;
      hide OnlyFirst;
      if c.pairedToSkip != 0 {
        assert Leftover(c)[c.pairedToSkip..] == Leftover(moved)[c.pairedToSkip - 1..];
        assert Leftover(moved.(pairedToSkip := c.pairedToSkip - 1)) == Leftover(moved);
      } else {
        assert Leftover(c)[0..] == Leftover(c) && Leftover(moved)[0..] == Leftover(moved);
      }
    }

    method NextRemainderIndex() returns (r: Option<(RemainderSide, nat)>)
      requires Valid()
      modifies this`pendingRemainder
      ensures Valid()
      ensures old(RemainderEvents()) == [] ==> r == None && pendingRemainder == None
      ensures old(RemainderEvents()) != [] ==>
                && r.Some? && InSide(r.value.0, r.value.1)
                && old(RemainderEvents())
                   == [Report(r.value.0)(RemainderSocket(r.value.0, r.value.1))] + RemainderEvents()
    {
      hide CompareSocket;
      hide OnlyFirst;
      if pendingRemainder == None {
        return None;
      }
      var cursor := pendingRemainder.value;
      ghost var events := CursorEvents(cursor);
      hide CursorEvents;
      hide Leftover;
      while true
        invariant Valid() && CursorValid(cursor)
        invariant CursorEvents(cursor) == events == old(RemainderEvents())
        decreases cursor.previousEnd - cursor.previousPosition + cursor.currentEnd - cursor.currentPosition
      {
        var moved, next := AdvanceCursor(cursor);
        if next == None {
          NothingExposed(cursor);
          pendingRemainder := None;
          return None;
        }
        var (side, index) := next.value;
        if index.None? || side != cursor.side {
          SameLeftover(cursor, moved);
          cursor := moved;
        } else {
          ExposedSocket(cursor, moved, RemainderSocket(side, index.value));
          if cursor.pairedToSkip != 0 {
            cursor := moved.(pairedToSkip := cursor.pairedToSkip - 1);
          } else {
            pendingRemainder := Some(moved);
            return Some((side, index.value));
          }
        }
      }
    }

    /** A cursor on the longer side that skips the shorter side's count reports the surplus. */
    lemma CursorIsSurplus(c: RemainderCursor)
      requires Shape() && CursorInBounds(c)
      requires var p, q := Previous()[c.previousPosition..c.previousEnd], Current()[c.currentPosition..c.currentEnd];
        var gone, added := OnlyFirst(CompareSocket, p, q), OnlyFirst(CompareSocket, q, p);
        && |gone| != |added|
        && c.side == (if |gone| > |added| then ReleaseRemainder else BindRemainder)
        && c.pairedToSkip == (if |gone| < |added| then |gone| else |added|)
      ensures var p, q := Previous()[c.previousPosition..c.previousEnd], Current()[c.currentPosition..c.currentEnd];
        && CursorValid(c)
        && CursorEvents(c) == SurplusEvents(OnlyFirst(CompareSocket, p, q), OnlyFirst(CompareSocket, q, p)) != []
    {
      hide CompareSocket;
      hide OnlyFirst;
    }

    lemma NoSurplus(p: seq<Socket>, q: seq<Socket>)
      requires |OnlyFirst(CompareSocket, p, q)| == |OnlyFirst(CompareSocket, q, p)|
      ensures SurplusEvents(OnlyFirst(CompareSocket, p, q), OnlyFirst(CompareSocket, q, p)) == []
    {
    }

    method ReconcileBucket(previousEnd: nat, currentEnd: nat)
      requires Valid() && previousPosition <= previousEnd <= |previousIndices|
      requires currentPosition <= currentEnd <= |currentIndices|
      modifies this`pendingReplacement, this`pendingRemainder
      ensures Valid()
      ensures ReplacementEvents() + RemainderEvents()
           == BucketEvents(previousReadiness, currentReadiness, Previous()[previousPosition..previousEnd],
                           Current()[currentPosition..currentEnd])
      ensures pendingReplacement.Some? || pendingRemainder.Some? <==> ReplacementEvents() + RemainderEvents() != []
    {
      hide CompareSocket;
      hide OnlyFirst;
      hide ReplacementCertainty;
      hide SortedView;
      hide SurplusEvents;
      hide CursorEvents;
      hide CursorValid;
      pendingReplacement, pendingRemainder := None, None;
      if previousEnd - previousPosition == 1 && currentEnd - currentPosition == 1 {
        var previousIndex, currentIndex := previousIndices[previousPosition], currentIndices[currentPosition];
        if CompareSocket(previous.sockets[previousIndex], current.sockets[currentIndex]) == Equal {
          return;
        }
        var certainty := ReplacementCertainty(previousReadiness, previous.sockets[previousIndex],
                                              currentReadiness, current.sockets[currentIndex]);
        if certainty.Some? {
          pendingReplacement := Some((previousIndex, currentIndex, certainty.value));
          return;
        }
      }
      var previousRemaining, currentRemaining := CountRemaining(previousEnd, currentEnd);
      if previousRemaining == currentRemaining {
        NoSurplus(Previous()[previousPosition..previousEnd], Current()[currentPosition..currentEnd]);
        return;
      }
      var side := if previousRemaining > currentRemaining then ReleaseRemainder else BindRemainder;
      var toSkip := if previousRemaining < currentRemaining then previousRemaining else currentRemaining;
      var cursor := RemainderCursor(side, previousPosition, previousEnd, currentPosition, currentEnd, toSkip);
      CursorIsSurplus(cursor);
      pendingRemainder := Some(cursor);
    }

    method PrepareNextBucket() returns (found: bool)
      requires Valid() && pendingReplacement == None && pendingRemainder == None
      modifies this`previousPosition, this`currentPosition, this`pendingReplacement, this`pendingRemainder
      ensures Valid() && Remaining() == old(Unprepared())
      ensures found ==> ReplacementEvents() + RemainderEvents() != []
      ensures !found ==> Remaining() == []
    {
      hide CompareBucket;
      hide BucketEvents;
      hide CursorEvents;
      hide Leftover;
      hide BucketLength;
      hide DiffFrom;
      hide SortedView;
      while previousPosition < |previousIndices| || currentPosition < |currentIndices|
        invariant Valid() && pendingReplacement == None && pendingRemainder == None
        invariant Unprepared() == old(Unprepared())
        decreases |previousIndices| - previousPosition + |currentIndices| - currentPosition
      {
        var ordering :=
          if previousPosition < |previousIndices| && currentPosition < |currentIndices| then
            CompareBucket(previous.sockets[previousIndices[previousPosition]],
                          current.sockets[currentIndices[currentPosition]])
          else if previousPosition < |previousIndices| then Less
          else Greater;
        var previousEnd, currentEnd := previousPosition, currentPosition;
        if ordering != Greater {
          previousEnd := BucketEnd(previous.sockets, previousIndices, previousPosition);
        }
        if ordering != Less {
          currentEnd := BucketEnd(current.sockets, currentIndices, currentPosition);
        }
        BucketUnfold(previousPosition, currentPosition, previousEnd, currentEnd);
        ReconcileBucket(previousEnd, currentEnd);
        previousPosition, currentPosition := previousEnd, currentEnd;
        if pendingReplacement.Some? || pendingRemainder.Some? {
          return true;
        }
      }
      NothingLeft();
      return false;
    }

    /** The prepared part of the stream: a pending replacement, then the cursor's surplus. */
    method TakePrepared() returns (r: Option<WatchEvent>)
      requires Valid()
      modifies this`pendingReplacement, this`pendingRemainder
      ensures Valid()
      ensures old(ReplacementEvents() + RemainderEvents()) == [] ==>
                r == None && pendingReplacement == None && pendingRemainder == None
      ensures old(ReplacementEvents() + RemainderEvents()) != [] ==>
                && r.Some?
                && old(ReplacementEvents() + RemainderEvents()) == [r.value] + (ReplacementEvents() + RemainderEvents())
    {
      hide CursorEvents;
      hide Leftover;
      hide Shape;
      if pendingReplacement.Some? {
        var (p, c, certainty) := pendingReplacement.value;
        pendingReplacement := None;
        return Some(Replacement(previous.sockets[p], current.sockets[c], certainty));
      }
      var next := NextRemainderIndex();
      if next == None {
        return None;
      }
      var (side, index) := next.value;
      return Some(if side == ReleaseRemainder then Release(previous.sockets[index]) else Bind(current.sockets[index]));
    }

    method NextEvent() returns (r: Option<WatchEvent>)
      requires Valid()
      modifies this`previousPosition, this`currentPosition, this`pendingReplacement, this`pendingRemainder
      ensures Valid()
      ensures old(Remaining()) == [] ==> r == None && Remaining() == []
      ensures old(Remaining()) != [] ==> r.Some? && old(Remaining()) == [r.value] + Remaining()
    {
      hide ReplacementEvents;
      hide RemainderEvents;
      hide Unprepared;
      hide ReplacementValid;
      hide RemainderValid;
      hide PositionValid;
      while true
        invariant Valid() && Remaining() == old(Remaining())
        decreases if ReplacementEvents() + RemainderEvents() == [] then 1 else 0
      {
        r := TakePrepared();
        if r.Some? {
          return;
        }
        var found := PrepareNextBucket();
        if !found {
          return None;
        }
      }
    }

    /** The iterator's `next`: the events of the stream one at a time, each beyond the
        limit replaced by an error. */
    method Next() returns (r: Option<Result<WatchEvent, DiffError>>)
      requires Valid()
      modifies this
      ensures Valid()
      ensures old(Remaining()) == [] ==> r == None && Remaining() == [] && yielded == old(yielded)
      ensures old(Remaining()) != [] ==>
                && Remaining() == old(Remaining())[1..]
                && r == Some(Limited(old(Remaining())[0], old(yielded), eventLimit))
                && yielded == if old(yielded) < eventLimit then old(yielded) + 1 else old(yielded)
    {
      var event := NextEvent();
      if event == None {
        return None;
      }
      if yielded == U64_MAX {
        return Some(Err(EventLimitExceeded));
      }
      if yielded + 1 > eventLimit {
        return Some(Err(EventLimitExceeded));
      }
      yielded := yielded + 1;
      return Some(Ok(event.value));
    }

    /** Calling `next` until it is exhausted. */
    method Drain() returns (results: seq<Result<WatchEvent, DiffError>>)
      requires Valid()
      modifies this
      ensures Valid() && Remaining() == []
      ensures |results| == |old(Remaining())|
      ensures forall i | 0 <= i < |results| :: results[i] == Limited(old(Remaining())[i], old(yielded) + i, eventLimit)
    {
      hide Remaining;
      hide Valid;
      results := [];
      ghost var all := Remaining();
      ghost var start := yielded;
      while true
        invariant Valid() && |results| <= |all| && Remaining() == all[|results|..]
        invariant yielded == if start + |results| <= eventLimit then start + |results|
                             else if start <= eventLimit then eventLimit else start
        invariant forall i | 0 <= i < |results| :: results[i] == Limited(all[i], start + i, eventLimit)
        decreases |all| - |results|
      {
        var r := Next();
        if r == None {
          return;
        }
        results := results + [r.value];
      }
    }
  }

  lemma DiffUnfold(pr: Readiness, cr: Readiness, p: seq<Socket>, c: seq<Socket>, pe: nat, ce: nat)
    requires p != [] || c != []
    requires pe == if NextBucket(p, c) == Greater then 0 else BucketLength(p)
    requires ce == if NextBucket(p, c) == Less then 0 else BucketLength(c)
    ensures Diff(pr, cr, p, c) == BucketEvents(pr, cr, p[..pe], c[..ce]) + Diff(pr, cr, p[pe..], c[ce..])
  {
  }

  lemma DiffOfNothing(pr: Readiness, cr: Readiness)
    ensures Diff(pr, cr, [], []) == []
  {
  }

  lemma WalkEnd(p: seq<Socket>, c: seq<Socket>, i: nat, pe: nat, j: nat, ce: nat)
    requires i <= pe <= |p| && j <= ce <= |c| && (i == pe || j == ce)
    ensures OnlyFirst(CompareSocket, p[i..pe], c[j..ce]) == p[i..pe]
    ensures OnlyFirst(CompareSocket, c[j..ce], p[i..pe]) == c[j..ce]
  {
  }

  lemma WalkTail(p: seq<Socket>, c: seq<Socket>, i: nat, pe: nat, j: nat, ce: nat)
    requires i <= pe <= |p| && j <= ce <= |c| && (i == pe || j == ce)
    ensures i < pe ==> && OnlyFirst(CompareSocket, p[i..pe], c[j..ce])
                          == [p[i]] + OnlyFirst(CompareSocket, p[i+1..pe], c[j..ce])
                       && OnlyFirst(CompareSocket, c[j..ce], p[i..pe])
                          == OnlyFirst(CompareSocket, c[j..ce], p[i+1..pe])
    ensures j < ce ==> && OnlyFirst(CompareSocket, c[j..ce], p[i..pe])
                          == [c[j]] + OnlyFirst(CompareSocket, c[j+1..ce], p[i..pe])
                       && OnlyFirst(CompareSocket, p[i..pe], c[j..ce])
                          == OnlyFirst(CompareSocket, p[i..pe], c[j+1..ce])
  {
    assert i < pe ==> p[i..pe] == [p[i]] + p[i+1..pe];
    assert j < ce ==> c[j..ce] == [c[j]] + c[j+1..ce];
  }

  /** One comparison of the walk, on both leftovers at once. */
  lemma WalkStep(p: seq<Socket>, c: seq<Socket>, i: nat, pe: nat, j: nat, ce: nat)
    requires i < pe <= |p| && j < ce <= |c|
    ensures var gone, added := OnlyFirst(CompareSocket, p[i..pe], c[j..ce]), OnlyFirst(CompareSocket, c[j..ce], p[i..pe]);
            match CompareSocket(p[i], c[j])
            case Less =>
              && gone == [p[i]] + OnlyFirst(CompareSocket, p[i+1..pe], c[j..ce])
              && added == OnlyFirst(CompareSocket, c[j..ce], p[i+1..pe])
            case Greater =>
              && gone == OnlyFirst(CompareSocket, p[i..pe], c[j+1..ce])
              && added == [c[j]] + OnlyFirst(CompareSocket, c[j+1..ce], p[i..pe])
            case Equal =>
              && gone == OnlyFirst(CompareSocket, p[i+1..pe], c[j+1..ce])
              && added == OnlyFirst(CompareSocket, c[j+1..ce], p[i+1..pe])
  {
    SocketLawfulAt(p[i], c[j], p[i]);
    assert p[i..pe][1..] == p[i+1..pe] && c[j..ce][1..] == c[j+1..ce];
  }

  /** A snapshot whose socket multiplicities can be compared: it did not race, and nothing of its
      socket set was lost or left uncounted. */
  ghost predicate CountsEverySocket(s: Snapshot) {
    s.completeness != SnapshotRaced && s.omittedGaps == 0 && forall g | g in s.gaps :: g.impact != SocketSet
  }

  method WithLimit(previous: Snapshot, current: Snapshot, eventLimit: nat) returns (r: Result<SnapshotDiff, DiffError>)
    requires eventLimit <= U64_MAX
    ensures r.Err? <==> !CountsEverySocket(previous) || !CountsEverySocket(current)
    ensures r.Err? ==> r.error == UnsafeSnapshot
    ensures r.Ok? ==>
              && fresh(r.value) && r.value.Valid() && r.value.yielded == 0 && r.value.eventLimit == eventLimit
              && r.value.previous == previous && r.value.current == current
              && r.value.Remaining() == Stream(previous, current, r.value.Previous(), r.value.Current())
  {
    if !previous.SocketSetDiffSafe() || !current.SocketSetDiffSafe() {
      return Err(UnsafeSnapshot);
    }
    var previousIndices := SortIndices(previous.sockets);
    var currentIndices := SortIndices(current.sockets);
    var previousReadiness := BuildReadiness(previous);
    var currentReadiness := BuildReadiness(current);
    var d := new SnapshotDiff(previous, current, previousIndices, currentIndices,
                              previousReadiness, currentReadiness, eventLimit);
    r := Ok(d);
  }

  /** Polling two collected snapshots: every event arrives, in the promised order, and the
      event limit is never met, because collection bounds both socket counts. */
  method DiffSnapshots(previous: Snapshot, current: Snapshot) returns (r: Result<seq<Result<WatchEvent, DiffError>>, DiffError>)
    requires |previous.sockets| <= SOCKET_OBSERVATIONS_MAX && |current.sockets| <= SOCKET_OBSERVATIONS_MAX
    ensures r.Err? <==> !CountsEverySocket(previous) || !CountsEverySocket(current)
    ensures r.Err? ==> r.error == UnsafeSnapshot
    ensures r.Ok? ==>
              exists p, c ::
                && SortedView(previous, p) && SortedView(current, c)
                && |r.value| == |Stream(previous, current, p, c)| <= |previous.sockets| + |current.sockets|
                && forall i | 0 <= i < |r.value| :: r.value[i] == Ok(Stream(previous, current, p, c)[i])
  {
    var d := WithLimit(previous, current, WATCH_EVENTS_PER_POLL_MAX);
    if d.Err? {
      return Err(d.error);
    }
    ghost var p, c := d.value.Previous(), d.value.Current();
    DiffWithin(ReadinessOf(previous), ReadinessOf(current), p, c);
    MultisetSize(p, previous.sockets);
    MultisetSize(c, current.sockets);
    var events := d.value.Drain();
    r := Ok(events);
  }

  /** The first poll reports every socket once, in sorted order. */
  class BaselineEvents {
    const snapshot: Snapshot
    const indices: seq<nat>
    var position: nat

    ghost predicate Valid()
      reads this
    {
      && InRange(indices, |snapshot.sockets|) && SortedView(snapshot, View(snapshot.sockets, indices))
      && position <= |indices|
    }

    ghost function Remaining(): seq<WatchEvent>
      reads this
      requires Valid()
    {
      Map(Baseline, View(snapshot.sockets, indices)[position..])
    }

    constructor (snapshot: Snapshot, indices: seq<nat>)
      requires InRange(indices, |snapshot.sockets|) && SortedView(snapshot, View(snapshot.sockets, indices))
      ensures Valid() && this.snapshot == snapshot
      ensures Remaining() == Map(Baseline, View(snapshot.sockets, indices))
    {
      this.snapshot := snapshot;
      this.indices := indices;
      position := 0;
      new;
      assert View(snapshot.sockets, indices)[0..] == View(snapshot.sockets, indices);
    }

    method Next() returns (r: Option<WatchEvent>)
      requires Valid()
      modifies this`position
      ensures Valid()
      ensures old(Remaining()) == [] ==> r == None && Remaining() == []
      ensures old(Remaining()) != [] ==> r.Some? && old(Remaining()) == [r.value] + Remaining()
    {
      if position >= |indices| {
        return None;
      }
      r := Some(Baseline(snapshot.sockets[indices[position]]));
      position := position + 1;
    }
  }

  /** `baseline_events`: every socket of a comparable snapshot, in order. */
  method BaselineOf(snapshot: Snapshot) returns (r: Result<BaselineEvents, DiffError>)
    ensures r.Err? <==> !CountsEverySocket(snapshot)
    ensures r.Err? ==> r.error == UnsafeSnapshot
    ensures r.Ok? ==>
              && fresh(r.value) && r.value.Valid() && r.value.snapshot == snapshot
              && exists view :: SortedView(snapshot, view) && |r.value.Remaining()| == |view|
                   && forall i | 0 <= i < |view| :: r.value.Remaining()[i] == WatchEvent(BaselineSide(view[i]), 1, Proven)
  {
    if !snapshot.SocketSetDiffSafe() {
      return Err(UnsafeSnapshot);
    }
    var indices := SortIndices(snapshot.sockets);
    var events := new BaselineEvents(snapshot, indices);
    r := Ok(events);
  }
}

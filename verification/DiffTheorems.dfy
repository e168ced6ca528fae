/** Laws of the eager comparison: conservation, mirror symmetry, order, independence of
    the sort, and the exact events of every bucket. */
module DiffTheorems {
  import opened Orders
  import opened Observation
  import opened SocketOrder
  import opened Pairing
  import opened DiffSpec

  ghost predicate SortedSockets(s: seq<Socket>) {
    Sorted(CompareSocket, s)
  }

  function BucketFilter(b: Bucket): Socket -> bool {
    (s: Socket) => BucketOf(s) == b
  }

  function EventFilter(b: Bucket): WatchEvent -> bool {
    (e: WatchEvent) => BucketOf(e.EventSocket()) == b
  }

  /** Every socket of `s` belongs to a bucket strictly after `b`'s. */
  ghost predicate After(b: Socket, s: seq<Socket>) {
    forall x | x in s :: CompareBucket(b, x) == Less
  }

  // ----- Buckets of a sorted sequence are contiguous

  lemma {:induction false} SpanPrefix(first: Socket, s: seq<Socket>)
    ensures forall i :: 0 <= i < Span(first, s) ==> CompareBucket(first, s[i]) == Equal
    ensures Span(first, s) < |s| ==> CompareBucket(first, s[Span(first, s)]) != Equal
  {
    if s != [] && CompareBucket(first, s[0]) == Equal {
      SpanPrefix(first, s[1..]);
    }
  }

  lemma AfterAll(b: Socket, s: seq<Socket>)
    requires SortedSockets(s)
    requires s != [] ==> CompareBucket(b, s[0]) == Less
    ensures After(b, s)
  {
    forall x | x in s ensures CompareBucket(b, x) == Less {
      var i :| 0 <= i < |s| && s[i] == x;
      if i > 0 { BucketPrefix(s[0], x); }
      BucketLawful(b, s[0], x);
      BucketLawful(x, x, x);
    }
  }

  /** A sorted sequence is its first bucket followed by strictly later buckets. */
  lemma BucketCut(s: seq<Socket>)
    requires SortedSockets(s) && s != []
    ensures var n := BucketLength(s);
            && (forall x | x in s[..n] :: BucketOf(x) == BucketOf(s[0]))
            && After(s[0], s[n..])
            && SortedSockets(s[..n]) && SortedSockets(s[n..])
  {
    var n := BucketLength(s);
    SpanPrefix(s[0], s[1..]);
    forall x | x in s[..n] ensures BucketOf(x) == BucketOf(s[0]) {
      var i :| 0 <= i < n && s[i] == x;
      BucketLawful(s[0], x, x);
      assert i > 0 ==> s[i] == s[1..][i-1];
    }
    if n < |s| {
      assert s[n] == s[1..][n-1];
      BucketPrefix(s[0], s[n]);
    }
    AfterAll(s[0], s[n..]);
  }

  /** One step of `Diff`: the two slices of the bucket `first`, and what is left for later. */
  ghost predicate Step(p: seq<Socket>, c: seq<Socket>, first: Socket, pe: nat, ce: nat) {
    && pe <= |p| && ce <= |c| && pe + ce > 0
    && SortedSockets(p[..pe]) && SortedSockets(c[..ce]) && SortedSockets(p[pe..]) && SortedSockets(c[ce..])
    && (forall x | x in p[..pe] :: BucketOf(x) == BucketOf(first))
    && (forall x | x in c[..ce] :: BucketOf(x) == BucketOf(first))
    && After(first, p[pe..]) && After(first, c[ce..])
  }

  lemma DiffStep(pr: Readiness, cr: Readiness, p: seq<Socket>, c: seq<Socket>)
    returns (first: Socket, pe: nat, ce: nat)
    requires SortedSockets(p) && SortedSockets(c) && (p != [] || c != [])
    ensures Step(p, c, first, pe, ce)
    ensures Diff(pr, cr, p, c) == BucketEvents(pr, cr, p[..pe], c[..ce]) + Diff(pr, cr, p[pe..], c[ce..])
    ensures Diff(cr, pr, c, p) == BucketEvents(cr, pr, c[..ce], p[..pe]) + Diff(cr, pr, c[ce..], p[pe..])
  {
    var o := NextBucket(p, c);
    pe := if o == Greater then 0 else BucketLength(p);
    ce := if o == Less then 0 else BucketLength(c);
    first := if o == Greater then c[0] else p[0];
    if p != [] && c != [] { BucketLawful(p[0], c[0], p[0]); }
    if o != Greater { BucketCut(p); } else { AfterAll(first, p); assert p[..0] == [] && p[0..] == p; }
    if o != Less { BucketCut(c); } else { AfterAll(first, c); assert c[..0] == [] && c[0..] == c; }
    if o == Equal {
      forall x | x in c[ce..] ensures CompareBucket(first, x) == Less { BucketLawful(p[0], c[0], x); }
    }
  }

  // ----- Events of one bucket

  /** The events of a bucket report sockets of that bucket, all with one kind. */
  lemma BucketEventsWithin(pr: Readiness, cr: Readiness, p: seq<Socket>, c: seq<Socket>)
    ensures forall e | e in BucketEvents(pr, cr, p, c) :: e.EventSocket() in p || e.EventSocket() in c
    ensures |BucketEvents(pr, cr, p, c)| <= |p| + |c|
  {
    OnlyFirstMembers(CompareSocket, p, c);
    OnlyFirstMembers(CompareSocket, c, p);
  }

  ghost predicate ReplacedInPlace(pr: Readiness, cr: Readiness, p: seq<Socket>, c: seq<Socket>) {
    && |p| == 1 && |c| == 1 && Erase(p[0]) != Erase(c[0])
    && ReplacementCertainty(pr, p[0], cr, c[0]).Some?
  }

  /** The exact meaning of a bucket's events. A bucket whose single socket provably changed
      hands reports one replacement. Every other bucket reports the surplus of its longer
      side: the last elements, in sorted order, of the one-sided multiset difference. */
  lemma BucketSurplus(pr: Readiness, cr: Readiness, p: seq<Socket>, c: seq<Socket>)
    returns (gone: seq<Socket>, added: seq<Socket>)
    requires SortedSockets(p) && SortedSockets(c)
    ensures SortedSockets(gone) && Keys(Erase, gone) == Keys(Erase, p) - Keys(Erase, c)
    ensures SortedSockets(added) && Keys(Erase, added) == Keys(Erase, c) - Keys(Erase, p)
    ensures |gone| - |added| == |p| - |c|
    ensures ReplacedInPlace(pr, cr, p, c) ==>
              BucketEvents(pr, cr, p, c) == [Replacement(p[0], c[0], ReplacementCertainty(pr, p[0], cr, c[0]).value)]
    ensures !ReplacedInPlace(pr, cr, p, c) && |p| >= |c| ==>
              BucketEvents(pr, cr, p, c) == Map(Release, gone[|gone| - (|p| - |c|)..])
    ensures !ReplacedInPlace(pr, cr, p, c) && |c| >= |p| ==>
              BucketEvents(pr, cr, p, c) == Map(Bind, added[|added| - (|c| - |p|)..])
  {
    gone, added := OnlyFirst(CompareSocket, p, c), OnlyFirst(CompareSocket, c, p);
    SocketsLeftOver(p, c);
    SocketsLeftOver(c, p);
    OnlyFirstBalanceSockets(p, c);
    BucketCases(pr, cr, p, c);
    SurplusTail(gone, added);
    hide OnlyFirst;
    hide Keys;
    hide ReplacedInPlace;
    hide BucketEvents;
    hide SortedSockets;
    hide SurplusEvents;
  }

  lemma SocketsLeftOver(p: seq<Socket>, c: seq<Socket>)
    requires SortedSockets(p) && SortedSockets(c)
    ensures SortedSockets(OnlyFirst(CompareSocket, p, c))
    ensures Keys(Erase, OnlyFirst(CompareSocket, p, c)) == Keys(Erase, p) - Keys(Erase, c)
  {
    SocketLawful();
    hide CompareSocket;
    OnlyFirstSorted(CompareSocket, p, c);
    OnlyFirstIsDifference(CompareSocket, Erase, p, c);
  }

  lemma SurplusTail(gone: seq<Socket>, added: seq<Socket>)
    ensures |gone| >= |added| ==> SurplusEvents(gone, added) == Map(Release, gone[|added|..])
    ensures |added| >= |gone| ==> SurplusEvents(gone, added) == Map(Bind, added[|gone|..])
  {
  }

  /** The two things a bucket can report. */
  lemma BucketCases(pr: Readiness, cr: Readiness, p: seq<Socket>, c: seq<Socket>)
    ensures ReplacedInPlace(pr, cr, p, c) ==>
              BucketEvents(pr, cr, p, c) == [Replacement(p[0], c[0], ReplacementCertainty(pr, p[0], cr, c[0]).value)]
    ensures !ReplacedInPlace(pr, cr, p, c) ==>
              BucketEvents(pr, cr, p, c) == SurplusEvents(OnlyFirst(CompareSocket, p, c), OnlyFirst(CompareSocket, c, p))
  {
    if |p| == 1 && |c| == 1 {
      SocketLawfulAt(p[0], c[0], p[0]);
    }
    hide CompareSocket;
    hide ReplacementCertainty;
  }

  function Mirror(e: WatchEvent): WatchEvent {
    match e.sides
    case ReleaseSide(s) => e.(sides := BindSide(s))
    case BindSide(s) => e.(sides := ReleaseSide(s))
    case ReplacementSides(p, c) => e.(sides := ReplacementSides(c, p))
    case BaselineSide(s) => e
  }

  lemma BucketMirror(pr: Readiness, cr: Readiness, p: seq<Socket>, c: seq<Socket>)
    ensures Map(Mirror, BucketEvents(pr, cr, p, c)) == BucketEvents(cr, pr, c, p)
  {
    if |p| == 1 && |c| == 1 { SocketLawfulAt(p[0], c[0], p[0]); }
    forall s: seq<Socket> ensures Map(Mirror, Map(Release, s)) == Map(Bind, s) && Map(Mirror, Map(Bind, s)) == Map(Release, s) {}
  }

  function EraseEvent(e: WatchEvent): WatchEvent {
    match e.sides
    case ReplacementSides(p, c) => e.(sides := ReplacementSides(Erase(p), Erase(c)))
    case ReleaseSide(s) => e.(sides := ReleaseSide(Erase(s)))
    case BindSide(s) => e.(sides := BindSide(Erase(s)))
    case BaselineSide(s) => e.(sides := BaselineSide(Erase(s)))
  }

  lemma EraseInvisible()
    ensures forall x, y :: CompareSocket(Erase(x), Erase(y)) == CompareSocket(x, y)
    ensures forall x, y :: CompareBucket(Erase(x), Erase(y)) == CompareBucket(x, y)
  {
    forall x, y ensures CompareSocket(Erase(x), Erase(y)) == CompareSocket(x, y) {}
  }

  lemma {:induction false} MapSuffix<A, B>(f: A -> B, s: seq<A>, i: nat)
    requires i <= |s|
    ensures Map(f, s)[i..] == Map(f, s[i..]) && Map(f, s)[..i] == Map(f, s[..i])
  {
    if i > 0 {
      MapSuffix(f, s[1..], i - 1);
      assert s[1..][i-1..] == s[i..] && s[..i] == [s[0]] + s[1..][..i-1];
    } else {
      assert s[i..] == s;
    }
  }

  lemma MapRelease(s: seq<Socket>)
    ensures Map(EraseEvent, Map(Release, s)) == Map(Release, Map(Erase, s))
    ensures Map(EraseEvent, Map(Bind, s)) == Map(Bind, Map(Erase, s))
  {
  }

  lemma SurplusErase(gone: seq<Socket>, added: seq<Socket>)
    ensures Map(EraseEvent, SurplusEvents(gone, added)) == SurplusEvents(Map(Erase, gone), Map(Erase, added))
  {
    if |gone| > |added| {
      MapSuffix(Erase, gone, |added|);
      MapRelease(gone[|added|..]);
    } else if |added| > |gone| {
      MapSuffix(Erase, added, |gone|);
      MapRelease(added[|gone|..]);
    }
  }

  lemma CertaintyErase(pr: Readiness, cr: Readiness, p: Socket, c: Socket)
    ensures ReplacementCertainty(pr, Erase(p), cr, Erase(c)) == ReplacementCertainty(pr, p, cr, c)
  {
  }

  lemma SurplusOfErased(p: seq<Socket>, c: seq<Socket>)
    ensures Map(EraseEvent, SurplusEvents(OnlyFirst(CompareSocket, p, c), OnlyFirst(CompareSocket, c, p)))
         == SurplusEvents(OnlyFirst(CompareSocket, Map(Erase, p), Map(Erase, c)),
                          OnlyFirst(CompareSocket, Map(Erase, c), Map(Erase, p)))
  {
    EraseInvisible();
    OnlyFirstMap(CompareSocket, Erase, p, c);
    OnlyFirstMap(CompareSocket, Erase, c, p);
    SurplusErase(OnlyFirst(CompareSocket, p, c), OnlyFirst(CompareSocket, c, p));
  }

  /** Erasing keeps which kind of bucket it is. */
  lemma ReplacedErase(pr: Readiness, cr: Readiness, p: seq<Socket>, c: seq<Socket>)
    ensures ReplacedInPlace(pr, cr, Map(Erase, p), Map(Erase, c)) <==> ReplacedInPlace(pr, cr, p, c)
    ensures ReplacedInPlace(pr, cr, p, c) ==>
              ReplacementCertainty(pr, Erase(p[0]), cr, Erase(c[0])) == ReplacementCertainty(pr, p[0], cr, c[0])
  {
    if |p| == 1 && |c| == 1 {
      CertaintyErase(pr, cr, p[0], c[0]);
      hide ReplacementCertainty;
      assert Erase(Erase(p[0])) == Erase(p[0]) && Erase(Erase(c[0])) == Erase(c[0]);
    }
  }

  lemma BucketErase(pr: Readiness, cr: Readiness, p: seq<Socket>, c: seq<Socket>)
    ensures Map(EraseEvent, BucketEvents(pr, cr, p, c)) == BucketEvents(pr, cr, Map(Erase, p), Map(Erase, c))
  {
    ReplacedErase(pr, cr, p, c);
    BucketCases(pr, cr, p, c);
    BucketCases(pr, cr, Map(Erase, p), Map(Erase, c));
    hide BucketEvents;
    hide SurplusEvents;
    hide ReplacementCertainty;
    hide OnlyFirst;
    if ReplacedInPlace(pr, cr, p, c) {
      ReplacementErase(p[0], c[0], ReplacementCertainty(pr, p[0], cr, c[0]).value);
      assert Map(Erase, p)[0] == Erase(p[0]) && Map(Erase, c)[0] == Erase(c[0]);
      hide ReplacedInPlace;
    } else {
      hide ReplacedInPlace;
      SurplusOfErased(p, c);
    }
  }

  lemma ReplacementErase(p: Socket, c: Socket, certainty: Certainty)
    ensures Map(EraseEvent, [Replacement(p, c, certainty)]) == [Replacement(Erase(p), Erase(c), certainty)]
  {
  }

  // ----- The whole stream

  /** Swapping the two snapshots mirrors the stream event by event. */
  lemma {:induction false} DiffMirror(pr: Readiness, cr: Readiness, p: seq<Socket>, c: seq<Socket>)
    requires SortedSockets(p) && SortedSockets(c)
    ensures Diff(cr, pr, c, p) == Map(Mirror, Diff(pr, cr, p, c))
    decreases |p| + |c|
  {
    if p != [] || c != [] {
      var first, pe, ce := DiffStep(pr, cr, p, c);
      BucketMirror(pr, cr, p[..pe], c[..ce]);
      DiffMirror(pr, cr, p[pe..], c[ce..]);
      MapAppend(Mirror, BucketEvents(pr, cr, p[..pe], c[..ce]), Diff(pr, cr, p[pe..], c[ce..]));
    }
  }

  lemma {:induction false} DiffWithin(pr: Readiness, cr: Readiness, p: seq<Socket>, c: seq<Socket>)
    requires SortedSockets(p) && SortedSockets(c)
    ensures forall e | e in Diff(pr, cr, p, c) :: e.EventSocket() in p || e.EventSocket() in c
    ensures |Diff(pr, cr, p, c)| <= |p| + |c|
    decreases |p| + |c|
  {
    if p != [] || c != [] {
      var first, pe, ce := DiffStep(pr, cr, p, c);
      BucketEventsWithin(pr, cr, p[..pe], c[..ce]);
      DiffWithin(pr, cr, p[pe..], c[ce..]);
    }
  }

  lemma FilterCut(b: Bucket, first: Socket, s: seq<Socket>, n: nat)
    requires n <= |s| && After(first, s[n..])
    requires forall x | x in s[..n] :: BucketOf(x) == BucketOf(first)
    ensures Filter(BucketFilter(b), s) == if b == BucketOf(first) then s[..n] else Filter(BucketFilter(b), s[n..])
    ensures b == BucketOf(first) ==> Filter(BucketFilter(b), s[n..]) == []
  {
    assert s == s[..n] + s[n..];
    FilterAppend(BucketFilter(b), s[..n], s[n..]);
    if b == BucketOf(first) {
      FilterAll(BucketFilter(b), s[..n]);
      AfterDiffers(first, s[n..]);
      FilterNone(BucketFilter(b), s[n..]);
    } else {
      FilterNone(BucketFilter(b), s[..n]);
    }
  }

  /** The stream seen through one bucket is that bucket's eager comparison. */
  lemma {:induction false} BucketExact(pr: Readiness, cr: Readiness, p: seq<Socket>, c: seq<Socket>, b: Bucket)
    requires SortedSockets(p) && SortedSockets(c)
    ensures Filter(EventFilter(b), Diff(pr, cr, p, c))
         == BucketEvents(pr, cr, Filter(BucketFilter(b), p), Filter(BucketFilter(b), c))
    decreases |p| + |c|
  {
    if p != [] || c != [] {
      var first, pe, ce := DiffStep(pr, cr, p, c);
      var now, later := BucketEvents(pr, cr, p[..pe], c[..ce]), Diff(pr, cr, p[pe..], c[ce..]);
      BucketExact(pr, cr, p[pe..], c[ce..], b);
      FilterAppend(EventFilter(b), now, later);
      BucketEventsWithin(pr, cr, p[..pe], c[..ce]);
      FilterCut(b, first, p, pe);
      FilterCut(b, first, c, ce);
      if b == BucketOf(first) {
        FilterAll(EventFilter(b), now);
      } else {
        FilterNone(EventFilter(b), now);
      }
    }
  }

  lemma AfterDiffers(b: Socket, s: seq<Socket>)
    requires After(b, s)
    ensures forall x | x in s :: BucketOf(x) != BucketOf(b)
  {
    forall x | x in s ensures BucketOf(x) != BucketOf(b) { BucketLawful(b, x, x); }
  }

  function IsRelease(): WatchEvent -> bool { (e: WatchEvent) => e.sides.ReleaseSide? }

  function IsBind(): WatchEvent -> bool { (e: WatchEvent) => e.sides.BindSide? }

  lemma SurplusCounts(gone: seq<Socket>, added: seq<Socket>)
    ensures var e := SurplusEvents(gone, added);
            && |Filter(IsRelease(), e)| - |Filter(IsBind(), e)| == |gone| - |added|
            && (Filter(IsRelease(), e) == [] || Filter(IsBind(), e) == [])
  {
    var e := SurplusEvents(gone, added);
    if |gone| >= |added| {
      FilterAll(IsRelease(), e);
      FilterNone(IsBind(), e);
    } else {
      FilterAll(IsBind(), e);
      FilterNone(IsRelease(), e);
    }
  }

  /** Socket multiplicity is conserved in every bucket, and no bucket reports both
      a release and a bind. */
  lemma Conservation(pr: Readiness, cr: Readiness, p: seq<Socket>, c: seq<Socket>, b: Bucket)
    requires SortedSockets(p) && SortedSockets(c)
    ensures var events := Filter(EventFilter(b), Diff(pr, cr, p, c));
            && |Filter(BucketFilter(b), p)| - |Filter(IsRelease(), events)| + |Filter(IsBind(), events)|
               == |Filter(BucketFilter(b), c)|
            && (Filter(IsRelease(), events) == [] || Filter(IsBind(), events) == [])
  {
    BucketExact(pr, cr, p, c, b);
    var pb, cb := Filter(BucketFilter(b), p), Filter(BucketFilter(b), c);
    BucketCounts(pr, cr, pb, cb);
    hide BucketEvents;
    hide Filter;
    hide Diff;
  }

  lemma BucketCounts(pr: Readiness, cr: Readiness, p: seq<Socket>, c: seq<Socket>)
    ensures var events := BucketEvents(pr, cr, p, c);
            && |p| - |Filter(IsRelease(), events)| + |Filter(IsBind(), events)| == |c|
            && (Filter(IsRelease(), events) == [] || Filter(IsBind(), events) == [])
  {
    BucketCases(pr, cr, p, c);
    OnlyFirstBalanceSockets(p, c);
    SurplusCounts(OnlyFirst(CompareSocket, p, c), OnlyFirst(CompareSocket, c, p));
    hide BucketEvents;
    hide SurplusEvents;
    hide OnlyFirst;
  }

  lemma OnlyFirstBalanceSockets(p: seq<Socket>, c: seq<Socket>)
    ensures |OnlyFirst(CompareSocket, p, c)| + |c| == |OnlyFirst(CompareSocket, c, p)| + |p|
  {
    SocketLawful();
    OnlyFirstBalance(CompareSocket, p, c);
  }

  // ----- Order of the stream

  lemma PrefixOfSameKind(x: WatchEvent, y: WatchEvent)
    requires (x.sides.ReleaseSide? && y.sides.ReleaseSide?) || (x.sides.BindSide? && y.sides.BindSide?)
    requires CompareSocket(x.EventSocket(), y.EventSocket()) != Greater
    ensures CompareEventPrefix(x, y) != Greater
  {
  }

  lemma BucketOrdered(pr: Readiness, cr: Readiness, p: seq<Socket>, c: seq<Socket>)
    requires SortedSockets(p) && SortedSockets(c)
    ensures Sorted(CompareEventPrefix, BucketEvents(pr, cr, p, c))
  {
    BucketCases(pr, cr, p, c);
    hide BucketEvents;
    OnlyFirstSorted(CompareSocket, p, c);
    OnlyFirstSorted(CompareSocket, c, p);
    SurplusOrdered(OnlyFirst(CompareSocket, p, c), OnlyFirst(CompareSocket, c, p));
    hide OnlyFirst;
    hide CompareSocket;
    hide ReplacedInPlace;
    hide SurplusEvents;
  }

  lemma SurplusOrdered(gone: seq<Socket>, added: seq<Socket>)
    requires SortedSockets(gone) && SortedSockets(added)
    ensures Sorted(CompareEventPrefix, SurplusEvents(gone, added))
  {
    hide CompareSocket;
    hide CompareEventPrefix;
    var events := SurplusEvents(gone, added);
    forall i, j | 0 <= i < j < |events| ensures CompareEventPrefix(events[i], events[j]) != Greater {
      PrefixOfSameKind(events[i], events[j]);
    }
  }

  /** The stream never steps back under the event order it promises. */
  lemma {:induction false} DiffOrdered(pr: Readiness, cr: Readiness, p: seq<Socket>, c: seq<Socket>)
    requires SortedSockets(p) && SortedSockets(c)
    ensures Sorted(CompareEventPrefix, Diff(pr, cr, p, c))
    decreases |p| + |c|
  {
    if p != [] || c != [] {
      var first, pe, ce := DiffStep(pr, cr, p, c);
      var now, later := BucketEvents(pr, cr, p[..pe], c[..ce]), Diff(pr, cr, p[pe..], c[ce..]);
      BucketOrdered(pr, cr, p[..pe], c[..ce]);
      DiffOrdered(pr, cr, p[pe..], c[ce..]);
      BucketEventsWithin(pr, cr, p[..pe], c[..ce]);
      DiffWithin(pr, cr, p[pe..], c[ce..]);
      forall i, j | 0 <= i < |now| && 0 <= j < |later| ensures CompareEventPrefix(now[i], later[j]) != Greater {
        assert now[i] in now && later[j] in later;
        BucketLawful(first, now[i].EventSocket(), later[j].EventSocket());
      }
    }
  }

  // ----- Independence of the sort

  lemma {:induction false} DiffErase(pr: Readiness, cr: Readiness, p: seq<Socket>, c: seq<Socket>)
    ensures Map(EraseEvent, Diff(pr, cr, p, c)) == Diff(pr, cr, Map(Erase, p), Map(Erase, c))
    decreases |p| + |c|
  {
    if p != [] || c != [] {
      EraseInvisible();
      var ep, ec := Map(Erase, p), Map(Erase, c);
      var o := NextBucket(p, c);
      assert o == NextBucket(ep, ec);
      BucketLengthErase(p);
      BucketLengthErase(c);
      var pe := if o == Greater then 0 else BucketLength(p);
      var ce := if o == Less then 0 else BucketLength(c);
      MapSuffix(Erase, p, pe);
      MapSuffix(Erase, c, ce);
      BucketErase(pr, cr, p[..pe], c[..ce]);
      DiffErase(pr, cr, p[pe..], c[ce..]);
      MapAppend(EraseEvent, BucketEvents(pr, cr, p[..pe], c[..ce]), Diff(pr, cr, p[pe..], c[ce..]));
    }
  }

  lemma {:induction false} SpanErase(first: Socket, s: seq<Socket>)
    ensures Span(Erase(first), Map(Erase, s)) == Span(first, s)
  {
    if s != [] { SpanErase(first, s[1..]); EraseInvisible(); }
  }

  lemma BucketLengthErase(s: seq<Socket>)
    ensures BucketLength(Map(Erase, s)) == BucketLength(s)
  {
    if s != [] { SpanErase(s[0], s[1..]); }
  }

  /** Two sorted views of the same erased multiset agree element by element. */
  lemma SortedViewsAgree(p: seq<Socket>, q: seq<Socket>)
    requires SortedSockets(p) && SortedSockets(q) && Keys(Erase, p) == Keys(Erase, q)
    ensures Map(Erase, p) == Map(Erase, q)
  {
    var a, b := Map(Erase, p), Map(Erase, q);
    EraseInvisible();
    assert Sorted(CompareSocket, a) && Sorted(CompareSocket, b);
    forall i, j | 0 <= i < |a| && 0 <= j < |b| && CompareSocket(a[i], b[j]) == Equal ensures a[i] == b[j] {
      SocketLawfulAt(a[i], b[j], a[i]);
    }
    SocketLawful();
    SortedUnique(CompareSocket, a, b);
  }

  // ----- Snapshots

  function Stream(prev: Snapshot, cur: Snapshot, p: seq<Socket>, c: seq<Socket>): seq<WatchEvent> {
    Diff(ReadinessOf(prev), ReadinessOf(cur), p, c)
  }

  /** Two snapshots that list the same evidence, possibly in another order and with other UIDs. */
  ghost predicate SameEvidence(s: Snapshot, t: Snapshot) {
    && Keys(Erase, s.sockets) == Keys(Erase, t.sockets)
    && multiset(s.gaps) == multiset(t.gaps)
    && s.ownerCompleteness == t.ownerCompleteness
  }

  lemma IncompleteErase(a: seq<Socket>, b: seq<Socket>)
    requires Keys(Erase, a) == Keys(Erase, b)
    ensures IncompleteEndpoints(a) <= IncompleteEndpoints(b)
  {
    forall e | e in IncompleteEndpoints(a) ensures e in IncompleteEndpoints(b) {
      var i :| 0 <= i < |a| && a[i].ownerCompleteness != Complete && a[i].endpoint == e;
      assert Map(Erase, a)[i] in Keys(Erase, a);
      var j :| 0 <= j < |b| && Map(Erase, b)[j] == Erase(a[i]);
      assert b[j] in b && b[j].endpoint == e && b[j].ownerCompleteness == a[i].ownerCompleteness;
    }
  }

  lemma ReadinessIgnoresOrder(s: Snapshot, t: Snapshot)
    requires SameEvidence(s, t)
    ensures ReadinessOf(s) == ReadinessOf(t)
  {
    IncompleteErase(s.sockets, t.sockets);
    IncompleteErase(t.sockets, s.sockets);
    assert forall g :: g in s.gaps <==> g in multiset(t.gaps);
    assert forall g :: g in t.gaps <==> g in multiset(s.gaps);
    assert GapEndpoints(s.gaps) == GapEndpoints(t.gaps);
    assert HasGlobalOwnershipGap(s.gaps) == HasGlobalOwnershipGap(t.gaps);
  }

  /** The stream does not depend on how either snapshot, or either sort, ordered its sockets. */
  lemma StreamIgnoresOrder(prev: Snapshot, prev2: Snapshot, cur: Snapshot, cur2: Snapshot,
                           p: seq<Socket>, p2: seq<Socket>, c: seq<Socket>, c2: seq<Socket>)
    requires SameEvidence(prev, prev2) && SameEvidence(cur, cur2)
    requires SortedView(prev, p) && SortedView(prev2, p2) && SortedView(cur, c) && SortedView(cur2, c2)
    ensures Map(EraseEvent, Stream(prev, cur, p, c)) == Map(EraseEvent, Stream(prev2, cur2, p2, c2))
  {
    ReadinessIgnoresOrder(prev, prev2);
    ReadinessIgnoresOrder(cur, cur2);
    MapPermutes(Erase, p, prev.sockets);
    MapPermutes(Erase, p2, prev2.sockets);
    MapPermutes(Erase, c, cur.sockets);
    MapPermutes(Erase, c2, cur2.sockets);
    SortedViewsAgree(p, p2);
    SortedViewsAgree(c, c2);
    DiffErase(ReadinessOf(prev), ReadinessOf(cur), p, c);
    DiffErase(ReadinessOf(prev), ReadinessOf(cur), p2, c2);
  }

  /** Exactly when a poll stays silent: every bucket keeps its size and no single socket
      provably changed hands. */
  lemma SilentExactly(pr: Readiness, cr: Readiness, p: seq<Socket>, c: seq<Socket>)
    requires SortedSockets(p) && SortedSockets(c)
    ensures Diff(pr, cr, p, c) == [] <==>
              forall b: Bucket ::
                && |Filter(BucketFilter(b), p)| == |Filter(BucketFilter(b), c)|
                && !ReplacedInPlace(pr, cr, Filter(BucketFilter(b), p), Filter(BucketFilter(b), c))
  {
    var events := Diff(pr, cr, p, c);
    forall b: Bucket
      ensures Filter(EventFilter(b), events) == [] <==>
                && |Filter(BucketFilter(b), p)| == |Filter(BucketFilter(b), c)|
                && !ReplacedInPlace(pr, cr, Filter(BucketFilter(b), p), Filter(BucketFilter(b), c))
    {
      BucketExact(pr, cr, p, c, b);
      BucketSilence(pr, cr, Filter(BucketFilter(b), p), Filter(BucketFilter(b), c));
    }
    if events != [] {
      assert events[0] in Filter(EventFilter(BucketOf(events[0].EventSocket())), events);
    }
  }

  lemma BucketSilence(pr: Readiness, cr: Readiness, p: seq<Socket>, c: seq<Socket>)
    ensures BucketEvents(pr, cr, p, c) == [] <==> |p| == |c| && !ReplacedInPlace(pr, cr, p, c)
  {
    OnlyFirstBalanceSockets(p, c);
    if |p| == 1 && |c| == 1 { SocketLawfulAt(p[0], c[0], p[0]); }
  }

  /** Comparing a snapshot with any reordering of itself reports nothing. */
  lemma SelfDiffSilent(s: Snapshot, t: Snapshot, p: seq<Socket>, c: seq<Socket>)
    requires SortedView(s, p) && SortedView(t, c) && Keys(Erase, s.sockets) == Keys(Erase, t.sockets)
    ensures Stream(s, t, p, c) == []
  {
    MapPermutes(Erase, p, s.sockets);
    MapPermutes(Erase, c, t.sockets);
    SortedViewsAgree(p, c);
    DiffErase(ReadinessOf(s), ReadinessOf(t), p, c);
    var q := Map(Erase, p);
    EraseInvisible();
    assert SortedSockets(q);
    SilentExactly(ReadinessOf(s), ReadinessOf(t), q, q);
  }

  // ----- What the events of a stream say

  /** The snapshot ties every owner of the endpoint to a complete owner set. */
  ghost predicate OwnersSettled(s: Snapshot, e: Endpoint) {
    && s.ownerCompleteness == Complete
    && (forall g | g in s.gaps && g.impact == Ownership :: g.endpoint.Some? && g.endpoint.value != e)
    && (forall x | x in s.sockets && x.endpoint == e :: x.ownerCompleteness == Complete)
  }

  ghost predicate OwnedAlone(x: Socket, owner: ProcessIdentity) {
    x.owners == [Verified(owner)]
  }

  /** The two identities belong to two generations of one PID, by markers of one kind. */
  ghost predicate Succeeds(a: ProcessIdentity, b: ProcessIdentity) {
    && a.pid == b.pid
    && match (a.startMarker, b.startMarker)
       case (LinuxStartTicks(_), LinuxStartTicks(_)) => true
       case (MacOsStartTime(_, _), MacOsStartTime(_, _)) => true
       case (WindowsCreationTime(_), WindowsCreationTime(_)) => true
       case _ => false
  }

  /** The socket provably passed from one owner to another between the snapshots. */
  ghost predicate ChangedHands(prev: Snapshot, cur: Snapshot, x: Socket, y: Socket, a: ProcessIdentity, b: ProcessIdentity) {
    && OwnersSettled(prev, x.endpoint) && OwnersSettled(cur, y.endpoint)
    && OwnedAlone(x, a) && OwnedAlone(y, b) && a != b
  }

  lemma CertaintyMeaning(prev: Snapshot, cur: Snapshot, x: Socket, y: Socket)
    requires x in prev.sockets && y in cur.sockets
    ensures var certainty := ReplacementCertainty(ReadinessOf(prev), x, ReadinessOf(cur), y);
      && (certainty.Some? <==> exists a, b :: ChangedHands(prev, cur, x, y, a, b))
      && (forall a, b | ChangedHands(prev, cur, x, y, a, b) :: certainty == Some(if Succeeds(a, b) then Proven else Heuristic))
  {
    ReadinessMeaning(prev, x.endpoint);
    ReadinessMeaning(cur, y.endpoint);
    hide ReadinessOf;
    var certainty := ReplacementCertainty(ReadinessOf(prev), x, ReadinessOf(cur), y);
    if certainty.Some? {
      assert ChangedHands(prev, cur, x, y, x.owners[0].identity, y.owners[0].identity);
    }
  }

  lemma ReadinessMeaning(s: Snapshot, e: Endpoint)
    ensures ReadinessOf(s).Allows(e) <==> OwnersSettled(s, e)
  {
  }

  /** Exactly when the stream reports a replacement: each snapshot has one socket in the bucket,
      and it provably changed hands. It is Proven for two generations of one PID, else Heuristic. */
  lemma ReplacementExactly(prev: Snapshot, cur: Snapshot, p: seq<Socket>, c: seq<Socket>, x: Socket, y: Socket,
                           multiplicity: nat, certainty: Certainty)
    requires SortedView(prev, p) && SortedView(cur, c)
    ensures WatchEvent(ReplacementSides(x, y), multiplicity, certainty) in Stream(prev, cur, p, c) <==>
      && BucketOf(x) == BucketOf(y) && multiplicity == 1
      && Filter(BucketFilter(BucketOf(y)), p) == [x] && Filter(BucketFilter(BucketOf(y)), c) == [y]
      && exists a, b :: ChangedHands(prev, cur, x, y, a, b) && certainty == if Succeeds(a, b) then Proven else Heuristic
  {
    var b := BucketOf(y);
    var pb, cb := Filter(BucketFilter(b), p), Filter(BucketFilter(b), c);
    var e := WatchEvent(ReplacementSides(x, y), multiplicity, certainty);
    BucketMember(prev, cur, p, c, e);
    hide Stream;
    BucketCases(ReadinessOf(prev), ReadinessOf(cur), pb, cb);
    hide BucketEvents;
    SurplusKinds(OnlyFirst(CompareSocket, pb, cb), OnlyFirst(CompareSocket, cb, pb));
    hide SurplusEvents;
    hide OnlyFirst;
    FilterMember(b, p, prev.sockets, x);
    FilterMember(b, c, cur.sockets, y);
    if pb == [x] && cb == [y] {
      CertaintyMeaning(prev, cur, x, y);
    }
    hide ReplacementCertainty;
    hide ReadinessOf;
    hide ChangedHands;
    if pb == [x] && cb == [y] && exists a, d :: ChangedHands(prev, cur, x, y, a, d) {
      HandsDiffer(prev, cur, x, y);
    }
  }

  lemma HandsDiffer(prev: Snapshot, cur: Snapshot, x: Socket, y: Socket)
    requires exists a, b :: ChangedHands(prev, cur, x, y, a, b)
    ensures Erase(x) != Erase(y)
  {
  }

  lemma FilterMember(b: Bucket, view: seq<Socket>, sockets: seq<Socket>, x: Socket)
    requires multiset(view) == multiset(sockets)
    ensures Filter(BucketFilter(b), view) == [x] ==> x in sockets && BucketOf(x) == b
  {
    if Filter(BucketFilter(b), view) == [x] {
      assert x in Filter(BucketFilter(b), view);
      assert x in multiset(sockets);
    }
  }

  /** An event is in the stream exactly when it is in its own bucket's comparison. */
  lemma BucketMember(prev: Snapshot, cur: Snapshot, p: seq<Socket>, c: seq<Socket>, e: WatchEvent)
    requires SortedView(prev, p) && SortedView(cur, c)
    ensures var b := BucketOf(e.EventSocket());
      e in Stream(prev, cur, p, c) <==>
        e in BucketEvents(ReadinessOf(prev), ReadinessOf(cur), Filter(BucketFilter(b), p), Filter(BucketFilter(b), c))
  {
    var b := BucketOf(e.EventSocket());
    BucketExact(ReadinessOf(prev), ReadinessOf(cur), p, c, b);
    var events := Stream(prev, cur, p, c);
    hide Diff;
    hide BucketEvents;
    assert e in events <==> e in Filter(EventFilter(b), events);
  }

  lemma SurplusKinds(gone: seq<Socket>, added: seq<Socket>)
    ensures forall e | e in SurplusEvents(gone, added) ::
              || (exists s | s in gone :: e == WatchEvent(ReleaseSide(s), 1, Proven))
              || (exists s | s in added :: e == WatchEvent(BindSide(s), 1, Proven))
  {
    var events := SurplusEvents(gone, added);
    forall e | e in events ensures
      || (exists s | s in gone :: e == WatchEvent(ReleaseSide(s), 1, Proven))
      || (exists s | s in added :: e == WatchEvent(BindSide(s), 1, Proven))
    {
      var i :| 0 <= i < |events| && events[i] == e;
      if |gone| > |added| {
        assert gone[|added|..][i] in gone;
      } else {
        assert added[|gone|..][i] in added;
      }
    }
  }

  /** Every event of a poll: a release of a socket of the earlier snapshot, a bind of one of the
      later, both certain, or a replacement. */
  lemma EventKinds(prev: Snapshot, cur: Snapshot, p: seq<Socket>, c: seq<Socket>, e: WatchEvent)
    requires SortedView(prev, p) && SortedView(cur, c) && e in Stream(prev, cur, p, c)
    ensures e.multiplicity == 1
    ensures match e.sides
      case ReleaseSide(x) => x in prev.sockets && e.certainty == Proven
      case BindSide(y) => y in cur.sockets && e.certainty == Proven
      case ReplacementSides(x, y) => x in prev.sockets && y in cur.sockets && BucketOf(x) == BucketOf(y)
      case BaselineSide(_) => false
  {
    var b := BucketOf(e.EventSocket());
    var pb, cb := Filter(BucketFilter(b), p), Filter(BucketFilter(b), c);
    BucketMember(prev, cur, p, c, e);
    hide Stream;
    BucketCases(ReadinessOf(prev), ReadinessOf(cur), pb, cb);
    hide BucketEvents;
    SurplusKinds(OnlyFirst(CompareSocket, pb, cb), OnlyFirst(CompareSocket, cb, pb));
    OnlyFirstMembers(CompareSocket, pb, cb);
    OnlyFirstMembers(CompareSocket, cb, pb);
    hide SurplusEvents;
    hide OnlyFirst;
    hide ReplacementCertainty;
    hide ReadinessOf;
    InBucket(b, p, prev.sockets);
    InBucket(b, c, cur.sockets);
  }

  lemma InBucket(b: Bucket, view: seq<Socket>, sockets: seq<Socket>)
    requires multiset(view) == multiset(sockets)
    ensures forall x | x in Filter(BucketFilter(b), view) :: x in sockets && BucketOf(x) == b
  {
    forall x | x in Filter(BucketFilter(b), view) ensures x in sockets && BucketOf(x) == b {
      assert x in multiset(sockets);
    }
  }
}

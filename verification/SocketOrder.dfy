/** The comparators of `src/watch.rs`: the total preorder snapshots are sorted by before
    they are merged, and the order the event stream promises to its readers. */
module SocketOrder {
  import opened Orders
  import opened Observation

  /** `compare_token`: unlike `Option`'s own order, a missing token comes last. */
  function CompareToken(l: Option<Token>, r: Option<Token>): Ordering {
    match (l, r)
    case (Some(a), Some(b)) => CompareTokenValue(a, b)
    case (Some(_), None) => Less
    case (None, Some(_)) => Greater
    case (None, None) => Equal
  }

  function CompareBucket(l: Socket, r: Socket): Ordering {
    CompareEndpoint(l.endpoint, r.endpoint).Then(CompareState(l.state, r.state))
  }

  function OmittedOwners(owners: seq<Owner>): nat {
    if |owners| > SERIALIZED_OWNERS_MAX then |owners| - SERIALIZED_OWNERS_MAX else 0
  }

  function ShownOwners(owners: seq<Owner>): seq<Owner> {
    if |owners| > SERIALIZED_OWNERS_MAX then owners[..SERIALIZED_OWNERS_MAX] else owners
  }

  function CompareOwnerSet(l: Socket, r: Socket): Ordering {
    CompareCompleteness(l.ownerCompleteness, r.ownerCompleteness)
    .Then(CompareInt(OmittedOwners(l.owners), OmittedOwners(r.owners)))
    .Then(CompareSeq(CompareOwner, ShownOwners(l.owners), ShownOwners(r.owners)))
  }

  /** The part of `compare_socket` an event's position depends on. */
  function ComparePlacement(l: Socket, r: Socket): Ordering {
    CompareBucket(l, r)
    .Then(CompareToken(l.token, r.token))
    .Then(CompareOwnerSet(l, r))
  }

  function CompareSocket(l: Socket, r: Socket): Ordering {
    ComparePlacement(l, r)
    .Then(CompareSeq(CompareOwner, l.owners, r.owners))
    .Then(CompareOption(CompareTimer, l.timer, r.timer))
  }

  /** `compare_socket` never looks at the creating UID; everything else decides it. */
  function Erase(s: Socket): Socket {
    s.(localUid := None)
  }

  lemma BucketLawful(x: Socket, y: Socket, z: Socket)
    ensures LawfulAt(CompareBucket, x, y, z)
    ensures CompareBucket(x, y) == Equal <==> x.endpoint == y.endpoint && x.state == y.state
  {
    assert LawfulAt(CompareEndpoint, x.endpoint, y.endpoint, z.endpoint)
      && (CompareEndpoint(x.endpoint, y.endpoint) == Equal <==> x.endpoint == y.endpoint) by { EndpointLawful(); }
    assert LawfulAt(CompareState, x.state, y.state, z.state)
      && (CompareState(x.state, y.state) == Equal <==> x.state == y.state) by { StateLawful(); }
  }

  lemma TokenLawful(x: Option<Token>, y: Option<Token>, z: Option<Token>)
    ensures LawfulAt(CompareToken, x, y, z)
    ensures CompareToken(x, y) == Equal <==> x == y
  {
  }

  lemma OwnerSetLawful(x: Socket, y: Socket, z: Socket)
    ensures LawfulAt(CompareOwnerSet, x, y, z)
    ensures CompareOwnerSet(x, y) == Equal ==> x.ownerCompleteness == y.ownerCompleteness
  {
    assert LawfulAt(CompareCompleteness, x.ownerCompleteness, y.ownerCompleteness, z.ownerCompleteness)
      && (CompareCompleteness(x.ownerCompleteness, y.ownerCompleteness) == Equal
          <==> x.ownerCompleteness == y.ownerCompleteness) by { CompletenessLawful(); }
    assert LawfulAt(OnSeqs(CompareOwner), ShownOwners(x.owners), ShownOwners(y.owners), ShownOwners(z.owners)) by {
      OwnerLawful();
    }
  }

  lemma PlacementLawful(x: Socket, y: Socket, z: Socket)
    ensures LawfulAt(ComparePlacement, x, y, z)
    ensures ComparePlacement(x, y) == Equal ==>
              x.endpoint == y.endpoint && x.state == y.state && x.token == y.token && x.ownerCompleteness == y.ownerCompleteness
  {
    BucketLawful(x, y, z);
    TokenLawful(x.token, y.token, z.token);
    OwnerSetLawful(x, y, z);
  }

  /** `compare_socket` is a total order on sockets with the UID erased. */
  lemma SocketLawfulAt(x: Socket, y: Socket, z: Socket)
    ensures LawfulAt(CompareSocket, x, y, z)
    ensures CompareSocket(x, y) == Equal <==> Erase(x) == Erase(y)
  {
    PlacementLawful(x, y, z);
    assert LawfulAt(OnSeqs(CompareOwner), x.owners, y.owners, z.owners)
      && (CompareSeq(CompareOwner, x.owners, y.owners) == Equal <==> x.owners == y.owners) by { OwnerLawful(); }
    assert LawfulAt(OnOptions(CompareTimer), x.timer, y.timer, z.timer)
      && (CompareOption(CompareTimer, x.timer, y.timer) == Equal <==> x.timer == y.timer) by { TimerLawful(); }
    if Erase(x) == Erase(y) {
      assert LawfulAt(ComparePlacement, x, x, x) by { PlacementLawful(x, x, x); }
      assert ComparePlacement(x, y) == ComparePlacement(x, x);
    }
  }

  lemma SocketLawful()
    ensures Lawful(CompareSocket)
    ensures forall x, y :: CompareSocket(x, y) == Equal <==> Erase(x) == Erase(y)
  {
    forall x, y, z ensures LawfulAt(CompareSocket, x, y, z) { SocketLawfulAt(x, y, z); }
    forall x, y ensures CompareSocket(x, y) == Equal <==> Erase(x) == Erase(y) { SocketLawfulAt(x, y, y); }
  }

  /** A strict step between sockets is a strict step between buckets or stays in the bucket. */
  lemma BucketPrefix(x: Socket, y: Socket)
    ensures CompareBucket(x, y) != Equal ==> CompareSocket(x, y) == CompareBucket(x, y)
    ensures CompareSocket(x, y) != Greater ==> CompareBucket(x, y) != Greater
  {
  }
}

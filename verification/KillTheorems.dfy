/** End to end: what a granted kill on a collected snapshot says about the host's two reads. */
module KillTheorems {
  import opened Orders
  import opened Observation
  import opened NativePass
  import opened PassComparison
  import opened UncertaintyMerge
  import opened Publication
  import opened Consistency
  import opened ConsistencyTheorems
  import opened Collection
  import opened KillGate

  /** Both passes saw the socket's rows without doubt, and tie each owner to one generation. */
  ghost predicate SeenTwice(p: Provenance, s: Snapshot, k: nat)
    requires k < |s.sockets| && |p.b.rows| == |s.sockets|
  {
    var row := p.b.rows[k];
    var id := row.socket.id;
    && id == SocketId(s.sockets[k].endpoint, s.sockets[k].state, s.sockets[k].token)
    && |Group(p.a.rows, id)| == |Group(p.b.rows, id)| && PidBag(Group(p.a.rows, id)) == PidBag(Group(p.b.rows, id))
    && row.completeness == Complete
    && (forall r | r in Group(p.a.rows, id) :: r.completeness == Complete)
    && (forall o | o in s.sockets[k].owners ::
          && o.Verified?
          && Marker(p.a.processes, o.identity.pid) == Some(o.identity.startMarker)
          && Marker(p.b.processes, o.identity.pid) == Some(o.identity.startMarker))
    && (forall pid | pid in row.ownerPids :: exists o | o in s.sockets[k].owners :: OwnerPid(o) == pid)
  }

  lemma PublishedOwner(row: NativeRow, processes: seq<(nat, ProcessRead)>, raced: bool, x: Socket)
    requires PublishedAs(row, processes, raced, x)
    ensures forall o | o in x.owners :: exists pid | pid in row.ownerPids :: o == OwnerOf(processes, pid)
    ensures forall pid | pid in row.ownerPids :: OwnerOf(processes, pid) in x.owners
  {
    hide OwnerOf;
    hide Sorted;
    var mapped := Owners(processes, row.ownerPids);
    assert forall o :: o in x.owners <==> o in multiset(mapped);
    forall o | o in x.owners ensures exists pid | pid in row.ownerPids :: o == OwnerOf(processes, pid) {
      var i :| 0 <= i < |mapped| && mapped[i] == o;
      assert row.ownerPids[i] in row.ownerPids;
    }
    forall pid | pid in row.ownerPids ensures OwnerOf(processes, pid) in x.owners {
      var i :| 0 <= i < |row.ownerPids| && row.ownerPids[i] == pid;
      assert mapped[i] in multiset(mapped);
    }
  }

  lemma OwnerOfPid(processes: seq<(nat, ProcessRead)>, pid: nat)
    ensures OwnerPid(OwnerOf(processes, pid)) == pid
    ensures OwnerOf(processes, pid).Verified? ==>
              Marker(processes, pid) == Some(OwnerOf(processes, pid).identity.startMarker)
  {
  }

  /** The published socket at `k` is the second pass's row at `k`. */
  lemma PublishedRow(p: Provenance, limits: ObservationLimits, s: Snapshot, k: nat)
    requires Backs(p, limits, s) && k < |s.sockets|
    ensures |p.b.rows| == |s.sockets| == |p.merged.rows| && p.merged.processes == p.b.processes
    ensures p.merged.rows[k].socket == p.b.rows[k].socket && p.merged.rows[k].ownerPids == p.b.rows[k].ownerPids
    ensures p.b.rows[k].socket.id == SocketId(s.sockets[k].endpoint, s.sockets[k].state, s.sockets[k].token)
    ensures PublishedAs(p.merged.rows[k], p.b.processes, IsAffected(p.instability, p.merged.rows[k]), s.sockets[k])
  {
    hide PublishedAs;
    hide MergedRow;
    hide WellFormed;
    hide HonestPass;
    hide EntriesOf;
    hide WithinLimits;
    hide Collected;
    MergedSame(p.a.rows, p.b.rows[k]);
    PublishedIdentity(p.merged.rows[k], p.merged.processes, IsAffected(p.instability, p.merged.rows[k]), s.sockets[k]);
  }

  lemma MergedSame(a: seq<NativeRow>, row: NativeRow)
    ensures MergedRow(a, row).ownerPids == row.ownerPids && MergedRow(a, row).socket == row.socket
  {
  }

  lemma StablySettled(p: Provenance, limits: ObservationLimits, s: Snapshot, k: nat)
    requires Backs(p, limits, s) && PassesAgree(p.a, p.b) && k < |s.sockets|
    ensures |p.b.rows| == |s.sockets| && p.instability == None
    ensures s.sockets[k].ownerCompleteness == Complete <==> SocketClean(p.a, p.b, k)
  {
    hide PassesAgree;
    hide WellFormed;
    hide Merged;
    hide HonestPass;
    hide SocketClean;
    RowsPublished(p, limits, s);
    hide Published;
    OneSocketComplete(p.a, p.b, p.merged, p.dropped, limits, s, p.entries, p.processGaps, k);
  }

  lemma AgreedRow(a: CollectedPass, b: CollectedPass, row: NativeRow)
    requires PassesAgree(a, b) && row in b.rows
    ensures var id := row.socket.id;
      && |Group(a.rows, id)| == |Group(b.rows, id)| && PidBag(Group(a.rows, id)) == PidBag(Group(b.rows, id))
      && forall pid | pid in row.ownerPids :: Marker(a.processes, pid) == Marker(b.processes, pid)
  {
    hide Marker;
    hide PidBag;
    hide Group;
    forall pid | pid in row.ownerPids ensures pid in RowPids(b.rows) {}
  }

  lemma FullyOwnedSeenTwice(p: Provenance, limits: ObservationLimits, s: Snapshot, k: nat)
    requires Backs(p, limits, s) && PassesAgree(p.a, p.b) && k < |s.sockets| && FullyOwned(s.sockets[k])
    ensures |p.b.rows| == |s.sockets| && SeenTwice(p, s, k)
  {
    hide Backs;
    hide PassesAgree;
    hide Marker;
    hide OwnerOf;
    hide PublishedAs;
    hide PidBag;
    hide Group;
    PublishedRow(p, limits, s, k);
    StablySettled(p, limits, s, k);
    AgreedRow(p.a, p.b, p.b.rows[k]);
    PublishedOwner(p.merged.rows[k], p.merged.processes, IsAffected(p.instability, p.merged.rows[k]), s.sockets[k]);
    forall pid | pid in p.b.rows[k].ownerPids
      ensures OwnerPid(OwnerOf(p.b.processes, pid)) == pid
      ensures OwnerOf(p.b.processes, pid).Verified? ==>
                Marker(p.b.processes, pid) == Some(OwnerOf(p.b.processes, pid).identity.startMarker)
    {
      OwnerOfPid(p.b.processes, pid);
    }
  }

  lemma PublishedIdentity(row: NativeRow, processes: seq<(nat, ProcessRead)>, raced: bool, x: Socket)
    requires PublishedAs(row, processes, raced, x)
    ensures row.socket.id == SocketId(x.endpoint, x.state, x.token)
  {
  }

  lemma AggregatesSpareAlike(g: Gap, h: Gap, port: nat, pid: nat, named: set<Endpoint>)
    requires SameAggregate(h, g)
    ensures SparesPort(h, port) == SparesPort(g, port)
    ensures SparesPid(h, pid, named) == SparesPid(g, pid, named)
  {
  }

  /** Nothing raised in either raw pass is missing from a snapshot that omitted nothing. */
  lemma RawGapsPublished(p: Provenance, limits: ObservationLimits, s: Snapshot)
    requires Backs(p, limits, s) && s.omittedGaps == 0
    ensures p.a.omittedGaps == 0 && p.b.omittedGaps == 0
    ensures forall g | g in p.a.gaps || g in p.b.gaps :: Covered(g, Elements(s.gaps))
  {
    hide EntriesOf;
    hide PublishedAs;
    hide MergedRow;
    hide SameAggregate;
    hide StrictlySorted;
    hide SocketGaps;
    hide Flatten;
    var all := AllGaps(p.merged, p.instability, p.processGaps);
    assert Retained(all, limits.evidenceGaps) == all;
    assert p.dropped == [];
    assert Elements(p.merged.gaps) <= Elements(all);
    forall g | g in p.a.gaps || g in p.b.gaps ensures Covered(g, Elements(s.gaps)) {
      assert Covered(g, Elements(p.merged.gaps));
      CoverGrows(g, Elements(p.merged.gaps), Elements(s.gaps));
    }
  }

  lemma CoverGrows(g: Gap, few: set<Gap>, many: set<Gap>)
    requires few <= many && Covered(g, few)
    ensures Covered(g, many)
  {
  }

  /** When every published gap spares the port, so did every raw gap of either pass. */
  lemma RawGapsSparePort(p: Provenance, limits: ObservationLimits, s: Snapshot, port: nat)
    requires Backs(p, limits, s) && s.omittedGaps == 0
    requires forall g | g in s.gaps :: SparesPort(g, port)
    ensures p.a.omittedGaps == 0 && p.b.omittedGaps == 0
    ensures forall g | g in p.a.gaps || g in p.b.gaps :: SparesPort(g, port)
  {
    hide Backs;
    hide SparesPort;
    hide SameAggregate;
    RawGapsPublished(p, limits, s);
    forall g | g in p.a.gaps || g in p.b.gaps ensures SparesPort(g, port) {
      assert Covered(g, Elements(s.gaps));
      if g !in s.gaps {
        var h :| h in Elements(s.gaps) && SameAggregate(h, g);
        AggregatesSpareAlike(g, h, port, 0, {});
      }
    }
  }

  lemma RawGapsSparePid(p: Provenance, limits: ObservationLimits, s: Snapshot, pid: nat, named: set<Endpoint>)
    requires Backs(p, limits, s) && s.omittedGaps == 0
    requires forall g | g in s.gaps :: SparesPid(g, pid, named)
    ensures p.a.omittedGaps == 0 && p.b.omittedGaps == 0
    ensures forall g | g in p.a.gaps || g in p.b.gaps :: SparesPid(g, pid, named)
  {
    hide Backs;
    hide SparesPid;
    hide SameAggregate;
    RawGapsPublished(p, limits, s);
    forall g | g in p.a.gaps || g in p.b.gaps ensures SparesPid(g, pid, named) {
      assert Covered(g, Elements(s.gaps));
      if g !in s.gaps {
        var h :| h in Elements(s.gaps) && SameAggregate(h, g);
        AggregatesSpareAlike(g, h, 0, pid, named);
      }
    }
  }

  /** A port kill granted on a collected snapshot rests on two agreeing reads: every
      socket holding the port was seen identically in both, with every owner tied to one process
      generation, and neither read raised a gap that could concern the port. */
  lemma GrantedPortKill(p: Provenance, limits: ObservationLimits, s: Snapshot, port: nat)
    requires Backs(p, limits, s) && Decision(s, ByPort(port)) == Granted
    ensures PassesAgree(p.a, p.b) && |p.b.rows| == |s.sockets|
    ensures forall k | 0 <= k < |s.sockets| && HoldsPort(s.sockets[k], port) ::
              FullyOwned(s.sockets[k]) && SeenTwice(p, s, k)
    ensures p.a.omittedGaps == 0 && p.b.omittedGaps == 0
    ensures forall g | g in p.a.gaps || g in p.b.gaps :: SparesPort(g, port)
  {
    hide Decision;
    hide SeenTwice;
    hide Attempt;
    PortGrantExactly(s, port);
    CollectedSnapshotMeaning(p, limits, s);
    RowsPublished(p, limits, s);
    forall k | 0 <= k < |s.sockets| && HoldsPort(s.sockets[k], port)
      ensures FullyOwned(s.sockets[k]) && SeenTwice(p, s, k)
    {
      assert s.sockets[k] in s.sockets;
      FullyOwnedSeenTwice(p, limits, s, k);
    }
    RawGapsSparePort(p, limits, s, port);
  }

  /** Every owner of a socket whose published owner set is complete was verified. */
  lemma CompleteIsOwned(p: Provenance, limits: ObservationLimits, s: Snapshot, k: nat)
    requires Backs(p, limits, s) && PassesAgree(p.a, p.b) && k < |s.sockets|
    requires s.sockets[k].ownerCompleteness == Complete && s.sockets[k].owners != []
    ensures FullyOwned(s.sockets[k])
  {
    hide Backs;
    hide PassesAgree;
    hide OwnerOf;
    hide PublishedAs;
    PublishedRow(p, limits, s, k);
    StablySettled(p, limits, s, k);
    PublishedOwner(p.merged.rows[k], p.merged.processes, IsAffected(p.instability, p.merged.rows[k]), s.sockets[k]);
  }

  /** A process kill granted on a collected snapshot rests on two agreeing reads as well: every
      socket the process holds open was seen identically in both, all its owners tied to
      one generation, and neither read raised a gap about the process or those sockets. */
  lemma GrantedPidKill(p: Provenance, limits: ObservationLimits, s: Snapshot, pid: nat)
    requires Backs(p, limits, s) && Decision(s, ByPid(pid)) == Granted
    ensures PassesAgree(p.a, p.b) && |p.b.rows| == |s.sockets|
    ensures forall k | 0 <= k < |s.sockets| && HeldBy(s.sockets[k], pid) ::
              FullyOwned(s.sockets[k]) && SeenTwice(p, s, k)
    ensures p.a.omittedGaps == 0 && p.b.omittedGaps == 0
    ensures forall g | g in p.a.gaps || g in p.b.gaps :: SparesPid(g, pid, EndpointsOf(s.sockets, pid))
  {
    hide Decision;
    hide SeenTwice;
    hide Attempt;
    hide SparesPid;
    PidGrantExactly(s, pid);
    CollectedSnapshotMeaning(p, limits, s);
    RowsPublished(p, limits, s);
    forall k | 0 <= k < |s.sockets| && HeldBy(s.sockets[k], pid)
      ensures FullyOwned(s.sockets[k]) && SeenTwice(p, s, k)
    {
      assert s.sockets[k] in s.sockets;
      CompleteIsOwned(p, limits, s, k);
      FullyOwnedSeenTwice(p, limits, s, k);
    }
    RawGapsSparePid(p, limits, s, pid, EndpointsOf(s.sockets, pid));
  }

  lemma RowsPublished(p: Provenance, limits: ObservationLimits, s: Snapshot)
    requires Backs(p, limits, s)
    ensures |p.b.rows| == |s.sockets|
  {
  }

  /** Two killable sockets of one grant never disagree about a process: a PID on the port
      names a single start marker. */
  lemma GrantedOwnersUnique(p: Provenance, limits: ObservationLimits, s: Snapshot, port: nat, x: Socket, y: Socket, a: Owner, b: Owner)
    requires Backs(p, limits, s) && Decision(s, ByPort(port)) == Granted
    requires x in s.sockets && HoldsPort(x, port) && a in x.owners
    requires y in s.sockets && HoldsPort(y, port) && b in y.owners
    requires OwnerPid(a) == OwnerPid(b)
    ensures a == b
  {
    hide Decision;
    hide Marker;
    hide Backs;
    GrantedPortKill(p, limits, s, port);
    var i :| 0 <= i < |s.sockets| && s.sockets[i] == x;
    var j :| 0 <= j < |s.sockets| && s.sockets[j] == y;
    assert SeenTwice(p, s, i) && SeenTwice(p, s, j);
  }

  // ----- The projected rows

  lemma {:induction false} RowMember(sockets: seq<Socket>, pid: Option<nat>, port: Option<nat>, d: Descriptor)
    ensures d in Rows(sockets, pid, port) <==>
              d.socket < |sockets| && d in SocketRows(sockets[d.socket], d.socket, pid, port)
  {
    hide SocketRows;
    if sockets != [] {
      RowMember(sockets[..|sockets|-1], pid, port, d);
      SocketRowIndex(sockets[|sockets|-1], |sockets| - 1, pid, port, d);
    }
  }

  lemma {:induction false} OwnerRowMember(owners: seq<Owner>, index: nat, pid: Option<nat>, from: nat, d: Descriptor)
    requires from <= |owners|
    ensures d in OwnerRows(owners, index, pid, from) <==>
              && d.socket == index && d.owner.Some? && from <= d.owner.value < |owners|
              && (pid.None? || OwnerPid(owners[d.owner.value]) == pid.value)
    decreases |owners| - from
  {
    if from < |owners| {
      OwnerRowMember(owners, index, pid, from + 1, d);
    }
  }

  lemma SocketRowIndex(x: Socket, index: nat, pid: Option<nat>, port: Option<nat>, d: Descriptor)
    ensures d in SocketRows(x, index, pid, port) ==> d.socket == index
  {
    OwnerRowMember(x.owners, index, pid, 0, d);
  }

  /** A projected row that names a verified owner. */
  predicate RowVerified(s: Snapshot, d: Descriptor) {
    && d.socket < |s.sockets| && d.owner.Some? && d.owner.value < |s.sockets[d.socket].owners|
    && s.sockets[d.socket].owners[d.owner.value].Verified?
  }

  /** Whatever the source: the projection lists every open socket, the gate judges only TCP
      listeners and bound UDP sockets. After a grant every row names a verified owner exactly when the open
      sockets the gate did not judge have only verified owners too. */
  lemma GrantedRowsVerified(s: Snapshot, port: nat)
    requires Decision(s, ByPort(port)) == Granted
    ensures (forall d | d in Rows(s.sockets, None, Some(port)) :: RowVerified(s, d)) <==>
              (forall x | x in s.sockets && x.endpoint.port == port && !Holds(x) && OpenSocket(x) ::
                 x.owners != [] && forall o | o in x.owners :: o.Verified?)
  {
    hide Decision;
    hide Rows;
    hide SocketRows;
    PortGrantExactly(s, port);
    forall k | 0 <= k < |s.sockets| ensures
      (forall d | d in SocketRows(s.sockets[k], k, None, Some(port)) :: RowVerified(s, d)) <==>
      (s.sockets[k].endpoint.port == port && OpenSocket(s.sockets[k]) ==>
         s.sockets[k].owners != [] && forall o | o in s.sockets[k].owners :: o.Verified?)
    {
      SocketRowsVerified(s, port, k);
    }
    forall d | d in Rows(s.sockets, None, Some(port))
      ensures d.socket < |s.sockets| && d in SocketRows(s.sockets[d.socket], d.socket, None, Some(port)) {
      RowMember(s.sockets, None, Some(port), d);
    }
    forall k, d | 0 <= k < |s.sockets| && d in SocketRows(s.sockets[k], k, None, Some(port))
      ensures d in Rows(s.sockets, None, Some(port)) {
      SocketRowIndex(s.sockets[k], k, None, Some(port), d);
      RowMember(s.sockets, None, Some(port), d);
    }
    assert forall k | 0 <= k < |s.sockets| :: s.sockets[k] in s.sockets;
  }

  lemma SocketRowsVerified(s: Snapshot, port: nat, k: nat)
    requires k < |s.sockets|
    ensures (forall d | d in SocketRows(s.sockets[k], k, None, Some(port)) :: RowVerified(s, d)) <==>
            (s.sockets[k].endpoint.port == port && OpenSocket(s.sockets[k]) ==>
               s.sockets[k].owners != [] && forall o | o in s.sockets[k].owners :: o.Verified?)
  {
    var x := s.sockets[k];
    if x.endpoint.port == port && OpenSocket(x) {
      if x.owners == [] {
        assert Descriptor(k, None) in SocketRows(x, k, None, Some(port));
      } else {
        forall d ensures d in OwnerRows(x.owners, k, None, 0) <==>
                           d.socket == k && d.owner.Some? && d.owner.value < |x.owners| {
          OwnerRowMember(x.owners, k, None, 0, d);
        }
        forall i | 0 <= i < |x.owners|
          ensures Descriptor(k, Some(i)) in SocketRows(x, k, None, Some(port))
          ensures RowVerified(s, Descriptor(k, Some(i))) <==> x.owners[i].Verified? {}
        assert forall d | d in SocketRows(x, k, None, Some(port)) :: d == Descriptor(k, Some(d.owner.value));
      }
    }
  }

  // ----- What a kill is handed

  lemma OpenSocketHeld(p: Provenance, limits: ObservationLimits, s: Snapshot, k: nat)
    requires Backs(p, limits, s) && BuiltStates(p.nativeB) && k < |s.sockets|
    ensures OpenSocket(s.sockets[k]) ==> Holds(s.sockets[k])
  {
    hide Backs;
    hide PublishedAs;
    hide Collected;
    hide BuiltStates;
    BackedByRead(p, limits, s);
    PublishedRow(p, limits, s, k);
    BuiltRow(p.nativeB, p.b, p.b.rows[k]);
  }

  /** With tables as the adapters build them, every open socket is one the gate judges. */
  lemma OpenIsHeld(p: Provenance, limits: ObservationLimits, s: Snapshot)
    requires Backs(p, limits, s) && BuiltStates(p.nativeB)
    ensures forall x | x in s.sockets && OpenSocket(x) :: Holds(x)
  {
    hide Backs;
    hide BuiltStates;
    forall x | x in s.sockets && OpenSocket(x) ensures Holds(x) {
      var k :| 0 <= k < |s.sockets| && s.sockets[k] == x;
      OpenSocketHeld(p, limits, s, k);
    }
  }

  lemma BackedByRead(p: Provenance, limits: ObservationLimits, s: Snapshot)
    requires Backs(p, limits, s)
    ensures Collected(p.nativeB, p.b)
  {
    hide Attempt;
    hide WithinLimits;
    hide Collected;
  }

  lemma BuiltRow(native: NativeRead, pass: CollectedPass, row: NativeRow)
    requires Collected(native, pass) && BuiltStates(native) && row in pass.rows
    ensures BuiltState(row.socket.id)
  {
    hide WellFormed;
    var canonical := Map(SortPids, native.rows);
    assert row in multiset(canonical);
    var i :| 0 <= i < |canonical| && canonical[i] == row;
    assert native.rows[i] in native.rows;
  }

  /** A projected row whose owner both reads tie to the same process generation. */
  ghost predicate RowSeenTwice(p: Provenance, s: Snapshot, d: Descriptor) {
    && RowVerified(s, d)
    && var owner := s.sockets[d.socket].owners[d.owner.value].identity;
       Marker(p.a.processes, owner.pid) == Marker(p.b.processes, owner.pid) == Some(owner.startMarker)
  }

  lemma OwnerSeenTwice(p: Provenance, s: Snapshot, d: Descriptor)
    requires d.socket < |s.sockets| && |p.b.rows| == |s.sockets|
    requires FullyOwned(s.sockets[d.socket]) && SeenTwice(p, s, d.socket)
    requires d.owner.Some? && d.owner.value < |s.sockets[d.socket].owners|
    ensures RowSeenTwice(p, s, d)
  {
    hide PidBag;
    hide Group;
    hide Marker;
    assert s.sockets[d.socket].owners[d.owner.value] in s.sockets[d.socket].owners;
  }

  /** A granted port kill on a collected snapshot: every open socket on the port has a nonempty,
      fully verified, complete owner set seen identically by both reads, and every row handed
      to the kill names an owner both reads tie to the same process generation. */
  lemma GrantedPortHeld(p: Provenance, limits: ObservationLimits, s: Snapshot, port: nat)
    requires Backs(p, limits, s) && BuiltStates(p.nativeB) && Decision(s, ByPort(port)) == Granted
    ensures |p.b.rows| == |s.sockets|
    ensures forall k | 0 <= k < |s.sockets| && OpenSocket(s.sockets[k]) && s.sockets[k].endpoint.port == port ::
              FullyOwned(s.sockets[k]) && SeenTwice(p, s, k)
    ensures forall d | d in Rows(s.sockets, None, Some(port)) :: RowSeenTwice(p, s, d)
  {
    hide Decision;
    hide Backs;
    hide SeenTwice;
    hide RowSeenTwice;
    GrantedPortKill(p, limits, s, port);
    OpenIsHeld(p, limits, s);
    assert forall k | 0 <= k < |s.sockets| :: s.sockets[k] in s.sockets;
    forall d | d in Rows(s.sockets, None, Some(port)) ensures RowSeenTwice(p, s, d) {
      RowMember(s.sockets, None, Some(port), d);
      RowOwner(s.sockets[d.socket], d.socket, None, Some(port), d);
      OwnerSeenTwice(p, s, d);
    }
  }

  /** A granted process kill on a collected snapshot: every row handed to the kill is the
      process itself, in one generation both reads agree on. */
  lemma GrantedPidHeld(p: Provenance, limits: ObservationLimits, s: Snapshot, pid: nat)
    requires Backs(p, limits, s) && BuiltStates(p.nativeB) && Decision(s, ByPid(pid)) == Granted
    ensures forall d | d in Rows(s.sockets, Some(pid), None) ::
              RowSeenTwice(p, s, d) && s.sockets[d.socket].owners[d.owner.value].identity.pid == pid
  {
    hide Decision;
    hide Backs;
    hide SeenTwice;
    hide Marker;
    GrantedPidKill(p, limits, s, pid);
    OpenIsHeld(p, limits, s);
    forall d | d in Rows(s.sockets, Some(pid), None)
      ensures RowSeenTwice(p, s, d) && s.sockets[d.socket].owners[d.owner.value].identity.pid == pid
    {
      RowMember(s.sockets, Some(pid), None, d);
      RowOwner(s.sockets[d.socket], d.socket, Some(pid), None, d);
      var x := s.sockets[d.socket];
      assert x in s.sockets && x.owners[d.owner.value] in x.owners;
      OwnerSeenTwice(p, s, d);
    }
  }

  /** Where a projected row comes from. */
  lemma RowOwner(x: Socket, index: nat, pid: Option<nat>, port: Option<nat>, d: Descriptor)
    requires d in SocketRows(x, index, pid, port)
    ensures OpenSocket(x) && (port.Some? ==> x.endpoint.port == port.value)
    ensures x.owners != [] ==>
              && d.owner.Some? && d.owner.value < |x.owners|
              && (pid.Some? ==> OwnerPid(x.owners[d.owner.value]) == pid.value)
    ensures x.owners == [] ==> pid.None?
  {
    OwnerRowMember(x.owners, index, pid, 0, d);
  }

  // ----- The rows, and what the source said about them

  /** The projection lists exactly the open sockets of the port or the process: one row for each
      owner edge asked about, and one for an ownerless socket of a port. */
  lemma ProjectedExactly(sockets: seq<Socket>, pid: Option<nat>, port: Option<nat>, d: Descriptor)
    ensures d in Rows(sockets, pid, port) <==>
      && d.socket < |sockets|
      && var x := sockets[d.socket];
         && OpenSocket(x) && (port.Some? ==> x.endpoint.port == port.value)
         && if d.owner.None? then x.owners == [] && pid.None?
            else d.owner.value < |x.owners| && (pid.Some? ==> EdgeTo(x.owners[d.owner.value], pid.value))
  {
    RowMember(sockets, pid, port, d);
    if d.socket < |sockets| {
      OwnerRowMember(sockets[d.socket].owners, d.socket, pid, 0, d);
    }
    hide Rows;
    hide OwnerRows;
  }

  ghost predicate RowBefore(l: Descriptor, r: Descriptor) {
    l.socket < r.socket || (l.socket == r.socket && l.owner.Some? && r.owner.Some? && l.owner.value < r.owner.value)
  }

  ghost predicate RowsAscend(rows: seq<Descriptor>) {
    forall i, j | 0 <= i < j < |rows| :: RowBefore(rows[i], rows[j])
  }

  lemma {:induction false} OwnerRowsAscend(owners: seq<Owner>, index: nat, pid: Option<nat>, from: nat)
    requires from <= |owners|
    ensures RowsAscend(OwnerRows(owners, index, pid, from))
    decreases |owners| - from
  {
    if from < |owners| {
      OwnerRowsAscend(owners, index, pid, from + 1);
      var rest := OwnerRows(owners, index, pid, from + 1);
      forall d | d in rest ensures RowBefore(Descriptor(index, Some(from)), d) {
        OwnerRowMember(owners, index, pid, from + 1, d);
      }
    }
  }

  /** ... each once, in snapshot order. */
  lemma {:induction false} ProjectedInOrder(sockets: seq<Socket>, pid: Option<nat>, port: Option<nat>)
    ensures RowsAscend(Rows(sockets, pid, port))
  {
    if sockets != [] {
      var init, n := sockets[..|sockets|-1], |sockets| - 1;
      ProjectedInOrder(init, pid, port);
      OwnerRowsAscend(sockets[n].owners, n, pid, 0);
      var before, last := Rows(init, pid, port), SocketRows(sockets[n], n, pid, port);
      forall d | d in before ensures d.socket < n { RowMember(init, pid, port, d); }
      forall d | d in last ensures d.socket == n { SocketRowIndex(sockets[n], n, pid, port, d); }
      hide SocketRows;
      assert forall i | 0 <= i < |before| :: before[i] in before;
      assert forall i | 0 <= i < |last| :: last[i] in last;
    }
  }

  /** In this call, asked about these processes, the source verified the owner's generation. */
  ghost predicate SourceSaw(source: ObservationSource, call: nat, pids: seq<nat>, profile: Profile, budget: nat,
                            owner: ProcessIdentity) {
    var answer := source.readTable(call, pids, profile, budget);
    && answer.Ok?
    && exists i | 0 <= i < |answer.value| ::
         answer.value[i].0 == owner.pid && answer.value[i].1.ReadVerified? && answer.value[i].1.marker == owner.startMarker
  }

  /** The row names an owner whose generation the source itself gave in two separate calls. */
  ghost predicate RowFromSource(source: ObservationSource, limits: ObservationLimits, p: Provenance, s: Snapshot, d: Descriptor) {
    && RowVerified(s, d)
    && var owner := s.sockets[d.socket].owners[d.owner.value].identity;
       && SourceSaw(source, p.call + 2, EntryPids(p.a.processes), IdentityOnly, limits.optionalMetadataBytes, owner)
       && SourceSaw(source, p.call + 4, EntryPids(p.b.processes), Display, limits.optionalMetadataBytes, owner)
  }

  lemma MarkerFromSource(source: ObservationSource, call: nat, profile: Profile, budget: nat, read: NativeRead,
                         pass: CollectedPass, owner: ProcessIdentity)
    requires source.Gave(call, profile, budget, read, pass) && Marker(pass.processes, owner.pid) == Some(owner.startMarker)
    ensures SourceSaw(source, call + 1, EntryPids(pass.processes), profile, budget, owner)
  {
    var r := Lookup(pass.processes, owner.pid);
    hide Lookup;
    var i :| 0 <= i < |pass.processes| && pass.processes[i] == (owner.pid, r.value);
  }

  lemma RowBySource(source: ObservationSource, limits: ObservationLimits, p: Provenance, s: Snapshot, d: Descriptor)
    requires GivenBy(source, Display, limits, p, s) && RowSeenTwice(p, s, d)
    ensures RowFromSource(source, limits, p, s, d)
  {
    hide SourceSaw;
    hide Marker;
    var owner := s.sockets[d.socket].owners[d.owner.value].identity;
    MarkerFromSource(source, p.call + 1, IdentityOnly, limits.optionalMetadataBytes, p.nativeA, p.a, owner);
    MarkerFromSource(source, p.call + 3, Display, limits.optionalMetadataBytes, p.nativeB, p.b, owner);
  }

  // ----- Collecting and killing in one call

  datatype KillFailure = Uncollected(cause: ObservationError) | Refused(refusal: KillError)

  /** The snapshot is one the source's answers stand behind. */
  ghost predicate Collects(source: ObservationSource, limits: ObservationLimits, proof: Option<Provenance>, s: Option<Snapshot>) {
    && proof.Some? && s.Some?
    && GivenBy(source, Display, limits, proof.value, s.value) && Backs(proof.value, limits, s.value)
  }

  /** `collect_kill_ports`: collect, judge, project. Rows come back only from a snapshot two
      agreeing reads of the source stand behind; a failure is the collection's own, or the
      gate's answer about such a snapshot. */
  method CollectKillPorts(source: ObservationSource, limits: ObservationLimits, pid: Option<nat>, port: Option<nat>)
    returns (r: Result<seq<Descriptor>, KillFailure>, ghost proof: Option<Provenance>, ghost s: Option<Snapshot>,
             ghost blame: Blame)
    requires source.Honest()
    modifies source
    ensures r.Ok? ==>
              && (pid.Some? <==> port.None?)
              && Collects(source, limits, proof, s) && PassesAgree(proof.value.a, proof.value.b)
              && r.value == Rows(s.value.sockets, pid, port)
              && (source.Adapted() ==> forall d | d in r.value :: RowFromSource(source, limits, proof.value, s.value, d))
    ensures r.Err? && r.error.Uncollected? ==> Blamed(source, limits, blame, r.error.cause)
    ensures r.Err? && r.error.Refused? ==>
              && Collects(source, limits, proof, s)
              && (pid.Some? == port.Some? ==> r.error.refusal == MalformedRequest)
              && (pid.Some? && port.None? ==>
                    Answers(s.value, ByPid(pid.value), Rows(s.value.sockets, pid, port), Err(r.error.refusal)))
              && (pid.None? && port.Some? ==>
                    Answers(s.value, ByPort(port.value), Rows(s.value.sockets, pid, port), Err(r.error.refusal)))
  {
    hide Backs;
    hide GivenBy;
    hide Blamed;
    hide Decision;
    hide Rows;
    hide RowSeenTwice;
    hide RowFromSource;
    hide PassesAgree;
    proof, s := None, None;
    var collected: Result<Snapshot, ObservationError>;
    ghost var attempts: nat, retried: Option<(CollectedPass, CollectedPass)>;
    collected, proof, blame, attempts, retried := CollectConsistent(source, Display, limits);
    if collected.Err? {
      r := Err(Uncollected(collected.error));
      return;
    }
    s := Some(collected.value);
    var rows := KillPortsFromSnapshot(collected.value, pid, port);
    if rows.Err? {
      r := Err(Refused(rows.error));
      return;
    }
    r := Ok(rows.value);
    GrantBySource(source, limits, proof.value, s.value, pid, port, rows.value);
  }

  lemma GrantBySource(source: ObservationSource, limits: ObservationLimits, p: Provenance, s: Snapshot,
                      pid: Option<nat>, port: Option<nat>, rows: seq<Descriptor>)
    requires GivenBy(source, Display, limits, p, s) && Backs(p, limits, s) && rows == Rows(s.sockets, pid, port)
    requires pid.Some? <==> port.None?
    requires pid.Some? ==> Decision(s, ByPid(pid.value)) == Granted
    requires port.Some? ==> Decision(s, ByPort(port.value)) == Granted
    ensures PassesAgree(p.a, p.b)
    ensures source.Adapted() ==> forall d | d in rows :: RowFromSource(source, limits, p, s, d)
  {
    hide Backs;
    hide Decision;
    hide Rows;
    hide RowSeenTwice;
    hide RowFromSource;
    hide PassesAgree;
    if port.Some? {
      GrantedPortKill(p, limits, s, port.value);
    } else {
      GrantedPidKill(p, limits, s, pid.value);
    }
    if source.Adapted() {
      assert BuiltStates(p.nativeB);
      if port.Some? {
        GrantedPortHeld(p, limits, s, port.value);
      } else {
        GrantedPidHeld(p, limits, s, pid.value);
      }
      forall d | d in rows ensures RowFromSource(source, limits, p, s, d) {
        RowBySource(source, limits, p, s, d);
      }
    }
  }

  // ----- An owner that could not be verified

  /** An owner the second pass could not verify refuses every kill of its port, and the refusal
      names a permission problem when that was the reason, unless something raced. */
  lemma UnverifiedOwnerRefused(p: Provenance, limits: ObservationLimits, s: Snapshot, port: nat, k: nat, pid: nat,
                               reason: UnverifiedReason)
    requires Backs(p, limits, s) && k < |s.sockets| && k < |p.b.rows| && HoldsPort(s.sockets[k], port)
    requires pid in p.b.rows[k].ownerPids && (pid, ReadUnverified(reason)) in p.b.processes
    ensures UnverifiedPid(pid, reason) in s.sockets[k].owners
    ensures Decision(s, ByPort(port)) != Granted
    ensures reason == PermissionDenied ==> Decision(s, ByPort(port)) == DeniedEvidence || Decision(s, ByPort(port)) == RacedEvidence
  {
    hide Decision;
    UnverifiedEdge(p, limits, s, k, pid, reason);
    hide Backs;
    PortGrantExactly(s, port);
    PortRefusalExactly(s, port);
    assert s.sockets[k] in s.sockets;
    assert reason == PermissionDenied ==> DeniedOwner(s.sockets[k]);
  }

  lemma UnverifiedEdge(p: Provenance, limits: ObservationLimits, s: Snapshot, k: nat, pid: nat, reason: UnverifiedReason)
    requires Backs(p, limits, s) && k < |s.sockets| && k < |p.b.rows|
    requires pid in p.b.rows[k].ownerPids && (pid, ReadUnverified(reason)) in p.b.processes
    ensures UnverifiedPid(pid, reason) in s.sockets[k].owners
  {
    hide PublishedAs;
    PublishedRow(p, limits, s, k);
    BackedWellFormed(p, limits, s);
    hide Backs;
    UniqueRead(p.b.processes, (pid, ReadUnverified(reason)));
    PublishedOwner(p.merged.rows[k], p.merged.processes, IsAffected(p.instability, p.merged.rows[k]), s.sockets[k]);
  }

  lemma BackedWellFormed(p: Provenance, limits: ObservationLimits, s: Snapshot)
    requires Backs(p, limits, s)
    ensures StrictlyAscending(EntryPids(p.b.processes))
  {
    hide Attempt;
    hide WithinLimits;
  }

  /** Why the adapters' rule matters: a source that reported a bound TCP socket without an owner
      would see it handed to the kill unjudged. No adapter reports one. */
  lemma UncheckedRowExample()
    ensures var e := Endpoint(Tcp, V4(0), 80, None);
            var s := Snapshot(0, 0, SnapshotPartial, Complete, [], 0,
                              [Socket(e, Bound, None, [], Partial([OwnerAttributionIncomplete]), None, None)], map[]);
            Decision(s, ByPort(80)) == Granted && Rows(s.sockets, None, Some(80)) == [Descriptor(0, None)]
  {
    var e := Endpoint(Tcp, V4(0), 80, None);
    var x := Socket(e, Bound, None, [], Partial([OwnerAttributionIncomplete]), None, None);
    var s := Snapshot(0, 0, SnapshotPartial, Complete, [], 0, [x], map[]);
    PortGrantExactly(s, 80);
    assert s.sockets[..0] == [];
  }
}

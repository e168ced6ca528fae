/** `compare_passes` of `src/observation.rs`: a grouped merge of two canonical passes that
    decides whether the host stood still between them. */
module PassComparison {
  import opened Orders
  import opened Observation
  import opened NativePass

  function HasId(id: SocketId): NativeRow -> bool {
    (r: NativeRow) => r.socket.id == id
  }

  /** All rows of one socket. */
  function Group(rows: seq<NativeRow>, id: SocketId): seq<NativeRow> {
    Filter(HasId(id), rows)
  }

  function PidBag(rows: seq<NativeRow>): multiset<nat> {
    if rows == [] then multiset{} else multiset(rows[0].ownerPids) + PidBag(rows[1..])
  }

  function RowIds(rows: seq<NativeRow>): set<SocketId> {
    set r | r in rows :: r.socket.id
  }

  /** Sockets whose multiplicity changed. */
  function CountDiffers(a: seq<NativeRow>, b: seq<NativeRow>): set<SocketId> {
    set id | id in RowIds(a) + RowIds(b) && |Group(a, id)| != |Group(b, id)|
  }

  /** Sockets whose multiset of owner PIDs changed. */
  function PidsDiffer(a: seq<NativeRow>, b: seq<NativeRow>): set<SocketId> {
    set id | id in RowIds(a) + RowIds(b) && PidBag(Group(a, id)) != PidBag(Group(b, id))
  }

  predicate MarkersDiffer(a: CollectedPass, b: CollectedPass, r: NativeRow) {
    exists pid | pid in r.ownerPids :: Marker(a.processes, pid) != Marker(b.processes, pid)
  }

  /** Sockets one of whose owners changed generation, or lost its identity, between the passes. */
  function MarkerMoved(a: CollectedPass, b: CollectedPass): set<SocketId> {
    set r | r in b.rows && MarkersDiffer(a, b, r) :: r.socket.id
  }

  /** Both passes read the same PIDs with the same start markers. */
  ghost predicate SameIdentities(a: CollectedPass, b: CollectedPass) {
    && EntryPids(a.processes) == EntryPids(b.processes)
    && forall pid | pid in EntryPids(a.processes) :: Marker(a.processes, pid) == Marker(b.processes, pid)
  }

  datatype Instability = Instability(socketSet: bool, ownership: bool, affected: set<SocketId>) {
    predicate IsStable() {
      !socketSet && !ownership
    }
  }

  // ----- Groups

  lemma {:induction false} PidBagAppend(a: seq<NativeRow>, b: seq<NativeRow>)
    ensures PidBag(a + b) == PidBag(a) + PidBag(b)
  {
    if a == [] {
      assert a + b == b;
    } else {
      assert (a + b)[0] == a[0] && (a + b)[1..] == a[1..] + b;
      PidBagAppend(a[1..], b);
    }
  }

  lemma GroupOfNewcomers(a: seq<NativeRow>, ga: seq<NativeRow>, g: SocketId, id: SocketId)
    requires g !in RowIds(a)
    requires forall r | r in ga :: r.socket.id == g
    ensures Group(a + ga, id) == if id == g then ga else Group(a, id)
    ensures RowIds(a + ga) == RowIds(a) + (if ga == [] then {} else {g})
  {
    FilterAppend(HasId(id), a, ga);
    if id == g {
      forall r | r in a ensures r.socket.id != g { assert r.socket.id in RowIds(a); }
      FilterNone(HasId(id), a);
      FilterAll(HasId(id), ga);
    } else {
      FilterNone(HasId(id), ga);
    }
    if ga != [] {
      assert ga[0] in a + ga;
    }
    forall x | x in RowIds(a + ga) ensures x in RowIds(a) + (if ga == [] then {} else {g}) {
      var r :| r in a + ga && r.socket.id == x;
    }
    forall x | x in RowIds(a) ensures x in RowIds(a + ga) {
      var r :| r in a && r.socket.id == x;
      assert r in a + ga;
    }
  }

  /** One merge step over a group seen for the first time. */
  lemma GroupStep(a: seq<NativeRow>, ga: seq<NativeRow>, b: seq<NativeRow>, gb: seq<NativeRow>, g: SocketId)
    requires g !in RowIds(a) && g !in RowIds(b) && (ga != [] || gb != [])
    requires forall r | r in ga :: r.socket.id == g
    requires forall r | r in gb :: r.socket.id == g
    ensures CountDiffers(a + ga, b + gb) == CountDiffers(a, b) + (if |ga| != |gb| then {g} else {})
    ensures PidsDiffer(a + ga, b + gb) == PidsDiffer(a, b) + (if PidBag(ga) != PidBag(gb) then {g} else {})
  {
    hide Group;
    hide PidBag;
    hide RowIds;
    forall id
      ensures Group(a + ga, id) == if id == g then ga else Group(a, id)
      ensures Group(b + gb, id) == if id == g then gb else Group(b, id)
      ensures id in RowIds(a + ga) + RowIds(b + gb) <==> id in RowIds(a) + RowIds(b) || id == g
    {
      GroupOfNewcomers(a, ga, g, id);
      GroupOfNewcomers(b, gb, g, id);
    }
    forall id ensures id in CountDiffers(a + ga, b + gb) <==>
                        id in CountDiffers(a, b) + (if |ga| != |gb| then {g} else {}) {
    }
    forall id ensures id in PidsDiffer(a + ga, b + gb) <==>
                        id in PidsDiffer(a, b) + (if PidBag(ga) != PidBag(gb) then {g} else {}) {
    }
  }

  /** `socket_group_end` */
  method SocketGroupEnd(rows: seq<NativeRow>, start: nat) returns (end: nat)
    requires start < |rows| && GroupedRows(rows)
    ensures start < end <= |rows|
    ensures GroupAt(rows[start].socket.id, rows, start, end)
  {
    hide CompareId;
    end := start + 1;
    while end < |rows| && rows[end].socket.id == rows[start].socket.id
      invariant start < end <= |rows|
      invariant forall i | start <= i < end :: rows[i].socket.id == rows[start].socket.id
    {
      end := end + 1;
    }
    forall i | end <= i < |rows| ensures CompareId(rows[start].socket.id, rows[i].socket.id) == Less {
      IdSeparates(rows[start].socket.id, rows[end].socket.id);
      IdLawfulAt(rows[start].socket.id, rows[end].socket.id, rows[i].socket.id);
      IdLawfulAt(rows[end].socket.id, rows[i].socket.id, rows[i].socket.id);
    }
  }

  /** `group_owner_pids`: the sorted PIDs of a group, which compare equal exactly when the
      multisets do. */
  method GroupOwnerPids(rows: seq<NativeRow>) returns (pids: seq<nat>)
    ensures multiset(pids) == PidBag(rows) && Sorted(CompareNat, pids)
  {
    pids := [];
    for i := 0 to |rows|
      invariant multiset(pids) == PidBag(rows[..i])
    {
      assert rows[..i+1] == rows[..i] + [rows[i]];
      PidBagAppend(rows[..i], [rows[i]]);
      assert PidBag([rows[i]]) == multiset(rows[i].ownerPids);
      pids := pids + rows[i].ownerPids;
    }
    assert rows[..|rows|] == rows;
    PidSeqsLawful();
    SortSorts(CompareNat, pids);
    pids := Sort(CompareNat, pids);
  }

  method GroupHasOwners(rows: seq<NativeRow>) returns (some: bool)
    ensures some <==> PidBag(rows) != multiset{}
  {
    some := false;
    for i := 0 to |rows|
      invariant some <==> PidBag(rows[..i]) != multiset{}
    {
      assert rows[..i+1] == rows[..i] + [rows[i]];
      PidBagAppend(rows[..i], [rows[i]]);
      assert PidBag([rows[i]]) == multiset(rows[i].ownerPids);
      if rows[i].ownerPids != [] {
        assert rows[i].ownerPids[0] in multiset(rows[i].ownerPids);
        some := true;
      }
    }
    assert rows[..|rows|] == rows;
  }

  method IdentitiesEqual(a: CollectedPass, b: CollectedPass) returns (same: bool)
    requires WellFormed(a) && WellFormed(b)
    ensures same <==> SameIdentities(a, b)
  {
    hide Marker;
    ghost var pa, pb := EntryPids(a.processes), EntryPids(b.processes);
    if |a.processes| != |b.processes| {
      return false;
    }
    for i := 0 to |a.processes|
      invariant pa[..i] == pb[..i]
      invariant forall k | 0 <= k < i :: Marker(a.processes, pa[k]) == Marker(b.processes, pa[k])
    {
      var pid := a.processes[i].0;
      assert pa[i] == pid && pb[i] == b.processes[i].0;
      if pid != b.processes[i].0 || Marker(a.processes, pid) != Marker(b.processes, pid) {
        assert pid in pa;
        return false;
      }
    }
    assert pa[..|pa|] == pa && pb[..|pb|] == pb;
    return true;
  }

  // ----- The comparison

  /** Every row still to be merged comes after every row merged so far. */
  ghost predicate Separated(a: seq<NativeRow>, i: nat, b: seq<NativeRow>, j: nat)
    requires i <= |a| && j <= |b|
  {
    && (forall x, y | 0 <= x < i && i <= y < |a| :: CompareId(a[x].socket.id, a[y].socket.id) == Less)
    && (forall x, y | 0 <= x < i && j <= y < |b| :: CompareId(a[x].socket.id, b[y].socket.id) == Less)
    && (forall x, y | 0 <= x < j && i <= y < |a| :: CompareId(b[x].socket.id, a[y].socket.id) == Less)
    && (forall x, y | 0 <= x < j && j <= y < |b| :: CompareId(b[x].socket.id, b[y].socket.id) == Less)
  }

  /** Everything in `rows[from..]` comes strictly after `g`. */
  ghost predicate Beyond(g: SocketId, rows: seq<NativeRow>, from: nat)
    requires from <= |rows|
  {
    forall y | from <= y < |rows| :: CompareId(g, rows[y].socket.id) == Less
  }

  ghost predicate GroupAt(g: SocketId, rows: seq<NativeRow>, from: nat, to: nat) {
    from <= to <= |rows| && (forall r | r in rows[from..to] :: r.socket.id == g) && Beyond(g, rows, to)
  }

  lemma SeparatedFresh(a: seq<NativeRow>, i: nat, b: seq<NativeRow>, j: nat, g: SocketId)
    requires i <= |a| && j <= |b| && Separated(a, i, b, j)
    requires (i < |a| && a[i].socket.id == g) || (j < |b| && b[j].socket.id == g)
    ensures g !in RowIds(a[..i]) && g !in RowIds(b[..j])
  {
    hide CompareId;
    IdSeparates(g, g);
    forall r | r in a[..i] ensures r.socket.id != g { var x :| 0 <= x < i && a[x] == r; }
    forall r | r in b[..j] ensures r.socket.id != g { var x :| 0 <= x < j && b[x] == r; }
  }

  lemma SeparatedAdvance(a: seq<NativeRow>, i: nat, ie: nat, b: seq<NativeRow>, j: nat, je: nat, g: SocketId)
    requires i <= |a| && j <= |b| && Separated(a, i, b, j)
    requires GroupAt(g, a, i, ie) && GroupAt(g, b, j, je)
    ensures Separated(a, ie, b, je)
  {
    hide CompareId;
    forall x | i <= x < ie ensures a[x].socket.id == g { assert a[x] in a[i..ie]; }
    forall x | j <= x < je ensures b[x].socket.id == g { assert b[x] in b[j..je]; }
  }

  lemma SetsAdvance(a: seq<NativeRow>, i: nat, ie: nat, b: seq<NativeRow>, j: nat, je: nat, g: SocketId)
    requires i <= ie <= |a| && j <= je <= |b| && (i < ie || j < je)
    requires g !in RowIds(a[..i]) && g !in RowIds(b[..j])
    requires (forall r | r in a[i..ie] :: r.socket.id == g) && (forall r | r in b[j..je] :: r.socket.id == g)
    ensures CountDiffers(a[..ie], b[..je])
         == CountDiffers(a[..i], b[..j]) + (if ie - i != je - j then {g} else {})
    ensures PidsDiffer(a[..ie], b[..je])
         == PidsDiffer(a[..i], b[..j]) + (if PidBag(a[i..ie]) != PidBag(b[j..je]) then {g} else {})
  {
    hide *;
    GroupStep(a[..i], a[i..ie], b[..j], b[j..je], g);
    assert a[..ie] == a[..i] + a[i..ie] && b[..je] == b[..j] + b[j..je];
  }

  /** The sets the merge has accumulated so far, after one more group on either side. */
  lemma MergeAdvance(a: seq<NativeRow>, i: nat, ie: nat, b: seq<NativeRow>, j: nat, je: nat, g: SocketId)
    requires i <= |a| && j <= |b| && Separated(a, i, b, j)
    requires GroupAt(g, a, i, ie) && GroupAt(g, b, j, je) && (i < ie || j < je)
    ensures Separated(a, ie, b, je)
    ensures CountDiffers(a[..ie], b[..je])
         == CountDiffers(a[..i], b[..j]) + (if ie - i != je - j then {g} else {})
    ensures PidsDiffer(a[..ie], b[..je])
         == PidsDiffer(a[..i], b[..j]) + (if PidBag(a[i..ie]) != PidBag(b[j..je]) then {g} else {})
  {
    hide CompareId;
    hide CountDiffers;
    hide PidsDiffer;
    SeparatedAdvance(a, i, ie, b, j, je, g);
    if i < ie { assert a[i] in a[i..ie]; }
    if j < je { assert b[j] in b[j..je]; }
    SeparatedFresh(a, i, b, j, g);
    hide Separated;
    hide Beyond;
    hide RowIds;
    SetsAdvance(a, i, ie, b, j, je, g);
  }

  lemma BeyondFrom(g: SocketId, rows: seq<NativeRow>, from: nat)
    requires GroupedRows(rows) && from <= |rows|
    requires from < |rows| ==> CompareId(g, rows[from].socket.id) == Less
    ensures Beyond(g, rows, from) && GroupAt(g, rows, from, from)
  {
    hide CompareId;
    forall y | from <= y < |rows| ensures CompareId(g, rows[y].socket.id) == Less {
      IdLawfulAt(g, rows[from].socket.id, rows[y].socket.id);
      IdLawfulAt(rows[y].socket.id, rows[y].socket.id, rows[y].socket.id);
    }
  }

  method OwnersChanged(a: seq<NativeRow>, b: seq<NativeRow>) returns (changed: bool)
    ensures changed <==> PidBag(a) != PidBag(b)
  {
    var pidsA := GroupOwnerPids(a);
    var pidsB := GroupOwnerPids(b);
    changed := pidsA != pidsB;
    SortedPidsAgree(pidsA, pidsB);
  }

  /** The grouped merge over the rows alone. */
  method CompareRows(a: seq<NativeRow>, b: seq<NativeRow>)
    returns (socketSet: bool, ownerEdges: bool, affected: set<SocketId>)
    requires GroupedRows(a) && GroupedRows(b)
    ensures socketSet <==> CountDiffers(a, b) != {}
    ensures ownerEdges <==> PidsDiffer(a, b) != {}
    ensures affected == CountDiffers(a, b) + PidsDiffer(a, b)
  {
    hide CompareId;
    hide CountDiffers;
    hide PidsDiffer;
    hide Separated;
    hide PidBag;
    hide GroupAt;
    hide Beyond;
    hide GroupedRows;
    hide RowIds;
    socketSet, ownerEdges, affected := false, false, {};
    var i, j := 0, 0;
    NothingDiffers();
    while i < |a| || j < |b|
      invariant i <= |a| && j <= |b| && Separated(a, i, b, j)
      invariant socketSet <==> CountDiffers(a[..i], b[..j]) != {}
      invariant ownerEdges <==> PidsDiffer(a[..i], b[..j]) != {}
      invariant affected == CountDiffers(a[..i], b[..j]) + PidsDiffer(a[..i], b[..j])
      decreases |a| - i + |b| - j
    {
      var ordering := if i < |a| && j < |b| then CompareId(a[i].socket.id, b[j].socket.id)
                      else if i < |a| then Less else Greater;
      match ordering
      case Less =>
        var end := SocketGroupEnd(a, i);
        BeyondFrom(a[i].socket.id, b, j);
        MergeAdvance(a, i, end, b, j, j, a[i].socket.id);
        socketSet := true;
        var owners := GroupHasOwners(a[i..end]);
        ownerEdges := ownerEdges || owners;
        NoOwners(b, j);
        affected := affected + {a[i].socket.id};
        i := end;
      case Greater =>
        var end := SocketGroupEnd(b, j);
        if i < |a| { IdLawfulAt(a[i].socket.id, b[j].socket.id, a[i].socket.id); }
        BeyondFrom(b[j].socket.id, a, i);
        MergeAdvance(a, i, i, b, j, end, b[j].socket.id);
        socketSet := true;
        var owners := GroupHasOwners(b[j..end]);
        ownerEdges := ownerEdges || owners;
        NoOwners(a, i);
        affected := affected + {b[j].socket.id};
        j := end;
      case Equal =>
        IdSeparates(a[i].socket.id, b[j].socket.id);
        var endA := SocketGroupEnd(a, i);
        var endB := SocketGroupEnd(b, j);
        MergeAdvance(a, i, endA, b, j, endB, a[i].socket.id);
        var countsChanged := endA - i != endB - j;
        socketSet := socketSet || countsChanged;
        var edgesChanged := OwnersChanged(a[i..endA], b[j..endB]);
        ownerEdges := ownerEdges || edgesChanged;
        if countsChanged || edgesChanged {
          affected := affected + {a[i].socket.id};
        }
        i, j := endA, endB;
    }
    assert a[..|a|] == a && b[..|b|] == b;
  }

  lemma NothingDiffers()
    ensures forall a: seq<NativeRow>, b: seq<NativeRow> :: CountDiffers(a[..0], b[..0]) == {}
    ensures forall a: seq<NativeRow>, b: seq<NativeRow> :: PidsDiffer(a[..0], b[..0]) == {}
    ensures forall a: seq<NativeRow>, b: seq<NativeRow> :: Separated(a, 0, b, 0)
  {
  }

  lemma NoOwners(rows: seq<NativeRow>, i: nat)
    requires i <= |rows|
    ensures PidBag(rows[i..i]) == multiset{}
  {
  }

  lemma SortedPidsAgree(x: seq<nat>, y: seq<nat>)
    requires Sorted(CompareNat, x) && Sorted(CompareNat, y)
    ensures x == y <==> multiset(x) == multiset(y)
  {
    if multiset(x) == multiset(y) {
      PidSeqsLawful();
      SortedUnique(CompareNat, x, y);
    }
  }

  method ComparePasses(a: CollectedPass, b: CollectedPass) returns (r: Instability)
    requires WellFormed(a) && WellFormed(b)
    ensures r.socketSet <==> CountDiffers(a.rows, b.rows) != {}
    ensures r.ownership <==> PidsDiffer(a.rows, b.rows) != {} || !SameIdentities(a, b)
    ensures r.affected == CountDiffers(a.rows, b.rows) + PidsDiffer(a.rows, b.rows) + MarkerMoved(a, b)
  {
    hide Marker;
    hide PidsDiffer;
    hide CountDiffers;
    var socketSet, ownerEdges, affected := CompareRows(a.rows, b.rows);
    var same := IdentitiesEqual(a, b);
    if !same {
      var moved := MovedMarkers(a, b);
      affected := affected + moved;
    } else {
      NothingMoved(a, b);
    }
    hide MarkerMoved;
    hide SameIdentities;
    r := Instability(socketSet, ownerEdges || !same, affected);
  }

  /** The rows of the second pass with an owner whose start marker differs between the passes. */
  method MovedMarkers(a: CollectedPass, b: CollectedPass) returns (moved: set<SocketId>)
    ensures moved == MarkerMoved(a, b)
  {
    hide MarkersDiffer;
    moved := {};
    for i := 0 to |b.rows|
      invariant moved == set r | r in b.rows[..i] && MarkersDiffer(a, b, r) :: r.socket.id
    {
      assert b.rows[..i+1] == b.rows[..i] + [b.rows[i]];
      if MarkersDiffer(a, b, b.rows[i]) {
        moved := moved + {b.rows[i].socket.id};
      }
    }
    assert b.rows[..|b.rows|] == b.rows;
  }

  lemma NothingMoved(a: CollectedPass, b: CollectedPass)
    requires WellFormed(a) && WellFormed(b) && SameIdentities(a, b)
    ensures MarkerMoved(a, b) == {}
  {
    hide Marker;
    forall r | r in b.rows ensures !MarkersDiffer(a, b, r) {
      var i :| 0 <= i < |b.rows| && b.rows[i] == r;
      forall pid | pid in r.ownerPids ensures Marker(a.processes, pid) == Marker(b.processes, pid) {
        assert pid in RowPids(b.rows);
      }
    }
  }

  // ----- What stability means

  /** Both passes saw the same sockets, equally often, with the same owners of the same generation. */
  ghost predicate PassesAgree(a: CollectedPass, b: CollectedPass) {
    && (forall id: SocketId :: |Group(a.rows, id)| == |Group(b.rows, id)|)
    && (forall id: SocketId :: PidBag(Group(a.rows, id)) == PidBag(Group(b.rows, id)))
    && (forall pid | pid in RowPids(a.rows) + RowPids(b.rows) :: Marker(a.processes, pid) == Marker(b.processes, pid))
  }

  lemma AbsentGroup(rows: seq<NativeRow>, id: SocketId)
    requires id !in RowIds(rows)
    ensures Group(rows, id) == []
  {
    forall r | r in rows ensures r.socket.id != id { assert r.socket.id in RowIds(rows); }
    FilterNone(HasId(id), rows);
  }

  lemma {:induction false} PidBagMember(rows: seq<NativeRow>, pid: nat)
    ensures pid in PidBag(rows) <==> exists i | 0 <= i < |rows| :: pid in rows[i].ownerPids
  {
    if rows != [] {
      PidBagMember(rows[1..], pid);
      assert pid in multiset(rows[0].ownerPids) <==> pid in rows[0].ownerPids;
      assert forall i | 0 <= i < |rows| - 1 :: rows[1..][i] == rows[i+1];
      assert (exists i | 0 <= i < |rows| :: pid in rows[i].ownerPids) <==>
             (pid in rows[0].ownerPids || exists i | 0 <= i < |rows| - 1 :: pid in rows[1..][i].ownerPids);
    }
  }

  lemma SamePids(a: seq<NativeRow>, b: seq<NativeRow>)
    requires forall id: SocketId :: PidBag(Group(a, id)) == PidBag(Group(b, id))
    ensures RowPids(a) <= RowPids(b)
  {
    forall pid | pid in RowPids(a) ensures pid in RowPids(b) {
      var i :| 0 <= i < |a| && pid in a[i].ownerPids;
      var id := a[i].socket.id;
      var ga := Group(a, id);
      assert a[i] in ga;
      var k :| 0 <= k < |ga| && ga[k] == a[i];
      PidBagMember(ga, pid);
      var gb := Group(b, id);
      PidBagMember(gb, pid);
      var m :| 0 <= m < |gb| && pid in gb[m].ownerPids;
      assert gb[m] in b;
    }
  }

  /** A strictly ascending list is determined by its elements. */
  lemma {:induction false} AscendingUnique(x: seq<nat>, y: seq<nat>)
    requires StrictlyAscending(x) && StrictlyAscending(y)
    requires forall n :: n in x <==> n in y
    ensures x == y
  {
    assert x != [] ==> x[0] in y;
    assert y != [] ==> y[0] in x;
    if x != [] && y != [] {
      assert x == [x[0]] + x[1..] && y == [y[0]] + y[1..];
      forall n ensures n in x[1..] <==> n in y[1..] {
        assert n in x[1..] <==> n in x && n != x[0];
        assert n in y[1..] <==> n in y && n != y[0];
      }
      AscendingUnique(x[1..], y[1..]);
    }
  }

  /** The comparison calls an attempt stable exactly when both passes agree. */
  lemma StableExactly(a: CollectedPass, b: CollectedPass)
    requires WellFormed(a) && WellFormed(b)
    ensures CountDiffers(a.rows, b.rows) == {} && PidsDiffer(a.rows, b.rows) == {} && SameIdentities(a, b)
            <==> PassesAgree(a, b)
  {
    hide Marker;
    hide PidBag;
    hide Group;
    if CountDiffers(a.rows, b.rows) == {} && PidsDiffer(a.rows, b.rows) == {} && SameIdentities(a, b) {
      forall id: SocketId
        ensures |Group(a.rows, id)| == |Group(b.rows, id)| && PidBag(Group(a.rows, id)) == PidBag(Group(b.rows, id))
      {
        if id !in RowIds(a.rows) + RowIds(b.rows) {
          AbsentGroup(a.rows, id);
          AbsentGroup(b.rows, id);
        } else {
          assert id !in CountDiffers(a.rows, b.rows) && id !in PidsDiffer(a.rows, b.rows);
        }
      }
    }
    if PassesAgree(a, b) {
      SamePids(a.rows, b.rows);
      SamePids(b.rows, a.rows);
      AscendingUnique(EntryPids(a.processes), EntryPids(b.processes));
    }
  }

  /** A socket the comparison did not flag was seen equally in both passes, whatever else raced. */
  lemma UnaffectedAgrees(a: CollectedPass, b: CollectedPass, affected: set<SocketId>, row: NativeRow)
    requires affected == CountDiffers(a.rows, b.rows) + PidsDiffer(a.rows, b.rows) + MarkerMoved(a, b)
    requires row in b.rows && row.socket.id !in affected
    ensures |Group(a.rows, row.socket.id)| == |Group(b.rows, row.socket.id)|
    ensures PidBag(Group(a.rows, row.socket.id)) == PidBag(Group(b.rows, row.socket.id))
    ensures forall pid | pid in row.ownerPids :: Marker(a.processes, pid) == Marker(b.processes, pid)
  {
    var id := row.socket.id;
    assert id in RowIds(b.rows);
    assert id !in CountDiffers(a.rows, b.rows) && id !in PidsDiffer(a.rows, b.rows) && id !in MarkerMoved(a, b);
    assert !MarkersDiffer(a, b, row);
  }

  // ----- Canonicalizing a pass keeps what the comparison looks at

  lemma {:induction false} GroupOfSorted(rows: seq<NativeRow>, id: SocketId)
    ensures Group(Map(SortPids, rows), id) == Map(SortPids, Group(rows, id))
    ensures PidBag(Map(SortPids, rows)) == PidBag(rows)
  {
    if rows != [] {
      GroupOfSorted(rows[1..], id);
      PidSeqsLawful();
      SortSorts(CompareNat, rows[0].ownerPids);
    }
  }

  lemma {:induction false} PidBagPermutes(s: seq<NativeRow>, t: seq<NativeRow>)
    requires multiset(s) == multiset(t)
    ensures PidBag(s) == PidBag(t)
  {
    if s == [] {
      MultisetSize(s, t);
    } else {
      var i := FindHead(s, t);
      PidBagPermutes(s[1..], t[..i] + t[i+1..]);
      PidBagAppend(t[..i], t[i+1..]);
      PidBagAppend(t[..i], [s[0]] + t[i+1..]);
      PidBagAppend([s[0]], t[i+1..]);
      assert [s[0]] + s[1..] == s;
    }
  }

  /** Sorting a native read loses no socket and no owner edge. */
  lemma CanonicalGroups(native: NativeRead, p: CollectedPass, id: SocketId)
    requires Collected(native, p)
    ensures |Group(p.rows, id)| == |Group(native.rows, id)|
    ensures PidBag(Group(p.rows, id)) == PidBag(Group(native.rows, id))
  {
    var m := Map(SortPids, native.rows);
    FilterPermutes(HasId(id), p.rows, m);
    GroupOfSorted(native.rows, id);
    GroupOfSorted(Group(native.rows, id), id);
    MultisetSize(Group(p.rows, id), Group(m, id));
    PidBagPermutes(Group(p.rows, id), Group(m, id));
  }
}

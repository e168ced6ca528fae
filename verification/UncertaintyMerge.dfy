/** `merge_attempt_uncertainty` of `src/observation.rs`: the first pass's doubts are folded
    into the second, and both passes' evidence gaps share one budget. */
module UncertaintyMerge {
  import opened Orders
  import opened Observation
  import opened NativePass
  import opened PassComparison

  // ----- Owner completeness

  /** All codes, in the byte order of their names. */
  const CODES_BY_NAME: seq<GapCode> :=
    [NativeFieldUnavailable, NoncriticalEvidenceTruncated, ObservationRaced, OwnerAttributionIncomplete,
     OwnerDisappeared, OwnerPermissionDenied, ProcessIdentityUnavailable, ProcessMetadataUnavailable, ScopeExcluded]

  function SortedReasons(reasons: set<GapCode>): seq<GapCode> {
    Filter((c: GapCode) => c in reasons, CODES_BY_NAME)
  }

  lemma CodeListed(c: GapCode)
    ensures c in CODES_BY_NAME
  {
    match c {
      case NativeFieldUnavailable => assert CODES_BY_NAME[0] == c;
      case NoncriticalEvidenceTruncated => assert CODES_BY_NAME[1] == c;
      case ObservationRaced => assert CODES_BY_NAME[2] == c;
      case OwnerAttributionIncomplete => assert CODES_BY_NAME[3] == c;
      case OwnerDisappeared => assert CODES_BY_NAME[4] == c;
      case OwnerPermissionDenied => assert CODES_BY_NAME[5] == c;
      case ProcessIdentityUnavailable => assert CODES_BY_NAME[6] == c;
      case ProcessMetadataUnavailable => assert CODES_BY_NAME[7] == c;
      case ScopeExcluded => assert CODES_BY_NAME[8] == c;
    }
  }

  lemma SortedReasonsMembers(reasons: set<GapCode>)
    ensures Reasons(Partial(SortedReasons(reasons))) == reasons
    ensures reasons != {} ==> SortedReasons(reasons) != []
  {
    hide Filter;
    forall c | c in reasons ensures c in SortedReasons(reasons) {
      CodeListed(c);
    }
    if reasons != {} {
      var c :| c in reasons;
      assert c in SortedReasons(reasons);
    }
  }

  function Reasons(c: OwnerCompleteness): set<GapCode> {
    if c.Partial? then set r | r in c.reasons else {}
  }

  /** The completeness that stands for a raced flag and a set of reasons. */
  function Normal(raced: bool, reasons: set<GapCode>): OwnerCompleteness {
    if raced then Raced else if reasons == {} then Complete else Partial(SortedReasons(reasons))
  }

  /** `OwnerCompleteness::partial` */
  function MakePartial(reasons: set<GapCode>): Result<OwnerCompleteness, ObservationError> {
    if |reasons| > OWNER_COMPLETENESS_REASONS_MAX then Err(OwnerReasonLimitExceeded)
    else if reasons == {} then Ok(Complete)
    else Ok(Partial(SortedReasons(reasons)))
  }

  function MergeCompleteness(l: OwnerCompleteness, r: OwnerCompleteness): Result<OwnerCompleteness, ObservationError> {
    if l == Raced || r == Raced then Ok(Raced)
    else
      var reasons := Reasons(l) + Reasons(r);
      if reasons == {} then Ok(Complete) else MakePartial(reasons)
  }

  ghost predicate Nonempty(c: OwnerCompleteness) {
    c.Partial? ==> c.reasons != []
  }

  lemma NormalMeaning(raced: bool, reasons: set<GapCode>)
    ensures Normal(raced, reasons) == Raced <==> raced
    ensures !raced ==> Reasons(Normal(raced, reasons)) == reasons
    ensures Nonempty(Normal(raced, reasons))
    ensures Normal(raced, reasons) == Complete <==> !raced && reasons == {}
  {
    hide SortedReasons;
    SortedReasonsMembers(reasons);
  }

  /** Merging joins doubts: a race absorbs everything, reasons accumulate, and on operands
      built by `partial` only two complete operands give a complete result. */
  lemma MergeIsJoin(l: OwnerCompleteness, r: OwnerCompleteness)
    requires MergeCompleteness(l, r).Ok?
    ensures MergeCompleteness(l, r).value == Normal(l == Raced || r == Raced, Reasons(l) + Reasons(r))
    ensures Nonempty(l) && Nonempty(r) ==>
              (MergeCompleteness(l, r).value == Complete <==> l == Complete && r == Complete)
  {
    NormalMeaning(l == Raced || r == Raced, Reasons(l) + Reasons(r));
    if l.Partial? && l.reasons != [] { assert l.reasons[0] in Reasons(l); }
    if r.Partial? && r.reasons != [] { assert r.reasons[0] in Reasons(r); }
  }

  // ----- When merging fails

  predicate Overfull(reasons: set<GapCode>) {
    |reasons| > OWNER_COMPLETENESS_REASONS_MAX
  }

  /** The only failure: more distinct reasons than one completeness may carry. */
  predicate Failed(e: ObservationError, reasons: set<GapCode>) {
    e == OwnerReasonLimitExceeded && Overfull(reasons)
  }

  lemma FailedGrows(e: ObservationError, few: set<GapCode>, many: set<GapCode>)
    requires Failed(e, few) && few <= many
    ensures Failed(e, many)
  {
    assert many == few + (many - few);
  }

  /** Merging fails exactly when neither side is raced and the joined reasons are too many. */
  lemma MergeFailsExactly(l: OwnerCompleteness, r: OwnerCompleteness)
    ensures MergeCompleteness(l, r).Err? <==> l != Raced && r != Raced && Overfull(Reasons(l) + Reasons(r))
    ensures MergeCompleteness(l, r).Err? ==> Failed(MergeCompleteness(l, r).error, Reasons(l) + Reasons(r))
  {
    hide SortedReasons;
  }

  lemma NormalReasons(raced: bool, reasons: set<GapCode>)
    ensures Reasons(Normal(raced, reasons)) <= reasons
  {
    if !raced { NormalMeaning(raced, reasons); }
    hide SortedReasons;
  }

  lemma MergeFailsWithin(l: OwnerCompleteness, r: OwnerCompleteness, all: set<GapCode>)
    requires MergeCompleteness(l, r).Err? && Reasons(l) <= all && Reasons(r) <= all
    ensures Failed(MergeCompleteness(l, r).error, all)
  {
    MergeFailsExactly(l, r);
    FailedGrows(MergeCompleteness(l, r).error, Reasons(l) + Reasons(r), all);
  }

  /** Without that discipline the law fails: an empty partial operand is merged away. */
  lemma EmptyPartialIsForgotten()
    ensures MergeCompleteness(Partial([]), Complete) == Ok(Complete)
    ensures forall l, r :: MergeCompleteness(l, r).Ok? ==>
              (MergeCompleteness(l, r).value == Complete <==>
                 (l == Complete || l == Partial([])) && (r == Complete || r == Partial([])))
  {
    assert Reasons(Partial([])) == {};
    forall l, r | MergeCompleteness(l, r).Ok?
      ensures MergeCompleteness(l, r).value == Complete <==>
                (l == Complete || l == Partial([])) && (r == Complete || r == Partial([]))
    {
      NormalMeaning(l == Raced || r == Raced, Reasons(l) + Reasons(r));
      if l.Partial? && l.reasons != [] { assert l.reasons[0] in Reasons(l); }
      if r.Partial? && r.reasons != [] { assert r.reasons[0] in Reasons(r); }
    }
  }

  predicate AnyRaced(rows: seq<NativeRow>) {
    exists r | r in rows :: r.completeness == Raced
  }

  function AllReasons(rows: seq<NativeRow>): set<GapCode> {
    set r, c | r in rows && c in Reasons(r.completeness) :: c
  }

  /** A row of the second pass after taking over the doubts of its whole group in the first. */
  function MergedRow(a: seq<NativeRow>, row: NativeRow): NativeRow {
    if row.socket.id in RowIds(a) then
      var g := Group(a, row.socket.id);
      row.(completeness := Normal(AnyRaced(g) || row.completeness == Raced,
                                  AllReasons(g) + Reasons(row.completeness)))
    else row
  }

  lemma JoinOne(rows: seq<NativeRow>, row: NativeRow)
    requires MergeCompleteness(Normal(AnyRaced(rows), AllReasons(rows)), row.completeness).Ok?
    ensures MergeCompleteness(Normal(AnyRaced(rows), AllReasons(rows)), row.completeness).value
         == Normal(AnyRaced(rows + [row]), AllReasons(rows + [row]))
  {
    MergeIsJoin(Normal(AnyRaced(rows), AllReasons(rows)), row.completeness);
    hide MergeCompleteness;
    NormalMeaning(AnyRaced(rows), AllReasons(rows));
    NormalRaced(AllReasons(rows) + Reasons(row.completeness), AllReasons(rows + [row]));
    RowsGrow(rows, row);
    hide AnyRaced;
    hide AllReasons;
    hide Reasons;
    hide Normal;
  }

  lemma NormalRaced(x: set<GapCode>, y: set<GapCode>)
    ensures Normal(true, x) == Normal(true, y)
  {
  }

  lemma RowsGrow(rows: seq<NativeRow>, row: NativeRow)
    ensures AnyRaced(rows + [row]) <==> AnyRaced(rows) || row.completeness == Raced
    ensures AllReasons(rows + [row]) == AllReasons(rows) + Reasons(row.completeness)
  {
    hide Reasons;
    assert row in rows + [row];
    assert forall r :: r in rows + [row] <==> r in rows || r == row;
  }

  lemma ReasonsWithin(rows: seq<NativeRow>, part: seq<NativeRow>)
    requires forall r | r in part :: r in rows
    ensures AllReasons(part) <= AllReasons(rows)
  {
  }

  lemma RowReasonsWithin(rows: seq<NativeRow>, row: NativeRow)
    requires row in rows
    ensures Reasons(row.completeness) <= AllReasons(rows)
  {
  }

  lemma JoinFails(rows: seq<NativeRow>, i: nat)
    requires i < |rows|
    requires MergeCompleteness(Normal(AnyRaced(rows[..i]), AllReasons(rows[..i])), rows[i].completeness).Err?
    ensures Failed(MergeCompleteness(Normal(AnyRaced(rows[..i]), AllReasons(rows[..i])), rows[i].completeness).error,
                   AllReasons(rows))
  {
    NormalReasons(AnyRaced(rows[..i]), AllReasons(rows[..i]));
    ReasonsWithin(rows, rows[..i]);
    RowReasonsWithin(rows, rows[i]);
    hide *;
    MergeFailsWithin(Normal(AnyRaced(rows[..i]), AllReasons(rows[..i])), rows[i].completeness, AllReasons(rows));
  }

  method JoinGroup(rows: seq<NativeRow>) returns (r: Result<OwnerCompleteness, ObservationError>)
    ensures r.Ok? ==> r.value == Normal(AnyRaced(rows), AllReasons(rows))
    ensures r.Err? ==> Failed(r.error, AllReasons(rows))
  {
    hide MergeCompleteness;
    hide Normal;
    hide AnyRaced;
    hide AllReasons;
    NothingJoined();
    var joined: OwnerCompleteness := Complete;
    for i := 0 to |rows|
      invariant joined == Normal(AnyRaced(rows[..i]), AllReasons(rows[..i]))
    {
      var merged := MergeCompleteness(joined, rows[i].completeness);
      if merged.Err? {
        JoinFails(rows, i);
        return Err(merged.error);
      }
      JoinOne(rows[..i], rows[i]);
      assert rows[..i+1] == rows[..i] + [rows[i]];
      joined := merged.value;
    }
    assert rows[..|rows|] == rows;
    return Ok(joined);
  }

  lemma NothingJoined()
    ensures Normal(AnyRaced([]), AllReasons([])) == Complete
  {
    assert AllReasons([]) == {};
  }

  lemma NoneBeyond(g: SocketId, rows: seq<NativeRow>, from: nat)
    requires from <= |rows| && Beyond(g, rows, from)
    ensures forall r | r in rows[from..] :: r.socket.id != g
  {
    IdSeparates(g, g);
    hide CompareId;
  }

  lemma GroupIsSlice(a: seq<NativeRow>, i: nat, ie: nat, b: seq<NativeRow>, j: nat, g: SocketId)
    requires i < ie && j <= |b| && GroupAt(g, a, i, ie) && Separated(a, i, b, j)
    ensures Group(a, g) == a[i..ie] && g in RowIds(a)
  {
    assert a[i] in a[i..ie];
    SeparatedFresh(a, i, b, j, g);
    NoneBeyond(g, a, ie);
    hide CompareId;
    hide Separated;
    hide Beyond;
    assert a == a[..i] + a[i..ie] + a[ie..];
    GroupOfNewcomers(a[..i], a[i..ie], g, g);
    FilterAppend(HasId(g), a[..i] + a[i..ie], a[ie..]);
    FilterNone(HasId(g), a[ie..]);
  }

  lemma NotInFirst(a: seq<NativeRow>, i: nat, b: seq<NativeRow>, j: nat, g: SocketId)
    requires i <= |a| && j < |b| && Separated(a, i, b, j) && b[j].socket.id == g && Beyond(g, a, i)
    ensures g !in RowIds(a)
  {
    hide CompareId;
    IdSeparates(g, g);
    forall r | r in a ensures r.socket.id != g { var x :| 0 <= x < |a| && a[x] == r; }
  }

  method MergeGroup(a: seq<NativeRow>, g: SocketId, joined: OwnerCompleteness, group: seq<NativeRow>)
    returns (r: Result<seq<NativeRow>, ObservationError>)
    requires g in RowIds(a) && forall row | row in group :: row.socket.id == g
    requires joined == Normal(AnyRaced(Group(a, g)), AllReasons(Group(a, g)))
    ensures r.Ok? ==> |r.value| == |group| && forall k | 0 <= k < |group| :: r.value[k] == MergedRow(a, group[k])
    ensures r.Err? ==> Failed(r.error, Reasons(joined) + AllReasons(group))
  {
    hide MergedRow;
    hide MergeCompleteness;
    hide Normal;
    hide AnyRaced;
    hide AllReasons;
    hide Group;
    hide RowIds;
    var rows := [];
    for k := 0 to |group|
      invariant |rows| == k && forall m | 0 <= m < k :: rows[m] == MergedRow(a, group[m])
    {
      var merged := MergeCompleteness(joined, group[k].completeness);
      if merged.Err? {
        RowReasonsWithin(group, group[k]);
        MergeFailsWithin(joined, group[k].completeness, Reasons(joined) + AllReasons(group));
        return Err(merged.error);
      }
      MergedInside(a, group[k], joined);
      rows := rows + [group[k].(completeness := merged.value)];
    }
    return Ok(rows);
  }

  lemma SlicesWithin(a: seq<NativeRow>, i: nat, ie: nat, b: seq<NativeRow>, j: nat, je: nat)
    requires i <= ie <= |a| && j <= je <= |b|
    ensures AllReasons(a[i..ie]) <= AllReasons(a) && AllReasons(b[j..je]) <= AllReasons(b)
  {
    ReasonsWithin(a, a[i..ie]);
    ReasonsWithin(b, b[j..je]);
  }

  /** A socket the first pass never listed keeps its rows as they are. */
  lemma Unmatched(a: seq<NativeRow>, i: nat, b: seq<NativeRow>, j: nat, end: nat)
    requires GroupedRows(a) && i < |a| && j < end <= |b| && Separated(a, i, b, j)
    requires CompareId(a[i].socket.id, b[j].socket.id) == Greater
    requires GroupAt(b[j].socket.id, b, j, end)
    ensures GroupAt(b[j].socket.id, a, i, i)
    ensures Beyond(b[j].socket.id, a, i)
    ensures forall k | j <= k < end :: MergedRow(a, b[k]) == b[k]
  {
    hide CompareId;
    IdLawfulAt(a[i].socket.id, b[j].socket.id, a[i].socket.id);
    BeyondFrom(b[j].socket.id, a, i);
    NotInFirst(a, i, b, j, b[j].socket.id);
    hide Separated;
    hide MergedRow;
    forall k | j <= k < end ensures MergedRow(a, b[k]) == b[k] {
      assert b[k] in b[j..end];
      MergedOutside(a, b[k]);
    }
  }

  /** One socket listed in both passes: join its group in the first, then merge into the second. */
  method MergeMatch(a: seq<NativeRow>, i: nat, ie: nat, b: seq<NativeRow>, j: nat, je: nat)
    returns (r: Result<seq<NativeRow>, ObservationError>)
    requires i < ie <= |a| && j < je <= |b| && Separated(a, i, b, j)
    requires GroupAt(a[i].socket.id, a, i, ie) && b[j].socket.id == a[i].socket.id
    requires GroupAt(b[j].socket.id, b, j, je)
    ensures r.Ok? ==> |r.value| == je - j && forall k | 0 <= k < je - j :: r.value[k] == MergedRow(a, b[j + k])
    ensures r.Err? ==> Failed(r.error, AllReasons(a) + AllReasons(b))
  {
    hide MergedRow;
    hide AllReasons;
    hide AnyRaced;
    hide Separated;
    hide Beyond;
    hide Group;
    hide RowIds;
    hide Normal;
    hide Reasons;
    hide Failed;
    hide CompareId;
    GroupIsSlice(a, i, ie, b, j, a[i].socket.id);
    SlicesWithin(a, i, ie, b, j, je);
    var joined := JoinGroup(a[i..ie]);
    if joined.Err? {
      FailedGrows(joined.error, AllReasons(a[i..ie]), AllReasons(a) + AllReasons(b));
      return Err(joined.error);
    }
    NormalReasons(AnyRaced(a[i..ie]), AllReasons(a[i..ie]));
    r := MergeGroup(a, a[i].socket.id, joined.value, b[j..je]);
    if r.Err? {
      FailedGrows(r.error, Reasons(joined.value) + AllReasons(b[j..je]), AllReasons(a) + AllReasons(b));
    }
  }

  lemma MergedSpliced(a: seq<NativeRow>, b: seq<NativeRow>, rows: seq<NativeRow>, j: nat, end: nat, merged: seq<NativeRow>)
    requires j <= end <= |b| == |rows| && |merged| == end - j
    requires forall k | 0 <= k < j :: rows[k] == MergedRow(a, b[k])
    requires forall k | j <= k < |b| :: rows[k] == b[k]
    requires forall k | 0 <= k < end - j :: merged[k] == MergedRow(a, b[j + k])
    ensures var next := rows[..j] + merged + rows[end..];
      && |next| == |b|
      && (forall k | 0 <= k < end :: next[k] == MergedRow(a, b[k]))
      && (forall k | end <= k < |b| :: next[k] == b[k])
  {
    hide MergedRow;
    forall k | j <= k < end ensures merged[k - j] == MergedRow(a, b[k]) { assert b[j + (k - j)] == b[k]; }
  }

  /** The grouped walk that rewrites the second pass's rows in place. */
  method MergeRows(a: seq<NativeRow>, b: seq<NativeRow>) returns (r: Result<seq<NativeRow>, ObservationError>)
    requires GroupedRows(a) && GroupedRows(b)
    ensures r.Ok? ==> |r.value| == |b| && forall k | 0 <= k < |b| :: r.value[k] == MergedRow(a, b[k])
    ensures r.Err? ==> Failed(r.error, AllReasons(a) + AllReasons(b))
  {
    hide CompareId;
    hide MergedRow;
    hide Separated;
    hide Group;
    hide AllReasons;
    hide Failed;
    hide Beyond;
    hide GroupAt;
    var rows := b;
    var i, j := 0, 0;
    NothingDiffers();
    assert a[..0] == [] && b[..0] == [];
    while i < |a| && j < |b|
      invariant i <= |a| && j <= |b| && |rows| == |b| && Separated(a, i, b, j)
      invariant forall k | 0 <= k < j :: rows[k] == MergedRow(a, b[k])
      invariant forall k | j <= k < |b| :: rows[k] == b[k]
      decreases |a| - i + |b| - j
    {
      match CompareId(a[i].socket.id, b[j].socket.id)
      case Less =>
        var end := SocketGroupEnd(a, i);
        BeyondFrom(a[i].socket.id, b, j);
        SeparatedAdvance(a, i, end, b, j, j, a[i].socket.id);
        i := end;
      case Greater =>
        var end := SocketGroupEnd(b, j);
        Unmatched(a, i, b, j, end);
        SeparatedAdvance(a, i, i, b, j, end, b[j].socket.id);
        j := end;
      case Equal =>
        IdSeparates(a[i].socket.id, b[j].socket.id);
        var endA := SocketGroupEnd(a, i);
        var endB := SocketGroupEnd(b, j);
        var merged := MergeMatch(a, i, endA, b, j, endB);
        if merged.Err? {
          return Err(merged.error);
        }
        MergedSpliced(a, b, rows, j, endB, merged.value);
        rows := rows[..j] + merged.value + rows[endB..];
        SeparatedAdvance(a, i, endA, b, j, endB, a[i].socket.id);
        i, j := endA, endB;
    }
    forall k | j <= k < |b| ensures rows[k] == MergedRow(a, b[k]) {
      AllMerged(a, b, j, k);
      MergedOutside(a, b[k]);
    }
    return Ok(rows);
  }

  lemma MergedOutside(a: seq<NativeRow>, row: NativeRow)
    requires row.socket.id !in RowIds(a)
    ensures MergedRow(a, row) == row
  {
  }

  lemma MergedInside(a: seq<NativeRow>, row: NativeRow, joined: OwnerCompleteness)
    requires row.socket.id in RowIds(a)
    requires joined == Normal(AnyRaced(Group(a, row.socket.id)), AllReasons(Group(a, row.socket.id)))
    requires MergeCompleteness(joined, row.completeness).Ok?
    ensures MergedRow(a, row) == row.(completeness := MergeCompleteness(joined, row.completeness).value)
  {
    hide SortedReasons;
    MergeIsJoin(joined, row.completeness);
    NormalMeaning(AnyRaced(Group(a, row.socket.id)), AllReasons(Group(a, row.socket.id)));
  }

  lemma AllMerged(a: seq<NativeRow>, b: seq<NativeRow>, j: nat, k: nat)
    requires j <= k < |b| && Separated(a, |a|, b, j)
    ensures b[k].socket.id !in RowIds(a)
  {
    hide CompareId;
    IdSeparates(b[k].socket.id, b[k].socket.id);
    forall r | r in a ensures r.socket.id != b[k].socket.id { var x :| 0 <= x < |a| && a[x] == r; }
  }

  // ----- Evidence gaps

  /** `same_aggregate_observation` */
  predicate SameAggregate(x: Gap, y: Gap) {
    x.affectedPidCount.Some? && y.affectedPidCount.Some? && x.(affectedPidCount := None) == y.(affectedPidCount := None)
  }

  /** `g` is kept, or an aggregate of the same observation counts at least as many processes. */
  ghost predicate Covered(g: Gap, kept: set<Gap>) {
    || g in kept
    || exists h | h in kept :: SameAggregate(h, g) && h.affectedPidCount.value >= g.affectedPidCount.value
  }

  /** The first match of an ordered walk: matches differ only in their count. */
  method FindAggregate(merged: set<Gap>, gap: Gap) returns (r: Option<Gap>)
    ensures r.None? <==> forall e | e in merged :: !SameAggregate(e, gap)
    ensures r.Some? ==>
              && r.value in merged && SameAggregate(r.value, gap)
              && forall e | e in merged && SameAggregate(e, gap) ::
                   r.value.affectedPidCount.value <= e.affectedPidCount.value
  {
    r := None;
    var rest := merged;
    while rest != {}
      invariant rest <= merged
      invariant r.None? <==> forall e | e in merged - rest :: !SameAggregate(e, gap)
      invariant r.Some? ==>
                  && r.value in merged && SameAggregate(r.value, gap)
                  && forall e | e in merged - rest && SameAggregate(e, gap) ::
                       r.value.affectedPidCount.value <= e.affectedPidCount.value
      decreases rest
    {
      var e :| e in rest;
      rest := rest - {e};
      if SameAggregate(e, gap) && (r.None? || e.affectedPidCount.value < r.value.affectedPidCount.value) {
        r := Some(e);
      }
    }
  }

  lemma ReplaceCovers(kept: set<Gap>, old_: Gap, larger: Gap, g: Gap)
    requires old_ in kept && SameAggregate(old_, larger)
    requires larger.affectedPidCount.value > old_.affectedPidCount.value
    requires Covered(g, kept)
    ensures Covered(g, kept - {old_} + {larger})
  {
    var next := kept - {old_} + {larger};
    if g in kept && g != old_ {
      assert g in next;
    } else if g == old_ {
      assert larger in next && SameAggregate(larger, g);
    } else {
      var h :| h in kept && SameAggregate(h, g) && h.affectedPidCount.value >= g.affectedPidCount.value;
      if h == old_ {
        assert larger in next && SameAggregate(larger, g);
      } else {
        assert h in next;
      }
    }
  }

  lemma GrowCovers(kept: set<Gap>, extra: Gap, g: Gap)
    requires Covered(g, kept)
    ensures Covered(g, kept + {extra})
  {
    if g !in kept {
      var h :| h in kept && SameAggregate(h, g) && h.affectedPidCount.value >= g.affectedPidCount.value;
      assert h in kept + {extra};
    }
  }

  lemma TooMany(a: seq<Gap>, b: seq<Gap>, merged: set<Gap>, gap: Gap)
    requires (forall g | g in merged :: g in a || g in b) && gap in b && gap !in merged
    ensures |Elements(a) + Elements(b)| > |merged|
  {
    var all := Elements(a) + Elements(b);
    assert merged + {gap} <= all;
    SubsetSize(merged + {gap}, all);
  }

  lemma {:induction false} SubsetSize<T>(x: set<T>, y: set<T>)
    requires x <= y
    ensures |x| <= |y|
  {
    if e :| e in x {
      SubsetSize(x - {e}, y - {e});
    }
  }

  /** Every gap of either pass is kept, subsumed, or counted as omitted; nothing is invented;
      the budget holds, and something is omitted only when both passes together have more gaps than it admits. */
  method MergeGaps(a: seq<Gap>, b: seq<Gap>, omittedBefore: nat)
    returns (merged: set<Gap>, omitted: nat, ghost dropped: seq<Gap>)
    requires |a| <= EVIDENCE_GAPS_MAX && omittedBefore <= U64_MAX
    ensures |merged| <= EVIDENCE_GAPS_MAX
    ensures forall g | g in merged :: g in a || g in b
    ensures forall g | g in a || (g in b && g !in dropped) :: Covered(g, merged)
    ensures forall g | g in dropped :: g in b
    ensures omitted == SaturatingAdd(omittedBefore, |dropped|)
    ensures dropped != [] ==> |Elements(a) + Elements(b)| > EVIDENCE_GAPS_MAX
  {
    hide SameAggregate;
    merged := Elements(a);
    omitted := omittedBefore;
    dropped := [];
    ElementsSize(a);
    for i := 0 to |b|
      invariant |merged| <= EVIDENCE_GAPS_MAX
      invariant forall g | g in merged :: g in a || g in b
      invariant forall g | g in a || (g in b[..i] && g !in dropped) :: Covered(g, merged)
      invariant forall g | g in dropped :: g in b
      invariant omitted == SaturatingAdd(omittedBefore, |dropped|)
      invariant dropped != [] ==> |Elements(a) + Elements(b)| > EVIDENCE_GAPS_MAX
    {
      assert b[..i+1] == b[..i] + [b[i]];
      var gap := b[i];
      var existing: Option<Gap> := None;
      if gap.affectedPidCount.Some? {
        existing := FindAggregate(merged, gap);
      }
      if existing.Some? {
        if gap.affectedPidCount.value > existing.value.affectedPidCount.value {
          forall g | Covered(g, merged) ensures Covered(g, merged - {existing.value} + {gap}) {
            ReplaceCovers(merged, existing.value, gap, g);
          }
          merged := merged - {existing.value} + {gap};
        }
      } else if gap in merged {
      } else if |merged| >= EVIDENCE_GAPS_MAX {
        TooMany(a, b, merged, gap);
        omitted := SaturatingAdd(omitted, 1);
        dropped := dropped + [gap];
      } else {
        forall g | Covered(g, merged) ensures Covered(g, merged + {gap}) {
          GrowCovers(merged, gap, g);
        }
        merged := merged + {gap};
      }
    }
    assert b[..|b|] == b;
  }

  /** Collecting the ordered set back into a vector. */
  method SortedGaps(gaps: set<Gap>) returns (r: seq<Gap>)
    ensures multiset(r) == multiset(gaps) && Sorted(CompareGap, r) && |r| == |gaps|
  {
    r := [];
    var rest := gaps;
    while rest != {}
      invariant rest <= gaps && multiset(r) == multiset(gaps - rest)
      decreases rest
    {
      var g :| g in rest;
      r := r + [g];
      assert gaps - (rest - {g}) == (gaps - rest) + {g};
      rest := rest - {g};
    }
    assert gaps - {} == gaps;
    GapLawful();
    SortSorts(CompareGap, r);
    r := Sort(CompareGap, r);
    assert |multiset(r)| == |multiset(gaps)|;
  }

  /** What the merged second pass says about the two passes it came from. */
  ghost predicate Merged(a: CollectedPass, b: CollectedPass, m: CollectedPass, dropped: seq<Gap>) {
    && MergeCompleteness(a.globalCompleteness, b.globalCompleteness) == Ok(m.globalCompleteness)
    && |m.rows| == |b.rows| && (forall k | 0 <= k < |b.rows| :: m.rows[k] == MergedRow(a.rows, b.rows[k]))
    && m.processes == b.processes
    && |m.gaps| <= EVIDENCE_GAPS_MAX
    && (forall g | g in m.gaps :: g in a.gaps || g in b.gaps)
    && (forall g | g in a.gaps || (g in b.gaps && g !in dropped) :: Covered(g, Elements(m.gaps)))
    && (forall g | g in dropped :: g in b.gaps)
    && m.omittedGaps == SaturatingAdd(SaturatingAdd(b.omittedGaps, a.omittedGaps), |dropped|)
    && (dropped != [] ==> |Elements(a.gaps) + Elements(b.gaps)| > EVIDENCE_GAPS_MAX)
  }

  /** Every reason a pass gives for doubting its owners. */
  function PassReasons(p: CollectedPass): set<GapCode> {
    AllReasons(p.rows) + Reasons(p.globalCompleteness)
  }

  lemma GlobalMergedReasons(a: OwnerCompleteness, b: OwnerCompleteness, m: OwnerCompleteness)
    requires MergeCompleteness(a, b) == Ok(m)
    ensures Reasons(m) <= Reasons(a) + Reasons(b)
  {
    MergeIsJoin(a, b);
    NormalReasons(a == Raced || b == Raced, Reasons(a) + Reasons(b));
    hide MergeCompleteness;
    hide Normal;
  }

  lemma RowsMergedReasons(a: seq<NativeRow>, b: seq<NativeRow>, m: seq<NativeRow>)
    requires |m| == |b| && forall k | 0 <= k < |b| :: m[k] == MergedRow(a, b[k])
    ensures AllReasons(m) <= AllReasons(a) + AllReasons(b)
  {
    hide MergedRow;
    hide Reasons;
    forall r, c | r in m && c in Reasons(r.completeness) ensures c in AllReasons(a) + AllReasons(b) {
      var k :| 0 <= k < |m| && m[k] == r;
      RowMergedReasons(a, b[k]);
      RowReasonsWithin(b, b[k]);
    }
  }

  /** Merging invents no reason. */
  lemma MergedReasons(a: CollectedPass, b: CollectedPass, m: CollectedPass, dropped: seq<Gap>)
    requires Merged(a, b, m, dropped)
    ensures PassReasons(m) <= PassReasons(a) + PassReasons(b)
  {
    hide MergedRow;
    hide AllReasons;
    hide Reasons;
    hide MergeCompleteness;
    hide Covered;
    GlobalMergedReasons(a.globalCompleteness, b.globalCompleteness, m.globalCompleteness);
    RowsMergedReasons(a.rows, b.rows, m.rows);
  }

  lemma RowMergedReasons(a: seq<NativeRow>, row: NativeRow)
    ensures Reasons(MergedRow(a, row).completeness) <= AllReasons(a) + Reasons(row.completeness)
  {
    var g := Group(a, row.socket.id);
    ReasonsWithin(a, g);
    NormalReasons(AnyRaced(g) || row.completeness == Raced, AllReasons(g) + Reasons(row.completeness));
    hide Normal;
    hide Reasons;
  }

  method MergeAttemptUncertainty(a: CollectedPass, b: CollectedPass)
    returns (r: Result<CollectedPass, ObservationError>, ghost dropped: seq<Gap>)
    requires WellFormed(a) && WellFormed(b)
    ensures r.Ok? ==> Merged(a, b, r.value, dropped) && WellFormed(r.value)
    ensures r.Err? ==> Failed(r.error, PassReasons(a) + PassReasons(b))
  {
    hide MergedRow;
    hide Covered;
    dropped := [];
    var globalCompleteness := MergeCompleteness(a.globalCompleteness, b.globalCompleteness);
    if globalCompleteness.Err? {
      MergeFailsWithin(a.globalCompleteness, b.globalCompleteness, PassReasons(a) + PassReasons(b));
      return Err(globalCompleteness.error), dropped;
    }
    var rows := MergeRows(a.rows, b.rows);
    if rows.Err? {
      FailedGrows(rows.error, AllReasons(a.rows) + AllReasons(b.rows), PassReasons(a) + PassReasons(b));
      return Err(rows.error), dropped;
    }
    var omitted := SaturatingAdd(b.omittedGaps, a.omittedGaps);
    var gaps: set<Gap>;
    gaps, omitted, dropped := MergeGaps(a.gaps, b.gaps, omitted);
    var ordered := SortedGaps(gaps);
    assert Elements(ordered) == gaps by {
      assert forall g :: g in ordered <==> g in multiset(ordered);
    }
    MergedRowsWellFormed(a.rows, b.rows, rows.value);
    r := Ok(CollectedPass(rows.value, globalCompleteness.value, ordered, b.processes, omitted));
  }

  lemma MergedRowsWellFormed(a: seq<NativeRow>, b: seq<NativeRow>, m: seq<NativeRow>)
    requires GroupedRows(b) && |m| == |b| && forall k | 0 <= k < |b| :: m[k] == MergedRow(a, b[k])
    ensures GroupedRows(m) && RowPids(m) == RowPids(b)
    ensures forall k | 0 <= k < |b| :: m[k].socket == b[k].socket && m[k].ownerPids == b[k].ownerPids
  {
  }
}

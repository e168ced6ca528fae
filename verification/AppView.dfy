/** The table the terminal application shows: values and selection rules of `src/app.rs` and
    `src/app/helpers.rs`. */
module AppView {
  import opened Orders
  import opened Observation
  import opened QueryModel
  import opened KillTargets

  const FILTER_TEXT_MAX_BYTES: nat := 256

  /** What the user's configuration and the host fix for one session. */
  datatype Settings = Settings(ownPid: nat, env: Env, parse: string -> Result<seq<Term<string>>, QueryError>,
                               hideSystem: bool, confirmForce: bool)

  datatype RowKey = RowKey(pid: Option<nat>, protocol: Protocol, localAddr: Address, localPort: nat,
                           ipv6Scope: Option<Ipv6Scope>)

  datatype SortedRows = SortedRows(mode: SortMode, indices: seq<nat>)

  function KeyOf(e: Entry): RowKey {
    RowKey(e.row.pid, e.row.protocol, e.row.localAddr, e.row.localPort, e.row.ipv6Scope)
  }

  function RowOf(e: Entry): Row<string> {
    e.row
  }

  function Views(entries: seq<Entry>): seq<Row<string>> {
    Map(RowOf, entries)
  }

  function TableQuery(settings: Settings, filterText: string, mode: SortMode): Options<string> {
    Options(false, None, None, settings.parse(filterText), mode, settings.hideSystem)
  }

  /** The table is the fresh query of the current rows, or empty under the query's error. */
  ghost predicate Shows(settings: Settings, entries: seq<Entry>, filterText: string, mode: SortMode,
                        visible: seq<nat>, filterError: Option<QueryError>) {
    match FreshQuery(settings.env, Views(entries), TableQuery(settings, filterText, mode))
    case Ok(q) => visible == q.indices && filterError == None
    case Err(e) => visible == [] && filterError == Some(e)
  }

  /** A cached permutation is the display order of the current rows for its own mode. */
  ghost predicate CacheTrue(settings: Settings, entries: seq<Entry>, sorted: Option<SortedRows>) {
    sorted.Some? ==> sorted.value.indices == DisplayOrder(settings.env, Views(entries), sorted.value.mode)
  }

  lemma NoCache(settings: Settings, entries: seq<Entry>)
    ensures CacheTrue(settings, entries, None)
  {
  }

  predicate AllBelow(indices: seq<nat>, bound: nat) {
    forall i | 0 <= i < |indices| :: indices[i] < bound
  }

  lemma FreshIndices(env: Env, rows: seq<Row<string>>, o: Options<string>)
    ensures FreshQuery(env, rows, o).Ok? ==> AllBelow(FreshQuery(env, rows, o).value.indices, |rows|)
  {
    if Refusal(o).None? {
      var kept := Filter(Shown(env, o), Candidates(rows));
      RowOrderStrict(env, o.sortMode);
      SortSorts(RowOrder(env, o.sortMode), kept);
      var sorted := Sort(RowOrder(env, o.sortMode), kept);
      forall i | 0 <= i < |sorted| ensures sorted[i].index < |rows| {
        assert sorted[i] in multiset(sorted) && sorted[i] in kept;
      }
    }
  }

  /** An empty table has nothing to filter. */
  lemma EmptyTable(settings: Settings, filterText: string, mode: SortMode)
    requires settings.parse(filterText).Ok?
    ensures Shows(settings, [], filterText, mode, [], None)
  {
    assert Candidates([]) == [];
  }

  /** The query a refresh or an edit runs: reuse a permutation that fits, else query afresh. */
  method QueryTable(settings: Settings, entries: seq<Entry>, filterText: string, mode: SortMode, sorted: Option<SortedRows>)
    returns (visible: seq<nat>, filterError: Option<QueryError>, cache: Option<SortedRows>)
    requires CacheTrue(settings, entries, sorted)
    ensures Shows(settings, entries, filterText, mode, visible, filterError)
    ensures AllBelow(visible, |entries|)
    ensures CacheTrue(settings, entries, cache)
  {
    hide FreshQuery;
    hide FilterPreordered;
    hide DisplayOrder;
    hide Shown;
    hide Refusal;
    var rows, o := Views(entries), TableQuery(settings, filterText, mode);
    FreshIndices(settings.env, rows, o);
    PreorderedAgrees(settings.env, rows, o);
    var result :=
      if sorted.Some? && sorted.value.mode == mode && |sorted.value.indices| == |entries|
      then FilterPreordered(settings.env, rows, sorted.value.indices, o)
      else FreshQuery(settings.env, rows, o);
    cache := sorted;
    match result
    case Err(e) =>
      visible, filterError := [], Some(e);
    case Ok(q) =>
      if !q.explicitFilter && !settings.hideSystem {
        ExplicitReported(settings.env, rows, o);
        UnfilteredIsDisplayOrder(settings.env, rows, o);
        cache := Some(SortedRows(mode, q.indices));
      }
      visible, filterError := q.indices, None;
  }

  lemma ExplicitReported(env: Env, rows: seq<Row<string>>, o: Options<string>)
    requires FreshQuery(env, rows, o).Ok?
    ensures Refusal(o).None? && FreshQuery(env, rows, o).value.explicitFilter == ExplicitFilter(o)
  {
  }

  // ----- Selection

  /** The first visible row with the wanted key, else the old position, clamped. */
  ghost predicate Selects(entries: seq<Entry>, visible: seq<nat>, key: Option<RowKey>, fallback: nat, selected: Option<nat>)
    requires AllBelow(visible, |entries|)
  {
    if visible == [] then selected == None
    else
      && selected.Some? && selected.value < |visible|
      && if exists i | 0 <= i < |visible| :: Some(KeyOf(entries[visible[i]])) == key then
           && Some(KeyOf(entries[visible[selected.value]])) == key
           && forall i | 0 <= i < selected.value :: Some(KeyOf(entries[visible[i]])) != key
         else selected.value == if fallback < |visible| then fallback else |visible| - 1
  }

  /** `preserved_selection`, with the mask of source rows that carry the selected key. */
  method PreservedSelection(entries: seq<Entry>, visible: seq<nat>, key: Option<RowKey>, fallback: nat)
    returns (selected: Option<nat>)
    requires AllBelow(visible, |entries|)
    ensures Selects(entries, visible, key, fallback, selected)
  {
    if visible == [] {
      return None;
    }
    if key.Some? {
      var mask := seq(|entries|, i requires 0 <= i < |entries| => KeyOf(entries[i]) == key.value);
      for i := 0 to |visible|
        invariant forall j | 0 <= j < i :: Some(KeyOf(entries[visible[j]])) != key
      {
        if mask[visible[i]] {
          return Some(i);
        }
      }
    }
    return Some(if fallback < |visible| then fallback else |visible| - 1);
  }

  // ----- Confirmation targets

  predicate SameGeneration(marker: Option<StartMarker>, context: ProcessContext) {
    context.marker.None? || marker == context.marker
  }

  /** The details were read for this row: the same socket of the same process, in the generation the
      read saw, if it saw one. */
  ghost predicate ReadFor(e: Entry, key: RowKey, found: ProcessContext) {
    && e.row.pid == key.pid && e.row.protocol == key.protocol && e.row.localAddr == key.localAddr
    && e.row.localPort == key.localPort && e.row.ipv6Scope == key.ipv6Scope
    && (found.marker.None? || (e.identity.Some? && Some(e.identity.value.startMarker) == found.marker))
  }

  /** Two rows are the same to the selection exactly when process and socket are. */
  lemma SameKeyExactly(x: Entry, y: Entry)
    ensures KeyOf(x) == KeyOf(y) <==>
      && x.row.pid == y.row.pid && x.row.protocol == y.row.protocol && x.row.localAddr == y.row.localAddr
      && x.row.localPort == y.row.localPort && x.row.ipv6Scope == y.row.ipv6Scope
  {
  }

  /** `kill_target_with_optional_context` */
  function TargetOf(entries: seq<Entry>, pid: nat, context: Option<ProcessContext>): Option<KillTarget> {
    var rows := RowsOf(entries, pid);
    if rows == [] then None else Some(FromEntries(pid, rows, context))
  }

  lemma TargetPid(entries: seq<Entry>, pid: nat, context: Option<ProcessContext>)
    ensures TargetOf(entries, pid, context).Some? ==>
      && TargetOf(entries, pid, context).value.pid == pid
      && TargetOf(entries, pid, context).value.ownerUid == (if context.Some? then context.value.ownerUid else None)
  {
  }

  /** The rows on display still describe this target: a re-read could change its displayed
      context, never its identity, and never reveal a protection it lacks. */
  ghost predicate Current(entries: seq<Entry>, target: KillTarget) {
    var now := TargetOf(entries, target.pid, None);
    now.Some? && SameProcess(now.value, target) && (now.value.isProtected ==> target.isProtected)
  }

  lemma OpeningIsCurrent(entries: seq<Entry>, pid: nat, context: Option<ProcessContext>)
    requires TargetOf(entries, pid, context).Some?
    ensures Current(entries, TargetOf(entries, pid, context).value)
    ensures TargetOf(entries, pid, context).value.pid == pid
  {
    hide FirstName;
  }

  /** A context read over unchanged rows neither changes who a target is nor protects it anew. */
  lemma RereadKeeps(entries: seq<Entry>, target: KillTarget, context: Option<ProcessContext>)
    requires Current(entries, target)
    ensures TargetOf(entries, target.pid, context).Some?
    ensures SameProcess(TargetOf(entries, target.pid, context).value, target)
    ensures TargetOf(entries, target.pid, context).value.isProtected ==> target.isProtected
  {
    hide FirstName;
  }

  lemma SelectedHasRows(entries: seq<Entry>, e: Entry, pid: nat)
    requires e in entries && e.row.pid == Some(pid)
    ensures forall c :: TargetOf(entries, pid, c).Some?
  {
    assert e in RowsOf(entries, pid);
  }
}

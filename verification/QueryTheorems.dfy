/** What the rows a query returns have in common, said about the rows' own fields, and what each
    sort mode sorts by. */
module QueryTheorems {
  import opened Orders
  import opened Observation
  import opened QueryModel
  import opened QueryCaches
  import opened QueryEngine

  // ----- Which rows are returned

  /** The row is not one the user asked to hide. */
  ghost predicate Visible(o: Options<Slice>, r: Row<Slice>) {
    !(o.hideSystem && r.isSystem)
  }

  /** The row is visible and meets every condition of the query. */
  ghost predicate Meets(env: Env, mem: string, o: Options<Slice>, r: Row<Slice>)
    requires o.filter.Ok?
  {
    && Visible(o, r)
    && (o.port.Some? ==> r.localPort == o.port.value)
    && (o.process.Some? ==> TextMatches(env, ResolveText(mem, r.processName), env.lower(Text(mem, o.process.value))))
    && forall t | t in o.filter.value :: TermMatches(env, ResolveRow(mem, r), ResolveTerm(mem, t))
  }

  /** `indices` are the rows of `pool` that do. */
  ghost predicate Selected(env: Env, mem: string, rows: seq<Row<Slice>>, o: Options<Slice>, pool: set<nat>, indices: seq<nat>)
    requires o.filter.Ok?
  {
    && (forall i | i in pool :: i < |rows|)
    && forall i: nat :: i in indices <==> i in pool && Meets(env, mem, o, rows[i])
  }

  lemma ResolvedShown(env: Env, mem: string, o: Options<Slice>, i: nat, r: Row<Slice>)
    requires o.filter.Ok?
    ensures Shown(env, ResolveOptions(mem, o))(Candidate(i, ResolveRow(mem, r))) <==> Meets(env, mem, o, r)
  {
    hide TermMatches;
    hide TextMatches;
    var resolved := ResolveTerms(mem, o.filter.value);
    forall t | t in o.filter.value ensures ResolveTerm(mem, t) in resolved {
      var k :| 0 <= k < |o.filter.value| && o.filter.value[k] == t;
      assert resolved[k] == ResolveTerm(mem, t);
    }
    forall u | u in resolved ensures exists t | t in o.filter.value :: ResolveTerm(mem, t) == u {
      var k :| 0 <= k < |resolved| && resolved[k] == u;
      assert o.filter.value[k] in o.filter.value;
    }
  }

  lemma IndexIn(c: seq<Candidate>, i: nat)
    ensures i in Indices(c) <==> exists x | x in c :: x.index == i
  {
    if i in Indices(c) {
      var k :| 0 <= k < |c| && Indices(c)[k] == i;
      assert c[k] in c;
    }
    if x :| x in c && x.index == i {
      var k :| 0 <= k < |c| && c[k] == x;
      assert Indices(c)[k] == i;
    }
  }

  ghost function Below(n: nat): (r: set<nat>)
    ensures forall i: nat :: i in r <==> i < n
  {
    if n == 0 then {} else Below(n - 1) + {n - 1}
  }

  lemma FreshIndex(env: Env, rows: seq<Row<string>>, p: Options<string>, q: QueryResult, i: nat)
    requires FreshQuery(env, rows, p) == Ok(q)
    ensures p.filter.Ok? && (i in q.indices <==> i < |rows| && Shown(env, p)(Candidate(i, rows[i])))
  {
    var kept := Filter(Shown(env, p), Candidates(rows));
    KeptOrder(env, p, kept);
    var sorted := Sort(RowOrder(env, p.sortMode), kept);
    IndexIn(sorted, i);
    hide RowOrder;
    hide Shown;
    hide Sort;
    if i < |rows| {
      assert Candidates(rows)[i] == Candidate(i, rows[i]);
    }
  }

  lemma KeptOrder(env: Env, p: Options<string>, kept: seq<Candidate>)
    ensures forall x :: x in Sort(RowOrder(env, p.sortMode), kept) <==> x in kept
  {
    RowOrderStrict(env, p.sortMode);
    SortElements(RowOrder(env, p.sortMode), kept);
    assert forall x :: x in kept <==> x in Elements(kept);
    assert forall x :: x in Sort(RowOrder(env, p.sortMode), kept) <==> x in Elements(kept);
  }

  lemma FreshMeets(env: Env, mem: string, rows: seq<Row<Slice>>, o: Options<Slice>, q: QueryResult, i: nat)
    requires FreshQuery(env, ResolveRows(mem, rows), ResolveOptions(mem, o)) == Ok(q)
    ensures o.filter.Ok? && (i in q.indices <==> i < |rows| && Meets(env, mem, o, rows[i]))
  {
    hide FreshQuery;
    hide Shown;
    hide Meets;
    hide ResolveRow;
    FreshIndex(env, ResolveRows(mem, rows), ResolveOptions(mem, o), q, i);
    if i < |rows| {
      ResolvedShown(env, mem, o, i, rows[i]);
    }
  }

  /** A fresh query returns exactly the visible rows that meet every condition. */
  lemma FreshSelects(env: Env, mem: string, rows: seq<Row<Slice>>, o: Options<Slice>, q: QueryResult)
    requires FreshQuery(env, ResolveRows(mem, rows), ResolveOptions(mem, o)) == Ok(q)
    ensures o.filter.Ok? && Selected(env, mem, rows, o, Below(|rows|), q.indices)
  {
    hide FreshQuery;
    hide Meets;
    hide Below;
    hide ResolveRows;
    hide ResolveOptions;
    FreshMeets(env, mem, rows, o, q, 0);
    forall i: nat ensures i in q.indices <==> i < |rows| && Meets(env, mem, o, rows[i]) {
      FreshMeets(env, mem, rows, o, q, i);
    }
  }

  /** Filtering a preordered list returns exactly the visible listed rows that meet every condition. */
  lemma PreorderedSelects(env: Env, mem: string, rows: seq<Row<Slice>>, preordered: seq<nat>, o: Options<Slice>, q: QueryResult)
    requires forall i | 0 <= i < |preordered| :: preordered[i] < |rows|
    requires FilterPreordered(env, ResolveRows(mem, rows), preordered, ResolveOptions(mem, o)) == Ok(q)
    ensures o.filter.Ok? && Selected(env, mem, rows, o, Elements(preordered), q.indices)
  {
    var resolved, p := ResolveRows(mem, rows), ResolveOptions(mem, o);
    var all := Pick(resolved, preordered);
    hide Matches;
    hide ResolveRow;
    hide ResolveTerm;
    hide Shown;
    hide Meets;
    forall i: nat ensures i in q.indices <==> i in preordered && Meets(env, mem, o, rows[i]) {
      IndexIn(Filter(Shown(env, p), all), i);
      if i in preordered {
        var k :| 0 <= k < |preordered| && preordered[k] == i;
        assert all[k] == Candidate(i, ResolveRow(mem, rows[i])) && all[k] in all;
        ResolvedShown(env, mem, o, i, rows[i]);
      }
    }
  }

  // ----- One structured term

  /** The rows a structured term names, by their own fields. */
  ghost predicate Has(env: Env, r: Row<Slice>, t: Term<Slice>)
    requires !t.Plain? && !t.Parent? && !t.Label?
  {
    match t
    case PidIs(p) => r.pid == Some(p)
    case PortIs(p) => r.localPort == p
    case ProtocolIs(p) => r.protocol == p
    case ScopeIs(s) => r.bindScope == s
    case ProtectedIs(b) => r.isProtected == b
    case AddressIs(a) => env.normalize(r.localAddr) == a
    case ScopeIdIs(i) => r.ipv6Scope == Some(InterfaceIndex(i))
    case FamilyIs(v4) => if v4 then env.normalize(r.localAddr).V4? else env.normalize(r.localAddr).V6?
  }

  /** The query asks for nothing but one term. */
  ghost predicate Lone(o: Options<Slice>, t: Term<Slice>) {
    o.filter == Ok([t]) && o.port.None? && o.process.None?
  }

  /** With a structured term in the filter only the rows it names are returned; with that term
      alone, all the visible ones are. */
  lemma StructuredTerm(env: Env, mem: string, rows: seq<Row<Slice>>, o: Options<Slice>, pool: set<nat>, indices: seq<nat>,
                       t: Term<Slice>)
    requires o.filter.Ok? && t in o.filter.value && !t.Plain? && !t.Parent? && !t.Label?
    requires Selected(env, mem, rows, o, pool, indices)
    ensures forall i | i in indices :: i < |rows| && Has(env, rows[i], t)
    ensures Lone(o, t) ==> forall i | i in pool && i < |rows| && Visible(o, rows[i]) && Has(env, rows[i], t) :: i in indices
  {
    forall i | 0 <= i < |rows|
      ensures TermMatches(env, ResolveRow(mem, rows[i]), ResolveTerm(mem, t)) <==> Has(env, rows[i], t) {}
    hide TermMatches;
    hide ResolveRow;
    hide ResolveTerm;
    hide TextMatches;
    hide Has;
  }

  /** A label term selects by the configured label, a parent term by the parent's PID or name. */
  lemma NamedTerms(env: Env, r: Row<string>, needle: string)
    ensures TermMatches(env, r, Label(needle)) <==> r.tag.Some? && Contains(env.lower(r.tag.value), needle)
    ensures TermMatches(env, r, Parent(needle)) <==>
      || (r.parentPid.Some? && ContainsAscii(Decimal(r.parentPid.value), needle))
      || (r.parentProcessName.Some? && Contains(env.lower(r.parentProcessName.value), needle))
    ensures TermMatches(env, r, Plain(needle)) <==> PlainMatches(env, r, needle)
  {
  }

  // ----- Terms against each other

  /** Two opposite terms share the visible rows between them. */
  ghost predicate Partitioned(rows: seq<Row<Slice>>, o: Options<Slice>, pool: set<nat>, x: seq<nat>, y: seq<nat>) {
    forall i | i in pool && i < |rows| && Visible(o, rows[i]) :: i in x <==> i !in y
  }

  lemma OppositeTerms(env: Env, mem: string, rows: seq<Row<Slice>>, o: Options<Slice>, p: Options<Slice>, pool: set<nat>,
                      x: seq<nat>, y: seq<nat>)
    requires (Lone(o, FamilyIs(true)) && Lone(p, FamilyIs(false))) || (Lone(o, ProtectedIs(true)) && Lone(p, ProtectedIs(false)))
    requires o.hideSystem == p.hideSystem
    requires Selected(env, mem, rows, o, pool, x) && Selected(env, mem, rows, p, pool, y)
    ensures Partitioned(rows, o, pool, x, y)
  {
    StructuredTerm(env, mem, rows, o, pool, x, o.filter.value[0]);
    StructuredTerm(env, mem, rows, p, pool, y, p.filter.value[0]);
    hide Selected;
  }

  /** A parent or label term returns nothing its text alone would not. */
  lemma NamedRefinesPlain(env: Env, mem: string, rows: seq<Row<Slice>>, o: Options<Slice>, p: Options<Slice>, pool: set<nat>,
                          x: seq<nat>, y: seq<nat>, needle: Slice)
    requires (Lone(o, Parent(needle)) || Lone(o, Label(needle))) && Lone(p, Plain(needle)) && o.hideSystem == p.hideSystem
    requires Selected(env, mem, rows, o, pool, x) && Selected(env, mem, rows, p, pool, y)
    ensures forall i | i in x :: i in y
  {
    hide PlainFactsMatch;
    hide ParentMatches;
    hide TextMatches;
    hide ResolveRow;
    forall i | i in x ensures i in y {
      assert o.filter.value[0] in o.filter.value;
      assert forall t | t in p.filter.value :: t == Plain(needle);
    }
  }

  // ----- The rest of a result

  /** When a query is refused, and why. */
  lemma RefusedExactly(env: Env, rows: seq<Row<string>>, o: Options<string>)
    ensures o.fullState ==> FreshQuery(env, rows, o) == Err(FullStateRequired)
    ensures !o.fullState && o.port == Some(0) ==> FreshQuery(env, rows, o) == Err(InvalidPort)
    ensures !o.fullState && o.port != Some(0) && o.process == Some("") ==> FreshQuery(env, rows, o) == Err(EmptyProcess)
    ensures !o.fullState && o.port != Some(0) && o.process != Some("") && o.filter.Err? ==>
              FreshQuery(env, rows, o) == Err(o.filter.error)
    ensures !o.fullState && o.port != Some(0) && o.process != Some("") && o.filter.Ok? ==> FreshQuery(env, rows, o).Ok?
  {
  }

  ghost predicate Distinct(c: seq<Candidate>) {
    forall i, j | 0 <= i < j < |c| :: c[i].index != c[j].index
  }

  lemma {:induction false} KeepsOnce(keep: Candidate -> bool, c: seq<Candidate>)
    requires Distinct(c)
    ensures Distinct(Filter(keep, c))
  {
    if c != [] {
      var rest := Filter(keep, c[1..]);
      KeepsOnce(keep, c[1..]);
      forall x | x in rest ensures x.index != c[0].index {
        var k :| 0 <= k < |c[1..]| && c[1..][k] == x;
        assert c[k+1] == x;
      }
      assert forall j | 0 <= j < |rest| :: rest[j] in rest;
      assert Distinct([c[0]] + rest);
    }
  }

  ghost function SystemRows(rows: seq<Row<string>>): set<nat> {
    set i | i in Below(|rows|) && i < |rows| && rows[i].isSystem
  }

  lemma ConcealedIndex(rows: seq<Row<string>>, o: Options<string>, i: nat)
    ensures i in Indices(Filter(Concealed(o), Candidates(rows))) <==> o.hideSystem && i in SystemRows(rows)
  {
    var all := Candidates(rows);
    IndexIn(Filter(Concealed(o), all), i);
    hide Below;
    if i < |rows| { assert all[i] == Candidate(i, rows[i]); }
  }

  /** How many rows were hidden: every system process, when they are to be hidden. */
  lemma HiddenCounted(env: Env, rows: seq<Row<string>>, o: Options<string>, q: QueryResult)
    requires FreshQuery(env, rows, o) == Ok(q)
    ensures q.hiddenCount == if o.hideSystem then |SystemRows(rows)| else 0
    ensures q.explicitFilter <==> o.port.Some? || o.process.Some? || (o.filter.Ok? && o.filter.value != [])
  {
    var indices := Indices(Filter(Concealed(o), Candidates(rows)));
    KeepsOnce(Concealed(o), Candidates(rows));
    DistinctSize(indices);
    hide SystemRows;
    hide Indices;
    forall i: nat ensures i in indices <==> o.hideSystem && i in SystemRows(rows) { ConcealedIndex(rows, o, i); }
    assert Elements(indices) == if o.hideSystem then SystemRows(rows) else {};
  }

  lemma {:induction false} DistinctSize(s: seq<nat>)
    requires forall i, j | 0 <= i < j < |s| :: s[i] != s[j]
    ensures |Elements(s)| == |s|
  {
    if s != [] {
      DistinctSize(s[1..]);
      assert s == [s[0]] + s[1..];
      assert Elements(s) == {s[0]} + Elements(s[1..]);
    }
  }

  // ----- What each mode sorts by

  /** Present values first, in ascending order. */
  ghost predicate NumberLeads(x: Option<nat>, y: Option<nat>) {
    y.Some? ==> x.Some? && x.value <= y.value
  }

  ghost predicate LexLeq(a: string, b: string) {
    a <= b || exists k :: 0 <= k < |a| && k < |b| && a[..k] == b[..k] && a[k] < b[k]
  }

  ghost predicate NameLeads(env: Env, x: Option<string>, y: Option<string>) {
    y.Some? ==> x.Some? && LexLeq(env.lower(x.value), env.lower(y.value))
  }

  ghost predicate SameName(env: Env, x: Option<string>, y: Option<string>) {
    if x.None? || y.None? then x.None? && y.None? else env.lower(x.value) == env.lower(y.value)
  }

  ghost predicate ScopeLeads(x: BindScope, y: BindScope) {
    x == Public || (x == LocalScope && y != Public) || y == Loopback
  }

  /** The key of the mode puts `x` no later than `y`. */
  ghost predicate Leads(env: Env, mode: SortMode, x: Row<string>, y: Row<string>) {
    match mode
    case ByPort => true
    case ByPid => NumberLeads(x.pid, y.pid)
    case ByProtocol => x.protocol == Tcp || y.protocol == Udp
    case ByProcess => NameLeads(env, x.processName, y.processName)
    case ByParent =>
      && NameLeads(env, x.parentProcessName, y.parentProcessName)
      && (SameName(env, x.parentProcessName, y.parentProcessName) ==> NumberLeads(x.parentPid, y.parentPid))
    case ByScope => ScopeLeads(x.bindScope, y.bindScope)
  }

  /** The key of the mode does not tell the two rows apart. */
  ghost predicate SameKey(env: Env, mode: SortMode, x: Row<string>, y: Row<string>) {
    match mode
    case ByPort => true
    case ByPid => x.pid == y.pid
    case ByProtocol => x.protocol == y.protocol
    case ByProcess => SameName(env, x.processName, y.processName)
    case ByParent => SameName(env, x.parentProcessName, y.parentProcessName) && x.parentPid == y.parentPid
    case ByScope => x.bindScope == y.bindScope
  }

  ghost predicate AddressLeads(x: Address, y: Address) {
    (x.V4? && y.V6?) || ((x.V4? <==> y.V4?) && x.octets <= y.octets)
  }

  /** Port, then protocol, then address, then PID, an unknown PID first. */
  ghost predicate TieLeads(x: Row<string>, y: Row<string>) {
    && x.localPort <= y.localPort
    && (x.localPort == y.localPort ==>
          && (x.protocol == Tcp || y.protocol == Udp)
          && (x.protocol == y.protocol ==>
                && AddressLeads(x.localAddr, y.localAddr)
                && (x.localAddr == y.localAddr ==> x.pid.Some? ==> y.pid.Some? && x.pid.value <= y.pid.value)))
  }

  lemma {:induction false} StringOrder(a: string, b: string)
    ensures CompareString(a, b) != Greater ==> LexLeq(a, b)
    ensures CompareString(a, b) == Equal <==> a == b
    decreases |a|
  {
    if a != [] && b != [] {
      StringOrder(a[1..], b[1..]);
      assert a == [a[0]] + a[1..] && b == [b[0]] + b[1..];
      if a[0] < b[0] {
        assert a[..0] == b[..0];
      } else if a[0] == b[0] && LexLeq(a[1..], b[1..]) && !(a[1..] <= b[1..]) {
        var k :| 0 <= k < |a[1..]| && k < |b[1..]| && a[1..][..k] == b[1..][..k] && a[1..][k] < b[1..][k];
        assert a[..k+1] == [a[0]] + a[1..][..k] && b[..k+1] == [b[0]] + b[1..][..k];
      }
    }
  }

  lemma NameOrder(env: Env, x: Option<string>, y: Option<string>)
    ensures var o := ComparePresent(CompareString, Lowered(env, x), Lowered(env, y));
      (o != Greater ==> NameLeads(env, x, y)) && (o == Equal <==> SameName(env, x, y))
  {
    if x.Some? && y.Some? { StringOrder(env.lower(x.value), env.lower(y.value)); }
    hide CompareString;
    hide LexLeq;
  }

  lemma PrimaryMeaning(env: Env, mode: SortMode, x: Row<string>, y: Row<string>)
    ensures ComparePrimary(env, mode, x, y) != Greater ==> Leads(env, mode, x, y)
    ensures ComparePrimary(env, mode, x, y) == Equal <==> SameKey(env, mode, x, y)
  {
    NameOrder(env, x.processName, y.processName);
    NameOrder(env, x.parentProcessName, y.parentProcessName);
    hide NameLeads;
    hide SameName;
    hide CompareString;
  }

  lemma TieMeaning(x: Row<string>, y: Row<string>)
    ensures CompareTieBreak(x, y) != Greater ==> TieLeads(x, y)
  {
  }

  /** Of any two returned rows the earlier one leads by the mode's key, and rows alike in it
      follow the tie-break. */
  lemma SortedByMode(env: Env, rows: seq<Row<string>>, o: Options<string>, q: QueryResult, a: nat, b: nat)
    requires FreshQuery(env, rows, o) == Ok(q) && a < b < |q.indices|
    ensures q.indices[a] < |rows| && q.indices[b] < |rows| && q.indices[a] != q.indices[b]
    ensures var x, y := rows[q.indices[a]], rows[q.indices[b]];
      && Leads(env, o.sortMode, x, y)
      && (SameKey(env, o.sortMode, x, y) ==> TieLeads(x, y))
  {
    var kept := Filter(Shown(env, o), Candidates(rows));
    KeepsOnce(Shown(env, o), Candidates(rows));
    var x, y := SortedPair(env, rows, o.sortMode, kept, a, b);
    hide Shown;
    hide Sort;
    PrimaryMeaning(env, o.sortMode, x.row, y.row);
    TieMeaning(x.row, y.row);
    hide ComparePrimary;
    hide CompareTieBreak;
    hide Leads;
    hide SameKey;
    hide TieLeads;
  }

  lemma SortedPair(env: Env, rows: seq<Row<string>>, mode: SortMode, kept: seq<Candidate>, a: nat, b: nat)
    returns (x: Candidate, y: Candidate)
    requires a < b < |Sort(RowOrder(env, mode), kept)|
    requires forall c | c in kept :: c.index < |rows| && c.row == rows[c.index]
    requires Distinct(kept)
    ensures var s := Sort(RowOrder(env, mode), kept); x == s[a] && y == s[b]
    ensures x.index < |rows| && x.row == rows[x.index] && y.index < |rows| && y.row == rows[y.index] && x.index != y.index
    ensures CompareCandidate(env, mode, x, y) != Greater
  {
    var order := RowOrder(env, mode);
    RowOrderStrict(env, mode);
    SortSorts(order, kept);
    hide CompareCandidate;
    var s := Sort(order, kept);
    x, y := s[a], s[b];
    assert x in multiset(s) && y in multiset(s);
    if x == y {
      TwiceCounted(s, a, b);
      OnceCounted(kept, x);
    }
  }

  lemma {:induction false} OnceCounted(c: seq<Candidate>, x: Candidate)
    requires Distinct(c)
    ensures multiset(c)[x] <= 1
  {
    if c != [] {
      OnceCounted(c[1..], x);
      assert c == [c[0]] + c[1..];
      assert forall k | 0 <= k < |c| - 1 :: c[1..][k] == c[k+1];
    }
  }

  /** The modes in the order a user cycles through them. */
  ghost function SortModes(): seq<SortMode> {
    [ByPort, ByPid, ByProtocol, ByProcess, ByParent, ByScope]
  }

  lemma ModesCycle(i: nat)
    requires i < |SortModes()|
    ensures SortModes()[i].Next() == SortModes()[if i == 5 then 0 else i + 1]
  {
  }

  // ----- What text a term finds

  /** A needle occurs in a text when the text can be cut around it. */
  lemma ContainsExactly(haystack: string, needle: string)
    ensures Contains(haystack, needle) <==> exists before, after :: haystack == before + needle + after
  {
    if i :| 0 <= i <= |haystack| && OccursAt(haystack, needle, i) {
      assert haystack == haystack[..i] + needle + haystack[i + |needle|..];
    }
    if before, after :| haystack == before + needle + after {
      assert haystack[|before|..|before| + |needle|] == needle;
      assert OccursAt(haystack, needle, |before|);
    }
  }

  ghost function DecimalValue(s: string): int {
    if s == "" then 0 else 10 * DecimalValue(s[..|s| - 1]) + (s[|s| - 1] as int - '0' as int)
  }

  /** Numbers are searched as they are written: digits that read back as the number, and no
      leading zero but for zero itself. */
  lemma {:induction false} DecimalReadsBack(n: nat)
    ensures DecimalValue(Decimal(n)) == n && AllDigits(Decimal(n)) && Decimal(n) != ""
    ensures n > 0 ==> Decimal(n)[0] != '0'
  {
    DecimalDigits(n);
    if n >= 10 {
      DecimalReadsBack(n / 10);
      assert Decimal(n)[..|Decimal(n)| - 1] == Decimal(n / 10);
    } else {
      assert Decimal(n)[..0] == "";
    }
  }

  /** What a plain term searches without looking at metadata. */
  ghost function Facts(env: Env, r: Row<string>): seq<string> {
    [if r.protocol == Tcp then "TCP" else "UDP", if r.state == PortListen then "LISTEN" else "BOUND",
     if r.bindScope == Public then "public" else if r.bindScope == LocalScope then "local" else "loopback",
     Decimal(r.localPort), env.addressText(r.localAddr)]
    + (if r.pid.Some? then [Decimal(r.pid.value)] else [])
    + (if r.parentPid.Some? then [Decimal(r.parentPid.value)] else [])
  }

  ghost function Texts(env: Env, r: Row<string>): seq<string> {
    (if r.tag.Some? then [env.lower(r.tag.value)] else [])
    + (if r.processName.Some? then [env.lower(r.processName.value)] else [])
    + (if r.executablePath.Some? then [env.lower(r.executablePath.value)] else [])
    + (if r.commandLine.Some? then [env.lower(r.commandLine.value)] else [])
    + (if r.parentProcessName.Some? then [env.lower(r.parentProcessName.value)] else [])
  }

  /** A plain term selects a row when one of its facts or texts contains the needle, or, for a
      needle with a colon, its printed endpoint does. */
  lemma PlainExactly(env: Env, r: Row<string>, needle: string)
    ensures PlainMatches(env, r, needle) <==>
      || (exists fact | fact in Facts(env, r) :: ContainsAscii(fact, needle))
      || (exists text | text in Texts(env, r) :: Contains(text, needle))
      || (':' in needle && SocketTextMatches(env, r, needle))
  {
    FactsFound(env, r, needle);
    TextsFound(env, r, needle);
    hide ContainsAscii;
    hide Contains;
    hide SocketTextMatches;
    hide Decimal;
    hide Facts;
    hide Texts;
  }

  lemma FactsFound(env: Env, r: Row<string>, needle: string)
    ensures (exists fact | fact in Facts(env, r) :: ContainsAscii(fact, needle)) <==>
      || ContainsAscii(if r.protocol == Tcp then "TCP" else "UDP", needle)
      || ContainsAscii(if r.state == PortListen then "LISTEN" else "BOUND", needle)
      || ContainsAscii(if r.bindScope == Public then "public" else if r.bindScope == LocalScope then "local" else "loopback", needle)
      || ContainsAscii(Decimal(r.localPort), needle) || ContainsAscii(env.addressText(r.localAddr), needle)
      || NumberMatches(r.pid, needle) || NumberMatches(r.parentPid, needle)
  {
    hide ContainsAscii;
    hide Decimal;
    var facts := Facts(env, r);
    assert forall i | 0 <= i < 5 :: facts[i] in facts;
    assert r.pid.Some? ==> facts[5] in facts;
    assert r.parentPid.Some? ==> facts[|facts| - 1] in facts;
  }

  lemma TextsFound(env: Env, r: Row<string>, needle: string)
    ensures (exists text | text in Texts(env, r) :: Contains(text, needle)) <==>
      || TextMatches(env, r.tag, needle) || TextMatches(env, r.processName, needle)
      || TextMatches(env, r.executablePath, needle) || TextMatches(env, r.commandLine, needle)
      || TextMatches(env, r.parentProcessName, needle)
  {
    hide Contains;
    forall text: string ensures text in Texts(env, r) <==>
      || (r.tag.Some? && text == env.lower(r.tag.value)) || (r.processName.Some? && text == env.lower(r.processName.value))
      || (r.executablePath.Some? && text == env.lower(r.executablePath.value))
      || (r.commandLine.Some? && text == env.lower(r.commandLine.value))
      || (r.parentProcessName.Some? && text == env.lower(r.parentProcessName.value)) {}
  }
}

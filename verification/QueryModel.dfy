/** What a query of `src/query.rs` means: plain conjunction of its terms, and the one order
    each sort mode defines. */
module QueryModel {
  import opened Orders
  import opened Observation

  // ----- Rows and terms, over any representation of text

  datatype PortState = PortListen | PortBound

  datatype BindScope = Public | LocalScope | Loopback

  /** The borrowed row the engine sees; `tag` is its configured label. Whether it is a system process and which scope its
      address binds are fixed functions of the other fields. */
  datatype Row<S> = Row(protocol: Protocol, localAddr: Address, localPort: nat, state: PortState, pid: Option<nat>,
                        processName: Option<S>, executablePath: Option<S>, commandLine: Option<S>,
                        parentPid: Option<nat>, parentProcessName: Option<S>, isProtected: bool,
                        isSystem: bool, bindScope: BindScope, ipv6Scope: Option<Ipv6Scope>, tag: Option<S>)

  datatype Term<S> =
    | Plain(needle: S)
    | PidIs(pid: nat)
    | PortIs(port: nat)
    | ProtocolIs(protocol: Protocol)
    | ScopeIs(scope: BindScope)
    | ProtectedIs(isProtected: bool)
    | Parent(needle: S)
    | Label(needle: S)
    | AddressIs(address: Address)
    | ScopeIdIs(scopeId: nat)
    | FamilyIs(v4: bool)

  datatype SortMode = ByPort | ByPid | ByProtocol | ByProcess | ByParent | ByScope {
    function Next(): SortMode {
      match this
      case ByPort => ByPid
      case ByPid => ByProtocol
      case ByProtocol => ByProcess
      case ByProcess => ByParent
      case ByParent => ByScope
      case ByScope => ByPort
    }
  }

  /** Text facts the engine takes from the standard library. */
  datatype Env = Env(lower: string -> string, addressText: Address -> string, normalize: Address -> Address)

  datatype QueryError = FullStateRequired | InvalidPort | EmptyProcess | BadFilter(code: nat)

  /** The parsed filter text is an input: either its terms or the parser's error. `fullState`
      asks for full socket-state entries, which the list engine does not have. */
  datatype Options<S> = Options(fullState: bool, port: Option<nat>, process: Option<S>, filter: Result<seq<Term<S>>, QueryError>,
                                sortMode: SortMode, hideSystem: bool)

  datatype QueryResult = QueryResult(indices: seq<nat>, explicitFilter: bool, hiddenCount: nat)

  // ----- Text

  predicate OccursAt(haystack: string, needle: string, i: nat) {
    i + |needle| <= |haystack| && haystack[i..i + |needle|] == needle
  }

  predicate Contains(haystack: string, needle: string) {
    exists i | 0 <= i <= |haystack| :: OccursAt(haystack, needle, i)
  }

  function AsciiLower(c: char): char {
    if 'A' <= c <= 'Z' then (c as int + 32) as char else c
  }

  /** `contains_ascii`, for the nonempty needles a parsed filter yields. */
  predicate ContainsAscii(haystack: string, needle: string) {
    Contains(Map(AsciiLower, haystack), Map(AsciiLower, needle))
  }

  function Decimal(n: nat): string {
    if n < 10 then [Digit(n)] else Decimal(n / 10) + [Digit(n % 10)]
  }

  function Digit(n: nat): char
    requires n < 10
  {
    ('0' as int + n) as char
  }

  predicate IsDigit(c: char) {
    '0' <= c <= '9'
  }

  predicate IsAddressChar(c: char) {
    IsDigit(c) || 'a' <= c <= 'f' || c == '.' || c == ':'
  }

  predicate AllDigits(s: string) {
    forall c | c in s :: IsDigit(c)
  }

  predicate AllAddressChars(s: string) {
    forall c | c in s :: IsAddressChar(c)
  }

  function ProtocolLabel(p: Protocol): string {
    if p.Tcp? then "TCP" else "UDP"
  }

  function StateLabel(s: PortState): string {
    if s.PortListen? then "LISTEN" else "BOUND"
  }

  function ScopeLabel(s: BindScope): string {
    match s
    case Public => "public"
    case LocalScope => "local"
    case Loopback => "loopback"
  }

  // ----- Meaning of a term

  predicate TextMatches(env: Env, value: Option<string>, needle: string) {
    value.Some? && Contains(env.lower(value.value), needle)
  }

  predicate NumberMatches(value: Option<nat>, needle: string) {
    value.Some? && ContainsAscii(Decimal(value.value), needle)
  }

  /** `socket_text_matches`: the row's endpoint as `a:p`, `[a]:p`, or with its IPv6 scope. */
  predicate SocketTextMatches(env: Env, r: Row<string>, needle: string) {
    var a, p := env.addressText(r.localAddr), Decimal(r.localPort);
    || ContainsAscii(a + ":" + p, needle)
    || ContainsAscii("[" + a + "]:" + p, needle)
    || (r.localAddr.V6? && match r.ipv6Scope
          case Some(InterfaceIndex(i)) => ContainsAscii("[" + a + "%" + Decimal(i) + "]:" + p, needle)
          case Some(Unscoped) => false
          case _ => ContainsAscii("[" + a + "%unavailable]:" + p, needle))
  }

  predicate ParentMatches(env: Env, r: Row<string>, needle: string) {
    NumberMatches(r.parentPid, needle) || TextMatches(env, r.parentProcessName, needle)
  }

  /** The part of a plain term that needs no metadata. Endpoint text is searched only for
      needles that contain a colon. */
  predicate PlainFactsMatch(env: Env, r: Row<string>, needle: string) {
    || ContainsAscii(ProtocolLabel(r.protocol), needle)
    || ContainsAscii(StateLabel(r.state), needle)
    || ContainsAscii(ScopeLabel(r.bindScope), needle)
    || ContainsAscii(Decimal(r.localPort), needle)
    || NumberMatches(r.pid, needle)
    || ContainsAscii(env.addressText(r.localAddr), needle)
    || (':' in needle && SocketTextMatches(env, r, needle))
  }

  predicate PlainMatches(env: Env, r: Row<string>, needle: string) {
    || PlainFactsMatch(env, r, needle)
    || TextMatches(env, r.tag, needle)
    || TextMatches(env, r.processName, needle)
    || TextMatches(env, r.executablePath, needle)
    || TextMatches(env, r.commandLine, needle)
    || ParentMatches(env, r, needle)
  }

  predicate TermMatches(env: Env, r: Row<string>, t: Term<string>) {
    match t
    case Plain(needle) => PlainMatches(env, r, needle)
    case PidIs(pid) => r.pid == Some(pid)
    case PortIs(port) => r.localPort == port
    case ProtocolIs(p) => r.protocol == p
    case ScopeIs(s) => r.bindScope == s
    case ProtectedIs(b) => r.isProtected == b
    case Parent(needle) => ParentMatches(env, r, needle)
    case Label(needle) => TextMatches(env, r.tag, needle)
    case AddressIs(a) => env.normalize(r.localAddr) == a
    case ScopeIdIs(i) => r.ipv6Scope == Some(InterfaceIndex(i))
    case FamilyIs(v4) => env.normalize(r.localAddr).V4? == v4
  }

  /** A row is shown when every condition of the query holds, in no particular order. */
  predicate Matches(env: Env, o: Options<string>, r: Row<string>)
    requires o.filter.Ok?
  {
    && (o.port.Some? ==> r.localPort == o.port.value)
    && (o.process.Some? ==> TextMatches(env, r.processName, env.lower(o.process.value)))
    && forall t | t in o.filter.value :: TermMatches(env, r, t)
  }

  predicate Hidden(hideSystem: bool, r: Row<string>) {
    hideSystem && r.isSystem
  }

  // ----- Meaning of an order

  datatype Candidate = Candidate(index: nat, row: Row<string>)

  /** Rust's `(x.is_none(), x)`: present values first, then by value. */
  function ComparePresent<T>(c: Comparator<T>, l: Option<T>, r: Option<T>): Ordering {
    match (l, r)
    case (Some(a), Some(b)) => c(a, b)
    case (Some(_), None) => Less
    case (None, Some(_)) => Greater
    case (None, None) => Equal
  }

  function Lowered(env: Env, name: Option<string>): Option<string> {
    if name.Some? then Some(env.lower(name.value)) else None
  }

  function ScopeRank(s: BindScope): nat {
    match s
    case Public => 0
    case LocalScope => 1
    case Loopback => 2
  }

  function ComparePrimary(env: Env, mode: SortMode, l: Row<string>, r: Row<string>): Ordering {
    match mode
    case ByPort => Equal
    case ByPid => ComparePresent(CompareNat, l.pid, r.pid)
    case ByProtocol => CompareProtocol(l.protocol, r.protocol)
    case ByProcess => ComparePresent(CompareString, Lowered(env, l.processName), Lowered(env, r.processName))
    case ByParent =>
      ComparePresent(CompareString, Lowered(env, l.parentProcessName), Lowered(env, r.parentProcessName))
      .Then(ComparePresent(CompareNat, l.parentPid, r.parentPid))
    case ByScope => CompareInt(ScopeRank(l.bindScope), ScopeRank(r.bindScope))
  }

  /** `SortTieBreak`: port, protocol, address, pid. */
  function CompareTieBreak(l: Row<string>, r: Row<string>): Ordering {
    CompareInt(l.localPort, r.localPort)
    .Then(CompareProtocol(l.protocol, r.protocol))
    .Then(CompareAddress(l.localAddr, r.localAddr))
    .Then(CompareOption(CompareNat, l.pid, r.pid))
  }

  function CompareCandidate(env: Env, mode: SortMode, l: Candidate, r: Candidate): Ordering {
    ComparePrimary(env, mode, l.row, r.row)
    .Then(CompareTieBreak(l.row, r.row))
    .Then(CompareInt(l.index, r.index))
  }

  function RowOrder(env: Env, mode: SortMode): Comparator<Candidate> {
    (l, r) => CompareCandidate(env, mode, l, r)
  }

  function Candidates(rows: seq<Row<string>>): (c: seq<Candidate>)
    ensures |c| == |rows| && forall i | 0 <= i < |rows| :: c[i] == Candidate(i, rows[i])
  {
    seq(|rows|, i requires 0 <= i < |rows| => Candidate(i, rows[i]))
  }

  function Indices(c: seq<Candidate>): seq<nat> {
    Map((x: Candidate) => x.index, c)
  }

  // ----- Meaning of a query

  function Shown(env: Env, o: Options<string>): Candidate -> bool
    requires o.filter.Ok?
  {
    (c: Candidate) => !Hidden(o.hideSystem, c.row) && Matches(env, o, c.row)
  }

  function Concealed(o: Options<string>): Candidate -> bool {
    (c: Candidate) => Hidden(o.hideSystem, c.row)
  }

  /** `prepare_query`'s refusals, in their order. */
  function Refusal(o: Options<string>): Option<QueryError> {
    if o.fullState then Some(FullStateRequired)
    else if o.port == Some(0) then Some(InvalidPort)
    else if o.process == Some("") then Some(EmptyProcess)
    else if o.filter.Err? then Some(o.filter.error)
    else None
  }

  predicate ExplicitFilter(o: Options<string>)
    requires o.filter.Ok?
  {
    o.port.Some? || o.process.Some? || o.filter.value != []
  }

  /** Filter, then sort: the fresh query. */
  function FreshQuery(env: Env, rows: seq<Row<string>>, o: Options<string>): Result<QueryResult, QueryError> {
    if Refusal(o).Some? then Err(Refusal(o).value)
    else
      var all := Candidates(rows);
      Ok(QueryResult(Indices(Sort(RowOrder(env, o.sortMode), Filter(Shown(env, o), all))),
                     ExplicitFilter(o), |Filter(Concealed(o), all)|))
  }

  function Pick(rows: seq<Row<string>>, indices: seq<nat>): seq<Candidate>
    requires forall i | 0 <= i < |indices| :: indices[i] < |rows|
  {
    seq(|indices|, i requires 0 <= i < |indices| => Candidate(indices[i], rows[indices[i]]))
  }

  /** Filter rows already in display order. */
  function FilterPreordered(env: Env, rows: seq<Row<string>>, preordered: seq<nat>, o: Options<string>): Result<QueryResult, QueryError>
    requires forall i | 0 <= i < |preordered| :: preordered[i] < |rows|
  {
    if Refusal(o).Some? then Err(Refusal(o).value)
    else
      var all := Pick(rows, preordered);
      Ok(QueryResult(Indices(Filter(Shown(env, o), all)), ExplicitFilter(o), |Filter(Concealed(o), all)|))
  }

  /** The unfiltered display order of one sort mode. */
  function DisplayOrder(env: Env, rows: seq<Row<string>>, mode: SortMode): seq<nat> {
    Indices(Sort(RowOrder(env, mode), Candidates(rows)))
  }

  // ----- The order is strict and total

  lemma PresentLawful<T(!new)>(c: Comparator<T>, x: Option<T>, y: Option<T>, z: Option<T>)
    requires Lawful(c)
    ensures LawfulAt((l, r) => ComparePresent(c, l, r), x, y, z)
  {
    if x.Some? && y.Some? && z.Some? {
      assert LawfulAt(c, x.value, y.value, z.value);
    } else if x.Some? && y.Some? {
      assert LawfulAt(c, x.value, y.value, y.value);
    } else if x.Some? {
      assert LawfulAt(c, x.value, x.value, x.value);
    }
  }

  lemma PrimaryLawful(env: Env, mode: SortMode, x: Row<string>, y: Row<string>, z: Row<string>)
    ensures LawfulAt((l, r) => ComparePrimary(env, mode, l, r), x, y, z)
  {
    hide ComparePresent;
    PresentLawful(CompareNat, x.pid, y.pid, z.pid) by { OptionNatLawful(); }
    PresentLawful(CompareNat, x.parentPid, y.parentPid, z.parentPid) by { OptionNatLawful(); }
    PresentLawful(CompareString, Lowered(env, x.processName), Lowered(env, y.processName), Lowered(env, z.processName)) by {
      StringLawful();
    }
    PresentLawful(CompareString, Lowered(env, x.parentProcessName), Lowered(env, y.parentProcessName),
                  Lowered(env, z.parentProcessName)) by { StringLawful(); }
  }

  lemma TieBreakLawful(x: Row<string>, y: Row<string>, z: Row<string>)
    ensures LawfulAt(CompareTieBreak, x, y, z)
  {
    AddressLawful(x.localAddr, y.localAddr, z.localAddr);
    assert LawfulAt(OnOptions(CompareNat), x.pid, y.pid, z.pid) by { OptionNatLawful(); }
    hide CompareAddress;
    hide CompareOption;
    var port := Compared<int>(CompareInt, x.localPort, y.localPort, z.localPort);
    var protocol := Compared(CompareProtocol, x.protocol, y.protocol, z.protocol);
    var address := Compared(CompareAddress, x.localAddr, y.localAddr, z.localAddr);
    var pid := Compared(OnOptions(CompareNat), x.pid, y.pid, z.pid);
    ThenLawful(port, protocol);
    ThenLawful(port.Then(protocol), address);
    ThenLawful(port.Then(protocol).Then(address), pid);
    assert Compared(CompareTieBreak, x, y, z) == port.Then(protocol).Then(address).Then(pid);
  }

  lemma CandidateLawful(env: Env, mode: SortMode, x: Candidate, y: Candidate, z: Candidate)
    ensures LawfulAt(RowOrder(env, mode), x, y, z)
    ensures RowOrder(env, mode)(x, y) == Equal ==> x.index == y.index
  {
    hide ComparePrimary;
    hide CompareTieBreak;
    PrimaryLawful(env, mode, x.row, y.row, z.row);
    TieBreakLawful(x.row, y.row, z.row);
  }

  /** With the source index as last tie-break the order is strict: no two rows tie. */
  lemma RowOrderStrict(env: Env, mode: SortMode)
    ensures Lawful(RowOrder(env, mode))
    ensures forall x, y :: RowOrder(env, mode)(x, y) == Equal ==> x.index == y.index
  {
    hide CompareCandidate;
    forall x, y, z ensures LawfulAt(RowOrder(env, mode), x, y, z) { CandidateLawful(env, mode, x, y, z); }
    forall x, y ensures RowOrder(env, mode)(x, y) == Equal ==> x.index == y.index { CandidateLawful(env, mode, x, y, y); }
  }

  // ----- Sorting and filtering commute

  lemma {:induction false} FilterSorted<T>(c: Comparator<T>, keep: T -> bool, s: seq<T>)
    requires Sorted(c, s)
    ensures Sorted(c, Filter(keep, s))
  {
    if s != [] {
      assert s == [s[0]] + s[1..];
      FilterSorted(c, keep, s[1..]);
      var rest := Filter(keep, s[1..]);
      forall j | 0 <= j < |rest| ensures c(s[0], rest[j]) != Greater {
        assert rest[j] in s[1..];
      }
    }
  }

  lemma SortFilterCommute<T(!new)>(c: Comparator<T>, keep: T -> bool, s: seq<T>)
    requires Lawful(c)
    requires forall x, y | x in s && y in s && c(x, y) == Equal :: x == y
    ensures Filter(keep, Sort(c, s)) == Sort(c, Filter(keep, s))
  {
    SortSorts(c, s);
    SortSorts(c, Filter(keep, s));
    FilterSorted(c, keep, Sort(c, s));
    FilterPermutes(keep, Sort(c, s), s);
    var a, b := Filter(keep, Sort(c, s)), Sort(c, Filter(keep, s));
    forall i, j | 0 <= i < |a| && 0 <= j < |b| && c(a[i], b[j]) == Equal ensures a[i] == b[j] {
      assert a[i] in Sort(c, s) && a[i] in multiset(s);
      assert b[j] in multiset(Filter(keep, s)) && b[j] in Filter(keep, s);
    }
    SortedUnique(c, a, b);
  }

  lemma PickIndices(rows: seq<Row<string>>, c: seq<Candidate>)
    requires forall x | x in c :: x.index < |rows| && x.row == rows[x.index]
    ensures forall i | 0 <= i < |c| :: Indices(c)[i] < |rows|
    ensures Pick(rows, Indices(c)) == c
  {
    assert forall i | 0 <= i < |c| :: c[i] in c;
  }

  /** The display order lists every row once, at its own index. */
  lemma DisplayOrderValid(env: Env, rows: seq<Row<string>>, mode: SortMode)
    ensures |DisplayOrder(env, rows, mode)| == |rows|
    ensures forall i | 0 <= i < |rows| :: DisplayOrder(env, rows, mode)[i] < |rows|
    ensures Pick(rows, DisplayOrder(env, rows, mode)) == Sort(RowOrder(env, mode), Candidates(rows))
  {
    var all := Candidates(rows);
    RowOrderStrict(env, mode);
    SortSorts(RowOrder(env, mode), all);
    var sorted := Sort(RowOrder(env, mode), all);
    forall x | x in sorted ensures x.index < |rows| && x.row == rows[x.index] {
      assert x in multiset(all);
    }
    PickIndices(rows, sorted);
  }

  /** Filtering the sorted permutation equals sorting the filtered rows: same indices, same
      hidden count, for every sort mode and every filter. */
  lemma PreorderedAgrees(env: Env, rows: seq<Row<string>>, o: Options<string>)
    ensures forall i | 0 <= i < |DisplayOrder(env, rows, o.sortMode)| :: DisplayOrder(env, rows, o.sortMode)[i] < |rows|
    ensures FilterPreordered(env, rows, DisplayOrder(env, rows, o.sortMode), o) == FreshQuery(env, rows, o)
  {
    hide Matches;
    hide Hidden;
    DisplayOrderValid(env, rows, o.sortMode);
    if Refusal(o).None? {
      var all, order := Candidates(rows), RowOrder(env, o.sortMode);
      RowOrderStrict(env, o.sortMode);
      forall x, y | x in all && y in all && order(x, y) == Equal ensures x == y {}
      SortFilterCommute(order, Shown(env, o), all);
      SortSorts(order, all);
      FilterPermutes(Concealed(o), Sort(order, all), all);
      MultisetSize(Filter(Concealed(o), Sort(order, all)), Filter(Concealed(o), all));
    }
  }

  /** An unfiltered query shows the whole display order. */
  lemma UnfilteredIsDisplayOrder(env: Env, rows: seq<Row<string>>, o: Options<string>)
    requires Refusal(o).None? && !ExplicitFilter(o) && !o.hideSystem
    ensures FreshQuery(env, rows, o) == Ok(QueryResult(DisplayOrder(env, rows, o.sortMode), false, 0))
  {
    FilterAll(Shown(env, o), Candidates(rows));
    FilterNone(Concealed(o), Candidates(rows));
  }
}

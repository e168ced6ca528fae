/** The filter-and-sort engine of `src/query.rs`: prepared terms ordered by cost, gated text
    searches, memo tables and compact sort keys, proved against the plain meaning of a query. */
module QueryEngine {
  import opened Orders
  import opened Observation
  import opened QueryModel
  import opened QueryCaches

  // ----- Borrowed rows and terms, and the text they denote

  function ResolveText(mem: string, s: Option<Slice>): Option<string> {
    if s.Some? then Some(Text(mem, s.value)) else None
  }

  function ResolveRow(mem: string, r: Row<Slice>): Row<string> {
    Row(r.protocol, r.localAddr, r.localPort, r.state, r.pid, ResolveText(mem, r.processName),
        ResolveText(mem, r.executablePath), ResolveText(mem, r.commandLine), r.parentPid,
        ResolveText(mem, r.parentProcessName), r.isProtected, r.isSystem, r.bindScope, r.ipv6Scope,
        ResolveText(mem, r.tag))
  }

  function ResolveTerm(mem: string, t: Term<Slice>): Term<string> {
    match t
    case Plain(n) => Plain(Text(mem, n))
    case PidIs(p) => PidIs(p)
    case PortIs(p) => PortIs(p)
    case ProtocolIs(p) => ProtocolIs(p)
    case ScopeIs(s) => ScopeIs(s)
    case ProtectedIs(b) => ProtectedIs(b)
    case Parent(n) => Parent(Text(mem, n))
    case Label(n) => Label(Text(mem, n))
    case AddressIs(a) => AddressIs(a)
    case ScopeIdIs(i) => ScopeIdIs(i)
    case FamilyIs(v4) => FamilyIs(v4)
  }

  function ResolveRows(mem: string, rows: seq<Row<Slice>>): seq<Row<string>> {
    Map(r => ResolveRow(mem, r), rows)
  }

  function ResolveTerms(mem: string, terms: seq<Term<Slice>>): seq<Term<string>> {
    Map(t => ResolveTerm(mem, t), terms)
  }

  function ResolveOptions(mem: string, o: Options<Slice>): Options<string> {
    Options(o.fullState, o.port, ResolveText(mem, o.process),
            if o.filter.Ok? then Ok(ResolveTerms(mem, o.filter.value)) else Err(o.filter.error),
            o.sortMode, o.hideSystem)
  }

  predicate NoUpper(s: string) {
    forall c | c in s :: !('A' <= c <= 'Z')
  }

  /** What parsing guarantees about needles: they were lowered. */
  ghost predicate LoweredNeedles(mem: string, o: Options<Slice>) {
    o.filter.Ok? ==> forall t | t in o.filter.value && t.Plain? :: NoUpper(Text(mem, t.needle))
  }

  /** Addresses print as digits, `a`-`f`, dots and colons. */
  ghost predicate AddressTextPlain(env: Env) {
    forall a :: AllAddressChars(env.addressText(a))
  }

  // ----- Prepared terms

  datatype Shape = Shape(decimal: bool, address: bool, endpoint: bool)

  /** `PlainNeedleShape::new` */
  function ShapeOf(needle: string): Shape {
    Shape(AllDigits(needle), AllAddressChars(needle), ':' in needle)
  }

  datatype PreparedTerm = PreparedTerm(term: Term<Slice>, shape: Option<Shape>)

  function Prepare(mem: string, t: Term<Slice>): PreparedTerm {
    PreparedTerm(t, if t.Plain? then Some(ShapeOf(Text(mem, t.needle))) else None)
  }

  function Cost(t: PreparedTerm): nat {
    match t.term
    case PidIs(_) => 0
    case PortIs(_) => 0
    case AddressIs(_) => 0
    case ScopeIdIs(_) => 0
    case ProtocolIs(_) => 1
    case ScopeIs(_) => 1
    case ProtectedIs(_) => 1
    case FamilyIs(_) => 1
    case Label(_) => 2
    case Parent(_) => 2
    case Plain(_) => 3
  }

  function CompareCost(l: PreparedTerm, r: PreparedTerm): Ordering {
    CompareInt(Cost(l), Cost(r))
  }

  function MetadataNeedles(terms: seq<PreparedTerm>): seq<Slice> {
    if terms == [] then []
    else
      var t := terms[0].term;
      (if t.Plain? || t.Parent? || t.Label? then [t.needle] else []) + MetadataNeedles(terms[1..])
  }

  /** `metadata_needle_mode`: no needle, one, or several. */
  function ModeOf(terms: seq<PreparedTerm>, process: Option<Slice>): NeedleMode {
    var needles := (if process.Some? then [process.value] else []) + MetadataNeedles(terms);
    if |needles| == 0 then NoNeedle else if |needles| == 1 then SingleNeedle(needles[0]) else MultipleNeedles
  }

  datatype Plan = Plan(port: Option<nat>, process: Option<Slice>, cheapTerms: seq<PreparedTerm>,
                       metadataTerms: seq<PreparedTerm>, mode: NeedleMode, hideSystem: bool, explicitFilter: bool)

  ghost predicate PlanFor(mem: string, o: Options<Slice>, needle: Slice, p: Plan)
    requires o.filter.Ok?
  {
    && p.port == o.port && p.hideSystem == o.hideSystem
    && p.process == (if o.process.Some? then Some(needle) else None)
    && multiset(p.cheapTerms + p.metadataTerms) == multiset(Map(t => Prepare(mem, t), o.filter.value))
    && (forall t | t in p.cheapTerms :: Cost(t) <= 1)
    && (forall t | t in p.metadataTerms :: Cost(t) > 1)
    && p.explicitFilter == (o.port.Some? || o.process.Some? || o.filter.value != [])
  }

  lemma CostLawful()
    ensures Lawful(CompareCost)
  {
    forall x, y, z ensures LawfulAt(CompareCost, x, y, z) {}
  }

  /** Sorting by cost and cutting where metadata begins. */
  method SplitByCost(prepared: seq<PreparedTerm>) returns (cheap: seq<PreparedTerm>, metadata: seq<PreparedTerm>)
    ensures multiset(cheap + metadata) == multiset(prepared)
    ensures forall t | t in cheap :: Cost(t) <= 1
    ensures forall t | t in metadata :: Cost(t) > 1
  {
    hide Cost;
    CostLawful();
    SortSorts(CompareCost, prepared);
    var terms := Sort(CompareCost, prepared);
    var n := 0;
    while n < |terms| && Cost(terms[n]) <= 1
      invariant 0 <= n <= |terms|
      invariant forall i | 0 <= i < n :: Cost(terms[i]) <= 1
    {
      n := n + 1;
    }
    forall i | n <= i < |terms| ensures Cost(terms[i]) > 1 {
      assert CompareCost(terms[n], terms[i]) != Greater;
    }
    cheap, metadata := terms[..n], terms[n..];
    assert cheap + metadata == terms;
  }

  /** `QueryFilterPlan::new` */
  method BuildPlan(mem: string, o: Options<Slice>, needle: Slice, terms: seq<Term<Slice>>) returns (p: Plan)
    requires o.filter == Ok(terms)
    ensures PlanFor(mem, o, needle, p)
  {
    hide Cost;
    hide ModeOf;
    hide Prepare;
    var cheap, metadata := SplitByCost(Map(t => Prepare(mem, t), terms));
    MultisetSize(cheap + metadata, Map(t => Prepare(mem, t), terms));
    var process := if o.process.Some? then Some(needle) else None;
    p := Plan(o.port, process, cheap, metadata, ModeOf(cheap + metadata, process), o.hideSystem,
              o.port.Some? || o.process.Some? || cheap + metadata != []);
  }

  /** `prepare_query`. The lowered process name lies at `needle`. */
  method PrepareQuery(mem: string, o: Options<Slice>, needle: Slice) returns (r: Result<Plan, QueryError>)
    ensures r.Err? <==> Refusal(ResolveOptions(mem, o)).Some?
    ensures r.Err? ==> r.error == Refusal(ResolveOptions(mem, o)).value
    ensures r.Ok? ==> PlanFor(mem, o, needle, r.value)
  {
    hide PlanFor;
    hide Map;
    hide Text;
    if o.fullState {
      return Err(FullStateRequired);
    }
    if o.port == Some(0) {
      return Err(InvalidPort);
    }
    if o.process.Some? && Text(mem, o.process.value) == "" {
      return Err(EmptyProcess);
    }
    if o.filter.Err? {
      return Err(o.filter.error);
    }
    var plan := BuildPlan(mem, o, needle, o.filter.value);
    r := Ok(plan);
  }

  // ----- Gates

  lemma {:induction false} MapMember(s: string, c: char)
    ensures c in s ==> AsciiLower(c) in Map(AsciiLower, s)
    ensures c in Map(AsciiLower, s) ==> exists d | d in s :: AsciiLower(d) == c
  {
    if s != [] {
      MapMember(s[1..], c);
      assert s == [s[0]] + s[1..];
    }
  }

  /** Every character of a found needle occurs in the haystack, up to ASCII case. */
  lemma FoundCharacters(haystack: string, needle: string, c: char)
    requires ContainsAscii(haystack, needle) && c in needle
    ensures exists d | d in haystack :: AsciiLower(d) == AsciiLower(c)
  {
    var h, n := Map(AsciiLower, haystack), Map(AsciiLower, needle);
    var i :| 0 <= i <= |h| && OccursAt(h, n, i);
    MapMember(needle, c);
    var k :| 0 <= k < |n| && n[k] == AsciiLower(c);
    assert h[i..i + |n|][k] == h[i + k];
    MapMember(haystack, h[i + k]);
  }

  lemma {:induction false} DecimalDigits(n: nat)
    ensures AllDigits(Decimal(n))
  {
    if n >= 10 {
      DecimalDigits(n / 10);
    }
  }

  /** A number can only contain a needle made of digits, so the gate loses nothing. */
  lemma DecimalGate(n: nat, needle: string)
    ensures ContainsAscii(Decimal(n), needle) ==> AllDigits(needle)
  {
    DecimalDigits(n);
    if ContainsAscii(Decimal(n), needle) {
      forall c | c in needle ensures IsDigit(c) {
        FoundCharacters(Decimal(n), needle, c);
      }
    }
  }

  /** An address can only contain a lowered needle made of its own characters. */
  lemma AddressGate(text: string, needle: string)
    requires AllAddressChars(text) && NoUpper(needle)
    ensures ContainsAscii(text, needle) ==> AllAddressChars(needle)
  {
    if ContainsAscii(text, needle) {
      forall c | c in needle ensures IsAddressChar(c) {
        FoundCharacters(text, needle, c);
      }
    }
  }

  /** The gated test the engine runs before it touches metadata. */
  predicate GatedFacts(env: Env, r: Row<string>, needle: string, shape: Shape) {
    || ContainsAscii(ProtocolLabel(r.protocol), needle)
    || ContainsAscii(StateLabel(r.state), needle)
    || ContainsAscii(ScopeLabel(r.bindScope), needle)
    || (shape.decimal && ContainsAscii(Decimal(r.localPort), needle))
    || (shape.decimal && NumberMatches(r.pid, needle))
    || (shape.address && ContainsAscii(env.addressText(r.localAddr), needle))
    || (shape.endpoint && SocketTextMatches(env, r, needle))
  }

  /** The precomputed shape of a needle never changes an answer. */
  lemma GatesInvisible(env: Env, r: Row<string>, needle: string)
    requires AddressTextPlain(env) && NoUpper(needle)
    ensures GatedFacts(env, r, needle, ShapeOf(needle)) == PlainFactsMatch(env, r, needle)
  {
    hide ContainsAscii;
    hide SocketTextMatches;
    DecimalGate(r.localPort, needle);
    if r.pid.Some? { DecimalGate(r.pid.value, needle); }
    AddressGate(env.addressText(r.localAddr), needle);
  }

  lemma HoldsSeparator(x: string, separator: char, y: string, needle: string, i: nat)
    requires OccursAt(x + [separator] + y, needle, i) && i <= |x| < i + |needle|
    ensures separator in needle
  {
    var h := x + [separator] + y;
    assert needle[|x| - i] == h[i..i + |needle|][|x| - i] == h[|x|] == separator;
  }

  lemma FoundOnOneSide(x: string, separator: char, y: string, needle: string, i: nat)
    requires separator !in needle && OccursAt(x + [separator] + y, needle, i)
    ensures OccursAt(x, needle, i) || (i > |x| && OccursAt(y, needle, i - |x| - 1))
  {
    var h := x + [separator] + y;
    if i + |needle| <= |x| {
      assert h[i..i + |needle|] == x[i..i + |needle|];
    } else if i > |x| {
      assert h[i..i + |needle|] == y[i - |x| - 1..i - |x| - 1 + |needle|];
    } else {
      HoldsSeparator(x, separator, y, needle, i);
      assert false;
    }
  }

  lemma StillFound(before: string, x: string, after: string, needle: string, i: nat)
    requires OccursAt(x, needle, i)
    ensures OccursAt(before + x + after, needle, |before| + i)
  {
    assert (before + x + after)[|before| + i..|before| + i + |needle|] == x[i..i + |needle|];
  }

  /** A needle without the separator lies on one side of it. */
  lemma ContainsCut(x: string, separator: char, y: string, needle: string)
    requires separator !in needle
    ensures Contains(x + [separator] + y, needle) <==> Contains(x, needle) || Contains(y, needle)
  {
    hide OccursAt;
    var h := x + [separator] + y;
    if i :| 0 <= i <= |h| && OccursAt(h, needle, i) {
      OccursWithin(h, needle, i);
      FoundOnOneSide(x, separator, y, needle, i);
      if OccursAt(x, needle, i) { OccursWithin(x, needle, i); }
    }
    if i :| 0 <= i <= |x| && OccursAt(x, needle, i) {
      StillFound("", x, [separator] + y, needle, i);
      assert "" + x + ([separator] + y) == h;
    }
    if i :| 0 <= i <= |y| && OccursAt(y, needle, i) {
      StillFound(x + [separator], y, "", needle, i);
      assert x + [separator] + y + "" == h;
    }
  }

  lemma OccursWithin(haystack: string, needle: string, i: nat)
    requires OccursAt(haystack, needle, i)
    ensures i <= |haystack|
  {
  }

  predicate Punctuation(c: char) {
    c == ':' || c == '[' || c == ']' || c == '%'
  }

  lemma AsciiCut(x: string, separator: char, y: string, needle: string)
    requires Punctuation(separator) && separator !in needle
    ensures ContainsAscii(x + [separator] + y, needle) <==> ContainsAscii(x, needle) || ContainsAscii(y, needle)
  {
    hide Contains;
    MapMember(needle, separator);
    MapAppend(AsciiLower, x + [separator], y);
    MapAppend(AsciiLower, x, [separator]);
    assert Map(AsciiLower, [separator]) == [separator];
    ContainsCut(Map(AsciiLower, x), separator, Map(AsciiLower, y), Map(AsciiLower, needle));
  }

  /** The scope an IPv6 endpoint is printed with, if any. */
  function ScopeText(r: Row<string>): Option<string> {
    if !r.localAddr.V6? then None
    else match r.ipv6Scope
      case Some(InterfaceIndex(i)) => Some(Decimal(i))
      case Some(Unscoped) => None
      case _ => Some("unavailable")
  }

  /** The bracketed host of the row's endpoint, plain or with its scope, contains the needle. */
  predicate BracketMatches(env: Env, r: Row<string>, needle: string) {
    var a := env.addressText(r.localAddr);
    || ContainsAscii("[" + a + "]", needle)
    || (ScopeText(r).Some? && ContainsAscii("[" + a + "%" + ScopeText(r).value + "]", needle))
  }

  /** A plain term's facts as they would be without the endpoint gate. */
  predicate UngatedFacts(env: Env, r: Row<string>, needle: string) {
    PlainFactsMatch(env, r, needle) || SocketTextMatches(env, r, needle)
  }

  /** A colon-free needle found in host, colon and port is in one of the two. */
  lemma HostOrPort(host: string, port: string, needle: string)
    requires ':' !in needle
    ensures ContainsAscii(host + ":" + port, needle) <==> ContainsAscii(host, needle) || ContainsAscii(port, needle)
  {
    AsciiCut(host, ':', port, needle);
  }

  /** The three printed endpoints, each as a host, a colon and the port. */
  lemma EndpointTexts(env: Env, r: Row<string>, needle: string)
    ensures var a, p := env.addressText(r.localAddr), Decimal(r.localPort);
      SocketTextMatches(env, r, needle) <==>
        || ContainsAscii(a + ":" + p, needle)
        || ContainsAscii(("[" + a + "]") + ":" + p, needle)
        || (ScopeText(r).Some? && ContainsAscii(("[" + a + "%" + ScopeText(r).value + "]") + ":" + p, needle))
  {
    hide ContainsAscii;
    hide Decimal;
    var a, p := env.addressText(r.localAddr), Decimal(r.localPort);
    assert ("[" + a + "]") + ":" + p == "[" + a + "]:" + p;
    if ScopeText(r).Some? {
      var scope := ScopeText(r).value;
      assert ("[" + a + "%" + scope + "]") + ":" + p == "[" + a + "%" + scope + "]:" + p;
      assert "[" + a + "%" + "unavailable" + "]:" + p == "[" + a + "%unavailable]:" + p;
    }
  }

  /** What the endpoint gate costs: it hides exactly the colon-free needles that only the
      bracketed host contains. */
  lemma EndpointGateExactly(env: Env, r: Row<string>, needle: string)
    ensures UngatedFacts(env, r, needle) <==>
              PlainFactsMatch(env, r, needle) || (':' !in needle && BracketMatches(env, r, needle))
  {
    EndpointTexts(env, r, needle);
    hide ContainsAscii;
    hide SocketTextMatches;
    hide Decimal;
    if ':' !in needle {
      var a, p := env.addressText(r.localAddr), Decimal(r.localPort);
      HostOrPort(a, p, needle);
      HostOrPort("[" + a + "]", p, needle);
      if ScopeText(r).Some? { HostOrPort("[" + a + "%" + ScopeText(r).value + "]", p, needle); }
    }
  }

  /** Without brackets or a percent sign in the needle, only the scope text can be missed. */
  lemma BracketsAddScope(env: Env, r: Row<string>, needle: string)
    requires '[' !in needle && ']' !in needle && '%' !in needle
    ensures BracketMatches(env, r, needle) <==>
              || ContainsAscii(env.addressText(r.localAddr), needle)
              || (ScopeText(r).Some? && ContainsAscii(ScopeText(r).value, needle))
  {
    hide ContainsAscii;
    hide Decimal;
    var a := env.addressText(r.localAddr);
    BracketCut(a, needle);
    if ScopeText(r).Some? {
      BracketCut(a + "%" + ScopeText(r).value, needle);
      AsciiCut(a, '%', ScopeText(r).value, needle);
      assert "[" + a + "%" + ScopeText(r).value + "]" == "[" + (a + "%" + ScopeText(r).value) + "]";
    }
  }

  lemma EmptyHost(needle: string)
    ensures ContainsAscii("", needle) ==> needle == ""
    ensures needle == "" ==> forall x {:trigger ContainsAscii(x, needle)} :: ContainsAscii(x, needle)
  {
    assert forall x {:trigger Map(AsciiLower, x)} :: needle == "" ==> OccursAt(Map(AsciiLower, x), Map(AsciiLower, needle), 0);
  }

  lemma BracketCut(host: string, needle: string)
    requires '[' !in needle && ']' !in needle
    ensures ContainsAscii("[" + host + "]", needle) <==> ContainsAscii(host, needle)
  {
    hide ContainsAscii;
    AsciiCut("", '[', host + "]", needle);
    AsciiCut(host, ']', "", needle);
    EmptyHost(needle);
    assert "[" + host + "]" == "" + ['['] + (host + "]");
    assert host + "]" == host + [']'] + "";
  }

  // ----- Matching one row

  /** The cache belongs to this query: same memory, same lowering. */
  ghost predicate CacheFor(cache: MetadataMatchCache, mem: string, env: Env)
    reads cache, cache.normalization
  {
    cache.Valid() && cache.normalization.mem == mem && cache.normalization.lower == env.lower
  }

  method OptionalText(env: Env, mem: string, value: Option<Slice>, needle: Slice, cache: MetadataMatchCache)
    returns (found: bool)
    requires CacheFor(cache, mem, env)
    modifies cache, cache.normalization
    ensures CacheFor(cache, mem, env) && old(cache.normalization.values) <= cache.normalization.values
    ensures found == TextMatches(env, ResolveText(mem, value), Text(mem, needle))
  {
    found := false;
    if value.Some? {
      found := cache.ContainsText(value.value, needle);
    }
  }

  method ParentText(env: Env, mem: string, r: Row<Slice>, needle: Slice, cache: MetadataMatchCache) returns (found: bool)
    requires CacheFor(cache, mem, env)
    modifies cache, cache.normalization
    ensures CacheFor(cache, mem, env) && old(cache.normalization.values) <= cache.normalization.values
    ensures found == ParentMatches(env, ResolveRow(mem, r), Text(mem, needle))
  {
    if NumberMatches(r.parentPid, Text(mem, needle)) {
      return true;
    }
    found := OptionalText(env, mem, r.parentProcessName, needle, cache);
  }

  /** `plain_matches` */
  method PlainText(env: Env, mem: string, r: Row<Slice>, needle: Slice, shape: Shape, cache: MetadataMatchCache)
    returns (found: bool)
    requires CacheFor(cache, mem, env) && AddressTextPlain(env) && NoUpper(Text(mem, needle))
    requires shape == ShapeOf(Text(mem, needle))
    modifies cache, cache.normalization
    ensures CacheFor(cache, mem, env) && old(cache.normalization.values) <= cache.normalization.values
    ensures found == PlainMatches(env, ResolveRow(mem, r), Text(mem, needle))
  {
    hide PlainFactsMatch;
    hide TextMatches;
    hide ParentMatches;
    hide CacheFor;
    GatesInvisible(env, ResolveRow(mem, r), Text(mem, needle));
    if GatedFacts(env, ResolveRow(mem, r), Text(mem, needle), shape) {
      return true;
    }
    found := OptionalText(env, mem, r.tag, needle, cache);
    if found { return; }
    found := OptionalText(env, mem, r.processName, needle, cache);
    if found { return; }
    found := OptionalText(env, mem, r.executablePath, needle, cache);
    if found { return; }
    found := OptionalText(env, mem, r.commandLine, needle, cache);
    if found { return; }
    found := ParentText(env, mem, r, needle, cache);
  }

  /** `term_matches` */
  method MatchTerm(env: Env, mem: string, r: Row<Slice>, t: PreparedTerm, cache: MetadataMatchCache) returns (found: bool)
    requires CacheFor(cache, mem, env) && AddressTextPlain(env)
    requires t == Prepare(mem, t.term) && (t.term.Plain? ==> NoUpper(Text(mem, t.term.needle)))
    modifies cache, cache.normalization
    ensures CacheFor(cache, mem, env) && old(cache.normalization.values) <= cache.normalization.values
    ensures found == TermMatches(env, ResolveRow(mem, r), ResolveTerm(mem, t.term))
  {
    hide CacheFor;
    match t.term
    case Plain(needle) => found := PlainText(env, mem, r, needle, t.shape.value, cache);
    case PidIs(pid) => found := r.pid == Some(pid);
    case PortIs(port) => found := r.localPort == port;
    case ProtocolIs(p) => found := r.protocol == p;
    case ScopeIs(s) => found := r.bindScope == s;
    case ProtectedIs(b) => found := r.isProtected == b;
    case Parent(needle) => found := ParentText(env, mem, r, needle, cache);
    case Label(needle) => found := OptionalText(env, mem, r.tag, needle, cache);
    case AddressIs(a) => found := env.normalize(r.localAddr) == a;
    case ScopeIdIs(i) => found := r.ipv6Scope == Some(InterfaceIndex(i));
    case FamilyIs(v4) => found := env.normalize(r.localAddr).V4? == v4;
  }

  ghost predicate ReadyTerms(mem: string, terms: seq<PreparedTerm>) {
    forall t | t in terms :: t == Prepare(mem, t.term) && (t.term.Plain? ==> NoUpper(Text(mem, t.term.needle)))
  }

  ghost predicate AllTermsMatch(env: Env, mem: string, r: Row<Slice>, terms: seq<PreparedTerm>) {
    forall t | t in terms :: TermMatches(env, ResolveRow(mem, r), ResolveTerm(mem, t.term))
  }

  method MatchTerms(env: Env, mem: string, r: Row<Slice>, terms: seq<PreparedTerm>, cache: MetadataMatchCache)
    returns (all: bool)
    requires CacheFor(cache, mem, env) && AddressTextPlain(env) && ReadyTerms(mem, terms)
    modifies cache, cache.normalization
    ensures CacheFor(cache, mem, env) && old(cache.normalization.values) <= cache.normalization.values
    ensures all == AllTermsMatch(env, mem, r, terms)
  {
    hide CacheFor;
    hide TermMatches;
    for i := 0 to |terms|
      invariant CacheFor(cache, mem, env) && old(cache.normalization.values) <= cache.normalization.values
      invariant AllTermsMatch(env, mem, r, terms[..i])
    {
      assert terms[i] in terms && terms[..i+1] == terms[..i] + [terms[i]];
      var found := MatchTerm(env, mem, r, terms[i], cache);
      if !found {
        return false;
      }
    }
    assert terms[..|terms|] == terms;
    return true;
  }

  lemma SplitTerms(env: Env, mem: string, o: Options<Slice>, needle: Slice, p: Plan, r: Row<Slice>)
    requires o.filter.Ok? && PlanFor(mem, o, needle, p)
    ensures AllTermsMatch(env, mem, r, p.cheapTerms) && AllTermsMatch(env, mem, r, p.metadataTerms) <==>
              forall t | t in ResolveTerms(mem, o.filter.value) :: TermMatches(env, ResolveRow(mem, r), t)
    ensures LoweredNeedles(mem, o) ==> ReadyTerms(mem, p.cheapTerms) && ReadyTerms(mem, p.metadataTerms)
  {
    hide TermMatches;
    hide ResolveRow;
    var prepared := Map(t => Prepare(mem, t), o.filter.value);
    var split := p.cheapTerms + p.metadataTerms;
    forall t ensures t in p.cheapTerms || t in p.metadataTerms <==> t in prepared {
      assert t in split <==> t in multiset(prepared);
    }
    var resolved := ResolveTerms(mem, o.filter.value);
    forall i | 0 <= i < |o.filter.value|
      ensures prepared[i] in prepared && resolved[i] == ResolveTerm(mem, prepared[i].term) && resolved[i] in resolved {}
  }

  /** `entry_matches`: the planned, cached, short-circuiting test is the plain conjunction. */
  method EntryMatches(env: Env, mem: string, ghost o: Options<Slice>, ghost needle: Slice, p: Plan, r: Row<Slice>,
                      cache: MetadataMatchCache)
    returns (found: bool)
    requires CacheFor(cache, mem, env) && AddressTextPlain(env)
    requires o.filter.Ok? && PlanFor(mem, o, needle, p) && LoweredNeedles(mem, o)
    requires o.process.Some? ==> Text(mem, needle) == env.lower(Text(mem, o.process.value))
    modifies cache, cache.normalization
    ensures CacheFor(cache, mem, env) && old(cache.normalization.values) <= cache.normalization.values
    ensures found == Matches(env, ResolveOptions(mem, o), ResolveRow(mem, r))
  {
    hide CacheFor;
    hide TermMatches;
    hide AllTermsMatch;
    hide ReadyTerms;
    SplitTerms(env, mem, o, needle, p, r);
    if p.port.Some? && r.localPort != p.port.value {
      return false;
    }
    found := MatchTerms(env, mem, r, p.cheapTerms, cache);
    if !found {
      return;
    }
    if p.process.Some? {
      found := OptionalText(env, mem, r.processName, p.process.value, cache);
      if !found {
        return;
      }
    }
    found := MatchTerms(env, mem, r, p.metadataTerms, cache);
  }

  // ----- Compact sort candidates

  datatype Primary =
    | NoKey
    | PidKey(pid: Option<nat>)
    | ProtocolKey(protocol: Protocol)
    | NameKey(name: Option<nat>)
    | ParentKey(parent: Option<nat>, parentPid: Option<nat>)
    | ScopeKeyOf(scope: BindScope)

  datatype SortCandidate = SortCandidate(sourceIndex: nat, primary: Primary, tieBreak: TieBreak)

  datatype TieBreak = TieBreak(localPort: nat, protocol: Protocol, localAddr: Address, pid: Option<nat>)

  function TieOf(r: Row<Slice>): TieBreak {
    TieBreak(r.localPort, r.protocol, r.localAddr, r.pid)
  }

  function ValueAt(values: seq<string>, key: Option<nat>): Option<string> {
    if key.Some? then Some(if key.value < |values| then values[key.value] else "") else None
  }

  /** The comparator the engine sorts with: cached keys stand for lowered names. */
  function CompareKeys(values: seq<string>, l: Primary, r: Primary): Ordering {
    match (l, r)
    case (PidKey(a), PidKey(b)) => ComparePresent(CompareNat, a, b)
    case (ProtocolKey(a), ProtocolKey(b)) => CompareProtocol(a, b)
    case (NameKey(a), NameKey(b)) => ComparePresent(CompareString, ValueAt(values, a), ValueAt(values, b))
    case (ParentKey(a, p), ParentKey(b, q)) =>
      ComparePresent(CompareString, ValueAt(values, a), ValueAt(values, b)).Then(ComparePresent(CompareNat, p, q))
    case (ScopeKeyOf(a), ScopeKeyOf(b)) => CompareInt(ScopeRank(a), ScopeRank(b))
    case _ => Equal
  }

  function CompareTies(l: TieBreak, r: TieBreak): Ordering {
    CompareInt(l.localPort, r.localPort)
    .Then(CompareProtocol(l.protocol, r.protocol))
    .Then(CompareAddress(l.localAddr, r.localAddr))
    .Then(CompareOption(CompareNat, l.pid, r.pid))
  }

  function CandidateOrder(values: seq<string>): Comparator<SortCandidate> {
    (l: SortCandidate, r: SortCandidate) =>
      CompareKeys(values, l.primary, r.primary)
      .Then(CompareTies(l.tieBreak, r.tieBreak))
      .Then(CompareInt(l.sourceIndex, r.sourceIndex))
  }

  /** The key a row gets in one sort mode, once its names are cached in `values`. */
  ghost predicate KeyMeans(env: Env, mode: SortMode, r: Row<string>, k: Primary, values: seq<string>) {
    match mode
    case ByPort => k == NoKey
    case ByPid => k == PidKey(r.pid)
    case ByProtocol => k == ProtocolKey(r.protocol)
    case ByProcess => k.NameKey? && Named(env, r.processName, k.name, values)
    case ByParent => k.ParentKey? && k.parentPid == r.parentPid && Named(env, r.parentProcessName, k.parent, values)
    case ByScope => k == ScopeKeyOf(r.bindScope)
  }

  ghost predicate Named(env: Env, name: Option<string>, key: Option<nat>, values: seq<string>) {
    && (key.Some? ==> key.value < |values|)
    && ValueAt(values, key) == Lowered(env, name)
  }

  lemma KeysSurvive(env: Env, mode: SortMode, r: Row<string>, k: Primary, before: seq<string>, after: seq<string>)
    requires KeyMeans(env, mode, r, k, before) && before <= after
    ensures KeyMeans(env, mode, r, k, after)
  {
  }

  method NameKeyFor(env: Env, mem: string, name: Option<Slice>, cache: MetadataMatchCache) returns (key: Option<nat>)
    requires CacheFor(cache, mem, env)
    modifies cache, cache.normalization
    ensures CacheFor(cache, mem, env) && old(cache.normalization.values) <= cache.normalization.values
    ensures Named(env, ResolveText(mem, name), key, cache.normalization.values)
  {
    key := None;
    if name.Some? {
      var k := cache.normalization.Key(name.value);
      key := Some(k);
    }
  }

  method PrimaryKey(env: Env, mem: string, mode: SortMode, r: Row<Slice>, cache: MetadataMatchCache) returns (k: Primary)
    requires CacheFor(cache, mem, env)
    modifies cache, cache.normalization
    ensures CacheFor(cache, mem, env) && old(cache.normalization.values) <= cache.normalization.values
    ensures KeyMeans(env, mode, ResolveRow(mem, r), k, cache.normalization.values)
  {
    match mode
    case ByPort => k := NoKey;
    case ByPid => k := PidKey(r.pid);
    case ByProtocol => k := ProtocolKey(r.protocol);
    case ByProcess =>
      var name := NameKeyFor(env, mem, r.processName, cache);
      k := NameKey(name);
    case ByParent =>
      var name := NameKeyFor(env, mem, r.parentProcessName, cache);
      k := ParentKey(name, r.parentPid);
    case ByScope => k := ScopeKeyOf(r.bindScope);
  }

  // ----- Sorting candidates instead of rows

  /** Sorting commutes with a projection that keeps the comparison. */
  lemma {:induction false} SortMap<A, B>(c: Comparator<A>, d: Comparator<B>, f: A -> B, s: seq<A>)
    requires forall x, y | x in s && y in s :: c(x, y) == d(f(x), f(y))
    ensures Map(f, Sort(c, s)) == Sort(d, Map(f, s))
    ensures forall x | x in Sort(c, s) :: x in s
  {
    if s != [] {
      assert s == [s[0]] + s[1..];
      SortMap(c, d, f, s[1..]);
      InsertMap(c, d, f, s[0], Sort(c, s[1..]));
    }
  }

  lemma {:induction false} InsertMap<A, B>(c: Comparator<A>, d: Comparator<B>, f: A -> B, x: A, s: seq<A>)
    requires forall y | y in s :: c(x, y) == d(f(x), f(y))
    ensures Map(f, Insert(c, x, s)) == Insert(d, f(x), Map(f, s))
    ensures forall y | y in Insert(c, x, s) :: y == x || y in s
  {
    if s != [] {
      assert s == [s[0]] + s[1..];
      InsertMap(c, d, f, x, s[1..]);
    }
  }

  function RowOf(mem: string, rows: seq<Row<Slice>>): SortCandidate -> Candidate
    requires rows != []
  {
    (c: SortCandidate) => Candidate(c.sourceIndex, ResolveRow(mem, if c.sourceIndex < |rows| then rows[c.sourceIndex] else rows[0]))
  }

  ghost predicate CandidateMeans(env: Env, mem: string, mode: SortMode, rows: seq<Row<Slice>>, c: SortCandidate, values: seq<string>) {
    && c.sourceIndex < |rows|
    && c.tieBreak == TieOf(rows[c.sourceIndex])
    && KeyMeans(env, mode, ResolveRow(mem, rows[c.sourceIndex]), c.primary, values)
  }

  lemma CandidateOrderMeans(env: Env, mem: string, mode: SortMode, rows: seq<Row<Slice>>, x: SortCandidate, y: SortCandidate,
                            values: seq<string>)
    requires rows != []
    requires CandidateMeans(env, mem, mode, rows, x, values) && CandidateMeans(env, mem, mode, rows, y, values)
    ensures CandidateOrder(values)(x, y) == RowOrder(env, mode)(RowOf(mem, rows)(x), RowOf(mem, rows)(y))
  {
    hide ComparePresent;
    hide CompareAddress;
    hide CompareOption;
    hide CompareString;
  }

  /** The growing vectors of `collect_sorted_indices`, after the first `n` rows. */
  ghost predicate Gathered(env: Env, mem: string, o: Options<string>, rows: seq<Row<Slice>>, n: nat,
                           candidates: seq<SortCandidate>, hidden: nat, values: seq<string>)
    requires o.filter.Ok? && n <= |rows|
  {
    var all := Candidates(ResolveRows(mem, rows[..n]));
    && (rows != [] ==> Map(RowOf(mem, rows), candidates) == Filter(Shown(env, o), all))
    && (rows == [] ==> candidates == [])
    && (forall c | c in candidates :: CandidateMeans(env, mem, o.sortMode, rows, c, values))
    && hidden == |Filter(Concealed(o), all)|
  }

  lemma CandidatesExtend(mem: string, rows: seq<Row<Slice>>, n: nat)
    requires n < |rows|
    ensures Candidates(ResolveRows(mem, rows[..n+1]))
         == Candidates(ResolveRows(mem, rows[..n])) + [Candidate(n, ResolveRow(mem, rows[n]))]
  {
    assert rows[..n+1] == rows[..n] + [rows[n]];
  }

  lemma GatheredStep(env: Env, mem: string, o: Options<string>, rows: seq<Row<Slice>>, n: nat,
                     candidates: seq<SortCandidate>, hidden: nat, before: seq<string>, after: seq<string>,
                     extra: seq<SortCandidate>)
    requires o.filter.Ok? && n < |rows| && before <= after
    requires Gathered(env, mem, o, rows, n, candidates, hidden, before)
    requires var c := Candidate(n, ResolveRow(mem, rows[n]));
             if Shown(env, o)(c) then |extra| == 1 && extra[0].sourceIndex == n
                                      && CandidateMeans(env, mem, o.sortMode, rows, extra[0], after)
             else extra == []
    ensures Gathered(env, mem, o, rows, n + 1, candidates + extra,
                     hidden + (if Hidden(o.hideSystem, ResolveRow(mem, rows[n])) then 1 else 0), after)
  {
    hide Matches;
    hide ResolveRow;
    var c := Candidate(n, ResolveRow(mem, rows[n]));
    var all := Candidates(ResolveRows(mem, rows[..n]));
    CandidatesExtend(mem, rows, n);
    FilterAppend(Shown(env, o), all, [c]);
    FilterAppend(Concealed(o), all, [c]);
    MapAppend(RowOf(mem, rows), candidates, extra);
    forall x | x in candidates ensures CandidateMeans(env, mem, o.sortMode, rows, x, after) {
      KeysSurvive(env, o.sortMode, ResolveRow(mem, rows[x.sourceIndex]), x.primary, before, after);
    }
    if extra != [] {
      assert extra == [extra[0]];
      assert Map(RowOf(mem, rows), extra) == [c];
    }
  }

  lemma SortedGathered(env: Env, mem: string, o: Options<string>, rows: seq<Row<Slice>>,
                       candidates: seq<SortCandidate>, hidden: nat, values: seq<string>)
    requires o.filter.Ok? && Gathered(env, mem, o, rows, |rows|, candidates, hidden, values)
    ensures Map((c: SortCandidate) => c.sourceIndex, Sort(CandidateOrder(values), candidates))
         == Indices(Sort(RowOrder(env, o.sortMode), Filter(Shown(env, o), Candidates(ResolveRows(mem, rows)))))
    ensures hidden == |Filter(Concealed(o), Candidates(ResolveRows(mem, rows)))|
  {
    hide CandidateMeans;
    hide Matches;
    assert rows[..|rows|] == rows;
    if rows != [] {
      forall x, y | x in candidates && y in candidates
        ensures CandidateOrder(values)(x, y) == RowOrder(env, o.sortMode)(RowOf(mem, rows)(x), RowOf(mem, rows)(y)) {
        CandidateOrderMeans(env, mem, o.sortMode, rows, x, y, values);
      }
      SortMap(CandidateOrder(values), RowOrder(env, o.sortMode), RowOf(mem, rows), candidates);
    }
  }

  /** `query_view_indices_by`: the fresh query, computed with every shortcut. */
  method QueryViewIndices(env: Env, mem: string, rows: seq<Row<Slice>>, o: Options<Slice>, needle: Slice, matchesMax: nat)
    returns (r: Result<QueryResult, QueryError>)
    requires AddressTextPlain(env) && LoweredNeedles(mem, o)
    requires o.process.Some? ==> Text(mem, needle) == env.lower(Text(mem, o.process.value))
    ensures r == FreshQuery(env, ResolveRows(mem, rows), ResolveOptions(mem, o))
  {
    hide Matches;
    hide Gathered;
    hide CacheFor;
    hide CandidateMeans;
    var prepared := PrepareQuery(mem, o, needle);
    if prepared.Err? {
      return Err(prepared.error);
    }
    var plan := prepared.value;
    ghost var query := ResolveOptions(mem, o);
    var cache := NewCache(env, mem, matchesMax, plan.mode);
    var candidates: seq<SortCandidate> := [];
    var hidden := 0;
    NothingGathered(env, mem, query, rows, cache.normalization.values);
    for i := 0 to |rows|
      invariant CacheFor(cache, mem, env) && fresh(cache) && fresh(cache.normalization)
      invariant Gathered(env, mem, query, rows, i, candidates, hidden, cache.normalization.values)
    {
      ghost var before := cache.normalization.values;
      var extra: seq<SortCandidate> := [];
      var concealed := plan.hideSystem && rows[i].isSystem;
      if !concealed {
        var found := EntryMatches(env, mem, o, needle, plan, rows[i], cache);
        if found {
          var key := PrimaryKey(env, mem, o.sortMode, rows[i], cache);
          extra := [SortCandidate(i, key, TieOf(rows[i]))];
          FreshCandidate(env, mem, o.sortMode, rows, i, key, cache.normalization.values);
        }
      }
      GatheredStep(env, mem, query, rows, i, candidates, hidden, before, cache.normalization.values, extra);
      candidates := candidates + extra;
      hidden := hidden + (if concealed then 1 else 0);
    }
    SortedGathered(env, mem, query, rows, candidates, hidden, cache.normalization.values);
    var sorted := Sort(CandidateOrder(cache.normalization.values), candidates);
    r := Ok(QueryResult(Map((c: SortCandidate) => c.sourceIndex, sorted), plan.explicitFilter, hidden));
  }

  method NewCache(env: Env, mem: string, matchesMax: nat, mode: NeedleMode) returns (cache: MetadataMatchCache)
    ensures CacheFor(cache, mem, env) && fresh(cache) && fresh(cache.normalization)
  {
    cache := new MetadataMatchCache(mem, env.lower, matchesMax, mode);
  }

  lemma NothingGathered(env: Env, mem: string, o: Options<string>, rows: seq<Row<Slice>>, values: seq<string>)
    requires o.filter.Ok?
    ensures Gathered(env, mem, o, rows, 0, [], 0, values)
  {
    assert rows[..0] == [];
    assert Candidates(ResolveRows(mem, [])) == [];
  }

  lemma FreshCandidate(env: Env, mem: string, mode: SortMode, rows: seq<Row<Slice>>, i: nat, key: Primary, values: seq<string>)
    requires i < |rows| && KeyMeans(env, mode, ResolveRow(mem, rows[i]), key, values)
    ensures CandidateMeans(env, mem, mode, rows, SortCandidate(i, key, TieOf(rows[i])), values)
  {
  }

  /** `filter_preordered_view_indices_by` */
  method FilterPreorderedIndices(env: Env, mem: string, rows: seq<Row<Slice>>, preordered: seq<nat>, o: Options<Slice>,
                                 needle: Slice, matchesMax: nat)
    returns (r: Result<QueryResult, QueryError>)
    requires AddressTextPlain(env) && LoweredNeedles(mem, o)
    requires o.process.Some? ==> Text(mem, needle) == env.lower(Text(mem, o.process.value))
    requires forall i | 0 <= i < |preordered| :: preordered[i] < |rows|
    ensures r == FilterPreordered(env, ResolveRows(mem, rows), preordered, ResolveOptions(mem, o))
  {
    hide Matches;
    hide CacheFor;
    hide ResolveRow;
    hide Filter;
    hide Pick;
    hide Indices;
    var prepared := PrepareQuery(mem, o, needle);
    if prepared.Err? {
      return Err(prepared.error);
    }
    var plan := prepared.value;
    ghost var query, all := ResolveOptions(mem, o), ResolveRows(mem, rows);
    var cache := NewCache(env, mem, matchesMax, plan.mode);
    var indices: seq<nat> := [];
    var hidden := 0;
    NothingPicked(env, query, all, preordered);
    for i := 0 to |preordered|
      invariant CacheFor(cache, mem, env) && fresh(cache) && fresh(cache.normalization)
      invariant indices == Indices(Filter(Shown(env, query), Pick(all, preordered[..i])))
      invariant hidden == |Filter(Concealed(query), Pick(all, preordered[..i]))|
    {
      var at := preordered[i];
      PreorderedStep(env, query, all, preordered, i);
      RowSystem(mem, rows, at);
      if plan.hideSystem && rows[at].isSystem {
        hidden := hidden + 1;
      } else {
        var found := EntryMatches(env, mem, o, needle, plan, rows[at], cache);
        if found {
          indices := indices + [at];
        }
      }
    }
    assert preordered[..|preordered|] == preordered;
    assert plan.explicitFilter == ExplicitFilter(query);
    r := Ok(QueryResult(indices, plan.explicitFilter, hidden));
  }

  lemma NothingPicked(env: Env, o: Options<string>, rows: seq<Row<string>>, preordered: seq<nat>)
    requires o.filter.Ok?
    ensures Indices(Filter(Shown(env, o), Pick(rows, preordered[..0]))) == []
    ensures Filter(Concealed(o), Pick(rows, preordered[..0])) == []
  {
  }

  lemma PreorderedStep(env: Env, o: Options<string>, rows: seq<Row<string>>, preordered: seq<nat>, i: nat)
    requires o.filter.Ok? && i < |preordered| && forall k | 0 <= k < |preordered| :: preordered[k] < |rows|
    ensures var c := Candidate(preordered[i], rows[preordered[i]]);
            && Indices(Filter(Shown(env, o), Pick(rows, preordered[..i+1])))
               == Indices(Filter(Shown(env, o), Pick(rows, preordered[..i])))
                  + (if Shown(env, o)(c) then [preordered[i]] else [])
            && |Filter(Concealed(o), Pick(rows, preordered[..i+1]))|
               == |Filter(Concealed(o), Pick(rows, preordered[..i]))| + (if Concealed(o)(c) then 1 else 0)
  {
    hide Matches;
    var c, before := Candidate(preordered[i], rows[preordered[i]]), Pick(rows, preordered[..i]);
    assert Pick(rows, preordered[..i+1]) == before + [c];
    FilterAppend(Shown(env, o), before, [c]);
    FilterAppend(Concealed(o), before, [c]);
    MapAppend((x: Candidate) => x.index, Filter(Shown(env, o), before), Filter(Shown(env, o), [c]));
  }

  lemma RowSystem(mem: string, rows: seq<Row<Slice>>, at: nat)
    requires at < |rows|
    ensures ResolveRows(mem, rows)[at] == ResolveRow(mem, rows[at])
    ensures ResolveRow(mem, rows[at]).isSystem == rows[at].isSystem
  {
  }
}

/** Three-way comparison and the laws every comparator of the program has to obey
    before a sorted vector, a merge or a binary search may rely on it. */
module Orders {

  datatype Option<+T> = None | Some(value: T)

  datatype Result<+T, +E> = Ok(value: T) | Err(error: E)

  datatype Ordering = Less | Equal | Greater {
    function Then(other: Ordering): Ordering {
      if this == Equal then other else this
    }

    function Reverse(): Ordering {
      match this
      case Less => Greater
      case Equal => Equal
      case Greater => Less
    }
  }

  type Comparator<!T> = (T, T) -> Ordering

  /** Pointwise preorder laws, stated for one triple of arguments. */
  ghost predicate LawfulAt<T>(c: Comparator<T>, x: T, y: T, z: T) {
    && c(x, x) == Equal
    && c(y, x) == c(x, y).Reverse()
    && (c(x, y) == Equal ==> c(x, z) == c(y, z))
    && (c(y, z) == Equal ==> c(x, z) == c(x, y))
    && (c(x, y) == c(y, z) ==> c(x, z) == c(x, y))
  }

  /** `c` is a total preorder: reflexive, antisymmetric up to `Equal`, transitive. */
  ghost predicate Lawful<T(!new)>(c: Comparator<T>) {
    forall x, y, z :: LawfulAt(c, x, y, z)
  }

  /** A total preorder whose `Equal` is exactly equality of keys. */
  ghost predicate Separates<T(!new), K>(c: Comparator<T>, key: T -> K) {
    && Lawful(c)
    && forall x, y :: c(x, y) == Equal <==> key(x) == key(y)
  }

  /** What a comparator says about three values. */
  datatype Comparisons = Comparisons(xx: Ordering, xy: Ordering, yx: Ordering, xz: Ordering, yz: Ordering) {
    ghost predicate Lawful() {
      && xx == Equal
      && yx == xy.Reverse()
      && (xy == Equal ==> xz == yz)
      && (yz == Equal ==> xz == xy)
      && (xy == yz ==> xz == xy)
    }

    function Then(next: Comparisons): Comparisons {
      Comparisons(xx.Then(next.xx), xy.Then(next.xy), yx.Then(next.yx), xz.Then(next.xz), yz.Then(next.yz))
    }
  }

  function Compared<T>(c: Comparator<T>, x: T, y: T, z: T): Comparisons {
    Comparisons(c(x, x), c(x, y), c(y, x), c(x, z), c(y, z))
  }

  /** Breaking ties of one lawful comparison with another keeps the laws. */
  lemma ThenLawful(a: Comparisons, b: Comparisons)
    requires a.Lawful() && b.Lawful()
    ensures a.Then(b).Lawful()
  {
  }

  // ----- Building blocks

  function CompareInt(x: int, y: int): Ordering {
    if x < y then Less else if x > y then Greater else Equal
  }

  /** Rust orders `None` before every `Some`. */
  function CompareOption<T>(c: Comparator<T>, x: Option<T>, y: Option<T>): Ordering {
    match (x, y)
    case (None, None) => Equal
    case (None, Some(_)) => Less
    case (Some(_), None) => Greater
    case (Some(a), Some(b)) => c(a, b)
  }

  /** Lexicographic order of slices: a proper prefix comes first. */
  function CompareSeq<T>(c: Comparator<T>, x: seq<T>, y: seq<T>): Ordering {
    if x == [] then (if y == [] then Equal else Less)
    else if y == [] then Greater
    else c(x[0], y[0]).Then(CompareSeq(c, x[1..], y[1..]))
  }

  function OnOptions<T>(c: Comparator<T>): Comparator<Option<T>> {
    (x, y) => CompareOption(c, x, y)
  }

  function OnSeqs<T>(c: Comparator<T>): Comparator<seq<T>> {
    (x, y) => CompareSeq(c, x, y)
  }

  function CompareChar(x: char, y: char): Ordering {
    CompareInt(x as int, y as int)
  }

  function CompareString(x: string, y: string): Ordering {
    CompareSeq(CompareChar, x, y)
  }

  lemma IntLawful()
    ensures Separates(CompareInt, (x: int) => x)
  {
  }

  /** Comparing by a projection keeps the laws. */
  lemma ByLawful<T(!new), K(!new)>(c: Comparator<T>, key: T -> K, d: Comparator<K>)
    requires Lawful(d)
    requires forall x, y :: c(x, y) == d(key(x), key(y))
    ensures Lawful(c)
  {
    forall x, y, z ensures LawfulAt(c, x, y, z) {
      assert LawfulAt(d, key(x), key(y), key(z));
    }
  }

  lemma OptionLawful<T(!new)>(c: Comparator<T>)
    requires Lawful(c)
    ensures Lawful(OnOptions(c))
  {
    var o := OnOptions(c);
    forall x, y, z ensures LawfulAt(o, x, y, z) {
      if x.Some? && y.Some? && z.Some? {
        assert LawfulAt(c, x.value, y.value, z.value);
      } else if x.Some? && y.Some? {
        assert LawfulAt(c, x.value, y.value, y.value);
      } else if x.Some? {
        assert LawfulAt(c, x.value, x.value, x.value);
      }
    }
  }

  lemma {:induction false} SeqLawfulAt<T(!new)>(c: Comparator<T>, x: seq<T>, y: seq<T>, z: seq<T>)
    requires Lawful(c)
    ensures LawfulAt(OnSeqs(c), x, y, z)
    decreases |x| + |y| + |z|
  {
    if x != [] {
      assert LawfulAt(c, x[0], x[0], x[0]);
      SeqLawfulAt(c, x[1..], [], []);
    }
    if x != [] && y != [] {
      assert LawfulAt(c, x[0], y[0], y[0]);
      SeqLawfulAt(c, x[1..], y[1..], []);
      if z != [] {
        assert LawfulAt(c, x[0], y[0], z[0]);
        assert LawfulAt(c, y[0], z[0], x[0]);
        SeqLawfulAt(c, x[1..], y[1..], z[1..]);
      }
    }
  }

  lemma SeqLawful<T(!new)>(c: Comparator<T>)
    requires Lawful(c)
    ensures Lawful(OnSeqs(c))
  {
    forall x, y, z ensures LawfulAt(OnSeqs(c), x, y, z) {
      SeqLawfulAt(c, x, y, z);
    }
  }

  /** Lexicographic `Equal` is equality when element `Equal` is. */
  lemma {:induction false} SeqSeparates<T(!new)>(c: Comparator<T>, x: seq<T>, y: seq<T>)
    requires forall a, b :: c(a, b) == Equal <==> a == b
    ensures CompareSeq(c, x, y) == Equal <==> x == y
  {
    if x != [] && y != [] {
      SeqSeparates(c, x[1..], y[1..]);
      assert x == [x[0]] + x[1..] && y == [y[0]] + y[1..];
    }
  }

  lemma StringLawful()
    ensures Lawful(CompareString)
    ensures forall x, y :: CompareString(x, y) == Equal <==> x == y
  {
    IntLawful();
    ByLawful(CompareChar, (x: char) => x as int, CompareInt);
    SeqLawful(CompareChar);
    ByLawful(CompareString, (x: string) => x, OnSeqs(CompareChar));
    forall x, y ensures CompareString(x, y) == Equal <==> x == y {
      SeqSeparates(CompareChar, x, y);
    }
  }

  // ----- Sequences

  function Map<A, B>(f: A -> B, s: seq<A>): (r: seq<B>)
    ensures |r| == |s|
    ensures forall i :: 0 <= i < |s| ==> r[i] == f(s[i])
  {
    if s == [] then [] else [f(s[0])] + Map(f, s[1..])
  }

  lemma MapAppend<A, B>(f: A -> B, s: seq<A>, t: seq<A>)
    ensures Map(f, s + t) == Map(f, s) + Map(f, t)
  {
  }

  function Filter<A>(keep: A -> bool, s: seq<A>): (r: seq<A>)
    ensures |r| <= |s|
    ensures forall x | x in r :: x in s && keep(x)
    ensures forall x | x in s && keep(x) :: x in r
  {
    if s == [] then []
    else if keep(s[0]) then [s[0]] + Filter(keep, s[1..])
    else Filter(keep, s[1..])
  }

  lemma {:induction false} FilterAppend<A>(keep: A -> bool, s: seq<A>, t: seq<A>)
    ensures Filter(keep, s + t) == Filter(keep, s) + Filter(keep, t)
  {
    if s == [] {
      assert s + t == t;
    } else {
      assert (s + t)[0] == s[0] && (s + t)[1..] == s[1..] + t;
      FilterAppend(keep, s[1..], t);
    }
  }

  lemma {:induction false} FilterAll<A>(keep: A -> bool, s: seq<A>)
    requires forall x | x in s :: keep(x)
    ensures Filter(keep, s) == s
  {
    if s != [] {
      FilterAll(keep, s[1..]);
      assert s == [s[0]] + s[1..];
    }
  }

  lemma FilterNone<A>(keep: A -> bool, s: seq<A>)
    requires forall x | x in s :: !keep(x)
    ensures Filter(keep, s) == []
  {
  }

  /** A permutation of a nonempty sequence holds its head somewhere. */
  lemma FindHead<A>(s: seq<A>, t: seq<A>) returns (i: nat)
    requires multiset(s) == multiset(t) && s != []
    ensures i < |t| && t[i] == s[0] && multiset(s[1..]) == multiset(t[..i] + t[i+1..])
    ensures t == t[..i] + ([s[0]] + t[i+1..])
  {
    assert s[0] in multiset(s);
    i :| 0 <= i < |t| && t[i] == s[0];
    CutOut(t, i);
    HeadOut(s);
    CancelOne(s[0], multiset(s[1..]), multiset(t[..i] + t[i+1..]));
  }

  lemma HeadOut<A>(s: seq<A>)
    requires s != []
    ensures multiset(s) == multiset{s[0]} + multiset(s[1..])
  {
    assert s == [s[0]] + s[1..];
  }

  lemma CancelOne<K>(k: K, a: multiset<K>, b: multiset<K>)
    requires multiset{k} + a == multiset{k} + b
    ensures a == b
  {
    assert a == (multiset{k} + a) - multiset{k};
    assert b == (multiset{k} + b) - multiset{k};
  }

  lemma CutOut<A>(t: seq<A>, i: nat)
    requires i < |t|
    ensures t == t[..i] + ([t[i]] + t[i+1..])
    ensures multiset(t) == multiset{t[i]} + multiset(t[..i] + t[i+1..])
  {
    assert t == t[..i] + ([t[i]] + t[i+1..]);
  }

  /** Filtering sees a sequence only through its multiset. */
  lemma {:induction false} FilterPermutes<A>(keep: A -> bool, s: seq<A>, t: seq<A>)
    requires multiset(s) == multiset(t)
    ensures multiset(Filter(keep, s)) == multiset(Filter(keep, t))
  {
    if s == [] {
      MultisetSize(s, t);
    } else {
      var i := FindHead(s, t);
      FilterPermutes(keep, s[1..], t[..i] + t[i+1..]);
      FilterAppend(keep, t[..i], t[i+1..]);
      FilterAppend(keep, t[..i], [s[0]] + t[i+1..]);
      FilterAppend(keep, [s[0]], t[i+1..]);
    }
  }

  /** Mapping sees a sequence only through its multiset. */
  lemma {:induction false} MapPermutes<A, B>(f: A -> B, s: seq<A>, t: seq<A>)
    requires multiset(s) == multiset(t)
    ensures multiset(Map(f, s)) == multiset(Map(f, t))
  {
    if s == [] {
      MultisetSize(s, t);
    } else {
      var i := FindHead(s, t);
      MapPermutes(f, s[1..], t[..i] + t[i+1..]);
      MapAppend(f, t[..i], t[i+1..]);
      MapAppend(f, t[..i], [s[0]] + t[i+1..]);
      MapAppend(f, [s[0]], t[i+1..]);
    }
  }

  function Elements<T>(s: seq<T>): set<T> {
    set x | x in s
  }

  lemma HeadIn<T>(s: seq<T>)
    ensures s != [] ==> s[0] in s && s[0] in Elements(s)
  {
  }

  lemma {:induction false} ElementsSize<T>(s: seq<T>)
    ensures |Elements(s)| <= |s|
  {
    if s != [] {
      ElementsSize(s[1..]);
      assert s == [s[0]] + s[1..];
      assert Elements(s) == {s[0]} + Elements(s[1..]);
    }
  }

  lemma MultisetSize<A>(s: seq<A>, t: seq<A>)
    requires multiset(s) == multiset(t)
    ensures |s| == |t|
  {
    assert |multiset(s)| == |multiset(t)|;
  }

  lemma TwiceCounted<T>(s: seq<T>, i: nat, j: nat)
    requires i < j < |s| && s[i] == s[j]
    ensures multiset(s)[s[i]] >= 2
  {
    assert s == s[..i] + [s[i]] + s[i + 1..j] + [s[j]] + s[j + 1..];
  }

  // ----- Sorted sequences

  ghost predicate Sorted<T>(c: Comparator<T>, s: seq<T>) {
    forall i, j :: 0 <= i < j < |s| ==> c(s[i], s[j]) != Greater
  }

  lemma SortedHeadLeast<T(!new)>(c: Comparator<T>, a: seq<T>, x: T)
    requires Lawful(c) && Sorted(c, a) && x in multiset(a)
    ensures c(a[0], x) != Greater && c(x, a[0]) == c(a[0], x).Reverse()
  {
    var i :| 0 <= i < |a| && a[i] == x;
    assert LawfulAt(c, a[0], x, x);
  }

  lemma TailBag<T>(s: seq<T>)
    requires s != []
    ensures multiset(s[1..]) == multiset(s) - multiset{s[0]} && s == [s[0]] + s[1..]
  {
    assert s == [s[0]] + s[1..];
  }

  /** A sorted permutation is unique when `Equal` is equality. */
  lemma {:induction false} SortedUnique<T(!new)>(c: Comparator<T>, a: seq<T>, b: seq<T>)
    requires Lawful(c)
    requires forall i, j :: 0 <= i < |a| && 0 <= j < |b| && c(a[i], b[j]) == Equal ==> a[i] == b[j]
    requires Sorted(c, a) && Sorted(c, b) && multiset(a) == multiset(b)
    ensures a == b
  {
    assert |multiset(a)| == |a| && |multiset(b)| == |b|;
    if a != [] {
      SortedHeadLeast(c, a, b[0]);
      SortedHeadLeast(c, b, a[0]);
      TailBag(a);
      TailBag(b);
      SortedUnique(c, a[1..], b[1..]);
    }
  }

  // ----- Sorting

  function Insert<T>(c: Comparator<T>, x: T, s: seq<T>): seq<T> {
    if s == [] || c(x, s[0]) != Greater then [x] + s else [s[0]] + Insert(c, x, s[1..])
  }

  /** Some sorted permutation of `s`; stands in for the standard library's sort. */
  function Sort<T>(c: Comparator<T>, s: seq<T>): seq<T> {
    if s == [] then [] else Insert(c, s[0], Sort(c, s[1..]))
  }

  lemma ConsSorted<T>(c: Comparator<T>, x: T, s: seq<T>)
    requires Sorted(c, s) && forall y | y in s :: c(x, y) != Greater
    ensures Sorted(c, [x] + s)
  {
  }

  lemma HeadBelow<T(!new)>(c: Comparator<T>, x: T, s: seq<T>, y: T)
    requires Lawful(c) && Sorted(c, s) && s != [] && c(x, s[0]) != Greater && y in s
    ensures c(x, y) != Greater
  {
    var j :| 0 <= j < |s| && s[j] == y;
    assert LawfulAt(c, x, s[0], s[j]);
  }

  lemma {:induction false} InsertSorted<T(!new)>(c: Comparator<T>, x: T, s: seq<T>)
    requires Lawful(c) && Sorted(c, s)
    ensures Sorted(c, Insert(c, x, s))
    ensures multiset(Insert(c, x, s)) == multiset(s) + multiset{x}
  {
    if s != [] {
      assert s == [s[0]] + s[1..];
      if c(x, s[0]) != Greater {
        forall y | y in s ensures c(x, y) != Greater { HeadBelow(c, x, s, y); }
        ConsSorted(c, x, s);
      } else {
        var rest := Insert(c, x, s[1..]);
        InsertSorted(c, x, s[1..]);
        forall y | y in rest ensures c(s[0], y) != Greater {
          assert y in multiset(rest);
          assert LawfulAt(c, x, s[0], x);
        }
        ConsSorted(c, s[0], rest);
      }
    }
  }

  lemma {:induction false} SortSorts<T(!new)>(c: Comparator<T>, s: seq<T>)
    requires Lawful(c)
    ensures Sorted(c, Sort(c, s)) && multiset(Sort(c, s)) == multiset(s) && |Sort(c, s)| == |s|
  {
    if s != [] {
      SortSorts(c, s[1..]);
      InsertSorted(c, s[0], Sort(c, s[1..]));
      assert s == [s[0]] + s[1..];
    }
    assert |multiset(Sort(c, s))| == |multiset(s)|;
  }

  // ----- Sorted and without repeats

  /** Removing adjacent repeats. */
  function Dedup<T(==)>(s: seq<T>): seq<T> {
    if |s| <= 1 then s
    else if s[0] == s[1] then Dedup(s[1..])
    else [s[0]] + Dedup(s[1..])
  }

  ghost predicate StrictlySorted<T>(c: Comparator<T>, s: seq<T>) {
    forall i, j | 0 <= i < j < |s| :: c(s[i], s[j]) == Less
  }

  lemma {:induction false} DedupMembers<T>(s: seq<T>)
    ensures Elements(Dedup(s)) == Elements(s) && |Dedup(s)| <= |s|
    ensures s != [] ==> Dedup(s) != [] && Dedup(s)[0] == s[0]
  {
    if |s| > 1 {
      DedupMembers(s[1..]);
      assert s == [s[0]] + s[1..];
      assert Elements(s) == {s[0]} + Elements(s[1..]);
      assert Elements([s[0]] + Dedup(s[1..])) == {s[0]} + Elements(Dedup(s[1..]));
    }
  }

  /** A sorted vector without adjacent repeats has no repeats at all. */
  lemma {:induction false} DedupStrict<T(!new)>(c: Comparator<T>, s: seq<T>)
    requires Lawful(c) && Sorted(c, s)
    requires forall x, y | x in s && y in s && c(x, y) == Equal :: x == y
    ensures StrictlySorted(c, Dedup(s))
  {
    if |s| > 1 {
      DedupStrict(c, s[1..]);
      if s[0] != s[1] {
        var rest := Dedup(s[1..]);
        DedupMembers(s[1..]);
        forall j | 0 <= j < |rest| ensures c(s[0], rest[j]) == Less {
          assert rest[j] in Elements(s[1..]);
          var k :| 1 <= k < |s| && s[k] == rest[j];
          assert LawfulAt(c, s[0], s[1], s[k]) && LawfulAt(c, s[1], s[k], s[k]);
        }
      }
    }
  }

  lemma StrictHead<T(!new)>(c: Comparator<T>, a: seq<T>, b: seq<T>)
    requires Lawful(c) && StrictlySorted(c, a) && StrictlySorted(c, b) && Elements(a) == Elements(b) && a != []
    ensures b != [] && a[0] == b[0]
    ensures Elements(a[1..]) == Elements(b[1..])
  {
    assert a[0] in Elements(b);
    assert b[0] in Elements(a);
    var i :| 0 <= i < |a| && a[i] == b[0];
    var j :| 0 <= j < |b| && b[j] == a[0];
    assert LawfulAt(c, a[0], b[0], b[0]);
    forall x ensures x in Elements(a[1..]) <==> x in Elements(b[1..]) {
      StrictTail(c, a, x);
      StrictTail(c, b, x);
    }
  }

  lemma StrictTail<T(!new)>(c: Comparator<T>, a: seq<T>, x: T)
    requires Lawful(c) && StrictlySorted(c, a) && a != []
    ensures x in Elements(a[1..]) <==> x in Elements(a) && x != a[0]
  {
    assert LawfulAt(c, a[0], a[0], a[0]);
    assert a == [a[0]] + a[1..];
  }

  /** A strictly sorted vector is determined by its elements. */
  lemma {:induction false} StrictUnique<T(!new)>(c: Comparator<T>, a: seq<T>, b: seq<T>)
    requires Lawful(c) && StrictlySorted(c, a) && StrictlySorted(c, b) && Elements(a) == Elements(b)
    ensures a == b
  {
    if a == [] {
      HeadIn(b);
    } else {
      StrictHead(c, a, b);
      StrictUnique(c, a[1..], b[1..]);
      assert a == [a[0]] + a[1..] && b == [b[0]] + b[1..];
    }
  }

  /** Sorting and removing repeats forgets order and multiplicity. */
  lemma SortDedupCanonical<T(!new)>(c: Comparator<T>, s: seq<T>, t: seq<T>)
    requires Lawful(c) && (forall x, y :: c(x, y) == Equal ==> x == y)
    requires Elements(s) == Elements(t)
    ensures Dedup(Sort(c, s)) == Dedup(Sort(c, t))
  {
    SortSorts(c, s);
    SortSorts(c, t);
    DedupStrict(c, Sort(c, s));
    DedupStrict(c, Sort(c, t));
    DedupMembers(Sort(c, s));
    DedupMembers(Sort(c, t));
    SortElements(c, s);
    SortElements(c, t);
    StrictUnique(c, Dedup(Sort(c, s)), Dedup(Sort(c, t)));
  }

  lemma SortElements<T(!new)>(c: Comparator<T>, s: seq<T>)
    requires Lawful(c)
    ensures Elements(Sort(c, s)) == Elements(s)
  {
    SortSorts(c, s);
    forall x ensures x in Sort(c, s) <==> x in s {
      assert x in Sort(c, s) <==> x in multiset(Sort(c, s));
      assert x in s <==> x in multiset(s);
    }
  }

  /** Sorting forgets order when `Equal` is equality. */
  lemma SortCanonical<T(!new)>(c: Comparator<T>, s: seq<T>, t: seq<T>)
    requires Lawful(c) && (forall x, y | x in s && y in s && c(x, y) == Equal :: x == y)
    requires multiset(s) == multiset(t)
    ensures Sort(c, s) == Sort(c, t)
  {
    SortSorts(c, s);
    SortSorts(c, t);
    var a, b := Sort(c, s), Sort(c, t);
    forall i, j | 0 <= i < |a| && 0 <= j < |b| && c(a[i], b[j]) == Equal ensures a[i] == b[j] {
      assert a[i] in multiset(a) && a[i] in s;
      assert b[j] in multiset(b) && b[j] in multiset(s);
    }
    SortedUnique(c, a, b);
  }
}

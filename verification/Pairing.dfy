/** Pairing off two sorted sequences: the merge walk of `count_remaining` and of the
    remainder cursor, for any lawful comparator whose `Equal` is equality of a key. */
module Pairing {
  import opened Orders

  /** Elements of `p` left over when `p` and `c` are paired off in order. */
  function OnlyFirst<T>(cmp: Comparator<T>, p: seq<T>, c: seq<T>): seq<T>
    decreases |p| + |c|
  {
    if p == [] then []
    else if c == [] then p
    else match cmp(p[0], c[0])
      case Less => [p[0]] + OnlyFirst(cmp, p[1..], c)
      case Greater => OnlyFirst(cmp, p, c[1..])
      case Equal => OnlyFirst(cmp, p[1..], c[1..])
  }

  lemma {:induction false} OnlyFirstMembers<T>(cmp: Comparator<T>, p: seq<T>, c: seq<T>)
    ensures forall s | s in OnlyFirst(cmp, p, c) :: s in p
    ensures |OnlyFirst(cmp, p, c)| <= |p|
    decreases |p| + |c|
  {
    if p != [] && c != [] {
      OnlyFirstMembers(cmp, p[1..], c);
      OnlyFirstMembers(cmp, p, c[1..]);
      OnlyFirstMembers(cmp, p[1..], c[1..]);
    }
  }

  lemma {:induction false} OnlyFirstSorted<T>(cmp: Comparator<T>, p: seq<T>, c: seq<T>)
    requires Sorted(cmp, p)
    ensures Sorted(cmp, OnlyFirst(cmp, p, c))
    decreases |p| + |c|
  {
    if p != [] && c != [] {
      match cmp(p[0], c[0])
      case Less =>
        OnlyFirstSorted(cmp, p[1..], c);
        OnlyFirstMembers(cmp, p[1..], c);
        var rest := OnlyFirst(cmp, p[1..], c);
        forall k | 0 <= k < |rest| ensures cmp(p[0], rest[k]) != Greater {
          assert rest[k] in p[1..];
        }
      case Greater => OnlyFirstSorted(cmp, p, c[1..]);
      case Equal => OnlyFirstSorted(cmp, p[1..], c[1..]);
    }
  }

  /** Both walks skip the same number of pairs. */
  lemma {:induction false} OnlyFirstBalance<T(!new)>(cmp: Comparator<T>, p: seq<T>, c: seq<T>)
    requires Lawful(cmp)
    ensures |OnlyFirst(cmp, p, c)| + |c| == |OnlyFirst(cmp, c, p)| + |p|
    decreases |p| + |c|
  {
    if p != [] && c != [] {
      assert LawfulAt(cmp, p[0], c[0], p[0]);
      match cmp(p[0], c[0])
      case Less => OnlyFirstBalance(cmp, p[1..], c);
      case Greater => OnlyFirstBalance(cmp, p, c[1..]);
      case Equal => OnlyFirstBalance(cmp, p[1..], c[1..]);
    }
  }

  function Keys<T, K>(key: T -> K, s: seq<T>): multiset<K> {
    multiset(Map(key, s))
  }

  lemma KeysHead<T, K>(key: T -> K, s: seq<T>)
    requires s != []
    ensures Keys(key, s) == multiset{key(s[0])} + Keys(key, s[1..])
  {
  }

  lemma DifferenceSteps<K>(x: K, a: multiset<K>, b: multiset<K>)
    ensures (multiset{x} + a) - (multiset{x} + b) == a - b
    ensures x !in b ==> (multiset{x} + a) - b == multiset{x} + (a - b)
    ensures x !in a ==> a - (multiset{x} + b) == a - b
  {
  }

  lemma HeadBelowIsAbsent<T(!new), K>(cmp: Comparator<T>, key: T -> K, x: T, s: seq<T>)
    requires Separates(cmp, key) && Sorted(cmp, s)
    requires s != [] ==> cmp(x, s[0]) == Less
    ensures key(x) !in Keys(key, s)
  {
    forall i | 0 <= i < |s| ensures key(x) != key(s[i]) {
      assert LawfulAt(cmp, x, s[0], s[i]);
      assert LawfulAt(cmp, x, s[i], x);
    }
  }

  lemma LeftoverOfFirst<T(!new), K>(cmp: Comparator<T>, key: T -> K, p: seq<T>, c: seq<T>)
    requires Separates(cmp, key) && Sorted(cmp, c) && p != [] && c != [] && cmp(p[0], c[0]) == Less
    requires Keys(key, OnlyFirst(cmp, p[1..], c)) == Keys(key, p[1..]) - Keys(key, c)
    ensures Keys(key, OnlyFirst(cmp, p, c)) == Keys(key, p) - Keys(key, c)
  {
    HeadBelowIsAbsent(cmp, key, p[0], c);
    KeysHead(key, p);
    KeysHead(key, OnlyFirst(cmp, p, c));
    hide Keys;
    DifferenceSteps(key(p[0]), Keys(key, p[1..]), Keys(key, c));
  }

  lemma LeftoverOfSecond<T(!new), K>(cmp: Comparator<T>, key: T -> K, p: seq<T>, c: seq<T>)
    requires Separates(cmp, key) && Sorted(cmp, p) && p != [] && c != [] && cmp(p[0], c[0]) == Greater
    requires Keys(key, OnlyFirst(cmp, p, c[1..])) == Keys(key, p) - Keys(key, c[1..])
    ensures Keys(key, OnlyFirst(cmp, p, c)) == Keys(key, p) - Keys(key, c)
  {
    assert LawfulAt(cmp, p[0], c[0], p[0]);
    HeadBelowIsAbsent(cmp, key, c[0], p);
    KeysHead(key, c);
    hide Keys;
    DifferenceSteps(key(c[0]), Keys(key, p), Keys(key, c[1..]));
  }

  lemma LeftoverOfPair<T(!new), K>(cmp: Comparator<T>, key: T -> K, p: seq<T>, c: seq<T>)
    requires Separates(cmp, key) && p != [] && c != [] && cmp(p[0], c[0]) == Equal
    requires Keys(key, OnlyFirst(cmp, p[1..], c[1..])) == Keys(key, p[1..]) - Keys(key, c[1..])
    ensures Keys(key, OnlyFirst(cmp, p, c)) == Keys(key, p) - Keys(key, c)
  {
    KeysHead(key, p);
    KeysHead(key, c);
    hide Keys;
    DifferenceSteps(key(p[0]), Keys(key, p[1..]), Keys(key, c[1..]));
  }

  /** What the walk leaves over is exactly the one-sided multiset difference. */
  lemma {:induction false} OnlyFirstIsDifference<T(!new), K>(cmp: Comparator<T>, key: T -> K, p: seq<T>, c: seq<T>)
    requires Separates(cmp, key)
    requires Sorted(cmp, p) && Sorted(cmp, c)
    ensures Keys(key, OnlyFirst(cmp, p, c)) == Keys(key, p) - Keys(key, c)
    decreases |p| + |c|
  {
    if p == [] || c == [] {
      assert Keys(key, []) == multiset{};
    } else {
      hide Keys;
      match cmp(p[0], c[0])
      case Less =>
        OnlyFirstIsDifference(cmp, key, p[1..], c);
        LeftoverOfFirst(cmp, key, p, c);
      case Greater =>
        OnlyFirstIsDifference(cmp, key, p, c[1..]);
        LeftoverOfSecond(cmp, key, p, c);
      case Equal =>
        OnlyFirstIsDifference(cmp, key, p[1..], c[1..]);
        LeftoverOfPair(cmp, key, p, c);
    }
  }

  /** The walk commutes with a projection the comparator cannot see. */
  lemma {:induction false} OnlyFirstMap<T(!new)>(cmp: Comparator<T>, f: T -> T, p: seq<T>, c: seq<T>)
    requires forall x, y :: cmp(f(x), f(y)) == cmp(x, y)
    ensures Map(f, OnlyFirst(cmp, p, c)) == OnlyFirst(cmp, Map(f, p), Map(f, c))
    decreases |p| + |c|
  {
    if p != [] && c != [] {
      assert Map(f, p) == [f(p[0])] + Map(f, p[1..]) && Map(f, c) == [f(c[0])] + Map(f, c[1..]);
      OnlyFirstMap(cmp, f, p[1..], c);
      OnlyFirstMap(cmp, f, p, c[1..]);
      OnlyFirstMap(cmp, f, p[1..], c[1..]);
    }
  }
}

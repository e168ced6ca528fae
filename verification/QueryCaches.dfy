/** The memo tables of `src/query.rs`, keyed by pointer identity. */
module QueryCaches {
  import opened Orders
  import opened QueryModel

  /** A borrowed string: where it lies. The memory it borrows cannot change while it lives, so
      equal addresses and lengths mean equal text, while equal texts may lie anywhere. */
  datatype Slice = Slice(ptr: nat, len: nat)

  function Text(mem: string, s: Slice): string {
    if s.ptr + s.len <= |mem| then mem[s.ptr..s.ptr + s.len] else ""
  }

  class NormalizationCache {
    const mem: string
    const lower: string -> string
    var byPointer: map<Slice, nat>
    var byValue: map<string, nat>
    var values: seq<string>

    ghost predicate Valid()
      reads this
    {
      && (forall v | v in byValue :: byValue[v] < |values| && values[byValue[v]] == lower(v))
      && (forall s | s in byPointer :: Text(mem, s) in byValue && byPointer[s] == byValue[Text(mem, s)])
    }

    constructor (mem: string, lower: string -> string)
      ensures Valid() && values == [] && byValue == map[]
      ensures this.mem == mem && this.lower == lower
    {
      this.mem, this.lower := mem, lower;
      byPointer, byValue, values := map[], map[], [];
    }

    /** Keys are stable: a text keeps the key it got first, wherever it is borrowed from, and
        no stored value ever moves. */
    method Key(value: Slice) returns (key: nat)
      requires Valid()
      modifies this
      ensures Valid()
      ensures key < |values| && values[key] == lower(Text(mem, value))
      ensures Text(mem, value) in byValue && byValue[Text(mem, value)] == key
      ensures old(values) <= values
      ensures forall v | v in old(byValue) :: v in byValue && byValue[v] == old(byValue)[v]
      ensures byValue.Keys == old(byValue).Keys + {Text(mem, value)}
    {
      if value in byPointer {
        key := byPointer[value];
      } else if Text(mem, value) in byValue {
        key := byValue[Text(mem, value)];
        byPointer := byPointer[value := key];
      } else {
        key := |values|;
        values := values + [lower(Text(mem, value))];
        byPointer := byPointer[value := key];
        byValue := byValue[Text(mem, value) := key];
      }
    }
  }

  datatype NeedleMode = NoNeedle | SingleNeedle(needle: Slice) | MultipleNeedles

  datatype MatchResults =
    | NoMatches
    | SingleMatches(needle: Slice, single: map<nat, bool>)
    | MultipleMatches(multiple: map<(nat, Slice), bool>)
  {
    function Size(): nat {
      match this
      case NoMatches => 0
      case SingleMatches(_, m) => |m|
      case MultipleMatches(m) => |m|
    }

    function Lookup(key: nat, n: Slice): Option<bool> {
      match this
      case SingleMatches(expected, m) => if expected == n && key in m then Some(m[key]) else None
      case MultipleMatches(m) => if (key, n) in m then Some(m[(key, n)]) else None
      case NoMatches => None
    }

    function Remember(key: nat, n: Slice, found: bool, matchesMax: nat): MatchResults {
      match this
      case SingleMatches(expected, m) =>
        if expected == n && |m| < matchesMax then SingleMatches(expected, m[key := found]) else this
      case MultipleMatches(m) => if |m| < matchesMax then MultipleMatches(m[(key, n) := found]) else this
      case NoMatches => this
    }

    /** Every stored answer is the substring test on the stored lowered text. */
    ghost predicate Sound(mem: string, values: seq<string>) {
      match this
      case NoMatches => true
      case SingleMatches(n, m) => forall k | k in m :: k < |values| && m[k] == Contains(values[k], Text(mem, n))
      case MultipleMatches(m) => forall e | e in m :: e.0 < |values| && m[e] == Contains(values[e.0], Text(mem, e.1))
    }
  }

  lemma LookupSound(r: MatchResults, mem: string, values: seq<string>, key: nat, n: Slice)
    requires r.Sound(mem, values) && r.Lookup(key, n).Some?
    ensures key < |values| && r.Lookup(key, n).value == Contains(values[key], Text(mem, n))
  {
  }

  lemma RememberSound(r: MatchResults, mem: string, values: seq<string>, key: nat, n: Slice, matchesMax: nat)
    requires r.Sound(mem, values) && key < |values| && r.Size() <= matchesMax
    ensures var next := r.Remember(key, n, Contains(values[key], Text(mem, n)), matchesMax);
            next.Sound(mem, values) && next.Size() <= matchesMax
  {
    hide Contains;
    hide Text;
  }

  lemma SoundGrows(r: MatchResults, mem: string, before: seq<string>, after: seq<string>)
    requires r.Sound(mem, before) && before <= after
    ensures r.Sound(mem, after)
  {
    hide Contains;
    hide Text;
  }

  class MetadataMatchCache {
    const normalization: NormalizationCache
    const matchesMax: nat
    var matches: MatchResults

    ghost predicate Valid()
      reads this, normalization
    {
      && normalization.Valid()
      && matches.Size() <= matchesMax
      && matches.Sound(normalization.mem, normalization.values)
    }

    constructor (mem: string, lower: string -> string, matchesMax: nat, mode: NeedleMode)
      ensures Valid() && fresh(normalization)
      ensures normalization.mem == mem && normalization.lower == lower && this.matchesMax == matchesMax
      ensures normalization.values == []
    {
      normalization := new NormalizationCache(mem, lower);
      this.matchesMax := matchesMax;
      matches := match mode
        case NoNeedle => NoMatches
        case SingleNeedle(n) => SingleMatches(n, map[])
        case MultipleNeedles => MultipleMatches(map[]);
    }

    /** The cache is invisible: every lookup answers the direct substring test on the lowered
        text, whatever was looked up before and whatever the cache could store. */
    method ContainsText(value: Slice, needle: Slice) returns (found: bool)
      requires Valid()
      modifies this, normalization
      ensures Valid()
      ensures found == Contains(normalization.lower(Text(normalization.mem, value)), Text(normalization.mem, needle))
      ensures old(normalization.values) <= normalization.values
    {
      hide Contains;
      hide MatchResults.Sound;
      var key := normalization.Key(value);
      SoundGrows(matches, normalization.mem, old(normalization.values), normalization.values);
      var cached := matches.Lookup(key, needle);
      if cached.Some? {
        LookupSound(matches, normalization.mem, normalization.values, key, needle);
        return cached.value;
      }
      found := Contains(normalization.values[key], Text(normalization.mem, needle));
      RememberSound(matches, normalization.mem, normalization.values, key, needle, matchesMax);
      matches := matches.Remember(key, needle, found, matchesMax);
    }
  }
}

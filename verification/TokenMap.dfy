/** The map from the language model's token ids back to FAST ids: sorted pairs and a binary search. */
module TokenMap {
  import opened Bytes

  type Pair = (i32, i32)

  predicate Before(a: Pair, b: Pair) {
    a.0 < b.0 || (a.0 == b.0 && a.1 <= b.1)
  }

  predicate Sorted(s: seq<Pair>) {
    forall i, j :: 0 <= i < j < |s| ==> Before(s[i], s[j])
  }

  function Insert(p: Pair, s: seq<Pair>): (r: seq<Pair>)
    ensures multiset(r) == multiset(s) + multiset{p}
  {
    if s == [] then [p]
    else if Before(p, s[0]) then [p] + s
    else
      assert s == [s[0]] + s[1..];
      [s[0]] + Insert(p, s[1..])
  }

  lemma {:induction false} InsertKeepsOrder(p: Pair, s: seq<Pair>)
    requires Sorted(s)
    ensures Sorted(Insert(p, s))
  {
    if s != [] && !Before(p, s[0]) {
      var rest := Insert(p, s[1..]);
      InsertKeepsOrder(p, s[1..]);
      forall i | 0 <= i < |rest| ensures Before(s[0], rest[i]) {
        assert rest[i] in multiset(rest);
        assert rest[i] == p || rest[i] in s[1..];
      }
    }
  }

  /** What `std::sort` leaves: the same pairs in order. */
  function Sort(s: seq<Pair>): (r: seq<Pair>)
    ensures Sorted(r) && multiset(r) == multiset(s)
  {
    if s == [] then []
    else
      assert s == [s[0]] + s[1..];
      InsertKeepsOrder(s[0], Sort(s[1..]));
      Insert(s[0], Sort(s[1..]))
  }

  /** `std::lower_bound`: the first place whose key is not below `v`. */
  method LowerBound(s: seq<Pair>, v: i32) returns (first: nat)
    requires Sorted(s)
    ensures first <= |s|
    ensures forall i :: 0 <= i < first ==> s[i].0 < v
    ensures forall i :: first <= i < |s| ==> v <= s[i].0
  {
    first := 0;
    var count := |s|;
    while count > 0
      invariant 0 <= count && first + count <= |s|
      invariant forall i :: 0 <= i < first ==> s[i].0 < v
      invariant forall i :: first + count <= i < |s| ==> v <= s[i].0
    {
      var step := count / 2;
      if s[first + step].0 < v {
        first, count := first + step + 1, count - (step + 1);
      } else {
        count := step;
      }
    }
  }

  /** Unique, non-negative ids: what both constructors insist on. */
  predicate Injective(ids: seq<i32>) {
    && (forall i :: 0 <= i < |ids| ==> ids[i] >= 0)
    && forall i, j :: 0 <= i < j < |ids| ==> ids[i] != ids[j]
  }

  /** The place of an id in the map, searched from the front. */
  function IndexOf(ids: seq<i32>, v: i32): (r: Option<nat>)
    ensures r.Some? ==> r.value < |ids|
  {
    if ids == [] then None
    else if ids[|ids| - 1] == v then Some(|ids| - 1)
    else IndexOf(ids[..|ids| - 1], v)
  }

  lemma {:induction false} IndexOfMeans(ids: seq<i32>, v: i32, f: nat)
    requires Injective(ids)
    ensures IndexOf(ids, v) == Some(f) <==> f < |ids| && ids[f] == v
    ensures IndexOf(ids, v).None? <==> v !in ids
  {
    if ids != [] {
      IndexOfMeans(ids[..|ids| - 1], v, f);
      assert v in ids <==> v in ids[..|ids| - 1] || v == ids[|ids| - 1];
    }
  }

  function Pairs(ids: seq<i32>): (r: seq<Pair>)
    requires |ids| < 0x8000_0000
    ensures |r| == |ids| && forall f :: 0 <= f < |r| ==> r[f] == (ids[f], f)
  {
    seq(|ids|, f requires 0 <= f < |ids| => (ids[f], f))
  }

  lemma KeyIsMissing(sorted: seq<Pair>, ids: seq<i32>, v: i32, k: nat)
    requires |ids| < 0x8000_0000 && Sorted(sorted) && forall p :: p in sorted <==> p in Pairs(ids)
    requires k <= |sorted| && (forall i :: 0 <= i < k ==> sorted[i].0 < v)
    requires k == |sorted| || sorted[k].0 > v
    ensures v !in ids
  {
    forall f | 0 <= f < |ids| ensures ids[f] != v {
      assert Pairs(ids)[f] in sorted;
      var j :| 0 <= j < |sorted| && sorted[j] == Pairs(ids)[f];
      assert j > k ==> Before(sorted[k], sorted[j]);
    }
  }

  lemma SamePairs(a: seq<Pair>, b: seq<Pair>)
    requires multiset(a) == multiset(b)
    ensures forall p :: p in a <==> p in b
  {
    forall p ensures p in a <==> p in b {
      assert p in a <==> p in multiset(a);
      assert p in b <==> p in multiset(b);
    }
  }

  /** The binary search over the sorted pairs finds exactly what a search of the map itself would. */
  method Find(sorted: seq<Pair>, ids: seq<i32>, v: i32) returns (r: Option<i32>)
    requires |ids| < 0x8000_0000 && Injective(ids) && Sorted(sorted) && multiset(sorted) == multiset(Pairs(ids))
    ensures r == IndexOf(ids, v)
  {
    var k := LowerBound(sorted, v);
    SamePairs(sorted, Pairs(ids));
    if k < |sorted| && sorted[k].0 == v {
      assert sorted[k] in Pairs(ids);
      IndexOfMeans(ids, v, sorted[k].1);
      return Some(sorted[k].1);
    }
    KeyIsMissing(sorted, ids, v, k);
    IndexOfMeans(ids, v, 0);
    return None;
  }
}
